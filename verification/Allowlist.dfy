/** The allowlist contract. A call that panics leaves the storage as it was. */
module Allowlist {
  import opened Basics

  type Address = string

  /** Instance storage holds the admin and the name, persistent storage an entry per allowed user. */
  datatype Storage = Storage(admin: Option<Address>, name: Bytes, allowed: set<Address>)

  const EMPTY := Storage(None, [], {})

  datatype Call = InitCall(admin: Address, name: Bytes) | AddCall(account: Address) | RemoveCall(account: Address)

  /** A call with the addresses that authorised it. */
  datatype Invocation = Invocation(call: Call, auths: set<Address>)

  predicate Accepted(st: Storage, i: Invocation) {
    match i.call
    case InitCall(_, _) => st.admin == None
    case _ => st.admin.Some? && st.admin.value in i.auths
  }

  function Invoke(st: Storage, i: Invocation): (st': Storage) {
    if !Accepted(st, i) then st
    else match i.call
      case InitCall(admin, name) => Storage(Some(admin), name, st.allowed)
      case AddCall(account) => st.(allowed := st.allowed + {account})
      case RemoveCall(account) => st.(allowed := st.allowed - {account})
  }

  class AllowlistContract {
    var admin: Option<Address>
    var name: Bytes
    var allowed: set<Address>

    constructor ()
      ensures View() == EMPTY
    {
      admin, name, allowed := None, [], {};
    }

    ghost function View(): Storage reads this {
      Storage(admin, name, allowed)
    }

    method Init(admin: Address, name: Bytes, auths: set<Address>) returns (ok: bool)
      modifies this
      ensures ok == (old(this.admin) == None)
      ensures View() == if ok then Storage(Some(admin), name, old(allowed)) else old(View())
      ensures View() == Invoke(old(View()), Invocation(InitCall(admin, name), auths))
    {
      if this.admin.Some? {
        return false;
      }
      this.admin := Some(admin);
      this.name := name;
      return true;
    }

    method Add(account: Address, auths: set<Address>) returns (ok: bool)
      modifies this
      ensures ok == (admin.Some? && admin.value in auths)
      ensures View() == old(View()).(allowed := old(allowed) + if ok then {account} else {})
      ensures View() == Invoke(old(View()), Invocation(AddCall(account), auths))
    {
      if admin == None || admin.value !in auths {
        return false;
      }
      allowed := allowed + {account};
      return true;
    }

    method Remove(account: Address, auths: set<Address>) returns (ok: bool)
      modifies this
      ensures ok == (admin.Some? && admin.value in auths)
      ensures View() == old(View()).(allowed := old(allowed) - if ok then {account} else {})
      ensures View() == Invoke(old(View()), Invocation(RemoveCall(account), auths))
    {
      if admin == None || admin.value !in auths {
        return false;
      }
      allowed := allowed - {account};
      return true;
    }

    method IsAllowed(account: Address) returns (yes: bool)
      ensures yes == (account in View().allowed)
    {
      yes := account in allowed;
    }

    /** False stands for the panic "ENoAccess". The object id is not looked at. */
    method Approve(id: Bytes, caller: Address) returns (ok: bool)
      ensures ok == (caller in View().allowed)
    {
      ok := IsAllowed(caller);
    }
  }

  // ---- histories ----

  function After(calls: seq<Invocation>): (st: Storage) {
    if calls == [] then EMPTY else Invoke(After(calls[..|calls| - 1]), calls[|calls| - 1])
  }

  /** An add or remove that the admin has not authorised panics and changes nothing. */
  lemma UnauthorisedChangesNothing(st: Storage, i: Invocation)
    requires !i.call.InitCall? && (st.admin == None || st.admin.value !in i.auths)
    ensures !Accepted(st, i) && Invoke(st, i) == st
  {}

  /** Whom the first init named. */
  function FirstAdmin(calls: seq<Invocation>): (admin: Option<Address>) {
    if calls == [] then None
    else if calls[0].call.InitCall? then Some(calls[0].call.admin)
    else FirstAdmin(calls[1..])
  }

  /** The admin is whom the first init named, whoever calls it and whatever comes later. */
  lemma {:induction false} AdminIsFirst(calls: seq<Invocation>)
    ensures After(calls).admin == FirstAdmin(calls)
  {
    if calls != [] {
      var n := |calls| - 1;
      AdminIsFirst(calls[..n]);
      FirstOfOneMore(calls[..n], calls[n]);
      assert calls[..n] + [calls[n]] == calls;
    }
  }

  lemma {:induction false} FirstOfOneMore(calls: seq<Invocation>, last: Invocation)
    ensures FirstAdmin(calls + [last]) == if FirstAdmin(calls).Some? then FirstAdmin(calls)
      else if last.call.InitCall? then Some(last.call.admin) else None
  {
    if calls == [] {
      assert [] + [last] == [last] && [last][1..] == [];
    } else {
      assert (calls + [last])[1..] == calls[1..] + [last];
      FirstOfOneMore(calls[1..], last);
    }
  }

  /** What the last add or remove of the account was, of those that the admin of the first init before them
      authorised: Some(true) for an add. */
  function LastGrant(calls: seq<Invocation>, account: Address): (grant: Option<bool>) {
    if calls == [] then None
    else
      var earlier, last := calls[..|calls| - 1], calls[|calls| - 1];
      var admin := FirstAdmin(earlier);
      if admin.Some? && admin.value in last.auths && last.call == AddCall(account) then Some(true)
      else if admin.Some? && admin.value in last.auths && last.call == RemoveCall(account) then Some(false)
      else LastGrant(earlier, account)
  }

  /** Access is exactly the last authorised add or remove. */
  lemma {:induction false} AllowedByLastGrant(calls: seq<Invocation>, account: Address)
    ensures account in After(calls).allowed <==> LastGrant(calls, account) == Some(true)
  {
    if calls != [] {
      AllowedByLastGrant(calls[..|calls| - 1], account);
      AdminIsFirst(calls[..|calls| - 1]);
    }
  }

  /** The admin never changes after the first successful init, whatever is called. */
  lemma {:induction false} AdminNeverChanges(calls: seq<Invocation>, more: seq<Invocation>)
    requires After(calls).admin.Some?
    ensures After(calls + more).admin == After(calls).admin
    decreases |more|
  {
    if more == [] {
      assert calls + more == calls;
    } else {
      var n := |more| - 1;
      AdminNeverChanges(calls, more[..n]);
      assert (calls + more)[..|calls| + n] == calls + more[..n];
    }
  }
}
