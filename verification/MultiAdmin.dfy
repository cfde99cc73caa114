/** The admin list of multi_admin.rs, a stand-alone module of the contract sources. */
module MultiAdmin {
  import opened Basics

  type Address = string

  /** Persistent storage under the one key; None when nothing was ever stored there. */
  type Storage = Option<seq<Address>>

  function GetAdmins(st: Storage): (admins: seq<Address>) {
    st.GetOr([])
  }

  datatype Call = AddAdmin(caller: Address, newAdmin: Address) | RemoveAdmin(caller: Address, target: Address)

  /** A call with the addresses that authorised it. */
  datatype Invocation = Invocation(call: Call, auths: set<Address>)

  predicate Accepted(st: Storage, i: Invocation) {
    i.call.caller in GetAdmins(st) && i.call.caller in i.auths
  }

  function Without(admins: seq<Address>, target: Address): (r: seq<Address>) {
    if admins == [] then []
    else if admins[0] == target then Without(admins[1..], target)
    else [admins[0]] + Without(admins[1..], target)
  }

  /** A call that panics changes nothing. */
  function Invoke(st: Storage, i: Invocation): (st': Storage) {
    if !Accepted(st, i) then st
    else match i.call
      case AddAdmin(_, a) => if a in GetAdmins(st) then st else Some(GetAdmins(st) + [a])
      case RemoveAdmin(_, a) => Some(Without(GetAdmins(st), a))
  }

  class AdminContract {
    var stored: Storage

    constructor (stored: Storage)
      ensures this.stored == stored
    {
      this.stored := stored;
    }

    /** Walks the list; false stands for the panic of a caller who is not on it or has not authorised. */
    method RequireAnyAdmin(caller: Address, auths: set<Address>) returns (ok: bool)
      ensures ok == (caller in GetAdmins(stored) && caller in auths)
    {
      var admins := GetAdmins(stored);
      for i := 0 to |admins|
        invariant caller !in admins[..i]
      {
        if admins[i] == caller {
          return caller in auths;
        }
        assert admins[..i + 1] == admins[..i] + [admins[i]];
      }
      assert admins[..|admins|] == admins;
      return false;
    }

    method Add(caller: Address, newAdmin: Address, auths: set<Address>) returns (ok: bool)
      modifies this
      ensures ok == (caller in GetAdmins(old(stored)) && caller in auths)
      ensures GetAdmins(stored)
        == GetAdmins(old(stored)) + if ok && newAdmin !in GetAdmins(old(stored)) then [newAdmin] else []
      ensures stored == Invoke(old(stored), Invocation(AddAdmin(caller, newAdmin), auths))
    {
      ok := RequireAnyAdmin(caller, auths);
      if !ok {
        return;
      }
      var admins := GetAdmins(stored);
      if newAdmin !in admins {
        stored := Some(admins + [newAdmin]);
      }
    }

    method Remove(caller: Address, target: Address, auths: set<Address>) returns (ok: bool)
      modifies this
      ensures ok == (caller in GetAdmins(old(stored)) && caller in auths)
      ensures stored == Invoke(old(stored), Invocation(RemoveAdmin(caller, target), auths))
    {
      ok := RequireAnyAdmin(caller, auths);
      if !ok {
        return;
      }
      stored := Some(Without(GetAdmins(stored), target));
    }
  }

  // ---- histories, against a mathematical set ----

  function Run(st: Storage, calls: seq<Invocation>): (st': Storage)
    decreases |calls|
  {
    if calls == [] then st else Run(Invoke(st, calls[0]), calls[1..])
  }

  ghost function AdminSet(st: Storage): (admins: set<Address>) {
    set a | a in GetAdmins(st)
  }

  ghost function InvokeSet(admins: set<Address>, i: Invocation): (admins': set<Address>) {
    if i.call.caller !in admins || i.call.caller !in i.auths then admins
    else match i.call
      case AddAdmin(_, a) => admins + {a}
      case RemoveAdmin(_, a) => admins - {a}
  }

  ghost function RunSet(admins: set<Address>, calls: seq<Invocation>): (admins': set<Address>)
    decreases |calls|
  {
    if calls == [] then admins else RunSet(InvokeSet(admins, calls[0]), calls[1..])
  }

  lemma {:induction false} WithoutIsDifference(admins: seq<Address>, target: Address)
    ensures forall a :: a in Without(admins, target) <==> a in admins && a != target
    ensures Distinct(admins) ==> Distinct(Without(admins, target))
  {
    if admins != [] {
      WithoutIsDifference(admins[1..], target);
      var rest := Without(admins[1..], target);
      if Distinct(admins) {
        assert forall i | 0 <= i < |admins[1..]| :: admins[1..][i] == admins[i + 1];
        assert admins[0] !in admins[1..];
        assert forall i | 0 <= i < |rest| :: rest[i] in rest;
      }
    }
  }

  lemma InvokeRefinesSet(st: Storage, i: Invocation)
    requires Distinct(GetAdmins(st))
    ensures Distinct(GetAdmins(Invoke(st, i))) && AdminSet(Invoke(st, i)) == InvokeSet(AdminSet(st), i)
  {
    WithoutIsDifference(GetAdmins(st), i.call.caller);
    if i.call.RemoveAdmin? {
      WithoutIsDifference(GetAdmins(st), i.call.target);
    }
    assert forall j | 0 <= j < |GetAdmins(st)| :: GetAdmins(st)[j] in GetAdmins(st);
  }

  /** A call of somebody who is not on the list, or has not authorised it, panics and changes nothing. */
  lemma UnauthorisedChangesNothing(st: Storage, i: Invocation)
    requires !(i.call.caller in GetAdmins(st) && i.call.caller in i.auths)
    ensures Invoke(st, i) == st
  {}

  /** Removing keeps the others in their order. */
  lemma {:induction false} WithoutKeepsOrder(admins: seq<Address>, last: Address, target: Address)
    ensures Without(admins + [last], target) == Without(admins, target) + if last == target then [] else [last]
  {
    if admins == [] {
      assert [] + [last] == [last] && [last][1..] == [];
    } else {
      assert (admins + [last])[1..] == admins[1..] + [last];
      WithoutKeepsOrder(admins[1..], last, target);
    }
  }

  /** The stored list never gains a duplicate and follows the set under every run. */
  lemma {:induction false} RunRefinesSet(st: Storage, calls: seq<Invocation>)
    requires Distinct(GetAdmins(st))
    ensures Distinct(GetAdmins(Run(st, calls))) && AdminSet(Run(st, calls)) == RunSet(AdminSet(st), calls)
    decreases |calls|
  {
    if calls != [] {
      InvokeRefinesSet(st, calls[0]);
      RunRefinesSet(Invoke(st, calls[0]), calls[1..]);
    }
  }

  /** The empty set is absorbing: from unseeded storage, or once the last admin is gone, no call succeeds and
      nothing changes any more. */
  lemma {:induction false} EmptyIsAbsorbing(st: Storage, calls: seq<Invocation>)
    requires GetAdmins(st) == []
    ensures Run(st, calls) == st
    ensures forall j | 0 <= j < |calls| :: !Accepted(Run(st, calls[..j]), calls[j])
    decreases |calls|
  {
    if calls != [] {
      EmptyIsAbsorbing(st, calls[1..]);
      forall j | 0 <= j < |calls|
        ensures !Accepted(Run(st, calls[..j]), calls[j])
      {
        if j > 0 {
          assert calls[..j][1..] == calls[1..][..j - 1];
          assert calls[j] == calls[1..][j - 1];
        }
      }
    }
  }

  /** The only way to lose all admins is that the last one removes himself. */
  lemma LastAdminLeaves(st: Storage, i: Invocation)
    requires Distinct(GetAdmins(st)) && GetAdmins(st) != []
    ensures GetAdmins(Invoke(st, i)) == [] <==>
      Accepted(st, i) && i.call == RemoveAdmin(i.call.caller, i.call.caller) && GetAdmins(st) == [i.call.caller]
  {
    var admins := GetAdmins(st);
    if i.call.RemoveAdmin? {
      WithoutIsDifference(admins, i.call.target);
      var left := Without(admins, i.call.target);
      assert left != [] ==> left[0] in left;
      assert admins[0] in admins && (|admins| > 1 ==> admins[1] in admins);
    }
  }
}
