/** The per-object grants of per_object.rs, a stand-alone module of the contract sources. */
module PerObject {
  import opened Basics

  type Address = string
  type Symbol = string

  datatype Pair = Pair(objectID: Symbol, account: Address)

  /** The delegated_from field is always stored as absent and left out. */
  datatype ObjectAccess = ObjectAccess(granted: bool, expiry: Option<uint32>)

  type Storage = map<Pair, ObjectAccess>

  datatype Call = Grant(admin: Address, pair: Pair, expiry: Option<uint32>) | Revoke(admin: Address, pair: Pair)

  datatype Invocation = Invocation(call: Call, auths: set<Address>)

  /** The admin argument has to have authorised the call; the module compares it with nothing. */
  predicate Accepted(i: Invocation) {
    i.call.admin in i.auths
  }

  function Invoke(st: Storage, i: Invocation): (st': Storage) {
    if !Accepted(i) then st
    else match i.call
      case Grant(_, pair, expiry) => st[pair := ObjectAccess(true, expiry)]
      case Revoke(_, pair) => st - {pair}
  }

  predicate Check(st: Storage, sequence: uint32, pair: Pair) {
    pair in st
    && (st[pair].expiry.Some? ==> sequence <= st[pair].expiry.value)
    && st[pair].granted
  }

  class AccessContract {
    var entries: Storage

    constructor ()
      ensures entries == map[]
    {
      entries := map[];
    }

    method GrantObjectAccess(admin: Address, objectID: Symbol, account: Address, expiry: Option<uint32>,
        auths: set<Address>)
      returns (ok: bool)
      modifies this
      ensures ok == (admin in auths)
      ensures entries == Invoke(old(entries), Invocation(Grant(admin, Pair(objectID, account), expiry), auths))
      ensures entries
        == if ok then old(entries)[Pair(objectID, account) := ObjectAccess(true, expiry)] else old(entries)
    {
      if admin !in auths {
        return false;
      }
      entries := entries[Pair(objectID, account) := ObjectAccess(true, expiry)];
      return true;
    }

    method RevokeObjectAccess(admin: Address, objectID: Symbol, account: Address, auths: set<Address>)
      returns (ok: bool)
      modifies this
      ensures ok == (admin in auths)
      ensures entries == Invoke(old(entries), Invocation(Revoke(admin, Pair(objectID, account)), auths))
      ensures entries == old(entries) - if ok then {Pair(objectID, account)} else {}
    {
      if admin !in auths {
        return false;
      }
      entries := entries - {Pair(objectID, account)};
      return true;
    }

    method CheckObjectAccess(objectID: Symbol, account: Address, sequence: uint32) returns (yes: bool)
      ensures yes == Check(entries, sequence, Pair(objectID, account))
    {
      var key := Pair(objectID, account);
      if key in entries {
        var access := entries[key];
        if access.expiry.Some? {
          if sequence > access.expiry.value {
            return false;
          }
        }
        return access.granted;
      }
      return false;
    }
  }

  // ---- histories ----

  function After(calls: seq<Invocation>): (st: Storage) {
    if calls == [] then map[] else Invoke(After(calls[..|calls| - 1]), calls[|calls| - 1])
  }

  /** The latest call about a pair that its admin argument authorised, if any. */
  function Latest(calls: seq<Invocation>, pair: Pair): (call: Option<Call>) {
    if calls == [] then None
    else
      var last := calls[|calls| - 1];
      if last.call.admin in last.auths && last.call.pair == pair then Some(last.call)
      else Latest(calls[..|calls| - 1], pair)
  }

  /** A call that its admin argument has not authorised panics and changes nothing. */
  lemma UnauthorisedChangesNothing(st: Storage, i: Invocation)
    requires i.call.admin !in i.auths
    ensures Invoke(st, i) == st
  {}

  /** Access holds exactly when the pair's latest accepted call is a grant that has not expired; calls about
      other pairs never matter. */
  lemma {:induction false} AccessByLatestCall(calls: seq<Invocation>, sequence: uint32, pair: Pair)
    ensures Check(After(calls), sequence, pair) <==>
      match Latest(calls, pair)
      case Some(Grant(_, _, expiry)) => expiry.Some? ==> sequence <= expiry.value
      case _ => false
  {
    if calls != [] {
      AccessByLatestCall(calls[..|calls| - 1], sequence, pair);
    }
  }

  lemma {:induction false} LatestWithoutGrants(calls: seq<Invocation>, more: seq<Invocation>, pair: Pair)
    requires forall i | 0 <= i < |more| && more[i].call.admin in more[i].auths ::
      !more[i].call.Grant? || more[i].call.pair != pair
    ensures Latest(calls + more, pair) == Latest(calls, pair)
      || (Latest(calls + more, pair).Some? && Latest(calls + more, pair).value.Revoke?)
    decreases |more|
  {
    if more == [] {
      assert calls + more == calls;
    } else {
      var n := |more| - 1;
      LatestWithoutGrants(calls, more[..n], pair);
      assert (calls + more)[..|calls| + n] == calls + more[..n];
    }
  }

  /** Once denied, by expiry or otherwise, a pair stays denied at every later ledger until it is granted
      again. */
  lemma DeniedUntilGranted(calls: seq<Invocation>, more: seq<Invocation>, pair: Pair, now: uint32, later: uint32)
    requires now <= later && !Check(After(calls), now, pair)
    requires forall i | 0 <= i < |more| && more[i].call.admin in more[i].auths ::
      !more[i].call.Grant? || more[i].call.pair != pair
    ensures !Check(After(calls + more), later, pair)
  {
    AccessByLatestCall(calls, now, pair);
    AccessByLatestCall(calls + more, later, pair);
    LatestWithoutGrants(calls, more, pair);
  }
}
