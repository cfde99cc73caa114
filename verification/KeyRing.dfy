/** The node's key ring under rotation. Rotate generates a key outside the lock and publishes it inside;
    the handlers read the node key variables without the lock, so every write of the critical section is
    a step of its own and any number of Rotate calls may be under way at once. */
module KeyRing {
  import opened Basics
  import opened Crypto

  /** The key manager's fields and the two node key variables it publishes to. */
  datatype Ring = Ring(keys: map<nat, PrivKey>, current: nat, lastRotation: int, nodePriv: PrivKey, nodePub: Bytes)

  function InitRing(s: Suite, key: PrivKey, now: int): (r: Ring) {
    Ring(map[0 := key], 0, now, key, s.pub(key))
  }

  /** The version counter is a uint64. */
  function AddVersion(r: Ring, key: PrivKey, now: int): (r': Ring) {
    var v := (r.current + 1) % U64;
    r.(keys := r.keys[v := key], current := v, lastRotation := now)
  }

  function PublishKey(s: Suite, r: Ring, key: PrivKey, now: int): (r': Ring) {
    AddVersion(r, key, now).(nodePriv := key, nodePub := s.pub(key))
  }

  class KeyManager {
    var currentVersion: nat
    var keys: map<nat, PrivKey>
    var lastRotation: int
    var nodePrivateKey: PrivKey
    var nodePublicKey: Bytes

    ghost function View(): Ring reads this {
      Ring(keys, currentVersion, lastRotation, nodePrivateKey, nodePublicKey)
    }

    /** Start of the process, with the key loaded from disk or generated. */
    constructor (s: Suite, priv: PrivKey, now: int)
      ensures View() == InitRing(s, priv, now)
    {
      keys, currentVersion, lastRotation := map[0 := priv], 0, now;
      nodePrivateKey, nodePublicKey := priv, s.pub(priv);
    }

    method CurrentVersion() returns (v: nat)
      ensures v == View().current
    {
      v := currentVersion;
    }

    method GetKey(version: nat) returns (key: Option<PrivKey>)
      ensures key == if version in View().keys then Some(View().keys[version]) else None
    {
      key := if version in keys then Some(keys[version]) else None;
    }

    /** One Rotate with no other under way. Stored shares are not touched. */
    method Rotate(s: Suite, newKey: PrivKey, now: int)
      modifies this
      ensures View() == PublishKey(s, old(View()), newKey, now)
      ensures currentVersion == (old(currentVersion) + 1) % 0x1_0000_0000_0000_0000
      ensures keys == old(keys)[currentVersion := newKey] && lastRotation == now
      ensures nodePrivateKey == newKey && nodePublicKey == s.pub(newKey)
    {
      var newVersion := (currentVersion + 1) % U64;
      keys := keys[newVersion := newKey];
      currentVersion := newVersion;
      lastRotation := now;
      nodePrivateKey := newKey;
      nodePublicKey := s.pub(newKey);
    }

    /** POST /rotate-key: rotate, then report the version current by then. */
    method HandleRotateKey(s: Suite, newKey: PrivKey, now: int) returns (reported: nat)
      modifies this
      ensures View() == PublishKey(s, old(View()), newKey, now)
      ensures reported == (old(View()).current + 1) % U64
    {
      Rotate(s, newKey, now);
      reported := CurrentVersion();
    }
  }

  // ---- any interleaving of rotations ----

  /** How far a call of handleRotateKey has come. */
  datatype Phase =
    | Generated(key: PrivKey)
    | RingUpdated(version: nat, key: PrivKey)
    | PrivateSet(version: nat, key: PrivKey)
    | Returned(version: nat)
    | Reported(version: nat, reported: nat)

  /** The ring, the lock, the calls in progress, and a record of what was published: history holds the keys
      in order of publication, handedOut the versions given to them. */
  datatype State = State(ring: Ring, lock: Option<Tid>, phases: map<Tid, Phase>, history: seq<PrivKey>,
    handedOut: seq<nat>)

  datatype Action =
    | Generate(t: Tid, key: PrivKey)
    | Enter(t: Tid, now: int)
    | SetPrivate(t: Tid)
    | SetPublic(t: Tid)
    | Report(t: Tid)

  function Init(s: Suite, key: PrivKey, now: int): (st: State) {
    State(InitRing(s, key, now), None, map[], [key], [])
  }

  /** One step of one call; an action that is not due, or waits for the lock, does nothing. */
  function Step(s: Suite, st: State, a: Action): (st': State) {
    match a
    case Generate(t, key) =>
      if t in st.phases && !st.phases[t].Reported? then st
      else st.(phases := st.phases[t := Generated(key)])
    case Enter(t, now) =>
      if st.lock.Some? || t !in st.phases || !st.phases[t].Generated? then st
      else
        var key := st.phases[t].key;
        var ring := AddVersion(st.ring, key, now);
        State(ring, Some(t), st.phases[t := RingUpdated(ring.current, key)], st.history + [key],
          st.handedOut + [ring.current])
    case SetPrivate(t) =>
      if t !in st.phases || !st.phases[t].RingUpdated? then st
      else
        var p := st.phases[t];
        st.(ring := st.ring.(nodePriv := p.key), phases := st.phases[t := PrivateSet(p.version, p.key)])
    case SetPublic(t) =>
      if t !in st.phases || !st.phases[t].PrivateSet? then st
      else
        var p := st.phases[t];
        st.(ring := st.ring.(nodePub := s.pub(p.key)), lock := None, phases := st.phases[t := Returned(p.version)])
    case Report(t) =>
      if st.lock.Some? || t !in st.phases || !st.phases[t].Returned? then st
      else st.(phases := st.phases[t := Reported(st.phases[t].version, st.ring.current)])
  }

  function Run(s: Suite, st: State, acts: seq<Action>): (st': State)
    decreases |acts|
  {
    if acts == [] then st else Run(s, Step(s, st, acts[0]), acts[1..])
  }

  /** The index in history of the key the handlers decrypt with. */
  ghost function ActiveVersion(st: State): (v: int) {
    if st.lock.Some? && st.lock.value in st.phases && st.phases[st.lock.value].RingUpdated?
    then |st.history| - 2 else |st.history| - 1
  }

  /** The index in history of the key whose public half is being handed out. */
  ghost function OfferedVersion(st: State): (v: int) {
    if st.lock.Some? then |st.history| - 2 else |st.history| - 1
  }

  /** A publication has replaced the private key, but not yet the public one. */
  predicate HalfPublished(st: State) {
    st.lock.Some? && st.lock.value in st.phases && st.phases[st.lock.value].PrivateSet?
  }

  ghost predicate RingInv(st: State) {
    && |st.history| >= 1
    && |st.handedOut| == |st.history| - 1
    && (forall i | 0 <= i < |st.handedOut| :: st.handedOut[i] == (i + 1) % U64)
    && st.ring.current == (|st.history| - 1) % U64
    && (forall v :: v in st.ring.keys <==> 0 <= v < U64 && v < |st.history|)
    && (|st.history| <= U64 ==> forall v | 0 <= v < |st.history| :: st.ring.keys[v] == st.history[v])
    && st.ring.keys[st.ring.current] == st.history[|st.history| - 1]
  }

  ghost predicate NodeKeyInv(s: Suite, st: State) {
    && 0 <= OfferedVersion(st) <= ActiveVersion(st) < |st.history|
    && st.ring.nodePriv == st.history[ActiveVersion(st)]
    && st.ring.nodePub == s.pub(st.history[OfferedVersion(st)])
  }

  predicate InCriticalSection(p: Phase) {
    p.RingUpdated? || p.PrivateSet?
  }

  ghost predicate CriticalInv(st: State) {
    && |st.history| >= 1
    && (forall t | t in st.phases && InCriticalSection(st.phases[t]) ::
          st.lock == Some(t) && st.phases[t].key == st.history[|st.history| - 1])
    && (st.lock.Some? ==> st.lock.value in st.phases && InCriticalSection(st.phases[st.lock.value]))
  }

  ghost predicate ReportInv(st: State) {
    |st.history| <= U64 ==>
      forall t | t in st.phases && !st.phases[t].Generated? ::
        && 1 <= st.phases[t].version <= st.ring.current
        && (st.phases[t].Reported? ==> st.phases[t].version <= st.phases[t].reported <= st.ring.current)
  }

  ghost predicate Inv(s: Suite, st: State) {
    RingInv(st) && CriticalInv(st) && NodeKeyInv(s, st) && ReportInv(st)
  }

  lemma StepKeepsInv(s: Suite, st: State, a: Action)
    requires Inv(s, st)
    ensures Inv(s, Step(s, st, a))
  {
    if a.Enter? && Step(s, st, a) != st {
      EnterKeepsInv(s, st, a.t, a.now);
    }
  }

  lemma EnterKeepsInv(s: Suite, st: State, t: Tid, now: int)
    requires Inv(s, st) && st.lock.None? && t in st.phases && st.phases[t].Generated?
    ensures Inv(s, Step(s, st, Enter(t, now)))
  {
    EnterKeepsRing(s, st, t, now);
    EnterKeepsReports(s, st, t, now);
    hide RingInv, ReportInv;
    var st' := Step(s, st, Enter(t, now));
    assert st'.history == st.history + [st.phases[t].key];
  }

  lemma EnterKeepsReports(s: Suite, st: State, t: Tid, now: int)
    requires RingInv(st) && ReportInv(st) && st.lock.None? && t in st.phases && st.phases[t].Generated?
    ensures ReportInv(Step(s, st, Enter(t, now)))
  {
    assert |st.history| < U64 ==> st.ring.current + 1 == |st.history|;
  }

  lemma EnterKeepsRing(s: Suite, st: State, t: Tid, now: int)
    requires RingInv(st) && st.lock.None? && t in st.phases && st.phases[t].Generated?
    ensures RingInv(Step(s, st, Enter(t, now)))
  {
    var st' := Step(s, st, Enter(t, now));
    var n := |st.history|;
    assert st'.ring.current == n % U64;
    assert st'.ring.keys == st.ring.keys[n % U64 := st.phases[t].key] && st'.history == st.history + [st.phases[t].key];
    hide Step, AddVersion;
    if n >= U64 {
      assert forall v :: v in st'.ring.keys <==> 0 <= v < U64;
    }
  }

  lemma {:induction false} RunKeepsInv(s: Suite, st: State, acts: seq<Action>)
    requires Inv(s, st)
    ensures Inv(s, Run(s, st, acts))
    decreases |acts|
  {
    if acts != [] {
      StepKeepsInv(s, st, acts[0]);
      RunKeepsInv(s, Step(s, st, acts[0]), acts[1..]);
    }
  }

  lemma InitInv(s: Suite, key: PrivKey, now: int)
    ensures Inv(s, Init(s, key, now))
  {}

  /** Any number of Rotate calls in any interleaving: after N publications (N below 2^64) the ring holds
      exactly the versions 0..N with the keys in order of publication, the versions handed out are 1..N,
      outside the critical section the node key pair is the current entry, and no call reports a version
      below its own. */
  lemma ConcurrentRotation(s: Suite, key: PrivKey, now: int, acts: seq<Action>)
    ensures var st := Run(s, Init(s, key, now), acts);
      var published := |st.history| - 1;
      && published >= 0
      && (st.lock.None? ==>
            && st.ring.current in st.ring.keys
            && st.ring.nodePriv == st.ring.keys[st.ring.current]
            && st.ring.nodePub == s.pub(st.ring.nodePriv))
      && (published < U64 ==>
            && st.ring.current == published
            && (forall v :: v in st.ring.keys <==> 0 <= v <= published)
            && (forall v | v in st.ring.keys :: st.ring.keys[v] == st.history[v])
            && st.handedOut == seq(published, i => i + 1)
            && (forall t | t in st.phases && st.phases[t].Reported? :: st.phases[t].reported >= st.phases[t].version))
  {
    InitInv(s, key, now);
    RunKeepsInv(s, Init(s, key, now), acts);
  }

  /** Publishing keeps every earlier entry, exactly until the 2^64th key wraps round to version 0. */
  lemma EntriesKeptUntilWrap(s: Suite, st: State, t: Tid, now: int)
    requires Inv(s, st) && |st.history| <= U64
    requires st.lock.None? && t in st.phases && st.phases[t].Generated?
    ensures var ring := Step(s, st, Enter(t, now)).ring;
      (forall v | v in st.ring.keys :: v in ring.keys && ring.keys[v] == st.ring.keys[v])
        <==> |st.history| < U64 || st.phases[t].key == st.history[0]
  {
    var ring := Step(s, st, Enter(t, now)).ring;
    if |st.history| == U64 {
      assert ring.keys[0] == st.phases[t].key && 0 in st.ring.keys;
    }
  }

  /** Published keys stay published, and below the wrap the ring only grows. */
  lemma {:induction false} RunExtends(s: Suite, st: State, acts: seq<Action>)
    requires Inv(s, st)
    ensures var st' := Run(s, st, acts);
      && st.history <= st'.history
      && (|st'.history| <= U64 ==>
            forall v | v in st.ring.keys :: v in st'.ring.keys && st'.ring.keys[v] == st.ring.keys[v])
    decreases |acts|
  {
    if acts != [] {
      StepKeepsInv(s, st, acts[0]);
      RunExtends(s, Step(s, st, acts[0]), acts[1..]);
    }
    RunKeepsInv(s, st, acts);
  }

  /** What a client makes of the public key it fetched. */
  ghost function Sent(s: Suite, fetched: Bytes, share: Bytes, ephemeral: PrivKey, nonce: Bytes): (e: Sealed)
    requires EciesEncrypt(s, fetched, share, ephemeral, nonce).Some?
  {
    EciesEncrypt(s, fetched, share, ephemeral, nonce).value
  }

  /** No share is lost to rotation: whatever was sealed under a public key fetched at any moment, even in
      the middle of a publication, some version of any later ring still opens. */
  lemma FetchedKeyStaysRecoverable(s: Suite, key: PrivKey, now: int, before: seq<Action>, after: seq<Action>,
      share: Bytes, ephemeral: PrivKey, nonce: Bytes) returns (v: nat)
    requires s.Lawful() && ValidNonce(nonce) && |share| <= MAX_PLAINTEXT
    requires |Run(s, Run(s, Init(s, key, now), before), after).history| <= U64
    ensures var st1 := Run(s, Init(s, key, now), before);
      var st2 := Run(s, st1, after);
      && EciesEncrypt(s, st1.ring.nodePub, share, ephemeral, nonce).Some?
      && v <= st2.ring.current && v in st2.ring.keys
      && var e := Sent(s, st1.ring.nodePub, share, ephemeral, nonce);
         DecryptShare(s, st2.ring.keys[v], e.ephemeralPub, e.ciphertext, e.nonce) == Opened(share)
  {
    hide Run, DecryptShare, EciesEncrypt;
    var st1 := Run(s, Init(s, key, now), before);
    InitInv(s, key, now);
    RunKeepsInv(s, Init(s, key, now), before);
    RunExtends(s, st1, after);
    RunKeepsInv(s, st1, after);
    v := OfferedVersion(st1);
    EciesRoundTrip(s, st1.history[v], share, ephemeral, nonce);
  }

  /** Among distinct keys, only the addressee's gives the share back. */
  lemma OnlyOneVersionOpens(s: Suite, history: seq<PrivKey>, v: nat, w: nat, share: Bytes, ephemeral: PrivKey,
      nonce: Bytes)
    requires s.Lawful() && ValidNonce(nonce) && |share| <= MAX_PLAINTEXT
    requires v < |history| && w < |history| && Distinct(history)
    requires EciesEncrypt(s, s.pub(history[v]), share, ephemeral, nonce).Some?
    requires IdealFor(s, history, history[v], Sent(s, s.pub(history[v]), share, ephemeral, nonce))
    ensures var e := Sent(s, s.pub(history[v]), share, ephemeral, nonce);
      DecryptShare(s, history[w], e.ephemeralPub, e.ciphertext, e.nonce) == Opened(share) <==> w == v
  {
    EciesRoundTrip(s, history[v], share, ephemeral, nonce);
    if v != w {
      hide DecryptShare, EciesEncrypt;
      assert history[v] != history[w];
      OthersCannotOpen(s, history, history[v], Sent(s, s.pub(history[v]), share, ephemeral, nonce), history[w]);
    }
  }

  /** The exact service condition. The handler decrypts with the one key that is active at that moment, so
      with distinct keys, and a cipher that opens for nobody but the addressee, it returns the share exactly
      when the version the client encrypted under is the active one. Outside a publication that is the
      current version. */
  lemma ServedExactlyByActiveVersion(s: Suite, st1: State, after: seq<Action>, st2: State,
      share: Bytes, ephemeral: PrivKey, nonce: Bytes)
    requires s.Lawful() && ValidNonce(nonce) && |share| <= MAX_PLAINTEXT
    requires Inv(s, st1) && st2 == Run(s, st1, after) && Distinct(st2.history)
    requires EciesEncrypt(s, st1.ring.nodePub, share, ephemeral, nonce).Some?
    requires IdealFor(s, st2.history,
      st1.history[OfferedVersion(st1)], Sent(s, st1.ring.nodePub, share, ephemeral, nonce))
    ensures var e := Sent(s, st1.ring.nodePub, share, ephemeral, nonce);
      var served := DecryptShare(s, st2.ring.nodePriv, e.ephemeralPub, e.ciphertext, e.nonce) == Opened(share);
      && (served <==> ActiveVersion(st2) == OfferedVersion(st1))
      && (st2.lock.None? && |st2.history| <= U64 ==> ActiveVersion(st2) == st2.ring.current)
  {
    hide Run, DecryptShare, EciesEncrypt;
    RunExtends(s, st1, after);
    RunKeepsInv(s, st1, after);
    var v := OfferedVersion(st1);
    assert st1.history[v] == st2.history[v];
    OnlyOneVersionOpens(s, st2.history, v, ActiveVersion(st2), share, ephemeral, nonce);
  }

  lemma RunCons(s: Suite, st: State, a: Action, rest: seq<Action>)
    ensures Run(s, st, [a] + rest) == Run(s, Step(s, st, a), rest)
  {
    assert ([a] + rest)[1..] == rest;
  }

  /** A call reports the version that is current when it comes to report, its own or that of a later publication. */
  lemma ReportsLatest(s: Suite, st: State, t: Tid)
    requires Inv(s, st) && st.lock.None? && t in st.phases && st.phases[t].Returned?
    ensures Step(s, st, Report(t)).phases[t] == Reported(st.phases[t].version, (|st.history| - 1) % U64)
  {}

  /** A call that runs alone goes through the same steps as the method. */
  lemma RotateAlone(s: Suite, st: State, t: Tid, key: PrivKey, now: int)
    requires Inv(s, st) && st.lock.None? && (t in st.phases ==> st.phases[t].Reported?)
    ensures var st' := Run(s, st,
      [Generate(t, key)] + ([Enter(t, now)] + ([SetPrivate(t)] + ([SetPublic(t)] + [Report(t)]))));
      && st'.ring == PublishKey(s, st.ring, key, now)
      && t in st'.phases
      && st'.phases[t] == Reported((st.ring.current + 1) % U64, (st.ring.current + 1) % U64)
  {
    var st1 := Step(s, st, Generate(t, key));
    var st2 := Step(s, st1, Enter(t, now));
    var st3 := Step(s, st2, SetPrivate(t));
    var st4 := Step(s, st3, SetPublic(t));
    RunCons(s, st, Generate(t, key), [Enter(t, now)] + ([SetPrivate(t)] + ([SetPublic(t)] + [Report(t)])));
    RunCons(s, st1, Enter(t, now), [SetPrivate(t)] + ([SetPublic(t)] + [Report(t)]));
    RunCons(s, st2, SetPrivate(t), [SetPublic(t)] + [Report(t)]);
    RunCons(s, st3, SetPublic(t), [Report(t)]);
    RunCons(s, st4, Report(t), []);
    assert [Report(t)] + [] == [Report(t)];
  }
}
