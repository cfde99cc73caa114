/** Concrete runs. A small network meets the hypotheses of the end-to-end results; on it, a node listed twice, a share
    lost to a rotation, a rotation in the middle of a recovery, and a request whose envelope names another account
    than its caller. */
module Example {
  import opened Basics
  import opened Crypto
  import opened Client
  import opened Recovery
  import opened Retrieve
  import opened Transaction
  import Allowlist
  import Availability
  import Consistency
  import Grants
  import KeyRing
  import Node
  import OtherObjects
  import Rotations
  import ShareStore

  const ZEROS := Consistency.Repeat(0, 32)
  const ONES := Consistency.Repeat(1, 32)
  const CONTRACT := "C"
  const CALLER := "G"
  const OTHER := "H"

  /** The two envelopes the codec below has a text for: one names its source account, one another. */
  const OWN := ApproveEnvelope(ZEROS, ZEROS, ZEROS)
  const NAMING := V1(Some(Tx(Ed25519(ZEROS), [InvokeHostFunction(InvokeContract(Some(InvokeArgs(
    ContractAddress(Some(ZEROS)), "approve", [ScBytes(ZEROS), ScAddr(AccountAddress(Some(ONES)))]))))])))

  function SmallCodec(): (codec: Codec) {
    Codec(
      s => if s == CONTRACT then Some(ZEROS) else None,
      b => if b == ZEROS then Some(CONTRACT) else None,
      s => if s == CALLER then Some(ZEROS) else if s == OTHER then Some(ONES) else None,
      b => if b == ZEROS then Some(CALLER) else if b == ONES then Some(OTHER) else None,
      (id: nat, b) => None,
      e => if e == OWN then Some("T") else if e == NAMING then Some("U") else None,
      s => if s == "T" then Some(OWN) else if s == "U" then Some(NAMING) else None)
  }

  /** Every signature verifies. */
  function SmallServices(): (sv: Services) {
    Services(Consistency.Toy(), SmallCodec(), (a, m, s) => true)
  }

  /** Nobody else acts, and nothing fails but reads, as given. */
  function SmallEnv(loadOk: nat -> bool): (env: Env) {
    Env(k => [], k => Delivered, loadOk, k => true, k => true, k => Grants.APPROVAL)
  }

  /** Two nodes, just started. */
  ghost function SmallNet(): (net: Net) {
    var node := Node.Start(SmallServices(), PrivKey(0), 0);
    Net(map["a" := node, "b" := node], 0)
  }

  const RAND := Randomness(ZEROS, Consistency.Repeat(0, NONCE_SIZE), 0, (i: nat) => PrivKey(0),
    (i: nat) => Consistency.Repeat(0, NONCE_SIZE))

  const WHO := Accessor(Some(CALLER), m => Some([]), s => [])

  function SmallChain(): (chain: map<string, Allowlist.Storage>) {
    map[CONTRACT := Allowlist.EMPTY.(allowed := {CALLER})]
  }

  lemma SmallCodecIsLawful()
    ensures SmallCodec().Lawful()
  {
    assert ZEROS[0] == 0 && ONES[0] == 1;
  }

  /** The list of the first node and another, or the first again. */
  function ListOf(second: string): (list: string) {
    "a," + second
  }

  lemma ListIsSplit(second: string)
    requires second == "a" || second == "b"
    ensures SplitCommas(ListOf(second)) == ["a", second]
    ensures TrimAll(["a", second]) == ["a", second]
  {
    var list := ListOf(second);
    assert second[1..] == "" && list[1..][1..] == second;
    assert SplitCommas("") == [""];
    assert SplitCommas(second) == [[second[0]] + [""][0]] + [""][1..];
    assert [second[0]] + [""][0] == second && [""][1..] == [];
    assert [[second[0]] + [""][0]] + [""][1..] == [second];
    assert SplitCommas(list[1..]) == [""] + [second];
    var rest := SplitCommas(list[1..]);
    assert SplitCommas(list) == [[list[0]] + rest[0]] + rest[1..];
    assert rest[1..] == [second] && [list[0]] + rest[0] == "a";
    assert TrimSpace("a") == "a" && TrimSpace("b") == "b";
  }

  /** The client's request for what it encrypted, and what the simulation says to it. */
  lemma SmallRequest(meta: Metadata)
    requires meta.objectID == HexEncode(ZEROS) && meta.contractID == CONTRACT
    ensures var req := MakeRequest(SmallServices(), meta, WHO);
      && req.Some? && req.value.contractID == CONTRACT && req.value.callerAddress == CALLER
      && Grants.Simulate(SmallCodec(), SmallChain(), req.value.txXDR) == Grants.APPROVAL
  {
    hide HexEncode, HexDecode;
    HexRoundTrip(ZEROS);
    assert CopyTo32(ZEROS) == ZEROS;
    assert BuildApproveTransaction(SmallCodec(), CONTRACT, meta.objectID, CALLER) == Some("T");
    assert ZEROS[0] == 0 && ONES[0] == 1;
  }

  /** The nodes are ready for a job on the two of them, or on the first one twice if the second check fails. */
  lemma SmallStart(job: Job, second: string, loadOk: nat -> bool)
    requires job.urls == ["a", second] && (second == "b" || (second == "a" && !loadOk(4)))
    ensures Availability.SteadyStart(SmallServices(), SmallEnv(loadOk), SmallNet(), job.urls, JobKey(job))
    ensures Ready(SmallServices(), SmallEnv(loadOk), SmallNet())
    ensures forall i | 0 <= i < 2 ::
      Availability.VisitWorks(SmallEnv(loadOk), SmallNet().nodes, job.urls, JobKey(job), 0, i)
  {
    hide KeyRing.Inv;
    KeyRing.InitInv(SmallServices().suite, PrivKey(0), 0);
    assert job.urls[..0] == [] && job.urls[..1] == ["a"];
  }

  /** The parameters get as far as distributing shares. */
  lemma SmallJob(file: Bytes, second: string)
    requires |file| <= MAX_PLAINTEXT && (second == "a" || second == "b")
    ensures SmallServices().suite.Lawful() && Distributes(file, CONTRACT, ListOf(second), 2, 2, RAND)
    ensures var job := JobOf(SmallServices(), file, CONTRACT, ListOf(second), 2, 2, RAND);
      && job.urls == ["a", second] && job.contractID == CONTRACT && job.objectID == HexEncode(ZEROS)
      && job.rand == RAND && job.shares == [[0] + ZEROS, [1] + ZEROS]
  {
    hide HexEncode, SplitCommas, TrimSpace;
    Consistency.ToyIsLawful();
    ListIsSplit(second);
    assert ["a", second][..2] == ["a", second];
  }

  /** A round trip of any file through this network is undisturbed. */
  lemma SmallRoundTrip(file: Bytes, second: string, loadOk: nat -> bool)
    requires |file| <= MAX_PLAINTEXT && (second == "b" || (second == "a" && !loadOk(4)))
    requires forall k | k >= 6 :: loadOk(k)
    ensures Availability.Undisturbed(SmallServices(), SmallEnv(loadOk), SmallNet(), file, CONTRACT, ListOf(second),
      2, 2, RAND, WHO, k => SmallChain())
  {
    hide HexEncode, SplitCommas, TrimSpace, Encrypt, MakeRequest, JobOf, Distributes, Availability.SteadyStart,
      Availability.VisitWorks, SmallNet, Grants.Simulate, Consistency.Toy, ListOf;
    SmallJob(file, second);
    ListIsSplit(second);
    SmallCodecIsLawful();
    SmallNetStarts();
    var job := JobOf(SmallServices(), file, CONTRACT, ListOf(second), 2, 2, RAND);
    SmallStart(job, second, loadOk);
    SmallRequest(Metadata(job.objectID, CONTRACT, 2, SplitCommas(ListOf(second))[..2]));
  }

  lemma SmallNetStarts()
    ensures SmallNet().tick == 0
  {}

  /** With two nodes and nothing failing, any file makes the round trip, every hypothesis of that and of the recovery
      amid other objects being met. */
  lemma HypothesesCanBeMet(file: Bytes)
    requires |file| <= MAX_PLAINTEXT
    ensures var env := SmallEnv(k => true);
      && Availability.Undisturbed(SmallServices(), env, SmallNet(), file, CONTRACT, "a,b", 2, 2, RAND, WHO,
           k => SmallChain())
      && OtherObjects.AmidOtherObjects(SmallServices(), env, SmallNet(), file, CONTRACT, "a,b", 2, 2, RAND, WHO)
  {
    hide Availability.Undisturbed, OtherObjects.AmidOtherObjects;
    SmallRoundTrip(file, "b", k => true);
    assert ListOf("b") == "a,b";
    Availability.UndisturbedRoundTrip(SmallServices(), SmallEnv(k => true), SmallNet(), file, CONTRACT, "a,b", 2, 2,
      RAND, WHO, k => SmallChain());
  }

  // ---- one node listed twice ----

  /** What happens when the only two nodes are the same one. */
  lemma SameNodeTwice(sv: Services, env: Env, net: Net, file: Bytes, contractID: string, list: string,
      rand: Randomness, who: Accessor, chain: nat -> map<string, Allowlist.Storage>)
    requires Availability.Undisturbed(sv, env, net, file, contractID, list, 2, 2, rand, who, chain)
    requires JobOf(sv, file, contractID, list, 2, 2, rand).urls == ["a", "a"]
    ensures var job := JobOf(sv, file, contractID, list, 2, 2, rand);
      var e := Encrypt(sv, env, net, file, contractID, list, 2, 2, rand);
      && e.metadata.Some? && e.file.Some?
      && "a" in e.net.nodes && Node.HoldsShare(sv, e.net.nodes["a"], JobKey(job), job.shares[1])
      && Decrypt(sv, env, e.net, e.file.value, e.metadata.value, who).outcome == CombineFailed
  {
    hide Encrypt, Decrypt, JobOf, Node.HoldsShare, Availability.SteadyStart, Availability.GrantedThroughout,
      Availability.VisitWorks, MakeRequest, OtherObjects.AmidOtherObjects;
    var job := JobOf(sv, file, contractID, list, 2, 2, rand);
    Availability.UndisturbedRoundTrip(sv, env, net, file, contractID, list, 2, 2, rand, who, chain);
    Availability.UndisturbedEncryption(sv, env, net, file, contractID, list, 2, 2, rand, who, chain);
    assert job.urls[..2] == ["a", "a"] && ["a", "a"][0] == ["a", "a"][1];
    assert Standing(job.urls, job.shares)[1] == job.shares[1];
  }

  /** When one node is listed twice and the write-once check of the second visit fails to read, the metadata is
      written although the second share has replaced the first, and decryption fails although every node answers. */
  lemma ListedTwice(file: Bytes) returns (sv: Services, env: Env, net: Net)
    requires |file| <= MAX_PLAINTEXT
    ensures sv.suite.Lawful() && Distributes(file, CONTRACT, "a,a", 2, 2, RAND)
    ensures var job := JobOf(sv, file, CONTRACT, "a,a", 2, 2, RAND);
      var e := Encrypt(sv, env, net, file, CONTRACT, "a,a", 2, 2, RAND);
      && e.metadata.Some? && e.file.Some?
      && "a" in e.net.nodes && Node.HoldsShare(sv, e.net.nodes["a"], JobKey(job), job.shares[1])
      && job.shares[1] != job.shares[0]
      && Decrypt(sv, env, e.net, e.file.value, e.metadata.value, WHO).outcome == CombineFailed
  {
    hide Encrypt, Decrypt, JobOf, Node.HoldsShare, Availability.Undisturbed, SmallServices, SmallNet, SmallEnv, ListOf,
      HexEncode, Distributes;
    sv, env, net := SmallServices(), SmallEnv(k => k != 4), SmallNet();
    ListOfTwice();
    SmallRoundTrip(file, "a", k => k != 4);
    SmallJob(file, "a");
    SameNodeTwice(sv, env, net, file, CONTRACT, "a,a", RAND, WHO, k => SmallChain());
    var job := JobOf(sv, file, CONTRACT, "a,a", 2, 2, RAND);
    assert job.shares[0][0] == 0 && job.shares[1][0] == 1;
  }

  lemma ListOfTwice()
    ensures ListOf("a") == "a,a"
  {}

  // ---- rotation ----

  /** One call that rotates to another key from beginning to end. */
  function FullRotation(key: PrivKey): (acts: seq<KeyRing.Action>) {
    [KeyRing.Generate(1, key)] + ([KeyRing.Enter(1, 0)] + ([KeyRing.SetPrivate(1)] + [KeyRing.SetPublic(1)]))
  }

  lemma RotationRuns(s: Suite, st: KeyRing.State, key: PrivKey)
    requires KeyRing.Inv(s, st) && st.lock.None? && st.phases == map[]
    ensures var st' := KeyRing.Run(s, st, FullRotation(key));
      && st'.ring == KeyRing.PublishKey(s, st.ring, key, 0) && st'.history == st.history + [key] && st'.lock.None?
  {
    var st1 := KeyRing.Step(s, st, KeyRing.Generate(1, key));
    var st2 := KeyRing.Step(s, st1, KeyRing.Enter(1, 0));
    var st3 := KeyRing.Step(s, st2, KeyRing.SetPrivate(1));
    KeyRing.RunCons(s, st, KeyRing.Generate(1, key),
      [KeyRing.Enter(1, 0)] + ([KeyRing.SetPrivate(1)] + [KeyRing.SetPublic(1)]));
    KeyRing.RunCons(s, st1, KeyRing.Enter(1, 0), [KeyRing.SetPrivate(1)] + [KeyRing.SetPublic(1)]);
    KeyRing.RunCons(s, st2, KeyRing.SetPrivate(1), [KeyRing.SetPublic(1)]);
    KeyRing.RunCons(s, st3, KeyRing.SetPublic(1), []);
    assert [KeyRing.SetPublic(1)] + [] == [KeyRing.SetPublic(1)];
  }

  /** After a rotation the handlers read with the new key, and the ring keeps the old. */
  lemma AfterRotation(s: Suite, share: Bytes, ephemeral: PrivKey, nonce: Bytes)
    requires s.Lawful() && ValidNonce(nonce) && |share| <= MAX_PLAINTEXT
    requires var e := EciesEncrypt(s, s.pub(PrivKey(0)), share, ephemeral, nonce);
      e.Some? && IdealFor(s, [PrivKey(0), PrivKey(1)], PrivKey(0), e.value)
    ensures var after := KeyRing.Run(s, KeyRing.Init(s, PrivKey(0), 0), FullRotation(PrivKey(1)));
      var e := EciesEncrypt(s, s.pub(PrivKey(0)), share, ephemeral, nonce).value;
      && after.history == [PrivKey(0), PrivKey(1)] && after.lock.None? && after.ring.current == 1
      && DecryptShare(s, after.ring.nodePriv, e.ephemeralPub, e.ciphertext, e.nonce) != Opened(share)
      && 0 in after.ring.keys
      && DecryptShare(s, after.ring.keys[0], e.ephemeralPub, e.ciphertext, e.nonce) == Opened(share)
  {
    hide EciesEncrypt, DecryptShare, IdealFor, FullRotation, KeyRing.Run;
    var before := KeyRing.Init(s, PrivKey(0), 0);
    KeyRing.InitInv(s, PrivKey(0), 0);
    RotationRuns(s, before, PrivKey(1));
    EciesRoundTrip(s, PrivKey(0), share, ephemeral, nonce);
    var e := EciesEncrypt(s, s.pub(PrivKey(0)), share, ephemeral, nonce).value;
    OthersCannotOpen(s, [PrivKey(0), PrivKey(1)], PrivKey(0), e, PrivKey(1));
    assert KeyRing.Run(s, before, FullRotation(PrivKey(1))).history == [PrivKey(0), PrivKey(1)];
  }

  /** A share with an old version does not remain readable through the handler: any share sealed for the first key
      is no longer opened once another has been published, though version 0 of the ring would open it. */
  lemma OldVersionIsNotServed(share: Bytes, ephemeral: PrivKey, nonce: Bytes) returns (s: Suite, after: KeyRing.State)
    requires ValidNonce(nonce) && |share| <= MAX_PLAINTEXT
    ensures s.Lawful() && after == KeyRing.Run(s, KeyRing.Init(s, PrivKey(0), 0), FullRotation(PrivKey(1)))
    ensures after.history == [PrivKey(0), PrivKey(1)] && after.lock.None? && after.ring.current == 1
    ensures var e := EciesEncrypt(s, s.pub(PrivKey(0)), share, ephemeral, nonce);
      && e.Some? && IdealFor(s, after.history, PrivKey(0), e.value)
      && DecryptShare(s, after.ring.nodePriv, e.value.ephemeralPub, e.value.ciphertext, e.value.nonce) != Opened(share)
      && 0 in after.ring.keys
      && DecryptShare(s, after.ring.keys[0], e.value.ephemeralPub, e.value.ciphertext, e.value.nonce) == Opened(share)
  {
    hide *;
    s := Consistency.Toy();
    after := KeyRing.Run(s, KeyRing.Init(s, PrivKey(0), 0), FullRotation(PrivKey(1)));
    Consistency.ToyIsLawful();
    LowBytesDiffer();
    Consistency.ToyIdeal([PrivKey(0), PrivKey(1)], PrivKey(0), share, ephemeral, nonce);
    AfterRotation(s, share, ephemeral, nonce);
  }

  lemma LowBytesDiffer()
    ensures forall k | k in [PrivKey(0), PrivKey(1)] && k != PrivKey(0) :: k.scalar % 0x100 != PrivKey(0).scalar % 0x100
  {}

  /** Somebody's steps of a rotation, at a node. */
  function AsOthers(url: string, acts: seq<KeyRing.Action>): (r: seq<OthersAction>) {
    if acts == [] then [] else [OthersAction(url, Node.Rotation(acts[0]))] + AsOthers(url, acts[1..])
  }

  lemma {:induction false} OthersRotate(sv: Services, nodes: Nodes, url: string, acts: seq<KeyRing.Action>)
    requires url in nodes
    ensures var after := RunOthers(sv, nodes, AsOthers(url, acts));
      url in after && after[url].ring == KeyRing.Run(sv.suite, nodes[url].ring, acts)
    decreases |acts|
  {
    if acts != [] {
      hide KeyRing.Step;
      var first := OthersAction(url, Node.Rotation(acts[0]));
      var next := OneOther(sv, nodes, first);
      OthersRotate(sv, next, url, acts[1..]);
      assert AsOthers(url, acts)[1..] == AsOthers(url, acts[1..]);
    }
  }

  /** The others rotate the first node just before it is asked for its share. */
  function RotatingEnv(): (env: Env) {
    SmallEnv(k => true).(others := k => if k == 6 then AsOthers("a", FullRotation(PrivKey(1))) else [])
  }

  /** The two outside worlds are the same up to a moment. */
  ghost predicate AgreeBelow(env: Env, env': Env, end: nat) {
    forall k: nat | k < end :: env.others(k) == env'.others(k) && env.fault(k) == env'.fault(k)
      && env.loadOk(k) == env'.loadOk(k) && env.saveOk(k) == env'.saveOk(k)
  }

  lemma ActAgrees(sv: Services, env: Env, env': Env, net: Net, url: string, a: Node.Action)
    requires env.others(net.tick) == env'.others(net.tick)
    ensures Act(sv, env, net, url, a) == Act(sv, env', net, url, a)
    ensures Interfere(sv, env, net) == Interfere(sv, env', net)
    ensures Act(sv, env, net, url, a).net.tick == Interfere(sv, env, net).tick == net.tick + 1
  {
    hide RunOthers, Node.Step;
  }

  lemma StoreAgrees(sv: Services, env: Env, env': Env, net: Net, url: string, req: ShareStore.StoreRequest, end: nat)
    requires AgreeBelow(env, env', end) && net.tick + 2 <= end
    ensures PostStore(sv, env, net, url, req) == PostStore(sv, env', net, url, req)
    ensures PostStore(sv, env, net, url, req).net.tick <= net.tick + 2
  {
    hide Act, Interfere;
    ActAgrees(sv, env, env', net, url, Checking(env, net, req));
    var checked := Act(sv, env, net, url, Checking(env, net, req)).net;
    ActAgrees(sv, env, env', checked, url, Saving(env, checked));
  }

  lemma PlacingAgrees(sv: Services, env: Env, env': Env, net: Net, job: Job, i: nat, end: nat)
    requires i < |job.urls| && i < |job.shares| && AgreeBelow(env, env', end) && net.tick + 3 <= end
    ensures PlaceShare(sv, env, net, job, i) == PlaceShare(sv, env', net, job, i)
    ensures PlaceShare(sv, env, net, job, i).net.tick <= net.tick + 3
  {
    hide Act, Interfere, PostStore, EciesEncrypt, HexDecode;
    var url := job.urls[i];
    ActAgrees(sv, env, env', net, url, Node.Fetch);
    var fetched := FetchKey(sv, env, net, url);
    if fetched.result.Some? {
      var e := EciesEncrypt(sv.suite, fetched.result.value, job.shares[i], job.rand.ephemeral(i), job.rand.nonce(i));
      if e.Some? {
        StoreAgrees(sv, env, env', fetched.net, url, StoreBody(job, e.value), end);
      }
    }
  }

  /** What an encryption does depends on the past only. */
  lemma {:induction false} DistributionAgrees(sv: Services, env: Env, env': Env, net: Net, job: Job, i: nat, end: nat)
    requires i <= |job.urls| <= |job.shares| && AgreeBelow(env, env', end)
    requires net.tick + 3 * (|job.urls| - i) <= end
    ensures Distribute(sv, env, net, job, i) == Distribute(sv, env', net, job, i)
    decreases |job.urls| - i
  {
    hide PlaceShare, AgreeBelow;
    if i < |job.urls| {
      PlacingAgrees(sv, env, env', net, job, i, end);
      DistributionAgrees(sv, env, env', PlaceShare(sv, env, net, job, i).net, job, i + 1, end);
    }
  }

  /** The nodes' rings are the same. */
  ghost predicate SameRings(nodes: Nodes, nodes': Nodes) {
    nodes'.Keys == nodes.Keys && forall u | u in nodes :: nodes'[u].ring == nodes[u].ring
  }

  /** When nobody else acts, no ring changes. */
  lemma ActRests(sv: Services, env: Env, net: Net, url: string, a: Node.Action)
    requires env.others(net.tick) == [] && !a.Rotation?
    ensures SameRings(net.nodes, Act(sv, env, net, url, a).net.nodes)
    ensures SameRings(net.nodes, Interfere(sv, env, net).nodes)
  {
    hide Gates, Open, ShareStore.Step, HexEncode;
  }

  lemma SameRingsTransitive(a: Nodes, b: Nodes, c: Nodes)
    requires SameRings(a, b) && SameRings(b, c)
    ensures SameRings(a, c)
  {}

  lemma StoreRests(sv: Services, env: Env, net: Net, url: string, req: ShareStore.StoreRequest)
    requires forall k :: env.others(k) == []
    ensures SameRings(net.nodes, PostStore(sv, env, net, url, req).net.nodes)
  {
    hide Act, Interfere, SameRings;
    ActRests(sv, env, net, url, Checking(env, net, req));
    var checked := Act(sv, env, net, url, Checking(env, net, req)).net;
    ActRests(sv, env, checked, url, Saving(env, checked));
    SameRingsTransitive(net.nodes, checked.nodes, Act(sv, env, checked, url, Saving(env, checked)).net.nodes);
  }

  lemma PlacingRests(sv: Services, env: Env, net: Net, job: Job, i: nat)
    requires i < |job.urls| && i < |job.shares| && forall k :: env.others(k) == []
    ensures SameRings(net.nodes, PlaceShare(sv, env, net, job, i).net.nodes)
  {
    hide Act, Interfere, PostStore, EciesEncrypt, HexDecode, SameRings;
    var url := job.urls[i];
    ActRests(sv, env, net, url, Node.Fetch);
    var fetched := FetchKey(sv, env, net, url);
    if fetched.result.Some? {
      var e := EciesEncrypt(sv.suite, fetched.result.value, job.shares[i], job.rand.ephemeral(i), job.rand.nonce(i));
      if e.Some? {
        StoreRests(sv, env, fetched.net, url, StoreBody(job, e.value));
        SameRingsTransitive(net.nodes, fetched.net.nodes,
          PostStore(sv, env, fetched.net, url, StoreBody(job, e.value)).net.nodes);
      }
    }
  }

  lemma {:induction false} DistributionRests(sv: Services, env: Env, net: Net, job: Job, i: nat)
    requires i <= |job.urls| <= |job.shares| && forall k :: env.others(k) == []
    ensures SameRings(net.nodes, Distribute(sv, env, net, job, i).net.nodes)
    decreases |job.urls| - i
  {
    hide PlaceShare;
    if i < |job.urls| {
      PlacingRests(sv, env, net, job, i);
      DistributionRests(sv, env, PlaceShare(sv, env, net, job, i).net, job, i + 1);
    }
  }

  lemma EncryptionAgrees(sv: Services, env: Env, env': Env, net: Net, file: Bytes, contractID: string, list: string,
      n: int, t: int, rand: Randomness, end: nat)
    requires sv.suite.Lawful() && Distributes(file, contractID, list, n, t, rand)
    requires AgreeBelow(env, env', end) && net.tick + 3 * n <= end
    ensures Encrypt(sv, env, net, file, contractID, list, n, t, rand)
      == Encrypt(sv, env', net, file, contractID, list, n, t, rand)
  {
    hide Distribute, Encrypt, SplitCommas, HexEncode, AgreeBelow, TrimSpace;
    var job := JobOf(sv, file, contractID, list, n, t, rand);
    EncryptDistributes(sv, env, net, file, contractID, list, n, t, rand);
    EncryptDistributes(sv, env', net, file, contractID, list, n, t, rand);
    DistributionAgrees(sv, env, env', net, job, 0, end);
  }

  lemma EncryptionRests(sv: Services, env: Env, net: Net, file: Bytes, contractID: string, list: string,
      n: int, t: int, rand: Randomness)
    requires sv.suite.Lawful() && Distributes(file, contractID, list, n, t, rand) && forall k :: env.others(k) == []
    ensures SameRings(net.nodes, Encrypt(sv, env, net, file, contractID, list, n, t, rand).net.nodes)
  {
    hide Distribute, Encrypt, SplitCommas, HexEncode, SameRings, TrimSpace;
    EncryptDistributes(sv, env, net, file, contractID, list, n, t, rand);
    DistributionRests(sv, env, net, JobOf(sv, file, contractID, list, n, t, rand), 0);
  }

  /** The encryption is over before the rotation, and has changed no ring. */
  lemma EncryptionBeforeRotation(file: Bytes)
    requires |file| <= MAX_PLAINTEXT
    ensures SmallServices().suite.Lawful() && Distributes(file, CONTRACT, "a,b", 2, 2, RAND)
    ensures var e := Encrypt(SmallServices(), RotatingEnv(), SmallNet(), file, CONTRACT, "a,b", 2, 2, RAND);
      && e.metadata.Some? && e.net.tick == 6 && SameRings(SmallNet().nodes, e.net.nodes)
      && MakeRequest(SmallServices(), e.metadata.value, WHO).Some?
  {
    hide SmallServices, SmallNet, Encrypt, Distributes, MakeRequest, AsOthers, FullRotation, SameRings, HexEncode,
      Availability.SteadyStart, Availability.VisitWorks, OtherObjects.AmidOtherObjects, JobOf, SplitCommas;
    var sv, quiet, net := SmallServices(), SmallEnv(k => true), SmallNet();
    SmallJob(file, "b");
    SmallRoundTrip(file, "b", k => true);
    SmallNetStarts();
    assert ListOf("b") == "a,b";
    Availability.UndisturbedEncryption(sv, quiet, net, file, CONTRACT, "a,b", 2, 2, RAND, WHO, k => SmallChain());
    EncryptionAgrees(sv, quiet, RotatingEnv(), net, file, CONTRACT, "a,b", 2, 2, RAND, 6);
    EncryptionRests(sv, quiet, net, file, CONTRACT, "a,b", 2, 2, RAND);
  }

  /** The keys before and after. */
  ghost function BothKeys(): (keys: iset<PrivKey>) {
    iset{PrivKey(0), PrivKey(1)}
  }

  lemma KeysAreKnown(key: string)
    ensures Rotations.AllKnown(SmallServices().suite, SmallNet().nodes, ["a", "b"], key, BothKeys())
  {
    hide Consistency.Toy;
    assert PrivKey(0) in BothKeys();
  }

  lemma RotationIsLenient(urls: seq<string>, key: string)
    ensures Rotations.LenientFrom(RotatingEnv(), urls, key, BothKeys(), 0)
  {
    var acts := FullRotation(PrivKey(1));
    assert acts[1..][1..][1..][1..] == [];
  }

  lemma JobIsIdeal(job: Job)
    requires job.rand == RAND && job.shares == [[0] + ZEROS, [1] + ZEROS]
    ensures Rotations.IdealJob(SmallServices().suite, job, BothKeys())
  {
    hide Consistency.Toy, EciesEncrypt, IdealFor;
    forall i, p, k | 0 <= i < |job.shares| && p in BothKeys() && k in BothKeys()
      ensures Rotations.IdealCase(SmallServices().suite, job, i, p, k)
    {
      Consistency.ToyIdeal([k], p, job.shares[i], PrivKey(0), job.rand.nonce(i));
    }
  }

  /** The hypotheses of the recovery despite rotations can be met with a node that rotates during the collection. */
  lemma RotationHypothesesCanBeMet(file: Bytes)
    returns (sv: Services, env: Env, net: Net, keys: iset<PrivKey>)
    requires |file| <= MAX_PLAINTEXT
    ensures Rotations.AmidRotations(sv, env, net, file, CONTRACT, "a,b", 2, 2, RAND, WHO, keys)
    ensures sv.suite.Lawful()
    ensures var e := Encrypt(sv, env, net, file, CONTRACT, "a,b", 2, 2, RAND);
      && "a" in e.net.nodes && e.net.nodes["a"].ring.ring.current == 0
      && Interfere(sv, env, e.net).nodes["a"].ring.ring.current == 1
  {
    hide SmallServices, SmallNet, RotatingEnv, BothKeys, Encrypt, Distributes, MakeRequest, JobOf, Ready, Interfere,
      Rotations.LenientFrom, Rotations.AllKnown, Rotations.IdealJob, HexEncode;
    sv, env, net, keys := SmallServices(), RotatingEnv(), SmallNet(), BothKeys();
    EncryptionBeforeRotation(file);
    SmallJob(file, "b");
    assert ListOf("b") == "a,b";
    var job := JobOf(sv, file, CONTRACT, "a,b", 2, 2, RAND);
    KeysAreKnown(JobKey(job));
    RotationIsLenient(job.urls, JobKey(job));
    JobIsIdeal(job);
    RotatingReady();
    SmallNetStarts();
    NodeRotates(Encrypt(sv, env, net, file, CONTRACT, "a,b", 2, 2, RAND).net);
  }

  lemma RotatingReady()
    ensures Ready(SmallServices(), RotatingEnv(), SmallNet())
  {
    hide KeyRing.Inv;
    KeyRing.InitInv(SmallServices().suite, PrivKey(0), 0);
    var acts := FullRotation(PrivKey(1));
    assert acts[1..][1..][1..][1..] == [];
  }

  lemma NodeRotates(net: Net)
    requires net.tick == 6 && SameRings(SmallNet().nodes, net.nodes)
    ensures "a" in net.nodes && net.nodes["a"].ring.ring.current == 0
    ensures Interfere(SmallServices(), RotatingEnv(), net).nodes["a"].ring.ring.current == 1
  {
    hide FullRotation, AsOthers, RunOthers, KeyRing.Run;
    var sv := SmallServices();
    assert "a" in SmallNet().nodes && SmallNet().nodes["a"].ring == KeyRing.Init(sv.suite, PrivKey(0), 0);
    KeyRing.InitInv(sv.suite, PrivKey(0), 0);
    OthersRotate(sv, net.nodes, "a", FullRotation(PrivKey(1)));
    RotationRuns(sv.suite, KeyRing.Init(sv.suite, PrivKey(0), 0), PrivKey(1));
  }

  /** A request with an envelope that names another account and everything but approval. */
  lemma NamingRequest() returns (req: RetrieveRequest)
    ensures Gates(SmallServices(), req, true, Grants.APPROVAL).None?
    ensures Grants.NamedAccount(SmallCodec(), req.txXDR) == Some(OTHER) && req.callerAddress == CALLER
  {
    req := RetrieveRequest("00", CONTRACT, CALLER, "", "", "U");
    assert ZEROS[0] == 0 && ONES[0] == 1;
    assert SmallCodec().unmarshal("U") == Some(NAMING);
  }
}
