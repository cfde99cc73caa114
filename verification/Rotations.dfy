/** Recovery while the nodes rotate their keys and lose shares, before, between and after everything the client
    does: the others may do anything but store under the key. A node that rotated or purged stops answering with
    success; with ideal cryptography it never answers with anything else, so t answers are enough. */
module Rotations {
  import opened Basics
  import opened Crypto
  import opened Client
  import opened Recovery
  import opened Retrieve
  import KeyRing
  import Node
  import ShareStore

  // ---- what the others may do ----

  /** The private keys a ring uses or is about to publish, and the one whose public half it hands out, are among
      the given ones. */
  ghost predicate KeysKnown(s: Suite, st: KeyRing.State, keys: iset<PrivKey>) {
    && st.ring.nodePriv in keys
    && (exists k :: k in keys && st.ring.nodePub == s.pub(k))
    && forall t | t in st.phases && !st.phases[t].Returned? && !st.phases[t].Reported? :: st.phases[t].key in keys
  }

  /** Nobody else is about to save under the key. */
  ghost predicate NoneSaving(st: ShareStore.State, key: string) {
    forall t | t in st.pending && t != ME :: st.pending[t].key != key
  }

  /** The action generates no key but the given ones, and stores nothing under the store key. */
  ghost predicate Lenient(a: Node.Action, key: string, keys: iset<PrivKey>) {
    match a
    case Rotation(Generate(_, k)) => k in keys
    case Storing(CheckStep(_, req, _)) => ShareStore.RequestKey(req) != key
    case _ => true
  }

  /** From a moment on, the others' actions at the listed nodes are of this kind. */
  ghost predicate LenientFrom(env: Env, urls: seq<string>, key: string, keys: iset<PrivKey>, from: nat) {
    && ForeignEnv(env)
    && forall k: nat, i | from <= k && 0 <= i < |env.others(k)| && env.others(k)[i].url in urls ::
         Lenient(env.others(k)[i].action, key, keys)
  }

  ghost predicate Known(s: Suite, n: Node.Node, key: string, keys: iset<PrivKey>) {
    KeysKnown(s, n.ring, keys) && NoneSaving(n.store, key)
  }

  ghost predicate AllKnown(s: Suite, nodes: Nodes, urls: seq<string>, key: string, keys: iset<PrivKey>) {
    forall u | u in urls && u in nodes :: Known(s, nodes[u], key, keys)
  }

  /** What was under the key is still there, or gone. */
  ghost predicate KeptOrGone(n: Node.Node, n': Node.Node, key: string) {
    var now := ShareStore.Lookup(n'.store.bucket, key);
    now == None || now == ShareStore.Lookup(n.store.bucket, key)
  }

  lemma RotationStepKeeps(s: Suite, st: KeyRing.State, a: KeyRing.Action, keys: iset<PrivKey>)
    requires KeysKnown(s, st, keys) && (a.Generate? ==> a.key in keys)
    ensures KeysKnown(s, KeyRing.Step(s, st, a), keys)
  {
    var st' := KeyRing.Step(s, st, a);
    if a.SetPublic? && st'.ring.nodePub != st.ring.nodePub {
      assert st.phases[a.t].key in keys && st'.ring.nodePub == s.pub(st.phases[a.t].key);
    }
  }

  lemma StoreStepKeeps(n: Node.Node, a: ShareStore.Action, key: string)
    requires NoneSaving(n.store, key)
    requires a.CheckStep? ==> a.t == ME || ShareStore.RequestKey(a.req) != key
    ensures var st := ShareStore.Step(n.store, a).state;
      NoneSaving(st, key) && ((a.SaveStep? ==> a.t != ME) ==> KeptOrGone(n, n.(store := st), key))
  {
    hide HexDecode;
    if a.CheckStep? && ShareStore.ReadRequest(a.req).Some? {
      EntryKey(a.req);
    }
  }

  /** A step of our own request other than a save. */
  predicate Reads(a: Node.Action) {
    a.Fetch? || a.Gate? || a.Load? || a.Decrypt? || (a.Storing? && a.storing.CheckStep? && a.storing.t == ME)
  }

  predicate OwnSave(a: Node.Action) {
    a.Storing? && a.storing.SaveStep? && a.storing.t == ME
  }

  lemma LenientStep(sv: Services, n: Node.Node, a: Node.Action, key: string, keys: iset<PrivKey>)
    requires Known(sv.suite, n, key, keys)
    requires (Foreign(a) && Lenient(a, key, keys)) || Reads(a) || OwnSave(a)
    ensures var n' := Node.Step(sv, n, a).node;
      Known(sv.suite, n', key, keys) && (!OwnSave(a) ==> KeptOrGone(n, n', key))
  {
    hide Gates, Open, KeyRing.Step, ShareStore.Step, KeysKnown, NoneSaving;
    if a.Rotation? {
      RotationStepKeeps(sv.suite, n.ring, a.rotation, keys);
    } else if a.Storing? {
      StoreStepKeeps(n, a.storing, key);
    }
  }

  lemma KeptOrGoneTransitive(a: Node.Node, b: Node.Node, c: Node.Node, key: string)
    requires KeptOrGone(a, b, key) && KeptOrGone(b, c, key)
    ensures KeptOrGone(a, c, key)
  {}

  lemma OneStaysLenient(sv: Services, nodes: Nodes, a: OthersAction, urls: seq<string>, key: string,
      keys: iset<PrivKey>)
    requires AllKnown(sv.suite, nodes, urls, key, keys) && Foreign(a.action)
    requires a.url in urls ==> Lenient(a.action, key, keys)
    ensures var nodes' := OneOther(sv, nodes, a);
      && AllKnown(sv.suite, nodes', urls, key, keys)
      && forall u | u in urls && u in nodes :: KeptOrGone(nodes[u], nodes'[u], key)
  {
    hide Node.Step, Known, Lenient;
    if a.url in nodes && a.url in urls {
      LenientStep(sv, nodes[a.url], a.action, key, keys);
    }
  }

  lemma {:induction false} OthersStayLenient(sv: Services, nodes: Nodes, acts: seq<OthersAction>, urls: seq<string>,
      key: string, keys: iset<PrivKey>)
    requires AllKnown(sv.suite, nodes, urls, key, keys)
    requires forall i | 0 <= i < |acts| :: Foreign(acts[i].action)
    requires forall i | 0 <= i < |acts| && acts[i].url in urls :: Lenient(acts[i].action, key, keys)
    ensures var nodes' := RunOthers(sv, nodes, acts);
      && AllKnown(sv.suite, nodes', urls, key, keys)
      && forall u | u in urls && u in nodes :: KeptOrGone(nodes[u], nodes'[u], key)
    decreases |acts|
  {
    if acts != [] {
      hide OneOther, AllKnown, KeptOrGone, Lenient;
      var next := OneOther(sv, nodes, acts[0]);
      OneStaysLenient(sv, nodes, acts[0], urls, key, keys);
      OthersStayLenient(sv, next, acts[1..], urls, key, keys);
      forall u | u in urls && u in nodes ensures KeptOrGone(nodes[u], RunOthers(sv, nodes, acts)[u], key) {
        KeptOrGoneTransitive(nodes[u], next[u], RunOthers(sv, nodes, acts)[u], key);
      }
    }
  }

  lemma InterfereStaysLenient(sv: Services, env: Env, net: Net, urls: seq<string>, key: string, keys: iset<PrivKey>,
      from: nat)
    requires LenientFrom(env, urls, key, keys, from) && from <= net.tick
    requires AllKnown(sv.suite, net.nodes, urls, key, keys)
    ensures var n := Interfere(sv, env, net);
      && AllKnown(sv.suite, n.nodes, urls, key, keys)
      && forall u | u in urls && u in net.nodes :: KeptOrGone(net.nodes[u], n.nodes[u], key)
  {
    hide RunOthers, AllKnown, Lenient, KeptOrGone;
    OthersStayLenient(sv, net.nodes, env.others(net.tick), urls, key, keys);
  }

  /** So do the steps of our own requests; only a save puts something new under the key, at its own node. */
  lemma ActStaysLenient(sv: Services, env: Env, net: Net, url: string, a: Node.Action, urls: seq<string>,
      key: string, keys: iset<PrivKey>, from: nat)
    requires LenientFrom(env, urls, key, keys, from) && from <= net.tick
    requires AllKnown(sv.suite, net.nodes, urls, key, keys) && (Reads(a) || OwnSave(a))
    ensures var after := Act(sv, env, net, url, a).net;
      && AllKnown(sv.suite, after.nodes, urls, key, keys) && after.tick == net.tick + 1
      && forall u | u in urls && u in net.nodes && (u != url || !OwnSave(a)) ::
           KeptOrGone(net.nodes[u], after.nodes[u], key)
  {
    hide RunOthers, Known, Node.Step, KeptOrGone, LenientFrom;
    InterfereStaysLenient(sv, env, net, urls, key, keys, from);
    var n := Interfere(sv, env, net);
    if url in n.nodes && url in urls {
      LenientStep(sv, n.nodes[url], a, key, keys);
      var after := Act(sv, env, net, url, a).net.nodes[url];
      if !OwnSave(a) {
        KeptOrGoneTransitive(net.nodes[url], n.nodes[url], after, key);
      }
    }
  }

  // ---- what the nodes hold ----

  /** Each of the keys opens the record to the share, or does not open it. */
  ghost predicate Harmless(s: Suite, r: ShareStore.Record, share: Bytes, keys: iset<PrivKey>) {
    forall k | k in keys :: OpensAtMost(s, k, r, share)
  }

  /** What the nodes hold is harmless, for the share of each. */
  ghost predicate AllHarmless(s: Suite, nodes: Nodes, urls: seq<string>, shares: seq<Bytes>, key: string,
      keys: iset<PrivKey>)
  {
    && |urls| <= |shares|
    && forall j | 0 <= j < |urls| && urls[j] in nodes && key in nodes[urls[j]].store.bucket ::
         Harmless(s, nodes[urls[j]].store.bucket[key], shares[j], keys)
  }

  lemma KeptStaysHarmless(s: Suite, nodes: Nodes, nodes': Nodes, urls: seq<string>, shares: seq<Bytes>, key: string,
      keys: iset<PrivKey>)
    requires AllHarmless(s, nodes, urls, shares, key, keys) && nodes'.Keys == nodes.Keys
    requires forall u | u in urls && u in nodes :: KeptOrGone(nodes[u], nodes'[u], key)
    ensures AllHarmless(s, nodes', urls, shares, key, keys)
  {
    hide Harmless;
    forall j | 0 <= j < |urls| && urls[j] in nodes' && key in nodes'[urls[j]].store.bucket
      ensures Harmless(s, nodes'[urls[j]].store.bucket[key], shares[j], keys)
    {
      assert KeptOrGone(nodes[urls[j]], nodes'[urls[j]], key);
    }
  }

  /** Ideal cryptography for what a client may send in the job: sealed for one of the keys, it is ideal among the
      addressee and any other. */
  ghost predicate IdealCase(s: Suite, job: Job, i: nat, p: PrivKey, k: PrivKey)
    requires i < |job.shares|
  {
    var e := EciesEncrypt(s, s.pub(p), job.shares[i], job.rand.ephemeral(i), job.rand.nonce(i));
    e.Some? ==> IdealFor(s, [k], p, e.value)
  }

  ghost predicate IdealJob(s: Suite, job: Job, keys: iset<PrivKey>) {
    forall i, p, k | 0 <= i < |job.shares| && p in keys && k in keys :: IdealCase(s, job, i, p, k)
  }

  /** A share sealed for one of the keys is harmless among all of them. */
  lemma SealedIsHarmless(s: Suite, job: Job, i: nat, p: PrivKey, keys: iset<PrivKey>)
    requires s.Lawful() && JobOk(job) && i < |job.shares| && p in keys && IdealJob(s, job, keys)
    ensures var e := EciesEncrypt(s, s.pub(p), job.shares[i], job.rand.ephemeral(i), job.rand.nonce(i));
      e.Some? && Harmless(s, Node.RecordOf(e.value), job.shares[i], keys)
  {
    hide DecryptShare, EciesEncrypt, IdealFor;
    EciesRoundTrip(s, p, job.shares[i], job.rand.ephemeral(i), job.rand.nonce(i));
    var e := EciesEncrypt(s, s.pub(p), job.shares[i], job.rand.ephemeral(i), job.rand.nonce(i)).value;
    forall k | k in keys ensures OpensAtMost(s, k, Node.RecordOf(e), job.shares[i]) {
      assert IdealCase(s, job, i, p, k);
      if k != p {
        OthersCannotOpen(s, [k], p, e, k);
      }
    }
  }

  // ---- placing the shares ----

  /** A fetch brings the public half of a known key. */
  lemma FetchBringsKnownKey(sv: Services, env: Env, net: Net, url: string, urls: seq<string>, key: string,
      keys: iset<PrivKey>, from: nat) returns (p: PrivKey)
    requires LenientFrom(env, urls, key, keys, from) && from <= net.tick && url in urls
    requires AllKnown(sv.suite, net.nodes, urls, key, keys) && FetchKey(sv, env, net, url).result.Some?
    ensures p in keys && FetchKey(sv, env, net, url).result == Some(sv.suite.pub(p))
  {
    hide RunOthers, LenientFrom, NoneSaving, HexEncode, HexDecode, KeptOrGone;
    InterfereStaysLenient(sv, env, net, urls, key, keys, from);
    var n := Interfere(sv, env, net);
    assert Known(sv.suite, n.nodes[url], key, keys);
    p :| p in keys && n.nodes[url].ring.ring.nodePub == sv.suite.pub(p);
    HexRoundTrip(n.nodes[url].ring.ring.nodePub);
  }

  lemma FetchStaysLenient(sv: Services, env: Env, net: Net, url: string, urls: seq<string>, key: string,
      keys: iset<PrivKey>, from: nat)
    requires LenientFrom(env, urls, key, keys, from) && from <= net.tick
    requires AllKnown(sv.suite, net.nodes, urls, key, keys)
    ensures var after := FetchKey(sv, env, net, url).net;
      && AllKnown(sv.suite, after.nodes, urls, key, keys) && after.tick == net.tick + 1
      && after.nodes.Keys == net.nodes.Keys
      && forall u | u in urls && u in net.nodes :: KeptOrGone(net.nodes[u], after.nodes[u], key)
  {
    hide RunOthers, AllKnown, KeptOrGone, LenientFrom, HexDecode, Node.Step;
    InterfereStaysLenient(sv, env, net, urls, key, keys, from);
    hide Act;
    ActStaysLenient(sv, env, net, url, Node.Fetch, urls, key, keys, from);
  }

  lemma StoreStaysLenient(sv: Services, env: Env, net: Net, url: string, req: ShareStore.StoreRequest,
      urls: seq<string>, key: string, keys: iset<PrivKey>, from: nat)
    requires LenientFrom(env, urls, key, keys, from) && from <= net.tick
    requires ForeignEnv(env) && SoundRings(sv, net.nodes) && AllIdle(net.nodes) && url in net.nodes
    requires AllKnown(sv.suite, net.nodes, urls, key, keys)
    requires req.overwrite == "" && PostStore(sv, env, net, url, req).result == Some(ShareStore.Stored)
    ensures var after := PostStore(sv, env, net, url, req).net;
      && AllKnown(sv.suite, after.nodes, urls, key, keys)
      && forall u | u in urls && u in net.nodes && u != url :: KeptOrGone(net.nodes[u], after.nodes[u], key)
  {
    hide Act, Interfere, AllKnown, KeptOrGone, LenientFrom, SoundRings, AllIdle, PostStore, ShareStore.ReadRequest;
    StoreSaves(sv, env, net, url, req);
    var checked := Act(sv, env, net, url, Checking(env, net, req)).net;
    ActStaysLenient(sv, env, net, url, Checking(env, net, req), urls, key, keys, from);
    ActStaysLenient(sv, env, checked, url, Saving(env, checked), urls, key, keys, from);
    var after := PostStore(sv, env, net, url, req).net.nodes;
    forall u | u in urls && u in net.nodes && u != url ensures KeptOrGone(net.nodes[u], after[u], key) {
      KeptOrGoneTransitive(net.nodes[u], checked.nodes[u], after[u], key);
    }
  }

  /** The network while shares are placed: i of them are, everything under the key is harmless. */
  ghost predicate PlacedHarmless(sv: Services, nodes: Nodes, job: Job, i: nat, keys: iset<PrivKey>)
    requires i <= |job.urls| && i <= |job.shares|
  {
    && SoundRings(sv, nodes) && AllIdle(nodes)
    && AllKnown(sv.suite, nodes, job.urls, JobKey(job), keys)
    && AllHarmless(sv.suite, nodes, job.urls[..i], Standing(job.urls[..i], job.shares), JobKey(job), keys)
  }

  lemma PlacingStaysHarmless(sv: Services, env: Env, net: Net, job: Job, i: nat, keys: iset<PrivKey>, from: nat)
    requires sv.suite.Lawful() && JobOk(job) && i < |job.urls| && IdealJob(sv.suite, job, keys)
    requires LenientFrom(env, job.urls, JobKey(job), keys, from) && from <= net.tick
    requires PlacedHarmless(sv, net.nodes, job, i, keys) && PlaceShare(sv, env, net, job, i).ok
    ensures var after := PlaceShare(sv, env, net, job, i).net;
      PlacedHarmless(sv, after.nodes, job, i + 1, keys) && from <= after.tick
  {
    hide PostStore, FetchKey, EciesEncrypt, SoundRings, AllIdle, AllKnown, AllHarmless, KeptOrGone, Harmless, Standing,
      IdealJob, ShareStore.ReadRequest;
    var url, key := job.urls[i], JobKey(job);
    var standing := Standing(job.urls[..i], job.shares);
    var fetched := FetchKey(sv, env, net, url);
    FetchLeavesIdle(sv, env, net, url);
    FetchStaysLenient(sv, env, net, url, job.urls, key, keys, from);
    var p := FetchBringsKnownKey(sv, env, net, url, job.urls, key, keys, from);
    SealedIsHarmless(sv.suite, job, i, p, keys);
    var e := EciesEncrypt(sv.suite, sv.suite.pub(p), job.shares[i], job.rand.ephemeral(i), job.rand.nonce(i)).value;
    BodyRoundTrip(job, e);
    KeptStaysHarmless(sv.suite, net.nodes, fetched.net.nodes, job.urls[..i], standing, key, keys);
    StoreSaves(sv, env, fetched.net, url, StoreBody(job, e));
    StoreStaysLenient(sv, env, fetched.net, url, StoreBody(job, e), job.urls, key, keys, from);
    HarmlessAppend(sv.suite, fetched.net.nodes, PostStore(sv, env, fetched.net, url, StoreBody(job, e)).net.nodes,
      job, i, keys);
  }

  lemma HarmlessAppend(s: Suite, before: Nodes, after: Nodes, job: Job, i: nat, keys: iset<PrivKey>)
    requires i < |job.urls| && i < |job.shares| && before.Keys == after.Keys
    requires AllHarmless(s, before, job.urls[..i], Standing(job.urls[..i], job.shares), JobKey(job), keys)
    requires forall u | u in job.urls && u in before && u != job.urls[i] :: KeptOrGone(before[u], after[u], JobKey(job))
    requires job.urls[i] in after && JobKey(job) in after[job.urls[i]].store.bucket
    requires Harmless(s, after[job.urls[i]].store.bucket[JobKey(job)], job.shares[i], keys)
    ensures AllHarmless(s, after, job.urls[..i + 1], Standing(job.urls[..i + 1], job.shares), JobKey(job), keys)
  {
    hide Harmless, Standing;
    var urls, key := job.urls[..i + 1], JobKey(job);
    forall j | 0 <= j < |urls| && urls[j] in after && key in after[urls[j]].store.bucket
      ensures Harmless(s, after[urls[j]].store.bucket[key], Standing(urls, job.shares)[j], keys)
    {
      StandingOneMore(job.urls, job.shares, i, j);
      if urls[j] != job.urls[i] {
        assert job.urls[..i][j] == urls[j] && urls[j] in job.urls;
        assert KeptOrGone(before[urls[j]], after[urls[j]], key);
      }
    }
  }

  lemma {:induction false} DistributionStaysHarmless(sv: Services, env: Env, net: Net, job: Job, i: nat,
      keys: iset<PrivKey>, from: nat)
    requires sv.suite.Lawful() && JobOk(job) && i <= |job.urls| <= |job.shares| && IdealJob(sv.suite, job, keys)
    requires LenientFrom(env, job.urls, JobKey(job), keys, from) && from <= net.tick
    requires PlacedHarmless(sv, net.nodes, job, i, keys) && Distribute(sv, env, net, job, i).ok
    ensures var after := Distribute(sv, env, net, job, i).net;
      PlacedHarmless(sv, after.nodes, job, |job.urls|, keys) && from <= after.tick
    decreases |job.urls| - i
  {
    hide PlaceShare, PlacedHarmless, LenientFrom, IdealJob, JobOk;
    if i < |job.urls| {
      PlacingStaysHarmless(sv, env, net, job, i, keys, from);
      DistributionStaysHarmless(sv, env, PlaceShare(sv, env, net, job, i).net, job, i + 1, keys, from);
    }
  }

  // ---- collecting them ----

  lemma RetrievalStaysTame(sv: Services, env: Env, net: Net, urls: seq<string>, shares: seq<Bytes>, j: nat,
      req: RetrieveRequest, keys: iset<PrivKey>, from: nat)
    requires var key := ShareStore.StoreKey(req.contractID, req.objectID);
      && LenientFrom(env, urls, key, keys, from) && from <= net.tick && j < |urls| <= |shares|
      && AllKnown(sv.suite, net.nodes, urls, key, keys) && AllHarmless(sv.suite, net.nodes, urls, shares, key, keys)
    ensures TameRetrieval(sv, env, net, urls[j], req, shares[j])
    ensures var after := PostRetrieve(sv, env, net, urls[j], req).net;
      var key := ShareStore.StoreKey(req.contractID, req.objectID);
      && AllKnown(sv.suite, after.nodes, urls, key, keys) && AllHarmless(sv.suite, after.nodes, urls, shares, key, keys)
      && from <= after.tick
  {
    hide Act, RunOthers, AllKnown, AllHarmless, KeptOrGone, LenientFrom, OpensAtMost;
    var url, key := urls[j], ShareStore.StoreKey(req.contractID, req.objectID);
    InterfereStaysLenient(sv, env, net, urls, key, keys, from);
    KeptStaysHarmless(sv.suite, net.nodes, Interfere(sv, env, net).nodes, urls, shares, key, keys);
    ActStaysLenient(sv, env, net, url, Gating(env, net, req), urls, key, keys, from);
    var gated := Act(sv, env, net, url, Gating(env, net, req)).net;
    KeptStaysHarmless(sv.suite, net.nodes, gated.nodes, urls, shares, key, keys);
    ActStaysLenient(sv, env, gated, url, Loading(env, gated), urls, key, keys, from);
    var loaded := Act(sv, env, gated, url, Loading(env, gated)).net;
    KeptStaysHarmless(sv.suite, gated.nodes, loaded.nodes, urls, shares, key, keys);
    InterfereStaysLenient(sv, env, loaded, urls, key, keys, from);
    ActStaysLenient(sv, env, loaded, url, Node.Decrypt(ME), urls, key, keys, from);
    KeptStaysHarmless(sv.suite, loaded.nodes, Act(sv, env, loaded, url, Node.Decrypt(ME)).net.nodes, urls, shares, key,
      keys);
    if url in net.nodes && key in loaded.nodes[url].store.bucket {
      HarmlessOpensAtMost(sv.suite, loaded.nodes, Interfere(sv, env, loaded).nodes, urls, shares, j, key, keys);
    }
  }

  /** Whatever key the node has by then, it reads nothing but the share out of the record it found. */
  lemma HarmlessOpensAtMost(s: Suite, nodes: Nodes, later: Nodes, urls: seq<string>, shares: seq<Bytes>, j: nat,
      key: string, keys: iset<PrivKey>)
    requires AllHarmless(s, nodes, urls, shares, key, keys) && AllKnown(s, later, urls, key, keys)
    requires j < |urls| && urls[j] in nodes && urls[j] in later && key in nodes[urls[j]].store.bucket
    ensures OpensAtMost(s, later[urls[j]].ring.ring.nodePriv, nodes[urls[j]].store.bucket[key], shares[j])
  {
    hide OpensAtMost, NoneSaving;
    assert Known(s, later[urls[j]], key, keys);
    assert Harmless(s, nodes[urls[j]].store.bucket[key], shares[j], keys);
  }

  lemma {:induction false} CollectionStaysTame(sv: Services, env: Env, net: Net, urls: seq<string>,
      shares: seq<Bytes>, j: nat, req: RetrieveRequest, missing: int, keys: iset<PrivKey>, from: nat)
    requires var key := ShareStore.StoreKey(req.contractID, req.objectID);
      && LenientFrom(env, urls, key, keys, from) && from <= net.tick && j <= |urls| <= |shares|
      && AllKnown(sv.suite, net.nodes, urls, key, keys) && AllHarmless(sv.suite, net.nodes, urls, shares, key, keys)
    ensures TameCollection(sv, env, net, urls, shares, j, req, missing)
    decreases |urls| - j
  {
    hide PostRetrieve, TameRetrieval, TameCollection, LenientFrom, AllKnown, AllHarmless;
    TameCollectionFrom(sv, env, net, urls, shares, j, req, missing);
    if j < |urls| {
      var a := PostRetrieve(sv, env, net, urls[j], req);
      RetrievalStaysTame(sv, env, net, urls, shares, j, req, keys, from);
      CollectionStaysTame(sv, env, a.net, urls, shares, j + 1, req, if a.result.Some? then missing - 1 else missing,
        keys, from);
    }
  }

  // ---- end to end ----

  /** The others store nothing under the key, all keys that are in use or generated are among the given ones, with
      ideal cryptography among these, and the encryption wrote its metadata. */
  ghost predicate AmidRotations(sv: Services, env: Env, net: Net, file: Bytes, contractID: string, nodesList: string,
      n: int, t: int, rand: Randomness, who: Accessor, keys: iset<PrivKey>)
  {
    && sv.suite.Lawful() && Ready(sv, env, net) && Distributes(file, contractID, nodesList, n, t, rand)
    && var job := JobOf(sv, file, contractID, nodesList, n, t, rand);
    && LenientFrom(env, job.urls, JobKey(job), keys, net.tick)
    && AllKnown(sv.suite, net.nodes, job.urls, JobKey(job), keys) && IdealJob(sv.suite, job, keys)
    && var e := Encrypt(sv, env, net, file, contractID, nodesList, n, t, rand);
       e.metadata.Some? && who.address.Some? && MakeRequest(sv, e.metadata.value, who).Some?
  }

  /** The whole round trip with rotations and purges at any moment: the outcome is the file if t nodes still answer
      with success, and never a wrong file. */
  lemma RecoveryDespiteRotations(sv: Services, env: Env, net: Net, file: Bytes, contractID: string,
      nodesList: string, n: int, t: int, rand: Randomness, who: Accessor, keys: iset<PrivKey>)
    requires AmidRotations(sv, env, net, file, contractID, nodesList, n, t, rand, who, keys)
    ensures var e := Encrypt(sv, env, net, file, contractID, nodesList, n, t, rand);
      var job := JobOf(sv, file, contractID, nodesList, n, t, rand);
      var answers := AnswersFrom(sv, env, e.net, job.urls, 0, MakeRequest(sv, e.metadata.value, who).value);
      && e.file.Some?
      && Decrypt(sv, env, e.net, e.file.value, e.metadata.value, who).outcome == Expected(file, job.urls, answers, t)
  {
    hide Distribute, Encrypt, Decrypt, SoundRings, AllIdle, TameCollection, AnswersFrom, JobOf, Distributes, Standing,
      LenientFrom, IdealJob, AllKnown, AllHarmless, MakeRequest, Expected;
    var job := JobOf(sv, file, contractID, nodesList, n, t, rand);
    var e := Encrypt(sv, env, net, file, contractID, nodesList, n, t, rand);
    PlacedAtFirst(sv, env, net, file, contractID, nodesList, n, t, rand, keys);
    RequestNamesJob(sv, env, net, file, contractID, nodesList, n, t, rand, who);
    CollectionStaysTame(sv, env, e.net, job.urls, Standing(job.urls, job.shares), 0,
      MakeRequest(sv, e.metadata.value, who).value, t, keys, net.tick);
    ThresholdRecovery(sv, env, net, file, contractID, nodesList, n, t, rand, who);
  }

  /** The encryption leaves only harmless records. */
  lemma PlacedAtFirst(sv: Services, env: Env, net: Net, file: Bytes, contractID: string, nodesList: string,
      n: int, t: int, rand: Randomness, keys: iset<PrivKey>)
    requires sv.suite.Lawful() && Ready(sv, env, net) && Distributes(file, contractID, nodesList, n, t, rand)
    requires var job := JobOf(sv, file, contractID, nodesList, n, t, rand);
      && LenientFrom(env, job.urls, JobKey(job), keys, net.tick)
      && AllKnown(sv.suite, net.nodes, job.urls, JobKey(job), keys) && IdealJob(sv.suite, job, keys)
    requires Encrypt(sv, env, net, file, contractID, nodesList, n, t, rand).metadata.Some?
    ensures var job := JobOf(sv, file, contractID, nodesList, n, t, rand);
      var after := Encrypt(sv, env, net, file, contractID, nodesList, n, t, rand).net;
      && net.tick <= after.tick && AllKnown(sv.suite, after.nodes, job.urls, JobKey(job), keys)
      && AllHarmless(sv.suite, after.nodes, job.urls, Standing(job.urls, job.shares), JobKey(job), keys)
  {
    hide Distribute, Encrypt, SoundRings, AllIdle, JobOf, Standing, LenientFrom, IdealJob, AllKnown, Harmless;
    var job := JobOf(sv, file, contractID, nodesList, n, t, rand);
    EncryptDistributes(sv, env, net, file, contractID, nodesList, n, t, rand);
    assert job.urls[..0] == [] && job.urls[..|job.urls|] == job.urls;
    DistributionStaysHarmless(sv, env, net, job, 0, keys, net.tick);
  }
}
