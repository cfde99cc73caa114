/** Recovery in plain terms: when all the others ever do at the listed nodes is fetch keys, generate but not
    publish, retrieve, and store or purge other objects, nothing they do disturbs an encryption or a
    decryption. */
module OtherObjects {
  import opened Basics
  import opened Crypto
  import opened Client
  import opened Recovery
  import opened Retrieve
  import KeyRing
  import Node
  import ShareStore

  /** An action that neither publishes a key nor concerns the given store key. */
  predicate Innocent(a: Node.Action, key: string) {
    match a
    case Rotation(r) => r.Generate? || r.Report?
    case Storing(CheckStep(_, req, _)) => ShareStore.RequestKey(req) != key
    case Storing(PurgeStep(c, o, _)) => ShareStore.StoreKey(c, o) != key
    case _ => true
  }

  ghost predicate InnocentEnv(env: Env, urls: seq<string>, key: string) {
    && ForeignEnv(env)
    && forall k, i | 0 <= i < |env.others(k)| && env.others(k)[i].url in urls :: Innocent(env.others(k)[i].action, key)
  }

  /** No publication is half way through at the node, and nobody else is about to save under the key. */
  ghost predicate Quiet(n: Node.Node, key: string) {
    && !KeyRing.HalfPublished(n.ring)
    && forall t | t in n.store.pending && t != ME :: n.store.pending[t].key != key
  }

  ghost predicate QuietNodes(nodes: Nodes, urls: seq<string>, key: string) {
    forall u | u in urls && u in nodes :: Quiet(nodes[u], key)
  }

  lemma InnocentStep(sv: Services, n: Node.Node, a: Node.Action, key: string)
    requires KeyRing.Inv(sv.suite, n.ring) && Quiet(n, key) && Foreign(a) && Innocent(a, key)
    ensures Quiet(Node.Step(sv, n, a).node, key) && SameShare(n, Node.Step(sv, n, a).node, key)
  {
    hide Gates, Open, HexDecode, KeyRing.AddVersion;
    if a.Storing? && a.storing.CheckStep? && ShareStore.ReadRequest(a.storing.req).Some? {
      EntryKey(a.storing.req);
    }
  }

  lemma SameShareTransitive(a: Node.Node, b: Node.Node, c: Node.Node, key: string)
    requires SameShare(a, b, key) && SameShare(b, c, key)
    ensures SameShare(a, c, key)
  {}

  lemma OneStaysInnocent(sv: Services, nodes: Nodes, a: OthersAction, urls: seq<string>, key: string)
    requires SoundRings(sv, nodes) && QuietNodes(nodes, urls, key) && Foreign(a.action)
    requires a.url in urls ==> Innocent(a.action, key)
    ensures QuietNodes(OneOther(sv, nodes, a), urls, key)
    ensures forall u | u in urls && u in nodes :: SameShare(nodes[u], OneOther(sv, nodes, a)[u], key)
  {
    hide Node.Step, KeyRing.Inv, Quiet;
    if a.url in nodes && a.url in urls {
      InnocentStep(sv, nodes[a.url], a.action, key);
    }
  }

  lemma {:induction false} OthersStayInnocent(sv: Services, nodes: Nodes, acts: seq<OthersAction>, urls: seq<string>,
      key: string)
    requires SoundRings(sv, nodes) && QuietNodes(nodes, urls, key)
    requires forall i | 0 <= i < |acts| :: Foreign(acts[i].action)
    requires forall i | 0 <= i < |acts| && acts[i].url in urls :: Innocent(acts[i].action, key)
    ensures var nodes' := RunOthers(sv, nodes, acts);
      QuietNodes(nodes', urls, key) && forall u | u in urls && u in nodes :: SameShare(nodes[u], nodes'[u], key)
    decreases |acts|
  {
    hide OneOther, SoundRings, QuietNodes;
    if acts != [] {
      hide SameShare;
      var next := OneOther(sv, nodes, acts[0]);
      OneOtherKeeps(sv, nodes, acts[0]);
      OneStaysInnocent(sv, nodes, acts[0], urls, key);
      OthersStayInnocent(sv, next, acts[1..], urls, key);
      forall u | u in urls && u in nodes
        ensures SameShare(nodes[u], RunOthers(sv, nodes, acts)[u], key)
      {
        SameShareTransitive(nodes[u], next[u], RunOthers(sv, nodes, acts)[u], key);
      }
    }
  }

  lemma InnocentIsCalm(sv: Services, env: Env, net: Net, urls: seq<string>, some: seq<string>, key: string)
    requires InnocentEnv(env, urls, key) && SoundRings(sv, net.nodes) && QuietNodes(net.nodes, urls, key)
    requires forall u | u in some :: u in urls
    ensures Calm(sv, env, net, some, key)
    ensures QuietNodes(Interfere(sv, env, net).nodes, urls, key) && SoundRings(sv, Interfere(sv, env, net).nodes)
    ensures forall u | u in urls :: NoRotation(sv, env, net, u)
  {
    hide RunOthers, KeyRing.Inv, Quiet;
    OthersStayInnocent(sv, net.nodes, env.others(net.tick), urls, key);
    InterfereKeeps(sv, env, net);
    assert forall u | u in urls && u in net.nodes :: SameShare(net.nodes[u], Interfere(sv, env, net).nodes[u], key);
  }

  /** Our own steps keep the nodes quiet. */
  lemma ActKeepsQuiet(sv: Services, env: Env, net: Net, url: string, a: Node.Action, urls: seq<string>, key: string)
    requires InnocentEnv(env, urls, key) && SoundRings(sv, net.nodes) && QuietNodes(net.nodes, urls, key)
    requires a.Fetch? || a.Gate? || a.Load? || a.Decrypt? || (a.Storing? && !a.storing.PurgeStep? && a.storing.t == ME)
    ensures QuietNodes(Act(sv, env, net, url, a).net.nodes, urls, key)
    ensures SoundRings(sv, Act(sv, env, net, url, a).net.nodes)
  {
    hide Interfere, KeyRing.Inv, Gates, Open, HexDecode, HexEncode;
    InnocentIsCalm(sv, env, net, urls, [], key);
    ActKeeps(sv, env, net, url, a);
  }

  lemma PlacingStaysCalm(sv: Services, env: Env, net: Net, job: Job, i: nat)
    requires i < |job.urls| && i < |job.shares|
    requires InnocentEnv(env, job.urls, JobKey(job))
    requires SoundRings(sv, net.nodes) && QuietNodes(net.nodes, job.urls, JobKey(job))
    ensures CalmPlacing(sv, env, net, job, i, JobKey(job))
    ensures var after := PlaceShare(sv, env, net, job, i).net.nodes;
      SoundRings(sv, after) && QuietNodes(after, job.urls, JobKey(job))
  {
    hide Act, Interfere, Calm, NoRotation, SoundRings, EciesEncrypt, HexDecode, HexEncode;
    var url, key, before := job.urls[i], JobKey(job), job.urls[..i];
    InnocentIsCalm(sv, env, net, job.urls, before, key);
    ActKeepsQuiet(sv, env, net, url, Node.Fetch, job.urls, key);
    var fetched := FetchKey(sv, env, net, url);
    InnocentIsCalm(sv, env, fetched.net, job.urls, before, key);
    if fetched.result.Some? {
      var e := EciesEncrypt(sv.suite, fetched.result.value, job.shares[i], job.rand.ephemeral(i), job.rand.nonce(i));
      if e.Some? {
        var body := StoreBody(job, e.value);
        ActKeepsQuiet(sv, env, fetched.net, url, Checking(env, fetched.net, body), job.urls, key);
        var checked := Act(sv, env, fetched.net, url, Checking(env, fetched.net, body)).net;
        InnocentIsCalm(sv, env, checked, job.urls, before, key);
        ActKeepsQuiet(sv, env, checked, url, Saving(env, checked), job.urls, key);
      }
    }
  }

  lemma {:induction false} DistributionStaysCalm(sv: Services, env: Env, net: Net, job: Job, i: nat)
    requires i <= |job.urls| <= |job.shares|
    requires InnocentEnv(env, job.urls, JobKey(job))
    requires SoundRings(sv, net.nodes) && QuietNodes(net.nodes, job.urls, JobKey(job))
    ensures CalmDistribution(sv, env, net, job, i)
    ensures var after := Distribute(sv, env, net, job, i).net.nodes;
      SoundRings(sv, after) && QuietNodes(after, job.urls, JobKey(job))
    decreases |job.urls| - i
  {
    if i < |job.urls| {
      hide PlaceShare, CalmPlacing, SoundRings, InnocentEnv, QuietNodes;
      PlacingStaysCalm(sv, env, net, job, i);
      if PlaceShare(sv, env, net, job, i).ok {
        DistributionStaysCalm(sv, env, PlaceShare(sv, env, net, job, i).net, job, i + 1);
      }
    }
  }

  lemma RetrievalStaysCalm(sv: Services, env: Env, net: Net, url: string, req: RetrieveRequest, urls: seq<string>,
      key: string)
    requires InnocentEnv(env, urls, key) && SoundRings(sv, net.nodes) && QuietNodes(net.nodes, urls, key)
    ensures CalmRetrieval(sv, env, net, url, req, urls, key)
    ensures var after := PostRetrieve(sv, env, net, url, req).net.nodes;
      SoundRings(sv, after) && QuietNodes(after, urls, key)
  {
    hide Act, Interfere, Calm, SoundRings, QuietNodes, InnocentEnv;
    InnocentIsCalm(sv, env, net, urls, urls, key);
    ActKeepsQuiet(sv, env, net, url, Gating(env, net, req), urls, key);
    var gated := Act(sv, env, net, url, Gating(env, net, req)).net;
    InnocentIsCalm(sv, env, gated, urls, urls, key);
    ActKeepsQuiet(sv, env, gated, url, Loading(env, gated), urls, key);
    var loaded := Act(sv, env, gated, url, Loading(env, gated)).net;
    InnocentIsCalm(sv, env, loaded, urls, urls, key);
    ActKeepsQuiet(sv, env, loaded, url, Node.Decrypt(ME), urls, key);
  }

  lemma {:induction false} CollectionStaysCalm(sv: Services, env: Env, net: Net, urls: seq<string>, j: nat,
      req: RetrieveRequest, key: string, missing: int)
    requires j <= |urls|
    requires InnocentEnv(env, urls, key) && SoundRings(sv, net.nodes) && QuietNodes(net.nodes, urls, key)
    ensures CalmCollection(sv, env, net, urls, j, req, key, missing)
    decreases |urls| - j
  {
    hide PostRetrieve, CalmRetrieval, CalmCollection, SoundRings, QuietNodes, InnocentEnv;
    CalmCollectionFrom(sv, env, net, urls, j, req, key, missing);
    if j < |urls| {
      var a := PostRetrieve(sv, env, net, urls[j], req);
      RetrievalStaysCalm(sv, env, net, urls[j], req, urls, key);
      CollectionStaysCalm(sv, env, a.net, urls, j + 1, req, key, if a.result.Some? then missing - 1 else missing);
    }
  }

  /** The nodes start quiet, the others stick to other objects and publish no keys, the encryption wrote its
      metadata, and the caller can make a request from it. */
  ghost predicate AmidOtherObjects(sv: Services, env: Env, net: Net, file: Bytes, contractID: string,
      nodesList: string, n: int, t: int, rand: Randomness, who: Accessor)
  {
    && sv.suite.Lawful() && Ready(sv, env, net) && Distributes(file, contractID, nodesList, n, t, rand)
    && var job := JobOf(sv, file, contractID, nodesList, n, t, rand);
    && InnocentEnv(env, job.urls, JobKey(job)) && QuietNodes(net.nodes, job.urls, JobKey(job))
    && var e := Encrypt(sv, env, net, file, contractID, nodesList, n, t, rand);
       e.metadata.Some? && who.address.Some? && MakeRequest(sv, e.metadata.value, who).Some?
  }

  /** Then all is calm, while the shares are placed and while they are collected. */
  lemma OthersLeaveRoom(sv: Services, env: Env, net: Net, file: Bytes, contractID: string, nodesList: string,
      n: int, t: int, rand: Randomness, who: Accessor)
    requires AmidOtherObjects(sv, env, net, file, contractID, nodesList, n, t, rand, who)
    ensures var e := Encrypt(sv, env, net, file, contractID, nodesList, n, t, rand);
      var job := JobOf(sv, file, contractID, nodesList, n, t, rand);
      && CalmDistribution(sv, env, net, job, 0)
      && CalmCollection(sv, env, e.net, job.urls, 0, MakeRequest(sv, e.metadata.value, who).value, JobKey(job), t)
  {
    hide Distribute, Encrypt, SoundRings, AllIdle, CalmDistribution, CalmCollection, JobOf, InnocentEnv, QuietNodes,
      Distributes, MakeRequest;
    var job := JobOf(sv, file, contractID, nodesList, n, t, rand);
    JobSizes(sv, file, contractID, nodesList, n, t, rand);
    DistributionStaysCalm(sv, env, net, job, 0);
    EncryptReaches(sv, env, net, file, contractID, nodesList, n, t, rand);
    var e := Encrypt(sv, env, net, file, contractID, nodesList, n, t, rand);
    CollectionStaysCalm(sv, env, e.net, job.urls, 0, MakeRequest(sv, e.metadata.value, who).value, JobKey(job), t);
  }

  /** And the encryption can be undone exactly when t of its nodes answer, unless one is among the first t twice. */
  lemma RecoveryAmidOtherObjects(sv: Services, env: Env, net: Net, file: Bytes, contractID: string, nodesList: string,
      n: int, t: int, rand: Randomness, who: Accessor)
    requires AmidOtherObjects(sv, env, net, file, contractID, nodesList, n, t, rand, who)
    ensures var e := Encrypt(sv, env, net, file, contractID, nodesList, n, t, rand);
      var job := JobOf(sv, file, contractID, nodesList, n, t, rand);
      var answers := AnswersFrom(sv, env, e.net, job.urls, 0, MakeRequest(sv, e.metadata.value, who).value);
      && e.file.Some?
      && Decrypt(sv, env, e.net, e.file.value, e.metadata.value, who).outcome == Expected(file, job.urls, answers, t)
  {
    hide Distribute, Encrypt, Decrypt, SoundRings, AllIdle, CalmDistribution, CalmCollection, AnswersFrom, JobOf,
      InnocentEnv, QuietNodes, Distributes, MakeRequest, Expected;
    OthersLeaveRoom(sv, env, net, file, contractID, nodesList, n, t, rand, who);
    RecoveryWhenCalm(sv, env, net, file, contractID, nodesList, n, t, rand, who);
  }

  lemma JobSizes(sv: Services, file: Bytes, contractID: string, nodesList: string, n: int, t: int, rand: Randomness)
    requires sv.suite.Lawful() && Distributes(file, contractID, nodesList, n, t, rand)
    ensures var job := JobOf(sv, file, contractID, nodesList, n, t, rand); |job.urls| == |job.shares| == n
  {
    hide SplitCommas;
  }

  lemma EncryptReaches(sv: Services, env: Env, net: Net, file: Bytes, contractID: string, nodesList: string,
      n: int, t: int, rand: Randomness)
    requires sv.suite.Lawful() && Distributes(file, contractID, nodesList, n, t, rand)
    ensures var job := JobOf(sv, file, contractID, nodesList, n, t, rand);
      |job.urls| <= |job.shares| &&
      Encrypt(sv, env, net, file, contractID, nodesList, n, t, rand).net == Distribute(sv, env, net, job, 0).net
  {
    hide Distribute, Encrypt, SplitCommas, JobOf;
    EncryptDistributes(sv, env, net, file, contractID, nodesList, n, t, rand);
  }
}
