/** From the client's distribution to the client's recovery, whatever the others do in between. */
module Recovery {
  import opened Basics
  import opened Crypto
  import opened Client
  import opened Retrieve
  import opened Transaction
  import KeyRing
  import Node
  import ShareStore

  // ---- what others cannot disturb ----

  /** The action belongs to a request of somebody else. */
  predicate Foreign(a: Node.Action) {
    match a
    case Storing(CheckStep(t, _, _)) => t != ME
    case Storing(SaveStep(t, _)) => t != ME
    case Gate(t, _, _, _) => t != ME
    case Load(t, _) => t != ME
    case Decrypt(t) => t != ME
    case _ => true
  }

  ghost predicate ForeignEnv(env: Env) {
    forall k, i | 0 <= i < |env.others(k)| :: Foreign(env.others(k)[i].action)
  }

  /** This client's own requests at a node. */
  ghost predicate SameMine(n: Node.Node, n': Node.Node) {
    && (ME in n.store.pending <==> ME in n'.store.pending)
    && (ME in n.store.pending ==> n.store.pending[ME] == n'.store.pending[ME])
    && (ME in n.tasks <==> ME in n'.tasks)
    && (ME in n.tasks ==> n.tasks[ME] == n'.tasks[ME])
  }

  ghost predicate Idle(n: Node.Node) {
    ME !in n.store.pending && ME !in n.tasks
  }

  /** Every node's key ring is in a reachable state. */
  ghost predicate SoundRings(sv: Services, nodes: Nodes) {
    forall u | u in nodes :: KeyRing.Inv(sv.suite, nodes[u].ring)
  }

  ghost predicate AllIdle(nodes: Nodes) {
    forall u | u in nodes :: Idle(nodes[u])
  }

  lemma StepKeepsRing(sv: Services, n: Node.Node, a: Node.Action)
    requires KeyRing.Inv(sv.suite, n.ring)
    ensures KeyRing.Inv(sv.suite, Node.Step(sv, n, a).node.ring)
  {
    hide KeyRing.Inv;
    if a.Rotation? {
      KeyRing.StepKeepsInv(sv.suite, n.ring, a.rotation);
    }
  }

  lemma ForeignStepKeepsMine(sv: Services, n: Node.Node, a: Node.Action)
    requires Foreign(a)
    ensures SameMine(n, Node.Step(sv, n, a).node)
  {
    hide Gates, Open, KeyRing.Step, ShareStore.Check;
  }

  lemma SameMineTransitive(a: Node.Node, b: Node.Node, c: Node.Node)
    requires SameMine(a, b) && SameMine(b, c)
    ensures SameMine(a, c)
  {}

  lemma OneOtherKeeps(sv: Services, nodes: Nodes, a: OthersAction)
    requires SoundRings(sv, nodes) && Foreign(a.action)
    ensures SoundRings(sv, OneOther(sv, nodes, a))
    ensures forall u | u in nodes :: SameMine(nodes[u], OneOther(sv, nodes, a)[u])
  {
    hide Node.Step, KeyRing.Inv, SameMine;
    forall u | u in nodes ensures SameMine(nodes[u], nodes[u]) {
      SameMineReflexive(nodes[u]);
    }
    if a.url in nodes {
      StepKeepsRing(sv, nodes[a.url], a.action);
      ForeignStepKeepsMine(sv, nodes[a.url], a.action);
    }
  }

  lemma {:induction false} OthersKeep(sv: Services, nodes: Nodes, acts: seq<OthersAction>)
    requires SoundRings(sv, nodes) && forall i | 0 <= i < |acts| :: Foreign(acts[i].action)
    ensures var nodes' := RunOthers(sv, nodes, acts);
      SoundRings(sv, nodes') && forall u | u in nodes :: SameMine(nodes[u], nodes'[u])
    decreases |acts|
  {
    hide OneOther, SoundRings, SameMine;
    if acts == [] {
      forall u | u in nodes ensures SameMine(nodes[u], nodes[u]) {
        SameMineReflexive(nodes[u]);
      }
    } else {
      var next := OneOther(sv, nodes, acts[0]);
      OneOtherKeeps(sv, nodes, acts[0]);
      OthersKeep(sv, next, acts[1..]);
      forall u | u in nodes
        ensures SameMine(nodes[u], RunOthers(sv, nodes, acts)[u])
      {
        SameMineTransitive(nodes[u], next[u], RunOthers(sv, nodes, acts)[u]);
      }
    }
  }

  lemma SameMineReflexive(n: Node.Node)
    ensures SameMine(n, n)
  {}

  lemma InterfereKeeps(sv: Services, env: Env, net: Net)
    requires ForeignEnv(env) && SoundRings(sv, net.nodes)
    ensures var net' := Interfere(sv, env, net);
      SoundRings(sv, net'.nodes) && forall u | u in net.nodes :: SameMine(net.nodes[u], net'.nodes[u])
  {
    hide RunOthers, SameMine, KeyRing.Inv;
    OthersKeep(sv, net.nodes, env.others(net.tick));
  }

  // ---- what others are asked not to do ----

  /** The two nodes hold the same record under the key and decrypt with the same private key. */
  ghost predicate SameShare(n: Node.Node, n': Node.Node, key: string) {
    && ShareStore.Lookup(n.store.bucket, key) == ShareStore.Lookup(n'.store.bucket, key)
    && n.ring.ring.nodePriv == n'.ring.ring.nodePriv
  }

  /** What the others do before the next step neither rotates any of these nodes nor overwrites or purges
      what they store under the key. */
  ghost predicate Calm(sv: Services, env: Env, net: Net, urls: seq<string>, key: string) {
    var net' := Interfere(sv, env, net);
    forall u | u in urls && u in net.nodes :: SameShare(net.nodes[u], net'.nodes[u], key)
  }

  /** Nor does it rotate this node, whatever happens to its store. */
  ghost predicate NoRotation(sv: Services, env: Env, net: Net, url: string) {
    url in net.nodes ==>
      net.nodes[url].ring.ring.nodePriv == Interfere(sv, env, net).nodes[url].ring.ring.nodePriv
  }

  /** The nodes hold the shares, each in the place of its own. */
  ghost predicate Held(sv: Services, nodes: Nodes, urls: seq<string>, shares: seq<Bytes>, key: string)
  {
    && |urls| <= |shares|
    && forall i | 0 <= i < |urls| :: urls[i] in nodes && Node.HoldsShare(sv, nodes[urls[i]], key, shares[i])
  }

  lemma CalmKeepsHeld(sv: Services, env: Env, net: Net, urls: seq<string>, shares: seq<Bytes>, key: string)
    requires Held(sv, net.nodes, urls, shares, key) && Calm(sv, env, net, urls, key)
    ensures Held(sv, Interfere(sv, env, net).nodes, urls, shares, key)
  {
    hide Interfere, DecryptShare;
    forall i | 0 <= i < |urls|
      ensures Node.HoldsShare(sv, Interfere(sv, env, net).nodes[urls[i]], key, shares[i])
    {
      assert urls[i] in urls;
      assert SameShare(net.nodes[urls[i]], Interfere(sv, env, net).nodes[urls[i]], key);
    }
  }

  // ---- which share a node is left with ----

  /** The last position of a list that names the same node as the j-th. */
  function LastVisit(urls: seq<string>, j: nat): (k: nat)
    requires j < |urls|
    ensures j <= k < |urls| && urls[k] == urls[j] && forall m | k < m < |urls| :: urls[m] != urls[j]
  {
    var last := |urls| - 1;
    if urls[last] == urls[j] then last else LastVisit(urls[..last], j)
  }

  /** For every position the share that its node was sent last: its own, unless the node is listed again. */
  ghost function Standing(urls: seq<string>, shares: seq<Bytes>): (r: seq<Bytes>)
    requires |urls| <= |shares|
    ensures |r| == |urls|
  {
    seq(|urls|, j requires 0 <= j < |urls| => shares[LastVisit(urls, j)])
  }

  lemma StandingOneMore(urls: seq<string>, shares: seq<Bytes>, i: nat, j: nat)
    requires j <= i < |urls| && i < |shares|
    ensures Standing(urls[..i + 1], shares)[j]
      == if urls[j] == urls[i] then shares[i] else Standing(urls[..i], shares)[j]
  {
    assert urls[..i + 1][..i] == urls[..i];
  }

  lemma StandingOfDistinct(urls: seq<string>, shares: seq<Bytes>)
    requires |urls| <= |shares| && Distinct(urls)
    ensures Standing(urls, shares) == shares[..|urls|]
  {
    forall j | 0 <= j < |urls| ensures LastVisit(urls, j) == j {}
  }

  // ---- placing one share ----

  /** The others' part while the i-th share is placed: the shares already placed stay, and from the fetch on the
      i-th node does not switch its private key and the public one it hands out belongs to it. */
  ghost predicate CalmPlacing(sv: Services, env: Env, net: Net, job: Job, i: nat, key: string)
    requires i < |job.urls| && i < |job.shares|
  {
    var url, before := job.urls[i], job.urls[..i];
    var fetched := FetchKey(sv, env, net, url);
    && Calm(sv, env, net, before, key)
    && (url in fetched.net.nodes ==> !KeyRing.HalfPublished(fetched.net.nodes[url].ring))
    && (fetched.result.Some? ==>
          var e := EciesEncrypt(sv.suite, fetched.result.value, job.shares[i], job.rand.ephemeral(i),
            job.rand.nonce(i));
          && Calm(sv, env, fetched.net, before, key) && NoRotation(sv, env, fetched.net, url)
          && (e.Some? ==>
                var checked := Act(sv, env, fetched.net, url, Checking(env, fetched.net, StoreBody(job, e.value)));
                Calm(sv, env, checked.net, before, key) && NoRotation(sv, env, checked.net, url)))
  }

  function JobKey(job: Job): (key: string) {
    ShareStore.StoreKey(job.contractID, job.objectID)
  }

  ghost predicate RandomOk(rand: Randomness) {
    forall i :: ValidNonce(rand.nonce(i))
  }

  lemma PublicHalf(s: Suite, st: KeyRing.State)
    requires KeyRing.Inv(s, st) && !KeyRing.HalfPublished(st)
    ensures st.ring.nodePub == s.pub(st.ring.nodePriv)
  {}

  lemma FetchGivesCurrentKey(sv: Services, env: Env, net: Net, url: string)
    requires ForeignEnv(env) && SoundRings(sv, net.nodes)
    requires var f := FetchKey(sv, env, net, url);
      url in f.net.nodes && f.result.Some? && !KeyRing.HalfPublished(f.net.nodes[url].ring)
    ensures var f := FetchKey(sv, env, net, url);
      && f.net == Interfere(sv, env, net) && url in f.net.nodes
      && f.result == Some(sv.suite.pub(f.net.nodes[url].ring.ring.nodePriv))
  {
    hide Interfere, HexEncode, HexDecode, KeyRing.Inv;
    InterfereKeeps(sv, env, net);
    var n := Interfere(sv, env, net);
    assert n.nodes[url := n.nodes[url]] == n.nodes;
    PublicHalf(sv.suite, n.nodes[url].ring);
    HexRoundTrip(n.nodes[url].ring.ring.nodePub);
  }

  lemma ActKeeps(sv: Services, env: Env, net: Net, url: string, a: Node.Action)
    requires ForeignEnv(env) && SoundRings(sv, net.nodes)
    ensures SoundRings(sv, Act(sv, env, net, url, a).net.nodes)
    ensures forall u | u in net.nodes && u != url :: SameMine(net.nodes[u], Act(sv, env, net, url, a).net.nodes[u])
  {
    hide Interfere, KeyRing.Inv, SameMine, Node.Step;
    InterfereKeeps(sv, env, net);
    if url in net.nodes {
      StepKeepsRing(sv, Interfere(sv, env, net).nodes[url], a);
    }
  }

  /** A step leaves the other nodes to the others, and so as they were when these are calm. */
  lemma ActElsewhere(sv: Services, env: Env, net: Net, url: string, a: Node.Action, urls: seq<string>, key: string)
    requires Calm(sv, env, net, urls, key)
    ensures forall u | u in urls && u in net.nodes && u != url ::
      SameShare(net.nodes[u], Act(sv, env, net, url, a).net.nodes[u], key)
  {
    hide Interfere, Node.Step, SameShare;
  }

  /** The steps of a retrieve request leave shares and keys where they are. */
  lemma ActKeepsHeld(sv: Services, env: Env, net: Net, url: string, a: Node.Action,
      urls: seq<string>, shares: seq<Bytes>, key: string)
    requires Held(sv, net.nodes, urls, shares, key) && Calm(sv, env, net, urls, key)
    requires a.Gate? || a.Load? || a.Decrypt?
    ensures Held(sv, Act(sv, env, net, url, a).net.nodes, urls, shares, key)
  {
    hide Interfere, DecryptShare, Gates, Open, Calm;
    CalmKeepsHeld(sv, env, net, urls, shares, key);
    var n := Interfere(sv, env, net);
    forall i | 0 <= i < |urls|
      ensures urls[i] in n.nodes && Node.HoldsShare(sv, Act(sv, env, net, url, a).net.nodes[urls[i]], key, shares[i])
    {
      assert urls[i] in urls;
      assert Node.HoldsShare(sv, n.nodes[urls[i]], key, shares[i]);
    }
  }

  /** The check admitted the request: it is well-formed, and nothing was found under its key if the read worked. */
  lemma CheckAdmits(sv: Services, env: Env, net: Net, url: string, req: ShareStore.StoreRequest)
    requires ForeignEnv(env) && SoundRings(sv, net.nodes) && AllIdle(net.nodes) && url in net.nodes
    requires req.overwrite == ""
    requires Act(sv, env, net, url, Checking(env, net, req)).reply == None
    ensures var n := Interfere(sv, env, net).nodes[url];
      var c := Act(sv, env, net, url, Checking(env, net, req)).net;
      && ShareStore.ReadRequest(req).Some?
      && (env.loadOk(net.tick) ==> !ShareStore.Exists(n.store.bucket, ShareStore.RequestKey(req)))
      && ME in c.nodes[url].store.pending && c.nodes[url].store.pending[ME] == ShareStore.ReadRequest(req).value
      && c.nodes[url].ring == n.ring && ME !in c.nodes[url].tasks
      && (forall u | u in net.nodes && u != url :: Idle(c.nodes[u]))
  {
    hide Interfere, KeyRing.Inv, HexDecode;
    InterfereKeeps(sv, env, net);
    assert SameMine(net.nodes[url], Interfere(sv, env, net).nodes[url]);
  }

  /** A refusal never looks like success. */
  lemma RefusalIsNotStored(sv: Services, env: Env, net: Net, url: string, req: ShareStore.StoreRequest)
    ensures Act(sv, env, net, url, Checking(env, net, req)).reply != Some(Node.StoreAnswer(ShareStore.Stored))
  {
    hide Interfere, HexDecode;
  }

  /** The save writes the record that was checked. */
  lemma SaveWrites(sv: Services, env: Env, net: Net, url: string, entry: ShareStore.Entry)
    requires ForeignEnv(env) && SoundRings(sv, net.nodes) && url in net.nodes
    requires ME in net.nodes[url].store.pending && net.nodes[url].store.pending[ME] == entry
    requires ME !in net.nodes[url].tasks && forall u | u in net.nodes && u != url :: Idle(net.nodes[u])
    requires Act(sv, env, net, url, Saving(env, net)).reply == Some(Node.StoreAnswer(ShareStore.Stored))
    ensures var n := Interfere(sv, env, net).nodes[url];
      var saved := Act(sv, env, net, url, Saving(env, net)).net;
      && AllIdle(saved.nodes)
      && saved.nodes[url].ring == n.ring
      && ShareStore.Lookup(saved.nodes[url].store.bucket, entry.key) == Some(entry.record)
  {
    hide Interfere, KeyRing.Inv;
    InterfereKeeps(sv, env, net);
    assert SameMine(net.nodes[url], Interfere(sv, env, net).nodes[url]);
    forall u | u in net.nodes && u != url
      ensures Idle(Act(sv, env, net, url, Saving(env, net)).net.nodes[u])
    {
      assert SameMine(net.nodes[u], Interfere(sv, env, net).nodes[u]);
    }
  }

  /** A store that succeeds leaves the record it sent, under whatever key the node has by then. If the read of its
      check worked, it found nothing. */
  lemma StoreSaves(sv: Services, env: Env, net: Net, url: string, req: ShareStore.StoreRequest)
    requires ForeignEnv(env) && SoundRings(sv, net.nodes) && AllIdle(net.nodes) && url in net.nodes
    requires req.overwrite == "" && PostStore(sv, env, net, url, req).result == Some(ShareStore.Stored)
    ensures var checked := Act(sv, env, net, url, Checking(env, net, req));
      var after := PostStore(sv, env, net, url, req).net;
      var key := ShareStore.RequestKey(req);
      && after == Act(sv, env, checked.net, url, Saving(env, checked.net)).net && after.tick == net.tick + 2
      && SoundRings(sv, after.nodes) && AllIdle(after.nodes) && url in after.nodes
      && ShareStore.ReadRequest(req).Some?
      && ShareStore.Lookup(after.nodes[url].store.bucket, key) == Some(ShareStore.ReadRequest(req).value.record)
      && checked.net.nodes[url].ring == Interfere(sv, env, net).nodes[url].ring
      && after.nodes[url].ring == Interfere(sv, env, checked.net).nodes[url].ring
      && (env.loadOk(net.tick) ==> !ShareStore.Exists(Interfere(sv, env, net).nodes[url].store.bucket, key))
  {
    hide Act, RunOthers, SoundRings, ShareStore.ReadRequest;
    var checked := Act(sv, env, net, url, Checking(env, net, req));
    RefusalIsNotStored(sv, env, net, url, req);
    CheckAdmits(sv, env, net, url, req);
    ActKeeps(sv, env, net, url, Checking(env, net, req));
    EntryKey(req);
    SaveWrites(sv, env, checked.net, url, ShareStore.ReadRequest(req).value);
    ActKeeps(sv, env, checked.net, url, Saving(env, checked.net));
    ActTicks(sv, env, net, url, Checking(env, net, req));
    ActTicks(sv, env, checked.net, url, Saving(env, checked.net));
  }

  lemma ActTicks(sv: Services, env: Env, net: Net, url: string, a: Node.Action)
    ensures Act(sv, env, net, url, a).net.tick == net.tick + 1
  {
    hide RunOthers, Node.Step;
  }

  /** A store that succeeds on a calm network leaves its record under the private key the node had all along, and
      the shares on other nodes as they were. A node that held one of the shares accepts it only if the read of the
      check failed. */
  lemma StoreLands(sv: Services, env: Env, net: Net, url: string, req: ShareStore.StoreRequest,
      urls: seq<string>, shares: seq<Bytes>, key: string)
    requires ForeignEnv(env) && SoundRings(sv, net.nodes) && AllIdle(net.nodes) && url in net.nodes
    requires Held(sv, net.nodes, urls, shares, key) && key == ShareStore.RequestKey(req) && req.overwrite == ""
    requires Calm(sv, env, net, urls, key) && NoRotation(sv, env, net, url)
    requires var checked := Act(sv, env, net, url, Checking(env, net, req)).net;
      Calm(sv, env, checked, urls, key) && NoRotation(sv, env, checked, url)
    requires PostStore(sv, env, net, url, req).result == Some(ShareStore.Stored)
    ensures var after := PostStore(sv, env, net, url, req).net;
      && SoundRings(sv, after.nodes) && AllIdle(after.nodes) && after.tick == net.tick + 2
      && after.nodes.Keys == net.nodes.Keys && ShareStore.ReadRequest(req).Some?
      && ShareStore.Lookup(after.nodes[url].store.bucket, key) == Some(ShareStore.ReadRequest(req).value.record)
      && after.nodes[url].ring.ring.nodePriv == net.nodes[url].ring.ring.nodePriv
      && (forall u | u in urls && u in net.nodes && u != url :: SameShare(net.nodes[u], after.nodes[u], key))
      && (url in urls ==> !env.loadOk(net.tick))
  {
    hide Act, Interfere, SoundRings, AllIdle, DecryptShare, ShareStore.ReadRequest;
    var checked := Act(sv, env, net, url, Checking(env, net, req)).net;
    StoreSaves(sv, env, net, url, req);
    ActElsewhere(sv, env, net, url, Checking(env, net, req), urls, key);
    ActElsewhere(sv, env, checked, url, Saving(env, checked), urls, key);
    if url in urls {
      var j :| 0 <= j < |urls| && urls[j] == url;
      HeldHas(sv, net.nodes, urls, shares, key, j);
      assert SameShare(net.nodes[url], Interfere(sv, env, net).nodes[url], key);
    }
  }

  lemma HeldHas(sv: Services, nodes: Nodes, urls: seq<string>, shares: seq<Bytes>, key: string, j: nat)
    requires Held(sv, nodes, urls, shares, key) && j < |urls|
    ensures j < |shares| && urls[j] in nodes && ShareStore.Exists(nodes[urls[j]].store.bucket, key)
  {
    hide DecryptShare;
    assert Node.HoldsShare(sv, nodes[urls[j]], key, shares[j]);
  }

  lemma EntryKey(req: ShareStore.StoreRequest)
    requires ShareStore.ReadRequest(req).Some?
    ensures ShareStore.ReadRequest(req).value.key == ShareStore.RequestKey(req)
  {
    hide HexDecode;
  }

  // ---- distribution ----

  /** The record a node reads out of the request body is what the client sealed. */
  lemma BodyRoundTrip(job: Job, e: Sealed)
    ensures var entry := ShareStore.ReadRequest(StoreBody(job, e));
      entry.Some? ==> entry.value == ShareStore.Entry(JobKey(job), Node.RecordOf(e))
  {
    hide HexEncode, HexDecode;
    HexRoundTrip(e.ephemeralPub);
    HexRoundTrip(e.ciphertext);
    HexRoundTrip(e.nonce);
  }

  lemma BodyKey(job: Job, e: Sealed)
    ensures ShareStore.RequestKey(StoreBody(job, e)) == JobKey(job) && StoreBody(job, e).overwrite == ""
  {}

  ghost predicate JobOk(job: Job) {
    && |job.urls| <= |job.shares| && RandomOk(job.rand)
    && forall i | 0 <= i < |job.shares| :: |job.shares[i]| <= MAX_PLAINTEXT
  }

  /** The node stores the k-th share of the job, sealed for the key it has with the k-th ephemeral key and nonce. */
  ghost predicate HoldsSealed(sv: Services, n: Node.Node, job: Job, k: nat)
    requires k < |job.shares|
  {
    var e := EciesEncrypt(sv.suite, sv.suite.pub(n.ring.ring.nodePriv), job.shares[k], job.rand.ephemeral(k),
      job.rand.nonce(k));
    e.Some? && ShareStore.Lookup(n.store.bucket, JobKey(job)) == Some(Node.RecordOf(e.value))
  }

  lemma SealedOpens(sv: Services, n: Node.Node, job: Job, k: nat)
    requires sv.suite.Lawful() && JobOk(job) && k < |job.shares| && HoldsSealed(sv, n, job, k)
    ensures Node.HoldsShare(sv, n, JobKey(job), job.shares[k])
  {
    hide DecryptShare, EciesEncrypt, JobKey;
    EciesRoundTrip(sv.suite, n.ring.ring.nodePriv, job.shares[k], job.rand.ephemeral(k), job.rand.nonce(k));
  }

  /** Every one of the first i nodes holds the share it was sent last, and no request of ours is open. */
  ghost predicate Placed(sv: Services, nodes: Nodes, job: Job, i: nat)
    requires i <= |job.urls| && i <= |job.shares|
  {
    && SoundRings(sv, nodes) && AllIdle(nodes)
    && Held(sv, nodes, job.urls[..i], Standing(job.urls[..i], job.shares), JobKey(job))
  }

  lemma FetchKeepsPlaced(sv: Services, env: Env, net: Net, job: Job, i: nat)
    requires ForeignEnv(env) && i <= |job.urls| && i <= |job.shares| && Placed(sv, net.nodes, job, i)
    requires Calm(sv, env, net, job.urls[..i], JobKey(job))
    ensures Placed(sv, Interfere(sv, env, net).nodes, job, i)
  {
    hide Interfere, Calm, Held, SoundRings, AllIdle, Standing;
    InterfereKeeps(sv, env, net);
    InterfereKeepsIdle(sv, env, net);
    CalmKeepsHeld(sv, env, net, job.urls[..i], Standing(job.urls[..i], job.shares), JobKey(job));
  }

  /** The i-th visit goes to a node that was visited before. */
  predicate Again(urls: seq<string>, i: nat)
    requires i < |urls|
  {
    urls[i] in urls[..i]
  }

  /** At the moment of the check, the i-th node of a distribution that started at this one fails to read. */
  ghost predicate CheckFails(env: Env, start: nat, i: nat) {
    !env.loadOk(start + 3 * i + 1)
  }

  /** One turn of the distribution loop. A node that was visited before takes the share only if the read of its
      write-once check failed. */
  lemma PlacingAddsOne(sv: Services, env: Env, net: Net, job: Job, i: nat, start: nat)
    requires sv.suite.Lawful() && ForeignEnv(env) && JobOk(job) && i < |job.urls| && net.tick == start + 3 * i
    requires Placed(sv, net.nodes, job, i) && CalmPlacing(sv, env, net, job, i, JobKey(job))
    requires PlaceShare(sv, env, net, job, i).ok
    ensures var after := PlaceShare(sv, env, net, job, i).net;
      Placed(sv, after.nodes, job, i + 1) && after.tick == net.tick + 3
    ensures Again(job.urls, i) ==> CheckFails(env, start, i)
  {
    hide Act, RunOthers, PostStore, FetchKey, EciesEncrypt, DecryptShare, SoundRings, AllIdle, Calm, NoRotation,
      Held, Standing, JobKey;
    var url, standing := job.urls[i], Standing(job.urls[..i], job.shares);
    var fetched := FetchKey(sv, env, net, url);
    FetchReaches(sv, env, net, url);
    FetchGivesCurrentKey(sv, env, net, url);
    FetchKeepsPlaced(sv, env, net, job, i);
    var pub := sv.suite.pub(fetched.net.nodes[url].ring.ring.nodePriv);
    var e := EciesEncrypt(sv.suite, pub, job.shares[i], job.rand.ephemeral(i), job.rand.nonce(i)).value;
    BodyKey(job, e);
    StoreLands(sv, env, fetched.net, url, StoreBody(job, e), job.urls[..i], standing, JobKey(job));
    BodyRoundTrip(job, e);
    var after := PostStore(sv, env, fetched.net, url, StoreBody(job, e)).net.nodes;
    SealedOpens(sv, after[url], job, i);
    HeldAppend(sv, fetched.net.nodes, after, job, i);
  }

  /** One more share in its place. */
  lemma HeldAppend(sv: Services, before: Nodes, after: Nodes, job: Job, i: nat)
    requires i < |job.urls| && i < |job.shares| && before.Keys == after.Keys
    requires Held(sv, before, job.urls[..i], Standing(job.urls[..i], job.shares), JobKey(job))
    requires forall u | u in job.urls[..i] && u in before && u != job.urls[i] ::
      SameShare(before[u], after[u], JobKey(job))
    requires job.urls[i] in after && Node.HoldsShare(sv, after[job.urls[i]], JobKey(job), job.shares[i])
    ensures Held(sv, after, job.urls[..i + 1], Standing(job.urls[..i + 1], job.shares), JobKey(job))
  {
    hide DecryptShare, Standing;
    var urls, standing := job.urls[..i + 1], Standing(job.urls[..i + 1], job.shares);
    forall j | 0 <= j < i + 1
      ensures urls[j] in after && Node.HoldsShare(sv, after[urls[j]], JobKey(job), standing[j])
    {
      StandingOneMore(job.urls, job.shares, i, j);
      if urls[j] != job.urls[i] {
        assert job.urls[..i][j] == urls[j] && urls[j] in job.urls[..i];
        assert Node.HoldsShare(sv, before[urls[j]], JobKey(job), Standing(job.urls[..i], job.shares)[j]);
        assert SameShare(before[urls[j]], after[urls[j]], JobKey(job));
      }
    }
  }

  lemma FetchReaches(sv: Services, env: Env, net: Net, url: string)
    ensures FetchKey(sv, env, net, url).result.Some? ==> url in FetchKey(sv, env, net, url).net.nodes
  {
    hide Interfere, HexDecode;
  }

  /** The others stay calm all along the distribution. */
  ghost predicate CalmDistribution(sv: Services, env: Env, net: Net, job: Job, i: nat)
    requires i <= |job.urls| <= |job.shares|
    decreases |job.urls| - i
  {
    i == |job.urls| ||
      (CalmPlacing(sv, env, net, job, i, JobKey(job)) &&
       var placed := PlaceShare(sv, env, net, job, i);
       placed.ok ==> CalmDistribution(sv, env, placed.net, job, i + 1))
  }

  lemma FirstPlacing(sv: Services, env: Env, net: Net, job: Job, i: nat)
    requires i < |job.urls| <= |job.shares| && CalmDistribution(sv, env, net, job, i)
    requires Distribute(sv, env, net, job, i).ok
    ensures var placed := PlaceShare(sv, env, net, job, i);
      && CalmPlacing(sv, env, net, job, i, JobKey(job)) && placed.ok
      && CalmDistribution(sv, env, placed.net, job, i + 1)
      && Distribute(sv, env, net, job, i) == Distribute(sv, env, placed.net, job, i + 1)
  {
    hide PlaceShare, CalmPlacing;
  }

  /** A distribution that succeeds has left every node with the share it was sent last, and the checks of repeated
      visits failed to read. */
  lemma {:induction false} DistributionPlacesAll(sv: Services, env: Env, net: Net, job: Job, i: nat, start: nat)
    requires sv.suite.Lawful() && ForeignEnv(env) && JobOk(job) && i <= |job.urls| <= |job.shares|
    requires Placed(sv, net.nodes, job, i) && CalmDistribution(sv, env, net, job, i) && net.tick == start + 3 * i
    requires Distribute(sv, env, net, job, i).ok
    ensures Placed(sv, Distribute(sv, env, net, job, i).net.nodes, job, |job.urls|)
    ensures forall j | i <= j < |job.urls| && Again(job.urls, j) :: CheckFails(env, start, j)
    decreases |job.urls| - i
  {
    hide PlaceShare, Placed, CalmPlacing, JobOk, Again, ForeignEnv, SoundRings, AllIdle, CheckFails;
    if i < |job.urls| {
      FirstPlacing(sv, env, net, job, i);
      hide CalmDistribution, Distribute;
      PlacingAddsOne(sv, env, net, job, i, start);
      DistributionPlacesAll(sv, env, PlaceShare(sv, env, net, job, i).net, job, i + 1, start);
    }
  }

  // ---- retrieval ----

  /** The others stay calm while one retrieve request goes through its steps. */
  ghost predicate CalmRetrieval(sv: Services, env: Env, net: Net, url: string, req: RetrieveRequest, urls: seq<string>,
      key: string)
  {
    && Calm(sv, env, net, urls, key)
    && (env.fault(net.tick) != RequestLost && url in net.nodes ==>
          var gated := Act(sv, env, net, url, Gating(env, net, req));
          gated.reply == None ==>
            && Calm(sv, env, gated.net, urls, key)
            && var loaded := Act(sv, env, gated.net, url, Loading(env, gated.net));
               (loaded.reply == None ==> Calm(sv, env, loaded.net, urls, key)))
  }

  /** This client has one retrieve request open, at the given node. */
  ghost predicate OneTask(nodes: Nodes, url: string, task: Node.Task) {
    && url in nodes && ME !in nodes[url].store.pending
    && ME in nodes[url].tasks && nodes[url].tasks[ME] == task
    && forall u | u in nodes && u != url :: Idle(nodes[u])
  }

  lemma InterfereKeepsIdle(sv: Services, env: Env, net: Net)
    requires ForeignEnv(env) && SoundRings(sv, net.nodes)
    ensures AllIdle(net.nodes) ==> AllIdle(Interfere(sv, env, net).nodes)
    ensures forall url, task | OneTask(net.nodes, url, task) :: OneTask(Interfere(sv, env, net).nodes, url, task)
  {
    hide Interfere, KeyRing.Inv;
    InterfereKeeps(sv, env, net);
    assert forall u | u in net.nodes :: SameMine(net.nodes[u], Interfere(sv, env, net).nodes[u]);
  }

  /** After the gates, either the request is over and brought no share, or it is open. */
  lemma AfterGate(sv: Services, env: Env, net: Net, url: string, req: RetrieveRequest)
    requires ForeignEnv(env) && SoundRings(sv, net.nodes) && AllIdle(net.nodes)
    ensures var gated := Act(sv, env, net, url, Gating(env, net, req));
      && (url !in net.nodes ==> gated.reply == None && AllIdle(gated.net.nodes))
      && (gated.reply.Some? ==> RetrieveReplyOf(gated.reply, Delivered) == None && AllIdle(gated.net.nodes))
      && (gated.reply == None && url in net.nodes ==> OneTask(gated.net.nodes, url, Node.Cleared(req)))
  {
    hide Interfere, SoundRings, VerifySorobanTx, HexDecode, SimulationVerdict;
    InterfereKeepsIdle(sv, env, net);
  }

  /** After the read, either the request is over and brought no share, or it holds the record. */
  lemma AfterLoad(sv: Services, env: Env, net: Net, url: string, req: RetrieveRequest)
    requires ForeignEnv(env) && SoundRings(sv, net.nodes) && OneTask(net.nodes, url, Node.Cleared(req))
    ensures var loaded := Act(sv, env, net, url, Loading(env, net));
      var key := ShareStore.StoreKey(req.contractID, req.objectID);
      && (loaded.reply.Some? ==> RetrieveReplyOf(loaded.reply, Delivered) == None && AllIdle(loaded.net.nodes))
      && (loaded.reply == None ==>
            && ShareStore.Exists(loaded.net.nodes[url].store.bucket, key)
            && OneTask(loaded.net.nodes, url, Node.Loaded(req, loaded.net.nodes[url].store.bucket[key])))
  {
    hide Interfere, SoundRings, HexDecode;
    InterfereKeepsIdle(sv, env, net);
    assert OneTask(Interfere(sv, env, net).nodes, url, Node.Cleared(req));
  }

  /** After the decryption the request is over, answered with what the record opens to. */
  lemma AfterDecrypt(sv: Services, env: Env, net: Net, url: string, req: RetrieveRequest, record: ShareStore.Record)
    requires ForeignEnv(env) && SoundRings(sv, net.nodes) && OneTask(net.nodes, url, Node.Loaded(req, record))
    ensures var decrypted := Act(sv, env, net, url, Node.Decrypt(ME));
      && AllIdle(decrypted.net.nodes)
      && decrypted.reply == Some(Node.RetrieveAnswer(
           Open(sv.suite, Interfere(sv, env, net).nodes[url].ring.ring.nodePriv, record)))
  {
    hide Interfere, SoundRings, Open;
    InterfereKeepsIdle(sv, env, net);
    assert OneTask(Interfere(sv, env, net).nodes, url, Node.Loaded(req, record));
  }

  /** A private key opens the record to the share, or does not open it. */
  ghost predicate OpensAtMost(s: Suite, priv: PrivKey, r: ShareStore.Record, share: Bytes) {
    var d := DecryptShare(s, priv, r.ephemeralPub, r.ciphertext.GetOr([]), r.nonce);
    d.Opened? ==> d.share == share
  }

  /** While one retrieve request goes through its steps, the node asked may lose its record or change its key, but
      whatever record it reads, the key it has by the decryption opens that to the share, or not at all. */
  ghost predicate TameRetrieval(sv: Services, env: Env, net: Net, url: string, req: RetrieveRequest, share: Bytes) {
    env.fault(net.tick) != RequestLost && url in net.nodes ==>
      var gated := Act(sv, env, net, url, Gating(env, net, req));
      gated.reply == None ==>
        var loaded := Act(sv, env, gated.net, url, Loading(env, gated.net));
        var stored := loaded.net.nodes[url].store.bucket;
        var key := ShareStore.StoreKey(req.contractID, req.objectID);
        loaded.reply == None && ShareStore.Exists(stored, key) ==>
          OpensAtMost(sv.suite, Interfere(sv, env, loaded.net).nodes[url].ring.ring.nodePriv, stored[key], share)
  }

  /** If a tame retrieve request brings something back, it is the share. */
  lemma RetrievalBringsShare(sv: Services, env: Env, net: Net, url: string, req: RetrieveRequest, share: Bytes)
    requires ForeignEnv(env) && SoundRings(sv, net.nodes) && AllIdle(net.nodes)
    requires TameRetrieval(sv, env, net, url, req, share)
    ensures var a := PostRetrieve(sv, env, net, url, req);
      && SoundRings(sv, a.net.nodes) && AllIdle(a.net.nodes)
      && (a.result.Some? ==> a.result.value == share)
  {
    hide Act, Interfere, SoundRings, AllIdle, DecryptShare, HexEncode, HexDecode, OneTask;
    InterfereKeeps(sv, env, net);
    InterfereKeepsIdle(sv, env, net);
    AfterGate(sv, env, net, url, req);
    var gated := Act(sv, env, net, url, Gating(env, net, req));
    ActKeeps(sv, env, net, url, Gating(env, net, req));
    if env.fault(net.tick) != RequestLost && gated.reply == None && url in net.nodes {
      AfterLoad(sv, env, gated.net, url, req);
      ActKeeps(sv, env, gated.net, url, Loading(env, gated.net));
      var loaded := Act(sv, env, gated.net, url, Loading(env, gated.net));
      if loaded.reply == None {
        var key := ShareStore.StoreKey(req.contractID, req.objectID);
        AfterDecrypt(sv, env, loaded.net, url, req, loaded.net.nodes[url].store.bucket[key]);
        ActKeeps(sv, env, loaded.net, url, Node.Decrypt(ME));
        HexRoundTrip(share);
      }
    }
  }

  /** A retrieve request on a calm network leaves the shares in place. */
  lemma CalmRetrievalKeepsHeld(sv: Services, env: Env, net: Net, urls: seq<string>, shares: seq<Bytes>, key: string,
      j: nat, req: RetrieveRequest)
    requires ForeignEnv(env) && SoundRings(sv, net.nodes) && AllIdle(net.nodes)
    requires Held(sv, net.nodes, urls, shares, key) && j < |urls|
    requires key == ShareStore.StoreKey(req.contractID, req.objectID)
    requires CalmRetrieval(sv, env, net, urls[j], req, urls, key)
    ensures var a := PostRetrieve(sv, env, net, urls[j], req);
      SoundRings(sv, a.net.nodes) && AllIdle(a.net.nodes) && Held(sv, a.net.nodes, urls, shares, key)
  {
    hide Act, Interfere, Calm, SoundRings, AllIdle, Held, OneTask;
    var url := urls[j];
    CalmKeepsHeld(sv, env, net, urls, shares, key);
    InterfereKeeps(sv, env, net);
    InterfereKeepsIdle(sv, env, net);
    HeldHas(sv, net.nodes, urls, shares, key, j);
    if env.fault(net.tick) != RequestLost {
      var gated := Act(sv, env, net, url, Gating(env, net, req));
      AfterGate(sv, env, net, url, req);
      ActKeeps(sv, env, net, url, Gating(env, net, req));
      ActKeepsHeld(sv, env, net, url, Gating(env, net, req), urls, shares, key);
      if gated.reply == None {
        var loaded := Act(sv, env, gated.net, url, Loading(env, gated.net));
        AfterLoad(sv, env, gated.net, url, req);
        ActKeeps(sv, env, gated.net, url, Loading(env, gated.net));
        ActKeepsHeld(sv, env, gated.net, url, Loading(env, gated.net), urls, shares, key);
        if loaded.reply == None {
          AfterDecrypt(sv, env, loaded.net, url, req, loaded.net.nodes[url].store.bucket[key]);
          ActKeeps(sv, env, loaded.net, url, Node.Decrypt(ME));
          ActKeepsHeld(sv, env, loaded.net, url, Node.Decrypt(ME), urls, shares, key);
        }
      }
    }
  }

  /** And it is tame. */
  lemma CalmRetrievalIsTame(sv: Services, env: Env, net: Net, urls: seq<string>, shares: seq<Bytes>, key: string,
      j: nat, req: RetrieveRequest)
    requires ForeignEnv(env) && SoundRings(sv, net.nodes) && AllIdle(net.nodes)
    requires Held(sv, net.nodes, urls, shares, key) && j < |urls|
    requires key == ShareStore.StoreKey(req.contractID, req.objectID)
    requires CalmRetrieval(sv, env, net, urls[j], req, urls, key)
    ensures TameRetrieval(sv, env, net, urls[j], req, shares[j])
  {
    hide Act, Interfere, SoundRings, AllIdle, Held, OpensAtMost;
    var url := urls[j];
    assert url in urls;
    if env.fault(net.tick) != RequestLost && url in net.nodes {
      var gated := Act(sv, env, net, url, Gating(env, net, req));
      ActKeepsHeld(sv, env, net, url, Gating(env, net, req), urls, shares, key);
      if gated.reply == None {
        var loaded := Act(sv, env, gated.net, url, Loading(env, gated.net));
        ActKeepsHeld(sv, env, gated.net, url, Loading(env, gated.net), urls, shares, key);
        if loaded.reply == None {
          CalmKeepsHeld(sv, env, loaded.net, urls, shares, key);
          HeldOpens(sv, Interfere(sv, env, loaded.net).nodes, urls, shares, key, j);
        }
      }
    }
  }

  lemma HeldOpens(sv: Services, nodes: Nodes, urls: seq<string>, shares: seq<Bytes>, key: string, j: nat)
    requires Held(sv, nodes, urls, shares, key) && j < |urls|
    ensures urls[j] in nodes && key in nodes[urls[j]].store.bucket
    ensures OpensAtMost(sv.suite, nodes[urls[j]].ring.ring.nodePriv, nodes[urls[j]].store.bucket[key], shares[j])
  {
    hide DecryptShare;
    assert Node.HoldsShare(sv, nodes[urls[j]], key, shares[j]);
  }

  lemma DecryptionBringsShare(sv: Services, env: Env, net: Net, urls: seq<string>, shares: seq<Bytes>, key: string,
      j: nat, req: RetrieveRequest)
    requires ForeignEnv(env) && SoundRings(sv, net.nodes)
    requires Held(sv, net.nodes, urls, shares, key) && j < |urls| && Calm(sv, env, net, urls, key)
    requires ShareStore.Exists(net.nodes[urls[j]].store.bucket, key)
    requires OneTask(net.nodes, urls[j], Node.Loaded(req, net.nodes[urls[j]].store.bucket[key]))
    ensures var decrypted := Act(sv, env, net, urls[j], Node.Decrypt(ME));
      && SoundRings(sv, decrypted.net.nodes) && AllIdle(decrypted.net.nodes)
      && Held(sv, decrypted.net.nodes, urls, shares, key)
      && forall f :: RetrieveReplyOf(decrypted.reply, f) == if f == Delivered then Some(shares[j]) else None
  {
    hide Act, Interfere, SoundRings, DecryptShare, HexEncode, HexDecode;
    var url := urls[j];
    AfterDecrypt(sv, env, net, url, req, net.nodes[url].store.bucket[key]);
    ActKeeps(sv, env, net, url, Node.Decrypt(ME));
    ActKeepsHeld(sv, env, net, url, Node.Decrypt(ME), urls, shares, key);
    assert url in urls;
    assert SameShare(net.nodes[url], Interfere(sv, env, net).nodes[url], key);
    assert Node.HoldsShare(sv, net.nodes[url], key, shares[j]);
    HexRoundTrip(shares[j]);
  }

  // ---- collection ----

  /** What every node would answer if all were asked in turn. */
  ghost function Answers(sv: Services, env: Env, net: Net, urls: seq<string>, req: RetrieveRequest)
    : (r: seq<Option<Bytes>>)
    decreases |urls|
  {
    if urls == [] then []
    else
      var a := PostRetrieve(sv, env, net, urls[0], req);
      [a.result] + Answers(sv, env, a.net, urls[1..], req)
  }

  function CountSome(answers: seq<Option<Bytes>>): (n: nat) {
    if answers == [] then 0 else (if answers[0].Some? then 1 else 0) + CountSome(answers[1..])
  }

  /** The first k successes. */
  function FirstSome(answers: seq<Option<Bytes>>, k: int): (r: seq<Bytes>)
    ensures |r| == if k <= 0 then 0 else if k <= CountSome(answers) then k else CountSome(answers)
    decreases |answers|
  {
    if answers == [] || k <= 0 then []
    else match answers[0]
      case Some(share) => [share] + FirstSome(answers[1..], k - 1)
      case None => FirstSome(answers[1..], k)
  }

  lemma FirstSomeCons(x: Option<Bytes>, rest: seq<Option<Bytes>>, k: int)
    requires k > 0
    ensures FirstSome([x] + rest, k)
      == match x case Some(share) => [share] + FirstSome(rest, k - 1) case None => FirstSome(rest, k)
  {
    assert ([x] + rest)[1..] == rest;
  }

  /** One turn of the collection loop. */
  lemma CollectCons(sv: Services, env: Env, net: Net, urls: seq<string>, req: RetrieveRequest, needed: int,
      got: seq<Bytes>)
    requires urls != [] && |got| < needed
    ensures var a := PostRetrieve(sv, env, net, urls[0], req);
      Collect(sv, env, net, urls, req, needed, got)
        == Collect(sv, env, a.net, urls[1..], req, needed, if a.result.Some? then got + [a.result.value] else got)
  {
    hide PostRetrieve;
  }

  lemma AnswersCons(sv: Services, env: Env, net: Net, urls: seq<string>, req: RetrieveRequest)
    requires urls != []
    ensures var a := PostRetrieve(sv, env, net, urls[0], req);
      Answers(sv, env, net, urls, req) == [a.result] + Answers(sv, env, a.net, urls[1..], req)
  {
    hide PostRetrieve;
  }

  /** The collection loop picks the first successes of asking everybody, and stops there. */
  lemma {:induction false} CollectIsFirst(sv: Services, env: Env, net: Net, urls: seq<string>, req: RetrieveRequest,
      needed: int, got: seq<Bytes>)
    ensures Collect(sv, env, net, urls, req, needed, got).shares
      == got + FirstSome(Answers(sv, env, net, urls, req), needed - |got|)
    decreases |urls|
  {
    hide PostRetrieve;
    if urls == [] || |got| >= needed {
      assert got + [] == got;
    } else {
      AnswersCons(sv, env, net, urls, req);
      hide Collect, FirstSome, Answers;
      var a := PostRetrieve(sv, env, net, urls[0], req);
      var rest := Answers(sv, env, a.net, urls[1..], req);
      CollectCons(sv, env, net, urls, req, needed, got);
      FirstSomeCons(a.result, rest, needed - |got|);
      if a.result.Some? {
        var share := a.result.value;
        CollectIsFirst(sv, env, a.net, urls[1..], req, needed, got + [share]);
        var more := FirstSome(rest, needed - |got| - 1);
        assert got + [share] + more == got + ([share] + more);
      } else {
        CollectIsFirst(sv, env, a.net, urls[1..], req, needed, got);
      }
    }
  }

  /** The positions, from the given one on, of the first k that answered. */
  ghost function Answering(answers: seq<Option<Bytes>>, k: int, from: nat): (pos: seq<nat>)
    ensures |pos| == if k <= 0 then 0 else if k <= CountSome(answers) then k else CountSome(answers)
    ensures forall m | 0 <= m < |pos| :: from <= pos[m] < from + |answers|
    ensures Distinct(pos)
    decreases |answers|
  {
    if answers == [] || k <= 0 then []
    else if answers[0].Some? then [from] + Answering(answers[1..], k - 1, from + 1)
    else Answering(answers[1..], k, from + 1)
  }

  /** The items at the given positions, in their order. */
  ghost function Select<T>(items: seq<T>, pos: seq<nat>): (r: seq<T>)
    requires forall m | 0 <= m < |pos| :: pos[m] < |items|
  {
    seq(|pos|, m requires 0 <= m < |pos| => items[pos[m]])
  }

  lemma SelectCons<T>(items: seq<T>, first: nat, rest: seq<nat>)
    requires first < |items| && forall m | 0 <= m < |rest| :: rest[m] < |items|
    ensures Select(items, [first] + rest) == [items[first]] + Select(items, rest)
  {}

  /** The others are tame while the loop asks from the j-th node on, as long as it still needs shares. */
  ghost predicate TameCollection(sv: Services, env: Env, net: Net, urls: seq<string>, shares: seq<Bytes>, j: nat,
      req: RetrieveRequest, missing: int)
    requires j <= |urls| <= |shares|
    decreases |urls| - j
  {
    j == |urls| || missing <= 0 ||
      (TameRetrieval(sv, env, net, urls[j], req, shares[j]) &&
       var a := PostRetrieve(sv, env, net, urls[j], req);
       TameCollection(sv, env, a.net, urls, shares, j + 1, req, if a.result.Some? then missing - 1 else missing))
  }

  ghost function AnswersFrom(sv: Services, env: Env, net: Net, urls: seq<string>, j: nat, req: RetrieveRequest)
    : (r: seq<Option<Bytes>>)
    requires j <= |urls|
    ensures |r| == |urls| - j
  {
    AnswersLength(sv, env, net, urls[j..], req);
    Answers(sv, env, net, urls[j..], req)
  }

  lemma {:induction false} AnswersLength(sv: Services, env: Env, net: Net, urls: seq<string>, req: RetrieveRequest)
    ensures |Answers(sv, env, net, urls, req)| == |urls|
    decreases |urls|
  {
    hide PostRetrieve;
    if urls != [] {
      AnswersLength(sv, env, PostRetrieve(sv, env, net, urls[0], req).net, urls[1..], req);
    }
  }

  lemma AnswersFromCons(sv: Services, env: Env, net: Net, urls: seq<string>, j: nat, req: RetrieveRequest)
    requires j < |urls|
    ensures var a := PostRetrieve(sv, env, net, urls[j], req);
      AnswersFrom(sv, env, net, urls, j, req) == [a.result] + AnswersFrom(sv, env, a.net, urls, j + 1, req)
  {
    hide PostRetrieve;
    assert urls[j..][0] == urls[j] && urls[j..][1..] == urls[j + 1..];
  }

  /** The first answers are the shares of the nodes they came from. */
  lemma {:induction false} CollectedAreShares(sv: Services, env: Env, net: Net, urls: seq<string>, shares: seq<Bytes>,
      j: nat, req: RetrieveRequest, missing: int)
    requires ForeignEnv(env) && SoundRings(sv, net.nodes) && AllIdle(net.nodes) && j <= |urls| <= |shares|
    requires TameCollection(sv, env, net, urls, shares, j, req, missing)
    ensures var answers := AnswersFrom(sv, env, net, urls, j, req);
      FirstSome(answers, missing) == Select(shares, Answering(answers, missing, j))
    decreases |urls| - j
  {
    hide PostRetrieve, SoundRings, AllIdle, TameRetrieval, AnswersFrom;
    if j < |urls| && missing > 0 {
      var a := PostRetrieve(sv, env, net, urls[j], req);
      RetrievalBringsShare(sv, env, net, urls[j], req, shares[j]);
      AnswersFromCons(sv, env, net, urls, j, req);
      var rest := AnswersFrom(sv, env, a.net, urls, j + 1, req);
      var answers := AnswersFrom(sv, env, net, urls, j, req);
      assert answers[1..] == rest;
      if a.result.Some? {
        CollectedAreShares(sv, env, a.net, urls, shares, j + 1, req, missing - 1);
        SelectCons(shares, j, Answering(rest, missing - 1, j + 1));
      } else {
        CollectedAreShares(sv, env, a.net, urls, shares, j + 1, req, missing);
      }
    }
  }

  // ---- end to end ----

  /** The parameters with which an encryption gets as far as distributing shares. */
  ghost predicate Distributes(file: Bytes, contractID: string, nodesList: string, n: int, t: int, rand: Randomness) {
    && |rand.key| == 32 && ValidNonce(rand.fileNonce) && RandomOk(rand)
    && |file| <= MAX_PLAINTEXT && 2 <= t <= n <= 255 && n <= |SplitCommas(nodesList)|
    && contractID != "" && nodesList != ""
  }

  /** The shares an encryption makes, and the job of placing them, once it gets that far. */
  ghost function JobOf(sv: Services, file: Bytes, contractID: string, nodesList: string, n: int, t: int,
      rand: Randomness): (job: Job)
    requires sv.suite.Lawful() && Distributes(file, contractID, nodesList, n, t, rand)
    ensures |job.urls| == |job.shares| == n
  {
    EncryptJob(sv, contractID, SplitCommas(nodesList)[..n], sv.suite.seal(rand.key, rand.fileNonce, file),
      sv.suite.split(rand.key, n, t, rand.poly).value, rand)
  }

  lemma EncryptDistributes(sv: Services, env: Env, net: Net, file: Bytes, contractID: string, nodesList: string,
      n: int, t: int, rand: Randomness)
    requires sv.suite.Lawful() && |rand.key| == 32 && ValidNonce(rand.fileNonce) && RandomOk(rand)
    ensures var e := Encrypt(sv, env, net, file, contractID, nodesList, n, t, rand);
      && (e.metadata.Some? ==> Distributes(file, contractID, nodesList, n, t, rand))
      && (Distributes(file, contractID, nodesList, n, t, rand) ==>
            var job := JobOf(sv, file, contractID, nodesList, n, t, rand);
            && JobOk(job)
            && e.net == Distribute(sv, env, net, job, 0).net
            && e.file == Some(rand.fileNonce + sv.suite.seal(rand.key, rand.fileNonce, file))
            && (e.metadata.Some? <==> Distribute(sv, env, net, job, 0).ok)
            && (e.metadata.Some? ==>
                  e.metadata.value == Metadata(job.objectID, contractID, t, SplitCommas(nodesList)[..n])))
  {
    hide Distribute, SplitCommas, HexEncode;
  }

  /** The network before an encryption: reachable rings, none of our requests open. */
  ghost predicate Ready(sv: Services, env: Env, net: Net) {
    ForeignEnv(env) && SoundRings(sv, net.nodes) && AllIdle(net.nodes)
  }

  lemma EmptyPlaced(sv: Services, net: Net, job: Job)
    requires SoundRings(sv, net.nodes) && AllIdle(net.nodes)
    ensures Placed(sv, net.nodes, job, 0)
  {
    hide SoundRings, AllIdle;
    assert job.urls[..0] == [];
  }

  lemma PlacingLeavesIdle(sv: Services, env: Env, net: Net, job: Job, i: nat)
    requires ForeignEnv(env) && SoundRings(sv, net.nodes) && AllIdle(net.nodes)
    requires i < |job.urls| && i < |job.shares| && PlaceShare(sv, env, net, job, i).ok
    ensures var after := PlaceShare(sv, env, net, job, i).net.nodes; SoundRings(sv, after) && AllIdle(after)
  {
    hide FetchKey, PostStore, SoundRings, AllIdle, EciesEncrypt, ShareStore.ReadRequest, Act, Interfere;
    var url := job.urls[i];
    var fetched := FetchKey(sv, env, net, url);
    FetchLeavesIdle(sv, env, net, url);
    var e := EciesEncrypt(sv.suite, fetched.result.value, job.shares[i], job.rand.ephemeral(i), job.rand.nonce(i));
    StoreSaves(sv, env, fetched.net, url, StoreBody(job, e.value));
  }

  lemma DistributeCons(sv: Services, env: Env, net: Net, job: Job, i: nat)
    requires i < |job.urls| <= |job.shares|
    ensures var placed := PlaceShare(sv, env, net, job, i);
      Distribute(sv, env, net, job, i) == if placed.ok then Distribute(sv, env, placed.net, job, i + 1) else placed
  {
    hide PlaceShare;
  }

  /** Whatever happens, a distribution that succeeds leaves no request of ours open. */
  lemma {:induction false} DistributionLeavesIdle(sv: Services, env: Env, net: Net, job: Job, i: nat)
    requires ForeignEnv(env) && SoundRings(sv, net.nodes) && AllIdle(net.nodes) && i <= |job.urls| <= |job.shares|
    requires Distribute(sv, env, net, job, i).ok
    ensures var after := Distribute(sv, env, net, job, i).net.nodes; SoundRings(sv, after) && AllIdle(after)
    decreases |job.urls| - i
  {
    hide PlaceShare, SoundRings, AllIdle, ForeignEnv;
    if i < |job.urls| {
      DistributeCons(sv, env, net, job, i);
      hide Distribute;
      PlacingLeavesIdle(sv, env, net, job, i);
      DistributionLeavesIdle(sv, env, PlaceShare(sv, env, net, job, i).net, job, i + 1);
    }
  }

  lemma FetchLeavesIdle(sv: Services, env: Env, net: Net, url: string)
    requires ForeignEnv(env) && SoundRings(sv, net.nodes) && AllIdle(net.nodes)
    ensures var f := FetchKey(sv, env, net, url);
      && SoundRings(sv, f.net.nodes) && AllIdle(f.net.nodes) && f.net.tick == net.tick + 1
      && (f.result.Some? ==> url in f.net.nodes)
  {
    hide RunOthers, SoundRings, HexDecode, HexEncode;
    InterfereKeeps(sv, env, net);
    InterfereKeepsIdle(sv, env, net);
    ActKeeps(sv, env, net, url, Node.Fetch);
  }

  /** Success implies share holders: metadata is written only when every listed node holds the share it was sent
      last. A node can be listed again only if the check of that visit failed to read, so otherwise n different
      nodes hold a share each, every one its own. */
  lemma MetadataMeansHolders(sv: Services, env: Env, net: Net, file: Bytes, contractID: string, nodesList: string,
      n: int, t: int, rand: Randomness)
    requires sv.suite.Lawful() && Ready(sv, env, net)
    requires Distributes(file, contractID, nodesList, n, t, rand)
    requires CalmDistribution(sv, env, net, JobOf(sv, file, contractID, nodesList, n, t, rand), 0)
    requires Encrypt(sv, env, net, file, contractID, nodesList, n, t, rand).metadata.Some?
    ensures var job := JobOf(sv, file, contractID, nodesList, n, t, rand);
      var after := Encrypt(sv, env, net, file, contractID, nodesList, n, t, rand).net;
      && SoundRings(sv, after.nodes) && AllIdle(after.nodes)
      && Held(sv, after.nodes, job.urls, Standing(job.urls, job.shares), JobKey(job))
      && (forall i | 0 <= i < n && Again(job.urls, i) :: CheckFails(env, net.tick, i))
      && (Distinct(job.urls) ==> Held(sv, after.nodes, job.urls, job.shares, JobKey(job)))
  {
    hide Distribute, Encrypt, SoundRings, AllIdle, CalmDistribution, JobOf, Standing, CheckFails, DecryptShare;
    var job := JobOf(sv, file, contractID, nodesList, n, t, rand);
    EncryptDistributes(sv, env, net, file, contractID, nodesList, n, t, rand);
    EmptyPlaced(sv, net, job);
    DistributionPlacesAll(sv, env, net, job, 0, net.tick);
    assert job.urls[..|job.urls|] == job.urls;
    if Distinct(job.urls) {
      StandingOfDistinct(job.urls, job.shares);
    }
  }

  /** So listing one node twice, in whichever positions, ends without metadata, unless the check of the second
      visit failed to read. */
  lemma DuplicateNodeNeedsFailedCheck(sv: Services, env: Env, net: Net, file: Bytes, contractID: string,
      nodesList: string, n: int, t: int, rand: Randomness, i: nat, j: nat)
    requires sv.suite.Lawful() && Ready(sv, env, net)
    requires Distributes(file, contractID, nodesList, n, t, rand)
    requires CalmDistribution(sv, env, net, JobOf(sv, file, contractID, nodesList, n, t, rand), 0)
    requires i < j < n && TrimSpace(SplitCommas(nodesList)[i]) == TrimSpace(SplitCommas(nodesList)[j])
    ensures Encrypt(sv, env, net, file, contractID, nodesList, n, t, rand).metadata.Some? ==>
      CheckFails(env, net.tick, j)
  {
    hide Distribute, Encrypt, SoundRings, AllIdle, Held, CalmDistribution, CheckFails;
    var job := JobOf(sv, file, contractID, nodesList, n, t, rand);
    assert job.urls[..j][i] == job.urls[i] == job.urls[j];
    if Encrypt(sv, env, net, file, contractID, nodesList, n, t, rand).metadata.Some? {
      MetadataMeansHolders(sv, env, net, file, contractID, nodesList, n, t, rand);
    }
  }

  /** What a visit to a node that already holds one of the shares is answered with: the conflict if the check can
      read, and otherwise whatever comes of the save. */
  lemma SecondVisit(sv: Services, env: Env, net: Net, url: string, req: ShareStore.StoreRequest,
      urls: seq<string>, shares: seq<Bytes>, key: string)
    requires ForeignEnv(env) && SoundRings(sv, net.nodes) && AllIdle(net.nodes)
    requires Held(sv, net.nodes, urls, shares, key) && url in urls && Calm(sv, env, net, urls, key)
    requires ShareStore.ReadRequest(req).Some? && req.overwrite == "" && key == ShareStore.RequestKey(req)
    requires env.fault(net.tick) == Delivered
    ensures PostStore(sv, env, net, url, req).result == Some(
      if env.loadOk(net.tick) then ShareStore.Conflict
      else if env.saveOk(net.tick + 1) then ShareStore.Stored else ShareStore.InternalError)
  {
    hide RunOthers, SoundRings, DecryptShare, ShareStore.ReadRequest, Calm, Held;
    CalmKeepsHeld(sv, env, net, urls, shares, key);
    InterfereKeepsIdle(sv, env, net);
    EntryKey(req);
    var j :| 0 <= j < |urls| && urls[j] == url;
    HeldHas(sv, Interfere(sv, env, net).nodes, urls, shares, key, j);
    if !env.loadOk(net.tick) {
      var checked := Act(sv, env, net, url, Checking(env, net, req)).net;
      ActKeeps(sv, env, net, url, Checking(env, net, req));
      InterfereKeeps(sv, env, checked);
      assert SameMine(checked.nodes[url], Interfere(sv, env, checked).nodes[url]);
    }
  }

  /** Combining collected shares: enough of them give the file back, if none is there twice. */
  lemma ReconstructFile(s: Suite, file: Bytes, key: Bytes, nonce: Bytes, n: int, t: int, poly: nat, pos: seq<nat>)
    requires s.Lawful() && |key| == 32 && ValidNonce(nonce) && |file| <= MAX_PLAINTEXT && 2 <= t <= n <= 255
    requires forall m | 0 <= m < |pos| :: pos[m] < n
    ensures s.split(key, n, t, poly).Some? && |s.split(key, n, t, poly).value| == n
    ensures Reconstruct(s, nonce + s.seal(key, nonce, file), Select(s.split(key, n, t, poly).value, pos), t)
      == if |pos| < t then NotEnoughShares(|pos|) else if Distinct(pos) then Recovered(file) else CombineFailed
  {
    var data := nonce + s.seal(key, nonce, file);
    var parts := Select(s.split(key, n, t, poly).value, pos);
    assert data[..NONCE_SIZE] == nonce && data[NONCE_SIZE..] == s.seal(key, nonce, file);
    if Distinct(pos) {
      assert parts == Pick(s.split(key, n, t, poly).value, pos);
    } else {
      var i, j :| 0 <= i < j < |pos| && pos[i] == pos[j];
      assert parts[i] == parts[j];
    }
  }

  /** What comes of a decryption when the nodes would answer like this: the number of answers if there are too few,
      and otherwise the file, unless among the first t that answer there is a node twice. */
  ghost function Expected(file: Bytes, urls: seq<string>, answers: seq<Option<Bytes>>, t: int): (r: Decrypted)
    requires |answers| == |urls|
  {
    if CountSome(answers) < t then NotEnoughShares(CountSome(answers))
    else if Distinct(Select(urls, Answering(answers, t, 0))) then Recovered(file)
    else CombineFailed
  }

  lemma ExpectedOfDistinct(file: Bytes, urls: seq<string>, answers: seq<Option<Bytes>>, t: int)
    requires |answers| == |urls| && Distinct(urls)
    ensures Expected(file, urls, answers, t)
      == if CountSome(answers) >= t then Recovered(file) else NotEnoughShares(CountSome(answers))
  {
    var pos := Answering(answers, t, 0);
    assert forall i, j | 0 <= i < j < |pos| :: pos[i] != pos[j] && urls[pos[i]] != urls[pos[j]];
  }

  /** Positions stand for different shares exactly when they name different nodes. */
  lemma StandingSelected(urls: seq<string>, shares: seq<Bytes>, pos: seq<nat>) returns (last: seq<nat>)
    requires |urls| <= |shares| && forall m | 0 <= m < |pos| :: pos[m] < |urls|
    ensures |last| == |pos| && forall m | 0 <= m < |last| :: last[m] < |urls|
    ensures Select(Standing(urls, shares), pos) == Select(shares, last)
    ensures Distinct(last) <==> Distinct(Select(urls, pos))
  {
    last := seq(|pos|, m requires 0 <= m < |pos| => LastVisit(urls, pos[m]));
    var names := Select(urls, pos);
    forall i, j | 0 <= i < j < |pos| ensures last[i] == last[j] <==> names[i] == names[j] {
      assert urls[last[i]] == urls[pos[i]] && urls[last[j]] == urls[pos[j]];
    }
    assert |names| == |last|;
  }

  /** What is made of the first answers when they are the shares of their nodes. */
  lemma OutcomeIsExpected(s: Suite, file: Bytes, key: Bytes, nonce: Bytes, n: int, t: int, poly: nat,
      urls: seq<string>, answers: seq<Option<Bytes>>)
    requires s.Lawful() && |key| == 32 && ValidNonce(nonce) && |file| <= MAX_PLAINTEXT && 2 <= t <= n <= 255
    requires |answers| == |urls| == n && s.split(key, n, t, poly).Some? && |s.split(key, n, t, poly).value| == n
    requires FirstSome(answers, t)
      == Select(Standing(urls, s.split(key, n, t, poly).value), Answering(answers, t, 0))
    ensures Reconstruct(s, nonce + s.seal(key, nonce, file), FirstSome(answers, t), t)
      == Expected(file, urls, answers, t)
  {
    hide Standing, Select, Reconstruct;
    var last := StandingSelected(urls, s.split(key, n, t, poly).value, Answering(answers, t, 0));
    ReconstructFile(s, file, key, nonce, n, t, poly, last);
  }

  /** End-to-end recovery. After an encryption that reached the metadata, decryption returns exactly the original
      file when at least t of the n nodes answer with success, and reports the number of answers otherwise, for
      every pattern of lost messages, refusals, database failures, purges and rotations: all that is asked of the
      others is that no asked node reads anything but its share out of the record it finds. If a node is listed
      twice and among the first t that answer, combining fails. */
  lemma ThresholdRecovery(sv: Services, env: Env, net: Net, file: Bytes, contractID: string, nodesList: string,
      n: int, t: int, rand: Randomness, who: Accessor)
    requires sv.suite.Lawful() && Ready(sv, env, net)
    requires Distributes(file, contractID, nodesList, n, t, rand)
    requires var e := Encrypt(sv, env, net, file, contractID, nodesList, n, t, rand);
      e.metadata.Some? && who.address.Some? && MakeRequest(sv, e.metadata.value, who).Some?
    requires var e := Encrypt(sv, env, net, file, contractID, nodesList, n, t, rand);
      var job := JobOf(sv, file, contractID, nodesList, n, t, rand);
      TameCollection(sv, env, e.net, job.urls, Standing(job.urls, job.shares), 0,
        MakeRequest(sv, e.metadata.value, who).value, t)
    ensures var e := Encrypt(sv, env, net, file, contractID, nodesList, n, t, rand);
      var job := JobOf(sv, file, contractID, nodesList, n, t, rand);
      var answers := AnswersFrom(sv, env, e.net, job.urls, 0, MakeRequest(sv, e.metadata.value, who).value);
      && e.file.Some?
      && Decrypt(sv, env, e.net, e.file.value, e.metadata.value, who).outcome == Expected(file, job.urls, answers, t)
      && (Distinct(job.urls) ==>
            Expected(file, job.urls, answers, t)
              == if CountSome(answers) >= t then Recovered(file) else NotEnoughShares(CountSome(answers)))
  {
    hide Expected, FirstSome, Answering, Distribute, Encrypt, SoundRings, AllIdle, TameCollection, Collect, Answers,
      SplitCommas, Standing, Select, TrimSpace, HexEncode, BuildApproveTransaction, Reconstruct;
    var job := JobOf(sv, file, contractID, nodesList, n, t, rand);
    var e := Encrypt(sv, env, net, file, contractID, nodesList, n, t, rand);
    var meta := e.metadata.value;
    var req := MakeRequest(sv, meta, who).value;
    EncryptDistributes(sv, env, net, file, contractID, nodesList, n, t, rand);
    DistributionLeavesIdle(sv, env, net, job, 0);
    assert job.urls[0..] == job.urls;
    var answers := AnswersFrom(sv, env, e.net, job.urls, 0, req);
    CollectedAreShares(sv, env, e.net, job.urls, Standing(job.urls, job.shares), 0, req, t);
    CollectIsFirst(sv, env, e.net, job.urls, req, t, []);
    assert [] + FirstSome(answers, t) == FirstSome(answers, t);
    OutcomeIsExpected(sv.suite, file, rand.key, rand.fileNonce, n, t, rand.poly, job.urls, answers);
    assert TrimAll(meta.nodes) == job.urls;
    if Distinct(job.urls) {
      ExpectedOfDistinct(file, job.urls, answers, t);
    }
  }

  /** The others stay calm while the loop asks from the j-th node on, as long as it still needs shares. */
  ghost predicate CalmCollection(sv: Services, env: Env, net: Net, urls: seq<string>, j: nat, req: RetrieveRequest,
      key: string, missing: int)
    requires j <= |urls|
    decreases |urls| - j
  {
    j == |urls| || missing <= 0 ||
      (CalmRetrieval(sv, env, net, urls[j], req, urls, key) &&
       var a := PostRetrieve(sv, env, net, urls[j], req);
       CalmCollection(sv, env, a.net, urls, j + 1, req, key, if a.result.Some? then missing - 1 else missing))
  }

  lemma {:induction false} CalmCollectionIsTame(sv: Services, env: Env, net: Net, urls: seq<string>,
      shares: seq<Bytes>, j: nat, req: RetrieveRequest, key: string, missing: int)
    requires ForeignEnv(env) && SoundRings(sv, net.nodes) && AllIdle(net.nodes) && j <= |urls| <= |shares|
    requires Held(sv, net.nodes, urls, shares, key) && key == ShareStore.StoreKey(req.contractID, req.objectID)
    requires CalmCollection(sv, env, net, urls, j, req, key, missing)
    ensures TameCollection(sv, env, net, urls, shares, j, req, missing)
    decreases |urls| - j
  {
    hide PostRetrieve, CalmRetrieval, CalmCollection, TameRetrieval, TameCollection, SoundRings, AllIdle, Held,
      ForeignEnv;
    TameCollectionFrom(sv, env, net, urls, shares, j, req, missing);
    if j < |urls| && missing > 0 {
      CalmCollectionGoesOn(sv, env, net, urls, j, req, key, missing);
      var a := PostRetrieve(sv, env, net, urls[j], req);
      CalmRetrievalKeepsHeld(sv, env, net, urls, shares, key, j, req);
      CalmRetrievalIsTame(sv, env, net, urls, shares, key, j, req);
      CalmCollectionIsTame(sv, env, a.net, urls, shares, j + 1, req, key,
        if a.result.Some? then missing - 1 else missing);
    }
  }

  lemma TameCollectionFrom(sv: Services, env: Env, net: Net, urls: seq<string>, shares: seq<Bytes>, j: nat,
      req: RetrieveRequest, missing: int)
    requires j <= |urls| <= |shares|
    ensures j == |urls| || missing <= 0 ==> TameCollection(sv, env, net, urls, shares, j, req, missing)
    ensures j < |urls| && TameRetrieval(sv, env, net, urls[j], req, shares[j]) ==>
      var a := PostRetrieve(sv, env, net, urls[j], req);
      var missing' := if a.result.Some? then missing - 1 else missing;
      TameCollection(sv, env, a.net, urls, shares, j + 1, req, missing') ==>
        TameCollection(sv, env, net, urls, shares, j, req, missing)
  {
    hide PostRetrieve, TameRetrieval;
  }

  lemma CalmCollectionFrom(sv: Services, env: Env, net: Net, urls: seq<string>, j: nat, req: RetrieveRequest,
      key: string, missing: int)
    requires j <= |urls|
    ensures j == |urls| || missing <= 0 ==> CalmCollection(sv, env, net, urls, j, req, key, missing)
    ensures j < |urls| && CalmRetrieval(sv, env, net, urls[j], req, urls, key) ==>
      var a := PostRetrieve(sv, env, net, urls[j], req);
      var missing' := if a.result.Some? then missing - 1 else missing;
      CalmCollection(sv, env, a.net, urls, j + 1, req, key, missing') ==>
        CalmCollection(sv, env, net, urls, j, req, key, missing)
  {
    hide PostRetrieve, CalmRetrieval;
  }

  lemma CalmCollectionGoesOn(sv: Services, env: Env, net: Net, urls: seq<string>, j: nat, req: RetrieveRequest,
      key: string, missing: int)
    requires j < |urls| && missing > 0 && CalmCollection(sv, env, net, urls, j, req, key, missing)
    ensures var a := PostRetrieve(sv, env, net, urls[j], req);
      && CalmRetrieval(sv, env, net, urls[j], req, urls, key)
      && CalmCollection(sv, env, a.net, urls, j + 1, req, key, if a.result.Some? then missing - 1 else missing)
  {
    hide PostRetrieve, CalmRetrieval;
  }

  /** In particular the file is recovered when, from each key fetch on, nobody rotates a metadata node or overwrites
      or purges its share. */
  lemma RecoveryWhenCalm(sv: Services, env: Env, net: Net, file: Bytes, contractID: string, nodesList: string,
      n: int, t: int, rand: Randomness, who: Accessor)
    requires sv.suite.Lawful() && Ready(sv, env, net)
    requires Distributes(file, contractID, nodesList, n, t, rand)
    requires CalmDistribution(sv, env, net, JobOf(sv, file, contractID, nodesList, n, t, rand), 0)
    requires var e := Encrypt(sv, env, net, file, contractID, nodesList, n, t, rand);
      e.metadata.Some? && who.address.Some? && MakeRequest(sv, e.metadata.value, who).Some?
    requires var e := Encrypt(sv, env, net, file, contractID, nodesList, n, t, rand);
      var job := JobOf(sv, file, contractID, nodesList, n, t, rand);
      CalmCollection(sv, env, e.net, job.urls, 0, MakeRequest(sv, e.metadata.value, who).value, JobKey(job), t)
    ensures var e := Encrypt(sv, env, net, file, contractID, nodesList, n, t, rand);
      var job := JobOf(sv, file, contractID, nodesList, n, t, rand);
      var answers := AnswersFrom(sv, env, e.net, job.urls, 0, MakeRequest(sv, e.metadata.value, who).value);
      && e.file.Some?
      && Decrypt(sv, env, e.net, e.file.value, e.metadata.value, who).outcome == Expected(file, job.urls, answers, t)
  {
    hide Distribute, Encrypt, Decrypt, SoundRings, AllIdle, Held, CalmDistribution, CalmCollection, TameCollection,
      JobOf, Distributes, Standing, Expected, AnswersFrom, MakeRequest;
    var job := JobOf(sv, file, contractID, nodesList, n, t, rand);
    var e := Encrypt(sv, env, net, file, contractID, nodesList, n, t, rand);
    MetadataMeansHolders(sv, env, net, file, contractID, nodesList, n, t, rand);
    RequestNamesJob(sv, env, net, file, contractID, nodesList, n, t, rand, who);
    CalmCollectionIsTame(sv, env, e.net, job.urls, Standing(job.urls, job.shares), 0,
      MakeRequest(sv, e.metadata.value, who).value, JobKey(job), t);
    ThresholdRecovery(sv, env, net, file, contractID, nodesList, n, t, rand, who);
  }

  /** The caller's request asks for what the encryption stored. */
  lemma RequestNamesJob(sv: Services, env: Env, net: Net, file: Bytes, contractID: string, nodesList: string,
      n: int, t: int, rand: Randomness, who: Accessor)
    requires sv.suite.Lawful() && Distributes(file, contractID, nodesList, n, t, rand)
    requires var e := Encrypt(sv, env, net, file, contractID, nodesList, n, t, rand);
      e.metadata.Some? && who.address.Some? && MakeRequest(sv, e.metadata.value, who).Some?
    ensures var e := Encrypt(sv, env, net, file, contractID, nodesList, n, t, rand);
      var req := MakeRequest(sv, e.metadata.value, who).value;
      JobKey(JobOf(sv, file, contractID, nodesList, n, t, rand)) == ShareStore.StoreKey(req.contractID, req.objectID)
  {
    hide Distribute, Encrypt, SplitCommas, HexEncode;
    EncryptDistributes(sv, env, net, file, contractID, nodesList, n, t, rand);
  }
}
