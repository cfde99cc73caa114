/** Exactly when an encryption reaches its metadata, and that decryption brings the file back when nothing is in the
    way, whatever the others do with other objects meanwhile. */
module Availability {
  import opened Basics
  import opened Crypto
  import opened Client
  import opened OtherObjects
  import opened Recovery
  import opened Retrieve
  import opened Transaction
  import KeyRing
  import Node
  import Allowlist
  import Grants
  import ShareStore

  /** The others stick to other objects, and no request of ours is open. */
  ghost predicate SteadyStart(sv: Services, env: Env, net: Net, urls: seq<string>, key: string) {
    InnocentEnv(env, urls, key) && SoundRings(sv, net.nodes) && AllIdle(net.nodes) && QuietNodes(net.nodes, urls, key)
  }

  lemma InnocentIsForeign(env: Env, urls: seq<string>, key: string)
    requires InnocentEnv(env, urls, key)
    ensures ForeignEnv(env)
  {}

  lemma SteadyInterfere(sv: Services, env: Env, net: Net, urls: seq<string>, key: string)
    requires SteadyStart(sv, env, net, urls, key)
    ensures SteadyStart(sv, env, Interfere(sv, env, net), urls, key)
    ensures forall u | u in urls && u in net.nodes ::
      SameShare(net.nodes[u], Interfere(sv, env, net).nodes[u], key)
  {
    hide Interfere, SoundRings, AllIdle, QuietNodes, SameShare;
    InnocentIsCalm(sv, env, net, urls, urls, key);
    InterfereKeepsIdle(sv, env, net);
  }

  /** A node that is there answers the fetch with its current public key, unless a message gets lost. */
  lemma FetchOutcome(sv: Services, env: Env, net: Net, url: string, urls: seq<string>, key: string)
    requires SteadyStart(sv, env, net, urls, key) && url in urls
    ensures var f := FetchKey(sv, env, net, url);
      && f.net == Interfere(sv, env, net)
      && (f.result.Some? <==> url in net.nodes && env.fault(net.tick) == Delivered)
      && (f.result.Some? ==> f.result.value == sv.suite.pub(f.net.nodes[url].ring.ring.nodePriv))
  {
    hide Interfere, HexEncode, HexDecode, KeyRing.Inv, AllIdle, InnocentEnv;
    SteadyInterfere(sv, env, net, urls, key);
    var n := Interfere(sv, env, net);
    if url in n.nodes {
      assert n.nodes[url := n.nodes[url]] == n.nodes;
      assert Quiet(n.nodes[url], key);
      PublicHalf(sv.suite, n.nodes[url].ring);
      HexRoundTrip(n.nodes[url].ring.ring.nodePub);
    }
  }

  /** A request body with nothing missing is well-formed. */
  lemma BodyIsRead(job: Job, e: Sealed)
    requires job.contractID != "" && job.objectID != "" && e.ephemeralPub != [] && e.ciphertext != [] && e.nonce != []
    ensures ShareStore.ReadRequest(StoreBody(job, e)).Some?
  {
    hide HexEncode, HexDecode;
    HexRoundTrip(e.ephemeralPub);
    HexRoundTrip(e.ciphertext);
    HexRoundTrip(e.nonce);
  }

  /** The check refuses a well-formed request exactly when it reads and finds something. */
  lemma CheckOutcome(sv: Services, env: Env, net: Net, url: string, req: ShareStore.StoreRequest, urls: seq<string>,
      key: string)
    requires SteadyStart(sv, env, net, urls, key) && url in urls && url in net.nodes && req.overwrite == ""
    requires ShareStore.ReadRequest(req).Some? && ShareStore.RequestKey(req) == key
    ensures var c := Act(sv, env, net, url, Checking(env, net, req));
      var found := env.loadOk(net.tick) && ShareStore.Exists(net.nodes[url].store.bucket, key);
      && c.reply == (if found then Some(Node.StoreAnswer(ShareStore.Conflict)) else None)
      && SoundRings(sv, c.net.nodes) && c.net.tick == net.tick + 1
      && (!found ==> url in c.net.nodes && ME in c.net.nodes[url].store.pending)
  {
    hide RunOthers, SoundRings, QuietNodes, InnocentEnv, HexDecode, KeyRing.Inv;
    InnocentIsForeign(env, urls, key);
    SteadyInterfere(sv, env, net, urls, key);
    assert SameShare(net.nodes[url], Interfere(sv, env, net).nodes[url], key);
    assert Idle(Interfere(sv, env, net).nodes[url]);
    EntryKey(req);
    ActKeeps(sv, env, net, url, Checking(env, net, req));
  }

  /** The save is answered with how the transaction went. */
  lemma SaveOutcome(sv: Services, env: Env, net: Net, url: string)
    requires ForeignEnv(env) && SoundRings(sv, net.nodes) && url in net.nodes && ME in net.nodes[url].store.pending
    ensures Act(sv, env, net, url, Saving(env, net)).reply
      == Some(Node.StoreAnswer(if env.saveOk(net.tick) then ShareStore.Stored else ShareStore.InternalError))
  {
    hide Interfere, KeyRing.Inv;
    InterfereKeeps(sv, env, net);
    assert SameMine(net.nodes[url], Interfere(sv, env, net).nodes[url]);
  }

  lemma StoreOutcome(sv: Services, env: Env, net: Net, url: string, req: ShareStore.StoreRequest, urls: seq<string>,
      key: string)
    requires SteadyStart(sv, env, net, urls, key) && url in urls && url in net.nodes && req.overwrite == ""
    requires ShareStore.ReadRequest(req).Some? && ShareStore.RequestKey(req) == key
    ensures PostStore(sv, env, net, url, req).result == Some(ShareStore.Stored) <==>
      && env.fault(net.tick) == Delivered && env.saveOk(net.tick + 1)
      && !(env.loadOk(net.tick) && ShareStore.Exists(net.nodes[url].store.bucket, key))
  {
    hide Act, Interfere, ShareStore.ReadRequest, SoundRings, AllIdle, QuietNodes;
    InnocentIsForeign(env, urls, key);
    CheckOutcome(sv, env, net, url, req, urls, key);
    var checked := Act(sv, env, net, url, Checking(env, net, req));
    if checked.reply == None {
      SaveOutcome(sv, env, checked.net, url);
    }
  }

  /** A step at one node and the others before it leave what the other listed nodes hold. */
  lemma StepElsewhere(sv: Services, env: Env, net: Net, url: string, a: Node.Action, urls: seq<string>, key: string,
      u: string)
    requires InnocentEnv(env, urls, key) && SoundRings(sv, net.nodes) && QuietNodes(net.nodes, urls, key)
    requires u in urls && u in net.nodes && u != url
    ensures SameShare(net.nodes[u], Act(sv, env, net, url, a).net.nodes[u], key)
  {
    hide Interfere, SoundRings, QuietNodes, InnocentEnv, Node.Step, SameShare;
    InnocentIsCalm(sv, env, net, urls, urls, key);
  }

  lemma FetchElsewhere(sv: Services, env: Env, net: Net, url: string, urls: seq<string>, key: string, u: string)
    requires InnocentEnv(env, urls, key) && SoundRings(sv, net.nodes) && QuietNodes(net.nodes, urls, key)
    requires u in urls && u in net.nodes && u != url
    ensures var after := FetchKey(sv, env, net, url).net.nodes;
      u in after && SameShare(net.nodes[u], after[u], key) && SoundRings(sv, after) && QuietNodes(after, urls, key)
  {
    hide Act, Interfere, SoundRings, QuietNodes, InnocentEnv, SameShare, HexDecode;
    InnocentIsCalm(sv, env, net, urls, urls, key);
    StepElsewhere(sv, env, net, url, Node.Fetch, urls, key, u);
    ActKeepsQuiet(sv, env, net, url, Node.Fetch, urls, key);
  }

  /** Placing one share leaves what the other listed nodes hold. */
  lemma PlacingElsewhere(sv: Services, env: Env, net: Net, job: Job, i: nat, u: string)
    requires i < |job.urls| && i < |job.shares| && InnocentEnv(env, job.urls, JobKey(job))
    requires SoundRings(sv, net.nodes) && QuietNodes(net.nodes, job.urls, JobKey(job))
    requires u in job.urls && u in net.nodes && u != job.urls[i]
    ensures PlaceShare(sv, env, net, job, i).net.nodes.Keys == net.nodes.Keys
    ensures SameShare(net.nodes[u], PlaceShare(sv, env, net, job, i).net.nodes[u], JobKey(job))
  {
    hide FetchKey, PostStore, SoundRings, QuietNodes, InnocentEnv, EciesEncrypt, SameShare;
    var url, key := job.urls[i], JobKey(job);
    PlacingKeepsNodes(sv, env, net, job, i);
    FetchElsewhere(sv, env, net, url, job.urls, key, u);
    var fetched := FetchKey(sv, env, net, url);
    if fetched.result.Some? {
      var e := EciesEncrypt(sv.suite, fetched.result.value, job.shares[i], job.rand.ephemeral(i), job.rand.nonce(i));
      if e.Some? {
        StoringElsewhere(sv, env, fetched.net, url, StoreBody(job, e.value), job.urls, key, u);
        SameShareTransitive(net.nodes[u], fetched.net.nodes[u],
          PostStore(sv, env, fetched.net, url, StoreBody(job, e.value)).net.nodes[u], key);
      }
    }
  }

  lemma StoringElsewhere(sv: Services, env: Env, net: Net, url: string, req: ShareStore.StoreRequest, urls: seq<string>,
      key: string, u: string)
    requires InnocentEnv(env, urls, key) && SoundRings(sv, net.nodes) && QuietNodes(net.nodes, urls, key)
    requires u in urls && u in net.nodes && u != url
    ensures SameShare(net.nodes[u], PostStore(sv, env, net, url, req).net.nodes[u], key)
  {
    hide Act, Interfere, SoundRings, QuietNodes, InnocentEnv, SameShare;
    InnocentIsCalm(sv, env, net, urls, urls, key);
    StepElsewhere(sv, env, net, url, Checking(env, net, req), urls, key, u);
    ActKeepsQuiet(sv, env, net, url, Checking(env, net, req), urls, key);
    var checked := Act(sv, env, net, url, Checking(env, net, req)).net;
    StepElsewhere(sv, env, checked, url, Saving(env, checked), urls, key, u);
    SameShareTransitive(net.nodes[u], checked.nodes[u], Act(sv, env, checked, url, Saving(env, checked)).net.nodes[u],
      key);
  }

  // ---- when the metadata is written ----

  /** All goes well with the i-th visit of a distribution that started at this moment: the node is there, no message
      gets lost, the save works, and the check finds nothing, which is so of a node that held something at the start
      or was visited before only if the check fails to read. */
  ghost predicate VisitWorks(env: Env, nodes: Nodes, urls: seq<string>, key: string, start: nat, i: nat)
    requires i < |urls|
  {
    && urls[i] in nodes && env.fault(start + 3 * i) == Delivered && env.fault(start + 3 * i + 1) == Delivered
    && env.saveOk(start + 3 * i + 2)
    && (Again(urls, i) || ShareStore.Exists(nodes[urls[i]].store.bucket, key) ==> CheckFails(env, start, i))
  }

  /** After i visits the nodes visited hold something under the key, and those that held something at the start. */
  ghost predicate Filled(nodes: Nodes, start: Nodes, urls: seq<string>, key: string, i: nat)
    requires i <= |urls|
  {
    && nodes.Keys == start.Keys
    && forall u | u in urls && u in nodes ::
         var before := u in urls[..i] || ShareStore.Exists(start[u].store.bucket, key);
         ShareStore.Exists(nodes[u].store.bucket, key) <==> before
  }

  ghost predicate SoundJob(sv: Services, job: Job) {
    sv.suite.Lawful() && JobOk(job) && job.contractID != "" && job.objectID != ""
  }

  /** What the client seals for the fetched key, and the well-formed body it makes of it. */
  lemma SealedBody(sv: Services, job: Job, i: nat, priv: PrivKey)
    requires SoundJob(sv, job) && i < |job.shares|
    ensures var e := EciesEncrypt(sv.suite, sv.suite.pub(priv), job.shares[i], job.rand.ephemeral(i),
        job.rand.nonce(i));
      && e.Some? && ShareStore.ReadRequest(StoreBody(job, e.value)).Some?
      && StoreBody(job, e.value).overwrite == "" && ShareStore.RequestKey(StoreBody(job, e.value)) == JobKey(job)
  {
    hide DecryptShare, EciesEncrypt, ShareStore.ReadRequest;
    EciesRoundTrip(sv.suite, priv, job.shares[i], job.rand.ephemeral(i), job.rand.nonce(i));
    var e := EciesEncrypt(sv.suite, sv.suite.pub(priv), job.shares[i], job.rand.ephemeral(i), job.rand.nonce(i)).value;
    SealedIsNotEmpty(sv.suite, priv, job.shares[i], job.rand.ephemeral(i), job.rand.nonce(i));
    BodyIsRead(job, e);
  }

  /** One turn of the distribution loop succeeds exactly when the visit works. */
  lemma PlacingExactlyWhen(sv: Services, env: Env, net: Net, job: Job, i: nat, nodes: Nodes, start: nat)
    requires SoundJob(sv, job) && i < |job.urls| <= |job.shares| && net.tick == start + 3 * i
    requires SteadyStart(sv, env, net, job.urls, JobKey(job)) && Filled(net.nodes, nodes, job.urls, JobKey(job), i)
    ensures PlaceShare(sv, env, net, job, i).ok <==> VisitWorks(env, nodes, job.urls, JobKey(job), start, i)
  {
    hide RunOthers, FetchKey, PostStore, EciesEncrypt, ShareStore.ReadRequest, SoundRings, AllIdle, InnocentEnv,
      QuietNodes, SoundJob;
    var url, key := job.urls[i], JobKey(job);
    FetchOutcome(sv, env, net, url, job.urls, key);
    var fetched := FetchKey(sv, env, net, url);
    if fetched.result.Some? {
      SteadyInterfere(sv, env, net, job.urls, key);
      assert SameShare(net.nodes[url], fetched.net.nodes[url], key);
      var priv := fetched.net.nodes[url].ring.ring.nodePriv;
      SealedBody(sv, job, i, priv);
      var e := EciesEncrypt(sv.suite, sv.suite.pub(priv), job.shares[i], job.rand.ephemeral(i), job.rand.nonce(i));
      StoreOutcome(sv, env, fetched.net, url, StoreBody(job, e.value), job.urls, key);
    }
  }

  /** And then its node holds something under the key. */
  lemma PlacingFills(sv: Services, env: Env, net: Net, job: Job, i: nat, nodes: Nodes)
    requires SoundJob(sv, job) && i < |job.urls| <= |job.shares|
    requires SteadyStart(sv, env, net, job.urls, JobKey(job)) && Filled(net.nodes, nodes, job.urls, JobKey(job), i)
    requires PlaceShare(sv, env, net, job, i).ok
    ensures var after := PlaceShare(sv, env, net, job, i).net;
      && SteadyStart(sv, env, after, job.urls, JobKey(job)) && Filled(after.nodes, nodes, job.urls, JobKey(job), i + 1)
      && after.tick == net.tick + 3
  {
    hide Interfere, FetchKey, PostStore, EciesEncrypt, ShareStore.ReadRequest, SoundRings, AllIdle, InnocentEnv,
      QuietNodes, SoundJob, Filled;
    var url, key := job.urls[i], JobKey(job);
    InnocentIsForeign(env, job.urls, key);
    FetchLeavesIdle(sv, env, net, url);
    FetchOutcome(sv, env, net, url, job.urls, key);
    var fetched := FetchKey(sv, env, net, url);
    var priv := fetched.net.nodes[url].ring.ring.nodePriv;
    SealedBody(sv, job, i, priv);
    var e := EciesEncrypt(sv.suite, sv.suite.pub(priv), job.shares[i], job.rand.ephemeral(i), job.rand.nonce(i));
    StoreSaves(sv, env, fetched.net, url, StoreBody(job, e.value));
    PlacingStaysCalm(sv, env, net, job, i);
    RecordIsThere(StoreBody(job, e.value));
    FilledByOne(sv, env, net, job, i, nodes);
  }

  lemma RecordIsThere(req: ShareStore.StoreRequest)
    requires ShareStore.ReadRequest(req).Some?
    ensures ShareStore.ReadRequest(req).value.record.ciphertext.Some?
  {
    hide HexDecode;
  }

  lemma FilledByOne(sv: Services, env: Env, net: Net, job: Job, i: nat, nodes: Nodes)
    requires i < |job.urls| && i < |job.shares| && InnocentEnv(env, job.urls, JobKey(job))
    requires SoundRings(sv, net.nodes) && QuietNodes(net.nodes, job.urls, JobKey(job))
    requires Filled(net.nodes, nodes, job.urls, JobKey(job), i)
    requires var after := PlaceShare(sv, env, net, job, i).net.nodes;
      job.urls[i] in after && ShareStore.Exists(after[job.urls[i]].store.bucket, JobKey(job))
    ensures Filled(PlaceShare(sv, env, net, job, i).net.nodes, nodes, job.urls, JobKey(job), i + 1)
  {
    hide PlaceShare, SoundRings, QuietNodes, InnocentEnv;
    var after, urls, key := PlaceShare(sv, env, net, job, i).net.nodes, job.urls, JobKey(job);
    assert urls[..i + 1] == urls[..i] + [urls[i]];
    PlacingKeepsNodes(sv, env, net, job, i);
    forall u | u in urls && u in after
      ensures ShareStore.Exists(after[u].store.bucket, key)
        <==> u in urls[..i + 1] || ShareStore.Exists(nodes[u].store.bucket, key)
    {
      if u != urls[i] {
        PlacingElsewhere(sv, env, net, job, i, u);
      }
    }
  }

  lemma SealedIsNotEmpty(s: Suite, priv: PrivKey, share: Bytes, ephemeral: PrivKey, nonce: Bytes)
    requires s.Lawful() && ValidNonce(nonce) && |share| <= MAX_PLAINTEXT
    requires EciesEncrypt(s, s.pub(priv), share, ephemeral, nonce).Some?
    ensures var e := EciesEncrypt(s, s.pub(priv), share, ephemeral, nonce).value;
      e.ephemeralPub != [] && e.ciphertext != [] && e.nonce != []
  {
    var secret := s.ecdh(ephemeral, s.pub(priv)).value;
    assert s.open(secret, nonce, s.seal(secret, nonce, share)) == Some(share);
  }

  /** The distribution succeeds exactly when every visit works. */
  lemma {:induction false} DistributionExactlyWhen(sv: Services, env: Env, net: Net, job: Job, i: nat, nodes: Nodes,
      start: nat)
    requires SoundJob(sv, job) && i <= |job.urls| <= |job.shares| && net.tick == start + 3 * i
    requires SteadyStart(sv, env, net, job.urls, JobKey(job)) && Filled(net.nodes, nodes, job.urls, JobKey(job), i)
    ensures var d := Distribute(sv, env, net, job, i);
      && (d.ok <==> forall j | i <= j < |job.urls| :: VisitWorks(env, nodes, job.urls, JobKey(job), start, j))
      && (d.ok ==> d.net.tick == start + 3 * |job.urls|)
    decreases |job.urls| - i
  {
    hide PlaceShare, SteadyStart, Filled, VisitWorks, SoundJob;
    if i < |job.urls| {
      PlacingExactlyWhen(sv, env, net, job, i, nodes, start);
      var placed := PlaceShare(sv, env, net, job, i);
      DistributeCons(sv, env, net, job, i);
      hide Distribute;
      if placed.ok {
        PlacingFills(sv, env, net, job, i, nodes);
        DistributionExactlyWhen(sv, env, placed.net, job, i + 1, nodes, start);
      }
    }
  }

  lemma NothingVisited(nodes: Nodes, urls: seq<string>, key: string)
    ensures Filled(nodes, nodes, urls, key, 0)
  {}

  /** An encryption among others who stick to other objects writes its metadata exactly when every visit works. In
      particular a node that is listed twice, or that holds something under the key, stops it, exactly unless the
      write-once check there fails to read. */
  lemma MetadataExactlyWhen(sv: Services, env: Env, net: Net, file: Bytes, contractID: string, nodesList: string,
      n: int, t: int, rand: Randomness)
    requires sv.suite.Lawful() && Distributes(file, contractID, nodesList, n, t, rand)
    requires var job := JobOf(sv, file, contractID, nodesList, n, t, rand);
      SteadyStart(sv, env, net, job.urls, JobKey(job))
    ensures var job := JobOf(sv, file, contractID, nodesList, n, t, rand);
      var e := Encrypt(sv, env, net, file, contractID, nodesList, n, t, rand);
      && (e.metadata.Some? <==>
            forall i | 0 <= i < n :: VisitWorks(env, net.nodes, job.urls, JobKey(job), net.tick, i))
      && (e.metadata.Some? ==> e.net.tick == net.tick + 3 * n)
  {
    hide Distribute, Encrypt, SteadyStart, Filled, VisitWorks, SplitCommas, TrimSpace, HexEncode;
    var job := JobOf(sv, file, contractID, nodesList, n, t, rand);
    EncryptDistributes(sv, env, net, file, contractID, nodesList, n, t, rand);
    NothingVisited(net.nodes, job.urls, JobKey(job));
    DistributionExactlyWhen(sv, env, net, job, 0, net.nodes, net.tick);
  }

  lemma PlacingKeepsNodes(sv: Services, env: Env, net: Net, job: Job, i: nat)
    requires i < |job.urls| && i < |job.shares|
    ensures PlaceShare(sv, env, net, job, i).net.nodes.Keys == net.nodes.Keys
  {
    hide Act, Interfere, EciesEncrypt;
  }

  // ---- retrieval ----

  /** Whenever a node asks, there is quota left and the simulation runs on contracts that allow the caller. */
  ghost predicate GrantedThroughout(sv: Services, env: Env, chain: nat -> map<string, Allowlist.Storage>,
      req: RetrieveRequest)
  {
    forall k :: env.quotaOk(k) && env.answer(k) == Grants.Simulate(sv.codec, chain(k), req.txXDR)
      && req.callerAddress in Grants.StorageOf(chain(k), req.contractID).allowed
  }

  /** The caller's signatures verify under its address. */
  ghost predicate SignsProperly(sv: Services, who: Accessor)
    requires who.address.Some?
  {
    who.address.value != "" &&
    forall message | who.sign(message).Some? :: sv.verify(who.address.value, message, who.sign(message).value)
  }

  /** A request the client makes for a granted caller passes the gates. */
  lemma GrantedIsCleared(sv: Services, env: Env, chain: nat -> map<string, Allowlist.Storage>, meta: Metadata,
      who: Accessor)
    requires sv.codec.Lawful() && who.address.Some? && SignsProperly(sv, who)
    requires meta.objectID != "" && meta.contractID != "" && MakeRequest(sv, meta, who).Some?
    requires GrantedThroughout(sv, env, chain, MakeRequest(sv, meta, who).value)
    ensures AlwaysCleared(sv, env, MakeRequest(sv, meta, who).value)
  {
    hide VerifySorobanTx, HexDecode, HexEncode, BuildApproveTransaction, Grants.Simulate, Grants.NamedAccount;
    var req := MakeRequest(sv, meta, who).value;
    BuiltIsAccepted(sv.codec, meta.contractID, meta.objectID, who.address.value);
    Grants.BuiltNamesCaller(sv.codec, meta.contractID, meta.objectID, who.address.value);
    var message := who.utf8(meta.objectID + "_" + meta.contractID);
    HexRoundTrip(message);
    HexRoundTrip(who.sign(message).value);
    forall k ensures Gates(sv, req, env.quotaOk(k), env.answer(k)).None? {
      assert Gates(sv, req, env.quotaOk(k), Grants.APPROVAL).None?;
      Grants.AllowedNamePasses(sv, chain(k), req, env.quotaOk(k));
    }
  }

  /** The gates let the request through at any moment. */
  ghost predicate AlwaysCleared(sv: Services, env: Env, req: RetrieveRequest) {
    forall k :: Gates(sv, req, env.quotaOk(k), env.answer(k)).None?
  }

  /** From a moment on no message gets lost and every read works. */
  ghost predicate Serves(env: Env, from: nat) {
    forall k: nat | from <= k :: env.fault(k) == Delivered && env.loadOk(k)
  }

  /** A node that holds its share gives it back. */
  lemma RetrievalSucceeds(sv: Services, env: Env, net: Net, urls: seq<string>, shares: seq<Bytes>, key: string,
      j: nat, req: RetrieveRequest)
    requires SteadyStart(sv, env, net, urls, key) && AlwaysCleared(sv, env, req) && Serves(env, net.tick)
    requires Held(sv, net.nodes, urls, shares, key) && j < |urls|
    requires key == ShareStore.StoreKey(req.contractID, req.objectID)
    ensures PostRetrieve(sv, env, net, urls[j], req).result == Some(shares[j])
  {
    hide Act, Interfere, Calm, SoundRings, AllIdle, QuietNodes, Held, DecryptShare, HexEncode, HexDecode;
    var url := urls[j];
    var gated := Act(sv, env, net, url, Gating(env, net, req));
    RetrievalStaysCalm(sv, env, net, url, req, urls, key);
    HeldHas(sv, net.nodes, urls, shares, key, j);
    GateOpens(sv, env, net, url, req);
    AfterGate(sv, env, net, url, req);
    ActKeeps(sv, env, net, url, Gating(env, net, req));
    ActKeepsHeld(sv, env, net, url, Gating(env, net, req), urls, shares, key);
    var loaded := Act(sv, env, gated.net, url, Loading(env, gated.net));
    ActTicks(sv, env, net, url, Gating(env, net, req));
    LoadFinds(sv, env, gated.net, urls, shares, key, j, req);
    AfterLoad(sv, env, gated.net, url, req);
    ActKeeps(sv, env, gated.net, url, Loading(env, gated.net));
    ActKeepsHeld(sv, env, gated.net, url, Loading(env, gated.net), urls, shares, key);
    DecryptionBringsShare(sv, env, loaded.net, urls, shares, key, j, req);
  }

  lemma GateOpens(sv: Services, env: Env, net: Net, url: string, req: RetrieveRequest)
    requires ForeignEnv(env) && SoundRings(sv, net.nodes) && AllIdle(net.nodes) && url in net.nodes
    requires AlwaysCleared(sv, env, req)
    ensures Act(sv, env, net, url, Gating(env, net, req)).reply == None
  {
    hide Interfere, SoundRings, Gates;
    InterfereKeepsIdle(sv, env, net);
    assert Idle(Interfere(sv, env, net).nodes[url]);
  }

  lemma LoadFinds(sv: Services, env: Env, net: Net, urls: seq<string>, shares: seq<Bytes>, key: string, j: nat,
      req: RetrieveRequest)
    requires ForeignEnv(env) && SoundRings(sv, net.nodes) && env.loadOk(net.tick)
    requires Held(sv, net.nodes, urls, shares, key) && Calm(sv, env, net, urls, key) && j < |urls|
    requires key == ShareStore.StoreKey(req.contractID, req.objectID)
    requires OneTask(net.nodes, urls[j], Node.Cleared(req))
    ensures Act(sv, env, net, urls[j], Loading(env, net)).reply == None
  {
    hide Interfere, SoundRings, Calm, Held;
    CalmKeepsHeld(sv, env, net, urls, shares, key);
    HeldHas(sv, Interfere(sv, env, net).nodes, urls, shares, key, j);
    InterfereKeepsIdle(sv, env, net);
    assert OneTask(Interfere(sv, env, net).nodes, urls[j], Node.Cleared(req));
  }

  lemma {:induction false} EverybodyAnswers(sv: Services, env: Env, net: Net, urls: seq<string>, shares: seq<Bytes>,
      key: string, j: nat, req: RetrieveRequest)
    requires SteadyStart(sv, env, net, urls, key) && AlwaysCleared(sv, env, req) && Serves(env, net.tick)
    requires Held(sv, net.nodes, urls, shares, key) && j <= |urls|
    requires key == ShareStore.StoreKey(req.contractID, req.objectID)
    ensures var answers := AnswersFrom(sv, env, net, urls, j, req);
      forall m | 0 <= m < |answers| :: answers[m].Some?
    decreases |urls| - j
  {
    hide PostRetrieve, Held, SteadyStart, AlwaysCleared, AnswersFrom;
    if j < |urls| {
      var a := PostRetrieve(sv, env, net, urls[j], req);
      RetrievalSucceeds(sv, env, net, urls, shares, key, j, req);
      SteadyAfterRetrieval(sv, env, net, urls, shares, key, j, req);
      EverybodyAnswers(sv, env, a.net, urls, shares, key, j + 1, req);
      AnswersFromCons(sv, env, net, urls, j, req);
      var rest := AnswersFrom(sv, env, a.net, urls, j + 1, req);
      assert forall m | 0 < m <= |rest| :: ([a.result] + rest)[m] == rest[m - 1];
    }
  }

  lemma SteadyAfterRetrieval(sv: Services, env: Env, net: Net, urls: seq<string>, shares: seq<Bytes>, key: string,
      j: nat, req: RetrieveRequest)
    requires SteadyStart(sv, env, net, urls, key) && Held(sv, net.nodes, urls, shares, key) && j < |urls|
    requires key == ShareStore.StoreKey(req.contractID, req.objectID)
    ensures var after := PostRetrieve(sv, env, net, urls[j], req).net;
      SteadyStart(sv, env, after, urls, key) && Held(sv, after.nodes, urls, shares, key) && net.tick <= after.tick
  {
    hide PostRetrieve, Held, SoundRings, AllIdle, QuietNodes, CalmRetrieval, InnocentEnv;
    InnocentIsForeign(env, urls, key);
    RetrievalStaysCalm(sv, env, net, urls[j], req, urls, key);
    CalmRetrievalKeepsHeld(sv, env, net, urls, shares, key, j, req);
    RetrievalTicks(sv, env, net, urls[j], req);
  }

  lemma RetrievalTicks(sv: Services, env: Env, net: Net, url: string, req: RetrieveRequest)
    ensures PostRetrieve(sv, env, net, url, req).net.tick >= net.tick
  {
    hide RunOthers, Node.Step;
  }

  /** When everybody answers, the first are the first on the list. */
  lemma {:induction false} AnsweringAll(answers: seq<Option<Bytes>>, k: int, from: nat)
    requires k <= |answers| && forall m | 0 <= m < |answers| :: answers[m].Some?
    ensures CountSome(answers) == |answers|
    ensures k >= 0 ==> |Answering(answers, k, from)| == k
    ensures forall m | 0 <= m < |Answering(answers, k, from)| :: Answering(answers, k, from)[m] == from + m
    decreases |answers|
  {
    if answers != [] {
      AnsweringAll(answers[1..], k - 1, from + 1);
    }
  }

  /** Nothing is in the way of a round trip: the others stick to other objects, every visit of the encryption works,
      from then on all messages arrive and all reads work, and the caller signs properly and is allowed by the
      contract whenever a node asks. */
  ghost predicate Undisturbed(sv: Services, env: Env, net: Net, file: Bytes, contractID: string, nodesList: string,
      n: int, t: int, rand: Randomness, who: Accessor, chain: nat -> map<string, Allowlist.Storage>)
  {
    && sv.suite.Lawful() && sv.codec.Lawful() && Distributes(file, contractID, nodesList, n, t, rand)
    && var job := JobOf(sv, file, contractID, nodesList, n, t, rand);
    && SteadyStart(sv, env, net, job.urls, JobKey(job))
    && (forall i | 0 <= i < n :: VisitWorks(env, net.nodes, job.urls, JobKey(job), net.tick, i))
    && Serves(env, net.tick + 3 * n)
    && who.address.Some? && SignsProperly(sv, who)
    && var req := MakeRequest(sv, Metadata(job.objectID, contractID, t, SplitCommas(nodesList)[..n]), who);
       req.Some? && GrantedThroughout(sv, env, chain, req.value)
  }

  /** Undisturbed, the encryption writes its metadata and leaves each node with the share it was sent last. */
  lemma UndisturbedEncryption(sv: Services, env: Env, net: Net, file: Bytes, contractID: string, nodesList: string,
      n: int, t: int, rand: Randomness, who: Accessor, chain: nat -> map<string, Allowlist.Storage>)
    requires Undisturbed(sv, env, net, file, contractID, nodesList, n, t, rand, who, chain)
    ensures AmidOtherObjects(sv, env, net, file, contractID, nodesList, n, t, rand, who)
    ensures var job := JobOf(sv, file, contractID, nodesList, n, t, rand);
      var e := Encrypt(sv, env, net, file, contractID, nodesList, n, t, rand);
      && e.net.tick == net.tick + 3 * n
      && e.metadata == Some(Metadata(job.objectID, contractID, t, SplitCommas(nodesList)[..n]))
      && SteadyStart(sv, env, e.net, job.urls, JobKey(job))
      && Held(sv, e.net.nodes, job.urls, Standing(job.urls, job.shares), JobKey(job))
  {
    hide Distribute, Encrypt, SoundRings, AllIdle, Held, CalmDistribution, InnocentEnv, QuietNodes, SplitCommas,
      TrimSpace, HexEncode, MakeRequest, JobOk, GrantedThroughout, SignsProperly, VisitWorks, Standing, Serves;
    var job := JobOf(sv, file, contractID, nodesList, n, t, rand);
    EncryptDistributes(sv, env, net, file, contractID, nodesList, n, t, rand);
    InnocentIsForeign(env, job.urls, JobKey(job));
    MetadataExactlyWhen(sv, env, net, file, contractID, nodesList, n, t, rand);
    DistributionStaysCalm(sv, env, net, job, 0);
    MetadataMeansHolders(sv, env, net, file, contractID, nodesList, n, t, rand);
  }

  /** And every node answers the caller. */
  lemma UndisturbedAnswers(sv: Services, env: Env, net: Net, file: Bytes, contractID: string, nodesList: string,
      n: int, t: int, rand: Randomness, who: Accessor, chain: nat -> map<string, Allowlist.Storage>)
    requires Undisturbed(sv, env, net, file, contractID, nodesList, n, t, rand, who, chain)
    ensures var job := JobOf(sv, file, contractID, nodesList, n, t, rand);
      var e := Encrypt(sv, env, net, file, contractID, nodesList, n, t, rand);
      && e.metadata.Some? && MakeRequest(sv, e.metadata.value, who).Some?
      && var answers := AnswersFrom(sv, env, e.net, job.urls, 0, MakeRequest(sv, e.metadata.value, who).value);
         forall m | 0 <= m < |answers| :: answers[m].Some?
  {
    hide Distribute, Encrypt, Held, SteadyStart, AnswersFrom, SplitCommas, TrimSpace, HexEncode, Standing,
      BuildApproveTransaction, AlwaysCleared, GrantedThroughout, SignsProperly, VisitWorks, AmidOtherObjects;
    var job := JobOf(sv, file, contractID, nodesList, n, t, rand);
    UndisturbedEncryption(sv, env, net, file, contractID, nodesList, n, t, rand, who, chain);
    var e := Encrypt(sv, env, net, file, contractID, nodesList, n, t, rand);
    GrantedIsCleared(sv, env, chain, e.metadata.value, who);
    EverybodyAnswers(sv, env, e.net, job.urls, Standing(job.urls, job.shares), JobKey(job), 0,
      MakeRequest(sv, e.metadata.value, who).value);
  }

  /** So the caller gets exactly the file back, unless one of the first t nodes is there twice. Then the same share
      is collected twice and combining fails, although every node answers. */
  lemma UndisturbedRoundTrip(sv: Services, env: Env, net: Net, file: Bytes, contractID: string, nodesList: string,
      n: int, t: int, rand: Randomness, who: Accessor, chain: nat -> map<string, Allowlist.Storage>)
    requires Undisturbed(sv, env, net, file, contractID, nodesList, n, t, rand, who, chain)
    ensures AmidOtherObjects(sv, env, net, file, contractID, nodesList, n, t, rand, who)
    ensures var job := JobOf(sv, file, contractID, nodesList, n, t, rand);
      var e := Encrypt(sv, env, net, file, contractID, nodesList, n, t, rand);
      && e.metadata.Some? && e.file.Some?
      && Decrypt(sv, env, e.net, e.file.value, e.metadata.value, who).outcome
           == if Distinct(job.urls[..t]) then Recovered(file) else CombineFailed
  {
    hide Encrypt, Decrypt, Held, SteadyStart, AnswersFrom, JobOf, SplitCommas, MakeRequest, GrantedThroughout,
      SignsProperly, VisitWorks, AmidOtherObjects, Answering, Serves;
    var job := JobOf(sv, file, contractID, nodesList, n, t, rand);
    UndisturbedEncryption(sv, env, net, file, contractID, nodesList, n, t, rand, who, chain);
    UndisturbedAnswers(sv, env, net, file, contractID, nodesList, n, t, rand, who, chain);
    var e := Encrypt(sv, env, net, file, contractID, nodesList, n, t, rand);
    var answers := AnswersFrom(sv, env, e.net, job.urls, 0, MakeRequest(sv, e.metadata.value, who).value);
    AnsweringAll(answers, t, 0);
    assert Select(job.urls, Answering(answers, t, 0)) == job.urls[..t];
    RecoveryAmidOtherObjects(sv, env, net, file, contractID, nodesList, n, t, rand, who);
  }
}
