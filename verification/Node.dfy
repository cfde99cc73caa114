/** One node with any number of requests under way: the key ring, the share store and the retrieve requests
    between their gates, their read and their decryption, each advancing one atomic step at a time. */
module Node {
  import opened Basics
  import opened Crypto
  import opened Retrieve
  import opened Transaction
  import KeyRing
  import ShareStore

  /** A retrieve request that passed its gates, and one that has read its record. */
  datatype Task = Cleared(req: RetrieveRequest) | Loaded(req: RetrieveRequest, record: ShareStore.Record)

  datatype Node = Node(ring: KeyRing.State, store: ShareStore.State, tasks: map<Tid, Task>)

  datatype Action =
    | Rotation(rotation: KeyRing.Action)
    | Storing(storing: ShareStore.Action)
    | Fetch
    | Gate(t: Tid, req: RetrieveRequest, quotaOk: bool, answer: Option<RpcResponse>)
    | Load(t: Tid, loadOk: bool)
    | Decrypt(t: Tid)

  datatype Reply =
    | PublicKey(hex: string)
    | StoreAnswer(stored: ShareStore.StoreReply)
    | RetrieveAnswer(retrieved: RetrieveReply)

  datatype Outcome = Outcome(node: Node, reply: Option<Reply>)

  function Step(sv: Services, n: Node, a: Action): (r: Outcome) {
    match a
    case Rotation(rotation) => Outcome(n.(ring := KeyRing.Step(sv.suite, n.ring, rotation)), None)
    case Storing(storing) =>
      var o := ShareStore.Step(n.store, storing);
      Outcome(n.(store := o.state), if o.reply.Some? then Some(StoreAnswer(o.reply.value)) else None)
    case Fetch => Outcome(n, Some(PublicKey(HexEncode(n.ring.ring.nodePub))))
    case Gate(t, req, quotaOk, answer) =>
      if t in n.tasks then Outcome(n, None)
      else (match Gates(sv, req, quotaOk, answer)
        case Some(refused) => Outcome(n, Some(RetrieveAnswer(refused)))
        case None => Outcome(n.(tasks := n.tasks[t := Cleared(req)]), None))
    case Load(t, loadOk) =>
      if t !in n.tasks || !n.tasks[t].Cleared? then Outcome(n, None)
      else
        var req := n.tasks[t].req;
        var key := ShareStore.StoreKey(req.contractID, req.objectID);
        if loadOk && ShareStore.Exists(n.store.bucket, key)
        then Outcome(n.(tasks := n.tasks[t := Loaded(req, n.store.bucket[key])]), None)
        else Outcome(n.(tasks := n.tasks - {t}), Some(RetrieveAnswer(NotFound)))
    case Decrypt(t) =>
      if t !in n.tasks || !n.tasks[t].Loaded? then Outcome(n, None)
      else Outcome(n.(tasks := n.tasks - {t}),
                   Some(RetrieveAnswer(Open(sv.suite, n.ring.ring.nodePriv, n.tasks[t].record))))
  }

  /** A retrieve request that is not interrupted gets what the handler returns. */
  lemma AtomicRetrieve(sv: Services, n: Node, t: Tid, req: RetrieveRequest, quotaOk: bool, answer: Option<RpcResponse>,
      loadOk: bool)
    requires t !in n.tasks
    ensures var gated := Step(sv, n, Gate(t, req, quotaOk, answer));
      var loaded := Step(sv, gated.node, Load(t, loadOk));
      var opened_ := Step(sv, loaded.node, Decrypt(t));
      var reply := match Gates(sv, req, quotaOk, answer)
        case Some(refused) => refused
        case None => Serve(sv.suite, n.ring.ring.nodePriv, n.store.bucket, loadOk, req);
      && opened_.node == n
      && Some(RetrieveAnswer(reply)) ==
           if gated.reply.Some? then gated.reply else if loaded.reply.Some? then loaded.reply else opened_.reply
  {
    hide Gates, Open;
    if Gates(sv, req, quotaOk, answer).None? {
      var gated := Step(sv, n, Gate(t, req, quotaOk, answer)).node;
      var loaded := Step(sv, gated, Load(t, loadOk)).node;
      assert gated.tasks - {t} == n.tasks;
      assert loaded.tasks - {t} == n.tasks;
    }
  }

  function Run(sv: Services, n: Node, acts: seq<Action>): (n': Node)
    decreases |acts|
  {
    if acts == [] then n else Run(sv, Step(sv, n, acts[0]).node, acts[1..])
  }

  /** Nothing but rotation touches the ring. */
  lemma {:induction false} RunKeepsRingInv(sv: Services, n: Node, acts: seq<Action>)
    requires KeyRing.Inv(sv.suite, n.ring)
    ensures KeyRing.Inv(sv.suite, Run(sv, n, acts).ring)
    decreases |acts|
  {
    if acts != [] {
      hide KeyRing.Inv;
      if acts[0].Rotation? {
        KeyRing.StepKeepsInv(sv.suite, n.ring, acts[0].rotation);
      }
      RunKeepsRingInv(sv, Step(sv, n, acts[0]).node, acts[1..]);
    }
  }

  ghost function Start(sv: Services, key: PrivKey, now: int): (n: Node) {
    Node(KeyRing.Init(sv.suite, key, now), ShareStore.State(map[], map[]), map[])
  }

  /** The record a node makes of what a client sent. */
  function RecordOf(e: Sealed): (r: ShareStore.Record) {
    ShareStore.Record(e.ephemeralPub, Some(e.ciphertext), e.nonce)
  }

  /** The record under the key is what a client sent for the v-th published public key. */
  ghost predicate SealedFor(sv: Services, n: Node, key: string, v: nat, share: Bytes, ephemeral: PrivKey, nonce: Bytes)
  {
    && v < |n.ring.history| && key in n.store.bucket
    && var e := EciesEncrypt(sv.suite, sv.suite.pub(n.ring.history[v]), share, ephemeral, nonce);
       e.Some? && n.store.bucket[key] == RecordOf(e.value)
  }

  /** Over all interleavings of fetches, rotations, stores, purges and retrieves, no stored share is out of
      reach of the ring: what was sealed under the v-th public key the node ever published, GetKey(v) opens. */
  lemma StoredSharesStayRecoverable(sv: Services, key0: PrivKey, now: int, acts: seq<Action>,
      key: string, v: nat, share: Bytes, ephemeral: PrivKey, nonce: Bytes)
    requires sv.suite.Lawful() && ValidNonce(nonce) && |share| <= MAX_PLAINTEXT
    requires |Run(sv, Start(sv, key0, now), acts).ring.history| <= U64
    requires SealedFor(sv, Run(sv, Start(sv, key0, now), acts), key, v, share, ephemeral, nonce)
    ensures var n := Run(sv, Start(sv, key0, now), acts);
      && v <= n.ring.ring.current && v in n.ring.ring.keys
      && Open(sv.suite, n.ring.ring.keys[v], n.store.bucket[key]) == Share(HexEncode(share))
  {
    hide DecryptShare, EciesEncrypt, Run, HexEncode;
    KeyRing.InitInv(sv.suite, key0, now);
    RunKeepsRingInv(sv, Start(sv, key0, now), acts);
    EciesRoundTrip(sv.suite, Run(sv, Start(sv, key0, now), acts).ring.history[v], share, ephemeral, nonce);
  }

  /** Every answer to a fetch, even in the middle of a publication, is the public half of a published key. */
  lemma FetchAnswersPublishedKey(sv: Services, key0: PrivKey, now: int, acts: seq<Action>) returns (v: nat)
    ensures var n := Run(sv, Start(sv, key0, now), acts);
      v < |n.ring.history| && Step(sv, n, Fetch).reply == Some(PublicKey(HexEncode(sv.suite.pub(n.ring.history[v]))))
  {
    hide Run, HexEncode;
    KeyRing.InitInv(sv.suite, key0, now);
    RunKeepsRingInv(sv, Start(sv, key0, now), acts);
    v := KeyRing.OfferedVersion(Run(sv, Start(sv, key0, now), acts).ring);
  }

  /** The service condition for a request that has passed its gates and read its record: with distinct keys
      and a cipher that opens for the addressee only, the answer is the original share exactly when the
      version it was sealed for is the active one at the moment of decryption. */
  lemma AnsweredExactlyByActiveVersion(sv: Services, n: Node, t: Tid, v: nat, share: Bytes, ephemeral: PrivKey,
      nonce: Bytes)
    requires sv.suite.Lawful() && ValidNonce(nonce) && |share| <= MAX_PLAINTEXT
    requires KeyRing.Inv(sv.suite, n.ring) && Distinct(n.ring.history) && v < |n.ring.history|
    requires EciesEncrypt(sv.suite, sv.suite.pub(n.ring.history[v]), share, ephemeral, nonce).Some?
    requires var e := EciesEncrypt(sv.suite, sv.suite.pub(n.ring.history[v]), share, ephemeral, nonce).value;
      && t in n.tasks && n.tasks[t].Loaded? && n.tasks[t].record == RecordOf(e)
      && IdealFor(sv.suite, n.ring.history, n.ring.history[v], e)
    ensures Step(sv, n, Decrypt(t)).reply == Some(RetrieveAnswer(Share(HexEncode(share))))
      <==> v == KeyRing.ActiveVersion(n.ring)
  {
    hide DecryptShare, EciesEncrypt, HexEncode, HexDecode;
    var w := KeyRing.ActiveVersion(n.ring);
    KeyRing.OnlyOneVersionOpens(sv.suite, n.ring.history, v, w, share, ephemeral, nonce);
    var r := n.tasks[t].record;
    var d := DecryptShare(sv.suite, n.ring.ring.nodePriv, r.ephemeralPub, r.ciphertext.GetOr([]), r.nonce);
    HexRoundTrip(share);
    if d.Opened? {
      HexRoundTrip(d.share);
    }
  }

  /** The node can read the share it stores under the key with the private key it has now. */
  ghost predicate HoldsShare(sv: Services, n: Node, key: string, share: Bytes) {
    && ShareStore.Exists(n.store.bucket, key)
    && var r := n.store.bucket[key];
       DecryptShare(sv.suite, n.ring.ring.nodePriv, r.ephemeralPub, r.ciphertext.value, r.nonce) == Opened(share)
  }

  lemma {:induction false} RunOneMore(sv: Services, n: Node, acts: seq<Action>)
    requires acts != []
    ensures var k := |acts| - 1; Run(sv, n, acts) == Step(sv, Run(sv, n, acts[..k]), acts[k]).node
    decreases |acts|
  {
    hide Step;
    if |acts| > 1 {
      RunOneMore(sv, Step(sv, n, acts[0]).node, acts[1..]);
      assert acts[1..][..|acts| - 2] == acts[..|acts| - 1][1..];
    }
  }

  /** Every request past its gates got an answer of its simulation that approves: without an RPC or execution error,
      with results, and with none that failed. */
  lemma {:induction false} TasksWereApproved(sv: Services, n: Node, acts: seq<Action>, t: Tid) returns (j: nat)
    requires t !in n.tasks && t in Run(sv, n, acts).tasks
    ensures j < |acts| && acts[j].Gate? && acts[j].t == t && acts[j].req == Run(sv, n, acts).tasks[t].req
    ensures acts[j].answer.Some?
    ensures var answer := acts[j].answer.value;
      && !answer.rpcError && answer.resultError == "" && answer.resultErrors != []
      && forall i | 0 <= i < |answer.resultErrors| :: answer.resultErrors[i] == ""
    decreases |acts|
  {
    hide Gates, Open, KeyRing.Step, ShareStore.Step;
    var k := |acts| - 1;
    var before := Run(sv, n, acts[..k]);
    RunOneMore(sv, n, acts);
    if t in before.tasks {
      hide Run;
      j := TasksWereApproved(sv, n, acts[..k], t);
    } else {
      j := k;
      SimulationDecides(sv, acts[k].req, acts[k].quotaOk, acts[k].answer);
    }
  }

  /** No interleaving releases a share for a request whose simulation got no such answer. */
  lemma ReleasedNeedsApproval(sv: Services, n: Node, acts: seq<Action>, t: Tid, hex: string) returns (j: nat)
    requires n.tasks == map[]
    requires Step(sv, Run(sv, n, acts), Decrypt(t)).reply == Some(RetrieveAnswer(Share(hex)))
    ensures j < |acts| && acts[j].Gate? && acts[j].t == t
    ensures t in Run(sv, n, acts).tasks && acts[j].req == Run(sv, n, acts).tasks[t].req
    ensures acts[j].answer.Some?
    ensures var answer := acts[j].answer.value;
      && !answer.rpcError && answer.resultError == "" && answer.resultErrors != []
      && forall i | 0 <= i < |answer.resultErrors| :: answer.resultErrors[i] == ""
  {
    hide Run;
    j := TasksWereApproved(sv, n, acts, t);
  }
}
