/** The client program and the network it talks to. Between any two steps of its requests, the other parties
    do whatever they like at the nodes. */
module Client {
  import opened Basics
  import opened Crypto
  import opened Retrieve
  import opened Transaction
  import Node
  import ShareStore

  /** How the nodes' requests from this client are told from everyone else's. */
  const ME: Tid := 0

  /** A request can be lost before it has any effect, which includes being turned away by the server's
      middleware, or its reply can be lost after it took effect. */
  datatype Fault = Delivered | RequestLost | ReplyLost

  datatype OthersAction = OthersAction(url: string, action: Node.Action)

  /** All that is outside the client's control, step by step: what others do just before the step, whether a
      request or its reply gets lost, whether the databases work, and what quotas and simulations say. */
  datatype Env = Env(
    others: nat -> seq<OthersAction>,
    fault: nat -> Fault,
    loadOk: nat -> bool,
    saveOk: nat -> bool,
    quotaOk: nat -> bool,
    answer: nat -> Option<RpcResponse>)

  type Nodes = map<string, Node.Node>

  datatype Net = Net(nodes: Nodes, tick: nat)

  function OneOther(sv: Services, nodes: Nodes, a: OthersAction): (nodes': Nodes)
    ensures nodes'.Keys == nodes.Keys
  {
    if a.url in nodes then nodes[a.url := Node.Step(sv, nodes[a.url], a.action).node] else nodes
  }

  function RunOthers(sv: Services, nodes: Nodes, acts: seq<OthersAction>): (nodes': Nodes)
    ensures nodes'.Keys == nodes.Keys
    decreases |acts|
  {
    if acts == [] then nodes else RunOthers(sv, OneOther(sv, nodes, acts[0]), acts[1..])
  }

  function Interfere(sv: Services, env: Env, net: Net): (net': Net)
    ensures net'.nodes.Keys == net.nodes.Keys
  {
    Net(RunOthers(sv, net.nodes, env.others(net.tick)), net.tick + 1)
  }

  datatype Acted = Acted(net: Net, reply: Option<Node.Reply>)

  /** The others act, then the node takes one step of this client's request. */
  function Act(sv: Services, env: Env, net: Net, url: string, a: Node.Action): (r: Acted)
    ensures r.net.nodes.Keys == net.nodes.Keys
  {
    var n := Interfere(sv, env, net);
    if url !in n.nodes then Acted(n, None)
    else
      var o := Node.Step(sv, n.nodes[url], a);
      Acted(n.(nodes := n.nodes[url := o.node]), o.reply)
  }

  datatype Answer<+T> = Answer(net: Net, result: Option<T>)

  /** GET /public-key */
  function FetchKey(sv: Services, env: Env, net: Net, url: string): (r: Answer<Bytes>) {
    if env.fault(net.tick) == RequestLost then Answer(Interfere(sv, env, net), None)
    else
      var a := Act(sv, env, net, url, Node.Fetch);
      if a.reply.Some? && a.reply.value.PublicKey? && env.fault(net.tick) == Delivered
      then Answer(a.net, HexDecode(a.reply.value.hex)) else Answer(a.net, None)
  }

  function Checking(env: Env, net: Net, req: ShareStore.StoreRequest): (a: Node.Action) {
    Node.Storing(ShareStore.CheckStep(ME, req, env.loadOk(net.tick)))
  }

  function Saving(env: Env, net: Net): (a: Node.Action) {
    Node.Storing(ShareStore.SaveStep(ME, env.saveOk(net.tick)))
  }

  function StoreReplyOf(reply: Option<Node.Reply>, f: Fault): (r: Option<ShareStore.StoreReply>) {
    if reply.Some? && reply.value.StoreAnswer? && f == Delivered then Some(reply.value.stored) else None
  }

  /** POST /store: the node checks, the others act again, the node saves. */
  function PostStore(sv: Services, env: Env, net: Net, url: string, req: ShareStore.StoreRequest)
    : (r: Answer<ShareStore.StoreReply>)
  {
    var f := env.fault(net.tick);
    if f == RequestLost then Answer(Interfere(sv, env, net), None)
    else
      var checked := Act(sv, env, net, url, Checking(env, net, req));
      if checked.reply.Some? || url !in net.nodes then Answer(checked.net, StoreReplyOf(checked.reply, f))
      else
        var saved := Act(sv, env, checked.net, url, Saving(env, checked.net));
        Answer(saved.net, StoreReplyOf(saved.reply, f))
  }

  function RetrieveReplyOf(reply: Option<Node.Reply>, f: Fault): (r: Option<Bytes>) {
    if reply.Some? && reply.value.RetrieveAnswer? && reply.value.retrieved.Share? && f == Delivered
    then HexDecode(reply.value.retrieved.hex) else None
  }

  function Gating(env: Env, net: Net, req: RetrieveRequest): (a: Node.Action) {
    Node.Gate(ME, req, env.quotaOk(net.tick), env.answer(net.tick))
  }

  function Loading(env: Env, net: Net): (a: Node.Action) {
    Node.Load(ME, env.loadOk(net.tick))
  }

  /** POST /retrieve: gates, read and decryption, with the others acting before each. The result is the
      share, if one came back. */
  function PostRetrieve(sv: Services, env: Env, net: Net, url: string, req: RetrieveRequest): (r: Answer<Bytes>) {
    var f := env.fault(net.tick);
    if f == RequestLost then Answer(Interfere(sv, env, net), None)
    else
      var gated := Act(sv, env, net, url, Gating(env, net, req));
      if gated.reply.Some? || url !in net.nodes then Answer(gated.net, RetrieveReplyOf(gated.reply, f))
      else
        var loaded := Act(sv, env, gated.net, url, Loading(env, gated.net));
        if loaded.reply.Some? then Answer(loaded.net, RetrieveReplyOf(loaded.reply, f))
        else
          var decrypted := Act(sv, env, loaded.net, url, Node.Decrypt(ME));
          Answer(decrypted.net, RetrieveReplyOf(decrypted.reply, f))
  }

  // ---- encrypt ----

  function IsSpace(c: char): bool {
    c == ' ' || c == '\t' || c == '\n' || c == '\r' || c == 11 as char || c == 12 as char
  }

  function TrimSpace(s: string): (r: string) {
    if s == "" then ""
    else if IsSpace(s[0]) then TrimSpace(s[1..])
    else if IsSpace(s[|s| - 1]) then TrimSpace(s[..|s| - 1])
    else s
  }

  /** strings.Split at commas: a text without one is a list of one. */
  function SplitCommas(s: string): (parts: seq<string>)
    ensures |parts| >= 1
  {
    if s == "" then [""]
    else
      var rest := SplitCommas(s[1..]);
      if s[0] == ',' then [""] + rest else [[s[0]] + rest[0]] + rest[1..]
  }

  function TrimAll(urls: seq<string>): (r: seq<string>)
    ensures |r| == |urls|
  {
    seq(|urls|, i requires 0 <= i < |urls| => TrimSpace(urls[i]))
  }

  /** Trimming takes blanks from both ends and nothing else, and leaves none there. */
  lemma {:induction false} TrimSpaceExactly(s: string) returns (lead: string, trail: string)
    ensures s == lead + TrimSpace(s) + trail
    ensures forall c | c in lead + trail :: c in " \t\n\r" || c as int == 11 || c as int == 12
    ensures TrimSpace(s) != "" ==> !IsSpace(TrimSpace(s)[0]) && !IsSpace(TrimSpace(s)[|TrimSpace(s)| - 1])
    decreases |s|
  {
    lead, trail := "", "";
    if s != "" && IsSpace(s[0]) {
      lead, trail := TrimSpaceExactly(s[1..]);
      lead := [s[0]] + lead;
      assert s == [s[0]] + s[1..];
    } else if s != "" && IsSpace(s[|s| - 1]) {
      lead, trail := TrimSpaceExactly(s[..|s| - 1]);
      trail := trail + [s[|s| - 1]];
      assert s == s[..|s| - 1] + [s[|s| - 1]];
    }
  }

  function JoinCommas(parts: seq<string>): (s: string)
    requires |parts| >= 1
  {
    if |parts| == 1 then parts[0] else parts[0] + "," + JoinCommas(parts[1..])
  }

  /** Splitting cuts at every comma and loses nothing. */
  lemma {:induction false} SplitCommasExactly(s: string)
    ensures JoinCommas(SplitCommas(s)) == s
    ensures forall i | 0 <= i < |SplitCommas(s)| :: ',' !in SplitCommas(s)[i]
  {
    if s != "" {
      SplitCommasExactly(s[1..]);
      var rest := SplitCommas(s[1..]);
      assert s == [s[0]] + s[1..];
      if s[0] == ',' {
        assert ([""] + rest)[1..] == rest;
        assert JoinCommas([""] + rest) == "" + "," + s[1..];
      } else {
        var parts := [[s[0]] + rest[0]] + rest[1..];
        assert parts[1..] == rest[1..];
        assert JoinCommas(parts) == [s[0]] + JoinCommas(rest);
      }
    }
  }

  datatype Metadata = Metadata(objectID: string, contractID: string, threshold: int, nodes: seq<string>)

  /** The values drawn at random: the file key, its nonce, the sharing polynomial, and an ephemeral key and
      nonce for every share. */
  datatype Randomness = Randomness(key: Bytes, fileNonce: Bytes, poly: nat, ephemeral: nat -> PrivKey,
    nonce: nat -> Bytes)

  /** One distribution of shares over nodes. */
  datatype Job = Job(urls: seq<string>, contractID: string, objectID: string, shares: seq<Bytes>, rand: Randomness)

  function StoreBody(job: Job, e: Sealed): (req: ShareStore.StoreRequest) {
    ShareStore.StoreRequest(job.objectID, job.contractID, HexEncode(e.ephemeralPub), HexEncode(e.ciphertext),
      HexEncode(e.nonce), "")
  }

  datatype Distributed = Distributed(net: Net, ok: bool)

  /** Fetch the node's key, seal the share for it, store it there. */
  function PlaceShare(sv: Services, env: Env, net: Net, job: Job, i: nat): (r: Distributed)
    requires i < |job.urls| && i < |job.shares|
  {
    var fetched := FetchKey(sv, env, net, job.urls[i]);
    if fetched.result == None then Distributed(fetched.net, false)
    else match EciesEncrypt(sv.suite, fetched.result.value, job.shares[i], job.rand.ephemeral(i), job.rand.nonce(i))
      case None => Distributed(fetched.net, false)
      case Some(e) =>
        var stored := PostStore(sv, env, fetched.net, job.urls[i], StoreBody(job, e));
        Distributed(stored.net, stored.result == Some(ShareStore.Stored))
  }

  /** The first failure ends the program. */
  function Distribute(sv: Services, env: Env, net: Net, job: Job, i: nat): (r: Distributed)
    requires i <= |job.urls| <= |job.shares|
    decreases |job.urls| - i
  {
    if i == |job.urls| then Distributed(net, true)
    else
      var placed := PlaceShare(sv, env, net, job, i);
      if placed.ok then Distribute(sv, env, placed.net, job, i + 1) else placed
  }

  /** What an encryption leaves behind: the network, the encrypted file if it was written, and the metadata
      if it was. */
  datatype Encrypted = Encrypted(net: Net, file: Option<Bytes>, metadata: Option<Metadata>)

  function EncryptJob(sv: Services, contractID: string, urls: seq<string>, ct: Bytes, shares: seq<Bytes>,
      rand: Randomness): (job: Job)
  {
    Job(TrimAll(urls), contractID, HexEncode(sv.suite.sha256(ct)), shares, rand)
  }

  function Encrypt(sv: Services, env: Env, net: Net, file: Bytes, contractID: string, nodesList: string, n: int,
      t: int, rand: Randomness): (r: Encrypted)
    requires sv.suite.Lawful()
  {
    var urls := SplitCommas(nodesList);
    if contractID == "" || nodesList == "" || |urls| < n then Encrypted(net, None, None)
    else match SymmetricEncrypt(sv.suite, rand.key, file, rand.fileNonce)
      case None => Encrypted(net, None, None)
      case Some(ct) =>
        var out := Some(rand.fileNonce + ct);
        match sv.suite.split(rand.key, n, t, rand.poly)
        case None => Encrypted(net, out, None)
        case Some(shares) =>
          var job := EncryptJob(sv, contractID, urls[..n], ct, shares, rand);
          var d := Distribute(sv, env, net, job, 0);
          Encrypted(d.net, out, if d.ok then Some(Metadata(job.objectID, contractID, t, urls[..n])) else None)
  }

  /** What an encryption that wrote its metadata says in it, and what it wrote to the encrypted file: the nonce and
      the file sealed under the fresh key, and the hexadecimal hash of the sealed bytes as the object's id. */
  lemma MetadataSays(sv: Services, env: Env, net: Net, file: Bytes, contractID: string, nodesList: string, n: int,
      t: int, rand: Randomness)
    requires sv.suite.Lawful()
    ensures var e := Encrypt(sv, env, net, file, contractID, nodesList, n, t, rand);
      e.metadata.Some? ==>
        && e.file == Some(rand.fileNonce + sv.suite.seal(rand.key, rand.fileNonce, file)) && |rand.fileNonce| == 12
        && e.metadata.value.objectID == HexEncode(sv.suite.sha256(e.file.value[12..]))
        && e.metadata.value.contractID == contractID && e.metadata.value.threshold == t
        && 0 <= n <= |SplitCommas(nodesList)| && e.metadata.value.nodes == SplitCommas(nodesList)[..n]
  {
    hide Distribute, SplitCommas, HexEncode;
    var ct := sv.suite.seal(rand.key, rand.fileNonce, file);
    assert (rand.fileNonce + ct)[|rand.fileNonce|..] == ct;
  }

  /** When an encryption ends before it contacts a node: without a contract, a node list or nodes enough nothing is
      written, and with share numbers the library refuses only the encrypted file is. */
  lemma EncryptRefuses(sv: Services, env: Env, net: Net, file: Bytes, contractID: string, nodesList: string, n: int,
      t: int, rand: Randomness)
    requires sv.suite.Lawful() && |rand.key| == 32 && |rand.fileNonce| == 12 && |file| <= MAX_PLAINTEXT
    ensures var e := Encrypt(sv, env, net, file, contractID, nodesList, n, t, rand);
      && (contractID == "" || nodesList == "" || |SplitCommas(nodesList)| < n <==> e.file == None)
      && (e.file == None || !(2 <= t <= n <= 255) ==> e.metadata == None && e.net == net)
  {
    hide Distribute, SplitCommas, HexEncode;
  }

  // ---- decrypt ----

  /** The accessor's seed: its address and its signatures, and the bytes of a text. */
  datatype Accessor = Accessor(address: Option<string>, sign: Bytes -> Option<Bytes>, utf8: string -> Bytes)

  datatype Decrypted =
    | Recovered(file: Bytes)
    | FileTooShort | BadSeed | NoTransaction | NoSignature
    | NotEnoughShares(collected: nat)
    | CombineFailed | OpenFailed

  datatype Collected = Collected(net: Net, shares: seq<Bytes>)

  /** Ask one node after another until enough shares have come back. */
  function Collect(sv: Services, env: Env, net: Net, urls: seq<string>, req: RetrieveRequest, needed: int,
      got: seq<Bytes>): (r: Collected)
    decreases |urls|
  {
    if urls == [] || |got| >= needed then Collected(net, got)
    else
      var a := PostRetrieve(sv, env, net, urls[0], req);
      Collect(sv, env, a.net, urls[1..], req, needed, if a.result.Some? then got + [a.result.value] else got)
  }

  function MakeRequest(sv: Services, meta: Metadata, who: Accessor): (r: Option<RetrieveRequest>)
    requires who.address.Some?
  {
    var message := who.utf8(meta.objectID + "_" + meta.contractID);
    match (BuildApproveTransaction(sv.codec, meta.contractID, meta.objectID, who.address.value), who.sign(message))
    case (Some(tx), Some(sig)) =>
      Some(RetrieveRequest(meta.objectID, meta.contractID, who.address.value, HexEncode(sig), HexEncode(message), tx))
    case _ => None
  }

  /** The request names the object, the contract and the caller, carries the message made of the first two and the
      caller's signature of it, and the transaction built for all three. */
  lemma RequestSays(sv: Services, meta: Metadata, who: Accessor)
    requires who.address.Some? && MakeRequest(sv, meta, who).Some?
    ensures var req := MakeRequest(sv, meta, who).value;
      var message := who.utf8(meta.objectID + "_" + meta.contractID);
      && req.objectID == meta.objectID && req.contractID == meta.contractID && req.callerAddress == who.address.value
      && HexDecode(req.message) == Some(message)
      && who.sign(message).Some? && HexDecode(req.signature) == who.sign(message)
      && BuildApproveTransaction(sv.codec, meta.contractID, meta.objectID, who.address.value) == Some(req.txXDR)
  {
    hide HexEncode, HexDecode, BuildApproveTransaction;
    var message := who.utf8(meta.objectID + "_" + meta.contractID);
    HexRoundTrip(message);
    HexRoundTrip(who.sign(message).value);
  }

  /** What the collected shares make of the encrypted file. */
  function Reconstruct(s: Suite, data: Bytes, shares: seq<Bytes>, needed: int): (r: Decrypted)
    requires |data| >= NONCE_SIZE
  {
    if |shares| < needed then NotEnoughShares(|shares|)
    else match s.combine(shares)
      case None => CombineFailed
      case Some(key) =>
        match SymmetricDecrypt(s, key, data[NONCE_SIZE..], data[..NONCE_SIZE])
        case None => OpenFailed
        case Some(file) => Recovered(file)
  }

  datatype DecryptRun = DecryptRun(net: Net, outcome: Decrypted)

  function Decrypt(sv: Services, env: Env, net: Net, data: Bytes, meta: Metadata, who: Accessor): (r: DecryptRun) {
    if |data| < NONCE_SIZE then DecryptRun(net, FileTooShort)
    else if who.address == None then DecryptRun(net, BadSeed)
    else if BuildApproveTransaction(sv.codec, meta.contractID, meta.objectID, who.address.value) == None
    then DecryptRun(net, NoTransaction)
    else match MakeRequest(sv, meta, who)
      case None => DecryptRun(net, NoSignature)
      case Some(req) =>
        var c := Collect(sv, env, net, TrimAll(meta.nodes), req, meta.threshold, []);
        DecryptRun(c.net, Reconstruct(sv.suite, data, c.shares, meta.threshold))
  }

  /** When a decryption ends before it contacts a node, and as what: the first thing that is not in order. */
  lemma DecryptRefuses(sv: Services, env: Env, net: Net, data: Bytes, meta: Metadata, who: Accessor)
    ensures var d := Decrypt(sv, env, net, data, meta, who);
      var built := who.address.Some? &&
        BuildApproveTransaction(sv.codec, meta.contractID, meta.objectID, who.address.value).Some?;
      var signed := who.sign(who.utf8(meta.objectID + "_" + meta.contractID)).Some?;
      && (d.outcome == FileTooShort <==> |data| < 12)
      && (d.outcome == BadSeed <==> |data| >= 12 && who.address == None)
      && (d.outcome == NoTransaction <==> |data| >= 12 && who.address.Some? && !built)
      && (d.outcome == NoSignature <==> |data| >= 12 && built && !signed)
      && (|data| < 12 || !built || !signed ==> d.net == net)
  {
    hide BuildApproveTransaction, HexEncode, Collect;
  }

  // ---- the program as it runs ----

  /** The network as the program meets it: every request changes it and returns what came back. */
  class Network {
    const sv: Services
    const env: Env
    var net: Net

    constructor (sv: Services, env: Env, net: Net)
      ensures this.net == net
    {
      this.sv, this.env, this.net := sv, env, net;
    }

    method FetchNodePublicKey(url: string) returns (key: Option<Bytes>)
      modifies this
      ensures Answer(net, key) == FetchKey(sv, env, old(net), url)
    {
      var a := FetchKey(sv, env, net, url);
      net, key := a.net, a.result;
    }

    method StoreShareOnNode(url: string, req: ShareStore.StoreRequest) returns (reply: Option<ShareStore.StoreReply>)
      modifies this
      ensures Answer(net, reply) == PostStore(sv, env, old(net), url, req)
    {
      var a := PostStore(sv, env, net, url, req);
      net, reply := a.net, a.result;
    }

    method RetrieveShareFromNode(url: string, req: RetrieveRequest) returns (share: Option<Bytes>)
      modifies this
      ensures Answer(net, share) == PostRetrieve(sv, env, old(net), url, req)
    {
      var a := PostRetrieve(sv, env, net, url, req);
      net, share := a.net, a.result;
    }
  }

  method HandleEncrypt(w: Network, file: Bytes, contractID: string, nodesList: string, n: int, t: int, rand: Randomness)
    returns (out: Option<Bytes>, metadata: Option<Metadata>)
    requires w.sv.suite.Lawful()
    modifies w
    ensures Encrypted(w.net, out, metadata) == Encrypt(w.sv, w.env, old(w.net), file, contractID, nodesList, n, t, rand)
  {
    hide PostStore, FetchKey, EciesEncrypt;
    out, metadata := None, None;
    if contractID == "" || nodesList == "" {
      return;
    }
    var urls := SplitCommas(nodesList);
    if |urls| < n {
      return;
    }
    var ct := SymmetricEncrypt(w.sv.suite, rand.key, file, rand.fileNonce);
    if ct == None {
      return;
    }
    out := Some(rand.fileNonce + ct.value);
    var objectID := HexEncode(w.sv.suite.sha256(ct.value));
    var shares := w.sv.suite.split(rand.key, n, t, rand.poly);
    if shares == None {
      return;
    }
    var job := Job(TrimAll(urls[..n]), contractID, objectID, shares.value, rand);
    ghost var whole := Distribute(w.sv, w.env, w.net, job, 0);
    for i := 0 to n
      invariant Distribute(w.sv, w.env, w.net, job, i) == whole
    {
      var url := TrimSpace(urls[i]);
      assert url == job.urls[i];
      var nodePub := w.FetchNodePublicKey(url);
      if nodePub == None {
        return;
      }
      var e := EciesEncrypt(w.sv.suite, nodePub.value, shares.value[i], rand.ephemeral(i), rand.nonce(i));
      if e == None {
        return;
      }
      var reply := w.StoreShareOnNode(url, StoreBody(job, e.value));
      if reply != Some(ShareStore.Stored) {
        return;
      }
    }
    metadata := Some(Metadata(objectID, contractID, t, urls[..n]));
  }

  method HandleDecrypt(w: Network, data: Bytes, meta: Metadata, who: Accessor) returns (outcome: Decrypted)
    modifies w
    ensures DecryptRun(w.net, outcome) == Decrypt(w.sv, w.env, old(w.net), data, meta, who)
  {
    hide PostRetrieve;
    if |data| < NONCE_SIZE {
      return FileTooShort;
    }
    if who.address == None {
      return BadSeed;
    }
    var tx := BuildApproveTransaction(w.sv.codec, meta.contractID, meta.objectID, who.address.value);
    if tx == None {
      return NoTransaction;
    }
    var message := who.utf8(meta.objectID + "_" + meta.contractID);
    var sig := who.sign(message);
    if sig == None {
      return NoSignature;
    }
    var req := RetrieveRequest(meta.objectID, meta.contractID, who.address.value, HexEncode(sig.value),
      HexEncode(message), tx.value);
    var collected: seq<Bytes> := [];
    ghost var urls := TrimAll(meta.nodes);
    ghost var whole := Collect(w.sv, w.env, w.net, urls, req, meta.threshold, []);
    var i := 0;
    while i < |meta.nodes| && |collected| < meta.threshold
      invariant 0 <= i <= |meta.nodes|
      invariant Collect(w.sv, w.env, w.net, urls[i..], req, meta.threshold, collected) == whole
    {
      var share := w.RetrieveShareFromNode(TrimSpace(meta.nodes[i]), req);
      assert urls[i..][0] == TrimSpace(meta.nodes[i]) && urls[i..][1..] == urls[i + 1..];
      if share.Some? {
        collected := collected + [share.value];
      }
      i := i + 1;
    }
    if |collected| < meta.threshold {
      return NotEnoughShares(|collected|);
    }
    var key := w.sv.suite.combine(collected);
    if key == None {
      return CombineFailed;
    }
    var file := SymmetricDecrypt(w.sv.suite, key.value, data[NONCE_SIZE..], data[..NONCE_SIZE]);
    if file == None {
      return OpenFailed;
    }
    return Recovered(file.value);
  }
}
