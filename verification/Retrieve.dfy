/** POST /retrieve: an ordered row of gates, then load and decrypt. */
module Retrieve {
  import opened Basics
  import opened Crypto
  import opened ShareStore
  import opened Transaction
  import KeyRing
  import RateLimit

  datatype RetrieveRequest = RetrieveRequest(objectID: string, contractID: string, callerAddress: string,
    signature: string, message: string, txXDR: string)

  datatype RetrieveReply =
    | Share(hex: string)
    | MissingFields | TooManyRequests | BadMessage | BadSignature | InvalidSignature
    | BadTransaction(error: TxError) | SimulationError | AccessDenied | NotFound | DecryptionFailed
    | NoReply

  /** The library calls of the handler: keys and ciphers, encodings, and Ed25519 verification of a message
      and signature under an address. */
  datatype Services = Services(suite: Suite, codec: Codec, verify: (string, Bytes, Bytes) -> bool)

  /** The first gate that fails, if any. The object's quota is charged at the second; the answer of the
      simulation is asked for only at the last. */
  function Gates(sv: Services, req: RetrieveRequest, quotaOk: bool, answer: Option<RpcResponse>)
    : (r: Option<RetrieveReply>)
  {
    if req.objectID == "" || req.contractID == "" || req.callerAddress == "" then Some(MissingFields)
    else if !quotaOk then Some(TooManyRequests)
    else match HexDecode(req.message)
      case None => Some(BadMessage)
      case Some(msg) =>
        match HexDecode(req.signature)
        case None => Some(BadSignature)
        case Some(sig) =>
          if !sv.verify(req.callerAddress, msg, sig) then Some(InvalidSignature)
          else match VerifySorobanTx(sv.codec, req.txXDR, req.contractID, "approve", req.callerAddress)
            case TxRejected(e) => Some(BadTransaction(e))
            case TxAccepted =>
              match SimulationVerdict(answer)
              case SimError => Some(SimulationError)
              case SimDenied => Some(AccessDenied)
              case SimApproved => None
  }

  /** The stored share under the key the node holds at that moment. A panic ends the connection without a
      reply. */
  function Open(s: Suite, priv: PrivKey, r: Record): (reply: RetrieveReply) {
    match DecryptShare(s, priv, r.ephemeralPub, r.ciphertext.GetOr([]), r.nonce)
    case Opened(share) => Share(HexEncode(share))
    case DecryptError => DecryptionFailed
    case NoncePanic => NoReply
  }

  function Serve(s: Suite, priv: PrivKey, b: Bucket, loadOk: bool, req: RetrieveRequest): (reply: RetrieveReply) {
    var key := StoreKey(req.contractID, req.objectID);
    if loadOk && Exists(b, key) then Open(s, priv, b[key]) else NotFound
  }

  method HandleRetrieveShare(sv: Services, limits: RateLimit.LimiterStore, store: BoltStore, km: KeyRing.KeyManager,
      req: RetrieveRequest, now: real, answer: Option<RpcResponse>, loadOk: bool) returns (reply: RetrieveReply)
    requires limits.Valid() && limits.r == 1.0 && limits.burst == RateLimit.OBJECT_BURST
    modifies limits`limiters, limits.limiters.Values
    ensures limits.Valid()
    ensures var c := RateLimit.Charge(old(limits.View()), 1.0, RateLimit.OBJECT_BURST,
      RateLimit.ObjectKey(req.objectID), now);
      var asked := req.objectID != "" && req.contractID != "" && req.callerAddress != "";
      && limits.View() == (if asked then c.view else old(limits.View()))
      && reply == match Gates(sv, req, c.ok, answer)
         case Some(refused) => refused
         case None => Serve(sv.suite, km.nodePrivateKey, store.bucket, loadOk, req)
  {
    hide RateLimit.Charge, VerifySorobanTx;
    if req.objectID == "" || req.contractID == "" || req.callerAddress == "" {
      return MissingFields;
    }
    var quotaOk := RateLimit.CheckObjectRateLimit(limits, req.objectID, now);
    if !quotaOk {
      return TooManyRequests;
    }
    var msg := HexDecode(req.message);
    if msg == None {
      return BadMessage;
    }
    var sig := HexDecode(req.signature);
    if sig == None {
      return BadSignature;
    }
    if !sv.verify(req.callerAddress, msg.value, sig.value) {
      return InvalidSignature;
    }
    var checked := VerifySorobanTx(sv.codec, req.txXDR, req.contractID, "approve", req.callerAddress);
    if checked.TxRejected? {
      return BadTransaction(checked.error);
    }
    var verdict := SimulateSorobanTx(answer);
    if verdict == SimError {
      return SimulationError;
    }
    if verdict == SimDenied {
      return AccessDenied;
    }
    var stored, exists_, ok := store.Load(req.contractID + "_" + req.objectID, loadOk);
    if !ok || !exists_ {
      return NotFound;
    }
    reply := Open(sv.suite, km.nodePrivateKey, stored);
  }

  /** A share leaves the node only when the quota, the signature, the transaction and the simulation all
      allow it and the record opens under the node's key, and then it is that record's content. */
  lemma ReleasedExactlyWhen(sv: Services, req: RetrieveRequest, quotaOk: bool, answer: Option<RpcResponse>,
      priv: PrivKey, b: Bucket, loadOk: bool, share: Bytes)
    ensures var key := req.contractID + "_" + req.objectID;
      var reply := match Gates(sv, req, quotaOk, answer)
        case Some(refused) => refused
        case None => Serve(sv.suite, priv, b, loadOk, req);
      reply == Share(HexEncode(share)) <==>
        && req.objectID != "" && req.contractID != "" && req.callerAddress != "" && quotaOk
        && HexDecode(req.message).Some? && HexDecode(req.signature).Some?
        && sv.verify(req.callerAddress, HexDecode(req.message).value, HexDecode(req.signature).value)
        && VerifySorobanTx(sv.codec, req.txXDR, req.contractID, "approve", req.callerAddress) == TxAccepted
        && answer.Some? && !answer.value.rpcError && answer.value.resultError == "" && answer.value.resultErrors != []
        && (forall i | 0 <= i < |answer.value.resultErrors| :: answer.value.resultErrors[i] == "")
        && loadOk && key in b && b[key].ciphertext.Some?
        && DecryptShare(sv.suite, priv, b[key].ephemeralPub, b[key].ciphertext.value, b[key].nonce) == Opened(share)
  {
    hide VerifySorobanTx, DecryptShare, HexDecode, HexEncode;
    if loadOk && Exists(b, StoreKey(req.contractID, req.objectID)) {
      var r := b[StoreKey(req.contractID, req.objectID)];
      var d := DecryptShare(sv.suite, priv, r.ephemeralPub, r.ciphertext.value, r.nonce);
      if d.Opened? && HexEncode(d.share) == HexEncode(share) {
        HexRoundTrip(share);
        HexRoundTrip(d.share);
      }
    }
  }

  /** Everything up to the simulation is in order. */
  predicate UpToSimulation(sv: Services, req: RetrieveRequest, quotaOk: bool) {
    && req.objectID != "" && req.contractID != "" && req.callerAddress != "" && quotaOk
    && HexDecode(req.message).Some? && HexDecode(req.signature).Some?
    && sv.verify(req.callerAddress, HexDecode(req.message).value, HexDecode(req.signature).value)
    && VerifySorobanTx(sv.codec, req.txXDR, req.contractID, "approve", req.callerAddress) == TxAccepted
  }

  /** What the answer of the simulation decides. A request passes only if an answer came, without an RPC error or an
      execution error, with results, and with none that failed. Without an answer, with an RPC error, or with neither
      an execution error nor a result, it is an error of the simulation, and otherwise a denial. */
  lemma SimulationDecides(sv: Services, req: RetrieveRequest, quotaOk: bool, answer: Option<RpcResponse>)
    ensures Gates(sv, req, quotaOk, answer) == None <==>
      && UpToSimulation(sv, req, quotaOk)
      && answer.Some? && !answer.value.rpcError && answer.value.resultError == "" && answer.value.resultErrors != []
      && forall i | 0 <= i < |answer.value.resultErrors| :: answer.value.resultErrors[i] == ""
    ensures Gates(sv, req, quotaOk, answer) == Some(SimulationError) <==>
      && UpToSimulation(sv, req, quotaOk)
      && (answer == None || answer.value.rpcError
          || (answer.value.resultError == "" && answer.value.resultErrors == []))
    ensures Gates(sv, req, quotaOk, answer) == Some(AccessDenied) <==>
      && UpToSimulation(sv, req, quotaOk)
      && answer.Some? && !answer.value.rpcError
      && (answer.value.resultError != ""
          || exists i | 0 <= i < |answer.value.resultErrors| :: answer.value.resultErrors[i] != "")
  {
    hide VerifySorobanTx, HexDecode;
  }

  /** The replies to a request that does not get that far: the first thing that is not in order. */
  lemma EarlierRefusals(sv: Services, req: RetrieveRequest, quotaOk: bool, answer: Option<RpcResponse>)
    ensures var reply := Gates(sv, req, quotaOk, answer);
      var named := req.objectID != "" && req.contractID != "" && req.callerAddress != "";
      var message, signature := HexDecode(req.message), HexDecode(req.signature);
      && (reply == Some(MissingFields) <==> !named)
      && (reply == Some(TooManyRequests) <==> named && !quotaOk)
      && (reply == Some(BadMessage) <==> named && quotaOk && message == None)
      && (reply == Some(BadSignature) <==> named && quotaOk && message.Some? && signature == None)
      && (reply == Some(InvalidSignature) <==>
            && named && quotaOk && message.Some? && signature.Some?
            && !sv.verify(req.callerAddress, message.value, signature.value))
      && (forall e :: reply == Some(BadTransaction(e)) <==>
            && named && quotaOk && message.Some? && signature.Some?
            && sv.verify(req.callerAddress, message.value, signature.value)
            && VerifySorobanTx(sv.codec, req.txXDR, req.contractID, "approve", req.callerAddress) == TxRejected(e))
  {
    hide VerifySorobanTx, HexDecode;
  }

  /** And the replies to one that passes. */
  lemma ServedExactly(s: Suite, priv: PrivKey, b: Bucket, loadOk: bool, req: RetrieveRequest)
    ensures var key := req.contractID + "_" + req.objectID;
      var reply := Serve(s, priv, b, loadOk, req);
      var found := loadOk && key in b && b[key].ciphertext.Some?;
      && (reply == NotFound <==> !found)
      && (found ==>
            var d := DecryptShare(s, priv, b[key].ephemeralPub, b[key].ciphertext.value, b[key].nonce);
            && (reply == DecryptionFailed <==> d == DecryptError)
            && (reply == NoReply <==> d == NoncePanic)
            && (d.Opened? ==> reply == Share(HexEncode(d.share))))
  {
    hide DecryptShare, HexEncode;
  }

  // ---- what a released share says about the pair ----

  /** A share that is released was sent to the store under the pair of the request. */
  lemma ReleasedWasSentForPair(s: Suite, priv: PrivKey, ops: seq<Op>, req: RetrieveRequest, share: Bytes)
    returns (j: nat)
    requires forall op | op in ops && op.Store? :: '_' !in op.req.contractID
    requires '_' !in req.contractID && Serve(s, priv, ShareStore.After(ops), true, req) == Share(HexEncode(share))
    ensures j < |ops| && ops[j].Store?
    ensures ops[j].req.contractID == req.contractID && ops[j].req.objectID == req.objectID
    ensures SentRecord(ops[j]).Some? && Open(s, priv, SentRecord(ops[j]).value) == Share(HexEncode(share))
  {
    hide HexDecode, HexEncode, DecryptShare;
    j := SentUnderItsKey(ops, StoreKey(req.contractID, req.objectID));
    assert ops[j] in ops;
    StoreKeyInjective(ops[j].req.contractID, ops[j].req.objectID, req.contractID, req.objectID);
  }

  /** It need not have been sealed for that pair: the additional data that would tie it there takes no part in
      sealing and opening. The same body stored under two pairs is served under both alike. */
  lemma SealedFormIgnoresPair(s: Suite, priv: PrivKey, body: StoreRequest, c1: string, o1: string, c2: string,
      o2: string, req1: RetrieveRequest, req2: RetrieveRequest)
    requires c1 != "" && o1 != "" && c2 != "" && o2 != "" && StoreKey(c1, o1) != StoreKey(c2, o2)
    requires ReadRequest(body.(contractID := c1, objectID := o1)).Some?
    requires req1.contractID == c1 && req1.objectID == o1 && req2.contractID == c2 && req2.objectID == o2
    ensures var ops := [Store(body.(contractID := c1, objectID := o1), true, true)]
      + [Store(body.(contractID := c2, objectID := o2), true, true)];
      Serve(s, priv, ShareStore.After(ops), true, req2) == Serve(s, priv, ShareStore.After(ops), true, req1)
  {
    hide HexDecode, Open;
    var first := Store(body.(contractID := c1, objectID := o1), true, true);
    var second := Store(body.(contractID := c2, objectID := o2), true, true);
    var ops := [first] + [second];
    assert ops[..|ops| - 1] == [first] && [first][..0] == [];
    assert ShareStore.After([]) == map[];
    assert StoreKey(c1, o1) in ShareStore.After([first]);
  }

  /** Nor is the signed message compared with the request: any two messages the caller signed do equally well. */
  lemma MessageIsNotCompared(sv: Services, req: RetrieveRequest, message: string, signature: string, quotaOk: bool,
      answer: Option<RpcResponse>)
    requires forall r | r in {req, req.(message := message, signature := signature)} ::
      && HexDecode(r.message).Some? && HexDecode(r.signature).Some?
      && sv.verify(r.callerAddress, HexDecode(r.message).value, HexDecode(r.signature).value)
    ensures Gates(sv, req.(message := message, signature := signature), quotaOk, answer)
      == Gates(sv, req, quotaOk, answer)
  {
    hide HexDecode, VerifySorobanTx;
    assert req in {req, req.(message := message, signature := signature)};
  }
}
