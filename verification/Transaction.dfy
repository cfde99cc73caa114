/** The approve() transaction: how the client builds it, how a node checks it, and how a node judges the
    simulation's answer. */
module Transaction {
  import opened Basics

  datatype ScAddress = ContractAddress(id: Option<Bytes>) | AccountAddress(id: Option<Bytes>) | OtherAddress

  datatype ScVal = ScBytes(bytes: Bytes) | ScAddr(address: ScAddress) | OtherVal

  datatype InvokeArgs = InvokeArgs(contract: ScAddress, functionName: string, args: seq<ScVal>)

  datatype HostFunction = InvokeContract(args: Option<InvokeArgs>) | OtherHostFunction

  datatype Operation = InvokeHostFunction(hostFunction: HostFunction) | OtherOperation

  datatype MuxedAccount = Ed25519(key: Bytes) | MuxedEd25519(id: nat, key: Bytes)

  datatype Tx = Tx(source: MuxedAccount, operations: seq<Operation>)

  datatype Envelope = V1(tx: Option<Tx>) | OtherEnvelope

  /** Address texts (SEP-0023) and the base64 XDR form of envelopes (RFC 4506). */
  datatype Codec = Codec(
    decodeContract: string -> Option<Bytes>,
    encodeContract: Bytes -> Option<string>,
    decodeAccount: string -> Option<Bytes>,
    encodeAccount: Bytes -> Option<string>,
    encodeMuxed: (nat, Bytes) -> Option<string>,
    marshal: Envelope -> Option<string>,
    unmarshal: string -> Option<Envelope>)
  {
    /** Decoding an address text and encoding the 32 bytes again gives the text back, and an envelope
        survives the trip through its text. */
    ghost predicate Lawful() {
      && (forall a | decodeContract(a).Some? ::
            |decodeContract(a).value| == 32 && encodeContract(decodeContract(a).value) == Some(a))
      && (forall a | decodeAccount(a).Some? ::
            |decodeAccount(a).value| == 32 && encodeAccount(decodeAccount(a).value) == Some(a))
      && (forall e | marshal(e).Some? :: unmarshal(marshal(e).value) == Some(e))
    }
  }

  /** Go's copy into a zeroed 32-byte array. */
  function CopyTo32(b: Bytes): (r: Bytes)
    ensures |r| == 32
  {
    if |b| >= 32 then b[..32] else b + seq(32 - |b|, _ => 0 as byte)
  }

  function ApproveEnvelope(contract: Bytes, object_: Bytes, caller: Bytes): (e: Envelope) {
    var args := InvokeArgs(ContractAddress(Some(CopyTo32(contract))), "approve",
      [ScBytes(object_), ScAddr(AccountAddress(Some(CopyTo32(caller))))]);
    V1(Some(Tx(Ed25519(CopyTo32(caller)), [InvokeHostFunction(InvokeContract(Some(args)))])))
  }

  function BuildApproveTransaction(codec: Codec, contractID: string, objectIDHex: string, caller: string)
    : (tx: Option<string>)
  {
    match (codec.decodeContract(contractID), HexDecode(objectIDHex), codec.decodeAccount(caller))
    case (Some(c), Some(o), Some(a)) => codec.marshal(ApproveEnvelope(c, o, a))
    case _ => None
  }

  datatype TxError =
    | BadXdr | BadEnvelope | NoSourceAddress | SourceMismatch | OperationCount | NotInvokeHostFunction
    | NotInvokeContract | NoInvokeArgs | NoContractAddress | ContractMismatch | FunctionMismatch

  datatype TxVerdict = TxAccepted | TxRejected(error: TxError)

  function SourceAddress(codec: Codec, m: MuxedAccount): (a: Option<string>) {
    match m
    case Ed25519(key) => codec.encodeAccount(key)
    case MuxedEd25519(id, key) => codec.encodeMuxed(id, key)
  }

  function GetTxSourceAndOps(e: Envelope): (tx: Option<Tx>) {
    match e
    case V1(tx) => tx
    case OtherEnvelope => None
  }

  /** The text of an address: contract and account forms are both accepted. */
  function AddressText(codec: Codec, a: ScAddress): (text: Option<string>) {
    match a
    case ContractAddress(Some(id)) => codec.encodeContract(id)
    case AccountAddress(Some(id)) => codec.encodeAccount(id)
    case _ => None
  }

  function VerifySorobanTx(codec: Codec, text: string, contractID: string, expectedFunc: string, sourceAccount: string)
    : (v: TxVerdict)
  {
    match codec.unmarshal(text)
    case None => TxRejected(BadXdr)
    case Some(env) =>
      match GetTxSourceAndOps(env)
      case None => TxRejected(BadEnvelope)
      case Some(tx) =>
        match SourceAddress(codec, tx.source)
        case None => TxRejected(NoSourceAddress)
        case Some(source) =>
          if source != sourceAccount then TxRejected(SourceMismatch)
          else if |tx.operations| != 1 then TxRejected(OperationCount)
          else match tx.operations[0]
            case OtherOperation => TxRejected(NotInvokeHostFunction)
            case InvokeHostFunction(OtherHostFunction) => TxRejected(NotInvokeContract)
            case InvokeHostFunction(InvokeContract(None)) => TxRejected(NoInvokeArgs)
            case InvokeHostFunction(InvokeContract(Some(args))) =>
              match AddressText(codec, args.contract)
              case None => TxRejected(NoContractAddress)
              case Some(address) =>
                if address != contractID then TxRejected(ContractMismatch)
                else if args.functionName != expectedFunc then TxRejected(FunctionMismatch)
                else TxAccepted
  }

  /** Builder and verifier agree: an envelope that was built is accepted for the contract and caller it was
      built for, and still carries the approve arguments. */
  lemma BuiltIsAccepted(codec: Codec, contractID: string, objectIDHex: string, caller: string)
    requires codec.Lawful() && BuildApproveTransaction(codec, contractID, objectIDHex, caller).Some?
    ensures var text := BuildApproveTransaction(codec, contractID, objectIDHex, caller).value;
      && VerifySorobanTx(codec, text, contractID, "approve", caller) == TxAccepted
      && codec.decodeContract(contractID).Some? && codec.decodeAccount(caller).Some? && HexDecode(objectIDHex).Some?
      && codec.unmarshal(text) == Some(V1(Some(Tx(Ed25519(codec.decodeAccount(caller).value),
           [InvokeHostFunction(InvokeContract(Some(InvokeArgs(
              ContractAddress(Some(codec.decodeContract(contractID).value)), "approve",
              [ScBytes(HexDecode(objectIDHex).value),
               ScAddr(AccountAddress(Some(codec.decodeAccount(caller).value)))]))))]))))
  {
    var c, a := codec.decodeContract(contractID).value, codec.decodeAccount(caller).value;
    assert CopyTo32(c) == c && CopyTo32(a) == a;
  }

  /** An envelope is accepted exactly when it is a transaction of the caller with one operation, which calls the
      function of the contract. */
  lemma AcceptedExactlyWhen(codec: Codec, text: string, contractID: string, func: string, caller: string)
    ensures VerifySorobanTx(codec, text, contractID, func, caller) == TxAccepted
      <==> exists source, args, target: ScAddress ::
        && codec.unmarshal(text)
             == Some(V1(Some(Tx(source, [InvokeHostFunction(InvokeContract(Some(InvokeArgs(target, func, args))))]))))
        && (match source
            case Ed25519(key) => codec.encodeAccount(key) == Some(caller)
            case MuxedEd25519(id, key) => codec.encodeMuxed(id, key) == Some(caller))
        && (match target
            case ContractAddress(Some(id)) => codec.encodeContract(id) == Some(contractID)
            case AccountAddress(Some(id)) => codec.encodeAccount(id) == Some(contractID)
            case _ => false)
  {
    if VerifySorobanTx(codec, text, contractID, func, caller) == TxAccepted {
      var tx := codec.unmarshal(text).value.tx.value;
      var call := tx.operations[0].hostFunction.args.value;
      assert tx.operations == [InvokeHostFunction(InvokeContract(Some(InvokeArgs(call.contract, func, call.args))))];
      assert codec.unmarshal(text) == Some(V1(Some(Tx(tx.source,
        [InvokeHostFunction(InvokeContract(Some(InvokeArgs(call.contract, func, call.args))))]))));
    }
  }

  /** Why an envelope is rejected: the first thing that is not in order. */
  lemma RejectedExactly(codec: Codec, text: string, contractID: string, func: string, caller: string)
    ensures var v := VerifySorobanTx(codec, text, contractID, func, caller);
      match codec.unmarshal(text)
      case None => v == TxRejected(BadXdr)
      case Some(OtherEnvelope) => v == TxRejected(BadEnvelope)
      case Some(V1(None)) => v == TxRejected(BadEnvelope)
      case Some(V1(Some(tx))) =>
        var source := match tx.source
          case Ed25519(key) => codec.encodeAccount(key)
          case MuxedEd25519(id, key) => codec.encodeMuxed(id, key);
        && (v == TxRejected(NoSourceAddress) <==> source == None)
        && (v == TxRejected(SourceMismatch) <==> source.Some? && source != Some(caller))
        && (v == TxRejected(OperationCount) <==> source == Some(caller) && |tx.operations| != 1)
        && (source == Some(caller) && |tx.operations| == 1 ==>
              match tx.operations[0]
              case OtherOperation => v == TxRejected(NotInvokeHostFunction)
              case InvokeHostFunction(OtherHostFunction) => v == TxRejected(NotInvokeContract)
              case InvokeHostFunction(InvokeContract(None)) => v == TxRejected(NoInvokeArgs)
              case InvokeHostFunction(InvokeContract(Some(call))) =>
                var target := if call.contract.OtherAddress? || call.contract.id == None then None
                  else if call.contract.ContractAddress? then codec.encodeContract(call.contract.id.value)
                  else codec.encodeAccount(call.contract.id.value);
                && (v == TxRejected(NoContractAddress) <==> target == None)
                && (v == TxRejected(ContractMismatch) <==> target.Some? && target != Some(contractID))
                && (v == TxRejected(FunctionMismatch) <==> target == Some(contractID) && call.functionName != func)
                && (v == TxAccepted <==> target == Some(contractID) && call.functionName == func))
  {}

  /** An envelope is accepted for one contract, one function and one caller at most. */
  lemma AcceptanceBinds(codec: Codec, text: string, c1: string, f1: string, a1: string, c2: string, f2: string,
      a2: string)
    requires VerifySorobanTx(codec, text, c1, f1, a1) == TxAccepted
    ensures VerifySorobanTx(codec, text, c2, f2, a2) == TxAccepted <==> c1 == c2 && f1 == f2 && a1 == a2
  {}

  /** A built envelope determines what it was built from, and is accepted for nothing else. */
  lemma BuiltIsAcceptedForNothingElse(codec: Codec, contractID: string, objectIDHex: string, caller: string,
      c: string, f: string, a: string)
    requires codec.Lawful() && BuildApproveTransaction(codec, contractID, objectIDHex, caller).Some?
    ensures var text := BuildApproveTransaction(codec, contractID, objectIDHex, caller).value;
      VerifySorobanTx(codec, text, c, f, a) == TxAccepted
      <==> c == contractID && f == "approve" && a == caller
  {
    hide VerifySorobanTx, BuildApproveTransaction;
    BuiltIsAccepted(codec, contractID, objectIDHex, caller);
    AcceptanceBinds(codec, BuildApproveTransaction(codec, contractID, objectIDHex, caller).value,
      contractID, "approve", caller, c, f, a);
  }

  // ---- the simulation's verdict ----

  /** A parsed answer: whether it is a JSON-RPC error, the execution error, and the error of each result;
      an empty text is no error. */
  datatype RpcResponse = RpcResponse(rpcError: bool, resultError: string, resultErrors: seq<string>)

  datatype SimVerdict = SimApproved | SimDenied | SimError

  function SimulationVerdict(answer: Option<RpcResponse>): (v: SimVerdict) {
    match answer
    case None => SimError
    case Some(resp) =>
      if resp.rpcError then SimError
      else if resp.resultError != "" then SimDenied
      else if resp.resultErrors == [] then SimError
      else if exists i | 0 <= i < |resp.resultErrors| :: resp.resultErrors[i] != "" then SimDenied
      else SimApproved
  }

  /** The decision part as it runs, looking at the results one by one. */
  method SimulateSorobanTx(answer: Option<RpcResponse>) returns (v: SimVerdict)
    ensures v == SimulationVerdict(answer)
    ensures v == SimApproved <==>
      && answer.Some? && !answer.value.rpcError && answer.value.resultError == "" && answer.value.resultErrors != []
      && forall i | 0 <= i < |answer.value.resultErrors| :: answer.value.resultErrors[i] == ""
    ensures v == SimError <==>
      || answer == None || answer.value.rpcError
      || (answer.value.resultError == "" && answer.value.resultErrors == [])
  {
    if answer == None || answer.value.rpcError {
      return SimError;
    }
    var resp := answer.value;
    if resp.resultError != "" {
      return SimDenied;
    }
    if |resp.resultErrors| == 0 {
      return SimError;
    }
    for i := 0 to |resp.resultErrors|
      invariant forall j | 0 <= j < i :: resp.resultErrors[j] == ""
    {
      if resp.resultErrors[i] != "" {
        return SimDenied;
      }
    }
    return SimApproved;
  }
}
