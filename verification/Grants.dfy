/** Retrieval and the allowlist contracts together: contract calls and the steps of retrieve requests
    interleave freely, and a simulation sees the contracts as they are at its own step. */
module Grants {
  import opened Basics
  import opened Retrieve
  import opened Transaction
  import Allowlist
  import KeyRing
  import Node
  import ShareStore

  /** The contracts by address, each an instance of the allowlist, and one node. */
  datatype System = System(chain: map<string, Allowlist.Storage>, node: Node.Node)

  function StorageOf(chain: map<string, Allowlist.Storage>, contractID: string): (st: Allowlist.Storage) {
    if contractID in chain then chain[contractID] else Allowlist.EMPTY
  }

  /** The call an envelope makes, if it is a single contract call. */
  function CallOf(e: Envelope): (args: Option<InvokeArgs>) {
    match e
    case V1(Some(tx)) =>
      if |tx.operations| == 1 && tx.operations[0].InvokeHostFunction? && tx.operations[0].hostFunction.InvokeContract?
      then tx.operations[0].hostFunction.args else None
    case _ => None
  }

  /** The account that the arguments of an approve call name. */
  function ApprovedAccount(codec: Codec, call: InvokeArgs): (account: Option<string>) {
    if call.functionName != "approve" || |call.args| != 2 || !call.args[0].ScBytes? || !call.args[1].ScAddr? then None
    else AddressText(codec, call.args[1].address)
  }

  /** The account that the call in a transaction text names, if it is a well-formed approve call. */
  function NamedAccount(codec: Codec, text: string): (account: Option<string>) {
    match codec.unmarshal(text)
    case None => None
    case Some(env) =>
      match CallOf(env)
      case None => None
      case Some(call) => ApprovedAccount(codec, call)
  }

  /** What the RPC answers for a transaction: approve either returns or panics. */
  function Simulate(codec: Codec, chain: map<string, Allowlist.Storage>, text: string)
    : (answer: Option<RpcResponse>)
  {
    var failure := Some(RpcResponse(false, "failed", []));
    match codec.unmarshal(text)
    case None => Some(RpcResponse(true, "", []))
    case Some(env) =>
      match CallOf(env)
      case None => failure
      case Some(call) =>
        match (AddressText(codec, call.contract), ApprovedAccount(codec, call))
        case (Some(contract), Some(account)) =>
          if account in StorageOf(chain, contract).allowed then Some(RpcResponse(false, "", [""]))
          else Some(RpcResponse(false, "ENoAccess", []))
        case _ => failure
  }

  /** Contract calls, the gate step with the simulation of that moment, if the RPC is reached and its answer can be
      read, and all other steps of the node. */
  datatype Action =
    | Contract(contractID: string, invocation: Allowlist.Invocation)
    | Ask(t: Tid, req: RetrieveRequest, quotaOk: bool, reached: bool)
    | Other(a: Node.Action)

  function NodeAction(sv: Services, sys: System, a: Action): (r: Node.Action)
    requires !a.Contract? && (a.Other? ==> !a.a.Gate?)
  {
    match a
    case Ask(t, req, quotaOk, reached) =>
      Node.Gate(t, req, quotaOk, if reached then Simulate(sv.codec, sys.chain, req.txXDR) else None)
    case Other(na) => na
  }

  function Step(sv: Services, sys: System, a: Action): (sys': System) {
    if a.Other? && a.a.Gate? then sys
    else match a
      case Contract(c, i) => sys.(chain := sys.chain[c := Allowlist.Invoke(StorageOf(sys.chain, c), i)])
      case _ => sys.(node := Node.Step(sv, sys.node, NodeAction(sv, sys, a)).node)
  }

  function After(sv: Services, start: Node.Node, acts: seq<Action>): (sys: System) {
    if acts == [] then System(map[], start) else Step(sv, After(sv, start, acts[..|acts| - 1]), acts[|acts| - 1])
  }

  /** The calls of one contract, in order. */
  ghost function CallsOn(acts: seq<Action>, contractID: string): (calls: seq<Allowlist.Invocation>) {
    if acts == [] then []
    else
      var last := acts[|acts| - 1];
      CallsOn(acts[..|acts| - 1], contractID)
        + if last.Contract? && last.contractID == contractID then [last.invocation] else []
  }

  lemma {:induction false} ChainFollowsCalls(sv: Services, start: Node.Node, acts: seq<Action>, contractID: string)
    ensures StorageOf(After(sv, start, acts).chain, contractID) == Allowlist.After(CallsOn(acts, contractID))
  {
    if acts != [] {
      var earlier, last := acts[..|acts| - 1], acts[|acts| - 1];
      ChainFollowsCalls(sv, start, earlier, contractID);
      var calls := CallsOn(earlier, contractID);
      if last.Contract? && last.contractID == contractID {
        assert (calls + [last.invocation])[..|calls|] == calls;
      } else {
        assert calls + [] == calls;
      }
    }
  }

  /** The last accepted add or remove of an account, on the contract, was an add. */
  ghost predicate GrantedAt(acts: seq<Action>, j: nat, contractID: string, account: string)
    requires j <= |acts|
  {
    Allowlist.LastGrant(CallsOn(acts[..j], contractID), account) == Some(true)
  }

  /** Whatever envelope a request carries, passing the gates means that the account its call names is allowed by
      the contract of the request at that moment. */
  lemma GatesMeanNamedIsAllowed(sv: Services, chain: map<string, Allowlist.Storage>, req: RetrieveRequest,
      quotaOk: bool)
    requires Gates(sv, req, quotaOk, Simulate(sv.codec, chain, req.txXDR)).None?
    ensures NamedAccount(sv.codec, req.txXDR).Some?
    ensures NamedAccount(sv.codec, req.txXDR).value in StorageOf(chain, req.contractID).allowed
    ensures VerifySorobanTx(sv.codec, req.txXDR, req.contractID, "approve", req.callerAddress) == TxAccepted
  {
    hide HexDecode;
  }

  /** An answer that lets every request through that gets as far as the simulation. */
  const APPROVAL := Some(RpcResponse(false, "", [""]))

  /** The node does not compare the named account with the caller, so approval speaks about the caller exactly when
      the call in the envelope names the caller, or is no approve call that could succeed. */
  lemma ApprovalSpeaksOfCaller(sv: Services, req: RetrieveRequest, quotaOk: bool)
    requires Gates(sv, req, quotaOk, APPROVAL).None?
    ensures (forall chain :: Gates(sv, req, quotaOk, Simulate(sv.codec, chain, req.txXDR)).None?
               ==> req.callerAddress in StorageOf(chain, req.contractID).allowed)
      <==> NamedAccount(sv.codec, req.txXDR) in {None, Some(req.callerAddress)}
  {
    hide HexDecode, VerifySorobanTx;
    var named := NamedAccount(sv.codec, req.txXDR);
    if named == None || named == Some(req.callerAddress) {
      forall chain | Gates(sv, req, quotaOk, Simulate(sv.codec, chain, req.txXDR)).None?
        ensures req.callerAddress in StorageOf(chain, req.contractID).allowed
      {
        GatesMeanNamedIsAllowed(sv, chain, req, quotaOk);
      }
    } else {
      var chain := map[req.contractID := Allowlist.EMPTY.(allowed := {named.value})];
      AllowedNamePasses(sv, chain, req, quotaOk);
      assert req.callerAddress !in StorageOf(chain, req.contractID).allowed;
    }
  }

  /** A request that only waits for approval is let through when the named account is allowed. */
  lemma AllowedNamePasses(sv: Services, chain: map<string, Allowlist.Storage>, req: RetrieveRequest, quotaOk: bool)
    requires Gates(sv, req, quotaOk, APPROVAL).None?
    requires NamedAccount(sv.codec, req.txXDR).Some?
    requires NamedAccount(sv.codec, req.txXDR).value in StorageOf(chain, req.contractID).allowed
    ensures Gates(sv, req, quotaOk, Simulate(sv.codec, chain, req.txXDR)).None?
  {
    hide HexDecode;
  }

  /** An envelope the client's builder made names its caller. */
  lemma BuiltNamesCaller(codec: Codec, contractID: string, objectIDHex: string, caller: string)
    requires codec.Lawful() && BuildApproveTransaction(codec, contractID, objectIDHex, caller).Some?
    ensures NamedAccount(codec, BuildApproveTransaction(codec, contractID, objectIDHex, caller).value) == Some(caller)
  {
    hide HexDecode, VerifySorobanTx;
    BuiltIsAccepted(codec, contractID, objectIDHex, caller);
    var a := codec.decodeAccount(caller).value;
    assert CopyTo32(a) == a;
  }

  /** The envelope of one account whose call names another is accepted as the former's. */
  lemma OtherNameIsAccepted(codec: Codec, contractID: string, object_: Bytes, caller: string, other: string)
    requires codec.Lawful() && codec.decodeContract(contractID).Some?
    requires codec.decodeAccount(caller).Some? && codec.decodeAccount(other).Some?
    requires codec.marshal(EnvelopeNaming(codec, contractID, object_, caller, other)).Some?
    ensures var text := codec.marshal(EnvelopeNaming(codec, contractID, object_, caller, other)).value;
      && VerifySorobanTx(codec, text, contractID, "approve", caller) == TxAccepted
      && NamedAccount(codec, text) == Some(other)
  {}

  /** An approve call about one account in a transaction of another. */
  function EnvelopeNaming(codec: Codec, contractID: string, object_: Bytes, caller: string, other: string)
    : (e: Envelope)
    requires codec.decodeContract(contractID).Some?
    requires codec.decodeAccount(caller).Some? && codec.decodeAccount(other).Some?
  {
    V1(Some(Tx(Ed25519(codec.decodeAccount(caller).value), [InvokeHostFunction(InvokeContract(Some(InvokeArgs(
      ContractAddress(Some(codec.decodeContract(contractID).value)), "approve",
      [ScBytes(object_), ScAddr(AccountAddress(Some(codec.decodeAccount(other).value)))]))))])))
  }

  /** Every request past its gates asked at a moment when the account its call names was granted. */
  lemma {:induction false} TasksNameGranted(sv: Services, start: Node.Node, acts: seq<Action>, t: Tid)
    returns (j: nat)
    requires start.tasks == map[] && t in After(sv, start, acts).node.tasks
    ensures var req := After(sv, start, acts).node.tasks[t].req;
      && j < |acts| && acts[j].Ask? && acts[j].t == t && acts[j].req == req
      && NamedAccount(sv.codec, req.txXDR).Some?
      && GrantedAt(acts, j, req.contractID, NamedAccount(sv.codec, req.txXDR).value)
      && VerifySorobanTx(sv.codec, req.txXDR, req.contractID, "approve", req.callerAddress) == TxAccepted
  {
    hide Gates, Simulate, NamedAccount, VerifySorobanTx, Open, KeyRing.Step, ShareStore.Step;
    var n := |acts| - 1;
    var earlier, last := acts[..n], acts[n];
    var before := After(sv, start, earlier);
    if t in before.node.tasks {
      j := TasksNameGranted(sv, start, earlier, t);
      assert earlier[..j] == acts[..j];
    } else {
      j := n;
      assert last.reached by {
        SimulationDecides(sv, last.req, last.quotaOk, None);
      }
      GatesMeanNamedIsAllowed(sv, before.chain, last.req, last.quotaOk);
      ChainFollowsCalls(sv, start, earlier, last.req.contractID);
      Allowlist.AllowedByLastGrant(CallsOn(earlier, last.req.contractID), NamedAccount(sv.codec, last.req.txXDR).value);
    }
  }

  /** A share is released only if the last accepted add or remove of the account that the request's call names,
      before the simulation of that very request, was an add, whatever envelopes are sent and however contract
      calls and other requests interleave. */
  lemma ReleasedOnlyIfNamedWasGranted(sv: Services, start: Node.Node, acts: seq<Action>, t: Tid, hex: string)
    returns (j: nat)
    requires start.tasks == map[]
    requires Node.Step(sv, After(sv, start, acts).node, Node.Decrypt(t)).reply == Some(Node.RetrieveAnswer(Share(hex)))
    ensures j < |acts| && acts[j].Ask? && acts[j].t == t
    ensures NamedAccount(sv.codec, acts[j].req.txXDR).Some?
    ensures GrantedAt(acts, j, acts[j].req.contractID, NamedAccount(sv.codec, acts[j].req.txXDR).value)
    ensures t in After(sv, start, acts).node.tasks && After(sv, start, acts).node.tasks[t].req == acts[j].req
  {
    j := TasksNameGranted(sv, start, acts, t);
  }

  /** The client's builder made the envelope of the request, for whatever contract and caller. */
  ghost predicate CarriesBuiltEnvelope(codec: Codec, req: RetrieveRequest) {
    exists c, o, a :: BuildApproveTransaction(codec, c, o, a) == Some(req.txXDR)
  }

  /** An accepted envelope of the builder names the caller of its request. */
  lemma BuiltEnvelopeNamesCaller(codec: Codec, req: RetrieveRequest)
    requires codec.Lawful() && CarriesBuiltEnvelope(codec, req)
    requires VerifySorobanTx(codec, req.txXDR, req.contractID, "approve", req.callerAddress) == TxAccepted
    ensures NamedAccount(codec, req.txXDR) == Some(req.callerAddress)
  {
    hide VerifySorobanTx, BuildApproveTransaction, NamedAccount;
    var c, o, a :| BuildApproveTransaction(codec, c, o, a) == Some(req.txXDR);
    BuiltIsAcceptedForNothingElse(codec, c, o, a, req.contractID, "approve", req.callerAddress);
    BuiltNamesCaller(codec, c, o, a);
  }

  /** Passing the gates with a built envelope means that the caller is allowed at that moment. */
  lemma GatesMeanAllowed(sv: Services, chain: map<string, Allowlist.Storage>, req: RetrieveRequest, quotaOk: bool)
    requires sv.codec.Lawful() && CarriesBuiltEnvelope(sv.codec, req)
    requires Gates(sv, req, quotaOk, Simulate(sv.codec, chain, req.txXDR)).None?
    ensures req.callerAddress in StorageOf(chain, req.contractID).allowed
  {
    hide VerifySorobanTx, HexDecode;
    GatesMeanNamedIsAllowed(sv, chain, req, quotaOk);
    BuiltEnvelopeNamesCaller(sv.codec, req);
  }

  /** With an envelope of the client's builder a share is released only to a caller whose own last accepted add or
      remove, before the simulation of that request, was an add. Other requests may carry any envelopes. */
  lemma ReleasedOnlyIfGranted(sv: Services, start: Node.Node, acts: seq<Action>, t: Tid, hex: string)
    returns (j: nat)
    requires sv.codec.Lawful() && start.tasks == map[]
    requires Node.Step(sv, After(sv, start, acts).node, Node.Decrypt(t)).reply == Some(Node.RetrieveAnswer(Share(hex)))
    requires CarriesBuiltEnvelope(sv.codec, After(sv, start, acts).node.tasks[t].req)
    ensures j < |acts| && acts[j].Ask? && acts[j].t == t
    ensures GrantedAt(acts, j, acts[j].req.contractID, acts[j].req.callerAddress)
    ensures t in After(sv, start, acts).node.tasks && After(sv, start, acts).node.tasks[t].req == acts[j].req
  {
    hide VerifySorobanTx, NamedAccount, CarriesBuiltEnvelope;
    j := TasksNameGranted(sv, start, acts, t);
    BuiltEnvelopeNamesCaller(sv.codec, acts[j].req);
  }

  // ---- without the builder ----

  lemma AfterOneMore(sv: Services, start: Node.Node, acts: seq<Action>, a: Action)
    ensures After(sv, start, acts + [a]) == Step(sv, After(sv, start, acts), a)
  {
    assert (acts + [a])[..|acts|] == acts;
  }

  lemma CallsOneMore(acts: seq<Action>, a: Action, contractID: string)
    ensures CallsOn(acts + [a], contractID)
      == CallsOn(acts, contractID) + if a.Contract? && a.contractID == contractID then [a.invocation] else []
  {
    assert (acts + [a])[..|acts|] == acts;
  }

  /** The run in which an admin adds one account and somebody else's request names it. */
  function RunNaming(req: RetrieveRequest, admin: string, other: string): (acts: seq<Action>) {
    [Contract(req.contractID, Allowlist.Invocation(Allowlist.InitCall(admin, []), {}))]
      + [Contract(req.contractID, Allowlist.Invocation(Allowlist.AddCall(other), {admin}))]
      + [Ask(0, req, true, true)] + [Other(Node.Load(0, true))]
  }

  /** The statement about the caller is false of arbitrary envelopes: whenever a request names another account and
      has everything but approval, there is a run that releases the share to a caller who was never added. */
  lemma ReleasedThoughNeverGranted(sv: Services, start: Node.Node, req: RetrieveRequest, admin: string, other: string,
      share: Bytes)
    requires start.tasks == map[] && Gates(sv, req, true, APPROVAL).None?
    requires NamedAccount(sv.codec, req.txXDR) == Some(other) && other != req.callerAddress
    requires Node.HoldsShare(sv, start, ShareStore.StoreKey(req.contractID, req.objectID), share)
    ensures var acts := RunNaming(req, admin, other);
      && Node.Step(sv, After(sv, start, acts).node, Node.Decrypt(0)).reply
           == Some(Node.RetrieveAnswer(Share(HexEncode(share))))
      && Allowlist.LastGrant(CallsOn(acts, req.contractID), req.callerAddress) == None
  {
    hide Gates, Simulate, NamedAccount, HexEncode;
    var c := req.contractID;
    var init := Contract(c, Allowlist.Invocation(Allowlist.InitCall(admin, []), {}));
    var add := Contract(c, Allowlist.Invocation(Allowlist.AddCall(other), {admin}));
    AfterOneMore(sv, start, [], init);
    AfterOneMore(sv, start, [init], add);
    AfterOneMore(sv, start, [init] + [add], Ask(0, req, true, true));
    AfterOneMore(sv, start, [init] + [add] + [Ask(0, req, true, true)], Other(Node.Load(0, true)));
    AllowedNamePasses(sv, After(sv, start, [init] + [add]).chain, req, true);
    CallsOneMore([], init, c);
    CallsOneMore([init], add, c);
    CallsOneMore([init] + [add], Ask(0, req, true, true), c);
    CallsOneMore([init] + [add] + [Ask(0, req, true, true)], Other(Node.Load(0, true)), c);
    NeverAdded(init.invocation, add.invocation, req.callerAddress);
  }

  lemma NeverAdded(init: Allowlist.Invocation, add: Allowlist.Invocation, account: string)
    requires init.call.InitCall? && add.call.AddCall? && add.call.account != account
    ensures Allowlist.LastGrant([init] + [add], account) == None
  {
    var both := [init] + [add];
    assert both[..|both| - 1] == [init] && both[|both| - 1] == add;
    assert [init][..0] == [] && Allowlist.LastGrant([], account) == None;
    assert Allowlist.LastGrant([init], account) == None;
  }
}
