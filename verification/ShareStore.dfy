/** The share bucket and the requests that change it: POST /store, which checks and then saves in two
    separate transactions, and DELETE /shares. */
module ShareStore {
  import opened Basics
  import Crypto

  /** A stored share. The database returns the zero record for a missing key, so a nil ciphertext is the
      sign for "not found". */
  datatype Record = Record(ephemeralPub: Bytes, ciphertext: Option<Bytes>, nonce: Bytes)

  const ZERO_RECORD := Record([], None, [])

  type Bucket = map<string, Record>

  function Lookup(b: Bucket, key: string): (r: Option<Record>) {
    if key in b then Some(b[key]) else None
  }

  /** What Load calls existing. */
  predicate Exists(b: Bucket, key: string) {
    key in b && b[key].ciphertext.Some?
  }

  /** Every transaction succeeds or fails as a whole; the ioOk parameters say which. */
  class BoltStore {
    var bucket: Bucket

    constructor ()
      ensures bucket == map[]
    {
      bucket := map[];
    }

    method Save(key: string, share: Record, ioOk: bool) returns (ok: bool)
      modifies this
      ensures ok == ioOk && bucket == if ioOk then old(bucket)[key := share] else old(bucket)
    {
      ok := ioOk;
      if ioOk {
        bucket := bucket[key := share];
      }
    }

    method Load(key: string, ioOk: bool) returns (share: Record, exists_: bool, ok: bool)
      ensures ok == ioOk && exists_ == (ioOk && Exists(bucket, key))
      ensures exists_ ==> share == bucket[key]
    {
      share := ZERO_RECORD;
      if !ioOk {
        return share, false, false;
      }
      if key in bucket {
        share := bucket[key];
      }
      return share, share.ciphertext.Some?, true;
    }

    method Delete(key: string, ioOk: bool) returns (ok: bool)
      modifies this
      ensures ok == ioOk && bucket == if ioOk then old(bucket) - {key} else old(bucket)
    {
      ok := ioOk;
      if ioOk {
        bucket := bucket - {key};
      }
    }

    /** One tick for every key visited. */
    method Count() returns (count: nat)
      ensures count == |bucket|
    {
      count := 0;
      var left := bucket.Keys;
      while left != {}
        invariant left <= bucket.Keys && count + |left| == |bucket.Keys|
        decreases left
      {
        var k :| k in left;
        left := left - {k};
        count := count + 1;
      }
      assert |bucket.Keys| == |bucket|;
    }

    /** The keys, each once. */
    method ListKeys() returns (keys: seq<string>)
      ensures Distinct(keys) && forall k :: k in keys <==> k in bucket
      ensures |keys| == |bucket|
    {
      keys := [];
      var left := bucket.Keys;
      while left != {}
        invariant left <= bucket.Keys && |keys| + |left| == |bucket.Keys|
        invariant forall k :: k in keys <==> k in bucket.Keys - left
        invariant Distinct(keys)
        decreases left
      {
        var k :| k in left;
        assert k !in keys;
        assert forall i | 0 <= i < |keys| :: keys[i] in keys;
        left := left - {k};
        keys := keys + [k];
      }
      assert |bucket.Keys| == |bucket|;
    }
  }

  // ---- keys ----

  function StoreKey(contractID: string, objectID: string): (key: string) {
    contractID + "_" + objectID
  }

  /** Contract ids without an underscore, such as SEP-0023 strkeys, never share a key across pairs. */
  lemma StoreKeyInjective(c1: string, o1: string, c2: string, o2: string)
    requires '_' !in c1 && '_' !in c2
    ensures StoreKey(c1, o1) == StoreKey(c2, o2) <==> c1 == c2 && o1 == o2
  {
    if StoreKey(c1, o1) == StoreKey(c2, o2) {
      Crypto.JoinInjective('_', c1, o1, c2, o2);
    }
  }

  // ---- requests ----

  /** The body of POST /store and the value of its X-Overwrite header. */
  datatype StoreRequest = StoreRequest(objectID: string, contractID: string, ephemeralPubKey: string,
    ciphertext: string, nonce: string, overwrite: string)

  datatype StoreReply = Stored | BadRequest | Conflict | InternalError

  datatype Entry = Entry(key: string, record: Record)

  function RequestKey(req: StoreRequest): (key: string) {
    StoreKey(req.contractID, req.objectID)
  }

  function ReadRequest(req: StoreRequest): (r: Option<Entry>) {
    if req.objectID == "" || req.contractID == "" || req.ephemeralPubKey == "" || req.ciphertext == ""
      || req.nonce == ""
    then None
    else match (HexDecode(req.ephemeralPubKey), HexDecode(req.ciphertext), HexDecode(req.nonce))
      case (Some(e), Some(c), Some(n)) => Some(Entry(RequestKey(req), Record(e, Some(c), n)))
      case _ => None
  }

  datatype Checked = Refused(reply: StoreReply) | Admitted(entry: Entry)

  /** Validation and the write-once check. The error of Load is dropped, so a failed read counts as "no
      share there". */
  function Check(b: Bucket, req: StoreRequest, loadOk: bool): (r: Checked) {
    match ReadRequest(req)
    case None => Refused(BadRequest)
    case Some(entry) =>
      if req.overwrite != "true" && loadOk && Exists(b, entry.key) then Refused(Conflict) else Admitted(entry)
  }

  datatype Op =
    | Store(req: StoreRequest, loadOk: bool, saveOk: bool)
    | Purge(contractID: string, objectID: string, deleteOk: bool)

  datatype Applied = Applied(bucket: Bucket, reply: StoreReply)

  /** A whole request with no other in between. */
  function Apply(b: Bucket, op: Op): (r: Applied) {
    match op
    case Purge(c, o, ok) => if ok then Applied(b - {StoreKey(c, o)}, Stored) else Applied(b, InternalError)
    case Store(req, loadOk, saveOk) =>
      match Check(b, req, loadOk)
      case Refused(reply) => Applied(b, reply)
      case Admitted(entry) =>
        if saveOk then Applied(b[entry.key := entry.record], Stored) else Applied(b, InternalError)
  }

  method HandleStoreShare(store: BoltStore, req: StoreRequest, loadOk: bool, saveOk: bool) returns (reply: StoreReply)
    modifies store
    ensures Applied(store.bucket, reply) == Apply(old(store.bucket), Store(req, loadOk, saveOk))
  {
    if req.objectID == "" || req.contractID == "" || req.ephemeralPubKey == "" || req.ciphertext == ""
      || req.nonce == ""
    {
      return BadRequest;
    }
    var ephem := HexDecode(req.ephemeralPubKey);
    if ephem == None {
      return BadRequest;
    }
    var cipher := HexDecode(req.ciphertext);
    if cipher == None {
      return BadRequest;
    }
    var nonce := HexDecode(req.nonce);
    if nonce == None {
      return BadRequest;
    }
    var key := req.contractID + "_" + req.objectID;
    if req.overwrite != "true" {
      var _, exists_, _ := store.Load(key, loadOk);
      if exists_ {
        return Conflict;
      }
    }
    var ok := store.Save(key, Record(ephem.value, Some(cipher.value), nonce.value), saveOk);
    reply := if ok then Stored else InternalError;
  }

  method HandlePurgeShares(store: BoltStore, contractID: string, objectID: string, deleteOk: bool)
    returns (reply: StoreReply)
    modifies store
    ensures Applied(store.bucket, reply) == Apply(old(store.bucket), Purge(contractID, objectID, deleteOk))
    ensures reply == if deleteOk then Stored else InternalError
    ensures store.bucket == old(store.bucket) - if deleteOk then {contractID + "_" + objectID} else {}
  {
    var ok := store.Delete(contractID + "_" + objectID, deleteOk);
    reply := if ok then Stored else InternalError;
  }

  /** Which reply a store request gets, and what it leaves. */
  lemma StoreReplyExactly(b: Bucket, req: StoreRequest, loadOk: bool, saveOk: bool)
    ensures var a := Apply(b, Store(req, loadOk, saveOk));
      var key := req.contractID + "_" + req.objectID;
      var wellFormed := req.objectID != "" && req.contractID != "" && req.ephemeralPubKey != "" && req.ciphertext != ""
        && req.nonce != "" && HexDecode(req.ephemeralPubKey).Some? && HexDecode(req.ciphertext).Some?
        && HexDecode(req.nonce).Some?;
      var conflict := req.overwrite != "true" && loadOk && key in b && b[key].ciphertext.Some?;
      && (a.reply == BadRequest <==> !wellFormed)
      && (a.reply == Conflict <==> wellFormed && conflict)
      && (a.reply == InternalError <==> wellFormed && !conflict && !saveOk)
      && (a.reply == Stored <==> wellFormed && !conflict && saveOk)
      && a.bucket == if a.reply != Stored then b else b[key := Record(HexDecode(req.ephemeralPubKey).value,
           Some(HexDecode(req.ciphertext).value), HexDecode(req.nonce).value)]
  {
    hide HexDecode;
  }

  // ---- write-once over histories of whole requests ----

  ghost function After(ops: seq<Op>): (b: Bucket) {
    if ops == [] then map[] else Apply(After(ops[..|ops| - 1]), ops[|ops| - 1]).bucket
  }

  /** The last request of the history stored a share under the key. */
  ghost predicate LastStores(ops: seq<Op>, key: string)
    requires ops != []
  {
    var op := ops[|ops| - 1];
    op.Store? && RequestKey(op.req) == key && Apply(After(ops[..|ops| - 1]), op).reply == Stored
  }

  ghost predicate LastPurges(ops: seq<Op>, key: string)
    requires ops != []
  {
    var op := ops[|ops| - 1];
    op.Purge? && StoreKey(op.contractID, op.objectID) == key && op.deleteOk
  }

  /** Asked to overwrite, or not told that there was something to overwrite. */
  predicate Blind(op: Op)
    requires op.Store?
  {
    op.req.overwrite == "true" || !op.loadOk
  }

  ghost function SentRecord(op: Op): (r: Option<Record>)
    requires op.Store?
  {
    match ReadRequest(op.req)
    case None => None
    case Some(entry) => Some(entry.record)
  }

  /** What the last accepted overwrite since the last purge sent. */
  ghost function LastOverwrite(ops: seq<Op>, key: string): (r: Option<Record>) {
    if ops == [] || LastPurges(ops, key) then None
    else if LastStores(ops, key) && Blind(ops[|ops| - 1]) then SentRecord(ops[|ops| - 1])
    else LastOverwrite(ops[..|ops| - 1], key)
  }

  /** What the first accepted store since the last purge sent. */
  ghost function FirstStore(ops: seq<Op>, key: string): (r: Option<Record>) {
    if ops == [] || LastPurges(ops, key) then None
    else
      var earlier := FirstStore(ops[..|ops| - 1], key);
      if earlier == None && LastStores(ops, key) then SentRecord(ops[|ops| - 1]) else earlier
  }

  /** In every history the value under a key is that of the last accepted overwrite, or else of the first
      accepted store since the last purge. */
  lemma {:induction false} WriteOnce(ops: seq<Op>, key: string)
    ensures Lookup(After(ops), key)
      == if LastOverwrite(ops, key).Some? then LastOverwrite(ops, key) else FirstStore(ops, key)
    ensures FirstStore(ops, key).Some? <==> key in After(ops)
    ensures key in After(ops) ==> Exists(After(ops), key)
  {
    if ops != [] {
      WriteOnce(ops[..|ops| - 1], key);
    }
  }

  // ---- write-once as the header promises it ----

  /** On a key that is taken, a well-formed store that does not ask to overwrite is accepted exactly when the read
      of its check failed, and then it replaces the record. */
  lemma AcceptedWhenReadFails(b: Bucket, req: StoreRequest, loadOk: bool)
    requires ReadRequest(req).Some? && req.overwrite != "true" && Exists(b, RequestKey(req))
    ensures var a := Apply(b, Store(req, loadOk, true));
      && (a.reply == Stored <==> !loadOk)
      && a.bucket == if loadOk then b else b[RequestKey(req) := ReadRequest(req).value.record]
  {
    hide HexDecode;
  }

  /** What the last accepted store since the last purge sent, of those that asked to overwrite. */
  ghost function LastAskedOverwrite(ops: seq<Op>, key: string): (r: Option<Record>) {
    if ops == [] || LastPurges(ops, key) then None
    else if LastStores(ops, key) && ops[|ops| - 1].req.overwrite == "true" then SentRecord(ops[|ops| - 1])
    else LastAskedOverwrite(ops[..|ops| - 1], key)
  }

  /** The promise: the last accepted store that asked to overwrite, or else the first accepted one. */
  ghost predicate StrictlyWriteOnce(ops: seq<Op>, key: string) {
    Lookup(After(ops), key)
      == if LastAskedOverwrite(ops, key).Some? then LastAskedOverwrite(ops, key) else FirstStore(ops, key)
  }

  /** The last request of the history did not ask to overwrite, was accepted because its read failed, and left
      another value under a key that was taken. */
  ghost predicate LastReplacesUnasked(ops: seq<Op>, key: string)
    requires ops != []
  {
    var op, before := ops[|ops| - 1], After(ops[..|ops| - 1]);
    && LastStores(ops, key) && op.req.overwrite != "true" && !op.loadOk
    && key in before && SentRecord(op) != Some(before[key])
  }

  /** What one more request does to the promise. */
  lemma PromiseAfterOneMore(ops: seq<Op>, key: string)
    requires ops != [] && StrictlyWriteOnce(ops[..|ops| - 1], key)
    ensures StrictlyWriteOnce(ops, key) <==> !LastReplacesUnasked(ops, key)
  {
    hide HexDecode;
    var earlier := ops[..|ops| - 1];
    WriteOnce(earlier, key);
    AskedIsPresent(earlier, key);
  }

  lemma {:induction false} AskedIsPresent(ops: seq<Op>, key: string)
    ensures LastAskedOverwrite(ops, key).Some? ==> key in After(ops)
  {
    if ops != [] {
      AskedIsPresent(ops[..|ops| - 1], key);
    }
  }

  /** The promise holds all along a history exactly when no request in it replaced a value unasked. */
  lemma {:induction false} StrictlyWriteOnceExactlyWhen(ops: seq<Op>, key: string)
    ensures (forall n | 0 <= n <= |ops| :: StrictlyWriteOnce(ops[..n], key))
      <==> (forall n | 0 < n <= |ops| :: !LastReplacesUnasked(ops[..n], key))
  {
    hide StrictlyWriteOnce, LastReplacesUnasked;
    assert ops[..|ops|] == ops;
    if ops == [] {
      NothingIsStrict(key);
    } else {
      var earlier := ops[..|ops| - 1];
      StrictlyWriteOnceExactlyWhen(earlier, key);
      assert forall n | 0 <= n <= |earlier| :: ops[..n] == earlier[..n];
      assert (forall n | 0 <= n <= |ops| :: StrictlyWriteOnce(ops[..n], key))
        <==> (forall n | 0 <= n <= |earlier| :: StrictlyWriteOnce(earlier[..n], key)) && StrictlyWriteOnce(ops, key);
      assert (forall n | 0 < n <= |ops| :: !LastReplacesUnasked(ops[..n], key))
        <==> (forall n | 0 < n <= |earlier| :: !LastReplacesUnasked(earlier[..n], key))
             && !LastReplacesUnasked(ops, key);
      assert earlier[..|earlier|] == earlier;
      if StrictlyWriteOnce(earlier, key) {
        PromiseAfterOneMore(ops, key);
      }
    }
  }

  lemma NothingIsStrict(key: string)
    ensures StrictlyWriteOnce([], key)
  {}

  /** And a failed read does break it: two plain stores under one key, the check of the second without an answer
      from the database, leave the second value. */
  lemma FailedReadBreaksPromise()
    ensures var first := Store(StoreRequest("o", "c", "00", "00", "00", ""), true, true);
      var second := Store(StoreRequest("o", "c", "00", "01", "00", ""), false, true);
      !StrictlyWriteOnce([first, second], "c_o")
  {
    var first := Store(StoreRequest("o", "c", "00", "00", "00", ""), true, true);
    var second := Store(StoreRequest("o", "c", "00", "01", "00", ""), false, true);
    var both := [first, second];
    assert both[..|both| - 1] == [first] && [first][..0] == [];
    OneByte();
    assert RequestKey(first.req) == "c_o" == RequestKey(second.req);
    assert After([]) == map[];
    assert After([first]) == map["c_o" := Record([0], Some([0]), [0])];
    assert StrictlyWriteOnce([first], "c_o");
    assert LastReplacesUnasked(both, "c_o");
    PromiseAfterOneMore(both, "c_o");
  }

  lemma OneByte()
    ensures HexDecode("00") == Some([0]) && HexDecode("01") == Some([1])
  {
    var a, b := "00", "01";
    assert HexDecode(a[2..]) == Some([]) && HexDecode(b[2..]) == Some([]);
    assert HexDigit(a[0]) == Some(0) && HexDigit(b[1]) == Some(1);
    assert [0 as byte] + [] == [0 as byte] && [1 as byte] + [] == [1 as byte];
  }

  /** Whatever is under a key was sent there by a request that named it. */
  lemma {:induction false} SentUnderItsKey(ops: seq<Op>, key: string) returns (j: nat)
    requires key in After(ops)
    ensures j < |ops| && ops[j].Store? && RequestKey(ops[j].req) == key && SentRecord(ops[j]) == Some(After(ops)[key])
  {
    if LastStores(ops, key) {
      j := |ops| - 1;
    } else {
      j := SentUnderItsKey(ops[..|ops| - 1], key);
    }
  }

  /** A refused or failed request leaves the store as it was. */
  lemma RefusedChangesNothing(b: Bucket, op: Op)
    ensures Apply(b, op).reply != Stored ==> Apply(b, op).bucket == b
  {}

  // ---- check and save as separate steps of overlapping requests ----

  /** The bucket, and what the requests between their check and their save are about to write. */
  datatype State = State(bucket: Bucket, pending: map<Tid, Entry>)

  datatype Action =
    | CheckStep(t: Tid, req: StoreRequest, loadOk: bool)
    | SaveStep(t: Tid, saveOk: bool)
    | PurgeStep(contractID: string, objectID: string, deleteOk: bool)

  datatype Outcome = Outcome(state: State, reply: Option<StoreReply>)

  function Step(st: State, a: Action): (r: Outcome) {
    match a
    case CheckStep(t, req, loadOk) =>
      if t in st.pending then Outcome(st, None)
      else (match Check(st.bucket, req, loadOk)
        case Refused(reply) => Outcome(st, Some(reply))
        case Admitted(entry) =>
          Outcome(st.(pending := st.pending[t := entry]), None))
    case SaveStep(t, saveOk) =>
      if t !in st.pending then Outcome(st, None)
      else
        var entry := st.pending[t];
        if saveOk then Outcome(State(st.bucket[entry.key := entry.record], st.pending - {t}), Some(Stored))
        else Outcome(st.(pending := st.pending - {t}), Some(InternalError))
    case PurgeStep(c, o, ok) =>
      if ok then Outcome(st.(bucket := st.bucket - {StoreKey(c, o)}), Some(Stored))
      else Outcome(st, Some(InternalError))
  }

  function Run(st: State, acts: seq<Action>): (st': State)
    decreases |acts|
  {
    if acts == [] then st else Run(Step(st, acts[0]).state, acts[1..])
  }

  predicate Saves(st: State, a: Action, key: string) {
    a.SaveStep? && a.saveOk && a.t in st.pending && st.pending[a.t].key == key
  }

  predicate Purges(a: Action, key: string) {
    a.PurgeStep? && a.deleteOk && StoreKey(a.contractID, a.objectID) == key
  }

  /** Accepted ciphertexts come from non-empty hexadecimal text, so they are never nil or empty. */
  predicate FromText(r: Record) {
    r.ciphertext.Some? && r.ciphertext.value != []
  }

  ghost predicate Inv(st: State) {
    && (forall k | k in st.bucket :: FromText(st.bucket[k]))
    && (forall t | t in st.pending :: FromText(st.pending[t].record))
  }

  lemma {:induction false} RunKeepsInv(st: State, acts: seq<Action>)
    requires Inv(st)
    ensures Inv(Run(st, acts))
    decreases |acts|
  {
    if acts != [] {
      RunKeepsInv(Step(st, acts[0]).state, acts[1..]);
    }
  }

  /** In every reachable state Load finds exactly the keys of the bucket, so the two ways of counting agree
      with the number of shares that can be loaded. */
  lemma SentinelAgreesWithMembership(acts: seq<Action>)
    ensures var b := Run(State(map[], map[]), acts).bucket;
      && (forall k :: Exists(b, k) <==> k in b)
      && |b| == |set k | k in b && Exists(b, k)|
  {
    RunKeepsInv(State(map[], map[]), acts);
    var b := Run(State(map[], map[]), acts).bucket;
    assert (set k | k in b && Exists(b, k)) == b.Keys;
  }

  /** A request handled without interruption is a check step and a save step. */
  lemma AtomicRequest(st: State, t: Tid, req: StoreRequest, loadOk: bool, saveOk: bool)
    requires t !in st.pending
    ensures var checked := Step(st, CheckStep(t, req, loadOk));
      var saved := Step(checked.state, SaveStep(t, saveOk));
      var whole := Apply(st.bucket, Store(req, loadOk, saveOk));
      && saved.state == st.(bucket := whole.bucket)
      && Some(whole.reply) == if checked.reply.Some? then checked.reply else saved.reply
  {
    if Check(st.bucket, req, loadOk).Admitted? {
      var p := Step(st, CheckStep(t, req, loadOk)).state.pending[t];
      assert st.pending[t := p] - {t} == st.pending;
    }
  }

  lemma {:induction false} KeyStays(st: State, acts: seq<Action>, key: string)
    requires key in st.bucket && forall a | a in acts :: !Purges(a, key)
    ensures key in Run(st, acts).bucket
    decreases |acts|
  {
    if acts != [] {
      assert acts[0] in acts;
      KeyStays(Step(st, acts[0]).state, acts[1..], key);
    }
  }

  /** A store that does not overwrite, and whose check runs after a save of the same key and before any
      purge of it, still gets the conflict, whatever happens in between. */
  lemma LateCheckConflicts(st: State, save: Action, between: seq<Action>, t: Tid, req: StoreRequest)
    requires Inv(st) && ReadRequest(req).Some? && req.overwrite != "true"
    requires Saves(st, save, RequestKey(req))
    requires forall a | a in between :: !Purges(a, RequestKey(req))
    requires t !in Run(Step(st, save).state, between).pending
    ensures var st' := Run(Step(st, save).state, between);
      Step(st', CheckStep(t, req, true)) == Outcome(st', Some(Conflict))
  {
    var first := Step(st, save).state;
    KeyStays(first, between, RequestKey(req));
    assert Inv(first);
    RunKeepsInv(first, between);
  }

  lemma {:induction false} RunOneMore(st: State, acts: seq<Action>)
    requires acts != []
    ensures var n := |acts| - 1; Run(st, acts) == Step(Run(st, acts[..n]), acts[n]).state
    decreases |acts|
  {
    if |acts| > 1 {
      RunOneMore(Step(st, acts[0]).state, acts[1..]);
      assert acts[1..][..|acts| - 2] == acts[..|acts| - 1][1..];
    }
  }

  /** A value that was not there at first is that of the last save. */
  lemma {:induction false} LastSaveHolds(st: State, acts: seq<Action>, key: string) returns (j: nat)
    requires key !in st.bucket && key in Run(st, acts).bucket
    ensures j < |acts| && Saves(Run(st, acts[..j]), acts[j], key)
    ensures Run(st, acts[..j]).pending[acts[j].t].record == Run(st, acts).bucket[key]
    ensures forall k | j < k < |acts| :: !Saves(Run(st, acts[..k]), acts[k], key)
    decreases |acts|
  {
    var n := |acts| - 1;
    RunOneMore(st, acts);
    if Saves(Run(st, acts[..n]), acts[n], key) {
      j := n;
    } else {
      hide Run;
      j := LastSaveHolds(st, acts[..n], key);
      assert forall k | 0 <= k <= n :: acts[..n][..k] == acts[..k];
    }
  }

  lemma {:induction false} OwnRequestStays(st: State, acts: seq<Action>, t: Tid)
    requires t in st.pending && forall a | a in acts :: !(a.SaveStep? && a.t == t)
    ensures t in Run(st, acts).pending && Run(st, acts).pending[t] == st.pending[t]
    decreases |acts|
  {
    if acts != [] {
      assert acts[0] in acts;
      OwnRequestStays(Step(st, acts[0]).state, acts[1..], t);
    }
  }

  /** Only overlapping requests replace each other. If a store that does not overwrite is about to save on a key
      that is taken, then the value it replaces was saved by the last of the other requests that saved under the key
      since its own check. */
  lemma ReplacedOnlyByOverlap(st: State, t: Tid, req: StoreRequest, between: seq<Action>) returns (j: nat)
    requires Inv(st) && t !in st.pending && req.overwrite != "true"
    requires Check(st.bucket, req, true).Admitted?
    requires forall a | a in between :: !(a.SaveStep? && a.t == t)
    requires RequestKey(req) in Run(Step(st, CheckStep(t, req, true)).state, between).bucket
    ensures var start, key := Step(st, CheckStep(t, req, true)).state, RequestKey(req);
      var end := Run(start, between);
      && j < |between| && Saves(Run(start, between[..j]), between[j], key) && between[j].t != t
      && Run(start, between[..j]).pending[between[j].t].record == end.bucket[key]
      && (forall k | j < k < |between| :: !Saves(Run(start, between[..k]), between[k], key))
      && t in end.pending && Step(end, SaveStep(t, true)).state.bucket == end.bucket[key := end.pending[t].record]
  {
    hide Run, HexDecode;
    var start := Step(st, CheckStep(t, req, true)).state;
    j := LastSaveHolds(start, between, RequestKey(req));
    OwnRequestStays(start, between, t);
  }

  /** The action is about another pair than the given one. */
  predicate AboutOther(a: Action, contractID: string, objectID: string) {
    match a
    case CheckStep(_, req, _) => req.contractID != contractID || req.objectID != objectID
    case SaveStep(_, _) => true
    case PurgeStep(c, o, _) => c != contractID || o != objectID
  }

  /** The contract id of the pair the action names has no underscore. */
  predicate NamesContract(a: Action) {
    match a
    case CheckStep(_, req, _) => '_' !in req.contractID
    case SaveStep(_, _) => true
    case PurgeStep(c, _, _) => '_' !in c
  }

  /** A pair without any underscore, such as a strkey and a hexadecimal object id, shares its key with no pair at
      all. */
  lemma PlainPairOwnsKey(c1: string, o1: string, c2: string, o2: string)
    requires '_' !in c1 && '_' !in o1
    ensures StoreKey(c1, o1) == StoreKey(c2, o2) <==> c1 == c2 && o1 == o2
  {
    var x, y := StoreKey(c1, o1), StoreKey(c2, o2);
    assert forall i | 0 <= i < |x| && x[i] == '_' :: i == |c1|;
    assert y[|c2|] == '_';
    if x == y {
      assert x[..|c1|] == c1 && y[..|c2|] == c2;
      assert x[|c1| + 1..] == o1 && y[|c2| + 1..] == o2;
    }
  }

  /** Isolation: over any run on other pairs, nothing a pair's Load could see changes. The pair must be free of
      underscores, or else only its contract id and those the others name. */
  lemma {:induction false} OtherPairsUntouched(st: State, acts: seq<Action>, contractID: string, objectID: string)
    requires '_' !in contractID && ('_' !in objectID || forall a | a in acts :: NamesContract(a))
    requires forall t | t in st.pending :: st.pending[t].key != StoreKey(contractID, objectID)
    requires forall a | a in acts :: AboutOther(a, contractID, objectID)
    ensures var key := StoreKey(contractID, objectID); Lookup(Run(st, acts).bucket, key) == Lookup(st.bucket, key)
    decreases |acts|
  {
    if acts != [] {
      var a := acts[0];
      assert a in acts;
      if a.CheckStep? {
        OwnKey(contractID, objectID, a.req.contractID, a.req.objectID);
      } else if a.PurgeStep? {
        OwnKey(contractID, objectID, a.contractID, a.objectID);
      }
      OtherPairsUntouched(Step(st, a).state, acts[1..], contractID, objectID);
    }
  }

  lemma OwnKey(c1: string, o1: string, c2: string, o2: string)
    requires '_' !in c1 && ('_' !in o1 || '_' !in c2)
    ensures StoreKey(c1, o1) == StoreKey(c2, o2) <==> c1 == c2 && o1 == o2
  {
    if '_' !in o1 {
      PlainPairOwnsKey(c1, o1, c2, o2);
    } else {
      StoreKeyInjective(c1, o1, c2, o2);
    }
  }
}
