/** The SE02 container as functions on bytes: how it is printed, how the decoder reads it, and
    what the two have to do with each other. */
module Container {
  import opened Basics
  import opened Crypto

  const CHUNK_SIZE := 4194304
  const MAX_CHUNKS := 10000
  const MAGIC_SIZE := 4
  const V1_MAGIC: Bytes := [0x53, 0x45, 0x30, 0x31]
  const V2_MAGIC: Bytes := [0x53, 0x45, 0x30, 0x32]

  // ---- printing ----

  /** Every size is cast to uint32 on the way out. */
  function SizeTable(chunks: seq<Bytes>): (r: Bytes) {
    if chunks == [] then [] else Le32(|chunks[0]| % U32) + SizeTable(chunks[1..])
  }

  function Print(chunks: seq<Bytes>): (r: Bytes) {
    Le32(|chunks| % U32) + SizeTable(chunks) + Concat(chunks)
  }

  // ---- parsing ----

  datatype Taken<T> = Taken(items: seq<T>, rest: Bytes)

  function TakeSizes(b: Bytes, n: nat): (r: Option<Taken<uint32>>)
    ensures r.Some? <==> |b| >= 4 * n
    ensures r.Some? ==> |r.value.items| == n
  {
    if n == 0 then Some(Taken([], b))
    else if |b| < 4 then None
    else match TakeSizes(b[4..], n - 1)
      case None => None
      case Some(t) => Some(Taken([UnLe32(b[..4])] + t.items, t.rest))
  }

  function TakeChunks(b: Bytes, sizes: seq<uint32>): (r: Option<Taken<Bytes>>) {
    if sizes == [] then Some(Taken([], b))
    else if |b| < sizes[0] then None
    else match TakeChunks(b[sizes[0]..], sizes[1..])
      case None => None
      case Some(t) => Some(Taken([b[..sizes[0]]] + t.items, t.rest))
  }

  predicate ValidCount(n: nat) {
    1 <= n <= MAX_CHUNKS
  }

  /** The decoder's reading of everything after the magic, decryption left aside. */
  function Parse(b: Bytes): (r: Option<Taken<Bytes>>) {
    if |b| < 4 || !ValidCount(UnLe32(b[..4])) then None
    else match TakeSizes(b[4..], UnLe32(b[..4]))
      case None => None
      case Some(t) => TakeChunks(t.rest, t.items)
  }

  ghost predicate SmallChunks(chunks: seq<Bytes>) {
    forall i | 0 <= i < |chunks| :: |chunks[i]| < U32
  }

  ghost function Lengths(chunks: seq<Bytes>): (r: seq<uint32>)
    requires SmallChunks(chunks)
    ensures |r| == |chunks|
  {
    if chunks == [] then [] else [|chunks[0]|] + Lengths(chunks[1..])
  }

  lemma {:induction false} TakeSizesOfTable(chunks: seq<Bytes>, rest: Bytes)
    requires SmallChunks(chunks)
    ensures TakeSizes(SizeTable(chunks) + rest, |chunks|) == Some(Taken(Lengths(chunks), rest))
  {
    hide Le32, UnLe32;
    if chunks == [] {
      assert SizeTable(chunks) + rest == rest;
    } else {
      var b := SizeTable(chunks) + rest;
      assert b[..4] == Le32(|chunks[0]|) && b[4..] == SizeTable(chunks[1..]) + rest;
      Le32RoundTrip(|chunks[0]|);
      TakeSizesOfTable(chunks[1..], rest);
    }
  }

  lemma {:induction false} TakeChunksOfConcat(chunks: seq<Bytes>, rest: Bytes)
    requires SmallChunks(chunks)
    ensures TakeChunks(Concat(chunks) + rest, Lengths(chunks)) == Some(Taken(chunks, rest))
  {
    if chunks == [] {
      assert Concat(chunks) + rest == rest;
    } else {
      var b, n := Concat(chunks) + rest, |chunks[0]|;
      assert b[..n] == chunks[0] && b[n..] == Concat(chunks[1..]) + rest;
      assert Lengths(chunks) == [n] + Lengths(chunks[1..]);
      assert Lengths(chunks)[1..] == Lengths(chunks[1..]);
      TakeChunksOfConcat(chunks[1..], rest);
      assert [chunks[0]] + chunks[1..] == chunks;
    }
  }

  /** Parsing a printed list gives the list back and leaves trailing bytes alone. */
  lemma ParsePrint(chunks: seq<Bytes>, rest: Bytes)
    requires ValidCount(|chunks|) && SmallChunks(chunks)
    ensures Parse(Print(chunks) + rest) == Some(Taken(chunks, rest))
  {
    var b := Print(chunks) + rest;
    var body := Concat(chunks) + rest;
    assert b[..4] == Le32(|chunks|) && b[4..] == SizeTable(chunks) + body;
    Le32RoundTrip(|chunks|);
    TakeSizesOfTable(chunks, body);
    TakeChunksOfConcat(chunks, rest);
  }

  lemma {:induction false} TableOfTakeSizes(b: Bytes, n: nat)
    requires TakeSizes(b, n).Some?
    ensures var t := TakeSizes(b, n).value;
      forall chunks | SmallChunks(chunks) && Lengths(chunks) == t.items :: b == SizeTable(chunks) + t.rest
  {
    hide Le32, UnLe32;
    var t := TakeSizes(b, n).value;
    forall chunks | SmallChunks(chunks) && Lengths(chunks) == t.items
      ensures b == SizeTable(chunks) + t.rest
    {
      if n > 0 {
        TableOfTakeSizes(b[4..], n - 1);
        assert t.items[1..] == TakeSizes(b[4..], n - 1).value.items;
        assert Lengths(chunks[1..]) == Lengths(chunks)[1..] == t.items[1..];
        assert Lengths(chunks)[0] == t.items[0];
        UnLe32RoundTrip(b[..4]);
        assert b == b[..4] + b[4..];
      }
    }
  }

  lemma {:induction false} ConcatOfTakeChunks(b: Bytes, sizes: seq<uint32>)
    requires TakeChunks(b, sizes).Some?
    ensures var t := TakeChunks(b, sizes).value;
      SmallChunks(t.items) && Lengths(t.items) == sizes && b == Concat(t.items) + t.rest
  {
    if sizes != [] {
      ConcatOfTakeChunks(b[sizes[0]..], sizes[1..]);
      var t, more := TakeChunks(b, sizes).value, TakeChunks(b[sizes[0]..], sizes[1..]).value;
      assert t == Taken([b[..sizes[0]]] + more.items, more.rest) && t.items[1..] == more.items;
      hide TakeChunks;
      assert b == b[..sizes[0]] + b[sizes[0]..];
    }
  }

  /** Whatever parses is the printed form of what it parses to, followed by the rest. */
  lemma PrintParse(b: Bytes)
    requires Parse(b).Some?
    ensures var t := Parse(b).value;
      ValidCount(|t.items|) && SmallChunks(t.items) && b == Print(t.items) + t.rest
  {
    hide Le32, UnLe32, SizeTable, Concat, TakeSizes, TakeChunks, Lengths;
    var n := UnLe32(b[..4]);
    var sizes := TakeSizes(b[4..], n).value;
    ConcatOfTakeChunks(sizes.rest, sizes.items);
    TableOfTakeSizes(b[4..], n);
    var t := Parse(b).value;
    assert |t.items| == |Lengths(t.items)| == n;
    UnLe32RoundTrip(b[..4]);
    PrintSplit(t.items, b[..4], b[4..], sizes.rest, t.rest);
    assert b == b[..4] + b[4..];
  }

  lemma PrintSplit(chunks: seq<Bytes>, head: Bytes, tail: Bytes, body: Bytes, rest: Bytes)
    requires |chunks| < U32 && SmallChunks(chunks)
    requires head == Le32(|chunks|) && tail == SizeTable(chunks) + body && body == Concat(chunks) + rest
    ensures head + tail == Print(chunks) + rest
  {
    hide Le32, SizeTable, Concat;
  }

  // ---- encoding a file ----

  /** The plaintext cut every CHUNK_SIZE bytes. */
  function Blocks(p: Bytes): (r: seq<Bytes>)
  {
    if p == [] then [] else if |p| <= CHUNK_SIZE then [p] else [p[..CHUNK_SIZE]] + Blocks(p[CHUNK_SIZE..])
  }

  /** The blocks are the plaintext in order: ceil(length / CHUNK_SIZE) non-empty ones, all full except
      possibly the last. */
  lemma {:induction false} BlocksCutThePlaintext(p: Bytes)
    ensures Concat(Blocks(p)) == p
    ensures |Blocks(p)| == (|p| + 4194304 - 1) / 4194304
    ensures forall i | 0 <= i < |Blocks(p)| :: 0 < |Blocks(p)[i]| <= 4194304
    ensures forall i | 0 <= i < |Blocks(p)| - 1 :: |Blocks(p)[i]| == 4194304
    decreases |p|
  {
    if |p| > CHUNK_SIZE {
      BlocksCutThePlaintext(p[CHUNK_SIZE..]);
      assert p == p[..CHUNK_SIZE] + p[CHUNK_SIZE..];
    } else if p != [] {
      assert Blocks(p)[1..] == [];
    }
  }

  /** A nonce for every chunk, as drawn. */
  ghost predicate NonceSource(nonce: nat -> Bytes) {
    forall i :: ValidNonce(nonce(i))
  }

  function SealBlock(s: Suite, key: Bytes, nonce: Bytes, block: Bytes): (r: Bytes) {
    nonce + s.seal(key, nonce, block)
  }

  function SealBlocks(s: Suite, key: Bytes, nonce: nat -> Bytes, blocks: seq<Bytes>, i: nat): (r: seq<Bytes>)
    ensures |r| == |blocks|
    ensures forall j | 0 <= j < |r| :: r[j] == SealBlock(s, key, nonce(i + j), blocks[j])
  {
    if blocks == [] then []
    else [SealBlock(s, key, nonce(i), blocks[0])] + SealBlocks(s, key, nonce, blocks[1..], i + 1)
  }

  function EncodeFile(s: Suite, key: Bytes, nonce: nat -> Bytes, p: Bytes): (r: Bytes) {
    V2_MAGIC + Print(SealBlocks(s, key, nonce, Blocks(p), 0))
  }

  // ---- decoding a file ----

  datatype DecodeError =
    | ReadMagic | UnknownFormat
    | V1TooShort | V1Failed
    | ReadCount | InvalidCount(count: nat) | ReadSize(index: nat)
    | ReadChunk(index: nat) | ChunkTooShort(index: nat) | OpenChunk(index: nat)

  datatype Status = Done | Failed(error: DecodeError) | Panicked

  /** What a decryption leaves behind: the output file, if it was created, and how the call ended. */
  datatype Decoded = Decoded(out: Option<Bytes>, status: Status)

  function OpenChunkBytes(s: Suite, key: Bytes, c: Bytes): (r: Option<Bytes>) {
    if |c| < NONCE_SIZE then None else s.open(key, c[..NONCE_SIZE], c[NONCE_SIZE..])
  }

  /** Read, open and append one chunk after another, from the index-th on. */
  function DecodeChunks(s: Suite, key: Bytes, sizes: seq<uint32>, index: nat, b: Bytes, out: Bytes): (r: Decoded) {
    if sizes == [] then Decoded(Some(out), Done)
    else if |b| < sizes[0] then Decoded(Some(out), Failed(ReadChunk(index)))
    else if sizes[0] < NONCE_SIZE then Decoded(Some(out), Failed(ChunkTooShort(index)))
    else match OpenChunkBytes(s, key, b[..sizes[0]])
      case None => Decoded(Some(out), Failed(OpenChunk(index)))
      case Some(plain) => DecodeChunks(s, key, sizes[1..], index + 1, b[sizes[0]..], out + plain)
  }

  /** The error of the cipher constructor is dropped, so an unusable key panics once the output exists. */
  function DecodeV2(s: Suite, b: Bytes, key: Bytes): (r: Decoded) {
    if |b| < 4 then Decoded(None, Failed(ReadCount))
    else var count := UnLe32(b[..4]);
      if !ValidCount(count) then Decoded(None, Failed(InvalidCount(count)))
      else match TakeSizes(b[4..], count)
        case None => Decoded(None, Failed(ReadSize((|b| - 4) / 4)))
        case Some(t) =>
          if !ValidKey(key) then Decoded(Some([]), Panicked)
          else DecodeChunks(s, key, t.items, 0, t.rest, [])
  }

  function DecodeV1(s: Suite, b: Bytes, key: Bytes): (r: Decoded) {
    if !ValidKey(key) then Decoded(None, Panicked)
    else if |b| < NONCE_SIZE then Decoded(None, Failed(V1TooShort))
    else match s.open(key, b[..NONCE_SIZE], b[NONCE_SIZE..])
      case None => Decoded(None, Failed(V1Failed))
      case Some(p) => Decoded(Some(p), Done)
  }

  function DecodeFile(s: Suite, file: Bytes, key: Bytes): (r: Decoded) {
    if |file| < MAGIC_SIZE then Decoded(None, Failed(ReadMagic))
    else if file[..MAGIC_SIZE] == V1_MAGIC then DecodeV1(s, file[MAGIC_SIZE..], key)
    else if file[..MAGIC_SIZE] == V2_MAGIC then DecodeV2(s, file[MAGIC_SIZE..], key)
    else Decoded(None, Failed(UnknownFormat))
  }

  // ---- what the decoder does, said without its loop ----

  /** The chunks a body holds completely, in order. */
  function Present(sizes: seq<uint32>, b: Bytes): (r: seq<Bytes>)
    ensures |r| <= |sizes|
  {
    if sizes == [] || |b| < sizes[0] then [] else [b[..sizes[0]]] + Present(sizes[1..], b[sizes[0]..])
  }

  /** The plaintexts of the longest run of leading chunks that open. */
  function OpenedFront(s: Suite, key: Bytes, chunks: seq<Bytes>): (r: seq<Bytes>)
    ensures |r| <= |chunks|
  {
    if chunks == [] then []
    else match OpenChunkBytes(s, key, chunks[0])
      case None => []
      case Some(p) => [p] + OpenedFront(s, key, chunks[1..])
  }

  /** The output is the plaintexts of the chunks opened so far, and the call succeeds exactly when those
      are all the size table announced. */
  lemma {:induction false} DecodeChunksMeaning(s: Suite, key: Bytes, sizes: seq<uint32>, index: nat, b: Bytes,
      out: Bytes)
    ensures var d := DecodeChunks(s, key, sizes, index, b, out);
      var front := OpenedFront(s, key, Present(sizes, b));
      && d.out == Some(out + Concat(front))
      && !d.status.Panicked?
      && (d.status.Done? <==> |front| == |sizes|)
    decreases |sizes|
  {
    if sizes == [] || |b| < sizes[0] || OpenChunkBytes(s, key, b[..sizes[0]]).None? {
      assert OpenedFront(s, key, Present(sizes, b)) == [];
      assert out + [] == out;
    } else {
      var plain := OpenChunkBytes(s, key, b[..sizes[0]]).value;
      DecodeChunksMeaning(s, key, sizes[1..], index + 1, b[sizes[0]..], out + plain);
      var tail := OpenedFront(s, key, Present(sizes[1..], b[sizes[0]..]));
      assert Present(sizes, b)[1..] == Present(sizes[1..], b[sizes[0]..]);
      assert OpenedFront(s, key, Present(sizes, b)) == [plain] + tail;
      assert out + Concat([plain] + tail) == out + plain + Concat(tail);
    }
  }

  lemma {:induction false} PresentAll(sizes: seq<uint32>, b: Bytes)
    ensures |Present(sizes, b)| == |sizes| <==> TakeChunks(b, sizes).Some?
    ensures TakeChunks(b, sizes).Some? ==> TakeChunks(b, sizes).value.items == Present(sizes, b)
  {
    if sizes != [] && |b| >= sizes[0] {
      PresentAll(sizes[1..], b[sizes[0]..]);
    }
  }

  /** Acceptance, both ways: a body is decoded exactly when it parses and every chunk opens, and the
      output is then their plaintexts. */
  lemma AcceptedBody(s: Suite, b: Bytes, key: Bytes)
    requires ValidKey(key)
    ensures var d := DecodeV2(s, b, key);
      && !d.status.Panicked?
      && (d.status.Done? <==>
            Parse(b).Some? && |OpenedFront(s, key, Parse(b).value.items)| == |Parse(b).value.items|)
      && (d.status.Done? ==> d.out == Some(Concat(OpenedFront(s, key, Parse(b).value.items))))
  {
    if |b| >= 4 && ValidCount(UnLe32(b[..4])) && TakeSizes(b[4..], UnLe32(b[..4])).Some? {
      var t := TakeSizes(b[4..], UnLe32(b[..4])).value;
      DecodeChunksMeaning(s, key, t.items, 0, t.rest, []);
      PresentAll(t.items, t.rest);
      var front := OpenedFront(s, key, Present(t.items, t.rest));
      assert [] + Concat(front) == Concat(front);
    }
  }

  /** What opens is what the encoder makes of its plaintext: a nonce and the sealed block. */
  lemma {:induction false} OpenedFrontSeals(s: Suite, key: Bytes, chunks: seq<Bytes>)
    requires s.Lawful() && ValidKey(key)
    ensures var front := OpenedFront(s, key, chunks);
      forall i | 0 <= i < |front| ::
        |chunks[i]| >= NONCE_SIZE && chunks[i] == SealBlock(s, key, chunks[i][..NONCE_SIZE], front[i])
  {
    if chunks != [] && OpenChunkBytes(s, key, chunks[0]).Some? {
      OpenedFrontSeals(s, key, chunks[1..]);
      var front := OpenedFront(s, key, chunks);
      var rest := OpenedFront(s, key, chunks[1..]);
      assert front == [front[0]] + rest;
      forall i | 0 <= i < |front|
        ensures |chunks[i]| >= NONCE_SIZE && chunks[i] == SealBlock(s, key, chunks[i][..NONCE_SIZE], front[i])
      {
        if i > 0 {
          assert front[i] == rest[i - 1] && chunks[i] == chunks[1..][i - 1];
        } else {
          var n := chunks[0][..NONCE_SIZE];
          assert chunks[0] == n + chunks[0][NONCE_SIZE..];
        }
      }
    }
  }

  /** The decoder accepts nothing but the encoder's format: an accepted file is the magic and the printed
      form of sealed blocks whose plaintexts make up the output, whatever follows them. */
  lemma AcceptedFileIsPrinted(s: Suite, file: Bytes, key: Bytes)
    returns (chunks: seq<Bytes>, plain: seq<Bytes>, rest: Bytes)
    requires s.Lawful() && ValidKey(key)
    requires |file| >= 4 && file[..4] == [0x53, 0x45, 0x30, 0x32] && DecodeFile(s, file, key).status.Done?
    ensures file == [0x53, 0x45, 0x30, 0x32] + Print(chunks) + rest && 1 <= |chunks| <= 10000 && |plain| == |chunks|
    ensures forall i | 0 <= i < |chunks| ::
      |chunks[i]| >= 12 && chunks[i] == chunks[i][..12] + s.seal(key, chunks[i][..12], plain[i])
    ensures DecodeFile(s, file, key).out == Some(Concat(plain))
  {
    var b := file[MAGIC_SIZE..];
    AcceptedBody(s, b, key);
    PrintParse(b);
    chunks, rest := Parse(b).value.items, Parse(b).value.rest;
    plain := OpenedFront(s, key, chunks);
    OpenedFrontSeals(s, key, chunks);
    assert file == V2_MAGIC + b;
  }

  // ---- round trip ----

  lemma {:induction false} OpenedFrontIs(s: Suite, key: Bytes, chunks: seq<Bytes>, blocks: seq<Bytes>)
    requires |chunks| == |blocks|
    requires forall j | 0 <= j < |chunks| :: OpenChunkBytes(s, key, chunks[j]) == Some(blocks[j])
    ensures OpenedFront(s, key, chunks) == blocks
  {
    if chunks != [] {
      OpenedFrontIs(s, key, chunks[1..], blocks[1..]);
      assert blocks == [blocks[0]] + blocks[1..];
    }
  }

  /** Sealed blocks open to the blocks, whatever number of leading ones is looked at. */
  lemma OpenSealedBlocks(s: Suite, key: Bytes, nonce: nat -> Bytes, blocks: seq<Bytes>, k: nat)
    requires s.Lawful() && ValidKey(key) && NonceSource(nonce) && k <= |blocks|
    requires forall j | 0 <= j < |blocks| :: |blocks[j]| <= CHUNK_SIZE
    ensures OpenedFront(s, key, SealBlocks(s, key, nonce, blocks, 0)[..k]) == blocks[..k]
  {
    hide OpenedFront;
    var chunks := SealBlocks(s, key, nonce, blocks, 0)[..k];
    forall j | 0 <= j < k
      ensures OpenChunkBytes(s, key, chunks[j]) == Some(blocks[..k][j])
    {
      var n := nonce(j);
      assert chunks[j] == n + s.seal(key, n, blocks[j]);
      assert chunks[j][..NONCE_SIZE] == n && chunks[j][NONCE_SIZE..] == s.seal(key, n, blocks[j]);
    }
    OpenedFrontIs(s, key, chunks, blocks[..k]);
  }

  /** Every sealed block fits its uint32 size field. */
  lemma SealedBlocksAreSmall(s: Suite, key: Bytes, nonce: nat -> Bytes, p: Bytes)
    requires s.Lawful() && ValidKey(key) && NonceSource(nonce)
    ensures SmallChunks(SealBlocks(s, key, nonce, Blocks(p), 0))
    ensures forall i | 0 <= i < |Blocks(p)| :: |Blocks(p)[i]| <= CHUNK_SIZE
  {
    BlocksCutThePlaintext(p);
    var blocks := Blocks(p);
    forall i | 0 <= i < |blocks|
      ensures |SealBlocks(s, key, nonce, blocks, 0)[i]| < U32
    {
      assert |s.seal(key, nonce(i), blocks[i])| == |blocks[i]| + TAG_SIZE;
    }
  }

  /** The chunk count survives its uint32 field, or is cut to a count the decoder refuses. */
  predicate CountReadable(n: nat) {
    n < U32 || !ValidCount(n % U32)
  }

  lemma DecodeAfterMagic(s: Suite, b: Bytes, key: Bytes)
    ensures DecodeFile(s, V2_MAGIC + b, key) == DecodeV2(s, b, key)
  {
    hide DecodeV2;
    assert (V2_MAGIC + b)[..MAGIC_SIZE] == V2_MAGIC && (V2_MAGIC + b)[MAGIC_SIZE..] == b;
  }

  /** The decoder reads the chunk count modulo 2^32. */
  lemma CountOfPrint(chunks: seq<Bytes>, m: nat)
    requires 4 <= m <= |Print(chunks)|
    ensures UnLe32(Print(chunks)[..m][..4]) == |chunks| % U32
  {
    hide SizeTable, Concat;
    assert Print(chunks)[..m][..4] == Le32(|chunks| % U32);
    Le32RoundTrip(|chunks| % U32);
  }

  lemma SealedBlocksDecode(s: Suite, key: Bytes, nonce: nat -> Bytes, p: Bytes)
    requires s.Lawful() && ValidKey(key) && NonceSource(nonce) && ValidCount(|Blocks(p)|)
    ensures DecodeV2(s, Print(SealBlocks(s, key, nonce, Blocks(p), 0)), key) == Decoded(Some(p), Done)
  {
    hide Print, OpenedFront, DecodeV2, Parse;
    var blocks := Blocks(p);
    var chunks := SealBlocks(s, key, nonce, blocks, 0);
    SealedBlocksAreSmall(s, key, nonce, p);
    ParsePrint(chunks, []);
    assert Print(chunks) + [] == Print(chunks);
    OpenSealedBlocks(s, key, nonce, blocks, |blocks|);
    assert chunks[..|blocks|] == chunks && blocks[..|blocks|] == blocks;
    AcceptedBody(s, Print(chunks), key);
    BlocksCutThePlaintext(p);
  }

  lemma BadCountRefused(s: Suite, key: Bytes, chunks: seq<Bytes>)
    requires !ValidCount(|chunks| % U32)
    ensures DecodeV2(s, Print(chunks), key) == Decoded(None, Failed(InvalidCount(|chunks| % U32)))
  {
    hide SizeTable, Concat;
    CountOfPrint(chunks, |Print(chunks)|);
    assert Print(chunks)[..|Print(chunks)|] == Print(chunks);
  }

  lemma BlockCountInRange(p: Bytes)
    ensures ValidCount(|Blocks(p)|) <==> 1 <= |p| <= MAX_CHUNKS * CHUNK_SIZE
  {
    BlocksCutThePlaintext(p);
  }

  /** The file comes back exactly when it is neither empty nor longer than 10000 full chunks; outside
      that range the encoder still succeeds and the decoder refuses the count. */
  lemma FileRoundTripExact(s: Suite, key: Bytes, nonce: nat -> Bytes, p: Bytes)
    requires s.Lawful() && ValidKey(key) && NonceSource(nonce)
    requires CountReadable(|Blocks(p)|)
    ensures DecodeFile(s, EncodeFile(s, key, nonce, p), key) == Decoded(Some(p), Done)
      <==> 1 <= |p| <= 10000 * 4194304
    ensures !(1 <= |p| <= 10000 * 4194304) ==>
      DecodeFile(s, EncodeFile(s, key, nonce, p), key) == Decoded(None, Failed(InvalidCount(|Blocks(p)| % U32)))
  {
    hide Print, SealBlocks, Blocks, DecodeFile, DecodeV2;
    DecodeAfterMagic(s, Print(SealBlocks(s, key, nonce, Blocks(p), 0)), key);
    BlockCountInRange(p);
    if ValidCount(|Blocks(p)|) {
      SealedBlocksDecode(s, key, nonce, p);
    } else {
      BadCountRefused(s, key, SealBlocks(s, key, nonce, Blocks(p), 0));
    }
  }

  // ---- the bytes of a file ----

  /** A file of one block is the magic, the count 1, the size of the one chunk, and the chunk: its nonce and the block
      sealed under it. */
  lemma OneChunkFormat(s: Suite, key: Bytes, nonce: nat -> Bytes, p: Bytes)
    requires s.Lawful() && ValidKey(key) && NonceSource(nonce) && 1 <= |p| <= 4194304
    ensures EncodeFile(s, key, nonce, p)
      == [0x53, 0x45, 0x30, 0x32] + Le32(1) + Le32(|p| + 28) + nonce(0) + s.seal(key, nonce(0), p)
  {
    hide Le32, Print;
    var chunk := nonce(0) + s.seal(key, nonce(0), p);
    OneBlock(s, key, nonce, p);
    PrintOne(chunk);
    assert s.open(key, nonce(0), s.seal(key, nonce(0), p)) == Some(p);
    assert |chunk| == |p| + 28;
  }

  lemma OneBlock(s: Suite, key: Bytes, nonce: nat -> Bytes, p: Bytes)
    requires 1 <= |p| <= 4194304
    ensures SealBlocks(s, key, nonce, Blocks(p), 0) == [nonce(0) + s.seal(key, nonce(0), p)]
  {
    assert Blocks(p) == [p] && [p][1..] == [];
  }

  lemma PrintOne(chunk: Bytes)
    requires |chunk| < U32
    ensures Print([chunk]) == Le32(1) + Le32(|chunk|) + chunk
  {
    hide Le32;
    var none := [chunk][1..];
    assert SizeTable(none) == [] && Concat(none) == [];
    assert SizeTable([chunk]) == Le32(|chunk|) + SizeTable(none) && Concat([chunk]) == chunk + Concat(none);
  }

  /** A longer file has the same form with more chunks, each its own nonce and block. */
  lemma ManyChunksFormat(s: Suite, key: Bytes, nonce: nat -> Bytes, p: Bytes) returns (chunks: seq<Bytes>)
    ensures EncodeFile(s, key, nonce, p) == [0x53, 0x45, 0x30, 0x32] + Print(chunks)
    ensures |chunks| == (|p| + 4194304 - 1) / 4194304
    ensures forall i | 0 <= i < |chunks| :: chunks[i] == nonce(i) + s.seal(key, nonce(i), Block(p, i))
  {
    hide Print, Blocks;
    chunks := SealBlocks(s, key, nonce, Blocks(p), 0);
    BlocksCutThePlaintext(p);
    forall i | 0 <= i < |chunks|
      ensures chunks[i] == nonce(i) + s.seal(key, nonce(i), Block(p, i))
    {
      BlockAt(p, i);
    }
  }

  /** The i-th 4 MiB of a plaintext, or what there is of them. */
  function Block(p: Bytes, i: nat): (block: Bytes)
    requires 4194304 * i <= |p|
  {
    if 4194304 * (i + 1) < |p| then p[4194304 * i..4194304 * (i + 1)] else p[4194304 * i..]
  }

  lemma {:induction false} BlockAt(p: Bytes, i: nat)
    requires i < |Blocks(p)|
    ensures 4194304 * i < |p| && Blocks(p)[i] == Block(p, i)
    decreases i
  {
    if i > 0 {
      BlockAt(p[CHUNK_SIZE..], i - 1);
    }
  }

  /** A single-chunk file, the magic SE01, a nonce and the sealed plaintext, is decrypted to the plaintext. */
  lemma SingleChunkOpens(s: Suite, key: Bytes, nonce: Bytes, p: Bytes)
    requires s.Lawful() && ValidKey(key) && ValidNonce(nonce) && |p| <= MAX_PLAINTEXT
    ensures DecodeFile(s, [0x53, 0x45, 0x30, 0x31] + nonce + s.seal(key, nonce, p), key) == Decoded(Some(p), Done)
  {
    var ct := s.seal(key, nonce, p);
    var file := V1_MAGIC + nonce + ct;
    assert file[..MAGIC_SIZE] == V1_MAGIC && file[MAGIC_SIZE..] == nonce + ct;
    assert (nonce + ct)[..NONCE_SIZE] == nonce && (nonce + ct)[NONCE_SIZE..] == ct;
    assert s.open(key, nonce, ct) == Some(p);
  }

  /** No other file with that magic is accepted, and what is written is the plaintext. */
  lemma SingleChunkAcceptsOnly(s: Suite, key: Bytes, file: Bytes) returns (nonce: Bytes, p: Bytes)
    requires s.Lawful() && |file| >= 4 && file[..4] == [0x53, 0x45, 0x30, 0x31]
    requires DecodeFile(s, file, key).status.Done?
    ensures ValidKey(key) && ValidNonce(nonce)
    ensures file == [0x53, 0x45, 0x30, 0x31] + nonce + s.seal(key, nonce, p)
    ensures DecodeFile(s, file, key).out == Some(p)
  {
    var b := file[4..];
    assert file == file[..4] + b;
    nonce := b[..NONCE_SIZE];
    p := s.open(key, nonce, b[NONCE_SIZE..]).value;
    assert b == nonce + b[NONCE_SIZE..];
  }

  /** Every other end of such a file leaves no output: an unusable key panics, and the rest are errors. */
  lemma SingleChunkRefuses(s: Suite, key: Bytes, file: Bytes)
    requires |file| >= 4 && file[..4] == [0x53, 0x45, 0x30, 0x31]
    ensures var d := DecodeFile(s, file, key);
      && (d.status.Panicked? <==> !ValidKey(key))
      && (d.status == Failed(V1TooShort) <==> ValidKey(key) && |file| < 16)
      && (d.status == Failed(V1Failed) <==>
            ValidKey(key) && |file| >= 16 && s.open(key, file[4..16], file[16..]) == None)
      && (!d.status.Done? ==> d.out == None)
  {
    if |file| >= 16 {
      assert file[4..][..NONCE_SIZE] == file[4..16] && file[4..][NONCE_SIZE..] == file[16..];
    }
  }

  /** How the chunk loop ends: at the first chunk that is not there completely, is shorter than a nonce, or does not
      open, and after the last one otherwise. */
  lemma {:induction false} DecodeChunksEnds(s: Suite, key: Bytes, sizes: seq<uint32>, index: nat, b: Bytes, out: Bytes)
    ensures var present := Present(sizes, b);
      var k := |OpenedFront(s, key, present)|;
      DecodeChunks(s, key, sizes, index, b, out).status ==
        if k == |sizes| then Done
        else if k == |present| then Failed(ReadChunk(index + k))
        else if |present[k]| < 12 then Failed(ChunkTooShort(index + k))
        else Failed(OpenChunk(index + k))
    decreases |sizes|
  {
    if sizes != [] && |b| >= sizes[0] {
      var plain := OpenChunkBytes(s, key, b[..sizes[0]]);
      if plain.Some? {
        DecodeChunksEnds(s, key, sizes[1..], index + 1, b[sizes[0]..], out + plain.value);
      }
      assert Present(sizes, b)[1..] == Present(sizes[1..], b[sizes[0]..]);
    }
  }

  /** The endings of an SE02 file before its chunks are read: no output for a count that is cut off or out of range, or
      a size that is cut off, and an empty one for an unusable key. */
  lemma ChunkedRefuses(s: Suite, key: Bytes, file: Bytes, k: nat)
    requires |file| >= 4 && file[..4] == [0x53, 0x45, 0x30, 0x32]
    ensures var d := DecodeFile(s, file, key);
      var count := if |file| >= 8 then UnLe32(file[4..8]) else 0;
      && (d.status == Failed(ReadCount) <==> |file| < 8)
      && (d.status.Failed? && d.status.error.InvalidCount? <==> |file| >= 8 && !(1 <= count <= 10000))
      && (d.status == Failed(ReadSize(k)) <==>
            1 <= count <= 10000 && k < count && 8 + 4 * k <= |file| < 8 + 4 * (k + 1))
      && (d.status == Panicked <==> 1 <= count <= 10000 && |file| >= 8 + 4 * count && !ValidKey(key))
      && (d.out == None <==> |file| < 8 + 4 * count || !(1 <= count <= 10000))
      && (d.status == Panicked ==> d.out == Some([]))
  {
    var b := file[4..];
    if |file| >= 8 {
      assert b[..4] == file[4..8];
      var count := UnLe32(file[4..8]);
      if ValidCount(count) && |file| >= 8 + 4 * count && ValidKey(key) {
        var t := TakeSizes(b[4..], count).value;
        DecodeChunksEnds(s, key, t.items, 0, t.rest, []);
        DecodeChunksMeaning(s, key, t.items, 0, t.rest, []);
      }
    }
  }

  /** A file with neither magic is refused without output. */
  lemma OtherMagicRefused(s: Suite, key: Bytes, file: Bytes)
    ensures |file| < 4 ==> DecodeFile(s, file, key) == Decoded(None, Failed(ReadMagic))
    ensures |file| >= 4 && file[..4] !in {[0x53, 0x45, 0x30, 0x31], [0x53, 0x45, 0x30, 0x32]} ==>
      DecodeFile(s, file, key) == Decoded(None, Failed(UnknownFormat))
  {}

  // ---- truncation ----

  /** Cutting a body short can only drop chunks from the end of what is present. */
  lemma {:induction false} PresentOfPrefix(sizes: seq<uint32>, b: Bytes, m: nat)
    requires m <= |b|
    ensures Present(sizes, b[..m]) <= Present(sizes, b)
  {
    if sizes != [] && m >= sizes[0] {
      PresentOfPrefix(sizes[1..], b[sizes[0]..], m - sizes[0]);
      assert b[..m][..sizes[0]] == b[..sizes[0]];
      assert b[..m][sizes[0]..] == b[sizes[0]..][..m - sizes[0]];
    }
  }

  lemma {:induction false} TakeSizesOfPrefix(b: Bytes, n: nat, m: nat)
    requires 4 * n <= m <= |b|
    ensures TakeSizes(b[..m], n).Some? && TakeSizes(b, n).Some?
    ensures TakeSizes(b[..m], n).value.items == TakeSizes(b, n).value.items
    ensures TakeSizes(b, n).value.rest == b[4 * n..]
    ensures TakeSizes(b[..m], n).value.rest == b[4 * n..m]
  {
    if n > 0 {
      TakeSizesOfPrefix(b[4..], n - 1, m - 4);
      assert b[..m][4..] == b[4..][..m - 4] && b[..m][..4] == b[..4];
      assert b[4..][..m - 4][4 * (n - 1)..] == b[4 * n..m];
      assert b[4..][4 * (n - 1)..] == b[4 * n..];
    }
  }

  /** Bytes after an accepted body change nothing. */
  lemma {:induction false} ParseIgnoresTail(b: Bytes, tail: Bytes)
    requires Parse(b).Some?
    ensures Parse(b + tail) == Some(Taken(Parse(b).value.items, Parse(b).value.rest + tail))
  {
    PrintParse(b);
    var t := Parse(b).value;
    ParsePrint(t.items, t.rest + tail);
    assert Print(t.items) + (t.rest + tail) == b + tail;
  }

  /** A printed list cut anywhere no longer parses. */
  lemma CutPrintDoesNotParse(chunks: seq<Bytes>, m: nat)
    requires CountReadable(|chunks|) && SmallChunks(chunks) && m < |Print(chunks)|
    ensures Parse(Print(chunks)[..m]).None?
  {
    hide Print;
    var b := Print(chunks);
    var cut := b[..m];
    if m >= 4 {
      CountOfPrint(chunks, m);
      if ValidCount(|chunks|) {
        assert b + [] == b && cut + b[m..] == b;
        ParsePrint(chunks, []);
        if Parse(cut).Some? {
          ParseIgnoresTail(cut, b[m..]);
        }
      }
    }
  }

  /** No strict prefix of an encoder output is accepted. */
  lemma NoTruncatedFileAccepted(s: Suite, key: Bytes, nonce: nat -> Bytes, p: Bytes, m: nat)
    requires s.Lawful() && ValidKey(key) && NonceSource(nonce) && CountReadable(|Blocks(p)|)
    requires m < |EncodeFile(s, key, nonce, p)|
    ensures DecodeFile(s, EncodeFile(s, key, nonce, p)[..m], key).status.Failed?
  {
    hide Print, SealBlocks, DecodeV2;
    if m >= MAGIC_SIZE {
      var chunks := SealBlocks(s, key, nonce, Blocks(p), 0);
      var cut := Print(chunks)[..m - MAGIC_SIZE];
      assert EncodeFile(s, key, nonce, p)[..m] == V2_MAGIC + cut;
      DecodeAfterMagic(s, cut, key);
      SealedBlocksAreSmall(s, key, nonce, p);
      CutPrintDoesNotParse(chunks, m - MAGIC_SIZE);
      AcceptedBody(s, cut, key);
    }
  }

  /** A cut behind the size table leaves the table whole and shortens the bodies. */
  lemma TableOfCut(chunks: seq<Bytes>, m: nat)
    requires |chunks| < U32 && SmallChunks(chunks) && 4 + 4 * |chunks| <= m <= |Print(chunks)|
    ensures var n := m - 4 - 4 * |chunks|;
      && n <= |Concat(chunks)|
      && TakeSizes(Print(chunks)[..m][4..], |chunks|) == Some(Taken(Lengths(chunks), Concat(chunks)[..n]))
  {
    hide Le32, UnLe32, SizeTable, Concat, TakeSizes, Lengths;
    var b := Print(chunks)[4..];
    var n := |chunks|;
    assert b == SizeTable(chunks) + Concat(chunks);
    TakeSizesOfTable(chunks, Concat(chunks));
    assert Print(chunks)[..m][4..] == b[..m - 4];
    TakeSizesOfPrefix(b, n, m - 4);
    assert Concat(chunks) == b[4 * n..];
    assert b[4 * n..m - 4] == b[4 * n..][..m - 4 - 4 * n];
  }

  /** The complete chunks of a cut list are its first ones. */
  lemma PresentOfCut(chunks: seq<Bytes>, n: nat)
    requires SmallChunks(chunks) && n <= |Concat(chunks)|
    ensures Present(Lengths(chunks), Concat(chunks)[..n]) <= chunks
  {
    var body := Concat(chunks);
    PresentOfPrefix(Lengths(chunks), body, n);
    assert body + [] == body;
    TakeChunksOfConcat(chunks, []);
    PresentAll(Lengths(chunks), body);
  }

  /** What a cut body leaves behind is the plaintexts of its complete chunks. */
  lemma CutBodyOutput(s: Suite, key: Bytes, chunks: seq<Bytes>, blocks: seq<Bytes>, m: nat) returns (k: nat)
    requires ValidKey(key) && CountReadable(|chunks|) && SmallChunks(chunks) && |blocks| == |chunks|
    requires m <= |Print(chunks)| && DecodeV2(s, Print(chunks)[..m], key).out.Some?
    requires forall j | 0 <= j <= |chunks| :: OpenedFront(s, key, chunks[..j]) == blocks[..j]
    ensures k <= |blocks|
    ensures DecodeV2(s, Print(chunks)[..m], key).out == Some(Concat(blocks[..k]))
    ensures k == |blocks| ==> DecodeV2(s, Print(chunks)[..m], key).status.Done?
  {
    hide Print, OpenedFront, Concat, Present, Lengths;
    var cut := Print(chunks)[..m];
    CountOfPrint(chunks, m);
    assert |chunks| < U32;
    TableOfCut(chunks, m);
    var t := TakeSizes(cut[4..], |chunks|).value;
    PresentOfCut(chunks, |t.rest|);
    k := |Present(t.items, t.rest)|;
    assert Present(t.items, t.rest) == chunks[..k];
    DecodeChunksMeaning(s, key, t.items, 0, t.rest, []);
    assert [] + Concat(blocks[..k]) == Concat(blocks[..k]);
  }

  /** Whatever the decoder wrote of a truncated file is a run of leading blocks, hence a prefix of the
      plaintext. */
  lemma TruncatedOutputIsPrefix(s: Suite, key: Bytes, nonce: nat -> Bytes, p: Bytes, m: nat)
    requires s.Lawful() && ValidKey(key) && NonceSource(nonce) && CountReadable(|Blocks(p)|)
    requires m < |EncodeFile(s, key, nonce, p)|
    ensures var d := DecodeFile(s, EncodeFile(s, key, nonce, p)[..m], key);
      d.out.Some? ==> d.out.value <= p && exists k | 0 <= k < |Blocks(p)| :: d.out.value == Concat(Blocks(p)[..k])
  {
    hide Print, SealBlocks, OpenedFront, Blocks, DecodeV2;
    if m >= MAGIC_SIZE {
      var blocks := Blocks(p);
      var chunks := SealBlocks(s, key, nonce, blocks, 0);
      var cut := Print(chunks)[..m - MAGIC_SIZE];
      assert EncodeFile(s, key, nonce, p)[..m] == V2_MAGIC + cut;
      DecodeAfterMagic(s, cut, key);
      if DecodeV2(s, cut, key).out.Some? {
        SealedBlocksAreSmall(s, key, nonce, p);
        forall j | 0 <= j <= |blocks|
          ensures OpenedFront(s, key, chunks[..j]) == blocks[..j]
        {
          OpenSealedBlocks(s, key, nonce, blocks, j);
        }
        var k := CutBodyOutput(s, key, chunks, blocks, m - MAGIC_SIZE);
        NoTruncatedFileAccepted(s, key, nonce, p, m);
        ConcatPrefix(blocks, k);
        BlocksCutThePlaintext(p);
      }
    }
  }
}
