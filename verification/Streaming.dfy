/** The file encryptor and decryptor as they run: a source read through a cursor, one reused buffer,
    and an output file written piece by piece. The container functions are their specification. */
module Streaming {
  import opened Basics
  import opened Crypto
  import opened Container

  datatype ReadResult = Full | UnexpectedEof | Eof

  /** A file opened for reading. */
  class Source {
    const data: Bytes
    var pos: nat

    constructor (data: Bytes)
      ensures Valid() && Rest() == data && this.data == data
    {
      this.data, pos := data, 0;
    }

    ghost predicate Valid() reads this {
      pos <= |data|
    }

    ghost function Rest(): Bytes
      requires Valid()
      reads this
    {
      data[pos..]
    }

    /** Fills the buffer as far as the file reaches; only a read that starts at the end of the file
        with room in the buffer reports Eof. */
    method ReadFull(buf: array<byte>) returns (n: nat, result: ReadResult)
      requires Valid()
      modifies this`pos, buf
      ensures Valid()
      ensures n == if |old(Rest())| < buf.Length then |old(Rest())| else buf.Length
      ensures buf[..n] == old(Rest())[..n] && buf[n..] == old(buf[n..])
      ensures Rest() == old(Rest())[n..]
      ensures result == if n == buf.Length then Full else if n == 0 then Eof else UnexpectedEof
    {
      n := if |data| - pos < buf.Length then |data| - pos else buf.Length;
      forall i | 0 <= i < n {
        buf[i] := data[pos + i];
      }
      pos := pos + n;
      result := if n == buf.Length then Full else if n == 0 then Eof else UnexpectedEof;
    }

    /** binary.Read of one little-endian uint32. */
    method ReadUint32() returns (x: uint32, ok: bool)
      requires Valid()
      modifies this`pos
      ensures Valid()
      ensures ok <==> |old(Rest())| >= 4
      ensures ok ==> x == UnLe32(old(Rest())[..4]) && Rest() == old(Rest())[4..]
    {
      var word := new byte[4];
      var n, result := ReadFull(word);
      ok, x := result == Full, 0;
      if ok {
        assert word[..] == word[..4];
        x := UnLe32(word[..]);
      }
    }
  }

  /** The destination path: the file there, if any. */
  class Output {
    var contents: Option<Bytes>

    constructor (contents: Option<Bytes>)
      ensures this.contents == contents
    {
      this.contents := contents;
    }

    /** Makes the file, or empties the one that is there. */
    method Create()
      modifies this
      ensures contents == Some([])
    {
      contents := Some([]);
    }

    method Write(b: Bytes)
      requires contents.Some?
      modifies this
      ensures contents == Some(old(contents.value) + b)
    {
      contents := Some(contents.value + b);
    }
  }

  /** What the chunk list holds. */
  ghost function Contents(chunks: seq<array<byte>>): (r: seq<Bytes>)
    reads chunks
    ensures |r| == |chunks|
  {
    seq(|chunks|, i requires 0 <= i < |chunks| reads chunks => chunks[i][..])
  }

  /** What is still to be sealed when the file has this much left. */
  ghost function Remaining(s: Suite, key: Bytes, nonce: nat -> Bytes, rest: Bytes, i: nat): (r: seq<Bytes>) {
    SealBlocks(s, key, nonce, Blocks(rest), i)
  }

  lemma NothingRemains(s: Suite, key: Bytes, nonce: nat -> Bytes, i: nat)
    ensures Remaining(s, key, nonce, [], i) == []
  {}

  /** One turn of the read loop takes one block off the front. */
  lemma CutOne(s: Suite, key: Bytes, nonce: nat -> Bytes, rest: Bytes, i: nat)
    ensures var n := if |rest| < CHUNK_SIZE then |rest| else CHUNK_SIZE;
      n > 0 ==>
        Remaining(s, key, nonce, rest, i)
          == [SealBlock(s, key, nonce(i), rest[..n])] + Remaining(s, key, nonce, rest[n..], i + 1)
  {
    var n := if |rest| < CHUNK_SIZE then |rest| else CHUNK_SIZE;
    if n > 0 {
      if |rest| <= CHUNK_SIZE {
        assert rest[..n] == rest && rest[n..] == [];
      }
      assert Blocks(rest) == [rest[..n]] + Blocks(rest[n..]);
      assert Blocks(rest)[1..] == Blocks(rest[n..]);
    }
  }

  /** One turn of the read loop: refill the buffer and seal what came into an array of its own, which
      the next refill cannot touch. */
  method SealNext(s: Suite, src: Source, buf: array<byte>, key: Bytes, nonce: nat -> Bytes, i: nat)
    returns (n: nat, result: ReadResult, chunk: array<byte>)
    requires src.Valid() && buf.Length == CHUNK_SIZE
    modifies src`pos, buf
    ensures src.Valid() && fresh(chunk)
    ensures n <= |old(src.Rest())| && src.Rest() == old(src.Rest())[n..]
    ensures result == Full ==> n == CHUNK_SIZE
    ensures result != Full ==> src.Rest() == []
    ensures n > 0 ==>
      Remaining(s, key, nonce, old(src.Rest()), i) == [chunk[..]] + Remaining(s, key, nonce, src.Rest(), i + 1)
  {
    hide Remaining, SealBlock;
    ghost var rest := src.Rest();
    n, result := src.ReadFull(buf);
    CutOne(s, key, nonce, rest, i);
    var sealed := SealBlock(s, key, nonce(i), buf[..n]);
    chunk := new byte[|sealed|](j requires 0 <= j < |sealed| => sealed[j]);
    assert chunk[..] == sealed;
  }

  /** Seals block after block until the end of the file. */
  method SealAll(s: Suite, src: Source, key: Bytes, nonce: nat -> Bytes) returns (chunks: seq<array<byte>>)
    requires src.Valid()
    modifies src`pos
    ensures src.Valid() && src.Rest() == []
    ensures forall i | 0 <= i < |chunks| :: fresh(chunks[i])
    ensures Contents(chunks) == Remaining(s, key, nonce, old(src.Rest()), 0)
  {
    hide Remaining;
    chunks := [];
    var buf := new byte[CHUNK_SIZE];
    ghost var all, held: seq<Bytes> := Remaining(s, key, nonce, src.Rest(), 0), [];
    var result := Full;
    while result == Full
      invariant src.Valid() && buf.Length == CHUNK_SIZE
      invariant |held| == |chunks|
      invariant forall i | 0 <= i < |chunks| :: fresh(chunks[i]) && chunks[i] != buf && chunks[i][..] == held[i]
      invariant held + Remaining(s, key, nonce, src.Rest(), |held|) == all
      invariant result != Full ==> src.Rest() == []
      decreases |src.Rest()|, if result == Full then 1 else 0
    {
      var n, chunk;
      n, result, chunk := SealNext(s, src, buf, key, nonce, |chunks|);
      if n > 0 {
        chunks, held := chunks + [chunk], held + [chunk[..]];
      }
    }
    NothingRemains(s, key, nonce, |chunks|);
    assert held + [] == held;
  }

  method WriteSizes(dst: Output, chunks: seq<array<byte>>)
    requires dst.contents.Some?
    modifies dst
    ensures dst.contents == Some(old(dst.contents.value) + SizeTable(Contents(chunks)))
  {
    hide Le32, Concat;
    ghost var parts := Contents(chunks);
    ghost var head := dst.contents.value;
    assert parts[0..] == parts;
    for i := 0 to |chunks|
      invariant dst.contents.Some? && Contents(chunks) == parts
      invariant dst.contents.value + SizeTable(parts[i..]) == head + SizeTable(parts)
    {
      dst.Write(Le32(chunks[i].Length % U32));
      assert parts[i..][1..] == parts[i + 1..] && |parts[i]| == chunks[i].Length;
    }
    assert dst.contents.value + [] == dst.contents.value;
  }

  method WriteBodies(dst: Output, chunks: seq<array<byte>>)
    requires dst.contents.Some?
    modifies dst
    ensures dst.contents == Some(old(dst.contents.value) + Concat(Contents(chunks)))
  {
    ghost var parts := Contents(chunks);
    ghost var head := dst.contents.value;
    assert parts[0..] == parts;
    for i := 0 to |chunks|
      invariant dst.contents.Some? && Contents(chunks) == parts
      invariant dst.contents.value + Concat(parts[i..]) == head + Concat(parts)
    {
      dst.Write(chunks[i][..]);
      assert parts[i..][1..] == parts[i + 1..] && parts[i] == chunks[i][..];
    }
    assert dst.contents.value + [] == dst.contents.value;
  }

  /** The compress flag is accepted and ignored, and a file of any size is cut every CHUNK_SIZE bytes. */
  method EncryptFileStreaming(s: Suite, src: Source, dst: Output, key: Bytes, nonce: nat -> Bytes, compress: bool)
    returns (ok: bool)
    requires src.Valid()
    modifies src`pos, dst
    ensures ok == ValidKey(key)
    ensures dst.contents == Some(if ok then EncodeFile(s, key, nonce, old(src.Rest())) else V2_MAGIC)
  {
    hide Blocks, SizeTable, Concat;
    dst.Create();
    dst.Write(V2_MAGIC);
    assert [] + V2_MAGIC == V2_MAGIC;
    if !ValidKey(key) {
      return false;
    }
    var chunks := SealAll(s, src, key, nonce);
    dst.Write(Le32(|chunks| % U32));
    WriteSizes(dst, chunks);
    WriteBodies(dst, chunks);
    assert dst.contents.value == V2_MAGIC + Print(Contents(chunks));
    return true;
  }

  /** What is at the destination afterwards: a call that ends before it creates its output leaves there what
      was there before. */
  function LeftAt(before: Option<Bytes>, d: Decoded): (after: Option<Bytes>) {
    if d.out.Some? then d.out else before
  }

  method DecryptV1(s: Suite, r: Source, dst: Output, key: Bytes) returns (status: Status)
    requires r.Valid()
    modifies r`pos, dst
    ensures var d := DecodeV1(s, old(r.Rest()), key);
      status == d.status && dst.contents == LeftAt(old(dst.contents), d)
  {
    var ct := r.data[r.pos..];
    r.pos := |r.data|;
    if !ValidKey(key) {
      return Panicked;
    }
    if |ct| < NONCE_SIZE {
      return Failed(V1TooShort);
    }
    var pt := s.open(key, ct[..NONCE_SIZE], ct[NONCE_SIZE..]);
    if pt == None {
      return Failed(V1Failed);
    }
    dst.Create();
    dst.Write(pt.value);
    assert [] + pt.value == pt.value;
    return Done;
  }

  lemma {:induction false} TakeSizesIs(b: Bytes, sizes: seq<uint32>)
    requires 4 * |sizes| <= |b|
    requires forall i | 0 <= i < |sizes| :: sizes[i] == UnLe32(b[4 * i..4 * i + 4])
    ensures TakeSizes(b, |sizes|) == Some(Taken(sizes, b[4 * |sizes|..]))
  {
    if sizes == [] {
      assert b[0..] == b;
    } else {
      forall i | 0 <= i < |sizes| - 1
        ensures sizes[1..][i] == UnLe32(b[4..][4 * i..4 * i + 4])
      {
        assert b[4..][4 * i..4 * i + 4] == b[4 * (i + 1)..4 * (i + 1) + 4];
        assert sizes[1..][i] == sizes[i + 1];
      }
      TakeSizesIs(b[4..], sizes[1..]);
      assert b[4..][4 * (|sizes| - 1)..] == b[4 * |sizes|..];
      assert sizes[0] == UnLe32(b[4 * 0..4 * 0 + 4]);
      assert [sizes[0]] + sizes[1..] == sizes;
    }
  }

  /** Fills the size array in place. */
  method ReadSizes(r: Source, count: nat) returns (sizes: array<uint32>, done: nat)
    requires r.Valid()
    modifies r`pos
    ensures r.Valid() && fresh(sizes) && sizes.Length == count && done <= count
    ensures done == count <==> TakeSizes(old(r.Rest()), count).Some?
    ensures done == count ==> Taken(sizes[..], r.Rest()) == TakeSizes(old(r.Rest()), count).value
    ensures done < count ==> done == |old(r.Rest())| / 4
  {
    hide TakeSizes;
    sizes := new uint32[count];
    done := 0;
    ghost var all := r.Rest();
    while done < count
      invariant r.Valid() && done <= count && 4 * done <= |all| && r.Rest() == all[4 * done..]
      invariant forall i | 0 <= i < done :: sizes[i] == UnLe32(all[4 * i..4 * i + 4])
    {
      var x, ok := r.ReadUint32();
      if !ok {
        return;
      }
      assert all[4 * done..][..4] == all[4 * done..4 * done + 4];
      sizes[done] := x;
      done := done + 1;
    }
    TakeSizesIs(all, sizes[..]);
  }

  method DecryptV2(s: Suite, r: Source, dst: Output, key: Bytes) returns (status: Status)
    requires r.Valid()
    modifies r`pos, dst
    ensures var d := DecodeV2(s, old(r.Rest()), key);
      status == d.status && dst.contents == LeftAt(old(dst.contents), d)
  {
    var count, ok := r.ReadUint32();
    if !ok {
      return Failed(ReadCount);
    }
    if count == 0 || count > MAX_CHUNKS {
      return Failed(InvalidCount(count));
    }
    var sizes, done := ReadSizes(r, count);
    if done < count {
      return Failed(ReadSize(done));
    }
    dst.Create();
    if !ValidKey(key) {
      return Panicked;
    }
    ghost var whole := DecodeChunks(s, key, sizes[..], 0, r.Rest(), []);
    assert sizes[0..] == sizes[..];
    for i := 0 to count
      invariant r.Valid() && dst.contents.Some?
      invariant DecodeChunks(s, key, sizes[i..], i, r.Rest(), dst.contents.value) == whole
    {
      var ct := new byte[sizes[i]];
      ghost var rest := r.Rest();
      var n, result := r.ReadFull(ct);
      assert sizes[i..][0] == sizes[i] && sizes[i..][1..] == sizes[i + 1..];
      if result != Full {
        return Failed(ReadChunk(i));
      }
      assert ct[..] == ct[..n] == rest[..sizes[i]];
      if ct.Length < NONCE_SIZE {
        return Failed(ChunkTooShort(i));
      }
      var pt := s.open(key, ct[..NONCE_SIZE], ct[NONCE_SIZE..]);
      assert pt == OpenChunkBytes(s, key, rest[..sizes[i]]);
      if pt == None {
        return Failed(OpenChunk(i));
      }
      dst.Write(pt.value);
    }
    return Done;
  }

  method DecryptFileStreaming(s: Suite, src: Source, dst: Output, key: Bytes) returns (status: Status)
    requires src.Valid()
    modifies src`pos, dst
    ensures var d := DecodeFile(s, old(src.Rest()), key);
      status == d.status && dst.contents == LeftAt(old(dst.contents), d)
  {
    var magic := new byte[MAGIC_SIZE];
    var n, result := src.ReadFull(magic);
    if result != Full {
      return Failed(ReadMagic);
    }
    assert magic[..] == magic[..MAGIC_SIZE];
    if magic[..] == V1_MAGIC {
      status := DecryptV1(s, src, dst, key);
    } else if magic[..] == V2_MAGIC {
      status := DecryptV2(s, src, dst, key);
    } else {
      status := Failed(UnknownFormat);
    }
  }
}
