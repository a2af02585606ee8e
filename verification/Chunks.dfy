/** The sending half of `furcate-mesh-transfer`: a file cut into labelled chunks,
    and the incremental root hash. */
module Chunks {
  import opened Common

  const CHUNK_SIZE: nat := 1024 * 1024

  /** BLAKE3, printed in hex. Nothing is assumed of it unless a lemma says so. */
  type Hash = Bytes -> string

  /** No other content has the digest of `file`. */
  ghost predicate CollisionFree(h: Hash, file: Bytes) {
    forall other :: h(other) == h(file) ==> other == file
  }

  datatype ChunkHeader = ChunkHeader(offset: nat, chunkHash: string, len: nat, last: bool)

  datatype Chunk = Chunk(header: ChunkHeader, payload: Bytes)

  function End(c: Chunk): nat {
    c.header.offset + |c.payload|
  }

  /** One file read: nothing at the end of the file, otherwise any number of the
      remaining bytes that fits the buffer. */
  method ReadSome(remaining: nat) returns (n: nat)
    ensures n <= remaining && n <= CHUNK_SIZE
    ensures n == 0 <==> remaining == 0
  {
    if remaining == 0 {
      n := 0;
    } else {
      n :| 1 <= n <= remaining && n <= CHUNK_SIZE;
    }
  }

  /** `root_hash`: however the reads split the file, the digest is that of the
      whole content. The streaming hasher is the bytes it has absorbed. */
  method RootHash(h: Hash, content: Bytes) returns (digest: string)
    ensures digest == h(content)
  {
    var absorbed: Bytes, position := [], 0;
    while true
      invariant position <= |content| && absorbed == content[..position]
      decreases |content| - position
    {
      var n := ReadSome(|content| - position);
      if n == 0 {
        break;
      }
      absorbed := absorbed + content[position..position + n];
      position := position + n;
    }
    assert content[..position] == content;
    digest := h(absorbed);
  }

  /** A chunk that tells the truth about `file`. */
  ghost predicate IsSlice(h: Hash, file: Bytes, c: Chunk) {
    && 1 <= |c.payload| <= CHUNK_SIZE
    && End(c) <= |file|
    && c.payload == file[c.header.offset..End(c)]
    && c.header.chunkHash == h(c.payload)
    && c.header.len == |c.payload|
    && (c.header.last <==> End(c) == |file|)
  }

  function Reach(chunks: seq<Chunk>): nat {
    if chunks == [] then 0 else End(chunks[|chunks| - 1])
  }

  /** Slices of `file` that follow one another from offset zero. */
  ghost predicate Chunked(h: Hash, file: Bytes, chunks: seq<Chunk>) {
    && (forall i :: 0 <= i < |chunks| ==> IsSlice(h, file, chunks[i]))
    && (forall i :: 0 <= i < |chunks| ==> chunks[i].header.offset == Reach(chunks[..i]))
  }

  /** `stream_file_chunks`: with `faults`, a read or a reply may fail and the
      stream stops short. */
  method StreamFileChunks(h: Hash, file: Bytes, faults: bool) returns (chunks: seq<Chunk>, complete: bool)
    ensures Chunked(h, file, chunks)
    ensures complete ==> Reach(chunks) == |file|
    ensures !faults ==> complete
  {
    chunks, complete := [], false;
    var totalLen, offset := |file|, 0;
    while true
      invariant Chunked(h, file, chunks)
      invariant offset == Reach(chunks) <= totalLen
      decreases totalLen - offset
    {
      if faults {
        if * { return; }
      }
      var n := ReadSome(totalLen - offset);
      if n == 0 {
        break;
      }
      var payload := file[offset..offset + n];
      var last := offset + n >= totalLen;
      var chunk := Chunk(ChunkHeader(offset, h(payload), n, last), payload);
      if faults {
        if * { return; }
      }
      ChunkedGrows(h, file, chunks, chunk);
      chunks := chunks + [chunk];
      offset := offset + n;
      if last {
        break;
      }
    }
    complete := true;
  }

  lemma ChunkedGrows(h: Hash, file: Bytes, chunks: seq<Chunk>, c: Chunk)
    requires Chunked(h, file, chunks) && IsSlice(h, file, c) && c.header.offset == Reach(chunks)
    ensures Chunked(h, file, chunks + [c])
  {
    var longer := chunks + [c];
    forall i | 0 <= i < |longer| ensures longer[i].header.offset == Reach(longer[..i]) {
      assert longer[..i] == chunks[..i];
      assert chunks[..|chunks|] == chunks;
    }
  }

  lemma ChunkedShrinks(h: Hash, file: Bytes, chunks: seq<Chunk>)
    requires Chunked(h, file, chunks) && chunks != []
    ensures Chunked(h, file, chunks[..|chunks| - 1])
    ensures chunks[|chunks| - 1].header.offset == Reach(chunks[..|chunks| - 1])
  {
    var shorter := chunks[..|chunks| - 1];
    forall i | 0 <= i < |shorter| ensures shorter[i].header.offset == Reach(shorter[..i]) {
      assert shorter[..i] == chunks[..i];
    }
  }

  function Payloads(chunks: seq<Chunk>): Bytes {
    if chunks == [] then [] else Payloads(chunks[..|chunks| - 1]) + chunks[|chunks| - 1].payload
  }

  /** The payloads of a stream, in order, are the file as far as the stream got;
      a complete stream carries the whole file. */
  lemma {:induction false} PayloadsAreFile(h: Hash, file: Bytes, chunks: seq<Chunk>)
    requires Chunked(h, file, chunks)
    ensures Reach(chunks) <= |file| && Payloads(chunks) == file[..Reach(chunks)]
    ensures Reach(chunks) == |file| ==> Payloads(chunks) == file
    decreases |chunks|
  {
    if chunks != [] {
      var c := chunks[|chunks| - 1];
      ChunkedShrinks(h, file, chunks);
      PayloadsAreFile(h, file, chunks[..|chunks| - 1]);
      assert IsSlice(h, file, c);
      assert file[..c.header.offset] + file[c.header.offset..End(c)] == file[..End(c)];
    }
    assert file[..|file|] == file;
  }

  /** Every byte a stream has reached lies in one of its chunks. */
  lemma {:induction false} StreamCovers(h: Hash, file: Bytes, chunks: seq<Chunk>, position: nat) returns (i: nat)
    requires Chunked(h, file, chunks) && position < Reach(chunks)
    ensures i < |chunks| && chunks[i].header.offset <= position < End(chunks[i])
    decreases |chunks|
  {
    i := |chunks| - 1;
    ChunkedShrinks(h, file, chunks);
    if position < chunks[i].header.offset {
      i := StreamCovers(h, file, chunks[..i], position);
    }
  }

  lemma {:induction false} EndsIncrease(h: Hash, file: Bytes, chunks: seq<Chunk>, i: nat)
    requires Chunked(h, file, chunks) && i < |chunks|
    ensures i < |chunks| - 1 ==> End(chunks[i]) < Reach(chunks)
    decreases |chunks|
  {
    if i < |chunks| - 1 {
      ChunkedShrinks(h, file, chunks);
      EndsIncrease(h, file, chunks[..|chunks| - 1], i);
    }
  }

  /** Exactly the final chunk of a complete stream is marked last, and a stream
      that stopped short marks none. An empty file has no chunk at all. */
  lemma LastMarksTheEnd(h: Hash, file: Bytes, chunks: seq<Chunk>)
    requires Chunked(h, file, chunks)
    ensures forall i :: 0 <= i < |chunks| ==>
              (chunks[i].header.last <==> i == |chunks| - 1 && Reach(chunks) == |file|)
    ensures file == [] ==> chunks == []
  {
    forall i | 0 <= i < |chunks|
      ensures chunks[i].header.last <==> i == |chunks| - 1 && Reach(chunks) == |file|
    {
      EndsIncrease(h, file, chunks, i);
    }
    assert chunks != [] ==> IsSlice(h, file, chunks[0]);
  }

  /** When every read fills the buffer or reaches the end of the file, chunk `i`
      starts at `i * CHUNK_SIZE` and there are ceil(len / CHUNK_SIZE) chunks. */
  lemma {:induction false} FullReads(h: Hash, file: Bytes, chunks: seq<Chunk>)
    requires Chunked(h, file, chunks)
    requires forall i :: 0 <= i < |chunks| ==>
               |chunks[i].payload| == CHUNK_SIZE || End(chunks[i]) == |file|
    ensures forall i :: 0 <= i < |chunks| ==> chunks[i].header.offset == i * CHUNK_SIZE
    ensures Reach(chunks) == |file| ==> |chunks| == (|file| + CHUNK_SIZE - 1) / CHUNK_SIZE
  {
    forall i | 0 <= i < |chunks| ensures chunks[i].header.offset == i * CHUNK_SIZE {
      FullOffset(h, file, chunks, i);
    }
    if chunks != [] && Reach(chunks) == |file| {
      var c := chunks[|chunks| - 1];
      assert IsSlice(h, file, c);
      CeilingDivision(|file|, |chunks| - 1, |c.payload|);
    }
  }

  lemma OffsetFollows(h: Hash, file: Bytes, chunks: seq<Chunk>, i: nat)
    requires Chunked(h, file, chunks) && 0 < i < |chunks|
    ensures chunks[i].header.offset == End(chunks[i - 1]) < |file|
  {
    assert IsSlice(h, file, chunks[i]);
    assert chunks[..i][|chunks[..i]| - 1] == chunks[i - 1];
  }

  lemma NextMultiple(i: nat)
    requires i > 0
    ensures (i - 1) * CHUNK_SIZE + CHUNK_SIZE == i * CHUNK_SIZE
  {
  }

  lemma {:induction false} FullOffset(h: Hash, file: Bytes, chunks: seq<Chunk>, i: nat)
    requires Chunked(h, file, chunks) && i < |chunks|
    requires forall j :: 0 <= j < |chunks| ==>
               |chunks[j].payload| == CHUNK_SIZE || End(chunks[j]) == |file|
    ensures chunks[i].header.offset == i * CHUNK_SIZE
    decreases i
  {
    if i > 0 {
      FullOffset(h, file, chunks, i - 1);
      OffsetFollows(h, file, chunks, i);
      assert |chunks[i - 1].payload| == CHUNK_SIZE;
      NextMultiple(i);
    }
  }

  lemma CeilingDivision(len: nat, k: nat, rest: nat)
    requires len == k * CHUNK_SIZE + rest && 1 <= rest <= CHUNK_SIZE
    ensures (len + CHUNK_SIZE - 1) / CHUNK_SIZE == k + 1
  {
    assert len + CHUNK_SIZE - 1 == (k + 1) * CHUNK_SIZE + (rest - 1);
  }
}
