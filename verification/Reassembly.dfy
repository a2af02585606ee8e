/** Writing chunks at their offsets into a file that starts empty, and what the
    file holds afterwards. */
module Reassembly {
  import opened Common
  import opened Chunks

  function Zeros(n: nat): Bytes {
    seq(n, _ => 0)
  }

  /** Seek, then write everything. Writing past the end fills the gap with zeros;
      writing nothing changes nothing, even past the end. */
  function WriteAt(file: Bytes, offset: nat, data: Bytes): Bytes {
    if data == [] then file else
    var padded := if |file| < offset then file + Zeros(offset - |file|) else file;
    padded[..offset] + data + (if offset + |data| < |file| then file[offset + |data|..] else [])
  }

  lemma WriteAtBytes(file: Bytes, offset: nat, data: Bytes)
    requires data != []
    ensures var r := WriteAt(file, offset, data);
      && |r| == (if |file| < offset + |data| then offset + |data| else |file|)
      && forall i :: 0 <= i < |r| ==>
           r[i] == if offset <= i < offset + |data| then data[i - offset]
                   else if i < |file| then file[i] else 0
  {
  }

  /** The file after writing `chunks` in order. */
  function Reassemble(chunks: seq<Chunk>): Bytes {
    if chunks == [] then [] else
    var c := chunks[|chunks| - 1];
    WriteAt(Reassemble(chunks[..|chunks| - 1]), c.header.offset, c.payload)
  }

  ghost predicate Covered(chunks: seq<Chunk>, position: nat) {
    exists k :: 0 <= k < |chunks| && chunks[k].header.offset <= position < End(chunks[k])
  }

  ghost predicate AllSlices(h: Hash, file: Bytes, chunks: seq<Chunk>) {
    forall c :: c in chunks ==> IsSlice(h, file, c)
  }

  ghost predicate HasLast(chunks: seq<Chunk>) {
    exists c :: c in chunks && c.header.last
  }

  /** The bytes agree with the file wherever a chunk was written, are zero
      elsewhere, and end at the furthest chunk's end. */
  ghost predicate Mirrors(file: Bytes, chunks: seq<Chunk>, r: Bytes) {
    && |r| <= |file|
    && (forall i :: 0 <= i < |r| ==> r[i] == if Covered(chunks, i) then file[i] else 0)
    && (forall i :: |r| <= i ==> !Covered(chunks, i))
    && (r == [] || Covered(chunks, |r| - 1))
  }

  /** Reassembly invariant: while every chunk is a slice of one file, in any order
      and with any repetition, the reassembled bytes mirror it. */
  lemma {:induction false} ReassembledSoFar(h: Hash, file: Bytes, chunks: seq<Chunk>)
    requires AllSlices(h, file, chunks)
    ensures Mirrors(file, chunks, Reassemble(chunks))
    decreases |chunks|
  {
    if chunks != [] {
      var k := |chunks| - 1;
      var c, earlier := chunks[k], chunks[..k];
      assert AllSlices(h, file, earlier) && IsSlice(h, file, c) by {
        assert c in chunks && forall d :: d in earlier ==> d in chunks;
      }
      ReassembledSoFar(h, file, earlier);
      assert chunks == earlier + [c];
      assert Reassemble(chunks) == WriteAt(Reassemble(earlier), c.header.offset, c.payload);
      MirrorsGrows(h, file, earlier, c, Reassemble(earlier));
    }
  }

  lemma MirrorsGrows(h: Hash, file: Bytes, chunks: seq<Chunk>, c: Chunk, r: Bytes)
    requires Mirrors(file, chunks, r) && IsSlice(h, file, c)
    ensures Mirrors(file, chunks + [c], WriteAt(r, c.header.offset, c.payload))
  {
    WriteAtBytes(r, c.header.offset, c.payload);
    forall i: nat
      ensures Covered(chunks + [c], i) <==> Covered(chunks, i) || c.header.offset <= i < End(c)
    {
      CoveredGrows(chunks, c, i);
    }
  }

  lemma CoveredGrows(chunks: seq<Chunk>, c: Chunk, i: nat)
    ensures Covered(chunks + [c], i) <==> Covered(chunks, i) || c.header.offset <= i < End(c)
  {
    var longer := chunks + [c];
    if Covered(chunks, i) {
      var k :| 0 <= k < |chunks| && chunks[k].header.offset <= i < End(chunks[k]);
      assert longer[k] == chunks[k];
    }
    assert longer[|chunks|] == c;
  }

  /** Every byte that no chunk wrote is a zero of the file. */
  ghost predicate GapsAreZero(file: Bytes, chunks: seq<Chunk>) {
    forall i :: 0 <= i < |file| ==> Covered(chunks, i) || file[i] == 0
  }

  /** Slices rebuild a non-empty file exactly when one of them is its last chunk
      and every gap they leave is a run of zeros. Completeness is sufficient; the
      zero gaps are what the write-at-offset file system makes necessary too. */
  lemma RebuiltExactly(h: Hash, file: Bytes, chunks: seq<Chunk>)
    requires AllSlices(h, file, chunks) && file != []
    ensures Reassemble(chunks) == file <==> HasLast(chunks) && GapsAreZero(file, chunks)
  {
    ReassembledSoFar(h, file, chunks);
    var r := Reassemble(chunks);
    if r == file {
      assert Covered(chunks, |r| - 1);
      var k :| 0 <= k < |chunks| && chunks[k].header.offset <= |r| - 1 < End(chunks[k]);
      assert chunks[k] in chunks && IsSlice(h, file, chunks[k]);
      assert chunks[k].header.last;
    }
    if HasLast(chunks) && GapsAreZero(file, chunks) {
      var c :| c in chunks && c.header.last;
      var k :| 0 <= k < |chunks| && chunks[k] == c;
      assert IsSlice(h, file, c);
      assert Covered(chunks, |file| - 1);
      assert |r| == |file|;
    }
  }

  /** The same chunks in another order, or repeated, rebuild the same bytes. */
  lemma OrderIsIrrelevant(h: Hash, file: Bytes, a: seq<Chunk>, b: seq<Chunk>)
    requires AllSlices(h, file, a) && (forall c :: c in a <==> c in b)
    ensures Reassemble(a) == Reassemble(b)
  {
    ReassembledSoFar(h, file, a);
    ReassembledSoFar(h, file, b);
    forall i: nat ensures Covered(a, i) <==> Covered(b, i) {
      CoverageTransfers(a, b, i);
      CoverageTransfers(b, a, i);
    }
  }

  lemma CoverageTransfers(a: seq<Chunk>, b: seq<Chunk>, i: nat)
    requires forall c :: c in a ==> c in b
    ensures Covered(a, i) ==> Covered(b, i)
  {
    if Covered(a, i) {
      var k :| 0 <= k < |a| && a[k].header.offset <= i < End(a[k]);
      assert a[k] in b;
      var m :| 0 <= m < |b| && b[m] == a[k];
    }
  }

  /** One complete stream among the replies is enough, whatever other senders'
      slices are mixed in. */
  lemma CompleteStreamRebuilds(h: Hash, file: Bytes, stream: seq<Chunk>, replies: seq<Chunk>)
    requires file != [] && AllSlices(h, file, replies)
    requires Chunked(h, file, stream) && Reach(stream) == |file|
    requires forall c :: c in stream ==> c in replies
    ensures HasLast(replies) && Reassemble(replies) == file
  {
    LastMarksTheEnd(h, file, stream);
    var final := stream[|stream| - 1];
    assert final in replies && final.header.last;
    forall i | 0 <= i < |file| ensures Covered(replies, i) {
      var k := StreamCovers(h, file, stream, i);
      assert Covered(stream, i);
      CoverageTransfers(stream, replies, i);
    }
    RebuiltExactly(h, file, replies);
  }
}
