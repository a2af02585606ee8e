/** What a pull promises: end-to-end delivery, the exact condition for success,
    independence of order and repetition, and recovery after a failed pull. */
module Transfer {
  import opened Common
  import opened Chunks
  import opened Reassembly
  import opened Files
  import opened Pull

  function Carry(chunks: seq<Chunk>): seq<Reply> {
    if chunks == [] then [] else [Carries(chunks[0])] + Carry(chunks[1..])
  }

  lemma {:induction false} SlicesAreTaken(h: Hash, file: Bytes, chunks: seq<Chunk>)
    requires |file| <= MAX_POSITION && AllSlices(h, file, chunks)
    ensures Taken(h, Carry(chunks)) == chunks && Stop(h, Carry(chunks)) == None
    ensures chunks != [] ==> Carry(chunks) != []
  {
    if chunks != [] {
      assert IsSlice(h, file, chunks[0]);
      SlicesAreTaken(h, file, chunks[1..]);
      assert Carry(chunks)[1..] == Carry(chunks[1..]);
    }
  }

  // ----- Any replies at all -----

  /** A reply the pull takes: a chunk whose bytes hash to what its header claims, at
      a position a file can have. */
  ghost predicate Sound(h: Hash, r: Reply) {
    && r.Carries? && h(r.chunk.payload) == r.chunk.header.chunkHash
    && r.chunk.header.offset <= MAX_POSITION && (r.chunk.payload == [] || End(r.chunk) <= MAX_POSITION)
  }

  lemma {:induction false} StopsAt(h: Hash, replies: seq<Reply>, k: nat)
    requires k <= |replies| && (forall i :: 0 <= i < k ==> Sound(h, replies[i]))
    requires k < |replies| ==> !Sound(h, replies[k])
    ensures Stop(h, replies) == if k < |replies| then Rejection(h, replies[k]) else None
    ensures |Taken(h, replies)| == k && forall i :: 0 <= i < k ==> replies[i] == Carries(Taken(h, replies)[i])
  {
    if k > 0 {
      StopsAt(h, replies[1..], k - 1);
    }
  }

  /** The first reply that is not sound ends the pull, with the error of its kind, and
      leaves the chunks before it in the temporary file; without one there is no such
      error. A corrupt chunk is reported even when it could not be written. */
  lemma FirstBadReply(h: Hash, entries: map<string, Bytes>, peer: PeerId, digest: string, replies: seq<Reply>, k: nat)
    requires digest !in entries && k < |replies| && (forall i :: 0 <= i < k ==> Sound(h, replies[i]))
    requires !Sound(h, replies[k])
    ensures var outcome := PullOutcome(h, entries, peer, digest, replies);
      && |Taken(h, replies)| == k && (forall i :: 0 <= i < k ==> replies[i] == Carries(Taken(h, replies)[i]))
      && outcome.entries == entries[digest + ".partial" := Reassemble(Taken(h, replies))]
      && match replies[k]
         case Failed(reason) => outcome.result == Err(Transport("reply error: " + reason))
         case Headless => outcome.result == Err(MalformedReply("reply missing chunk-header attachment"))
         case Garbled(reason) => outcome.result == Err(MalformedReply("decoding chunk header: " + reason))
         case Carries(c) => outcome.result == Err(if h(c.payload) != c.header.chunkHash then ChunkVerify(c.header.offset) else Io)
  {
    StopsAt(h, replies, k);
    Overwritten(entries, Partial(digest), [], Reassemble(Taken(h, replies)));
  }

  /** Whatever the replies, a pull changes nothing but its temporary file, except to
      add content under its digest that hashes to it; it succeeds exactly when the
      digest is cached afterwards, and what was cached before stays. */
  lemma AnyPullIsSafe(h: Hash, entries: map<string, Bytes>, peer: PeerId, digest: string, replies: seq<Reply>)
    ensures var outcome := PullOutcome(h, entries, peer, digest, replies);
      && outcome.entries - {Partial(digest), digest} == entries - {Partial(digest), digest}
      && (outcome.result.Ok? <==> digest in outcome.entries)
      && (digest in entries ==> outcome == Outcome(Ok(digest), entries))
      && (digest !in entries && digest in outcome.entries ==> h(outcome.entries[digest]) == digest)
  {
    PartialNames(digest, digest);
  }

  // ----- Slices of one file -----

  /** End-to-end delivery. `file` is hosted by any number of senders; each one's
      reads split it in its own way and any of them may stop short; their replies
      arrive interleaved, reordered and repeated in any way. If one sender's whole
      stream is among the replies, the pull succeeds and caches the file byte for
      byte, whatever the directory held before. */
  lemma Delivery(h: Hash, file: Bytes, streams: seq<seq<Chunk>>, whole: nat, replies: seq<Chunk>,
                 entries: map<string, Bytes>, peer: PeerId)
    requires 0 < |file| <= MAX_POSITION && h(file) !in entries
    requires forall s :: s in streams ==> Chunked(h, file, s)
    requires whole < |streams| && Reach(streams[whole]) == |file|
    requires forall c :: c in replies ==> exists s :: s in streams && c in s
    requires forall c :: c in streams[whole] ==> c in replies
    ensures PullOutcome(h, entries, peer, h(file), Carry(replies))
         == Outcome(Ok(h(file)), (entries - {Partial(h(file))})[h(file) := file])
  {
    forall c | c in replies ensures IsSlice(h, file, c) {
      var s :| s in streams && c in s;
      var i :| 0 <= i < |s| && s[i] == c;
    }
    SlicesAreTaken(h, file, replies);
    CompleteStreamRebuilds(h, file, streams[whole], replies);
  }

  /** One undisturbed sender delivers its file if and only if the file is not empty:
      an empty file is streamed as no chunk at all, so nobody seems to host it. */
  lemma OneSenderDelivers(h: Hash, file: Bytes, stream: seq<Chunk>, entries: map<string, Bytes>, peer: PeerId)
    requires |file| <= MAX_POSITION && h(file) !in entries
    requires Chunked(h, file, stream) && Reach(stream) == |file|
    ensures PullOutcome(h, entries, peer, h(file), Carry(stream)).result
         == if file == [] then Err(PeerMissing(peer, h(file))) else Ok(h(file))
  {
    if file == [] {
      LastMarksTheEnd(h, file, stream);
    } else {
      Delivery(h, file, [stream], 0, stream, entries, peer);
    }
  }

  /** When every reply is a slice of the file asked for, the pull succeeds exactly
      when the last chunk arrived and the chunks leave no gap but zeros; what it
      caches is then the file. Otherwise the error names what failed: no reply, no last
      chunk, or the digest asked for and the one found. */
  lemma SuccessExactly(h: Hash, file: Bytes, replies: seq<Chunk>, entries: map<string, Bytes>, peer: PeerId)
    requires CollisionFree(h, file)
    requires 0 < |file| <= MAX_POSITION && h(file) !in entries && AllSlices(h, file, replies)
    ensures var outcome := PullOutcome(h, entries, peer, h(file), Carry(replies));
      && (outcome.result.Ok? <==> HasLast(replies) && GapsAreZero(file, replies))
      && (outcome.result.Ok? ==> outcome.entries == (entries - {Partial(h(file))})[h(file) := file])
      && (outcome.result.Err? ==> outcome.entries == entries - {Partial(h(file))})
      && (outcome.result == Err(PeerMissing(peer, h(file))) <==> replies == [])
      && (replies != [] && !HasLast(replies) ==>
            outcome.result == Err(MalformedReply("stream ended without a final chunk")))
      && (HasLast(replies) && !GapsAreZero(file, replies) ==>
            outcome.result == Err(RootVerify(h(file), h(Reassemble(replies)))) && h(Reassemble(replies)) != h(file))
  {
    SlicesAreTaken(h, file, replies);
    RebuiltExactly(h, file, replies);
    assert h(Reassemble(replies)) == h(file) <==> Reassemble(replies) == file;
  }

  /** The same slices in another order, or repeated, have the same outcome. */
  lemma ArrivalOrderIsIrrelevant(h: Hash, file: Bytes, a: seq<Chunk>, b: seq<Chunk>,
                                 entries: map<string, Bytes>, peer: PeerId, digest: string)
    requires |file| <= MAX_POSITION && AllSlices(h, file, a) && (forall c :: c in a <==> c in b)
    ensures PullOutcome(h, entries, peer, digest, Carry(a)) == PullOutcome(h, entries, peer, digest, Carry(b))
  {
    SlicesAreTaken(h, file, a);
    SlicesAreTaken(h, file, b);
    OrderIsIrrelevant(h, file, a, b);
    assert a == [] <==> b == [] by {
      assert a != [] ==> a[0] in b;
      assert b != [] ==> b[0] in a;
    }
    assert Carry([]) == [];
    assert HasLast(a) <==> HasLast(b);
  }

  /** A pull never looks at a leftover temporary file: caches that differ only
      there give the same result, and end up equal unless the digest was cached. */
  lemma LeftoverIsIrrelevant(h: Hash, a: map<string, Bytes>, b: map<string, Bytes>, peer: PeerId,
                             digest: string, replies: seq<Reply>)
    requires a - {Partial(digest)} == b - {Partial(digest)}
    ensures PullOutcome(h, a, peer, digest, replies).result == PullOutcome(h, b, peer, digest, replies).result
    ensures digest !in a ==> PullOutcome(h, a, peer, digest, replies) == PullOutcome(h, b, peer, digest, replies)
  {
    var tmp := Partial(digest);
    PartialNames(digest, digest);
    assert digest in a <==> digest in a - {tmp};
    assert digest in b <==> digest in b - {tmp};
    var content := Reassemble(Taken(h, replies));
    assert a[tmp := content] == (a - {tmp})[tmp := content];
    assert b[tmp := content] == (b - {tmp})[tmp := content];
  }

  /** A failed pull can be retried: whatever replies the first attempt got, a
      second attempt that is served a whole stream delivers the file. */
  lemma RetryDelivers(h: Hash, file: Bytes, first: seq<Reply>, stream: seq<Chunk>,
                      entries: map<string, Bytes>, peer: PeerId)
    requires 0 < |file| <= MAX_POSITION && h(file) !in entries
    requires Chunked(h, file, stream) && Reach(stream) == |file|
    ensures var after := PullOutcome(h, entries, peer, h(file), first);
      after.result.Err? ==>
        PullOutcome(h, after.entries, peer, h(file), Carry(stream))
        == Outcome(Ok(h(file)), (entries - {Partial(h(file))})[h(file) := file])
  {
    var tmp := Partial(h(file));
    PartialNames(h(file), h(file));
    var after := PullOutcome(h, entries, peer, h(file), first);
    if after.result.Err? {
      Overwritten(entries, tmp, [], Reassemble(Taken(h, first)));
      assert entries - {tmp} - {tmp} == entries - {tmp};
      assert after.entries - {tmp} == entries - {tmp};
      LeftoverIsIrrelevant(h, entries, after.entries, peer, h(file), Carry(stream));
      Delivery(h, file, [stream], 0, stream, entries, peer);
    }
  }
}
