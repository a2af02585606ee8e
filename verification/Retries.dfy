/** Retries that begin too early: a late write of the first attempt, what honest
    senders alone can break, and overlaps that do no harm. */
module Retries {
  import opened Common
  import opened Chunks
  import opened Reassembly
  import opened Files
  import opened Pull
  import opened CacheRuns
  import opened Overlap

  // ----- Runs in pieces -----

  lemma ExecThree(h: Hash, s: State, a: Step, b: Step, c: Step)
    requires s.disk.Valid()
    ensures Next(h, s, a).disk.Valid() && Next(h, Next(h, s, a), b).disk.Valid()
    ensures Exec(h, s, [a, b, c]) == Next(h, Next(h, Next(h, s, a), b), c)
  {
    ExecStep(h, s, a, [b, c]);
    ExecStep(h, Next(h, s, a), b, [c]);
    ExecStep(h, Next(h, Next(h, s, a), b), c, []);
    assert [a] + [b, c] == [a, b, c] && [b] + [c] == [b, c] && [c] + [] == [c];
  }

  lemma Joined(step: Step, rest: seq<Step>, more: seq<Step>)
    ensures [step] + (rest + more) == [step] + rest + more
  {
  }

  lemma SplitStep(h: Hash, s: State, step: Step, rest: seq<Step>, more: seq<Step>)
    requires s.disk.Valid() && Next(h, s, step).disk.Valid()
    requires Exec(h, Next(h, s, step), rest + more) == Exec(h, Exec(h, Next(h, s, step), rest), more)
    ensures Exec(h, s, [step] + rest + more) == Exec(h, Exec(h, s, [step] + rest), more)
  {
    ExecStep(h, s, step, rest);
    ExecStep(h, s, step, rest + more);
    Joined(step, rest, more);
  }

  lemma {:induction false} ExecSplit(h: Hash, s: State, run: seq<Step>, more: seq<Step>)
    requires s.disk.Valid()
    ensures Exec(h, s, run + more) == Exec(h, Exec(h, s, run), more)
    decreases |run|
  {
    if run == [] {
      assert run + more == more;
    } else {
      StepKeepsDisk(h, s, run[0]);
      ExecSplit(h, Next(h, s, run[0]), run[1..], more);
      SplitStep(h, s, run[0], run[1..], more);
      assert [run[0]] + run[1..] == run;
    }
  }

  lemma ExecJoined(h: Hash, s: State, a: seq<Step>, b: seq<Step>, step: Step)
    requires s.disk.Valid()
    ensures Exec(h, s, a + b + [step]) == Next(h, Exec(h, Exec(h, s, a), b), step)
  {
    ExecSplit(h, s, a, b);
    ExecSplit(h, s, a + b, [step]);
    ExecStep(h, Exec(h, s, a + b), step, []);
    assert [step] + [] == [step];
  }

  lemma ExecOne(h: Hash, s: State, step: Step)
    requires s.disk.Valid()
    ensures Exec(h, s, [step]) == Next(h, s, step)
  {
    ExecStep(h, s, step, []);
    assert [step] + [] == [step];
  }

  // ----- Receiving several chunks -----

  function AcceptsOf(id: PullId, chunks: seq<Chunk>): seq<Step> {
    seq(|chunks|, k requires 0 <= k < |chunks| => Accept(id, Carries(chunks[k])))
  }

  /** The file after writing `chunks` over what it held. */
  function Written(content: Bytes, chunks: seq<Chunk>): Bytes {
    if chunks == [] then content else
    var c := chunks[|chunks| - 1];
    WriteAt(Written(content, chunks[..|chunks| - 1]), c.header.offset, c.payload)
  }

  lemma {:induction false} WrittenFromNothing(chunks: seq<Chunk>)
    ensures Written([], chunks) == Reassemble(chunks)
    decreases |chunks|
  {
    if chunks != [] {
      WrittenFromNothing(chunks[..|chunks| - 1]);
    }
  }

  lemma WriteExtends(file: Bytes, before: Bytes, offset: nat, data: Bytes)
    requires data != [] && offset + |data| <= |file| && data == file[offset..offset + |data|]
    requires offset <= |before| <= |file| && before[..offset] == file[..offset]
    ensures var r := WriteAt(before, offset, data);
      offset + |data| <= |r| <= |file| && r[..offset + |data|] == file[..offset + |data|]
  {
    var r := WriteAt(before, offset, data);
    WriteAtBytes(before, offset, data);
    assert r[..offset + |data|] == before[..offset] + data;
    assert file[..offset] + file[offset..offset + |data|] == file[..offset + |data|];
  }

  /** A stream of the file, over anything that is not longer, leaves the file as far as
      the stream got. */
  lemma {:induction false} WrittenOver(h: Hash, file: Bytes, content: Bytes, chunks: seq<Chunk>)
    requires Chunked(h, file, chunks) && |content| <= |file|
    ensures var w := Written(content, chunks); Reach(chunks) <= |w| <= |file| && w[..Reach(chunks)] == file[..Reach(chunks)]
    decreases |chunks|
  {
    if chunks != [] {
      var c, earlier := chunks[|chunks| - 1], chunks[..|chunks| - 1];
      ChunkedShrinks(h, file, chunks);
      WrittenOver(h, file, content, earlier);
      assert IsSlice(h, file, c);
      WriteExtends(file, Written(content, earlier), c.header.offset, c.payload);
    }
  }

  /** What a pull has done once it has accepted them all. */
  ghost function Receiver(s: State, id: PullId, chunks: seq<Chunk>): State
    requires Tracked(s) && id in s.pulls && s.pulls[id].phase.Receiving?
  {
    var p := s.pulls[id];
    assert HandleOk(s.disk, p);
    var phase := Receiving(p.phase.handle, p.phase.gotAny || chunks != [], p.phase.gotLast || HasLast(chunks));
    s.(disk := s.disk.Stored(p.phase.handle, Written(s.disk.data[p.phase.handle], chunks)),
       pulls := s.pulls[id := p.(phase := phase)])
  }

  lemma LastOne(chunks: seq<Chunk>, c: Chunk)
    ensures HasLast(chunks + [c]) <==> HasLast(chunks) || c.header.last
    ensures (chunks + [c])[..|chunks|] == chunks && (chunks + [c])[|chunks|] == c
  {
    assert c in chunks + [c];
    assert forall d :: d in chunks ==> d in chunks + [c];
  }

  lemma ReceiverGrows(h: Hash, s: State, id: PullId, chunks: seq<Chunk>, c: Chunk)
    requires Tracked(s) && id in s.pulls && s.pulls[id].phase.Receiving? && Rejection(h, Carries(c)) == None
    requires Tracked(Receiver(s, id, chunks))
    ensures Next(h, Receiver(s, id, chunks), Accept(id, Carries(c))) == Receiver(s, id, chunks + [c])
  {
    var p, t := s.pulls[id], Receiver(s, id, chunks);
    assert HandleOk(s.disk, p);
    AcceptedChunk(h, t, id, c);
    LastOne(chunks, c);
    StoredTwice(s.disk, p.phase.handle, Written(s.disk.data[p.phase.handle], chunks),
                Written(s.disk.data[p.phase.handle], chunks + [c]));
    Overwritten(s.pulls, id, t.pulls[id], Receiver(s, id, chunks + [c]).pulls[id]);
  }

  lemma OneMoreAccept(h: Hash, s: State, id: PullId, chunks: seq<Chunk>, c: Chunk)
    requires s.disk.Valid()
    ensures Exec(h, s, AcceptsOf(id, chunks + [c])) == Next(h, Exec(h, s, AcceptsOf(id, chunks)), Accept(id, Carries(c)))
  {
    var last := Accept(id, Carries(c));
    assert AcceptsOf(id, chunks + [c]) == AcceptsOf(id, chunks) + [last];
    ExecSplit(h, s, AcceptsOf(id, chunks), [last]);
    ExecOne(h, Exec(h, s, AcceptsOf(id, chunks)), last);
  }

  lemma {:induction false} AcceptedAll(h: Hash, s: State, id: PullId, chunks: seq<Chunk>)
    requires Tracked(s) && id in s.pulls && s.pulls[id].phase.Receiving?
    requires forall c :: c in chunks ==> Rejection(h, Carries(c)) == None
    ensures Exec(h, s, AcceptsOf(id, chunks)) == Receiver(s, id, chunks)
    decreases |chunks|
  {
    if chunks == [] {
      NothingReceived(s, id);
      assert AcceptsOf(id, chunks) == [];
    } else {
      var c, earlier := chunks[|chunks| - 1], chunks[..|chunks| - 1];
      assert c in chunks && earlier + [c] == chunks;
      AcceptedAll(h, s, id, earlier);
      EveryRunIsTracked(h, s, AcceptsOf(id, earlier));
      OneMoreAccept(h, s, id, earlier, c);
      ReceiverGrows(h, s, id, earlier, c);
    }
  }

  lemma NothingReceived(s: State, id: PullId)
    requires Tracked(s) && id in s.pulls && s.pulls[id].phase.Receiving?
    ensures Receiver(s, id, []) == s
  {
    var p := s.pulls[id];
    assert HandleOk(s.disk, p);
    assert s.disk.data[p.phase.handle := s.disk.data[p.phase.handle]] == s.disk.data;
    assert s.pulls[id := p] == s.pulls;
  }

  // ----- A write that lands late -----

  /** These chunks deliver the file, as any whole stream of it does. */
  ghost predicate Delivers(h: Hash, file: Bytes, chunks: seq<Chunk>) {
    (forall c :: c in chunks ==> Rejection(h, Carries(c)) == None) && HasLast(chunks) && Reassemble(chunks) == file
  }

  lemma StreamDelivers(h: Hash, file: Bytes, chunks: seq<Chunk>)
    requires 0 < |file| <= MAX_POSITION && Chunked(h, file, chunks) && Reach(chunks) == |file|
    ensures Delivers(h, file, chunks)
  {
    CompleteStreamRebuilds(h, file, chunks, chunks);
    forall c | c in chunks ensures Rejection(h, Carries(c)) == None {
      assert IsSlice(h, file, c);
    }
  }

  /** A second attempt that is served these chunks. */
  function Retry(id: PullId, digest: string, chunks: seq<Chunk>): seq<Step> {
    [Begin(id, digest), Open(id)] + AcceptsOf(id, chunks) + [Finish(id, false), Rename(id)]
  }

  /** What the second attempt leaves: it delivered the file. */
  ghost function Retried(s: State, a: PullId, file: Bytes, digest: string): State
    requires Tracked(s) && a in s.pulls && HoldsTmp(s, a, digest) && Partial(digest) != digest
  {
    State(s.disk.Stored(s.pulls[a].phase.handle, file).Renamed(Partial(digest), digest), s.pulls,
          s.served + [(digest, file)])
  }

  /** The second attempt opens the very file the first one holds. */
  lemma RetryOpens(h: Hash, s: State, a: PullId, id: PullId, digest: string)
    requires Tracked(s) && IsDigest(digest) && a in s.pulls && HoldsTmp(s, a, digest)
    requires id !in s.pulls && digest !in s.disk.names
    ensures Exec(h, s, [Begin(id, digest), Open(id)])
         == State(s.disk.Stored(s.pulls[a].phase.handle, []),
                  s.pulls[id := ActivePull(digest, Receiving(s.pulls[a].phase.handle, false, false))], s.served)
  {
    PartialNames(digest, digest);
    var t := Next(h, s, Begin(id, digest));
    ExecStep(h, s, Begin(id, digest), [Open(id)]);
    ExecOne(h, t, Open(id));
    assert [Begin(id, digest)] + [Open(id)] == [Begin(id, digest), Open(id)];
    Overwritten(s.pulls, id, ActivePull(digest, Checked), Next(h, t, Open(id)).pulls[id]);
  }

  lemma RetryReceives(h: Hash, s: State, a: PullId, id: PullId, file: Bytes, chunks: seq<Chunk>)
    requires Tracked(s) && IsDigest(h(file)) && a in s.pulls && HoldsTmp(s, a, h(file))
    requires id !in s.pulls && h(file) !in s.disk.names && Delivers(h, file, chunks)
    ensures Exec(h, s, [Begin(id, h(file)), Open(id)] + AcceptsOf(id, chunks))
         == State(s.disk.Stored(s.pulls[a].phase.handle, file),
                  s.pulls[id := ActivePull(h(file), Receiving(s.pulls[a].phase.handle, true, true))], s.served)
  {
    var inode := s.pulls[a].phase.handle;
    var t := Exec(h, s, [Begin(id, h(file)), Open(id)]);
    RetryOpens(h, s, a, id, h(file));
    EveryRunIsTracked(h, s, [Begin(id, h(file)), Open(id)]);
    ExecSplit(h, s, [Begin(id, h(file)), Open(id)], AcceptsOf(id, chunks));
    AcceptedAll(h, t, id, chunks);
    WrittenFromNothing(chunks);
    StoredTwice(s.disk, inode, [], file);
    Overwritten(s.pulls, id, t.pulls[id], ActivePull(h(file), Receiving(inode, true, true)));
  }

  lemma RetryPublishes(h: Hash, s: State, id: PullId, file: Bytes)
    requires Tracked(s) && IsDigest(h(file)) && id in s.pulls && s.pulls[id].digest == h(file)
    requires HoldsTmp(s, id, h(file)) && s.pulls[id].phase.gotAny && s.pulls[id].phase.gotLast
    requires s.disk.Read(Partial(h(file))) == file && Partial(h(file)) != h(file)
    ensures Exec(h, s, [Finish(id, false), Rename(id)])
         == State(s.disk.Renamed(Partial(h(file)), h(file)), s.pulls - {id}, s.served + [(h(file), file)])
  {
    var t := Next(h, s, Finish(id, false));
    assert t == s.(pulls := s.pulls[id := ActivePull(h(file), Verified)]);
    ExecStep(h, s, Finish(id, false), [Rename(id)]);
    ExecStep(h, t, Rename(id), []);
    assert [Finish(id, false)] + [Rename(id)] == [Finish(id, false), Rename(id)] && [Rename(id)] + [] == [Rename(id)];
    Overwritten(s.pulls, id, s.pulls[id], ActivePull(h(file), Verified));
  }

  lemma RetryCaches(h: Hash, s: State, a: PullId, id: PullId, file: Bytes, chunks: seq<Chunk>)
    requires Tracked(s) && IsDigest(h(file)) && a in s.pulls && HoldsTmp(s, a, h(file))
    requires id !in s.pulls && h(file) !in s.disk.names && Delivers(h, file, chunks) && Partial(h(file)) != h(file)
    ensures Exec(h, s, Retry(id, h(file), chunks)) == Retried(s, a, file, h(file))
  {
    var first := [Begin(id, h(file)), Open(id)] + AcceptsOf(id, chunks);
    var t := Exec(h, s, first);
    RetryReceives(h, s, a, id, file, chunks);
    EveryRunIsTracked(h, s, first);
    ExecSplit(h, s, first, [Finish(id, false), Rename(id)]);
    RetryPublishes(h, t, id, file);
    assert s.pulls[id := t.pulls[id]] - {id} == s.pulls;
  }

  /** The write puts nothing in the file that is not there already. */
  predicate Within(file: Bytes, w: Write) {
    w.payload == [] || (w.offset + |w.payload| <= |file| && w.payload == file[w.offset..w.offset + |w.payload|])
  }

  predicate Fits(w: Write) {
    w.offset + |w.payload| <= MAX_POSITION
  }

  lemma LandsWithin(file: Bytes, w: Write)
    ensures Landed(file, w) == file <==> !Fits(w) || Within(file, w)
  {
    if Fits(w) && w.payload != [] {
      WriteAtBytes(file, w.offset, w.payload);
      var r := WriteAt(file, w.offset, w.payload);
      if Within(file, w) {
        assert r == file;
      }
      if r == file {
        assert w.payload == file[w.offset..w.offset + |w.payload|];
      }
    }
  }

  lemma RetriedReads(h: Hash, s: State, a: PullId, file: Bytes)
    requires Inv(h, s) && Tracked(s) && IsDigest(h(file)) && a in s.pulls && HoldsTmp(s, a, h(file))
    requires Partial(h(file)) != h(file) && s.pulls[a].digest == h(file)
    ensures CacheVerified(h, Retried(s, a, file, h(file)).disk)
  {
  }

  lemma LateLands(h: Hash, s: State, a: PullId, file: Bytes, w: Write)
    requires Inv(h, s) && Tracked(s) && Pullable(h, file) && a in s.pulls && HoldsTmp(s, a, h(file))
    requires Partial(h(file)) != h(file) && s.pulls[a].digest == h(file)
    ensures var t := Next(h, Retried(s, a, file, h(file)), Abort(a, Some(w)));
      t.disk.Valid() && (CacheVerified(h, t.disk) <==> Landed(file, w) == file)
  {
    var t := Next(h, Retried(s, a, file, h(file)), Abort(a, Some(w)));
    assert h(file) in t.disk.names && t.disk.Read(h(file)) == Landed(file, w);
    if Landed(file, w) == file {
      assert t.disk.data == Retried(s, a, file, h(file)).disk.data;
      RetriedReads(h, s, a, file);
    }
  }

  /** A write that lands after its pull returned an error. The retry, served anything
      that delivers the file, delivers it; but the file it published is the one the
      first attempt holds. When the pending write then lands, the cache stays verified
      if and only if the write fits no file at all, or writes what the file holds there. */
  lemma LateWriteExactly(h: Hash, s: State, a: PullId, id: PullId, file: Bytes, chunks: seq<Chunk>, w: Write)
    requires Inv(h, s) && Pullable(h, file) && id !in s.pulls && Delivers(h, file, chunks)
    requires a in s.pulls && s.pulls[a].digest == h(file) && s.pulls[a].phase.Receiving?
    ensures Exec(h, s, Retry(id, h(file), chunks)).served == s.served + [(h(file), file)]
    ensures CacheVerified(h, Exec(h, s, Retry(id, h(file), chunks)).disk)
    ensures CacheVerified(h, Exec(h, s, Retry(id, h(file), chunks) + [Abort(a, Some(w))]).disk)
            <==> !Fits(w) || Within(file, w)
  {
    var d, last := h(file), Abort(a, Some(w));
    assert PullOk(h, s.disk, s.pulls[a]);
    PartialNames(d, d);
    InvIsTracked(h, s);
    RetryCaches(h, s, a, id, file, chunks);
    ExecSplit(h, s, Retry(id, d, chunks), [last]);
    ExecOne(h, Retried(s, a, file, d), last);
    RetriedReads(h, s, a, file);
    LateLands(h, s, a, file, w);
    LandsWithin(file, w);
  }

  // ----- What honest senders can break -----

  /** Every chunk is a slice of the file, and every late write part of one. */
  ghost predicate Honest(h: Hash, file: Bytes, run: seq<Step>) {
    forall k :: 0 <= k < |run| ==> HonestStep(h, file, run[k])
  }

  ghost predicate HonestStep(h: Hash, file: Bytes, step: Step) {
    match step
    case Accept(_, reply) => reply.Carries? && IsSlice(h, file, reply.chunk)
    case Abort(_, written) => written.Some? ==> Within(file, written.value)
    case _ => true
  }

  ghost predicate HonestlyBreaks(h: Hash, s: State, a: PullId, b: PullId, file: Bytes, run: seq<Step>)
    requires s.disk.Valid()
  {
    Breaks(h, s, a, b, run) && Honest(h, file, run)
  }

  /** Some continuation by these two pulls alone, served slices of the file only,
      leaves an unverified entry. */
  ghost predicate HonestlyBreakable(h: Hash, s: State, a: PullId, b: PullId, file: Bytes)
    requires s.disk.Valid()
  {
    exists run :: HonestlyBreaks(h, s, a, b, file, run)
  }

  lemma HonestPrefix(h: Hash, s: State, a: PullId, b: PullId, file: Bytes, first: seq<Step>)
    requires s.disk.Valid() && OnlyOf(first, a, b) && Honest(h, file, first)
    requires HonestlyBreakable(h, Exec(h, s, first), a, b, file)
    ensures HonestlyBreakable(h, s, a, b, file)
  {
    var rest :| HonestlyBreaks(h, Exec(h, s, first), a, b, file, rest);
    ExecSplit(h, s, first, rest);
    assert HonestlyBreaks(h, s, a, b, file, first + rest);
  }

  lemma HonestOneMore(h: Hash, s: State, a: PullId, b: PullId, file: Bytes, step: Step)
    requires s.disk.Valid() && !step.Begin? && (step.id == a || step.id == b) && HonestStep(h, file, step)
    requires Next(h, s, step).disk.Valid() && HonestlyBreakable(h, Next(h, s, step), a, b, file)
    ensures HonestlyBreakable(h, s, a, b, file)
  {
    ExecOne(h, s, step);
    HonestPrefix(h, s, a, b, file, [step]);
  }

  /** The first pull has passed its check; the second opens, and so empties, the file
      that the first then renames. */
  lemma VerifiedThenOpened(h: Hash, s: State, a: PullId, b: PullId, file: Bytes)
    requires Tracked(s) && Pullable(h, file) && file != [] && Pair(s, a, b, h(file))
    requires s.pulls[a].phase.Verified? && s.pulls[b].phase.Checked?
    ensures HonestlyBreakable(h, s, a, b, file)
  {
    var d := h(file);
    NoDigestIsPartial(d, d);
    OpenedPull(h, s, b, d);
    var t := Next(h, s, Open(b));
    var u := Next(h, t, Rename(a));
    StepIsTracked(h, t, Rename(a));
    assert d in u.disk.names && u.disk.Read(d) == [];
    assert HonestlyBreaks(h, u, a, b, file, []);
    HonestOneMore(h, t, a, b, file, Rename(a));
    HonestOneMore(h, s, a, b, file, Open(b));
  }

  /** Some stream of the file, as far as `n`. */
  lemma {:induction false} SomeStream(h: Hash, file: Bytes, n: nat) returns (chunks: seq<Chunk>)
    requires n <= |file|
    ensures Chunked(h, file, chunks) && Reach(chunks) == n
    decreases n
  {
    if n == 0 {
      return [];
    }
    var start := if n <= CHUNK_SIZE then 0 else n - CHUNK_SIZE;
    chunks := SomeStream(h, file, start);
    var payload := file[start..n];
    var c := Chunk(ChunkHeader(start, h(payload), n - start, n == |file|), payload);
    ChunkedGrows(h, file, chunks, c);
    chunks := chunks + [c];
  }

  /** The first pull holds the temporary file, which is not too long: it is served the
      file and passes its check. */
  lemma HoldingThenOpened(h: Hash, s: State, a: PullId, b: PullId, file: Bytes)
    requires Tracked(s) && Pullable(h, file) && file != [] && Pair(s, a, b, h(file))
    requires HoldsTmp(s, a, h(file)) && |s.disk.Read(Partial(h(file)))| <= |file| && s.pulls[b].phase.Checked?
    ensures HonestlyBreakable(h, s, a, b, file)
  {
    var chunks := SomeStream(h, file, |file|);
    StreamDelivers(h, file, chunks);
    AcceptedAll(h, s, a, chunks);
    EveryRunIsTracked(h, s, AcceptsOf(a, chunks));
    WrittenWhole(h, file, s.disk.Read(Partial(h(file))), chunks);
    JudgedThenOpened(h, Receiver(s, a, chunks), a, b, file);
    AcceptsAreHonest(h, file, a, b, chunks);
    HonestPrefix(h, s, a, b, file, AcceptsOf(a, chunks));
  }

  lemma WrittenWhole(h: Hash, file: Bytes, content: Bytes, chunks: seq<Chunk>)
    requires Chunked(h, file, chunks) && Reach(chunks) == |file| && |content| <= |file|
    ensures Written(content, chunks) == file
  {
    WrittenOver(h, file, content, chunks);
    var w := Written(content, chunks);
    assert w[..|file|] == w && file[..|file|] == file;
  }

  lemma AcceptsAreHonest(h: Hash, file: Bytes, a: PullId, b: PullId, chunks: seq<Chunk>)
    requires Chunked(h, file, chunks)
    ensures OnlyOf(AcceptsOf(a, chunks), a, b) && Honest(h, file, AcceptsOf(a, chunks))
  {
  }

  lemma JudgedThenOpened(h: Hash, s: State, a: PullId, b: PullId, file: Bytes)
    requires Tracked(s) && Pullable(h, file) && file != [] && Pair(s, a, b, h(file))
    requires HoldsTmp(s, a, h(file)) && s.disk.Read(Partial(h(file))) == file && s.pulls[b].phase.Checked?
    requires s.pulls[a].phase.gotAny && s.pulls[a].phase.gotLast
    ensures HonestlyBreakable(h, s, a, b, file)
  {
    var t := Next(h, s, Finish(a, false));
    assert t == s.(pulls := s.pulls[a := ActivePull(h(file), Verified)]);
    StepIsTracked(h, s, Finish(a, false));
    VerifiedThenOpened(h, t, a, b, file);
    HonestOneMore(h, s, a, b, file, Finish(a, false));
  }

  /** What keeps honest runs from breaking anything. */
  ghost predicate Calm(h: Hash, s: State, a: PullId, b: PullId, file: Bytes) {
    && Tracked(s) && CacheVerified(h, s.disk)
    && forall id :: (id == a || id == b) && id in s.pulls ==>
         s.pulls[id].digest == h(file) && CalmPull(s, id, if id == a then b else a, file)
  }

  /** A pull that has yet to open its file empties nothing that matters: the file is
      empty anyway, or the other pull can never pass its check before that. */
  ghost predicate CalmPull(s: State, id: PullId, other: PullId, file: Bytes)
    requires s.disk.Valid() && id in s.pulls
  {
    var d := s.pulls[id].digest;
    match s.pulls[id].phase
    case Checked => file == [] || (other in s.pulls ==> HoldsTmp(s, other, d) && |s.disk.Read(Partial(d))| > |file|)
    case Receiving(_, _, _) => true
    case Verified => Partial(d) in s.disk.names ==> s.disk.Read(Partial(d)) == file
  }

  /** A write through an open handle of what the file holds there. */
  lemma WriteStaysCalm(h: Hash, s: State, t: State, a: PullId, b: PullId, id: PullId, file: Bytes, w: Write)
    requires Calm(h, s, a, b, file) && Pullable(h, file) && a != b && (id == a || id == b)
    requires id in s.pulls && s.pulls[id].phase.Receiving? && s.pulls[id].phase.handle in s.disk.data
    requires Within(file, w) && Tracked(t)
    requires t.disk == s.disk.Stored(s.pulls[id].phase.handle, WriteAt(s.disk.data[s.pulls[id].phase.handle], w.offset, w.payload))
    requires forall other :: other in t.pulls ==> other in s.pulls
    requires forall other :: other in t.pulls && other != id ==> t.pulls[other] == s.pulls[other]
    requires id in t.pulls ==> t.pulls[id].digest == s.pulls[id].digest && t.pulls[id].phase.Receiving?
                               && t.pulls[id].phase.handle == s.pulls[id].phase.handle
    ensures Calm(h, t, a, b, file)
  {
    var d, handle := h(file), s.pulls[id].phase.handle;
    NoDigestIsPartial(d, d);
    assert HandleOk(s.disk, s.pulls[id]);
    WriteGrows(s.disk.data[handle], w.offset, w.payload);
    WithinKeeps(file, w);
    forall n | n in t.disk.names && IsDigest(n) ensures h(t.disk.Read(n)) == n {
      NoDigestIsPartial(d, n);
      assert h(s.disk.Read(n)) == n;
      assert s.disk.names[n] == handle ==> n == d && s.disk.Read(n) == file;
    }
    forall x | (x == a || x == b) && x in t.pulls
      ensures t.pulls[x].digest == h(file) && CalmPull(t, x, if x == a then b else a, file)
    {
      assert CalmPull(s, x, if x == a then b else a, file);
    }
  }

  lemma WithinKeeps(file: Bytes, w: Write)
    requires Within(file, w)
    ensures WriteAt(file, w.offset, w.payload) == file
  {
    if w.payload != [] {
      WriteAtBytes(file, w.offset, w.payload);
    }
  }

  lemma FewerStaysCalm(h: Hash, s: State, a: PullId, b: PullId, id: PullId, file: Bytes)
    requires Calm(h, s, a, b, file)
    ensures Calm(h, s.(pulls := s.pulls - {id}), a, b, file)
  {
    var t := s.(pulls := s.pulls - {id});
    forall x | (x == a || x == b) && x in t.pulls ensures CalmPull(t, x, if x == a then b else a, file) {
      assert CalmPull(s, x, if x == a then b else a, file);
    }
  }

  lemma AcceptStaysCalm(h: Hash, s: State, a: PullId, b: PullId, id: PullId, file: Bytes, c: Chunk)
    requires Calm(h, s, a, b, file) && Pullable(h, file) && a != b && (id == a || id == b) && IsSlice(h, file, c)
    ensures Calm(h, Next(h, s, Accept(id, Carries(c))), a, b, file)
  {
    if id in s.pulls && s.pulls[id].phase.Receiving? {
      AcceptedChunk(h, s, id, c);
      WriteStaysCalm(h, s, Next(h, s, Accept(id, Carries(c))), a, b, id, file, Write(c.header.offset, c.payload));
    }
  }

  lemma AbortStaysCalm(h: Hash, s: State, a: PullId, b: PullId, id: PullId, file: Bytes, written: Option<Write>)
    requires Calm(h, s, a, b, file) && Pullable(h, file) && a != b && (id == a || id == b)
    requires written.Some? ==> Within(file, written.value)
    ensures Calm(h, Next(h, s, Abort(id, written)), a, b, file)
  {
    var t := Next(h, s, Abort(id, written));
    StepIsTracked(h, s, Abort(id, written));
    if id in s.pulls {
      assert HandleOk(s.disk, s.pulls[id]);
      if s.pulls[id].phase.Receiving? && written.Some? && Fits(written.value) {
        WriteStaysCalm(h, s, t, a, b, id, file, written.value);
      } else {
        FewerStaysCalm(h, s, a, b, id, file);
        SameAgain(s, id, written);
      }
    }
  }

  lemma SameAgain(s: State, id: PullId, written: Option<Write>)
    requires Tracked(s) && id in s.pulls
    requires !(s.pulls[id].phase.Receiving? && written.Some? && Fits(written.value))
    ensures Aborted(s, id, written) == s.(pulls := s.pulls - {id})
  {
    if s.pulls[id].phase.Receiving? {
      assert HandleOk(s.disk, s.pulls[id]);
      assert s.disk.data[s.pulls[id].phase.handle := s.disk.data[s.pulls[id].phase.handle]] == s.disk.data;
    }
  }

  lemma OpenStaysCalm(h: Hash, s: State, a: PullId, b: PullId, id: PullId, file: Bytes)
    requires Calm(h, s, a, b, file) && Pullable(h, file) && a != b && (id == a || id == b)
    ensures Calm(h, Next(h, s, Open(id)), a, b, file)
  {
    var t := Next(h, s, Open(id));
    StepIsTracked(h, s, Open(id));
    NoDigestIsPartial(h(file), h(file));
    forall n | n in t.disk.names && IsDigest(n) ensures h(t.disk.Read(n)) == n {
      NoDigestIsPartial(h(file), n);
    }
    forall x | (x == a || x == b) && x in t.pulls
      ensures t.pulls[x].digest == h(file) && CalmPull(t, x, if x == a then b else a, file)
    {
      assert CalmPull(s, x, if x == a then b else a, file);
      assert id in s.pulls ==> CalmPull(s, id, if id == a then b else a, file);
    }
  }

  lemma FinishStaysCalm(h: Hash, s: State, a: PullId, b: PullId, id: PullId, file: Bytes, removed: bool)
    requires Calm(h, s, a, b, file) && Pullable(h, file) && a != b && (id == a || id == b)
    ensures Calm(h, Next(h, s, Finish(id, removed)), a, b, file)
  {
    var t := Next(h, s, Finish(id, removed));
    StepIsTracked(h, s, Finish(id, removed));
    NoDigestIsPartial(h(file), h(file));
    forall x | (x == a || x == b) && x in t.pulls
      ensures t.pulls[x].digest == h(file) && CalmPull(t, x, if x == a then b else a, file)
    {
      assert CalmPull(s, x, if x == a then b else a, file);
    }
  }

  lemma RenameStaysCalm(h: Hash, s: State, a: PullId, b: PullId, id: PullId, file: Bytes)
    requires Calm(h, s, a, b, file) && Pullable(h, file) && a != b && (id == a || id == b)
    ensures Calm(h, Next(h, s, Rename(id)), a, b, file)
  {
    var t := Next(h, s, Rename(id));
    StepIsTracked(h, s, Rename(id));
    NoDigestIsPartial(h(file), h(file));
    if t != s {
      assert CalmPull(s, id, if id == a then b else a, file);
      forall x | (x == a || x == b) && x in t.pulls
        ensures t.pulls[x].digest == h(file) && CalmPull(t, x, if x == a then b else a, file)
      {
        assert CalmPull(s, x, if x == a then b else a, file);
      }
    }
  }

  lemma StepStaysCalm(h: Hash, s: State, a: PullId, b: PullId, file: Bytes, step: Step)
    requires Calm(h, s, a, b, file) && Pullable(h, file) && a != b
    requires !step.Begin? && (step.id == a || step.id == b) && HonestStep(h, file, step)
    ensures Calm(h, Next(h, s, step), a, b, file)
  {
    match step
    case Open(id) => OpenStaysCalm(h, s, a, b, id, file);
    case Accept(id, reply) => AcceptStaysCalm(h, s, a, b, id, file, reply.chunk);
    case Finish(id, removed) => FinishStaysCalm(h, s, a, b, id, file, removed);
    case Rename(id) => RenameStaysCalm(h, s, a, b, id, file);
    case Abort(id, written) => AbortStaysCalm(h, s, a, b, id, file, written);
  }

  lemma {:induction false} RunStaysCalm(h: Hash, s: State, a: PullId, b: PullId, file: Bytes, run: seq<Step>)
    requires Calm(h, s, a, b, file) && Pullable(h, file) && a != b && OnlyOf(run, a, b) && Honest(h, file, run)
    ensures Calm(h, Exec(h, s, run), a, b, file)
    decreases |run|
  {
    if run != [] {
      StepStaysCalm(h, s, a, b, file, run[0]);
      RunStaysCalm(h, Next(h, s, run[0]), a, b, file, run[1..]);
    }
  }

  /** No hostile sender is needed. In every state that disciplined runs reach with a
      pull of the file's digest in flight, one more pull of it lets the two of them,
      served slices of the file only, leave an unverified entry if and only if the file
      is not empty and the first pull has not already received too much. */
  lemma HonestOverlapExactly(h: Hash, s: State, a: PullId, id: PullId, file: Bytes)
    requires Inv(h, s) && Pullable(h, file) && a in s.pulls && s.pulls[a].digest == h(file) && id !in s.pulls
    ensures s.pulls[a].phase.Receiving? ==> Partial(h(file)) in s.disk.names
    ensures var t := Next(h, s, Begin(id, h(file)));
      t.disk.Valid()
      && (HonestlyBreakable(h, t, a, id, file)
          <==> file != [] && (s.pulls[a].phase.Receiving? ==> |s.disk.Read(Partial(h(file)))| <= |file|))
  {
    var d := h(file);
    var t := Next(h, s, Begin(id, d));
    assert PullOk(h, s.disk, s.pulls[a]);
    PartialNames(d, d);
    InvIsTracked(h, s);
    StepIsTracked(h, s, Begin(id, d));
    if file != [] && (s.pulls[a].phase.Receiving? ==> |s.disk.Read(Partial(d))| <= |file|) {
      FirstThenOpened(h, t, a, id, file);
    } else {
      forall run | OnlyOf(run, a, id) && Honest(h, file, run) ensures CacheVerified(h, Exec(h, t, run).disk) {
        RunStaysCalm(h, t, a, id, file, run);
      }
    }
  }

  lemma FirstThenOpened(h: Hash, s: State, a: PullId, b: PullId, file: Bytes)
    requires Tracked(s) && Pullable(h, file) && file != [] && Pair(s, a, b, h(file)) && s.pulls[b].phase.Checked?
    requires s.pulls[a].phase.Receiving? ==> HoldsTmp(s, a, h(file)) && |s.disk.Read(Partial(h(file)))| <= |file|
    ensures HonestlyBreakable(h, s, a, b, file)
  {
    match s.pulls[a].phase
    case Verified => VerifiedThenOpened(h, s, a, b, file);
    case Receiving(_, _, _) => HoldingThenOpened(h, s, a, b, file);
    case Checked =>
      OpenedPull(h, s, a, h(file));
      HoldingThenOpened(h, Next(h, s, Open(a)), a, b, file);
      HonestOneMore(h, s, a, b, file, Open(a));
  }

  // ----- Overlaps that have passed -----

  /** Of these pulls, those in flight write to a file that has lost its name, and their
      temporary name is bound to nothing. */
  ghost predicate Detached(s: State, ids: set<PullId>) {
    && s.disk.Valid()
    && forall id :: id in ids && id in s.pulls ==>
         && s.pulls[id].phase.Receiving? && Partial(s.pulls[id].digest) !in s.disk.names
         && forall n :: n in s.disk.names ==> s.disk.names[n] != s.pulls[id].phase.handle
  }

  ghost predicate StepsOf(run: seq<Step>, ids: set<PullId>) {
    forall k :: 0 <= k < |run| ==> !run[k].Begin? && run[k].id in ids
  }

  lemma DetachedStep(h: Hash, s: State, ids: set<PullId>, step: Step)
    requires Detached(s, ids) && !step.Begin? && step.id in ids
    ensures var t := Next(h, s, step);
      && Detached(t, ids) && t.disk.names == s.disk.names
      && forall n :: n in s.disk.names ==> t.disk.Read(n) == s.disk.Read(n)
  {
  }

  /** Pulls in flight are not always fatal: once their file has lost its name, as when
      another one removed it, they can do no more harm, whatever else is in flight. */
  lemma {:induction false} DetachedIsHarmless(h: Hash, s: State, ids: set<PullId>, run: seq<Step>)
    requires Detached(s, ids) && StepsOf(run, ids)
    ensures Exec(h, s, run).disk.Entries() == s.disk.Entries()
    decreases |run|
  {
    if run != [] {
      var t := Next(h, s, run[0]);
      DetachedStep(h, s, ids, run[0]);
      assert t.disk.Entries() == s.disk.Entries();
      DetachedIsHarmless(h, t, ids, run[1..]);
    }
  }

  /** Three pulls of one digest open its temporary file, and the third gives up. */
  function Begins(digest: string): seq<Step> {
    [Begin(0, digest), Begin(1, digest), Begin(2, digest)]
  }

  const OPENS: seq<Step> := [Open(0), Open(1), Open(2)]

  function AllAt(digest: string, phase: Phase): map<PullId, ActivePull> {
    map[0 := ActivePull(digest, phase), 1 := ActivePull(digest, phase), 2 := ActivePull(digest, phase)]
  }

  lemma AllBegun(h: Hash, digest: string)
    requires FileName(digest)
    ensures Exec(h, EMPTY, Begins(digest)) == EMPTY.(pulls := AllAt(digest, Checked))
  {
    ExecThree(h, EMPTY, Begin(0, digest), Begin(1, digest), Begin(2, digest));
  }

  /** One file, held by all three. */
  function AllHolding(digest: string): State {
    State(Disk(map[Partial(digest) := 0], map[0 := []], 1), AllAt(digest, Receiving(0, false, false)), [])
  }

  lemma AllOpened(h: Hash, digest: string)
    ensures EMPTY.disk.Valid() && Exec(h, EMPTY.(pulls := AllAt(digest, Checked)), OPENS) == AllHolding(digest)
  {
    var s := EMPTY.(pulls := AllAt(digest, Checked));
    ExecThree(h, s, Open(0), Open(1), Open(2));
    var disk := AllHolding(digest).disk;
    var receiving := ActivePull(digest, Receiving(0, false, false));
    assert Next(h, s, Open(0)) == State(disk, s.pulls[0 := receiving], []);
    assert disk.OpenTruncated(Partial(digest)) == disk;
    assert Next(h, Next(h, s, Open(0)), Open(1)) == State(disk, s.pulls[0 := receiving][1 := receiving], []);
  }

  lemma OneGivesUp(h: Hash, digest: string)
    ensures AllHolding(digest).disk.Valid()
    ensures var t := Next(h, AllHolding(digest), Finish(2, true));
      && (forall ids :: Detached(t, ids)) && t.disk.Entries() == map[]
      && Pair(t, 0, 1, digest) && t.pulls[0].phase.Receiving? && t.pulls[1].phase.Receiving?
  {
  }

  lemma AllAtOnce(h: Hash, digest: string)
    requires FileName(digest)
    ensures AllHolding(digest).disk.Valid()
    ensures Exec(h, EMPTY, Begins(digest) + OPENS + [Finish(2, true)]) == Next(h, AllHolding(digest), Finish(2, true))
  {
    AllBegun(h, digest);
    AllOpened(h, digest);
    ExecJoined(h, EMPTY, Begins(digest), OPENS, Finish(2, true));
  }

  lemma AllDetached(h: Hash, s: State, run: seq<Step>)
    requires s.disk.Valid() && (forall ids :: Detached(s, ids)) && forall k :: 0 <= k < |run| ==> !run[k].Begin?
    ensures Exec(h, s, run).disk.Entries() == s.disk.Entries()
  {
    var ids := set k | 0 <= k < |run| :: run[k].id;
    assert Detached(s, ids);
    DetachedIsHarmless(h, s, ids, run);
  }

  /** Such states are reached: the two pulls left are in flight, for the same digest
      and not verified, and harmless from then on. */
  lemma PassedOverlap(h: Hash, digest: string, run: seq<Step>)
    requires FileName(digest) && forall k :: 0 <= k < |run| ==> !run[k].Begin?
    ensures var s := Exec(h, EMPTY, Begins(digest) + OPENS + [Finish(2, true)]);
      && Pair(s, 0, 1, digest) && s.pulls[0].phase.Receiving? && s.pulls[1].phase.Receiving?
      && Exec(h, s, run).disk.Entries() == map[]
  {
    AllAtOnce(h, digest);
    OneGivesUp(h, digest);
    AllDetached(h, Next(h, AllHolding(digest), Finish(2, true)), run);
  }
}
