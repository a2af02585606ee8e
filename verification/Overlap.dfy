/** What overlapping pulls of one digest do to the cache, and so when a pull may
    begin. */
module Overlap {
  import opened Common
  import opened Chunks
  import opened Reassembly
  import opened Files
  import opened Pull
  import opened CacheRuns

  /** What every step of the code keeps, overlapping or not: an open handle is a file,
      and that of a digest's pull goes by no name but its temporary one and the digest. */
  ghost predicate Tracked(s: State) {
    s.disk.Valid() && forall id :: id in s.pulls ==> HandleOk(s.disk, s.pulls[id])
  }

  ghost predicate HandleOk(disk: Disk, p: ActivePull) {
    p.phase.Receiving? ==>
      && p.phase.handle in disk.data
      && (IsDigest(p.digest) ==>
            forall n :: n in disk.names && disk.names[n] == p.phase.handle ==> n == Partial(p.digest) || n == p.digest)
  }

  lemma {:induction false} EveryRunIsTracked(h: Hash, s: State, run: seq<Step>)
    requires Tracked(s)
    ensures Tracked(Exec(h, s, run))
    decreases |run|
  {
    if run != [] {
      StepIsTracked(h, s, run[0]);
      EveryRunIsTracked(h, Next(h, s, run[0]), run[1..]);
    }
  }

  lemma StepIsTracked(h: Hash, s: State, step: Step)
    requires Tracked(s)
    ensures Tracked(Next(h, s, step))
  {
    var t := Next(h, s, step);
    forall id | id in t.pulls ensures HandleOk(t.disk, t.pulls[id]) {
      if id in s.pulls {
        assert HandleOk(s.disk, s.pulls[id]);
      }
      if step.id in s.pulls {
        NoDigestIsPartial(s.pulls[step.id].digest, t.pulls[id].digest);
      }
    }
  }

  lemma NoDigestIsPartial(a: string, b: string)
    ensures IsDigest(b) ==> Partial(a) != b
    ensures Partial(a) != a && (Partial(a) == Partial(b) ==> a == b)
  {
    PartialNames(a, b);
    assert Partial(a)[|a|] == '.' && Partial(a)[|a|] in Partial(a);
  }

  /** Both pulls are in flight for this digest. */
  ghost predicate Pair(s: State, a: PullId, b: PullId, digest: string) {
    a != b && a in s.pulls && b in s.pulls && s.pulls[a].digest == digest && s.pulls[b].digest == digest
  }

  /** The pull holds the file that the temporary name is bound to. */
  ghost predicate HoldsTmp(s: State, id: PullId, digest: string)
    requires id in s.pulls
  {
    s.pulls[id].phase.Receiving? && Partial(digest) in s.disk.names
    && s.disk.names[Partial(digest)] == s.pulls[id].phase.handle
  }

  /** The run is made of steps of these two pulls alone. */
  ghost predicate OnlyOf(run: seq<Step>, a: PullId, b: PullId) {
    forall k :: 0 <= k < |run| ==> !run[k].Begin? && (run[k].id == a || run[k].id == b)
  }

  /** Some continuation by these two pulls alone leaves an unverified entry. */
  ghost predicate Breakable(h: Hash, s: State, a: PullId, b: PullId)
    requires s.disk.Valid()
  {
    exists run :: Breaks(h, s, a, b, run)
  }

  ghost predicate Breaks(h: Hash, s: State, a: PullId, b: PullId, run: seq<Step>)
    requires s.disk.Valid()
  {
    OnlyOf(run, a, b) && !CacheVerified(h, Exec(h, s, run).disk)
  }

  lemma OnlyOfGrows(rest: seq<Step>, a: PullId, b: PullId, step: Step)
    requires OnlyOf(rest, a, b) && !step.Begin? && (step.id == a || step.id == b)
    ensures OnlyOf([step] + rest, a, b)
  {
  }

  lemma OneMore(h: Hash, s: State, a: PullId, b: PullId, step: Step)
    requires s.disk.Valid() && !step.Begin? && (step.id == a || step.id == b)
    requires Next(h, s, step).disk.Valid() && Breakable(h, Next(h, s, step), a, b)
    ensures Breakable(h, s, a, b)
  {
    var rest :| Breaks(h, Next(h, s, step), a, b, rest);
    ExecStep(h, s, step, rest);
    OnlyOfGrows(rest, a, b, step);
    assert Breaks(h, s, a, b, [step] + rest);
  }

  lemma BrokenNow(h: Hash, s: State, a: PullId, b: PullId)
    requires s.disk.Valid() && !CacheVerified(h, s.disk)
    ensures Breakable(h, s, a, b)
  {
    assert Breaks(h, s, a, b, []);
  }

  lemma BreakableEitherWay(h: Hash, s: State, a: PullId, b: PullId)
    requires s.disk.Valid() && Breakable(h, s, a, b)
    ensures Breakable(h, s, b, a)
  {
    var run :| Breaks(h, s, a, b, run);
    assert Breaks(h, s, b, a, run);
  }

  /** The file asked for: one that a file system can hold, with a digest of its own. */
  ghost predicate Pullable(h: Hash, file: Bytes) {
    |file| <= MAX_POSITION && CollisionFree(h, file) && IsDigest(h(file))
  }

  /** A chunk with the whole file, and one that spoils it. The receiver checks neither
      a chunk's size nor whether it belongs to the file. */
  function Whole(h: Hash, file: Bytes): Chunk {
    Chunk(ChunkHeader(0, h(file), |file|, true), file)
  }

  function Junk(h: Hash, file: Bytes): Chunk {
    var payload: Bytes := [if file == [] || file[0] != 0 then 0 else 1];
    Chunk(ChunkHeader(0, h(payload), 1, false), payload)
  }

  lemma JunkSpoils(h: Hash, file: Bytes)
    ensures WriteAt(file, 0, Junk(h, file).payload) != file && Rejection(h, Carries(Junk(h, file))) == None
  {
    WriteAtBytes(file, 0, Junk(h, file).payload);
  }

  lemma WriteKeepsFile(content: Bytes, file: Bytes)
    requires |content| <= |file|
    ensures WriteAt(content, 0, file) == file
  {
  }

  // A pull that has passed its check renames whatever the temporary name now holds.

  lemma RenameBreaks(h: Hash, s: State, a: PullId, b: PullId, file: Bytes)
    requires Tracked(s) && Pullable(h, file) && a in s.pulls && s.pulls[a] == ActivePull(h(file), Verified)
    requires Partial(h(file)) in s.disk.names && s.disk.Read(Partial(h(file))) != file
    ensures Breakable(h, s, a, b)
  {
    var d := h(file);
    PartialNames(d, d);
    var t := Next(h, s, Rename(a));
    assert d in t.disk.names && t.disk.Read(d) == s.disk.Read(Partial(d));
    BrokenNow(h, t, a, b);
    OneMore(h, s, a, b, Rename(a));
  }

  /** What an accepted chunk does to the state. */
  lemma AcceptedChunk(h: Hash, s: State, id: PullId, c: Chunk)
    requires Tracked(s) && id in s.pulls && s.pulls[id].phase.Receiving? && Rejection(h, Carries(c)) == None
    ensures s.pulls[id].phase.handle in s.disk.data
    ensures var p, t := s.pulls[id], Next(h, s, Accept(id, Carries(c)));
      && t.disk == s.disk.Stored(p.phase.handle, WriteAt(s.disk.data[p.phase.handle], c.header.offset, c.payload))
      && t.pulls == s.pulls[id := p.(phase := Receiving(p.phase.handle, true, p.phase.gotLast || c.header.last))]
      && t.served == s.served && Tracked(t)
  {
    assert HandleOk(s.disk, s.pulls[id]);
    StepIsTracked(h, s, Accept(id, Carries(c)));
  }

  /** One pull verified, the other still holding the temporary file. */
  lemma VerifiedAndHolding(h: Hash, s: State, a: PullId, b: PullId, file: Bytes)
    requires Tracked(s) && Pullable(h, file) && Pair(s, a, b, h(file))
    requires s.pulls[a].phase.Verified? && HoldsTmp(s, b, h(file))
    ensures Breakable(h, s, a, b)
  {
    var d, c := h(file), Junk(h, file);
    if s.disk.Read(Partial(d)) != file {
      RenameBreaks(h, s, a, b, file);
    } else {
      JunkSpoils(h, file);
      AcceptedChunk(h, s, b, c);
      var t := Next(h, s, Accept(b, Carries(c)));
      assert t.disk.Read(Partial(d)) == WriteAt(file, 0, c.payload);
      RenameBreaks(h, t, a, b, file);
      OneMore(h, s, a, b, Accept(b, Carries(c)));
    }
  }

  /** One pull done receiving, the temporary file whole, the other holding it. */
  lemma JudgedAndHolding(h: Hash, s: State, a: PullId, b: PullId, file: Bytes)
    requires Tracked(s) && Pullable(h, file) && Pair(s, a, b, h(file)) && HoldsTmp(s, b, h(file))
    requires s.pulls[a].phase.Receiving? && s.pulls[a].phase.gotAny && s.pulls[a].phase.gotLast
    requires s.disk.Read(Partial(h(file))) == file
    ensures Breakable(h, s, a, b)
  {
    var t := Next(h, s, Finish(a, false));
    assert t == s.(pulls := s.pulls[a := ActivePull(h(file), Verified)]);
    StepIsTracked(h, s, Finish(a, false));
    VerifiedAndHolding(h, t, a, b, file);
    OneMore(h, s, a, b, Finish(a, false));
  }

  /** The first pull receives the whole file too; that leaves a whole file whole. */
  lemma WholeAndHolding(h: Hash, s: State, a: PullId, b: PullId, file: Bytes)
    requires Tracked(s) && Pullable(h, file) && Pair(s, a, b, h(file)) && HoldsTmp(s, b, h(file))
    requires s.pulls[a].phase.Receiving? && s.disk.Read(Partial(h(file))) == file
    ensures Breakable(h, s, a, b)
  {
    var c := Whole(h, file);
    AcceptedChunk(h, s, a, c);
    WriteKeepsFile(file, file);
    var t := Next(h, s, Accept(a, Carries(c)));
    assert t.disk.Read(Partial(h(file))) == file;
    JudgedAndHolding(h, t, a, b, file);
    OneMore(h, s, a, b, Accept(a, Carries(c)));
  }

  /** Both receiving, one of them into the temporary file, which is not too long. */
  lemma BothReceiving(h: Hash, s: State, a: PullId, b: PullId, file: Bytes)
    requires Tracked(s) && Pullable(h, file) && Pair(s, a, b, h(file)) && HoldsTmp(s, b, h(file))
    requires s.pulls[a].phase.Receiving? && |s.disk.Read(Partial(h(file)))| <= |file|
    ensures Breakable(h, s, a, b)
  {
    var c := Whole(h, file);
    AcceptedChunk(h, s, b, c);
    WriteKeepsFile(s.disk.Read(Partial(h(file))), file);
    var t := Next(h, s, Accept(b, Carries(c)));
    assert t.disk.Read(Partial(h(file))) == file;
    WholeAndHolding(h, t, a, b, file);
    OneMore(h, s, a, b, Accept(b, Carries(c)));
  }

  lemma OpenedPull(h: Hash, s: State, id: PullId, digest: string)
    requires Tracked(s) && id in s.pulls && s.pulls[id] == ActivePull(digest, Checked)
    ensures var t := Next(h, s, Open(id));
      && Tracked(t) && id in t.pulls && t.pulls[id].digest == digest
      && HoldsTmp(t, id, digest) && t.disk.Read(Partial(digest)) == []
      && (forall other :: other in s.pulls && other != id ==> other in t.pulls && t.pulls[other] == s.pulls[other])
  {
    StepIsTracked(h, s, Open(id));
  }

  /** A pull still holding the file that has been published under the digest. */
  lemma PublishedAndHolding(h: Hash, s: State, a: PullId, b: PullId, file: Bytes)
    requires Tracked(s) && Pullable(h, file) && Pair(s, a, b, h(file)) && s.pulls[b].phase.Receiving?
    requires h(file) in s.disk.names && s.disk.names[h(file)] == s.pulls[b].phase.handle
    ensures Breakable(h, s, a, b)
  {
    var d, c := h(file), Junk(h, file);
    if s.disk.Read(d) != file {
      BrokenNow(h, s, a, b);
    } else {
      JunkSpoils(h, file);
      AcceptedChunk(h, s, b, c);
      var t := Next(h, s, Accept(b, Carries(c)));
      assert t.disk.Read(d) == WriteAt(file, 0, c.payload);
      BrokenNow(h, t, a, b);
      OneMore(h, s, a, b, Accept(b, Carries(c)));
    }
  }

  lemma CheckedOverlap(h: Hash, s: State, a: PullId, b: PullId, file: Bytes)
    requires Tracked(s) && Pullable(h, file) && Pair(s, a, b, h(file))
    requires s.pulls[b].phase.Checked? && !s.pulls[a].phase.Checked?
    ensures Breakable(h, s, a, b)
  {
    var t := Next(h, s, Open(b));
    OpenedPull(h, s, b, h(file));
    if s.pulls[a].phase.Verified? {
      VerifiedAndHolding(h, t, a, b, file);
    } else {
      BothReceiving(h, t, a, b, file);
    }
    OneMore(h, s, a, b, Open(b));
  }

  /** A pull that has yet to open its file. */
  lemma CheckedIsFatal(h: Hash, s: State, a: PullId, b: PullId, file: Bytes)
    requires Tracked(s) && Pullable(h, file) && Pair(s, a, b, h(file)) && s.pulls[b].phase.Checked?
    ensures Breakable(h, s, a, b)
  {
    if s.pulls[a].phase.Checked? {
      OpenedPull(h, s, a, h(file));
      CheckedOverlap(h, Next(h, s, Open(a)), a, b, file);
      OneMore(h, s, a, b, Open(a));
    } else {
      CheckedOverlap(h, s, a, b, file);
    }
  }

  // ----- Exactly when a pair is fatal -----

  /** The pull can no longer spoil anything: it is receiving into a file that is not
      the published one and is the temporary one only if that is too long already, or
      it has been verified and what it would publish is still the file. */
  ghost predicate Harmless(s: State, id: PullId, file: Bytes)
    requires s.disk.Valid() && id in s.pulls
  {
    var d := s.pulls[id].digest;
    match s.pulls[id].phase
    case Checked => false
    case Receiving(handle, _, _) =>
      && (d in s.disk.names ==> s.disk.names[d] != handle)
      && (HoldsTmp(s, id, d) ==> |s.disk.Read(Partial(d))| > |file|)
    case Verified => Partial(d) in s.disk.names ==> s.disk.Read(Partial(d)) == file
  }

  lemma OneIsFatal(h: Hash, s: State, a: PullId, b: PullId, file: Bytes)
    requires Tracked(s) && Pullable(h, file) && Pair(s, a, b, h(file)) && !Harmless(s, b, file)
    ensures Breakable(h, s, a, b)
  {
    var d := h(file);
    if s.pulls[b].phase.Checked? {
      CheckedIsFatal(h, s, a, b, file);
    } else if s.pulls[b].phase.Verified? {
      RenameBreaks(h, s, b, a, file);
      BreakableEitherWay(h, s, b, a);
    } else if d in s.disk.names && s.disk.names[d] == s.pulls[b].phase.handle {
      PublishedAndHolding(h, s, a, b, file);
    } else if s.pulls[a].phase.Checked? {
      CheckedIsFatal(h, s, b, a, file);
      BreakableEitherWay(h, s, b, a);
    } else if s.pulls[a].phase.Verified? {
      VerifiedAndHolding(h, s, a, b, file);
    } else {
      BothReceiving(h, s, a, b, file);
    }
  }

  /** Whichever of the two pulls are still in flight are harmless, and the cache is
      verified. */
  ghost predicate Quiet(h: Hash, s: State, a: PullId, b: PullId, file: Bytes) {
    && Tracked(s) && CacheVerified(h, s.disk)
    && forall id :: (id == a || id == b) && id in s.pulls ==> s.pulls[id].digest == h(file) && Harmless(s, id, file)
  }

  lemma WriteGrows(content: Bytes, offset: nat, data: Bytes)
    ensures |WriteAt(content, offset, data)| >= |content|
  {
  }

  /** A write through a harmless pull's handle. */
  lemma WriteStaysQuiet(h: Hash, s: State, t: State, a: PullId, b: PullId, id: PullId, file: Bytes, content: Bytes)
    requires Quiet(h, s, a, b, file) && IsDigest(h(file)) && (id == a || id == b)
    requires id in s.pulls && s.pulls[id].phase.Receiving? && s.pulls[id].phase.handle in s.disk.data
    requires Tracked(t) && |content| >= |s.disk.data[s.pulls[id].phase.handle]|
    requires t.disk == s.disk.Stored(s.pulls[id].phase.handle, content)
    requires forall other :: other in t.pulls ==> other in s.pulls
    requires forall other :: other in t.pulls && other != id ==> t.pulls[other] == s.pulls[other]
    requires id in t.pulls ==> t.pulls[id].digest == s.pulls[id].digest && t.pulls[id].phase.Receiving?
                               && t.pulls[id].phase.handle == s.pulls[id].phase.handle
    ensures Quiet(h, t, a, b, file)
  {
    var d := h(file);
    NoDigestIsPartial(d, d);
    assert HandleOk(s.disk, s.pulls[id]) && Harmless(s, id, file);
    forall n | n in t.disk.names && IsDigest(n) ensures h(t.disk.Read(n)) == n {
      NoDigestIsPartial(d, n);
      assert t.disk.Read(n) == s.disk.Read(n);
    }
    forall other | (other == a || other == b) && other in t.pulls ensures Harmless(t, other, file) {
      assert Harmless(s, other, file);
    }
  }

  lemma AcceptStaysQuiet(h: Hash, s: State, a: PullId, b: PullId, id: PullId, file: Bytes, reply: Reply)
    requires Quiet(h, s, a, b, file) && IsDigest(h(file)) && (id == a || id == b)
    ensures Quiet(h, Next(h, s, Accept(id, reply)), a, b, file)
  {
    var t := Next(h, s, Accept(id, reply));
    StepIsTracked(h, s, Accept(id, reply));
    if id in s.pulls && s.pulls[id].phase.Receiving? {
      assert HandleOk(s.disk, s.pulls[id]);
      if Rejection(h, reply) == None {
        var c := reply.chunk;
        var before := s.disk.data[s.pulls[id].phase.handle];
        WriteGrows(before, c.header.offset, c.payload);
        AcceptedChunk(h, s, id, c);
        WriteStaysQuiet(h, s, t, a, b, id, file, WriteAt(before, c.header.offset, c.payload));
      } else {
        FewerStaysQuiet(h, s, a, b, id, file);
      }
    }
  }

  /** A pull ends and leaves the disk alone. */
  lemma FewerStaysQuiet(h: Hash, s: State, a: PullId, b: PullId, id: PullId, file: Bytes)
    requires Quiet(h, s, a, b, file)
    ensures Quiet(h, s.(pulls := s.pulls - {id}), a, b, file)
  {
    var t := s.(pulls := s.pulls - {id});
    forall other | (other == a || other == b) && other in t.pulls ensures Harmless(t, other, file) {
      assert Harmless(s, other, file);
    }
  }

  lemma AbortStaysQuiet(h: Hash, s: State, a: PullId, b: PullId, id: PullId, file: Bytes, written: Option<Write>)
    requires Quiet(h, s, a, b, file) && IsDigest(h(file)) && (id == a || id == b)
    ensures Quiet(h, Next(h, s, Abort(id, written)), a, b, file)
  {
    StepIsTracked(h, s, Abort(id, written));
    if id in s.pulls {
      assert HandleOk(s.disk, s.pulls[id]);
      if s.pulls[id].phase.Receiving? && written.Some? {
        var before, w := s.disk.data[s.pulls[id].phase.handle], written.value;
        WriteGrows(before, w.offset, w.payload);
        WriteStaysQuiet(h, s, Next(h, s, Abort(id, written)), a, b, id, file, Landed(before, w));
      } else {
        FewerStaysQuiet(h, s, a, b, id, file);
      }
    }
  }

  lemma RemovedStaysQuiet(h: Hash, s: State, a: PullId, b: PullId, file: Bytes)
    requires Quiet(h, s, a, b, file) && IsDigest(h(file))
    ensures Quiet(h, s.(disk := s.disk.Removed(Partial(h(file)))), a, b, file)
  {
    var t := s.(disk := s.disk.Removed(Partial(h(file))));
    NoDigestIsPartial(h(file), h(file));
    forall id | id in t.pulls ensures HandleOk(t.disk, t.pulls[id]) {
      assert HandleOk(s.disk, s.pulls[id]);
    }
    forall id | (id == a || id == b) && id in t.pulls ensures Harmless(t, id, file) {
      assert Harmless(s, id, file);
    }
  }

  lemma PassedStaysQuiet(h: Hash, s: State, a: PullId, b: PullId, id: PullId, file: Bytes)
    requires Quiet(h, s, a, b, file) && id in s.pulls && s.pulls[id].digest == h(file)
    requires Partial(h(file)) in s.disk.names && s.disk.Read(Partial(h(file))) == file
    ensures Quiet(h, s.(pulls := s.pulls[id := ActivePull(h(file), Verified)]), a, b, file)
  {
    var t := s.(pulls := s.pulls[id := ActivePull(h(file), Verified)]);
    forall other | (other == a || other == b) && other in t.pulls ensures Harmless(t, other, file) {
      assert other != id ==> Harmless(s, other, file);
    }
  }

  lemma FinishStaysQuiet(h: Hash, s: State, a: PullId, b: PullId, id: PullId, file: Bytes, removed: bool)
    requires Quiet(h, s, a, b, file) && Pullable(h, file) && (id == a || id == b)
    ensures Quiet(h, Next(h, s, Finish(id, removed)), a, b, file)
  {
    if id in s.pulls && s.pulls[id].phase.Receiving? {
      var t := Next(h, s, Finish(id, removed));
      if id in t.pulls {
        PassedStaysQuiet(h, s, a, b, id, file);
      } else {
        FewerStaysQuiet(h, s, a, b, id, file);
        RemovedStaysQuiet(h, s.(pulls := s.pulls - {id}), a, b, file);
      }
    }
  }

  lemma RenameStaysQuiet(h: Hash, s: State, a: PullId, b: PullId, id: PullId, file: Bytes)
    requires Quiet(h, s, a, b, file) && Pullable(h, file) && (id == a || id == b)
    ensures Quiet(h, Next(h, s, Rename(id)), a, b, file)
  {
    var t := Next(h, s, Rename(id));
    StepIsTracked(h, s, Rename(id));
    NoDigestIsPartial(h(file), h(file));
    if t != s {
      assert Harmless(s, id, file);
      forall other | (other == a || other == b) && other in t.pulls
        ensures t.pulls[other].digest == h(file) && Harmless(t, other, file)
      {
        assert Harmless(s, other, file);
      }
    }
  }

  lemma StepStaysQuiet(h: Hash, s: State, a: PullId, b: PullId, file: Bytes, step: Step)
    requires Quiet(h, s, a, b, file) && Pullable(h, file) && !step.Begin? && (step.id == a || step.id == b)
    ensures Quiet(h, Next(h, s, step), a, b, file)
  {
    match step
    case Open(id) =>
      assert id in s.pulls ==> Harmless(s, id, file);
    case Accept(id, reply) => AcceptStaysQuiet(h, s, a, b, id, file, reply);
    case Finish(id, removed) => FinishStaysQuiet(h, s, a, b, id, file, removed);
    case Rename(id) => RenameStaysQuiet(h, s, a, b, id, file);
    case Abort(id, written) => AbortStaysQuiet(h, s, a, b, id, file, written);
  }

  lemma {:induction false} RunStaysQuiet(h: Hash, s: State, a: PullId, b: PullId, file: Bytes, run: seq<Step>)
    requires Quiet(h, s, a, b, file) && Pullable(h, file) && OnlyOf(run, a, b)
    ensures Quiet(h, Exec(h, s, run), a, b, file)
    decreases |run|
  {
    if run != [] {
      StepStaysQuiet(h, s, a, b, file, run[0]);
      RunStaysQuiet(h, Next(h, s, run[0]), a, b, file, run[1..]);
    }
  }

  /** Overlaps, exactly. From any state any run can reach, with two pulls of the file's
      digest in flight: the two of them alone can go on to leave an unverified entry if
      and only if there is one already or one of the two is not harmless. */
  lemma OverlapIsFatalExactly(h: Hash, s: State, a: PullId, b: PullId, file: Bytes)
    requires Tracked(s) && Pullable(h, file) && Pair(s, a, b, h(file))
    ensures Breakable(h, s, a, b) <==> !CacheVerified(h, s.disk) || !Harmless(s, a, file) || !Harmless(s, b, file)
  {
    if !CacheVerified(h, s.disk) {
      BrokenNow(h, s, a, b);
    } else if !Harmless(s, b, file) {
      OneIsFatal(h, s, a, b, file);
    } else if !Harmless(s, a, file) {
      OneIsFatal(h, s, b, a, file);
      BreakableEitherWay(h, s, b, a);
    } else {
      forall run | OnlyOf(run, a, b) ensures CacheVerified(h, Exec(h, s, run).disk) {
        RunStaysQuiet(h, s, a, b, file, run);
      }
    }
  }

  // ----- When a pull may begin -----

  /** While the digest is not cached, one more pull of it is always fatal, whatever
      state the one in flight is in and however it got there. */
  lemma AnotherPullIsFatal(h: Hash, s: State, a: PullId, id: PullId, file: Bytes)
    requires Tracked(s) && Pullable(h, file) && a in s.pulls && s.pulls[a].digest == h(file)
    requires id !in s.pulls && h(file) !in s.disk.names
    ensures var t := Next(h, s, Begin(id, h(file))); t.disk.Valid() && Breakable(h, t, a, id)
  {
    PartialNames(h(file), h(file));
    StepIsTracked(h, s, Begin(id, h(file)));
    CheckedIsFatal(h, Next(h, s, Begin(id, h(file))), a, id, file);
  }

  lemma {:induction false} NoBeginIsDisciplined(h: Hash, s: State, run: seq<Step>)
    requires s.disk.Valid() && forall k :: 0 <= k < |run| ==> !run[k].Begin?
    ensures Disciplined(h, s, run)
    decreases |run|
  {
    if run != [] {
      StepKeepsDisk(h, s, run[0]);
      NoBeginIsDisciplined(h, Next(h, s, run[0]), run[1..]);
    }
  }

  /** The cache stays verified in all disciplined continuations. */
  ghost predicate Safe(h: Hash, s: State)
    requires s.disk.Valid()
  {
    forall run :: Disciplined(h, s, run) ==> CacheVerified(h, Exec(h, s, run).disk)
  }

  lemma InvIsSafe(h: Hash, s: State)
    requires PrintsDigests(h) && Inv(h, s)
    ensures Safe(h, s)
  {
    forall run | Disciplined(h, s, run) ensures CacheVerified(h, Exec(h, s, run).disk) {
      RunKeepsInv(h, s, run);
    }
  }

  lemma BreakableIsUnsafe(h: Hash, s: State, a: PullId, b: PullId)
    requires s.disk.Valid() && Breakable(h, s, a, b)
    ensures !Safe(h, s)
  {
    var run :| Breaks(h, s, a, b, run);
    NoBeginIsDisciplined(h, s, run);
  }

  /** When a pull may begin. In every state that disciplined runs reach, a pull of a
      digest that is not cached yet keeps the cache verified, in all disciplined
      continuations, if and only if no other pull of that digest is in flight. */
  lemma BeginIsSafeExactly(h: Hash, s: State, id: PullId, file: Bytes)
    requires PrintsDigests(h) && Inv(h, s) && Pullable(h, file)
    requires id !in s.pulls && h(file) !in s.disk.names
    ensures Next(h, s, Begin(id, h(file))).disk.Valid()
    ensures Safe(h, Next(h, s, Begin(id, h(file)))) <==> !InFlight(s, h(file))
  {
    var d := h(file);
    PartialNames(d, d);
    var t := Next(h, s, Begin(id, d));
    if InFlight(s, d) {
      var a :| a in s.pulls && s.pulls[a].digest == d;
      InvIsTracked(h, s);
      AnotherPullIsFatal(h, s, a, id, file);
      BreakableIsUnsafe(h, t, a, id);
    } else {
      BeginningStep(h, s, id, d);
      InvIsSafe(h, t);
    }
  }

  lemma InvIsTracked(h: Hash, s: State)
    requires Inv(h, s)
    ensures Tracked(s)
  {
    forall id | id in s.pulls ensures HandleOk(s.disk, s.pulls[id]) {
      assert PullOk(h, s.disk, s.pulls[id]);
    }
  }
}
