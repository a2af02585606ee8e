/** One undisturbed pull, step by step: the interleaving model of the cache and
    the outcome function of a single pull describe the same program. */
module PullRuns {
  import opened Common
  import opened Chunks
  import opened Reassembly
  import opened Files
  import opened Pull
  import opened CacheRuns

  function Accepts(replies: seq<Reply>): seq<Step> {
    if replies == [] then [] else [Accept(0, replies[0])] + Accepts(replies[1..])
  }

  /** The steps of a pull, in order; those that no longer apply change nothing. */
  function PullSteps(digest: string, replies: seq<Reply>): seq<Step> {
    [Begin(0, digest)] + ([Open(0)] + (Accepts(replies) + ([Finish(0, true)] + ([Rename(0)] + []))))
  }

  /** The pull has written `taken` to the file it opened. */
  ghost function Holding(start: Disk, handle: Inode, digest: string, taken: seq<Chunk>): (s: State)
    requires start.Valid() && handle in start.data
    ensures s.disk.Valid()
  {
    State(start.Stored(handle, Reassemble(taken)),
          map[0 := ActivePull(digest, Receiving(handle, taken != [], HasLast(taken)))], [])
  }

  /** Without a pull, the steps of a pull change nothing. */
  lemma {:induction false} IdleAccepts(h: Hash, s: State, replies: seq<Reply>, rest: seq<Step>)
    requires s.disk.Valid() && s.pulls == map[]
    ensures Exec(h, s, Accepts(replies) + rest) == Exec(h, s, rest)
    decreases |replies|
  {
    if replies == [] {
      assert Accepts(replies) + rest == rest;
    } else {
      AcceptFirst(h, s, replies, rest);
      IdleAccepts(h, s, replies[1..], rest);
    }
  }

  lemma IdleEnd(h: Hash, s: State)
    requires s.disk.Valid() && s.pulls == map[]
    ensures Exec(h, s, [Finish(0, true)] + ([Rename(0)] + [])) == s
  {
    ExecStep(h, s, Finish(0, true), [Rename(0)] + []);
    ExecStep(h, s, Rename(0), []);
  }

  lemma RejectOne(h: Hash, start: Disk, handle: Inode, digest: string, taken: seq<Chunk>, reply: Reply)
    requires start.Valid() && handle in start.data && Rejection(h, reply).Some?
    ensures Next(h, Holding(start, handle, digest, taken), Accept(0, reply))
         == Holding(start, handle, digest, taken).(pulls := map[])
  {
    assert Holding(start, handle, digest, taken).pulls - {0} == map[];
  }

  lemma AcceptingOne(h: Hash, start: Disk, handle: Inode, digest: string, taken: seq<Chunk>, reply: Reply)
    requires start.Valid() && handle in start.data && Rejection(h, reply) == None
    ensures var s := Holding(start, handle, digest, taken);
      0 in s.pulls && s.pulls[0].phase.Receiving? && s.pulls[0].phase.handle in s.disk.data
      && Next(h, s, Accept(0, reply)) == Accepting(h, s, 0, reply)
  {
  }

  lemma AcceptedDisk(h: Hash, start: Disk, handle: Inode, taken: seq<Chunk>, c: Chunk)
    requires start.Valid() && handle in start.data
    ensures var held := start.Stored(handle, Reassemble(taken));
      handle in held.data
      && held.Stored(handle, WriteAt(held.data[handle], c.header.offset, c.payload))
         == start.Stored(handle, Reassemble(taken + [c]))
  {
    NextChunk(taken, c);
    StoredTwice(start, handle, Reassemble(taken), Reassemble(taken + [c]));
  }

  lemma Replaced<V>(v: V, w: V)
    ensures map[0 := v][0 := w] == map[0 := w]
  {
  }

  lemma AcceptOne(h: Hash, start: Disk, handle: Inode, digest: string, taken: seq<Chunk>, reply: Reply)
    requires start.Valid() && handle in start.data && Rejection(h, reply) == None
    ensures Next(h, Holding(start, handle, digest, taken), Accept(0, reply))
         == Holding(start, handle, digest, taken + [reply.chunk])
  {
    var c := reply.chunk;
    AcceptingOne(h, start, handle, digest, taken, reply);
    AcceptedDisk(h, start, handle, taken, c);
    NextChunk(taken, c);
    Replaced(ActivePull(digest, Receiving(handle, taken != [], HasLast(taken))),
             ActivePull(digest, Receiving(handle, true, HasLast(taken) || c.header.last)));
  }

  /** The receive loop as steps. */
  lemma {:induction false} AcceptAll(h: Hash, start: Disk, handle: Inode, digest: string, taken: seq<Chunk>,
                                     replies: seq<Reply>, rest: seq<Step>)
    requires start.Valid() && handle in start.data
    ensures var held := Holding(start, handle, digest, taken + Taken(h, replies));
      Exec(h, Holding(start, handle, digest, taken), Accepts(replies) + rest)
      == Exec(h, if Stop(h, replies).Some? then held.(pulls := map[]) else held, rest)
    decreases |replies|
  {
    if replies == [] {
      assert Accepts(replies) + rest == rest && taken + Taken(h, replies) == taken;
    } else {
      var s, reply := Holding(start, handle, digest, taken), replies[0];
      AcceptFirst(h, s, replies, rest);
      if Rejection(h, reply).Some? {
        RejectOne(h, start, handle, digest, taken, reply);
        assert taken + Taken(h, replies) == taken;
        IdleAccepts(h, s.(pulls := map[]), replies[1..], rest);
      } else {
        AcceptOne(h, start, handle, digest, taken, reply);
        AcceptAll(h, start, handle, digest, taken + [reply.chunk], replies[1..], rest);
        TakenFirst(h, taken, replies);
      }
    }
  }

  lemma AcceptFirst(h: Hash, s: State, replies: seq<Reply>, rest: seq<Step>)
    requires s.disk.Valid() && replies != []
    ensures Next(h, s, Accept(0, replies[0])).disk.Valid()
    ensures Exec(h, s, Accepts(replies) + rest)
         == Exec(h, Next(h, s, Accept(0, replies[0])), Accepts(replies[1..]) + rest)
  {
    assert Accepts(replies) + rest == [Accept(0, replies[0])] + (Accepts(replies[1..]) + rest);
    ExecStep(h, s, Accept(0, replies[0]), Accepts(replies[1..]) + rest);
  }

  lemma Regroup<T>(a: seq<T>, x: T, b: seq<T>)
    ensures a + ([x] + b) == a + [x] + b
  {
  }

  lemma TakenFirst(h: Hash, taken: seq<Chunk>, replies: seq<Reply>)
    requires replies != [] && Rejection(h, replies[0]) == None
    ensures taken + Taken(h, replies) == taken + [replies[0].chunk] + Taken(h, replies[1..])
    ensures Stop(h, replies) == Stop(h, replies[1..])
  {
    Regroup(taken, replies[0].chunk, Taken(h, replies[1..]));
  }

  /** What the cache shows after a run, and what was returned. */
  ghost predicate EndsWith(end: State, digest: string, outcome: Outcome) {
    && end.disk.Valid() && end.disk.Entries() == outcome.entries
    && end.pulls == map[]
    && (outcome.result.Ok? ==> digest in outcome.entries && end.served == [(digest, outcome.entries[digest])])
    && (outcome.result.Err? ==> end.served == [])
  }

  /** One pull is receiving into its temporary file, and nothing else is going on. */
  ghost predicate Alone(s: State, digest: string) {
    && s.disk.Valid() && Partial(digest) in s.disk.names && s.served == []
    && 0 in s.pulls && s.pulls == map[0 := s.pulls[0]]
    && s.pulls[0].digest == digest && s.pulls[0].phase.Receiving?
  }

  lemma JudgedAndRenamed(h: Hash, held: State, digest: string)
    requires Alone(held, digest) && held.pulls[0].phase.gotAny && held.pulls[0].phase.gotLast
    requires h(held.disk.Read(Partial(digest))) == digest && Partial(digest) != digest
    ensures Exec(h, held, [Finish(0, true)] + ([Rename(0)] + []))
         == State(held.disk.Renamed(Partial(digest), digest), map[], [(digest, held.disk.Read(Partial(digest)))])
  {
    var judged := held.(pulls := map[0 := ActivePull(digest, Verified)]);
    ExecStep(h, held, Finish(0, true), [Rename(0)] + []);
    assert Next(h, held, Finish(0, true)) == judged;
    ExecStep(h, judged, Rename(0), []);
    assert judged.pulls - {0} == map[];
  }

  lemma JudgedGood(h: Hash, held: State, digest: string)
    requires Alone(held, digest) && held.pulls[0].phase.gotAny && held.pulls[0].phase.gotLast
    requires h(held.disk.Read(Partial(digest))) == digest
    ensures EndsWith(Exec(h, held, [Finish(0, true)] + ([Rename(0)] + [])), digest,
                     Outcome(Ok(digest), Settled(held.disk.Entries(), digest, held.disk.Read(Partial(digest)), true)))
  {
    PartialNames(digest, digest);
    JudgedAndRenamed(h, held, digest);
    RenamedEntries(held.disk, Partial(digest), digest);
  }

  lemma JudgedBad(h: Hash, held: State, digest: string, error: TransferError)
    requires Alone(held, digest)
    requires !held.pulls[0].phase.gotAny || !held.pulls[0].phase.gotLast || h(held.disk.Read(Partial(digest))) != digest
    ensures EndsWith(Exec(h, held, [Finish(0, true)] + ([Rename(0)] + [])), digest,
                     Outcome(Err(error), held.disk.Entries() - {Partial(digest)}))
  {
    var tmp := Partial(digest);
    ExecStep(h, held, Finish(0, true), [Rename(0)] + []);
    var judged := held.(disk := held.disk.Removed(tmp), pulls := map[]);
    assert held.pulls - {0} == map[];
    assert Next(h, held, Finish(0, true)) == judged;
    ExecStep(h, judged, Rename(0), []);
    RemovedEntries(held.disk, tmp);
  }

  /** The end of the stream as steps: judged, then renamed or not. */
  lemma JudgeAndRename(h: Hash, held: State, peer: PeerId, digest: string)
    requires Alone(held, digest)
    ensures var content, phase := held.disk.Read(Partial(digest)), held.pulls[0].phase;
      var verdict := Verdict(h, peer, digest, phase.gotAny, phase.gotLast, content);
      EndsWith(Exec(h, held, [Finish(0, true)] + ([Rename(0)] + [])), digest,
               Outcome(verdict, Settled(held.disk.Entries(), digest, content, verdict.Ok?)))
  {
    var content, phase := held.disk.Read(Partial(digest)), held.pulls[0].phase;
    var verdict := Verdict(h, peer, digest, phase.gotAny, phase.gotLast, content);
    if verdict.Ok? {
      JudgedGood(h, held, digest);
    } else {
      JudgedBad(h, held, digest, verdict.error);
    }
  }

  lemma TakenAny(h: Hash, replies: seq<Reply>)
    requires Stop(h, replies) == None
    ensures Taken(h, replies) != [] <==> replies != []
  {
  }

  /** A pull that runs its steps with nothing else in flight does what
      `PullOutcome` says: same cache, same success, same content returned. */
  lemma UndisturbedPull(h: Hash, disk: Disk, peer: PeerId, digest: string, replies: seq<Reply>)
    requires disk.Valid() && FileName(digest)
    ensures EndsWith(Exec(h, State(disk, map[], []), PullSteps(digest, replies)), digest,
                     PullOutcome(h, disk.Entries(), peer, digest, replies))
  {
    var s0, tmp := State(disk, map[], []), Partial(digest);
    var rest := Accepts(replies) + ([Finish(0, true)] + ([Rename(0)] + []));
    ExecStep(h, s0, Begin(0, digest), [Open(0)] + rest);
    var s1 := Next(h, s0, Begin(0, digest));
    ExecStep(h, s1, Open(0), rest);
    if digest in disk.names {
      IdleAccepts(h, s1, replies, [Finish(0, true)] + ([Rename(0)] + []));
      IdleEnd(h, s1);
    } else {
      OpensEmpty(h, disk, digest);
      AcceptAll(h, disk.OpenTruncated(tmp), disk.Handle(tmp), digest, [], replies, [Finish(0, true)] + ([Rename(0)] + []));
      assert [] + Taken(h, replies) == Taken(h, replies);
      if Stop(h, replies).Some? {
        var held := Holding(disk.OpenTruncated(tmp), disk.Handle(tmp), digest, Taken(h, replies));
        IdleEnd(h, held.(pulls := map[]));
        WrittenEntries(disk, tmp, Reassemble(Taken(h, replies)));
      } else {
        var held := Holding(disk.OpenTruncated(tmp), disk.Handle(tmp), digest, Taken(h, replies));
        WrittenEntries(disk, tmp, Reassemble(Taken(h, replies)));
        TakenAny(h, replies);
        JudgeAndRename(h, held, peer, digest);
      }
    }
  }

  lemma OpensEmpty(h: Hash, disk: Disk, digest: string)
    requires disk.Valid() && FileName(digest) && digest !in disk.names
    ensures Next(h, Next(h, State(disk, map[], []), Begin(0, digest)), Open(0))
         == Holding(disk.OpenTruncated(Partial(digest)), disk.Handle(Partial(digest)), digest, [])
  {
    var tmp := Partial(digest);
    var s1 := Next(h, State(disk, map[], []), Begin(0, digest));
    assert s1 == State(disk, map[0 := ActivePull(digest, Checked)], []);
    var start := disk.OpenTruncated(tmp);
    assert start.Stored(disk.Handle(tmp), []) == start;
  }
}
