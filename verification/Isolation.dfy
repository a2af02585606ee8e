/** Pulls do not disturb each other: a pull that is served delivers its file
    whatever other pulls do in between its steps. */
module Isolation {
  import opened Common
  import opened Chunks
  import opened Reassembly
  import opened Files
  import opened Pull
  import opened CacheRuns

  /** The steps of one pull within a run. */
  function OwnSteps(run: seq<Step>, id: PullId): seq<Step> {
    if run == [] then []
    else if run[0].id == id then [run[0]] + OwnSteps(run[1..], id)
    else OwnSteps(run[1..], id)
  }

  lemma ExecFirst(h: Hash, s: State, run: seq<Step>)
    requires s.disk.Valid() && run != []
    ensures Next(h, s, run[0]).disk.Valid()
    ensures Exec(h, s, run) == Exec(h, Next(h, s, run[0]), run[1..])
    ensures Disciplined(h, s, run) ==> Polite(s, run[0]) && Disciplined(h, Next(h, s, run[0]), run[1..])
  {
  }

  /** A run whose own steps start with `first` starts with it, or with another's step. */
  lemma FirstOwn(run: seq<Step>, id: PullId, first: Step, rest: seq<Step>)
    requires OwnSteps(run, id) == [first] + rest
    ensures run != []
    ensures run[0].id == id ==> run[0] == first && OwnSteps(run[1..], id) == rest
    ensures run[0].id != id ==> OwnSteps(run[1..], id) == [first] + rest
  {
    if run[0].id == id {
      assert ([run[0]] + OwnSteps(run[1..], id))[1..] == OwnSteps(run[1..], id);
      assert ([first] + rest)[1..] == rest;
    }
  }

  /** A step of a pull other than a rename touches that pull's temporary file alone. */
  lemma StepTouches(h: Hash, s: State, step: Step)
    requires PrintsDigests(h) && Inv(h, s) && step.id in s.pulls && !step.Rename?
    ensures OnlyTouches(s.disk, Next(h, s, step).disk, Partial(s.pulls[step.id].digest))
  {
    if !step.Begin? && Next(h, s, step) != s {
      match step
      case Open(id) => OpeningStep(h, s, id);
      case Accept(id, reply) => AcceptingStep(h, s, id, reply);
      case Finish(id, removed) => JudgingStep(h, s, id, removed);
      case Abort(id, written) => AbortingStep(h, s, id, written);
    }
  }

  lemma RenameTouches(h: Hash, s: State, id: PullId, name: string)
    requires PrintsDigests(h) && Inv(h, s) && id in s.pulls && IsPartial(name) && name != Partial(s.pulls[id].digest)
    ensures var t := Next(h, s, Rename(id)).disk;
      t.Valid() && (name in t.names <==> name in s.disk.names) && (name in s.disk.names ==> t.Read(name) == s.disk.Read(name))
  {
    var q := s.pulls[id];
    assert PullOk(h, s.disk, q);
    if q.phase.Verified? {
      assert IsDigest(h(s.disk.Read(Partial(q.digest))));
      PartialNames(q.digest, q.digest);
    }
  }

  lemma OthersKeepTheirPlace(h: Hash, s: State, id: PullId, step: Step)
    requires s.disk.Valid() && id in s.pulls && step.id != id
    ensures var t := Next(h, s, step); id in t.pulls && t.pulls[id] == s.pulls[id]
  {
  }

  /** What another pull's step leaves of this one: everything. */
  lemma OtherStep(h: Hash, s: State, id: PullId, step: Step)
    requires PrintsDigests(h) && Inv(h, s) && id in s.pulls && step.id != id && Polite(s, step)
    ensures var t, tmp := Next(h, s, step), Partial(s.pulls[id].digest);
      && Inv(h, t) && id in t.pulls && t.pulls[id] == s.pulls[id]
      && (tmp in t.disk.names <==> tmp in s.disk.names)
      && (tmp in s.disk.names ==> t.disk.Read(tmp) == s.disk.Read(tmp))
  {
    StepKeepsInv(h, s, step);
    OthersKeepTheirPlace(h, s, id, step);
    if step.id in s.pulls {
      var p, q := s.pulls[id].digest, s.pulls[step.id].digest;
      assert PullOk(h, s.disk, s.pulls[id]) && q != p;
      PartialNames(p, q);
      if step.Rename? {
        RenameTouches(h, s, step.id, Partial(p));
      } else {
        StepTouches(h, s, step);
      }
    }
  }

  /** The pull has written exactly `taken`. */
  ghost predicate HasWritten(h: Hash, s: State, id: PullId, digest: string, taken: seq<Chunk>) {
    && Inv(h, s) && id in s.pulls && s.pulls[id].digest == digest
    && s.pulls[id].phase.Receiving?
    && s.pulls[id].phase.gotAny == (taken != []) && s.pulls[id].phase.gotLast == HasLast(taken)
    && Partial(digest) in s.disk.names && s.disk.Read(Partial(digest)) == Reassemble(taken)
  }

  lemma OtherKeepsWritten(h: Hash, s: State, id: PullId, digest: string, taken: seq<Chunk>, step: Step)
    requires PrintsDigests(h) && HasWritten(h, s, id, digest, taken) && step.id != id && Polite(s, step)
    ensures HasWritten(h, Next(h, s, step), id, digest, taken)
  {
    OtherStep(h, s, id, step);
  }

  /** The pull's own record and file after it accepts a chunk. */
  lemma AcceptedRecord(h: Hash, s: State, id: PullId, digest: string, taken: seq<Chunk>, c: Chunk)
    requires HasWritten(h, s, id, digest, taken) && Rejection(h, Carries(c)) == None
    ensures s.pulls[id].phase.handle in s.disk.data && s.disk.names[Partial(digest)] == s.pulls[id].phase.handle
    ensures Next(h, s, Accept(id, Carries(c))) == Accepting(h, s, id, Carries(c))
    ensures var t := Accepting(h, s, id, Carries(c));
      id in t.pulls && t.pulls[id]
      == ActivePull(digest, Receiving(s.pulls[id].phase.handle, true, HasLast(taken) || c.header.last))
  {
    assert PullOk(h, s.disk, s.pulls[id]);
  }

  lemma AcceptedFile(h: Hash, s: State, id: PullId, digest: string, taken: seq<Chunk>, c: Chunk)
    requires HasWritten(h, s, id, digest, taken) && Rejection(h, Carries(c)) == None
    requires s.pulls[id].phase.handle in s.disk.data && s.disk.names[Partial(digest)] == s.pulls[id].phase.handle
    ensures var t := Accepting(h, s, id, Carries(c)).disk;
      t.Valid() && Partial(digest) in t.names
      && t.Read(Partial(digest)) == WriteAt(Reassemble(taken), c.header.offset, c.payload)
  {
  }

  lemma OwnAccept(h: Hash, s: State, id: PullId, digest: string, taken: seq<Chunk>, c: Chunk)
    requires PrintsDigests(h) && HasWritten(h, s, id, digest, taken) && Rejection(h, Carries(c)) == None
    ensures HasWritten(h, Next(h, s, Accept(id, Carries(c))), id, digest, taken + [c])
  {
    AcceptedRecord(h, s, id, digest, taken, c);
    AcceptedFile(h, s, id, digest, taken, c);
    AcceptingStep(h, s, id, Carries(c));
    NextChunk(taken, c);
  }

  lemma OwnOpen(h: Hash, s: State, id: PullId)
    requires PrintsDigests(h) && Inv(h, s) && id in s.pulls && s.pulls[id].phase.Checked?
    ensures HasWritten(h, Next(h, s, Open(id)), id, s.pulls[id].digest, [])
  {
    OpeningStep(h, s, id);
  }

  /** Once published, an entry is there at the end of every run. */
  lemma OwnRename(h: Hash, s: State, id: PullId, rest: seq<Step>)
    requires PrintsDigests(h) && Inv(h, s) && id in s.pulls && s.pulls[id].phase.Verified?
    requires Next(h, s, Rename(id)).disk.Valid() && Disciplined(h, Next(h, s, Rename(id)), rest)
    ensures var digest, t := s.pulls[id].digest, Next(h, s, Rename(id));
      && Partial(digest) in s.disk.names && t.disk.Valid()
      && digest in Exec(h, t, rest).disk.names
      && Exec(h, t, rest).disk.Read(digest) == s.disk.Read(Partial(digest))
  {
    var p, t := s.pulls[id], Next(h, s, Rename(id));
    assert PullOk(h, s.disk, p);
    PartialNames(p.digest, p.digest);
    assert IsDigest(h(s.disk.Read(Partial(p.digest))));
    PublishingStep(h, s, id);
    assert t.disk == s.disk.Renamed(Partial(p.digest), p.digest);
    RunKeepsInv(h, t, rest);
  }

  lemma {:induction false} RenameArrives(h: Hash, s: State, id: PullId, run: seq<Step>)
    requires PrintsDigests(h) && Inv(h, s) && id in s.pulls && s.pulls[id].phase.Verified?
    requires Disciplined(h, s, run) && OwnSteps(run, id) == [Rename(id)] + []
    ensures var digest, end := s.pulls[id].digest, Exec(h, s, run);
      Partial(digest) in s.disk.names && digest in end.disk.names && end.disk.Read(digest) == s.disk.Read(Partial(digest))
    decreases |run|
  {
    FirstOwn(run, id, Rename(id), []);
    ExecFirst(h, s, run);
    if run[0].id != id {
      OtherStep(h, s, id, run[0]);
      assert PullOk(h, s.disk, s.pulls[id]);
      RenameArrives(h, Next(h, s, run[0]), id, run[1..]);
    } else {
      OwnRename(h, s, id, run[1..]);
    }
  }

  lemma OwnFinish(h: Hash, s: State, id: PullId, digest: string, taken: seq<Chunk>, removed: bool)
    requires PrintsDigests(h) && HasWritten(h, s, id, digest, taken)
    requires HasLast(taken) && h(Reassemble(taken)) == digest
    ensures var t := Next(h, s, Finish(id, removed));
      && Inv(h, t) && t.disk == s.disk && id in t.pulls && t.pulls[id] == ActivePull(digest, Verified)
  {
    JudgingStep(h, s, id, removed);
  }

  lemma ShiftOne<T>(a: seq<T>, b: seq<T>)
    requires b != []
    ensures a + b == a + [b[0]] + b[1..]
  {
  }

  /** What remains to be done for a pull that still has `todo` to receive. */
  function Remaining(id: PullId, todo: seq<Chunk>, removed: bool): seq<Step> {
    if todo == [] then [Finish(id, removed)] + ([Rename(id)] + [])
    else [Accept(id, Carries(todo[0]))] + Remaining(id, todo[1..], removed)
  }

  /** A pull that accepts the rest of its chunks, is judged and renames, with any
      steps of other pulls in between, publishes what it wrote. */
  lemma {:induction false} ReceiveArrives(h: Hash, s: State, id: PullId, digest: string, taken: seq<Chunk>,
                                          todo: seq<Chunk>, removed: bool, run: seq<Step>)
    requires PrintsDigests(h) && HasWritten(h, s, id, digest, taken)
    requires Disciplined(h, s, run) && OwnSteps(run, id) == Remaining(id, todo, removed)
    requires forall c :: c in todo ==> Rejection(h, Carries(c)) == None
    requires HasLast(taken + todo) && h(Reassemble(taken + todo)) == digest
    ensures var end := Exec(h, s, run);
      digest in end.disk.names && end.disk.Read(digest) == Reassemble(taken + todo)
    decreases |run|
  {
    ExecFirst(h, s, run);
    var t := Next(h, s, run[0]);
    if run[0].id != id {
      OtherKeepsWritten(h, s, id, digest, taken, run[0]);
      ReceiveArrives(h, t, id, digest, taken, todo, removed, run[1..]);
    } else if todo != [] {
      FirstOwn(run, id, Accept(id, Carries(todo[0])), Remaining(id, todo[1..], removed));
      OwnAccept(h, s, id, digest, taken, todo[0]);
      ShiftOne(taken, todo);
      ReceiveArrives(h, t, id, digest, taken + [todo[0]], todo[1..], removed, run[1..]);
    } else {
      FirstOwn(run, id, Finish(id, removed), [Rename(id)] + []);
      assert taken + todo == taken;
      OwnFinish(h, s, id, digest, taken, removed);
      RenameArrives(h, t, id, run[1..]);
    }
  }

  lemma SlicesAreAccepted(h: Hash, file: Bytes, stream: seq<Chunk>, replies: seq<Chunk>)
    requires 0 < |file| <= MAX_POSITION && AllSlices(h, file, replies)
    requires Chunked(h, file, stream) && Reach(stream) == |file| && forall c :: c in stream ==> c in replies
    ensures forall c :: c in replies ==> Rejection(h, Carries(c)) == None
    ensures [] + replies == replies && HasLast(replies) && Reassemble(replies) == file
  {
    CompleteStreamRebuilds(h, file, stream, replies);
    forall c | c in replies ensures Rejection(h, Carries(c)) == None {
      assert IsSlice(h, file, c);
    }
  }

  /** Concurrent delivery. A pull of `file` has passed its existence check, in a
      directory that may hold anything else; other pulls, for other digests, are
      anywhere. Whatever steps they take, with whatever
      replies and failures, in between the steps of this one, if this one is served
      slices of its file that include a whole stream, then at the end of the run its
      digest names the file, byte for byte. */
  lemma {:induction false} ConcurrentDelivery(h: Hash, s: State, id: PullId, file: Bytes, stream: seq<Chunk>,
                                              replies: seq<Chunk>, removed: bool, run: seq<Step>)
    requires PrintsDigests(h) && Inv(h, s) && 0 < |file| <= MAX_POSITION
    requires id in s.pulls && s.pulls[id] == ActivePull(h(file), Checked)
    requires Chunked(h, file, stream) && Reach(stream) == |file|
    requires AllSlices(h, file, replies) && forall c :: c in stream ==> c in replies
    requires Disciplined(h, s, run) && OwnSteps(run, id) == [Open(id)] + Remaining(id, replies, removed)
    ensures var end := Exec(h, s, run);
      h(file) in end.disk.names && end.disk.Read(h(file)) == file
    decreases |run|
  {
    FirstOwn(run, id, Open(id), Remaining(id, replies, removed));
    ExecFirst(h, s, run);
    var t := Next(h, s, run[0]);
    if run[0].id != id {
      OtherStep(h, s, id, run[0]);
      ConcurrentDelivery(h, t, id, file, stream, replies, removed, run[1..]);
    } else {
      OwnOpen(h, s, id);
      SlicesAreAccepted(h, file, stream, replies);
      ReceiveArrives(h, t, id, h(file), [], replies, removed, run[1..]);
    }
  }
}
