/** The cache directory under any number of interleaved pulls, any replies, and a
    failure or stop of any pull between any two of its steps. */
module CacheRuns {
  import opened Common
  import opened Chunks
  import opened Reassembly
  import opened Files
  import opened Pull

  type PullId = nat

  /** Where a pull stands: past the existence check; receiving into an open file;
      or with a root hash that matched, about to rename. */
  datatype Phase =
    | Checked
    | Receiving(handle: Inode, gotAny: bool, gotLast: bool)
    | Verified

  datatype ActivePull = ActivePull(digest: string, phase: Phase)

  /** `served` records what every successful pull so far returned: a name, and the
      content it had at that moment. */
  datatype State = State(disk: Disk, pulls: map<PullId, ActivePull>, served: seq<(string, Bytes)>)

  /** A write that was under way when its pull ended: a chunk, or as much of it as
      got through, at its offset. */
  datatype Write = Write(offset: nat, payload: Bytes)

  /** What the file holds once the write has landed. */
  function Landed(content: Bytes, w: Write): Bytes {
    if w.offset + |w.payload| <= MAX_POSITION then WriteAt(content, w.offset, w.payload) else content
  }

  datatype Step =
    | Begin(id: PullId, digest: string)
    | Open(id: PullId)
    | Accept(id: PullId, reply: Reply)
    | Finish(id: PullId, removed: bool)
    | Rename(id: PullId)
    | Abort(id: PullId, written: Option<Write>)

  /** One step of the code. A step that does not apply leaves the state as it is. Any
      file name may be asked for, a digest or not, while other pulls of it run. */
  ghost function Next(h: Hash, s: State, step: Step): State
    requires s.disk.Valid()
  {
    match step
    case Begin(id, digest) =>
      if id in s.pulls || !FileName(digest) then s
      else if digest in s.disk.names then s.(served := s.served + [(digest, s.disk.Read(digest))])
      else s.(pulls := s.pulls[id := ActivePull(digest, Checked)])
    case Open(id) =>
      if id in s.pulls && s.pulls[id].phase.Checked? then Opened(s, id) else s
    case Accept(id, reply) =>
      if id in s.pulls && s.pulls[id].phase.Receiving? && s.pulls[id].phase.handle in s.disk.data
      then Accepting(h, s, id, reply) else s
    case Finish(id, removed) =>
      if id in s.pulls && s.pulls[id].phase.Receiving? then Judged(h, s, id, removed) else s
    case Rename(id) =>
      if id in s.pulls && s.pulls[id].phase.Verified? then Published(s, id) else s
    case Abort(id, written) =>
      if id in s.pulls then Aborted(s, id, written) else s
  }

  predicate InFlight(s: State, digest: string) {
    exists id :: id in s.pulls && s.pulls[id].digest == digest
  }

  function Opened(s: State, id: PullId): State
    requires s.disk.Valid() && id in s.pulls
  {
    var p := s.pulls[id];
    var tmp := Partial(p.digest);
    s.(disk := s.disk.OpenTruncated(tmp),
       pulls := s.pulls[id := p.(phase := Receiving(s.disk.Handle(tmp), false, false))])
  }

  /** A chunk goes through the open handle; a rejected reply ends the pull and
      leaves the temporary file behind. */
  function Accepting(h: Hash, s: State, id: PullId, reply: Reply): State
    requires s.disk.Valid() && id in s.pulls && s.pulls[id].phase.Receiving?
    requires s.pulls[id].phase.handle in s.disk.data
  {
    var p := s.pulls[id];
    if Rejection(h, reply).Some? then s.(pulls := s.pulls - {id}) else
    var c, file := reply.chunk, p.phase.handle;
    s.(disk := s.disk.Stored(file, WriteAt(s.disk.data[file], c.header.offset, c.payload)),
       pulls := s.pulls[id := p.(phase := Receiving(file, true, p.phase.gotLast || c.header.last))])
  }

  /** The reply stream has ended. The root hash reads the temporary file by name;
      removing a file that fails the checks is best effort. */
  function Judged(h: Hash, s: State, id: PullId, removed: bool): State
    requires s.disk.Valid() && id in s.pulls && s.pulls[id].phase.Receiving?
  {
    var p := s.pulls[id];
    var tmp := Partial(p.digest);
    if p.phase.gotAny && p.phase.gotLast && tmp in s.disk.names && h(s.disk.Read(tmp)) == p.digest
    then s.(pulls := s.pulls[id := p.(phase := Verified)])
    else s.(disk := if removed then s.disk.Removed(tmp) else s.disk, pulls := s.pulls - {id})
  }

  function Published(s: State, id: PullId): State
    requires s.disk.Valid() && id in s.pulls
  {
    var p := s.pulls[id];
    var tmp := Partial(p.digest);
    PartialNames(p.digest, p.digest);
    if tmp !in s.disk.names then s.(pulls := s.pulls - {id})
    else s.(disk := s.disk.Renamed(tmp, p.digest), pulls := s.pulls - {id},
            served := s.served + [(p.digest, s.disk.Read(tmp))])
  }

  /** The pull is cancelled, its process stops, or a disk operation fails, and a
      write in progress may still land in the open file. For a pull that returned an
      error with a write pending this is the moment the write lands; until then it
      counts as in flight. */
  function Aborted(s: State, id: PullId, written: Option<Write>): State
    requires s.disk.Valid() && id in s.pulls
  {
    var p := s.pulls[id];
    s.(disk := if p.phase.Receiving? && p.phase.handle in s.disk.data && written.Some?
               then s.disk.Stored(p.phase.handle, Landed(s.disk.data[p.phase.handle], written.value)) else s.disk,
       pulls := s.pulls - {id})
  }

  lemma StepKeepsDisk(h: Hash, s: State, step: Step)
    requires s.disk.Valid()
    ensures Next(h, s, step).disk.Valid()
  {
  }

  ghost function Exec(h: Hash, s: State, run: seq<Step>): (r: State)
    requires s.disk.Valid()
    ensures r.disk.Valid()
    decreases |run|
  {
    if run == [] then s else
    StepKeepsDisk(h, s, run[0]);
    Exec(h, Next(h, s, run[0]), run[1..])
  }

  /** The step does not start a pull of a digest that another pull is busy with. */
  predicate Polite(s: State, step: Step) {
    step.Begin? && step.id !in s.pulls && step.digest !in s.disk.names ==> !InFlight(s, step.digest)
  }

  /** One pull at a time per digest: something the callers see to, not the code. */
  ghost predicate Disciplined(h: Hash, s: State, run: seq<Step>)
    requires s.disk.Valid()
    decreases |run|
  {
    run != [] ==> Polite(s, run[0]) && (StepKeepsDisk(h, s, run[0]); Disciplined(h, Next(h, s, run[0]), run[1..]))
  }

  // ----- The cache invariant -----

  /** Digests are 64 hex digits. */
  ghost predicate PrintsDigests(h: Hash) {
    forall content :: IsDigest(h(content))
  }

  /** Every entry named by a digest holds what its name says. Other files may share
      the directory. */
  ghost predicate CacheVerified(h: Hash, disk: Disk)
    requires disk.Valid()
  {
    forall n :: n in disk.names && IsDigest(n) ==> h(disk.Read(n)) == n
  }

  /** What pulls returned is still there unchanged, and under a digest it was what the
      name says. */
  ghost predicate ServedVerified(h: Hash, disk: Disk, served: seq<(string, Bytes)>)
    requires disk.Valid()
  {
    && (forall i :: 0 <= i < |served| && IsDigest(served[i].0) ==> h(served[i].1) == served[i].0)
    && (forall i :: 0 <= i < |served| && !IsPartial(served[i].0) ==>
          served[i].0 in disk.names && disk.Read(served[i].0) == served[i].1)
  }

  ghost predicate PullOk(h: Hash, disk: Disk, p: ActivePull)
    requires disk.Valid()
  {
    var tmp := Partial(p.digest);
    && FileName(p.digest)
    && (IsPartial(p.digest) || p.digest !in disk.names)
    && match p.phase
       case Checked => true
       case Receiving(handle, _, _) => tmp in disk.names && disk.names[tmp] == handle
       case Verified => tmp in disk.names && h(disk.Read(tmp)) == p.digest
  }

  ghost predicate Inv(h: Hash, s: State) {
    && s.disk.Valid()
    && CacheVerified(h, s.disk)
    && ServedVerified(h, s.disk, s.served)
    && (forall id :: id in s.pulls ==> PullOk(h, s.disk, s.pulls[id]))
    && (forall a, b :: a in s.pulls && b in s.pulls && s.pulls[a].digest == s.pulls[b].digest ==> a == b)
  }

  /** Entries that are not temporary stay, with their content. */
  ghost predicate EntriesStay(a: Disk, b: Disk)
    requires a.Valid() && b.Valid()
  {
    forall n :: n in a.names && !IsPartial(n) ==> n in b.names && b.Read(n) == a.Read(n)
  }

  /** The disk part of a step concerns one name and leaves every other alone. */
  ghost predicate OnlyTouches(a: Disk, b: Disk, name: string)
    requires a.Valid() && b.Valid()
  {
    forall n :: n != name ==>
      (n in a.names <==> n in b.names) && (n in a.names ==> b.names[n] == a.names[n] && b.Read(n) == a.Read(n))
  }

  lemma OthersUnaffected(h: Hash, a: Disk, b: Disk, p: ActivePull, other: ActivePull)
    requires a.Valid() && b.Valid() && OnlyTouches(a, b, Partial(p.digest))
    requires FileName(p.digest) && other.digest != p.digest && PullOk(h, a, other)
    ensures PullOk(h, b, other)
  {
    PartialNames(p.digest, other.digest);
  }

  /** A step that replaces or drops one pull and touches its temporary file only
      keeps the invariant, if what becomes of that pull is in order. */
  lemma LocalStep(h: Hash, s: State, t: State, id: PullId)
    requires Inv(h, s) && id in s.pulls && t.disk.Valid() && t.served == s.served
    requires OnlyTouches(s.disk, t.disk, Partial(s.pulls[id].digest))
    requires t.pulls == s.pulls - {id}
          || (id in t.pulls && t.pulls == s.pulls[id := t.pulls[id]] && t.pulls[id].digest == s.pulls[id].digest
              && PullOk(h, t.disk, t.pulls[id]))
    ensures Inv(h, t) && EntriesStay(s.disk, t.disk)
  {
    var p := s.pulls[id];
    PartialNames(p.digest, p.digest);
    PartialNames(Partial(p.digest), p.digest);
    assert PullOk(h, s.disk, p);
    forall other | other in t.pulls ensures PullOk(h, t.disk, t.pulls[other]) {
      if other != id {
        OthersUnaffected(h, s.disk, t.disk, p, s.pulls[other]);
      }
    }
  }

  lemma PublishingStep(h: Hash, s: State, id: PullId)
    requires PrintsDigests(h) && Inv(h, s) && id in s.pulls && s.pulls[id].phase.Verified?
    ensures Inv(h, Published(s, id)) && EntriesStay(s.disk, Published(s, id).disk)
  {
    var p, t := s.pulls[id], Published(s, id);
    var tmp := Partial(p.digest);
    PartialNames(p.digest, p.digest);
    assert PullOk(h, s.disk, p) && IsDigest(h(s.disk.Read(tmp)));
    forall other | other in t.pulls ensures PullOk(h, t.disk, t.pulls[other]) {
      var q := s.pulls[other];
      assert PullOk(h, s.disk, q);
      PartialNames(p.digest, q.digest);
    }
    forall n | n in s.disk.names && !IsPartial(n) ensures n in t.disk.names && t.disk.Read(n) == s.disk.Read(n) {
    }
  }

  lemma BeginningStep(h: Hash, s: State, id: PullId, digest: string)
    requires Inv(h, s) && Polite(s, Begin(id, digest))
    ensures Inv(h, Next(h, s, Begin(id, digest)))
  {
    var t := Next(h, s, Begin(id, digest));
    if t != s && digest !in s.disk.names {
      forall other | other in s.pulls ensures s.pulls[other].digest != digest {
      }
    }
  }

  lemma OpeningStep(h: Hash, s: State, id: PullId)
    requires Inv(h, s) && id in s.pulls && s.pulls[id].phase.Checked?
    ensures Inv(h, Opened(s, id)) && EntriesStay(s.disk, Opened(s, id).disk)
    ensures OnlyTouches(s.disk, Opened(s, id).disk, Partial(s.pulls[id].digest))
  {
    var p := s.pulls[id];
    assert PullOk(h, s.disk, p);
    PartialNames(p.digest, p.digest);
    LocalStep(h, s, Opened(s, id), id);
  }

  lemma AcceptingStep(h: Hash, s: State, id: PullId, reply: Reply)
    requires Inv(h, s) && id in s.pulls && s.pulls[id].phase.Receiving?
    requires s.pulls[id].phase.handle in s.disk.data
    ensures Inv(h, Accepting(h, s, id, reply)) && EntriesStay(s.disk, Accepting(h, s, id, reply).disk)
    ensures OnlyTouches(s.disk, Accepting(h, s, id, reply).disk, Partial(s.pulls[id].digest))
  {
    assert PullOk(h, s.disk, s.pulls[id]);
    LocalStep(h, s, Accepting(h, s, id, reply), id);
  }

  lemma JudgingStep(h: Hash, s: State, id: PullId, removed: bool)
    requires Inv(h, s) && id in s.pulls && s.pulls[id].phase.Receiving?
    ensures Inv(h, Judged(h, s, id, removed)) && EntriesStay(s.disk, Judged(h, s, id, removed).disk)
    ensures OnlyTouches(s.disk, Judged(h, s, id, removed).disk, Partial(s.pulls[id].digest))
  {
    assert PullOk(h, s.disk, s.pulls[id]);
    LocalStep(h, s, Judged(h, s, id, removed), id);
  }

  lemma AbortingStep(h: Hash, s: State, id: PullId, written: Option<Write>)
    requires Inv(h, s) && id in s.pulls
    ensures Inv(h, Aborted(s, id, written)) && EntriesStay(s.disk, Aborted(s, id, written).disk)
    ensures OnlyTouches(s.disk, Aborted(s, id, written).disk, Partial(s.pulls[id].digest))
  {
    assert PullOk(h, s.disk, s.pulls[id]);
    LocalStep(h, s, Aborted(s, id, written), id);
  }

  /** Every step keeps the invariant, and keeps every entry with its content. */
  lemma StepKeepsInv(h: Hash, s: State, step: Step)
    requires PrintsDigests(h) && Inv(h, s) && Polite(s, step)
    ensures Inv(h, Next(h, s, step)) && EntriesStay(s.disk, Next(h, s, step).disk)
  {
    if step.Begin? {
      BeginningStep(h, s, step.id, step.digest);
    } else if Next(h, s, step) != s {
      match step
      case Open(id) => OpeningStep(h, s, id);
      case Accept(id, reply) => AcceptingStep(h, s, id, reply);
      case Finish(id, removed) => JudgingStep(h, s, id, removed);
      case Rename(id) => PublishingStep(h, s, id);
      case Abort(id, written) => AbortingStep(h, s, id, written);
    }
  }

  lemma {:induction false} RunKeepsInv(h: Hash, s: State, run: seq<Step>)
    requires PrintsDigests(h) && Inv(h, s) && Disciplined(h, s, run)
    ensures Inv(h, Exec(h, s, run)) && EntriesStay(s.disk, Exec(h, s, run).disk)
    decreases |run|
  {
    if run != [] {
      StepKeepsInv(h, s, run[0]);
      RunKeepsInv(h, Next(h, s, run[0]), run[1..]);
    }
  }

  /** Cache invariant over every run of the code. Start from any directory whose
      digest-named entries are verified, whatever else it holds; run any pulls, for
      any names, interleaved in any way, with any replies, each stopped or failing
      anywhere, one at a time per digest. Every entry named by a digest then hashes to
      it; all files but temporary ones are unchanged; and what a pull returned is still
      there, and under a digest it hashed to it. */
  lemma EveryRunKeepsTheCache(h: Hash, disk: Disk, run: seq<Step>)
    requires PrintsDigests(h) && disk.Valid() && CacheVerified(h, disk)
    requires Disciplined(h, State(disk, map[], []), run)
    ensures var end := Exec(h, State(disk, map[], []), run);
      CacheVerified(h, end.disk) && EntriesStay(disk, end.disk) && ServedVerified(h, end.disk, end.served)
  {
    RunKeepsInv(h, State(disk, map[], []), run);
  }

  lemma ExecStep(h: Hash, s: State, step: Step, rest: seq<Step>)
    requires s.disk.Valid()
    ensures Next(h, s, step).disk.Valid()
    ensures Exec(h, s, [step] + rest) == Exec(h, Next(h, s, step), rest)
  {
    assert ([step] + rest)[1..] == rest;
  }

  // ----- The shortcut -----

  const EMPTY: State := State(Disk(map[], map[], 0), map[], [])

  /** A pull of `m` is stopped after opening its temporary file, and the temporary
      name is then asked for. */
  function LeftoverRun(m: string): seq<Step> {
    [Begin(0, m)] + ([Open(0)] + ([Abort(0, None)] + ([Begin(1, Partial(m))] + [])))
  }

  /** Asking for a temporary name returns whatever an interrupted pull left there. */
  lemma LeftoverIsServed(h: Hash, m: string)
    requires FileName(m) && FileName(Partial(m))
    ensures Exec(h, EMPTY, LeftoverRun(m)).served == [(Partial(m), [])]
  {
    var last := [Begin(1, Partial(m))] + [];
    var s1 := Next(h, EMPTY, Begin(0, m));
    ExecStep(h, EMPTY, Begin(0, m), [Open(0)] + ([Abort(0, None)] + last));
    assert s1 == State(EMPTY.disk, map[0 := ActivePull(m, Checked)], []);
    var s2 := Next(h, s1, Open(0));
    ExecStep(h, s1, Open(0), [Abort(0, None)] + last);
    var s3 := Next(h, s2, Abort(0, None));
    ExecStep(h, s2, Abort(0, None), last);
    assert s3 == State(Disk(map[Partial(m) := 0], map[0 := []], 1), map[], []);
    ExecStep(h, s3, Begin(1, Partial(m)), []);
  }

  ghost predicate ServesTruth(h: Hash, name: string, served: seq<(string, Bytes)>) {
    forall i :: 0 <= i < |served| && served[i].0 == name ==> h(served[i].1) == name
  }

  /** The name is only ever answered with content that hashes to it, from every
      verified directory and in every disciplined run. */
  ghost predicate AlwaysTrue(h: Hash, name: string) {
    forall disk: Disk, run: seq<Step> ::
      disk.Valid() && CacheVerified(h, disk) && Disciplined(h, State(disk, map[], []), run)
      ==> ServesTruth(h, name, Exec(h, State(disk, map[], []), run).served)
  }

  /** The already-cached shortcut, and with it every successful pull of a name,
      returns only content that hashes to the name if and only if the name is a
      digest. Anything else that exists in the directory is returned as it is. */
  lemma ShortcutIsVerifiedExactly(h: Hash, name: string)
    requires PrintsDigests(h) && FileName(name)
    ensures AlwaysTrue(h, name) <==> IsDigest(name)
  {
    if IsDigest(name) {
      forall disk: Disk, run: seq<Step> |
        disk.Valid() && CacheVerified(h, disk) && Disciplined(h, State(disk, map[], []), run)
        ensures ServesTruth(h, name, Exec(h, State(disk, map[], []), run).served)
      {
        EveryRunKeepsTheCache(h, disk, run);
      }
    } else {
      var disk := Disk(map[name := 0], map[0 := []], 1);
      var s, run := State(disk, map[], []), [Begin(0, name)] + [];
      ExecStep(h, s, Begin(0, name), []);
      assert Disciplined(h, s, run) by {
        assert run[1..] == [];
      }
      assert Exec(h, s, run).served == [(name, [])];
      assert Exec(h, s, run).served[0] == (name, []) && IsDigest(h([]));
      assert !ServesTruth(h, name, Exec(h, s, run).served);
    }
  }
}
