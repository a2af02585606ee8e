/** The receiving half of `furcate-mesh-transfer`: one pull, its outcome as a
    function of the cache and the replies, and what that outcome promises. */
module Pull {
  import opened Common
  import opened Chunks
  import opened Reassembly
  import opened Files
  import Topics

  /** The largest file position the operating system accepts. */
  const MAX_POSITION: nat := 0x7FFF_FFFF_FFFF_FFFF

  /** One item of the reply stream: a reply error, a reply without a header
      attachment, one whose header does not decode, or a labelled chunk. */
  datatype Reply =
    | Failed(reason: string)
    | Headless
    | Garbled(reason: string)
    | Carries(chunk: Chunk)

  datatype TransferError =
    | Io
    | ChunkVerify(offset: nat)
    | RootVerify(expected: string, actual: string)
    | PeerMissing(peer: PeerId, digest: string)
    | Transport(reason: string)
    | MalformedReply(reason: string)

  /** `ChunkVerifier::verify`. */
  function Verify(h: Hash, c: Chunk): Result<(), TransferError> {
    if h(c.payload) == c.header.chunkHash then Ok(()) else Err(ChunkVerify(c.header.offset))
  }

  /** Whether the seek and the write stay within what a file can hold. */
  predicate Writable(c: Chunk) {
    c.header.offset <= MAX_POSITION && (c.payload == [] || End(c) <= MAX_POSITION)
  }

  /** The error a reply stops the pull with, if it does. */
  function Rejection(h: Hash, r: Reply): Option<TransferError> {
    match r
    case Failed(reason) => Some(Transport("reply error: " + reason))
    case Headless => Some(MalformedReply("reply missing chunk-header attachment"))
    case Garbled(reason) => Some(MalformedReply("decoding chunk header: " + reason))
    case Carries(c) =>
      if Verify(h, c).Err? then Some(Verify(h, c).error)
      else if !Writable(c) then Some(Io)
      else None
  }

  /** The chunks written before a reply is rejected or the stream ends. */
  function Taken(h: Hash, replies: seq<Reply>): seq<Chunk> {
    if replies == [] || Rejection(h, replies[0]).Some? then []
    else [replies[0].chunk] + Taken(h, replies[1..])
  }

  /** The error of the first rejected reply. */
  function Stop(h: Hash, replies: seq<Reply>): Option<TransferError> {
    if replies == [] then None
    else if Rejection(h, replies[0]).Some? then Rejection(h, replies[0])
    else Stop(h, replies[1..])
  }

  datatype Outcome = Outcome(result: Result<string, TransferError>, entries: map<string, Bytes>)

  /** The decision once the reply stream has ended. */
  function Verdict(h: Hash, peer: PeerId, digest: string, gotAny: bool, gotLast: bool, content: Bytes)
    : Result<string, TransferError>
  {
    if !gotAny then Err(PeerMissing(peer, digest))
    else if !gotLast then Err(MalformedReply("stream ended without a final chunk"))
    else if h(content) != digest then Err(RootVerify(digest, h(content)))
    else Ok(digest)
  }

  /** The cache once that decision has been carried out. */
  function Settled(entries: map<string, Bytes>, digest: string, content: Bytes, published: bool): map<string, Bytes> {
    var rest := entries - {Partial(digest)};
    if published then rest[digest := content] else rest
  }

  /** What a pull returns and leaves in the cache when no disk operation fails. */
  ghost function PullOutcome(h: Hash, entries: map<string, Bytes>, peer: PeerId, digest: string,
                             replies: seq<Reply>): Outcome
  {
    var content := Reassemble(Taken(h, replies));
    var verdict := Verdict(h, peer, digest, replies != [], HasLast(Taken(h, replies)), content);
    if digest in entries then Outcome(Ok(digest), entries)
    else if Stop(h, replies).Some? then Outcome(Err(Stop(h, replies).value), entries[Partial(digest) := content])
    else Outcome(verdict, Settled(entries, digest, content, verdict.Ok?))
  }

  /** What a pull leaves when the query itself is refused: by then the temporary file
      has been opened. */
  function RefusedOutcome(entries: map<string, Bytes>, digest: string, reason: string): Outcome {
    if digest in entries then Outcome(Ok(digest), entries)
    else Outcome(Err(Transport("get " + Topics.TransferSelector(digest) + ": " + reason)), entries[Partial(digest) := []])
  }

  /** A pull behaves as expected, except that a failing disk may turn its result
      into an I/O error or leave the temporary file behind. */
  predicate Meets(expected: Outcome, digest: string, faults: bool, r: Result<string, TransferError>,
                  before: map<string, Bytes>, after: map<string, Bytes>)
  {
    && (!faults ==> Outcome(r, after) == expected)
    && (r != expected.result ==> r == Err(Io))
    && after - {Partial(digest)} == (if r == expected.result then expected.entries else before) - {Partial(digest)}
  }

  /** The transfer service of one process. */
  class TransferService {
    const hash: Hash
    var cache: Disk
    var artefacts: map<string, string>

    constructor (hash: Hash, cache: Disk)
      ensures this.hash == hash && this.cache == cache && artefacts == map[]
    {
      this.hash, this.cache, this.artefacts := hash, cache, map[];
    }

    method Register(digest: string, path: string)
      modifies this`artefacts
      ensures artefacts == old(artefacts)[digest := path]
    {
      artefacts := artefacts[digest := path];
    }

    /** Answer one query of the serving loop: the digest is what follows the
        transfer prefix of the selector; an unknown digest or file gets no reply. */
    method Answer(selector: string, files: map<string, Bytes>, faults: bool) returns (replies: seq<Chunk>)
      ensures forall digest ::
                selector == "furcate/mesh/transfer/" + digest && digest in artefacts && artefacts[digest] in files ==>
                  && Chunked(hash, files[artefacts[digest]], replies)
                  && (!faults ==> Reach(replies) == |files[artefacts[digest]]|)
      ensures replies != [] ==>
                exists digest :: selector == "furcate/mesh/transfer/" + digest && digest in artefacts && artefacts[digest] in files
    {
      var prefix := Topics.TransferSelector("");
      Topics.SelectorsSpelledOut("");
      replies := [];
      if prefix <= selector {
        var digest := selector[|prefix|..];
        assert selector == "furcate/mesh/transfer/" + digest;
        assert forall d :: selector == "furcate/mesh/transfer/" + d ==> d == selector[|prefix|..];
        if digest in artefacts && artefacts[digest] in files {
          var complete;
          replies, complete := StreamFileChunks(hash, files[artefacts[digest]], faults);
        }
      } else {
        assert forall d :: prefix <= "furcate/mesh/transfer/" + d;
      }
    }

    /** The receive loop: each accepted chunk goes to the open file at its offset.
        A rejected reply, or a failing disk, ends the loop with an error. */
    method Receive(handle: Inode, replies: seq<Reply>, faults: bool)
      returns (stop: Option<TransferError>, gotAny: bool, gotLast: bool)
      requires cache.Valid() && handle in cache.data && cache.data[handle] == []
      modifies this`cache
      ensures exists content :: cache == old(cache).Stored(handle, content)
      ensures (cache == old(cache).Stored(handle, Reassemble(Taken(hash, replies))) && stop == Stop(hash, replies))
           || (faults && stop == Some(Io))
      ensures stop == None ==> (gotAny <==> replies != []) && (gotLast <==> HasLast(Taken(hash, replies)))
    {
      stop, gotAny, gotLast := None, false, false;
      var i := 0;
      ghost var taken: seq<Chunk> := [];
      ghost var start := cache;
      assert replies[0..] == replies && cache == cache.Stored(handle, []);
      while i < |replies|
        invariant i <= |replies| && start == old(cache)
        invariant cache == start.Stored(handle, Reassemble(taken))
        invariant Taken(hash, replies) == taken + Taken(hash, replies[i..])
        invariant Stop(hash, replies) == Stop(hash, replies[i..])
        invariant gotAny <==> i > 0
        invariant gotLast <==> HasLast(taken)
      {
        gotAny := true;
        NextReply(hash, replies, i, taken);
        if Rejection(hash, replies[i]).Some? {
          return Rejection(hash, replies[i]), gotAny, gotLast;
        }
        if faults {
          if * { return Some(Io), gotAny, gotLast; }
        }
        var c := replies[i].chunk;
        NextChunk(taken, c);
        StoredTwice(start, handle, Reassemble(taken), Reassemble(taken + [c]));
        cache := cache.Stored(handle, WriteAt(cache.data[handle], c.header.offset, c.payload));
        taken := taken + [c];
        if c.header.last {
          gotLast := true;
        }
        i := i + 1;
      }
      assert taken + [] == taken;
    }

    /** Removing the temporary file is best effort: its failure is ignored. */
    method Discard(tmp: string, faults: bool)
      requires cache.Valid()
      modifies this`cache
      ensures cache == old(cache).Removed(tmp) || (faults && cache == old(cache))
    {
      if faults {
        if * { return; }
      }
      cache := cache.Removed(tmp);
    }

    /** Judge the temporary file, and publish it under its digest or discard it. */
    method Conclude(peer: PeerId, digest: string, gotAny: bool, gotLast: bool, faults: bool)
      returns (r: Result<string, TransferError>)
      requires cache.Valid() && Partial(digest) in cache.names
      modifies this`cache
      ensures cache.Valid()
      ensures var content := old(cache).Read(Partial(digest));
        var verdict := Verdict(hash, peer, digest, gotAny, gotLast, content);
        var settled := Settled(old(cache).Entries(), digest, content, r.Ok?);
        && (r == verdict || (faults && r == Err(Io)))
        && (!faults ==> cache.Entries() == settled)
        && cache.Entries() - {Partial(digest)} == settled - {Partial(digest)}
    {
      var tmp := Partial(digest);
      PartialNames(digest, digest);
      RemovedEntries(cache, tmp);
      RenamedEntries(cache, tmp, digest);
      if !gotAny {
        Discard(tmp, faults);
        return Err(PeerMissing(peer, digest));
      }
      if !gotLast {
        Discard(tmp, faults);
        return Err(MalformedReply("stream ended without a final chunk"));
      }
      if faults {
        if * { return Err(Io); }
      }
      var actual := RootHash(hash, cache.Read(tmp));
      if actual != digest {
        Discard(tmp, faults);
        return Err(RootVerify(digest, actual));
      }
      if faults {
        if * { return Err(Io); }
      }
      cache := cache.Renamed(tmp, digest);
      r := Ok(digest);
    }

    /** `pull_with_options`. The query may be `refused`; with `faults`, any disk
        operation may fail. */
    method PullWithOptions(peer: PeerId, digest: string, refused: Option<string>, replies: seq<Reply>, faults: bool)
      returns (r: Result<string, TransferError>)
      requires cache.Valid() && '/' !in digest
      modifies this`cache
      ensures cache.Valid()
      ensures Meets(Expected(hash, old(cache).Entries(), peer, digest, refused, replies),
                    digest, faults, r, old(cache).Entries(), cache.Entries())
    {
      if faults {
        if * { return Err(Io); }
      }
      if NamesDirectory(digest) || digest in cache.names {
        return Ok(digest);
      }
      var tmp := Partial(digest);
      var handle := cache.Handle(tmp);
      OpenedEntries(cache, tmp);
      Overwritten(cache.Entries(), tmp, [], []);
      cache := cache.OpenTruncated(tmp);
      if refused.Some? {
        return Err(Transport("get " + Topics.TransferSelector(digest) + ": " + refused.value));
      }
      var stop, gotAny, gotLast := Receive(handle, replies, faults);
      ghost var content, received := cache.data[handle], cache.Entries();
      WrittenEntries(old(cache), tmp, content);
      if stop.Some? {
        StopMeets(hash, old(cache).Entries(), received, peer, digest, replies, faults, stop.value);
        return Err(stop.value);
      }
      r := Conclude(peer, digest, gotAny, gotLast, faults);
      ConclusionMeets(hash, old(cache).Entries(), received, cache.Entries(), peer, digest, replies, faults, r);
    }

    /** `pull`, and what its caller can rely on whatever the replies and faults: success
        means that the name is there; what was cached stays; what is new under the name
        hashes to it; no other entry but the temporary one changes; and a refused query
        is reported as such. */
    method Pull(peer: PeerId, digest: string, refused: Option<string>, replies: seq<Reply>, faults: bool)
      returns (r: Result<string, TransferError>)
      requires cache.Valid() && '/' !in digest
      modifies this`cache
      ensures cache.Valid()
      ensures Meets(Expected(hash, old(cache).Entries(), peer, digest, refused, replies),
                    digest, faults, r, old(cache).Entries(), cache.Entries())
      ensures FileName(digest) && r.Ok? ==> digest in cache.names
      ensures digest in old(cache).names ==> digest in cache.names && cache.Read(digest) == old(cache).Read(digest)
      ensures digest !in old(cache).names && digest in cache.names ==> r.Ok? && hash(cache.Read(digest)) == digest
      ensures cache.Entries() - {Partial(digest), digest} == old(cache).Entries() - {Partial(digest), digest}
      ensures FileName(digest) && digest !in old(cache).names && refused.Some? ==>
                && ((faults && r == Err(Io))
                    || r == Err(Transport("get " + ("furcate/mesh/transfer/" + digest) + ": " + refused.value)))
                && cache.Entries() - {Partial(digest)} == old(cache).Entries() - {Partial(digest)}
    {
      r := PullWithOptions(peer, digest, refused, replies, faults);
      ExpectedIsSafe(hash, old(cache).Entries(), peer, digest, refused, replies);
      MeetsIsSafe(hash, Expected(hash, old(cache).Entries(), peer, digest, refused, replies),
                  digest, faults, r, old(cache).Entries(), cache.Entries());
      if FileName(digest) && digest !in old(cache).names && refused.Some? {
        RefusalIsReported(hash, old(cache).Entries(), peer, digest, refused, replies);
      }
    }
  }

  /** What a pull leaves whenever the disk does not fail. */
  ghost function Expected(h: Hash, entries: map<string, Bytes>, peer: PeerId, digest: string,
                          refused: Option<string>, replies: seq<Reply>): Outcome
  {
    if NamesDirectory(digest) then Outcome(Ok(digest), entries)
    else if refused.Some? then RefusedOutcome(entries, digest, refused.value)
    else PullOutcome(h, entries, peer, digest, replies)
  }

  /** The entries of a pull's end are in order, given those of its beginning. */
  ghost predicate KeepsCache(h: Hash, digest: string, ok: bool, before: map<string, Bytes>, after: map<string, Bytes>) {
    && after - {Partial(digest), digest} == before - {Partial(digest), digest}
    && (digest in before ==> digest in after && after[digest] == before[digest])
    && (digest !in before && digest in after ==> ok && h(after[digest]) == digest)
    && (FileName(digest) && ok ==> digest in after)
  }

  lemma ExpectedIsSafe(h: Hash, entries: map<string, Bytes>, peer: PeerId, digest: string,
                       refused: Option<string>, replies: seq<Reply>)
    ensures var o := Expected(h, entries, peer, digest, refused, replies);
      KeepsCache(h, digest, o.result.Ok?, entries, o.entries)
  {
    PartialNames(digest, digest);
  }

  lemma SameBut<K, V>(a: map<K, V>, b: map<K, V>, tmp: K, key: K)
    requires a - {tmp} == b - {tmp} && tmp != key
    ensures key in a <==> key in b
    ensures key in a ==> a[key] == b[key]
    ensures a - {tmp, key} == b - {tmp, key}
  {
    assert key in a <==> key in a - {tmp};
    assert key in b <==> key in b - {tmp};
    assert key in a ==> a[key] == (a - {tmp})[key] && b[key] == (b - {tmp})[key];
    assert a - {tmp, key} == (a - {tmp}) - {key} && b - {tmp, key} == (b - {tmp}) - {key};
  }

  lemma MeetsIsSafe(h: Hash, o: Outcome, digest: string, faults: bool, r: Result<string, TransferError>,
                    before: map<string, Bytes>, after: map<string, Bytes>)
    requires Meets(o, digest, faults, r, before, after) && KeepsCache(h, digest, o.result.Ok?, before, o.entries)
    ensures KeepsCache(h, digest, r.Ok?, before, after)
  {
    PartialNames(digest, digest);
    SameBut(after, if r == o.result then o.entries else before, Partial(digest), digest);
  }

  lemma RefusalIsReported(h: Hash, entries: map<string, Bytes>, peer: PeerId, digest: string,
                          refused: Option<string>, replies: seq<Reply>)
    requires FileName(digest) && digest !in entries && refused.Some?
    ensures var o := Expected(h, entries, peer, digest, refused, replies);
      && o.result == Err(Transport("get " + ("furcate/mesh/transfer/" + digest) + ": " + refused.value))
      && o.entries - {Partial(digest)} == entries - {Partial(digest)}
  {
    Topics.SelectorsSpelledOut(digest);
    Overwritten(entries, Partial(digest), [], []);
  }

  lemma StopMeets(h: Hash, before: map<string, Bytes>, received: map<string, Bytes>,
                  peer: PeerId, digest: string, replies: seq<Reply>, faults: bool, stop: TransferError)
    requires digest !in before && received - {Partial(digest)} == before - {Partial(digest)}
    requires (Stop(h, replies) == Some(stop) && received == before[Partial(digest) := Reassemble(Taken(h, replies))])
          || (faults && stop == Io)
    ensures Meets(PullOutcome(h, before, peer, digest, replies), digest, faults, Err(stop), before, received)
  {
    var outcome := PullOutcome(h, before, peer, digest, replies);
    Overwritten(before, Partial(digest), [], Reassemble(Taken(h, replies)));
    assert outcome.result == Err(stop) ==> outcome.entries - {Partial(digest)} == before - {Partial(digest)};
  }

  lemma ConclusionMeets(h: Hash, before: map<string, Bytes>, received: map<string, Bytes>, after: map<string, Bytes>,
                        peer: PeerId, digest: string, replies: seq<Reply>, faults: bool,
                        r: Result<string, TransferError>)
    requires digest !in before && Stop(h, replies) == None
    requires var content := Reassemble(Taken(h, replies));
      var verdict := Verdict(h, peer, digest, replies != [], HasLast(Taken(h, replies)), content);
      var settled := Settled(received, digest, content, r.Ok?);
      && received - {Partial(digest)} == before - {Partial(digest)}
      && (r == verdict || (faults && r == Err(Io)))
      && (!faults ==> after == settled)
      && after - {Partial(digest)} == settled - {Partial(digest)}
    ensures Meets(PullOutcome(h, before, peer, digest, replies), digest, faults, r, before, after)
  {
  }

  lemma NextReply(h: Hash, replies: seq<Reply>, i: nat, taken: seq<Chunk>)
    requires i < |replies|
    requires Taken(h, replies) == taken + Taken(h, replies[i..]) && Stop(h, replies) == Stop(h, replies[i..])
    ensures Rejection(h, replies[i]).Some? ==> Taken(h, replies) == taken && Stop(h, replies) == Rejection(h, replies[i])
    ensures Rejection(h, replies[i]).None? ==>
              && Taken(h, replies) == taken + [replies[i].chunk] + Taken(h, replies[i + 1..])
              && Stop(h, replies) == Stop(h, replies[i + 1..])
  {
    var rest := replies[i..];
    assert rest[0] == replies[i] && rest[1..] == replies[i + 1..];
    if Rejection(h, rest[0]).Some? {
      assert Taken(h, rest) == [];
    } else {
      assert Taken(h, rest) == [replies[i].chunk] + Taken(h, replies[i + 1..]);
    }
  }

  lemma NextChunk(taken: seq<Chunk>, c: Chunk)
    ensures Reassemble(taken + [c]) == WriteAt(Reassemble(taken), c.header.offset, c.payload)
    ensures HasLast(taken + [c]) <==> HasLast(taken) || c.header.last
  {
    var longer := taken + [c];
    assert longer[..|taken|] == taken;
    assert forall d :: d in longer <==> d in taken || d == c;
  }
}
