# Verified model of furcate-mesh

A Dafny model of the logic of the `furcate-mesh` peer fabric, with proofs of what it
promises: the chunked transfer and its content-addressed cache, the hybrid logical
clock, the work-stealing router, the wire codecs, the topic names and the discovery
service. `dafny verify dfyconfig.toml` checks the whole project.

| file | part of the system |
|---|---|
| `Common.dfy` | bytes, peer keys and their order |
| `Clock.dfy` | the hybrid logical clock, and runs of the protocol that uses it |
| `Hex.dfy`, `Base64Url.dfy` | the wire codecs |
| `Chunks.dfy` | the sender: chunk streams, the incremental root hash |
| `Reassembly.dfy` | writing chunks at their offsets, in any order |
| `Files.dfy` | the cache directory, with open handles |
| `Pull.dfy` | the transfer service as a class, and one pull as a function of cache and replies |
| `Transfer.dfy` | end-to-end results about that function |
| `CacheRuns.dfy` | any number of interleaved pulls, each failing or stopping anywhere |
| `Overlap.dfy` | overlapping pulls of one digest: when they break the cache, and when a pull may begin |
| `Retries.dfy` | retries that begin too early: late writes, honest senders, overlaps that have passed |
| `Isolation.dfy` | a pull delivers whatever other pulls do in between its steps |
| `PullRuns.dfy` | an undisturbed pull of `CacheRuns` is the pull of `Pull` |
| `Loads.dfy` | floating-point loads and the candidate comparator |
| `Routing.dfy` | the router's index and the gossip log |
| `Decisions.dfy` | the router as a class, and its decisions |
| `Forwarding.dfy` | a request travelling through a mesh of routers |
| `Topics.dfy` | topic keys and key-expression matching |
| `Discovery.dfy` | seed entries, resolved services, the discovery run |

## How the system is modelled

- BLAKE3 is an arbitrary function `h` from byte strings to text, passed to everything
  that hashes. Two hypotheses about it are stated where they are used and nowhere
  else: `PrintsDigests` (digests are 64 lower-case hex digits) and `CollisionFree(h, file)`
  (no other content has this one file's digest). The streaming hasher is the bytes it
  has absorbed, which is the library's own contract.
- Reads return any positive number of the remaining bytes that fits the buffer; the
  file being streamed does not change meanwhile. Files have POSIX semantics: a write
  past the end fills the gap with zeros, and an open handle keeps writing to the file
  it opened after the name is removed, renamed or truncated by someone else.
- The reply stream is an arbitrary finite sequence of replies, errors and malformed
  replies included. Timeouts only end it.
- Steps of any number of pulls interleave freely, and the code does nothing to keep two
  pulls of one digest apart. `Disciplined` says of a run that its callers do: a pull
  begins only when no other pull of that digest is in flight. A pull is in flight until
  it has returned and its last buffered write has landed.
- The cache directory may hold any other files. The cache is verified when every entry
  named by a digest hashes to its name.
- Lock-guarded bodies and single file-system calls are atomic steps, and so is hashing
  the temporary file; everything else interleaves. Instants and wall readings are parameters.
- Integer widths are explicit where they matter: the saturating 32-bit clock counter,
  the 8-bit hop count, the 63-bit file position. Loads are reals with both infinities
  and NaN; the two zeros are one.
- Socket addresses are an arbitrary type with an arbitrary parser.

## Where a natural property fails

- Causality of the clock holds in all runs of `n` steps exactly when `n < 2^32`
  (`Clock.CausalityBoundIsExact`): after that a saturated counter no longer moves.
- The comparator handed to the sort is an order on a set of loads exactly when the set
  has no NaN or no two different other loads (`Loads.OrderExactly`, `Loads.NaNCycle`).
- Starting a pull of a digest that is not cached keeps the cache verified, in all
  disciplined continuations, exactly when no other pull of that digest is in flight
  (`Overlap.BeginIsSafeExactly`): they share one temporary name. No hostile sender is
  needed: slices of the file suffice exactly when the file is not empty and the first
  pull has not received too much already (`Retries.HonestOverlapExactly`).
- Two pulls of one digest that are in flight can break the cache exactly when one of them
  can still spoil what is published (`Overlap.OverlapIsFatalExactly`). Pulls whose file
  has lost its name do no harm (`Retries.DetachedIsHarmless`).
- A retry begun before the last write of a failed attempt has landed delivers the file.
  The cache then stays verified exactly when that write puts down what the file holds
  there, or fits no file at all (`Retries.LateWriteExactly`).
- A name is only ever answered with content that hashes to it exactly when the name is a
  digest (`CacheRuns.ShortcutIsVerifiedExactly`): any other file in the directory, a
  `model.bin` or a leftover `<digest>.partial`, is returned as it is.
- A pull rebuilds a file from its slices exactly when the last chunk arrived and every
  gap is a run of zeros (`Transfer.SuccessExactly`): coverage itself is not checked.
- A hosted empty file is never delivered (`Transfer.OneSenderDelivers`).

Where code and documentation disagree the model follows the code. A chunk offset need
not be a multiple of the chunk size when a read comes up short
(crates/furcate-mesh-transfer/src/lib.rs:108-109); the receiver ignores a header's
`len`; `key_for` has arms for five of the ten event kinds; a failed registration ends
the discovery run (crates/furcate-mesh-discovery/src/lib.rs:172, 217-219).

## Model

| member | source | states |
|---|---|---|
| Common.BeforeExactly | crates/furcate-mesh-core/src/lib.rs:50-52 | one key comes before another exactly when its byte is smaller at the first position where they differ |
| Common.BeforeIsTotal | crates/furcate-mesh-core/src/lib.rs:50-52 | the derived order on keys is irreflexive, asymmetric and total |
| Common.BeforeIsTransitive | crates/furcate-mesh-core/src/lib.rs:50-52 | the derived order on keys is transitive |
| Clock.HybridLogicalClock.constructor | crates/furcate-mesh-core/src/lib.rs:307-315 | a clock for a reading has that wall time and counter zero |
| Clock.HybridLogicalClock.BumpPast | crates/furcate-mesh-core/src/lib.rs:322-327 | the wall part is the larger of the two; the counter of the clock with the larger wall part, or the larger counter on a tie, goes up by one; the result is never below either clock, and above both exactly while that counter is not full |
| Clock.CounterBound | crates/furcate-mesh-core/src/lib.rs:322-327 | in every run a counter is at most the number of bumps taken so far, at every peer |
| Clock.StoredNeverRegresses | crates/furcate-mesh-core/src/lib.rs:302-327 | a stored clock is never behind its boot reading or any earlier step of its peer, wall clocks jumping backwards or not |
| Clock.NeverRegresses | crates/furcate-mesh-core/src/lib.rs:317-327 | in runs of any length an event that happens before another never has a larger clock |
| Clock.ShortRunsAreCausal | crates/furcate-mesh-core/src/lib.rs:317-327 | in every run of fewer than 2^32 bumps happens-before implies a strictly smaller clock |
| Clock.CausalityBoundIsExact | crates/furcate-mesh-core/src/lib.rs:322-327 | causality holds in all runs of n steps if and only if n is below 2^32 |
| Clock.WallIsLargestReading | crates/furcate-mesh-core/src/lib.rs:300-327 | a clock's wall part is exactly the largest wall reading in its causal past, in runs of any length |
| Clock.CounterIsLongestChain | crates/furcate-mesh-core/src/lib.rs:294-327 | in runs of any length a counter is the length of the longest causal chain of steps within its millisecond that ends there, as far as 32 bits count |
| Clock.CounterRestarts | crates/furcate-mesh-core/src/lib.rs:294-327 | a counter is one exactly when no immediate cause has the same wall part |
| Hex.DigitIsAlphabet | crates/furcate-mesh-core/src/wire.rs:22-26 | the digits written are 0-9 and a-f |
| Hex.EncodeAt | crates/furcate-mesh-core/src/lib.rs:67-71 | byte k is printed at positions 2k and 2k + 1, as the digits of its high and its low half |
| Hex.LoweredAt | crates/furcate-mesh-discovery/src/lib.rs:254 | lowering replaces the 26 capital letters, position by position, and nothing else |
| Hex.DecodeExact | crates/furcate-mesh-core/src/lib.rs:79-88 | a text decodes to given bytes exactly when its lower case is their encoding |
| Hex.DecodeToSlice | crates/furcate-mesh-core/src/wire.rs:68-70 | the in-place decoder succeeds exactly on a text of the right length that decodes, and fills the buffer with the decoding |
| Hex.Utf8LenCounts | crates/furcate-mesh-core/src/wire.rs:50-60 | the length in bytes is one per character, and one more for each of the three UTF-8 limits the character reaches |
| Hex.Deserialize | crates/furcate-mesh-core/src/wire.rs:50-71 | a key is read from exactly one text, its lower-case hex; the length error, in UTF-8 bytes, and the upper-case error are reported exactly when they apply, in that order |
| Hex.FromHexExact | crates/furcate-mesh-core/src/lib.rs:67-88 | from_hex undoes to_hex, accepts exactly the letter-case variants of it, and each error has its exact cause |
| Base64Url.SymbolIsAlphabet | crates/furcate-mesh-core/src/wire.rs:74-75 | symbols are those of the URL-safe alphabet, in order |
| Base64Url.GroupIsBigEndian | crates/furcate-mesh-core/src/wire.rs:93-95 | three bytes and their four sextets are the same 24-bit number |
| Base64Url.EncodeAt | crates/furcate-mesh-core/src/wire.rs:93-95 | the text has (4n + 2) / 3 symbols, and symbol k is the alphabet at the k-th six bits of the message, most significant bit first, zeros after the end |
| Base64Url.PaddingAt | crates/furcate-mesh-core/src/wire.rs:111 | the padded text is that one followed by equals signs up to a multiple of four |
| Base64Url.UnpaddedExact | crates/furcate-mesh-core/src/wire.rs:109-110 | the unpadded engine reads b from exactly the unpadded encoding of b |
| Base64Url.PaddedExact | crates/furcate-mesh-core/src/wire.rs:111 | the padded engine reads b from exactly the canonically padded encoding of b |
| Base64Url.DeserializeExact | crates/furcate-mesh-core/src/wire.rs:105-114 | with the fallback, b is read from exactly its unpadded and its canonically padded encoding |
| Base64Url.RoundTrip | crates/furcate-mesh-core/src/wire.rs:93-114 | decoding undoes encoding, padded or not, and no two byte strings share a text |
| Base64Url.OptionalExact | crates/furcate-mesh-core/src/wire.rs:134-158 | an optional field survives the wire; absent and present-but-empty stay distinct |
| Chunks.RootHash | crates/furcate-mesh-transfer/src/lib.rs:154-166 | however the reads split the file, the digest is that of the whole content |
| Chunks.StreamFileChunks | crates/furcate-mesh-transfer/src/lib.rs:413-447 | the chunks are contiguous truthful slices from offset zero; without a fault they reach the end of the file; the loop terminates |
| Chunks.PayloadsAreFile | crates/furcate-mesh-transfer/src/lib.rs:424-441 | the payloads of a complete stream concatenate to the file, those of a cut one to its prefix |
| Chunks.StreamCovers | crates/furcate-mesh-transfer/src/lib.rs:417-445 | every byte a stream has reached lies in one of its chunks |
| Chunks.LastMarksTheEnd | crates/furcate-mesh-transfer/src/lib.rs:421-445 | exactly the final chunk of a complete stream is marked last, a cut stream marks none, an empty file has no chunk |
| Chunks.FullReads | crates/furcate-mesh-transfer/src/lib.rs:107-119 | with full reads, offsets are multiples of the chunk size and there are ceil(len / CHUNK_SIZE) chunks |
| Reassembly.WriteAtBytes | crates/furcate-mesh-transfer/src/lib.rs:365-368 | length and every byte of a file after a write at an offset, zeros in the gap |
| Reassembly.ReassembledSoFar | crates/furcate-mesh-transfer/src/lib.rs:342-372 | in any order and with repetition, slices of one file leave bytes that agree with it where written, are zero elsewhere and end at the furthest chunk |
| Reassembly.RebuiltExactly | crates/furcate-mesh-transfer/src/lib.rs:342-399 | slices rebuild a non-empty file if and only if one is last and every gap is zeros |
| Reassembly.OrderIsIrrelevant | crates/furcate-mesh-transfer/src/lib.rs:409-412 | the same slices in another order or repeated rebuild the same bytes |
| Reassembly.CompleteStreamRebuilds | crates/furcate-mesh-transfer/src/lib.rs:342-392 | one complete stream among any other slices of the file rebuilds it |
| Files.PartialNames | crates/furcate-mesh-transfer/src/lib.rs:312-321 | temporary names are distinct for distinct digests and never a digest |
| Files.WrittenEntries | crates/furcate-mesh-transfer/src/lib.rs:322-328 | opening with truncation and writing through the handle changes the entry of that name alone |
| Files.RenamedEntries | crates/furcate-mesh-transfer/src/lib.rs:400 | the rename moves one entry, replacing the target |
| Pull.TransferService.constructor | crates/furcate-mesh-transfer/src/lib.rs:206-212 | a new service has an empty artefact table |
| Pull.TransferService.Register | crates/furcate-mesh-transfer/src/lib.rs:222-224 | one artefact is added or replaced, the cache is untouched |
| Pull.TransferService.Answer | crates/furcate-mesh-transfer/src/lib.rs:249-272 | a query for a digest that is registered with a readable file is answered with a stream of that file, any other query with nothing |
| Pull.TransferService.Receive | crates/furcate-mesh-transfer/src/lib.rs:340-372 | the open file holds the accepted chunks reassembled, up to the first rejected reply, whose error is returned; the two flags are exact |
| Pull.TransferService.Discard | crates/furcate-mesh-transfer/src/lib.rs:374-376 | the temporary name is removed, or nothing changes when the disk fails |
| Pull.TransferService.Conclude | crates/furcate-mesh-transfer/src/lib.rs:374-402 | each error in its order, or the root hash matched and the file is published under its digest; other entries are untouched |
| Pull.TransferService.PullWithOptions | crates/furcate-mesh-transfer/src/lib.rs:303-402 | result and cache are the outcome function of digest, entries and replies, or that of a refused query; a failing disk can only add an I/O error or a leftover temporary file |
| Pull.TransferService.Pull | crates/furcate-mesh-transfer/src/lib.rs:294-297 | whatever the replies and faults: success means the name is there, what was cached stays, what is new under the name hashes to it, no other entry but the temporary one changes, and a refused query is reported with its selector and reason |
| Transfer.FirstBadReply | crates/furcate-mesh-transfer/src/lib.rs:343-368 | the first unsound reply ends the pull with the error of its kind; the sound ones before it are in the temporary file, and nothing else changes |
| Transfer.AnyPullIsSafe | crates/furcate-mesh-transfer/src/lib.rs:303-402 | for all replies: nothing changes but the temporary file and, if new, verified content under the digest; success exactly when the digest is cached afterwards |
| Transfer.Delivery | crates/furcate-mesh-transfer/src/lib.rs:303-447 | any number of senders, any read splits, any interleaving, order and repetition: once one whole stream is among the replies the pull succeeds and caches the file byte for byte |
| Transfer.OneSenderDelivers | crates/furcate-mesh-transfer/src/lib.rs:374-381 | one sender delivers its file if and only if it is not empty; an empty one looks missing |
| Transfer.SuccessExactly | crates/furcate-mesh-transfer/src/lib.rs:340-400 | with slices of a collision-free file, success if and only if a last chunk came and gaps are zeros; what is cached is the file; otherwise the error is exact: no reply, no last chunk, or the digest asked for and the one found |
| Transfer.ArrivalOrderIsIrrelevant | crates/furcate-mesh-transfer/src/lib.rs:331-372 | the outcome depends on the set of slices only |
| Transfer.LeftoverIsIrrelevant | crates/furcate-mesh-transfer/src/lib.rs:312-329 | result and final cache do not depend on a leftover temporary file |
| Transfer.RetryDelivers | crates/furcate-mesh-transfer/src/lib.rs:343-387 | after any failed attempt, a second one served a whole stream delivers |
| CacheRuns.StepKeepsInv | crates/furcate-mesh-transfer/src/lib.rs:312-401 | every step of every pull keeps the cache invariant and every file but temporary ones, as long as no pull begins while another of its digest is in flight |
| CacheRuns.EveryRunKeepsTheCache | crates/furcate-mesh-transfer/src/lib.rs:22-24 | from any directory whose digest-named entries are verified, over all disciplined runs, any replies and stops anywhere: entries named by a digest hash to it, files that were there never change, and what a pull returned is still there and under a digest hashed to it |
| Overlap.EveryRunIsTracked | crates/furcate-mesh-transfer/src/lib.rs:312-401 | in every run, disciplined or not, an open handle is a file, and that of a digest's pull goes by no name but its temporary one and the digest |
| Overlap.OverlapIsFatalExactly | crates/furcate-mesh-transfer/src/lib.rs:317-400 | from any state any run reaches with two pulls of one digest in flight: the two alone can leave an unverified entry if and only if there is one already, or one of them has yet to open its file, holds the published file, holds a temporary file that is not too long, or has passed its check on a file that has changed since |
| Overlap.AnotherPullIsFatal | crates/furcate-mesh-transfer/src/lib.rs:312-328 | while a digest is not cached and a pull of it is in flight, in whatever state, one more pull makes the cache breakable |
| Overlap.BeginIsSafeExactly | crates/furcate-mesh-transfer/src/lib.rs:312-328 | a pull of an uncached digest may begin, with the cache verified in all disciplined continuations, if and only if no other pull of it is in flight |
| Retries.DetachedIsHarmless | crates/furcate-mesh-transfer/src/lib.rs:322-376 | pulls writing to a file that has lost its name change no entry, whatever they do and whatever else is in flight |
| Retries.PassedOverlap | crates/furcate-mesh-transfer/src/lib.rs:317-376 | two pulls of one digest, neither verified, can be in such a state, reached from an empty directory |
| Retries.LateWriteExactly | crates/furcate-mesh-transfer/src/lib.rs:364-368 | a retry begun before the last write of a failed attempt landed delivers the file; the late write, a payload at an offset, leaves the cache verified if and only if it writes what the file holds there or is refused as too far out |
| Retries.HonestOverlapExactly | crates/furcate-mesh-transfer/src/lib.rs:312-400 | with slices of the file only, two overlapping pulls can leave an unverified entry if and only if the file is not empty and the first has not received too much already |
| CacheRuns.LeftoverIsServed | crates/furcate-mesh-transfer/src/lib.rs:313-321 | asking for the temporary name of an interrupted pull returns its leftover |
| CacheRuns.ShortcutIsVerifiedExactly | crates/furcate-mesh-transfer/src/lib.rs:312-316 | over all verified directories and all disciplined runs, a name is only ever answered with content that hashes to it if and only if it is a digest |
| PullRuns.UndisturbedPull | crates/furcate-mesh-transfer/src/lib.rs:303-402 | the steps of one pull, run alone, give the cache and the answer of the outcome function |
| Isolation.OtherStep | crates/furcate-mesh-transfer/src/lib.rs:312-401 | a step of another pull leaves this pull and its temporary file as they are |
| Isolation.ConcurrentDelivery | crates/furcate-mesh-transfer/src/lib.rs:303-447 | in every disciplined run, whatever other pulls do between its steps, a pull served a whole stream among slices of its file has its digest name the file, byte for byte, at the end of the run |
| Loads.LighterExactly | crates/furcate-mesh-routing/src/lib.rs:188-190 | the comparison of loads is the numeric order with the infinities at its ends and NaN outside it |
| Loads.PrecedesIsAsymmetric | crates/furcate-mesh-routing/src/lib.rs:188-192 | the comparator never ranks two candidates both ways, and always ranks distinct peers |
| Loads.PrecedesIsTransitive | crates/furcate-mesh-routing/src/lib.rs:188-192 | the comparator is transitive on coherent loads |
| Loads.NaNCycle | crates/furcate-mesh-routing/src/lib.rs:188-192 | a NaN between any two different loads closes a three-element cycle |
| Loads.OrderExactly | crates/furcate-mesh-routing/src/lib.rs:188-192 | the comparator is an order on a set of loads if and only if it has no NaN or no two other loads |
| Routing.IndexRefinesLog | crates/furcate-mesh-routing/src/lib.rs:111-142 | after any events exactly the other peers heard from have an entry, with the last heartbeat load or unknown, the distinct models ever announced, and the time of the latest event |
| Routing.EntryFromProjection | crates/furcate-mesh-routing/src/lib.rs:111-142 | a peer's entry depends on that peer's events only |
| Routing.InterleavingIsIrrelevant | crates/furcate-mesh-routing/src/lib.rs:111-142 | logs that agree peer by peer give the same index |
| Routing.ViewsAgree | crates/furcate-mesh-routing/src/lib.rs:98-142 | two routers with one log agree on every peer but themselves |
| Decisions.Router.constructor | crates/furcate-mesh-routing/src/lib.rs:101-107 | a new router has the index of the empty log |
| Decisions.Router.RecordAnnounce | crates/furcate-mesh-routing/src/lib.rs:111-125 | the state stays the index of the log with the announce added |
| Decisions.Router.RecordHeartbeat | crates/furcate-mesh-routing/src/lib.rs:130-142 | the state stays the index of the log with the heartbeat added |
| Decisions.Router.Route | crates/furcate-mesh-routing/src/lib.rs:154-196 | for every order of the map: local exactly if held, refused exactly over budget, no such model exactly when nobody serves it, otherwise the server that ranks first; without a NaN that is the one with the smallest load, on the numbers, ties by key |
| Decisions.SortedIsOrdered | crates/furcate-mesh-routing/src/lib.rs:186-192 | the stable sort orders candidates with coherent loads |
| Decisions.DecisionIsUnique | crates/furcate-mesh-routing/src/lib.rs:186-195 | with coherent loads there is one answer, whatever the order of the map |
| Decisions.CoherenceInLog | crates/furcate-mesh-routing/src/lib.rs:173-192 | the loads the router compares are coherent if and only if the current loads of the eligible peers in the gossip are |
| Decisions.DecisionRefinesLog | crates/furcate-mesh-routing/src/lib.rs:160-195 | stated on the gossip alone, when the current loads of eligible peers are coherent: forward to p if and only if p is eligible and outranks every other eligible peer; no such model if and only if none is |
| Decisions.LeastLoadedIsChosen | crates/furcate-mesh-routing/src/lib.rs:17-22 | while no eligible peer's current load is NaN: forward to p if and only if p is eligible and every other eligible peer has a heavier load, or the same load and a larger key |
| Decisions.SmallerNumberWins | crates/furcate-mesh-routing/src/lib.rs:186-195 | of the current loads of the chosen peer and another eligible one, as numbers, the smaller wins and the smaller key on a tie; minus infinity comes first and plus infinity last |
| Decisions.SilentPeersComeLast | crates/furcate-mesh-routing/src/lib.rs:81-82 | a peer without a heartbeat is never chosen over an eligible one whose load is at most 10^308 |
| Decisions.ForwardsWisely | crates/furcate-mesh-routing/src/lib.rs:98-107 | never to itself, never past the budget, never to a peer that did not announce the model |
| Decisions.TwoRoutersAgree | crates/furcate-mesh-routing/src/lib.rs:19-22 | two routers with one log, coherent for both, answer alike if and only if neither picks the other |
| Forwarding.ForwardsAreWise | crates/furcate-mesh-core/src/lib.rs:165-166 | every forward on a journey is within the forwarding router's budget and goes to another peer |
| Forwarding.HopBudgetHolds | crates/furcate-mesh-core/src/lib.rs:344-346 | with arbitrary and inconsistent views, at most budget - hops forwards, no wrap of the 8-bit count, then served or refused |
| Forwarding.EveryRequestEnds | crates/furcate-mesh-routing/src/lib.rs:154-196 | in any changing mesh, however a request has travelled so far, it can go on and comes to be served or refused, and no journey visits more than 256 - hops peers |
| Forwarding.TruthfulMeshServesAtOnce | crates/furcate-mesh-routing/src/lib.rs:12-24 | with truthful announces the first forward target serves the request |
| Topics.KeysAreInjective | crates/furcate-mesh-transport/src/lib.rs:67-96 | a key determines kind, peer and name, for all names |
| Topics.KeysSpelledOut | crates/furcate-mesh-transport/src/lib.rs:67-96 | the text of every kind of key, written out |
| Topics.KeySegments | crates/furcate-mesh-transport/src/lib.rs:17-23 | a key is the two root segments, the peer's hex, the kind, and the segments of the name |
| Topics.IntersectsMeans | crates/furcate-mesh-transport/src/lib.rs:98-107 | two key expressions intersect if and only if some plain key is matched by both |
| Topics.TopicsAreSeparate | crates/furcate-mesh-transport/src/lib.rs:98-107 | each wildcard reaches exactly the events of its kind, for all peers and names, names with wildcards of their own included |
| Topics.SelectorsSpelledOut | crates/furcate-mesh-transport/src/lib.rs:98-107 | the text of the subscriptions and of the transfer selector, written out |
| Topics.TransferReaches | crates/furcate-mesh-transfer/src/lib.rs:330 | an event wildcard reaches a selector exactly when the digest, read as a key expression, can name what the wildcard asks for |
| Topics.TransferIsSeparate | crates/furcate-mesh-transfer/src/lib.rs:59-60 | event keys and selectors of digests never meet |
| Discovery.ParseSeedExact | crates/furcate-mesh-discovery/src/lib.rs:283-308 | an entry reads as a peer if and only if it is spelled key@address[/url] with those parts |
| Discovery.SeedReads | crates/furcate-mesh-discovery/src/lib.rs:276-308 | printing then parsing recovers key, address and URL, defaulting to tcp/address |
| Discovery.SeedErrors | crates/furcate-mesh-discovery/src/lib.rs:283-301 | why an entry does not parse, exactly: no at sign, a bad key with the reason, or a bad address; the entry is named |
| Discovery.ResolveToPeer | crates/furcate-mesh-discovery/src/lib.rs:249-274 | a peer results exactly when the last record whose key says peer, in any letter case, reads as a key, there is a zenoh record, and there is an address; it has that key, the last zenoh value and the first address |
| Discovery.OwnServiceResolves | crates/furcate-mesh-discovery/src/lib.rs:219-244 | what a peer registers for itself resolves to that peer |
| Discovery.SendSeeds | crates/furcate-mesh-discovery/src/lib.rs:147-154 | the seeds before the first bad one, in order, as far as the consumer takes them; the bad one is reported only when reached |
| Discovery.Browse | crates/furcate-mesh-discovery/src/lib.rs:183-208 | the resolved peers without the local one, in order, as far as the consumer takes them |
| Discovery.Run | crates/furcate-mesh-discovery/src/lib.rs:145-214 | what the consumer gets is a prefix of one fixed stream, and the error is exact |
| Discovery.SeedsFirst | crates/furcate-mesh-discovery/src/lib.rs:124-139 | seeds in list order before any mDNS peer, and never the local peer as an mDNS find |
| Discovery.FoundExactly | crates/furcate-mesh-discovery/src/lib.rs:183-208 | what browsing finds is the services that advertise somebody other than the local peer, each once, in order, and all of them |
| Discovery.NothingIsDropped | crates/furcate-mesh-discovery/src/lib.rs:124-139 | with good seeds and working mDNS the stream is the seeds in order and then everything that browsing finds |
| Discovery.EndingExactly | crates/furcate-mesh-discovery/src/lib.rs:141-181 | which error ends the run, exactly: the first bad seed once those before it were taken, mDNS failing once all seeds were, none otherwise |

## Left out

- Decisions.Router.Route: with incoherent loads (a NaN beside two different loads) it only says that the target serves the model; the library sort promises nothing more there, and may panic.
- Decisions.Sorted: the library's sort is modelled as a stable insertion sort on a sequence, not in place.
- Pull.TransferService.Pull: names with a slash, which lead out of the flat directory, are not modelled.
- Pull.TransferService.PullWithOptions: the same.
- CacheRuns.EveryRunKeepsTheCache: an errored pull may return while its last buffered write is pending, and a retry reuses the same file; such a run is disciplined only if the retry waits for the write to land, which a caller cannot see. `Retries.LateWriteExactly` says what happens otherwise.
- Topics.TopicsAreSeparate: that Zenoh refuses empty segments, and wildcards for part of a segment, are not modelled.
- Discovery.ResolveToPeer: which of several addresses is picked is the first of an arbitrary order.
- Zenoh sessions, queryables, subscribers, timeouts and backpressure.
- Ed25519 identities, TLS verifiers and key files (`crates/furcate-mesh-identity`).
- The command line (`crates/furcate-mesh-cli`).
- JSON and CBOR framing of events, and topic keys for the five kinds `key_for` has no arm for.
- A last-writer-wins reducer: described, but not in the code.
- The `DiscoveryBackend` and `WorkBroker` traits: declarations only.
- Durability of a rename across power loss.
