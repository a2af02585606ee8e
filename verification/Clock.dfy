/** The hybrid logical clock of `furcate-mesh-core`, and the protocol its
    documentation describes: a peer bumps its stored clock past a wall reading
    before it produces an event, and past the clock of every event it receives. */
module Clock {

  const U32_MAX: nat := 0xFFFF_FFFF
  const U64_MAX: nat := 0xFFFF_FFFF_FFFF_FFFF

  type U32 = x: nat | x <= U32_MAX
  type U64 = x: nat | x <= U64_MAX

  /** A clock value. The source derives its order field by field. */
  datatype Hlc = Hlc(wallMs: U64, counter: U32)

  predicate Less(a: Hlc, b: Hlc) {
    a.wallMs < b.wallMs || (a.wallMs == b.wallMs && a.counter < b.counter)
  }

  predicate AtMost(a: Hlc, b: Hlc) {
    a == b || Less(a, b)
  }

  function Later(a: Hlc, b: Hlc): Hlc {
    if Less(a, b) then b else a
  }

  /** A saturating increment: the tick is lost once the 32-bit counter is full. */
  function Ticked(counter: U32): U32 {
    if counter == U32_MAX then U32_MAX else counter + 1
  }

  /** The value `bump_past` leaves behind: the later clock, one tick on. */
  function Bumped(a: Hlc, other: Hlc): Hlc {
    var top := Later(a, other);
    Hlc(top.wallMs, Ticked(top.counter))
  }

  /** The stored clock of one peer. */
  class HybridLogicalClock {
    var wallMs: U64
    var counter: U32

    function Value(): Hlc
      reads this
    {
      Hlc(wallMs, counter)
    }

    /** A clock for a wall reading: what `now` builds. */
    constructor (reading: U64)
      ensures Value() == Hlc(reading, 0)
    {
      wallMs, counter := reading, 0;
    }

    method BumpPast(other: Hlc)
      modifies this
      ensures Value() == Bumped(old(Value()), other)
      ensures wallMs == if old(wallMs) < other.wallMs then other.wallMs else old(wallMs)
      ensures other.wallMs > old(wallMs) ==> counter == Ticked(other.counter)
      ensures other.wallMs < old(wallMs) ==> counter == Ticked(old(counter))
      ensures other.wallMs == old(wallMs) ==>
                counter == Ticked(if old(counter) < other.counter then other.counter else old(counter))
      ensures AtMost(old(Value()), Value()) && AtMost(other, Value())
      ensures (Less(old(Value()), Value()) && Less(other, Value()))
              <==> Later(old(Value()), other).counter < U32_MAX
    {
      if Less(Value(), other) {
        wallMs, counter := other.wallMs, other.counter;
      }
      counter := Ticked(counter);
    }
  }

  // ----- Runs of the protocol -----

  type Peer = nat

  /** One bump. A peer produces an event after reading its wall clock, or takes
      in the clock of the step at position `source` of the run; a message may be
      delivered late, many times, or never. */
  datatype Step =
    | Produce(peer: Peer, reading: U64)
    | Receive(peer: Peer, source: nat)

  predicate WellFormed(run: seq<Step>) {
    forall k :: 0 <= k < |run| && run[k].Receive? ==> run[k].source < k
  }

  /** The wall reading each peer took when it built its first clock. */
  type Boot = Peer -> U64

  /** The clock peer `p` has stored when the first `n` steps have been taken. */
  function StoredAfter(boot: Boot, run: seq<Step>, n: nat, p: Peer): Hlc
    requires WellFormed(run) && n <= |run|
    decreases n, 0
  {
    if n == 0 then Hlc(boot(p), 0)
    else if run[n - 1].peer == p then ClockOf(boot, run, n - 1)
    else StoredAfter(boot, run, n - 1, p)
  }

  /** The clock that step `k` bumps past. */
  function Incoming(boot: Boot, run: seq<Step>, k: nat): Hlc
    requires WellFormed(run) && k < |run|
    decreases k, 1
  {
    match run[k]
    case Produce(_, reading) => Hlc(reading, 0)
    case Receive(_, source) => ClockOf(boot, run, source)
  }

  /** The clock of step `k`: the peer's stored clock, bumped. */
  function ClockOf(boot: Boot, run: seq<Step>, k: nat): Hlc
    requires WellFormed(run) && k < |run|
    decreases k, 2
  {
    Bumped(StoredAfter(boot, run, k, run[k].peer), Incoming(boot, run, k))
  }

  // ----- Causality -----

  /** Step i is an immediate cause of step j: earlier at the same peer, or the
      step whose clock step j received. */
  predicate Causes(run: seq<Step>, i: nat, j: nat)
    requires j < |run|
  {
    i < j && (run[i].peer == run[j].peer || (run[j].Receive? && run[j].source == i))
  }

  /** The transitive closure of `Causes`. */
  ghost predicate HappensBefore(run: seq<Step>, i: nat, j: nat)
    requires j < |run|
    decreases j
  {
    exists k :: i <= k < j && Causes(run, k, j) && (k == i || HappensBefore(run, i, k))
  }

  /** No step raises a counter by more than one, so a counter never exceeds the
      number of steps taken so far. */
  lemma {:induction false} CounterBound(boot: Boot, run: seq<Step>, n: nat, p: Peer)
    requires WellFormed(run) && n <= |run|
    ensures StoredAfter(boot, run, n, p).counter <= n
    ensures forall k :: 0 <= k < n ==> ClockOf(boot, run, k).counter <= k + 1
    decreases n
  {
    if n > 0 {
      CounterBound(boot, run, n - 1, run[n - 1].peer);
      CounterBound(boot, run, n - 1, p);
      assert Incoming(boot, run, n - 1).counter <= n - 1;
      assert ClockOf(boot, run, n - 1).counter <= n;
    }
  }

  /** A stored clock is never behind any earlier step of its peer, nor behind its
      boot reading. */
  lemma {:induction false} StoredNeverRegresses(boot: Boot, run: seq<Step>, n: nat, p: Peer)
    requires WellFormed(run) && n <= |run|
    ensures AtMost(Hlc(boot(p), 0), StoredAfter(boot, run, n, p))
    ensures forall i :: 0 <= i < n && run[i].peer == p
              ==> AtMost(ClockOf(boot, run, i), StoredAfter(boot, run, n, p))
    decreases n
  {
    if n > 0 {
      StoredNeverRegresses(boot, run, n - 1, p);
    }
  }

  lemma CauseIsAtMost(boot: Boot, run: seq<Step>, i: nat, j: nat)
    requires WellFormed(run) && j < |run| && Causes(run, i, j)
    ensures AtMost(ClockOf(boot, run, i), ClockOf(boot, run, j))
    ensures j < U32_MAX ==> Less(ClockOf(boot, run, i), ClockOf(boot, run, j))
  {
    CounterBound(boot, run, j, run[j].peer);
    StoredNeverRegresses(boot, run, j, run[j].peer);
  }

  /** Without any bound on the run, causes never sort after their effects. */
  lemma {:induction false} NeverRegresses(boot: Boot, run: seq<Step>, i: nat, j: nat)
    requires WellFormed(run) && j < |run| && HappensBefore(run, i, j)
    ensures AtMost(ClockOf(boot, run, i), ClockOf(boot, run, j))
    decreases j
  {
    var k :| i <= k < j && Causes(run, k, j) && (k == i || HappensBefore(run, i, k));
    CauseIsAtMost(boot, run, k, j);
    if k != i {
      NeverRegresses(boot, run, i, k);
    }
  }

  ghost predicate Causal(boot: Boot, run: seq<Step>)
    requires WellFormed(run)
  {
    forall i, j :: 0 <= i < j < |run| && HappensBefore(run, i, j)
      ==> Less(ClockOf(boot, run, i), ClockOf(boot, run, j))
  }

  lemma {:induction false} HappensBeforeIsLess(boot: Boot, run: seq<Step>, i: nat, j: nat)
    requires WellFormed(run) && j < |run| && j < U32_MAX && HappensBefore(run, i, j)
    ensures Less(ClockOf(boot, run, i), ClockOf(boot, run, j))
    decreases j
  {
    var k :| i <= k < j && Causes(run, k, j) && (k == i || HappensBefore(run, i, k));
    CauseIsAtMost(boot, run, k, j);
    if k != i {
      HappensBeforeIsLess(boot, run, i, k);
    }
  }

  /** In every run of fewer than 2^32 steps, whatever the wall clocks do, the
      clocks order causes strictly before effects. */
  lemma ShortRunsAreCausal(boot: Boot, run: seq<Step>)
    requires WellFormed(run) && |run| <= U32_MAX
    ensures Causal(boot, run)
  {
    forall i, j | 0 <= i < j < |run| && HappensBefore(run, i, j)
      ensures Less(ClockOf(boot, run, i), ClockOf(boot, run, j))
    {
      HappensBeforeIsLess(boot, run, i, j);
    }
  }

  /** `n` events produced by one peer whose wall clock never moves. */
  function Frozen(n: nat): (run: seq<Step>)
    ensures |run| == n && WellFormed(run)
    ensures forall k :: 0 <= k < n ==> run[k] == Produce(0, 0)
  {
    seq(n, _ => Produce(0, 0))
  }

  function Stopped(p: Peer): U64 { 0 }

  lemma {:induction false} FrozenClock(n: nat, k: nat)
    requires k < n
    ensures ClockOf(Stopped, Frozen(n), k) == Hlc(0, if k < U32_MAX then k + 1 else U32_MAX)
    decreases k
  {
    if k > 0 {
      FrozenClock(n, k - 1);
    }
  }

  /** The bound is exact: causality holds in all runs of `n` steps if and only if
      `n` is below 2^32. */
  lemma CausalityBoundIsExact(n: nat)
    ensures (forall boot: Boot, run: seq<Step> :: WellFormed(run) && |run| == n ==> Causal(boot, run))
            <==> n < 0x1_0000_0000
  {
    if n <= U32_MAX {
      forall boot: Boot, run: seq<Step> | WellFormed(run) && |run| == n
        ensures Causal(boot, run)
      {
        ShortRunsAreCausal(boot, run);
      }
    } else {
      var run, i, j := Frozen(n), U32_MAX - 1, U32_MAX;
      FrozenClock(n, i);
      FrozenClock(n, j);
      assert Causes(run, i, j);
      assert HappensBefore(run, i, j);
      assert !Causal(Stopped, run);
    }
  }

  // ----- Drift -----

  /** `w` is a wall reading taken at step `i`: the step's own reading, or the one
      its peer booted with. */
  predicate TakenAt(boot: Boot, run: seq<Step>, i: nat, w: U64)
    requires i < |run|
  {
    w == boot(run[i].peer) || (run[i].Produce? && w == run[i].reading)
  }

  ghost predicate InPast(run: seq<Step>, i: nat, k: nat)
    requires k < |run|
  {
    i == k || (i < k && HappensBefore(run, i, k))
  }

  lemma {:induction false} PastIsTransitive(run: seq<Step>, i: nat, m: nat, k: nat)
    requires k < |run| && m <= k && InPast(run, i, m) && InPast(run, m, k)
    ensures InPast(run, i, k)
    decreases k
  {
    if i != m && m != k {
      var c :| m <= c < k && Causes(run, c, k) && (c == m || HappensBefore(run, m, c));
      if c != m {
        PastIsTransitive(run, i, m, c);
      }
    }
  }

  /** The wall part of a clock is a reading taken in its causal past. */
  lemma {:induction false} WallWasRead(boot: Boot, run: seq<Step>, k: nat) returns (i: nat)
    requires WellFormed(run) && k < |run|
    ensures i <= k && InPast(run, i, k) && TakenAt(boot, run, i, ClockOf(boot, run, k).wallMs)
    decreases k, 1
  {
    var p := run[k].peer;
    if ClockOf(boot, run, k).wallMs == Incoming(boot, run, k).wallMs {
      if run[k].Produce? {
        i := k;
      } else {
        i := WallWasRead(boot, run, run[k].source);
        assert Causes(run, run[k].source, k);
        assert InPast(run, run[k].source, k);
        PastIsTransitive(run, i, run[k].source, k);
      }
    } else {
      var m := StoredBy(boot, run, k, p);
      if m < k {
        i := WallWasRead(boot, run, m);
        assert Causes(run, m, k);
        assert InPast(run, m, k);
        PastIsTransitive(run, i, m, k);
      } else {
        i := k;
      }
    }
  }

  /** The step that stored a peer's clock, or `n` when it is still the boot clock. */
  lemma {:induction false} StoredBy(boot: Boot, run: seq<Step>, n: nat, p: Peer) returns (m: nat)
    requires WellFormed(run) && n <= |run|
    ensures m <= n
    ensures m < n ==> run[m].peer == p && StoredAfter(boot, run, n, p) == ClockOf(boot, run, m)
    ensures m == n ==> StoredAfter(boot, run, n, p) == Hlc(boot(p), 0)
    decreases n, 0
  {
    if n == 0 {
      m := 0;
    } else if run[n - 1].peer == p {
      m := n - 1;
    } else {
      m := StoredBy(boot, run, n - 1, p);
      m := if m == n - 1 then n else m;
    }
  }

  /** Drift bound: the wall part of every clock is exactly the largest wall
      reading in its causal past, in runs of any length. In particular it is at
      least the peer's own latest reading, and no clock runs ahead of the fastest
      wall clock it has heard of. */
  lemma WallIsLargestReading(boot: Boot, run: seq<Step>, k: nat)
    requires WellFormed(run) && k < |run|
    ensures exists i :: 0 <= i <= k && InPast(run, i, k) && TakenAt(boot, run, i, ClockOf(boot, run, k).wallMs)
    ensures forall i, w: U64 :: 0 <= i <= k && InPast(run, i, k) && TakenAt(boot, run, i, w)
              ==> w <= ClockOf(boot, run, k).wallMs
  {
    var witnessed := WallWasRead(boot, run, k);
    forall i, w: U64 | 0 <= i <= k && InPast(run, i, k) && TakenAt(boot, run, i, w)
      ensures w <= ClockOf(boot, run, k).wallMs
    {
      StoredNeverRegresses(boot, run, i, run[i].peer);
      if i < k {
        NeverRegresses(boot, run, i, k);
      }
    }
  }

  // ----- What the counter counts -----

  /** Steps of one millisecond, each an immediate cause of the next, ending in `k`. */
  ghost predicate Chain(boot: Boot, run: seq<Step>, chain: seq<nat>, k: nat)
    requires WellFormed(run) && k < |run|
  {
    && chain != [] && chain[|chain| - 1] == k
    && (forall i :: 0 <= i < |chain| ==>
          chain[i] < |run| && ClockOf(boot, run, chain[i]).wallMs == ClockOf(boot, run, k).wallMs)
    && (forall i :: 0 <= i < |chain| - 1 ==> Causes(run, chain[i], chain[i + 1]))
  }

  /** As a 32-bit counter shows it. */
  function Capped(n: nat): nat {
    if n < 0xFFFF_FFFF then n else 0xFFFF_FFFF
  }

  /** Within a millisecond an effect counts at least one more than its cause. */
  lemma CauseCounts(boot: Boot, run: seq<Step>, i: nat, j: nat)
    requires WellFormed(run) && j < |run| && Causes(run, i, j)
    requires ClockOf(boot, run, i).wallMs == ClockOf(boot, run, j).wallMs
    ensures ClockOf(boot, run, j).counter >= Capped(ClockOf(boot, run, i).counter + 1)
  {
    StoredNeverRegresses(boot, run, j, run[j].peer);
  }

  lemma ChainShrinks(boot: Boot, run: seq<Step>, chain: seq<nat>, k: nat)
    requires WellFormed(run) && k < |run| && Chain(boot, run, chain, k) && |chain| > 1
    ensures var n := |chain| - 1;
      chain[n - 1] < k && Causes(run, chain[n - 1], k) && Chain(boot, run, chain[..n], chain[n - 1])
  {
    var n := |chain| - 1;
    assert Causes(run, chain[n - 1], chain[n - 1 + 1]);
  }

  lemma {:induction false} CountsEveryChain(boot: Boot, run: seq<Step>, chain: seq<nat>, k: nat)
    requires WellFormed(run) && k < |run| && Chain(boot, run, chain, k)
    ensures ClockOf(boot, run, k).counter >= Capped(|chain|)
    decreases |chain|
  {
    var n := |chain| - 1;
    if n > 0 {
      ChainShrinks(boot, run, chain, k);
      CountsEveryChain(boot, run, chain[..n], chain[n - 1]);
      CauseCounts(boot, run, chain[n - 1], k);
    }
  }

  /** The step whose clock this one counts on from, or `k` itself when its clock
      starts a new millisecond. */
  lemma CountedOn(boot: Boot, run: seq<Step>, k: nat) returns (m: nat)
    requires WellFormed(run) && k < |run|
    ensures m == k ==> ClockOf(boot, run, k).counter == 1
    ensures m != k ==>
      && m < k && Causes(run, m, k) && ClockOf(boot, run, m).wallMs == ClockOf(boot, run, k).wallMs
      && ClockOf(boot, run, k).counter == Capped(ClockOf(boot, run, m).counter + 1)
  {
    if Less(StoredAfter(boot, run, k, run[k].peer), Incoming(boot, run, k)) {
      m := if run[k].Receive? then run[k].source else k;
    } else {
      m := StoredBy(boot, run, k, run[k].peer);
    }
  }

  lemma {:induction false} SomeChainCounts(boot: Boot, run: seq<Step>, k: nat) returns (chain: seq<nat>)
    requires WellFormed(run) && k < |run|
    ensures Chain(boot, run, chain, k) && ClockOf(boot, run, k).counter == Capped(|chain|)
    decreases k
  {
    var m := CountedOn(boot, run, k);
    if m == k {
      chain := [k];
    } else {
      var earlier := SomeChainCounts(boot, run, m);
      chain := earlier + [k];
    }
  }

  /** The counter counts the events of its millisecond: it is the length of the longest
      causal chain of steps, all with this wall part, that ends here, as far as 32 bits
      can count. */
  lemma CounterIsLongestChain(boot: Boot, run: seq<Step>, k: nat)
    requires WellFormed(run) && k < |run|
    ensures exists chain :: Chain(boot, run, chain, k) && ClockOf(boot, run, k).counter == Capped(|chain|)
    ensures forall chain :: Chain(boot, run, chain, k) ==> Capped(|chain|) <= ClockOf(boot, run, k).counter
  {
    var longest := SomeChainCounts(boot, run, k);
    forall chain | Chain(boot, run, chain, k) ensures Capped(|chain|) <= ClockOf(boot, run, k).counter {
      CountsEveryChain(boot, run, chain, k);
    }
  }

  /** It starts again exactly when the wall part moves on from that of every cause. */
  lemma CounterRestarts(boot: Boot, run: seq<Step>, k: nat)
    requires WellFormed(run) && k < |run|
    ensures ClockOf(boot, run, k).counter == 1 <==>
              forall i :: 0 <= i < k && Causes(run, i, k) ==> ClockOf(boot, run, i).wallMs != ClockOf(boot, run, k).wallMs
  {
    forall i | 0 <= i < k && Causes(run, i, k) && ClockOf(boot, run, i).wallMs == ClockOf(boot, run, k).wallMs
      ensures ClockOf(boot, run, k).counter > 1
    {
      CauseCounts(boot, run, i, k);
    }
    var m := CountedOn(boot, run, k);
  }
}
