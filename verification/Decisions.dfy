/** The router: recording gossip, and deciding where one request goes. */
module Decisions {
  import opened Common
  import opened Loads
  import opened Routing

  type U8 = x: nat | x < 256

  const NANOS_PER_SEC: nat := 1_000_000_000

  datatype MeshConfig = MeshConfig(peerDeadAfterSecs: nat, maxHops: U8)

  datatype Decision = Local | Forward(to: PeerId)

  datatype RoutingError = NoSuchModel(model: string) | HopBudget(maxHops: U8)

  type Routed = Result<Decision, RoutingError>

  /** Heard from within the dead window. An instant in the future counts as now. */
  predicate Live(cfg: MeshConfig, entry: PeerState, now: Instant) {
    (if now < entry.lastSeen then 0 else now - entry.lastSeen) < cfg.peerDeadAfterSecs * NANOS_PER_SEC
  }

  /** A request for a model, as one router sees it. */
  datatype Request = Request(model: string, localHas: bool, hops: U8, now: Instant)

  predicate Serves(cfg: MeshConfig, state: Index, q: Request, p: PeerId) {
    p in state && Live(cfg, state[p], q.now) && q.model in state[p].models
  }

  function Ranked(state: Index, p: PeerId): Candidate
    requires p in state
  {
    Candidate(p, state[p].load)
  }

  ghost function ServingLoads(cfg: MeshConfig, state: Index, q: Request): set<F64> {
    set p | p in state && Serves(cfg, state, q, p) :: state[p].load
  }

  /** `to` ranks before every other peer that serves the request. */
  ghost predicate RanksFirst(cfg: MeshConfig, state: Index, q: Request, to: PeerId) {
    && Serves(cfg, state, q, to)
    && forall p :: Serves(cfg, state, q, p) && p != to ==> Precedes(Ranked(state, to), Ranked(state, p))
  }

  /** What a router may answer. Only with incoherent loads is there any freedom:
      the sort then has no order to follow. */
  ghost predicate Decides(cfg: MeshConfig, state: Index, q: Request, r: Routed) {
    if q.localHas then r == Ok(Local)
    else if q.hops >= cfg.maxHops then r == Err(HopBudget(cfg.maxHops))
    else if forall p :: !Serves(cfg, state, q, p) then r == Err(NoSuchModel(q.model))
    else
      && r.Ok? && r.value.Forward? && Serves(cfg, state, q, r.value.to)
      && (Coherent(ServingLoads(cfg, state, q)) ==> RanksFirst(cfg, state, q, r.value.to))
  }

  /** No element comes after one it precedes. */
  ghost predicate Ordered(s: seq<Candidate>) {
    forall i, j :: 0 <= i < j < |s| ==> !Precedes(s[j], s[i])
  }

  ghost function LoadsIn(s: seq<Candidate>): set<F64> {
    set c | c in s :: c.load
  }

  /** Insert `c` after everything it does not precede, from the back. */
  function Place(s: seq<Candidate>, c: Candidate): (r: seq<Candidate>)
    ensures multiset(r) == multiset(s) + multiset{c}
  {
    if s == [] || !Precedes(c, s[|s| - 1]) then s + [c]
    else
      assert s == s[..|s| - 1] + [s[|s| - 1]];
      Place(s[..|s| - 1], c) + [s[|s| - 1]]
  }

  /** The stable sort with the candidate comparator. */
  function Sorted(s: seq<Candidate>): (r: seq<Candidate>)
    ensures multiset(r) == multiset(s)
  {
    if s == [] then [] else
    assert s == s[..|s| - 1] + [s[|s| - 1]];
    Place(Sorted(s[..|s| - 1]), s[|s| - 1])
  }

  lemma SameMembers(a: seq<Candidate>, b: seq<Candidate>)
    requires multiset(a) == multiset(b)
    ensures |a| == |b| && forall c :: c in a <==> c in b
  {
    assert |multiset(a)| == |a| && |multiset(b)| == |b|;
    assert forall c :: (c in a <==> c in multiset(a)) && (c in b <==> c in multiset(b));
  }

  lemma {:induction false} PlaceKeepsOrder(s: seq<Candidate>, c: Candidate)
    requires Ordered(s) && Coherent(LoadsIn(s + [c]))
    ensures Ordered(Place(s, c))
  {
    if s != [] {
      var last, front := s[|s| - 1], s[..|s| - 1];
      if Precedes(c, last) {
        assert LoadsIn(front + [c]) <= LoadsIn(s + [c]);
        PlaceKeepsOrder(front, c);
        forall i | 0 <= i < |Place(front, c)| ensures !Precedes(last, Place(front, c)[i]) {
          PlacedFrom(front, c, i);
          PrecedesIsAsymmetric(c, last);
        }
      } else {
        forall i | 0 <= i < |s| ensures !Precedes(c, s[i]) {
          if i < |s| - 1 && Precedes(c, s[i]) {
            NotBefore(c, s[i], last, s + [c]);
          }
        }
      }
    }
  }

  /** When `c` precedes an element, it precedes every element that does not precede
      that one. */
  lemma NotBefore(c: Candidate, earlier: Candidate, later: Candidate, all: seq<Candidate>)
    requires c in all && earlier in all && later in all && Coherent(LoadsIn(all))
    requires Precedes(c, earlier) && !Precedes(later, earlier)
    ensures Precedes(c, later)
  {
    assert {c.load, earlier.load, later.load} <= LoadsIn(all);
    PrecedesIsAsymmetric(earlier, later);
    PrecedesIsAsymmetric(c, later);
    if earlier != later && Precedes(earlier, later) {
      PrecedesIsTransitive(c, earlier, later);
    } else {
      SameRank(c, earlier, later);
    }
  }

  lemma SameRank(c: Candidate, a: Candidate, b: Candidate)
    requires !Precedes(a, b) && !Precedes(b, a) && Precedes(c, a)
    requires Coherent({c.load, a.load, b.load})
    ensures Precedes(c, b)
  {
    PrecedesIsAsymmetric(a, b);
  }

  lemma PlacedFrom(s: seq<Candidate>, c: Candidate, i: nat)
    requires i < |Place(s, c)|
    ensures Place(s, c)[i] == c || Place(s, c)[i] in s
  {
    assert Place(s, c)[i] in multiset(Place(s, c));
  }

  lemma {:induction false} SortedIsOrdered(s: seq<Candidate>)
    requires Coherent(LoadsIn(s))
    ensures Ordered(Sorted(s))
  {
    if s != [] {
      var last, front := s[|s| - 1], s[..|s| - 1];
      assert LoadsIn(front) <= LoadsIn(s);
      SortedIsOrdered(front);
      SameMembers(Sorted(front), front);
      assert LoadsIn(Sorted(front) + [last]) <= LoadsIn(s);
      PlaceKeepsOrder(Sorted(front), last);
    }
  }

  /** The candidate list: one entry per serving peer, in the order the map yields
      them. */
  ghost predicate Lists(cfg: MeshConfig, state: Index, q: Request, seen: set<PeerId>, s: seq<Candidate>) {
    && (forall c :: c in s ==> c.peer in seen && Serves(cfg, state, q, c.peer) && c == Ranked(state, c.peer))
    && (forall p :: p in seen && Serves(cfg, state, q, p) ==> Ranked(state, p) in s)
  }

  /** The head of the sorted list is a right answer. */
  lemma HeadDecides(cfg: MeshConfig, state: Index, q: Request, s: seq<Candidate>)
    requires Lists(cfg, state, q, state.Keys, s)
    requires !q.localHas && q.hops < cfg.maxHops
    ensures s == [] ==> Decides(cfg, state, q, Err(NoSuchModel(q.model)))
    ensures s != [] ==> Sorted(s) != [] && Decides(cfg, state, q, Ok(Forward(Sorted(s)[0].peer)))
  {
    SameMembers(Sorted(s), s);
    if s == [] {
      forall p ensures !Serves(cfg, state, q, p) {
      }
    } else {
      var head := Sorted(s)[0];
      assert head in s;
      if Coherent(ServingLoads(cfg, state, q)) {
        assert LoadsIn(s) <= ServingLoads(cfg, state, q);
        SortedIsOrdered(s);
        forall p | Serves(cfg, state, q, p) && p != head.peer ensures Precedes(head, Ranked(state, p)) {
          assert Ranked(state, p) in Sorted(s);
          var i :| 0 <= i < |Sorted(s)| && Sorted(s)[i] == Ranked(state, p);
          PrecedesIsAsymmetric(head, Ranked(state, p));
        }
      }
    }
  }

  lemma {:induction false} SomeList(cfg: MeshConfig, state: Index, q: Request, keys: set<PeerId>) returns (s: seq<Candidate>)
    requires keys <= state.Keys
    ensures Lists(cfg, state, q, keys, s)
    decreases keys
  {
    if keys == {} {
      s := [];
    } else {
      var p :| p in keys;
      s := SomeList(cfg, state, q, keys - {p});
      if Serves(cfg, state, q, p) {
        s := s + [Ranked(state, p)];
      }
    }
  }

  /** Every request has an answer. */
  lemma SomeDecision(cfg: MeshConfig, state: Index, q: Request) returns (r: Routed)
    ensures Decides(cfg, state, q, r)
  {
    if q.localHas {
      r := Ok(Local);
    } else if q.hops >= cfg.maxHops {
      r := Err(HopBudget(cfg.maxHops));
    } else {
      var s := SomeList(cfg, state, q, state.Keys);
      HeadDecides(cfg, state, q, s);
      r := if s == [] then Err(NoSuchModel(q.model)) else Ok(Forward(Sorted(s)[0].peer));
    }
  }

  /** On the numbers: the load `a` is smaller, with the infinities at the ends, or the
      loads are the same and `p` has the smaller key. */
  ghost predicate Ahead(p: PeerId, a: F64, other: PeerId, b: F64) {
    || (a.Finite? && b.Finite? && a.value < b.value)
    || (a == NegInf && b != NegInf)
    || (a != PosInf && b == PosInf)
    || (a == b && Before(p, other))
  }

  class Router {
    const cfg: MeshConfig
    const local: PeerId
    var state: Index

    constructor (local: PeerId, cfg: MeshConfig)
      ensures this.local == local && this.cfg == cfg && state == IndexOf(local, [])
    {
      this.local, this.cfg, this.state := local, cfg, map[];
    }

    method RecordAnnounce(peer: PeerId, model: string, now: Instant)
      modifies this`state
      ensures state == Recorded(local, old(state), Announce(peer, model, now))
      ensures forall log :: old(state) == IndexOf(local, log) ==> state == IndexOf(local, log + [Announce(peer, model, now)])
    {
      if peer != local {
        var entry := if peer in state then state[peer] else PeerState(UNKNOWN, now, []);
        if model !in entry.models {
          entry := entry.(models := entry.models + [model]);
        }
        state := state[peer := entry.(lastSeen := now)];
      }
      IndexGrows(local, old(state), state, Announce(peer, model, now));
    }

    method RecordHeartbeat(peer: PeerId, load: F64, now: Instant)
      modifies this`state
      ensures state == Recorded(local, old(state), Heartbeat(peer, load, now))
      ensures forall log :: old(state) == IndexOf(local, log) ==> state == IndexOf(local, log + [Heartbeat(peer, load, now)])
    {
      if peer != local {
        var entry := if peer in state then state[peer] else PeerState(load, now, []);
        state := state[peer := entry.(load := load, lastSeen := now)];
      }
      IndexGrows(local, old(state), state, Heartbeat(peer, load, now));
    }

    /** `route`. The map may yield its entries in any order. */
    method Route(q: Request) returns (r: Routed)
      ensures Decides(cfg, state, q, r)
      ensures r == Ok(Local) <==> q.localHas
      ensures r == Err(HopBudget(cfg.maxHops)) <==> !q.localHas && q.hops >= cfg.maxHops
      ensures r == Err(NoSuchModel(q.model)) <==>
                !q.localHas && q.hops < cfg.maxHops && forall p :: !Serves(cfg, state, q, p)
      ensures r.Ok? && r.value.Forward? ==> r.value.to in state
      ensures r.Ok? && r.value.Forward? && (forall p :: Serves(cfg, state, q, p) ==> state[p].load != NaN) ==>
                forall p :: Serves(cfg, state, q, p) && p != r.value.to ==>
                  Ahead(r.value.to, state[r.value.to].load, p, state[p].load)
    {
      if q.localHas {
        return Ok(Local);
      }
      if q.hops >= cfg.maxHops {
        return Err(HopBudget(cfg.maxHops));
      }
      var candidates: seq<Candidate> := [];
      var rest := state.Keys;
      while rest != {}
        invariant rest <= state.Keys
        invariant Lists(cfg, state, q, state.Keys - rest, candidates)
        decreases rest
      {
        var p :| p in rest;
        if Live(cfg, state[p], q.now) && q.model in state[p].models {
          candidates := candidates + [Candidate(p, state[p].load)];
        }
        rest := rest - {p};
      }
      assert state.Keys - {} == state.Keys;
      HeadDecides(cfg, state, q, candidates);
      if candidates == [] {
        return Err(NoSuchModel(q.model));
      }
      r := Ok(Forward(Sorted(candidates)[0].peer));
      LeastLoadAnswers(cfg, state, q, r.value.to);
    }
  }

  /** The choice on the numbers. */
  lemma LeastLoadAnswers(cfg: MeshConfig, state: Index, q: Request, to: PeerId)
    requires Decides(cfg, state, q, Ok(Forward(to)))
    ensures to in state
    ensures (forall p :: Serves(cfg, state, q, p) ==> state[p].load != NaN) ==>
      forall p :: Serves(cfg, state, q, p) && p != to ==> Ahead(to, state[to].load, p, state[p].load)
  {
    if forall p :: Serves(cfg, state, q, p) ==> state[p].load != NaN {
      assert Coherent(ServingLoads(cfg, state, q));
      forall p | Serves(cfg, state, q, p) && p != to
        ensures Ahead(to, state[to].load, p, state[p].load)
      {
        PlacedByLoad(Ranked(state, to), Ranked(state, p));
      }
    }
  }

  lemma IndexGrows(local: PeerId, before: Index, after: Index, e: Event)
    requires after == Recorded(local, before, e)
    ensures forall log :: before == IndexOf(local, log) ==> after == IndexOf(local, log + [e])
  {
    forall log | before == IndexOf(local, log) ensures after == IndexOf(local, log + [e]) {
      assert (log + [e])[..|log|] == log;
    }
  }

  /** With coherent loads the answer does not depend on the order of the map. */
  lemma DecisionIsUnique(cfg: MeshConfig, state: Index, q: Request, r: Routed, r': Routed)
    requires Decides(cfg, state, q, r) && Decides(cfg, state, q, r') && Coherent(ServingLoads(cfg, state, q))
    ensures r == r'
  {
    if r.Ok? && r.value.Forward? && r'.Ok? && r'.value.Forward? && r != r' {
      PrecedesIsAsymmetric(Ranked(state, r.value.to), Ranked(state, r'.value.to));
    }
  }

  // ----- Decisions in terms of the gossip log -----

  /** Peer `p` announced the model, was last heard within the window, and is not the
      local peer. */
  ghost predicate Eligible(cfg: MeshConfig, local: PeerId, log: seq<Event>, q: Request, p: PeerId) {
    && p != local && Offers(log, p, q.model)
    && exists i :: Latest(log, p, i) && InWindow(cfg, log[i].at, q.now)
  }

  /** Heard less than the dead window ago; a window of zero admits nobody. */
  ghost predicate InWindow(cfg: MeshConfig, at: Instant, now: Instant) {
    var window := cfg.peerDeadAfterSecs * 1_000_000_000;
    0 < window && now < at + window
  }

  /** The load the log gives a peer orders it before another. */
  ghost predicate Outranks(log: seq<Event>, p: PeerId, other: PeerId) {
    forall a, b :: CurrentLoad(log, p, a) && CurrentLoad(log, other, b)
      ==> Precedes(Candidate(p, a), Candidate(other, b))
  }

  lemma LatestIsUnique(log: seq<Event>, p: PeerId, i: int, j: int)
    requires Latest(log, p, i) && Latest(log, p, j)
    ensures i == j
  {
  }

  lemma LoadIsUnique(log: seq<Event>, p: PeerId, a: F64, b: F64)
    requires CurrentLoad(log, p, a) && CurrentLoad(log, p, b)
    ensures a == b
  {
  }

  lemma ServesMeansEligible(cfg: MeshConfig, local: PeerId, log: seq<Event>, q: Request, p: PeerId)
    ensures Serves(cfg, IndexOf(local, log), q, p) <==> Eligible(cfg, local, log, q, p)
  {
    var index := IndexOf(local, log);
    IndexRefinesLog(local, log, p);
    if p in index {
      var i :| Latest(log, p, i) && log[i].at == index[p].lastSeen;
      forall j | Latest(log, p, j) ensures j == i {
        LatestIsUnique(log, p, i, j);
      }
    } else if Offers(log, p, q.model) {
      assert Heard(log, p);
    }
  }

  /** Among the peers eligible now, no current load is NaN, or no two others differ.
      Superseded heartbeats and those of other peers do not matter. */
  ghost predicate CoherentNow(cfg: MeshConfig, local: PeerId, log: seq<Event>, q: Request) {
    || (forall p, a :: Eligible(cfg, local, log, q, p) && CurrentLoad(log, p, a) ==> !a.NaN?)
    || (forall p, p', a, b ::
          && Eligible(cfg, local, log, q, p) && CurrentLoad(log, p, a) && !a.NaN?
          && Eligible(cfg, local, log, q, p') && CurrentLoad(log, p', b) && !b.NaN?
          ==> a == b)
  }

  /** That is coherence of the loads in the index. */
  lemma CoherenceInLog(cfg: MeshConfig, local: PeerId, log: seq<Event>, q: Request)
    ensures CoherentNow(cfg, local, log, q) <==> Coherent(ServingLoads(cfg, IndexOf(local, log), q))
  {
    var index := IndexOf(local, log);
    var loads := ServingLoads(cfg, index, q);
    forall p ensures Serves(cfg, index, q, p) <==> Eligible(cfg, local, log, q, p) {
      ServesMeansEligible(cfg, local, log, q, p);
    }
    forall p, a | Eligible(cfg, local, log, q, p) && CurrentLoad(log, p, a)
      ensures p in index && a == index[p].load && a in loads
    {
      EligibleLoad(cfg, local, log, q, p, a);
    }
    forall a | a in loads ensures exists p :: Eligible(cfg, local, log, q, p) && CurrentLoad(log, p, a) {
      var p :| p in index && Serves(cfg, index, q, p) && index[p].load == a;
      IndexRefinesLog(local, log, p);
      assert CurrentLoad(log, p, a);
    }
  }

  lemma EligibleLoad(cfg: MeshConfig, local: PeerId, log: seq<Event>, q: Request, p: PeerId, a: F64)
    requires Eligible(cfg, local, log, q, p) && CurrentLoad(log, p, a)
    ensures p in IndexOf(local, log) && a == IndexOf(local, log)[p].load
    ensures a in ServingLoads(cfg, IndexOf(local, log), q)
  {
    ServesMeansEligible(cfg, local, log, q, p);
    IndexRefinesLog(local, log, p);
    LoadIsUnique(log, p, a, IndexOf(local, log)[p].load);
  }

  /** The decision refines the log. With coherent loads, for every order of the map:
      the router forwards to `to` if and only if `to` is eligible and outranks every
      other eligible peer, and reports no such model if and only if none is. */
  lemma DecisionRefinesLog(cfg: MeshConfig, local: PeerId, log: seq<Event>, q: Request, r: Routed, to: PeerId)
    requires CoherentNow(cfg, local, log, q)
    requires Decides(cfg, IndexOf(local, log), q, r) && !q.localHas && q.hops < cfg.maxHops
    ensures r == Err(NoSuchModel(q.model)) <==> forall p :: !Eligible(cfg, local, log, q, p)
    ensures r == Ok(Forward(to)) <==>
      && Eligible(cfg, local, log, q, to)
      && forall p :: Eligible(cfg, local, log, q, p) && p != to ==> Outranks(log, to, p)
  {
    var index := IndexOf(local, log);
    CoherenceInLog(cfg, local, log, q);
    forall p ensures Serves(cfg, index, q, p) <==> Eligible(cfg, local, log, q, p) {
      ServesMeansEligible(cfg, local, log, q, p);
    }
    forall p, other | p in index && other in index
      ensures Outranks(log, p, other) <==> Precedes(Ranked(index, p), Ranked(index, other))
    {
      RanksAgree(local, log, p, other);
    }
    if RanksFirst(cfg, index, q, to) {
      DecisionIsUnique(cfg, index, q, r, Ok(Forward(to)));
    }
  }

  lemma RanksAgree(local: PeerId, log: seq<Event>, p: PeerId, other: PeerId)
    requires p in IndexOf(local, log) && other in IndexOf(local, log)
    ensures Outranks(log, p, other)
            <==> Precedes(Ranked(IndexOf(local, log), p), Ranked(IndexOf(local, log), other))
  {
    var index := IndexOf(local, log);
    IndexRefinesLog(local, log, p);
    IndexRefinesLog(local, log, other);
    forall a, b | CurrentLoad(log, p, a) && CurrentLoad(log, other, b)
      ensures a == index[p].load && b == index[other].load
    {
      LoadIsUnique(log, p, a, index[p].load);
      LoadIsUnique(log, other, b, index[other].load);
    }
  }

  lemma PlacedByLoad(a: Candidate, b: Candidate)
    requires !a.load.NaN? && !b.load.NaN?
    ensures Precedes(a, b) <==> Ahead(a.peer, a.load, b.peer, b.load)
  {
    LighterExactly(a.load, b.load);
  }

  /** The log gives the peer no load that is not a number. */
  ghost predicate NumberNow(log: seq<Event>, p: PeerId) {
    forall a :: CurrentLoad(log, p, a) ==> !a.NaN?
  }

  ghost predicate BetterPlaced(log: seq<Event>, p: PeerId, other: PeerId) {
    forall a, b :: CurrentLoad(log, p, a) && CurrentLoad(log, other, b) ==> Ahead(p, a, other, b)
  }

  lemma RankIsPlace(log: seq<Event>, p: PeerId, other: PeerId)
    requires NumberNow(log, p) && NumberNow(log, other)
    ensures Outranks(log, p, other) <==> BetterPlaced(log, p, other)
  {
    forall a, b | CurrentLoad(log, p, a) && CurrentLoad(log, other, b)
      ensures Precedes(Candidate(p, a), Candidate(other, b)) <==> Ahead(p, a, other, b)
    {
      PlacedByLoad(Candidate(p, a), Candidate(other, b));
    }
  }

  lemma NumbersAreCoherent(cfg: MeshConfig, local: PeerId, log: seq<Event>, q: Request)
    requires forall p :: Eligible(cfg, local, log, q, p) ==> NumberNow(log, p)
    ensures CoherentNow(cfg, local, log, q)
  {
  }

  /** As documented: while no eligible peer's current load is NaN, the request goes to
      the least loaded eligible peer, ties broken by key. */
  lemma LeastLoadedIsChosen(cfg: MeshConfig, local: PeerId, log: seq<Event>, q: Request, r: Routed, to: PeerId)
    requires forall p :: Eligible(cfg, local, log, q, p) ==> NumberNow(log, p)
    requires Decides(cfg, IndexOf(local, log), q, r) && !q.localHas && q.hops < cfg.maxHops
    ensures r == Ok(Forward(to)) <==>
      && Eligible(cfg, local, log, q, to)
      && forall p :: Eligible(cfg, local, log, q, p) && p != to ==> BetterPlaced(log, to, p)
  {
    NumbersAreCoherent(cfg, local, log, q);
    DecisionRefinesLog(cfg, local, log, q, r, to);
    if Eligible(cfg, local, log, q, to) {
      forall p | Eligible(cfg, local, log, q, p) && p != to
        ensures Outranks(log, to, p) <==> BetterPlaced(log, to, p)
      {
        RankIsPlace(log, to, p);
      }
    }
  }

  lemma AheadOf(log: seq<Event>, p: PeerId, other: PeerId, a: F64, b: F64)
    requires BetterPlaced(log, p, other) && CurrentLoad(log, p, a) && CurrentLoad(log, other, b)
    ensures Ahead(p, a, other, b)
  {
  }

  lemma ChosenIsAhead(cfg: MeshConfig, local: PeerId, log: seq<Event>, q: Request, to: PeerId, p: PeerId)
    requires forall o :: Eligible(cfg, local, log, q, o) ==> NumberNow(log, o)
    requires Decides(cfg, IndexOf(local, log), q, Ok(Forward(to))) && !q.localHas && q.hops < cfg.maxHops
    requires Eligible(cfg, local, log, q, p) && p != to
    ensures BetterPlaced(log, to, p) && NumberNow(log, p)
  {
    LeastLoadedIsChosen(cfg, local, log, q, Ok(Forward(to)), to);
  }

  /** The same for the current loads of the peer chosen and of another eligible one: of
      two numbers the smaller wins, and the smaller key on a tie; minus infinity goes
      before every number, and plus infinity after it. */
  lemma SmallerNumberWins(cfg: MeshConfig, local: PeerId, log: seq<Event>, q: Request, to: PeerId, p: PeerId, a: F64, b: F64)
    requires forall o :: Eligible(cfg, local, log, q, o) ==> NumberNow(log, o)
    requires Decides(cfg, IndexOf(local, log), q, Ok(Forward(to))) && !q.localHas && q.hops < cfg.maxHops
    requires Eligible(cfg, local, log, q, p) && p != to && CurrentLoad(log, to, a) && CurrentLoad(log, p, b)
    ensures a.Finite? && b.Finite? ==> a.value <= b.value && (a.value == b.value ==> Before(to, p))
    ensures (a.Finite? ==> b != NegInf) && (b.Finite? ==> a != PosInf)
  {
    ChosenIsAhead(cfg, local, log, q, to, p);
    AheadOf(log, to, p, a, b);
  }

  /** A peer that has sent no heartbeat is never chosen over an eligible one whose load
      is any ordinary number. */
  lemma SilentPeersComeLast(cfg: MeshConfig, local: PeerId, log: seq<Event>, q: Request, to: PeerId, p: PeerId, y: real)
    requires forall o :: Eligible(cfg, local, log, q, o) ==> NumberNow(log, o)
    requires Decides(cfg, IndexOf(local, log), q, Ok(Forward(to))) && !q.localHas && q.hops < cfg.maxHops
    requires Eligible(cfg, local, log, q, p) && p != to && CurrentLoad(log, p, Finite(y))
    requires y <= 100000000000000000000000000000000000000000000000000000000000000000000000000000000000000000000000000000000000000000000000000000000000000000000000000000000000000000000000000000000000000000000000000000000000000000000000000000000000000000000000000000000000000000000000000000000000000000000000000000000000000000000.0
    ensures exists i :: 0 <= i < |log| && log[i].Heartbeat? && log[i].peer == to
  {
    if forall i :: 0 <= i < |log| && log[i].Heartbeat? ==> log[i].peer != to {
      SmallerNumberWins(cfg, local, log, q, to, p, UNKNOWN, Finite(y));
      assert false;
    }
  }

  /** No run of the router ever forwards a request to its own peer, past the hop
      budget, or to a peer that never announced the model. */
  lemma ForwardsWisely(cfg: MeshConfig, local: PeerId, log: seq<Event>, q: Request, to: PeerId)
    requires Decides(cfg, IndexOf(local, log), q, Ok(Forward(to)))
    ensures to != local && q.hops < cfg.maxHops && Offers(log, to, q.model)
  {
    ServesMeansEligible(cfg, local, log, q, to);
  }

  /** No double fan-out. Two routers with one log and one request, neither holding
      the model, answer alike if and only if neither picks the other; each leaves
      itself out, and that is the only way they can differ. */
  lemma TwoRoutersAgree(cfg: MeshConfig, a: PeerId, b: PeerId, log: seq<Event>, q: Request, ra: Routed, rb: Routed)
    requires a != b && !q.localHas && CoherentNow(cfg, a, log, q) && CoherentNow(cfg, b, log, q)
    requires Decides(cfg, IndexOf(a, log), q, ra) && Decides(cfg, IndexOf(b, log), q, rb)
    ensures ra == rb <==> ra != Ok(Forward(b)) && rb != Ok(Forward(a))
  {
    var left, right := IndexOf(a, log), IndexOf(b, log);
    CoherenceInLog(cfg, a, log, q);
    CoherenceInLog(cfg, b, log, q);
    forall p | p != a && p != b
      ensures Serves(cfg, left, q, p) <==> Serves(cfg, right, q, p)
      ensures p in left && p in right ==> Ranked(left, p) == Ranked(right, p)
    {
      ViewsAgree(a, b, log, p);
    }
    IndexRefinesLog(a, log, a);
    IndexRefinesLog(b, log, b);
    if ra != Ok(Forward(b)) && rb != Ok(Forward(a)) && ra.Ok? && rb.Ok? && ra != rb {
      PrecedesIsAsymmetric(Ranked(left, ra.value.to), Ranked(left, rb.value.to));
    }
  }
}
