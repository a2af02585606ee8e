/** The router's index of the mesh, and its relation to the gossip it was built
    from. */
module Routing {
  import opened Common
  import opened Loads

  /** A monotonic instant, in nanoseconds. */
  type Instant = nat

  datatype PeerState = PeerState(load: F64, lastSeen: Instant, models: seq<string>)

  type Index = map<PeerId, PeerState>

  /** A gossip event with the instant it was recorded. */
  datatype Event =
    | Announce(peer: PeerId, model: string, at: Instant)
    | Heartbeat(peer: PeerId, load: F64, at: Instant)

  function Announced(local: PeerId, state: Index, peer: PeerId, model: string, now: Instant): Index {
    if peer == local then state else
    var entry := if peer in state then state[peer] else PeerState(UNKNOWN, now, []);
    var models := if model in entry.models then entry.models else entry.models + [model];
    state[peer := PeerState(entry.load, now, models)]
  }

  function Beaten(local: PeerId, state: Index, peer: PeerId, load: F64, now: Instant): Index {
    if peer == local then state else
    var entry := if peer in state then state[peer] else PeerState(load, now, []);
    state[peer := PeerState(load, now, entry.models)]
  }

  function Recorded(local: PeerId, state: Index, e: Event): Index {
    match e
    case Announce(peer, model, at) => Announced(local, state, peer, model, at)
    case Heartbeat(peer, load, at) => Beaten(local, state, peer, load, at)
  }

  /** The index after a log of events. */
  function IndexOf(local: PeerId, log: seq<Event>): Index {
    if log == [] then map[] else Recorded(local, IndexOf(local, log[..|log| - 1]), log[|log| - 1])
  }

  // ----- What a log says, event by event -----

  ghost predicate Heard(log: seq<Event>, p: PeerId) {
    exists i :: 0 <= i < |log| && log[i].peer == p
  }

  ghost predicate Offers(log: seq<Event>, p: PeerId, model: string) {
    exists i :: 0 <= i < |log| && log[i].Announce? && log[i].peer == p && log[i].model == model
  }

  /** Event `i` is the latest of peer `p`. */
  ghost predicate Latest(log: seq<Event>, p: PeerId, i: int) {
    0 <= i < |log| && log[i].peer == p && forall j :: i < j < |log| ==> log[j].peer != p
  }

  ghost predicate LatestBeat(log: seq<Event>, p: PeerId, i: int) {
    && 0 <= i < |log| && log[i].Heartbeat? && log[i].peer == p
    && forall j :: i < j < |log| && log[j].Heartbeat? ==> log[j].peer != p
  }

  /** `load` is the load of the latest heartbeat of `p`, or unknown without one. */
  ghost predicate CurrentLoad(log: seq<Event>, p: PeerId, load: F64) {
    || (exists i :: LatestBeat(log, p, i) && log[i].load == load)
    || (load == UNKNOWN && forall i :: 0 <= i < |log| && log[i].Heartbeat? ==> log[i].peer != p)
  }

  ghost predicate LastHeard(log: seq<Event>, p: PeerId, at: Instant) {
    exists i :: Latest(log, p, i) && log[i].at == at
  }

  ghost predicate Distinct<T>(s: seq<T>) {
    forall i, j :: 0 <= i < j < |s| ==> s[i] != s[j]
  }

  /** The index entry of a peer holds what the log says of it. */
  ghost predicate Describes(log: seq<Event>, p: PeerId, entry: PeerState) {
    && CurrentLoad(log, p, entry.load)
    && LastHeard(log, p, entry.lastSeen)
    && Distinct(entry.models)
    && (forall m :: m in entry.models <==> Offers(log, p, m))
  }

  lemma DescribesOther(log: seq<Event>, e: Event, p: PeerId, entry: PeerState)
    requires Describes(log, p, entry) && e.peer != p
    ensures Describes(log + [e], p, entry)
  {
    var longer := log + [e];
    var i :| Latest(log, p, i) && log[i].at == entry.lastSeen;
    assert Latest(longer, p, i);
    if k :| LatestBeat(log, p, k) && log[k].load == entry.load {
      assert LatestBeat(longer, p, k) && longer[k].load == entry.load;
    }
    forall m ensures Offers(longer, p, m) <==> Offers(log, p, m) {
      OffersGrows(log, e, p, m);
    }
  }

  lemma OffersGrows(log: seq<Event>, e: Event, p: PeerId, m: string)
    ensures Offers(log + [e], p, m) <==> Offers(log, p, m) || e == Announce(p, m, e.at)
  {
    var longer := log + [e];
    if Offers(log, p, m) {
      var i :| 0 <= i < |log| && log[i].Announce? && log[i].peer == p && log[i].model == m;
      assert longer[i] == log[i];
    }
    assert longer[|log|] == e;
  }

  lemma DescribesAnnounce(log: seq<Event>, p: PeerId, entry: PeerState, model: string, at: Instant)
    requires Describes(log, p, entry) || (!Heard(log, p) && entry.load == UNKNOWN && entry.models == [])
    ensures var models := if model in entry.models then entry.models else entry.models + [model];
      Describes(log + [Announce(p, model, at)], p, PeerState(entry.load, at, models))
  {
    var e := Announce(p, model, at);
    var longer := log + [e];
    assert longer[|log|] == e && Latest(longer, p, |log|);
    if k :| LatestBeat(log, p, k) && log[k].load == entry.load {
      assert LatestBeat(longer, p, k) && longer[k].load == entry.load;
    }
    forall m ensures Offers(longer, p, m) <==> m in entry.models || m == model {
      OffersGrows(log, e, p, m);
    }
  }

  lemma DescribesBeat(log: seq<Event>, p: PeerId, entry: PeerState, load: F64, at: Instant)
    requires Describes(log, p, entry) || (!Heard(log, p) && entry.models == [])
    ensures Describes(log + [Heartbeat(p, load, at)], p, PeerState(load, at, entry.models))
  {
    var e := Heartbeat(p, load, at);
    var longer := log + [e];
    assert longer[|log|] == e && Latest(longer, p, |log|);
    assert LatestBeat(longer, p, |log|);
    forall m ensures Offers(longer, p, m) <==> m in entry.models {
      OffersGrows(log, e, p, m);
    }
  }

  /** The index refines the log: after any events, exactly the peers heard from,
      other than the local one, have an entry, and it describes them. */
  lemma {:induction false} IndexRefinesLog(local: PeerId, log: seq<Event>, p: PeerId)
    ensures p in IndexOf(local, log) <==> p != local && Heard(log, p)
    ensures p in IndexOf(local, log) ==> Describes(log, p, IndexOf(local, log)[p])
    decreases |log|
  {
    if log != [] {
      var n := |log| - 1;
      var earlier, e := log[..n], log[n];
      var before := IndexOf(local, earlier);
      IndexRefinesLog(local, earlier, p);
      assert log == earlier + [e];
      assert Heard(log, p) <==> Heard(earlier, p) || e.peer == p by {
        if i :| 0 <= i < |earlier| && earlier[i].peer == p {
          assert log[i].peer == p;
        }
        assert log[n] == e;
      }
      if p != local {
        if e.peer != p {
          if p in before {
            DescribesOther(earlier, e, p, before[p]);
          }
        } else if e.Announce? {
          var entry := if p in before then before[p] else PeerState(UNKNOWN, e.at, []);
          DescribesAnnounce(earlier, p, entry, e.model, e.at);
        } else {
          var entry := if p in before then before[p] else PeerState(e.load, e.at, []);
          DescribesBeat(earlier, p, entry, e.load, e.at);
        }
      }
    }
  }

  // ----- Interleaving -----

  /** The events of one peer, in order. */
  function Project(log: seq<Event>, p: PeerId): seq<Event> {
    if log == [] then [] else
    var earlier := Project(log[..|log| - 1], p);
    if log[|log| - 1].peer == p then earlier + [log[|log| - 1]] else earlier
  }

  lemma {:induction false} EntryFromProjection(local: PeerId, log: seq<Event>, p: PeerId)
    ensures p in IndexOf(local, log) <==> p in IndexOf(local, Project(log, p))
    ensures p in IndexOf(local, log) ==> IndexOf(local, log)[p] == IndexOf(local, Project(log, p))[p]
    decreases |log|
  {
    if log != [] {
      var n := |log| - 1;
      EntryFromProjection(local, log[..n], p);
      if log[n].peer == p {
        var own := Project(log, p);
        assert own[..|own| - 1] == Project(log[..n], p);
      }
    }
  }

  /** Logs that agree peer by peer, however they interleave peers, give one index. */
  lemma InterleavingIsIrrelevant(local: PeerId, a: seq<Event>, b: seq<Event>)
    requires forall p :: Project(a, p) == Project(b, p)
    ensures IndexOf(local, a) == IndexOf(local, b)
  {
    forall p: PeerId
      ensures p in IndexOf(local, a) <==> p in IndexOf(local, b)
      ensures p in IndexOf(local, a) ==> IndexOf(local, a)[p] == IndexOf(local, b)[p]
    {
      EntryFromProjection(local, a, p);
      EntryFromProjection(local, b, p);
    }
  }

  /** Two routers with one log agree on every peer but themselves. */
  lemma {:induction false} ViewsAgree(one: PeerId, other: PeerId, log: seq<Event>, p: PeerId)
    requires p != one && p != other
    ensures p in IndexOf(one, log) <==> p in IndexOf(other, log)
    ensures p in IndexOf(one, log) ==> IndexOf(one, log)[p] == IndexOf(other, log)[p]
    decreases |log|
  {
    if log != [] {
      ViewsAgree(one, other, log[..|log| - 1], p);
    }
  }
}
