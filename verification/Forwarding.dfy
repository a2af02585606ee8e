/** A request on its way through a mesh of routers, each with its own
    configuration and its own view of the mesh at that moment. */
module Forwarding {
  import opened Common
  import opened Routing
  import opened Decisions

  /** The request at one peer: the gossip that peer has heard, whether it holds the
      model, and what its router answered. */
  datatype Visit = Visit(at: PeerId, cfg: MeshConfig, log: seq<Event>, localHas: bool, now: Instant, answer: Routed)

  /** The hop count of the offer sent on: an 8-bit increment. */
  function NextHops(hops: U8): U8 {
    (hops + 1) % 256
  }

  function AsRequest(model: string, hops: U8, v: Visit): Request {
    Request(model, v.localHas, hops, v.now)
  }

  /** Each router answers for itself, and a forwarded request turns up at the peer
      it was forwarded to, one hop further. Nothing ties the views together. */
  ghost predicate Journey(model: string, hops: U8, path: seq<Visit>)
    decreases |path|
  {
    && path != []
    && Decides(path[0].cfg, IndexOf(path[0].at, path[0].log), AsRequest(model, hops, path[0]), path[0].answer)
    && (|path| > 1 ==>
          path[0].answer == Ok(Forward(path[1].at)) && Journey(model, NextHops(hops), path[1..]))
  }

  predicate Forwards(v: Visit) {
    v.answer.Ok? && v.answer.value.Forward?
  }

  lemma ForwardIsWithinBudget(model: string, hops: U8, path: seq<Visit>)
    requires Journey(model, hops, path) && Forwards(path[0])
    ensures hops < path[0].cfg.maxHops && NextHops(hops) == hops + 1
    ensures path[0].answer.value.to != path[0].at
    ensures Offers(path[0].log, path[0].answer.value.to, model)
  {
    var v := path[0];
    assert Decides(v.cfg, IndexOf(v.at, v.log), AsRequest(model, hops, v), v.answer);
    ForwardsWisely(v.cfg, v.at, v.log, AsRequest(model, hops, v), v.answer.value.to);
  }

  /** Every forward on the way is within the budget of the router that makes it, and
      goes to another peer. */
  lemma {:induction false} ForwardsAreWise(model: string, hops: U8, path: seq<Visit>, i: nat)
    requires Journey(model, hops, path) && i < |path| && (i < |path| - 1 || Forwards(path[i]))
    ensures hops + i < path[i].cfg.maxHops
    ensures i < |path| - 1 ==> path[i + 1].at != path[i].at
    decreases i
  {
    if i == 0 {
      ForwardIsWithinBudget(model, hops, path);
    } else {
      ForwardIsWithinBudget(model, hops, path);
      ForwardsAreWise(model, hops + 1, path[1..], i - 1);
    }
  }

  /** Hop budget. If no router on the way allows more than `budget` hops, a request
      that starts with `hops` is forwarded at most `budget - hops` times, its 8-bit
      hop count never wraps, no peer forwards to itself, and by then it has been
      served or refused. */
  lemma HopBudgetHolds(model: string, hops: U8, path: seq<Visit>, budget: U8)
    requires Journey(model, hops, path) && forall i :: 0 <= i < |path| ==> path[i].cfg.maxHops <= budget
    ensures |path| > 1 ==> hops + (|path| - 1) <= budget
    ensures hops + (|path| - 1) >= budget ==> !Forwards(path[|path| - 1])
    ensures forall i :: 0 <= i < |path| - 1 ==> hops + i < path[i].cfg.maxHops && path[i + 1].at != path[i].at
  {
    var last := |path| - 1;
    forall i | 0 <= i < last ensures hops + i < path[i].cfg.maxHops && path[i + 1].at != path[i].at {
      ForwardsAreWise(model, hops, path, i);
    }
    if last > 0 {
      ForwardsAreWise(model, hops, path, last - 1);
    }
    if Forwards(path[last]) {
      ForwardsAreWise(model, hops, path, last);
    }
  }

  /** A mesh whose peers may differ, and change, in every way: what the peer holds
      when the request reaches it with a given hop count. */
  datatype Setting = Setting(cfg: MeshConfig, log: seq<Event>, localHas: bool, now: Instant)

  type Mesh = (PeerId, U8) -> Setting

  ghost predicate Through(mesh: Mesh, hops: U8, path: seq<Visit>)
    decreases |path|
  {
    path != [] ==>
      var v := path[0];
      mesh(v.at, hops) == Setting(v.cfg, v.log, v.localHas, v.now) && Through(mesh, NextHops(hops), path[1..])
  }

  /** The request has travelled this far through the mesh; not at all, if empty. */
  ghost predicate SoFar(mesh: Mesh, model: string, at: PeerId, hops: U8, path: seq<Visit>) {
    path == [] || (Journey(model, hops, path) && Through(mesh, hops, path) && path[0].at == at)
  }

  lemma SoFarRest(mesh: Mesh, model: string, at: PeerId, hops: U8, path: seq<Visit>)
    requires SoFar(mesh, model, at, hops, path) && path != [] && Forwards(path[0])
    ensures NextHops(hops) == hops + 1 && SoFar(mesh, model, path[0].answer.value.to, hops + 1, path[1..])
  {
    ForwardIsWithinBudget(model, hops, path);
  }

  lemma FirstVisit(mesh: Mesh, model: string, at: PeerId, hops: U8, v: Visit, path: seq<Visit>, rest: seq<Visit>)
    requires SoFar(mesh, model, at, hops, path) && path != [] && v == path[0] && Forwards(v) && NextHops(hops) == hops + 1
    requires rest != [] && SoFar(mesh, model, v.answer.value.to, hops + 1, rest)
    ensures SoFar(mesh, model, at, hops, [v] + rest)
  {
    assert ([v] + rest)[1..] == rest && ([v] + rest)[1] == rest[0];
  }

  lemma {:induction false} SomeEndedJourney(mesh: Mesh, model: string, at: PeerId, hops: U8) returns (path: seq<Visit>)
    ensures Journey(model, hops, path) && Through(mesh, hops, path) && path[0].at == at
    ensures !Forwards(path[|path| - 1])
    decreases 256 - hops
  {
    var here := mesh(at, hops);
    var answer := SomeDecision(here.cfg, IndexOf(at, here.log), Request(model, here.localHas, hops, here.now));
    var v := Visit(at, here.cfg, here.log, here.localHas, here.now, answer);
    path := [v];
    assert SoFar(mesh, model, at, hops, [v]);
    if Forwards(v) {
      ForwardIsWithinBudget(model, hops, [v]);
      var rest := SomeEndedJourney(mesh, model, answer.value.to, hops + 1);
      FirstVisit(mesh, model, at, hops, v, [v], rest);
      path := [v] + rest;
    }
  }

  /** The journey goes on from where it was, to an end; one that had ended stays. */
  ghost predicate Ends(path: seq<Visit>, whole: seq<Visit>) {
    && path <= whole && whole != [] && !Forwards(whole[|whole| - 1])
    && (path != [] && !Forwards(path[|path| - 1]) ==> whole == path)
  }

  lemma EndsLater(v: Visit, path: seq<Visit>, whole: seq<Visit>)
    requires Ends(path, whole) && Forwards(v)
    ensures Ends([v] + path, [v] + whole)
  {
    assert ([v] + whole)[|whole|] == whole[|whole| - 1];
    assert path != [] ==> ([v] + path)[|path|] == path[|path| - 1];
  }

  lemma {:induction false} Continues(mesh: Mesh, model: string, at: PeerId, hops: U8, path: seq<Visit>)
    returns (whole: seq<Visit>)
    requires SoFar(mesh, model, at, hops, path)
    ensures SoFar(mesh, model, at, hops, whole) && Ends(path, whole)
    decreases |path|
  {
    if path == [] {
      whole := SomeEndedJourney(mesh, model, at, hops);
    } else if !Forwards(path[0]) {
      assert |path| == 1;
      whole := path;
    } else {
      SoFarRest(mesh, model, at, hops, path);
      var rest := Continues(mesh, model, path[0].answer.value.to, hops + 1, path[1..]);
      FirstVisit(mesh, model, at, hops, path[0], path, rest);
      EndsLater(path[0], path[1..], rest);
      assert path == [path[0]] + path[1..];
      whole := [path[0]] + rest;
    }
  }

  /** However a request has travelled so far, through any mesh and with whatever
      answers its routers gave, it can go on, and ends: served or refused. No journey
      visits more than `256 - hops` peers. */
  lemma EveryRequestEnds(mesh: Mesh, model: string, at: PeerId, hops: U8, path: seq<Visit>)
    returns (whole: seq<Visit>)
    requires SoFar(mesh, model, at, hops, path)
    ensures SoFar(mesh, model, at, hops, whole) && Ends(path, whole)
    ensures hops + |whole| <= 256
  {
    whole := Continues(mesh, model, at, hops, path);
    JourneyIsShort(model, hops, whole);
  }

  lemma JourneyIsShort(model: string, hops: U8, path: seq<Visit>)
    requires Journey(model, hops, path)
    ensures hops + |path| <= 256
  {
    if |path| > 1 {
      ForwardsAreWise(model, hops, path, |path| - 2);
    }
  }

  /** A peer that was heard announcing the model holds it when the request arrives. */
  ghost predicate Truthful(model: string, path: seq<Visit>) {
    forall i :: 0 <= i < |path| - 1 && Offers(path[i].log, path[i + 1].at, model) ==> path[i + 1].localHas
  }

  /** With truthful announces, one forward is always enough. */
  lemma TruthfulMeshServesAtOnce(model: string, hops: U8, path: seq<Visit>)
    requires Journey(model, hops, path) && Truthful(model, path)
    ensures |path| <= 2
    ensures |path| == 2 ==> path[1].answer == Ok(Local)
  {
    if |path| > 1 {
      ForwardIsWithinBudget(model, hops, path);
      assert path[1].localHas;
      assert Journey(model, NextHops(hops), path[1..]) && path[1..][0] == path[1];
    }
  }
}
