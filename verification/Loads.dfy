/** The load signal as a floating-point number, and the order in which the router
    ranks candidates. */
module Loads {
  import opened Common

  datatype F64 = NaN | NegInf | Finite(value: real) | PosInf

  /** `f64::MAX`, the load of a peer that has sent no heartbeat. */
  const UNKNOWN: F64 := Finite(179769313486231570814527423731704356798070567525844996598917476803157260780028538760589558632766878171540458953514382464234321326889464182768467546703537516986049910576551282076245490090389328944075868508455133942304583236903222948165808559332123347764797926204144723168738177180919299881250404026184124858368.0)

  predicate Lighter(a: F64, b: F64) {
    match (a, b)
    case (NaN, _) => false
    case (_, NaN) => false
    case (NegInf, _) => b != NegInf
    case (_, PosInf) => a != PosInf
    case (Finite(x), Finite(y)) => x < y
    case _ => false
  }

  /** The numeric order, with the infinities at its ends and NaN outside it. */
  lemma LighterExactly(a: F64, b: F64)
    ensures forall x: real, y: real :: Lighter(Finite(x), Finite(y)) <==> x < y
    ensures Lighter(NegInf, b) <==> b != NegInf && b != NaN
    ensures Lighter(a, PosInf) <==> a != PosInf && a != NaN
    ensures !Lighter(PosInf, b) && !Lighter(a, NegInf) && !Lighter(NaN, b) && !Lighter(a, NaN)
  {
  }

  datatype Ordering = Less | Equal | Greater

  function PartialCmp(a: F64, b: F64): Option<Ordering> {
    if a.NaN? || b.NaN? then None
    else if Lighter(a, b) then Some(Less)
    else if Lighter(b, a) then Some(Greater)
    else Some(Equal)
  }

  datatype Candidate = Candidate(peer: PeerId, load: F64)

  /** The comparator handed to the sort: load first, incomparable loads as equal,
      then the key. */
  function Compare(a: Candidate, b: Candidate): Ordering {
    var byLoad := PartialCmp(a.load, b.load);
    if byLoad.Some? && byLoad.value != Equal then byLoad.value
    else if Before(a.peer, b.peer) then Less
    else if Before(b.peer, a.peer) then Greater
    else Equal
  }

  predicate Precedes(a: Candidate, b: Candidate) {
    Compare(a, b) == Less
  }

  /** No NaN among the loads, or nothing else to tell apart. */
  ghost predicate Coherent(loads: set<F64>) {
    NaN !in loads || forall x, y :: x in loads && y in loads && !x.NaN? && !y.NaN? ==> x == y
  }

  lemma PrecedesIsAsymmetric(a: Candidate, b: Candidate)
    ensures !(Precedes(a, b) && Precedes(b, a)) && !Precedes(a, a)
    ensures a.peer != b.peer ==> Precedes(a, b) || Precedes(b, a)
    ensures Compare(a, b) == Greater <==> Precedes(b, a)
  {
    BeforeIsTotal(a.peer, b.peer);
    BeforeIsTotal(a.peer, a.peer);
  }

  lemma PrecedesIsTransitive(a: Candidate, b: Candidate, c: Candidate)
    requires Coherent({a.load, b.load, c.load}) && Precedes(a, b) && Precedes(b, c)
    ensures Precedes(a, c)
  {
    BeforeIsTotal(a.peer, b.peer);
    BeforeIsTotal(b.peer, c.peer);
    BeforeIsTotal(a.peer, c.peer);
    if Before(a.peer, b.peer) && Before(b.peer, c.peer) {
      BeforeIsTransitive(a.peer, b.peer, c.peer);
    }
  }

  /** The comparator orders all candidates with these loads. */
  ghost predicate OrdersAll(loads: set<F64>) {
    forall a: Candidate, b: Candidate, c: Candidate ::
      a.load in loads && b.load in loads && c.load in loads && Precedes(a, b) && Precedes(b, c) ==> Precedes(a, c)
  }

  function Key(first: Byte): PeerId {
    [first] + seq(31, _ => 0)
  }

  /** A NaN between two different loads closes a cycle. */
  lemma NaNCycle(light: F64, heavy: F64)
    requires Lighter(light, heavy)
    ensures var a, b, c := Candidate(Key(0), heavy), Candidate(Key(1), NaN), Candidate(Key(2), light);
      Precedes(a, b) && Precedes(b, c) && Precedes(c, a)
  {
    assert Key(0)[0] == 0 && Key(1)[0] == 1 && Key(2)[0] == 2;
  }

  /** The comparator is a strict order on a set of loads, whatever the keys, if and
      only if the loads are coherent. */
  lemma OrderExactly(loads: set<F64>)
    ensures OrdersAll(loads) <==> Coherent(loads)
  {
    if Coherent(loads) {
      forall a: Candidate, b: Candidate, c: Candidate |
        a.load in loads && b.load in loads && c.load in loads && Precedes(a, b) && Precedes(b, c)
        ensures Precedes(a, c)
      {
        PrecedesIsTransitive(a, b, c);
      }
    } else {
      var x, y :| x in loads && y in loads && !x.NaN? && !y.NaN? && x != y;
      var light, heavy := if Lighter(x, y) then x else y, if Lighter(x, y) then y else x;
      NaNCycle(light, heavy);
      var a, b, c := Candidate(Key(0), heavy), Candidate(Key(1), NaN), Candidate(Key(2), light);
      PrecedesIsAsymmetric(a, c);
      assert !OrdersAll(loads);
    }
  }
}
