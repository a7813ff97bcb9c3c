/** Rates from counter deltas, as Tick of agent/internal/collect/sampler.go computes them. */
module Rates {

  /** One counter at two successive measurements: how far it moved, over how long, and whether the delta is used. */
  datatype Interval = Interval(delta: int, elapsed: real, used: bool)

  /** Tick requires the clock to have advanced and drops a delta when the counter went backwards. */
  predicate Usable(x: Interval) {
    x.elapsed > 0.0 && (x.used ==> x.delta >= 0)
  }

  /** uint64(float64(delta) / elapsed): truncation of a non-negative quotient. */
  function Rate(x: Interval): nat
    requires Usable(x)
  {
    if x.used then RateOf(x.delta, x.elapsed) else 0
  }

  function RateOf(delta: nat, elapsed: real): nat
    requires elapsed > 0.0
  {
    (delta as real / elapsed).Floor
  }

  lemma RateLosesLessThanOne(delta: nat, elapsed: real)
    requires elapsed > 0.0
    ensures RateOf(delta, elapsed) as real * elapsed <= delta as real
    ensures delta as real < RateOf(delta, elapsed) as real * elapsed + elapsed
  {
    var lost := Lost(delta as real / elapsed, RateOf(delta, elapsed) as real, elapsed);
    assert delta as real / elapsed * elapsed == delta as real;
  }

  /** What rounding q down to r loses over an interval of length c. */
  lemma Lost(q: real, r: real, c: real) returns (lost: real)
    requires r <= q < r + 1.0 && c > 0.0
    ensures 0.0 <= lost < c
    ensures q * c == r * c + lost
  {
    lost := Part(q - r, c);
  }

  /** A proper fraction of an interval is shorter than the interval. */
  lemma Part(f: real, c: real) returns (part: real)
    requires 0.0 <= f < 1.0 && c > 0.0
    ensures part == f * c && 0.0 <= part < c
  {
    part := f * c;
    assert (1.0 - f) * c > 0.0;
  }

  function Bytes(rate: nat, elapsed: real): real {
    rate as real * elapsed
  }

  /** What a reader who integrates the shown rates arrives at. */
  function Shown(xs: seq<Interval>): real
    requires forall i :: 0 <= i < |xs| ==> Usable(xs[i])
  {
    if xs == [] then 0.0
    else var x := xs[|xs| - 1]; Shown(xs[..|xs| - 1]) + Bytes(Rate(x), x.elapsed)
  }

  /** What the counter gained over the intervals used. */
  function Gained(xs: seq<Interval>): int {
    if xs == [] then 0
    else var x := xs[|xs| - 1]; Gained(xs[..|xs| - 1]) + if x.used then x.delta else 0
  }

  function Lasted(xs: seq<Interval>): real {
    if xs == [] then 0.0 else Lasted(xs[..|xs| - 1]) + xs[|xs| - 1].elapsed
  }

  /** Integrating the rates never exceeds what was counted, and falls short by less than one per second. */
  lemma {:induction false} RatesConserve(xs: seq<Interval>)
    requires forall i :: 0 <= i < |xs| ==> Usable(xs[i])
    ensures Shown(xs) <= Gained(xs) as real
    ensures xs != [] ==> Gained(xs) as real < Shown(xs) + Lasted(xs)
  {
    if xs != [] {
      var x := xs[|xs| - 1];
      RatesConserve(xs[..|xs| - 1]);
      if x.used { RateLosesLessThanOne(x.delta, x.elapsed); }
    }
  }
}
