/** The sampler of agent/internal/collect/sampler.go: one measurement per tick, kept in a ring. */
module Sampler {
  import opened Common
  import opened SampleRing
  import N = Network
  import R = Rates

  /** `t` is the wall clock in nanoseconds. */
  datatype Sample = Sample(t: int, ifaces: seq<N.Iface>, total: N.Totals)

  /** What one tick reads: time.Now, which carries the monotonic clock and the wall clock, and the interface counters.
      Durations come from the monotonic clock, the sample's time from the wall clock, which can be set. */
  datatype Measurement = Measurement(mono: int, wall: int, net: N.Reading)

  function Seconds(from: int, to: int): real {
    (to - from) as real / 1000000000.0
  }

  /** Sample `i` is the difference between measurements `i` and `i + 1`, the latter strictly later. */
  ghost predicate IsDifference(s: Sample, a: Measurement, b: Measurement) {
    && a.mono < b.mono && s.t == b.wall
    && N.Sorted(s.ifaces) && s.total == N.Total(s.ifaces)
    && multiset(s.ifaces) == multiset(N.Entries(a.net, b.net, Seconds(a.mono, b.mono)))
  }

  ghost predicate Recorded(ms: seq<Measurement>, log: seq<Sample>) {
    && (ms == [] ==> log == [])
    && (ms != [] ==> |ms| == |log| + 1)
    && forall i :: 0 <= i < |log| ==> IsDifference(log[i], ms[i], ms[i + 1])
  }

  class Sampler {
    const ring: Ring<Sample>
    var prevNet: N.Reading
    var prevMono: int // prevTime, a time.Time with both clocks
    var prevWall: int
    var primed: bool
    ghost var used: seq<Measurement> // the priming measurement and those that made a sample

    ghost predicate Valid()
      reads this, ring, ring.slots
    {
      && ring.Valid() && Recorded(used, ring.log)
      && (primed <==> used != [])
      && (primed ==> used[|used| - 1] == Measurement(prevMono, prevWall, prevNet))
    }

    constructor (historySize: nat)
      requires historySize >= 1
      ensures Valid() && fresh(ring) && fresh(ring.slots) && ring.log == [] && used == []
      ensures ring.slots.Length == historySize
    {
      ring := new Ring(historySize);
      primed, prevMono, prevWall, prevNet, used := false, 0, 0, map[], [];
    }

    /** One measurement. The first one only primes; one at which the monotonic clock has not advanced is dropped. */
    method Tick(m: Measurement) returns (s: Option<Sample>)
      requires Valid()
      modifies this, ring, ring.slots
      ensures Valid() && ring.slots == old(ring.slots)
      ensures s.Some? <==> old(primed) && m.mono > old(prevMono)
      ensures ring.log == if s.Some? then old(ring.log) + [s.value] else old(ring.log)
      ensures used == if s.Some? || !old(primed) then old(used) + [m] else old(used)
    {
      if !primed {
        prevNet, prevMono, prevWall, primed, used := m.net, m.mono, m.wall, true, [m];
        return None;
      }
      var elapsed := Seconds(prevMono, m.mono);
      if elapsed <= 0.0 {
        return None;
      }
      var list, total := N.Deltas(prevNet, m.net, elapsed);
      var smp := Sample(m.wall, list, total);
      assert IsDifference(smp, used[|used| - 1], m);
      used, prevNet, prevMono, prevWall := used + [m], m.net, m.mono, m.wall;
      ring.Push(smp);
      return Some(smp);
    }

    /** The newest sample; with none yet, two measurements are taken on the spot. */
    method Latest(m0: Measurement, m1: Measurement) returns (s: Option<Sample>)
      requires Valid()
      modifies this, ring, ring.slots
      ensures Valid()
      ensures old(ring.log) != [] ==> ring.log == old(ring.log)
      ensures old(ring.log) == [] ==>
                (s.Some? <==> m1.mono > if old(primed) && m0.mono <= old(prevMono) then old(prevMono) else m0.mono)
      ensures old(ring.log) != [] || s.Some? ==> ring.log != [] && s == Some(ring.log[|ring.log| - 1])
    {
      s := ring.Newest();
      if s == None {
        var first := Tick(m0);
        s := Tick(m1);
      }
    }

    method History(n: nat) returns (out: seq<Sample>)
      requires Valid()
      ensures out == LastN(if n < ring.slots.Length then n else ring.slots.Length, ring.log)
    {
      out := ring.History(n);
    }
  }

  // ---------- what the log says ----------

  /** By how much the wall clock was set back between two measurements: what it lost on the monotonic clock. */
  function SetBack(a: Measurement, b: Measurement): int {
    (b.mono - a.mono) - (b.wall - a.wall)
  }

  /** The wall clock was not set back by as much as the time that passed. */
  predicate Outran(a: Measurement, b: Measurement) {
    SetBack(a, b) < b.mono - a.mono
  }

  ghost predicate TimesRise(log: seq<Sample>, lo: nat, hi: nat)
    requires hi <= |log|
  {
    forall i, j :: lo <= i < j < hi ==> log[i].t < log[j].t
  }

  /** Sample times strictly increase over any stretch of the log, such as the one History returns, if and only if the
      wall clock was nowhere in it set back between two measurements by as much as the time that passed. */
  lemma {:induction false} TimesRiseIff(ms: seq<Measurement>, log: seq<Sample>, lo: nat, hi: nat)
    requires Recorded(ms, log) && hi <= |log|
    ensures TimesRise(log, lo, hi) <==> forall k :: lo < k < hi ==> Outran(ms[k], ms[k + 1])
    decreases hi
  {
    if lo + 1 < hi {
      TimesRiseIff(ms, log, lo, hi - 1);
      assert IsDifference(log[hi - 2], ms[hi - 2], ms[hi - 1]) && IsDifference(log[hi - 1], ms[hi - 1], ms[hi]);
      assert log[hi - 2].t < log[hi - 1].t <==> Outran(ms[hi - 1], ms[hi]);
    }
  }

  /** And they do not in general: three ticks in a second each, the wall clock set back before the third. */
  method SetBackReversesTimes() returns (first: Sample, second: Sample)
    ensures second.t < first.t
  {
    var s := new Sampler(2);
    var none := s.Tick(Measurement(0, 100_000_000_000, map[]));
    var some := s.Tick(Measurement(1_000_000_000, 101_000_000_000, map[]));
    first := some.value;
    some := s.Tick(Measurement(2_000_000_000, 50_000_000_000, map[]));
    second := some.value;
    assert IsDifference(s.ring.log[1], s.used[1], s.used[2]);
  }

  function Side(c: N.Counters, rx: bool): nat {
    if rx then c.rx else c.tx
  }

  /** How one counter of interface `name` moved between two measurements. */
  function Moved(a: Measurement, b: Measurement, name: string, rx: bool): R.Interval {
    if name in a.net && name in b.net
    then R.Interval(Side(b.net[name], rx) - Side(a.net[name], rx), Seconds(a.mono, b.mono),
                    Side(b.net[name], rx) >= Side(a.net[name], rx))
    else R.Interval(0, Seconds(a.mono, b.mono), false)
  }

  function Moves(ms: seq<Measurement>, name: string, rx: bool): (xs: seq<R.Interval>)
    requires ms != []
    ensures |xs| == |ms| - 1
  {
    seq(|ms| - 1, i requires 0 <= i < |ms| - 1 => Moved(ms[i], ms[i + 1], name, rx))
  }

  /** The rate a sample lists for an interface; zero when it lists none. */
  ghost function Listed(s: Sample, name: string, rx: bool): nat {
    if exists x :: x in s.ifaces && x.name == name
    then var x :| x in s.ifaces && x.name == name; if rx then x.rxBps else x.txBps
    else 0
  }

  lemma ListedIsRate(s: Sample, a: Measurement, b: Measurement, name: string, rx: bool)
    requires IsDifference(s, a, b)
    ensures R.Usable(Moved(a, b, name, rx)) && Listed(s, name, rx) == R.Rate(Moved(a, b, name, rx))
  {
    var elapsed := Seconds(a.mono, b.mono);
    forall x | x in s.ifaces
      ensures x.name in b.net && x == N.Entry(a.net, b.net, x.name, elapsed)
    {
      assert x in multiset(s.ifaces);
      assert x in N.Entries(a.net, b.net, elapsed);
    }
    if name in b.net {
      var x := N.Entry(a.net, b.net, name, elapsed);
      assert x in multiset(N.Entries(a.net, b.net, elapsed));
      assert x in s.ifaces && x.name == name;
    }
  }

  lemma MovesFront(ms: seq<Measurement>, name: string, rx: bool)
    requires |ms| >= 2
    ensures var xs := Moves(ms, name, rx);
            xs[..|xs| - 1] == Moves(ms[..|ms| - 1], name, rx)
            && xs[|xs| - 1] == Moved(ms[|ms| - 2], ms[|ms| - 1], name, rx)
  {}

  lemma {:induction false} LastedIsSpan(ms: seq<Measurement>, name: string, rx: bool)
    requires ms != []
    ensures R.Lasted(Moves(ms, name, rx)) == Seconds(ms[0].mono, ms[|ms| - 1].mono)
  {
    if |ms| >= 2 {
      MovesFront(ms, name, rx);
      LastedIsSpan(ms[..|ms| - 1], name, rx);
    }
  }

  /** What integrating a list of rates over successive intervals gives. */
  ghost function Integrated(rates: seq<nat>, xs: seq<R.Interval>): real
    requires |rates| == |xs|
  {
    if xs == [] then 0.0
    else var n := |xs| - 1; Integrated(rates[..n], xs[..n]) + R.Bytes(rates[n], xs[n].elapsed)
  }

  ghost function ListedRates(log: seq<Sample>, name: string, rx: bool): (rates: seq<nat>)
    ensures |rates| == |log|
  {
    seq(|log|, i requires 0 <= i < |log| => Listed(log[i], name, rx))
  }

  lemma {:induction false} IntegratedIsShown(rates: seq<nat>, xs: seq<R.Interval>)
    requires |rates| == |xs|
    requires forall i :: 0 <= i < |xs| ==> R.Usable(xs[i]) && rates[i] == R.Rate(xs[i])
    ensures Integrated(rates, xs) == R.Shown(xs)
  {
    if xs != [] { IntegratedIsShown(rates[..|xs| - 1], xs[..|xs| - 1]); }
  }

  lemma LogListsRate(ms: seq<Measurement>, log: seq<Sample>, name: string, rx: bool, i: nat)
    requires Recorded(ms, log) && i < |log|
    ensures var x := Moved(ms[i], ms[i + 1], name, rx); R.Usable(x) && Listed(log[i], name, rx) == R.Rate(x)
  {
    assert IsDifference(log[i], ms[i], ms[i + 1]);
    ListedIsRate(log[i], ms[i], ms[i + 1], name, rx);
  }

  lemma LogListsRates(ms: seq<Measurement>, log: seq<Sample>, name: string, rx: bool)
    requires Recorded(ms, log) && ms != []
    ensures var xs := Moves(ms, name, rx);
            forall i :: 0 <= i < |xs| ==> R.Usable(xs[i]) && ListedRates(log, name, rx)[i] == R.Rate(xs[i])
  {
    var xs := Moves(ms, name, rx);
    forall i | 0 <= i < |xs|
      ensures R.Usable(xs[i]) && ListedRates(log, name, rx)[i] == R.Rate(xs[i])
    {
      LogListsRate(ms, log, name, rx, i);
      assert xs[i] == Moved(ms[i], ms[i + 1], name, rx);
    }
  }

  /** Bytes are conserved: integrating an interface's listed rates over the log gives at most what its counter gained
      in its non-negative steps, and short of that by less than one byte per second. */
  lemma BytesConserved(ms: seq<Measurement>, log: seq<Sample>, name: string, rx: bool)
    requires Recorded(ms, log) && log != []
    ensures var xs := Moves(ms, name, rx);
            var read, gained := Integrated(ListedRates(log, name, rx), xs), R.Gained(xs) as real;
            read <= gained < read + (ms[|ms| - 1].mono - ms[0].mono) as real / 1000000000.0
  {
    LogListsRates(ms, log, name, rx);
    IntegratedIsShown(ListedRates(log, name, rx), Moves(ms, name, rx));
    LastedIsSpan(ms, name, rx);
    R.RatesConserve(Moves(ms, name, rx));
  }

  /** For an interface that stayed and never reset, that gain is the true counter increase. */
  lemma {:induction false} GainIsIncrease(ms: seq<Measurement>, name: string, rx: bool)
    requires ms != [] && forall i :: 0 <= i < |ms| ==> name in ms[i].net
    requires forall i :: 0 <= i < |ms| - 1 ==> Side(ms[i].net[name], rx) <= Side(ms[i + 1].net[name], rx)
    ensures R.Gained(Moves(ms, name, rx)) == Side(ms[|ms| - 1].net[name], rx) - Side(ms[0].net[name], rx)
  {
    var n := |ms| - 1;
    if n > 0 {
      GainIsIncrease(ms[..n], name, rx);
      MovesFront(ms, name, rx);
    }
  }
}
