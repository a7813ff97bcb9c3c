/** The power cache of agent/internal/collect/power.go: `sample` reads and writes `domain`, `prevE`, `prevT` and
    `primed` without the lock, relying on there being one refresher at a time. */
module PowerCache {
  import opened Common

  type WorkerId = nat

  const WRAP := 0x1_0000_0000_0000_0000

  /** energy_uj and the time it was read. */
  datatype Reading = Reading(energy: int, at: int)
  datatype Watts = Watts(watts: real, ok: bool)
  const NO_POWER := Watts(0.0, false)

  /** Where a refresher is between two accesses to the shared fields. */
  datatype Phase =
    | Begun
    | HasDomain
    | HasReading(r: Reading)
    | Compared(r: Reading, before: Option<Reading>) // has read prevE, prevT and primed, not yet written them
    | Result(w: Watts)

  datatype State = State(
    refreshing: bool, shown: Watts, unsupported: bool,       // under the lock
    domain: Option<string>, prev: Option<Reading>,           // not under the lock
    workers: map<WorkerId, Phase>, launched: nat)

  const INITIAL := State(false, NO_POWER, false, None, None, map[], 0)

  datatype Event =
    | Get                                          // a caller that found the value old tries to start a refresh
    | Find(w: WorkerId, found: Option<string>)
    | Read(w: WorkerId, energy: Option<Reading>)   // sudo cat, which may fail
    | Compare(w: WorkerId)
    | Remember(w: WorkerId)
    | Publish(w: WorkerId)

  predicate Enabled(s: State, e: Event) {
    match e
    case Get => true
    case Find(w, _) => w in s.workers && s.workers[w].Begun?
    case Read(w, _) => w in s.workers && s.workers[w].HasDomain?
    case Compare(w) => w in s.workers && s.workers[w].HasReading?
    case Remember(w) => w in s.workers && s.workers[w].Compared?
    case Publish(w) => w in s.workers && s.workers[w].Result?
  }

  /** Power from two readings: the counter's difference modulo 2^64, over the seconds between them. */
  function Power(before: Option<Reading>, r: Reading): Watts {
    if before.None? || r.at <= before.value.at then NO_POWER
    else
      var delta := (r.energy - before.value.energy) % WRAP;
      Watts(delta as real / 1000000.0 / ((r.at - before.value.at) as real / 1000000000.0), true)
  }

  function At(s: State, w: WorkerId, p: Phase): State {
    s.(workers := s.workers[w := p])
  }

  function Next(s: State, e: Event): State
    requires Enabled(s, e)
  {
    match e
    case Get =>
      if s.refreshing then s
      else At(s, s.launched, Begun).(refreshing := true, launched := s.launched + 1)
    case Find(w, found) =>
      if s.domain.Some? then At(s, w, HasDomain)
      else if found.None? then At(s, w, Result(NO_POWER)).(unsupported := true)
      else At(s, w, HasDomain).(domain := found)
    case Read(w, None) => At(s, w, Result(NO_POWER))
    case Read(w, Some(r)) => At(s, w, HasReading(r))
    case Compare(w) => At(s, w, Compared(s.workers[w].r, s.prev))
    case Remember(w) =>
      var Compared(r, before) := s.workers[w];
      At(s, w, Result(Power(before, r))).(prev := Some(r))
    case Publish(w) => s.(shown := s.workers[w].w, refreshing := false, workers := s.workers - {w})
  }

  /** What refresher `w` does between two lock sections if nobody else moves. */
  function Sampled(s: State, w: WorkerId, found: Option<string>, energy: Option<Reading>): State
    requires w in s.workers && s.workers[w].Begun?
  {
    var t := Next(s, Find(w, found));
    if t.workers[w].Result? then t
    else
      var u := Next(t, Read(w, energy));
      if u.workers[w].Result? then u else Next(Next(u, Compare(w)), Remember(w))
  }

  // ---------- the code ----------

  class Cache {
    var refreshing: bool
    var watts: real
    var ok: bool
    var unsupported: bool
    var domain: string
    var prevE: int
    var prevT: int
    var primed: bool
    ghost var workers: map<WorkerId, Phase>
    ghost var launched: nat

    ghost function Now(): State
      reads this
    {
      State(refreshing, Watts(watts, ok), unsupported, if domain == "" then None else Some(domain),
            if primed then Some(Reading(prevE, prevT)) else None, workers, launched)
    }

    constructor ()
      ensures Now() == INITIAL
    {
      refreshing, watts, ok, unsupported, domain, prevE, prevT, primed := false, 0.0, false, false, "", 0, 0, false;
      workers, launched := map[], 0;
    }

    /** The lock section of `get` that may start a refresher. */
    method TryRefresh() returns (launch: bool)
      modifies this
      ensures Now() == Next(old(Now()), Get) && (launch <==> !old(refreshing))
    {
      if refreshing {
        return false;
      }
      refreshing := true;
      workers, launched := workers[launched := Begun], launched + 1;
      return true;
    }

    /** `sample`: `found` is the domain the search yields, `energy` what reading it yields. */
    method Sample(ghost w: WorkerId, found: string, energy: Option<Reading>) returns (watts: real, ok: bool)
      requires w in workers && workers[w].Begun?
      modifies this`unsupported, this`domain, this`prevE, this`prevT, this`primed, this`workers
      ensures Now() == Sampled(old(Now()), w, if found == "" then None else Some(found), energy)
      ensures workers == old(workers)[w := Result(Watts(watts, ok))]
    {
      watts, ok := Measure(found, energy);
      workers := workers[w := Result(Watts(watts, ok))];
    }

    method Measure(found: string, energy: Option<Reading>) returns (watts: real, ok: bool)
      modifies this`unsupported, this`domain, this`prevE, this`prevT, this`primed
      ensures domain == if old(domain) == "" then found else old(domain)
      ensures unsupported == (old(unsupported) || domain == "")
      ensures domain == "" || energy.None? ==> Now().prev == old(Now()).prev && Watts(watts, ok) == NO_POWER
      ensures domain != "" && energy.Some? ==>
                primed && Reading(prevE, prevT) == energy.value && Watts(watts, ok) == Power(old(Now()).prev, energy.value)
    {
      if domain == "" {
        if found == "" {
          unsupported := true;
          return 0.0, false;
        }
        domain := found;
      }
      if energy.None? {
        return 0.0, false;
      }
      var Reading(e, now) := energy.value;
      if !primed {
        prevE, prevT, primed := e, now, true;
        return 0.0, false;
      }
      var dt := now - prevT;
      var delta := (e - prevE) % WRAP;
      prevE, prevT := e, now;
      if dt <= 0 {
        return 0.0, false;
      }
      return delta as real / 1000000.0 / (dt as real / 1000000000.0), true;
    }

    method Publish(ghost w: WorkerId, watts: real, ok: bool)
      requires w in workers && workers[w] == Result(Watts(watts, ok))
      modifies this
      ensures Now() == Next(old(Now()), Event.Publish(w))
    {
      this.watts, this.ok, refreshing := watts, ok, false;
      workers := workers - {w};
    }
  }

  // ---------- runs ----------

  ghost predicate Run(states: seq<State>, es: seq<Event>) {
    && |states| == |es| + 1
    && states[0] == INITIAL
    && forall n :: 0 <= n < |es| ==> Enabled(states[n], es[n]) && states[n + 1] == Next(states[n], es[n])
  }

  /** At most one refresher, alive exactly while `refreshing` is set, and nobody else moved `prev` since it looked. */
  ghost predicate Exclusive(s: State) {
    && (s.refreshing <==> s.workers != map[])
    && (forall w :: w in s.workers ==> w + 1 == s.launched)
    && (forall w :: w in s.workers && s.workers[w].Compared? ==> s.workers[w].before == s.prev)
  }

  lemma {:induction false} AlwaysExclusive(states: seq<State>, es: seq<Event>, n: nat)
    requires Run(states, es) && n < |states|
    ensures Exclusive(states[n])
  {
    if n > 0 {
      AlwaysExclusive(states, es, n - 1);
      var s, t, e := states[n - 1], states[n], es[n - 1];
      if e.Get? && !s.refreshing {
        assert s.launched in t.workers;
      } else if !e.Get? {
        assert forall w :: w in s.workers ==> w == e.w;
        assert !e.Publish? ==> e.w in t.workers;
      }
    }
  }

  /** Between two readings of a 64-bit counter, of which the second may have wrapped once, the power is the energy in
      microjoules over the time in nanoseconds, in watts; with no reading before, or no time in between, there is none. */
  lemma PowerIs(p: Reading, r: Reading)
    requires 0 <= p.energy < 0x1_0000_0000_0000_0000 && 0 <= r.energy < 0x1_0000_0000_0000_0000
    ensures !Power(None, r).ok
    ensures Power(Some(p), r).ok <==> r.at > p.at
    ensures r.at > p.at ==>
              var used := if r.energy >= p.energy then r.energy - p.energy
                          else r.energy + 0x1_0000_0000_0000_0000 - p.energy;
              Power(Some(p), r).watts == used as real / 1000000.0 / ((r.at - p.at) as real / 1000000000.0)
  {}

  /** The domain is searched for until one is found and stays the same from then on. */
  lemma {:induction false} DomainStays(states: seq<State>, es: seq<Event>, i: nat, j: nat)
    requires Run(states, es) && i <= j < |states| && states[i].domain.Some?
    ensures states[j].domain == states[i].domain
  {
    if i < j { DomainStays(states, es, i, j - 1); }
  }

  lemma FoundDomainIsKept(s: State, w: WorkerId, d: string)
    requires Enabled(s, Find(w, Some(d))) && s.domain.None?
    ensures Next(s, Find(w, Some(d))).domain == Some(d) && Next(s, Find(w, Some(d))).workers[w] == HasDomain
  {}

  /** By the events alone: the result that was published last. */
  ghost function LastShown(states: seq<State>, es: seq<Event>, n: nat): Watts
    requires Run(states, es) && n < |states|
  {
    if n == 0 then Watts(0.0, false)
    else if es[n - 1].Publish? then states[n - 1].workers[es[n - 1].w].w
    else LastShown(states, es, n - 1)
  }

  /** Callers see that result, whenever they ask. */
  lemma {:induction false} ShownIsLastResult(states: seq<State>, es: seq<Event>, n: nat)
    requires Run(states, es) && n < |states|
    ensures states[n].shown == LastShown(states, es, n)
  {
    if n > 0 { ShownIsLastResult(states, es, n - 1); }
  }

  /** A refresh without a domain or without a reading results in no power. */
  lemma NoReadingNoPower(s: State, w: WorkerId)
    requires w in s.workers
    ensures s.workers[w].Begun? && s.domain.None? ==>
              var t := Next(s, Find(w, None)); t.workers[w] == Result(Watts(0.0, false)) && t.unsupported
    ensures s.workers[w].HasDomain? ==> Next(s, Read(w, None)).workers[w] == Result(Watts(0.0, false))
  {}

  /** By the events alone: the last reading whose refresh got as far as remembering it. */
  ghost function LastReading(states: seq<State>, es: seq<Event>, n: nat): Option<Reading>
    requires Run(states, es) && n < |states|
  {
    if n == 0 then None
    else if es[n - 1].Remember? then Some(states[n - 1].workers[es[n - 1].w].r)
    else LastReading(states, es, n - 1)
  }

  lemma {:induction false} PrevIsLastReading(states: seq<State>, es: seq<Event>, n: nat)
    requires Run(states, es) && n < |states|
    ensures states[n].prev == LastReading(states, es, n)
  {
    if n > 0 { PrevIsLastReading(states, es, n - 1); }
  }

  /** In every interleaving each refresh computes its power from the reading of the refresh before it, as if refreshes
      ran one after the other; the fields without a lock are touched by that one refresher only. */
  lemma RefreshesAreSequential(states: seq<State>, es: seq<Event>, n: nat)
    requires Run(states, es) && n < |es| && es[n].Remember?
    ensures var w := es[n].w;
            && states[n + 1].workers[w] == Result(Power(LastReading(states, es, n), states[n].workers[w].r))
            && states[n].workers.Keys == {w}
  {
    AlwaysExclusive(states, es, n);
    PrevIsLastReading(states, es, n);
  }
}
