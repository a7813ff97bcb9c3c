/** Starting and stopping the sampling loop (agent/internal/collect/sampler.go): Subscribe, Unsubscribe, `start`,
    `halt` and the linger timer, one step per critical section. */
module Lifecycle {

  type Id = nat

  datatype State = State(
    subs: set<Id>,
    starters: set<Id>,   // Subscribe calls that found themselves first and have not called `start` yet
    stoppers: nat,       // Unsubscribe calls that found themselves last and have not armed the timer yet
    timers: nat,         // timers armed so far
    armed: set<Id>,      // at most `linger`: armed and not fired
    fired: set<Id>,      // callbacks that have not tested yet
    idle: set<Id>,       // callbacks that found no subscribers and have not called `halt` yet
    running: bool,
    loops: nat,          // loops started so far; each has its own stop channel, and `stop` is that of the last
    closed: set<Id>,     // the loops whose stop channel is closed
    alive: set<Id>)      // the loops that have not returned

  const QUIET := State({}, {}, 0, 0, {}, {}, {}, false, 0, {}, {})

  datatype Event =
    | Join(i: Id)
    | Start(i: Id)
    | Leave(i: Id)
    | Arm
    | Fire(i: Id)
    | Test(i: Id)
    | Halt(i: Id)
    | Exit(i: Id) // a loop that finds its stop channel closed returns

  predicate Enabled(s: State, e: Event) {
    match e
    case Join(i) => i !in s.subs && i !in s.starters
    case Start(i) => i in s.starters
    case Leave(i) => i in s.subs && i !in s.starters
    case Arm => s.stoppers > 0
    case Fire(i) => i in s.armed
    case Test(i) => i in s.fired
    case Halt(i) => i in s.idle
    case Exit(i) => i in s.alive && i in s.closed
  }

  /** The loop started last, if any was. */
  function Last(s: State): Id {
    if s.loops == 0 then 0 else s.loops - 1
  }

  function Next(s: State, e: Event): State
    requires Enabled(s, e)
  {
    match e
    case Join(i) =>
      s.(subs := s.subs + {i}, starters := if s.subs == {} then s.starters + {i} else s.starters)
    case Start(i) => // stopping a timer that has fired already has no effect
      var t := s.(starters := s.starters - {i}, armed := {}, running := true);
      if s.running then t else t.(loops := s.loops + 1, alive := s.alive + {s.loops})
    case Leave(i) =>
      s.(subs := s.subs - {i}, stoppers := if s.subs == {i} then s.stoppers + 1 else s.stoppers)
    case Arm => s.(stoppers := s.stoppers - 1, armed := {s.timers}, timers := s.timers + 1)
    case Fire(i) => s.(armed := s.armed - {i}, fired := s.fired + {i})
    case Test(i) => s.(fired := s.fired - {i}, idle := if s.subs == {} then s.idle + {i} else s.idle)
    case Halt(i) =>
      var t := s.(idle := s.idle - {i}, running := false);
      if s.running then t.(closed := s.closed + {Last(s)}) else t
    case Exit(i) => s.(alive := s.alive - {i})
  }


  // ---------- the code, one method per critical section ----------

  class StopChannel {
    var closed: bool

    constructor ()
      ensures !closed
    {
      closed := false;
    }

    /** Closing a closed channel panics. */
    method Close()
      requires !closed
      modifies this
      ensures closed
    {
      closed := true;
    }
  }

  class Timer {
    var pending: bool

    constructor ()
      ensures pending
    {
      pending := true;
    }

    method Stop()
      modifies this
      ensures !pending
    {
      pending := false;
    }
  }

  class Subscribers {
    var subs: set<Id>
    var running: bool
    var stop: StopChannel?
    var linger: Timer?
    ghost var now: State

    ghost predicate Valid()
      reads this, stop, linger
    {
      && now.subs == subs && now.running == running
      && (now.armed != {} <==> linger != null && linger.pending)
      && (running ==> stop != null && !stop.closed)
    }

    constructor ()
      ensures Valid() && now == QUIET
    {
      subs, running, stop, linger, now := {}, false, null, null, QUIET;
    }

    /** The lock section of Subscribe; `first` makes it call Begin. */
    method Enter(i: Id) returns (first: bool)
      requires Valid() && Enabled(now, Join(i))
      modifies this
      ensures Valid() && now == Next(old(now), Join(i))
      ensures first <==> i in now.starters
    {
      now := Next(now, Join(i));
      assert subs == {} ==> subs + {i} == {i};
      assert subs != {} ==> exists j :: j in subs && j != i;
      subs := subs + {i};
      first := |subs| == 1;
      assert first ==> subs == {i};
    }

    method CancelLinger()
      modifies this`linger, linger
      ensures linger == null
    {
      if linger != null {
        linger.Stop();
        linger := null;
      }
    }

    /** `start`; `launched` is the stop channel of the loop it launches. */
    method Begin(i: Id) returns (launched: StopChannel?)
      requires Valid() && Enabled(now, Start(i))
      modifies this, linger
      ensures Valid() && now == Next(old(now), Start(i))
      ensures launched == null <==> old(running)
      ensures launched != null ==> launched == stop && fresh(stop)
    {
      now := Next(now, Start(i));
      CancelLinger();
      if running {
        return null;
      }
      running := true;
      stop := new StopChannel();
      return stop;
    }

    /** The first lock section of Unsubscribe; `last` makes it call Arm. */
    method Depart(i: Id) returns (last: bool)
      requires Valid() && Enabled(now, Leave(i))
      modifies this
      ensures Valid() && now == Next(old(now), Leave(i))
      ensures last <==> now.stoppers > old(now.stoppers)
    {
      now := Next(now, Leave(i));
      subs := subs - {i};
      last := |subs| == 0;
    }

    method SetLinger()
      requires Valid() && Enabled(now, Arm)
      modifies this, linger
      ensures Valid() && now == Next(old(now), Arm)
    {
      now := Next(now, Arm);
      CancelLinger();
      linger := new Timer();
    }

    /** The callback's lock section; `idle` makes it call End. */
    method IsIdle(i: Id) returns (idle: bool)
      requires Valid() && Enabled(now, Test(i))
      modifies this`now
      ensures Valid() && now == Next(old(now), Test(i))
      ensures idle <==> now.subs == {}
    {
      now := Next(now, Test(i));
      idle := |subs| == 0;
    }

    /** `halt`: closes the stop channel of the running loop, which is open, and no other. */
    method End(i: Id)
      requires Valid() && Enabled(now, Halt(i))
      modifies this, stop
      ensures Valid() && now == Next(old(now), Halt(i))
      ensures old(running) ==> old(stop).closed
    {
      now := Next(now, Halt(i));
      if !running {
        return;
      }
      stop.Close();
      running := false;
    }
  }

  // ---------- runs ----------

  ghost predicate Run(states: seq<State>, es: seq<Event>) {
    && |states| == |es| + 1
    && states[0] == QUIET
    && forall n :: 0 <= n < |es| ==> Enabled(states[n], es[n]) && states[n + 1] == Next(states[n], es[n])
  }

  /** Exactly one loop runs on while `running` is set, the last one started, and none otherwise. */
  ghost predicate OneLoop(s: State) {
    && (s.running ==> s.loops > 0)
    && (forall l :: l in s.closed || l in s.alive ==> l < s.loops)
    && (forall l: Id :: l < s.loops && l !in s.closed <==> s.running && l + 1 == s.loops)
    && (forall l: Id :: l in s.alive && l !in s.closed <==> s.running && l + 1 == s.loops)
  }

  lemma {:induction false} OneLoopAlways(states: seq<State>, es: seq<Event>, n: nat)
    requires Run(states, es) && n < |states|
    ensures OneLoop(states[n])
  {
    if n > 0 { OneLoopAlways(states, es, n - 1); }
  }

  /** No stop channel is closed twice. */
  lemma NoDoubleClose(states: seq<State>, es: seq<Event>, n: nat)
    requires Run(states, es) && n < |es| && es[n].Halt? && states[n].running
    ensures states[n].loops > 0 && states[n].loops - 1 !in states[n].closed
  {
    OneLoopAlways(states, es, n);
  }

  /** At most the timer armed last is pending, and none once a loop has been started. */
  lemma {:induction false} OneTimerPending(states: seq<State>, es: seq<Event>, n: nat)
    requires Run(states, es) && n < |states|
    ensures forall t :: t in states[n].armed ==> t + 1 == states[n].timers
    ensures n > 0 && es[n - 1].Start? ==> states[n].armed == {}
    ensures n > 0 && es[n - 1].Arm? ==> states[n].armed == {states[n].timers - 1}
  {
    if n > 0 { OneTimerPending(states, es, n - 1); }
  }

  /** With nobody subscribed, a timer that fires, tests and halts undisturbed stops the loop. */
  lemma IdleLoopIsHalted(s: State, t: Id)
    requires s.subs == {} && s.running && s.loops > 0 && t in s.armed
    ensures var fired := Next(s, Fire(t));
            && Enabled(fired, Test(t))
            && var tested := Next(fired, Test(t));
               && Enabled(tested, Halt(t))
               && var halted := Next(tested, Halt(t));
                  !halted.running && halted.closed == s.closed + {s.loops - 1}
  {}

  /** With somebody subscribed, it does not get to the halt. */
  lemma BusyTestDoesNotHalt(s: State, t: Id)
    requires Enabled(s, Test(t)) && s.subs != {} && t !in s.idle
    ensures !Enabled(Next(s, Test(t)), Halt(t))
  {}

  /** The first subscriber's start launches a loop unless one still runs. */
  lemma FirstSubscriberStarts(s: State, i: Id)
    requires Enabled(s, Join(i)) && s.subs == {}
    ensures var joined := Next(s, Join(i));
            && Enabled(joined, Start(i))
            && var started := Next(joined, Start(i));
               started.running && started.loops == (if s.running then s.loops else s.loops + 1)
  {}

  /** Whoever is subscribed has a running loop, or one about to be started. */
  predicate Served(s: State) {
    s.subs != {} ==> s.running || s.starters != {}
  }

  /** `halt` is called although the sampler is no longer idle. */
  predicate LateHalt(s: State, e: Event) {
    e.Halt? && s.running && s.subs != {} && s.starters == {}
  }

  lemma StepServes(s: State, e: Event)
    requires Enabled(s, e) && Served(s)
    ensures Served(Next(s, e)) <==> !LateHalt(s, e)
  {}

  /** Subscribers are served throughout a run exactly when no callback halts late. */
  lemma {:induction false} ServedIffNoLateHalt(states: seq<State>, es: seq<Event>, n: nat)
    requires Run(states, es) && n < |states|
    ensures (forall k :: 0 <= k <= n ==> Served(states[k])) <==> (forall k :: 0 <= k < n ==> !LateHalt(states[k], es[k]))
  {
    if n > 0 {
      ServedIffNoLateHalt(states, es, n - 1);
      if Served(states[n - 1]) {
        StepServes(states[n - 1], es[n - 1]);
      }
      if LateHalt(states[n - 1], es[n - 1]) {
        assert !Served(states[n]);
      }
    }
  }

  /** With the callback's test and halt in one critical section, subscribers are always served. */
  lemma AtomicCallbackServes(states: seq<State>, es: seq<Event>, n: nat)
    requires Run(states, es) && n < |states|
    requires forall k :: 0 <= k < |es| && es[k].Halt? ==> k > 0 && es[k - 1] == Test(es[k].i)
    requires forall k :: 0 <= k < |es| && es[k].Test? && states[k].subs == {} ==>
               k + 1 == |es| || es[k + 1] == Halt(es[k].i)
    ensures Served(states[n])
  {
    forall k | 0 <= k < n
      ensures !LateHalt(states[k], es[k])
    {
      if es[k].Halt? && states[k].subs != {} {
        assert states[k].subs == states[k - 1].subs;
        IdleIsShort(states, es, k - 1);
      }
    }
    ServedIffNoLateHalt(states, es, n);
  }

  lemma {:induction false} IdleIsShort(states: seq<State>, es: seq<Event>, n: nat)
    requires Run(states, es) && n < |states|
    requires forall k :: 0 <= k < |es| && es[k].Halt? ==> k > 0 && es[k - 1] == Test(es[k].i)
    requires forall k :: 0 <= k < |es| && es[k].Test? && states[k].subs == {} ==>
               k + 1 == |es| || es[k + 1] == Halt(es[k].i)
    ensures states[n].idle == if n > 0 && es[n - 1].Test? && states[n - 1].subs == {} then {es[n - 1].i} else {}
  {
    if n > 0 { IdleIsShort(states, es, n - 1); }
  }

  /** As written they are not: a subscriber that joins between the test and the halt gets no loop. */
  lemma LingerRaceStalls() returns (states: seq<State>, es: seq<Event>)
    ensures Run(states, es) && !Served(states[|es|])
  {
    states, es := [QUIET], [];
    states, es := Extended(states, es, Join(0));
    states, es := Extended(states, es, Start(0));
    states, es := Extended(states, es, Leave(0));
    states, es := Extended(states, es, Arm);
    states, es := Extended(states, es, Fire(0));
    states, es := Extended(states, es, Test(0));
    states, es := Extended(states, es, Join(1));
    states, es := Extended(states, es, Start(1));
    states, es := Extended(states, es, Halt(0));
    assert 1 in states[|es|].subs;
  }

  lemma Extended(states: seq<State>, es: seq<Event>, e: Event) returns (states': seq<State>, es': seq<Event>)
    requires Run(states, es) && Enabled(states[|es|], e)
    ensures Run(states', es') && |es'| == |es| + 1
    ensures states'[|es'|] == Next(states[|es|], e)
  {
    states', es' := states + [Next(states[|es|], e)], es + [e];
  }

  /** Such a stall lasts: more subscribers do not end it, only the departure of the last one does. */
  lemma StallLastsUntilEmpty(s: State, e: Event)
    requires Enabled(s, e) && !Served(s)
    ensures Served(Next(s, e)) <==> e.Leave? && s.subs == {e.i}
  {}
}
