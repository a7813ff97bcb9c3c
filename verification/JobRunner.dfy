/** The job table of agent/internal/tools/jobs.go: submission, the job goroutines, cancellation and clean-up. */
module JobRunner {
  import opened Common

  type JobId = string

  datatype Progress = Queued | Running | Done | Failed

  /** What the table says about a job; `ctx` is the context its `cancel` function cancels. */
  datatype Entry<C> = Entry(kind: string, state: Progress, startedAt: nat, endedAt: nat, cancelled: bool, ctx: C)

  datatype Table<C> = Table(jobs: map<JobId, Entry<C>>, running: int, maxPar: nat)

  const KEEP_SECONDS := 300.0

  // ---------- the critical sections, on values ----------

  predicate Live<C>(e: Entry<C>) {
    e.state == Queued || e.state == Running
  }

  predicate Exclusive(kind: string) {
    kind == "speedtest" || kind == "geekbench" || kind == "iperf3"
  }

  ghost predicate Accepts<C>(t: Table<C>, kind: string) {
    && t.running < t.maxPar
    && (Exclusive(kind) ==> forall id :: id in t.jobs && t.jobs[id].kind == kind ==> !Live(t.jobs[id]))
  }

  function Submitted<C>(t: Table<C>, id: JobId, kind: string, ctx: C, now: nat): Table<C> {
    t.(jobs := t.jobs[id := Entry(kind, Queued, now, 0, false, ctx)], running := t.running + 1)
  }

  function Begun<C>(t: Table<C>, id: JobId): Table<C> {
    if id in t.jobs then t.(jobs := t.jobs[id := t.jobs[id].(state := Running)]) else t
  }

  function Ended<C>(t: Table<C>, id: JobId, ok: bool, canceled: bool, now: nat): Table<C> {
    var u := t.(running := t.running - 1);
    if id !in t.jobs then u
    else
      var e := t.jobs[id].(endedAt := now, state := if ok then Done else Failed);
      u.(jobs := u.jobs[id := if !ok && canceled then e.(cancelled := true) else e])
  }

  predicate Cancellable<C>(t: Table<C>, id: JobId) {
    id in t.jobs && Live(t.jobs[id])
  }

  predicate Stale<C>(e: Entry<C>, now: real) {
    e.endedAt > 0 && now - e.endedAt as real > KEEP_SECONDS
  }

  function Swept<C>(t: Table<C>, now: real): Table<C> {
    t.(jobs := map id | id in t.jobs && !Stale(t.jobs[id], now) :: t.jobs[id])
  }

  // ---------- the code, on its own objects ----------

  datatype CtxErr = Active | Canceled | DeadlineExceeded

  class Context {
    var err: CtxErr

    constructor ()
      ensures err == Active
    {
      err := Active;
    }

    /** The first cause wins. */
    method Cancel()
      modifies this
      ensures err == if old(err) == Active then Canceled else old(err)
    {
      if err == Active {
        err := Canceled;
      }
    }
  }

  class Job {
    const id: JobId
    const kind: string
    const ctx: Context
    var state: Progress
    var startedAt: nat
    var endedAt: nat
    var cancelled: bool

    constructor (id: JobId, kind: string, ctx: Context, now: nat)
      ensures this.id == id && this.ctx == ctx && Value() == Entry(kind, Queued, now, 0, false, ctx)
    {
      this.id, this.kind, this.ctx, state, startedAt, endedAt, cancelled := id, kind, ctx, Queued, now, 0, false;
    }

    ghost function Value(): Entry<Context>
      reads this
    {
      Entry(kind, state, startedAt, endedAt, cancelled, ctx)
    }

    method Finish(ok: bool, canceled: bool, now: nat)
      modifies this
      ensures Value() == old(Value()).(endedAt := now, state := if ok then Done else Failed,
                                       cancelled := old(cancelled) || (!ok && canceled))
    {
      endedAt := now;
      if !ok {
        state := Failed;
        if canceled {
          cancelled := true;
        }
      } else {
        state := Done;
      }
    }
  }

  class Runner {
    var jobs: map<JobId, Job>
    var running: int
    const maxPar: nat

    ghost predicate Valid()
      reads this`jobs
    {
      forall id :: id in jobs ==> jobs[id].id == id
    }

    ghost function Jobs(): map<JobId, Entry<Context>>
      reads this`jobs, jobs.Values
    {
      map id | id in jobs :: jobs[id].Value()
    }

    /** The table is `t`. */
    ghost predicate Is(t: Table<Context>)
      reads this`jobs, this`running, jobs.Values
    {
      Jobs() == t.jobs && running == t.running && maxPar == t.maxPar
    }

    ghost function Contents(): Table<Context>
      reads this`jobs, this`running, jobs.Values
    {
      Table(Jobs(), running, maxPar)
    }

    constructor ()
      ensures Valid() && Is(Table(map[], 0, 2))
    {
      jobs, running, maxPar := map[], 0, 2;
    }

    method HasLive(kind: string) returns (found: bool)
      ensures found <==> exists id :: id in jobs && jobs[id].kind == kind && Live(jobs[id].Value())
    {
      var todo := jobs.Keys;
      while todo != {}
        invariant todo <= jobs.Keys
        invariant forall id :: id in jobs && id !in todo && jobs[id].kind == kind ==> !Live(jobs[id].Value())
        decreases todo
      {
        var id :| id in todo;
        var j := jobs[id];
        if j.kind == kind && (j.state == Running || j.state == Queued) {
          return true;
        }
        todo := todo - {id};
      }
      return false;
    }

    method Enter(job: Job)
      requires Valid()
      modifies this
      ensures Valid() && Jobs() == old(Jobs())[job.id := job.Value()] && running == old(running) + 1
      ensures job.id in jobs && jobs[job.id] == job
    {
      jobs := jobs[job.id := job];
      assert Jobs() == old(Jobs())[job.id := job.Value()];
      running := running + 1;
    }

    method Refuses(kind: string) returns (refuses: bool)
      ensures refuses <==> !Accepts(Contents(), kind)
    {
      if running >= maxPar {
        return true;
      }
      if kind == "speedtest" || kind == "geekbench" || kind == "iperf3" {
        refuses := HasLive(kind);
        assert forall id :: id in jobs ==> Jobs()[id] == jobs[id].Value();
      } else {
        refuses := false;
      }
    }

    method Submit(id: JobId, kind: string, now: nat) returns (j: Job?)
      requires Valid()
      modifies this
      ensures Valid() && (j != null <==> Accepts(old(Contents()), kind))
      ensures j == null ==> Is(old(Contents()))
      ensures j != null ==> fresh(j) && fresh(j.ctx) && j.ctx.err == Active
                            && Is(Submitted(old(Contents()), id, kind, j.ctx, now))
      ensures j != null ==> id in jobs && jobs[id] == j && j.Value() == Entry(kind, Queued, now, 0, false, j.ctx)
    {
      var refuses := Refuses(kind);
      if refuses {
        return null;
      }
      var ctx := new Context();
      var job := new Job(id, kind, ctx, now);
      Enter(job);
      return job;
    }

    /** The goroutine's first critical section. */
    method Begin(id: JobId)
      requires Valid()
      modifies jobs.Values
      ensures Valid() && Is(Begun(old(Contents()), id))
    {
      if id in jobs {
        jobs[id].state := Running;
        assert Jobs() == Begun(old(Contents()), id).jobs;
      }
    }

    /** The goroutine's last critical section; `ctx` is its own context, whatever the table holds by now. */
    method End(id: JobId, ctx: Context, ok: bool, now: nat)
      requires Valid()
      modifies this`running, jobs.Values
      ensures Valid() && Is(Ended(old(Contents()), id, ok, ctx.err == Canceled, now))
    {
      running := running - 1;
      if id in jobs {
        ghost var was := Jobs();
        jobs[id].Finish(ok, ctx.err == Canceled, now);
        assert Jobs() == was[id := jobs[id].Value()];
      }
    }

    method Cancel(id: JobId) returns (found: bool)
      requires Valid()
      modifies if id in jobs then {jobs[id].ctx} else {}
      ensures found <==> Cancellable(old(Contents()), id)
      ensures Is(old(Contents()))
      ensures found ==> jobs[id].ctx.err == if old(jobs[id].ctx.err) == Active then Canceled else old(jobs[id].ctx.err)
      ensures !found && id in jobs ==> jobs[id].ctx.err == old(jobs[id].ctx.err)
    {
      assert id in jobs ==> Contents().jobs[id] == jobs[id].Value();
      if id !in jobs || (jobs[id].state != Running && jobs[id].state != Queued) {
        return false;
      }
      jobs[id].ctx.Cancel();
      return true;
    }

    /** One tick of the clean-up loop. */
    method Gc(now: real)
      requires Valid()
      modifies this`jobs
      ensures Valid() && Is(Swept(old(Contents()), now))
    {
      var todo := jobs.Keys;
      while todo != {}
        invariant todo <= jobs.Keys <= old(jobs.Keys) && Valid()
        invariant forall id :: id in jobs ==> jobs[id] == old(jobs[id])
        invariant forall id :: id in old(jobs) && id !in todo ==> (id in jobs <==> !Stale(old(jobs[id].Value()), now))
        decreases todo
      {
        var id :| id in todo;
        var j := jobs[id];
        if j.endedAt > 0 && now - j.endedAt as real > KEEP_SECONDS {
          jobs := jobs - {id};
        }
        todo := todo - {id};
      }
    }
  }

  // ---------- every interleaving ----------

  /** A job goroutine that has not finished; its number is also that of its context. */
  datatype Proc = Proc(id: JobId, kind: string, begun: bool, err: CtxErr)

  datatype State = State(table: Table<nat>, procs: map<nat, Proc>, started: nat)

  datatype Event =
    | Submit(id: JobId, kind: string, now: nat)
    | Begin(p: nat)
    | End(p: nat, ok: bool, now: nat)
    | Deadline(p: nat)
    | Cancel(id: JobId)
    | Gc(at: real)

  predicate Enabled(s: State, e: Event) {
    match e
    case Begin(p) => p in s.procs && !s.procs[p].begun
    case End(p, _, _) => p in s.procs && s.procs[p].begun
    case Deadline(p) => p in s.procs
    case _ => true
  }

  function Stopped(p: Proc, cause: CtxErr): Proc {
    if p.err == Active then p.(err := cause) else p
  }

  ghost function Next(s: State, e: Event): State
    requires Enabled(s, e)
  {
    match e
    case Submit(id, kind, now) =>
      if !Accepts(s.table, kind) then s
      else State(Submitted(s.table, id, kind, s.started, now),
                 s.procs[s.started := Proc(id, kind, false, Active)], s.started + 1)
    case Begin(p) => s.(table := Begun(s.table, s.procs[p].id), procs := s.procs[p := s.procs[p].(begun := true)])
    case End(p, ok, now) =>
      s.(table := Ended(s.table, s.procs[p].id, ok, s.procs[p].err == Canceled, now), procs := s.procs - {p})
    case Deadline(p) => s.(procs := s.procs[p := Stopped(s.procs[p], DeadlineExceeded)])
    case Cancel(id) =>
      if !Cancellable(s.table, id) || s.table.jobs[id].ctx !in s.procs then s
      else var p := s.table.jobs[id].ctx; s.(procs := s.procs[p := Stopped(s.procs[p], Canceled)])
    case Gc(now) => s.(table := Swept(s.table, now))
  }

  /** The slots: `running` counts the unfinished goroutines and never exceeds the cap, whatever IDs are drawn. */
  ghost predicate SlotsMatch(s: State) {
    && s.table.running == |s.procs| <= s.table.maxPar
    && forall p :: p in s.procs ==> p < s.started
  }

  lemma SlotsStep(s: State, e: Event)
    requires Enabled(s, e) && SlotsMatch(s)
    ensures SlotsMatch(Next(s, e))
  {
    var t := Next(s, e);
    match e
    case Submit(_, kind, _) =>
      if Accepts(s.table, kind) {
        assert t.procs.Keys == s.procs.Keys + {s.started};
      }
    case End(p, _, _) => assert t.procs.Keys == s.procs.Keys - {p};
    case Begin(p) => assert t.procs.Keys == s.procs.Keys;
    case _ => assert t.procs.Keys == s.procs.Keys;
  }

  /** Unfinished goroutine `p` and the entry of its job agree. */
  ghost predicate Tracked(s: State, p: nat)
    requires p in s.procs
  {
    var x := s.procs[p];
    && x.id in s.table.jobs
    && var e := s.table.jobs[x.id];
       e.ctx == p && e.kind == x.kind && e.state == (if x.begun then Running else Queued)
       && e.endedAt == 0 && !e.cancelled
  }

  /** The queued and running entries are exactly the unfinished goroutines. */
  ghost predicate TableMatches(s: State) {
    && (forall p :: p in s.procs ==> p < s.started && Tracked(s, p))
    && (forall id :: id in s.table.jobs ==> s.table.jobs[id].ctx < s.started)
    && (forall id :: id in s.table.jobs && Live(s.table.jobs[id]) ==>
          s.table.jobs[id].ctx in s.procs && s.procs[s.table.jobs[id].ctx].id == id)
  }

  /** At most one unfinished goroutine of each exclusive kind. */
  ghost predicate OneOfEachKind(s: State) {
    forall p, q :: p in s.procs && q in s.procs && s.procs[p].kind == s.procs[q].kind && Exclusive(s.procs[p].kind) ==>
      p == q
  }

  /** A drawn ID does not hit a job that is still queued or running. */
  predicate FreshId(s: State, e: Event) {
    e.Submit? && e.id in s.table.jobs ==> !Live(s.table.jobs[e.id])
  }

  lemma SubmitKeepsMatch(s: State, e: Event)
    requires e.Submit? && TableMatches(s) && OneOfEachKind(s) && FreshId(s, e)
    ensures TableMatches(Next(s, e)) && OneOfEachKind(Next(s, e))
  {
    var t := Next(s, e);
    forall p | p in s.procs
      ensures Tracked(t, p) && (Accepts(s.table, e.kind) && Exclusive(e.kind) ==> s.procs[p].kind != e.kind)
    {
      assert Tracked(s, p);
    }
  }

  lemma BeginKeepsMatch(s: State, e: Event)
    requires e.Begin? && Enabled(s, e) && TableMatches(s)
    ensures TableMatches(Next(s, e))
  {
    var t := Next(s, e);
    assert Tracked(s, e.p);
    forall p | p in t.procs ensures Tracked(t, p) { assert Tracked(s, p); }
  }

  lemma EndKeepsMatch(s: State, e: Event)
    requires e.End? && Enabled(s, e) && TableMatches(s)
    ensures TableMatches(Next(s, e))
  {
    var t := Next(s, e);
    assert Tracked(s, e.p);
    forall p | p in t.procs ensures Tracked(t, p) { assert Tracked(s, p); }
  }

  lemma GcKeepsMatch(s: State, e: Event)
    requires e.Gc? && TableMatches(s)
    ensures TableMatches(Next(s, e))
  {
    var t := Next(s, e);
    forall p | p in s.procs ensures Tracked(t, p) { assert Tracked(s, p); }
  }

  lemma StopKeepsMatch(s: State, e: Event)
    requires (e.Cancel? || e.Deadline?) && Enabled(s, e) && TableMatches(s) && OneOfEachKind(s)
    ensures TableMatches(Next(s, e)) && OneOfEachKind(Next(s, e))
  {
    var t := Next(s, e);
    forall p | p in t.procs
      ensures p in s.procs && t.procs[p].(err := Active) == s.procs[p].(err := Active) && Tracked(t, p)
    {
      assert Tracked(s, p);
    }
  }

  lemma MatchStep(s: State, e: Event)
    requires Enabled(s, e) && TableMatches(s) && OneOfEachKind(s) && FreshId(s, e)
    ensures TableMatches(Next(s, e)) && OneOfEachKind(Next(s, e))
  {
    match e
    case Submit(_, _, _) => SubmitKeepsMatch(s, e);
    case Begin(_) => BeginKeepsMatch(s, e);
    case End(_, _, _) => EndKeepsMatch(s, e);
    case Gc(_) => GcKeepsMatch(s, e);
    case _ => StopKeepsMatch(s, e);
  }

  /** Freshness is exactly what keeps table and goroutines matched: an accepted job that draws the ID of a live one
      leaves that one's goroutine without its entry. */
  lemma SubmitMatchesIffFresh(s: State, e: Event)
    requires e.Submit? && Accepts(s.table, e.kind) && TableMatches(s) && OneOfEachKind(s)
    ensures TableMatches(Next(s, e)) <==> FreshId(s, e)
  {
    if FreshId(s, e) {
      MatchStep(s, e);
    } else {
      var p := s.table.jobs[e.id].ctx;
      assert p in Next(s, e).procs && !Tracked(Next(s, e), p);
    }
  }

  // ---------- runs ----------

  ghost predicate Run(states: seq<State>, es: seq<Event>, maxPar: nat) {
    && |states| == |es| + 1
    && states[0] == State(Table(map[], 0, maxPar), map[], 0)
    && forall i :: 0 <= i < |es| ==> Enabled(states[i], es[i]) && states[i + 1] == Next(states[i], es[i])
  }

  ghost predicate FreshRun(states: seq<State>, es: seq<Event>, maxPar: nat) {
    Run(states, es, maxPar) && forall i :: 0 <= i < |es| ==> FreshId(states[i], es[i])
  }

  lemma {:induction false} SlotsAlwaysMatch(states: seq<State>, es: seq<Event>, maxPar: nat, n: nat)
    requires Run(states, es, maxPar) && n < |states|
    ensures SlotsMatch(states[n]) && states[n].table.maxPar == maxPar
  {
    if n > 0 {
      SlotsAlwaysMatch(states, es, maxPar, n - 1);
      SlotsStep(states[n - 1], es[n - 1]);
    }
  }

  /** In every interleaving with fresh IDs the live entries are exactly the unfinished goroutines, at most one of
      each exclusive kind. */
  lemma {:induction false} AlwaysMatched(states: seq<State>, es: seq<Event>, maxPar: nat, n: nat)
    requires FreshRun(states, es, maxPar) && n < |states|
    ensures TableMatches(states[n]) && OneOfEachKind(states[n])
  {
    if n > 0 {
      AlwaysMatched(states, es, maxPar, n - 1);
      MatchStep(states[n - 1], es[n - 1]);
    }
  }

  /** At most one unfinished goroutine each for speedtests, Geekbench runs and iperf3 runs. */
  lemma OneOfEachHeavyKind(states: seq<State>, es: seq<Event>, maxPar: nat, n: nat, p: nat, q: nat)
    requires FreshRun(states, es, maxPar) && n < |states|
    requires p in states[n].procs && q in states[n].procs && states[n].procs[p].kind == states[n].procs[q].kind
    requires var kind := states[n].procs[p].kind; kind == "speedtest" || kind == "geekbench" || kind == "iperf3"
    ensures p == q
  {
    AlwaysMatched(states, es, maxPar, n);
  }

  /** Unfinished goroutine `p` runs a job of that kind. */
  predicate Runs(s: State, p: nat, kind: string) {
    p in s.procs && s.procs[p].kind == kind
  }

  /** In every interleaving a submission is accepted if and only if a slot is free and, for the three heavy kinds, no
      unfinished goroutine is of that kind; any other kind is refused only at the cap. */
  lemma AcceptedIff(states: seq<State>, es: seq<Event>, maxPar: nat, n: nat, kind: string)
    requires FreshRun(states, es, maxPar) && n < |states|
    ensures Accepts(states[n].table, kind) <==>
              && |states[n].procs| < maxPar
              && (kind == "speedtest" || kind == "geekbench" || kind == "iperf3" ==>
                    forall p :: !Runs(states[n], p, kind))
  {
    var s := states[n];
    SlotsAlwaysMatch(states, es, maxPar, n);
    AlwaysMatched(states, es, maxPar, n);
    forall p | Runs(s, p, kind)
      ensures s.procs[p].id in s.table.jobs && Live(s.table.jobs[s.procs[p].id])
              && s.table.jobs[s.procs[p].id].kind == kind
    {
      assert Tracked(s, p);
    }
    forall id | id in s.table.jobs && s.table.jobs[id].kind == kind && Live(s.table.jobs[id])
      ensures Runs(s, s.table.jobs[id].ctx, kind)
    {
      assert Tracked(s, s.table.jobs[id].ctx);
    }
  }

  /** What the table says of a job after its goroutine starts, and after it ends. */
  lemma EntryRecordsGoroutine(states: seq<State>, es: seq<Event>, maxPar: nat, n: nat)
    requires FreshRun(states, es, maxPar) && n < |es| && (es[n].Begin? || es[n].End?)
    ensures var s, t, e := states[n], states[n + 1], es[n];
            var x := s.procs[e.p];
            && x.id in s.table.jobs && x.id in t.table.jobs
            && t.table.jobs[x.id] ==
               if e.Begin? then s.table.jobs[x.id].(state := Running)
               else s.table.jobs[x.id].(state := if e.ok then Done else Failed, endedAt := e.now,
                                        cancelled := !e.ok && x.err == Canceled)
  {
    AlwaysMatched(states, es, maxPar, n);
    assert Tracked(states[n], es[n].p);
  }

  /** A cancellable job is one with an unfinished goroutine, and cancelling it ends that goroutine's context unless it
      has ended already, and no other. */
  lemma CancelTakesEffect(states: seq<State>, es: seq<Event>, maxPar: nat, n: nat, id: JobId)
    requires FreshRun(states, es, maxPar) && n < |states|
    ensures Cancellable(states[n].table, id) <==> exists p :: p in states[n].procs && states[n].procs[p].id == id
    ensures n < |es| && es[n] == Cancel(id) ==>
              && states[n + 1].procs.Keys == states[n].procs.Keys
              && forall p :: p in states[n].procs ==>
                   states[n + 1].procs[p].err ==
                   if states[n].procs[p].id == id && states[n].procs[p].err == Active then Canceled
                   else states[n].procs[p].err
  {
    var s := states[n];
    AlwaysMatched(states, es, maxPar, n);
    forall p | p in s.procs
      ensures s.procs[p].id == id ==> Cancellable(s.table, id) && s.table.jobs[id].ctx == p
    {
      assert Tracked(s, p);
    }
    if Cancellable(s.table, id) {
      assert s.procs[s.table.jobs[id].ctx].id == id;
    }
  }

  /** The clean-up drops exactly the jobs that ended over 300 seconds ago. */
  lemma SweptIff<C>(t: Table<C>, id: JobId, now: real)
    ensures id in Swept(t, now).jobs <==>
              id in t.jobs && (t.jobs[id].endedAt == 0 || now - t.jobs[id].endedAt as real <= 300.0)
    ensures id in Swept(t, now).jobs ==> Swept(t, now).jobs[id] == t.jobs[id]
  {}

  function Rank(p: Progress): nat {
    match p case Queued => 0 case Running => 1 case Done => 2 case Failed => 2
  }

  /** The entry of one and the same job moves only queued, running, then done or failed, and is final then; a live
      entry is never dropped, by the clean-up or anything else. */
  lemma StatesMoveForward(states: seq<State>, es: seq<Event>, maxPar: nat, n: nat, id: JobId)
    requires FreshRun(states, es, maxPar) && n < |es| && id in states[n].table.jobs
    ensures var e := states[n].table.jobs[id];
            && (Live(e) ==> id in states[n + 1].table.jobs && states[n + 1].table.jobs[id].ctx == e.ctx)
            && (id in states[n + 1].table.jobs && states[n + 1].table.jobs[id].ctx == e.ctx ==>
                  var e' := states[n + 1].table.jobs[id];
                  Rank(e.state) <= Rank(e'.state) <= Rank(e.state) + 1 && (!Live(e) ==> e' == e))
  {
    AlwaysMatched(states, es, maxPar, n);
    var s, ev := states[n], es[n];
    if (ev.Begin? || ev.End?) && s.procs[ev.p].id == id {
      assert Tracked(s, ev.p);
    }
    if Live(s.table.jobs[id]) {
      assert Tracked(s, s.table.jobs[id].ctx);
    }
  }

  /** Event `k` is a `Cancel` call that found goroutine `p`'s job live. */
  ghost predicate CancelledAt(states: seq<State>, es: seq<Event>, k: nat, id: JobId, p: nat)
    requires |states| == |es| + 1
  {
    k < |es| && es[k] == Cancel(id) && Cancellable(states[k].table, id) && states[k].table.jobs[id].ctx == p
  }

  lemma OnlyCancelCancels(s: State, e: Event, p: nat)
    requires Enabled(s, e) && TableMatches(s)
    requires p in Next(s, e).procs && Next(s, e).procs[p].err == Canceled
    requires p in s.procs ==> s.procs[p].err != Canceled
    ensures p in s.procs && Next(s, e).procs[p].id == s.procs[p].id
    ensures e == Cancel(s.procs[p].id) && Cancellable(s.table, e.id) && s.table.jobs[e.id].ctx == p
  {}

  lemma {:induction false} CanceledContextWasAsked(states: seq<State>, es: seq<Event>, maxPar: nat, n: nat, p: nat)
    returns (k: nat)
    requires FreshRun(states, es, maxPar) && n < |states|
    requires p in states[n].procs && states[n].procs[p].err == Canceled
    ensures k < n && CancelledAt(states, es, k, states[n].procs[p].id, p)
  {
    var s, e := states[n - 1], es[n - 1];
    AlwaysMatched(states, es, maxPar, n - 1);
    if p in s.procs && s.procs[p].err == Canceled {
      assert states[n].procs[p].id == s.procs[p].id;
      k := CanceledContextWasAsked(states, es, maxPar, n - 1, p);
    } else {
      OnlyCancelCancels(s, e, p);
      k := n - 1;
    }
  }

  lemma OnlyEndSetsCancelled(s: State, e: Event, id: JobId)
    requires Enabled(s, e) && TableMatches(s) && id in Next(s, e).table.jobs
    requires var e' := Next(s, e).table.jobs[id];
             e'.cancelled && (id in s.table.jobs ==> !s.table.jobs[id].cancelled || s.table.jobs[id].ctx != e'.ctx)
    ensures e.End? && s.procs[e.p].id == id && s.procs[e.p].err == Canceled
    ensures Next(s, e).table.jobs[id].ctx == e.p
  {
    if e.End? && s.procs[e.p].id == id {
      assert Tracked(s, e.p);
    }
  }

  /** `Cancelled` is set only on a job on which `Cancel` was called while it was queued or running. */
  lemma {:induction false} CancelledOnlyIfAsked(states: seq<State>, es: seq<Event>, maxPar: nat, n: nat, id: JobId)
    returns (k: nat)
    requires FreshRun(states, es, maxPar) && n < |states|
    requires id in states[n].table.jobs && states[n].table.jobs[id].cancelled
    ensures k < n && CancelledAt(states, es, k, id, states[n].table.jobs[id].ctx)
  {
    var s, e := states[n - 1], es[n - 1];
    AlwaysMatched(states, es, maxPar, n - 1);
    if id in s.table.jobs && s.table.jobs[id].cancelled && s.table.jobs[id].ctx == states[n].table.jobs[id].ctx {
      k := CancelledOnlyIfAsked(states, es, maxPar, n - 1, id);
    } else {
      OnlyEndSetsCancelled(s, e, id);
      k := CanceledContextWasAsked(states, es, maxPar, n - 1, e.p);
    }
  }
}
