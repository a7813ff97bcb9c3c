/** One background worker at a time: statfsRemote per mount (agent/internal/collect/linux.go), the GPU cache and the
    intel_gpu_top process (gpu.go), the power cache (power.go). The busy flag is tested and set in one critical
    section; what a caller saw of it earlier, without or under a read lock, only decides whether it tries. */
module SingleFlight {
  import opened Common

  type WorkerId = nat
  type Key = string // the mount path, or the name of the one cache

  /** Per key (a path, or the only one of a cache): the busy flag and the last published result. */
  datatype Entry<V> = Entry(busy: bool, value: Option<V>)

  datatype State<V> = State(entries: map<Key, Entry<V>>, workers: map<WorkerId, Key>, launched: nat)

  datatype Event<V> =
    | Try(k: Key)                          // lock; if not busy: set busy and launch a worker
    | Publish(w: WorkerId, v: V)         // a worker that keeps running shows a result (intel_gpu_top)
    | Finish(w: WorkerId, v': Option<V>) // lock; clear busy, and store a result if there is one

  function Of<V>(s: State<V>, k: Key): Entry<V> {
    if k in s.entries then s.entries[k] else Entry(false, None)
  }

  predicate Enabled<V>(s: State<V>, e: Event<V>) {
    e.Try? || e.w in s.workers
  }

  function Next<V>(s: State<V>, e: Event<V>): State<V>
    requires Enabled(s, e)
  {
    match e
    case Try(k) =>
      if Of(s, k).busy then s
      else State(s.entries[k := Of(s, k).(busy := true)], s.workers[s.launched := k], s.launched + 1)
    case Publish(w, v) =>
      var k := s.workers[w];
      s.(entries := s.entries[k := Of(s, k).(value := Some(v))])
    case Finish(w, v) =>
      var k := s.workers[w];
      s.(entries := s.entries[k := Entry(false, if v.Some? then v else Of(s, k).value)], workers := s.workers - {w})
  }

  ghost predicate Run<V>(states: seq<State<V>>, es: seq<Event<V>>) {
    && |states| == |es| + 1
    && states[0] == State(map[], map[], 0)
    && forall n :: 0 <= n < |es| ==> Enabled(states[n], es[n]) && states[n + 1] == Next(states[n], es[n])
  }

  ghost predicate Working<V>(s: State<V>, k: Key) {
    exists w :: w in s.workers && s.workers[w] == k
  }

  ghost predicate SingleWorkers<V>(s: State<V>) {
    && (forall w :: w in s.workers ==> w < s.launched && Of(s, s.workers[w]).busy)
    && (forall w, w' :: w in s.workers && w' in s.workers && s.workers[w] == s.workers[w'] ==> w == w')
    && (forall k :: Of(s, k).busy ==> Working(s, k))
  }

  lemma SingleStep<V>(s: State<V>, e: Event<V>)
    requires Enabled(s, e) && SingleWorkers(s)
    ensures SingleWorkers(Next(s, e))
  {
    var t := Next(s, e);
    forall k | Of(t, k).busy
      ensures Working(t, k)
    {
      if e.Try? && e.k == k && !Of(s, k).busy {
        assert t.workers[s.launched] == k;
      } else {
        assert Working(s, k);
        var w :| w in s.workers && s.workers[w] == k;
        assert w in t.workers && t.workers[w] == k;
      }
    }
  }

  /** In every interleaving a key has at most one worker, and its busy flag is set exactly while that one lives. */
  lemma {:induction false} BusyIffOneWorker<V>(states: seq<State<V>>, es: seq<Event<V>>, n: nat)
    requires Run(states, es) && n < |states|
    ensures SingleWorkers(states[n])
    ensures forall k :: Of(states[n], k).busy <==> Working(states[n], k)
  {
    if n > 0 {
      BusyIffOneWorker(states, es, n - 1);
      SingleStep(states[n - 1], es[n - 1]);
    }
  }

  /** By the events alone: the last result published for `k`. */
  ghost function LastResult<V>(states: seq<State<V>>, es: seq<Event<V>>, k: Key, n: nat): Option<V>
    requires Run(states, es) && n < |states|
  {
    if n == 0 then None
    else
      var e := es[n - 1];
      if e.Publish? && states[n - 1].workers[e.w] == k then Some(e.v)
      else if e.Finish? && e.v'.Some? && states[n - 1].workers[e.w] == k then e.v'
      else LastResult(states, es, k, n - 1)
  }

  /** Whoever reads an entry, whenever, gets the most recently completed result for that key. */
  lemma {:induction false} ReadersSeeLastResult<V>(
    states: seq<State<V>>, es: seq<Event<V>>, k: Key, n: nat)
    requires Run(states, es) && n < |states|
    ensures Of(states[n], k).value == LastResult(states, es, k, n)
  {
    if n > 0 { ReadersSeeLastResult(states, es, k, n - 1); }
  }

  // ---------- statfsRemote ----------

  /** The map of remote mounts; no value stands for the zero Statfs_t with `false`. */
  class RemoteStats<V(==)> {
    var stats: map<Key, Entry<V>>
    ghost var workers: map<WorkerId, Key>
    ghost var launched: nat

    ghost function Now(): State<V>
      reads this
    {
      State(stats, workers, launched)
    }

    constructor ()
      ensures Now() == State(map[], map[], 0)
    {
      stats, workers, launched := map[], map[], 0;
    }

    /** The first critical section: either the cached result, or a worker to wait for. */
    method Enter(path: Key) returns (launch: bool, cached: Option<V>, ghost w: WorkerId)
      requires SingleWorkers(Now())
      modifies this
      ensures Now() == Next(old(Now()), Try(path)) && SingleWorkers(Now())
      ensures launch <==> !Of(old(Now()), path).busy
      ensures cached == Of(Now(), path).value
      ensures launch ==> w !in old(workers) && workers == old(workers)[w := path]
    {
      SingleStep(Now(), Try(path));
      var rs := if path in stats then stats[path] else Entry(false, None);
      w := launched;
      if rs.busy {
        return false, rs.value, w;
      }
      stats := stats[path := rs.(busy := true)];
      workers, launched := workers[launched := path], launched + 1;
      return true, rs.value, w;
    }

    /** The worker's critical section, when its statfs returns. */
    method Complete(path: Key, result: V, ghost w: WorkerId)
      requires SingleWorkers(Now()) && w in workers && workers[w] == path
      modifies this
      ensures Now() == Next(old(Now()), Finish(w, Some(result))) && SingleWorkers(Now())
      ensures !Working(Now(), path)
    {
      SingleStep(Now(), Finish(w, Some(result)));
      stats := stats[path := Entry(false, Some(result))];
      workers := workers - {w};
    }

    /** The last critical section of a caller that waited, whether the worker finished or the wait ran out. */
    method Leave(path: Key) returns (result: Option<V>)
      ensures result == Of(Now(), path).value
    {
      return if path in stats then stats[path].value else None;
    }
  }

  // ---------- the GPU cache ----------

  const ONLY: Key := "the one worker of a cache"

  class GpuCache<V(==)> {
    var gpus: Option<V>
    var refreshing: bool
    ghost var now: State<V>

    ghost predicate Valid()
      reads this
    {
      SingleWorkers(now) && Of(now, ONLY) == Entry(refreshing, gpus)
    }

    constructor ()
      ensures Valid() && now == State(map[], map[], 0)
    {
      gpus, refreshing, now := None, false, State(map[], map[], 0);
    }

    /** The second lock section of `get`. */
    method TryRefresh() returns (launch: bool, ghost w: WorkerId)
      requires Valid()
      modifies this
      ensures Valid() && now == Next(old(now), Try(ONLY))
      ensures launch <==> !Working(old(now), ONLY)
      ensures launch ==> w in now.workers && now.workers[w] == ONLY
    {
      SingleStep(now, Try(ONLY));
      assert Working(now, ONLY) <==> refreshing;
      w := now.launched;
      now := Next(now, Try(ONLY));
      launch := !refreshing;
      refreshing := true;
    }

    /** The worker's lock section. */
    method Store(collected: V, ghost w: WorkerId)
      requires Valid() && w in now.workers && now.workers[w] == ONLY
      modifies this
      ensures Valid() && now == Next(old(now), Finish(w, Some(collected)))
      ensures gpus == Some(collected) && !Working(now, ONLY)
    {
      SingleStep(now, Finish(w, Some(collected)));
      now := Next(now, Finish(w, Some(collected)));
      gpus, refreshing := Some(collected), false;
    }
  }

  // ---------- intel_gpu_top ----------

  /** The monitor shows a measurement or an error text; a stopped one that ever ran shows exactly one of them. */
  class IntelMonitor<V(==)> {
    var running: bool
    var latest: Option<V>
    var lastErr: string
    ghost var now: State<Option<V>>

    ghost predicate Valid()
      reads this
    {
      && SingleWorkers(now) && Of(now, ONLY).busy == running
      && latest == (if Of(now, ONLY).value.Some? then Of(now, ONLY).value.value else None)
      && (latest.Some? ==> lastErr == "")
      && (!running && now.launched > 0 ==> latest.Some? || lastErr != "")
    }

    constructor ()
      ensures Valid() && now == State(map[], map[], 0)
    {
      running, latest, lastErr, now := false, None, "", State(map[], map[], 0);
    }

    /** The lock section of `sample`. */
    method Sample() returns (launch: bool, s: Option<V>, err: string, ghost w: WorkerId)
      requires Valid()
      modifies this
      ensures Valid() && now == Next(old(now), Try(ONLY))
      ensures launch <==> !Working(old(now), ONLY)
      ensures launch ==> w in now.workers && now.workers[w] == ONLY
      ensures s == old(latest) && err == old(lastErr)
    {
      SingleStep(now, Try(ONLY));
      assert Working(now, ONLY) <==> running;
      w := now.launched;
      now := Next(now, Try(ONLY));
      launch := !running;
      running := true;
      s, err := latest, lastErr;
    }

    /** A process that cannot be started ends the worker. */
    method Fail(msg: string, ghost w: WorkerId)
      requires Valid() && w in now.workers && now.workers[w] == ONLY && msg != ""
      modifies this
      ensures Valid() && now == Next(old(now), Finish(w, Some(None)))
      ensures latest == None && lastErr == msg && !Working(now, ONLY)
    {
      SingleStep(now, Finish(w, Some(None)));
      now := Next(now, Finish(w, Some(None)));
      lastErr, latest, running := msg, None, false;
    }

    /** A block of the stream that holds a measurement. */
    method Show(s: V, ghost w: WorkerId)
      requires Valid() && w in now.workers && now.workers[w] == ONLY
      modifies this
      ensures Valid() && now == Next(old(now), Publish(w, Some(s)))
      ensures latest == Some(s) && Working(now, ONLY)
    {
      SingleStep(now, Publish(w, Some(s)));
      now := Next(now, Publish(w, Some(s)));
      assert now.workers[w] == ONLY;
      latest, lastErr := Some(s), "";
    }

    /** The process has ended; `stderr` is what it left, trimmed. */
    method Exit(stderr: string, ghost w: WorkerId)
      requires Valid() && w in now.workers && now.workers[w] == ONLY
      modifies this
      ensures Valid() && now == Next(old(now), Finish(w, None))
      ensures latest == old(latest) && !Working(now, ONLY)
      ensures latest.Some? || old(lastErr) != "" ==> lastErr == old(lastErr)
      ensures latest.None? && old(lastErr) == "" ==> lastErr != "" && IsFirstLine(lastErr, stderr)
    {
      SingleStep(now, Finish(w, None));
      now := Next(now, Finish(w, None));
      running := false;
      if latest.None? && lastErr == "" {
        lastErr := FirstLine(stderr);
      }
    }

    /** Of a text that begins with no line break; a stock message stands for an empty one. */
    ghost predicate IsFirstLine(msg: string, text: string) {
      if text == "" then msg == "no usable output"
      else text[0] != '\n' ==>
        msg <= text && (forall j :: 0 <= j < |msg| ==> msg[j] != '\n') && (msg == text || text[|msg|] == '\n')
    }

    method FirstLine(text: string) returns (msg: string)
      ensures msg != "" && IsFirstLine(msg, text)
    {
      msg := text;
      var i := 0;
      while i < |text| && text[i] != '\n'
        invariant 0 <= i <= |text| && forall j :: 0 <= j < i ==> text[j] != '\n'
      {
        i := i + 1;
      }
      if 0 < i < |text| {
        msg := text[..i];
      }
      if msg == "" {
        msg := "no usable output";
      }
    }
  }
}
