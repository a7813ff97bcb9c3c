/** Any number of pairing requests (handleEnroll) running at once, interleaved between their calls of the store
    with the administrator opening and closing windows and with crashes. */
module Enrollment {
  import D = Devices
  import W = PairingWindow

  type Time = D.Time
  type Handler = nat

  /** Where a request is: between two calls of the store. `window` numbers the window its code was checked against. */
  datatype Phase = Opened | Checked(window: nat) | Added(window: nat) | Finished

  datatype State = State(
    store: D.State, window: W.Window, maxAttempts: nat,
    windows: nat,                     // how many were ever opened; the latest has this number
    handlers: map<Handler, Phase>,
    paired: map<Handler, nat>)        // the requests whose device got onto the disk, and their windows

  datatype Event =
    | AdminOpen(code: string, d: nat, now: Time)
    | AdminClose(now: Time)
    | Arrive(h: Handler, now: Time)               // EnrollmentOpen
    | Guess(h: Handler, guess: string, now: Time) // CheckEnrollCode
    | GiveUp(h: Handler)                          // unreadable body, bad key, no certificate
    | Save(h: Handler, device: D.Device, outcome: D.Outcome)
    | CloseAfter(h: Handler, now: Time)           // CloseEnrollment after a successful Add
    | Crash(readable: bool)                       // a restart at any other moment

  predicate Enabled(s: State, e: Event) {
    match e
    case AdminOpen(code, _, _) => code != ""
    case AdminClose(_) => true
    case Arrive(h, _) => h !in s.handlers && h !in s.paired
    case Guess(h, _, _) => h in s.handlers && s.handlers[h].Opened?
    case GiveUp(h) => h in s.handlers && (s.handlers[h].Opened? || s.handlers[h].Checked?)
    case Save(h, _, _) => h in s.handlers && s.handlers[h].Checked?
    case CloseAfter(h, _) => h in s.handlers && s.handlers[h].Added?
    case Crash(_) => true
  }

  predicate Passes(s: State, guess: string, now: Time) {
    W.Check(s.window, guess, now, s.maxAttempts).1
  }

  /** A new process: no window, no requests. */
  function Restarted(s: State, store: D.State): State {
    s.(store := store, window := W.NEVER_OPENED, handlers := map[])
  }

  function Next(s: State, e: Event): State
    requires Enabled(s, e)
  {
    match e
    case AdminOpen(code, d, now) => s.(window := W.Open(s.window, code, d, now), windows := s.windows + 1)
    case AdminClose(now) => s.(window := W.Close(s.window, now))
    case Arrive(h, now) => s.(handlers := s.handlers[h := if W.IsOpen(s.window, now) then Opened else Finished])
    case Guess(h, guess, now) =>
      s.(window := W.Check(s.window, guess, now, s.maxAttempts).0,
         handlers := s.handlers[h := if Passes(s, guess, now) then Checked(s.windows) else Finished])
    case GiveUp(h) => s.(handlers := s.handlers[h := Finished])
    case Save(h, device, outcome) =>
      var store := D.Next(s.store, D.Write(D.AddDevice(device), outcome));
      var window := s.handlers[h].window;
      match outcome {
        case Saved => s.(store := store, handlers := s.handlers[h := Added(window)], paired := s.paired[h := window])
        case Failed => s.(store := store, handlers := s.handlers[h := Finished])
        case Killed(renamed, _) => Restarted(s.(paired := if renamed then s.paired[h := window] else s.paired), store)
      }
    case CloseAfter(h, now) => s.(window := W.Close(s.window, now), handlers := s.handlers[h := Finished])
    case Crash(readable) => Restarted(s, D.Next(s.store, D.Restart(readable)))
  }

  // ---------- runs ----------

  ghost predicate Run(states: seq<State>, es: seq<Event>) {
    && |states| == |es| + 1
    && states[0].window == W.NEVER_OPENED && states[0].handlers == map[] && states[0].paired == map[]
    && forall i :: 0 <= i < |es| ==> Enabled(states[i], es[i]) && states[i + 1] == Next(states[i], es[i])
  }

  /** Event `i` is a successful check by `h` against window `w`. */
  ghost predicate PassedAt(states: seq<State>, es: seq<Event>, i: nat, h: Handler, w: nat)
    requires Run(states, es)
  {
    && i < |es| && es[i].Guess? && es[i].h == h
    && Passes(states[i], es[i].guess, es[i].now) && states[i].windows == w
  }

  predicate HasPassed(s: State, h: Handler, w: nat) {
    h in s.handlers && (s.handlers[h] == Checked(w) || s.handlers[h] == Added(w))
  }

  /** A request that holds a passed check passed it earlier, and has held it since. */
  lemma {:induction false} CheckCameFirst(states: seq<State>, es: seq<Event>, n: nat, h: Handler, w: nat) returns (i: nat)
    requires Run(states, es) && n < |states| && HasPassed(states[n], h, w)
    ensures i < n && PassedAt(states, es, i, h, w)
    ensures forall k :: i < k <= n ==> HasPassed(states[k], h, w)
  {
    if HasPassed(states[n - 1], h, w) {
      i := CheckCameFirst(states, es, n - 1, h, w);
    } else {
      i := n - 1;
    }
  }

  /** And it arrived while a window was open. */
  lemma {:induction false} ArrivedWhileOpen(states: seq<State>, es: seq<Event>, n: nat, h: Handler) returns (i: nat)
    requires Run(states, es) && n < |states| && h in states[n].handlers && !states[n].handlers[h].Finished?
    ensures i < n && es[i].Arrive? && es[i].h == h
    ensures states[i].window.code != "" && es[i].now < states[i].window.expires
  {
    if h in states[n - 1].handlers && !states[n - 1].handlers[h].Finished? {
      i := ArrivedWhileOpen(states, es, n - 1, h);
    } else {
      i := n - 1;
    }
  }

  /** In every interleaving, each device added is preceded by its own request's successful check, made against a
      window that was unclosed, unexhausted and unexpired at that moment and whose code the guess spelled. */
  lemma EveryDevicePassedItsOwnCheck(states: seq<State>, es: seq<Event>, n: nat) returns (i: nat)
    requires Run(states, es) && n < |es| && es[n].Save?
    ensures i < n && es[i].Guess? && es[i].h == es[n].h
    ensures states[i].window.code != "" && es[i].now <= states[i].window.expires
    ensures W.Normalize(es[i].guess) == states[i].window.code
    ensures states[i].windows == states[n].handlers[es[n].h].window
  {
    i := CheckCameFirst(states, es, n, es[n].h, states[n].handlers[es[n].h].window);
  }

  lemma {:induction false} OpenedOnlyGrows(states: seq<State>, es: seq<Event>, i: nat, j: nat)
    requires Run(states, es) && i <= j < |states|
    ensures states[i].windows <= states[j].windows
  {
    if i < j { OpenedOnlyGrows(states, es, i, j - 1); }
  }

  lemma {:induction false} PassedWindowsWereOpened(states: seq<State>, es: seq<Event>, n: nat, h: Handler, w: nat)
    requires Run(states, es) && n < |states| && HasPassed(states[n], h, w)
    ensures w <= states[n].windows
  {
    var i := CheckCameFirst(states, es, n, h, w);
    OpenedOnlyGrows(states, es, i, n);
  }

  /** Until a new one is opened, a closed window stays closed. */
  lemma {:induction false} ClosedStaysClosed(states: seq<State>, es: seq<Event>, i: nat, j: nat)
    requires Run(states, es) && i <= j < |states|
    requires states[i].window.code == "" && states[j].windows == states[i].windows
    ensures states[j].window.code == ""
  {
    if i < j {
      OpenedOnlyGrows(states, es, i, j - 1);
      OpenedOnlyGrows(states, es, j - 1, j);
      ClosedStaysClosed(states, es, i, j - 1);
    }
  }

  /** In every interleaving: once a paired request has closed the window, no check against that window, or an earlier
      one, succeeds any more. So two devices paired through one window were both checked before either closed it. */
  lemma PairingBurnsTheCode(states: seq<State>, es: seq<Event>, c: nat, k: nat, h: Handler, w: nat)
    requires Run(states, es) && c < k < |es|
    requires es[c].CloseAfter? && states[c].handlers[es[c].h].window == w
    requires es[k].Guess? && PassedAt(states, es, k, h, states[k].windows)
    ensures states[k].windows > w
  {
    PassedWindowsWereOpened(states, es, c, es[c].h, w);
    OpenedOnlyGrows(states, es, c + 1, k);
    if states[k].windows == states[c + 1].windows {
      ClosedStaysClosed(states, es, c + 1, k);
      assert false;
    }
  }

  /** The same when the administrator closes the window. */
  lemma AdminCloseBurnsTheCode(states: seq<State>, es: seq<Event>, c: nat, k: nat, h: Handler)
    requires Run(states, es) && c < k < |es| && es[c].AdminClose?
    requires es[k].Guess? && PassedAt(states, es, k, h, states[k].windows)
    ensures states[k].windows > states[c].windows
  {
    OpenedOnlyGrows(states, es, c + 1, k);
    if states[k].windows == states[c + 1].windows {
      ClosedStaysClosed(states, es, c + 1, k);
      assert false;
    }
  }

  /** A request that gave up, or was refused, is over for as long as the process lives. */
  lemma {:induction false} GivenUpIsOver(states: seq<State>, es: seq<Event>, c: nat, n: nat)
    requires Run(states, es) && c < n < |states| && es[c].GiveUp?
    requires forall k :: c < k < n ==> !es[k].Crash? && !(es[k].Save? && es[k].outcome.Killed?)
    ensures es[c].h in states[n].handlers && states[n].handlers[es[c].h] == Finished
  {
    if c + 1 < n { GivenUpIsOver(states, es, c, n - 1); }
  }

  // ---------- how many devices a window can pair ----------

  /** `h` was paired by window `w`, and that window is burnt or about to be closed by `h` itself. */
  predicate Burnt(s: State, h: Handler, w: nat) {
    || (h in s.handlers && s.handlers[h] == Added(w))
    || w < s.windows
    || (w == s.windows && s.window.code == "")
  }

  ghost predicate Settled(s: State, h: Handler) {
    && (h in s.paired ==> Burnt(s, h, s.paired[h]))
    && (h in s.paired && h in s.handlers ==> s.handlers[h].Added? || s.handlers[h].Finished?)
    && (h in s.handlers && (s.handlers[h].Checked? || s.handlers[h].Added?) ==> s.handlers[h].window <= s.windows)
  }

  /** Whatever overlaps, a paired request leaves its window burnt. */
  lemma {:induction false} AlwaysSettled(states: seq<State>, es: seq<Event>, n: nat, h: Handler)
    requires Run(states, es) && n < |states|
    ensures Settled(states[n], h)
  {
    if n > 0 { AlwaysSettled(states, es, n - 1, h); }
  }

  /** Event `m` puts the device of `h` on the disk, its code having been checked against window `w`. */
  ghost predicate SavedAt(states: seq<State>, es: seq<Event>, m: nat, h: Handler, w: nat)
    requires Run(states, es)
  {
    m < |es| && es[m].Save? && es[m].h == h && states[m].handlers[h] == Checked(w)
  }

  lemma {:induction false} PairedBySave(states: seq<State>, es: seq<Event>, n: nat, h: Handler) returns (m: nat)
    requires Run(states, es) && n < |states| && h in states[n].paired
    ensures m < n && SavedAt(states, es, m, h, states[n].paired[h])
    ensures forall k :: m < k <= n ==> h in states[k].paired && states[k].paired[h] == states[n].paired[h]
  {
    if h in states[n - 1].paired && states[n - 1].paired[h] == states[n].paired[h] {
      m := PairedBySave(states, es, n - 1, h);
    } else {
      m := n - 1;
    }
  }

  /** Both requests hold a passed check of window `w`. */
  predicate BothHold(s: State, h: Handler, h': Handler, w: nat) {
    HasPassed(s, h, w) && HasPassed(s, h', w)
  }

  predicate PairsBoth(s: State, h: Handler, h': Handler, w: nat) {
    h in s.paired && h' in s.paired && s.paired[h] == w == s.paired[h']
  }

  /** A window that paired two requests was held by both at once, one of them perhaps already added. */
  lemma PairedBothHeld(states: seq<State>, es: seq<Event>, n: nat, h: Handler, h': Handler, w: nat) returns (k: nat)
    requires Run(states, es) && n < |states| && h != h' && PairsBoth(states[n], h, h', w)
    ensures k < n && BothHold(states[k], h, h', w)
  {
    var m := PairedBySave(states, es, n, h);
    var m' := PairedBySave(states, es, n, h');
    if m < m' {
      k := HeldTogether(states, es, m, m', h, h', w);
    } else {
      k := HeldTogether(states, es, m', m, h', h, w);
    }
  }

  lemma HeldTogether(states: seq<State>, es: seq<Event>, m: nat, m': nat, h: Handler, h': Handler, w: nat)
    returns (k: nat)
    requires Run(states, es) && h != h' && m < m'
    requires SavedAt(states, es, m, h, w) && SavedAt(states, es, m', h', w)
    requires forall j :: m < j <= m' ==> h in states[j].paired && states[j].paired[h] == w
    ensures k <= m' && BothHold(states[k], h, h', w)
  {
    var i := CheckCameFirst(states, es, m', h', w);
    if i < m {
      k := m;
    } else { // a paired request burns the window, so it cannot have closed it yet
      AlwaysSettled(states, es, i, h);
      k := i + 1;
    }
  }

  lemma {:induction false} AddedIsPaired(states: seq<State>, es: seq<Event>, n: nat, h: Handler, w: nat)
    requires Run(states, es) && n < |states| && h in states[n].handlers && states[n].handlers[h] == Added(w)
    ensures h in states[n].paired && states[n].paired[h] == w
  {
    if h in states[n - 1].handlers && states[n - 1].handlers[h] == Added(w) {
      AddedIsPaired(states, es, n - 1, h, w);
    }
  }

  /** One more request's save succeeds, if it has not already. */
  lemma Stored(states: seq<State>, es: seq<Event>, h: Handler, w: nat, d: D.Device)
    returns (states': seq<State>, es': seq<Event>)
    requires Run(states, es) && HasPassed(states[|es|], h, w)
    ensures Run(states', es') && states <= states' && es <= es' && |es'| <= |es| + 1
    ensures h in states'[|es'|].paired && states'[|es'|].paired[h] == w
    ensures forall x :: x != h && HasPassed(states[|es|], x, w) ==> HasPassed(states'[|es'|], x, w)
    ensures forall x :: x != h && x in states[|es|].paired ==>
              x in states'[|es'|].paired && states'[|es'|].paired[x] == states[|es|].paired[x]
  {
    states', es' := states, es;
    if states[|es|].handlers[h] == Added(w) {
      AddedIsPaired(states, es, |es|, h, w);
    } else {
      var e := Save(h, d, D.Saved);
      states', es' := states + [Next(states[|es|], e)], es + [e];
    }
  }

  /** And whenever two requests hold a passed check of one window at once, nothing prevents it from pairing both. */
  lemma HoldersCanBothPair(states: seq<State>, es: seq<Event>, k: nat, h: Handler, h': Handler, w: nat,
                           d: D.Device, d': D.Device)
    returns (states': seq<State>, es': seq<Event>)
    requires Run(states, es) && k < |states| && h != h' && BothHold(states[k], h, h', w)
    ensures Run(states', es') && states[..k + 1] <= states' && es[..k] <= es' && |es'| <= k + 2
    ensures PairsBoth(states'[|es'|], h, h', w)
  {
    states', es' := Stored(states[..k + 1], es[..k], h, w, d);
    states', es' := Stored(states', es', h', w, d');
  }

  ghost predicate CanPairBoth(states: seq<State>, es: seq<Event>, h: Handler, h': Handler, w: nat) {
    exists states', es' :: Run(states', es') && states <= states' && es <= es' && PairsBoth(states'[|es'|], h, h', w)
  }

  /** A window pairs two requests only if both once held its passed check at the same time, and each time they do, the
      run up to there can go on to pair both. */
  lemma PairsTwoIffBothHold(states: seq<State>, es: seq<Event>, h: Handler, h': Handler, w: nat)
    requires Run(states, es) && h != h'
    ensures PairsBoth(states[|es|], h, h', w) ==> exists k :: 0 <= k < |es| && BothHold(states[k], h, h', w)
    ensures forall k :: 0 <= k <= |es| && BothHold(states[k], h, h', w) ==>
              CanPairBoth(states[..k + 1], es[..k], h, h', w)
  {
    if PairsBoth(states[|es|], h, h', w) {
      var k := PairedBothHeld(states, es, |es|, h, h', w);
    }
    forall k | 0 <= k <= |es| && BothHold(states[k], h, h', w)
      ensures CanPairBoth(states[..k + 1], es[..k], h, h', w)
    {
      var d, d' := D.Device("", "", "f", "", 0, 0, 0), D.Device("", "", "g", "", 0, 0, 0);
      var states', es' := HoldersCanBothPair(states, es, k, h, h', w, d, d');
    }
  }

  /** Two requests that are never in progress at once are never paired by the same window, whatever other requests
      overlap them, and through any failed saves, retries, crashes and windows opened or closed in between. */
  lemma OneDevicePerWindow(states: seq<State>, es: seq<Event>, n: nat, h: Handler, h': Handler)
    requires Run(states, es) && n < |states|
    requires forall i :: 0 <= i < n ==> !(Active(states[i], h) && Active(states[i], h'))
    requires h in states[n].paired && h' in states[n].paired && h != h'
    ensures states[n].paired[h] != states[n].paired[h']
  {
    if states[n].paired[h] == states[n].paired[h'] {
      var k := PairedBothHeld(states, es, n, h, h', states[n].paired[h]);
      assert Active(states[k], h) && Active(states[k], h');
    }
  }

  predicate Active(s: State, h: Handler) {
    h in s.handlers && !s.handlers[h].Finished?
  }

  // ---------- and that it does happen ----------

  /** Two requests that both check the code before either closes the window are both paired by it. */
  lemma OverlapPairsTwo(maxAttempts: nat, d0: D.Device, d1: D.Device, code: string)
    returns (states: seq<State>, es: seq<Event>)
    requires code != "" && W.Normalize(code) == code
    ensures Run(states, es)
    ensures var s := states[|es|]; 0 in s.paired && 1 in s.paired && s.paired[0] == s.paired[1]
  {
    var s0 := State(D.EMPTY, W.NEVER_OPENED, maxAttempts, 0, map[], map[]);
    var s1 := Next(s0, AdminOpen(code, 100, 1));
    var s2 := Next(s1, Arrive(0, 2));
    var s3 := Next(s2, Arrive(1, 3));
    var s4 := Next(s3, Guess(0, code, 4));
    var s5 := Next(s4, Guess(1, code, 5));
    var s6 := Next(s5, Save(0, d0, D.Saved));
    var s7 := Next(s6, Save(1, d1, D.Saved));
    es := [AdminOpen(code, 100, 1), Arrive(0, 2), Arrive(1, 3), Guess(0, code, 4), Guess(1, code, 5),
           Save(0, d0, D.Saved), Save(1, d1, D.Saved)];
    states := [s0, s1, s2, s3, s4, s5, s6, s7];
  }
}
