/** The live loop of handleStream (agent/internal/api/stream.go), many streams at once, interleaved step by step
    with the device store. */
module Streams {
  import D = Devices

  type StreamId = nat

  /** Between two steps: waiting in the select, holding a sample that is not yet checked, or cleared to write. */
  datatype Phase = Waiting | Holding | Cleared | KeepAlive | KeepAliveCleared | Ended

  /** `fp` is the certificate the stream was opened with, empty without one; `written` counts live samples. */
  datatype Stream = Stream(fp: string, loopback: bool, phase: Phase, written: nat)

  datatype State = State(store: D.State, streams: map<StreamId, Stream>)

  datatype Event =
    | Store(e: D.Event)                  // any call of the store, a crash or a restart
    | Open(i: StreamId, fp: string, loopback: bool) // the handler subscribes
    | Receive(i: StreamId)               // a sample comes out of the channel
    | Ticker(i: StreamId)                // the keep-alive timer fires
    | Check(i: StreamId)                 // stillAllowed: one Lookup, or none without a certificate
    | Write(i: StreamId)
    | Skip(i: StreamId)                  // a sample that cannot be encoded
    | HangUp(i: StreamId)                // the client went away, or the channel was closed

  predicate Down(e: D.Event) {
    e.Restart? || (e.Write? && e.outcome.Killed?)
  }

  predicate In(s: State, i: StreamId, ps: set<Phase>) {
    i in s.streams && s.streams[i].phase in ps
  }

  predicate Enabled(s: State, ev: Event) {
    match ev
    case Store(e) => D.Enabled(s.store, e)
    case Open(i, _, _) => i !in s.streams
    case Receive(i) => In(s, i, {Waiting})
    case Ticker(i) => In(s, i, {Waiting})
    case Check(i) => In(s, i, {Holding, KeepAlive})
    case Write(i) => In(s, i, {Cleared, KeepAliveCleared})
    case Skip(i) => In(s, i, {Cleared})
    case HangUp(i) => In(s, i, {Waiting})
  }

  predicate StillAllowed(store: D.State, x: Stream) {
    if x.fp == "" then x.loopback else x.fp in store.mem
  }

  function Checked(x: Stream, allowed: bool): Stream {
    x.(phase := if !allowed then Ended else if x.phase == Holding then Cleared else KeepAliveCleared)
  }

  function Wrote(x: Stream): Stream {
    x.(phase := Waiting, written := x.written + if x.phase == Cleared then 1 else 0)
  }

  function Next(s: State, ev: Event): State
    requires Enabled(s, ev)
  {
    match ev
    case Store(e) => State(D.Next(s.store, e), if Down(e) then map[] else s.streams)
    case Open(i, fp, loopback) => s.(streams := s.streams[i := Stream(fp, loopback, Waiting, 0)])
    case Receive(i) => s.(streams := s.streams[i := s.streams[i].(phase := Holding)])
    case Ticker(i) => s.(streams := s.streams[i := s.streams[i].(phase := KeepAlive)])
    case Check(i) => s.(streams := s.streams[i := Checked(s.streams[i], StillAllowed(s.store, s.streams[i]))])
    case Write(i) => s.(streams := s.streams[i := Wrote(s.streams[i])])
    case Skip(i) => s.(streams := s.streams[i := s.streams[i].(phase := Waiting)])
    case HangUp(i) => s.(streams := s.streams[i := s.streams[i].(phase := Ended)])
  }

  // ---------- what a check decides ----------

  /** A sample is written if and only if, at its check, the certificate is in the table, or without a certificate the
      client is on the loopback interface; otherwise the stream ends unwritten. */
  lemma SampleIsWrittenIff(s: State, i: StreamId)
    requires Enabled(s, Check(i)) && s.streams[i].phase == Holding
    ensures var x, t := s.streams[i], Next(s, Check(i));
            if (if x.fp == "" then x.loopback else x.fp in s.store.mem)
            then Enabled(t, Write(i)) && Next(t, Write(i)).streams[i] == x.(phase := Waiting, written := x.written + 1)
            else t.streams[i] == x.(phase := Ended)
  {}

  /** A keep-alive is checked in the same way and counts as no sample. */
  lemma KeepAliveIsSentIff(s: State, i: StreamId)
    requires Enabled(s, Check(i)) && s.streams[i].phase == KeepAlive
    ensures var x, t := s.streams[i], Next(s, Check(i));
            if (if x.fp == "" then x.loopback else x.fp in s.store.mem)
            then Enabled(t, Write(i)) && Next(t, Write(i)).streams[i] == x.(phase := Waiting)
            else t.streams[i] == x.(phase := Ended)
  {}

  /** Over a run, a stream whose certificate is in the table at each of its checks ends only with the process or when
      the client goes. */
  lemma {:induction false} AllowedGoesOn(states: seq<State>, es: seq<Event>, i: StreamId, n: nat)
    requires Run(states, es) && n < |states| && i in states[0].streams && states[0].streams[i].phase != Ended
    requires forall k :: 0 <= k < n ==> es[k] != HangUp(i) && !(es[k].Store? && Down(es[k].e))
    requires var x := states[0].streams[i];
             forall k :: 0 <= k < n && es[k] == Check(i) ==>
               if x.fp == "" then x.loopback else x.fp in states[k].store.mem
    ensures i in states[n].streams && states[n].streams[i].phase != Ended
    ensures states[n].streams[i].fp == states[0].streams[i].fp
    ensures states[n].streams[i].loopback == states[0].streams[i].loopback
  {
    if n > 0 { AllowedGoesOn(states, es, i, n - 1); }
  }

  // ---------- runs after a revocation ----------

  ghost predicate Run(states: seq<State>, es: seq<Event>) {
    && |states| == |es| + 1
    && forall n :: 0 <= n < |es| ==> Enabled(states[n], es[n]) && states[n + 1] == Next(states[n], es[n])
  }

  predicate Introduces(ev: Event, fp: string) {
    ev.Store? && D.Introduces(ev.e, fp)
  }

  /** `fp` is out of memory, and if the disk still has it the process is not restarted. */
  ghost predicate Removed(states: seq<State>, es: seq<Event>, fp: string) {
    && Run(states, es)
    && fp != "" && fp !in states[0].store.mem
    && (forall n :: 0 <= n < |es| ==> !Introduces(es[n], fp))
    && (fp in states[0].store.stored ==> forall n :: 0 <= n < |es| ==> es[n].Store? ==> !Down(es[n].e))
  }

  lemma {:induction false} StaysOut(states: seq<State>, es: seq<Event>, fp: string, n: nat)
    requires Removed(states, es, fp) && n < |states|
    ensures fp !in states[n].store.mem
    ensures fp !in states[0].store.stored ==> fp !in states[n].store.stored
  {
    if n > 0 { StaysOut(states, es, fp, n - 1); }
  }

  /** How many live samples a stream can still write: the one whose lookup had already passed. */
  function Owed(s: State, i: StreamId): nat {
    if In(s, i, {Cleared}) then 1 else 0
  }

  function Written(s: State, i: StreamId): nat {
    if i in s.streams then s.streams[i].written else 0
  }

  /** After `Revoke` or a renewal has taken a certificate out of memory, even if saving that failed, every stream
      opened with it writes at most the one sample that had already been cleared. */
  lemma {:induction false} AtMostOneMoreSample(states: seq<State>, es: seq<Event>, fp: string, i: StreamId, n: nat)
    requires Removed(states, es, fp) && n < |states|
    requires forall k :: 0 <= k <= n && i in states[k].streams ==> states[k].streams[i].fp == fp
    ensures Written(states[n], i) + Owed(states[n], i) <= Written(states[0], i) + Owed(states[0], i)
  {
    if n > 0 {
      AtMostOneMoreSample(states, es, fp, i, n - 1);
      StaysOut(states, es, fp, n - 1);
    }
  }

  /** Its next check ends it, and an ended stream takes no further step while the process lives. */
  lemma NextCheckEndsIt(states: seq<State>, es: seq<Event>, fp: string, i: StreamId, c: nat, n: nat)
    requires Removed(states, es, fp) && c < n < |states|
    requires es[c] == Check(i) && states[c].streams[i].fp == fp
    requires forall k :: c < k < n && es[k].Store? ==> !Down(es[k].e)
    ensures i in states[n].streams && states[n].streams[i] == states[c].streams[i].(phase := Ended)
    ensures n < |es| && !es[n].Store? ==> es[n].i != i
    decreases n
  {
    StaysOut(states, es, fp, c);
    if n > c + 1 {
      NextCheckEndsIt(states, es, fp, i, c, n - 1);
    }
  }

  /** A renewal or revocation that succeeded is such a removal, for whatever follows, restarts included. */
  lemma SavedRemovalLasts(states: seq<State>, es: seq<Event>, c: D.Change, fp: string)
    requires Run(states, es) && es != [] && es[0] == Store(D.Write(c, D.Saved))
    requires fp != "" && (c == D.Drop(fp) || (c.Renew? && c.oldFp == fp && c.newFp != fp))
    requires forall n :: 1 <= n < |es| ==> !Introduces(es[n], fp)
    ensures Removed(states[1..], es[1..], fp)
  {
    forall n | 0 <= n < |es[1..]|
      ensures Enabled(states[1..][n], es[1..][n]) && states[1..][n + 1] == Next(states[1..][n], es[1..][n])
    {
      assert es[1..][n] == es[n + 1];
    }
  }
}
