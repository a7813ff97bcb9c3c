/** Subscribers of agent/internal/collect/sampler.go: Subscribe, Unsubscribe and the broadcast in `loop`, at the
    granularity of the subscriber lock and of single channel operations. */
module Broadcast {

  type ChannelId = nat

  const CAPACITY := 8

  datatype Channel<T> = Channel(open: bool, buf: seq<T>, received: seq<T>)

  /** `left` is set while some loop holds the lock: the subscribers it has not visited yet. */
  datatype Sending<T> = Unlocked | Locked(sample: T, left: set<ChannelId>)

  datatype State<T> = State(subs: set<ChannelId>, chans: map<ChannelId, Channel<T>>, sending: Sending<T>)

  datatype Event<T> =
    | Subscribe(ch: ChannelId)           // a new channel, entered under the lock
    | Unsubscribe(ch: ChannelId)         // removed under the lock
    | Close(ch: ChannelId)               // closed afterwards, without the lock
    | Lock(sample: T)                    // a loop starts a broadcast
    | Send(ch: ChannelId, sample: T)     // one non-blocking send
    | Unlock
    | Receive(ch: ChannelId)             // by the stream, without the lock

  predicate Enabled<T(==)>(s: State<T>, e: Event<T>) {
    match e
    case Subscribe(ch) => s.sending.Unlocked? && ch !in s.chans
    case Unsubscribe(ch) => s.sending.Unlocked? && ch in s.subs
    case Close(ch) => ch in s.chans && ch !in s.subs && s.chans[ch].open
    case Lock(_) => s.sending.Unlocked?
    case Send(ch, x) => s.sending.Locked? && ch in s.sending.left && x == s.sending.sample && ch in s.chans
    case Unlock => s.sending.Locked? && s.sending.left == {}
    case Receive(ch) => ch in s.chans && s.chans[ch].buf != []
  }

  function Sent<T>(c: Channel<T>, x: T): Channel<T> {
    if |c.buf| < CAPACITY then c.(buf := c.buf + [x]) else c
  }

  function Taken<T>(c: Channel<T>): Channel<T>
    requires c.buf != []
  {
    c.(buf := c.buf[1..], received := c.received + [c.buf[0]])
  }

  function Next<T(==)>(s: State<T>, e: Event<T>): State<T>
    requires Enabled(s, e)
  {
    match e
    case Subscribe(ch) => s.(subs := s.subs + {ch}, chans := s.chans[ch := Channel(true, [], [])])
    case Unsubscribe(ch) => s.(subs := s.subs - {ch})
    case Close(ch) => s.(chans := s.chans[ch := s.chans[ch].(open := false)])
    case Lock(x) => s.(sending := Locked(x, s.subs))
    case Send(ch, x) =>
      s.(sending := Locked(x, s.sending.left - {ch}), chans := s.chans[ch := Sent(s.chans[ch], x)])
    case Unlock => s.(sending := Unlocked)
    case Receive(ch) => s.(chans := s.chans[ch := Taken(s.chans[ch])])
  }

  // ---------- the code of one broadcast ----------

  class Chan<T> {
    var open: bool
    var buf: seq<T>
    ghost var received: seq<T>

    ghost function Value(): Channel<T>
      reads this
    {
      Channel(open, buf, received)
    }

    constructor ()
      ensures Value() == Channel(true, [], [])
    {
      open, buf, received := true, [], [];
    }

    /** A non-blocking send; on a closed channel it would panic. */
    method TrySend(x: T)
      requires open
      modifies this
      ensures Value() == Sent(old(Value()), x)
    {
      if |buf| < CAPACITY {
        buf := buf + [x];
      }
    }
  }

  /** The part of `loop` under the lock: in any order, each subscriber gets the sample or misses it. */
  method SendToAll<T>(subs: set<Chan<T>>, x: T)
    requires forall c :: c in subs ==> c.open
    modifies subs
    ensures forall c :: c in subs ==> c.Value() == Sent(old(c.Value()), x)
  {
    var todo := subs;
    while todo != {}
      invariant todo <= subs
      invariant forall c :: c in subs ==> c.Value() == if c in todo then old(c.Value()) else Sent(old(c.Value()), x)
      decreases todo
    {
      var c :| c in todo;
      c.TrySend(x);
      todo := todo - {c};
    }
  }

  // ---------- runs ----------

  ghost predicate Run<T>(states: seq<State<T>>, es: seq<Event<T>>) {
    && |states| == |es| + 1
    && states[0] == State({}, map[], Unlocked)
    && forall i :: 0 <= i < |es| ==> Enabled(states[i], es[i]) && states[i + 1] == Next(states[i], es[i])
  }

  // ---------- no send reaches a closed channel ----------

  ghost predicate SubscribersAreOpen<T>(s: State<T>) {
    && (forall ch :: ch in s.subs ==> ch in s.chans && s.chans[ch].open)
    && (s.sending.Locked? ==> s.sending.left <= s.subs)
  }

  lemma {:induction false} SubscribersStayOpen<T>(states: seq<State<T>>, es: seq<Event<T>>, n: nat)
    requires Run(states, es) && n < |states|
    ensures SubscribersAreOpen(states[n])
  {
    if n > 0 { SubscribersStayOpen(states, es, n - 1); }
  }

  lemma NoSendOnClosedChannel<T>(states: seq<State<T>>, es: seq<Event<T>>, n: nat)
    requires Run(states, es) && n < |es| && es[n].Send?
    ensures states[n].chans[es[n].ch].open
  {
    SubscribersStayOpen(states, es, n);
  }

  // ---------- what a subscriber gets ----------

  /** By the first `n` events alone: `ch` has subscribed and not unsubscribed. */
  ghost predicate Subscribed<T>(es: seq<Event<T>>, ch: ChannelId, n: nat)
    requires n <= |es|
  {
    n > 0 && (es[n - 1] == Subscribe(ch) || (es[n - 1] != Unsubscribe(ch) && Subscribed(es, ch, n - 1)))
  }

  /** The samples whose broadcast began while `ch` was subscribed. */
  ghost function Due<T>(es: seq<Event<T>>, ch: ChannelId, n: nat): seq<T>
    requires n <= |es|
  {
    if n == 0 then []
    else Due(es, ch, n - 1) + if es[n - 1].Lock? && Subscribed(es, ch, n - 1) then [es[n - 1].sample] else []
  }

  ghost function Offered<T>(es: seq<Event<T>>, ch: ChannelId, n: nat): seq<T>
    requires n <= |es|
  {
    if n == 0 then []
    else Offered(es, ch, n - 1) + if es[n - 1].Send? && es[n - 1].ch == ch then [es[n - 1].sample] else []
  }

  ghost function Receives<T>(es: seq<Event<T>>, ch: ChannelId, n: nat): nat
    requires n <= |es|
  {
    if n == 0 then 0 else Receives(es, ch, n - 1) + if es[n - 1] == Receive(ch) then 1 else 0
  }

  /** The offered samples less those offered while 8 kept ones were unread. */
  ghost function Kept<T>(es: seq<Event<T>>, ch: ChannelId, n: nat): seq<T>
    requires n <= |es|
  {
    if n == 0 then []
    else
      var before := Kept(es, ch, n - 1);
      if es[n - 1].Send? && es[n - 1].ch == ch && |before| - Receives(es, ch, n - 1) < 8
      then before + [es[n - 1].sample] else before
  }

  lemma {:induction false} SubscribedIffSub<T>(states: seq<State<T>>, es: seq<Event<T>>, ch: ChannelId, n: nat)
    requires Run(states, es) && n < |states|
    ensures Subscribed(es, ch, n) <==> ch in states[n].subs
  {
    if n > 0 { SubscribedIffSub(states, es, ch, n - 1); }
  }

  lemma {:induction false} NothingBeforeSubscribe<T>(states: seq<State<T>>, es: seq<Event<T>>, ch: ChannelId, n: nat)
    requires Run(states, es) && n < |states| && ch !in states[n].chans
    ensures Kept(es, ch, n) == [] && Receives(es, ch, n) == 0
  {
    if n > 0 { NothingBeforeSubscribe(states, es, ch, n - 1); }
  }

  lemma {:induction false} ChannelMatches<T>(states: seq<State<T>>, es: seq<Event<T>>, ch: ChannelId, n: nat)
    requires Run(states, es) && n < |states| && ch in states[n].chans
    ensures states[n].chans[ch].received + states[n].chans[ch].buf == Kept(es, ch, n)
    ensures |states[n].chans[ch].received| == Receives(es, ch, n)
  {
    if ch !in states[n - 1].chans {
      NothingBeforeSubscribe(states, es, ch, n - 1);
    } else {
      ChannelMatches(states, es, ch, n - 1);
      var c, e := states[n - 1].chans[ch], es[n - 1];
      if e.Receive? && e.ch == ch {
        assert c.received + c.buf == c.received + [c.buf[0]] + c.buf[1..];
      } else if e.Send? && e.ch == ch {
        assert c.received + (c.buf + [e.sample]) == c.received + c.buf + [e.sample];
      }
    }
  }

  /** Each broadcast is offered exactly once to every subscriber it began with, in order. */
  lemma {:induction false} OfferedIsDue<T>(states: seq<State<T>>, es: seq<Event<T>>, ch: ChannelId, n: nat)
    requires Run(states, es) && n < |states|
    ensures var x := states[n].sending;
            Due(es, ch, n) == Offered(es, ch, n) + if x.Locked? && ch in x.left then [x.sample] else []
  {
    if n > 0 {
      OfferedIsDue(states, es, ch, n - 1);
      SubscribedIffSub(states, es, ch, n - 1);
      SubscribersStayOpen(states, es, n - 1);
    }
  }

  /** `a` is `b` with some elements left out. */
  ghost predicate Subsequence<T>(a: seq<T>, b: seq<T>) {
    if a == [] then true
    else b != [] && var a', b' := a[..|a| - 1], b[..|b| - 1];
                    (a[|a| - 1] == b[|b| - 1] && Subsequence(a', b')) || Subsequence(a, b')
  }

  lemma {:induction false} SubsequenceGrows<T>(a: seq<T>, b: seq<T>, x: T)
    requires Subsequence(a, b)
    ensures Subsequence(a, b + [x]) && Subsequence(a + [x], b + [x])
  {
    assert (b + [x])[..|b|] == b && (a + [x])[..|a|] == a;
  }

  lemma {:induction false} KeptIsSubsequence<T>(es: seq<Event<T>>, ch: ChannelId, n: nat)
    requires n <= |es|
    ensures Subsequence(Kept(es, ch, n), Offered(es, ch, n))
  {
    if n > 0 {
      KeptIsSubsequence(es, ch, n - 1);
      if es[n - 1].Send? && es[n - 1].ch == ch {
        SubsequenceGrows(Kept(es, ch, n - 1), Offered(es, ch, n - 1), es[n - 1].sample);
      } else {
        assert Offered(es, ch, n) == Offered(es, ch, n - 1);
      }
    }
  }

  /** In every interleaving, what a subscriber has received plus what is buffered for it is, in order, exactly the
      samples offered to it while fewer than 8 were unread, out of those broadcast while it was subscribed. */
  lemma SubscriberGetsKept<T>(states: seq<State<T>>, es: seq<Event<T>>, ch: ChannelId, n: nat)
    requires Run(states, es) && n < |states| && ch in states[n].chans && states[n].sending.Unlocked?
    ensures states[n].chans[ch].received + states[n].chans[ch].buf == Kept(es, ch, n)
    ensures Subsequence(Kept(es, ch, n), Due(es, ch, n)) && Offered(es, ch, n) == Due(es, ch, n)
    ensures |states[n].chans[ch].buf| <= 8
  {
    ChannelMatches(states, es, ch, n);
    OfferedIsDue(states, es, ch, n);
    KeptIsSubsequence(es, ch, n);
    BufferIsBounded(states, es, ch, n);
  }

  lemma {:induction false} BufferIsBounded<T>(states: seq<State<T>>, es: seq<Event<T>>, ch: ChannelId, n: nat)
    requires Run(states, es) && n < |states| && ch in states[n].chans
    ensures |states[n].chans[ch].buf| <= 8
  {
    if n > 0 && ch in states[n - 1].chans { BufferIsBounded(states, es, ch, n - 1); }
  }
}
