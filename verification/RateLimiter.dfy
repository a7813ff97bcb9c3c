/** The per-client token bucket of agent/internal/api/server.go and its pruning. */
module RateLimiter {

  const RATE := 10.0
  const BURST := 30.0
  const BUCKET_TTL := 600.0
  const PRUNE_FLOOR := 64

  datatype BucketState = BucketState(tokens: real, last: real)
  type Buckets = map<string, BucketState>

  datatype Request = Request(client: string, at: real)

  // ---------- what one request does ----------

  function Pruned(m: Buckets, now: real): Buckets {
    if |m| < PRUNE_FLOOR then m else map k | k in m && !(now - m[k].last > BUCKET_TTL) :: m[k]
  }

  function Refilled(b: BucketState, now: real): real {
    var t := b.tokens + (now - b.last) * RATE;
    if t > BURST then BURST else t
  }

  function Charge(b: BucketState, now: real): (BucketState, bool) {
    var t := Refilled(b, now);
    if t < 1.0 then (BucketState(t, now), false) else (BucketState(t - 1.0, now), true)
  }

  /** The limiter as written: a client without a bucket triggers a prune and gets a fresh one. */
  function Step(m: Buckets, r: Request): (Buckets, bool) {
    if r.client !in m then (Pruned(m, r.at)[r.client := BucketState(BURST - 1.0, r.at)], true)
    else var (b, ok) := Charge(m[r.client], r.at); (m[r.client := b], ok)
  }

  /** The reference limiter that never deletes a bucket. */
  function StepKept(m: Buckets, r: Request): (Buckets, bool) {
    if r.client !in m then (m[r.client := BucketState(BURST - 1.0, r.at)], true)
    else var (b, ok) := Charge(m[r.client], r.at); (m[r.client := b], ok)
  }

  // ---------- the code, on its own map of bucket objects ----------

  class Bucket {
    var tokens: real
    var last: real

    constructor (tokens: real, last: real)
      ensures this.tokens == tokens && this.last == last
    {
      this.tokens, this.last := tokens, last;
    }
  }

  class Limiter {
    var rl: map<string, Bucket>

    /** No two clients share a bucket object. */
    ghost predicate Valid()
      reads this
    {
      forall k, l :: k in rl && l in rl && k != l ==> rl[k] != rl[l]
    }

    ghost function Contents(): Buckets
      reads this, rl.Values
    {
      map k | k in rl :: BucketState(rl[k].tokens, rl[k].last)
    }

    constructor ()
      ensures Valid() && Contents() == map[]
    {
      rl := map[];
    }

    method PruneBuckets(now: real)
      requires Valid()
      modifies this`rl
      ensures Valid() && rl.Keys <= old(rl.Keys)
      ensures forall k :: k in rl ==> rl[k] == old(rl[k])
      ensures Contents() == Pruned(old(Contents()), now)
    {
      assert Contents().Keys == rl.Keys;
      if |rl.Keys| < PRUNE_FLOOR {
        return;
      }
      var todo := rl.Keys;
      while todo != {}
        invariant todo <= rl.Keys <= old(rl.Keys) && Valid()
        invariant forall k :: k in rl ==> rl[k] == old(rl[k])
        invariant forall k :: k in old(rl) && k !in todo ==> (k in rl <==> !(now - old(rl[k].last) > BUCKET_TTL))
        decreases todo
      {
        var k :| k in todo;
        if now - rl[k].last > BUCKET_TTL {
          rl := rl - {k};
        }
        todo := todo - {k};
      }
    }

    method RateOK(client: string, now: real) returns (ok: bool)
      requires Valid()
      modifies this, rl.Values
      ensures Valid()
      ensures Contents() == Step(old(Contents()), Request(client, now)).0
      ensures ok == Step(old(Contents()), Request(client, now)).1
    {
      if client !in rl {
        PruneBuckets(now);
        ghost var pruned := Contents();
        var b := new Bucket(BURST - 1.0, now);
        rl := rl[client := b];
        assert Contents() == pruned[client := BucketState(BURST - 1.0, now)];
        return true;
      }
      var b := rl[client];
      b.tokens := b.tokens + (now - b.last) * RATE;
      if b.tokens > BURST {
        b.tokens := BURST;
      }
      b.last := now;
      if b.tokens < 1.0 {
        return false;
      }
      b.tokens := b.tokens - 1.0;
      return true;
    }
  }

  // ---------- runs ----------

  ghost predicate Ordered(reqs: seq<Request>) {
    forall i, j :: 0 <= i <= j < |reqs| ==> reqs[i].at <= reqs[j].at
  }

  /** The buckets after the first `n` requests, starting from an empty limiter. */
  ghost function At(reqs: seq<Request>, n: nat): Buckets
    requires n <= |reqs|
  {
    if n == 0 then map[] else Step(At(reqs, n - 1), reqs[n - 1]).0
  }

  ghost predicate Admitted(reqs: seq<Request>, i: nat)
    requires i < |reqs|
  {
    Step(At(reqs, i), reqs[i]).1
  }

  ghost function AtKept(reqs: seq<Request>, n: nat): Buckets
    requires n <= |reqs|
  {
    if n == 0 then map[] else StepKept(AtKept(reqs, n - 1), reqs[n - 1]).0
  }

  ghost predicate AdmittedKept(reqs: seq<Request>, i: nat)
    requires i < |reqs|
  {
    StepKept(AtKept(reqs, i), reqs[i]).1
  }

  // ---------- pruning is invisible ----------

  /** `p` lacks only buckets of `f` that would be full again by `now`. */
  ghost predicate Agrees(p: Buckets, f: Buckets, now: real) {
    && (forall k :: k in p ==> k in f && p[k] == f[k])
    && (forall k :: k in f ==> 0.0 <= f[k].tokens <= BURST && f[k].last <= now)
    && (forall k :: k in f && k !in p ==> now - f[k].last > BUCKET_TTL)
  }

  lemma AgreesStep(p: Buckets, f: Buckets, before: real, r: Request)
    requires Agrees(p, f, before) && before <= r.at
    ensures Agrees(Step(p, r).0, StepKept(f, r).0, r.at)
    ensures Step(p, r).1 == StepKept(f, r).1
  {
    if r.client in f && r.client !in p {
      assert Refilled(f[r.client], r.at) == BURST;
    }
  }

  lemma {:induction false} AgreesAlways(reqs: seq<Request>, n: nat, now: real)
    requires Ordered(reqs) && n <= |reqs|
    requires n > 0 ==> reqs[n - 1].at <= now
    ensures Agrees(At(reqs, n), AtKept(reqs, n), now)
  {
    if n > 0 {
      var r := reqs[n - 1];
      AgreesAlways(reqs, n - 1, r.at);
      AgreesStep(At(reqs, n - 1), AtKept(reqs, n - 1), r.at, r);
    }
  }

  /** Every request of every client gets the answer it would get if no bucket were ever deleted. */
  lemma PruningIsInvisible(reqs: seq<Request>, i: nat)
    requires Ordered(reqs) && i < |reqs|
    ensures Admitted(reqs, i) == AdmittedKept(reqs, i)
  {
    AgreesAlways(reqs, i, reqs[i].at);
    AgreesStep(At(reqs, i), AtKept(reqs, i), reqs[i].at, reqs[i]);
  }

  /** What pruning removes: a request of a client without a bucket, when 64 buckets or more are kept, leaves that
      client and those seen in the last ten minutes; no other request removes anything. */
  lemma StepPrunesIff(m: Buckets, r: Request, c: string)
    requires c != r.client
    ensures c in Step(m, r).0 <==> c in m && (r.client in m || |m| < 64 || r.at - m[c].last <= 600.0)
    ensures c in Step(m, r).0 ==> Step(m, r).0[c] == m[c]
  {}

  // ---------- the limiter is exact ----------

  /** Requests `lo <= i < hi` of client `c` that were admitted. */
  ghost function Count(reqs: seq<Request>, c: string, lo: nat, hi: nat): nat
    requires hi <= |reqs|
    decreases hi
  {
    if hi <= lo then 0
    else Count(reqs, c, lo, hi - 1) + if reqs[hi - 1].client == c && Admitted(reqs, hi - 1) then 1 else 0
  }

  /** What is left, at time `at`, of the curve that starts full at request `j`. */
  ghost function Left(reqs: seq<Request>, c: string, j: nat, n: nat, at: real): real
    requires j < n <= |reqs|
  {
    BURST + RATE * (at - reqs[j].at) - Count(reqs, c, j, n) as real
  }

  /** `c`'s bucket holds the least of those curves: a lower bound of all, and equal to one. */
  ghost predicate Tight(reqs: seq<Request>, c: string, n: nat, b: BucketState, w: nat)
    requires n <= |reqs|
  {
    && (n > 0 && b.last <= reqs[n - 1].at)
    && (forall j :: 0 <= j < n && reqs[j].client == c ==> b.tokens <= Left(reqs, c, j, n, b.last))
    && w < n && reqs[w].client == c && b.tokens == Left(reqs, c, w, n, b.last)
  }

  lemma {:induction false} BucketIsTight(reqs: seq<Request>, c: string, n: nat) returns (w: nat)
    requires Ordered(reqs) && n <= |reqs|
    ensures c in AtKept(reqs, n) <==> exists j :: 0 <= j < n && reqs[j].client == c
    ensures c in AtKept(reqs, n) ==> Tight(reqs, c, n, AtKept(reqs, n)[c], w)
  {
    w := 0;
    if n > 0 {
      w := BucketIsTight(reqs, c, n - 1);
      var m := AtKept(reqs, n - 1);
      if reqs[n - 1].client == c {
        w := OwnRequestKeepsTight(reqs, c, n - 1, m, w);
      } else if c in m {
        OthersKeepTight(reqs, c, n - 1, m[c], w);
      }
    }
  }

  lemma OthersKeepTight(reqs: seq<Request>, c: string, n: nat, b: BucketState, w: nat)
    requires Ordered(reqs) && n < |reqs| && reqs[n].client != c
    requires Tight(reqs, c, n, b, w)
    ensures Tight(reqs, c, n + 1, b, w)
  {
    forall j | 0 <= j <= n
      ensures Count(reqs, c, j, n + 1) == Count(reqs, c, j, n)
    {}
  }

  lemma OwnRequestKeepsTight(reqs: seq<Request>, c: string, n: nat, m: Buckets, v: nat) returns (w: nat)
    requires Ordered(reqs) && n < |reqs| && reqs[n].client == c
    requires m == AtKept(reqs, n)
    requires c in m <==> exists j :: 0 <= j < n && reqs[j].client == c
    requires c in m ==> Tight(reqs, c, n, m[c], v)
    ensures c in AtKept(reqs, n + 1) && Tight(reqs, c, n + 1, AtKept(reqs, n + 1)[c], w)
  {
    PruningIsInvisible(reqs, n);
    assert Count(reqs, c, n, n + 1) == if Admitted(reqs, n) then 1 else 0;
    w := if c !in m || Refilled(m[c], reqs[n].at) == BURST then n else v;
  }

  /** Admitting request `i` keeps its client on or under every curve 30 + 10·elapsed. */
  ghost predicate Fits(reqs: seq<Request>, i: nat)
    requires i < |reqs|
  {
    var c := reqs[i].client;
    forall j :: 0 <= j <= i && reqs[j].client == c ==>
      Count(reqs, c, j, i) as real + 1.0 <= 30.0 + 10.0 * (reqs[i].at - reqs[j].at)
  }

  /** Admission is exactly conformance: denied if and only if some earlier curve would be exceeded. */
  lemma AdmittedIffFits(reqs: seq<Request>, i: nat)
    requires Ordered(reqs) && i < |reqs|
    ensures Admitted(reqs, i) <==> Fits(reqs, i)
  {
    var c, m := reqs[i].client, AtKept(reqs, i);
    var w := BucketIsTight(reqs, c, i);
    PruningIsInvisible(reqs, i);
    assert Count(reqs, c, i, i) == 0;
    if c in m {
      assert Left(reqs, c, w, i, reqs[i].at) == m[c].tokens + RATE * (reqs[i].at - m[c].last);
      forall j | 0 <= j < i && reqs[j].client == c
        ensures m[c].tokens + RATE * (reqs[i].at - m[c].last) <= Left(reqs, c, j, i, reqs[i].at)
      {}
    }
  }

  /** All requests `lo <= i < hi` of client `c`, admitted or not. */
  ghost function Made(reqs: seq<Request>, c: string, lo: nat, hi: nat): nat
    requires hi <= |reqs|
    decreases hi
  {
    if hi <= lo then 0 else Made(reqs, c, lo, hi - 1) + if reqs[hi - 1].client == c then 1 else 0
  }

  lemma {:induction false} CountAtMostMade(reqs: seq<Request>, c: string, lo: nat, hi: nat)
    requires hi <= |reqs|
    ensures Count(reqs, c, lo, hi) <= Made(reqs, c, lo, hi)
    decreases hi
  {
    if lo < hi { CountAtMostMade(reqs, c, lo, hi - 1); }
  }

  /** A client whose own requests stay on or under the curve is never denied, whatever others do. */
  lemma ConformingIsNeverDenied(reqs: seq<Request>, i: nat)
    requires Ordered(reqs) && i < |reqs|
    requires forall j :: 0 <= j <= i && reqs[j].client == reqs[i].client ==>
               Made(reqs, reqs[i].client, j, i + 1) as real <= 30.0 + 10.0 * (reqs[i].at - reqs[j].at)
    ensures Admitted(reqs, i)
  {
    var c := reqs[i].client;
    forall j | 0 <= j <= i && reqs[j].client == c
      ensures Count(reqs, c, j, i) as real + 1.0 <= 30.0 + 10.0 * (reqs[i].at - reqs[j].at)
    {
      CountAtMostMade(reqs, c, j, i);
      assert Made(reqs, c, j, i + 1) == Made(reqs, c, j, i) + 1;
    }
    AdmittedIffFits(reqs, i);
  }

  /** Any stretch of requests spanning d seconds admits at most 30 + 10·d of one client. */
  lemma {:induction false} WindowBound(reqs: seq<Request>, c: string, lo: nat, hi: nat)
    requires Ordered(reqs) && lo < hi <= |reqs|
    ensures Count(reqs, c, lo, hi) as real <= 30.0 + 10.0 * (reqs[hi - 1].at - reqs[lo].at)
    decreases hi - lo
  {
    if reqs[lo].client != c || !Admitted(reqs, lo) {
      CountFirst(reqs, c, lo, hi);
      if lo + 1 < hi { WindowBound(reqs, c, lo + 1, hi); }
    } else if reqs[hi - 1].client != c || !Admitted(reqs, hi - 1) {
      if lo + 1 < hi { WindowBound(reqs, c, lo, hi - 1); }
    } else {
      AdmittedIffFits(reqs, hi - 1);
    }
  }

  lemma {:induction false} CountFirst(reqs: seq<Request>, c: string, lo: nat, hi: nat)
    requires lo < hi <= |reqs|
    ensures Count(reqs, c, lo, hi) ==
            Count(reqs, c, lo + 1, hi) + if reqs[lo].client == c && Admitted(reqs, lo) then 1 else 0
  {
    if lo + 1 < hi { CountFirst(reqs, c, lo, hi - 1); }
  }
}
