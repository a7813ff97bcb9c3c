/** The network part of Tick (agent/internal/collect/sampler.go): deltas per interface, totals, and sortIfaces. */
module Network {
  import Rates

  datatype Counters = Counters(rx: nat, tx: nat)
  type Reading = map<string, Counters>

  datatype Iface = Iface(name: string, virt: bool, rxBps: nat, txBps: nat, rxTotal: nat, txTotal: nat)
  datatype Totals = Totals(rxBps: nat, txBps: nat, rxTotal: nat, txTotal: nat)

  const PREFIXES := ["veth", "docker", "br-", "virbr", "tun", "tap", "wg", "vmnet", "cni", "flannel", "kube", "zt"]

  predicate IsVirtual(name: string) {
    name == "lo" || exists i :: 0 <= i < |PREFIXES| && PREFIXES[i] <= name
  }

  /** The rate of one counter: zero when it went back. */
  function CounterRate(before: nat, now: nat, elapsed: real): nat
    requires elapsed > 0.0
  {
    if now >= before then Rates.RateOf(now - before, elapsed) else 0
  }

  /** One listed interface; one that was not there a tick ago shows no rate. */
  function Entry(prev: Reading, cur: Reading, name: string, elapsed: real): Iface
    requires name in cur && elapsed > 0.0
  {
    var c := cur[name];
    Iface(name, IsVirtual(name),
          if name in prev then CounterRate(prev[name].rx, c.rx, elapsed) else 0,
          if name in prev then CounterRate(prev[name].tx, c.tx, elapsed) else 0, c.rx, c.tx)
  }

  function EntriesOf(prev: Reading, cur: Reading, names: set<string>, elapsed: real): set<Iface>
    requires names <= cur.Keys && elapsed > 0.0
  {
    set name | name in names :: Entry(prev, cur, name, elapsed)
  }

  function Entries(prev: Reading, cur: Reading, elapsed: real): set<Iface>
    requires elapsed > 0.0
  {
    EntriesOf(prev, cur, cur.Keys, elapsed)
  }

  lemma OneMoreEntry(prev: Reading, cur: Reading, names: set<string>, name: string, elapsed: real, list: seq<Iface>)
    requires names <= cur.Keys && name in cur && name !in names && elapsed > 0.0
    requires multiset(list) == multiset(EntriesOf(prev, cur, names, elapsed))
    ensures multiset(list + [Entry(prev, cur, name, elapsed)])
         == multiset(EntriesOf(prev, cur, names + {name}, elapsed))
  {
    var before, x := EntriesOf(prev, cur, names, elapsed), Entry(prev, cur, name, elapsed);
    assert x !in before;
    assert EntriesOf(prev, cur, names + {name}, elapsed) == before + {x};
  }

  function Plus(t: Totals, x: Iface): Totals {
    if x.virt then t
    else Totals(t.rxBps + x.rxBps, t.txBps + x.txBps, t.rxTotal + x.rxTotal, t.txTotal + x.txTotal)
  }

  /** The sum over the listed interfaces that are not virtual. */
  function Total(list: seq<Iface>): Totals {
    if list == [] then Totals(0, 0, 0, 0) else Plus(Total(list[..|list| - 1]), list[|list| - 1])
  }

  lemma TotalOfOneMore(list: seq<Iface>, x: Iface)
    ensures Total(list + [x]) == Plus(Total(list), x)
  {
    assert (list + [x])[..|list|] == list;
  }

  lemma PlusCommutes(t: Totals, x: Iface, y: Iface)
    ensures Plus(Plus(t, x), y) == Plus(Plus(t, y), x)
  {}

  lemma TotalOfLast(list: seq<Iface>, front: seq<Iface>, x: Iface)
    requires list == front + [x]
    ensures Total(list) == Plus(Total(front), x)
  {
    TotalOfOneMore(front, x);
  }

  lemma {:induction false} TotalWithout(list: seq<Iface>, a: seq<Iface>, x: Iface, b: seq<Iface>, rest: seq<Iface>)
    requires list == a + [x] + b && rest == a + b
    ensures Total(list) == Plus(Total(rest), x)
    decreases |b|
  {
    if b == [] {
      TotalOfLast(list, rest, x);
    } else {
      var front, y := b[..|b| - 1], b[|b| - 1];
      TotalWithout(a + [x] + front, a, x, front, a + front);
      TotalOfLast(list, a + [x] + front, y);
      TotalOfLast(rest, a + front, y);
      PlusCommutes(Total(a + front), x, y);
    }
  }

  lemma SplitAt(b: seq<Iface>, x: Iface) returns (front: seq<Iface>, back: seq<Iface>)
    requires x in multiset(b)
    ensures b == front + [x] + back && multiset(front + back) == multiset(b) - multiset{x}
  {
    var k :| 0 <= k < |b| && b[k] == x;
    front, back := b[..k], b[k + 1..];
    assert b == front + [x] + back;
  }

  lemma {:induction false} TotalOfPermutation(a: seq<Iface>, b: seq<Iface>)
    requires multiset(a) == multiset(b)
    ensures Total(a) == Total(b)
  {
    if a == [] {
      assert |multiset(b)| == 0;
    } else {
      var x := a[|a| - 1];
      SplitLast(a);
      assert x in multiset(a);
      var front, back := SplitAt(b, x);
      TotalOfPermutation(a[..|a| - 1], front + back);
      TotalWithout(b, front, x, back, front + back);
    }
  }

  // ---------- the order of the list ----------

  /** Go's `a > b` on strings. */
  predicate Greater(a: string, b: string) {
    a != "" && (b == "" || a[0] > b[0] || (a[0] == b[0] && Greater(a[1..], b[1..])))
  }

  lemma {:induction false} GreaterIsTotal(a: string, b: string)
    ensures !Greater(a, b) || !Greater(b, a)
    ensures !Greater(a, b) && !Greater(b, a) ==> a == b
  {
    if a != "" && b != "" && a[0] == b[0] {
      GreaterIsTotal(a[1..], b[1..]);
      assert a == [a[0]] + a[1..] && b == [b[0]] + b[1..];
    }
  }

  lemma {:induction false} NotGreaterIsTransitive(a: string, b: string, c: string)
    requires !Greater(a, b) && !Greater(b, c)
    ensures !Greater(a, c)
  {
    if a != "" && b != "" && c != "" && a[0] == b[0] == c[0] {
      NotGreaterIsTransitive(a[1..], b[1..], c[1..]);
    }
  }

  /** `sortIfaces` swaps `a` and `b` when they stand in this order. */
  predicate Swap(a: Iface, b: Iface) {
    (a.virt && !b.virt) || (a.virt == b.virt && Greater(a.name, b.name))
  }

  lemma NoSwapIsTransitive(a: Iface, b: Iface, c: Iface)
    requires !Swap(a, b) && !Swap(b, c)
    ensures !Swap(a, c)
  {
    if a.virt == b.virt == c.virt { NotGreaterIsTransitive(a.name, b.name, c.name); }
  }

  ghost predicate Sorted(s: seq<Iface>) {
    forall i, j :: 0 <= i < j < |s| ==> !Swap(s[i], s[j])
  }

  /** Sorted but for the element at `j`, which belongs before everything that follows it. */
  ghost predicate Sinking(s: seq<Iface>, j: nat)
    requires j < |s|
  {
    && (forall p, q :: 0 <= p < q < |s| && p != j && q != j ==> !Swap(s[p], s[q]))
    && (forall q :: j < q < |s| ==> !Swap(s[j], s[q]))
  }

  lemma SinkStep(s: seq<Iface>, j: nat)
    requires 0 < j < |s| && Sinking(s, j) && Swap(s[j - 1], s[j])
    ensures Sinking(s[j - 1 := s[j]][j := s[j - 1]], j - 1)
  {
    GreaterIsTotal(s[j - 1].name, s[j].name);
  }

  lemma SinkDone(s: seq<Iface>, j: nat)
    requires j < |s| && Sinking(s, j) && (j > 0 ==> !Swap(s[j - 1], s[j]))
    ensures Sorted(s)
  {
    forall p | 0 <= p < j ensures !Swap(s[p], s[j]) {
      if p < j - 1 { NoSwapIsTransitive(s[p], s[j - 1], s[j]); }
    }
  }

  /** Insertion sort, in place. */
  method SortIfaces(a: array<Iface>)
    modifies a
    ensures Sorted(a[..]) && multiset(a[..]) == multiset(old(a[..]))
  {
    var i := 1;
    while i < a.Length
      invariant 1 <= i && multiset(a[..]) == multiset(old(a[..]))
      invariant Sorted(if i <= a.Length then a[..i] else a[..])
    {
      Sink(a, i);
      i := i + 1;
    }
    assert i == a.Length ==> a[..i] == a[..];
  }

  method Sink(a: array<Iface>, i: nat)
    requires i < a.Length && Sorted(a[..i])
    modifies a
    ensures Sorted(a[..i + 1]) && multiset(a[..]) == multiset(old(a[..]))
  {
    var j: nat := i;
    while j > 0
      invariant j <= i && Sinking(a[..i + 1], j) && multiset(a[..]) == multiset(old(a[..]))
    {
      ghost var s := a[..i + 1];
      if !Swap(a[j - 1], a[j]) {
        break;
      }
      SinkStep(s, j);
      a[j - 1], a[j] := a[j], a[j - 1];
      assert a[..i + 1] == s[j - 1 := s[j]][j := s[j - 1]];
      j := j - 1;
    }
    SinkDone(a[..i + 1], j);
  }

  // ---------- one tick ----------

  ghost predicate DistinctNames(s: seq<Iface>) {
    forall x, y :: x in s && y in s && x.name == y.name ==> x == y
  }

  lemma LastIsSame(a: seq<Iface>, b: seq<Iface>)
    requires Sorted(a) && Sorted(b) && a != [] && b != [] && DistinctNames(a)
    requires a[|a| - 1] in b && b[|b| - 1] in a
    ensures a[|a| - 1] == b[|b| - 1]
  {
    var x, y := a[|a| - 1], b[|b| - 1];
    var k :| 0 <= k < |b| && b[k] == x;
    var l :| 0 <= l < |a| && a[l] == y;
    if k < |b| - 1 && l < |a| - 1 {
      assert !Swap(x, y) && !Swap(y, x);
      GreaterIsTotal(x.name, y.name);
    }
  }

  lemma FrontIsSorted(s: seq<Iface>)
    requires s != [] && Sorted(s) && DistinctNames(s)
    ensures Sorted(s[..|s| - 1]) && DistinctNames(s[..|s| - 1])
  {}

  lemma SplitLast(s: seq<Iface>)
    requires s != []
    ensures s == s[..|s| - 1] + [s[|s| - 1]]
    ensures multiset(s[..|s| - 1]) == multiset(s) - multiset{s[|s| - 1]}
  {
    assert s == s[..|s| - 1] + [s[|s| - 1]];
  }

  lemma LastsAgree(a: seq<Iface>, b: seq<Iface>)
    requires Sorted(a) && Sorted(b) && a != [] && multiset(a) == multiset(b) && DistinctNames(a)
    ensures b != [] && a[|a| - 1] == b[|b| - 1]
    ensures multiset(a[..|a| - 1]) == multiset(b[..|b| - 1])
  {
    assert |multiset(b)| == |a|;
    assert a[|a| - 1] in multiset(b) && b[|b| - 1] in multiset(a);
    LastIsSame(a, b);
    SplitLast(a);
    SplitLast(b);
  }

  /** There is only one way to sort interfaces with distinct names. */
  lemma {:induction false} SortedListIsUnique(a: seq<Iface>, b: seq<Iface>)
    requires Sorted(a) && Sorted(b) && multiset(a) == multiset(b) && DistinctNames(a) && DistinctNames(b)
    ensures a == b
    decreases |a|
  {
    if a == [] {
      assert |multiset(b)| == 0;
    } else {
      LastsAgree(a, b);
      FrontIsSorted(a);
      FrontIsSorted(b);
      SortedListIsUnique(a[..|a| - 1], b[..|b| - 1]);
      SplitLast(a);
      SplitLast(b);
    }
  }

  method Measure(prev: Reading, cur: Reading, name: string, elapsed: real) returns (x: Iface)
    requires name in cur && elapsed > 0.0
    ensures x == Entry(prev, cur, name, elapsed)
  {
    var c := cur[name];
    var virt := IsVirtual(name);
    var rbps: nat, tbps: nat := 0, 0;
    if name in prev {
      if c.rx >= prev[name].rx {
        rbps := Rates.RateOf(c.rx - prev[name].rx, elapsed);
      }
      if c.tx >= prev[name].tx {
        tbps := Rates.RateOf(c.tx - prev[name].tx, elapsed);
      }
    }
    return Iface(name, virt, rbps, tbps, c.rx, c.tx);
  }

  method Add(t: Totals, x: Iface) returns (sum: Totals)
    ensures sum == Plus(t, x)
  {
    if x.virt {
      return t;
    }
    return Totals(t.rxBps + x.rxBps, t.txBps + x.txBps, t.rxTotal + x.rxTotal, t.txTotal + x.txTotal);
  }

  /** Visits the interfaces in whatever order the map yields them. */
  method Collect(prev: Reading, cur: Reading, elapsed: real) returns (list: seq<Iface>, total: Totals)
    requires elapsed > 0.0
    ensures multiset(list) == multiset(Entries(prev, cur, elapsed)) && total == Total(list)
  {
    list, total := [], Totals(0, 0, 0, 0);
    var todo := cur.Keys;
    ghost var seen: set<string> := {};
    while todo != {}
      invariant todo !! seen && todo + seen == cur.Keys
      invariant multiset(list) == multiset(EntriesOf(prev, cur, seen, elapsed))
      invariant total == Total(list)
      decreases todo
    {
      var name :| name in todo;
      var x := Measure(prev, cur, name, elapsed);
      OneMoreEntry(prev, cur, seen, name, elapsed, list);
      TotalOfOneMore(list, x);
      total := Add(total, x);
      list, seen, todo := list + [x], seen + {name}, todo - {name};
    }
  }

  /** The listed interfaces, sorted, and totals that are the sums over them. */
  method Deltas(prev: Reading, cur: Reading, elapsed: real) returns (list: seq<Iface>, total: Totals)
    requires elapsed > 0.0
    ensures Sorted(list) && multiset(list) == multiset(Entries(prev, cur, elapsed)) && total == Total(list)
  {
    var unsorted;
    unsorted, total := Collect(prev, cur, elapsed);
    var a := new Iface[|unsorted|](i requires 0 <= i < |unsorted| => unsorted[i]);
    assert a[..] == unsorted;
    SortIfaces(a);
    list := a[..];
    TotalOfPermutation(unsorted, list);
  }

  lemma EntriesHaveDistinctNames(prev: Reading, cur: Reading, elapsed: real, s: seq<Iface>)
    requires elapsed > 0.0 && multiset(s) == multiset(Entries(prev, cur, elapsed))
    ensures DistinctNames(s)
  {
    forall x | x in s
      ensures x.name in cur && x == Entry(prev, cur, x.name, elapsed)
    {
      assert x in multiset(s);
      assert x in Entries(prev, cur, elapsed);
    }
  }

  // ---------- what the list and the totals say ----------

  /** The virtual interfaces: the loopback, and those of containers, virtual machines and tunnels by their names. */
  lemma VirtualIff(name: string)
    ensures IsVirtual(name) <==>
              || name == "lo" || "veth" <= name || "docker" <= name || "br-" <= name || "virbr" <= name
              || "tun" <= name || "tap" <= name || "wg" <= name || "vmnet" <= name || "cni" <= name
              || "flannel" <= name || "kube" <= name || "zt" <= name
  {
    assert PREFIXES[0] == "veth" && PREFIXES[1] == "docker" && PREFIXES[2] == "br-" && PREFIXES[3] == "virbr";
    assert PREFIXES[4] == "tun" && PREFIXES[5] == "tap" && PREFIXES[6] == "wg" && PREFIXES[7] == "vmnet";
    assert PREFIXES[8] == "cni" && PREFIXES[9] == "flannel" && PREFIXES[10] == "kube" && PREFIXES[11] == "zt";
  }

  /** Every interface is listed, once, and with its own counters; nothing else is listed. */
  lemma ListIsComplete(prev: Reading, cur: Reading, elapsed: real, list: seq<Iface>)
    requires elapsed > 0.0 && multiset(list) == multiset(Entries(prev, cur, elapsed))
    ensures forall x :: x in list ==>
              x.name in cur && x.rxTotal == cur[x.name].rx && x.txTotal == cur[x.name].tx
              && x.virt == IsVirtual(x.name)
    ensures forall name :: name in cur ==> exists i :: 0 <= i < |list| && list[i].name == name
    ensures forall i, j :: 0 <= i < |list| && 0 <= j < |list| && list[i].name == list[j].name ==> i == j
  {
    var entries := Entries(prev, cur, elapsed);
    forall x | x in list
      ensures x.name in cur && x == Entry(prev, cur, x.name, elapsed)
    {
      assert x in multiset(list);
      assert x in entries;
    }
    forall name | name in cur
      ensures exists i :: 0 <= i < |list| && list[i].name == name
    {
      assert Entry(prev, cur, name, elapsed) in multiset(entries);
      assert Entry(prev, cur, name, elapsed) in list;
    }
    forall i, j | 0 <= i < j < |list|
      ensures list[i].name != list[j].name
    {
      if list[i].name == list[j].name {
        assert list[i] == list[j];
        TwiceIsTwo(list, i, j);
      }
    }
  }

  lemma TwiceIsTwo(list: seq<Iface>, i: nat, j: nat)
    requires i < j < |list| && list[i] == list[j]
    ensures multiset(list)[list[i]] >= 2
  {
    assert list == list[..i] + [list[i]] + list[i + 1..j] + [list[j]] + list[j + 1..];
  }

  /** The sum of one column over the physical interfaces. */
  ghost function Sum(list: seq<Iface>, column: Iface -> nat): nat {
    if list == [] then 0
    else Sum(list[..|list| - 1], column) + if list[|list| - 1].virt then 0 else column(list[|list| - 1])
  }

  lemma {:induction false} TotalIsSum(list: seq<Iface>)
    ensures Total(list).rxBps == Sum(list, (x: Iface) => x.rxBps)
    ensures Total(list).txBps == Sum(list, (x: Iface) => x.txBps)
    ensures Total(list).rxTotal == Sum(list, (x: Iface) => x.rxTotal)
    ensures Total(list).txTotal == Sum(list, (x: Iface) => x.txTotal)
  {
    if list != [] { TotalIsSum(list[..|list| - 1]); }
  }

  /** `a` comes before `b` in the order of strings, decided at position `k`. */
  predicate Precedes(a: string, b: string, k: nat) {
    k <= |a| && k < |b| && a[..k] == b[..k] && (k == |a| || a[k] < b[k])
  }

  lemma {:induction false} GreaterIff(a: string, b: string)
    ensures Greater(a, b) <==> exists k: nat :: Precedes(b, a, k)
  {
    if a == "" {
    } else if b == "" || a[0] > b[0] {
      assert Precedes(b, a, 0);
    } else if a[0] == b[0] {
      GreaterIff(a[1..], b[1..]);
      if k: nat :| Precedes(b[1..], a[1..], k) {
        assert b[..k + 1] == [b[0]] + b[1..][..k] && a[..k + 1] == [a[0]] + a[1..][..k];
        assert Precedes(b, a, k + 1);
      }
      if k: nat :| Precedes(b, a, k) {
        assert b[1..][..k - 1] == b[..k][1..] && a[1..][..k - 1] == a[..k][1..];
        assert Precedes(b[1..], a[1..], k - 1);
      }
    } else {
      forall k: nat
        ensures !Precedes(b, a, k)
      {
        if k > 0 && k <= |a| && k <= |b| {
          assert b[..k][0] == b[0] && a[..k][0] == a[0];
        }
      }
    }
  }

  /** Sorted means: physical interfaces first, and each kind in the order of names. */
  lemma SortedIff(list: seq<Iface>)
    ensures Sorted(list) <==>
              forall i, j :: 0 <= i < j < |list| ==>
                (list[i].virt ==> list[j].virt)
                && (list[i].virt == list[j].virt ==> !exists k: nat :: Precedes(list[j].name, list[i].name, k))
  {
    forall i, j | 0 <= i < j < |list|
      ensures !Swap(list[i], list[j]) <==>
                (list[i].virt ==> list[j].virt)
                && (list[i].virt == list[j].virt ==> !exists k: nat :: Precedes(list[j].name, list[i].name, k))
    {
      GreaterIff(list[i].name, list[j].name);
    }
  }

  /** So the list and the totals are the same for every order in which the map is visited. */
  lemma DeltasAreDetermined(prev: Reading, cur: Reading, elapsed: real, a: seq<Iface>, b: seq<Iface>)
    requires elapsed > 0.0 && Sorted(a) && Sorted(b)
    requires multiset(a) == multiset(Entries(prev, cur, elapsed)) == multiset(b)
    ensures a == b
  {
    EntriesHaveDistinctNames(prev, cur, elapsed, a);
    EntriesHaveDistinctNames(prev, cur, elapsed, b);
    SortedListIsUnique(a, b);
  }
}
