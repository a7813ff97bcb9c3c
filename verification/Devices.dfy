/** What the device store of agent/internal/store/store.go holds in memory and on disk, over whole runs. */
module Devices {
  import opened Common

  type Time = nat // nanoseconds; 0 is Go's zero time, before every clock reading

  datatype Device = Device(id: string, name: string, fingerprint: string, tokenHash: string,
                           enrolledAt: Time, lastSeen: Time, expiresAt: Time)

  type Table = map<string, Device> // by certificate fingerprint

  /** Loading a file: a later entry for the same fingerprint wins. */
  function Loaded(list: seq<Device>): Table {
    if list == [] then map[]
    else var d := list[|list| - 1]; Loaded(list[..|list| - 1])[d.fingerprint := d]
  }

  /** Every entry's fingerprint is loaded, */
  lemma {:induction false} EntryIsLoaded(list: seq<Device>, i: nat)
    requires i < |list|
    ensures list[i].fingerprint in Loaded(list)
  {
    if i < |list| - 1 { EntryIsLoaded(list[..|list| - 1], i); }
  }

  /** and what is loaded under a fingerprint is the last entry that carries it. */
  lemma {:induction false} LoadedIsLastEntry(list: seq<Device>, fp: string) returns (i: nat)
    requires fp in Loaded(list)
    ensures i < |list| && list[i].fingerprint == fp && Loaded(list)[fp] == list[i]
    ensures forall j :: i < j < |list| ==> list[j].fingerprint != fp
  {
    i := |list| - 1;
    if list[i].fingerprint != fp { i := LoadedIsLastEntry(list[..i], fp); }
  }

  // ---------- one event ----------

  /** A change to the table that is written to disk before it counts. */
  datatype Change =
    | AddDevice(device: Device)
    | Renew(oldFp: string, newFp: string, expires: Time)
    | Drop(fp: string)

  /** How writing it out went; a kill comes before or after the rename, and a restart follows. */
  datatype Outcome = Saved | Failed | Killed(renamed: bool, readable: bool)

  datatype Event =
    | Write(change: Change, outcome: Outcome)
    | Touch(fp: string, now: Time)
    | Restart(readable: bool)

  datatype State = State(mem: Table, stored: Table)
  const EMPTY := State(map[], map[])

  /** `Replace` refuses an unknown fingerprint before it changes anything; `Revoke` picks a present one. */
  predicate Enabled(s: State, e: Event) {
    e.Write? ==> match e.change
                 case AddDevice(_) => true
                 case Renew(oldFp, _, _) => oldFp in s.mem
                 case Drop(fp) => fp in s.mem
  }

  /** The table that is about to be written. */
  function Target(mem: Table, c: Change): Table
    requires Enabled(State(mem, mem), Write(c, Saved))
  {
    match c
    case AddDevice(d) => mem[d.fingerprint := d]
    case Renew(oldFp, newFp, expires) =>
      (mem - {oldFp})[newFp := mem[oldFp].(fingerprint := newFp, expiresAt := expires)]
    case Drop(fp) => mem - {fp}
  }

  /** What a failed write leaves in memory: `Add` and `Replace` roll back, `Revoke` does not. */
  function RolledBack(mem: Table, c: Change): Table
    requires Enabled(State(mem, mem), Write(c, Saved))
  {
    match c
    case AddDevice(d) => Target(mem, c) - {d.fingerprint}
    case Renew(oldFp, newFp, _) => (Target(mem, c) - {newFp})[oldFp := mem[oldFp]]
    case Drop(fp) => mem - {fp}
  }

  function Touched(mem: Table, fp: string, now: Time): Table {
    if fp in mem then mem[fp := mem[fp].(lastSeen := now)] else mem
  }

  function Restarted(stored: Table, readable: bool): State {
    State(if readable then stored else map[], stored)
  }

  function Next(s: State, e: Event): State
    requires Enabled(s, e)
  {
    match e
    case Touch(fp, now) => s.(mem := Touched(s.mem, fp, now))
    case Restart(readable) => Restarted(s.stored, readable)
    case Write(c, Saved) => State(Target(s.mem, c), Target(s.mem, c))
    case Write(c, Failed) => State(RolledBack(s.mem, c), s.stored)
    case Write(c, Killed(renamed, readable)) =>
      Restarted(if renamed then Target(s.mem, c) else s.stored, readable)
  }

  predicate Names(c: Change, fp: string) {
    match c
    case AddDevice(d) => d.fingerprint == fp
    case Renew(oldFp, newFp, _) => oldFp == fp || newFp == fp
    case Drop(x) => x == fp
  }

  /** A device that a change does not name is left as it is, whether the change is saved or fails. */
  lemma OthersAreLeftAlone(s: State, c: Change, saved: bool, fp: string)
    requires Enabled(s, Write(c, Saved)) && fp in s.mem && !Names(c, fp)
    ensures var t := Next(s, Write(c, if saved then Saved else Failed)); fp in t.mem && t.mem[fp] == s.mem[fp]
  {}

  // ---------- runs ----------

  ghost predicate Legal(s: State, es: seq<Event>)
    decreases |es|, 0
  {
    es != [] ==>
      Legal(s, es[..|es| - 1]) && Enabled(After(s, es[..|es| - 1]), es[|es| - 1])
  }

  ghost function After(s: State, es: seq<Event>): State
    requires Legal(s, es)
    decreases |es|, 1
  {
    if es == [] then s else Next(After(s, es[..|es| - 1]), es[|es| - 1])
  }

  /** The state after the first `n` events. */
  ghost function At(s: State, es: seq<Event>, n: nat): State
    requires Legal(s, es) && n <= |es|
    decreases |es|
  {
    if n == |es| then After(s, es) else At(s, es[..|es| - 1], n)
  }

  // ---------- memory is backed by disk ----------

  predicate SameIdentity(a: Device, b: Device) {
    a.(lastSeen := b.lastSeen) == b
  }

  ghost predicate Keyed(t: Table) {
    forall fp :: fp in t ==> t[fp].fingerprint == fp
  }

  /** Every device in memory is on disk with the same identity fields. */
  ghost predicate Backed(s: State) {
    forall fp :: fp in s.mem ==> fp in s.stored && SameIdentity(s.mem[fp], s.stored[fp])
  }

  /** Memory and disk agree except for LastSeen. */
  ghost predicate Agree(s: State) {
    Backed(s) && s.stored.Keys == s.mem.Keys
  }

  lemma {:induction false} AlwaysBacked(s: State, es: seq<Event>)
    requires Legal(s, es) && Backed(s) && Keyed(s.mem) && Keyed(s.stored)
    ensures Backed(After(s, es)) && Keyed(After(s, es).mem) && Keyed(After(s, es).stored)
    decreases |es|
  {
    if es != [] { AlwaysBacked(s, es[..|es| - 1]); }
  }

  /** The events after which memory may hold less than the disk. */
  predicate MayDiverge(s: State, e: Event) {
    match e
    case Write(AddDevice(d), Failed) => d.fingerprint in s.mem
    case Write(Renew(oldFp, newFp, _), Failed) => newFp != oldFp && newFp in s.mem
    case Write(Drop(_), Failed) => true
    case Write(_, Killed(_, readable)) => !readable
    case Restart(readable) => !readable
    case _ => false
  }

  ghost predicate NeverDiverges(s: State, es: seq<Event>)
    requires Legal(s, es)
    decreases |es|
  {
    es != [] ==>
      NeverDiverges(s, es[..|es| - 1]) && !MayDiverge(After(s, es[..|es| - 1]), es[|es| - 1])
  }

  /** A write that returned nil makes them equal; afterwards they agree until one of the events above. */
  lemma {:induction false} AgreeSinceSaved(s: State, c: Change, es: seq<Event>)
    requires Enabled(s, Write(c, Saved))
    requires Legal(Next(s, Write(c, Saved)), es) && NeverDiverges(Next(s, Write(c, Saved)), es)
    ensures Agree(After(Next(s, Write(c, Saved)), es))
    decreases |es|
  {
    if es != [] { AgreeSinceSaved(s, c, es[..|es| - 1]); }
  }

  // ---------- rollback ----------

  /** A failed `Add` restores memory exactly when the fingerprint was not yet in use. */
  lemma FailedAddRestoresIffFresh(s: State, d: Device)
    ensures Next(s, Write(AddDevice(d), Failed)).stored == s.stored
    ensures Next(s, Write(AddDevice(d), Failed)).mem == s.mem <==> d.fingerprint !in s.mem
  {
    if d.fingerprint !in s.mem {
      assert s.mem[d.fingerprint := d] - {d.fingerprint} == s.mem;
    } else {
      assert d.fingerprint !in Next(s, Write(AddDevice(d), Failed)).mem;
    }
  }

  /** A failed `Replace` restores memory exactly when the new fingerprint belonged to no other device. */
  lemma FailedRenewRestoresIffFresh(s: State, oldFp: string, newFp: string, expires: Time)
    requires oldFp in s.mem
    ensures var t := Next(s, Write(Renew(oldFp, newFp, expires), Failed));
            t.stored == s.stored && (t.mem == s.mem <==> newFp == oldFp || newFp !in s.mem)
  {
    var t := Next(s, Write(Renew(oldFp, newFp, expires), Failed));
    if newFp == oldFp || newFp !in s.mem {
      assert t.mem == s.mem;
    } else {
      assert newFp !in t.mem;
    }
  }

  // ---------- revocation lasts ----------

  predicate Introduces(e: Event, fp: string) {
    e.Write? && match e.change
                case AddDevice(d) => d.fingerprint == fp
                case Renew(_, newFp, _) => newFp == fp
                case Drop(_) => false
  }

  predicate Gone(s: State, fp: string) {
    fp !in s.mem && fp !in s.stored
  }

  lemma {:induction false} GoneStaysGone(s: State, es: seq<Event>, fp: string)
    requires Legal(s, es) && Gone(s, fp)
    requires forall i :: 0 <= i < |es| ==> !Introduces(es[i], fp)
    ensures Gone(After(s, es), fp)
    decreases |es|
  {
    if es != [] { GoneStaysGone(s, es[..|es| - 1], fp); }
  }

  /** Once `Revoke`, or a renewal's `Replace`, returned nil, the old certificate is never accepted again:
      not after any later operations, failed writes, kills or restarts. */
  lemma RevokedIsNeverAccepted(s: State, c: Change, es: seq<Event>, fp: string)
    requires Enabled(s, Write(c, Saved))
    requires c == Drop(fp) || (c.Renew? && c.oldFp == fp && c.newFp != fp)
    requires Legal(Next(s, Write(c, Saved)), es)
    requires forall i :: 0 <= i < |es| ==> !Introduces(es[i], fp)
    ensures fp !in After(Next(s, Write(c, Saved)), es).mem
  {
    GoneStaysGone(Next(s, Write(c, Saved)), es, fp);
  }

  // ---------- devices that are on disk but not in memory ----------

  /** The process starts afresh and can read the file. */
  predicate Reloads(e: Event) {
    e == Restart(true) || (e.Write? && e.outcome.Killed? && e.outcome.readable)
  }

  /** What is in memory, with its change, gets onto the disk. */
  predicate Persists(e: Event) {
    e.Write? && (e.outcome.Saved? || (e.outcome.Killed? && e.outcome.renamed))
  }

  /** Event `i` loads the file before any event has rewritten it. */
  ghost predicate ReloadsFirst(es: seq<Event>, i: nat) {
    i < |es| && Reloads(es[i]) && forall j :: 0 <= j <= i ==> !Persists(es[j])
  }

  lemma {:induction false} StoredUntilPersisted(s: State, es: seq<Event>)
    requires Legal(s, es) && forall j :: 0 <= j < |es| ==> !Persists(es[j])
    ensures After(s, es).stored == s.stored
    decreases |es|
  {
    if es != [] { StoredUntilPersisted(s, es[..|es| - 1]); }
  }

  /** Until the file is loaded, such a device stays hidden, and the first write takes it off the disk too. */
  lemma {:induction false} HiddenStaysHidden(s: State, es: seq<Event>, fp: string)
    requires Legal(s, es) && fp !in s.mem
    requires forall i :: 0 <= i < |es| ==> !Introduces(es[i], fp) && !ReloadsFirst(es, i)
    ensures fp !in After(s, es).mem
    ensures (exists j :: 0 <= j < |es| && Persists(es[j])) ==> Gone(After(s, es), fp)
    decreases |es|
  {
    if es != [] {
      var n := |es| - 1;
      forall i | 0 <= i < n
        ensures !ReloadsFirst(es[..n], i)
      {
        assert !ReloadsFirst(es, i);
      }
      HiddenStaysHidden(s, es[..n], fp);
      assert !ReloadsFirst(es, n);
    }
  }

  ghost predicate ReturnsIn(s: State, es: seq<Event>, fp: string)
    requires Legal(s, es)
  {
    exists n :: 0 <= n <= |es| && fp in At(s, es, n).mem
  }

  ghost predicate ReloadedFirst(es: seq<Event>) {
    exists i :: ReloadsFirst(es, i)
  }

  lemma ReturnsInStep(s: State, es: seq<Event>, fp: string)
    requires Legal(s, es) && es != []
    ensures ReturnsIn(s, es, fp) <==> ReturnsIn(s, es[..|es| - 1], fp) || fp in After(s, es).mem
    ensures ReloadedFirst(es) <==> ReloadedFirst(es[..|es| - 1]) || ReloadsFirst(es, |es| - 1)
  {
    var n := |es| - 1;
    if ReturnsIn(s, es[..n], fp) {
      var k :| 0 <= k <= n && fp in At(s, es[..n], k).mem;
      assert fp in At(s, es, k).mem;
    }
    if ReturnsIn(s, es, fp) {
      var k :| 0 <= k <= |es| && fp in At(s, es, k).mem;
      assert k == |es| || fp in At(s, es[..n], k).mem;
    }
    assert At(s, es, |es|) == After(s, es);
    if ReloadedFirst(es[..n]) {
      var i :| ReloadsFirst(es[..n], i);
      assert ReloadsFirst(es, i);
    }
    if ReloadedFirst(es) {
      var i :| ReloadsFirst(es, i);
      assert i == n || ReloadsFirst(es[..n], i);
    }
  }

  /** A device on disk but not in memory, that nothing adds again, returns if and only if the file is loaded before it
      is rewritten. */
  lemma {:induction false} HiddenReturnsIff(s: State, es: seq<Event>, fp: string)
    requires Legal(s, es) && fp !in s.mem
    requires forall i :: 0 <= i < |es| ==> !Introduces(es[i], fp)
    ensures ReturnsIn(s, es, fp) <==> fp in s.stored && ReloadedFirst(es)
    decreases |es|
  {
    if es == [] {
      assert At(s, es, 0) == s;
    } else {
      var front, e := es[..|es| - 1], es[|es| - 1];
      HiddenReturnsIff(s, front, fp);
      ReturnsInStep(s, es, fp);
      if fp !in s.stored {
        GoneStaysGone(s, es, fp);
      } else if !ReloadedFirst(front) {
        HiddenStaysHidden(s, front, fp);
        if ReloadsFirst(es, |es| - 1) {
          StoredUntilPersisted(s, front);
        }
      }
    }
  }

  /** So a `Revoke` whose save failed is undone exactly when the process restarts, and can read the file, before any
      later change is written. Otherwise the first such write makes it permanent. */
  lemma FailedRevokeReturnsIff(s: State, fp: string, es: seq<Event>)
    requires fp in s.mem
    requires Legal(Next(s, Write(Drop(fp), Failed)), es)
    requires forall i :: 0 <= i < |es| ==> !Introduces(es[i], fp)
    ensures var t := Next(s, Write(Drop(fp), Failed));
            && (ReturnsIn(t, es, fp) <==> fp in s.stored && ReloadedFirst(es))
            && (!ReloadedFirst(es) && (exists j :: 0 <= j < |es| && Persists(es[j])) ==> Gone(After(t, es), fp))
  {
    var t := Next(s, Write(Drop(fp), Failed));
    HiddenReturnsIff(t, es, fp);
    if !ReloadedFirst(es) {
      HiddenStaysHidden(t, es, fp);
    }
  }

  /** And a restart that cannot read the file loses every device for good, unless a restart that can comes before the
      first write: that write erases all devices but those added since. */
  lemma UnreadableRestartLosesIff(s: State, fp: string, es: seq<Event>)
    requires Legal(Next(s, Restart(false)), es)
    requires forall i :: 0 <= i < |es| ==> !Introduces(es[i], fp)
    ensures var t := Next(s, Restart(false));
            && (ReturnsIn(t, es, fp) <==> fp in s.stored && ReloadedFirst(es))
            && (!ReloadedFirst(es) && (exists j :: 0 <= j < |es| && Persists(es[j])) ==> Gone(After(t, es), fp))
  {
    var t := Next(s, Restart(false));
    HiddenReturnsIff(t, es, fp);
    if !ReloadedFirst(es) {
      HiddenStaysHidden(t, es, fp);
    }
  }

  // ---------- a paired device stays ----------

  predicate TakesOut(c: Change, fp: string) {
    match c
    case AddDevice(_) => false
    case Renew(oldFp, newFp, _) => oldFp == fp && newFp != fp
    case Drop(x) => x == fp
  }

  /** A failed change takes out the fingerprint it was to introduce, and a failed `Revoke` the one it removes. */
  predicate FailureTakesOut(c: Change, fp: string) {
    match c
    case AddDevice(d) => d.fingerprint == fp
    case Renew(oldFp, newFp, _) => newFp == fp && oldFp != fp
    case Drop(x) => x == fp
  }

  predicate Keeps(e: Event, fp: string) {
    match e
    case Touch(_, _) => true
    case Restart(readable) => readable
    case Write(c, Saved) => !TakesOut(c, fp)
    case Write(c, Failed) => !FailureTakesOut(c, fp)
    case Write(c, Killed(renamed, readable)) => readable && (renamed ==> !TakesOut(c, fp))
  }

  lemma {:induction false} KeptStays(s: State, es: seq<Event>, fp: string)
    requires Legal(s, es) && fp in s.mem && fp in s.stored
    requires forall i :: 0 <= i < |es| ==> Keeps(es[i], fp)
    ensures fp in After(s, es).mem && fp in After(s, es).stored
    decreases |es|
  {
    if es != [] { KeptStays(s, es[..|es| - 1], fp); }
  }

  ghost predicate Throughout(s: State, es: seq<Event>, fp: string)
    requires Legal(s, es)
  {
    forall n :: 0 <= n <= |es| ==> fp in At(s, es, n).mem
  }

  lemma ThroughoutStep(s: State, es: seq<Event>, fp: string)
    requires Legal(s, es) && es != []
    ensures Throughout(s, es, fp) <==> Throughout(s, es[..|es| - 1], fp) && fp in After(s, es).mem
  {
    var front := es[..|es| - 1];
    assert At(s, es, |es|) == After(s, es);
    if Throughout(s, es, fp) {
      forall n | 0 <= n <= |front| ensures fp in At(s, front, n).mem {
        assert fp in At(s, es, n).mem;
      }
    }
    if Throughout(s, front, fp) {
      forall n | 0 <= n < |es| ensures fp in At(s, es, n).mem {
        assert fp in At(s, front, n).mem;
      }
    }
  }

  /** A saved device is accepted at every moment of a run if and only if no event of the run is one that takes it out:
      its revocation or renewal, a failed change on its fingerprint, or a restart that cannot read the file. */
  lemma {:induction false} AcceptedThroughoutIff(s: State, es: seq<Event>, fp: string)
    requires Legal(s, es) && fp in s.mem && fp in s.stored
    ensures Throughout(s, es, fp) <==> forall i :: 0 <= i < |es| ==> Keeps(es[i], fp)
    decreases |es|
  {
    if es == [] {
      assert After(s, es) == s;
    } else {
      var front, e := es[..|es| - 1], es[|es| - 1];
      AcceptedThroughoutIff(s, front, fp);
      ThroughoutStep(s, es, fp);
      if forall i :: 0 <= i < |front| ==> Keeps(front[i], fp) {
        KeptStays(s, front, fp);
        assert Keeps(e, fp) <==> fp in Next(After(s, front), e).mem;
      }
    }
  }

  // ---------- which device Revoke removes ----------

  function NameHits(t: Table, arg: string, same: (string, string) -> bool): set<string> {
    set fp | fp in t && same(t[fp].name, arg)
  }

  ghost predicate HasId(t: Table, id: string) {
    exists fp :: fp in t && t[fp].id == id
  }

  /** What `Revoke(arg)` may remove, over every order in which Go may visit the map;
      `same` stands for strings.EqualFold. */
  ghost predicate Picks(t: Table, arg: string, same: (string, string) -> bool, r: Option<string>) {
    if HasId(t, arg) then r.Some? && r.value in t && t[r.value].id == arg
    else match r
         case Some(fp) => NameHits(t, arg, same) == {fp}
         case None => |NameHits(t, arg, same)| != 1
  }

  /** Of all devices, only this one is named so. */
  ghost predicate OnlyMatch(t: Table, arg: string, same: (string, string) -> bool, fp: string) {
    fp in t && same(t[fp].name, arg) && forall x :: x in t && same(t[x].name, arg) ==> x == fp
  }

  /** A device that carries the ID, if there is one; else the only device of that name; else none. */
  lemma PicksIff(t: Table, arg: string, same: (string, string) -> bool, r: Option<string>)
    requires Picks(t, arg, same, r)
    ensures (exists fp :: fp in t && t[fp].id == arg) ==> r.Some? && r.value in t && t[r.value].id == arg
    ensures !(exists fp :: fp in t && t[fp].id == arg) ==>
              && (r.Some? <==> exists fp :: OnlyMatch(t, arg, same, fp))
              && (r.Some? ==> OnlyMatch(t, arg, same, r.value))
  {
    if !HasId(t, arg) {
      if r.Some? {
        assert r.value in NameHits(t, arg, same);
        forall x | x in t && same(t[x].name, arg)
          ensures x == r.value
        {
          assert x in NameHits(t, arg, same);
        }
        assert OnlyMatch(t, arg, same, r.value);
      }
      if fp :| OnlyMatch(t, arg, same, fp) {
        assert NameHits(t, arg, same) == {fp};
        assert |NameHits(t, arg, same)| == 1;
      }
    }
  }

  /** Without a device of that ID, the number of matches tells what is refused: nothing, or two and more. */
  lemma RefusedIff(t: Table, arg: string, same: (string, string) -> bool)
    ensures |NameHits(t, arg, same)| == 0 <==> forall fp :: fp in t ==> !same(t[fp].name, arg)
    ensures |NameHits(t, arg, same)| >= 2 <==>
              exists a, b :: a in t && b in t && a != b && same(t[a].name, arg) && same(t[b].name, arg)
  {
    var hits := NameHits(t, arg, same);
    if fp :| fp in t && same(t[fp].name, arg) {
      assert fp in hits;
      if hits - {fp} == {} {
        assert hits == {fp};
      } else {
        var b :| b in hits - {fp};
        assert |hits| == |hits - {fp}| + 1;
      }
      forall a, b | a in t && b in t && a != b && same(t[a].name, arg) && same(t[b].name, arg)
        ensures |hits| >= 2
      {
        assert {a, b} <= hits;
        assert |hits| == |hits - {a, b}| + |{a, b}|;
      }
    } else {
      assert hits == {};
    }
  }

  lemma PickByNameIsUnique(t: Table, arg: string, same: (string, string) -> bool, r: Option<string>, r': Option<string>)
    requires !HasId(t, arg) && Picks(t, arg, same, r) && Picks(t, arg, same, r')
    ensures r == r'
  {
    if r.Some? {
      assert r.value in NameHits(t, arg, same);
    }
  }

  /** The removed device depends on the visiting order exactly when two devices carry the given ID. */
  lemma RevokeIsDeterminedIffIdUnique(t: Table, arg: string, same: (string, string) -> bool)
    ensures (forall r, r' :: Picks(t, arg, same, r) && Picks(t, arg, same, r') ==> r == r')
       <==> (forall fp, fp' :: fp in t && fp' in t && t[fp].id == arg == t[fp'].id ==> fp == fp')
  {
    forall fp, fp' | fp in t && fp' in t && t[fp].id == arg == t[fp'].id
      ensures Picks(t, arg, same, Some(fp)) && Picks(t, arg, same, Some(fp'))
    {}
    if !HasId(t, arg) {
      forall r, r' | Picks(t, arg, same, r) && Picks(t, arg, same, r')
        ensures r == r'
      {
        PickByNameIsUnique(t, arg, same, r, r');
      }
    }
  }

  // ---------- renewals keep the roster ----------

  function Owner(d: Device): (string, string, string, Time) {
    (d.id, d.name, d.tokenHash, d.enrolledAt)
  }

  function Roster(t: Table): set<(string, string, string, Time)> {
    set fp | fp in t :: Owner(t[fp])
  }

  /** A renewal to an unused fingerprint, or an update of LastSeen. */
  predicate Renewal(s: State, e: Event) {
    e.Touch? || (e.Write? && e.change.Renew? && !e.outcome.Killed?
                 && (e.change.newFp == e.change.oldFp || e.change.newFp !in s.mem))
  }

  lemma TouchKeepsRoster(t: Table, fp: string, now: Time)
    ensures Roster(Touched(t, fp, now)) == Roster(t) && |Touched(t, fp, now)| == |t|
  {
    var u := Touched(t, fp, now);
    assert u.Keys == t.Keys;
    forall fp' | fp' in t ensures Owner(u[fp']) == Owner(t[fp']) {}
    assert Roster(u) == Roster(t);
  }

  lemma TargetKeepsRoster(t: Table, oldFp: string, newFp: string, expires: Time)
    requires oldFp in t && (newFp == oldFp || newFp !in t)
    ensures var u := Target(t, Renew(oldFp, newFp, expires)); Roster(u) == Roster(t) && |u| == |t|
  {
    var u := Target(t, Renew(oldFp, newFp, expires));
    assert u.Keys == (t.Keys - {oldFp}) + {newFp};
    forall o | o in Roster(t) ensures o in Roster(u) {
      var fp :| fp in t && o == Owner(t[fp]);
      assert o == Owner(u[if fp == oldFp then newFp else fp]);
    }
    forall o | o in Roster(u) ensures o in Roster(t) {
      var fp :| fp in u && o == Owner(u[fp]);
      assert o == Owner(t[if fp == newFp then oldFp else fp]);
    }
  }

  lemma RenewalKeepsRoster(s: State, e: Event)
    requires Enabled(s, e) && Renewal(s, e)
    ensures Roster(Next(s, e).mem) == Roster(s.mem) && |Next(s, e).mem| == |s.mem|
  {
    if e.Touch? {
      TouchKeepsRoster(s.mem, e.fp, e.now);
    } else {
      var Renew(oldFp, newFp, expires) := e.change;
      if e.outcome.Failed? {
        FailedRenewRestoresIffFresh(s, oldFp, newFp, expires);
      } else {
        TargetKeepsRoster(s.mem, oldFp, newFp, expires);
      }
    }
  }

  ghost predicate OnlyRenewals(s: State, es: seq<Event>)
    requires Legal(s, es)
    decreases |es|
  {
    es != [] ==> OnlyRenewals(s, es[..|es| - 1]) && Renewal(After(s, es[..|es| - 1]), es[|es| - 1])
  }

  /** Any number of renewals keeps every device's ID, name and token, and the number of devices. */
  lemma {:induction false} RenewalsKeepRoster(s: State, es: seq<Event>)
    requires Legal(s, es) && OnlyRenewals(s, es)
    ensures Roster(After(s, es).mem) == Roster(s.mem) && |After(s, es).mem| == |s.mem|
    decreases |es|
  {
    if es != [] {
      var front := es[..|es| - 1];
      RenewalsKeepRoster(s, front);
      RenewalKeepsRoster(After(s, front), es[|es| - 1]);
    }
  }
}
