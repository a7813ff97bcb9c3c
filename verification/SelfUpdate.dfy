/** `nodestatus-agent update` (agent/internal/selfupdate/selfupdate.go): when a release is installed, and what the
    installed path holds after every file step of any number of updates, each of which may fail or be killed. */
module SelfUpdate {
  import opened Common
  import opened Semver

  type Bytes = seq<int>

  // ---------- when a release is installed ----------

  /** What GitHub and the downloads yield for one `update`. */
  datatype Release = Release(
    archKnown: bool, fetched: bool, tag: string, hasTarball: bool, hasSums: bool, downloaded: bool,
    tarballName: string, tarballHash: string, sums: seq<seq<string>>, hasBinary: bool, binary: Bytes)

  function WithoutPrefix(s: string, c: char): string {
    if s != "" && s[0] == c then s[1..] else s
  }

  function Latest(r: Release): string {
    WithoutPrefix(r.tag, 'v')
  }

  /** The checksum of the first line of SHA256SUMS (given as its fields) that names the file, if there is one. */
  function Wanted(sums: seq<seq<string>>, name: string): Option<string> {
    if sums == [] then None
    else if |sums[0]| == 2 && WithoutPrefix(sums[0][1], '*') == name then Some(sums[0][0])
    else Wanted(sums[1..], name)
  }

  /** A release is installed only if it is newer and its tarball is listed with the checksum it has. */
  predicate Installable(current: string, r: Release) {
    && r.archKnown && r.fetched && IsNewer(Latest(r), current)
    && r.hasTarball && r.hasSums && r.downloaded
    && Wanted(r.sums, r.tarballName) == Some(r.tarballHash) && r.hasBinary
  }

  /** Line `i` of SHA256SUMS lists the file `name`, by itself or with the mark of binary mode. */
  predicate Lists(sums: seq<seq<string>>, i: nat, name: string) {
    && i < |sums| && |sums[i]| == 2
    && (sums[i][1] == "*" + name || (sums[i][1] == name && (name == "" || name[0] != '*')))
  }

  /** Line `i` is the first that lists the file, and gives it the checksum `hash`. */
  predicate FirstListing(sums: seq<seq<string>>, i: nat, name: string, hash: string) {
    Lists(sums, i, name) && sums[i][0] == hash && forall j :: 0 <= j < i ==> !Lists(sums, j, name)
  }

  lemma WithoutMark(s: string, name: string)
    ensures WithoutPrefix(s, '*') == name <==> s == "*" + name || (s == name && (name == "" || name[0] != '*'))
  {
    if s != "" && s[0] == '*' {
      assert s == "*" + s[1..];
    }
  }

  /** The checksum compared is that of the first line that lists the file. */
  lemma {:induction false} WantedIff(sums: seq<seq<string>>, name: string, hash: string)
    ensures Wanted(sums, name) == Some(hash) <==> exists i: nat :: FirstListing(sums, i, name, hash)
  {
    if sums != [] {
      WantedIff(sums[1..], name, hash);
      if |sums[0]| == 2 { WithoutMark(sums[0][1], name); }
      if Lists(sums, 0, name) {
        if i: nat :| FirstListing(sums, i, name, hash) {
          assert i == 0;
        }
        assert sums[0][0] == hash ==> FirstListing(sums, 0, name, hash);
      } else {
        if i: nat :| FirstListing(sums[1..], i, name, hash) {
          assert forall j :: 0 < j <= i ==> (Lists(sums, j, name) <==> Lists(sums[1..], j - 1, name));
          assert FirstListing(sums, i + 1, name, hash);
        }
        if i: nat :| FirstListing(sums, i, name, hash) {
          assert forall j :: 0 <= j < i ==> (Lists(sums[1..], j, name) <==> Lists(sums, j + 1, name));
          assert FirstListing(sums[1..], i - 1, name, hash);
        }
      }
    }
  }

  ghost predicate Listed(r: Release) {
    exists i: nat :: FirstListing(r.sums, i, r.tarballName, r.tarballHash)
  }

  /** A tag's leading `v` is not part of the version. */
  lemma LatestIsTagVersion(r: Release, version: string)
    requires version == "" || version[0] != 'v'
    ensures r.tag == "v" + version || r.tag == version ==> Latest(r) == version
  {}

  // ---------- one file step at a time ----------

  /** Where an update is between two file steps; Idle between updates. */
  datatype Phase = Idle | Ready(r: Release) | Copying(r: Release) | Copied(r: Release)

  /** The installed path, and the file beside it with `.new` appended. */
  datatype State = State(installed: Bytes, temp: Option<Bytes>, phase: Phase)

  datatype Event =
    | Start(r: Release)         // everything up to the extracted binary
    | RenameSource              // the extracted binary straight over the installed path
    | Create                    // or else the file beside it is created, or emptied,
    | WritePiece(n: nat)        // the binary copied into it piece by piece,
    | Close                     // all of it,
    | RenameTemp                // and that file moved over the installed path
    | Fail(removed: bool)       // any step returns an error; a file that was opened is removed, if that works
    | Kill                      // the process dies

  predicate Enabled(s: State, e: Event) {
    match e
    case Start(_) => s.phase.Idle?
    case RenameSource => s.phase.Ready?
    case Create => s.phase.Ready?
    case WritePiece(n) => s.phase.Copying? && s.temp.Some? && |s.temp.value| + n <= |s.phase.r.binary|
    case Close => s.phase.Copying? && s.temp.Some? && |s.temp.value| == |s.phase.r.binary|
    case RenameTemp => s.phase.Copied? && s.temp.Some?
    case Fail(_) => !s.phase.Idle?
    case Kill => true
  }

  /** Which releases a binary accepts; the binary that runs is the installed one. */
  type Policy = (Bytes, Release) -> bool

  /** The policy of the code; `version` is what a binary reports as its version. */
  function ByVersion(version: Bytes -> string): Policy {
    (b, r) => Installable(version(b), r)
  }

  function Next(accepts: Policy, s: State, e: Event): State
    requires Enabled(s, e)
  {
    match e
    case Start(r) => if accepts(s.installed, r) then s.(phase := Ready(r)) else s
    case RenameSource => s.(installed := s.phase.r.binary, phase := Idle)
    case Create => s.(temp := Some([]), phase := Copying(s.phase.r))
    case WritePiece(n) =>
      var done := |s.temp.value|;
      s.(temp := Some(s.temp.value + s.phase.r.binary[done..done + n]))
    case Close => s.(phase := Copied(s.phase.r))
    case RenameTemp => State(s.temp.value, None, Idle)
    case Fail(removed) => s.(temp := if removed && !s.phase.Ready? then None else s.temp, phase := Idle)
    case Kill => s.(phase := Idle)
  }

  ghost predicate Run(accepts: Policy, states: seq<State>, es: seq<Event>) {
    && |states| == |es| + 1
    && states[0].phase.Idle?
    && forall i :: 0 <= i < |es| ==> Enabled(states[i], es[i]) && states[i + 1] == Next(accepts, states[i], es[i])
  }

  // ---------- the code ----------

  /** Where replacing the binary goes wrong; without `renames` the first rename fails, for whatever reason. */
  datatype Fault = NoFault | ChmodFails | OpenSourceFails | OpenTempFails | CopyFails(after: nat) | CloseFails | RenameFails

  /** The file system, with the history of its steps. */
  class Host {
    const version: Bytes -> string
    var installed: Bytes
    var temp: Option<Bytes>
    ghost var states: seq<State>
    ghost var es: seq<Event>

    ghost predicate Valid()
      reads this
    {
      Run(ByVersion(version), states, es) && installed == Now().installed && temp == Now().temp
    }

    ghost function Now(): State
      requires states != []
      reads this
    {
      states[|states| - 1]
    }

    ghost predicate At(phase: Phase)
      reads this
    {
      Valid() && Now().phase == phase
    }

    constructor (version: Bytes -> string, binary: Bytes)
      ensures At(Idle) && this.version == version && states == [State(binary, None, Idle)]
    {
      this.version, installed, temp, states, es := version, binary, None, [State(binary, None, Idle)], [];
    }

    /** Enters a step that has just been taken into the history. */
    ghost method Record(e: Event)
      requires states != [] && Run(ByVersion(version), states, es) && Enabled(Now(), e)
      requires installed == Next(ByVersion(version), Now(), e).installed && temp == Next(ByVersion(version), Now(), e).temp
      modifies this`states, this`es
      ensures Valid() && es == old(es) + [e]
      ensures states == old(states) + [Next(ByVersion(version), old(Now()), e)]
    {
      states, es := states + [Next(ByVersion(version), Now(), e)], es + [e];
    }

    /** Copies in pieces of any size, up to the first write that fails. */
    method Copy(ghost r: Release, source: Bytes, piece: nat, limit: nat) returns (ok: bool)
      requires At(Copying(r)) && r.binary == source && temp == Some([]) && piece > 0
      modifies this`temp, this`states, this`es
      ensures At(Copying(r)) && old(es) <= es && (ok <==> |source| <= limit)
      ensures ok ==> temp.Some? && |temp.value| == |source|
    {
      var done: nat := 0;
      while done < |source|
        invariant At(Copying(r)) && old(es) <= es
        invariant done <= |source| && done <= limit && temp.Some? && |temp.value| == done
      {
        var next := if done + piece < |source| then done + piece else |source|;
        var upto := if next > limit then limit else next;
        temp := Some(temp.value + source[done..upto]);
        Record(WritePiece(upto - done));
        if next > limit {
          return false;
        }
        done := next;
      }
      return true;
    }

    /** Whatever happens is a run of file steps; an error leaves the installed binary as it was and no file that this
        call opened, provided removing it works. */
    method ReplaceBinary(ghost r: Release, source: Bytes, renames: bool, piece: nat, fault: Fault, removeWorks: bool)
      returns (ok: bool)
      requires At(Ready(r)) && r.binary == source && piece > 0
      modifies this`installed, this`temp, this`states, this`es
      ensures At(Idle) && old(es) <= es
      ensures installed == if ok then source else old(installed)
      ensures !ok && removeWorks ==>
                temp == if !renames && (fault.CopyFails? || fault == CloseFails || fault == RenameFails)
                        then None else old(temp)
      ensures ok ==> temp == if renames then old(temp) else None
      ensures ok <==> fault == NoFault || (renames && fault != ChmodFails)
                      || (fault.CopyFails? && |source| <= fault.after)
    {
      if fault == ChmodFails {
        Record(Event.Fail(false));
        return false;
      }
      if renames {
        installed := source;
        Record(RenameSource);
        return true;
      }
      ok := ReplaceByCopy(r, source, piece, fault, removeWorks);
    }

    /** The way across file systems. */
    method ReplaceByCopy(ghost r: Release, source: Bytes, piece: nat, fault: Fault, removeWorks: bool)
      returns (ok: bool)
      requires At(Ready(r)) && r.binary == source && piece > 0 && fault != ChmodFails
      modifies this`installed, this`temp, this`states, this`es
      ensures At(Idle) && old(es) <= es
      ensures installed == if ok then source else old(installed)
      ensures !ok && removeWorks ==>
                temp == if fault.CopyFails? || fault == CloseFails || fault == RenameFails then None else old(temp)
      ensures ok ==> temp == None
      ensures ok <==> fault == NoFault || (fault.CopyFails? && |source| <= fault.after)
    {
      ok := CopyBeside(r, source, piece, fault, removeWorks);
      if !ok {
        return;
      }
      if fault == RenameFails {
        Abandon(removeWorks);
        return false;
      }
      CopyIsWhole(ByVersion(version), states, es, |es|);
      installed, temp := temp.value, None;
      Record(RenameTemp);
    }

    /** Opening, copying and closing, up to the rename. */
    method CopyBeside(ghost r: Release, source: Bytes, piece: nat, fault: Fault, removeWorks: bool) returns (ok: bool)
      requires At(Ready(r)) && r.binary == source && piece > 0 && fault != ChmodFails
      modifies this`temp, this`states, this`es
      ensures old(es) <= es && At(if ok then Copied(r) else Idle) && (ok ==> temp.Some?)
      ensures !ok && removeWorks ==> temp == if fault.CopyFails? || fault == CloseFails then None else old(temp)
      ensures ok <==> fault == NoFault || fault == RenameFails || (fault.CopyFails? && |source| <= fault.after)
    {
      if fault == OpenSourceFails || fault == OpenTempFails {
        Record(Event.Fail(false));
        return false;
      }
      temp := Some([]);
      Record(Create);
      ok := Copy(r, source, piece, if fault.CopyFails? then fault.after else |source|);
      if !ok || fault == CloseFails {
        Abandon(removeWorks);
        return false;
      }
      Record(Close);
    }

    method Abandon(removeWorks: bool)
      requires Valid() && !Now().phase.Idle? && !Now().phase.Ready?
      modifies this`temp, this`states, this`es
      ensures At(Idle) && old(es) <= es && temp == if removeWorks then None else old(temp)
    {
      if removeWorks {
        temp := None;
      }
      Record(Event.Fail(removeWorks));
    }

    /** `piece`, `renames`, `fault` and `removeWorks` are up to the file system. */
    method Apply(r: Release, renames: bool, piece: nat, fault: Fault, removeWorks: bool) returns (latest: Option<string>)
      requires At(Idle) && piece > 0
      modifies this`installed, this`temp, this`states, this`es
      ensures At(Idle) && old(es) <= es
      ensures latest.Some? ==>
                Installable(version(old(installed)), r) && latest.value == Latest(r) && installed == r.binary
      ensures var good := r.archKnown && r.fetched && IsNewer(Latest(r), version(old(installed))) && r.hasTarball
                          && r.hasSums && r.downloaded && Listed(r) && r.hasBinary;
              (latest.Some? ==> good) && (good && fault == NoFault ==> latest.Some?)
      ensures latest.None? ==> installed == old(installed)
      ensures Installable(version(old(installed)), r) && fault == NoFault ==> latest.Some?
      ensures !Installable(version(old(installed)), r) ==> temp == old(temp)
    {
      var chosen := Choose(r);
      WantedIff(r.sums, r.tarballName, r.tarballHash);
      Record(Start(r));
      if !chosen {
        return None;
      }
      var ok := ReplaceBinary(r, r.binary, renames, piece, fault, removeWorks);
      return if ok then Some(Latest(r)) else None;
    }

    method Choose(r: Release) returns (chosen: bool)
      ensures chosen <==> Installable(version(installed), r)
    {
      if !r.archKnown || !r.fetched {
        return false;
      }
      var newer := Newer(Latest(r), version(installed));
      if !newer {
        return false;
      }
      if !r.hasTarball || !r.hasSums || !r.downloaded {
        return false;
      }
      var want := Wanted(r.sums, r.tarballName);
      if want.None? || want.value != r.tarballHash {
        return false;
      }
      return r.hasBinary;
    }
  }

  // ---------- every run, killed after any step ----------

  /** While a binary is being copied, the file beside the installed one holds a prefix of it, in the end all of it. */
  ghost predicate CopyMatches(s: State) {
    && (s.phase.Copying? ==> s.temp.Some? && s.temp.value <= s.phase.r.binary)
    && (s.phase.Copied? ==> s.temp == Some(s.phase.r.binary))
  }

  lemma CopyStep(accepts: Policy, s: State, e: Event)
    requires Enabled(s, e) && CopyMatches(s)
    ensures CopyMatches(Next(accepts, s, e))
  {
    if e.Close? {
      assert s.temp.value == s.phase.r.binary[..|s.temp.value|];
      assert s.phase.r.binary[..|s.phase.r.binary|] == s.phase.r.binary;
    }
  }

  lemma {:induction false} CopyIsWhole(accepts: Policy, states: seq<State>, es: seq<Event>, n: nat)
    requires Run(accepts, states, es) && n < |states|
    ensures CopyMatches(states[n])
  {
    if n > 0 {
      CopyIsWhole(accepts, states, es, n - 1);
      CopyStep(accepts, states[n - 1], es[n - 1]);
    }
  }

  /** Event `k` starts an update with a release that the binary installed then accepts. */
  ghost predicate Chosen(accepts: Policy, states: seq<State>, es: seq<Event>, k: nat)
    requires |states| == |es| + 1
  {
    k < |es| && es[k].Start? && accepts(states[k].installed, es[k].r)
  }

  /** The release an update is busy with was chosen earlier, by the binary that is still installed. */
  lemma {:induction false} BusyWasChosen(accepts: Policy, states: seq<State>, es: seq<Event>, n: nat)
    returns (k: nat)
    requires Run(accepts, states, es) && n < |states| && !states[n].phase.Idle?
    ensures k < n && Chosen(accepts, states, es, k) && states[n].phase.r == es[k].r
    ensures states[k].installed == states[n].installed
  {
    if es[n - 1].Start? {
      k := n - 1;
    } else {
      k := BusyWasChosen(accepts, states, es, n - 1);
    }
  }

  /** Whatever a rename puts at the installed path is the whole binary of the release chosen by the one it replaces. */
  lemma RenamedWasChosen(accepts: Policy, states: seq<State>, es: seq<Event>, n: nat) returns (k: nat)
    requires Run(accepts, states, es) && n < |es| && (es[n].RenameSource? || es[n].RenameTemp?)
    ensures k < n && Chosen(accepts, states, es, k) && states[n + 1].installed == es[k].r.binary
    ensures states[k].installed == states[n].installed
  {
    k := BusyWasChosen(accepts, states, es, n);
    CopyIsWhole(accepts, states, es, n);
  }

  /** Event `k` chose the release whose binary is `b`. */
  ghost predicate Published(accepts: Policy, states: seq<State>, es: seq<Event>, k: nat, b: Bytes)
    requires |states| == |es| + 1
  {
    Chosen(accepts, states, es, k) && es[k].r.binary == b
  }

  /** After every file step of every update, killed or not, the installed path holds one whole binary: the first one,
      or that of a release that was chosen. */
  lemma {:induction false} AlwaysWhole(accepts: Policy, states: seq<State>, es: seq<Event>, n: nat)
    requires Run(accepts, states, es) && n < |states|
    ensures states[n].installed == states[0].installed
            || exists k :: 0 <= k < n && Published(accepts, states, es, k, states[n].installed)
  {
    if n > 0 {
      AlwaysWhole(accepts, states, es, n - 1);
      if es[n - 1].RenameSource? || es[n - 1].RenameTemp? {
        var k := RenamedWasChosen(accepts, states, es, n - 1);
        assert Published(accepts, states, es, k, states[n].installed);
      }
    }
  }

  /** Releases are built so that a binary reports the version it is published under. */
  ghost predicate Honest(version: Bytes -> string, es: seq<Event>) {
    forall i :: 0 <= i < |es| && es[i].Start? ==> version(es[i].r.binary) == Latest(es[i].r)
  }

  /** A reflexive and transitive relation that every file step respects holds between any two moments of a run. */
  lemma {:induction false} StepsCompose(rel: (Bytes, Bytes) -> bool, states: seq<State>, i: nat, j: nat)
    requires (forall b :: rel(b, b)) && (forall a, b, c :: rel(a, b) && rel(b, c) ==> rel(a, c))
    requires i <= j < |states| && forall n :: i <= n < j ==> rel(states[n].installed, states[n + 1].installed)
    ensures rel(states[i].installed, states[j].installed)
  {
    if i < j { StepsCompose(rel, states, i, j - 1); }
  }

  /** Then the version of the installed bytes only ever moves to a newer one. */
  lemma VersionOnlyRises(version: Bytes -> string, states: seq<State>, es: seq<Event>, i: nat, j: nat)
    requires Run(ByVersion(version), states, es) && Honest(version, es) && i <= j < |states|
    ensures var a, b := version(states[i].installed), version(states[j].installed); a == b || IsNewer(b, a)
  {
    var rel := (a: Bytes, b: Bytes) => version(a) == version(b) || IsNewer(version(b), version(a));
    forall n | i <= n < j
      ensures rel(states[n].installed, states[n + 1].installed)
    {
      StepRises(version, states, es, n);
    }
    forall a, b, c | rel(a, b) && rel(b, c)
      ensures rel(a, c)
    {
      RisesFurther(version(a), version(b), version(c));
    }
    StepsCompose(rel, states, i, j);
  }

  lemma RisesFurther(a: string, b: string, c: string)
    requires (a == b || IsNewer(b, a)) && (b == c || IsNewer(c, b))
    ensures a == c || IsNewer(c, a)
  {
    NewerIsStrictOrder(c, b, a);
  }

  lemma StepRises(version: Bytes -> string, states: seq<State>, es: seq<Event>, n: nat)
    requires Run(ByVersion(version), states, es) && Honest(version, es) && n < |es|
    ensures states[n + 1].installed == states[n].installed
            || IsNewer(version(states[n + 1].installed), version(states[n].installed))
  {
    if es[n].RenameSource? || es[n].RenameTemp? {
      var k := RenamedWasChosen(ByVersion(version), states, es, n);
    }
  }

  /** So a binary whose version was replaced never returns, and one whose version does not parse (such as `dev`) is
      never replaced. */
  lemma ReplacedVersionNeverReturns(
    version: Bytes -> string, states: seq<State>, es: seq<Event>, i: nat, j: nat, k: nat)
    requires Run(ByVersion(version), states, es) && Honest(version, es) && i <= j <= k < |states|
    requires version(states[i].installed) != version(states[j].installed)
    ensures version(states[k].installed) != version(states[i].installed) && Parses(version(states[0].installed))
  {
    var a, b, c := version(states[i].installed), version(states[j].installed), version(states[k].installed);
    VersionOnlyRises(version, states, es, i, j);
    VersionOnlyRises(version, states, es, j, k);
    VersionOnlyRises(version, states, es, 0, i);
    NewerIsStrictOrder(c, b, a);
    NewerIsStrictOrder(a, c, b);
    NewerIsStrictOrder(a, version(states[0].installed), a);
  }

  /** While no copy is going on, a file is beside the installed one only after a kill, or an error whose clean-up
      failed, in the middle of a copy. */
  lemma {:induction false} LeftoverHasCause(accepts: Policy, states: seq<State>, es: seq<Event>, n: nat)
    returns (k: nat)
    requires Run(accepts, states, es) && n < |states| && states[0].temp == None
    requires states[n].temp.Some? && (states[n].phase.Idle? || states[n].phase.Ready?)
    ensures k < n && (es[k].Kill? || es[k] == Fail(false)) && (states[k].phase.Copying? || states[k].phase.Copied?)
  {
    if states[n - 1].phase.Copying? || states[n - 1].phase.Copied? {
      k := n - 1;
    } else {
      k := LeftoverHasCause(accepts, states, es, n - 1);
    }
  }
}
