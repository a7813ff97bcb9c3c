/** Version comparison of agent/internal/selfupdate/selfupdate.go. */
module Semver {
  import opened Common
  import opened Text

  const MAX_INT := 0x7FFF_FFFF_FFFF_FFFF

  // ---------- strconv.Atoi and strings.SplitN ----------

  predicate IsDigit(c: char) {
    '0' <= c <= '9'
  }

  predicate AllDigits(s: string) {
    forall i :: 0 <= i < |s| ==> IsDigit(s[i])
  }

  function Value(s: string): nat
    requires AllDigits(s)
  {
    if s == "" then 0 else 10 * Value(s[..|s| - 1]) + (s[|s| - 1] as int - '0' as int)
  }

  /** A decimal integer with an optional sign, within 64 bits. */
  function Atoi(s: string): Option<int> {
    var digits := if s != "" && (s[0] == '+' || s[0] == '-') then s[1..] else s;
    if digits == "" || !AllDigits(digits) then None
    else
      var v: int := if s[0] == '-' then 0 - Value(digits) else Value(digits);
      if -MAX_INT - 1 <= v <= MAX_INT then Some(v) else None
  }

  function IndexOf(s: string, c: char): (i: nat)
    ensures i <= |s|
  {
    if s == "" || s[0] == c then 0 else 1 + IndexOf(s[1..], c)
  }

  /** At most `n` parts; the last keeps any further separators. */
  function SplitN(s: string, c: char, n: nat): (parts: seq<string>)
    requires n >= 1
    ensures 1 <= |parts| <= n
  {
    var i := IndexOf(s, c);
    if n == 1 || i == |s| then [s] else [s[..i]] + SplitN(s[i + 1..], c, n - 1)
  }

  // ---------- parseSemver and newer ----------

  datatype Triple = Triple(major: int, minor: int, patch: int)

  function Parts(s: string): (parts: seq<string>)
    ensures 1 <= |parts| <= 3
  {
    var t := TrimSpace(s);
    SplitN(if t != "" && t[0] == 'v' then t[1..] else t, '.', 3)
  }

  predicate Parses(s: string) {
    forall i :: 0 <= i < |Parts(s)| ==> Atoi(Parts(s)[i]).Some?
  }

  /** Missing parts count as zero. */
  function Component(s: string, i: nat): int
    requires Parses(s)
  {
    if i < |Parts(s)| then Atoi(Parts(s)[i]).value else 0
  }

  function Parsed(s: string): Triple
    requires Parses(s)
  {
    Triple(Component(s, 0), Component(s, 1), Component(s, 2))
  }

  method ParseSemver(s: string) returns (v: seq<int>, ok: bool)
    ensures |v| == 3 && (ok <==> Parses(s))
    ensures ok ==> Triple(v[0], v[1], v[2]) == Parsed(s)
  {
    var parts := Parts(s);
    v, ok := [0, 0, 0], true;
    for i := 0 to |parts|
      invariant ok && |v| == 3
      invariant forall k :: 0 <= k < i ==> Atoi(parts[k]).Some? && v[k] == Atoi(parts[k]).value
      invariant forall k :: i <= k < 3 ==> v[k] == 0
    {
      var n := Atoi(parts[i]);
      if n.None? {
        return v, false;
      }
      v := v[i := n.value];
    }
  }

  predicate Exceeds(a: Triple, b: Triple) {
    if a.major != b.major then a.major > b.major
    else if a.minor != b.minor then a.minor > b.minor
    else a.patch > b.patch
  }

  predicate IsNewer(a: string, b: string) {
    Parses(a) && Parses(b) && Exceeds(Parsed(a), Parsed(b))
  }

  method FirstDifference(va: seq<int>, vb: seq<int>) returns (exceeds: bool)
    requires |va| == |vb| == 3
    ensures exceeds == Exceeds(Triple(va[0], va[1], va[2]), Triple(vb[0], vb[1], vb[2]))
  {
    for i := 0 to 3
      invariant forall k :: 0 <= k < i ==> va[k] == vb[k]
    {
      if va[i] != vb[i] {
        return va[i] > vb[i];
      }
    }
    return false;
  }

  method Newer(a: string, b: string) returns (newer: bool)
    ensures newer == IsNewer(a, b)
  {
    var va, oka := ParseSemver(a);
    var vb, okb := ParseSemver(b);
    if !oka || !okb {
      return false;
    }
    newer := FirstDifference(va, vb);
  }

  /** A strict partial order on all strings; on those that parse, it decides between any two that differ. */
  lemma NewerIsStrictOrder(a: string, b: string, c: string)
    ensures !IsNewer(a, a)
    ensures IsNewer(a, b) ==> !IsNewer(b, a)
    ensures IsNewer(a, b) && IsNewer(b, c) ==> IsNewer(a, c)
    ensures Parses(a) && Parses(b) ==> IsNewer(a, b) || IsNewer(b, a) || Parsed(a) == Parsed(b)
    ensures !Parses(a) ==> !IsNewer(a, b) && !IsNewer(b, a)
  {}

  // ---------- printed versions parse back ----------

  function Decimal(n: nat): string {
    if n < 10 then [(n + '0' as int) as char] else Decimal(n / 10) + [(n % 10 + '0' as int) as char]
  }

  lemma {:induction false} DecimalParses(n: nat)
    ensures Decimal(n) != "" && AllDigits(Decimal(n)) && Value(Decimal(n)) == n
  {
    if n >= 10 {
      DecimalParses(n / 10);
      assert Decimal(n)[..|Decimal(n)| - 1] == Decimal(n / 10);
    } else {
      assert Decimal(n)[..0] == "";
    }
  }

  lemma {:induction false} IndexOfFirst(s: string, c: char, t: string)
    requires forall i :: 0 <= i < |s| ==> s[i] != c
    ensures IndexOf(s + [c] + t, c) == |s|
    ensures IndexOf(s, c) == |s|
  {
    if s != "" {
      IndexOfFirst(s[1..], c, t);
      assert (s + [c] + t)[1..] == s[1..] + [c] + t;
    }
  }

  function PrintVersion(t: Triple): string
    requires t.major >= 0 && t.minor >= 0 && t.patch >= 0
  {
    Decimal(t.major) + "." + Decimal(t.minor) + "." + Decimal(t.patch)
  }

  predicate Printable(t: Triple) {
    0 <= t.major <= MAX_INT && 0 <= t.minor <= MAX_INT && 0 <= t.patch <= MAX_INT
  }

  lemma AtoiOfDecimal(n: nat)
    requires n <= MAX_INT
    ensures Atoi(Decimal(n)) == Some(n)
  {
    DecimalParses(n);
  }

  lemma SplitStep(a: string, c: char, rest: string, n: nat)
    requires n >= 2 && forall i :: 0 <= i < |a| ==> a[i] != c
    ensures SplitN(a + [c] + rest, c, n) == [a] + SplitN(rest, c, n - 1)
  {
    IndexOfFirst(a, c, rest);
    assert (a + [c] + rest)[..|a|] == a && (a + [c] + rest)[|a| + 1..] == rest;
  }

  lemma SplitOfPrinted(t: Triple)
    requires Printable(t)
    ensures SplitN(PrintVersion(t), '.', 3) == [Decimal(t.major), Decimal(t.minor), Decimal(t.patch)]
  {
    var a, b, c := Decimal(t.major), Decimal(t.minor), Decimal(t.patch);
    DecimalParses(t.major);
    DecimalParses(t.minor);
    assert PrintVersion(t) == a + "." + (b + "." + c);
    SplitStep(a, '.', b + "." + c, 3);
    SplitStep(b, '.', c, 2);
  }

  lemma PartsOfPrinted(t: Triple, tag: bool)
    requires Printable(t)
    ensures Parts((if tag then "v" else "") + PrintVersion(t))
         == [Decimal(t.major), Decimal(t.minor), Decimal(t.patch)]
  {
    var p := PrintVersion(t);
    var s := (if tag then "v" else "") + p;
    DecimalParses(t.major);
    DecimalParses(t.patch);
    assert p[0] == Decimal(t.major)[0] && s[0] == if tag then 'v' else p[0];
    assert s[|s| - 1] == p[|p| - 1] == Decimal(t.patch)[|Decimal(t.patch)| - 1];
    TrimKeeps(s);
    assert IsDigit(p[0]) && (if s[0] == 'v' then s[1..] else s) == p;
    SplitOfPrinted(t);
  }

  /** Printed versions are compared by their numbers, the major one first. */
  lemma PrintedNewerIff(a: Triple, b: Triple, tag: bool, tag': bool)
    requires Printable(a) && Printable(b)
    ensures IsNewer((if tag then "v" else "") + PrintVersion(a), (if tag' then "v" else "") + PrintVersion(b)) <==>
              || a.major > b.major
              || (a.major == b.major && a.minor > b.minor)
              || (a.major == b.major && a.minor == b.minor && a.patch > b.patch)
  {
    PrintedVersionParses(a, tag);
    PrintedVersionParses(b, tag');
  }

  /** A number that does not fit 64 bits, or text that is not all digits after an optional sign, is no integer. */
  lemma AtoiIff(s: string)
    ensures var digits := if s != "" && (s[0] == '+' || s[0] == '-') then s[1..] else s;
            Atoi(s).Some? <==>
              && digits != "" && (forall i :: 0 <= i < |digits| ==> '0' <= digits[i] <= '9')
              && Value(digits) <= if s[0] == '-' then 0x8000_0000_0000_0000 else 0x7FFF_FFFF_FFFF_FFFF
    ensures Atoi(s).Some? && s[0] == '-' ==> Atoi(s).value == 0 - Value(s[1..])
    ensures Atoi(s).Some? && s[0] == '+' ==> Atoi(s).value == Value(s[1..])
    ensures Atoi(s).Some? && s[0] != '+' && s[0] != '-' ==> Atoi(s).value == Value(s)
  {}

  /** The parts put together again. */
  function Dotted(parts: seq<string>): string {
    if parts == [] then "" else if |parts| == 1 then parts[0] else parts[0] + "." + Dotted(parts[1..])
  }

  lemma DottedHead(a: string, rest: seq<string>)
    requires rest != []
    ensures Dotted([a] + rest) == a + "." + Dotted(rest)
  {
    assert ([a] + rest)[1..] == rest;
  }

  lemma AtDot(s: string, i: nat)
    requires i < |s| && s[i] == '.'
    ensures s == s[..i] + "." + s[i + 1..]
  {}

  lemma {:induction false} SplitIsDotted(s: string, n: nat)
    requires n >= 1
    ensures Dotted(SplitN(s, '.', n)) == s
    decreases n
  {
    var i := IndexOf(s, '.');
    if n > 1 && i < |s| {
      IndexOfIsFirst(s, '.');
      AtDot(s, i);
      SplitIsDotted(s[i + 1..], n - 1);
      DottedHead(s[..i], SplitN(s[i + 1..], '.', n - 1));
    }
  }

  lemma {:induction false} IndexOfIsFirst(s: string, c: char)
    ensures var i := IndexOf(s, c); (forall j :: 0 <= j < i ==> s[j] != c) && (i < |s| ==> s[i] == c)
  {
    if s != "" && s[0] != c { IndexOfIsFirst(s[1..], c); }
  }

  lemma {:induction false} DottedHolds(parts: seq<string>, i: nat) returns (k: nat, j: nat)
    requires i < |Dotted(parts)| && Dotted(parts)[i] != '.'
    ensures k < |parts| && j < |parts[k]| && parts[k][j] == Dotted(parts)[i]
  {
    if |parts| > 1 && i > |parts[0]| {
      k, j := DottedHolds(parts[1..], i - |parts[0]| - 1);
      k := k + 1;
    } else {
      k, j := 0, i;
    }
  }

  /** A version with a character other than digits, signs and dots, after its leading `v`, does not parse; such as
      `dev`, or one with a pre-release suffix. */
  lemma LettersDoNotParse(s: string, i: nat)
    requires var t := TrimSpace(s); i < |t| && !(i == 0 && t[0] == 'v')
    requires var c := TrimSpace(s)[i]; !('0' <= c <= '9') && c != '.' && c != '+' && c != '-'
    ensures !Parses(s)
  {
    var k, j := InSomePart(s, i);
    BadPart(s, k, j);
  }

  /** Every character of a version but the leading `v` and the dots is in one of its parts. */
  lemma InSomePart(s: string, i: nat) returns (k: nat, j: nat)
    requires var t := TrimSpace(s); i < |t| && !(i == 0 && t[0] == 'v') && t[i] != '.'
    ensures k < |Parts(s)| && j < |Parts(s)[k]| && Parts(s)[k][j] == TrimSpace(s)[i]
  {
    var t := TrimSpace(s);
    var parts := Parts(s);
    SplitIsDotted(if t[0] == 'v' then t[1..] else t, 3);
    k, j := DottedHolds(parts, if t[0] == 'v' then i - 1 else i);
  }

  lemma BadPart(s: string, k: nat, j: nat)
    requires k < |Parts(s)| && j < |Parts(s)[k]|
    requires var c := Parts(s)[k][j]; !('0' <= c <= '9') && c != '+' && c != '-'
    ensures !Parses(s)
  {
    AtoiIff(Parts(s)[k]);
  }

  lemma PartsOfTrimmed(s: string)
    requires s != "" && IsDigit(s[0]) && !IsSpace(s[|s| - 1])
    ensures Parts(s) == SplitN(s, '.', 3)
  {
    TrimKeeps(s);
  }

  lemma OnePart(major: nat)
    ensures Parts(Decimal(major)) == [Decimal(major)]
  {
    DecimalParses(major);
    PartsOfTrimmed(Decimal(major));
    IndexOfFirst(Decimal(major), '.', "");
  }

  lemma TwoParts(major: nat, minor: nat)
    ensures Parts(Decimal(major) + "." + Decimal(minor)) == [Decimal(major), Decimal(minor)]
  {
    var a, b := Decimal(major), Decimal(minor);
    DecimalParses(major);
    DecimalParses(minor);
    PartsOfTrimmed(a + "." + b);
    SplitStep(a, '.', b, 3);
    SplitOfOne(b, 2);
  }

  lemma SplitOfOne(b: string, n: nat)
    requires n >= 1 && AllDigits(b)
    ensures SplitN(b, '.', n) == [b]
  {
    IndexOfFirst(b, '.', "");
  }

  /** A version of one or two numbers counts the missing ones as zero. */
  lemma ShortVersionParses(major: nat, minor: nat)
    requires major <= MAX_INT && minor <= MAX_INT
    ensures Parses(Decimal(major)) && Parsed(Decimal(major)) == Triple(major, 0, 0)
    ensures var s := Decimal(major) + "." + Decimal(minor); Parses(s) && Parsed(s) == Triple(major, minor, 0)
  {
    AtoiOfDecimal(major);
    AtoiOfDecimal(minor);
    OnePart(major);
    TwoParts(major, minor);
  }

  /** A printed version, with or without the `v` of a tag, parses back to its three numbers; so printed versions are
      compared as their numbers are. */
  lemma PrintedVersionParses(t: Triple, tag: bool)
    requires Printable(t)
    ensures var s := (if tag then "v" else "") + PrintVersion(t); Parses(s) && Parsed(s) == t
  {
    PartsOfPrinted(t, tag);
    AtoiOfDecimal(t.major);
    AtoiOfDecimal(t.minor);
    AtoiOfDecimal(t.patch);
  }
}
