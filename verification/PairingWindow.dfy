/** The enrollment window of agent/internal/store/store.go: what its fields mean in terms of the past. */
module PairingWindow {
  import opened Text

  type Time = nat // nanoseconds; 0 is Go's zero time

  const GRACE: Time := 15_000_000_000

  datatype Window = Window(code: string, expires: Time, attempts: nat, graceUntil: Time)
  const NEVER_OPENED := Window("", 0, 0, 0)

  // ---------- operations ----------

  function Open(w: Window, code: string, d: nat, now: Time): Window {
    w.(code := code, expires := now + d, attempts := 0)
  }

  function Close(w: Window, now: Time): Window {
    w.(code := "", expires := 0, graceUntil := now + GRACE)
  }

  predicate IsOpen(w: Window, now: Time) {
    w.code != "" && now < w.expires
  }

  predicate AcceptsUnauthenticated(w: Window, now: Time) {
    IsOpen(w, now) || now < w.graceUntil
  }

  /** A guess is compared up to and including the expiry instant, at which `IsOpen` is already false. */
  function Check(w: Window, guess: string, now: Time, maxAttempts: nat): (Window, bool) {
    if w.code == "" || now > w.expires then (w, false)
    else if Normalize(guess) == w.code then (w, true)
    else if w.attempts + 1 >= maxAttempts then (w.(attempts := w.attempts + 1, code := "", expires := 0), false)
    else (w.(attempts := w.attempts + 1), false)
  }

  // ---------- history ----------

  datatype Event =
    | Opened(code: string, d: nat, at: Time)
    | Closed(at: Time)
    | Guessed(guess: string, at: Time)

  function Apply(w: Window, e: Event, maxAttempts: nat): Window {
    match e
    case Opened(code, d, at) => Open(w, code, d, at)
    case Closed(at) => Close(w, at)
    case Guessed(guess, at) => Check(w, guess, at, maxAttempts).0
  }

  /** The fields after the first `n` events of a fresh store. */
  function After(h: seq<Event>, n: nat, maxAttempts: nat): Window
    requires n <= |h|
  {
    if n == 0 then NEVER_OPENED else Apply(After(h, n - 1, maxAttempts), h[n - 1], maxAttempts)
  }

  /** Generated codes are never empty, and the configuration allows at least one attempt. */
  ghost predicate History(h: seq<Event>, maxAttempts: nat) {
    maxAttempts >= 1 && forall i :: 0 <= i < |h| && h[i].Opened? ==> h[i].code != ""
  }

  /** The last `Opened` among the first `n` events, or -1. */
  ghost function Latest(h: seq<Event>, n: nat): int
    requires n <= |h|
    ensures -1 <= Latest(h, n) < n
    ensures Latest(h, n) >= 0 ==> h[Latest(h, n)].Opened?
    ensures forall j :: Latest(h, n) < j < n ==> !h[j].Opened?
  {
    if n == 0 then -1 else if h[n - 1].Opened? then n - 1 else Latest(h, n - 1)
  }

  ghost function Expiry(h: seq<Event>, k: nat): Time
    requires k < |h| && h[k].Opened?
  {
    h[k].at + h[k].d
  }

  ghost predicate WrongInTime(h: seq<Event>, k: nat, i: nat)
    requires k < |h| && h[k].Opened? && i < |h|
  {
    h[i].Guessed? && h[i].at <= Expiry(h, k) && Normalize(h[i].guess) != h[k].code
  }

  /** Wrong guesses made after window `k` was opened and not after its expiry. */
  ghost function Wrong(h: seq<Event>, k: nat, n: nat): nat
    requires k < n <= |h| && h[k].Opened?
    decreases n
  {
    if n == k + 1 then 0 else Wrong(h, k, n - 1) + if WrongInTime(h, k, n - 1) then 1 else 0
  }

  /** The latest window has been neither closed nor exhausted. */
  ghost predicate Live(h: seq<Event>, n: nat, maxAttempts: nat)
    requires n <= |h|
  {
    var k := Latest(h, n);
    k >= 0 && (forall j :: k < j < n ==> !h[j].Closed?) && Wrong(h, k, n) < maxAttempts
  }

  lemma {:induction false} FieldsAgreeWithHistory(h: seq<Event>, n: nat, maxAttempts: nat)
    requires n <= |h| && History(h, maxAttempts)
    ensures var w, k := After(h, n, maxAttempts), Latest(h, n);
            if Live(h, n, maxAttempts)
            then w.code == h[k].code && w.expires == Expiry(h, k) && w.attempts == Wrong(h, k, n)
            else w.code == "" && w.expires == 0
  {
    if n > 0 { FieldsAgreeWithHistory(h, n - 1, maxAttempts); }
  }

  /** A check succeeds exactly when the latest window is unclosed, unexhausted and not past its expiry,
      and the guess normalises to its code. */
  lemma CheckSucceedsIff(h: seq<Event>, n: nat, guess: string, now: Time, maxAttempts: nat)
    requires n <= |h| && History(h, maxAttempts)
    ensures Check(After(h, n, maxAttempts), guess, now, maxAttempts).1 <==>
              Live(h, n, maxAttempts)
              && now <= Expiry(h, Latest(h, n)) && Normalize(guess) == h[Latest(h, n)].code
  {
    FieldsAgreeWithHistory(h, n, maxAttempts);
  }

  /** Event `i` is a guess that was compared with the code and found wrong. */
  ghost predicate ComparedWrong(h: seq<Event>, i: nat, maxAttempts: nat)
    requires i < |h|
  {
    && h[i].Guessed?
    && var w := After(h, i, maxAttempts);
       w.code != "" && h[i].at <= w.expires && Normalize(h[i].guess) != w.code
  }

  ghost function ComparedCount(h: seq<Event>, k: nat, n: nat, maxAttempts: nat): nat
    requires k < n <= |h|
    decreases n
  {
    if n == k + 1 then 0
    else ComparedCount(h, k, n - 1, maxAttempts) + if ComparedWrong(h, n - 1, maxAttempts) then 1 else 0
  }

  /** At most `maxAttempts` wrong guesses are compared in a window, and once that many were, or that many
      wrong ones were made in time, no guess succeeds in it any more. */
  lemma {:induction false} AttemptsAreLimited(h: seq<Event>, k: nat, n: nat, maxAttempts: nat)
    requires n <= |h| && History(h, maxAttempts) && Latest(h, n) == k
    ensures ComparedCount(h, k, n, maxAttempts) <= maxAttempts
    ensures ComparedCount(h, k, n, maxAttempts) <= Wrong(h, k, n)
    ensures Wrong(h, k, n) >= maxAttempts ==>
              forall guess, now :: !Check(After(h, n, maxAttempts), guess, now, maxAttempts).1
    decreases n
  {
    FieldsAgreeWithHistory(h, n, maxAttempts);
    if n > k + 1 {
      AttemptsAreLimited(h, k, n - 1, maxAttempts);
      FieldsAgreeWithHistory(h, n - 1, maxAttempts);
    }
  }

  lemma {:induction false} GraceIsLastClose(h: seq<Event>, n: nat, maxAttempts: nat)
    requires n <= |h|
    requires forall i, j :: 0 <= i <= j < |h| ==> h[i].at <= h[j].at
    ensures var g := After(h, n, maxAttempts).graceUntil;
            && (forall j :: 0 <= j < n && h[j].Closed? ==> h[j].at + 15_000_000_000 <= g)
            && (g == 0 || exists j :: 0 <= j < n && h[j].Closed? && g == h[j].at + 15_000_000_000)
  {
    if n > 0 {
      GraceIsLastClose(h, n - 1, maxAttempts);
      if h[n - 1].Closed? {
        assert After(h, n, maxAttempts).graceUntil == h[n - 1].at + 15_000_000_000;
      }
    }
  }

  /** The TLS layer admits clients without a certificate exactly while the latest window is unexpired,
      unclosed and unexhausted, or less than 15 seconds after some `CloseEnrollment`. */
  lemma AcceptsIff(h: seq<Event>, n: nat, now: Time, maxAttempts: nat)
    requires n <= |h| && History(h, maxAttempts)
    requires forall i, j :: 0 <= i <= j < |h| ==> h[i].at <= h[j].at
    ensures AcceptsUnauthenticated(After(h, n, maxAttempts), now) <==>
              (Live(h, n, maxAttempts) && now < Expiry(h, Latest(h, n)))
              || exists j :: 0 <= j < n && h[j].Closed? && now < h[j].at + 15_000_000_000
  {
    FieldsAgreeWithHistory(h, n, maxAttempts);
    GraceIsLastClose(h, n, maxAttempts);
  }

  /** The two tests of the same window differ at one instant: its expiry. */
  lemma CheckOutlivesOpenByOneInstant(w: Window, guess: string, now: Time, maxAttempts: nat)
    requires Normalize(guess) == w.code != ""
    ensures Check(w, guess, now, maxAttempts).1 && !IsOpen(w, now) <==> now == w.expires
  {}

  // ---------- what a person may type ----------

  /** The 32 symbols of a generated code: digits and capitals without I, L, O and U. */
  predicate IsSymbol(c: char) {
    '0' <= c <= '9' || ('A' <= c <= 'Z' && c != 'I' && c != 'L' && c != 'O' && c != 'U')
  }

  /** unicode.ToUpper, as far as it matters here: the two letters outside ASCII whose capital is in ASCII are the
      dotless i and the long s; any other stays outside ASCII, whatever its capital. */
  function Upper(c: char): char {
    if 'a' <= c <= 'z' then ((c as int) - 32) as char
    else if c == '\U{0131}' then 'I'
    else if c == '\U{017F}' then 'S'
    else c
  }

  function Replacement(c: char): string {
    match c
    case '-' => ""
    case ' ' => ""
    case 'I' => "1"
    case 'L' => "1"
    case 'O' => "0"
    case 'U' => "V"
    case _ => [c]
  }

  function Replaced(s: string): string {
    if s == "" then "" else Replacement(Upper(s[0])) + Replaced(s[1..])
  }

  function Normalize(s: string): string {
    Replaced(TrimSpace(s))
  }

  /** `t` is the symbol `c`, in either case, or a letter that is easily mistaken for it. */
  predicate ReadsAs(t: char, c: char) {
    || t == c
    || ('A' <= c <= 'Z' && (t as int) == (c as int) + 32)
    || (c == '1' && (t == 'I' || t == 'i' || t == '\U{0131}' || t == 'L' || t == 'l'))
    || (c == '0' && (t == 'O' || t == 'o'))
    || (c == 'V' && (t == 'U' || t == 'u'))
    || (c == 'S' && t == '\U{017F}')
  }

  /** `typed` spells `code` symbol by symbol, with hyphens and spaces anywhere. */
  predicate Spells(typed: string, code: string) {
    if typed == "" then code == ""
    else if typed[0] == '-' || typed[0] == ' ' then Spells(typed[1..], code)
    else code != "" && ReadsAs(typed[0], code[0]) && Spells(typed[1..], code[1..])
  }

  lemma {:induction false} ReplacedIffSpells(typed: string, code: string)
    requires forall i :: 0 <= i < |code| ==> IsSymbol(code[i])
    ensures Replaced(typed) == code <==> Spells(typed, code)
    decreases |typed|
  {
    if typed != "" {
      var t := typed[0];
      if t == '-' || t == ' ' {
        ReplacedIffSpells(typed[1..], code);
      } else if code != "" {
        ReplacedIffSpells(typed[1..], code[1..]);
        assert code == [code[0]] + code[1..];
        SymbolMatches(t, code[0]);
        assert |Replacement(Upper(t))| == 1;
        assert (Replacement(Upper(t)) + Replaced(typed[1..]))[1..] == Replaced(typed[1..]);
      }
    }
  }

  lemma SymbolMatches(t: char, c: char)
    requires IsSymbol(c) && t != '-' && t != ' '
    ensures Replacement(Upper(t)) == [c] <==> ReadsAs(t, c)
  {}

  /** A guess normalises to a generated code exactly when, blanks at its ends aside, it spells that code. */
  lemma NormalizesIffSpells(typed: string, code: string)
    requires forall i :: 0 <= i < |code| ==> IsSymbol(code[i])
    ensures Normalize(typed) == code <==> Spells(TrimSpace(typed), code)
  {
    ReplacedIffSpells(TrimSpace(typed), code);
  }
}
