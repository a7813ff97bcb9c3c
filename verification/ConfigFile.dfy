/** The lines of the configuration file, as Load of agent/internal/config/config.go takes them apart. */
module ConfigFile {
  import opened Common
  import opened Text
  import C = ConfigValues

  /** What `Load` hands to `set`. */
  datatype Setting = Setting(section: string, key: string, raw: string)

  // ---------- the parser ----------

  /** The position of the first `c`, or |s|. */
  function Find(s: string, c: char): (n: nat)
    ensures n <= |s|
    ensures forall i :: 0 <= i < n ==> s[i] != c
    ensures n < |s| ==> s[n] == c
  {
    if s == "" || s[0] == c then 0 else 1 + Find(s[1..], c)
  }

  predicate Has(s: string, c: char) {
    exists i :: 0 <= i < |s| && s[i] == c
  }

  predicate Blank(line: string) {
    line == "" || line[0] == '#'
  }

  /** An array may run over several lines: this one goes on in the next. */
  predicate GoesOn(line: string) {
    Has(line, '=') && Has(line, '[') && !Has(line, ']')
  }

  /** The line with the ones it goes on in, up to the first that has a closing bracket, and the lines after those. */
  function Joined(line: string, rest: seq<string>): (r: (string, seq<string>))
    ensures |r.1| <= |rest| && (rest != [] ==> |r.1| < |rest|)
    decreases |rest|
  {
    if rest == [] then (line, [])
    else
      var next := TrimSpace(rest[0]);
      if Has(next, ']') then (line + " " + next, rest[1..]) else Joined(line + " " + next, rest[1..])
  }

  function Whole(line: string, rest: seq<string>): (r: (string, seq<string>))
    ensures |r.1| <= |rest|
  {
    if GoesOn(line) then Joined(line, rest) else (line, rest)
  }

  function Lower(s: string): string {
    if s == "" then ""
    else [if 'A' <= s[0] <= 'Z' then ((s[0] as int) + 32) as char else s[0]] + Lower(s[1..])
  }

  predicate IsHeader(line: string) {
    line != "" && line[0] == '[' && line[|line| - 1] == ']'
  }

  function SettingOf(section: string, line: string): Setting
    requires Has(line, '=')
  {
    var eq := Find(line, '=');
    Setting(section, Lower(TrimSpace(line[..eq])), C.Raw(line[eq + 1..]))
  }

  /** What the first lines are: nothing, a section header, something unreadable, or a setting. */
  datatype Piece = Nothing | Header(name: string) | Unreadable | Single(setting: Setting)

  function PieceOf(section: string, line: string): Piece {
    if IsHeader(line) then Header(Lower(C.TrimSet(line, '[', ']')))
    else if !Has(line, '=') then Unreadable
    else Single(SettingOf(section, line))
  }

  /** The first piece and the lines after it. */
  function First(section: string, line: string, rest: seq<string>): (r: (Piece, seq<string>))
    ensures |r.1| <= |rest|
  {
    if Blank(line) then (Nothing, rest) else (PieceOf(section, Whole(line, rest).0), Whole(line, rest).1)
  }

  /** The settings of the lines, or None if one of them is unreadable. */
  function Parsed(section: string, lines: seq<string>): Option<seq<Setting>>
    decreases |lines|
  {
    if lines == [] then Some([])
    else
      var (piece, rest) := First(section, TrimSpace(lines[0]), lines[1..]);
      if piece.Unreadable? then None
      else After(if piece.Single? then [piece.setting] else [],
                 Parsed(if piece.Header? then piece.name else section, rest))
  }

  function After(done: seq<Setting>, more: Option<seq<Setting>>): Option<seq<Setting>> {
    if more.None? then None else Some(done + more.value)
  }

  // ---------- the code ----------

  method JoinLines(first: string, lines: seq<string>, from: nat) returns (line: string, ln: nat)
    requires from <= |lines|
    ensures from <= ln <= |lines| && first <= line
    ensures line == Whole(first, lines[from..]).0 && lines[ln..] == Whole(first, lines[from..]).1
  {
    line, ln := first, from;
    if Has(line, '=') && Has(line, '[') && !Has(line, ']') {
      while ln < |lines|
        invariant from <= ln <= |lines| && first <= line
        invariant Joined(line, lines[ln..]) == Joined(first, lines[from..])
      {
        var next := TrimSpace(lines[ln]);
        assert lines[ln..][1..] == lines[ln + 1..];
        ln := ln + 1;
        line := line + " " + next;
        if Has(next, ']') {
          return;
        }
      }
    }
  }

  /** One turn of the loop: the piece that starts at line `from`, and where the next one starts. */
  method ReadPiece(section: string, lines: seq<string>, from: nat) returns (piece: Piece, ln: nat)
    requires from < |lines|
    ensures from < ln <= |lines|
    ensures piece == First(section, TrimSpace(lines[from]), lines[from + 1..]).0
    ensures lines[ln..] == First(section, TrimSpace(lines[from]), lines[from + 1..]).1
  {
    var line := TrimSpace(lines[from]);
    if line == "" || line[0] == '#' {
      return Nothing, from + 1;
    }
    line, ln := JoinLines(line, lines, from + 1);
    piece := TakeApart(section, line);
  }

  method TakeApart(section: string, line: string) returns (piece: Piece)
    requires line != ""
    ensures piece == PieceOf(section, line)
  {
    if line[0] == '[' && line[|line| - 1] == ']' {
      return Header(Lower(C.TrimSet(line, '[', ']')));
    }
    var eq := Find(line, '=');
    if eq == |line| {
      return Unreadable;
    }
    var raw := C.StripInlineComment(TrimSpace(line[eq + 1..]));
    return Single(Setting(section, Lower(TrimSpace(line[..eq])), raw));
  }

  method Load(lines: seq<string>) returns (settings: Option<seq<Setting>>)
    ensures settings == Parsed("", lines)
  {
    var section, done, ln := "", [], 0;
    assert lines[0..] == lines;
    AfterNothing(Parsed("", lines));
    while ln < |lines|
      invariant ln <= |lines|
      invariant Parsed("", lines) == After(done, Parsed(section, lines[ln..]))
    {
      ParsedStep(section, lines, ln);
      var piece, next := ReadPiece(section, lines, ln);
      if piece.Unreadable? {
        return None;
      }
      section := if piece.Header? then piece.name else section;
      var found := if piece.Single? then [piece.setting] else [];
      AfterAfter(done, found, Parsed(section, lines[next..]));
      done, ln := done + found, next;
    }
    assert done + [] == done;
    return Some(done);
  }

  lemma ParsedStep(section: string, lines: seq<string>, ln: nat)
    requires ln < |lines|
    ensures var (piece, rest) := First(section, TrimSpace(lines[ln]), lines[ln + 1..]);
            Parsed(section, lines[ln..])
            == if piece.Unreadable? then None
               else After(if piece.Single? then [piece.setting] else [],
                          Parsed(if piece.Header? then piece.name else section, rest))
  {
    assert lines[ln..][1..] == lines[ln + 1..];
  }

  lemma AfterNothing(more: Option<seq<Setting>>)
    ensures After([], more) == more
  {
    if more.Some? {
      assert [] + more.value == more.value;
    }
  }

  lemma AfterAfter(done: seq<Setting>, found: seq<Setting>, more: Option<seq<Setting>>)
    ensures After(done, After(found, more)) == After(done + found, more)
  {
    if more.Some? {
      assert done + (found + more.value) == done + found + more.value;
    }
  }

  // ---------- printed lines read back ----------

  /** One printed setting: its key, as typed in whatever case, and a quoted value or a list as its text. */
  datatype Printed = Printed(before: string, typed: string, key: string, text: string, comment: string, after: string)

  /** `typed` is `name` with some of its letters in upper case. */
  predicate InSomeCase(typed: string, name: string) {
    |typed| == |name| && forall i :: 0 <= i < |name| ==>
      typed[i] == name[i] || ('a' <= name[i] <= 'z' && typed[i] as int + 32 == name[i] as int)
  }

  predicate IsKey(k: string) {
    k != "" && forall i :: 0 <= i < |k| ==> 'a' <= k[i] <= 'z' || '0' <= k[i] <= '9' || k[i] == '_'
  }

  ghost predicate Printable(p: Printed) {
    && IsKey(p.key) && InSomeCase(p.typed, p.key) && AllSpace(p.before) && AllSpace(p.after) && C.Comment(p.comment)
    && C.Closed(p.text) && p.text != "" && !IsSpace(p.text[0]) && !IsSpace(p.text[|p.text| - 1])
  }

  function Core(p: Printed): string {
    p.typed + " = " + p.text + p.comment
  }

  function Line(p: Printed): string {
    p.before + Core(p) + p.after
  }

  function Lines(ps: seq<Printed>): seq<string> {
    if ps == [] then [] else [Line(ps[0])] + Lines(ps[1..])
  }

  function Settings(section: string, ps: seq<Printed>): seq<Setting> {
    if ps == [] then [] else [Setting(section, ps[0].key, ps[0].text)] + Settings(section, ps[1..])
  }

  /** A bracket is opened in the value, or in the comment after it, and none is closed in either. */
  predicate Swallows(p: Printed) {
    Has(p.text + p.comment, '[') && !Has(p.text + p.comment, ']')
  }

  lemma KeyHasNo(p: Printed, c: char)
    requires IsKey(p.key) && InSomeCase(p.typed, p.key) && (c == '[' || c == ']')
    ensures Has(Core(p), c) <==> Has(p.text + p.comment, c)
  {
    var k, rest := p.typed + " = ", p.text + p.comment;
    assert Core(p) == k + rest;
    if Has(rest, c) {
      var i :| 0 <= i < |rest| && rest[i] == c;
      assert Core(p)[|k| + i] == c;
    }
  }

  lemma SwallowsIffGoesOn(p: Printed)
    requires IsKey(p.key) && InSomeCase(p.typed, p.key)
    ensures Has(Core(p), '=') && (GoesOn(Core(p)) <==> Swallows(p))
  {
    assert Core(p)[|p.typed| + 1] == '=';
    KeyHasNo(p, '[');
    KeyHasNo(p, ']');
  }

  lemma {:induction false} FindSkips(k: string, c: char, rest: string)
    requires forall i :: 0 <= i < |k| ==> k[i] != c
    ensures Find(k + [c] + rest, c) == |k|
  {
    if k != "" {
      FindSkips(k[1..], c, rest);
      assert (k + [c] + rest)[1..] == k[1..] + [c] + rest;
    }
  }

  lemma {:induction false} LowerReadsBack(typed: string, name: string)
    requires InSomeCase(typed, name) && forall i :: 0 <= i < |name| ==> !('A' <= name[i] <= 'Z')
    ensures Lower(typed) == name
  {
    if name != "" {
      LowerReadsBack(typed[1..], name[1..]);
      assert name == [name[0]] + name[1..];
    }
  }

  lemma LineTrims(p: Printed)
    requires Printable(p)
    ensures TrimSpace(Line(p)) == Core(p) && !Blank(Core(p)) && !IsHeader(Core(p))
  {
    var last := Core(p)[|Core(p)| - 1];
    assert last == if p.comment == "" then p.text[|p.text| - 1] else p.comment[|p.comment| - 1];
    TrimDropsBlanks(p.before, Core(p), p.after);
  }

  lemma CoreSplits(p: Printed)
    requires IsKey(p.key) && InSomeCase(p.typed, p.key)
    ensures var eq := Find(Core(p), '=');
            eq == |p.typed| + 1 && Core(p)[..eq] == p.typed + " " && Core(p)[eq + 1..] == " " + p.text + p.comment
  {
    var k, rest := p.typed + " ", " " + p.text + p.comment;
    assert Core(p) == k + ['='] + rest;
    FindSkips(k, '=', rest);
  }

  lemma KeyReadsBack(typed: string, key: string)
    requires IsKey(key) && InSomeCase(typed, key)
    ensures Lower(TrimSpace(typed + " ")) == key
  {
    TrimDropsBlanks("", typed, " ");
    assert "" + typed + " " == typed + " ";
    LowerReadsBack(typed, key);
  }

  lemma TextReadsBack(p: Printed)
    requires Printable(p)
    ensures C.Raw(" " + p.text + p.comment) == p.text
  {
    C.RawOfPrinted(" ", p.text, p.comment, "");
    assert " " + p.text + p.comment + "" == " " + p.text + p.comment;
  }

  lemma LineIsSetting(section: string, p: Printed)
    requires Printable(p)
    ensures Has(Core(p), '=') && SettingOf(section, Core(p)) == Setting(section, p.key, p.text)
  {
    SwallowsIffGoesOn(p);
    CoreSplits(p);
    KeyReadsBack(p.typed, p.key);
    TextReadsBack(p);
  }

  lemma {:induction false} CountAtMostLines(section: string, lines: seq<string>)
    ensures Parsed(section, lines).Some? ==> |Parsed(section, lines).value| <= |lines|
    decreases |lines|
  {
    if lines != [] {
      var first := TrimSpace(lines[0]);
      if Blank(first) {
        CountAtMostLines(section, lines[1..]);
      } else {
        var (line, rest) := Whole(first, lines[1..]);
        CountAtMostLines(if IsHeader(line) then Lower(C.TrimSet(line, '[', ']')) else section, rest);
      }
    }
  }

  lemma {:induction false} LinesCount(ps: seq<Printed>)
    ensures |Lines(ps)| == |ps|
  {
    if ps != [] { LinesCount(ps[1..]); }
  }

  lemma {:induction false} SettingsCount(section: string, ps: seq<Printed>)
    ensures |Settings(section, ps)| == |ps|
  {
    if ps != [] { SettingsCount(section, ps[1..]); }
  }

  lemma AfterIs(one: Setting, more: Option<seq<Setting>>, rest: seq<Setting>)
    ensures After([one], more) == Some([one] + rest) <==> more == Some(rest)
  {
    if more.Some? {
      assert ([one] + more.value)[1..] == more.value && ([one] + rest)[1..] == rest;
    }
  }

  /** A line that swallows nothing is read on its own, whatever follows. */
  lemma ReadAlone(section: string, p: Printed, rest: seq<string>)
    requires Printable(p) && (rest == [] || !Swallows(p))
    ensures Parsed(section, [Line(p)] + rest) == After([Setting(section, p.key, p.text)], Parsed(section, rest))
  {
    LineTrims(p);
    SwallowsIffGoesOn(p);
    LineIsSetting(section, p);
    assert ([Line(p)] + rest)[1..] == rest;
  }

  /** The first of several lines is read on its own, or swallows at least the one after it. */
  lemma FirstLine(section: string, ps: seq<Printed>)
    requires ps != [] && forall i :: 0 <= i < |ps| ==> Printable(ps[i])
    ensures |ps| == 1 || !Swallows(ps[0]) ==>
              Parsed(section, Lines(ps))
              == After([Setting(section, ps[0].key, ps[0].text)], Parsed(section, Lines(ps[1..])))
    ensures |ps| > 1 && Swallows(ps[0]) && Parsed(section, Lines(ps)).Some? ==>
              |Parsed(section, Lines(ps)).value| < |ps|
  {
    var p, more := ps[0], Lines(ps[1..]);
    LinesCount(ps[1..]);
    if |ps| == 1 || !Swallows(p) {
      ReadAlone(section, p, more);
    } else {
      LineTrims(p);
      SwallowsIffGoesOn(p);
      assert Lines(ps)[1..] == more;
      var (line, rest) := Whole(Core(p), more);
      CountAtMostLines(section, rest);
      if IsHeader(line) {
        CountAtMostLines(Lower(C.TrimSet(line, '[', ']')), rest);
      }
    }
  }

  /** Printed settings read back line by line, in order, with the key and the text as printed, if and only if none but
      the last opens a bracket, in its value or its comment, that it does not close: such a line swallows the next. */
  lemma {:induction false} LinesRoundTripIff(section: string, ps: seq<Printed>)
    requires forall i :: 0 <= i < |ps| ==> Printable(ps[i])
    ensures Parsed(section, Lines(ps)) == Some(Settings(section, ps))
       <==> forall i :: 0 <= i < |ps| - 1 ==> !Swallows(ps[i])
  {
    if ps != [] {
      var one := Setting(section, ps[0].key, ps[0].text);
      FirstLine(section, ps);
      LinesRoundTripIff(section, ps[1..]);
      AfterIs(one, Parsed(section, Lines(ps[1..])), Settings(section, ps[1..]));
      SettingsCount(section, ps);
      assert (forall i :: 0 <= i < |ps| - 1 ==> !Swallows(ps[i])) <==>
          (|ps| == 1 || !Swallows(ps[0])) && (forall i :: 0 <= i < |ps[1..]| - 1 ==> !Swallows(ps[1..][i])) by {
        assert forall i :: 0 < i < |ps| ==> ps[i] == ps[1..][i - 1];
      }
    }
  }

  /** If there are as many settings as lines, none was swallowed. */
  lemma {:induction false} CompleteIsRight(section: string, ps: seq<Printed>)
    requires forall i :: 0 <= i < |ps| ==> Printable(ps[i])
    ensures var r := Parsed(section, Lines(ps)); r.Some? && |r.value| == |ps| ==> r.value == Settings(section, ps)
  {
    if ps != [] {
      FirstLine(section, ps);
      CompleteIsRight(section, ps[1..]);
    }
  }

  lemma {:induction false} SettingAt(section: string, ps: seq<Printed>, i: nat)
    requires i < |ps|
    ensures |Settings(section, ps)| == |ps| && Settings(section, ps)[i] == Setting(section, ps[i].key, ps[i].text)
  {
    SettingsCount(section, ps);
    if i > 0 { SettingAt(section, ps[1..], i - 1); }
  }

  ghost predicate ReadBack(section: string, ps: seq<Printed>, vs: seq<string>)
    requires |vs| == |ps|
  {
    var r := Parsed(section, Lines(ps));
    && r.Some? && |r.value| == |ps|
    && forall i :: 0 <= i < |ps| ==> r.value[i].key == ps[i].key && C.Unquote(r.value[i].raw) == vs[i]
  }

  /** Quoted values without double quotes in them read back from their lines, each under its own key, if and only if
      none has a single quote at an end and no line swallows the next. */
  lemma ValuesReadBackIff(section: string, ps: seq<Printed>, vs: seq<string>)
    requires |vs| == |ps| && forall i :: 0 <= i < |ps| ==> Printable(ps[i]) && ps[i].text == C.Quoted(vs[i])
    requires forall i, j :: 0 <= i < |vs| && 0 <= j < |vs[i]| ==> vs[i][j] != '"'
    ensures ReadBack(section, ps, vs)
       <==> (forall i :: 0 <= i < |vs| ==> C.Plain(vs[i])) && (forall i :: 0 <= i < |ps| - 1 ==> !Swallows(ps[i]))
  {
    LinesRoundTripIff(section, ps);
    SettingsCount(section, ps);
    CompleteIsRight(section, ps);
    forall i | 0 <= i < |ps|
      ensures Settings(section, ps)[i].key == ps[i].key
      ensures C.Unquote(Settings(section, ps)[i].raw) == vs[i] <==> C.Plain(vs[i])
    {
      SettingAt(section, ps, i);
      C.UnquoteOfQuoted(vs[i]);
    }
  }

  /** A printed list closes its bracket, whatever its items and the comment hold. */
  lemma ListSwallowsNothing(p: Printed, items: seq<string>)
    requires p.text == C.PrintList(items)
    ensures !Swallows(p)
  {
    assert (p.text + p.comment)[|p.text| - 1] == ']';
  }
}
