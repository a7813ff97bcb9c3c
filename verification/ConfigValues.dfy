/** Values in the configuration file (agent/internal/config/config.go): comments, quotes and lists. */
module ConfigValues {
  import opened Text

  // ---------- the parser ----------

  predicate IsQuote(c: char) {
    c == '"' || c == '\''
  }

  /** The quote that is open after reading `s`, if one was open before; the null character stands for none. */
  const NONE: char := '\0'

  function QuoteAfter(quote: char, c: char): char {
    if quote != NONE then (if c == quote then NONE else quote)
    else if IsQuote(c) then c else NONE
  }

  /** Where a comment starts in `s`, which `prev` precedes; |s| if nowhere. */
  function CommentStart(prev: char, quote: char, s: string): (n: nat)
    ensures n <= |s|
    decreases s
  {
    if s == "" then 0
    else if quote == NONE && s[0] == '#' && (prev == ' ' || prev == '\t') then 0
    else 1 + CommentStart(s[0], QuoteAfter(quote, s[0]), s[1..])
  }

  /** A comment at the very start counts too, hence the blank before it. */
  function Strip(s: string): string {
    var n := CommentStart(' ', NONE, s);
    if n < |s| then TrimSpace(s[..n]) else s
  }

  method StripInlineComment(s: string) returns (r: string)
    ensures r == Strip(s)
  {
    var quote := NONE;
    for i := 0 to |s|
      invariant CommentStart(' ', NONE, s) == i + CommentStart(if i == 0 then ' ' else s[i - 1], quote, s[i..])
    {
      var c := s[i];
      if quote != NONE {
        if c == quote {
          quote := NONE;
        }
      } else if c == '"' || c == '\'' {
        quote := c;
      } else if c == '#' && (i == 0 || s[i - 1] == ' ' || s[i - 1] == '\t') {
        return TrimSpace(s[..i]);
      }
      assert s[i..][1..] == s[i + 1..];
    }
    return s;
  }

  function TrimSetLeft(s: string, a: char, b: char): (r: string)
    ensures r != "" ==> r[0] != a && r[0] != b
  {
    if s != "" && (s[0] == a || s[0] == b) then TrimSetLeft(s[1..], a, b) else s
  }

  function TrimSetRight(s: string, a: char, b: char): (r: string)
    ensures r <= s && (r != "" ==> r[|r| - 1] != a && r[|r| - 1] != b)
  {
    if s != "" && (s[|s| - 1] == a || s[|s| - 1] == b) then TrimSetRight(s[..|s| - 1], a, b) else s
  }

  /** strings.Trim with a set of two characters. */
  function TrimSet(s: string, a: char, b: char): string {
    TrimSetRight(TrimSetLeft(s, a, b), a, b)
  }

  function Unquote(s: string): string {
    TrimSet(s, '"', '\'')
  }

  function SplitComma(s: string): (parts: seq<string>)
    ensures parts != []
  {
    if s == "" then [""]
    else
      var rest := SplitComma(s[1..]);
      if s[0] == ',' then [""] + rest else [[s[0]] + rest[0]] + rest[1..]
  }

  function Items(parts: seq<string>): seq<string> {
    if parts == [] then []
    else
      var p := Unquote(TrimSpace(parts[|parts| - 1]));
      Items(parts[..|parts| - 1]) + if p != "" then [p] else []
  }

  function ListOf(s: string): seq<string> {
    var t := TrimSpace(s);
    if t == "" || t[0] != '[' then [] else Items(SplitComma(TrimSet(t, '[', ']')))
  }

  method CollectItems(parts: seq<string>) returns (out: seq<string>)
    ensures out == Items(parts)
  {
    out := [];
    for i := 0 to |parts|
      invariant out == Items(parts[..i])
    {
      var p := Unquote(TrimSpace(parts[i]));
      assert parts[..i + 1][..i] == parts[..i];
      if p != "" {
        out := out + [p];
      }
    }
    assert parts[..|parts|] == parts;
  }

  method ParseList(s: string) returns (out: seq<string>)
    ensures out == ListOf(s)
  {
    var t := TrimSpace(s);
    if t == "" || t[0] != '[' {
      return [];
    }
    out := CollectItems(SplitComma(TrimSet(t, '[', ']')));
  }

  /** What `Load` hands on from the text after the equals sign. */
  function Raw(text: string): string {
    Strip(TrimSpace(text))
  }

  // ---------- the printer ----------

  /** Free of double quotes, and with no single quote at either end. */
  predicate Plain(v: string) {
    && (forall i :: 0 <= i < |v| ==> v[i] != '"')
    && (v != "" ==> v[0] != '\'' && v[|v| - 1] != '\'')
  }

  function Quoted(v: string): string {
    "\"" + v + "\""
  }

  /** Nothing, or a blank and a comment. */
  predicate Comment(c: string) {
    c == "" || (|c| >= 2 && (c[0] == ' ' || c[0] == '\t') && c[1] == '#' && !IsSpace(c[|c| - 1]))
  }

  // ---------- a printed value parses back ----------

  /** `s` opens and closes its quotes and holds no comment, whatever precedes it. */
  ghost predicate Closed(s: string) {
    forall prev, t :: CommentStart(prev, NONE, s + t) == |s| + CommentStart(if s == "" then prev else s[|s| - 1], NONE, t)
  }

  lemma {:induction false} InsideQuotes(prev: char, v: string, t: string)
    requires forall i :: 0 <= i < |v| ==> v[i] != '"'
    ensures CommentStart(prev, '"', v + "\"" + t) == |v| + 1 + CommentStart('"', NONE, t)
    decreases v
  {
    if v == "" {
      assert (v + "\"" + t)[1..] == t;
    } else {
      InsideQuotes(v[0], v[1..], t);
      assert (v + "\"" + t)[1..] == v[1..] + "\"" + t;
    }
  }

  lemma QuotedIsClosed(v: string)
    requires forall i :: 0 <= i < |v| ==> v[i] != '"'
    ensures Closed(Quoted(v))
  {
    forall prev, t
      ensures CommentStart(prev, NONE, Quoted(v) + t) == |Quoted(v)| + CommentStart('"', NONE, t)
    {
      InsideQuotes('"', v, t);
      assert (Quoted(v) + t)[1..] == v + "\"" + t;
    }
  }

  lemma {:induction false} InsideSingleQuotes(prev: char, v: string, t: string)
    requires forall i :: 0 <= i < |v| ==> v[i] != '\''
    ensures CommentStart(prev, '\'', v + "'" + t) == |v| + 1 + CommentStart('\'', NONE, t)
    decreases v
  {
    if v == "" {
      assert (v + "'" + t)[1..] == t;
    } else {
      InsideSingleQuotes(v[0], v[1..], t);
      assert (v + "'" + t)[1..] == v[1..] + "'" + t;
    }
  }

  /** Nor inside single quotes. */
  lemma SingleQuotedIsClosed(v: string)
    requires forall i :: 0 <= i < |v| ==> v[i] != '\''
    ensures Closed("'" + v + "'")
  {
    forall prev, t
      ensures CommentStart(prev, NONE, "'" + v + "'" + t) == |"'" + v + "'"| + CommentStart('\'', NONE, t)
    {
      InsideSingleQuotes('\'', v, t);
      assert ("'" + v + "'" + t)[1..] == v + "'" + t;
    }
  }

  /** Nor outside quotes within a word, only after a blank or at the start. */
  lemma HashStartsCommentIff(before: string, after: string)
    requires forall i :: 0 <= i < |before| ==> before[i] != '#' && !IsQuote(before[i])
    ensures CommentStart(' ', NONE, before + "#" + after) == |before| <==>
              before == "" || before[|before| - 1] == ' ' || before[|before| - 1] == '\t'
  {
    PlainTextIsSkipped(' ', before, "#" + after);
    assert before + "#" + after == before + ("#" + after);
  }

  lemma ClosedAppend(a: string, b: string)
    requires Closed(a) && Closed(b)
    ensures Closed(a + b)
  {
    forall prev, t
      ensures CommentStart(prev, NONE, a + b + t)
           == |a + b| + CommentStart(if a + b == "" then prev else (a + b)[|a + b| - 1], NONE, t)
    {
      assert a + b + t == a + (b + t);
    }
  }

  lemma {:induction false} PlainTextIsSkipped(prev: char, s: string, t: string)
    requires forall i :: 0 <= i < |s| ==> s[i] != '#' && !IsQuote(s[i])
    ensures CommentStart(prev, NONE, s + t) == |s| + CommentStart(if s == "" then prev else s[|s| - 1], NONE, t)
    decreases s
  {
    if s == "" {
      assert s + t == t;
    } else {
      PlainTextIsSkipped(s[0], s[1..], t);
      assert (s + t)[1..] == s[1..] + t;
    }
  }

  lemma PlainTextIsClosed(s: string)
    requires forall i :: 0 <= i < |s| ==> s[i] != '#' && !IsQuote(s[i])
    ensures Closed(s)
  {
    forall prev, t
      ensures CommentStart(prev, NONE, s + t) == |s| + CommentStart(if s == "" then prev else s[|s| - 1], NONE, t)
    {
      PlainTextIsSkipped(prev, s, t);
    }
  }

  /** What is printed before a comment comes through untouched, blanks around the line included. */
  lemma RawOfPrinted(before: string, printed: string, c: string, after: string)
    requires Closed(printed) && printed != "" && !IsSpace(printed[0]) && !IsSpace(printed[|printed| - 1])
    requires Comment(c) && AllSpace(before) && AllSpace(after)
    ensures Raw(before + printed + c + after) == printed
  {
    var s := printed + c;
    TrimDropsBlanks(before, s, after);
    assert before + printed + c + after == before + s + after;
    StripsComment(printed, c);
  }

  lemma StripsComment(printed: string, c: string)
    requires Closed(printed) && printed != "" && !IsSpace(printed[0]) && !IsSpace(printed[|printed| - 1])
    requires Comment(c)
    ensures Strip(printed + c) == printed
  {
    var s := printed + c;
    assert CommentStart(' ', NONE, s) == |printed| + CommentStart(printed[|printed| - 1], NONE, c);
    if c == "" {
      assert s == printed;
    } else {
      assert CommentStart(c[0], NONE, c[1..]) == 0;
      assert s[..|printed|] == printed && s[..|printed| + 1] == printed + [c[0]];
      TrimDropsBlanks("", printed, [c[0]]);
      assert "" + printed + [c[0]] == printed + [c[0]];
    }
  }

  lemma TrimSetSkips(c: char, s: string, d: char, a: char, b: char)
    requires (c == a || c == b) && (d == a || d == b)
    requires s != "" ==> s[0] != a && s[0] != b && s[|s| - 1] != a && s[|s| - 1] != b
    ensures TrimSet([c] + s + [d], a, b) == s
  {
    assert ([c] + s + [d])[1..] == s + [d];
    if s == "" {
      assert (s + [d])[1..] == "" && TrimSetLeft("", a, b) == "";
      assert TrimSetLeft(s + [d], a, b) == "";
    } else {
      assert (s + [d])[0] == s[0] && (s + [d])[..|s|] == s;
      assert TrimSetRight(s, a, b) == s;
      assert TrimSetLeft([c] + s + [d], a, b) == s + [d];
    }
  }

  lemma UnquoteOfQuoted(v: string)
    requires forall i :: 0 <= i < |v| ==> v[i] != '"'
    ensures Unquote(Quoted(v)) == v <==> Plain(v)
  {
    if Plain(v) {
      TrimSetSkips('"', v, '"', '"', '\'');
    }
  }

  /** A value without double quotes, printed in them, parses back to itself exactly when no single quote stands at
      either end; blanks around it and a comment after it make no difference. */
  lemma ValueRoundTripIff(before: string, v: string, c: string, after: string)
    requires forall i :: 0 <= i < |v| ==> v[i] != '"'
    requires Comment(c) && AllSpace(before) && AllSpace(after)
    ensures Unquote(Raw(before + Quoted(v) + c + after)) == v <==> Plain(v)
  {
    QuotedIsClosed(v);
    RawOfPrinted(before, Quoted(v), c, after);
    UnquoteOfQuoted(v);
  }

  // ---------- a printed list parses back ----------

  predicate IsItem(v: string) {
    Plain(v) && v != "" && forall i :: 0 <= i < |v| ==> v[i] != ','
  }

  function Joined(items: seq<string>): string {
    if items == [] then ""
    else if |items| == 1 then Quoted(items[0])
    else Joined(items[..|items| - 1]) + "," + (" " + Quoted(items[|items| - 1]))
  }

  function PrintList(items: seq<string>): string {
    "[" + Joined(items) + "]"
  }

  lemma {:induction false} JoinedIsClosed(items: seq<string>)
    requires forall i :: 0 <= i < |items| ==> IsItem(items[i])
    ensures Closed(Joined(items))
    ensures items != [] ==> |Joined(items)| >= 2 && Joined(items)[0] == '"' == Joined(items)[|Joined(items)| - 1]
  {
    if items == [] {
      PlainTextIsClosed("");
    } else {
      var last := items[|items| - 1];
      QuotedIsClosed(last);
      if |items| > 1 {
        var front := Joined(items[..|items| - 1]);
        JoinedIsClosed(items[..|items| - 1]);
        PlainTextIsClosed(",");
        PlainTextIsClosed(" ");
        ClosedAppend(front, ",");
        ClosedAppend(" ", Quoted(last));
        ClosedAppend(front + ",", " " + Quoted(last));
      }
    }
  }

  lemma ListIsClosed(items: seq<string>)
    requires forall i :: 0 <= i < |items| ==> IsItem(items[i])
    ensures Closed(PrintList(items))
  {
    JoinedIsClosed(items);
    PlainTextIsClosed("[");
    PlainTextIsClosed("]");
    ClosedAppend("[", Joined(items));
    ClosedAppend("[" + Joined(items), "]");
  }

  lemma {:induction false} SplitKeepsCommaFree(t: string)
    requires forall i :: 0 <= i < |t| ==> t[i] != ','
    ensures SplitComma(t) == [t]
  {
    if t != "" {
      SplitKeepsCommaFree(t[1..]);
      assert t == [t[0]] + t[1..];
    }
  }

  lemma {:induction false} SplitAtLastComma(s: string, t: string)
    requires forall i :: 0 <= i < |t| ==> t[i] != ','
    ensures SplitComma(s + "," + t) == SplitComma(s) + [t]
  {
    if s == "" {
      SplitKeepsCommaFree(t);
      assert (s + "," + t)[1..] == t;
    } else {
      SplitAtLastComma(s[1..], t);
      assert (s + "," + t)[1..] == s[1..] + "," + t;
    }
  }

  /** What `parseList` makes of one part, blanks around it included. */
  lemma PartOfItem(before: string, v: string, after: string)
    requires IsItem(v) && AllSpace(before) && AllSpace(after)
    ensures Unquote(TrimSpace(before + Quoted(v) + after)) == v
  {
    TrimDropsBlanks(before, Quoted(v), after);
    UnquoteOfQuoted(v);
  }

  lemma ItemsAppend(parts: seq<string>, p: string, v: string)
    requires Unquote(TrimSpace(p)) == v && v != ""
    ensures Items(parts + [p]) == Items(parts) + [v]
  {
    assert (parts + [p])[..|parts|] == parts;
  }

  lemma ItemsOfOne(v: string)
    requires IsItem(v)
    ensures Items(SplitComma(Quoted(v))) == [v]
  {
    SplitKeepsCommaFree(Quoted(v));
    PartOfItem("", v, "");
    assert "" + Quoted(v) + "" == Quoted(v);
    ItemsAppend([], Quoted(v), v);
    assert [] + [Quoted(v)] == [Quoted(v)];
  }

  lemma ItemsOfFrontAndLast(s: string, v: string, p: string)
    requires IsItem(v) && p == " " + Quoted(v)
    ensures Items(SplitComma(s + "," + p)) == Items(SplitComma(s)) + [v]
  {
    SplitAtLastComma(s, p);
    PartOfItem(" ", v, "");
    assert " " + Quoted(v) + "" == p;
    ItemsAppend(SplitComma(s), p, v);
  }

  lemma {:induction false} ItemsOfJoined(items: seq<string>)
    requires forall i :: 0 <= i < |items| ==> IsItem(items[i])
    ensures Items(SplitComma(Joined(items))) == items
  {
    if items == [] {
      assert SplitComma("")[..0] == [];
    } else {
      var front, v := items[..|items| - 1], items[|items| - 1];
      assert items == front + [v];
      if |items| == 1 {
        ItemsOfOne(v);
      } else {
        ItemsOfJoined(front);
        ItemsOfFrontAndLast(Joined(front), v, " " + Quoted(v));
      }
    }
  }

  /** Text that does not begin with a bracket is no list. */
  lemma NotAList(before: string, s: string)
    requires AllSpace(before) && (s == "" || (!IsSpace(s[0]) && s[0] != '['))
    ensures ListOf(before + s) == []
  {
    TrimLeftDropsBlanks(before, s);
    if s != "" {
      TrimRightKeepsFirst(s);
    }
  }

  /** A printed list of such items parses back to the same list, with blanks around it and a comment after it, and
      whatever hash signs and brackets the items contain. */
  lemma ListRoundTrip(before: string, items: seq<string>, c: string, after: string)
    requires forall i :: 0 <= i < |items| ==> IsItem(items[i])
    requires Comment(c) && AllSpace(before) && AllSpace(after)
    ensures ListOf(Raw(before + PrintList(items) + c + after)) == items
  {
    var p := PrintList(items);
    JoinedIsClosed(items);
    ListIsClosed(items);
    RawOfPrinted(before, p, c, after);
    TrimKeeps(p);
    TrimSetSkips('[', Joined(items), ']', '[', ']');
    ItemsOfJoined(items);
  }
}
