/** Whole configuration files (agent/internal/config/config.go): settings, lists over several lines, section headers,
    comments and blank lines, read back as they were printed. */
module ConfigLayout {
  import opened Common
  import opened Text
  import opened ConfigFile
  import C = ConfigValues

  // ---------- a list over several lines ----------

  /** One line of a list: at least one item, with blanks around the line. */
  datatype Row = Row(before: string, items: seq<string>, after: string)

  /** `key = [`, the rows, and a closing bracket on its own line; `trailing` puts a comma after the last item too. */
  datatype List = List(before: string, typed: string, key: string, after: string, rows: seq<Row>, trailing: bool,
                       close: (string, string))

  predicate ProperRow(r: Row) {
    AllSpace(r.before) && AllSpace(r.after) && r.items != [] && forall i :: 0 <= i < |r.items| ==> C.IsItem(r.items[i])
  }

  predicate ProperList(l: List) {
    && IsKey(l.key) && InSomeCase(l.typed, l.key)
    && AllSpace(l.before) && AllSpace(l.after) && AllSpace(l.close.0) && AllSpace(l.close.1)
    && forall i :: 0 <= i < |l.rows| ==> ProperRow(l.rows[i])
  }

  function RowText(r: Row, comma: bool): string {
    C.Joined(r.items) + if comma then "," else ""
  }

  function RowLine(r: Row, comma: bool): string {
    r.before + RowText(r, comma) + r.after
  }

  /** Every row but the last ends in a comma. */
  function RowLines(rows: seq<Row>, trailing: bool): seq<string> {
    if rows == [] then []
    else [RowLine(rows[0], |rows| > 1 || trailing)] + RowLines(rows[1..], trailing)
  }

  function ListLines(l: List): seq<string> {
    [l.before + l.typed + " = [" + l.after] + RowLines(l.rows, l.trailing) + [l.close.0 + "]" + l.close.1]
  }

  function Flat(rows: seq<Row>): seq<string> {
    if rows == [] then [] else rows[0].items + Flat(rows[1..])
  }

  // ---------- the lines are joined ----------

  /** What joining appends: each row, and the closing bracket, after a space. */
  function Tail(rows: seq<Row>, trailing: bool): string {
    if rows == [] then " ]"
    else " " + RowText(rows[0], |rows| > 1 || trailing) + Tail(rows[1..], trailing)
  }

  /** No item of the row holds a closing bracket. */
  predicate Unclosed(r: Row) {
    !Has(RowText(r, true), ']')
  }

  lemma RowTrims(r: Row, comma: bool)
    requires ProperRow(r)
    ensures TrimSpace(RowLine(r, comma)) == RowText(r, comma)
    ensures RowText(r, comma) != "" && RowText(r, comma)[0] == '"'
    ensures Has(RowText(r, comma), ']') <==> !Unclosed(r)
  {
    C.JoinedIsClosed(r.items);
    TrimDropsBlanks(r.before, RowText(r, comma), r.after);
    var j := C.Joined(r.items);
    if i :| 0 <= i < |RowText(r, true)| && RowText(r, true)[i] == ']' {
      assert i < |j| && RowText(r, comma)[i] == ']';
    }
    if i :| 0 <= i < |RowText(r, comma)| && RowText(r, comma)[i] == ']' {
      assert i < |j| && RowText(r, true)[i] == ']';
    }
  }

  lemma AddRow(line: string, text: string, tail: string)
    ensures line + " " + text + tail == line + (" " + text + tail)
  {}

  /** Joining goes on through rows without a closing bracket up to the line that closes the list. */
  lemma {:induction false} RowsAreJoined(line: string, rows: seq<Row>, trailing: bool, close: string, rest: seq<string>)
    requires TrimSpace(close) == "]"
    requires forall i :: 0 <= i < |rows| ==> ProperRow(rows[i]) && Unclosed(rows[i])
    ensures ConfigFile.Joined(line, RowLines(rows, trailing) + ([close] + rest)).0 == line + Tail(rows, trailing)
    ensures ConfigFile.Joined(line, RowLines(rows, trailing) + ([close] + rest)).1 == rest
    decreases rows
  {
    if rows == [] {
      assert RowLines(rows, trailing) + ([close] + rest) == [close] + rest;
      JoinStops(line, close, rest);
    } else {
      var comma, others := |rows| > 1 || trailing, RowLines(rows[1..], trailing) + ([close] + rest);
      RowTrims(rows[0], comma);
      FirstRow(rows, trailing, [close] + rest);
      JoinGoesOn(line, RowLine(rows[0], comma), others);
      RowsAreJoined(line + " " + RowText(rows[0], comma), rows[1..], trailing, close, rest);
      AddRow(line, RowText(rows[0], comma), Tail(rows[1..], trailing));
    }
  }

  lemma FirstRow(rows: seq<Row>, trailing: bool, more: seq<string>)
    requires rows != []
    ensures RowLines(rows, trailing) + more
         == [RowLine(rows[0], |rows| > 1 || trailing)] + (RowLines(rows[1..], trailing) + more)
    ensures (RowLines(rows, trailing) + more)[1..] == RowLines(rows[1..], trailing) + more
  {}

  lemma JoinStops(line: string, close: string, rest: seq<string>)
    requires TrimSpace(close) == "]"
    ensures ConfigFile.Joined(line, [close] + rest).0 == line + " ]" && ConfigFile.Joined(line, [close] + rest).1 == rest
  {
    assert TrimSpace(([close] + rest)[0])[0] == ']' && ([close] + rest)[1..] == rest;
    assert line + " " + "]" == line + " ]";
  }

  lemma JoinGoesOn(line: string, first: string, rest: seq<string>)
    requires !Has(TrimSpace(first), ']')
    ensures ConfigFile.Joined(line, [first] + rest) == ConfigFile.Joined(line + " " + TrimSpace(first), rest)
  {
    assert ([first] + rest)[1..] == rest;
  }

  // ---------- the joined text is the list ----------

  lemma {:induction false} JoinedAppend(a: seq<string>, b: seq<string>)
    requires a != [] && b != []
    ensures C.Joined(a + b) == C.Joined(a) + "," + " " + C.Joined(b)
  {
    var n := |b| - 1;
    assert (a + b)[..|a + b| - 1] == a + b[..n];
    if n == 0 {
      assert a + b[..n] == a;
      assert C.Joined(a) + "," + (" " + C.Quoted(b[0])) == C.Joined(a) + "," + " " + C.Quoted(b[0]);
    } else {
      JoinedAppend(a, b[..n]);
      assert C.Joined(a) + "," + " " + C.Joined(b[..n]) + "," + (" " + C.Quoted(b[n]))
          == C.Joined(a) + "," + " " + (C.Joined(b[..n]) + "," + (" " + C.Quoted(b[n])));
    }
  }

  /** The items of all rows on one line, as `Tail` puts them. */
  function Body(items: seq<string>, trailing: bool): string {
    if items == [] then " " else " " + C.Joined(items) + (if trailing then "," else "") + " "
  }

  lemma {:induction false} FlatIsEmptyIff(rows: seq<Row>)
    requires forall i :: 0 <= i < |rows| ==> ProperRow(rows[i])
    ensures Flat(rows) == [] <==> rows == []
  {}

  lemma LastRowText(j: string, t: string)
    ensures " " + (j + t) + " ]" == " " + j + t + " " + "]"
  {}

  lemma RowTextThenTail(j: string, k: string, t: string)
    ensures " " + (j + ",") + (" " + k + t + " " + "]") == " " + (j + "," + " " + k) + t + " " + "]"
  {}

  lemma {:induction false} TailIsBody(rows: seq<Row>, trailing: bool)
    requires forall i :: 0 <= i < |rows| ==> ProperRow(rows[i])
    ensures Tail(rows, trailing) == Body(Flat(rows), trailing) + "]"
    decreases rows
  {
    if rows == [] {
      assert " " + "]" == " ]";
    } else if |rows| == 1 {
      assert rows[1..] == [] && Flat(rows) == rows[0].items;
      LastRowText(C.Joined(rows[0].items), if trailing then "," else "");
      assert Tail(rows, trailing) == " " + RowText(rows[0], trailing) + " ]";
    } else {
      var a, b := rows[0].items, Flat(rows[1..]);
      TailIsBody(rows[1..], trailing);
      FlatIsEmptyIff(rows[1..]);
      JoinedAppend(a, b);
      RowTextThenTail(C.Joined(a), C.Joined(b), if trailing then "," else "");
    }
  }

  lemma PartHasNoComma(v: string, after: string)
    requires C.IsItem(v) && AllSpace(after)
    ensures var part := " " + C.Quoted(v) + after; forall i :: 0 <= i < |part| ==> part[i] != ','
  {}

  lemma OnePaddedItem(v: string, after: string)
    requires C.IsItem(v) && AllSpace(after)
    ensures C.Items(C.SplitComma(" " + C.Quoted(v) + after)) == [v]
  {
    var part := " " + C.Quoted(v) + after;
    C.PartOfItem(" ", v, after);
    PartHasNoComma(v, after);
    C.SplitKeepsCommaFree(part);
    C.ItemsAppend([], part, v);
    assert [] + [part] == [part];
  }

  lemma LastPaddedItem(s: string, v: string, after: string)
    requires C.IsItem(v) && AllSpace(after)
    ensures C.Items(C.SplitComma(s + "," + (" " + C.Quoted(v) + after))) == C.Items(C.SplitComma(s)) + [v]
  {
    var part := " " + C.Quoted(v) + after;
    C.PartOfItem(" ", v, after);
    PartHasNoComma(v, after);
    C.SplitAtLastComma(s, part);
    C.ItemsAppend(C.SplitComma(s), part, v);
  }

  lemma JoinedEndsWithLast(items: seq<string>, after: string)
    requires |items| >= 2
    ensures " " + C.Joined(items) + after
         == (" " + C.Joined(items[..|items| - 1])) + "," + (" " + C.Quoted(items[|items| - 1]) + after)
  {
    Regroup(" ", C.Joined(items[..|items| - 1]), ",", " " + C.Quoted(items[|items| - 1]), after);
  }

  lemma Regroup(a: string, b: string, c: string, d: string, e: string)
    ensures a + (b + c + d) + e == (a + b) + c + (d + e)
  {}

  lemma OneMoreItem(front: seq<string>, v: string, after: string)
    requires front != [] && C.IsItem(v) && AllSpace(after)
    requires C.Items(C.SplitComma(" " + C.Joined(front))) == front
    ensures C.Items(C.SplitComma(" " + C.Joined(front + [v]) + after)) == front + [v]
  {
    assert (front + [v])[..|front|] == front;
    JoinedEndsWithLast(front + [v], after);
    LastPaddedItem(" " + C.Joined(front), v, after);
  }

  /** Blanks before the first and after the last item make no difference. */
  lemma {:induction false} PaddedItems(items: seq<string>, after: string)
    requires items != [] && (forall i :: 0 <= i < |items| ==> C.IsItem(items[i]))
    requires AllSpace(after)
    ensures C.Items(C.SplitComma(" " + C.Joined(items) + after)) == items
  {
    var front, v := items[..|items| - 1], items[|items| - 1];
    assert items == front + [v];
    if front == [] {
      OnePaddedItem(v, after);
    } else {
      PaddedItems(front, "");
      assert " " + C.Joined(front) + "" == " " + C.Joined(front);
      OneMoreItem(front, v, after);
    }
  }

  lemma BlankPartIsDropped(parts: seq<string>)
    ensures C.Items(parts + [" "]) == C.Items(parts)
  {
    assert (parts + [" "])[..|parts|] == parts;
    assert TrimSpace(" ") == "" by {
      assert TrimLeft("") == "";
    }
    assert C.Unquote("") == "";
  }

  lemma BodyItems(items: seq<string>, trailing: bool)
    requires forall i :: 0 <= i < |items| ==> C.IsItem(items[i])
    ensures C.Items(C.SplitComma(Body(items, trailing))) == items
  {
    if items == [] {
      C.SplitKeepsCommaFree(" ");
      BlankPartIsDropped([]);
      assert [] + [" "] == [" "];
      assert C.Items([]) == [];
    } else if trailing {
      PaddedItems(items, "");
      assert " " + C.Joined(items) + "" == " " + C.Joined(items);
      C.SplitAtLastComma(" " + C.Joined(items), " ");
      BlankPartIsDropped(C.SplitComma(" " + C.Joined(items)));
      assert Body(items, true) == " " + C.Joined(items) + "," + " ";
    } else {
      PaddedItems(items, " ");
      assert Body(items, false) == " " + C.Joined(items) + " ";
    }
  }

  lemma {:induction false} FlatIsItems(rows: seq<Row>)
    requires forall i :: 0 <= i < |rows| ==> ProperRow(rows[i])
    ensures forall i :: 0 <= i < |Flat(rows)| ==> C.IsItem(Flat(rows)[i])
    decreases rows
  {
    if rows != [] { FlatIsItems(rows[1..]); }
  }

  /** The raw text of the setting. */
  function ListText(l: List): string {
    "[" + Tail(l.rows, l.trailing)
  }

  lemma ListTextIsList(l: List)
    requires ProperList(l)
    ensures C.ListOf(ListText(l)) == Flat(l.rows)
  {
    var items := Flat(l.rows);
    var body := Body(items, l.trailing);
    FlatIsItems(l.rows);
    TailIsBody(l.rows, l.trailing);
    assert ListText(l) == "[" + body + "]";
    TrimKeeps(ListText(l));
    C.TrimSetSkips('[', body, ']', '[', ']');
    BodyItems(items, l.trailing);
  }

  lemma ListTextIsClosed(l: List)
    requires ProperList(l)
    ensures C.Closed(ListText(l))
  {
    FlatIsItems(l.rows);
    TailIsBody(l.rows, l.trailing);
    BodyIsClosed(Flat(l.rows), l.trailing);
  }

  lemma BodyIsClosed(items: seq<string>, trailing: bool)
    requires forall i :: 0 <= i < |items| ==> C.IsItem(items[i])
    ensures C.Closed("[" + (Body(items, trailing) + "]"))
  {
    if items == [] {
      C.PlainTextIsClosed("[" + (" " + "]"));
    } else {
      var end := (if trailing then "," else "") + (" " + "]");
      C.JoinedIsClosed(items);
      C.PlainTextIsClosed("[" + " ");
      C.PlainTextIsClosed(end);
      C.ClosedAppend(C.Joined(items), end);
      C.ClosedAppend("[" + " ", C.Joined(items) + end);
      Brackets(C.Joined(items), if trailing then "," else "");
    }
  }

  lemma Brackets(j: string, t: string)
    ensures "[" + (" " + j + t + " " + "]") == ("[" + " ") + (j + (t + (" " + "]")))
  {}

  // ---------- a list reads back ----------

  function Opening(l: List): string {
    l.typed + " = ["
  }

  function Closing(l: List): string {
    l.close.0 + "]" + l.close.1
  }

  lemma OpeningLine(l: List, rest: seq<string>)
    ensures (ListLines(l) + rest)[0] == l.before + l.typed + " = [" + l.after
    ensures (ListLines(l) + rest)[1..] == RowLines(l.rows, l.trailing) + ([Closing(l)] + rest)
  {}

  lemma OpeningGoesOn(l: List)
    requires ProperList(l)
    ensures TrimSpace(l.before + l.typed + " = [" + l.after) == Opening(l)
    ensures !Blank(Opening(l)) && GoesOn(Opening(l)) && TrimSpace(Closing(l)) == "]"
  {
    var o := Opening(l);
    TrimDropsBlanks(l.before, o, l.after);
    assert l.before + l.typed + " = [" + l.after == l.before + o + l.after;
    assert o[|l.typed| + 1] == '=' && o[|l.typed| + 3] == '[';
    TrimDropsBlanks(l.close.0, "]", l.close.1);
  }

  /** The list as if it had been printed on one line. */
  function OnOneLine(l: List): Printed {
    Printed("", l.typed, l.key, ListText(l), "", "")
  }

  lemma OneLineIsPrintable(l: List)
    requires ProperList(l)
    ensures Printable(OnOneLine(l)) && Core(OnOneLine(l)) == Opening(l) + Tail(l.rows, l.trailing)
  {
    ListTextIsClosed(l);
    TailIsBody(l.rows, l.trailing);
    AddTail(l.typed, Tail(l.rows, l.trailing));
  }

  lemma AddTail(k: string, tail: string)
    ensures k + " = " + ("[" + tail) + "" == k + " = [" + tail
  {}

  lemma ListIsRead(section: string, l: List, rest: seq<string>)
    requires ProperList(l) && forall i :: 0 <= i < |l.rows| ==> Unclosed(l.rows[i])
    ensures Parsed(section, ListLines(l) + rest)
         == After([Setting(section, l.key, ListText(l))], Parsed(section, rest))
  {
    var lines := ListLines(l) + rest;
    OpeningGoesOn(l);
    OneLineIsPrintable(l);
    OpeningLine(l, rest);
    RowsAreJoined(Opening(l), l.rows, l.trailing, Closing(l), rest);
    JoinedIsSetting(section, lines, OnOneLine(l), rest);
  }

  /** Lines that are joined to a printed setting are read as that setting. */
  lemma JoinedIsSetting(section: string, lines: seq<string>, p: Printed, rest: seq<string>)
    requires Printable(p) && lines != [] && !Blank(TrimSpace(lines[0]))
    requires Whole(TrimSpace(lines[0]), lines[1..]).0 == Core(p) && Whole(TrimSpace(lines[0]), lines[1..]).1 == rest
    ensures Parsed(section, lines) == After([Setting(section, p.key, p.text)], Parsed(section, rest))
  {
    LineIsSetting(section, p);
    LineTrims(p);
  }

  // ---------- and only if no item closes the bracket ----------

  lemma {:induction false} JoinedExtends(line: string, rest: seq<string>)
    ensures line <= ConfigFile.Joined(line, rest).0
    decreases |rest|
  {
    if rest != [] {
      var longer := line + " " + TrimSpace(rest[0]);
      JoinedExtends(longer, rest[1..]);
      assert line <= longer;
    }
  }

  lemma JoinEnds(line: string, first: string, rest: seq<string>)
    requires Has(TrimSpace(first), ']')
    ensures ConfigFile.Joined(line, [first] + rest).1 == rest
  {
    assert ([first] + rest)[1..] == rest;
  }

  lemma {:induction false} JoinedStopsEarly(line: string, rows: seq<Row>, trailing: bool, more: seq<string>, k: nat)
    returns (j: nat)
    requires (forall i :: 0 <= i < |rows| ==> ProperRow(rows[i])) && k < |rows| && !Unclosed(rows[k])
    ensures 1 <= j <= |rows|
    ensures ConfigFile.Joined(line, RowLines(rows, trailing) + more).1 == RowLines(rows[j..], trailing) + more
    decreases rows
  {
    if Unclosed(rows[0]) {
      var next := line + " " + RowText(rows[0], |rows| > 1 || trailing);
      var i := JoinedStopsEarly(next, rows[1..], trailing, more, k - 1);
      StopsLater(line, rows, trailing, more, i);
      j := i + 1;
    } else {
      StopsAtOnce(line, rows, trailing, more);
      j := 1;
    }
  }

  lemma StopsAtOnce(line: string, rows: seq<Row>, trailing: bool, more: seq<string>)
    requires rows != [] && ProperRow(rows[0]) && !Unclosed(rows[0])
    ensures ConfigFile.Joined(line, RowLines(rows, trailing) + more).1 == RowLines(rows[1..], trailing) + more
  {
    RowTrims(rows[0], |rows| > 1 || trailing);
    FirstRow(rows, trailing, more);
    JoinEnds(line, RowLine(rows[0], |rows| > 1 || trailing), RowLines(rows[1..], trailing) + more);
  }

  lemma StopsLater(line: string, rows: seq<Row>, trailing: bool, more: seq<string>, i: nat)
    requires rows != [] && ProperRow(rows[0]) && Unclosed(rows[0]) && i < |rows|
    requires var next := line + " " + RowText(rows[0], |rows| > 1 || trailing);
             ConfigFile.Joined(next, RowLines(rows[1..], trailing) + more).1 == RowLines(rows[1..][i..], trailing) + more
    ensures ConfigFile.Joined(line, RowLines(rows, trailing) + more).1 == RowLines(rows[i + 1..], trailing) + more
  {
    RowTrims(rows[0], |rows| > 1 || trailing);
    FirstRow(rows, trailing, more);
    JoinGoesOn(line, RowLine(rows[0], |rows| > 1 || trailing), RowLines(rows[1..], trailing) + more);
    assert rows[1..][i..] == rows[i + 1..];
  }

  /** Rows that are read as lines of their own are errors, or settings of their own. */
  lemma {:induction false} LooseRowsCount(section: string, rows: seq<Row>, trailing: bool, close: string,
                                          rest: seq<string>)
    requires TrimSpace(close) == "]" && forall i :: 0 <= i < |rows| ==> ProperRow(rows[i])
    ensures var r := Parsed(section, RowLines(rows, trailing) + ([close] + rest));
            r.Some? ==> Parsed(section, rest).Some? && |r.value| > |Parsed(section, rest).value|
    decreases |rows|
  {
    var lines := RowLines(rows, trailing) + ([close] + rest);
    if rows == [] {
      assert lines == [close] + rest;
      assert Parsed(section, lines).None?;
    } else {
      var text := RowText(rows[0], |rows| > 1 || trailing);
      RowTrims(rows[0], |rows| > 1 || trailing);
      FirstRow(rows, trailing, [close] + rest);
      var j := WhereItStops(text, rows[1..], trailing, close, rest);
      if j <= |rows[1..]| {
        LooseRowsCount(section, rows[1..][j..], trailing, close, rest);
      }
      KeyedLine(section, lines, text);
    }
  }

  /** What follows the whole of a line: some of the rows and the closing line, or what comes after that. */
  lemma WhereItStops(text: string, rows: seq<Row>, trailing: bool, close: string, rest: seq<string>) returns (j: nat)
    requires TrimSpace(close) == "]" && forall i :: 0 <= i < |rows| ==> ProperRow(rows[i])
    ensures var (line, after) := Whole(text, RowLines(rows, trailing) + ([close] + rest));
            text <= line
            && after == if j <= |rows| then RowLines(rows[j..], trailing) + ([close] + rest) else rest
  {
    var more := [close] + rest;
    if !GoesOn(text) {
      j := 0;
      assert rows[0..] == rows;
    } else if k :| 0 <= k < |rows| && !Unclosed(rows[k]) {
      JoinedExtends(text, RowLines(rows, trailing) + more);
      j := JoinedStopsEarly(text, rows, trailing, more, k);
    } else {
      JoinedExtends(text, RowLines(rows, trailing) + more);
      RowsAreJoined(text, rows, trailing, close, rest);
      j := |rows| + 1;
    }
  }

  ghost predicate ListReadsBack(section: string, l: List, rest: seq<string>) {
    exists raw :: C.ListOf(raw) == Flat(l.rows)
      && Parsed(section, ListLines(l) + rest) == After([Setting(section, l.key, raw)], Parsed(section, rest))
  }

  /** A list printed over several lines reads back to its items, under its key, with what follows read on its own, if
      and only if none of its items holds a closing bracket. */
  lemma ListReadsBackIff(section: string, l: List, rest: seq<string>)
    requires ProperList(l) && Parsed(section, rest).Some?
    ensures ListReadsBack(section, l, rest) <==> forall i :: 0 <= i < |l.rows| ==> Unclosed(l.rows[i])
  {
    if forall i :: 0 <= i < |l.rows| ==> Unclosed(l.rows[i]) {
      ListIsRead(section, l, rest);
      ListTextIsList(l);
    } else {
      var k :| 0 <= k < |l.rows| && !Unclosed(l.rows[k]);
      ClosedListCounts(section, l, rest, k);
    }
  }

  lemma ClosedListCounts(section: string, l: List, rest: seq<string>, k: nat)
    requires ProperList(l) && k < |l.rows| && !Unclosed(l.rows[k])
    ensures var r := Parsed(section, ListLines(l) + rest);
            r.Some? ==> Parsed(section, rest).Some? && |r.value| > 1 + |Parsed(section, rest).value|
  {
    var lines, more := ListLines(l) + rest, [Closing(l)] + rest;
    OpeningGoesOn(l);
    OpeningLine(l, rest);
    JoinedExtends(Opening(l), RowLines(l.rows, l.trailing) + more);
    var j := JoinedStopsEarly(Opening(l), l.rows, l.trailing, more, k);
    LooseRowsCount(section, l.rows[j..], l.trailing, Closing(l), rest);
    KeyedLine(section, lines, Opening(l));
  }

  /** A line that starts with neither a bracket nor a hash sign is no header and no comment. */
  lemma KeyedLine(section: string, lines: seq<string>, text: string)
    requires lines != [] && TrimSpace(lines[0]) == text && text != "" && text[0] != '[' && text[0] != '#'
    requires text <= Whole(text, lines[1..]).0
    ensures Parsed(section, lines).Some? ==>
              var rest := Parsed(section, Whole(text, lines[1..]).1);
              rest.Some? && |Parsed(section, lines).value| == 1 + |rest.value|
  {}

  // ---------- whole files ----------

  datatype Item =
    | Single(p: Printed)
    | Several(l: List)
    | Note(before: string, text: string)                               // a blank line, or a comment
    | Head(before: string, typed: string, section: string, after: string) // `[section]`, in whatever case

  predicate IsName(s: string) {
    && s != "" && (forall i :: 0 <= i < |s| ==> !('A' <= s[i] <= 'Z'))
    && s[0] != '[' && s[0] != ']' && s[|s| - 1] != '[' && s[|s| - 1] != ']'
  }

  ghost predicate Proper(x: Item) {
    match x
    case Single(p) => Printable(p)
    case Several(l) => ProperList(l)
    case Note(before, text) => AllSpace(before) && (text == "" || text[0] == '#')
    case Head(before, typed, section, after) =>
      AllSpace(before) && AllSpace(after) && IsName(section) && InSomeCase(typed, section)
  }

  /** It neither swallows what follows nor ends too early. */
  predicate Contained(x: Item) {
    match x
    case Single(p) => !Swallows(p)
    case Several(l) => forall i :: 0 <= i < |l.rows| ==> Unclosed(l.rows[i])
    case _ => true
  }

  function ItemLines(x: Item): seq<string> {
    match x
    case Single(p) => [Line(p)]
    case Several(l) => ListLines(l)
    case Note(before, text) => [before + text]
    case Head(before, typed, _, after) => [before + ("[" + typed + "]") + after]
  }

  function FileLines(xs: seq<Item>): seq<string> {
    if xs == [] then [] else ItemLines(xs[0]) + FileLines(xs[1..])
  }

  function ItemSettings(section: string, x: Item): seq<Setting> {
    match x
    case Single(p) => [Setting(section, p.key, p.text)]
    case Several(l) => [Setting(section, l.key, ListText(l))]
    case _ => []
  }

  function SectionAfter(section: string, x: Item): string {
    if x.Head? then x.section else section
  }

  /** The settings of the file, each in the section of the header before it. */
  function FileSettings(section: string, xs: seq<Item>): seq<Setting>
    decreases xs
  {
    if xs == [] then []
    else ItemSettings(section, xs[0]) + FileSettings(SectionAfter(section, xs[0]), xs[1..])
  }

  lemma NoteIsSkipped(section: string, before: string, text: string, rest: seq<string>)
    requires AllSpace(before) && (text == "" || text[0] == '#')
    ensures Parsed(section, [before + text] + rest) == Parsed(section, rest)
  {
    TrimLeftDropsBlanks(before, text);
    if text == "" {
      assert TrimSpace(before + text) == "";
    } else {
      TrimRightKeepsFirst(text);
      assert TrimSpace(before + text)[0] == '#';
    }
    assert ([before + text] + rest)[1..] == rest;
    AfterNothing(Parsed(section, rest));
  }

  lemma HeadIsRead(section: string, before: string, typed: string, name: string, after: string, rest: seq<string>)
    requires AllSpace(before) && AllSpace(after) && IsName(name) && InSomeCase(typed, name)
    ensures Parsed(section, [before + ("[" + typed + "]") + after] + rest) == Parsed(name, rest)
  {
    var head := "[" + typed + "]";
    TrimDropsBlanks(before, head, after);
    assert head[|head| - 1] == ']' && !GoesOn(head);
    C.TrimSetSkips('[', typed, ']', '[', ']');
    assert ['['] + typed + [']'] == head;
    LowerReadsBack(typed, name);
    assert ([before + head + after] + rest)[1..] == rest;
    AfterNothing(Parsed(name, rest));
  }

  /** Any other line without an equals sign is an error, a header that is not closed included. */
  lemma OtherLineIsAnError(section: string, line: string, rest: seq<string>)
    requires !Has(TrimSpace(line), '=') && TrimSpace(line) != "" && TrimSpace(line)[0] != '#'
    requires var t := TrimSpace(line); !(t[0] == '[' && t[|t| - 1] == ']')
    ensures Parsed(section, [line] + rest) == None
  {}

  lemma ItemIsRead(section: string, x: Item, rest: seq<string>)
    requires Proper(x) && Contained(x)
    ensures Parsed(section, ItemLines(x) + rest)
         == After(ItemSettings(section, x), Parsed(SectionAfter(section, x), rest))
  {
    AfterNothing(Parsed(SectionAfter(section, x), rest));
    match x
    case Single(p) => ReadAlone(section, p, rest);
    case Several(l) => ListIsRead(section, l, rest);
    case Note(before, text) => NoteIsSkipped(section, before, text, rest);
    case Head(before, typed, name, after) => HeadIsRead(section, before, typed, name, after, rest);
  }

  /** A printed file reads back to its settings, in order and each in its section; blank lines and comments between
      them make no difference, nor does the case of keys and section names. */
  lemma {:induction false} FileReadsBack(section: string, xs: seq<Item>)
    requires forall i :: 0 <= i < |xs| ==> Proper(xs[i]) && Contained(xs[i])
    ensures Parsed(section, FileLines(xs)) == Some(FileSettings(section, xs))
    decreases xs
  {
    if xs != [] {
      ItemIsRead(section, xs[0], FileLines(xs[1..]));
      FileReadsBack(SectionAfter(section, xs[0]), xs[1..]);
    }
  }
}
