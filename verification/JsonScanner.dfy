/** streamJSONObjects of agent/internal/collect/gpu.go: cuts complete objects out of an endless array. */
module JsonScanner {

  newtype byte = b: int | 0 <= b < 256

  const QUOTE: byte := 34
  const COMMA: byte := 44
  const COLON: byte := 58
  const LBRACKET: byte := 91
  const BACKSLASH: byte := 92
  const RBRACKET: byte := 93
  const LBRACE: byte := 123
  const RBRACE: byte := 125

  type Bytes = seq<byte>

  datatype State = State(buf: Bytes, depth: nat, inString: bool, escaped: bool)
  const START := State([], 0, false, false)

  // ---------- the automaton ----------

  /** One byte: the next state, and the block completed by it if there is one. */
  function Step(s: State, c: byte): (State, seq<Bytes>) {
    var buf := if s.depth > 0 then s.buf + [c] else s.buf;
    if s.inString then
      if s.escaped then (s.(buf := buf, escaped := false), [])
      else if c == BACKSLASH then (s.(buf := buf, escaped := true), [])
      else (s.(buf := buf, inString := c != QUOTE), [])
    else if c == QUOTE then (s.(buf := buf, inString := true), [])
    else if c == LBRACE then (s.(buf := if s.depth == 0 then [c] else buf, depth := s.depth + 1), [])
    else if c == RBRACE && s.depth == 1 then (s.(buf := [], depth := 0), [buf])
    else if c == RBRACE then (s.(buf := buf, depth := if s.depth == 0 then 0 else s.depth - 1), [])
    else (s.(buf := buf), [])
  }

  function Run(s: State, input: Bytes): (State, seq<Bytes>) {
    if input == [] then (s, [])
    else
      var (t, out) := Run(s, input[..|input| - 1]);
      var (u, block) := Step(t, input[|input| - 1]);
      (u, out + block)
  }

  /** Feeding `input` leads from `s` to `t` and emits `out`. */
  ghost predicate Gives(s: State, input: Bytes, t: State, out: seq<Bytes>) {
    Run(s, input).0 == t && Run(s, input).1 == out
  }

  lemma StepGives(s: State, c: byte)
    ensures Gives(s, [c], Step(s, c).0, Step(s, c).1)
  {
    assert [c][..0] == [];
  }

  /** The read loop; what it passes to its callback, in order. */
  method StreamJSONObjects(input: Bytes) returns (emitted: seq<Bytes>)
    ensures emitted == Run(START, input).1
  {
    emitted := [];
    var buf: Bytes, depth: int, inString, escaped := [], 0, false, false;
    for i := 0 to |input|
      invariant depth >= 0
      invariant Gives(START, input[..i], State(buf, depth, inString, escaped), emitted)
    {
      var c := input[i];
      assert input[..i + 1][..i] == input[..i];
      if depth > 0 {
        buf := buf + [c];
      }
      if inString {
        if escaped {
          escaped := false;
        } else if c == BACKSLASH {
          escaped := true;
        } else if c == QUOTE {
          inString := false;
        }
        continue;
      }
      if c == QUOTE {
        inString := true;
      } else if c == LBRACE {
        if depth == 0 {
          buf := [c];
        }
        depth := depth + 1;
      } else if c == RBRACE {
        depth := depth - 1;
        if depth == 0 {
          emitted := emitted + [buf];
          buf := [];
        }
        if depth < 0 {
          depth := 0;
        }
      }
    }
    assert input[..|input|] == input;
  }

  lemma {:induction false} RunAppend(s: State, a: Bytes, b: Bytes)
    ensures Gives(s, a + b, Run(Run(s, a).0, b).0, Run(s, a).1 + Run(Run(s, a).0, b).1)
  {
    if b == [] {
      assert a + b == a;
    } else {
      RunAppend(s, a, b[..|b| - 1]);
      assert (a + b)[..|a + b| - 1] == a + b[..|b| - 1];
    }
  }

  /** Feeding two inputs in turn feeds their concatenation. */
  lemma Chain(s: State, a: Bytes, t: State, x: seq<Bytes>, b: Bytes, u: State, y: seq<Bytes>)
    requires Gives(s, a, t, x) && Gives(t, b, u, y)
    ensures Gives(s, a + b, u, x + y)
  {
    RunAppend(s, a, b);
  }

  // ---------- JSON text (RFC 8259, sections 4, 5 and 7), whitespace included ----------

  /** A string character: any byte but a quote or backslash, or a backslash followed by any byte. */
  datatype StrChar = Plain(b: byte) | Escape(b: byte)

  datatype Value =
    | Literal(text: Bytes)            // a number, true, false or null
    | Text(chars: seq<StrChar>)
    | Array(ws: Bytes, items: Items)
    | Object(ws: Bytes, members: Members)
  datatype Items = NoItems | Item(v: Value, comma: Sign, more: Items)
  datatype Members = NoMembers | Member(key: seq<StrChar>, colon: Sign, v: Value, comma: Sign, more: Members)

  /** The blanks before and after a colon or comma. */
  datatype Sign = Sign(before: Bytes, after: Bytes)

  /** No byte the scanner looks at outside strings; every blank, number and keyword is of this kind. */
  predicate Neutral(t: Bytes) {
    forall i :: 0 <= i < |t| ==> t[i] != QUOTE && t[i] != LBRACE && t[i] != RBRACE
  }

  predicate ProperString(cs: seq<StrChar>) {
    forall i :: 0 <= i < |cs| && cs[i].Plain? ==> cs[i].b != QUOTE && cs[i].b != BACKSLASH
  }

  predicate Proper(v: Value) {
    match v
    case Literal(t) => Neutral(t)
    case Text(cs) => ProperString(cs)
    case Array(ws, xs) => Neutral(ws) && ProperItems(xs)
    case Object(ws, ms) => Neutral(ws) && ProperMembers(ms)
  }

  predicate ProperSign(g: Sign) {
    Neutral(g.before) && Neutral(g.after)
  }

  predicate ProperItems(xs: Items) {
    xs.Item? ==> Proper(xs.v) && ProperSign(xs.comma) && ProperItems(xs.more)
  }

  predicate ProperMembers(ms: Members) {
    ms.Member? ==>
      ProperString(ms.key) && ProperSign(ms.colon) && Proper(ms.v) && ProperSign(ms.comma) && ProperMembers(ms.more)
  }

  function PrintChars(cs: seq<StrChar>): Bytes {
    if cs == [] then []
    else
      var c := cs[|cs| - 1];
      PrintChars(cs[..|cs| - 1]) + if c.Plain? then [c.b] else [BACKSLASH, c.b]
  }

  function PrintString(cs: seq<StrChar>): Bytes {
    [QUOTE] + PrintChars(cs) + [QUOTE]
  }

  function Print(v: Value): Bytes {
    match v
    case Literal(t) => t
    case Text(cs) => PrintString(cs)
    case Array(ws, xs) => [LBRACKET] + ws + PrintItems(xs) + [RBRACKET]
    case Object(ws, ms) => [LBRACE] + (ws + PrintMembers(ms)) + [RBRACE]
  }

  function PrintSign(g: Sign, mark: Bytes): Bytes {
    g.before + mark + g.after
  }

  /** After the last item, or member, there is no comma. */
  function PrintItems(xs: Items): Bytes {
    match xs
    case NoItems => []
    case Item(v, comma, more) => Print(v) + PrintSign(comma, if more.Item? then [COMMA] else []) + PrintItems(more)
  }

  function PrintMembers(ms: Members): Bytes {
    match ms
    case NoMembers => []
    case Member(key, colon, v, comma, more) =>
      PrintString(key) + PrintSign(colon, [COLON]) + Print(v)
      + PrintSign(comma, if more.Member? then [COMMA] else []) + PrintMembers(more)
  }

  // ---------- the scanner inverts the printer ----------

  /** Inside an object and outside its strings. */
  ghost predicate Idle(s: State) {
    s.depth > 0 && !s.inString && !s.escaped
  }

  ghost predicate Copies(s: State, t: Bytes) {
    Gives(s, t, s.(buf := s.buf + t), [])
  }

  /** Inside an object, `t` is copied to the buffer and changes nothing else. */
  ghost predicate Inert(t: Bytes) {
    forall s: State :: Idle(s) ==> Copies(s, t)
  }

  lemma CopiesAppend(s: State, a: Bytes, b: Bytes)
    requires Copies(s, a) && Copies(s.(buf := s.buf + a), b)
    ensures Copies(s, a + b)
  {
    var t := s.(buf := s.buf + a);
    Chain(s, a, t, [], b, t.(buf := t.buf + b), []);
    assert s.buf + (a + b) == s.buf + a + b;
  }

  lemma InertAppend(a: Bytes, b: Bytes)
    requires Inert(a) && Inert(b)
    ensures Inert(a + b)
  {
    forall s: State | Idle(s)
      ensures Copies(s, a + b)
    {
      assert Idle(s.(buf := s.buf + a));
      CopiesAppend(s, a, b);
    }
  }

  lemma {:induction false} NeutralIsInert(t: Bytes)
    requires Neutral(t)
    ensures Inert(t)
  {
    if t == [] {
      assert forall s: State :: s.buf + t == s.buf;
    } else {
      var c := t[|t| - 1];
      NeutralIsInert(t[..|t| - 1]);
      assert forall s: State :: s.buf + t == s.buf + t[..|t| - 1] + [c];
    }
  }

  lemma {:induction false} CharsStayInString(s: State, cs: seq<StrChar>)
    requires ProperString(cs) && s.depth > 0 && s.inString && !s.escaped
    ensures Copies(s, PrintChars(cs))
  {
    if cs == [] {
      assert s.buf + PrintChars(cs) == s.buf;
    } else {
      var c, front := cs[|cs| - 1], PrintChars(cs[..|cs| - 1]);
      CharsStayInString(s, cs[..|cs| - 1]);
      RunAppend(s, front, if c.Plain? then [c.b] else [BACKSLASH, c.b]);
      var t := s.(buf := s.buf + front);
      if c.Escape? {
        assert [BACKSLASH, c.b][..1] == [BACKSLASH];
        assert Run(t, [BACKSLASH]).0 == t.(buf := t.buf + [BACKSLASH], escaped := true);
        assert t.buf + [BACKSLASH] + [c.b] == s.buf + PrintChars(cs);
      } else {
        assert t.buf + [c.b] == s.buf + PrintChars(cs);
      }
    }
  }

  lemma StringIsInert(cs: seq<StrChar>)
    requires ProperString(cs)
    ensures Inert(PrintString(cs))
  {
    forall s: State | Idle(s)
      ensures Copies(s, PrintString(cs))
    {
      var t := s.(buf := s.buf + [QUOTE], inString := true);
      var u := t.(buf := t.buf + PrintChars(cs));
      StepGives(s, QUOTE);
      CharsStayInString(t, cs);
      Chain(s, [QUOTE], t, [], PrintChars(cs), u, []);
      StepGives(u, QUOTE);
      Chain(s, [QUOTE] + PrintChars(cs), u, [], [QUOTE], Step(u, QUOTE).0, []);
      assert u.buf + [QUOTE] == s.buf + PrintString(cs);
    }
  }

  lemma BracedIsInert(t: Bytes)
    requires Inert(t)
    ensures Inert([LBRACE] + t + [RBRACE])
  {
    forall s: State | Idle(s)
      ensures Copies(s, [LBRACE] + t + [RBRACE])
    {
      var d := s.(buf := s.buf + [LBRACE], depth := s.depth + 1);
      var e := d.(buf := d.buf + t);
      assert Idle(d);
      StepGives(s, LBRACE);
      Chain(s, [LBRACE], d, [], t, e, []);
      StepGives(e, RBRACE);
      Chain(s, [LBRACE] + t, e, [], [RBRACE], Step(e, RBRACE).0, []);
      assert e.buf + [RBRACE] == s.buf + ([LBRACE] + t + [RBRACE]);
    }
  }

  lemma {:induction false} ValueIsInert(v: Value)
    requires Proper(v)
    ensures Inert(Print(v))
  {
    match v
    case Literal(t) => NeutralIsInert(t);
    case Text(cs) => StringIsInert(cs);
    case Array(ws, xs) =>
      NeutralIsInert([LBRACKET] + ws);
      ItemsAreInert(xs);
      NeutralIsInert([RBRACKET]);
      InertAppend([LBRACKET] + ws, PrintItems(xs));
      InertAppend([LBRACKET] + ws + PrintItems(xs), [RBRACKET]);
    case Object(ws, ms) =>
      BodyIsInert(ws, ms);
      BracedIsInert(ws + PrintMembers(ms));
  }

  lemma {:induction false} BodyIsInert(ws: Bytes, ms: Members)
    requires Neutral(ws) && ProperMembers(ms)
    ensures Inert(ws + PrintMembers(ms))
    decreases ms, 1
  {
    NeutralIsInert(ws);
    MembersAreInert(ms);
    InertAppend(ws, PrintMembers(ms));
  }

  lemma {:induction false} ItemsAreInert(xs: Items)
    requires ProperItems(xs)
    ensures Inert(PrintItems(xs))
  {
    match xs
    case NoItems => NeutralIsInert([]);
    case Item(v, comma, more) =>
      var gap := PrintSign(comma, if more.Item? then [COMMA] else []);
      ValueIsInert(v);
      NeutralIsInert(gap);
      ItemsAreInert(more);
      InertAppend(Print(v), gap);
      InertAppend(Print(v) + gap, PrintItems(more));
  }

  lemma {:induction false} MembersAreInert(ms: Members)
    requires ProperMembers(ms)
    ensures Inert(PrintMembers(ms))
    decreases ms, 0
  {
    match ms
    case NoMembers => NeutralIsInert([]);
    case Member(key, colon, v, comma, more) =>
      var sign, gap := PrintSign(colon, [COLON]), PrintSign(comma, if more.Member? then [COMMA] else []);
      StringIsInert(key);
      NeutralIsInert(sign);
      ValueIsInert(v);
      NeutralIsInert(gap);
      MembersAreInert(more);
      InertAppend(PrintString(key), sign);
      InertAppend(PrintString(key) + sign, Print(v));
      InertAppend(PrintString(key) + sign + Print(v), gap);
      InertAppend(PrintString(key) + sign + Print(v) + gap, PrintMembers(more));
  }

  /** From between two blocks, an object's text is emitted whole at its last byte. */
  lemma ObjectIsEmitted(v: Value)
    requires Proper(v) && v.Object?
    ensures Gives(START, Print(v), START, [Print(v)])
  {
    var body := v.ws + PrintMembers(v.members);
    BodyIsInert(v.ws, v.members);
    var d := State([LBRACE], 1, false, false);
    var e := d.(buf := d.buf + body);
    assert Idle(d);
    StepGives(START, LBRACE);
    Chain(START, [LBRACE], d, [], body, e, []);
    StepGives(e, RBRACE);
    Chain(START, [LBRACE] + body, e, [], [RBRACE], START, [e.buf + [RBRACE]]);
  }

  /** What may stand between two objects: anything that opens neither an object nor a string. */
  predicate Separator(t: Bytes) {
    forall i :: 0 <= i < |t| ==> t[i] != QUOTE && t[i] != LBRACE
  }

  lemma {:induction false} SeparatorIsSkipped(t: Bytes)
    requires Separator(t)
    ensures Gives(START, t, START, [])
  {
    if t != [] { SeparatorIsSkipped(t[..|t| - 1]); }
  }

  /** Outside an object, `t` may come while a string is open. */
  ghost predicate Passes(s: State, t: Bytes) {
    Gives(s, t, s, [])
  }

  lemma {:induction false} CharsPass(cs: seq<StrChar>)
    requires ProperString(cs)
    ensures Passes(State([], 0, true, false), PrintChars(cs))
  {
    if cs != [] {
      var c, front, s := cs[|cs| - 1], PrintChars(cs[..|cs| - 1]), State([], 0, true, false);
      CharsPass(cs[..|cs| - 1]);
      if c.Plain? {
        StepGives(s, c.b);
        Chain(s, front, s, [], [c.b], s, []);
      } else {
        var t := s.(escaped := true);
        StepGives(s, BACKSLASH);
        StepGives(t, c.b);
        Chain(s, [BACKSLASH], t, [], [c.b], s, []);
        Chain(s, front, s, [], [BACKSLASH] + [c.b], s, []);
        assert [BACKSLASH, c.b] == [BACKSLASH] + [c.b];
      }
    }
  }

  /** A string between two objects is skipped, whatever braces and escaped quotes it holds. */
  lemma StringIsSkipped(cs: seq<StrChar>)
    requires ProperString(cs)
    ensures Gives(START, PrintString(cs), START, [])
  {
    var open := State([], 0, true, false);
    StepGives(START, QUOTE);
    CharsPass(cs);
    Chain(START, [QUOTE], open, [], PrintChars(cs), open, []);
    StepGives(open, QUOTE);
    Chain(START, [QUOTE] + PrintChars(cs), open, [], [QUOTE], START, []);
  }

  /** `seps[0]`, `objs[0]`, `seps[1]`, `objs[1]`, … */
  function Stream(seps: seq<Bytes>, objs: seq<Value>): Bytes
    requires |seps| == |objs|
  {
    if objs == [] then []
    else
      var n := |objs| - 1;
      Stream(seps[..n], objs[..n]) + seps[n] + Print(objs[n])
  }

  lemma {:induction false} ScannerInvertsPrinter(seps: seq<Bytes>, objs: seq<Value>)
    requires |seps| == |objs|
    requires forall i :: 0 <= i < |seps| ==> Separator(seps[i]) && objs[i].Object? && Proper(objs[i])
    ensures Gives(START, Stream(seps, objs), START, seq(|objs|, i requires 0 <= i < |objs| => Print(objs[i])))
  {
    if objs != [] {
      var n := |objs| - 1;
      ScannerInvertsPrinter(seps[..n], objs[..n]);
      NextObjectIsEmitted(Stream(seps[..n], objs[..n]), seq(n, i requires 0 <= i < n => Print(objs[i])), seps[n], objs[n]);
    }
  }

  lemma NextObjectIsEmitted(front: Bytes, texts: seq<Bytes>, sep: Bytes, v: Value)
    requires Gives(START, front, START, texts)
    requires Separator(sep) && Proper(v) && v.Object?
    ensures Gives(START, front + sep + Print(v), START, texts + [Print(v)])
  {
    SeparatorIsSkipped(sep);
    ObjectIsEmitted(v);
    Chain(START, front, START, texts, sep, START, []);
    Chain(START, front + sep, START, texts + [], Print(v), START, [Print(v)]);
    assert texts + [] == texts;
  }

  // ---------- on arbitrary input ----------

  /** `gaps[0]`, `blocks[0]`, `gaps[1]`, …, `blocks[n-1]`, `gaps[n]`. */
  ghost function Weave(gaps: seq<Bytes>, blocks: seq<Bytes>): Bytes
    requires |gaps| == |blocks| + 1
  {
    var n := |blocks|;
    if n == 0 then gaps[0] else Weave(gaps[..n], blocks[..n - 1]) + blocks[n - 1] + gaps[n]
  }

  /** A block: braces at both ends, and the scanner fed with it alone emits it and nothing else. */
  ghost predicate Whole(block: Bytes) {
    && |block| >= 2 && block[0] == LBRACE && block[|block| - 1] == RBRACE
    && Gives(START, block, START, [block])
  }

  ghost predicate Cut(input: Bytes, gaps: seq<Bytes>, blocks: seq<Bytes>) {
    && |gaps| == |blocks| + 1
    && input == Weave(gaps, blocks)
    && forall i :: 0 <= i < |blocks| ==> Whole(blocks[i])
  }

  /** The buffer is a tail of the input that alone brings the scanner to where it is. */
  ghost predicate Pending(gap: Bytes, s: State) {
    && (!s.inString ==> !s.escaped)
    && (s.depth == 0 ==> s.buf == [])
    && (s.depth > 0 ==>
          && |s.buf| > 0 && s.buf[0] == LBRACE
          && |s.buf| <= |gap| && gap[|gap| - |s.buf|..] == s.buf
          && Gives(START, s.buf, s, []))
  }

  lemma LastGapGrows(input: Bytes, gaps: seq<Bytes>, blocks: seq<Bytes>, more: Bytes)
    requires Cut(input, gaps, blocks)
    ensures Cut(input + more, gaps[..|blocks|] + [gaps[|blocks|] + more], blocks)
  {
    var n := |blocks|;
    var gaps' := gaps[..n] + [gaps[n] + more];
    assert gaps'[..n] == gaps[..n];
    if n > 0 {
      assert Weave(gaps', blocks) == Weave(gaps[..n], blocks[..n - 1]) + blocks[n - 1] + (gaps[n] + more);
    }
  }

  lemma LastGapShrinks(input: Bytes, gaps: seq<Bytes>, blocks: seq<Bytes>, gap: Bytes, tail: Bytes)
    requires Cut(input, gaps, blocks) && gaps[|blocks|] == gap + tail
    ensures |tail| <= |input|
    ensures Cut(input[..|input| - |tail|], gaps[..|blocks|] + [gap], blocks)
  {
    var n := |blocks|;
    var gaps' := gaps[..n] + [gap];
    assert gaps'[..n] == gaps[..n];
    if n > 0 {
      assert input == (Weave(gaps[..n], blocks[..n - 1]) + blocks[n - 1] + gap) + tail;
      assert input[..|input| - |tail|] == Weave(gaps[..n], blocks[..n - 1]) + blocks[n - 1] + gap;
    }
  }

  lemma BlockAppended(input: Bytes, gaps: seq<Bytes>, blocks: seq<Bytes>, block: Bytes)
    requires Cut(input, gaps, blocks) && Whole(block)
    ensures Cut(input + block, gaps + [[]], blocks + [block])
  {
    var n := |blocks|;
    assert (gaps + [[]])[..n + 1] == gaps && (blocks + [block])[..n] == blocks;
    assert Weave(gaps + [[]], blocks + [block]) == Weave(gaps, blocks) + block + [];
  }

  lemma PendingStep(gap: Bytes, s: State, c: byte)
    requires Pending(gap, s)
    ensures Step(s, c).1 == [] ==> Pending(gap + [c], Step(s, c).0)
    ensures Step(s, c).1 != [] ==> Step(s, c) == (START, [s.buf + [c]]) && Whole(s.buf + [c])
  {
    if s.depth > 0 {
      PendingInside(gap, s, c);
    } else if Step(s, c).0.depth > 0 {
      StepGives(START, c);
      assert (gap + [c])[|gap|..] == [c];
    }
  }

  lemma PendingInside(gap: Bytes, s: State, c: byte)
    requires Pending(gap, s) && s.depth > 0
    ensures Step(s, c).1 == [] ==> Pending(gap + [c], Step(s, c).0)
    ensures Step(s, c).1 != [] ==> Step(s, c) == (START, [s.buf + [c]]) && Whole(s.buf + [c])
  {
    var (s', out) := Step(s, c);
    StepGives(s, c);
    Chain(START, s.buf, s, [], [c], s', out);
    var k := |gap| - |s.buf|;
    assert (gap + [c])[k..] == gap[k..] + [c];
    assert [] + out == out;
  }

  lemma EndsWithLastGap(input: Bytes, gaps: seq<Bytes>, blocks: seq<Bytes>)
    requires Cut(input, gaps, blocks)
    ensures var gap := gaps[|blocks|]; |gap| <= |input| && input[|input| - |gap|..] == gap
  {}

  lemma CutStep(front: Bytes, gaps: seq<Bytes>, out: seq<Bytes>, s: State, c: byte) returns (gaps': seq<Bytes>)
    requires Cut(front, gaps, out) && Pending(gaps[|out|], s)
    ensures Cut(front + [c], gaps', out + Step(s, c).1)
    ensures Pending(gaps'[|gaps'| - 1], Step(s, c).0)
  {
    var last := gaps[|out|];
    PendingStep(last, s, c);
    if Step(s, c).1 == [] {
      LastGapGrows(front, gaps, out, [c]);
      gaps' := gaps[..|out|] + [last + [c]];
      assert out + [] == out;
    } else {
      var gap := last[..|last| - |s.buf|];
      assert last == gap + s.buf;
      EndsWithLastGap(front, gaps, out);
      LastGapShrinks(front, gaps, out, gap, s.buf);
      var rest := front[..|front| - |s.buf|];
      assert front + [c] == rest + (s.buf + [c]);
      BlockAppended(rest, gaps[..|out|] + [gap], out, s.buf + [c]);
      gaps' := gaps[..|out|] + [gap] + [[]];
    }
  }

  /** Whatever is fed, the blocks are disjoint substrings of it, in order, and each is a block by itself. */
  lemma {:induction false} CutsAnyInput(input: Bytes) returns (gaps: seq<Bytes>)
    ensures Cut(input, gaps, Run(START, input).1)
    ensures Pending(gaps[|gaps| - 1], Run(START, input).0)
  {
    if input == [] {
      gaps := [[]];
    } else {
      var front, c := input[..|input| - 1], input[|input| - 1];
      gaps := CutsAnyInput(front);
      gaps := CutStep(front, gaps, Run(START, front).1, Run(START, front).0, c);
      assert input == front + [c];
    }
  }

  lemma WeaveIsLong(gaps: seq<Bytes>, blocks: seq<Bytes>)
    requires |gaps| == |blocks| + 1 && blocks != []
    ensures |Weave(gaps, blocks)| >= |blocks[|blocks| - 1]|
  {}

  lemma OutputFitsInput(input: Bytes)
    ensures var out := Run(START, input).1; out != [] ==> |out[|out| - 1]| <= |input|
  {
    var gaps := CutsAnyInput(input);
    if Run(START, input).1 != [] {
      WeaveIsLong(gaps, Run(START, input).1);
    }
  }

  lemma OutputOnlyGrows(a: Bytes, b: Bytes)
    ensures Run(START, a).1 <= Run(START, a + b).1
  {
    RunAppend(START, a, b);
  }

  lemma ProperPrefixEmitsNothing(v: Value, cut: nat)
    requires v.Object? && Proper(v) && cut < |Print(v)|
    ensures Run(START, Print(v)[..cut]).1 == []
  {
    var text, p := Print(v), Print(v)[..cut];
    ObjectIsEmitted(v);
    OutputOnlyGrows(p, text[cut..]);
    assert p + text[cut..] == text;
    OutputFitsInput(p);
  }

  /** An object cut off anywhere before its last byte is withheld, and what came before it stands. */
  lemma TruncatedObjectIsWithheld(seps: seq<Bytes>, objs: seq<Value>, sep: Bytes, v: Value, cut: nat)
    requires |seps| == |objs|
    requires forall i :: 0 <= i < |seps| ==> Separator(seps[i]) && objs[i].Object? && Proper(objs[i])
    requires Separator(sep) && v.Object? && Proper(v) && cut < |Print(v)|
    ensures Run(START, Stream(seps, objs) + sep + Print(v)[..cut]).1 == Run(START, Stream(seps, objs)).1
  {
    var shown, p := Stream(seps, objs), Print(v)[..cut];
    ScannerInvertsPrinter(seps, objs);
    SeparatorIsSkipped(sep);
    RunAppend(START, shown, sep);
    RunAppend(START, shown + sep, p);
    ProperPrefixEmitsNothing(v, cut);
    assert Run(START, shown).1 + [] + [] == Run(START, shown).1;
  }
}
