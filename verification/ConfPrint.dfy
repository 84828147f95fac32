/** Writing a forest of lists, symbols and strings as configuration text, and reading it back.

  The lexer run on the printed text gives exactly the tokens of the forest, or an error when lists
  are nested deeper than its limit; a text that begins like a script is the one exception.
 */
module ConfPrint {
  import opened Vstr
  import opened ConfLexer
  import opened ConfQuote

  /** What a configuration says, with the whitespace after each node, its gap, and before the first node of a
    list, its lead. A note is a comment line, which the lexer drops. */
  datatype Node =
    | Sym(text: string, gap: string)
    | Str(single: bool, three: bool, lines: nat, body: seq<Chunk>, gap: string)
    | RawStr(at: bool, single: bool, three: bool, line: bool, bytes: string, gap: string)
    | List(square: bool, lead: string, kids: seq<Node>, gap: string)
    | Note(hash: bool, marks: nat, words: string, gap: string)

  predicate IsGap(s: string) {
    Span(s, " \t\U{0b}\r\n") == |s|
  }

  /** Nothing has to stand between a node and the rest of its forest. */
  predicate MayTouch(n: Node, rest: seq<Node>) {
    n.List? || n.Note? || rest == [] || (n.Sym? && rest[0].List?)
  }

  /** A byte that ends a symbol and nothing else. */
  predicate EndsSymbol(c: char) {
    c in " \t\U{0b}\r\n()[]"
  }

  predicate ValidNode(n: Node)
    decreases n, 1
  {
    match n
    case Sym(text, _) =>
      && text != [] && CSpan(text, " \t\U{0b}\r\n\"'()[]") == |text|
      && text != Marks(true, |text|) && text != Marks(false, |text|)
    case Str(single, three, _, body, _) => ValidBody(body, single, three) && !BeginsLine(body)
    case RawStr(_, single, three, line, bytes, _) => ValidRaw(single, three, line, bytes)
    case List(_, lead, kids, _) => IsGap(lead) && ValidForest(kids)
    case Note(_, marks, words, _) => marks > 0 && '\n' !in words && (words != [] ==> EndsSymbol(words[0]))
  }

  predicate ValidForest(f: seq<Node>)
    decreases f, 0
  {
    f == [] || (
      && ValidNode(f[0]) && IsGap(f[0].gap)
      && (f[0].gap == [] ==> MayTouch(f[0], f[1..]))
      && ValidForest(f[1..]))
  }

  function Max(a: nat, b: nat): nat { if a > b then a else b }

  function NodeDepth(n: Node): nat
    decreases n, 1
  {
    if n.List? then 1 + Depth(n.kids) else 0
  }

  /** How deep the lists of a forest are nested. */
  function Depth(f: seq<Node>): nat
    decreases f, 0
  {
    if f == [] then 0 else Max(NodeDepth(f[0]), Depth(f[1..]))
  }

  function Marks(hash: bool, n: nat): string {
    seq(n, _ => if hash then '#' else ';')
  }

  function NodeBody(n: Node): string
    decreases n, 1
  {
    match n
    case Sym(text, _) => text
    case Str(single, three, lines, body, _) => QuotedText(single, three, lines, body)
    case RawStr(at, single, three, line, bytes, _) => RawText(at, single, three, line, bytes)
    case List(square, lead, kids, _) =>
      [if square then '[' else '('] + lead + Print(kids) + [if square then ']' else ')']
    case Note(hash, marks, words, _) => Marks(hash, marks) + words + "\n"
  }

  /** The text of a forest, each node followed by its gap. */
  function Print(f: seq<Node>): string
    decreases f, 0
  {
    if f == [] then [] else NodeBody(f[0]) + f[0].gap + Print(f[1..])
  }

  /** A node with its gap. */
  function NodeText(n: Node): string {
    NodeBody(n) + n.gap
  }

  function NodeTypes(n: Node): seq<nat>
    decreases n, 1
  {
    match n
    case Sym(_, _) => [TYPE_SYMBOL]
    case Str(single, three, _, body, _) => [EscType(single, three, HasBack(body))]
    case RawStr(_, single, three, _, _, _) => [StrType(single, three)]
    case List(square, _, kids, _) => [if square then TYPE_SLIST else TYPE_CLIST] + Types(kids)
    case Note(_, _, _, _) => []
  }

  /** The types of the tokens of a forest, lists before what is in them. */
  function Types(f: seq<Node>): seq<nat>
    decreases f, 0
  {
    if f == [] then [] else NodeTypes(f[0]) + Types(f[1..])
  }

  function NodeSects(n: Node, pos: nat): (r: seq<Sect>)
    ensures |r| == |NodeTypes(n)|
    decreases n, 1
  {
    match n
    case Sym(text, _) => [Sect(pos, |text|)]
    case Str(single, three, lines, body, _) => [Sect(pos + |Quotes(single, three)| + 2 * lines, |BodyText(body)|)]
    case RawStr(_, single, three, line, bytes, _) =>
      [Sect(pos + 1 + |Quotes(single, three)| + if line then 2 else 0, |bytes|)]
    case List(_, lead, kids, _) => [Sect(pos, |Types(kids)|)] + Sects(kids, pos + 1 + |lead|)
    case Note(_, _, _, _) => []
  }

  /** The sections of the tokens of a forest printed at position pos. */
  function Sects(f: seq<Node>, pos: nat): (r: seq<Sect>)
    ensures |r| == |Types(f)|
    decreases f, 0
  {
    if f == [] then []
    else NodeSects(f[0], pos) + Sects(f[1..], pos + |NodeText(f[0])|)
  }

  // ---------------------------------------------------------------- skipping text

  lemma ShapeMoves(l: Lexer, pos: nat, q: nat)
    requires Shape(l, pos) && pos <= q && !InQuoteBeg(l.state)
    ensures Shape(l, q)
  {
  }

  lemma BlankStep(data: string, l: Lexer, pos: nat, len: nat)
    requires InText(data, l, pos, len) && l.state == ST_CHOOSE
    ensures var k := Span(Slice(data, pos, len), WS);
            Shape(l, pos + k) && Run(data, l, pos, len) == Run(data, l, pos + k, len - k)
  {
    hide Shape, Run;
    if Span(Slice(data, pos, len), WS) > 0 {
      assert Slice(data, pos, len)[0] == data[pos - 1];
      RunStep(data, l, pos, len);
      assert l.(state := ST_CHOOSE) == l;
    }
  }

  /** Whitespace between tokens may be skipped in one go or piece by piece. */
  lemma SpanMore(blank: string, rest: string)
    requires Span(blank, WS) == |blank|
    ensures Span(blank + rest, WS) == |blank| + Span(rest, WS)
  {
    SpanIs(blank + rest, WS, |blank| + Span(rest, WS));
  }

  lemma BlankRun(data: string, l: Lexer, pos: nat, len: nat, blank: string)
    requires InText(data, l, pos, len) && l.state == ST_CHOOSE
    requires At(data, pos, blank) && |blank| <= len && Span(blank, WS) == |blank|
    ensures Shape(l, pos + |blank|)
    ensures Run(data, l, pos, len) == Run(data, l, pos + |blank|, len - |blank|)
  {
    hide Shape, Run, Span;
    var k := |blank|;
    ShapeMoves(l, pos, pos + k);
    var rest := Slice(data, pos + k, len - k);
    assert Slice(data, pos, len) == blank + rest;
    SpanMore(blank, rest);
    BlankStep(data, l, pos, len);
    BlankStep(data, l, pos + k, len - k);
  }

  // ---------------------------------------------------------------- nodes

  /** The lexer after a node printed at pos: the node's tokens and nothing else. */
  function Read(l: Lexer, n: Node, pos: nat): Lexer {
    Lexer(l.sects + NodeSects(n, pos), l.types + NodeTypes(n), l.open, ST_CHOOSE)
  }

  function ReadAll(l: Lexer, f: seq<Node>, pos: nat): Lexer {
    Lexer(l.sects + Sects(f, pos), l.types + Types(f), l.open, ST_CHOOSE)
  }

  /** The states in which whitespace ends a token and nothing else happens. */
  predicate BlankNext(data: string, l: Lexer) {
    || l.state == ST_CHOOSE
    || l.state == ST_LIST_END_OR_WS
    || (l.state == ST_SYMBOL_END && !EndsInComment(data, l))
  }

  lemma ChooseBlank(data: string)
    ensures forall l: Lexer :: l.state == ST_CHOOSE ==> BlankNext(data, l)
  {
  }

  lemma BlankShape(l: Lexer, pos: nat)
    requires Shape(l, pos) && !InQuote(l.state) && !InQuoteBeg(l.state)
    ensures Shape(l.(state := ST_CHOOSE), pos)
  {
  }

  /** What may follow a symbol, or else a string, with nothing between them: the end of the text, a closing
    bracket, and for a symbol an opening one. */
  predicate MayFollow(data: string, pos: nat, len: nat, sym: bool)
    requires Within(data, pos, len)
  {
    len == 0 || data[pos - 1] == ')' || data[pos - 1] == ']' || (sym && (data[pos - 1] == '(' || data[pos - 1] == '['))
  }

  /** A bracket after a symbol or a string does what it does anywhere. */
  lemma TouchRun(data: string, l: Lexer, pos: nat, len: nat)
    requires InText(data, l, pos, len) && BlankNext(data, l) && MayFollow(data, pos, len, l.state == ST_SYMBOL_END)
    ensures var r := l.(state := ST_CHOOSE); Shape(r, pos) && Run(data, l, pos, len) == Run(data, r, pos, len)
  {
    hide Run, Shape, EndsInComment;
    BlankShape(l, pos);
    var r := l.(state := ST_CHOOSE);
    if len == 0 {
      RunEnd(data, l, pos);
      RunEnd(data, r, pos);
    } else {
      RunStep(data, l, pos, len);
      RunStep(data, r, pos, len);
      BracketStep(data, l, pos, len);
    }
  }

  lemma BracketStep(data: string, l: Lexer, pos: nat, len: nat)
    requires InText(data, l, pos, len) && BlankNext(data, l) && len > 0
    requires MayFollow(data, pos, len, l.state == ST_SYMBOL_END) && Shape(l.(state := ST_CHOOSE), pos)
    ensures Step(data, l, pos, len) == Step(data, l.(state := ST_CHOOSE), pos, len)
  {
    hide Shape, EndsInComment;
  }

  /** The gap after a node. */
  lemma GapRun(data: string, l: Lexer, pos: nat, len: nat, gap: string)
    requires InText(data, l, pos, len) && BlankNext(data, l)
    requires At(data, pos, gap) && IsGap(gap) && |gap| <= len
    requires gap == [] ==> l.state == ST_CHOOSE || MayFollow(data, pos, len, l.state == ST_SYMBOL_END)
    ensures var r := l.(state := ST_CHOOSE);
            Shape(r, pos + |gap|) && Run(data, l, pos, len) == Run(data, r, pos + |gap|, len - |gap|)
  {
    hide Run, Shape, MayFollow, EndsInComment;
    if gap != [] {
      BlankShape(l, pos);
      AtByte(data, pos, gap, 0);
      RunStep(data, l, pos, len);
      BlankStep(data, l.(state := ST_CHOOSE), pos, len);
      BlankRun(data, l.(state := ST_CHOOSE), pos, len, gap);
    } else if l.state != ST_CHOOSE {
      TouchRun(data, l, pos, len);
    }
  }

  lemma PlainSlice(data: string, pos: nat, len: nat, text: string, after: string)
    requires Within(data, pos, len) && |text + after| <= len && At(data, pos, text + after)
    ensures forall i :: 0 <= i < |text| ==> Slice(data, pos, len)[i] == text[i]
    ensures forall i :: 0 <= i < |after| ==> Slice(data, pos, len)[|text| + i] == after[i]
    ensures Slice(data, pos, |text|) == text
  {
    AtSplit(data, pos, text, after);
    assert Slice(data, pos, len)[..|text + after|] == Slice(data, pos, |text + after|);
  }

  lemma SymbolSpan(data: string, pos: nat, len: nat, text: string)
    requires Within(data, pos, len) && 0 < |text| <= len && At(data, pos, text) && CSpan(text, DELIMS) == |text|
    requires |text| < len ==> EndsSymbol(data[pos - 1 + |text|])
    ensures CSpan(Slice(data, pos, len), DELIMS) == |text| && data[pos - 1] !in DELIMS
    ensures len > 1 ==> data[pos] != '"' && data[pos] != '\''
  {
    hide CSpan, At, DELIMS, EndsSymbol;
    var s := Slice(data, pos, len);
    forall i | 0 <= i < |text|
      ensures s[i] == data[pos - 1 + i] && s[i] !in DELIMS
    {
      AtByte(data, pos, text, i);
      assert text[i] !in DELIMS;
    }
    assert |text| < len ==> s[|text|] == data[pos - 1 + |text|];
    QuotesDelimit();
    CSpanIs(s, DELIMS, |text|);
    assert data[pos - 1] == s[0];
    if len > 1 && |text| > 1 {
      assert data[pos] == s[1];
    }
  }

  lemma QuotesDelimit()
    ensures '"' in DELIMS && '\'' in DELIMS && forall c :: EndsSymbol(c) ==> c in DELIMS && c != '"' && c != '\''
  {
  }

  /** A run of bytes without delimiters becomes a symbol. */
  lemma SymbolStep(data: string, l: Lexer, pos: nat, len: nat, text: string)
    requires InText(data, l, pos, len) && l.state == ST_CHOOSE && 0 < |text| <= len
    requires At(data, pos, text) && CSpan(text, DELIMS) == |text|
    requires |text| < len ==> EndsSymbol(data[pos - 1 + |text|])
    ensures Step(data, l, pos, len) == Next(AddToken(l, Sect(pos, |text|), TYPE_SYMBOL, ST_SYMBOL_END), |text|)
  {
    hide Shape, CSpan, Slice, EndsSymbol, At;
    SymbolSpan(data, pos, len, text);
  }

  lemma GapEnds(data: string, pos: nat, len: nat, gap: string)
    requires Within(data, pos, len) && |gap| <= len && At(data, pos, gap) && IsGap(gap)
    requires gap == [] ==> MayFollow(data, pos, len, true)
    ensures len > 0 ==> EndsSymbol(data[pos - 1])
  {
    if gap != [] {
      AtByte(data, pos, gap, 0);
    }
  }

  lemma SymRun(data: string, l: Lexer, pos: nat, len: nat, n: Node)
    requires InText(data, l, pos, len) && l.state == ST_CHOOSE && |NodeText(n)| <= len
    requires n.Sym? && ValidNode(n) && IsGap(n.gap) && At(data, pos, NodeText(n))
    requires n.gap == [] ==> MayFollow(data, pos + |n.text|, len - |n.text|, true)
    ensures var k := |NodeText(n)|; var r := Read(l, n, pos);
            Shape(r, pos + k) && Run(data, l, pos, len) == Run(data, r, pos + k, len - k)
  {
    hide Run, Shape, Step, MayFollow, IsGap, EndsSymbol, IsCommentMark, BlankNext, CSpan, AddToken, Read;
    var text, gap := n.text, n.gap;
    AtSplit(data, pos, text, gap);
    GapEnds(data, pos + |text|, len - |text|, gap);
    SymbolStep(data, l, pos, len, text);
    RunStep(data, l, pos, len);
    SymAdded(data, l, pos, n);
    GapRun(data, AddToken(l, Sect(pos, |text|), TYPE_SYMBOL, ST_SYMBOL_END), pos + |text|, len - |text|, gap);
  }

  /** A symbol that is not a comment mark is all that has been read. */
  lemma SymAdded(data: string, l: Lexer, pos: nat, n: Node)
    requires n.Sym? && ValidNode(n) && At(data, pos, n.text)
    ensures var r := AddToken(l, Sect(pos, |n.text|), TYPE_SYMBOL, ST_SYMBOL_END);
      BlankNext(data, r) && r.state == ST_SYMBOL_END && r.(state := ST_CHOOSE) == Read(l, n, pos)
  {
    hide IsCommentMark, CSpan, Marks;
    MarksOnly(n.text);
  }

  /** A comment mark takes itself away, and the text up to the end of the line with it. */
  lemma NoteStep(data: string, l: Lexer, pos: nat, len: nat, words: string, after: string)
    requires InText(data, l, pos, len) && l.state == ST_SYMBOL_END && EndsInComment(data, l)
    requires '\n' !in words && |words + after| <= len && At(data, pos, words + after)
    requires words != [] && EndsSymbol(words[0]) && after != [] && after[0] == '\n'
    ensures Step(data, l, pos, len) == Next(DropLast(l), |words|)
  {
    hide Shape, EndsInComment, EndList;
    PlainSlice(data, pos, len, words, after);
    assert after[0] == Slice(data, pos, len)[|words|];
    assert data[pos - 1] == Slice(data, pos, len)[0] == words[0];
    CSpanIs(Slice(data, pos, len), "\n", |words|);
  }

  /** A comment mark at the end of its line. */
  lemma MarkStep(data: string, l: Lexer, pos: nat, len: nat, after: string)
    requires InText(data, l, pos, len) && l.state == ST_SYMBOL_END && EndsInComment(data, l) && |after| <= len
    requires At(data, pos, after) && after != [] && after[0] == '\n'
    ensures Shape(DropLast(l), pos) && Step(data, l, pos, len) == Step(data, DropLast(l), pos, len)
  {
    BlankShape(DropLast(l), pos);
    hide Shape, EndsInComment, EndList;
    AtByte(data, pos, after, 0);
    CSpanIs(Slice(data, pos, len), "\n", 0);
  }

  lemma DropAdded(l: Lexer, pos: nat, sect: Sect)
    requires Shape(l, pos) && l.state == ST_CHOOSE
    ensures |l.types| == |l.sects| && DropLast(AddToken(l, sect, TYPE_SYMBOL, ST_SYMBOL_END)) == l
  {
  }

  /** A comment mark is a number of one of the two marks. */
  lemma MarksOnly(s: string)
    ensures IsCommentMark(s) <==> s != [] && (s == Marks(true, |s|) || s == Marks(false, |s|))
  {
    if IsCommentMark(s) {
      assert s == Marks(s[0] == '#', |s|);
    }
  }

  lemma MarksAreMark(hash: bool, n: nat)
    requires n > 0
    ensures IsCommentMark(Marks(hash, n)) && CSpan(Marks(hash, n), DELIMS) == n
  {
    CSpanIs(Marks(hash, n), DELIMS, n);
  }

  /** A mark is a comment as soon as it is a symbol. */
  lemma MarkAdded(data: string, l: Lexer, pos: nat, len: nat, marks: string)
    requires At(data, pos, marks) && IsCommentMark(marks)
    ensures var l1 := AddToken(l, Sect(pos, |marks|), TYPE_SYMBOL, ST_SYMBOL_END);
            l1.state == ST_SYMBOL_END && EndsInComment(data, l1)
  {
    hide IsCommentMark;
  }

  /** A mark, the rest of its line and the whitespace after that line leave no trace. */
  lemma CommentRun(data: string, l: Lexer, pos: nat, len: nat, marks: string, words: string, after: string)
    requires InText(data, l, pos, len) && l.state == ST_CHOOSE && |marks + (words + after)| <= len
    requires At(data, pos, marks + (words + after))
    requires marks != [] && IsCommentMark(marks) && CSpan(marks, DELIMS) == |marks|
    requires (words != [] ==> EndsSymbol(words[0])) && '\n' !in words
    requires after != [] && after[0] == '\n' && Span(after, WS) == |after|
    ensures var k := |marks + (words + after)|;
            Shape(l, pos + k) && Run(data, l, pos, len) == Run(data, l, pos + k, len - k)
  {
    hide Run, Shape, Step, IsCommentMark, Span, CSpan, AddToken, DropLast, At, EndsSymbol;
    AtSplit(data, pos, marks, words + after);
    AtByte(data, pos + |marks|, words + after, 0);
    LineEnds();
    SymbolStep(data, l, pos, len, marks);
    RunStep(data, l, pos, len);
    var p, m := pos + |marks|, len - |marks|;
    var l1 := AddToken(l, Sect(pos, |marks|), TYPE_SYMBOL, ST_SYMBOL_END);
    MarkAdded(data, l, pos, len, marks);
    DropAdded(l, pos, Sect(pos, |marks|));
    AtSplit(data, p, words, after);
    if words != [] {
      NoteStep(data, l1, p, m, words, after);
      RunStep(data, l1, p, m);
    } else {
      MarkStep(data, l1, p, m, after);
      RunStep(data, l1, p, m);
      RunStep(data, l, p, m);
    }
    BlankRun(data, l, p + |words|, m - |words|, after);
  }

  lemma LineEnds()
    ensures EndsSymbol('\n')
  {
  }

  lemma NoteRun(data: string, l: Lexer, pos: nat, len: nat, n: Node)
    requires InText(data, l, pos, len) && l.state == ST_CHOOSE && |NodeText(n)| <= len
    requires n.Note? && ValidNode(n) && IsGap(n.gap) && At(data, pos, NodeText(n))
    ensures var k := |NodeText(n)|; var r := Read(l, n, pos);
            Shape(r, pos + k) && Run(data, l, pos, len) == Run(data, r, pos + k, len - k)
  {
    hide Run, Shape, NodeText, NodeBody, Marks, IsCommentMark, CSpan, Span, EndsSymbol, At, Read;
    var marks, after := Marks(n.hash, n.marks), "\n" + n.gap;
    NoteText(l, n, pos);
    MarksAreMark(n.hash, n.marks);
    NoteEnds(n.gap);
    CommentRun(data, l, pos, len, marks, n.words, after);
  }

  lemma NoteText(l: Lexer, n: Node, pos: nat)
    requires n.Note? && l.state == ST_CHOOSE
    ensures NodeText(n) == Marks(n.hash, n.marks) + (n.words + ("\n" + n.gap)) && Read(l, n, pos) == l
    ensures |Marks(n.hash, n.marks)| == n.marks
  {
    hide IsCommentMark;
  }

  lemma NoteEnds(gap: string)
    requires IsGap(gap)
    ensures var after := "\n" + gap; Span(after, WS) == |after|
  {
    var after := "\n" + gap;
    SpanIs(after, WS, |after|);
  }

  lemma GapStops(data: string, pos: nat, len: nat, gap: string, single: bool)
    requires Within(data, pos, len) && |gap| <= len && At(data, pos, gap) && IsGap(gap)
    requires gap == [] ==> MayFollow(data, pos, len, false)
    ensures QuoteStops(data, pos, len, single)
  {
    if gap != [] {
      AtByte(data, pos, gap, 0);
    }
  }

  lemma ReadStr(l: Lexer, n: Node, pos: nat)
    requires n.Str? || n.RawStr?
    ensures Read(l, n, pos) == Lexer(l.sects + NodeSects(n, pos), l.types + NodeTypes(n), l.open, ST_CHOOSE)
  {
  }

  /** A string, whose body and quotes are one token, and its gap. */
  lemma StrRun(data: string, l: Lexer, pos: nat, len: nat, n: Node)
    requires InText(data, l, pos, len) && l.state == ST_CHOOSE && (n.Str? || n.RawStr?) && ValidNode(n) && IsGap(n.gap)
    requires |NodeText(n)| <= len && At(data, pos, NodeText(n))
    requires n.gap == [] ==> |NodeBody(n)| <= len && MayFollow(data, pos + |NodeBody(n)|, len - |NodeBody(n)|, false)
    ensures var k := |NodeText(n)|; var r := Read(l, n, pos);
            Shape(r, pos + k) && Run(data, l, pos, len) == Run(data, r, pos + k, len - k)
  {
    hide Run, Shape, Read, QuotedText, RawText, BodyText, HasBack, MayFollow, IsGap, Quotes, At, ValidBody, ValidRaw, EscType, StrType, BeginsLine, QuoteStops;
    var body := NodeBody(n);
    AtSplit(data, pos, body, n.gap);
    var p, m := pos + |body|, len - |body|;
    GapStops(data, p, m, n.gap, n.single);
    ReadStr(l, n, pos);
    if n.Str? {
      var start := pos + |Quotes(n.single, n.three)| + 2 * n.lines;
      QuotedRun(data, l, pos, len, n.single, n.three, n.lines, n.body);
      GapRun(data, DoneAt(l, start, start + |BodyText(n.body)|, EscType(n.single, n.three, HasBack(n.body))), p, m, n.gap);
    } else {
      var start := pos + 1 + |Quotes(n.single, n.three)| + if n.line then 2 else 0;
      RawRun(data, l, pos, len, n.at, n.single, n.three, n.line, n.bytes);
      GapRun(data, DoneAt(l, start, start + |n.bytes|, StrType(n.single, n.three)), p, m, n.gap);
    }
  }

  // ---------------------------------------------------------------- lists

  function Opening(square: bool): char { if square then '[' else '(' }

  function Closing(square: bool): char { if square then ']' else ')' }

  /** A list is opened unless it would be nested too deep. */
  lemma OpenListStep(data: string, l: Lexer, pos: nat, len: nat, square: bool)
    requires InText(data, l, pos, len) && l.state == ST_CHOOSE && len > 0
    requires data[pos - 1] == Opening(square)
    ensures Step(data, l, pos, len) ==
      if |l.open| >= LIST_DEPTH_SZ then Err else Next(OpenToken(l, pos, TYPE_ERR, ST_CHOOSE), 1)
  {
    hide Shape;
  }

  /** What the tokens of a list look like once its last token has been read. */
  lemma CloseListStep(data: string, l: Lexer, start: nat, n: Node, pos: nat, len: nat)
    requires n.List? && |l.sects| == |l.types|
    requires var r := ReadAll(OpenToken(l, start, TYPE_ERR, ST_CHOOSE), n.kids, start + 1 + |n.lead|);
             InText(data, r, pos, len) && len > 0
    requires 1 <= start <= |data| && data[start - 1] == Opening(n.square) && data[pos - 1] == Closing(n.square)
    ensures var r := ReadAll(OpenToken(l, start, TYPE_ERR, ST_CHOOSE), n.kids, start + 1 + |n.lead|);
            Step(data, r, pos, len) == Next(Read(l, n, start), 1)
  {
    hide Shape;
    var s, t := Sects(n.kids, start + 1 + |n.lead|), Types(n.kids);
    var r := ReadAll(OpenToken(l, start, TYPE_ERR, ST_CHOOSE), n.kids, start + 1 + |n.lead|);
    ReadList(l, n, start);
    hide Sects, Types, NodeSects, NodeTypes, Read;
    var typ := if n.square then TYPE_SLIST else TYPE_CLIST;
    assert r.open[..|l.open|] == l.open;
    SetMiddle(l.sects, Sect(start, 0), s, Sect(start, |s|));
    SetMiddle(l.types, TYPE_ERR, t, typ);
  }

  lemma SetMiddle<T>(a: seq<T>, x: T, b: seq<T>, y: T)
    ensures (a + [x] + b)[|a| := y] == a + ([y] + b)
    ensures (a + [x] + b)[|a|] == x && |a + [x] + b| == |a| + 1 + |b|
  {
  }

  lemma ReadList(l: Lexer, n: Node, pos: nat)
    requires n.List?
    ensures Read(l, n, pos)
         == Lexer(l.sects + ([Sect(pos, |Types(n.kids)|)] + Sects(n.kids, pos + 1 + |n.lead|)),
                  l.types + ([if n.square then TYPE_SLIST else TYPE_CLIST] + Types(n.kids)), l.open, ST_CHOOSE)
  {
  }

  /** Reading a printed forest from where a token may begin: its tokens, or an error when its lists
    are nested deeper than the stack of open lists allows. */
  ghost predicate Reads(data: string, l: Lexer, pos: nat, len: nat, depth: nat, r: Lexer, k: nat)
    requires InText(data, l, pos, len) && k <= len
  {
    if |l.open| + depth <= LIST_DEPTH_SZ then
      Shape(r, pos + k) && Run(data, l, pos, len) == Run(data, r, pos + k, len - k)
    else
      Run(data, l, pos, len) == Err
  }

  /** What follows a node is fit to. */
  predicate Followed(data: string, pos: nat, len: nat, n: Node) {
    n.gap == [] && !n.List? && !n.Note? ==>
      && |NodeBody(n)| <= len && Within(data, pos, len)
      && MayFollow(data, pos + |NodeBody(n)|, len - |NodeBody(n)|, n.Sym?)
  }

  lemma {:induction false} NodeRun(data: string, l: Lexer, pos: nat, len: nat, n: Node)
    requires InText(data, l, pos, len) && l.state == ST_CHOOSE && ValidNode(n) && IsGap(n.gap)
    requires |NodeText(n)| <= len && At(data, pos, NodeText(n)) && Followed(data, pos, len, n)
    ensures Reads(data, l, pos, len, NodeDepth(n), Read(l, n, pos), |NodeText(n)|)
    decreases n, 1
  {
    hide Run, Shape, NodeSects, NodeTypes, Read, Print, Sects, Types, QuotedText, RawText, BodyText, HasBack, ValidBody, ValidRaw, BeginsLine, ValidForest, MayFollow, IsGap;
    OpenFew(l, pos);
    if n.Sym? {
      SymRun(data, l, pos, len, n);
    } else if n.Str? || n.RawStr? {
      StrRun(data, l, pos, len, n);
    } else if n.Note? {
      NoteRun(data, l, pos, len, n);
    } else {
      ListRun(data, l, pos, len, n);
    }
  }

  lemma ListText(n: Node)
    requires n.List?
    ensures NodeText(n) == [Opening(n.square)] + (n.lead + (Print(n.kids) + ([Closing(n.square)] + n.gap)))
    ensures NodeDepth(n) == 1 + Depth(n.kids)
  {
  }

  lemma {:induction false} ListRun(data: string, l: Lexer, pos: nat, len: nat, n: Node)
    requires InText(data, l, pos, len) && l.state == ST_CHOOSE && n.List? && ValidForest(n.kids)
    requires IsGap(n.lead) && IsGap(n.gap) && |NodeText(n)| <= len && At(data, pos, NodeText(n))
    ensures Reads(data, l, pos, len, NodeDepth(n), Read(l, n, pos), |NodeText(n)|)
    decreases n, 0
  {
    hide Run, Shape, Step, NodeBody, NodeText, NodeDepth, Read, ReadAll, Print, Depth, ValidForest, IsGap, At, BlankNext;
    ChooseBlank(data);
    var kids := n.kids;
    var body := Print(kids);
    var open, close := [Opening(n.square)], [Closing(n.square)];
    ListText(n);
    AtSplit(data, pos, open, n.lead + (body + (close + n.gap)));
    AtSplit(data, pos + 1, n.lead, body + (close + n.gap));
    var q := pos + 1 + |n.lead|;
    AtSplit(data, q, body, close + n.gap);
    AtSplit(data, q + |body|, close, n.gap);
    AtByte(data, pos, open, 0);
    OpenListStep(data, l, pos, len, n.square);
    RunStep(data, l, pos, len);
    if |l.open| < LIST_DEPTH_SZ {
      var l1 := OpenToken(l, pos, TYPE_ERR, ST_CHOOSE);
      GapRun(data, l1, pos + 1, len - 1, n.lead);
      assert l1.(state := ST_CHOOSE) == l1;
      var p, m := q + |body|, len - 1 - |n.lead| - |body|;
      AtByte(data, p, close, 0);
      ForestRun(data, l1, q, len - 1 - |n.lead|, kids);
      if |l1.open| + Depth(kids) <= LIST_DEPTH_SZ {
        ShapeSizes(l, pos);
        ReadAllKeeps(l1, kids, q);
        CloseListStep(data, l, pos, n, p, m);
        RunStep(data, ReadAll(l1, kids, q), p, m);
        ReadKeeps(l, n, pos);
        GapRun(data, Read(l, n, pos), p + 1, m - 1, n.gap);
      }
    }
  }

  lemma ReadAllKeeps(l: Lexer, f: seq<Node>, pos: nat)
    ensures ReadAll(l, f, pos).open == l.open && ReadAll(l, f, pos).state == ST_CHOOSE
  {
  }

  lemma ReadKeeps(l: Lexer, n: Node, pos: nat)
    ensures Read(l, n, pos).open == l.open && Read(l, n, pos).state == ST_CHOOSE
  {
  }

  lemma ShapeSizes(l: Lexer, pos: nat)
    requires Shape(l, pos)
    ensures |l.sects| == |l.types|
  {
  }

  lemma {:induction false} ForestRun(data: string, l: Lexer, pos: nat, len: nat, f: seq<Node>)
    requires InText(data, l, pos, len) && l.state == ST_CHOOSE && ValidForest(f)
    requires |Print(f)| <= len && At(data, pos, Print(f))
    requires MayFollow(data, pos + |Print(f)|, len - |Print(f)|, false)
    ensures Reads(data, l, pos, len, Depth(f), ReadAll(l, f, pos), |Print(f)|)
    decreases f, 0
  {
    hide Run, Shape, NodeBody, NodeText, NodeDepth, Read, ReadAll, Print, Depth, ValidNode, ValidForest, MayFollow, Followed, IsGap;
    OpenFew(l, pos);
    ForestFacts(l, f, pos);
    if f != [] {
      var body := NodeText(f[0]);
      ValidFirst(f);
      AtSplit(data, pos, body, Print(f[1..]));
      FirstFollowed(data, pos, len, f);
      NodeRun(data, l, pos, len, f[0]);
      if |l.open| + NodeDepth(f[0]) <= LIST_DEPTH_SZ {
        var r := Read(l, f[0], pos);
        ReadKeeps(l, f[0], pos);
        ForestRun(data, r, pos + |body|, len - |body|, f[1..]);
      }
    }
  }

  lemma ValidFirst(f: seq<Node>)
    requires ValidForest(f) && f != []
    ensures ValidNode(f[0]) && IsGap(f[0].gap) && ValidForest(f[1..]) && (f[0].gap == [] ==> MayTouch(f[0], f[1..]))
  {
    hide ValidNode, IsGap, MayTouch;
  }

  /** What comes after the first node of a forest: the next one, or what comes after the forest. */
  lemma FirstFollowed(data: string, pos: nat, len: nat, f: seq<Node>)
    requires Within(data, pos, len) && f != [] && ValidForest(f)
    requires |Print(f)| <= len && At(data, pos, Print(f)) && MayFollow(data, pos + |Print(f)|, len - |Print(f)|, false)
    ensures Followed(data, pos, len, f[0])
  {
    hide ValidForest, ValidNode, IsGap, NodeBody;
    ValidFirst(f);
    var n := f[0];
    if n.gap == [] && !n.List? && !n.Note? {
      assert NodeBody(n) + n.gap == NodeBody(n);
      assert Print(f) == NodeBody(n) + Print(f[1..]);
      if f[1..] == [] {
        assert Print(f) == NodeBody(n);
      } else {
        ListFirst(f[1..]);
        AtSplit(data, pos, NodeBody(n), Print(f[1..]));
        AtByte(data, pos + |NodeBody(n)|, Print(f[1..]), 0);
      }
    }
  }

  lemma ListFirst(f: seq<Node>)
    requires f != [] && f[0].List?
    ensures Print(f) != [] && Print(f)[0] == Opening(f[0].square)
  {
  }

  lemma OpenFew(l: Lexer, pos: nat)
    requires Shape(l, pos) && l.state == ST_CHOOSE
    ensures |l.open| <= LIST_DEPTH_SZ
  {
  }

  /** How a forest begins. */
  lemma ForestFacts(l: Lexer, f: seq<Node>, pos: nat)
    requires l.state == ST_CHOOSE
    ensures f == [] ==> ReadAll(l, f, pos) == l && Print(f) == [] && Depth(f) == 0
    ensures f != [] ==>
      var body := NodeText(f[0]);
      && Print(f) == body + Print(f[1..])
      && Depth(f) == Max(NodeDepth(f[0]), Depth(f[1..]))
      && ReadAll(Read(l, f[0], pos), f[1..], pos + |body|) == ReadAll(l, f, pos)
  {
    hide NodeBody, NodeDepth, NodeSects, NodeTypes, ValidNode, ValidForest;
    if f == [] {
      assert l.sects + Sects(f, pos) == l.sects && l.types + Types(f) == l.types;
    } else {
      ReadAllStep(l, f, pos);
    }
  }

  lemma ReadAllStep(l: Lexer, f: seq<Node>, pos: nat)
    requires l.state == ST_CHOOSE && f != []
    ensures ReadAll(Read(l, f[0], pos), f[1..], pos + |NodeText(f[0])|) == ReadAll(l, f, pos)
  {
    hide NodeBody, NodeSects, NodeTypes, Sects, Types;
    SectsTypesStep(f, pos);
    var later := Sects(f[1..], pos + |NodeText(f[0])|);
    assert l.sects + (NodeSects(f[0], pos) + later) == l.sects + NodeSects(f[0], pos) + later;
    assert l.types + (NodeTypes(f[0]) + Types(f[1..])) == l.types + NodeTypes(f[0]) + Types(f[1..]);
  }

  lemma SectsTypesStep(f: seq<Node>, pos: nat)
    requires f != []
    ensures Sects(f, pos) == NodeSects(f[0], pos) + Sects(f[1..], pos + |NodeText(f[0])|)
    ensures Types(f) == NodeTypes(f[0]) + Types(f[1..])
  {
    hide NodeBody, NodeSects, NodeTypes;
  }

  // ---------------------------------------------------------------- whole texts

  /** A text that begins like a script loses its first line. */
  predicate LooksLikeScript(text: string) {
    |text| >= 2 && text[..2] == "#!"
  }

  /** What may come before a forest: whitespace, or the first line of a script and whitespace. */
  predicate IsHead(head: string) {
    || IsGap(head)
    || (LooksLikeScript(head) && CSpan(head, "\n") < |head| && IsGap(head[CSpan(head, "\n")..]))
  }

  /** What the lexer should make of a forest printed at pos. */
  function Lexed(f: seq<Node>, pos: nat): Outcome {
    if Depth(f) <= 64 then Next(Lexer(Sects(f, pos), Types(f), [], ST_END), 0) else Err
  }

  lemma BeginStep(data: string)
    requires data != []
    ensures Step(data, INITIAL, 1, |data|) ==
      if LooksLikeScript(data) then Next(INITIAL.(state := ST_WS), CSpan(data, "\n"))
      else Next(INITIAL.(state := ST_CHOOSE), 0)
    ensures LooksLikeScript(data) ==> CSpan(data, "\n") >= 2
  {
    assert Slice(data, 1, |data|) == data;
    if |data| >= 2 {
      assert Slice(data, 1, 2) == data[..2];
    }
    if LooksLikeScript(data) {
      assert data[0] == data[..2][0] == '#' && data[1] == data[..2][1] == '!';
    }
  }

  /** No token starts before text position b. */
  ghost predicate Late(l: Lexer, b: nat) {
    forall i :: 0 <= i < |l.sects| ==> l.sects[i].pos >= b
  }

  lemma EndListLate(data: string, l: Lexer, pos: nat, byte: char, b: nat)
    requires Shape(l, pos) && !InQuote(l.state) && !InQuoteBeg(l.state) && Late(l, b)
    ensures var r := EndList(data, l, pos, byte); r.Next? ==> Late(r.l, b)
  {
  }

  lemma ChooseLate(data: string, l: Lexer, pos: nat, len: nat, b: nat)
    requires InText(data, l, pos, len) && len > 0 && Late(l, b) && b <= pos && l.state == ST_CHOOSE
    ensures var r := Choose(data, l, pos, len); r.Next? ==> Late(r.l, b)
  {
    hide Shape, EndList;
    EndListLate(data, l, pos, data[pos - 1], b);
  }

  lemma SymbolEndLate(data: string, l: Lexer, pos: nat, len: nat, b: nat)
    requires InText(data, l, pos, len) && len > 0 && Late(l, b) && b <= pos && l.state == ST_SYMBOL_END
    ensures var r := SymbolEnd(data, l, pos, len); r.Next? ==> Late(r.l, b)
  {
    hide EndList, EndsInComment;
    EndListLate(data, l, pos, data[pos - 1], b);
    EndListLate(data, DropLast(l), pos, data[pos - 1], b);
  }

  lemma BegQuoteLate(l: Lexer, pos: nat, three: bool, b: nat)
    requires Shape(l, pos) && InQuoteBeg(l.state) && Late(l, b)
    ensures Late(BegQuoteXxx(l, pos, three), b)
  {
    hide Shape;
    QuoteOpen(l, pos);
  }

  lemma EndQuoteLate(l: Lexer, pos: nat, b: nat)
    requires Shape(l, pos) && InQuote(l.state) && Late(l, b)
    ensures Late(EndQuote(l, pos), b)
  {
    hide Shape;
    QuoteOpen(l, pos);
  }

  lemma EscLate(data: string, l: Lexer, pos: nat, len: nat, typ: nat, b: nat)
    requires InText(data, l, pos, len) && InQuote(l.state) && len > 0 && Late(l, b)
    requires TYPE_QUOTE_D <= typ < TYPE_QUOTE_ESC_SSS
    ensures var r := EscQuote(data, l, pos, len, typ); r.Next? ==> Late(r.l, b)
  {
    hide Shape;
    QuoteOpen(l, pos);
  }

  lemma XEndLate(data: string, l: Lexer, pos: nat, len: nat, quote: char, typ: nat, b: nat)
    requires InText(data, l, pos, len) && InQuote(l.state) && len > 0 && Late(l, b)
    requires TYPE_QUOTE_D <= typ < TYPE_QUOTE_ESC_SSS
    ensures var r := QuoteXEnd(data, l, pos, len, quote, typ); r.Next? ==> Late(r.l, b)
    ensures var r := QuoteXxxEnd(data, l, pos, len, quote, typ); r.Next? ==> Late(r.l, b)
  {
    hide Shape, EscQuote, EndQuote, Late;
    EscLate(data, l, pos, len, typ, b);
    EndQuoteLate(l, pos, b);
  }

  lemma UnquoteLate(data: string, l: Lexer, pos: nat, len: nat, close: string, b: nat)
    requires InText(data, l, pos, len) && InQuote(l.state) && len > 0 && close != [] && Late(l, b)
    ensures var r := UnquoteEnd(data, l, pos, len, close); r.Next? ==> Late(r.l, b)
  {
    hide Shape, EndQuote, Late;
    var p := Search(data, pos, len, close);
    if p != 0 {
      ShapeMoves(l, pos, p);
      EndQuoteLate(l, p, b);
    }
  }

  lemma QuoteLate(data: string, l: Lexer, pos: nat, len: nat, b: nat)
    requires InText(data, l, pos, len) && len > 0 && Late(l, b) && b <= pos
    requires InQuote(l.state) || InQuoteBeg(l.state)
    ensures var r := Step(data, l, pos, len); r.Next? ==> Late(r.l, b)
  {
    hide Choose, SymbolEnd, BegUnquote, EndList, Shape, QuoteXEnd, QuoteXxxEnd, UnquoteEnd, BegQuoteXxx, Late;
    if InQuoteBeg(l.state) {
      BegQuoteLate(l, pos, true, b);
      BegQuoteLate(l, pos, false, b);
    } else if l.state == ST_QUOTE_D_END {
      XEndLate(data, l, pos, len, '"', TYPE_QUOTE_D, b);
    } else if l.state == ST_QUOTE_DDD_END {
      XEndLate(data, l, pos, len, '"', TYPE_QUOTE_DDD, b);
    } else if l.state == ST_QUOTE_S_END {
      XEndLate(data, l, pos, len, '\'', TYPE_QUOTE_S, b);
    } else if l.state == ST_QUOTE_SSS_END {
      XEndLate(data, l, pos, len, '\'', TYPE_QUOTE_SSS, b);
    } else {
      UnquoteLate(data, l, pos, len, "\"\"\"", b);
      UnquoteLate(data, l, pos, len, "\"", b);
      UnquoteLate(data, l, pos, len, "'''", b);
      UnquoteLate(data, l, pos, len, "'", b);
    }
  }

  lemma QuoteOpen(l: Lexer, pos: nat)
    requires Shape(l, pos) && (InQuote(l.state) || InQuoteBeg(l.state))
    ensures l.open != [] && 1 <= Top(l) <= |l.sects| == |l.types|
  {
  }

  lemma StepLate(data: string, l: Lexer, pos: nat, len: nat, b: nat)
    requires InText(data, l, pos, len) && len > 0 && Late(l, b) && b <= pos
    ensures var r := Step(data, l, pos, len); r.Next? ==> Late(r.l, b)
  {
    hide Choose, SymbolEnd, EndList, BegUnquote, Shape, QuoteXEnd, QuoteXxxEnd, UnquoteEnd, BegQuoteXxx;
    if l.state == ST_CHOOSE {
      ChooseLate(data, l, pos, len, b);
    } else if l.state == ST_SYMBOL_END {
      SymbolEndLate(data, l, pos, len, b);
    } else if InQuote(l.state) || InQuoteBeg(l.state) {
      QuoteLate(data, l, pos, len, b);
    } else if l.state == ST_UNQUOTE_BEG {
      BegUnquoteLate(data, l, pos, len, b);
    } else if l.state == ST_LIST_END_OR_WS {
      EndListLate(data, l, pos, data[pos - 1], b);
    }
  }

  lemma BegUnquoteLate(data: string, l: Lexer, pos: nat, len: nat, b: nat)
    requires InText(data, l, pos, len) && len > 0 && Late(l, b) && b <= pos && l.state == ST_UNQUOTE_BEG
    ensures var r := BegUnquote(data, l, pos, len); r.Next? ==> Late(r.l, b)
  {
    assert |l.types| == |l.sects|;
    hide Shape;
  }

  lemma {:induction false} RunLate(data: string, l: Lexer, pos: nat, len: nat, b: nat)
    requires InText(data, l, pos, len) && Late(l, b) && b <= pos
    ensures var r := Run(data, l, pos, len); r.Next? ==> Late(r.l, b)
    decreases len, Rank(l.state)
  {
    hide Step, Shape;
    if len > 0 {
      StepLate(data, l, pos, len, b);
      var next := Step(data, l, pos, len);
      if next.Next? {
        RunLate(data, next.l, pos + next.plen, len - next.plen, b);
      }
    }
  }

  /** Only a symbol can make a printed forest look like a script. */
  lemma ScriptBegins(f: seq<Node>)
    requires ValidForest(f) && LooksLikeScript(Print(f))
    ensures Sects(f, 1) != [] && Sects(f, 1)[0].pos == 1
  {
    var text := Print(f);
    assert text[0] == text[..2][0] == '#' && text[1] == text[..2][1] == '!';
    assert NodeBody(f[0])[0] == '#';
    match f[0]
    case Sym(_, _) =>
    case Str(_, _, _, _, _) =>
    case RawStr(_, _, _, _, _, _) =>
    case List(_, _, _, _) =>
    case Note(_, _, _, _) =>
  }

  /** The whitespace after the first line of a script. */
  lemma ScriptRun(data: string, l: Lexer, pos: nat, len: nat, gap: string)
    requires InText(data, l, pos, len) && l.state == ST_WS && At(data, pos, gap) && IsGap(gap) && gap != [] && |gap| <= len
    ensures var r := l.(state := ST_CHOOSE);
            Shape(r, pos + |gap|) && Run(data, l, pos, len) == Run(data, r, pos + |gap|, len - |gap|)
  {
    hide Step, Run, Shape, IsGap, MayFollow;
    var r := l.(state := ST_CHOOSE);
    BlankShape(l, pos);
    AtByte(data, pos, gap, 0);
    GapBlank(gap);
    WsStep(data, l, pos, len);
    RunStep(data, l, pos, len);
    RunStep(data, r, pos, len);
    GapRun(data, r, pos, len, gap);
  }

  lemma GapBlank(gap: string)
    requires IsGap(gap) && gap != []
    ensures gap[0] in WS
  {
  }

  lemma WsStep(data: string, l: Lexer, pos: nat, len: nat)
    requires InText(data, l, pos, len) && l.state == ST_WS && len > 0 && data[pos - 1] in WS
    requires Shape(l.(state := ST_CHOOSE), pos)
    ensures Step(data, l, pos, len) == Step(data, l.(state := ST_CHOOSE), pos, len)
  {
    hide Shape;
  }

  /** Where a head of whitespace, or the script line of one, ends. */
  lemma HeadAt(head: string, rest: string, k: nat)
    requires k <= |head|
    ensures At(head + rest, 1 + k, head[k..]) && |head + rest| == |head| + |rest|
  {
    var data := head + rest;
    assert At(data, 1, data);
    assert data == head[..k] + (head[k..] + rest);
    AtSplit(data, 1, head[..k], head[k..] + rest);
    AtSplit(data, 1 + k, head[k..], rest);
  }

  lemma LineEnd(head: string, rest: string)
    ensures CSpan(head, "\n") < |head| ==> CSpan(head + rest, "\n") == CSpan(head, "\n")
  {
    if CSpan(head, "\n") < |head| {
      CSpanIs(head + rest, "\n", CSpan(head, "\n"));
    }
  }

  /** The lexer gets from one state and place to another. */
  ghost predicate Goes(data: string, l: Lexer, pos: nat, r: Lexer, end: nat) {
    && 1 <= pos <= end <= |data| + 1 && Shape(l, pos) && Shape(r, end)
    && Run(data, l, pos, |data| + 1 - pos) == Run(data, r, end, |data| + 1 - end)
  }

  lemma GoesOn(data: string, l: Lexer, pos: nat, l': Lexer, mid: nat, r: Lexer, end: nat)
    requires Goes(data, l, pos, l', mid) && Goes(data, l', mid, r, end)
    ensures Goes(data, l, pos, r, end)
  {
    hide Run, Shape;
  }

  /** What comes before a forest leaves the lexer as it was. */
  lemma HeadRun(data: string, head: string, rest: string)
    requires data == head + rest && data != [] && IsHead(head) && !(head == [] && LooksLikeScript(data))
    ensures Goes(data, INITIAL, 1, Fresh(ST_CHOOSE), 1 + |head|)
  {
    hide Goes, CSpan, IsGap, LooksLikeScript, IsHead, Fresh;
    BeginRun(data);
    HeadKind(data, head, rest);
    if LooksLikeScript(data) {
      var k := CSpan(data, "\n");
      HeadGap(data, head, rest, k, ST_WS);
      GoesOn(data, INITIAL, 1, Fresh(ST_WS), 1 + k, Fresh(ST_CHOOSE), 1 + |head|);
    } else {
      HeadGap(data, head, rest, 0, ST_CHOOSE);
      GoesOn(data, INITIAL, 1, Fresh(ST_CHOOSE), 1, Fresh(ST_CHOOSE), 1 + |head|);
    }
  }

  lemma HeadKind(data: string, head: string, rest: string)
    requires data == head + rest && IsHead(head) && !(head == [] && LooksLikeScript(data))
    ensures var k := if LooksLikeScript(data) then CSpan(data, "\n") else 0;
            k <= |head| && IsGap(head[k..]) && (LooksLikeScript(data) ==> k < |head|)
  {
    hide CSpan, IsGap, LooksLikeScript;
    assert head[0..] == head;
    if LooksLikeScript(data) {
      GapNoScript(head, rest);
      LineEnd(head, rest);
    } else {
      ScriptHead(head, rest);
    }
  }

  lemma BeginRun(data: string)
    requires data != []
    ensures if LooksLikeScript(data) then Goes(data, INITIAL, 1, Fresh(ST_WS), 1 + CSpan(data, "\n"))
            else Goes(data, INITIAL, 1, Fresh(ST_CHOOSE), 1)
  {
    hide Step, Run, Shape, CSpan, LooksLikeScript;
    StartShapes();
    BeginStep(data);
    RunStep(data, INITIAL, 1, |data|);
  }

  lemma HeadGap(data: string, head: string, rest: string, k: nat, state: nat)
    requires data == head + rest && k <= |head| && IsGap(head[k..])
    requires (state == ST_WS && k < |head|) || state == ST_CHOOSE
    ensures Goes(data, Fresh(state), 1 + k, Fresh(ST_CHOOSE), 1 + |head|)
  {
    hide Run, Shape, IsGap, At;
    HeadAt(head, rest, k);
    FreshRun(data, 1 + k, |data| - k, head[k..], state);
  }

  /** No tokens yet. */
  function Fresh(state: nat): Lexer {
    Lexer([], [], [], state)
  }

  lemma FreshShape(state: nat, pos: nat)
    requires state == ST_BEG || state == ST_WS || state == ST_CHOOSE
    ensures Shape(Fresh(state), pos)
  {
  }

  lemma FreshRun(data: string, pos: nat, len: nat, gap: string, state: nat)
    requires Within(data, pos, len) && At(data, pos, gap) && IsGap(gap) && |gap| <= len
    requires (state == ST_WS && gap != []) || state == ST_CHOOSE
    ensures var l, r := Fresh(state), Fresh(ST_CHOOSE);
      Shape(l, pos) && Shape(r, pos + |gap|) && Run(data, l, pos, len) == Run(data, r, pos + |gap|, len - |gap|)
  {
    hide Step, Run, Shape, IsGap, At, MayFollow, BlankNext;
    ChooseBlank(data);
    FreshShape(state, pos);
    if state == ST_WS {
      ScriptRun(data, Fresh(state), pos, len, gap);
    } else {
      GapRun(data, Fresh(state), pos, len, gap);
    }
  }

  lemma GapNoScript(head: string, rest: string)
    ensures IsGap(head) && head != [] ==> !LooksLikeScript(head + rest)
  {
    var s := head + rest;
    assert IsGap(head) && head != [] ==> s[0] in WS;
    assert |s| >= 2 ==> s[..2][0] == s[0];
  }

  lemma ScriptHead(head: string, rest: string)
    ensures LooksLikeScript(head) ==> LooksLikeScript(head + rest)
  {
    assert |head| >= 2 ==> (head + rest)[..2] == head[..2];
  }

  lemma RestLexed(data: string, pos: nat, f: seq<Node>)
    requires ValidForest(f) && 1 <= pos <= |data| + 1 && data[pos - 1..] == Print(f)
    ensures var l := INITIAL.(state := ST_CHOOSE); Shape(l, pos) && Run(data, l, pos, |data| + 1 - pos) == Lexed(f, pos)
  {
    hide Run, Shape, Sects, Types, Print, Depth, ValidForest;
    var l := INITIAL.(state := ST_CHOOSE);
    StartShapes();
    assert Slice(data, pos, |data| + 1 - pos) == data[pos - 1..];
    ForestRun(data, l, pos, |data| + 1 - pos, f);
    var r := ReadAll(l, f, pos);
    assert r == Lexer(Sects(f, pos), Types(f), [], ST_CHOOSE);
    if Depth(f) <= LIST_DEPTH_SZ {
      RunEnd(data, r, 1 + |data|);
    }
  }

  /** Lexing a printed forest: for every forest, with whatever whitespace in it and before it, after the first line
    of a script or without one, the result is the tokens of the forest, or an error when its lists are
    nested deeper than 64, exactly when the forest is not itself taken for a script. */
  lemma LexPrinted(f: seq<Node>, head: string)
    requires ValidForest(f) && IsHead(head)
    ensures var text := head + Print(f);
      if head == [] && LooksLikeScript(text) then Depth(f) <= 64 ==> Lex(text) != Lexed(f, 1)
      else Lex(text) == Lexed(f, 1 + |head|)
  {
    hide Run, Shape, Lexed, Print, Depth, ValidForest, IsHead, LooksLikeScript, Goes;
    var data := head + Print(f);
    ScriptLong(data);
    if data == [] {
      NothingLexed(f);
    } else if head == [] && LooksLikeScript(data) {
      assert data == Print(f);
      LineLost(f);
    } else {
      HeadRun(data, head, Print(f));
      RestLexed(data, 1 + |head|, f);
      WentOn(data, 1 + |head|);
    }
  }

  lemma WentOn(data: string, pos: nat)
    requires Goes(data, INITIAL, 1, Fresh(ST_CHOOSE), pos)
    ensures 1 <= pos <= |data| + 1 && Fresh(ST_CHOOSE) == INITIAL.(state := ST_CHOOSE)
    ensures Shape(Fresh(ST_CHOOSE), pos) && Lex(data) == Run(data, Fresh(ST_CHOOSE), pos, |data| + 1 - pos)
  {
    hide Run, Shape;
  }

  lemma NothingLexed(f: seq<Node>)
    requires ValidForest(f) && Print(f) == []
    ensures Lex([]) == Lexed(f, 1)
  {
    hide Run, Shape, Sects, Types, Print, Depth, ValidForest;
    StartShapes();
    RunEnd([], INITIAL, 1);
    EmptyPrint(f);
  }

  /** The first line of a forest that looks like a script is lost. */
  lemma LineLost(f: seq<Node>)
    requires ValidForest(f) && LooksLikeScript(Print(f))
    ensures Depth(f) <= 64 ==> Lex(Print(f)) != Lexed(f, 1)
  {
    hide Step, Run, Shape, Sects, Types, Print, Depth, ValidForest, LooksLikeScript, CSpan;
    var data := Print(f);
    StartShapes();
    ScriptLong(data);
    BeginStep(data);
    RunStep(data, INITIAL, 1, |data|);
    var k := CSpan(data, "\n");
    RunLate(data, INITIAL.(state := ST_WS), 1 + k, |data| - k, 2);
    ScriptBegins(f);
  }

  lemma ScriptLong(text: string)
    ensures LooksLikeScript(text) ==> text != []
  {
  }

  /** A string with something else behind it than whitespace, a closing bracket or the end of the text, and a
    symbol with a quote behind it, other than the letter of a raw string. */
  predicate Spoiled(n: Node, c: char) {
    match n
    case Str(single, three, _, _, _) => c !in WS && c != ')' && c != ']' && (three || c != QuoteChar(single))
    case RawStr(_, single, three, _, _, _) => c !in WS && c != ')' && c != ']' && (three || c != QuoteChar(single))
    case Sym(text, _) => (c == '"' || c == '\'') && text != "r" && text != "@"
    case _ => false
  }

  /** Wherever a token may begin, such a string or symbol makes the lexer refuse the text. */
  lemma SpoiledRefused(data: string, l: Lexer, pos: nat, len: nat, n: Node, c: char)
    requires InText(data, l, pos, len) && l.state == ST_CHOOSE && ValidNode(n) && Spoiled(n, c)
    requires At(data, pos, NodeBody(n) + [c]) && |NodeBody(n) + [c]| <= len
    ensures Run(data, l, pos, len) == Err
  {
    hide Run, Shape, QuotedText, RawText, BodyText, HasBack, Quotes, At, ValidBody, ValidRaw, EscType, StrType, BeginsLine, CSpan, IsCommentMark;
    var body := NodeBody(n);
    AtSplit(data, pos, body, [c]);
    var p, m := pos + |body|, len - |body|;
    AtByte(data, p, [c], 0);
    if n.Sym? {
      SpoiledSymbol(data, l, pos, len, n.text, c);
    } else if n.Str? {
      var start := pos + |Quotes(n.single, n.three)| + 2 * n.lines;
      QuotedRun(data, l, pos, len, n.single, n.three, n.lines, n.body);
      var r := DoneAt(l, start, start + |BodyText(n.body)|, EscType(n.single, n.three, HasBack(n.body)));
      DoneSpoiled(data, r, p, m);
    } else {
      var start := pos + 1 + |Quotes(n.single, n.three)| + if n.line then 2 else 0;
      RawRun(data, l, pos, len, n.at, n.single, n.three, n.line, n.bytes);
      DoneSpoiled(data, DoneAt(l, start, start + |n.bytes|, StrType(n.single, n.three)), p, m);
    }
  }

  lemma DoneSpoiled(data: string, l: Lexer, pos: nat, len: nat)
    requires InText(data, l, pos, len) && l.state == ST_LIST_END_OR_WS && len > 0
    requires data[pos - 1] !in WS && data[pos - 1] != ')' && data[pos - 1] != ']'
    ensures Run(data, l, pos, len) == Err
  {
    hide Run, Shape;
    RunStep(data, l, pos, len);
  }

  lemma SpoiledSymbol(data: string, l: Lexer, pos: nat, len: nat, text: string, c: char)
    requires InText(data, l, pos, len) && l.state == ST_CHOOSE && text != [] && CSpan(text, DELIMS) == |text|
    requires (c == '"' || c == '\'') && text != "r" && text != "@"
    requires At(data, pos, text + [c]) && |text + [c]| <= len
    ensures Run(data, l, pos, len) == Err
  {
    hide Run, Shape, Step, CSpan;
    PlainSlice(data, pos, len, text, [c]);
    var s := Slice(data, pos, len);
    assert s[|text|] == [c][0];
    CSpanIs(s, DELIMS, |text|);
    AtByte(data, pos, text + [c], 0);
    AtByte(data, pos, text + [c], 1);
    AtByte(data, pos, text + [c], |text|);
    assert |text| == 1 ==> text == [text[0]];
    var l1 := AddToken(l, Sect(pos, |text|), TYPE_SYMBOL, ST_SYMBOL_END);
    SpoiledChoice(data, l, pos, len, |text|);
    RunStep(data, l, pos, len);
    QuoteRefused(data, l1, pos + |text|, len - |text|);
    RunStep(data, l1, pos + |text|, len - |text|);
  }

  lemma SpoiledChoice(data: string, l: Lexer, pos: nat, len: nat, k: nat)
    requires InText(data, l, pos, len) && l.state == ST_CHOOSE && len > 0 && CSpan(Slice(data, pos, len), DELIMS) == k > 0
    requires len > 1 && (data[pos - 1] == '@' || data[pos - 1] == 'r') ==> data[pos] != '"' && data[pos] != '\''
    ensures Step(data, l, pos, len) == Next(AddToken(l, Sect(pos, k), TYPE_SYMBOL, ST_SYMBOL_END), k)
  {
    assert data[pos - 1] == Slice(data, pos, len)[0];
    hide Shape, CSpan;
  }

  lemma QuoteRefused(data: string, l: Lexer, pos: nat, len: nat)
    requires InText(data, l, pos, len) && l.state == ST_SYMBOL_END && len > 0 && (data[pos - 1] == '"' || data[pos - 1] == '\'')
    ensures Step(data, l, pos, len) == Err
  {
    hide Shape;
  }

  /** A forest of one symbol is lost when it looks like the start of a script. */
  lemma ScriptLost()
    ensures var f := [Sym("#!x", "")]; ValidForest(f) && Lex(Print(f)) != Lexed(f, 1)
  {
    hide Lex, Lexed, CSpan;
    var text := "#!x";
    var f := [Sym(text, "")];
    CSpanIs(text, DELIMS, 3);
    assert text[0] != ';' && text[1] != '#';
    OneSymbol(text);
    assert text[..2] == "#!";
    assert [] + text == text;
    LexPrinted(f, []);
  }

  lemma OneSymbol(text: string)
    requires text != [] && CSpan(text, DELIMS) == |text| && !IsCommentMark(text)
    ensures var f := [Sym(text, "")]; ValidForest(f) && Print(f) == text && Depth(f) == 0
  {
    hide IsCommentMark, CSpan, Marks;
    var f := [Sym(text, "")];
    MarksOnly(text);
    assert f[1..] == [];
    assert ValidNode(f[0]);
    assert text + [] + [] == text;
  }

  lemma StartShapes()
    ensures forall pos: nat, state :: state == ST_BEG || state == ST_WS || state == ST_CHOOSE ==>
      Shape(INITIAL.(state := state), pos)
  {
  }

  lemma EmptyPrint(f: seq<Node>)
    requires Print(f) == [] && ValidForest(f)
    ensures f == [] && Sects(f, 1) == [] && Types(f) == [] && Depth(f) == 0
  {
  }
}
