/** Strings as configuration text, and how the lexer reads one.

  A quoted string may begin with escaped line ends, which it leaves out, and may hold escapes, which
  it keeps; a raw string begins with an r or an @, may leave out one escaped line end, and has no
  escapes at all.
 */
module ConfQuote {
  import opened Vstr
  import opened ConfLexer

  /** What a quoted string is made of: a byte, or a byte behind a backslash. */
  datatype Chunk = Plain(c: char) | Back(c: char)

  function ChunkText(k: Chunk): (s: string)
    ensures s != []
  {
    match k
    case Plain(c) => [c]
    case Back(c) => ['\\', c]
  }

  function BodyText(body: seq<Chunk>): string {
    if body == [] then [] else ChunkText(body[0]) + BodyText(body[1..])
  }

  predicate HasBack(body: seq<Chunk>) {
    body != [] && (body[0].Back? || HasBack(body[1..]))
  }

  function QuoteChar(single: bool): char { if single then '\'' else '"' }

  function Quotes(single: bool, three: bool): string {
    var q := QuoteChar(single);
    if three then [q, q, q] else [q]
  }

  predicate Begins(s: string, t: string) {
    |t| <= |s| && s[..|t|] == t
  }

  /** A byte that neither escapes nor ends a string in the given quotes, with what comes behind it. */
  predicate PlainFits(c: char, after: string, single: bool, three: bool) {
    c != '\\' && (c != QuoteChar(single) || (three && !Begins([c] + after, Quotes(single, three))))
  }

  /** No byte of a body ends the string or escapes by itself. */
  predicate ValidBody(body: seq<Chunk>, single: bool, three: bool) {
    body != [] ==>
      && (body[0].Plain? ==> PlainFits(body[0].c, BodyText(body[1..]) + Quotes(single, three), single, three))
      && ValidBody(body[1..], single, three)
  }

  predicate BeginsLine(body: seq<Chunk>) {
    body != [] && body[0] == Back('\n')
  }

  /** Escaped line ends at the start of a string. */
  function Lines(n: nat): (s: string)
    ensures |s| == 2 * n
  {
    if n == 0 then [] else "\\\n" + Lines(n - 1)
  }

  function QuotedText(single: bool, three: bool, lines: nat, body: seq<Chunk>): string {
    Quotes(single, three) + (Lines(lines) + (BodyText(body) + Quotes(single, three)))
  }

  /** The bytes of a raw string end at its first closing quotes; an escaped line end at the start is left out. */
  predicate ValidRaw(single: bool, three: bool, line: bool, bytes: string) {
    && (forall i :: 0 <= i < |bytes| ==> !Begins((bytes + Quotes(single, three))[i..], Quotes(single, three)))
    && (!line ==> !Begins(bytes, "\\\n"))
  }

  function RawText(at: bool, single: bool, three: bool, line: bool, bytes: string): string {
    [if at then '@' else 'r'] + (Quotes(single, three) + (Lines(if line then 1 else 0) + (bytes + Quotes(single, three))))
  }

  function StrType(single: bool, three: bool): nat {
    if single then if three then TYPE_QUOTE_SSS else TYPE_QUOTE_S
    else if three then TYPE_QUOTE_DDD else TYPE_QUOTE_D
  }

  function EscType(single: bool, three: bool, esc: bool): nat {
    StrType(single, three) + if esc then TYPE_2ESC else 0
  }

  function EndState(single: bool, three: bool): nat {
    if single then if three then ST_QUOTE_SSS_END else ST_QUOTE_S_END
    else if three then ST_QUOTE_DDD_END else ST_QUOTE_D_END
  }

  // ---------------------------------------------------------------- text at a position

  predicate At(data: string, pos: nat, s: string) {
    Within(data, pos, |s|) && Slice(data, pos, |s|) == s
  }

  lemma AtSplit(data: string, pos: nat, a: string, b: string)
    requires At(data, pos, a + b)
    ensures At(data, pos, a) && At(data, pos + |a|, b)
  {
    var s := Slice(data, pos, |a + b|);
    assert s[..|a|] == a;
    assert s[|a|..] == b;
    assert s[..|a|] == data[pos - 1..pos - 1 + |a|];
    assert s[|a|..] == data[pos - 1 + |a|..pos - 1 + |a| + |b|];
  }

  lemma AtByte(data: string, pos: nat, s: string, i: nat)
    requires At(data, pos, s) && i < |s|
    ensures data[pos - 1 + i] == s[i]
  {
    assert Slice(data, pos, |s|)[i] == data[pos - 1 + i];
  }

  predicate InText(data: string, l: Lexer, pos: nat, len: nat) {
    Shape(l, pos) && Within(data, pos, len)
  }

  // ---------------------------------------------------------------- a string being read

  /** Between tokens: what holds when a string begins. */
  predicate Ready(l: Lexer) {
    l.state == ST_CHOOSE && Shape(l, 0)
  }

  lemma ReadyShape(l: Lexer, pos: nat)
    requires Shape(l, pos) && l.state == ST_CHOOSE
    ensures Ready(l)
  {
  }

  /** The string at p is open, and the last token. */
  function OpenAt(l: Lexer, p: nat, typ: nat, state: nat): Lexer {
    Lexer(l.sects + [Sect(p, 0)], l.types + [typ], l.open + [|l.sects| + 1], state)
  }

  /** It has ended just before end. */
  function DoneAt(l: Lexer, p: nat, end: nat, typ: nat): Lexer
    requires p <= end
  {
    Lexer(l.sects + [Sect(p, end - p)], l.types + [typ], l.open, ST_LIST_END_OR_WS)
  }

  lemma OpenShape(l: Lexer, p: nat, pos: nat, typ: nat, state: nat)
    requires Ready(l) && p <= pos && IsQuote(typ) && InQuote(state)
    ensures var r := OpenAt(l, p, typ, state);
      Shape(r, pos) && r.open != [] && Top(r) - 1 == |l.sects| == |l.types| && r.sects[|l.sects|] == Sect(p, 0) && r.types[|l.sects|] == typ
  {
  }

  lemma EndOpen(l: Lexer, p: nat, pos: nat, typ: nat, state: nat)
    requires Ready(l) && p <= pos && IsQuote(typ) && InQuote(state) && Shape(OpenAt(l, p, typ, state), pos)
    ensures EndQuote(OpenAt(l, p, typ, state), pos) == DoneAt(l, p, pos, typ)
  {
    OpenShape(l, p, pos, typ, state);
    hide Shape;
  }

  lemma Kinds(single: bool, three: bool, esc: bool)
    ensures IsQuote(EscType(single, three, esc)) && InQuote(EndState(single, three))
    ensures InQuote(EndState(single, three) + QUOTE2UNQUOTE_END)
  {
  }

  /** The open string whose bytes are being read, with escapes so far or without. */
  function Quoted(l: Lexer, p: nat, single: bool, three: bool, esc: bool): Lexer {
    OpenAt(l, p, EscType(single, three, esc), EndState(single, three))
  }

  lemma QuotedShape(l: Lexer, p: nat, pos: nat, single: bool, three: bool, esc: bool)
    requires Ready(l) && p <= pos
    ensures var r := Quoted(l, p, single, three, esc);
      && Shape(r, pos) && InQuote(r.state) && r.open != [] && Top(r) - 1 == |l.sects| == |l.types|
      && r.sects[|l.sects|] == Sect(p, 0) && r.types[|l.sects|] == EscType(single, three, esc)
  {
    hide Shape, EscType, EndState;
    Kinds(single, three, esc);
    OpenShape(l, p, pos, EscType(single, three, esc), EndState(single, three));
  }

  /** What a step inside a quoted string is, by its quotes. */
  lemma InsideStep(data: string, l: Lexer, pos: nat, len: nat, single: bool, three: bool)
    requires InText(data, l, pos, len) && l.state == EndState(single, three) && len > 0
    ensures var q, typ := QuoteChar(single), StrType(single, three);
      Step(data, l, pos, len) == if three then QuoteXxxEnd(data, l, pos, len, q, typ) else QuoteXEnd(data, l, pos, len, q, typ)
  {
    hide Shape, QuoteXxxEnd, QuoteXEnd;
  }

  lemma FirstByte(data: string, pos: nat, len: nat, stop: string)
    requires Within(data, pos, len) && len > 0
    ensures CSpan(Slice(data, pos, len), stop) == 0 <==> data[pos - 1] in stop
  {
    assert Slice(data, pos, len)[0] == data[pos - 1];
  }

  lemma PrefixFirst(data: string, pos: nat, len: nat, t: string)
    requires Within(data, pos, len) && len > 0 && t != [] && data[pos - 1] != t[0]
    ensures !HasPrefix(data, pos, len, t)
  {
    if |t| <= len {
      assert Slice(data, pos, |t|)[0] == data[pos - 1];
    }
  }

  /** A backslash inside a string. */
  lemma BackStep(data: string, l: Lexer, pos: nat, len: nat, single: bool, three: bool)
    requires InText(data, l, pos, len) && l.state == EndState(single, three) && len > 0 && data[pos - 1] == '\\'
    ensures Step(data, l, pos, len) == EscQuote(data, l, pos, len, StrType(single, three))
  {
    hide Shape, EscQuote, HasPrefix, CSpan, Step;
    InsideStep(data, l, pos, len, single, three);
    var q := QuoteChar(single);
    FirstByte(data, pos, len, [q, '\\']);
    PrefixFirst(data, pos, len, [q, q, q]);
  }

  /** An escape is kept, and makes the string one with escapes. */
  lemma EscapeStep(data: string, l: Lexer, p: nat, pos: nat, len: nat, single: bool, three: bool, esc: bool)
    requires Ready(l) && p <= pos && Within(data, pos, len) && len > 1 && Shape(Quoted(l, p, single, three, esc), pos)
    requires data[pos - 1] == '\\' && (data[pos] == '\n' ==> p < pos)
    ensures Step(data, Quoted(l, p, single, three, esc), pos, len) == Next(Quoted(l, p, single, three, true), 2)
  {
    hide Shape, Step, EndState;
    var r := Quoted(l, p, single, three, esc);
    QuotedShape(l, p, pos, single, three, esc);
    BackStep(data, r, pos, len, single, three);
    assert Slice(data, pos, 2)[1] == data[pos];
    assert r.types[|l.sects| := EscType(single, three, true)] == l.types + [EscType(single, three, true)];
  }

  /** An escaped line end at the start is not part of the string. */
  lemma LineStep(data: string, l: Lexer, p: nat, len: nat, single: bool, three: bool)
    requires Ready(l) && Within(data, p, len) && len > 1 && Shape(Quoted(l, p, single, three, false), p)
    requires At(data, p, "\\\n")
    ensures Step(data, Quoted(l, p, single, three, false), p, len) == Next(Quoted(l, p + 2, single, three, false), 2)
  {
    hide Shape, Step, EndState;
    var r := Quoted(l, p, single, three, false);
    QuotedShape(l, p, p, single, three, false);
    AtByte(data, p, "\\\n", 0);
    BackStep(data, r, p, len, single, three);
    assert r.sects[|l.sects| := Sect(p + 2, 0)] == l.sects + [Sect(p + 2, 0)];
  }

  lemma CloseStep(data: string, l: Lexer, p: nat, pos: nat, len: nat, single: bool, three: bool, esc: bool)
    requires Ready(l) && p <= pos && Within(data, pos, len) && Shape(Quoted(l, p, single, three, esc), pos)
    requires At(data, pos, Quotes(single, three)) && |Quotes(single, three)| <= len
    ensures Step(data, Quoted(l, p, single, three, esc), pos, len)
         == Next(DoneAt(l, p, pos, EscType(single, three, esc)), |Quotes(single, three)|)
  {
    hide Shape, Step, EndState, EscType, EndQuote, CSpan;
    var r := Quoted(l, p, single, three, esc);
    Kinds(single, three, esc);
    InsideStep(data, r, pos, len, single, three);
    AtByte(data, pos, Quotes(single, three), 0);
    FirstByte(data, pos, len, [QuoteChar(single), '\\']);
    EndOpen(l, p, pos, EscType(single, three, esc), EndState(single, three));
  }

  /** A byte of a string may be skipped by itself. */
  lemma PlainRun(data: string, l: Lexer, pos: nat, len: nat, single: bool, three: bool)
    requires InText(data, l, pos, len) && l.state == EndState(single, three) && len > 0 && Shape(l, pos + 1)
    requires data[pos - 1] != QuoteChar(single) && data[pos - 1] != '\\'
    ensures Run(data, l, pos, len) == Run(data, l, pos + 1, len - 1)
  {
    hide Shape, Run, CSpan, Step, EndState;
    var stop := [QuoteChar(single), '\\'];
    var rest := Slice(data, pos + 1, len - 1);
    assert Slice(data, pos, len) == [data[pos - 1]] + rest;
    CSpanIs([data[pos - 1]] + rest, stop, 1 + CSpan(rest, stop));
    RunStep(data, l, pos, len);
    InsideStep(data, l, pos, len, single, three);
    if CSpan(rest, stop) > 0 {
      RunStep(data, l, pos + 1, len - 1);
      InsideStep(data, l, pos + 1, len - 1, single, three);
    }
  }

  /** A quote inside a string in three quotes. */
  lemma QuoteStep(data: string, l: Lexer, pos: nat, len: nat, single: bool)
    requires InText(data, l, pos, len) && l.state == EndState(single, true) && len > 0
    requires data[pos - 1] == QuoteChar(single) && !HasPrefix(data, pos, len, Quotes(single, true))
    ensures Step(data, l, pos, len) == Next(l, 1)
  {
    hide Shape, Step, EndState, CSpan, HasPrefix;
    InsideStep(data, l, pos, len, single, true);
    FirstByte(data, pos, len, [QuoteChar(single), '\\']);
  }

  lemma NoPrefix(data: string, pos: nat, len: nat, s: string, t: string)
    requires Within(data, pos, len) && At(data, pos, s) && |s| <= len && |t| <= |s|
    ensures HasPrefix(data, pos, len, t) <==> Begins(s, t)
  {
    assert s[..|t|] == Slice(data, pos, |t|);
  }

  // ---------------------------------------------------------------- the bytes of a quoted string

  lemma ChunkRun(data: string, l: Lexer, p: nat, pos: nat, len: nat, single: bool, three: bool, esc: bool, k: Chunk, after: string)
    requires Ready(l) && p <= pos && Within(data, pos, len) && Shape(Quoted(l, p, single, three, esc), pos)
    requires At(data, pos, ChunkText(k) + after) && |ChunkText(k) + after| <= len && |after| >= |Quotes(single, three)|
    requires k == Back('\n') ==> p < pos
    requires k.Plain? ==> PlainFits(k.c, after, single, three)
    ensures var n := |ChunkText(k)|; var r := Quoted(l, p, single, three, esc || k.Back?);
            Shape(r, pos + n) && Run(data, Quoted(l, p, single, three, esc), pos, len) == Run(data, r, pos + n, len - n)
  {
    hide Shape, Run, Step, Quoted, HasPrefix, At;
    var l1, q := Quoted(l, p, single, three, esc), Quotes(single, three);
    QuotedState(l, p, single, three, esc);
    QuotedShape(l, p, pos + |ChunkText(k)|, single, three, esc || k.Back?);
    AtByte(data, pos, ChunkText(k) + after, 0);
    if k.Back? {
      AtByte(data, pos, ChunkText(k) + after, 1);
      EscapeStep(data, l, p, pos, len, single, three, esc);
      RunStep(data, l1, pos, len);
    } else if k.c == QuoteChar(single) {
      NoPrefix(data, pos, len, ChunkText(k) + after, q);
      QuoteStep(data, l1, pos, len, single);
      RunStep(data, l1, pos, len);
    } else {
      PlainRun(data, l1, pos, len, single, three);
    }
  }

  lemma QuotedState(l: Lexer, p: nat, single: bool, three: bool, esc: bool)
    ensures Quoted(l, p, single, three, esc).state == EndState(single, three)
  {
  }

  lemma BodyStep(body: seq<Chunk>, q: string)
    requires body != []
    ensures BodyText(body) + q == ChunkText(body[0]) + (BodyText(body[1..]) + q)
    ensures |BodyText(body)| == |ChunkText(body[0])| + |BodyText(body[1..])|
    ensures HasBack(body) == (body[0].Back? || HasBack(body[1..]))
  {
    hide ChunkText;
    var e, more := ChunkText(body[0]), BodyText(body[1..]);
    assert BodyText(body) == e + more;
    assert (e + more) + q == e + (more + q);
  }

  lemma {:induction false} BodyRun(data: string, l: Lexer, p: nat, pos: nat, len: nat, single: bool, three: bool, esc: bool, body: seq<Chunk>)
    requires Ready(l) && p <= pos && Within(data, pos, len) && Shape(Quoted(l, p, single, three, esc), pos)
    requires At(data, pos, BodyText(body) + Quotes(single, three)) && |BodyText(body) + Quotes(single, three)| <= len
    requires ValidBody(body, single, three) && (BeginsLine(body) ==> p < pos)
    ensures var n := |BodyText(body)|; var r := Quoted(l, p, single, three, esc || HasBack(body));
            Shape(r, pos + n) && Run(data, Quoted(l, p, single, three, esc), pos, len) == Run(data, r, pos + n, len - n)
    decreases |body|
  {
    hide Shape, Run, Quoted, At, ChunkText, BodyText, HasBack, Quotes, PlainFits;
    if body != [] {
      var e := ChunkText(body[0]);
      var after := BodyText(body[1..]) + Quotes(single, three);
      BodyStep(body, Quotes(single, three));
      ChunkRun(data, l, p, pos, len, single, three, esc, body[0], after);
      AtSplit(data, pos, e, after);
      BodyRun(data, l, p, pos + |e|, len - |e|, single, three, esc || body[0].Back?, body[1..]);
    } else {
      NoBody();
    }
  }

  lemma NoBody()
    ensures BodyText([]) == [] && !HasBack([])
  {
  }

  lemma {:induction false} LinesRun(data: string, l: Lexer, p: nat, len: nat, single: bool, three: bool, lines: nat)
    requires Ready(l) && Within(data, p, len) && Shape(Quoted(l, p, single, three, false), p)
    requires At(data, p, Lines(lines)) && 2 * lines <= len
    ensures var r := Quoted(l, p + 2 * lines, single, three, false);
      && Shape(r, p + 2 * lines)
      && Run(data, Quoted(l, p, single, three, false), p, len) == Run(data, r, p + 2 * lines, len - 2 * lines)
    decreases lines
  {
    hide Shape, Run, Step, Quoted, At;
    if lines > 0 {
      AtSplit(data, p, "\\\n", Lines(lines - 1));
      LineStep(data, l, p, len, single, three);
      RunStep(data, Quoted(l, p, single, three, false), p, len);
      QuotedShape(l, p + 2, p + 2, single, three, false);
      LinesRun(data, l, p + 2, len - 2, single, three, lines - 1);
    }
  }

  // ---------------------------------------------------------------- opening quotes

  /** One quote is not the first of three. */
  predicate NotThree(data: string, pos: nat, len: nat, single: bool) {
    Within(data, pos, len) && (len > 2 ==> data[pos] != QuoteChar(single) || data[pos + 1] != QuoteChar(single))
  }

  lemma OpenSteps(data: string, l: Lexer, pos: nat, len: nat, single: bool, three: bool)
    requires InText(data, l, pos, len) && l.state == ST_CHOOSE && |Quotes(single, three)| < len
    requires At(data, pos, Quotes(single, three)) && (!three ==> NotThree(data, pos, len, single))
    ensures var l1 := BegQuote(l, pos, single).l;
            && Step(data, l, pos, len) == Next(l1, 1)
            && Step(data, l1, pos + 1, len - 1) == Next(BegQuoteXxx(l1, pos + 1, three), if three then 2 else 0)
  {
    hide Shape;
    var q := QuoteChar(single);
    AtByte(data, pos, Quotes(single, three), 0);
    if three {
      AtByte(data, pos, Quotes(single, three), 1);
      AtByte(data, pos, Quotes(single, three), 2);
    }
    if len > 2 {
      assert Slice(data, pos + 1, 2) == [data[pos], data[pos + 1]];
    }
  }

  /** The state after the opening quotes. */
  lemma OpenedIs(l: Lexer, pos: nat, single: bool, three: bool)
    requires Shape(l, pos) && l.state == ST_CHOOSE
    ensures BegQuoteXxx(BegQuote(l, pos, single).l, pos + 1, three) == Quoted(l, pos + |Quotes(single, three)|, single, three, false)
  {
  }

  lemma OpenRun(data: string, l: Lexer, pos: nat, len: nat, single: bool, three: bool)
    requires InText(data, l, pos, len) && l.state == ST_CHOOSE && |Quotes(single, three)| < len
    requires At(data, pos, Quotes(single, three)) && (!three ==> NotThree(data, pos, len, single))
    ensures var n := |Quotes(single, three)|; var r := Quoted(l, pos + n, single, three, false);
            Shape(r, pos + n) && Run(data, l, pos, len) == Run(data, r, pos + n, len - n)
  {
    hide Run, Shape, Step, NotThree, Quoted;
    OpenSteps(data, l, pos, len, single, three);
    OpenedIs(l, pos, single, three);
    RunStep(data, l, pos, len);
    RunStep(data, BegQuote(l, pos, single).l, pos + 1, len - 1);
  }

  /** What follows a string does not go on with its quotes. */
  predicate QuoteStops(data: string, pos: nat, len: nat, single: bool) {
    Within(data, pos, len) && (len > 0 ==> data[pos - 1] != QuoteChar(single))
  }

  /** The text of a string, and something behind it that leaves its closing quotes alone. */
  predicate Fits(data: string, pos: nat, len: nat, s: string, single: bool, three: bool) {
    At(data, pos, s) && |s| <= len && (!three ==> QuoteStops(data, pos + |s|, len - |s|, single))
  }

  lemma OneQuote(data: string, pos: nat, len: nat, single: bool, inner: string)
    requires Within(data, pos, len) && |inner| + 2 <= len && At(data, pos, [QuoteChar(single)] + (inner + [QuoteChar(single)]))
    requires inner != [] ==> inner[0] != QuoteChar(single)
    requires QuoteStops(data, pos + 2 + |inner|, len - 2 - |inner|, single)
    ensures NotThree(data, pos, len, single)
  {
    var s := [QuoteChar(single)] + (inner + [QuoteChar(single)]);
    AtByte(data, pos, s, 1);
  }

  lemma FirstOf(single: bool, lines: nat, body: seq<Chunk>)
    requires ValidBody(body, single, false)
    ensures var s := Lines(lines) + BodyText(body); s != [] ==> s[0] != QuoteChar(single)
  {
  }

  /** A quoted string is read as one token over its body, and has escapes exactly when its body does. */
  lemma QuotedRun(data: string, l: Lexer, pos: nat, len: nat, single: bool, three: bool, lines: nat, body: seq<Chunk>)
    requires InText(data, l, pos, len) && l.state == ST_CHOOSE
    requires Fits(data, pos, len, QuotedText(single, three, lines, body), single, three)
    requires ValidBody(body, single, three) && !BeginsLine(body)
    ensures var k := |QuotedText(single, three, lines, body)|;
            var p := pos + |Quotes(single, three)| + 2 * lines;
            var r := DoneAt(l, p, p + |BodyText(body)|, EscType(single, three, HasBack(body)));
            Shape(r, pos + k) && Run(data, l, pos, len) == Run(data, r, pos + k, len - k)
  {
    hide Run, Shape, Step, Quotes, BodyText, HasBack, At, Quoted, EscType, DoneAt, ValidBody, BeginsLine, NotThree, QuoteStops, Ready;
    var q, text, before := Quotes(single, three), BodyText(body), Lines(lines);
    ReadyShape(l, pos);
    QuotesLong(single, three);
    AtSplit(data, pos, q, before + (text + q));
    if !three {
      FirstOf(single, lines, body);
      OneQuoted(single, lines, body);
      OneQuote(data, pos, len, single, before + text);
    }
    OpenRun(data, l, pos, len, single, three);
    var p0, m0 := pos + |q|, len - |q|;
    AtSplit(data, p0, before, text + q);
    LinesRun(data, l, p0, m0, single, three, lines);
    var p, m := p0 + 2 * lines, m0 - 2 * lines;
    BodyRun(data, l, p, p, m, single, three, false, body);
    AtSplit(data, p, text, q);
    var end := p + |text|;
    CloseStep(data, l, p, end, m - |text|, single, three, HasBack(body));
    RunStep(data, Quoted(l, p, single, three, HasBack(body)), end, m - |text|);
  }

  lemma QuotesLong(single: bool, three: bool)
    ensures |Quotes(single, three)| == if three then 3 else 1
  {
  }

  lemma OneQuoted(single: bool, lines: nat, body: seq<Chunk>)
    ensures QuotedText(single, false, lines, body)
         == [QuoteChar(single)] + ((Lines(lines) + BodyText(body)) + [QuoteChar(single)])
  {
  }

  // ---------------------------------------------------------------- raw strings

  /** An open raw string. */
  function RawAt(l: Lexer, p: nat, single: bool, three: bool): Lexer {
    OpenAt(l, p, StrType(single, three), EndState(single, three) + QUOTE2UNQUOTE_END)
  }

  lemma RawShape(l: Lexer, p: nat, pos: nat, single: bool, three: bool)
    requires Ready(l) && p <= pos
    ensures Shape(RawAt(l, p, single, three), pos)
  {
    hide Shape;
    Kinds(single, three, false);
    OpenShape(l, p, pos, StrType(single, three), EndState(single, three) + QUOTE2UNQUOTE_END);
  }

  /** The letter before a raw string. */
  lemma LetterStep(data: string, l: Lexer, pos: nat, len: nat)
    requires InText(data, l, pos, len) && l.state == ST_CHOOSE && len > 1
    requires data[pos - 1] == '@' || data[pos - 1] == 'r'
    requires data[pos] == '"' || data[pos] == '\''
    ensures Step(data, l, pos, len) == Next(l.(state := ST_UNQUOTE_BEG), 1)
  {
    hide Shape;
  }

  lemma RawOpened(l: Lexer, pos: nat, single: bool, three: bool)
    requires Shape(l, pos) && l.state == ST_UNQUOTE_BEG
    ensures var n := |Quotes(single, three)|; var r := BegQuoteXxx(BegQuote(l, pos, single).l, pos + 1, three);
      && Shape(r, pos + n) && ST_QUOTE_D_END <= r.state <= ST_QUOTE_SSS_END
      && Raw(r, pos + n) == RawAt(l, pos + n, single, three)
  {
    OpenedRaw(l, pos, single, three);
  }

  lemma OpenedRaw(l: Lexer, pos: nat, single: bool, three: bool)
    requires Shape(l, pos) && l.state == ST_UNQUOTE_BEG
    ensures BegQuoteXxx(BegQuote(l, pos, single).l, pos + 1, three) == Quoted(l, pos + |Quotes(single, three)|, single, three, false)
  {
  }

  /** Three quotes are three quotes, and one is one. */
  lemma Prefixes(data: string, pos: nat, len: nat, single: bool, three: bool)
    requires Within(data, pos, len) && At(data, pos, Quotes(single, three)) && |Quotes(single, three)| <= len
    requires !three ==> NotThree(data, pos, len, single)
    ensures HasPrefix(data, pos, len, "\"") == !single && HasPrefix(data, pos, len, "'") == single
    ensures (HasPrefix(data, pos, len, "\"\"\"") || HasPrefix(data, pos, len, "'''")) == three
  {
    AtByte(data, pos, Quotes(single, three), 0);
    assert Slice(data, pos, 1)[0] == data[pos - 1];
    if len > 2 {
      assert Slice(data, pos, 3) == [data[pos - 1], data[pos], data[pos + 1]];
    }
  }

  lemma SkipRaw(l: Lexer, p: nat, single: bool, three: bool)
    requires Ready(l) && Shape(RawAt(l, p, single, three), p)
    ensures InQuote(RawAt(l, p, single, three).state)
    ensures SkipFirstLine(RawAt(l, p, single, three), p) == RawAt(l, p + 2, single, three)
  {
    Kinds(single, three, false);
    OpenShape(l, p, p, StrType(single, three), EndState(single, three) + QUOTE2UNQUOTE_END);
    hide Shape;
  }

  lemma RawBegStep(data: string, l: Lexer, pos: nat, len: nat, single: bool, three: bool, line: bool)
    requires Ready(l) && InText(data, l.(state := ST_UNQUOTE_BEG), pos, len) && |Quotes(single, three)| < len
    requires At(data, pos, Quotes(single, three)) && (!three ==> NotThree(data, pos, len, single))
    requires var n := |Quotes(single, three)|; HasPrefix(data, pos + n, len - n, "\\\n") == line
    ensures var k := |Quotes(single, three)| + if line then 2 else 0;
      Step(data, l.(state := ST_UNQUOTE_BEG), pos, len) == Next(RawAt(l, pos + k, single, three), k)
  {
    hide Shape, Ready, RawAt, Step, BegUnquote, HasPrefix, At, NotThree, Quotes, SkipFirstLine;
    var l0, n := l.(state := ST_UNQUOTE_BEG), |Quotes(single, three)|;
    BegUnquoteStep(data, l0, pos, len);
    RawSame(l, l0, pos + n, single, three);
    RawShape(l, pos + n, pos + n, single, three);
    SkipRaw(l, pos + n, single, three);
    QuotesLong(single, three);
    Prefixes(data, pos, len, single, three);
    RawOpened(l0, pos, single, three);
    UnquoteIs(data, l0, pos, len, single, three);
  }

  /** The start of a raw string, its quotes known. */
  lemma UnquoteIs(data: string, l: Lexer, pos: nat, len: nat, single: bool, three: bool)
    requires InText(data, l, pos, len) && l.state == ST_UNQUOTE_BEG && |Quotes(single, three)| <= len
    requires HasPrefix(data, pos, len, "\"") == !single && HasPrefix(data, pos, len, "'") == single
    requires (HasPrefix(data, pos, len, "\"\"\"") || HasPrefix(data, pos, len, "'''")) == three
    requires var n := |Quotes(single, three)|; Shape(RawAt(l, pos + n, single, three), pos + n) && InQuote(RawAt(l, pos + n, single, three).state)
    ensures var n := |Quotes(single, three)|; var r := RawAt(l, pos + n, single, three);
      BegUnquote(data, l, pos, len)
      == if HasPrefix(data, pos + n, len - n, "\\\n") then Next(SkipFirstLine(r, pos + n), n + 2) else Next(r, n)
  {
    hide Shape, RawAt, HasPrefix, SkipFirstLine, Quotes, Raw, BegQuoteXxx, BegQuote;
    QuotesLong(single, three);
    RawOpened(l, pos, single, three);
  }

  lemma BegUnquoteStep(data: string, l: Lexer, pos: nat, len: nat)
    requires InText(data, l, pos, len) && l.state == ST_UNQUOTE_BEG && len > 0
    ensures Step(data, l, pos, len) == BegUnquote(data, l, pos, len)
  {
    hide Shape, BegUnquote;
  }

  lemma RawSame(l: Lexer, l0: Lexer, p: nat, single: bool, three: bool)
    requires l0 == l.(state := ST_UNQUOTE_BEG)
    ensures RawAt(l0, p, single, three) == RawAt(l, p, single, three)
  {
  }

  /** What a step inside a raw string is, by its quotes. */
  lemma RawStep(data: string, l: Lexer, pos: nat, len: nat, single: bool, three: bool)
    requires InText(data, l, pos, len) && l.state == EndState(single, three) + QUOTE2UNQUOTE_END && len > 0 && InQuote(l.state)
    ensures Step(data, l, pos, len) == UnquoteEnd(data, l, pos, len, Quotes(single, three))
  {
    hide Shape, UnquoteEnd;
  }

  lemma RawFound(data: string, pos: nat, len: nat, bytes: string, close: string)
    requires Within(data, pos, len) && At(data, pos, bytes + close) && |bytes + close| <= len && close != []
    requires forall i :: 0 <= i < |bytes| ==> !Begins((bytes + close)[i..], close)
    ensures Search(data, pos, len, close) == pos + |bytes|
  {
    var s := bytes + close;
    AtSplit(data, pos, bytes, close);
    forall q | pos <= q < pos + |bytes|
      ensures q + |close| <= pos + len && Slice(data, q, |close|) != close
    {
      AtSplit(data, pos, s[..q - pos], s[q - pos..]);
      assert s == s[..q - pos] + s[q - pos..];
      NoPrefix(data, q, len - (q - pos), s[q - pos..], close);
    }
  }

  /** A raw string is read as one token over its bytes, which it is without any escapes. */
  lemma RawRun(data: string, l: Lexer, pos: nat, len: nat, at: bool, single: bool, three: bool, line: bool, bytes: string)
    requires InText(data, l, pos, len) && l.state == ST_CHOOSE && ValidRaw(single, three, line, bytes)
    requires Fits(data, pos, len, RawText(at, single, three, line, bytes), single, three)
    ensures var k := |RawText(at, single, three, line, bytes)|;
            var p := pos + 1 + |Quotes(single, three)| + if line then 2 else 0;
            var r := DoneAt(l, p, p + |bytes|, StrType(single, three));
            Shape(r, pos + k) && Run(data, l, pos, len) == Run(data, r, pos + k, len - k)
  {
    hide Run, Shape, Step, Quotes, At, RawAt, StrType, DoneAt, NotThree, QuoteStops, Ready, Lines, Search, UnquoteEnd, HasPrefix, EndQuote, Begins, Slice;
    var q, before := Quotes(single, three), Lines(if line then 1 else 0);
    ReadyShape(l, pos);
    QuotesLong(single, three);
    RawOpens(data, l, pos, len, at, single, three, line, bytes);
    var p := pos + 1 + |q| + |before|;
    var m := len - 1 - |q| - |before|;
    var r := RawAt(l, p, single, three);
    RawFound(data, p, m, bytes, q);
    RawCloses(data, l, p, m, single, three, |bytes|);
    RunStep(data, r, p, m);
  }

  lemma RawCloses(data: string, l: Lexer, p: nat, len: nat, single: bool, three: bool, n: nat)
    requires Ready(l) && Within(data, p, len) && Shape(RawAt(l, p, single, three), p) && n + |Quotes(single, three)| <= len
    requires Quotes(single, three) != [] && Search(data, p, len, Quotes(single, three)) == p + n && p > 0
    ensures Step(data, RawAt(l, p, single, three), p, len)
         == Next(DoneAt(l, p, p + n, StrType(single, three)), n + |Quotes(single, three)|)
    ensures len > 0
  {
    hide Shape, Step, Search, Quotes, EndQuote, StrType, EndState;
    Kinds(single, three, false);
    RawTyped(single, three);
    RawStep(data, RawAt(l, p, single, three), p, len, single, three);
    RawShape(l, p, p + n, single, three);
    EndOpen(l, p, p + n, StrType(single, three), EndState(single, three) + QUOTE2UNQUOTE_END);
  }

  lemma RawTyped(single: bool, three: bool)
    ensures IsQuote(StrType(single, three))
  {
  }

  /** The letter, the opening quotes and the escaped line end. */
  lemma RawOpens(data: string, l: Lexer, pos: nat, len: nat, at: bool, single: bool, three: bool, line: bool, bytes: string)
    requires InText(data, l, pos, len) && l.state == ST_CHOOSE && ValidRaw(single, three, line, bytes)
    requires Fits(data, pos, len, RawText(at, single, three, line, bytes), single, three)
    ensures var q := Quotes(single, three); var p := pos + 1 + |q| + if line then 2 else 0; var m := len - (p - pos);
            var r := RawAt(l, p, single, three);
            && |bytes + q| <= m && At(data, p, bytes + q)
            && Shape(r, p) && Run(data, l, pos, len) == Run(data, r, p, m)
  {
    hide Run, Shape, Step, Quotes, At, RawAt, StrType, DoneAt, NotThree, Ready, QuoteStops, HasPrefix;
    var q, before := Quotes(single, three), Lines(if line then 1 else 0);
    ReadyShape(l, pos);
    var rest := before + (bytes + q);
    AtSplit(data, pos, [if at then '@' else 'r'], q + rest);
    AtSplit(data, pos + 1, q, rest);
    AtSplit(data, pos + 1 + |q|, before, bytes + q);
    AtByte(data, pos, [if at then '@' else 'r'], 0);
    QuoteFirst(single, three);
    AtByte(data, pos + 1, q, 0);
    LetterStep(data, l, pos, len);
    RunStep(data, l, pos, len);
    if !three {
      RawNotThree(data, pos, len, at, single, line, bytes);
    }
    RawLine(data, pos + 1 + |q|, len - 1 - |q|, line, bytes, single, three);
    var l0 := l.(state := ST_UNQUOTE_BEG);
    RawBegStep(data, l, pos + 1, len - 1, single, three, line);
    RunStep(data, l0, pos + 1, len - 1);
  }

  lemma QuoteFirst(single: bool, three: bool)
    ensures var q := Quotes(single, three); |q| == (if three then 3 else 1) && q[0] == QuoteChar(single)
    ensures QuoteChar(single) == '"' || QuoteChar(single) == '\''
  {
  }

  lemma RawNotThree(data: string, pos: nat, len: nat, at: bool, single: bool, line: bool, bytes: string)
    requires ValidRaw(single, false, line, bytes) && Within(data, pos, len)
    requires Fits(data, pos, len, RawText(at, single, false, line, bytes), single, false)
    ensures NotThree(data, pos + 1, len - 1, single)
  {
    var q, before := QuoteChar(single), Lines(if line then 1 else 0);
    var inner := before + bytes;
    assert RawText(at, single, false, line, bytes) == [if at then '@' else 'r'] + ([q] + (inner + [q]));
    AtSplit(data, pos, [if at then '@' else 'r'], [q] + (inner + [q]));
    if !line && bytes != [] {
      assert (bytes + [q])[0..][..1] == [bytes[0]];
      assert !Begins((bytes + [q])[0..], [q]);
    }
    OneQuote(data, pos + 1, len - 1, single, inner);
  }

  lemma RawLine(data: string, pos: nat, len: nat, line: bool, bytes: string, single: bool, three: bool)
    requires ValidRaw(single, three, line, bytes) && Within(data, pos, len)
    requires var s := Lines(if line then 1 else 0) + (bytes + Quotes(single, three)); At(data, pos, s) && |s| <= len
    ensures HasPrefix(data, pos, len, "\\\n") == line
  {
    var q := Quotes(single, three);
    var s := Lines(if line then 1 else 0) + (bytes + q);
    if line {
      assert Lines(1) == "\\\n" + Lines(0);
      assert s[..2] == "\\\n";
      NoPrefix(data, pos, len, s, "\\\n");
    } else {
      assert s == bytes + q;
      AtByte(data, pos, s, 0);
      if |s| >= 2 {
        NoPrefix(data, pos, len, s, "\\\n");
        if |bytes| >= 2 {
          assert s[..2] == bytes[..2];
        } else {
          assert s[..2][|bytes|] == QuoteChar(single);
        }
      } else {
        PrefixFirst(data, pos, len, "\\\n");
      }
    }
  }
}
