/** The configuration lexer of conf.c as a function of the text: one state, one step, one run.

  `ConfParse.Lex` in ConfParse.dfy is the loop itself; it is proved equal to `Run` here, and what
  the lexer promises is proved about `Run`.
 */
module ConfLexer {
  import opened Vstr

  const ST_BEG := 0
  const ST_WS := 1
  const ST_LIST_END_OR_WS := 2
  const ST_CHOOSE := 3
  const ST_QUOTE_D_BEG := 4
  const ST_QUOTE_S_BEG := 5
  const ST_UNQUOTE_BEG := 6
  const ST_QUOTE_D_END := 7
  const ST_QUOTE_DDD_END := 8
  const ST_QUOTE_S_END := 9
  const ST_QUOTE_SSS_END := 10
  const ST_UNQUOTE_D_END := 11
  const ST_UNQUOTE_DDD_END := 12
  const ST_UNQUOTE_S_END := 13
  const ST_UNQUOTE_SSS_END := 14
  const ST_SYMBOL_END := 15
  const ST_END := 16

  const QUOTE_X2XXX := ST_QUOTE_DDD_END - ST_QUOTE_D_END
  const QUOTE2UNQUOTE_END := ST_UNQUOTE_D_END - ST_QUOTE_D_END

  const LIST_DEPTH_SZ := 64

  const TYPE_ERR := 0
  const TYPE_CLIST := 1
  const TYPE_SLIST := 2
  const TYPE_QUOTE_D := 3
  const TYPE_QUOTE_ESC_D := 4
  const TYPE_QUOTE_DDD := 5
  const TYPE_QUOTE_ESC_DDD := 6
  const TYPE_QUOTE_S := 7
  const TYPE_QUOTE_ESC_S := 8
  const TYPE_QUOTE_SSS := 9
  const TYPE_QUOTE_ESC_SSS := 10
  const TYPE_SYMBOL := 11
  const TYPE_USER_BEG := 12

  const TYPE_2ESC := TYPE_QUOTE_ESC_D - TYPE_QUOTE_D

  const WS := " \t\U{0b}\r\n"
  const DELIMS := " \t\U{0b}\r\n\"'()[]"

  /** What the lexer knows: the tokens so far (a section and a type each), the stack of tokens not
    yet ended (their numbers, counted from 1) and the state. */
  datatype Lexer = Lexer(sects: seq<Sect>, types: seq<nat>, open: seq<nat>, state: nat)

  datatype Outcome = Err | Next(l: Lexer, plen: nat)

  const INITIAL := Lexer([], [], [], ST_BEG)

  predicate IsList(t: nat) { t == TYPE_CLIST || t == TYPE_SLIST }

  predicate IsQuote(t: nat) { TYPE_QUOTE_D <= t <= TYPE_QUOTE_ESC_SSS }

  /** Inside a quoted string, after its opening quotes. */
  predicate InQuote(state: nat) { ST_QUOTE_D_END <= state <= ST_UNQUOTE_SSS_END }

  predicate InQuoteBeg(state: nat) { state == ST_QUOTE_D_BEG || state == ST_QUOTE_S_BEG }

  /** The states that may consume nothing come before those that cannot. */
  function Rank(state: nat): nat {
    if state == ST_BEG || InQuoteBeg(state) then 1 else 0
  }

  function Top(l: Lexer): nat
    requires l.open != []
  {
    l.open[|l.open| - 1]
  }

  /** What every step needs of the state it starts from. */
  predicate Shape(l: Lexer, pos: nat) {
    && |l.types| == |l.sects|
    && (forall i :: 0 <= i < |l.open| ==> 1 <= l.open[i] <= |l.sects|)
    && |l.open| <= LIST_DEPTH_SZ + 1
    && (InQuote(l.state) || InQuoteBeg(l.state) ==>
          l.open != [] && l.sects[Top(l) - 1].pos <= pos && IsQuote(l.types[Top(l) - 1]))
    && (!InQuote(l.state) && !InQuoteBeg(l.state) ==> |l.open| <= LIST_DEPTH_SZ)
    && (InQuoteBeg(l.state) ==> l.sects[Top(l) - 1].pos + 1 == pos)
    && (l.state == ST_QUOTE_D_BEG ==> l.types[Top(l) - 1] == TYPE_QUOTE_D)
    && (l.state == ST_QUOTE_S_BEG ==> l.types[Top(l) - 1] == TYPE_QUOTE_S)
    && (l.state == ST_SYMBOL_END ==>
          l.sects != [] && forall i :: 0 <= i < |l.open| ==> l.open[i] < |l.sects|)
  }

  /** A step stays inside the text, keeps the shape and makes progress. */
  predicate Moves(l: Lexer, pos: nat, len: nat, r: Outcome) {
    r.Next? ==>
      && r.plen <= len
      && Shape(r.l, pos + r.plen)
      && (r.plen == 0 ==> Rank(r.l.state) < Rank(l.state))
      && r.l.state != ST_BEG
      && (r.l.state == ST_SYMBOL_END ==> l.state == ST_CHOOSE)
  }

  function AddToken(l: Lexer, sect: Sect, typ: nat, state: nat): Lexer {
    l.(sects := l.sects + [sect], types := l.types + [typ], state := state)
  }

  /** Adds a token that stays open. */
  function OpenToken(l: Lexer, pos: nat, typ: nat, state: nat): Lexer {
    AddToken(l, Sect(pos, 0), typ, state).(open := l.open + [|l.sects| + 1])
  }

  /** conf__parse_beg_quote_d and conf__parse_beg_quote_s */
  function BegQuote(l: Lexer, pos: nat, single: bool): (r: Outcome)
    requires Shape(l, pos) && !InQuote(l.state) && !InQuoteBeg(l.state)
    ensures Moves(l, pos, 1, r) && r.Next? && r.plen == 1 && InQuoteBeg(r.l.state)
  {
    Next(if single then OpenToken(l, pos, TYPE_QUOTE_S, ST_QUOTE_S_BEG)
         else OpenToken(l, pos, TYPE_QUOTE_D, ST_QUOTE_D_BEG), 1)
  }

  /** conf__parse_beg_list */
  function BegList(l: Lexer, pos: nat): (r: Outcome)
    requires Shape(l, pos) && !InQuote(l.state) && !InQuoteBeg(l.state)
    ensures Moves(l, pos, 1, r)
  {
    if |l.open| >= LIST_DEPTH_SZ then Err else Next(OpenToken(l, pos, TYPE_ERR, ST_CHOOSE), 1)
  }

  /** conf__parse_end_list: the bracket must be the one that opened the innermost list. */
  function EndList(data: string, l: Lexer, pos: nat, byte: char): (r: Outcome)
    requires Shape(l, pos) && !InQuote(l.state) && !InQuoteBeg(l.state)
    ensures Moves(l, pos, 1, r)
  {
    if l.open == [] then Err
    else
      var top := Top(l);
      var p := l.sects[top - 1].pos;
      var typ := if byte == ']' then TYPE_SLIST else TYPE_CLIST;
      if !(1 <= p <= |data|) || data[p - 1] != (if byte == ']' then '[' else '(') then Err
      else
        Next(l.(open := l.open[..|l.open| - 1],
                types := l.types[top - 1 := typ],
                sects := l.sects[top - 1 := Sect(p, |l.sects| - top)],
                state := ST_CHOOSE), 1)
  }

  /** Whether the last token comments out the rest of its line (conf__parse_comment). */
  predicate IsCommentMark(s: string) {
    |s| >= 1 && ((forall i :: 0 <= i < |s| ==> s[i] == ';') || (forall i :: 0 <= i < |s| ==> s[i] == '#'))
  }

  predicate EndsInComment(data: string, l: Lexer) {
    l.sects != [] &&
    var last := l.sects[|l.sects| - 1];
    Within(data, last.pos, last.len) && IsCommentMark(Slice(data, last.pos, last.len))
  }

  function DropLast(l: Lexer): Lexer
    requires l.sects != [] && |l.types| == |l.sects|
  {
    l.(sects := l.sects[..|l.sects| - 1], types := l.types[..|l.sects| - 1], state := ST_CHOOSE)
  }

  /** conf__parse_beg_quote_xxx: moves the start of the string past its opening quotes. The caller
    has already consumed one of them, and consumes the other two of a triple quote. */
  function BegQuoteXxx(l: Lexer, pos: nat, three: bool): (r: Lexer)
    requires Shape(l, pos) && InQuoteBeg(l.state)
    ensures Shape(r, if three then pos + 2 else pos) && ST_QUOTE_D_END <= r.state <= ST_QUOTE_SSS_END
  {
    var n := Top(l) - 1;
    var end := if l.state == ST_QUOTE_S_BEG then ST_QUOTE_S_END else ST_QUOTE_D_END;
    l.(sects := l.sects[n := l.sects[n].(pos := l.sects[n].pos + if three then 3 else 1)],
       types := l.types[n := l.types[n] + if three then 2 else 0],
       state := end + if three then QUOTE_X2XXX else 0)
  }

  /** Moves the start of the open string over an escaped line end (two bytes). */
  function SkipFirstLine(l: Lexer, pos: nat): (r: Lexer)
    requires Shape(l, pos) && InQuote(l.state)
    ensures Shape(r, pos + 2)
  {
    var n := Top(l) - 1;
    l.(sects := l.sects[n := l.sects[n].(pos := l.sects[n].pos + 2)])
  }

  /** The state of a raw string instead of that of a string with escapes. */
  function Raw(l: Lexer, pos: nat): (r: Lexer)
    requires Shape(l, pos) && ST_QUOTE_D_END <= l.state <= ST_QUOTE_SSS_END
    ensures Shape(r, pos) && InQuote(r.state)
  {
    l.(state := l.state + QUOTE2UNQUOTE_END)
  }

  /** conf__parse_beg_unquote */
  function BegUnquote(data: string, l: Lexer, pos: nat, len: nat): (r: Outcome)
    requires l.state == ST_UNQUOTE_BEG
    requires Shape(l, pos) && Within(data, pos, len)
    ensures Moves(l, pos, len, r)
  {
    hide Shape;
    var d := HasPrefix(data, pos, len, "\"");
    var xxx := HasPrefix(data, pos, len, "\"\"\"") || HasPrefix(data, pos, len, "'''");
    if !d && !HasPrefix(data, pos, len, "'") then Err
    else
      var plen := if xxx then 3 else 1;
      var l1 := Raw(BegQuoteXxx(BegQuote(l, pos, !d).l, pos + 1, xxx), pos + plen);
      if HasPrefix(data, pos + plen, len - plen, "\\\n") then Next(SkipFirstLine(l1, pos + plen), plen + 2)
      else Next(l1, plen)
  }

  /** conf__parse_end_quote_xxx: the string ends just before pos. */
  function EndQuote(l: Lexer, pos: nat): (r: Lexer)
    requires Shape(l, pos) && InQuote(l.state)
    ensures Shape(r, pos) && r.state == ST_LIST_END_OR_WS
  {
    var n := Top(l) - 1;
    l.(sects := l.sects[n := l.sects[n].(len := pos - l.sects[n].pos)],
       open := l.open[..|l.open| - 1],
       state := ST_LIST_END_OR_WS)
  }

  /** conf__parse_esc_quote: an escape makes the string an escaped one, once. */
  function EscQuote(data: string, l: Lexer, pos: nat, len: nat, typ: nat): (r: Outcome)
    requires TYPE_QUOTE_D <= typ < TYPE_QUOTE_ESC_SSS
    requires Shape(l, pos) && InQuote(l.state) && Within(data, pos, len) && len > 0
    ensures Moves(l, pos, len, r)
  {
    var n := Top(l) - 1;
    if len < 2 then Err
    else if pos == l.sects[n].pos && HasPrefix(data, pos, len, "\\\n") then Next(SkipFirstLine(l, pos), 2)
    else if l.types[n] == typ then Next(l.(types := l.types[n := typ + TYPE_2ESC]), 2)
    else Next(l, 2)
  }

  /** CONF__SC_PARSE_QUOTE_X_END: inside a string in single quotes. */
  function QuoteXEnd(data: string, l: Lexer, pos: nat, len: nat, quote: char, typ: nat): (r: Outcome)
    requires TYPE_QUOTE_D <= typ < TYPE_QUOTE_ESC_SSS
    requires Shape(l, pos) && InQuote(l.state) && Within(data, pos, len) && len > 0
    ensures Moves(l, pos, len, r)
  {
    var plen := CSpan(Slice(data, pos, len), [quote, '\\']);
    if plen != 0 then Next(l, plen)
    else if data[pos - 1] == quote then Next(EndQuote(l, pos), 1)
    else EscQuote(data, l, pos, len, typ)
  }

  /** CONF__SC_PARSE_QUOTE_XXX_END: inside a string in triple quotes. */
  function QuoteXxxEnd(data: string, l: Lexer, pos: nat, len: nat, quote: char, typ: nat): (r: Outcome)
    requires TYPE_QUOTE_D <= typ < TYPE_QUOTE_ESC_SSS
    requires Shape(l, pos) && InQuote(l.state) && Within(data, pos, len) && len > 0
    ensures Moves(l, pos, len, r)
  {
    var plen := CSpan(Slice(data, pos, len), [quote, '\\']);
    if plen != 0 then Next(l, plen)
    else if HasPrefix(data, pos, len, [quote, quote, quote]) then Next(EndQuote(l, pos), 3)
    else if data[pos - 1] != '\\' then Next(l, 1)
    else EscQuote(data, l, pos, len, typ)
  }

  /** CONF__SC_PARSE_UNQUOTE_END: a raw string runs to its first closing quote. */
  function UnquoteEnd(data: string, l: Lexer, pos: nat, len: nat, close: string): (r: Outcome)
    requires Shape(l, pos) && InQuote(l.state) && Within(data, pos, len) && len > 0 && close != []
    ensures Moves(l, pos, len, r)
  {
    var p := Search(data, pos, len, close);
    if p == 0 then Next(l, len) else Next(EndQuote(l, p), p - pos + |close|)
  }

  /** The whitespace, if any, at pos: conf__parse_ws. */
  function Blank(data: string, l: Lexer, pos: nat, len: nat): (r: Outcome)
    requires Shape(l, pos) && !InQuote(l.state) && !InQuoteBeg(l.state)
    requires Within(data, pos, len) && len > 0 && data[pos - 1] in WS
    ensures Moves(l, pos, len, r)
  {
    Next(l.(state := ST_CHOOSE), Span(Slice(data, pos, len), WS))
  }

  function Choose(data: string, l: Lexer, pos: nat, len: nat): (r: Outcome)
    requires l.state == ST_CHOOSE
    requires Shape(l, pos) && Within(data, pos, len) && len > 0
    ensures r.Next? && r.l.state == ST_SYMBOL_END && r.plen < len ==> data[pos - 1 + r.plen] in DELIMS
    ensures Moves(l, pos, len, r)
  {
    var byte := data[pos - 1];
    if byte in WS then Blank(data, l, pos, len)
    else if byte == ')' || byte == ']' then EndList(data, l, pos, byte)
    else if byte == '(' || byte == '[' then BegList(l, pos)
    else if byte == '"' || byte == '\'' then BegQuote(l, pos, byte == '\'')
    else if (byte == '@' || byte == 'r') && len > 1 && (data[pos] == '"' || data[pos] == '\'') then
      Next(l.(state := ST_UNQUOTE_BEG), 1)
    else
      var plen := CSpan(Slice(data, pos, len), DELIMS);
      Next(AddToken(l, Sect(pos, plen), TYPE_SYMBOL, ST_SYMBOL_END), plen)
  }

  /** After a symbol: a comment mark takes itself and the rest of the line away. */
  function SymbolEnd(data: string, l: Lexer, pos: nat, len: nat): (r: Outcome)
    requires Shape(l, pos) && Within(data, pos, len) && len > 0 && l.state == ST_SYMBOL_END
    ensures Moves(l, pos, len, r)
  {
    var byte := data[pos - 1];
    if byte !in WS && byte !in "()[]" then Err
    else
      var comment := EndsInComment(data, l);
      var l1 := if comment then DropLast(l) else l;
      var skip := if comment then CSpan(Slice(data, pos, len), "\n") else 0;
      if skip != 0 then Next(l1, skip)
      else if byte in WS then Blank(data, l1, pos, len)
      else if byte == ')' || byte == ']' then EndList(data, l1, pos, byte)
      else BegList(l1, pos)
  }

  function Step(data: string, l: Lexer, pos: nat, len: nat): (r: Outcome)
    requires Shape(l, pos) && Within(data, pos, len) && len > 0
    ensures Moves(l, pos, len, r)
  {
    if l.state == ST_BEG then
      if HasPrefix(data, pos, len, "#!") then
        Next(l.(state := ST_WS), CSpan(Slice(data, pos, len), "\n"))
      else Next(l.(state := ST_CHOOSE), 0)
    else if l.state == ST_WS then
      if data[pos - 1] in WS then Blank(data, l, pos, len) else Err
    else if l.state == ST_LIST_END_OR_WS then
      if data[pos - 1] in WS then Blank(data, l, pos, len)
      else if data[pos - 1] == ')' || data[pos - 1] == ']' then EndList(data, l, pos, data[pos - 1])
      else Err
    else if l.state == ST_CHOOSE then Choose(data, l, pos, len)
    else if l.state == ST_QUOTE_D_BEG then
      if HasPrefix(data, pos, len, "\"\"") then Next(BegQuoteXxx(l, pos, true), 2)
      else Next(BegQuoteXxx(l, pos, false), 0)
    else if l.state == ST_QUOTE_S_BEG then
      if HasPrefix(data, pos, len, "''") then Next(BegQuoteXxx(l, pos, true), 2)
      else Next(BegQuoteXxx(l, pos, false), 0)
    else if l.state == ST_UNQUOTE_BEG then BegUnquote(data, l, pos, len)
    else if l.state == ST_QUOTE_D_END then QuoteXEnd(data, l, pos, len, '"', TYPE_QUOTE_D)
    else if l.state == ST_QUOTE_DDD_END then QuoteXxxEnd(data, l, pos, len, '"', TYPE_QUOTE_DDD)
    else if l.state == ST_QUOTE_S_END then QuoteXEnd(data, l, pos, len, '\'', TYPE_QUOTE_S)
    else if l.state == ST_QUOTE_SSS_END then QuoteXxxEnd(data, l, pos, len, '\'', TYPE_QUOTE_SSS)
    else if l.state == ST_UNQUOTE_DDD_END then UnquoteEnd(data, l, pos, len, "\"\"\"")
    else if l.state == ST_UNQUOTE_D_END then UnquoteEnd(data, l, pos, len, "\"")
    else if l.state == ST_UNQUOTE_SSS_END then UnquoteEnd(data, l, pos, len, "'''")
    else if l.state == ST_UNQUOTE_S_END then UnquoteEnd(data, l, pos, len, "'")
    else if l.state == ST_SYMBOL_END then SymbolEnd(data, l, pos, len)
    else Err
  }

  /** The whole loop of conf_parse_lex. It ends because every step either consumes text or moves to
    a state of lower rank. */
  function Run(data: string, l: Lexer, pos: nat, len: nat): (r: Outcome)
    requires Shape(l, pos) && Within(data, pos, len)
    decreases len, Rank(l.state)
  {
    if len == 0 then
      if l.open != [] then Err else Next(l.(state := ST_END), 0)
    else
      var next := Step(data, l, pos, len);
      if next.Err? then Err else Run(data, next.l, pos + next.plen, len - next.plen)
  }

  lemma RunStep(data: string, l: Lexer, pos: nat, len: nat)
    requires Shape(l, pos) && Within(data, pos, len) && len > 0
    ensures var next := Step(data, l, pos, len);
            Run(data, l, pos, len) == if next.Err? then Err else Run(data, next.l, pos + next.plen, len - next.plen)
  {
    hide Step, Shape;
  }

  lemma RunEnd(data: string, l: Lexer, pos: nat)
    requires Shape(l, pos) && Within(data, pos, 0)
    ensures Run(data, l, pos, 0) == if l.open != [] then Err else Next(l.(state := ST_END), 0)
  {
  }

  /** conf_parse_lex on the whole of a text. */
  function Lex(data: string): Outcome {
    Run(data, INITIAL, 1, |data|)
  }
}
