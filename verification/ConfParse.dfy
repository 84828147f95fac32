/** The lexer of conf.c as it runs: a loop over the text that updates the tokens in place. */
module ConfParse {
  import opened Vstr
  import opened ConfLexer

  lemma InitialShape(pos: nat)
    requires pos > 0
    ensures Shape(INITIAL, pos)
  {
  }

  class Conf {
    var data: string
    var sects: seq<Sect>
    var types: seq<nat>
    var state: nat
    var depth: nat

    /** conf_parse_make, with the text to be read. */
    constructor (text: string)
      ensures data == text && Valid() && state == ST_BEG
    {
      data, sects, types, state, depth := text, [], [], ST_BEG, 0;
    }

    ghost predicate Valid()
      reads this
    {
      state == ST_BEG ==> sects == [] && types == [] && depth == 0
    }

    /** The state of the lexer; listNums is the caller's stack of open tokens. */
    ghost function Abs(listNums: array<nat>): Lexer
      reads this, listNums
      requires depth <= listNums.Length
    {
      Lexer(sects, types, listNums[..depth], state)
    }

    ghost predicate Ready(listNums: array<nat>, pos: nat)
      reads this, listNums
    {
      listNums.Length == LIST_DEPTH_SZ + 1 && depth <= listNums.Length && Shape(Abs(listNums), pos)
    }

    method AddOpen(listNums: array<nat>, pos: nat, typ: nat, newState: nat)
      requires depth < listNums.Length
      modifies this`sects, this`types, this`state, this`depth, listNums
      ensures depth == old(depth) + 1
      ensures Abs(listNums) == OpenToken(old(Abs(listNums)), pos, typ, newState)
    {
      sects := sects + [Sect(pos, 0)];
      types := types + [typ];
      listNums[depth] := |sects|;
      depth := depth + 1;
      state := newState;
    }

    method BeginList(listNums: array<nat>, pos: nat) returns (ok: bool)
      requires Ready(listNums, pos) && !InQuote(state) && !InQuoteBeg(state)
      modifies this`sects, this`types, this`state, this`depth, listNums
      ensures ok == BegList(old(Abs(listNums)), pos).Next?
      ensures ok ==> depth <= listNums.Length && Abs(listNums) == BegList(old(Abs(listNums)), pos).l
    {
      if depth >= LIST_DEPTH_SZ {
        return false;
      }
      AddOpen(listNums, pos, TYPE_ERR, ST_CHOOSE);
      return true;
    }

    method EndList(listNums: array<nat>, pos: nat, byte: char) returns (ok: bool)
      requires Ready(listNums, pos) && !InQuote(state) && !InQuoteBeg(state)
      requires byte == ')' || byte == ']'
      modifies this`sects, this`types, this`state, this`depth
      ensures ok == ConfLexer.EndList(data, old(Abs(listNums)), pos, byte).Next?
      ensures ok ==> depth <= listNums.Length && Abs(listNums) == ConfLexer.EndList(data, old(Abs(listNums)), pos, byte).l
    {
      if depth == 0 {
        return false;
      }
      assert listNums[..depth][depth - 1] == listNums[depth - 1];
      depth := depth - 1;
      var n := listNums[depth] - 1;
      var node := sects[n];
      if byte == ']' {
        types := types[n := TYPE_SLIST];
        if !(1 <= node.pos <= |data|) || data[node.pos - 1] != '[' {
          return false;
        }
      }
      if byte == ')' {
        types := types[n := TYPE_CLIST];
        if !(1 <= node.pos <= |data|) || data[node.pos - 1] != '(' {
          return false;
        }
      }
      sects := sects[n := node.(len := |sects| - listNums[depth])];
      state := ST_CHOOSE;
      return true;
    }

    /** conf__parse_comment: takes a comment mark off the tokens; the text skipped, 0 for none. */
    method Comment(listNums: array<nat>, pos: nat, len: nat) returns (skip: nat)
      requires Ready(listNums, pos) && state == ST_SYMBOL_END && Within(data, pos, len)
      modifies this`sects, this`types, this`state
      ensures var l := old(Abs(listNums)); var comment := EndsInComment(data, l);
              && Abs(listNums) == (if comment then DropLast(l) else l)
              && skip == if comment then CSpan(Slice(data, pos, len), "\n") else 0
    {
      var node := sects[|sects| - 1];
      if node.len >= 1 && Within(data, node.pos, node.len) {
        var mark := Slice(data, node.pos, node.len);
        var byte := mark[0];
        if (byte == ';' && Span(mark, ";") == node.len) || (byte == '#' && Span(mark, "#") == node.len) {
          assert IsCommentMark(mark);
          sects, types := sects[..|sects| - 1], types[..|sects| - 1];
          state := ST_CHOOSE;
          return CSpan(Slice(data, pos, len), "\n");
        }
      }
      return 0;
    }

    method BeginQuoteXxx(listNums: array<nat>, pos: nat, three: bool)
      requires Ready(listNums, pos) && InQuoteBeg(state)
      modifies this`sects, this`types, this`state
      ensures Abs(listNums) == BegQuoteXxx(old(Abs(listNums)), pos, three)
    {
      assert listNums[..depth][depth - 1] == listNums[depth - 1];
      var n := listNums[depth - 1] - 1;
      var mvPos, end := 1, 0;
      if state == ST_QUOTE_S_BEG {
        end := ST_QUOTE_S_END;
      }
      if state == ST_QUOTE_D_BEG {
        end := ST_QUOTE_D_END;
      }
      if three {
        mvPos := 3;
        end := end + QUOTE_X2XXX;
        types := types[n := types[n] + 2];
      }
      sects := sects[n := sects[n].(pos := sects[n].pos + mvPos)];
      state := end;
    }

    method BeginUnquote(listNums: array<nat>, pos: nat, len: nat) returns (plen: nat)
      requires Ready(listNums, pos) && state == ST_UNQUOTE_BEG && Within(data, pos, len)
      modifies this`sects, this`types, this`state, this`depth, listNums
      ensures var r := BegUnquote(data, old(Abs(listNums)), pos, len);
              if plen == 0 then r.Err?
              else r.Next? && plen == r.plen && depth <= listNums.Length && Abs(listNums) == r.l
    {
      hide Shape, BegQuoteXxx, BegQuote, SkipFirstLine;
      plen := 1;
      assert len >= 3 ==> Slice(data, pos, 3)[0] == data[pos - 1];
      assert len >= 1 ==> Slice(data, pos, 1) == [data[pos - 1]];
      var d, xxx := false, false;
      if HasPrefix(data, pos, len, "\"\"\"") {
        d, xxx := true, true;
      } else if HasPrefix(data, pos, len, "\"") {
        d := true;
      } else if HasPrefix(data, pos, len, "'''") {
        xxx := true;
      } else if !HasPrefix(data, pos, len, "'") {
        return 0;
      }
      if xxx {
        plen := 3;
      }
      ghost var l2 := BegQuoteXxx(BegQuote(Abs(listNums), pos, !d).l, pos + 1, xxx);
      BeginString(listNums, pos, d, xxx);
      state := state + QUOTE2UNQUOTE_END;
      assert Abs(listNums) == Raw(l2, pos + plen);
      if HasPrefix(data, pos + plen, len - plen, "\\\n") {
        SkipLine(listNums, pos + plen);
        plen := plen + 2;
      }
    }

    method BeginString(listNums: array<nat>, pos: nat, d: bool, xxx: bool)
      requires Ready(listNums, pos) && !InQuote(state) && !InQuoteBeg(state)
      modifies this`sects, this`types, this`state, this`depth, listNums
      ensures depth <= listNums.Length
      ensures Abs(listNums) == BegQuoteXxx(BegQuote(old(Abs(listNums)), pos, !d).l, pos + 1, xxx)
    {
      ghost var l1 := BegQuote(Abs(listNums), pos, !d).l;
      if d {
        AddOpen(listNums, pos, TYPE_QUOTE_D, ST_QUOTE_D_BEG);
      } else {
        AddOpen(listNums, pos, TYPE_QUOTE_S, ST_QUOTE_S_BEG);
      }
      assert Abs(listNums) == l1;
      BeginQuoteXxx(listNums, pos + 1, xxx);
    }

    method SkipLine(listNums: array<nat>, pos: nat)
      requires Ready(listNums, pos) && InQuote(state)
      modifies this`sects
      ensures Abs(listNums) == SkipFirstLine(old(Abs(listNums)), pos)
    {
      assert listNums[..depth][depth - 1] == listNums[depth - 1];
      var n := listNums[depth - 1] - 1;
      sects := sects[n := sects[n].(pos := sects[n].pos + 2)];
    }

    method FinishQuote(listNums: array<nat>, pos: nat)
      requires Ready(listNums, pos) && InQuote(state)
      modifies this`sects, this`state, this`depth
      ensures depth == old(depth) - 1
      ensures Abs(listNums) == EndQuote(old(Abs(listNums)), pos)
    {
      assert listNums[..depth][depth - 1] == listNums[depth - 1];
      depth := depth - 1;
      var n := listNums[depth] - 1;
      var begPos := sects[n].pos;
      sects := sects[n := sects[n].(len := pos - begPos)];
      state := ST_LIST_END_OR_WS;
    }

    method Escape(listNums: array<nat>, pos: nat, len: nat, typ: nat) returns (ok: bool)
      requires Ready(listNums, pos) && InQuote(state) && Within(data, pos, len) && len > 0
      requires TYPE_QUOTE_D <= typ < TYPE_QUOTE_ESC_SSS
      modifies this`sects, this`types
      ensures var r := EscQuote(data, old(Abs(listNums)), pos, len, typ);
              ok == r.Next? && (ok ==> r.plen == 2 && Abs(listNums) == r.l)
    {
      if len < 2 {
        return false;
      }
      assert listNums[..depth][depth - 1] == listNums[depth - 1];
      var n := listNums[depth - 1] - 1;
      if pos == sects[n].pos && HasPrefix(data, pos, len, "\\\n") {
        SkipLine(listNums, pos);
        return true;
      }
      if types[n] == typ {
        types := types[n := types[n] + TYPE_2ESC];
      }
      return true;
    }

    /** CONF__SC_PARSE_QUOTE_X_END and CONF__SC_PARSE_QUOTE_XXX_END */
    method InsideQuote(listNums: array<nat>, pos: nat, len: nat, three: bool, quote: char, typ: nat)
      returns (ok: bool, plen: nat)
      requires Ready(listNums, pos) && InQuote(state) && Within(data, pos, len) && len > 0
      requires TYPE_QUOTE_D <= typ < TYPE_QUOTE_ESC_SSS && quote != '\\'
      modifies this`sects, this`types, this`state, this`depth
      ensures var l := old(Abs(listNums));
              var r := if three then QuoteXxxEnd(data, l, pos, len, quote, typ) else QuoteXEnd(data, l, pos, len, quote, typ);
              ok == r.Next? && (ok ==> plen == r.plen && depth <= listNums.Length && Abs(listNums) == r.l)
    {
      ok := true;
      plen := CSpan(Slice(data, pos, len), [quote, '\\']);
      if plen == 0 {
        assert listNums[..depth][depth - 1] == listNums[depth - 1];
        plen := if three then 3 else 1;
        if if three then HasPrefix(data, pos, len, [quote, quote, quote]) else data[pos - 1] == quote {
          FinishQuote(listNums, pos);
        } else if three && data[pos - 1] != '\\' {
          plen := 1;
        } else {
          ok := Escape(listNums, pos, len, typ);
          plen := 2;
        }
      }
    }

    /** CONF__SC_PARSE_UNQUOTE_END */
    method InsideUnquote(listNums: array<nat>, pos: nat, len: nat, close: string) returns (plen: nat)
      requires Ready(listNums, pos) && InQuote(state) && Within(data, pos, len) && len > 0 && close != []
      modifies this`sects, this`types, this`state, this`depth
      ensures var r := UnquoteEnd(data, old(Abs(listNums)), pos, len, close);
              r.Next? && plen == r.plen && depth <= listNums.Length && Abs(listNums) == r.l
    {
      plen := Search(data, pos, len, close);
      if plen == 0 {
        plen := len;
      } else {
        assert listNums[..depth][depth - 1] == listNums[depth - 1];
        FinishQuote(listNums, plen);
        plen := plen - pos;
        plen := plen + |close|;
      }
    }

    /** CONF_PARSE_STATE_CHOOSE */
    method ChooseToken(listNums: array<nat>, pos: nat, len: nat) returns (ok: bool, plen: nat)
      requires Ready(listNums, pos) && state == ST_CHOOSE && Within(data, pos, len) && len > 0
      modifies this`sects, this`types, this`state, this`depth, listNums
      ensures var r := Choose(data, old(Abs(listNums)), pos, len);
              ok == r.Next? && (ok ==> plen == r.plen && depth <= listNums.Length && Abs(listNums) == r.l)
    {
      var byte := data[pos - 1];
      ok, plen := true, 1;
      if byte in WS {
        plen := Span(Slice(data, pos, len), WS);
      } else if byte == ')' || byte == ']' {
        ok := EndList(listNums, pos, byte);
      } else if byte == '(' || byte == '[' {
        ok := BeginList(listNums, pos);
      } else if byte == '"' {
        AddOpen(listNums, pos, TYPE_QUOTE_D, ST_QUOTE_D_BEG);
      } else if byte == '\'' {
        AddOpen(listNums, pos, TYPE_QUOTE_S, ST_QUOTE_S_BEG);
      } else {
        if (byte == '@' || byte == 'r') && len > 1 {
          var tmp := data[pos];
          if tmp == '"' || tmp == '\'' {
            state := ST_UNQUOTE_BEG;
            return;
          }
        }
        plen := CSpan(Slice(data, pos, len), DELIMS);
        state := ST_SYMBOL_END;
        sects := sects + [Sect(pos, plen)];
        types := types + [TYPE_SYMBOL];
      }
    }

    /** CONF_PARSE_STATE_SYMBOL_END: a symbol only ever ends at a delimiter. */
    method AfterSymbol(listNums: array<nat>, pos: nat, len: nat) returns (ok: bool, plen: nat)
      requires Ready(listNums, pos) && state == ST_SYMBOL_END && Within(data, pos, len) && len > 0
      requires data[pos - 1] in DELIMS
      modifies this`sects, this`types, this`state, this`depth, listNums
      ensures var r := SymbolEnd(data, old(Abs(listNums)), pos, len);
              ok == r.Next? && (ok ==> plen == r.plen && depth <= listNums.Length && Abs(listNums) == r.l)
    {
      hide EndsInComment, ConfLexer.EndList, ConfLexer.BegList, Shape;
      var byte := data[pos - 1];
      ok, plen := true, 0;
      if byte in WS {
        plen := Comment(listNums, pos, len);
        if plen == 0 {
          state := ST_CHOOSE;
          plen := Span(Slice(data, pos, len), WS);
        }
      } else if byte == ')' || byte == ']' {
        plen := Comment(listNums, pos, len);
        if plen == 0 {
          plen := 1;
          ok := EndList(listNums, pos, byte);
        }
      } else if byte == '(' || byte == '[' {
        plen := Comment(listNums, pos, len);
        if plen == 0 {
          plen := 1;
          ok := BeginList(listNums, pos);
        }
      } else if byte == '"' || byte == '\'' {
        ok := false;
      } else {
        assert false;
      }
    }

    /** One turn of the loop: the switch over the states. */
    method Turn(listNums: array<nat>, pos: nat, len: nat) returns (ok: bool, plen: nat)
      requires Ready(listNums, pos) && Within(data, pos, len) && len > 0
      requires state == ST_SYMBOL_END ==> data[pos - 1] in DELIMS
      modifies this`sects, this`types, this`state, this`depth, listNums
      ensures var r := Step(data, old(Abs(listNums)), pos, len);
              ok == r.Next? && (ok ==> plen == r.plen && depth <= listNums.Length && Abs(listNums) == r.l)
      ensures ok && state == ST_SYMBOL_END && plen < len ==> data[pos - 1 + plen] in DELIMS
    {
      hide Choose, SymbolEnd, BegUnquote, QuoteXEnd, QuoteXxxEnd, UnquoteEnd, ConfLexer.EndList, Shape;
      ok, plen := true, 0;
      if state == ST_BEG {
        state := ST_CHOOSE;
        if HasPrefix(data, pos, len, "#!") {
          plen := CSpan(Slice(data, pos, len), "\n");
          state := ST_WS;
        }
      } else if state == ST_WS {
        state := ST_CHOOSE;
        plen := Span(Slice(data, pos, len), WS);
        assert Slice(data, pos, len)[0] == data[pos - 1];
        ok := plen != 0;
      } else if state == ST_LIST_END_OR_WS {
        plen := 1;
        var byte := data[pos - 1];
        if byte in WS {
          state := ST_CHOOSE;
          plen := Span(Slice(data, pos, len), WS);
        } else if byte == ')' || byte == ']' {
          ok := EndList(listNums, pos, byte);
        } else {
          ok := false;
        }
      } else if state == ST_CHOOSE {
        ok, plen := ChooseToken(listNums, pos, len);
      } else if state == ST_QUOTE_D_BEG || state == ST_QUOTE_S_BEG {
        var three := HasPrefix(data, pos, len, if state == ST_QUOTE_D_BEG then "\"\"" else "''");
        if three {
          plen := 2;
        }
        BeginQuoteXxx(listNums, pos, three);
      } else if state == ST_UNQUOTE_BEG {
        plen := BeginUnquote(listNums, pos, len);
        ok := plen != 0;
      } else if state == ST_QUOTE_D_END {
        ok, plen := InsideQuote(listNums, pos, len, false, '"', TYPE_QUOTE_D);
      } else if state == ST_QUOTE_DDD_END {
        ok, plen := InsideQuote(listNums, pos, len, true, '"', TYPE_QUOTE_DDD);
      } else if state == ST_QUOTE_S_END {
        ok, plen := InsideQuote(listNums, pos, len, false, '\'', TYPE_QUOTE_S);
      } else if state == ST_QUOTE_SSS_END {
        ok, plen := InsideQuote(listNums, pos, len, true, '\'', TYPE_QUOTE_SSS);
      } else if state == ST_UNQUOTE_DDD_END {
        plen := InsideUnquote(listNums, pos, len, "\"\"\"");
      } else if state == ST_UNQUOTE_D_END {
        plen := InsideUnquote(listNums, pos, len, "\"");
      } else if state == ST_UNQUOTE_SSS_END {
        plen := InsideUnquote(listNums, pos, len, "'''");
      } else if state == ST_UNQUOTE_S_END {
        plen := InsideUnquote(listNums, pos, len, "'");
      } else if state == ST_SYMBOL_END {
        ok, plen := AfterSymbol(listNums, pos, len);
      } else {
        ok := false;
      }
    }

    /** One turn, as a step of the whole run. */
    method Advance(listNums: array<nat>, pos: nat, len: nat) returns (ok: bool, plen: nat)
      requires Ready(listNums, pos) && Within(data, pos, len) && len > 0
      requires state == ST_SYMBOL_END ==> data[pos - 1] in DELIMS
      modifies this`sects, this`types, this`state, this`depth, listNums
      ensures !ok ==> Run(data, old(Abs(listNums)), pos, len).Err?
      ensures ok ==>
        && plen <= len && Ready(listNums, pos + plen)
        && Run(data, old(Abs(listNums)), pos, len) == Run(data, Abs(listNums), pos + plen, len - plen)
        && (state == ST_SYMBOL_END && plen < len ==> data[pos - 1 + plen] in DELIMS)
        && (plen == 0 ==> Rank(state) < Rank(old(state)))
    {
      hide Step, Run, Shape;
      ghost var l := Abs(listNums);
      RunStep(data, l, pos, len);
      ok, plen := Turn(listNums, pos, len);
      if ok {
        assert Moves(l, pos, len, Step(data, l, pos, len));
      }
    }

    /** conf_parse_lex */
    method Lex(pos0: nat, len0: nat) returns (ok: bool)
      requires Valid() && Within(data, pos0, len0)
      modifies this`sects, this`types, this`state, this`depth
      ensures old(state) != ST_BEG ==> !ok
      ensures old(state) == ST_BEG ==>
        var r := Run(data, INITIAL, pos0, len0);
        ok == r.Next? && (ok ==> sects == r.l.sects && types == r.l.types && state == ST_END && depth == 0)
    {
      hide Step, Run, Rank, Shape;
      if state != ST_BEG {
        return false;
      }
      var listNums := new nat[LIST_DEPTH_SZ + 1];
      var pos, len := pos0, len0;
      InitialShape(pos);
      assert Abs(listNums) == INITIAL;
      while len > 0
        invariant Within(data, pos, len) && Ready(listNums, pos)
        invariant state == ST_SYMBOL_END && len > 0 ==> data[pos - 1] in DELIMS
        invariant Run(data, INITIAL, pos0, len0) == Run(data, Abs(listNums), pos, len)
        decreases len, Rank(state)
      {
        var plen;
        ok, plen := Advance(listNums, pos, len);
        if !ok {
          return;
        }
        len, pos := len - plen, pos + plen;
      }
      RunEnd(data, Abs(listNums), pos);
      if depth != 0 {
        return false;
      }
      state := ST_END;
      return true;
    }
  }
}
