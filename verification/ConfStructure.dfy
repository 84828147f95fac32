/** What the flat token array of the lexer says about the text it came from.

  A list is one token whose length is the number of tokens inside it. These lemmas show, for every
  text, that those lengths describe exactly the nesting of the brackets in the text.
 */
module ConfStructure {
  import opened Vstr
  import opened ConfLexer

  /** The number (from 0) of the last token inside list i. */
  function End(sects: seq<Sect>, i: nat): nat
    requires i < |sects|
  {
    i + sects[i].len
  }

  predicate ByteAt(data: string, p: nat, c: char) {
    1 <= p <= |data| && data[p - 1] == c
  }

  /** List i starts and ends with the brackets its type names, at its position and at close[i]. */
  predicate Bracketed(data: string, sects: seq<Sect>, types: seq<nat>, close: seq<nat>, i: nat)
    requires i < |sects| == |types| == |close|
  {
    && sects[i].pos < close[i]
    && ByteAt(data, sects[i].pos, if types[i] == TYPE_SLIST then '[' else '(')
    && ByteAt(data, close[i], if types[i] == TYPE_SLIST then ']' else ')')
  }

  /** List i is exactly the text between its brackets: the tokens counted by it are those that start
    before its closing bracket, none of them is unfinished, they end before that bracket, and so do the
    closing brackets of the lists among them; all other tokens begin behind it. */
  ghost predicate ListOk(data: string, sects: seq<Sect>, types: seq<nat>, close: seq<nat>, i: nat)
    requires i < |sects| == |types| == |close|
  {
    && End(sects, i) < |sects|
    && Bracketed(data, sects, types, close, i)
    && (forall j :: i < j < |sects| ==>
          if j <= End(sects, i) then
            && types[j] != TYPE_ERR && sects[j].pos < close[i]
            && (if IsList(types[j]) then End(sects, j) <= End(sects, i) && close[j] < close[i]
                else sects[j].pos + sects[j].len <= close[i])
          else sects[j].pos > close[i])
  }

  ghost predicate Ascending(sects: seq<Sect>) {
    forall i, j :: 0 <= i < j < |sects| ==> sects[i].pos < sects[j].pos
  }

  /** All lists so far are right, and everything so far starts before position p of the text. */
  ghost predicate Tokens(data: string, sects: seq<Sect>, types: seq<nat>, close: seq<nat>, p: nat) {
    && |sects| == |types| == |close|
    && (forall i :: 0 <= i < |sects| ==> types[i] <= TYPE_SYMBOL && sects[i].pos < p)
    && (forall i :: 0 <= i < |sects| && IsList(types[i]) ==>
          ListOk(data, sects, types, close, i) && close[i] < p)
    && (forall i :: 0 <= i < |sects| && !IsList(types[i]) ==> sects[i].pos + sects[i].len <= p)
  }

  /** No list so far includes the last token: it may still change or go away. */
  ghost predicate LastIsFree(sects: seq<Sect>, types: seq<nat>)
    requires |sects| == |types|
  {
    && sects != []
    && !IsList(types[|types| - 1])
    && (forall i :: 0 <= i < |sects| && IsList(types[i]) ==> End(sects, i) < |sects| - 1)
  }

  /** Whether the innermost open token is a string that has not ended. */
  predicate Quoting(state: nat) { InQuote(state) || InQuoteBeg(state) }

  /** Open list i has its opening bracket and no type or length yet. */
  predicate Pending(data: string, sects: seq<Sect>, types: seq<nat>, i: nat)
    requires i < |sects| == |types|
  {
    && types[i] == TYPE_ERR
    && sects[i].len == 0
    && (ByteAt(data, sects[i].pos, '(') || ByteAt(data, sects[i].pos, '['))
  }

  /** The open lists are the tokens without a type, in order. */
  ghost predicate OpenLists(data: string, sects: seq<Sect>, types: seq<nat>, open: seq<nat>) {
    && |sects| == |types|
    && (forall k :: 0 <= k < |open| ==> 1 <= open[k] <= |sects| && Pending(data, sects, types, open[k] - 1))
    && (forall h, k :: 0 <= h < k < |open| ==> open[h] < open[k])
    && (forall i :: 0 <= i < |types| && types[i] == TYPE_ERR ==> i + 1 in open)
  }

  /** The open lists alone, without a string that has not ended. */
  function OpenListsOf(l: Lexer): seq<nat> {
    if Quoting(l.state) && l.open != [] then l.open[..|l.open| - 1] else l.open
  }

  /** The number of lists among the first m tokens that token k is inside, finished or not. */
  function Nesting(sects: seq<Sect>, types: seq<nat>, k: nat, m: nat): nat
    requires m <= |sects| == |types|
  {
    if m == 0 then 0
    else
      Nesting(sects, types, k, m - 1)
      + if types[m - 1] == TYPE_ERR || (IsList(types[m - 1]) && End(sects, m - 1) >= k) then 1 else 0
  }

  /** No token is inside more lists than the walker has room for, counting itself if it is one. */
  ghost predicate Shallow(sects: seq<Sect>, types: seq<nat>)
    requires |sects| == |types|
  {
    forall k :: 0 <= k < |sects| ==>
      Nesting(sects, types, k, k) + (if types[k] == TYPE_ERR || IsList(types[k]) then 1 else 0) <= LIST_DEPTH_SZ
  }

  /** The invariant of the lexer at text position pos. */
  ghost predicate Inv(data: string, l: Lexer, pos: nat, close: seq<nat>) {
    && Tokens(data, l.sects, l.types, close, if Quoting(l.state) then pos + 1 else pos)
    && Ascending(l.sects)
    && Shallow(l.sects, l.types)
    && OpenLists(data, l.sects, l.types, OpenListsOf(l))
    && (Quoting(l.state) || l.state == ST_SYMBOL_END ==> LastIsFree(l.sects, l.types))
    && (l.state == ST_SYMBOL_END ==> l.types[|l.types| - 1] == TYPE_SYMBOL)
    && (Quoting(l.state) ==>
          l.open != [] && Top(l) == |l.sects| && IsQuote(l.types[Top(l) - 1]) && l.sects[Top(l) - 1].len == 0)
  }

  lemma TokensBasics(data: string, sects: seq<Sect>, types: seq<nat>, close: seq<nat>, p: nat)
    requires Tokens(data, sects, types, close, p)
    ensures |sects| == |types| == |close|
  {
  }

  lemma TokensBefore(data: string, sects: seq<Sect>, types: seq<nat>, close: seq<nat>, p: nat)
    requires Tokens(data, sects, types, close, p)
    ensures forall i :: 0 <= i < |sects| ==> sects[i].pos < p
  {
  }

  lemma TokensLater(data: string, sects: seq<Sect>, types: seq<nat>, close: seq<nat>, p: nat, q: nat)
    requires Tokens(data, sects, types, close, p) && p <= q
    ensures Tokens(data, sects, types, close, q)
  {
    forall i | 0 <= i < |sects| && IsList(types[i])
      ensures ListOk(data, sects, types, close, i)
    {
    }
  }

  lemma PushTokens(data: string, sects: seq<Sect>, types: seq<nat>, close: seq<nat>, p: nat, sect: Sect, typ: nat)
    requires Tokens(data, sects, types, close, p) && sect.pos >= p
    requires typ <= TYPE_SYMBOL && !IsList(typ)
    ensures Tokens(data, sects + [sect], types + [typ], close + [0], sect.pos + if sect.len > 0 then sect.len else 1)
    ensures LastIsFree(sects + [sect], types + [typ])
  {
    forall i | 0 <= i < |sects| && IsList(types[i])
      ensures ListOk(data, sects + [sect], types + [typ], close + [0], i)
    {
      assert ListOk(data, sects, types, close, i);
    }
  }

  lemma DropTokens(data: string, sects: seq<Sect>, types: seq<nat>, close: seq<nat>, p: nat)
    requires Tokens(data, sects, types, close, p) && LastIsFree(sects, types)
    ensures var n := |sects| - 1; Tokens(data, sects[..n], types[..n], close[..n], p)
  {
    var n := |sects| - 1;
    forall i | 0 <= i < n && IsList(types[i])
      ensures ListOk(data, sects[..n], types[..n], close[..n], i)
    {
      assert ListOk(data, sects, types, close, i);
    }
  }

  /** The last token may move forward, get its length and change its type. */
  lemma EditTokens(data: string, sects: seq<Sect>, types: seq<nat>, close: seq<nat>, p: nat, q: nat, sect: Sect, typ: nat)
    requires Tokens(data, sects, types, close, p) && LastIsFree(sects, types)
    requires sects[|sects| - 1].pos <= sect.pos < q && sect.pos + sect.len <= q && p <= q && typ <= TYPE_SYMBOL && !IsList(typ)
    ensures var n := |sects| - 1; Tokens(data, sects[n := sect], types[n := typ], close, q)
    ensures var n := |sects| - 1; LastIsFree(sects[n := sect], types[n := typ])
  {
    var n := |sects| - 1;
    var types' := types[n := typ];
    forall i | 0 <= i < |sects| && IsList(types'[i])
      ensures ListOk(data, sects[n := sect], types', close, i)
    {
      assert ListOk(data, sects, types, close, i);
    }
  }

  lemma CloseTokens(data: string, sects: seq<Sect>, types: seq<nat>, close: seq<nat>, p: nat, top: nat, pos: nat, typ: nat)
    requires Tokens(data, sects, types, close, p) && top < |sects| && types[top] == TYPE_ERR
    requires forall j :: top < j < |sects| ==> types[j] != TYPE_ERR
    requires p <= pos && IsList(typ)
    requires ByteAt(data, sects[top].pos, if typ == TYPE_SLIST then '[' else '(')
    requires ByteAt(data, pos, if typ == TYPE_SLIST then ']' else ')')
    ensures Tokens(data, sects[top := sects[top].(len := |sects| - top - 1)], types[top := typ], close[top := pos], pos + 1)
  {
    var sects' := sects[top := sects[top].(len := |sects| - top - 1)];
    var types' := types[top := typ];
    forall i | 0 <= i < |sects| && IsList(types'[i])
      ensures ListOk(data, sects', types', close[top := pos], i)
    {
      if i != top {
        assert ListOk(data, sects, types, close, i);
      } else {
        forall j | i < j < |sects| && IsList(types[j])
          ensures End(sects', j) < |sects|
        {
          assert ListOk(data, sects, types, close, j);
        }
      }
    }
  }

  /** The open lists stay the open lists when tokens are added, and become one more or one fewer. */
  lemma OpenListsPush(data: string, sects: seq<Sect>, types: seq<nat>, open: seq<nat>, sect: Sect, typ: nat)
    requires OpenLists(data, sects, types, open)
    requires typ == TYPE_ERR ==> sect.len == 0 && (ByteAt(data, sect.pos, '(') || ByteAt(data, sect.pos, '['))
    ensures OpenLists(data, sects + [sect], types + [typ], if typ == TYPE_ERR then open + [|sects| + 1] else open)
  {
    hide Pending, ByteAt;
    var open' := if typ == TYPE_ERR then open + [|sects| + 1] else open;
    var sects', types' := sects + [sect], types + [typ];
    forall k | 0 <= k < |open'|
      ensures 1 <= open'[k] <= |sects| + 1 && Pending(data, sects', types', open'[k] - 1)
    {
      if k < |open| {
        assert open'[k] == open[k];
        PendingMore(data, sects, types, open[k] - 1, sect, typ);
      } else {
        PendingNew(data, sects, types, sect);
      }
    }
    forall i | 0 <= i < |types'| && types'[i] == TYPE_ERR
      ensures i + 1 in open'
    {
      if i < |types| {
        assert i + 1 in open;
      } else {
        assert open'[|open|] == i + 1;
      }
    }
  }

  lemma PendingMore(data: string, sects: seq<Sect>, types: seq<nat>, i: int, sect: Sect, typ: nat)
    requires |sects| == |types| && 0 <= i < |sects| && Pending(data, sects, types, i)
    ensures Pending(data, sects + [sect], types + [typ], i)
  {
  }

  lemma PendingNew(data: string, sects: seq<Sect>, types: seq<nat>, sect: Sect)
    requires |sects| == |types| && sect.len == 0 && (ByteAt(data, sect.pos, '(') || ByteAt(data, sect.pos, '['))
    ensures Pending(data, sects + [sect], types + [TYPE_ERR], |sects|)
  {
  }

  lemma PendingIs(data: string, sects: seq<Sect>, types: seq<nat>, i: int)
    requires |sects| == |types| && 0 <= i < |sects| && Pending(data, sects, types, i)
    ensures types[i] == TYPE_ERR
  {
  }

  lemma PendingStill(data: string, sects: seq<Sect>, types: seq<nat>, i: int, top: nat, sect: Sect, typ: nat)
    requires |sects| == |types| && 0 <= i < |sects| && Pending(data, sects, types, i) && i != top < |sects|
    ensures Pending(data, sects[top := sect], types[top := typ], i)
  {
  }

  lemma OpenListsClose(data: string, sects: seq<Sect>, types: seq<nat>, open: seq<nat>, sect: Sect, typ: nat)
    requires OpenLists(data, sects, types, open) && open != [] && IsList(typ)
    ensures var top := open[|open| - 1] - 1;
            && 0 <= top < |sects| && Pending(data, sects, types, top)
            && OpenLists(data, sects[top := sect], types[top := typ], open[..|open| - 1])
            && forall j :: top < j < |sects| ==> types[j] != TYPE_ERR
  {
    hide Pending;
    var n := |open| - 1;
    var top := open[n] - 1;
    PendingIs(data, sects, types, top);
    forall k | 0 <= k < n
      ensures Pending(data, sects[top := sect], types[top := typ], open[k] - 1)
    {
      PendingStill(data, sects, types, open[k] - 1, top, sect, typ);
    }
    var types' := types[top := typ];
    forall i | 0 <= i < |types| && types'[i] == TYPE_ERR
      ensures i + 1 in open[..n]
    {
      var k :| 0 <= k < |open| && open[k] == i + 1;
      assert open[..n][k] == i + 1;
    }
  }

  lemma OpenListsEdit(data: string, sects: seq<Sect>, types: seq<nat>, open: seq<nat>, sect: Sect, typ: nat)
    requires OpenLists(data, sects, types, open) && sects != []
    requires types[|types| - 1] != TYPE_ERR && typ != TYPE_ERR
    ensures var n := |sects| - 1; OpenLists(data, sects[n := sect], types[n := typ], open)
  {
    var n := |sects| - 1;
    forall k | 0 <= k < |open|
      ensures Pending(data, sects[n := sect], types[n := typ], open[k] - 1)
    {
      assert Pending(data, sects, types, open[k] - 1);
    }
  }

  lemma OpenListsDrop(data: string, sects: seq<Sect>, types: seq<nat>, open: seq<nat>)
    requires OpenLists(data, sects, types, open) && sects != [] && types[|types| - 1] != TYPE_ERR
    ensures var n := |sects| - 1; OpenLists(data, sects[..n], types[..n], open)
  {
    var n := |sects| - 1;
    forall k | 0 <= k < |open|
      ensures open[k] <= n && Pending(data, sects[..n], types[..n], open[k] - 1)
    {
      assert Pending(data, sects, types, open[k] - 1);
    }
  }

  lemma {:induction false} NestingPrefix(sects: seq<Sect>, types: seq<nat>, s: seq<Sect>, t: seq<nat>, k: nat, m: nat)
    requires m <= |sects| == |types| && m <= |s| == |t|
    requires forall i :: 0 <= i < m ==> s[i] == sects[i] && t[i] == types[i]
    ensures Nesting(s, t, k, m) == Nesting(sects, types, k, m)
  {
    if m > 0 {
      NestingPrefix(sects, types, s, t, k, m - 1);
    }
  }

  /** A new token is inside the open lists and no others. */
  lemma {:induction false} NestingNew(data: string, sects: seq<Sect>, types: seq<nat>, open: seq<nat>, m: nat, j: nat)
    requires OpenLists(data, sects, types, open) && m <= |sects| && j <= |open|
    requires forall i :: 0 <= i < |sects| && IsList(types[i]) ==> End(sects, i) < |sects|
    requires (j > 0 ==> open[j - 1] <= m) && (j < |open| ==> open[j] > m)
    ensures Nesting(sects, types, |sects|, m) == j
  {
    if m > 0 {
      if types[m - 1] == TYPE_ERR {
        var k :| 0 <= k < |open| && open[k] == m;
        assert k == j - 1;
        NestingNew(data, sects, types, open, m - 1, j - 1);
      } else {
        assert j > 0 ==> Pending(data, sects, types, open[j - 1] - 1);
        NestingNew(data, sects, types, open, m - 1, j);
      }
    }
  }

  lemma ShallowPush(data: string, sects: seq<Sect>, types: seq<nat>, open: seq<nat>, sect: Sect, typ: nat)
    requires OpenLists(data, sects, types, open) && Shallow(sects, types)
    requires forall i :: 0 <= i < |sects| && IsList(types[i]) ==> End(sects, i) < |sects|
    requires !IsList(typ) && |open| + (if typ == TYPE_ERR then 1 else 0) <= LIST_DEPTH_SZ
    ensures Shallow(sects + [sect], types + [typ])
  {
    var s, t := sects + [sect], types + [typ];
    forall k | 0 <= k < |s|
      ensures Nesting(s, t, k, k) + (if t[k] == TYPE_ERR || IsList(t[k]) then 1 else 0) <= LIST_DEPTH_SZ
    {
      NestingPrefix(sects, types, s, t, k, k);
      if k == |sects| {
        NestingNew(data, sects, types, open, k, |open|);
      }
    }
  }

  lemma {:induction false} NestingClose(sects: seq<Sect>, types: seq<nat>, top: nat, typ: nat, k: nat, m: nat)
    requires m <= k < |sects| == |types| && top < |sects| && types[top] == TYPE_ERR && IsList(typ)
    ensures Nesting(sects[top := sects[top].(len := |sects| - top - 1)], types[top := typ], k, m) == Nesting(sects, types, k, m)
  {
    if m > 0 {
      NestingClose(sects, types, top, typ, k, m - 1);
    }
  }

  lemma ShallowClose(sects: seq<Sect>, types: seq<nat>, top: nat, typ: nat)
    requires |sects| == |types| && Shallow(sects, types) && top < |sects| && types[top] == TYPE_ERR && IsList(typ)
    ensures Shallow(sects[top := sects[top].(len := |sects| - top - 1)], types[top := typ])
  {
    forall k | 0 <= k < |sects|
      ensures Nesting(sects[top := sects[top].(len := |sects| - top - 1)], types[top := typ], k, k) == Nesting(sects, types, k, k)
    {
      NestingClose(sects, types, top, typ, k, k);
    }
  }

  lemma ShallowLast(sects: seq<Sect>, types: seq<nat>, sect: Sect, typ: nat)
    requires |sects| == |types| != 0 && Shallow(sects, types)
    requires typ != TYPE_ERR && !IsList(typ) && !IsList(types[|types| - 1])
    ensures var n := |sects| - 1; Shallow(sects[n := sect], types[n := typ]) && Shallow(sects[..n], types[..n])
  {
    var n := |sects| - 1;
    forall k | 0 <= k < |sects|
      ensures Nesting(sects[n := sect], types[n := typ], k, k) == Nesting(sects, types, k, k)
      ensures k < n ==> Nesting(sects[..n], types[..n], k, k) == Nesting(sects, types, k, k)
    {
      NestingPrefix(sects, types, sects[n := sect], types[n := typ], k, k);
      if k < n {
        NestingPrefix(sects, types, sects[..n], types[..n], k, k);
      }
    }
  }

  lemma ListsInside(data: string, sects: seq<Sect>, types: seq<nat>, close: seq<nat>, p: nat)
    requires Tokens(data, sects, types, close, p)
    ensures forall i :: 0 <= i < |sects| && IsList(types[i]) ==> End(sects, i) < |sects|
  {
    forall i | 0 <= i < |sects| && IsList(types[i])
      ensures End(sects, i) < |sects|
    {
      assert ListOk(data, sects, types, close, i);
    }
  }

  lemma PushKeeps(data: string, l: Lexer, pos: nat, close: seq<nat>, sect: Sect, state: nat)
    requires Inv(data, l, pos, close) && !Quoting(l.state)
    requires sect.pos == pos && sect.len > 0 && !Quoting(state) && |l.open| <= LIST_DEPTH_SZ
    ensures Inv(data, AddToken(l, sect, TYPE_SYMBOL, state), pos + sect.len, close + [0])
  {
    hide Shallow;
    ListsInside(data, l.sects, l.types, close, pos);
    ShallowPush(data, l.sects, l.types, l.open, sect, TYPE_SYMBOL);
    PushTokens(data, l.sects, l.types, close, pos, sect, TYPE_SYMBOL);
    OpenListsPush(data, l.sects, l.types, l.open, sect, TYPE_SYMBOL);
  }

  lemma AscendingPush(sects: seq<Sect>, sect: Sect)
    requires Ascending(sects)
    requires forall i :: 0 <= i < |sects| ==> sects[i].pos < sect.pos
    ensures Ascending(sects + [sect])
  {
  }

  lemma AscendingLast(sects: seq<Sect>, sect: Sect)
    requires Ascending(sects) && sects != [] && sects[|sects| - 1].pos <= sect.pos
    ensures Ascending(sects[|sects| - 1 := sect])
  {
  }

  lemma LastFreeBasics(sects: seq<Sect>, types: seq<nat>)
    requires |sects| == |types| && LastIsFree(sects, types)
    ensures sects != [] && !IsList(types[|types| - 1])
  {
  }

  lemma OpenKeeps(data: string, l: Lexer, pos: nat, close: seq<nat>, typ: nat, state: nat)
    requires Inv(data, l, pos, close) && !Quoting(l.state)
    requires if Quoting(state) then IsQuote(typ) else typ == TYPE_ERR && state == ST_CHOOSE
    requires typ == TYPE_ERR ==> ByteAt(data, pos, '(') || ByteAt(data, pos, '[')
    requires |l.open| + (if typ == TYPE_ERR then 1 else 0) <= LIST_DEPTH_SZ
    ensures var r := OpenToken(l, pos, typ, state);
            Inv(data, r, if Quoting(state) then pos else pos + 1, close + [0])
  {
    hide Shallow, Tokens, OpenLists, Ascending, LastIsFree;
    var r := OpenToken(l, pos, typ, state);
    TokensBasics(data, l.sects, l.types, close, pos);
    TokensBefore(data, l.sects, l.types, close, pos);
    ListsInside(data, l.sects, l.types, close, pos);
    ShallowPush(data, l.sects, l.types, l.open, Sect(pos, 0), typ);
    PushTokens(data, l.sects, l.types, close, pos, Sect(pos, 0), typ);
    OpenListsPush(data, l.sects, l.types, l.open, Sect(pos, 0), typ);
    assert OpenListsOf(r) == if typ == TYPE_ERR then l.open + [|l.sects| + 1] else l.open;
    AscendingPush(l.sects, Sect(pos, 0));
    assert Tokens(data, r.sects, r.types, close + [0], pos + 1);
    assert Top(r) == |r.sects|;
  }

  lemma CloseKeeps(data: string, l: Lexer, pos: nat, close: seq<nat>, byte: char)
    requires Inv(data, l, pos, close) && Shape(l, pos) && !Quoting(l.state)
    requires (byte == ')' || byte == ']') && ByteAt(data, pos, byte)
    requires EndList(data, l, pos, byte).Next?
    ensures Inv(data, EndList(data, l, pos, byte).l, pos + 1, close[Top(l) - 1 := pos])
  {
    hide Tokens, OpenLists, Ascending, Shallow;
    var r := EndList(data, l, pos, byte).l;
    var top := Top(l) - 1;
    var typ := if byte == ']' then TYPE_SLIST else TYPE_CLIST;
    TokensBasics(data, l.sects, l.types, close, pos);
    OpenListsClose(data, l.sects, l.types, l.open, r.sects[top], typ);
    AscendingUpdate(l.sects, top, r.sects[top]);
    ShallowClose(l.sects, l.types, top, typ);
    CloseTokens(data, l.sects, l.types, close, pos, top, pos, typ);
  }

  lemma AscendingDrop(sects: seq<Sect>)
    requires Ascending(sects) && sects != []
    ensures Ascending(sects[..|sects| - 1])
  {
  }

  lemma AscendingUpdate(sects: seq<Sect>, n: nat, sect: Sect)
    requires Ascending(sects) && n < |sects| && sect.pos == sects[n].pos
    ensures Ascending(sects[n := sect])
  {
  }

  lemma DropKeeps(data: string, l: Lexer, pos: nat, close: seq<nat>)
    requires Inv(data, l, pos, close) && l.state == ST_SYMBOL_END
    ensures Inv(data, DropLast(l), pos, close[..|close| - 1])
  {
    hide Shallow, Tokens, OpenLists, Ascending;
    TokensBasics(data, l.sects, l.types, close, pos);
    AscendingDrop(l.sects);
    ShallowLast(l.sects, l.types, l.sects[0], TYPE_SYMBOL);
    DropTokens(data, l.sects, l.types, close, pos);
    OpenListsDrop(data, l.sects, l.types, l.open);
  }

  /** The last token changed; the string it is ends with the state. */
  function Edited(l: Lexer, sect: Sect, typ: nat, state: nat): Lexer
    requires l.sects != [] && |l.types| == |l.sects|
  {
    var n := |l.sects| - 1;
    Lexer(l.sects[n := sect], l.types[n := typ], if Quoting(state) then l.open else OpenListsOf(l), state)
  }

  /** Changes to a string token while it is the last one: its start, its length, its kind. */
  lemma EditKeeps(data: string, l: Lexer, pos: nat, close: seq<nat>, sect: Sect, typ: nat, state: nat, q: nat)
    requires Inv(data, l, pos, close) && Quoting(l.state) && pos <= q && IsQuote(typ)
    requires l.sects[|l.sects| - 1].pos <= sect.pos
    requires if Quoting(state) then sect.len == 0 else sect.pos + sect.len <= q
    requires if Quoting(state) then sect.pos <= q else state == ST_LIST_END_OR_WS && sect.pos < q && pos < q
    ensures Inv(data, Edited(l, sect, typ, state), q, close)
  {
    hide Shallow, Tokens, OpenLists, Ascending, LastIsFree;
    TokensBasics(data, l.sects, l.types, close, pos + 1);
    LastFreeBasics(l.sects, l.types);
    var r := Edited(l, sect, typ, state);
    ShallowLast(l.sects, l.types, sect, typ);
    EditTokens(data, l.sects, l.types, close, pos + 1, if Quoting(state) then q + 1 else q, sect, typ);
    OpenListsEdit(data, l.sects, l.types, OpenListsOf(l), sect, typ);
    AscendingLast(l.sects, sect);
    assert OpenListsOf(r) == OpenListsOf(l);
  }

  /** Moving on through the text without touching the tokens. */
  lemma SkipKeeps(data: string, l: Lexer, pos: nat, close: seq<nat>, state: nat, q: nat)
    requires Inv(data, l, pos, close) && pos <= q
    requires Quoting(l.state) == Quoting(state) && state != ST_SYMBOL_END
    ensures Inv(data, l.(state := state), q, close)
  {
    hide Shallow, Tokens, OpenLists, Ascending;
    TokensLater(data, l.sects, l.types, close, if Quoting(l.state) then pos + 1 else pos, if Quoting(l.state) then q + 1 else q);
  }

  /** Where the lists so far were closed, after a step at pos: one that leaves fewer lists open has closed
    the innermost of them there. */
  function ClosedAt(l: Lexer, r: Lexer, pos: nat, close: seq<nat>): (c: seq<nat>)
    ensures |c| == |r.sects|
  {
    var open := OpenListsOf(l);
    seq(|r.sects|, i requires 0 <= i < |r.sects| =>
      if |OpenListsOf(r)| < |open| && i + 1 == open[|open| - 1] then pos
      else if i < |close| then close[i]
      else 0)
  }

  /** The closing brackets of the lists, for each the one that the run has taken for it. */
  ghost function Closings(data: string, l: Lexer, pos: nat, len: nat, close: seq<nat>): seq<nat>
    requires Shape(l, pos) && Within(data, pos, len)
    decreases len, Rank(l.state)
  {
    if len == 0 || Step(data, l, pos, len).Err? then close
    else
      var next := Step(data, l, pos, len);
      Closings(data, next.l, pos + next.plen, len - next.plen, ClosedAt(l, next.l, pos, close))
  }

  ghost predicate Kept(data: string, l: Lexer, r: Outcome, pos: nat, close: seq<nat>) {
    r.Next? ==> Inv(data, r.l, pos + r.plen, ClosedAt(l, r.l, pos, close))
  }

  /** Only the entries of finished lists say anything. */
  lemma CloseAlike(data: string, l: Lexer, pos: nat, close: seq<nat>, close': seq<nat>)
    requires Inv(data, l, pos, close) && |close'| == |close|
    requires forall i :: 0 <= i < |l.types| && i < |close| && IsList(l.types[i]) ==> close'[i] == close[i]
    ensures Inv(data, l, pos, close')
  {
    hide Shallow, OpenLists, Ascending, LastIsFree;
    forall i | 0 <= i < |l.sects| && IsList(l.types[i])
      ensures ListOk(data, l.sects, l.types, close', i)
    {
      assert ListOk(data, l.sects, l.types, close, i);
    }
  }

  /** The invariant after a step, for what the step has done to the closing brackets. */
  lemma KeptBy(data: string, l: Lexer, r: Outcome, pos: nat, close: seq<nat>, close': seq<nat>)
    requires r.Next? && Inv(data, r.l, pos + r.plen, close')
    requires forall i :: 0 <= i < |r.l.types| && i < |r.l.sects| && i < |close'| && IsList(r.l.types[i]) ==>
               close'[i] == ClosedAt(l, r.l, pos, close)[i]
    ensures Kept(data, l, r, pos, close)
  {
    hide Inv;
    InvBasics(data, r.l, pos + r.plen, close');
    CloseAlike(data, r.l, pos + r.plen, close', ClosedAt(l, r.l, pos, close));
  }

  /** No list is opened, closed or dropped. */
  lemma KeptSame(data: string, l: Lexer, r: Outcome, pos: nat, close: seq<nat>)
    requires r.Next? && Inv(data, r.l, pos + r.plen, close) && |OpenListsOf(r.l)| >= |OpenListsOf(l)|
    ensures Kept(data, l, r, pos, close)
  {
    hide Inv;
    InvBasics(data, r.l, pos + r.plen, close);
    KeptBy(data, l, r, pos, close, close);
  }

  /** A token more. */
  lemma KeptMore(data: string, l: Lexer, r: Outcome, pos: nat, close: seq<nat>)
    requires r.Next? && Inv(data, r.l, pos + r.plen, close + [0]) && |OpenListsOf(r.l)| >= |OpenListsOf(l)|
    ensures Kept(data, l, r, pos, close)
  {
    hide Inv;
    InvBasics(data, r.l, pos + r.plen, close + [0]);
    KeptBy(data, l, r, pos, close, close + [0]);
  }

  /** A step that has dropped the last token, a symbol, before anything else. */
  lemma KeptDropped(data: string, l: Lexer, r: Outcome, pos: nat, close: seq<nat>)
    requires r.Next? && l.state == ST_SYMBOL_END && Shape(l, pos) && l.sects != []
    requires |close| == |l.sects| && Kept(data, DropLast(l), r, pos, close[..|close| - 1])
    requires |r.l.sects| == |r.l.types| <= |l.sects|
    requires |r.l.sects| == |l.sects| ==> !IsList(r.l.types[|l.sects| - 1])
    ensures Kept(data, l, r, pos, close)
  {
    hide Inv;
    InvBasics(data, r.l, pos + r.plen, ClosedAt(DropLast(l), r.l, pos, close[..|close| - 1]));
    assert OpenListsOf(DropLast(l)) == OpenListsOf(l);
    KeptBy(data, l, r, pos, close, ClosedAt(DropLast(l), r.l, pos, close[..|close| - 1]));
  }

  lemma BlankKeeps(data: string, l: Lexer, pos: nat, len: nat, close: seq<nat>)
    requires Inv(data, l, pos, close) && Shape(l, pos) && !Quoting(l.state)
    requires Within(data, pos, len) && len > 0 && data[pos - 1] in WS
    ensures Kept(data, l, Blank(data, l, pos, len), pos, close)
  {
    hide Inv, Shape, Span;
    var r := Blank(data, l, pos, len);
    SkipKeeps(data, l, pos, close, ST_CHOOSE, pos + r.plen);
    KeptSame(data, l, r, pos, close);
  }

  lemma BegListKeeps(data: string, l: Lexer, pos: nat, close: seq<nat>)
    requires Inv(data, l, pos, close) && Shape(l, pos) && !Quoting(l.state)
    requires ByteAt(data, pos, '(') || ByteAt(data, pos, '[')
    ensures Kept(data, l, BegList(l, pos), pos, close)
  {
    hide Inv;
    if BegList(l, pos).Next? {
      OpenKeeps(data, l, pos, close, TYPE_ERR, ST_CHOOSE);
      KeptMore(data, l, BegList(l, pos), pos, close);
    }
  }

  lemma BegQuoteKeeps(data: string, l: Lexer, pos: nat, close: seq<nat>, single: bool)
    requires Inv(data, l, pos, close) && Shape(l, pos) && !Quoting(l.state)
    ensures var r := BegQuote(l, pos, single); Inv(data, r.l, pos, close + [0]) && Kept(data, l, r, pos, close)
  {
    hide Inv;
    var r := BegQuote(l, pos, single);
    OpenKeeps(data, l, pos, close, if single then TYPE_QUOTE_S else TYPE_QUOTE_D, r.l.state);
    LaterKeeps(data, r.l, pos, close + [0], pos + 1);
    KeptMore(data, l, r, pos, close);
  }

  lemma EndListKeeps(data: string, l: Lexer, pos: nat, close: seq<nat>, byte: char)
    requires Inv(data, l, pos, close) && Shape(l, pos) && !Quoting(l.state)
    requires (byte == ')' || byte == ']') && ByteAt(data, pos, byte)
    ensures Kept(data, l, EndList(data, l, pos, byte), pos, close)
  {
    hide Inv;
    if EndList(data, l, pos, byte).Next? {
      InvBasics(data, l, pos, close);
      CloseKeeps(data, l, pos, close, byte);
      var r := EndList(data, l, pos, byte);
      assert OpenListsOf(r.l) == l.open[..|l.open| - 1] && OpenListsOf(l) == l.open;
      KeptBy(data, l, r, pos, close, close[Top(l) - 1 := pos]);
    }
  }

  lemma ChooseKeeps(data: string, l: Lexer, pos: nat, len: nat, close: seq<nat>)
    requires Inv(data, l, pos, close) && Shape(l, pos) && l.state == ST_CHOOSE
    requires Within(data, pos, len) && len > 0
    ensures Kept(data, l, Choose(data, l, pos, len), pos, close)
  {
    hide Inv;
    var byte := data[pos - 1];
    if byte in WS {
      BlankKeeps(data, l, pos, len, close);
    } else if byte == ')' || byte == ']' {
      EndListKeeps(data, l, pos, close, byte);
    } else if byte == '(' || byte == '[' {
      BegListKeeps(data, l, pos, close);
    } else if byte == '"' || byte == '\'' {
      BegQuoteKeeps(data, l, pos, close, byte == '\'');
    } else if Choose(data, l, pos, len).l.state == ST_UNQUOTE_BEG {
      SkipKeeps(data, l, pos, close, ST_UNQUOTE_BEG, pos + 1);
      KeptSame(data, l, Choose(data, l, pos, len), pos, close);
    } else {
      var plen := CSpan(Slice(data, pos, len), DELIMS);
      PushKeeps(data, l, pos, close, Sect(pos, plen), ST_SYMBOL_END);
      KeptMore(data, l, Choose(data, l, pos, len), pos, close);
    }
  }

  lemma InvBasics(data: string, l: Lexer, pos: nat, close: seq<nat>)
    requires Inv(data, l, pos, close)
    ensures |l.sects| == |l.types| == |close|
    ensures l.open != [] ==> 1 <= Top(l) <= |close|
    ensures Quoting(l.state) ==> l.open != [] && Top(l) == |l.sects| && l.sects[Top(l) - 1].len == 0
    ensures l.state == ST_SYMBOL_END ==> l.sects != []
  {
  }

  lemma LaterKeeps(data: string, l: Lexer, pos: nat, close: seq<nat>, q: nat)
    requires Inv(data, l, pos, close) && pos <= q
    ensures Inv(data, l, q, close)
  {
    hide Shallow, Tokens, OpenLists, Ascending;
    TokensLater(data, l.sects, l.types, close, if Quoting(l.state) then pos + 1 else pos, if Quoting(l.state) then q + 1 else q);
  }

  lemma SymbolEndKeeps(data: string, l: Lexer, pos: nat, len: nat, close: seq<nat>)
    requires Inv(data, l, pos, close) && Shape(l, pos) && l.state == ST_SYMBOL_END
    requires Within(data, pos, len) && len > 0
    ensures Kept(data, l, SymbolEnd(data, l, pos, len), pos, close)
  {
    hide Inv;
    InvBasics(data, l, pos, close);
    var byte := data[pos - 1];
    var r := SymbolEnd(data, l, pos, len);
    if r.Next? {
      var comment := EndsInComment(data, l);
      var l1 := if comment then DropLast(l) else l;
      var close1 := if comment then close[..|close| - 1] else close;
      if comment {
        DropKeeps(data, l, pos, close);
      }
      if comment && CSpan(Slice(data, pos, len), "\n") != 0 {
        SkipKeeps(data, l1, pos, close1, ST_CHOOSE, pos + r.plen);
        KeptSame(data, l1, r, pos, close1);
      } else if byte in WS {
        BlankKeeps(data, l1, pos, len, close1);
      } else if byte == ')' || byte == ']' {
        EndListKeeps(data, l1, pos, close1, byte);
      } else {
        BegListKeeps(data, l1, pos, close1);
      }
      if comment {
        KeptDropped(data, l, r, pos, close);
      }
    }
  }

  lemma BegQuoteXxxKeeps(data: string, l: Lexer, pos: nat, close: seq<nat>, three: bool, q: nat)
    requires Inv(data, l, pos, close) && Shape(l, pos) && InQuoteBeg(l.state)
    requires pos + (if three then 2 else 0) <= q
    ensures Inv(data, BegQuoteXxx(l, pos, three), q, close)
  {
    hide Inv;
    InvBasics(data, l, pos, close);
    var r := BegQuoteXxx(l, pos, three);
    var n := |l.sects| - 1;
    EditKeeps(data, l, pos, close, r.sects[n], r.types[n], r.state, q);
    assert r == Edited(l, r.sects[n], r.types[n], r.state);
  }

  lemma SkipFirstLineKeeps(data: string, l: Lexer, pos: nat, close: seq<nat>)
    requires Inv(data, l, pos, close) && Shape(l, pos) && InQuote(l.state)
    ensures Inv(data, SkipFirstLine(l, pos), pos + 2, close)
  {
    hide Inv;
    InvBasics(data, l, pos, close);
    var r := SkipFirstLine(l, pos);
    var n := |l.sects| - 1;
    EditKeeps(data, l, pos, close, r.sects[n], r.types[n], r.state, pos + 2);
    assert r == Edited(l, r.sects[n], r.types[n], r.state);
  }

  lemma BegUnquoteKeeps(data: string, l: Lexer, pos: nat, len: nat, close: seq<nat>)
    requires Inv(data, l, pos, close) && Shape(l, pos) && l.state == ST_UNQUOTE_BEG
    requires Within(data, pos, len)
    ensures Kept(data, l, BegUnquote(data, l, pos, len), pos, close)
  {
    hide Inv, Shape;
    var d := HasPrefix(data, pos, len, "\"");
    var xxx := HasPrefix(data, pos, len, "\"\"\"") || HasPrefix(data, pos, len, "'''");
    if d || HasPrefix(data, pos, len, "'") {
      var plen := if xxx then 3 else 1;
      var l1 := BegQuote(l, pos, !d).l;
      BegQuoteKeeps(data, l, pos, close, !d);
      SkipKeeps(data, l1, pos, close + [0], l1.state, pos + 1);
      assert l1.(state := l1.state) == l1;
      BegQuoteXxxKeeps(data, l1, pos + 1, close + [0], xxx, pos + plen);
      var l2 := BegQuoteXxx(l1, pos + 1, xxx);
      SkipKeeps(data, l2, pos + plen, close + [0], Raw(l2, pos + plen).state, pos + plen);
      if HasPrefix(data, pos + plen, len - plen, "\\\n") {
        SkipFirstLineKeeps(data, Raw(l2, pos + plen), pos + plen, close + [0]);
      }
      KeptMore(data, l, BegUnquote(data, l, pos, len), pos, close);
    } else {
      assert BegUnquote(data, l, pos, len).Err?;
    }
  }

  lemma EndQuoteKeeps(data: string, l: Lexer, pos: nat, close: seq<nat>, p: nat, q: nat)
    requires Inv(data, l, pos, close) && Shape(l, pos) && InQuote(l.state) && pos <= p < q
    ensures Inv(data, EndQuote(l, p), q, close)
  {
    hide Inv;
    InvBasics(data, l, pos, close);
    var r := EndQuote(l, p);
    var n := |l.sects| - 1;
    EditKeeps(data, l, pos, close, r.sects[n], r.types[n], r.state, q);
    assert r == Edited(l, r.sects[n], r.types[n], r.state);
  }

  lemma EscQuoteKeeps(data: string, l: Lexer, pos: nat, len: nat, close: seq<nat>, typ: nat)
    requires Inv(data, l, pos, close) && Shape(l, pos) && InQuote(l.state)
    requires Within(data, pos, len) && len > 0 && TYPE_QUOTE_D <= typ < TYPE_QUOTE_ESC_SSS
    ensures Kept(data, l, EscQuote(data, l, pos, len, typ), pos, close)
  {
    hide Inv;
    InvBasics(data, l, pos, close);
    var r := EscQuote(data, l, pos, len, typ);
    if r.Next? {
      var n := |l.sects| - 1;
      EditKeeps(data, l, pos, close, r.l.sects[n], r.l.types[n], l.state, pos + 2);
      assert r.l == Edited(l, r.l.sects[n], r.l.types[n], l.state);
      KeptSame(data, l, r, pos, close);
    }
  }

  lemma QuoteEndKeeps(data: string, l: Lexer, pos: nat, len: nat, close: seq<nat>, three: bool, quote: char, typ: nat)
    requires Inv(data, l, pos, close) && Shape(l, pos) && InQuote(l.state)
    requires Within(data, pos, len) && len > 0 && TYPE_QUOTE_D <= typ < TYPE_QUOTE_ESC_SSS
    ensures var r := if three then QuoteXxxEnd(data, l, pos, len, quote, typ) else QuoteXEnd(data, l, pos, len, quote, typ);
            Kept(data, l, r, pos, close)
  {
    hide Inv;
    var r := if three then QuoteXxxEnd(data, l, pos, len, quote, typ) else QuoteXEnd(data, l, pos, len, quote, typ);
    if r.Next? {
      if r.l == EndQuote(l, pos) {
        EndQuoteKeeps(data, l, pos, close, pos, pos + r.plen);
        KeptSame(data, l, r, pos, close);
      } else if r.l == l {
        LaterKeeps(data, l, pos, close, pos + r.plen);
        KeptSame(data, l, r, pos, close);
      } else {
        EscQuoteKeeps(data, l, pos, len, close, typ);
      }
    }
  }

  lemma UnquoteEndKeeps(data: string, l: Lexer, pos: nat, len: nat, close: seq<nat>, end: string)
    requires Inv(data, l, pos, close) && Shape(l, pos) && InQuote(l.state)
    requires Within(data, pos, len) && len > 0 && end != []
    ensures Kept(data, l, UnquoteEnd(data, l, pos, len, end), pos, close)
  {
    hide Inv;
    var p := Search(data, pos, len, end);
    if p == 0 {
      LaterKeeps(data, l, pos, close, pos + len);
    } else {
      EndQuoteKeeps(data, l, pos, close, p, p + |end|);
    }
    KeptSame(data, l, UnquoteEnd(data, l, pos, len, end), pos, close);
  }

  lemma StepKeeps(data: string, l: Lexer, pos: nat, len: nat, close: seq<nat>)
    requires Inv(data, l, pos, close) && Shape(l, pos)
    requires Within(data, pos, len) && len > 0
    ensures Kept(data, l, Step(data, l, pos, len), pos, close)
  {
    hide Inv;
    var r := Step(data, l, pos, len);
    if r.Err? {
    } else if l.state == ST_BEG {
      SkipKeeps(data, l, pos, close, r.l.state, pos + r.plen);
      KeptSame(data, l, r, pos, close);
    } else if l.state == ST_WS {
      BlankKeeps(data, l, pos, len, close);
    } else if l.state == ST_LIST_END_OR_WS {
      if data[pos - 1] in WS {
        BlankKeeps(data, l, pos, len, close);
      } else {
        EndListKeeps(data, l, pos, close, data[pos - 1]);
      }
    } else if l.state == ST_CHOOSE {
      ChooseKeeps(data, l, pos, len, close);
    } else if InQuoteBeg(l.state) {
      BegQuoteXxxKeeps(data, l, pos, close, r.plen == 2, pos + r.plen);
      KeptSame(data, l, r, pos, close);
    } else if l.state == ST_UNQUOTE_BEG {
      BegUnquoteKeeps(data, l, pos, len, close);
    } else if l.state == ST_SYMBOL_END {
      SymbolEndKeeps(data, l, pos, len, close);
    } else if l.state <= ST_QUOTE_SSS_END {
      QuoteEndKeeps(data, l, pos, len, close, l.state == ST_QUOTE_DDD_END || l.state == ST_QUOTE_SSS_END,
        if l.state == ST_QUOTE_D_END || l.state == ST_QUOTE_DDD_END then '"' else '\'',
        if l.state == ST_QUOTE_D_END then TYPE_QUOTE_D
        else if l.state == ST_QUOTE_DDD_END then TYPE_QUOTE_DDD
        else if l.state == ST_QUOTE_S_END then TYPE_QUOTE_S
        else TYPE_QUOTE_SSS);
    } else {
      UnquoteEndKeeps(data, l, pos, len, close,
        if l.state == ST_UNQUOTE_DDD_END then "\"\"\""
        else if l.state == ST_UNQUOTE_D_END then "\""
        else if l.state == ST_UNQUOTE_SSS_END then "'''"
        else "'");
    }
  }

  lemma {:induction false} RunKeeps(data: string, l: Lexer, pos: nat, len: nat, close: seq<nat>)
    requires Inv(data, l, pos, close) && Shape(l, pos)
    requires Within(data, pos, len)
    ensures var r := Run(data, l, pos, len);
            r.Next? ==>
              r.l.state == ST_END && r.l.open == [] && Inv(data, r.l, pos + len, Closings(data, l, pos, len, close))
    decreases len, Rank(l.state)
  {
    hide Inv, Step, Shape;
    InvBasics(data, l, pos, close);
    if len == 0 {
      if l.open == [] {
        SkipKeeps(data, l, pos, close, ST_END, pos);
      }
    } else {
      var next := Step(data, l, pos, len);
      if next.Next? {
        StepKeeps(data, l, pos, len, close);
        RunKeeps(data, next.l, pos + next.plen, len - next.plen, ClosedAt(l, next.l, pos, close));
      }
    }
  }

  /** Lists end inside the array and never overlap partly; every token has a final type. */
  ghost predicate WellNested(sects: seq<Sect>, types: seq<nat>) {
    && |sects| == |types|
    && (forall i :: 0 <= i < |types| ==> TYPE_CLIST <= types[i] <= TYPE_SYMBOL)
    && (forall i :: 0 <= i < |types| && IsList(types[i]) ==> End(sects, i) < |sects|)
    && (forall i, j :: 0 <= i < j < |types| && IsList(types[i]) && IsList(types[j]) && j <= End(sects, i)
          ==> End(sects, j) <= End(sects, i))
  }

  /** The array is the bracket structure of the text: `close` gives the closing brackets, which are those the
    list types name. A token is inside a list exactly when it is between its brackets, and then all of it is:
    a string or symbol ends before the closing bracket, and a list inside closes before the one around it.
    Every later token begins behind that bracket. */
  ghost predicate Mirrors(data: string, sects: seq<Sect>, types: seq<nat>, close: seq<nat>) {
    && |sects| == |types| == |close|
    && Ascending(sects)
    && (forall i :: 0 <= i < |sects| && IsList(types[i]) ==> Bracketed(data, sects, types, close, i))
    && (forall i, j :: 0 <= i < j < |sects| && IsList(types[i]) ==>
          && (j <= End(sects, i) <==> sects[i].pos < sects[j].pos < close[i])
          && (j <= End(sects, i) && IsList(types[j]) ==> close[j] < close[i])
          && (j <= End(sects, i) && !IsList(types[j]) ==> sects[j].pos + sects[j].len <= close[i])
          && (j > End(sects, i) ==> close[i] < sects[j].pos))
  }

  /** The closing brackets the lexer finds in a text. */
  ghost function LexClosings(data: string): seq<nat> {
    Closings(data, INITIAL, 1, |data|, [])
  }

  lemma TokensNest(data: string, sects: seq<Sect>, types: seq<nat>, close: seq<nat>, p: nat)
    requires Tokens(data, sects, types, close, p) && Ascending(sects)
    requires TYPE_ERR !in types
    ensures WellNested(sects, types) && Mirrors(data, sects, types, close)
  {
    hide Bracketed;
    forall i | 0 <= i < |sects| && IsList(types[i])
      ensures ListOk(data, sects, types, close, i)
    {
    }
    forall i, j | 0 <= i < j < |sects| && IsList(types[i])
      ensures sects[i].pos < sects[j].pos
      ensures if j <= End(sects, i) then
                && sects[j].pos < close[i]
                && (if IsList(types[j]) then End(sects, j) <= End(sects, i) && close[j] < close[i]
                    else sects[j].pos + sects[j].len <= close[i])
              else sects[j].pos > close[i]
    {
      assert ListOk(data, sects, types, close, i);
    }
  }

  /** Whenever the lexer accepts a text, its tokens are well nested, not too deep, and mirror the
    brackets. */
  lemma LexStructure(data: string)
    requires Lex(data).Next?
    ensures WellNested(Lex(data).l.sects, Lex(data).l.types)
    ensures Shallow(Lex(data).l.sects, Lex(data).l.types)
    ensures forall i :: 0 <= i < |Lex(data).l.sects| ==> Lex(data).l.sects[i].pos <= |data|
    ensures Mirrors(data, Lex(data).l.sects, Lex(data).l.types, LexClosings(data))
  {
    hide Run, Tokens, WellNested, Mirrors, Shallow, Closings;
    var l := Lex(data).l;
    TokensBegin(data);
    RunKeeps(data, INITIAL, 1, |data|, []);
    var close := LexClosings(data);
    TokensNest(data, l.sects, l.types, close, 1 + |data|);
    TokensBefore(data, l.sects, l.types, close, 1 + |data|);
  }

  lemma TokensBegin(data: string)
    ensures Inv(data, INITIAL, 1, [])
  {
  }

  /** The number of turns of the loop of conf_parse_lex. */
  ghost function Steps(data: string, l: Lexer, pos: nat, len: nat): nat
    requires Shape(l, pos) && Within(data, pos, len)
    decreases len, Rank(l.state)
  {
    if len == 0 || Step(data, l, pos, len).Err? then 0
    else
      var next := Step(data, l, pos, len);
      1 + Steps(data, next.l, pos + next.plen, len - next.plen)
  }

  /** The lexer stops on every text, after at most two turns a byte and one more. */
  lemma {:induction false} StepsAreFew(data: string, l: Lexer, pos: nat, len: nat)
    requires Shape(l, pos) && Within(data, pos, len)
    ensures Steps(data, l, pos, len) <= 2 * len + Rank(l.state)
    decreases len, Rank(l.state)
  {
    hide Step;
    hide Shape;
    if len != 0 && Step(data, l, pos, len).Next? {
      var next := Step(data, l, pos, len);
      StepsAreFew(data, next.l, pos + next.plen, len - next.plen);
    }
  }
}
