/** The lexical helpers of the HTTP parsers: implied linear whitespace, blanks and commas. */
module HttpText {
  import opened Vstr

  const EOL := "\r\n"
  const LWS := " \t"

  predicate Starts(s: string, t: string) {
    |t| <= |s| && s[..|t|] == t
  }

  /** The loop of http__skip_lws: how much it skips; seen is whether it has skipped blanks already. */
  function LwsFrom(s: string, seen: bool): (n: nat)
    ensures n <= |s|
  {
    var e := if Starts(s, EOL) then 2 else 0;
    if e == 0 && seen then 0
    else
      var k := Span(s[e..], LWS);
      if k == 0 then e else e + k + LwsFrom(s[e + k..], true)
  }

  /** HTTP_SKIP_LWS: how much is skipped. */
  function Lws(s: string): (n: nat)
    ensures n <= |s|
  {
    if s == [] || (s[0] != '\r' && s[0] != ' ' && s[0] != '\t') then 0 else LwsFrom(s, false)
  }

  /** http__parse_skip_blanks: whitespace and commas. */
  function Blanks(s: string): (n: nat)
    ensures n <= |s|
  {
    var n := Lws(s);
    n + Commas(s[n..])
  }

  function Commas(s: string): (n: nat)
    ensures n <= |s|
  {
    if Starts(s, ",") then
      var n := 1 + Lws(s[1..]);
      n + Commas(s[n..])
    else 0
  }

  lemma SliceRest(data: string, pos: nat, len: nat, n: nat)
    requires Within(data, pos, len) && n <= len
    ensures Slice(data, pos, len)[n..] == Slice(data, pos + n, len - n)
  {
  }

  lemma StartsLong(s: string, t: string)
    ensures Starts(s, t) ==> |s| >= |t|
  {
  }

  lemma StartsIs(s: string, c: char)
    ensures Starts(s, [c]) <==> s != [] && s[0] == c
  {
    if s != [] {
      assert s[..1] == [s[0]];
    }
  }

  lemma StartsEol(s: string)
    ensures Starts(s, EOL) <==> |s| >= 2 && s[0] == '\r' && s[1] == '\n'
  {
    if |s| >= 2 {
      assert s[..2] == [s[0], s[1]];
    }
  }

  lemma LwsStep(s: string, seen: bool)
    ensures var e := if Starts(s, EOL) then 2 else 0;
            var k := Span(s[e..], LWS);
            LwsFrom(s, seen) == if e == 0 && seen then 0
                                else if k == 0 then e else e + k + LwsFrom(s[e + k..], true)
  {
    hide Starts, Span;
  }

  lemma HasPrefixIs(data: string, pos: nat, len: nat, t: string)
    requires Within(data, pos, len)
    ensures HasPrefix(data, pos, len, t) == Starts(Slice(data, pos, len), t)
  {
    if |t| <= len {
      assert Slice(data, pos, len)[..|t|] == Slice(data, pos, |t|);
    }
  }

  /** http__skip_lws */
  method SkipLwsLoop(data: string, pos0: nat, len0: nat) returns (pos: nat, len: nat)
    requires Within(data, pos0, len0)
    ensures var n := LwsFrom(Slice(data, pos0, len0), false); pos == pos0 + n && len == len0 - n
  {
    hide LwsFrom, Span, Starts, HasPrefix, Slice;
    pos, len := pos0, len0;
    var lwsLen := 0;
    ghost var total := LwsFrom(Slice(data, pos, len), false);
    while true
      invariant pos0 <= pos && pos + len == pos0 + len0 && Within(data, pos, len)
      invariant pos - pos0 + LwsFrom(Slice(data, pos, len), lwsLen > 0) == total
      decreases len
    {
      ghost var s := Slice(data, pos, len);
      LwsStep(s, lwsLen > 0);
      StartsEol(s);
      HasPrefixIs(data, pos, len, EOL);
      if HasPrefix(data, pos, len, EOL) {
        SliceRest(data, pos, len, 2);
        len, pos := len - 2, pos + 2;
      } else if lwsLen > 0 {
        break;
      }
      lwsLen := Span(Slice(data, pos, len), LWS);
      if lwsLen == 0 {
        break;
      }
      SliceRest(data, pos, len, lwsLen);
      len, pos := len - lwsLen, pos + lwsLen;
    }
  }

  /** HTTP_SKIP_LWS */
  method SkipLws(data: string, pos0: nat, len0: nat) returns (pos: nat, len: nat)
    requires Within(data, pos0, len0)
    ensures var n := Lws(Slice(data, pos0, len0)); pos == pos0 + n && len == len0 - n
  {
    if len0 == 0 {
      return pos0, len0;
    }
    var c := data[pos0 - 1];
    assert Slice(data, pos0, len0)[0] == c;
    if c != '\r' && c != ' ' && c != '\t' {
      return pos0, len0;
    }
    pos, len := SkipLwsLoop(data, pos0, len0);
  }

  /** http__parse_skip_blanks */
  method SkipBlanks(data: string, pos0: nat, len0: nat) returns (pos: nat, len: nat)
    requires Within(data, pos0, len0)
    ensures var n := Blanks(Slice(data, pos0, len0)); pos == pos0 + n && len == len0 - n
  {
    hide Lws, Slice;
    ghost var total := Blanks(Slice(data, pos0, len0));
    pos, len := SkipLws(data, pos0, len0);
    SliceRest(data, pos0, len0, pos - pos0);
    while HasPrefix(data, pos, len, ",")
      invariant pos0 <= pos && pos + len == pos0 + len0 && Within(data, pos, len)
      invariant pos - pos0 + Commas(Slice(data, pos, len)) == total
      decreases len
    {
      ghost var s := Slice(data, pos, len);
      HasPrefixIs(data, pos, len, ",");
      SliceRest(data, pos, len, 1);
      len, pos := len - 1, pos + 1;
      ghost var p := pos;
      pos, len := SkipLws(data, pos, len);
      SliceRest(data, p - 1, |s|, pos - (p - 1));
    }
    HasPrefixIs(data, pos, len, ",");
  }

  /** A text that does not begin with whitespace. */
  predicate Solid(s: string) {
    s == [] || (s[0] !in LWS && s[0] != '\r')
  }

  /** A byte of whitespace that one skip takes: a blank, or part of a line end that a blank follows. */
  predicate FoldedAt(p: string, i: nat)
    requires i < |p|
  {
    || p[i] in LWS
    || (p[i] == '\r' && i + 2 < |p| && p[i + 1] == '\n' && p[i + 2] in LWS)
    || (p[i] == '\n' && i > 0 && p[i - 1] == '\r')
  }

  predicate Folded(p: string) {
    forall i :: 0 <= i < |p| ==> FoldedAt(p, i)
  }

  lemma BlankIs(c: char)
    ensures c in LWS <==> c == ' ' || c == '\t'
  {
    assert LWS == [' ', '\t'];
  }

  predicate TwoEnds(s: string) {
    |s| >= 4 && s[0] == s[2] == '\r' && s[1] == s[3] == '\n'
  }

  /** Folded whitespace begins with a blank, or with a line end and a blank. */
  lemma FoldedStart(p: string)
    requires p != [] && Folded(p)
    ensures p[0] in LWS || (|p| > 2 && p[0] == '\r' && p[1] == '\n' && p[2] in LWS)
  {
    assert FoldedAt(p, 0);
  }

  /** Behind a blank, folded whitespace is folded. */
  lemma FoldedRest(p: string, m: nat)
    requires 0 < m <= |p| && Folded(p) && p[m - 1] in LWS
    ensures Folded(p[m..])
  {
    BlankIs(p[m - 1]);
    forall i | 0 <= i < |p| - m
      ensures FoldedAt(p[m..], i)
    {
      assert FoldedAt(p, m + i);
    }
  }

  /** What one turn of the loop takes: a line end or not, and then blanks. */
  function Turn(s: string): (m: nat)
    ensures m <= |s|
    ensures m < |s| ==> s[m] !in LWS
  {
    var e := LineEnd(s);
    var k := Span(s[e..], LWS);
    assert k < |s[e..]| ==> s[e..][k] == s[e + k];
    e + k
  }

  function LineEnd(s: string): (e: nat)
    ensures e <= |s|
  {
    if Starts(s, EOL) then 2 else 0
  }

  lemma LwsTurn(s: string, seen: bool)
    ensures LwsFrom(s, seen) ==
      if (LineEnd(s) == 0 && seen) || Turn(s) == LineEnd(s) then LineEnd(s) else Turn(s) + LwsFrom(s[Turn(s)..], true)
    ensures Turn(s) >= LineEnd(s)
  {
    hide LwsFrom, Span, LineEnd, Turn;
    TurnIs(s);
    LwsStepAt(s, seen, LineEnd(s), Span(s[LineEnd(s)..], LWS));
  }

  lemma LwsStepAt(s: string, seen: bool, e: nat, k: nat)
    requires e == LineEnd(s) && k == Span(s[e..], LWS)
    ensures LwsFrom(s, seen) == if e == 0 && seen then 0 else if k == 0 then e else e + k + LwsFrom(s[e + k..], true)
  {
    hide LwsFrom, Span, Starts;
    LwsStep(s, seen);
  }

  lemma TurnIs(s: string)
    ensures Turn(s) == LineEnd(s) + Span(s[LineEnd(s)..], LWS)
  {
    hide Span, Starts;
  }

  lemma TurnBlank(s: string, i: nat)
    requires LineEnd(s) <= i < Turn(s)
    ensures s[i] in LWS
  {
    var e := LineEnd(s);
    assert s[e..][i - e] == s[i];
  }

  lemma LineEndIs(s: string)
    ensures LineEnd(s) == if |s| >= 2 && s[0] == '\r' && s[1] == '\n' then 2 else 0
  {
    StartsEol(s);
  }

  /** One turn stays inside folded whitespace, and takes some of it. */
  lemma FoldedTurn(s: string, k: nat)
    requires 0 < k <= |s| && Folded(s[..k]) && TwoEnds(s[k..])
    ensures var m := Turn(s); LineEnd(s) < m <= k && m < |s| && Folded(s[m..][..k - m]) && TwoEnds(s[m..][k - m..])
  {
    hide Folded, Turn;
    FoldedStart(s[..k]);
    LineEndIs(s);
    BlankIs('\r');
    BlankIs(s[0]);
    TurnEnds(s, k);
    var m := Turn(s);
    FoldedRest(s[..k], m);
    assert s[..k][m..] == s[m..][..k - m];
    assert s[m..][k - m..] == s[k..];
  }

  lemma TurnEnds(s: string, k: nat)
    requires LineEnd(s) < k < |s| && s[LineEnd(s)] in LWS && s[k] !in LWS
    ensures LineEnd(s) < Turn(s) <= k && s[Turn(s) - 1] in LWS
  {
    var e := LineEnd(s);
    assert s[e..][0] == s[e];
    if Turn(s) > k {
      TurnBlank(s, k);
    }
    TurnBlank(s, Turn(s) - 1);
  }

  /** One skip stops between the two line ends. */
  lemma {:induction false} FoldedSkip(s: string, seen: bool, k: nat)
    requires k <= |s| && Folded(s[..k]) && TwoEnds(s[k..]) && (seen ==> s[0] !in LWS)
    ensures LwsFrom(s, seen) == k + 2
    decreases |s|
  {
    hide LwsFrom, Folded, TwoEnds, Turn, LineEnd;
    LwsTurn(s, seen);
    if k == 0 {
      NoBlanks(s);
    } else {
      FoldedTurn(s, k);
      var m := Turn(s);
      if LineEnd(s) == 0 && seen {
        TurnBlank(s, 0);
      }
      assert s[m..][0] == s[m];
      FoldedSkip(s[m..], true, k - m);
    }
  }

  lemma NoBlanks(s: string)
    requires TwoEnds(s[0..])
    ensures Turn(s) == LineEnd(s) == 2
  {
    assert s[0..] == s;
    LineEndIs(s);
  }

  /** One turn stays inside folded whitespace that solid text follows, too. */
  lemma SolidTurn(s: string, k: nat)
    requires 0 < k <= |s| && Folded(s[..k]) && Solid(s[k..])
    ensures var m := Turn(s); LineEnd(s) < m <= k && Folded(s[m..][..k - m]) && Solid(s[m..][k - m..])
    ensures LineEnd(s) == 0 ==> s[0] in LWS
  {
    hide Folded, Turn;
    FoldedStart(s[..k]);
    LineEndIs(s);
    BlankIs('\r');
    BlankIs(s[0]);
    assert k < |s| ==> s[k..][0] == s[k];
    TurnStops(s, k);
    var m := Turn(s);
    FoldedRest(s[..k], m);
    assert s[..k][m..] == s[m..][..k - m];
    assert s[m..][k - m..] == s[k..];
  }

  lemma TurnStops(s: string, k: nat)
    requires LineEnd(s) < k <= |s| && s[LineEnd(s)] in LWS && (k < |s| ==> s[k] !in LWS)
    ensures LineEnd(s) < Turn(s) <= k && s[Turn(s) - 1] in LWS
  {
    var e := LineEnd(s);
    assert s[e..][0] == s[e];
    if Turn(s) > k {
      TurnBlank(s, k);
    }
    TurnBlank(s, Turn(s) - 1);
  }

  lemma {:induction false} SolidSkip(s: string, seen: bool, k: nat)
    requires k <= |s| && Folded(s[..k]) && Solid(s[k..]) && (seen && s != [] ==> s[0] !in LWS)
    ensures LwsFrom(s, seen) == k
    decreases |s|
  {
    hide LwsFrom, Folded, Turn, LineEnd, Solid;
    LwsTurn(s, seen);
    if k == 0 {
      SolidStays(s);
    } else {
      SolidTurn(s, k);
      var m := Turn(s);
      assert m < |s| ==> s[m..][0] == s[m];
      SolidSkip(s[m..], true, k - m);
    }
  }

  lemma SolidStays(s: string)
    requires Solid(s[0..])
    ensures Turn(s) == LineEnd(s) == 0
  {
    assert s[0..] == s;
    LineEndIs(s);
  }

  /** Blanks and folded lines before solid text are skipped in one go, and nothing more. */
  lemma FoldedLws(sp: string, s: string)
    requires Folded(sp) && Solid(s)
    ensures Lws(sp + s) == |sp|
  {
    hide LwsFrom, Folded, Solid;
    var t := sp + s;
    assert t[..|sp|] == sp && t[|sp|..] == s;
    LwsSome(t);
    SolidSkip(t, false, |sp|);
  }

  /** Conversely, a skip that stops before a line end has stopped between two of them. */
  lemma {:induction false} SkipFolded(s: string, seen: bool) returns (k: nat)
    requires Starts(s[LwsFrom(s, seen)..], EOL)
    ensures LwsFrom(s, seen) == k + 2 && k <= |s| && Folded(s[..k]) && TwoEnds(s[k..])
    decreases |s|
  {
    hide LwsFrom, Folded, TwoEnds, Turn, LineEnd, Starts;
    LwsTurn(s, seen);
    if (LineEnd(s) == 0 && seen) || Turn(s) == LineEnd(s) {
      NoTurn(s);
      k := 0;
    } else {
      var m := Turn(s);
      Tails(s, m, LwsFrom(s[m..], true));
      k := SkipFolded(s[m..], true);
      FoldedMore(s, k);
      k := m + k;
    }
  }

  lemma Tails(s: string, m: nat, n: nat)
    requires m + n <= |s|
    ensures s[m..][n..] == s[m + n..]
  {
  }

  lemma NoTurn(s: string)
    requires Starts(s[LineEnd(s)..], EOL)
    ensures LineEnd(s) == 2 && Folded(s[..0]) && TwoEnds(s[0..])
  {
    LineEndIs(s);
    StartsEol(s[LineEnd(s)..]);
    assert s[0..] == s;
  }

  lemma FoldedMore(s: string, n: nat)
    requires Turn(s) > LineEnd(s)
    requires Turn(s) + n <= |s| && Folded(s[Turn(s)..][..n]) && TwoEnds(s[Turn(s)..][n..])
    ensures Folded(s[..Turn(s) + n]) && TwoEnds(s[Turn(s) + n..])
  {
    hide Turn;
    var m := Turn(s);
    var p := s[..m + n];
    assert s[m..][n..] == s[m + n..];
    forall i | 0 <= i < |p|
      ensures FoldedAt(p, i)
    {
      if i >= m {
        assert FoldedAt(s[m..][..n], i - m);
      } else {
        LineEndIs(s);
        TurnBlank(s, if i < LineEnd(s) then LineEnd(s) else i);
      }
    }
  }

  /** A second skip goes on where the first one stopped exactly when two line ends follow one another behind
    whitespace that one skip takes. */
  lemma LwsTwice(s: string)
    ensures Lws(s[Lws(s)..]) > 0 <==> exists k :: 0 <= k <= |s| && Folded(s[..k]) && TwoEnds(s[k..])
  {
    hide LwsFrom, Folded, TwoEnds;
    var r := s[Lws(s)..];
    LwsSome(r);
    LwsSome(s);
    LwsStops(s);
    if Lws(r) > 0 {
      var k := SkipFolded(s, false);
    }
    forall k | 0 <= k <= |s| && Folded(s[..k]) && TwoEnds(s[k..])
      ensures Lws(r) > 0
    {
      FoldedSkip(s, false, k);
      FoldedWhite(s, k);
      NextEnd(s, k);
    }
  }

  /** Something is skipped exactly when the text begins with a blank or a line end. */
  lemma LwsSome(s: string)
    ensures Lws(s) > 0 <==> (s != [] && s[0] in LWS) || Starts(s, EOL)
    ensures Lws(s) == LwsFrom(s, false)
  {
    StartsEol(s);
    LwsStep(s, false);
    assert s[0..] == s;
  }

  /** Nothing that stands where a skip stops is a blank. */
  lemma {:induction false} LwsFromStops(s: string, seen: bool)
    requires seen ==> s == [] || s[0] !in LWS
    ensures var r := s[LwsFrom(s, seen)..]; r == [] || r[0] !in LWS
    decreases |s|
  {
    hide LwsFrom, Turn, LineEnd;
    LwsTurn(s, seen);
    var m := Turn(s);
    if !(LineEnd(s) == 0 && seen) && m > LineEnd(s) {
      LwsFromStops(s[m..], true);
      assert s[m..][LwsFrom(s[m..], true)..] == s[LwsFrom(s, seen)..];
    }
  }

  lemma LwsStops(s: string)
    ensures var r := s[Lws(s)..]; r == [] || r[0] !in LWS
  {
    LwsSome(s);
    LwsFromStops(s, false);
  }

  lemma FoldedWhite(s: string, k: nat)
    requires k <= |s| && Folded(s[..k]) && TwoEnds(s[k..])
    ensures s != []
  {
  }

  lemma NextEnd(s: string, k: nat)
    requires k <= |s| && TwoEnds(s[k..])
    ensures k + 2 <= |s| && Starts(s[k + 2..], EOL)
  {
    StartsEol(s[k + 2..]);
    assert s[k..][2] == s[k + 2..][0] && s[k..][3] == s[k + 2..][1];
  }

  /** A text of which a second skip takes more. */
  lemma LwsGoesOn()
    ensures var s := " \r\n\r\n 5"; Lws(s) == 3 && Lws(s[3..]) > 0
  {
    hide LwsFrom;
    var s := " \r\n\r\n 5";
    assert Folded(s[..1]) && TwoEnds(s[1..]);
    FoldedSkip(s, false, 1);
    LwsSome(s);
    LwsTwice(s);
  }
}
