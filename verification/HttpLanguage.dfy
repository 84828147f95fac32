/** Language negotiation: one pass over an Accept-Language header, section 14.4 of RFC 2616. */
module HttpLanguage {
  import opened Vstr
  import opened HttpText
  import opened Number

  const NONE: nat := 1001

  // ---------------------------------------------------------------- qualities

  /** What a quality parameter comes to, and how much of the text it is. */
  datatype Quality = Bad | Good(val: nat, len: nat)

  /** Whether a quality may end here. */
  predicate AtEnd(s: string, allowMore: bool) {
    s == [] || Starts(s, ",") || (allowMore && Starts(s, ";"))
  }

  /** The end of a quality, at k of s, where the text so far was worth val. */
  function EndAt(s: string, k: nat, val: nat, allowMore: bool, other: Quality): Quality
    requires k <= |s|
  {
    var n := k + Lws(s[k..]);
    if AtEnd(s[n..], allowMore) then Good(val, n) else other
  }

  /** The digits after the point; scaled whatever comes before the point. */
  function Fraction(s: string, k: nat, val: nat, allowMore: bool): Quality
    requires k <= |s|
  {
    var n := Span(s[k..], DIGITS);
    var sum := val + Decimal(s[k..][..n]);
    if n == 0 || n > 3 || sum > 1000 then Bad
    else EndAt(s, k + n, if n == 1 then sum * 100 else if n == 2 then sum * 10 else sum, allowMore, Bad)
  }

  /** The value after "q=", at k of s. */
  function Value(s: string, k: nat, allowMore: bool): Quality
    requires k <= |s|
  {
    if !Starts(s[k..], "0") && !Starts(s[k..], "1") then Bad
    else
      var val := if Starts(s[k..], "0") then 0 else 1000;
      var n := k + 1 + Lws(s[k + 1..]);
      EndAt(s, k + 1, val, allowMore,
        if !Starts(s[n..], ".") then Bad
        else Fraction(s, n + 1 + Lws(s[n + 1..]), val, allowMore))
  }

  /** A token of a parameter at k of s: where it ends, 0 when it is not there. */
  function Token(s: string, k: nat, c: string): (n: nat)
    requires k <= |s|
    ensures n <= |s|
  {
    if c != [] && Starts(s[k..], c) then k + |c| + Lws(s[k + |c|..]) else 0
  }

  /** http_parse_quality */
  function QualityAt(s: string, allowMore: bool): Quality {
    var k := Lws(s);
    if s[k..] == [] || Starts(s[k..], ",") then Good(1000, k)
    else
      var semi := Token(s, k, ";");
      if semi == 0 then Bad
      else
        var q := Token(s, semi, "q");
        var eq := if q == 0 then 0 else Token(s, q, "=");
        if eq == 0 then (if allowMore then Good(1000, k) else Bad)
        else Value(s, eq, allowMore)
  }

  /** A quality stops at the end of the text or at a comma, and no quality is taken for the lack of one. */
  ghost predicate Ends(r: Quality, s: string, allowMore: bool) {
    r.Good? ==> r.len <= |s| && r.val != NONE && (!allowMore ==> s[r.len..] == [] || Starts(s[r.len..], ","))
  }

  lemma EndAtEnds(s: string, k: nat, val: nat, allowMore: bool, other: Quality)
    requires k <= |s| && val != NONE && Ends(other, s, allowMore)
    ensures Ends(EndAt(s, k, val, allowMore, other), s, allowMore)
  {
    hide Lws, Starts;
  }

  lemma FractionEnds(s: string, k: nat, val: nat, allowMore: bool)
    requires k <= |s|
    ensures Ends(Fraction(s, k, val, allowMore), s, allowMore)
  {
    hide Lws, Starts, Span, Decimal, EndAt;
    var n := Span(s[k..], DIGITS);
    var sum := val + Decimal(s[k..][..n]);
    if 0 < n <= 3 && sum <= 1000 {
      EndAtEnds(s, k + n, if n == 1 then sum * 100 else if n == 2 then sum * 10 else sum, allowMore, Bad);
    }
  }

  lemma ValueEnds(s: string, k: nat, allowMore: bool)
    requires k <= |s|
    ensures Ends(Value(s, k, allowMore), s, allowMore)
  {
    hide Lws, Starts, Fraction, EndAt;
    StartsLong(s[k..], "0");
    StartsLong(s[k..], "1");
    if Starts(s[k..], "0") || Starts(s[k..], "1") {
      var val := if Starts(s[k..], "0") then 0 else 1000;
      var n := k + 1 + Lws(s[k + 1..]);
      StartsLong(s[n..], ".");
      if Starts(s[n..], ".") {
        FractionEnds(s, n + 1 + Lws(s[n + 1..]), val, allowMore);
        EndAtEnds(s, k + 1, val, allowMore, Fraction(s, n + 1 + Lws(s[n + 1..]), val, allowMore));
      } else {
        EndAtEnds(s, k + 1, val, allowMore, Bad);
      }
    }
  }

  lemma QualityEnds(s: string, allowMore: bool)
    ensures Ends(QualityAt(s, allowMore), s, allowMore)
  {
    hide Lws, Starts, Value, Token;
    var k := Lws(s);
    var semi := Token(s, k, ";");
    if semi != 0 {
      var q := Token(s, semi, "q");
      if q != 0 {
        ValueEnds(s, Token(s, q, "="), allowMore);
      }
    }
  }

  lemma DecimalSmall(s: string)
    requires (forall i :: 0 <= i < |s| ==> s[i] in DIGITS) && |s| <= 3
    ensures Decimal(s) < if |s| == 0 then 1 else if |s| == 1 then 10 else if |s| == 2 then 100 else 1000
  {
    if |s| > 1 {
      DecimalSmall(s[..|s| - 1]);
    }
  }

  /** A fraction is at most 1000 exactly when it comes after a 0, or has three digits. */
  lemma FractionScaled(s: string, k: nat, val: nat, allowMore: bool)
    requires k <= |s| && (val == 0 || val == 1000) && Fraction(s, k, val, allowMore).Good?
    ensures Fraction(s, k, val, allowMore).val <= 1000 <==> val == 0 || Span(s[k..], DIGITS) == 3
    ensures Fraction(s, k, val, allowMore).val > 1000 ==> 1 <= Span(s[k..], DIGITS) <= 2
  {
    hide Lws, Starts, Span, AtEnd;
    DecimalSmall(s[k..][..Span(s[k..], DIGITS)]);
  }

  /** Where the digits of a quality 1 with a point begin, 0 when s has no such quality. */
  function OnePoint(s: string): (n: nat)
    ensures n <= |s|
  {
    var semi := Token(s, Lws(s), ";");
    var q := if semi == 0 then 0 else Token(s, semi, "q");
    var eq := if q == 0 then 0 else Token(s, q, "=");
    var one := if eq == 0 then 0 else Token(s, eq, "1");
    if one == 0 then 0 else Token(s, one, ".")
  }

  /** A quality is at most 1000 exactly when it is not a 1, a point and one or two digits: 1.0 and 1.00 are
    scaled a second time. */
  lemma QualityScaled(s: string, allowMore: bool)
    requires QualityAt(s, allowMore).Good?
    ensures QualityAt(s, allowMore).val <= 1000 <==> !(OnePoint(s) > 0 && 1 <= Span(s[OnePoint(s)..], DIGITS) <= 2)
  {
    hide Lws, Starts, Value, Span, AtEnd;
    var semi := Token(s, Lws(s), ";");
    var q := if semi == 0 then 0 else Token(s, semi, "q");
    var eq := if q == 0 then 0 else Token(s, q, "=");
    StartsLong(s[Lws(s)..], ";");
    StartsLong(s[semi..], "q");
    StartsLong(s[q..], "=");
    StartsOne(s[Lws(s)..], ",", ";");
    if eq != 0 {
      ValueScaled(s, eq, allowMore);
    }
  }

  lemma StartsOne(s: string, a: string, b: string)
    requires |a| == |b| == 1 && a != b
    ensures Starts(s, a) ==> s != [] && !Starts(s, b)
  {
  }

  lemma ValueScaled(s: string, k: nat, allowMore: bool)
    requires k <= |s| && Value(s, k, allowMore).Good?
    ensures var one := Token(s, k, "1"); var n := if one == 0 then 0 else Token(s, one, ".");
      Value(s, k, allowMore).val <= 1000 <==> !(n > 0 && 1 <= Span(s[n..], DIGITS) <= 2)
  {
    hide Lws, Starts, Fraction, Span;
    StartsLong(s[k..], "0");
    StartsLong(s[k..], "1");
    var lead := if Starts(s[k..], "0") then 0 else 1000;
    var n := k + 1 + Lws(s[k + 1..]);
    StartsOne(s[k..], "0", "1");
    StartsOne(s[n..], ",", ".");
    StartsOne(s[n..], ";", ".");
    StartsLong(s[n..], ".");
    if Starts(s[n..], ".") && !AtEnd(s[n..], allowMore) {
      FractionScaled(s, n + 1 + Lws(s[n + 1..]), lead, allowMore);
    }
  }

  lemma NoLws(s: string)
    requires s == [] || (s[0] != ' ' && s[0] != '\t' && s[0] != '\r')
    ensures Lws(s) == 0
  {
  }

  /** A token that no whitespace follows. */
  lemma TokenIs(s: string, k: nat, c: char)
    requires k < |s| && s[k] == c
    requires k + 1 < |s| ==> s[k + 1] != ' ' && s[k + 1] != '\t' && s[k + 1] != '\r'
    ensures Token(s, k, [c]) == k + 1 && Starts(s[k..], [c]) && Lws(s[k + 1..]) == 0
  {
    hide Lws, Starts;
    StartsIs(s[k..], c);
    NoLws(s[k + 1..]);
  }

  /** A quality of 1.0 comes out as a hundred times what it should. */
  lemma QualityOne()
    ensures QualityAt(";q=1.0", false) == Good(100000, 6)
  {
    hide Lws, Starts, Value, Token;
    var s := ";q=1.0";
    assert s == [';', 'q', '=', '1', '.', '0'];
    NoLws(s);
    assert s[0..] == s;
    TokenIs(s, 0, ';');
    TokenIs(s, 1, 'q');
    TokenIs(s, 2, '=');
    StartsOne(s, ";", ",");
    ValueOne(s);
  }

  lemma ValueOne(s: string)
    requires s == [';', 'q', '=', '1', '.', '0']
    ensures Value(s, 3, false) == Good(100000, 6)
  {
    hide Lws, Starts, Fraction;
    TokenIs(s, 3, '1');
    TokenIs(s, 4, '.');
    StartsOne(s[3..], "1", "0");
    StartsOne(s[4..], ".", ",");
    FractionOne(s);
  }

  lemma FractionOne(s: string)
    requires s == [';', 'q', '=', '1', '.', '0']
    ensures Fraction(s, 5, 1000, false) == Good(100000, 6)
  {
    hide Lws, Starts, Span, Decimal;
    assert s[5..] == ['0'] && ['0'][..1] == ['0'] && s[6..] == [];
    DecimalZeros(['0']);
    DigitIs('0');
    SpanIs(['0'], DIGITS, 1);
    NoLws([]);
    assert s[6..][0..] == [];
  }

  /** The number after the point, when it is short. */
  lemma FractionParsed(t: string, lead: nat)
    requires lead <= 1000
    ensures var p := Parse(t, DECIMAL, UINT);
      p.len == Span(t, DIGITS) && (p.len <= 3 ==> (lead + p.value) % UINT == lead + Decimal(t[..p.len]))
  {
    hide Parse, Decimal, Span;
    DecimalParsed(t, UINT);
    var n := Span(t, DIGITS);
    if n <= 3 {
      DecimalSmall(t[..n]);
    }
  }

  /** A token is passed, with the whitespace after it. */
  method SkipToken(data: string, pos0: nat, len0: nat, c: char, ghost s: string, ghost k: nat)
    returns (found: bool, pos: nat, len: nat)
    requires Within(data, pos0, len0) && k <= |s| && s[k..] == Slice(data, pos0, len0)
    ensures found == (Token(s, k, [c]) != 0)
    ensures found ==> pos == pos0 + (Token(s, k, [c]) - k) && pos + len == pos0 + len0 && k < Token(s, k, [c])
    ensures found ==> Within(data, pos, len) && s[Token(s, k, [c])..] == Slice(data, pos, len)
  {
    hide Lws, Starts, HasPrefix;
    HasPrefixIs(data, pos0, len0, [c]);
    StartsLong(s[k..], [c]);
    if !HasPrefix(data, pos0, len0, [c]) {
      return false, pos0, len0;
    }
    SliceRest(data, pos0, len0, 1);
    assert s[k..][1..] == s[k + 1..];
    pos, len := SkipLws(data, pos0 + 1, len0 - 1);
    SliceRest(data, pos0, len0, pos - pos0);
    assert s[k..][pos - pos0..] == s[k + (pos - pos0)..];
    found := true;
  }

  /** HTTP__PARSE_CHK_RET_OK */
  method CheckEnd(data: string, pos0: nat, len0: nat, allowMore: bool, ghost s: string, ghost k: nat)
    returns (ends: bool, pos: nat, len: nat)
    requires Within(data, pos0, len0) && k <= |s| && s[k..] == Slice(data, pos0, len0)
    ensures var n := Lws(s[k..]); pos == pos0 + n && len == len0 - n && s[k + n..] == Slice(data, pos, len)
    ensures ends == AtEnd(s[k + Lws(s[k..])..], allowMore)
  {
    hide Lws, Starts, HasPrefix;
    pos, len := SkipLws(data, pos0, len0);
    SliceRest(data, pos0, len0, pos - pos0);
    assert s[k..][pos - pos0..] == s[k + (pos - pos0)..];
    HasPrefixIs(data, pos, len, ",");
    HasPrefixIs(data, pos, len, ";");
    ends := len == 0 || HasPrefix(data, pos, len, ",") || (allowMore && HasPrefix(data, pos, len, ";"));
  }

  /** http_parse_quality */
  method ParseQuality(data: string, pos0: nat, len0: nat, allowMore: bool) returns (ok: bool, val: nat, pos: nat, len: nat)
    requires Within(data, pos0, len0)
    ensures match QualityAt(Slice(data, pos0, len0), allowMore)
      case Bad => !ok
      case Good(v, n) => ok && val == v && pos == pos0 + n && pos + len == pos0 + len0
  {
    hide Lws, Starts, Value, Token, HasPrefix;
    ghost var s := Slice(data, pos0, len0);
    val := 1000;
    pos, len := SkipLws(data, pos0, len0);
    SliceRest(data, pos0, len0, pos - pos0);
    HasPrefixIs(data, pos, len, ",");
    if len == 0 || HasPrefix(data, pos, len, ",") {
      return true, val, pos, len;
    }
    var found, p, l := SkipToken(data, pos, len, ';', s, pos - pos0);
    if !found {
      return false, val, pos, len;
    }
    found, p, l := SkipToken(data, p, l, 'q', s, p - pos0);
    if !found {
      return allowMore, val, pos, len;
    }
    found, p, l := SkipToken(data, p, l, '=', s, p - pos0);
    if !found {
      return allowMore, val, pos, len;
    }
    ok, val, pos, len := ParseValue(data, p, l, allowMore, s, p - pos0);
  }

  /** The value of a quality. */
  method ParseValue(data: string, pos0: nat, len0: nat, allowMore: bool, ghost s: string, ghost k: nat)
    returns (ok: bool, val: nat, pos: nat, len: nat)
    requires Within(data, pos0, len0) && k <= |s| && s[k..] == Slice(data, pos0, len0)
    ensures match Value(s, k, allowMore)
      case Bad => !ok
      case Good(v, n) => ok && val == v && n >= k && pos == pos0 + (n - k) && pos + len == pos0 + len0
  {
    hide Lws, Starts, HasPrefix, Fraction, AtEnd;
    pos, len, val := pos0, len0, 0;
    HasPrefixIs(data, pos, len, "0");
    HasPrefixIs(data, pos, len, "1");
    StartsLong(s[k..], "0");
    StartsLong(s[k..], "1");
    var leadZero := HasPrefix(data, pos, len, "0");
    if !leadZero && !HasPrefix(data, pos, len, "1") {
      return false, val, pos, len;
    }
    val := if leadZero then 0 else 1000;
    SliceRest(data, pos0, len0, 1);
    assert s[k..][1..] == s[k + 1..];
    var ends;
    ends, pos, len := CheckEnd(data, pos + 1, len - 1, allowMore, s, k + 1);
    if ends {
      return true, val, pos, len;
    }
    ghost var n := k + (pos - pos0);
    HasPrefixIs(data, pos, len, ".");
    if !HasPrefix(data, pos, len, ".") {
      return false, val, pos, len;
    }
    StartsLong(s[n..], ".");
    SliceRest(data, pos, len, 1);
    assert s[n..][1..] == s[n + 1..];
    pos, len := SkipLws(data, pos + 1, len - 1);
    SliceRest(data, pos0, len0, pos - pos0);
    assert s[k..][pos - pos0..] == s[k + (pos - pos0)..];
    ok, val, pos, len := ParseFraction(data, pos, len, allowMore, val, s, k + (pos - pos0));
  }

  /** The digits after the point. */
  method ParseFraction(data: string, pos0: nat, len0: nat, allowMore: bool, lead: nat, ghost s: string, ghost k: nat)
    returns (ok: bool, val: nat, pos: nat, len: nat)
    requires Within(data, pos0, len0) && k <= |s| && s[k..] == Slice(data, pos0, len0) && lead <= 1000
    ensures match Fraction(s, k, lead, allowMore)
      case Bad => !ok
      case Good(v, n) => ok && val == v && n >= k && pos == pos0 + (n - k) && pos + len == pos0 + len0
  {
    hide Lws, Starts, HasPrefix, AtEnd, Span, Decimal, Parse;
    pos, len := pos0, len0;
    var num := Parse(Slice(data, pos, len), DECIMAL, UINT);
    FractionParsed(Slice(data, pos, len), lead);
    var numLen := num.len;
    val := (lead + num.value) % UINT;
    if numLen == 0 || numLen > 3 || val > 1000 {
      return false, val, pos, len;
    }
    if numLen < 3 {
      val := val * 10;
    }
    if numLen < 2 {
      val := val * 10;
    }
    SliceRest(data, pos, len, numLen);
    assert s[k..][numLen..] == s[k + numLen..];
    var ends;
    ends, pos, len := CheckEnd(data, pos + numLen, len - numLen, allowMore, s, k + numLen);
    return ends, val, pos, len;
  }

  // ---------------------------------------------------------------- language ranges

  function Lower(c: char): char {
    if 'A' <= c <= 'Z' then (c as int + 32) as char else c
  }

  /** vstr_cmp_case_eq */
  predicate CaseEq(a: string, b: string) {
    |a| == |b| && forall i :: 0 <= i < |a| ==> Lower(a[i]) == Lower(b[i])
  }

  /** http__cmp_lang_eq: one is the other and a dash and more. */
  predicate Related(a: string, b: string) {
    if |a| > |b| then a[|b|] == '-' && CaseEq(a[..|b|], b)
    else |a| < |b| && b[|a|] == '-' && CaseEq(a, b[..|a|])
  }

  /** Only the letters of the alphabet have two cases. */
  lemma LowerIs(i: nat, c: char)
    requires i < 26
    ensures Lower("ABCDEFGHIJKLMNOPQRSTUVWXYZ"[i]) == "abcdefghijklmnopqrstuvwxyz"[i]
    ensures c !in "ABCDEFGHIJKLMNOPQRSTUVWXYZ" ==> Lower(c) == c
  {
    var upper, lower := "ABCDEFGHIJKLMNOPQRSTUVWXYZ", "abcdefghijklmnopqrstuvwxyz";
    assert upper[i] == ('A' as int + i) as char;
    assert lower[i] == ('a' as int + i) as char;
    if 'A' <= c <= 'Z' {
      assert upper[c as int - 'A' as int] == c;
    }
  }

  /** Two texts are related when one is the other with a dash and more behind it, in any case of letters. */
  lemma RelatedIs(a: string, b: string)
    ensures Related(a, b) <==> exists more :: CaseEq(a, b + "-" + more) || CaseEq(a + "-" + more, b)
  {
    if Related(a, b) {
      if |a| > |b| {
        assert b + "-" + a[|b| + 1..] == b + ("-" + a[|b| + 1..]);
        assert CaseEq(a, b + "-" + a[|b| + 1..]);
      } else {
        assert a + "-" + b[|a| + 1..] == a + ("-" + b[|a| + 1..]);
        assert CaseEq(a + "-" + b[|a| + 1..], b);
      }
    }
    forall more | CaseEq(a, b + "-" + more) || CaseEq(a + "-" + more, b)
      ensures Related(a, b)
    {
      if CaseEq(a, b + "-" + more) {
        DashAt(a, b, more);
      } else {
        DashAt(b, a, more);
      }
    }
  }

  lemma DashAt(a: string, b: string, more: string)
    requires forall i :: 0 <= i < |a| == |b + "-" + more| ==> Lower(a[i]) == Lower((b + "-" + more)[i])
    requires |a| == |b + "-" + more|
    ensures |a| > |b| && a[|b|] == '-' && CaseEq(a[..|b|], b) && CaseEq(b, a[..|b|])
  {
    var s := b + "-" + more;
    assert s[|b|] == '-' && Lower(a[|b|]) == Lower(s[|b|]);
    assert forall i :: 0 <= i < |b| ==> s[i] == b[i];
  }

  /** A range of the header with its quality. */
  datatype Item = Item(range: string, q: nat)

  predicate Star(item: Item, tag: string) {
    item.range == "*" && !CaseEq(item.range, tag) && !Related(item.range, tag)
  }

  /** The rest of the scan, over the ranges that are left. */
  function Scan(items: seq<Item>, tag: string, quality: nat, done: nat): nat
    decreases |items|
  {
    if items == [] then (if quality == NONE then 0 else quality)
    else
      var r, q := items[0].range, items[0].q;
      if CaseEq(r, tag) then q
      else if |r| >= done && Related(r, tag) then
        Scan(items[1..], tag, if |r| > done || q > quality then q else quality, |r|)
      else if done == 0 && r == "*" then Scan(items[1..], tag, q, done)
      else Scan(items[1..], tag, quality, done)
  }

  ghost predicate FirstEqual(items: seq<Item>, tag: string, k: int) {
    && 0 <= k < |items| && CaseEq(items[k].range, tag)
    && (forall i :: 0 <= i < k ==> !CaseEq(items[i].range, tag))
  }

  ghost predicate NoEqual(items: seq<Item>, tag: string) {
    forall i :: 0 <= i < |items| ==> !CaseEq(items[i].range, tag)
  }

  /** A related range, no shorter than any other, of the highest quality among those as long. */
  ghost predicate Longest(items: seq<Item>, tag: string, k: int) {
    && 0 <= k < |items| && Related(items[k].range, tag)
    && (forall i :: 0 <= i < |items| && Related(items[i].range, tag) ==>
          |items[i].range| < |items[k].range| || (|items[i].range| == |items[k].range| && items[i].q <= items[k].q))
  }

  ghost predicate NoRelated(items: seq<Item>, tag: string) {
    forall i :: 0 <= i < |items| ==> !Related(items[i].range, tag)
  }

  ghost predicate LastStar(items: seq<Item>, tag: string, k: int) {
    && 0 <= k < |items| && Star(items[k], tag)
    && (forall i :: k < i < |items| ==> !Star(items[i], tag))
  }

  ghost predicate NoStar(items: seq<Item>, tag: string) {
    forall i :: 0 <= i < |items| ==> !Star(items[i], tag)
  }

  /** What a header says of a language. */
  ghost predicate Answers(items: seq<Item>, tag: string, a: nat) {
    || (exists k :: FirstEqual(items, tag, k) && a == items[k].q)
    || (NoEqual(items, tag) && exists k :: Longest(items, tag, k) && a == items[k].q)
    || (NoEqual(items, tag) && NoRelated(items, tag) && exists k :: LastStar(items, tag, k) && a == items[k].q)
    || (NoEqual(items, tag) && NoRelated(items, tag) && NoStar(items, tag) && a == 0)
  }

  /** No related range has any length: there is none, or the tag begins with a dash and they are empty. */
  ghost predicate NoLong(items: seq<Item>, tag: string) {
    forall i :: 0 <= i < |items| && Related(items[i].range, tag) ==> items[i].range == []
  }

  /** The quality after ranges of which none is equal and no related one has any length: a star sets it, an
    empty related range can only raise it. */
  function Fold(items: seq<Item>, tag: string): nat {
    if items == [] then NONE
    else
      var x, q := items[|items| - 1], Fold(items[..|items| - 1], tag);
      if Related(x.range, tag) then (if x.q > q then x.q else q)
      else if x.range == "*" then x.q
      else q
  }

  function Final(quality: nat): nat {
    if quality == NONE then 0 else quality
  }

  /** What the scan knows of the ranges it has seen. */
  ghost predicate Seen(items: seq<Item>, tag: string, quality: nat, done: nat) {
    && NoEqual(items, tag)
    && (done > 0 ==> exists k :: Longest(items, tag, k) && done == |items[k].range| && quality == items[k].q)
    && (done == 0 ==> NoLong(items, tag) && quality == Fold(items, tag))
  }

  lemma SeenNone(tag: string)
    ensures Seen([], tag, NONE, 0)
  {
  }

  lemma SeenRelated(items: seq<Item>, x: Item, tag: string, quality: nat, done: nat)
    requires Seen(items, tag, quality, done) && !CaseEq(x.range, tag)
    requires |x.range| >= done && Related(x.range, tag)
    ensures Seen(items + [x], tag, if |x.range| > done || x.q > quality then x.q else quality, |x.range|)
  {
    hide CaseEq, Related;
    var more := items + [x];
    assert more[|items|] == x && more[..|items|] == items;
    if x.range == [] {
    } else if |x.range| > done || x.q > quality {
      assert Longest(more, tag, |items|);
    } else {
      var k :| Longest(items, tag, k) && done == |items[k].range| && quality == items[k].q;
      assert more[k] == items[k];
      assert Longest(more, tag, k);
    }
  }

  /** A range that is not related, or is shorter than one that is. */
  lemma SeenOther(items: seq<Item>, x: Item, tag: string, quality: nat, done: nat)
    requires Seen(items, tag, quality, done) && !CaseEq(x.range, tag)
    requires Related(x.range, tag) ==> |x.range| < done
    ensures Seen(items + [x], tag, if done == 0 && x.range == "*" then x.q else quality, done)
  {
    hide CaseEq, Related;
    var more := items + [x];
    assert more[|items|] == x && more[..|items|] == items;
    if done > 0 {
      var k :| Longest(items, tag, k) && done == |items[k].range| && quality == items[k].q;
      assert more[k] == items[k];
      assert Longest(more, tag, k);
    }
  }

  /** What the pass returns, for any ranges and any tag. */
  ghost predicate Verdict(items: seq<Item>, tag: string, a: nat) {
    || (exists k :: FirstEqual(items, tag, k) && a == items[k].q)
    || (NoEqual(items, tag) && !NoLong(items, tag) && exists k :: Longest(items, tag, k) && a == items[k].q)
    || (NoEqual(items, tag) && NoLong(items, tag) && a == Final(Fold(items, tag)))
  }

  lemma {:induction false} ScanReturns(seen: seq<Item>, items: seq<Item>, tag: string, quality: nat, done: nat)
    requires Seen(seen, tag, quality, done)
    requires forall i :: 0 <= i < |seen + items| ==> (seen + items)[i].q != NONE
    ensures Verdict(seen + items, tag, Scan(items, tag, quality, done))
    decreases |items|
  {
    hide Seen, CaseEq, Related, Verdict;
    if items == [] {
      assert seen + items == seen;
      SeenReturns(seen, tag, quality, done);
    } else {
      var x := items[0];
      assert seen + items == (seen + [x]) + items[1..];
      if CaseEq(x.range, tag) {
        EqualReturns(seen, items, tag, quality, done);
      } else if |x.range| >= done && Related(x.range, tag) {
        SeenRelated(seen, x, tag, quality, done);
        ScanReturns(seen + [x], items[1..], tag, if |x.range| > done || x.q > quality then x.q else quality, |x.range|);
      } else {
        SeenOther(seen, x, tag, quality, done);
        ScanReturns(seen + [x], items[1..], tag, if done == 0 && x.range == "*" then x.q else quality, done);
      }
    }
  }

  lemma SeenReturns(seen: seq<Item>, tag: string, quality: nat, done: nat)
    requires Seen(seen, tag, quality, done)
    requires forall i :: 0 <= i < |seen| ==> seen[i].q != NONE
    ensures Verdict(seen, tag, Final(quality))
  {
    hide CaseEq, Related;
  }

  lemma EqualReturns(seen: seq<Item>, items: seq<Item>, tag: string, quality: nat, done: nat)
    requires Seen(seen, tag, quality, done) && items != [] && CaseEq(items[0].range, tag)
    ensures Verdict(seen + items, tag, items[0].q)
  {
    hide CaseEq, Related;
    var all := seen + items;
    assert all[|seen|] == items[0];
    assert forall i :: 0 <= i < |seen| ==> all[i] == seen[i];
    assert FirstEqual(all, tag, |seen|);
  }

  // ---------------------------------------------------------------- when that is the answer

  /** Related ranges of no length are all there are, and none is equal. */
  ghost predicate OnlyEmpty(items: seq<Item>, tag: string) {
    NoEqual(items, tag) && NoLong(items, tag) && !NoRelated(items, tag)
  }

  /** The best of the empty ranges is what the scan is left with: without a star it is 0 or more than the
    mark for none, and with one it is no less than the last star's quality, and is that, or comes after it. */
  ghost predicate EmptyServed(items: seq<Item>, tag: string, k: int)
    requires 0 <= k < |items|
  {
    var d := items[k].q;
    if NoStar(items, tag) then d == 0 || d > NONE
    else exists s :: LastStar(items, tag, s) && items[s].q <= d && (items[s].q == d || RelatedAfter(items, tag, s, d))
  }

  ghost predicate RelatedAfter(items: seq<Item>, tag: string, s: int, q: nat) {
    exists i :: s < i < |items| && i >= 0 && Related(items[i].range, tag) && items[i].q == q
  }

  lemma {:induction false} FoldNoStar(items: seq<Item>, tag: string)
    requires NoStar(items, tag) && NoEqual(items, tag)
    ensures Fold(items, tag) >= NONE
    ensures forall i :: 0 <= i < |items| && Related(items[i].range, tag) ==> items[i].q <= Fold(items, tag)
    ensures Fold(items, tag) == NONE || RelatedAfter(items, tag, -1, Fold(items, tag))
  {
    hide CaseEq, Related;
    if items != [] {
      var n := |items| - 1;
      FoldNoStar(items[..n], tag);
      assert items[n].range == "*" ==> Related(items[n].range, tag) by {
        assert !Star(items[n], tag);
      }
      RelatedLater(items, tag, -1);
    }
  }

  /** What comes after a place in the first ranges comes after it in all, and so does the last range. */
  lemma RelatedLater(items: seq<Item>, tag: string, s: int)
    requires items != [] && s < |items| - 1
    ensures forall q :: RelatedAfter(items[..|items| - 1], tag, s, q) ==> RelatedAfter(items, tag, s, q)
    ensures Related(items[|items| - 1].range, tag) ==> RelatedAfter(items, tag, s, items[|items| - 1].q)
  {
    hide Related;
    var n := |items| - 1;
    forall q | RelatedAfter(items[..n], tag, s, q)
      ensures RelatedAfter(items, tag, s, q)
    {
      var i :| s < i < n && i >= 0 && Related(items[..n][i].range, tag) && items[..n][i].q == q;
      assert items[i] == items[..n][i];
    }
  }

  lemma {:induction false} FoldStar(items: seq<Item>, tag: string, s: nat)
    requires LastStar(items, tag, s) && NoEqual(items, tag)
    ensures Fold(items, tag) >= items[s].q
    ensures forall i :: s < i < |items| && Related(items[i].range, tag) ==> items[i].q <= Fold(items, tag)
    ensures Fold(items, tag) == items[s].q || RelatedAfter(items, tag, s, Fold(items, tag))
    decreases |items|
  {
    hide CaseEq, Related;
    var n := |items| - 1;
    if s < n {
      FoldStar(items[..n], tag, s);
      assert items[n].range == "*" ==> Related(items[n].range, tag) by {
        assert !Star(items[n], tag);
      }
      RelatedLater(items, tag, s);
    }
  }

  lemma {:induction false} SomeStar(items: seq<Item>, tag: string) returns (s: nat)
    requires !NoStar(items, tag)
    ensures LastStar(items, tag, s)
  {
    hide Star;
    var n := |items| - 1;
    if Star(items[n], tag) {
      s := n;
    } else {
      assert forall i :: 0 <= i < n ==> items[..n][i] == items[i];
      s := SomeStar(items[..n], tag);
    }
  }

  /** The best of some empty ranges. */
  lemma {:induction false} SomeLongest(items: seq<Item>, tag: string) returns (k: nat)
    requires NoLong(items, tag) && !NoRelated(items, tag)
    ensures Longest(items, tag, k)
  {
    hide Related;
    var n := |items| - 1;
    var init := items[..n];
    assert forall i :: 0 <= i < n ==> init[i] == items[i];
    if NoRelated(init, tag) {
      k := n;
    } else {
      k := SomeLongest(init, tag);
      if Related(items[n].range, tag) && items[n].q > items[k].q {
        k := n;
      }
    }
  }

  /** With only empty related ranges, the pass gives the quality of the best of them exactly so. */
  lemma OnlyEmptyReturns(items: seq<Item>, tag: string, k: nat)
    requires OnlyEmpty(items, tag) && Longest(items, tag, k)
    requires forall i :: 0 <= i < |items| ==> items[i].q != NONE
    ensures Final(Fold(items, tag)) == items[k].q <==> EmptyServed(items, tag, k)
  {
    hide CaseEq, Related, Star, Fold;
    if NoStar(items, tag) {
      FoldNoStar(items, tag);
    } else {
      var s := SomeStar(items, tag);
      FoldStar(items, tag, s);
      LastStarOne(items, tag, s);
    }
  }

  lemma LastStarOne(items: seq<Item>, tag: string, s: nat)
    requires LastStar(items, tag, s)
    ensures forall t :: LastStar(items, tag, t) ==> t == s
  {
    hide Star;
    forall t | LastStar(items, tag, t)
      ensures t == s
    {
      assert Star(items[t], tag) && Star(items[s], tag);
    }
  }

  /** There is a related range of some length or none at all, or the best of the empty ones is what is left. */
  ghost predicate Served(items: seq<Item>, tag: string) {
    !OnlyEmpty(items, tag) || exists k :: Longest(items, tag, k) && EmptyServed(items, tag, k)
  }

  /** The pass gives the declared answer, for any ranges and any tag, unless related ranges of no length are
    all it finds; then exactly when the best of them is what it is left with. */
  lemma ScanAnswers(items: seq<Item>, tag: string)
    requires forall i :: 0 <= i < |items| ==> items[i].q != NONE
    ensures Answers(items, tag, Scan(items, tag, NONE, 0)) <==> Served(items, tag)
  {
    hide Scan, CaseEq, Related, Star, Fold, EmptyServed;
    SeenNone(tag);
    assert [] + items == items;
    ScanReturns([], items, tag, NONE, 0);
    if OnlyEmpty(items, tag) {
      var k := SomeLongest(items, tag);
      OnlyEmptyAnswers(items, tag, k, Scan(items, tag, NONE, 0));
    } else {
      LongAnswers(items, tag, Scan(items, tag, NONE, 0));
    }
  }

  lemma OnlyEmptyAnswers(items: seq<Item>, tag: string, k: nat, a: nat)
    requires OnlyEmpty(items, tag) && Longest(items, tag, k) && Verdict(items, tag, a)
    requires forall i :: 0 <= i < |items| ==> items[i].q != NONE
    ensures Answers(items, tag, a) <==> exists k' :: Longest(items, tag, k') && EmptyServed(items, tag, k')
  {
    hide CaseEq, Related, Star, Fold, EmptyServed;
    assert Answers(items, tag, a) <==> a == items[k].q;
    OnlyEmptyReturns(items, tag, k);
    forall k' | Longest(items, tag, k')
      ensures items[k'].q == items[k].q && (EmptyServed(items, tag, k') <==> EmptyServed(items, tag, k))
    {
      OnlyEmptyReturns(items, tag, k');
    }
  }

  lemma LongAnswers(items: seq<Item>, tag: string, a: nat)
    requires !OnlyEmpty(items, tag) && Verdict(items, tag, a)
    requires forall i :: 0 <= i < |items| ==> items[i].q != NONE
    ensures Answers(items, tag, a)
  {
    hide CaseEq, Related, Star, Fold;
    if NoEqual(items, tag) && NoLong(items, tag) {
      if NoStar(items, tag) {
        FoldNoStar(items, tag);
      } else {
        var s := SomeStar(items, tag);
        FoldStar(items, tag, s);
      }
    }
  }

  /** An empty range is passed over by the scan, though a tag that begins with a dash is related to it. */
  lemma EmptyRangeMissed()
    ensures var items := [Item("", 500)];
      Scan(items, "-x", NONE, 0) == 0 && Longest(items, "-x", 0) && !Answers(items, "-x", 0)
  {
    var items := [Item("", 500)];
    assert "-x"[..0] == "";
    assert items[1..] == [];
    assert !CaseEq(items[0].range, "-x");
    assert Related(items[0].range, "-x");
  }

  /** A tag that does not begin with a dash, or ranges that are not empty, leave no such case. */
  lemma EmptyRelated(items: seq<Item>, tag: string)
    requires OnlyEmpty(items, tag)
    ensures tag != [] && tag[0] == '-' && exists i :: 0 <= i < |items| && items[i].range == []
  {
  }

  // ---------------------------------------------------------------- the header

  /** A header read to its end; max is the limit on ranges, 0 for none, and num have come before. */
  datatype Header = Wrong | Right(items: seq<Item>)

  function RangeLen(s: string): (n: nat)
    ensures n <= |s|
  {
    CSpan(s, "\r\n \t;,")
  }

  function Items(s: string, max: nat, num: nat): Header
    decreases |s|
  {
    if s == [] then Right([])
    else
      var n := RangeLen(s);
      match QualityAt(s[n..], false)
      case Bad => Wrong
      case Good(q, k) =>
        QualityEnds(s[n..], false);
        StartsLong(s[n..][k..], ",");
        var x := Item(s[..n], q);
        var rest := s[n..][k..];
        if rest == [] then Right([x])
        else
          var after := rest[1..][Lws(rest[1..])..];
          if max > 0 && num + 1 >= max then Wrong
          else
            match Items(after, max, num + 1)
            case Wrong => Wrong
            case Right(items) => Right([x] + items)
  }

  /** The ranges read before the end of a header, or before its error. */
  function Read(s: string, max: nat, num: nat): seq<Item>
    decreases |s|
  {
    if s == [] then []
    else
      var n := RangeLen(s);
      match QualityAt(s[n..], false)
      case Bad => []
      case Good(q, k) =>
        QualityEnds(s[n..], false);
        StartsLong(s[n..][k..], ",");
        var rest := s[n..][k..];
        if rest == [] || (max > 0 && num + 1 >= max) then [Item(s[..n], q)]
        else [Item(s[..n], q)] + Read(rest[1..][Lws(rest[1..])..], max, num + 1)
  }

  /** What a header with an error says: the quality of the first equal range before the error, otherwise 1. */
  ghost predicate Refuses(items: seq<Item>, tag: string, a: nat) {
    if NoEqual(items, tag) then a == 1 else exists k :: FirstEqual(items, tag, k) && a == items[k].q
  }

  lemma RefusesNext(x: Item, items: seq<Item>, tag: string, a: nat)
    requires CaseEq(x.range, tag) ==> a == x.q
    requires !CaseEq(x.range, tag) ==> Refuses(items, tag, a)
    ensures Refuses([x] + items, tag, a)
  {
    hide CaseEq;
    var more := [x] + items;
    assert forall i :: 0 <= i < |items| ==> more[i + 1] == items[i];
    if CaseEq(x.range, tag) {
      assert FirstEqual(more, tag, 0);
    } else if !NoEqual(items, tag) {
      var k :| FirstEqual(items, tag, k) && a == items[k].q;
      assert FirstEqual(more, tag, k + 1);
    } else {
      assert forall i :: 1 <= i < |more| ==> more[i] == items[i - 1];
    }
  }

  lemma {:induction false} LoopRefuses(s: string, max: nat, num: nat, tag: string, quality: nat, done: nat)
    requires Items(s, max, num).Wrong?
    ensures Refuses(Read(s, max, num), tag, Loop(s, max, num, tag, quality, done))
    decreases |s|
  {
    hide QualityAt, Lws, CaseEq, Related, Starts, RangeLen, Refuses;
    var n := RangeLen(s);
    if QualityAt(s[n..], false).Bad? {
      NothingRefused(tag);
    } else {
      var q, k := QualityAt(s[n..], false).val, QualityAt(s[n..], false).len;
      QualityEnds(s[n..], false);
      StartsLong(s[n..][k..], ",");
      var rest := s[n..][k..];
      var x := Item(s[..n], q);
      var a := Loop(s, max, num, tag, quality, done);
      if max > 0 && num + 1 >= max {
        NothingRefused(tag);
        RefusesNext(x, [], tag, a);
        assert [x] + [] == [x];
      } else {
        var after := rest[1..][Lws(rest[1..])..];
        var sub := n >= done && Related(x.range, tag);
        var star := !sub && done == 0 && x.range == "*";
        LoopRefuses(after, max, num + 1, tag,
          if sub then (if n > done || q > quality then q else quality) else if star then q else quality,
          if sub then n else done);
        RefusesNext(x, Read(after, max, num + 1), tag, a);
      }
    }
  }

  lemma NothingRefused(tag: string)
    ensures Refuses([], tag, 1)
  {
  }

  /** The loop from some point on: as the scan, but an error is an answer of 1, and an equal range ends it. */
  function Loop(s: string, max: nat, num: nat, tag: string, quality: nat, done: nat): nat
    decreases |s|
  {
    if s == [] then (if quality == NONE then 0 else quality)
    else
      var n := RangeLen(s);
      match QualityAt(s[n..], false)
      case Bad => 1
      case Good(q, k) =>
        QualityEnds(s[n..], false);
        StartsLong(s[n..][k..], ",");
        var r := s[..n];
        var rest := s[n..][k..];
        if CaseEq(r, tag) then q
        else
          var sub := n >= done && Related(r, tag);
          var star := !sub && done == 0 && r == "*";
          var quality' := if sub then (if n > done || q > quality then q else quality) else if star then q else quality;
          var done' := if sub then n else done;
          if rest == [] then (if quality' == NONE then 0 else quality')
          else if max > 0 && num + 1 >= max then 1
          else Loop(rest[1..][Lws(rest[1..])..], max, num + 1, tag, quality', done')
  }

  lemma {:induction false} LoopScans(s: string, max: nat, num: nat, tag: string, quality: nat, done: nat)
    requires Items(s, max, num).Right?
    ensures Loop(s, max, num, tag, quality, done) == Scan(Items(s, max, num).items, tag, quality, done)
    decreases |s|
  {
    hide QualityAt, Lws, CaseEq, Related, Starts, RangeLen;
    if s != [] {
      var n := RangeLen(s);
      var q, k := QualityAt(s[n..], false).val, QualityAt(s[n..], false).len;
      QualityEnds(s[n..], false);
      StartsLong(s[n..][k..], ",");
      var rest := s[n..][k..];
      var x := Item(s[..n], q);
      if rest == [] {
        assert Items(s, max, num).items == [x];
        assert [x][1..] == [];
      } else {
        var after := rest[1..][Lws(rest[1..])..];
        var items := Items(after, max, num + 1).items;
        assert ([x] + items)[1..] == items;
        var sub := n >= done && Related(x.range, tag);
        var star := !sub && done == 0 && x.range == "*";
        LoopScans(after, max, num + 1, tag,
          if sub then (if n > done || q > quality then q else quality) else if star then q else quality,
          if sub then n else done);
      }
    }
  }

  /** For a header that can be read, with no more ranges than allowed, the answer is the declared one. */
  lemma LanguageAnswers(s: string, max: nat, tag: string)
    requires Items(s, max, 0).Right?
    ensures var items := Items(s, max, 0).items;
      && (Answers(items, tag, Loop(s, max, 0, tag, NONE, 0)) <==> Served(items, tag))
      && (tag == [] || tag[0] != '-' || (forall i :: 0 <= i < |items| ==> items[i].range != []) ==> Served(items, tag))
  {
    hide Items, Loop, Answers, Scan, OnlyEmpty, EmptyServed, Longest;
    var items := Items(s, max, 0).items;
    LoopScans(s, max, 0, tag, NONE, 0);
    ItemsNotNone(s, max, 0);
    ScanAnswers(items, tag);
    if OnlyEmpty(items, tag) {
      EmptyRelated(items, tag);
    }
  }

  /** Of a header that can be read, the answer is the declared one exactly when its ranges are served; of another
    one it is that of an equal range before the error, or 1. */
  ghost predicate Answered(s: string, max: nat, tag: string, a: nat) {
    match Items(s, max, 0)
    case Right(items) => Answers(items, tag, a) <==> Served(items, tag)
    case Wrong => Refuses(Read(s, max, 0), tag, a)
  }

  lemma LoopAnswers(s: string, max: nat, tag: string)
    ensures Answered(s, max, tag, Loop(s, max, 0, tag, NONE, 0))
  {
    hide Items, Loop, Answers, Served, Read, Refuses;
    if Items(s, max, 0).Right? {
      LanguageAnswers(s, max, tag);
    } else {
      LoopRefuses(s, max, 0, tag, NONE, 0);
    }
  }

  lemma {:induction false} ItemsNotNone(s: string, max: nat, num: nat)
    requires Items(s, max, num).Right?
    ensures forall i :: 0 <= i < |Items(s, max, num).items| ==> Items(s, max, num).items[i].q != NONE
    decreases |s|
  {
    hide QualityAt, Lws, Starts, RangeLen;
    if s != [] {
      var n := RangeLen(s);
      QualityEnds(s[n..], false);
      var k := QualityAt(s[n..], false).len;
      var rest := s[n..][k..];
      StartsLong(rest, ",");
      if rest != [] {
        ItemsNotNone(rest[1..][Lws(rest[1..])..], max, num + 1);
      }
    }
  }

  /** http_parse_accept_language: the quality of a language by a header, which is a section of the request. */
  method ParseAcceptLanguage(data: string, pos0: nat, len0: nat, max: nat, tag: string) returns (quality: nat)
    requires Within(data, pos0, len0)
    ensures var s := Slice(data, pos0, len0);
      && quality == (if s == [] then 1000 else Loop(s, max, 0, tag, NONE, 0))
      && (s != [] ==> Answered(s, max, tag, quality))
  {
    hide Loop, QualityAt, Lws, Starts, HasPrefix, RangeLen, CaseEq, Related, Slice, Answered;
    if len0 == 0 {
      return 1000;
    }
    ghost var s0 := Slice(data, pos0, len0);
    LoopAnswers(s0, max, tag);
    var pos: nat, len: nat := pos0, len0;
    var num, done: nat := 0, 0;
    quality := NONE;
    while len > 0
      invariant Within(data, pos, len)
      invariant Loop(Slice(data, pos, len), max, num, tag, quality, done) == Loop(s0, max, 0, tag, NONE, 0)
      decreases len
    {
      ghost var s := Slice(data, pos, len);
      var tmp := RangeLen(Slice(data, pos, len));
      LoopStep(s, max, num, tag, quality, done);
      SliceRest(data, pos, len, tmp);
      SliceHead(data, pos, len, tmp);
      var range := Slice(data, pos, tmp);
      num := num + 1;
      len, pos := len - tmp, pos + tmp;
      ghost var p, l := pos, len;
      var ok, q;
      ok, q, pos, len := ParseQuality(data, pos, len, false);
      if !ok {
        return 1;
      }
      SliceRest(data, p, l, pos - p);
      if CaseEq(range, tag) {
        return q;
      } else if tmp >= done && Related(range, tag) {
        if tmp > done || q > quality {
          quality := q;
        }
        done := tmp;
      } else if done == 0 && range == "*" {
        quality := q;
      }
      if len == 0 {
        break;
      }
      StartsLong(Slice(data, pos, len), ",");
      HasPrefixIs(data, pos, len, ",");
      assert HasPrefix(data, pos, len, ",");
      SliceRest(data, pos, len, 1);
      len, pos := len - 1, pos + 1;
      p, l := pos, len;
      pos, len := SkipLws(data, pos, len);
      SliceRest(data, p, l, pos - p);
      if max > 0 && num >= max {
        return 1;
      }
    }
    LoopEnd(max, num, tag, quality, done);
    return if quality == NONE then 0 else quality;
  }

  lemma SliceHead(data: string, pos: nat, len: nat, n: nat)
    requires Within(data, pos, len) && n <= len
    ensures Slice(data, pos, len)[..n] == Slice(data, pos, n)
  {
  }

  lemma LoopEnd(max: nat, num: nat, tag: string, quality: nat, done: nat)
    ensures Loop([], max, num, tag, quality, done) == if quality == NONE then 0 else quality
  {
  }

  /** One turn of the loop. */
  lemma LoopStep(s: string, max: nat, num: nat, tag: string, quality: nat, done: nat)
    requires s != []
    ensures var n := RangeLen(s); var r := s[..n];
      match QualityAt(s[n..], false)
      case Bad => Loop(s, max, num, tag, quality, done) == 1
      case Good(q, k) =>
        && k <= |s[n..]|
        && var rest := s[n..][k..];
        && (rest == [] || Starts(rest, ",")) && (rest != [] ==> |rest| >= 1)
        && Loop(s, max, num, tag, quality, done) ==
          if CaseEq(r, tag) then q
          else
            var sub := n >= done && Related(r, tag);
            var star := !sub && done == 0 && r == "*";
            var quality' := if sub then (if n > done || q > quality then q else quality) else if star then q else quality;
            if rest == [] then (if quality' == NONE then 0 else quality')
            else if max > 0 && num + 1 >= max then 1
            else Loop(rest[1..][Lws(rest[1..])..], max, num + 1, tag, quality', if sub then n else done)
  {
    hide QualityAt, Lws, CaseEq, Related, RangeLen;
    QualityEnds(s[RangeLen(s)..], false);
  }
}
