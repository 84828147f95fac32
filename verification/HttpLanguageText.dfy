/** Accept-Language headers as they are written, and what is read of them. */
module HttpLanguageText {
  import opened Vstr
  import opened HttpText
  import opened Number
  import opened HttpLanguage

  // ---------------------------------------------------------------- a quality as it is written

  /** The quality of a range, section 3.9 of RFC 2616, with whitespace before and after every token: left out, a
    whole number, or one with digits after a point. */
  datatype Weight =
    | Unsaid(end: string)
    | Whole(a: string, b: string, c: string, d: string, one: bool, end: string)
    | Point(a: string, b: string, c: string, d: string, one: bool, e: string, f: string, digits: string, end: string)

  /** The lead of a quality and what comes after it. */
  function LeadText(a: string, b: string, c: string, d: string, one: bool, rest: string): string {
    a + (";" + (b + ("q" + (c + ("=" + (d + ((if one then "1" else "0") + rest)))))))
  }

  function WeightText(w: Weight): string {
    match w
    case Unsaid(end) => end
    case Whole(a, b, c, d, one, end) => LeadText(a, b, c, d, one, end)
    case Point(a, b, c, d, one, e, f, digits, end) => LeadText(a, b, c, d, one, e + ("." + (f + (digits + end))))
  }

  predicate IsWeight(w: Weight) {
    match w
    case Unsaid(end) => Folded(end)
    case Whole(a, b, c, d, _, end) => Folded(a) && Folded(b) && Folded(c) && Folded(d) && Folded(end)
    case Point(a, b, c, d, one, e, f, digits, end) =>
      && Folded(a) && Folded(b) && Folded(c) && Folded(d) && Folded(e) && Folded(f) && Folded(end)
      && IsNum(digits) && |digits| <= 3 && (one ==> Decimal(digits) == 0)
  }

  /** What a quality says, in thousandths. */
  function Meant(w: Weight): nat {
    match w
    case Unsaid(_) => 1000
    case Whole(_, _, _, _, one, _) => if one then 1000 else 0
    case Point(_, _, _, _, one, _, _, digits, _) =>
      (if one then 1000 else 0) +
      Decimal(digits) * (if |digits| == 1 then 100 else if |digits| == 2 then 10 else 1)
  }

  /** What it is taken for: a 1 with one or two digits after the point is scaled like them. */
  function Got(w: Weight): nat {
    if w.Point? && w.one && |w.digits| == 1 then 100000
    else if w.Point? && w.one && |w.digits| == 2 then 10000
    else Meant(w)
  }

  /** A written quality is taken for what it says exactly when it is not a 1 with one or two digits after the
    point. */
  lemma GotIsMeant(w: Weight)
    requires IsWeight(w)
    ensures Got(w) == Meant(w) <==> !(w.Point? && w.one && |w.digits| < 3)
    ensures w.Unsaid? ==> Meant(w) == 1000
    ensures Meant(w) <= 1000
  {
    hide Folded, Decimal;
    if w.Point? {
      DecimalSmall(w.digits);
    }
  }

  /** What may follow a quality. */
  predicate Behind(w: Weight, tail: string, allowMore: bool) {
    tail == [] || tail[0] == ',' || (allowMore && !w.Unsaid? && tail[0] == ';')
  }

  // ---------------------------------------------------------------- reading a quality

  /** What is left of s at k. */
  ghost predicate Left(s: string, k: nat, rest: string) {
    k <= |s| && s[k..] == rest
  }

  lemma LeftMoves(s: string, k: nat, a: string, rest: string)
    requires Left(s, k, a + rest)
    ensures Left(s, k + |a|, rest)
  {
    assert s[k..][|a|..] == rest;
  }

  lemma TokenRead(s: string, k: nat, c: char, sp: string, rest: string)
    requires Left(s, k, [c] + (sp + rest)) && Folded(sp) && Solid(rest)
    ensures Token(s, k, [c]) == k + 1 + |sp| && Left(s, k + 1 + |sp|, rest)
    ensures Starts(s[k..], [c]) && s[k + 1..] == sp + rest && Lws(s[k + 1..]) == |sp|
  {
    hide Lws, Folded, Starts;
    StartsIs(s[k..], c);
    LeftMoves(s, k, [c], sp + rest);
    FoldedLws(sp, rest);
    LeftMoves(s, k + 1, sp, rest);
  }

  lemma NotStarts(s: string, k: nat, c: char)
    requires k <= |s| && (k < |s| ==> s[k] != c)
    ensures !Starts(s[k..], [c])
  {
    StartsIs(s[k..], c);
  }

  lemma EndRead(s: string, k: nat, val: nat, allowMore: bool, other: Quality, end: string, tail: string)
    requires Left(s, k, end + tail) && Folded(end)
    requires tail == [] || tail[0] == ',' || (allowMore && tail[0] == ';')
    ensures EndAt(s, k, val, allowMore, other) == Good(val, k + |end|)
  {
    hide Lws, Folded, Starts;
    FoldedLws(end, tail);
    LeftMoves(s, k, end, tail);
    StartsIs(tail, ',');
    StartsIs(tail, ';');
  }

  lemma NoEnd(s: string, k: nat, val: nat, allowMore: bool, other: Quality, sp: string, rest: string)
    requires Left(s, k, sp + rest) && Folded(sp) && rest != [] && rest[0] == '.'
    ensures EndAt(s, k, val, allowMore, other) == other && Lws(s[k..]) == |sp|
  {
    hide Lws, Folded, Starts;
    FoldedLws(sp, rest);
    LeftMoves(s, k, sp, rest);
    StartsIs(rest, ',');
    StartsIs(rest, ';');
  }

  lemma FractionRead(s: string, k: nat, one: bool, allowMore: bool, digits: string, end: string, tail: string)
    requires Left(s, k, digits + (end + tail)) && Folded(end) && IsNum(digits) && |digits| <= 3
    requires one ==> Decimal(digits) == 0
    requires tail == [] || tail[0] == ',' || (allowMore && tail[0] == ';')
    ensures var val := (if one then 1000 else 0) + Decimal(digits);
      Fraction(s, k, if one then 1000 else 0, allowMore)
        == Good(if |digits| == 1 then val * 100 else if |digits| == 2 then val * 10 else val, k + |digits| + |end|)
  {
    hide Lws, Folded, Decimal, EndAt, Span, Fraction, Left;
    NoDigitAfter(end, tail);
    DecimalSmall(digits);
    DigitsSpan(digits, end + tail);
    LeftMoves(s, k, digits, end + tail);
    LeftIs(s, k, digits + (end + tail));
    var val := (if one then 1000 else 0) + Decimal(digits);
    FractionIs(s, k, if one then 1000 else 0, allowMore, digits);
    EndRead(s, k + |digits|, if |digits| == 1 then val * 100 else if |digits| == 2 then val * 10 else val, allowMore, Bad, end, tail);
  }

  lemma LeftIs(s: string, k: nat, rest: string)
    requires Left(s, k, rest)
    ensures k <= |s| && s[k..] == rest
  {
  }

  lemma DigitsSpan(digits: string, rest: string)
    requires IsNum(digits) && (rest != [] ==> rest[0] !in DIGITS)
    ensures Span(digits + rest, DIGITS) == |digits| && (digits + rest)[..|digits|] == digits
  {
    SpanIs(digits + rest, DIGITS, |digits|);
  }

  lemma FractionIs(s: string, k: nat, lead: nat, allowMore: bool, digits: string)
    requires k <= |s| && Span(s[k..], DIGITS) == |digits| && s[k..][..|digits|] == digits && 1 <= |digits| <= 3
    requires lead + Decimal(digits) <= 1000
    ensures var val := lead + Decimal(digits);
      Fraction(s, k, lead, allowMore)
        == EndAt(s, k + |digits|, if |digits| == 1 then val * 100 else if |digits| == 2 then val * 10 else val, allowMore, Bad)
  {
    hide Lws, Decimal, EndAt, Span;
  }

  lemma NoDigitAfter(end: string, tail: string)
    requires Folded(end) && (tail == [] || tail[0] == ',' || tail[0] == ';')
    ensures var s := end + tail; s != [] ==> s[0] !in DIGITS
  {
    if end != [] {
      assert FoldedAt(end, 0);
    }
  }

  /** What stands after "q=". */
  lemma WholeRead(s: string, k: nat, allowMore: bool, one: bool, end: string, tail: string)
    requires Left(s, k, (if one then "1" else "0") + (end + tail)) && Folded(end)
    requires tail == [] || tail[0] == ',' || (allowMore && tail[0] == ';')
    ensures Value(s, k, allowMore) == Good(if one then 1000 else 0, k + 1 + |end|)
  {
    hide Lws, Folded, Starts, EndAt, Fraction, Left;
    LeadIs(s, k, one, end + tail);
    var val := if one then 1000 else 0;
    var n := k + 1 + Lws(s[k + 1..]);
    StartsLong(s[n..], ".");
    EndRead(s, k + 1, val, allowMore,
      if !Starts(s[n..], ".") then Bad else Fraction(s, n + 1 + Lws(s[n + 1..]), val, allowMore), end, tail);
  }

  lemma LeadIs(s: string, k: nat, one: bool, rest: string)
    requires Left(s, k, (if one then "1" else "0") + rest)
    ensures k + 1 <= |s| && Left(s, k + 1, rest) && Starts(s[k..], "0") == !one && Starts(s[k..], "1") == one
  {
    hide Starts;
    StartsIs(s[k..], '0');
    StartsIs(s[k..], '1');
    LeftMoves(s, k, if one then "1" else "0", rest);
  }

  lemma PointRead(s: string, k: nat, allowMore: bool, w: Weight, tail: string)
    requires w.Point? && IsWeight(w) && Behind(w, tail, allowMore)
    requires Left(s, k, (if w.one then "1" else "0") + (w.e + ("." + (w.f + (w.digits + (w.end + tail))))))
    ensures Value(s, k, allowMore) == Good(Got(w), k + 1 + |w.e| + 1 + |w.f| + |w.digits| + |w.end|)
  {
    hide Lws, Folded, Starts, EndAt, Fraction, Left, Decimal;
    var digits := w.digits + (w.end + tail);
    var point := "." + (w.f + digits);
    LeadIs(s, k, w.one, w.e + point);
    var val := if w.one then 1000 else 0;
    var n := k + 1 + |w.e|;
    NoEnd(s, k + 1, val, allowMore, Fraction(s, n + 1 + |w.f|, val, allowMore), w.e, point) by {
      PointFits(s, k, w, point, digits);
    }
    LeftMoves(s, k + 1, w.e, point);
    DigitSolid(w.digits, w.end + tail);
    TokenRead(s, n, '.', w.f, digits);
    FractionRead(s, n + 1 + |w.f|, w.one, allowMore, w.digits, w.end, tail);
  }

  lemma PointFits(s: string, k: nat, w: Weight, point: string, digits: string)
    requires w.Point? && point == "." + (w.f + digits) && Left(s, k, (if w.one then "1" else "0") + (w.e + point))
    ensures k + 1 + |w.e| + 1 + |w.f| <= |s| && point != [] && point[0] == '.'
  {
  }

  lemma DigitSolid(digits: string, rest: string)
    requires IsNum(digits)
    ensures Solid(digits + rest)
  {
    assert (digits + rest)[0] == digits[0];
    DigitIs(digits[0]);
  }

  /** The lead of a quality is passed. */
  lemma LeadRead(s: string, allowMore: bool, a: string, b: string, c: string, d: string, one: bool, rest: string)
    requires Folded(a) && Folded(b) && Folded(c) && Folded(d) && s == LeadText(a, b, c, d, one, rest)
    ensures var k := |a| + 1 + |b| + 1 + |c| + 1 + |d|;
      Left(s, k, (if one then "1" else "0") + rest) && QualityAt(s, allowMore) == Value(s, k, allowMore)
  {
    hide Lws, Folded, Starts, Value, Token, Left;
    var val := (if one then "1" else "0") + rest;
    var eq := "=" + (d + val);
    var q := "q" + (c + eq);
    var semi := ";" + (b + q);
    assert s == a + semi;
    FoldedLws(a, semi);
    LeftStart(s, a, semi);
    assert s[|a|..] == semi && semi[0] == ';';
    NotStarts(s, |a|, ',');
    TokenRead(s, |a|, ';', b, q);
    TokenRead(s, |a| + 1 + |b|, 'q', c, eq);
    TokenRead(s, |a| + 1 + |b| + 1 + |c|, '=', d, val);
  }

  lemma LeftStart(s: string, a: string, rest: string)
    requires s == a + rest
    ensures Left(s, |a|, rest)
  {
  }

  /** A written quality is read whole, and taken for its value: 1000 when it is left out, 1000 or 0 for a whole
    number, and the digits after a point scaled by how many they are. */
  lemma WeightRead(w: Weight, tail: string, allowMore: bool)
    requires IsWeight(w) && Behind(w, tail, allowMore)
    ensures QualityAt(WeightText(w) + tail, allowMore) == Good(Got(w), |WeightText(w)|)
  {
    hide Lws, Folded, Starts, Value, QualityAt, LeadText, Decimal;
    var s := WeightText(w) + tail;
    match w
    case Unsaid(end) =>
      UnsaidRead(end, tail, allowMore);
    case Whole(a, b, c, d, one, end) =>
      LeadEnds(a, b, c, d, one, end, tail);
      LeadRead(s, allowMore, a, b, c, d, one, end + tail);
      WholeRead(s, |a| + 1 + |b| + 1 + |c| + 1 + |d|, allowMore, one, end, tail);
    case Point(a, b, c, d, one, e, f, digits, end) =>
      var rest := e + ("." + (f + (digits + end)));
      LeadEnds(a, b, c, d, one, rest, tail);
      PointEnds(e, f, digits, end, tail);
      LeadRead(s, allowMore, a, b, c, d, one, rest + tail);
      PointRead(s, |a| + 1 + |b| + 1 + |c| + 1 + |d|, allowMore, w, tail);
  }

  lemma UnsaidRead(end: string, tail: string, allowMore: bool)
    requires Folded(end) && (tail == [] || tail[0] == ',')
    ensures QualityAt(end + tail, allowMore) == Good(1000, |end|)
  {
    hide Lws, Folded, Starts, Value, Token;
    FoldedLws(end, tail);
    LeftStart(end + tail, end, tail);
    StartsIs(tail, ',');
  }

  lemma LeadEnds(a: string, b: string, c: string, d: string, one: bool, rest: string, tail: string)
    ensures LeadText(a, b, c, d, one, rest) + tail == LeadText(a, b, c, d, one, rest + tail)
    ensures |LeadText(a, b, c, d, one, rest)| == |a| + 1 + |b| + 1 + |c| + 1 + |d| + 1 + |rest|
  {
    var v := if one then "1" else "0";
    assert (v + rest) + tail == v + (rest + tail);
    Four(c, "=", d, v + rest, tail);
    Four(a, ";", b, "q" + (c + ("=" + (d + (v + rest)))), tail);
    assert "q" + (c + ("=" + (d + (v + rest)))) + tail == "q" + ((c + ("=" + (d + (v + rest)))) + tail);
  }

  lemma Four(a: string, b: string, c: string, d: string, tail: string)
    ensures (a + (b + (c + d))) + tail == a + (b + (c + (d + tail)))
  {
  }

  lemma PointEnds(e: string, f: string, digits: string, end: string, tail: string)
    ensures (e + ("." + (f + (digits + end)))) + tail == e + ("." + (f + (digits + (end + tail))))
  {
    Four(e, ".", f, digits + end, tail);
    assert (digits + end) + tail == digits + (end + tail);
  }

  // ---------------------------------------------------------------- a list as it is written

  /** A range of a list with its quality, and the whitespace after the comma behind it. */
  datatype Piece = Piece(range: string, w: Weight, gap: string)

  function PieceText(p: Piece): string {
    p.range + WeightText(p.w)
  }

  /** Ranges with commas between them, and with one behind the last if comma. */
  function ListText(ps: seq<Piece>, comma: bool): string {
    if ps == [] then []
    else if |ps| == 1 && !comma then PieceText(ps[0])
    else PieceText(ps[0]) + ("," + (ps[0].gap + ListText(ps[1..], comma)))
  }

  /** A range, which may be empty, has no whitespace of its own. */
  predicate IsPiece(p: Piece) {
    && CSpan(p.range, "\r\n \t;,") == |p.range| && IsWeight(p.w) && Folded(p.gap)
    && Solid(PieceText(p))
  }

  /** The last range without a comma has some text. */
  predicate IsList(ps: seq<Piece>, comma: bool) {
    && (forall i :: 0 <= i < |ps| ==> IsPiece(ps[i]))
    && (ps != [] && !comma ==> PieceText(ps[|ps| - 1]) != [])
  }

  /** What is read of a list. */
  function GotAll(ps: seq<Piece>): seq<Item> {
    seq(|ps|, i requires 0 <= i < |ps| => Item(ps[i].range, Got(ps[i].w)))
  }

  /** How many of its ranges have a comma behind them. */
  function Commas(ps: seq<Piece>, comma: bool): nat {
    if ps == [] || comma then |ps| else |ps| - 1
  }

  lemma RangeRead(range: string, w: Weight, tail: string)
    requires CSpan(range, "\r\n \t;,") == |range| && IsWeight(w) && (tail == [] || tail[0] == ',')
    ensures RangeLen(range + (WeightText(w) + tail)) == |range|
  {
    hide CSpan;
    var s := range + (WeightText(w) + tail);
    WeightFirst(w, tail);
    forall i | 0 <= i < |range|
      ensures s[i] !in "\r\n \t;,"
    {
      assert s[i] == range[i];
    }
    assert |range| < |s| ==> s[|range|] == (WeightText(w) + tail)[0];
    CSpanIs(s, "\r\n \t;,", |range|);
  }

  lemma WeightFirst(w: Weight, tail: string)
    requires IsWeight(w) && (tail == [] || tail[0] == ',')
    ensures var s := WeightText(w) + tail; s != [] ==> s[0] in "\r\n \t;,"
  {
    hide Decimal, IsNum;
    match w
    case Unsaid(end) => FoldedFirst(end, tail);
    case Whole(a, _, _, _, _, _) => FoldedFirst(a, ";");
    case Point(a, _, _, _, _, _, _, _, _) => FoldedFirst(a, ";");
  }

  lemma FoldedFirst(sp: string, rest: string)
    requires Folded(sp) && (rest == [] || rest[0] == ',' || rest[0] == ';')
    ensures var s := sp + rest; s != [] ==> s[0] in "\r\n \t;,"
  {
    if sp != [] {
      assert FoldedAt(sp, 0);
    }
  }

  /** One range of a header and what is done with it. */
  lemma PieceRead(p: Piece, tail: string, max: nat, num: nat)
    requires IsPiece(p) && (tail == [] || tail[0] == ',') && PieceText(p) + tail != []
    ensures Items(PieceText(p) + tail, max, num) ==
      if tail == [] then Right([Item(p.range, Got(p.w))])
      else if max > 0 && num + 1 >= max then Wrong
      else
        match Items(tail[1..][Lws(tail[1..])..], max, num + 1)
        case Wrong => Wrong
        case Right(items) => Right([Item(p.range, Got(p.w))] + items)
    ensures Read(PieceText(p) + tail, max, num) ==
      if tail == [] || (max > 0 && num + 1 >= max) then [Item(p.range, Got(p.w))]
      else [Item(p.range, Got(p.w))] + Read(tail[1..][Lws(tail[1..])..], max, num + 1)
  {
    hide Lws, Folded, QualityAt, RangeLen, Got, WeightText, IsWeight, CSpan, Starts;
    var s := PieceText(p) + tail;
    assert s == p.range + (WeightText(p.w) + tail);
    RangeRead(p.range, p.w, tail);
    var n := |p.range|;
    assert s[n..] == WeightText(p.w) + tail && s[..n] == p.range;
    WeightRead(p.w, tail, false);
    assert s[n..][|WeightText(p.w)|..] == tail;
  }

  lemma ListFirst(ps: seq<Piece>, comma: bool)
    requires IsList(ps, comma) && ps != []
    ensures IsPiece(ps[0]) && IsList(ps[1..], comma)
    ensures |ps| == 1 && !comma ==> PieceText(ps[0]) != []
    ensures Solid(ListText(ps[1..], comma))
    ensures GotAll(ps) == [Item(ps[0].range, Got(ps[0].w))] + GotAll(ps[1..])
    ensures Commas(ps, comma) == (if |ps| == 1 && !comma then 0 else 1 + Commas(ps[1..], comma))
  {
    hide Folded, Got, PieceText, IsWeight, CSpan;
    if |ps| > 1 {
      assert ps[1..][|ps| - 2] == ps[|ps| - 1];
      assert IsPiece(ps[1]);
      ListSolid(ps[1..], comma);
    }
  }

  lemma ListSolid(ps: seq<Piece>, comma: bool)
    requires ps != [] && Solid(PieceText(ps[0]))
    ensures Solid(ListText(ps, comma))
  {
    hide PieceText;
  }

  /** A written list is read as exactly its ranges with their qualities, or refused when there are more than
    max, in their order, whatever whitespace is between the tokens. */
  lemma {:induction false} ListRead(ps: seq<Piece>, comma: bool, max: nat, num: nat)
    requires IsList(ps, comma)
    ensures Items(ListText(ps, comma), max, num) ==
      if max > 0 && Commas(ps, comma) > 0 && num + Commas(ps, comma) >= max then Wrong else Right(GotAll(ps))
    ensures num < max <= num + Commas(ps, comma) ==>
      max - num <= |ps| && Read(ListText(ps, comma), max, num) == GotAll(ps)[..max - num]
    decreases |ps|
  {
    hide IsList, Items, Read, Lws, PieceText, Got, IsPiece, Solid, Folded, Commas;
    if ps == [] {
      NoItems(max, num, comma);
    } else {
      var p, rest := ps[0], ListText(ps[1..], comma);
      ListFirst(ps, comma);
      assert p.gap + rest == (p.gap + rest);
      if |ps| == 1 && !comma {
        assert PieceText(p) + [] == PieceText(p);
        PieceRead(p, [], max, num);
        assert ps[1..] == [];
        assert GotAll(ps) == [Item(p.range, Got(p.w))];
      } else {
        var tail := "," + (p.gap + rest);
        PieceRead(p, tail, max, num);
        assert tail[1..] == p.gap + rest;
        PieceGap(p);
        FoldedLws(p.gap, rest);
        assert (p.gap + rest)[|p.gap|..] == rest;
        ListRead(ps[1..], comma, max, num + 1);
        FirstOnes(Item(p.range, Got(p.w)), GotAll(ps[1..]), max - num);
      }
    }
  }

  lemma FirstOnes(x: Item, items: seq<Item>, n: int)
    ensures 0 < n <= 1 + |items| ==> ([x] + items)[..n] == [x] + items[..n - 1]
  {
  }

  lemma NoItems(max: nat, num: nat, comma: bool)
    ensures Items([], max, num) == Right([]) && Commas([], comma) == 0
  {
  }

  lemma PieceGap(p: Piece)
    requires IsPiece(p)
    ensures Folded(p.gap)
  {
  }

  /** The answer to a written list within the limit is the declared one, from exactly the ranges written, exactly
    when they are served. */
  lemma LanguageWritten(ps: seq<Piece>, comma: bool, max: nat, tag: string)
    requires IsList(ps, comma) && (max == 0 || Commas(ps, comma) < max)
    ensures Answers(GotAll(ps), tag, Loop(ListText(ps, comma), max, 0, tag, NONE, 0)) <==> Served(GotAll(ps), tag)
  {
    hide IsList, Items, Loop, Answers, Served, Commas, GotAll, ListText;
    ListRead(ps, comma, max, 0);
    LanguageAnswers(ListText(ps, comma), max, tag);
  }

  /** The answer to a list of more ranges than max is that of an equal one among the first max, otherwise 1. */
  lemma LanguageTooLong(ps: seq<Piece>, comma: bool, max: nat, tag: string)
    requires IsList(ps, comma) && 0 < max <= Commas(ps, comma)
    ensures max <= |ps| && Refuses(GotAll(ps)[..max], tag, Loop(ListText(ps, comma), max, 0, tag, NONE, 0))
  {
    hide IsList, Items, Loop, Refuses, Read, Commas, GotAll, ListText;
    ListRead(ps, comma, max, 0);
    LoopRefuses(ListText(ps, comma), max, 0, tag, NONE, 0);
  }
}
