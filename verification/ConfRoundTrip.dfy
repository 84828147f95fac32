/** Printing a forest, lexing the text, walking the tokens and unescaping the strings gives the
  forest back.
 */
module ConfRoundTrip {
  import opened Vstr
  import opened ConfLexer
  import opened ConfStructure
  import opened ConfQuote
  import opened ConfPrint
  import Number
  import opened ConfUnescape
  import opened ConfWalk
  import ConfParse

  /** What a configuration says, without its whitespace and notes: a string is its kind and its bytes. */
  datatype Said =
    | SaidSym(text: string)
    | SaidStr(single: bool, three: bool, bytes: string)
    | SaidList(square: bool, kids: seq<Said>)

  /** What a token says by itself. */
  datatype Item = Leaf(said: Said) | Begin(square: bool)

  /** What a walk tells a reader of the configuration: items and the depth of each. */
  datatype Entry = Entry(depth: nat, item: Item)

  // ---------------------------------------------------------------- what a body means

  /** What the reader of a string makes of its body. */
  function Value(body: seq<Chunk>): string {
    if HasBack(body) then Unescape(BodyText(body)) else BodyText(body)
  }

  /** A byte written in hexadecimal, and no third digit behind it. */
  predicate HexByte(body: seq<Chunk>) {
    && |body| >= 4 && body[0] == Back('0') && body[1] == Plain('x') && body[2].Plain? && body[3].Plain?
    && Number.Digit(body[2].c, 16) < 16 && Number.Digit(body[3].c, 16) < 16
    && (|body| > 4 && body[4].Plain? ==> Number.Digit(body[4].c, 16) == 16 && body[4].c != '_')
  }

  /** A byte written in octal, and no third digit behind it. */
  predicate OctByte(body: seq<Chunk>) {
    && |body| >= 3 && body[0] == Back('0') && body[1].Plain? && body[2].Plain?
    && Number.Digit(body[1].c, 8) < 8 && Number.Digit(body[2].c, 8) < 8
    && (|body| > 3 && body[3].Plain? ==> Number.Digit(body[3].c, 8) == 8 && body[3].c != '_')
  }

  /** The only numbers in a body are bytes in hexadecimal or octal. */
  predicate Known(body: seq<Chunk>) {
    || body == []
    || (body[0] != Back('0') && body[0] != Plain('\\') && Known(body[1..]))
    || (HexByte(body) && Known(body[4..]))
    || (OctByte(body) && Known(body[3..]))
  }

  /** The bytes a body stands for. */
  function Meaning(body: seq<Chunk>): string
    requires Known(body)
  {
    if body == [] then []
    else
      match body[0]
      case Plain(c) => [c] + Meaning(body[1..])
      case Back('0') =>
        if HexByte(body) then [(Number.Digit(body[2].c, 16) * 16 + Number.Digit(body[3].c, 16)) as char] + Meaning(body[4..])
        else [(Number.Digit(body[1].c, 8) * 8 + Number.Digit(body[2].c, 8)) as char] + Meaning(body[3..])
      case Back('\n') => Meaning(body[1..])
      case Back('t') => [9 as char] + Meaning(body[1..])
      case Back('n') => [10 as char] + Meaning(body[1..])
      case Back('v') => [11 as char] + Meaning(body[1..])
      case Back('r') => [13 as char] + Meaning(body[1..])
      case Back('b') => [8 as char] + Meaning(body[1..])
      case Back(c) => [c] + Meaning(body[1..])
  }

  lemma {:induction false} ValueMeans(body: seq<Chunk>)
    requires Known(body)
    ensures Unescape(BodyText(body)) == Meaning(body)
    ensures !HasBack(body) ==> BodyText(body) == Meaning(body)
    ensures Value(body) == Meaning(body)
  {
    hide Unescape, HexByte, OctByte, Known;
    KnownStep(body);
    if body == [] {
      UnescapeShort();
    } else if body[0].Plain? {
      ValueMeans(body[1..]);
      UnescapeByte(BodyText(body));
    } else if body[0].c != '0' {
      ValueMeans(body[1..]);
      LetterMeans(body[0].c, BodyText(body[1..]));
    } else if HexByte(body) {
      ValueMeans(body[4..]);
      HexMeans(body);
    } else {
      ValueMeans(body[3..]);
      OctMeans(body);
    }
  }

  lemma KnownStep(body: seq<Chunk>)
    requires Known(body)
    ensures body != [] && body[0] != Back('0') ==> body[0] != Plain('\\') && Known(body[1..])
    ensures body != [] && body[0] == Back('0') ==>
      if HexByte(body) then |body| >= 4 && Known(body[4..]) else OctByte(body) && |body| >= 3 && Known(body[3..])
  {
    hide Number.Digit;
    NotOctal(body);
  }

  lemma LetterMeans(c: char, rest: string)
    requires c != '0'
    ensures Unescape(['\\', c] + rest) ==
      (match c
       case '\n' => []
       case 't' => [9 as char]
       case 'n' => [10 as char]
       case 'v' => [11 as char]
       case 'r' => [13 as char]
       case 'b' => [8 as char]
       case _ => [c]) + Unescape(rest)
  {
    hide Unescape, FirstEscape;
    var s := ['\\', c] + rest;
    LetterEscape(c, rest);
    UnescapeEscape(s);
    assert s[2..] == rest;
  }

  lemma HexMeans(body: seq<Chunk>)
    requires HexByte(body)
    ensures Unescape(BodyText(body))
         == [(Number.Digit(body[2].c, 16) * 16 + Number.Digit(body[3].c, 16)) as char] + Unescape(BodyText(body[4..]))
  {
    hide Unescape, FirstEscape, Number.Digit, BodyText;
    HexText(body);
    var rest := BodyText(body[4..]);
    HexEscape(body[2].c, body[3].c, rest);
    UnescapeEscape(BodyText(body));
    assert BodyText(body)[5..] == rest;
  }

  lemma OctMeans(body: seq<Chunk>)
    requires OctByte(body)
    ensures Unescape(BodyText(body))
         == [(Number.Digit(body[1].c, 8) * 8 + Number.Digit(body[2].c, 8)) as char] + Unescape(BodyText(body[3..]))
  {
    hide Unescape, FirstEscape, Number.Digit, BodyText;
    OctText(body);
    var rest := BodyText(body[3..]);
    OctEscape(body[1].c, body[2].c, rest);
    UnescapeEscape(BodyText(body));
    assert BodyText(body)[4..] == rest;
  }

  lemma HexText(body: seq<Chunk>)
    requires HexByte(body)
    ensures BodyText(body) == ['\\', '0', 'x', body[2].c, body[3].c] + BodyText(body[4..])
    ensures NoDigit(BodyText(body[4..]), 16)
  {
    hide Number.Digit;
    BackslashNoDigit();
    var s1, s2, s3 := body[1..], body[2..], body[3..];
    assert s1[1..] == s2 && s2[1..] == s3 && s3[1..] == body[4..];
    assert BodyText(s3) == [body[3].c] + BodyText(body[4..]);
    assert BodyText(s2) == [body[2].c] + BodyText(s3);
    assert BodyText(s1) == ['x'] + BodyText(s2);
  }

  lemma OctText(body: seq<Chunk>)
    requires OctByte(body)
    ensures BodyText(body) == ['\\', '0', body[1].c, body[2].c] + BodyText(body[3..])
    ensures NoDigit(BodyText(body[3..]), 8)
  {
    hide Number.Digit;
    BackslashNoDigit();
    var s1, s2 := body[1..], body[2..];
    assert s1[1..] == s2 && s2[1..] == body[3..];
    assert BodyText(s2) == [body[2].c] + BodyText(body[3..]);
    assert BodyText(s1) == [body[1].c] + BodyText(s2);
  }

  lemma BackslashNoDigit()
    ensures Number.Digit('\\', 16) == 16 && Number.Digit('\\', 8) == 8
  {
  }

  lemma NotOctal(body: seq<Chunk>)
    ensures HexByte(body) ==> !OctByte(body)
  {
  }

  /** Any bytes can be written in any quotes. */
  function Chunks(bytes: string, single: bool): seq<Chunk> {
    if bytes == [] then []
    else
      var c := bytes[0];
      [if c == '\n' then Back('n') else if c == '\\' || c == QuoteChar(single) then Back(c) else Plain(c)] + Chunks(bytes[1..], single)
  }

  lemma {:induction false} ChunksMean(bytes: string, single: bool, three: bool)
    ensures var body := Chunks(bytes, single);
      && ValidBody(body, single, three) && !BeginsLine(body) && Known(body) && Meaning(body) == bytes
  {
    if bytes != [] {
      var body := Chunks(bytes, single);
      ChunksMean(bytes[1..], single, three);
      assert body[1..] == Chunks(bytes[1..], single);
    }
  }

  // ---------------------------------------------------------------- from entries to a forest

  datatype Rebuilt = Rebuilt(forest: seq<Said>, rest: seq<Entry>)

  /** The forest of the entries at depth d and below, up to the first entry above. */
  function RebuildAt(es: seq<Entry>, d: nat): (r: Rebuilt)
    ensures |r.rest| <= |es|
    decreases |es|
  {
    if es == [] || es[0].depth < d then Rebuilt([], es)
    else
      match es[0].item
      case Leaf(said) =>
        var tail := RebuildAt(es[1..], d);
        Rebuilt([said] + tail.forest, tail.rest)
      case Begin(square) =>
        var kids := RebuildAt(es[1..], d + 1);
        var tail := RebuildAt(kids.rest, d);
        Rebuilt([SaidList(square, kids.forest)] + tail.forest, tail.rest)
  }

  function Rebuild(es: seq<Entry>): seq<Said> {
    RebuildAt(es, 0).forest
  }

  /** What a symbol or a string says. */
  function LeafSays(n: Node): Said
    requires n.Sym? || n.Str? || n.RawStr?
  {
    match n
    case Sym(text, _) => SaidSym(text)
    case Str(single, three, _, body, _) => SaidStr(single, three, Value(body))
    case RawStr(_, single, three, _, bytes, _) => SaidStr(single, three, bytes)
  }

  function NodeSays(n: Node): seq<Said>
    decreases n, 1
  {
    match n
    case Note(_, _, _, _) => []
    case List(square, _, kids, _) => [SaidList(square, Says(kids))]
    case _ => [LeafSays(n)]
  }

  /** What a forest says. */
  function Says(f: seq<Node>): seq<Said>
    decreases f, 0
  {
    if f == [] then [] else NodeSays(f[0]) + Says(f[1..])
  }

  function NodeOutline(n: Node, d: nat): (r: seq<Entry>)
    ensures |r| == |NodeTypes(n)|
    decreases n, 1
  {
    match n
    case Note(_, _, _, _) => []
    case List(square, _, kids, _) => [Entry(d, Begin(square))] + Outline(kids, d + 1)
    case _ => [Entry(d, Leaf(LeafSays(n)))]
  }

  /** A forest as a list of items with depths. */
  function Outline(f: seq<Node>, d: nat): (r: seq<Entry>)
    ensures |r| == |Types(f)|
    decreases f, 0
  {
    if f == [] then [] else NodeOutline(f[0], d) + Outline(f[1..], d)
  }

  predicate Above(es: seq<Entry>, d: nat) {
    es == [] || es[0].depth < d
  }

  lemma {:induction false} RebuildNode(n: Node, f: seq<Node>, d: nat, tail: seq<Entry>)
    requires RebuildAt(Outline(f, d) + tail, d) == Rebuilt(Says(f), tail)
    requires Above(tail, d)
    ensures RebuildAt(NodeOutline(n, d) + (Outline(f, d) + tail), d) == Rebuilt(NodeSays(n) + Says(f), tail)
    decreases n, 1
  {
    hide LeafSays, RebuildAt;
    var after := Outline(f, d) + tail;
    match n
    case Note(_, _, _, _) =>
      assert NodeOutline(n, d) + after == after;
    case List(_, _, kids, _) =>
      OutlineStarts(f, d);
      RebuildForest(kids, d + 1, after);
      RebuildList(n, d, after);
    case _ =>
      RebuildLeaf(n, d, after);
  }

  lemma RebuildLeaf(n: Node, d: nat, after: seq<Entry>)
    requires n.Sym? || n.Str? || n.RawStr?
    ensures RebuildAt(NodeOutline(n, d) + after, d)
         == Rebuilt(NodeSays(n) + RebuildAt(after, d).forest, RebuildAt(after, d).rest)
  {
    hide LeafSays;
    var es := NodeOutline(n, d) + after;
    assert es == [Entry(d, Leaf(LeafSays(n)))] + after;
    assert es[1..] == after;
  }

  lemma RebuildList(n: Node, d: nat, after: seq<Entry>)
    requires n.List? && RebuildAt(Outline(n.kids, d + 1) + after, d + 1) == Rebuilt(Says(n.kids), after)
    ensures RebuildAt(NodeOutline(n, d) + after, d)
         == Rebuilt(NodeSays(n) + RebuildAt(after, d).forest, RebuildAt(after, d).rest)
  {
    var es := NodeOutline(n, d) + after;
    assert es == [Entry(d, Begin(n.square))] + (Outline(n.kids, d + 1) + after);
    assert es[1..] == Outline(n.kids, d + 1) + after;
  }

  /** The entries of a forest begin at its own depth. */
  lemma {:induction false} OutlineStarts(f: seq<Node>, d: nat)
    ensures Outline(f, d) == [] || Outline(f, d)[0].depth == d
    decreases f
  {
    hide NodeOutline, NodeTypes, Types;
    if f != [] {
      NodeStarts(f[0], d);
      OutlineStarts(f[1..], d);
    }
  }

  lemma NodeStarts(n: Node, d: nat)
    ensures NodeOutline(n, d) == [] || NodeOutline(n, d)[0].depth == d
  {
    hide Outline, NodeTypes, Types;
  }

  lemma {:induction false} RebuildForest(f: seq<Node>, d: nat, tail: seq<Entry>)
    requires Above(tail, d)
    ensures RebuildAt(Outline(f, d) + tail, d) == Rebuilt(Says(f), tail)
    decreases f, 0
  {
    hide NodeOutline, NodeSays, Types, NodeTypes;
    if f == [] {
      assert Outline(f, d) + tail == tail;
    } else {
      RebuildForest(f[1..], d, tail);
      RebuildNode(f[0], f[1..], d, tail);
      assert Outline(f, d) + tail == NodeOutline(f[0], d) + (Outline(f[1..], d) + tail);
    }
  }

  /** The outline of a forest determines it. */
  lemma RebuildOutline(f: seq<Node>)
    ensures Rebuild(Outline(f, 0)) == Says(f)
  {
    RebuildForest(f, 0, []);
    assert Outline(f, 0) + [] == Outline(f, 0);
  }

  // ---------------------------------------------------------------- from tokens to entries

  /** What a token means: the bytes of a symbol or a string, unescaped when it has escapes. */
  function ItemOf(data: string, sect: Sect, typ: nat): Item {
    if IsList(typ) then Begin(typ == TYPE_SLIST)
    else
      var bytes := if Within(data, sect.pos, sect.len) then Slice(data, sect.pos, sect.len) else [];
      if IsQuote(typ) then
        var single := typ >= TYPE_QUOTE_S;
        var kind := if single then typ - TYPE_QUOTE_S else typ - TYPE_QUOTE_D;
        Leaf(SaidStr(single, kind >= 2, if kind % 2 == 1 then Unescape(bytes) else bytes))
      else Leaf(SaidSym(bytes))
  }

  /** What walking the tokens of a text tells its reader. */
  function Report(data: string, sects: seq<Sect>, types: seq<nat>): (r: seq<Entry>)
    requires |sects| == |types|
    ensures |r| == |sects|
  {
    seq(|sects|, k requires 0 <= k < |sects| =>
      Entry(|Enclosing(sects, types, k)|, ItemOf(data, sects[k], types[k])))
  }

  lemma StrItem(data: string, pos: nat, n: Node)
    requires n.Str? || n.RawStr?
    requires At(data, pos, NodeBody(n))
    ensures ItemOf(data, NodeSects(n, pos)[0], NodeTypes(n)[0]) == Leaf(LeafSays(n))
  {
    hide BodyText, Unescape, HasBack, EscType, Quotes, At, ItemOf, StrType;
    var q := Quotes(n.single, n.three);
    if n.Str? {
      var text, before := BodyText(n.body), Lines(n.lines);
      AtSplit(data, pos, q, before + (text + q));
      AtSplit(data, pos + |q|, before, text + q);
      AtSplit(data, pos + |q| + 2 * n.lines, text, q);
      ItemOfStr(data, pos + |q| + 2 * n.lines, n.single, n.three, HasBack(n.body), text);
    } else {
      var before := Lines(if n.line then 1 else 0);
      AtSplit(data, pos, [if n.at then '@' else 'r'], q + (before + (n.bytes + q)));
      AtSplit(data, pos + 1, q, before + (n.bytes + q));
      AtSplit(data, pos + 1 + |q|, before, n.bytes + q);
      AtSplit(data, pos + 1 + |q| + |before|, n.bytes, q);
      ItemOfStr(data, pos + 1 + |q| + |before|, n.single, n.three, false, n.bytes);
      NoEscType(n.single, n.three);
    }
  }

  lemma NoEscType(single: bool, three: bool)
    ensures EscType(single, three, false) == StrType(single, three)
  {
  }

  /** A string's type says what its quotes are and whether it has escapes. */
  lemma TypeKinds(single: bool, three: bool, esc: bool)
    ensures var typ := EscType(single, three, esc);
            var kind := if single then typ - TYPE_QUOTE_S else typ - TYPE_QUOTE_D;
            && !IsList(typ) && IsQuote(typ) && (typ >= TYPE_QUOTE_S) == single
            && (kind >= 2) == three && (kind % 2 == 1) == esc
  {
  }

  lemma ItemOfStr(data: string, p: nat, single: bool, three: bool, esc: bool, text: string)
    requires At(data, p, text)
    ensures ItemOf(data, Sect(p, |text|), EscType(single, three, esc))
         == Leaf(SaidStr(single, three, if esc then Unescape(text) else text))
  {
    hide Unescape, EscType, IsList, IsQuote;
    TypeKinds(single, three, esc);
  }

  /** The tokens of a printed forest mean the items of the forest. */
  ghost predicate SameItems(data: string, sects: seq<Sect>, types: seq<nat>, es: seq<Entry>) {
    && |sects| == |types| == |es|
    && forall j :: 0 <= j < |es| ==> ItemOf(data, sects[j], types[j]) == es[j].item
  }

  lemma SameItemsJoin(data: string, s: seq<Sect>, t: seq<nat>, es: seq<Entry>, s': seq<Sect>, t': seq<nat>, es': seq<Entry>)
    requires SameItems(data, s, t, es) && SameItems(data, s', t', es')
    ensures SameItems(data, s + s', t + t', es + es')
  {
    hide ItemOf;
  }

  lemma {:induction false} NodeItems(data: string, n: Node, pos: nat, d: nat)
    requires At(data, pos, NodeBody(n))
    ensures SameItems(data, NodeSects(n, pos), NodeTypes(n), NodeOutline(n, d))
    decreases n, 1
  {
    hide *;
    if n.List? {
      KidsAt(data, n, pos);
      ForestItems(data, n.kids, pos + 1 + |n.lead|, d + 1);
      ListItems(data, n, pos, d);
    } else {
      LeafItems(data, n, pos, d);
    }
  }

  lemma LeafItems(data: string, n: Node, pos: nat, d: nat)
    requires !n.List? && At(data, pos, NodeBody(n))
    ensures SameItems(data, NodeSects(n, pos), NodeTypes(n), NodeOutline(n, d))
  {
    if n.Str? || n.RawStr? {
      hide QuotedText, RawText, Value, ItemOf, EscType, StrType, BodyText, HasBack, Quotes;
      StrItem(data, pos, n);
    }
  }

  lemma KidsAt(data: string, n: Node, pos: nat)
    requires n.List? && At(data, pos, NodeBody(n))
    ensures At(data, pos + 1 + |n.lead|, Print(n.kids))
  {
    hide Print, At;
    var body := Print(n.kids);
    var open, close := [Opening(n.square)], [Closing(n.square)];
    assert NodeBody(n) == open + (n.lead + (body + close));
    AtSplit(data, pos, open, n.lead + (body + close));
    AtSplit(data, pos + 1, n.lead, body + close);
    AtSplit(data, pos + 1 + |n.lead|, body, close);
  }

  lemma ListItems(data: string, n: Node, pos: nat, d: nat)
    requires n.List?
    requires SameItems(data, Sects(n.kids, pos + 1 + |n.lead|), Types(n.kids), Outline(n.kids, d + 1))
    ensures SameItems(data, NodeSects(n, pos), NodeTypes(n), NodeOutline(n, d))
  {
    hide Sects, Types, Outline;
    var kids := n.kids;
    var typ := if n.square then TYPE_SLIST else TYPE_CLIST;
    SameItemsJoin(data, [Sect(pos, |Types(kids)|)], [typ], [Entry(d, Begin(n.square))],
      Sects(kids, pos + 1 + |n.lead|), Types(kids), Outline(kids, d + 1));
  }

  lemma {:induction false} ForestItems(data: string, f: seq<Node>, pos: nat, d: nat)
    requires At(data, pos, Print(f))
    ensures SameItems(data, Sects(f, pos), Types(f), Outline(f, d))
    decreases f, 0
  {
    hide NodeBody, NodeSects, NodeTypes, NodeOutline, ItemOf, Print, Sects, Types, Outline;
    ForestParts(f, pos, d);
    if f != [] {
      var body := NodeBody(f[0]);
      var q := pos + |NodeText(f[0])|;
      AtSplit(data, pos, NodeText(f[0]), Print(f[1..]));
      AtSplit(data, pos, body, f[0].gap);
      NodeItems(data, f[0], pos, d);
      ForestItems(data, f[1..], q, d);
      SameItemsJoin(data, NodeSects(f[0], pos), NodeTypes(f[0]), NodeOutline(f[0], d),
        Sects(f[1..], q), Types(f[1..]), Outline(f[1..], d));
    }
  }

  lemma ForestParts(f: seq<Node>, pos: nat, d: nat)
    ensures f == [] ==> Sects(f, pos) == [] && Types(f) == [] && Outline(f, d) == []
    ensures f != [] ==>
      var q := pos + |NodeText(f[0])|;
      && Print(f) == NodeText(f[0]) + Print(f[1..])
      && Sects(f, pos) == NodeSects(f[0], pos) + Sects(f[1..], q)
      && Types(f) == NodeTypes(f[0]) + Types(f[1..])
      && Outline(f, d) == NodeOutline(f[0], d) + Outline(f[1..], d)
  {
  }

  // ---------------------------------------------------------------- depths

  /** The tokens of a forest, at token a of a longer array. */
  ghost predicate Holds(sects: seq<Sect>, types: seq<nat>, s: seq<Sect>, t: seq<nat>, a: nat) {
    && |sects| == |types| && |s| == |t| && a + |s| <= |sects|
    && sects[a..a + |s|] == s && types[a..a + |t|] == t
  }

  /** The lists among them end among them. */
  ghost predicate Closed(sects: seq<Sect>, types: seq<nat>, a: nat, b: nat)
    requires a <= b <= |sects| == |types|
  {
    forall i :: a <= i < b && IsList(types[i]) ==> End(sects, i) < b
  }

  lemma HoldsSplit(sects: seq<Sect>, types: seq<nat>, s: seq<Sect>, t: seq<nat>, s': seq<Sect>, t': seq<nat>, a: nat)
    requires |s| == |t| && |s'| == |t'| && Holds(sects, types, s + s', t + t', a)
    ensures Holds(sects, types, s, t, a) && Holds(sects, types, s', t', a + |s|)
  {
    assert sects[a..a + |s + s'|][..|s|] == s && sects[a..a + |s + s'|][|s|..] == s';
    assert types[a..a + |t + t'|][..|t|] == t && types[a..a + |t + t'|][|t|..] == t';
  }

  /** Every token k of a part of the array is inside d of the lists before the part. */
  ghost predicate Around(sects: seq<Sect>, types: seq<nat>, a: nat, m: nat, d: nat)
    requires a + m <= |sects| == |types|
  {
    forall k :: a <= k < a + m ==> |Inside(sects, types, k, a)| == d
  }

  /** The depths the walker reports are those of the outline. */
  ghost predicate SameDepths(sects: seq<Sect>, types: seq<nat>, a: nat, es: seq<Entry>)
    requires a + |es| <= |sects| == |types|
  {
    forall j :: 0 <= j < |es| ==> |Enclosing(sects, types, a + j)| == es[j].depth
  }

  lemma SameDepthsJoin(sects: seq<Sect>, types: seq<nat>, a: nat, es: seq<Entry>, es': seq<Entry>)
    requires a + |es| + |es'| <= |sects| == |types|
    requires SameDepths(sects, types, a, es) && SameDepths(sects, types, a + |es|, es')
    ensures SameDepths(sects, types, a, es + es')
  {
    hide Enclosing;
    forall j | 0 <= j < |es + es'|
      ensures |Enclosing(sects, types, a + j)| == (es + es')[j].depth
    {
      if j >= |es| {
        assert a + j == a + |es| + (j - |es|);
      }
    }
  }

  lemma {:induction false} NodeDepths(sects: seq<Sect>, types: seq<nat>, n: Node, pos: nat, a: nat, d: nat)
    requires Holds(sects, types, NodeSects(n, pos), NodeTypes(n), a)
    requires Around(sects, types, a, |NodeTypes(n)|, d)
    ensures Closed(sects, types, a, a + |NodeTypes(n)|)
    ensures SameDepths(sects, types, a, NodeOutline(n, d))
    decreases n, 1
  {
    hide Inside, Enclosing, End, Sects, Types, Outline, Holds, Closed, SameDepths;
    if !n.List? {
      LeafDepths(sects, types, n, pos, a, d);
    } else {
      var square, kids, p := n.square, n.kids, pos + 1 + |n.lead|;
      var typ := if square then TYPE_SLIST else TYPE_CLIST;
      HoldsSplit(sects, types, [Sect(pos, |Types(kids)|)], [typ], Sects(kids, p), Types(kids), a);
      HoldsOne(sects, types, Sect(pos, |Types(kids)|), typ, a);
      var b := a + 1;
      forall k | b <= k < b + |Types(kids)|
        ensures |Inside(sects, types, k, b)| == d + 1
      {
        InsideList(sects, types, k, a, b + |Types(kids)|, d);
      }
      ForestDepths(sects, types, kids, p, b, d + 1);
      ListDepths(sects, types, a, b + |Types(kids)|, d, square);
      SameDepthsJoin(sects, types, a, [Entry(d, Begin(square))], Outline(kids, d + 1));
    }
  }

  lemma HoldsOne(sects: seq<Sect>, types: seq<nat>, sect: Sect, typ: nat, a: nat)
    requires Holds(sects, types, [sect], [typ], a)
    ensures a < |sects| == |types| && sects[a] == sect && types[a] == typ
  {
    assert types[a..a + 1][0] == types[a] && sects[a..a + 1][0] == sects[a];
  }

  /** A token in a list is inside one list more. */
  lemma InsideList(sects: seq<Sect>, types: seq<nat>, k: nat, a: nat, e: nat, d: nat)
    requires a < k < e <= |sects| == |types| && IsList(types[a]) && sects[a].len == e - a - 1
    requires |Inside(sects, types, k, a)| == d
    ensures |Inside(sects, types, k, a + 1)| == d + 1
  {
  }

  /** The token of a list itself, and the end of the list. */
  lemma ListDepths(sects: seq<Sect>, types: seq<nat>, a: nat, e: nat, d: nat, square: bool)
    requires a < e <= |sects| == |types| && IsList(types[a]) && sects[a].len == e - a - 1
    requires Closed(sects, types, a + 1, e) && |Inside(sects, types, a, a)| == d
    ensures Closed(sects, types, a, e) && SameDepths(sects, types, a, [Entry(d, Begin(square))])
  {
  }

  lemma LeafDepths(sects: seq<Sect>, types: seq<nat>, n: Node, pos: nat, a: nat, d: nat)
    requires !n.List? && Holds(sects, types, NodeSects(n, pos), NodeTypes(n), a)
    requires Around(sects, types, a, |NodeTypes(n)|, d)
    ensures Closed(sects, types, a, a + |NodeTypes(n)|)
    ensures SameDepths(sects, types, a, NodeOutline(n, d))
  {
    hide Inside;
    if !n.Note? {
      assert types[a..a + 1][0] == types[a];
    }
  }

  /** The same for what is left of a part whose first tokens are closed. */
  lemma AroundRest(sects: seq<Sect>, types: seq<nat>, a: nat, b: nat, m: nat, d: nat)
    requires a <= b && b + m <= |sects| == |types| && Around(sects, types, a, b - a + m, d) && Closed(sects, types, a, b)
    ensures Around(sects, types, b, m, d)
  {
    hide Inside;
    forall k | b <= k < b + m
      ensures |Inside(sects, types, k, b)| == d
    {
      InsideGap(sects, types, k, a, b);
      assert |Inside(sects, types, k, a)| == d;
    }
  }

  lemma AroundFirst(sects: seq<Sect>, types: seq<nat>, a: nat, n: nat, m: nat, d: nat)
    requires n <= m && a + m <= |sects| == |types| && Around(sects, types, a, m, d)
    ensures Around(sects, types, a, n, d)
  {
    hide Inside;
  }

  lemma ClosedJoin(sects: seq<Sect>, types: seq<nat>, a: nat, b: nat, c: nat)
    requires a <= b <= c <= |sects| == |types| && Closed(sects, types, a, b) && Closed(sects, types, b, c)
    ensures Closed(sects, types, a, c)
  {
  }

  lemma HoldsSize(sects: seq<Sect>, types: seq<nat>, s: seq<Sect>, t: seq<nat>, a: nat)
    requires Holds(sects, types, s, t, a)
    ensures |sects| == |types| && |s| == |t| && a + |s| <= |sects|
  {
  }

  lemma NoDepths(sects: seq<Sect>, types: seq<nat>, a: nat)
    requires a <= |sects| == |types|
    ensures Closed(sects, types, a, a) && SameDepths(sects, types, a, [])
  {
  }

  lemma {:induction false} ForestDepths(sects: seq<Sect>, types: seq<nat>, f: seq<Node>, pos: nat, a: nat, d: nat)
    requires Holds(sects, types, Sects(f, pos), Types(f), a)
    requires Around(sects, types, a, |Types(f)|, d)
    ensures Closed(sects, types, a, a + |Types(f)|)
    ensures SameDepths(sects, types, a, Outline(f, d))
    decreases f, 0
  {
    hide *;
    ForestParts(f, pos, d);
    if f == [] {
      HoldsSize(sects, types, Sects(f, pos), Types(f), a);
      NoDepths(sects, types, a);
    } else {
      var q := pos + |NodeText(f[0])|;
      var n, m := |NodeTypes(f[0])|, |Types(f[1..])|;
      var b := a + n;
      HoldsSplit(sects, types, NodeSects(f[0], pos), NodeTypes(f[0]), Sects(f[1..], q), Types(f[1..]), a);
      HoldsSize(sects, types, Sects(f[1..], q), Types(f[1..]), b);
      AroundFirst(sects, types, a, n, n + m, d);
      NodeDepths(sects, types, f[0], pos, a, d);
      AroundRest(sects, types, a, b, m, d);
      ForestDepths(sects, types, f[1..], q, b, d);
      ClosedJoin(sects, types, a, b, b + m);
      SameDepthsJoin(sects, types, a, NodeOutline(f[0], d), Outline(f[1..], d));
    }
  }

  // ---------------------------------------------------------------- the round trip

  /** The walk over the tokens of a printed forest reports the outline of the forest, wherever it is printed. */
  lemma ReportPrinted(f: seq<Node>, head: string)
    ensures var pos := 1 + |head|; Report(head + Print(f), Sects(f, pos), Types(f)) == Outline(f, 0)
  {
    var data, pos := head + Print(f), 1 + |head|;
    var s, t := Sects(f, pos), Types(f);
    assert At(data, 1, data);
    AtSplit(data, 1, head, Print(f));
    ForestItems(data, f, pos, 0);
    ForestDepths(s, t, f, pos, 0, 0);
    var r, o := Report(data, s, t), Outline(f, 0);
    forall k | 0 <= k < |s|
      ensures r[k] == o[k]
    {
      assert |Enclosing(s, t, 0 + k)| == o[k].depth;
    }
  }

  /** For every forest at most 64 lists deep and whatever whitespace in it and before it, after the first line of a
    script or without one, unless the forest itself is taken for a script: the lexer accepts the
    printed text, and walking its tokens gives back what the forest says. */
  lemma RoundTrip(f: seq<Node>, head: string)
    requires ValidForest(f) && IsHead(head) && Depth(f) <= 64
    requires head == [] ==> !LooksLikeScript(Print(f))
    ensures var data := head + Print(f);
            && Lex(data).Next?
            && |Lex(data).l.sects| == |Lex(data).l.types|
            && Rebuild(Report(data, Lex(data).l.sects, Lex(data).l.types)) == Says(f)
  {
    hide ValidForest, IsHead, Depth, LooksLikeScript, Report, Rebuild;
    assert head == [] ==> head + Print(f) == Print(f);
    LexPrinted(f, head);
    ReportPrinted(f, head);
    RebuildOutline(f);
  }

  /** Lexing a text, walking its tokens and unescaping its strings, as the readers of options
    do: nothing when the lexer refuses the text, otherwise its report. */
  method ReadConf(text: string) returns (r: Option<seq<Entry>>)
    requires |text| < UINT_MAX
    ensures r.None? <==> Lex(text).Err?
    ensures r.Some? ==>
      var l := Lex(text).l;
      |l.sects| == |l.types| && r.value == Report(text, l.sects, l.types)
  {
    hide Run, Shape, WellNested, Shallow, Mirrors, Report, Enclosing, EntryOf;
    var conf := new ConfParse.Conf(text);
    var ok := conf.Lex(1, |text|);
    if !ok {
      return None;
    }
    LexStructure(text);
    NestedSizes(conf.sects, conf.types);
    FewTokens(text);
    var visits := Walk(conf.sects, conf.types);
    var es := DecodeAll(text, visits);
    ReportIs(text, conf.sects, conf.types, es);
    return Some(es);
  }

  method DecodeAll(data: string, visits: seq<Visit>) returns (es: seq<Entry>)
    ensures |es| == |visits|
    ensures forall k :: 0 <= k < |visits| ==> es[k] == EntryOf(data, visits[k])
  {
    hide ItemOf;
    es := [];
    for k := 0 to |visits|
      invariant |es| == k
      invariant forall j :: 0 <= j < k ==> es[j] == EntryOf(data, visits[j])
    {
      var item := DecodeItem(data, visits[k]);
      es := es + [Entry(visits[k].depth, item)];
    }
  }

  function EntryOf(data: string, v: Visit): Entry {
    Entry(v.depth, ItemOf(data, v.sect, v.typ))
  }

  /** A symbol or a string is copied out of the text; one with escapes is unescaped in its copy. */
  method DecodeItem(data: string, v: Visit) returns (item: Item)
    ensures item == ItemOf(data, v.sect, v.typ)
  {
    hide Unescape;
    if IsList(v.typ) {
      return Begin(v.typ == TYPE_SLIST);
    }
    var bytes := if Within(data, v.sect.pos, v.sect.len) then Slice(data, v.sect.pos, v.sect.len) else [];
    if !IsQuote(v.typ) {
      return Leaf(SaidSym(bytes));
    }
    var single := v.typ >= TYPE_QUOTE_S;
    var kind := if single then v.typ - TYPE_QUOTE_S else v.typ - TYPE_QUOTE_D;
    if kind % 2 == 1 {
      bytes := Unescaped(bytes);
    }
    return Leaf(SaidStr(single, kind >= 2, bytes));
  }

  method Unescaped(bytes: string) returns (r: string)
    ensures r == Unescape(bytes)
  {
    hide Unescape;
    var base := new Base(bytes);
    assert Slice(base.text, 1, |bytes|) == bytes;
    var len := base.ConvUnesc(1, |bytes|);
    assert base.text == Unescape(bytes);
    return base.text;
  }

  lemma ReportIs(data: string, sects: seq<Sect>, types: seq<nat>, es: seq<Entry>)
    requires |sects| == |types| == |es|
    requires forall k :: 0 <= k < |es| ==>
      es[k] == EntryOf(data, Visit(k + 1, |Enclosing(sects, types, k)|, types[k], sects[k]))
    ensures es == Report(data, sects, types)
  {
  }

  /** There are no more tokens than bytes of text. */
  lemma FewTokens(data: string)
    requires Lex(data).Next?
    ensures |Lex(data).l.sects| <= |data|
  {
    hide Run, WellNested, Shallow, Bracketed;
    var l := Lex(data).l;
    LexStructure(data);
    RunLate(data, INITIAL, 1, |data|, 1);
    if l.sects != [] {
      AscendingFrom(l.sects, |l.sects| - 1);
    }
  }

  lemma {:induction false} AscendingFrom(sects: seq<Sect>, i: nat)
    requires Ascending(sects) && i < |sects| && sects[0].pos >= 1
    ensures sects[i].pos >= i + 1
  {
    if i > 0 {
      AscendingFrom(sects, i - 1);
    }
  }
}
