/** The Range header of httpd.c: byte ranges of a file, kept as sections in an array that grows. */
module HttpRange {
  import opened Vstr
  import opened Number
  import opened HttpText

  /** vstr_parse_uintmax, in decimal. */
  function Uint(s: string): (p: Parsed)
    ensures p.len <= |s| && p.value < UINTMAX && (p.len == 0 ==> p.value == 0)
  {
    Parse(s, DECIMAL, UINTMAX)
  }

  /** The first and the last byte of a range. */
  datatype Bytes = Bytes(beg: nat, end: nat)

  /** What becomes of one range: the code to stop with, or the range and where the text goes on. */
  datatype Item = Stop(code: nat) | Got(bytes: Bytes, len: nat)

  function LastByte(fsize: nat): nat {
    (fsize + UINTMAX - 1) % UINTMAX
  }

  /** A range with a first byte, checked against the file. */
  function Checked(beg: nat, end0: nat, fsize: nat, len: nat): Item {
    var end := if end0 >= fsize then LastByte(fsize) else end0;
    if beg >= fsize || beg > end then Stop(416)
    else if beg == 0 && end == LastByte(fsize) then Stop(0)
    else Got(Bytes(beg, end), len)
  }

  /** The last bytes of the file. */
  function Suffix(n: nat, fsize: nat, len: nat): Item {
    if n == 0 then Stop(416)
    else if n >= fsize then Stop(0)
    else Got(Bytes(fsize - n, fsize - 1), len)
  }

  /** The end of a range with first byte beg, after the dash; m bytes of the header come before it. */
  function EndOf(t: string, beg: nat, m: nat, fsize: nat): Item {
    if t == [] || Starts(t, ",") then Checked(beg, UINTMAX, fsize, m)
    else if Uint(t).len == 0 then Stop(0)
    else Checked(beg, Uint(t).value, fsize, m + Uint(t).len)
  }

  /** One range of the header. */
  function ItemAt(s: string, fsize: nat): (r: Item)
    ensures r.Got? ==> 0 < r.len <= |s|
    ensures r.Stop? ==> r.code == 0 || r.code == 416
  {
    if Starts(s, "-") then LastAt(s, fsize) else OffsetAt(s, fsize)
  }

  function LastAt(s: string, fsize: nat): (r: Item)
    requires Starts(s, "-")
    ensures r.Got? ==> 0 < r.len <= |s|
    ensures r.Stop? ==> r.code == 0 || r.code == 416
  {
    var k := 1 + Lws(s[1..]);
    var n := Uint(s[k..]);
    if n.len == 0 then Stop(0) else Suffix(n.value, fsize, k + n.len)
  }

  function OffsetAt(s: string, fsize: nat): (r: Item)
    ensures r.Got? ==> 0 < r.len <= |s|
    ensures r.Stop? ==> r.code == 0 || r.code == 416
  {
    hide Lws, Checked;
    var b := Uint(s);
    var k := b.len + Lws(s[b.len..]);
    if !Starts(s[k..], "-") then Stop(0)
    else
      var m := k + 1 + Lws(s[k + 1..]);
      EndOfLen(s[m..], b.value, m, fsize);
      EndOf(s[m..], b.value, m, fsize)
  }

  lemma EndOfLen(t: string, beg: nat, m: nat, fsize: nat)
    requires m > 0
    ensures var r := EndOf(t, beg, m, fsize); (r.Got? ==> 0 < r.len <= m + |t|) && (r.Stop? ==> r.code == 0 || r.code == 416)
  {
  }

  datatype Ranges = Code(code: nat) | All(list: seq<Bytes>)

  /** Ranges before others. */
  function Before(list: seq<Bytes>, r: Ranges): Ranges {
    match r
    case Code(c) => Code(c)
    case All(more) => All(list + more)
  }

  /** The ranges of the rest of a header, when count have come before. */
  function RangesAt(s: string, fsize: nat, max: nat, count: nat): (r: Ranges)
    ensures r.Code? ==> r.code == 0 || r.code == 416
    decreases |s|
  {
    hide *;
    if s == [] then All([])
    else
      match ItemAt(s, fsize)
      case Stop(code) => Code(code)
      case Got(b, n) =>
        var rest := After(s, n);
        if rest != [] && max <= count + 1 then Code(0)
        else Before([b], RangesAt(rest, fsize, max, count + 1))
  }

  /** The text behind a range of n bytes and the blanks and commas after it. */
  function After(s: string, n: nat): (rest: string)
    requires 0 < n <= |s|
    ensures |rest| < |s|
  {
    s[n + Blanks(s[n..])..]
  }

  /** The whole header. */
  function Header(s: string, fsize: nat, max: nat): Ranges {
    if !Starts(s, "bytes") then Code(0)
    else
      var k := 5 + Lws(s[5..]);
      if !Starts(s[k..], "=") then Code(0)
      else RangesAt(s[k + 1 + Blanks(s[k + 1..])..], fsize, max, 0)
  }

  // ---------------------------------------------------------------- what is accepted

  ghost predicate Inside(list: seq<Bytes>, fsize: nat) {
    forall i :: 0 <= i < |list| ==> list[i].beg <= list[i].end < fsize
  }

  lemma RangesStep(s: string, fsize: nat, max: nat, count: nat)
    requires s != []
    ensures match ItemAt(s, fsize)
      case Stop(code) => RangesAt(s, fsize, max, count) == Code(code)
      case Got(b, n) =>
        n <= |s| &&
        var rest := s[n + Blanks(s[n..])..];
        && |rest| < |s|
        && RangesAt(s, fsize, max, count) ==
          if rest != [] && max <= count + 1 then Code(0)
          else Before([b], RangesAt(rest, fsize, max, count + 1))
  {
    hide ItemAt, Blanks;
  }

  lemma RangesNone(fsize: nat, max: nat, count: nat)
    ensures RangesAt([], fsize, max, count) == All([])
  {
  }

  lemma ItemInside(s: string, fsize: nat)
    requires fsize < UINTMAX && ItemAt(s, fsize).Got?
    ensures var b := ItemAt(s, fsize).bytes; b.beg <= b.end < fsize && b.end - b.beg + 1 < fsize
  {
    hide Starts, Lws, Uint, EndOf, Suffix;
    if Starts(s, "-") {
      var k := 1 + Lws(s[1..]);
      var n := Uint(s[k..]);
      SuffixInside(n.value, fsize, k + n.len);
    } else {
      var b := Uint(s);
      var k := b.len + Lws(s[b.len..]);
      ItemIsFrom(s, fsize, k);
      var m := k + 1 + Lws(s[k + 1..]);
      EndInside(s[m..], b.value, m, fsize);
    }
  }

  lemma SuffixInside(n: nat, fsize: nat, len: nat)
    ensures var r := Suffix(n, fsize, len); r.Got? ==> r.bytes.beg <= r.bytes.end < fsize && r.bytes.end - r.bytes.beg + 1 < fsize
  {
  }

  lemma EndInside(t: string, beg: nat, m: nat, fsize: nat)
    requires fsize < UINTMAX
    ensures var r := EndOf(t, beg, m, fsize); r.Got? ==> r.bytes.beg <= r.bytes.end < fsize && r.bytes.end - r.bytes.beg + 1 < fsize
  {
    hide Starts, Uint;
  }

  /** Accepted ranges are not empty, are inside the file, are not the whole file, and are no more than
    allowed; the first one is always allowed. */
  lemma {:induction false} RangesInside(s: string, fsize: nat, max: nat, count: nat)
    requires fsize < UINTMAX
    ensures var r := RangesAt(s, fsize, max, count);
      r.All? ==>
        && Inside(r.list, fsize)
        && (forall i :: 0 <= i < |r.list| ==> r.list[i].end - r.list[i].beg + 1 < fsize)
        && (|r.list| + count <= (if max > count + 1 then max else count + 1))
        && (r.list == [] <==> s == [])
    decreases |s|
  {
    hide ItemAt, Blanks, RangesAt;
    if s == [] {
      RangesNone(fsize, max, count);
    } else {
      RangesStep(s, fsize, max, count);
      if ItemAt(s, fsize).Got? {
        ItemInside(s, fsize);
        var n := ItemAt(s, fsize).len;
        RangesInside(s[n + Blanks(s[n..])..], fsize, max, count + 1);
      }
    }
  }

  lemma HeaderInside(s: string, fsize: nat, max: nat)
    requires fsize < UINTMAX
    ensures var r := Header(s, fsize, max);
      r.All? ==> Inside(r.list, fsize) && |r.list| <= (if max > 1 then max else 1)
  {
    hide RangesAt;
    if Header(s, fsize, max).All? {
      var k := 5 + Lws(s[5..]);
      RangesInside(s[k + 1 + Blanks(s[k + 1..])..], fsize, max, 0);
    }
  }

  // ---------------------------------------------------------------- what a header means

  /** The three forms of section 14.35.1 of RFC 2616; of numbers, or of texts. */
  datatype Spec<T> = Between(a: T, b: T) | From(a: T) | Last(n: T)

  predicate IsSpec(spec: Spec<string>) {
    match spec
    case Between(a, b) => IsNum(a) && IsNum(b)
    case From(a) => IsNum(a)
    case Last(n) => IsNum(n)
  }

  function Meant(spec: Spec<string>): Spec<nat> {
    match spec
    case Between(a, b) => Between(Decimal(a), Decimal(b))
    case From(a) => From(Decimal(a))
    case Last(n) => Last(Decimal(n))
  }

  /** The bytes a range means, section 14.35.1 of RFC 2616; no code, or the code of the whole header. */
  function Resolve(spec: Spec<nat>, fsize: nat): Ranges {
    match spec
    case Last(n) =>
      if n == 0 then Code(416)
      else if n >= fsize then Code(0)
      else All([Bytes(fsize - n, fsize - 1)])
    case From(a) => ResolveFrom(a, fsize - 1, fsize)
    case Between(a, b) => ResolveFrom(a, if b < fsize then b else fsize - 1, fsize)
  }

  function ResolveFrom(beg: nat, end: int, fsize: nat): Ranges {
    if beg >= fsize || beg > end then Code(416)
    else if beg == 0 && end == fsize - 1 then Code(0)
    else All([Bytes(beg, end)])
  }

  /** The first range that cannot be used, or that is one too many, decides. */
  function ResolveAll(specs: seq<Spec<nat>>, fsize: nat, max: nat, count: nat): Ranges {
    if specs == [] then All([])
    else
      match Resolve(specs[0], fsize)
      case Code(c) => Code(c)
      case All(one) =>
        if |specs| > 1 && max <= count + 1 then Code(0)
        else Before(one, ResolveAll(specs[1..], fsize, max, count + 1))
  }

  /** Numbers wrap round in the type that holds them. */
  function Wrapped(spec: Spec<nat>): Spec<nat> {
    match spec
    case Between(a, b) => Between(a % UINTMAX, b % UINTMAX)
    case From(a) => From(a % UINTMAX)
    case Last(n) => Last(n % UINTMAX)
  }

  /** The numbers of a range fit their type, or what they wrap round to means the same in the file. */
  predicate Fits(spec: Spec<nat>, fsize: nat) {
    match spec
    case Last(n) => n < UINTMAX || (n % UINTMAX > 0 && n % UINTMAX >= fsize)
    case From(a) => a < UINTMAX || a % UINTMAX >= fsize
    case Between(a, b) =>
      if a >= UINTMAX then a % UINTMAX >= fsize || a % UINTMAX > b % UINTMAX
      else b < UINTMAX || a >= fsize || b % UINTMAX >= fsize - 1
  }

  /** A number too big for its type changes what is asked exactly when what it wraps round to is small. */
  lemma WrapMeans(spec: Spec<nat>, fsize: nat)
    requires fsize < UINTMAX
    ensures Resolve(Wrapped(spec), fsize) == Resolve(spec, fsize) <==> Fits(spec, fsize)
  {
    match spec
    case Last(n) => Small(n);
    case From(a) => Small(a);
    case Between(a, b) => Small(a); Small(b);
  }

  lemma Small(n: nat)
    ensures n % UINTMAX < UINTMAX && (n < UINTMAX ==> n % UINTMAX == n)
  {
  }

  /** Whitespace, and more of it behind each of some commas. */
  datatype Gap = Gap(first: string, more: seq<string>)

  function GapText(g: Gap): string {
    g.first + CommasText(g.more)
  }

  function CommasText(more: seq<string>): string {
    if more == [] then [] else "," + (more[0] + CommasText(more[1..]))
  }

  predicate AllFolded(more: seq<string>) {
    forall i :: 0 <= i < |more| ==> Folded(more[i])
  }

  predicate IsGap(g: Gap) {
    Folded(g.first) && AllFolded(g.more)
  }

  /** A range as it is written, whitespace between its tokens and whitespace and commas after it. */
  datatype Piece = Piece(spec: Spec<string>, left: string, right: string, gap: Gap)

  function Written(p: Piece): string {
    match p.spec
    case Between(a, b) => a + (p.left + ("-" + (p.right + b)))
    case From(a) => a + (p.left + "-")
    case Last(n) => "-" + (p.right + n)
  }

  predicate IsPiece(p: Piece) {
    IsSpec(p.spec) && Folded(p.left) && Folded(p.right) && IsGap(p.gap)
  }

  function WrittenAll(ps: seq<Piece>): string {
    if ps == [] then [] else Written(ps[0]) + (GapText(ps[0].gap) + WrittenAll(ps[1..]))
  }

  /** There is a comma between two ranges. */
  ghost predicate IsList(ps: seq<Piece>) {
    && (forall i :: 0 <= i < |ps| ==> IsPiece(ps[i]))
    && (forall i :: 0 <= i < |ps| - 1 ==> ps[i].gap.more != [])
  }

  function MeantAll(ps: seq<Piece>): seq<Spec<nat>> {
    if ps == [] then [] else [Meant(ps[0].spec)] + MeantAll(ps[1..])
  }

  function WrappedAll(specs: seq<Spec<nat>>): seq<Spec<nat>> {
    if specs == [] then [] else [Wrapped(specs[0])] + WrappedAll(specs[1..])
  }

  // ---------------------------------------------------------------- reading what is written

  /** What follows a gap: nothing, or something that is neither whitespace nor a comma. */
  predicate Next(s: string) {
    Solid(s) && (s != [] ==> s[0] != ',')
  }

  predicate NoDigit(s: string) {
    s == [] || s[0] !in DIGITS
  }

  lemma DigitIsSolid(c: char)
    ensures c in DIGITS ==> c !in LWS && c != '\r' && c != '-' && c != ','
    ensures c in LWS || c == '\r' ==> c !in DIGITS && c != '-' && c != ','
  {
  }

  /** Folded whitespace begins with a blank or a line end. */
  lemma FoldedBegins(sp: string)
    requires Folded(sp) && sp != []
    ensures sp[0] in LWS || sp[0] == '\r'
  {
    FoldedStart(sp);
  }

  /** A number is read as far as it goes. */
  lemma NumRead(t: string, rest: string)
    requires IsNum(t) && NoDigit(rest)
    ensures Uint(t + rest) == Parsed(Decimal(t) % UINTMAX, |t|) && (t + rest)[|t|..] == rest
    ensures Solid(t + rest) && t != [] && t + rest != [] && (t + rest)[0] in DIGITS
  {
    hide Parse, Decimal;
    var s := t + rest;
    DigitIsSolid(s[0]);
    SpanIs(s, DIGITS, |t|);
    DecimalParsed(s, UINTMAX);
    assert s[..|t|] == t;
  }

  /** The whitespace of a gap before its first comma. */
  lemma GapLeads(g: Gap, tail: string)
    requires IsGap(g) && Next(tail)
    ensures var n, rest := |g.first|, CommasText(g.more) + tail;
      && Lws(GapText(g) + tail) == n && n <= |GapText(g) + tail| && (GapText(g) + tail)[n..] == rest && Solid(rest)
  {
    hide Lws, CommasText, Next, Solid;
    var rest := CommasText(g.more) + tail;
    assert GapText(g) + tail == g.first + rest;
    GapSolid(g.more, tail);
    FoldedLws(g.first, rest);
  }

  lemma GapSolid(more: seq<string>, tail: string)
    requires Next(tail)
    ensures Solid(CommasText(more) + tail)
  {
    if more == [] && tail != [] {
      DigitIsSolid(tail[0]);
    }
    DigitIsSolid(',');
  }

  lemma {:induction false} CommasSkipped(more: seq<string>, tail: string)
    requires AllFolded(more) && Next(tail)
    ensures Commas(CommasText(more) + tail) == |CommasText(more)|
    decreases |more|
  {
    hide Lws, Commas, Next, Starts, Solid, Folded;
    var s := CommasText(more) + tail;
    StartsIs(s, ',');
    CommasStep(s);
    if more == [] {
      NextIsNoComma(tail);
    } else {
      var rest := CommasText(more[1..]) + tail;
      assert s == "," + (more[0] + rest);
      assert s[1..] == more[0] + rest;
      GapSolid(more[1..], tail);
      FoldedLws(more[0], rest);
      assert s[1 + |more[0]|..] == rest;
      CommasSkipped(more[1..], tail);
    }
  }

  lemma CommasStep(s: string)
    ensures Starts(s, ",") ==> s != [] && var n := 1 + Lws(s[1..]); Commas(s) == n + Commas(s[n..])
    ensures !Starts(s, ",") ==> Commas(s) == 0
  {
    hide Lws;
  }

  lemma NextIsNoComma(tail: string)
    requires Next(tail)
    ensures [] + tail == tail && tail != [] ==> tail[0] != ','
  {
    if tail != [] {
      DigitIsSolid(tail[0]);
    }
  }

  /** Whitespace and commas are skipped up to the next range. */
  lemma GapSkipped(g: Gap, tail: string)
    requires IsGap(g) && Next(tail)
    ensures Blanks(GapText(g) + tail) == |GapText(g)| && (GapText(g) + tail)[|GapText(g)|..] == tail
  {
    hide Lws, Commas, Next, Solid, CommasText, Folded;
    GapLeads(g, tail);
    CommasSkipped(g.more, tail);
    assert |GapText(g)| == |g.first| + |CommasText(g.more)|;
  }

  /** What comes behind a range that is written. */
  ghost predicate Behind(gap: Gap, tail: string) {
    IsGap(gap) && Next(tail) && (tail != [] ==> gap.more != [])
  }

  lemma BehindNoDigit(gap: Gap, tail: string)
    requires Behind(gap, tail)
    ensures NoDigit(GapText(gap) + tail)
  {
    hide Folded;
    DigitIsSolid(',');
    if gap.first != [] {
      FoldedBegins(gap.first);
      DigitIsSolid(gap.first[0]);
      assert (GapText(gap) + tail)[0] == gap.first[0];
    } else if gap.more != [] {
      assert (GapText(gap) + tail)[0] == ',';
    }
  }

  lemma BlankNoDigit(sp: string, rest: string)
    requires Folded(sp)
    ensures NoDigit(sp + ("-" + rest)) && Solid("-" + rest)
  {
    hide Folded;
    if sp != [] {
      FoldedBegins(sp);
      DigitIsSolid(sp[0]);
    }
    assert (sp + ("-" + rest))[0] == if sp == [] then '-' else sp[0];
  }

  /** A range at the start of s is read as what it means, and the text goes on behind it and its gap. */
  ghost predicate ReadAs(s: string, spec: Spec<nat>, tail: string, fsize: nat) {
    && s != []
    && var r := ItemAt(s, fsize);
       match Resolve(spec, fsize)
       case Code(c) => r == Stop(c)
       case All(one) => r.Got? && r.len <= |s| && one == [r.bytes] && s[r.len + Blanks(s[r.len..])..] == tail
  }

  lemma ItemIsLast(s: string, fsize: nat, k: nat)
    requires Starts(s, "-") && k == 1 + Lws(s[1..]) && Uint(s[k..]).len > 0
    ensures ItemAt(s, fsize) == Suffix(Uint(s[k..]).value, fsize, k + Uint(s[k..]).len)
  {
    hide Lws, Suffix, Uint;
  }

  lemma ItemIsFrom(s: string, fsize: nat, k: nat)
    requires !Starts(s, "-") && k <= |s|
    requires k == Uint(s).len + Lws(s[Uint(s).len..]) && Starts(s[k..], "-")
    ensures k + 1 <= |s|
    ensures var m := k + 1 + Lws(s[k + 1..]); ItemAt(s, fsize) == EndOf(s[m..], Uint(s).value, m, fsize)
  {
    hide Lws, EndOf, Uint;
  }

  lemma LastWritten(n: string, sp: string, gap: Gap, tail: string, fsize: nat)
    requires IsNum(n) && Folded(sp) && Behind(gap, tail) && fsize < UINTMAX
    ensures ReadAs(("-" + (sp + n)) + (GapText(gap) + tail), Last(Decimal(n) % UINTMAX), tail, fsize)
  {
    hide Lws, Starts, Folded, Solid, NoDigit, ItemAt, Blanks, Behind, Uint, IsNum, IsGap, GapText, Next, Decimal;
    var rest := GapText(gap) + tail;
    var s := ("-" + (sp + n)) + rest;
    var k := 1 + |sp|;
    BehindNoDigit(gap, tail);
    NumRead(n, rest);
    FoldedLws(sp, n + rest);
    assert s[1..] == sp + (n + rest) && s[k..] == n + rest && s[k + |n|..] == rest;
    StartsIs(s, '-');
    ItemIsLast(s, fsize, k);
    BehindGap(gap, tail);
    GapSkipped(gap, tail);
    assert s[k + |n| + |GapText(gap)|..] == tail;
  }

  lemma BehindGap(gap: Gap, tail: string)
    requires Behind(gap, tail)
    ensures IsGap(gap) && Next(tail) && (tail != [] ==> gap.more != [])
  {
  }

  /** A text in which a number and a dash have been read. */
  ghost predicate Dashed(s: string, value: nat, k: nat, rest: string) {
    && s != [] && !Starts(s, "-") && Uint(s).value == value && Uint(s).len <= k < |s|
    && k == Uint(s).len + Lws(s[Uint(s).len..]) && Starts(s[k..], "-") && s[k + 1..] == rest
  }

  /** The start of a range with a first byte: its number and the dash. */
  lemma DashWritten(s: string, a: string, sp: string, rest: string)
    requires IsNum(a) && Folded(sp) && s == a + (sp + ("-" + rest))
    ensures Dashed(s, Decimal(a) % UINTMAX, |a| + |sp|, rest)
  {
    hide Lws, Starts, Folded, Solid, NoDigit, Uint, IsNum, Decimal;
    var dash := "-" + rest;
    BlankNoDigit(sp, rest);
    NumRead(a, sp + dash);
    FoldedLws(sp, dash);
    DigitIsSolid(s[0]);
    StartsIs(s, '-');
    StartsIs(dash, '-');
    assert s[|a| + |sp|..] == dash && s[|a| + |sp| + 1..] == rest;
  }

  /** Checking a range is resolving it. */
  lemma CheckedResolves(beg: nat, b: nat, fsize: nat, len: nat)
    requires fsize < UINTMAX
    ensures match ResolveFrom(beg, if b < fsize then b else fsize - 1, fsize)
      case Code(c) => Checked(beg, b, fsize, len) == Stop(c)
      case All(one) => Checked(beg, b, fsize, len).Got? && one == [Checked(beg, b, fsize, len).bytes]
    ensures Checked(beg, b, fsize, len).Got? ==> Checked(beg, b, fsize, len).len == len
  {
  }

  lemma FromRead(s: string, value: nat, k: nat, gap: Gap, tail: string, fsize: nat)
    requires Dashed(s, value, k, GapText(gap) + tail) && Behind(gap, tail) && fsize < UINTMAX
    ensures ReadAs(s, From(value), tail, fsize)
  {
    hide Lws, Starts, Folded, Solid, ItemAt, Blanks, Behind, Uint, IsGap, GapText, CommasText, Next, Checked;
    BehindGap(gap, tail);
    GapLeads(gap, tail);
    var n := |gap.first|;
    var m := k + 1 + n;
    var rest := CommasText(gap.more) + tail;
    assert s[m..] == rest by {
      assert s[m..] == s[k + 1..][n..];
    }
    ItemIsFrom(s, fsize, k);
    CommasFirst(gap.more, tail);
    StartsIs(rest, ',');
    CheckedResolves(value, UINTMAX, fsize, m);
    MoreSkipped(gap, tail);
    assert rest[|CommasText(gap.more)|..] == tail;
  }

  lemma CommasFirst(more: seq<string>, tail: string)
    requires Next(tail)
    ensures var rest := CommasText(more) + tail; more != [] ==> rest != [] && rest[0] == ','
    ensures more == [] ==> CommasText(more) + tail == tail && (tail != [] ==> tail[0] != ',')
  {
    if tail != [] {
      DigitIsSolid(tail[0]);
    }
  }

  /** What is left of a gap when its first whitespace has been skipped. */
  lemma MoreSkipped(gap: Gap, tail: string)
    requires IsGap(gap) && Next(tail)
    ensures Blanks(CommasText(gap.more) + tail) == |CommasText(gap.more)|
  {
    hide Lws, Commas, Next, Solid, CommasText, Folded;
    var rest := CommasText(gap.more) + tail;
    GapSolid(gap.more, tail);
    NothingFolded();
    FoldedLws([], rest);
    assert [] + rest == rest && rest[0..] == rest;
    CommasSkipped(gap.more, tail);
  }

  lemma NothingFolded()
    ensures Folded([])
  {
  }

  lemma FromWritten(a: string, sp: string, gap: Gap, tail: string, fsize: nat)
    requires IsNum(a) && Folded(sp) && Behind(gap, tail) && fsize < UINTMAX
    ensures ReadAs((a + (sp + "-")) + (GapText(gap) + tail), From(Decimal(a) % UINTMAX), tail, fsize)
  {
    hide Folded, Behind, IsNum, Decimal, ReadAs, Dashed;
    var s := (a + (sp + "-")) + (GapText(gap) + tail);
    assert s == a + (sp + ("-" + (GapText(gap) + tail)));
    DashWritten(s, a, sp, GapText(gap) + tail);
    FromRead(s, Decimal(a) % UINTMAX, |a| + |sp|, gap, tail, fsize);
  }

  lemma BetweenRead(s: string, value: nat, k: nat, sp: string, b: string, gap: Gap, tail: string, fsize: nat)
    requires Dashed(s, value, k, sp + (b + (GapText(gap) + tail)))
    requires IsNum(b) && Folded(sp) && Behind(gap, tail) && fsize < UINTMAX
    ensures ReadAs(s, Between(value, Decimal(b) % UINTMAX), tail, fsize)
  {
    hide Lws, Starts, Folded, Solid, NoDigit, ItemAt, Blanks, Behind, Uint, IsNum, IsGap, GapText, Next, Decimal, Checked;
    var rest := GapText(gap) + tail;
    var text := b + rest;
    BehindGap(gap, tail);
    BehindNoDigit(gap, tail);
    NumRead(b, rest);
    FoldedLws(sp, text);
    var m := k + 1 + |sp|;
    assert s[m..] == text by {
      assert s[m..] == s[k + 1..][|sp|..];
    }
    assert s[m + |b|..] == rest by {
      assert s[m + |b|..] == text[|b|..];
    }
    ItemIsFrom(s, fsize, k);
    DigitIsSolid(text[0]);
    StartsIs(text, ',');
    CheckedResolves(value, Decimal(b) % UINTMAX, fsize, m + |b|);
    GapSkipped(gap, tail);
  }

  lemma BetweenWritten(a: string, sp: string, sp': string, b: string, gap: Gap, tail: string, fsize: nat)
    requires IsNum(a) && IsNum(b) && Folded(sp) && Folded(sp') && Behind(gap, tail) && fsize < UINTMAX
    ensures ReadAs((a + (sp + ("-" + (sp' + b)))) + (GapText(gap) + tail), Between(Decimal(a) % UINTMAX, Decimal(b) % UINTMAX), tail, fsize)
  {
    hide Folded, Behind, IsNum, Decimal, ReadAs, Dashed;
    var s := (a + (sp + ("-" + (sp' + b)))) + (GapText(gap) + tail);
    var rest := sp' + (b + (GapText(gap) + tail));
    assert s == a + (sp + ("-" + rest));
    DashWritten(s, a, sp, rest);
    BetweenRead(s, Decimal(a) % UINTMAX, |a| + |sp|, sp', b, gap, tail, fsize);
  }

  /** A written range is read as what its numbers wrap round to. */
  lemma ItemWritten(p: Piece, tail: string, fsize: nat)
    requires IsPiece(p) && Behind(p.gap, tail) && fsize < UINTMAX
    ensures ReadAs(Written(p) + (GapText(p.gap) + tail), Wrapped(Meant(p.spec)), tail, fsize)
  {
    hide ReadAs, Behind, Decimal;
    match p.spec
    case Last(n) => LastWritten(n, p.right, p.gap, tail, fsize);
    case From(a) => FromWritten(a, p.left, p.gap, tail, fsize);
    case Between(a, b) => BetweenWritten(a, p.left, p.right, b, p.gap, tail, fsize);
  }

  lemma ListRest(ps: seq<Piece>)
    requires IsList(ps) && ps != []
    ensures IsPiece(ps[0]) && IsList(ps[1..]) && (|ps| > 1 ==> ps[0].gap.more != [])
  {
  }

  /** Ranges begin with a digit or a dash. */
  lemma WrittenNext(ps: seq<Piece>)
    requires IsList(ps)
    ensures Next(WrittenAll(ps)) && (WrittenAll(ps) == [] <==> ps == [])
  {
    if ps != [] {
      var w := Written(ps[0]);
      assert IsPiece(ps[0]);
      assert w != [] && WrittenAll(ps)[0] == w[0];
      DigitIsSolid(w[0]);
      DigitIsSolid('-');
    }
  }

  /** A header of written ranges is read as what the ranges mean, one after the other. */
  lemma {:induction false} RangesWritten(ps: seq<Piece>, fsize: nat, max: nat, count: nat)
    requires IsList(ps) && fsize < UINTMAX
    ensures RangesAt(WrittenAll(ps), fsize, max, count) == ResolveAll(WrappedAll(MeantAll(ps)), fsize, max, count)
    decreases |ps|
  {
    hide RangesAt, IsList, Before, Resolve, ItemAt, Blanks, Written, Wrapped, Meant, IsPiece, Next;
    if ps == [] {
      RangesNone(fsize, max, count);
    } else {
      ListRest(ps);
      WrittenNext(ps[1..]);
      var tail := WrittenAll(ps[1..]);
      assert Behind(ps[0].gap, tail) by { PieceGap(ps[0]); }
      ItemWritten(ps[0], tail, fsize);
      RangesStep(WrittenAll(ps), fsize, max, count);
      RangesWritten(ps[1..], fsize, max, count + 1);
      MeantSizes(ps[1..]);
      var specs := WrappedAll(MeantAll(ps));
      assert specs[0] == Wrapped(Meant(ps[0].spec)) && specs[1..] == WrappedAll(MeantAll(ps[1..]));
    }
  }

  lemma PieceGap(p: Piece)
    requires IsPiece(p)
    ensures IsGap(p.gap)
  {
  }

  lemma {:induction false} MeantSizes(ps: seq<Piece>)
    requires IsList(ps)
    ensures |WrappedAll(MeantAll(ps))| == |MeantAll(ps)| == |ps|
  {
    hide IsList, Meant, Wrapped;
    if ps != [] {
      ListRest(ps);
      MeantSizes(ps[1..]);
      assert MeantAll(ps)[1..] == MeantAll(ps[1..]);
    }
  }

  /** A whole header: blanks where they may be, and blanks and commas before the first range. */
  function HeaderText(sp: string, lead: Gap, ps: seq<Piece>): string {
    "bytes" + (sp + ("=" + (GapText(lead) + WrittenAll(ps))))
  }

  lemma HeaderReads(sp: string, lead: Gap, ps: seq<Piece>, fsize: nat, max: nat)
    requires Folded(sp) && IsGap(lead) && IsList(ps)
    ensures Header(HeaderText(sp, lead, ps), fsize, max) == RangesAt(WrittenAll(ps), fsize, max, 0)
  {
    hide Header, RangesAt, WrittenAll, Folded, IsList, IsGap, GapText, Next;
    WrittenNext(ps);
    HeaderBegins(sp, lead, WrittenAll(ps), fsize, max);
  }

  lemma HeaderBegins(sp: string, lead: Gap, text: string, fsize: nat, max: nat)
    requires Folded(sp) && IsGap(lead) && Next(text)
    ensures Header("bytes" + (sp + ("=" + (GapText(lead) + text))), fsize, max) == RangesAt(text, fsize, max, 0)
  {
    hide Lws, RangesAt, Starts, Folded, Blanks, IsGap, GapText, Next;
    var eq := "=" + (GapText(lead) + text);
    var s := "bytes" + (sp + eq);
    BytesStarts(sp + eq);
    EqSolid(GapText(lead) + text);
    FoldedLws(sp, eq);
    StartsIs(eq, '=');
    GapSkipped(lead, text);
    var k := 5 + |sp|;
    assert s[5..] == sp + eq && s[k..] == eq && s[k + 1..] == GapText(lead) + text && s[k + 1 + |GapText(lead)|..] == text;
  }

  lemma EqSolid(rest: string)
    ensures Solid("=" + rest)
  {
  }

  lemma BytesStarts(rest: string)
    ensures Starts("bytes" + rest, "bytes")
  {
    assert ("bytes" + rest)[..5] == "bytes";
  }

  /** What a client asks for is what is recorded, or the code it deserves, as far as its numbers fit. */
  lemma HeaderWritten(sp: string, lead: Gap, ps: seq<Piece>, fsize: nat, max: nat)
    requires Folded(sp) && IsGap(lead) && IsList(ps) && fsize < UINTMAX
    ensures var r := Header(HeaderText(sp, lead, ps), fsize, max);
      && r == ResolveAll(WrappedAll(MeantAll(ps)), fsize, max, 0)
      && ((forall i :: 0 <= i < |ps| ==> IsPiece(ps[i]) && Fits(Meant(ps[i].spec), fsize)) ==>
            r == ResolveAll(MeantAll(ps), fsize, max, 0))
      && (|ps| == 1 ==> (r == ResolveAll(MeantAll(ps), fsize, max, 0) <==> IsPiece(ps[0]) && Fits(Meant(ps[0].spec), fsize)))
  {
    hide Resolve, Header, IsGap, Folded, IsPiece, RangesAt, HeaderText, WrittenAll, Fits, Meant, Wrapped, Before;
    HeaderReads(sp, lead, ps, fsize, max);
    RangesWritten(ps, fsize, max, 0);
    if forall i :: 0 <= i < |ps| ==> IsPiece(ps[i]) && Fits(Meant(ps[i].spec), fsize) {
      AllFit(ps, fsize, max, 0);
    }
    if |ps| == 1 {
      OneFits(ps, fsize, max);
    }
  }

  lemma {:induction false} AllFit(ps: seq<Piece>, fsize: nat, max: nat, count: nat)
    requires IsList(ps) && fsize < UINTMAX
    requires forall i :: 0 <= i < |ps| ==> IsPiece(ps[i]) && Fits(Meant(ps[i].spec), fsize)
    ensures ResolveAll(WrappedAll(MeantAll(ps)), fsize, max, count) == ResolveAll(MeantAll(ps), fsize, max, count)
    decreases |ps|
  {
    hide Resolve, IsPiece, Fits, Meant, Wrapped, Before, IsList;
    if ps != [] {
      ListRest(ps);
      WrapMeans(Meant(ps[0].spec), fsize);
      MeantSizes(ps);
      AllFit(ps[1..], fsize, max, count + 1);
      assert MeantAll(ps)[1..] == MeantAll(ps[1..]);
      assert WrappedAll(MeantAll(ps))[1..] == WrappedAll(MeantAll(ps[1..]));
    }
  }

  lemma OneFits(ps: seq<Piece>, fsize: nat, max: nat)
    requires IsList(ps) && fsize < UINTMAX && |ps| == 1
    ensures IsPiece(ps[0])
    ensures ResolveAll(WrappedAll(MeantAll(ps)), fsize, max, 0) == ResolveAll(MeantAll(ps), fsize, max, 0) <==>
              Fits(Meant(ps[0].spec), fsize)
  {
    hide IsPiece, Fits, Meant, Wrapped;
    assert ps[1..] == [];
    var spec := Meant(ps[0].spec);
    assert MeantAll(ps) == [spec] && WrappedAll([spec]) == [Wrapped(spec)];
    WrapMeans(spec, fsize);
    OneResolves(spec, fsize, max);
    OneResolves(Wrapped(spec), fsize, max);
  }

  lemma OneResolves(spec: Spec<nat>, fsize: nat, max: nat)
    ensures ResolveAll([spec], fsize, max, 0) == Resolve(spec, fsize)
  {
    assert [spec][1..] == [];
    assert Resolve(spec, fsize).All? ==> Resolve(spec, fsize).list + [] == Resolve(spec, fsize).list;
  }

  /** Asked for more bytes at the end than a number can hold, the code serves one instead of all of them. */
  lemma WrapServesLess()
    ensures var ps := [Piece(Last(Numeral(UINTMAX + 1)), "", "", Gap("", []))];
      && IsList(ps) && Header(HeaderText("", Gap("", []), ps), 100, 1) == All([Bytes(99, 99)])
      && ResolveAll(MeantAll(ps), 100, 1, 0) == Code(0)
  {
    hide Header, HeaderText, Numeral, Decimal;
    var n := UINTMAX + 1;
    var p := Piece(Last(Numeral(n)), "", "", Gap("", []));
    var ps := [p];
    NumeralMeans(n);
    assert IsPiece(p) && Meant(p.spec) == Last(n);
    HeaderWritten("", Gap("", []), ps, 100, 1);
    assert ps[1..] == [];
    assert MeantAll(ps) == [Last(n)];
    assert WrappedAll([Last(n)]) == [Last(1)];
    OneResolves(Last(n), 100, 1);
    OneResolves(Last(1), 100, 1);
  }

  /** A header with no range is taken, and asks for nothing. */
  lemma NothingAsked(fsize: nat, max: nat)
    ensures Header("bytes=", fsize, max) == All([])
  {
    hide Header, WrittenAll, RangesAt;
    WrittenNext([]);
    assert HeaderText("", Gap("", []), []) == "bytes=" by {
      assert "bytes" + ("" + ("=" + ("" + ""))) == "bytes=";
    }
    HeaderReads("", Gap("", []), [], fsize, max);
    RangesNone(fsize, max, 0);
  }

  // ---------------------------------------------------------------- what is malformed

  /** Something that is not a range: no dash after the digits there are, no number after a dash at the start, or
    something else after a number and a dash. */
  datatype Bad =
    | NoDash(digits: string, sp: string, rest: string)
    | NoNumber(sp: string, rest: string)
    | NoEnd(a: string, left: string, right: string, rest: string)

  function BadText(b: Bad): string {
    match b
    case NoDash(digits, sp, rest) => digits + (sp + rest)
    case NoNumber(sp, rest) => "-" + (sp + rest)
    case NoEnd(a, left, right, rest) => a + (left + ("-" + (right + rest)))
  }

  predicate IsBad(b: Bad) {
    && Next(BadText(b)) && BadText(b) != [] && Solid(b.rest)
    && match b
       case NoDash(digits, sp, rest) =>
         (forall i :: 0 <= i < |digits| ==> digits[i] in DIGITS) && Folded(sp)
         && NoDigit(sp + rest) && (rest != [] ==> rest[0] != '-')
       case NoNumber(sp, rest) => Folded(sp) && NoDigit(rest)
       case NoEnd(a, left, right, rest) =>
         IsNum(a) && Folded(left) && Folded(right) && rest != [] && rest[0] != ',' && NoDigit(rest)
  }

  lemma NoDashStops(digits: string, sp: string, rest: string, fsize: nat)
    requires IsBad(NoDash(digits, sp, rest))
    ensures ItemAt(digits + (sp + rest), fsize) == Stop(0)
  {
    hide ItemAt, Folded, Solid, Next, NoDigit;
    FirstNoDash(digits, sp, rest);
    DigitsRead(digits, sp + rest);
    NoDashFrom(digits, sp, rest, fsize);
  }

  lemma NoDashFrom(digits: string, sp: string, rest: string, fsize: nat)
    requires Folded(sp) && Solid(rest) && (rest != [] ==> rest[0] != '-')
    requires var s := digits + (sp + rest); Uint(s).len == |digits| && (s != [] ==> s[0] != '-')
    ensures ItemAt(digits + (sp + rest), fsize) == Stop(0)
  {
    hide Lws, Starts, Folded, Solid, Uint, ItemAt;
    var s := digits + (sp + rest);
    FoldedLws(sp, rest);
    assert s[|digits|..] == sp + rest;
    assert s[|digits| + |sp|..] == rest;
    StartsIs(rest, '-');
    StartsIs(s, '-');
    ItemIsNone(s, fsize, |digits| + |sp|);
  }

  lemma ItemIsNone(s: string, fsize: nat, k: nat)
    requires !Starts(s, "-") && k <= |s| && k == Uint(s).len + Lws(s[Uint(s).len..]) && !Starts(s[k..], "-")
    ensures ItemAt(s, fsize) == Stop(0)
  {
    hide Lws, EndOf, Uint, Starts;
  }

  lemma FirstNoDash(digits: string, sp: string, rest: string)
    requires IsBad(NoDash(digits, sp, rest))
    ensures (digits + (sp + rest))[0] != '-'
  {
    hide Folded, Solid;
    var s := digits + (sp + rest);
    if digits != [] {
      assert s[0] == digits[0];
      DigitIsSolid(s[0]);
    } else if sp != [] {
      FoldedBegins(sp);
      assert s[0] == sp[0];
      DigitIsSolid(s[0]);
    } else {
      assert s[0] == rest[0];
    }
  }

  lemma DigitsRead(digits: string, rest: string)
    requires (forall i :: 0 <= i < |digits| ==> digits[i] in DIGITS) && NoDigit(rest)
    ensures Uint(digits + rest).len == |digits|
  {
    hide Parse, Decimal;
    var s := digits + rest;
    SpanIs(s, DIGITS, |digits|);
    DecimalParsed(s, UINTMAX);
  }

  lemma NoNumberStops(sp: string, rest: string, fsize: nat)
    requires IsBad(NoNumber(sp, rest))
    ensures ItemAt("-" + (sp + rest), fsize) == Stop(0)
  {
    hide Lws, Starts, Folded, Solid, Uint;
    var s := "-" + (sp + rest);
    StartsIs(s, '-');
    assert s[1..] == sp + rest;
    FoldedLws(sp, rest);
    assert s[1 + |sp|..] == rest;
    DigitsRead([], rest);
    assert [] + rest == rest;
  }

  lemma NoEndStops(a: string, left: string, right: string, rest: string, fsize: nat)
    requires IsBad(NoEnd(a, left, right, rest))
    ensures ItemAt(a + (left + ("-" + (right + rest))), fsize) == Stop(0)
  {
    hide IsBad, Dashed, Decimal, ItemAt, Folded, Solid, NoDigit, IsNum;
    BadEnd(a, left, right, rest);
    var s := a + (left + ("-" + (right + rest)));
    DashWritten(s, a, left, right + rest);
    NoEndFrom(s, Decimal(a) % UINTMAX, |a| + |left|, right, rest, fsize);
  }

  lemma NoEndFrom(s: string, value: nat, k: nat, right: string, rest: string, fsize: nat)
    requires Dashed(s, value, k, right + rest) && Folded(right) && Solid(rest)
    requires rest != [] && rest[0] != ',' && NoDigit(rest)
    ensures ItemAt(s, fsize) == Stop(0)
  {
    hide Lws, Starts, Folded, Solid, NoDigit, ItemAt, Uint, EndOf;
    FoldedLws(right, rest);
    var m := k + 1 + |right|;
    assert s[m..] == rest by {
      assert s[m..] == s[k + 1..][|right|..];
    }
    ItemIsFrom(s, fsize, k);
    EndStops(rest, Uint(s).value, m, fsize);
  }

  lemma BadEnd(a: string, left: string, right: string, rest: string)
    requires IsBad(NoEnd(a, left, right, rest))
    ensures IsNum(a) && Folded(left) && Folded(right) && Solid(rest) && rest != [] && rest[0] != ',' && NoDigit(rest)
  {
  }

  lemma EndStops(t: string, beg: nat, m: nat, fsize: nat)
    requires t != [] && t[0] != ',' && NoDigit(t)
    ensures EndOf(t, beg, m, fsize) == Stop(0)
  {
    hide Starts, Uint, Checked;
    StartsIs(t, ',');
    DigitsRead([], t);
    assert [] + t == t;
  }

  /** What is not a range makes the header be ignored. */
  lemma BadStops(b: Bad, fsize: nat)
    requires IsBad(b)
    ensures ItemAt(BadText(b), fsize) == Stop(0)
  {
    hide ItemAt, IsBad;
    match b
    case NoDash(digits, sp, rest) => NoDashStops(digits, sp, rest, fsize);
    case NoNumber(sp, rest) => NoNumberStops(sp, rest, fsize);
    case NoEnd(a, left, right, rest) => NoEndStops(a, left, right, rest, fsize);
  }

  /** The code of a header that goes wrong behind some ranges: that of the first one that cannot be used, and 0 when
    there is one too many or all of them can be used. */
  function Refusal(specs: seq<Spec<nat>>, fsize: nat, max: nat, count: nat): nat {
    if specs == [] then 0
    else
      match Resolve(specs[0], fsize)
      case Code(c) => c
      case All(one) => if max <= count + 1 then 0 else Refusal(specs[1..], fsize, max, count + 1)
  }

  /** Ranges with a comma behind each of them. */
  ghost predicate IsOpenList(ps: seq<Piece>) {
    forall i :: 0 <= i < |ps| ==> IsPiece(ps[i]) && ps[i].gap.more != []
  }

  lemma OpenListRest(ps: seq<Piece>)
    requires IsOpenList(ps) && ps != []
    ensures IsPiece(ps[0]) && ps[0].gap.more != [] && IsOpenList(ps[1..]) && IsList(ps[1..])
  {
  }

  lemma OpenNext(ps: seq<Piece>, b: Bad)
    requires IsOpenList(ps) && IsBad(b)
    ensures var s := WrittenAll(ps) + BadText(b); Next(s) && s != []
  {
    if ps != [] {
      assert IsPiece(ps[0]);
      var w := Written(ps[0]);
      assert w != [] && (WrittenAll(ps) + BadText(b))[0] == w[0];
      DigitIsSolid(w[0]);
      DigitIsSolid('-');
    } else {
      assert [] + BadText(b) == BadText(b);
    }
  }

  lemma {:induction false} BadRanges(ps: seq<Piece>, b: Bad, fsize: nat, max: nat, count: nat)
    requires IsOpenList(ps) && IsBad(b) && fsize < UINTMAX
    ensures RangesAt(WrittenAll(ps) + BadText(b), fsize, max, count)
         == Code(Refusal(WrappedAll(MeantAll(ps)), fsize, max, count))
    decreases |ps|
  {
    hide RangesAt, IsOpenList, IsList, Resolve, ItemAt, Blanks, Written, Wrapped, Meant, IsPiece, Next, IsBad, BadText, GapText;
    OpenNext(ps, b);
    var s := WrittenAll(ps) + BadText(b);
    RangesStep(s, fsize, max, count);
    if ps == [] {
      assert s == BadText(b);
      BadStops(b, fsize);
    } else {
      OpenListRest(ps);
      OpenNext(ps[1..], b);
      var tail := WrittenAll(ps[1..]) + BadText(b);
      PieceGap(ps[0]);
      assert Behind(ps[0].gap, tail);
      assert s == Written(ps[0]) + (GapText(ps[0].gap) + tail);
      ItemWritten(ps[0], tail, fsize);
      BadRanges(ps[1..], b, fsize, max, count + 1);
      MeantSizes(ps[1..]);
      var specs := WrappedAll(MeantAll(ps));
      assert specs[0] == Wrapped(Meant(ps[0].spec)) && specs[1..] == WrappedAll(MeantAll(ps[1..]));
    }
  }

  /** A header that is not of bytes is ignored; one in which something that is not a range follows some ranges
    gets the code of the first of them that cannot be used, and is ignored when all can. */
  lemma HeaderRefused(sp: string, rest: string, lead: Gap, ps: seq<Piece>, b: Bad, fsize: nat, max: nat)
    requires Folded(sp) && Solid(rest) && IsGap(lead) && IsOpenList(ps) && IsBad(b) && fsize < UINTMAX
    ensures (rest != [] ==> rest[0] != '=') ==> Header("bytes" + (sp + rest), fsize, max) == Code(0)
    ensures !("bytes" <= rest) ==> Header(rest, fsize, max) == Code(0)
    ensures Header("bytes" + (sp + ("=" + (GapText(lead) + (WrittenAll(ps) + BadText(b))))), fsize, max)
         == Code(Refusal(WrappedAll(MeantAll(ps)), fsize, max, 0))
  {
    hide RangesAt, Lws, Folded, IsGap, IsOpenList, IsBad, BadText, GapText, WrittenAll, Refusal, Next, Blanks;
    BytesStarts(sp + rest);
    FoldedLws(sp, rest);
    assert ("bytes" + (sp + rest))[5..] == sp + rest;
    StartsIs(rest, '=');
    var text := WrittenAll(ps) + BadText(b);
    OpenNext(ps, b);
    HeaderBegins(sp, lead, text, fsize, max);
    BadRanges(ps, b, fsize, max, 0);
  }
}
