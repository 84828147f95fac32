/** The parts of a multipart response, as httpd writes them and as a client reads them. */
module HttpParts {
  import opened Vstr
  import opened Number
  import opened HttpSects

  const SEP := "--SEP\r\n"
  const SEP_END := "--SEP--\r\n"

  /** http_app_hdrs_mpbr: what comes before a section of a multipart response; ctype is the header with the
    type of the content, and size is that of the file. */
  function PartHdr(s: FileSect, ctype: string, size: nat): string {
    SEP + (ctype + ("Content-Range: bytes " + (Numeral(s.off) + ("-" +
    (Numeral((s.off + s.len + UINTMAX - 1) % UINTMAX) + ("/" + (Numeral(size) + "\r\n\r\n")))))))
  }

  /** The section is in the file. */
  predicate InFile(s: FileSect, file: string) {
    s.off + s.len <= |file|
  }

  function Content(s: FileSect, file: string): string
    requires InFile(s, file)
  {
    file[s.off..s.off + s.len]
  }

  ghost predicate AllInFile(sects: seq<FileSect>, file: string) {
    forall i :: 0 <= i < |sects| ==> InFile(sects[i], file)
  }

  /** Each section after its header. */
  ghost function Parts(sects: seq<FileSect>, file: string, ctype: string): string
    requires AllInFile(sects, file)
  {
    if sects == [] then []
    else PartHdr(sects[0], ctype, |file|) + Content(sects[0], file) + Parts(sects[1..], file, ctype)
  }

  lemma PartsFirst(sects: seq<FileSect>, file: string, ctype: string)
    requires AllInFile(sects, file) && sects != []
    ensures Parts(sects, file, ctype)
         == PartHdr(sects[0], ctype, |file|) + Content(sects[0], file) + Parts(sects[1..], file, ctype)
  {
  }

  // ---------------------------------------------------------------- the client

  /** What a client learns from a part: its header lines, the place of its first and last bytes, the size of
    the whole, and the bytes. */
  datatype Part = Part(ctype: string, first: nat, last: nat, size: nat, bytes: string)

  datatype Taken<T> = Taken(value: T, rest: string)

  /** What comes after t. */
  function Expect(s: string, t: string): (r: Option<string>)
    ensures r.Some? ==> |r.value| == |s| - |t|
  {
    if t <= s then Some(s[|t|..]) else None
  }

  /** A number and what comes after it. */
  function TakeNum(s: string): (r: Option<Taken<nat>>)
    ensures r.Some? ==> |r.value.rest| < |s|
  {
    var n := Span(s, DIGITS);
    if n == 0 then None else Some(Taken(Decimal(s[..n]), s[n..]))
  }

  /** A number, t and what comes after it. */
  function TakeNumAnd(s: string, t: string): (r: Option<Taken<nat>>)
    ensures r.Some? ==> |r.value.rest| < |s|
  {
    match TakeNum(s)
    case None => None
    case Some(n) =>
      match Expect(n.rest, t)
      case None => None
      case Some(rest) => Some(Taken(n.value, rest))
  }

  /** The line with the type of the content, when there is one. */
  function TakeType(s: string): (r: Taken<string>)
    ensures |r.rest| <= |s|
  {
    var n := CSpan(s, "\n");
    if "Content-Type: " <= s && n < |s| then Taken(s[..n + 1], s[n + 1..]) else Taken([], s)
  }

  function TakeRange(ctype: string, s: string): (r: Option<Taken<Part>>)
    ensures r.Some? ==> |r.value.rest| < |s|
  {
    match TakeNumAnd(s, "-")
    case None => None
    case Some(first) =>
      match TakeNumAnd(first.rest, "/")
      case None => None
      case Some(last) =>
        match TakeNumAnd(last.rest, "\r\n\r\n")
        case None => None
        case Some(size) =>
          var n := last.value + 1 - first.value;
          if 0 <= n <= |size.rest| then
            Some(Taken(Part(ctype, first.value, last.value, size.value, size.rest[..n]), size.rest[n..]))
          else None
  }

  function TakePart(s: string): (r: Option<Taken<Part>>)
    ensures r.Some? ==> |r.value.rest| < |s|
  {
    match Expect(s, "--SEP\r\n")
    case None => None
    case Some(s1) =>
      var ctype := TakeType(s1);
      match Expect(ctype.rest, "Content-Range: bytes ")
      case None => None
      case Some(s2) => TakeRange(ctype.value, s2)
  }

  /** All parts up to the closing separator, with which the response ends. */
  function TakeParts(s: string): Option<seq<Part>>
    decreases |s|
  {
    if s == "--SEP--\r\n" then Some([])
    else
      match TakePart(s)
      case None => None
      case Some(part) =>
        match TakeParts(part.rest)
        case None => None
        case Some(more) => Some([part.value] + more)
  }

  // ---------------------------------------------------------------- what the client reads

  /** The header with the type of the content is one line, or there is none. */
  predicate TypeLine(ctype: string) {
    || ctype == []
    || ("Content-Type: " <= ctype && CSpan(ctype, "\n") == |ctype| - 1)
  }

  /** Some bytes of a file a client can be told about. */
  predicate Told(s: FileSect, file: string) {
    InFile(s, file) && s.len > 0 && |file| < UINTMAX
  }

  /** What a client is to learn about a section. */
  function PartOf(s: FileSect, file: string, ctype: string): Part
    requires Told(s, file)
  {
    Part(ctype, s.off, s.off + s.len - 1, |file|, file[s.off..s.off + s.len])
  }

  lemma Expected(t: string, rest: string)
    ensures Expect(t + rest, t) == Some(rest)
  {
    assert (t + rest)[..|t|] == t;
    assert (t + rest)[|t|..] == rest;
  }

  /** A number is read back up to what follows it. */
  lemma NumTaken(n: nat, t: string, rest: string)
    requires t != [] && t[0] !in DIGITS
    ensures TakeNumAnd(Numeral(n) + (t + rest), t) == Some(Taken(n, rest))
  {
    hide Numeral, Decimal, Span;
    var s := Numeral(n);
    SpanIs(s + (t + rest), DIGITS, |s|);
    assert (s + (t + rest))[..|s|] == s;
    assert (s + (t + rest))[|s|..] == t + rest;
    NumeralMeans(n);
    Expected(t, rest);
  }

  lemma TypeTaken(ctype: string, rest: string)
    requires TypeLine(ctype)
    ensures var s := "Content-Range: bytes " + rest; TakeType(ctype + s) == Taken(ctype, s)
  {
    hide CSpan;
    var s := "Content-Range: bytes " + rest;
    if ctype == [] {
      assert [] + s == s;
      NoType(rest);
    } else {
      var n := |ctype| - 1;
      CSpanIs(ctype + s, "\n", n);
      assert (ctype + s)[..n + 1] == ctype;
      assert (ctype + s)[n + 1..] == s;
      assert (ctype + s)[..14] == ctype[..14];
    }
  }

  lemma NoType(rest: string)
    ensures !("Content-Type: " <= "Content-Range: bytes " + rest)
  {
    assert ("Content-Range: bytes " + rest)[8] == 'R' && "Content-Type: "[8] == 'T';
  }

  lemma RangeTaken(ctype: string, first: nat, last: nat, size: nat, bytes: string, rest: string)
    requires first <= last && |bytes| == last + 1 - first
    ensures TakeRange(ctype, Numeral(first) + ("-" + (Numeral(last) + ("/" + (Numeral(size) + ("\r\n\r\n" + (bytes + rest)))))))
         == Some(Taken(Part(ctype, first, last, size, bytes), rest))
  {
    hide Numeral, TakeNumAnd;
    NoDigits();
    var s3 := Numeral(size) + ("\r\n\r\n" + (bytes + rest));
    var s2 := Numeral(last) + ("/" + s3);
    NumTaken(first, "-", s2);
    NumTaken(last, "/", s3);
    NumTaken(size, "\r\n\r\n", bytes + rest);
    assert (bytes + rest)[..|bytes|] == bytes;
    assert (bytes + rest)[|bytes|..] == rest;
  }

  lemma NoDigits()
    ensures '-' !in DIGITS && '/' !in DIGITS && '\r' !in DIGITS
  {
  }

  /** The last byte of a section that is in the file. */
  lemma LastByte(s: FileSect, file: string)
    requires Told(s, file)
    ensures (s.off + s.len + UINTMAX - 1) % UINTMAX == s.off + s.len - 1
  {
    OneMore(s.off + s.len - 1);
  }

  lemma OneMore(n: nat)
    requires n < UINTMAX
    ensures (n + UINTMAX) % UINTMAX == n
  {
  }

  /** A client reads a part back: the content type, the first and last byte of the section, the size of the
    file, and the bytes of the file between them. */
  lemma PartTaken(s: FileSect, file: string, ctype: string, rest: string)
    requires Told(s, file) && TypeLine(ctype)
    ensures TakePart(PartHdr(s, ctype, |file|) + Content(s, file) + rest) == Some(Taken(PartOf(s, file, ctype), rest))
  {
    hide PartHdr, Numeral, TakeRange, TakePart, TypeLine;
    HdrText(s, ctype, file, rest);
    var last := s.off + s.len - 1;
    HeadTaken(ctype, Numeral(s.off) + ("-" + (Numeral(last) + ("/" + (Numeral(|file|) + ("\r\n\r\n" + (Content(s, file) + rest)))))));
    RangeTaken(ctype, s.off, last, |file|, Content(s, file), rest);
  }

  lemma HeadTaken(ctype: string, range: string)
    requires TypeLine(ctype)
    ensures TakePart("--SEP\r\n" + (ctype + ("Content-Range: bytes " + range))) == TakeRange(ctype, range)
  {
    hide TakeRange, TypeLine, TakeType, Expect;
    Expected("--SEP\r\n", ctype + ("Content-Range: bytes " + range));
    TypeTaken(ctype, range);
    Expected("Content-Range: bytes ", range);
  }

  lemma HdrText(s: FileSect, ctype: string, file: string, rest: string)
    requires Told(s, file)
    ensures PartHdr(s, ctype, |file|) + Content(s, file) + rest
      == "--SEP\r\n" + (ctype + ("Content-Range: bytes " + (Numeral(s.off) + ("-" +
         (Numeral(s.off + s.len - 1) + ("/" + (Numeral(|file|) + ("\r\n\r\n" + (Content(s, file) + rest)))))))))
  {
    hide PartHdr, Numeral, Content;
    HdrIs(s, ctype, file);
    var a, b, c, d := Numeral(s.off), Numeral(s.off + s.len - 1), Numeral(|file|), Content(s, file);
    Regroup("--SEP\r\n", ctype, "Content-Range: bytes ", a, "-", b, "/", c, "\r\n\r\n", d, rest);
  }

  lemma HdrIs(s: FileSect, ctype: string, file: string)
    requires Told(s, file)
    ensures PartHdr(s, ctype, |file|)
      == "--SEP\r\n" + (ctype + ("Content-Range: bytes " + (Numeral(s.off) + ("-" +
         (Numeral(s.off + s.len - 1) + ("/" + (Numeral(|file|) + "\r\n\r\n")))))))
  {
    hide Numeral;
    LastByte(s, file);
  }

  lemma Regroup(a: string, b: string, c: string, d: string, e: string, f: string, g: string, h: string, i: string, x: string, y: string)
    ensures a + (b + (c + (d + (e + (f + (g + (h + i))))))) + x + y
         == a + (b + (c + (d + (e + (f + (g + (h + (i + (x + y)))))))))
  {
    Inner(g, h, i, x, y);
    Inner(d, e, f + (g + (h + i)), x, y);
    Inner(a, b, c + (d + (e + (f + (g + (h + i))))), x, y);
    assert c + (d + (e + (f + (g + (h + i))))) + (x + y) == c + ((d + (e + (f + (g + (h + i))))) + (x + y));
    assert (f + (g + (h + i))) + (x + y) == f + ((g + (h + i)) + (x + y));
  }

  lemma Inner(a: string, b: string, c: string, x: string, y: string)
    ensures (a + (b + c)) + x + y == a + (b + (c + (x + y)))
    ensures (a + (b + c)) + (x + y) == a + (b + (c + (x + y)))
    ensures c + x + y == c + (x + y)
  {
    assert (a + (b + c)) + x + y == a + (b + (c + (x + y)));
    assert (a + (b + c)) + (x + y) == a + (b + (c + (x + y)));
    assert c + x + y == c + (x + y);
  }

  /** No part begins like the closing separator. */
  lemma NotEnd(s: FileSect, ctype: string, file: string, rest: string)
    requires Told(s, file)
    ensures PartHdr(s, ctype, |file|) + Content(s, file) + rest != "--SEP--\r\n"
  {
    HdrText(s, ctype, file, rest);
    hide Numeral, Content;
    var text := PartHdr(s, ctype, |file|) + Content(s, file) + rest;
    assert text[5] == '\r';
  }

  /** What a client is to learn about all sections. */
  ghost function PartsOf(sects: seq<FileSect>, file: string, ctype: string): seq<Part>
    requires forall i :: 0 <= i < |sects| ==> Told(sects[i], file)
  {
    seq(|sects|, i requires 0 <= i < |sects| => PartOf(sects[i], file, ctype))
  }

  /** A client that reads the parts up to the closing separator learns of every section, in order, where it is
    in the file, and gets exactly its bytes. */
  lemma {:induction false} PartsTaken(sects: seq<FileSect>, file: string, ctype: string)
    requires (forall i :: 0 <= i < |sects| ==> Told(sects[i], file)) && TypeLine(ctype)
    ensures AllInFile(sects, file)
    ensures TakeParts(Parts(sects, file, ctype) + SEP_END) == Some(PartsOf(sects, file, ctype))
  {
    hide TakePart, PartHdr, Content, TypeLine, PartOf;
    if sects == [] {
      assert Parts(sects, file, ctype) + SEP_END == "--SEP--\r\n";
    } else {
      var rest := Parts(sects[1..], file, ctype) + SEP_END;
      PartsTaken(sects[1..], file, ctype);
      PartTaken(sects[0], file, ctype, rest);
      NotEnd(sects[0], ctype, file, rest);
      PartsFirst(sects, file, ctype);
      Rest(PartHdr(sects[0], ctype, |file|), Content(sects[0], file), Parts(sects[1..], file, ctype), SEP_END);
      assert PartsOf(sects, file, ctype) == [PartOf(sects[0], file, ctype)] + PartsOf(sects[1..], file, ctype);
    }
  }

  lemma Rest(a: string, b: string, c: string, d: string)
    ensures a + b + c + d == a + b + (c + d)
  {
  }
}
