/** conf_sc_conv_unesc: replaces the escapes in a section of a string, in place. */
module ConfUnescape {
  import opened Vstr
  import opened Number

  /** The number after a backslash; it begins with a zero, and its digits say what its base is. */
  function NumberAt(s: string): (p: Parsed)
    ensures p.len <= |s|
  {
    Parse(s, Flags(0, true, false), USHORT)
  }

  /** The byte an escape stands for, when it stands for one other than itself. */
  function Letter(c: char): char {
    match c
    case 't' => '\t'
    case 'v' => '\U{0b}'
    case 'r' => '\r'
    case 'n' => '\n'
    case 'b' => '\U{08}'
    case _ => c
  }

  /** What an escape becomes, and how much of the text it is. */
  datatype Escaped = Escaped(bytes: string, len: nat)

  /** The escape at the start of s. */
  function FirstEscape(s: string): (e: Escaped)
    requires |s| > 1 && s[0] == '\\'
    ensures 0 < e.len && |e.bytes| <= e.len
  {
    if s[1] == '\n' then Escaped([], 2)
    else if s[1] == '0' then
      var p := NumberAt(s[1..]);
      Escaped([(p.value % 256) as char], 1 + p.len)
    else Escaped([Letter(s[1])], 2)
  }

  /** What a string with escapes means. */
  function Unescape(s: string): (r: string)
    decreases |s|
  {
    if |s| <= 1 then s
    else if s[0] != '\\' then [s[0]] + Unescape(s[1..])
    else
      var e := FirstEscape(s);
      e.bytes + if e.len < |s| then Unescape(s[e.len..]) else []
  }

  /** What every escape but a number stands for: nothing for a line end, a byte by its code, or itself. */
  lemma LetterEscape(c: char, rest: string)
    requires c != '0'
    ensures FirstEscape(['\\', c] + rest) == Escaped(
      if c == '\n' then []
      else if c == 't' then [9 as char]
      else if c == 'n' then [10 as char]
      else if c == 'v' then [11 as char]
      else if c == 'r' then [13 as char]
      else if c == 'b' then [8 as char]
      else [c], 2)
  {
    assert (['\\', c] + rest)[1] == c;
  }

  /** What does not go on with a number in some base. */
  predicate NoDigit(s: string, base: nat) {
    s == [] || (Digit(s[0], base) == base && s[0] != '_')
  }

  lemma HexBegins(a: char, b: char, rest: string)
    requires Digit(a, 16) < 16 && Digit(b, 16) < 16 && NoDigit(rest, 16)
    ensures var s := ['0', 'x', a, b] + rest; var n := 4 - if a != '0' then 2 else if b != '0' then 1 else 0;
      && Span(s, "0") == 1
      && BeginOf(s, Flags(0, true, false)) == if n == 4 && rest == [] then Zero(4) else At(16, n)
  {
    var s := ['0', 'x', a, b] + rest;
    var n := if a != '0' then 0 else if b != '0' then 1 else 2;
    SpanIs(s, "0", 1);
    SpanIs(s[1..], "xX", 1);
    SpanIs(s[2..], "0", n);
  }

  lemma OctBegins(a: char, b: char, rest: string)
    requires Digit(a, 8) < 8 && Digit(b, 8) < 8 && NoDigit(rest, 8)
    ensures var s := ['0', a, b] + rest; var n := if a != '0' then 1 else if b != '0' then 2 else 3;
      && Span(s, "0") == n
      && BeginOf(s, Flags(0, true, false)) == At(8, if n == 1 then 1 else n - 1)
  {
    var s := ['0', a, b] + rest;
    var n := if a != '0' then 1 else if b != '0' then 2 else 3;
    SpanIs(s, "0", n);
    if n == 1 {
      SpanIs(s[1..], "xX", 0);
      SpanIs(s[1..], "bB", 0);
    }
  }

  lemma NumEnd(s: string, base: nat, value: nat)
    requires NoDigit(s, base) && value < USHORT
    ensures Digits(s, base, true, true, value, USHORT) == Parsed(value, 0)
  {
  }

  lemma NumStep(c: char, rest: string, base: nat, once: bool, value: nat, next: nat)
    requires Digit(c, base) < base && value < USHORT && next < USHORT && next == value * base + Digit(c, base)
    ensures var r := Digits(rest, base, true, true, next, USHORT);
            Digits([c] + rest, base, true, once, value, USHORT) == Parsed(r.value, r.len + 1)
  {
    DigitNoUnderscore(c, base);
    var s := [c] + rest;
    assert s[1..] == rest && s[0] == c && s != [];
    assert (value * base + Digit(c, base)) % USHORT == next by {
      Unwrapped(value * base + Digit(c, base));
    }
    hide Digit;
    var r := Digits(rest, base, true, true, next, USHORT);
  }

  lemma Unwrapped(n: nat)
    requires n < USHORT
    ensures n % USHORT == n
  {
  }

  lemma DigitNoUnderscore(c: char, base: nat)
    requires Digit(c, base) < base
    ensures c != '_'
  {
  }

  lemma NumTwo(a: char, b: char, rest: string, base: nat)
    requires 0 < base <= 16 && Digit(a, base) < base && Digit(b, base) < base && NoDigit(rest, base)
    ensures Digit(a, base) * base + Digit(b, base) < USHORT
    ensures Digits([a] + ([b] + rest), base, true, true, 0, USHORT) == Parsed(Digit(a, base) * base + Digit(b, base), 2)
    ensures Digits([b] + rest, base, true, true, 0, USHORT) == Parsed(Digit(b, base), 1)
    ensures Digits(rest, base, true, true, 0, USHORT) == Parsed(0, 0)
  {
    hide Digits, Digit, NoDigit;
    TwoFit(Digit(a, base), Digit(b, base), base);
    NumStep(a, [b] + rest, base, true, 0, Digit(a, base));
    NumStep(b, rest, base, true, Digit(a, base), Digit(a, base) * base + Digit(b, base));
    NumStep(b, rest, base, true, 0, Digit(b, base));
    NumEnd(rest, base, Digit(a, base) * base + Digit(b, base));
    NumEnd(rest, base, Digit(b, base));
    NumEnd(rest, base, 0);
  }

  lemma TwoFit(x: nat, y: nat, base: nat)
    requires x < base <= 16 && y < base
    ensures x * base + y < USHORT && 0 * base + x == x && 0 * base + y == y
  {
    assert x * base <= 16 * base;
  }

  /** A byte written as a zero, an x and two hexadecimal digits is that byte. */
  lemma HexEscape(a: char, b: char, rest: string)
    requires Digit(a, 16) < 16 && Digit(b, 16) < 16 && NoDigit(rest, 16)
    ensures FirstEscape(['\\', '0', 'x', a, b] + rest) == Escaped([(Digit(a, 16) * 16 + Digit(b, 16)) as char], 5)
  {
    hide Parse, Digit, NoDigit;
    HexNumber(a, b, rest);
    assert (['\\', '0', 'x', a, b] + rest)[1..] == ['0', 'x', a, b] + rest;
  }

  lemma HexNumber(a: char, b: char, rest: string)
    requires Digit(a, 16) < 16 && Digit(b, 16) < 16 && NoDigit(rest, 16)
    ensures NumberAt(['0', 'x', a, b] + rest) == Parsed(Digit(a, 16) * 16 + Digit(b, 16), 4)
  {
    hide Digits, BeginOf, Span, NoDigit, Digit;
    var s := ['0', 'x', a, b] + rest;
    HexBegins(a, b, rest);
    NumTwo(a, b, rest, 16);
    DigitZero(a, 16);
    DigitZero(b, 16);
    assert s[2..] == [a] + ([b] + rest) && s[3..] == [b] + rest && s[4..] == rest;
  }

  lemma DigitZero(c: char, base: nat)
    ensures c == '0' && base > 0 ==> Digit(c, base) == 0
  {
  }

  /** One written as a zero and two octal digits is that byte. */
  lemma OctEscape(a: char, b: char, rest: string)
    requires Digit(a, 8) < 8 && Digit(b, 8) < 8 && NoDigit(rest, 8)
    ensures FirstEscape(['\\', '0', a, b] + rest) == Escaped([(Digit(a, 8) * 8 + Digit(b, 8)) as char], 4)
  {
    hide Parse, Digit, NoDigit;
    OctNumber(a, b, rest);
    assert (['\\', '0', a, b] + rest)[1..] == ['0', a, b] + rest;
  }

  lemma OctNumber(a: char, b: char, rest: string)
    requires Digit(a, 8) < 8 && Digit(b, 8) < 8 && NoDigit(rest, 8)
    ensures NumberAt(['0', a, b] + rest) == Parsed(Digit(a, 8) * 8 + Digit(b, 8), 3)
  {
    hide Digits, BeginOf, Span, NoDigit, Digit;
    var s := ['0', a, b] + rest;
    OctBegins(a, b, rest);
    NumTwo(a, b, rest, 8);
    DigitZero(a, 8);
    DigitZero(b, 8);
    assert s[1..] == [a] + ([b] + rest) && s[2..] == [b] + rest && s[3..] == rest;
  }

  /** The escape at a place in a text. */
  lemma EscapeIs(text: string, pos: nat, len: nat)
    requires Within(text, pos, len) && len > 1 && text[pos - 1] == '\\'
    ensures var s := Slice(text, pos, len); var p := NumberAt(Slice(text, pos + 1, len - 1));
      && s[0] == '\\' && s[1] == text[pos] && p.len <= len - 1
      && FirstEscape(s) ==
           if text[pos] == '\n' then Escaped([], 2)
           else if text[pos] == '0' then Escaped([(p.value % 256) as char], 1 + p.len)
           else Escaped([Letter(text[pos])], 2)
  {
    var s := Slice(text, pos, len);
    assert s[0] == text[pos - 1] && s[1] == text[pos];
    assert Slice(text, pos + 1, len - 1) == s[1..];
  }

  class Base {
    var text: string

    constructor (s: string)
      ensures text == s
    {
      text := s;
    }

    /** vstr_del and the vstr_sub functions: puts s in the place of a section. */
    method Replace(pos: nat, len: nat, s: string)
      requires Within(text, pos, len)
      modifies this
      ensures text == old(text)[..pos - 1] + s + old(text)[pos - 1 + len..]
    {
      text := text[..pos - 1] + s + text[pos - 1 + len..];
    }

    /** Replaces the escape at the start of a section. */
    method ReplaceEscape(pos: nat, len: nat) returns (ghost e: Escaped, shrink: nat, joined: bool)
      requires Within(text, pos, len) && len > 1 && text[pos - 1] == '\\'
      modifies this
      ensures e == FirstEscape(old(Slice(text, pos, len))) && e.len <= len && shrink == e.len - |e.bytes|
      ensures text == old(text)[..pos - 1] + e.bytes + old(text)[pos - 1 + e.len..]
      ensures |e.bytes| == if joined then 0 else 1
    {
      hide FirstEscape, Slice;
      EscapeIs(text, pos, len);
      e := FirstEscape(Slice(text, pos, len));
      var chr := text[pos];
      shrink, joined := 1, false;
      if chr == '\n' {
        Replace(pos, 2, "");
        shrink, joined := 2, true;
      } else if chr == 't' || chr == 'v' || chr == 'r' || chr == 'n' || chr == 'b' {
        Replace(pos, 2, [Letter(chr)]);
      } else if chr == '0' {
        var p := NumberAt(Slice(text, pos + 1, len - 1));
        Replace(pos, p.len + 1, [(p.value % 256) as char]);
        shrink := p.len;
      } else {
        Replace(pos, 1, "");
        assert text == old(text)[..pos - 1] + old(text)[pos..];
        assert old(text)[pos..] == [chr] + old(text)[pos + 1..];
      }
    }

    /** Replaces the section by what it means, leaves the rest alone, and says how long it is now. */
    method ConvUnesc(pos0: nat, len0: nat) returns (retLen: nat)
      requires Within(text, pos0, len0)
      modifies this
      ensures var r := Unescape(old(Slice(text, pos0, len0)));
              retLen == |r| && text == old(text)[..pos0 - 1] + r + old(text)[pos0 - 1 + len0..]
    {
      hide Unescape, FirstEscape, Working, CSpan;
      ghost var before, after := text[..pos0 - 1], text[pos0 - 1 + len0..];
      ghost var done: string, s := [], Slice(text, pos0, len0);
      ghost var whole := Unescape(s);
      var pos: nat, len: nat := pos0, len0;
      retLen := len;
      assert text == before + (done + (s + after));
      assert whole == done + Unescape(s);
      WorkBegins(text, before, done, s, after, whole);
      while len > 1
        invariant pos == |before| + 1 + |done| && |s| == len && retLen == |done| + len
        invariant Working(text, before, done, s, after, whole)
        decreases len
      {
        TextAt(text, before, done, s, after, whole);
        var plen := CSpan(Slice(text, pos, len), "\\");
        if plen == 0 {
          ghost var e, was := Escaped([], 0), text;
          var shrink, joined;
          e, shrink, joined := ReplaceEscape(pos, len);
          WorkEscape(was, before, done, s, after, whole);
          len, retLen := len - shrink, retLen - shrink;
          done, s := done + e.bytes, s[e.len..];
          if joined {
            continue;
          }
          plen := 1;
        } else {
          WorkPlain(text, before, done, s, after, whole, plen);
          done, s := done + s[..plen], s[plen..];
        }
        len, pos := len - plen, pos + plen;
      }
      WorkEnds(text, before, done, s, after, whole);
    }
  }

  /** Half way: what is done, what is left, and the text around it. */
  ghost predicate Working(text: string, before: string, done: string, s: string, after: string, whole: string) {
    && text == before + (done + (s + after))
    && whole == done + Unescape(s)
  }

  lemma WorkBegins(text: string, before: string, done: string, s: string, after: string, whole: string)
    requires text == before + (done + (s + after)) && whole == done + Unescape(s)
    ensures Working(text, before, done, s, after, whole)
  {
  }

  lemma WorkEnds(text: string, before: string, done: string, s: string, after: string, whole: string)
    requires Working(text, before, done, s, after, whole) && |s| <= 1
    ensures text == before + whole + after && |whole| == |done| + |s|
  {
    UnescapeShort();
    assert before + (done + (s + after)) == before + (done + s) + after;
  }

  lemma TextAt(text: string, before: string, done: string, s: string, after: string, whole: string)
    requires Working(text, before, done, s, after, whole)
    ensures Within(text, |before| + 1 + |done|, |s|) && Slice(text, |before| + 1 + |done|, |s|) == s
    ensures s != [] ==> text[|before| + |done|] == s[0]
  {
  }

  lemma WorkPlain(text: string, before: string, done: string, s: string, after: string, whole: string, k: nat)
    requires Working(text, before, done, s, after, whole)
    requires k <= |s| && forall i :: 0 <= i < k ==> s[i] != '\\'
    ensures Working(text, before, done + s[..k], s[k..], after, whole)
  {
    hide Unescape;
    PlainUnescape(s, k);
    TextMoved(before, done, s, after, k);
    assert done + (s[..k] + Unescape(s[k..])) == done + s[..k] + Unescape(s[k..]);
  }

  lemma WorkEscape(text: string, before: string, done: string, s: string, after: string, whole: string)
    requires Working(text, before, done, s, after, whole) && |s| > 1 && s[0] == '\\'
    requires FirstEscape(s).len <= |s|
    ensures var e := FirstEscape(s); var i := |before| + |done|;
            i + e.len <= |text| && Working(text[..i] + e.bytes + text[i + e.len..], before, done + e.bytes, s[e.len..], after, whole)
  {
    hide Unescape, FirstEscape;
    var e := FirstEscape(s);
    UnescapeEscape(s);
    TextReplaced(before, done, s, after, e);
    assert done + (e.bytes + Unescape(s[e.len..])) == done + e.bytes + Unescape(s[e.len..]);
  }

  lemma TextMoved(before: string, done: string, s: string, after: string, k: nat)
    requires k <= |s|
    ensures before + (done + (s + after)) == before + (done + s[..k] + (s[k..] + after))
  {
  }

  lemma TextReplaced(before: string, done: string, s: string, after: string, e: Escaped)
    requires e.len <= |s|
    ensures var text := before + (done + (s + after)); var i := |before| + |done|;
            text[..i] + e.bytes + text[i + e.len..] == before + (done + e.bytes + (s[e.len..] + after))
  {
  }

  lemma UnescapeShort()
    ensures forall s: string :: |s| <= 1 ==> Unescape(s) == s
  {
  }

  lemma UnescapeByte(s: string)
    requires s != [] && s[0] != '\\'
    ensures Unescape(s) == [s[0]] + Unescape(s[1..])
  {
  }

  lemma UnescapeEscape(s: string)
    requires |s| > 1 && s[0] == '\\' && FirstEscape(s).len <= |s|
    ensures var e := FirstEscape(s); Unescape(s) == e.bytes + Unescape(s[e.len..])
  {
  }

  lemma {:induction false} PlainUnescape(s: string, k: nat)
    requires k <= |s| && forall i :: 0 <= i < k ==> s[i] != '\\'
    ensures Unescape(s) == s[..k] + Unescape(s[k..])
    decreases k
  {
    hide Unescape;
    if k > 0 {
      UnescapeByte(s);
      PlainUnescape(s[1..], k - 1);
      assert s[1..][k - 1..] == s[k..];
      assert s[..k] == [s[0]] + s[1..][..k - 1];
    } else {
      assert s[0..] == s;
    }
  }
}
