/** Comparison of a URL that may have percent escapes with a plain text, without decoding the URL. */
module UriEq {
  import opened Vstr
  import opened Number

  /** The two bytes of an escape as the code reads them: in base 16, with no zeros before a number. */
  function Escape(a: char, b: char): (p: Parsed)
    ensures p.len <= 2
  {
    Parse([a, b], Flags(16, false, true), USHORT)
  }

  predicate IsHex(a: char, b: char) {
    Digit(a, 16) < 16 && Digit(b, 16) < 16
  }

  /** Two hexadecimal digits that the number parser does not take for one number: two zeros, and a zero with
    what could begin a binary number. */
  predicate Refused(a: char, b: char) {
    a == '0' && (b == '0' || b == 'b' || b == 'B')
  }

  lemma EscapeIs(a: char, b: char)
    ensures Escape(a, b).len == 2 <==> IsHex(a, b) && !Refused(a, b)
    ensures Escape(a, b).len == 2 ==> Escape(a, b).value == Digit(a, 16) * 16 + Digit(b, 16) < 256
  {
    hide Digits, BeginOf;
    EscapeBegins(a, b);
    var once := Span([a, b], "0") > 0;
    assert [a, b][0..] == [a, b] && [a, b][1..] == [b] && [b][1..] == [];
    DigitsTwo(a, b, once);
  }

  lemma EscapeBegins(a: char, b: char)
    ensures BeginOf([a, b], Flags(16, false, true)) ==
      if a != '0' then At(16, 0)
      else if b == '0' then Zero(1)
      else if b in "xXbB" then Zero(0)
      else At(16, 1)
    ensures Span([a, b], "0") > 0 <==> a == '0'
  {
    assert [a, b][1..] == [b] && [b][1..] == [];
    SpanIs([a, b], "0", if a != '0' then 0 else if b != '0' then 1 else 2);
    SpanIs([b], "xX", if b in "xX" then 1 else 0);
    SpanIs([b], "bB", if b in "bB" then 1 else 0);
  }

  lemma DigitsTwo(a: char, b: char, once: bool)
    ensures var r := Digits([a, b], 16, false, false, 0, USHORT);
      && (r.len == 2 <==> IsHex(a, b))
      && (r.len == 2 ==> r.value == Digit(a, 16) * 16 + Digit(b, 16) < 256)
    ensures var r := Digits([b], 16, false, once, 0, USHORT);
      && (r.len == 1 <==> Digit(b, 16) < 16)
      && (r.len == 1 ==> r.value == Digit(b, 16))
  {
    assert [a, b][1..] == [b] && [b][1..] == [];
    var v := (0 * 16 + Digit(a, 16)) % USHORT;
    DigitsOne(b, once, 0);
    DigitsOne(b, true, v);
  }

  lemma DigitsOne(b: char, once: bool, value: nat)
    requires value <= 16
    ensures Digits([b], 16, false, once, value, USHORT) ==
      if Digit(b, 16) == 16 then Parsed(value, 0) else Parsed(value * 16 + Digit(b, 16), 1)
  {
    assert [b][1..] == [];
  }

  /** What a URL means, two hexadecimal digits for an escape; nothing when an escape is not one. */
  function Decode(url: string): Option<string> {
    if url == [] then Some([])
    else if url[0] != '%' then
      match Decode(url[1..])
      case None => None
      case Some(rest) => Some([url[0]] + rest)
    else if |url| < 3 || !IsHex(url[1], url[2]) then None
    else
      match Decode(url[3..])
      case None => None
      case Some(rest) => Some([(Digit(url[1], 16) * 16 + Digit(url[2], 16)) as char] + rest)
  }

  /** No escape of the URL is %00, %0b or %0B. */
  ghost predicate Clean(url: string) {
    forall i :: 0 <= i < |url| - 2 && url[i] == '%' ==> !Refused(url[i + 1], url[i + 2])
  }

  /** A byte at a time: what is left of the URL behind the text, if it begins with it. */
  function Rest(text: string, url: string): (r: Option<nat>)
    ensures r.Some? ==> r.value <= |url|
    decreases |text|
  {
    if text == [] then Some(|url|)
    else if url == [] then None
    else if url[0] != '%' then
      if text[0] == url[0] then Rest(text[1..], url[1..]) else None
    else if |url| < 3 || Escape(url[1], url[2]).len != 2 || Escape(url[1], url[2]).value != text[0] as nat then None
    else Rest(text[1..], url[3..])
  }

  /** The decoding of a URL with one more byte or escape before it. */
  lemma DecodeStep(url: string, step: nat)
    requires url != [] && step == (if url[0] == '%' then 3 else 1) <= |url|
    requires url[0] == '%' ==> IsHex(url[1], url[2])
    ensures var c := if url[0] == '%' then (Digit(url[1], 16) * 16 + Digit(url[2], 16)) as char else url[0];
            Decode(url) == match Decode(url[step..]) case None => None case Some(rest) => Some([c] + rest)
  {
  }

  lemma CleanStep(url: string, step: nat)
    requires url != [] && step == (if url[0] == '%' then 3 else 1) <= |url|
    requires url[0] == '%' ==> IsHex(url[1], url[2])
    ensures Clean(url) <==> Clean(url[step..]) && (url[0] == '%' ==> !Refused(url[1], url[2]))
  {
    if Clean(url[step..]) && (url[0] == '%' ==> !Refused(url[1], url[2])) {
      forall i | 0 <= i < |url| - 2 && url[i] == '%'
        ensures !Refused(url[i + 1], url[i + 2])
      {
        if i >= step {
          assert url[step..][i - step] == '%';
        }
      }
    }
    if Clean(url) {
      forall i | 0 <= i < |url[step..]| - 2 && url[step..][i] == '%'
        ensures !Refused(url[step..][i + 1], url[step..][i + 2])
      {
        assert url[i + step] == '%';
      }
    }
  }

  /** The first byte or escape of a prefix is that of the URL. */
  lemma PrefixStep(url: string, k: nat, step: nat)
    requires 0 < step <= k <= |url|
    ensures url[..k][0] == url[0] && url[..k][step..] == url[step..][..k - step]
    ensures step >= 3 ==> url[..k][1] == url[1] && url[..k][2] == url[2]
  {
  }

  lemma {:induction false} RestDecodes(text: string, url: string)
    requires Rest(text, url).Some?
    ensures var url' := url[..|url| - Rest(text, url).value]; Decode(url') == Some(text) && Clean(url')
    decreases |text|
  {
    hide Escape, Digit, Refused, Decode, Clean;
    if text == [] {
      DecodeNone();
    } else {
      var k := |url| - Rest(text, url).value;
      var step := if url[0] == '%' then 3 else 1;
      if url[0] == '%' {
        EscapeIs(url[1], url[2]);
      }
      RestDecodes(text[1..], url[step..]);
      PrefixStep(url, k, step);
      DecodeStep(url[..k], step);
      CleanStep(url[..k], step);
      assert text == [text[0]] + text[1..];
    }
  }

  lemma DecodeNone()
    ensures Decode([]) == Some([]) && Clean([])
  {
  }

  /** Whatever decodes begins with a byte or an escape. */
  lemma DecodeFirst(url: string, text: string)
    requires Decode(url) == Some(text) && url != []
    ensures url[0] == '%' ==> |url| >= 3 && IsHex(url[1], url[2])
    ensures text != [] && Decode(url[if url[0] == '%' then 3 else 1..]) == Some(text[1..])
    ensures text[0] == if url[0] == '%' then (Digit(url[1], 16) * 16 + Digit(url[2], 16)) as char else url[0]
  {
  }

  lemma {:induction false} DecodesRest(text: string, url: string, k: nat)
    requires k <= |url| && Decode(url[..k]) == Some(text) && Clean(url[..k])
    ensures Rest(text, url) == Some(|url| - k)
    decreases k
  {
    hide Escape, Digit, Refused, Decode, Clean;
    if k == 0 {
      DecodeNone();
    } else {
      DecodeFirst(url[..k], text);
      var step := if url[0] == '%' then 3 else 1;
      PrefixStep(url, k, step);
      CleanStep(url[..k], step);
      if url[0] == '%' {
        EscapeIs(url[1], url[2]);
      }
      DecodesRest(text[1..], url[step..], k - step);
    }
  }

  /** A prefix of the URL that decodes to the text is the only one. */
  lemma {:induction false} OnePrefix(text: string, url: string, j: nat, k: nat)
    requires j <= |url| && k <= |url|
    requires Decode(url[..j]) == Decode(url[..k]) == Some(text)
    ensures j == k
    decreases |text|
  {
    hide Decode, Digit;
    DecodeNone();
    if text == [] {
      if j > 0 {
        DecodeFirst(url[..j], text);
      }
      if k > 0 {
        DecodeFirst(url[..k], text);
      }
    } else {
      DecodeFirst(url[..j], text);
      DecodeFirst(url[..k], text);
      var step := if url[0] == '%' then 3 else 1;
      PrefixStep(url, j, step);
      PrefixStep(url, k, step);
      OnePrefix(text[1..], url[step..], j - step, k - step);
    }
  }

  /** When a prefix of the URL decodes to the text, it is found exactly if none of the three escapes is in it. */
  lemma FoundIfClean(text: string, url: string, k: nat)
    requires k <= |url| && Decode(url[..k]) == Some(text)
    ensures Rest(text, url) == if Clean(url[..k]) then Some(|url| - k) else None
  {
    hide Decode, Clean, Rest;
    if Clean(url[..k]) {
      DecodesRest(text, url, k);
    } else if Rest(text, url).Some? {
      RestDecodes(text, url);
      OnePrefix(text, url, k, |url| - Rest(text, url).value);
    }
  }

  /** A URL that means the text is not found to be equal when it has one of the three escapes. */
  lemma RefusedEscapes()
    ensures Decode("%00") == Some([0 as char]) && Rest([0 as char], "%00") == None
    ensures Decode("%0b") == Decode("%0B") == Some([11 as char])
    ensures Rest([11 as char], "%0b") == Rest([11 as char], "%0B") == None
  {
    hide Escape, Decode, Rest;
    RefusedEscape('0');
    RefusedEscape('b');
    RefusedEscape('B');
    assert "%00" == ['%', '0', '0'] && "%0b" == ['%', '0', 'b'] && "%0B" == ['%', '0', 'B'];
  }

  lemma RefusedEscape(b: char)
    requires Refused('0', b)
    ensures Decode(['%', '0', b]) == Some([Digit(b, 16) as char]) && Rest([Digit(b, 16) as char], ['%', '0', b]) == None
  {
    hide Escape, Decode;
    var url := ['%', '0', b];
    EscapeIs('0', b);
    DecodeNone();
    assert url[3..] == [];
    DecodeStep(url, 3);
    assert [Digit(b, 16) as char] + [] == [Digit(b, 16) as char];
  }

  lemma {:induction false} RestShort(text: string, url: string)
    requires |url| < |text|
    ensures Rest(text, url) == None
    decreases |text|
  {
    if url != [] {
      RestShort(text[1..], url[1..]);
      if |url| >= 3 {
        RestShort(text[1..], url[3..]);
      }
    }
  }

  /** A run of the URL without escapes is compared as it is. */
  lemma {:induction false} RestPlain(text: string, url: string, n: nat)
    requires n <= |text| && n <= |url| && forall i :: 0 <= i < n ==> url[i] != '%'
    ensures Rest(text, url) == if text[..n] == url[..n] then Rest(text[n..], url[n..]) else None
    decreases n
  {
    if n == 0 {
      assert text[0..] == text && url[0..] == url;
    } else {
      RestPlain(text[1..], url[1..], n - 1);
      assert text[1..][n - 1..] == text[n..] && url[1..][n - 1..] == url[n..];
      assert text[..n] == [text[0]] + text[1..][..n - 1];
      assert url[..n] == [url[0]] + url[1..][..n - 1];
    }
  }

  /** httpd_policy__uri_eq: whether a prefix of the URL decodes to the text, and how much is left behind it. */
  method UriRest(s1: string, s2: string, pos: nat, len: nat) returns (ok: bool, left: nat)
    requires Within(s2, pos, len)
    ensures ok == Rest(s1, Slice(s2, pos, len)).Some?
    ensures ok ==> left == Rest(s1, Slice(s2, pos, len)).value
  {
    hide Rest, Slice, CSpan, Escape;
    ghost var url := Slice(s2, pos, len);
    var p1: nat, l1: nat, p2: nat, l2: nat := 1, |s1|, pos, len;
    assert s1[0..] == s1;
    while l1 > 0 && l2 >= l1
      invariant p1 >= 1 && p1 - 1 + l1 == |s1| && Within(s2, p2, l2)
      invariant Rest(s1, url).Some? <==> Rest(s1[p1 - 1..], Slice(s2, p2, l2)).Some?
      invariant Rest(s1, url) == Rest(s1[p1 - 1..], Slice(s2, p2, l2))
      decreases l1
    {
      ghost var text, rest := s1[p1 - 1..], Slice(s2, p2, l2);
      var tmp := CSpan(Slice(s2, p2, l1), "%");
      if tmp > 0 {
        PlainRun(s2, p2, l2, l1, tmp);
        RestPlain(text, rest, tmp);
        SliceSplit(s2, p2, l2, tmp);
        assert text[..tmp] == s1[p1 - 1..p1 - 1 + tmp];
        if s1[p1 - 1..p1 - 1 + tmp] != Slice(s2, p2, tmp) {
          return false, 0;
        }
        assert text[tmp..] == s1[p1 - 1 + tmp..];
        l1, p1, l2, p2 := l1 - tmp, p1 + tmp, l2 - tmp, p2 + tmp;
        continue;
      }
      EscapeRun(s2, p2, l2, l1);
      RestEscape(text, rest);
      if l2 < 3 {
        return false, 0;
      }
      SliceSplit(s2, p2, l2, 3);
      EscapeBytes(s2, p2, l2);
      var val := Escape(s2[p2], s2[p2 + 1]);
      if val.len != 2 || s1[p1 - 1] as nat != val.value {
        return false, 0;
      }
      assert text[1..] == s1[p1..];
      l1, p1, l2, p2 := l1 - 1, p1 + 1, l2 - 3, p2 + 3;
    }
    if l1 > 0 {
      RestShort(s1[p1 - 1..], Slice(s2, p2, l2));
    } else {
      RestDone(s1[p1 - 1..], Slice(s2, p2, l2));
    }
    return l1 == 0, l2;
  }

  lemma RestDone(text: string, url: string)
    requires text == []
    ensures Rest(text, url) == Some(|url|)
  {
  }

  lemma RestEscape(text: string, url: string)
    requires text != [] && url != [] && url[0] == '%'
    ensures Rest(text, url) ==
      if |url| < 3 || Escape(url[1], url[2]).len != 2 || text[0] as nat != Escape(url[1], url[2]).value then None
      else Rest(text[1..], url[3..])
  {
    hide Escape;
  }

  lemma PlainRun(s: string, pos: nat, len: nat, l1: nat, n: nat)
    requires Within(s, pos, len) && l1 <= len && n == CSpan(Slice(s, pos, l1), "%")
    ensures n <= l1 && forall i :: 0 <= i < n ==> Slice(s, pos, len)[i] != '%'
  {
    assert forall i :: 0 <= i < n ==> Slice(s, pos, l1)[i] == Slice(s, pos, len)[i];
  }

  lemma EscapeRun(s: string, pos: nat, len: nat, l1: nat)
    requires Within(s, pos, len) && 0 < l1 <= len && CSpan(Slice(s, pos, l1), "%") == 0
    ensures Slice(s, pos, len)[0] == '%'
  {
    assert Slice(s, pos, l1)[0] == Slice(s, pos, len)[0];
  }

  lemma SliceSplit(s: string, pos: nat, len: nat, n: nat)
    requires Within(s, pos, len) && n <= len
    ensures Slice(s, pos, len)[..n] == Slice(s, pos, n)
    ensures Slice(s, pos, len)[n..] == Slice(s, pos + n, len - n)
  {
    var t := Slice(s, pos, len);
    assert forall i :: 0 <= i < n ==> t[i] == s[pos - 1 + i] == Slice(s, pos, n)[i];
    assert forall i :: n <= i < len ==> t[i] == s[pos - 1 + i] == Slice(s, pos + n, len - n)[i - n];
  }

  lemma EscapeBytes(s: string, pos: nat, len: nat)
    requires Within(s, pos, len) && len >= 3
    ensures Slice(s, pos, len)[1] == s[pos] && Slice(s, pos, len)[2] == s[pos + 1]
  {
  }

  /** httpd_policy_uri_eq: agrees with decoding and comparing, unless the URL has one of three escapes. */
  method Eq(s1: string, s2: string, pos: nat, len: nat) returns (eq: bool)
    requires Within(s2, pos, len)
    ensures var url := Slice(s2, pos, len); eq <==> Decode(url) == Some(s1) && Clean(url)
  {
    hide Rest, Decode, Clean, Slice;
    var ok, tmp := UriRest(s1, s2, pos, len);
    EqIs(s1, Slice(s2, pos, len));
    return ok && tmp == 0;
  }

  lemma EqIs(text: string, url: string)
    ensures Rest(text, url) == Some(0) <==> Decode(url) == Some(text) && Clean(url)
  {
    hide Rest, Decode, Clean;
    assert url[..|url|] == url;
    if Rest(text, url) == Some(0) {
      RestDecodes(text, url);
    }
    if Decode(url) == Some(text) && Clean(url) {
      DecodesRest(text, url, |url|);
    }
  }

  /** httpd_policy_uri_beg_eq: whether some beginning of the raw URL decodes to the text, and how long it is. */
  method BegEq(s1: string, s2: string, pos: nat, len: nat) returns (ok: bool, newLen: nat)
    requires Within(s2, pos, len)
    ensures var url := Slice(s2, pos, len);
      && (ok <==> exists k :: 0 <= k <= len && Decode(url[..k]) == Some(s1) && Clean(url[..k]))
      && (ok ==> newLen <= len && Decode(url[..newLen]) == Some(s1) && Clean(url[..newLen]))
    ensures !ok ==> newLen == len
  {
    hide Rest, Decode, Clean, Slice;
    ghost var url := Slice(s2, pos, len);
    var tmp;
    ok, tmp := UriRest(s1, s2, pos, len);
    newLen := len;
    forall k | 0 <= k <= len && Decode(url[..k]) == Some(s1) && Clean(url[..k])
      ensures Rest(s1, url) == Some(len - k)
    {
      DecodesRest(s1, url, k);
    }
    if !ok {
      return;
    }
    RestDecodes(s1, url);
    if tmp > 0 {
      newLen := newLen - tmp;
    }
  }

  /** A text that decodes to n bytes has from n to 3 n of its own. */
  lemma {:induction false} DecodeLength(url: string)
    ensures Decode(url).Some? ==> |Decode(url).value| <= |url| <= 3 * |Decode(url).value|
    decreases |url|
  {
    if url != [] {
      if url[0] != '%' {
        DecodeLength(url[1..]);
      } else if |url| >= 3 {
        DecodeLength(url[3..]);
      }
    }
  }

  lemma {:induction false} DecodePlain(url: string)
    requires '%' !in url
    ensures Decode(url) == Some(url)
  {
    if url != [] {
      assert url[0] in url;
      DecodePlain(url[1..]);
      assert url == [url[0]] + url[1..];
    }
  }

  /** The end of a URL, a section of s, that starts at p decodes to the text. */
  ghost predicate EndIs(text: string, s: string, pos: nat, len: nat, p: nat) {
    && Within(s, pos, len) && pos <= p <= pos + len
    && var url := Slice(s, p, pos + len - p); Decode(url) == Some(text) && Clean(url)
  }

  lemma EndLength(text: string, s: string, pos: nat, len: nat, p: nat)
    requires EndIs(text, s, pos, len, p)
    ensures |text| <= pos + len - p <= 3 * |text|
  {
    DecodeLength(Slice(s, p, pos + len - p));
  }

  lemma EndPlain(text: string, s: string, pos: nat, len: nat, p: nat)
    requires Within(s, pos, len) && CSpan(Slice(s, pos, len), "%") == len
    requires pos <= p <= pos + len
    ensures EndIs(text, s, pos, len, p) <==> text == Slice(s, p, pos + len - p)
  {
    var url := Slice(s, p, pos + len - p);
    forall i | 0 <= i < |url|
      ensures url[i] != '%'
    {
      assert url[i] == Slice(s, pos, len)[p - pos + i];
    }
    DecodePlain(url);
  }

  lemma EndFrom(text: string, s: string, pos0: nat, len0: nat, pos: nat, len: nat)
    requires Within(s, pos0, len0) && pos0 <= pos && pos + len == pos0 + len0
    ensures EndIs(text, s, pos0, len0, pos) <==> Decode(Slice(s, pos, len)) == Some(text) && Clean(Slice(s, pos, len))
    ensures len == 0 ==> EndIs([], s, pos0, len0, pos)
  {
  }

  /** httpd_policy_uri_end_eq: whether some end of the raw URL decodes to the text, and the longest one. */
  method EndEq(s1: string, s2: string, pos0: nat, len0: nat) returns (ok: bool, pos: nat, len: nat)
    requires Within(s2, pos0, len0)
    ensures pos0 <= pos && pos + len == pos0 + len0
    ensures ok <==> exists p :: EndIs(s1, s2, pos0, len0, p)
    ensures ok ==> EndIs(s1, s2, pos0, len0, pos)
    ensures ok ==> forall p :: EndIs(s1, s2, pos0, len0, p) ==> pos <= p
  {
    hide Rest, Decode, Clean, Slice, CSpan, EndIs;
    pos, len := pos0, len0;
    forall p | EndIs(s1, s2, pos0, len0, p)
      ensures pos0 <= p && |s1| <= pos0 + len0 - p <= 3 * |s1|
    {
      EndLength(s1, s2, pos0, len0, p);
      EndInside(s1, s2, pos0, len0, p);
    }
    if CSpan(Slice(s2, pos, len), "%") == len {
      if len > |s1| {
        pos, len := pos + (len - |s1|), |s1|;
      }
      ok := s1 == Slice(s2, pos, len);
      forall p | EndIs(s1, s2, pos0, len0, p)
        ensures p == pos && s1 == Slice(s2, p, pos0 + len0 - p)
      {
        EndInside(s1, s2, pos0, len0, p);
        EndPlain(s1, s2, pos0, len0, p);
      }
      EndPlain(s1, s2, pos0, len0, pos);
      return;
    }
    if len > |s1| * 3 {
      pos, len := pos + (len - |s1| * 3), |s1| * 3;
    }
    while len >= |s1|
      invariant pos0 <= pos && pos + len == pos0 + len0
      invariant forall p :: EndIs(s1, s2, pos0, len0, p) ==> pos <= p
      decreases len
    {
      var eq := Eq(s1, s2, pos, len);
      EndFrom(s1, s2, pos0, len0, pos, len);
      if eq {
        return true, pos, len;
      }
      len, pos := len - 1, pos + 1;
    }
    ok := false;
  }

  lemma EndInside(text: string, s: string, pos: nat, len: nat, p: nat)
    requires EndIs(text, s, pos, len, p)
    ensures pos <= p <= pos + len
  {
  }
}
