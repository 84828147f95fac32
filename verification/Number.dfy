/** The number parser of the library, src/vstr_parse.c, for texts without a sign. */
module Number {
  import opened Vstr

  const DIGITS := "0123456789"

  /** What can be held by the integer types it is used with. */
  const USHORT: nat := 0x1_0000
  const UINT: nat := 0x1_0000_0000
  const UINTMAX: nat := 0x1_0000_0000_0000_0000

  /** A base, 0 when the text decides, and whether underscores may stand between digits and zeros may not
    stand at the start. */
  datatype Flags = Flags(base: nat, sep: bool, noZeros: bool)

  /** A number read from the start of a text, and the bytes it takes; no bytes when there is none. */
  datatype Parsed = Parsed(value: nat, len: nat)

  /** The value of a digit, or the base when it is not one. */
  function Digit(c: char, base: nat): (n: nat)
    ensures n <= base
  {
    var n := if '0' <= c <= '9' then c as int - '0' as int
             else if 'A' <= c <= 'Z' then c as int - 'A' as int + 10
             else if 'a' <= c <= 'z' then c as int - 'a' as int + 10
             else base;
    if n < base then n else base
  }

  /** The sixteen digits in order, in either case, and no others; a smaller base has the first of them. */
  lemma DigitsInOrder(i: nat)
    requires i < 16
    ensures Digit("0123456789abcdef"[i], 16) == i && Digit("0123456789ABCDEF"[i], 16) == i
  {
    if i >= 10 {
      assert "0123456789abcdef"[i] == ('a' as int + i - 10) as char;
      assert "0123456789ABCDEF"[i] == ('A' as int + i - 10) as char;
    }
  }

  lemma NoOtherDigits(c: char, base: nat)
    requires base <= 16
    ensures var n := Digit(c, 16);
      && Digit(c, base) == (if n < base then n else base)
      && (n < 16 ==> c == "0123456789abcdef"[n] || c == "0123456789ABCDEF"[n])
  {
    var n := Digit(c, 16);
    if 10 <= n < 16 {
      assert "0123456789abcdef"[n] == ('a' as int + n - 10) as char;
      assert "0123456789ABCDEF"[n] == ('A' as int + n - 10) as char;
    }
  }

  /** How a number begins: it is a zero of some bytes, or its digits begin at some place. */
  datatype Begin = Zero(len: nat) | At(base: nat, at: nat)

  /** After a prefix of k bytes, of which zeros are followed by n more. */
  function Zeros(s: string, k: nat, n: nat, base: nat, flags: Flags): (r: Begin)
    requires k + n <= |s| && k < |s|
    ensures r.Zero? ==> r.len <= |s|
    ensures r.At? ==> r.at < |s|
  {
    if n > 0 && flags.noZeros then Zero(k + 1)
    else if k + n == |s| then Zero(|s|)
    else At(base, k + n)
  }

  /** A zero and a letter that says what the base is; several of the letters make it a zero. */
  function Prefixed(s: string, letters: nat, base: nat, flags: Flags): (r: Begin)
    requires 0 < letters < |s|
    ensures r.Zero? ==> r.len <= |s|
    ensures r.At? ==> r.at < |s|
  {
    if letters > 1 then Zero(1)
    else if |s| == 2 then Zero(0)
    else Zeros(s, 2, Span(s[2..], "0"), if flags.base == 0 then base else flags.base, flags)
  }

  /** vstr__parse_num_beg */
  function BeginOf(s: string, flags: Flags): (r: Begin)
    ensures r.Zero? ==> r.len <= |s|
    ensures r.At? ==> r.at < |s|
  {
    var z := Span(s, "0");
    if s == [] then Zero(0)
    else if z == 1 && (flags.base == 0 || flags.base == 16 || flags.base == 2) then
      if |s| == 1 then Zero(1)
      else
        var x, b := Span(s[1..], "xX"), Span(s[1..], "bB");
        if x > 0 then Prefixed(s, x, 16, flags)
        else if b > 0 then Prefixed(s, b, 2, flags)
        else Zeros(s, 1, 0, if flags.base == 0 then 8 else flags.base, flags)
    else if flags.base == 0 then
      if z > 0 then Zeros(s, 0, z - 1, 8, flags) else Zeros(s, 0, 0, 10, flags)
    else Zeros(s, 0, z, flags.base, flags)
  }

  /** The loop over the digits: what it adds to a value, in an integer type that wraps round at max. */
  function Digits(s: string, base: nat, sep: bool, once: bool, value: nat, max: nat): (r: Parsed)
    requires max > 0 && value < max
    ensures r.len <= |s| && r.value < max && (r.len == 0 ==> r.value == value)
  {
    if s == [] then Parsed(value, 0)
    else if once && s[0] == '_' then
      if !sep then Parsed(value, 0)
      else
        var r := Digits(s[1..], base, sep, once, value, max);
        Parsed(r.value, r.len + 1)
    else if Digit(s[0], base) == base then Parsed(value, 0)
    else
      var r := Digits(s[1..], base, sep, true, (value * base + Digit(s[0], base)) % max, max);
      Parsed(r.value, r.len + 1)
  }

  /** The vstr_parse functions for unsigned integers. */
  function Parse(s: string, flags: Flags, max: nat): (r: Parsed)
    requires max > 0
    ensures r.len <= |s| && r.value < max && (r.len == 0 ==> r.value == 0)
  {
    match BeginOf(s, flags)
    case Zero(n) => Parsed(0, n)
    case At(base, at) =>
      var r := Digits(s[at..], base, flags.sep, Span(s, "0") > 0, 0, max);
      Parsed(r.value, at + r.len)
  }

  // ---------------------------------------------------------------- decimal numbers

  /** Decimal digits as a number. */
  function Decimal(s: string): nat {
    if s == [] then 0 else Decimal(s[..|s| - 1]) * 10 + Digit(s[|s| - 1], 10)
  }

  const DECIMAL := Flags(10, false, false)

  lemma DigitIs(c: char)
    ensures c in DIGITS <==> Digit(c, 10) < 10
    ensures c in DIGITS <==> '0' <= c <= '9'
  {
    assert DIGITS == ['0', '1', '2', '3', '4', '5', '6', '7', '8', '9'];
  }

  lemma {:induction false} DecimalZeros(s: string)
    requires forall i :: 0 <= i < |s| ==> s[i] == '0'
    ensures (forall i :: 0 <= i < |s| ==> s[i] in DIGITS) && Decimal(s) == 0
  {
    if s != [] {
      DecimalZeros(s[..|s| - 1]);
    }
  }

  /** The loop reads as many digits as there are, and their value wraps round. */
  lemma {:induction false} DigitsMean(s: string, k: nat, once: bool, value: nat, max: nat)
    requires max > 0 && value < max && k <= |s|
    requires forall i :: 0 <= i < k ==> s[i] in DIGITS
    requires value == Decimal(s[..k]) % max
    ensures var n := k + Span(s[k..], DIGITS);
            (forall i :: 0 <= i < n ==> s[i] in DIGITS) && Digits(s[k..], 10, false, once, value, max) == Parsed(Decimal(s[..n]) % max, n - k)
    decreases |s| - k
  {
    hide *;
    if k == |s| {
      NoDigits(s, k);
      DigitsEnd(s[k..], once, value, max);
    } else {
      DigitIs(s[k]);
      OneDigit(s, k);
      if s[k] in DIGITS {
        DigitsStep(s[k..], once, value, max);
        DecimalStep(s, k);
        WrapTwice(Decimal(s[..k]), 10, Digit(s[k], 10), max);
        DigitsMean(s, k + 1, true, (value * 10 + Digit(s[k], 10)) % max, max);
      } else {
        DigitsEnd(s[k..], once, value, max);
      }
    }
  }

  lemma NoDigits(s: string, k: nat)
    requires k == |s|
    ensures s[k..] == [] && Span(s[k..], DIGITS) == 0
  {
  }

  lemma OneDigit(s: string, k: nat)
    requires k < |s|
    ensures s[k..] != [] && s[k..][0] == s[k] && s[k..][1..] == s[k + 1..]
    ensures Span(s[k..], DIGITS) == if s[k] in DIGITS then 1 + Span(s[k + 1..], DIGITS) else 0
  {
    assert s[k..][1..] == s[k + 1..];
  }

  lemma DigitsEnd(s: string, once: bool, value: nat, max: nat)
    requires value < max && (s == [] || Digit(s[0], 10) == 10)
    ensures Digits(s, 10, false, once, value, max) == Parsed(value, 0)
  {
  }

  lemma DigitsStep(s: string, once: bool, value: nat, max: nat)
    requires value < max && s != [] && Digit(s[0], 10) < 10
    ensures var r := Digits(s[1..], 10, false, true, (value * 10 + Digit(s[0], 10)) % max, max);
            Digits(s, 10, false, once, value, max) == Parsed(r.value, r.len + 1)
  {
  }

  lemma DecimalStep(s: string, k: nat)
    requires k < |s|
    ensures Decimal(s[..k + 1]) == Decimal(s[..k]) * 10 + Digit(s[k], 10)
  {
    assert s[..k + 1][..k] == s[..k];
  }

  lemma Times(q: int, q': int, m: int)
    ensures (q - q') * m == q * m - q' * m
    ensures q > 0 && m >= 0 ==> q * m >= m
  {
    if q > 0 && m >= 0 {
      assert q * m == m + (q - 1) * m;
    }
  }

  lemma Divided(x: nat, m: nat)
    requires m > 0
    ensures x == (x / m) * m + x % m && 0 <= x % m < m
  {
  }

  /** Only one remainder is small enough. */
  lemma OneRemainder(q: int, r: int, q': int, r': int, m: int)
    requires q * m + r == q' * m + r' && 0 <= r < m && 0 <= r' < m
    ensures r == r'
  {
    Times(q, q', m);
    Times(q', q, m);
    Times(q - q', 0, m);
    Times(q' - q, 0, m);
  }

  lemma WrapTwice(a: nat, b: nat, d: nat, max: nat)
    requires max > 0
    ensures ((a % max) * b + d) % max == (a * b + d) % max
  {
    var q, r := a / max, a % max;
    Divided(a, max);
    var x, y := r * b + d, a * b + d;
    assert y == (q * b) * max + x by {
      Regroup(q, max, r, b);
    }
    Divided(x, max);
    Divided(y, max);
    Times(q * b, -(x / max), max);
    Times(0, x / max, max);
    OneRemainder(q * b + x / max, x % max, y / max, y % max, max);
  }

  lemma Regroup(q: int, m: int, r: int, b: int)
    ensures (q * m + r) * b == (q * b) * m + r * b
  {
  }

  /** A decimal number is the digits the text begins with, and its value is theirs as far as the integer type
    holds it. */
  lemma DecimalParsed(s: string, max: nat)
    requires max > 0
    ensures var n := Span(s, DIGITS); Parse(s, DECIMAL, max) == Parsed(Decimal(s[..n]) % max, n)
  {
    hide Digits, Decimal, BeginOf, Span;
    var n, z := Span(s, DIGITS), Span(s, "0");
    DecimalBegin(s);
    ZerosFirst(s);
    DecimalZeros(s[..z]);
    Divided(0, max);
    if z < |s| {
      DigitsMean(s, z, z > 0, 0, max);
    }
  }

  lemma DecimalBegin(s: string)
    ensures var z := Span(s, "0"); BeginOf(s, DECIMAL) == if z == |s| then Zero(|s|) else At(10, z)
  {
    hide Span;
  }

  lemma ZerosFirst(s: string)
    ensures Span(s, "0") <= Span(s, DIGITS) == Span(s, "0") + Span(s[Span(s, "0")..], DIGITS)
  {
    if s != [] && s[0] == '0' {
      ZerosFirst(s[1..]);
      assert s[1..][Span(s[1..], "0")..] == s[Span(s, "0")..];
    } else {
      assert s[0..] == s;
    }
  }

  // ---------------------------------------------------------------- numbers as they are written

  /** A decimal number as it is written. */
  predicate IsNum(t: string) {
    t != [] && forall i :: 0 <= i < |t| ==> t[i] in DIGITS
  }

  /** A number as it is written without zeros before it. */
  function Numeral(n: nat): (t: string)
    ensures IsNum(t)
  {
    DigitIs(('0' as int + n % 10) as char);
    var last := [('0' as int + n % 10) as char];
    if n < 10 then last else Numeral(n / 10) + last
  }

  lemma {:induction false} NumeralMeans(n: nat)
    ensures Decimal(Numeral(n)) == n
  {
    hide Decimal, Digit, Numeral;
    NumeralStep(n);
    var t := Numeral(n);
    var k := |t| - 1;
    assert t[..k + 1] == t;
    DecimalStep(t, k);
    if n >= 10 {
      NumeralMeans(n / 10);
    } else {
      DecimalZeros([]);
    }
  }

  lemma NumeralStep(n: nat)
    ensures var t := Numeral(n); var k := |t| - 1;
      t[..k] == (if n < 10 then [] else Numeral(n / 10)) && Digit(t[k], 10) == n % 10
  {
  }
}
