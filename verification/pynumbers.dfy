/** Python's `int(str)` and `float(str)` as partial parsers over strings.

    Digits are the ASCII digits and the full-width digits U+FF10..U+FF19,
    which Python's `int` and `float` both accept. A finite `float` is kept
    as an exact decimal (no binary rounding); `inf`, `infinity` and `nan`
    are kept as their own values, because `float('nan')` succeeds in Python
    and only a later `int(...)` of it fails. */
module PyNumbers {
  import opened Wrappers
  import opened PyText

  predicate IsAsciiDigit(c: char)
  {
    '0' <= c <= '9'
  }

  predicate IsFullWidthDigit(c: char)
  {
    '０' <= c <= '９'
  }

  predicate IsDigit(c: char)
  {
    IsAsciiDigit(c) || IsFullWidthDigit(c)
  }

  /** The value of a digit: its code point's offset from `0` or from `０`. */
  function DigitValue(c: char): (d: nat)
    requires IsDigit(c)
    ensures d < 10
  {
    if IsAsciiDigit(c) then c as int - '0' as int else c as int - '０' as int
  }

  /** The full-width digit for `k`. */
  function FullWidthDigit(k: nat): (c: char)
    requires k < 10
    ensures IsFullWidthDigit(c) && IsDigit(c)
  {
    ('０' as int + k) as char
  }

  /** Each of the ten full-width digits converts to its own value 0..9. */
  lemma FullWidthDigitValues()
    ensures forall k :: 0 <= k < 10 ==> DigitValue(FullWidthDigit(k)) == k
    ensures forall c :: IsFullWidthDigit(c) ==> c == FullWidthDigit(DigitValue(c))
  {
  }

  function AsciiDigit(k: nat): (c: char)
    requires k < 10
    ensures IsAsciiDigit(c) && DigitValue(c) == k
  {
    ('0' as int + k) as char
  }

  predicate IsDigits(s: string)
  {
    forall k :: 0 <= k < |s| ==> IsDigit(s[k])
  }

  function Pow10(k: nat): (p: nat)
    ensures p >= 1
  {
    if k == 0 then 1 else 10 * Pow10(k - 1)
  }

  /** The base-ten value of a digit string (0 for the empty string). */
  function DigitsValue(s: string): nat
    requires IsDigits(s)
  {
    if s == [] then 0 else DigitsValue(s[..|s| - 1]) * 10 + DigitValue(s[|s| - 1])
  }

  lemma DigitsConcat(a: string, b: string)
    requires IsDigits(a) && IsDigits(b)
    ensures IsDigits(a + b)
  {
    forall k | 0 <= k < |a + b| ensures IsDigit((a + b)[k]) {
      if k < |a| {
        assert (a + b)[k] == a[k];
      } else {
        assert (a + b)[k] == b[k - |a|];
      }
    }
  }

  lemma ShiftDigit(x: int, p: int, y: int, z: int)
    ensures (x * p + y) * 10 + z == x * (p * 10) + (y * 10 + z)
  {
    calc {
      (x * p + y) * 10 + z;
      (x * p) * 10 + y * 10 + z;
      { assert (x * p) * 10 == x * (p * 10); }
      x * (p * 10) + (y * 10 + z);
    }
  }

  lemma {:induction false} DigitsValueConcat(a: string, b: string)
    requires IsDigits(a) && IsDigits(b)
    ensures IsDigits(a + b)
    ensures DigitsValue(a + b) == DigitsValue(a) * Pow10(|b|) + DigitsValue(b)
    decreases |b|
  {
    DigitsConcat(a, b);
    if b == [] {
      assert a + b == a;
    } else {
      var b' := b[..|b| - 1];
      var z := DigitValue(b[|b| - 1]);
      assert (a + b)[..|a + b| - 1] == a + b';
      assert (a + b)[|a + b| - 1] == b[|b| - 1];
      DigitsValueConcat(a, b');
      ShiftDigit(DigitsValue(a), Pow10(|b'|), DigitsValue(b'), z);
    }
  }

  /** The decimal representation of `n` in ASCII digits, without leading zeros. */
  function NatDigits(n: nat): (s: string)
    ensures |s| >= 1 && IsDigits(s)
    ensures forall k :: 0 <= k < |s| ==> IsAsciiDigit(s[k])
  {
    if n < 10 then [AsciiDigit(n)] else NatDigits(n / 10) + [AsciiDigit(n % 10)]
  }

  lemma {:induction false} NatDigitsValue(n: nat)
    ensures DigitsValue(NatDigits(n)) == n
  {
    if n >= 10 {
      NatDigitsValue(n / 10);
      var s := NatDigits(n);
      assert s[..|s| - 1] == NatDigits(n / 10);
    }
  }

  /** A number below `10^k` has at most `k` digits. */
  lemma {:induction false} NatDigitsLength(n: nat, k: nat)
    requires k >= 1 && n < Pow10(k)
    ensures |NatDigits(n)| <= k
  {
    if n >= 10 {
      NatDigitsLength(n / 10, k - 1);
    }
  }

  /** `s.zfill(width)` for a digit string: zeros added on the left. */
  function PadZeros(s: string, width: nat): (r: string)
    requires IsDigits(s)
    ensures IsDigits(r) && |r| >= width && |r| >= |s|
    ensures |s| <= width ==> |r| == width
    ensures DigitsValue(r) == DigitsValue(s)
    ensures |s| >= 1 && IsAsciiDigit(s[0]) ==> IsAsciiDigit(r[0])
    decreases width - |s|
  {
    if |s| >= width then s
    else
      DigitsValueConcat("0", s);
      assert DigitsValue("0") == 0 by { assert "0"[..0] == []; }
      PadZeros("0" + s, width)
  }

  function Abs(x: int): nat
  {
    if x < 0 then -x else x
  }

  /** A sign followed by at least one digit. */
  function SignedDigits(t: string): Option<int>
  {
    if t != [] && (t[0] == '+' || t[0] == '-') then
      var body := t[1..];
      if body != [] && IsDigits(body) then
        Some(if t[0] == '-' then -(DigitsValue(body) as int) else DigitsValue(body))
      else None
    else if t != [] && IsDigits(t) then Some(DigitsValue(t))
    else None
  }

  /** The whitespace `int()` and `float()` ignore around a number: C's
      ASCII whitespace (tab, line feed, vertical tab, form feed, carriage
      return, space) and every non-ASCII character `str.isspace()` accepts.
      The separators U+001C..U+001F, which `str.strip()` removes, are not
      among them. */
  predicate IsNumberSpace(c: char)
  {
    ('\t' <= c <= '\r') || c == ' ' || (c as int >= 128 && IsSpace(c))
  }

  /** Leading number whitespace dropped. */
  function NumberTrimStart(s: string): (r: string)
    ensures |r| <= |s| && r == s[|s| - |r|..]
    ensures r == [] || !IsNumberSpace(r[0])
    ensures forall k :: 0 <= k < |s| - |r| ==> IsNumberSpace(s[k])
  {
    if s != [] && IsNumberSpace(s[0]) then NumberTrimStart(s[1..]) else s
  }

  /** Trailing number whitespace dropped. */
  function NumberTrimEnd(s: string): (r: string)
    ensures |r| <= |s| && r == s[..|r|]
    ensures r == [] || !IsNumberSpace(r[|r| - 1])
    ensures forall k :: |r| <= k < |s| ==> IsNumberSpace(s[k])
  {
    if s != [] && IsNumberSpace(s[|s| - 1]) then NumberTrimEnd(s[..|s| - 1]) else s
  }

  /** The text `int()` and `float()` read: the argument without the number
      whitespace at either end. */
  function NumberStrip(s: string): string
  {
    NumberTrimEnd(NumberTrimStart(s))
  }

  /** A text whose ends are not number whitespace is read as it is. */
  lemma NumberStripKeeps(s: string)
    requires s == [] || (!IsNumberSpace(s[0]) && !IsNumberSpace(s[|s| - 1]))
    ensures NumberStrip(s) == s
  {
  }

  /** Number whitespace is whitespace to `str.strip()` too. */
  lemma NumberSpaceIsSpace(c: char)
    requires IsNumberSpace(c)
    ensures IsSpace(c)
  {
  }

  /** On a text without the separators U+001C..U+001F, `int()` and
      `float()` strip exactly what `str.strip()` strips. */
  lemma NumberStripAgrees(s: string)
    requires forall k :: 0 <= k < |s| ==> !('\U{1C}' <= s[k] <= '\U{1F}')
    ensures NumberStrip(s) == Strip(s)
  {
    NumberTrimStartAgrees(s);
    var t := TrimStart(s);
    assert forall k :: 0 <= k < |t| ==> t[k] == s[|s| - |t| + k];
    NumberTrimEndAgrees(t);
  }

  lemma {:induction false} NumberTrimStartAgrees(s: string)
    requires forall k :: 0 <= k < |s| ==> !('\U{1C}' <= s[k] <= '\U{1F}')
    ensures NumberTrimStart(s) == TrimStart(s)
  {
    if s != [] && IsSpace(s[0]) {
      assert forall k :: 0 <= k < |s[1..]| ==> s[1..][k] == s[k + 1];
      NumberTrimStartAgrees(s[1..]);
    }
  }

  lemma {:induction false} NumberTrimEndAgrees(s: string)
    requires forall k :: 0 <= k < |s| ==> !('\U{1C}' <= s[k] <= '\U{1F}')
    ensures NumberTrimEnd(s) == TrimEnd(s)
  {
    if s != [] && IsSpace(s[|s| - 1]) {
      NumberTrimEndAgrees(s[..|s| - 1]);
    }
  }

  /** `int()` does not skip a leading U+001C the way `str.strip()` does:
      `'\x1c1'.strip()` is `'1'`, but `int('\x1c1')` raises. */
  lemma SeparatorNotSkipped()
    ensures Strip("\U{1C}1") == "1"
    ensures ParseInt("\U{1C}1") == None
    ensures ParseFloat("\U{1C}2.3") == None
  {
    SeparatorStripped();
    SeparatorRejected();
    SeparatorFloatRejected();
  }

  lemma SeparatorFloatRejected()
    ensures ParseFloat("\U{1C}2.3") == None
  {
    var f := "\U{1C}2.3";
    assert f[0] == '\U{1C}' && f[|f| - 1] == '3';
    ParseFloatRejects(f);
  }

  lemma SeparatorRejected()
    ensures ParseInt("\U{1C}1") == None
  {
    var s := "\U{1C}1";
    assert s[0] == '\U{1C}' && s[|s| - 1] == '1';
    ParseIntRejects(s);
  }

  /** A text that starts with neither a sign, a digit nor number whitespace,
      and does not end in number whitespace, is no integer. */
  lemma ParseIntRejects(s: string)
    requires s != [] && s[0] != '+' && s[0] != '-' && !IsDigit(s[0])
    requires !IsNumberSpace(s[0]) && !IsNumberSpace(s[|s| - 1])
    ensures ParseInt(s) == None
  {
    NumberStripKeeps(s);
    SignedDigitsRejects(s);
  }

  lemma SeparatorStripped()
    ensures Strip("\U{1C}1") == "1"
  {
    var s := "\U{1C}1";
    var one := "1";
    assert s[1..] == one && IsSpace(s[0]) && !IsSpace(one[0]);
    assert TrimStart(s) == one;
  }

  /** A text that starts with neither a sign nor a digit is no integer. */
  lemma SignedDigitsRejects(t: string)
    requires t != [] && t[0] != '+' && t[0] != '-' && !IsDigit(t[0])
    ensures SignedDigits(t) == None
  {
  }

  /** Python's `int(s)` for a string: surrounding number whitespace is
      ignored, an optional sign, then one or more digits; anything else
      raises (None). */
  function ParseInt(s: string): Option<int>
  {
    SignedDigits(NumberStrip(s))
  }

  /** `str(n)` for an integer. */
  function IntString(n: int): (s: string)
    ensures |s| >= 1
  {
    if n < 0 then "-" + NatDigits(-n) else NatDigits(n)
  }

  lemma DigitNotSpace(c: char)
    requires IsDigit(c)
    ensures !IsSpace(c) && !IsNumberSpace(c)
  {
  }

  /** `int(s)` of a plain digit string is its base-ten value. */
  lemma ParseIntDigits(s: string)
    requires s != [] && IsDigits(s)
    ensures ParseInt(s) == Some(DigitsValue(s) as int)
    ensures SignedDigits(s) == Some(DigitsValue(s) as int)
  {
    DigitNotSpace(s[0]);
    DigitNotSpace(s[|s| - 1]);
    NumberStripKeeps(s);
  }

  /** `str(n)` is an optional minus sign and the digits of `|n|`. */
  lemma IntStringShape(n: int) returns (ds: string)
    ensures IntString(n) == (if n < 0 then "-" else "") + ds
    ensures |ds| >= 1 && IsDigits(ds) && IsAsciiDigit(ds[0]) && DigitsValue(ds) == Abs(n)
  {
    ds := NatDigits(Abs(n));
    NatDigitsValue(Abs(n));
  }

  /** `int(str(n)) == n`. */
  lemma {:induction false} ParseIntRoundTrip(n: int)
    ensures ParseInt(IntString(n)) == Some(n)
  {
    var ds := IntStringShape(n);
    var sign: string := if n < 0 then "-" else "";
    var s := sign + ds;
    DigitNotSpace(ds[|ds| - 1]);
    assert s[|s| - 1] == ds[|ds| - 1];
    if n < 0 {
      assert s[0] == '-';
      NumberStripKeeps(s);
      NegativeDigits(ds);
    } else {
      assert s == ds;
      ParseIntDigits(ds);
    }
  }

  lemma NegativeDigits(ds: string)
    requires |ds| >= 1 && IsDigits(ds)
    ensures SignedDigits("-" + ds) == Some(-(DigitsValue(ds) as int))
  {
    var s := "-" + ds;
    assert s[0] == '-' && s[1..] == ds;
  }

  /** An exact decimal number: `mantissa / 10^scale`. */
  datatype Decimal = Decimal(mantissa: int, scale: nat)

  /** A Python float as the model sees it: an exact finite decimal, an
      infinity or a NaN. (IEEE rounding and signed zero are not modelled.) */
  datatype PyFloat = Finite(value: Decimal) | Infinity(negative: bool) | NaN

  /** `0.0`. */
  const Zero: PyFloat := Finite(Decimal(0, 0))

  /** A decimal with no trailing zero after the point (`4`, `0.5`, never
      `4.0` or `0.50`): the one form of each number that the parser yields,
      so that equal floats are equal values of the model. */
  predicate Canonical(d: Decimal)
  {
    d.scale == 0 || d.mantissa % 10 != 0
  }

  /** `a` and `b` denote the same number. */
  predicate SameValue(a: Decimal, b: Decimal)
  {
    a.mantissa * Pow10(b.scale) == b.mantissa * Pow10(a.scale)
  }

  /** `d` with its trailing zeros after the point dropped. */
  function Normalize(d: Decimal): (r: Decimal)
    ensures Canonical(r) && r.scale <= d.scale
    ensures Canonical(d) ==> r == d
    decreases d.scale
  {
    if d.scale > 0 && d.mantissa % 10 == 0 then Normalize(Decimal(d.mantissa / 10, d.scale - 1))
    else d
  }

  lemma Pow10Add(i: nat, j: nat)
    ensures Pow10(i + j) == Pow10(i) * Pow10(j)
  {
    if i > 0 {
      Pow10Add(i - 1, j);
      assert Pow10(i + j) == 10 * (Pow10(i - 1) * Pow10(j));
    }
  }

  lemma Cancel(x: int, y: int, p: int)
    requires p > 0 && x * p == y * p
    ensures x == y
  {
    assert (x - y) * p == 0;
  }

  lemma DivUnique(x: int, d: int, q: int, r: int)
    requires d > 0 && x == d * q + r && 0 <= r < d
    ensures x / d == q
  {
    var q' := x / d;
    assert d * q + r == d * q' + x % d;
    if q' < q {
      MulAtLeast(d, q - q');
    } else if q < q' {
      MulAtLeast(d, q' - q);
    }
  }

  lemma MulAtLeast(d: int, k: int)
    requires d > 0 && k >= 1
    ensures d * k >= d
  {
  }

  /** Normalizing keeps the number. */
  lemma {:induction false} NormalizeSameValue(d: Decimal)
    ensures SameValue(Normalize(d), d)
    decreases d.scale
  {
    if d.scale > 0 && d.mantissa % 10 == 0 {
      var t := d.mantissa / 10;
      var r := Normalize(Decimal(t, d.scale - 1));
      NormalizeSameValue(Decimal(t, d.scale - 1));
      var p, pr := Pow10(d.scale - 1), Pow10(r.scale);
      assert r.mantissa * p == t * pr;
      assert Pow10(d.scale) == 10 * p && d.mantissa == 10 * t;
      assert r.mantissa * (10 * p) == (10 * t) * pr;
    }
  }

  /** Of two decimals with the same value, the one with more digits after
      the point has its mantissa scaled up by the difference. */
  lemma ScaleQuotient(a: Decimal, b: Decimal)
    requires SameValue(a, b) && a.scale <= b.scale
    ensures b.mantissa == a.mantissa * Pow10(b.scale - a.scale)
  {
    var pa, pk := Pow10(a.scale), Pow10(b.scale - a.scale);
    Pow10Add(a.scale, b.scale - a.scale);
    assert a.mantissa * (pa * pk) == b.mantissa * pa;
    assert (a.mantissa * pk) * pa == b.mantissa * pa;
    Cancel(a.mantissa * pk, b.mantissa, pa);
  }

  lemma TimesTenMod(y: int)
    ensures (10 * y) % 10 == 0
  {
    DivUnique(10 * y, 10, y, 0);
  }

  /** A decimal with more digits after the point than another of the same
      value ends in a zero. */
  lemma ExtraScaleDivisible(a: Decimal, b: Decimal)
    requires SameValue(a, b) && a.scale < b.scale
    ensures b.mantissa % 10 == 0
  {
    ScaleQuotient(a, b);
    var k := b.scale - a.scale;
    assert Pow10(k) == 10 * Pow10(k - 1);
    assert b.mantissa == 10 * (a.mantissa * Pow10(k - 1));
    TimesTenMod(a.mantissa * Pow10(k - 1));
  }

  /** Each number has one canonical decimal. */
  lemma CanonicalUnique(a: Decimal, b: Decimal)
    requires Canonical(a) && Canonical(b) && SameValue(a, b)
    ensures a == b
  {
    if a.scale < b.scale {
      ExtraScaleDivisible(a, b);
    } else if b.scale < a.scale {
      ExtraScaleDivisible(b, a);
    } else {
      Cancel(a.mantissa, b.mantissa, Pow10(a.scale));
    }
  }

  lemma SameValueTransitive(a: Decimal, b: Decimal, c: Decimal)
    requires SameValue(a, b) && SameValue(b, c)
    ensures SameValue(a, c)
  {
    var pa, pb, pc := Pow10(a.scale), Pow10(b.scale), Pow10(c.scale);
    calc {
      (a.mantissa * pc) * pb;
      (a.mantissa * pb) * pc;
      (b.mantissa * pa) * pc;
      (b.mantissa * pc) * pa;
      (c.mantissa * pb) * pa;
      (c.mantissa * pa) * pb;
    }
    Cancel(a.mantissa * pc, c.mantissa * pa, pb);
  }

  /** Decimals of the same value normalize alike. */
  lemma NormalizeByValue(a: Decimal, b: Decimal)
    requires SameValue(a, b)
    ensures Normalize(a) == Normalize(b)
  {
    var na, nb := Normalize(a), Normalize(b);
    NormalizeSameValue(a);
    NormalizeSameValue(b);
    SameValueTransitive(na, a, b);
    SameValueTransitive(na, b, nb);
    CanonicalUnique(na, nb);
  }

  /** Length of the leading run of digits. */
  function SpanDigits(s: string): (n: nat)
    ensures n <= |s| && IsDigits(s[..n])
    ensures n == |s| || !IsDigit(s[n])
  {
    if s != [] && IsDigit(s[0]) then
      var n := 1 + SpanDigits(s[1..]);
      assert s[..n] == [s[0]] + s[1..][..n - 1];
      n
    else 0
  }

  lemma SpanDigitsOf(a: string, b: string)
    requires IsDigits(a)
    requires b == [] || !IsDigit(b[0])
    ensures SpanDigits(a + b) == |a|
  {
    assert forall k :: 0 <= k < |a| ==> (a + b)[k] == a[k];
    assert b != [] ==> (a + b)[|a|] == b[0];
  }

  /** `m * 10^e` as a decimal; a non-negative exponent is multiplied out. */
  function Scaled(m: nat, e: int): Decimal
  {
    if e >= 0 then Decimal(m * Pow10(e), 0) else Decimal(m, -e)
  }

  /** An optional exponent part: empty, or `e`/`E` then a signed integer. */
  function Exponent(s: string): Option<int>
  {
    if s == [] then Some(0)
    else if s[0] == 'e' || s[0] == 'E' then SignedDigits(s[1..])
    else None
  }

  /** An unsigned decimal literal: digits, an optional point followed by
      optional digits, at least one digit in all, then an optional exponent. */
  function UnsignedDecimal(s: string): Option<Decimal>
  {
    var i := SpanDigits(s);
    AfterWhole(s[..i], s[i..])
  }

  /** The part after the whole digits: an optional point and fraction digits. */
  function AfterWhole(whole: string, rest: string): Option<Decimal>
    requires IsDigits(whole)
  {
    if rest != [] && rest[0] == '.' then
      var j := SpanDigits(rest[1..]);
      AfterFraction(whole, rest[1..][..j], rest[1..][j..])
    else AfterFraction(whole, [], rest)
  }

  /** At least one digit before the exponent, then the exponent. */
  function AfterFraction(whole: string, frac: string, tail: string): Option<Decimal>
    requires IsDigits(whole) && IsDigits(frac)
  {
    if whole == [] && frac == [] then None
    else
      match Exponent(tail)
      case None => None
      case Some(e) =>
        DigitsConcat(whole, frac);
        Some(Scaled(DigitsValue(whole + frac), e - |frac|))
  }

  /** A text that starts with none of a sign, a digit, a point, a letter or
      number whitespace, and does not end in number whitespace, is no float. */
  lemma ParseFloatRejects(s: string)
    requires s != [] && s[0] != '+' && s[0] != '-' && s[0] != '.' && !IsDigit(s[0])
    requires !('A' <= s[0] <= 'Z') && !('a' <= s[0] <= 'z')
    requires !IsNumberSpace(s[0]) && !IsNumberSpace(s[|s| - 1])
    ensures ParseFloat(s) == None
  {
    NumberStripKeeps(s);
    UnsignedFloatRejects(false, s);
  }

  lemma UnsignedFloatRejects(negative: bool, body: string)
    requires body != [] && body[0] != '.' && !IsDigit(body[0])
    requires !('A' <= body[0] <= 'Z') && body[0] != 'i' && body[0] != 'n'
    ensures UnsignedFloat(negative, body) == None
  {
    var word := LowerAscii(body);
    assert word[0] == body[0];
    assert word != "inf" && word != "infinity" && word != "nan" by {
      assert "inf"[0] == 'i' && "infinity"[0] == 'i' && "nan"[0] == 'n';
    }
    assert SpanDigits(body) == 0;
    assert body[..0] == [] && body[0..] == body;
  }

  /** Python's `float(s)` for a string: surrounding whitespace ignored, an
      optional sign, then `inf`, `infinity` or `nan` in any case, or a decimal
      literal; anything else raises (None). */
  function ParseFloat(s: string): (r: Option<PyFloat>)
    ensures r.Some? && r.value.Finite? ==> Canonical(r.value.value)
  {
    SignedFloat(NumberStrip(s))
  }

  function SignedFloat(t: string): (r: Option<PyFloat>)
    ensures r.Some? && r.value.Finite? ==> Canonical(r.value.value)
  {
    if t != [] && (t[0] == '+' || t[0] == '-') then UnsignedFloat(t[0] == '-', t[1..])
    else UnsignedFloat(false, t)
  }

  function UnsignedFloat(negative: bool, body: string): (r: Option<PyFloat>)
    ensures r.Some? && r.value.Finite? ==> Canonical(r.value.value)
  {
    var word := LowerAscii(body);
    if word == "inf" || word == "infinity" then Some(Infinity(negative))
    else if word == "nan" then Some(NaN)
    else
      match UnsignedDecimal(body)
      case None => None
      case Some(d) =>
        var n := Normalize(d);
        Some(Finite(if negative then Negate(n) else n))
  }

  /** `-d`. */
  function Negate(d: Decimal): (r: Decimal)
    ensures Canonical(r) <==> Canonical(d)
  {
    var r := Decimal(-d.mantissa, d.scale);
    assert d.mantissa % 10 == 0 <==> r.mantissa % 10 == 0 by {
      if d.mantissa % 10 == 0 {
        TimesTenMod(-(d.mantissa / 10));
      }
      if r.mantissa % 10 == 0 {
        TimesTenMod(-(r.mantissa / 10));
      }
    }
    r
  }

  /** Python's `int(x)` of a finite float: truncation toward zero. */
  function Truncate(d: Decimal): int
  {
    if d.mantissa >= 0 then d.mantissa / Pow10(d.scale)
    else -((-d.mantissa) / Pow10(d.scale))
  }

  /** The canonical text of a decimal: `-` for a negative mantissa, the
      digits, and a point before the last `scale` digits (`1.5`, `0.05`, `12`). */
  function FormatDecimal(d: Decimal): (s: string)
    ensures |s| >= 1
  {
    (if d.mantissa < 0 then "-" else "") + PointedDigits(Abs(d.mantissa), d.scale)
  }

  /** The digits of `m`, zero-padded to more than `k` digits, with a point
      before the last `k` of them when `k > 0`. */
  function PointedDigits(m: nat, k: nat): (s: string)
    ensures |s| >= 1
  {
    var digits := PadZeros(NatDigits(m), k + 1);
    if k == 0 then digits else digits[..|digits| - k] + "." + digits[|digits| - k..]
  }

  /** A digit string alone reads as a whole number. */
  lemma UnsignedWhole(w: string)
    requires |w| >= 1 && IsDigits(w)
    ensures UnsignedDecimal(w) == Some(Decimal(DigitsValue(w), 0))
  {
    SpanDigitsOf(w, []);
    assert w[..|w|] == w && w[|w|..] == [];
    assert w + [] == w;
  }

  /** `w.f` reads as the digits of `w` and `f` over `10^|f|`. */
  lemma UnsignedPoint(w: string, f: string)
    requires |w| >= 1 && IsDigits(w) && |f| >= 1 && IsDigits(f)
    ensures UnsignedDecimal(w + "." + f) == Some(Decimal(DigitsValue(w + f), |f|))
  {
    var s := w + "." + f;
    SpanDigitsOf(w, "." + f);
    assert s == w + ("." + f);
    assert s[..|w|] == w && s[|w|..] == "." + f;
    assert ("." + f)[1..] == f;
    SpanDigitsOf(f, []);
    assert f[..|f|] == f && f[|f|..] == [];
    assert AfterWhole(w, "." + f) == AfterFraction(w, f, []);
  }

  /** The zero-padded digits of `m`, cut before their last `k` digits. */
  lemma PaddedDigits(m: nat, k: nat) returns (w: string, f: string)
    ensures PadZeros(NatDigits(m), k + 1) == w + f
    ensures |w| >= 1 && |f| == k && IsDigits(w) && IsDigits(f) && IsAsciiDigit(w[0])
    ensures IsDigits(w + f) && DigitsValue(w + f) == m
  {
    var digits := PadZeros(NatDigits(m), k + 1);
    NatDigitsValue(m);
    w := digits[..|digits| - k];
    f := digits[|digits| - k..];
    assert w + f == digits;
  }

  /** The unsigned part of a canonical text reads back as `m / 10^k`. */
  lemma PointedDigitsParse(m: nat, k: nat)
    ensures var body := PointedDigits(m, k);
      IsAsciiDigit(body[0]) && IsDigit(body[|body| - 1])
      && UnsignedDecimal(body) == Some(Decimal(m, k))
  {
    var w, f := PaddedDigits(m, k);
    var body;
    if k == 0 {
      body := WholeBody(w, f);
    } else {
      body := PointBody(w, f);
    }
    assert body == PointedDigits(m, k);
  }

  lemma WholeBody(w: string, f: string) returns (body: string)
    requires |w| >= 1 && f == [] && IsDigits(w) && IsAsciiDigit(w[0])
    ensures body == w + f
    ensures |body| >= 1 && IsAsciiDigit(body[0]) && IsDigit(body[|body| - 1])
    ensures UnsignedDecimal(body) == Some(Decimal(DigitsValue(w), 0))
  {
    assert w + f == w;
    body := w;
    UnsignedWhole(w);
  }

  lemma PointBody(w: string, f: string) returns (body: string)
    requires |w| >= 1 && |f| >= 1 && IsDigits(w) && IsDigits(f) && IsAsciiDigit(w[0])
    ensures IsDigits(w + f)
    ensures body == (w + f)[..|w + f| - |f|] + "." + (w + f)[|w + f| - |f|..]
    ensures |body| >= 1 && IsAsciiDigit(body[0]) && IsDigit(body[|body| - 1])
    ensures UnsignedDecimal(body) == Some(Decimal(DigitsValue(w + f), |f|))
  {
    DigitsConcat(w, f);
    assert (w + f)[..|w + f| - |f|] == w && (w + f)[|w + f| - |f|..] == f;
    body := w + "." + f;
    UnsignedPoint(w, f);
    assert body[0] == w[0] && body[|body| - 1] == f[|f| - 1];
  }

  /** A text starting with a digit is read as a decimal literal, not a word. */
  lemma DigitFirstFloat(negative: bool, body: string, d: Decimal)
    requires |body| >= 1 && IsAsciiDigit(body[0])
    requires UnsignedDecimal(body) == Some(d)
    ensures UnsignedFloat(negative, body) == Some(Finite(if negative then Negate(Normalize(d)) else Normalize(d)))
  {
    var word := LowerAscii(body);
    assert word[0] == body[0];
    assert word != "inf" && word != "infinity" && word != "nan" by {
      assert "inf"[0] == 'i' && "infinity"[0] == 'i' && "nan"[0] == 'n';
    }
  }

  /** A sign and a text that starts and ends with digits has nothing to strip. */
  lemma StripSignedDigits(s: string, body: string, negative: bool)
    requires |body| >= 1 && IsAsciiDigit(body[0]) && IsDigit(body[|body| - 1])
    requires s == (if negative then "-" else "") + body
    ensures NumberStrip(s) == s
  {
    DigitNotSpace(body[|body| - 1]);
    assert s[|s| - 1] == body[|body| - 1];
    if !negative {
      DigitNotSpace(body[0]);
    }
    NumberStripKeeps(s);
  }

  /** A leading minus sign negates the decimal read after it. */
  lemma SignedDecimal(s: string, body: string, negative: bool, d: Decimal)
    requires |body| >= 1 && IsAsciiDigit(body[0])
    requires s == (if negative then "-" else "") + body
    requires UnsignedDecimal(body) == Some(d)
    ensures SignedFloat(s) == Some(Finite(if negative then Negate(Normalize(d)) else Normalize(d)))
  {
    DigitFirstFloat(negative, body, d);
    if negative {
      assert s[0] == '-' && s[1..] == body;
    } else {
      assert s == body && s[0] != '+' && s[0] != '-';
    }
  }

  lemma ParseFloatStripped(s: string)
    requires NumberStrip(s) == s
    ensures ParseFloat(s) == SignedFloat(s)
  {
  }

  /** A canonical text starts with a minus sign or an ASCII digit. */
  lemma FormatDecimalHead(d: Decimal)
    ensures var s := FormatDecimal(d); s[0] == '-' || IsAsciiDigit(s[0])
    ensures var s := FormatDecimal(d); s[0] == '-' ==> |s| >= 2
  {
    PointedDigitsParse(Abs(d.mantissa), d.scale);
  }

  /** `float("")` raises. */
  lemma ParseFloatEmpty()
    ensures ParseFloat("") == None
  {
    NumberStripKeeps("");
    assert LowerAscii("") == "";
  }

  /** `float("nan")` is NaN (so is any capitalisation of it). */
  lemma ParseFloatNaN()
    ensures ParseFloat("nan") == Some(NaN)
  {
    var s := "nan";
    NumberStripKeeps(s);
    LowerNaN();
    assert s != "inf" && s != "infinity" by {
      assert s[0] != "inf"[0] && |s| != |"infinity"|;
    }
  }

  lemma LowerNaN()
    ensures LowerAscii("nan") == "nan"
  {
    var s := "nan";
    var r := LowerAscii(s);
    assert r[0] == s[0] && r[1] == s[1] && r[2] == s[2];
  }

  /** `float(s)` reads back the number a canonical text was made from, in
      its canonical form. */
  lemma ParseFloatRoundTrip(d: Decimal)
    ensures ParseFloat(FormatDecimal(d)) == Some(Finite(Normalize(d)))
  {
    FormatStripped(d);
    if d.mantissa < 0 {
      NegativeParse(d);
      NegativeNormalize(d);
    } else {
      NonNegativeParse(d);
    }
  }

  /** A canonical text has nothing to strip. */
  lemma FormatStripped(d: Decimal)
    ensures ParseFloat(FormatDecimal(d)) == SignedFloat(FormatDecimal(d))
  {
    var body := PointedDigits(Abs(d.mantissa), d.scale);
    PointedDigitsParse(Abs(d.mantissa), d.scale);
    StripSignedDigits(FormatDecimal(d), body, d.mantissa < 0);
    ParseFloatStripped(FormatDecimal(d));
  }

  lemma NonNegativeParse(d: Decimal)
    requires d.mantissa >= 0
    ensures SignedFloat(FormatDecimal(d)) == Some(Finite(Normalize(d)))
  {
    var body := PointedDigits(d.mantissa, d.scale);
    PointedDigitsParse(d.mantissa, d.scale);
    assert Decimal(d.mantissa, d.scale) == d;
    assert FormatDecimal(d) == body;
    SignedDecimal(body, body, false, d);
  }

  lemma NegativeParse(d: Decimal)
    requires d.mantissa < 0
    ensures SignedFloat(FormatDecimal(d)) == Some(Finite(Negate(Normalize(Decimal(-d.mantissa, d.scale)))))
  {
    var m: nat := -d.mantissa;
    PointedDigitsParse(m, d.scale);
    NegativeText(d, PointedDigits(m, d.scale), Decimal(m, d.scale));
  }

  lemma NegativeText(d: Decimal, body: string, a: Decimal)
    requires d.mantissa < 0 && body == PointedDigits(-d.mantissa, d.scale)
    requires |body| >= 1 && IsAsciiDigit(body[0]) && UnsignedDecimal(body) == Some(a)
    ensures SignedFloat(FormatDecimal(d)) == Some(Finite(Negate(Normalize(a))))
  {
    NegativeFormat(d);
    SignedDecimal("-" + body, body, true, a);
  }

  lemma NegativeFormat(d: Decimal)
    requires d.mantissa < 0
    ensures FormatDecimal(d) == "-" + PointedDigits(-d.mantissa, d.scale)
  {
    var m := d.mantissa;
    var p := PointedDigits(Abs(m), d.scale);
    assert Abs(m) == -m;
    assert p == PointedDigits(-m, d.scale);
    assert FormatDecimal(d) == "-" + p;
  }

  /** The canonical form of a negative decimal is that of its magnitude,
      negated. */
  lemma NegativeNormalize(d: Decimal)
    requires d.mantissa < 0
    ensures Normalize(d) == Negate(Normalize(Decimal(-d.mantissa, d.scale)))
  {
    var a := Decimal(-d.mantissa, d.scale);
    NormalizeNegate(a);
    assert Negate(a) == d;
  }

  /** Texts of the same number (`4`, `4.0`, `4.00`) read as the same float. */
  lemma ParseFloatByValue(a: Decimal, b: Decimal)
    requires SameValue(a, b)
    ensures ParseFloat(FormatDecimal(a)) == ParseFloat(FormatDecimal(b))
  {
    ParseFloatRoundTrip(a);
    ParseFloatRoundTrip(b);
    NormalizeByValue(a, b);
  }

  /** Negation commutes with normalization. */
  lemma NormalizeNegate(d: Decimal)
    ensures Normalize(Negate(d)) == Negate(Normalize(d))
  {
    var n := Normalize(d);
    NormalizeSameValue(d);
    NormalizeSameValue(Negate(d));
    assert SameValue(Negate(n), Negate(d));
    NormalizeByValue(Negate(n), Negate(d));
  }

  /** `(10 t) / (10 p) == t / p`. */
  lemma DivTen(t: nat, p: int)
    requires p > 0
    ensures (10 * t) / (10 * p) == t / p
  {
    var q, r := t / p, t % p;
    assert 10 * t == (10 * p) * q + 10 * r;
    DivUnique(10 * t, 10 * p, q, 10 * r);
  }

  /** Dropping a trailing zero after the point keeps the truncation. */
  lemma TruncateStep(m: int, s: nat)
    requires s > 0 && m % 10 == 0
    ensures Truncate(Decimal(m / 10, s - 1)) == Truncate(Decimal(m, s))
  {
    var t, p := m / 10, Pow10(s - 1);
    assert m == 10 * t && Pow10(s) == 10 * p;
    if m >= 0 {
      DivTen(t, p);
    } else {
      assert -m == 10 * -t;
      DivTen(-t, p);
    }
  }

  /** `int(x)` does not depend on the trailing zeros of `x`. */
  lemma {:induction false} TruncateNormalize(d: Decimal)
    ensures Truncate(Normalize(d)) == Truncate(d)
    decreases d.scale
  {
    if d.scale > 0 && d.mantissa % 10 == 0 {
      TruncateNormalize(Decimal(d.mantissa / 10, d.scale - 1));
      TruncateStep(d.mantissa, d.scale);
    }
  }
}
