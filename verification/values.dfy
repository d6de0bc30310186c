/**
 * Literal animation values: the decimal recogniser `is_float_str` with the
 * value `float()` reads from it, and the `#RRGGBB` colour form (section 4.2 of
 * SVG 1.1) recognised by `is_hex_color` and converted by `hex_to_rgb` and
 * `rgb_to_hex`.
 */
module Values {
  import opened Text

  predicate IsDigit(c: char) {
    '0' <= c <= '9'
  }

  predicate AllDigits(s: string) {
    forall i :: 0 <= i < |s| ==> IsDigit(s[i])
  }

  /** Length of the run of digits at the start of `s`. */
  function LeadingDigits(s: string): (n: nat)
    ensures n <= |s| && AllDigits(s[..n])
    ensures n < |s| ==> !IsDigit(s[n])
  {
    if s != [] && IsDigit(s[0]) then
      var m := LeadingDigits(s[1..]);
      assert s[..m + 1] == [s[0]] + s[1..][..m];
      m + 1
    else 0
  }

  /** The text after one optional leading minus sign. */
  function Unsigned(x: string): string {
    if x != [] && x[0] == '-' then x[1..] else x
  }

  /** `x` matches `^-?\d+(\.\d+)?$` as a whole. */
  predicate IsDecimal(x: string) {
    var b := Unsigned(x);
    var n := LeadingDigits(b);
    n >= 1 && (n == |b| || (b[n] == '.' && n + 1 < |b| && AllDigits(b[n + 1..])))
  }

  /** `is_float_str`: the stripped text is a decimal. */
  predicate IsFloatStr(s: string) {
    IsDecimal(Strip(s))
  }

  /** The digits before the decimal point. */
  function WholePart(x: string): (w: string)
    requires IsDecimal(x)
    ensures w != [] && AllDigits(w)
  {
    var b := Unsigned(x);
    b[..LeadingDigits(b)]
  }

  /** The digits after the decimal point; empty when there is no point. */
  function FractionPart(x: string): (f: string)
    requires IsDecimal(x)
    ensures AllDigits(f)
  {
    var b := Unsigned(x);
    var n := LeadingDigits(b);
    if n == |b| then "" else b[n + 1..]
  }

  function DigitValue(c: char): (v: nat)
    requires IsDigit(c)
    ensures v < 10
  {
    c as int - '0' as int
  }

  /** The natural number a run of decimal digits denotes. */
  function DigitsValue(ds: string): nat
    requires AllDigits(ds)
  {
    if ds == [] then 0 else 10 * DigitsValue(ds[..|ds| - 1]) + DigitValue(ds[|ds| - 1])
  }

  function Pow10(k: nat): (p: nat)
    ensures p >= 1
  {
    if k == 0 then 1 else 10 * Pow10(k - 1)
  }

  /** The number a decimal denotes, exactly. */
  function DecimalValue(x: string): real
    requires IsDecimal(x)
  {
    var f := FractionPart(x);
    var m := DigitsValue(WholePart(x)) as real + DigitsValue(f) as real / Pow10(|f|) as real;
    if x[0] == '-' then -m else m
  }

  /** `float(s)` for a string `is_float_str` accepts (float() strips whitespace itself). */
  function ParseFloat(s: string): real
    requires IsFloatStr(s)
  {
    DecimalValue(Strip(s))
  }

  /** The decimal text with an optional minus sign, whole digits and, when
      `fraction` is not empty, a point followed by the fraction digits. */
  function DecimalText(negative: bool, whole: string, fraction: string): string
    requires whole != [] && AllDigits(whole) && AllDigits(fraction)
  {
    (if negative then "-" else "") + whole + (if fraction == [] then "" else "." + fraction)
  }

  lemma {:induction false} LeadingDigitsOf(whole: string, rest: string)
    requires AllDigits(whole)
    requires rest == [] || !IsDigit(rest[0])
    ensures LeadingDigits(whole + rest) == |whole|
  {
    if whole != [] {
      assert (whole + rest)[1..] == whole[1..] + rest;
      LeadingDigitsOf(whole[1..], rest);
    } else {
      assert whole + rest == rest;
    }
  }

  /** What follows the whole digits: nothing, or a point and the fraction digits. */
  function FractionTail(fraction: string): string {
    if fraction == [] then "" else "." + fraction
  }

  lemma UnsignedDecimalText(whole: string, fraction: string)
    requires whole != [] && AllDigits(whole) && AllDigits(fraction)
    ensures var b := whole + FractionTail(fraction);
      && LeadingDigits(b) == |whole|
      && b[..|whole|] == whole
      && (fraction == [] ==> |b| == |whole|)
      && (fraction != [] ==> b[|whole|] == '.' && |whole| + 1 < |b| && b[|whole| + 1..] == fraction)
  {
    var b := whole + FractionTail(fraction);
    LeadingDigitsOf(whole, FractionTail(fraction));
    assert b[..|whole|] == whole;
    if fraction != [] {
      assert b[|whole| + 1..] == fraction;
    }
  }

  lemma SignOfDecimalText(negative: bool, whole: string, fraction: string)
    requires whole != [] && AllDigits(whole) && AllDigits(fraction)
    ensures var x := DecimalText(negative, whole, fraction);
      && Unsigned(x) == whole + FractionTail(fraction)
      && (x[0] == '-' <==> negative)
  {
    var x := DecimalText(negative, whole, fraction);
    var b := whole + FractionTail(fraction);
    if negative {
      assert x == "-" + b;
    } else {
      assert x == b && x[0] == whole[0];
    }
  }

  /** Every text built from the decimal grammar is recognised, and reading it
      recovers its sign, its whole digits and its fraction digits. */
  lemma DecimalTextRoundTrip(negative: bool, whole: string, fraction: string)
    requires whole != [] && AllDigits(whole) && AllDigits(fraction)
    ensures var x := DecimalText(negative, whole, fraction);
      && IsDecimal(x)
      && (x[0] == '-' <==> negative)
      && WholePart(x) == whole
      && FractionPart(x) == fraction
  {
    SignOfDecimalText(negative, whole, fraction);
    UnsignedDecimalText(whole, fraction);
  }

  /** A decimal text denotes its whole digits plus its fraction digits over
      the matching power of ten, negated when it carries the minus sign. */
  lemma DecimalValueOfText(negative: bool, whole: string, fraction: string)
    requires whole != [] && AllDigits(whole) && AllDigits(fraction)
    ensures var m := DigitsValue(whole) as real + DigitsValue(fraction) as real / Pow10(|fraction|) as real;
      DecimalValue(DecimalText(negative, whole, fraction)) == if negative then -m else m
  {
    DecimalTextRoundTrip(negative, whole, fraction);
  }

  /** Every recognised decimal is the text built from its own parts. */
  lemma DecimalTextComplete(x: string)
    requires IsDecimal(x)
    ensures x == DecimalText(x[0] == '-', WholePart(x), FractionPart(x))
  {
    var b := Unsigned(x);
    var n := LeadingDigits(b);
    if n == |b| {
      assert b == b[..n];
    } else {
      assert b == b[..n] + "." + b[n + 1..];
    }
    if x[0] == '-' {
      assert x == "-" + b;
    }
  }

  predicate IsHexDigit(c: char) {
    IsDigit(c) || 'a' <= c <= 'f' || 'A' <= c <= 'F'
  }

  function HexDigitValue(c: char): (v: nat)
    requires IsHexDigit(c)
    ensures v < 16
  {
    if IsDigit(c) then DigitValue(c)
    else if 'a' <= c <= 'f' then c as int - 'a' as int + 10
    else c as int - 'A' as int + 10
  }

  /** The lower-case hex digit `{:x}` writes for `v`. */
  function HexChar(v: nat): (c: char)
    requires v < 16
    ensures IsHexDigit(c) && HexDigitValue(c) == v && LowerChar(c) == c
  {
    if v < 10 then ('0' as int + v) as char else ('a' as int + v - 10) as char
  }

  /** `is_hex_color`: the stripped text is `#` and exactly six hex digits. */
  predicate IsHexColor(s: string) {
    var x := Strip(s);
    |x| == 7 && x[0] == '#' && forall i :: 1 <= i < 7 ==> IsHexDigit(x[i])
  }

  /** An RGB triple; a Python tuple of ints, so channels are unbounded. */
  datatype Rgb = Rgb(r: int, g: int, b: int)

  predicate InRange(c: Rgb) {
    0 <= c.r < 256 && 0 <= c.g < 256 && 0 <= c.b < 256
  }

  function HexPair(hi: char, lo: char): (v: nat)
    requires IsHexDigit(hi) && IsHexDigit(lo)
    ensures v < 256
  {
    16 * HexDigitValue(hi) + HexDigitValue(lo)
  }

  /** `hex_to_rgb`: two hex digits per channel after the `#` of the stripped text. */
  function HexToRgb(h: string): (c: Rgb)
    requires IsHexColor(h)
    ensures InRange(c)
  {
    var x := Strip(h);
    Rgb(HexPair(x[1], x[2]), HexPair(x[3], x[4]), HexPair(x[5], x[6]))
  }

  /** The shortest lower-case hexadecimal numeral of `n`. */
  function HexNumeral(n: nat): (s: string)
    ensures s != []
  {
    if n < 16 then [HexChar(n)] else HexNumeral(n / 16) + [HexChar(n % 16)]
  }

  /** `'{:02x}'.format(n)`: the shortest numeral, zero-padded to two
      characters, with a leading minus sign when negative. */
  function Hex2(n: int): (s: string)
    ensures 0 <= n < 256 ==> s == [HexChar(n / 16), HexChar(n % 16)]
  {
    if n < 0 then "-" + HexNumeral(-n)
    else if n < 256 then [HexChar(n / 16), HexChar(n % 16)]
    else HexNumeral(n)
  }

  /** `rgb_to_hex`. For channels in 0..255 the text is a lower-case colour that
      `is_hex_color` accepts. */
  function RgbToHex(c: Rgb): (h: string)
    ensures InRange(c) ==> IsHexColor(h) && Strip(h) == h && Lower(h) == h
  {
    var h := "#" + Hex2(c.r) + Hex2(c.g) + Hex2(c.b);
    assert InRange(c) ==> IsHexColor(h) && Strip(h) == h && Lower(h) == h by {
      if InRange(c) {
        assert h == ['#', HexChar(c.r / 16), HexChar(c.r % 16), HexChar(c.g / 16), HexChar(c.g % 16),
          HexChar(c.b / 16), HexChar(c.b % 16)];
        LowerHexColour(h);
      }
    }
    h
  }

  /** A `#` and six lower-case hex digits form a stripped, lower-case colour. */
  lemma LowerHexColour(h: string)
    requires |h| == 7 && h[0] == '#'
    requires forall i :: 1 <= i < 7 ==> IsHexDigit(h[i]) && LowerChar(h[i]) == h[i]
    ensures IsHexColor(h) && Strip(h) == h && Lower(h) == h
  {
    assert !IsSpace(h[0]) && !IsSpace(h[6]);
    StripUnchanged(h);
  }

  lemma HexPairText(hi: char, lo: char)
    requires IsHexDigit(hi) && IsHexDigit(lo)
    ensures Hex2(HexPair(hi, lo)) == [LowerChar(hi), LowerChar(lo)]
  {
    var v := HexPair(hi, lo);
    assert v / 16 == HexDigitValue(hi) && v % 16 == HexDigitValue(lo);
  }

  /** The two digits `{:02x}` writes for a byte read back as that byte. */
  lemma ChannelText(v: int)
    requires 0 <= v < 256
    ensures HexPair(HexChar(v / 16), HexChar(v % 16)) == v
  {
  }

  /** Reading a written colour gives the triple back. */
  lemma RgbHexRoundTrip(c: Rgb)
    requires InRange(c)
    ensures HexToRgb(RgbToHex(c)) == c
  {
    var h := RgbToHex(c);
    assert h == ['#', HexChar(c.r / 16), HexChar(c.r % 16), HexChar(c.g / 16), HexChar(c.g % 16),
      HexChar(c.b / 16), HexChar(c.b % 16)];
    assert Strip(h) == h;
    ChannelText(c.r);
    ChannelText(c.g);
    ChannelText(c.b);
    assert HexToRgb(h) == Rgb(HexPair(h[1], h[2]), HexPair(h[3], h[4]), HexPair(h[5], h[6]));
  }

  /** Writing a read colour gives its stripped, lower-cased text back. */
  lemma HexRgbRoundTrip(h: string)
    requires IsHexColor(h)
    ensures RgbToHex(HexToRgb(h)) == Lower(Strip(h))
  {
    var x := Strip(h);
    HexPairText(x[1], x[2]);
    HexPairText(x[3], x[4]);
    HexPairText(x[5], x[6]);
    var lx := Lower(x);
    assert lx == [LowerChar(x[0]), LowerChar(x[1]), LowerChar(x[2]), LowerChar(x[3]),
      LowerChar(x[4]), LowerChar(x[5]), LowerChar(x[6])];
  }
}
