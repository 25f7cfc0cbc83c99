/**
 * The hex colour codec of lab1/static/script.js: `rgbToHex` with its inner `toHex`, and
 * `hexToRgb`. Components are JavaScript numbers; the model takes them as integers.
 */
module HexColor {
  import opened Wrappers

  /** The base-16 digit for a value below 16, lower case as `Number.prototype.toString` writes it. */
  function DigitChar(v: int): char
    requires 0 <= v < 16
  {
    if v < 10 then ('0' as int + v) as char else ('a' as int + v - 10) as char
  }

  /** `n.toString(16)` for a non-negative integer: lower-case digits, no leading zeros. */
  function HexDigits(n: nat): (r: string)
    ensures |r| >= 1
    ensures forall i :: 0 <= i < |r| ==> IsHexDigit(r[i]) && !('A' <= r[i] <= 'F')
    ensures |r| == 1 <==> n < 16
    ensures r[0] == '0' ==> n == 0
    decreases n
  {
    if n < 16 then [DigitChar(n)] else HexDigits(n / 16) + [DigitChar(n % 16)]
  }

  /** `n.toString(16)` for any integer: a minus sign before the digits of a negative number. */
  function ToString16(n: int): (r: string)
    ensures |r| >= 1
    ensures r[0] == '-' <==> n < 0
    ensures |r| == 1 <==> 0 <= n < 16
  {
    if n < 0 then "-" + HexDigits(-n) else HexDigits(n)
  }

  /** `toHex`: a one-character result is padded with a leading '0'. */
  function ToHex(n: int): (r: string)
    ensures |r| >= 2
    ensures r[0] == '-' <==> n < 0
    ensures r[0] == '0' <==> 0 <= n < 16
  {
    var hex := ToString16(n);
    if |hex| == 1 then "0" + hex else hex
  }

  /** `toUpperCase` on the characters that occur here: ASCII letters are raised, the rest kept. */
  function UpperChar(c: char): char
  {
    if 'a' <= c <= 'z' then (c as int - 32) as char else c
  }

  function ToUpper(s: string): (u: string)
    ensures |u| == |s| && forall i :: 0 <= i < |s| ==> u[i] == UpperChar(s[i])
  {
    seq(|s|, i requires 0 <= i < |s| => UpperChar(s[i]))
  }

  /** `rgbToHex`: '#' and the three padded components, with no lower-case letter left. */
  function RgbToHex(r: int, g: int, b: int): (s: string)
    ensures |s| >= 7 && s[0] == '#'
    ensures forall i :: 0 <= i < |s| ==> !('a' <= s[i] <= 'z')
  {
    ToUpper("#" + ToHex(r) + ToHex(g) + ToHex(b))
  }

  /** A character of the class `[a-f\d]` under the case-insensitive flag. */
  predicate IsHexDigit(c: char)
  {
    '0' <= c <= '9' || 'a' <= c <= 'f' || 'A' <= c <= 'F'
  }

  predicate IsUpperHexDigit(c: char)
  {
    '0' <= c <= '9' || 'A' <= c <= 'F'
  }

  predicate AllHex(s: string)
  {
    forall i :: 0 <= i < |s| ==> IsHexDigit(s[i])
  }

  function HexValue(c: char): (v: int)
    requires IsHexDigit(c)
    ensures 0 <= v < 16
  {
    if '0' <= c <= '9' then c as int - '0' as int
    else if 'a' <= c <= 'f' then c as int - 'a' as int + 10
    else c as int - 'A' as int + 10
  }

  /** `parseInt(pair, 16)` on two hex digits. */
  function ParseByte(hi: char, lo: char): (v: int)
    requires IsHexDigit(hi) && IsHexDigit(lo)
    ensures 0 <= v <= 255
  {
    16 * HexValue(hi) + HexValue(lo)
  }

  /**
   * The case-insensitive match of `^#?([a-f\d]{2})([a-f\d]{2})([a-f\d]{2})$`: on success,
   * the six captured digits (the three groups side by side).
   */
  function MatchHexColor(s: string): (m: Option<string>)
    ensures m.Some? <==> (|s| == 6 && AllHex(s)) || (|s| == 7 && s[0] == '#' && AllHex(s[1..]))
    ensures m.Some? ==> |s| >= 6 && m.value == s[|s| - 6..]
  {
    var digits := if |s| > 0 && s[0] == '#' then s[1..] else s;
    if |digits| == 6 && AllHex(digits) then Some(digits) else None
  }

  datatype Rgb = Rgb(r: int, g: int, b: int)

  /** `hexToRgb`: each captured pair read as a byte; black when the pattern does not match. */
  function HexToRgb(hex: string): (c: Rgb)
    ensures 0 <= c.r <= 255 && 0 <= c.g <= 255 && 0 <= c.b <= 255
    ensures MatchHexColor(hex).None? ==> c == Rgb(0, 0, 0)
  {
    match MatchHexColor(hex)
    case Some(d) => Rgb(ParseByte(d[0], d[1]), ParseByte(d[2], d[3]), ParseByte(d[4], d[5]))
    case None => Rgb(0, 0, 0)
  }

  lemma DigitRoundTrip(v: int)
    requires 0 <= v < 16
    ensures IsHexDigit(DigitChar(v)) && HexValue(DigitChar(v)) == v
    ensures IsUpperHexDigit(UpperChar(DigitChar(v)))
  {
  }

  lemma UpperValue(c: char)
    requires IsHexDigit(c)
    ensures IsHexDigit(UpperChar(c)) && HexValue(UpperChar(c)) == HexValue(c)
    ensures UpperChar(DigitChar(HexValue(c))) == UpperChar(c)
  {
  }

  /** `toHex` of a byte is exactly two lower-case digits, the high one first (padded with '0'). */
  lemma ToHexByte(n: int)
    requires 0 <= n <= 255
    ensures ToHex(n) == [DigitChar(n / 16), DigitChar(n % 16)]
  {
    if n >= 16 {
      assert HexDigits(n / 16) == [DigitChar(n / 16)];
    }
  }

  /** For a byte, `toHex` then `toUpperCase` gives two upper-case hex digits. */
  lemma UpperByte(n: int)
    requires 0 <= n <= 255
    ensures var t := ToUpper(ToHex(n));
            |t| == 2 && IsUpperHexDigit(t[0]) && IsUpperHexDigit(t[1])
  {
    ToHexByte(n);
    DigitRoundTrip(n / 16);
    DigitRoundTrip(n % 16);
  }

  /** For bytes, `rgbToHex` gives '#' followed by six upper-case hex digits. */
  lemma RgbToHexFormat(r: int, g: int, b: int)
    requires 0 <= r <= 255 && 0 <= g <= 255 && 0 <= b <= 255
    ensures var s := RgbToHex(r, g, b);
            |s| == 7 && s[0] == '#' && forall i :: 1 <= i < 7 ==> IsUpperHexDigit(s[i])
  {
    RgbToHexParts(r, g, b);
    UpperByte(r);
    UpperByte(g);
    UpperByte(b);
    var tr, tg, tb := ToUpper(ToHex(r)), ToUpper(ToHex(g)), ToUpper(ToHex(b));
    assert RgbToHex(r, g, b) == ['#', tr[0], tr[1], tg[0], tg[1], tb[0], tb[1]];
  }

  /** Writing two digits for a byte and reading them back gives the byte. */
  lemma ByteRoundTrip(n: int)
    requires 0 <= n <= 255
    ensures var t := ToUpper(ToHex(n));
            |t| == 2 && IsHexDigit(t[0]) && IsHexDigit(t[1]) && ParseByte(t[0], t[1]) == n
  {
    ToHexByte(n);
    DigitRoundTrip(n / 16);
    DigitRoundTrip(n % 16);
    UpperValue(DigitChar(n / 16));
    UpperValue(DigitChar(n % 16));
  }

  lemma UpperConcat(a: string, b: string)
    ensures ToUpper(a + b) == ToUpper(a) + ToUpper(b)
  {
  }

  /** A matching string decodes its six digits pairwise, with or without the '#'. */
  lemma DecodeDigits(d: string)
    requires |d| == 6 && AllHex(d)
    ensures HexToRgb(d) == HexToRgb("#" + d)
         == Rgb(ParseByte(d[0], d[1]), ParseByte(d[2], d[3]), ParseByte(d[4], d[5]))
  {
    assert ("#" + d)[1..] == d;
  }

  /** Three two-character strings side by side, with and without a leading '#'. */
  lemma ThreePairs(a: string, b: string, c: string)
    requires |a| == 2 && |b| == 2 && |c| == 2
    ensures a + b + c == [a[0], a[1], b[0], b[1], c[0], c[1]]
    ensures "#" + a + b + c == "#" + (a + b + c) == ['#', a[0], a[1], b[0], b[1], c[0], c[1]]
  {
  }

  lemma UpperSix(d: string)
    requires |d| == 6
    ensures ToUpper(d) == [UpperChar(d[0]), UpperChar(d[1]), UpperChar(d[2]),
                           UpperChar(d[3]), UpperChar(d[4]), UpperChar(d[5])]
  {
  }

  /** For bytes, the six characters after the '#' are hex digits that read back as the bytes. */
  lemma EncodeDigits(r: int, g: int, b: int)
    requires 0 <= r <= 255 && 0 <= g <= 255 && 0 <= b <= 255
    ensures var d := ToUpper(ToHex(r)) + ToUpper(ToHex(g)) + ToUpper(ToHex(b));
            && RgbToHex(r, g, b) == "#" + d
            && |d| == 6 && AllHex(d)
            && ParseByte(d[0], d[1]) == r && ParseByte(d[2], d[3]) == g && ParseByte(d[4], d[5]) == b
  {
    ByteRoundTrip(r);
    ByteRoundTrip(g);
    ByteRoundTrip(b);
    var tr, tg, tb := ToUpper(ToHex(r)), ToUpper(ToHex(g)), ToUpper(ToHex(b));
    RgbToHexParts(r, g, b);
    ThreePairs(tr, tg, tb);
  }

  /** Round trip: decoding an encoded colour gives the colour back. */
  lemma HexRoundTrip(r: int, g: int, b: int)
    requires 0 <= r <= 255 && 0 <= g <= 255 && 0 <= b <= 255
    ensures HexToRgb(RgbToHex(r, g, b)) == Rgb(r, g, b)
  {
    EncodeDigits(r, g, b);
    DecodeDigits(ToUpper(ToHex(r)) + ToUpper(ToHex(g)) + ToUpper(ToHex(b)));
  }

  /** Reading a pair and writing it back gives the same digits, raised to upper case. */
  lemma PairRoundTrip(hi: char, lo: char)
    requires IsHexDigit(hi) && IsHexDigit(lo)
    ensures ToUpper(ToHex(ParseByte(hi, lo))) == [UpperChar(hi), UpperChar(lo)]
  {
    var n := ParseByte(hi, lo);
    assert n / 16 == HexValue(hi) && n % 16 == HexValue(lo);
    ToHexByte(n);
    UpperValue(hi);
    UpperValue(lo);
  }

  /** `rgbToHex` upper-cases each component's digits separately. */
  lemma RgbToHexParts(r: int, g: int, b: int)
    ensures RgbToHex(r, g, b) == "#" + ToUpper(ToHex(r)) + ToUpper(ToHex(g)) + ToUpper(ToHex(b))
  {
    UpperConcat("#" + ToHex(r) + ToHex(g), ToHex(b));
    UpperConcat("#" + ToHex(r), ToHex(g));
    UpperConcat("#", ToHex(r));
  }

  /**
   * Reverse round trip: re-encoding a decoded colour gives '#' and the six matched digits
   * in upper case.
   */
  lemma HexReverseRoundTrip(s: string)
    requires MatchHexColor(s).Some?
    ensures RgbToHex(HexToRgb(s).r, HexToRgb(s).g, HexToRgb(s).b) == "#" + ToUpper(MatchHexColor(s).value)
  {
    var d := MatchHexColor(s).value;
    assert HexToRgb(s) == Rgb(ParseByte(d[0], d[1]), ParseByte(d[2], d[3]), ParseByte(d[4], d[5]));
    ReencodeDigits(d);
  }

  lemma ReencodeDigits(d: string)
    requires |d| == 6 && AllHex(d)
    ensures RgbToHex(ParseByte(d[0], d[1]), ParseByte(d[2], d[3]), ParseByte(d[4], d[5])) == "#" + ToUpper(d)
  {
    var p0, p1, p2 := ParseByte(d[0], d[1]), ParseByte(d[2], d[3]), ParseByte(d[4], d[5]);
    PairRoundTrip(d[0], d[1]);
    PairRoundTrip(d[2], d[3]);
    PairRoundTrip(d[4], d[5]);
    RgbToHexParts(p0, p1, p2);
    ThreePairs(ToUpper(ToHex(p0)), ToUpper(ToHex(p1)), ToUpper(ToHex(p2)));
    UpperSix(d);
  }

  /** The '#' is optional: six digits decode the same with or without it. */
  lemma HexOptionalHash(s: string)
    requires |s| == 6
    ensures HexToRgb("#" + s) == HexToRgb(s)
  {
    if AllHex(s) {
      DecodeDigits(s);
    } else {
      assert ("#" + s)[1..] == s;
    }
  }

  lemma UpperHexDigit(c: char)
    ensures IsHexDigit(UpperChar(c)) <==> IsHexDigit(c)
    ensures UpperChar(c) == '#' <==> c == '#'
  {
  }

  lemma AllHexUpper(s: string)
    ensures AllHex(ToUpper(s)) <==> AllHex(s)
  {
    forall i | 0 <= i < |s| {
      UpperHexDigit(s[i]);
    }
  }

  /** Letter case does not matter: raising the input to upper case leaves the decoded colour unchanged. */
  lemma HexCaseInsensitive(s: string)
    ensures HexToRgb(ToUpper(s)) == HexToRgb(s)
  {
    var u := ToUpper(s);
    if |s| > 0 {
      UpperHexDigit(s[0]);
      assert u[1..] == ToUpper(s[1..]);
      AllHexUpper(s[1..]);
    }
    AllHexUpper(s);
    if MatchHexColor(s).Some? {
      var d, e := MatchHexColor(s).value, MatchHexColor(u).value;
      assert e == ToUpper(d);
      UpperValue(d[0]);
      UpperValue(d[1]);
      UpperValue(d[2]);
      UpperValue(d[3]);
      UpperValue(d[4]);
      UpperValue(d[5]);
    }
  }
}
