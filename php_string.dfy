/**
 * The PHP 8 string conversions the handlers rely on: printing an int, the
 * `(int)` cast of a request parameter, the loose comparison `$s == '1'`,
 * `strtolower` and `htmlspecialchars` with their default flags.
 */
module PhpString {
  import opened Wrappers

  /** PHP_INT_MAX and PHP_INT_MIN on a 64-bit build. */
  const IntMax: int := 0x7fff_ffff_ffff_ffff
  const IntMin: int := -0x8000_0000_0000_0000

  predicate IsDigit(c: char) { '0' <= c <= '9' }

  predicate AllDigits(s: string) { forall i :: 0 <= i < |s| ==> IsDigit(s[i]) }

  function DigitChar(d: nat): (c: char)
    requires d < 10
    ensures IsDigit(c)
  {
    ('0' as int + d) as char
  }

  function DigitValue(c: char): (d: nat)
    requires IsDigit(c)
    ensures d < 10
  {
    c as int - '0' as int
  }

  // ---------------------------------------------------------------------
  // Printing an int: `echo $i`, `'...' . $i`, `htmlspecialchars($i)`
  // ---------------------------------------------------------------------

  /** Decimal digits of n, most significant first, without leading zeros. */
  function NatToString(n: nat): (s: string)
    ensures |s| > 0 && AllDigits(s)
    ensures n > 0 ==> s[0] != '0'
    decreases n
  {
    if n < 10 then [DigitChar(n)] else NatToString(n / 10) + [DigitChar(n % 10)]
  }

  /** PHP's string form of an int: a minus sign for negative values, then the digits. */
  function IntToString(i: int): (s: string)
    ensures i >= 0 ==> s == NatToString(i)
    ensures i < 0 ==> s == "-" + NatToString(-i)
  {
    if i < 0 then "-" + NatToString(-i) else NatToString(i)
  }

  /** The number a string of decimal digits denotes. */
  function DigitsValue(s: string): nat
    requires AllDigits(s)
  {
    if s == [] then 0 else DigitsValue(s[..|s| - 1]) * 10 + DigitValue(s[|s| - 1])
  }

  lemma {:induction false} DigitsValueOfNatToString(n: nat)
    ensures DigitsValue(NatToString(n)) == n
    decreases n
  {
    var s := NatToString(n);
    if n >= 10 {
      DigitsValueOfNatToString(n / 10);
      assert s[..|s| - 1] == NatToString(n / 10);
    } else {
      assert s[..|s| - 1] == [];
    }
  }

  // ---------------------------------------------------------------------
  // Numeric strings (PHP 8): leading whitespace, a sign, digits with an
  // optional fraction, an optional exponent, trailing whitespace.
  // ---------------------------------------------------------------------

  /** The whitespace PHP allows around a numeric string: " \t\n\r\v\f". */
  predicate IsSpace(c: char) {
    c == ' ' || c == '\t' || c == '\n' || c == '\r' || c as int == 11 || c as int == 12
  }

  /** The first index at or after i that is not whitespace. */
  function SpaceRun(s: string, i: nat): (j: nat)
    requires i <= |s|
    ensures i <= j <= |s|
    ensures forall k :: i <= k < j ==> IsSpace(s[k])
    ensures j < |s| ==> !IsSpace(s[j])
    decreases |s| - i
  {
    if i < |s| && IsSpace(s[i]) then SpaceRun(s, i + 1) else i
  }

  /** The first index at or after i that is not a digit. */
  function DigitRun(s: string, i: nat): (j: nat)
    requires i <= |s|
    ensures i <= j <= |s|
    ensures forall k :: i <= k < j ==> IsDigit(s[k])
    ensures j < |s| ==> !IsDigit(s[j])
    decreases |s| - i
  {
    if i < |s| && IsDigit(s[i]) then DigitRun(s, i + 1) else i
  }

  /**
   * A decimal number read from the front of a string: its value is
   * (-1 if negative) * mantissa * 10^exponent, and `end` is the length of
   * the numeric prefix.
   */
  datatype Numeral = Numeral(negative: bool, mantissa: nat, exponent: int, end: nat)

  /** An exponent `e`/`E`, an optional sign and at least one digit, starting at i: (exponent, end). */
  function ExponentPart(s: string, i: nat): (r: (int, nat))
    requires i <= |s|
    ensures i <= r.1 <= |s|
  {
    if i < |s| && (s[i] == 'e' || s[i] == 'E') then
      var j := if i + 1 < |s| && (s[i + 1] == '+' || s[i + 1] == '-') then i + 2 else i + 1;
      var k := DigitRun(s, j);
      if k == j then (0, i)
      else
        var v: int := DigitsValue(s[j..k]);
        (if j == i + 2 && s[i + 1] == '-' then -v else v, k)
    else (0, i)
  }

  /** The longest numeric prefix of s (after leading whitespace), if it has one. */
  function NumericPrefix(s: string): (r: Option<Numeral>)
    ensures r.Some? ==> r.value.end <= |s|
  {
    var a := SpaceRun(s, 0);
    var b := if a < |s| && (s[a] == '+' || s[a] == '-') then a + 1 else a;
    var c := DigitRun(s, b);
    var f := if c < |s| && s[c] == '.' then c + 1 else c;
    var d := DigitRun(s, f);
    if c == b && d == f then None
    else
      assert AllDigits(s[b..c] + s[f..d]) by {
        var t := s[b..c] + s[f..d];
        forall i | 0 <= i < |t|
          ensures IsDigit(t[i])
        {
          if i < c - b {
            assert t[i] == s[b + i];
          } else {
            assert t[i] == s[f + (i - (c - b))];
          }
        }
      }
      var e := ExponentPart(s, d);
      Some(Numeral(b == a + 1 && s[a] == '-', DigitsValue(s[b..c] + s[f..d]), e.0 - (d - f), e.1))
  }

  /** A whole numeric string: its numeric prefix followed by whitespace only. */
  predicate IsNumeric(s: string) {
    NumericPrefix(s).Some? && SpaceRun(s, NumericPrefix(s).value.end) == |s|
  }

  function Pow10(k: nat): (r: nat)
    ensures r > 0
  {
    if k == 0 then 1 else 10 * Pow10(k - 1)
  }

  /** The value of a numeral rounded toward zero. */
  function Truncate(n: Numeral): int {
    var magnitude :=
      if n.exponent >= 0 then n.mantissa * Pow10(n.exponent)
      else n.mantissa / Pow10(-n.exponent);
    if n.negative then -magnitude else magnitude
  }

  /** Clamping to the 64-bit range, as PHP does when a numeric string overflows an int. */
  function Saturate(i: int): (r: int)
    ensures IntMin <= r <= IntMax
    ensures IntMin <= i <= IntMax ==> r == i
    ensures i > IntMax ==> r == IntMax
    ensures i < IntMin ==> r == IntMin
  {
    if i < IntMin then IntMin else if i > IntMax then IntMax else i
  }

  /**
   * PHP's `(int)$s`: the leading numeric part of s, rounded toward zero and
   * clamped to 64 bits; 0 when s does not start with a number.
   */
  function ToInt(s: string): (i: int)
    ensures IntMin <= i <= IntMax
    ensures NumericPrefix(s).None? ==> i == 0
  {
    match NumericPrefix(s)
    case None => 0
    case Some(n) => Saturate(Truncate(n))
  }

  /** The numeral denotes exactly one. */
  predicate NumeralIsOne(n: Numeral) {
    && !n.negative
    && if n.exponent >= 0 then n.mantissa * Pow10(n.exponent) == 1
       else n.mantissa == Pow10(-n.exponent)
  }

  /**
   * PHP 8's loose comparison `$s == '1'`: '1' is numeric, so a numeric s is
   * compared by value and any other s as a string. The value is compared as
   * an exact decimal, where PHP compares a non-integer numeral as a double.
   */
  function LooselyEqualsOne(s: string): (b: bool)
    ensures b <==> IsNumeric(s) && NumeralIsOne(NumericPrefix(s).value)
    ensures b ==> ToInt(s) == 1
  {
    assert "1"[0..1] + "1"[1..1] == "1";
    assert NumericPrefix("1") == Some(Numeral(false, 1, 0, 1));
    if IsNumeric(s) then NumeralIsOne(NumericPrefix(s).value) else s == "1"
  }

  lemma {:induction false} DigitRunOfDigits(s: string, i: nat)
    requires i <= |s|
    requires forall k :: i <= k < |s| ==> IsDigit(s[k])
    ensures DigitRun(s, i) == |s|
    decreases |s| - i
  {
    if i < |s| {
      DigitRunOfDigits(s, i + 1);
    }
  }

  /** A printed int is one numeral with no fraction and no exponent, spanning the whole string. */
  lemma NumericPrefixOfIntToString(i: int)
    ensures NumericPrefix(IntToString(i)) == Some(Numeral(i < 0, if i < 0 then -i else i, 0, |IntToString(i)|))
  {
    var s := IntToString(i);
    var digits := if i < 0 then NatToString(-i) else NatToString(i);
    var b := if i < 0 then 1 else 0;
    assert s[b..] == digits;
    assert !IsSpace(s[0]);
    assert SpaceRun(s, 0) == 0;
    DigitRunOfDigits(s, b);
    assert DigitRun(s, |s|) == |s|;
    assert s[b..|s|] + s[|s|..|s|] == digits;
    DigitsValueOfNatToString(if i < 0 then -i else i);
  }

  /** Reading back a printed int with `(int)` gives the int again. */
  lemma ToIntOfIntToString(i: int)
    requires IntMin <= i <= IntMax
    ensures ToInt(IntToString(i)) == i
  {
    NumericPrefixOfIntToString(i);
  }

  /** A printed int equals '1' exactly when it is the int 1. */
  lemma LooselyEqualsOneOfIntToString(i: int)
    ensures LooselyEqualsOne(IntToString(i)) <==> i == 1
  {
    NumericPrefixOfIntToString(i);
    assert SpaceRun(IntToString(i), |IntToString(i)|) == |IntToString(i)|;
  }

  /** The value '1' that the report's download link carries switches download mode on. */
  lemma OneLooselyEqualsOne()
    ensures LooselyEqualsOne("1")
  {
    assert "1"[0..1] + "1"[1..1] == "1";
    assert NumericPrefix("1") == Some(Numeral(false, 1, 0, 1));
  }

  /** A leading zero still spells one. */
  lemma LeadingZeroLooselyEqualsOne()
    ensures LooselyEqualsOne("01")
  {
    assert "01"[0..2] + "01"[2..2] == "01";
    assert DigitsValue("01") == 1 by { assert "01"[..1] == "0"; assert "0"[..0] == ""; }
    assert NumericPrefix("01") == Some(Numeral(false, 1, 0, 2));
  }

  /** So does a fraction: '1.0' is ten tenths. */
  lemma FractionLooselyEqualsOne()
    ensures LooselyEqualsOne("1.0")
  {
    var s := "1.0";
    assert SpaceRun(s, 0) == 0;
    assert DigitRun(s, 0) == 1 by { assert DigitRun(s, 1) == 1; }
    assert DigitRun(s, 2) == 3 by { assert DigitRun(s, 3) == 3; }
    assert ExponentPart(s, 3) == (0, 3);
    assert s[0..1] + s[2..3] == "10";
    assert DigitsValue("10") == 10 by { assert "10"[..1] == "1"; assert "1"[..0] == ""; }
    assert NumericPrefix(s) == Some(Numeral(false, 10, -1, 3));
    assert SpaceRun(s, 3) == 3;
    assert Pow10(1) == 10;
  }

  /** Numbers other than one leave it off. */
  lemma LooselyEqualsOneRejects()
    ensures !LooselyEqualsOne("2")
    ensures !LooselyEqualsOne("-1")
  {
    assert NumericPrefix("2") == Some(Numeral(false, 2, 0, 1)) by {
      assert "2"[0..1] + "2"[1..1] == "2";
    }
    assert NumericPrefix("-1") == Some(Numeral(true, 1, 0, 2)) by {
      assert "-1"[1..2] + "-1"[2..2] == "1";
    }
  }

  // ---------------------------------------------------------------------
  // strtolower (ASCII only, as in PHP 8.2 and later)
  // ---------------------------------------------------------------------

  function LowerChar(c: char): char {
    if 'A' <= c <= 'Z' then (c as int + 32) as char else c
  }

  /** `strtolower($s)`: every ASCII capital replaced by its small letter, all else kept. */
  function Lower(s: string): (r: string)
    ensures |r| == |s|
    ensures forall i :: 0 <= i < |s| ==> r[i] == LowerChar(s[i])
  {
    if s == [] then [] else [LowerChar(s[0])] + Lower(s[1..])
  }

  // ---------------------------------------------------------------------
  // htmlspecialchars with PHP 8.1's default flags (ENT_QUOTES | ENT_SUBSTITUTE | ENT_HTML401)
  // ---------------------------------------------------------------------

  predicate IsHtmlSpecial(c: char) {
    c == '&' || c == '"' || c == '\'' || c == '<' || c == '>'
  }

  predicate HasHtmlSpecial(s: string) {
    exists i :: 0 <= i < |s| && IsHtmlSpecial(s[i])
  }

  function EscapeChar(c: char): string {
    if c == '&' then "&amp;"
    else if c == '"' then "&quot;"
    else if c == '\'' then "&#039;"
    else if c == '<' then "&lt;"
    else if c == '>' then "&gt;"
    else [c]
  }

  /**
   * `htmlspecialchars($s)`: the result holds no quote and no angle bracket,
   * it leaves a string without special characters as it is, and any special
   * character in the input leaves an entity (an ampersand) in the output.
   */
  function HtmlEscape(s: string): (r: string)
    ensures forall i :: 0 <= i < |r| ==> r[i] != '"' && r[i] != '\'' && r[i] != '<' && r[i] != '>'
    ensures !HasHtmlSpecial(s) ==> r == s
    ensures HasHtmlSpecial(s) ==> '&' in r
  {
    if s == [] then []
    else
      var rest := HtmlEscape(s[1..]);
      assert HasHtmlSpecial(s) && !IsHtmlSpecial(s[0]) ==> HasHtmlSpecial(s[1..]) by {
        if HasHtmlSpecial(s) && !IsHtmlSpecial(s[0]) {
          var i :| 0 <= i < |s| && IsHtmlSpecial(s[i]);
          assert s[1..][i - 1] == s[i];
        }
      }
      assert !HasHtmlSpecial(s) ==> !HasHtmlSpecial(s[1..]) by {
        if HasHtmlSpecial(s[1..]) {
          var i :| 0 <= i < |s[1..]| && IsHtmlSpecial(s[1..][i]);
          assert s[i + 1] == s[1..][i];
        }
      }
      assert s == [s[0]] + s[1..];
      EscapeChar(s[0]) + rest
  }

  /** What a browser shows for escaped text: the five entities replaced by their characters. */
  function HtmlDecode(s: string): string
    decreases |s|
  {
    if s == [] then []
    else if s[0] != '&' then [s[0]] + HtmlDecode(s[1..])
    else if |s| >= 5 && s[..5] == "&amp;" then "&" + HtmlDecode(s[5..])
    else if |s| >= 6 && s[..6] == "&quot;" then "\"" + HtmlDecode(s[6..])
    else if |s| >= 6 && s[..6] == "&#039;" then "'" + HtmlDecode(s[6..])
    else if |s| >= 4 && s[..4] == "&lt;" then "<" + HtmlDecode(s[4..])
    else if |s| >= 4 && s[..4] == "&gt;" then ">" + HtmlDecode(s[4..])
    else "&" + HtmlDecode(s[1..])
  }

  lemma DecodeAmp(rest: string)
    ensures HtmlDecode("&amp;" + rest) == "&" + HtmlDecode(rest)
  {
    var s := "&amp;" + rest;
    assert s[..5] == "&amp;" && s[5..] == rest;
  }

  lemma DecodeQuot(rest: string)
    ensures HtmlDecode("&quot;" + rest) == "\"" + HtmlDecode(rest)
  {
    var s := "&quot;" + rest;
    assert s[1] == 'q';
    assert s[..6] == "&quot;" && s[6..] == rest;
  }

  lemma DecodeApos(rest: string)
    ensures HtmlDecode("&#039;" + rest) == "'" + HtmlDecode(rest)
  {
    var s := "&#039;" + rest;
    assert s[1] == '#';
    assert s[..6] == "&#039;" && s[6..] == rest;
  }

  lemma DecodeLt(rest: string)
    ensures HtmlDecode("&lt;" + rest) == "<" + HtmlDecode(rest)
  {
    var s := "&lt;" + rest;
    assert s[1] == 'l';
    assert s[..4] == "&lt;" && s[4..] == rest;
  }

  lemma DecodeGt(rest: string)
    ensures HtmlDecode("&gt;" + rest) == ">" + HtmlDecode(rest)
  {
    var s := "&gt;" + rest;
    assert s[1] == 'g';
    assert s[..4] == "&gt;" && s[4..] == rest;
  }

  lemma DecodeEscapeChar(c: char, rest: string)
    ensures HtmlDecode(EscapeChar(c) + rest) == [c] + HtmlDecode(rest)
  {
    if c == '&' { DecodeAmp(rest); }
    else if c == '"' { DecodeQuot(rest); }
    else if c == '\'' { DecodeApos(rest); }
    else if c == '<' { DecodeLt(rest); }
    else if c == '>' { DecodeGt(rest); }
    else {
      var s := [c] + rest;
      assert s[0] == c && s[1..] == rest;
    }
  }

  /** Escaping loses nothing: the browser shows exactly the original text. */
  lemma {:induction false} HtmlDecodeOfEscape(s: string)
    ensures HtmlDecode(HtmlEscape(s)) == s
  {
    if s != [] {
      DecodeEscapeChar(s[0], HtmlEscape(s[1..]));
      HtmlDecodeOfEscape(s[1..]);
    }
  }
}
