/**
  `parseDeXNumber`: a sign, then either a lone zero, a radix prefix `0x`,
  `0o` or `0b` followed by an integer (read by Long.parseLong and widened
  to double), or a decimal number. Decimal parsing (Double.parseDouble)
  is the parameter `parseDouble`; it answers `None` where the source's
  NumberFormatException turns the result into null.
*/
module Numbers {
  import opened Wrappers
  import opened Values

  /** `Character.digit(c, radix)` on ASCII digits and letters. */
  function Digit(c: char, radix: nat): (r: Option<nat>)
    ensures r.Some? ==> r.value < radix
  {
    var v: int :=
      if '0' <= c <= '9' then c as int - '0' as int
      else if 'a' <= c <= 'z' then c as int - 'a' as int + 10
      else if 'A' <= c <= 'Z' then c as int - 'A' as int + 10
      else radix;
    if 0 <= v < radix then Some(v) else None
  }

  predicate AllDigits(ds: string, radix: nat) {
    forall i :: 0 <= i < |ds| ==> Digit(ds[i], radix).Some?
  }

  /** The value of a digit string, most significant digit first. */
  function DigitsValue(ds: string, radix: nat): nat
    requires AllDigits(ds, radix)
    decreases |ds|
  {
    if ds == [] then 0
    else DigitsValue(ds[..|ds| - 1], radix) * radix + Digit(ds[|ds| - 1], radix).value
  }

  /**
    `Long.parseLong(text, radix)`: an optional `+` or `-`, then at least one
    digit, with the value inside the long range; anything else throws
    NumberFormatException (`None`).
  */
  function ParseLong(text: string, radix: nat): (r: Option<Int64>)
    ensures r.Some? <==>
      |text| > 0 && |Magnitude(text)| > 0 && AllDigits(Magnitude(text), radix) &&
      DigitsValue(Magnitude(text), radix) <= (if text[0] == '-' then LONG_MAX + 1 else LONG_MAX)
    ensures r.Some? && text[0] == '-' ==> r.value == -(DigitsValue(Magnitude(text), radix) as int)
    ensures r.Some? && text[0] != '-' ==> r.value == DigitsValue(Magnitude(text), radix)
  {
    if |text| == 0 then None
    else
      var signed := text[0] == '-' || text[0] == '+';
      var ds := if signed then text[1..] else text;
      if |ds| == 0 || !AllDigits(ds, radix) then None
      else
        var v: int := if text[0] == '-' then -(DigitsValue(ds, radix) as int) else DigitsValue(ds, radix);
        if LONG_MIN <= v <= LONG_MAX then Some(v) else None
  }

  /** The text after one leading `+` or `-`. */
  function Magnitude(text: string): string
    requires |text| > 0
  {
    if text[0] == '-' || text[0] == '+' then text[1..] else text
  }

  /** The radix a prefix letter selects, 10 for no prefix. */
  function RadixOf(letter: char): nat {
    if letter == 'x' then 16 else if letter == 'o' then 8 else if letter == 'b' then 2 else 10
  }

  /** `Long.valueOf(...).doubleValue()` */
  function LongToDouble(l: Int64): Fp {
    Finite(RoundToDouble(l) as real)
  }

  /** The double of a parsed long, or null when Long.parseLong threw. */
  function LongResult(l: Option<Int64>): Option<Fp> {
    if l.Some? then Some(LongToDouble(l.value)) else None
  }

  /**
    What `parseDeXNumber(s)` answers: `Err` where it reads past the end of
    `s` (the empty token, or a sign alone), `Ok(None)` for null.
  */
  function DeXNumber(s: string, parseDouble: string -> Option<Fp>): Result<Option<Fp>> {
    if |s| == 0 then Err(IndexOutOfBounds)
    else
      var body := if s[0] == '-' || s[0] == '+' then s[1..] else s;
      Unsigned(if s[0] == '-' then "-" else "", body, parseDouble)
  }

  /** The token after its sign: a lone zero, a radix prefix and digits, or a decimal number. */
  function Unsigned(sign: string, body: string, parseDouble: string -> Option<Fp>): Result<Option<Fp>> {
    if |body| == 0 then Err(IndexOutOfBounds)
    else if body == "0" then Ok(Some(Finite(0.0)))
    else if |body| >= 2 && body[0] == '0' && RadixOf(body[1]) != 10 then
      Ok(LongResult(ParseLong(sign + body[2..], RadixOf(body[1]))))
    else Ok(parseDouble(sign + body))
  }

  /** `parseDeXNumber(s)`: the index `i` moves past the sign, then past a radix prefix. */
  method ParseDeXNumber(s: string, parseDouble: string -> Option<Fp>) returns (r: Result<Option<Fp>>)
    ensures r == DeXNumber(s, parseDouble)
  {
    var i := 0;
    if i >= |s| {
      return Err(IndexOutOfBounds);
    }
    var hasSign := false;
    if s[i] == '-' {
      hasSign := true;
      i := i + 1;
    } else if s[i] == '+' {
      i := i + 1;
    }
    ghost var body := s[i..];
    ghost var sign := if hasSign then "-" else "";
    assert DeXNumber(s, parseDouble) == Unsigned(sign, body, parseDouble);
    var radix := 10;
    if i >= |s| {
      return Err(IndexOutOfBounds);
    }
    assert body[0] == s[i];
    if s[i] == '0' {
      if i + 1 == |s| {
        assert body == "0";
        return Ok(Some(Finite(0.0)));
      }
      assert body[1] == s[i + 1];
      if s[i + 1] == 'x' {
        radix := 16;
        i := i + 2;
      } else if s[i + 1] == 'o' {
        radix := 8;
        i := i + 2;
      } else if s[i + 1] == 'b' {
        radix := 2;
        i := i + 2;
      }
    }
    var number := (if hasSign then "-" else "") + s[i..];
    if radix == 10 {
      assert number == sign + body && body != "0";
      r := Ok(parseDouble(number));
    } else {
      assert s[i..] == body[2..];
      var l := ParseLong(number, radix);
      r := Ok(LongResult(l));
    }
  }

  // ----- What the tokens mean -----

  /** The lone-zero shortcut ignores the sign: `0`, `+0` and `-0` all give positive zero. */
  lemma ZeroTokens(parseDouble: string -> Option<Fp>)
    ensures DeXNumber("0", parseDouble) == Ok(Some(Finite(0.0)))
    ensures DeXNumber("+0", parseDouble) == Ok(Some(Finite(0.0)))
    ensures DeXNumber("-0", parseDouble) == Ok(Some(Finite(0.0)))
  {
    assert "+0"[1..] == "0";
    assert "-0"[1..] == "0";
  }

  /** The empty token and a sign alone read past the end of the token. */
  lemma ShortTokensThrow(parseDouble: string -> Option<Fp>)
    ensures DeXNumber("", parseDouble) == Err(IndexOutOfBounds)
    ensures DeXNumber("+", parseDouble) == Err(IndexOutOfBounds)
    ensures DeXNumber("-", parseDouble) == Err(IndexOutOfBounds)
  {
    assert "+"[1..] == "";
    assert "-"[1..] == "";
  }

  /** One more digit: the value so far times the radix, plus the digit. */
  lemma DigitsSnoc(ds: string, c: char, radix: nat)
    requires AllDigits(ds, radix) && Digit(c, radix).Some?
    ensures AllDigits(ds + [c], radix)
    ensures DigitsValue(ds + [c], radix) == DigitsValue(ds, radix) * radix + Digit(c, radix).value
  {
    assert (ds + [c])[..|ds|] == ds;
    assert forall i :: 0 <= i < |ds| ==> (ds + [c])[i] == ds[i];
  }

  /** The sign comes off first: the rest of the token is read with a `-` kept and a `+` dropped. */
  lemma SignedToken(sign: string, body: string, parseDouble: string -> Option<Fp>)
    requires sign == "" || sign == "+" || sign == "-"
    requires sign == "" && |body| > 0 ==> body[0] != '-' && body[0] != '+'
    ensures DeXNumber(sign + body, parseDouble) == Unsigned(if sign == "-" then "-" else "", body, parseDouble)
  {
    if sign == "" {
      assert sign + body == body;
    } else {
      assert (sign + body)[0] == sign[0] && (sign + body)[1..] == body;
    }
  }

  /** After the sign, a radix prefix hands the rest, behind the kept `-`, to Long.parseLong. */
  lemma PrefixedBody(sign: string, letter: char, ds: string, parseDouble: string -> Option<Fp>)
    requires RadixOf(letter) != 10
    ensures Unsigned(sign, "0" + [letter] + ds, parseDouble) == Ok(LongResult(ParseLong(sign + ds, RadixOf(letter))))
  {
    var body := "0" + [letter] + ds;
    assert body[0] == '0' && body[1] == letter && body[2..] == ds;
  }

  /** A token with a radix prefix is the sign, if it is `-`, and the rest read by Long.parseLong. */
  lemma PrefixedToken(sign: string, letter: char, ds: string, parseDouble: string -> Option<Fp>)
    requires sign == "" || sign == "+" || sign == "-"
    requires RadixOf(letter) != 10
    ensures DeXNumber(sign + "0" + [letter] + ds, parseDouble)
      == Ok(LongResult(ParseLong((if sign == "-" then "-" else "") + ds, RadixOf(letter))))
  {
    var body := "0" + [letter] + ds;
    assert sign + "0" + [letter] + ds == sign + body;
    SignedToken(sign, body, parseDouble);
    PrefixedBody(if sign == "-" then "-" else "", letter, ds, parseDouble);
  }

  /** A radix prefix followed by digits within the long range gives their value, negated after a `-`. */
  lemma PrefixedValue(sign: string, letter: char, ds: string, parseDouble: string -> Option<Fp>)
    requires sign == "" || sign == "-"
    requires RadixOf(letter) != 10
    requires |ds| > 0 && AllDigits(ds, RadixOf(letter)) && DigitsValue(ds, RadixOf(letter)) <= LONG_MAX
    ensures Unsigned(sign, "0" + [letter] + ds, parseDouble) == Ok(Some(LongToDouble(
      if sign == "-" then -(DigitsValue(ds, RadixOf(letter)) as int) else DigitsValue(ds, RadixOf(letter)))))
  {
    PrefixedBody(sign, letter, ds, parseDouble);
    ParseLongOfDigits(ds, RadixOf(letter));
    if sign == "" {
      assert sign + ds == ds;
    }
  }

  /** An unsigned token with a radix prefix and digits within the long range reads as their value. */
  lemma UnsignedPrefixedValue(letter: char, ds: string, parseDouble: string -> Option<Fp>)
    requires RadixOf(letter) != 10
    requires |ds| > 0 && AllDigits(ds, RadixOf(letter)) && DigitsValue(ds, RadixOf(letter)) <= LONG_MAX
    ensures DeXNumber("0" + [letter] + ds, parseDouble) == Ok(Some(LongToDouble(DigitsValue(ds, RadixOf(letter)))))
  {
    var body := "0" + [letter] + ds;
    assert DeXNumber(body, parseDouble) == Unsigned("", body, parseDouble) by {
      SignedToken("", body, parseDouble);
      assert "" + body == body;
    }
    PrefixedValue("", letter, ds, parseDouble);
  }

  /** The hexadecimal example of the source's tests. */
  lemma HexExample(parseDouble: string -> Option<Fp>)
    ensures DeXNumber("0xABCDEF", parseDouble) == Ok(Some(Finite(11259375.0)))
  {
    var ds := "ABCDEF";
    assert "0" + ['x'] + ds == "0xABCDEF";
    HexDigits(ds);
    UnsignedPrefixedValue('x', ds, parseDouble);
    RoundToDoubleExact(11259375);
  }

  /** The six hexadecimal digits of the test, read in two halves. */
  lemma HexDigits(hex: string)
    requires hex == "ABCDEF"
    ensures AllDigits(hex, 16) && DigitsValue(hex, 16) == 11259375
  {
    var high, low := "ABC", "DEF";
    assert hex == high + low;
    assert AllDigits(high, 16) && DigitsValue(high, 16) == 2748 by {
      ReadDigits(high, 16, 2748);
    }
    assert ReadFrom(low, 16, 2748) == Some(11259375);
    ReadFromAgrees(high, low, 16);
  }

  /** The octal example of the source's tests. */
  lemma OctalExample(parseDouble: string -> Option<Fp>)
    ensures DeXNumber("0o777", parseDouble) == Ok(Some(Finite(511.0)))
  {
    var ds := "777";
    assert "0" + ['o'] + ds == "0o777";
    ReadDigits(ds, 8, 511);
    UnsignedPrefixedValue('o', ds, parseDouble);
    RoundToDoubleExact(511);
  }

  /** The binary example of the source's tests. */
  lemma BinaryExample(parseDouble: string -> Option<Fp>)
    ensures DeXNumber("0b110110001110001", parseDouble) == Ok(Some(Finite(27761.0)))
  {
    var ds := "110110001110001";
    assert "0" + ['b'] + ds == "0b110110001110001";
    BinaryDigits(ds);
    UnsignedPrefixedValue('b', ds, parseDouble);
    RoundToDoubleExact(27761);
  }

  /** The fifteen binary digits of the test, read in three parts. */
  lemma BinaryDigits(bin: string)
    requires bin == "110110001110001"
    ensures AllDigits(bin, 2) && DigitsValue(bin, 2) == 27761
  {
    var high, mid, low := "11011", "00011", "10001";
    assert bin == high + mid + low;
    assert AllDigits(high, 2) && DigitsValue(high, 2) == 27 by {
      ReadDigits(high, 2, 27);
    }
    assert AllDigits(high + mid, 2) && DigitsValue(high + mid, 2) == 867 by {
      assert ReadFrom(mid, 2, 27) == Some(867);
      ReadFromAgrees(high, mid, 2);
    }
    assert ReadFrom(low, 2, 867) == Some(27761);
    ReadFromAgrees(high + mid, low, 2);
  }

  /** The value of a digit string, computed one digit at a time from the left. */
  function ReadFrom(ds: string, radix: nat, acc: nat): Option<nat>
    decreases |ds|
  {
    if ds == [] then Some(acc)
    else if Digit(ds[0], radix).None? then None
    else ReadFrom(ds[1..], radix, acc * radix + Digit(ds[0], radix).value)
  }

  /** Reading from the left agrees with `DigitsValue`. */
  lemma {:induction false} ReadFromAgrees(pre: string, ds: string, radix: nat)
    requires AllDigits(pre, radix)
    ensures ReadFrom(ds, radix, DigitsValue(pre, radix)).Some? <==> AllDigits(pre + ds, radix)
    ensures AllDigits(pre + ds, radix) ==>
      ReadFrom(ds, radix, DigitsValue(pre, radix)) == Some(DigitsValue(pre + ds, radix))
    decreases |ds|
  {
    if ds == [] {
      assert pre + ds == pre;
    } else if Digit(ds[0], radix).None? {
      assert (pre + ds)[|pre|] == ds[0];
    } else {
      DigitsSnoc(pre, ds[0], radix);
      assert (pre + [ds[0]]) + ds[1..] == pre + ds;
      ReadFromAgrees(pre + [ds[0]], ds[1..], radix);
    }
  }

  lemma ReadDigits(ds: string, radix: nat, v: nat)
    requires ReadFrom(ds, radix, 0) == Some(v)
    ensures AllDigits(ds, radix) && DigitsValue(ds, radix) == v
  {
    ReadFromAgrees("", ds, radix);
    assert "" + ds == ds;
  }

  /** The radix text is read whole: a char that is neither a sign nor a digit of the radix gives null. */
  lemma InvalidDigitGivesNull(sign: string, letter: char, ds: string, j: nat, parseDouble: string -> Option<Fp>)
    requires sign == "" || sign == "+" || sign == "-"
    requires RadixOf(letter) != 10
    requires j < |ds| && ds[j] != '-' && ds[j] != '+' && Digit(ds[j], RadixOf(letter)).None?
    ensures DeXNumber(sign + "0" + [letter] + ds, parseDouble) == Ok(None)
  {
    PrefixedToken(sign, letter, ds, parseDouble);
    var text := (if sign == "-" then "-" else "") + ds;
    var radix := RadixOf(letter);
    if sign == "-" {
      assert text[1..] == ds;
      assert !AllDigits(ds, radix);
    } else {
      assert text == ds;
      if j == 0 {
        assert !AllDigits(ds, radix);
      } else {
        assert ds[1..][j - 1] == ds[j];
        assert !AllDigits(ds[1..], radix) && !AllDigits(ds, radix);
      }
    }
  }

  /** A radix prefix with nothing after it gives null. */
  lemma EmptyRemainderGivesNull(sign: string, letter: char, parseDouble: string -> Option<Fp>)
    requires sign == "" || sign == "+" || sign == "-"
    requires RadixOf(letter) != 10
    ensures DeXNumber(sign + "0" + [letter], parseDouble) == Ok(None)
  {
    PrefixedToken(sign, letter, "", parseDouble);
    assert sign + "0" + [letter] + "" == sign + "0" + [letter];
    assert ("-" + "")[1..] == "";
  }

  /** The sign check comes before the prefix, so a sign after the prefix is read by Long.parseLong. */
  lemma SignAfterPrefix(parseDouble: string -> Option<Fp>)
    ensures DeXNumber("0x-5", parseDouble) == Ok(Some(Finite(-5.0)))
    ensures DeXNumber("-0x-5", parseDouble) == Ok(None)
  {
    PrefixedToken("", 'x', "-5", parseDouble);
    assert "0x-5" == "" + "0" + ['x'] + "-5";
    assert ("" + "-5")[1..] == "5" && "5"[..0] == "";
    assert ParseLong("" + "-5", 16) == Some(-5);
    RoundToDoubleExact(-5);
    PrefixedToken("-", 'x', "-5", parseDouble);
    assert "-0x-5" == "-" + "0" + ['x'] + "-5";
    assert ("-" + "-5")[1..] == "-5";
    assert !AllDigits("-5", 16);
  }

  /** Without a radix prefix and other than a lone zero, the token goes to the decimal parser with its sign. */
  lemma DecimalTokens(sign: string, body: string, parseDouble: string -> Option<Fp>)
    requires sign == "" || sign == "+" || sign == "-"
    requires |body| > 0 && body != "0" && body[0] != '-' && body[0] != '+'
    requires !(|body| >= 2 && body[0] == '0' && RadixOf(body[1]) != 10)
    ensures DeXNumber(sign + body, parseDouble) == Ok(parseDouble((if sign == "-" then "-" else "") + body))
  {
    if sign != "" {
      assert (sign + body)[1..] == body;
    } else {
      assert sign + body == body;
    }
  }

  // ----- Writing a number in a radix and reading it back -----

  /** The lower-case digit for a value below 36. */
  function DigitChar(v: nat): char
    requires v < 36
  {
    if v < 10 then ('0' as int + v) as char else ('a' as int + v - 10) as char
  }

  /** `n` in the given radix, most significant digit first, "0" for zero. */
  function RadixDigits(n: nat, radix: nat): (ds: string)
    requires 2 <= radix <= 36
    ensures |ds| > 0
    decreases n
  {
    if n < radix then [DigitChar(n)]
    else DivideBack(n, radix, n / radix); RadixDigits(n / radix, radix) + [DigitChar(n % radix)]
  }

  lemma DigitCharRead(v: nat, radix: nat)
    requires v < radix <= 36
    ensures Digit(DigitChar(v), radix) == Some(v)
  {
  }

  /** Reading back what `RadixDigits` writes gives the number. */
  lemma {:induction false} RadixDigitsRoundTrip(n: nat, radix: nat)
    requires 2 <= radix <= 36
    ensures AllDigits(RadixDigits(n, radix), radix)
    ensures DigitsValue(RadixDigits(n, radix), radix) == n
    decreases n
  {
    if n < radix {
      DigitCharRead(n, radix);
      DigitsSnoc("", DigitChar(n), radix);
      assert "" + [DigitChar(n)] == RadixDigits(n, radix);
    } else {
      DivideBack(n, radix, n / radix);
      RadixDigitsRoundTrip(n / radix, radix);
      RadixDigitsStep(n, radix);
    }
  }

  /** The last digit of `n` is written after the digits of `n / radix`, so reading them back gives `n`. */
  lemma RadixDigitsStep(n: nat, radix: nat)
    requires 2 <= radix <= 36 && n >= radix
    requires AllDigits(RadixDigits(n / radix, radix), radix)
    requires DigitsValue(RadixDigits(n / radix, radix), radix) == n / radix
    ensures AllDigits(RadixDigits(n, radix), radix)
    ensures DigitsValue(RadixDigits(n, radix), radix) == n
  {
    var r := n % radix;
    var front := RadixDigits(n / radix, radix);
    assert RadixDigits(n, radix) == front + [DigitChar(r)];
    DigitCharRead(r, radix);
    DigitsSnoc(front, DigitChar(r), radix);
    DivideBack(n, radix, n / radix);
  }

  /** A quotient times the divisor, plus the remainder, is the dividend. */
  lemma DivideBack(n: nat, radix: nat, q: nat)
    requires radix > 0 && q == n / radix
    ensures q * radix + n % radix == n
    ensures radix >= 2 && n > 0 ==> q < n
  {
  }

  /** A digit string (no sign) is read by Long.parseLong as its value, and with `-` in front as the negation. */
  lemma ParseLongOfDigits(ds: string, radix: nat)
    requires |ds| > 0 && AllDigits(ds, radix) && DigitsValue(ds, radix) <= LONG_MAX + 1
    ensures DigitsValue(ds, radix) <= LONG_MAX ==> ParseLong(ds, radix) == Some(DigitsValue(ds, radix))
    ensures DigitsValue(ds, radix) <= LONG_MAX ==> ParseLong("+" + ds, radix) == ParseLong(ds, radix)
    ensures DigitsValue(ds, radix) == LONG_MAX + 1 ==> ParseLong(ds, radix).None?
    ensures ParseLong("-" + ds, radix) == Some(-(DigitsValue(ds, radix) as int))
  {
    assert Digit(ds[0], radix).Some?;
    assert ("-" + ds)[1..] == ds;
    assert ("+" + ds)[1..] == ds;
  }

  /** The most negative long, -2^63, is read in every radix, although 2^63 itself is out of range. */
  lemma LongMinParses(radix: nat)
    requires 2 <= radix <= 36
    ensures ParseLong("-" + RadixDigits(LONG_MAX + 1, radix), radix) == Some(LONG_MIN)
    ensures ParseLong(RadixDigits(LONG_MAX + 1, radix), radix).None?
  {
    RadixDigitsRoundTrip(LONG_MAX + 1, radix);
    ParseLongOfDigits(RadixDigits(LONG_MAX + 1, radix), radix);
  }

  /**
    Every non-negative long written after a radix prefix is read back (as
    its nearest double), and with a leading `-` as its negation.
  */
  lemma RadixRoundTrip(letter: char, n: nat, parseDouble: string -> Option<Fp>)
    requires RadixOf(letter) != 10
    requires n <= LONG_MAX
    ensures DeXNumber("0" + [letter] + RadixDigits(n, RadixOf(letter)), parseDouble)
      == Ok(Some(LongToDouble(n)))
    ensures DeXNumber("-0" + [letter] + RadixDigits(n, RadixOf(letter)), parseDouble)
      == Ok(Some(LongToDouble(-(n as int))))
  {
    var ds := RadixDigits(n, RadixOf(letter));
    RadixDigitsRoundTrip(n, RadixOf(letter));
    assert DeXNumber("0" + [letter] + ds, parseDouble) == Ok(Some(LongToDouble(n))) by {
      UnsignedPrefixedValue(letter, ds, parseDouble);
    }
    var body := "0" + [letter] + ds;
    assert "-" + body == "-0" + [letter] + ds;
    assert DeXNumber("-" + body, parseDouble) == Ok(Some(LongToDouble(-(n as int)))) by {
      SignedToken("-", body, parseDouble);
      PrefixedValue("-", letter, ds, parseDouble);
    }
  }
}
