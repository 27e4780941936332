/** Which texts `to_decimal` reads as a number (app/core/money.py), and what it reads: an optional sign,
    digits with at most one point, and an optional exponent. */
module Numerals {
  import opened Money
  import opened Text
  import opened Wire

  /** A text in its parts; absent parts are empty. */
  datatype Numeral = Numeral(sign: string, whole: string, point: string, fraction: string,
                             mark: string, expSign: string, expDigits: string)

  predicate IsSign(s: string) {
    s == "" || s == "+" || s == "-"
  }

  predicate WellFormed(n: Numeral) {
    && IsSign(n.sign) && IsSign(n.expSign)
    && AllDigits(n.whole) && AllDigits(n.fraction) && AllDigits(n.expDigits)
    && (n.whole != "" || n.fraction != "")
    && (n.point == "." || (n.point == "" && n.fraction == ""))
    && (if n.mark == "" then n.expSign == "" && n.expDigits == ""
        else (n.mark == "e" || n.mark == "E") && n.expDigits != "")
  }

  function Mantissa(n: Numeral): string {
    n.whole + n.point + n.fraction
  }

  function Exponent(n: Numeral): string {
    n.expSign + n.expDigits
  }

  function Spelled(n: Numeral): string {
    n.sign + (Mantissa(n) + (n.mark + Exponent(n)))
  }

  function Power(n: Numeral): int
    requires WellFormed(n)
  {
    FromDigits(n.expDigits) * if n.expSign == "-" then -1 else 1
  }

  /** All digits as one number, scaled by the exponent less the places after the point. */
  function Meaning(n: Numeral): Dec
    requires WellFormed(n)
  {
    DigitsAppend(n.whole, n.fraction);
    Dec(n.sign == "-", FromDigits(n.whole + n.fraction), Power(n) - |n.fraction|)
  }

  lemma DigitsAppend(a: string, b: string)
    requires AllDigits(a) && AllDigits(b)
    ensures AllDigits(a + b)
  {
  }

  lemma SignSplits(sign: string, body: string)
    requires IsSign(sign) && body != "" && body[0] != '+' && body[0] != '-'
    ensures ParseSigned(sign + body) == (sign == "-", body)
  {
    if sign == "" {
      assert sign + body == body;
    } else {
      assert (sign + body)[1..] == body;
    }
  }

  lemma ExponentParses(n: Numeral)
    requires WellFormed(n) && n.mark != ""
    ensures ParseExponent(Exponent(n)) == Some(Power(n))
  {
    SignSplits(n.expSign, n.expDigits);
    hide FromDigits, ParseSigned;
  }

  lemma MantissaSplits(n: Numeral)
    requires WellFormed(n)
    ensures BeforePoint(Mantissa(n)) == n.whole && AfterPoint(Mantissa(n)) == n.fraction
  {
    if n.point == "" {
      assert Mantissa(n) == n.whole;
      NoPoint(n.whole);
    } else {
      PointSplits(n.whole, n.fraction);
    }
  }

  /** The mantissa ends at the exponent's mark, or with the text. */
  lemma MarkIsFound(n: Numeral)
    requires WellFormed(n)
    ensures Find(Mantissa(n) + (n.mark + Exponent(n)), "eE") == |Mantissa(n)|
    ensures Mantissa(n) != "" && Mantissa(n)[0] != '+' && Mantissa(n)[0] != '-'
  {
    var m := Mantissa(n);
    assert forall i :: 0 <= i < |m| ==> IsDigit(m[i]) || m[i] == '.';
    if n.mark == "" {
      assert m + (n.mark + Exponent(n)) == m;
      FindNone(m, "eE");
    } else {
      FindFirst(m, n.mark + Exponent(n), "eE");
    }
  }

  /** The text in front of position e and behind it. */
  lemma SplitAt(m: string, mark: string, rest: string)
    requires |mark| <= 1
    ensures (m + (mark + rest))[..|m|] == m
    ensures mark != "" ==> (m + (mark + rest))[|m| + 1..] == rest
  {
  }

  lemma ReadInParts(s: string, neg: bool, body: string, e: nat, exponent: int)
    requires ParseSigned(s) == (neg, body) && Find(body, "eE") == e && e <= |body|
    requires Some(exponent) == if e == |body| then Some(0) else ParseExponent(body[e + 1..])
    requires var whole, fraction := BeforePoint(body[..e]), AfterPoint(body[..e]);
      AllDigits(whole) && AllDigits(fraction) && whole + fraction != ""
    ensures var whole, fraction := BeforePoint(body[..e]), AfterPoint(body[..e]);
      && AllDigits(whole + fraction)
      && ParseDecimal(s) == Ok(Dec(neg, FromDigits(whole + fraction), exponent - |fraction|))
  {
    hide Find, FromDigits, ParseSigned, ParseExponent, BeforePoint, AfterPoint;
    DigitsAppend(BeforePoint(body[..e]), AfterPoint(body[..e]));
  }

  /** Every such text is read as the number it writes. */
  lemma NumeralsParse(n: Numeral)
    requires WellFormed(n)
    ensures ParseDecimal(Spelled(n)) == Ok(Meaning(n))
  {
    hide Find, FromDigits, ParseSigned, ParseExponent, BeforePoint, AfterPoint, Mantissa, Exponent, AllDigits;
    hide ParseDecimal;
    var m := Mantissa(n);
    var body := m + (n.mark + Exponent(n));
    MarkIsFound(n);
    MantissaSplits(n);
    SignSplits(n.sign, body);
    SplitAt(m, n.mark, Exponent(n));
    if n.mark == "" {
      NoExponent(n);
    } else {
      ExponentParses(n);
    }
    ReadInParts(Spelled(n), n.sign == "-", body, |m|, Power(n));
  }

  lemma NoExponent(n: Numeral)
    requires WellFormed(n) && n.mark == ""
    ensures Exponent(n) == "" && Power(n) == 0
  {
  }

  /** The sign in front of a text. */
  function SignOf(s: string): string {
    if s != "" && (s[0] == '-' || s[0] == '+') then s[..1] else ""
  }

  lemma SignIsPeeled(s: string)
    ensures IsSign(SignOf(s)) && s == SignOf(s) + ParseSigned(s).1
  {
  }

  function PointOf(mantissa: string): string {
    if Find(mantissa, ".") < |mantissa| then "." else ""
  }

  lemma PointIsPeeled(mantissa: string)
    ensures mantissa == BeforePoint(mantissa) + PointOf(mantissa) + AfterPoint(mantissa)
    ensures PointOf(mantissa) == "" ==> AfterPoint(mantissa) == ""
  {
    var point := Find(mantissa, ".");
    if point < |mantissa| {
      assert mantissa[point] == '.';
      assert mantissa == mantissa[..point] + mantissa[point..point + 1] + mantissa[point + 1..];
      assert mantissa[point..point + 1] == ".";
    } else {
      assert mantissa[..point] == mantissa;
    }
  }

  lemma PartsAreDigits(s: string)
    requires ParseDecimal(s).Ok?
    ensures var body := ParseSigned(s).1;
      var e := Find(body, "eE");
      && AllDigits(BeforePoint(body[..e])) && AllDigits(AfterPoint(body[..e]))
      && (BeforePoint(body[..e]) != "" || AfterPoint(body[..e]) != "")
      && (e < |body| ==>
            ParseSigned(body[e + 1..]).1 != "" && AllDigits(ParseSigned(body[e + 1..]).1))
  {
    hide FromDigits, BeforePoint, AfterPoint;
  }

  lemma MarkIsE(body: string, e: nat)
    requires e < |body| && body[e] in "eE"
    ensures body[e..e + 1] == "e" || body[e..e + 1] == "E"
    ensures body == body[..e] + (body[e..e + 1] + body[e + 1..])
  {
    assert body[e] == 'e' || body[e] == 'E';
  }

  /** And nothing else is read: a text that parses is one of them. */
  lemma OnlyNumeralsParse(s: string) returns (n: Numeral)
    requires ParseDecimal(s).Ok?
    ensures WellFormed(n) && Spelled(n) == s
  {
    hide ParseDecimal, Find, ParseSigned, BeforePoint, AfterPoint, AllDigits, SignOf, PointOf;
    var body := ParseSigned(s).1;
    var e := Find(body, "eE");
    var mantissa := body[..e];
    SignIsPeeled(s);
    PointIsPeeled(mantissa);
    PointIsAPoint(mantissa);
    PartsAreDigits(s);
    var whole, fraction := BeforePoint(mantissa), AfterPoint(mantissa);
    if e == |body| {
      NothingIsDigits();
      n := Numeral(SignOf(s), whole, PointOf(mantissa), fraction, "", "", "");
      assert body[..e] == body == Mantissa(n) + (n.mark + Exponent(n));
    } else {
      var rest := body[e + 1..];
      MarkIsE(body, e);
      SignIsPeeled(rest);
      n := Numeral(SignOf(s), whole, PointOf(mantissa), fraction, body[e..e + 1], SignOf(rest), ParseSigned(rest).1);
      assert Mantissa(n) == mantissa && Exponent(n) == rest;
    }
  }

  lemma PointIsAPoint(mantissa: string)
    ensures PointOf(mantissa) == "." || PointOf(mantissa) == ""
  {
  }

  lemma NothingIsDigits()
    ensures AllDigits("")
  {
  }

  /** So white space aside a text is read exactly when it is blank, as zero, or such a numeral. */
  lemma ReadsExactlyNumerals(text: string)
    ensures ToDecimal(text).Ok? <==> Strip(text) == "" || exists n :: WellFormed(n) && Spelled(n) == Strip(text)
    ensures Strip(text) == "" ==> ToDecimal(text) == Ok(Dec(false, 0, 0))
    ensures forall n :: WellFormed(n) && Spelled(n) == Strip(text) ==> ToDecimal(text) == Ok(Meaning(n))
  {
    var s := Strip(text);
    hide Strip, ParseDecimal, WellFormed, Spelled, Meaning;
    if s != "" && ParseDecimal(s).Ok? {
      var n := OnlyNumeralsParse(s);
      assert WellFormed(n) && Spelled(n) == s;
    }
    forall n | WellFormed(n) && Spelled(n) == s ensures ToDecimal(text) == Ok(Meaning(n)) {
      NumeralsParse(n);
      SpellingIsNotBlank(n);
    }
  }

  lemma SpellingIsNotBlank(n: Numeral)
    requires WellFormed(n)
    ensures Spelled(n) != ""
  {
  }
}
