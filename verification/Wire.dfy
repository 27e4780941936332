/** Printing a Decimal for the venue (`_wire`, app/providers/alpaca_broker_provider.py)
    and reading it back (`to_decimal`, app/core/money.py). */
module Wire {
  import opened Money
  import opened Text

  /** A finite Decimal: sign, coefficient and power of ten, in no canonical form. */
  datatype Dec = Dec(neg: bool, coeff: nat, exp: int)

  datatype Error = InvalidOperation | NotANumber

  // ---- Powers of ten and values ------------------------------------------------------

  function Pow10(n: nat): nat {
    if n == 0 then 1 else 10 * Pow10(n - 1)
  }

  function P10(e: int): real
    decreases if e >= 0 then e else -e
  {
    if e == 0 then 1.0 else if e > 0 then 10.0 * P10(e - 1) else P10(e + 1) / 10.0
  }

  function Mag(coeff: nat, e: int): real {
    coeff as real * P10(e)
  }

  function Magnitude(d: Dec): real {
    Mag(d.coeff, d.exp)
  }

  function Value(d: Dec): real {
    if d.neg then -Magnitude(d) else Magnitude(d)
  }

  lemma {:induction false} P10Step(e: int)
    ensures P10(e + 1) == 10.0 * P10(e) && P10(e) > 0.0
    decreases if e >= 0 then e else -e
  {
    if e > 0 {
      P10Step(e - 1);
    } else if e < 0 {
      P10Step(e + 1);
    }
  }

  lemma {:induction false} P10Adds(e: int, n: nat)
    ensures P10(e + n) == P10(e) * Pow10(n) as real
    decreases n
  {
    if n == 0 {
    } else {
      P10Adds(e, n - 1);
      P10Step(e + n - 1);
    }
  }

  lemma Regroup(x: real, y: real, z: real)
    ensures x * (y * z) == (x * z) * y
  {
  }

  /** Powers of ten move between coefficient and exponent. */
  lemma MagShift(coeff: nat, e: int, n: nat)
    ensures Mag(coeff, e + n) == Mag(coeff * Pow10(n), e)
  {
    P10Adds(e, n);
    Regroup(coeff as real, P10(e), Pow10(n) as real);
    assert (coeff * Pow10(n)) as real == coeff as real * Pow10(n) as real;
  }

  lemma MagDetermines(a: nat, b: nat, e: int)
    requires Mag(a, e) == Mag(b, e)
    ensures a == b
  {
    P10Step(e);
    if a < b {
      ScaleGrows(a as real, b as real, P10(e));
    } else if b < a {
      ScaleGrows(b as real, a as real, P10(e));
    }
  }

  function Quot(n: nat, p: nat): nat
    requires p > 0
  {
    n / p
  }

  function Rem(n: nat, p: nat): nat
    requires p > 0
  {
    n % p
  }

  lemma {:induction false} Pow10Positive(n: nat)
    ensures Pow10(n) >= 1
  {
    if n == 0 {
    } else {
      Pow10Positive(n - 1);
    }
  }

  // ---- _wire ---------------------------------------------------------------------------

  /** 10^28: the first coefficient too long for the 28-digit context. */
  const LIMIT: nat := 10000000000000000000000000000

  /** Trailing zeros move into the exponent. */
  function Stripped(neg: bool, coeff: nat, exp: int): Dec
    requires coeff > 0
  {
    if coeff % 10 == 0 then Stripped(neg, coeff / 10, exp + 1) else Dec(neg, coeff, exp)
  }

  function ExcessDigits(coeff: nat): nat {
    if coeff < LIMIT then 0 else 1 + ExcessDigits(coeff / 10)
  }

  /** The context's half-even rounding to 28 digits. */
  function RoundToContext(d: Dec): Dec {
    var k := ExcessDigits(d.coeff);
    if k == 0 then d
    else
      Pow10Positive(k);
      var q, r := Quot(d.coeff, Pow10(k)), Rem(d.coeff, Pow10(k));
      var up := 2 * r > Pow10(k) || (2 * r == Pow10(k) && q % 2 == 1);
      Dec(d.neg, if up then q + 1 else q, d.exp + k)
  }

  /** `normalize`: rounded to the context, then without trailing zeros; zero becomes 0E0. The
      rounding depends on the value alone, so it may follow a first stripping. */
  function Normalize(d: Dec): Dec {
    if d.coeff == 0 then Dec(d.neg, 0, 0)
    else
      var s := Stripped(d.neg, d.coeff, d.exp);
      var r := RoundToContext(s);
      if r.coeff == 0 then Dec(r.neg, 0, 0) else Stripped(r.neg, r.coeff, r.exp)
  }

  function DigitChar(n: nat): char
    requires n < 10
  {
    '0' + n as char
  }

  function Digits(n: nat): string {
    if n < 10 then [DigitChar(n)] else Digits(n / 10) + [DigitChar(n % 10)]
  }

  /** Exactly `width` digits, leading zeros included. */
  function Padded(n: nat, width: nat): string {
    if width == 0 then "" else Padded(n / 10, width - 1) + [DigitChar(n % 10)]
  }

  /** `format(d, "f")` for an exponent that is not positive. */
  function Format(d: Dec): string
    requires d.exp <= 0
  {
    var sign := if d.neg then "-" else "";
    if d.exp == 0 then sign + Digits(d.coeff)
    else
      Pow10Positive(-d.exp);
      sign + Digits(Quot(d.coeff, Pow10(-d.exp))) + "." + Padded(Rem(d.coeff, Pow10(-d.exp)), -d.exp)
  }

  function Expanded(d: Dec): nat
    requires d.exp >= 0
  {
    d.coeff * Pow10(d.exp)
  }

  /** What gets printed: a positive exponent is multiplied out, if 28 digits hold it. */
  function Plain(d: Dec): Result<Dec, Error> {
    var n := Normalize(d);
    if n.exp <= 0 then Ok(n)
    else if Expanded(n) < LIMIT then Ok(Dec(n.neg, Expanded(n), 0))
    else Err(InvalidOperation)
  }

  function WireOf(d: Dec): Result<string, Error> {
    match Plain(d)
    case Err(e) => Err(e)
    case Ok(p) => if p.exp <= 0 then Ok(Format(p)) else Err(InvalidOperation)
  }

  // ---- to_decimal on strings ----------------------------------------------------------------

  predicate IsDigit(c: char) {
    '0' <= c <= '9'
  }

  predicate AllDigits(s: string) {
    forall i :: 0 <= i < |s| ==> IsDigit(s[i])
  }

  function FromDigits(s: string): nat
    requires AllDigits(s)
  {
    if s == "" then 0 else 10 * FromDigits(s[..|s| - 1]) + (s[|s| - 1] - '0') as nat
  }

  /** Where a character of `stops` first occurs; the length if nowhere. */
  function Find(s: string, stops: string): (i: nat)
    ensures i <= |s| && (i < |s| ==> s[i] in stops)
  {
    if s == "" || s[0] in stops then 0 else 1 + Find(s[1..], stops)
  }

  function ParseSigned(s: string): (bool, string) {
    if s != "" && s[0] == '-' then (true, s[1..])
    else if s != "" && s[0] == '+' then (false, s[1..])
    else (false, s)
  }

  function BeforePoint(s: string): string {
    s[..Find(s, ".")]
  }

  function AfterPoint(s: string): string {
    var point := Find(s, ".");
    if point == |s| then "" else s[point + 1..]
  }

  function ParseExponent(s: string): Option<int> {
    var (neg, digits) := ParseSigned(s);
    if digits == "" || !AllDigits(digits) then None
    else Some(FromDigits(digits) * (if neg then -1 else 1))
  }

  /** `Decimal(text)`: sign, digits with at most one point, optional exponent. */
  function ParseDecimal(s: string): Result<Dec, Error> {
    var (neg, body) := ParseSigned(s);
    var e := Find(body, "eE");
    var mantissa := body[..e];
    var exponent := if e == |body| then Some(0) else ParseExponent(body[e + 1..]);
    var whole, fraction := BeforePoint(mantissa), AfterPoint(mantissa);
    if exponent.None? || !AllDigits(whole) || !AllDigits(fraction) || whole + fraction == "" then Err(NotANumber)
    else Ok(Dec(neg, FromDigits(whole + fraction), exponent.value - |fraction|))
  }

  /** `to_decimal` on a string: blank text is zero. */
  function ToDecimal(text: string): Result<Dec, Error> {
    var s := Strip(text);
    if s == "" then Ok(Dec(false, 0, 0)) else ParseDecimal(s)
  }

  // ---- Canonical form ---------------------------------------------------------------------------

  /** Storable in NUMERIC(28,8), whatever the coefficient and exponent it is written with. */
  ghost predicate FitsColumn(d: Dec) {
    exists n: nat :: n < LIMIT && InUnits(d, n)
  }

  /** |d| is n units in the eighth place. */
  ghost predicate InUnits(d: Dec, n: nat) {
    Magnitude(d) == Mag(n, -8)
  }

  ghost predicate Canonical(d: Dec) {
    (d.coeff == 0 && d.exp == 0) || d.coeff % 10 != 0
  }

  lemma {:induction false} StrippedIsCanonical(neg: bool, coeff: nat, exp: int)
    requires coeff > 0
    ensures var d := Stripped(neg, coeff, exp);
      && d.neg == neg && d.coeff > 0 && d.coeff % 10 != 0
      && Magnitude(d) == Mag(coeff, exp)
  {
    hide Mag;
    if coeff % 10 == 0 {
      StrippedIsCanonical(neg, coeff / 10, exp + 1);
      MagShift(coeff / 10, exp, 1);
      assert Pow10(1) == 10;
    }
  }

  lemma FewerDecimals(coeff: nat, n: nat, k: nat)
    requires k > 0 && Mag(coeff, -8 - k) == Mag(n, -8)
    ensures coeff % 10 == 0
  {
    hide Mag;
    MagShift(n, -8 - k, k);
    MagDetermines(coeff, n * Pow10(k), -8 - k);
    assert n * (10 * Pow10(k - 1)) == 10 * (n * Pow10(k - 1));
  }

  /** A canonical number of 8 decimals and 28 digits needs no rounding, and no more than 28 digits
      when its exponent is multiplied out. */
  lemma CanonicalFits(d: Dec)
    requires d.coeff > 0 && d.coeff % 10 != 0 && FitsColumn(d)
    ensures d.coeff < LIMIT
    ensures d.exp > 0 ==> Expanded(d) < LIMIT
  {
    hide Mag, Pow10;
    var n: nat :| n < LIMIT && InUnits(d, n);
    if d.exp < -8 {
      FewerDecimals(d.coeff, n, -8 - d.exp);
    } else {
      var k := d.exp + 8;
      MagShift(d.coeff, -8, k);
      MagDetermines(d.coeff * Pow10(k), n, -8);
      Pow10Positive(k);
      AtLeastFactor(d.coeff, Pow10(k));
      if d.exp > 0 {
        Pow10Splits(d.exp, 8);
        Pow10Positive(8);
        Triple(d.coeff, Pow10(d.exp), Pow10(8));
        AtLeastFactor(d.coeff * Pow10(d.exp), Pow10(8));
      }
    }
  }

  lemma Triple(a: nat, b: nat, c: nat)
    ensures a * (b * c) == a * b * c
  {
  }

  lemma AtLeastFactor(a: nat, b: nat)
    requires b >= 1
    ensures a <= a * b
  {
  }

  lemma {:induction false} Pow10Splits(a: nat, b: nat)
    ensures Pow10(a + b) == Pow10(a) * Pow10(b)
  {
    if a == 0 {
    } else {
      Pow10Splits(a - 1, b);
      Triple(10, Pow10(a - 1), Pow10(b));
    }
  }

  /** Normalizing a storable value only strips zeros: the value is unchanged and canonical. */
  lemma NormalizeKeepsValue(d: Dec)
    requires FitsColumn(d)
    ensures var n := Normalize(d);
      && n.neg == d.neg && Magnitude(n) == Magnitude(d) && Canonical(n) && n.coeff < LIMIT
      && (n.exp > 0 ==> Expanded(n) < LIMIT)
  {
    hide Pow10, Stripped;
    if d.coeff == 0 {
      assert Mag(0, 0) == Mag(0, d.exp);
    } else {
      hide Mag;
      StrippedIsCanonical(d.neg, d.coeff, d.exp);
      var s := Stripped(d.neg, d.coeff, d.exp);
      var n: nat :| n < LIMIT && InUnits(d, n);
      assert InUnits(s, n);
      CanonicalFits(s);
      StrippedTwice(s);
    }
  }

  lemma StrippedTwice(d: Dec)
    requires d.coeff % 10 != 0
    ensures Stripped(d.neg, d.coeff, d.exp) == d
  {
  }

  /** Two canonical numbers of equal magnitude are written the same way. */
  lemma CanonicalIsUnique(a: Dec, b: Dec)
    requires Canonical(a) && Canonical(b) && Magnitude(a) == Magnitude(b)
    ensures a.coeff == b.coeff && a.exp == b.exp
  {
    if a.exp <= b.exp {
      SmallerExponent(a, b);
    } else {
      SmallerExponent(b, a);
    }
  }

  lemma SmallerExponent(a: Dec, b: Dec)
    requires Canonical(a) && Canonical(b) && Magnitude(a) == Magnitude(b) && a.exp <= b.exp
    ensures a.coeff == b.coeff && a.exp == b.exp
  {
    hide Mag;
    var k := b.exp - a.exp;
    MagShift(b.coeff, a.exp, k);
    MagDetermines(a.coeff, b.coeff * Pow10(k), a.exp);
    if k > 0 {
      assert b.coeff * (10 * Pow10(k - 1)) == 10 * (b.coeff * Pow10(k - 1));
      Pow10Positive(k);
      AtLeastFactor(b.coeff, Pow10(k));
    }
  }

  /** A storable value always prints, as the same value with no positive exponent and, after a
      point, no trailing zero. */
  lemma PlainKeepsValue(d: Dec)
    requires FitsColumn(d)
    ensures Plain(d).Ok?
    ensures var p := Plain(d).value;
      p.exp <= 0 && p.neg == d.neg && Magnitude(p) == Magnitude(d) && (p.exp < 0 ==> p.coeff % 10 != 0)
  {
    NormalizeKeepsValue(d);
    var n := Normalize(d);
    hide Mag, Normalize;
    if n.exp > 0 {
      MagShift(n.coeff, 0, n.exp);
    }
  }

  // ---- Reading back what was printed --------------------------------------------------------------

  lemma {:induction false} DigitsParse(n: nat)
    ensures Digits(n) != "" && AllDigits(Digits(n)) && FromDigits(Digits(n)) == n
  {
    if n >= 10 {
      DigitsParse(n / 10);
      assert Digits(n)[..|Digits(n)| - 1] == Digits(n / 10);
    } else {
      assert Digits(n)[..0] == "";
    }
  }

  lemma OneMoreDigit(s: string, digit: nat)
    requires AllDigits(s) && digit < 10
    ensures AllDigits(s + [DigitChar(digit)])
    ensures FromDigits(s + [DigitChar(digit)]) == 10 * FromDigits(s) + digit
  {
    assert (s + [DigitChar(digit)])[..|s|] == s;
  }

  lemma {:induction false} PaddedParse(whole: string, n: nat, width: nat)
    requires AllDigits(whole) && n < Pow10(width)
    ensures |Padded(n, width)| == width && AllDigits(Padded(n, width))
    ensures AllDigits(whole + Padded(n, width))
    ensures FromDigits(whole + Padded(n, width)) == FromDigits(whole) * Pow10(width) + n
  {
    if width == 0 {
      assert whole + Padded(n, width) == whole;
    } else {
      PaddedParse(whole, n / 10, width - 1);
      OneMoreDigit(whole + Padded(n / 10, width - 1), n % 10);
      assert whole + Padded(n, width) == whole + Padded(n / 10, width - 1) + [DigitChar(n % 10)];
      hide Padded, FromDigits;
      Triple(10, FromDigits(whole), Pow10(width - 1));
      Triple(FromDigits(whole), 10, Pow10(width - 1));
    }
  }

  lemma DivideOut(n: nat, p: nat)
    requires p > 0
    ensures Quot(n, p) * p + Rem(n, p) == n && Rem(n, p) < p
  {
  }

  lemma {:induction false} FindNone(s: string, stops: string)
    requires forall i :: 0 <= i < |s| ==> s[i] !in stops
    ensures Find(s, stops) == |s|
  {
    if s == "" {
    } else {
      FindNone(s[1..], stops);
    }
  }

  lemma {:induction false} FindFirst(before: string, rest: string, stops: string)
    requires forall i :: 0 <= i < |before| ==> before[i] !in stops
    requires rest != "" && rest[0] in stops
    ensures Find(before + rest, stops) == |before|
  {
    if before == "" {
    } else {
      assert (before + rest)[1..] == before[1..] + rest;
      FindFirst(before[1..], rest, stops);
    }
  }

  // ---- The 28-digit context ----------------------------------------------------------------------

  lemma {:induction false} ExcessIs(coeff: nat)
    ensures var k := ExcessDigits(coeff);
      && coeff < LIMIT * Pow10(k)
      && (k > 0 ==> LIMIT * Pow10(k - 1) <= coeff)
  {
    if coeff < LIMIT {
    } else {
      ExcessIs(coeff / 10);
      var k := ExcessDigits(coeff / 10);
      TenfoldBound(coeff, LIMIT, Pow10(k));
      if k > 0 {
        TenfoldReach(coeff, LIMIT, Pow10(k - 1));
      }
    }
  }

  lemma TenfoldBound(n: nat, limit: nat, p: nat)
    requires n / 10 < limit * p
    ensures n < limit * (10 * p)
  {
    assert limit * (10 * p) == 10 * (limit * p);
  }

  lemma TenfoldReach(n: nat, limit: nat, p: nat)
    requires limit * p <= n / 10
    ensures limit * (10 * p) <= n
  {
    assert limit * (10 * p) == 10 * (limit * p);
  }

  /** Twice how far one coefficient is from another, in units of the exponent. */
  lemma MagGap(a: nat, b: nat, e: int)
    ensures Mag(a, e) - Mag(b, e) == (a - b) as real * P10(e)
  {
  }

  /** What `RoundToContext` makes of the coefficient, k digits shorter. */
  lemma ContextIs(d: Dec)
    ensures var k := ExcessDigits(d.coeff);
      && Pow10(k) > 0
      && (k == 0 ==> RoundToContext(d) == d)
      && (k > 0 ==>
            var q, m := Quot(d.coeff, Pow10(k)), Rem(d.coeff, Pow10(k));
            RoundToContext(d) ==
            Dec(d.neg, if 2 * m > Pow10(k) || (2 * m == Pow10(k) && q % 2 == 1) then q + 1 else q, d.exp + k))
  {
    Pow10Positive(ExcessDigits(d.coeff));
    hide ExcessDigits, Quot, Rem, Pow10;
  }

  /** k digits less leave at most 28, and at least that many. */
  lemma QuotientFits(n: nat, k: nat)
    requires k > 0 && k == ExcessDigits(n) && Pow10(k) > 0
    ensures LIMIT <= 10 * Quot(n, Pow10(k)) < 10 * LIMIT
  {
    ExcessIs(n);
    var t := 1000000000000000000000000000;
    assert LIMIT == 10 * t;
    Triple(t, 10, Pow10(k - 1));
    QuotientBounds(n, Pow10(k), t, LIMIT);
  }

  lemma QuotientBounds(n: nat, p: nat, low: nat, high: nat)
    requires p > 0 && low * p <= n < high * p
    ensures low <= Quot(n, p) < high
  {
    DivideOut(n, p);
    hide Quot, Rem;
    if Quot(n, p) >= high {
      TimesGrows(high, Quot(n, p), p);
    } else if Quot(n, p) < low {
      TimesGrows(Quot(n, p) + 1, low, p);
    }
  }

  /** A coefficient with k digits dropped is as far from the value as the multiple of 10^k is from it. */
  lemma GapIs(r: nat, coeff: nat, e: int, k: nat)
    ensures P10(e) > 0.0 && P10(e + k) == P10(e) * Pow10(k) as real
    ensures Mag(r, e + k) - Mag(coeff, e) == (r * Pow10(k) - coeff) as real * P10(e)
  {
    P10Step(e);
    MagShift(r, e, k);
    P10Adds(e, k);
    MagGap(r * Pow10(k), coeff, e);
  }

  /** The context keeps values of at most 28 digits; of longer ones it keeps 28, the nearest such value,
      and of two equally near the even one. */
  lemma ContextRoundsToNearest(d: Dec)
    ensures var r := RoundToContext(d);
      && r.neg == d.neg && r.coeff <= LIMIT
      && (d.coeff < LIMIT ==> r == d)
      && (d.coeff >= LIMIT ==> 10 * r.coeff >= LIMIT)
      && Abs(Magnitude(r) - Magnitude(d)) <= P10(r.exp) / 2.0
      && (Abs(Magnitude(r) - Magnitude(d)) == P10(r.exp) / 2.0 ==> r.coeff % 2 == 0)
  {
    hide RoundToContext, Quot, Rem, Pow10, Mag, P10, ExcessDigits;
    var k, r := ExcessDigits(d.coeff), RoundToContext(d);
    ContextIs(d);
    ExcessNeeded(d.coeff);
    GapIs(r.coeff, d.coeff, d.exp, k);
    if k > 0 {
      var p := Pow10(k);
      DivideOut(d.coeff, p);
      QuotientFits(d.coeff, k);
      NearestMultiple(d.coeff, p, r.coeff, Quot(d.coeff, p), Rem(d.coeff, p));
      HalfTheGap(r.coeff * p - d.coeff, p, P10(d.exp));
    }
  }

  lemma ExcessNeeded(n: nat)
    ensures ExcessDigits(n) == 0 <==> n < LIMIT
  {
  }

  lemma TimesGrows(a: nat, b: nat, c: nat)
    requires a <= b
    ensures a * c <= b * c
  {
  }

  lemma NearestMultiple(n: int, p: int, r: int, q: int, m: int)
    requires q * p + m == n && 0 <= m < p
    requires r == if 2 * m > p || (2 * m == p && q % 2 == 1) then q + 1 else q
    ensures -p <= 2 * (r * p - n) <= p
    ensures 2 * (r * p - n) == p || 2 * (r * p - n) == -p ==> r % 2 == 0
  {
    assert (q + 1) * p == q * p + p;
  }

  lemma HalfTheGap(gap: int, p: int, unit: real)
    requires unit > 0.0 && p > 0 && -p <= 2 * gap <= p
    ensures Abs(gap as real * unit) <= unit * p as real / 2.0
    ensures Abs(gap as real * unit) == unit * p as real / 2.0 ==> 2 * gap == p || 2 * gap == -p
  {
    var g, q := 2.0 * gap as real, p as real;
    assert -q <= g <= q;
    TwiceTheGap(g, q, unit);
    assert g * unit == 2.0 * (gap as real * unit);
    assert q * unit == unit * p as real;
  }

  lemma TwiceTheGap(g: real, q: real, unit: real)
    requires unit > 0.0 && -q <= g <= q
    ensures -(q * unit) <= g * unit <= q * unit
    ensures g * unit == q * unit ==> g == q
    ensures g * unit == -(q * unit) ==> g == -q
  {
    if g < q {
      ScaleGrows(g, q, unit);
    }
    if -q < g {
      ScaleGrows(-q, g, unit);
    }
  }

  // ---- Splitting what was printed -----------------------------------------------------------------

  function Unsigned(d: Dec): string
    requires d.exp <= 0
  {
    Format(Dec(false, d.coeff, d.exp))
  }

  /** The printed digits, split at the point. */
  lemma UnsignedIs(d: Dec) returns (whole: string, fraction: string)
    requires d.exp <= 0
    ensures whole != "" && AllDigits(whole) && AllDigits(fraction) && |fraction| == -d.exp
    ensures Unsigned(d) == if d.exp == 0 then whole else whole + "." + fraction
    ensures AllDigits(whole + fraction) && FromDigits(whole + fraction) == d.coeff
    ensures d.exp < 0 ==> Pow10(-d.exp) > 0 && fraction == Padded(Rem(d.coeff, Pow10(-d.exp)), -d.exp)
  {
    if d.exp == 0 {
      whole, fraction := Digits(d.coeff), "";
      DigitsParse(d.coeff);
      assert whole + fraction == whole;
      assert "" + whole == whole;
    } else {
      var p := Pow10(-d.exp);
      Pow10Positive(-d.exp);
      DivideOut(d.coeff, p);
      hide Quot, Rem, Pow10;
      whole, fraction := Digits(Quot(d.coeff, p)), Padded(Rem(d.coeff, p), -d.exp);
      DigitsParse(Quot(d.coeff, p));
      PaddedParse(whole, Rem(d.coeff, p), -d.exp);
      assert "" + whole + "." + fraction == whole + "." + fraction;
    }
  }

  ghost predicate PlainChar(c: char) {
    IsDigit(c) || c == '.' || c == '-'
  }

  lemma FormatSigned(d: Dec)
    requires d.exp <= 0
    ensures Format(d) == (if d.neg then "-" else "") + Unsigned(d)
  {
    hide Pow10, Padded, Digits;
  }

  lemma BodyParses(d: Dec) returns (whole: string, fraction: string)
    requires d.exp <= 0
    ensures Unsigned(d) != "" && IsDigit(Unsigned(d)[0])
    ensures forall i :: 0 <= i < |Unsigned(d)| ==> PlainChar(Unsigned(d)[i])
    ensures Find(Unsigned(d), "eE") == |Unsigned(d)|
    ensures whole == BeforePoint(Unsigned(d)) && fraction == AfterPoint(Unsigned(d))
    ensures AllDigits(whole) && AllDigits(fraction) && whole != "" && |fraction| == -d.exp
    ensures AllDigits(whole + fraction) && FromDigits(whole + fraction) == d.coeff
  {
    whole, fraction := UnsignedIs(d);
    hide Unsigned, FromDigits, Padded, Find, BeforePoint, AfterPoint;
    if d.exp == 0 {
      NoPoint(whole);
    } else {
      PointSplits(whole, fraction);
    }
  }

  lemma NoPoint(whole: string)
    requires AllDigits(whole)
    ensures Find(whole, "eE") == |whole| && BeforePoint(whole) == whole && AfterPoint(whole) == ""
  {
    FindNone(whole, "eE");
    FindNone(whole, ".");
    assert whole[..|whole|] == whole;
  }

  lemma PointSplits(whole: string, fraction: string)
    requires AllDigits(whole) && AllDigits(fraction)
    ensures var s := whole + "." + fraction;
      Find(s, "eE") == |s| && BeforePoint(s) == whole && AfterPoint(s) == fraction
  {
    var s := whole + "." + fraction;
    FindNone(s, "eE");
    assert s == whole + ("." + fraction);
    FindFirst(whole, "." + fraction, ".");
    assert s[..|whole|] == whole && s[|whole| + 1..] == fraction;
  }

  lemma NothingToStrip(s: string)
    requires forall i :: 0 <= i < |s| ==> PlainChar(s[i])
    ensures Strip(s) == s
  {
    if s != "" {
      assert PlainChar(s[0]) && PlainChar(s[|s| - 1]);
    }
  }

  lemma ParseSignedIs(neg: bool, body: string)
    requires body != "" && IsDigit(body[0])
    ensures ParseSigned((if neg then "-" else "") + body) == (neg, body)
  {
    assert ("-" + body)[1..] == body && "" + body == body;
  }

  lemma ParseDecimalIs(s: string, d: Dec)
    requires d.exp <= 0 && ParseSigned(s) == (d.neg, Unsigned(d))
    ensures ParseDecimal(s) == Ok(d)
  {
    var whole, fraction := BodyParses(d);
    hide Unsigned, FromDigits, Find, ParseSigned, AllDigits, BeforePoint, AfterPoint;
    var body := Unsigned(d);
    assert body[..|body|] == body;
    assert whole + fraction != "";
  }

  lemma FormatIsPlain(d: Dec)
    requires d.exp <= 0
    ensures Format(d) != "" && forall i :: 0 <= i < |Format(d)| ==> PlainChar(Format(d)[i])
    ensures ParseSigned(Format(d)) == (d.neg, Unsigned(d))
  {
    FormatSigned(d);
    var _, _ := BodyParses(d);
    hide Format, Unsigned, ParseSigned, Find;
    ParseSignedIs(d.neg, Unsigned(d));
  }

  /** The parser reads back exactly the number that was printed. */
  lemma FormatParses(d: Dec)
    requires d.exp <= 0
    ensures ToDecimal(Format(d)) == Ok(d)
  {
    FormatIsPlain(d);
    hide Format, Unsigned, ParseDecimal, ParseSigned, Strip;
    ParseDecimalIs(Format(d), d);
    NothingToStrip(Format(d));
  }

  lemma LastOfPadded(n: nat, width: nat)
    requires width > 0
    ensures Padded(n, width) != "" && Padded(n, width)[|Padded(n, width)| - 1] == DigitChar(n % 10)
  {
  }

  lemma RemKeepsLastDigit(n: nat, k: nat)
    requires k > 0 && Pow10(k) > 0
    ensures Rem(n, Pow10(k)) % 10 == n % 10
  {
    hide Quot, Rem;
    DivideOut(n, Pow10(k));
    var m, r := Quot(n, Pow10(k)), Rem(n, Pow10(k));
    TenFirst(m, Pow10(k - 1));
    assert n == 10 * (m * Pow10(k - 1)) + r;
  }

  lemma TenFirst(a: nat, b: nat)
    ensures a * (10 * b) == 10 * (a * b)
  {
  }

  lemma FractionEnds(p: Dec, fraction: string)
    requires p.exp < 0 && p.coeff % 10 != 0 && Pow10(-p.exp) > 0
    requires fraction == Padded(Rem(p.coeff, Pow10(-p.exp)), -p.exp)
    ensures fraction != "" && fraction[|fraction| - 1] != '0' && fraction[|fraction| - 1] != '.'
  {
    LastOfPadded(Rem(p.coeff, Pow10(-p.exp)), -p.exp);
    RemKeepsLastDigit(p.coeff, -p.exp);
    hide Rem, Pow10, Padded;
  }

  /** No fraction is printed with a trailing zero. */
  lemma LastDigitCounts(p: Dec)
    requires p.exp <= 0 && (p.exp < 0 ==> p.coeff % 10 != 0)
    ensures var text := Format(p);
      text != "" && ('.' in text ==> text[|text| - 1] != '0' && text[|text| - 1] != '.')
  {
    FormatSigned(p);
    var whole, fraction := UnsignedIs(p);
    hide Format, Unsigned, Rem, Pow10, Padded, FromDigits;
    if p.exp < 0 {
      FractionEnds(p, fraction);
      var text := Format(p);
      assert text[|text| - 1] == fraction[|fraction| - 1];
    } else {
      assert '.' !in whole;
    }
  }

  lemma WireIsFormat(d: Dec)
    requires FitsColumn(d)
    ensures Plain(d).Ok? && Plain(d).value.exp <= 0 && WireOf(d) == Ok(Format(Plain(d).value))
    ensures var p := Plain(d).value;
      p.neg == d.neg && Value(p) == Value(d) && (p.exp < 0 ==> p.coeff % 10 != 0)
  {
    PlainKeepsValue(d);
    hide Plain, Format, Mag;
  }

  /** `_wire` then `to_decimal` is the identity on storable values, negative zero included; the text
      has no exponent and, after a point, does not end in a zero. */
  lemma WireRoundTrips(d: Dec)
    requires FitsColumn(d)
    ensures WireOf(d).Ok?
    ensures var text := WireOf(d).value;
      && ToDecimal(text).Ok? && ToDecimal(text).value.neg == d.neg && Value(ToDecimal(text).value) == Value(d)
      && (forall i :: 0 <= i < |text| ==> PlainChar(text[i]))
      && ('.' in text ==> text[|text| - 1] != '0' && text[|text| - 1] != '.')
  {
    WireIsFormat(d);
    var p := Plain(d).value;
    hide Plain, WireOf, Format, ToDecimal, Value, FitsColumn, PlainChar;
    FormatParses(p);
    FormatIsPlain(p);
    LastDigitCounts(p);
  }

  lemma SamePlain(a: Dec, b: Dec)
    requires FitsColumn(a) && FitsColumn(b) && Magnitude(a) == Magnitude(b) && a.neg == b.neg
    ensures Plain(a) == Plain(b)
  {
    NormalizeKeepsValue(a);
    NormalizeKeepsValue(b);
    CanonicalIsUnique(Normalize(a), Normalize(b));
  }

  lemma MagSign(coeff: nat, e: int)
    ensures Mag(coeff, e) >= 0.0 && (Mag(coeff, e) == 0.0 <==> coeff == 0)
  {
    P10Step(e);
    if coeff > 0 {
      ScaleGrows(0.0, coeff as real, P10(e));
    }
  }

  /** Two storable values print the same text exactly when they are equal, zeros of opposite sign
      being the one exception. */
  lemma EqualValuesPrintAlike(a: Dec, b: Dec)
    requires FitsColumn(a) && FitsColumn(b)
    ensures WireOf(a) == WireOf(b) <==> Value(a) == Value(b) && (a.coeff == 0 ==> a.neg == b.neg)
  {
    MagSign(a.coeff, a.exp);
    MagSign(b.coeff, b.exp);
    WireRoundTrips(a);
    WireRoundTrips(b);
    if Value(a) == Value(b) && a.neg == b.neg {
      SamePlain(a, b);
    }
    hide WireOf, ToDecimal, Mag;
    if WireOf(a) == WireOf(b) {
      assert a.neg == b.neg && Value(a) == Value(b);
    }
  }

  /** Negative zero prints a sign that equal zero does not. */
  lemma NegativeZeroPrintsASign()
    ensures WireOf(Dec(true, 0, -2)) == Ok("-0") && WireOf(Dec(false, 0, -2)) == Ok("0")
    ensures Value(Dec(true, 0, -2)) == Value(Dec(false, 0, -2))
  {
    assert Mag(0, -2) == 0.0 * P10(-2);
    assert Digits(0) == "0" && "-" + "0" == "-0";
    assert Plain(Dec(true, 0, -2)) == Ok(Dec(true, 0, 0)) && Plain(Dec(false, 0, -2)) == Ok(Dec(false, 0, 0));
    assert Format(Dec(true, 0, 0)) == "-0" && Format(Dec(false, 0, 0)) == "0";
  }
}
