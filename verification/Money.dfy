/** Exact money arithmetic shared by every module: reals for `Decimal`, the
    8-place storage scale, and order-independent sums over a dictionary's keys. */
module Money {

  datatype Option<+T> = None | Some(value: T) {
    function GetOr(default: T): T {
      match this
      case Some(v) => v
      case None => default
    }
  }

  datatype Result<+T, +E> = Ok(value: T) | Err(error: E)

  function Min(a: real, b: real): real {
    if a <= b then a else b
  }

  function Max(a: real, b: real): real {
    if a >= b then a else b
  }

  function Abs(a: real): real {
    if a < 0.0 then -a else a
  }

  /** A product kept as one term, so that proofs can treat it as linear. */
  function Scale(x: real, factor: real): real {
    x * factor
  }

  lemma ScaleGrows(a: real, b: real, factor: real)
    requires a < b && factor > 0.0
    ensures Scale(a, factor) < Scale(b, factor)
  {
  }

  lemma ScaleAdds(a: real, b: real, factor: real)
    ensures Scale(a + b, factor) == Scale(a, factor) + Scale(b, factor)
    ensures Scale(0.0, factor) == 0.0
  {
  }

  lemma ScaleMultiplies(x: real, factor: real)
    ensures Scale(x, factor) == x * factor
  {
  }

  lemma RatioBound(x: real, y: real, c: real)
    requires y > 0.0
    ensures x / y * y == x
    ensures x / y >= c <==> x >= c * y
    ensures x > 0.0 ==> x / y > 0.0
  {
    var q := x / y;
    assert q * y == x;
    if q >= c {
      assert q * y >= c * y;
    } else {
      assert q * y < c * y;
    }
  }

  lemma RatioIs(x: real, y: real, q: real)
    requires y != 0.0 && q * y == x
    ensures x / y == q
  {
    assert (x / y - q) * y == 0.0;
  }

  // ---- Rounding ---------------------------------------------------------

  /** Python's `round`: nearest integer, ties to the even neighbour. */
  function RoundHalfEven(x: real): int {
    var f := x.Floor;
    var d := x - f as real;
    if d < 0.5 || (d == 0.5 && f % 2 == 0) then f else f + 1
  }

  lemma NearestIsNear(x: real)
    ensures -0.5 <= RoundHalfEven(x) as real - x <= 0.5
  {
  }

  /** Half way between two integers `round` takes the even one. */
  lemma TiesGoToEven(n: int)
    ensures RoundHalfEven(n as real + 0.5) == if n % 2 == 0 then n else n + 1
  {
  }

  /** An amount in units of the storage scale (`MONEY_PLACES` = 8). */
  function Units(x: real): real {
    x * 100000000.0
  }

  function Round8(x: real): real {
    RoundHalfEven(Units(x)) as real / 100000000.0
  }

  /** `round(x, 6)`. */
  function Round6(x: real): real {
    RoundHalfEven(x * 1000000.0) as real / 1000000.0
  }

  /** `round(x, 2)`. */
  function Round2(x: real): real {
    RoundHalfEven(x * 100.0) as real / 100.0
  }

  /** A whole number of cents. */
  predicate Cents(x: real) {
    (x * 100.0).Floor as real == x * 100.0
  }

  lemma Round2Error(x: real)
    ensures Cents(Round2(x)) && Abs(Round2(x) - x) <= 0.005
  {
    NearestIsNear(x * 100.0);
    var n := RoundHalfEven(x * 100.0);
    hide RoundHalfEven;
    assert Round2(x) * 100.0 == n as real;
  }

  lemma Round2OfCents(x: real)
    requires Cents(x)
    ensures Round2(x) == x
  {
    assert RoundHalfEven(x * 100.0) == (x * 100.0).Floor;
  }

  lemma CentsAdd(x: real, y: real)
    requires Cents(x) && Cents(y)
    ensures Cents(x + y)
  {
    var a, b := (x * 100.0).Floor, (y * 100.0).Floor;
    assert (x + y) * 100.0 == (a + b) as real;
  }

  /** Representable in a NUMERIC(28,8) column: a whole number of units. */
  predicate OnGrid(x: real) {
    Units(x).Floor as real == Units(x)
  }

  /** Rounding moves an amount by at most half a unit in the eighth place. */
  lemma Round8Error(x: real)
    ensures Abs(Round8(x) - x) <= 0.000000005
  {
    NearestIsNear(Units(x));
    hide RoundHalfEven;
    assert Units(Round8(x)) == RoundHalfEven(Units(x)) as real;
  }

  lemma Round8OnGrid(x: real)
    requires OnGrid(x)
    ensures Round8(x) == x
  {
    assert RoundHalfEven(Units(x)) == Units(x).Floor;
  }

  /** Rounding never lifts an amount over one that is representable. */
  lemma Round8StaysBelow(x: real, y: real)
    requires OnGrid(y) && x <= y
    ensures Round8(x) <= y
  {
    var n := Units(y).Floor;
    assert Units(x) <= n as real;
    assert RoundHalfEven(Units(x)) <= n;
  }

  lemma GridIsClosed(x: real, y: real)
    requires OnGrid(x) && OnGrid(y)
    ensures OnGrid(x + y) && OnGrid(x - y)
  {
    var a, b := Units(x).Floor, Units(y).Floor;
    assert Units(x + y) == (a + b) as real;
    assert Units(x - y) == (a - b) as real;
  }

  // ---- What a column keeps -----------------------------------------------------

  /** The nearest integer, ties away from zero. */
  function RoundHalfAway(x: real): int {
    if x >= 0.0 then (x + 0.5).Floor else -(0.5 - x).Floor
  }

  /** An amount as a NUMERIC(28,8) column gives it back. */
  function Stored(x: real): real {
    RoundHalfAway(Units(x)) as real / 100000000.0
  }

  lemma AwayIsNear(x: real)
    ensures -0.5 <= RoundHalfAway(x) as real - x <= 0.5
    ensures x >= 0.0 ==> RoundHalfAway(x) >= 0
  {
  }

  /** Half way between two integers a column takes the one further from zero. */
  lemma TiesGoAway(n: nat)
    ensures RoundHalfAway(n as real + 0.5) == n + 1 && RoundHalfAway(-(n as real + 0.5)) == -(n + 1)
  {
  }

  lemma AwayOfWhole(x: real, n: int)
    ensures x == n as real ==> RoundHalfAway(x) == n
    ensures x <= n as real ==> RoundHalfAway(x) <= n
  {
  }

  lemma StoredInUnits(x: real)
    ensures Units(Stored(x)) == RoundHalfAway(Units(x)) as real
  {
    hide RoundHalfAway;
  }

  /** It is on the storage scale, of the same sign, and off by at most half a unit in the eighth place. */
  lemma StoredIsClose(x: real)
    ensures OnGrid(Stored(x)) && Abs(Stored(x) - x) <= 0.000000005
    ensures x >= 0.0 ==> Stored(x) >= 0.0
  {
    AwayIsNear(Units(x));
    StoredInUnits(x);
    hide RoundHalfAway;
  }

  /** An amount already on the scale is kept. */
  lemma StoredOnGrid(x: real)
    requires OnGrid(x)
    ensures Stored(x) == x
  {
    AwayOfWhole(Units(x), Units(x).Floor);
    hide RoundHalfAway;
  }

  /** Storing never lifts an amount over one on the scale. */
  lemma StoredStaysBelow(x: real, y: real)
    requires OnGrid(y) && x <= y
    ensures Stored(x) <= y
  {
    AwayOfWhole(Units(x), Units(y).Floor);
    hide RoundHalfAway;
  }

  // ---- Sums over a list ---------------------------------------------------

  function Total<T>(xs: seq<T>, f: T -> real): real {
    if xs == [] then 0.0 else Total(xs[..|xs| - 1], f) + f(xs[|xs| - 1])
  }

  lemma TotalOne<T>(x: T, f: T -> real)
    ensures Total([], f) == 0.0 && Total([x], f) == f(x)
  {
    assert [x][..0] == [];
  }

  lemma {:induction false} TotalConcat<T>(a: seq<T>, b: seq<T>, f: T -> real)
    ensures Total(a + b, f) == Total(a, f) + Total(b, f)
  {
    if b == [] {
      assert a + b == a;
    } else {
      TotalConcat(a, b[..|b| - 1], f);
      assert (a + b)[..|a + b| - 1] == a + b[..|b| - 1];
    }
  }

  /** Any position may be summed first. */
  lemma TotalAt<T>(xs: seq<T>, i: nat, f: T -> real)
    requires i < |xs|
    ensures Total(xs, f) == Total(xs[..i], f) + f(xs[i]) + Total(xs[i + 1..], f)
  {
    TotalOne(xs[i], f);
    TotalConcat(xs[..i], [xs[i]], f);
    TotalConcat(xs[..i] + [xs[i]], xs[i + 1..], f);
    assert xs == xs[..i] + [xs[i]] + xs[i + 1..];
  }

  // ---- Sums over a finite set of keys ------------------------------------

  ghost function Pick<K>(ks: set<K>): K
    requires ks != {}
  {
    var k :| k in ks; k
  }

  ghost function SumOver<K>(ks: set<K>, f: K -> real): real {
    if ks == {} then 0.0 else f(Pick(ks)) + SumOver(ks - {Pick(ks)}, f)
  }

  /** Any key may be taken out first, so the sum does not depend on iteration order. */
  lemma {:induction false} SumOverRemove<K>(ks: set<K>, k: K, f: K -> real)
    requires k in ks
    ensures SumOver(ks, f) == f(k) + SumOver(ks - {k}, f)
  {
    var p := Pick(ks);
    if p != k {
      SumOverRemove(ks - {p}, k, f);
      SumOverRemove(ks - {k}, p, f);
      assert ks - {p} - {k} == ks - {k} - {p};
    }
  }

  lemma {:induction false} SumOverSame<K>(ks: set<K>, f: K -> real, g: K -> real)
    requires forall k :: k in ks ==> f(k) == g(k)
    ensures SumOver(ks, f) == SumOver(ks, g)
  {
    if ks == {} {
    } else {
      SumOverSame(ks - {Pick(ks)}, f, g);
    }
  }

  /** Two summands that differ at one key only: the sums differ by that change. */
  lemma SumOverChange<K>(ks: set<K>, k: K, f: K -> real, g: K -> real)
    requires k in ks
    requires forall j :: j in ks && j != k ==> f(j) == g(j)
    ensures SumOver(ks, g) == SumOver(ks, f) - f(k) + g(k)
  {
    SumOverRemove(ks, k, f);
    SumOverRemove(ks, k, g);
    SumOverSame(ks - {k}, f, g);
  }

  /** A bound on every summand is a bound on the sum. */
  lemma {:induction false} SumOverBound<K>(ks: set<K>, f: K -> real, weight: K -> real, c: real)
    requires forall k :: k in ks ==> Abs(f(k)) <= Scale(weight(k), c)
    ensures Abs(SumOver(ks, f)) <= Scale(SumOver(ks, weight), c)
  {
    if ks == {} {
    } else {
      var k := Pick(ks);
      SumOverBound(ks - {k}, f, weight, c);
      ScaleAdds(weight(k), SumOver(ks - {k}, weight), c);
    }
  }

  lemma {:induction false} SumOverScaled<K>(ks: set<K>, f: K -> real, g: K -> real, c: real)
    requires forall k :: k in ks ==> g(k) == Scale(f(k), c)
    ensures SumOver(ks, g) == Scale(SumOver(ks, f), c)
  {
    if ks == {} {
    } else {
      SumOverScaled(ks - {Pick(ks)}, f, g, c);
      ScaleAdds(f(Pick(ks)), SumOver(ks - {Pick(ks)}, f), c);
    }
  }

  lemma {:induction false} SumOverZero<K>(ks: set<K>, f: K -> real)
    requires forall k :: k in ks ==> f(k) == 0.0
    ensures SumOver(ks, f) == 0.0
  {
    if ks == {} {
    } else {
      SumOverZero(ks - {Pick(ks)}, f);
    }
  }

  /** Keys that contribute nothing may be added freely. */
  lemma {:induction false} SumOverWiden<K>(ks: set<K>, more: set<K>, f: K -> real)
    requires ks <= more
    requires forall k :: k in more - ks ==> f(k) == 0.0
    ensures SumOver(more, f) == SumOver(ks, f)
    decreases more
  {
    if more - ks == {} {
      assert forall k :: k in more ==> k in ks || k in more - ks;
      assert ks == more;
    } else {
      var k := Pick(more - ks);
      SumOverRemove(more, k, f);
      SumOverWiden(ks, more - {k}, f);
    }
  }

  lemma {:induction false} SumOverPlus<K>(ks: set<K>, f: K -> real, g: K -> real, h: K -> real)
    requires forall k :: k in ks ==> h(k) == f(k) + g(k)
    ensures SumOver(ks, h) == SumOver(ks, f) + SumOver(ks, g)
  {
    if ks == {} {
    } else {
      SumOverPlus(ks - {Pick(ks)}, f, g, h);
    }
  }
}
