/** The readiness percentage, computed in binary64 arithmetic as Go computes it: two roundings and a truncation. */
module Readiness {

  // ---- facts about products, kept apart from everything else

  lemma MulMonotone(a: real, b: real, c: real)
    requires a <= b && 0.0 <= c
    ensures a * c <= b * c
  {
  }

  /** The same with the products named, so that they are compared as plain numbers. */
  lemma ProductsOrdered(a: real, b: real, c: real, ac: real, bc: real)
    requires a <= b && 0.0 <= c && ac == a * c && bc == b * c
    ensures ac <= bc
  {
    MulMonotone(a, b, c);
  }

  lemma MulStrict(a: real, b: real, c: real)
    requires a < b && 0.0 < c
    ensures a * c < b * c
  {
  }

  lemma MulCancel(a: real, b: real, c: real)
    requires a * c < b * c && 0.0 < c
    ensures a < b
  {
    if b <= a { MulMonotone(b, a, c); }
  }

  lemma DivMul(a: real, b: real)
    requires b != 0.0
    ensures (a / b) * b == a
  {
  }

  lemma DivUnique(a: real, b: real, q: real)
    requires b != 0.0 && a == q * b
    ensures a / b == q
  {
  }

  lemma Rescale(v: real, u: real)
    ensures (v * 2.0) * (u / 2.0) == v * u
    ensures (v / 2.0) * (u * 2.0) == v * u
  {
  }

  // ---- binary64 rounding

  /** Halves v and doubles the unit u until v has 53 bits before the point; x is the value v * u all along. */
  function Lower(v: real, u: real, x: real): (r: real)
    requires v >= 4503599627370496.0 && u > 0.0 && x == v * u
    ensures r > 0.0 && 4503599627370496.0 * r <= x < 9007199254740992.0 * r
    decreases v.Floor
  {
    if v < 9007199254740992.0 then
      InBinade(v, u, x);
      u
    else
      Rescale(v, u);
      Lower(v / 2.0, u * 2.0, x)
  }

  /** Doubles v and halves the unit u until v has 53 bits before the point. */
  function Raise(v: real, u: real, x: real): (r: real)
    requires 0.0 < v < 9007199254740992.0 && u > 0.0 && x == v * u
    ensures r > 0.0 && 4503599627370496.0 * r <= x < 9007199254740992.0 * r
    decreases (9007199254740992.0 / v).Floor
  {
    if v >= 4503599627370496.0 then
      InBinade(v, u, x);
      u
    else
      Rescale(v, u);
      RaiseDecreases(v);
      Raise(v * 2.0, u / 2.0, x)
  }

  lemma InBinade(v: real, u: real, x: real)
    requires 4503599627370496.0 <= v < 9007199254740992.0 && u > 0.0 && x == v * u
    ensures 4503599627370496.0 * u <= x < 9007199254740992.0 * u
  {
    ProductsOrdered(4503599627370496.0, v, u, 4503599627370496.0 * u, x);
    MulStrict(v, 9007199254740992.0, u);
  }

  lemma RaiseDecreases(v: real)
    requires 0.0 < v < 4503599627370496.0
    ensures 0 <= (9007199254740992.0 / (v * 2.0)).Floor < (9007199254740992.0 / v).Floor
  {
    var q := 9007199254740992.0 / v;
    DivMul(9007199254740992.0, v);
    DivUnique(9007199254740992.0, v * 2.0, q / 2.0);
    MulCancel(2.0, q, v);
  }

  /** The distance between neighbouring binary64 values around x. */
  function Spacing(x: real): (u: real)
    requires x > 0.0
    ensures u > 0.0 && 4503599627370496.0 * u <= x < 9007199254740992.0 * u
  {
    if x < 9007199254740992.0 then Raise(x, 1.0, x) else Lower(x, 1.0, x)
  }

  function NearestEven(t: real): (k: int)
    ensures t - 0.5 <= k as real <= t + 0.5
    ensures k as real == t - 0.5 || k as real == t + 0.5 ==> k % 2 == 0
  {
    var f := t.Floor;
    var d := t - f as real;
    if d < 0.5 || (d == 0.5 && f % 2 == 0) then f else f + 1
  }

  function RoundTo(x: real, u: real): real
    requires u > 0.0
  {
    NearestEven(x / u) as real * u
  }

  /** Rounding to the nearest binary64 value, ties to even, for the range without overflow or subnormals
      (section 4.3.1 of IEEE 754-2019). */
  function Round(x: real): real
    requires x >= 0.0
  {
    if x == 0.0 then 0.0 else RoundTo(x, Spacing(x))
  }

  lemma ScaledError(k: real, t: real, u: real, x: real, y: real)
    requires t - 0.5 <= k <= t + 0.5 && u > 0.0 && x == t * u && y == k * u
    ensures -0.5 * u <= y - x <= 0.5 * u
  {
    ProductsOrdered(t - 0.5, k, u, x - 0.5 * u, y);
    ProductsOrdered(k, t + 0.5, u, y, x + 0.5 * u);
  }

  lemma RoundToError(x: real, u: real)
    requires u > 0.0
    ensures -0.5 * u <= RoundTo(x, u) - x <= 0.5 * u
  {
    var t := x / u;
    var k := NearestEven(t) as real;
    DivMul(x, u);
    ScaledError(k, t, u, x, RoundTo(x, u));
  }

  /** Relative error of one rounding: at most 2^-53. */
  lemma RoundError(x: real)
    requires x >= 0.0
    ensures -x <= (Round(x) - x) * 9007199254740992.0 <= x && Round(x) >= 0.0
  {
    if x > 0.0 {
      RoundToError(x, Spacing(x));
    }
  }

  lemma {:induction false} RaiseInteger(n: int, u: real, x: real) returns (m: int)
    requires 1 <= n < 9007199254740992 && u > 0.0 && x == n as real * u
    ensures x == m as real * Raise(n as real, u, x)
    decreases 9007199254740992 - n
  {
    if n >= 4503599627370496 {
      m := n;
    } else {
      Rescale(n as real, u);
      assert (2 * n) as real == n as real * 2.0;
      m := RaiseInteger(2 * n, u / 2.0, x);
    }
  }

  /** Rounding is exact on the integers that binary64 represents. */
  lemma RoundInteger(n: int)
    requires 0 <= n < 9007199254740992
    ensures Round(n as real) == n as real
  {
    if n > 0 {
      var x := n as real;
      var m := RaiseInteger(n, 1.0, x);
      DivUnique(x, Spacing(x), m as real);
      assert NearestEven(m as real) == m;
    }
  }

  // ---- the percentage

  function Quotient(ready: int, replicas: int): (q: real)
    requires 0 <= ready && 1 <= replicas
    ensures q >= 0.0
  {
    DivMul(ready as real, replicas as real);
    var q := ready as real / replicas as real;
    assert q >= 0.0 by { if q < 0.0 { MulStrict(q, 0.0, replicas as real); } }
    q
  }

  /** x * 100, with x and the product rounded. */
  function HundredTimesRounded(x: real): real
    requires x >= 0.0
  {
    RoundError(x);
    Round(Round(x) * 100.0)
  }

  /** float64(ready) / float64(replicas) * 100. */
  function FloatPercent(ready: int, replicas: int): real
    requires 0 <= ready && 1 <= replicas
  {
    HundredTimesRounded(Quotient(ready, replicas))
  }

  function Magnitude(x: int): nat { if x < 0 then -x else x }

  function WithSign(p: int, negative: bool): int { if negative then -p else p }

  /** int32 of that value: truncation toward zero. */
  function Percent(ready: int, replicas: int): int
    requires replicas != 0
  {
    WithSign(FloatPercent(Magnitude(ready), Magnitude(replicas)).Floor, (ready < 0) != (replicas < 0))
  }

  /** The truncation is toward zero, as Go converts a float to an integer. */
  lemma TruncatesTowardZero(ready: int, replicas: int)
    requires ready != 0 && replicas != 0
    ensures Percent(-ready, replicas) == -Percent(ready, replicas)
    ensures Percent(ready, -replicas) == -Percent(ready, replicas)
  {
    assert Magnitude(-ready) == Magnitude(ready) && Magnitude(-replicas) == Magnitude(replicas);
  }

  /** The two roundings together stay within a relative error of 3 * 2^-53. */
  lemma FloatPercentError(ready: int, replicas: int)
    requires 0 <= ready && 1 <= replicas
    ensures
      var x := Quotient(ready, replicas) * 100.0;
      -3.0 * x <= (FloatPercent(ready, replicas) - x) * 9007199254740992.0 <= 3.0 * x
  {
    var y := Quotient(ready, replicas);
    RoundError(y);
    RoundError(Round(y) * 100.0);
  }

  lemma ErrorTimesReplicas(x: real, p: real, n: real, ready: int)
    requires 0 <= ready < 0x8000_0000 && n > 0.0 && x * n == 100.0 * ready as real
    requires -3.0 * x <= (p - x) * 9007199254740992.0 <= 3.0 * x
    ensures -0.5 < (p - x) * n < 0.5
  {
    var e := (p - x) * 9007199254740992.0;
    var scaled := (p - x) * n;
    ProductsOrdered(e, 3.0 * x, n, scaled * 9007199254740992.0, 300.0 * ready as real);
    ProductsOrdered(-3.0 * x, e, n, -300.0 * ready as real, scaled * 9007199254740992.0);
    assert ready as real < 2147483648.0;
  }

  lemma FloorFromScaledError(d: real, e: real, rest: int, replicas: int)
    requires replicas >= 1 && 0 <= rest < replicas
    requires d * replicas as real == e + rest as real && -0.5 < e < 0.5
    ensures -1.0 < d < 1.0 && (rest > 0 ==> 0.0 < d)
  {
    var n := replicas as real;
    var dn := d * n;
    assert (rest + 1) as real <= n;
    assert -n < dn < n;
    MulCancel(d, 1.0, n);
    MulCancel(-1.0, d, n);
    if rest > 0 {
      assert rest as real >= 1.0;
      MulCancel(0.0, d, n);
    }
  }

  lemma FloorFromError(p: real, whole: int, rest: int, replicas: int, x: real)
    requires replicas >= 1 && 0 <= rest < replicas
    requires x * replicas as real == whole as real * replicas as real + rest as real
    requires -0.5 < (p - x) * replicas as real < 0.5
    ensures if rest > 0 then p.Floor == whole else p.Floor == whole || p.Floor == whole - 1
  {
    var d := p - whole as real;
    var e := (p - x) * replicas as real;
    assert d * replicas as real == e + rest as real;
    FloorFromScaledError(d, e, rest, replicas);
  }

  lemma WholeAndRest(ready: int, replicas: int)
    requires 0 <= ready && 1 <= replicas
    ensures 100 * ready == (100 * ready / replicas) * replicas + 100 * ready % replicas
    ensures (Quotient(ready, replicas) * 100.0) * replicas as real == 100.0 * ready as real
    ensures 100.0 * ready as real ==
      (100 * ready / replicas) as real * replicas as real + (100 * ready % replicas) as real
  {
    var whole, rest := 100 * ready / replicas, 100 * ready % replicas;
    DivMul(ready as real, replicas as real);
    RealOfProduct(whole, replicas);
    assert (100 * ready) as real == (whole * replicas) as real + rest as real;
  }

  lemma RealOfProduct(a: int, b: int)
    ensures (a * b) as real == a as real * b as real
  {
  }

  lemma FloorWithinError(ready: int, replicas: int, p: real)
    requires 0 <= ready < 0x8000_0000 && 1 <= replicas
    requires
      var x := Quotient(ready, replicas) * 100.0;
      -3.0 * x <= (p - x) * 9007199254740992.0 <= 3.0 * x
    ensures p.Floor == 100 * ready / replicas || (100 * ready % replicas == 0 && p.Floor == 100 * ready / replicas - 1)
  {
    WholeAndRest(ready, replicas);
    var x := Quotient(ready, replicas) * 100.0;
    ErrorTimesReplicas(x, p, replicas as real, ready);
    FloorFromError(p, 100 * ready / replicas, 100 * ready % replicas, replicas, x);
  }

  /** The truncated percentage is the true one, or one less and only where the true percentage is an integer. */
  lemma PercentIsFloor(ready: int, replicas: int)
    requires 0 <= ready < 0x8000_0000 && 1 <= replicas < 0x8000_0000
    ensures
      || Percent(ready, replicas) == 100 * ready / replicas
      || (100 * ready % replicas == 0 && Percent(ready, replicas) == 100 * ready / replicas - 1)
  {
    FloatPercentError(ready, replicas);
    FloorWithinError(ready, replicas, FloatPercent(ready, replicas));
  }

  /** A workload with all replicas ready is at 100 percent exactly. */
  lemma FullReadinessIsHundred(replicas: int)
    requires 1 <= replicas
    ensures Percent(replicas, replicas) == 100
  {
    DivUnique(replicas as real, replicas as real, 1.0);
    RoundInteger(1);
    RoundInteger(100);
  }

  lemma MulIntMonotone(a: int, b: int, n: int)
    requires a <= b && 0 <= n
    ensures a * n <= b * n
  {
  }

  lemma ThresholdFromFloor(p: int, ready: int, replicas: int, minPercent: int)
    requires 0 <= ready && 1 <= replicas
    requires p == 100 * ready / replicas || (100 * ready % replicas == 0 && p == 100 * ready / replicas - 1)
    ensures p >= minPercent ==> 100 * ready >= minPercent * replicas
    ensures p < minPercent ==> 100 * ready <= minPercent * replicas
  {
    var whole, rest := 100 * ready / replicas, 100 * ready % replicas;
    assert 100 * ready == whole * replicas + rest;
    if p >= minPercent {
      MulIntMonotone(minPercent, whole, replicas);
    } else if rest == 0 {
      MulIntMonotone(whole, minPercent, replicas);
    } else {
      MulIntMonotone(whole + 1, minPercent, replicas);
    }
  }

  /** What the threshold test means: reaching it is sound, and missing it is wrong only at exact equality. */
  lemma ThresholdMeaning(ready: int, replicas: int, minPercent: int)
    requires 0 <= ready < 0x8000_0000 && 1 <= replicas < 0x8000_0000
    ensures Percent(ready, replicas) >= minPercent ==> 100 * ready >= minPercent * replicas
    ensures Percent(ready, replicas) < minPercent ==> 100 * ready <= minPercent * replicas
  {
    PercentIsFloor(ready, replicas);
    ThresholdFromFloor(Percent(ready, replicas), ready, replicas, minPercent);
  }

  // ---- where equality is missed

  lemma {:induction false} RaiseScales(v: real, u: real, x: real)
    requires 0.0 < v < 9007199254740992.0 && u > 0.0 && x == v * u
    ensures 2.0 * x == v * (2.0 * u) && Raise(v, 2.0 * u, 2.0 * x) == 2.0 * Raise(v, u, x)
    decreases (9007199254740992.0 / v).Floor
  {
    if v < 4503599627370496.0 {
      RaiseDecreases(v);
      Rescale(v, u);
      Rescale(v, 2.0 * u);
      RaiseScales(v * 2.0, u / 2.0, x);
    }
  }

  lemma SpacingDoubles(x: real)
    requires 0.0 < x < 4503599627370496.0
    ensures Spacing(2.0 * x) == 2.0 * Spacing(x)
  {
    Rescale(x, 1.0);
    RaiseScales(2.0 * x, 0.5, x);
    assert Raise(x, 1.0, x) == Raise(x * 2.0, 0.5, x);
  }

  lemma RoundToDoubles(x: real, u: real)
    requires u > 0.0
    ensures RoundTo(2.0 * x, 2.0 * u) == 2.0 * RoundTo(x, u)
  {
    DivMul(x, u);
    DivUnique(2.0 * x, 2.0 * u, x / u);
  }

  /** Doubling commutes with rounding. */
  lemma RoundDoubles(x: real)
    requires 0.0 < x < 4503599627370496.0
    ensures Round(2.0 * x) == 2.0 * Round(x)
  {
    SpacingDoubles(x);
    RoundToDoubles(x, Spacing(x));
  }

  predicate PowerOfTwo(n: int) {
    n == 1 || (n > 1 && n % 2 == 0 && PowerOfTwo(n / 2))
  }

  lemma Doubled(v: real, n: int, t: real)
    requires 0.0 < v && 1 <= n && t == v * (2 * n) as real
    ensures (v * 2.0) * n as real == t && 2.0 * v <= t
  {
    var m := n as real;
    assert (2 * n) as real == m * 2.0;
    assert v * (m * 2.0) == (v * 2.0) * m;
    ProductsOrdered(2.0, m * 2.0, v, 2.0 * v, t);
  }

  lemma HalvedOver(u: real, n: int)
    requires 1 <= n
    ensures (u / 2.0) / n as real == u / (2 * n) as real
  {
    var m := n as real;
    assert (2 * n) as real == m * 2.0;
    DivMul(u, m * 2.0);
    DivUnique(u / 2.0, m, u / (m * 2.0));
  }

  /** Raise stops at the power of two that brings v into the binade, at t. */
  lemma {:induction false} RaiseTo(v: real, u: real, x: real, n: int, t: real)
    requires 0.0 < v < 9007199254740992.0 && u > 0.0 && x == v * u && PowerOfTwo(n) && t == v * n as real
    requires 4503599627370496.0 <= t < 9007199254740992.0
    ensures Raise(v, u, x) == u / n as real
    decreases n
  {
    if n == 1 {
      assert t == v;
      DivUnique(u, 1.0, u);
    } else {
      assert n == 2 * (n / 2);
      Doubled(v, n / 2, t);
      Rescale(v, u);
      RaiseTo(v * 2.0, u / 2.0, x, n / 2, t);
      HalvedOver(u, n / 2);
    }
  }

  lemma SpacingAt(x: real, n: int, t: real)
    requires 0.0 < x < 9007199254740992.0 && PowerOfTwo(n) && t == x * n as real
    requires 4503599627370496.0 <= t < 9007199254740992.0
    ensures Spacing(x) * n as real == 1.0
  {
    RaiseTo(x, 1.0, x, n, t);
    DivMul(1.0, n as real);
  }

  lemma MovesOver(x: real, n: real, u: real, t: real)
    requires u * n == 1.0
    ensures t == x * n ==> x == t * u
    ensures x == t * u ==> t == x * n
  {
    if t == x * n { assert t * u == x * (n * u); }
    if x == t * u { assert x * n == t * (u * n); }
  }

  lemma RoundToUnit(x: real, u: real, n: real, t: real, w: real)
    requires u > 0.0 && u * n == 1.0 && t == x * n && w == RoundTo(x, u)
    ensures w * n == NearestEven(t) as real
  {
    MovesOver(x, n, u, t);
    DivUnique(x, u, t);
    MovesOver(w, n, u, NearestEven(t) as real);
  }

  /** The value that x rounds to, given the scale that brings it into the binade, at t. */
  lemma RoundAt(x: real, n: real, t: real)
    requires 0.0 < x && Spacing(x) * n == 1.0 && t == x * n
    ensures Round(x) * n == NearestEven(t) as real
  {
    RoundToUnit(x, Spacing(x), n, t, Round(x));
  }

  /** The nearest integer to q + r / 100, where r is not exactly half way. */
  lemma NearestHundredth(q: int, r: int, t: real)
    requires 0 <= r < 100 && r != 50 && t * 100.0 == (100 * q + r) as real
    ensures NearestEven(t) == if r < 50 then q else q + 1
  {
    assert t.Floor == q;
  }

  lemma {:induction false} PowersMultiply(m: int, n: int)
    requires PowerOfTwo(m) && PowerOfTwo(n)
    ensures PowerOfTwo(m * n)
    decreases n
  {
    if n > 1 {
      PowersMultiply(m, n / 2);
      PowerDoubles(m * (n / 2));
      assert m * n == 2 * (m * (n / 2));
    }
  }

  lemma PowerDoubles(n: int)
    requires PowerOfTwo(n)
    ensures PowerOfTwo(2 * n)
  {
  }

  lemma LargePower() returns (n: int)
    ensures n == 70368744177664 && PowerOfTwo(n)
  {
    assert PowerOfTwo(128) && PowerOfTwo(16);
    n := 128;
    PowersMultiply(n, n);
    n := n * n;
    var m := n;
    PowersMultiply(n, n);
    n := n * n;
    PowersMultiply(n, m);
    n := n * m;
    PowersMultiply(n, 16);
    n := n * 16;
  }

  lemma LargerPower() returns (n: int)
    ensures n == 9007199254740992 && PowerOfTwo(n)
  {
    assert PowerOfTwo(128);
    n := LargePower();
    PowersMultiply(n, 128);
    n := n * 128;
  }

  lemma RoundFrom64(y: real)
    requires 64.0 <= y < 128.0
    ensures Round(y) * 70368744177664.0 == NearestEven(y * 70368744177664.0) as real
  {
    var n := LargePower();
    SpacingAt(y, n, y * 70368744177664.0);
    RoundAt(y, 70368744177664.0, y * 70368744177664.0);
  }

  lemma RoundFrom32(y: real)
    requires 32.0 <= y < 64.0
    ensures Round(y) * 140737488355328.0 == NearestEven(y * 140737488355328.0) as real
  {
    RoundFrom64(2.0 * y);
    RoundDoubles(y);
  }

  lemma RoundFromHalf(x: real)
    requires 0.5 <= x < 1.0
    ensures Round(x) * 9007199254740992.0 == NearestEven(x * 9007199254740992.0) as real
  {
    var n := LargerPower();
    SpacingAt(x, n, x * 9007199254740992.0);
    RoundAt(x, 9007199254740992.0, x * 9007199254740992.0);
  }

  /** s / 64 is rounded to at least the even m exactly when it is at least m - 1/2. */
  lemma NearestOf64(t: real, m: int, s: int)
    requires m % 2 == 0 && t * 64.0 == s as real && 64 * m - 50 < s <= 64 * m + 50
    ensures NearestEven(t) >= m <==> 64 * m - s <= 32
  {
    assert NearestEven(t) as real >= m as real - 0.5 || NearestEven(t) < m;
  }

  lemma NearestOf128(t: real, m: int, s: int)
    requires t * 128.0 == s as real && 128 * m - 50 < s <= 128 * m + 50
    ensures NearestEven(t) >= m
  {
  }

  /** How far below p * 2^53 the multiple of 100 nearest to it is. */
  function Deficit(p: int): int {
    if p * 92 % 100 < 50 then p * 92 % 100 else p * 92 % 100 - 100
  }

  lemma NeverHalfWay(p: int)
    ensures p * 92 % 100 != 50
  {
    assert p * 92 == 4 * (p * 23);
  }

  lemma NearestWhole(p: int, t: real)
    requires t * 100.0 == (p * 9007199254740992) as real
    ensures 100 * NearestEven(t) == p * 9007199254740992 - Deficit(p)
  {
    var rest := p * 92 % 100;
    var q := p * 90071992547409 + p * 92 / 100;
    NeverHalfWay(p);
    assert p * 9007199254740992 == 100 * q + rest;
    NearestHundredth(q, rest, t);
  }

  /** The first rounding, of x = p / 100 for p from 50 to 99. */
  lemma FirstRounding(x: real, p: int)
    requires 50 <= p < 100 && x * 100.0 == p as real
    ensures x > 0.0 && Round(x) * 100.0 * 9007199254740992.0 == (p * 9007199254740992 - Deficit(p)) as real
  {
    RoundFromHalf(x);
    NearestWhole(p, x * 9007199254740992.0);
  }

  lemma AtLeastExactlyWhen(w: real, k: int, p: int)
    requires w * 140737488355328.0 == k as real
    ensures w >= p as real <==> k >= p * 140737488355328
  {
  }

  lemma NearestReaches(y: real, p: int, d: int)
    requires 50 <= p < 64 && -50 <= d < 50 && y * 9007199254740992.0 == (p * 9007199254740992 - d) as real
    ensures 32.0 <= y < 64.0 && (NearestEven(y * 140737488355328.0) >= p * 140737488355328 <==> d <= 32)
  {
    var t, m := y * 140737488355328.0, p * 140737488355328;
    assert t * 64.0 == (64 * m - d) as real;
    assert m == 2 * (p * 70368744177664);
    NearestOf64(t, m, 64 * m - d);
  }

  /** The second rounding, of y close to an integer p. */
  lemma SecondFrom50(y: real, p: int, d: int)
    requires 50 <= p < 64 && -50 <= d < 50 && y * 9007199254740992.0 == (p * 9007199254740992 - d) as real
    ensures y > 0.0 && (Round(y) >= p as real <==> d <= 32)
  {
    NearestReaches(y, p, d);
    RoundFrom32(y);
    AtLeastExactlyWhen(Round(y), NearestEven(y * 140737488355328.0), p);
  }

  lemma SecondFrom64(y: real, p: int, d: int)
    requires 64 <= p < 100 && -50 <= d < 50 && (p == 64 ==> d <= 0)
    requires y * 9007199254740992.0 == (p * 9007199254740992 - d) as real
    ensures y > 0.0 && Round(y) >= p as real
  {
    RoundFrom64(y);
    NearestOf128(y * 70368744177664.0, p * 70368744177664, p * 9007199254740992 - d);
  }

  lemma LargeDeficits(p: int)
    requires 50 <= p < 100
    ensures -50 <= Deficit(p) < 50 && (p == 64 ==> Deficit(p) <= 0) && (p < 64 ==> (Deficit(p) > 32 <==> p in {57, 58}))
  {
  }

  lemma ReachesFrom50(x: real, p: int)
    requires 50 <= p < 100 && x * 100.0 == p as real
    ensures x > 0.0 && (HundredTimesRounded(x) >= p as real <==> p !in {57, 58})
  {
    FirstRounding(x, p);
    LargeDeficits(p);
    if p < 64 {
      SecondFrom50(Round(x) * 100.0, p, Deficit(p));
    } else {
      SecondFrom64(Round(x) * 100.0, p, Deficit(p));
    }
  }

  lemma RoundedStaysSmall(x: real)
    requires 0.0 < x <= 0.5
    ensures 0.0 < Round(x) * 100.0 < 100.0
  {
    RoundError(x);
  }

  lemma HundredTimesDoubles(x: real)
    requires 0.0 < x <= 0.5
    ensures HundredTimesRounded(2.0 * x) == 2.0 * HundredTimesRounded(x)
  {
    RoundedStaysSmall(x);
    RoundDoubles(x);
    RoundDoubles(Round(x) * 100.0);
    assert Round(2.0 * x) * 100.0 == 2.0 * (Round(x) * 100.0);
  }

  /** Whether p percent are reached depends on p only up to doubling, and fails for 57 and 58, and so for 29. */
  lemma {:induction false} Reaches(x: real, p: int)
    requires 1 <= p < 100 && x * 100.0 == p as real
    ensures x > 0.0 && (HundredTimesRounded(x) >= p as real <==> p !in {29, 57, 58})
    decreases 100 - p
  {
    if p < 50 {
      Reaches(2.0 * x, 2 * p);
      HundredTimesDoubles(x);
    } else {
      ReachesFrom50(x, p);
    }
  }

  /** The integer percentages up to 100 that are computed one short are 29, 57 and 58. */
  lemma WholePercentIsShortExactlyWhen(p: int)
    requires 0 <= p <= 100
    ensures Percent(p, 100) == if p in {29, 57, 58} then p - 1 else p
  {
    if p == 0 {
      DivUnique(0.0, 100.0, 0.0);
    } else if p == 100 {
      FullReadinessIsHundred(100);
    } else {
      DivMul(p as real, 100.0);
      Reaches(Quotient(p, 100), p);
      PercentIsFloor(p, 100);
    }
  }

  lemma QuotientOfShare(ready: int, replicas: int, p: int)
    requires 0 <= ready && 1 <= replicas && 0 <= p && 100 * ready == p * replicas
    ensures Quotient(ready, replicas) == Quotient(p, 100)
  {
    var x := Quotient(p, 100);
    DivMul(p as real, 100.0);
    RealOfProduct(p, replicas);
    ShareOf(x, p, replicas, ready);
    DivUnique(ready as real, replicas as real, x);
  }

  /** Equal shares give equal percentages. */
  lemma PercentOfShare(ready: int, replicas: int, p: int)
    requires 0 <= ready && 1 <= replicas && 0 <= p && 100 * ready == p * replicas
    ensures Percent(ready, replicas) == Percent(p, 100)
  {
    QuotientOfShare(ready, replicas, p);
  }

  lemma Associates(x: real, y: real, z: real)
    ensures x * y * z == x * z * y && x * y * z == x * (y * z)
  {
  }

  lemma ShareOf(x: real, p: int, replicas: int, ready: int)
    requires x * 100.0 == p as real && (100 * ready) as real == p as real * replicas as real
    ensures ready as real == x * replicas as real
  {
    Associates(x, 100.0, replicas as real);
  }

  /** Exactly when the computed percentage is the true one, rounded down: unless exactly 29, 57 or 58 percent are ready.
      */
  lemma PercentIsFloorExactlyWhen(ready: int, replicas: int)
    requires 0 <= ready <= replicas < 0x8000_0000 && 1 <= replicas
    ensures Percent(ready, replicas) == 100 * ready / replicas <==>
      100 * ready !in {29 * replicas, 57 * replicas, 58 * replicas}
  {
    var p := 100 * ready / replicas;
    PercentIsFloor(ready, replicas);
    if 100 * ready % replicas == 0 {
      ShareInRange(ready, replicas, p);
      PercentOfShare(ready, replicas, p);
      WholePercentIsShortExactlyWhen(p);
      SameShare(p, 29, replicas);
      SameShare(p, 57, replicas);
      SameShare(p, 58, replicas);
    } else {
      WholeShare(29, replicas, ready);
      WholeShare(57, replicas, ready);
      WholeShare(58, replicas, ready);
    }
  }

  lemma ShareInRange(ready: int, replicas: int, p: int)
    requires 0 <= ready <= replicas && 1 <= replicas && p == 100 * ready / replicas && 100 * ready % replicas == 0
    ensures 100 * ready == p * replicas && 0 <= p <= 100
  {
    if p > 100 { MulIntMonotone(101, p, replicas); }
    if p < 0 { MulIntMonotone(p, -1, replicas); }
  }

  lemma SameShare(p: int, q: int, replicas: int)
    requires 1 <= replicas
    ensures p * replicas == q * replicas <==> p == q
  {
  }

  lemma WholeShare(q: int, replicas: int, ready: int)
    requires 1 <= replicas && 100 * ready % replicas != 0
    ensures 100 * ready != q * replicas
  {
    if 100 * ready == q * replicas { MultipleHasNoRest(q, replicas); }
  }

  lemma MultipleHasNoRest(q: int, n: int)
    requires 1 <= n
    ensures (q * n) % n == 0
  {
    var d, r := q * n / n, q * n % n;
    assert (q - d) * n == r;
    if q - d >= 1 { MulIntMonotone(1, q - d, n); }
    if q - d <= -1 { MulIntMonotone(q - d, -1, n); }
  }

  /** Exactly when the threshold test decides as the true share would, for thresholds up to 100: unless the threshold is
      29, 57 or 58 and exactly that share is ready. */
  lemma ThresholdExactlyWhen(ready: int, replicas: int, minPercent: int)
    requires 0 <= ready < 0x8000_0000 && 1 <= replicas < 0x8000_0000 && (minPercent <= 100 || ready <= replicas)
    ensures (Percent(ready, replicas) >= minPercent <==> 100 * ready >= minPercent * replicas) <==>
      !(minPercent in {29, 57, 58} && 100 * ready == minPercent * replicas)
  {
    ThresholdMeaning(ready, replicas, minPercent);
    if 100 * ready == minPercent * replicas && minPercent >= 0 {
      ThresholdAtMost(ready, replicas, minPercent);
      PercentOfShare(ready, replicas, minPercent);
      WholePercentIsShortExactlyWhen(minPercent);
    } else if minPercent < 0 {
      PercentIsFloor(ready, replicas);
    }
  }

  lemma ThresholdAtMost(ready: int, replicas: int, minPercent: int)
    requires 1 <= replicas && 100 * ready == minPercent * replicas && (minPercent <= 100 || ready <= replicas)
    ensures minPercent <= 100
  {
    if minPercent > 100 { MulIntMonotone(101, minPercent, replicas); }
  }

  /** So 29 of 100 ready counts as 28 percent. */
  lemma TwentyNineOfHundred()
    ensures Percent(29, 100) == 28
  {
    WholePercentIsShortExactlyWhen(29);
  }
}
