/** The interpolation search with the floating-point probe of the code, for any
    rounding that has the properties of binary64 rounding. */
module FloatSearch {
  import opened Base
  import opened SequenceNumbers

  /** Integers up to this are represented exactly. */
  const EXACT: nat := 0x20_0000_0000_0000

  /** The relative error of one rounding, 2^-53. */
  const U: real := 1.0 / (EXACT as real)

  function Real(n: nat): real { n as real }

  /** What is used of rounding: it keeps order, it is exact on small integers,
      and it does not raise a number that is not tiny by more than U of it. */
  ghost predicate Rounds(rnd: real -> real) {
    && (forall x: real, y: real :: x <= y ==> rnd(x) <= rnd(y))
    && (forall n: nat :: n <= EXACT ==> rnd(Real(n)) == Real(n))
    && (forall x: real :: U * U <= x ==> rnd(x) <= x + x * U)
  }

  function Quotient(x: real, y: real): real
    requires y != 0.0
  {
    x / y
  }

  function Product(x: real, y: real): real {
    x * y
  }

  /** checkIndex as the code computes it, every operation rounded. */
  function FloatIndex(rnd: real -> real, a: nat, d: nat, lo: nat, n: nat): int {
    if rnd(d as real) == 0.0 then lo
    else
      var ratio := rnd(Quotient(rnd(a as real), rnd(d as real)));
      rnd(lo as real + rnd(Product(ratio, n as real))).Floor
  }

  function FloatProbe(rnd: real -> real): Probe {
    (uid: nat, minUID: nat, maxUID: nat, minIndex: nat, maxIndex: nat) =>
      if uid < minUID || maxUID < minUID || maxIndex < minIndex then minIndex
      else FloatIndex(rnd, uid - minUID, maxUID - minUID, minIndex, maxIndex - minIndex)
  }

  lemma RoundExact(rnd: real -> real, n: nat)
    requires Rounds(rnd) && n <= EXACT
    ensures rnd(n as real) == n as real
  {
    assert rnd(Real(n)) == Real(n);
  }

  lemma RoundUp(rnd: real -> real, x: real, b: real)
    requires Rounds(rnd) && 0.0 <= x <= b
    ensures 0.0 <= rnd(x) <= x + b * U + 2.0 * U * U
  {
    RoundExact(rnd, 0);
    if U * U <= x {
      MulMono(x, b, U);
    } else {
      assert rnd(x) <= rnd(U * U);
      TinySquare();
      MulMono(0.0, b, U);
    }
  }

  lemma TinySquare()
    ensures U * U + U * U * U <= 2.0 * U * U && 0.0 < U < 0.0001
  {
    var u := U;
    assert 0.0 < u < 0.0001;
    MulMono(u, 1.0, u * u);
  }

  lemma MulMono(x: real, y: real, u: real)
    requires x <= y && 0.0 <= u
    ensures x * u <= y * u
  {
  }

  /** With the sought uid at the upper end the probe is the upper end. */
  lemma FloatHits(rnd: real -> real, d: nat, lo: nat, n: nat)
    requires Rounds(rnd) && 0 < d <= EXACT && lo + n <= EXACT
    ensures FloatIndex(rnd, d, d, lo, n) == lo + n
  {
    RoundExact(rnd, d);
    RoundExact(rnd, 1);
    RoundExact(rnd, n);
    RoundExact(rnd, lo + n);
    HitsValue(rnd, d, lo, n);
  }

  lemma HitsValue(rnd: real -> real, d: nat, lo: nat, n: nat)
    requires 0 < d && rnd(d as real) == d as real && rnd(1.0) == 1.0
    requires rnd(n as real) == n as real && rnd((lo + n) as real) == (lo + n) as real
    ensures FloatIndex(rnd, d, d, lo, n) == lo + n
  {
    assert Quotient(d as real, d as real) == 1.0;
    assert Product(1.0, n as real) == n as real;
    assert lo as real + n as real == (lo + n) as real;
  }

  /** Below the upper end it stays below, as long as the spread of the uids
      times the length is within the precision. */
  lemma FloatStaysBelow(rnd: real -> real, a: nat, d: nat, lo: nat, n: nat)
    requires Rounds(rnd) && a < d && 0 < n && d * (lo + n + 4) < EXACT
    ensures lo <= FloatIndex(rnd, a, d, lo, n) < lo + n
  {
    Sizes(d, lo + n + 4);
    RoundExact(rnd, a);
    RoundExact(rnd, d);
    var r := RatioRounded(rnd, a, d);
    var p := ProductRounded(rnd, r, n);
    var t := SumRounded(rnd, lo, p, n);
    SumBelow(r, p, t, d, lo, n);
    FloorWithin(t, lo, n);
    IndexIs(rnd, a, d, lo, n, r, p);
  }

  lemma SumBelow(r: real, p: real, t: real, d: nat, lo: nat, n: nat)
    requires 0 < d && 0 < n && d * (lo + n + 4) < EXACT
    requires r <= 1.0 - 1.0 / d as real + U + 2.0 * U * U
    requires p <= Product(r, n as real) + n as real * U + 2.0 * U * U
    requires t <= lo as real + p + (lo as real + n as real) * U + 2.0 * U * U
    ensures t < lo as real + n as real
  {
    ErrorBudget(r, p, t, n as real, lo as real, 1.0 / d as real);
    Slack(d, lo, n);
  }

  lemma IndexIs(rnd: real -> real, a: nat, d: nat, lo: nat, n: nat, r: real, p: real)
    requires 0 < d && rnd(a as real) == a as real && rnd(d as real) == d as real
    requires r == rnd(Quotient(a as real, d as real)) && p == rnd(Product(r, n as real))
    ensures FloatIndex(rnd, a, d, lo, n) == rnd(lo as real + p).Floor
  {
  }

  lemma RatioRounded(rnd: real -> real, a: nat, d: nat) returns (r: real)
    requires Rounds(rnd) && a < d
    ensures r == rnd(Quotient(a as real, d as real))
    ensures 0.0 <= r <= 1.0 && r <= 1.0 - 1.0 / d as real + U + 2.0 * U * U
  {
    var r0 := Quotient(a as real, d as real);
    r := rnd(r0);
    RatioBelow(a, d);
    RoundUp(rnd, r0, 1.0);
    RoundExact(rnd, 1);
    assert rnd(r0) <= rnd(1.0);
  }

  lemma ProductRounded(rnd: real -> real, r: real, n: nat) returns (p: real)
    requires Rounds(rnd) && 0.0 <= r <= 1.0 && n <= EXACT
    ensures p == rnd(Product(r, n as real))
    ensures 0.0 <= p <= n as real && p <= Product(r, n as real) + n as real * U + 2.0 * U * U
  {
    var m := n as real;
    var p0 := Product(r, m);
    ProductWithin(r, m);
    p := rnd(p0);
    RoundUp(rnd, p0, m);
    RoundExact(rnd, n);
    assert rnd(p0) <= rnd(m);
  }

  lemma ProductWithin(r: real, m: real)
    requires 0.0 <= r <= 1.0 && 0.0 <= m
    ensures 0.0 <= Product(r, m) <= m
  {
    ProductMono(r, 1.0, m);
    ProductMono(0.0, r, m);
  }

  lemma ProductMono(x: real, y: real, m: real)
    requires x <= y && 0.0 <= m
    ensures Product(x, m) <= Product(y, m)
  {
  }

  lemma SumRounded(rnd: real -> real, lo: nat, p: real, n: nat) returns (t: real)
    requires Rounds(rnd) && lo <= EXACT && 0.0 <= p <= n as real
    ensures t == rnd(lo as real + p)
    ensures lo as real <= t <= lo as real + p + (lo as real + n as real) * U + 2.0 * U * U
  {
    var l, m := lo as real, n as real;
    t := rnd(l + p);
    RoundUp(rnd, l + p, l + m);
    RoundExact(rnd, lo);
    assert rnd(l) <= rnd(l + p);
  }

  lemma FloorWithin(t: real, lo: nat, n: nat)
    requires lo as real <= t < lo as real + n as real
    ensures lo <= t.Floor < lo + n
  {
    assert lo as real + n as real == (lo + n) as real;
  }

  lemma Sizes(d: nat, k: nat)
    requires 0 < d && 4 <= k && d * k < EXACT
    ensures d < EXACT && k < EXACT
  {
    NatMul(k, 1, d);
    NatMul(d, 1, k);
  }

  lemma RatioBelow(a: nat, d: nat)
    requires a < d
    ensures 0.0 <= a as real / d as real <= 1.0 - 1.0 / d as real
  {
    var x, y := a as real, d as real;
    assert x <= y - 1.0;
    assert (y - 1.0) / y == 1.0 - 1.0 / y;
    DivMono(x, y - 1.0, y);
  }

  lemma DivMono(x: real, y: real, d: real)
    requires 0.0 <= x <= y && 0.0 < d
    ensures 0.0 <= x / d <= y / d
  {
  }

  /** The three rounding errors together. */
  lemma ErrorBudget(r: real, p: real, t: real, m: real, l: real, e: real)
    requires 1.0 <= m && 0.0 <= l
    requires r <= 1.0 - e + U + 2.0 * U * U
    requires p <= r * m + m * U + 2.0 * U * U
    requires t <= l + p + (l + m) * U + 2.0 * U * U
    ensures t <= l + m - e * m + U * (4.0 * m + l)
  {
    MulMono(r, 1.0 - e + U + 2.0 * U * U, m);
    var u := U;
    TinySquare();
    assert (1.0 - e + u + 2.0 * u * u) * m == m - e * m + u * m + 2.0 * u * u * m;
    assert t <= l + m - e * m + (u * m + 2.0 * u * u * m) + m * u + 4.0 * u * u + (l + m) * u;
    MulMono(1.0, m, u * u);
    MulMono(6.0 * u, 1.0, u * m);
    assert 2.0 * u * u * m + 4.0 * u * u <= u * m;
  }

  lemma Slack(d: nat, lo: nat, n: nat)
    requires 0 < d && 0 < n && d * (lo + n + 4) < EXACT
    ensures U * (4.0 * n as real + lo as real) < 1.0 / d as real * n as real
  {
    SlackNat(d, lo, n);
    var w := 4.0 * n as real + lo as real;
    assert w == (4 * n + lo) as real;
    assert d as real * w == (d * (4 * n + lo)) as real;
    assert EXACT as real * n as real == (EXACT * n) as real;
    Cross(d as real, w, EXACT as real, n as real);
  }

  lemma SlackNat(d: nat, lo: nat, n: nat)
    requires 0 < d && 0 < n && d * (lo + n + 4) < EXACT
    ensures d * (4 * n + lo) < EXACT * n
  {
    var k := d * (lo + 4);
    assert k < EXACT by { assert d * (lo + n + 4) == k + d * n; }
    assert 4 * n + lo <= (lo + 4) * n;
    NatMul(d, 4 * n + lo, (lo + 4) * n);
    assert d * ((lo + 4) * n) == k * n;
    NatMul(n, k + 1, EXACT);
  }

  lemma NatMul(d: nat, x: int, y: int)
    requires x <= y
    ensures d * x <= d * y
  {
  }

  lemma Cross(d: real, w: real, x: real, n: real)
    requires 0.0 < d && 0.0 < x && d * w < x * n
    ensures 1.0 / x * w < 1.0 / d * n
  {
    var p, q := 1.0 / x * w, 1.0 / d * n;
    assert p * x == w && q * d == n;
    assert p * (d * x) == d * w && q * (d * x) == x * n;
    if p >= q { MulMono(q, p, d * x); }
  }

  /** The code's probe is admissible on every list whose spread of uids times
      its length plus three is below 2^53. */
  lemma FloatProbeAdmissible(rnd: real -> real, uids: seq<nat>, uid: nat)
    requires Rounds(rnd) && Increasing(uids)
    requires |uids| > 0 ==> (uids[|uids| - 1] - uids[0]) * (|uids| + 3) < EXACT
    ensures Admissible(FloatProbe(rnd), uids, uid)
  {
    forall lo: nat, hi: nat | lo < hi < |uids| && uids[lo] <= uid <= uids[hi]
      ensures Between(uid, uids[hi], lo, hi, FloatProbe(rnd)(uid, uids[lo], uids[hi], lo, hi))
    {
      Spread(uids, lo, hi);
      FloatBetween(rnd, uid - uids[lo], uids[hi] - uids[lo], lo, hi - lo);
    }
  }

  lemma FloatBetween(rnd: real -> real, a: nat, d: nat, lo: nat, n: nat)
    requires Rounds(rnd) && a <= d && 0 < d && 0 < n && d * (lo + n + 4) < EXACT
    ensures lo <= FloatIndex(rnd, a, d, lo, n) <= lo + n
    ensures FloatIndex(rnd, a, d, lo, n) == lo + n <==> a == d
  {
    Sizes(d, lo + n + 4);
    if a == d {
      FloatHits(rnd, d, lo, n);
    } else {
      FloatStaysBelow(rnd, a, d, lo, n);
    }
  }

  /** The search as the code does it. */
  method SearchRounded(uids: seq<nat>, uid: nat, rnd: real -> real) returns (n: nat)
    requires Rounds(rnd) && Increasing(uids) && |uids| + 1 < LIMIT32
    requires |uids| > 0 ==> (uids[|uids| - 1] - uids[0]) * (|uids| + 3) < EXACT
    ensures n == 1 + CountBelow(uids, uid)
  {
    FloatProbeAdmissible(rnd, uids, uid);
    n := GetSequenceNumber(uids, uid, FloatProbe(rnd));
  }

  /** The greatest bound for which the precision suffices whatever the list is:
      s * (s + 4) < 2^53 for every spread s below it. */
  const FLOAT_BOUND: nat := 94_906_264

  /** Below this bound the code's probe is admissible on every list of uids. */
  lemma FloatProbeSafe(rnd: real -> real)
    requires Rounds(rnd)
    ensures SafeProbe(FloatProbe(rnd), FLOAT_BOUND)
  {
    hide SequenceNumbers.Admissible, Rounds;
    forall uids: seq<nat>, uid: nat | Increasing(uids) && Below(uids, FLOAT_BOUND)
      ensures Admissible(FloatProbe(rnd), uids, uid)
    {
      if uids != [] { BoundedSpread(uids); }
      FloatProbeAdmissible(rnd, uids, uid);
    }
  }

  lemma BoundedSpread(uids: seq<nat>)
    requires uids != [] && Increasing(uids) && Below(uids, FLOAT_BOUND)
    ensures (uids[|uids| - 1] - uids[0]) * (|uids| + 3) < EXACT
  {
    var s := uids[|uids| - 1] - uids[0];
    Apart(uids, |uids| - 1);
    NatMul(s, |uids| + 3, s + 4);
    NatMul(s, s + 4, FLOAT_BOUND + 3);
    NatMul(FLOAT_BOUND + 3, s, FLOAT_BOUND - 1);
  }

  /** Increasing numbers are as far apart as their places. */
  lemma {:induction false} Apart(uids: seq<nat>, i: nat)
    requires Increasing(uids) && i < |uids|
    ensures i <= uids[i] - uids[0]
  {
    if i > 0 {
      Apart(uids, i - 1);
      assert uids[i - 1] < uids[i];
    }
  }

  lemma Spread(uids: seq<nat>, lo: nat, hi: nat)
    requires Increasing(uids) && lo < hi < |uids|
    requires (uids[|uids| - 1] - uids[0]) * (|uids| + 3) < EXACT
    ensures (uids[hi] - uids[lo]) * (hi + 4) < EXACT
  {
    var d, w := uids[hi] - uids[lo], uids[|uids| - 1] - uids[0];
    assert 0 <= d <= w;
    NatMul(d, hi + 4, |uids| + 3);
    NatMul(|uids| + 3, d, w);
  }

  /** Beyond the precision the search of the code does not terminate: with uids 1
      and 2^54 + 1, the search for 2^54 probes the upper end again and again. */
  lemma FloatProbeStuck(rnd: real -> real)
    requires rnd(1 as real) == 1.0 && rnd(0 as real) == 0.0
    requires rnd((2 * EXACT) as real) == (2 * EXACT) as real
    requires rnd((2 * EXACT - 1) as real) == (2 * EXACT) as real // the tie goes to the even neighbour
    ensures var uids := [1, 2 * EXACT + 1];
      && FloatProbe(rnd)(2 * EXACT, uids[0], uids[1], 0, 1) == 1
      && uids[1] > 2 * EXACT
      && !Admissible(FloatProbe(rnd), uids, 2 * EXACT)
  {
    var uids, uid := [1, 2 * EXACT + 1], 2 * EXACT;
    var w := (2 * EXACT) as real;
    assert Quotient(w, w) == 1.0;
    assert FloatIndex(rnd, uid - 1, uid, 0, 1) == 1 by {
      assert Product(1.0, 1 as real) == 1.0;
      assert 0 as real + 1.0 == 1.0;
    }
    assert FloatProbe(rnd)(uid, uids[0], uids[1], 0, 1) == 1;
  }
}
