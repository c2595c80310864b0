/**
 Milliseconds to nanoseconds and back in binary64 arithmetic, with rounding to nearest, ties to even (section 4.3.1 of
 IEEE 754), and the decimal text of a nanosecond count (section 6.1.6.1.20 of ECMA-262). Positive numbers from 1 up.
 */
module Millis {

  const MS_TO_NS := 1_000_000
  const TWO_40 := 0x100_0000_0000
  const TWO_41 := 0x200_0000_0000
  const TWO_52 := 0x10_0000_0000_0000
  const TWO_60 := 0x1000_0000_0000_0000
  const TWO_61 := 0x2000_0000_0000_0000

  // ---------------------------------------------------------------- rounding

  function Pow2(n: nat): (p: int)
    ensures p >= 1
  {
    if n == 0 then 1 else 2 * Pow2(n - 1)
  }

  /** The n with 2^n <= x < 2^(n+1). */
  function Exponent(x: real): nat
    requires x >= 1.0
    decreases x.Floor
  {
    if x < 2.0 then 0 else 1 + Exponent(x / 2.0)
  }

  /** The distance of neighbouring doubles around x. */
  function Ulp(x: real): (u: real)
    requires x >= 1.0
    ensures u > 0.0
  {
    Pow2(Exponent(x)) as real / TWO_52 as real
  }

  /** The multiple of u nearest to x, the even one of two. */
  function Nearest(x: real, u: real): real
    requires u > 0.0
  {
    var k := (x / u).Floor;
    var rest := x / u - k as real;
    if rest < 0.5 || (rest == 0.5 && k % 2 == 0) then k as real * u else (k + 1) as real * u
  }

  /** The double nearest to x. */
  function Double(x: real): real
    requires x >= 1.0
  {
    Nearest(x, Ulp(x))
  }

  lemma {:induction false} ExponentIs(x: real, n: nat)
    requires Pow2(n) as real <= x < 2.0 * Pow2(n) as real
    ensures x >= 1.0 && Exponent(x) == n
  {
    if n > 0 {
      assert Pow2(n) == 2 * Pow2(n - 1);
      ExponentIs(x / 2.0, n - 1);
    }
  }

  lemma {:induction false} Pow2Add(a: nat, b: nat)
    ensures Pow2(a + b) == Pow2(a) * Pow2(b)
  {
    if a > 0 {
      Pow2Add(a - 1, b);
    }
  }

  lemma Powers()
    ensures Pow2(40) == TWO_40 && Pow2(60) == TWO_60
  {
    assert Pow2(5) == 32;
    Pow2Add(5, 5);
    Pow2Add(10, 10);
    Pow2Add(20, 20);
    Pow2Add(40, 20);
  }

  lemma UlpAt60(x: real)
    requires TWO_60 as real <= x < TWO_61 as real
    ensures Ulp(x) == 256.0
  {
    Powers();
    ExponentIs(x, 60);
  }

  lemma UlpAt40(x: real)
    requires TWO_40 as real <= x < TWO_41 as real
    ensures Ulp(x) == 1.0 / 4096.0
  {
    Powers();
    ExponentIs(x, 40);
  }

  // ---------------------------------------------------------------- the conversions

  function ToNs(ms: int): int
    requires ms >= 1
  {
    Double((ms * MS_TO_NS) as real).Floor
  }

  function ToMs(ns: int): int
    requires ns >= MS_TO_NS
  {
    Double(ns as real / MS_TO_NS as real).Floor
  }

  /** The times of the theorem: nanoseconds from 2^60 on, milliseconds below 2^41. */
  predicate InRange(ms: int) {
    TWO_60 <= ms * MS_TO_NS && ms < TWO_41
  }

  /** By how much the nanoseconds are off. */
  function Drift(r: int): int
    requires 0 <= r < 8
  {
    if r == 2 then -128
    else if r == 1 || r == 5 then -64
    else if r == 3 || r == 7 then 64
    else if r == 6 then 128
    else 0
  }

  /** Rounding x to a multiple of 1/n, told from the numerator: the multiple k/n is less than half a step away. */
  lemma NearestIs(x: real, u: real, k: int)
    requires u > 0.0
    requires -0.5 < x / u - k as real < 0.5
    ensures Nearest(x, u) == k as real * u
  {
    var f := (x / u).Floor;
    assert f == k || f == k - 1;
  }

  lemma NearestTie(x: real, u: real, k: int)
    requires u > 0.0
    requires x / u == k as real + 0.5
    ensures Nearest(x, u) == (if k % 2 == 0 then k else k + 1) as real * u
  {
  }

  /** Rounding a multiple of 64 to a multiple of 256. */
  lemma RoundTo256(q: int, r: int)
    requires 0 <= r < 8
    ensures Nearest((64 * (8 * q + r)) as real, 256.0) == (64 * (8 * q + r) + Drift(r)) as real
  {
    var x := (64 * (8 * q + r)) as real;
    assert x / 256.0 == (2 * q) as real + r as real / 4.0;
    if r == 2 {
      NearestTie(x, 256.0, 2 * q);
    } else if r == 6 {
      NearestTie(x, 256.0, 2 * q + 1);
    } else {
      NearestIs(x, 256.0, 2 * q + (if r == 0 || r == 1 then 0 else if r == 7 then 2 else 1));
    }
  }

  /** The product is off by at most 128, and whole. */
  lemma ProductDouble(ms: int)
    requires InRange(ms)
    ensures Double((ms * MS_TO_NS) as real) == (ms * MS_TO_NS + Drift(ms % 8)) as real
  {
    UlpAt60((ms * MS_TO_NS) as real);
    var q, r := 1953 * ms + ms / 8, ms % 8;
    assert ms * MS_TO_NS == 64 * (8 * q + r);
    RoundTo256(q, r);
  }

  lemma ToNsIs(ms: int)
    requires InRange(ms)
    ensures ToNs(ms) == ms * MS_TO_NS + Drift(ms % 8)
    ensures ms % 8 == 0 || ms % 8 == 4 ==> ToNs(ms) == ms * 1_000_000
    ensures ms % 8 == 1 || ms % 8 == 5 ==> ToNs(ms) == ms * 1_000_000 - 64
    ensures ms % 8 == 3 || ms % 8 == 7 ==> ToNs(ms) == ms * 1_000_000 + 64
    ensures ms % 8 == 2 ==> ToNs(ms) == ms * 1_000_000 - 128
    ensures ms % 8 == 6 ==> ToNs(ms) == ms * 1_000_000 + 128
  {
    ProductDouble(ms);
  }

  /** The quotient by 10^6 of a time that is off by e. */
  lemma QuotientFloor(ms: int, e: int)
    requires InRange(ms) && (e == 0 || e == 64 || e == -64 || e == 128 || e == -128)
    requires ms * MS_TO_NS + e >= MS_TO_NS
    ensures ToMs(ms * MS_TO_NS + e) == if e == -128 then ms - 1 else ms
  {
    var x := (ms * MS_TO_NS + e) as real / MS_TO_NS as real;
    assert x == ms as real + e as real / 1000000.0;
    UlpAt40(x);
    var k := 4096 * ms + (if e == 128 then 1 else if e == -128 then -1 else 0);
    assert x / (1.0 / 4096.0) == x * 4096.0;
    NearestIs(x, 1.0 / 4096.0, k);
    assert k as real * (1.0 / 4096.0) == k as real / 4096.0;
  }

  /** Milliseconds to nanoseconds and back, as when a URL is written from a query. */
  function ThereAndBack(ms: int): int
    requires InRange(ms)
  {
    ToNsIs(ms);
    ToMs(ToNs(ms))
  }

  /** It is the same millisecond, except that it is the one before exactly when ms % 8 == 2. */
  lemma ThereAndBackIs(ms: int)
    requires InRange(ms)
    ensures ThereAndBack(ms) == if ms % 8 == 2 then ms - 1 else ms
    ensures InRange(ThereAndBack(ms))
  {
    ToNsIs(ms);
    QuotientFloor(ms, Drift(ms % 8));
  }

  /** A millisecond that is lost. */
  lemma OneIsLost()
    ensures InRange(1_700_000_000_002) && ThereAndBack(1_700_000_000_002) == 1_700_000_000_001
  {
    ThereAndBackIs(1_700_000_000_002);
  }

  function Repeat(f: int -> int, ms: int, n: nat): int {
    if n == 0 then ms else f(Repeat(f, ms, n - 1))
  }

  lemma {:induction false} RepeatDrops(f: int -> int, ms: int, n: nat)
    requires InRange(ms) && forall m | InRange(m) :: f(m) == if m % 8 == 2 then m - 1 else m
    ensures Repeat(f, ms, n) == if n > 0 && ms % 8 == 2 then ms - 1 else ms
  {
    if n > 0 {
      RepeatDrops(f, ms, n - 1);
      assert ms % 8 == 2 ==> InRange(ms - 1) && (ms - 1) % 8 == 1;
    }
  }

  /** One rewriting of the URL; outside the range nothing is said about it. */
  function Rewrite(ms: int): int {
    if InRange(ms) then ThereAndBack(ms) else ms
  }

  /** However often the URL is rewritten, one millisecond is all that is ever lost, and it is lost the first time. */
  lemma TripsLoseOne(ms: int, n: nat)
    requires InRange(ms)
    ensures Repeat(Rewrite, ms, n) == if n > 0 && ms % 8 == 2 then ms - 1 else ms
  {
    forall m | InRange(m) ensures Rewrite(m) == if m % 8 == 2 then m - 1 else m {
      ThereAndBackIs(m);
    }
    RepeatDrops(Rewrite, ms, n);
  }

  // ---------------------------------------------------------------- the decimal text

  const TEN_18 := 1_000_000_000_000_000_000
  const TEN_19 := 10_000_000_000_000_000_000

  /** How many zeros the decimal digits of n end in. */
  function Zeros(n: int): nat
    requires n > 0
  {
    if n % 10 != 0 then 0 else 1 + Zeros(n / 10)
  }

  predicate Nineteen(n: int) {
    TEN_18 <= n < TEN_19
  }

  /**
   String(d) for a double of nineteen digits: of the numbers that round to d, one with the fewest significant digits,
   that is with the most zeros at the end.
   */
  ghost predicate PrintsAs(d: int, n: int) {
    && Nineteen(n) && Double(n as real) == d as real
    && forall m | Nineteen(m) && Double(m as real) == d as real :: Zeros(m) <= Zeros(n)
  }

  lemma {:induction false} ExponentBelow(x: real)
    requires x >= 1.0
    ensures Pow2(Exponent(x)) as real <= x
    decreases x.Floor
  {
    if x >= 2.0 {
      ExponentBelow(x / 2.0);
    }
  }

  /** Comparing y with a step, from x == y * u. */
  lemma Scaled(a: real, y: real, u: real, x: real)
    requires u > 0.0 && x == y * u
    ensures a <= y ==> a * u <= x
    ensures y <= a ==> x <= a * u
  {
  }

  /** Rounding moves a number by half a step at most. */
  lemma NearestNear(x: real, u: real)
    requires u > 0.0
    ensures x - u / 2.0 <= Nearest(x, u) <= x + u / 2.0
  {
    var y := x / u;
    assert x == y * u;
    var low := y.Floor as real;
    Scaled(low, y, u, x);
    Scaled(low + 0.5, y, u, x);
    Scaled(low + 1.0, y, u, x);
    assert (low + 0.5) * u == low * u + u / 2.0;
    assert (low + 1.0) * u == low * u + u;
    assert (y.Floor + 1) as real == low + 1.0;
  }

  lemma DoubleNear(n: int)
    requires Nineteen(n)
    ensures n as real - 2000.0 <= Double(n as real) <= n as real + 2000.0
  {
    var x := n as real;
    ExponentBelow(x);
    NearestNear(x, Ulp(x));
    assert Ulp(x) <= x / TWO_52 as real;
  }

  function Ten(k: nat): (t: int)
    ensures t >= 1
  {
    if k == 0 then 1 else 10 * Ten(k - 1)
  }

  lemma AtLeast(t: int, s: int)
    requires t > 0
    ensures s >= 1 ==> t * s >= t
    ensures s <= -1 ==> t * s <= -t
    ensures s == 0 ==> t * s == 0
  {
  }

  lemma MultipleOf(t: int, q: int)
    requires t > 0
    ensures (t * q) % t == 0
  {
    var d, r := (t * q) / t, (t * q) % t;
    assert t * q == t * d + r;
    assert t * (q - d) == r;
    AtLeast(t, q - d);
  }

  lemma TensInside(n: int, t: int)
    requires n > 0 && t > 0
    ensures n % (10 * t) == 0 <==> n % 10 == 0 && (n / 10) % t == 0
  {
    if n % (10 * t) == 0 {
      var q := n / (10 * t);
      assert n == 10 * (t * q);
      MultipleOf(t, q);
    }
    if n % 10 == 0 && (n / 10) % t == 0 {
      var q := n / 10 / t;
      assert n == 10 * (t * q) == (10 * t) * q;
      MultipleOf(10 * t, q);
    }
  }

  lemma {:induction false} ZerosAre(n: int, k: nat)
    requires n > 0
    ensures n % Ten(k) == 0 <==> Zeros(n) >= k
    decreases k
  {
    if k > 0 {
      TensInside(n, Ten(k - 1));
      if n % 10 == 0 {
        ZerosAre(n / 10, k - 1);
      }
    }
  }

  lemma SixZeros(n: int)
    requires n > 0
    ensures n % MS_TO_NS == 0 <==> Zeros(n) >= 6
  {
    assert Ten(1) == 10 && Ten(2) == 100 && Ten(3) == 1000;
    assert Ten(4) == 10000 && Ten(5) == 100000 && Ten(6) == 1000000;
    ZerosAre(n, 6);
  }

  /** Multiples of t that are closer than t are equal. */
  lemma CloseMultiples(t: int, p: int, q: int)
    requires t > 0 && -t < t * p - t * q < t
    ensures p == q
  {
    AtLeast(t, p - q);
  }

  lemma NearTheProduct(ms: int, m: int)
    requires InRange(ms) && Nineteen(m) && Double(m as real) == ToNs(ms) as real
    ensures -MS_TO_NS < m - ms * MS_TO_NS < MS_TO_NS
  {
    ToNsIs(ms);
    DoubleNear(m);
  }

  /** Only the exact product has six zeros and rounds to the same double. */
  lemma OnlyTheProduct(ms: int, m: int)
    requires InRange(ms) && Nineteen(m) && Double(m as real) == ToNs(ms) as real && Zeros(m) >= 6
    ensures m == ms * MS_TO_NS
  {
    NearTheProduct(ms, m);
    SixZeros(m);
    var q := m / MS_TO_NS;
    assert m == MS_TO_NS * q;
    CloseMultiples(MS_TO_NS, q, ms);
  }

  lemma ProductRounds(ms: int)
    requires InRange(ms)
    ensures Nineteen(ms * MS_TO_NS) && Double((ms * MS_TO_NS) as real) == ToNs(ms) as real
    ensures Zeros(ms * MS_TO_NS) >= 6
  {
    ProductDouble(ms);
    SixZeros(ms * MS_TO_NS);
  }

  /**
   The text sent to the server is the exact product, although the number it is made from is not: the printer's shortest
   digits undo the rounding.
   */
  lemma TextIsExact(ms: int, n: int)
    requires InRange(ms)
    ensures PrintsAs(ToNs(ms), n) <==> n == ms * 1_000_000
  {
    var p := ms * MS_TO_NS;
    ProductRounds(ms);
    forall m | Nineteen(m) && Double(m as real) == ToNs(ms) as real ensures Zeros(m) <= Zeros(p) {
      if Zeros(m) >= 6 {
        OnlyTheProduct(ms, m);
      }
    }
    if PrintsAs(ToNs(ms), n) {
      OnlyTheProduct(ms, n);
    }
  }
}
