/** The CUBIC reference curve of RFC 8312 over the reals: bisection for the cube root, K, W_cubic, W_est and the
    target. */
module Cubic {
  const C := 0.4
  const BETA := 0.7
  const WIDTH := 1000000.0
  const EPS := 0.000000001

  function Cube(x: real): real {
    x * x * x
  }

  function Product(a: real, b: real): real {
    a * b
  }

  function Square(x: real): real {
    Product(x, x)
  }

  lemma ProductPositive(a: real, b: real)
    requires a > 0.0 && b > 0.0
    ensures Product(a, b) > 0.0
  {
  }

  /** a^3 - b^3 = (a - b)(a^2 + ab + b^2), and the second factor is positive unless both are zero. */
  lemma CubeIncreases(b: real, a: real)
    requires b < a
    ensures Cube(b) < Cube(a)
  {
    var q := Square(a) + a * b + Square(b);
    assert q > 0.0 by {
      assert 4.0 * q == Square(2.0 * a + b) + 3.0 * Square(b);
      SquareSign(2.0 * a + b);
      SquareSign(b);
    }
    assert Cube(a) - Cube(b) == (a - b) * q;
    ProductPositive(a - b, q);
  }

  lemma SquarePositive(x: real)
    requires x > 0.0
    ensures Square(x) > 0.0
  {
    hide Product;
    ProductPositive(x, x);
  }

  lemma SquareOfNegation(x: real)
    ensures Square(-x) == Square(x)
  {
  }

  lemma SquareSign(x: real)
    ensures Square(x) >= 0.0 && (x != 0.0 ==> Square(x) > 0.0)
  {
    if x == 0.0 {
      assert Square(x) == 0.0;
    } else {
      SquareNotZero(x);
    }
  }

  lemma SquareNotZero(x: real)
    requires x != 0.0
    ensures Square(x) > 0.0
  {
    hide Square;
    SquareOfNegation(x);
    if x > 0.0 { SquarePositive(x); } else { SquarePositive(-x); }
  }

  // ---- the bisection ---------------------------------------------------------------------------

  /** What is left of the interval after n halvings. */
  function Halved(n: nat): (w: real)
    ensures w > 0.0
  {
    if n == 0 then WIDTH else Halved(n - 1) / 2.0
  }

  lemma HalvedTimes(n: nat, k: nat)
    requires k <= n
    ensures Halved(n - k) == Halved(n) * Power(k)
    decreases k
  {
    if k > 0 { HalvedTimes(n, k - 1); }
  }

  function Power(k: nat): (p: real)
    ensures p >= 1.0
  {
    if k == 0 then 1.0 else 2.0 * Power(k - 1)
  }

  /** Fifty halvings bring the interval under the tolerance, and forty-nine do not. */
  lemma FiftyHalvings()
    ensures Halved(49) > EPS >= Halved(50)
  {
    assert Power(10) == 1024.0;
    assert Halved(10) * 1024.0 == WIDTH by { HalvedTimes(10, 10); }
    assert Halved(20) * 1024.0 == Halved(10) by { HalvedTimes(20, 10); }
    assert Halved(30) * 1024.0 == Halved(20) by { HalvedTimes(30, 10); }
    assert Halved(40) * 1024.0 == Halved(30) by { HalvedTimes(40, 10); }
    assert Halved(50) * 1024.0 == Halved(40) by { HalvedTimes(50, 10); }
    assert Halved(49) == Halved(50) * 2.0;
  }

  /**
   * The cube root, by exactly fifty halvings: a positive number up to 10^18 is caught between the cubes of two points
   * a tolerance apart, whose middle is returned; more than that ends at the upper limit, and no more than zero is zero.
   */
  method RefCbrt(x: real) returns (r: real, ghost lo: real, ghost hi: real)
    ensures x <= 0.0 ==> r == 0.0
    ensures x > 0.0 ==> 0.0 <= lo < hi <= WIDTH && hi - lo <= EPS && r == (lo + hi) / 2.0 && Cube(lo) < x
    ensures x > 0.0 ==> (x <= Cube(hi) <==> x <= Cube(WIDTH))
  {
    lo, hi := 0.0, 0.0;
    if x <= 0.0 {
      return 0.0, 0.0, 0.0;
    }
    var a, b := 0.0, WIDTH;
    ghost var n := 0;
    while b - a > EPS
      invariant n <= 50 && b - a == Halved(n)
      invariant 0.0 <= a < b <= WIDTH && Cube(a) < x && (b == WIDTH || x <= Cube(b))
      decreases 50 - n
    {
      FiftyHalvings();
      var mid := (a + b) / 2.0;
      if mid * mid * mid < x {
        a := mid;
      } else {
        b := mid;
      }
      n := n + 1;
    }
    r := (a + b) / 2.0;
    lo, hi := a, b;
    if b < WIDTH { CubeIncreases(b, WIDTH); }
  }

  // ---- the curve ----------------------------------------------------------------------------------

  function WCubic(t: real, k: real, wMax: real): real {
    C * Cube(t - k) + wMax
  }

  /** What K is the cube root of. */
  function KCubed(wMax: real): real {
    wMax * (1.0 - BETA) / C
  }

  lemma WCubicIncreases(s: real, t: real, k: real, wMax: real)
    requires s < t
    ensures WCubic(s, k, wMax) < WCubic(t, k, wMax)
  {
    CubeIncreases(s - k, t - k);
  }

  /** The plateau: the old maximum is reached at K, not before and not after. */
  lemma PlateauAtK(t: real, k: real, wMax: real)
    ensures WCubic(t, k, wMax) == wMax <==> t == k
    ensures WCubic(t, k, wMax) < wMax <==> t < k
  {
    if t < k { CubeIncreases(t - k, 0.0); }
    if t > k { CubeIncreases(0.0, t - k); }
  }

  /** Points a tolerance apart have cubes no further apart than three times the larger square allows. */
  lemma CubeGap(lo: real, hi: real)
    requires 0.0 <= lo < hi
    ensures Cube(hi) - Cube(lo) <= 3.0 * Square(hi) * (hi - lo)
  {
    var d := hi - lo;
    assert Cube(hi) - Cube(lo) == (Square(hi) + hi * lo + Square(lo)) * d;
    assert hi * lo <= Square(hi) by { Monotone(hi, lo, hi); }
    assert Square(lo) <= lo * hi by { Monotone(lo, lo, hi); }
    assert lo * hi == hi * lo;
    Scale(Square(hi) + hi * lo + Square(lo), 3.0 * Square(hi), d);
  }

  lemma Monotone(c: real, a: real, b: real)
    requires 0.0 <= c && a <= b
    ensures c * a <= c * b
  {
  }

  lemma Scale(a: real, b: real, d: real)
    requires a <= b && d > 0.0
    ensures a * d <= b * d
  {
  }

  function Abs(x: real): real {
    if x < 0.0 then -x else x
  }

  /** With the computed K the curve starts where the loss left the window, up to the error of the bisection. */
  method StartOfEpoch(wMax: real) returns (k: real, start: real)
    requires 0.0 < wMax && KCubed(wMax) <= Cube(WIDTH)
    ensures start == WCubic(0.0, k, wMax)
    ensures Abs(start - BETA * wMax) <= C * 3.0 * Square(k + EPS) * EPS
  {
    ghost var lo, hi;
    k, lo, hi := RefCbrt(KCubed(wMax));
    start := WCubic(0.0, k, wMax);
    StartError(wMax, k, lo, hi);
  }

  lemma StartGap(wMax: real, k: real)
    ensures WCubic(0.0, k, wMax) - BETA * wMax == C * (KCubed(wMax) - Cube(k))
  {
    assert Cube(0.0 - k) == -Cube(k);
    assert C * KCubed(wMax) == wMax * (1.0 - BETA);
  }

  lemma StartError(wMax: real, k: real, lo: real, hi: real)
    requires 0.0 <= lo < hi && hi - lo <= EPS && k == (lo + hi) / 2.0
    requires Cube(lo) < KCubed(wMax) <= Cube(hi)
    ensures Abs(WCubic(0.0, k, wMax) - BETA * wMax) <= C * 3.0 * Square(k + EPS) * EPS
  {
    hide Cube, Square, WCubic, KCubed;
    CubeIncreases(lo, k);
    CubeIncreases(k, hi);
    CubeGap(lo, hi);
    StartGap(wMax, k);
    var gap, s, u := KCubed(wMax) - Cube(k), 3.0 * Square(hi), 3.0 * Square(k + EPS);
    SquareSign(hi);
    SquareGrows(hi, k + EPS);
    Monotone(s, hi - lo, EPS);
    Scale(s, u, EPS);
    assert Abs(gap) <= Cube(hi) - Cube(lo);
    assert Cube(hi) - Cube(lo) <= s * (hi - lo);
    assert s * EPS <= u * EPS;
    ScaleAbs(gap, u * EPS);
    assert C * 3.0 * Square(k + EPS) * EPS == C * (u * EPS);
  }

  lemma ScaleAbs(gap: real, bound: real)
    requires Abs(gap) <= bound
    ensures Abs(C * gap) <= C * bound
  {
  }

  lemma SquareGrows(a: real, b: real)
    requires 0.0 <= a <= b
    ensures Square(a) <= Square(b)
  {
    Monotone(a, a, b);
    Monotone(b, a, b);
  }

  // ---- the TCP-friendly floor -------------------------------------------------------------------------

  function Alpha(): real {
    3.0 * (1.0 - BETA) / (1.0 + BETA)
  }

  function WEst(t: real, wMax: real, rtt: real): real {
    wMax * BETA + if rtt > 0.0 then Alpha() * (t / rtt) else 0.0
  }

  function Target(t: real, k: real, wMax: real, rtt: real): real {
    var cubic, est := WCubic(t, k, wMax), WEst(t, wMax, rtt);
    if est > cubic then est else cubic
  }

  lemma DivideGrows(s: real, t: real, rtt: real)
    requires s <= t && rtt > 0.0
    ensures s / rtt <= t / rtt
  {
    var a, b := s / rtt, t / rtt;
    assert a * rtt == s && b * rtt == t;
    if a > b { Scale(b, a, rtt); ProductPositive(a - b, rtt); }
  }

  /** Through an epoch the target never falls, and never below what the loss response left. */
  lemma TargetNeverFalls(s: real, t: real, k: real, wMax: real, rtt: real)
    requires 0.0 <= s <= t
    ensures Target(s, k, wMax, rtt) <= Target(t, k, wMax, rtt)
    ensures BETA * wMax <= Target(s, k, wMax, rtt)
  {
    if s < t { WCubicIncreases(s, t, k, wMax); }
    if rtt > 0.0 {
      DivideGrows(s, t, rtt);
      DivideGrows(0.0, s, rtt);
      Monotone(Alpha(), s / rtt, t / rtt);
      Monotone(Alpha(), 0.0, s / rtt);
    }
  }
}
