/** Cosine similarity as `semantic_cache.py` computes it, over exact reals. */
module Vectors {

  /** What `math.sqrt` is assumed to compute. */
  ghost predicate IsSqrt(sqrt: real -> real) {
    forall x :: x >= 0.0 ==> sqrt(x) >= 0.0 && sqrt(x) * sqrt(x) == x
  }

  /** Sum of products over the common prefix: Python's `zip` stops at the shorter vector. */
  function Dot(a: seq<real>, b: seq<real>): real {
    if a == [] || b == [] then 0.0 else a[0] * b[0] + Dot(a[1..], b[1..])
  }

  lemma Squares(x: real)
    ensures x * x >= 0.0
    ensures x * x == 0.0 <==> x == 0.0
  {
    SquareNonNegative(x);
    if x == 0.0 {
      ZeroFactor(x, x);
    } else if x * x == 0.0 {
      ZeroProduct(x, x);
    }
  }

  lemma SquareNonNegative(x: real)
    ensures x * x >= 0.0
  {
    if x > 0.0 {
      Positive(x, x);
    } else if x < 0.0 {
      NegativePair(x, x);
    }
  }

  lemma ZeroProduct(x: real, y: real)
    requires x * y == 0.0
    ensures x == 0.0 || y == 0.0
  {
  }

  lemma ZeroFactor(x: real, y: real)
    requires x == 0.0 || y == 0.0
    ensures x * y == 0.0
  {
  }

  lemma NegativePair(x: real, y: real)
    requires x < 0.0 && y < 0.0
    ensures x * y > 0.0
  {
  }

  lemma {:induction false} DotSelfNonNegative(a: seq<real>)
    ensures Dot(a, a) >= 0.0
    ensures Dot(a, a) == 0.0 <==> forall i :: 0 <= i < |a| ==> a[i] == 0.0
  {
    if a != [] {
      DotSelfNonNegative(a[1..]);
      Squares(a[0]);
      assert forall i :: 0 < i < |a| ==> a[i] == a[1..][i - 1];
      if forall i :: 0 <= i < |a| ==> a[i] == 0.0 {
        ZeroFactor(a[0], a[0]);
        assert forall i :: 0 <= i < |a| - 1 ==> a[1..][i] == a[i + 1] == 0.0;
      }
    }
  }

  /** Python's `math.sqrt(...) or 1.0`. */
  function Norm(sqrt: real -> real, a: seq<real>): real {
    var n := sqrt(Dot(a, a));
    if n == 0.0 then 1.0 else n
  }

  lemma NormPositive(sqrt: real -> real, a: seq<real>)
    requires IsSqrt(sqrt)
    ensures Norm(sqrt, a) > 0.0
    ensures Dot(a, a) > 0.0 ==> Norm(sqrt, a) * Norm(sqrt, a) == Dot(a, a)
  {
    DotSelfNonNegative(a);
  }

  function Ratio(d: real, p: real, q: real): real
    requires p > 0.0 && q > 0.0
  {
    Positive(p, q);
    d / (p * q)
  }

  function Cosine(sqrt: real -> real, a: seq<real>, b: seq<real>): real
    requires IsSqrt(sqrt)
  {
    NormPositive(sqrt, a);
    NormPositive(sqrt, b);
    Ratio(Dot(a, b), Norm(sqrt, a), Norm(sqrt, b))
  }

  // ---------------------------------------------------------------- Cauchy-Schwarz

  /** One more pair of components keeps d * d <= p * q. */
  lemma CauchyStep(x: real, y: real, d: real, p: real, q: real)
    requires p >= 0.0 && q >= 0.0 && d * d <= p * q
    ensures (x * y + d) * (x * y + d) <= (x * x + p) * (y * y + q)
  {
    var gap := x * x * q + y * y * p - 2.0 * x * y * d;
    assert gap >= 0.0 by { CrossTerm(x, y, d, p, q); }
    assert (x * x + p) * (y * y + q) - (x * y + d) * (x * y + d) == gap + (p * q - d * d);
  }

  lemma CrossTerm(x: real, y: real, d: real, p: real, q: real)
    requires p >= 0.0 && q >= 0.0 && d * d <= p * q
    ensures x * x * q + y * y * p - 2.0 * x * y * d >= 0.0
  {
    Squares(x);
    Squares(d);
    if p == 0.0 {
      ZeroFactor(p, q);
      ZeroFactor(y * y, p);
      ZeroFactor(2.0 * x * y, d);
      NonNegative(x * x, q);
    } else {
      var gap := x * x * q + y * y * p - 2.0 * x * y * d;
      Squares(x * d - y * p);
      NonNegative(x * x, p * q - d * d);
      ScaledGap(x, y, d, p, q);
      SignOfFactor(p, gap);
    }
  }

  lemma NonNegative(x: real, y: real)
    requires x >= 0.0 && y >= 0.0
    ensures x * y >= 0.0
  {
  }

  lemma Positive(x: real, y: real)
    requires x > 0.0 && y > 0.0
    ensures x * y > 0.0
  {
  }

  lemma SignOfFactor(p: real, gap: real)
    requires p > 0.0 && p * gap >= 0.0
    ensures gap >= 0.0
  {
  }

  lemma ScaledGap(x: real, y: real, d: real, p: real, q: real)
    ensures p * (x * x * q + y * y * p - 2.0 * x * y * d)
            == (x * d - y * p) * (x * d - y * p) + x * x * (p * q - d * d)
  {
    var xd, yp := x * d, y * p;
    assert (xd - yp) * (xd - yp) == xd * xd - 2.0 * xd * yp + yp * yp;
    assert xd * xd == x * x * (d * d);
    assert yp * yp == p * (y * y * p);
    assert xd * yp == p * (x * y * d);
    assert x * x * (p * q - d * d) == p * (x * x * q) - x * x * (d * d);
  }

  /** Also for vectors of different lengths, where `Dot` only sees the common prefix. */
  lemma {:induction false} CauchySchwarz(a: seq<real>, b: seq<real>)
    ensures Dot(a, b) * Dot(a, b) <= Dot(a, a) * Dot(b, b)
  {
    DotSelfNonNegative(a);
    DotSelfNonNegative(b);
    if a != [] && b != [] {
      CauchySchwarz(a[1..], b[1..]);
      DotSelfNonNegative(a[1..]);
      DotSelfNonNegative(b[1..]);
      CauchyStep(a[0], b[0], Dot(a[1..], b[1..]), Dot(a[1..], a[1..]), Dot(b[1..], b[1..]));
    } else {
      assert Dot(a, b) == 0.0;
      assert Dot(a, a) * Dot(b, b) >= 0.0;
    }
  }

  lemma SquareBound(d: real, n: real)
    requires n > 0.0 && d * d <= n * n
    ensures -1.0 <= d / n <= 1.0
  {
    if d > n {
      LargerSquare(d, n);
    } else if d < -n {
      LargerSquare(-d, n);
    }
  }

  lemma LargerSquare(d: real, n: real)
    requires d > n > 0.0
    ensures d * d > n * n
  {
    Positive(d - n, d + n);
    assert (d - n) * (d + n) == d * d - n * n;
  }

  /** Cauchy-Schwarz carries over from squares to norms, a zero vector's norm being taken as 1. */
  lemma NormBound(d: real, pp: real, qq: real, p: real, q: real)
    requires pp >= 0.0 && qq >= 0.0 && d * d <= pp * qq && p > 0.0 && q > 0.0
    requires (pp > 0.0 ==> p * p == pp) && (qq > 0.0 ==> q * q == qq)
    ensures d * d <= (p * q) * (p * q)
  {
    if pp == 0.0 || qq == 0.0 {
      ZeroFactor(pp, qq);
      Squares(p * q);
    } else {
      SquareOfProduct(p, q);
    }
  }

  lemma SquareOfProduct(p: real, q: real)
    ensures (p * q) * (p * q) == (p * p) * (q * q)
  {
  }

  lemma RatioInRange(d: real, pp: real, qq: real, p: real, q: real)
    requires pp >= 0.0 && qq >= 0.0 && d * d <= pp * qq && p > 0.0 && q > 0.0
    requires (pp > 0.0 ==> p * p == pp) && (qq > 0.0 ==> q * q == qq)
    ensures -1.0 <= Ratio(d, p, q) <= 1.0
  {
    Positive(p, q);
    NormBound(d, pp, qq, p, q);
    SquareBound(d, p * q);
  }

  /** Main result: the similarity is a true cosine, also for zero vectors and vectors of
      different lengths. */
  lemma CosineInRange(sqrt: real -> real, a: seq<real>, b: seq<real>)
    requires IsSqrt(sqrt)
    ensures -1.0 <= Cosine(sqrt, a, b) <= 1.0
  {
    hide Dot, Norm, IsSqrt, Ratio;
    NormPositive(sqrt, a);
    NormPositive(sqrt, b);
    CauchySchwarz(a, b);
    DotSelfNonNegative(a);
    DotSelfNonNegative(b);
    RatioInRange(Dot(a, b), Dot(a, a), Dot(b, b), Norm(sqrt, a), Norm(sqrt, b));
  }

  lemma ShareOfSelf(d: real, n: real)
    requires n > 0.0 && (d == 0.0 || d == n)
    ensures d / n == if d == 0.0 then 0.0 else 1.0
  {
  }

  /** Stated for two factors, so that no square is involved. */
  lemma RatioOfSelf(d: real, p: real, q: real)
    requires p > 0.0 && q > 0.0 && d >= 0.0 && (d > 0.0 ==> p * q == d)
    ensures Ratio(d, p, q) == if d == 0.0 then 0.0 else 1.0
  {
    Positive(p, q);
    ShareOfSelf(d, p * q);
  }

  lemma CosineOfSelf(sqrt: real -> real, a: seq<real>)
    requires IsSqrt(sqrt)
    ensures Cosine(sqrt, a, a) == if forall i :: 0 <= i < |a| ==> a[i] == 0.0 then 0.0 else 1.0
  {
    hide Dot, Norm, IsSqrt, Ratio;
    DotSelfNonNegative(a);
    NormPositive(sqrt, a);
    RatioOfSelf(Dot(a, a), Norm(sqrt, a), Norm(sqrt, a));
  }

  // ---------------------------------------------------------------- what the number is

  ghost predicate Zero(a: seq<real>) {
    forall i :: 0 <= i < |a| ==> a[i] == 0.0
  }

  /** c is the cosine of the angle: its square is the quotient of the squares, it has the sign of the
      product, and it is 0 when a vector is zero. */
  ghost predicate IsCosine(a: seq<real>, b: seq<real>, c: real) {
    if Zero(a) || Zero(b) then c == 0.0
    else c * c * (Dot(a, a) * Dot(b, b)) == Dot(a, b) * Dot(a, b)
         && (c > 0.0 <==> Dot(a, b) > 0.0) && (c < 0.0 <==> Dot(a, b) < 0.0)
  }

  lemma QuotientTimes(d: real, n: real)
    requires n > 0.0
    ensures d / n * n == d && (d / n > 0.0 <==> d > 0.0) && (d / n < 0.0 <==> d < 0.0)
  {
  }

  lemma TimesSquared(c: real, n: real)
    ensures (c * n) * (c * n) == c * c * (n * n)
  {
  }

  lemma RatioSquared(d: real, pp: real, qq: real, p: real, q: real)
    requires p > 0.0 && q > 0.0 && p * p == pp && q * q == qq
    ensures var c := Ratio(d, p, q);
            c * c * (pp * qq) == d * d && (c > 0.0 <==> d > 0.0) && (c < 0.0 <==> d < 0.0)
  {
    Positive(p, q);
    QuotientTimes(d, p * q);
    TimesSquared(d / (p * q), p * q);
    SquareOfProduct(p, q);
  }

  lemma RatioOfZero(p: real, q: real)
    requires p > 0.0 && q > 0.0
    ensures Ratio(0.0, p, q) == 0.0
  {
    Positive(p, q);
    QuotientTimes(0.0, p * q);
  }

  lemma {:induction false} DotOfZero(a: seq<real>, b: seq<real>)
    requires Zero(a) || Zero(b)
    ensures Dot(a, b) == 0.0
  {
    if a != [] && b != [] {
      DotOfZero(a[1..], b[1..]);
      ZeroFactor(a[0], b[0]);
    }
  }

  /** Main result: what the similarity is, for all vectors. */
  lemma CosineIs(sqrt: real -> real, a: seq<real>, b: seq<real>)
    requires IsSqrt(sqrt)
    ensures IsCosine(a, b, Cosine(sqrt, a, b))
  {
    hide Dot, Norm, IsSqrt, Ratio;
    NormPositive(sqrt, a);
    NormPositive(sqrt, b);
    DotSelfNonNegative(a);
    DotSelfNonNegative(b);
    if Zero(a) || Zero(b) {
      DotOfZero(a, b);
      RatioOfZero(Norm(sqrt, a), Norm(sqrt, b));
    } else {
      RatioSquared(Dot(a, b), Dot(a, a), Dot(b, b), Norm(sqrt, a), Norm(sqrt, b));
    }
  }

  lemma SameSquare(c: real, e: real, k: real)
    requires k > 0.0 && c * c * k == e * e * k
    requires (c > 0.0 <==> e > 0.0) && (c < 0.0 <==> e < 0.0)
    ensures c == e
  {
    SameFactor(c * c, e * e, k);
    if c > 0.0 {
      SamePositive(c, e);
    } else if c < 0.0 {
      SamePositive(-c, -e);
    }
  }

  lemma SameFactor(x: real, y: real, k: real)
    requires k > 0.0 && x * k == y * k
    ensures x == y
  {
    assert (x - y) * k == 0.0;
    ZeroProduct(x - y, k);
  }

  lemma SamePositive(c: real, e: real)
    requires c > 0.0 && e > 0.0 && c * c == e * e
    ensures c == e
  {
    if c > e {
      LargerSquare(c, e);
    } else if e > c {
      LargerSquare(e, c);
    }
  }

  /** Only one number is the cosine of two vectors. */
  lemma CosineIsUnique(a: seq<real>, b: seq<real>, c: real, e: real)
    requires IsCosine(a, b, c) && IsCosine(a, b, e)
    ensures c == e
  {
    hide Dot;
    if !Zero(a) && !Zero(b) {
      DotSelfNonNegative(a);
      DotSelfNonNegative(b);
      Positive(Dot(a, a), Dot(b, b));
      SameSquare(c, e, Dot(a, a) * Dot(b, b));
    }
  }

  // ---------------------------------------------------------------- laws of the similarity

  lemma {:induction false} DotCommutes(a: seq<real>, b: seq<real>)
    ensures Dot(a, b) == Dot(b, a)
  {
    if a != [] && b != [] {
      DotCommutes(a[1..], b[1..]);
    }
  }

  /** The last pair of components counts like the first, and nothing beyond the shorter vector does. */
  lemma {:induction false} DotOfAppended(a: seq<real>, b: seq<real>, x: real, y: real, more: seq<real>)
    requires |a| == |b|
    ensures Dot(a + [x], b + [y]) == Dot(a, b) + x * y
    ensures Dot(a + more, b) == Dot(a, b)
  {
    if a == [] {
      assert a + [x] == [x] && b + [y] == [y] && b == [];
      assert [x][1..] == [] && Dot([x], [y]) == x * y + Dot([], [y][1..]);
    } else {
      assert (a + [x])[1..] == a[1..] + [x] && (b + [y])[1..] == b[1..] + [y] && (a + more)[1..] == a[1..] + more;
      DotOfAppended(a[1..], b[1..], x, y, more);
    }
  }

  lemma CosineCommutes(sqrt: real -> real, a: seq<real>, b: seq<real>)
    requires IsSqrt(sqrt)
    ensures Cosine(sqrt, a, b) == Cosine(sqrt, b, a)
  {
    hide Dot;
    DotCommutes(a, b);
    CosineIs(sqrt, a, b);
    CosineIs(sqrt, b, a);
    assert Dot(a, a) * Dot(b, b) == Dot(b, b) * Dot(a, a);
    CosineIsUnique(a, b, Cosine(sqrt, a, b), Cosine(sqrt, b, a));
  }

  function Scaled(k: real, a: seq<real>): (r: seq<real>)
    ensures |r| == |a| && forall i :: 0 <= i < |a| ==> r[i] == k * a[i]
  {
    seq(|a|, i requires 0 <= i < |a| => k * a[i])
  }

  lemma ScaledTail(k: real, a: seq<real>)
    requires a != []
    ensures Scaled(k, a)[1..] == Scaled(k, a[1..])
  {
    var whole, tail := Scaled(k, a), Scaled(k, a[1..]);
    forall i | 0 <= i < |a| - 1 ensures whole[1..][i] == tail[i] {
      assert whole[i + 1] == k * a[i + 1] && a[1..][i] == a[i + 1];
    }
  }

  lemma {:induction false} DotOfScaled(k: real, a: seq<real>, b: seq<real>)
    ensures Dot(Scaled(k, a), b) == k * Dot(a, b)
  {
    if a != [] && b != [] {
      DotOfScaled(k, a[1..], b[1..]);
      ScaledTail(k, a);
      Spread(k, a[0], b[0], Dot(a[1..], b[1..]));
    }
  }

  lemma Spread(k: real, x: real, y: real, d: real)
    ensures (k * x) * y + k * d == k * (x * y + d)
  {
  }

  lemma ScaledSelf(k: real, a: seq<real>)
    ensures Dot(Scaled(k, a), Scaled(k, a)) == k * k * Dot(a, a)
  {
    DotOfScaled(k, a, Scaled(k, a));
    DotCommutes(a, Scaled(k, a));
    DotOfScaled(k, a, a);
    Regroup(k, Dot(a, a));
  }

  lemma Regroup(k: real, d: real)
    ensures k * (k * d) == k * k * d
  {
  }

  lemma ScaledZero(k: real, a: seq<real>)
    requires k != 0.0
    ensures Zero(Scaled(k, a)) <==> Zero(a)
  {
    forall i | 0 <= i < |a| ensures Scaled(k, a)[i] == 0.0 <==> a[i] == 0.0 {
      if k * a[i] == 0.0 {
        ZeroProduct(k, a[i]);
      } else if a[i] == 0.0 {
        ZeroFactor(k, a[i]);
      }
    }
  }

  /** Main result: the similarity is about directions only. Scaling a vector by a positive number
      leaves it, by a negative one turns its sign. */
  lemma CosineOfScaled(sqrt: real -> real, k: real, a: seq<real>, b: seq<real>)
    requires IsSqrt(sqrt) && k != 0.0
    ensures Cosine(sqrt, Scaled(k, a), b) == if k > 0.0 then Cosine(sqrt, a, b) else -Cosine(sqrt, a, b)
  {
    hide Dot, Cosine, Scaled, Zero, IsSqrt;
    var c := Cosine(sqrt, a, b);
    var e := if k > 0.0 then c else -c;
    CosineIs(sqrt, a, b);
    CosineIs(sqrt, Scaled(k, a), b);
    ScaledZero(k, a);
    if !Zero(a) && !Zero(b) {
      DotOfScaled(k, a, b);
      ScaledSelf(k, a);
      ScaledEquation(k, c, e, Dot(a, a) * Dot(b, b), Dot(a, b));
      Regroup3(k, Dot(a, a), Dot(b, b));
      SignOfScaled(k, Dot(a, b));
    }
    CosineIsUnique(Scaled(k, a), b, Cosine(sqrt, Scaled(k, a), b), e);
  }

  lemma Regroup3(k: real, p: real, q: real)
    ensures k * k * p * q == k * k * (p * q)
  {
  }

  lemma ScaledEquation(k: real, c: real, e: real, n: real, d: real)
    requires c * c * n == d * d && (e == c || e == -c)
    ensures e * e * (k * k * n) == (k * d) * (k * d)
  {
    assert e * e == c * c by { SquareOfNegative(c); }
    TimesSquared(d, k);
    assert (k * d) * (k * d) == (d * d) * (k * k);
    assert c * c * (k * k * n) == (c * c * n) * (k * k);
  }

  lemma SquareOfNegative(c: real)
    ensures (-c) * (-c) == c * c
  {
  }

  lemma SignOfScaled(k: real, d: real)
    requires k != 0.0
    ensures k > 0.0 ==> (k * d > 0.0 <==> d > 0.0) && (k * d < 0.0 <==> d < 0.0)
    ensures k < 0.0 ==> (k * d > 0.0 <==> d < 0.0) && (k * d < 0.0 <==> d > 0.0)
  {
  }
}
