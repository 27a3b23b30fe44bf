/** Affine point addition and double-and-add on y^2 = x^3 + 7, over any prime field. */
module Secp256k1 {
  import opened Base
  import opened ModularField
  import opened RepeatedAddition

  const SECP256K1_P: int := 0xFFFFFFFFFFFFFFFFFFFFFFFFFFFFFFFFFFFFFFFFFFFFFFFFFFFFFFFEFFFFFC2F

  datatype Point = Infinity | Affine(x: int, y: int)

  const SECP256K1_G: Point := Affine(
    0x79BE667EF9DCBBAC55A06295CE870B07029BFCDB2DCE28D959F2815B16F81798,
    0x483ADA7726A3C4655DA4FBFC0E1108A8FD17B448A68554199C47D08FFB10D4B8)

  datatype CurveError = NotInvertible | ScalarOutOfRange | PointAtInfinity

  function Slope(p: int, a: Point, b: Point): (r: Option<int>)
    requires p > 1 && a.Affine? && b.Affine?
  {
    if a == b then
      match Inverse(2 * a.y, p)
      case None => None
      case Some(i) => Some(3 * a.x * a.x * i % p)
    else
      match Inverse(b.x - a.x, p)
      case None => None
      case Some(i) => Some((b.y - a.y) * i % p)
  }

  /** The third intersection of the line of slope `l` through `a`, mirrored. */
  function Third(p: int, a: Point, b: Point, l: int): (r: Point)
    requires p > 1 && a.Affine? && b.Affine?
  {
    var x := (l * l - a.x - b.x) % p;
    Affine(x, (l * (a.x - x) - a.y) % p)
  }

  /** Point addition; an error stands for the exception of a missing inverse. */
  function PointAdd(p: int, a: Point, b: Point): (r: Result<Point, CurveError>)
    requires p > 1
  {
    if a.Infinity? then Ok(b)
    else if b.Infinity? then Ok(a)
    else if a.x == b.x && (a.y + b.y) % p == 0 then Ok(Infinity)
    else
      match Slope(p, a, b)
      case None => Err(NotInvertible)
      case Some(l) => Ok(Third(p, a, b, l))
  }

  // ----- Addition is total and closed -----

  function CurveEquation(x: int, y: int): (r: int) {
    y * y - x * x * x - 7
  }

  /** Infinity, or reduced coordinates that satisfy the curve equation. */
  predicate OnCurve(p: int, a: Point)
    requires p > 1
  {
    a.Affine? ==> 0 <= a.x < p && 0 <= a.y < p && Zero(p, CurveEquation(a.x, a.y))
  }

  /** The generator the script multiplies is on the curve. */
  lemma GeneratorIsOnCurve()
    ensures OnCurve(SECP256K1_P, SECP256K1_G)
  {}

  /** `l` is the slope of the chord, or of the tangent when the points coincide. */
  predicate IsSlope(p: int, a: Point, b: Point, l: int)
    requires p > 1 && a.Affine? && b.Affine?
  {
    if a == b then Zero(p, 3 * a.x * a.x - l * (2 * a.y))
    else !Zero(p, b.x - a.x) && Zero(p, l * (b.x - a.x) - (b.y - a.y))
  }

  /** Multiplying by an inverse and reducing divides. */
  lemma DivisionWorks(p: int, n: int, d: int, i: int)
    requires p > 1 && Zero(p, d * i - 1)
    ensures Zero(p, n * i % p * d - n)
  {
    ZeroReduce(p, n * i);
    ZeroProduct(p, n * i - n * i % p, d);
    ZeroProduct(p, d * i - 1, n);
    assert n * (d * i - 1) - (n * i - n * i % p) * d == n * i % p * d - n;
    ZeroSum(p, n * (d * i - 1), (n * i - n * i % p) * d);
  }

  /** Two reduced curve points with one abscissa are equal or opposite. */
  lemma SameAbscissa(p: int, a: Point, b: Point)
    requires Prime(p) && a.Affine? && b.Affine? && OnCurve(p, a) && OnCurve(p, b) && a.x == b.x
    ensures a == b || Zero(p, a.y + b.y)
  {
    ZeroSum(p, CurveEquation(a.x, a.y), CurveEquation(b.x, b.y));
    assert CurveEquation(a.x, a.y) - CurveEquation(b.x, b.y) == (a.y - b.y) * (a.y + b.y);
    ZeroFactor(p, a.y - b.y, a.y + b.y);
    if Zero(p, a.y - b.y) { ZeroSmall(p, a.y - b.y); }
  }

  lemma TangentExists(p: int, a: Point)
    requires Prime(p) && a.Affine? && !Zero(p, a.y + a.y)
    ensures Slope(p, a, a).Some? && IsSlope(p, a, a, Slope(p, a, a).value)
  {
    var d, n := 2 * a.y, 3 * a.x * a.x;
    InverseExists(d, p);
    InverseMultiplies(d, p);
    DivisionWorks(p, n, d, Inverse(d, p).value);
    ZeroNegated(p, Slope(p, a, a).value * d - n);
  }

  lemma ChordExists(p: int, a: Point, b: Point)
    requires Prime(p) && a.Affine? && b.Affine? && OnCurve(p, a) && OnCurve(p, b) && a.x != b.x
    ensures Slope(p, a, b).Some? && IsSlope(p, a, b, Slope(p, a, b).value)
  {
    if Zero(p, b.x - a.x) { ZeroSmall(p, b.x - a.x); }
    InverseExists(b.x - a.x, p);
    InverseMultiplies(b.x - a.x, p);
    DivisionWorks(p, b.y - a.y, b.x - a.x, Inverse(b.x - a.x, p).value);
  }

  /** Wherever the code takes a slope, the inverse it needs exists. */
  lemma SlopeExists(p: int, a: Point, b: Point)
    requires Prime(p) && a.Affine? && b.Affine? && OnCurve(p, a) && OnCurve(p, b)
    requires !(a.x == b.x && (a.y + b.y) % p == 0)
    ensures Slope(p, a, b).Some? && IsSlope(p, a, b, Slope(p, a, b).value)
  {
    if a.x == b.x {
      SameAbscissa(p, a, b);
      TangentExists(p, a);
    } else {
      ChordExists(p, a, b);
    }
  }

  /** The cubic less the squared line through `(x1, y1)` of slope `l`, at `x`. */
  function Gap(l: int, x1: int, y1: int, x: int): (r: int) {
    var line := y1 + l * (x - x1);
    x * x * x + 7 - line * line
  }

  /** The gap's divided difference at `x1`, `x2`. */
  function Secant(l: int, x1: int, y1: int, x2: int): (r: int) {
    x1 * x1 + x1 * x2 + x2 * x2 - l * l * (x1 + x2) - 2 * l * (y1 - l * x1)
  }

  lemma CubesDifference(x1: int, x2: int)
    ensures x2 * x2 * x2 - x1 * x1 * x1 == (x2 - x1) * (x1 * x1 + x1 * x2 + x2 * x2)
  {}

  lemma SquaresDifference(l: int, y1: int, d: int)
    ensures (y1 + l * d) * (y1 + l * d) - y1 * y1 == d * (2 * l * y1 + l * l * d)
  {}

  lemma SecantRewrites(l: int, x1: int, y1: int, x2: int)
    ensures Secant(l, x1, y1, x2) == x1 * x1 + x1 * x2 + x2 * x2 - (2 * l * y1 + l * l * (x2 - x1))
  {
    assert l * l * (x1 + x2) - 2 * l * l * x1 == l * l * (x2 - x1);
  }

  lemma GapDifference(l: int, x1: int, y1: int, x2: int)
    ensures Gap(l, x1, y1, x2) - Gap(l, x1, y1, x1) == (x2 - x1) * Secant(l, x1, y1, x2)
  {
    var d := x2 - x1;
    CubesDifference(x1, x2);
    SquaresDifference(l, y1, d);
    SecantRewrites(l, x1, y1, x2);
    Factor(d, x1 * x1 + x1 * x2 + x2 * x2, 2 * l * y1 + l * l * d);
  }

  lemma Factor(d: int, a: int, b: int)
    ensures d * a - d * b == d * (a - b)
  {}

  lemma SecantDifference(l: int, x1: int, y1: int, x2: int, x3: int)
    ensures Secant(l, x1, y1, x3) - Secant(l, x1, y1, x2) == (x3 - x2) * (x1 + x2 + x3 - l * l)
  {
    assert x1 * x3 + x3 * x3 - x1 * x2 - x2 * x2 == (x3 - x2) * (x1 + x2 + x3);
    assert l * l * (x1 + x3) - l * l * (x1 + x2) == (x3 - x2) * (l * l);
    assert (x3 - x2) * (x1 + x2 + x3) - (x3 - x2) * (l * l) == (x3 - x2) * (x1 + x2 + x3 - l * l);
  }

  lemma TangentSecant(l: int, x: int, y: int)
    ensures Secant(l, x, y, x) == 3 * x * x - l * (2 * y)
  {
    assert l * l * (x + x) == 2 * l * (l * x);
  }

  /** At the far end of a chord, the gap is the curve equation up to the slope's error. */
  lemma GapAtEnd(l: int, x1: int, y1: int, x2: int, y2: int)
    ensures var e := l * (x2 - x1) - (y2 - y1);
            Gap(l, x1, y1, x2) == 0 - CurveEquation(x2, y2) - e * (2 * y2 + e)
  {
    var e := l * (x2 - x1) - (y2 - y1);
    SquaresDifference(1, y2, e);
    assert y1 + l * (x2 - x1) == y2 + e;
  }

  /** The line's gap vanishes doubly at the tangent point, or at both ends of the chord. */
  lemma SecantVanishes(p: int, a: Point, b: Point, l: int)
    requires Prime(p) && a.Affine? && b.Affine? && OnCurve(p, a) && OnCurve(p, b) && IsSlope(p, a, b, l)
    ensures Zero(p, Gap(l, a.x, a.y, a.x)) && Zero(p, Secant(l, a.x, a.y, b.x))
  {
    ZeroNegated(p, CurveEquation(a.x, a.y));
    assert Gap(l, a.x, a.y, a.x) == 0 - CurveEquation(a.x, a.y);
    if a == b {
      TangentSecant(l, a.x, a.y);
    } else {
      ChordSecant(p, a, b, l);
    }
  }

  lemma ChordSecant(p: int, a: Point, b: Point, l: int)
    requires Prime(p) && a.Affine? && b.Affine? && a != b && OnCurve(p, b) && IsSlope(p, a, b, l)
    requires Zero(p, Gap(l, a.x, a.y, a.x))
    ensures Zero(p, Secant(l, a.x, a.y, b.x))
  {
    var e := l * (b.x - a.x) - (b.y - a.y);
    var far := Gap(l, a.x, a.y, b.x);
    GapAtEnd(l, a.x, a.y, b.x, b.y);
    ZeroProduct(p, e, 2 * b.y + e);
    ZeroNegated(p, CurveEquation(b.x, b.y));
    ZeroSum(p, 0 - CurveEquation(b.x, b.y), e * (2 * b.y + e));
    ZeroSum(p, far, Gap(l, a.x, a.y, a.x));
    GapDifference(l, a.x, a.y, b.x);
    ZeroFactor(p, b.x - a.x, Secant(l, a.x, a.y, b.x));
  }

  /** The third intersection lies on the curve. */
  lemma ThirdIsOnCurve(p: int, a: Point, b: Point, l: int)
    requires Prime(p) && a.Affine? && b.Affine? && OnCurve(p, a) && OnCurve(p, b) && IsSlope(p, a, b, l)
    ensures OnCurve(p, Third(p, a, b, l))
  {
    var c := Third(p, a, b, l);
    SecantVanishes(p, a, b, l);
    ZeroReduce(p, l * l - a.x - b.x);
    ZeroNegated(p, l * l - a.x - b.x - c.x);
    ZeroProduct(p, a.x + b.x + c.x - l * l, c.x - b.x);
    SecantDifference(l, a.x, a.y, b.x, c.x);
    ZeroSum(p, Secant(l, a.x, a.y, b.x), (c.x - b.x) * (a.x + b.x + c.x - l * l));
    ZeroProduct(p, Secant(l, a.x, a.y, c.x), c.x - a.x);
    GapDifference(l, a.x, a.y, c.x);
    ZeroSum(p, Gap(l, a.x, a.y, a.x), (c.x - a.x) * Secant(l, a.x, a.y, c.x));
    MirrorOnCurve(p, a, c, l);
  }

  /** A point of the line whose gap vanishes, mirrored and reduced, satisfies the curve equation. */
  lemma MirrorOnCurve(p: int, a: Point, c: Point, l: int)
    requires p > 1 && a.Affine? && c.Affine? && Zero(p, Gap(l, a.x, a.y, c.x))
    requires c.y == (l * (a.x - c.x) - a.y) % p
    ensures Zero(p, CurveEquation(c.x, c.y))
  {
    var m := l * (a.x - c.x) - a.y;
    var line := a.y + l * (c.x - a.x);
    assert line == -m by { assert l * (c.x - a.x) == -(l * (a.x - c.x)); }
    ZeroReduce(p, m);
    ZeroProduct(p, m - c.y, m + c.y);
    assert CurveEquation(c.x, c.y) == 0 - Gap(l, a.x, a.y, c.x) - (m - c.y) * (m + c.y) by {
      assert (m - c.y) * (m + c.y) == m * m - c.y * c.y;
      assert line * line == m * m;
    }
    ZeroNegated(p, Gap(l, a.x, a.y, c.x));
    ZeroSum(p, 0 - Gap(l, a.x, a.y, c.x), (m - c.y) * (m + c.y));
  }

  /** Addition of reduced curve points never fails and stays on the curve. */
  lemma AddIsClosed(p: int, a: Point, b: Point)
    requires Prime(p) && OnCurve(p, a) && OnCurve(p, b)
    ensures PointAdd(p, a, b).Ok? && OnCurve(p, PointAdd(p, a, b).value)
  {
    if a.Affine? && b.Affine? && !(a.x == b.x && (a.y + b.y) % p == 0) {
      SlopeExists(p, a, b);
      ThirdIsOnCurve(p, a, b, Slope(p, a, b).value);
    }
  }

  // ----- Addition commutes -----

  lemma SlopesAgree(p: int, d: int, e: int, l: int, m: int)
    requires Prime(p) && !Zero(p, d) && Zero(p, l * d - e) && Zero(p, m * d - e) && 0 <= l < p && 0 <= m < p
    ensures l == m
  {
    ZeroSum(p, l * d - e, m * d - e);
    assert (l - m) * d == (l * d - e) - (m * d - e);
    ZeroFactor(p, l - m, d);
    ZeroSmall(p, l - m);
  }

  lemma SlopeReversed(p: int, d: int, e: int, m: int)
    requires p > 1 && Zero(p, m * -d - -e)
    ensures Zero(p, m * d - e)
  {
    ZeroNegated(p, m * -d - -e);
    assert 0 - (m * -d - -e) == m * d - e;
  }

  /** A chord has one slope. */
  lemma ChordSlopeIsUnique(p: int, a: Point, b: Point, l: int, m: int)
    requires Prime(p) && a.Affine? && b.Affine? && a != b
    requires IsSlope(p, a, b, l) && IsSlope(p, b, a, m) && 0 <= l < p && 0 <= m < p
    ensures l == m
  {
    var d, e := b.x - a.x, b.y - a.y;
    assert a.x - b.x == -d && a.y - b.y == -e;
    SlopeReversed(p, d, e, m);
    SlopesAgree(p, d, e, l, m);
  }

  lemma ThirdIsSymmetric(p: int, a: Point, b: Point, l: int)
    requires p > 1 && a.Affine? && b.Affine? && Zero(p, l * (b.x - a.x) - (b.y - a.y))
    ensures Third(p, a, b, l) == Third(p, b, a, l)
  {
    var x := Third(p, a, b, l).x;
    var ya, yb := l * (a.x - x) - a.y, l * (b.x - x) - b.y;
    assert yb - ya == l * (b.x - a.x) - (b.y - a.y) by {
      assert l * (b.x - x) - l * (a.x - x) == l * (b.x - a.x);
    }
    SameRemainder(p, yb, ya);
  }

  lemma AddCommutes(p: int, a: Point, b: Point)
    requires Prime(p) && OnCurve(p, a) && OnCurve(p, b)
    ensures PointAdd(p, a, b) == PointAdd(p, b, a)
  {
    if a.Affine? && b.Affine? && a != b && !(a.x == b.x && (a.y + b.y) % p == 0) {
      SlopeExists(p, a, b);
      SlopeExists(p, b, a);
      ChordSlopeIsUnique(p, a, b, Slope(p, a, b).value, Slope(p, b, a).value);
      ThirdIsSymmetric(p, a, b, Slope(p, a, b).value);
    }
  }

  /** Every curve point has its mirror as opposite. */
  lemma AddInverts(p: int, a: Point)
    requires Prime(p) && a.Affine? && OnCurve(p, a)
    ensures var m := Affine(a.x, (p - a.y) % p); OnCurve(p, m) && PointAdd(p, a, m) == Ok(Infinity)
  {
    var y := (p - a.y) % p;
    ZeroReduce(p, p - a.y);
    ZeroByQuotient(p, p, 1);
    ZeroSum(p, p, p - a.y - y);
    assert p - (p - a.y - y) == a.y + y;
    ZeroProduct(p, a.y + y, a.y - y);
    assert CurveEquation(a.x, a.y) - (a.y + y) * (a.y - y) == CurveEquation(a.x, y) by {
      assert (a.y + y) * (a.y - y) == a.y * a.y - y * y;
    }
    ZeroSum(p, CurveEquation(a.x, a.y), (a.y + y) * (a.y - y));
  }

  // ----- Scalar multiplication -----

  /** The curve points under addition. */
  function Curve(p: int): (g: Monoid<Point>)
    requires p > 1
  {
    Monoid(a => OnCurve(p, a), (a, b) => if PointAdd(p, a, b).Ok? then PointAdd(p, a, b).value else Infinity, Infinity)
  }

  lemma CurveIsClosed(p: int)
    requires Prime(p)
    ensures Closed(Curve(p))
  {
    var g := Curve(p);
    forall a, b | g.member(a) && g.member(b) ensures g.member(g.plus(a, b)) {
      AddIsClosed(p, a, b);
    }
  }

  lemma CurvePlus(p: int, a: Point, b: Point)
    requires Prime(p) && OnCurve(p, a) && OnCurve(p, b)
    ensures PointAdd(p, a, b) == Ok(Curve(p).plus(a, b)) && OnCurve(p, Curve(p).plus(a, b))
  {
    AddIsClosed(p, a, b);
  }

  /** Given associativity, double-and-add equals repeated addition; its two failures are exactly a scalar out of range
      and a product at infinity. */
  method PointMul(p: int, n: int, scalar: int, point: Point) returns (r: Result<Point, CurveError>)
    requires Prime(p) && Associative(Curve(p)) && point.Affine? && OnCurve(p, point)
    ensures r == Err(ScalarOutOfRange) <==> scalar <= 0 || scalar >= n
    ensures 0 < scalar < n ==>
              var t := Times(Curve(p), scalar, point); r == if t.Infinity? then Err(PointAtInfinity) else Ok(t)
  {
    if scalar <= 0 || scalar >= n {
      return Err(ScalarOutOfRange);
    }
    ghost var g := Curve(p);
    CurveIsClosed(p);
    TimesMember(g, scalar, point);
    var result: Point := Infinity;
    var addend: Point := point;
    var k := scalar;
    while k != 0
      invariant 0 <= k
      invariant g.member(result) && g.member(addend)
      invariant g.plus(result, Times(g, k, addend)) == Times(g, scalar, point)
    {
      LoopStep(g, result, addend, k);
      if k % 2 == 1 {
        CurvePlus(p, result, addend);
        result := PointAdd(p, result, addend).value;
      }
      CurvePlus(p, addend, addend);
      addend := PointAdd(p, addend, addend).value;
      k := k / 2;
    }
    if result.Infinity? {
      return Err(PointAtInfinity);
    }
    return Ok(result);
  }

  /** For a base point of prime order, no scalar in range reaches infinity, so the loop's second failure never
      occurs. */
  lemma NeverInfinite(p: int, n: int, scalar: nat, point: Point)
    requires Prime(p) && Associative(Curve(p)) && point.Affine? && OnCurve(p, point)
    requires Prime(n) && Times(Curve(p), n, point) == Infinity
    requires 0 < scalar < n
    ensures Times(Curve(p), scalar, point).Affine?
  {
    CurveIsClosed(p);
    NoSmallMultiple(Curve(p), n, scalar, point);
  }
}
