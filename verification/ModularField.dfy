/** Arithmetic modulo a prime: divisibility, extended Euclid, and cancellation. */
module ModularField {
  import opened Base

  /** `a` is zero modulo `p`. */
  predicate Zero(p: int, a: int)
    requires p > 0
  {
    a % p == 0
  }

  ghost predicate Prime(p: int) {
    p > 1 && forall d :: 1 < d < p ==> p % d != 0
  }

  lemma ZeroByQuotient(p: int, a: int, q: int)
    requires p > 0 && a == q * p
    ensures Zero(p, a)
  {
    var r := a % p;
    var d := q - a / p;
    assert r == d * p;
    assert d >= 1 ==> d * p >= p;
    assert d <= -1 ==> d * p <= -p;
  }

  lemma Quotient(p: int, a: int) returns (q: int)
    requires p > 0 && Zero(p, a)
    ensures a == q * p
  {
    q := a / p;
  }

  lemma ZeroSum(p: int, a: int, b: int)
    requires p > 0 && Zero(p, a) && Zero(p, b)
    ensures Zero(p, a + b) && Zero(p, a - b)
  {
    var s := Quotient(p, a);
    var t := Quotient(p, b);
    ZeroByQuotient(p, a + b, s + t);
    ZeroByQuotient(p, a - b, s - t);
  }

  lemma ZeroNegated(p: int, a: int)
    requires p > 0 && Zero(p, a)
    ensures Zero(p, 0 - a)
  {
    var s := Quotient(p, a);
    ZeroByQuotient(p, 0 - a, -s);
  }

  lemma ZeroProduct(p: int, a: int, k: int)
    requires p > 0 && Zero(p, a)
    ensures Zero(p, a * k) && Zero(p, k * a)
  {
    var s := Quotient(p, a);
    assert a * k == s * k * p;
    ZeroByQuotient(p, a * k, s * k);
  }

  /** A value and its remainder differ by a multiple of the modulus. */
  lemma ZeroReduce(p: int, a: int)
    requires p > 0
    ensures Zero(p, a - a % p)
  {
    ZeroByQuotient(p, a - a % p, a / p);
  }

  lemma ZeroSmall(p: int, a: int)
    requires p > 0 && Zero(p, a) && -p < a < p
    ensures a == 0
  {}

  /** Values that differ by a multiple of the modulus reduce to the same remainder. */
  lemma SameRemainder(p: int, a: int, b: int)
    requires p > 0 && Zero(p, a - b)
    ensures a % p == b % p
  {
    ZeroReduce(p, a);
    ZeroReduce(p, b);
    ZeroSum(p, a - a % p, b - b % p);
    ZeroSum(p, a - b, (a - a % p) - (b - b % p));
    ZeroSmall(p, a % p - b % p);
  }

  // ----- Extended Euclid -----

  /** `g == a * x + b * y`, and `g` divides both. */
  datatype Bezout = Bezout(g: int, x: int, y: int)

  function Egcd(a: nat, b: nat): (r: Bezout)
    requires b > 0
    decreases b
  {
    if a % b == 0 then Bezout(b, 0, 1)
    else
      var r := Egcd(b, a % b);
      Bezout(r.g, r.y, r.x - a / b * r.y)
  }

  lemma BezoutStep(a: int, b: int, q: int, rem: int, x: int, y: int)
    requires a == q * b + rem
    ensures b * x + rem * y == a * y + b * (x - q * y)
  {
    assert rem * y == a * y - q * b * y;
    assert b * (x - q * y) == b * x - q * b * y;
  }

  lemma {:induction false} EgcdCorrect(a: nat, b: nat)
    requires b > 0
    ensures var r := Egcd(a, b); 0 < r.g <= b && r.g == a * r.x + b * r.y && Zero(r.g, a) && Zero(r.g, b)
    decreases b
  {
    if a % b != 0 {
      EgcdCorrect(b, a % b);
      var r := Egcd(b, a % b);
      var q := a / b;
      BezoutStep(a, b, q, a % b, r.x, r.y);
      ZeroProduct(r.g, b, q);
      ZeroSum(r.g, q * b, a % b);
    }
  }

  /** The modular inverse, or nothing when the argument shares a factor with the modulus. */
  function Inverse(a: int, p: int): (r: Option<nat>)
    requires p > 1
  {
    var e := Egcd(a % p, p);
    if e.g == 1 then Some(e.x % p) else None
  }

  /** Replacing a factor by its remainder keeps a product congruent. */
  lemma ZeroReplace(p: int, a: int, k: int)
    requires p > 0 && Zero(p, a % p * k - 1)
    ensures Zero(p, a * k - 1)
  {
    ZeroReduce(p, a);
    ZeroProduct(p, a - a % p, k);
    assert (a - a % p) * k + (a % p * k - 1) == a * k - 1;
    ZeroSum(p, (a - a % p) * k, a % p * k - 1);
  }

  lemma ZeroReplaceOther(p: int, a: int, k: int)
    requires p > 0 && Zero(p, a * k - 1)
    ensures Zero(p, a * (k % p) - 1)
  {
    ZeroReduce(p, k);
    ZeroProduct(p, k - k % p, a);
    assert (a * k - 1) - a * (k - k % p) == a * (k % p) - 1;
    ZeroSum(p, a * k - 1, a * (k - k % p));
  }

  lemma InverseMultiplies(a: int, p: int)
    requires p > 1 && Inverse(a, p).Some?
    ensures Zero(p, a * Inverse(a, p).value - 1)
    ensures 0 <= Inverse(a, p).value < p
  {
    var m := a % p;
    EgcdCorrect(m, p);
    var e := Egcd(m, p);
    ZeroByQuotient(p, m * e.x - 1, -e.y);
    ZeroReplace(p, a, e.x);
    ZeroReplaceOther(p, a, e.x);
  }

  /** Modulo a prime, exactly the nonzero values have an inverse. */
  lemma InverseExists(a: int, p: int)
    requires Prime(p)
    ensures Inverse(a, p).Some? <==> !Zero(p, a)
  {
    var m := a % p;
    EgcdCorrect(m, p);
    var g := Egcd(m, p).g;
    assert g == 1 || g == p;
    if !Zero(p, a) && g == p {
      ZeroSmall(p, m);
    }
  }

  /** Euclid's lemma. */
  lemma ZeroFactor(p: int, a: int, b: int)
    requires Prime(p) && Zero(p, a * b)
    ensures Zero(p, a) || Zero(p, b)
  {
    if !Zero(p, a) {
      InverseExists(a, p);
      InverseMultiplies(a, p);
      var i := Inverse(a, p).value;
      ZeroProduct(p, a * b, i);
      ZeroProduct(p, a * i - 1, b);
      assert a * b * i - (a * i - 1) * b == b;
      ZeroSum(p, a * b * i, (a * i - 1) * b);
    }
  }
}
