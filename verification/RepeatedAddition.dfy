/** Repeated addition in a monoid, and the algebra behind double-and-add. */
module RepeatedAddition {
  import opened ModularField

  datatype Monoid<!T> = Monoid(member: T -> bool, plus: (T, T) -> T, unit: T)

  ghost predicate Closed<T(!new)>(g: Monoid<T>) {
    && g.member(g.unit)
    && (forall a, b {:trigger g.plus(a, b)} :: g.member(a) && g.member(b) ==> g.member(g.plus(a, b)))
    && (forall a {:trigger g.plus(g.unit, a)} :: g.member(a) ==> g.plus(g.unit, a) == a)
    && (forall a {:trigger g.plus(a, g.unit)} :: g.member(a) ==> g.plus(a, g.unit) == a)
  }

  ghost predicate Associative<T(!new)>(g: Monoid<T>) {
    forall a, b, c {:trigger g.plus(g.plus(a, b), c)} ::
      g.member(a) && g.member(b) && g.member(c) ==> g.plus(g.plus(a, b), c) == g.plus(a, g.plus(b, c))
  }

  /** `n`-fold repeated addition. */
  function Times<T>(g: Monoid<T>, n: nat, a: T): (r: T) {
    if n == 0 then g.unit else g.plus(Times(g, n - 1, a), a)
  }

  lemma {:induction false} TimesMember<T(!new)>(g: Monoid<T>, n: nat, a: T)
    requires Closed(g) && g.member(a)
    ensures g.member(Times(g, n, a))
  {
    if n > 0 { TimesMember(g, n - 1, a); }
  }

  lemma TimesOne<T(!new)>(g: Monoid<T>, a: T)
    requires Closed(g) && g.member(a)
    ensures Times(g, 1, a) == a
  {
    assert Times(g, 0, a) == g.unit;
  }

  lemma {:induction false} TimesAdds<T(!new)>(g: Monoid<T>, m: nat, n: nat, a: T)
    requires Closed(g) && Associative(g) && g.member(a)
    ensures Times(g, m + n, a) == g.plus(Times(g, m, a), Times(g, n, a))
    decreases n
  {
    TimesMember(g, m, a);
    if n > 0 {
      TimesAdds(g, m, n - 1, a);
      TimesMember(g, n - 1, a);
    }
  }

  lemma {:induction false} TimesNests<T(!new)>(g: Monoid<T>, m: nat, n: nat, a: T)
    requires Closed(g) && Associative(g) && g.member(a)
    ensures Times(g, m * n, a) == Times(g, m, Times(g, n, a))
    decreases m
  {
    if m == 0 {
      assert m * n == 0;
    } else {
      TimesNests(g, m - 1, n, a);
      assert m * n == (m - 1) * n + n;
      TimesAdds(g, (m - 1) * n, n, a);
    }
  }

  lemma {:induction false} TimesUnit<T(!new)>(g: Monoid<T>, n: nat)
    requires Closed(g)
    ensures Times(g, n, g.unit) == g.unit
  {
    if n > 0 { TimesUnit(g, n - 1); }
  }

  lemma Doubles<T(!new)>(g: Monoid<T>, k: nat, a: T)
    requires Closed(g) && Associative(g) && g.member(a)
    ensures Times(g, k, g.plus(a, a)) == Times(g, k * 2, a)
  {
    TimesOne(g, a);
    TimesAdds(g, 1, 1, a);
    TimesNests(g, k, 2, a);
  }

  /** One turn of double-and-add preserves the sum of what is accumulated and what is left. */
  lemma LoopStep<T(!new)>(g: Monoid<T>, result: T, addend: T, k: nat)
    requires Closed(g) && Associative(g) && g.member(result) && g.member(addend)
    ensures var result' := if k % 2 == 1 then g.plus(result, addend) else result;
            g.plus(result', Times(g, k / 2, g.plus(addend, addend))) == g.plus(result, Times(g, k, addend))
  {
    var half := k / 2;
    Doubles(g, half, addend);
    if k % 2 == 1 {
      TimesOne(g, addend);
      TimesAdds(g, 1, half * 2, addend);
      TimesMember(g, half * 2, addend);
      assert 1 + half * 2 == k;
    }
  }

  lemma MultipleOfUnit<T(!new)>(g: Monoid<T>, u: nat, k: nat, a: T)
    requires Closed(g) && Associative(g) && g.member(a) && Times(g, k, a) == g.unit
    ensures Times(g, u * k, a) == g.unit
  {
    TimesNests(g, u, k, a);
    TimesUnit(g, u);
  }

  lemma OneMore<T(!new)>(g: Monoid<T>, m: nat, a: T)
    requires Closed(g) && g.member(a) && Times(g, m, a) == g.unit
    ensures Times(g, m + 1, a) == a
  {}

  /** Below a prime order, no multiple of a nonzero element vanishes. */
  lemma NoSmallMultiple<T(!new)>(g: Monoid<T>, n: nat, k: nat, a: T)
    requires Closed(g) && Associative(g) && g.member(a) && a != g.unit
    requires Prime(n) && Times(g, n, a) == g.unit && 0 < k < n
    ensures Times(g, k, a) != g.unit
  {
    var u, v := Cofactors(n, k);
    MultipleOfUnit(g, v, n, a);
    OneMore(g, v * n, a);
    if Times(g, k, a) == g.unit { MultipleOfUnit(g, u, k, a); }
  }

  lemma Cofactors(n: int, k: nat) returns (u: nat, v: nat)
    requires Prime(n) && 0 < k < n
    ensures u * k == v * n + 1
  {
    if Zero(n, k) { ZeroSmall(n, k); }
    InverseExists(k, n);
    InverseMultiplies(k, n);
    u := Inverse(k, n).value;
    var q := Quotient(n, k * u - 1);
    assert u > 0 && k * u >= 1;
    assert q < 0 ==> q * n < 0;
    v := q;
  }
}
