/** The feeder's fixed-point volume-weighted averages, over prices and volumes of at most 128 bits. */
module Averages {
  import opened Base

  datatype Quote = Quote(price: U128, volume: U128)

  const MAX_U256: int := TWO_256 - 1

  function CheckedMul(a: U256, b: U256): (r: Option<U256>) {
    if a * b >= 0 && a * b < TWO_256 then Some(a * b) else None
  }

  function SaturatingAdd(a: U256, b: U256): (r: U256) {
    if a + b > MAX_U256 then MAX_U256 else a + b
  }

  function Capped(n: nat): (r: U256) {
    if n > MAX_U256 then MAX_U256 else n
  }

  // ----- The true sums -----

  function Product(q: Quote): (r: nat) {
    NonNegativeProduct(q.price, q.volume);
    q.price * q.volume
  }

  lemma NonNegativeProduct(a: nat, b: nat)
    ensures 0 <= a * b
  {}

  function ProductSum(qs: seq<Quote>): (r: nat) {
    if qs == [] then 0 else ProductSum(qs[..|qs| - 1]) + Product(qs[|qs| - 1])
  }

  function VolumeSum(qs: seq<Quote>): (r: nat) {
    if qs == [] then 0 else VolumeSum(qs[..|qs| - 1]) + qs[|qs| - 1].volume
  }

  /** Products of 128-bit values fit 256 bits. */
  lemma ProductFits(q: Quote)
    ensures Product(q) < TWO_256
  {
    var m := TWO_128 - 1;
    assert q.price * q.volume <= m * q.volume by { Scale(q.price, m, q.volume); }
    assert m * q.volume <= m * m by { Scale(q.volume, m, m); }
  }

  lemma Scale(a: nat, b: nat, k: nat)
    requires a <= b
    ensures a * k <= b * k && k * a <= k * b
  {}

  // ----- The averages -----

  /** No product is ever dropped, and each accumulator is the true sum capped at the largest 256-bit value. */
  method ComputeVwapFixed(qs: seq<Quote>) returns (average: U256, volume: U256)
    ensures volume == Capped(VolumeSum(qs))
    ensures volume == 0 ==> average == 0
    ensures volume > 0 ==> average == Capped(ProductSum(qs)) / Capped(VolumeSum(qs))
  {
    var priceVolumeSum: U256 := 0;
    var volumeSum: U256 := 0;
    for i := 0 to |qs|
      invariant priceVolumeSum == Capped(ProductSum(qs[..i]))
      invariant volumeSum == Capped(VolumeSum(qs[..i]))
    {
      assert qs[..i + 1][..i] == qs[..i];
      ProductFits(qs[i]);
      var pv := CheckedMul(qs[i].price, qs[i].volume);
      if pv.Some? {
        priceVolumeSum := SaturatingAdd(priceVolumeSum, pv.value);
      }
      volumeSum := SaturatingAdd(volumeSum, qs[i].volume);
    }
    assert qs[..|qs|] == qs;
    if volumeSum == 0 {
      return 0, 0;
    }
    QuotientFits(priceVolumeSum, volumeSum);
    return priceVolumeSum / volumeSum, volumeSum;
  }

  // ----- Independence of order -----

  lemma SumsAppend(qs: seq<Quote>, q: Quote)
    ensures ProductSum(qs + [q]) == ProductSum(qs) + Product(q)
    ensures VolumeSum(qs + [q]) == VolumeSum(qs) + q.volume
  {
    assert (qs + [q])[..|qs|] == qs;
  }

  lemma {:induction false} SumsTakeOut(front: seq<Quote>, q: Quote, back: seq<Quote>)
    ensures ProductSum(front + [q] + back) == ProductSum(front + back) + Product(q)
    ensures VolumeSum(front + [q] + back) == VolumeSum(front + back) + q.volume
    decreases |back|
  {
    if back == [] {
      assert front + [q] + back == front + [q] && front + back == front;
      SumsAppend(front, q);
    } else {
      var n := |back| - 1;
      SumsTakeOut(front, q, back[..n]);
      assert front + [q] + back == (front + [q] + back[..n]) + [back[n]];
      assert front + back == (front + back[..n]) + [back[n]];
      SumsAppend(front + [q] + back[..n], back[n]);
      SumsAppend(front + back[..n], back[n]);
    }
  }

  /** The sums, and so both results, depend only on which quotes there are, not on their order. */
  lemma {:induction false} OrderDoesNotMatter(qs: seq<Quote>, rs: seq<Quote>)
    requires multiset(qs) == multiset(rs)
    ensures ProductSum(qs) == ProductSum(rs) && VolumeSum(qs) == VolumeSum(rs)
    decreases |qs|
  {
    if qs == [] {
      assert |multiset(rs)| == 0;
      assert rs == [];
    } else {
      var n := |qs| - 1;
      var q := qs[n];
      assert qs == qs[..n] + [q];
      assert q in multiset(rs);
      var k :| 0 <= k < |rs| && rs[k] == q;
      var front, back := rs[..k], rs[k + 1..];
      assert rs == front + [q] + back;
      assert multiset(rs) == multiset(front) + multiset{q} + multiset(back) == multiset(front + back) + multiset{q};
      assert multiset(qs) == multiset(qs[..n]) + multiset{q};
      assert multiset(front + back) == multiset(rs) - multiset{q} == multiset(qs[..n]);
      OrderDoesNotMatter(qs[..n], front + back);
      SumsTakeOut(front, q, back);
      SumsAppend(qs[..n], q);
    }
  }

  // ----- Bounds -----

  lemma {:induction false} WeightedBelow(qs: seq<Quote>, hi: nat)
    requires forall i :: 0 <= i < |qs| && qs[i].volume > 0 ==> qs[i].price <= hi
    ensures ProductSum(qs) <= hi * VolumeSum(qs)
  {
    if qs != [] {
      var n := |qs| - 1;
      WeightedBelow(qs[..n], hi);
      Scale(if qs[n].volume > 0 then qs[n].price else 0, hi, qs[n].volume);
      assert hi * (VolumeSum(qs[..n]) + qs[n].volume) == hi * VolumeSum(qs[..n]) + hi * qs[n].volume;
    }
  }

  lemma {:induction false} WeightedAbove(qs: seq<Quote>, lo: nat)
    requires forall i :: 0 <= i < |qs| && qs[i].volume > 0 ==> lo <= qs[i].price
    ensures lo * VolumeSum(qs) <= ProductSum(qs)
  {
    if qs != [] {
      var n := |qs| - 1;
      WeightedAbove(qs[..n], lo);
      if qs[n].volume > 0 { Scale(lo, qs[n].price, qs[n].volume); }
      assert lo * (VolumeSum(qs[..n]) + qs[n].volume) == lo * VolumeSum(qs[..n]) + lo * qs[n].volume;
    }
  }

  lemma QuotientBounds(a: nat, b: nat, lo: nat, hi: nat)
    requires b > 0 && lo * b <= a <= hi * b
    ensures lo <= a / b <= hi
  {
    var q := a / b;
    assert a == q * b + a % b;
    assert q > hi ==> q * b >= (hi + 1) * b;
    assert q < lo ==> (q + 1) * b <= lo * b;
  }

  /** Without saturation, the average lies between any bounds on the prices that have volume. */
  lemma AverageIsBetween(qs: seq<Quote>, lo: nat, hi: nat)
    requires 0 < VolumeSum(qs) <= MAX_U256 && ProductSum(qs) <= MAX_U256
    requires forall i :: 0 <= i < |qs| && qs[i].volume > 0 ==> lo <= qs[i].price <= hi
    ensures lo <= Capped(ProductSum(qs)) / Capped(VolumeSum(qs)) <= hi
  {
    WeightedBelow(qs, hi);
    WeightedAbove(qs, lo);
    QuotientBounds(ProductSum(qs), VolumeSum(qs), lo, hi);
  }

  /** Even when the product sum saturates, the average never exceeds the greatest price that has volume. */
  lemma AverageIsNotAbove(qs: seq<Quote>, hi: nat)
    requires 0 < VolumeSum(qs) <= MAX_U256
    requires forall i :: 0 <= i < |qs| && qs[i].volume > 0 ==> qs[i].price <= hi
    ensures Capped(ProductSum(qs)) / Capped(VolumeSum(qs)) <= hi
  {
    WeightedBelow(qs, hi);
    QuotientBounds(Capped(ProductSum(qs)), VolumeSum(qs), 0, hi);
  }
}
