/** Types shared by every part of the model: bytes, fixed-width integers, failure values. */
module Base {

  type Byte = b: int | 0 <= b < 256
  type Bytes = seq<Byte>

  type Key32 = b: Bytes | |b| == 32 witness seq(32, _ => 0)
  type Nonce12 = b: Bytes | |b| == 12 witness seq(12, _ => 0)

  const TWO_32: int := 0x1_0000_0000
  const TWO_64: int := 0x1_0000_0000_0000_0000
  const TWO_128: int := 0x1_0000_0000_0000_0000_0000_0000_0000_0000
  const TWO_256: int :=
    0x1_0000_0000_0000_0000_0000_0000_0000_0000_0000_0000_0000_0000_0000_0000_0000_0000

  type U16 = n: int | 0 <= n < 0x1_0000
  type U32 = n: int | 0 <= n < 0x1_0000_0000
  type U64 = n: int | 0 <= n < 0x1_0000_0000_0000_0000
  type U128 = n: int | 0 <= n < TWO_128
  type U256 = n: int | 0 <= n < TWO_256

  datatype Option<+T> = None | Some(value: T)

  datatype Result<+T, +E> = Ok(value: T) | Err(error: E)

  /** The bytes of an ASCII literal. */
  function Ascii(s: string): (r: Bytes)
    ensures |r| == |s|
  {
    seq(|s|, i requires 0 <= i < |s| => s[i] as int % 256)
  }

  function Pow(b: nat, e: nat): nat {
    if e == 0 then 1 else b * Pow(b, e - 1)
  }

  lemma {:induction false} PowPositive(b: nat, e: nat)
    requires 0 < b
    ensures 0 < Pow(b, e)
  {
    if e > 0 { PowPositive(b, e - 1); }
  }

  lemma {:induction false} PowAdd(b: nat, d: nat, e: nat)
    ensures Pow(b, d + e) == Pow(b, d) * Pow(b, e)
  {
    if d > 0 {
      PowAdd(b, d - 1, e);
      Reassociate(b, Pow(b, d - 1), Pow(b, e));
    }
  }

  lemma Reassociate(a: int, b: int, c: int)
    ensures a * (b * c) == a * b * c
  {}

  // ----- Big-endian and little-endian integers of a fixed width -----

  /** The low `width` bytes of `n`, most significant first. */
  function BigEndian(n: nat, width: nat): (r: Bytes)
    ensures |r| == width
  {
    if width == 0 then [] else BigEndian(n / 256, width - 1) + [n % 256]
  }

  function FromBigEndian(b: Bytes): (n: nat)
  {
    if b == [] then 0 else 256 * FromBigEndian(b[..|b| - 1]) + b[|b| - 1]
  }

  /** The low `width` bytes of `n`, least significant first. */
  function LittleEndian(n: nat, width: nat): (r: Bytes)
    ensures |r| == width
  {
    if width == 0 then [] else [n % 256] + LittleEndian(n / 256, width - 1)
  }

  function FromLittleEndian(b: Bytes): (n: nat)
  {
    if b == [] then 0 else b[0] + 256 * FromLittleEndian(b[1..])
  }

  lemma {:induction false} BigEndianInverts(n: nat, width: nat)
    requires n < Pow(256, width)
    ensures FromBigEndian(BigEndian(n, width)) == n
  {
    if width > 0 {
      assert n / 256 < Pow(256, width - 1);
      BigEndianInverts(n / 256, width - 1);
      assert BigEndian(n, width)[..width - 1] == BigEndian(n / 256, width - 1);
    }
  }

  lemma {:induction false} FromBigEndianInverts(b: Bytes)
    ensures FromBigEndian(b) < Pow(256, |b|)
    ensures BigEndian(FromBigEndian(b), |b|) == b
  {
    if b != [] {
      var front := b[..|b| - 1];
      FromBigEndianInverts(front);
      assert FromBigEndian(b) / 256 == FromBigEndian(front);
      assert b == front + [b[|b| - 1]];
    }
  }

  lemma {:induction false} LittleEndianInverts(n: nat, width: nat)
    requires n < Pow(256, width)
    ensures FromLittleEndian(LittleEndian(n, width)) == n
  {
    if width > 0 {
      assert n / 256 < Pow(256, width - 1);
      LittleEndianInverts(n / 256, width - 1);
      assert LittleEndian(n, width)[1..] == LittleEndian(n / 256, width - 1);
    }
  }

  lemma {:induction false} FromLittleEndianInverts(b: Bytes)
    ensures FromLittleEndian(b) < Pow(256, |b|)
    ensures LittleEndian(FromLittleEndian(b), |b|) == b
  {
    if b != [] {
      FromLittleEndianInverts(b[1..]);
      assert FromLittleEndian(b) / 256 == FromLittleEndian(b[1..]);
      assert b == [b[0]] + b[1..];
    }
  }

  function Concat(items: seq<Bytes>): (r: Bytes) {
    if items == [] then [] else items[0] + Concat(items[1..])
  }

  function Map<A, B>(f: A -> B, s: seq<A>): (r: seq<B>) {
    seq(|s|, i requires 0 <= i < |s| => f(s[i]))
  }

  lemma MapConcatenates<A, B>(f: A -> B, s: seq<A>, t: seq<A>)
    ensures Map(f, s + t) == Map(f, s) + Map(f, t)
  {}

  lemma HeadTail<T>(s: seq<T>)
    requires s != []
    ensures [s[0]] + s[1..] == s
  {}

  lemma PrefixGrows<T>(s: seq<T>, n: nat)
    requires n < |s|
    ensures s[..n] + [s[n]] == s[..n + 1]
  {}

  lemma PowersOf256()
    ensures Pow(256, 2) == 0x1_0000
    ensures Pow(256, 8) == TWO_64
    ensures Pow(256, 32) == TWO_256
  {
    assert Pow(256, 2) == 0x1_0000;
    assert Pow(256, 4) == 0x1_0000_0000 by { PowAdd(256, 2, 2); }
    PowAdd(256, 4, 4);
    PowAdd(256, 8, 8);
    PowAdd(256, 16, 16);
  }

  lemma QuotientFits(a: nat, d: nat)
    requires d > 0
    ensures 0 <= a / d <= a
    ensures (a / d) * d <= a < (a / d + 1) * d
  {
    var q, m := a / d, a % d;
    assert a == q * d + m && 0 <= m < d;
    assert (q + 1) * d == q * d + d;
    ProductAtLeast(q, d);
  }

  lemma ProductAtLeast(q: int, d: int)
    requires d > 0
    ensures q > 0 ==> q * d >= q
    ensures q < 0 ==> q * d <= -d
  {
    if q > 0 { assert q * (d - 1) >= 0; }
    if q < 0 { assert (-q - 1) * d >= 0; }
  }
}
