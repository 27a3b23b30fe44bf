/** Order independence through sorting: ceremony set-up and the TEE policy preimage. */
module CeremonyOrder {
  import opened Base
  import opened ByteOrder
  import opened DkgSeams
  import opened EnclaveProtocol

  // ----- Bags -----

  function Zip(bls: seq<Bytes>, enc: seq<Key32>): (r: seq<(Bytes, Key32)>)
    requires |bls| == |enc|
  {
    seq(|bls|, i requires 0 <= i < |bls| => (bls[i], enc[i]))
  }

  function Without<A>(s: seq<A>, k: nat): (r: seq<A>)
    requires k < |s|
    ensures |r| == |s| - 1
  {
    s[..k] + s[k + 1..]
  }

  lemma WithoutBag<A>(s: seq<A>, k: nat)
    requires k < |s|
    ensures multiset(s) == multiset{s[k]} + multiset(Without(s, k))
  {
    assert s == s[..k] + [s[k]] + s[k + 1..];
  }

  lemma MapWithout<A, B>(f: A -> B, s: seq<A>, k: nat)
    requires k < |s|
    ensures multiset(Map(f, s)) == multiset{f(s[k])} + multiset(Map(f, Without(s, k)))
  {
    WithoutBag(Map(f, s), k);
    assert Without(Map(f, s), k) == Map(f, Without(s, k));
  }

  /** Mapping a permutation gives a permutation. */
  lemma {:induction false} MapBag<A, B>(f: A -> B, s: seq<A>, t: seq<A>)
    requires multiset(s) == multiset(t)
    ensures multiset(Map(f, s)) == multiset(Map(f, t))
    decreases |s|
  {
    assert |s| == |multiset(s)| == |t|;
    if s != [] {
      assert s[0] in multiset(t);
      var k :| 0 <= k < |t| && t[k] == s[0];
      WithoutBag(s, 0);
      WithoutBag(t, k);
      assert multiset(Without(s, 0)) == multiset(s) - multiset{s[0]};
      assert multiset(Without(t, k)) == multiset(t) - multiset{s[0]};
      MapBag(f, Without(s, 0), Without(t, k));
      MapWithout(f, s, 0);
      MapWithout(f, t, k);
    }
  }

  lemma DistinctBag(s: seq<Bytes>, k: nat)
    requires k < |s| && Distinct(s)
    ensures multiset(s)[s[k]] == 1
  {
    WithoutBag(s, k);
    var r := Without(s, k);
    assert forall i :: 0 <= i < |r| ==> r[i] == s[if i < k then i else i + 1];
  }

  lemma RepeatBag(s: seq<Bytes>, i: nat, j: nat)
    requires i < j < |s| && s[i] == s[j]
    ensures multiset(s)[s[i]] >= 2
  {
    WithoutBag(s, i);
    assert Without(s, i)[j - 1] == s[j];
    assert s[j] in Without(s, i);
  }

  lemma DistinctPermutes(s: seq<Bytes>, t: seq<Bytes>)
    requires multiset(s) == multiset(t) && Distinct(s)
    ensures Distinct(t)
  {
    forall i, j | 0 <= i < j < |t| ensures t[i] != t[j] {
      if t[i] == t[j] {
        RepeatBag(t, i, j);
        assert t[i] in multiset(s);
        var k :| 0 <= k < |s| && s[k] == t[i];
        DistinctBag(s, k);
      }
    }
  }

  // ----- Ceremony set-up -----

  /** With distinct names, the announced key of `pk` is the one it is paired with. */
  lemma {:induction false} EncKeyIsPaired(bls: seq<Bytes>, enc: seq<Key32>, pk: Bytes, e: Key32)
    requires |bls| == |enc| && Distinct(bls)
    ensures EncKeyFor(bls, enc, pk) == Some(e) <==> (pk, e) in Zip(bls, enc)
    decreases |bls|
  {
    var z := Zip(bls, enc);
    if bls != [] {
      var m := |bls| - 1;
      EncKeyIsPaired(bls[..m], enc[..m], pk, e);
      assert z[m] == (bls[m], enc[m]);
      assert z[..m] == Zip(bls[..m], enc[..m]);
      assert z == z[..m] + [z[m]];
      assert forall i :: 0 <= i < m ==> z[i].0 == bls[i] && bls[i] != bls[m];
    }
  }

  lemma EncKeyPermutes(bls: seq<Bytes>, enc: seq<Key32>, bls': seq<Bytes>, enc': seq<Key32>, pk: Bytes)
    requires |bls| == |enc| && |bls'| == |enc'| && Distinct(bls) && Distinct(bls')
    requires multiset(Zip(bls, enc)) == multiset(Zip(bls', enc'))
    ensures EncKeyFor(bls, enc, pk) == EncKeyFor(bls', enc', pk)
  {
    var a, b := EncKeyFor(bls, enc, pk), EncKeyFor(bls', enc', pk);
    if a.Some? {
      EncKeyIsPaired(bls, enc, pk, a.value);
      assert (pk, a.value) in multiset(Zip(bls', enc'));
      EncKeyIsPaired(bls', enc', pk, a.value);
    } else if b.Some? {
      EncKeyIsPaired(bls', enc', pk, b.value);
      assert (pk, b.value) in multiset(Zip(bls, enc));
      EncKeyIsPaired(bls, enc, pk, b.value);
    }
  }

  lemma {:induction false} PairingPermutes(keys: seq<Bytes>, bls: seq<Bytes>, enc: seq<Key32>,
                                           bls': seq<Bytes>, enc': seq<Key32>)
    requires |bls| == |enc| && |bls'| == |enc'| && Distinct(bls) && Distinct(bls')
    requires multiset(Zip(bls, enc)) == multiset(Zip(bls', enc'))
    ensures PairKeys(keys, bls, enc) == PairKeys(keys, bls', enc')
    decreases |keys|
  {
    if keys != [] {
      EncKeyPermutes(bls, enc, bls', enc', keys[0]);
      PairingPermutes(keys[1..], bls, enc, bls', enc');
    }
  }

  lemma DistinctBeforeDecoding(c: Commonware, bls: seq<Bytes>)
    requires AllDecode(c, bls) && Distinct(Sort(DecodeKeys(c, bls)))
    ensures Distinct(bls)
  {
    var d := DecodeKeys(c, bls);
    DistinctPermutes(Sort(d), d);
    forall i, j | 0 <= i < j < |bls| ensures bls[i] != bls[j] {
      assert d[i] != d[j];
    }
  }

  lemma DecodingPermutes(c: Commonware, bls: seq<Bytes>, bls': seq<Bytes>)
    requires multiset(bls) == multiset(bls')
    ensures AllDecode(c, bls) <==> AllDecode(c, bls')
    ensures AllDecode(c, bls) ==> Sort(DecodeKeys(c, bls)) == Sort(DecodeKeys(c, bls'))
  {
    assert forall i :: 0 <= i < |bls| ==> bls[i] in multiset(bls');
    assert forall i :: 0 <= i < |bls'| ==> bls'[i] in multiset(bls);
    if AllDecode(c, bls) {
      var f := b => match c.decodePubkey(b) case Some(k) => k case None => [];
      MapBag(f, bls, bls');
      assert DecodeKeys(c, bls) == Map(f, bls) && DecodeKeys(c, bls') == Map(f, bls');
      SortOrderIndependent(DecodeKeys(c, bls), DecodeKeys(c, bls'));
    }
  }

  /** Announcing the same (participant, key) pairs in another order opens the same session, with the same ceremony
      info and the same recipient table, or fails alike. */
  lemma OpenIsOrderIndependent(kit: Kit, keys: EnclaveKeys, round: U64,
                               bls: seq<Bytes>, enc: seq<Key32>, bls': seq<Bytes>, enc': seq<Key32>)
    requires |bls| == |enc| && |bls'| == |enc'|
    requires multiset(Zip(bls, enc)) == multiset(Zip(bls', enc'))
    ensures BuildCeremonyInfo(kit.dkg, round, bls) == BuildCeremonyInfo(kit.dkg, round, bls')
    ensures OpenSession(kit, keys, round, bls, enc) == OpenSession(kit, keys, round, bls', enc')
  {
    var first := (z: (Bytes, Key32)) => z.0;
    MapBag(first, Zip(bls, enc), Zip(bls', enc'));
    assert Map(first, Zip(bls, enc)) == bls && Map(first, Zip(bls', enc')) == bls';
    DecodingPermutes(kit.dkg, bls, bls');
    var info := BuildCeremonyInfo(kit.dkg, round, bls);
    if info.Ok? {
      DistinctBeforeDecoding(kit.dkg, bls);
      DistinctPermutes(bls, bls');
      PairingPermutes(info.value.pubkeys, bls, enc, bls', enc');
    }
  }

  // ----- TEE policy preimage -----

  /** A list of 32-byte measurements. */
  predicate Measurements(s: seq<Bytes>) {
    forall i :: 0 <= i < |s| ==> |s[i]| == 32
  }

  lemma {:induction false} ConcatLength(s: seq<Bytes>)
    requires Measurements(s)
    ensures |Concat(s)| == 32 * |s|
  {
    if s != [] { ConcatLength(s[1..]); }
  }

  lemma {:induction false} ConcatInjective(s: seq<Bytes>, t: seq<Bytes>)
    requires Measurements(s) && Measurements(t) && |s| == |t| && Concat(s) == Concat(t)
    ensures s == t
    decreases |s|
  {
    if s != [] {
      ConcatLength(s);
      ConcatLength(t);
      assert Concat(s)[..32] == s[0] && Concat(t)[..32] == t[0];
      assert Concat(s)[32..] == Concat(s[1..]) && Concat(t)[32..] == Concat(t[1..]);
      ConcatInjective(s[1..], t[1..]);
      assert s == [s[0]] + s[1..] && t == [t[0]] + t[1..];
    }
  }

  lemma SortedMeasurements(s: seq<Bytes>)
    requires Measurements(s)
    ensures Measurements(Sort(s)) && |Sort(s)| == |s|
  {
    assert |multiset(Sort(s))| == |multiset(s)|;
    forall i | 0 <= i < |Sort(s)| ensures |Sort(s)[i]| == 32 {
      assert Sort(s)[i] in multiset(s);
    }
  }

  function Counted(s: seq<Bytes>): (r: Bytes)
    requires Measurements(s)
  {
    SortedMeasurements(s);
    BigEndian(|s|, 2) + Concat(Sort(s))
  }

  function PolicyBody(signers: seq<Bytes>, enclaves: seq<Bytes>, minSvn: nat): (r: Bytes)
    requires Measurements(signers) && Measurements(enclaves)
  {
    Counted(signers) + (Counted(enclaves) + BigEndian(minSvn, 2))
  }

  /** The policy hash preimage; a count or SVN that does not fit two bytes is an error. */
  function PolicyPreimage(signers: seq<Bytes>, enclaves: seq<Bytes>, minSvn: int): (r: Option<Bytes>)
    requires Measurements(signers) && Measurements(enclaves)
  {
    if |signers| >= 0x1_0000 || |enclaves| >= 0x1_0000 || !(0 <= minSvn < 0x1_0000) then None
    else Some(Ascii("outbe/tee/policy/v1") + PolicyBody(signers, enclaves, minSvn))
  }

  /** A count and that many measurements are read off the front of any byte string. */
  lemma CountedParts(s: seq<Bytes>, t: seq<Bytes>, a: Bytes, b: Bytes)
    requires Measurements(s) && Measurements(t) && |s| < 0x1_0000 && |t| < 0x1_0000
    requires BigEndian(|s|, 2) + Concat(s) + a == BigEndian(|t|, 2) + Concat(t) + b
    ensures s == t && a == b
  {
    PowersOf256();
    ConcatLength(s);
    ConcatLength(t);
    var u, v := BigEndian(|s|, 2) + Concat(s) + a, BigEndian(|t|, 2) + Concat(t) + b;
    assert u[..2] == BigEndian(|s|, 2) && v[..2] == BigEndian(|t|, 2);
    BigEndianInverts(|s|, 2);
    BigEndianInverts(|t|, 2);
    var k := 2 + 32 * |s|;
    assert u[2..k] == Concat(s) && v[2..k] == Concat(t);
    ConcatInjective(s, t);
    assert u[k..] == a && v[k..] == b;
  }

  lemma CountedPrefix(s: seq<Bytes>, t: seq<Bytes>, a: Bytes, b: Bytes)
    requires Measurements(s) && Measurements(t) && |s| < 0x1_0000 && |t| < 0x1_0000
    requires Counted(s) + a == Counted(t) + b
    ensures multiset(s) == multiset(t) && a == b
  {
    SortedMeasurements(s);
    SortedMeasurements(t);
    CountedParts(Sort(s), Sort(t), a, b);
    SortOrderIndependent(s, t);
  }

  lemma CountedPermutes(s: seq<Bytes>, t: seq<Bytes>)
    requires Measurements(s) && Measurements(t) && multiset(s) == multiset(t)
    ensures Counted(s) == Counted(t) && |s| == |t|
  {
    SortOrderIndependent(s, t);
    assert |s| == |multiset(s)| == |t|;
  }

  lemma PolicyBodyInjective(s: seq<Bytes>, e: seq<Bytes>, v: U16, s': seq<Bytes>, e': seq<Bytes>, v': U16)
    requires Measurements(s) && Measurements(e) && Measurements(s') && Measurements(e')
    requires |s| < 0x1_0000 && |e| < 0x1_0000 && |s'| < 0x1_0000 && |e'| < 0x1_0000
    requires PolicyBody(s, e, v) == PolicyBody(s', e', v')
    ensures multiset(s) == multiset(s') && multiset(e) == multiset(e') && v == v'
  {
    PowersOf256();
    CountedPrefix(s, s', Counted(e) + BigEndian(v, 2), Counted(e') + BigEndian(v', 2));
    CountedPrefix(e, e', BigEndian(v, 2), BigEndian(v', 2));
    BigEndianInverts(v, 2);
    BigEndianInverts(v', 2);
  }

  /** Two policies have the same preimage exactly when both allowlists agree as multisets and the SVN floors agree. */
  lemma PolicyPreimageIsCanonical(s: seq<Bytes>, e: seq<Bytes>, v: int, s': seq<Bytes>, e': seq<Bytes>, v': int)
    requires Measurements(s) && Measurements(e) && Measurements(s') && Measurements(e')
    requires PolicyPreimage(s, e, v).Some?
    ensures PolicyPreimage(s, e, v) == PolicyPreimage(s', e', v') <==>
            multiset(s) == multiset(s') && multiset(e) == multiset(e') && v == v'
  {
    if multiset(s) == multiset(s') && multiset(e) == multiset(e') && v == v' {
      CountedPermutes(s, s');
      CountedPermutes(e, e');
    } else if PolicyPreimage(s, e, v) == PolicyPreimage(s', e', v') {
      var k := |Ascii("outbe/tee/policy/v1")|;
      assert PolicyPreimage(s, e, v).value[k..] == PolicyBody(s, e, v);
      assert PolicyPreimage(s', e', v').value[k..] == PolicyBody(s', e', v');
      PolicyBodyInjective(s, e, v, s', e', v');
    }
  }
}
