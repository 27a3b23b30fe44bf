/** The Keccak-f permutation as maps on a five-by-five array of lanes, after section 3.2 of FIPS 202, and the in-place
    program proved equal to them. */
module Keccak {

  /** What the permutation does with single lanes: exclusive or, left rotation, and a complement `and`. */
  datatype LaneOps<!L> = LaneOps(xor: (L, L) -> L, rotl: (L, nat) -> L, notAnd: (L, L) -> L)

  /** A column or row number. */
  type Five = n: int | 0 <= n < 5

  function Index(x: Five, y: Five): (i: nat)
    ensures i < 25 && i % 5 == x && i / 5 == y
  {
    x + 5 * y
  }

  function Lane<L>(a: seq<L>, x: Five, y: Five): (r: L)
    requires |a| == 25
  {
    a[Index(x, y)]
  }

  /** The array whose lane at column `x`, row `y` is `f(x, y)`. */
  function Build<L>(f: (Five, Five) -> L): (r: seq<L>)
    ensures |r| == 25
    ensures forall i :: 0 <= i < 25 ==> r[i] == f(i % 5, i / 5)
  {
    seq(25, i requires 0 <= i < 25 => f(i % 5, i / 5))
  }

  const ROTATION_OFFSETS: seq<seq<nat>> :=
    [[0, 36, 3, 41, 18],
     [1, 44, 10, 45, 2],
     [62, 6, 43, 15, 61],
     [28, 55, 25, 21, 56],
     [27, 20, 39, 8, 14]]

  // ----- The step mappings -----

  function Parity<L>(o: LaneOps<L>, a: seq<L>, x: Five): (r: L)
    requires |a| == 25
  {
    o.xor(o.xor(o.xor(o.xor(Lane(a, x, 0), Lane(a, x, 1)), Lane(a, x, 2)), Lane(a, x, 3)), Lane(a, x, 4))
  }

  function Effect<L>(o: LaneOps<L>, a: seq<L>, x: Five): (r: L)
    requires |a| == 25
  {
    o.xor(Parity(o, a, (x - 1) % 5), o.rotl(Parity(o, a, (x + 1) % 5), 1))
  }

  function Theta<L>(o: LaneOps<L>, a: seq<L>): (r: seq<L>)
    requires |a| == 25
    ensures |r| == 25
  {
    Build((x: Five, y: Five) => o.xor(Lane(a, x, y), Effect(o, a, x)))
  }

  function Rho<L>(o: LaneOps<L>, a: seq<L>): (r: seq<L>)
    requires |a| == 25
    ensures |r| == 25
  {
    Build((x: Five, y: Five) => o.rotl(Lane(a, x, y), ROTATION_OFFSETS[x][y]))
  }

  function Pi<L>(a: seq<L>): (r: seq<L>)
    requires |a| == 25
    ensures |r| == 25
  {
    Build((x: Five, y: Five) => Lane(a, (x + 3 * y) % 5, x))
  }

  function ChiLane<L>(o: LaneOps<L>, a: seq<L>, x: Five, y: Five): (r: L)
    requires |a| == 25
  {
    o.xor(Lane(a, x, y), o.notAnd(Lane(a, (x + 1) % 5, y), Lane(a, (x + 2) % 5, y)))
  }

  function Chi<L>(o: LaneOps<L>, a: seq<L>): (r: seq<L>)
    requires |a| == 25
    ensures |r| == 25
  {
    Build((x: Five, y: Five) => ChiLane(o, a, x, y))
  }

  function Iota<L>(o: LaneOps<L>, a: seq<L>, rc: L): (r: seq<L>)
    requires |a| == 25
    ensures |r| == 25
  {
    a[0 := o.xor(a[0], rc)]
  }

  function Round<L>(o: LaneOps<L>, a: seq<L>, rc: L): (r: seq<L>)
    requires |a| == 25
    ensures |r| == 25
  {
    Iota(o, Chi(o, Pi(Rho(o, Theta(o, a)))), rc)
  }

  /** One round per constant, in order. */
  function Rounds<L>(o: LaneOps<L>, a: seq<L>, constants: seq<L>): (r: seq<L>)
    requires |a| == 25
    ensures |r| == 25
  {
    if constants == [] then a
    else
      var n := |constants| - 1;
      Round(o, Rounds(o, a, constants[..n]), constants[n])
  }

  // ----- The in-place permutation -----

  method Effects<L(0)>(o: LaneOps<L>, state: array<L>) returns (d: array<L>)
    requires state.Length == 25
    ensures fresh(d) && d.Length == 5 && forall x: Five :: d[x] == Effect(o, state[..], x)
  {
    var c := new L[5];
    for x := 0 to 5
      invariant forall i: Five :: i < x ==> c[i] == Parity(o, state[..], i)
    {
      c[x] := o.xor(o.xor(o.xor(o.xor(state[x], state[x + 5]), state[x + 10]), state[x + 15]), state[x + 20]);
    }
    d := new L[5];
    for x := 0 to 5
      invariant forall i: Five :: c[i] == Parity(o, state[..], i)
      invariant forall i: Five :: i < x ==> d[i] == Effect(o, state[..], i)
    {
      d[x] := o.xor(c[(x - 1) % 5], o.rotl(c[(x + 1) % 5], 1));
    }
  }

  /** The row loop of theta. */
  method XorRows<L(0)>(o: LaneOps<L>, state: array<L>, d: array<L>)
    requires state.Length == 25 && d.Length == 5 && state != d
    modifies state
    ensures forall i :: 0 <= i < 25 ==> state[i] == o.xor(old(state[i]), d[i % 5])
  {
    for y := 0 to 5
      invariant forall i :: 0 <= i < 25 ==>
                  state[i] == if i < 5 * y then o.xor(old(state[i]), d[i % 5]) else old(state[i])
    {
      for x := 0 to 5
        invariant forall i :: 0 <= i < 25 ==>
          state[i] == if i < 5 * y + x then o.xor(old(state[i]), d[i % 5]) else old(state[i])
      {
        assert (x + 5 * y) % 5 == x;
        state[x + 5 * y] := o.xor(state[x + 5 * y], d[x]);
      }
    }
  }

  lemma ThetaAt<L>(o: LaneOps<L>, a: seq<L>, i: nat)
    requires |a| == 25 && i < 25
    ensures Theta(o, a)[i] == o.xor(a[i], Effect(o, a, i % 5))
  {
    assert Index(i % 5, i / 5) == i;
    assert Lane(a, i % 5, i / 5) == a[i];
  }

  method ThetaInPlace<L(0)>(o: LaneOps<L>, state: array<L>)
    requires state.Length == 25
    modifies state
    ensures state[..] == Theta(o, old(state[..]))
  {
    ghost var a := state[..];
    var d := Effects(o, state);
    XorRows(o, state, d);
    forall i | 0 <= i < 25 ensures state[i] == Theta(o, a)[i] { ThetaAt(o, a, i); }
  }

  /** Where the transposition reads the lane it puts at column `v`, row `w`. */
  lemma PiSource<L>(o: LaneOps<L>, a: seq<L>, v: Five, w: Five)
    requires |a| == 25
    ensures var u := (v + 3 * w) % 5;
            && (2 * u + 3 * v) % 5 == w
            && Pi(Rho(o, a))[Index(v, w)] == o.rotl(Lane(a, u, v), ROTATION_OFFSETS[u][v])
  {
    var u: Five := (v + 3 * w) % 5;
    Retangle(v, w);
    assert Index(u, v) % 5 == u && Index(u, v) / 5 == v;
    assert Rho(o, a)[Index(u, v)] == o.rotl(Lane(a, u, v), ROTATION_OFFSETS[u][v]);
  }

  lemma Retangle(v: Five, w: Five)
    ensures (2 * ((v + 3 * w) % 5) + 3 * v) % 5 == w
  {
    var u, k := (v + 3 * w) % 5, (v + 3 * w) / 5;
    assert 2 * u + 3 * v == w + 5 * (v + w - 2 * k);
  }

  lemma Untangle(x: Five, y: Five)
    ensures (y + 3 * ((2 * x + 3 * y) % 5)) % 5 == x
  {
    var w, k := (2 * x + 3 * y) % 5, (2 * x + 3 * y) / 5;
    assert y + 3 * w == x + 5 * (x + 2 * y - 3 * k);
  }

  /** Lane `(x, y)`, rotated, is in its place in `b`. */
  ghost predicate Placed<L>(o: LaneOps<L>, a: seq<L>, b: seq<L>, x: Five, y: Five)
    requires |a| == |b| == 25
  {
    Lane(b, y, (2 * x + 3 * y) % 5) == o.rotl(Lane(a, x, y), ROTATION_OFFSETS[x][y])
  }

  /** Writing one lane's place leaves the places of all others alone. */
  lemma PlaceOne<L>(o: LaneOps<L>, a: seq<L>, b: seq<L>, x: Five, y: Five, v: L)
    requires |a| == |b| == 25 && v == o.rotl(Lane(a, x, y), ROTATION_OFFSETS[x][y])
    ensures Placed(o, a, b[Index(y, (2 * x + 3 * y) % 5) := v], x, y)
    ensures forall u: Five, w: Five :: (u != x || w != y) && Placed(o, a, b, u, w) ==>
              Placed(o, a, b[Index(y, (2 * x + 3 * y) % 5) := v], u, w)
  {
    forall u: Five, w: Five | u != x || w != y ensures Index(w, (2 * u + 3 * w) % 5) != Index(y, (2 * x + 3 * y) % 5) {
      if w == y { Untangle(x, y); Untangle(u, w); }
    }
  }

  /** Rotation and transposition into a second array: lane `(x, y)` lands at column `y`, row `2x + 3y`. */
  method RhoPi<L(0)>(o: LaneOps<L>, state: array<L>) returns (b: array<L>)
    requires state.Length == 25
    ensures fresh(b) && b.Length == 25 && b[..] == Pi(Rho(o, state[..]))
  {
    ghost var a := state[..];
    b := new L[25];
    for y := 0 to 5
      invariant forall u: Five, w: Five :: w < y ==> Placed(o, a, b[..], u, w)
    {
      for x := 0 to 5
        invariant forall u: Five, w: Five :: w < y || (w == y && u < x) ==> Placed(o, a, b[..], u, w)
      {
        var v := o.rotl(state[x + 5 * y], ROTATION_OFFSETS[x][y]);
        ghost var before := b[..];
        ghost var after := before[Index(y, (2 * x + 3 * y) % 5) := v];
        PlaceOne(o, a, before, x, y, v);
        forall u: Five, w: Five | w < y || (w == y && u < x + 1) ensures Placed(o, a, after, u, w) {
          if u != x || w != y { assert Placed(o, a, before, u, w); }
        }
        b[y + 5 * ((2 * x + 3 * y) % 5)] := v;
        assert b[..] == after;
      }
    }
    AllPlaced(o, a, b[..]);
  }

  lemma AllPlaced<L>(o: LaneOps<L>, a: seq<L>, b: seq<L>)
    requires |a| == |b| == 25 && forall u: Five, w: Five :: Placed(o, a, b, u, w)
    ensures b == Pi(Rho(o, a))
  {
    forall i | 0 <= i < 25 ensures b[i] == Pi(Rho(o, a))[i] {
      var v, w := i % 5, i / 5;
      assert Index(v, w) == i;
      PiSource(o, a, v, w);
      assert Placed(o, a, b, (v + 3 * w) % 5, v);
    }
  }

  /** Chi reads `b` and overwrites the state. */
  method ChiInPlace<L(0)>(o: LaneOps<L>, state: array<L>, b: array<L>)
    requires state.Length == 25 && b.Length == 25 && state != b
    modifies state
    ensures state[..] == Chi(o, b[..])
  {
    ghost var a := b[..];
    for y := 0 to 5
      invariant b[..] == a
      invariant forall i :: 0 <= i < 5 * y ==> state[i] == ChiLane(o, a, i % 5, i / 5)
    {
      for x := 0 to 5
        invariant b[..] == a
        invariant forall i :: 0 <= i < 5 * y + x ==> state[i] == ChiLane(o, a, i % 5, i / 5)
      {
        state[x + 5 * y] := o.xor(b[x + 5 * y], o.notAnd(b[(x + 1) % 5 + 5 * y], b[(x + 2) % 5 + 5 * y]));
        assert Index(x, y) == x + 5 * y && Index((x + 1) % 5, y) == (x + 1) % 5 + 5 * y;
        assert Index((x + 2) % 5, y) == (x + 2) % 5 + 5 * y;
        assert state[x + 5 * y] == ChiLane(o, a, x, y);
      }
    }
  }

  method PermuteInPlace<L(0)>(o: LaneOps<L>, state: array<L>, constants: seq<L>)
    requires state.Length == 25
    modifies state
    ensures state[..] == Rounds(o, old(state[..]), constants)
  {
    for i := 0 to |constants|
      invariant state[..] == Rounds(o, old(state[..]), constants[..i])
    {
      ThetaInPlace(o, state);
      var b := RhoPi(o, state);
      ChiInPlace(o, state, b);
      state[0] := o.xor(state[0], constants[i]);
      assert constants[..i + 1][..i] == constants[..i];
    }
    assert constants[..|constants|] == constants;
  }
}
