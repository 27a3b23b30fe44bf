/** The client's Merkle proof builder. */
module MerkleProof {
  import opened Base
  import opened MerkleTree

  method MerkleZeros(poseidon: Poseidon) returns (zeros: seq<Field>)
    ensures |zeros| == MERKLE_DEPTH + 1
    ensures forall i :: 0 <= i <= MERKLE_DEPTH ==> zeros[i] == MerkleZero(poseidon, i)
  {
    zeros := [0];
    for i := 0 to MERKLE_DEPTH
      invariant |zeros| == i + 1
      invariant forall k :: 0 <= k <= i ==> zeros[k] == MerkleZero(poseidon, k)
    {
      zeros := zeros + [poseidon([TAG_MERKLE_GRATIS, zeros[i], zeros[i]])];
    }
  }

  // ----- Levels, as the builder computes them -----

  /** An element of a level, or the empty subtree past its end. */
  function Get(level: seq<nat>, i: nat, zero: nat): (r: nat) {
    if i < |level| then level[i] else zero
  }

  function NextLevel(h: Scheme, current: seq<nat>, zero: nat): (next: seq<nat>)
    ensures |next| == (|current| + 1) / 2
  {
    if current == [] then []
    else if |current| == 1 then [h.node(current[0], zero)]
    else [h.node(current[0], current[1])] + NextLevel(h, current[2..], zero)
  }

  function Level(h: Scheme, leaves: seq<nat>, k: nat): (r: seq<nat>) {
    if k == 0 then leaves else NextLevel(h, Level(h, leaves, k - 1), h.zero(k - 1))
  }

  lemma {:induction false} NextLevelAt(h: Scheme, current: seq<nat>, zero: nat, i: nat)
    requires 2 * i < |current|
    ensures NextLevel(h, current, zero)[i] == h.node(current[2 * i], Get(current, 2 * i + 1, zero))
  {
    if i > 0 { NextLevelAt(h, current[2..], zero, i - 1); }
  }

  /** The level-by-level computation agrees with the recursive padded tree, node by node. */
  lemma {:induction false} LevelIsTree(h: Scheme, leaves: seq<nat>, k: nat, i: nat)
    ensures Get(Level(h, leaves, k), i, h.zero(k)) == Node(h, leaves, k, i)
    ensures i < |Level(h, leaves, k)| <==> Shl(i, k) < |leaves|
    decreases k
  {
    if k > 0 {
      LevelIsTree(h, leaves, k - 1, 2 * i);
      LevelIsTree(h, leaves, k - 1, 2 * i + 1);
      if 2 * i < |Level(h, leaves, k - 1)| {
        NextLevelAt(h, Level(h, leaves, k - 1), h.zero(k - 1), i);
      }
    }
  }

  // ----- The builder -----

  datatype Proof = Proof(siblings: seq<nat>, root: nat, index: nat)

  /** One pass over a level, two nodes at a time. */
  method PairUp(h: Scheme, current: seq<nat>, zero: nat) returns (next: seq<nat>)
    ensures next == NextLevel(h, current, zero)
  {
    next := [];
    var i := 0;
    while i < |current|
      invariant 0 <= i <= |current| + 1
      invariant next + NextLevel(h, current[Min(i, |current|)..], zero) == NextLevel(h, current, zero)
    {
      next := next + [h.node(current[i], Get(current, i + 1, zero))];
      i := i + 2;
    }
  }

  function Min(a: nat, b: nat): nat {
    if a < b then a else b
  }

  /** A node of the top level. */
  function Top(h: Scheme, leaves: seq<nat>, i: nat): (r: nat) {
    Get(Level(h, leaves, h.depth), i, h.zero(h.depth))
  }

  /** The other child of a node's parent. */
  function Sibling(i: nat): (r: nat) {
    if i % 2 == 1 then i - 1 else i + 1
  }

  /** The siblings are the tree's nodes beside the path from a leaf. */
  ghost predicate BesidePath(h: Scheme, commitments: seq<nat>, index: nat, siblings: seq<nat>) {
    forall k :: 0 <= k < |siblings| ==> siblings[k] == Node(h, commitments, k, Sibling(Shr(index, k)))
  }

  /** The siblings are the tree's nodes beside the path, folding them reproduces the top node above the leaf, and the
      root is the first node of the top level. */
  ghost predicate BuiltFor(h: Scheme, commitments: seq<nat>, index: nat, p: Proof) {
    && index < |commitments|
    && p.index == index
    && |p.siblings| == h.depth
    && BesidePath(h, commitments, index, p.siblings)
    && p.root == Top(h, commitments, 0)
    && Fold(h, commitments[index], p.siblings, index) == Top(h, commitments, Shr(index, h.depth))
  }

  method BuildMerkleProof(poseidon: Poseidon, commitments: seq<nat>, leafIndex: int) returns (r: Option<Proof>)
    ensures r.Some? <==> 0 <= leafIndex < |commitments|
    ensures r.Some? ==> BuiltFor(GratisScheme(poseidon), commitments, leafIndex, r.value)
  {
    if leafIndex < 0 || leafIndex >= |commitments| {
      return None;
    }
    var h := GratisScheme(poseidon);
    var zeros := MerkleZeros(poseidon);
    assert forall i :: 0 <= i <= h.depth ==> zeros[i] == h.zero(i);
    var p := Climb(h, zeros, commitments, leafIndex);
    return Some(p);
  }

  lemma BesideStep(h: Scheme, commitments: seq<nat>, index: nat, siblings: seq<nat>)
    requires BesidePath(h, commitments, index, siblings)
    ensures var k := |siblings|;
            BesidePath(h, commitments, index,
                       siblings + [Get(Level(h, commitments, k), Sibling(Shr(index, k)), h.zero(k))])
  {
    LevelIsTree(h, commitments, |siblings|, Sibling(Shr(index, |siblings|)));
  }

  /** Folding in a node's sibling gives its parent in the next level. */
  lemma FoldLevel(h: Scheme, leaf: nat, siblings: seq<nat>, index: nat, current: seq<nat>, zero: nat)
    requires Shr(index, |siblings|) < |current| && Fold(h, leaf, siblings, index) == current[Shr(index, |siblings|)]
    ensures var i := Shr(index, |siblings|);
            && i / 2 < |NextLevel(h, current, zero)|
            && Fold(h, leaf, siblings + [Get(current, Sibling(i), zero)], index) == NextLevel(h, current, zero)[i / 2]
  {
    var i := Shr(index, |siblings|);
    FoldStep(h, leaf, siblings, index, Get(current, Sibling(i), zero));
    NextLevelAt(h, current, zero, i / 2);
  }

  /** The state of the level loop: where the path is, and that it folds to there. */
  ghost predicate Climbed(h: Scheme, commitments: seq<nat>, index: nat, siblings: seq<nat>, current: seq<nat>,
                          idx: nat)
  {
    && index < |commitments|
    && current == Level(h, commitments, |siblings|)
    && idx == Shr(index, |siblings|) && idx < |current|
    && BesidePath(h, commitments, index, siblings)
    && Fold(h, commitments[index], siblings, index) == current[idx]
  }

  lemma ClimbStep(h: Scheme, commitments: seq<nat>, index: nat, siblings: seq<nat>, current: seq<nat>, idx: nat)
    requires Climbed(h, commitments, index, siblings, current, idx)
    ensures var zero := h.zero(|siblings|);
            Climbed(h, commitments, index, siblings + [Get(current, Sibling(idx), zero)],
                    NextLevel(h, current, zero), idx / 2)
  {
    BesideStep(h, commitments, index, siblings);
    FoldLevel(h, commitments[index], siblings, index, current, h.zero(|siblings|));
  }

  /** The level loop of the builder. */
  method Climb(h: Scheme, zeros: seq<nat>, commitments: seq<nat>, leafIndex: nat) returns (p: Proof)
    requires leafIndex < |commitments|
    requires |zeros| == h.depth + 1
    requires forall i :: 0 <= i <= h.depth ==> zeros[i] == h.zero(i)
    ensures BuiltFor(h, commitments, leafIndex, p)
  {
    var current := commitments;
    var siblings: seq<nat> := [];
    var idx: nat := leafIndex;
    for level := 0 to h.depth
      invariant |siblings| == level && Climbed(h, commitments, leafIndex, siblings, current, idx)
    {
      var siblingIdx := if idx % 2 == 1 then idx - 1 else idx + 1;
      var sibling := Get(current, siblingIdx, zeros[level]);
      ClimbStep(h, commitments, leafIndex, siblings, current, idx);
      siblings := siblings + [sibling];
      current := PairUp(h, current, zeros[level]);
      idx := idx / 2;
    }
    p := Proof(siblings, current[0], leafIndex);
  }

  /** The root is the recursive padded tree's, whichever leaf was asked for, and the returned proof folds to it exactly
      when the top node above the leaf is the root: always for a leaf the tree can hold. */
  lemma BuiltProofVerifies(h: Scheme, commitments: seq<nat>, index: nat, p: Proof)
    requires BuiltFor(h, commitments, index, p)
    ensures p.root == Root(h, commitments)
    ensures Fold(h, commitments[index], p.siblings, index) == p.root <==>
              Node(h, commitments, h.depth, Shr(index, h.depth)) == Root(h, commitments)
    ensures index < Shl(1, h.depth) ==> Fold(h, commitments[index], p.siblings, index) == p.root
  {
    LevelIsTree(h, commitments, h.depth, 0);
    LevelIsTree(h, commitments, h.depth, Shr(index, h.depth));
    if index < Shl(1, h.depth) { ShrVanishes(index, h.depth); }
  }

  /** A leaf past the tree's capacity gets a proof too. Over distinct commitments it does not fold to the root, unless
      the left spines of the first tree and of the leaf's own hold a collision of the hash. */
  lemma PastCapacityFails(poseidon: Poseidon, commitments: seq<nat>, index: nat, p: Proof) returns (m: nat, j: nat)
    requires BuiltFor(GratisScheme(poseidon), commitments, index, p) && index >= Shl(1, MERKLE_DEPTH)
    requires Canonical(commitments)
    requires forall i, k :: 0 <= i < k < |commitments| ==> commitments[i] != commitments[k]
    ensures var h := GratisScheme(poseidon);
            Fold(h, commitments[index], p.siblings, index) == p.root ==>
            && 1 <= m <= MERKLE_DEPTH
            && var a, b := Children(h, commitments, m, 0), Children(h, commitments, m, j);
               HashCollision(poseidon, NodeInputs(a.0, a.1), NodeInputs(b.0, b.1))
  {
    m, j := 1, 0;
    var h := GratisScheme(poseidon);
    BuiltProofVerifies(h, commitments, index, p);
    if Fold(h, commitments[index], p.siblings, index) == p.root {
      m, j := TopsBind(h, commitments, index);
      ChildrenCanonical(poseidon, commitments, m, 0);
      ChildrenCanonical(poseidon, commitments, m, j);
      CollisionIsHashCollision(poseidon, Children(h, commitments, m, 0), Children(h, commitments, m, j));
    }
  }

  lemma ChildrenCanonical(poseidon: Poseidon, leaves: seq<nat>, k: nat, i: nat)
    requires Canonical(leaves) && k > 0
    ensures var c := Children(GratisScheme(poseidon), leaves, k, i); c.0 < MODULUS && c.1 < MODULUS
  {
    NodeCanonical(poseidon, leaves, k - 1, 2 * i);
    NodeCanonical(poseidon, leaves, k - 1, 2 * i + 1);
  }

  /** If the top node above a leaf past the capacity equals the root, the two left spines hold a node collision. */
  lemma TopsBind(h: Scheme, leaves: seq<nat>, index: nat) returns (m: nat, j: nat)
    requires Shl(1, h.depth) <= index < |leaves|
    requires Node(h, leaves, h.depth, Shr(index, h.depth)) == Root(h, leaves)
    requires forall i, k :: 0 <= i < k < |leaves| ==> leaves[i] != leaves[k]
    ensures 1 <= m <= h.depth && Collision(h, Children(h, leaves, m, 0), Children(h, leaves, m, j))
  {
    var top := Shr(index, h.depth);
    ShrBounds(index, h.depth);
    ShlZero(h.depth);
    ShlMonotone(0, top, h.depth);
    m := SpinesBind(h, leaves, h.depth, 0, top);
    ShlZero(h.depth - m);
    j := Shl(top, h.depth - m);
  }

  lemma {:induction false} ShlZero(k: nat)
    ensures Shl(0, k) == 0
  {
    if k > 0 { ShlZero(k - 1); }
  }

  /** Whatever canonical leaf and path fold to a built root at its index are the real ones, or the two paths hold a
      collision of the hash. */
  lemma BuiltRootBinds(poseidon: Poseidon, commitments: seq<nat>, p: Proof, leaf: nat, siblings: seq<nat>)
    returns (k: nat)
    requires BuiltFor(GratisScheme(poseidon), commitments, p.index, p) && p.index < Shl(1, MERKLE_DEPTH)
    requires Canonical(commitments) && leaf < MODULUS && Canonical(siblings)
    requires |siblings| == MERKLE_DEPTH && Fold(GratisScheme(poseidon), leaf, siblings, p.index) == p.root
    ensures var h := GratisScheme(poseidon);
            || (leaf == commitments[p.index] && siblings == p.siblings)
            || (&& k < MERKLE_DEPTH
                && var a := Pair(h, commitments[p.index], p.siblings, p.index, k);
                   var b := Pair(h, leaf, siblings, p.index, k);
                   HashCollision(poseidon, NodeInputs(a.0, a.1), NodeInputs(b.0, b.1)))
  {
    var h := GratisScheme(poseidon);
    BuiltProofVerifies(h, commitments, p.index, p);
    k := OpeningsBind(h, commitments[p.index], p.siblings, leaf, siblings, p.index);
    if leaf != commitments[p.index] || siblings != p.siblings {
      SiblingsCanonical(poseidon, commitments, p);
      PairCanonical(poseidon, commitments[p.index], p.siblings, p.index, k);
      PairCanonical(poseidon, leaf, siblings, p.index, k);
      CollisionIsHashCollision(poseidon, Pair(h, commitments[p.index], p.siblings, p.index, k),
                               Pair(h, leaf, siblings, p.index, k));
    }
  }

  lemma SiblingsCanonical(poseidon: Poseidon, commitments: seq<nat>, p: Proof)
    requires BuiltFor(GratisScheme(poseidon), commitments, p.index, p) && Canonical(commitments)
    ensures Canonical(p.siblings)
  {
    forall k | 0 <= k < |p.siblings| ensures p.siblings[k] < MODULUS {
      NodeCanonical(poseidon, commitments, k, Sibling(Shr(p.index, k)));
    }
  }

  lemma PairCanonical(poseidon: Poseidon, leaf: nat, siblings: seq<nat>, index: nat, k: nat)
    requires leaf < MODULUS && Canonical(siblings) && k < |siblings|
    ensures var c := Pair(GratisScheme(poseidon), leaf, siblings, index, k); c.0 < MODULUS && c.1 < MODULUS
  {
    FoldCanonical(poseidon, leaf, siblings[..k], index);
  }
}
