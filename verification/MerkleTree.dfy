/** The shielded gratis pool's padded Merkle tree, shared by the client's proof builder and the chain. */
module MerkleTree {

  const MODULUS: nat := 21888242871839275222246405745257275088548364400416034343698204186575808495617
  const TAG_MERKLE_GRATIS: nat := 0x6e0003
  const MERKLE_DEPTH: nat := 20

  type Field = n: int | 0 <= n < MODULUS

  /** The Poseidon hash, on field elements. Its body is foreign. */
  type Poseidon = seq<Field> -> Field

  /** What an inner node hashes: the tag is folded into the left input, and both are reduced. */
  function NodeInputs(left: nat, right: nat): (r: seq<Field>) {
    [(TAG_MERKLE_GRATIS + left) % MODULUS, right % MODULUS]
  }

  function MerkleNode(poseidon: Poseidon, left: nat, right: nat): (r: nat) {
    poseidon(NodeInputs(left, right))
  }

  /** Empty subtree of a given height: a different hash than an inner node. */
  function MerkleZero(poseidon: Poseidon, level: nat): (r: Field) {
    if level == 0 then 0
    else poseidon([TAG_MERKLE_GRATIS, MerkleZero(poseidon, level - 1), MerkleZero(poseidon, level - 1)])
  }

  /** How a tree hashes its inner nodes and its empty subtrees, and its height. */
  datatype Scheme = Scheme(node: (nat, nat) -> nat, zero: nat -> nat, depth: nat)

  function GratisScheme(poseidon: Poseidon): (r: Scheme) {
    Scheme((left, right) => MerkleNode(poseidon, left, right), level => MerkleZero(poseidon, level), MERKLE_DEPTH)
  }

  // ----- Positions -----

  /** `i << k`: the first leaf under node `i` of level `k`. */
  function Shl(i: nat, k: nat): (r: nat)
    decreases k
  {
    if k == 0 then i else Shl(2 * i, k - 1)
  }

  /** `i >> k`: the node of level `k` above leaf `i`. */
  function Shr(i: nat, k: nat): (r: nat) {
    if k == 0 then i else Shr(i, k - 1) / 2
  }

  lemma {:induction false} ShlMonotone(i: nat, j: nat, k: nat)
    requires i <= j
    ensures Shl(i, k) <= Shl(j, k)
    ensures i < j ==> Shl(i, k) < Shl(j, k)
    decreases k
  {
    if k > 0 { ShlMonotone(2 * i, 2 * j, k - 1); }
  }

  lemma {:induction false} ShrBounds(i: nat, k: nat)
    ensures Shl(Shr(i, k), k) <= i < Shl(Shr(i, k) + 1, k)
  {
    if k > 0 {
      ShrBounds(i, k - 1);
      var s := Shr(i, k - 1);
      var q := Shr(i, k);
      ShlMonotone(2 * q, s, k - 1);
      ShlMonotone(s + 1, 2 * q + 2, k - 1);
    }
  }

  lemma ShrVanishes(i: nat, k: nat)
    requires i < Shl(1, k)
    ensures Shr(i, k) == 0
  {
    ShrBounds(i, k);
    if Shr(i, k) > 0 { ShlMonotone(1, Shr(i, k), k); }
  }

  lemma {:induction false} ShrSuccessor(i: nat, k: nat)
    ensures Shr(i + 1, k) == Shr(i, k) || Shr(i + 1, k) == Shr(i, k) + 1
  {
    if k > 0 { ShrSuccessor(i, k - 1); }
  }

  // ----- The padded tree, by recursion from the root -----

  /** Node `i` of level `k` of the tree over `leaves`, padded on the right with empty subtrees. */
  function Node(h: Scheme, leaves: seq<nat>, k: nat, i: nat): (r: nat)
    decreases k
  {
    if Shl(i, k) >= |leaves| then h.zero(k)
    else if k == 0 then leaves[i]
    else h.node(Node(h, leaves, k - 1, 2 * i), Node(h, leaves, k - 1, 2 * i + 1))
  }

  function Root(h: Scheme, leaves: seq<nat>): (r: nat) {
    Node(h, leaves, h.depth, 0)
  }

  /** A node whose leaves are all present does not change when the list grows. */
  lemma {:induction false} NodeStable(h: Scheme, leaves: seq<nat>, more: seq<nat>, k: nat, i: nat)
    requires Shl(i + 1, k) <= |leaves|
    ensures Node(h, leaves + more, k, i) == Node(h, leaves, k, i)
    decreases k
  {
    ShlMonotone(i, i + 1, k);
    if k > 0 {
      ShlMonotone(2 * i + 1, 2 * i + 2, k - 1);
      NodeStable(h, leaves, more, k - 1, 2 * i);
      NodeStable(h, leaves, more, k - 1, 2 * i + 1);
    }
  }

  // ----- Paths -----

  function Combine(h: Scheme, current: nat, sibling: nat, index: nat): (r: nat) {
    if index % 2 == 1 then h.node(sibling, current) else h.node(current, sibling)
  }

  /** What a verifier computes: fold the leaf with the siblings along the index bits, from the leaf up. */
  function Fold(h: Scheme, leaf: nat, siblings: seq<nat>, index: nat): (r: nat) {
    if siblings == [] then leaf
    else
      var k := |siblings| - 1;
      Combine(h, Fold(h, leaf, siblings[..k], index), siblings[k], Shr(index, k))
  }

  lemma FoldStep(h: Scheme, leaf: nat, siblings: seq<nat>, index: nat, sibling: nat)
    ensures Fold(h, leaf, siblings + [sibling], index)
              == Combine(h, Fold(h, leaf, siblings, index), sibling, Shr(index, |siblings|))
  {
    assert (siblings + [sibling])[..|siblings|] == siblings;
  }

  /** The pair hashed at level `k` of a path. */
  function Pair(h: Scheme, leaf: nat, siblings: seq<nat>, index: nat, k: nat): (r: (nat, nat))
    requires k < |siblings|
  {
    var below := Fold(h, leaf, siblings[..k], index);
    if Shr(index, k) % 2 == 1 then (siblings[k], below) else (below, siblings[k])
  }

  /** Two different pairs with the same node hash. */
  predicate Collision(h: Scheme, a: (nat, nat), b: (nat, nat)) {
    a != b && h.node(a.0, a.1) == h.node(b.0, b.1)
  }

  // ----- Canonical values and hash collisions -----

  /** Two different inputs with one Poseidon value. */
  predicate HashCollision(poseidon: Poseidon, a: seq<Field>, b: seq<Field>) {
    a != b && poseidon(a) == poseidon(b)
  }

  predicate Canonical(s: seq<nat>) {
    forall i :: 0 <= i < |s| ==> s[i] < MODULUS
  }

  /** On field elements, reducing loses nothing. */
  lemma NodeInputsDiffer(a: (nat, nat), b: (nat, nat))
    requires a.0 < MODULUS && a.1 < MODULUS && b.0 < MODULUS && b.1 < MODULUS && a != b
    ensures NodeInputs(a.0, a.1) != NodeInputs(b.0, b.1)
  {
    assert NodeInputs(a.0, a.1)[1] == a.1 && NodeInputs(b.0, b.1)[1] == b.1;
    if a.0 != b.0 { TagDiffers(a.0, b.0); }
  }

  lemma TagDiffers(x: nat, y: nat)
    requires x < MODULUS && y < MODULUS && x != y
    ensures (TAG_MERKLE_GRATIS + x) % MODULUS != (TAG_MERKLE_GRATIS + y) % MODULUS
  {}

  /** A node collision between canonical pairs is a collision of the hash itself. */
  lemma CollisionIsHashCollision(poseidon: Poseidon, a: (nat, nat), b: (nat, nat))
    requires a.0 < MODULUS && a.1 < MODULUS && b.0 < MODULUS && b.1 < MODULUS
    requires Collision(GratisScheme(poseidon), a, b)
    ensures HashCollision(poseidon, NodeInputs(a.0, a.1), NodeInputs(b.0, b.1))
  {
    NodeInputsDiffer(a, b);
  }

  lemma NodeCanonical(poseidon: Poseidon, leaves: seq<nat>, k: nat, i: nat)
    requires Canonical(leaves)
    ensures Node(GratisScheme(poseidon), leaves, k, i) < MODULUS
  {
    var h := GratisScheme(poseidon);
    if Shl(i, k) < |leaves| && k == 0 { assert leaves[i] < MODULUS; }
  }

  lemma FoldCanonical(poseidon: Poseidon, leaf: nat, siblings: seq<nat>, index: nat)
    requires leaf < MODULUS
    ensures Fold(GratisScheme(poseidon), leaf, siblings, index) < MODULUS
  {}

  // ----- Binding -----

  /** The left spines below two nodes of one value start from equal leaves, or hold a node collision. */
  lemma {:induction false} SpinesBind(h: Scheme, leaves: seq<nat>, k: nat, i: nat, j: nat) returns (m: nat)
    requires Shl(i, k) < |leaves| && Shl(j, k) < |leaves|
    requires Node(h, leaves, k, i) == Node(h, leaves, k, j) && leaves[Shl(i, k)] != leaves[Shl(j, k)]
    ensures 1 <= m <= k
    ensures Collision(h, Children(h, leaves, m, Shl(i, k - m)), Children(h, leaves, m, Shl(j, k - m)))
    decreases k
  {
    if Children(h, leaves, k, i) != Children(h, leaves, k, j) {
      m := k;
    } else {
      m := SpinesBind(h, leaves, k - 1, 2 * i, 2 * j);
    }
  }

  /** The pair node `i` of level `k` hashes. */
  function Children(h: Scheme, leaves: seq<nat>, k: nat, i: nat): (r: (nat, nat))
    requires k > 0
  {
    (Node(h, leaves, k - 1, 2 * i), Node(h, leaves, k - 1, 2 * i + 1))
  }

  /** Two openings of one root at one index are the same opening, or the two paths themselves hold a node collision. */
  lemma {:induction false} OpeningsBind(h: Scheme, leaf: nat, siblings: seq<nat>, leaf': nat, siblings': seq<nat>,
                                        index: nat)
    returns (k: nat)
    requires |siblings| == |siblings'|
    requires Fold(h, leaf, siblings, index) == Fold(h, leaf', siblings', index)
    ensures leaf != leaf' || siblings != siblings' ==>
              && k < |siblings|
              && Collision(h, Pair(h, leaf, siblings, index, k), Pair(h, leaf', siblings', index, k))
    decreases |siblings|
  {
    k := 0;
    if siblings != [] {
      var m := |siblings| - 1;
      if Pair(h, leaf, siblings, index, m) != Pair(h, leaf', siblings', index, m) {
        k := m;
      } else {
        k := OpeningsBind(h, leaf, siblings[..m], leaf', siblings'[..m], index);
        assert siblings == siblings[..m] + [siblings[m]] && siblings' == siblings'[..m] + [siblings'[m]];
        if leaf != leaf' || siblings != siblings' {
          assert siblings[..m][..k] == siblings[..k] && siblings'[..m][..k] == siblings'[..k];
        }
      }
    }
  }
}
