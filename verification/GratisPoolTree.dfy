/** One denomination of the on-chain gratis pool: frontier, leaf count and the ring of recent roots. */
module GratisPoolTree {
  import opened Base
  import opened MerkleTree
  import opened MerkleProof

  const ROOT_WINDOW: nat := 30

  /** `frontier[level]` is the last left node written at that level; `ring[head]` the newest root. */
  datatype Tree = Tree(frontier: seq<nat>, count: nat, ring: seq<nat>, head: nat)

  predicate Shaped(h: Scheme, t: Tree) {
    |t.frontier| == h.depth && |t.ring| == ROOT_WINDOW && t.head < ROOT_WINDOW
  }

  /** Unwritten storage reads back as zero. */
  function Empty(h: Scheme): (t: Tree)
    ensures Shaped(h, t)
  {
    Tree(seq(h.depth, _ => 0), 0, seq(ROOT_WINDOW, _ => 0), 0)
  }

  /** The incremental walk from a level to the root: the new frontier and the value at the top. */
  function Walk(h: Scheme, frontier: seq<nat>, current: nat, index: nat, level: nat): (r: (seq<nat>, nat))
    requires |frontier| == h.depth && level <= h.depth
    ensures |r.0| == h.depth
    decreases h.depth - level
  {
    if level == h.depth then (frontier, current)
    else if index % 2 == 0 then
      Walk(h, frontier[level := current], h.node(current, h.zero(level)), index / 2, level + 1)
    else
      Walk(h, frontier, h.node(frontier[level], current), index / 2, level + 1)
  }

  function PushRoot(h: Scheme, t: Tree, root: nat): (r: Tree)
    requires Shaped(h, t)
    ensures Shaped(h, r)
  {
    var next := (t.head + 1) % ROOT_WINDOW;
    t.(ring := t.ring[next := root], head := next)
  }

  function Append(h: Scheme, t: Tree, commitment: nat): (r: Tree)
    requires Shaped(h, t)
    ensures Shaped(h, r)
  {
    var (frontier, root) := Walk(h, t.frontier, commitment, t.count, 0);
    PushRoot(h, t.(frontier := frontier, count := t.count + 1), root)
  }

  predicate HasRoot(t: Tree, root: nat) {
    root != 0 && root in t.ring
  }

  function CurrentRoot(t: Tree): (r: nat)
    requires t.head < |t.ring|
  {
    t.ring[t.head]
  }

  // ----- What the stored tree means -----

  ghost predicate FrontierOk(h: Scheme, frontier: seq<nat>, leaves: seq<nat>, from: nat)
    requires |frontier| == h.depth
  {
    forall k :: from <= k < h.depth ==> FrontierAt(h, frontier, leaves, k)
  }

  /** Where the next append is a right child, the frontier holds its left sibling. */
  ghost predicate FrontierAt(h: Scheme, frontier: seq<nat>, leaves: seq<nat>, k: nat)
    requires |frontier| == h.depth && k < h.depth
  {
    Shr(|leaves|, k) % 2 == 1 ==> frontier[k] == Node(h, leaves, k, Shr(|leaves|, k) - 1)
  }

  /** The root recorded after `j` appends. */
  ghost function RootAfter(h: Scheme, leaves: seq<nat>, j: nat): (r: nat)
    requires j <= |leaves|
  {
    Root(h, leaves[..j])
  }

  /** Ring slot `s` holds the newest root whose append number is `s` modulo the window, or nothing yet. */
  ghost predicate RingOk(h: Scheme, ring: seq<nat>, leaves: seq<nat>)
    requires |ring| == ROOT_WINDOW
  {
    && (forall j :: 1 <= j <= |leaves| < j + ROOT_WINDOW ==> ring[j % ROOT_WINDOW] == RootAfter(h, leaves, j))
    && (forall s :: 0 <= s < ROOT_WINDOW && (s == 0 || |leaves| < s) && |leaves| < ROOT_WINDOW ==> ring[s] == 0)
  }

  /** The tree is the one that appending exactly `leaves`, in order, produces. */
  ghost predicate Holds(h: Scheme, t: Tree, leaves: seq<nat>) {
    && Shaped(h, t)
    && t.count == |leaves| <= Shl(1, h.depth)
    && t.head == |leaves| % ROOT_WINDOW
    && FrontierOk(h, t.frontier, leaves, 0)
    && RingOk(h, t.ring, leaves)
  }

  lemma EmptyHolds(h: Scheme)
    ensures Holds(h, Empty(h), [])
  {
    forall k | 0 <= k < h.depth ensures FrontierAt(h, Empty(h).frontier, [], k) {
      ShrBounds(0, k);
      if Shr(0, k) > 0 { ShlPositive(Shr(0, k), k); }
    }
  }

  lemma {:induction false} ShlPositive(i: nat, k: nat)
    requires i > 0
    ensures Shl(i, k) > 0
    decreases k
  {
    if k > 0 { ShlPositive(2 * i, k - 1); }
  }

  // ----- The walk computes the padded tree -----

  /** The parent of the walk's current node, for either parity of its index. */
  lemma ParentOfLeft(h: Scheme, leaves: seq<nat>, c: nat, level: nat)
    requires Shr(|leaves|, level) % 2 == 0
    ensures var q := Shr(|leaves|, level);
            Node(h, leaves + [c], level + 1, q / 2) == h.node(Node(h, leaves + [c], level, q), h.zero(level))
  {
    ShrBounds(|leaves|, level);
    ShrBounds(|leaves|, level + 1);
  }

  lemma ParentOfRight(h: Scheme, leaves: seq<nat>, c: nat, level: nat)
    requires Shr(|leaves|, level) % 2 == 1
    ensures var q := Shr(|leaves|, level);
            Node(h, leaves + [c], level + 1, q / 2)
              == h.node(Node(h, leaves, level, q - 1), Node(h, leaves + [c], level, q))
  {
    ShrBounds(|leaves|, level);
    ShrBounds(|leaves|, level + 1);
    NodeStable(h, leaves, [c], level, Shr(|leaves|, level) - 1);
  }

  /** After an append, the frontier entry of a level is right again, whether or not the walk wrote it. */
  lemma FrontierMoves(h: Scheme, frontier: seq<nat>, leaves: seq<nat>, c: nat, level: nat, frontier': seq<nat>)
    requires |frontier| == |frontier'| == h.depth && level < h.depth
    requires FrontierAt(h, frontier, leaves, level)
    requires frontier'[level] ==
               if Shr(|leaves|, level) % 2 == 0 then Node(h, leaves + [c], level, Shr(|leaves|, level))
               else frontier[level]
    ensures FrontierAt(h, frontier', leaves + [c], level)
  {
    ShrSuccessor(|leaves|, level);
    ShrBounds(|leaves|, level);
    if Shr(|leaves|, level) % 2 == 1 {
      NodeStable(h, leaves, [c], level, Shr(|leaves|, level) - 1);
    }
  }

  lemma {:induction false} WalkIsTree(h: Scheme, frontier: seq<nat>, leaves: seq<nat>, c: nat, current: nat, level: nat)
    requires |frontier| == h.depth && level <= h.depth
    requires |leaves| < Shl(1, h.depth)
    requires FrontierOk(h, frontier, leaves, level)
    requires current == Node(h, leaves + [c], level, Shr(|leaves|, level))
    ensures var r := Walk(h, frontier, current, Shr(|leaves|, level), level);
            && r.1 == Root(h, leaves + [c])
            && FrontierOk(h, r.0, leaves + [c], level)
            && (forall k :: 0 <= k < level ==> r.0[k] == frontier[k])
    decreases h.depth - level
  {
    if level == h.depth {
      ShrVanishes(|leaves|, h.depth);
    } else {
      var q := Shr(|leaves|, level);
      var frontier' := if q % 2 == 0 then frontier[level := current] else frontier;
      var parent := if q % 2 == 0 then h.node(current, h.zero(level)) else h.node(frontier[level], current);
      if q % 2 == 0 {
        ParentOfLeft(h, leaves, c, level);
      } else {
        assert FrontierAt(h, frontier, leaves, level);
        ParentOfRight(h, leaves, c, level);
      }
      assert FrontierOk(h, frontier', leaves, level + 1) by {
        forall k | level + 1 <= k < h.depth ensures FrontierAt(h, frontier', leaves, k) {
          assert FrontierAt(h, frontier, leaves, k);
        }
      }
      WalkIsTree(h, frontier', leaves, c, parent, level + 1);
      var r := Walk(h, frontier', parent, Shr(|leaves|, level + 1), level + 1);
      FrontierMoves(h, frontier, leaves, c, level, r.0);
    }
  }

  // ----- Appends -----

  lemma RingAdvances(h: Scheme, ring: seq<nat>, leaves: seq<nat>, c: nat)
    requires |ring| == ROOT_WINDOW && RingOk(h, ring, leaves)
    ensures RingOk(h, ring[(|leaves| + 1) % ROOT_WINDOW := Root(h, leaves + [c])], leaves + [c])
  {
    var n := |leaves| + 1;
    var ring' := ring[n % ROOT_WINDOW := Root(h, leaves + [c])];
    forall j | 1 <= j <= n < j + ROOT_WINDOW ensures ring'[j % ROOT_WINDOW] == RootAfter(h, leaves + [c], j) {
      if j == n {
        assert (leaves + [c])[..j] == leaves + [c];
      } else {
        assert (leaves + [c])[..j] == leaves[..j];
        assert ring[j % ROOT_WINDOW] == RootAfter(h, leaves, j);
      }
    }
  }

  /** One append: the stored tree stays the tree of the whole list, and the new current root is the padded root. */
  lemma AppendHolds(h: Scheme, t: Tree, leaves: seq<nat>, c: nat)
    requires Holds(h, t, leaves) && |leaves| < Shl(1, h.depth)
    ensures Holds(h, Append(h, t, c), leaves + [c])
    ensures CurrentRoot(Append(h, t, c)) == Root(h, leaves + [c])
  {
    WalkIsTree(h, t.frontier, leaves, c, c, 0);
    HeadAdvances(|leaves|);
    RingAdvances(h, t.ring, leaves, c);
    var frontier := Walk(h, t.frontier, c, t.count, 0).0;
    assert FrontierOk(h, frontier, leaves + [c], 0);
  }

  lemma HeadAdvances(n: nat)
    ensures (n % ROOT_WINDOW + 1) % ROOT_WINDOW == (n + 1) % ROOT_WINDOW
  {}

  /** The window accepts exactly the nonzero roots of the last thirty appends. */
  lemma WindowIsRecent(h: Scheme, t: Tree, leaves: seq<nat>, root: nat)
    requires Holds(h, t, leaves)
    ensures HasRoot(t, root) <==>
              root != 0 && exists j :: 1 <= j <= |leaves| < j + ROOT_WINDOW && RootAfter(h, leaves, j) == root
  {
    if HasRoot(t, root) {
      var s :| 0 <= s < ROOT_WINDOW && t.ring[s] == root;
      var j := SlotOwner(|leaves|, s);
      assert 1 <= j ==> t.ring[j % ROOT_WINDOW] == RootAfter(h, leaves, j);
    }
  }

  /** The newest append number at most `n` that lands in slot `s`; zero or less when there is none yet. */
  function SlotOwner(n: nat, s: nat): (j: int)
    requires s < ROOT_WINDOW
    ensures j <= n < j + ROOT_WINDOW && j % ROOT_WINDOW == s
  {
    n - (n - s) % ROOT_WINDOW
  }

  /** A proof the client built over the first leaves is accepted until thirty more have been appended. */
  lemma ClientRootIsAccepted(h: Scheme, t: Tree, leaves: seq<nat>, more: seq<nat>, index: nat, p: Proof)
    requires Holds(h, t, leaves + more) && |more| < ROOT_WINDOW
    requires BuiltFor(h, leaves, index, p)
    ensures p.root != 0 ==> HasRoot(t, p.root)
    ensures more == [] ==> p.root == CurrentRoot(t)
  {
    BuiltProofVerifies(h, leaves, index, p);
    var j := |leaves|;
    assert (leaves + more)[..j] == leaves;
    assert t.ring[j % ROOT_WINDOW] == RootAfter(h, leaves + more, j);
  }
}
