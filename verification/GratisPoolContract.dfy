/** The pool contract over its flat storage maps, proved against the per-denomination specification. */
module GratisPoolContract {
  import opened Base
  import opened MerkleTree
  import opened GratisPoolTree
  import Spec = GratisPool

  /** Storage maps read zero where nothing was written. */
  function Read<K>(m: map<K, nat>, k: K): (r: nat) {
    if k in m then m[k] else 0
  }

  /** The cells `(denom, 0) .. (denom, n - 1)` of a map keyed by denomination and position. */
  function Row(m: map<(Byte, nat), nat>, denom: Byte, n: nat): (r: seq<nat>)
    ensures |r| == n
  {
    seq(n, i requires 0 <= i => Read(m, (denom, i)))
  }

  lemma RowWrite(m: map<(Byte, nat), nat>, denom: Byte, n: nat, i: nat, x: nat)
    requires i < n
    ensures Row(m[(denom, i) := x], denom, n) == Row(m, denom, n)[i := x]
    ensures forall d: Byte :: d != denom ==> Row(m[(denom, i) := x], d, n) == Row(m, d, n)
  {}

  class Contract {
    const h: Scheme
    var filledSubtrees: map<(Byte, nat), nat>
    var nextIndex: map<Byte, nat>
    var roots: map<(Byte, nat), nat>
    var currentRootIndex: map<Byte, nat>
    var nullifierSpent: set<nat>
    var commitmentExists: set<nat>

    constructor (scheme: Scheme)
      ensures h == scheme && Valid()
      ensures View() == Spec.Genesis(scheme).0
    {
      h := scheme;
      filledSubtrees, nextIndex, roots, currentRootIndex := map[], map[], map[], map[];
      nullifierSpent, commitmentExists := {}, {};
      new;
      assert forall d: Byte :: TreeOf(d) == Empty(h);
      assert View().trees == Spec.Genesis(scheme).0.trees;
    }

    function TreeOf(d: Byte): (t: Tree)
      reads this
    {
      Tree(Row(filledSubtrees, d, h.depth), Read(nextIndex, d), Row(roots, d, ROOT_WINDOW), Read(currentRootIndex, d))
    }

    predicate Valid()
      reads this
    {
      forall d: Byte :: Read(currentRootIndex, d) < ROOT_WINDOW
    }

    function View(): (p: Spec.Pool)
      reads this
      requires Valid()
      ensures Spec.Wired(h, p)
      ensures p.nullifierSpent == nullifierSpent && p.commitmentExists == commitmentExists
      ensures forall d: Byte :: p.trees[d] == TreeOf(d)
    {
      Spec.Pool(seq(256, d requires 0 <= d < 256 reads this => TreeOf(d)), nullifierSpent, commitmentExists)
    }

    method AppendLeaf(denom: Byte, commitment: nat) returns (r: Result<(nat, nat), Spec.PoolError>)
      requires Valid()
      modifies this
      ensures Valid()
      ensures (View(), r) == Spec.AppendLeaf(h, old(View()), denom, commitment)
    {
      if commitment >= MODULUS {
        return Err(Spec.NonCanonicalFieldInput);
      }
      if commitment in commitmentExists {
        return Err(Spec.CommitmentDuplicate);
      }
      commitmentExists := commitmentExists + {commitment};
      var leafIndex := Read(nextIndex, denom);
      if leafIndex >= Shl(1, h.depth) {
        assert View().trees == old(View()).trees;
        return Err(Spec.TreeFull);
      }
      var current := WalkUp(denom, commitment, leafIndex);
      nextIndex := nextIndex[denom := leafIndex + 1];
      PushRoot(denom, current);
      assert TreeOf(denom) == Append(h, old(TreeOf(denom)), commitment);
      assert View().trees == old(View()).trees[denom := TreeOf(denom)];
      r := Ok((current, leafIndex));
    }

    /** The level loop: updates the frontier of one denomination and returns the new root. */
    method WalkUp(denom: Byte, commitment: nat, leafIndex: nat) returns (current: nat)
      modifies this`filledSubtrees
      ensures (Row(filledSubtrees, denom, h.depth), current)
                == Walk(h, old(Row(filledSubtrees, denom, h.depth)), commitment, leafIndex, 0)
      ensures forall d: Byte :: d != denom ==> Row(filledSubtrees, d, h.depth) == old(Row(filledSubtrees, d, h.depth))
    {
      current := commitment;
      var index := leafIndex;
      for level := 0 to h.depth
        invariant Walk(h, Row(filledSubtrees, denom, h.depth), current, index, level)
                    == Walk(h, old(Row(filledSubtrees, denom, h.depth)), commitment, leafIndex, 0)
        invariant forall d: Byte :: d != denom ==>
                    Row(filledSubtrees, d, h.depth) == old(Row(filledSubtrees, d, h.depth))
      {
        var left, right;
        if index % 2 == 0 {
          RowWrite(filledSubtrees, denom, h.depth, level, current);
          filledSubtrees := filledSubtrees[(denom, level) := current];
          left, right := current, h.zero(level);
        } else {
          left, right := Read(filledSubtrees, (denom, level)), current;
        }
        current := h.node(left, right);
        index := index / 2;
      }
    }

    method PushRoot(denom: Byte, root: nat)
      requires Valid()
      modifies this`roots, this`currentRootIndex
      ensures Valid()
      ensures TreeOf(denom) == GratisPoolTree.PushRoot(h, old(TreeOf(denom)), root)
      ensures forall d: Byte :: d != denom ==> TreeOf(d) == old(TreeOf(d))
    {
      var head := Read(currentRootIndex, denom);
      var next := (head + 1) % ROOT_WINDOW;
      RowWrite(roots, denom, ROOT_WINDOW, next, root);
      roots := roots[(denom, next) := root];
      currentRootIndex := currentRootIndex[denom := next];
      assert forall d: Byte :: d != denom ==> Read(currentRootIndex, d) == old(Read(currentRootIndex, d));
    }

    method HasRootInWindow(denom: Byte, root: nat) returns (found: bool)
      requires Valid()
      ensures found == HasRoot(TreeOf(denom), root)
    {
      if root == 0 {
        return false;
      }
      for slot := 0 to ROOT_WINDOW
        invariant root !in Row(roots, denom, ROOT_WINDOW)[..slot]
      {
        if Read(roots, (denom, slot)) == root {
          assert Row(roots, denom, ROOT_WINDOW)[slot] == root;
          return true;
        }
      }
      return false;
    }

    method VerifyAndSpend(v: Spec.Verifier, expectedBinding: nat, a: Spec.SpendArgs)
      returns (r: Result<nat, Spec.PoolError>)
      requires Valid()
      modifies this`nullifierSpent
      ensures Valid()
      ensures (View(), r) == Spec.VerifyAndSpend(v, old(View()), expectedBinding, a)
    {
      var amount := Spec.Denomination(a.denom);
      if amount.None? {
        return Err(Spec.DenomUnknown);
      }
      if a.merkleRoot >= MODULUS || a.nullifierHash >= MODULUS || a.receiverBinding >= MODULUS {
        return Err(Spec.NonCanonicalFieldInput);
      }
      if expectedBinding != a.receiverBinding {
        return Err(Spec.ReceiverBindingMismatch);
      }
      var recent := HasRootInWindow(a.denom, a.merkleRoot);
      if !recent {
        return Err(Spec.RootStale);
      }
      if !v(Spec.PublicInputs(a), a.proof) {
        return Err(Spec.ProofInvalid);
      }
      if a.nullifierHash in nullifierSpent {
        return Err(Spec.NullifierSpent);
      }
      nullifierSpent := nullifierSpent + {a.nullifierHash};
      assert View().trees == old(View()).trees;
      return Ok(amount.value);
    }
  }
}
