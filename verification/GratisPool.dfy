/** The shielded gratis pool: deposits and spends over all denominations, and what every run keeps. */
module GratisPool {
  import opened Base
  import opened MerkleTree
  import opened MerkleProof
  import opened GratisPoolTree

  const ONE_COEN: nat := 1_000_000_000_000_000_000
  const TAG_COMMIT_GRATIS: nat := 0x6e0001
  const TAG_NULLIFIER_GRATIS: nat := 0x6e0002

  datatype PoolError =
    | DenomUnknown | NonCanonicalFieldInput | CommitmentDuplicate | TreeFull
    | ReceiverBindingMismatch | RootStale | ProofInvalid | NullifierSpent

  function Denomination(denom: Byte): (r: Option<nat>) {
    if denom == 1 then Some(100 * ONE_COEN)
    else if denom == 2 then Some(1_000 * ONE_COEN)
    else if denom == 3 then Some(10_000 * ONE_COEN)
    else None
  }

  /** Contract storage: one tree per denomination byte, and two global sets. */
  datatype Pool = Pool(trees: seq<Tree>, nullifierSpent: set<nat>, commitmentExists: set<nat>)

  predicate Wired(h: Scheme, p: Pool) {
    |p.trees| == 256 && forall d :: 0 <= d < 256 ==> Shaped(h, p.trees[d])
  }

  function AppendLeaf(h: Scheme, p: Pool, denom: Byte, commitment: nat): (r: (Pool, Result<(nat, nat), PoolError>))
    requires Wired(h, p)
    ensures Wired(h, r.0)
  {
    if commitment >= MODULUS then (p, Err(NonCanonicalFieldInput))
    else if commitment in p.commitmentExists then (p, Err(CommitmentDuplicate))
    else
      var p1 := p.(commitmentExists := p.commitmentExists + {commitment});
      var t := p.trees[denom];
      if t.count >= Shl(1, h.depth) then (p1, Err(TreeFull))
      else
        var t' := Append(h, t, commitment);
        (p1.(trees := p.trees[denom := t']), Ok((CurrentRoot(t'), t.count)))
  }

  datatype SpendArgs =
    SpendArgs(merkleRoot: nat, nullifierHash: nat, denom: Byte, receiverBinding: nat, proof: Bytes)

  /** The zero-knowledge verifier, on public inputs and a proof body. It is foreign. */
  type Verifier = (seq<nat>, Bytes) -> bool

  function PublicInputs(a: SpendArgs): (r: seq<nat>) {
    [a.merkleRoot, a.nullifierHash, a.denom, a.receiverBinding,
     TAG_COMMIT_GRATIS, TAG_NULLIFIER_GRATIS, TAG_MERKLE_GRATIS]
  }

  /** `expectedBinding` is what the chain recomputes from the action, the target, the chain id and the nonce. */
  function VerifyAndSpend(v: Verifier, p: Pool, expectedBinding: nat, a: SpendArgs): (r: (Pool, Result<nat, PoolError>))
    requires |p.trees| == 256
  {
    if Denomination(a.denom).None? then (p, Err(DenomUnknown))
    else if a.merkleRoot >= MODULUS || a.nullifierHash >= MODULUS || a.receiverBinding >= MODULUS then
      (p, Err(NonCanonicalFieldInput))
    else if expectedBinding != a.receiverBinding then (p, Err(ReceiverBindingMismatch))
    else if !HasRoot(p.trees[a.denom], a.merkleRoot) then (p, Err(RootStale))
    else if !v(PublicInputs(a), a.proof) then (p, Err(ProofInvalid))
    else if a.nullifierHash in p.nullifierSpent then (p, Err(NullifierSpent))
    else (p.(nullifierSpent := p.nullifierSpent + {a.nullifierHash}), Ok(Denomination(a.denom).value))
  }

  // ----- Runs -----

  datatype Op = Deposit(denom: Byte, commitment: nat) | Spend(expectedBinding: nat, args: SpendArgs)

  /** An accepted spend and the binding the chain computed for it. */
  datatype Accepted = Accepted(binding: nat, args: SpendArgs)

  /** What happened: the leaves of each tree and the accepted spends, in order. */
  datatype History = History(leaves: seq<seq<nat>>, spends: seq<Accepted>)

  function Step(h: Scheme, v: Verifier, p: Pool, past: History, op: Op): (r: (Pool, History))
    requires Wired(h, p) && |past.leaves| == 256
    ensures Wired(h, r.0) && |r.1.leaves| == 256
  {
    match op
    case Deposit(d, c) =>
      if Denomination(d).None? then (p, past)
      else
        var (p', outcome) := AppendLeaf(h, p, d, c);
        (p', if outcome.Ok? then past.(leaves := past.leaves[d := past.leaves[d] + [c]]) else past)
    case Spend(binding, a) =>
      var (p', outcome) := VerifyAndSpend(v, p, binding, a);
      (p', if outcome.Ok? then past.(spends := past.spends + [Accepted(binding, a)]) else past)
  }

  function Genesis(h: Scheme): (r: (Pool, History))
    ensures Wired(h, r.0) && |r.1.leaves| == 256
  {
    (Pool(seq(256, _ => Empty(h)), {}, {}), History(seq(256, _ => []), []))
  }

  function Run(h: Scheme, v: Verifier, ops: seq<Op>): (r: (Pool, History))
    ensures Wired(h, r.0) && |r.1.leaves| == 256
  {
    if ops == [] then Genesis(h)
    else
      var (p, past) := Run(h, v, ops[..|ops| - 1]);
      Step(h, v, p, past, ops[|ops| - 1])
  }

  // ----- What every run keeps -----

  /** Every tree is the padded tree of exactly the leaves deposited into it. */
  ghost predicate TreesHold(h: Scheme, p: Pool, past: History) {
    && |p.trees| == |past.leaves| == 256
    && forall d :: 0 <= d < 256 ==> Holds(h, p.trees[d], past.leaves[d])
  }

  /** Deposited leaves are recorded, canonical, and no leaf occurs twice in the whole pool. */
  ghost predicate LeavesDistinct(p: Pool, past: History) {
    && (forall d, i :: 0 <= d < |past.leaves| && 0 <= i < |past.leaves[d]| ==>
          past.leaves[d][i] in p.commitmentExists && past.leaves[d][i] < MODULUS)
    && (forall d, i, e, j ::
          0 <= d < |past.leaves| && 0 <= i < |past.leaves[d]| && 0 <= e < |past.leaves| && 0 <= j < |past.leaves[e]| ==>
          past.leaves[d][i] == past.leaves[e][j] ==> d == e && i == j)
  }

  /** The spent set is exactly the accepted nullifiers, and no nullifier was accepted twice. */
  ghost predicate SpendsOnce(p: Pool, past: History) {
    && (forall n :: n in p.nullifierSpent <==>
          exists i :: 0 <= i < |past.spends| && past.spends[i].args.nullifierHash == n)
    && (forall i, j :: 0 <= i < j < |past.spends| ==>
          past.spends[i].args.nullifierHash != past.spends[j].args.nullifierHash)
  }

  /** An accepted spend was made for the action and target the chain saw, and proved something about a root its own
      denomination really had. */
  ghost predicate Justified(h: Scheme, v: Verifier, leaves: seq<seq<nat>>, spend: Accepted) {
    var a := spend.args;
    && a.receiverBinding == spend.binding
    && Denomination(a.denom).Some?
    && v(PublicInputs(a), a.proof)
    && |leaves| == 256
    && exists j :: 1 <= j <= |leaves[a.denom]| && RootAfter(h, leaves[a.denom], j) == a.merkleRoot
  }

  ghost predicate SpendsJustified(h: Scheme, v: Verifier, past: History) {
    forall i :: 0 <= i < |past.spends| ==> Justified(h, v, past.leaves, past.spends[i])
  }

  lemma JustifiedPersists(h: Scheme, v: Verifier, leaves: seq<seq<nat>>, spend: Accepted, d: Byte, c: nat)
    requires Justified(h, v, leaves, spend)
    ensures Justified(h, v, leaves[d := leaves[d] + [c]], spend)
  {
    var a := spend.args;
    var j :| 1 <= j <= |leaves[a.denom]| && RootAfter(h, leaves[a.denom], j) == a.merkleRoot;
    var leaves' := leaves[d := leaves[d] + [c]];
    assert leaves'[a.denom][..j] == leaves[a.denom][..j];
    assert RootAfter(h, leaves'[a.denom], j) == a.merkleRoot;
  }

  lemma DepositKeeps(h: Scheme, v: Verifier, p: Pool, past: History, d: Byte, c: nat)
    requires Wired(h, p) && TreesHold(h, p, past) && LeavesDistinct(p, past)
    requires AppendLeaf(h, p, d, c).1.Ok?
    ensures var past' := past.(leaves := past.leaves[d := past.leaves[d] + [c]]);
            var p' := AppendLeaf(h, p, d, c).0;
            TreesHold(h, p', past') && LeavesDistinct(p', past')
    ensures AppendLeaf(h, p, d, c).1.value == (Root(h, past.leaves[d] + [c]), |past.leaves[d]|)
  {
    AppendHolds(h, p.trees[d], past.leaves[d], c);
  }

  lemma SpendKeeps(h: Scheme, v: Verifier, p: Pool, past: History, binding: nat, a: SpendArgs)
    requires Wired(h, p) && TreesHold(h, p, past) && SpendsOnce(p, past)
    requires VerifyAndSpend(v, p, binding, a).1.Ok?
    ensures SpendsOnce(VerifyAndSpend(v, p, binding, a).0, past.(spends := past.spends + [Accepted(binding, a)]))
    ensures Justified(h, v, past.leaves, Accepted(binding, a))
  {
    var p' := VerifyAndSpend(v, p, binding, a).0;
    var spends' := past.spends + [Accepted(binding, a)];
    WindowIsRecent(h, p.trees[a.denom], past.leaves[a.denom], a.merkleRoot);
    assert spends'[|past.spends|].args == a;
    forall n ensures n in p'.nullifierSpent <==> exists i :: 0 <= i < |spends'| && spends'[i].args.nullifierHash == n {
      if n in p.nullifierSpent {
        var i :| 0 <= i < |past.spends| && past.spends[i].args.nullifierHash == n;
        assert spends'[i].args.nullifierHash == n;
      }
    }
  }

  ghost predicate PoolOk(h: Scheme, v: Verifier, p: Pool, past: History) {
    TreesHold(h, p, past) && LeavesDistinct(p, past) && SpendsOnce(p, past) && SpendsJustified(h, v, past)
  }

  lemma DepositStep(h: Scheme, v: Verifier, p: Pool, past: History, d: Byte, c: nat)
    requires Wired(h, p) && PoolOk(h, v, p, past)
    ensures var (p', past') := Step(h, v, p, past, Deposit(d, c)); PoolOk(h, v, p', past')
  {
    if Denomination(d).Some? && AppendLeaf(h, p, d, c).1.Ok? {
      DepositKeeps(h, v, p, past, d, c);
      forall i | 0 <= i < |past.spends|
        ensures Justified(h, v, past.leaves[d := past.leaves[d] + [c]], past.spends[i])
      {
        JustifiedPersists(h, v, past.leaves, past.spends[i], d, c);
      }
    }
  }

  lemma SpendStep(h: Scheme, v: Verifier, p: Pool, past: History, binding: nat, a: SpendArgs)
    requires Wired(h, p) && PoolOk(h, v, p, past)
    ensures var (p', past') := Step(h, v, p, past, Spend(binding, a)); PoolOk(h, v, p', past')
  {
    if VerifyAndSpend(v, p, binding, a).1.Ok? {
      SpendKeeps(h, v, p, past, binding, a);
    }
  }

  lemma GenesisOk(h: Scheme, v: Verifier)
    ensures PoolOk(h, v, Genesis(h).0, Genesis(h).1)
  {
    EmptyHolds(h);
  }

  /** Safety of the pool over every run from genesis, whatever is deposited and whatever proofs are presented. */
  lemma {:induction false} PoolIsSafe(h: Scheme, v: Verifier, ops: seq<Op>)
    ensures PoolOk(h, v, Run(h, v, ops).0, Run(h, v, ops).1)
  {
    if ops == [] {
      GenesisOk(h, v);
    } else {
      var before := ops[..|ops| - 1];
      PoolIsSafe(h, v, before);
      var (p, past) := Run(h, v, before);
      match ops[|ops| - 1]
      case Deposit(d, c) => DepositStep(h, v, p, past, d, c);
      case Spend(binding, a) => SpendStep(h, v, p, past, binding, a);
    }
  }

  /** A client that built its proof over the deposits of some moment, fewer than thirty deposits ago, and whose proof
      verifies under a fresh nullifier, is paid the denomination's amount. */
  lemma HonestSpendIsAccepted(h: Scheme, v: Verifier, p: Pool, past: History, binding: nat, a: SpendArgs,
                              leaves: seq<nat>, more: seq<nat>, index: nat, proof: Proof)
    requires Wired(h, p) && TreesHold(h, p, past) && past.leaves[a.denom] == leaves + more && |more| < ROOT_WINDOW
    requires BuiltFor(h, leaves, index, proof) && a.merkleRoot == proof.root && 0 < proof.root < MODULUS
    requires Denomination(a.denom).Some? && a.nullifierHash < MODULUS && a.receiverBinding < MODULUS
    requires a.receiverBinding == binding && v(PublicInputs(a), a.proof) && a.nullifierHash !in p.nullifierSpent
    ensures VerifyAndSpend(v, p, binding, a).1 == Ok(Denomination(a.denom).value)
  {
    ClientRootIsAccepted(h, p.trees[a.denom], leaves, more, index, proof);
  }
}
