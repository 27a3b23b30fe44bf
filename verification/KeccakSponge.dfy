/** Keccak-256: padding and the absorbing sponge, after sections 4 and 5.1 of FIPS 202. */
module KeccakSponge {
  import opened Base
  import opened Keccak

  const RATE: nat := 136

  // ----- Padding -----

  function PadLength(n: nat): (r: nat)
    ensures 1 <= r <= RATE
  {
    RATE - n % RATE
  }

  function Zeros(n: nat): (r: Bytes)
    ensures |r| == n
  {
    seq(n, _ => 0)
  }

  /** One bit, zeros, one bit; the first and last byte coincide when a single byte is left. */
  function Pad(data: Bytes): (r: Bytes)
    ensures |r| == |data| + PadLength(|data|)
  {
    var n := PadLength(|data|);
    data + if n == 1 then [0x81] else [0x01] + Zeros(n - 2) + [0x80]
  }

  lemma PaddedLength(data: Bytes)
    ensures 0 < |Pad(data)| && |Pad(data)| % RATE == 0
  {
    var q := |data| / RATE;
    assert |Pad(data)| == RATE * (q + 1);
  }

  /** Drops trailing zero bytes, then the byte before them. */
  function Strip(s: Bytes): (r: Bytes) {
    if s == [] then []
    else if s[|s| - 1] == 0 then Strip(s[..|s| - 1])
    else s[..|s| - 1]
  }

  function Unpad(s: Bytes): (r: Bytes) {
    if s == [] then []
    else if s[|s| - 1] == 0x81 then s[..|s| - 1]
    else Strip(s[..|s| - 1])
  }

  lemma {:induction false} StripZeros(s: Bytes, b: Byte, n: nat)
    requires b != 0
    ensures Strip(s + [b] + Zeros(n)) == s
    decreases n
  {
    var t := s + [b] + Zeros(n);
    if n == 0 {
      assert t == s + [b];
    } else {
      assert t[|t| - 1] == 0;
      assert t[..|t| - 1] == s + [b] + Zeros(n - 1);
      StripZeros(s, b, n - 1);
    }
  }

  /** Padding can be undone for every input length. */
  lemma UnpadInverts(data: Bytes)
    ensures Unpad(Pad(data)) == data
  {
    var n := PadLength(|data|);
    var p := Pad(data);
    if n == 1 {
      assert p == data + [0x81];
    } else {
      assert p[|p| - 1] == 0x80;
      assert p[..|p| - 1] == data + [0x01] + Zeros(n - 2);
      StripZeros(data, 0x01, n - 2);
    }
  }

  lemma PaddingIsInjective(a: Bytes, b: Bytes)
    ensures Pad(a) == Pad(b) <==> a == b
  {
    UnpadInverts(a);
    UnpadInverts(b);
  }

  // ----- The sponge -----

  type Word = b: Bytes | |b| == 8 witness seq(8, _ => 0)

  /** Everything the sponge needs from a lane type. */
  datatype Sponge<!L> =
    Sponge(ops: LaneOps<L>, constants: seq<L>, zero: L, load: Word -> L, store: L -> Word)

  function XorBlock<L>(s: Sponge<L>, a: seq<L>, block: Bytes): (r: seq<L>)
    requires |a| == 25 && |block| == RATE
    ensures |r| == 25
  {
    seq(25, i requires 0 <= i < 25 => if i < RATE / 8 then s.ops.xor(a[i], s.load(block[8 * i..8 * i + 8])) else a[i])
  }

  /** Absorption, block by block. */
  function Absorb<L>(s: Sponge<L>, a: seq<L>, input: Bytes): (r: seq<L>)
    requires |a| == 25
    ensures |r| == 25
    decreases |input|
  {
    if |input| < RATE then a
    else Absorb(s, Rounds(s.ops, XorBlock(s, a, input[..RATE]), s.constants), input[RATE..])
  }

  function Join<L>(s: Sponge<L>, lanes: seq<L>): (r: Bytes)
    ensures |r| == 8 * |lanes|
  {
    if lanes == [] then [] else Join(s, lanes[..|lanes| - 1]) + s.store(lanes[|lanes| - 1])
  }

  function Digest<L>(s: Sponge<L>, data: Bytes): (r: Bytes)
    ensures |r| == 32
  {
    Join(s, Absorb(s, seq(25, _ => s.zero), Pad(data)))[..32]
  }

  /** The lane loop of one block. */
  method XorBlockInPlace<L(0)>(s: Sponge<L>, state: array<L>, block: Bytes)
    requires state.Length == 25 && |block| == RATE
    modifies state
    ensures state[..] == XorBlock(s, old(state[..]), block)
  {
    for lane := 0 to RATE / 8
      invariant forall i :: 0 <= i < 25 ==>
                  state[i] == if i < lane then XorBlock(s, old(state[..]), block)[i] else old(state[i])
    {
      var start := lane * 8;
      state[lane] := s.ops.xor(state[lane], s.load(block[start..start + 8]));
    }
  }

  /** The hash as the program computes it equals the recursive sponge, for every input length. */
  method Keccak256<L(0)>(s: Sponge<L>, data: Bytes) returns (digest: Bytes)
    ensures digest == Digest(s, data)
  {
    var state := new L[25](_ => s.zero);
    assert state[..] == seq(25, _ => s.zero);
    var padded := Pad(data);
    PaddedLength(data);
    AbsorbInPlace(s, state, padded);
    digest := Join(s, state[..])[..32];
  }

  /** The block loop. */
  method AbsorbInPlace<L(0)>(s: Sponge<L>, state: array<L>, padded: Bytes)
    requires state.Length == 25 && |padded| % RATE == 0
    modifies state
    ensures state[..] == Absorb(s, old(state[..]), padded)
  {
    ghost var initial := state[..];
    var offset := 0;
    while offset < |padded|
      invariant 0 <= offset <= |padded| && (|padded| - offset) % RATE == 0
      invariant Absorb(s, state[..], padded[offset..]) == Absorb(s, initial, padded)
    {
      AbsorbStep(s, state[..], padded, offset);
      XorBlockInPlace(s, state, padded[offset..offset + RATE]);
      PermuteInPlace(s.ops, state, s.constants);
      offset := offset + RATE;
    }
  }

  lemma AbsorbStep<L>(s: Sponge<L>, a: seq<L>, padded: Bytes, offset: nat)
    requires |a| == 25 && offset + RATE <= |padded|
    ensures Absorb(s, a, padded[offset..])
              == Absorb(s, Rounds(s.ops, XorBlock(s, a, padded[offset..offset + RATE]), s.constants),
                        padded[offset + RATE..])
  {
    assert padded[offset..][..RATE] == padded[offset..offset + RATE];
    assert padded[offset..][RATE..] == padded[offset + RATE..];
  }

  // ----- The 64-bit instance -----

  function Rotl64(value: bv64, shift: nat): (r: bv64) {
    if 0 < shift < 64 then (value << shift) | (value >> (64 - shift)) else value
  }

  const OPS64: LaneOps<bv64> :=
    LaneOps((a: bv64, b: bv64) => a ^ b, (a: bv64, n: nat) => Rotl64(a, n), (a: bv64, b: bv64) => !a & b)

  const ROUND_CONSTANTS: seq<bv64> :=
    [0x0000000000000001, 0x0000000000008082, 0x800000000000808A, 0x8000000080008000,
     0x000000000000808B, 0x0000000080000001, 0x8000000080008081, 0x8000000000008009,
     0x000000000000008A, 0x0000000000000088, 0x0000000080008009, 0x000000008000000A,
     0x000000008000808B, 0x800000000000008B, 0x8000000000008089, 0x8000000000008003,
     0x8000000000008002, 0x8000000000000080, 0x000000000000800A, 0x800000008000000A,
     0x8000000080008081, 0x8000000000008080, 0x0000000080000001, 0x8000000080008008]

  function Load64(b: Word): (r: bv64) {
    LoadFits(b);
    FromLittleEndian(b) as bv64
  }

  lemma LoadFits(b: Word)
    ensures 0 <= FromLittleEndian(b) < TWO_64
  {
    PowersOf256();
    FromLittleEndianInverts(b);
  }

  function Store64(lane: bv64): (r: Word) {
    LittleEndian(lane as int, 8)
  }

  /** The instance the seeder hashes with. */
  const KECCAK_256: Sponge<bv64> :=
    Sponge(OPS64, ROUND_CONSTANTS, 0, (b: Word) => Load64(b), (lane: bv64) => Store64(lane))

  lemma IntOfBits(lane: bv64)
    ensures 0 <= lane as int < TWO_64 && (lane as int) as bv64 == lane
  {}

  lemma LoadInvertsStore(lane: bv64)
    ensures Load64(Store64(lane)) == lane
  {
    IntOfBits(lane);
    PowersOf256();
    LittleEndianInverts(lane as int, 8);
  }

  lemma {:induction false} JoinAt<L>(s: Sponge<L>, lanes: seq<L>, i: nat)
    requires i < |lanes|
    ensures Join(s, lanes)[8 * i..8 * i + 8] == s.store(lanes[i])
  {
    var n := |lanes| - 1;
    if i < n {
      JoinAt(s, lanes[..n], i);
      assert Join(s, lanes)[8 * i..8 * i + 8] == Join(s, lanes[..n])[8 * i..8 * i + 8];
    }
  }

  /** The hash runs 24 rounds, and its digest is exactly the first four lanes of the absorbed state: each is read back
      from its eight bytes. */
  lemma DigestHoldsFourLanes(data: Bytes, i: nat)
    requires i < 4
    ensures |KECCAK_256.constants| == 24
    ensures Load64(Digest(KECCAK_256, data)[8 * i..8 * i + 8]) == Absorb(KECCAK_256, seq(25, _ => 0), Pad(data))[i]
  {
    var lanes := Absorb(KECCAK_256, seq(25, _ => 0), Pad(data));
    assert seq(25, _ => KECCAK_256.zero) == seq(25, _ => 0);
    JoinAt(KECCAK_256, lanes, i);
    assert Join(KECCAK_256, lanes)[..32][8 * i..8 * i + 8] == Join(KECCAK_256, lanes)[8 * i..8 * i + 8];
    LoadInvertsStore(lanes[i]);
  }
}
