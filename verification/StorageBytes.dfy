/** Solidity `bytes` storage as the genesis seeder writes it: a short form in one word, a long form over many. */
module StorageBytes {
  import opened Base
  import P2pAddress

  type Word = b: Bytes | |b| == 32 witness seq(32, _ => 0)
  type Slots = map<nat, Word>

  function Pad32(chunk: Bytes): (w: Word)
    requires |chunk| <= 32
    ensures w[..|chunk|] == chunk
  {
    chunk + seq(32 - |chunk|, _ => 0)
  }

  /** Content left-aligned, twice the length in the last byte. */
  function ShortWord(data: Bytes): (w: Word)
    requires |data| <= 31
    ensures w[..|data|] == data && w[31] == 2 * |data|
  {
    Pad32(data)[31 := 2 * |data|]
  }

  function ChunkCount(n: nat): (r: nat) {
    (n + 31) / 32
  }

  function Chunk(data: Bytes, i: nat): (w: Word)
    requires 32 * i <= |data|
  {
    Pad32(if 32 * i + 32 <= |data| then data[32 * i..32 * i + 32] else data[32 * i..])
  }

  /** Reading a slot that was never written gives zero. */
  function Load(slots: Slots, slot: nat): (w: Word) {
    if slot in slots then slots[slot] else seq(32, _ => 0)
  }

  function ReadChunks(slots: Slots, start: nat, n: nat): (r: Bytes)
    decreases n
  {
    if n <= 32 then Load(slots, start)[..n] else Load(slots, start) + ReadChunks(slots, start + 1, n - 32)
  }

  /** The `bytes` value whose base slot is `slot` and whose long data starts at `start`. */
  function ReadBytes(slots: Slots, slot: nat, start: nat): (r: Bytes) {
    var head := Load(slots, slot);
    if head[31] % 2 == 0 then (if head[31] / 2 <= 31 then head[..head[31] / 2] else [])
    else ReadChunks(slots, start, FromBigEndian(head) / 2)
  }

  /** The slots as `data` leaves them. */
  ghost predicate Holds(slots: Slots, slot: nat, start: nat, data: Bytes) {
    if |data| <= 31 then Load(slots, slot) == ShortWord(data)
    else
      && Load(slots, slot) == BigEndian(2 * |data| + 1, 32)
      && forall i :: 0 <= i < ChunkCount(|data|) ==> Load(slots, start + i) == Chunk(data, i)
  }

  class StorageBuilder {
    var entries: Slots

    constructor ()
      ensures entries == map[]
    {
      entries := map[];
    }

    /** Writes `data`; the long form starts at `start`, the hash of the base slot. Fails when a slot number would leave
        the 256-bit range. Slots other than the base and the chunks keep their value. */
    method WriteStorageBytes(slot: nat, start: nat, data: Bytes) returns (ok: bool)
      requires slot < TWO_256 && start < TWO_256 && 2 * |data| + 1 < TWO_256
      modifies this
      ensures ok <==> |data| <= 31 || start + ChunkCount(|data|) <= TWO_256
      ensures ok && !(|data| > 31 && start <= slot < start + ChunkCount(|data|)) ==> Holds(entries, slot, start, data)
      ensures forall k: nat :: k != slot && !(|data| > 31 && start <= k < start + ChunkCount(|data|)) ==>
                Load(entries, k) == old(Load(entries, k))
    {
      if |data| <= 31 {
        entries := entries[slot := ShortWord(data)];
        return true;
      }
      entries := entries[slot := BigEndian(2 * |data| + 1, 32)];
      ok := WriteChunks(start, data);
    }

    /** The chunk loop. */
    method WriteChunks(start: nat, data: Bytes) returns (ok: bool)
      requires start < TWO_256 && |data| > 31
      modifies this
      ensures ok <==> start + ChunkCount(|data|) <= TWO_256
      ensures ok ==> forall i :: 0 <= i < ChunkCount(|data|) ==> Load(entries, start + i) == Chunk(data, i)
      ensures forall k: nat :: !(start <= k < start + ChunkCount(|data|)) ==> Load(entries, k) == old(Load(entries, k))
    {
      for i := 0 to ChunkCount(|data|)
        invariant start + i <= TWO_256
        invariant forall j :: 0 <= j < i ==> Load(entries, start + j) == Chunk(data, j)
        invariant forall k: nat :: !(start <= k < start + i) ==> Load(entries, k) == old(Load(entries, k))
      {
        if start + i >= TWO_256 {
          return false;
        }
        entries := entries[start + i := Chunk(data, i)];
      }
      return true;
    }
  }

  // ----- Reading back -----

  lemma {:induction false} ChunksRead(slots: Slots, start: nat, data: Bytes, from: nat)
    requires 32 * from < |data|
    requires forall i :: 0 <= i < ChunkCount(|data|) ==> Load(slots, start + i) == Chunk(data, i)
    ensures ReadChunks(slots, start + from, |data| - 32 * from) == data[32 * from..]
    decreases |data| - 32 * from
  {
    assert from < ChunkCount(|data|);
    assert Load(slots, start + from) == Chunk(data, from);
    if |data| - 32 * from > 32 {
      ChunksRead(slots, start, data, from + 1);
      assert Chunk(data, from) == data[32 * from..32 * from + 32];
      assert data[32 * from..] == data[32 * from..32 * from + 32] + data[32 * (from + 1)..];
    }
  }

  lemma LongHead(n: nat)
    requires 2 * n + 1 < TWO_256
    ensures FromBigEndian(BigEndian(2 * n + 1, 32)) == 2 * n + 1
    ensures BigEndian(2 * n + 1, 32)[31] % 2 == 1
  {
    PowersOf256();
    BigEndianInverts(2 * n + 1, 32);
    LastByte(2 * n + 1, 32);
  }

  lemma LastByte(n: nat, width: nat)
    requires width > 0
    ensures BigEndian(n, width)[width - 1] == n % 256
  {}

  /** Whatever was written, short or long, reads back byte for byte. */
  lemma BytesRoundTrip(slots: Slots, slot: nat, start: nat, data: Bytes)
    requires 2 * |data| + 1 < TWO_256 && Holds(slots, slot, start, data)
    ensures ReadBytes(slots, slot, start) == data
  {
    if |data| > 31 {
      LongHead(|data|);
      ChunksRead(slots, start, data, 0);
    }
  }

  /** An accepted P2P address survives encoding and storage. */
  lemma SeedSurvives(slots: Slots, slot: nat, start: nat, a: P2pAddress.Address)
    requires P2pAddress.EncodeAddress(a).Ok? && Holds(slots, slot, start, P2pAddress.EncodeAddress(a).value)
    ensures P2pAddress.DecodeAddress(ReadBytes(slots, slot, start)) == Some(P2pAddress.Parsed(a, []))
  {
    var payload := P2pAddress.EncodeAddress(a).value;
    BytesRoundTrip(slots, slot, start, payload);
    P2pAddress.AddressRoundTrip(a, []);
    assert payload + [] == payload;
  }
}
