/** Enclave crypto core: offer-key derivation and the sealed share box. */
module ShareCrypto {
  import opened Base
  import Decimal

  datatype TeeError =
    | EncryptFailed
    | DecryptFailed
    | HkdfFailed
    | SealedBlobTooShort
    | SealedBlobBadMagic
    | SealedBlobBadVersion(version: Byte)
    | SealedBlobBadKeyPolicy(policy: Byte)
    | SealedBlobRollback(blob: U16, running: U16)
    | SealedBlobUnsealFailed
    | SealedBlobBadPayload(length: nat)
    | DkgFailed
    | DkgSessionMissing
    | DkgSeamOrder

  type Tee<+T> = Result<T, TeeError>

  /** The foreign primitives. Their bodies are not modelled, only the laws in `Lawful`. */
  datatype Primitives = Primitives(
    x25519Public: Key32 -> Key32,
    diffieHellman: (Key32, Key32) -> Key32,
    hkdfSha256: (Bytes, Bytes, Bytes) -> Option<Key32>,
    chachaSeal: (Key32, Nonce12, Bytes) -> Option<Bytes>,
    chachaOpen: (Key32, Nonce12, Bytes) -> Option<Bytes>,
    gcmSeal: (Key32, Nonce12, Bytes, Bytes) -> Option<Bytes>,
    gcmOpen: (Key32, Nonce12, Bytes, Bytes) -> Option<Bytes>)

  /** Diffie-Hellman commutes (section 6.1 of RFC 7748). */
  ghost predicate DhCommutes(p: Primitives) {
    forall a: Key32, b: Key32 ::
      p.diffieHellman(a, p.x25519Public(b)) == p.diffieHellman(b, p.x25519Public(a))
  }

  /** Opening recomputes the tag, so it accepts exactly what sealing produces
      (section 2.8 of RFC 8439). */
  ghost predicate ChachaExact(p: Primitives) {
    forall k: Key32, n: Nonce12, pt: Bytes, ct: Bytes ::
      p.chachaOpen(k, n, ct) == Some(pt) <==> p.chachaSeal(k, n, pt) == Some(ct)
  }

  /** The same for AES-256-GCM with associated data (section 7 of NIST SP 800-38D). */
  ghost predicate GcmExact(p: Primitives) {
    forall k: Key32, n: Nonce12, aad: Bytes, pt: Bytes, ct: Bytes ::
      p.gcmOpen(k, n, aad, ct) == Some(pt) <==> p.gcmSeal(k, n, aad, pt) == Some(ct)
  }

  ghost predicate Lawful(p: Primitives) {
    DhCommutes(p) && ChachaExact(p) && GcmExact(p)
  }

  /** Of two different keys, the second does not open what the first opens. Asked of the two keys and the one ciphertext
      a result is about; of all keys together no AEAD with a short tag could meet it. */
  predicate KeyCommits(p: Primitives, nonce: Nonce12, ct: Bytes, k: Key32, l: Key32) {
    k != l && p.chachaOpen(k, nonce, ct).Some? ==> p.chachaOpen(l, nonce, ct).None?
  }

  /** The same for AES-256-GCM: two different pairs of key and associated data. */
  predicate GcmCommits(p: Primitives, nonce: Nonce12, ct: Bytes, k: Key32, a: Bytes, l: Key32, b: Bytes) {
    (k != l || a != b) && p.gcmOpen(k, nonce, a, ct).Some? ==> p.gcmOpen(l, nonce, b, ct).None?
  }

  /** Primitives that satisfy the laws, so that the laws are not contradictory: keys, salts and 64 bytes of associated
      data travel in the clear. */
  function TrivialPrimitives(): Primitives {
    var zero: Key32 := seq(32, _ => 0);
    Primitives(k => k, (a, b) => zero, (salt, ikm, info) => if |salt| == 32 then Some(salt) else None,
               (k, n, pt) => Some(k + pt), (k, n, ct) => Unprefix(k, ct),
               (k, n, aad, pt) => if |aad| == 64 then Some(k + aad + pt) else None,
               (k, n, aad, ct) => if |aad| == 64 then Unprefix(k + aad, ct) else None)
  }

  function Unprefix(prefix: Bytes, s: Bytes): (r: Option<Bytes>) {
    if |s| >= |prefix| && s[..|prefix|] == prefix then Some(s[|prefix|..]) else None
  }

  lemma UnprefixInverts(prefix: Bytes, rest: Bytes, s: Bytes)
    ensures Unprefix(prefix, s) == Some(rest) <==> prefix + rest == s
  {
    assert (prefix + rest)[..|prefix|] == prefix && (prefix + rest)[|prefix|..] == rest;
    if |s| >= |prefix| { assert s == s[..|prefix|] + s[|prefix|..]; }
  }

  lemma PairPrefix(k: Key32, a: Bytes, l: Key32, b: Bytes)
    requires |a| == |b|
    ensures k + a == l + b <==> k == l && a == b
  {
    assert (k + a)[..32] == k && (k + a)[32..] == a && (l + b)[..32] == l && (l + b)[32..] == b;
  }

  lemma TrivialLaws()
    ensures Lawful(TrivialPrimitives())
  {
    var p := TrivialPrimitives();
    forall k: Key32, n: Nonce12, pt: Bytes, ct: Bytes
      ensures p.chachaOpen(k, n, ct) == Some(pt) <==> p.chachaSeal(k, n, pt) == Some(ct)
    {
      UnprefixInverts(k, pt, ct);
    }
    forall k: Key32, n: Nonce12, aad: Bytes, pt: Bytes, ct: Bytes
      ensures p.gcmOpen(k, n, aad, ct) == Some(pt) <==> p.gcmSeal(k, n, aad, pt) == Some(ct)
    {
      UnprefixInverts(k + aad, pt, ct);
    }
  }

  /** The laws hold together, with both commitments at every pair of keys and associated data. */
  lemma LawsAreConsistent(nonce: Nonce12, ct: Bytes, k: Key32, a: Bytes, l: Key32, b: Bytes)
    ensures Lawful(TrivialPrimitives())
    ensures KeyCommits(TrivialPrimitives(), nonce, ct, k, l) && GcmCommits(TrivialPrimitives(), nonce, ct, k, a, l, b)
  {
    TrivialLaws();
    if |a| == |b| { PairPrefix(k, a, l, b); }
  }

  // ----- Offer-key derivation -----

  function OfferSeedInfo(epoch: U64): Bytes {
    Ascii("outbe/tribute/v1/") + Decimal.Print(epoch)
  }

  datatype OfferKeypair = OfferKeypair(secret: Key32, public: Key32)

  function DeriveOfferKeypair(p: Primitives, seed: Key32): (r: Tee<OfferKeypair>) {
    match p.hkdfSha256(seed, [], Ascii("outbe/tribute/offer-x25519/v1"))
    case None => Err(HkdfFailed)
    case Some(secret) => Ok(OfferKeypair(secret, p.x25519Public(secret)))
  }

  function DeriveFromGroupSig(p: Primitives, groupSig: Bytes, chainId: Key32, epoch: U64): (r: Tee<OfferKeypair>)
    ensures r.Ok? ==> r.value.public == p.x25519Public(r.value.secret)
  {
    match p.hkdfSha256(chainId, groupSig, OfferSeedInfo(epoch))
    case None => Err(HkdfFailed)
    case Some(seed) => DeriveOfferKeypair(p, seed)
  }

  /** Distinct epochs feed HKDF distinct `info` strings. */
  lemma EpochInfoSeparates(d: U64, e: U64)
    requires OfferSeedInfo(d) == OfferSeedInfo(e)
    ensures d == e
  {
    var k := |Ascii("outbe/tribute/v1/")|;
    assert OfferSeedInfo(d)[k..] == Decimal.Print(d) && OfferSeedInfo(e)[k..] == Decimal.Print(e);
    Decimal.PrintInjective(d, e);
  }

  // ----- Sealed share box -----

  datatype EncryptedShare = EncryptedShare(ephemeralPub: Key32, nonce: Nonce12, ciphertext: Bytes)

  /** `ephemeral_pub(32) || nonce(12) || ciphertext`. */
  function ToBytes(e: EncryptedShare): (r: Bytes) {
    e.ephemeralPub + e.nonce + e.ciphertext
  }

  function FromBytes(b: Bytes): (r: Tee<EncryptedShare>) {
    if |b| < 44 then Err(DecryptFailed)
    else Ok(EncryptedShare(b[..32], b[32..44], b[44..]))
  }

  /** The wire form is a bijection between boxes and byte strings of at least 44 bytes. */
  lemma ShareCodec(e: EncryptedShare, b: Bytes)
    ensures FromBytes(ToBytes(e)) == Ok(e)
    ensures FromBytes(b).Ok? <==> |b| >= 44
    ensures FromBytes(b).Ok? ==> ToBytes(FromBytes(b).value) == b
  {
    var w := ToBytes(e);
    assert w[..32] == e.ephemeralPub && w[32..44] == e.nonce && w[44..] == e.ciphertext;
    if |b| >= 44 {
      assert b[..32] + b[32..44] + b[44..] == b;
    }
  }

  /** The two operating-system random draws behind one sealed box. */
  datatype Draw = Draw(ephemeralSecret: Key32, nonce: Nonce12)

  const DKG_SHARE_INFO := "outbe/tee/dkg-share/v1"
  const REGISTRY_NONCE_INFO := "outbe/tee/registry-seal-nonce/v1"

  function EncryptShare(p: Primitives, recipientPub: Key32, plaintext: Bytes, draw: Draw): (r: Tee<EncryptedShare>) {
    var shared := p.diffieHellman(draw.ephemeralSecret, recipientPub);
    match p.hkdfSha256(recipientPub, shared, Ascii(DKG_SHARE_INFO))
    case None => Err(HkdfFailed)
    case Some(key) =>
      match p.chachaSeal(key, draw.nonce, plaintext)
      case None => Err(EncryptFailed)
      case Some(ct) => Ok(EncryptedShare(p.x25519Public(draw.ephemeralSecret), draw.nonce, ct))
  }

  function EncryptShareDeterministic(p: Primitives, senderSecret: Key32, recipientPub: Key32, plaintext: Bytes)
    : (r: Tee<EncryptedShare>)
  {
    var shared := p.diffieHellman(senderSecret, recipientPub);
    match p.hkdfSha256(recipientPub, shared, Ascii(DKG_SHARE_INFO))
    case None => Err(HkdfFailed)
    case Some(key) =>
      match p.hkdfSha256(recipientPub, shared, Ascii(REGISTRY_NONCE_INFO))
      case None => Err(HkdfFailed)
      case Some(okm) =>
        match p.chachaSeal(key, okm[..12], plaintext)
        case None => Err(EncryptFailed)
        case Some(ct) => Ok(EncryptedShare(p.x25519Public(senderSecret), okm[..12], ct))
  }

  function DecryptShare(p: Primitives, recipientSecret: Key32, e: EncryptedShare): (r: Tee<Bytes>) {
    var recipientPub := p.x25519Public(recipientSecret);
    var shared := p.diffieHellman(recipientSecret, e.ephemeralPub);
    match p.hkdfSha256(recipientPub, shared, Ascii(DKG_SHARE_INFO))
    case None => Err(HkdfFailed)
    case Some(key) =>
      match p.chachaOpen(key, e.nonce, e.ciphertext)
      case None => Err(DecryptFailed)
      case Some(pt) => Ok(pt)
  }

  /** `wire` opens to `plaintext` for every secret behind `recipientPub`. */
  ghost predicate OpensTo(p: Primitives, recipientPub: Key32, wire: Bytes, plaintext: Bytes) {
    && FromBytes(wire).Ok?
    && forall secret: Key32 :: p.x25519Public(secret) == recipientPub ==>
         DecryptShare(p, secret, FromBytes(wire).value) == Ok(plaintext)
  }

  /** Whatever the draws, a box sealed to a key opens for the holder of that key, after a trip on the wire. */
  lemma EncryptedShareOpens(p: Primitives, recipientPub: Key32, plaintext: Bytes, draw: Draw)
    requires Lawful(p)
    requires EncryptShare(p, recipientPub, plaintext, draw).Ok?
    ensures OpensTo(p, recipientPub, ToBytes(EncryptShare(p, recipientPub, plaintext, draw).value), plaintext)
  {
    var e := EncryptShare(p, recipientPub, plaintext, draw).value;
    ShareCodec(e, []);
    forall secret: Key32 | p.x25519Public(secret) == recipientPub
      ensures DecryptShare(p, secret, e) == Ok(plaintext)
    {
      assert p.diffieHellman(secret, p.x25519Public(draw.ephemeralSecret))
          == p.diffieHellman(draw.ephemeralSecret, p.x25519Public(secret));
    }
  }

  /** The registry seal is opened by the same `DecryptShare`, and names the sender's public key. */
  lemma DeterministicShareOpens(p: Primitives, senderSecret: Key32, recipientPub: Key32, plaintext: Bytes)
    requires Lawful(p)
    requires EncryptShareDeterministic(p, senderSecret, recipientPub, plaintext).Ok?
    ensures var e := EncryptShareDeterministic(p, senderSecret, recipientPub, plaintext).value;
            && OpensTo(p, recipientPub, ToBytes(e), plaintext)
            && e.ephemeralPub == p.x25519Public(senderSecret)
  {
    var e := EncryptShareDeterministic(p, senderSecret, recipientPub, plaintext).value;
    ShareCodec(e, []);
    forall secret: Key32 | p.x25519Public(secret) == recipientPub
      ensures DecryptShare(p, secret, e) == Ok(plaintext)
    {
      assert p.diffieHellman(secret, p.x25519Public(senderSecret))
          == p.diffieHellman(senderSecret, p.x25519Public(secret));
    }
  }
}
