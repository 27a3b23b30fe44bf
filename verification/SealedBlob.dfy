/** The sealed blob that carries the offer key across restarts. */
module SealedBlob {
  import opened Base
  import opened ShareCrypto

  const SEAL_FORMAT: Byte := 2
  const HEADER_LEN := 32

  function Magic(): (m: Bytes)
    ensures |m| == 5
  {
    Ascii("TSEAL")
  }

  datatype KeyPolicy = Mock | MrSigner | MrEnclaveStrict

  function PolicyByte(k: KeyPolicy): Byte {
    match k
    case Mock => 0
    case MrSigner => 1
    case MrEnclaveStrict => 2
  }

  function PolicyFromByte(b: Byte): (r: Tee<KeyPolicy>)
    ensures r.Ok? <==> b < 3
    ensures r.Ok? ==> PolicyByte(r.value) == b
  {
    if b == 0 then Ok(Mock)
    else if b == 1 then Ok(MrSigner)
    else if b == 2 then Ok(MrEnclaveStrict)
    else Err(SealedBlobBadKeyPolicy(b))
  }

  datatype SealHeader = SealHeader(
    formatVersion: Byte, keyPolicy: KeyPolicy, isvSvn: U16,
    keyEpoch: U64, tributeOfferEpoch: U64, nonce: Nonce12)

  function EncodeHeader(h: SealHeader): (r: Bytes)
    ensures |r| == HEADER_LEN
  {
    [h.formatVersion, PolicyByte(h.keyPolicy)] + LittleEndian(h.isvSvn, 2)
    + LittleEndian(h.keyEpoch, 8) + LittleEndian(h.tributeOfferEpoch, 8) + h.nonce
  }

  /** The encoder as the source runs it: a zeroed buffer filled field by field. */
  method FillHeader(h: SealHeader) returns (out: array<Byte>)
    ensures fresh(out) && out[..] == EncodeHeader(h)
  {
    out := new Byte[HEADER_LEN](_ => 0);
    out[0] := h.formatVersion;
    out[1] := PolicyByte(h.keyPolicy);
    CopyInto(out, 2, LittleEndian(h.isvSvn, 2));
    CopyInto(out, 4, LittleEndian(h.keyEpoch, 8));
    CopyInto(out, 12, LittleEndian(h.tributeOfferEpoch, 8));
    CopyInto(out, 20, h.nonce);
    assert out[..] == out[..2] + out[2..4] + out[4..12] + out[12..20] + out[20..32];
  }

  method CopyInto(out: array<Byte>, at: nat, src: Bytes)
    requires at + |src| <= out.Length
    modifies out
    ensures out[..] == old(out[..at]) + src + old(out[at + |src|..])
  {
    for i := 0 to |src|
      invariant forall k :: 0 <= k < out.Length ==>
        out[k] == if at <= k < at + i then src[k - at] else old(out[k])
    {
      out[at + i] := src[i];
    }
  }

  function DecodeHeader(b: Bytes): (r: Tee<SealHeader>) {
    if |b| != HEADER_LEN then Err(SealedBlobTooShort)
    else
      PowersOf256();
      FromLittleEndianInverts(b[2..4]);
      FromLittleEndianInverts(b[4..12]);
      FromLittleEndianInverts(b[12..20]);
      match PolicyFromByte(b[1])
      case Err(e) => Err(e)
      case Ok(policy) =>
        Ok(SealHeader(b[0], policy, FromLittleEndian(b[2..4]),
                      FromLittleEndian(b[4..12]), FromLittleEndian(b[12..20]), b[20..32]))
  }

  lemma HeaderDecodesEncoded(h: SealHeader)
    ensures DecodeHeader(EncodeHeader(h)) == Ok(h)
  {
    var b := EncodeHeader(h);
    PowersOf256();
    assert b[2..4] == LittleEndian(h.isvSvn, 2);
    assert b[4..12] == LittleEndian(h.keyEpoch, 8);
    assert b[12..20] == LittleEndian(h.tributeOfferEpoch, 8);
    assert b[20..] == h.nonce;
    assert b[20..] == b[20..32];
    LittleEndianInverts(h.isvSvn, 2);
    LittleEndianInverts(h.keyEpoch, 8);
    LittleEndianInverts(h.tributeOfferEpoch, 8);
  }

  lemma HeaderEncodesDecoded(b: Bytes)
    requires DecodeHeader(b).Ok?
    ensures EncodeHeader(DecodeHeader(b).value) == b
  {
    FromLittleEndianInverts(b[2..4]);
    FromLittleEndianInverts(b[4..12]);
    FromLittleEndianInverts(b[12..20]);
    assert b == [b[0], b[1]] + b[2..4] + b[4..12] + b[12..20] + b[20..32];
  }

  // ----- Payload -----

  datatype Payload = Payload(secret: Key32, groupSig: Bytes)

  function EncodePayload(s: Payload): (r: Tee<Bytes>) {
    if |s.groupSig| >= 0x1_0000 then Err(SealedBlobBadPayload(|s.groupSig|))
    else Ok(s.secret + LittleEndian(|s.groupSig|, 2) + s.groupSig)
  }

  function DecodePayload(pt: Bytes): (r: Tee<Payload>) {
    if |pt| < 34 then Err(SealedBlobBadPayload(|pt|))
    else if |pt| != 34 + FromLittleEndian(pt[32..34]) then Err(SealedBlobBadPayload(|pt|))
    else Ok(Payload(pt[..32], pt[34..]))
  }

  /** Decoding accepts exactly the encodings, and gives back what was encoded. */
  lemma PayloadCodec(s: Payload, pt: Bytes)
    ensures DecodePayload(pt) == Ok(s) <==> EncodePayload(s) == Ok(pt)
  {
    PowersOf256();
    if EncodePayload(s) == Ok(pt) {
      assert pt[..32] == s.secret && pt[32..34] == LittleEndian(|s.groupSig|, 2) && pt[34..] == s.groupSig;
      LittleEndianInverts(|s.groupSig|, 2);
    }
    if DecodePayload(pt) == Ok(s) {
      FromLittleEndianInverts(pt[32..34]);
      assert pt == pt[..32] + pt[32..34] + pt[34..];
    }
  }

  // ----- Seal and unseal -----

  function Seal(p: Primitives, s: Payload, sealingKey: Key32, chainId: Key32, h: SealHeader): (r: Tee<Bytes>) {
    match EncodePayload(s)
    case Err(e) => Err(e)
    case Ok(payload) =>
      match p.gcmSeal(sealingKey, h.nonce, EncodeHeader(h) + chainId, payload)
      case None => Err(EncryptFailed)
      case Some(ct) => Ok(Magic() + EncodeHeader(h) + ct)
  }

  datatype Unsealed = Unsealed(payload: Payload, header: SealHeader)

  function Unseal(p: Primitives, blob: Bytes, sealingKey: Key32, chainId: Key32, runningSvn: U16): (r: Tee<Unsealed>) {
    if |blob| < 5 + HEADER_LEN then Err(SealedBlobTooShort)
    else if blob[..5] != Magic() then Err(SealedBlobBadMagic)
    else
      var headerBytes := blob[5..5 + HEADER_LEN];
      match DecodeHeader(headerBytes)
      case Err(e) => Err(e)
      case Ok(h) =>
        if h.formatVersion != SEAL_FORMAT then Err(SealedBlobBadVersion(h.formatVersion))
        else if h.isvSvn > runningSvn then Err(SealedBlobRollback(h.isvSvn, runningSvn))
        else
          match p.gcmOpen(sealingKey, h.nonce, headerBytes + chainId, blob[5 + HEADER_LEN..])
          case None => Err(SealedBlobUnsealFailed)
          case Some(pt) =>
            match DecodePayload(pt)
            case Err(e) => Err(e)
            case Ok(s) => Ok(Unsealed(s, h))
  }

  /** Unsealing accepts exactly the sealings of the current format whose SVN is not above the running one,
      under the same key and chain id, and returns what was sealed. */
  lemma UnsealInvertsSeal(p: Primitives, blob: Bytes, key: Key32, chainId: Key32, runningSvn: U16, u: Unsealed)
    requires Lawful(p)
    ensures Unseal(p, blob, key, chainId, runningSvn) == Ok(u) <==>
            && Seal(p, u.payload, key, chainId, u.header) == Ok(blob)
            && u.header.formatVersion == SEAL_FORMAT
            && u.header.isvSvn <= runningSvn
  {
    if Seal(p, u.payload, key, chainId, u.header) == Ok(blob) {
      var payload := EncodePayload(u.payload).value;
      PayloadCodec(u.payload, payload);
      HeaderDecodesEncoded(u.header);
      assert blob[..5] == Magic() && blob[5..37] == EncodeHeader(u.header);
      var ct := p.gcmSeal(key, u.header.nonce, EncodeHeader(u.header) + chainId, payload).value;
      assert blob[37..] == ct;
      assert p.gcmOpen(key, u.header.nonce, EncodeHeader(u.header) + chainId, ct) == Some(payload);
    }
    if Unseal(p, blob, key, chainId, runningSvn) == Ok(u) {
      var pt := p.gcmOpen(key, u.header.nonce, blob[5..37] + chainId, blob[37..]).value;
      HeaderEncodesDecoded(blob[5..37]);
      PayloadCodec(u.payload, pt);
      assert blob == Magic() + blob[5..37] + blob[37..];
    }
  }

  /** A sealed blob that is current enough opens exactly under its own key and chain id; any other is refused. */
  lemma OtherKeyIsRefused(p: Primitives, s: Payload, h: SealHeader, key: Key32, chainId: Key32,
                          otherKey: Key32, otherChain: Key32, runningSvn: U16)
    requires Lawful(p) && Seal(p, s, key, chainId, h).Ok?
    requires GcmCommits(p, h.nonce, Seal(p, s, key, chainId, h).value[5 + HEADER_LEN..],
                        key, EncodeHeader(h) + chainId, otherKey, EncodeHeader(h) + otherChain)
    requires h.formatVersion == SEAL_FORMAT && h.isvSvn <= runningSvn
    ensures Unseal(p, Seal(p, s, key, chainId, h).value, otherKey, otherChain, runningSvn)
              == if otherKey == key && otherChain == chainId then Ok(Unsealed(s, h)) else Err(SealedBlobUnsealFailed)
  {
    var blob := Seal(p, s, key, chainId, h).value;
    if otherKey == key && otherChain == chainId {
      UnsealInvertsSeal(p, blob, key, chainId, runningSvn, Unsealed(s, h));
    } else {
      HeaderDecodesEncoded(h);
      var aad := EncodeHeader(h) + chainId;
      var ct := p.gcmSeal(key, h.nonce, aad, EncodePayload(s).value).value;
      assert blob[..5] == Magic() && blob[5..37] == EncodeHeader(h) && blob[37..] == ct;
      assert p.gcmOpen(key, h.nonce, aad, ct).Some?;
      var other := EncodeHeader(h) + otherChain;
      assert aad[32..] == chainId && other[32..] == otherChain;
    }
  }

  /** A wrong format or an SVN above the running one is refused before the ciphertext is opened, under any key. */
  lemma UnsealRefusals(p: Primitives, s: Payload, h: SealHeader, key: Key32, chainId: Key32,
                       otherKey: Key32, otherChain: Key32, runningSvn: U16)
    requires Seal(p, s, key, chainId, h).Ok?
    ensures var r := Unseal(p, Seal(p, s, key, chainId, h).value, otherKey, otherChain, runningSvn);
            && (h.formatVersion != SEAL_FORMAT ==> r == Err(SealedBlobBadVersion(h.formatVersion)))
            && (h.formatVersion == SEAL_FORMAT && h.isvSvn > runningSvn ==>
                  r == Err(SealedBlobRollback(h.isvSvn, runningSvn)))
  {
    var blob := Seal(p, s, key, chainId, h).value;
    HeaderDecodesEncoded(h);
    assert blob[..5] == Magic() && blob[5..37] == EncodeHeader(h);
  }
}
