/** Offer-batch processing inside the enclave: decrypt, validate, price, and report each offer. */
module OfferBatch {
  import opened Base
  import opened ShareCrypto
  import Decimal

  const USD_ISO_4217: U16 := 840

  type Address = b: Bytes | |b| == 20 witness seq(20, _ => 0)

  datatype EncryptedOffer = EncryptedOffer(
    owner: Address, cipherText: Bytes, nonce: Bytes, ephemeralPubkey: U256,
    referenceCurrency: U16, tributePriceMinor: U256)

  /** The decrypted payload's fields, as the JSON reader delivers them. */
  datatype Payload = Payload(
    creator: Bytes, tributeDraftId: Bytes, worldwideDay: U32, currency: U16,
    amountBase: Bytes, amountAtto: Bytes,
    suHashes: seq<Bytes>, walletAddresses: seq<Bytes>, sraAddresses: seq<Bytes>)

  datatype Reject =
    | BadNonce | DecryptionFailed | MalformedPayload
    | DraftIdMissing | CreatorMissing | DayInvalid | SuHashesMissing
    | CurrencyRefused | AmountRefused(error: Decimal.AmountError) | AmountZero
    | PriceUnavailable | NominalOverflow | DraftIdInvalid

  datatype Status = Created | Rejected(reason: Reject)

  datatype OfferResult = OfferResult(
    tokenId: Key32, owner: Address, worldwideDay: U32,
    issuanceAmountMinor: U256, issuanceCurrency: U16, nominalAmountMinor: U256,
    referenceCurrency: U16, tributePriceMinor: U256,
    suHashes: seq<Bytes>, walletAddresses: seq<Bytes>, sraAddresses: seq<Bytes>, status: Status)

  /** Foreign code: the JSON reader and the Poseidon token id of (owner, day, draft id text). */
  datatype Readers = Readers(
    parseJson: Bytes -> Option<Payload>,
    tokenId: (Address, U32, Bytes) -> Option<Key32>)

  /** The protocol's public HKDF salt. */
  function OfferSalt(): (s: Key32) {
    Ascii("outbe/tribute/offer-salt/v1") + seq(5, _ => 0)
  }

  /** Calendar validity of a YYYYMMDD key. */
  predicate WorldwideDayIsValid(day: U32) {
    var year, month, dom := day / 10_000, (day / 100) % 100, day % 100;
    1 <= month <= 12 && 1 <= dom <= DaysInMonth(year, month)
  }

  predicate IsLeap(year: nat) {
    (year % 4 == 0 && year % 100 != 0) || year % 400 == 0
  }

  function DaysInMonth(year: nat, month: nat): nat {
    if month == 2 then (if IsLeap(year) then 29 else 28)
    else if month == 4 || month == 6 || month == 9 || month == 11 then 30
    else 31
  }

  // ----- Encryption on the client, decryption in the enclave -----

  const OFFER_AEAD_INFO := "tribute-factory-encryption"

  function DecryptOffer(p: Primitives, secret: Key32, salt: Key32, ephemeralPub: Key32, nonce: Bytes, ct: Bytes)
    : (r: Result<Bytes, Reject>)
  {
    if |nonce| != 12 then Err(BadNonce)
    else
      match p.hkdfSha256(salt, p.diffieHellman(secret, ephemeralPub), Ascii(OFFER_AEAD_INFO))
      case None => Err(DecryptionFailed)
      case Some(key) =>
        match p.chachaOpen(key, nonce, ct)
        case None => Err(DecryptionFailed)
        case Some(pt) => Ok(pt)
  }

  /** What a client computes, with the salt it uses. */
  function EncryptOffer(p: Primitives, offerPub: Key32, salt: Key32, plaintext: Bytes, draw: Draw): (r: Option<Bytes>) {
    match p.hkdfSha256(salt, p.diffieHellman(draw.ephemeralSecret, offerPub), Ascii(OFFER_AEAD_INFO))
    case None => None
    case Some(key) => p.chachaSeal(key, draw.nonce, plaintext)
  }

  /** For one shared secret and one ciphertext, two different salts derive different keys, and the second key does not
      open what the first opens. */
  predicate SaltsSeparate(p: Primitives, s: Key32, t: Key32, shared: Key32, nonce: Nonce12, ct: Bytes) {
    var k, l := p.hkdfSha256(s, shared, Ascii(OFFER_AEAD_INFO)), p.hkdfSha256(t, shared, Ascii(OFFER_AEAD_INFO));
    s != t && k.Some? && l.Some? ==> k != l && KeyCommits(p, nonce, ct, k.value, l.value)
  }

  /** An offer encrypted to the enclave's public key opens exactly when client and enclave use one salt; otherwise it is
      refused. The hypothesis is about this offer's two derived keys and its ciphertext. */
  lemma ClientOfferOpens(p: Primitives, secret: Key32, clientSalt: Key32, enclaveSalt: Key32,
                         plaintext: Bytes, draw: Draw)
    requires Lawful(p)
    requires EncryptOffer(p, p.x25519Public(secret), clientSalt, plaintext, draw).Some?
    requires SaltsSeparate(p, clientSalt, enclaveSalt, p.diffieHellman(draw.ephemeralSecret, p.x25519Public(secret)),
                           draw.nonce, EncryptOffer(p, p.x25519Public(secret), clientSalt, plaintext, draw).value)
    ensures var ct := EncryptOffer(p, p.x25519Public(secret), clientSalt, plaintext, draw).value;
            DecryptOffer(p, secret, enclaveSalt, p.x25519Public(draw.ephemeralSecret), draw.nonce, ct)
              == if clientSalt == enclaveSalt then Ok(plaintext) else Err(DecryptionFailed)
  {
    var shared := p.diffieHellman(draw.ephemeralSecret, p.x25519Public(secret));
    assert p.diffieHellman(secret, p.x25519Public(draw.ephemeralSecret)) == shared;
    var ct := EncryptOffer(p, p.x25519Public(secret), clientSalt, plaintext, draw).value;
    var key := p.hkdfSha256(clientSalt, shared, Ascii(OFFER_AEAD_INFO)).value;
    assert p.chachaOpen(key, draw.nonce, ct) == Some(plaintext);
  }

  /** The salt two of the clients hard-code. */
  const LEGACY_SALT: Key32 := seq(32, _ => 3)

  lemma LegacySaltDiffers()
    ensures OfferSalt() != LEGACY_SALT
  {
    assert OfferSalt()[31] == 0 && LEGACY_SALT[31] == 3;
  }

  // ----- One offer -----

  function ParseAndValidate(r: Readers, plaintext: Bytes): (v: Result<Payload, Reject>) {
    match r.parseJson(plaintext)
    case None => Err(MalformedPayload)
    case Some(payload) =>
      if payload.tributeDraftId == [] then Err(DraftIdMissing)
      else if payload.creator == [] then Err(CreatorMissing)
      else if !WorldwideDayIsValid(payload.worldwideDay) then Err(DayInvalid)
      else if payload.suHashes == [] then Err(SuHashesMissing)
      else Ok(payload)
  }

  /** `amount * 10^18 / price`, refused on overflow. The caller guarantees a non-zero price. */
  function ComputeNominal(amount: U256, price: U256): (r: Option<U256>)
    requires price > 0
  {
    match Decimal.ScaleUp(amount)
    case None => None
    case Some(scaled) => QuotientFits(scaled, price); Some(scaled / price)
  }

  function PriceOffer(r: Readers, offer: EncryptedOffer, payload: Payload): (v: Result<OfferResult, Reject>) {
    if offer.referenceCurrency != USD_ISO_4217 || payload.currency != USD_ISO_4217 then Err(CurrencyRefused)
    else
      match Decimal.NormalizeAmount(payload.amountBase, payload.amountAtto)
      case Err(e) => Err(AmountRefused(e))
      case Ok(amount) =>
        if amount == 0 then Err(AmountZero)
        else if offer.tributePriceMinor == 0 then Err(PriceUnavailable)
        else
          match ComputeNominal(amount, offer.tributePriceMinor)
          case None => Err(NominalOverflow)
          case Some(nominal) =>
            match r.tokenId(offer.owner, payload.worldwideDay, payload.tributeDraftId)
            case None => Err(DraftIdInvalid)
            case Some(id) =>
              Ok(OfferResult(id, offer.owner, payload.worldwideDay, amount, payload.currency, nominal,
                             offer.referenceCurrency, offer.tributePriceMinor,
                             payload.suHashes, payload.walletAddresses, payload.sraAddresses, Created))
  }

  function ProcessOne(p: Primitives, r: Readers, secret: Key32, offer: EncryptedOffer)
    : (v: Result<OfferResult, Reject>)
  {
    PowersOf256();
    match DecryptOffer(p, secret, OfferSalt(), BigEndian(offer.ephemeralPubkey, 32), offer.nonce, offer.cipherText)
    case Err(e) => Err(e)
    case Ok(plaintext) =>
      match ParseAndValidate(r, plaintext)
      case Err(e) => Err(e)
      case Ok(payload) => PriceOffer(r, offer, payload)
  }

  function RejectedResult(offer: EncryptedOffer, reason: Reject): (v: OfferResult) {
    OfferResult(seq(32, _ => 0), offer.owner, 0, 0, 0, 0, offer.referenceCurrency, offer.tributePriceMinor,
                [], [], [], Rejected(reason))
  }

  function Outcome(p: Primitives, r: Readers, secret: Key32, offer: EncryptedOffer): (v: OfferResult) {
    match ProcessOne(p, r, secret, offer)
    case Ok(result) => result
    case Err(reason) => RejectedResult(offer, reason)
  }

  // ----- Batches -----

  function Batch(p: Primitives, r: Readers, secret: Key32, offers: seq<EncryptedOffer>): (v: seq<OfferResult>)
    ensures |v| == |offers|
    ensures forall i :: 0 <= i < |offers| ==> v[i] == Outcome(p, r, secret, offers[i])
  {
    Map(offer => Outcome(p, r, secret, offer), offers)
  }

  method ProcessBatch(p: Primitives, r: Readers, secret: Key32, offers: seq<EncryptedOffer>)
    returns (results: seq<OfferResult>)
    ensures results == Batch(p, r, secret, offers)
  {
    results := [];
    ghost var all := Batch(p, r, secret, offers);
    for i := 0 to |offers|
      invariant results == all[..i]
    {
      var v := Outcome(p, r, secret, offers[i]);
      assert v == all[i];
      PrefixGrows(all, i);
      results := results + [v];
    }
  }

  predicate IsOverflow(reason: Reject) {
    || reason == NominalOverflow
    || reason == AmountRefused(Decimal.BaseOverflow) || reason == AmountRefused(Decimal.AmountOverflow)
  }

  /** What every reported offer satisfies, whatever the ciphertext held. */
  ghost predicate Sound(offer: EncryptedOffer, v: OfferResult) {
    && v.owner == offer.owner
    && v.referenceCurrency == offer.referenceCurrency
    && v.tributePriceMinor == offer.tributePriceMinor
    && (match v.status
        case Created =>
          && v.referenceCurrency == v.issuanceCurrency == USD_ISO_4217
          && WorldwideDayIsValid(v.worldwideDay)
          && 0 < v.issuanceAmountMinor <= Decimal.MAX_AMOUNT
          && 0 < v.tributePriceMinor
          && v.nominalAmountMinor * v.tributePriceMinor <= v.issuanceAmountMinor * 1_000_000_000_000_000_000
               < (v.nominalAmountMinor + 1) * v.tributePriceMinor
          && v.suHashes != []
        case Rejected(reason) => !IsOverflow(reason) && v == RejectedResult(offer, reason))
  }

  /** The nominal is the greatest whole number of units the amount pays for at the price, and it exists exactly when
      the scaled amount fits 256 bits; for every accepted amount it does. */
  lemma NominalIsFloor(amount: U256, price: U256, n: nat)
    requires price > 0
    ensures ComputeNominal(amount, price).Some? <==> amount * 1_000_000_000_000_000_000 < TWO_256
    ensures amount <= Decimal.MAX_AMOUNT ==> ComputeNominal(amount, price).Some?
    ensures ComputeNominal(amount, price).Some? ==>
              (n * price <= amount * 1_000_000_000_000_000_000 < (n + 1) * price <==>
                 n == ComputeNominal(amount, price).value)
  {
    var scaled := amount * 1_000_000_000_000_000_000;
    QuotientFits(scaled, price);
    OneFloor(scaled, price, n, scaled / price);
  }

  lemma OneFloor(a: nat, d: nat, m: nat, n: nat)
    requires d > 0 && n * d <= a < (n + 1) * d
    ensures m * d <= a < (m + 1) * d <==> m == n
  {
    assert m < n ==> (m + 1) * d <= n * d;
    assert m > n ==> (n + 1) * d <= m * d;
  }

  lemma PricedIsSound(r: Readers, offer: EncryptedOffer, payload: Payload)
    requires WorldwideDayIsValid(payload.worldwideDay) && payload.suHashes != []
    ensures PriceOffer(r, offer, payload).Ok? ==> Sound(offer, PriceOffer(r, offer, payload).value)
    ensures PriceOffer(r, offer, payload).Ok? ==> PriceOffer(r, offer, payload).value.status == Created
    ensures PriceOffer(r, offer, payload).Err? ==> !IsOverflow(PriceOffer(r, offer, payload).error)
  {
    Decimal.NormalizeNeverOverflows(payload.amountBase, payload.amountAtto);
    var amount := Decimal.NormalizeAmount(payload.amountBase, payload.amountAtto);
    if amount.Ok? && offer.tributePriceMinor > 0 {
      var nominal := ComputeNominal(amount.value, offer.tributePriceMinor);
      NominalIsFloor(amount.value, offer.tributePriceMinor, if nominal.Some? then nominal.value else 0);
    }
  }

  lemma OutcomeIsSound(p: Primitives, r: Readers, secret: Key32, offer: EncryptedOffer)
    ensures Sound(offer, Outcome(p, r, secret, offer))
  {
    var pt := DecryptOffer(p, secret, OfferSalt(), BigEndian(offer.ephemeralPubkey, 32), offer.nonce, offer.cipherText);
    if pt.Ok? && ParseAndValidate(r, pt.value).Ok? {
      PricedIsSound(r, offer, ParseAndValidate(r, pt.value).value);
    }
  }

  /** The same through the batch: an offer a legacy client makes is reported as undecryptable, whatever it holds. */
  lemma LegacyOfferIsRejected(p: Primitives, r: Readers, secret: Key32, plaintext: Bytes, draw: Draw,
                              offer: EncryptedOffer)
    requires Lawful(p)
    requires EncryptOffer(p, p.x25519Public(secret), LEGACY_SALT, plaintext, draw) == Some(offer.cipherText)
    requires offer.nonce == draw.nonce && BigEndian(offer.ephemeralPubkey, 32) == p.x25519Public(draw.ephemeralSecret)
    requires SaltsSeparate(p, LEGACY_SALT, OfferSalt(), p.diffieHellman(draw.ephemeralSecret, p.x25519Public(secret)),
                           draw.nonce, offer.cipherText)
    ensures Outcome(p, r, secret, offer) == RejectedResult(offer, DecryptionFailed)
  {
    LegacySaltDiffers();
    ClientOfferOpens(p, secret, LEGACY_SALT, OfferSalt(), plaintext, draw);
  }

  /** Over any batch: one sound result per offer, no overflow reject, and a concatenation of batches gives the
      concatenation of their results. */
  lemma BatchIsSound(p: Primitives, r: Readers, secret: Key32, front: seq<EncryptedOffer>, back: seq<EncryptedOffer>)
    ensures Batch(p, r, secret, front + back) == Batch(p, r, secret, front) + Batch(p, r, secret, back)
    ensures forall i :: 0 <= i < |front| ==> Sound(front[i], Batch(p, r, secret, front)[i])
  {
    MapConcatenates(offer => Outcome(p, r, secret, offer), front, back);
    forall i | 0 <= i < |front| ensures Sound(front[i], Batch(p, r, secret, front)[i]) {
      OutcomeIsSound(p, r, secret, front[i]);
    }
  }
}
