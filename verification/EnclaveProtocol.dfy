/** The enclave's requests and responses, and the effect of dispatching one request on a connection. */
module EnclaveProtocol {
  import opened Base
  import opened ShareCrypto
  import opened DkgSeams
  import OfferBatch

  /** This enclave's own key material for one process lifetime. */
  datatype EnclaveKeys = EnclaveKeys(
    offerSecret: Key32, dkgEncSecret: Key32, teeBlsKey: Bytes, teeBlsPub: Bytes,
    attestationPub: Key32, noisePub: Key32)

  datatype Request =
    | GetQuote
    | SessionHandshake
    | GetPublicKeys
    | Initialize
    | ProcessTributeOfferBatch(offers: seq<OfferBatch.EncryptedOffer>)
    | SealTributeOfferHandoff(recipient: Key32)
    | SealOfferKeyForRegistry(recipient: Key32)
    | IngestTributeOfferHandoff(wire: Bytes, expectedPublic: Key32, chainId: Key32, epoch: U64)
    | DkgOpen(ceremony: Key32, round: U64, participantBls: seq<Bytes>, participantEnc: seq<Key32>)
    | DkgStartDealer(ceremony: Key32)
    | DkgPlayerIngest(ceremony: Key32, dealerBls: Bytes, pubMsg: Bytes, sealedShare: Bytes)
    | DkgDealerReceiveAck(ceremony: Key32, playerBls: Bytes, ack: Bytes)
    | DkgDealerFinalize(ceremony: Key32)
    | DkgPlayerFinalize(ceremony: Key32, signedLogs: seq<Bytes>)
    | DkgTributeOfferPartial(ceremony: Key32)
    | DkgRecoverTributeOffer(ceremony: Key32, sealedPartials: seq<Bytes>, chainId: Key32, epoch: U64)

  datatype Cause = Failed(error: TeeError) | NoResidentKey | KeyDivergence | LengthMismatch | OutOfPlace

  datatype Response =
    | PublicKeys(recipientPub: Key32, attestationPub: Key32, noisePub: Key32, teeBlsPub: Bytes, dkgEncPub: Key32)
    | Initialized(sealedLoaded: bool)
    | Ack
    | DkgDealt(dealing: Dealing)
    | DkgPlayerAck(ackBytes: Option<Bytes>)
    | DkgSignedLog(signedLog: Bytes)
    | DkgPlayerFinalized(group: GroupPublic)
    | DkgOfferPartial(sealed: seq<(Bytes, Bytes)>)
    | DkgOfferKey(offerPublic: Key32)
    | SealedHandoff(wire: Bytes)
    | SealedForRegistry(wire: Bytes)
    | HandoffIngested(offerPublic: Key32)
    | OfferResults(results: seq<OfferBatch.OfferResult>)
    | Error(cause: Cause)

  type Store = map<Key32, Session>

  /** What one request can read and change: the process-wide key slot and the connection's sessions. */
  datatype State = State(slot: Option<OfferKey>, store: Store)

  datatype Reply = Reply(state: State, response: Response)

  /** Setting a write-once slot: the resident key stays, and a different public key is refused. */
  function Install(slot: Option<OfferKey>, key: OfferKey): (r: (Option<OfferKey>, bool)) {
    match slot
    case None => (Some(key), true)
    case Some(resident) => (slot, resident.public == key.public)
  }

  /** `dispatch_dkg_open` up to the resident map: the session a participant list opens. */
  function OpenSession(kit: Kit, keys: EnclaveKeys, round: U64, bls: seq<Bytes>, enc: seq<Key32>): (r: Tee<Session>)
    requires |bls| == |enc|
  {
    match BuildCeremonyInfo(kit.dkg, round, bls)
    case Err(e) => Err(e)
    case Ok(ceremony) =>
      match PairKeys(ceremony.pubkeys, bls, enc)
      case Err(e) => Err(e)
      case Ok(recipients) => NewSession(kit.dkg, ceremony.info, keys.teeBlsKey, keys.dkgEncSecret, recipients)
  }

  function DispatchOpen(kit: Kit, keys: EnclaveKeys, st: State, req: Request): (r: Reply)
    requires req.DkgOpen?
  {
    if |req.participantBls| != |req.participantEnc| then Reply(st, Error(LengthMismatch))
    else
      match OpenSession(kit, keys, req.round, req.participantBls, req.participantEnc)
      case Err(e) => Reply(st, Error(Failed(e)))
      case Ok(session) =>
        if req.ceremony in st.store then Reply(st, Error(Failed(DkgFailed)))
        else Reply(st.(store := st.store[req.ceremony := session]), Ack)
  }

  /** The key a handoff carries, if it opens with this enclave's offer secret and is the expected one. */
  function HandoffKey(kit: Kit, keys: EnclaveKeys, req: Request): (r: Tee<OfferKey>)
    requires req.IngestTributeOfferHandoff?
  {
    match FromBytes(req.wire)
    case Err(e) => Err(e)
    case Ok(blob) =>
      match DecryptShare(kit.crypto, keys.offerSecret, blob)
      case Err(e) => Err(e)
      case Ok(groupSig) =>
        match KeyFromGroupSig(kit.crypto, groupSig, req.chainId, req.epoch)
        case Err(e) => Err(e)
        case Ok(key) => if key.public != req.expectedPublic then Err(DkgFailed) else Ok(key)
  }

  function DispatchIngest(kit: Kit, keys: EnclaveKeys, st: State, req: Request): (r: Reply)
    requires req.IngestTributeOfferHandoff?
  {
    match HandoffKey(kit, keys, req)
    case Err(e) => Reply(st, Error(Failed(e)))
    case Ok(key) =>
      var (slot, accepted) := Install(st.slot, key);
      Reply(st.(slot := slot), if accepted then HandoffIngested(key.public) else Error(KeyDivergence))
  }

  /** A divergent recovery keeps its session; only success releases it. */
  function DispatchRecover(kit: Kit, st: State, req: Request): (r: Reply)
    requires req.DkgRecoverTributeOffer?
  {
    if req.ceremony !in st.store then Reply(st, Error(Failed(DkgSessionMissing)))
    else
      match RecoverOffer(kit, st.store[req.ceremony], req.sealedPartials, req.chainId, req.epoch)
      case Err(e) => Reply(st, Error(Failed(e)))
      case Ok(key) =>
        var (slot, accepted) := Install(st.slot, key);
        if accepted then Reply(State(slot, st.store - {req.ceremony}), DkgOfferKey(key.public))
        else Reply(st.(slot := slot), Error(KeyDivergence))
  }

  function DispatchSeal(kit: Kit, st: State, req: Request, rnd: Randomness): (r: Reply)
    requires req.SealTributeOfferHandoff? || req.SealOfferKeyForRegistry?
  {
    match st.slot
    case None => Reply(st, Error(NoResidentKey))
    case Some(key) =>
      var blob := if req.SealTributeOfferHandoff?
        then EncryptShare(kit.crypto, req.recipient, key.groupSig, rnd.draw(0))
        else EncryptShareDeterministic(kit.crypto, key.secret, req.recipient, key.groupSig);
      match blob
      case Err(e) => Reply(st, Error(Failed(e)))
      case Ok(b) =>
        Reply(st, if req.SealTributeOfferHandoff? then SealedHandoff(ToBytes(b)) else SealedForRegistry(ToBytes(b)))
  }

  predicate IsSeam(req: Request) {
    || req.DkgStartDealer? || req.DkgPlayerIngest? || req.DkgDealerReceiveAck? || req.DkgDealerFinalize?
    || req.DkgPlayerFinalize? || req.DkgTributeOfferPartial?
  }

  /** Seams A to E and the signing half of seam F, on an open session. */
  function SeamOutcome(kit: Kit, s: Session, req: Request, rnd: Randomness): (r: (Session, Response))
    requires IsSeam(req)
  {
    match req
    case DkgStartDealer(_) =>
      var o := StartDealer(kit, s, rnd);
      (o.session, match o.reply case Ok(d) => DkgDealt(d) case Err(e) => Error(Failed(e)))
    case DkgPlayerIngest(_, dealerBls, pubMsg, sealedShare) =>
      var o := PlayerIngest(kit, s, dealerBls, pubMsg, sealedShare);
      (o.session, match o.reply case Ok(a) => DkgPlayerAck(a) case Err(e) => Error(Failed(e)))
    case DkgDealerReceiveAck(_, playerBls, ack) =>
      var o := DealerReceiveAck(kit, s, playerBls, ack);
      (o.session, match o.reply case Ok(_) => Ack case Err(e) => Error(Failed(e)))
    case DkgDealerFinalize(_) =>
      var o := DealerFinalize(kit, s);
      (o.session, match o.reply case Ok(log) => DkgSignedLog(log) case Err(e) => Error(Failed(e)))
    case DkgPlayerFinalize(_, signedLogs) =>
      var o := PlayerFinalize(kit, s, signedLogs, rnd.rng);
      (o.session, match o.reply case Ok(g) => DkgPlayerFinalized(g) case Err(e) => Error(Failed(e)))
    case DkgTributeOfferPartial(_) =>
      (s, match OfferPartials(kit, s, rnd.draw) case Ok(p) => DkgOfferPartial(p) case Err(e) => Error(Failed(e)))
  }

  function DispatchSeam(kit: Kit, st: State, req: Request, rnd: Randomness): (r: Reply)
    requires IsSeam(req)
  {
    if req.ceremony !in st.store then Reply(st, Error(Failed(DkgSessionMissing)))
    else
      var (s, response) := SeamOutcome(kit, st.store[req.ceremony], req, rnd);
      Reply(st.(store := st.store[req.ceremony := s]), response)
  }

  /** The key offers are decrypted with: the resident one once there is one. */
  function OfferSecret(keys: EnclaveKeys, slot: Option<OfferKey>): Key32 {
    match slot
    case Some(key) => key.secret
    case None => keys.offerSecret
  }

  function OfferPublic(kit: Kit, keys: EnclaveKeys, slot: Option<OfferKey>): Key32 {
    match slot
    case Some(key) => key.public
    case None => kit.crypto.x25519Public(keys.offerSecret)
  }

  function Dispatch(kit: Kit, keys: EnclaveKeys, st: State, req: Request, rnd: Randomness): (r: Reply) {
    match req
    case GetPublicKeys =>
      Reply(st, PublicKeys(OfferPublic(kit, keys, st.slot), keys.attestationPub, keys.noisePub, keys.teeBlsPub,
                           kit.crypto.x25519Public(keys.dkgEncSecret)))
    case Initialize => Reply(st, Initialized(false))
    case ProcessTributeOfferBatch(offers) =>
      Reply(st, OfferResults(OfferBatch.Batch(kit.crypto, kit.readers, OfferSecret(keys, st.slot), offers)))
    case SealTributeOfferHandoff(_) => DispatchSeal(kit, st, req, rnd)
    case SealOfferKeyForRegistry(_) => DispatchSeal(kit, st, req, rnd)
    case IngestTributeOfferHandoff(_, _, _, _) => DispatchIngest(kit, keys, st, req)
    case DkgOpen(_, _, _, _) => DispatchOpen(kit, keys, st, req)
    case DkgRecoverTributeOffer(_, _, _, _) => DispatchRecover(kit, st, req)
    case GetQuote => Reply(st, Error(OutOfPlace))
    case SessionHandshake => Reply(st, Error(OutOfPlace))
    case _ => DispatchSeam(kit, st, req, rnd)
  }

  // ----- The write-once key slot, one request at a time -----

  /** A resident key never changes. A key that appears was derived, under the request's chain id and epoch, from its
      own group signature. */
  lemma SlotIsWriteOnce(kit: Kit, keys: EnclaveKeys, st: State, req: Request, rnd: Randomness)
    ensures var slot := Dispatch(kit, keys, st, req, rnd).state.slot;
            && (st.slot.Some? ==> slot == st.slot)
            && (st.slot.None? && slot.Some? ==>
                  && (req.IngestTributeOfferHandoff? || req.DkgRecoverTributeOffer?)
                  && KeyFromGroupSig(kit.crypto, slot.value.groupSig, req.chainId, req.epoch) == Ok(slot.value))
  {}

  /** Every success reply that names an offer key names the resident one; a handoff reply also names the key the
      caller expected from the chain. */
  lemma RepliesNameResidentKey(kit: Kit, keys: EnclaveKeys, st: State, req: Request, rnd: Randomness)
    ensures var r := Dispatch(kit, keys, st, req, rnd);
            && (r.response.DkgOfferKey? || r.response.HandoffIngested? ==>
                  r.state.slot.Some? && r.state.slot.value.public == r.response.offerPublic)
            && (r.response.HandoffIngested? ==>
                  req.IngestTributeOfferHandoff? && r.response.offerPublic == req.expectedPublic)
            && (r.response.PublicKeys? && r.state.slot.Some? ==> r.response.recipientPub == r.state.slot.value.public)
  {}

  /** The key a request would install. */
  function OfferedKey(kit: Kit, keys: EnclaveKeys, st: State, req: Request): (r: Tee<OfferKey>) {
    if req.IngestTributeOfferHandoff? then HandoffKey(kit, keys, req)
    else if req.DkgRecoverTributeOffer? && req.ceremony in st.store then
      RecoverOffer(kit, st.store[req.ceremony], req.sealedPartials, req.chainId, req.epoch)
    else Err(DkgFailed)
  }

  /** Divergence is answered exactly when another public key is resident, and then nothing at all changes: neither the
      slot nor any session. */
  lemma DivergentKeyIsRefused(kit: Kit, keys: EnclaveKeys, st: State, req: Request, rnd: Randomness)
    ensures var r := Dispatch(kit, keys, st, req, rnd);
            && (r.response == Error(KeyDivergence) <==>
                  && OfferedKey(kit, keys, st, req).Ok? && st.slot.Some?
                  && st.slot.value.public != OfferedKey(kit, keys, st, req).value.public)
            && (r.response == Error(KeyDivergence) ==> r.state == st)
  {}

  /** Enclaves with equal resident keys answer a registry seal with identical bytes, whatever else differs. */
  lemma RegistryBlobsAgree(kit: Kit, keys: EnclaveKeys, keys': EnclaveKeys, st: State, st': State,
                           rnd: Randomness, rnd': Randomness, recipient: Key32)
    requires st.slot == st'.slot
    ensures Dispatch(kit, keys, st, SealOfferKeyForRegistry(recipient), rnd).response
         == Dispatch(kit, keys', st', SealOfferKeyForRegistry(recipient), rnd').response
  {}
}
