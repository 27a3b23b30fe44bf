/** The enclave process and its per-connection session store, as the objects the source mutates. */
module Enclave {
  import opened Base
  import opened ShareCrypto
  import opened DkgSeams
  import opened EnclaveProtocol
  import Spec = EnclaveProtocol
  import opened Dkg
  import OfferBatch
  import opened SealedBlob
  import Network

  /** The ceremonies resident on one connection. */
  class DkgSessionStore {
    var sessions: map<Key32, DkgSession>

    ghost predicate Valid()
      reads this
    {
      forall i, j :: i in sessions && j in sessions && i != j ==> sessions[i] != sessions[j]
    }

    ghost function View(): Store
      reads this, sessions.Values
    {
      map id | id in sessions :: sessions[id].View()
    }

    constructor ()
      ensures Valid() && View() == map[] && fresh(sessions.Values)
    {
      sessions := map[];
    }

    /** Refuses a duplicate id, so a replayed open cannot reset a ceremony in progress. */
    method Open(kit: Kit, id: Key32, info: Bytes, signingKey: Bytes, encSecret: Key32, recipients: seq<Recipient>)
      returns (r: Tee<()>)
      requires Valid()
      modifies this
      ensures Valid() && fresh(sessions.Values - old(sessions.Values))
      ensures var created := NewSession(kit.dkg, info, signingKey, encSecret, recipients);
              if id in old(View()) then r == Err(DkgFailed) && View() == old(View())
              else match created
                   case Err(e) => r == Err(e) && View() == old(View())
                   case Ok(s) => r == Ok(()) && View() == old(View())[id := s]
    {
      if id in sessions {
        return Err(DkgFailed);
      }
      var player := kit.dkg.playerNew(info, signingKey);
      if player.None? {
        return Err(DkgFailed);
      }
      var session := new DkgSession(info, signingKey, encSecret, recipients, player.value);
      sessions := sessions[id := session];
      return Ok(());
    }

    method Remove(id: Key32)
      requires Valid()
      modifies this
      ensures Valid() && sessions.Values <= old(sessions.Values)
      ensures View() == old(View()) - {id}
    {
      sessions := sessions - {id};
    }
  }

  /** The sealed file under the enclave's directory. */
  class TeeDir {
    var sealedRoot: Option<Bytes>

    constructor ()
      ensures sealedRoot == None
    {
      sealedRoot := None;
    }

    /** Boot fast path. */
    method UnsealOnBoot(kit: Kit, boot: Option<Network.BootConfig>, sealing: Option<Network.SealingKey>)
      returns (r: Option<OfferKey>)
      ensures r == Network.RestoredKey(kit, sealedRoot, boot, sealing)
    {
      if sealedRoot.None? || boot.None? || sealing.None? {
        return None;
      }
      var u := Unseal(kit.crypto, sealedRoot.value, sealing.value.key, boot.value.chainId, boot.value.isvSvn);
      if u.Err? {
        return None;
      }
      var secret := u.value.payload.secret;
      return Some(OfferKey(secret, kit.crypto.x25519Public(secret), u.value.payload.groupSig));
    }

    /** Write-once and best-effort: an existing file is never overwritten, and every failure leaves none. */
    method SealIfConfigured(kit: Kit, slot: Option<OfferKey>, boot: Option<Network.BootConfig>,
                            sealing: Option<Network.SealingKey>, nonce: Option<Nonce12>, writeSucceeds: bool)
      modifies this
      ensures sealedRoot == if old(sealedRoot).Some? then old(sealedRoot)
                            else if writeSucceeds then Network.SealedBytes(kit, slot, boot, sealing, nonce)
                            else None
    {
      if boot.None? || slot.None? || sealedRoot.Some? || sealing.None? || nonce.None? {
        return;
      }
      var header := Network.HeaderFor(boot.value, sealing.value, nonce.value);
      var bytes := Seal(kit.crypto, Payload(slot.value.secret, slot.value.groupSig), sealing.value.key,
                        boot.value.chainId, header);
      if bytes.Ok? && writeSucceeds {
        sealedRoot := Some(bytes.value);
      }
    }
  }

  /** One request on one session. */
  method RunSession(kit: Kit, s: DkgSession, req: Request, rnd: Randomness) returns (response: Response)
    requires IsSeam(req)
    modifies s
    ensures (s.View(), response) == SeamOutcome(kit, old(s.View()), req, rnd)
  {
    match req {
      case DkgStartDealer(_) =>
        var r := s.StartDealer(kit, rnd);
        response := match r case Ok(d) => DkgDealt(d) case Err(e) => Error(Failed(e));
      case DkgPlayerIngest(_, dealerBls, pubMsg, sealedShare) =>
        var r := s.PlayerIngest(kit, dealerBls, pubMsg, sealedShare);
        response := match r case Ok(a) => DkgPlayerAck(a) case Err(e) => Error(Failed(e));
      case DkgDealerReceiveAck(_, playerBls, ack) =>
        var r := s.DealerReceiveAck(kit, playerBls, ack);
        response := match r case Ok(_) => Ack case Err(e) => Error(Failed(e));
      case DkgDealerFinalize(_) =>
        var r := s.DealerFinalize(kit);
        response := match r case Ok(log) => DkgSignedLog(log) case Err(e) => Error(Failed(e));
      case DkgPlayerFinalize(_, signedLogs) =>
        var r := s.PlayerFinalize(kit, signedLogs, rnd.rng);
        response := match r case Ok(g) => DkgPlayerFinalized(g) case Err(e) => Error(Failed(e));
      case DkgTributeOfferPartial(_) =>
        var r := s.OfferPartialsSealed(kit, rnd.draw);
        response := match r case Ok(p) => DkgOfferPartial(p) case Err(e) => Error(Failed(e));
    }
  }

  /** One running enclave: its keys and the write-once offer-key slot every connection shares. */
  class EnclaveProcess {
    const keys: EnclaveKeys
    var offerKey: Option<OfferKey>

    constructor (keys: EnclaveKeys, restored: Option<OfferKey>)
      ensures this.keys == keys && offerKey == restored
    {
      this.keys, this.offerKey := keys, restored;
    }

    ghost function View(store: DkgSessionStore): State
      reads this, store, store.sessions.Values
    {
      State(offerKey, store.View())
    }

    /** `OnceLock::set`. */
    method SetOnce(key: OfferKey) returns (installed: bool)
      modifies this`offerKey
      ensures installed == old(offerKey).None?
      ensures offerKey == if installed then Some(key) else old(offerKey)
    {
      installed := offerKey.None?;
      if installed {
        offerKey := Some(key);
      }
    }

    method RunSeam(kit: Kit, store: DkgSessionStore, req: Request, rnd: Randomness) returns (response: Response)
      requires store.Valid() && IsSeam(req)
      modifies store.sessions.Values
      ensures store.Valid() && store.sessions == old(store.sessions)
      ensures Reply(View(store), response) == DispatchSeam(kit, old(View(store)), req, rnd)
    {
      if req.ceremony !in store.sessions {
        return Error(Failed(DkgSessionMissing));
      }
      ghost var before := store.View();
      var s := store.sessions[req.ceremony];
      response := RunSession(kit, s, req, rnd);
      assert store.View() == before[req.ceremony := s.View()];
    }

    method RunOpen(kit: Kit, store: DkgSessionStore, req: Request) returns (response: Response)
      requires store.Valid() && req.DkgOpen?
      modifies store
      ensures store.Valid() && fresh(store.sessions.Values - old(store.sessions.Values))
      ensures Reply(View(store), response) == DispatchOpen(kit, keys, old(View(store)), req)
    {
      if |req.participantBls| != |req.participantEnc| {
        return Error(LengthMismatch);
      }
      var ceremony := BuildCeremonyInfo(kit.dkg, req.round, req.participantBls);
      if ceremony.Err? {
        return Error(Failed(ceremony.error));
      }
      var pubkeys := ceremony.value.pubkeys;
      var recipients: seq<Recipient> := [];
      ghost var all := PairKeys(pubkeys, req.participantBls, req.participantEnc);
      for i := 0 to |pubkeys|
        invariant all == Prepend(recipients, PairKeys(pubkeys[i..], req.participantBls, req.participantEnc))
        invariant View(store) == old(View(store)) && store.Valid()
        invariant store.sessions == old(store.sessions)
      {
        var enc := EncKeyFor(req.participantBls, req.participantEnc, pubkeys[i]);
        assert pubkeys[i..][1..] == pubkeys[i + 1..];
        if enc.None? {
          return Error(Failed(DkgFailed));
        }
        var entry := Recipient(pubkeys[i], enc.value);
        PrependAssociates(recipients, [entry], PairKeys(pubkeys[i + 1..], req.participantBls, req.participantEnc));
        recipients := recipients + [entry];
      }
      assert all == Ok(recipients);
      var r := store.Open(kit, req.ceremony, ceremony.value.info, keys.teeBlsKey, keys.dkgEncSecret, recipients);
      response := match r case Ok(_) => Ack case Err(e) => Error(Failed(e));
    }

    method RunIngest(kit: Kit, ghost store: DkgSessionStore, req: Request) returns (response: Response)
      requires req.IngestTributeOfferHandoff?
      modifies this`offerKey
      ensures Reply(View(store), response) == DispatchIngest(kit, keys, old(View(store)), req)
    {
      var key := HandoffKey(kit, keys, req);
      if key.Err? {
        return Error(Failed(key.error));
      }
      var installed := SetOnce(key.value);
      if !installed && offerKey.value.public != key.value.public {
        return Error(KeyDivergence);
      }
      return HandoffIngested(key.value.public);
    }

    method RunRecover(kit: Kit, store: DkgSessionStore, req: Request) returns (response: Response)
      requires store.Valid() && req.DkgRecoverTributeOffer?
      modifies this`offerKey, store
      ensures store.Valid() && store.sessions.Values <= old(store.sessions.Values)
      ensures Reply(View(store), response) == DispatchRecover(kit, old(View(store)), req)
    {
      if req.ceremony !in store.sessions {
        return Error(Failed(DkgSessionMissing));
      }
      ghost var before := View(store);
      var key := store.sessions[req.ceremony].RecoverOfferSecret(kit, req.sealedPartials, req.chainId, req.epoch);
      assert key == RecoverOffer(kit, before.store[req.ceremony], req.sealedPartials, req.chainId, req.epoch);
      if key.Err? {
        return Error(Failed(key.error));
      }
      var installed := SetOnce(key.value);
      assert store.View() == before.store;
      assert offerKey == Install(before.slot, key.value).0;
      if !installed && offerKey.value.public != key.value.public {
        return Error(KeyDivergence);
      }
      store.Remove(req.ceremony);
      response := DkgOfferKey(key.value.public);
      assert store.View() == before.store - {req.ceremony};
    }

    /** Requests that only read the process. */
    method RunQuery(kit: Kit, store: DkgSessionStore, req: Request, rnd: Randomness) returns (response: Response)
      requires req.GetPublicKeys? || req.Initialize? || req.ProcessTributeOfferBatch?
      ensures Reply(View(store), response) == Spec.Dispatch(kit, keys, View(store), req, rnd)
    {
      match req {
        case GetPublicKeys =>
          var recipientPub :=
            if offerKey.Some? then offerKey.value.public else kit.crypto.x25519Public(keys.offerSecret);
          response := PublicKeys(recipientPub, keys.attestationPub, keys.noisePub, keys.teeBlsPub,
                                 kit.crypto.x25519Public(keys.dkgEncSecret));
        case Initialize =>
          response := Initialized(false);
        case ProcessTributeOfferBatch(offers) =>
          var secret := if offerKey.Some? then offerKey.value.secret else keys.offerSecret;
          var results := OfferBatch.ProcessBatch(kit.crypto, kit.readers, secret, offers);
          response := OfferResults(results);
      }
    }

    /** The two ways of sealing the resident group signature to a recipient. */
    method RunSeal(kit: Kit, store: DkgSessionStore, req: Request, rnd: Randomness) returns (response: Response)
      requires req.SealTributeOfferHandoff? || req.SealOfferKeyForRegistry?
      ensures Reply(View(store), response) == DispatchSeal(kit, View(store), req, rnd)
    {
      if offerKey.None? {
        return Error(NoResidentKey);
      }
      var key := offerKey.value;
      if req.SealTributeOfferHandoff? {
        var blob := EncryptShare(kit.crypto, req.recipient, key.groupSig, rnd.draw(0));
        response := match blob case Ok(b) => SealedHandoff(ToBytes(b)) case Err(e) => Error(Failed(e));
      } else {
        var blob := EncryptShareDeterministic(kit.crypto, key.secret, req.recipient, key.groupSig);
        response := match blob case Ok(b) => SealedForRegistry(ToBytes(b)) case Err(e) => Error(Failed(e));
      }
    }

    method Dispatch(kit: Kit, store: DkgSessionStore, req: Request, rnd: Randomness) returns (response: Response)
      requires store.Valid()
      modifies this`offerKey, store, store.sessions.Values
      ensures store.Valid() && fresh(store.sessions.Values - old(store.sessions.Values))
      ensures Reply(View(store), response) == Spec.Dispatch(kit, keys, old(View(store)), req, rnd)
    {
      if req.GetPublicKeys? || req.Initialize? || req.ProcessTributeOfferBatch? {
        response := RunQuery(kit, store, req, rnd);
      } else if req.SealTributeOfferHandoff? || req.SealOfferKeyForRegistry? {
        response := RunSeal(kit, store, req, rnd);
      } else if req.IngestTributeOfferHandoff? {
        response := RunIngest(kit, store, req);
      } else if req.DkgOpen? {
        response := RunOpen(kit, store, req);
      } else if req.DkgRecoverTributeOffer? {
        response := RunRecover(kit, store, req);
      } else if IsSeam(req) {
        response := RunSeam(kit, store, req, rnd);
      } else {
        response := Error(OutOfPlace);
      }
    }
  }
}
