/** One enclave's resident secret state for a TEE DKG ceremony, as the object the source keeps. */
module Dkg {
  import opened Base
  import opened ShareCrypto
  import opened DkgSeams
  import Seams = DkgSeams

  class DkgSession {
    const info: Bytes
    const signingKey: Bytes
    const encSecret: Key32
    const recipients: seq<Recipient>
    var dealer: Option<Bytes>
    var player: Option<Bytes>
    var recoveredShare: Option<Bytes>
    var groupOutput: Option<Bytes>

    ghost function View(): Session
      reads this
    {
      Session(info, signingKey, encSecret, recipients, dealer, player, recoveredShare, groupOutput)
    }

    constructor (info: Bytes, signingKey: Bytes, encSecret: Key32, recipients: seq<Recipient>, player: Bytes)
      ensures View() == Session(info, signingKey, encSecret, recipients, None, Some(player), None, None)
    {
      this.info, this.signingKey, this.encSecret, this.recipients := info, signingKey, encSecret, recipients;
      this.dealer, this.player, this.recoveredShare, this.groupOutput := None, Some(player), None, None;
    }

    method StartDealer(kit: Kit, rnd: Randomness) returns (r: Tee<Dealing>)
      modifies this`dealer
      ensures Outcome(View(), r) == Seams.StartDealer(kit, old(View()), rnd)
    {
      if dealer.Some? {
        return Err(DkgSeamOrder);
      }
      var started := kit.dkg.dealerStart(rnd.rng, info, signingKey);
      if started.None? {
        return Err(DkgFailed);
      }
      dealer := Some(started.value.dealer);
      var msgs := started.value.privMsgs;
      var shares: seq<(Bytes, Bytes)> := [];
      ghost var all := SealShares(kit.crypto, recipients, msgs, rnd.draw, 0);
      for i := 0 to |msgs|
        invariant all == Prepend(shares, SealShares(kit.crypto, recipients, msgs, rnd.draw, i))
        invariant dealer == Some(started.value.dealer)
      {
        var encPub := FindRecipient(recipients, msgs[i].0);
        if encPub.None? {
          return Err(DkgFailed);
        }
        var blob := EncryptShare(kit.crypto, encPub.value, msgs[i].1, rnd.draw(i));
        if blob.Err? {
          return Err(blob.error);
        }
        ghost var rest := SealShares(kit.crypto, recipients, msgs, rnd.draw, i + 1);
        PrependAssociates(shares, [(msgs[i].0, ToBytes(blob.value))], rest);
        shares := shares + [(msgs[i].0, ToBytes(blob.value))];
      }
      return Ok(Dealing(started.value.pubMsg, shares));
    }

    method PlayerIngest(kit: Kit, dealerBls: Bytes, pubMsg: Bytes, sealedShare: Bytes) returns (r: Tee<Option<Bytes>>)
      modifies this`player
      ensures Outcome(View(), r) == Seams.PlayerIngest(kit, old(View()), dealerBls, pubMsg, sealedShare)
    {
      var dealerKey := kit.dkg.decodePubkey(dealerBls);
      if dealerKey.None? { return Err(DkgFailed); }
      if |recipients| == 0 || |recipients| >= TWO_32 { return Err(DkgFailed); }
      var pub := kit.dkg.decodePubMsg(|recipients|, pubMsg);
      if pub.None? { return Err(DkgFailed); }
      var priv := OpenPrivMsg(kit, encSecret, sealedShare);
      if priv.Err? { return Err(priv.error); }
      if player.None? { return Err(DkgSeamOrder); }
      var (player', ack) := kit.dkg.dealerMessage(player.value, dealerKey.value, pub.value, priv.value);
      player := Some(player');
      return Ok(ack);
    }

    method DealerReceiveAck(kit: Kit, playerBls: Bytes, ackBytes: Bytes) returns (r: Tee<()>)
      modifies this`dealer
      ensures Outcome(View(), r) == Seams.DealerReceiveAck(kit, old(View()), playerBls, ackBytes)
    {
      var playerKey := kit.dkg.decodePubkey(playerBls);
      if playerKey.None? { return Err(DkgFailed); }
      var ack := kit.dkg.decodeAck(ackBytes);
      if ack.None? { return Err(DkgFailed); }
      if dealer.None? { return Err(DkgSeamOrder); }
      var (dealer', accepted) := kit.dkg.receiveAck(dealer.value, playerKey.value, ack.value);
      dealer := Some(dealer');
      if !accepted { return Err(DkgFailed); }
      return Ok(());
    }

    method DealerFinalize(kit: Kit) returns (r: Tee<Bytes>)
      modifies this`dealer
      ensures Outcome(View(), r) == Seams.DealerFinalize(kit, old(View()))
    {
      if dealer.None? { return Err(DkgSeamOrder); }
      var taken := dealer.value;
      dealer := None;
      return Ok(kit.dkg.dealerFinalize(taken));
    }

    method PlayerFinalize(kit: Kit, signedLogs: seq<Bytes>, rng: Bytes) returns (r: Tee<GroupPublic>)
      modifies this`player, this`recoveredShare, this`groupOutput
      ensures Outcome(View(), r) == Seams.PlayerFinalize(kit, old(View()), signedLogs, rng)
    {
      if |recipients| == 0 || |recipients| >= TWO_32 { return Err(DkgFailed); }
      var max := |recipients|;
      var logs: seq<(Bytes, Bytes)> := [];
      ghost var all := CheckLogs(kit.dkg, info, max, signedLogs, 0);
      for i := 0 to |signedLogs|
        invariant all == Prepend(logs, CheckLogs(kit.dkg, info, max, signedLogs, i))
        invariant View() == old(View())
      {
        var signed := kit.dkg.decodeSignedLog(max, signedLogs[i]);
        if signed.None? { return Err(DkgFailed); }
        var entry := kit.dkg.checkLog(info, signed.value);
        if entry.None? { return Err(DkgFailed); }
        PrependAssociates(logs, [entry.value], CheckLogs(kit.dkg, info, max, signedLogs, i + 1));
        logs := logs + [entry.value];
      }
      if player.None? { return Err(DkgSeamOrder); }
      var taken := player.value;
      player := None;
      var f := kit.dkg.playerFinalize(rng, info, taken, logs);
      if f.None? { return Err(DkgFailed); }
      groupOutput := Some(f.value.output);
      recoveredShare := Some(f.value.share);
      return Ok(GroupPublic(f.value.output, kit.dkg.keccak256(f.value.share)));
    }

    method OfferPartialsSealed(kit: Kit, draw: nat -> Draw) returns (r: Tee<seq<(Bytes, Bytes)>>)
      ensures r == OfferPartials(kit, View(), draw)
    {
      if recoveredShare.None? { return Err(DkgSeamOrder); }
      var partial := kit.dkg.signOffer(recoveredShare.value);
      var out: seq<(Bytes, Bytes)> := [];
      ghost var all := SealPartials(kit.crypto, partial, recipients, draw, 0);
      for i := 0 to |recipients|
        invariant all == Prepend(out, SealPartials(kit.crypto, partial, recipients, draw, i))
      {
        var blob := EncryptShare(kit.crypto, recipients[i].encKey, partial, draw(i));
        if blob.Err? { return Err(blob.error); }
        var entry := (recipients[i].pubkey, ToBytes(blob.value));
        PrependAssociates(out, [entry], SealPartials(kit.crypto, partial, recipients, draw, i + 1));
        out := out + [entry];
      }
      return Ok(out);
    }

    method RecoverOfferSecret(kit: Kit, blobs: seq<Bytes>, chainId: Key32, epoch: U64) returns (r: Tee<OfferKey>)
      ensures r == RecoverOffer(kit, View(), blobs, chainId, epoch)
    {
      if groupOutput.None? { return Err(DkgSeamOrder); }
      var partials: seq<Bytes> := [];
      ghost var all := OpenPartials(kit, encSecret, blobs, 0);
      for i := 0 to |blobs|
        invariant all == Prepend(partials, OpenPartials(kit, encSecret, blobs, i))
      {
        var partial := OpenPartial(kit, encSecret, blobs[i]);
        if partial.Err? { return Err(partial.error); }
        PrependAssociates(partials, [partial.value], OpenPartials(kit, encSecret, blobs, i + 1));
        partials := partials + [partial.value];
      }
      var sig := kit.dkg.recoverSignature(groupOutput.value, partials);
      if sig.None? { return Err(DkgFailed); }
      return KeyFromGroupSig(kit.crypto, sig.value, chainId, epoch);
    }
  }
}
