/** What each DKG seam (A to F) does to one enclave's ceremony state. */
module DkgSeams {
  import opened Base
  import opened ShareCrypto
  import opened ByteOrder
  import OfferBatch

  datatype Dealt = Dealt(dealer: Bytes, pubMsg: Bytes, privMsgs: seq<(Bytes, Bytes)>)
  datatype Finalized = Finalized(output: Bytes, share: Bytes)

  /** The Commonware DKG and threshold library. A foreign object is its encoding; its random source is an argument. */
  datatype Commonware = Commonware(
    decodePubkey: Bytes -> Option<Bytes>,
    makeInfo: (U64, seq<Bytes>) -> Option<Bytes>,
    playerNew: (Bytes, Bytes) -> Option<Bytes>,
    dealerStart: (Bytes, Bytes, Bytes) -> Option<Dealt>,
    decodePubMsg: (nat, Bytes) -> Option<Bytes>,
    decodePrivMsg: Bytes -> Option<Bytes>,
    dealerMessage: (Bytes, Bytes, Bytes, Bytes) -> (Bytes, Option<Bytes>),
    decodeAck: Bytes -> Option<Bytes>,
    receiveAck: (Bytes, Bytes, Bytes) -> (Bytes, bool),
    dealerFinalize: Bytes -> Bytes,
    decodeSignedLog: (nat, Bytes) -> Option<Bytes>,
    checkLog: (Bytes, Bytes) -> Option<(Bytes, Bytes)>,
    playerFinalize: (Bytes, Bytes, Bytes, seq<(Bytes, Bytes)>) -> Option<Finalized>,
    signOffer: Bytes -> Bytes,
    decodePartial: Bytes -> Option<Bytes>,
    recoverSignature: (Bytes, seq<Bytes>) -> Option<Bytes>,
    keccak256: Bytes -> Key32)

  datatype Kit = Kit(crypto: Primitives, dkg: Commonware, readers: OfferBatch.Readers)

  ghost predicate AllValid(valid: (Bytes, Bytes) -> bool, output: Bytes, partials: seq<Bytes>) {
    forall i :: 0 <= i < |partials| ==> valid(output, partials[i])
  }

  /** Any quorum of valid partials of one group gives one signature, and a finalized share signs validly. */
  ghost predicate ThresholdLaw(c: Commonware, valid: (Bytes, Bytes) -> bool) {
    && (forall g: Bytes, s: seq<Bytes>, t: seq<Bytes> ::
          AllValid(valid, g, s) && AllValid(valid, g, t)
          && c.recoverSignature(g, s).Some? && c.recoverSignature(g, t).Some? ==>
          c.recoverSignature(g, s) == c.recoverSignature(g, t))
    && (forall rng: Bytes, info: Bytes, player: Bytes, logs: seq<(Bytes, Bytes)> ::
          c.playerFinalize(rng, info, player, logs).Some? ==>
          SignsFor(c, valid, c.playerFinalize(rng, info, player, logs).value))
  }

  ghost predicate SignsFor(c: Commonware, valid: (Bytes, Bytes) -> bool, f: Finalized) {
    var q := c.decodePartial(c.signOffer(f.share));
    q.Some? && valid(f.output, q.value)
  }

  /** The operating-system randomness one request may consume. */
  datatype Randomness = Randomness(rng: Bytes, draw: nat -> Draw)

  // ----- Ceremony info -----

  datatype Recipient = Recipient(pubkey: Bytes, encKey: Key32)

  predicate Distinct(s: seq<Bytes>) {
    forall i, j :: 0 <= i < j < |s| ==> s[i] != s[j]
  }

  predicate AllDecode(c: Commonware, bls: seq<Bytes>) {
    forall i :: 0 <= i < |bls| ==> c.decodePubkey(bls[i]).Some?
  }

  function DecodeKeys(c: Commonware, bls: seq<Bytes>): (r: seq<Bytes>)
    requires AllDecode(c, bls)
  {
    seq(|bls|, i requires 0 <= i < |bls| => c.decodePubkey(bls[i]).value)
  }

  datatype CeremonyInfo = CeremonyInfo(info: Bytes, pubkeys: seq<Bytes>)

  /** Decode the participants, sort them by encoding, and build the info over the set. */
  function BuildCeremonyInfo(c: Commonware, round: U64, bls: seq<Bytes>): (r: Tee<CeremonyInfo>) {
    if !AllDecode(c, bls) then Err(DkgFailed)
    else
      var keys := Sort(DecodeKeys(c, bls));
      if !Distinct(keys) then Err(DkgFailed)
      else
        match c.makeInfo(round, keys)
        case None => Err(DkgFailed)
        case Some(info) => Ok(CeremonyInfo(info, keys))
  }

  /** The key announced with `pk`: the last one wins, as in a map built by insertion. */
  function EncKeyFor(bls: seq<Bytes>, enc: seq<Key32>, pk: Bytes): (r: Option<Key32>)
    requires |bls| == |enc|
  {
    if bls == [] then None
    else if bls[|bls| - 1] == pk then Some(enc[|enc| - 1])
    else EncKeyFor(bls[..|bls| - 1], enc[..|enc| - 1], pk)
  }

  function PairKeys(pubkeys: seq<Bytes>, bls: seq<Bytes>, enc: seq<Key32>): (r: Tee<seq<Recipient>>)
    requires |bls| == |enc|
  {
    if pubkeys == [] then Ok([])
    else
      match EncKeyFor(bls, enc, pubkeys[0])
      case None => Err(DkgFailed)
      case Some(e) => Prepend([Recipient(pubkeys[0], e)], PairKeys(pubkeys[1..], bls, enc))
  }

  function Prepend<T>(front: seq<T>, rest: Tee<seq<T>>): (r: Tee<seq<T>>)
    ensures front == [] ==> r == rest
    ensures rest == Ok([]) ==> r == Ok(front)
  {
    match rest
    case Err(e) => Err(e)
    case Ok(tail) =>
      assert [] + tail == tail && front + [] == front;
      Ok(front + tail)
  }

  // ----- Session state and the effect of each seam -----

  datatype Session = Session(
    info: Bytes, signingKey: Bytes, encSecret: Key32, recipients: seq<Recipient>,
    dealer: Option<Bytes>, player: Option<Bytes>, share: Option<Bytes>, output: Option<Bytes>)

  /** Share and group output come together, and only once the player is consumed. */
  predicate SessionInv(s: Session) {
    && (s.share.Some? <==> s.output.Some?)
    && (s.share.Some? ==> s.player.None?)
  }

  datatype Outcome<+T> = Outcome(session: Session, reply: Tee<T>)

  function NewSession(c: Commonware, info: Bytes, signingKey: Bytes, encSecret: Key32, recipients: seq<Recipient>)
    : (r: Tee<Session>)
  {
    match c.playerNew(info, signingKey)
    case None => Err(DkgFailed)
    case Some(player) => Ok(Session(info, signingKey, encSecret, recipients, None, Some(player), None, None))
  }

  function FindRecipient(recipients: seq<Recipient>, pk: Bytes): (r: Option<Key32>) {
    if recipients == [] then None
    else if recipients[0].pubkey == pk then Some(recipients[0].encKey)
    else FindRecipient(recipients[1..], pk)
  }

  function SealShares(p: Primitives, recipients: seq<Recipient>, msgs: seq<(Bytes, Bytes)>, draw: nat -> Draw, i: nat)
    : (r: Tee<seq<(Bytes, Bytes)>>)
    requires i <= |msgs|
    decreases |msgs| - i
  {
    if i == |msgs| then Ok([])
    else
      match FindRecipient(recipients, msgs[i].0)
      case None => Err(DkgFailed)
      case Some(encPub) =>
        match EncryptShare(p, encPub, msgs[i].1, draw(i))
        case Err(e) => Err(e)
        case Ok(blob) => Prepend([(msgs[i].0, ToBytes(blob))], SealShares(p, recipients, msgs, draw, i + 1))
  }

  datatype Dealing = Dealing(pubMsg: Bytes, sealedShares: seq<(Bytes, Bytes)>)

  /** Seam A. The dealer is resident before any share is sealed, so a sealing failure leaves it in place. */
  function StartDealer(kit: Kit, s: Session, rnd: Randomness): (r: Outcome<Dealing>) {
    if s.dealer.Some? then Outcome(s, Err(DkgSeamOrder))
    else
      match kit.dkg.dealerStart(rnd.rng, s.info, s.signingKey)
      case None => Outcome(s, Err(DkgFailed))
      case Some(d) =>
        Outcome(s.(dealer := Some(d.dealer)),
                match SealShares(kit.crypto, s.recipients, d.privMsgs, rnd.draw, 0)
                case Err(e) => Err(e)
                case Ok(shares) => Ok(Dealing(d.pubMsg, shares)))
  }

  function MaxPlayers(s: Session): (r: Tee<nat>) {
    if 0 < |s.recipients| < TWO_32 then Ok(|s.recipients|) else Err(DkgFailed)
  }

  function OpenPrivMsg(kit: Kit, encSecret: Key32, sealedShare: Bytes): (r: Tee<Bytes>) {
    match FromBytes(sealedShare)
    case Err(e) => Err(e)
    case Ok(blob) =>
      match DecryptShare(kit.crypto, encSecret, blob)
      case Err(e) => Err(e)
      case Ok(pt) =>
        match kit.dkg.decodePrivMsg(pt)
        case None => Err(DkgFailed)
        case Some(msg) => Ok(msg)
  }

  /** Seam B. */
  function PlayerIngest(kit: Kit, s: Session, dealerBls: Bytes, pubMsg: Bytes, sealedShare: Bytes)
    : (r: Outcome<Option<Bytes>>)
  {
    match kit.dkg.decodePubkey(dealerBls)
    case None => Outcome(s, Err(DkgFailed))
    case Some(dealer) =>
      match MaxPlayers(s)
      case Err(e) => Outcome(s, Err(e))
      case Ok(max) =>
        match kit.dkg.decodePubMsg(max, pubMsg)
        case None => Outcome(s, Err(DkgFailed))
        case Some(pub) =>
          match OpenPrivMsg(kit, s.encSecret, sealedShare)
          case Err(e) => Outcome(s, Err(e))
          case Ok(priv) =>
            match s.player
            case None => Outcome(s, Err(DkgSeamOrder))
            case Some(player) =>
              var (player', ack) := kit.dkg.dealerMessage(player, dealer, pub, priv);
              Outcome(s.(player := Some(player')), Ok(ack))
  }

  /** Seam C. */
  function DealerReceiveAck(kit: Kit, s: Session, playerBls: Bytes, ackBytes: Bytes): (r: Outcome<()>) {
    match kit.dkg.decodePubkey(playerBls)
    case None => Outcome(s, Err(DkgFailed))
    case Some(player) =>
      match kit.dkg.decodeAck(ackBytes)
      case None => Outcome(s, Err(DkgFailed))
      case Some(ack) =>
        match s.dealer
        case None => Outcome(s, Err(DkgSeamOrder))
        case Some(dealer) =>
          var (dealer', accepted) := kit.dkg.receiveAck(dealer, player, ack);
          Outcome(s.(dealer := Some(dealer')), if accepted then Ok(()) else Err(DkgFailed))
  }

  /** Seam D. Consumes the dealer. */
  function DealerFinalize(kit: Kit, s: Session): (r: Outcome<Bytes>) {
    match s.dealer
    case None => Outcome(s, Err(DkgSeamOrder))
    case Some(dealer) => Outcome(s.(dealer := None), Ok(kit.dkg.dealerFinalize(dealer)))
  }

  function CheckLogs(c: Commonware, info: Bytes, max: nat, logs: seq<Bytes>, i: nat): (r: Tee<seq<(Bytes, Bytes)>>)
    requires i <= |logs|
    decreases |logs| - i
  {
    if i == |logs| then Ok([])
    else
      match c.decodeSignedLog(max, logs[i])
      case None => Err(DkgFailed)
      case Some(signed) =>
        match c.checkLog(info, signed)
        case None => Err(DkgFailed)
        case Some(entry) => Prepend([entry], CheckLogs(c, info, max, logs, i + 1))
  }

  datatype GroupPublic = GroupPublic(groupPublic: Bytes, shareCommitment: Key32)

  /** Seam E. The player is consumed before the recovery that can fail. */
  function PlayerFinalize(kit: Kit, s: Session, signedLogs: seq<Bytes>, rng: Bytes): (r: Outcome<GroupPublic>) {
    match MaxPlayers(s)
    case Err(e) => Outcome(s, Err(e))
    case Ok(max) =>
      match CheckLogs(kit.dkg, s.info, max, signedLogs, 0)
      case Err(e) => Outcome(s, Err(e))
      case Ok(logs) =>
        match s.player
        case None => Outcome(s, Err(DkgSeamOrder))
        case Some(player) =>
          match kit.dkg.playerFinalize(rng, s.info, player, logs)
          case None => Outcome(s.(player := None), Err(DkgFailed))
          case Some(f) =>
            Outcome(s.(player := None, share := Some(f.share), output := Some(f.output)),
                    Ok(GroupPublic(f.output, kit.dkg.keccak256(f.share))))
  }

  function SealPartials(p: Primitives, partial: Bytes, recipients: seq<Recipient>, draw: nat -> Draw, i: nat)
    : (r: Tee<seq<(Bytes, Bytes)>>)
    requires i <= |recipients|
    decreases |recipients| - i
  {
    if i == |recipients| then Ok([])
    else
      match EncryptShare(p, recipients[i].encKey, partial, draw(i))
      case Err(e) => Err(e)
      case Ok(blob) =>
        Prepend([(recipients[i].pubkey, ToBytes(blob))], SealPartials(p, partial, recipients, draw, i + 1))
  }

  /** Seam F, signer side. */
  function OfferPartials(kit: Kit, s: Session, draw: nat -> Draw): (r: Tee<seq<(Bytes, Bytes)>>) {
    match s.share
    case None => Err(DkgSeamOrder)
    case Some(share) => SealPartials(kit.crypto, kit.dkg.signOffer(share), s.recipients, draw, 0)
  }

  function OpenPartials(kit: Kit, encSecret: Key32, blobs: seq<Bytes>, i: nat): (r: Tee<seq<Bytes>>)
    requires i <= |blobs|
    decreases |blobs| - i
  {
    if i == |blobs| then Ok([])
    else
      match OpenPartial(kit, encSecret, blobs[i])
      case Err(e) => Err(e)
      case Ok(partial) => Prepend([partial], OpenPartials(kit, encSecret, blobs, i + 1))
  }

  function OpenPartial(kit: Kit, encSecret: Key32, wire: Bytes): (r: Tee<Bytes>) {
    match FromBytes(wire)
    case Err(e) => Err(e)
    case Ok(blob) =>
      match DecryptShare(kit.crypto, encSecret, blob)
      case Err(e) => Err(e)
      case Ok(pt) =>
        match kit.dkg.decodePartial(pt)
        case None => Err(DkgFailed)
        case Some(partial) => Ok(partial)
  }

  /** The resident offer key. */
  datatype OfferKey = OfferKey(secret: Key32, public: Key32, groupSig: Bytes)

  /** The offer key a group signature yields under a chain id and epoch. */
  function KeyFromGroupSig(p: Primitives, groupSig: Bytes, chainId: Key32, epoch: U64): (r: Tee<OfferKey>) {
    match DeriveFromGroupSig(p, groupSig, chainId, epoch)
    case Err(e) => Err(e)
    case Ok(pair) => Ok(OfferKey(pair.secret, pair.public, groupSig))
  }

  /** Seam F, recovery side. Reads the session and changes nothing. */
  function RecoverOffer(kit: Kit, s: Session, blobs: seq<Bytes>, chainId: Key32, epoch: U64): (r: Tee<OfferKey>) {
    match s.output
    case None => Err(DkgSeamOrder)
    case Some(output) =>
      match OpenPartials(kit, s.encSecret, blobs, 0)
      case Err(e) => Err(e)
      case Ok(partials) =>
        match kit.dkg.recoverSignature(output, partials)
        case None => Err(DkgFailed)
        case Some(sig) => KeyFromGroupSig(kit.crypto, sig, chainId, epoch)
  }

  lemma PrependAssociates<T>(a: seq<T>, b: seq<T>, rest: Tee<seq<T>>)
    ensures Prepend(a, Prepend(b, rest)) == Prepend(a + b, rest)
  {
    if rest.Ok? {
      assert a + (b + rest.value) == a + b + rest.value;
    }
  }
}
