/** Well-formed keys in every reachable state, and agreement of all enclaves on one key. */
module NetworkAgreement {
  import opened Base
  import opened ShareCrypto
  import opened SealedBlob
  import opened DkgSeams
  import opened EnclaveProtocol
  import opened Network
  import opened NetworkRuns

  // ----- Well-formed keys -----

  /** Secret and public key both derive from the group signature, under the origin's chain id and epoch. */
  ghost predicate WellFormed(kit: Kit, r: Resident) {
    KeyFromGroupSig(kit.crypto, r.key.groupSig, r.origin.chainId, r.origin.epoch) == Ok(r.key)
  }

  /** Every key the machine holds: resident, or in a file at any path. */
  ghost predicate NodeWellFormed(kit: Kit, n: Node) {
    && (forall f :: 0 <= f < |n.disk.files| && n.disk.files[f].Whole? ==>
          WellFormed(kit, n.disk.files[f].blob.record.resident))
    && (n.process.Some? && n.process.value.resident.Some? ==> WellFormed(kit, n.process.value.resident.value))
  }

  ghost predicate NetWellFormed(kit: Kit, net: Net) {
    forall n :: n in net.nodes ==> NodeWellFormed(kit, net.nodes[n])
  }

  /** A boot that opens a blob under another sealing key or chain id than it was sealed under: an AEAD forgery. */
  predicate Forges(kit: Kit, net: Net, ev: Event) {
    && ev.Boot? && ev.boot.Some? && ev.sealing.Some?
    && ev.node in net.nodes && net.nodes[ev.node].process.None? && RootBlob(net.nodes[ev.node].disk).Some?
    && var blob := RootBlob(net.nodes[ev.node].disk).value;
       && (ev.sealing.value.key != blob.record.sealingKey || ev.boot.value.chainId != blob.record.chainId)
       && Unseal(kit.crypto, blob.bytes, ev.sealing.value.key, ev.boot.value.chainId, ev.boot.value.isvSvn).Ok?
  }

  ghost predicate ForgeryFree(kit: Kit, net: Net, evs: seq<Event>)
    decreases |evs|
  {
    evs != [] ==> !Forges(kit, net, evs[0]) && ForgeryFree(kit, Step(kit, net, evs[0]), evs[1..])
  }

  /** Without forgery, a boot restores what the blob records or nothing. */
  lemma RestoreIsHonest(kit: Kit, disk: Disk, boot: BootConfig, sealing: SealingKey)
    requires Lawful(kit.crypto) && RootBlob(disk).Some? && BlobOk(kit, RootBlob(disk).value)
    requires sealing.key == RootBlob(disk).value.record.sealingKey
    requires boot.chainId == RootBlob(disk).value.record.chainId
    ensures var record := RootBlob(disk).value.record;
            Restore(kit, disk, Some(boot), Some(sealing))
              == if boot.isvSvn >= record.isvSvn then Some(record.resident) else None
  {
    var b := RootBlob(disk).value;
    if boot.isvSvn >= b.record.isvSvn {
      RestoreGivesSealedKey(kit, disk, boot, sealing);
    } else {
      var key := b.record.resident.key;
      UnsealRefusals(kit.crypto, Payload(key.secret, key.groupSig), b.header, b.record.sealingKey, b.record.chainId,
                     sealing.key, boot.chainId, boot.isvSvn);
    }
  }

  /** A boot's key comes from the file at the sealed path. */
  lemma BootKeepsResident(kit: Kit, net: Net, ev: Event)
    requires Lawful(kit.crypto) && NetOk(kit, net) && ev.Boot? && !Forges(kit, net, ev)
    requires ev.node in net.nodes && net.nodes[ev.node].process.None?
    ensures var r := Restore(kit, net.nodes[ev.node].disk, ev.boot, ev.sealing);
            r.Some? ==> Records(net.nodes[ev.node].disk, r.value)
  {
    var disk := net.nodes[ev.node].disk;
    if RootBlob(disk).Some? && ev.boot.Some? && ev.sealing.Some? {
      var b := RootBlob(disk).value;
      assert NodeOk(kit, net.nodes[ev.node]);
      assert disk.files[disk.root.value] == Whole(b);
      if ev.sealing.value.key == b.record.sealingKey && ev.boot.value.chainId == b.record.chainId {
        RestoreIsHonest(kit, disk, ev.boot.value, ev.sealing.value);
      }
    }
  }

  /** Some file holds a blob of this key. */
  ghost predicate Records(disk: Disk, r: Resident) {
    exists f :: 0 <= f < |disk.files| && disk.files[f].Whole? && disk.files[f].blob.record.resident == r
  }

  /** Whatever is in a file after a step was in a file before it, or is the resident key. */
  lemma FileProvenance(kit: Kit, n: Node, ev: Event, f: nat)
    requires NodeOk(kit, n) && f < |NodeStep(kit, n, ev).disk.files| && NodeStep(kit, n, ev).disk.files[f].Whole?
    ensures var r := NodeStep(kit, n, ev).disk.files[f].blob.record.resident;
            Records(n.disk, r) || (n.process.Some? && n.process.value.resident == Some(r))
  {
    var n' := NodeStep(kit, n, ev);
    if f < |n.disk.files| && n'.disk.files[f] == n.disk.files[f] {
      assert n.disk.files[f].Whole?;
    } else {
      assert ev.FillTmp? && Running(n, ev.conn) && ConnOk(kit, n, ev.conn);
    }
  }

  /** Where a machine's key can come from in one step: it had it, its disk had it, or the request derived it. */
  lemma KeyProvenance(kit: Kit, net: Net, ev: Event)
    requires Lawful(kit.crypto) && NetOk(kit, net) && !Forges(kit, net, ev) && ev.node in net.nodes
    ensures var n, n' := net.nodes[ev.node], NodeStep(kit, net.nodes[ev.node], ev);
            n'.process.Some? && n'.process.value.resident.Some? ==>
              || (n.process.Some? && n.process.value.resident == n'.process.value.resident)
              || Records(n.disk, n'.process.value.resident.value)
              || (&& ev.Serve? && Running(n, ev.conn) && n.process.value.resident.None?
                  && ReplyOn(kit, n.process.value, ev.conn, ev.req, ev.rnd).state.slot
                       == Some(n'.process.value.resident.value.key)
                  && n'.process.value.resident.value.origin == OriginOf(ev.req))
  {
    var n := net.nodes[ev.node];
    if ev.Boot? && n.process.None? { BootKeepsResident(kit, net, ev); }
  }

  lemma StepKeepsWellFormed(kit: Kit, net: Net, ev: Event)
    requires Lawful(kit.crypto) && NetOk(kit, net) && NetWellFormed(kit, net) && !Forges(kit, net, ev)
    ensures NetWellFormed(kit, Step(kit, net, ev))
  {
    if ev.node in net.nodes {
      var n := net.nodes[ev.node];
      assert NodeWellFormed(kit, n) && NodeOk(kit, n);
      KeyProvenance(kit, net, ev);
      var n' := NodeStep(kit, n, ev);
      forall f | 0 <= f < |n'.disk.files| && n'.disk.files[f].Whole?
        ensures WellFormed(kit, n'.disk.files[f].blob.record.resident)
      {
        FileProvenance(kit, n, ev, f);
      }
      if ev.Serve? && Running(n, ev.conn) {
        var p := n.process.value;
        SlotIsWriteOnce(kit, p.keys, State(Slot(p), p.conns[ev.conn].store), ev.req, ev.rnd);
      }
    }
  }

  /** In every reachable state of a forgery-free run, every resident and every sealed key is well formed. */
  lemma {:induction false} KeysStayWellFormed(kit: Kit, net: Net, evs: seq<Event>)
    requires Lawful(kit.crypto) && NetOk(kit, net) && NetWellFormed(kit, net) && ForgeryFree(kit, net, evs)
    ensures NetWellFormed(kit, Run(kit, net, evs))
    decreases |evs|
  {
    if evs != [] {
      StepKeepsWellFormed(kit, net, evs[0]);
      RunKeepsOk(kit, net, [evs[0]]);
      RunOne(kit, net, evs[0]);
      KeysStayWellFormed(kit, Step(kit, net, evs[0]), evs[1..]);
    }
  }

  // ----- Sessions sign for their group, and what they emit opens to valid partials -----

  ghost predicate SessionSigns(kit: Kit, valid: (Bytes, Bytes) -> bool, s: Session) {
    s.output.Some? ==> s.share.Some? && SignsFor(kit.dkg, valid, Finalized(s.output.value, s.share.value))
  }

  ghost predicate StoreSigns(kit: Kit, valid: (Bytes, Bytes) -> bool, store: Store) {
    forall id :: id in store ==> SessionSigns(kit, valid, store[id])
  }

  ghost predicate NodeSigns(kit: Kit, valid: (Bytes, Bytes) -> bool, n: Node) {
    forall c :: Running(n, c) ==> StoreSigns(kit, valid, n.process.value.conns[c].store)
  }

  lemma SeamKeepsSigning(kit: Kit, valid: (Bytes, Bytes) -> bool, s: Session, req: Request, rnd: Randomness)
    requires ThresholdLaw(kit.dkg, valid) && IsSeam(req) && SessionSigns(kit, valid, s)
    ensures SessionSigns(kit, valid, SeamOutcome(kit, s, req, rnd).0)
  {}

  lemma DispatchKeepsSigning(kit: Kit, valid: (Bytes, Bytes) -> bool, keys: EnclaveKeys, st: State, req: Request,
                             rnd: Randomness)
    requires ThresholdLaw(kit.dkg, valid) && StoreSigns(kit, valid, st.store)
    ensures StoreSigns(kit, valid, Dispatch(kit, keys, st, req, rnd).state.store)
  {
    if IsSeam(req) && req.ceremony in st.store {
      SeamKeepsSigning(kit, valid, st.store[req.ceremony], req, rnd);
    }
  }

  lemma StepKeepsSigning(kit: Kit, valid: (Bytes, Bytes) -> bool, n: Node, ev: Event)
    requires ThresholdLaw(kit.dkg, valid) && NodeSigns(kit, valid, n)
    ensures NodeSigns(kit, valid, NodeStep(kit, n, ev))
  {
    if ev.Serve? && Running(n, ev.conn) {
      var p := n.process.value;
      DispatchKeepsSigning(kit, valid, p.keys, State(Slot(p), p.conns[ev.conn].store), ev.req, ev.rnd);
    }
    var n' := NodeStep(kit, n, ev);
    forall c | Running(n', c) ensures StoreSigns(kit, valid, n'.process.value.conns[c].store) {
      assert Running(n, c) || n'.process.value.conns[c].store == map[];
    }
  }

  /** Whoever holds the recipient's secret opens the message to a valid partial of its group. */
  ghost predicate PartialOk(kit: Kit, valid: (Bytes, Bytes) -> bool, m: PartialMsg) {
    forall secret: Key32 :: kit.crypto.x25519Public(secret) == m.recipient ==>
      OpenPartial(kit, secret, m.wire).Ok? && valid(m.output, OpenPartial(kit, secret, m.wire).value)
  }

  lemma OnePartialOk(kit: Kit, valid: (Bytes, Bytes) -> bool, output: Bytes, partial: Bytes, recipient: Key32,
                     wire: Bytes)
    requires kit.dkg.decodePartial(partial).Some? && valid(output, kit.dkg.decodePartial(partial).value)
    requires OpensTo(kit.crypto, recipient, wire, partial)
    ensures PartialOk(kit, valid, PartialMsg(recipient, wire, output))
  {}

  lemma {:induction false} SealedPartialsOpen(p: Primitives, partial: Bytes, recipients: seq<Recipient>,
                                              draw: nat -> Draw, i: nat, k: nat)
    requires Lawful(p) && i <= k < |recipients| && SealPartials(p, partial, recipients, draw, i).Ok?
    ensures var out := SealPartials(p, partial, recipients, draw, i).value;
            |out| == |recipients| - i && OpensTo(p, recipients[k].encKey, out[k - i].1, partial)
    decreases k - i
  {
    SealedLength(p, partial, recipients, draw, i);
    if i < k {
      SealedPartialsOpen(p, partial, recipients, draw, i + 1, k);
    } else {
      EncryptedShareOpens(p, recipients[i].encKey, partial, draw(i));
    }
  }

  lemma {:induction false} SealedLength(p: Primitives, partial: Bytes, recipients: seq<Recipient>,
                                        draw: nat -> Draw, i: nat)
    requires i <= |recipients| && SealPartials(p, partial, recipients, draw, i).Ok?
    ensures |SealPartials(p, partial, recipients, draw, i).value| == |recipients| - i
    decreases |recipients| - i
  {
    if i < |recipients| { SealedLength(p, partial, recipients, draw, i + 1); }
  }

  lemma NewPartialsOk(kit: Kit, valid: (Bytes, Bytes) -> bool, net: Net, ev: Event, m: PartialMsg)
    requires Lawful(kit.crypto) && (ev.node in net.nodes ==> NodeSigns(kit, valid, net.nodes[ev.node]))
    requires m in NewPartials(kit, net, ev)
    ensures PartialOk(kit, valid, m)
  {
    var store := net.nodes[ev.node].process.value.conns[ev.conn].store;
    var s := store[ev.req.ceremony];
    assert SessionSigns(kit, valid, s);
    var out := Answer(kit, net, ev).value.sealed;
    var i :| 0 <= i < |out| && i < |s.recipients| && m == PartialMsg(s.recipients[i].encKey, out[i].1, s.output.value);
    var partial := kit.dkg.signOffer(s.share.value);
    SealedPartialsOpen(kit.crypto, partial, s.recipients, ev.rnd.draw, 0, i);
    OnePartialOk(kit, valid, s.output.value, partial, m.recipient, m.wire);
  }

  // ----- Agreement -----

  /** The key a network agrees on: its origin, and the DKG group whose signature it derives from. */
  datatype Accord = Accord(resident: Resident, group: Bytes)

  /** The group's one signature is the key's, and the key is well formed. */
  ghost predicate AccordOk(kit: Kit, valid: (Bytes, Bytes) -> bool, a: Accord) {
    && WellFormed(kit, a.resident)
    && forall partials: seq<Bytes> ::
         AllValid(valid, a.group, partials) && kit.dkg.recoverSignature(a.group, partials).Some? ==>
         kit.dkg.recoverSignature(a.group, partials).value == a.resident.key.groupSig
  }

  /** The threshold law makes any one valid recovery fix the group's signature. */
  lemma RecoveryFixesAccord(kit: Kit, valid: (Bytes, Bytes) -> bool, a: Accord, partials: seq<Bytes>)
    requires ThresholdLaw(kit.dkg, valid) && WellFormed(kit, a.resident)
    requires AllValid(valid, a.group, partials)
    requires kit.dkg.recoverSignature(a.group, partials) == Some(a.resident.key.groupSig)
    ensures AccordOk(kit, valid, a)
  {}

  /** A recovery gets partials of the agreed group sealed to its session, with the agreed chain id and epoch. */
  ghost predicate RecoveryRelayed(kit: Kit, net: Net, p: Process, c: nat, req: Request, a: Accord)
    requires c in p.conns
  {
    req.DkgRecoverTributeOffer? && req.ceremony in p.conns[c].store ==>
      var s := p.conns[c].store[req.ceremony];
      && s.output == Some(a.group)
      && (forall i :: 0 <= i < |req.sealedPartials| ==>
            PartialMsg(kit.crypto.x25519Public(s.encSecret), req.sealedPartials[i], a.group) in net.partials)
      && OriginOf(req) == a.resident.origin
  }

  /** A handoff also goes to the enclave it was sealed to, with the agreed chain id and epoch. */
  ghost predicate Relayed(kit: Kit, net: Net, p: Process, c: nat, req: Request, a: Accord)
    requires c in p.conns
  {
    && (req.IngestTributeOfferHandoff? ==>
          && (kit.crypto.x25519Public(p.keys.offerSecret), req.wire) in net.handoffs
          && OriginOf(req) == a.resident.origin)
    && RecoveryRelayed(kit, net, p, c, req, a)
  }

  /** The key a request on a connection would install. */
  function OfferedOn(kit: Kit, p: Process, c: nat, req: Request): (r: Tee<OfferKey>)
    requires c in p.conns
  {
    OfferedKey(kit, p.keys, State(Slot(p), p.conns[c].store), req)
  }

  /** The host relays honestly where it matters: a request that would install a key was relayed. Requests the enclave
      refuses may hold anything. */
  ghost predicate Honest(kit: Kit, net: Net, ev: Event, a: Accord) {
    && !Forges(kit, net, ev)
    && (ev.Serve? && ev.node in net.nodes && Running(net.nodes[ev.node], ev.conn) ==>
          var p := net.nodes[ev.node].process.value;
          OfferedOn(kit, p, ev.conn, ev.req).Ok? ==> Relayed(kit, net, p, ev.conn, ev.req, a))
  }

  ghost predicate HonestRun(kit: Kit, net: Net, evs: seq<Event>, a: Accord)
    decreases |evs|
  {
    evs != [] ==> Honest(kit, net, evs[0], a) && HonestRun(kit, Step(kit, net, evs[0]), evs[1..], a)
  }

  ghost predicate NodeAgrees(n: Node, a: Accord) {
    && (forall f :: 0 <= f < |n.disk.files| && n.disk.files[f].Whole? ==>
          n.disk.files[f].blob.record.resident.key == a.resident.key)
    && (n.process.Some? && n.process.value.resident.Some? ==> n.process.value.resident.value.key == a.resident.key)
  }

  ghost predicate Agrees(kit: Kit, valid: (Bytes, Bytes) -> bool, net: Net, a: Accord) {
    && (forall n :: n in net.nodes ==> NodeAgrees(net.nodes[n], a) && NodeSigns(kit, valid, net.nodes[n]))
    && (forall h :: h in net.handoffs ==> OpensTo(kit.crypto, h.0, h.1, a.resident.key.groupSig))
    && (forall m :: m in net.partials ==> PartialOk(kit, valid, m))
  }

  lemma {:induction false} OpenedPartialsValid(kit: Kit, valid: (Bytes, Bytes) -> bool, secret: Key32,
                                               blobs: seq<Bytes>, group: Bytes, i: nat)
    requires i <= |blobs|
    requires forall k :: i <= k < |blobs| ==>
               PartialOk(kit, valid, PartialMsg(kit.crypto.x25519Public(secret), blobs[k], group))
    ensures OpenPartials(kit, secret, blobs, i).Ok?
    ensures AllValid(valid, group, OpenPartials(kit, secret, blobs, i).value)
    decreases |blobs| - i
  {
    if i < |blobs| {
      var m := PartialMsg(kit.crypto.x25519Public(secret), blobs[i], group);
      assert PartialOk(kit, valid, m) && m.wire == blobs[i];
      OpenedPartialsValid(kit, valid, secret, blobs, group, i + 1);
    }
  }

  /** An honestly relayed request can only offer the agreed key. */
  lemma OfferedKeyAgrees(kit: Kit, valid: (Bytes, Bytes) -> bool, net: Net, ev: Event, a: Accord)
    requires Lawful(kit.crypto) && AccordOk(kit, valid, a) && Agrees(kit, valid, net, a) && Honest(kit, net, ev, a)
    requires ev.Serve? && ev.node in net.nodes && Running(net.nodes[ev.node], ev.conn)
    ensures var offered := OfferedOn(kit, net.nodes[ev.node].process.value, ev.conn, ev.req);
            offered.Ok? ==> offered.value == a.resident.key
  {
    var p := net.nodes[ev.node].process.value;
    if OfferedOn(kit, p, ev.conn, ev.req).Ok? { RelayedKeyAgrees(kit, valid, net, p, ev.conn, ev.req, a); }
  }

  lemma RelayedKeyAgrees(kit: Kit, valid: (Bytes, Bytes) -> bool, net: Net, p: Process, c: nat, req: Request, a: Accord)
    requires Lawful(kit.crypto) && AccordOk(kit, valid, a) && Agrees(kit, valid, net, a)
    requires c in p.conns && Relayed(kit, net, p, c, req, a)
    ensures var offered := OfferedOn(kit, p, c, req); offered.Ok? ==> offered.value == a.resident.key
  {
    if req.IngestTributeOfferHandoff? {
      assert OpensTo(kit.crypto, kit.crypto.x25519Public(p.keys.offerSecret), req.wire, a.resident.key.groupSig);
    } else {
      RecoveredKeyAgrees(kit, valid, net, p, c, req, a);
    }
  }

  lemma RecoveredKeyAgrees(kit: Kit, valid: (Bytes, Bytes) -> bool, net: Net, p: Process, c: nat, req: Request,
                           a: Accord)
    requires AccordOk(kit, valid, a) && forall m :: m in net.partials ==> PartialOk(kit, valid, m)
    requires c in p.conns && RecoveryRelayed(kit, net, p, c, req, a) && !req.IngestTributeOfferHandoff?
    ensures var offered := OfferedOn(kit, p, c, req); offered.Ok? ==> offered.value == a.resident.key
  {
    if req.DkgRecoverTributeOffer? && req.ceremony in p.conns[c].store {
      OpenedPartialsValid(kit, valid, p.conns[c].store[req.ceremony].encSecret, req.sealedPartials, a.group, 0);
    }
  }

  lemma NewHandoffsOpen(kit: Kit, net: Net, ev: Event, a: Accord, h: (Key32, Bytes))
    requires Lawful(kit.crypto)
    requires ev.node in net.nodes && NodeAgrees(net.nodes[ev.node], a) && h in NewHandoffs(kit, net, ev)
    ensures OpensTo(kit.crypto, h.0, h.1, a.resident.key.groupSig)
  {
    var key := a.resident.key;
    if ev.req.SealTributeOfferHandoff? {
      EncryptedShareOpens(kit.crypto, ev.req.recipient, key.groupSig, ev.rnd.draw(0));
    } else {
      DeterministicShareOpens(kit.crypto, key.secret, ev.req.recipient, key.groupSig);
    }
  }

  lemma StepKeepsNodeAgreement(kit: Kit, valid: (Bytes, Bytes) -> bool, net: Net, ev: Event, a: Accord)
    requires Lawful(kit.crypto) && NetOk(kit, net)
    requires AccordOk(kit, valid, a) && Agrees(kit, valid, net, a) && Honest(kit, net, ev, a) && ev.node in net.nodes
    ensures NodeAgrees(NodeStep(kit, net.nodes[ev.node], ev), a)
  {
    KeyProvenance(kit, net, ev);
    var n := net.nodes[ev.node];
    assert NodeAgrees(n, a) && NodeOk(kit, n);
    var n' := NodeStep(kit, n, ev);
    forall f | 0 <= f < |n'.disk.files| && n'.disk.files[f].Whole?
      ensures n'.disk.files[f].blob.record.resident.key == a.resident.key
    {
      FileProvenance(kit, n, ev, f);
    }
    if ev.Serve? && Running(n, ev.conn) && n.process.value.resident.None? {
      OfferedKeyAgrees(kit, valid, net, ev, a);
      InstalledKeyWasOffered(kit, n.process.value, ev.conn, ev.req, ev.rnd);
    }
  }

  lemma InstalledKeyWasOffered(kit: Kit, p: Process, c: nat, req: Request, rnd: Randomness)
    requires c in p.conns && p.resident.None?
    ensures var slot := ReplyOn(kit, p, c, req, rnd).state.slot;
            slot.Some? ==> OfferedOn(kit, p, c, req) == Ok(slot.value)
  {}

  lemma StepKeepsAgreement(kit: Kit, valid: (Bytes, Bytes) -> bool, net: Net, ev: Event, a: Accord)
    requires Lawful(kit.crypto) && ThresholdLaw(kit.dkg, valid) && NetOk(kit, net)
    requires AccordOk(kit, valid, a) && Agrees(kit, valid, net, a) && Honest(kit, net, ev, a)
    ensures Agrees(kit, valid, Step(kit, net, ev), a)
  {
    if ev.node in net.nodes {
      StepKeepsNodeAgreement(kit, valid, net, ev, a);
      StepKeepsSigning(kit, valid, net.nodes[ev.node], ev);
      forall h | h in NewHandoffs(kit, net, ev) ensures OpensTo(kit.crypto, h.0, h.1, a.resident.key.groupSig) {
        NewHandoffsOpen(kit, net, ev, a, h);
      }
      forall m | m in NewPartials(kit, net, ev) ensures PartialOk(kit, valid, m) {
        NewPartialsOk(kit, valid, net, ev, m);
      }
    }
  }

  /** Network agreement: along any honestly relayed run, of any length and over any number of enclaves, every resident
      key and every sealed key is the agreed one: same group signature, secret and public key. */
  lemma {:induction false} RunKeepsAgreement(kit: Kit, valid: (Bytes, Bytes) -> bool, net: Net, evs: seq<Event>,
                                             a: Accord)
    requires Lawful(kit.crypto) && ThresholdLaw(kit.dkg, valid) && NetOk(kit, net)
    requires AccordOk(kit, valid, a) && Agrees(kit, valid, net, a) && HonestRun(kit, net, evs, a)
    ensures Agrees(kit, valid, Run(kit, net, evs), a)
    decreases |evs|
  {
    if evs != [] {
      StepKeepsAgreement(kit, valid, net, evs[0], a);
      RunKeepsOk(kit, net, [evs[0]]);
      RunOne(kit, net, evs[0]);
      RunKeepsAgreement(kit, valid, Step(kit, net, evs[0]), evs[1..], a);
    }
  }

  // ----- The registered public key -----

  ghost predicate NodeRegistered(n: Node, public: Key32) {
    && (forall f :: 0 <= f < |n.disk.files| && n.disk.files[f].Whole? ==>
          n.disk.files[f].blob.record.resident.key.public == public)
    && (n.process.Some? && n.process.value.resident.Some? ==> n.process.value.resident.value.key.public == public)
  }

  ghost predicate AllRegistered(kit: Kit, valid: (Bytes, Bytes) -> bool, net: Net, public: Key32) {
    && (forall n :: n in net.nodes ==> NodeRegistered(net.nodes[n], public) && NodeSigns(kit, valid, net.nodes[n]))
    && (forall m :: m in net.partials ==> PartialOk(kit, valid, m))
  }

  /** A request that would install a key names the registered public key, if it is an ingest, and otherwise was relayed.
      Of an ingest nothing else is asked: any blob, from anyone, with any chain id and epoch. */
  ghost predicate NamesRegistered(kit: Kit, net: Net, ev: Event, a: Accord) {
    && !Forges(kit, net, ev)
    && (ev.Serve? && ev.node in net.nodes && Running(net.nodes[ev.node], ev.conn) ==>
          var p := net.nodes[ev.node].process.value;
          OfferedOn(kit, p, ev.conn, ev.req).Ok? ==>
            && (ev.req.IngestTributeOfferHandoff? ==> ev.req.expectedPublic == a.resident.key.public)
            && RecoveryRelayed(kit, net, p, ev.conn, ev.req, a))
  }

  ghost predicate NamesRegisteredRun(kit: Kit, net: Net, evs: seq<Event>, a: Accord)
    decreases |evs|
  {
    evs != [] ==> NamesRegistered(kit, net, evs[0], a) && NamesRegisteredRun(kit, Step(kit, net, evs[0]), evs[1..], a)
  }

  lemma OfferedKeyIsRegistered(kit: Kit, valid: (Bytes, Bytes) -> bool, net: Net, ev: Event, a: Accord)
    requires AccordOk(kit, valid, a) && AllRegistered(kit, valid, net, a.resident.key.public)
    requires NamesRegistered(kit, net, ev, a)
    requires ev.Serve? && ev.node in net.nodes && Running(net.nodes[ev.node], ev.conn)
    ensures var offered := OfferedOn(kit, net.nodes[ev.node].process.value, ev.conn, ev.req);
            offered.Ok? ==> offered.value.public == a.resident.key.public
  {
    var p := net.nodes[ev.node].process.value;
    if OfferedOn(kit, p, ev.conn, ev.req).Ok? && !ev.req.IngestTributeOfferHandoff? {
      RecoveredKeyAgrees(kit, valid, net, p, ev.conn, ev.req, a);
    }
  }

  lemma StepKeepsNodeRegistered(kit: Kit, valid: (Bytes, Bytes) -> bool, net: Net, ev: Event, a: Accord)
    requires Lawful(kit.crypto) && NetOk(kit, net) && ev.node in net.nodes
    requires AccordOk(kit, valid, a) && AllRegistered(kit, valid, net, a.resident.key.public)
    requires NamesRegistered(kit, net, ev, a)
    ensures NodeRegistered(NodeStep(kit, net.nodes[ev.node], ev), a.resident.key.public)
  {
    KeyProvenance(kit, net, ev);
    var n := net.nodes[ev.node];
    assert NodeRegistered(n, a.resident.key.public) && NodeOk(kit, n);
    var n' := NodeStep(kit, n, ev);
    forall f | 0 <= f < |n'.disk.files| && n'.disk.files[f].Whole?
      ensures n'.disk.files[f].blob.record.resident.key.public == a.resident.key.public
    {
      FileProvenance(kit, n, ev, f);
    }
    if ev.Serve? && Running(n, ev.conn) && n.process.value.resident.None? {
      OfferedKeyIsRegistered(kit, valid, net, ev, a);
      InstalledKeyWasOffered(kit, n.process.value, ev.conn, ev.req, ev.rnd);
    }
  }

  lemma StepKeepsRegistered(kit: Kit, valid: (Bytes, Bytes) -> bool, net: Net, ev: Event, a: Accord)
    requires Lawful(kit.crypto) && ThresholdLaw(kit.dkg, valid) && NetOk(kit, net)
    requires AccordOk(kit, valid, a) && AllRegistered(kit, valid, net, a.resident.key.public)
    requires NamesRegistered(kit, net, ev, a)
    ensures AllRegistered(kit, valid, Step(kit, net, ev), a.resident.key.public)
  {
    if ev.node in net.nodes {
      StepKeepsNodeRegistered(kit, valid, net, ev, a);
      StepKeepsSigning(kit, valid, net.nodes[ev.node], ev);
      forall m | m in NewPartials(kit, net, ev) ensures PartialOk(kit, valid, m) {
        NewPartialsOk(kit, valid, net, ev, m);
      }
    }
  }

  /** No host installs a wrong key: along any run whose ingests name the registered public key and whose recoveries get
      the agreed group's partials, every resident and every stored public key is the registered one, whatever handoff
      blobs, chain ids and epochs the host passes on. */
  lemma {:induction false} RunKeepsRegistered(kit: Kit, valid: (Bytes, Bytes) -> bool, net: Net, evs: seq<Event>,
                                              a: Accord)
    requires Lawful(kit.crypto) && ThresholdLaw(kit.dkg, valid) && NetOk(kit, net)
    requires AccordOk(kit, valid, a) && AllRegistered(kit, valid, net, a.resident.key.public)
    requires NamesRegisteredRun(kit, net, evs, a)
    ensures AllRegistered(kit, valid, Run(kit, net, evs), a.resident.key.public)
    decreases |evs|
  {
    if evs != [] {
      StepKeepsRegistered(kit, valid, net, evs[0], a);
      RunKeepsOk(kit, net, [evs[0]]);
      RunOne(kit, net, evs[0]);
      RunKeepsRegistered(kit, valid, Step(kit, net, evs[0]), evs[1..], a);
    }
  }

  /** Machines that never ran, with empty disks and nothing relayed. */
  ghost predicate Fresh(net: Net) {
    && net.handoffs == {} && net.partials == {}
    && forall n :: n in net.nodes ==> net.nodes[n] == Node(EMPTY_DISK, None)
  }

  lemma FreshStart(kit: Kit, valid: (Bytes, Bytes) -> bool, net: Net, a: Accord)
    requires Fresh(net)
    ensures NetOk(kit, net) && NetWellFormed(kit, net)
    ensures Agrees(kit, valid, net, a) && AllRegistered(kit, valid, net, a.resident.key.public)
    ensures forall n :: n in net.nodes ==> SafeWrites(net.nodes[n])
  {}

  /** From a fresh network: every reachable key is well formed; an honestly relayed run reaches agreement only, and one
      whose ingests name the registered public key reaches that key only; and a machine on which connections seal one at
      a time has a whole sealed file whenever it has one. */
  lemma ReachableKeys(kit: Kit, valid: (Bytes, Bytes) -> bool, net: Net, evs: seq<Event>, a: Accord)
    requires Lawful(kit.crypto) && ThresholdLaw(kit.dkg, valid) && Fresh(net)
    ensures NetOk(kit, Run(kit, net, evs))
    ensures ForgeryFree(kit, net, evs) ==> NetWellFormed(kit, Run(kit, net, evs))
    ensures AccordOk(kit, valid, a) && HonestRun(kit, net, evs, a) ==> Agrees(kit, valid, Run(kit, net, evs), a)
    ensures AccordOk(kit, valid, a) && NamesRegisteredRun(kit, net, evs, a) ==>
              AllRegistered(kit, valid, Run(kit, net, evs), a.resident.key.public)
    ensures forall n :: n in net.nodes && SoloRun(kit, net, evs, n) ==>
              n in Run(kit, net, evs).nodes && RootWhole(Run(kit, net, evs).nodes[n].disk)
  {
    FreshStart(kit, valid, net, a);
    RunKeepsOk(kit, net, evs);
    if ForgeryFree(kit, net, evs) { KeysStayWellFormed(kit, net, evs); }
    if AccordOk(kit, valid, a) && HonestRun(kit, net, evs, a) { RunKeepsAgreement(kit, valid, net, evs, a); }
    if AccordOk(kit, valid, a) && NamesRegisteredRun(kit, net, evs, a) { RunKeepsRegistered(kit, valid, net, evs, a); }
    forall n | n in net.nodes && SoloRun(kit, net, evs, n)
      ensures n in Run(kit, net, evs).nodes && RootWhole(Run(kit, net, evs).nodes[n].disk)
    {
      SoloRunEndsWhole(kit, net, evs, n);
    }
  }

  /** A handoff reaches its goal: an enclave without a key that is given a relayed handoff addressed to it, with the
      agreed origin and the on-chain public key, ends up with the agreed key. */
  lemma HandoffDelivers(kit: Kit, valid: (Bytes, Bytes) -> bool, net: Net, ev: Event, a: Accord)
    requires Lawful(kit.crypto) && AccordOk(kit, valid, a) && Agrees(kit, valid, net, a)
    requires ev.Serve? && ev.node in net.nodes && Running(net.nodes[ev.node], ev.conn)
    requires Relayed(kit, net, net.nodes[ev.node].process.value, ev.conn, ev.req, a)
    requires net.nodes[ev.node].process.value.conns[ev.conn].phase.Idle?
    requires ev.req.IngestTributeOfferHandoff? && ev.req.expectedPublic == a.resident.key.public
    ensures var net' := Step(kit, net, ev);
            && net'.nodes[ev.node].process.value.resident.Some?
            && net'.nodes[ev.node].process.value.resident.value.key == a.resident.key
    ensures Answer(kit, net, ev) == Some(HandoffIngested(a.resident.key.public))
  {
    var p := net.nodes[ev.node].process.value;
    assert NodeAgrees(net.nodes[ev.node], a);
    assert OpensTo(kit.crypto, kit.crypto.x25519Public(p.keys.offerSecret), ev.req.wire, a.resident.key.groupSig);
  }
}
