/** A network of enclaves as a state machine: requests on concurrent connections, sealing to disk, crashes, restarts. */
module Network {
  import opened Base
  import opened ShareCrypto
  import opened SealedBlob
  import opened DkgSeams
  import opened EnclaveProtocol

  datatype BootConfig = BootConfig(chainId: Key32, isvSvn: U16)
  datatype SealingKey = SealingKey(key: Key32, policy: KeyPolicy)

  /** The chain id and epoch of the request that installed a key. A history variable. */
  datatype Origin = Origin(chainId: Key32, epoch: U64)

  datatype Resident = Resident(key: OfferKey, origin: Origin)

  /** What was sealed, under what. A history variable beside the blob's bytes. */
  datatype Record = Record(resident: Resident, sealingKey: Key32, chainId: Key32, isvSvn: U16)

  datatype Blob = Blob(bytes: Bytes, record: Record, header: SealHeader)

  /** Where a connection thread stands between a request and its reply. A writer that has opened the temporary file
      keeps it open as `file`, whatever path the file has since. */
  datatype Phase =
    | Idle
    | SealDue
    | OpenDue(blob: Blob)
    | FillDue(blob: Blob, file: nat)
    | RenameDue(blob: Blob, file: nat)

  datatype Conn = Conn(store: Store, sealAttempted: bool, phase: Phase)

  datatype Process = Process(
    keys: EnclaveKeys, boot: Option<BootConfig>, sealing: Option<SealingKey>,
    resident: Option<Resident>, conns: map<nat, Conn>)

  /** A file just opened for writing, or one filled with a sealed blob. */
  datatype Content = Hollow | Whole(blob: Blob)

  /** The files at the sealed path and at the temporary path, by number, and what each file ever opened holds. */
  datatype Disk = Disk(root: Option<nat>, tmp: Option<nat>, files: seq<Content>)

  const EMPTY_DISK: Disk := Disk(None, None, [])

  /** One machine: its disk outlives its enclave process. */
  datatype Node = Node(disk: Disk, process: Option<Process>)

  /** A partial signature of group `output`, sealed to `recipient`. */
  datatype PartialMsg = PartialMsg(recipient: Key32, wire: Bytes, output: Bytes)

  /** All machines, and every blob the host has been given to relay (history variables). */
  datatype Net = Net(nodes: map<nat, Node>, handoffs: set<(Key32, Bytes)>, partials: set<PartialMsg>)

  datatype Event =
    | Boot(node: nat, keys: EnclaveKeys, boot: Option<BootConfig>, sealing: Option<SealingKey>)
    | Crash(node: nat)
    | Connect(node: nat, conn: nat)
    | Disconnect(node: nat, conn: nat)
    | Serve(node: nat, conn: nat, req: Request, rnd: Randomness)
    | CheckSeal(node: nat, conn: nat, nonce: Option<Nonce12>)
    | OpenTmp(node: nat, conn: nat, succeeds: bool)
    | FillTmp(node: nat, conn: nat, written: bool, synced: bool)
    | RenameTmp(node: nat, conn: nat, succeeds: bool)
    | RemoveBlob(node: nat)

  // ----- The sealed file -----

  function FileAt(disk: Disk, file: nat): (r: Content) {
    if file < |disk.files| then disk.files[file] else Hollow
  }

  /** The blob at the sealed path, if the file there is whole. */
  function RootBlob(disk: Disk): (r: Option<Blob>) {
    if disk.root.None? then None
    else match FileAt(disk, disk.root.value)
         case Hollow => None
         case Whole(blob) => Some(blob)
  }

  /** The bytes a boot reads: none without a file, no bytes from a hollow one. */
  function RootBytes(disk: Disk): (r: Option<Bytes>) {
    if disk.root.None? then None
    else match FileAt(disk, disk.root.value)
         case Hollow => Some([])
         case Whole(blob) => Some(blob.bytes)
  }

  /** Opening the temporary path for writing: an existing file is emptied for everyone who has it open. */
  function OpenAt(disk: Disk): (r: (Disk, nat)) {
    if disk.tmp.Some? then
      var file := disk.tmp.value;
      (if file < |disk.files| then disk.(files := disk.files[file := Hollow]) else disk, file)
    else (disk.(tmp := Some(|disk.files|), files := disk.files + [Hollow]), |disk.files|)
  }

  function FillAt(disk: Disk, file: nat, blob: Blob): (r: Disk) {
    if file < |disk.files| then disk.(files := disk.files[file := Whole(blob)]) else disk
  }

  /** Renaming moves whatever file is at the temporary path. */
  function RenameAt(disk: Disk): (r: Disk) {
    if disk.tmp.None? then disk else disk.(root := disk.tmp, tmp := None)
  }

  // ----- One machine's step -----

  function Slot(p: Process): Option<OfferKey> {
    match p.resident
    case None => None
    case Some(r) => Some(r.key)
  }

  /** The key a boot restores from the sealed file: every failure means starting without one. */
  function RestoredKey(kit: Kit, file: Option<Bytes>, boot: Option<BootConfig>, sealing: Option<SealingKey>)
    : (r: Option<OfferKey>)
  {
    if file.None? || boot.None? || sealing.None? then None
    else
      match Unseal(kit.crypto, file.value, sealing.value.key, boot.value.chainId, boot.value.isvSvn)
      case Err(_) => None
      case Ok(u) => Some(OfferKey(u.payload.secret, kit.crypto.x25519Public(u.payload.secret), u.payload.groupSig))
  }

  function Restore(kit: Kit, disk: Disk, boot: Option<BootConfig>, sealing: Option<SealingKey>): (r: Option<Resident>) {
    match RestoredKey(kit, RootBytes(disk), boot, sealing)
    case None => None
    case Some(key) =>
      if RootBlob(disk).None? then None else Some(Resident(key, RootBlob(disk).value.record.resident.origin))
  }

  function OriginOf(req: Request): Origin {
    if req.IngestTributeOfferHandoff? || req.DkgRecoverTributeOffer? then Origin(req.chainId, req.epoch)
    else Origin(seq(32, _ => 0), 0)
  }

  function ReplyOn(kit: Kit, p: Process, c: nat, req: Request, rnd: Randomness): (r: Reply)
    requires c in p.conns
  {
    Dispatch(kit, p.keys, State(Slot(p), p.conns[c].store), req, rnd)
  }

  function ResidentAfter(p: Process, slot: Option<OfferKey>, req: Request): Option<Resident> {
    if p.resident.Some? then p.resident
    else match slot
         case None => None
         case Some(key) => Some(Resident(key, OriginOf(req)))
  }

  /** Dispatch, then note that a seal is due the first time this connection sees a resident key. */
  function ServeOn(kit: Kit, p: Process, c: nat, req: Request, rnd: Randomness): (r: Process)
    requires c in p.conns
  {
    var reply := ReplyOn(kit, p, c, req, rnd);
    var resident := ResidentAfter(p, reply.state.slot, req);
    var due := !p.conns[c].sealAttempted && resident.Some?;
    p.(resident := resident,
       conns := p.conns[c := Conn(reply.state.store, p.conns[c].sealAttempted || due, if due then SealDue else Idle)])
  }

  function HeaderFor(boot: BootConfig, sealing: SealingKey, nonce: Nonce12): SealHeader {
    SealHeader(SEAL_FORMAT, sealing.policy, boot.isvSvn, 0, 0, nonce)
  }

  /** The bytes a seal attempt would write, unless one of its checks stops it. */
  function SealedBytes(kit: Kit, slot: Option<OfferKey>, boot: Option<BootConfig>, sealing: Option<SealingKey>,
                       nonce: Option<Nonce12>): (r: Option<Bytes>)
  {
    if boot.None? || slot.None? || sealing.None? || nonce.None? then None
    else
      match Seal(kit.crypto, Payload(slot.value.secret, slot.value.groupSig), sealing.value.key, boot.value.chainId,
                 HeaderFor(boot.value, sealing.value, nonce.value))
      case Err(_) => None
      case Ok(bytes) => Some(bytes)
  }

  /** An existing file, whole or not, stops the attempt. */
  function BlobToWrite(kit: Kit, p: Process, disk: Disk, nonce: Option<Nonce12>): (r: Option<Blob>) {
    if disk.root.Some? then None
    else match SealedBytes(kit, Slot(p), p.boot, p.sealing, nonce)
         case None => None
         case Some(bytes) =>
           Some(Blob(bytes, Record(p.resident.value, p.sealing.value.key, p.boot.value.chainId, p.boot.value.isvSvn),
                     HeaderFor(p.boot.value, p.sealing.value, nonce.value)))
  }

  function SetPhase(p: Process, c: nat, phase: Phase): Process
    requires c in p.conns
  {
    p.(conns := p.conns[c := p.conns[c].(phase := phase)])
  }

  predicate Running(n: Node, c: nat) {
    n.process.Some? && c in n.process.value.conns
  }

  function NodeStep(kit: Kit, n: Node, ev: Event): (r: Node) {
    match ev
    case Boot(_, keys, boot, sealing) =>
      if n.process.Some? then n
      else n.(process := Some(Process(keys, boot, sealing, Restore(kit, n.disk, boot, sealing), map[])))
    case Crash(_) => n.(process := None)
    case Connect(_, c) =>
      if n.process.None? || c in n.process.value.conns then n
      else n.(process := Some(n.process.value.(conns := n.process.value.conns[c := Conn(map[], false, Idle)])))
    case Disconnect(_, c) =>
      if Running(n, c) && n.process.value.conns[c].phase.Idle?
      then n.(process := Some(n.process.value.(conns := n.process.value.conns - {c}))) else n
    case Serve(_, c, req, rnd) =>
      if Running(n, c) && n.process.value.conns[c].phase.Idle?
      then n.(process := Some(ServeOn(kit, n.process.value, c, req, rnd))) else n
    case CheckSeal(_, c, nonce) =>
      if Running(n, c) && n.process.value.conns[c].phase.SealDue? then
        var phase := match BlobToWrite(kit, n.process.value, n.disk, nonce)
                     case None => Idle
                     case Some(blob) => OpenDue(blob);
        n.(process := Some(SetPhase(n.process.value, c, phase)))
      else n
    case OpenTmp(_, c, succeeds) =>
      if Running(n, c) && n.process.value.conns[c].phase.OpenDue? then OpenStep(n, c, succeeds) else n
    case FillTmp(_, c, written, synced) =>
      if Running(n, c) && n.process.value.conns[c].phase.FillDue? then FillStep(n, c, written, synced) else n
    case RenameTmp(_, c, succeeds) =>
      if Running(n, c) && n.process.value.conns[c].phase.RenameDue?
      then Node(if succeeds then RenameAt(n.disk) else n.disk, Some(SetPhase(n.process.value, c, Idle))) else n
    case RemoveBlob(_) => n.(disk := n.disk.(root := None))
  }

  function OpenStep(n: Node, c: nat, succeeds: bool): (r: Node)
    requires Running(n, c) && n.process.value.conns[c].phase.OpenDue?
  {
    var p := n.process.value;
    if !succeeds then n.(process := Some(SetPhase(p, c, Idle)))
    else
      var (disk, file) := OpenAt(n.disk);
      Node(disk, Some(SetPhase(p, c, FillDue(p.conns[c].phase.blob, file))))
  }

  /** A write or sync that fails ends the attempt before the rename. */
  function FillStep(n: Node, c: nat, written: bool, synced: bool): (r: Node)
    requires Running(n, c) && n.process.value.conns[c].phase.FillDue?
  {
    var p := n.process.value;
    var phase := p.conns[c].phase;
    Node(if written then FillAt(n.disk, phase.file, phase.blob) else n.disk,
         Some(SetPhase(p, c, if written && synced then RenameDue(phase.blob, phase.file) else Idle)))
  }

  /** The answer an event produces, if it is a request an idle connection of a running enclave serves. */
  function Answer(kit: Kit, net: Net, ev: Event): (r: Option<Response>) {
    if ev.Serve? && ev.node in net.nodes && Running(net.nodes[ev.node], ev.conn)
       && net.nodes[ev.node].process.value.conns[ev.conn].phase.Idle?
    then Some(ReplyOn(kit, net.nodes[ev.node].process.value, ev.conn, ev.req, ev.rnd).response)
    else None
  }

  function NewHandoffs(kit: Kit, net: Net, ev: Event): (r: set<(Key32, Bytes)>) {
    match Answer(kit, net, ev)
    case Some(SealedHandoff(wire)) => if ev.req.SealTributeOfferHandoff? then {(ev.req.recipient, wire)} else {}
    case Some(SealedForRegistry(wire)) => if ev.req.SealOfferKeyForRegistry? then {(ev.req.recipient, wire)} else {}
    case _ => {}
  }

  function NewPartials(kit: Kit, net: Net, ev: Event): (r: set<PartialMsg>) {
    var answer := Answer(kit, net, ev);
    if answer.None? || !answer.value.DkgOfferPartial? || !ev.req.DkgTributeOfferPartial? then {}
    else
      var store := net.nodes[ev.node].process.value.conns[ev.conn].store;
      if ev.req.ceremony !in store || store[ev.req.ceremony].output.None? then {}
      else
        var s, out := store[ev.req.ceremony], answer.value.sealed;
        set i | 0 <= i < |out| && i < |s.recipients| :: PartialMsg(s.recipients[i].encKey, out[i].1, s.output.value)
  }

  function Step(kit: Kit, net: Net, ev: Event): (r: Net) {
    if ev.node !in net.nodes then net
    else Net(net.nodes[ev.node := NodeStep(kit, net.nodes[ev.node], ev)],
             net.handoffs + NewHandoffs(kit, net, ev),
             net.partials + NewPartials(kit, net, ev))
  }

  function Run(kit: Kit, net: Net, evs: seq<Event>): (r: Net)
    decreases |evs|
  {
    if evs == [] then net else Run(kit, Step(kit, net, evs[0]), evs[1..])
  }

  lemma {:induction false} RunAppend(kit: Kit, net: Net, a: seq<Event>, b: seq<Event>)
    ensures Run(kit, net, a + b) == Run(kit, Run(kit, net, a), b)
    decreases |a|
  {
    if a == [] {
      assert a + b == b;
    } else {
      assert (a + b)[1..] == a[1..] + b;
      RunAppend(kit, Step(kit, net, a[0]), a[1..], b);
    }
  }
}
