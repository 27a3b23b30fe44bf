/** What every run of the network keeps on disk and in memory, and restart stability. */
module NetworkRuns {
  import opened Base
  import opened ShareCrypto
  import opened SealedBlob
  import opened DkgSeams
  import opened EnclaveProtocol
  import opened Network

  // ----- Sealed content -----

  ghost predicate PublicMatches(kit: Kit, key: OfferKey) {
    key.public == kit.crypto.x25519Public(key.secret)
  }

  /** The bytes are a sealing of what the record says. */
  ghost predicate BlobOk(kit: Kit, b: Blob) {
    && Seal(kit.crypto, Payload(b.record.resident.key.secret, b.record.resident.key.groupSig),
            b.record.sealingKey, b.record.chainId, b.header) == Ok(b.bytes)
    && b.header.formatVersion == SEAL_FORMAT
    && b.header.isvSvn == b.record.isvSvn
    && PublicMatches(kit, b.record.resident.key)
  }

  /** Everything a process seals, it seals under one record. */
  ghost predicate Seals(p: Process, record: Record) {
    && p.resident == Some(record.resident)
    && p.boot == Some(BootConfig(record.chainId, record.isvSvn))
    && p.sealing.Some? && p.sealing.value.key == record.sealingKey
  }

  /** A file holds nothing, or a blob of this record. */
  predicate Says(disk: Disk, file: Option<nat>, record: Record) {
    file.Some? && FileAt(disk, file.value).Whole? ==> FileAt(disk, file.value).blob.record == record
  }

  ghost predicate DiskOk(kit: Kit, disk: Disk) {
    && (disk.root.Some? ==> disk.root.value < |disk.files|)
    && (disk.tmp.Some? ==> disk.tmp.value < |disk.files|)
    && (disk.root.Some? && disk.tmp.Some? ==> disk.root.value != disk.tmp.value)
    && forall f :: 0 <= f < |disk.files| && disk.files[f].Whole? ==> BlobOk(kit, disk.files[f].blob)
  }

  predicate Holding(phase: Phase) {
    phase.FillDue? || phase.RenameDue?
  }

  predicate Pending(phase: Phase) {
    phase.OpenDue? || Holding(phase)
  }

  /** A writer's blob is its process's, and so is whatever the sealed file holds; once the writer has opened a file, so
      is what that file and the temporary file hold. */
  ghost predicate PhaseOk(kit: Kit, p: Process, disk: Disk, phase: Phase) {
    Pending(phase) ==>
      && BlobOk(kit, phase.blob) && Seals(p, phase.blob.record)
      && Says(disk, disk.root, phase.blob.record)
      && (Holding(phase) ==>
            && phase.file < |disk.files|
            && Says(disk, Some(phase.file), phase.blob.record) && Says(disk, disk.tmp, phase.blob.record))
  }

  ghost predicate ConnOk(kit: Kit, n: Node, c: nat)
    requires Running(n, c)
  {
    PhaseOk(kit, n.process.value, n.disk, n.process.value.conns[c].phase)
  }

  ghost predicate NodeOk(kit: Kit, n: Node) {
    && DiskOk(kit, n.disk)
    && (n.process.Some? && n.process.value.resident.Some? ==> PublicMatches(kit, n.process.value.resident.value.key))
    && (forall c :: Running(n, c) ==> ConnOk(kit, n, c))
  }

  ghost predicate NetOk(kit: Kit, net: Net) {
    forall n :: n in net.nodes ==> NodeOk(kit, net.nodes[n])
  }

  /** Whatever the sealed file holds, it is a blob of the record it held before. */
  predicate KeepsRecord(before: Disk, after: Disk) {
    RootBlob(before).Some? ==> Says(after, after.root, RootBlob(before).value.record)
  }

  lemma ServeKeepsNodeOk(kit: Kit, n: Node, c: nat, req: Request, rnd: Randomness)
    requires NodeOk(kit, n) && Running(n, c) && n.process.value.conns[c].phase.Idle?
    ensures NodeOk(kit, n.(process := Some(ServeOn(kit, n.process.value, c, req, rnd))))
  {
    var p := n.process.value;
    SlotIsWriteOnce(kit, p.keys, State(Slot(p), p.conns[c].store), req, rnd);
    var n' := n.(process := Some(ServeOn(kit, p, c, req, rnd)));
    forall d | Running(n', d) ensures ConnOk(kit, n', d) {
      if d != c { assert Running(n, d) && ConnOk(kit, n, d); }
    }
  }

  lemma CheckSealKeepsNodeOk(kit: Kit, n: Node, ev: Event)
    requires NodeOk(kit, n) && ev.CheckSeal?
    ensures NodeOk(kit, NodeStep(kit, n, ev)) && NodeStep(kit, n, ev).disk == n.disk
  {
    var n' := NodeStep(kit, n, ev);
    forall d | Running(n', d) ensures ConnOk(kit, n', d) {
      assert Running(n, d) && ConnOk(kit, n, d);
    }
  }

  // ----- The three steps of a write, on the disk -----

  lemma OpenKeepsDisk(kit: Kit, disk: Disk)
    requires DiskOk(kit, disk)
    ensures var (disk', file) := OpenAt(disk);
            && DiskOk(kit, disk') && disk'.root == disk.root && disk'.tmp == Some(file)
            && file < |disk'.files| && |disk.files| <= |disk'.files| && FileAt(disk', file) == Hollow
            && (forall f :: 0 <= f < |disk.files| && f != file ==> disk'.files[f] == disk.files[f])
  {}

  lemma OpenKeepsPhase(kit: Kit, p: Process, disk: Disk, phase: Phase)
    requires DiskOk(kit, disk) && PhaseOk(kit, p, disk, phase)
    ensures PhaseOk(kit, p, OpenAt(disk).0, phase)
  {
    OpenKeepsDisk(kit, disk);
  }

  lemma FillKeepsDisk(kit: Kit, disk: Disk, file: nat, blob: Blob)
    requires DiskOk(kit, disk) && BlobOk(kit, blob)
    ensures DiskOk(kit, FillAt(disk, file, blob))
  {}

  lemma FillKeepsPhase(kit: Kit, p: Process, disk: Disk, file: nat, blob: Blob, phase: Phase)
    requires DiskOk(kit, disk) && PhaseOk(kit, p, disk, phase) && Seals(p, blob.record)
    ensures PhaseOk(kit, p, FillAt(disk, file, blob), phase)
  {}

  lemma RenameKeepsPhase(kit: Kit, p: Process, disk: Disk, phase: Phase, record: Record)
    requires DiskOk(kit, disk) && PhaseOk(kit, p, disk, phase) && Seals(p, record) && Says(disk, disk.tmp, record)
    ensures DiskOk(kit, RenameAt(disk)) && PhaseOk(kit, p, RenameAt(disk), phase)
  {}

  // ----- The same on a machine -----

  lemma OpenKeepsNodeOk(kit: Kit, n: Node, c: nat, succeeds: bool)
    requires NodeOk(kit, n) && Running(n, c) && n.process.value.conns[c].phase.OpenDue?
    ensures NodeOk(kit, OpenStep(n, c, succeeds)) && KeepsRecord(n.disk, OpenStep(n, c, succeeds).disk)
  {
    var n' := OpenStep(n, c, succeeds);
    OpenKeepsDisk(kit, n.disk);
    forall d | Running(n', d) ensures ConnOk(kit, n', d) {
      assert Running(n, d) && ConnOk(kit, n, d);
      OpenKeepsPhase(kit, n.process.value, n.disk, n.process.value.conns[d].phase);
    }
  }

  lemma FillKeepsNodeOk(kit: Kit, n: Node, c: nat, written: bool, synced: bool)
    requires NodeOk(kit, n) && Running(n, c) && n.process.value.conns[c].phase.FillDue?
    ensures NodeOk(kit, FillStep(n, c, written, synced)) && KeepsRecord(n.disk, FillStep(n, c, written, synced).disk)
  {
    var n' := FillStep(n, c, written, synced);
    var phase := n.process.value.conns[c].phase;
    assert ConnOk(kit, n, c);
    FillKeepsDisk(kit, n.disk, phase.file, phase.blob);
    FillKeepsPhase(kit, n.process.value, n.disk, phase.file, phase.blob, phase);
    forall d | Running(n', d) ensures ConnOk(kit, n', d) {
      assert Running(n, d) && ConnOk(kit, n, d);
      FillKeepsPhase(kit, n.process.value, n.disk, phase.file, phase.blob, n.process.value.conns[d].phase);
    }
  }

  lemma RenameKeepsNodeOk(kit: Kit, n: Node, ev: Event)
    requires NodeOk(kit, n) && ev.RenameTmp?
    ensures NodeOk(kit, NodeStep(kit, n, ev)) && KeepsRecord(n.disk, NodeStep(kit, n, ev).disk)
  {
    var n' := NodeStep(kit, n, ev);
    if Running(n, ev.conn) && n.process.value.conns[ev.conn].phase.RenameDue? {
      assert ConnOk(kit, n, ev.conn);
      var record := n.process.value.conns[ev.conn].phase.blob.record;
      RenameKeepsPhase(kit, n.process.value, n.disk, Idle, record);
      forall d | Running(n', d) ensures ConnOk(kit, n', d) {
        assert Running(n, d) && ConnOk(kit, n, d);
        RenameKeepsPhase(kit, n.process.value, n.disk, n.process.value.conns[d].phase, record);
      }
    } else {
      assert n' == n;
    }
  }

  /** The step of one writer. Several connections may have passed the existence check, and open, fill and rename the
      same temporary file in any order: whatever ends up at the sealed path is hollow or seals the same record. */
  lemma WriteKeepsNodeOk(kit: Kit, n: Node, ev: Event)
    requires NodeOk(kit, n) && (ev.OpenTmp? || ev.FillTmp? || ev.RenameTmp?)
    ensures NodeOk(kit, NodeStep(kit, n, ev)) && KeepsRecord(n.disk, NodeStep(kit, n, ev).disk)
  {
    if ev.OpenTmp? && Running(n, ev.conn) && n.process.value.conns[ev.conn].phase.OpenDue? {
      OpenKeepsNodeOk(kit, n, ev.conn, ev.succeeds);
    } else if ev.FillTmp? && Running(n, ev.conn) && n.process.value.conns[ev.conn].phase.FillDue? {
      FillKeepsNodeOk(kit, n, ev.conn, ev.written, ev.synced);
    } else if ev.RenameTmp? {
      RenameKeepsNodeOk(kit, n, ev);
    }
  }

  lemma OtherKeepsNodeOk(kit: Kit, n: Node, ev: Event)
    requires NodeOk(kit, n)
    requires ev.Boot? || ev.Crash? || ev.Connect? || ev.Disconnect? || ev.RemoveBlob?
    ensures NodeOk(kit, NodeStep(kit, n, ev))
  {
    var n' := NodeStep(kit, n, ev);
    forall d | Running(n', d) ensures ConnOk(kit, n', d) {
      assert (ev.Connect? && ev.conn == d) || (Running(n, d) && ConnOk(kit, n, d));
    }
    if ev.Boot? && n.process.None? { RestoreMatches(kit, n.disk, ev.boot, ev.sealing); }
  }

  lemma RestoreMatches(kit: Kit, disk: Disk, boot: Option<BootConfig>, sealing: Option<SealingKey>)
    ensures Restore(kit, disk, boot, sealing).Some? ==> PublicMatches(kit, Restore(kit, disk, boot, sealing).value.key)
  {}

  lemma NodeStepKeepsOk(kit: Kit, n: Node, ev: Event)
    requires NodeOk(kit, n)
    ensures NodeOk(kit, NodeStep(kit, n, ev))
    ensures !ev.RemoveBlob? ==> KeepsRecord(n.disk, NodeStep(kit, n, ev).disk)
    ensures n.process.Some? && n.process.value.resident.Some? && !ev.Crash? ==>
              && NodeStep(kit, n, ev).process.Some?
              && NodeStep(kit, n, ev).process.value.resident == n.process.value.resident
  {
    if ev.Serve? {
      if Running(n, ev.conn) && n.process.value.conns[ev.conn].phase.Idle? {
        ServeKeepsNodeOk(kit, n, ev.conn, ev.req, ev.rnd);
      }
    } else if ev.CheckSeal? {
      CheckSealKeepsNodeOk(kit, n, ev);
    } else if ev.OpenTmp? || ev.FillTmp? || ev.RenameTmp? {
      WriteKeepsNodeOk(kit, n, ev);
    } else {
      OtherKeepsNodeOk(kit, n, ev);
    }
  }

  lemma {:induction false} RunKeepsOk(kit: Kit, net: Net, evs: seq<Event>)
    requires NetOk(kit, net)
    ensures NetOk(kit, Run(kit, net, evs)) && Run(kit, net, evs).nodes.Keys == net.nodes.Keys
    decreases |evs|
  {
    if evs != [] {
      if evs[0].node in net.nodes { NodeStepKeepsOk(kit, net.nodes[evs[0].node], evs[0]); }
      RunKeepsOk(kit, Step(kit, net, evs[0]), evs[1..]);
    }
  }

  // ----- Writers that cannot empty the sealed file -----

  predicate OpenDueOn(n: Node, c: nat) {
    Running(n, c) && n.process.value.conns[c].phase.OpenDue?
  }

  predicate HoldingOn(n: Node, c: nat) {
    Running(n, c) && Holding(n.process.value.conns[c].phase)
  }

  predicate PendingOn(n: Node, c: nat) {
    Running(n, c) && Pending(n.process.value.conns[c].phase)
  }

  /** No other connection is between its existence check and its rename. */
  ghost predicate Alone(n: Node, c: nat) {
    forall d :: PendingOn(n, d) ==> d == c
  }

  /** The file at the sealed path, if any, is whole. */
  predicate RootWhole(disk: Disk) {
    disk.root.Some? ==> RootBlob(disk).Some?
  }

  predicate TmpHollow(disk: Disk) {
    disk.tmp.Some? && FileAt(disk, disk.tmp.value) == Hollow
  }

  /** The writer will fill the temporary file before it renames it. */
  predicate FillsTmp(disk: Disk, phase: Phase) {
    phase.FillDue? && disk.tmp == Some(phase.file)
  }

  /** The sealed file is whole; whoever has yet to open the temporary file is the only writer; and whoever has an empty
      temporary file still to rename will fill it first. */
  ghost predicate SafeWrites(n: Node) {
    && RootWhole(n.disk)
    && (forall c :: OpenDueOn(n, c) ==> Alone(n, c))
    && (TmpHollow(n.disk) ==> forall c :: HoldingOn(n, c) ==> FillsTmp(n.disk, n.process.value.conns[c].phase))
  }

  /** The event takes its connection past the existence check. */
  predicate Passes(kit: Kit, n: Node, ev: Event) {
    && ev.CheckSeal? && Running(n, ev.conn) && n.process.value.conns[ev.conn].phase.SealDue?
    && BlobToWrite(kit, n.process.value, n.disk, ev.nonce).Some?
  }

  /** The event does not let a second connection past the existence check. */
  ghost predicate SoloEvent(kit: Kit, n: Node, ev: Event) {
    Passes(kit, n, ev) ==> Alone(n, ev.conn)
  }

  /** Over the whole run, no connection of machine `n` passes the existence check while another is writing. */
  ghost predicate SoloRun(kit: Kit, net: Net, evs: seq<Event>, n: nat)
    decreases |evs|
  {
    evs != [] ==>
      && (evs[0].node == n && n in net.nodes ==> SoloEvent(kit, net.nodes[n], evs[0]))
      && SoloRun(kit, Step(kit, net, evs[0]), evs[1..], n)
  }

  /** With at most one writer, whose phase fits the disk, the writes are safe. */
  lemma LoneWriterIsSafe(n: Node, c: nat)
    requires RootWhole(n.disk) && Alone(n, c)
    requires HoldingOn(n, c) && TmpHollow(n.disk) ==> FillsTmp(n.disk, n.process.value.conns[c].phase)
    ensures SafeWrites(n)
  {
    forall d | OpenDueOn(n, d) ensures Alone(n, d) { assert PendingOn(n, d); }
    forall d | HoldingOn(n, d) ensures d == c { assert PendingOn(n, d); }
  }

  /** Writers may leave, and an empty temporary file may be filled or go. */
  lemma FewerWritersAreSafe(n: Node, n': Node)
    requires SafeWrites(n) && RootWhole(n'.disk)
    requires forall c :: PendingOn(n', c) ==>
               PendingOn(n, c) && n'.process.value.conns[c].phase == n.process.value.conns[c].phase
    requires TmpHollow(n'.disk) ==> TmpHollow(n.disk) && n'.disk.tmp == n.disk.tmp
    ensures SafeWrites(n')
  {
    forall c | OpenDueOn(n', c) ensures Alone(n', c) { assert PendingOn(n', c) && OpenDueOn(n, c); }
    if TmpHollow(n'.disk) {
      forall c | HoldingOn(n', c) ensures FillsTmp(n'.disk, n'.process.value.conns[c].phase) {
        assert PendingOn(n', c) && HoldingOn(n, c);
      }
    }
  }

  lemma OpenKeepsSafe(kit: Kit, n: Node, c: nat, succeeds: bool)
    requires NodeOk(kit, n) && SafeWrites(n) && OpenDueOn(n, c)
    ensures SafeWrites(OpenStep(n, c, succeeds)) && OpenStep(n, c, succeeds).disk.root == n.disk.root
  {
    var n' := OpenStep(n, c, succeeds);
    OpenKeepsDisk(kit, n.disk);
    forall d | PendingOn(n', d) ensures d == c { assert d != c ==> PendingOn(n, d); }
    LoneWriterIsSafe(n', c);
  }

  /** Nobody has yet to open the file, and after the write the temporary file is not empty. */
  lemma FillKeepsSafe(kit: Kit, n: Node, c: nat, written: bool, synced: bool)
    requires NodeOk(kit, n) && SafeWrites(n) && Running(n, c) && n.process.value.conns[c].phase.FillDue?
    ensures SafeWrites(FillStep(n, c, written, synced)) && FillStep(n, c, written, synced).disk.root == n.disk.root
  {
    var n' := FillStep(n, c, written, synced);
    assert ConnOk(kit, n, c) && PendingOn(n, c) && HoldingOn(n, c);
    forall d ensures !OpenDueOn(n', d) {
      assert OpenDueOn(n', d) ==> OpenDueOn(n, d);
    }
    if TmpHollow(n'.disk) {
      assert TmpHollow(n.disk);
      forall d | HoldingOn(n', d) ensures FillsTmp(n'.disk, n'.process.value.conns[d].phase) {
        assert HoldingOn(n, d);
      }
    }
  }

  lemma RenameKeepsSafe(kit: Kit, n: Node, ev: Event)
    requires SafeWrites(n) && ev.RenameTmp?
    requires Running(n, ev.conn) && n.process.value.conns[ev.conn].phase.RenameDue?
    ensures SafeWrites(NodeStep(kit, n, ev))
    ensures n.disk.root.Some? ==> NodeStep(kit, n, ev).disk.root.Some?
  {
    var n' := NodeStep(kit, n, ev);
    assert HoldingOn(n, ev.conn);
    forall d | PendingOn(n', d)
      ensures PendingOn(n, d) && n'.process.value.conns[d].phase == n.process.value.conns[d].phase
    {}
    FewerWritersAreSafe(n, n');
  }

  lemma WriteKeepsSafe(kit: Kit, n: Node, ev: Event)
    requires NodeOk(kit, n) && SafeWrites(n) && (ev.OpenTmp? || ev.FillTmp? || ev.RenameTmp?)
    ensures SafeWrites(NodeStep(kit, n, ev))
    ensures n.disk.root.Some? ==> NodeStep(kit, n, ev).disk.root.Some?
  {
    if PendingOn(n, ev.conn) {
      var phase := n.process.value.conns[ev.conn].phase;
      if ev.OpenTmp? && phase.OpenDue? {
        OpenKeepsSafe(kit, n, ev.conn, ev.succeeds);
      } else if ev.FillTmp? && phase.FillDue? {
        FillKeepsSafe(kit, n, ev.conn, ev.written, ev.synced);
      } else if ev.RenameTmp? && phase.RenameDue? {
        RenameKeepsSafe(kit, n, ev);
      }
    }
  }

  /** Passing the existence check is safe exactly when nobody else is writing. */
  lemma CheckIsSafeExactly(kit: Kit, n: Node, ev: Event)
    requires SafeWrites(n) && ev.CheckSeal?
    ensures SafeWrites(NodeStep(kit, n, ev)) <==> SoloEvent(kit, n, ev)
    ensures NodeStep(kit, n, ev).disk == n.disk
  {
    var n' := NodeStep(kit, n, ev);
    if Passes(kit, n, ev) {
      assert OpenDueOn(n', ev.conn);
      forall d | d != ev.conn ensures PendingOn(n', d) == PendingOn(n, d) {}
      if Alone(n, ev.conn) { LoneWriterIsSafe(n', ev.conn); }
    } else {
      FewerWritersAreSafe(n, n');
    }
  }

  /** Every event keeps the writes safe, except one that lets a second connection past the existence check. */
  lemma StepIsSafeExactly(kit: Kit, n: Node, ev: Event)
    requires NodeOk(kit, n) && SafeWrites(n)
    ensures SafeWrites(NodeStep(kit, n, ev)) <==> SoloEvent(kit, n, ev)
    ensures n.disk.root.Some? && !ev.RemoveBlob? ==> NodeStep(kit, n, ev).disk.root.Some?
  {
    if ev.OpenTmp? || ev.FillTmp? || ev.RenameTmp? {
      WriteKeepsSafe(kit, n, ev);
    } else if ev.CheckSeal? {
      CheckIsSafeExactly(kit, n, ev);
    } else {
      FewerWritersAreSafe(n, NodeStep(kit, n, ev));
    }
  }

  /** The writes of machine `n` are safe in every state of the run. */
  ghost predicate SafeThroughout(kit: Kit, net: Net, evs: seq<Event>, n: nat)
    decreases |evs|
  {
    && n in net.nodes && SafeWrites(net.nodes[n])
    && (evs != [] ==> SafeThroughout(kit, Step(kit, net, evs[0]), evs[1..], n))
  }

  lemma {:induction false} SafeAtEnd(kit: Kit, net: Net, evs: seq<Event>, n: nat)
    requires SafeThroughout(kit, net, evs, n)
    ensures n in Run(kit, net, evs).nodes && SafeWrites(Run(kit, net, evs).nodes[n])
    decreases |evs|
  {
    if evs != [] { SafeAtEnd(kit, Step(kit, net, evs[0]), evs[1..], n); }
  }

  /** A run that starts safe stays safe exactly when connections pass the existence check one at a time. */
  lemma {:induction false} RunIsSafeExactly(kit: Kit, net: Net, evs: seq<Event>, n: nat)
    requires NetOk(kit, net) && n in net.nodes && SafeWrites(net.nodes[n])
    ensures SafeThroughout(kit, net, evs, n) <==> SoloRun(kit, net, evs, n)
    decreases |evs|
  {
    if evs != [] {
      var next := Step(kit, net, evs[0]);
      if evs[0].node in net.nodes { NodeStepKeepsOk(kit, net.nodes[evs[0].node], evs[0]); }
      if evs[0].node == n { StepIsSafeExactly(kit, net.nodes[n], evs[0]); }
      if SafeWrites(next.nodes[n]) {
        RunIsSafeExactly(kit, next, evs[1..], n);
      } else {
        assert !SafeThroughout(kit, next, evs[1..], n);
      }
    }
  }

  lemma SoloRunEndsWhole(kit: Kit, net: Net, evs: seq<Event>, n: nat)
    requires NetOk(kit, net) && n in net.nodes && SafeWrites(net.nodes[n]) && SoloRun(kit, net, evs, n)
    ensures n in Run(kit, net, evs).nodes && RootWhole(Run(kit, net, evs).nodes[n].disk)
  {
    RunIsSafeExactly(kit, net, evs, n);
    SafeAtEnd(kit, net, evs, n);
  }

  // ----- Restart stability -----

  /** From a machine whose writes are safe, the sealed file stays whole and keeps meaning the key it was first sealed
      for, whatever happens, until it is removed: while it is there nobody passes the existence check. */
  lemma {:induction false} SealedKeyPersists(kit: Kit, net: Net, evs: seq<Event>, n: nat)
    requires NetOk(kit, net) && n in net.nodes && RootBlob(net.nodes[n].disk).Some?
    requires SafeWrites(net.nodes[n]) && RemoveBlob(n) !in evs
    ensures var net' := Run(kit, net, evs);
            && n in net'.nodes && SafeWrites(net'.nodes[n]) && RootBlob(net'.nodes[n].disk).Some?
            && RootBlob(net'.nodes[n].disk).value.record == RootBlob(net.nodes[n].disk).value.record
    decreases |evs|
  {
    if evs != [] {
      if evs[0].node in net.nodes { NodeStepKeepsOk(kit, net.nodes[evs[0].node], evs[0]); }
      if evs[0].node == n { StepIsSafeExactly(kit, net.nodes[n], evs[0]); }
      SealedKeyPersists(kit, Step(kit, net, evs[0]), evs[1..], n);
    }
  }

  /** A running enclave keeps its resident key until it stops. */
  lemma {:induction false} ResidentKeyPersists(kit: Kit, net: Net, evs: seq<Event>, n: nat)
    requires NetOk(kit, net) && n in net.nodes
    requires net.nodes[n].process.Some? && net.nodes[n].process.value.resident.Some?
    requires Crash(n) !in evs
    ensures var net' := Run(kit, net, evs);
            && n in net'.nodes && net'.nodes[n].process.Some?
            && net'.nodes[n].process.value.resident == net.nodes[n].process.value.resident
    decreases |evs|
  {
    if evs != [] {
      if evs[0].node in net.nodes { NodeStepKeepsOk(kit, net.nodes[evs[0].node], evs[0]); }
      ResidentKeyPersists(kit, Step(kit, net, evs[0]), evs[1..], n);
    }
  }

  /** Same sealing key, same chain id, and an SVN not below the sealed one. */
  predicate Matches(record: Record, boot: BootConfig, sealing: SealingKey) {
    boot.chainId == record.chainId && sealing.key == record.sealingKey && boot.isvSvn >= record.isvSvn
  }

  lemma RestoreGivesSealedKey(kit: Kit, disk: Disk, boot: BootConfig, sealing: SealingKey)
    requires Lawful(kit.crypto) && RootBlob(disk).Some? && BlobOk(kit, RootBlob(disk).value)
    requires Matches(RootBlob(disk).value.record, boot, sealing)
    ensures Restore(kit, disk, Some(boot), Some(sealing)) == Some(RootBlob(disk).value.record.resident)
  {
    var b := RootBlob(disk).value;
    var key := b.record.resident.key;
    UnsealInvertsSeal(kit.crypto, b.bytes, sealing.key, boot.chainId, boot.isvSvn,
                      Unsealed(Payload(key.secret, key.groupSig), b.header));
  }

  /** Restart stability: from a machine with a sealed blob whose writes are safe, after any events that do not remove
      the blob, any boot under a matching configuration starts with exactly the sealed secret, public key and group
      signature, and keeps them until it crashes. */
  lemma RestartStability(kit: Kit, net: Net, before: seq<Event>, after: seq<Event>,
                         n: nat, keys: EnclaveKeys, boot: BootConfig, sealing: SealingKey)
    requires Lawful(kit.crypto) && NetOk(kit, net)
    requires n in net.nodes && RootBlob(net.nodes[n].disk).Some?
    requires SafeWrites(net.nodes[n])
    requires Matches(RootBlob(net.nodes[n].disk).value.record, boot, sealing)
    requires RemoveBlob(n) !in before && Crash(n) !in after
    requires n in Run(kit, net, before).nodes && Run(kit, net, before).nodes[n].process.None?
    ensures var net' := Run(kit, net, before + [Boot(n, keys, Some(boot), Some(sealing))] + after);
            && n in net'.nodes && net'.nodes[n].process.Some?
            && net'.nodes[n].process.value.resident == Some(RootBlob(net.nodes[n].disk).value.record.resident)
  {
    var ev := Boot(n, keys, Some(boot), Some(sealing));
    var mid := Run(kit, net, before);
    RunKeepsOk(kit, net, before);
    SealedKeyPersists(kit, net, before, n);
    assert NodeOk(kit, mid.nodes[n]);
    RestoreGivesSealedKey(kit, mid.nodes[n].disk, boot, sealing);
    var booted := Step(kit, mid, ev);
    RunOne(kit, mid, ev);
    RunKeepsOk(kit, mid, [ev]);
    ResidentKeyPersists(kit, booted, after, n);
    RunAppend(kit, net, before, [ev]);
    RunAppend(kit, net, before + [ev], after);
  }

  lemma RunOne(kit: Kit, net: Net, ev: Event)
    ensures Run(kit, net, [ev]) == Step(kit, net, ev)
  {
    assert [ev][1..] == [];
  }
}
