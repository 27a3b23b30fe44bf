/** Two connections sealing at once: exactly when every schedule of their writes leaves a whole blob, and the schedule
    that loses the sealed key for good when it may not. */
module NetworkSealRace {
  import opened Base
  import opened ShareCrypto
  import opened SealedBlob
  import opened DkgSeams
  import opened EnclaveProtocol
  import opened Network
  import opened NetworkRuns

  // ----- Schedules of writes on one machine -----

  predicate WriteStep(ev: Event) {
    ev.OpenTmp? || ev.FillTmp? || ev.RenameTmp?
  }

  predicate WriteSteps(evs: seq<Event>) {
    forall i :: 0 <= i < |evs| ==> WriteStep(evs[i])
  }

  function NodeRun(kit: Kit, n: Node, evs: seq<Event>): (r: Node)
    decreases |evs|
  {
    if evs == [] then n else NodeRun(kit, NodeStep(kit, n, evs[0]), evs[1..])
  }

  lemma {:induction false} SafeSchedules(kit: Kit, n: Node, evs: seq<Event>)
    requires NodeOk(kit, n) && SafeWrites(n) && WriteSteps(evs)
    ensures RootWhole(NodeRun(kit, n, evs).disk)
    decreases |evs|
  {
    if evs != [] {
      assert WriteStep(evs[0]);
      WriteKeepsNodeOk(kit, n, evs[0]);
      WriteKeepsSafe(kit, n, evs[0]);
      SafeSchedules(kit, NodeStep(kit, n, evs[0]), evs[1..]);
    }
  }

  // ----- The schedules that lose the key -----

  predicate RenameDueOn(n: Node, c: nat) {
    Running(n, c) && n.process.value.conns[c].phase.RenameDue?
  }

  /** A schedule of writes on machine `node` that leaves an empty file at the sealed path. */
  predicate Loses(kit: Kit, n: Node, node: nat, evs: seq<Event>) {
    && WriteSteps(evs) && (forall i :: 0 <= i < |evs| ==> evs[i].node == node)
    && !RootWhole(NodeRun(kit, n, evs).disk)
  }

  lemma LosesAfter(kit: Kit, n: Node, node: nat, ev: Event, evs: seq<Event>)
    requires WriteStep(ev) && ev.node == node && Loses(kit, NodeStep(kit, n, ev), node, evs)
    ensures Loses(kit, n, node, [ev] + evs)
  {
    assert ([ev] + evs)[1..] == evs;
  }

  /** Renaming the empty temporary file. */
  lemma RenameLoses(kit: Kit, n: Node, node: nat, c: nat)
    requires RenameDueOn(n, c) && TmpHollow(n.disk)
    ensures Loses(kit, n, node, [RenameTmp(node, c, true)])
  {
    assert NodeRun(kit, NodeStep(kit, n, RenameTmp(node, c, true)), []).disk == RenameAt(n.disk);
    LosesAfter(kit, n, node, RenameTmp(node, c, true), []);
  }

  /** Emptying the file another connection is about to rename. */
  lemma OpenThenRenameLoses(kit: Kit, n: Node, node: nat, a: nat, b: nat)
    requires DiskOk(kit, n.disk) && OpenDueOn(n, a) && RenameDueOn(n, b)
    ensures Loses(kit, n, node, [OpenTmp(node, a, true)] + [RenameTmp(node, b, true)])
  {
    OpenKeepsDisk(kit, n.disk);
    var n' := NodeStep(kit, n, OpenTmp(node, a, true));
    assert n'.process.value.conns[b] == n.process.value.conns[b];
    RenameLoses(kit, n', node, b);
    LosesAfter(kit, n, node, OpenTmp(node, a, true), [RenameTmp(node, b, true)]);
  }

  /** One writer has yet to open the temporary file, and the other may first get as far as its rename. */
  lemma SecondWriterLoses(kit: Kit, n: Node, node: nat, a: nat, b: nat) returns (evs: seq<Event>)
    requires NodeOk(kit, n) && a != b && OpenDueOn(n, a) && PendingOn(n, b)
    ensures Loses(kit, n, node, evs)
    decreases n.process.value.conns[b].phase.OpenDue?, n.process.value.conns[b].phase.FillDue?
  {
    if RenameDueOn(n, b) {
      OpenThenRenameLoses(kit, n, node, a, b);
      evs := [OpenTmp(node, a, true)] + [RenameTmp(node, b, true)];
    } else {
      var ev := if OpenDueOn(n, b) then OpenTmp(node, b, true) else FillTmp(node, b, true, true);
      WriteKeepsNodeOk(kit, n, ev);
      evs := SecondWriterLoses(kit, NodeStep(kit, n, ev), node, a, b);
      LosesAfter(kit, n, node, ev, evs);
      evs := [ev] + evs;
    }
  }

  /** The temporary file is empty, and a connection holds another file or is about to rename. */
  lemma StaleHolderLoses(kit: Kit, n: Node, node: nat, c: nat) returns (evs: seq<Event>)
    requires TmpHollow(n.disk) && HoldingOn(n, c) && !FillsTmp(n.disk, n.process.value.conns[c].phase)
    ensures Loses(kit, n, node, evs)
  {
    evs := [RenameTmp(node, c, true)];
    if RenameDueOn(n, c) {
      RenameLoses(kit, n, node, c);
    } else {
      var ev := FillTmp(node, c, true, true);
      RenameLoses(kit, NodeStep(kit, n, ev), node, c);
      LosesAfter(kit, n, node, ev, evs);
      evs := [ev] + evs;
    }
  }

  lemma LosingSchedule(kit: Kit, n: Node, node: nat) returns (evs: seq<Event>)
    requires NodeOk(kit, n) && !SafeWrites(n)
    ensures Loses(kit, n, node, evs)
  {
    if !RootWhole(n.disk) {
      evs := [];
    } else if c :| OpenDueOn(n, c) && !Alone(n, c) {
      var d :| PendingOn(n, d) && d != c;
      evs := SecondWriterLoses(kit, n, node, c, d);
    } else {
      var c :| HoldingOn(n, c) && !FillsTmp(n.disk, n.process.value.conns[c].phase);
      evs := StaleHolderLoses(kit, n, node, c);
    }
  }

  /** The exact condition, readable in any state: every schedule of the writes, with every choice of failures, leaves
      the sealed file whole or absent if and only if the writes are safe. */
  lemma SchedulesAreSafeExactly(kit: Kit, n: Node)
    requires NodeOk(kit, n)
    ensures (forall evs :: WriteSteps(evs) ==> RootWhole(NodeRun(kit, n, evs).disk)) <==> SafeWrites(n)
  {
    if SafeWrites(n) {
      forall evs | WriteSteps(evs) ensures RootWhole(NodeRun(kit, n, evs).disk) {
        SafeSchedules(kit, n, evs);
      }
    } else {
      var evs := LosingSchedule(kit, n, 0);
    }
  }

  // ----- What the loss means -----

  /** The sealed file is empty and nobody is about to write. */
  ghost predicate Lost(n: Node) {
    !RootWhole(n.disk) && forall c :: !PendingOn(n, c)
  }

  lemma NodeStepKeepsLost(kit: Kit, n: Node, ev: Event)
    requires Lost(n) && !ev.RemoveBlob?
    ensures Lost(NodeStep(kit, n, ev))
  {
    var n' := NodeStep(kit, n, ev);
    if WriteStep(ev) { assert !PendingOn(n, ev.conn); }
    forall c ensures !PendingOn(n', c) {
      assert !PendingOn(n, c);
    }
  }

  /** An empty sealed file is never replaced: it stops every later attempt to seal, and no boot restores a key from
      it. */
  lemma {:induction false} LostForGood(kit: Kit, net: Net, evs: seq<Event>, n: nat)
    requires n in net.nodes && Lost(net.nodes[n]) && RemoveBlob(n) !in evs
    ensures n in Run(kit, net, evs).nodes && Lost(Run(kit, net, evs).nodes[n])
    ensures forall boot, sealing :: Restore(kit, Run(kit, net, evs).nodes[n].disk, boot, sealing) == None
    decreases |evs|
  {
    if evs != [] {
      if evs[0].node == n { NodeStepKeepsLost(kit, net.nodes[n], evs[0]); }
      LostForGood(kit, Step(kit, net, evs[0]), evs[1..], n);
    }
  }

  lemma {:induction false} RunOnNode(kit: Kit, net: Net, evs: seq<Event>, n: nat)
    requires n in net.nodes && forall i :: 0 <= i < |evs| ==> evs[i].node == n
    ensures n in Run(kit, net, evs).nodes && Run(kit, net, evs).nodes[n] == NodeRun(kit, net.nodes[n], evs)
    decreases |evs|
  {
    if evs != [] { RunOnNode(kit, Step(kit, net, evs[0]), evs[1..], n); }
  }

  /** The failing runs: from any state in which the writes are not safe there is a schedule of them after which a crash
      loses the sealed key for good, until the file is removed by hand. */
  lemma UnsafeWritesLoseTheKey(kit: Kit, net: Net, n: nat) returns (lose: seq<Event>)
    requires NetOk(kit, net) && n in net.nodes && !SafeWrites(net.nodes[n])
    ensures WriteSteps(lose)
    ensures forall evs: seq<Event> :: RemoveBlob(n) !in evs ==>
              var net' := Run(kit, net, lose + [Crash(n)] + evs);
              && n in net'.nodes && net'.nodes[n].disk.root.Some?
              && forall boot, sealing :: Restore(kit, net'.nodes[n].disk, boot, sealing) == None
  {
    lose := LosingSchedule(kit, net.nodes[n], n);
    RunOnNode(kit, net, lose, n);
    var hollow := Run(kit, net, lose);
    RunOne(kit, hollow, Crash(n));
    RunAppend(kit, net, lose, [Crash(n)]);
    forall evs: seq<Event> | RemoveBlob(n) !in evs
      ensures var net' := Run(kit, net, lose + [Crash(n)] + evs);
              && n in net'.nodes && net'.nodes[n].disk.root.Some?
              && forall boot, sealing :: Restore(kit, net'.nodes[n].disk, boot, sealing) == None
    {
      RunAppend(kit, net, lose + [Crash(n)], evs);
      LostForGood(kit, Step(kit, hollow, Crash(n)), evs, n);
    }
  }

  /** A served request on a connection that has not tried to seal. */
  predicate FreshOn(n: Node, c: nat) {
    Running(n, c) && n.process.value.conns[c].phase.Idle? && !n.process.value.conns[c].sealAttempted
  }

  lemma ServeMakesSealDue(kit: Kit, n: Node, node: nat, c: nat, rnd: Randomness)
    requires FreshOn(n, c) && n.process.value.resident.Some?
    ensures var p, n' := n.process.value, NodeStep(kit, n, Serve(node, c, GetPublicKeys, rnd));
            n' == n.(process := Some(p.(conns := p.conns[c := Conn(p.conns[c].store, true, SealDue)])))
  {}

  lemma CheckPasses(kit: Kit, n: Node, node: nat, c: nat, nonce: Nonce12)
    requires Running(n, c) && n.process.value.conns[c].phase.SealDue?
    requires BlobToWrite(kit, n.process.value, n.disk, Some(nonce)).Some?
    ensures var p, n' := n.process.value, NodeStep(kit, n, CheckSeal(node, c, Some(nonce)));
            n' == n.(process := Some(SetPhase(p, c, OpenDue(BlobToWrite(kit, p, n.disk, Some(nonce)).value))))
  {}

  /** What is sealed does not depend on the connections. */
  lemma BlobIgnoresConns(kit: Kit, p: Process, conns: map<nat, Conn>, disk: Disk, nonce: Nonce12)
    ensures BlobToWrite(kit, p.(conns := conns), disk, Some(nonce)) == BlobToWrite(kit, p, disk, Some(nonce))
  {}

  lemma RunFour(kit: Kit, n: Node, e: Event, f: Event, g: Event, h: Event)
    ensures NodeRun(kit, n, [e, f, g, h]) == NodeStep(kit, NodeStep(kit, NodeStep(kit, NodeStep(kit, n, e), f), g), h)
  {
    assert [e, f, g, h][1..] == [f, g, h] && [f, g, h][1..] == [g, h] && [g, h][1..] == [h] && [h][1..] == [];
    var n1 := NodeStep(kit, n, e);
    var n2 := NodeStep(kit, n1, f);
    assert NodeRun(kit, n2, [g, h]) == NodeRun(kit, NodeStep(kit, n2, g), [h]);
    assert NodeRun(kit, n1, [f, g, h]) == NodeRun(kit, n2, [g, h]);
  }

  /** Such states arise in the ordinary course: a resident key not yet on disk, and one request on each of two
      connections. */
  lemma BothPassTheCheck(kit: Kit, n: Node, node: nat, a: nat, b: nat, rnd: Randomness, x: Nonce12, y: Nonce12)
    requires FreshOn(n, a) && FreshOn(n, b) && a != b && n.process.value.resident.Some?
    requires BlobToWrite(kit, n.process.value, n.disk, Some(x)).Some?
    requires BlobToWrite(kit, n.process.value, n.disk, Some(y)).Some?
    ensures var n' := NodeRun(kit, n, [Serve(node, a, GetPublicKeys, rnd), Serve(node, b, GetPublicKeys, rnd),
                                       CheckSeal(node, a, Some(x)), CheckSeal(node, b, Some(y))]);
            !SafeWrites(n')
  {
    var e, f := Serve(node, a, GetPublicKeys, rnd), Serve(node, b, GetPublicKeys, rnd);
    var g, h := CheckSeal(node, a, Some(x)), CheckSeal(node, b, Some(y));
    RunFour(kit, n, e, f, g, h);
    var p := n.process.value;
    ServeMakesSealDue(kit, n, node, a, rnd);
    var n1 := NodeStep(kit, n, e);
    ServeMakesSealDue(kit, n1, node, b, rnd);
    var n2 := NodeStep(kit, n1, f);
    BlobIgnoresConns(kit, p, n2.process.value.conns, n.disk, x);
    CheckPasses(kit, n2, node, a, x);
    var n3 := NodeStep(kit, n2, g);
    BlobIgnoresConns(kit, p, n3.process.value.conns, n.disk, y);
    CheckPasses(kit, n3, node, b, y);
    assert OpenDueOn(NodeStep(kit, n3, h), a) && PendingOn(NodeStep(kit, n3, h), b);
  }
}
