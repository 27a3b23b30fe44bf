/** Safety of DKG sessions over every request trace of one connection. */
module SessionTraces {
  import opened Base
  import opened ShareCrypto
  import opened DkgSeams
  import opened EnclaveProtocol

  /** One served request: the connection's sessions before and after it, and the answer. */
  datatype Entry = Entry(before: Store, req: Request, response: Response, after: Store)

  /** One request of a connection. The shared slot may have been set by another connection meanwhile, so each request
      carries the slot it finds. */
  datatype Item = Item(slot: Option<OfferKey>, req: Request, rnd: Randomness)

  function Serve(kit: Kit, keys: EnclaveKeys, before: Store, item: Item): (e: Entry) {
    var reply := Dispatch(kit, keys, State(item.slot, before), item.req, item.rnd);
    Entry(before, item.req, reply.response, reply.state.store)
  }

  /** `log` is what a connection produces on `items`; it starts with no session. */
  ghost predicate ConnectionLog(kit: Kit, keys: EnclaveKeys, items: seq<Item>, log: seq<Entry>) {
    && |log| == |items|
    && Chained(log)
    && forall i :: 0 <= i < |log| ==> log[i] == Serve(kit, keys, log[i].before, items[i])
  }

  /** Entry `i` starts from the sessions its predecessor left. */
  ghost predicate Linked(log: seq<Entry>, i: nat)
    requires i < |log|
  {
    log[i].before == StoreAt(log, i)
  }

  ghost predicate Chained(log: seq<Entry>) {
    forall i :: 0 <= i < |log| ==> Linked(log, i)
  }

  function StoreAt(log: seq<Entry>, i: nat): (s: Store)
    requires i <= |log|
  {
    if i == 0 then map[] else log[i - 1].after
  }

  predicate Opens(e: Entry, id: Key32) {
    e.req.DkgOpen? && e.req.ceremony == id && e.response == Ack
  }

  predicate Finalizes(e: Entry, id: Key32) {
    e.req.DkgPlayerFinalize? && e.req.ceremony == id && e.response.DkgPlayerFinalized?
  }

  /** An offer-key reply. */
  predicate Releases(e: Entry, id: Key32) {
    e.req.DkgRecoverTributeOffer? && e.req.ceremony == id && e.response.DkgOfferKey?
  }

  predicate Concerns(req: Request, id: Key32) {
    (IsSeam(req) || req.DkgOpen? || req.DkgRecoverTributeOffer?) && req.ceremony == id
  }

  // ----- One request -----

  /** What a request may do to a session that stays resident. */
  ghost predicate Evolves(s: Session, t: Session, e: Entry, id: Key32) {
    && SessionInv(t)
    && (t.info, t.signingKey, t.encSecret, t.recipients) == (s.info, s.signingKey, s.encSecret, s.recipients)
    && (s.player.None? ==> t.player.None?)
    && (if Finalizes(e, id) then s.player.Some? && s.share.None? && t.output == Some(e.response.group.groupPublic)
        else t.share == s.share && t.output == s.output)
  }

  /** A session appears only by being opened and disappears only with an offer-key reply, which needs its group
      output; a request that does not name it leaves it alone. */
  ghost predicate Legal(e: Entry, id: Key32) {
    && (Opens(e, id) <==> id !in e.before && id in e.after)
    && (Releases(e, id) <==> id in e.before && id !in e.after)
    && (Opens(e, id) ==> SessionInv(e.after[id]) && e.after[id].output.None?)
    && (Releases(e, id) ==> e.before[id].output.Some?)
    && (Finalizes(e, id) ==> id in e.before && id in e.after)
    && (id in e.before && SessionInv(e.before[id]) && id in e.after ==> Evolves(e.before[id], e.after[id], e, id))
    && (id in e.before && !Concerns(e.req, id) ==> id in e.after && e.after[id] == e.before[id])
  }

  lemma SeamEvolves(kit: Kit, s: Session, req: Request, rnd: Randomness, before: Store, after: Store)
    requires IsSeam(req) && SessionInv(s)
    ensures var (t, response) := SeamOutcome(kit, s, req, rnd);
            Evolves(s, t, Entry(before, req, response, after), req.ceremony)
  {}

  lemma ServeIsLegal(kit: Kit, keys: EnclaveKeys, before: Store, item: Item, id: Key32)
    ensures Legal(Serve(kit, keys, before, item), id)
  {
    var e := Serve(kit, keys, before, item);
    if IsSeam(item.req) && item.req.ceremony == id && id in before && SessionInv(before[id]) {
      SeamEvolves(kit, before[id], item.req, item.rnd, before, e.after);
    }
  }

  // ----- Whole traces -----

  /** The history of a resident session: opened at `o`, no offer-key reply since, and, when it holds a group output,
      finalized exactly once, at `f`, with that output. */
  ghost predicate Earned(log: seq<Entry>, i: nat, id: Key32, o: nat, f: nat)
    requires i <= |log|
  {
    var store := StoreAt(log, i);
    && id in store && SessionInv(store[id])
    && o < i && Opens(log[o], id)
    && (forall m :: o <= m < i ==> !Releases(log[m], id))
    && (forall m :: o <= m < i && Finalizes(log[m], id) ==> store[id].output.Some? && m == f)
    && (store[id].output.Some? ==>
          o < f < i && Finalizes(log[f], id) && log[f].response.group.groupPublic == store[id].output.value)
  }

  lemma EarnedByOpening(log: seq<Entry>, i: nat, id: Key32)
    requires 0 < i <= |log| && Legal(log[i - 1], id)
    requires id !in log[i - 1].before && id in log[i - 1].after
    ensures Earned(log, i, id, i - 1, 0)
  {}

  lemma EarnedByFinalizing(log: seq<Entry>, i: nat, id: Key32, o: nat, f: nat)
    requires 0 < i <= |log| && Legal(log[i - 1], id) && log[i - 1].before == StoreAt(log, i - 1)
    requires Earned(log, i - 1, id, o, f) && Finalizes(log[i - 1], id)
    ensures Earned(log, i, id, o, i - 1)
  {
    var s, t := log[i - 1].before[id], log[i - 1].after[id];
    assert Evolves(s, t, log[i - 1], id);
    assert s.output.None?;
  }

  lemma EarnedByWaiting(log: seq<Entry>, i: nat, id: Key32, o: nat, f: nat)
    requires 0 < i <= |log| && Legal(log[i - 1], id) && log[i - 1].before == StoreAt(log, i - 1)
    requires Earned(log, i - 1, id, o, f) && !Finalizes(log[i - 1], id) && id in log[i - 1].after
    ensures Earned(log, i, id, o, f)
  {
    var s, t := log[i - 1].before[id], log[i - 1].after[id];
    assert Evolves(s, t, log[i - 1], id);
    assert t.output == s.output;
  }

  lemma {:induction false} ResidentIsEarned(log: seq<Entry>, i: nat, id: Key32) returns (o: nat, f: nat)
    requires Chained(log) && forall k :: 0 <= k < |log| ==> Legal(log[k], id)
    requires i <= |log| && id in StoreAt(log, i)
    ensures Earned(log, i, id, o, f)
  {
    assert i > 0 && Linked(log, i - 1);
    if id in log[i - 1].before {
      o, f := ResidentIsEarned(log, i - 1, id);
      if Finalizes(log[i - 1], id) {
        EarnedByFinalizing(log, i, id, o, f);
        f := i - 1;
      } else {
        EarnedByWaiting(log, i, id, o, f);
      }
    } else {
      EarnedByOpening(log, i, id);
      o, f := i - 1, 0;
    }
  }

  /** Over every trace of a connection, an offer-key reply is only produced for a ceremony that was opened earlier,
      then finalized exactly once with the group output now resident, with no offer-key reply for it in between; and
      it releases the session. */
  lemma OfferKeyIsEarned(kit: Kit, keys: EnclaveKeys, items: seq<Item>, log: seq<Entry>, i: nat, id: Key32)
    returns (o: nat, f: nat)
    requires ConnectionLog(kit, keys, items, log)
    requires i < |log| && Releases(log[i], id)
    ensures o < f < i && Opens(log[o], id) && Finalizes(log[f], id)
    ensures forall m :: o <= m < i ==> !Releases(log[m], id)
    ensures forall m :: o <= m < i && Finalizes(log[m], id) ==> m == f
    ensures id in log[i].before && log[i].before[id].output == Some(log[f].response.group.groupPublic)
    ensures id !in log[i].after
  {
    forall k | 0 <= k < |log| ensures Legal(log[k], id) {
      ServeIsLegal(kit, keys, log[k].before, items[k], id);
    }
    assert Linked(log, i);
    o, f := ResidentIsEarned(log, i, id);
  }

  /** Over every trace: share and output are together and imply a consumed player, once set they stay as they are
      until release, and a request on one ceremony leaves every other session untouched. */
  lemma SessionsAreSafe(kit: Kit, keys: EnclaveKeys, items: seq<Item>, log: seq<Entry>, i: nat, id: Key32)
    requires ConnectionLog(kit, keys, items, log)
    requires i < |log| && id in log[i].before
    ensures SessionInv(log[i].before[id])
    ensures log[i].before[id].output.Some? && !Releases(log[i], id) ==>
              && id in log[i].after
              && log[i].after[id].output == log[i].before[id].output
              && log[i].after[id].share == log[i].before[id].share
    ensures !Concerns(log[i].req, id) ==> id in log[i].after && log[i].after[id] == log[i].before[id]
  {
    forall k | 0 <= k < |log| ensures Legal(log[k], id) {
      ServeIsLegal(kit, keys, log[k].before, items[k], id);
    }
    assert Linked(log, i);
    var o, f := ResidentIsEarned(log, i, id);
  }
}
