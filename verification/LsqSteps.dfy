/** The shape of the queues survives every operation. */
module LsqSteps {
  import opened Prelude
  import opened Memory
  import opened LsqState
  import opened LsqWorld
  import opened LsqProof

  // ---- What insertion and removal leave alone ---------------------------------------------------

  /** Every entry of `r` has the same age and recorded position as the entry of `q` at its position. */
  predicate SameKeys(q: Lsq, r: Lsq)
  {
    && q.lqHead <= r.lqHead <= r.LqEnd() <= q.LqEnd() && q.sqHead <= r.sqHead <= r.SqEnd() <= q.SqEnd()
    && (forall j | 0 <= j < |r.lq| ::
          var e := q.lq[r.lqHead - q.lqHead + j]; r.lq[j].seqNum == e.seqNum && r.lq[j].sqIt == e.sqIt)
    && (forall i | 0 <= i < |r.sq| ::
          var e := q.sq[r.sqHead - q.sqHead + i]; r.sq[i].seqNum == e.seqNum && r.sq[i].lqIt == e.lqIt)
  }

  /** The common case: nothing moved. */
  lemma KeysInPlace(q: Lsq, r: Lsq)
    requires r.lqHead == q.lqHead && r.sqHead == q.sqHead && |r.lq| <= |q.lq| && |r.sq| <= |q.sq|
    requires forall j | 0 <= j < |r.lq| :: r.lq[j].seqNum == q.lq[j].seqNum && r.lq[j].sqIt == q.lq[j].sqIt
    requires forall i | 0 <= i < |r.sq| :: r.sq[i].seqNum == q.sq[i].seqNum && r.sq[i].lqIt == q.sq[i].lqIt
    ensures SameKeys(q, r)
  {
  }

  lemma SameKeysLinked(q: Lsq, r: Lsq)
    requires Linked(q) && SameKeys(q, r)
    ensures Linked(r)
  {
    forall j, i | 0 <= j < |r.lq| && 0 <= i < |r.sq|
      ensures r.sqHead + i < r.lq[j].sqIt <==> r.sq[i].seqNum < r.lq[j].seqNum
      ensures r.sq[i].lqIt <= r.lqHead + j <==> r.sq[i].seqNum < r.lq[j].seqNum
    {
      var a, b := r.lqHead - q.lqHead + j, r.sqHead - q.sqHead + i;
      assert q.sqHead + b < q.lq[a].sqIt <==> q.sq[b].seqNum < q.lq[a].seqNum;
      assert q.sq[b].lqIt <= q.lqHead + a <==> q.sq[b].seqNum < q.lq[a].seqNum;
    }
  }

  lemma SameKeysOrder(q: Lsq, r: Lsq)
    requires Order(q) && SameKeys(q, r)
    ensures Order(r)
  {
    SameKeysLinked(q, r);
  }

  lemma QueuedStays(a: seq<LQEntry>, b: seq<LQEntry>, seqNum: nat)
    requires Queued(a, seqNum)
    requires forall k | 0 <= k < |a| :: a[k].seqNum == seqNum ==> k < |b| && b[k].seqNum == seqNum
    ensures Queued(b, seqNum)
  {
    var k :| 0 <= k < |a| && a[k].seqNum == seqNum;
    assert b[k].seqNum == seqNum;
  }

  lemma WaitingStays(q: Lsq, r: Lsq, seqNum: nat)
    requires Waiting(q, seqNum)
    requires forall i | q.StoreAt(i) && q.storeWBIt <= i && q.St(i).seqNum == seqNum && q.St(i).data != [] ::
               r.storeWBIt <= i && r.StoreAt(i) && r.St(i).seqNum == seqNum && r.St(i).data != []
    ensures Waiting(r, seqNum)
  {
    var i :| q.storeWBIt <= i && q.StoreAt(i) && q.St(i).seqNum == seqNum && q.St(i).data != [];
    assert r.St(i).seqNum == seqNum;
  }

  /** The stall survives anything that keeps ages, rescheduled loads and the stores they wait for. */
  lemma StallStays(q: Lsq, r: Lsq)
    requires StallIsOldest(q) && r.stall == q.stall && q.lqHead <= r.lqHead && r.LqEnd() <= q.LqEnd()
    requires forall j | 0 <= j < |r.lq| ::
               var e := q.lq[r.lqHead - q.lqHead + j];
               r.lq[j].seqNum == e.seqNum && (r.lq[j].outcome.Rescheduled? <==> e.outcome.Rescheduled?)
    requires q.stall.Some? ==> r.LoadAt(q.stall.value.loadIdx) && Waiting(r, q.stall.value.storeSeq)
    ensures StallIsOldest(r)
  {
  }

  // ---- Insertion --------------------------------------------------------------------------------

  predicate Newest(q: Lsq, seqNum: nat)
  {
    && (forall k | 0 <= k < |q.lq| :: q.lq[k].seqNum < seqNum)
    && (forall k | 0 <= k < |q.sq| :: q.sq[k].seqNum < seqNum)
  }

  /** What is left keeps its flags and requests, and nothing is newly sent or written. */
  lemma LoadRequestsFrom(a: seq<LQEntry>, b: seq<LQEntry>, d: nat)
    requires LoadRequestsFit(a) && d + |b| <= |a|
    requires forall j | 0 <= j < |b| ::
               && b[j].runahead == a[d + j].runahead && b[j].request == a[d + j].request
               && (b[j].outcome.Sent? ==> a[d + j].outcome.Sent?)
    ensures LoadRequestsFit(b)
  {
  }

  lemma StoreRequestsFrom(a: seq<SQEntry>, b: seq<SQEntry>, d: nat)
    requires StoreRequestsFit(a) && d + |b| <= |a|
    requires forall i | 0 <= i < |b| ::
               b[i].runahead == a[d + i].runahead && b[i].request == a[d + i].request && b[i].data == a[d + i].data
    ensures StoreRequestsFit(b)
  {
  }

  /** A store with data goes to the R-cache exactly when its instruction is a runahead one. */
  lemma RouteIsFlag(q: Lsq, i: nat)
    requires RequestsFit(q) && q.StoreAt(i) && q.St(i).data != []
    ensures ToRCache(q.St(i)) <==> q.St(i).runahead
  {
    assert q.sq[i - q.sqHead] == q.St(i);
  }

  lemma InsertLoadOrder(q: Lsq, seqNum: nat, runahead: bool)
    requires Order(q) && InBounds(q) && Newest(q, seqNum)
    ensures Order(InsertLoad(q, seqNum, runahead))
  {
  }

  lemma InsertLoadStall(q: Lsq, seqNum: nat, runahead: bool)
    requires StallIsOldest(q)
    ensures StallIsOldest(InsertLoad(q, seqNum, runahead))
  {
    if q.stall.Some? {
      WaitingStays(q, InsertLoad(q, seqNum, runahead), q.stall.value.storeSeq);
    }
  }

  lemma InsertLoadLoads(q: Lsq, seqNum: nat, runahead: bool)
    requires LoadSide(q) && WbPrefix(q)
    ensures LoadSide(InsertLoad(q, seqNum, runahead))
  {
    hide StallIsOldest;
    InsertLoadStall(q, seqNum, runahead);
    if q.violator.Some? {
      QueuedStays(q.lq, InsertLoad(q, seqNum, runahead).lq, q.violator.value);
    }
  }

  lemma InsertLoadKeeps(q: Lsq, seqNum: nat, runahead: bool)
    requires QueueInv(q) && Newest(q, seqNum)
    ensures QueueInv(InsertLoad(q, seqNum, runahead))
  {
    InsertLoadOrder(q, seqNum, runahead);
    InsertLoadLoads(q, seqNum, runahead);
    InsertRequests(q, seqNum, runahead);
  }

  lemma InsertRequests(q: Lsq, seqNum: nat, runahead: bool)
    requires RequestsFit(q)
    ensures RequestsFit(InsertLoad(q, seqNum, runahead)) && RequestsFit(InsertStore(q, seqNum, runahead))
  {
  }

  lemma InsertStoreOrder(q: Lsq, seqNum: nat, runahead: bool)
    requires Order(q) && InBounds(q) && Newest(q, seqNum)
    ensures Order(InsertStore(q, seqNum, runahead))
  {
  }

  lemma InsertStoreStores(q: Lsq, seqNum: nat, runahead: bool)
    requires StoreSide(q)
    ensures StoreSide(InsertStore(q, seqNum, runahead))
  {
    var r := InsertStore(q, seqNum, runahead);
    CountOpenConcat(q.sq, [r.sq[|q.sq|]]);
    assert [r.sq[|q.sq|]][..0] == [];
  }

  lemma InsertStoreLoads(q: Lsq, seqNum: nat, runahead: bool)
    requires LoadSide(q)
    ensures LoadSide(InsertStore(q, seqNum, runahead))
  {
    var r := InsertStore(q, seqNum, runahead);
    if q.stall.Some? {
      WaitingStays(q, r, q.stall.value.storeSeq);
    }
  }

  lemma InsertStoreKeeps(q: Lsq, seqNum: nat, runahead: bool)
    requires QueueInv(q) && Newest(q, seqNum)
    ensures QueueInv(InsertStore(q, seqNum, runahead))
  {
    InsertStoreOrder(q, seqNum, runahead);
    InsertStoreStores(q, seqNum, runahead);
    InsertStoreLoads(q, seqNum, runahead);
    InsertRequests(q, seqNum, runahead);
  }

  // ---- Executing loads --------------------------------------------------------------------------

  lemma WithLoadStall(q: Lsq, j: nat, e: LQEntry)
    requires StallIsOldest(q) && q.LoadAt(j) && !q.Ld(j).outcome.Rescheduled?
    requires e.seqNum == q.Ld(j).seqNum && !e.outcome.Rescheduled?
    ensures StallIsOldest(q.WithLoad(j, e))
  {
    if q.stall.Some? {
      WaitingStays(q, q.WithLoad(j, e), q.stall.value.storeSeq);
    }
  }

  predicate WellShaped(e: LQEntry)
  {
    && (e.outcome.Value? ==> e.addrValid && e.size > 0 && |e.outcome.data| == e.size)
    && (e.outcome.Rescheduled? ==> !e.addrValid) && (e.outcome.Sent? ==> e.addrValid)
    && (e.addrValid ==> e.size > 0)
    && (e.request.Some? ==> e.request.value == e.runahead) && (e.outcome.Sent? ==> e.request.Some?)
  }

  lemma WithLoadRest(q: Lsq, j: nat, e: LQEntry, stall: Option<Stall>)
    requires StoreSide(q) && InBounds(q) && Shaped(q) && ViolatorQueued(q) && RequestsFit(q) && q.LoadAt(j)
    requires e.seqNum == q.Ld(j).seqNum && e.sqIt == q.Ld(j).sqIt && WellShaped(e)
    ensures var r := q.WithLoad(j, e).(stall := stall);
            StoreSide(r) && InBounds(r) && Shaped(r) && ViolatorQueued(r) && RequestsFit(r)
  {
    if q.violator.Some? {
      QueuedStays(q.lq, q.WithLoad(j, e).lq, q.violator.value);
    }
  }

  lemma WithLoadOrder(q: Lsq, j: nat, e: LQEntry, stall: Option<Stall>)
    requires Order(q) && q.LoadAt(j) && e.seqNum == q.Ld(j).seqNum && e.sqIt == q.Ld(j).sqIt
    ensures Order(q.WithLoad(j, e).(stall := stall))
  {
    hide Order;
    SameKeysOrder(q, q.WithLoad(j, e).(stall := stall));
  }

  /** Replacing a load that does not wait for a stall by another version of itself. */
  lemma WithLoadKeeps(q: Lsq, j: nat, e: LQEntry)
    requires QueueInv(q) && q.LoadAt(j) && !q.Ld(j).outcome.Rescheduled?
    requires e.seqNum == q.Ld(j).seqNum && e.sqIt == q.Ld(j).sqIt && !e.outcome.Rescheduled? && WellShaped(e)
    ensures QueueInv(q.WithLoad(j, e))
  {
    hide Order, StallIsOldest, StoreSide, InBounds, Shaped, ViolatorQueued, RequestsFit;
    assert q.WithLoad(j, e) == q.WithLoad(j, e).(stall := q.stall);
    WithLoadOrder(q, j, e, q.stall);
    WithLoadRest(q, j, e, q.stall);
    WithLoadStall(q, j, e);
  }

  lemma StalledLoadStall(q: Lsq, j: nat, e: LQEntry, storeSeq: nat)
    requires StallIsOldest(q) && q.LoadAt(j) && q.Ld(j).outcome.Pending?
    requires e.seqNum == q.Ld(j).seqNum && e.outcome.Rescheduled?
    requires storeSeq < e.seqNum && Waiting(q, storeSeq)
    ensures StallIsOldest(q.WithLoad(j, e).(stall := StallLoad(q, j, storeSeq)))
  {
    var r := q.WithLoad(j, e).(stall := StallLoad(q, j, storeSeq));
    WaitingStays(q, r, r.stall.value.storeSeq);
  }

  lemma StalledLoadKeeps(q: Lsq, j: nat, e: LQEntry, storeSeq: nat)
    requires QueueInv(q) && q.LoadAt(j) && q.Ld(j).outcome.Pending?
    requires e.seqNum == q.Ld(j).seqNum && e.sqIt == q.Ld(j).sqIt && e.outcome.Rescheduled? && WellShaped(e)
    requires storeSeq < e.seqNum && Waiting(q, storeSeq)
    ensures QueueInv(q.WithLoad(j, e).(stall := StallLoad(q, j, storeSeq)))
  {
    hide Order, StallIsOldest, StoreSide, InBounds, Shaped, ViolatorQueued, RequestsFit, StallLoad;
    WithLoadOrder(q, j, e, StallLoad(q, j, storeSeq));
    WithLoadRest(q, j, e, StallLoad(q, j, storeSeq));
    StalledLoadStall(q, j, e, storeSeq);
  }

  /** A search can only stall a load on an older store that is still waiting to be sent. */
  lemma WindowStall(q: Lsq, j: nat, addr: nat, size: nat)
    requires Linked(q) && InBounds(q) && WbPrefix(q) && q.LoadAt(j)
    requires Scan(Window(q, q.Ld(j).sqIt), q.Ld(j).runahead, addr, size).StallOn?
    ensures var storeSeq := Scan(Window(q, q.Ld(j).sqIt), q.Ld(j).runahead, addr, size).storeSeq;
            storeSeq < q.Ld(j).seqNum && Waiting(q, storeSeq)
  {
    hide Scan;
    var ss := Window(q, q.Ld(j).sqIt);
    var k := StallNamesStore(ss, q.Ld(j).runahead, addr, size);
    var i := q.storeWBIt - q.sqHead + k;
    assert q.sq[i] == ss[k];
    assert q.St(q.sqHead + i) == ss[k];
    assert q.sqHead + i < q.lq[j - q.lqHead].sqIt;
  }

  /** The entry's own request fits its flag before an attempt, so it does after. */
  lemma AttemptFits(q: Lsq, j: nat)
    requires RequestsFit(q) && Shaped(q) && q.LoadAt(j)
    ensures var e := q.Ld(j);
            && Requested(e.request, e.runahead) == Some(e.runahead)
            && (e.request.Some? ==> e.request.value == e.runahead) && (e.addrValid ==> e.size > 0)
            && (e.outcome.Sent? ==> e.addrValid && e.request.Some?)
  {
    assert q.lq[j - q.lqHead] == q.Ld(j);
  }

  lemma ExecLoadKeeps(q: Lsq, j: nat, addr: nat, size: nat, accept: bool)
    requires QueueInv(q) && q.LoadAt(j) && q.Ld(j).outcome.Pending? && size > 0
    ensures QueueInv(ExecLoad(q, j, addr, size, accept))
  {
    var e := Addressed(q.Ld(j), addr, size);
    var ss := Window(q, e.sqIt);
    AttemptFits(q, j);
    match Scan(ss, e.runahead, addr, size)
    case Forward(data) =>
      ForwardSize(ss, e.runahead, addr, size);
      hide QueueInv, Scan;
      WithLoadKeeps(q, j, e.(outcome := Value(data)));
    case StallOn(storeSeq) =>
      WindowStall(q, j, addr, size);
      hide QueueInv, Scan;
      StalledLoadKeeps(q, j, e.(addrValid := false, outcome := Rescheduled, request := None), storeSeq);
    case Miss =>
      hide QueueInv, Scan;
      WithLoadKeeps(q, j, e.(outcome := if accept then Sent else Pending));
  }

  lemma ServeLoadKeeps(q: Lsq, j: nat, reply: Bytes)
    requires QueueInv(q) && q.LoadAt(j) && q.Ld(j).outcome.Sent? && |reply| == q.Ld(j).size
    ensures QueueInv(ServeLoad(q, j, reply))
  {
    AttemptFits(q, j);
    hide QueueInv;
    var e := q.Ld(j);
    WithLoadKeeps(q, j, e.(outcome := Value(if e.runahead then reply else ReadBytes(q.dcache, e.addr, e.size))));
  }

  lemma TouchLoadKeeps(q: Lsq, j: nat)
    requires QueueInv(q) && q.LoadAt(j) && q.Ld(j).outcome.Pending?
    ensures QueueInv(TouchLoad(q, j))
  {
    AttemptFits(q, j);
    hide QueueInv;
    WithLoadKeeps(q, j, q.Ld(j).(request := Requested(q.Ld(j).request, q.Ld(j).runahead)));
  }

  lemma NullLoadKeeps(q: Lsq, j: nat)
    requires QueueInv(q) && q.LoadAt(j) && !q.Ld(j).outcome.Rescheduled?
    ensures QueueInv(NullLoad(q, j))
  {
    AttemptFits(q, j);
    hide QueueInv;
    WithLoadKeeps(q, j, q.Ld(j).(outcome := NoAccess));
  }

  // ---- Executing stores -------------------------------------------------------------------------

  lemma {:induction false} FirstConflictQueued(lq: seq<LQEntry>, addr: nat, size: nat, shift: nat) returns (k: nat)
    requires size > 0 && FirstConflict(lq, addr, size, shift).Some?
    ensures k < |lq| && lq[k].seqNum == FirstConflict(lq, addr, size, shift).value
    ensures Conflicts(lq[k], addr, size, shift)
  {
    if Conflicts(lq[0], addr, size, shift) {
      k := 0;
    } else {
      k := FirstConflictQueued(lq[1..], addr, size, shift);
      k := k + 1;
    }
  }

  lemma ExecStoreOrder(q: Lsq, i: nat, addr: nat, data: Bytes)
    requires Order(q) && q.StoreAt(i) && data != [] && q.St(i).lqIt <= q.LqEnd()
    ensures Order(ExecStore(q, i, addr, data))
  {
    hide Order;
    var r := ExecStore(q, i, addr, data);
    assert r.lq == q.lq && r.lqHead == q.lqHead && r.sqHead == q.sqHead;
    assert r.sq == q.sq[i - q.sqHead := Written(q.St(i), addr, data)];
    hide SameKeys, ExecStore;
    KeysInPlace(q, r);
    SameKeysOrder(q, r);
  }

  lemma ExecStoreStores(q: Lsq, i: nat, addr: nat, data: Bytes)
    requires StoreSide(q) && q.StoreAt(i) && q.St(i).data == [] && !q.St(i).canWB && data != []
    requires q.St(i).lqIt <= q.LqEnd()
    ensures StoreSide(ExecStore(q, i, addr, data))
  {
    hide FirstConflict;
    CountOpenUpdate(q.sq, i - q.sqHead, Written(q.St(i), addr, data));
  }

  lemma ExecStoreStall(q: Lsq, i: nat, addr: nat, data: Bytes)
    requires StallIsOldest(q) && q.StoreAt(i) && q.St(i).data == [] && data != [] && q.St(i).lqIt <= q.LqEnd()
    ensures StallIsOldest(ExecStore(q, i, addr, data))
  {
    hide FirstConflict;
    if q.stall.Some? {
      WaitingStays(q, ExecStore(q, i, addr, data), q.stall.value.storeSeq);
    }
  }

  lemma ExecStoreViolator(q: Lsq, i: nat, addr: nat, data: Bytes)
    requires ViolatorQueued(q) && q.StoreAt(i) && data != [] && q.St(i).lqIt <= q.LqEnd()
    ensures ViolatorQueued(ExecStore(q, i, addr, data))
  {
    var r := ExecStore(q, i, addr, data);
    var from := LoadsFrom(q, q.St(i).lqIt);
    if r.violator != q.violator {
      var k := FirstConflictQueued(from, addr, |data|, q.cfg.depCheckShift);
      assert q.lq[|q.lq| - |from| + k] == from[k];
    }
  }

  lemma ExecStoreKeeps(q: Lsq, i: nat, addr: nat, data: Bytes)
    requires QueueInv(q) && q.StoreAt(i) && q.St(i).data == [] && !q.St(i).canWB && data != []
    ensures QueueInv(ExecStore(q, i, addr, data))
  {
    hide Order, StoreSide, StallIsOldest, ViolatorQueued, FirstConflict, RequestsFit;
    ExecStoreOrder(q, i, addr, data);
    ExecStoreStores(q, i, addr, data);
    ExecStoreStall(q, i, addr, data);
    ExecStoreViolator(q, i, addr, data);
    ExecStoreRequests(q, i, addr, data);
  }

  lemma ExecStoreRequests(q: Lsq, i: nat, addr: nat, data: Bytes)
    requires RequestsFit(q) && q.StoreAt(i) && data != [] && q.St(i).lqIt <= q.LqEnd()
    ensures RequestsFit(ExecStore(q, i, addr, data))
  {
    hide FirstConflict;
    assert q.sq[i - q.sqHead] == q.St(i);
  }

  /** A request alone changes nothing else about the queues. */
  lemma TouchStoreKeeps(q: Lsq, i: nat)
    requires QueueInv(q) && q.StoreAt(i)
    ensures QueueInv(TouchStore(q, i))
  {
    hide Order, StoreSide, LoadSide, RequestsFit;
    TouchStoreOrder(q, i);
    TouchStoreRest(q, i);
    TouchStoreLoads(q, i);
  }

  lemma TouchStoreOrder(q: Lsq, i: nat)
    requires QueueInv(q) && q.StoreAt(i)
    ensures Order(TouchStore(q, i))
  {
    hide Order, SameKeys, StoreSide, LoadSide, RequestsFit;
    KeysInPlace(q, TouchStore(q, i));
    SameKeysOrder(q, TouchStore(q, i));
  }

  lemma TouchStoreRest(q: Lsq, i: nat)
    requires QueueInv(q) && q.StoreAt(i)
    ensures StoreSide(TouchStore(q, i)) && RequestsFit(TouchStore(q, i))
  {
    hide Order, LoadSide, CountOpen;
    CountOpenUpdate(q.sq, i - q.sqHead, q.St(i).(request := Requested(q.St(i).request, q.St(i).runahead)));
    TouchStoreRequests(q, i);
    hide RequestsFit;
  }

  lemma TouchStoreRequests(q: Lsq, i: nat)
    requires RequestsFit(q) && q.StoreAt(i)
    ensures RequestsFit(TouchStore(q, i))
  {
    assert q.sq[i - q.sqHead] == q.St(i);
  }

  lemma TouchStoreLoads(q: Lsq, i: nat)
    requires QueueInv(q) && q.StoreAt(i)
    ensures LoadSide(TouchStore(q, i))
  {
    hide Order, StoreSide, RequestsFit;
    if q.stall.Some? {
      WaitingStays(q, TouchStore(q, i), q.stall.value.storeSeq);
    }
  }
}
