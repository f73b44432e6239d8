/** Loads in flight to the D-cache: whenever it serves one, the bytes are the in-order ones. */
module LsqFlight {
  import opened Prelude
  import opened Memory
  import opened Coverage
  import opened LsqState
  import opened LsqWorld
  import opened LsqProof
  import opened LsqSteps
  import opened LsqRetire
  import opened LsqRefine
  import opened LsqSafety
  import opened LsqRuns

  // ---- Serving a load ---------------------------------------------------------------------------

  /** Older stores that write none of the bytes can be left out. */
  lemma {:induction false} ApartStoresAreInvisible(m: Contents, ss: seq<SQEntry>, n: nat, a: nat)
    requires forall i | 0 <= i < |ss| :: Keep(ss[i], n) ==> !Covers(AsStore(ss[i]), a)
    ensures Lookup(Fold(m, Older(ss, n)), a) == Lookup(m, a)
  {
    if ss != [] {
      var front, e := ss[..|ss| - 1], ss[|ss| - 1];
      ApartStoresAreInvisible(m, front, n, a);
      hide Put, Lookup;
      if Keep(e, n) {
        OlderPushed(m, ss, n);
        hide Older, Fold;
        LookupPut(Fold(m, Older(front, n)), AsStore(e), a);
      } else {
        assert Older(ss, n) == Older(front, n);
      }
    }
  }

  /** With nothing in the way, the D-cache as it is now holds the in-order bytes. */
  lemma ServedInOrder(w: World, e: LQEntry)
    requires WbPrefix(w.q) && Drained(w) && ClearAhead(w.q, e)
    ensures ReadBytes(w.q.dcache, e.addr, e.size) == ReadBytes(InOrderMemory(w, e.seqNum), e.addr, e.size)
  {
    var u := w.q.Unsent();
    assert forall i | 0 <= i < |u| :: u[i] == w.q.sq[w.q.storeWBIt - w.q.sqHead + i];
    FoldConcat(w.init, w.sent, Older(u, e.seqNum));
    forall a | e.addr <= a < e.addr + e.size
      ensures Lookup(w.q.dcache, a) == Lookup(InOrderMemory(w, e.seqNum), a)
    {
      hide Older, Fold, Lookup, AsStore;
      ApartStoresAreInvisible(w.q.dcache, u, e.seqNum, a);
    }
    hide Older, Fold, WbPrefix, Drained, InOrderMemory;
    ReadBytesEqual(w.q.dcache, InOrderMemory(w, e.seqNum), e.addr, e.size);
  }

  /** So a served load carries the right value, or is one that will be thrown away. */
  lemma ServeIsRight(w: World, j: nat, reply: Bytes)
    requires WbPrefix(w.q) && Drained(w) && InFlightClear(w) && w.q.LoadAt(j) && w.q.Ld(j).outcome.Sent?
    ensures ValueRight(w, ServeLoad(w.q, j, reply).Ld(j))
  {
    var e := w.q.Ld(j);
    assert w.q.lq[j - w.q.lqHead] == e;
    if !e.runahead && !Doomed(w, e.seqNum) {
      hide InFlightClear, Drained, InOrderMemory, ReadBytes, Doomed;
      assert ClearAhead(w.q, e);
      ServedInOrder(w, e);
    }
  }

  // ---- Sending a load ---------------------------------------------------------------------------

  /** A search that misses shares no byte with any store it may see. */
  lemma {:induction false} MissIsApart(ss: seq<SQEntry>, addr: nat, size: nat, k: nat)
    requires size > 0 && Scan(ss, false, addr, size).Miss? && k < |ss| && LsqState.Visible(ss[k], false)
    ensures Apart(AsStore(ss[k]), addr, size)
  {
    var e := ss[|ss| - 1];
    if k < |ss| - 1 {
      MissIsApart(ss[..|ss| - 1], addr, size, k);
    } else {
      CoverageIsExact(addr, size, e.addr, |e.data|, PLAIN);
      assert forall a | addr <= a < addr + size :: InRange(a, addr, size);
    }
  }

  lemma SentIsClear(q: Lsq, j: nat, f: LQEntry)
    requires Linked(q) && InBounds(q) && WbPrefix(q) && q.LoadAt(j) && f.seqNum == q.Ld(j).seqNum && f.size > 0
    requires Scan(Window(q, q.Ld(j).sqIt), false, f.addr, f.size).Miss?
    ensures ClearAhead(q, f)
  {
    var ss, d := Window(q, q.Ld(j).sqIt), q.storeWBIt - q.sqHead;
    forall i | 0 <= i < |q.sq| && q.storeWBIt <= q.sqHead + i && Keep(q.sq[i], f.seqNum)
      ensures Apart(AsStore(q.sq[i]), f.addr, f.size)
    {
      assert q.sqHead + i < q.lq[j - q.lqHead].sqIt;
      assert ss[i - d] == q.sq[i];
      hide Scan, Linked, InBounds, WbPrefix;
      MissIsApart(ss, f.addr, f.size, i - d);
    }
  }

  // ---- What every step keeps --------------------------------------------------------------------

  /** Every normal store with data that memory has yet to see in `r` was there in `q`. */
  predicate FewerAhead(q: Lsq, r: Lsq)
  {
    && q.sqHead <= r.sqHead && q.storeWBIt <= r.storeWBIt
    && forall i | 0 <= i < |r.sq| && r.storeWBIt <= r.sqHead + i && !r.sq[i].runahead && r.sq[i].data != [] ::
         var k := r.sqHead - q.sqHead + i;
         k < |q.sq| && AsStore(r.sq[i]) == AsStore(q.sq[k]) && !q.sq[k].runahead
  }

  lemma ClearStays(q: Lsq, r: Lsq, e: LQEntry)
    requires ClearAhead(q, e) && FewerAhead(q, r)
    ensures ClearAhead(r, e)
  {
    forall i | 0 <= i < |r.sq| && r.storeWBIt <= r.sqHead + i && Keep(r.sq[i], e.seqNum)
      ensures Apart(AsStore(r.sq[i]), e.addr, e.size)
    {
      var k := r.sqHead - q.sqHead + i;
      assert Keep(q.sq[k], e.seqNum);
      assert Apart(AsStore(q.sq[k]), e.addr, e.size);
    }
  }

  /** A normal load that is in flight after a step was in flight before it, and is doomed if it was. */
  predicate FlightFrom(w: World, v: World)
  {
    && w.q.lqHead <= v.q.lqHead
    && forall j | 0 <= j < |v.q.lq| && v.q.lq[j].outcome.Sent? && !v.q.lq[j].runahead ::
         var k := v.q.lqHead - w.q.lqHead + j;
         k < |w.q.lq| && StillSent(w.q.lq[k], v.q.lq[j]) && (Doomed(w, w.q.lq[k].seqNum) ==> Doomed(v, w.q.lq[k].seqNum))
  }

  predicate StillSent(e: LQEntry, f: LQEntry)
  {
    e.outcome.Sent? && !e.runahead && f.seqNum == e.seqNum && f.addr == e.addr && f.size == e.size
  }

  lemma FlightStays(w: World, v: World)
    requires InFlightClear(w) && FlightFrom(w, v) && FewerAhead(w.q, v.q)
    ensures InFlightClear(v)
  {
    hide FewerAhead, Doomed, ClearAhead;
    forall j | 0 <= j < |v.q.lq| && v.q.lq[j].outcome.Sent? && !v.q.lq[j].runahead && !Doomed(v, v.q.lq[j].seqNum)
      ensures ClearAhead(v.q, v.q.lq[j])
    {
      var e := w.q.lq[v.q.lqHead - w.q.lqHead + j];
      assert ClearAhead(w.q, e);
      ClearStays(w.q, v.q, e);
      SameBytesClear(v.q, e, v.q.lq[j]);
    }
  }

  lemma SameBytesClear(q: Lsq, e: LQEntry, f: LQEntry)
    requires ClearAhead(q, e) && StillSent(e, f)
    ensures ClearAhead(q, f)
  {
  }

  /** The stores ahead are as they were. */
  lemma SameAhead(q: Lsq, r: Lsq)
    requires r.sq == q.sq && r.sqHead == q.sqHead && r.storeWBIt == q.storeWBIt
    ensures FewerAhead(q, r)
  {
  }

  /** One load changed, and is not newly in flight. */
  lemma LoadChangedFlight(w: World, v: World, j: nat, f: LQEntry)
    requires InFlightClear(w) && w.q.LoadAt(j) && v == w.(q := v.q)
    requires v.q == w.q.(lq := w.q.lq[j - w.q.lqHead := f], stall := v.q.stall)
    requires f.outcome.Sent? && !f.runahead ==> Doomed(w, f.seqNum) || ClearAhead(w.q, f)
    ensures InFlightClear(v)
  {
    SameAhead(w.q, v.q);
    forall j | 0 <= j < |v.q.lq| && v.q.lq[j].outcome.Sent? && !v.q.lq[j].runahead
      ensures Doomed(v, v.q.lq[j].seqNum) || ClearAhead(v.q, v.q.lq[j])
    {
      assert v.q.lq[j] == f || v.q.lq[j] == w.q.lq[j];
      if ClearAhead(w.q, v.q.lq[j]) {
        ClearStays(w.q, v.q, v.q.lq[j]);
      }
    }
  }

  lemma RunLoadFlight(w: World, j: nat, addr: nat, size: nat, accept: bool)
    requires QueueInv(w.q) && InFlightClear(w) && w.q.LoadAt(j) && size > 0
    ensures InFlightClear(w.(q := ExecLoad(w.q, j, addr, size, accept)))
  {
    var f := ExecLoadEffect(w.q, j, addr, size, accept);
    if f.outcome.Sent? && !f.runahead {
      hide InFlightClear, ExecLoad, Scan, StoreSide, Shaped, ViolatorQueued, StallIsOldest, RequestsFit;
      assert WbPrefix(w.q) by {
        StoreSideHasPrefix(w.q);
      }
      SentIsClear(w.q, j, f);
    }
    hide QueueInv, ExecLoad, Scan, InFlightClear, ClearAhead;
    LoadChangedFlight(w, w.(q := ExecLoad(w.q, j, addr, size, accept)), j, f);
  }

  lemma StoreSideHasPrefix(q: Lsq)
    requires StoreSide(q)
    ensures WbPrefix(q)
  {
  }

  // ---- Executing a store ------------------------------------------------------------------------

  /** An executing store dooms the loads in flight that it shares a byte with, and misses the others. */
  lemma RunStoreFlight(w: World, i: nat, addr: nat, data: Bytes)
    requires QueueInv(w.q) && InFlightClear(w) && w.q.StoreAt(i) && w.q.storeWBIt <= i && data != []
    requires w.q.St(i).data == []
    ensures InFlightClear(w.(q := ExecStore(w.q, i, addr, data)))
  {
    var v := w.(q := ExecStore(w.q, i, addr, data));
    RunStoreFrame(w.q, i, addr, data);
    forall k | 0 <= k < |v.q.lq| && v.q.lq[k].outcome.Sent? && !v.q.lq[k].runahead && !Doomed(v, v.q.lq[k].seqNum)
      ensures ClearAhead(v.q, v.q.lq[k])
    {
      RunStoreClear(w, i, addr, data, k);
    }
  }

  lemma RunStoreClear(w: World, i: nat, addr: nat, data: Bytes, k: nat)
    requires QueueInv(w.q) && InFlightClear(w) && w.q.StoreAt(i) && w.q.storeWBIt <= i && data != []
    requires w.q.St(i).data == [] && k < |w.q.lq| && w.q.lq[k].outcome.Sent? && !w.q.lq[k].runahead
    requires !Doomed(w.(q := ExecStore(w.q, i, addr, data)), w.q.lq[k].seqNum)
    ensures ClearAhead(ExecStore(w.q, i, addr, data), w.q.lq[k])
  {
    var v := w.(q := ExecStore(w.q, i, addr, data));
    var e, s := w.q.lq[k], Written(w.q.St(i), addr, data);
    RunStoreFrame(w.q, i, addr, data);
    assert !Doomed(w, e.seqNum) && ClearAhead(w.q, e);
    assert e.addrValid && e.size > 0 by {
      SentHasAddress(w.q, k);
    }
    if Keep(s, e.seqNum) {
      StoreIsApart(w, i, addr, data, k);
    }
    hide QueueInv, ExecStore, Doomed, InFlightClear, Apart;
    forall x | 0 <= x < |v.q.sq| && v.q.storeWBIt <= v.q.sqHead + x && Keep(v.q.sq[x], e.seqNum)
      ensures Apart(AsStore(v.q.sq[x]), e.addr, e.size)
    {
      assert v.q.sq[x] == s || v.q.sq[x] == w.q.sq[x];
    }
  }

  lemma SentHasAddress(q: Lsq, k: nat)
    requires QueueInv(q) && k < |q.lq| && q.lq[k].outcome.Sent?
    ensures q.lq[k].addrValid && q.lq[k].size > 0
  {
  }

  lemma StoreIsApart(w: World, i: nat, addr: nat, data: Bytes, k: nat)
    requires QueueInv(w.q) && w.q.StoreAt(i) && data != [] && k < |w.q.lq|
    requires w.q.lq[k].addrValid && w.q.lq[k].size > 0 && w.q.St(i).seqNum < w.q.lq[k].seqNum
    requires !Doomed(w.(q := ExecStore(w.q, i, addr, data)), w.q.lq[k].seqNum)
    ensures Apart(Store(w.q.St(i).seqNum, addr, data), w.q.lq[k].addr, w.q.lq[k].size)
  {
    var e, s := w.q.lq[k], Store(w.q.St(i).seqNum, addr, data);
    if Conflicts(e, addr, |data|, w.q.cfg.depCheckShift) {
      ConflictDooms(w.q, i, addr, data, k);
    } else {
      forall a | e.addr <= a < e.addr + e.size ensures !Covers(s, a) {
        if Covers(s, a) {
          SharedByteIsCaught(addr, |data|, e.addr, e.size, w.q.cfg.depCheckShift, a);
        }
      }
    }
  }

  // ---- The other steps --------------------------------------------------------------------------

  lemma AddLoadFlight(w: World, seqNum: nat)
    requires InFlightClear(w)
    ensures InFlightClear(w.(q := InsertLoad(w.q, seqNum, w.runahead), newest := seqNum))
  {
    var v := w.(q := InsertLoad(w.q, seqNum, w.runahead), newest := seqNum);
    SameAhead(w.q, v.q);
    hide InFlightClear, FewerAhead;
    FlightStays(w, v);
  }

  lemma AddStoreFlight(w: World, seqNum: nat)
    requires InFlightClear(w)
    ensures InFlightClear(w.(q := InsertStore(w.q, seqNum, w.runahead), newest := seqNum))
  {
    hide InFlightClear;
    FlightStays(w, w.(q := InsertStore(w.q, seqNum, w.runahead), newest := seqNum));
  }

  lemma StartStoreFlight(w: World, i: nat)
    requires InFlightClear(w) && w.q.StoreAt(i)
    ensures InFlightClear(w.(q := TouchStore(w.q, i)))
  {
    hide InFlightClear;
    FlightStays(w, w.(q := TouchStore(w.q, i)));
  }

  /** One load takes a step that does not leave it in flight. */
  lemma LandedFlight(w: World, j: nat, f: LQEntry)
    requires InFlightClear(w) && w.q.LoadAt(j) && !f.outcome.Sent?
    ensures InFlightClear(w.(q := w.q.WithLoad(j, f)))
  {
    hide InFlightClear, ClearAhead;
    LoadChangedFlight(w, w.(q := w.q.WithLoad(j, f)), j, f);
  }

  lemma StartLoadFlight(w: World, j: nat)
    requires InFlightClear(w) && w.q.LoadAt(j) && w.q.Ld(j).outcome.Pending?
    ensures InFlightClear(w.(q := TouchLoad(w.q, j)))
  {
    hide InFlightClear;
    LandedFlight(w, j, TouchLoad(w.q, j).Ld(j));
  }

  lemma ServeFlight(w: World, j: nat, reply: Bytes)
    requires InFlightClear(w) && w.q.LoadAt(j)
    ensures InFlightClear(w.(q := ServeLoad(w.q, j, reply)))
  {
    hide InFlightClear, ReadBytes;
    LandedFlight(w, j, ServeLoad(w.q, j, reply).Ld(j));
  }

  lemma SkipLoadFlight(w: World, j: nat)
    requires InFlightClear(w) && w.q.LoadAt(j)
    ensures InFlightClear(w.(q := NullLoad(w.q, j)))
  {
    hide InFlightClear;
    LandedFlight(w, j, NullLoad(w.q, j).Ld(j));
  }

  /** Redirects and the reorder buffer only doom more. */
  lemma DoomKeptFlight(w: World, v: World)
    requires InFlightClear(w) && v.q == w.q.(violator := v.q.violator)
    requires forall j | 0 <= j < |w.q.lq| :: Doomed(w, w.q.lq[j].seqNum) ==> Doomed(v, w.q.lq[j].seqNum)
    ensures InFlightClear(v)
  {
    hide InFlightClear, Doomed;
    SameAhead(w.q, v.q);
    FlightStays(w, v);
  }

  lemma CommitAhead(q: Lsq, n: nat)
    requires WbPrefix(q)
    ensures FewerAhead(q, Commit(q, n))
  {
    CommitFrame(q, n);
    hide Commit, WbPrefix;
  }

  lemma CommitFlight(w: World, v: World, n: nat)
    requires WbPrefix(w.q) && InFlightClear(w) && v.q == Commit(w.q, n) && v.redirect == w.redirect
    ensures InFlightClear(v)
  {
    hide InFlightClear, Commit, WbPrefix, FewerAhead, MarkStores;
    CommitFrame(w.q, n);
    CommitAhead(w.q, n);
    FlightStays(w, v);
  }

  lemma SquashFlight(w: World, n: nat)
    requires Ascending(w.q) && Divided(w.q, w.done) && InFlightClear(w)
    ensures InFlightClear(AfterSquash(w, n))
  {
    SquashLoadsExact(w.q, n);
    SquashStoresExact(w.q, n, w.done);
    SquashFrame(w.q, n);
    SquashKeepsDoom(w, n);
    hide InFlightClear, Squash, Ascending, Divided, Doomed;
    FlightStays(w, AfterSquash(w, n));
  }

  lemma SquashKeepsDoom(w: World, n: nat)
    ensures forall s: nat | s <= n && Doomed(w, s) :: Doomed(AfterSquash(w, n), s)
  {
    hide CutLoads, CutStores;
  }

  lemma CompleteEntry(p: Lsq, i: nat, x: nat)
    requires MayComplete(p, i) && x < |Complete(p, i).sq|
    ensures var d := Complete(p, i).sqHead - p.sqHead;
            && 0 <= d && d + x < |p.sq| && AsStore(Complete(p, i).sq[x]) == AsStore(p.sq[d + x])
            && Complete(p, i).sq[x].runahead == p.sq[d + x].runahead
  {
    assert p.StoreAt(i);
    hide Complete, MayComplete, Marked, AsStore;
    CompleteSuffix(p, i);
    var d := Complete(p, i).sqHead - p.sqHead;
    assert Complete(p, i).sq[x] == Marked(p, i)[d + x];
    MarkedSame(p, i, d + x);
  }

  lemma CompleteMoves(p: Lsq, i: nat)
    requires MayComplete(p, i)
    ensures p.sqHead <= Complete(p, i).sqHead && Complete(p, i).storeWBIt == p.storeWBIt
  {
    hide Complete, MayComplete;
    CompleteSuffix(p, i);
  }

  lemma CompleteAhead(q: Lsq, p: Lsq, i: nat)
    requires MayComplete(p, i) && p == q.(storeWBIt := p.storeWBIt) && q.storeWBIt <= p.storeWBIt
    ensures FewerAhead(q, Complete(p, i))
  {
    assert p.StoreAt(i);
    hide Complete, MayComplete, AsStore;
    CompleteMoves(p, i);
    forall x | 0 <= x < |Complete(p, i).sq|
      ensures var d := Complete(p, i).sqHead - p.sqHead;
              && d + x < |p.sq| && AsStore(Complete(p, i).sq[x]) == AsStore(p.sq[d + x])
              && Complete(p, i).sq[x].runahead == p.sq[d + x].runahead
    {
      CompleteEntry(p, i, x);
    }
  }

  lemma MarkedSame(q: Lsq, i: nat, k: nat)
    requires q.StoreAt(i) && k < |q.sq|
    ensures |Marked(q, i)| == |q.sq|
    ensures AsStore(Marked(q, i)[k]) == AsStore(q.sq[k]) && Marked(q, i)[k].runahead == q.sq[k].runahead
  {
  }

  lemma CompleteFlight(w: World, v: World, p: Lsq, i: nat)
    requires InFlightClear(w) && MayComplete(p, i) && v.q == Complete(p, i) && v.redirect == w.redirect
    requires p == w.q.(storeWBIt := p.storeWBIt) && w.q.storeWBIt <= p.storeWBIt
    ensures InFlightClear(v)
  {
    assert p.StoreAt(i);
    hide InFlightClear, Complete, MayComplete, FewerAhead;
    CompleteFrame(p, i);
    CompleteSuffix(p, i);
    CompleteAhead(w.q, p, i);
    FlightStays(w, v);
  }

  lemma PostSendFlight(w: World, v: World)
    requires InFlightClear(w) && w.q.StoreAt(w.q.storeWBIt) && v.q == PostSend(w.q) && v.redirect == w.redirect
    ensures InFlightClear(v)
  {
    hide InFlightClear, Put;
    FlightStays(w, v);
  }

  lemma SameLoadsFlight(w: World, v: World)
    requires InFlightClear(w) && v.redirect == w.redirect && v.q == w.q.(storeBlocked := v.q.storeBlocked)
    ensures InFlightClear(v)
  {
    hide InFlightClear;
    SameAhead(w.q, v.q);
    FlightStays(w, v);
  }

  lemma WritebackFlight(w: World, v: World, accept: bool)
    requires QueueInv(w.q) && Divided(w.q, w.done) && InFlightClear(w)
    requires v.q == WbStep(w.q, accept) && v.redirect == w.redirect
    ensures InFlightClear(v)
  {
    hide Order, LoadSide, Counted, RequestsFit, PostSend, Complete, MayComplete, Divided, InFlightClear;
    if w.q.storeBlocked || (WbReady(w.q) && w.q.St(w.q.storeWBIt).data != []) {
      if ToRCache(w.q.St(w.q.storeWBIt)) || accept {
        PostSendFlight(w, v);
      } else {
        SameLoadsFlight(w, v);
      }
    } else if WbReady(w.q) {
      SkipEmptyReady(w.q, w.done);
      CompleteFlight(w, v, w.q.(storeWBIt := w.q.storeWBIt + 1), w.q.storeWBIt);
    } else {
      SameLoadsFlight(w, v);
    }
  }

  lemma EnterFlight(w: World, v: World)
    requires InFlightClear(w) && v.q == MarkRunahead(w.q, w.rob) && v.redirect == w.redirect
    ensures InFlightClear(v)
  {
    hide InFlightClear;
    FlightStays(w, v);
  }
}
