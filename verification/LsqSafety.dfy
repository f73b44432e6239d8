/** The state machine of `LsqWorld` keeps its invariant on every event, hence over every run. */
module LsqSafety {
  import opened Prelude
  import opened Memory
  import opened Coverage
  import opened LsqState
  import opened LsqWorld
  import opened LsqProof
  import opened LsqSteps
  import opened LsqRetire
  import opened LsqRefine

  // ---- Insertion --------------------------------------------------------------------------------

  lemma AddLoadLoads(w: World, seqNum: nat, runahead: bool)
    requires WbPrefix(w.q) && LoadsCorrect(w) && Drained(w)
    ensures var v := w.(q := InsertLoad(w.q, seqNum, runahead), newest := seqNum);
            WbPrefix(v.q) && Drained(v) && LoadsCorrect(v)
  {
    hide Older, Fold, ReadBytes;
  }

  /** Nothing happened to the loads, and nothing to what is prior to them. */
  lemma LoadsUntouched(w: World, v: World)
    requires WbPrefix(w.q) && WbPrefix(v.q) && v.init == w.init && LoadsCorrect(w)
    requires v.q.lq == w.q.lq && v.q.violator == w.q.violator && v.redirect == w.redirect
    requires forall n: nat :: Prior(v, n) == Prior(w, n)
    ensures LoadsCorrect(v)
  {
    hide Prior, Fold, ReadBytes;
  }

  lemma AddStoreLoads(w: World, seqNum: nat, runahead: bool)
    requires WbPrefix(w.q) && LoadsCorrect(w) && Drained(w)
    ensures var v := w.(q := InsertStore(w.q, seqNum, runahead), newest := seqNum);
            WbPrefix(v.q) && Drained(v) && LoadsCorrect(v)
  {
    var v := w.(q := InsertStore(w.q, seqNum, runahead), newest := seqNum);
    hide Prior, LoadsCorrect, WbPrefix;
    forall n: nat ensures WbPrefix(v.q) && Prior(v, n) == Prior(w, n) {
      PriorAfterInsert(w, seqNum, runahead, n);
      PriorDependsOnQueue(w.(q := v.q), v, n);
    }
    LoadsUntouched(w, v);
  }

  // ---- Executing loads --------------------------------------------------------------------------

  /** What an executed load's entry becomes; the rest of the queues is as before. */
  lemma ExecLoadEffect(q: Lsq, j: nat, addr: nat, size: nat, accept: bool) returns (f: LQEntry)
    requires q.LoadAt(j) && q.sqHead <= q.storeWBIt <= q.Ld(j).sqIt <= q.SqEnd()
    ensures var r := ExecLoad(q, j, addr, size, accept);
            && r == q.(lq := q.lq[j - q.lqHead := f], stall := r.stall)
            && f.seqNum == q.Ld(j).seqNum && f.runahead == q.Ld(j).runahead && f.addr == addr && f.size == size
            && (f.outcome.Value? && !f.runahead ==>
                  Scan(Window(q, q.Ld(j).sqIt), false, addr, size) == Forward(f.outcome.data))
            && (f.outcome.Sent? && !f.runahead ==> Scan(Window(q, q.Ld(j).sqIt), false, addr, size).Miss?)
  {
    hide Scan, ReadBytes, Window, StallLoad;
    f := ExecLoad(q, j, addr, size, accept).Ld(j);
  }

  /** The value a changed load carries, if it is a normal one, is the in-order one or will be thrown away. */
  predicate ValueRight(w: World, f: LQEntry)
    requires WbPrefix(w.q)
  {
    f.outcome.Value? && !f.runahead ==>
      Doomed(w, f.seqNum) || f.outcome.data == ReadBytes(InOrderMemory(w, f.seqNum), f.addr, f.size)
  }

  lemma LoadReplaced(w: World, v: World, k: nat)
    requires WbPrefix(w.q) && LoadsCorrect(w) && k < |w.q.lq| == |v.q.lq|
    requires v == w.(q := v.q) && v.q == w.q.(lq := v.q.lq, stall := v.q.stall) && v.q.lq == w.q.lq[k := v.q.lq[k]]
    requires ValueRight(w, v.q.lq[k])
    ensures LoadsCorrect(v)
  {
    hide Older, Fold, ReadBytes;
    assert forall n: nat :: Prior(v, n) == Prior(w, n);
    hide Prior;
  }

  lemma DrainedIgnoresLoads(w: World, v: World)
    requires WbPrefix(w.q) && Drained(w)
    requires v.q == w.q.(lq := v.q.lq, stall := v.q.stall, violator := v.q.violator)
    requires v.init == w.init && v.sent == w.sent && v.hist == w.hist && v.done == w.done
    ensures WbPrefix(v.q) && Drained(v)
  {
    hide Older, Fold;
  }

  lemma RunLoadLoads(w: World, j: nat, addr: nat, size: nat, accept: bool)
    requires QueueInv(w.q) && LoadsCorrect(w) && Drained(w) && w.q.LoadAt(j) && size > 0
    ensures var v := w.(q := ExecLoad(w.q, j, addr, size, accept));
            WbPrefix(v.q) && Drained(v) && LoadsCorrect(v)
  {
    LoadReadsPrior(w, j, addr, size);
    var f := ExecLoadEffect(w.q, j, addr, size, accept);
    var v := w.(q := ExecLoad(w.q, j, addr, size, accept));
    hide Order, Shaped, ViolatorQueued, StallIsOldest, StoreSide, RequestsFit, InOrderMemory, ReadBytes, ExecLoad, Scan,
         LoadsCorrect, Window, Drained;
    DrainedIgnoresLoads(w, v);
    LoadReplaced(w, v, j - w.q.lqHead);
  }

  /** A change to one load that gives it no value, or a right one. */
  lemma LoadChanged(w: World, j: nat, f: LQEntry)
    requires WbPrefix(w.q) && LoadsCorrect(w) && Drained(w) && w.q.LoadAt(j) && ValueRight(w, f)
    ensures var v := w.(q := w.q.WithLoad(j, f)); WbPrefix(v.q) && Drained(v) && LoadsCorrect(v)
  {
    hide LoadsCorrect, Older, Fold, InOrderMemory, ReadBytes;
    LoadReplaced(w, w.(q := w.q.WithLoad(j, f)), j - w.q.lqHead);
  }

  // ---- Executing stores -------------------------------------------------------------------------

  /** The recorded conflict is no younger than any load that conflicts. */
  lemma {:induction false} FirstConflictIsOldest(lq: seq<LQEntry>, addr: nat, size: nat, shift: nat, k: nat)
    requires size > 0 && k < |lq| && Conflicts(lq[k], addr, size, shift)
    requires forall a, b | 0 <= a < b < |lq| :: lq[a].seqNum < lq[b].seqNum
    ensures FirstConflict(lq, addr, size, shift).Some?
    ensures FirstConflict(lq, addr, size, shift).value <= lq[k].seqNum
  {
    if !Conflicts(lq[0], addr, size, shift) {
      FirstConflictIsOldest(lq[1..], addr, size, shift, k - 1);
    }
  }

  lemma ConflictInSuffix(lq: seq<LQEntry>, d: nat, addr: nat, size: nat, shift: nat, k: nat)
    requires size > 0 && d <= k < |lq| && Conflicts(lq[k], addr, size, shift)
    requires forall a, b | 0 <= a < b < |lq| :: lq[a].seqNum < lq[b].seqNum
    ensures FirstConflict(lq[d..], addr, size, shift).Some?
    ensures FirstConflict(lq[d..], addr, size, shift).value <= lq[k].seqNum
  {
    hide Conflicts, FirstConflict;
    FirstConflictIsOldest(lq[d..], addr, size, shift, k - d);
  }

  /** A younger load that conflicts with an executing store is doomed. */
  lemma ConflictDooms(q: Lsq, i: nat, addr: nat, data: Bytes, k: nat)
    requires Order(q) && InBounds(q) && q.StoreAt(i) && data != [] && k < |q.lq|
    requires q.St(i).seqNum < q.lq[k].seqNum && Conflicts(q.lq[k], addr, |data|, q.cfg.depCheckShift)
    ensures var r := ExecStore(q, i, addr, data); r.violator.Some? && r.violator.value <= q.lq[k].seqNum
  {
    assert q.sq[i - q.sqHead].lqIt <= q.lqHead + k && q.St(i).lqIt <= q.LqEnd();
    var d: nat := if q.St(i).lqIt <= q.lqHead then 0 else q.St(i).lqIt - q.lqHead;
    assert LoadsFrom(q, q.St(i).lqIt) == q.lq[d..];
    ConflictInSuffix(q.lq, d, addr, |data|, q.cfg.depCheckShift, k);
    hide Order, InBounds, FirstConflict, Conflicts, LoadsFrom;
  }

  /** Executing a store slips it into the list of executed stores at its place. */
  lemma OlderReplaced(u: seq<SQEntry>, k: nat, s: SQEntry, n: nat) returns (x: seq<Store>, y: seq<Store>)
    requires k < |u| && u[k].data == []
    ensures Older(u, n) == x + y
    ensures Older(u[k := s], n) == if Keep(s, n) then x + [AsStore(s)] + y else x + y
  {
    var a, b := u[..k], u[k + 1..];
    x, y := Older(a, n), Older(b, n);
    assert u == a + [u[k]] + b && u[k := s] == a + [s] + b;
    OlderConcat(a + [u[k]], b, n);
    OlderConcat(a, [u[k]], n);
    OlderOne(u[k], n);
    OlderConcat(a + [s], b, n);
    OlderConcat(a, [s], n);
    OlderOne(s, n);
    hide Older;
    assert x + [] == x;
  }

  /** A store that shares no byte with a load can execute before or after it. */
  lemma DisjointStoreInvisible(w: World, v: World, i: nat, s: SQEntry, n: nat, addr: nat, size: nat)
    requires WbPrefix(w.q) && WbPrefix(v.q) && v.sent == w.sent && v.init == w.init
    requires w.q.storeWBIt <= i && w.q.StoreAt(i) && w.q.St(i).data == [] && v.q.sqHead == w.q.sqHead
    requires v.q.storeWBIt == w.q.storeWBIt && v.q.sq == w.q.sq[i - w.q.sqHead := s]
    requires forall a | addr <= a < addr + size :: !Covers(AsStore(s), a)
    ensures ReadBytes(InOrderMemory(v, n), addr, size) == ReadBytes(InOrderMemory(w, n), addr, size)
  {
    hide Older, ReadBytes, Fold, AsStore;
    assert w.q.Unsent()[i - w.q.storeWBIt] == w.q.St(i);
    assert v.q.Unsent() == w.q.Unsent()[i - w.q.storeWBIt := s];
    hide WbPrefix, Lsq.Unsent, Lsq.St;
    var x, y := OlderReplaced(w.q.Unsent(), i - w.q.storeWBIt, s, n);
    SlippedInStore(w.init, w.sent, x, AsStore(s), y, addr, size);
  }

  lemma SlippedInStore(m: Contents, p: seq<Store>, x: seq<Store>, s: Store, y: seq<Store>, addr: nat, size: nat)
    requires forall a | addr <= a < addr + size :: !Covers(s, a)
    ensures ReadBytes(Fold(m, p + (x + [s] + y)), addr, size) == ReadBytes(Fold(m, p + (x + y)), addr, size)
  {
    assert p + (x + y) == (p + x) + y;
    assert p + (x + [s] + y) == (p + x) + [s] + y;
    hide ReadBytes, Fold;
    forall c | addr <= c < addr + size
      ensures Lookup(Fold(m, (p + x) + [s] + y), c) == Lookup(Fold(m, (p + x) + y), c)
    {
      FoldInsertMiss(m, p + x, s, y, c);
    }
    ReadBytesEqual(Fold(m, (p + x) + [s] + y), Fold(m, (p + x) + y), addr, size);
  }

  /** Executing a store changes nothing for instructions that are not younger than it. */
  lemma StoreInvisibleToOlder(w: World, v: World, i: nat, s: SQEntry, n: nat)
    requires WbPrefix(w.q) && WbPrefix(v.q) && v.sent == w.sent
    requires w.q.storeWBIt <= i && w.q.StoreAt(i) && w.q.St(i).data == [] && v.q.sqHead == w.q.sqHead
    requires v.q.storeWBIt == w.q.storeWBIt && v.q.sq == w.q.sq[i - w.q.sqHead := s]
    requires !Keep(s, n)
    ensures Prior(v, n) == Prior(w, n)
  {
    hide Older;
    assert v.q.Unsent() == w.q.Unsent()[i - w.q.storeWBIt := s];
    hide WbPrefix, Keep;
    var x, y := OlderReplaced(w.q.Unsent(), i - w.q.storeWBIt, s, n);
  }

  lemma RunStoreLoad(w: World, i: nat, addr: nat, data: Bytes, k: nat)
    requires QueueInv(w.q) && LoadsCorrect(w) && w.q.StoreAt(i) && w.q.storeWBIt <= i && data != []
    requires w.q.St(i).data == [] && k < |w.q.lq| && w.q.lq[k].outcome.Value? && !w.q.lq[k].runahead
    ensures var v := w.(q := ExecStore(w.q, i, addr, data));
            var e := w.q.lq[k];
            WbPrefix(v.q) && (Doomed(v, e.seqNum) || e.outcome.data == ReadBytes(InOrderMemory(v, e.seqNum), e.addr, e.size))
  {
    var v := w.(q := ExecStore(w.q, i, addr, data));
    var e := w.q.lq[k];
    var s := Written(w.q.St(i), addr, data);
    RunStoreFrame(w.q, i, addr, data);
    if !Keep(s, e.seqNum) {
      hide Order, LoadSide, BlockedIsReady, Counted, ExecStore, ReadBytes, Fold;
      StoreInvisibleToOlder(w, v, i, s, e.seqNum);
    } else if Conflicts(e, addr, |data|, w.q.cfg.depCheckShift) {
      hide Linked, LoadsCorrect, StallIsOldest, Shaped, ViolatorQueued, BlockedIsReady, Counted, ExecStore, ReadBytes, Fold;
      ConflictDooms(w.q, i, addr, data, k);
    } else {
      forall a | e.addr <= a < e.addr + e.size ensures !Covers(AsStore(s), a) {
        if Covers(AsStore(s), a) {
          SharedByteIsCaught(addr, |data|, e.addr, e.size, w.q.cfg.depCheckShift, a);
        }
      }
      hide Order, LoadSide, BlockedIsReady, Counted, ExecStore, ReadBytes, Fold;
      DisjointStoreInvisible(w, v, i, s, e.seqNum, e.addr, e.size);
    }
  }

  lemma RunStoreFrame(q: Lsq, i: nat, addr: nat, data: Bytes)
    requires WbPrefix(q) && InBounds(q) && q.StoreAt(i) && q.storeWBIt <= i && data != []
    ensures var r := ExecStore(q, i, addr, data);
            && WbPrefix(r)
            && r == q.(sq := q.sq[i - q.sqHead := Written(q.St(i), addr, data)], violator := r.violator)
            && (q.violator.Some? ==> r.violator.Some? && r.violator.value <= q.violator.value)
  {
    hide FirstConflict;
  }

  lemma RunStoreLoads(w: World, i: nat, addr: nat, data: Bytes)
    requires QueueInv(w.q) && LoadsCorrect(w) && w.q.StoreAt(i) && w.q.storeWBIt <= i && data != []
    requires w.q.St(i).data == []
    ensures var v := w.(q := ExecStore(w.q, i, addr, data)); WbPrefix(v.q) && LoadsCorrect(v)
  {
    var v := w.(q := ExecStore(w.q, i, addr, data));
    RunStoreFrame(w.q, i, addr, data);
    forall k | 0 <= k < |v.q.lq| && v.q.lq[k].outcome.Value? && !v.q.lq[k].runahead
      ensures Doomed(v, v.q.lq[k].seqNum)
           || v.q.lq[k].outcome.data == ReadBytes(InOrderMemory(v, v.q.lq[k].seqNum), v.q.lq[k].addr, v.q.lq[k].size)
    {
      RunStoreLoad(w, i, addr, data, k);
    }
    hide Order, LoadSide, BlockedIsReady, Counted, ExecStore, InOrderMemory, ReadBytes, Doomed;
  }

  lemma RunStoreDrained(w: World, i: nat, addr: nat, data: Bytes)
    requires WbPrefix(w.q) && InBounds(w.q) && Drained(w) && w.q.StoreAt(i) && w.q.storeWBIt <= i && data != []
    requires w.q.St(i).data == [] && w.done < w.q.St(i).seqNum
    ensures var v := w.(q := ExecStore(w.q, i, addr, data)); WbPrefix(v.q) && Drained(v)
  {
    var v := w.(q := ExecStore(w.q, i, addr, data));
    var s := Written(w.q.St(i), addr, data);
    assert w.q.St(i).lqIt <= w.q.LqEnd() by {
      assert w.q.sq[i - w.q.sqHead] == w.q.St(i);
    }
    hide ExecStore, Prior, Fold, WbPrefix, InBounds;
    RunStoreFrame(w.q, i, addr, data);
    StoreInvisibleToOlder(w, v, i, s, w.done + 1);
  }

  // ---- Redirects and the reorder buffer ---------------------------------------------------------

  /** Moving a violation into a redirect, or adding a redirect, only dooms more. */
  lemma DoomKept(w: World, v: World)
    requires WbPrefix(w.q) && LoadsCorrect(w) && v.q == w.q.(violator := v.q.violator)
    requires v.sent == w.sent && v.init == w.init
    requires forall j | 0 <= j < |w.q.lq| :: Doomed(w, w.q.lq[j].seqNum) ==> Doomed(v, w.q.lq[j].seqNum)
    ensures WbPrefix(v.q) && LoadsCorrect(v)
  {
    hide WbPrefix, Prior, LoadsCorrect, Fold, ReadBytes, Doomed;
    forall n: nat ensures WbPrefix(v.q) && Prior(v, n) == Prior(w, n) {
      PriorDependsOnQueue(w, v, n);
    }
    PrefixIgnoresViolator(w.q, v.q);
    assert forall j | 0 <= j < |v.q.lq| && v.q.lq[j].outcome.Value? && !v.q.lq[j].runahead ::
        CarriesOver(w, v, w.q.lq[j], v.q.lq[j]);
    LoadsCarryOver(w, v);
  }

  // ---- Commit -----------------------------------------------------------------------------------

  lemma CommitFrame(q: Lsq, n: nat)
    requires WbPrefix(q)
    ensures var r := Commit(q, n);
            && WbPrefix(r) && r.sqHead == q.sqHead && r.storeWBIt == q.storeWBIt && r.sq == MarkStores(q.sq, n)
            && q.lqHead <= r.lqHead && r.LqEnd() == q.LqEnd() && r.violator == q.violator && r.dcache == q.dcache
            && (forall j | 0 <= j < |r.lq| :: r.lq[j] == q.lq[r.lqHead - q.lqHead + j])
  {
    hide DropLoads, CountNew;
  }

  lemma CommitPrior(w: World, n: nat, m: nat)
    requires WbPrefix(w.q)
    ensures WbPrefix(Commit(w.q, n)) && Prior(w.(q := Commit(w.q, n)), m) == Prior(w, m)
  {
    CommitFrame(w.q, n);
    hide Commit;
    PriorSame(w, w.(q := Commit(w.q, n)), m);
  }

  lemma CommitLoads(w: World, v: World, n: nat)
    requires WbPrefix(w.q) && LoadsCorrect(w)
    requires v.q == Commit(w.q, n) && v.redirect == w.redirect && v.sent == w.sent && v.init == w.init
    ensures WbPrefix(v.q) && LoadsCorrect(v)
  {
    hide Commit, Prior, LoadsCorrect, WbPrefix, MarkStores;
    CommitFrame(w.q, n);
    forall m: nat ensures WbPrefix(v.q) && Prior(v, m) == Prior(w, m) {
      CommitPrior(w, n, m);
      PriorDependsOnQueue(w.(q := v.q), v, m);
    }
    LoadsCarryOver(w, v);
  }

  /** The stores that commit now are exactly those between the old and the new commit point. */
  lemma CommitHistory(w: World, n: nat)
    requires WbPrefix(w.q) && Ascending(w.q) && Divided(w.q, w.done) && w.done <= n
    ensures Prior(w, n + 1) == Prior(w, w.done + 1) + Between(w.q.sq, w.done + 1, n + 1)
  {
    hide Older, Between;
    var k := w.q.storeWBIt - w.q.sqHead;
    assert forall i | 0 <= i < k :: w.q.sq[i].canWB;
    BetweenSuffix(w.q.sq, k, w.done + 1, n + 1);
    OlderSplit(w.q.Unsent(), w.done + 1, n + 1);
  }

  lemma CommitDrained(w: World, v: World, n: nat)
    requires WbPrefix(w.q) && Ascending(w.q) && Divided(w.q, w.done) && w.done <= n && Drained(w)
    requires v.q == Commit(w.q, n) && v.sent == w.sent && v.init == w.init && v.done == n
    requires v.hist == w.hist + Between(w.q.sq, w.done + 1, n + 1)
    ensures WbPrefix(v.q) && Drained(v)
  {
    CommitFrame(w.q, n);
    CommitPrior(w, n, n + 1);
    CommitHistory(w, n);
    hide Commit, Divided, Older, Between, Fold, WbPrefix;
    assert Prior(v, n + 1) == Prior(w.(q := v.q), n + 1);
  }

  /** Committing more stores does not change what came before an already committed load. */
  lemma LogExtends(init: Contents, hist: seq<Store>, more: seq<Store>, done: nat, n: nat, l: LoggedLoad)
    requires LogEntryCorrect(init, hist, done, l) && done <= n && forall s | s in more :: done < s.seqNum
    ensures LogEntryCorrect(init, hist + more, n, l)
  {
    BeforeConcat(hist, more, l.seqNum);
    BeforeNone(more, l.seqNum);
    hide Before, Fold, ReadBytes;
    assert Before(hist, l.seqNum) + [] == Before(hist, l.seqNum);
  }

  /** The stores committed up to `n`, cut at an older instruction, are the stores prior to it. */
  lemma HistoryBefore(w: World, n: nat, m: nat)
    requires WbPrefix(w.q) && SentOldEnough(w) && w.done < m <= n + 1
    ensures Before(Prior(w, n + 1), m) == Prior(w, m)
  {
    var u := w.q.Unsent();
    BeforeConcat(w.sent, Older(u, n + 1), m);
    BeforeAll(w.sent, m);
    BeforeOlder(u, m, n + 1);
    hide Before, Older;
  }

  lemma {:induction false} LeavingCorrect(w: World, hist: seq<Store>, lq: seq<LQEntry>, n: nat)
    requires WbPrefix(w.q) && SentOldEnough(w) && hist == Prior(w, n + 1)
    requires forall j | 0 <= j < |lq| && lq[j].seqNum <= n && lq[j].outcome.Value? && !lq[j].runahead ::
               && w.done < lq[j].seqNum && |lq[j].outcome.data| == lq[j].size
               && lq[j].outcome.data == ReadBytes(InOrderMemory(w, lq[j].seqNum), lq[j].addr, lq[j].size)
    ensures LogCorrect(w.init, hist, n, Leaving(lq, n))
  {
    if lq != [] && lq[0].seqNum <= n {
      LeavingCorrect(w, hist, lq[1..], n);
      if lq[0].outcome.Value? && !lq[0].runahead {
        HistoryBefore(w, n, lq[0].seqNum);
      }
      hide Before, Fold, ReadBytes, Prior, SentOldEnough, WbPrefix;
    }
  }

  lemma LogConcat(init: Contents, hist: seq<Store>, done: nat, a: seq<LoggedLoad>, b: seq<LoggedLoad>)
    requires LogCorrect(init, hist, done, a) && LogCorrect(init, hist, done, b)
    ensures LogCorrect(init, hist, done, a + b)
  {
    hide LogEntryCorrect;
  }

  lemma LogKept(init: Contents, hist: seq<Store>, more: seq<Store>, done: nat, n: nat, loads: seq<LoggedLoad>)
    requires LogCorrect(init, hist, done, loads) && done <= n && forall s | s in more :: done < s.seqNum
    ensures LogCorrect(init, hist + more, n, loads)
  {
    forall k | 0 <= k < |loads| ensures LogEntryCorrect(init, hist + more, n, loads[k]) {
      hide Before, Fold, ReadBytes;
      LogExtends(init, hist, more, done, n, loads[k]);
    }
  }

  lemma CommitLog(w: World, n: nat)
    requires Inv(w) && Guard(w, CommitUpTo(n))
    ensures LogCorrect(w.init, w.hist + Between(w.q.sq, w.done + 1, n + 1), n, w.loads + Leaving(w.q.lq, n))
  {
    CommitHistory(w, n);
    var more := Between(w.q.sq, w.done + 1, n + 1);
    BetweenBounds(w.q.sq, w.done + 1, n + 1);
    LeavingLoadsRight(w, n);
    hide Order, LoadSide, WbPrefix, BlockedIsReady, Counted, LoadsCorrect, Staged, Between, Leaving, Prior, Fold, LogCorrect, SentOldEnough, InOrderMemory, ReadBytes;
    LogKept(w.init, w.hist, more, w.done, n, w.loads);
    LeavingCorrect(w, w.hist + more, w.q.lq, n);
    LogConcat(w.init, w.hist + more, n, w.loads, Leaving(w.q.lq, n));
  }

  /** A load that has left the reorder buffer is not doomed, so it holds the in-order value. */
  lemma LeavingLoadsRight(w: World, n: nat)
    requires QueueInv(w.q) && Staged(w) && LoadsCorrect(w) && n <= w.rob
    ensures forall j | 0 <= j < |w.q.lq| && w.q.lq[j].seqNum <= n && w.q.lq[j].outcome.Value? && !w.q.lq[j].runahead ::
               && w.done < w.q.lq[j].seqNum && |w.q.lq[j].outcome.data| == w.q.lq[j].size
               && w.q.lq[j].outcome.data == ReadBytes(InOrderMemory(w, w.q.lq[j].seqNum), w.q.lq[j].addr, w.q.lq[j].size)
  {
    hide Order, StoreSide, InBounds, ViolatorQueued, StallIsOldest, InOrderMemory, ReadBytes;
  }
}
