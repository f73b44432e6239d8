/** What the invariant of the load/store queue says about every run. */
module LsqResults {
  import opened Prelude
  import opened Memory
  import opened Coverage
  import opened LsqState
  import opened LsqWorld
  import opened LsqProof
  import opened LsqSteps
  import opened LsqRetire
  import opened LsqSafety
  import opened LsqRuns
  import opened LsqFlight
  import opened LsqCover
  import opened LsqTheorems

  // ---- Loads ------------------------------------------------------------------------------------

  /** In every reachable state an executed normal load holds the in-order bytes, unless it will be squashed. */
  lemma LoadsAgreeWithInOrderMemory(cfg: Config, memory: Contents, es: seq<Event>, j: nat)
    requires Possible(cfg, memory, es)
    requires var q := Reached(cfg, memory, es).q; q.LoadAt(j) && q.Ld(j).outcome.Value? && !q.Ld(j).runahead
    ensures var w := Reached(cfg, memory, es);
            var e := w.q.Ld(j);
            || Doomed(w, e.seqNum)
            || e.outcome.data == ReadBytes(Fold(memory, Prior(w, e.seqNum)), e.addr, e.size)
  {
    var w := Reached(cfg, memory, es);
    hide Possible, Reached, Core, QueueInv, WbPrefix, InBounds, LoadsCorrect, Drained, Staged, InFlightClear, Covered, Doomed,
         Prior, Fold, ReadBytes;
    CoreHasPrefix(w);
    LoadIsRight(w, j);
  }

  lemma LoadIsRight(w: World, j: nat)
    requires WbPrefix(w.q) && LoadsCorrect(w) && w.q.LoadAt(j) && w.q.Ld(j).outcome.Value? && !w.q.Ld(j).runahead
    ensures var e := w.q.Ld(j);
            Doomed(w, e.seqNum) || e.outcome.data == ReadBytes(Fold(w.init, Prior(w, e.seqNum)), e.addr, e.size)
  {
    hide WbPrefix, Doomed, Prior, Fold, ReadBytes;
    assert w.q.lq[j - w.q.lqHead] == w.q.Ld(j);
  }

  /** Every load that commits read the memory left by the older committed normal stores, as an in-order machine would. */
  lemma CommittedLoadsAreInOrder(cfg: Config, memory: Contents, es: seq<Event>, k: nat)
    requires Possible(cfg, memory, es) && k < |Reached(cfg, memory, es).loads|
    ensures var w := Reached(cfg, memory, es);
            var l := w.loads[k];
            l.data == ReadBytes(Fold(memory, Before(w.hist, l.seqNum)), l.addr, |l.data|)
  {
    var w := Reached(cfg, memory, es);
    hide Possible, Reached, QueueInv, Staged, LoadsCorrect, Drained, Before, Fold, ReadBytes;
    assert LogEntryCorrect(w.init, w.hist, w.done, w.loads[k]);
  }

  /**
   * A normal load the D-cache has accepted may be served at any moment from then on, whatever was written back or
   * squashed since: the D-cache holds its in-order bytes, unless the load will be thrown away.
   */
  lemma ServedAtAnyTime(cfg: Config, memory: Contents, es: seq<Event>, j: nat)
    requires Possible(cfg, memory, es)
    requires var q := Reached(cfg, memory, es).q; q.LoadAt(j) && q.Ld(j).outcome.Sent? && !q.Ld(j).runahead
    ensures var w := Reached(cfg, memory, es);
            var e := w.q.Ld(j);
            || Doomed(w, e.seqNum)
            || ReadBytes(w.q.dcache, e.addr, e.size) == ReadBytes(Fold(memory, Prior(w, e.seqNum)), e.addr, e.size)
  {
    var w := Reached(cfg, memory, es);
    CoreHasPrefix(w);
    hide Possible, Reached, Core, QueueInv, WbPrefix, LoadsCorrect, Drained, Staged, InFlightClear, Doomed, Prior, Fold,
         ReadBytes;
    ServeIsRight(w, j, []);
  }

  // ---- Stores -----------------------------------------------------------------------------------

  /** The D-cache is memory after a prefix, in commit order, of the normal stores that have committed. */
  lemma DcacheIsCommittedPrefix(cfg: Config, memory: Contents, es: seq<Event>)
    requires Possible(cfg, memory, es)
    ensures var w := Reached(cfg, memory, es); w.q.dcache == Fold(memory, w.sent) && w.sent <= w.hist
  {
    var w := Reached(cfg, memory, es);
    hide Possible, Reached, Order, LoadSide, Staged, LoadsCorrect, LogCorrect, Fold, Older;
  }

  predicate InProgramOrder(ss: seq<Store>)
  {
    forall a, b | 0 <= a < b < |ss| :: ss[a].seqNum < ss[b].seqNum
  }

  /** The commit history lists stores in program order. */
  predicate HistoryOrdered(w: World)
  {
    && InProgramOrder(w.hist)
    && (forall a | 0 <= a < |w.hist| :: w.hist[a].seqNum <= w.done)
  }

  lemma {:induction false} BetweenBelow(ss: seq<SQEntry>, lo: nat, hi: nat, n: nat)
    requires forall a | 0 <= a < |ss| :: ss[a].seqNum < n
    ensures forall a | 0 <= a < |Between(ss, lo, hi)| :: Between(ss, lo, hi)[a].seqNum < n
  {
    if ss != [] {
      BetweenBelow(ss[..|ss| - 1], lo, hi, n);
    }
  }

  lemma {:induction false} BetweenOrdered(ss: seq<SQEntry>, lo: nat, hi: nat)
    requires forall a, b | 0 <= a < b < |ss| :: ss[a].seqNum < ss[b].seqNum
    ensures InProgramOrder(Between(ss, lo, hi))
  {
    if ss != [] {
      var e, front := ss[|ss| - 1], ss[..|ss| - 1];
      BetweenOrdered(front, lo, hi);
      BetweenBelow(front, lo, hi, e.seqNum);
      assert InProgramOrder(Between(front, lo, hi) + [AsStore(e)]);
    }
  }

  lemma FactsOfInv(w: World)
    requires Inv(w)
    ensures QueueInv(w.q) && Ascending(w.q) && w.done <= w.rob && Divided(w.q, w.done)
  {
  }

  lemma AppendOrdered(w: World, v: World, more: seq<Store>)
    requires HistoryOrdered(w) && w.done <= v.done && v.hist == w.hist + more
    requires InProgramOrder(more)
    requires forall s | s in more :: w.done + 1 <= s.seqNum < v.done + 1
    ensures HistoryOrdered(v)
  {
    assert forall a | 0 <= a < |more| :: more[a] in more;
  }

  lemma StepKeepsHistoryOrdered(w: World, e: Event)
    requires Inv(w) && Guard(w, e) && HistoryOrdered(w)
    ensures HistoryOrdered(Next(w, e))
  {
    hide Inv, Between, Commit, Leaving, ExecLoad, ExecStore, NullLoad, TouchLoad, TouchStore, ServeLoad, WbStep, Complete,
         MarkRunahead, Squash;
    if e.CommitUpTo? {
      FactsOfInv(w);
      hide QueueInv, Divided, HistoryOrdered;
      BetweenOrdered(w.q.sq, w.done + 1, e.n + 1);
      BetweenBounds(w.q.sq, w.done + 1, e.n + 1);
      AppendOrdered(w, Next(w, e), Between(w.q.sq, w.done + 1, e.n + 1));
    }
  }

  /** In every reachable state the committed normal stores are listed in program order. */
  lemma {:induction false} HistoryStaysOrdered(w: World, es: seq<Event>)
    requires Inv(w) && Enabled(w, es) && HistoryOrdered(w)
    ensures HistoryOrdered(After(w, es))
    decreases |es|
  {
    hide Inv, HistoryOrdered;
    if es != [] {
      StepKeepsInv(w, es[0]);
      StepKeepsHistoryOrdered(w, es[0]);
      HistoryStaysOrdered(Next(w, es[0]), es[1..]);
    }
  }

  // ---- Bookkeeping ------------------------------------------------------------------------------

  /** In every reachable state the counter is exact and the committed stores form a prefix of the queue. */
  lemma StoresToWritebackExact(cfg: Config, memory: Contents, es: seq<Event>)
    requires Possible(cfg, memory, es)
    ensures var q := Reached(cfg, memory, es).q;
            && q.storesToWB == CountOpen(q.sq)
            && (forall a, b | 0 <= a < b < |q.sq| :: q.sq[b].canWB ==> q.sq[a].canWB)
  {
    var w := Reached(cfg, memory, es);
    hide Possible, Reached, Linked, LoadSide, LoadsCorrect, LogCorrect, Drained;
    FactsOfInv(w);
    assert Counted(w.q);
    hide QueueInv, CountOpen;
  }

  lemma {:induction false} CountOpenPositive(sq: seq<SQEntry>, i: nat)
    requires i < |sq| && sq[i].canWB && !sq[i].completed
    ensures CountOpen(sq) > 0
  {
    if i < |sq| - 1 {
      CountOpenPositive(sq[..|sq| - 1], i);
    }
  }

  /** When write-back stops and the D-cache refused nothing, every committed store has been handed over. */
  lemma WritebackDrains(q: Lsq, done: nat)
    requires QueueInv(q) && Divided(q, done) && !q.storeBlocked && !WbReady(q) && !(q.cfg.needsTSO && q.storeInFlight)
    ensures forall i | q.storeWBIt - q.sqHead <= i < |q.sq| :: !q.sq[i].canWB
  {
    hide Linked, LoadSide, BlockedIsReady;
    if q.StoreAt(q.storeWBIt) && q.St(q.storeWBIt).canWB {
      CountOpenPositive(q.sq, q.storeWBIt - q.sqHead);
    }
    hide CountOpen;
  }

  /**
   * What the source asserts or panics on, in every reachable state: a search never starts behind the write-back
   * position and never meets a completed store; a blocked store is a normal one; and a load that waits to be
   * replayed is never forgotten, because its stall names a store with data that has yet to be sent.
   */
  lemma SourceAssertsHold(cfg: Config, memory: Contents, es: seq<Event>)
    requires Possible(cfg, memory, es)
    ensures var q := Reached(cfg, memory, es).q;
            && (forall j | 0 <= j < |q.lq| :: q.storeWBIt <= q.lq[j].sqIt <= q.SqEnd())
            && (forall i | 0 <= i < |q.sq| && q.storeWBIt <= q.sqHead + i :: !q.sq[i].completed)
            && (q.storeBlocked ==> q.StoreAt(q.storeWBIt) && !q.St(q.storeWBIt).runahead)
            && (forall j | 0 <= j < |q.lq| && q.lq[j].outcome.Rescheduled? ::
                  q.stall.Some? && q.stall.value.storeSeq < q.lq[j].seqNum && Waiting(q, q.stall.value.storeSeq))
  {
    var w := Reached(cfg, memory, es);
    hide Possible, Reached, Order, Counted, Shaped, ViolatorQueued, Staged, LoadsCorrect, LogCorrect, Drained, Waiting;
  }

  /**
   * The instruction's flag and its request's flag are set at different times, yet in every reachable state they agree
   * wherever there is a request, so a store goes to the R-cache exactly when its instruction is a runahead one.
   */
  lemma RequestFlagsAgree(cfg: Config, memory: Contents, es: seq<Event>)
    requires Possible(cfg, memory, es)
    ensures var q := Reached(cfg, memory, es).q;
            && (forall j | q.LoadAt(j) && q.Ld(j).request.Some? :: q.Ld(j).request.value == q.Ld(j).runahead)
            && (forall i | q.StoreAt(i) && q.St(i).request.Some? :: q.St(i).request.value == q.St(i).runahead)
            && (forall j | q.LoadAt(j) && q.Ld(j).outcome.Sent? :: q.Ld(j).request.Some?)
            && (forall i | q.StoreAt(i) && q.St(i).data != [] :: ToRCache(q.St(i)) <==> q.St(i).runahead)
  {
    var w := Reached(cfg, memory, es);
    CoreHasPrefix(w);
    hide Possible, Reached, Core, WbPrefix, LoadsCorrect, Drained, Staged, InFlightClear, Order, StoreSide, LoadSide;
  }

  // ---- Runahead isolation -----------------------------------------------------------------------

  /** Store `n` is not a normal store: wherever it is queued it is a runahead one, and it has not committed to memory. */
  predicate Quarantined(w: World, n: nat)
  {
    && n <= w.newest
    && (forall i | 0 <= i < |w.q.sq| :: w.q.sq[i].seqNum == n ==> w.q.sq[i].runahead)
    && (forall a | 0 <= a < |w.hist| :: w.hist[a].seqNum != n)
  }

  lemma {:induction false} BetweenSkipsRunahead(ss: seq<SQEntry>, lo: nat, hi: nat, n: nat)
    requires forall i | 0 <= i < |ss| :: ss[i].seqNum == n ==> ss[i].runahead
    ensures forall a | 0 <= a < |Between(ss, lo, hi)| :: Between(ss, lo, hi)[a].seqNum != n
  {
    if ss != [] {
      BetweenSkipsRunahead(ss[..|ss| - 1], lo, hi, n);
    }
  }

  /** Every store queue entry was there before, with the same age and the same flag. */
  predicate StoresFrom(q: Lsq, r: Lsq)
  {
    && q.sqHead <= r.sqHead && r.SqEnd() <= q.SqEnd()
    && (forall i | 0 <= i < |r.sq| ::
          var e := q.sq[r.sqHead - q.sqHead + i]; r.sq[i].seqNum == e.seqNum && r.sq[i].runahead == e.runahead)
  }

  lemma QuarantineFrom(w: World, v: World, more: seq<Store>, n: nat)
    requires Quarantined(w, n) && StoresFrom(w.q, v.q) && w.newest <= v.newest && v.hist == w.hist + more
    requires forall a | 0 <= a < |more| :: more[a].seqNum != n
    ensures Quarantined(v, n)
  {
  }

  lemma SameStores(q: Lsq, r: Lsq)
    requires r.sq == q.sq && r.sqHead == q.sqHead
    ensures StoresFrom(q, r)
  {
  }

  lemma CompleteStoresFrom(q: Lsq, i: nat)
    requires MayComplete(q, i)
    ensures StoresFrom(q, Complete(q, i))
  {
    hide Complete, MayComplete;
    CompleteLeaves(q, i);
  }

  lemma SkipStoresFrom(q: Lsq, p: Lsq, i: nat)
    requires MayComplete(p, i) && p.sq == q.sq && p.sqHead == q.sqHead
    ensures StoresFrom(q, Complete(p, i))
  {
    hide Complete, MayComplete;
    CompleteStoresFrom(p, i);
  }

  lemma PostSendSameStores(q: Lsq)
    requires q.StoreAt(q.storeWBIt)
    ensures PostSend(q).sq == q.sq && PostSend(q).sqHead == q.sqHead
  {
  }

  lemma WbStepStores(q: Lsq, done: nat, accept: bool)
    requires QueueInv(q) && Divided(q, done)
    ensures StoresFrom(q, WbStep(q, accept))
  {
    hide Order, LoadSide, Counted, WbPrefix, Divided, StoresFrom, PostSend, Complete, MayComplete;
    if !q.storeBlocked && WbReady(q) && q.St(q.storeWBIt).data == [] {
      SkipEmptyReady(q, done);
      SkipStoresFrom(q, q.(storeWBIt := q.storeWBIt + 1), q.storeWBIt);
    } else {
      if q.StoreAt(q.storeWBIt) {
        PostSendSameStores(q);
      }
      SameStores(q, WbStep(q, accept));
    }
  }

  lemma SquashStoresFrom(q: Lsq, n: nat)
    ensures StoresFrom(q, Squash(q, n))
  {
    hide CutLoads, CutStores;
    var r := Squash(q, n);
    assert r.sqHead == q.sqHead && |r.sq| <= |q.sq|;
    assert forall i | 0 <= i < |r.sq| :: r.sq[i] == q.sq[i];
    hide Squash;
  }

  lemma CommitStoresFrom(q: Lsq, n: nat)
    ensures StoresFrom(q, Commit(q, n))
  {
    hide DropLoads, CountNew;
  }

  lemma ResponseStoresFrom(w: World, i: nat)
    requires Inv(w) && Guard(w, Response(i))
    ensures StoresFrom(w.q, Complete(w.q, i))
  {
    ResponseReady(w.q, i);
    hide Inv, Complete, MayComplete, StoresFrom;
    CompleteStoresFrom(w.q, i);
  }

  lemma ExecLoadSameStores(q: Lsq, j: nat, addr: nat, size: nat, accept: bool)
    requires q.LoadAt(j) && q.sqHead <= q.storeWBIt <= q.Ld(j).sqIt <= q.SqEnd()
    ensures var r := ExecLoad(q, j, addr, size, accept); r.sq == q.sq && r.sqHead == q.sqHead
  {
    var f := ExecLoadEffect(q, j, addr, size, accept);
    hide ExecLoad;
  }

  lemma ExecStoreStoresFrom(q: Lsq, i: nat, addr: nat, data: Bytes)
    requires q.StoreAt(i) && data != [] && q.St(i).lqIt <= q.LqEnd()
    ensures StoresFrom(q, ExecStore(q, i, addr, data))
  {
    hide FirstConflict;
  }

  lemma TouchStoreStoresFrom(q: Lsq, i: nat)
    requires q.StoreAt(i)
    ensures StoresFrom(q, TouchStore(q, i))
  {
    hide Requested;
  }

  lemma RunLoadStoresFrom(w: World, j: nat, addr: nat, size: nat, accept: bool)
    requires Inv(w) && w.q.LoadAt(j)
    ensures w.q.storeWBIt <= w.q.Ld(j).sqIt <= w.q.SqEnd() && StoresFrom(w.q, ExecLoad(w.q, j, addr, size, accept))
  {
    CoreHasPrefix(w);
    hide Inv, QueueInv, InBounds, StoresFrom, ExecLoad;
    ExecLoadSameStores(w.q, j, addr, size, accept);
    SameStores(w.q, ExecLoad(w.q, j, addr, size, accept));
  }

  lemma SquashEventStores(w: World, n: nat)
    ensures StoresFrom(w.q, AfterSquash(w, n).q)
  {
    hide StoresFrom, Squash;
    SquashStoresFrom(w.q, n);
  }

  lemma WritebackStores(w: World, accept: bool)
    requires Inv(w)
    ensures StoresFrom(w.q, WbStep(w.q, accept))
  {
    FactsOfInv(w);
    hide Inv, QueueInv, Divided, WbStep, StoresFrom;
    WbStepStores(w.q, w.done, accept);
  }

  /** No event but these two gives a queued store another flag, or puts a new store in the queue. */
  lemma StepStores(w: World, e: Event)
    requires Inv(w) && Guard(w, e) && !e.AddStore? && !e.EnterRunahead?
    ensures StoresFrom(w.q, Next(w, e).q) && w.newest <= Next(w, e).newest
    ensures !e.CommitUpTo? ==> Next(w, e).hist == w.hist
  {
    var v := Next(w, e);
    CoreHasPrefix(w);
    CoreHasBlocked(w);
    hide Inv, QueueInv, WbPrefix, BlockedIsReady, InBounds, Drained, LoadsCorrect, Staged, StoresFrom, ExecLoad, ExecStore,
         TouchStore, WbStep, Complete, Squash, Commit, AfterSquash, Between, Leaving, Taken, MarkRunahead, Redirected, Fresh;
    match e
    case RunStore(i, addr, data) => ExecStoreStoresFrom(w.q, i, addr, data);
    case StartStore(i) => TouchStoreStoresFrom(w.q, i);
    case RunLoad(j, addr, size, accept) => RunLoadStoresFrom(w, j, addr, size, accept);
    case Writeback(accept) => WritebackStores(w, accept);
    case Response(i) => ResponseStoresFrom(w, i);
    case SquashAbove(n) =>
      SquashEventStores(w, n);
      SquashFrameOf(w, n);
    case ExitRunahead(n) =>
      SquashEventStores(w, n);
      SquashFrameOf(w, n);
    case CommitUpTo(n) => CommitStoresFrom(w.q, n);
    case AddLoad(_) => SameStores(w.q, v.q);
    case StartLoad(_) => SameStores(w.q, v.q);
    case Serve(_, _) => SameStores(w.q, v.q);
    case SkipLoad(_) => SameStores(w.q, v.q);
    case TakeViolator =>
      RedirectedFrame(w, Max(0, w.q.violator.value - 1));
      SameStores(w.q, v.q);
    case Redirect(n) =>
      RedirectedFrame(w, n);
      SameStores(w.q, v.q);
    case Report(_) => SameStores(w.q, v.q);
    case Retire(_) => SameStores(w.q, v.q);
  }

  lemma SquashFrameOf(w: World, n: nat)
    ensures AfterSquash(w, n).newest == w.newest && AfterSquash(w, n).hist == w.hist
  {
  }

  lemma RedirectedFrame(w: World, n: nat)
    ensures var v := Redirected(w, n); v.q == w.q && v.newest == w.newest && v.hist == w.hist
  {
  }

  lemma ArrivalKeepsQuarantine(w: World, e: Event, n: nat)
    requires Inv(w) && Guard(w, e) && Quarantined(w, n) && (e.AddStore? || e.EnterRunahead?)
    ensures Quarantined(Next(w, e), n)
  {
    hide Inv;
  }

  lemma StepKeepsQuarantine(w: World, e: Event, n: nat)
    requires Inv(w) && Guard(w, e) && Quarantined(w, n)
    ensures Quarantined(Next(w, e), n)
  {
    if e.CommitUpTo? {
      hide Inv, Quarantined, Next, Guard;
      CommitKeepsQuarantine(w, e.n, n);
    } else if e.AddStore? || e.EnterRunahead? {
      hide Inv, Quarantined, Next, Guard;
      ArrivalKeepsQuarantine(w, e, n);
    } else {
      hide Inv, StoresFrom, Quarantined, Next, Guard;
      StepStores(w, e);
      assert w.hist + [] == w.hist;
      QuarantineFrom(w, Next(w, e), [], n);
    }
  }

  lemma QuarantineSkips(w: World, lo: nat, hi: nat, n: nat)
    requires Quarantined(w, n)
    ensures forall a | 0 <= a < |Between(w.q.sq, lo, hi)| :: Between(w.q.sq, lo, hi)[a].seqNum != n
  {
    BetweenSkipsRunahead(w.q.sq, lo, hi, n);
  }

  lemma CommitKeepsQuarantine(w: World, m: nat, n: nat)
    requires Inv(w) && Guard(w, CommitUpTo(m)) && Quarantined(w, n)
    ensures Quarantined(Next(w, CommitUpTo(m)), n)
  {
    hide Inv, Commit, Between, Leaving, StoresFrom, Quarantined;
    QuarantineSkips(w, w.done + 1, m + 1, n);
    CommitStoresFrom(w.q, m);
    QuarantineFrom(w, Next(w, CommitUpTo(m)), Between(w.q.sq, w.done + 1, m + 1), n);
  }

  /** A store that enters the queue during runahead, or is in flight when runahead begins, is quarantined. */
  lemma RunaheadStoresAreQuarantined(w: World, e: Event, n: nat)
    requires Inv(w) && Guard(w, e) && HistoryOrdered(w)
    requires || (e == AddStore(n) && w.runahead)
             || (e.EnterRunahead? && w.rob < n <= w.newest)
    ensures Quarantined(Next(w, e), n)
  {
    FactsOfInv(w);
    hide Inv, QueueInv, Ascending, Divided;
  }

  /** A quarantined store never commits to memory, in the period or after it, so it never reaches the D-cache. */
  lemma {:induction false} QuarantineIsForever(w: World, es: seq<Event>, n: nat)
    requires Inv(w) && Enabled(w, es) && Quarantined(w, n)
    ensures Quarantined(After(w, es), n)
    ensures forall s | s in After(w, es).sent :: s.seqNum != n
    decreases |es|
  {
    if es == [] {
      hide Order, LoadSide, Staged, LoadsCorrect, LogCorrect, Fold, Older;
      assert w.sent <= w.hist;
      forall s | s in w.sent ensures s.seqNum != n {
        var a :| 0 <= a < |w.sent| && w.sent[a] == s;
        assert w.hist[a] == s;
      }
    } else {
      hide Inv;
      StepKeepsInv(w, es[0]);
      StepKeepsQuarantine(w, es[0], n);
      QuarantineIsForever(Next(w, es[0]), es[1..], n);
    }
  }

  /** Every runahead store that is queued is quarantined, and every queued store has been counted in. */
  predicate AllQuarantined(w: World)
  {
    && (forall i | 0 <= i < |w.q.sq| :: w.q.sq[i].seqNum <= w.newest)
    && (forall i | 0 <= i < |w.q.sq| && w.q.sq[i].runahead :: Quarantined(w, w.q.sq[i].seqNum))
  }

  lemma StepKeepsAllQuarantined(w: World, e: Event)
    requires Inv(w) && Guard(w, e) && HistoryOrdered(w) && AllQuarantined(w)
    ensures AllQuarantined(Next(w, e))
  {
    var v := Next(w, e);
    forall i | 0 <= i < |v.q.sq|
      ensures v.q.sq[i].seqNum <= v.newest && (v.q.sq[i].runahead ==> Quarantined(v, v.q.sq[i].seqNum))
    {
      StoreOrigin(w, e, i);
      if v.q.sq[i].runahead {
        hide Inv, Next, Guard, HistoryOrdered, Quarantined;
        if e == AddStore(v.q.sq[i].seqNum) || (e.EnterRunahead? && w.rob < v.q.sq[i].seqNum) {
          RunaheadStoresAreQuarantined(w, e, v.q.sq[i].seqNum);
        } else {
          StepKeepsQuarantine(w, e, v.q.sq[i].seqNum);
        }
      }
    }
  }

  /** A store that is queued after a step was queued before it with the same flag, or has just become what it is. */
  lemma StoreOrigin(w: World, e: Event, i: nat)
    requires Inv(w) && Guard(w, e) && AllQuarantined(w) && i < |Next(w, e).q.sq|
    ensures var s := Next(w, e).q.sq[i];
            && s.seqNum <= Next(w, e).newest
            && (|| !s.runahead
                || (e == AddStore(s.seqNum) && w.runahead)
                || (e.EnterRunahead? && w.rob < s.seqNum <= w.newest)
                || Quarantined(w, s.seqNum))
  {
    if e.AddStore? || e.EnterRunahead? {
      hide Inv, Quarantined;
    } else {
      StepStores(w, e);
      hide Inv, Quarantined, Next, Guard;
    }
  }

  /**
   * Every store that is a runahead one while it is queued has never been sent to the D-cache, however late it became
   * one: a response for a runahead store can only be the R-cache's.
   */
  lemma {:induction false} RunaheadStoresNeverSent(w: World, es: seq<Event>, i: nat)
    requires Inv(w) && Enabled(w, es) && HistoryOrdered(w) && AllQuarantined(w)
    requires i < |After(w, es).q.sq| && After(w, es).q.sq[i].runahead
    ensures forall s | s in After(w, es).sent :: s.seqNum != After(w, es).q.sq[i].seqNum
    decreases |es|
  {
    if es == [] {
      hide Inv;
      QuarantineIsForever(w, es, w.q.sq[i].seqNum);
    } else {
      hide Inv, HistoryOrdered, AllQuarantined;
      StepKeepsInv(w, es[0]);
      StepKeepsHistoryOrdered(w, es[0]);
      StepKeepsAllQuarantined(w, es[0]);
      RunaheadStoresNeverSent(Next(w, es[0]), es[1..], i);
    }
  }

  lemma StartIsQuarantined(cfg: Config, memory: Contents)
    ensures HistoryOrdered(Start(cfg, memory)) && AllQuarantined(Start(cfg, memory))
  {
  }

  lemma RunaheadResponsesAreRCache(cfg: Config, memory: Contents, es: seq<Event>, i: nat)
    requires Possible(cfg, memory, es)
    requires i < |Reached(cfg, memory, es).q.sq| && Reached(cfg, memory, es).q.sq[i].runahead
    ensures forall s | s in Reached(cfg, memory, es).sent :: s.seqNum != Reached(cfg, memory, es).q.sq[i].seqNum
  {
    hide HistoryOrdered, AllQuarantined, Inv, Enabled;
    StartIsValid(cfg, memory);
    StartIsQuarantined(cfg, memory);
    RunaheadStoresNeverSent(Start(cfg, memory), es, i);
  }
}
