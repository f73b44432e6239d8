/** Whole runs of the load/store queue: loads agree with in-order memory, runahead stores stay out of it. */
module LsqRuns {
  import opened Prelude
  import opened Memory
  import opened Coverage
  import opened LsqState
  import opened LsqWorld
  import opened LsqProof
  import opened LsqSteps
  import opened LsqRetire
  import opened LsqRefine
  import opened LsqSafety

  // ---- Squash -----------------------------------------------------------------------------------

  lemma SquashLoads(w: World, n: nat)
    requires QueueInv(w.q) && Divided(w.q, w.done) && LoadsCorrect(w)
    ensures WbPrefix(Squash(w.q, n)) && LoadsCorrect(AfterSquash(w, n))
  {
    hide CutLoads, CutStores, Prior, Fold, ReadBytes, LoadsCorrect, BlockedIsReady, Counted, LoadSide, Linked;
    var v := AfterSquash(w, n);
    SquashKeeps(w.q, n, w.done);
    SquashLoadsExact(w.q, n);
    SquashStoresExact(w.q, n, w.done);
    forall j | 0 <= j < |v.q.lq| ensures Prior(v, v.q.lq[j].seqNum) == Prior(w, v.q.lq[j].seqNum) {
      hide Order, LoadSide, BlockedIsReady, Counted, LoadsCorrect, Squash;
      PriorAfterSquash(w, n, v.q.lq[j].seqNum);
    }
    hide Order, LoadSide, BlockedIsReady, Counted, Prior, Fold, ReadBytes, CutLoads, CutStores, LoadsCorrect, Divided;
    LoadsCarryOver(w, v);
  }

  lemma SquashKeepsCommitted(q: Lsq, n: nat, done: nat)
    requires Ascending(q) && Divided(q, done)
    ensures Squash(q, n).dcache == q.dcache
    ensures forall i | |Squash(q, n).sq| <= i < |q.sq| :: done + 1 <= q.sq[i].seqNum
  {
    SquashStoresExact(q, n, done);
    hide CutLoads, CutStores;
  }

  lemma SquashDrained(w: World, n: nat)
    requires QueueInv(w.q) && Divided(w.q, w.done) && Drained(w)
    ensures WbPrefix(Squash(w.q, n)) && Drained(AfterSquash(w, n))
  {
    hide Linked, Ascending, LoadSide, BlockedIsReady, Counted, Squash, Fold, WbPrefix, Divided, Prior;
    SquashKeeps(w.q, n, w.done);
    SquashKeepsCommitted(w.q, n, w.done);
    PriorAfterSquash(w, n, w.done + 1);
  }

  // ---- Write-back -------------------------------------------------------------------------------

  /** Loads change at most by being allowed to issue again. */
  predicate LoadsAlike(q: Lsq, r: Lsq)
  {
    && r.lqHead == q.lqHead && |r.lq| == |q.lq| && r.violator == q.violator
    && (forall j | 0 <= j < |q.lq| ::
          r.lq[j] == q.lq[j] || (q.lq[j].outcome.Rescheduled? && r.lq[j] == q.lq[j].(outcome := Pending)))
  }

  /** The stores of `e` that the D-cache sees. */
  function Visible(e: SQEntry): seq<Store>
  {
    if e.data != [] && !e.runahead then [AsStore(e)] else []
  }

  /** The oldest unsent store is gone from the queue and, if it is a normal one with data, is in the D-cache. */
  predicate OldestGone(q: Lsq, r: Lsq)
    requires WbPrefix(q) && q.sqHead <= r.sqHead <= r.storeWBIt <= r.SqEnd()
  {
    && q.StoreAt(q.storeWBIt) && q.St(q.storeWBIt).canWB && r.Unsent() == q.Unsent()[1..] && LoadsAlike(q, r)
    && r.dcache == Fold(q.dcache, Visible(q.St(q.storeWBIt)))
  }

  lemma PostSendEffect(q: Lsq)
    requires WbPrefix(q) && q.StoreAt(q.storeWBIt) && q.St(q.storeWBIt).canWB && q.St(q.storeWBIt).data != []
    requires RequestsFit(q)
    ensures OldestGone(q, PostSend(q))
  {
    var e := q.St(q.storeWBIt);
    RouteIsFlag(q, q.storeWBIt);
    assert [AsStore(e)][..0] == [];
    assert Fold(q.dcache, [AsStore(e)]) == Put(q.dcache, AsStore(e));
    hide WbPrefix, Put, Fold, RequestsFit;
    assert PostSend(q).Unsent() == q.Unsent()[1..];
  }

  lemma NextUnsent(q: Lsq)
    requires WbPrefix(q) && q.StoreAt(q.storeWBIt)
    ensures q.sqHead <= q.storeWBIt + 1 <= q.SqEnd()
    ensures q.(storeWBIt := q.storeWBIt + 1).Unsent() == q.Unsent()[1..]
  {
  }

  lemma SkipEffect(q: Lsq, p: Lsq)
    requires WbPrefix(q) && q.StoreAt(q.storeWBIt) && q.St(q.storeWBIt).canWB && q.St(q.storeWBIt).data == []
    requires p == q.(storeWBIt := q.storeWBIt + 1) && MayComplete(p, q.storeWBIt)
    ensures var r := Complete(p, q.storeWBIt);
            q.sqHead <= r.sqHead <= r.storeWBIt <= r.SqEnd() && OldestGone(q, r)
  {
    NextUnsent(q);
    hide Complete, MayComplete, WbPrefix;
    CompleteEffect(p, q.storeWBIt);
  }

  /** Dropping `d` marked entries at the head leaves the unsent ones as they were. */
  lemma UnsentSurvives(sq: seq<SQEntry>, m: seq<SQEntry>, kept: seq<SQEntry>, d: nat, k: nat)
    requires |m| == |sq| && d <= k <= |sq| && d + |kept| == |sq|
    requires forall x | 0 <= x < |kept| :: kept[x] == m[d + x]
    requires forall x | k <= x < |sq| :: m[x] == sq[x]
    ensures kept[k - d..] == sq[k..]
  {
    forall x | 0 <= x < |sq| - k ensures kept[k - d..][x] == sq[k..][x] {
      assert kept[k - d + x] == m[k + x];
    }
  }

  /** The marked queue is the old one from the write-back position on. */
  lemma MarkedSuffix(q: Lsq, i: nat)
    requires q.StoreAt(i) && i < q.storeWBIt <= q.SqEnd()
    ensures |Marked(q, i)| == |q.sq|
    ensures forall x | q.storeWBIt - q.sqHead <= x < |q.sq| :: Marked(q, i)[x] == q.sq[x]
  {
  }

  lemma CompleteFrame(q: Lsq, i: nat)
    requires q.StoreAt(i)
    ensures var r := Complete(q, i); r.violator == q.violator && r.dcache == q.dcache && r.rcache == q.rcache
  {
  }

  lemma CompleteEffect(q: Lsq, i: nat)
    requires MayComplete(q, i)
    ensures var r := Complete(q, i);
            && q.sqHead <= r.sqHead <= r.storeWBIt <= r.SqEnd() && r.Unsent() == q.Unsent()
            && r.lq == q.lq && r.lqHead == q.lqHead && r.violator == q.violator && r.dcache == q.dcache
            && r.rcache == q.rcache
  {
    assert q.StoreAt(i) && i < q.storeWBIt <= q.SqEnd();
    hide Complete, MayComplete, Marked;
    CompleteLeaves(q, i);
    var r := Complete(q, i);
    CompleteFrame(q, i);
    MarkedSuffix(q, i);
    UnsentSurvives(q.sq, Marked(q, i), r.sq, r.sqHead - q.sqHead, q.storeWBIt - q.sqHead);
  }

  /** Handing the oldest unsent store over changes neither what is prior to any load nor what has committed. */
  lemma OldestGonePrior(w: World, v: World, n: nat)
    requires WbPrefix(w.q) && WbPrefix(v.q) && w.q.sqHead <= v.q.sqHead && OldestGone(w.q, v.q)
    requires v.sent == w.sent + Visible(w.q.St(w.q.storeWBIt)) && w.q.St(w.q.storeWBIt).seqNum < n
    ensures Prior(v, n) == Prior(w, n)
  {
    PriorAfterStep(w, v, n);
  }

  lemma OldestGoneLoads(w: World, v: World)
    requires WbPrefix(w.q) && WbPrefix(v.q) && w.q.sqHead <= v.q.sqHead && OldestGone(w.q, v.q)
    requires v.sent == w.sent + Visible(w.q.St(w.q.storeWBIt)) && v.init == w.init && v.redirect == w.redirect
    requires LoadsCorrect(w) && Divided(w.q, w.done)
    ensures LoadsCorrect(v)
  {
    forall n: nat | w.done < n ensures Prior(v, n) == Prior(w, n) {
      OldestGonePrior(w, v, n);
    }
    hide Prior, LoadsCorrect, WbPrefix;
    LoadsCarryOver(w, v);
  }

  lemma OldestGoneDrained(w: World, v: World)
    requires WbPrefix(w.q) && WbPrefix(v.q) && w.q.sqHead <= v.q.sqHead && OldestGone(w.q, v.q)
    requires v.sent == w.sent + Visible(w.q.St(w.q.storeWBIt)) && v.init == w.init && v.done == w.done
    requires v.hist == w.hist && Drained(w) && Divided(w.q, w.done)
    ensures Drained(v)
  {
    OldestGonePrior(w, v, w.done + 1);
    FoldConcat(w.init, w.sent, Visible(w.q.St(w.q.storeWBIt)));
    hide Prior, Fold, WbPrefix;
  }

  /** Nothing was handed over. */
  predicate NothingGone(q: Lsq, r: Lsq)
    requires WbPrefix(q) && WbPrefix(r)
  {
    && r.lq == q.lq && r.lqHead == q.lqHead && r.violator == q.violator && r.dcache == q.dcache
    && r.Unsent() == q.Unsent()
  }

  lemma NothingGoneKeeps(w: World, v: World)
    requires WbPrefix(w.q) && WbPrefix(v.q) && NothingGone(w.q, v.q) && v == w.(q := v.q)
    requires LoadsCorrect(w) && Drained(w)
    ensures LoadsCorrect(v) && Drained(v)
  {
    assert forall n: nat :: Prior(v, n) == Prior(w, n);
    hide WbPrefix, Prior, Fold, ReadBytes;
  }

  /** A blocked store, or a ready one with data, is sent when it goes to the R-cache or the D-cache accepts it. */
  lemma SendCase(q: Lsq, accept: bool)
    requires WbPrefix(q) && BlockedIsReady(q) && (q.storeBlocked || (WbReady(q) && q.St(q.storeWBIt).data != []))
    requires RequestsFit(q) && (ToRCache(q.St(q.storeWBIt)) || accept)
    ensures var r := WbStep(q, accept);
            r == PostSend(q) && q.sqHead <= r.sqHead <= r.storeWBIt <= r.SqEnd() && OldestGone(q, r)
            && Taken(q, accept) == Visible(q.St(q.storeWBIt))
  {
    PostSendEffect(q);
    PostSendHead(q);
    RouteIsFlag(q, q.storeWBIt);
    hide PostSend, OldestGone, RequestsFit;
  }

  lemma IdleCase(q: Lsq, accept: bool)
    requires WbPrefix(q) && BlockedIsReady(q)
    requires if q.storeBlocked then !ToRCache(q.St(q.storeWBIt)) && !accept
             else !WbReady(q) || (q.St(q.storeWBIt).data != [] && !ToRCache(q.St(q.storeWBIt)) && !accept)
    ensures var r := WbStep(q, accept); WbPrefix(r) && NothingGone(q, r) && Taken(q, accept) == []
  {
    hide PostSend, Complete;
  }

  lemma WbStepCases(q: Lsq, done: nat, accept: bool)
    requires QueueInv(q) && Divided(q, done) && QueueInv(WbStep(q, accept))
    ensures var r := WbStep(q, accept);
            || (NothingGone(q, r) && Taken(q, accept) == [])
            || (q.sqHead <= r.sqHead && OldestGone(q, r) && Taken(q, accept) == Visible(q.St(q.storeWBIt)))
  {
    hide Ascending, Linked, LoadSide, Counted, OldestGone, NothingGone, PostSend, Complete, MayComplete, Divided,
         RequestsFit;
    if q.storeBlocked || (WbReady(q) && q.St(q.storeWBIt).data != []) {
      if ToRCache(q.St(q.storeWBIt)) || accept {
        SendCase(q, accept);
      } else {
        IdleCase(q, accept);
      }
    } else if WbReady(q) {
      SkipEmptyReady(q, done);
      SkipEffect(q, q.(storeWBIt := q.storeWBIt + 1));
    } else {
      IdleCase(q, accept);
    }
  }

  lemma PostSendHead(q: Lsq)
    requires q.StoreAt(q.storeWBIt)
    ensures PostSend(q).sqHead == q.sqHead
  {
  }

  lemma WritebackKeeps(w: World, accept: bool)
    requires QueueInv(w.q) && Divided(w.q, w.done) && LoadsCorrect(w) && Drained(w)
    ensures var v := w.(q := WbStep(w.q, accept), sent := w.sent + Taken(w.q, accept));
            QueueInv(v.q) && LoadsCorrect(v) && Drained(v)
  {
    var v := w.(q := WbStep(w.q, accept), sent := w.sent + Taken(w.q, accept));
    WbStepKeeps(w.q, w.done, accept);
    WbStepCases(w.q, w.done, accept);
    hide Order, LoadSide, BlockedIsReady, Counted, WbPrefix, RequestsFit, WbStep, Taken, Divided, LoadsCorrect, Drained,
         OldestGone, NothingGone, Visible;
    if NothingGone(w.q, v.q) && Taken(w.q, accept) == [] {
      assert w.sent + [] == w.sent;
      NothingGoneKeeps(w, v);
    } else {
      OldestGoneLoads(w, v);
      OldestGoneDrained(w, v);
    }
  }

  lemma ResponseKeeps(w: World, i: nat)
    requires QueueInv(w.q) && LoadsCorrect(w) && Drained(w) && MayComplete(w.q, i)
    ensures var v := w.(q := Complete(w.q, i)); QueueInv(v.q) && LoadsCorrect(v) && Drained(v)
  {
    hide Ascending, Linked, LoadSide, BlockedIsReady, Counted, WbPrefix, Complete, LoadsCorrect, Drained;
    CompleteKeeps(w.q, i);
    CompleteEffect(w.q, i);
    NothingGoneKeeps(w, w.(q := Complete(w.q, i)));
  }

  // ---- A store's request -------------------------------------------------------------------------

  lemma StartStorePrior(w: World, i: nat, n: nat)
    requires WbPrefix(w.q) && w.q.StoreAt(i)
    ensures var v := w.(q := TouchStore(w.q, i)); WbPrefix(v.q) && Prior(v, n) == Prior(w, n)
  {
    PriorSame(w, w.(q := TouchStore(w.q, i)), n);
  }

  lemma StartStoreLoads(w: World, i: nat)
    requires WbPrefix(w.q) && LoadsCorrect(w) && Drained(w) && w.q.StoreAt(i)
    ensures var v := w.(q := TouchStore(w.q, i)); WbPrefix(v.q) && LoadsCorrect(v) && Drained(v)
  {
    hide Prior, WbPrefix, LoadsCorrect, Fold;
    var v := w.(q := TouchStore(w.q, i));
    forall n: nat ensures WbPrefix(v.q) && Prior(v, n) == Prior(w, n) {
      StartStorePrior(w, i, n);
    }
    LoadsUntouched(w, v);
  }

  // ---- Runahead entry ---------------------------------------------------------------------------

  lemma EnterPrior(w: World, rob: nat, n: nat)
    requires WbPrefix(w.q) && n <= rob + 1
    ensures var v := w.(q := MarkRunahead(w.q, rob)); WbPrefix(v.q) && Prior(v, n) == Prior(w, n)
  {
    PriorSame(w, w.(q := MarkRunahead(w.q, rob)), n);
  }

  lemma EnterFrame(w: World, v: World)
    requires v.q == MarkRunahead(w.q, w.rob)
    ensures v.q.lqHead == w.q.lqHead && |v.q.lq| == |w.q.lq| && v.q.violator == w.q.violator && v.q.dcache == w.q.dcache
    ensures forall j | 0 <= j < |w.q.lq| && !v.q.lq[j].runahead :: w.q.lq[j].seqNum <= w.rob && v.q.lq[j] == w.q.lq[j]
  {
  }

  lemma EnterLoads(w: World, v: World)
    requires WbPrefix(w.q) && WbPrefix(v.q) && LoadsCorrect(w) && v.q == MarkRunahead(w.q, w.rob)
    requires v.init == w.init && v.redirect == w.redirect
    requires forall n: nat | n <= w.rob :: Prior(v, n) == Prior(w, n)
    ensures LoadsCorrect(v)
  {
    hide Prior, WbPrefix, LoadsCorrect, Fold, MarkRunahead;
    EnterFrame(w, v);
    LoadsCarryOver(w, v);
  }

  lemma EnterKeeps(w: World, v: World)
    requires WbPrefix(w.q) && LoadsCorrect(w) && Drained(w) && w.done <= w.rob
    requires v == w.(q := MarkRunahead(w.q, w.rob), runahead := v.runahead, lll := v.lll)
    ensures WbPrefix(v.q) && LoadsCorrect(v) && Drained(v)
  {
    hide Prior, WbPrefix, LoadsCorrect, Fold, MarkRunahead;
    forall n: nat | n <= w.rob + 1 ensures WbPrefix(v.q) && Prior(v, n) == Prior(w, n) {
      EnterPrior(w, w.rob, n);
      PriorDependsOnQueue(w.(q := v.q), v, n);
    }
    EnterPrior(w, w.rob, 0);
    EnterFrame(w, v);
    EnterLoads(w, v);
  }
}
