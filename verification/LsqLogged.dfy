/** A normal load that has retired keeps its value until it commits, and is then among the committed loads. */
module LsqLogged {
  import opened Prelude
  import opened Memory
  import opened LsqState
  import opened LsqWorld
  import opened LsqProof
  import opened LsqSteps
  import opened LsqRetire
  import opened LsqTheorems
  import opened LsqResults
  import opened LsqKept

  /** A retired normal load with a value, older than the load that started the period if there is one. */
  predicate Waits(w: World, j: nat)
  {
    && w.q.LoadAt(j) && !w.q.Ld(j).runahead && w.q.Ld(j).outcome.Value? && w.q.Ld(j).seqNum <= w.rob
    && (w.runahead ==> w.q.Ld(j).seqNum < w.lll)
  }

  predicate LoadStays(q: Lsq, r: Lsq, j: nat)
    requires q.LoadAt(j)
  {
    r.LoadAt(j) && r.Ld(j) == q.Ld(j)
  }

  // ---- Each operation ---------------------------------------------------------------------------

  lemma SameLoadsStay(q: Lsq, r: Lsq, j: nat)
    requires q.LoadAt(j) && r.lqHead == q.lqHead && q.lq <= r.lq
    ensures LoadStays(q, r, j)
  {
  }

  lemma OtherLoadStays(q: Lsq, r: Lsq, k: nat, j: nat)
    requires q.LoadAt(j) && q.LoadAt(k) && j != k && r.lqHead == q.lqHead && |r.lq| == |q.lq|
    requires forall i | 0 <= i < |q.lq| && i != k - q.lqHead :: r.lq[i] == q.lq[i]
    ensures LoadStays(q, r, j)
  {
  }

  lemma ExecLoadLeavesOthers(q: Lsq, k: nat, addr: nat, size: nat, accept: bool, j: nat)
    requires q.LoadAt(k) && q.LoadAt(j) && j != k && q.sqHead <= q.storeWBIt <= q.Ld(k).sqIt <= q.SqEnd()
    ensures LoadStays(q, ExecLoad(q, k, addr, size, accept), j)
  {
    hide Scan, StallLoad, Window, LoadStays;
    OtherLoadStays(q, ExecLoad(q, k, addr, size, accept), k, j);
  }

  lemma PostSendLeavesValues(q: Lsq, j: nat)
    requires q.StoreAt(q.storeWBIt) && q.LoadAt(j) && q.Ld(j).outcome.Value?
    ensures LoadStays(q, PostSend(q), j)
  {
    hide Put;
  }

  lemma CompleteLeavesLoads(q: Lsq, i: nat, j: nat)
    requires q.StoreAt(i) && q.LoadAt(j)
    ensures LoadStays(q, Complete(q, i), j)
  {
    hide DropCompleted;
  }

  lemma WbStepLeavesValues(q: Lsq, accept: bool, j: nat)
    requires WbPrefix(q) && BlockedIsReady(q) && q.LoadAt(j) && q.Ld(j).outcome.Value?
    ensures LoadStays(q, WbStep(q, accept), j)
  {
    hide PostSend, Complete, WbPrefix;
    if q.StoreAt(q.storeWBIt) {
      PostSendLeavesValues(q, j);
      CompleteLeavesLoads(q.(storeWBIt := q.storeWBIt + 1), q.storeWBIt, j);
    }
  }

  lemma SquashLeavesOlder(q: Lsq, n: nat, j: nat)
    requires Ascending(q) && q.LoadAt(j) && q.Ld(j).seqNum <= n
    ensures LoadStays(q, Squash(q, n), j)
  {
    SquashLoadsExact(q, n);
    assert Squash(q, n).lqHead == q.lqHead by {
      hide CutLoads, CutStores;
    }
    assert q.lq[j - q.lqHead] == q.Ld(j);
    hide Squash;
  }

  lemma CommitLeavesYounger(q: Lsq, n: nat, j: nat)
    requires q.LoadAt(j) && n < q.Ld(j).seqNum
    ensures LoadStays(q, Commit(q, n), j)
  {
    var kept := DropLoads(q.lq, n);
    hide DropLoads, CountNew, MarkStores;
    assert |q.lq| - |kept| <= j - q.lqHead;
    assert kept[j - q.lqHead - (|q.lq| - |kept|)] == q.lq[j - q.lqHead];
  }

  lemma MarkLeavesOlder(q: Lsq, rob: nat, j: nat)
    requires q.LoadAt(j) && q.Ld(j).seqNum <= rob
    ensures LoadStays(q, MarkRunahead(q, rob), j)
  {
  }

  lemma {:induction false} LeavingHas(lq: seq<LQEntry>, n: nat, k: nat)
    requires k < |lq| && (forall i | 0 <= i <= k :: lq[i].seqNum <= n) && !lq[k].runahead && lq[k].outcome.Value?
    ensures LoggedLoad(lq[k].seqNum, lq[k].addr, lq[k].outcome.data) in Leaving(lq, n)
  {
    if k > 0 {
      LeavingHas(lq[1..], n, k - 1);
    }
  }

  // ---- Each step --------------------------------------------------------------------------------

  lemma ExecutionLeavesRetired(w: World, e: Event, j: nat)
    requires Inv(w) && Guard(w, e) && Executes(e) && Waits(w, j)
    ensures LoadStays(w.q, Next(w, e).q, j)
  {
    CoreHasPrefix(w);
    hide Core, QueueInv, WbPrefix, InBounds, Drained, LoadsCorrect, Staged, InFlightClear, Covered, ExecLoad, FirstConflict,
         Fresh, LoadStays, ReadBytes, Requested;
    if e.RunLoad? {
      ExecLoadLeavesOthers(w.q, e.j, e.addr, e.size, e.accept, j);
    } else if e.StartLoad? || e.Serve? || e.SkipLoad? {
      OtherLoadStays(w.q, Next(w, e).q, e.j, j);
    } else {
      SameLoadsStay(w.q, Next(w, e).q, j);
    }
  }

  lemma QueuedIsUncommitted(w: World, j: nat)
    requires Divided(w.q, w.done) && w.q.LoadAt(j)
    ensures w.done < w.q.Ld(j).seqNum
  {
    assert w.q.lq[j - w.q.lqHead] == w.q.Ld(j);
  }

  lemma SquashSparesRetired(w: World, e: Event, j: nat)
    requires Guard(w, e) && (e.SquashAbove? || e.ExitRunahead?) && Waits(w, j) && ExitInOrder(w, e)
    requires w.done < w.q.Ld(j).seqNum
    ensures w.q.Ld(j).seqNum <= e.n
  {
  }

  lemma NextSquashes(w: World, e: Event)
    requires Inv(w) && Guard(w, e) && (e.SquashAbove? || e.ExitRunahead?)
    ensures Next(w, e).q == Squash(w.q, e.n)
  {
    hide Inv, Squash;
  }

  lemma SquashLeavesRetired(w: World, e: Event, j: nat)
    requires Inv(w) && Guard(w, e) && (e.SquashAbove? || e.ExitRunahead?) && Waits(w, j) && ExitInOrder(w, e)
    ensures LoadStays(w.q, Next(w, e).q, j)
  {
    hide Inv, Guard, Next, QueueInv, WbPrefix, Ascending, Divided, LoadStays, Squash, ExitInOrder;
    FactsForPipeline(w);
    QueuedIsUncommitted(w, j);
    SquashSparesRetired(w, e, j);
    NextSquashes(w, e);
    SquashLeavesOlder(w.q, e.n, j);
  }

  lemma WritebackLeavesRetired(w: World, e: Event, j: nat)
    requires Inv(w) && Guard(w, e) && (e.Writeback? || e.Response?) && Waits(w, j)
    ensures LoadStays(w.q, Next(w, e).q, j)
  {
    CoreHasPrefix(w);
    CoreHasBlocked(w);
    hide Inv, QueueInv, WbPrefix, BlockedIsReady, InBounds, Drained, LoadsCorrect, Staged, LoadStays, WbStep, Complete, Taken;
    if e.Writeback? {
      WbStepLeavesValues(w.q, e.accept, j);
    } else {
      CompleteLeavesLoads(w.q, e.i, j);
    }
  }

  lemma PipelineLeavesRetired(w: World, e: Event, j: nat)
    requires Inv(w) && Guard(w, e) && !Executes(e) && Waits(w, j) && ExitInOrder(w, e)
    requires e.CommitUpTo? ==> e.n < w.q.Ld(j).seqNum
    ensures LoadStays(w.q, Next(w, e).q, j)
  {
    if e.SquashAbove? || e.ExitRunahead? {
      hide Inv, Guard, Next, LoadStays;
      SquashLeavesRetired(w, e, j);
    } else if e.Writeback? || e.Response? {
      hide Inv, Guard, Next, LoadStays;
      WritebackLeavesRetired(w, e, j);
    } else {
      hide Inv, LoadStays, Commit, MarkRunahead, Between, Leaving;
      if e.CommitUpTo? {
        CommitLeavesYounger(w.q, e.n, j);
      } else if e.EnterRunahead? {
        MarkLeavesOlder(w.q, w.rob, j);
      } else {
        SameLoadsStay(w.q, Next(w, e).q, j);
      }
    }
  }

  lemma CommitLogs(w: World, n: nat, j: nat)
    requires Inv(w) && Guard(w, CommitUpTo(n)) && Waits(w, j) && w.q.Ld(j).seqNum <= n
    ensures var e := w.q.Ld(j); LoggedLoad(e.seqNum, e.addr, e.outcome.data) in Next(w, CommitUpTo(n)).loads
  {
    FactsForPipeline(w);
    hide Inv, Commit, Between, Leaving, QueueInv, WbPrefix, Divided;
    LeavingHas(w.q.lq, n, j - w.q.lqHead);
  }

  lemma LogGrows(w: World, e: Event)
    requires Inv(w) && Guard(w, e)
    ensures w.loads <= Next(w, e).loads
    ensures Next(w, e).runahead ==> (w.runahead && Next(w, e).lll == w.lll) || (e.EnterRunahead? && w.rob < Next(w, e).lll)
  {
    hide Inv, Commit, ExecLoad, ExecStore, WbStep, Complete, Squash, Between, Leaving, Taken, MarkRunahead;
  }

  // ---- Runs -------------------------------------------------------------------------------------

  /** The load has committed and is in the log, or it still waits at its position as it was. */
  predicate Logged(w: World, j: nat, e: LQEntry)
    requires e.outcome.Value?
  {
    if e.seqNum <= w.done then LoggedLoad(e.seqNum, e.addr, e.outcome.data) in w.loads
    else Waits(w, j) && w.q.Ld(j) == e
  }

  lemma StepKeepsLogged(w: World, e: Event, j: nat, l: LQEntry)
    requires Inv(w) && Guard(w, e) && ExitInOrder(w, e) && l.outcome.Value? && Logged(w, j, l)
    ensures Logged(Next(w, e), j, l)
  {
    hide Inv, Guard, Next;
    LogGrows(w, e);
    StepAdvances(w, e);
    if w.done < l.seqNum {
      if e.CommitUpTo? && l.seqNum <= e.n {
        CommitLogs(w, e.n, j);
      } else if Executes(e) {
        ExecutionLeavesRetired(w, e, j);
      } else {
        PipelineLeavesRetired(w, e, j);
      }
    }
  }

  /**
   * From every valid state, over every run whose periods end in order: a normal load that has retired is in the log with
   * its value as soon as its commit has been reported, and until then it waits at its position unchanged.
   */
  lemma {:induction false} RetiredLoadIsLogged(w: World, es: seq<Event>, j: nat, l: LQEntry)
    requires Inv(w) && Enabled(w, es) && ExitsInOrder(w, es) && l.outcome.Value? && Logged(w, j, l)
    ensures Logged(After(w, es), j, l)
    decreases |es|
  {
    hide Inv, Logged, Next, Guard;
    if es != [] {
      StepKeepsInv(w, es[0]);
      StepKeepsLogged(w, es[0], j, l);
      RetiredLoadIsLogged(Next(w, es[0]), es[1..], j, l);
    }
  }
}
