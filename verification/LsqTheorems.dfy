/** The invariant holds in every reachable state, and what that says about loads, stores and runahead. */
module LsqTheorems {
  import opened Prelude
  import opened Memory
  import opened Coverage
  import opened LsqState
  import opened LsqWorld
  import opened LsqProof
  import opened LsqSteps
  import opened LsqRetire
  import opened LsqRefine
  import opened LsqSafety
  import opened LsqRuns
  import opened LsqFlight
  import opened LsqCover

  // ---- Commit order survives every operation ----------------------------------------------------

  lemma AddStaged(w: World, seqNum: nat)
    requires Staged(w) && Fresh(w, seqNum)
    ensures Staged(w.(q := InsertLoad(w.q, seqNum, w.runahead), newest := seqNum))
    ensures Staged(w.(q := InsertStore(w.q, seqNum, w.runahead), newest := seqNum))
  {
  }

  lemma RunLoadStaged(w: World, j: nat, addr: nat, size: nat, accept: bool)
    requires Staged(w) && w.q.LoadAt(j) && w.rob < w.q.Ld(j).seqNum
    requires w.q.sqHead <= w.q.storeWBIt <= w.q.Ld(j).sqIt <= w.q.SqEnd()
    ensures Staged(w.(q := ExecLoad(w.q, j, addr, size, accept)))
  {
    var f := ExecLoadEffect(w.q, j, addr, size, accept);
    hide ExecLoad, Scan, ReadBytes;
  }

  lemma LoadChangedStaged(w: World, j: nat, f: LQEntry)
    requires Staged(w) && w.q.LoadAt(j) && f.seqNum == w.q.Ld(j).seqNum
    requires f.outcome.Value? || f.outcome.NoAccess? || w.rob < f.seqNum
    ensures Staged(w.(q := w.q.WithLoad(j, f)))
  {
  }

  lemma StartStoreStaged(w: World, i: nat)
    requires Staged(w) && w.q.StoreAt(i)
    ensures Staged(w.(q := TouchStore(w.q, i)))
  {
    hide Retired, Requested;
    RetiredIgnoresStores(w, w.(q := TouchStore(w.q, i)));
  }

  lemma RetiredIgnoresStores(w: World, v: World)
    requires Retired(w) && v.q.lq == w.q.lq && v.q.violator == w.q.violator && v.rob == w.rob && v.redirect == w.redirect
    ensures Retired(v)
  {
  }

  lemma RunStoreStaged(w: World, i: nat, addr: nat, data: Bytes)
    requires Staged(w) && Linked(w.q) && InBounds(w.q) && w.q.StoreAt(i) && data != [] && w.rob < w.q.St(i).seqNum
    ensures Staged(w.(q := ExecStore(w.q, i, addr, data)))
  {
    AccusedIsYounger(w.q, i, addr, data);
    hide Linked, InBounds, FirstConflict;
  }

  lemma RetireStaged(w: World, n: nat)
    requires Staged(w) && Covered(w) && Guard(w, Retire(n))
    ensures Staged(w.(rob := n))
  {
    RetireAllowed(w, n);
  }

  lemma CommitDivided(q: Lsq, done: nat, n: nat)
    requires Divided(q, done) && Ascending(q) && done <= n
    ensures Divided(Commit(q, n), n)
  {
    hide DropLoads, CountNew;
  }

  lemma CommitRetired(w: World, v: World, n: nat)
    requires Retired(w) && v.q == Commit(w.q, n) && v.rob == w.rob && v.redirect == w.redirect
    ensures Retired(v)
  {
    hide DropLoads, CountNew, MarkStores;
  }

  lemma SquashStaged(w: World, n: nat)
    requires Staged(w) && Ascending(w.q)
    ensures Staged(AfterSquash(w, n))
  {
    SquashLoadsExact(w.q, n);
    SquashStoresExact(w.q, n, w.done);
    hide CutLoads, CutStores, Ascending;
  }

  lemma PostSendStaged(w: World, v: World)
    requires Staged(w) && w.q.StoreAt(w.q.storeWBIt) && v.q == PostSend(w.q)
    requires v.rob == w.rob && v.done == w.done && v.redirect == w.redirect
    ensures Staged(v)
  {
    hide Put;
  }

  lemma CompleteStaged(w: World, v: World, p: Lsq, i: nat)
    requires Staged(w) && MayComplete(p, i) && v.q == Complete(p, i) && p == w.q.(storeWBIt := p.storeWBIt)
    requires v.rob == w.rob && v.done == w.done && v.redirect == w.redirect
    ensures Staged(v)
  {
    assert Divided(p, w.done);
    hide Complete, MayComplete, Divided, Retired;
    CompleteFrame(p, i);
    CompleteSuffix(p, i);
    CompleteDivided(p, i, w.done);
    RetiredIgnoresStores(w, v);
  }

  lemma WritebackStaged(w: World, v: World, accept: bool)
    requires QueueInv(w.q) && Staged(w) && v.q == WbStep(w.q, accept)
    requires v.rob == w.rob && v.done == w.done && v.redirect == w.redirect
    ensures Staged(v)
  {
    hide Ascending, Linked, LoadSide, Counted, RequestsFit, PostSend, Complete, MayComplete;
    if w.q.storeBlocked {
      if ToRCache(w.q.St(w.q.storeWBIt)) || accept {
        PostSendStaged(w, v);
      }
    } else if WbReady(w.q) {
      if w.q.St(w.q.storeWBIt).data == [] {
        SkipEmptyReady(w.q, w.done);
        CompleteStaged(w, v, w.q.(storeWBIt := w.q.storeWBIt + 1), w.q.storeWBIt);
      } else if ToRCache(w.q.St(w.q.storeWBIt)) || accept {
        PostSendStaged(w, v);
      }
    }
  }

  lemma EnterStaged(w: World, v: World)
    requires Staged(w) && v.q == MarkRunahead(w.q, w.rob)
    requires v.rob == w.rob && v.done == w.done && v.redirect == w.redirect
    ensures Staged(v)
  {
  }

  // ---- Every step -------------------------------------------------------------------------------

  /** One load changed to a version of itself that keeps the queues in shape and carries no wrong value. */
  lemma LoadChangedKeepsCore(w: World, j: nat, f: LQEntry)
    requires Core(w) && w.q.LoadAt(j) && f.seqNum == w.q.Ld(j).seqNum && QueueInv(w.q.WithLoad(j, f))
    requires WbPrefix(w.q) && ValueRight(w, f)
    requires f.outcome.Value? || f.outcome.NoAccess? || w.rob < f.seqNum
    ensures Core(w.(q := w.q.WithLoad(j, f)))
  {
    hide QueueInv, LoadsCorrect, Drained, Staged, LogCorrect, ValueRight;
    LoadChanged(w, j, f);
    LoadChangedStaged(w, j, f);
  }

  lemma CoreHasPrefix(w: World)
    requires Core(w)
    ensures QueueInv(w.q) && WbPrefix(w.q) && InBounds(w.q) && Drained(w) && LoadsCorrect(w) && Staged(w)
    ensures forall j | w.q.LoadAt(j) :: w.q.storeWBIt <= w.q.Ld(j).sqIt <= w.q.SqEnd()
    ensures forall i | w.q.StoreAt(i) :: w.q.St(i).lqIt <= w.q.LqEnd()
  {
    hide Order, Drained, LoadsCorrect, Staged, LogCorrect, Shaped, ViolatorQueued, StallIsOldest, BlockedIsReady,
         Counted, RequestsFit;
  }

  lemma CoreHasBlocked(w: World)
    requires Core(w)
    ensures BlockedIsReady(w.q)
  {
    hide Order, Drained, LoadsCorrect, Staged, LogCorrect, LoadSide, WbPrefix, BlockedIsReady, Counted, RequestsFit;
  }

  lemma InsertLoadKeepsCore(w: World, seqNum: nat)
    requires Core(w) && Fresh(w, seqNum)
    ensures Core(w.(q := InsertLoad(w.q, seqNum, w.runahead), newest := seqNum))
  {
    CoreHasPrefix(w);
    hide QueueInv, LoadsCorrect, Drained, Staged, LogCorrect, WbPrefix, InBounds;
    InsertLoadKeeps(w.q, seqNum, w.runahead);
    AddLoadLoads(w, seqNum, w.runahead);
    AddStaged(w, seqNum);
  }

  lemma InsertStoreKeepsCore(w: World, seqNum: nat)
    requires Core(w) && Fresh(w, seqNum)
    ensures Core(w.(q := InsertStore(w.q, seqNum, w.runahead), newest := seqNum))
  {
    CoreHasPrefix(w);
    hide QueueInv, LoadsCorrect, Drained, Staged, LogCorrect, WbPrefix, InBounds;
    InsertStoreKeeps(w.q, seqNum, w.runahead);
    AddStoreLoads(w, seqNum, w.runahead);
    AddStaged(w, seqNum);
  }

  lemma StartLoadKeepsCore(w: World, j: nat)
    requires Core(w) && w.q.LoadAt(j) && w.q.Ld(j).outcome.Pending? && w.rob < w.q.Ld(j).seqNum
    ensures Core(w.(q := TouchLoad(w.q, j)))
  {
    hide Core, QueueInv, WbPrefix, InBounds, Drained, LoadsCorrect, Staged;
    CoreHasPrefix(w);
    TouchLoadKeeps(w.q, j);
    LoadChangedKeepsCore(w, j, TouchLoad(w.q, j).Ld(j));
  }

  lemma StartStoreKeepsCore(w: World, i: nat)
    requires Core(w) && w.q.StoreAt(i)
    ensures Core(w.(q := TouchStore(w.q, i)))
  {
    CoreHasPrefix(w);
    hide QueueInv, WbPrefix, InBounds, Drained, LoadsCorrect, Staged, LogCorrect;
    TouchStoreKeeps(w.q, i);
    StartStoreLoads(w, i);
    StartStoreStaged(w, i);
  }

  lemma RunLoadKeepsCore(w: World, j: nat, addr: nat, size: nat, accept: bool)
    requires Core(w) && Guard(w, RunLoad(j, addr, size, accept))
    ensures Core(w.(q := ExecLoad(w.q, j, addr, size, accept)))
  {
    CoreHasPrefix(w);
    hide QueueInv, WbPrefix, InBounds, LoadsCorrect, Drained, Staged, LogCorrect, ExecLoad;
    ExecLoadKeeps(w.q, j, addr, size, accept);
    RunLoadLoads(w, j, addr, size, accept);
    RunLoadStaged(w, j, addr, size, accept);
  }

  /** The D-cache may serve a load at any time after it took the packet. */
  lemma ServeKeepsCore(w: World, j: nat, reply: Bytes)
    requires Inv(w) && Guard(w, Serve(j, reply))
    ensures Core(w.(q := ServeLoad(w.q, j, reply)))
  {
    hide Core, QueueInv, WbPrefix, InBounds, Drained, LoadsCorrect, Staged, InFlightClear, ReadBytes, ValueRight;
    CoreHasPrefix(w);
    ServeLoadKeeps(w.q, j, reply);
    ServeIsRight(w, j, reply);
    LoadChangedKeepsCore(w, j, ServeLoad(w.q, j, reply).Ld(j));
  }

  lemma SkipLoadKeepsCore(w: World, j: nat)
    requires Core(w) && Guard(w, SkipLoad(j))
    ensures Core(w.(q := NullLoad(w.q, j)))
  {
    hide Core, QueueInv, WbPrefix, InBounds, Drained, LoadsCorrect, Staged;
    CoreHasPrefix(w);
    NullLoadKeeps(w.q, j);
    LoadChangedKeepsCore(w, j, NullLoad(w.q, j).Ld(j));
  }

  /** A store that has not left the reorder buffer has not committed, so it is not behind the write-back position. */
  lemma RunningStoreIsUnsent(w: World, i: nat)
    requires WbPrefix(w.q) && Staged(w) && w.q.StoreAt(i) && w.rob < w.q.St(i).seqNum
    ensures w.q.storeWBIt <= i && !w.q.St(i).canWB && w.done < w.q.St(i).seqNum
  {
    assert w.q.sq[i - w.q.sqHead] == w.q.St(i);
  }

  lemma RunStoreKeepsCore(w: World, i: nat, addr: nat, data: Bytes)
    requires Core(w) && Guard(w, RunStore(i, addr, data))
    ensures w.q.St(i).lqIt <= w.q.LqEnd() && Core(w.(q := ExecStore(w.q, i, addr, data)))
  {
    CoreHasPrefix(w);
    RunningStoreIsUnsent(w, i);
    QueueInvHasOrder(w.q);
    hide QueueInv, WbPrefix, InBounds, Linked, LoadsCorrect, Drained, Staged, LogCorrect, ExecStore;
    ExecStoreKeeps(w.q, i, addr, data);
    RunStoreLoads(w, i, addr, data);
    RunStoreDrained(w, i, addr, data);
    RunStoreStaged(w, i, addr, data);
  }

  lemma QueueInvHasOrder(q: Lsq)
    requires QueueInv(q)
    ensures Ascending(q) && Linked(q)
  {
  }

  /** Moving a violation into a redirect, adding one, retiring or changing mode leaves the queues alone. */
  lemma PipelineKeepsCore(w: World, v: World)
    requires Core(w) && v.q == w.q.(violator := v.q.violator) && QueueInv(v.q) && Staged(v)
    requires v.init == w.init && v.sent == w.sent && v.hist == w.hist && v.done == w.done && v.loads == w.loads
    requires forall j | 0 <= j < |w.q.lq| :: Doomed(w, w.q.lq[j].seqNum) ==> Doomed(v, w.q.lq[j].seqNum)
    ensures Core(v)
  {
    CoreHasPrefix(w);
    hide QueueInv, WbPrefix, InBounds, Drained, LoadsCorrect, Staged, LogCorrect, Doomed;
    DoomKept(w, v);
    DrainedIgnoresLoads(w, v);
  }

  lemma RedirectedStaged(w: World, v: World)
    requires Staged(w) && v.q == w.q.(violator := v.q.violator) && v.rob == w.rob && v.done == w.done
    requires v.q.violator.Some? ==> w.rob < v.q.violator.value
    requires v.redirect.Some? ==> w.rob <= v.redirect.value
    ensures Staged(v)
  {
  }

  lemma RetiredNotAccused(w: World)
    requires Core(w)
    ensures w.q.violator.Some? ==> w.rob < w.q.violator.value
    ensures w.redirect.Some? ==> w.rob <= w.redirect.value
  {
    CoreHasPrefix(w);
    hide Core, QueueInv, WbPrefix, LoadsCorrect, Drained, Divided;
  }

  lemma TakeViolatorKeepsCore(w: World)
    requires Core(w) && w.q.violator.Some?
    ensures Core(Redirected(w, Max(0, w.q.violator.value - 1)).(q := w.q.(violator := None)))
  {
    CoreHasPrefix(w);
    RetiredNotAccused(w);
    StructureIgnoresViolator(w.q);
    hide Core, QueueInv, WbPrefix, InBounds, LoadsCorrect, Drained, Staged;
    var v := Redirected(w, Max(0, w.q.violator.value - 1)).(q := w.q.(violator := None));
    RedirectedStaged(w, v);
    PipelineKeepsCore(w, v);
  }

  lemma NoViolatorIsQueued(q: Lsq)
    requires q.violator.None?
    ensures ViolatorQueued(q)
  {
  }

  lemma StructureIgnoresViolator(q: Lsq)
    requires QueueInv(q)
    ensures QueueInv(q.(violator := None))
  {
    hide Order, StallIsOldest, ViolatorQueued;
    PositionIsNotAKey(q, q.(violator := None));
    StallIgnoresFlags(q, q.(violator := None));
    NoViolatorIsQueued(q.(violator := None));
  }

  lemma RedirectedMeans(w: World, n: nat)
    requires w.rob < n && (w.redirect.Some? ==> w.rob <= w.redirect.value)
    ensures var v := Redirected(w, n);
            && v == w.(redirect := v.redirect, arrived := v.arrived) && v.redirect.Some? && w.rob <= v.redirect.value
            && forall s: nat, us: set<nat> | Doomed(w, s) :: Doomed(v.(unreported := us), s)
  {
  }

  lemma RedirectKeepsCore(w: World, n: nat)
    requires Core(w) && w.rob < n
    ensures Core(Redirected(w, n).(unreported := w.unreported + {n}))
  {
    hide Core, QueueInv, WbPrefix, InBounds, LoadsCorrect, Drained, Staged, Redirected, Doomed;
    CoreHasPrefix(w);
    RetiredNotAccused(w);
    RedirectedMeans(w, n);
    var v := Redirected(w, n).(unreported := w.unreported + {n});
    RedirectedStaged(w, v);
    PipelineKeepsCore(w, v);
  }

  lemma RetireKeepsCore(w: World, n: nat)
    requires Core(w) && Covered(w) && Guard(w, Retire(n))
    ensures Core(w.(rob := n))
  {
    CoreHasPrefix(w);
    RetireStaged(w, n);
    hide Core, QueueInv, WbPrefix, InBounds, LoadsCorrect, Drained, Staged, Covered;
    PipelineKeepsCore(w, w.(rob := n));
  }

  lemma CommitStaged(w: World, v: World, n: nat)
    requires Staged(w) && Ascending(w.q) && w.done <= n <= w.rob && v.q == Commit(w.q, n)
    requires v.rob == w.rob && v.done == n && v.redirect == w.redirect
    ensures Staged(v)
  {
    hide Ascending, Divided, Retired, Commit;
    CommitDivided(w.q, w.done, n);
    CommitRetired(w, v, n);
  }

  lemma CommitShape(w: World, n: nat)
    requires QueueInv(w.q) && Retired(w) && n <= w.rob
    ensures QueueInv(Commit(w.q, n))
  {
    hide QueueInv, Retired, Commit;
    NothingLeavesRescheduled(w, n);
    CommitKeeps(w.q, n);
  }

  lemma CommitKeepsCore(w: World, n: nat)
    requires Inv(w) && Guard(w, CommitUpTo(n))
    ensures Core(Next(w, CommitUpTo(n)))
  {
    hide Ascending, Linked, LoadSide, BlockedIsReady, Counted, WbPrefix, LoadsCorrect, LogCorrect, Divided, Retired,
         Drained, Commit, Between, Leaving, RequestsFit, InFlightClear;
    var v := Next(w, CommitUpTo(n));
    CommitShape(w, n);
    CommitLoads(w, v, n);
    CommitDrained(w, v, n);
    CommitLog(w, n);
    CommitStaged(w, v, n);
  }

  lemma NothingLeavesRescheduled(w: World, n: nat)
    requires Retired(w) && n <= w.rob
    ensures w.q.violator.Some? ==> n < w.q.violator.value
    ensures forall j | 0 <= j < |w.q.lq| && w.q.lq[j].seqNum <= n :: !w.q.lq[j].outcome.Rescheduled?
  {
  }

  lemma SquashKeepsCore(w: World, n: nat)
    requires Core(w)
    ensures Core(AfterSquash(w, n))
  {
    SquashKeeps(w.q, n, w.done);
    SquashLoads(w, n);
    SquashDrained(w, n);
    SquashStaged(w, n);
    hide QueueInv, LoadsCorrect, LogCorrect, WbPrefix, Staged, Drained, Squash;
  }

  lemma WritebackKeepsCore(w: World, accept: bool)
    requires Core(w) && WbPrefix(w.q) && BlockedIsReady(w.q)
    ensures Core(w.(q := WbStep(w.q, accept), sent := w.sent + Taken(w.q, accept)))
  {
    CoreHasPrefix(w);
    StagedIsDivided(w);
    hide QueueInv, LoadsCorrect, LogCorrect, WbPrefix, BlockedIsReady, Divided, Staged, Drained, WbStep, Taken;
    WritebackKeeps(w, accept);
    WritebackStaged(w, w.(q := WbStep(w.q, accept), sent := w.sent + Taken(w.q, accept)), accept);
  }

  lemma StagedIsDivided(w: World)
    requires Staged(w)
    ensures Divided(w.q, w.done)
  {
  }

  lemma ResponseReady(q: Lsq, i: nat)
    requires WbPrefix(q) && q.StoreAt(i) && i < q.storeWBIt && !q.St(i).completed
    ensures MayComplete(q, i)
  {
  }

  lemma ResponseKeepsCore(w: World, i: nat)
    requires Inv(w) && Guard(w, Response(i))
    ensures Core(Next(w, Response(i)))
  {
    hide Order, LoadSide, BlockedIsReady, Counted, LoadsCorrect, LogCorrect, WbPrefix, Staged, Drained,
         Complete, MayComplete, RequestsFit, InFlightClear;
    ResponseReady(w.q, i);
    ResponseKeeps(w, i);
    CompleteStaged(w, Next(w, Response(i)), w.q, i);
  }

  lemma EnterKeepsCore(w: World, lll: nat)
    requires Inv(w) && Guard(w, EnterRunahead(lll))
    ensures Core(Next(w, EnterRunahead(lll)))
  {
    var v := Next(w, EnterRunahead(lll));
    MarkRunaheadKeeps(w.q, w.rob);
    EnterKeeps(w, v);
    EnterStaged(w, v);
    hide QueueInv, LoadsCorrect, LogCorrect, WbPrefix, Staged, Drained, MarkRunahead, InFlightClear;
  }

  /** The mode, and what commit has been told, are not part of the core. */
  lemma ModeIsFree(w: World, v: World)
    requires Core(w) && v == w.(runahead := v.runahead, unreported := v.unreported, arrived := v.arrived)
    ensures Core(v)
  {
    CoreHasPrefix(w);
    RetiredNotAccused(w);
    hide Core, QueueInv, WbPrefix, InBounds, LoadsCorrect, Drained, Staged;
    RedirectedStaged(w, v);
    PipelineKeepsCore(w, v);
  }

  predicate Executes(e: Event)
  {
    e.AddLoad? || e.AddStore? || e.StartLoad? || e.StartStore? || e.RunLoad? || e.Serve? || e.SkipLoad? || e.RunStore?
  }

  lemma EntryKeepsCore(w: World, e: Event)
    requires Inv(w) && Guard(w, e) && (e.AddLoad? || e.AddStore? || e.StartLoad? || e.StartStore?)
    ensures Core(Next(w, e))
  {
    CoreHasPrefix(w);
    hide Inv, Core, QueueInv, WbPrefix, BlockedIsReady, InBounds, Drained, LoadsCorrect, Staged, InFlightClear, Covered,
         ExecLoad, ExecStore, TouchStore, TouchLoad, NullLoad, ServeLoad, InsertLoad, InsertStore, Fresh;
    if e.AddLoad? {
      InsertLoadKeepsCore(w, e.seqNum);
    } else if e.AddStore? {
      InsertStoreKeepsCore(w, e.seqNum);
    } else if e.StartLoad? {
      StartLoadKeepsCore(w, e.j);
    } else {
      StartStoreKeepsCore(w, e.i);
    }
  }

  lemma ExecutionKeepsCore(w: World, e: Event)
    requires Inv(w) && Guard(w, e) && Executes(e)
    ensures Core(Next(w, e))
  {
    if e.AddLoad? || e.AddStore? || e.StartLoad? || e.StartStore? {
      hide Inv, Core, Next, Guard;
      EntryKeepsCore(w, e);
    } else {
      CoreHasPrefix(w);
      hide Inv, Core, QueueInv, WbPrefix, BlockedIsReady, InBounds, Drained, LoadsCorrect, Staged, InFlightClear, Covered,
           ExecLoad, ExecStore, TouchStore, TouchLoad, NullLoad, ServeLoad, InsertLoad, InsertStore, Fresh;
      if e.RunLoad? {
        RunLoadKeepsCore(w, e.j, e.addr, e.size, e.accept);
      } else if e.Serve? {
        ServeKeepsCore(w, e.j, e.reply);
      } else if e.SkipLoad? {
        SkipLoadKeepsCore(w, e.j);
      } else {
        RunStoreKeepsCore(w, e.i, e.storeAddr, e.data);
        ModeIsFree(w.(q := ExecStore(w.q, e.i, e.storeAddr, e.data)), Next(w, e));
      }
    }
  }

  lemma PipelineEventKeepsCore(w: World, e: Event)
    requires Inv(w) && Guard(w, e) && !Executes(e)
    ensures Core(Next(w, e))
  {
    CoreHasPrefix(w);
    CoreHasBlocked(w);
    hide Core, QueueInv, WbPrefix, BlockedIsReady, InBounds, Drained, LoadsCorrect, Staged, InFlightClear, Covered, Commit,
         Squash, WbStep, Complete, MarkRunahead, Between, Leaving, Taken, AfterSquash, Redirected;
    match e
    case TakeViolator => TakeViolatorKeepsCore(w);
    case Redirect(n) => RedirectKeepsCore(w, n);
    case Report(_) => ModeIsFree(w, Next(w, e));
    case Retire(n) => RetireKeepsCore(w, n);
    case CommitUpTo(n) => CommitKeepsCore(w, n);
    case SquashAbove(n) => SquashKeepsCore(w, n);
    case Writeback(accept) => WritebackKeepsCore(w, accept);
    case Response(i) => ResponseKeepsCore(w, i);
    case EnterRunahead(lll) => EnterKeepsCore(w, lll);
    case ExitRunahead(n) =>
      SquashKeepsCore(w, n);
      ModeIsFree(AfterSquash(w, n), Next(w, e));
  }

  lemma TakeViolatorKeepsFlight(w: World)
    requires Inv(w) && Guard(w, TakeViolator)
    ensures InFlightClear(Next(w, TakeViolator))
  {
    RetiredNotAccused(w);
    hide Core, InFlightClear;
    DoomKeptFlight(w, Next(w, TakeViolator));
  }

  lemma RedirectKeepsFlight(w: World, n: nat)
    requires Inv(w) && Guard(w, Redirect(n))
    ensures InFlightClear(Next(w, Redirect(n)))
  {
    hide Core, InFlightClear;
    DoomKeptFlight(w, Next(w, Redirect(n)));
  }

  lemma SquashKeepsFlight(w: World, n: nat)
    requires Inv(w)
    ensures InFlightClear(AfterSquash(w, n))
  {
    CoreHasPrefix(w);
    StagedIsDivided(w);
    QueueInvHasOrder(w.q);
    hide Core, InFlightClear, QueueInv, Divided, Ascending, Squash;
    SquashFlight(w, n);
  }

  lemma WritebackKeepsFlight(w: World, v: World, accept: bool)
    requires Inv(w) && v.q == WbStep(w.q, accept) && v.redirect == w.redirect
    ensures InFlightClear(v)
  {
    CoreHasPrefix(w);
    StagedIsDivided(w);
    hide Core, InFlightClear, QueueInv, Divided, WbStep;
    WritebackFlight(w, v, accept);
  }

  lemma ResponseKeepsFlight(w: World, i: nat)
    requires Inv(w) && Guard(w, Response(i))
    ensures InFlightClear(w.(q := Complete(w.q, i)))
  {
    CoreHasPrefix(w);
    hide Core, InFlightClear, Complete, MayComplete, WbPrefix;
    ResponseReady(w.q, i);
    CompleteFlight(w, w.(q := Complete(w.q, i)), w.q, i);
  }

  lemma RunStoreKeepsFlight(w: World, i: nat, addr: nat, data: Bytes)
    requires Inv(w) && Guard(w, RunStore(i, addr, data))
    ensures w.q.St(i).lqIt <= w.q.LqEnd() && InFlightClear(w.(q := ExecStore(w.q, i, addr, data)))
  {
    CoreHasPrefix(w);
    hide Core, InFlightClear, QueueInv, ExecStore, WbPrefix, Staged;
    RunningStoreIsUnsent(w, i);
    RunStoreFlight(w, i, addr, data);
  }

  /** What is in flight to the D-cache stays safe to serve while the pipeline runs. */
  lemma ExecutionKeepsFlight(w: World, e: Event)
    requires Inv(w) && Guard(w, e) && Executes(e)
    ensures InFlightClear(Next(w, e))
  {
    CoreHasPrefix(w);
    hide Core, QueueInv, WbPrefix, InBounds, Drained, LoadsCorrect, Staged, InFlightClear, Covered, ExecLoad, ExecStore,
         TouchStore, TouchLoad, NullLoad, ServeLoad, InsertLoad, InsertStore, Fresh;
    match e
    case AddLoad(seqNum) => AddLoadFlight(w, seqNum);
    case AddStore(seqNum) => AddStoreFlight(w, seqNum);
    case StartLoad(j) => StartLoadFlight(w, j);
    case StartStore(i) => StartStoreFlight(w, i);
    case RunLoad(j, addr, size, accept) => RunLoadFlight(w, j, addr, size, accept);
    case Serve(j, reply) => ServeFlight(w, j, reply);
    case SkipLoad(j) => SkipLoadFlight(w, j);
    case RunStore(i, addr, data) =>
      RunStoreKeepsFlight(w, i, addr, data);
      FlightIgnoresMode(w.(q := ExecStore(w.q, i, addr, data)), Next(w, e));
  }

  lemma PipelineEventKeepsFlight(w: World, e: Event)
    requires Inv(w) && Guard(w, e) && !Executes(e)
    ensures InFlightClear(Next(w, e))
  {
    CoreHasPrefix(w);
    hide Core, QueueInv, WbPrefix, InBounds, Drained, LoadsCorrect, Staged, InFlightClear, Covered, Commit, Squash, WbStep,
         Complete, MarkRunahead, Between, Leaving, Taken, Doomed, AfterSquash, Redirected;
    match e
    case TakeViolator => TakeViolatorKeepsFlight(w);
    case Redirect(n) => RedirectKeepsFlight(w, n);
    case Report(_) => FlightIgnoresMode(w, Next(w, e));
    case Retire(n) => FlightIgnoresMode(w, Next(w, e));
    case CommitUpTo(n) => CommitFlight(w, Next(w, e), n);
    case SquashAbove(n) => SquashKeepsFlight(w, n);
    case Writeback(accept) => WritebackKeepsFlight(w, Next(w, e), accept);
    case Response(i) => ResponseKeepsFlight(w, i);
    case EnterRunahead(lll) => EnterFlight(w, Next(w, e));
    case ExitRunahead(n) =>
      SquashKeepsFlight(w, n);
      FlightIgnoresMode(AfterSquash(w, n), Next(w, e));
  }

  lemma FlightIgnoresMode(w: World, v: World)
    requires InFlightClear(w) && v.q == w.q && v.redirect == w.redirect
    ensures InFlightClear(v)
  {
  }

  /** Commit stays behind whatever is about to be squashed. */
  lemma ExecutionKeepsCover(w: World, e: Event)
    requires Inv(w) && Guard(w, e) && Executes(e)
    ensures Covered(Next(w, e))
  {
    CoreHasPrefix(w);
    hide Core, QueueInv, WbPrefix, InBounds, Drained, LoadsCorrect, Staged, InFlightClear, Covered, ExecLoad, ExecStore,
         Fresh;
    if e.RunStore? {
      QueueInvHasOrder(w.q);
      RunStoreCover(w, e.i, e.storeAddr, e.data);
    } else {
      if e.RunLoad? {
        ExecLoadViolatorStays(w.q, e.j, e.addr, e.size, e.accept);
      }
      CoverStays(w, Next(w, e));
    }
  }

  lemma RetireKeepsCover(w: World, e: Event)
    requires Inv(w) && Guard(w, e)
    requires e.Retire? || e.CommitUpTo? || e.Writeback? || e.Response? || e.EnterRunahead?
    ensures Covered(Next(w, e))
  {
    CoreHasPrefix(w);
    CoreHasBlocked(w);
    hide Core, QueueInv, WbPrefix, BlockedIsReady, InBounds, Drained, LoadsCorrect, Staged, InFlightClear, Covered, Commit,
         WbStep, Complete, MarkRunahead, Between, Leaving, Taken;
    if e.CommitUpTo? {
      CommitViolatorStays(w.q, e.n);
    } else if e.Writeback? {
      WbStepViolator(w.q, e.accept);
    } else if e.Response? {
      CompleteViolatorStays(w.q, e.i);
    } else if e.EnterRunahead? {
      EnterViolatorStays(w.q, w.rob);
    }
    CoverStays(w, Next(w, e));
  }

  lemma SquashKeepsCover(w: World, e: Event)
    requires Inv(w) && Guard(w, e)
    requires e.TakeViolator? || e.Redirect? || e.Report? || e.SquashAbove? || e.ExitRunahead?
    ensures Covered(Next(w, e))
  {
    RetiredNotAccused(w);
    hide Core, InFlightClear, Covered, AfterSquash, Redirected;
    match e
    case TakeViolator => TakeViolatorCover(w);
    case Redirect(n) => RedirectCover(w, n);
    case Report(late) => ReportCover(w, late);
    case SquashAbove(n) => SquashCover(w, n);
    case ExitRunahead(n) =>
      SquashCover(w, n);
      CoverStays(AfterSquash(w, n), Next(w, e));
  }

  lemma StepKeepsInv(w: World, e: Event)
    requires Inv(w) && Guard(w, e)
    ensures Inv(Next(w, e))
  {
    if Executes(e) {
      ExecutionKeepsCore(w, e);
      ExecutionKeepsFlight(w, e);
      ExecutionKeepsCover(w, e);
    } else {
      PipelineEventKeepsCore(w, e);
      PipelineEventKeepsFlight(w, e);
      if e.Retire? || e.CommitUpTo? || e.Writeback? || e.Response? || e.EnterRunahead? {
        RetireKeepsCover(w, e);
      } else {
        SquashKeepsCover(w, e);
      }
    }
    hide Core, InFlightClear, Covered, Next, Guard;
  }

  // ---- Every run --------------------------------------------------------------------------------

  function Start(cfg: Config, memory: Contents): World
  {
    World(Lsq(cfg, 0, [], 0, [], 0, 0, None, None, false, false, memory, []), memory, [], [], [], 0, 0, 0, false, 0, None,
          {}, false)
  }

  predicate Enabled(w: World, es: seq<Event>)
    requires Inv(w)
    decreases |es|
  {
    es == [] || (Guard(w, es[0]) && (StepKeepsInv(w, es[0]); Enabled(Next(w, es[0]), es[1..])))
  }

  /** The state after the events of a run. */
  function After(w: World, es: seq<Event>): World
    requires Inv(w) && Enabled(w, es)
    decreases |es|
  {
    if es == [] then w
    else
      StepKeepsInv(w, es[0]);
      After(Next(w, es[0]), es[1..])
  }

  lemma {:induction false} RunKeepsInv(w: World, es: seq<Event>)
    requires Inv(w) && Enabled(w, es)
    ensures Inv(After(w, es)) && After(w, es).init == w.init
    decreases |es|
  {
    hide Inv;
    if es != [] {
      StepKeepsInv(w, es[0]);
      RunKeepsInv(Next(w, es[0]), es[1..]);
    }
  }

  lemma StartIsValid(cfg: Config, memory: Contents)
    ensures Inv(Start(cfg, memory))
  {
  }

  predicate Possible(cfg: Config, memory: Contents, es: seq<Event>)
  {
    StartIsValid(cfg, memory);
    Enabled(Start(cfg, memory), es)
  }

  /** The state reached from empty queues by the events of a run. */
  function Reached(cfg: Config, memory: Contents, es: seq<Event>): (w: World)
    requires Possible(cfg, memory, es)
    ensures Inv(w) && w.init == memory
  {
    StartIsValid(cfg, memory);
    RunKeepsInv(Start(cfg, memory), es);
    After(Start(cfg, memory), es)
  }
}
