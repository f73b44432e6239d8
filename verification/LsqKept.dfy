/** No normal store that has retired is ever lost: it waits in the queue until it commits, whatever runahead does. */
module LsqKept {
  import opened Prelude
  import opened Memory
  import opened LsqState
  import opened LsqWorld
  import opened LsqProof
  import opened LsqSteps
  import opened LsqRetire
  import opened LsqRuns
  import opened LsqTheorems
  import opened LsqResults

  /** A retired normal store with data that has not committed. */
  predicate Awaits(w: World, p: nat)
  {
    w.q.StoreAt(p) && !w.q.St(p).runahead && w.q.St(p).data != [] && w.done < w.q.St(p).seqNum <= w.rob
  }

  /** The store is still at its position, and is still the same normal store. */
  predicate StoreStays(q: Lsq, r: Lsq, p: nat)
    requires q.StoreAt(p)
  {
    r.StoreAt(p) && AsStore(r.St(p)) == AsStore(q.St(p)) && r.St(p).runahead == q.St(p).runahead
  }

  /** In a period, the normal stores in the queue are older than the load that started it. */
  predicate BelowCause(w: World)
  {
    w.runahead ==> forall i | 0 <= i < |w.q.sq| && !w.q.sq[i].runahead :: w.q.sq[i].seqNum < w.lll
  }

  /**
   * A period ends by going back to its own load; one that a stale deadline sends further back ends after the queue has
   * heard of the commit of everything older than that load.
   */
  predicate ExitInOrder(w: World, e: Event)
  {
    e.ExitRunahead? ==> e.n + 1 == w.lll || w.lll <= w.done + 1
  }

  lemma FromBelowCause(w: World, v: World)
    requires BelowCause(w) && StoresFrom(w.q, v.q) && (v.runahead ==> w.runahead && v.lll == w.lll)
    ensures BelowCause(v)
  {
  }

  lemma StepMode(w: World, e: Event)
    requires Inv(w) && Guard(w, e) && !e.EnterRunahead?
    ensures Next(w, e).runahead ==> w.runahead && Next(w, e).lll == w.lll
  {
    hide Inv, Commit, ExecLoad, ExecStore, WbStep, Complete, Squash, Between, Leaving, Taken;
  }

  lemma StepKeepsBelowCause(w: World, e: Event)
    requires Inv(w) && Guard(w, e) && BelowCause(w)
    ensures BelowCause(Next(w, e))
  {
    if e.AddStore? || e.EnterRunahead? {
      hide Inv;
    } else {
      hide Inv, StoresFrom, BelowCause, Next, Guard;
      StepStores(w, e);
      StepMode(w, e);
      FromBelowCause(w, Next(w, e));
    }
  }

  // ---- Each operation ---------------------------------------------------------------------------

  lemma UncommittedIsUnsent(w: World, p: nat)
    requires WbPrefix(w.q) && Divided(w.q, w.done) && Awaits(w, p)
    ensures w.q.storeWBIt <= p && !w.q.St(p).canWB
  {
    assert w.q.sq[p - w.q.sqHead] == w.q.St(p);
  }

  lemma MarkedStays(q: Lsq, i: nat, p: nat)
    requires q.StoreAt(i) && q.StoreAt(p)
    ensures |Marked(q, i)| == |q.sq|
    ensures var e := Marked(q, i)[p - q.sqHead]; AsStore(e) == AsStore(q.St(p)) && e.runahead == q.St(p).runahead
  {
  }

  lemma CompleteStays(q: Lsq, i: nat, p: nat)
    requires q.StoreAt(i) && MayComplete(q, i) && q.StoreAt(p) && q.storeWBIt <= p
    ensures StoreStays(q, Complete(q, i), p)
  {
    hide Complete, MayComplete, Marked;
    MarkedStays(q, i, p);
    CompleteSuffix(q, i);
    CompleteEnd(q, i);
    var r := Complete(q, i);
    assert r.sq[p - r.sqHead] == Marked(q, i)[p - q.sqHead];
  }

  lemma CompleteEnd(q: Lsq, i: nat)
    requires q.StoreAt(i)
    ensures Complete(q, i).SqEnd() == q.SqEnd()
  {
    hide DropCompleted;
  }

  lemma PostSendStays(q: Lsq, p: nat)
    requires q.StoreAt(q.storeWBIt) && q.StoreAt(p)
    ensures StoreStays(q, PostSend(q), p)
  {
  }

  lemma WbStepStays(q: Lsq, done: nat, accept: bool, p: nat)
    requires QueueInv(q) && Divided(q, done) && q.StoreAt(p) && q.storeWBIt <= p && !q.St(p).canWB
    ensures StoreStays(q, WbStep(q, accept), p)
  {
    hide Order, LoadSide, Counted, RequestsFit, WbPrefix, Divided, PostSend, Complete, MayComplete;
    if q.StoreAt(q.storeWBIt) {
      PostSendStays(q, p);
    }
    if !q.storeBlocked && WbReady(q) && q.St(q.storeWBIt).data == [] {
      SkipEmptyReady(q, done);
      CompleteStays(q.(storeWBIt := q.storeWBIt + 1), q.storeWBIt, p);
    }
  }

  lemma SquashStays(q: Lsq, done: nat, n: nat, p: nat)
    requires Ascending(q) && Divided(q, done) && q.StoreAt(p) && (q.St(p).seqNum <= n || q.St(p).canWB)
    ensures StoreStays(q, Squash(q, n), p)
  {
    SquashStoresExact(q, n, done);
    assert Squash(q, n).sqHead == q.sqHead by {
      hide CutLoads, CutStores;
    }
    assert q.sq[p - q.sqHead] == q.St(p);
    hide Squash;
  }

  lemma {:induction false} BetweenHas(ss: seq<SQEntry>, lo: nat, hi: nat, k: nat)
    requires k < |ss| && Keep(ss[k], hi) && lo <= ss[k].seqNum
    ensures AsStore(ss[k]) in Between(ss, lo, hi)
  {
    if k < |ss| - 1 {
      BetweenHas(ss[..|ss| - 1], lo, hi, k);
    }
  }

  lemma CommitStays(q: Lsq, n: nat, p: nat)
    requires q.StoreAt(p)
    ensures StoreStays(q, Commit(q, n), p)
  {
    hide DropLoads, CountNew;
  }

  lemma OtherStoreStays(q: Lsq, r: Lsq, i: nat, p: nat)
    requires q.StoreAt(i) && q.StoreAt(p) && i != p && r.sqHead == q.sqHead && |r.sq| == |q.sq|
    requires forall k | 0 <= k < |q.sq| && k != i - q.sqHead :: r.sq[k] == q.sq[k]
    ensures StoreStays(q, r, p)
  {
  }

  lemma SameStoresStay(q: Lsq, r: Lsq, p: nat)
    requires q.StoreAt(p) && r.sqHead == q.sqHead && q.sq <= r.sq
    ensures StoreStays(q, r, p)
  {
  }

  lemma MarkStays(q: Lsq, rob: nat, p: nat)
    requires q.StoreAt(p) && q.St(p).seqNum <= rob
    ensures StoreStays(q, MarkRunahead(q, rob), p)
  {
  }

  // ---- Each step --------------------------------------------------------------------------------

  lemma ExecStoreStays(q: Lsq, i: nat, addr: nat, data: Bytes, p: nat)
    requires q.StoreAt(i) && q.StoreAt(p) && i != p && data != [] && q.St(i).lqIt <= q.LqEnd()
    ensures StoreStays(q, ExecStore(q, i, addr, data), p)
  {
    hide FirstConflict, StoreStays;
    OtherStoreStays(q, ExecStore(q, i, addr, data), i, p);
  }

  lemma TouchStoreStays(q: Lsq, i: nat, p: nat)
    requires q.StoreAt(i) && q.StoreAt(p) && i != p
    ensures StoreStays(q, TouchStore(q, i), p)
  {
    hide StoreStays;
    OtherStoreStays(q, TouchStore(q, i), i, p);
  }

  lemma LoadEventStays(w: World, e: Event, p: nat)
    requires Inv(w) && Guard(w, e) && Executes(e) && !e.RunStore? && !e.StartStore? && w.q.StoreAt(p)
    ensures StoreStays(w.q, Next(w, e).q, p)
  {
    CoreHasPrefix(w);
    hide Core, QueueInv, WbPrefix, InBounds, Drained, LoadsCorrect, Staged, InFlightClear, Covered, ExecLoad, Fresh,
         StoreStays, ReadBytes;
    if e.RunLoad? {
      ExecLoadSameStores(w.q, e.j, e.addr, e.size, e.accept);
    }
    SameStoresStay(w.q, Next(w, e).q, p);
  }

  /** What runs before retirement touches no retired store. */
  lemma ExecutionStays(w: World, e: Event, p: nat)
    requires Inv(w) && Guard(w, e) && Executes(e) && w.q.StoreAt(p) && w.q.St(p).seqNum <= w.rob
    ensures StoreStays(w.q, Next(w, e).q, p)
  {
    CoreHasPrefix(w);
    hide Core, QueueInv, WbPrefix, InBounds, Drained, LoadsCorrect, Staged, InFlightClear, Covered, ExecLoad, ExecStore,
         TouchStore, Fresh, StoreStays;
    if e.RunStore? {
      ExecStoreStays(w.q, e.i, e.storeAddr, e.data, p);
    } else if e.StartStore? {
      TouchStoreStays(w.q, e.i, p);
    } else {
      hide Next;
      LoadEventStays(w, e, p);
    }
  }

  lemma FactsForPipeline(w: World)
    requires Inv(w)
    ensures QueueInv(w.q) && WbPrefix(w.q) && Ascending(w.q) && Divided(w.q, w.done)
  {
    CoreHasPrefix(w);
    FactsOfInv(w);
  }

  /** The end of a period goes back no further than a normal store that awaits its commit. */
  lemma PipelineStays(w: World, e: Event, p: nat)
    requires Inv(w) && Guard(w, e) && !Executes(e) && Awaits(w, p) && BelowCause(w)
    requires ExitInOrder(w, e)
    ensures StoreStays(w.q, Next(w, e).q, p)
  {
    FactsForPipeline(w);
    UncommittedIsUnsent(w, p);
    assert w.q.sq[p - w.q.sqHead] == w.q.St(p);
    hide Inv, QueueInv, WbPrefix, Ascending, Divided, StoreStays, Commit, Squash, WbStep, Complete, MarkRunahead, Between,
         Leaving, Taken;
    if e.CommitUpTo? {
      CommitStays(w.q, e.n, p);
    } else if e.SquashAbove? || e.ExitRunahead? {
      SquashStays(w.q, w.done, e.n, p);
    } else if e.Writeback? {
      WbStepStays(w.q, w.done, e.accept, p);
    } else if e.Response? {
      ResponseReady(w.q, e.i);
      CompleteStays(w.q, e.i, p);
    } else if e.EnterRunahead? {
      MarkStays(w.q, w.rob, p);
    } else {
      SameStoresStay(w.q, Next(w, e).q, p);
    }
  }

  lemma CommittedIsLogged(w: World, n: nat, p: nat)
    requires Inv(w) && Guard(w, CommitUpTo(n)) && Awaits(w, p) && w.q.St(p).seqNum <= n
    ensures AsStore(w.q.St(p)) in Next(w, CommitUpTo(n)).hist
  {
    hide Inv, Commit, Between, Leaving;
    BetweenHas(w.q.sq, w.done + 1, n + 1, p - w.q.sqHead);
  }

  lemma StepAdvances(w: World, e: Event)
    requires Inv(w) && Guard(w, e)
    ensures w.hist <= Next(w, e).hist && w.rob <= Next(w, e).rob && w.done <= Next(w, e).done
    ensures Next(w, e).done == if e.CommitUpTo? then e.n else w.done
  {
    hide Inv, Commit, ExecLoad, ExecStore, WbStep, Complete, Squash, Between, Leaving, Taken, MarkRunahead;
  }

  // ---- Runs -------------------------------------------------------------------------------------

  /** Every period of the run ends that way. */
  predicate ExitsInOrder(w: World, es: seq<Event>)
    requires Inv(w) && Enabled(w, es)
    decreases |es|
  {
    es == [] ||
    (ExitInOrder(w, es[0]) && (StepKeepsInv(w, es[0]); ExitsInOrder(Next(w, es[0]), es[1..])))
  }

  /** The store has committed and is in the history, or it still awaits its commit at its position. */
  predicate Safe(w: World, p: nat, s: Store)
  {
    if s.seqNum <= w.done then s in w.hist else Awaits(w, p) && AsStore(w.q.St(p)) == s
  }

  lemma StepKeepsSafe(w: World, e: Event, p: nat, s: Store)
    requires Inv(w) && Guard(w, e) && BelowCause(w) && Safe(w, p, s) && ExitInOrder(w, e)
    ensures Safe(Next(w, e), p, s)
  {
    hide Inv, Guard, Next, BelowCause;
    StepAdvances(w, e);
    if w.done < s.seqNum {
      if Executes(e) {
        ExecutionStays(w, e, p);
      } else {
        PipelineStays(w, e, p);
      }
      if e.CommitUpTo? && s.seqNum <= e.n {
        CommittedIsLogged(w, e.n, p);
      }
    }
  }

  lemma {:induction false} RunKeepsSafe(w: World, es: seq<Event>, p: nat, s: Store)
    requires Inv(w) && Enabled(w, es) && ExitsInOrder(w, es) && BelowCause(w) && Safe(w, p, s)
    ensures Safe(After(w, es), p, s)
    decreases |es|
  {
    hide Inv, BelowCause, Safe, Next, Guard;
    if es != [] {
      StepKeepsInv(w, es[0]);
      StepKeepsBelowCause(w, es[0]);
      StepKeepsSafe(w, es[0], p, s);
      RunKeepsSafe(Next(w, es[0]), es[1..], p, s);
    }
  }

  lemma {:induction false} RunKeepsBelowCause(w: World, es: seq<Event>)
    requires Inv(w) && Enabled(w, es) && BelowCause(w)
    ensures BelowCause(After(w, es))
    decreases |es|
  {
    hide Inv, BelowCause, Next, Guard;
    if es != [] {
      StepKeepsInv(w, es[0]);
      StepKeepsBelowCause(w, es[0]);
      RunKeepsBelowCause(Next(w, es[0]), es[1..]);
    }
  }

  /**
   * From every reachable state, over every run whose periods end in order: a normal store that has retired is
   * in the commit history as soon as its commit has been reported, and until then it waits at its position, unchanged
   * and still a normal store.
   */
  lemma RetiredStoreIsNeverLost(cfg: Config, memory: Contents, past: seq<Event>, es: seq<Event>, p: nat)
    requires Possible(cfg, memory, past)
    requires var w := Reached(cfg, memory, past); Awaits(w, p) && Enabled(w, es) && ExitsInOrder(w, es)
    ensures var w := Reached(cfg, memory, past);
            var v, s := After(w, es), AsStore(w.q.St(p));
            if s.seqNum <= v.done then s in v.hist
            else v.q.StoreAt(p) && AsStore(v.q.St(p)) == s && !v.q.St(p).runahead
  {
    StartIsValid(cfg, memory);
    var w := Reached(cfg, memory, past);
    assert w == After(Start(cfg, memory), past);
    hide Inv, Reached, Possible, After, Enabled, Next, Guard;
    RunKeepsBelowCause(Start(cfg, memory), past);
    RunKeepsSafe(w, es, p, AsStore(w.q.St(p)));
  }
}
