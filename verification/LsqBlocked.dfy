/** A store the D-cache refuses blocks write-back until it is accepted, and is the next to be sent. */
module LsqBlocked {
  import opened Prelude
  import opened Memory
  import opened LsqState
  import opened LsqWorld
  import opened LsqRetire
  import opened LsqTheorems
  import opened LsqResults
  import opened LsqKept
  import opened LsqTso

  /** The next committed store has data for the D-cache. */
  predicate WantsDcache(q: Lsq)
  {
    q.StoreAt(q.storeWBIt) && q.St(q.storeWBIt).canWB && q.St(q.storeWBIt).data != [] && !ToRCache(q.St(q.storeWBIt))
  }

  lemma RefusalBlocks(q: Lsq)
    requires WantsDcache(q) && (q.storeBlocked || WbReady(q))
    ensures WbStep(q, false) == q.(storeBlocked := true)
  {
  }

  /** Store `p` with its bytes waits blocked at the write-back position. */
  predicate BlockedOn(w: World, p: nat, s: Store)
  {
    && w.q.storeBlocked && w.q.storeWBIt == p && w.q.StoreAt(p) && AsStore(w.q.St(p)) == s && !w.q.St(p).runahead
    && s.seqNum <= w.done
  }

  lemma BlockedIsCommitted(w: World, p: nat, s: Store)
    requires Inv(w) && BlockedOn(w, p, s)
    ensures s.data != [] && w.q.St(p).seqNum <= w.rob && w.q.St(p).canWB
    ensures QueueInv(w.q) && WbPrefix(w.q) && Ascending(w.q) && Divided(w.q, w.done)
  {
    FactsForPipeline(w);
    CoreHasBlocked(w);
    hide Core, QueueInv, WbPrefix, Ascending, InFlightClear, Covered;
    assert w.q.sq[p - w.q.sqHead] == w.q.St(p);
  }

  lemma BlockedEventStays(w: World, e: Event, p: nat, s: Store)
    requires Inv(w) && Guard(w, e) && BlockedOn(w, p, s) && !e.Writeback? && !Executes(e)
    ensures StoreStays(w.q, Next(w, e).q, p)
  {
    BlockedIsCommitted(w, p, s);
    hide Inv, QueueInv, WbPrefix, Ascending, Divided, StoreStays, Commit, Squash, Complete, MarkRunahead, Between, Leaving,
         Taken;
    if e.CommitUpTo? {
      CommitStays(w.q, e.n, p);
    } else if e.SquashAbove? || e.ExitRunahead? {
      SquashStays(w.q, w.done, e.n, p);
    } else if e.Response? {
      ResponseReady(w.q, e.i);
      CompleteStays(w.q, e.i, p);
    } else if e.EnterRunahead? {
      MarkStays(w.q, w.rob, p);
    } else {
      SameStoresStay(w.q, Next(w, e).q, p);
    }
  }

  lemma ResponseKeepsPosition(q: Lsq, i: nat)
    requires MayComplete(q, i)
    ensures Complete(q, i).storeWBIt == q.storeWBIt && Complete(q, i).storeBlocked == q.storeBlocked
  {
    hide DropCompleted;
  }

  lemma FlightOf(w: World, e: Event)
    requires Inv(w) && Guard(w, e) && !e.Writeback?
    ensures Next(w, e).q.storeWBIt == w.q.storeWBIt && Next(w, e).q.storeBlocked == w.q.storeBlocked
  {
    if e.Response? {
      FactsForPipeline(w);
      ResponseReady(w.q, e.i);
      ResponseKeepsPosition(w.q, e.i);
      hide Inv, Complete, MayComplete;
    } else {
      hide Inv, Next, Guard;
      if Executes(e) {
        ExecutionSameFlight(w, e);
      } else {
        PipelineSameFlight(w, e);
      }
    }
  }

  /** No event but an accepted attempt moves on from a blocked store. */
  lemma StepKeepsBlocked(w: World, e: Event, p: nat, s: Store)
    requires Inv(w) && Guard(w, e) && BlockedOn(w, p, s) && !(e.Writeback? && e.accept)
    ensures BlockedOn(Next(w, e), p, s)
  {
    BlockedIsCommitted(w, p, s);
    if e.Writeback? {
      BlockedIsRefused(w, p, s);
    } else {
      hide Inv, QueueInv, WbPrefix, Ascending, Divided, Next, Guard;
      FlightOf(w, e);
      if Executes(e) {
        ExecutionStays(w, e, p);
      } else {
        BlockedEventStays(w, e, p, s);
      }
      StepAdvances(w, e);
    }
  }

  lemma BlockedIsRefused(w: World, p: nat, s: Store)
    requires Inv(w) && BlockedOn(w, p, s)
    ensures Next(w, Writeback(false)).q == w.q
  {
    CoreHasPrefix(w);
    CoreHasBlocked(w);
    QueueHasRequests(w.q);
    hide Core, QueueInv, WbPrefix, InFlightClear, Covered, InBounds, Drained, LoadsCorrect, Staged;
    assert w.q.sq[p - w.q.sqHead] == w.q.St(p);
  }

  lemma QueueHasRequests(q: Lsq)
    requires QueueInv(q)
    ensures StoreRequestsFit(q.sq)
  {
    hide Order, StoreSide, LoadSide, LoadRequestsFit;
  }

  predicate NothingAccepted(es: seq<Event>)
  {
    forall k | 0 <= k < |es| :: !(es[k].Writeback? && es[k].accept)
  }

  lemma {:induction false} RunKeepsBlocked(w: World, es: seq<Event>, p: nat, s: Store)
    requires Inv(w) && Enabled(w, es) && NothingAccepted(es) && BlockedOn(w, p, s)
    ensures BlockedOn(After(w, es), p, s)
    decreases |es|
  {
    hide Inv, BlockedOn, Next, Guard;
    if es != [] {
      StepKeepsInv(w, es[0]);
      StepKeepsBlocked(w, es[0], p, s);
      RunKeepsBlocked(Next(w, es[0]), es[1..], p, s);
    }
  }

  /**
   * Once the D-cache has refused a store, write-back is blocked on it: from every valid state and over every run in which
   * nothing is accepted, squash, commit and runahead included, it stays the next to be sent, and the first accepted
   * attempt sends exactly it.
   */
  lemma RefusedStoreIsNext(w: World, es: seq<Event>)
    requires Inv(w) && WantsDcache(w.q) && (w.q.storeBlocked || WbReady(w.q)) && NothingAccepted(es)
    requires var v := Next(w, Writeback(false));
             (StepKeepsInv(w, Writeback(false)); Enabled(v, es))
    ensures var s, v := AsStore(w.q.St(w.q.storeWBIt)), After(Next(w, Writeback(false)), es);
            && v.q.storeBlocked && Inv(v) && Guard(v, Writeback(true))
            && var u := Next(v, Writeback(true));
            u.q.dcache == Put(v.q.dcache, s) && u.sent == v.sent + [s] && !u.q.storeBlocked
  {
    hide Inv, Next, BlockedOn, Put;
    var p, v := w.q.storeWBIt, Next(w, Writeback(false));
    var s := AsStore(w.q.St(p));
    StepKeepsInv(w, Writeback(false));
    RefusedBlocks(w);
    RunKeepsBlocked(v, es, p, s);
    RunKeepsInv(v, es);
    AcceptedSends(After(v, es), p, s);
  }

  lemma WantsIsNormal(q: Lsq, done: nat)
    requires StoreRequestsFit(q.sq) && Divided(q, done) && WantsDcache(q)
    ensures !q.St(q.storeWBIt).runahead && q.St(q.storeWBIt).seqNum <= done
  {
    assert q.sq[q.storeWBIt - q.sqHead] == q.St(q.storeWBIt);
  }

  lemma RefusedBlocks(w: World)
    requires Inv(w) && WantsDcache(w.q) && (w.q.storeBlocked || WbReady(w.q))
    ensures BlockedOn(Next(w, Writeback(false)), w.q.storeWBIt, AsStore(w.q.St(w.q.storeWBIt)))
  {
    FactsForPipeline(w);
    QueueHasRequests(w.q);
    hide Inv, QueueInv, WbPrefix, Ascending, Divided, StoreRequestsFit, WbStep, Taken, WbReady;
    RefusalBlocks(w.q);
    WantsIsNormal(w.q, w.done);
  }

  lemma AcceptedSends(w: World, p: nat, s: Store)
    requires Inv(w) && BlockedOn(w, p, s)
    ensures var u := Next(w, Writeback(true));
            w.q.storeBlocked && u.q.dcache == Put(w.q.dcache, s) && u.sent == w.sent + [s] && !u.q.storeBlocked
  {
    BlockedIsCommitted(w, p, s);
    CoreHasBlocked(w);
    QueueHasRequests(w.q);
    hide Core, QueueInv, WbPrefix, InFlightClear, Covered, Ascending, Divided;
    assert w.q.sq[p - w.q.sqHead] == w.q.St(p);
  }
}
