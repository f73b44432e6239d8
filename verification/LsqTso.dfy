/** Under total store order one store at a time is in flight to the D-cache. */
module LsqTso {
  import opened Prelude
  import opened Memory
  import opened LsqState
  import opened LsqWorld
  import opened LsqRetire
  import opened LsqTheorems

  /** What is sent and still queued is the head, while it is in flight; a store that waits to be retried waits alone. */
  predicate OneInFlight(q: Lsq)
  {
    q.cfg.needsTSO ==>
      && q.storeWBIt == q.sqHead + (if q.storeInFlight then 1 else 0)
      && (q.storeBlocked ==> !q.storeInFlight)
  }

  /** Write-back apart, nothing moves the two positions or touches the two flags. */
  predicate SameFlight(q: Lsq, r: Lsq)
  {
    && r.cfg == q.cfg && r.sqHead == q.sqHead && r.storeWBIt == q.storeWBIt
    && r.storeInFlight == q.storeInFlight && r.storeBlocked == q.storeBlocked
  }

  /** Only the head leaves when it is the only store that has completed. */
  lemma CompleteHead(p: Lsq)
    requires p.StoreAt(p.sqHead) && p.storeWBIt == p.sqHead + 1 && forall i | 1 <= i < |p.sq| :: !p.sq[i].completed
    ensures var r := Complete(p, p.sqHead);
            && r.cfg == p.cfg && r.sqHead == p.sqHead + 1 == r.storeWBIt
            && r.storeInFlight == (p.storeInFlight && !p.cfg.needsTSO) && r.storeBlocked == p.storeBlocked
  {
    var m := p.sq[0 := p.sq[0].(completed := true)];
    assert DropCompleted(m) == m[1..] by {
      assert m[1..] != [] ==> !m[1..][0].completed;
    }
  }

  lemma CompleteCfg(p: Lsq, i: nat)
    requires p.StoreAt(i)
    ensures Complete(p, i).cfg == p.cfg
  {
    hide DropCompleted;
  }

  lemma WbStepKeepsOne(q: Lsq, accept: bool)
    requires WbPrefix(q) && BlockedIsReady(q) && OneInFlight(q)
    ensures OneInFlight(WbStep(q, accept)) && WbStep(q, accept).cfg == q.cfg
  {
    hide Complete, Put, Replay;
    if !q.storeBlocked && WbReady(q) && q.St(q.storeWBIt).data == [] {
      var p := q.(storeWBIt := q.storeWBIt + 1);
      CompleteCfg(p, q.storeWBIt);
      if q.cfg.needsTSO {
        CompleteHead(p);
      }
    }
  }

  lemma ResponseKeepsOne(q: Lsq, i: nat)
    requires WbPrefix(q) && OneInFlight(q) && q.StoreAt(i) && i < q.storeWBIt && !q.St(i).completed
    ensures OneInFlight(Complete(q, i)) && Complete(q, i).cfg == q.cfg
  {
    hide Complete;
    CompleteCfg(q, i);
    if q.cfg.needsTSO {
      CompleteHead(q);
    }
  }

  lemma ExecLoadSameFlight(q: Lsq, j: nat, addr: nat, size: nat, accept: bool)
    requires q.LoadAt(j) && q.sqHead <= q.storeWBIt <= q.Ld(j).sqIt <= q.SqEnd()
    ensures SameFlight(q, ExecLoad(q, j, addr, size, accept))
  {
    hide Scan, StallLoad, Window;
  }

  lemma ExecutionSameFlight(w: World, e: Event)
    requires Inv(w) && Guard(w, e) && Executes(e)
    ensures SameFlight(w.q, Next(w, e).q)
  {
    CoreHasPrefix(w);
    hide Core, QueueInv, WbPrefix, InBounds, Drained, LoadsCorrect, Staged, InFlightClear, Covered, FirstConflict,
         ReadBytes, ExecLoad, Fresh;
    if e.RunLoad? {
      ExecLoadSameFlight(w.q, e.j, e.addr, e.size, e.accept);
    }
  }

  lemma PipelineSameFlight(w: World, e: Event)
    requires Inv(w) && Guard(w, e) && !Executes(e) && !e.Writeback? && !e.Response?
    ensures SameFlight(w.q, Next(w, e).q)
  {
    hide Inv, DropLoads, CountNew, MarkStores, CutLoads, CutStores, Between, Leaving;
  }

  lemma StepKeepsOne(w: World, e: Event)
    requires Inv(w) && Guard(w, e) && OneInFlight(w.q)
    ensures OneInFlight(Next(w, e).q) && Next(w, e).q.cfg == w.q.cfg
  {
    CoreHasPrefix(w);
    CoreHasBlocked(w);
    hide Core, QueueInv, WbPrefix, BlockedIsReady, InBounds, Drained, LoadsCorrect, Staged, InFlightClear, Covered, WbStep,
         Complete, Taken, OneInFlight;
    if e.Writeback? {
      WbStepKeepsOne(w.q, e.accept);
    } else if e.Response? {
      ResponseKeepsOne(w.q, e.i);
    } else {
      hide Next;
      if Executes(e) {
        ExecutionSameFlight(w, e);
      } else {
        PipelineSameFlight(w, e);
      }
      SameFlightKeepsOne(w.q, Next(w, e).q);
    }
  }

  lemma SameFlightKeepsOne(q: Lsq, r: Lsq)
    requires SameFlight(q, r) && OneInFlight(q)
    ensures OneInFlight(r)
  {
  }

  lemma {:induction false} RunKeepsOne(w: World, es: seq<Event>)
    requires Inv(w) && Enabled(w, es) && OneInFlight(w.q)
    ensures OneInFlight(After(w, es).q) && After(w, es).q.cfg == w.q.cfg
    decreases |es|
  {
    hide Inv, OneInFlight;
    if es != [] {
      StepKeepsInv(w, es[0]);
      StepKeepsOne(w, es[0]);
      RunKeepsOne(Next(w, es[0]), es[1..]);
    }
  }

  /** A store that memory has taken but not acknowledged. */
  predicate Unacknowledged(q: Lsq, i: nat)
  {
    q.StoreAt(i) && i < q.storeWBIt && !q.St(i).completed
  }

  lemma OneIsHead(q: Lsq)
    requires WbPrefix(q) && OneInFlight(q) && q.cfg.needsTSO
    ensures forall i | Unacknowledged(q, i) :: i == q.sqHead
    ensures q.storeInFlight <==> Unacknowledged(q, q.sqHead)
    ensures q.storeInFlight ==> forall accept :: WbStep(q, accept) == q
  {
  }

  /**
   * In every reachable state under total store order at most one store is unacknowledged, the flag says whether there
   * is one, and while there is one nothing is retried or sent.
   */
  lemma TsoSendsOneAtATime(cfg: Config, memory: Contents, es: seq<Event>)
    requires Possible(cfg, memory, es) && cfg.needsTSO
    ensures var q := Reached(cfg, memory, es).q;
            && (forall i, k | Unacknowledged(q, i) && Unacknowledged(q, k) :: i == k)
            && (q.storeInFlight <==> exists i :: Unacknowledged(q, i))
            && (q.storeInFlight ==> forall accept :: WbStep(q, accept) == q)
  {
    var q := Reached(cfg, memory, es).q;
    StartIsValid(cfg, memory);
    RunKeepsOne(Start(cfg, memory), es);
    CoreHasPrefix(Reached(cfg, memory, es));
    hide Reached, Possible, Inv, WbPrefix, OneInFlight, Unacknowledged, WbStep;
    OneIsHead(q);
  }
}
