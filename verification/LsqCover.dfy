/** Why commit never passes an instruction that is about to be squashed. */
module LsqCover {
  import opened Prelude
  import opened Memory
  import opened LsqState
  import opened LsqWorld
  import opened LsqSteps

  /** A store can only accuse a load younger than itself. */
  lemma AccusedIsYounger(q: Lsq, i: nat, addr: nat, data: Bytes)
    requires Linked(q) && InBounds(q) && q.StoreAt(i) && data != []
    ensures var c := FirstConflict(LoadsFrom(q, q.St(i).lqIt), addr, |data|, q.cfg.depCheckShift);
            c.Some? ==> q.St(i).seqNum < c.value
  {
    var from := LoadsFrom(q, q.St(i).lqIt);
    if FirstConflict(from, addr, |data|, q.cfg.depCheckShift).Some? {
      var k := FirstConflictQueued(from, addr, |data|, q.cfg.depCheckShift);
      var j := |q.lq| - |from| + k;
      assert q.lq[j] == from[k];
      assert q.sq[i - q.sqHead].lqIt <= q.lqHead + j;
    }
  }

  /** In order, finished and told about: an instruction that retires is older than every violator and redirect. */
  lemma RetireAllowed(w: World, n: nat)
    requires Covered(w) && Guard(w, Retire(n))
    ensures w.q.violator.Some? ==> n < w.q.violator.value
    ensures w.redirect.Some? ==> n <= w.redirect.value
  {
  }

  lemma CoverStays(w: World, v: World)
    requires Covered(w) && v.q.violator == w.q.violator && v.redirect == w.redirect && v.arrived == w.arrived
    requires v.unreported == w.unreported
    ensures Covered(v)
  {
  }

  /** The store that finds a violation is itself older than the load it accuses, and has not been reported. */
  lemma RunStoreCover(w: World, i: nat, addr: nat, data: Bytes)
    requires Covered(w) && Linked(w.q) && InBounds(w.q) && w.q.StoreAt(i) && data != []
    ensures w.q.St(i).lqIt <= w.q.LqEnd()
    ensures Covered(w.(q := ExecStore(w.q, i, addr, data), unreported := w.unreported + {w.q.St(i).seqNum}))
  {
    AccusedIsYounger(w.q, i, addr, data);
    assert w.q.sq[i - w.q.sqHead] == w.q.St(i);
    var v := w.(q := ExecStore(w.q, i, addr, data), unreported := w.unreported + {w.q.St(i).seqNum});
    hide Linked, InBounds, FirstConflict;
    assert w.q.St(i).seqNum in v.unreported && forall u | u in w.unreported :: u in v.unreported;
  }

  lemma TakeViolatorCover(w: World)
    requires Covered(w) && w.q.violator.Some? && w.q.violator.value > 0
    ensures Covered(Redirected(w, Max(0, w.q.violator.value - 1)).(q := w.q.(violator := None)))
  {
  }

  lemma RedirectCover(w: World, n: nat)
    requires Covered(w)
    ensures Covered(Redirected(w, n).(unreported := w.unreported + {n}))
  {
    var v := Redirected(w, n).(unreported := w.unreported + {n});
    assert n in v.unreported && forall u | u in w.unreported :: u in v.unreported;
  }

  lemma ReportCover(w: World, late: set<nat>)
    requires Covered(w) && Guard(w, Report(late))
    ensures Covered(w.(unreported := w.unreported * late, arrived := w.redirect.Some?))
  {
  }

  /** What survives a squash is still covered, by something that survives it too. */
  lemma SquashCover(w: World, n: nat)
    requires Covered(w)
    ensures Covered(AfterSquash(w, n))
  {
    hide CutLoads, CutStores;
    var v := AfterSquash(w, n);
    assert v.q.violator.Some? ==> v.q.violator == w.q.violator && w.q.violator.value <= n;
    assert forall u | u in w.unreported && u <= n :: u in v.unreported;
  }

  lemma ExecLoadViolatorStays(q: Lsq, j: nat, addr: nat, size: nat, accept: bool)
    requires q.LoadAt(j) && q.sqHead <= q.storeWBIt <= q.Ld(j).sqIt <= q.SqEnd()
    ensures ExecLoad(q, j, addr, size, accept).violator == q.violator
  {
    hide Scan, Window;
  }

  lemma CommitViolatorStays(q: Lsq, n: nat)
    ensures Commit(q, n).violator == q.violator
  {
    hide DropLoads, MarkStores, CountNew;
  }

  lemma EnterViolatorStays(q: Lsq, rob: nat)
    ensures MarkRunahead(q, rob).violator == q.violator
  {
  }

  lemma CompleteViolatorStays(q: Lsq, i: nat)
    requires q.StoreAt(i)
    ensures Complete(q, i).violator == q.violator
  {
    hide DropCompleted;
  }

  lemma WbStepViolator(q: Lsq, accept: bool)
    requires WbPrefix(q) && BlockedIsReady(q)
    ensures WbStep(q, accept).violator == q.violator
  {
    hide DropCompleted, Replay, Put;
  }
}
