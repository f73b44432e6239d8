/** What issue/execute is modelled to know about the load queue is what the load queue does. */
module LsqRedirect {
  import opened Prelude
  import opened Memory
  import opened LsqState
  import Redirect

  /** A store that executes leaves the record that issue/execute expects. */
  lemma RecordedIsDetected(q: Lsq, i: nat, addr: nat, data: Bytes, x: Redirect.Exec)
    requires q.StoreAt(i) && data != [] && q.St(i).lqIt <= q.LqEnd()
    requires x.conflict == FirstConflict(LoadsFrom(q, q.St(i).lqIt), addr, |data|, q.cfg.depCheckShift)
    ensures ExecStore(q, i, addr, data).violator == Redirect.Detected(q.violator, x)
  {
    hide FirstConflict, LoadsFrom;
  }

  /** The request asks for instruction `m` to be removed. */
  predicate AsksFor(r: Redirect.Request, m: nat)
  {
    if r.cause.BranchMispredict? then r.seqNum < m else r.seqNum <= m
  }

  /**
   * A squash that reaches the load queue clears the record exactly when issue/execute expects it to, and a request is
   * still on its way exactly if it asks for an instruction that the squash leaves.
   */
  lemma LandedIsSquashed(q: Lsq, f: Redirect.Flow, n: nat)
    requires q.violator == f.violator
    ensures var g := Redirect.NextRound(f, Redirect.Land(n));
            && Squash(q, n).violator == g.violator
            && (forall r :: r in g.inFlight <==> r in f.inFlight && exists m: nat :: m <= n && AsksFor(r, m))
  {
    hide CutLoads, CutStores;
    forall r | r in f.inFlight && Redirect.Point(r) < n ensures exists m: nat :: m <= n && AsksFor(r, m) {
      assert AsksFor(r, n);
    }
  }
}
