/** Which of several squashes wins within a cycle of issue/execute, and what becomes of the others. */
module Redirect {
  import opened Prelude

  datatype Cause = BranchMispredict | MemoryOrder | RunaheadEnd

  datatype Request = Request(seqNum: nat, cause: Cause)

  /** A violator or the cause of runahead is itself squashed; a mispredicted branch stays. */
  predicate Inclusive(r: Request)
  {
    !r.cause.BranchMispredict?
  }

  /** The youngest instruction a request lets live. */
  function Point(r: Request): int
  {
    if Inclusive(r) then r.seqNum - 1 else r.seqNum
  }

  // ---- The wire to commit -----------------------------------------------------------------------

  function Arbitrate(pending: Option<Request>, r: Request): Option<Request>
  {
    match pending
    case None => Some(r)
    case Some(w) =>
      if r.seqNum < w.seqNum || (Inclusive(r) && r.seqNum == w.seqNum) then Some(r) else pending
  }

  function ArbitrateAll(pending: Option<Request>, rs: seq<Request>): (w: Option<Request>)
  {
    if rs == [] then pending else Arbitrate(ArbitrateAll(pending, rs[..|rs| - 1]), rs[|rs| - 1])
  }

  /** The reference: `w` was requested, and squashes at least as much as any request. */
  ghost predicate Wins(w: Request, rs: seq<Request>)
  {
    && w in rs
    && (forall k | 0 <= k < |rs| :: w.seqNum <= rs[k].seqNum)
    && (forall k | 0 <= k < |rs| :: w.seqNum == rs[k].seqNum && Inclusive(rs[k]) ==> Inclusive(w))
  }

  /** One more request: the winner so far against it. */
  lemma WinsStep(w: Request, rs: seq<Request>, r: Request)
    requires Wins(w, rs)
    ensures Wins(Arbitrate(Some(w), r).value, rs + [r])
  {
  }

  lemma {:induction false} ArbitratedWins(rs: seq<Request>)
    requires rs != []
    ensures ArbitrateAll(None, rs).Some? && Wins(ArbitrateAll(None, rs).value, rs)
  {
    var init := rs[..|rs| - 1];
    assert rs == init + [rs[|rs| - 1]];
    if init == [] {
      assert ArbitrateAll(None, init) == None;
    } else {
      ArbitratedWins(init);
      WinsStep(ArbitrateAll(None, init).value, init, rs[|rs| - 1]);
    }
  }

  /** The pending squash point is the minimum requested, and somebody requested it. */
  lemma PendingPointIsMinimum(rs: seq<Request>, k: nat)
    requires k < |rs|
    ensures ArbitrateAll(None, rs).Some? && ArbitrateAll(None, rs).value in rs
    ensures Point(ArbitrateAll(None, rs).value) <= Point(rs[k])
  {
    ArbitratedWins(rs);
  }

  /** The order of the requests in a cycle does not change what is squashed. */
  lemma OrderDoesNotMatter(rs: seq<Request>, qs: seq<Request>)
    requires rs != [] && forall r :: r in rs <==> r in qs
    ensures ArbitrateAll(None, rs).Some? && ArbitrateAll(None, qs).Some?
    ensures var w, v := ArbitrateAll(None, rs).value, ArbitrateAll(None, qs).value;
            w.seqNum == v.seqNum && Inclusive(w) == Inclusive(v) && Point(w) == Point(v)
  {
    assert rs[0] in qs;
    ArbitratedWins(rs);
    ArbitratedWins(qs);
    var w, v := ArbitrateAll(None, rs).value, ArbitrateAll(None, qs).value;
    assert w in qs && v in rs;
  }

  // ---- One cycle of execution -------------------------------------------------------------------

  /** An instruction taken from the issue queue; `conflict` is the load its own dependence check found, if any. */
  datatype Exec = Exec(seqNum: nat, squashed: bool, memRef: bool, load: bool, executed: bool, poisoned: bool,
                       wrongTarget: bool, conflict: Option<nat>)

  datatype Iew = Iew(pending: Option<Request>, fetchRedirect: bool, violator: Option<nat>)

  predicate ExecOk(x: Exec)
  {
    x.conflict.Some? ==> x.memRef && x.seqNum < x.conflict.value
  }

  predicate Mispredicts(x: Exec)
  {
    x.wrongTarget && !(x.load && !x.executed) && !x.poisoned
  }

  /** The load queue keeps the oldest violator until someone takes it. */
  function Detected(v: Option<nat>, x: Exec): Option<nat>
  {
    if x.conflict.Some? && (v.None? || x.conflict.value < v.value) then x.conflict else v
  }

  predicate MayRedirect(s: Iew, x: Exec)
  {
    !s.fetchRedirect || s.pending.None? || x.seqNum < s.pending.value.seqNum
  }

  function Execute(s: Iew, x: Exec): Iew
  {
    var v := Detected(s.violator, x);
    if x.squashed then s
    else if !MayRedirect(s, x) then s.(violator := None)
    else if Mispredicts(x) then Iew(Arbitrate(s.pending, Request(x.seqNum, BranchMispredict)), true, v)
    else if v.Some? then Iew(Arbitrate(s.pending, Request(v.value, MemoryOrder)), true, None)
    else s
  }

  /** The source asserts that an instruction at which a violation is seen accesses memory. */
  predicate AssertHolds(s: Iew, x: Exec)
  {
    !x.squashed && Detected(s.violator, x).Some? && !(MayRedirect(s, x) && Mispredicts(x)) ==> x.memRef
  }

  function ExecuteAll(s: Iew, xs: seq<Exec>): Iew
  {
    if xs == [] then s else Execute(ExecuteAll(s, xs[..|xs| - 1]), xs[|xs| - 1])
  }

  /** Everything one instruction could ask for, were nothing discarded. */
  function Demands(x: Exec): seq<Request>
  {
    if x.squashed then []
    else (if Mispredicts(x) then [Request(x.seqNum, BranchMispredict)] else [])
         + (if x.conflict.Some? then [Request(x.conflict.value, MemoryOrder)] else [])
  }

  function AllDemands(pending: Option<Request>, xs: seq<Exec>): seq<Request>
  {
    if xs == [] then (if pending.Some? then [pending.value] else [])
    else AllDemands(pending, xs[..|xs| - 1]) + Demands(xs[|xs| - 1])
  }

  /**
   * What the cycle so far amounts to, if it began with the violator `c` recorded: the pending squash reaches at least as
   * far back as any demand, and was demanded itself or is that of `c`; another violator left behind lies above it.
   */
  ghost predicate Settled(c: Option<nat>, s: Iew, rs: seq<Request>)
  {
    && (forall r | r in rs :: s.pending.Some? && Point(s.pending.value) <= Point(r))
    && (s.pending.Some? ==> s.pending.value in rs || (c.Some? && s.pending.value == Request(c.value, MemoryOrder)))
    && (s.violator.Some? && s.violator != c ==>
          s.pending.Some? && s.pending.value.seqNum < s.violator.value && s.fetchRedirect)
  }

  /** One more request never moves the squash point up, and moves it at least to its own. */
  lemma ArbitrateMovesDown(pending: Option<Request>, r: Request)
    ensures Arbitrate(pending, r).Some? && Point(Arbitrate(pending, r).value) <= Point(r)
    ensures pending.Some? ==> Point(Arbitrate(pending, r).value) <= Point(pending.value)
    ensures Arbitrate(pending, r) == pending || Arbitrate(pending, r) == Some(r)
  {
  }

  lemma BranchSettles(c: Option<nat>, s: Iew, rs: seq<Request>, x: Exec)
    requires Settled(c, s, rs) && ExecOk(x) && !x.squashed && MayRedirect(s, x) && Mispredicts(x)
    ensures Settled(c, Execute(s, x), rs + Demands(x))
  {
    ArbitrateMovesDown(s.pending, Request(x.seqNum, BranchMispredict));
    assert Demands(x)[0] == Request(x.seqNum, BranchMispredict);
  }

  lemma ExecuteSettles(c: Option<nat>, s: Iew, rs: seq<Request>, x: Exec)
    requires Settled(c, s, rs) && ExecOk(x)
    ensures Settled(c, Execute(s, x), rs + Demands(x))
  {
    var v := Detected(s.violator, x);
    if !x.squashed && MayRedirect(s, x) && Mispredicts(x) {
      BranchSettles(c, s, rs, x);
    } else if !x.squashed && MayRedirect(s, x) && v.Some? {
      ArbitrateMovesDown(s.pending, Request(v.value, MemoryOrder));
      assert x.conflict.Some? ==> Demands(x)[0] == Request(x.conflict.value, MemoryOrder);
    }
  }

  lemma {:induction false} ExecuteAllSettles(s: Iew, xs: seq<Exec>)
    requires forall k | 0 <= k < |xs| :: ExecOk(xs[k])
    ensures Settled(s.violator, ExecuteAll(s, xs), AllDemands(s.pending, xs))
  {
    if xs != [] {
      ExecuteAllSettles(s, xs[..|xs| - 1]);
      ExecuteSettles(s.violator, ExecuteAll(s, xs[..|xs| - 1]), AllDemands(s.pending, xs[..|xs| - 1]), xs[|xs| - 1]);
    }
  }

  /**
   * Discarding is free, from any state: what is pending after a cycle squashes at least what every misprediction and
   * every violation of the cycle asked for, handled or not; and it was asked for in the cycle, or by the violator that
   * an earlier cycle left behind.
   */
  lemma NothingLost(s: Iew, xs: seq<Exec>)
    requires forall k | 0 <= k < |xs| :: ExecOk(xs[k])
    ensures var rs, p := AllDemands(s.pending, xs), ExecuteAll(s, xs).pending;
            && (forall r | r in rs :: p.Some? && Point(p.value) <= Point(r))
            && (p.Some? ==> p.value in rs || (s.violator.Some? && p.value == Request(s.violator.value, MemoryOrder)))
  {
    ExecuteAllSettles(s, xs);
  }

  /** The same for a cycle that began with no violator: the pending request is exactly the winner of all demands. */
  ghost predicate Exact(s: Iew, rs: seq<Request>)
  {
    && (s.pending.None? ==> rs == [])
    && (s.pending.Some? ==> Wins(s.pending.value, rs))
    && (s.violator.Some? ==> s.pending.Some? && s.pending.value.seqNum < s.violator.value && s.fetchRedirect)
  }

  lemma BranchExact(s: Iew, rs: seq<Request>, x: Exec)
    requires Exact(s, rs) && ExecOk(x) && !x.squashed && MayRedirect(s, x) && Mispredicts(x)
    ensures Exact(Execute(s, x), rs + Demands(x))
  {
    var b := Request(x.seqNum, BranchMispredict);
    var w := Execute(s, x).pending.value;
    if s.pending.Some? {
      WinsStep(s.pending.value, rs, b);
    }
    assert Wins(w, rs + [b]);
    if x.conflict.Some? {
      assert rs + Demands(x) == (rs + [b]) + [Request(x.conflict.value, MemoryOrder)];
      WinsStep(w, rs + [b], Request(x.conflict.value, MemoryOrder));
    } else {
      assert rs + Demands(x) == rs + [b];
    }
  }

  lemma ExecuteExact(s: Iew, rs: seq<Request>, x: Exec)
    requires Exact(s, rs) && ExecOk(x)
    ensures Exact(Execute(s, x), rs + Demands(x))
  {
    var v := Detected(s.violator, x);
    if x.squashed {
      assert rs + Demands(x) == rs;
    } else if !MayRedirect(s, x) {
      assert forall r | r in Demands(x) :: s.pending.value.seqNum <= r.seqNum;
      assert forall r | r in Demands(x) && Inclusive(r) :: s.pending.value.seqNum < r.seqNum;
    } else if Mispredicts(x) {
      BranchExact(s, rs, x);
    } else if v.Some? {
      var m := Request(v.value, MemoryOrder);
      var w := Execute(s, x).pending.value;
      if s.pending.Some? {
        WinsStep(s.pending.value, rs, m);
      }
      if x.conflict.Some? {
        assert Demands(x) == [Request(x.conflict.value, MemoryOrder)];
      } else {
        assert rs + Demands(x) == rs;
      }
    } else {
      assert rs + Demands(x) == rs;
    }
  }

  lemma {:induction false} ExecuteAllExact(s: Iew, xs: seq<Exec>)
    requires s.violator.None? && forall k | 0 <= k < |xs| :: ExecOk(xs[k])
    ensures Exact(ExecuteAll(s, xs), AllDemands(s.pending, xs))
  {
    if xs != [] {
      ExecuteAllExact(s, xs[..|xs| - 1]);
      ExecuteExact(ExecuteAll(s, xs[..|xs| - 1]), AllDemands(s.pending, xs[..|xs| - 1]), xs[|xs| - 1]);
    }
  }

  /** A cycle that begins with no violator on record arbitrates as if nothing had been discarded. */
  lemma FreshCycleIsExact(s: Iew, xs: seq<Exec>)
    requires s.violator.None? && forall k | 0 <= k < |xs| :: ExecOk(xs[k])
    ensures var rs, p := AllDemands(s.pending, xs), ExecuteAll(s, xs).pending;
            && p.None? == (rs == []) == ArbitrateAll(None, rs).None?
            && (p.Some? ==> Wins(p.value, rs)
                            && p.value.seqNum == ArbitrateAll(None, rs).value.seqNum
                            && Point(p.value) == Point(ArbitrateAll(None, rs).value))
  {
    ExecuteAllExact(s, xs);
    var rs := AllDemands(s.pending, xs);
    if rs != [] {
      ArbitratedWins(rs);
    }
  }

  // ---- Which instructions redirect --------------------------------------------------------------

  /**
   * A branch request raised in a cycle is that of a live, unpoisoned instruction with a wrong target that is no
   * unexecuted load.
   */
  lemma {:induction false} BranchRequestHasCause(s: Iew, xs: seq<Exec>)
    ensures var p := ExecuteAll(s, xs).pending;
            p.Some? && p != s.pending && p.value.cause.BranchMispredict? ==>
              exists k :: && 0 <= k < |xs| && xs[k].seqNum == p.value.seqNum
                          && !xs[k].squashed && xs[k].wrongTarget && !xs[k].poisoned && (xs[k].load ==> xs[k].executed)
  {
    if xs != [] {
      var last := |xs| - 1;
      BranchRequestHasCause(s, xs[..last]);
      var x := xs[last];
      if ExecuteAll(s, xs).pending == ExecuteAll(s, xs[..last]).pending {
        assert forall k | 0 <= k < last :: xs[..last][k] == xs[k];
      }
    }
  }

  /** The same for one instruction, with what raises the flag that fetch is redirected. */
  lemma ExecuteRaises(s: Iew, x: Exec)
    ensures var t := Execute(s, x);
            var branch := !x.squashed && x.wrongTarget && !x.poisoned && (x.load ==> x.executed);
            && (t.pending.Some? && t.pending != s.pending && t.pending.value.cause.BranchMispredict? ==>
                  branch && t.pending.value.seqNum == x.seqNum)
            && (branch && (s.pending.None? || x.seqNum < s.pending.value.seqNum) ==>
                  t.pending == Some(Request(x.seqNum, BranchMispredict)) && t.fetchRedirect)
            && (t.fetchRedirect && !s.fetchRedirect ==>
                  !x.squashed && t.pending.Some? && (branch || s.violator.Some? || x.conflict.Some?))
  {
  }

  /** Every such instruction raises one, unless an older request is pending; what is pending in the end is no younger. */
  lemma WrongTargetRedirects(s: Iew, xs: seq<Exec>, k: nat)
    requires k < |xs|
    requires !xs[k].squashed && xs[k].wrongTarget && !xs[k].poisoned && (xs[k].load ==> xs[k].executed)
    ensures var before, after := ExecuteAll(s, xs[..k]).pending, ExecuteAll(s, xs[..k + 1]);
            before.None? || before.value.seqNum > xs[k].seqNum ==>
              after.pending == Some(Request(xs[k].seqNum, BranchMispredict)) && after.fetchRedirect
    ensures ExecuteAll(s, xs).pending.Some? && ExecuteAll(s, xs).pending.value.seqNum <= xs[k].seqNum
  {
    ExecuteAllStep(s, xs, k);
    assert xs[..|xs|] == xs;
    PendingMovesDown(s, xs, k + 1, |xs|);
  }

  lemma {:induction false} PendingMovesDown(s: Iew, xs: seq<Exec>, i: nat, k: nat)
    requires i <= k <= |xs| && ExecuteAll(s, xs[..i]).pending.Some?
    ensures var p := ExecuteAll(s, xs[..k]).pending;
            p.Some? && p.value.seqNum <= ExecuteAll(s, xs[..i]).pending.value.seqNum
  {
    if i < k {
      PendingMovesDown(s, xs, i, k - 1);
      ExecuteAllStep(s, xs, k - 1);
    }
  }

  // ---- The assert on memory references ----------------------------------------------------------

  /** The assert is safe for every next instruction exactly when no violator was left behind. */
  lemma AssertSafeIffNoneLeft(s: Iew)
    ensures (forall x | ExecOk(x) :: AssertHolds(s, x)) <==> s.violator.None?
  {
    if s.violator.Some? {
      var x := Exec(0, false, false, false, true, false, false, None);
      assert ExecOk(x) && !AssertHolds(s, x);
    }
  }

  /** A violator is left behind exactly by an access that is redirected as a branch while a violation is known. */
  lemma LeftBehindExactly(s: Iew, x: Exec)
    requires s.violator.None?
    ensures Execute(s, x).violator.Some? <==>
              !x.squashed && x.conflict.Some? && Mispredicts(x) && MayRedirect(s, x)
  {
  }

  /** The `k`-th instruction of the cycle redirects as a mispredicted branch. */
  predicate RedirectsAt(s: Iew, xs: seq<Exec>, k: nat)
    requires k < |xs|
  {
    !xs[k].squashed && MayRedirect(ExecuteAll(s, xs[..k]), xs[k]) && Mispredicts(xs[k])
  }

  /** From `i` up to `k` nothing takes a recorded violator: each instruction is squashed or redirects as a branch. */
  predicate Quiet(s: Iew, xs: seq<Exec>, i: nat, k: nat)
    requires k <= |xs|
  {
    forall j | i <= j < k :: xs[j].squashed || RedirectsAt(s, xs, j)
  }

  /** A violator is on record before instruction `k`: brought along, or left by a redirecting branch that violates. */
  predicate LeftBefore(s: Iew, xs: seq<Exec>, k: nat)
    requires k <= |xs|
  {
    || (s.violator.Some? && Quiet(s, xs, 0, k))
    || (exists i :: 0 <= i < k && RedirectsAt(s, xs, i) && xs[i].conflict.Some? && Quiet(s, xs, i + 1, k))
  }

  lemma ExecuteAllStep(s: Iew, xs: seq<Exec>, k: nat)
    requires k < |xs|
    ensures ExecuteAll(s, xs[..k + 1]) == Execute(ExecuteAll(s, xs[..k]), xs[k])
  {
    assert xs[..k + 1][..k] == xs[..k];
  }

  lemma {:induction false} RecordedIffLeft(s: Iew, xs: seq<Exec>, k: nat)
    requires k <= |xs|
    ensures ExecuteAll(s, xs[..k]).violator.Some? <==> LeftBefore(s, xs, k)
  {
    if k > 0 {
      RecordedIffLeft(s, xs, k - 1);
      ExecuteAllStep(s, xs, k - 1);
      LeftStep(s, xs, k - 1);
    }
  }

  lemma LeftStep(s: Iew, xs: seq<Exec>, k: nat)
    requires k < |xs|
    ensures LeftBefore(s, xs, k + 1) <==>
              || (LeftBefore(s, xs, k) && (xs[k].squashed || RedirectsAt(s, xs, k)))
              || (RedirectsAt(s, xs, k) && xs[k].conflict.Some?)
  {
    hide RedirectsAt;
    if RedirectsAt(s, xs, k) && xs[k].conflict.Some? {
      assert Quiet(s, xs, k + 1, k + 1);
    }
    if LeftBefore(s, xs, k) && (xs[k].squashed || RedirectsAt(s, xs, k)) && !(s.violator.Some? && Quiet(s, xs, 0, k)) {
      var i :| 0 <= i < k && RedirectsAt(s, xs, i) && xs[i].conflict.Some? && Quiet(s, xs, i + 1, k);
      assert Quiet(s, xs, i + 1, k + 1);
    }
  }

  /**
   * From any state, the asserts of a cycle all hold if and only if no live instruction that neither accesses memory nor
   * redirects comes after a redirecting branch that violates (or after the start, with a violator brought along) with
   * nothing but squashed instructions and redirecting branches in between.
   */
  lemma AssertsHoldIff(s: Iew, xs: seq<Exec>)
    requires forall k | 0 <= k < |xs| :: ExecOk(xs[k])
    ensures (forall k | 0 <= k < |xs| :: AssertHolds(ExecuteAll(s, xs[..k]), xs[k])) <==>
            (forall k | 0 <= k < |xs| && LeftBefore(s, xs, k) ::
               xs[k].squashed || xs[k].memRef || RedirectsAt(s, xs, k))
  {
    forall k | 0 <= k < |xs|
      ensures AssertHolds(ExecuteAll(s, xs[..k]), xs[k]) <==>
                (LeftBefore(s, xs, k) ==> xs[k].squashed || xs[k].memRef || RedirectsAt(s, xs, k))
    {
      RecordedIffLeft(s, xs, k);
    }
  }

  const IDLE := Iew(None, false, None)

  /** A store that conflicts with load 5 and whose next address was predicted wrong; an addition older than it. */
  const BAD_STORE := Exec(4, false, true, false, true, false, true, Some(5))

  const ADDITION := Exec(3, false, false, false, true, false, false, None)

  /** The assert does fail: the store redirects as a branch, its violator stays, and the addition meets it. */
  lemma AssertCanFail()
    ensures var xs := [BAD_STORE, ADDITION];
            && ExecOk(xs[0]) && ExecOk(xs[1]) && ExecuteAll(IDLE, xs[..1]).violator == Some(5)
            && !AssertHolds(ExecuteAll(IDLE, xs[..1]), xs[1])
  {
    var xs := [BAD_STORE, ADDITION];
    assert ExecuteAll(IDLE, xs[..0]) == IDLE;
    ExecuteAllStep(IDLE, xs, 0);
  }

  // ---- Cycle after cycle ------------------------------------------------------------------------

  /** Issue/execute between cycles, with the squashes it has asked for that have not reached the load queue yet. */
  datatype Flow = Flow(violator: Option<nat>, inFlight: set<Request>)

  /** A cycle of execution, or a squash down to `point` that reaches the load queue. */
  datatype Round = RunCycle(xs: seq<Exec>) | Land(point: int)

  predicate RoundOk(e: Round)
  {
    e.RunCycle? ==> forall k | 0 <= k < |e.xs| :: ExecOk(e.xs[k])
  }

  /** A cycle begins with an empty wire and whatever violator was left. */
  function Begin(f: Flow): Iew
  {
    Iew(None, false, f.violator)
  }

  function NextRound(f: Flow, e: Round): Flow
  {
    match e
    case RunCycle(xs) =>
      var s := ExecuteAll(Begin(f), xs);
      Flow(s.violator, f.inFlight + if s.pending.Some? then {s.pending.value} else {})
    case Land(point) =>
      Flow(if f.violator.Some? && point < f.violator.value then None else f.violator,
           set r | r in f.inFlight && Point(r) < point)
  }

  function AfterRounds(f: Flow, es: seq<Round>): Flow
  {
    if es == [] then f else NextRound(AfterRounds(f, es[..|es| - 1]), es[|es| - 1])
  }

  /** Some squash that is on its way removes load `v` and everything after it. */
  predicate Removed(inFlight: set<Request>, v: nat)
  {
    exists r :: r in inFlight && r.seqNum < v && Point(r) <= Point(Request(v, MemoryOrder))
  }

  predicate LeftIsRemoved(f: Flow)
  {
    f.violator.Some? ==> Removed(f.inFlight, f.violator.value)
  }

  lemma RoundKeepsRemoved(f: Flow, e: Round)
    requires LeftIsRemoved(f) && RoundOk(e)
    ensures LeftIsRemoved(NextRound(f, e))
  {
    var g := NextRound(f, e);
    if f.violator.Some? {
      var r :| r in f.inFlight && r.seqNum < f.violator.value;
      assert g.violator == f.violator ==> r in g.inFlight;
    }
    if e.RunCycle? {
      ExecuteAllSettles(Begin(f), e.xs);
      var s := ExecuteAll(Begin(f), e.xs);
      assert s.violator.Some? && s.violator != f.violator ==> s.pending.value in g.inFlight;
    }
  }

  /** Over any sequence of cycles and squashes, a violator left behind is above a squash that is still on its way. */
  lemma {:induction false} LeftIsAlwaysRemoved(f: Flow, es: seq<Round>)
    requires LeftIsRemoved(f) && forall k | 0 <= k < |es| :: RoundOk(es[k])
    ensures LeftIsRemoved(AfterRounds(f, es))
  {
    if es != [] {
      LeftIsAlwaysRemoved(f, es[..|es| - 1]);
      RoundKeepsRemoved(AfterRounds(f, es[..|es| - 1]), es[|es| - 1]);
    }
  }

  const QUIET_START := Flow(None, {})

  /**
   * So whatever went before, a cycle's request covers all its demands, and if nobody demanded it in this cycle it removes
   * nothing that a squash on its way does not remove already.
   */
  lemma EveryCycleCovers(es: seq<Round>, xs: seq<Exec>)
    requires (forall k | 0 <= k < |es| :: RoundOk(es[k])) && RoundOk(RunCycle(xs))
    ensures var f := AfterRounds(QUIET_START, es);
            var rs, p := AllDemands(None, xs), ExecuteAll(Begin(f), xs).pending;
            && (forall r | r in rs :: p.Some? && Point(p.value) <= Point(r))
            && (p.Some? && p.value !in rs ==> exists r :: r in f.inFlight && Point(r) <= Point(p.value))
  {
    var f := AfterRounds(QUIET_START, es);
    LeftIsAlwaysRemoved(QUIET_START, es);
    NothingLost(Begin(f), xs);
  }

  lemma RemovedBy(inFlight: set<Request>, r: Request, v: nat)
    requires r in inFlight && r.seqNum < v
    ensures Removed(inFlight, v)
  {
  }

  lemma RemovedWithMore(inFlight: set<Request>, r: Request, v: nat)
    requires Removed(inFlight, v)
    ensures Removed(inFlight + {r}, v)
  {
    var q :| q in inFlight && q.seqNum < v;
    RemovedBy(inFlight + {r}, q, v);
  }

  /** An instruction that discards a violation, or redirects while one is known, finds or leaves a squash below it. */
  lemma DiscardedAbove(c: Option<nat>, s: Iew, rs: seq<Request>, x: Exec)
    requires Settled(c, s, rs) && ExecOk(x) && !x.squashed && Detected(s.violator, x).Some?
    requires !MayRedirect(s, x) || Mispredicts(x)
    ensures Execute(s, x).pending.Some?
    ensures Detected(s.violator, x) == c || Execute(s, x).pending.value.seqNum < Detected(s.violator, x).value
  {
    if MayRedirect(s, x) {
      assert Execute(s, x).pending == Arbitrate(s.pending, Request(x.seqNum, BranchMispredict));
    }
  }

  /** A violation that is discarded, or left behind by a mispredicted access, lies above a squash that is on its way. */
  lemma DiscardedAreYounger(es: seq<Round>, xs: seq<Exec>, k: nat)
    requires (forall i | 0 <= i < |es| :: RoundOk(es[i])) && RoundOk(RunCycle(xs)) && k < |xs| && !xs[k].squashed
    requires var s := ExecuteAll(Begin(AfterRounds(QUIET_START, es)), xs[..k]);
             Detected(s.violator, xs[k]).Some? && (!MayRedirect(s, xs[k]) || Mispredicts(xs[k]))
    ensures var f := AfterRounds(QUIET_START, es);
            var s := ExecuteAll(Begin(f), xs[..k]);
            var t := Execute(s, xs[k]);
            t.pending.Some? && Removed(f.inFlight + {t.pending.value}, Detected(s.violator, xs[k]).value)
  {
    var f := AfterRounds(QUIET_START, es);
    var s, x := ExecuteAll(Begin(f), xs[..k]), xs[k];
    var v := Detected(s.violator, x);
    assert ExecOk(x) && forall i | 0 <= i < k :: ExecOk(xs[..k][i]);
    hide ExecuteAll, Execute, AfterRounds, Settled, Detected, MayRedirect, Mispredicts, ExecOk, Removed, AllDemands;
    LeftIsAlwaysRemoved(QUIET_START, es);
    ExecuteAllSettles(Begin(f), xs[..k]);
    DiscardedAbove(f.violator, s, AllDemands(None, xs[..k]), x);
    var p := Execute(s, x).pending.value;
    if v == f.violator {
      RemovedWithMore(f.inFlight, p, v.value);
    } else {
      RemovedBy(f.inFlight + {p}, p, v.value);
    }
  }

  // ---- The stage --------------------------------------------------------------------------------

  /** The part of issue/execute that raises squashes: this cycle's wire to commit, and what the load queue noticed. */
  class IewStage {
    var squash: bool
    var squashedSeqNum: nat
    var includeSquashInst: bool
    var mispredictInst: Option<nat>
    var runaheadInst: Option<nat>
    var fetchRedirect: bool
    var memDepViolator: Option<nat>

    ghost predicate Valid()
      reads this
    {
      squash ==>
        && includeSquashInst == mispredictInst.None?
        && (mispredictInst.Some? ==> mispredictInst.value == squashedSeqNum && runaheadInst.None?)
        && (runaheadInst.Some? ==> runaheadInst.value == squashedSeqNum)
    }

    function Pending(): Option<Request>
      reads this
    {
      if !squash then None
      else Some(Request(squashedSeqNum, if mispredictInst.Some? then BranchMispredict
                                        else if runaheadInst.Some? then RunaheadEnd else MemoryOrder))
    }

    function View(): Iew
      reads this
    {
      Iew(Pending(), fetchRedirect, memDepViolator)
    }

    method SquashDueToBranch(inst: nat)
      requires Valid()
      modifies `squash, `squashedSeqNum, `includeSquashInst, `mispredictInst, `runaheadInst
      ensures Valid() && Pending() == Arbitrate(old(Pending()), Request(inst, BranchMispredict))
    {
      if !squash || inst < squashedSeqNum {
        squash := true;
        squashedSeqNum := inst;
        mispredictInst := Some(inst);
        runaheadInst := None;
        includeSquashInst := false;
      }
    }

    method SquashDueToMemOrder(inst: nat)
      requires Valid()
      modifies `squash, `squashedSeqNum, `includeSquashInst, `mispredictInst, `runaheadInst
      ensures Valid()
      ensures Pending().Some? && Arbitrate(old(Pending()), Request(inst, MemoryOrder)).Some?
      ensures Pending() == Arbitrate(old(Pending()), Request(inst, MemoryOrder))
    {
      if !squash || inst <= squashedSeqNum {
        squash := true;
        squashedSeqNum := inst;
        mispredictInst := None;
        runaheadInst := None;
        includeSquashInst := true;
      }
    }

    method SquashDueToRunahead(inst: nat)
      requires Valid()
      modifies `squash, `squashedSeqNum, `includeSquashInst, `mispredictInst, `runaheadInst
      ensures Valid() && Pending() == Arbitrate(old(Pending()), Request(inst, RunaheadEnd))
    {
      if !squash || inst <= squashedSeqNum {
        squash := true;
        squashedSeqNum := inst;
        includeSquashInst := true;
        mispredictInst := None;
        runaheadInst := Some(inst);
      }
    }

    /** One instruction, from its dependence check to the redirect decision; the assert is the source's. */
    method ExecuteOne(x: Exec)
      requires Valid() && AssertHolds(View(), x)
      modifies this
      ensures Valid() && View() == Execute(old(View()), x)
      ensures squash && mispredictInst.Some? && !(old(squash) && mispredictInst == old(mispredictInst)) ==>
                && mispredictInst.value == x.seqNum
                && !x.squashed && x.wrongTarget && !x.poisoned && (x.load ==> x.executed)
      ensures !x.squashed && x.wrongTarget && !x.poisoned && (x.load ==> x.executed)
              && (!old(squash) || x.seqNum < old(squashedSeqNum)) ==>
                squash && mispredictInst == Some(x.seqNum) && fetchRedirect
      ensures fetchRedirect && !old(fetchRedirect) ==>
                && !x.squashed && squash
                && ((x.wrongTarget && !x.poisoned && (x.load ==> x.executed))
                    || old(memDepViolator).Some? || x.conflict.Some?)
    {
      ExecuteRaises(View(), x);
      if x.squashed {
        return;
      }
      if x.conflict.Some? && (memDepViolator.None? || x.conflict.value < memDepViolator.value) {
        memDepViolator := x.conflict;
      }
      if !fetchRedirect || !squash || squashedSeqNum > x.seqNum {
        var loadNotExecuted := !x.executed && x.load;
        if x.wrongTarget && !loadNotExecuted && !x.poisoned {
          fetchRedirect := true;
          SquashDueToBranch(x.seqNum);
        } else if memDepViolator.Some? {
          assert x.memRef;
          var violator := memDepViolator.value;
          memDepViolator := None;
          fetchRedirect := true;
          SquashDueToMemOrder(violator);
        }
      } else if memDepViolator.Some? {
        assert x.memRef;
        memDepViolator := None;
      }
    }

    /** The instructions of a cycle, where the assert holds at each of them. */
    method ExecuteInsts(xs: seq<Exec>)
      requires Valid() && forall k | 0 <= k < |xs| :: ExecOk(xs[k])
      requires forall k | 0 <= k < |xs| :: AssertHolds(ExecuteAll(View().(fetchRedirect := false), xs[..k]), xs[k])
      modifies this
      ensures Valid() && View() == ExecuteAll(old(View()).(fetchRedirect := false), xs)
    {
      ghost var s := View().(fetchRedirect := false);
      fetchRedirect := false;
      for i := 0 to |xs|
        invariant Valid() && View() == ExecuteAll(s, xs[..i])
      {
        var x := xs[i];
        assert AssertHolds(ExecuteAll(s, xs[..i]), x);
        assert xs[..i + 1][..i] == xs[..i] && xs[..i + 1][i] == x;
        ExecuteOne(x);
      }
      assert xs[..|xs|] == xs;
    }
  }
}
