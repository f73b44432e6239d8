/** Register poison in runahead: what it may depend on, and that issue order does not matter. */
module Poison {
  import opened Prelude

  /** A register-only runahead instruction after renaming; `nonSpec` ones are never executed in runahead. */
  datatype Inst = Inst(op: nat, srcs: seq<nat>, dests: seq<nat>, nonSpec: bool)

  datatype Status = Waiting | Issued(poisoned: bool) | Executed(poisoned: bool) | Done(poisoned: bool)

  datatype Regs = Regs(file: seq<int>, poison: seq<bool>)

  datatype State = State(regs: Regs, status: seq<Status>)

  /** What an operation computes for its k-th destination from the values of its sources. */
  type Semantics = (nat, nat, seq<int>) -> int

  predicate RegsOk(g: Regs, n: nat)
  {
    |g.file| == |g.poison| == n
  }

  predicate InstOk(x: Inst, n: nat)
  {
    && (forall k | 0 <= k < |x.srcs| :: x.srcs[k] < n) && (forall k | 0 <= k < |x.dests| :: x.dests[k] < n)
    && (forall k, l | 0 <= k < l < |x.dests| :: x.dests[k] != x.dests[l])
  }

  /** What renaming guarantees: every register is written at most once, and never read by an older instruction. */
  predicate Window(prog: seq<Inst>, n: nat)
  {
    && (forall i | 0 <= i < |prog| :: InstOk(prog[i], n))
    && (forall i, j, k | 0 <= i < j < |prog| && 0 <= k < |prog[j].dests| :: prog[j].dests[k] !in prog[i].dests)
    && (forall i, j, k | 0 <= i <= j < |prog| && 0 <= k < |prog[j].dests| :: prog[j].dests[k] !in prog[i].srcs)
  }

  // ---- The simple form: one instruction after the other -----------------------------------------

  predicate AnyPoisoned(g: Regs, srcs: seq<nat>)
    requires RegsOk(g, |g.file|) && forall k | 0 <= k < |srcs| :: srcs[k] < |g.file|
  {
    exists k :: 0 <= k < |srcs| && g.poison[srcs[k]]
  }

  function Values(g: Regs, srcs: seq<nat>): seq<int>
    requires forall k | 0 <= k < |srcs| :: srcs[k] < |g.file|
  {
    seq(|srcs|, k requires 0 <= k < |srcs| => g.file[srcs[k]])
  }

  /** Results for the first `m` destinations, from sources read before any was written. */
  function WriteDests(file: seq<int>, x: Inst, sem: Semantics, args: seq<int>, m: nat): (r: seq<int>)
    requires m <= |x.dests| && forall k | 0 <= k < |x.dests| :: x.dests[k] < |file|
    ensures |r| == |file|
  {
    if m == 0 then file
    else WriteDests(file, x, sem, args, m - 1)[x.dests[m - 1] := sem(x.op, m - 1, args)]
  }

  function SetPoison(poison: seq<bool>, dests: seq<nat>, p: bool, m: nat): (r: seq<bool>)
    requires m <= |dests| && forall k | 0 <= k < |dests| :: dests[k] < |poison|
    ensures |r| == |poison|
  {
    if m == 0 then poison else SetPoison(poison, dests, p, m - 1)[dests[m - 1] := p]
  }

  /** The first `k` instructions in program order. */
  function InOrder(prog: seq<Inst>, g: Regs, sem: Semantics, k: nat): (r: Regs)
    requires RegsOk(g, |g.file|) && Window(prog, |g.file|) && k <= |prog|
    ensures RegsOk(r, |g.file|)
  {
    if k == 0 then g
    else
      var h := InOrder(prog, g, sem, k - 1);
      var x := prog[k - 1];
      var p := x.nonSpec || AnyPoisoned(h, x.srcs);
      Regs(if p then h.file else WriteDests(h.file, x, sem, Values(h, x.srcs), |x.dests|),
           SetPoison(h.poison, x.dests, p, |x.dests|))
  }

  // ---- The real form: any schedule --------------------------------------------------------------

  datatype Event = IssueInst(i: nat) | ExecuteInst(i: nat) | WritebackInst(i: nat)

  predicate StateOk(prog: seq<Inst>, s: State, n: nat)
  {
    RegsOk(s.regs, n) && Window(prog, n) && |s.status| == |prog|
  }

  /** Every older instruction that writes one of the sources has written back. */
  predicate SourcesReady(prog: seq<Inst>, s: State, i: nat)
    requires i < |prog| == |s.status|
  {
    forall j, k | 0 <= j < i && 0 <= k < |prog[i].srcs| && prog[i].srcs[k] in prog[j].dests :: s.status[j].Done?
  }

  predicate Guard(prog: seq<Inst>, s: State, e: Event)
    requires |s.status| == |prog|
  {
    && e.i < |prog|
    && match e
       case IssueInst(i) => s.status[i].Waiting? && SourcesReady(prog, s, i)
       case ExecuteInst(i) => s.status[i].Issued?
       case WritebackInst(i) => s.status[i].Executed?
  }

  /**
   * At issue an instruction is poisoned if a source is. A poisoned instruction is not executed. At write-back its
   * destinations are poisoned, or cured if it was valid.
   */
  function Next(prog: seq<Inst>, s: State, sem: Semantics, e: Event): (v: State)
    requires StateOk(prog, s, |s.regs.file|) && Guard(prog, s, e)
    ensures StateOk(prog, v, |s.regs.file|)
  {
    var x := prog[e.i];
    match e
    case IssueInst(i) => s.(status := s.status[i := Issued(AnyPoisoned(s.regs, x.srcs))])
    case ExecuteInst(i) =>
      var p := s.status[i].poisoned || x.nonSpec;
      s.(status := s.status[i := Executed(p)],
         regs := if p then s.regs
                 else s.regs.(file := WriteDests(s.regs.file, x, sem, Values(s.regs, x.srcs), |x.dests|)))
    case WritebackInst(i) =>
      var p := s.status[i].poisoned;
      s.(status := s.status[i := Done(p)],
         regs := s.regs.(poison := SetPoison(s.regs.poison, x.dests, p, |x.dests|)))
  }

  // ---- Reading and writing registers ------------------------------------------------------------

  lemma {:induction false} WriteDestsAt(file: seq<int>, x: Inst, sem: Semantics, args: seq<int>, m: nat, r: nat)
    requires m <= |x.dests| && InstOk(x, |file|) && r < |file|
    ensures r !in x.dests[..m] ==> WriteDests(file, x, sem, args, m)[r] == file[r]
    ensures forall k | 0 <= k < m :: WriteDests(file, x, sem, args, m)[x.dests[k]] == sem(x.op, k, args)
  {
    if m > 0 {
      WriteDestsAt(file, x, sem, args, m - 1, r);
      assert x.dests[..m] == x.dests[..m - 1] + [x.dests[m - 1]];
    }
  }

  lemma {:induction false} SetPoisonAt(poison: seq<bool>, dests: seq<nat>, p: bool, m: nat, r: nat)
    requires m <= |dests| && (forall k | 0 <= k < |dests| :: dests[k] < |poison|) && r < |poison|
    ensures SetPoison(poison, dests, p, m)[r] == if r in dests[..m] then p else poison[r]
  {
    if m > 0 {
      SetPoisonAt(poison, dests, p, m - 1, r);
      assert dests[..m] == dests[..m - 1] + [dests[m - 1]];
    }
  }

  /** The result of one instruction, register by register. */
  lemma InOrderStep(prog: seq<Inst>, g: Regs, sem: Semantics, k: nat, r: nat)
    requires RegsOk(g, |g.file|) && Window(prog, |g.file|) && k < |prog| && r < |g.file|
    ensures var h, f, x := InOrder(prog, g, sem, k), InOrder(prog, g, sem, k + 1), prog[k];
            && (r !in x.dests ==> f.file[r] == h.file[r] && f.poison[r] == h.poison[r])
            && (r in x.dests ==> f.poison[r] == (x.nonSpec || AnyPoisoned(h, x.srcs)))
            && (r in x.dests && f.poison[r] ==> f.file[r] == h.file[r])
  {
    var h, x := InOrder(prog, g, sem, k), prog[k];
    var p := x.nonSpec || AnyPoisoned(h, x.srcs);
    assert InstOk(x, |g.file|);
    assert x.dests[..|x.dests|] == x.dests;
    WriteDestsAt(h.file, x, sem, Values(h, x.srcs), |x.dests|, r);
    SetPoisonAt(h.poison, x.dests, p, |x.dests|, r);
  }

  /** A register keeps its value from the last instruction that may write it on. */
  lemma {:induction false} InOrderStays(prog: seq<Inst>, g: Regs, sem: Semantics, k: nat, m: nat, r: nat)
    requires RegsOk(g, |g.file|) && Window(prog, |g.file|) && k <= m <= |prog| && r < |g.file|
    requires forall j | k <= j < m :: r !in prog[j].dests
    ensures InOrder(prog, g, sem, m).file[r] == InOrder(prog, g, sem, k).file[r]
    ensures InOrder(prog, g, sem, m).poison[r] == InOrder(prog, g, sem, k).poison[r]
    decreases m - k
  {
    hide InOrder, Window;
    if k < m {
      InOrderStays(prog, g, sem, k, m - 1, r);
      InOrderStep(prog, g, sem, m - 1, r);
    }
  }

  // ---- What the simple form ends with -----------------------------------------------------------

  ghost predicate SameAt(a: Regs, b: Regs, r: nat)
    requires RegsOk(a, |a.file|) && RegsOk(b, |a.file|) && r < |a.file|
  {
    a.file[r] == b.file[r] && a.poison[r] == b.poison[r]
  }

  /** The flag an instruction gets when its sources hold what `f` says. */
  predicate Tainted(f: Regs, x: Inst)
    requires RegsOk(f, |f.file|) && InstOk(x, |f.file|)
  {
    x.nonSpec || AnyPoisoned(f, x.srcs)
  }

  /** Register file `f` is what instruction `x` leaves, judged only by `f` itself and the initial `g`. */
  ghost predicate Settled(g: Regs, f: Regs, x: Inst, sem: Semantics)
    requires RegsOk(g, |g.file|) && RegsOk(f, |g.file|) && InstOk(x, |g.file|)
  {
    && (forall k | 0 <= k < |x.dests| :: f.poison[x.dests[k]] == Tainted(f, x))
    && (Tainted(f, x) ==> forall k | 0 <= k < |x.dests| :: f.file[x.dests[k]] == g.file[x.dests[k]])
    && (!Tainted(f, x) ==>
          forall k | 0 <= k < |x.dests| :: f.file[x.dests[k]] == sem(x.op, k, Values(f, x.srcs)))
  }

  ghost predicate Unwritten(prog: seq<Inst>, r: nat)
  {
    forall j | 0 <= j < |prog| :: r !in prog[j].dests
  }

  /** Registers that agree on the sources give the same flag and the same arguments. */
  lemma SameSources(a: Regs, b: Regs, x: Inst)
    requires RegsOk(a, |a.file|) && RegsOk(b, |a.file|) && InstOk(x, |a.file|)
    requires forall k | 0 <= k < |x.srcs| :: SameAt(a, b, x.srcs[k])
    ensures AnyPoisoned(a, x.srcs) == AnyPoisoned(b, x.srcs) && Values(a, x.srcs) == Values(b, x.srcs)
  {
  }

  lemma SourceKeepsValue(prog: seq<Inst>, g: Regs, sem: Semantics, i: nat, k: nat)
    requires RegsOk(g, |g.file|) && Window(prog, |g.file|) && i < |prog| && k < |prog[i].srcs|
    ensures prog[i].srcs[k] < |g.file|
    ensures SameAt(InOrder(prog, g, sem, i), InOrder(prog, g, sem, |prog|), prog[i].srcs[k])
  {
    assert InstOk(prog[i], |g.file|);
    InOrderStays(prog, g, sem, i, |prog|, prog[i].srcs[k]);
  }

  lemma DestKeepsValue(prog: seq<Inst>, g: Regs, sem: Semantics, i: nat, k: nat)
    requires RegsOk(g, |g.file|) && Window(prog, |g.file|) && i < |prog| && k < |prog[i].dests|
    ensures var r := prog[i].dests[k];
            && r < |g.file| && SameAt(InOrder(prog, g, sem, i), g, r)
            && SameAt(InOrder(prog, g, sem, i + 1), InOrder(prog, g, sem, |prog|), r)
  {
    assert InstOk(prog[i], |g.file|);
    InOrderStays(prog, g, sem, 0, i, prog[i].dests[k]);
    InOrderStays(prog, g, sem, i + 1, |prog|, prog[i].dests[k]);
  }

  /** In-order execution settles every instruction: each is a fixed point of its own reading and writing. */
  lemma InOrderSettles(prog: seq<Inst>, g: Regs, sem: Semantics, i: nat)
    requires RegsOk(g, |g.file|) && Window(prog, |g.file|) && i < |prog|
    ensures InstOk(prog[i], |g.file|) && Settled(g, InOrder(prog, g, sem, |prog|), prog[i], sem)
  {
    var h, f, x := InOrder(prog, g, sem, i), InOrder(prog, g, sem, |prog|), prog[i];
    assert InstOk(x, |g.file|);
    forall k | 0 <= k < |x.srcs| ensures SameAt(h, f, x.srcs[k]) {
      SourceKeepsValue(prog, g, sem, i, k);
    }
    SameSources(h, f, x);
    forall k | 0 <= k < |x.dests|
      ensures f.poison[x.dests[k]] == Tainted(f, x)
      ensures f.file[x.dests[k]] == if Tainted(f, x) then g.file[x.dests[k]] else sem(x.op, k, Values(f, x.srcs))
    {
      DestKeepsValue(prog, g, sem, i, k);
      SetPoisonAt(h.poison, x.dests, Tainted(f, x), |x.dests|, x.dests[k]);
      WriteDestsAt(h.file, x, sem, Values(h, x.srcs), |x.dests|, x.dests[k]);
      assert x.dests[..|x.dests|] == x.dests;
    }
  }

  // ---- Any schedule against the simple form -----------------------------------------------------

  /** What the registers an instruction writes hold, from its status. */
  ghost predicate StatusFits(s: State, g: Regs, f: Regs, x: Inst, t: Status)
    requires RegsOk(g, |g.file|) && RegsOk(f, |g.file|) && RegsOk(s.regs, |g.file|) && InstOk(x, |g.file|)
  {
    && (t.Issued? ==> t.poisoned == AnyPoisoned(f, x.srcs))
    && (t.Executed? || t.Done? ==> t.poisoned == Tainted(f, x))
    && (forall k | 0 <= k < |x.dests| ::
          s.regs.file[x.dests[k]] == (if t.Executed? || t.Done? then f else g).file[x.dests[k]])
    && (forall k | 0 <= k < |x.dests| ::
          s.regs.poison[x.dests[k]] == (if t.Done? then f else g).poison[x.dests[k]])
  }

  ghost predicate Inv(prog: seq<Inst>, g: Regs, f: Regs, sem: Semantics, s: State)
  {
    && RegsOk(g, |g.file|) && RegsOk(f, |g.file|) && StateOk(prog, s, |g.file|)
    && (forall i | 0 <= i < |prog| :: InstOk(prog[i], |g.file|) && Settled(g, f, prog[i], sem))
    && (forall r | 0 <= r < |g.file| && Unwritten(prog, r) :: SameAt(s.regs, g, r) && SameAt(f, g, r))
    && (forall i | 0 <= i < |prog| :: StatusFits(s, g, f, prog[i], s.status[i]))
    && (forall i | 0 <= i < |prog| && !s.status[i].Waiting? :: SourcesReady(prog, s, i))
  }

  /** Once the writers of its sources are done, an instruction reads what it would read in order. */
  lemma ReadsFinalValues(prog: seq<Inst>, g: Regs, f: Regs, sem: Semantics, s: State, i: nat)
    requires Inv(prog, g, f, sem, s) && i < |prog| && SourcesReady(prog, s, i)
    ensures AnyPoisoned(s.regs, prog[i].srcs) == AnyPoisoned(f, prog[i].srcs)
    ensures Values(s.regs, prog[i].srcs) == Values(f, prog[i].srcs)
  {
    var x := prog[i];
    forall k | 0 <= k < |x.srcs| ensures SameAt(s.regs, f, x.srcs[k]) {
      if !Unwritten(prog, x.srcs[k]) {
        var j :| 0 <= j < |prog| && x.srcs[k] in prog[j].dests;
        var l :| 0 <= l < |prog[j].dests| && prog[j].dests[l] == x.srcs[k];
        assert j < i;
        assert s.status[j].Done?;
        assert StatusFits(s, g, f, prog[j], s.status[j]);
      }
    }
    SameSources(s.regs, f, x);
  }

  /** What one step changes: the status of its instruction, and only registers that instruction writes. */
  lemma StepIsLocal(prog: seq<Inst>, s: State, sem: Semantics, e: Event, r: nat)
    requires StateOk(prog, s, |s.regs.file|) && Guard(prog, s, e) && r < |s.regs.file|
    requires r !in prog[e.i].dests
    ensures SameAt(Next(prog, s, sem, e).regs, s.regs, r)
  {
    var x := prog[e.i];
    assert InstOk(x, |s.regs.file|);
    assert x.dests[..|x.dests|] == x.dests;
    WriteDestsAt(s.regs.file, x, sem, Values(s.regs, x.srcs), |x.dests|, r);
    SetPoisonAt(s.regs.poison, x.dests, s.status[e.i].Executed? && s.status[e.i].poisoned, |x.dests|, r);
  }

  lemma StepFits(prog: seq<Inst>, g: Regs, f: Regs, sem: Semantics, s: State, e: Event)
    requires Inv(prog, g, f, sem, s) && Guard(prog, s, e)
    ensures var v := Next(prog, s, sem, e);
            RegsOk(v.regs, |g.file|) && StatusFits(v, g, f, prog[e.i], v.status[e.i])
  {
    var x, v := prog[e.i], Next(prog, s, sem, e);
    assert StatusFits(s, g, f, x, s.status[e.i]);
    assert Settled(g, f, x, sem);
    assert SourcesReady(prog, s, e.i);
    ReadsFinalValues(prog, g, f, sem, s, e.i);
    assert x.dests[..|x.dests|] == x.dests;
    assert RegsOk(v.regs, |g.file|) && RegsOk(f, |g.file|) && InstOk(x, |g.file|) && InstOk(x, |s.regs.file|);
    hide Inv, SourcesReady, Values, AnyPoisoned, Window;
    forall k | 0 <= k < |x.dests|
      ensures v.regs.file[x.dests[k]] == (if e.IssueInst? then g else f).file[x.dests[k]]
      ensures v.regs.poison[x.dests[k]] == (if e.WritebackInst? then f else g).poison[x.dests[k]]
    {
      WriteDestsAt(s.regs.file, x, sem, Values(s.regs, x.srcs), |x.dests|, x.dests[k]);
      SetPoisonAt(s.regs.poison, x.dests, Tainted(f, x), |x.dests|, x.dests[k]);
    }
  }

  lemma StepKeepsOthers(prog: seq<Inst>, g: Regs, f: Regs, sem: Semantics, s: State, e: Event, i: nat)
    requires Inv(prog, g, f, sem, s) && Guard(prog, s, e) && i < |prog| && i != e.i
    ensures var v := Next(prog, s, sem, e);
            RegsOk(v.regs, |g.file|) && StatusFits(v, g, f, prog[i], v.status[i])
  {
    assert StatusFits(s, g, f, prog[i], s.status[i]);
    assert InstOk(prog[i], |g.file|);
    forall k | 0 <= k < |prog[i].dests| ensures SameAt(Next(prog, s, sem, e).regs, s.regs, prog[i].dests[k]) {
      assert prog[i].dests[k] !in prog[e.i].dests;
      StepIsLocal(prog, s, sem, e, prog[i].dests[k]);
    }
  }

  lemma StepKeepsInv(prog: seq<Inst>, g: Regs, f: Regs, sem: Semantics, s: State, e: Event)
    requires Inv(prog, g, f, sem, s) && Guard(prog, s, e)
    ensures Inv(prog, g, f, sem, Next(prog, s, sem, e))
  {
    var v := Next(prog, s, sem, e);
    forall r | 0 <= r < |g.file| && Unwritten(prog, r) ensures SameAt(v.regs, g, r) {
      StepIsLocal(prog, s, sem, e, r);
    }
    forall i | 0 <= i < |prog| ensures StatusFits(v, g, f, prog[i], v.status[i]) {
      if i == e.i { StepFits(prog, g, f, sem, s, e); } else { StepKeepsOthers(prog, g, f, sem, s, e, i); }
    }
    forall i | 0 <= i < |prog| && !v.status[i].Waiting? ensures SourcesReady(prog, v, i) {
      assert SourcesReady(prog, s, i);
    }
  }

  // ---- Runs -------------------------------------------------------------------------------------

  function Start(prog: seq<Inst>, g: Regs): State
  {
    State(g, seq(|prog|, i => Waiting))
  }

  predicate Enabled(prog: seq<Inst>, s: State, sem: Semantics, es: seq<Event>)
    requires StateOk(prog, s, |s.regs.file|)
    decreases |es|
  {
    es == [] || (Guard(prog, s, es[0]) && Enabled(prog, Next(prog, s, sem, es[0]), sem, es[1..]))
  }

  function After(prog: seq<Inst>, s: State, sem: Semantics, es: seq<Event>): (v: State)
    requires StateOk(prog, s, |s.regs.file|) && Enabled(prog, s, sem, es)
    ensures StateOk(prog, v, |s.regs.file|)
    decreases |es|
  {
    if es == [] then s else After(prog, Next(prog, s, sem, es[0]), sem, es[1..])
  }

  lemma {:induction false} RunKeepsInv(prog: seq<Inst>, g: Regs, f: Regs, sem: Semantics, s: State, es: seq<Event>)
    requires Inv(prog, g, f, sem, s) && Enabled(prog, s, sem, es)
    ensures Inv(prog, g, f, sem, After(prog, s, sem, es))
    decreases |es|
  {
    if es != [] {
      StepKeepsInv(prog, g, f, sem, s, es[0]);
      RunKeepsInv(prog, g, f, sem, Next(prog, s, sem, es[0]), es[1..]);
    }
  }

  lemma StartIsValid(prog: seq<Inst>, g: Regs, sem: Semantics)
    requires RegsOk(g, |g.file|) && Window(prog, |g.file|)
    ensures Inv(prog, g, InOrder(prog, g, sem, |prog|), sem, Start(prog, g))
  {
    var f := InOrder(prog, g, sem, |prog|);
    forall i | 0 <= i < |prog| ensures InstOk(prog[i], |g.file|) && Settled(g, f, prog[i], sem) {
      InOrderSettles(prog, g, sem, i);
    }
    forall r | 0 <= r < |g.file| && Unwritten(prog, r) ensures SameAt(f, g, r) {
      InOrderStays(prog, g, sem, 0, |prog|, r);
    }
  }

  /** A schedule of the window `prog` from registers `g`. */
  predicate Schedule(prog: seq<Inst>, g: Regs, sem: Semantics, es: seq<Event>)
  {
    RegsOk(g, |g.file|) && Window(prog, |g.file|) && Enabled(prog, Start(prog, g), sem, es)
  }

  function Reached(prog: seq<Inst>, g: Regs, sem: Semantics, es: seq<Event>): (s: State)
    requires Schedule(prog, g, sem, es)
    ensures StateOk(prog, s, |g.file|)
  {
    After(prog, Start(prog, g), sem, es)
  }

  lemma ReachedIsValid(prog: seq<Inst>, g: Regs, sem: Semantics, es: seq<Event>)
    requires Schedule(prog, g, sem, es)
    ensures Inv(prog, g, InOrder(prog, g, sem, |prog|), sem, Reached(prog, g, sem, es))
  {
    StartIsValid(prog, g, sem);
    RunKeepsInv(prog, g, InOrder(prog, g, sem, |prog|), sem, Start(prog, g), es);
  }

  // ---- Main results -----------------------------------------------------------------------------

  /** Whatever the schedule, a window that has written back leaves the in-order registers and poison. */
  lemma AnyScheduleIsInOrder(prog: seq<Inst>, g: Regs, sem: Semantics, es: seq<Event>)
    requires Schedule(prog, g, sem, es)
    requires forall i | 0 <= i < |prog| :: Reached(prog, g, sem, es).status[i].Done?
    ensures Reached(prog, g, sem, es).regs == InOrder(prog, g, sem, |prog|)
  {
    ReachedIsValid(prog, g, sem, es);
    var s, f := Reached(prog, g, sem, es), InOrder(prog, g, sem, |prog|);
    hide Reached, InOrder, Schedule;
    forall r | 0 <= r < |g.file| ensures s.regs.file[r] == f.file[r] && s.regs.poison[r] == f.poison[r] {
      if !Unwritten(prog, r) {
        var j :| 0 <= j < |prog| && r in prog[j].dests;
        assert StatusFits(s, g, f, prog[j], s.status[j]);
      }
    }
    assert s.regs.file == f.file && s.regs.poison == f.poison;
  }

  /** The flag an instruction carries to pseudoretirement is exactly the poison of each of its destinations. */
  lemma PseudoretiredArePoisoned(prog: seq<Inst>, g: Regs, sem: Semantics, es: seq<Event>, i: nat, k: nat)
    requires Schedule(prog, g, sem, es) && i < |prog| && k < |prog[i].dests|
    requires Reached(prog, g, sem, es).status[i].Done?
    ensures var s := Reached(prog, g, sem, es);
            prog[i].dests[k] < |s.regs.poison| && s.regs.poison[prog[i].dests[k]] == s.status[i].poisoned
  {
    ReachedIsValid(prog, g, sem, es);
    var s, f := Reached(prog, g, sem, es), InOrder(prog, g, sem, |prog|);
    assert StatusFits(s, g, f, prog[i], s.status[i]) && Settled(g, f, prog[i], sem);
  }

  /** Registers an observer who cannot look into poisoned ones takes for equal. */
  ghost predicate SameUnpoisoned(a: Regs, b: Regs)
  {
    && RegsOk(a, |a.file|) && RegsOk(b, |a.file|) && a.poison == b.poison
    && forall r | 0 <= r < |a.file| && !a.poison[r] :: a.file[r] == b.file[r]
  }

  lemma {:induction false} InOrderHidesPoison(prog: seq<Inst>, g: Regs, h: Regs, sem: Semantics, k: nat)
    requires SameUnpoisoned(g, h) && Window(prog, |g.file|) && k <= |prog|
    ensures SameUnpoisoned(InOrder(prog, g, sem, k), InOrder(prog, h, sem, k))
  {
    if k > 0 {
      InOrderHidesPoison(prog, g, h, sem, k - 1);
      var a, b, x := InOrder(prog, g, sem, k - 1), InOrder(prog, h, sem, k - 1), prog[k - 1];
      assert InstOk(x, |g.file|);
      assert AnyPoisoned(a, x.srcs) == AnyPoisoned(b, x.srcs);
      var p := x.nonSpec || AnyPoisoned(a, x.srcs);
      assert !p ==> Values(a, x.srcs) == Values(b, x.srcs);
      assert x.dests[..|x.dests|] == x.dests;
      var args := Values(a, x.srcs);
      forall r | 0 <= r < |g.file| && !SetPoison(a.poison, x.dests, p, |x.dests|)[r]
        ensures InOrder(prog, g, sem, k).file[r] == InOrder(prog, h, sem, k).file[r]
      {
        SetPoisonAt(a.poison, x.dests, p, |x.dests|, r);
        WriteDestsAt(a.file, x, sem, args, |x.dests|, r);
        WriteDestsAt(b.file, x, sem, args, |x.dests|, r);
      }
    }
  }

  /**
   * Poison is sound: from two register files that differ only in poisoned registers, under two different schedules,
   * the same registers end up poisoned and every other register ends up with the same value.
   */
  lemma PoisonHidesItsValues(prog: seq<Inst>, g: Regs, h: Regs, sem: Semantics, es: seq<Event>, fs: seq<Event>)
    requires SameUnpoisoned(g, h) && Schedule(prog, g, sem, es) && Schedule(prog, h, sem, fs)
    requires forall i | 0 <= i < |prog| :: Reached(prog, g, sem, es).status[i].Done?
    requires forall i | 0 <= i < |prog| :: Reached(prog, h, sem, fs).status[i].Done?
    ensures SameUnpoisoned(Reached(prog, g, sem, es).regs, Reached(prog, h, sem, fs).regs)
  {
    InOrderHidesPoison(prog, g, h, sem, |prog|);
    AnyScheduleIsInOrder(prog, g, sem, es);
    AnyScheduleIsInOrder(prog, h, sem, fs);
  }

  /** Also midway: an instruction written back in both runs carries the same flag, and if valid the same results. */
  lemma PoisonHidesItsValuesMidway(
    prog: seq<Inst>, g: Regs, h: Regs, sem: Semantics, es: seq<Event>, fs: seq<Event>, i: nat, k: nat)
    requires SameUnpoisoned(g, h) && Schedule(prog, g, sem, es) && Schedule(prog, h, sem, fs)
    requires i < |prog| && k < |prog[i].dests|
    requires Reached(prog, g, sem, es).status[i].Done? && Reached(prog, h, sem, fs).status[i].Done?
    ensures var s, t, r := Reached(prog, g, sem, es), Reached(prog, h, sem, fs), prog[i].dests[k];
            && s.status[i] == t.status[i] && r < |g.file|
            && (!s.status[i].poisoned ==> s.regs.file[r] == t.regs.file[r])
  {
    InOrderHidesPoison(prog, g, h, sem, |prog|);
    ReachedIsValid(prog, g, sem, es);
    ReachedIsValid(prog, h, sem, fs);
    var s, t, x := Reached(prog, g, sem, es), Reached(prog, h, sem, fs), prog[i];
    var a, b := InOrder(prog, g, sem, |prog|), InOrder(prog, h, sem, |prog|);
    assert StatusFits(s, g, a, x, s.status[i]) && Settled(g, a, x, sem);
    assert StatusFits(t, h, b, x, t.status[i]) && Settled(h, b, x, sem);
    hide Reached, InOrder, Inv, Schedule, StatusFits;
  }

  // ---- The loops --------------------------------------------------------------------------------

  /** The poison bit of every physical register; those in `misc` are never poisoned or cured. */
  class PoisonBits {
    const misc: set<nat>
    const bits: array<bool>

    /** At issue: stop at the first poisoned source. */
    method AnySource(srcs: seq<nat>) returns (p: bool)
      requires forall k | 0 <= k < |srcs| :: srcs[k] < bits.Length
      ensures p <==> exists k :: 0 <= k < |srcs| && bits[srcs[k]]
    {
      p := false;
      for i := 0 to |srcs|
        invariant forall k | 0 <= k < i :: !bits[srcs[k]]
      {
        if bits[srcs[i]] {
          return true;
        }
      }
    }

    /** At write-back: poison or cure every destination. */
    method WriteBack(dests: seq<nat>, poisoned: bool)
      requires forall k | 0 <= k < |dests| :: dests[k] < bits.Length
      modifies bits
      ensures forall r | 0 <= r < bits.Length :: r in dests && r !in misc ==> bits[r] == poisoned
      ensures forall r | 0 <= r < bits.Length :: r !in dests || r in misc ==> bits[r] == old(bits[r])
      ensures (forall k | 0 <= k < |dests| :: dests[k] !in misc) ==>
                bits[..] == SetPoison(old(bits[..]), dests, poisoned, |dests|)
    {
      for i := 0 to |dests|
        invariant forall r | 0 <= r < bits.Length :: r in dests[..i] && r !in misc ==> bits[r] == poisoned
        invariant forall r | 0 <= r < bits.Length :: r !in dests[..i] || r in misc ==> bits[r] == old(bits[r])
      {
        if poisoned && dests[i] !in misc {
          bits[dests[i]] := true;
        } else if dests[i] !in misc {
          bits[dests[i]] := false;
        }
        assert dests[..i + 1] == dests[..i] + [dests[i]];
      }
      ghost var was := old(bits[..]);
      assert dests[..|dests|] == dests;
      forall r | 0 <= r < bits.Length
        ensures (forall k | 0 <= k < |dests| :: dests[k] !in misc) ==>
                  bits[r] == SetPoison(was, dests, poisoned, |dests|)[r]
      {
        SetPoisonAt(was, dests, poisoned, |dests|, r);
      }
    }

    constructor (numRegs: nat, misc: set<nat>)
      ensures fresh(bits) && bits.Length == numRegs && this.misc == misc
    {
      bits := new bool[numRegs];
      this.misc := misc;
    }
  }
}
