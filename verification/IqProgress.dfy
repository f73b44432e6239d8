/** The dependency lists never deadlock: whatever is in the queue can issue, write back and leave, oldest first. */
module IqProgress {
  import opened Prelude
  import opened IqState
  import opened IqInvariant
  import opened IqProof
  import opened IqSteps
  import opened IqSquash
  import opened IqRuns

  /** The oldest instruction that has not written back. */
  predicate OldestUnwoken(q: Iq, i: nat)
  {
    At(q, i) && !q.insts[i].woken && forall j | 0 <= j < i :: q.insts[j].woken
  }

  /** Nothing older is left to wait for, so it is on no list and has all its sources. */
  lemma OldestHasSources(q: Iq, i: nat)
    requires Inv(q) && OldestUnwoken(q, i) && OnLists(q.insts[i])
    ensures q.insts[i].readyRegs == |q.insts[i].srcs|
  {
    var s := q.insts[i].seqNum;
    assert forall j | 0 <= j < |q.insts| && !q.insts[j].woken :: s <= q.insts[j].seqNum;
    assert forall r | 0 <= r < |q.lists| :: s !in q.lists[r];
    TotalNodesZero(q.lists, s);
  }

  /** How many issues and write-backs the queued instructions still need. */
  function Work(insts: seq<Inst>): nat
  {
    if insts == [] then 0
    else
      var x := insts[|insts| - 1];
      Work(insts[..|insts| - 1]) + (if x.issued then 0 else 1) + (if x.woken then 0 else 1)
  }

  predicate SameProgress(x: Inst, y: Inst)
  {
    x.issued == y.issued && x.woken == y.woken
  }

  lemma {:induction false} WorkSame(a: seq<Inst>, b: seq<Inst>)
    requires |a| == |b| && forall j | 0 <= j < |a| :: SameProgress(a[j], b[j])
    ensures Work(a) == Work(b)
  {
    if a != [] {
      WorkSame(a[..|a| - 1], b[..|b| - 1]);
    }
  }

  lemma {:induction false} WorkLess(a: seq<Inst>, b: seq<Inst>, i: nat)
    requires i < |a| == |b| && forall j | 0 <= j < |a| && j != i :: SameProgress(a[j], b[j])
    requires (a[i].issued ==> b[i].issued) && (a[i].woken ==> b[i].woken) && !SameProgress(a[i], b[i])
    ensures Work(b) < Work(a)
  {
    if i < |a| - 1 {
      WorkLess(a[..|a| - 1], b[..|b| - 1], i);
    } else {
      WorkSame(a[..|a| - 1], b[..|b| - 1]);
    }
  }

  lemma {:induction false} FirstUnwoken(q: Iq, k: nat) returns (i: nat)
    requires At(q, k) && !q.insts[k].woken
    ensures OldestUnwoken(q, i)
    decreases k
  {
    if j :| 0 <= j < k && !q.insts[j].woken {
      i := FirstUnwoken(q, j);
    } else {
      i := k;
    }
  }

  /** The step the oldest instruction can always take: its write-back, or its issue. */
  lemma OldestCanStep(q: Iq, i: nat) returns (e: Event)
    requires Inv(q) && AllAgree(q) && OldestUnwoken(q, i)
    ensures e == (if q.insts[i].issued then WakeInst(i) else IssueInst(i)) && MayStep(q, e)
    ensures Inv(Next(q, e)) && AllAgree(Next(q, e)) && Work(Next(q, e).insts) < Work(q.insts)
    ensures Next(q, e).numEntries == q.numEntries
  {
    e := if q.insts[i].issued then WakeInst(i) else IssueInst(i);
    if OnLists(q.insts[i]) {
      OldestHasSources(q, i);
    }
    StepKeepsInv(q, e);
    NextKeepsSize(q, e);
    hide Inv, AllAgree, OnLists, WokenNodes, Work;
    WorkLess(q.insts, Next(q, e).insts, i);
  }

  lemma LastOfAll(q: Iq) returns (n: nat)
    requires Inv(q) && forall i | 0 <= i < |q.insts| :: q.insts[i].woken
    ensures MayStep(q, CommitTo(n)) && Commit(q, n).insts == []
  {
    n := if q.insts == [] then 0 else q.insts[|q.insts| - 1].seqNum;
    CommitSuffix(q, n);
  }

  /**
   * From every reachable state the queue can be emptied by issuing, waking and committing alone, and then every entry
   * is free again.
   */
  lemma {:induction false} QueueCanDrain(q: Iq) returns (es: seq<Event>)
    requires Inv(q) && AllAgree(q)
    ensures forall e | e in es :: e.IssueInst? || e.WakeInst? || e.CommitTo?
    ensures Enabled(q, es) && After(q, es).insts == [] && After(q, es).freeEntries == q.numEntries
    decreases Work(q.insts)
  {
    hide AllAgree, Enabled, After;
    if k :| 0 <= k < |q.insts| && !q.insts[k].woken {
      var i := FirstUnwoken(q, k);
      hide Inv, OldestUnwoken;
      var e := OldestCanStep(q, i);
      var rest := QueueCanDrain(Next(q, e));
      es := [e] + rest;
      RunStep(q, e, rest);
    } else {
      var n := LastOfAll(q);
      es := [CommitTo(n)] + [];
      StepKeepsInv(q, CommitTo(n));
      hide Inv;
      NextKeepsSize(q, CommitTo(n));
      EmptyRun(Next(q, CommitTo(n)));
      RunStep(q, CommitTo(n), []);
      EmptyIsFree(Next(q, CommitTo(n)));
    }
  }

  lemma RunStep(q: Iq, e: Event, rest: seq<Event>)
    requires Inv(q) && AllAgree(q) && MayStep(q, e) && Inv(Next(q, e)) && AllAgree(Next(q, e)) && Enabled(Next(q, e), rest)
    ensures Enabled(q, [e] + rest) && After(q, [e] + rest) == After(Next(q, e), rest)
  {
    hide Inv, AllAgree, MayStep, Next;
    assert ([e] + rest)[1..] == rest;
  }

  lemma EmptyRun(q: Iq)
    requires Inv(q) && AllAgree(q)
    ensures Enabled(q, []) && After(q, []) == q
  {
    hide Inv, AllAgree;
  }

  lemma EmptyIsFree(q: Iq)
    requires Inv(q) && q.insts == []
    ensures q.freeEntries == q.numEntries
  {
  }
}
