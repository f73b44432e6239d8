/** The instruction queue as it runs: loops over sources, destinations and the instruction list. */
module InstQueue {
  import opened Prelude
  import opened IqState
  import opened IqInvariant
  import opened IqProof
  import opened IqSteps
  import opened IqSquash
  import opened DepGraph

  // ---- What the loops have done so far ----------------------------------------------------------

  /** The lists after the first `n` sources have been looked up. */
  function ListsAfter(q: Iq, x: Inst, n: nat): seq<seq<nat>>
    requires WellSized(q) && RegsInRange(q, x) && n <= |x.srcs|
  {
    seq(|q.lists|, r requires 0 <= r < |q.lists| => Copies(x.seqNum, WaitCount(q, x, r, n)) + q.lists[r])
  }

  /** The instruction after its first `n` sources have been looked up. */
  function InstAfter(q: Iq, x: Inst, n: nat): Inst
    requires WellSized(q) && RegsInRange(q, x) && n <= |x.srcs|
  {
    x.(readySrc := seq(|x.srcs|, k requires 0 <= k < |x.srcs| =>
                     x.readySrc[k] || (k < n && x.srcs[k] !in q.fixed && q.ready[x.srcs[k]])),
       readyRegs := x.readyRegs + LateReady(q, x, n))
  }

  lemma ListsAfterStep(q: Iq, x: Inst, n: nat)
    requires WellSized(q) && RegsInRange(q, x) && n < |x.srcs|
    ensures var r := x.srcs[n];
            ListsAfter(q, x, n + 1) == if Waits(q, x, n) then ListsAfter(q, x, n)[r := [x.seqNum] + ListsAfter(q, x, n)[r]]
                                       else ListsAfter(q, x, n)
  {
    var r := x.srcs[n];
    var a, b := ListsAfter(q, x, n), ListsAfter(q, x, n + 1);
    if Waits(q, x, n) {
      assert Copies(x.seqNum, WaitCount(q, x, r, n + 1)) == [x.seqNum] + Copies(x.seqNum, WaitCount(q, x, r, n));
      assert b[r] == [x.seqNum] + a[r];
    }
    assert forall s | 0 <= s < |a| && s != r :: a[s] == b[s];
  }

  lemma InstAfterStep(q: Iq, x: Inst, n: nat)
    requires WellSized(q) && RegsInRange(q, x) && n < |x.srcs|
    ensures var late := !x.readySrc[n] && x.srcs[n] !in q.fixed && q.ready[x.srcs[n]];
            var y := InstAfter(q, x, n);
            |y.readySrc| == |x.srcs| && y.readySrc[n] == x.readySrc[n] &&
            InstAfter(q, x, n + 1) ==
            if late then y.(readySrc := y.readySrc[n := true], readyRegs := y.readyRegs + 1) else y
  {
    var y, z := InstAfter(q, x, n), InstAfter(q, x, n + 1);
    if !x.readySrc[n] && x.srcs[n] !in q.fixed && q.ready[x.srcs[n]] {
      assert z.readySrc == y.readySrc[n := true];
    } else {
      assert z.readySrc == y.readySrc;
    }
  }

  lemma LookupStart(q: Iq, x: Inst)
    requires WellSized(q) && RegsInRange(q, x)
    ensures ListsAfter(q, x, 0) == q.lists && InstAfter(q, x, 0) == x
  {
    assert forall r | 0 <= r < |q.lists| :: Copies(x.seqNum, 0) + q.lists[r] == q.lists[r];
    assert ListsAfter(q, x, 0) == q.lists;
    assert InstAfter(q, x, 0).readySrc == x.readySrc;
  }

  lemma LookupEnd(q: Iq, x: Inst)
    requires WellSized(q) && RegsInRange(q, x)
    ensures ListsAfter(q, x, |x.srcs|) == WithDependent(q, x) && InstAfter(q, x, |x.srcs|) == LookedUp(q, x)
  {
    assert InstAfter(q, x, |x.srcs|).readySrc == LookedUp(q, x).readySrc;
  }

  /** Entering `x` as the producer of its first `n` destinations. */
  function FirstDests(x: Inst, n: nat): Inst
    requires n <= |x.dests|
  {
    x.(dests := x.dests[..n])
  }

  lemma AddProducerStep(q: Iq, x: Inst, n: nat)
    requires WellSized(q) && RegsInRange(q, x) && n < |x.dests|
    ensures var a, b := AddProducer(q, FirstDests(x, n)), AddProducer(q, FirstDests(x, n + 1));
            var r := x.dests[n];
            b == if r in q.fixed then a else a.(producer := a.producer[r := Some(x.seqNum)], ready := a.ready[r := false])
  {
    var a, b := AddProducer(q, FirstDests(x, n)), AddProducer(q, FirstDests(x, n + 1));
    var r := x.dests[n];
    assert x.dests[..n + 1] == x.dests[..n] + [r];
    if r in q.fixed {
      assert b.producer == a.producer && b.ready == a.ready;
    } else {
      assert b.producer == a.producer[r := Some(x.seqNum)] && b.ready == a.ready[r := false];
    }
  }

  lemma AddProducerEnds(q: Iq, x: Inst)
    requires WellSized(q)
    ensures AddProducer(q, FirstDests(x, 0)) == q && FirstDests(x, |x.dests|) == x
  {
    assert AddProducer(q, FirstDests(x, 0)).producer == q.producer && AddProducer(q, FirstDests(x, 0)).ready == q.ready;
    assert x.dests[..|x.dests|] == x.dests;
  }

  // ---- The queue --------------------------------------------------------------------------------

  class InstructionQueue {
    const numEntries: nat
    const fixed: set<nat>
    const dependGraph: DependencyGraph
    var instList: seq<Inst>
    var regScoreboard: seq<bool>
    var freeEntries: int
    var count: int

    ghost predicate Valid()
      reads this, dependGraph, dependGraph.Repr
    {
      dependGraph.Valid() && this !in dependGraph.Repr && |dependGraph.chains| == |dependGraph.lists|
    }

    ghost function View(): Iq
      reads this, dependGraph
    {
      Iq(numEntries, fixed, instList, dependGraph.lists, dependGraph.producers, regScoreboard, freeEntries, count)
    }

    constructor (numEntries: nat, numRegs: nat, fixed: set<nat>)
      ensures Valid() && fresh(dependGraph) && fresh(dependGraph.Repr)
      ensures View() == Iq(numEntries, fixed, [], seq(numRegs, _ => []), seq(numRegs, _ => None),
                           seq(numRegs, _ => true), numEntries, 0)
    {
      var g := new DependencyGraph(numRegs);
      dependGraph := g;
      this.numEntries, this.fixed := numEntries, fixed;
      instList, freeEntries, count := [], numEntries, 0;
      regScoreboard := seq(numRegs, _ => true);
    }

    /** Put the instruction on the list of each source that is not ready. */
    method AddToDependents(x: Inst) returns (y: Inst)
      requires Valid() && WellSized(View()) && RegsInRange(View(), x)
      modifies dependGraph, dependGraph.Repr
      ensures Valid() && fresh(dependGraph.Repr - old(dependGraph.Repr))
      ensures y == LookedUp(old(View()), x) && View() == old(View()).(lists := WithDependent(old(View()), x))
    {
      hide DependencyGraph.Valid, WithDependent, LookedUp, ListsAfter, InstAfter;
      ghost var q := View();
      y := x;
      LookupStart(q, x);
      var k := 0;
      while k < |x.srcs|
        invariant 0 <= k <= |x.srcs| && Valid() && fresh(dependGraph.Repr - old(dependGraph.Repr))
        invariant y == InstAfter(q, x, k) && View() == q.(lists := ListsAfter(q, x, k))
      {
        ListsAfterStep(q, x, k);
        InstAfterStep(q, x, k);
        if !y.readySrc[k] {
          var r := x.srcs[k];
          if r in fixed {
          } else if !regScoreboard[r] {
            dependGraph.Insert(r, x.seqNum);
          } else {
            y := y.(readySrc := y.readySrc[k := true], readyRegs := y.readyRegs + 1);
          }
        }
        k := k + 1;
      }
      LookupEnd(q, x);
    }

    /** Become the producer of each destination; its list must be empty. */
    method AddToProducers(x: Inst)
      requires Valid() && WellSized(View()) && RegsInRange(View(), x)
      requires forall k | 0 <= k < |x.dests| && x.dests[k] !in fixed :: dependGraph.lists[x.dests[k]] == []
      modifies this`regScoreboard, dependGraph, dependGraph.Repr
      ensures Valid() && dependGraph.Repr == old(dependGraph.Repr)
      ensures View() == AddProducer(old(View()), x)
    {
      hide DependencyGraph.Valid;
      ghost var q := View();
      AddProducerEnds(q, x);
      var k := 0;
      while k < |x.dests|
        invariant 0 <= k <= |x.dests| && Valid() && dependGraph.Repr == old(dependGraph.Repr)
        invariant View() == AddProducer(q, FirstDests(x, k))
      {
        AddProducerStep(q, x, k);
        var r := x.dests[k];
        if r !in fixed {
          var empty := dependGraph.EmptyAt(r);
          if !empty {
            assert false;
          }
          dependGraph.SetInst(r, Some(x.seqNum));
          regScoreboard := regScoreboard[r := false];
        }
        k := k + 1;
      }
    }

    /** Insertion panics unless the destinations' lists are empty; `NewProducerFindsEmptyLists` says they are. */
    method Insert(x: Inst)
      requires Valid() && WellSized(View()) && RegsInRange(View(), x) && OnLists(x)
      requires forall k | 0 <= k < |x.dests| && x.dests[k] !in fixed :: WithDependent(View(), x)[x.dests[k]] == []
      modifies this, dependGraph, dependGraph.Repr
      ensures Valid() && fresh(dependGraph.Repr - old(dependGraph.Repr))
      ensures View() == IqState.Insert(old(View()), x)
    {
      hide DependencyGraph.Valid, LookedUp, WithDependent, AddProducer, OnLists;
      ghost var q := View();
      freeEntries := freeEntries - 1;
      LookupIgnoresEntries(q, View(), x);
      var y := AddToDependents(x);
      instList := instList + [y];
      AddToProducers(x);
      count := count + 1;
      ProducersIgnoreCount(q.(insts := q.insts + [y], lists := WithDependent(q, x), freeEntries := q.freeEntries - 1), x);
    }

    /** Non-speculative instructions and barriers only become producers; commit schedules them. */
    method InsertNonSpec(x: Inst)
      requires Valid() && WellSized(View()) && RegsInRange(View(), x) && !OnLists(x)
      requires forall k | 0 <= k < |x.dests| && x.dests[k] !in fixed :: View().lists[x.dests[k]] == []
      modifies this, dependGraph, dependGraph.Repr
      ensures Valid() && dependGraph.Repr == old(dependGraph.Repr)
      ensures View() == IqState.Insert(old(View()), x)
    {
      hide DependencyGraph.Valid, AddProducer, OnLists;
      ghost var q := View();
      instList := instList + [x];
      freeEntries := freeEntries - 1;
      AddToProducers(x);
      count := count + 1;
      ProducersIgnoreCount(q.(insts := q.insts + [x], freeEntries := q.freeEntries - 1), x);
    }

    method Commit(n: nat)
      modifies this`instList
      ensures View() == IqState.Commit(old(View()), n)
      ensures Ascending(old(instList)) ==> forall x :: x in instList <==> x in old(instList) && x.seqNum > n
    {
      if Ascending(instList) {
        CommitLeavesYounger(View(), n);
      }
      while instList != [] && instList[0].seqNum <= n
        invariant View() == old(View()).(insts := instList)
        invariant DropUpTo(instList, n) == DropUpTo(old(instList), n)
        decreases |instList|
      {
        instList := instList[1..];
      }
    }

    /** Take the instruction off the list of every source whose ready bit is clear. */
    method Unlink(x: Inst)
      requires Valid() && RegsInRange(View(), x) && IqState.Unlink(View(), x, |x.srcs|).Fine?
      modifies dependGraph, dependGraph.Repr
      ensures Valid() && dependGraph.Repr == old(dependGraph.Repr)
      ensures IqState.Unlink(old(View()), x, |x.srcs|) == Fine(View().lists)
      ensures View() == old(View()).(lists := View().lists)
    {
      hide DependencyGraph.Valid;
      ghost var q := View();
      var k := 0;
      while k < |x.srcs|
        invariant 0 <= k <= |x.srcs| && Valid() && dependGraph.Repr == old(dependGraph.Repr)
        invariant IqState.Unlink(q, x, k) == Fine(View().lists) && View() == q.(lists := View().lists)
      {
        UnlinkPrefix(q, x, k + 1, |x.srcs|);
        if !x.readySrc[k] && x.srcs[k] !in fixed {
          dependGraph.Remove(x.srcs[k], x.seqNum);
        }
        k := k + 1;
      }
    }

    /** Forget the instruction as a producer; nobody may still wait for it. */
    method ClearHeads(x: Inst)
      requires Valid() && WellSized(View()) && RegsInRange(View(), x) && ClearProducers(View(), x, |x.dests|).Fine?
      modifies dependGraph, dependGraph.Repr
      ensures Valid() && dependGraph.Repr == old(dependGraph.Repr)
      ensures ClearProducers(old(View()), x, |x.dests|) == Fine(View())
    {
      hide DependencyGraph.Valid;
      ghost var q := View();
      var k := 0;
      while k < |x.dests|
        invariant 0 <= k <= |x.dests| && Valid() && dependGraph.Repr == old(dependGraph.Repr)
        invariant ClearProducers(q, x, k) == Fine(View())
      {
        ClearPrefix(q, x, k + 1, |x.dests|);
        var r := x.dests[k];
        if r !in fixed {
          var empty := dependGraph.EmptyAt(r);
          if !empty {
            assert false;
          }
          dependGraph.SetInst(r, None);
        }
        k := k + 1;
      }
    }

    method SquashYoungest()
      requires Valid() && WellSized(View()) && instList != [] && RegsInRange(View(), instList[|instList| - 1])
      requires SquashLast(View()).Fine?
      modifies this, dependGraph, dependGraph.Repr
      ensures Valid() && dependGraph.Repr == old(dependGraph.Repr)
      ensures SquashLast(old(View())) == Fine(View())
    {
      hide DependencyGraph.Valid, IqState.Unlink, ClearProducers, Unlinks;
      ghost var q := View();
      var x := instList[|instList| - 1];
      instList := instList[..|instList| - 1];
      if !x.issued || (IsMemRef(x.flags) && !x.memDone) {
        UnlinkIgnoresInsts(q, View(), x, |x.srcs|);
        if Unlinks(x.flags) {
          Unlink(x);
        }
        count := count - 1;
        freeEntries := freeEntries + 1;
      }
      ClearHeads(x);
    }

    /** Squash from the youngest instruction down to `n`. */
    method DoSquash(n: nat)
      requires Valid() && WellSized(View()) && forall i | 0 <= i < |instList| :: RegsInRange(View(), instList[i])
      requires SquashWalk(View(), n).Fine?
      modifies this, dependGraph, dependGraph.Repr
      ensures Valid() && dependGraph.Repr == old(dependGraph.Repr)
      ensures SquashWalk(old(View()), n) == Fine(View())
      ensures old(Inv(View()) && AllAgree(View())) ==> OnlyOlderLeft(old(View()), View(), n)
    {
      hide DependencyGraph.Valid, SquashLast, OnlyOlderLeft;
      if Inv(View()) && AllAgree(View()) {
        SquashWalkSafe(View(), n);
        SquashedToMeans(View(), SquashWalk(View(), n).value, n);
      }
      while instList != [] && instList[|instList| - 1].seqNum > n
        invariant Valid() && dependGraph.Repr == old(dependGraph.Repr)
        invariant WellSized(View()) && forall i | 0 <= i < |instList| :: RegsInRange(View(), instList[i])
        invariant SquashWalk(View(), n) == SquashWalk(old(View()), n)
        decreases |instList|
      {
        ghost var q := View();
        SquashYoungest();
        assert forall i | 0 <= i < |instList| :: instList[i] == q.insts[i] && RegsInRange(q, q.insts[i]);
      }
    }

    /** Where the instruction a node points to sits in the list. */
    method Locate(s: nat) returns (j: nat)
      requires exists i :: 0 <= i < |instList| && instList[i].seqNum == s
      ensures j < |instList| && instList[j].seqNum == s
    {
      j := 0;
      while instList[j].seqNum != s
        invariant 0 <= j < |instList| && forall i | 0 <= i < j :: instList[i].seqNum != s
        decreases |instList| - j
      {
        j := j + 1;
      }
    }

    /** Pop every consumer of a register, marking one source of each ready. */
    method WakeList(r: nat)
      requires Valid() && r < |dependGraph.lists| && SeqNumsDistinct(instList)
      requires forall k | 0 <= k < |dependGraph.lists[r]| :: Present(instList, dependGraph.lists[r][k])
      modifies this`instList, dependGraph, dependGraph.Repr
      ensures Valid() && dependGraph.Repr == old(dependGraph.Repr)
      ensures View() == old(View()).(insts := instList, lists := old(View()).lists[r := []])
      ensures instList == Woken(old(instList), old(dependGraph.lists)[r])
    {
      hide DependencyGraph.Valid, Woken, SeqNumsDistinct;
      ghost var q, l := View(), dependGraph.lists[r];
      ghost var done: seq<nat> := [];
      WokenNone(instList);
      var node := dependGraph.Pop(r);
      while node.Some?
        invariant Valid() && dependGraph.Repr == old(dependGraph.Repr)
        invariant node.Some? ==> l == done + [node.value] + dependGraph.lists[r]
        invariant node.None? ==> l == done && dependGraph.lists[r] == []
        invariant |dependGraph.lists| == |q.lists| && View() == q.(insts := instList, lists := q.lists[r := dependGraph.lists[r]])
        invariant instList == Woken(q.insts, done)
        decreases |dependGraph.lists[r]|, node.Some?
      {
        assert l[|done|] == node.value;
        WokenStep(q.insts, done, node.value);
        var j := Locate(node.value);
        instList := instList[j := instList[j].(readyRegs := instList[j].readyRegs + 1)];
        done := done + [node.value];
        node := dependGraph.Pop(r);
      }
    }

    /** The instruction has written back: release a memory instruction's entry and wake everybody who waits for it. */
    method WakeDependents(i: nat)
      requires Valid() && Shaped(View()) && NodesOwned(View()) && i < |instList|
      modifies this, dependGraph, dependGraph.Repr
      ensures Valid() && dependGraph.Repr == old(dependGraph.Repr)
      ensures View() == Wake(old(View()), i)
    {
      hide DependencyGraph.Valid, WakeFirst, Wake, Shaped, NodesOwned, RegsInRange;
      var x := instList[i];
      WakeFirstEnds(View(), i);
      WakeDests(x);
      var mem := IsMemRef(x.flags);
      if mem {
        freeEntries := freeEntries + 1;
        count := count - 1;
      }
      instList := instList[i := instList[i].(woken := true, memDone := x.memDone || mem)];
    }

    method WakeDests(x: Inst)
      requires Valid() && Shaped(View()) && NodesOwned(View()) && RegsInRange(View(), x)
      requires WakeFirst(View(), x, 0) == View()
      modifies this`instList, this`regScoreboard, dependGraph, dependGraph.Repr
      ensures Valid() && dependGraph.Repr == old(dependGraph.Repr)
      ensures View() == WakeFirst(old(View()), x, |x.dests|)
    {
      ghost var q := View();
      assert WellSized(q);
      hide DependencyGraph.Valid, WakeFirst, Shaped, NodesOwned, RegsInRange, Woken, SeqNumsDistinct, Present;
      var k := 0;
      while k < |x.dests|
        invariant 0 <= k <= |x.dests| && Valid() && dependGraph.Repr == old(dependGraph.Repr)
        invariant View() == WakeFirst(q, x, k)
      {
        WakeFirstStep(q, x, k);
        var r := x.dests[k];
        if r !in fixed {
          WakeList(r);
          dependGraph.SetInst(r, None);
          regScoreboard := regScoreboard[r := true];
        }
        k := k + 1;
      }
    }
  }

  /** The queue when `x` has woken the consumers of its first `n` destinations. */
  function WakeFirst(q: Iq, x: Inst, n: nat): Iq
    requires WellSized(q) && n <= |x.dests|
  {
    var y := FirstDests(x, n);
    q.(insts := seq(|q.insts|, j requires 0 <= j < |q.insts| =>
                  q.insts[j].(readyRegs := q.insts[j].readyRegs + WokenNodes(q, y, q.insts[j].seqNum, |q.lists|))),
       lists := seq(|q.lists|, r requires 0 <= r < |q.lists| => if Writes(q, y, r) then [] else q.lists[r]),
       producer := seq(|q.producer|, r requires 0 <= r < |q.producer| => if Writes(q, y, r) then None else q.producer[r]),
       ready := seq(|q.ready|, r requires 0 <= r < |q.ready| => q.ready[r] || Writes(q, y, r)))
  }

  lemma {:induction false} WokenNodesStep(q: Iq, x: Inst, k: nat, s: nat, n: nat)
    requires k < |x.dests| && n <= |q.lists|
    ensures var r := x.dests[k];
            WokenNodes(q, FirstDests(x, k + 1), s, n) ==
            WokenNodes(q, FirstDests(x, k), s, n) +
            if r < n && r !in q.fixed && !Writes(q, FirstDests(x, k), r) then CountOf(q.lists[r], s) else 0
  {
    assert x.dests[..k + 1] == x.dests[..k] + [x.dests[k]];
    if n > 0 {
      WokenNodesStep(q, x, k, s, n - 1);
    }
  }

  lemma {:induction false} WokenNodesNone(q: Iq, x: Inst, s: nat, n: nat)
    requires n <= |q.lists| && x.dests == []
    ensures WokenNodes(q, x, s, n) == 0
  {
    if n > 0 {
      WokenNodesNone(q, x, s, n - 1);
    }
  }

  lemma WakeFirstInsts(q: Iq, x: Inst, k: nat)
    requires Shaped(q) && RegsInRange(q, x) && k < |x.dests|
    ensures var a, b := WakeFirst(q, x, k), WakeFirst(q, x, k + 1);
            var r := x.dests[k];
            b.insts == if r in q.fixed then a.insts else Woken(a.insts, a.lists[r])
  {
    var a, b := WakeFirst(q, x, k), WakeFirst(q, x, k + 1);
    var r := x.dests[k];
    forall j | 0 <= j < |q.insts|
      ensures b.insts[j] == if r in q.fixed then a.insts[j] else Woken(a.insts, a.lists[r])[j]
    {
      WokenNodesStep(q, x, k, q.insts[j].seqNum, |q.lists|);
    }
  }

  lemma WakeFirstStep(q: Iq, x: Inst, k: nat)
    requires Shaped(q) && NodesOwned(q) && RegsInRange(q, x) && k < |x.dests|
    ensures var a, b := WakeFirst(q, x, k), WakeFirst(q, x, k + 1);
            var r := x.dests[k];
            && r < |a.lists| == |a.producer| == |a.ready|
            && SeqNumsDistinct(a.insts) && (forall m | 0 <= m < |a.lists[r]| :: Present(a.insts, a.lists[r][m]))
            && b == if r in q.fixed then a
                    else a.(insts := Woken(a.insts, a.lists[r]), lists := a.lists[r := []],
                            producer := a.producer[r := None], ready := a.ready[r := true])
  {
    var a, b := WakeFirst(q, x, k), WakeFirst(q, x, k + 1);
    var r := x.dests[k];
    WakeFirstInsts(q, x, k);
    hide WokenNodes, Woken;
    assert x.dests[..k + 1] == x.dests[..k] + [r];
    assert forall t :: Writes(q, FirstDests(x, k + 1), t) <==> Writes(q, FirstDests(x, k), t) || (t == r && r !in q.fixed);
    if r in q.fixed {
      assert b.lists == a.lists && b.producer == a.producer && b.ready == a.ready;
    } else {
      assert b.lists == a.lists[r := []] && b.producer == a.producer[r := None] && b.ready == a.ready[r := true];
    }
    forall m | 0 <= m < |a.lists[r]| ensures Present(a.insts, a.lists[r][m]) {
      assert Listed(q.insts, q.lists[r][m]);
      var i :| 0 <= i < |q.insts| && q.insts[i].seqNum == q.lists[r][m] && OnLists(q.insts[i]);
      assert a.insts[i].seqNum == a.lists[r][m];
    }
  }

  lemma WakeFirstEnds(q: Iq, i: nat)
    requires Shaped(q) && i < |q.insts|
    ensures RegsInRange(q, q.insts[i]) && WakeFirst(q, q.insts[i], 0) == q
    ensures var x := q.insts[i];
            var p := WakeFirst(q, x, |x.dests|);
            var mem := IsMemRef(x.flags);
            var freed := if mem then 1 else 0;
            |p.insts| == |q.insts| &&
            Wake(q, i) == p.(insts := p.insts[i := p.insts[i].(woken := true, memDone := x.memDone || mem)],
                             freeEntries := q.freeEntries + freed, count := q.count - freed)
  {
    var x := q.insts[i];
    var a := WakeFirst(q, x, 0);
    forall j | 0 <= j < |q.insts| ensures a.insts[j] == q.insts[j] {
      WokenNodesNone(q, FirstDests(x, 0), q.insts[j].seqNum, |q.lists|);
    }
    hide WokenNodes;
    assert a.insts == q.insts && a.lists == q.lists && a.producer == q.producer && a.ready == q.ready;
    var p := WakeFirst(q, x, |x.dests|);
    assert FirstDests(x, |x.dests|) == x by {
      assert x.dests[..|x.dests|] == x.dests;
    }
    var mem := IsMemRef(x.flags);
    assert Wake(q, i).insts == p.insts[i := p.insts[i].(woken := true, memDone := x.memDone || mem)];
    assert Wake(q, i).lists == p.lists && Wake(q, i).producer == p.producer && Wake(q, i).ready == p.ready;
  }

  predicate SeqNumsDistinct(insts: seq<Inst>)
  {
    forall i, j | 0 <= i < j < |insts| :: insts[i].seqNum != insts[j].seqNum
  }

  predicate Present(insts: seq<Inst>, s: nat)
  {
    exists i :: 0 <= i < |insts| && insts[i].seqNum == s
  }

  /** Each instruction with one more ready source per node of its own among `nodes`. */
  function Woken(insts: seq<Inst>, nodes: seq<nat>): seq<Inst>
  {
    seq(|insts|, i requires 0 <= i < |insts| =>
      insts[i].(readyRegs := insts[i].readyRegs + CountOf(nodes, insts[i].seqNum)))
  }

  lemma WokenNone(insts: seq<Inst>)
    ensures Woken(insts, []) == insts
  {
  }

  lemma WokenStep(insts: seq<Inst>, done: seq<nat>, s: nat)
    requires SeqNumsDistinct(insts) && Present(insts, s)
    ensures var a := Woken(insts, done);
            && Present(a, s)
            && forall j | 0 <= j < |a| && a[j].seqNum == s ::
                 Woken(insts, done + [s]) == a[j := a[j].(readyRegs := a[j].readyRegs + 1)]
  {
    var a, b := Woken(insts, done), Woken(insts, done + [s]);
    var i :| 0 <= i < |insts| && insts[i].seqNum == s;
    assert a[i].seqNum == s;
    forall j | 0 <= j < |a| && a[j].seqNum == s ensures b == a[j := a[j].(readyRegs := a[j].readyRegs + 1)] {
      forall k | 0 <= k < |a| ensures b[k] == a[j := a[j].(readyRegs := a[j].readyRegs + 1)][k] {
        CountOfConcat(done, [s], insts[k].seqNum);
        CountOfOne(s, insts[k].seqNum);
        assert k < j || k > j || k == j;
      }
    }
  }

  lemma CountOfOne(s: nat, t: nat)
    ensures CountOf([s], t) == if s == t then 1 else 0
  {
    assert [s][1..] == [];
  }

  lemma {:induction false} UnlinkPrefix(q: Iq, x: Inst, m: nat, n: nat)
    requires RegsInRange(q, x) && m <= n <= |x.srcs| && IqState.Unlink(q, x, n).Fine?
    ensures IqState.Unlink(q, x, m).Fine?
  {
    if m < n {
      UnlinkPrefix(q, x, m, n - 1);
    }
  }

  lemma {:induction false} ClearPrefix(q: Iq, x: Inst, m: nat, n: nat)
    requires WellSized(q) && RegsInRange(q, x) && m <= n <= |x.dests| && ClearProducers(q, x, n).Fine?
    ensures ClearProducers(q, x, m).Fine?
  {
    if m < n {
      ClearPrefix(q, x, m, n - 1);
    }
  }

  lemma {:induction false} UnlinkIgnoresInsts(q: Iq, p: Iq, x: Inst, n: nat)
    requires RegsInRange(q, x) && n <= |x.srcs| && p == q.(insts := p.insts)
    ensures IqState.Unlink(p, x, n) == IqState.Unlink(q, x, n)
  {
    if n > 0 {
      UnlinkIgnoresInsts(q, p, x, n - 1);
    }
  }

  lemma ProducersIgnoreCount(q: Iq, x: Inst)
    requires WellSized(q)
    ensures AddProducer(q, x).(count := q.count + 1) == AddProducer(q.(count := q.count + 1), x)
  {
    var a, b := AddProducer(q, x), AddProducer(q.(count := q.count + 1), x);
    assert a.producer == b.producer && a.ready == b.ready;
  }

  /** Looking up sources reads only the scoreboard and the lists. */
  lemma LookupIgnoresEntries(q: Iq, p: Iq, x: Inst)
    requires WellSized(q) && RegsInRange(q, x) && p == q.(freeEntries := p.freeEntries)
    ensures WithDependent(p, x) == WithDependent(q, x) && LookedUp(p, x) == LookedUp(q, x)
  {
    CountsIgnoreEntries(q, p, x, |x.srcs|);
    assert LookedUp(p, x).readySrc == LookedUp(q, x).readySrc;
  }

  lemma {:induction false} CountsIgnoreEntries(q: Iq, p: Iq, x: Inst, n: nat)
    requires WellSized(q) && RegsInRange(q, x) && p == q.(freeEntries := p.freeEntries) && n <= |x.srcs|
    ensures LateReady(p, x, n) == LateReady(q, x, n)
    ensures forall r: nat :: WaitCount(p, x, r, n) == WaitCount(q, x, r, n)
  {
    if n > 0 {
      CountsIgnoreEntries(q, p, x, n - 1);
    }
  }
}
