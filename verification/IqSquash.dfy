/** The squash walk never trips the dependency graph's asserts, and leaves exactly the older instructions. */
module IqSquash {
  import opened Prelude
  import opened IqState
  import opened IqInvariant
  import opened IqProof
  import opened IqSteps

  // ---- Removing nodes one at a time -------------------------------------------------------------

  function KeepNot(l: seq<nat>, s: nat): seq<nat>
  {
    if l == [] then [] else (if l[0] != s then [l[0]] else []) + KeepNot(l[1..], s)
  }

  lemma {:induction false} RemoveNodeEffect(l: seq<nat>, s: nat, t: nat)
    requires s in l
    ensures KeepNot(RemoveNode(l, s), s) == KeepNot(l, s)
    ensures CountOf(RemoveNode(l, s), t) == CountOf(l, t) - if s == t then 1 else 0
  {
    if l[0] != s {
      RemoveNodeEffect(l[1..], s, t);
      assert RemoveNode(l, s)[1..] == RemoveNode(l[1..], s);
    }
  }

  lemma {:induction false} KeepNotAbsent(l: seq<nat>, s: nat)
    requires CountOf(l, s) == 0
    ensures KeepNot(l, s) == l
  {
    if l != [] {
      KeepNotAbsent(l[1..], s);
    }
  }

  lemma {:induction false} KeepNotCounts(l: seq<nat>, s: nat, t: nat)
    ensures CountOf(KeepNot(l, s), t) == if s == t then 0 else CountOf(l, t)
  {
    if l != [] {
      KeepNotCounts(l[1..], s, t);
      CountOfConcat(if l[0] != s then [l[0]] else [], KeepNot(l[1..], s), t);
      CountOfConcat([l[0]], l[1..], t);
      assert l == [l[0]] + l[1..];
    }
  }

  lemma {:induction false} KeepNotMembers(l: seq<nat>, s: nat)
    ensures forall k | 0 <= k < |KeepNot(l, s)| :: KeepNot(l, s)[k] != s && KeepNot(l, s)[k] in l
  {
    if l != [] {
      KeepNotMembers(l[1..], s);
    }
  }

  lemma {:induction false} KeepOlderAfterKeepNot(l: seq<nat>, s: nat, n: nat)
    requires n < s
    ensures KeepOlder(KeepNot(l, s), n) == KeepOlder(l, n)
  {
    if l != [] {
      KeepOlderAfterKeepNot(l[1..], s, n);
      if l[0] == s {
        assert KeepNot(l, s) == KeepNot(l[1..], s);
      } else {
        assert KeepNot(l, s)[0] == l[0] && KeepNot(l, s)[1..] == KeepNot(l[1..], s);
      }
    }
  }

  lemma {:induction false} KeepOlderAll(l: seq<nat>, n: nat)
    requires forall k | 0 <= k < |l| :: l[k] <= n
    ensures KeepOlder(l, n) == l
  {
    if l != [] {
      KeepOlderAll(l[1..], n);
    }
  }

  // ---- Unlinking one instruction ----------------------------------------------------------------

  lemma {:induction false} UnreadyGrows(x: Inst, r: nat, m: nat, n: nat)
    requires |x.readySrc| == |x.srcs| && m <= n <= |x.srcs|
    ensures Unready(x, r, m) <= Unready(x, r, n)
  {
    if m < n {
      UnreadyGrows(x, r, m, n - 1);
    }
  }

  /** How many nodes of `x` the first `n` removals take off the list of `r`. */
  function Taken(q: Iq, x: Inst, r: nat, n: nat): nat
    requires WellSized(q) && RegsInRange(q, x) && n <= |x.srcs| && r < |q.lists|
  {
    if r in q.fixed || q.ready[r] then 0 else Unready(x, r, n)
  }

  /** Every removal finds its node: none runs off a list. */
  lemma {:induction false} UnlinkFine(q: Iq, x: Inst, n: nat)
    requires WellSized(q) && RegsInRange(q, x) && ReadyMeansEmpty(q) && n <= |x.srcs|
    requires forall r | 0 <= r < |q.lists| && Tracked(q, r) && !q.ready[r] ::
               CountOf(q.lists[r], x.seqNum) == Unready(x, r, |x.srcs|)
    ensures var w := Unlink(q, x, n);
            w.Fine? && forall r | 0 <= r < |q.lists| ::
              && KeepNot(w.value[r], x.seqNum) == KeepNot(q.lists[r], x.seqNum)
              && CountOf(w.value[r], x.seqNum) == CountOf(q.lists[r], x.seqNum) - Taken(q, x, r, n)
              && (q.lists[r] == [] ==> w.value[r] == [])
  {
    if n > 0 {
      UnlinkFine(q, x, n - 1);
      var lists := Unlink(q, x, n - 1).value;
      var r := x.srcs[n - 1];
      if !x.readySrc[n - 1] && r !in q.fixed && lists[r] != [] {
        assert Tracked(q, r) && !q.ready[r];
        UnreadyGrows(x, r, n, |x.srcs|);
        CountOfZero(lists[r], x.seqNum);
        RemoveNodeEffect(lists[r], x.seqNum, x.seqNum);
      } else if !x.readySrc[n - 1] && Tracked(q, r) && !q.ready[r] {
        UnreadyGrows(x, r, n, |x.srcs|);
      }
    }
  }

  /** An instruction that need not be unlinked has no nodes. */
  lemma NoNodesToUnlink(q: Iq, i: nat, r: nat)
    requires Inv(q) && At(q, i) && r < |q.lists| && (!OnLists(q.insts[i]) || !StillInQueue(q.insts[i]))
    ensures CountOf(q.lists[r], q.insts[i].seqNum) == 0
  {
    var x := q.insts[i];
    if OnLists(x) {
      TotalNodesAtLeast(q.lists, x.seqNum, r);
    } else if Tracked(q, r) && !q.ready[r] {
      assert CountOf(q.lists[r], x.seqNum) == NodesDue(x, r);
    }
  }

  /** The lists without one instruction. */
  function ListsWithout(lists: seq<seq<nat>>, s: nat): seq<seq<nat>>
  {
    seq(|lists|, r requires 0 <= r < |lists| => KeepNot(lists[r], s))
  }

  lemma UnlinkIsWithout(q: Iq, i: nat)
    requires Inv(q) && At(q, i) && OnLists(q.insts[i])
    ensures Unlink(q, q.insts[i], |q.insts[i].srcs|) == Fine(ListsWithout(q.lists, q.insts[i].seqNum))
  {
    var x := q.insts[i];
    forall r | 0 <= r < |q.lists| && Tracked(q, r) && !q.ready[r]
      ensures CountOf(q.lists[r], x.seqNum) == Unready(x, r, |x.srcs|)
    {
      assert CountOf(q.lists[r], x.seqNum) == NodesDue(x, r);
    }
    UnlinkFine(q, x, |x.srcs|);
    var w := Unlink(q, x, |x.srcs|);
    forall r | 0 <= r < |q.lists| ensures w.value[r] == KeepNot(q.lists[r], x.seqNum) {
      KeepNotAbsent(w.value[r], x.seqNum);
    }
    assert w.value == ListsWithout(q.lists, x.seqNum);
  }

  lemma WithoutNothing(q: Iq, i: nat)
    requires Inv(q) && At(q, i) && (!OnLists(q.insts[i]) || !StillInQueue(q.insts[i]))
    ensures ListsWithout(q.lists, q.insts[i].seqNum) == q.lists
  {
    forall r | 0 <= r < |q.lists| ensures KeepNot(q.lists[r], q.insts[i].seqNum) == q.lists[r] {
      NoNodesToUnlink(q, i, r);
      KeepNotAbsent(q.lists[r], q.insts[i].seqNum);
    }
  }

  // ---- Destinations -----------------------------------------------------------------------------

  /** Nobody waits for the youngest instruction. */
  lemma YoungestHasNoConsumers(q: Iq, r: nat)
    requires Inv(q) && q.insts != [] && r < |q.lists| && Writes(q, q.insts[|q.insts| - 1], r)
    ensures q.lists[r] == []
  {
    var x := q.insts[|q.insts| - 1];
    var d :| 0 <= d < |x.dests| && x.dests[d] == r;
    forall i | 0 <= i < |q.insts| ensures q.insts[i].seqNum !in q.lists[r] {
      assert x.dests[d] !in q.insts[i].srcs;
      UnreadyElsewhere(q.insts[i], r, |q.insts[i].srcs|);
      CountOfZero(q.lists[r], q.insts[i].seqNum);
      assert Tracked(q, r) && !q.ready[r] ==> CountOf(q.lists[r], q.insts[i].seqNum) == NodesDue(q.insts[i], r);
    }
    assert q.lists[r] != [] ==> Listed(q.insts, q.lists[r][0]);
  }

  function Forgotten(q: Iq, x: Inst, n: nat): seq<Option<nat>>
    requires n <= |x.dests|
  {
    seq(|q.producer|, r requires 0 <= r < |q.producer| => if r in x.dests[..n] && r !in q.fixed then None else q.producer[r])
  }

  lemma {:induction false} ClearProducersFine(q: Iq, x: Inst, n: nat)
    requires WellSized(q) && RegsInRange(q, x) && n <= |x.dests|
    requires forall r | 0 <= r < |q.lists| && Writes(q, x, r) :: q.lists[r] == []
    ensures ClearProducers(q, x, n) == Fine(q.(producer := Forgotten(q, x, n)))
  {
    if n == 0 {
      assert Forgotten(q, x, 0) == q.producer;
    } else {
      ClearProducersFine(q, x, n - 1);
      var r := x.dests[n - 1];
      assert x.dests[..n] == x.dests[..n - 1] + [r];
      assert r !in q.fixed ==> Writes(q, x, r);
      assert Forgotten(q, x, n) == if r in q.fixed then Forgotten(q, x, n - 1) else Forgotten(q, x, n - 1)[r := None];
    }
  }

  // ---- Squashing the youngest instruction -------------------------------------------------------

  /** The queue without its youngest instruction. */
  function WithoutLast(q: Iq): Iq
    requires q.insts != []
  {
    var x := q.insts[|q.insts| - 1];
    var freed := if Holds(x) then 1 else 0;
    q.(insts := q.insts[..|q.insts| - 1], lists := ListsWithout(q.lists, x.seqNum),
       producer := Forgotten(q, x, |x.dests|), freeEntries := q.freeEntries + freed, count := q.count - freed)
  }

  lemma StillMeansHolds(q: Iq, i: nat)
    requires Progress(q) && At(q, i)
    ensures StillInQueue(q.insts[i]) <==> Holds(q.insts[i])
  {
  }

  lemma {:induction false} KeepNotEmpty(s: nat)
    ensures KeepNot([], s) == []
  {
  }

  lemma ClearedAfterUnlink(q: Iq, p: Iq)
    requires Inv(q) && q.insts != []
    requires p == q.(insts := p.insts, lists := p.lists, freeEntries := p.freeEntries, count := p.count)
    requires p.lists == ListsWithout(q.lists, q.insts[|q.insts| - 1].seqNum)
    ensures RegsInRange(p, q.insts[|q.insts| - 1])
    ensures var x := q.insts[|q.insts| - 1];
            ClearProducers(p, x, |x.dests|) == Fine(p.(producer := Forgotten(q, x, |x.dests|)))
  {
    var x := q.insts[|q.insts| - 1];
    forall r | 0 <= r < |p.lists| && Writes(p, x, r) ensures p.lists[r] == [] {
      YoungestHasNoConsumers(q, r);
      KeepNotEmpty(x.seqNum);
    }
    ClearProducersFine(p, x, |x.dests|);
    assert Forgotten(p, x, |x.dests|) == Forgotten(q, x, |x.dests|);
  }

  lemma UnlinkedFine(q: Iq, i: nat)
    requires Inv(q) && At(q, i) && FlagsAgree(q.insts[i].flags) && StillInQueue(q.insts[i])
    ensures Unlinked(q, q.insts[i]) == Fine(ListsWithout(q.lists, q.insts[i].seqNum))
  {
    if OnLists(q.insts[i]) {
      UnlinkIsWithout(q, i);
    } else {
      WithoutNothing(q, i);
    }
  }

  lemma SquashLastFine(q: Iq)
    requires Inv(q) && q.insts != [] && FlagsAgree(q.insts[|q.insts| - 1].flags)
    ensures SquashLast(q) == Fine(WithoutLast(q))
  {
    var last := |q.insts| - 1;
    var x := q.insts[last];
    hide EntriesBalance, ReadyMeansEmpty, NodesOwned, NodesExact, ProducerOlder, SourcesBalance, Progress, FreshDests,
         Forgotten, ListsWithout, ClearProducers, Unlinked, FlagsAgree, RegsInRange;
    StillMeansHolds(q, last);
    hide StillInQueue, Holds;
    if StillInQueue(x) {
      UnlinkedFine(q, last);
      ClearedAfterUnlink(q, q.(insts := q.insts[..last], lists := ListsWithout(q.lists, x.seqNum),
                              freeEntries := q.freeEntries + 1, count := q.count - 1));
    } else {
      WithoutNothing(q, last);
      ClearedAfterUnlink(q, q.(insts := q.insts[..last]));
    }
  }

  lemma WithoutLastShaped(q: Iq)
    requires Shaped(q) && q.insts != [] && FreshDests(q)
    ensures Shaped(WithoutLast(q)) && FreshDests(WithoutLast(q))
  {
    var p := WithoutLast(q);
    assert forall i | 0 <= i < |p.insts| :: p.insts[i] == q.insts[i];
    hide ListsWithout;
  }

  lemma WithoutLastEntries(q: Iq)
    requires EntriesBalance(q) && q.insts != []
    ensures EntriesBalance(WithoutLast(q))
  {
  }

  lemma WithoutLastReady(q: Iq)
    requires Inv(q) && q.insts != []
    ensures ReadyMeansEmpty(WithoutLast(q))
  {
    hide EntriesBalance, NodesExact, NodesOwned;
    KeepNotEmpty(q.insts[|q.insts| - 1].seqNum);
  }

  lemma WithoutLastLists(q: Iq)
    requires Inv(q) && q.insts != []
    ensures ReadyMeansEmpty(WithoutLast(q)) && NodesOwned(WithoutLast(q))
  {
    WithoutLastReady(q);
    hide ReadyMeansEmpty, EntriesBalance, NodesExact;
    var p := WithoutLast(q);
    var x := q.insts[|q.insts| - 1];
    forall r, k | 0 <= r < |p.lists| && 0 <= k < |p.lists[r]| ensures Listed(p.insts, p.lists[r][k]) {
      KeepNotMembers(q.lists[r], x.seqNum);
      var m :| 0 <= m < |q.lists[r]| && q.lists[r][m] == p.lists[r][k];
      assert Listed(q.insts, q.lists[r][m]);
      var i :| 0 <= i < |q.insts| && q.insts[i].seqNum == q.lists[r][m] && OnLists(q.insts[i]);
      assert p.insts[i] == q.insts[i];
    }
  }

  lemma WithoutLastExact(q: Iq)
    requires Shaped(q) && NodesExact(q) && q.insts != [] && Shaped(WithoutLast(q))
    ensures NodesExact(WithoutLast(q))
  {
    var p := WithoutLast(q);
    var x := q.insts[|q.insts| - 1];
    forall i, r | 0 <= i < |p.insts| && 0 <= r < |p.lists| && Tracked(p, r) && !p.ready[r]
      ensures CountOf(p.lists[r], p.insts[i].seqNum) == NodesDue(p.insts[i], r)
    {
      assert Tracked(q, r) && p.insts[i] == q.insts[i];
      KeepNotCounts(q.lists[r], x.seqNum, q.insts[i].seqNum);
    }
  }

  /** A producer that still has consumers is not the youngest instruction, so it survives. */
  lemma WithoutLastProducer(q: Iq)
    requires Inv(q) && q.insts != []
    ensures ProducerOlder(WithoutLast(q))
  {
    var p := WithoutLast(q);
    var last := |q.insts| - 1;
    var x := q.insts[last];
    forall r | 0 <= r < |p.lists| && p.lists[r] != []
      ensures p.producer[r].Some? && WillWrite(p, p.producer[r].value, r)
      ensures forall k | 0 <= k < |p.lists[r]| :: p.producer[r].value < p.lists[r][k]
    {
      KeepNotMembers(q.lists[r], x.seqNum);
      KeepNotEmpty(x.seqNum);
      assert q.lists[r] != [];
      var i := WriterOf(q, q.producer[r].value, r);
      if Writes(q, x, r) {
        YoungestHasNoConsumers(q, r);
      }
      assert i != last && x.dests[..|x.dests|] == x.dests;
      assert p.insts[i] == q.insts[i] && Writes(p, p.insts[i], r);
    }
  }

  lemma WithoutLastBalance(q: Iq)
    requires Shaped(q) && SourcesBalance(q) && Progress(q) && q.insts != []
    ensures SourcesBalance(WithoutLast(q)) && Progress(WithoutLast(q))
  {
    var p := WithoutLast(q);
    var x := q.insts[|q.insts| - 1];
    forall i | 0 <= i < |p.insts| ensures TotalNodes(p.lists, p.insts[i].seqNum) == TotalNodes(q.lists, q.insts[i].seqNum) {
      assert p.insts[i] == q.insts[i];
      forall r | 0 <= r < |q.lists| ensures CountOf(p.lists[r], q.insts[i].seqNum) == CountOf(q.lists[r], q.insts[i].seqNum) {
        KeepNotCounts(q.lists[r], x.seqNum, q.insts[i].seqNum);
      }
      TotalNodesSame(p.lists, q.lists, q.insts[i].seqNum);
    }
    assert forall i | 0 <= i < |p.insts| :: p.insts[i] == q.insts[i];
    hide TotalNodes, ListsWithout;
  }

  lemma WithoutLastKeepsInv(q: Iq)
    requires Inv(q) && q.insts != []
    ensures Inv(WithoutLast(q))
  {
    WithoutLastShaped(q);
    WithoutLastEntries(q);
    WithoutLastLists(q);
    WithoutLastExact(q);
    WithoutLastProducer(q);
    WithoutLastBalance(q);
    hide FreshDests, Shaped, ReadyMeansEmpty, NodesOwned, NodesExact, ProducerOlder, SourcesBalance, EntriesBalance,
         Progress, WithoutLast;
  }

  // ---- The whole walk ---------------------------------------------------------------------------

  predicate AllAgree(q: Iq)
  {
    forall i | 0 <= i < |q.insts| :: FlagsAgree(q.insts[i].flags)
  }

  lemma NodesAreOld(q: Iq, r: nat)
    requires Inv(q) && r < |q.lists|
    ensures q.insts == [] ==> q.lists[r] == []
    ensures q.insts != [] ==> forall k | 0 <= k < |q.lists[r]| :: q.lists[r][k] <= q.insts[|q.insts| - 1].seqNum
  {
    forall k | 0 <= k < |q.lists[r]|
      ensures q.insts != [] && q.lists[r][k] <= q.insts[|q.insts| - 1].seqNum
    {
      assert Listed(q.insts, q.lists[r][k]);
      var i :| 0 <= i < |q.insts| && q.insts[i].seqNum == q.lists[r][k] && OnLists(q.insts[i]);
      assert i <= |q.insts| - 1;
    }
  }

  lemma {:induction false} KeepOlderCount(l: seq<nat>, n: nat, s: nat)
    ensures CountOf(KeepOlder(l, n), s) == if s <= n then CountOf(l, s) else 0
  {
    if l != [] {
      var rest := KeepOlder(l[1..], n);
      KeepOlderCount(l[1..], n, s);
      if l[0] <= n {
        assert KeepOlder(l, n) == [l[0]] + rest && ([l[0]] + rest)[1..] == rest;
      } else {
        assert KeepOlder(l, n) == [] + rest == rest;
      }
    }
  }

  lemma PrefixUpTo(insts: seq<Inst>, k: nat, n: nat)
    requires Ascending(insts) && k <= |insts| && (forall i | k <= i < |insts| :: insts[i].seqNum > n)
    requires k > 0 ==> insts[k - 1].seqNum <= n
    ensures forall x :: x in insts[..k] <==> x in insts && x.seqNum <= n
  {
    assert forall i | 0 <= i < k :: insts[i].seqNum <= n;
    assert insts == insts[..k] + insts[k..];
  }

  lemma SquashedToMeans(q: Iq, p: Iq, n: nat)
    requires Shaped(q) && SquashedTo(q, p, n)
    ensures OnlyOlderLeft(q, p, n)
  {
    hide CutInsts;
    PrefixUpTo(q.insts, |p.insts|, n);
    assert p.insts == q.insts[..|p.insts|];
    forall r, s: nat | 0 <= r < |q.lists|
      ensures CountOf(p.lists[r], s) == if s <= n then CountOf(q.lists[r], s) else 0
    {
      KeepOlderCount(q.lists[r], n, s);
    }
  }

  lemma NothingToSquash(q: Iq, n: nat)
    requires Inv(q) && (q.insts == [] || q.insts[|q.insts| - 1].seqNum <= n)
    ensures SquashedTo(q, q, n)
  {
    forall r | 0 <= r < |q.lists| ensures KeepOlder(q.lists[r], n) == q.lists[r] {
      NodesAreOld(q, r);
      KeepOlderAll(q.lists[r], n);
    }
    hide Inv, KeepOlder;
  }

  /** What is left of the queue without its last instruction is what is left of the queue. */
  lemma SquashedToStep(q: Iq, p: Iq, v: Iq, n: nat)
    requires Shaped(q) && q.insts != [] && q.insts[|q.insts| - 1].seqNum > n && p == WithoutLast(q)
    requires SquashedTo(p, v, n)
    ensures SquashedTo(q, v, n)
  {
    forall r | 0 <= r < |q.lists| ensures KeepOlder(p.lists[r], n) == KeepOlder(q.lists[r], n) {
      KeepOlderAfterKeepNot(q.lists[r], q.insts[|q.insts| - 1].seqNum, n);
    }
    hide KeepOlder;
  }

  lemma WithoutLastAgrees(q: Iq)
    requires Inv(q) && AllAgree(q) && q.insts != []
    ensures AllAgree(WithoutLast(q))
  {
    var p := WithoutLast(q);
    assert forall i | 0 <= i < |p.insts| :: p.insts[i] == q.insts[i];
  }

  /** No assert fires, exactly the instructions younger than `n` are gone from the queue and from every list. */
  lemma {:induction false} SquashWalkSafe(q: Iq, n: nat)
    requires Inv(q) && AllAgree(q)
    ensures var w := SquashWalk(q, n); w.Fine? && Inv(w.value) && AllAgree(w.value) && SquashedTo(q, w.value, n)
    decreases |q.insts|
  {
    if q.insts == [] || q.insts[|q.insts| - 1].seqNum <= n {
      hide AllAgree, SquashedTo;
      NothingToSquash(q, n);
    } else {
      var p := WithoutLast(q);
      SquashLastFine(q);
      WithoutLastKeepsInv(q);
      WithoutLastAgrees(q);
      assert |p.insts| < |q.insts|;
      hide AllAgree, SquashedTo, SquashLast, WithoutLast;
      SquashWalkSafe(p, n);
      SquashedToStep(q, p, SquashWalk(p, n).value, n);
    }
  }
}
