/** Issue, wake-up, commit and squash keep the invariant of the instruction queue. */
module IqSteps {
  import opened Prelude
  import opened IqState
  import opened IqInvariant
  import opened IqProof

  // ---- Entries ----------------------------------------------------------------------------------

  lemma {:induction false} HoldCountUpdate(a: seq<Inst>, i: nat, x: Inst)
    requires i < |a|
    ensures HoldCount(a[i := x]) == HoldCount(a) + (if Holds(x) then 1 else 0) - (if Holds(a[i]) then 1 else 0)
  {
    if i < |a| - 1 {
      assert a[i := x][..|a| - 1] == a[..|a| - 1][i := x];
      HoldCountUpdate(a[..|a| - 1], i, x);
    } else {
      assert a[i := x][..|a| - 1] == a[..|a| - 1];
    }
  }

  lemma {:induction false} HoldCountSame(a: seq<Inst>, b: seq<Inst>)
    requires |a| == |b| && forall i | 0 <= i < |a| :: Holds(a[i]) == Holds(b[i])
    ensures HoldCount(a) == HoldCount(b)
  {
    if a != [] {
      HoldCountSame(a[..|a| - 1], b[..|b| - 1]);
    }
  }

  lemma {:induction false} HoldCountSuffix(a: seq<Inst>, k: nat)
    requires k <= |a| && forall i | 0 <= i < k :: !Holds(a[i])
    ensures HoldCount(a) == HoldCount(a[k..])
  {
    if k == |a| {
      HoldCountNone(a);
    } else {
      assert a[k..][..|a[k..]| - 1] == a[..|a| - 1][k..];
      HoldCountSuffix(a[..|a| - 1], k);
    }
  }

  lemma {:induction false} HoldCountNone(a: seq<Inst>)
    requires forall i | 0 <= i < |a| :: !Holds(a[i])
    ensures HoldCount(a) == 0
  {
    if a != [] {
      HoldCountNone(a[..|a| - 1]);
    }
  }

  lemma FreshDestsFrom(q: Iq, p: Iq)
    requires FreshDests(q) && p.fixed == q.fixed && |p.insts| <= |q.insts|
    requires forall j | 0 <= j < |p.insts| ::
               var y := q.insts[|q.insts| - |p.insts| + j]; p.insts[j].srcs == y.srcs && p.insts[j].dests == y.dests
    ensures FreshDests(p)
  {
  }

  // ---- Issue and reschedule ---------------------------------------------------------------------

  lemma {:induction false} UnreadySame(x: Inst, y: Inst, r: nat, n: nat)
    requires |x.readySrc| == |x.srcs| && n <= |x.srcs| && y.srcs == x.srcs && y.readySrc == x.readySrc
    ensures Unready(x, r, n) == Unready(y, r, n)
  {
    if n > 0 {
      UnreadySame(x, y, r, n - 1);
    }
  }

  /** The two states differ in issued bits and entry counts only. */
  predicate SameButIssued(q: Iq, p: Iq)
  {
    && p == q.(insts := p.insts, freeEntries := p.freeEntries, count := p.count) && |p.insts| == |q.insts|
    && (forall j | 0 <= j < |q.insts| :: p.insts[j] == q.insts[j].(issued := p.insts[j].issued))
  }

  lemma IssuedBitShaped(q: Iq, p: Iq)
    requires Shaped(q) && SameButIssued(q, p)
    ensures Shaped(p)
  {
  }

  lemma IssuedBitLists(q: Iq, p: Iq)
    requires Shaped(q) && SameButIssued(q, p) && ReadyMeansEmpty(q) && NodesOwned(q) && ProducerOlder(q)
    ensures ReadyMeansEmpty(p) && NodesOwned(p) && ProducerOlder(p)
  {
    forall r, k | 0 <= r < |p.lists| && 0 <= k < |p.lists[r]| ensures Listed(p.insts, p.lists[r][k]) {
      ListedExtends(q.insts, p.insts, q.lists[r][k]);
    }
    forall r | 0 <= r < |p.lists| && p.lists[r] != [] ensures WillWrite(p, p.producer[r].value, r) {
      var j := WriterOf(q, q.producer[r].value, r);
      assert p.insts[j].seqNum == q.insts[j].seqNum && Writes(p, p.insts[j], r);
    }
  }

  lemma IssuedBitCounts(q: Iq, p: Iq)
    requires Shaped(q) && Shaped(p) && SameButIssued(q, p) && NodesExact(q) && SourcesBalance(q)
    ensures NodesExact(p) && SourcesBalance(p)
  {
    forall i, r | 0 <= i < |p.insts| && 0 <= r < |p.lists| && Tracked(p, r) && !p.ready[r]
      ensures CountOf(p.lists[r], p.insts[i].seqNum) == NodesDue(p.insts[i], r)
    {
      assert Tracked(q, r);
      UnreadySame(q.insts[i], p.insts[i], r, |q.insts[i].srcs|);
    }
  }

  lemma IssuedBitIsFree(q: Iq, p: Iq)
    requires Inv(q) && SameButIssued(q, p)
    ensures Shaped(p) && ReadyMeansEmpty(p) && NodesOwned(p) && NodesExact(p) && ProducerOlder(p) && SourcesBalance(p)
    ensures FreshDests(p)
  {
    FreshDestsFrom(q, p);
    hide Shaped, ReadyMeansEmpty, NodesOwned, NodesExact, ProducerOlder, SourcesBalance, EntriesBalance, Progress, SameButIssued;
    IssuedBitShaped(q, p);
    IssuedBitLists(q, p);
    IssuedBitCounts(q, p);
  }

  lemma IssueKeepsInv(q: Iq, i: nat)
    requires Inv(q) && Guard(q, IssueInst(i))
    ensures Inv(Issue(q, i))
  {
    var p := Issue(q, i);
    IssuedBitIsFree(q, p);
    HoldCountUpdate(q.insts, i, q.insts[i].(issued := true));
    assert EntriesBalance(p) && Progress(p);
    hide FreshDests, Shaped, ReadyMeansEmpty, NodesOwned, NodesExact, ProducerOlder, SourcesBalance, EntriesBalance, Progress;
  }

  lemma RescheduleKeepsInv(q: Iq, i: nat)
    requires Inv(q) && Guard(q, RescheduleInst(i))
    ensures Inv(Reschedule(q, i))
  {
    var p := Reschedule(q, i);
    IssuedBitIsFree(q, p);
    HoldCountUpdate(q.insts, i, q.insts[i].(issued := false));
    assert EntriesBalance(p) && Progress(p);
    hide FreshDests, Shaped, ReadyMeansEmpty, NodesOwned, NodesExact, ProducerOlder, SourcesBalance, EntriesBalance, Progress;
  }

  // ---- Wake-up ----------------------------------------------------------------------------------

  lemma {:induction false} WakeMovesNodes(q: Iq, x: Inst, lists: seq<seq<nat>>, s: nat, m: nat)
    requires |lists| == |q.lists| && m <= |lists|
    requires forall r | 0 <= r < |lists| :: lists[r] == if Writes(q, x, r) then [] else q.lists[r]
    ensures TotalNodes(q.lists[..m], s) == TotalNodes(lists[..m], s) + WokenNodes(q, x, s, m)
  {
    if m > 0 {
      assert q.lists[..m][..m - 1] == q.lists[..m - 1] && lists[..m][..m - 1] == lists[..m - 1];
      WakeMovesNodes(q, x, lists, s, m - 1);
    }
  }

  /** All nodes that leave the lists at a wake-up become ready sources. */
  lemma WakeNodes(q: Iq, i: nat, s: nat)
    requires At(q, i) && WellSized(q)
    ensures TotalNodes(q.lists, s) == TotalNodes(Wake(q, i).lists, s) + WokenNodes(q, q.insts[i], s, |q.lists|)
  {
    var lists := Wake(q, i).lists;
    assert q.lists[..|q.lists|] == q.lists && lists[..|q.lists|] == lists;
    WakeMovesNodes(q, q.insts[i], lists, s, |q.lists|);
  }

  lemma WakeShaped(q: Iq, i: nat)
    requires Shaped(q) && At(q, i)
    ensures Shaped(Wake(q, i))
  {
    hide WokenNodes;
  }

  lemma WakeEntries(q: Iq, i: nat)
    requires Shaped(q) && EntriesBalance(q) && Progress(q) && Guard(q, WakeInst(i))
    ensures EntriesBalance(Wake(q, i))
  {
    hide WokenNodes;
    var p := Wake(q, i);
    var x := q.insts[i];
    var y := x.(memDone := x.memDone || IsMemRef(x.flags));
    HoldCountUpdate(q.insts, i, y);
    HoldCountSame(p.insts, q.insts[i := y]);
  }

  lemma WakeLists(q: Iq, i: nat)
    requires Shaped(q) && At(q, i) && ReadyMeansEmpty(q) && NodesOwned(q)
    ensures ReadyMeansEmpty(Wake(q, i)) && NodesOwned(Wake(q, i))
  {
    hide WokenNodes;
    var p := Wake(q, i);
    forall r, k | 0 <= r < |p.lists| && 0 <= k < |p.lists[r]| ensures Listed(p.insts, p.lists[r][k]) {
      ListedExtends(q.insts, p.insts, q.lists[r][k]);
    }
  }

  lemma WakeExact(q: Iq, i: nat)
    requires Shaped(q) && At(q, i) && NodesExact(q) && Shaped(Wake(q, i))
    ensures NodesExact(Wake(q, i))
  {
    hide WokenNodes;
    var p := Wake(q, i);
    forall j, r | 0 <= j < |p.insts| && 0 <= r < |p.lists| && Tracked(p, r) && !p.ready[r]
      ensures CountOf(p.lists[r], p.insts[j].seqNum) == NodesDue(p.insts[j], r)
    {
      UnreadySame(q.insts[j], p.insts[j], r, |q.insts[j].srcs|);
      assert Tracked(q, r) && !q.ready[r];
    }
  }

  lemma WakeProducer(q: Iq, i: nat)
    requires Shaped(q) && At(q, i) && ProducerOlder(q)
    ensures ProducerOlder(Wake(q, i))
  {
    hide WokenNodes;
    var p := Wake(q, i);
    forall r | 0 <= r < |p.lists| && p.lists[r] != []
      ensures p.producer[r].Some? && WillWrite(p, p.producer[r].value, r)
    {
      var j := WriterOf(q, q.producer[r].value, r);
      assert p.insts[j].seqNum == q.insts[j].seqNum && Writes(p, p.insts[j], r) && !p.insts[j].woken;
    }
  }

  lemma WakeBalance(q: Iq, i: nat)
    requires Shaped(q) && At(q, i) && SourcesBalance(q)
    ensures SourcesBalance(Wake(q, i))
  {
    var p := Wake(q, i);
    forall j | 0 <= j < |p.insts| && OnLists(p.insts[j])
      ensures p.insts[j].readyRegs + TotalNodes(p.lists, p.insts[j].seqNum) == |p.insts[j].srcs|
    {
      WakeNodes(q, i, q.insts[j].seqNum);
    }
  }

  lemma WakeProgress(q: Iq, i: nat)
    requires Shaped(q) && Guard(q, WakeInst(i)) && Progress(q) && SourcesBalance(q)
    ensures Progress(Wake(q, i))
  {
    var p := Wake(q, i);
    forall j | 0 <= j < |q.insts| && q.insts[j].issued && OnLists(q.insts[j])
      ensures p.insts[j].readyRegs == q.insts[j].readyRegs
    {
      WakeNodes(q, i, q.insts[j].seqNum);
    }
    hide WokenNodes, TotalNodes;
  }

  lemma WakeKeepsInv(q: Iq, i: nat)
    requires Inv(q) && Guard(q, WakeInst(i))
    ensures Inv(Wake(q, i))
  {
    WakeShaped(q, i);
    WakeEntries(q, i);
    WakeLists(q, i);
    WakeExact(q, i);
    WakeProducer(q, i);
    WakeBalance(q, i);
    WakeProgress(q, i);
    FreshDestsFrom(q, Wake(q, i));
    hide FreshDests, Shaped, ReadyMeansEmpty, NodesOwned, NodesExact, ProducerOlder, SourcesBalance, EntriesBalance, Progress, Wake;
  }

  // ---- Commit -----------------------------------------------------------------------------------

  /** A committed instruction has no nodes and is nobody's producer any more. */
  lemma WokenHasNoNodes(q: Iq, i: nat, r: nat)
    requires Inv(q) && At(q, i) && q.insts[i].woken && r < |q.lists|
    ensures q.insts[i].seqNum !in q.lists[r]
  {
    var x := q.insts[i];
    if OnLists(x) {
      TotalNodesAtLeast(q.lists, x.seqNum, r);
      CountOfZero(q.lists[r], x.seqNum);
    } else {
      forall k | 0 <= k < |q.lists[r]| ensures q.lists[r][k] != x.seqNum {
        assert Listed(q.insts, q.lists[r][k]);
        var j :| 0 <= j < |q.insts| && q.insts[j].seqNum == q.lists[r][k] && OnLists(q.insts[j]);
        assert j < i || i < j;
      }
    }
  }

  lemma CommitSuffix(q: Iq, n: nat)
    ensures var p := Commit(q, n);
            var d := |q.insts| - |p.insts|;
            && p == q.(insts := p.insts) && 0 <= d
            && (forall j | 0 <= j < |p.insts| :: p.insts[j] == q.insts[d + j])
            && (forall k | 0 <= k < d :: q.insts[k].seqNum <= n)
  {
    hide DropUpTo;
  }

  lemma SuffixFrom(insts: seq<Inst>, d: nat, n: nat)
    requires Ascending(insts) && d <= |insts| && (forall k | 0 <= k < d :: insts[k].seqNum <= n)
    requires d < |insts| ==> insts[d].seqNum > n
    ensures forall x :: x in insts[d..] <==> x in insts && x.seqNum > n
  {
    assert forall k | d <= k < |insts| :: insts[k].seqNum > n;
    assert insts == insts[..d] + insts[d..];
  }

  /** Of a queue in program order, commit leaves exactly the instructions younger than `n`. */
  lemma CommitLeavesYounger(q: Iq, n: nat)
    requires Ascending(q.insts)
    ensures forall x :: x in Commit(q, n).insts <==> x in q.insts && x.seqNum > n
  {
    var kept := DropUpTo(q.insts, n);
    hide DropUpTo, Ascending;
    assert kept == q.insts[|q.insts| - |kept|..];
    assert kept != [] ==> kept[0] == q.insts[|q.insts| - |kept|];
    SuffixFrom(q.insts, |q.insts| - |kept|, n);
  }

  lemma CommitShaped(q: Iq, n: nat)
    requires Shaped(q)
    ensures Shaped(Commit(q, n))
  {
    CommitSuffix(q, n);
    hide Commit;
  }

  lemma CommitEntries(q: Iq, n: nat)
    requires Shaped(q) && EntriesBalance(q) && Progress(q) && Guard(q, CommitTo(n))
    ensures EntriesBalance(Commit(q, n))
  {
    CommitSuffix(q, n);
    hide Commit;
    var p := Commit(q, n);
    var d := |q.insts| - |p.insts|;
    assert q.insts[d..] == p.insts;
    HoldCountSuffix(q.insts, d);
  }

  lemma OwnerSurvives(q: Iq, n: nat, r: nat, k: nat) returns (i: nat)
    requires Inv(q) && Guard(q, CommitTo(n)) && r < |q.lists| && k < |q.lists[r]|
    ensures i < |q.insts| && q.insts[i].seqNum == q.lists[r][k] && OnLists(q.insts[i]) && n < q.insts[i].seqNum
  {
    assert Listed(q.insts, q.lists[r][k]);
    i :| 0 <= i < |q.insts| && q.insts[i].seqNum == q.lists[r][k] && OnLists(q.insts[i]);
    if q.insts[i].woken {
      WokenHasNoNodes(q, i, r);
    }
  }

  lemma CommitOwned(q: Iq, n: nat)
    requires Inv(q) && Guard(q, CommitTo(n))
    ensures NodesOwned(Commit(q, n))
  {
    CommitSuffix(q, n);
    hide Commit, Inv, Shaped;
    var p := Commit(q, n);
    var d := |q.insts| - |p.insts|;
    forall r, k | 0 <= r < |p.lists| && 0 <= k < |p.lists[r]| ensures Listed(p.insts, p.lists[r][k]) {
      var i := OwnerSurvives(q, n, r, k);
      assert p.insts[i - d] == q.insts[i];
    }
  }

  lemma CommitProducer(q: Iq, n: nat)
    requires Shaped(q) && ProducerOlder(q) && Guard(q, CommitTo(n))
    ensures ProducerOlder(Commit(q, n))
  {
    CommitSuffix(q, n);
    hide Commit;
    var p := Commit(q, n);
    var d := |q.insts| - |p.insts|;
    forall r | 0 <= r < |p.lists| && p.lists[r] != [] ensures WillWrite(p, p.producer[r].value, r) {
      var i := WriterOf(q, q.producer[r].value, r);
      assert d <= i;
      assert p.insts[i - d] == q.insts[i] && Writes(p, p.insts[i - d], r);
    }
  }

  lemma CommitRest(q: Iq, n: nat)
    requires Shaped(q) && NodesExact(q) && SourcesBalance(q) && Progress(q) && ReadyMeansEmpty(q) && Shaped(Commit(q, n))
    ensures var p := Commit(q, n); NodesExact(p) && SourcesBalance(p) && Progress(p) && ReadyMeansEmpty(p)
  {
    CommitSuffix(q, n);
    hide Commit;
    var p := Commit(q, n);
    var d := |q.insts| - |p.insts|;
    forall i, r | 0 <= i < |p.insts| && 0 <= r < |p.lists| && Tracked(p, r) && !p.ready[r]
      ensures CountOf(p.lists[r], p.insts[i].seqNum) == NodesDue(p.insts[i], r)
    {
      assert p.insts[i] == q.insts[d + i] && Tracked(q, r);
    }
  }

  lemma CommitFresh(q: Iq, n: nat)
    requires FreshDests(q)
    ensures FreshDests(Commit(q, n))
  {
    hide FreshDests, Commit;
    CommitSuffix(q, n);
    FreshDestsFrom(q, Commit(q, n));
  }

  lemma CommitKeepsInv(q: Iq, n: nat)
    requires Inv(q) && Guard(q, CommitTo(n))
    ensures Inv(Commit(q, n))
  {
    hide Shaped, ReadyMeansEmpty, NodesOwned, NodesExact, ProducerOlder, SourcesBalance, EntriesBalance, Progress, FreshDests,
         Commit;
    CommitShaped(q, n);
    CommitEntries(q, n);
    CommitOwned(q, n);
    CommitProducer(q, n);
    CommitRest(q, n);
    CommitFresh(q, n);
  }
}
