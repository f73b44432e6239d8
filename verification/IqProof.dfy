/** Insertion, issue, wake-up, commit and squash keep the invariant of the instruction queue. */
module IqProof {
  import opened Prelude
  import opened IqState
  import opened IqInvariant

  // ---- Counting nodes ---------------------------------------------------------------------------

  lemma {:induction false} CountOfConcat(a: seq<nat>, b: seq<nat>, s: nat)
    ensures CountOf(a + b, s) == CountOf(a, s) + CountOf(b, s)
  {
    if a == [] {
      assert a + b == b;
    } else {
      assert (a + b)[1..] == a[1..] + b;
      CountOfConcat(a[1..], b, s);
    }
  }

  lemma {:induction false} CountOfCopies(s: nat, n: nat, t: nat)
    ensures CountOf(Copies(s, n), t) == if s == t then n else 0
  {
    if n > 0 {
      assert Copies(s, n)[1..] == Copies(s, n - 1);
      CountOfCopies(s, n - 1, t);
    }
  }

  lemma {:induction false} CountOfZero(l: seq<nat>, s: nat)
    ensures CountOf(l, s) == 0 <==> s !in l
  {
    if l != [] {
      CountOfZero(l[1..], s);
      assert l == [l[0]] + l[1..];
    }
  }

  lemma {:induction false} TotalNodesSame(a: seq<seq<nat>>, b: seq<seq<nat>>, s: nat)
    requires |a| == |b| && forall r | 0 <= r < |a| :: CountOf(a[r], s) == CountOf(b[r], s)
    ensures TotalNodes(a, s) == TotalNodes(b, s)
  {
    if a != [] {
      TotalNodesSame(a[..|a| - 1], b[..|b| - 1], s);
    }
  }

  lemma {:induction false} TotalNodesZero(a: seq<seq<nat>>, s: nat)
    requires forall r | 0 <= r < |a| :: s !in a[r]
    ensures TotalNodes(a, s) == 0
  {
    if a != [] {
      TotalNodesZero(a[..|a| - 1], s);
      CountOfZero(a[|a| - 1], s);
    }
  }

  lemma {:induction false} TotalNodesAtLeast(a: seq<seq<nat>>, s: nat, r: nat)
    requires r < |a|
    ensures CountOf(a[r], s) <= TotalNodes(a, s)
  {
    if r < |a| - 1 {
      TotalNodesAtLeast(a[..|a| - 1], s, r);
    }
  }

  // ---- Insertion --------------------------------------------------------------------------------

  /** Nodes the new instruction gets on the lists below register `m`. */
  function WaitSum(q: Iq, x: Inst, m: nat, n: nat): nat
    requires WellSized(q) && RegsInRange(q, x) && n <= |x.srcs|
  {
    if m == 0 then 0 else WaitSum(q, x, m - 1, n) + WaitCount(q, x, m - 1, n)
  }

  /** Sources among the first `n` that wait. */
  function AllWaits(q: Iq, x: Inst, n: nat): nat
    requires WellSized(q) && RegsInRange(q, x) && n <= |x.srcs|
  {
    if n == 0 then 0 else AllWaits(q, x, n - 1) + if Waits(q, x, n - 1) then 1 else 0
  }

  lemma {:induction false} WaitSumStep(q: Iq, x: Inst, m: nat, n: nat)
    requires WellSized(q) && RegsInRange(q, x) && 0 < n <= |x.srcs|
    ensures WaitSum(q, x, m, n) == WaitSum(q, x, m, n - 1) + if Waits(q, x, n - 1) && x.srcs[n - 1] < m then 1 else 0
  {
    if m > 0 {
      WaitSumStep(q, x, m - 1, n);
    }
  }

  /** Counting the waiting sources register by register, or source by source, is the same. */
  lemma {:induction false} WaitSumIsAllWaits(q: Iq, x: Inst, n: nat)
    requires WellSized(q) && RegsInRange(q, x) && n <= |x.srcs|
    ensures WaitSum(q, x, |q.lists|, n) == AllWaits(q, x, n)
  {
    if n > 0 {
      WaitSumIsAllWaits(q, x, n - 1);
      WaitSumStep(q, x, |q.lists|, n);
    } else {
      WaitSumEmpty(q, x, |q.lists|);
    }
  }

  lemma {:induction false} WaitSumEmpty(q: Iq, x: Inst, m: nat)
    requires WellSized(q) && RegsInRange(q, x)
    ensures WaitSum(q, x, m, 0) == 0
  {
    if m > 0 {
      WaitSumEmpty(q, x, m - 1);
    }
  }

  /** A source is marked ready at rename, found ready at insertion, or waits. */
  lemma {:induction false} SourcesSplit(q: Iq, x: Inst, n: nat)
    requires WellSized(q) && RegsInRange(q, x) && n <= |x.srcs|
    requires forall k | 0 <= k < |x.srcs| :: x.srcs[k] in q.fixed ==> x.readySrc[k]
    ensures MarkedReady(x, n) + LateReady(q, x, n) + AllWaits(q, x, n) == n
  {
    if n > 0 {
      SourcesSplit(q, x, n - 1);
    }
  }

  lemma {:induction false} NodesAdded(q: Iq, x: Inst, m: nat, s: nat)
    requires WellSized(q) && RegsInRange(q, x) && m <= |q.lists|
    ensures TotalNodes(WithDependent(q, x)[..m], s) ==
            TotalNodes(q.lists[..m], s) + if s == x.seqNum then WaitSum(q, x, m, |x.srcs|) else 0
  {
    if m > 0 {
      var a, b := WithDependent(q, x)[..m], q.lists[..m];
      assert a[..m - 1] == WithDependent(q, x)[..m - 1] && b[..m - 1] == q.lists[..m - 1];
      NodesAdded(q, x, m - 1, s);
      var c := Copies(x.seqNum, WaitCount(q, x, m - 1, |x.srcs|));
      CountOfConcat(c, q.lists[m - 1], s);
      CountOfCopies(x.seqNum, WaitCount(q, x, m - 1, |x.srcs|), s);
    }
  }

  lemma NewIsNowhere(q: Iq, s: nat)
    requires NodesOwned(q) && forall i | 0 <= i < |q.insts| :: q.insts[i].seqNum < s
    ensures forall r | 0 <= r < |q.lists| :: s !in q.lists[r]
  {
    forall r, k | 0 <= r < |q.lists| && 0 <= k < |q.lists[r]| ensures q.lists[r][k] < s {
      assert Listed(q.insts, q.lists[r][k]);
    }
  }

  lemma {:induction false} UnreadyIsWaiting(q: Iq, x: Inst, r: nat, n: nat)
    requires WellSized(q) && RegsInRange(q, x) && n <= |x.srcs| && Tracked(q, r) && !q.ready[r]
    ensures Unready(LookedUp(q, x), r, n) == WaitCount(q, x, r, n)
  {
    if n > 0 {
      UnreadyIsWaiting(q, x, r, n - 1);
    }
  }

  lemma {:induction false} UnreadyElsewhere(x: Inst, r: nat, n: nat)
    requires |x.readySrc| == |x.srcs| && n <= |x.srcs| && r !in x.srcs
    ensures Unready(x, r, n) == 0
  {
    if n > 0 {
      UnreadyElsewhere(x, r, n - 1);
    }
  }

  lemma ListedExtends(a: seq<Inst>, b: seq<Inst>, s: nat)
    requires Listed(a, s) && |a| <= |b|
    requires forall i | 0 <= i < |a| :: b[i].seqNum == a[i].seqNum && b[i].flags == a[i].flags
    ensures Listed(b, s)
  {
    var i :| 0 <= i < |a| && a[i].seqNum == s && OnLists(a[i]);
    assert b[i].seqNum == s;
  }

  lemma InsertShaped(q: Iq, x: Inst)
    requires Shaped(q) && MayInsert(q, x)
    ensures Shaped(Insert(q, x))
  {
    hide WaitCount, LateReady;
  }

  lemma InsertEntries(q: Iq, x: Inst)
    requires Shaped(q) && EntriesBalance(q) && MayInsert(q, x)
    ensures EntriesBalance(Insert(q, x))
  {
    var p := Insert(q, x);
    assert p.insts[..|p.insts| - 1] == q.insts;
    hide WaitCount, LateReady, WithDependent;
  }

  /** What insertion puts on each list. */
  lemma InsertLists(q: Iq, x: Inst, r: nat)
    requires Shaped(q) && MayInsert(q, x) && r < |q.lists|
    ensures var p := Insert(q, x);
            var added := if OnLists(x) then Copies(x.seqNum, WaitCount(q, x, r, |x.srcs|)) else [];
            p.lists[r] == added + q.lists[r] && |p.lists| == |q.lists|
  {
    hide LateReady, WaitCount;
  }

  lemma {:induction false} WaitCountZero(q: Iq, x: Inst, r: nat, n: nat)
    requires WellSized(q) && RegsInRange(q, x) && n <= |x.srcs| && r < |q.lists|
    requires q.ready[r] || r in q.fixed || r !in x.srcs
    ensures WaitCount(q, x, r, n) == 0
  {
    if n > 0 {
      WaitCountZero(q, x, r, n - 1);
    }
  }

  /** Nobody waits for a register that is about to get a new producer. */
  lemma FreshListEmpty(q: Iq, x: Inst, r: nat)
    requires Shaped(q) && ReadyMeansEmpty(q) && NodesOwned(q) && NodesExact(q) && NewDests(q, x)
    requires r < |q.lists| && Writes(q, x, r)
    ensures q.lists[r] == []
  {
    forall i | 0 <= i < |q.insts| ensures q.insts[i].seqNum !in q.lists[r] {
      CountOfZero(q.lists[r], q.insts[i].seqNum);
      UnreadyElsewhere(q.insts[i], r, |q.insts[i].srcs|);
      assert !q.ready[r] ==> CountOf(q.lists[r], q.insts[i].seqNum) == NodesDue(q.insts[i], r);
    }
    assert q.lists[r] != [] ==> Listed(q.insts, q.lists[r][0]);
  }

  lemma InsertReadyEmpty(q: Iq, x: Inst)
    requires Shaped(q) && ReadyMeansEmpty(q) && MayInsert(q, x)
    ensures ReadyMeansEmpty(Insert(q, x))
  {
    var p := Insert(q, x);
    forall r | 0 <= r < |p.lists| && (p.ready[r] || r in p.fixed) ensures p.lists[r] == [] {
      InsertLists(q, x, r);
      WaitCountZero(q, x, r, |x.srcs|);
    }
  }

  lemma InsertOwned(q: Iq, x: Inst)
    requires Shaped(q) && NodesOwned(q) && MayInsert(q, x)
    ensures NodesOwned(Insert(q, x))
  {
    var p := Insert(q, x);
    forall r, k | 0 <= r < |p.lists| && 0 <= k < |p.lists[r]| ensures Listed(p.insts, p.lists[r][k]) {
      InsertLists(q, x, r);
      var c := |p.lists[r]| - |q.lists[r]|;
      if k < c {
        assert p.insts[|q.insts|].seqNum == p.lists[r][k];
      } else {
        assert p.lists[r][k] == q.lists[r][k - c];
        ListedExtends(q.insts, p.insts, q.lists[r][k - c]);
      }
    }
  }

  lemma InsertExact(q: Iq, x: Inst)
    requires Shaped(q) && NodesOwned(q) && NodesExact(q) && ReadyMeansEmpty(q) && MayInsert(q, x)
    requires Shaped(Insert(q, x))
    ensures NodesExact(Insert(q, x))
  {
    var p := Insert(q, x);
    NewIsNowhere(q, x.seqNum);
    forall i, r | 0 <= i < |p.insts| && 0 <= r < |p.lists| && Tracked(p, r) && !p.ready[r]
      ensures CountOf(p.lists[r], p.insts[i].seqNum) == NodesDue(p.insts[i], r)
    {
      InsertLists(q, x, r);
      CountOfConcat(Copies(x.seqNum, WaitCount(q, x, r, |x.srcs|)), q.lists[r], p.insts[i].seqNum);
      CountOfCopies(x.seqNum, WaitCount(q, x, r, |x.srcs|), p.insts[i].seqNum);
      CountOfZero(q.lists[r], x.seqNum);
      if Writes(q, x, r) {
        FreshListEmpty(q, x, r);
        WaitCountZero(q, x, r, |x.srcs|);
        UnreadyElsewhere(p.insts[i], r, |p.insts[i].srcs|);
      } else if i == |q.insts| {
        UnreadyIsWaiting(q, x, r, |x.srcs|);
      }
    }
  }

  lemma InsertProducer(q: Iq, x: Inst)
    requires Shaped(q) && NodesOwned(q) && NodesExact(q) && ReadyMeansEmpty(q) && ProducerOlder(q) && MayInsert(q, x)
    requires Shaped(Insert(q, x))
    ensures ProducerOlder(Insert(q, x))
  {
    var p := Insert(q, x);
    forall r | 0 <= r < |p.lists| && p.lists[r] != []
      ensures p.producer[r].Some? && WillWrite(p, p.producer[r].value, r)
      ensures forall k | 0 <= k < |p.lists[r]| :: p.producer[r].value < p.lists[r][k]
    {
      InsertLists(q, x, r);
      if Writes(q, x, r) {
        FreshListEmpty(q, x, r);
        WaitCountZero(q, x, r, |x.srcs|);
        assert false;
      }
      var c := WaitCount(q, x, r, |x.srcs|);
      if OnLists(x) && c > 0 {
        var k := SomeWait(q, x, r, |x.srcs|);
      }
      var i := WriterOf(q, q.producer[r].value, r);
      assert p.insts[i] == q.insts[i] && Writes(p, p.insts[i], r);
      WaitingAreYounger(q, x, r);
    }
  }

  lemma WriterOf(q: Iq, s: nat, r: nat) returns (i: nat)
    requires WillWrite(q, s, r)
    ensures i < |q.insts| && q.insts[i].seqNum == s && Writes(q, q.insts[i], r) && !q.insts[i].woken
  {
    i :| 0 <= i < |q.insts| && q.insts[i].seqNum == s && Writes(q, q.insts[i], r) && !q.insts[i].woken;
  }

  lemma {:induction false} SomeWait(q: Iq, x: Inst, r: nat, n: nat) returns (k: nat)
    requires WellSized(q) && RegsInRange(q, x) && n <= |x.srcs| && WaitCount(q, x, r, n) > 0
    ensures k < n && Waits(q, x, k) && x.srcs[k] == r
  {
    if Waits(q, x, n - 1) && x.srcs[n - 1] == r {
      k := n - 1;
    } else {
      k := SomeWait(q, x, r, n - 1);
    }
  }

  /** Whoever is on a list after the insertion is younger than the register's queued producer. */
  lemma WaitingAreYounger(q: Iq, x: Inst, r: nat)
    requires Shaped(q) && ProducerOlder(q) && MayInsert(q, x) && r < |q.lists|
    requires q.producer[r].Some? && WillWrite(q, q.producer[r].value, r)
    ensures forall k | 0 <= k < |Insert(q, x).lists[r]| :: q.producer[r].value < Insert(q, x).lists[r][k]
  {
    InsertLists(q, x, r);
    var i := WriterOf(q, q.producer[r].value, r);
    hide Insert, WaitCount;
  }

  lemma InsertBalance(q: Iq, x: Inst)
    requires Shaped(q) && NodesOwned(q) && SourcesBalance(q) && MayInsert(q, x)
    ensures SourcesBalance(Insert(q, x))
  {
    var p := Insert(q, x);
    NewIsNowhere(q, x.seqNum);
    assert q.lists[..|q.lists|] == q.lists;
    forall i | 0 <= i < |p.insts| && OnLists(p.insts[i])
      ensures p.insts[i].readyRegs + TotalNodes(p.lists, p.insts[i].seqNum) == |p.insts[i].srcs|
    {
      if OnLists(x) {
        assert WithDependent(q, x)[..|q.lists|] == p.lists;
        NodesAdded(q, x, |q.lists|, p.insts[i].seqNum);
        if i == |q.insts| {
          TotalNodesZero(q.lists, x.seqNum);
          WaitSumIsAllWaits(q, x, |x.srcs|);
          SourcesSplit(q, x, |x.srcs|);
        }
      }
    }
  }

  lemma InsertProgress(q: Iq, x: Inst)
    requires Shaped(q) && Progress(q) && MayInsert(q, x)
    ensures Progress(Insert(q, x))
  {
    hide WithDependent, LateReady;
  }

  lemma InsertFreshDests(q: Iq, x: Inst)
    requires Shaped(q) && FreshDests(q) && MayInsert(q, x)
    ensures FreshDests(Insert(q, x))
  {
    var p := Insert(q, x);
    assert forall i | 0 <= i < |p.insts| ::
        var y := if i < |q.insts| then q.insts[i] else x; p.insts[i].srcs == y.srcs && p.insts[i].dests == y.dests;
    hide Insert;
  }

  lemma InsertKeepsInv(q: Iq, x: Inst)
    requires Inv(q) && MayInsert(q, x)
    ensures Inv(Insert(q, x))
  {
    InsertShaped(q, x);
    InsertEntries(q, x);
    InsertReadyEmpty(q, x);
    InsertOwned(q, x);
    InsertExact(q, x);
    InsertProducer(q, x);
    InsertBalance(q, x);
    InsertProgress(q, x);
    InsertFreshDests(q, x);
    hide FreshDests, Shaped, EntriesBalance, ReadyMeansEmpty, NodesOwned, NodesExact, ProducerOlder, SourcesBalance, Progress, Insert;
  }

  lemma RecordProducer(q: Iq, x: Inst)
    requires Shaped(q) && ReadyMeansEmpty(q) && NodesOwned(q) && NodesExact(q) && ProducerOlder(q) && MayRecord(q, x)
    ensures var p := AddProducer(q, x); Shaped(p) && ReadyMeansEmpty(p) && NodesOwned(p) && ProducerOlder(p)
  {
    var p := AddProducer(q, x);
    forall r | 0 <= r < |p.lists| && p.lists[r] != []
      ensures p.producer[r] == q.producer[r] && p.producer[r].Some? && WillWrite(p, p.producer[r].value, r)
    {
      if Writes(q, x, r) {
        FreshListEmpty(q, x, r);
        assert false;
      }
      var i := WriterOf(q, q.producer[r].value, r);
      assert p.insts[i] == q.insts[i] && Writes(p, p.insts[i], r);
    }
  }

  lemma RecordExact(q: Iq, x: Inst)
    requires Shaped(q) && ReadyMeansEmpty(q) && NodesOwned(q) && NodesExact(q) && MayRecord(q, x)
    requires Shaped(AddProducer(q, x))
    ensures NodesExact(AddProducer(q, x))
  {
    var p := AddProducer(q, x);
    forall i, r | 0 <= i < |p.insts| && 0 <= r < |p.lists| && Tracked(p, r) && !p.ready[r]
      ensures CountOf(p.lists[r], p.insts[i].seqNum) == NodesDue(p.insts[i], r)
    {
      if Writes(q, x, r) {
        FreshListEmpty(q, x, r);
        UnreadyElsewhere(p.insts[i], r, |p.insts[i].srcs|);
      }
    }
  }

  /** Recording a nop keeps the invariants; it changes nothing but producers and scoreboard bits. */
  lemma RecordKeepsInv(q: Iq, x: Inst)
    requires Inv(q) && MayRecord(q, x)
    ensures Inv(AddProducer(q, x))
  {
    RecordProducer(q, x);
    RecordExact(q, x);
    RecordFrame(q, x);
    hide Shaped, ReadyMeansEmpty, NodesOwned, NodesExact, ProducerOlder, AddProducer;
  }

  lemma RecordFrame(q: Iq, x: Inst)
    requires WellSized(q)
    ensures var p := AddProducer(q, x);
            p.insts == q.insts && p.lists == q.lists && p.fixed == q.fixed && p.numEntries == q.numEntries
            && p.freeEntries == q.freeEntries && p.count == q.count
  {
  }

  /** The source's panic: no register that a new instruction will write has waiting consumers. */
  lemma NewProducerFindsEmptyLists(q: Iq, x: Inst)
    requires Inv(q) && MayInsert(q, x)
    ensures forall k | 0 <= k < |x.dests| && x.dests[k] !in q.fixed :: WithDependent(q, x)[x.dests[k]] == []
  {
    forall k | 0 <= k < |x.dests| && x.dests[k] !in q.fixed ensures WithDependent(q, x)[x.dests[k]] == [] {
      FreshListEmpty(q, x, x.dests[k]);
      WaitCountZero(q, x, x.dests[k], |x.srcs|);
    }
  }

  // ---- What the look-up of sources counts -------------------------------------------------------

  lemma {:induction false} LateReadyCounts(q: Iq, x: Inst, n: nat)
    requires WellSized(q) && RegsInRange(q, x) && n <= |x.srcs|
    ensures MarkedReady(LookedUp(q, x), n) == MarkedReady(x, n) + LateReady(q, x, n)
  {
    if n > 0 {
      LateReadyCounts(q, x, n - 1);
    }
  }

  /** The count of ready sources an instruction is queued with is the number of its ready bits. */
  lemma LookedUpCountsBits(q: Iq, x: Inst)
    requires WellSized(q) && RegsInRange(q, x) && x.readyRegs == MarkedReady(x, |x.srcs|)
    ensures var y := LookedUp(q, x); y.readyRegs == MarkedReady(y, |y.srcs|)
  {
    LateReadyCounts(q, x, |x.srcs|);
  }
}
