/** Scheduling as it runs: pick ready instructions oldest first while bandwidth and functional units last. */
module IssueQueue {
  import opened Prelude
  import FuPool
  import opened FuPoolUnit
  import opened IssueOrder

  // ---- Facts the loops need ---------------------------------------------------------------------

  /** All ready instructions, of whatever class. */
  function Total(queues: seq<seq<nat>>): multiset<nat>
  {
    if queues == [] then multiset{} else Total(queues[..|queues| - 1]) + multiset(queues[|queues| - 1])
  }

  lemma {:induction false} TotalPop(queues: seq<seq<nat>>, c: nat)
    requires c < |queues| && queues[c] != []
    ensures Total(queues) == Total(queues[c := queues[c][1..]]) + multiset{queues[c][0]}
  {
    var after := queues[c := queues[c][1..]];
    if c < |queues| - 1 {
      assert after[..|queues| - 1] == queues[..|queues| - 1][c := queues[c][1..]];
      TotalPop(queues[..|queues| - 1], c);
    } else {
      assert after[..|queues| - 1] == queues[..|queues| - 1];
      assert queues[c] == [queues[c][0]] + queues[c][1..];
    }
  }

  lemma {:induction false} TotalPush(queues: seq<seq<nat>>, c: nat, s: nat)
    requires c < |queues|
    ensures Total(queues[c := Push(queues[c], s)]) == Total(queues) + multiset{s}
  {
    var after := queues[c := Push(queues[c], s)];
    PushAdds(queues[c], s);
    if c < |queues| - 1 {
      assert after[..|queues| - 1] == queues[..|queues| - 1][c := Push(queues[c], s)];
      TotalPush(queues[..|queues| - 1], c, s);
    } else {
      assert after[..|queues| - 1] == queues[..|queues| - 1];
    }
  }

  /** Every unit able to perform the operation is busy. */
  predicate AllBusy(p: FuPool.Pool, c: nat)
  {
    c < |p.queues| && forall u | u in p.queues[c] :: FuPool.IsBusy(p.busy, u)
  }

  predicate NoneTwice(p: FuPool.Pool)
  {
    forall c | 0 <= c < |p.queues| :: FuPool.NoDuplicates(p.queues[c])
  }

  /** A request leaves the units of every class in place and frees none. */
  lemma BusyStays(p: FuPool.Pool, op: nat, hold: bool, c: nat)
    requires FuPool.Inv(p) && op < |p.queues|
    ensures AllBusy(p, c) ==> AllBusy(FuPool.Next(p, FuPool.Request(op, hold)), c)
  {
    var s := p.queues[op];
    if s != [] {
      var arc := FuPool.Arc(s);
      var k := FuPool.FirstFree(s[..arc], p.busy, 0);
      FuPool.RotateKeepsUnits(s, if k < arc then k + 1 else if arc == |s| then 1 else arc + 1);
    }
  }

  /** A refused request means all units of the class are busy. */
  lemma RefusedMeansBusy(p: FuPool.Pool, op: nat)
    requires FuPool.Inv(p) && op < |p.queues| && FuPool.NoDuplicates(p.queues[op])
    ensures FuPool.GetUnit(p.queues[op], p.busy).0 == FuPool.NoFree ==> AllBusy(p, op)
  {
    FuPool.DistinctArcCovers(p.queues[op]);
    FuPool.GrantIsExact(p.queues[op], p.busy);
  }

  lemma RequestKeepsNoneTwice(p: FuPool.Pool, op: nat, hold: bool)
    requires FuPool.Inv(p) && op < |p.queues| && NoneTwice(p)
    ensures NoneTwice(FuPool.Next(p, FuPool.Request(op, hold)))
    ensures |FuPool.Next(p, FuPool.Request(op, hold)).queues| == |p.queues|
  {
    FuPool.RequestKeepsInv(p, op, hold);
    hide FuPool.Inv, FuPool.GetUnit;
  }

  // ---- What the scheduling loop keeps -----------------------------------------------------------

  /** The class of operations that need no functional unit. */
  const NO_OP_CLASS := 0

  predicate Exhausted(p: FuPool.Pool, c: nat)
  {
    c != NO_OP_CLASS && AllBusy(p, c)
  }

  /**
   * The loop is at position `k` of the index: the classes before it have no unit left, and nothing from it on is
   * older than what has been issued.
   */
  predicate SoFar(r: Ready, p: FuPool.Pool, k: nat, issued: seq<nat>, squashed: set<nat>)
  {
    && k <= |r.list| && (forall i | 0 <= i < k :: Exhausted(p, r.list[i].op))
    && Ascending(issued) && (forall s | s in issued :: s !in squashed)
    && (issued != [] ==> forall i | k <= i < |r.list| :: issued[|issued| - 1] <= r.list[i].oldest)
  }

  /** Taking an instruction at `k`, to issue it or to drop it. */
  lemma SoFarTaken(r: Ready, p: FuPool.Pool, v: Ready, w: FuPool.Pool, k: nat, issued: seq<nat>, squashed: set<nat>,
                   more: seq<nat>)
    requires SoFar(r, p, k, issued, squashed) && k < |r.list| && TakenAt(r, v, k)
    requires forall c :: AllBusy(p, c) ==> AllBusy(w, c)
    requires more == issued || (more == issued + [r.list[k].oldest] && r.list[k].oldest !in squashed)
    requires forall i | k <= i < |r.list| :: r.list[k].oldest <= r.list[i].oldest
    ensures SoFar(v, w, k, more, squashed)
  {
    forall i | 0 <= i < k ensures Exhausted(w, v.list[i].op) {
      assert v.list[..k][i] == r.list[..k][i];
    }
    if issued != [] {
      var last := issued[|issued| - 1];
      assert last <= r.list[k].oldest;
      assert forall i | 0 <= i < |issued| :: issued[i] <= last;
    }
    hide AllBusy;
  }

  /** A refused request moves the loop on. */
  lemma SoFarRefused(r: Ready, p: FuPool.Pool, w: FuPool.Pool, k: nat, issued: seq<nat>, squashed: set<nat>)
    requires SoFar(r, p, k, issued, squashed) && k < |r.list| && Exhausted(w, r.list[k].op)
    requires forall c :: AllBusy(p, c) ==> AllBusy(w, c)
    ensures SoFar(r, w, k + 1, issued, squashed)
  {
    hide AllBusy;
  }

  /** Whatever is left behind by an issued younger instruction had no unit to run on. */
  lemma LeftBehindIsExhausted(r: Ready, p: FuPool.Pool, k: nat, issued: seq<nat>, squashed: set<nat>, c: nat, t: nat, s: nat)
    requires Inv(r) && SoFar(r, p, k, issued, squashed) && c < |r.queues| && t in r.queues[c] && s in issued && t < s
    ensures Exhausted(p, c)
  {
    var i := NodeOf(r, c);
    var a :| 0 <= a < |r.queues[c]| && r.queues[c][a] == t;
    var b :| 0 <= b < |issued| && issued[b] == s;
    assert r.queues[c][0] <= t && s <= issued[|issued| - 1];
  }

  /** With bandwidth to spare the loop reaches the end, so every class that still has work has no unit left. */
  lemma SpareBandwidth(r: Ready, p: FuPool.Pool, issued: seq<nat>, squashed: set<nat>, c: nat)
    requires Inv(r) && SoFar(r, p, |r.list|, issued, squashed) && c < |r.queues| && r.queues[c] != []
    ensures Exhausted(p, c)
  {
    var i := NodeOf(r, c);
  }

  // ---- Units handed out in one cycle -----------------------------------------------------------

  /** An instruction sent to execution, its class, and the unit it got; negative when it needed none. */
  datatype Issued = Issued(seqNum: nat, op: nat, unit: int)

  function SeqNums(issued: seq<Issued>): seq<nat>
  {
    seq(|issued|, i requires 0 <= i < |issued| => issued[i].seqNum)
  }

  /** The pool after asking for a unit of class `c`, and the answer. */
  ghost predicate Acquired(p: FuPool.Pool, w: FuPool.Pool, c: nat, hold: bool, idx: int)
    requires FuPool.Inv(p) && c < |p.queues|
  {
    if c == NO_OP_CLASS then w == p && idx == NO_CAPABLE_FU
    else w == FuPool.Next(p, FuPool.Request(c, hold)) && idx == Encode(FuPool.GetUnit(p.queues[c], p.busy).0)
  }

  /** Each issued instruction got a capable unit that was free when the cycle began, and nobody shares one. */
  ghost predicate UnitsRight(before: seq<bool>, p: FuPool.Pool, issued: seq<Issued>)
  {
    && (forall u: nat :: FuPool.IsBusy(before, u) ==> FuPool.IsBusy(p.busy, u))
    && (forall i | 0 <= i < |issued| ::
          var x := issued[i];
          && x.op < |p.queues|
          && (x.unit < 0 ==> x.op == NO_OP_CLASS || p.queues[x.op] == [])
          && (x.unit >= 0 ==> x.unit in p.queues[x.op] && !FuPool.IsBusy(before, x.unit) && FuPool.IsBusy(p.busy, x.unit)))
    && (forall i, j | 0 <= i < j < |issued| && issued[i].unit >= 0 :: issued[i].unit != issued[j].unit)
  }

  /** What one request changes: units become busy, never free, and no unit changes class. */
  ghost predicate Grows(p: FuPool.Pool, w: FuPool.Pool)
  {
    && |w.queues| == |p.queues|
    && (forall u: nat :: FuPool.IsBusy(p.busy, u) ==> FuPool.IsBusy(w.busy, u))
    && (forall d, u | 0 <= d < |p.queues| :: u in p.queues[d] <==> u in w.queues[d])
    && (forall d | 0 <= d < |p.queues| :: p.queues[d] == [] <==> w.queues[d] == [])
  }

  lemma RequestGrows(p: FuPool.Pool, c: nat, hold: bool)
    requires FuPool.Inv(p) && c < |p.queues|
    ensures Grows(p, FuPool.Next(p, FuPool.Request(c, hold)))
  {
    var s := p.queues[c];
    if s != [] {
      var arc := FuPool.Arc(s);
      var k := FuPool.FirstFree(s[..arc], p.busy, 0);
      FuPool.RotateKeepsUnits(s, if k < arc then k + 1 else if arc == |s| then 1 else arc + 1);
    }
  }

  /** What the answer to a request means. */
  lemma AnswerMeans(p: FuPool.Pool, w: FuPool.Pool, c: nat, hold: bool, idx: int)
    requires FuPool.Inv(p) && c < |p.queues| && NoneTwice(p) && Acquired(p, w, c, hold, idx)
    ensures Grows(p, w) && FuPool.Inv(w) && NoneTwice(w)
    ensures forall d :: AllBusy(p, d) ==> AllBusy(w, d)
    ensures idx == NO_FREE_FU ==> Exhausted(w, c)
    ensures idx != NO_FREE_FU && idx < 0 ==> c == NO_OP_CLASS || p.queues[c] == []
    ensures idx >= 0 ==> idx in p.queues[c] && !FuPool.IsBusy(p.busy, idx) && FuPool.IsBusy(w.busy, idx)
  {
    if c != NO_OP_CLASS {
      RequestGrows(p, c, hold);
      FuPool.RequestKeepsInv(p, c, hold);
      RequestKeepsNoneTwice(p, c, hold);
      forall d ensures AllBusy(p, d) ==> AllBusy(w, d) {
        BusyStays(p, c, hold, d);
      }
      RefusedMeansBusy(p, c);
      FuPool.DistinctArcCovers(p.queues[c]);
      FuPool.GrantIsExact(p.queues[c], p.busy);
      hide FuPool.Inv, FuPool.GetUnit, Grows, AllBusy, NoneTwice;
    }
  }

  lemma UnitsStay(before: seq<bool>, p: FuPool.Pool, w: FuPool.Pool, issued: seq<Issued>)
    requires UnitsRight(before, p, issued) && Grows(p, w)
    ensures UnitsRight(before, w, issued)
  {
  }

  lemma UnitsMore(before: seq<bool>, p: FuPool.Pool, w: FuPool.Pool, issued: seq<Issued>, x: Issued)
    requires UnitsRight(before, p, issued) && Grows(p, w) && x.op < |p.queues|
    requires x.unit < 0 ==> x.op == NO_OP_CLASS || p.queues[x.op] == []
    requires x.unit >= 0 ==> x.unit in p.queues[x.op] && !FuPool.IsBusy(p.busy, x.unit) && FuPool.IsBusy(w.busy, x.unit)
    ensures UnitsRight(before, w, issued + [x])
  {
    UnitsStay(before, p, w, issued);
    var all := issued + [x];
    forall i, j | 0 <= i < j < |all| && all[i].unit >= 0 ensures all[i].unit != all[j].unit {
      if j == |issued| {
        assert FuPool.IsBusy(p.busy, issued[i].unit);
      }
    }
  }

  /** Everything the scheduling loop keeps, about the ready queues, the pool and what it has handed out. */
  ghost predicate Going(r: Ready, p: FuPool.Pool, k: nat, issued: seq<Issued>, dropped: seq<nat>, squashed: set<nat>,
                        start: seq<seq<nat>>, before: seq<bool>)
  {
    && Inv(r) && FuPool.Inv(p) && NoneTwice(p) && |r.queues| == |p.queues| == |start|
    && SoFar(r, p, k, SeqNums(issued), squashed)
    && Total(start) == Total(r.queues) + multiset(SeqNums(issued)) + multiset(dropped)
    && (forall s | s in dropped :: s in squashed)
    && UnitsRight(before, p, issued)
  }

  lemma FromPosition(r: Ready, k: nat)
    requires Inv(r) && k < |r.list|
    ensures WellFormed(r) && NodeRight(r, r.list[k]) && r.list[k].oldest == r.queues[r.list[k].op][0]
    ensures forall i | k <= i < |r.list| :: r.list[k].oldest <= r.list[i].oldest
    ensures var c := r.list[k].op;
            var v := IssueOrder.PopAt(r, k);
            && v.queues == r.queues[c := r.queues[c][1..]]
            && Total(r.queues) == Total(v.queues) + multiset{r.list[k].oldest}
            && Inv(v) && TakenAt(r, v, k)
  {
    PopAtKeepsInv(r, k);
    TotalPop(r.queues, r.list[k].op);
    hide Inv, TakenAt, Total, EraseAt, InsertAt;
  }

  lemma GoingDropped(r: Ready, p: FuPool.Pool, k: nat, issued: seq<Issued>, dropped: seq<nat>, squashed: set<nat>,
                     start: seq<seq<nat>>, before: seq<bool>)
    requires Going(r, p, k, issued, dropped, squashed, start, before) && k < |r.list| && r.list[k].oldest in squashed
    ensures WellFormed(r) && NodeRight(r, r.list[k])
    ensures var v := IssueOrder.PopAt(r, k);
            && Going(v, p, k, issued, dropped + [r.list[k].oldest], squashed, start, before)
            && |Total(v.queues)| < |Total(r.queues)|
  {
    hide Inv, FuPool.Inv, NoneTwice, SoFar, Total, UnitsRight, IssueOrder.PopAt, TakenAt, SeqNums, AllBusy;
    FromPosition(r, k);
    SoFarTaken(r, p, IssueOrder.PopAt(r, k), p, k, SeqNums(issued), squashed, SeqNums(issued));
  }

  lemma GoingIssued(r: Ready, p: FuPool.Pool, w: FuPool.Pool, k: nat, issued: seq<Issued>, dropped: seq<nat>,
                    squashed: set<nat>, start: seq<seq<nat>>, before: seq<bool>, hold: bool, idx: int)
    requires Going(r, p, k, issued, dropped, squashed, start, before) && k < |r.list| && r.list[k].oldest !in squashed
    requires r.list[k].op < |p.queues| && Acquired(p, w, r.list[k].op, hold, idx) && idx != NO_FREE_FU
    ensures WellFormed(r) && NodeRight(r, r.list[k])
    ensures var v := IssueOrder.PopAt(r, k);
            && Going(v, w, k, issued + [Issued(r.list[k].oldest, r.list[k].op, idx)], dropped, squashed, start, before)
            && |Total(v.queues)| < |Total(r.queues)|
  {
    hide Inv, FuPool.Inv, NoneTwice, SoFar, Total, UnitsRight, IssueOrder.PopAt, TakenAt, AllBusy, Acquired;
    FromPosition(r, k);
    AnswerMeans(p, w, r.list[k].op, hold, idx);
    var x := Issued(r.list[k].oldest, r.list[k].op, idx);
    assert SeqNums(issued + [x]) == SeqNums(issued) + [x.seqNum];
    hide SeqNums;
    SoFarTaken(r, p, IssueOrder.PopAt(r, k), w, k, SeqNums(issued), squashed, SeqNums(issued) + [x.seqNum]);
    UnitsMore(before, p, w, issued, x);
  }

  lemma GoingRefused(r: Ready, p: FuPool.Pool, w: FuPool.Pool, k: nat, issued: seq<Issued>, dropped: seq<nat>,
                     squashed: set<nat>, start: seq<seq<nat>>, before: seq<bool>, hold: bool, idx: int)
    requires Going(r, p, k, issued, dropped, squashed, start, before) && k < |r.list|
    requires r.list[k].op < |p.queues| && Acquired(p, w, r.list[k].op, hold, idx) && idx == NO_FREE_FU
    ensures Going(r, w, k + 1, issued, dropped, squashed, start, before)
  {
    hide Inv, FuPool.Inv, NoneTwice, SoFar, Total, UnitsRight, AllBusy, Acquired, SeqNums;
    AnswerMeans(p, w, r.list[k].op, hold, idx);
    SoFarRefused(r, p, w, k, SeqNums(issued), squashed);
    UnitsStay(before, p, w, issued);
  }

  // ---- The scheduler ----------------------------------------------------------------------------

  class IssueQueue {
    const fuPool: FUPool
    var readyInsts: seq<seq<nat>>
    var listOrder: seq<Node>
    var readyIt: seq<Option<nat>>
    var queueOnList: seq<bool>
    var nextId: nat

    ghost function View(): Ready
      reads this
    {
      Ready(readyInsts, listOrder, readyIt, queueOnList, nextId)
    }

    constructor (numOps: nat, descs: seq<FuPool.FuDesc>)
      ensures Inv(View()) && |readyInsts| == numOps && Total(readyInsts) == multiset{}
      ensures fresh(fuPool) && fuPool.Valid() && fuPool.View().queues == Queues(numOps, descs)
    {
      var pool := new FUPool(numOps, descs);
      fuPool := pool;
      readyInsts, listOrder, readyIt := seq(numOps, _ => []), [], seq(numOps, _ => None);
      queueOnList, nextId := seq(numOps, _ => false), 0;
      NothingReady(seq(numOps, _ => []));
    }

    /** Enter a class into the index, behind everything that is not younger than its top. */
    method AddToOrderList(c: nat)
      requires c < |readyInsts| == |readyIt| == |queueOnList| && readyInsts[c] != []
      modifies this
      ensures View() == IssueOrder.AddToOrderList(old(View()), c)
    {
      var top := readyInsts[c][0];
      var k := 0;
      while k < |listOrder|
        invariant 0 <= k <= |listOrder| && View() == old(View())
        invariant FirstYounger(listOrder, top, 0) == FirstYounger(listOrder, top, k)
      {
        if listOrder[k].oldest > top {
          break;
        }
        k := k + 1;
      }
      listOrder := listOrder[..k] + [Node(nextId, c, top)] + listOrder[k..];
      readyIt := readyIt[c := Some(nextId)];
      queueOnList := queueOnList[c := true];
      nextId := nextId + 1;
    }

    /** The position an iterator stands for. */
    method Locate(id: nat) returns (k: nat)
      ensures k == PositionOf(listOrder, id)
    {
      k := 0;
      while k < |listOrder| && listOrder[k].id != id
        invariant 0 <= k <= |listOrder|
        invariant PositionOf(listOrder, id) == k + PositionOf(listOrder[k..], id)
      {
        k := k + 1;
      }
    }

    method Reorder(c: nat)
      requires c < |readyInsts| == |readyIt| == |queueOnList| && readyInsts[c] != []
      requires queueOnList[c] ==> readyIt[c].Some? && PositionOf(listOrder, readyIt[c].value) < |listOrder|
      modifies this
      ensures View() == IssueOrder.Reorder(old(View()), c)
    {
      hide IssueOrder.AddToOrderList, EraseAt;
      if !queueOnList[c] {
        AddToOrderList(c);
      } else {
        var k := Locate(readyIt[c].value);
        if readyInsts[c][0] < listOrder[k].oldest {
          listOrder := EraseAt(listOrder, k);
          AddToOrderList(c);
        }
      }
    }

    /** An instruction has all it needs: `addIfReady` and `addReadyMemInst` both end like this. */
    method AddReady(c: nat, s: nat)
      requires Inv(View()) && c < |readyInsts|
      modifies this
      ensures View() == IssueOrder.AddReady(old(View()), c, s) && Inv(View())
      ensures Total(readyInsts) == Total(old(readyInsts)) + multiset{s}
    {
      AddReadyKeepsInv(View(), c, s);
      TotalPush(readyInsts, c, s);
      PushAdds(readyInsts[c], s);
      ListedHasIterator(View(), c);
      hide Inv, Push, Total, IssueOrder.Reorder;
      ReorderKeepsQueues(View().(queues := readyInsts[c := Push(readyInsts[c], s)]), c);
      readyInsts := readyInsts[c := Push(readyInsts[c], s)];
      Reorder(c);
    }

    /** Give the class at position `p` an entry for its new top, further down the index. */
    method MoveToYoungerInst(p: nat)
      requires p < |listOrder| && listOrder[p].op < |readyInsts| == |readyIt| && readyInsts[listOrder[p].op] != []
      modifies this
      ensures var c := old(listOrder)[p].op;
              var top := old(readyInsts)[c][0];
              View() == old(View()).(list := InsertAt(old(listOrder), FirstNotOlder(old(listOrder), top, p + 1),
                                                     Node(old(nextId), c, top)),
                                     it := old(readyIt)[c := Some(old(nextId))], nextId := old(nextId) + 1)
    {
      var c := listOrder[p].op;
      var top := readyInsts[c][0];
      var k := p + 1;
      while k < |listOrder| && listOrder[k].oldest < top
        invariant p + 1 <= k <= |listOrder| && View() == old(View())
        invariant FirstNotOlder(listOrder, top, p + 1) == FirstNotOlder(listOrder, top, k)
      {
        k := k + 1;
      }
      listOrder := InsertAt(listOrder, k, Node(nextId, c, top));
      readyIt := readyIt[c := Some(nextId)];
      nextId := nextId + 1;
    }

    /** Pop the queue at position `p` and replace or remove its entry. */
    method PopAt(p: nat)
      requires WellFormed(View()) && p < |listOrder| && NodeRight(View(), listOrder[p])
      modifies this
      ensures View() == IssueOrder.PopAt(old(View()), p)
    {
      var c := listOrder[p].op;
      readyInsts := readyInsts[c := readyInsts[c][1..]];
      if readyInsts[c] != [] {
        MoveToYoungerInst(p);
      } else {
        readyIt := readyIt[c := None];
        queueOnList := queueOnList[c := false];
      }
      listOrder := EraseAt(listOrder, p);
    }

    /** Ask the pool for a unit, unless the class needs none. */
    method AcquireUnit(c: nat, latency: nat, pipelined: bool) returns (idx: int)
      requires fuPool.Valid() && c < |fuPool.fuPerCapList| && NoneTwice(fuPool.View())
      modifies fuPool
      ensures fuPool.Valid() && |fuPool.fuPerCapList| == old(|fuPool.fuPerCapList|)
      ensures Acquired(old(fuPool.View()), fuPool.View(), c, latency != 1 && !pipelined, idx)
    {
      idx := NO_CAPABLE_FU;
      if c != NO_OP_CLASS {
        AnswerMeans(fuPool.View(), FuPool.Next(fuPool.View(), FuPool.Request(c, latency != 1 && !pipelined)), c,
                    latency != 1 && !pipelined, Encode(FuPool.GetUnit(fuPool.View().queues[c], fuPool.unitBusy).0));
        hide FuPool.Inv, FuPool.Next, FuPool.GetUnit;
        idx := fuPool.Issue(c, latency, pipelined);
      }
    }

    /**
     * Issue ready instructions, oldest first, until bandwidth runs out or every class still ready has been refused
     * a unit. Squashed instructions met on the way are dropped without being issued.
     */
    method ScheduleReadyInsts(totalWidth: nat, squashed: set<nat>, latency: seq<nat>, pipelined: seq<bool>)
      returns (issued: seq<Issued>, dropped: seq<nat>)
      requires Inv(View()) && fuPool.Valid() && NoneTwice(fuPool.View())
      requires |readyInsts| == |fuPool.fuPerCapList| == |latency| == |pipelined|
      modifies this, fuPool
      ensures Inv(View()) && fuPool.Valid() && NoneTwice(fuPool.View()) && |readyInsts| == old(|readyInsts|)
      ensures Total(old(readyInsts)) == Total(readyInsts) + multiset(SeqNums(issued)) + multiset(dropped)
      ensures |issued| <= totalWidth && Ascending(SeqNums(issued))
      ensures (forall s | s in SeqNums(issued) :: s !in squashed) && (forall s | s in dropped :: s in squashed)
      ensures UnitsRight(old(fuPool.unitBusy), fuPool.View(), issued)
      ensures |issued| < totalWidth ==>
                forall c | 0 <= c < |readyInsts| && readyInsts[c] != [] :: Exhausted(fuPool.View(), c)
      ensures forall c, t, s | 0 <= c < |readyInsts| && t in readyInsts[c] && s in SeqNums(issued) && t < s ::
                Exhausted(fuPool.View(), c)
    {
      ghost var start, before := readyInsts, fuPool.unitBusy;
      NothingYet(View(), fuPool.View(), squashed);
      issued, dropped := [], [];
      var k: nat := 0;
      assert SeqNums(issued) == [];
      hide SoFar, Total, UnitsRight, Inv, FuPool.Inv, NoneTwice, Exhausted, SeqNums;
      while |issued| < totalWidth && k < |listOrder|
        invariant AllPositioned(fuPool.fuPerCapList) && Going(View(), fuPool.View(), k, issued, dropped, squashed, start, before)
        invariant |issued| <= totalWidth && |readyInsts| == |latency| == |pipelined|
        decreases |Total(readyInsts)|, |listOrder| - k
      {
        k, issued, dropped := Visit(k, issued, dropped, squashed, latency, pipelined, start, before);
      }
      SchedulingDone(View(), fuPool.View(), k, SeqNums(issued), squashed, |issued| < totalWidth);
    }

    /** One turn of the loop: drop, issue or pass over the instruction at position `k`. */
    method Visit(k: nat, issued: seq<Issued>, dropped: seq<nat>, squashed: set<nat>, latency: seq<nat>,
                 pipelined: seq<bool>, ghost start: seq<seq<nat>>, ghost before: seq<bool>)
      returns (k': nat, issued': seq<Issued>, dropped': seq<nat>)
      requires AllPositioned(fuPool.fuPerCapList) && Going(View(), fuPool.View(), k, issued, dropped, squashed, start, before)
      requires k < |listOrder| && |readyInsts| == |latency| == |pipelined|
      modifies this, fuPool
      ensures AllPositioned(fuPool.fuPerCapList) && Going(View(), fuPool.View(), k', issued', dropped', squashed, start, before)
      ensures |issued'| <= |issued| + 1 && |readyInsts| == old(|readyInsts|)
      ensures |Total(readyInsts)| < old(|Total(readyInsts)|)
           || (View() == old(View()) && k' == k + 1 && issued' == issued)
    {
      k', issued', dropped' := k, issued, dropped;
      var c := listOrder[k].op;
      FromPosition(View(), k);
      ghost var r, p := View(), fuPool.View();
      hide Going, Inv, FuPool.Inv, FuPool.Next, NoneTwice, NodeRight, WellFormed, IssueOrder.PopAt, TakenAt, Total, Acquired;
      var s := readyInsts[c][0];
      if s != listOrder[k].oldest {
        assert false;
      }
      if s in squashed {
        GoingDropped(r, p, k, issued, dropped, squashed, start, before);
        PopAt(k);
        dropped' := dropped + [s];
      } else {
        var idx := AcquireUnit(c, latency[c], pipelined[c]);
        if idx != NO_FREE_FU {
          GoingIssued(r, p, fuPool.View(), k, issued, dropped, squashed, start, before, latency[c] != 1 && !pipelined[c], idx);
          PopAt(k);
          issued' := issued + [Issued(s, c, idx)];
        } else {
          GoingRefused(r, p, fuPool.View(), k, issued, dropped, squashed, start, before, latency[c] != 1 && !pipelined[c], idx);
          k' := k + 1;
        }
      }
    }
  }

  lemma NothingYet(r: Ready, p: FuPool.Pool, squashed: set<nat>)
    ensures SoFar(r, p, 0, [], squashed) && UnitsRight(p.busy, p, []) && SeqNums([]) == []
  {
  }

  /** What holds when the loop ends, by running out of bandwidth or of classes. */
  lemma SchedulingDone(r: Ready, p: FuPool.Pool, k: nat, issued: seq<nat>, squashed: set<nat>, spare: bool)
    requires Inv(r) && SoFar(r, p, k, issued, squashed) && (spare ==> k >= |r.list|)
    ensures Ascending(issued) && forall s | s in issued :: s !in squashed
    ensures spare ==> forall c | 0 <= c < |r.queues| && r.queues[c] != [] :: Exhausted(p, c)
    ensures forall c, t, s | 0 <= c < |r.queues| && t in r.queues[c] && s in issued && t < s :: Exhausted(p, c)
  {
    if spare {
      forall c | 0 <= c < |r.queues| && r.queues[c] != [] ensures Exhausted(p, c) {
        SpareBandwidth(r, p, issued, squashed, c);
      }
    }
    forall c, t, s | 0 <= c < |r.queues| && t in r.queues[c] && s in issued && t < s ensures Exhausted(p, c) {
      LeftBehindIsExhausted(r, p, k, issued, squashed, c, t, s);
    }
  }

  lemma ReorderKeepsQueues(r: Ready, c: nat)
    requires c < |r.queues| == |r.it| == |r.onList| && r.queues[c] != []
    ensures IssueOrder.Reorder(r, c).queues == r.queues
  {
  }

  lemma {:induction false} NothingReady(queues: seq<seq<nat>>)
    requires forall c | 0 <= c < |queues| :: queues[c] == []
    ensures Total(queues) == multiset{}
  {
    if queues != [] {
      NothingReady(queues[..|queues| - 1]);
    }
  }

  lemma ListedHasIterator(r: Ready, c: nat)
    requires Inv(r) && c < |r.queues|
    ensures |r.queues| == |r.it| == |r.onList|
    ensures r.onList[c] ==> r.it[c].Some? && PositionOf(r.list, r.it[c].value) < |r.list|
  {
    if r.onList[c] {
      var i := NodeOf(r, c);
    }
  }
}
