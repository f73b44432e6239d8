/** The load/store unit as it runs: fields updated in place, loops over the queues. */
module LsqUnit {
  import opened Prelude
  import opened Memory
  import opened Coverage
  import opened LsqState
  import opened LsqWorld
  import opened LsqProof
  import opened LsqSearch
  import opened LsqSteps
  import opened LsqRetire
  import opened LsqRuns
  import opened LsqTheorems
  import opened LsqPorts

  // ---- Facts the loops need ---------------------------------------------------------------------

  lemma DropLoadsStep(lq: seq<LQEntry>, n: nat)
    requires lq != [] && lq[0].seqNum <= n
    ensures DropLoads(lq, n) == DropLoads(lq[1..], n)
  {
  }

  lemma CutLoadsStep(lq: seq<LQEntry>, n: nat)
    requires lq != [] && lq[|lq| - 1].seqNum > n
    ensures CutLoads(lq, n) == CutLoads(lq[..|lq| - 1], n)
  {
  }

  /** One turn of the search, over the stores up to position `k` of those to be searched. */
  lemma ScanStep(ss: seq<SQEntry>, k: nat, runaheadLoad: bool, addr: nat, size: nat)
    requires k < |ss|
    ensures var e, found := ss[k], Scan(ss[..k + 1], runaheadLoad, addr, size);
            if !LsqState.Visible(e, runaheadLoad) then found == Scan(ss[..k], runaheadLoad, addr, size)
            else match AddrCoverage(addr, size, e.addr, |e.data|, PLAIN)
                 case Full => && e.addr <= addr && addr + size <= e.addr + |e.data|
                              && found == Forward(e.data[addr - e.addr..addr - e.addr + size])
                 case Partial => found == StallOn(e.seqNum)
                 case NoCoverage => found == Scan(ss[..k], runaheadLoad, addr, size)
  {
    assert ss[..k + 1][..k] == ss[..k];
  }

  lemma ScanEnds(ss: seq<SQEntry>, runaheadLoad: bool, addr: nat, size: nat)
    ensures Scan(ss[..0], runaheadLoad, addr, size).Miss? && ss[..|ss|] == ss
  {
  }

  /** What the search finds at a position, and that it has not completed. */
  lemma WindowAt(q: Lsq, sqIt: nat)
    requires WbPrefix(q) && q.storeWBIt <= sqIt <= q.SqEnd()
    ensures q.sqHead <= q.storeWBIt && |Window(q, sqIt)| == sqIt - q.storeWBIt
    ensures forall k | 0 <= k < sqIt - q.storeWBIt ::
              var e := Window(q, sqIt)[k];
              e == q.sq[q.storeWBIt - q.sqHead + k] && !e.completed
  {
  }

  lemma CutStoresStep(sq: seq<SQEntry>, n: nat)
    requires sq != [] && sq[|sq| - 1].seqNum > n && !sq[|sq| - 1].canWB
    ensures CutStores(sq, n) == CutStores(sq[..|sq| - 1], n)
  {
  }

  lemma {:induction false} CountNewPrefix(sq: seq<SQEntry>, i: nat, n: nat)
    requires i <= |sq| && forall k | i <= k < |sq| :: sq[k].seqNum > n
    ensures CountNew(sq, n) == CountNew(sq[..i], n)
  {
    if i == |sq| {
      assert sq[..i] == sq;
    } else {
      assert sq[..|sq| - 1][..i] == sq[..i];
      CountNewPrefix(sq[..|sq| - 1], i, n);
    }
  }

  lemma CountNewNone(n: nat)
    ensures CountNew([], n) == 0
  {
  }

  lemma CountNewNext(sq: seq<SQEntry>, i: nat, n: nat)
    requires i < |sq|
    ensures CountNew(sq[..i + 1], n) == CountNew(sq[..i], n) + if !sq[i].canWB && sq[i].seqNum <= n then 1 else 0
  {
    assert sq[..i + 1][..i] == sq[..i];
  }

  lemma CutLoadsDone(lq: seq<LQEntry>, n: nat)
    requires lq == [] || lq[|lq| - 1].seqNum <= n
    ensures CutLoads(lq, n) == lq
  {
  }

  lemma CutStoresDone(sq: seq<SQEntry>, n: nat)
    requires sq == [] || sq[|sq| - 1].seqNum <= n || sq[|sq| - 1].canWB
    ensures CutStores(sq, n) == sq
  {
  }

  lemma DropLoadsDone(lq: seq<LQEntry>, n: nat)
    requires lq == [] || lq[0].seqNum > n
    ensures DropLoads(lq, n) == lq
  {
  }

  /** Write-back attempts in a row, with the D-cache's answers. */
  function WbSteps(q: Lsq, answers: seq<bool>): Lsq
  {
    if answers == [] then q else WbStep(WbSteps(q, answers[..|answers| - 1]), answers[|answers| - 1])
  }

  lemma OneMoreStep(q: Lsq, answers: seq<bool>, accept: bool)
    ensures WbSteps(q, answers + [accept]) == WbStep(WbSteps(q, answers), accept)
  {
    assert (answers + [accept])[..|answers|] == answers;
  }

  lemma DividedWithin(q: Lsq, r: Lsq, done: nat)
    requires Divided(q, done) && SameKeys(q, r)
    requires forall i | 0 <= i < |r.sq| :: r.sq[i].canWB == q.sq[r.sqHead - q.sqHead + i].canWB
    ensures Divided(r, done)
  {
  }

  lemma PostSendDivided(q: Lsq, done: nat)
    requires Divided(q, done) && q.StoreAt(q.storeWBIt)
    ensures Divided(PostSend(q), done)
  {
    hide PostSend, SameKeys, Divided;
    PostSendKeys(q);
    PostSendFrame(q);
    DividedWithin(q, PostSend(q), done);
  }

  lemma PostSendFrame(q: Lsq)
    requires q.StoreAt(q.storeWBIt)
    ensures PostSend(q).sq == q.sq && PostSend(q).sqHead == q.sqHead
  {
  }

  lemma WbStepDivided(q: Lsq, done: nat, accept: bool)
    requires QueueInv(q) && Divided(q, done)
    ensures Divided(WbStep(q, accept), done)
  {
    hide Order, LoadSide, Counted, RequestsFit, PostSend, Complete, MayComplete;
    if q.StoreAt(q.storeWBIt) {
      PostSendDivided(q, done);
      if !q.storeBlocked && WbReady(q) && q.St(q.storeWBIt).data == [] {
        SkipEmptyReady(q, done);
        CompleteDivided(q.(storeWBIt := q.storeWBIt + 1), q.storeWBIt, done);
      }
    }
  }

  /** The stores the load will search are exactly those that have not been sent, all of them older than it. */
  predicate SearchesAllUnsent(q: Lsq, j: int)
  {
    && 0 <= j && q.LoadAt(j) && q.sqHead <= q.storeWBIt <= q.Ld(j).sqIt <= q.SqEnd()
    && Window(q, q.Ld(j).sqIt) == q.Unsent()
    && forall k | 0 <= k < |q.Unsent()| :: q.Unsent()[k].seqNum < q.Ld(j).seqNum
  }

  lemma NewLoadWindow(q: Lsq, seqNum: nat, runahead: bool)
    requires QueueInv(q) && Newest(q, seqNum)
    ensures var r := LsqState.InsertLoad(q, seqNum, runahead); QueueInv(r) && SearchesAllUnsent(r, r.LqEnd() - 1)
  {
    hide QueueInv;
    InsertLoadKeeps(q, seqNum, runahead);
    StoresInRange(q);
    var r := LsqState.InsertLoad(q, seqNum, runahead);
    assert r.sq == q.sq && r.Ld(r.LqEnd() - 1).sqIt == q.SqEnd() && r.Ld(r.LqEnd() - 1).seqNum == seqNum;
    AllUnsent(q.sq, q.storeWBIt - q.sqHead, seqNum);
  }

  lemma AllUnsent(sq: seq<SQEntry>, k: nat, n: nat)
    requires k <= |sq| && forall i | 0 <= i < |sq| :: sq[i].seqNum < n
    ensures sq[k..|sq|] == sq[k..] && forall i | 0 <= i < |sq[k..]| :: sq[k..][i].seqNum < n
  {
  }

  lemma StoresInRange(q: Lsq)
    requires QueueInv(q)
    ensures q.sqHead <= q.storeWBIt <= q.SqEnd() && forall i | q.StoreAt(i) :: q.St(i).lqIt <= q.LqEnd()
  {
    hide Order, BlockedIsReady, Counted, Shaped, ViolatorQueued, StallIsOldest, RequestsFit;
  }

  /** No load that is queued is searched when the store executes. */
  predicate AccusesNobody(q: Lsq, i: int)
  {
    0 <= i && q.StoreAt(i) && q.St(i).lqIt <= q.LqEnd() && LoadsFrom(q, q.St(i).lqIt) == []
  }

  lemma NewStoreAccuses(q: Lsq, seqNum: nat, runahead: bool)
    requires QueueInv(q) && Newest(q, seqNum)
    ensures var r := LsqState.InsertStore(q, seqNum, runahead); QueueInv(r) && AccusesNobody(r, r.SqEnd() - 1)
  {
    InsertStoreKeeps(q, seqNum, runahead);
    hide QueueInv;
  }

  lemma StallHasLoad(q: Lsq)
    requires StallIsOldest(q)
    ensures q.stall.Some? ==> q.LoadAt(q.stall.value.loadIdx)
  {
  }

  function Settled(p: Lsq, j: nat, accept: bool, found: ScanResult): Lsq
    requires p.LoadAt(j)
  {
    match found
    case Forward(data) => p.WithLoad(j, p.Ld(j).(outcome := Value(data)))
    case StallOn(storeSeq) =>
      p.WithLoad(j, p.Ld(j).(addrValid := false, outcome := Rescheduled, request := None))
       .(stall := StallLoad(p, j, storeSeq))
    case Miss => p.WithLoad(j, p.Ld(j).(outcome := if accept then Sent else Pending))
  }

  /** Executing a load: it gets its address and request, then what the search found is applied. */
  lemma AddressedThenSettled(q: Lsq, j: nat, addr: nat, size: nat, accept: bool, found: ScanResult)
    requires q.LoadAt(j) && q.sqHead <= q.storeWBIt <= q.Ld(j).sqIt <= q.SqEnd()
    requires found == Scan(Window(q, q.Ld(j).sqIt), q.Ld(j).runahead, addr, size)
    requires q.stall.Some? ==> q.LoadAt(q.stall.value.loadIdx)
    ensures ExecLoad(q, j, addr, size, accept) == Settled(q.WithLoad(j, Addressed(q.Ld(j), addr, size)), j, accept, found)
  {
    hide Scan, Window;
  }

  // ---- The unit ---------------------------------------------------------------------------------

  class LSQUnit {
    const cfg: Config
    var lqHead: nat
    var loadQueue: seq<LQEntry>
    var sqHead: nat
    var storeQueue: seq<SQEntry>
    var storeWBIt: nat
    var storesToWB: int
    var memDepViolator: Option<nat>
    var stall: Option<Stall>
    var isStoreBlocked: bool
    var storeInFlight: bool
    var dcache: Contents
    var rcache: seq<Store>

    constructor (cfg: Config, memory: Contents)
      ensures View() == Lsq(cfg, 0, [], 0, [], 0, 0, None, None, false, false, memory, [])
    {
      this.cfg := cfg;
      lqHead, loadQueue, sqHead, storeQueue := 0, [], 0, [];
      storeWBIt, storesToWB, memDepViolator, stall := 0, 0, None, None;
      isStoreBlocked, storeInFlight, dcache, rcache := false, false, memory, [];
    }

    ghost function View(): Lsq
      reads this
    {
      Lsq(cfg, lqHead, loadQueue, sqHead, storeQueue, storeWBIt, storesToWB, memDepViolator, stall, isStoreBlocked,
          storeInFlight, dcache, rcache)
    }

    /** A new load is the youngest entry: what it will search is every store not yet sent, and only those. */
    method InsertLoad(seqNum: nat, runahead: bool)
      requires QueueInv(View()) && Newest(View(), seqNum)
      modifies this
      ensures QueueInv(View()) && View() == LsqState.InsertLoad(old(View()), seqNum, runahead)
      ensures SearchesAllUnsent(View(), View().LqEnd() - 1)
    {
      hide QueueInv, Newest, SearchesAllUnsent;
      NewLoadWindow(View(), seqNum, runahead);
      loadQueue := loadQueue + [LQEntry(seqNum, sqHead + |storeQueue|, runahead, false, 0, 0, Pending, None)];
    }

    /** A new store is younger than every load there is, so no load there is can have passed it. */
    method InsertStore(seqNum: nat, runahead: bool)
      requires QueueInv(View()) && Newest(View(), seqNum)
      modifies this
      ensures QueueInv(View()) && View() == LsqState.InsertStore(old(View()), seqNum, runahead)
      ensures AccusesNobody(View(), View().SqEnd() - 1)
    {
      hide QueueInv, Newest, AccusesNobody;
      NewStoreAccuses(View(), seqNum, runahead);
      storeQueue := storeQueue + [SQEntry(seqNum, lqHead + |loadQueue|, runahead, 0, [], false, false, None)];
    }

    /** What is handed out is a load that is still queued, and nothing is left to hand out. */
    method GetMemDepViolator() returns (violator: Option<nat>)
      requires QueueInv(View())
      modifies `memDepViolator
      ensures QueueInv(View()) && memDepViolator == None && View() == old(View()).(violator := None)
      ensures violator == old(memDepViolator) && (violator.Some? ==> Queued(loadQueue, violator.value))
    {
      StructureIgnoresViolator(View());
      violator := memDepViolator;
      memDepViolator := None;
      hide Order, StoreSide, InBounds, Shaped, StallIsOldest, RequestsFit;
    }

    /** The execution attempt that creates a request, or sets the flag of the one there is. */
    method PushLoadRequest(j: nat)
      requires View().LoadAt(j)
      modifies `loadQueue
      ensures View() == TouchLoad(old(View()), j)
    {
      var e := loadQueue[j - lqHead];
      var request := if e.request.Some? then e.request else Some(false);
      if e.runahead {
        request := Some(true);
      }
      loadQueue := loadQueue[j - lqHead := e.(request := request)];
    }

    method PushStoreRequest(i: nat)
      requires View().StoreAt(i)
      modifies `storeQueue
      ensures View() == TouchStore(old(View()), i)
    {
      var e := storeQueue[i - sqHead];
      var request := if e.request.Some? then e.request else Some(false);
      if e.runahead {
        request := Some(true);
      }
      storeQueue := storeQueue[i - sqHead := e.(request := request)];
    }

    /** Search the loads from position `loadIt` on for the first that touches the store's blocks. */
    method CheckViolations(loadIt: nat, addr: nat, size: nat) returns (fault: bool)
      requires size > 0 && loadIt <= lqHead + |loadQueue| && Shaped(View())
      modifies this
      ensures var first := FirstConflict(LoadsFrom(old(View()), loadIt), addr, size, cfg.depCheckShift);
              && View() == old(View()).(violator := OlderOf(old(memDepViolator), first))
              && (fault <==> first.Some? && memDepViolator == first)
      ensures StoreOutcome(old(View()), View(), loadIt, addr, size, fault)
    {
      hide StoreOutcome;
      CheckOutcome(View(), loadIt, addr, size);
      var j := if loadIt <= lqHead then 0 else loadIt - lqHead;
      fault := false;
      ghost var from := LoadsFrom(View(), loadIt);
      assert from == loadQueue[j..];
      while j < |loadQueue|
        invariant 0 <= j <= |loadQueue| && !fault && View() == old(View())
        invariant FirstConflict(from, addr, size, cfg.depCheckShift) ==
                  FirstConflict(loadQueue[j..], addr, size, cfg.depCheckShift)
      {
        var ld := loadQueue[j];
        assert loadQueue[j..][0] == ld && loadQueue[j..][1..] == loadQueue[j + 1..];
        if ld.addrValid && BlocksOverlap(addr, size, ld.addr, ld.size, cfg.depCheckShift) {
          if memDepViolator.Some? && ld.seqNum > memDepViolator.value {
            return;
          }
          memDepViolator := Some(ld.seqNum);
          fault := true;
          return;
        }
        j := j + 1;
      }
    }

    method ExecuteStore(i: nat, addr: nat, data: Bytes) returns (fault: bool)
      requires View().StoreAt(i) && data != [] && View().St(i).lqIt <= View().LqEnd() && Shaped(View())
      modifies this
      ensures View() == ExecStore(old(View()), i, addr, data)
      ensures StoreOutcome(old(View()), View(), old(View().St(i)).lqIt, addr, |data|, fault)
    {
      hide StoreOutcome, FirstConflict;
      ExecStoreOutcome(View(), i, addr, data);
      PushStoreRequest(i);
      var st := storeQueue[i - sqHead];
      storeQueue := storeQueue[i - sqHead := st.(addr := addr, data := data)];
      assert View() == old(View()).WithStore(i, Written(old(View()).St(i), addr, data));
      fault := CheckViolations(st.lqIt, addr, |data|);
    }

    /** Search the older stores from the load's insertion point back to the write-back position. */
    method SearchStores(sqIt: nat, runahead: bool, addr: nat, size: nat) returns (r: ScanResult)
      requires WbPrefix(View()) && storeWBIt <= sqIt <= sqHead + |storeQueue|
      ensures r == Scan(Window(View(), sqIt), runahead, addr, size)
      ensures size > 0 ==> Answers(Window(View(), sqIt), runahead, addr, size, r)
    {
      hide Answers, Scan, AddrCoverage, WbPrefix, Window;
      WindowAt(View(), sqIt);
      ghost var ss := Window(View(), sqIt);
      ScanEnds(ss, runahead, addr, size);
      if size > 0 {
        ScanAnswers(ss, runahead, addr, size);
      }
      var storeIt := sqIt;
      while storeIt != storeWBIt
        invariant storeWBIt <= storeIt <= sqIt
        invariant Scan(ss, runahead, addr, size) == Scan(ss[..storeIt - storeWBIt], runahead, addr, size)
      {
        storeIt := storeIt - 1;
        var st := storeQueue[storeIt - sqHead];
        assert st == ss[storeIt - storeWBIt];
        ScanStep(ss, storeIt - storeWBIt, runahead, addr, size);
        if |st.data| != 0 && !(st.runahead && !runahead) {
          var coverage := AddrCoverage(addr, size, st.addr, |st.data|, PLAIN);
          if coverage == Full {
            var shift := addr - st.addr;
            return Forward(st.data[shift..shift + size]);
          } else if coverage == Partial {
            if st.completed {
              assert false;
            }
            return StallOn(st.seqNum);
          }
        }
      }
      return Miss;
    }

    method Read(j: nat, addr: nat, size: nat, accept: bool)
      requires View().LoadAt(j) && WbPrefix(View()) && StallIsOldest(View())
      requires storeWBIt <= View().Ld(j).sqIt <= View().SqEnd()
      modifies this
      ensures View() == ExecLoad(old(View()), j, addr, size, accept)
      ensures size > 0 ==> LoadOutcome(old(View()), View(), j, addr, size, accept)
    {
      hide LoadOutcome, Answers, Scan, Window, ExecLoad, Settled, Addressed;
      StallHasLoad(View());
      if size > 0 {
        ExecLoadOutcome(View(), j, addr, size, accept);
      }
      hide WbPrefix, StallIsOldest;
      var e := loadQueue[j - lqHead];
      var found := SearchStores(e.sqIt, e.runahead, addr, size);
      AddressedThenSettled(View(), j, addr, size, accept, found);
      SetAddress(j, addr, size);
      Settle(j, accept, found);
    }

    /** The load gets its request and its address. */
    method SetAddress(j: nat, addr: nat, size: nat)
      requires View().LoadAt(j)
      modifies `loadQueue
      ensures View() == old(View()).WithLoad(j, Addressed(old(View()).Ld(j), addr, size))
    {
      PushLoadRequest(j);
      loadQueue := loadQueue[j - lqHead := loadQueue[j - lqHead].(addrValid := true, addr := addr, size := size)];
    }

    /** What a search found, applied to a load that has its address. */
    method Settle(j: nat, accept: bool, found: ScanResult)
      requires View().LoadAt(j) && (stall.Some? ==> View().LoadAt(stall.value.loadIdx))
      modifies `loadQueue, `stall
      ensures View() == Settled(old(View()), j, accept, found)
    {
      hide StallLoad;
      var k := j - lqHead;
      match found {
        case Forward(data) =>
          loadQueue := loadQueue[k := loadQueue[k].(outcome := Value(data))];
        case StallOn(storeSeq) =>
          StallRead(j, storeSeq);
        case Miss =>
          loadQueue := loadQueue[k := loadQueue[k].(outcome := if accept then Sent else Pending)];
      }
    }

    /** The load gives its address and request up until the store it partly overlaps has been sent. */
    method StallRead(j: nat, storeSeq: nat)
      requires View().LoadAt(j) && (stall.Some? ==> View().LoadAt(stall.value.loadIdx))
      modifies `loadQueue, `stall
      ensures View() == old(View().WithLoad(j, View().Ld(j).(addrValid := false, outcome := Rescheduled, request := None))
                                  .(stall := StallLoad(View(), j, storeSeq)))
    {
      var e := loadQueue[j - lqHead];
      if stall.None? || e.seqNum < loadQueue[stall.value.loadIdx - lqHead].seqNum {
        stall := Some(Stall(storeSeq, j));
      }
      loadQueue := loadQueue[j - lqHead := e.(addrValid := false, outcome := Rescheduled, request := None)];
    }

    /** The D-cache serves a load, or either cache a runahead one. */
    method CompleteDataAccess(j: nat, reply: Bytes)
      requires View().LoadAt(j) && loadQueue[j - lqHead].outcome.Sent?
      modifies `loadQueue
      ensures View() == ServeLoad(old(View()), j, reply)
    {
      var e := loadQueue[j - lqHead];
      var data := reply;
      if !e.runahead {
        data := ReadBytes(dcache, e.addr, e.size);
      }
      loadQueue := loadQueue[j - lqHead := e.(outcome := Value(data))];
    }

    method CompleteWithoutAccess(j: nat)
      requires View().LoadAt(j)
      modifies `loadQueue
      ensures View() == NullLoad(old(View()), j)
    {
      loadQueue := loadQueue[j - lqHead := loadQueue[j - lqHead].(outcome := NoAccess)];
    }

    method CommitLoads(n: nat)
      modifies this
      ensures var kept := DropLoads(old(loadQueue), n);
              View() == old(View()).(lq := kept, lqHead := old(View().LqEnd()) - |kept|)
    {
      hide DropLoads;
      while loadQueue != [] && loadQueue[0].seqNum <= n
        invariant lqHead + |loadQueue| == old(lqHead + |loadQueue|)
        invariant View() == old(View()).(lq := loadQueue, lqHead := lqHead)
        invariant DropLoads(loadQueue, n) == DropLoads(old(loadQueue), n)
        decreases |loadQueue|
      {
        DropLoadsStep(loadQueue, n);
        loadQueue := loadQueue[1..];
        lqHead := lqHead + 1;
      }
      DropLoadsDone(loadQueue, n);
    }

    method CommitStores(n: nat)
      requires Ascending(View())
      modifies `storeQueue, `storesToWB
      ensures View() == old(View()).(sq := MarkStores(old(storeQueue), n),
                                     storesToWB := old(storesToWB) + CountNew(old(storeQueue), n))
    {
      ghost var sq := storeQueue;
      hide CountNew;
      CountNewNone(n);
      var i := 0;
      while i < |storeQueue|
        invariant 0 <= i <= |storeQueue| == |sq|
        invariant forall k | 0 <= k < |sq| :: storeQueue[k] == if k < i then MarkStore(sq[k], n) else sq[k]
        invariant storesToWB == old(storesToWB) + CountNew(sq[..i], n)
      {
        CountNewNext(sq, i, n);
        if !storeQueue[i].canWB {
          if storeQueue[i].seqNum > n {
            break;
          }
          storeQueue := storeQueue[i := storeQueue[i].(canWB := true)];
          storesToWB := storesToWB + 1;
        }
        i := i + 1;
      }
      CountNewPrefix(sq, i, n);
      hide Ascending;
      assert storeQueue == MarkStores(sq, n);
    }

    /** The two loops that run when commit reports how far it got. */
    method CommitUpTo(n: nat)
      requires Ascending(View())
      modifies this
      ensures View() == LsqState.Commit(old(View()), n)
    {
      CommitStores(n);
      CommitLoads(n);
    }

    method SquashLoads(n: nat)
      modifies `loadQueue, `stall
      ensures var kept := CutLoads(old(loadQueue), n);
              View() == old(View()).(lq := kept,
                stall := if old(stall).Some? && |kept| <= old(stall).value.loadIdx - lqHead < |old(loadQueue)|
                         then None else old(stall))
    {
      ghost var lq, was := loadQueue, stall;
      hide CutLoads;
      while loadQueue != [] && loadQueue[|loadQueue| - 1].seqNum > n
        invariant |loadQueue| <= |lq| && CutLoads(loadQueue, n) == CutLoads(lq, n)
        invariant was.Some? && |loadQueue| <= was.value.loadIdx - lqHead < |lq| ==> stall == None
        invariant !(was.Some? && |loadQueue| <= was.value.loadIdx - lqHead < |lq|) ==> stall == was
        decreases |loadQueue|
      {
        if stall.Some? && lqHead + |loadQueue| - 1 == stall.value.loadIdx {
          stall := None;
        }
        CutLoadsStep(loadQueue, n);
        loadQueue := loadQueue[..|loadQueue| - 1];
      }
      CutLoadsDone(loadQueue, n);
    }

    /** No store that leaves can be the one a surviving load waits for, so the source's panic cannot fire. */
    method SquashStores(n: nat)
      requires stall.Some? ==> stall.value.storeSeq <= n
      modifies this
      ensures View() == old(View()).(sq := CutStores(old(storeQueue), n))
    {
      ghost var q := View();
      hide CutStores;
      while storeQueue != [] && storeQueue[|storeQueue| - 1].seqNum > n
        invariant View() == q.(sq := storeQueue)
        invariant CutStores(storeQueue, n) == CutStores(q.sq, n)
        decreases |storeQueue|
      {
        if storeQueue[|storeQueue| - 1].canWB {
          break;
        }
        if stall.Some? && storeQueue[|storeQueue| - 1].seqNum == stall.value.storeSeq {
          assert false;
        }
        CutStoresStep(storeQueue, n);
        storeQueue := storeQueue[..|storeQueue| - 1];
      }
      CutStoresDone(storeQueue, n);
    }

    /** Drop the younger loads from the tail, then the younger stores that have not committed. */
    method Squash(n: nat)
      requires Ascending(View()) && StallIsOldest(View())
      modifies this
      ensures View() == LsqState.Squash(old(View()), n)
    {
      hide CutLoads, CutStores;
      StallAfterCut(View(), n);
      SquashLoads(n);
      if memDepViolator.Some? && n < memDepViolator.value {
        memDepViolator := None;
      }
      SquashStores(n);
    }

    /** The store leaves the queue once it and everything before it has completed. */
    method CompleteStore(i: nat)
      requires MayComplete(View(), i) && Ascending(View()) && StallIsOldest(View())
      requires i != sqHead ==> !storeQueue[0].completed
      modifies `storeQueue, `sqHead, `storesToWB, `storeInFlight
      ensures View() == Complete(old(View()), i)
    {
      hide MayComplete, Ascending, StallIsOldest, DropCompleted;
      NotTheStallingStore(View(), i);
      var st := storeQueue[i - sqHead];
      storeQueue := storeQueue[i - sqHead := st.(completed := true)];
      storesToWB := storesToWB - 1;
      RemoveCompleted(i == sqHead);
      FinishStore(st.seqNum);
    }

    /** No load can still be stalled on a store that has completed. */
    method FinishStore(seqNum: nat)
      requires stall.Some? ==> seqNum != stall.value.storeSeq
      modifies `storeInFlight
      ensures View() == old(View()).(storeInFlight := storeInFlight && !cfg.needsTSO)
      ensures storeInFlight == (old(storeInFlight) && !cfg.needsTSO)
    {
      if stall.Some? && seqNum == stall.value.storeSeq {
        assert false;
      }
      if cfg.needsTSO {
        storeInFlight := false;
      }
    }

    method RemoveCompleted(atHead: bool)
      requires !atHead ==> storeQueue != [] && !storeQueue[0].completed
      modifies `storeQueue, `sqHead
      ensures var kept := DropCompleted(old(storeQueue));
              View() == old(View()).(sq := kept, sqHead := old(sqHead) + |old(storeQueue)| - |kept|)
    {
      hide DropCompleted;
      if atHead {
        PopCompleted();
      } else {
        DropCompletedDone(storeQueue);
      }
    }

    method PopCompleted()
      modifies `storeQueue, `sqHead
      ensures var kept := DropCompleted(old(storeQueue));
              View() == old(View()).(sq := kept, sqHead := old(sqHead) + |old(storeQueue)| - |kept|)
    {
      hide DropCompleted;
      ghost var q := View();
      while storeQueue != [] && storeQueue[0].completed
        invariant sqHead + |storeQueue| == q.SqEnd() && View() == q.(sq := storeQueue, sqHead := sqHead)
        invariant DropCompleted(storeQueue) == DropCompleted(q.sq)
        decreases |storeQueue|
      {
        DropCompletedStep(storeQueue);
        storeQueue := storeQueue[1..];
        sqHead := sqHead + 1;
      }
      DropCompletedDone(storeQueue);
    }

    /** The store at the write-back position went out: to the D-cache, or to the R-cache if its request is a runahead one. */
    method StorePostSend()
      requires View().StoreAt(storeWBIt)
      modifies `storeWBIt, `rcache, `dcache, `isStoreBlocked, `stall, `loadQueue, `storeInFlight
      ensures View() == PostSend(old(View()))
    {
      hide Put, Replay;
      var st := storeQueue[storeWBIt - sqHead];
      if st.request == Some(true) {
        rcache := rcache + [AsStore(st)];
      } else {
        dcache := Put(dcache, AsStore(st));
      }
      isStoreBlocked := false;
      if stall.Some? && st.seqNum == stall.value.storeSeq {
        stall := None;
        loadQueue := Replay(loadQueue);
      }
      if cfg.needsTSO {
        storeInFlight := true;
      }
      storeWBIt := storeWBIt + 1;
    }

    /** Hand the next ready store over, unless it carries nothing or the D-cache refuses it. */
    method WritebackStore(accept: bool, ghost done: nat)
      requires QueueInv(View()) && Divided(View(), done) && WbReady(View()) && !isStoreBlocked
      modifies this
      ensures View() == WbStep(old(View()), accept)
    {
      hide QueueInv, Divided, Complete, PostSend, MayComplete, Ascending, StallIsOldest;
      var st := storeQueue[storeWBIt - sqHead];
      if |st.data| == 0 {
        SkipEmptyFacts(View(), done);
        storeWBIt := storeWBIt + 1;
        CompleteStore(storeWBIt - 1);
      } else if st.request == Some(true) || accept {
        StorePostSend();
      } else {
        isStoreBlocked := true;
      }
    }

    /** One attempt: the blocked store again, or the next one that is ready. */
    method TryWriteback(accept: bool, ghost done: nat)
      requires QueueInv(View()) && Divided(View(), done)
      modifies this
      ensures View() == WbStep(old(View()), accept)
    {
      hide QueueInv, Divided, Complete, PostSend;
      if isStoreBlocked {
        RetryBlocked(View(), accept);
        hide WbStep;
        if accept {
          StorePostSend();
        }
      } else if && storesToWB > 0 && sqHead <= storeWBIt < sqHead + |storeQueue| && storeQueue[storeWBIt - sqHead].canWB
                && !(cfg.needsTSO && storeInFlight) {
        hide WbStep;
        WritebackStore(accept, done);
      }
    }

    /** Runahead begins: what has not left the reorder buffer is marked, and its request with it if there is one. */
    method SetRunahead(rob: nat)
      modifies `loadQueue, `storeQueue
      ensures View() == MarkRunahead(old(View()), rob)
    {
      ghost var lq, sq := loadQueue, storeQueue;
      for k := 0 to |loadQueue|
        invariant |loadQueue| == |lq| && storeQueue == sq
        invariant forall x | 0 <= x < |lq| :: loadQueue[x] == if x < k && lq[x].seqNum > rob then MarkedLoad(lq[x]) else lq[x]
      {
        var e := loadQueue[k];
        if e.seqNum > rob {
          loadQueue := loadQueue[k := e.(runahead := true, request := if e.request.Some? then Some(true) else e.request)];
        }
      }
      for k := 0 to |storeQueue|
        invariant |storeQueue| == |sq| && loadQueue == MarkRunahead(old(View()), rob).lq
        invariant forall x | 0 <= x < |sq| :: storeQueue[x] == if x < k && sq[x].seqNum > rob then MarkedStore(sq[x]) else sq[x]
      {
        var e := storeQueue[k];
        if e.seqNum > rob {
          storeQueue := storeQueue[k := e.(runahead := true, request := if e.request.Some? then Some(true) else e.request)];
        }
      }
    }

    /**
     * Send committed stores in order until none is ready or the D-cache refuses one, with `ports` store ports left in
     * the cycle. A normal store that finds none left is skipped; with a port for each of those that wait, none is.
     */
    method WritebackStores(accept: nat -> bool, ports: nat, ghost done: nat)
      returns (skipped: bool, ghost answers: seq<bool>)
      requires QueueInv(View()) && Divided(View(), done)
      modifies this
      ensures !skipped ==>
                && View() == WbSteps(old(View()), answers) && QueueInv(View()) && Divided(View(), done)
                && (isStoreBlocked || !WbReady(View()))
      ensures skipped ==>
                Skips(WbSteps(old(View()), answers), false) && View() == Skip(WbSteps(old(View()), answers))
      ensures NormalWaiting(old(View())) <= ports ==> !skipped
    {
      hide QueueInv, Divided, WbStep, PostSend, NormalWaiting, WbSteps;
      ghost var q := View();
      var k, left := 0, ports;
      skipped, answers := false, [];
      NoSteps(q);
      if isStoreBlocked {
        var sent := accept(0) && ports > 0;
        OneMoreStep(q, [], sent);
        answers := [] + [sent];
        left := RetryBlockedStore(sent, ports, done);
        k := 1;
      }
      while && storesToWB > 0 && sqHead <= storeWBIt < sqHead + |storeQueue| && storeQueue[storeWBIt - sqHead].canWB
            && !(cfg.needsTSO && storeInFlight)
        invariant View() == WbSteps(q, answers) && QueueInv(View()) && Divided(View(), done)
        invariant left <= ports && ports - left + NormalWaiting(View()) <= NormalWaiting(q)
        decreases sqHead + |storeQueue| - storeWBIt, !isStoreBlocked
      {
        ghost var before := View();
        var st := storeQueue[storeWBIt - sqHead];
        if left == 0 && !st.runahead {
          SkipNeedsWaiting(before);
          storeWBIt := storeWBIt + 1;
          skipped := true;
          return;
        }
        if isStoreBlocked {
          break;
        }
        var sent := accept(k) && left > 0;
        TurnKeeps(before, done, sent);
        WritebackStore(sent, done);
        OneMoreStep(q, answers, sent);
        answers := answers + [sent];
        if sent && |st.data| > 0 && st.request != Some(true) {
          left := left - 1;
        }
        k := k + 1;
      }
    }

    /** The blocked store first, if a port is left for it. */
    method RetryBlockedStore(sent: bool, ports: nat, ghost done: nat) returns (left: nat)
      requires QueueInv(View()) && Divided(View(), done) && isStoreBlocked && (sent ==> ports > 0)
      modifies this
      ensures View() == WbStep(old(View()), sent) && QueueInv(View()) && Divided(View(), done)
      ensures left <= ports && ports - left + NormalWaiting(View()) <= NormalWaiting(old(View()))
    {
      hide QueueInv, Divided, WbStep, PostSend, NormalWaiting;
      WbStepKeeps(View(), done, sent);
      WbStepDivided(View(), done, sent);
      RetryUses(View(), done, sent);
      RetryBlocked(View(), sent);
      left := ports;
      if sent {
        StorePostSend();
        left := left - 1;
      }
    }
  }

  lemma DropCompletedStep(sq: seq<SQEntry>)
    requires sq != [] && sq[0].completed
    ensures DropCompleted(sq) == DropCompleted(sq[1..])
  {
  }

  lemma DropCompletedDone(sq: seq<SQEntry>)
    requires sq == [] || !sq[0].completed
    ensures DropCompleted(sq) == sq
  {
  }

  /** A store that completes has been sent, so no load still waits for it. */
  lemma NotTheStallingStore(q: Lsq, i: nat)
    requires MayComplete(q, i) && Ascending(q) && StallIsOldest(q)
    ensures q.StoreAt(i) && (q.stall.Some? ==> q.St(i).seqNum != q.stall.value.storeSeq)
  {
  }

  /** A blocked store is a normal one, so only the D-cache can take it. */
  lemma RetryBlocked(q: Lsq, accept: bool)
    requires QueueInv(q) && q.storeBlocked
    ensures q.StoreAt(q.storeWBIt) && WbStep(q, accept) == if accept then PostSend(q) else q
  {
    RouteIsFlag(q, q.storeWBIt);
    hide PostSend, Order, LoadSide, Counted, RequestsFit;
  }

  lemma NoSteps(q: Lsq)
    ensures WbSteps(q, []) == q
  {
  }

  /** A turn of the loop keeps everything, makes progress, and takes from the stores that wait what it sends. */
  lemma TurnKeeps(q: Lsq, done: nat, accept: bool)
    requires QueueInv(q) && Divided(q, done) && WbReady(q) && !q.storeBlocked
    ensures var r := WbStep(q, accept);
            && QueueInv(r) && Divided(r, done) && r.SqEnd() == q.SqEnd()
            && (r.storeWBIt == q.storeWBIt + 1 || (r.storeWBIt == q.storeWBIt && r.storeBlocked))
            && NormalWaiting(r) + (if accept && q.St(q.storeWBIt).data != [] && !ToRCache(q.St(q.storeWBIt)) then 1 else 0)
               <= NormalWaiting(q)
  {
    hide QueueInv, Divided, WbStep, NormalWaiting;
    WbStepKeeps(q, done, accept);
    WbStepDivided(q, done, accept);
    WbStepProgress(q, done, accept);
    TurnUses(q, done, accept);
  }

  /** Each attempt moves the write-back position on or leaves a store blocked. */
  lemma WbStepProgress(q: Lsq, done: nat, accept: bool)
    requires QueueInv(q) && Divided(q, done) && WbReady(q) && !q.storeBlocked
    ensures var r := WbStep(q, accept);
            r.SqEnd() == q.SqEnd() && (r.storeWBIt == q.storeWBIt + 1 || (r.storeWBIt == q.storeWBIt && r.storeBlocked))
  {
    hide Order, LoadSide, Counted, WbPrefix, Divided, PostSend, Complete, MayComplete, Ascending, StallIsOldest;
    PostSendCounts(q);
    if q.St(q.storeWBIt).data == [] {
      SkipEmptyFacts(q, done);
    }
  }

  lemma PostSendCounts(q: Lsq)
    requires q.StoreAt(q.storeWBIt)
    ensures var r := PostSend(q); r.storeWBIt == q.storeWBIt + 1 && r.SqEnd() == q.SqEnd()
  {
  }

  lemma SkipEmptyFacts(q: Lsq, done: nat)
    requires QueueInv(q) && Divided(q, done)
    requires q.StoreAt(q.storeWBIt) && q.St(q.storeWBIt).canWB && q.St(q.storeWBIt).data == [] && !q.storeBlocked
    ensures var p := q.(storeWBIt := q.storeWBIt + 1);
            && MayComplete(p, q.storeWBIt) && Ascending(p) && StallIsOldest(p) && !q.sq[0].completed
            && Complete(p, q.storeWBIt).SqEnd() == q.SqEnd() && Complete(p, q.storeWBIt).storeWBIt == q.storeWBIt + 1
  {
    SkipEmptyReady(q, done);
    CompleteLeaves(q.(storeWBIt := q.storeWBIt + 1), q.storeWBIt);
    hide Linked, Divided, MayComplete, Complete, StallIsOldest;
  }

  /** The stall that survives a squash is on a load that survives it, so its store is older still. */
  lemma StallAfterCut(q: Lsq, n: nat)
    requires Ascending(q) && StallIsOldest(q)
    ensures var kept := CutLoads(q.lq, n);
            q.stall.Some? ==>
              && q.LoadAt(q.stall.value.loadIdx)
              && (|kept| <= q.stall.value.loadIdx - q.lqHead <==> q.Ld(q.stall.value.loadIdx).seqNum > n)
              && (q.stall.value.loadIdx - q.lqHead < |kept| ==> q.stall.value.storeSeq <= n)
  {
    hide CutLoads;
  }
}
