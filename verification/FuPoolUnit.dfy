/** The functional-unit pool as it runs: circular queues, a busy flag per unit, and a list of units to be freed. */
module FuPoolUnit {
  import opened Prelude
  import opened FuPool

  const NO_FREE_FU := -1
  const NO_CAPABLE_FU := -2

  /** A circular queue of unit numbers and the position of the next one to try. */
  datatype FUIdxQueue = FUIdxQueue(funcUnitsIdx: seq<nat>, idx: nat)

  predicate Positioned(f: FUIdxQueue)
  {
    if f.funcUnitsIdx == [] then f.idx == 0 else f.idx < |f.funcUnitsIdx|
  }

  function Tried(f: FUIdxQueue): seq<nat>
    requires Positioned(f)
  {
    Rotate(f.funcUnitsIdx, f.idx)
  }

  lemma RotateOnce(s: seq<nat>, k: nat)
    requires k < |s|
    ensures Rotate(s, k)[0] == s[k] && Rotate(Rotate(s, k), 1) == Rotate(s, k + 1)
  {
    var a := Rotate(s, k);
    assert a[1..] == s[k + 1..] + s[..k];
    assert s[..k + 1] == s[..k] + [s[k]];
  }

  lemma RotateFull(s: seq<nat>)
    ensures Rotate(s, |s|) == s && Rotate(s, 0) == s
  {
  }

  function Encode(g: Grant): int
  {
    match g
    case NoCapable => NO_CAPABLE_FU
    case NoFree => NO_FREE_FU
    case Unit(u) => u
  }

  predicate AllPositioned(fs: seq<FUIdxQueue>)
  {
    forall op | 0 <= op < |fs| :: Positioned(fs[op])
  }

  function AllTried(fs: seq<FUIdxQueue>): seq<seq<nat>>
    requires AllPositioned(fs)
  {
    seq(|fs|, op requires 0 <= op < |fs| => Tried(fs[op]))
  }

  /** The queues the constructor builds, one per operation. */
  function Queues(numOps: nat, descs: seq<FuDesc>): seq<seq<nat>>
  {
    seq(numOps, op requires 0 <= op < numOps => Queue(descs, op))
  }

  class FUPool {
    var fuPerCapList: seq<FUIdxQueue>
    var unitBusy: seq<bool>
    var unitsToBeFreed: seq<nat>
    ghost var held: set<nat>

    ghost predicate Valid()
      reads this
    {
      AllPositioned(fuPerCapList) && Inv(View())
    }

    ghost function View(): Pool
      requires AllPositioned(fuPerCapList)
      reads this
    {
      Pool(AllTried(fuPerCapList), unitBusy, unitsToBeFreed, held)
    }

    /** One queue per operation, built description by description; every unit starts free. */
    constructor (numOps: nat, descs: seq<FuDesc>)
      ensures Valid() && held == {} && unitsToBeFreed == []
      ensures View().queues == Queues(numOps, descs) && unitBusy == seq(NumUnits(descs), _ => false)
    {
      var queues: seq<seq<nat>> := seq(numOps, _ => []);
      var numFU := 0;
      var i := 0;
      assert queues == Queues(numOps, descs[..0]);
      while i < |descs|
        invariant 0 <= i <= |descs| && numFU == NumUnits(descs[..i])
        invariant queues == Queues(numOps, descs[..i])
      {
        assert descs[..i + 1][..i] == descs[..i];
        var before := queues;
        queues := AddUnits(queues, descs[i].ops, numFU, descs[i].number);
        numFU := numFU + descs[i].number;
        i := i + 1;
      }
      assert descs[..i] == descs;
      fuPerCapList := seq(numOps, op requires 0 <= op < numOps => FUIdxQueue(queues[op], 0));
      unitBusy := seq(numFU, _ => false);
      unitsToBeFreed := [];
      held := {};
      new;
      forall op | 0 <= op < numOps ensures Tried(fuPerCapList[op]) == Queue(descs, op) {
        RotateFull(queues[op]);
      }
      forall op, k | 0 <= op < numOps && 0 <= k < |Queue(descs, op)| ensures Queue(descs, op)[k] < numFU {
        QueueHoldsCapable(descs, op, Queue(descs, op)[k]);
      }
    }

    method GetUnit(op: nat) returns (idx: int)
      requires AllPositioned(fuPerCapList) && op < |fuPerCapList|
      requires forall u | u in fuPerCapList[op].funcUnitsIdx :: u < |unitBusy|
      modifies this`fuPerCapList, this`unitBusy
      ensures AllPositioned(fuPerCapList) && |fuPerCapList| == |old(fuPerCapList)|
      ensures fuPerCapList == old(fuPerCapList)[op := fuPerCapList[op]]
      ensures var r := FuPool.GetUnit(old(Tried(fuPerCapList[op])), old(unitBusy));
              && idx == Encode(r.0) && Tried(fuPerCapList[op]) == r.1 && |unitBusy| == |old(unitBusy)|
              && (if r.0.Unit? then r.0.u < |unitBusy| && unitBusy == old(unitBusy)[r.0.u := true]
                  else unitBusy == old(unitBusy))
    {
      hide FuPool.GetUnit, Tried;
      var f := fuPerCapList[op];
      if f.funcUnitsIdx == [] {
        EmptyQueue(f, unitBusy);
        return NO_CAPABLE_FU;
      }
      idx, f := ScanQueue(f, unitBusy);
      fuPerCapList := fuPerCapList[op := f];
      if idx >= 0 {
        unitBusy := unitBusy[idx := true];
      }
    }

    /** The unit's owner gives it back at the end of this cycle. */
    method FreeUnitNextCycle(u: nat)
      requires u < |unitBusy| && unitBusy[u]
      modifies this`unitsToBeFreed, this`held
      ensures unitsToBeFreed == old(unitsToBeFreed) + [u] && held == old(held) - {u}
    {
      unitsToBeFreed := unitsToBeFreed + [u];
      held := held - {u};
    }

    /** Issue an operation: its unit is freed next cycle, or held until completion when it cannot be pipelined. */
    method Issue(op: nat, latency: nat, pipelined: bool) returns (idx: int)
      requires Valid() && op < |fuPerCapList|
      modifies this
      ensures Valid() && View() == Next(old(View()), Request(op, latency != 1 && !pipelined))
      ensures idx == Encode(FuPool.GetUnit(old(View()).queues[op], old(unitBusy)).0)
    {
      ghost var p := View();
      var hold := latency != 1 && !pipelined;
      StepKeepsInv(p, Request(op, hold));
      TriedUnits(fuPerCapList[op]);
      assert AllTried(fuPerCapList)[op] == Tried(fuPerCapList[op]);
      assert forall k | 0 <= k < |p.queues[op]| :: p.queues[op][k] < |unitBusy|;
      assert forall u | u in Tried(fuPerCapList[op]) :: u < |unitBusy|;
      hide Inv, FuPool.GetUnit, Tried;
      idx := GetUnit(op);
      if idx >= 0 {
        if hold {
          held := held + {idx};
        } else {
          unitsToBeFreed := unitsToBeFreed + [idx];
        }
      }
      assert View().queues == p.queues[op := Tried(fuPerCapList[op])];
    }

    /** An operation that was not pipelined has finished. */
    method ProcessCompletion(u: nat)
      requires Valid() && u in held
      modifies this
      ensures Valid() && View() == Next(old(View()), Completion(u))
    {
      StepKeepsInv(View(), Completion(u));
      assert IsBusy(unitBusy, u);
      hide Inv;
      FreeUnitNextCycle(u);
    }

    /** Free every unit on the list; each is busy when its turn comes, because none is on the list twice. */
    method ProcessFreeUnits()
      requires Valid()
      modifies this
      ensures Valid() && View() == Next(old(View()), EndOfCycle)
    {
      StepKeepsInv(View(), EndOfCycle);
      ghost var p := View();
      while unitsToBeFreed != []
        invariant unitsToBeFreed <= p.toBeFreed && fuPerCapList == old(fuPerCapList) && held == p.held
        invariant |unitBusy| == |p.busy|
        invariant forall u | 0 <= u < |unitBusy| :: unitBusy[u] <==> p.busy[u] && u !in p.toBeFreed[|unitsToBeFreed|..]
        decreases |unitsToBeFreed|
      {
        var u := unitsToBeFreed[|unitsToBeFreed| - 1];
        assert u == p.toBeFreed[|unitsToBeFreed| - 1] && u in p.toBeFreed && IsBusy(p.busy, u);
        if !unitBusy[u] {
          assert false;
        }
        unitsToBeFreed := unitsToBeFreed[..|unitsToBeFreed| - 1];
        assert p.toBeFreed[|unitsToBeFreed|..] == [u] + p.toBeFreed[|unitsToBeFreed| + 1..];
        unitBusy := unitBusy[u := false];
      }
      assert unitBusy == Next(p, EndOfCycle).busy;
    }
  }

  lemma EmptyQueue(f: FUIdxQueue, busy: seq<bool>)
    requires Positioned(f) && f.funcUnitsIdx == []
    ensures FuPool.GetUnit(Tried(f), busy) == (NoCapable, Tried(f))
  {
  }

  /** The unit at the head of a queue, which moves on to the next. */
  method GetFU(f: FUIdxQueue) returns (u: nat, g: FUIdxQueue)
    requires Positioned(f) && f.funcUnitsIdx != []
    ensures Positioned(g) && g.funcUnitsIdx == f.funcUnitsIdx
    ensures u == Tried(f)[0] && Tried(g) == Rotate(Tried(f), 1)
  {
    RotateOnce(f.funcUnitsIdx, f.idx);
    RotateFull(f.funcUnitsIdx);
    hide Rotate;
    u := f.funcUnitsIdx[f.idx];
    var idx := f.idx + 1;
    if idx == |f.funcUnitsIdx| {
      idx := 0;
    }
    g := f.(idx := idx);
  }

  lemma TriedInBounds(f: FUIdxQueue, n: nat)
    requires Positioned(f) && f.funcUnitsIdx != [] && forall u | u in f.funcUnitsIdx :: u < n
    ensures |Tried(f)| == |f.funcUnitsIdx| && forall k | 0 <= k < |Tried(f)| :: Tried(f)[k] < n
  {
    TriedUnits(f);
    hide Tried;
    assert forall k | 0 <= k < |Tried(f)| :: Tried(f)[k] in f.funcUnitsIdx;
  }

  predicate BusyBefore(t: seq<nat>, busy: seq<bool>, k: nat)
  {
    k <= |t| && forall j | 0 <= j < k :: IsBusy(busy, t[j])
  }

  lemma NoneBusyBefore(t: seq<nat>, busy: seq<bool>)
    ensures BusyBefore(t, busy, 0)
  {
  }

  lemma BusyOneMore(t: seq<nat>, busy: seq<bool>, k: nat)
    requires BusyBefore(t, busy, k) && k < |t| && IsBusy(busy, t[k])
    ensures BusyBefore(t, busy, k + 1)
  {
  }

  /** Try units in order until one is free, or the first one comes up again. */
  method ScanQueue(f: FUIdxQueue, busy: seq<bool>) returns (idx: int, g: FUIdxQueue)
    requires Positioned(f) && f.funcUnitsIdx != [] && forall u | u in f.funcUnitsIdx :: u < |busy|
    ensures Positioned(g)
    ensures var r := FuPool.GetUnit(Tried(f), busy);
            idx == Encode(r.0) && Tried(g) == r.1 && (r.0.Unit? ==> r.0.u < |busy|)
  {
    ghost var t := Tried(f);
    TriedInBounds(f, |busy|);
    assert 1 <= Arc(t) <= |t|;
    hide Rotate, FirstFree, ArcFrom, Arc, FuPool.GetUnit, Tried, Positioned, BusyBefore;
    NoneBusyBefore(t, busy);
    RotateFull(t);
    RotateOnce(t, 0);
    var u, start;
    u, g := GetFU(f);
    start := u;
    ghost var c := 1;
    while busy[u]
      invariant Positioned(g) && g.funcUnitsIdx == f.funcUnitsIdx && u < |busy|
      invariant 1 <= c <= Arc(t) && u == t[c - 1] && Tried(g) == Rotate(t, c)
      invariant BusyBefore(t, busy, c - 1)
      decreases |t| - c
    {
      BusyOneMore(t, busy, c - 1);
      ArcContinues(t, c);
      if c < |t| {
        RotateOnce(t, c);
      }
      u, g := GetFU(g);
      if u == start {
        AllBusyInArc(t, busy, c);
        return NO_FREE_FU, g;
      }
      c := c + 1;
    }
    FirstFreeAt(t, busy, c - 1);
    idx := u;
  }

  lemma TriedUnits(f: FUIdxQueue)
    requires Positioned(f)
    ensures |Tried(f)| == |f.funcUnitsIdx| && forall k | 0 <= k < |Tried(f)| :: Tried(f)[k] in f.funcUnitsIdx
    ensures forall u | u in f.funcUnitsIdx :: u in Tried(f)
  {
    RotateKeepsUnits(f.funcUnitsIdx, f.idx);
    assert forall k | 0 <= k < |Tried(f)| :: Tried(f)[k] in Tried(f);
  }

  lemma ArcContinues(t: seq<nat>, c: nat)
    requires t != [] && 1 <= c <= Arc(t)
    ensures Arc(t) <= |t| && (c < |t| && t[c] != t[0] ==> c + 1 <= Arc(t))
  {
  }

  /** The scan came back to its first unit after `c` busy ones: that is the whole arc. */
  lemma AllBusyInArc(t: seq<nat>, busy: seq<bool>, c: nat)
    requires t != [] && 1 <= c <= Arc(t) && (c == |t| || t[c] == t[0]) && BusyBefore(t, busy, c)
    ensures c == Arc(t) && FuPool.GetUnit(t, busy) == (NoFree, if c == |t| then Rotate(t, 1) else Rotate(t, c + 1))
  {
    assert forall j | 0 <= j < c :: t[..c][j] == t[j];
  }

  lemma FirstFreeAt(t: seq<nat>, busy: seq<bool>, k: nat)
    requires t != [] && k < Arc(t) && !IsBusy(busy, t[k]) && BusyBefore(t, busy, k)
    ensures FuPool.GetUnit(t, busy) == (Unit(t[k]), Rotate(t, k + 1))
  {
    assert forall j | 0 <= j < Arc(t) :: t[..Arc(t)][j] == t[j];
    assert FirstFree(t[..Arc(t)], busy, 0) == k;
  }

  /** Append one description's units to the queue of each operation it lists. */
  method AddUnits(queues: seq<seq<nat>>, ops: seq<OpDesc>, base: nat, number: nat) returns (r: seq<seq<nat>>)
    ensures |r| == |queues| && forall op | 0 <= op < |r| :: r[op] == queues[op] + Listed(ops, op, base, number)
  {
    r := queues;
    var j := 0;
    while j < |ops|
      invariant 0 <= j <= |ops| && |r| == |queues|
      invariant forall op | 0 <= op < |r| :: r[op] == queues[op] + Listed(ops[..j], op, base, number)
    {
      assert ops[..j + 1][..j] == ops[..j];
      var op := ops[j].op;
      if op < |r| {
        r := r[op := r[op] + Range(base, number)];
      }
      j := j + 1;
    }
    assert ops[..j] == ops;
  }
}
