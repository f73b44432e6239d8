/** Whole runs of the instruction queue, and exactly which instructions a squash mishandles. */
module IqRuns {
  import opened Prelude
  import opened IqState
  import opened IqInvariant
  import opened IqProof
  import opened IqSteps
  import opened IqSquash

  // ---- Runs -------------------------------------------------------------------------------------

  /** An empty queue: every register ready, nobody waiting. */
  function Empty(numEntries: nat, numRegs: nat, fixed: set<nat>): Iq
  {
    Iq(numEntries, fixed, [], seq(numRegs, _ => []), seq(numRegs, _ => None), seq(numRegs, _ => true), numEntries, 0)
  }

  lemma EmptyIsValid(numEntries: nat, numRegs: nat, fixed: set<nat>)
    ensures Inv(Empty(numEntries, numRegs, fixed)) && AllAgree(Empty(numEntries, numRegs, fixed))
  {
  }

  /** Steps of a queue into which only instructions with agreeing flags are inserted. */
  predicate MayStep(q: Iq, e: Event)
    requires Shaped(q)
  {
    Guard(q, e) && (e.InsertInst? ==> FlagsAgree(e.x.flags))
  }

  function Next(q: Iq, e: Event): Iq
    requires Inv(q) && AllAgree(q) && MayStep(q, e)
  {
    match e
    case InsertInst(x) => Insert(q, x)
    case RecordNop(x) => AddProducer(q, x)
    case IssueInst(i) => Issue(q, i)
    case RescheduleInst(i) => Reschedule(q, i)
    case WakeInst(i) => Wake(q, i)
    case CommitTo(n) => Commit(q, n)
    case SquashTo(n) =>
      SquashWalkSafe(q, n);
      SquashWalk(q, n).value
  }

  lemma InsertAgree(q: Iq, x: Inst)
    requires AllAgree(q) && FlagsAgree(x.flags) && WellSized(q) && RegsInRange(q, x)
    ensures AllAgree(Insert(q, x))
  {
    hide FlagsAgree, LateReady, WithDependent;
  }

  lemma IssuedBitAgree(q: Iq, i: nat)
    requires AllAgree(q) && At(q, i)
    ensures AllAgree(Issue(q, i)) && AllAgree(Reschedule(q, i))
  {
    hide FlagsAgree;
  }

  lemma WakeAgree(q: Iq, i: nat)
    requires AllAgree(q) && At(q, i) && WellSized(q)
    ensures AllAgree(Wake(q, i))
  {
    hide FlagsAgree, WokenNodes;
  }

  lemma CommitAgree(q: Iq, n: nat)
    requires AllAgree(q)
    ensures AllAgree(Commit(q, n))
  {
    CommitSuffix(q, n);
    hide FlagsAgree, Commit;
  }

  lemma InsertMayAgree(q: Iq, x: Inst)
    requires Shaped(q) && AllAgree(q) && MayInsert(q, x) && FlagsAgree(x.flags)
    ensures AllAgree(Insert(q, x))
  {
    hide AllAgree, FlagsAgree, Insert;
    InsertAgree(q, x);
  }

  lemma WokenAgree(q: Iq, i: nat)
    requires Shaped(q) && AllAgree(q) && At(q, i)
    ensures AllAgree(Wake(q, i))
  {
    hide AllAgree, Wake;
    WakeAgree(q, i);
  }

  lemma RecordAgree(q: Iq, x: Inst)
    requires Shaped(q) && AllAgree(q)
    ensures AllAgree(AddProducer(q, x))
  {
    hide FlagsAgree;
  }

  lemma StepKeepsInv(q: Iq, e: Event)
    requires Inv(q) && AllAgree(q) && MayStep(q, e)
    ensures Inv(Next(q, e)) && AllAgree(Next(q, e))
  {
    hide EntriesBalance, ReadyMeansEmpty, NodesOwned, NodesExact, ProducerOlder, SourcesBalance, Progress, FreshDests,
         AllAgree, Shaped, MayInsert, MayRecord, AddProducer, Insert, Issue, Reschedule, Wake, Commit, SquashWalk;
    match e
    case InsertInst(x) =>
      InsertKeepsInv(q, x);
      InsertMayAgree(q, x);
    case RecordNop(x) =>
      RecordKeepsInv(q, x);
      RecordAgree(q, x);
    case IssueInst(i) =>
      IssueKeepsInv(q, i);
      IssuedBitAgree(q, i);
    case RescheduleInst(i) =>
      RescheduleKeepsInv(q, i);
      IssuedBitAgree(q, i);
    case WakeInst(i) =>
      WakeKeepsInv(q, i);
      WokenAgree(q, i);
    case CommitTo(n) =>
      CommitKeepsInv(q, n);
      CommitAgree(q, n);
    case SquashTo(n) => SquashWalkSafe(q, n);
  }

  predicate Enabled(q: Iq, es: seq<Event>)
    requires Inv(q) && AllAgree(q)
    decreases |es|
  {
    es == [] || (MayStep(q, es[0]) && (StepKeepsInv(q, es[0]); Enabled(Next(q, es[0]), es[1..])))
  }

  /** The queue after the events of a run. */
  function After(q: Iq, es: seq<Event>): Iq
    requires Inv(q) && AllAgree(q) && Enabled(q, es)
    decreases |es|
  {
    if es == [] then q
    else
      StepKeepsInv(q, es[0]);
      After(Next(q, es[0]), es[1..])
  }

  lemma {:induction false} RunKeepsInv(q: Iq, es: seq<Event>)
    requires Inv(q) && AllAgree(q) && Enabled(q, es)
    ensures Inv(After(q, es)) && AllAgree(After(q, es)) && After(q, es).numEntries == q.numEntries
    decreases |es|
  {
    if es != [] {
      StepKeepsInv(q, es[0]);
      RunKeepsInv(Next(q, es[0]), es[1..]);
      NextKeepsSize(q, es[0]);
      hide Inv, AllAgree, MayStep, Next;
    }
  }

  lemma NextKeepsSize(q: Iq, e: Event)
    requires Inv(q) && AllAgree(q) && MayStep(q, e)
    ensures Next(q, e).numEntries == q.numEntries
  {
    if e.SquashTo? {
      SquashWalkSafe(q, e.n);
    }
    hide Inv, SquashWalk;
  }

  // ---- What every run satisfies -----------------------------------------------------------------

  predicate Possible(numEntries: nat, numRegs: nat, fixed: set<nat>, es: seq<Event>)
  {
    EmptyIsValid(numEntries, numRegs, fixed);
    Enabled(Empty(numEntries, numRegs, fixed), es)
  }

  function Reached(numEntries: nat, numRegs: nat, fixed: set<nat>, es: seq<Event>): (q: Iq)
    requires Possible(numEntries, numRegs, fixed, es)
    ensures Inv(q) && AllAgree(q) && q.numEntries == numEntries
  {
    EmptyIsValid(numEntries, numRegs, fixed);
    RunKeepsInv(Empty(numEntries, numRegs, fixed), es);
    After(Empty(numEntries, numRegs, fixed), es)
  }

  /** In every reachable state a squash to any point trips no assert and leaves exactly the older instructions. */
  lemma SquashIsSafe(numEntries: nat, numRegs: nat, fixed: set<nat>, es: seq<Event>, n: nat)
    requires Possible(numEntries, numRegs, fixed, es)
    ensures var q := Reached(numEntries, numRegs, fixed, es);
            var w := SquashWalk(q, n);
            && w.Fine? && SquashedTo(q, w.value, n) && OnlyOlderLeft(q, w.value, n)
            && w.value.freeEntries + HoldCount(w.value.insts) == numEntries
  {
    var q := Reached(numEntries, numRegs, fixed, es);
    SquashWalkSafe(q, n);
    hide SquashWalk, SquashedTo, OnlyOlderLeft, Possible, Reached, Shaped;
    SquashedToMeans(q, SquashWalk(q, n).value, n);
  }

  /** Consumers are younger than their producer, and a register somebody waits for is not ready. */
  lemma ConsumersWaitBehindProducer(numEntries: nat, numRegs: nat, fixed: set<nat>, es: seq<Event>, r: nat, k: nat)
    requires Possible(numEntries, numRegs, fixed, es)
    requires var q := Reached(numEntries, numRegs, fixed, es); r < |q.lists| && k < |q.lists[r]|
    ensures var q := Reached(numEntries, numRegs, fixed, es);
            && !q.ready[r] && r !in q.fixed
            && q.producer[r].Some? && q.producer[r].value < q.lists[r][k] && WillWrite(q, q.producer[r].value, r)
  {
    hide Possible, Reached, WillWrite;
  }

  /** An instruction has all its sources exactly when it sits on no list: nothing is woken twice, nothing forgotten. */
  lemma IssuableIffOnNoList(numEntries: nat, numRegs: nat, fixed: set<nat>, es: seq<Event>, i: nat)
    requires Possible(numEntries, numRegs, fixed, es)
    requires var q := Reached(numEntries, numRegs, fixed, es); At(q, i) && OnLists(q.insts[i])
    ensures var q := Reached(numEntries, numRegs, fixed, es);
            var x := q.insts[i];
            && x.readyRegs + TotalNodes(q.lists, x.seqNum) == |x.srcs|
            && (x.readyRegs == |x.srcs| <==> forall r | 0 <= r < |q.lists| :: x.seqNum !in q.lists[r])
  {
    var q := Reached(numEntries, numRegs, fixed, es);
    var x := q.insts[i];
    hide Possible, Reached;
    if x.readyRegs == |x.srcs| {
      forall r | 0 <= r < |q.lists| ensures x.seqNum !in q.lists[r] {
        TotalNodesAtLeast(q.lists, x.seqNum, r);
        CountOfZero(q.lists[r], x.seqNum);
      }
    } else if forall r | 0 <= r < |q.lists| :: x.seqNum !in q.lists[r] {
      TotalNodesZero(q.lists, x.seqNum);
    }
  }

  /** Free entries and instructions not yet released always add up, and match the thread's count. */
  lemma EntriesReleasedOnce(numEntries: nat, numRegs: nat, fixed: set<nat>, es: seq<Event>)
    requires Possible(numEntries, numRegs, fixed, es)
    ensures var q := Reached(numEntries, numRegs, fixed, es);
            q.freeEntries == numEntries - HoldCount(q.insts) && q.count == HoldCount(q.insts)
  {
    hide Possible, Reached, Shaped;
  }

  // ---- Which flags a squash handles -------------------------------------------------------------

  /** Dispatch and squash disagree on two families: accesses with half a barrier, and non-speculative full barriers. */
  lemma FlagsThatDisagree(f: Flags)
    requires !Dispatch(f).NotQueued?
    ensures !FlagsAgree(f) <==>
              || (Dispatch(f).Speculative? && !(f.readBarrier && f.writeBarrier)
                  && (f.readBarrier || f.writeBarrier || f.storeConditional))
              || (Dispatch(f).NonSpeculative? && f.readBarrier && f.writeBarrier
                  && (f.load || (f.store && !f.storeConditional)))
  {
  }

  const PLAIN := Flags(false, false, false, false, false, false, false, false)

  function NewInst(seqNum: nat, flags: Flags, srcs: seq<nat>, dests: seq<nat>): Inst
  {
    Inst(seqNum, flags, srcs, dests, seq(|srcs|, _ => false), 0, false, false, false)
  }

  /** One producer of register 0 in a queue of four, then one consumer of it. */
  const PRODUCER := NewInst(1, PLAIN, [], [0])

  const WITH_PRODUCER := Iq(4, {}, [PRODUCER], [[]], [Some(1)], [false], 3, 1)

  lemma ProducerInserted()
    ensures MayInsert(Empty(4, 1, {}), PRODUCER) && Insert(Empty(4, 1, {}), PRODUCER) == WITH_PRODUCER
    ensures Shaped(WITH_PRODUCER)
  {
    var q := Empty(4, 1, {});
    assert LookedUp(q, PRODUCER).readySrc == [];
    assert LookedUp(q, PRODUCER) == PRODUCER;
    assert WithDependent(q, PRODUCER) == [[]];
    assert Writes(q, PRODUCER, 0);
    var p := AddProducer(q, PRODUCER);
    assert p.producer == [Some(1)] && p.ready == [false];
    hide LookedUp, WithDependent;
    assert Insert(q, PRODUCER).insts == [PRODUCER];
  }

  lemma WillWriteZero(q: Iq)
    requires q.insts != [] && q.insts[0] == PRODUCER && q.fixed == {}
    ensures WillWrite(q, 1, 0)
  {
    assert q.insts[0].seqNum == 1 && Writes(q, q.insts[0], 0);
  }

  function WithConsumer(x: Inst): Iq
  {
    Iq(4, {}, [PRODUCER, x], [[2]], [Some(1)], [false], 2, 2)
  }

  lemma ConsumerInserted(f: Flags)
    requires Dispatch(f).Speculative?
    ensures var x := NewInst(2, f, [0], []);
            && MayInsert(WITH_PRODUCER, x) && Insert(WITH_PRODUCER, x) == WithConsumer(x) && Shaped(WithConsumer(x))
  {
    var x := NewInst(2, f, [0], []);
    WillWriteZero(WITH_PRODUCER);
    var q := WITH_PRODUCER;
    assert WaitCount(q, x, 0, 0) == 0 && WaitCount(q, x, 0, 1) == 1;
    assert LateReady(q, x, 0) == 0 && LateReady(q, x, 1) == 0;
    assert LookedUp(q, x).readySrc == x.readySrc;
    assert LookedUp(q, x) == x;
    assert |x.srcs| == 1 && MarkedReady(x, 0) == 0 && MarkedReady(x, 1) == 0;
    assert Copies(x.seqNum, WaitCount(q, x, 0, 1)) + q.lists[0] == [2];
    assert WithDependent(q, x) == [[2]];
    assert AddProducer(q, x).ready == q.ready && AddProducer(q, x).producer == q.producer;
    hide LookedUp, WithDependent;
    assert Insert(q, x).insts == [PRODUCER, x];
  }

  /** Put on lists but not taken off: squashing its producer then finds a consumer still waiting. */
  lemma LeftBehind(f: Flags)
    requires Dispatch(f).Speculative? && !Unlinks(f)
    ensures var x := NewInst(2, f, [0], []);
            && MayInsert(Empty(4, 1, {}), PRODUCER) && Insert(Empty(4, 1, {}), PRODUCER) == WITH_PRODUCER
            && Shaped(WITH_PRODUCER) && MayInsert(WITH_PRODUCER, x) && Shaped(Insert(WITH_PRODUCER, x))
            && SquashWalk(Insert(WITH_PRODUCER, x), 0) == ListNotEmpty(0)
  {
    var x := NewInst(2, f, [0], []);
    ProducerInserted();
    ConsumerInserted(f);
    var q := WithConsumer(x);
    var p := q.(insts := [PRODUCER], freeEntries := 3, count := 1);
    assert q.insts[..1] == [PRODUCER];
    assert ClearProducers(p, x, 0) == Fine(p);
    assert SquashLast(q) == Fine(p);
    LastIsPlain(p);
  }

  /** Squashing the producer while a consumer is still on its list trips the assert. */
  lemma LastIsPlain(q: Iq)
    requires WellSized(q) && q.insts == [PRODUCER] && q.fixed == {} && q.lists == [[2]]
    ensures SquashLast(q) == ListNotEmpty(0) && SquashWalk(q, 0) == ListNotEmpty(0)
  {
    assert Unlinked(q, PRODUCER) == Fine(q.lists);
    var p := q.(insts := q.insts[..0], freeEntries := q.freeEntries + 1, count := q.count - 1);
    assert ClearProducers(p, PRODUCER, 0) == Fine(p);
    assert ClearProducers(p, PRODUCER, 1) == ListNotEmpty(0);
  }

  function WithOdd(y: Inst, x: Inst): Iq
  {
    Iq(4, {}, [PRODUCER, y, x], [[2]], [Some(1)], [false], 1, 3)
  }

  lemma OddInserted(f: Flags)
    requires Dispatch(f).NonSpeculative?
    ensures var y, x := NewInst(2, PLAIN, [0], []), NewInst(3, f, [0], []);
            Shaped(WithConsumer(y)) && MayInsert(WithConsumer(y), x) && Insert(WithConsumer(y), x) == WithOdd(y, x)
  {
    var y, x := NewInst(2, PLAIN, [0], []), NewInst(3, f, [0], []);
    var q := WithConsumer(y);
    WillWriteZero(q);
    assert MarkedReady(x, 0) == 0;
    assert AddProducer(q, x).ready == q.ready && AddProducer(q, x).producer == q.producer;
    assert Insert(q, x).insts == [PRODUCER, y, x];
  }

  /** Never put on lists but taken off: the search runs past the consumers that are there. */
  lemma NeverThere(f: Flags)
    requires Dispatch(f).NonSpeculative? && Unlinks(f)
    ensures var y, x := NewInst(2, PLAIN, [0], []), NewInst(3, f, [0], []);
            && MayInsert(Empty(4, 1, {}), PRODUCER) && Insert(Empty(4, 1, {}), PRODUCER) == WITH_PRODUCER
            && Shaped(WITH_PRODUCER) && MayInsert(WITH_PRODUCER, y) && Insert(WITH_PRODUCER, y) == WithConsumer(y)
            && Shaped(WithConsumer(y)) && MayInsert(WithConsumer(y), x) && Insert(WithConsumer(y), x) == WithOdd(y, x)
            && Shaped(WithOdd(y, x)) && SquashWalk(WithOdd(y, x), 2) == RanOffList(0)
  {
    hide Dispatch, Unlinks, MayInsert, Insert;
    assert Dispatch(PLAIN).Speculative? by {
      PlainIsSpeculative();
    }
    ProducerInserted();
    ConsumerInserted(PLAIN);
    OddInserted(f);
    var y, x := NewInst(2, PLAIN, [0], []), NewInst(3, f, [0], []);
    UnlinkRunsOff(WithOdd(y, x), x);
  }

  lemma PlainIsSpeculative()
    ensures Dispatch(PLAIN).Speculative?
  {
  }

  lemma UnlinkRunsOff(r: Iq, x: Inst)
    requires Shaped(r) && |r.insts| == 3 && r.insts[2] == x && r.lists == [[2]] && r.fixed == {}
    requires x == NewInst(3, x.flags, [0], []) && Unlinks(x.flags)
    ensures SquashWalk(r, 2) == RanOffList(0)
  {
    assert Unlink(r, x, 0) == Fine(r.lists);
    assert Unlink(r, x, 1) == RanOffList(0);
  }
}
