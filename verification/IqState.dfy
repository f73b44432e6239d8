/** The instruction queue: its dependency lists, scoreboard and entries, and the operations on them. */
module IqState {
  import opened Prelude

  // ---- Instructions -----------------------------------------------------------------------------

  datatype Flags = Flags(load: bool, store: bool, atomic: bool, storeConditional: bool, nonSpeculative: bool,
                         readBarrier: bool, writeBarrier: bool, nop: bool)

  datatype Path = Speculative | NonSpeculative | NotQueued

  /** How dispatch puts an instruction into the queue. */
  function Dispatch(f: Flags): Path
  {
    if f.atomic then NonSpeculative
    else if f.load || (f.store && !f.storeConditional) then (if f.nonSpeculative then NonSpeculative else Speculative)
    else if f.store || f.readBarrier || f.writeBarrier then NonSpeculative
    else if f.nop then NotQueued
    else if f.nonSpeculative then NonSpeculative
    else Speculative
  }

  /** Whether a squash takes the instruction off its producers' lists. */
  predicate Unlinks(f: Flags)
  {
    var acqRel := f.readBarrier && f.writeBarrier && (f.load || (f.store && !f.storeConditional));
    || acqRel
    || (!f.nonSpeculative && !f.storeConditional && !f.atomic && !f.readBarrier && !f.writeBarrier)
  }

  predicate IsMemRef(f: Flags)
  {
    f.load || f.store || f.atomic
  }

  /**
   * `readySrc` are the per-source bits, which a wake-up leaves alone; `readyRegs` counts ready sources.
   * `woken`: the instruction has written back and its dependents have been woken.
   */
  datatype Inst = Inst(seqNum: nat, flags: Flags, srcs: seq<nat>, dests: seq<nat>, readySrc: seq<bool>,
                       readyRegs: nat, issued: bool, memDone: bool, woken: bool)

  predicate OnLists(x: Inst)
  {
    Dispatch(x.flags).Speculative?
  }

  /** The instruction still occupies a queue entry. */
  predicate Holds(x: Inst)
  {
    if IsMemRef(x.flags) then !x.memDone else !x.issued
  }

  // ---- The queue --------------------------------------------------------------------------------

  /**
   * `insts` is the instruction list, oldest first. For each register, `lists` holds the waiting consumers, newest
   * first, `producer` the instruction that will write it, and `ready` the scoreboard bit.
   */
  datatype Iq = Iq(numEntries: nat, fixed: set<nat>, insts: seq<Inst>, lists: seq<seq<nat>>,
                   producer: seq<Option<nat>>, ready: seq<bool>, freeEntries: int, count: int)

  /** Registers the queue tracks: in range and not of a fixed mapping. */
  predicate Tracked(q: Iq, r: nat)
  {
    r < |q.lists| && r !in q.fixed
  }

  predicate WellSized(q: Iq)
  {
    |q.lists| == |q.producer| == |q.ready|
  }

  predicate RegsInRange(q: Iq, x: Inst)
  {
    && |x.readySrc| == |x.srcs|
    && (forall k | 0 <= k < |x.srcs| :: x.srcs[k] < |q.lists|)
    && (forall k | 0 <= k < |x.dests| :: x.dests[k] < |q.lists|)
  }

  // ---- Insertion --------------------------------------------------------------------------------

  /** Source `k` of a new instruction has to wait: not ready at rename, and not ready now. */
  predicate Waits(q: Iq, x: Inst, k: nat)
    requires WellSized(q) && RegsInRange(q, x) && k < |x.srcs|
  {
    !x.readySrc[k] && x.srcs[k] !in q.fixed && !q.ready[x.srcs[k]]
  }

  /** How many of the first `n` sources wait on register `r`. */
  function WaitCount(q: Iq, x: Inst, r: nat, n: nat): nat
    requires WellSized(q) && RegsInRange(q, x) && n <= |x.srcs|
  {
    if n == 0 then 0 else WaitCount(q, x, r, n - 1) + if Waits(q, x, n - 1) && x.srcs[n - 1] == r then 1 else 0
  }

  /** How many of the first `n` sources became ready between rename and insertion. */
  function LateReady(q: Iq, x: Inst, n: nat): nat
    requires WellSized(q) && RegsInRange(q, x) && n <= |x.srcs|
  {
    if n == 0 then 0
    else
      var k := n - 1;
      LateReady(q, x, k) + if !x.readySrc[k] && x.srcs[k] !in q.fixed && q.ready[x.srcs[k]] then 1 else 0
  }

  function Copies(s: nat, n: nat): seq<nat>
  {
    seq(n, _ => s)
  }

  /** The instruction as it sits in the queue after its sources have been looked up. */
  function LookedUp(q: Iq, x: Inst): Inst
    requires WellSized(q) && RegsInRange(q, x)
  {
    x.(readySrc := seq(|x.srcs|, k requires 0 <= k < |x.srcs| =>
                     x.readySrc[k] || (x.srcs[k] !in q.fixed && q.ready[x.srcs[k]])),
       readyRegs := x.readyRegs + LateReady(q, x, |x.srcs|))
  }

  /** The dependency lists with the new instruction at the front of each register it waits for. */
  function WithDependent(q: Iq, x: Inst): seq<seq<nat>>
    requires WellSized(q) && RegsInRange(q, x)
  {
    seq(|q.lists|, r requires 0 <= r < |q.lists| => Copies(x.seqNum, WaitCount(q, x, r, |x.srcs|)) + q.lists[r])
  }

  predicate Writes(q: Iq, x: Inst, r: nat)
  {
    r in x.dests && r !in q.fixed
  }

  function AddProducer(q: Iq, x: Inst): Iq
    requires WellSized(q)
  {
    q.(producer := seq(|q.producer|, r requires 0 <= r < |q.producer| =>
                     if Writes(q, x, r) then Some(x.seqNum) else q.producer[r]),
       ready := seq(|q.ready|, r requires 0 <= r < |q.ready| => q.ready[r] && !Writes(q, x, r)))
  }

  function Insert(q: Iq, x: Inst): Iq
    requires WellSized(q) && RegsInRange(q, x)
  {
    var y := if OnLists(x) then LookedUp(q, x) else x;
    var lists := if OnLists(x) then WithDependent(q, x) else q.lists;
    AddProducer(q.(insts := q.insts + [y], lists := lists, freeEntries := q.freeEntries - 1, count := q.count + 1), x)
  }

  // ---- Issue, wake-up and commit ----------------------------------------------------------------

  predicate At(q: Iq, i: nat) { i < |q.insts| }

  function Issue(q: Iq, i: nat): Iq
    requires At(q, i)
  {
    var x := q.insts[i];
    var freed := if IsMemRef(x.flags) then 0 else 1;
    q.(insts := q.insts[i := x.(issued := true)], freeEntries := q.freeEntries + freed, count := q.count - freed)
  }

  /** A memory instruction that could not complete goes back to waiting; it keeps its entry. */
  function Reschedule(q: Iq, i: nat): Iq
    requires At(q, i)
  {
    q.(insts := q.insts[i := q.insts[i].(issued := false)])
  }

  function CountOf(l: seq<nat>, s: nat): nat
  {
    if l == [] then 0 else CountOf(l[1..], s) + if l[0] == s then 1 else 0
  }

  /** How many nodes of `s` sit on the lists of the registers that `x` writes, below register `n`. */
  function WokenNodes(q: Iq, x: Inst, s: nat, n: nat): nat
    requires n <= |q.lists|
  {
    if n == 0 then 0
    else WokenNodes(q, x, s, n - 1) + if Writes(q, x, n - 1) then CountOf(q.lists[n - 1], s) else 0
  }

  /** Wake-up of `i`: every node on the lists of its destinations makes one source of its instruction ready. */
  function Wake(q: Iq, i: nat): Iq
    requires At(q, i) && WellSized(q)
  {
    var x := q.insts[i];
    var mem := IsMemRef(x.flags);
    q.(insts := seq(|q.insts|, j requires 0 <= j < |q.insts| =>
                  var y := q.insts[j];
                  var z := y.(readyRegs := y.readyRegs + WokenNodes(q, x, y.seqNum, |q.lists|));
                  if j == i then z.(woken := true, memDone := y.memDone || mem) else z),
       lists := seq(|q.lists|, r requires 0 <= r < |q.lists| => if Writes(q, x, r) then [] else q.lists[r]),
       producer := seq(|q.producer|, r requires 0 <= r < |q.producer| =>
                     if Writes(q, x, r) then None else q.producer[r]),
       ready := seq(|q.ready|, r requires 0 <= r < |q.ready| => q.ready[r] || Writes(q, x, r)),
       freeEntries := q.freeEntries + (if mem then 1 else 0), count := q.count - (if mem then 1 else 0))
  }

  predicate Ascending(insts: seq<Inst>)
  {
    forall i, j | 0 <= i < j < |insts| :: insts[i].seqNum < insts[j].seqNum
  }

  function DropUpTo(insts: seq<Inst>, n: nat): (r: seq<Inst>)
    ensures |r| <= |insts| && forall j | 0 <= j < |r| :: r[j] == insts[|insts| - |r| + j]
    ensures forall k | 0 <= k < |insts| - |r| :: insts[k].seqNum <= n
    ensures r != [] ==> r[0].seqNum > n
  {
    if insts != [] && insts[0].seqNum <= n then DropUpTo(insts[1..], n) else insts
  }

  function Commit(q: Iq, n: nat): Iq
  {
    q.(insts := DropUpTo(q.insts, n))
  }

  // ---- Squash -----------------------------------------------------------------------------------

  /** What the walk runs into: the graph's two asserts, or nothing. */
  datatype Walk<T> = Fine(value: T) | RanOffList(reg: nat) | ListNotEmpty(reg: nat)

  /** The first node of `s` leaves the list. */
  function RemoveNode(l: seq<nat>, s: nat): (r: seq<nat>)
    requires s in l
    ensures |r| == |l| - 1
  {
    if l[0] == s then l[1..] else [l[0]] + RemoveNode(l[1..], s)
  }

  /** Removal from one list: nothing to do on an empty list, and an assert when the end is reached. */
  function RemoveFrom(lists: seq<seq<nat>>, r: nat, s: nat): Walk<seq<seq<nat>>>
    requires r < |lists|
  {
    if lists[r] == [] then Fine(lists)
    else if s in lists[r] then Fine(lists[r := RemoveNode(lists[r], s)])
    else RanOffList(r)
  }

  /** Take the instruction off the lists of its first `n` sources whose ready bit is clear. */
  function Unlink(q: Iq, x: Inst, n: nat): (w: Walk<seq<seq<nat>>>)
    requires RegsInRange(q, x) && n <= |x.srcs|
    ensures w.Fine? ==> |w.value| == |q.lists|
  {
    if n == 0 then Fine(q.lists)
    else
      match Unlink(q, x, n - 1)
      case Fine(lists) =>
        var r := x.srcs[n - 1];
        if !x.readySrc[n - 1] && r !in q.fixed then RemoveFrom(lists, r, x.seqNum) else Fine(lists)
      case w => w
  }

  /** The destination lists must be empty; their producers are forgotten. */
  function ClearProducers(q: Iq, x: Inst, n: nat): (w: Walk<Iq>)
    requires WellSized(q) && RegsInRange(q, x) && n <= |x.dests|
    ensures w.Fine? ==> w.value == q.(producer := w.value.producer) && |w.value.producer| == |q.producer|
  {
    if n == 0 then Fine(q)
    else
      match ClearProducers(q, x, n - 1)
      case Fine(p) =>
        var r := x.dests[n - 1];
        if r in q.fixed then Fine(p)
        else if q.lists[r] != [] then ListNotEmpty(r)
        else Fine(p.(producer := p.producer[r := None]))
      case w => w
  }

  /** The squash has to release an entry: not issued yet, or a memory access in flight. */
  predicate StillInQueue(x: Inst)
  {
    !x.issued || (IsMemRef(x.flags) && !x.memDone)
  }

  /** The lists once the instruction has been taken off them, if a squash unlinks it at all. */
  function Unlinked(q: Iq, x: Inst): (w: Walk<seq<seq<nat>>>)
    requires RegsInRange(q, x)
    ensures w.Fine? ==> |w.value| == |q.lists|
  {
    if Unlinks(x.flags) then Unlink(q, x, |x.srcs|) else Fine(q.lists)
  }

  /** Squash the youngest instruction. */
  function SquashLast(q: Iq): (w: Walk<Iq>)
    requires WellSized(q) && q.insts != [] && RegsInRange(q, q.insts[|q.insts| - 1])
    ensures w.Fine? ==> WellSized(w.value) && |w.value.lists| == |q.lists| && w.value.insts == q.insts[..|q.insts| - 1]
  {
    var x := q.insts[|q.insts| - 1];
    var rest := q.insts[..|q.insts| - 1];
    if !StillInQueue(x) then ClearProducers(q.(insts := rest), x, |x.dests|)
    else
      match Unlinked(q, x)
      case Fine(lists) =>
        ClearProducers(q.(insts := rest, lists := lists, freeEntries := q.freeEntries + 1, count := q.count - 1), x, |x.dests|)
      case RanOffList(r) => RanOffList(r)
      case ListNotEmpty(r) => ListNotEmpty(r)
  }

  /** The walk from the youngest instruction down to `n`. */
  function SquashWalk(q: Iq, n: nat): Walk<Iq>
    requires WellSized(q) && forall i | 0 <= i < |q.insts| :: RegsInRange(q, q.insts[i])
    decreases |q.insts|
  {
    if q.insts == [] || q.insts[|q.insts| - 1].seqNum <= n then Fine(q)
    else
      match SquashLast(q)
      case Fine(p) =>
        assert forall i | 0 <= i < |p.insts| :: p.insts[i] == q.insts[i] && RegsInRange(q, q.insts[i]);
        assert forall i | 0 <= i < |p.insts| :: RegsInRange(p, p.insts[i]);
        SquashWalk(p, n)
      case w => w
  }
}
