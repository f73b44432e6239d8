/** What every reachable state of the instruction queue satisfies, and the events that move between states. */
module IqInvariant {
  import opened Prelude
  import opened IqState

  // ---- Counting ---------------------------------------------------------------------------------

  /** How many of the first `n` sources read register `r` and have their ready bit clear. */
  function Unready(x: Inst, r: nat, n: nat): nat
    requires |x.readySrc| == |x.srcs| && n <= |x.srcs|
  {
    if n == 0 then 0 else Unready(x, r, n - 1) + if x.srcs[n - 1] == r && !x.readySrc[n - 1] then 1 else 0
  }

  /** The nodes of `s` on all lists together. */
  function TotalNodes(lists: seq<seq<nat>>, s: nat): nat
  {
    if lists == [] then 0 else TotalNodes(lists[..|lists| - 1], s) + CountOf(lists[|lists| - 1], s)
  }

  function HoldCount(insts: seq<Inst>): nat
  {
    if insts == [] then 0 else HoldCount(insts[..|insts| - 1]) + if Holds(insts[|insts| - 1]) then 1 else 0
  }

  // ---- Invariants -------------------------------------------------------------------------------

  predicate Shaped(q: Iq)
  {
    && WellSized(q)
    && (forall i | 0 <= i < |q.insts| :: RegsInRange(q, q.insts[i]))
    && (forall i, j | 0 <= i < j < |q.insts| :: q.insts[i].seqNum < q.insts[j].seqNum)
  }

  /** Every entry is either free or held by one instruction that has not been released. */
  predicate EntriesBalance(q: Iq)
  {
    q.freeEntries + HoldCount(q.insts) == q.numEntries && q.count == HoldCount(q.insts)
  }

  /** A list is non-empty only while its register is not ready. */
  predicate ReadyMeansEmpty(q: Iq)
    requires WellSized(q)
  {
    forall r | 0 <= r < |q.lists| :: (q.ready[r] || r in q.fixed) ==> q.lists[r] == []
  }

  predicate Listed(insts: seq<Inst>, s: nat)
  {
    exists i :: 0 <= i < |insts| && insts[i].seqNum == s && OnLists(insts[i])
  }

  /** Nodes belong to queued instructions. */
  predicate NodesOwned(q: Iq)
  {
    forall r, k | 0 <= r < |q.lists| && 0 <= k < |q.lists[r]| :: Listed(q.insts, q.lists[r][k])
  }

  /** The nodes an instruction should have on the list of `r`: one for each source there whose ready bit is clear. */
  function NodesDue(x: Inst, r: nat): nat
    requires |x.readySrc| == |x.srcs|
  {
    if OnLists(x) then Unready(x, r, |x.srcs|) else 0
  }

  /** While a register is not ready, its list holds exactly the nodes that are due. */
  predicate NodesExact(q: Iq)
    requires Shaped(q)
  {
    forall i, r | 0 <= i < |q.insts| && 0 <= r < |q.lists| && Tracked(q, r) && !q.ready[r] ::
      CountOf(q.lists[r], q.insts[i].seqNum) == NodesDue(q.insts[i], r)
  }

  /** Instruction `p` is queued, has still to write back, and will write `r`. */
  predicate WillWrite(q: Iq, p: nat, r: nat)
  {
    exists i :: 0 <= i < |q.insts| && q.insts[i].seqNum == p && Writes(q, q.insts[i], r) && !q.insts[i].woken
  }

  /** Consumers wait behind a queued producer that is older than all of them. */
  predicate ProducerOlder(q: Iq)
    requires WellSized(q)
  {
    forall r | 0 <= r < |q.lists| && q.lists[r] != [] ::
      && q.producer[r].Some?
      && WillWrite(q, q.producer[r].value, r)
      && (forall k | 0 <= k < |q.lists[r]| :: q.producer[r].value < q.lists[r][k])
  }

  /** Ready sources plus waiting nodes make up all sources. */
  predicate SourcesBalance(q: Iq)
  {
    forall i | 0 <= i < |q.insts| && OnLists(q.insts[i]) ::
      q.insts[i].readyRegs + TotalNodes(q.lists, q.insts[i].seqNum) == |q.insts[i].srcs|
  }

  /** How far each instruction has got. */
  predicate Progress(q: Iq)
  {
    forall i | 0 <= i < |q.insts| ::
      var x := q.insts[i];
      && (x.issued && OnLists(x) ==> x.readyRegs == |x.srcs|)
      && (x.woken ==> x.issued)
      && (x.memDone <==> x.woken && IsMemRef(x.flags))
  }

  /** No instruction reads a register that it, or a younger instruction, writes. */
  predicate FreshDests(q: Iq)
  {
    forall i, j, k | 0 <= i <= j < |q.insts| && 0 <= k < |q.insts[j].dests| && q.insts[j].dests[k] !in q.fixed ::
      q.insts[j].dests[k] !in q.insts[i].srcs
  }

  predicate Inv(q: Iq)
  {
    && Shaped(q) && EntriesBalance(q) && ReadyMeansEmpty(q) && NodesOwned(q) && NodesExact(q) && ProducerOlder(q)
    && SourcesBalance(q) && Progress(q) && FreshDests(q)
  }

  // ---- Events -----------------------------------------------------------------------------------

  datatype Event =
    | InsertInst(x: Inst)
    | RecordNop(x: Inst)
    | IssueInst(i: nat)
    | RescheduleInst(i: nat)
    | WakeInst(i: nat)
    | CommitTo(n: nat)
    | SquashTo(n: nat)

  /** What rename has marked ready is counted, and fixed registers are always marked. */
  function MarkedReady(x: Inst, n: nat): nat
    requires |x.readySrc| == |x.srcs| && n <= |x.srcs|
  {
    if n == 0 then 0 else MarkedReady(x, n - 1) + if x.readySrc[n - 1] then 1 else 0
  }

  /** Rename gives an instruction registers that nobody in the queue reads or writes. */
  predicate NewDests(q: Iq, x: Inst)
  {
    forall k | 0 <= k < |x.dests| && x.dests[k] !in q.fixed ::
      x.dests[k] !in x.srcs && forall i | 0 <= i < |q.insts| ::
        x.dests[k] !in q.insts[i].srcs && x.dests[k] !in q.insts[i].dests
  }

  /** A nop gets no entry; dispatch only records it as the producer of its destinations. */
  predicate MayRecord(q: Iq, x: Inst)
  {
    RegsInRange(q, x) && Dispatch(x.flags).NotQueued? && NewDests(q, x)
  }

  /**
   * What dispatch and rename guarantee about a new instruction: it is the youngest, its destinations are fresh
   * registers nobody in the queue reads or writes, and a source that is not ready has its producer queued.
   */
  predicate MayInsert(q: Iq, x: Inst)
    requires Shaped(q)
  {
    && q.freeEntries > 0 && RegsInRange(q, x) && !Dispatch(x.flags).NotQueued?
    && !x.issued && !x.memDone && !x.woken && x.readyRegs == MarkedReady(x, |x.srcs|)
    && (forall i | 0 <= i < |q.insts| :: q.insts[i].seqNum < x.seqNum)
    && (forall k | 0 <= k < |x.srcs| :: x.srcs[k] in q.fixed ==> x.readySrc[k])
    && NewDests(q, x)
    && (forall k | 0 <= k < |x.srcs| && Waits(q, x, k) ::
          q.producer[x.srcs[k]].Some? && WillWrite(q, q.producer[x.srcs[k]].value, x.srcs[k]))
  }

  predicate FlagsAgree(f: Flags)
  {
    Dispatch(f).Speculative? <==> Unlinks(f)
  }

  predicate Guard(q: Iq, e: Event)
    requires Shaped(q)
  {
    match e
    case InsertInst(x) => MayInsert(q, x)
    case RecordNop(x) => MayRecord(q, x)
    case IssueInst(i) => At(q, i) && !q.insts[i].issued && (OnLists(q.insts[i]) ==> q.insts[i].readyRegs == |q.insts[i].srcs|)
    case RescheduleInst(i) => At(q, i) && q.insts[i].issued && IsMemRef(q.insts[i].flags) && !q.insts[i].woken
    case WakeInst(i) => At(q, i) && q.insts[i].issued && !q.insts[i].woken
    case CommitTo(n) => forall i | 0 <= i < |q.insts| && q.insts[i].seqNum <= n :: q.insts[i].woken
    case SquashTo(n) => true
  }

  // ---- What a squash leaves ---------------------------------------------------------------------

  function KeepOlder(l: seq<nat>, n: nat): seq<nat>
  {
    if l == [] then [] else (if l[0] <= n then [l[0]] else []) + KeepOlder(l[1..], n)
  }

  function CutInsts(insts: seq<Inst>, n: nat): (r: seq<Inst>)
    ensures r <= insts && forall k | |r| <= k < |insts| :: insts[k].seqNum > n
    ensures r != [] ==> r[|r| - 1].seqNum <= n
  {
    if insts != [] && insts[|insts| - 1].seqNum > n then CutInsts(insts[..|insts| - 1], n) else insts
  }

  /** Squashed instructions are gone from the queue and from every list; their entries are free. */
  predicate SquashedTo(q: Iq, p: Iq, n: nat)
  {
    && p.numEntries == q.numEntries && p.fixed == q.fixed && p.ready == q.ready
    && p.insts == CutInsts(q.insts, n)
    && |p.lists| == |q.lists| && (forall r | 0 <= r < |q.lists| :: p.lists[r] == KeepOlder(q.lists[r], n))
  }

  /** In terms of the members: an instruction or a node stays exactly if its sequence number is at most `n`. */
  ghost predicate OnlyOlderLeft(q: Iq, p: Iq, n: nat)
  {
    && p.insts <= q.insts && (forall x :: x in p.insts <==> x in q.insts && x.seqNum <= n)
    && |p.lists| == |q.lists|
    && (forall r, s: nat | 0 <= r < |q.lists| :: CountOf(p.lists[r], s) == if s <= n then CountOf(q.lists[r], s) else 0)
  }
}
