/** The load/store queue inside the pipeline: every interleaving of its operations, and what all of them keep. */
module LsqWorld {
  import opened Prelude
  import opened Memory
  import opened Coverage
  import opened LsqState

  datatype LoggedLoad = LoggedLoad(seqNum: nat, addr: nat, data: Bytes)

  /**
   * `newest`: the last sequence number given to a queued instruction; they are never reused.
   * `rob`: the youngest instruction that has left the reorder buffer. `done`: how far the queue has been told.
   * `sent`: normal stores in the order the D-cache took them. `hist`: normal stores in commit order.
   * `loads`: the normal loads that have committed, with the bytes they returned. `init`: memory at the start.
   * `unreported`: instructions that have executed but that commit has not been told about; a squash they ask for
   * travels with them. `arrived`: commit has acted on the pending redirect, which the queue has yet to hear of.
   */
  datatype World = World(q: Lsq, init: Contents, sent: seq<Store>, hist: seq<Store>, loads: seq<LoggedLoad>,
                         newest: nat, rob: nat, done: nat, runahead: bool, lll: nat, redirect: Option<nat>,
                         unreported: set<nat>, arrived: bool)

  datatype Event =
    | AddLoad(seqNum: nat)
    | AddStore(seqNum: nat)
    | StartLoad(j: nat)
    | StartStore(i: nat)
    | RunLoad(j: nat, addr: nat, size: nat, accept: bool)
    | Serve(j: nat, reply: Bytes)
    | SkipLoad(j: nat)
    | RunStore(i: nat, storeAddr: nat, data: Bytes)
    | TakeViolator
    | Redirect(n: nat)
    | Report(late: set<nat>)
    | Retire(n: nat)
    | CommitUpTo(n: nat)
    | SquashAbove(n: nat)
    | Writeback(accept: bool)
    | Response(i: nat)
    | EnterRunahead(lll: nat)
    | ExitRunahead(n: nat)

  // ---- Meaning ----------------------------------------------------------------------------------

  /** An executed normal store older than `n`. */
  predicate Keep(e: SQEntry, n: nat)
  {
    !e.runahead && e.data != [] && e.seqNum < n
  }

  /** The executed normal stores older than `n`, in program order. */
  function Older(ss: seq<SQEntry>, n: nat): seq<Store>
  {
    if ss == [] then []
    else
      var e, front := ss[|ss| - 1], ss[..|ss| - 1];
      Older(front, n) + if Keep(e, n) then [AsStore(e)] else []
  }

  /** The executed normal stores of a queue between two points in program order. */
  function Between(ss: seq<SQEntry>, lo: nat, hi: nat): seq<Store>
  {
    if ss == [] then []
    else
      var e, front := ss[|ss| - 1], ss[..|ss| - 1];
      Between(front, lo, hi) + if Keep(e, hi) && lo <= e.seqNum then [AsStore(e)] else []
  }

  /** The prefix of a program-ordered list of stores that is older than `n`. */
  function Before(ss: seq<Store>, n: nat): seq<Store>
  {
    if ss == [] then []
    else
      var e, front := ss[|ss| - 1], ss[..|ss| - 1];
      Before(front, n) + if e.seqNum < n then [e] else []
  }

  /** Every executed normal store older than instruction `n`, in program order: those sent, then those queued. */
  function Prior(w: World, n: nat): seq<Store>
    requires WbPrefix(w.q)
  {
    w.sent + Older(w.q.Unsent(), n)
  }

  /** Memory as an in-order machine sees it just before instruction `n`. */
  function InOrderMemory(w: World, n: nat): Contents
    requires WbPrefix(w.q)
  {
    Fold(w.init, Prior(w, n))
  }

  /** A load the pipeline has already been told to throw away and fetch again. */
  predicate Doomed(w: World, seqNum: nat)
  {
    (w.q.violator.Some? && w.q.violator.value <= seqNum) || (w.redirect.Some? && w.redirect.value < seqNum)
  }

  // ---- Transitions ------------------------------------------------------------------------------

  /** Younger than everything that ever was in the queues. */
  predicate Fresh(w: World, seqNum: nat)
  {
    && w.rob < seqNum && w.newest < seqNum
    && (forall k | 0 <= k < |w.q.lq| :: w.q.lq[k].seqNum < seqNum)
    && (forall k | 0 <= k < |w.q.sq| :: w.q.sq[k].seqNum < seqNum)
  }

  predicate Guard(w: World, e: Event)
  {
    var q := w.q;
    match e
    case AddLoad(seqNum) => Fresh(w, seqNum)
    case AddStore(seqNum) => Fresh(w, seqNum)
    case StartLoad(j) => q.LoadAt(j) && q.Ld(j).outcome.Pending? && w.rob < q.Ld(j).seqNum
    case StartStore(i) => q.StoreAt(i) && q.St(i).data == [] && w.rob < q.St(i).seqNum
    case RunLoad(j, addr, size, accept) =>
      q.LoadAt(j) && q.Ld(j).outcome.Pending? && w.rob < q.Ld(j).seqNum && size > 0
    case Serve(j, reply) => q.LoadAt(j) && q.Ld(j).outcome.Sent? && |reply| == q.Ld(j).size
    case SkipLoad(j) => q.LoadAt(j) && (q.Ld(j).outcome.Pending? || q.Ld(j).outcome.Sent?) && w.rob < q.Ld(j).seqNum
    case RunStore(i, addr, data) => q.StoreAt(i) && q.St(i).data == [] && w.rob < q.St(i).seqNum && data != []
    case TakeViolator => q.violator.Some?
    case Redirect(n) => w.rob < n
    case Report(_) => q.violator.Some? ==> w.redirect.Some? && w.redirect.value < q.violator.value
    case Retire(n) =>
      && w.rob <= n
      && (forall k | 0 <= k < |q.lq| :: q.lq[k].seqNum <= n ==> q.lq[k].outcome.Value? || q.lq[k].outcome.NoAccess?)
      && (forall u | u in w.unreported :: n < u)
      && (w.redirect.Some? && w.arrived ==> n <= w.redirect.value)
    case CommitUpTo(n) => w.done <= n <= w.rob
    case SquashAbove(n) => w.rob <= n
    case Writeback(_) => true
    case Response(i) => q.StoreAt(i) && i < q.storeWBIt && !q.St(i).completed
    case EnterRunahead(lll) => !w.runahead && w.rob < lll
    case ExitRunahead(n) => w.runahead && n < w.lll
  }

  /** The store the D-cache takes in this write-back step, if it takes one. */
  function Taken(q: Lsq, accept: bool): seq<Store>
    requires WbPrefix(q) && BlockedIsReady(q)
  {
    if (q.storeBlocked || (WbReady(q) && q.St(q.storeWBIt).data != [])) && !ToRCache(q.St(q.storeWBIt)) && accept
    then [AsStore(q.St(q.storeWBIt))]
    else []
  }

  /** The normal loads that leave at the head of the queue with a value. */
  function Leaving(lq: seq<LQEntry>, n: nat): seq<LoggedLoad>
  {
    if lq == [] || lq[0].seqNum > n then []
    else (if !lq[0].runahead && lq[0].outcome.Value? then [LoggedLoad(lq[0].seqNum, lq[0].addr, lq[0].outcome.data)]
          else []) + Leaving(lq[1..], n)
  }

  /** One more redirect; the pending one stays what it is if it is no younger. */
  function Redirected(w: World, n: nat): World
  {
    if w.redirect.Some? && w.redirect.value <= n then w else w.(redirect := Some(n), arrived := false)
  }

  function AfterSquash(w: World, n: nat): World
  {
    w.(q := Squash(w.q, n), redirect := if w.redirect.Some? && n <= w.redirect.value then None else w.redirect,
       unreported := set u | u in w.unreported && u <= n)
  }

  function Next(w: World, e: Event): World
    requires Inv(w) && Guard(w, e)
  {
    var q := w.q;
    match e
    case AddLoad(seqNum) => w.(q := InsertLoad(q, seqNum, w.runahead), newest := seqNum)
    case AddStore(seqNum) => w.(q := InsertStore(q, seqNum, w.runahead), newest := seqNum)
    case StartLoad(j) => w.(q := TouchLoad(q, j))
    case StartStore(i) => w.(q := TouchStore(q, i))
    case RunLoad(j, addr, size, accept) => w.(q := ExecLoad(q, j, addr, size, accept))
    case Serve(j, reply) => w.(q := ServeLoad(q, j, reply))
    case SkipLoad(j) => w.(q := NullLoad(q, j))
    case RunStore(i, addr, data) => w.(q := ExecStore(q, i, addr, data), unreported := w.unreported + {q.St(i).seqNum})
    case TakeViolator =>
      Redirected(w, Max(0, q.violator.value - 1)).(q := q.(violator := None))
    case Redirect(n) => Redirected(w, n).(unreported := w.unreported + {n})
    case Report(late) => w.(unreported := w.unreported * late, arrived := w.redirect.Some?)
    case Retire(n) => w.(rob := n)
    case CommitUpTo(n) =>
      w.(q := Commit(q, n), done := n, hist := w.hist + Between(q.sq, w.done + 1, n + 1),
         loads := w.loads + Leaving(q.lq, n))
    case SquashAbove(n) => AfterSquash(w, n)
    case Writeback(accept) => w.(q := WbStep(q, accept), sent := w.sent + Taken(q, accept))
    case Response(i) => w.(q := Complete(q, i))
    case EnterRunahead(lll) => w.(q := MarkRunahead(q, w.rob), runahead := true, lll := lll)
    case ExitRunahead(n) => AfterSquash(w, n).(runahead := false)
  }

  // ---- Invariants -------------------------------------------------------------------------------

  predicate Ascending(q: Lsq)
  {
    && (forall a, b | 0 <= a < b < |q.lq| :: q.lq[a].seqNum < q.lq[b].seqNum)
    && (forall a, b | 0 <= a < b < |q.sq| :: q.sq[a].seqNum < q.sq[b].seqNum)
  }

  /** The positions recorded at insertion say which entries of the other queue are older. */
  predicate Linked(q: Lsq)
  {
    && (forall j, i | 0 <= j < |q.lq| && 0 <= i < |q.sq| ::
          (q.sqHead + i < q.lq[j].sqIt <==> q.sq[i].seqNum < q.lq[j].seqNum))
    && (forall j, i | 0 <= j < |q.lq| && 0 <= i < |q.sq| ::
          (q.sq[i].lqIt <= q.lqHead + j <==> q.sq[i].seqNum < q.lq[j].seqNum))
  }

  /** No position points outside the other queue, nor a load behind the write-back position. */
  predicate InBounds(q: Lsq)
  {
    && (forall j | 0 <= j < |q.lq| :: q.storeWBIt <= q.lq[j].sqIt <= q.SqEnd())
    && (forall i | 0 <= i < |q.sq| :: q.sq[i].lqIt <= q.LqEnd())
  }

  /** Stores before the write-back position are committed; those from it on are not completed. */
  predicate WbPrefix(q: Lsq)
  {
    && q.sqHead <= q.storeWBIt <= q.SqEnd()
    && (forall i | 0 <= i < q.storeWBIt - q.sqHead :: q.sq[i].canWB && (q.sq[i].data == [] ==> q.sq[i].completed))
    && (forall i | q.storeWBIt - q.sqHead <= i < |q.sq| :: !q.sq[i].completed)
    && (q.sq != [] ==> !q.sq[0].completed)
  }

  predicate BlockedIsReady(q: Lsq)
  {
    q.storeBlocked ==> q.StoreAt(q.storeWBIt) && q.St(q.storeWBIt).canWB && !q.St(q.storeWBIt).runahead
                       && q.St(q.storeWBIt).data != []
  }

  /** Committed stores whose write has not completed. */
  function CountOpen(sq: seq<SQEntry>): nat
  {
    if sq == [] then 0
    else
      var e := sq[|sq| - 1];
      CountOpen(sq[..|sq| - 1]) + if e.canWB && !e.completed then 1 else 0
  }

  predicate Counted(q: Lsq)
  {
    q.storesToWB == CountOpen(q.sq)
  }

  predicate Shaped(q: Lsq)
  {
    forall j | 0 <= j < |q.lq| ::
      && (q.lq[j].outcome.Value? ==> q.lq[j].addrValid && q.lq[j].size > 0 && |q.lq[j].outcome.data| == q.lq[j].size)
      && (q.lq[j].outcome.Rescheduled? ==> !q.lq[j].addrValid)
      && (q.lq[j].outcome.Sent? ==> q.lq[j].addrValid)
      && (q.lq[j].addrValid ==> q.lq[j].size > 0)
  }

  /** The two runahead flags agree wherever there is a request, and what is sent or written has one. */
  predicate RequestsFit(q: Lsq)
  {
    LoadRequestsFit(q.lq) && StoreRequestsFit(q.sq)
  }

  predicate LoadRequestsFit(lq: seq<LQEntry>)
  {
    forall j | 0 <= j < |lq| ::
      && (lq[j].request.Some? ==> lq[j].request.value == lq[j].runahead)
      && (lq[j].outcome.Sent? ==> lq[j].request.Some?)
  }

  predicate StoreRequestsFit(sq: seq<SQEntry>)
  {
    forall i | 0 <= i < |sq| ::
      && (sq[i].request.Some? ==> sq[i].request.value == sq[i].runahead)
      && (sq[i].data != [] ==> sq[i].request.Some?)
  }

  predicate Queued(lq: seq<LQEntry>, seqNum: nat)
  {
    exists j :: 0 <= j < |lq| && lq[j].seqNum == seqNum
  }

  predicate ViolatorQueued(q: Lsq)
  {
    q.violator.Some? ==> Queued(q.lq, q.violator.value)
  }

  /** A store with data that memory has not seen yet. */
  predicate Waiting(q: Lsq, seqNum: nat)
  {
    exists i | q.sqHead <= i < q.SqEnd() :: q.storeWBIt <= i && q.St(i).seqNum == seqNum && q.St(i).data != []
  }

  /** The stalled load is the oldest rescheduled one, and waits for an older store that is still to be sent. */
  predicate StallIsOldest(q: Lsq)
  {
    match q.stall
    case None => forall j | 0 <= j < |q.lq| :: !q.lq[j].outcome.Rescheduled?
    case Some(s) =>
      && q.LoadAt(s.loadIdx)
      && q.Ld(s.loadIdx).outcome.Rescheduled?
      && s.storeSeq < q.Ld(s.loadIdx).seqNum
      && (forall j | 0 <= j < |q.lq| :: q.lq[j].outcome.Rescheduled? ==> q.Ld(s.loadIdx).seqNum <= q.lq[j].seqNum)
      && Waiting(q, s.storeSeq)
  }

  /** `done` separates the committed entries from the others. */
  predicate Divided(q: Lsq, done: nat)
  {
    && (forall i | 0 <= i < |q.sq| :: q.sq[i].canWB <==> q.sq[i].seqNum <= done)
    && (forall j | 0 <= j < |q.lq| :: done < q.lq[j].seqNum)
  }

  /** What has left the reorder buffer has its result and is not going to be squashed by a redirect. */
  predicate Retired(w: World)
  {
    && (forall j | 0 <= j < |w.q.lq| && w.q.lq[j].seqNum <= w.rob ::
          w.q.lq[j].outcome.Value? || w.q.lq[j].outcome.NoAccess?)
    && (w.q.violator.Some? ==> w.rob < w.q.violator.value)
    && (w.redirect.Some? ==> w.rob <= w.redirect.value)
  }

  /** Commit order: what has committed, what has left the reorder buffer, what is still in flight. */
  predicate Staged(w: World)
  {
    w.done <= w.rob && Divided(w.q, w.done) && Retired(w)
  }

  /** Every executed normal load holds what in-order execution gives it, or is about to be thrown away. */
  predicate LoadsCorrect(w: World)
    requires WbPrefix(w.q)
  {
    forall j | 0 <= j < |w.q.lq| && w.q.lq[j].outcome.Value? && !w.q.lq[j].runahead ::
      || Doomed(w, w.q.lq[j].seqNum)
      || w.q.lq[j].outcome.data == ReadBytes(InOrderMemory(w, w.q.lq[j].seqNum), w.q.lq[j].addr, w.q.lq[j].size)
  }

  predicate SentOldEnough(w: World)
  {
    forall s | s in w.sent :: s.seqNum <= w.done
  }

  /** The D-cache holds exactly the normal stores that were sent, and they are a prefix of those that committed. */
  predicate Drained(w: World)
    requires WbPrefix(w.q)
  {
    && w.q.dcache == Fold(w.init, w.sent)
    && w.hist == Prior(w, w.done + 1)
    && SentOldEnough(w)
  }

  /** A committed normal load returned what the older committed stores had written. */
  predicate LogEntryCorrect(init: Contents, hist: seq<Store>, done: nat, l: LoggedLoad)
  {
    l.seqNum <= done && l.data == ReadBytes(Fold(init, Before(hist, l.seqNum)), l.addr, |l.data|)
  }

  predicate LogCorrect(init: Contents, hist: seq<Store>, done: nat, loads: seq<LoggedLoad>)
  {
    forall k | 0 <= k < |loads| :: LogEntryCorrect(init, hist, done, loads[k])
  }

  predicate Order(q: Lsq)
  {
    Ascending(q) && Linked(q)
  }

  predicate StoreSide(q: Lsq)
  {
    WbPrefix(q) && BlockedIsReady(q) && Counted(q)
  }

  predicate LoadSide(q: Lsq)
  {
    InBounds(q) && Shaped(q) && ViolatorQueued(q) && StallIsOldest(q)
  }

  predicate QueueInv(q: Lsq)
  {
    Order(q) && StoreSide(q) && LoadSide(q) && RequestsFit(q)
  }

  /** No byte of the load is written by the store. */
  predicate Apart(s: Store, addr: nat, size: nat)
  {
    forall a | addr <= a < addr + size :: !Covers(s, a)
  }

  /** No older normal store that memory has yet to see writes a byte the load waits for. */
  predicate ClearAhead(q: Lsq, e: LQEntry)
  {
    forall i | 0 <= i < |q.sq| && q.storeWBIt <= q.sqHead + i ::
      Keep(q.sq[i], e.seqNum) ==> Apart(AsStore(q.sq[i]), e.addr, e.size)
  }

  /** A normal load that waits for the D-cache may be served at any time, or is about to be thrown away. */
  predicate InFlightClear(w: World)
  {
    forall j | 0 <= j < |w.q.lq| && w.q.lq[j].outcome.Sent? && !w.q.lq[j].runahead ::
      Doomed(w, w.q.lq[j].seqNum) || ClearAhead(w.q, w.q.lq[j])
  }

  /** An instruction up to `n` that commit has not been told about, and so cannot have retired. */
  predicate Unreported(w: World, n: int)
  {
    exists u :: u in w.unreported && u <= n
  }

  /** What asks for a squash holds commit back: its cause has not been reported, or the squash has arrived. */
  predicate Covered(w: World)
  {
    && (w.q.violator.Some? ==>
          || Unreported(w, w.q.violator.value - 1)
          || (w.redirect.Some? && w.redirect.value < w.q.violator.value))
    && (w.redirect.Some? && !w.arrived ==> Unreported(w, w.redirect.value))
  }

  predicate Core(w: World)
  {
    QueueInv(w.q) && Staged(w) && LoadsCorrect(w) && Drained(w)
    && LogCorrect(w.init, w.hist, w.done, w.loads)
  }

  predicate Inv(w: World)
  {
    Core(w) && InFlightClear(w) && Covered(w)
  }
}
