/** The load/store queue of one thread: its state, and what each of its operations does to it. */
module LsqState {
  import opened Prelude
  import opened Memory
  import opened Coverage

  /** How far a load has got. A rescheduled load waits for its stall to be lifted, a sent one for the D-cache. */
  datatype Outcome = Pending | Sent | Rescheduled | NoAccess | Value(data: Bytes)

  /**
   * `sqIt` is the store queue's end when the load was inserted. `runahead` is the instruction's flag; `request` is
   * the flag of its memory request, once there is one.
   */
  datatype LQEntry = LQEntry(seqNum: nat, sqIt: nat, runahead: bool, addrValid: bool, addr: nat, size: nat,
                             outcome: Outcome, request: Option<bool>)

  /** `lqIt` is the load queue's end when the store was inserted; no data means not executed, or nothing to write. */
  datatype SQEntry = SQEntry(seqNum: nat, lqIt: nat, runahead: bool, addr: nat, data: Bytes, canWB: bool,
                             completed: bool, request: Option<bool>)

  datatype Stall = Stall(storeSeq: nat, loadIdx: nat)

  datatype Config = Config(depCheckShift: nat, needsTSO: bool)

  /** Queue positions count insertions from the beginning, so `lq[0]` sits at position `lqHead`. */
  datatype Lsq = Lsq(cfg: Config, lqHead: nat, lq: seq<LQEntry>, sqHead: nat, sq: seq<SQEntry>, storeWBIt: nat,
                     storesToWB: int, violator: Option<nat>, stall: Option<Stall>, storeBlocked: bool,
                     storeInFlight: bool, dcache: Contents, rcache: seq<Store>)
  {
    function LqEnd(): nat { lqHead + |lq| }

    function SqEnd(): nat { sqHead + |sq| }

    predicate LoadAt(j: nat) { lqHead <= j < LqEnd() }

    predicate StoreAt(i: nat) { sqHead <= i < SqEnd() }

    function Ld(j: nat): LQEntry
      requires LoadAt(j)
    {
      lq[j - lqHead]
    }

    function St(i: nat): SQEntry
      requires StoreAt(i)
    {
      sq[i - sqHead]
    }

    function WithLoad(j: nat, e: LQEntry): Lsq
      requires LoadAt(j)
    {
      this.(lq := lq[j - lqHead := e])
    }

    function WithStore(i: nat, e: SQEntry): Lsq
      requires StoreAt(i)
    {
      this.(sq := sq[i - sqHead := e])
    }

    /** The stores that have not been handed to memory, oldest first. */
    function Unsent(): seq<SQEntry>
      requires sqHead <= storeWBIt <= SqEnd()
    {
      sq[storeWBIt - sqHead..]
    }
  }

  function AsStore(e: SQEntry): Store
  {
    Store(e.seqNum, e.addr, e.data)
  }

  // ---- Insertion --------------------------------------------------------------------------------

  function InsertLoad(q: Lsq, seqNum: nat, runahead: bool): Lsq
  {
    q.(lq := q.lq + [LQEntry(seqNum, q.SqEnd(), runahead, false, 0, 0, Pending, None)])
  }

  function InsertStore(q: Lsq, seqNum: nat, runahead: bool): Lsq
  {
    q.(sq := q.sq + [SQEntry(seqNum, q.LqEnd(), runahead, 0, [], false, false, None)])
  }

  // ---- Requests ---------------------------------------------------------------------------------

  /** The flag of the request after an execution attempt: a new request has none, and the attempt only ever sets it. */
  function Requested(request: Option<bool>, runahead: bool): Option<bool>
  {
    if request.None? then Some(runahead) else Some(request.value || runahead)
  }

  /** An execution attempt that creates the request and then waits for its translation. */
  function TouchLoad(q: Lsq, j: nat): Lsq
    requires q.LoadAt(j)
  {
    q.WithLoad(j, q.Ld(j).(request := Requested(q.Ld(j).request, q.Ld(j).runahead)))
  }

  function TouchStore(q: Lsq, i: nat): Lsq
    requires q.StoreAt(i)
  {
    q.WithStore(i, q.St(i).(request := Requested(q.St(i).request, q.St(i).runahead)))
  }

  // ---- Executing a load -------------------------------------------------------------------------

  datatype ScanResult = Miss | Forward(data: Bytes) | StallOn(storeSeq: nat)

  /** Stores that carry data and may be seen by the load: runahead stores are hidden from normal loads. */
  predicate Visible(e: SQEntry, runaheadLoad: bool)
  {
    e.data != [] && !(e.runahead && !runaheadLoad)
  }

  /** Search older stores, youngest first, for one that overlaps the load. */
  function Scan(ss: seq<SQEntry>, runaheadLoad: bool, addr: nat, size: nat): ScanResult
  {
    if ss == [] then Miss
    else
      var e, front := ss[|ss| - 1], ss[..|ss| - 1];
      if Visible(e, runaheadLoad) then
        match AddrCoverage(addr, size, e.addr, |e.data|, PLAIN)
        case Full => Forward(e.data[addr - e.addr..addr - e.addr + size])
        case Partial => StallOn(e.seqNum)
        case NoCoverage => Scan(front, runaheadLoad, addr, size)
      else Scan(front, runaheadLoad, addr, size)
  }

  /** The stores a load at `sqIt` has to search. */
  function Window(q: Lsq, sqIt: nat): seq<SQEntry>
    requires q.sqHead <= q.storeWBIt <= sqIt <= q.SqEnd()
  {
    q.sq[q.storeWBIt - q.sqHead..sqIt - q.sqHead]
  }

  /** Stall on the store unless an older load already stalls. */
  function StallLoad(q: Lsq, j: nat, storeSeq: nat): Option<Stall>
    requires q.LoadAt(j)
  {
    match q.stall
    case None => Some(Stall(storeSeq, j))
    case Some(s) => if q.LoadAt(s.loadIdx) && q.Ld(s.loadIdx).seqNum <= q.Ld(j).seqNum then q.stall
                    else Some(Stall(storeSeq, j))
  }

  /** A load with its address and its request, before the search. */
  function Addressed(e: LQEntry, addr: nat, size: nat): LQEntry
  {
    e.(addrValid := true, addr := addr, size := size, request := Requested(e.request, e.runahead))
  }

  /** `accept`: the D-cache took the packet. A stalled load gives its request up. */
  function ExecLoad(q: Lsq, j: nat, addr: nat, size: nat, accept: bool): Lsq
    requires q.LoadAt(j) && q.sqHead <= q.storeWBIt <= q.Ld(j).sqIt <= q.SqEnd()
  {
    var e := Addressed(q.Ld(j), addr, size);
    match Scan(Window(q, e.sqIt), e.runahead, addr, size)
    case Forward(data) => q.WithLoad(j, e.(outcome := Value(data)))
    case StallOn(storeSeq) =>
      q.WithLoad(j, e.(addrValid := false, outcome := Rescheduled, request := None))
       .(stall := StallLoad(q, j, storeSeq))
    case Miss => q.WithLoad(j, e.(outcome := if accept then Sent else Pending))
  }

  /** The bytes the D-cache holds when it serves the load, or what a runahead load gets from either cache. */
  function ServeLoad(q: Lsq, j: nat, reply: Bytes): Lsq
    requires q.LoadAt(j)
  {
    var e := q.Ld(j);
    q.WithLoad(j, e.(outcome := Value(if e.runahead then reply else ReadBytes(q.dcache, e.addr, e.size))))
  }

  /** A load that completes without reading memory: a fault, a false predicate, or the poisoned head load. */
  function NullLoad(q: Lsq, j: nat): Lsq
    requires q.LoadAt(j)
  {
    q.WithLoad(j, q.Ld(j).(outcome := NoAccess))
  }

  // ---- Executing a store ------------------------------------------------------------------------

  /** The load has an address that touches a block the store touches. */
  predicate Conflicts(e: LQEntry, addr: nat, size: nat, shift: nat)
    requires size > 0
  {
    e.addrValid && e.size > 0 && BlocksOverlap(addr, size, e.addr, e.size, shift)
  }

  /** The oldest conflicting load, if any, in a queue listed oldest first. */
  function FirstConflict(lq: seq<LQEntry>, addr: nat, size: nat, shift: nat): Option<nat>
    requires size > 0
  {
    if lq == [] then None
    else if Conflicts(lq[0], addr, size, shift) then Some(lq[0].seqNum)
    else FirstConflict(lq[1..], addr, size, shift)
  }

  /** Keep the older of the recorded violator and the new one. */
  function OlderOf(a: Option<nat>, b: Option<nat>): Option<nat>
  {
    match (a, b)
    case (None, _) => b
    case (_, None) => a
    case (Some(x), Some(y)) => if y > x then a else b
  }

  function LoadsFrom(q: Lsq, j: nat): seq<LQEntry>
    requires j <= q.LqEnd()
  {
    if j <= q.lqHead then q.lq else q.lq[j - q.lqHead..]
  }

  function Written(e: SQEntry, addr: nat, data: Bytes): SQEntry
  {
    e.(addr := addr, data := data, request := Requested(e.request, e.runahead))
  }

  function ExecStore(q: Lsq, i: nat, addr: nat, data: Bytes): Lsq
    requires q.StoreAt(i) && data != [] && q.St(i).lqIt <= q.LqEnd()
  {
    q.WithStore(i, Written(q.St(i), addr, data))
     .(violator := OlderOf(q.violator, FirstConflict(LoadsFrom(q, q.St(i).lqIt), addr, |data|, q.cfg.depCheckShift)))
  }

  // ---- Commit and squash ------------------------------------------------------------------------

  /** The loads left after those up to `n` leave at the head. */
  function DropLoads(lq: seq<LQEntry>, n: nat): (r: seq<LQEntry>)
    ensures |r| <= |lq| && forall j | 0 <= j < |r| :: r[j] == lq[|lq| - |r| + j]
    ensures forall k | 0 <= k < |lq| - |r| :: lq[k].seqNum <= n
    ensures r != [] ==> r[0].seqNum > n
  {
    if lq != [] && lq[0].seqNum <= n then DropLoads(lq[1..], n) else lq
  }

  function MarkStore(e: SQEntry, n: nat): SQEntry
  {
    if e.seqNum <= n then e.(canWB := true) else e
  }

  /** Every store up to `n` may be written back. */
  function MarkStores(sq: seq<SQEntry>, n: nat): seq<SQEntry>
  {
    seq(|sq|, k requires 0 <= k < |sq| => MarkStore(sq[k], n))
  }

  /** How many stores `MarkStores` marks for the first time. */
  function CountNew(sq: seq<SQEntry>, n: nat): nat
  {
    if sq == [] then 0
    else
      var e := sq[|sq| - 1];
      CountNew(sq[..|sq| - 1], n) + if !e.canWB && e.seqNum <= n then 1 else 0
  }

  function Commit(q: Lsq, n: nat): Lsq
  {
    var kept := DropLoads(q.lq, n);
    q.(lqHead := q.LqEnd() - |kept|, lq := kept, sq := MarkStores(q.sq, n),
       storesToWB := q.storesToWB + CountNew(q.sq, n))
  }

  /** The loads left after those younger than `n` leave at the tail. */
  function CutLoads(lq: seq<LQEntry>, n: nat): (r: seq<LQEntry>)
    ensures |r| <= |lq| && forall j | 0 <= j < |r| :: r[j] == lq[j]
    ensures forall k | |r| <= k < |lq| :: lq[k].seqNum > n
    ensures r != [] ==> r[|r| - 1].seqNum <= n
  {
    if lq != [] && lq[|lq| - 1].seqNum > n then CutLoads(lq[..|lq| - 1], n) else lq
  }

  /** Likewise for stores, stopping at one that has been committed. */
  function CutStores(sq: seq<SQEntry>, n: nat): (r: seq<SQEntry>)
    ensures |r| <= |sq| && forall i | 0 <= i < |r| :: r[i] == sq[i]
    ensures forall k | |r| <= k < |sq| :: sq[k].seqNum > n && !sq[k].canWB
    ensures r != [] ==> r[|r| - 1].seqNum <= n || r[|r| - 1].canWB
  {
    if sq != [] && sq[|sq| - 1].seqNum > n && !sq[|sq| - 1].canWB then CutStores(sq[..|sq| - 1], n) else sq
  }

  function Squash(q: Lsq, n: nat): Lsq
  {
    var lq := CutLoads(q.lq, n);
    q.(lq := lq,
       sq := CutStores(q.sq, n),
       violator := if q.violator.Some? && n < q.violator.value then None else q.violator,
       stall := if q.stall.Some? && q.LoadAt(q.stall.value.loadIdx) && q.Ld(q.stall.value.loadIdx).seqNum > n
                then None else q.stall)
  }

  // ---- Writing stores back ----------------------------------------------------------------------

  /** The guard of the write-back loop. */
  predicate WbReady(q: Lsq)
  {
    && q.storesToWB > 0
    && q.StoreAt(q.storeWBIt)
    && q.St(q.storeWBIt).canWB
    && !(q.cfg.needsTSO && q.storeInFlight)
  }

  /** Lift the stall and let every rescheduled load issue again. */
  function Replay(lq: seq<LQEntry>): seq<LQEntry>
  {
    seq(|lq|, k requires 0 <= k < |lq| => if lq[k].outcome.Rescheduled? then lq[k].(outcome := Pending) else lq[k])
  }

  /** Where a store's packet goes is decided by its request's flag, not by the instruction's. */
  predicate ToRCache(e: SQEntry)
  {
    e.request == Some(true)
  }

  /** The store at the write-back position has been handed to memory. */
  function PostSend(q: Lsq): Lsq
    requires q.StoreAt(q.storeWBIt)
  {
    var e := q.St(q.storeWBIt);
    var lifted := q.stall.Some? && q.stall.value.storeSeq == e.seqNum;
    q.(storeWBIt := q.storeWBIt + 1,
       storeInFlight := q.storeInFlight || q.cfg.needsTSO,
       stall := if lifted then None else q.stall,
       lq := if lifted then Replay(q.lq) else q.lq,
       storeBlocked := false,
       dcache := if ToRCache(e) then q.dcache else Put(q.dcache, AsStore(e)),
       rcache := if ToRCache(e) then q.rcache + [AsStore(e)] else q.rcache)
  }

  /** Completed stores leave at the head. */
  function DropCompleted(sq: seq<SQEntry>): (r: seq<SQEntry>)
    ensures |r| <= |sq| && forall i | 0 <= i < |r| :: r[i] == sq[|sq| - |r| + i]
    ensures forall k | 0 <= k < |sq| - |r| :: sq[k].completed
    ensures r != [] ==> !r[0].completed
  {
    if sq != [] && sq[0].completed then DropCompleted(sq[1..]) else sq
  }

  function Complete(q: Lsq, i: nat): Lsq
    requires q.StoreAt(i)
  {
    var kept := DropCompleted(q.sq[i - q.sqHead := q.St(i).(completed := true)]);
    q.(sqHead := q.SqEnd() - |kept|, sq := kept, storesToWB := q.storesToWB - 1,
       storeInFlight := q.storeInFlight && !q.cfg.needsTSO)
  }

  /** One attempt: retry the blocked store, or take the next store that is ready. */
  function WbStep(q: Lsq, accept: bool): Lsq
  {
    if q.storeBlocked then
      if q.StoreAt(q.storeWBIt) && (ToRCache(q.St(q.storeWBIt)) || accept) then PostSend(q) else q
    else if !WbReady(q) then q
    else if q.St(q.storeWBIt).data == [] then Complete(q.(storeWBIt := q.storeWBIt + 1), q.storeWBIt)
    else if ToRCache(q.St(q.storeWBIt)) || accept then PostSend(q)
    else q.(storeBlocked := true)
  }

  // ---- Runahead entry ---------------------------------------------------------------------------

  /** An instruction becomes a runahead one, and its request with it if there is one. */
  function MarkedLoad(e: LQEntry): LQEntry
  {
    e.(runahead := true, request := if e.request.Some? then Some(true) else None)
  }

  function MarkedStore(e: SQEntry): SQEntry
  {
    e.(runahead := true, request := if e.request.Some? then Some(true) else None)
  }

  /** Every instruction that has not left the reorder buffer (younger than `rob`) becomes a runahead one. */
  function MarkRunahead(q: Lsq, rob: nat): Lsq
  {
    q.(lq := seq(|q.lq|, k requires 0 <= k < |q.lq| =>
                   if q.lq[k].seqNum > rob then MarkedLoad(q.lq[k]) else q.lq[k]),
       sq := seq(|q.sq|, k requires 0 <= k < |q.sq| =>
                   if q.sq[k].seqNum > rob then MarkedStore(q.sq[k]) else q.sq[k]))
  }
}
