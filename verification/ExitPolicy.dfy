/** When runahead is left: the four exit policies, the deadline, and the bound on overlapping periods. */
module ExitPolicy {
  import opened Prelude

  datatype Policy = Eager | MinimumWork | Nllb | DynamicDelayed

  datatype Config = Config(policy: Policy, minWork: nat, deadline: nat, allowOverlap: bool)

  /** Why an exit was decided, as the source counts it. */
  datatype Reason = EagerExit | MinWorkDone | Dynamic | Deadline | FetchPageFault

  datatype DeadlineEvent = DeadlineEvent(due: nat, cause: nat)

  /**
   * `cpuCause` is the load that started the period; `cause` is commit's own copy, refreshed only by a signal or a
   * fetch page fault. `between` and `pseudoretired` are the two counters the overlap check compares.
   */
  datatype Control = Control(inRunahead: bool, cpuCause: nat, cause: nat, exitable: bool, exit: bool,
                             reason: Option<Reason>, exitSeqNum: nat, pseudoretired: nat, between: nat,
                             events: seq<DeadlineEvent>)

  /** What the ROB shows when the load returns: an unsent valid load (0 if none), one near the head, its size at entry. */
  datatype RobView = RobView(unsentLoad: nat, nearbyLoad: nat, entryInsts: nat, hasChain: bool)

  /** What the ROB shows at the end of a cycle about the load an exit waits for. */
  datatype WaitView = WaitView(loadFound: bool, loadExecuted: bool, head: Option<nat>)

  // ---- Decisions --------------------------------------------------------------------------------

  function Decide(c: Control, r: Reason): Control
  {
    c.(exit := true, reason := Some(r))
  }

  /** The policy's decision when the load that caused runahead returns. */
  function ApplyPolicy(g: Config, c: Control, v: RobView): Control
  {
    match g.policy
    case Eager => Decide(c, EagerExit)
    case MinimumWork => if c.pseudoretired >= g.minWork then Decide(c, MinWorkDone) else c
    case Nllb => if v.unsentLoad > 0 then c.(exitSeqNum := v.unsentLoad) else Decide(c, EagerExit)
    case DynamicDelayed =>
      if c.pseudoretired < v.entryInsts || v.nearbyLoad == 0 || !v.hasChain then Decide(c, EagerExit) else c
  }

  function Signal(g: Config, c: Control, v: RobView, now: nat): Control
  {
    if c.exitable then c
    else
      var d := ApplyPolicy(g, c.(exitable := true, cause := c.cpuCause), v);
      if d.exit then d else d.(events := d.events + [DeadlineEvent(now + g.deadline, c.cpuCause)])
  }

  function Fire(c: Control, k: nat): Control
    requires k < |c.events|
  {
    var d := c.(events := c.events[..k] + c.events[k + 1..]);
    if !c.inRunahead || c.exit || c.cause != c.events[k].cause then d else Decide(d, Deadline)
  }

  function Update(g: Config, c: Control, v: WaitView): Control
  {
    if g.policy.MinimumWork? && c.exitable && !c.exit && c.pseudoretired >= g.minWork then Decide(c, MinWorkDone)
    else if g.policy.Nllb? && c.exitable && !c.exit && c.exitSeqNum > 0
            && (!v.loadFound || v.loadExecuted || v.head.None? || v.head.value > c.exitSeqNum) then Decide(c, Dynamic)
    else c
  }

  function PageFault(c: Control): Control
  {
    Decide(c, FetchPageFault).(cause := c.cpuCause)
  }

  function ExitSquash(c: Control): Control
  {
    c.(exit := false, exitable := false, inRunahead := false, between := 0)
  }

  predicate CanEnter(g: Config, c: Control)
  {
    !c.inRunahead && (g.allowOverlap || c.between >= c.pseudoretired)
  }

  function Enter(c: Control, load: nat): Control
  {
    c.(inRunahead := true, cpuCause := load, pseudoretired := 0)
  }

  /** One whole instruction leaves the ROB. */
  function Retire(c: Control, runahead: bool): Control
  {
    c.(between := if c.inRunahead then c.between else c.between + 1,
       pseudoretired := if runahead then c.pseudoretired + 1 else c.pseudoretired)
  }

  // ---- Runs -------------------------------------------------------------------------------------

  /**
   * `signalledAt` is when the period became exitable; `periods` how many instructions each period pseudoretired;
   * `retired` all instructions retired in normal mode.
   */
  datatype World = World(c: Control, now: nat, signalledAt: nat, periods: seq<nat>, retired: nat)

  datatype Event =
    | DoEnter(load: nat)
    | DoSignal(rob: RobView)
    | DoFire(k: nat)
    | DoUpdate(wait: WaitView)
    | DoPageFault
    | DoExit
    | DoRetire
    | Tick

  /** Loads are renumbered when refetched; instructions of the other mode never retire; due events fire first. */
  predicate Guard(g: Config, w: World, e: Event)
  {
    match e
    case DoEnter(load) => CanEnter(g, w.c) && w.c.cpuCause < load
    case DoSignal(_) => w.c.inRunahead
    case DoFire(k) => k < |w.c.events| && w.c.events[k].due == w.now
    case DoUpdate(_) => true
    case DoPageFault => w.c.inRunahead
    case DoExit => w.c.exit
    case DoRetire => true
    case Tick => forall k | 0 <= k < |w.c.events| :: w.now < w.c.events[k].due
  }

  function Counted(periods: seq<nat>): seq<nat>
  {
    if periods == [] then [] else periods[..|periods| - 1] + [periods[|periods| - 1] + 1]
  }

  function Next(g: Config, w: World, e: Event): World
    requires Guard(g, w, e)
  {
    match e
    case DoEnter(load) => w.(c := Enter(w.c, load), periods := w.periods + [0])
    case DoSignal(rob) => w.(c := Signal(g, w.c, rob, w.now), signalledAt := if w.c.exitable then w.signalledAt else w.now)
    case DoFire(k) => w.(c := Fire(w.c, k))
    case DoUpdate(wait) => w.(c := Update(g, w.c, wait))
    case DoPageFault => w.(c := PageFault(w.c))
    case DoExit => w.(c := ExitSquash(w.c))
    case DoRetire =>
      if w.c.inRunahead then w.(c := Retire(w.c, true), periods := Counted(w.periods))
      else w.(c := Retire(w.c, false), retired := w.retired + 1)
    case Tick => w.(now := w.now + 1)
  }

  function Sum(s: seq<nat>): nat
  {
    if s == [] then 0 else Sum(s[..|s| - 1]) + s[|s| - 1]
  }

  /** All periods but the latest. */
  function Earlier(periods: seq<nat>): seq<nat>
  {
    if periods == [] then [] else periods[..|periods| - 1]
  }

  predicate FlagsInv(w: World)
  {
    && (w.c.exit || w.c.exitable ==> w.c.inRunahead)
    && (w.c.inRunahead ==> w.periods != [])
    && (w.c.exitable ==> w.c.cause == w.c.cpuCause && w.signalledAt <= w.now)
    && w.c.cause <= w.c.cpuCause
    && (w.c.inRunahead && !w.c.exitable && !w.c.exit ==> w.c.cause < w.c.cpuCause)
  }

  /** A delayed exit always has its own deadline event pending. */
  ghost predicate DeadlineInv(g: Config, w: World)
  {
    && (forall k | 0 <= k < |w.c.events| :: w.now <= w.c.events[k].due && w.c.events[k].cause <= w.c.cpuCause)
    && (w.c.exitable && !w.c.exit ==> DeadlineEvent(w.signalledAt + g.deadline, w.c.cpuCause) in w.c.events)
  }

  /** The two counters, against the history. */
  predicate OverlapInv(g: Config, w: World)
  {
    && w.c.pseudoretired == (if w.periods == [] then 0 else w.periods[|w.periods| - 1])
    && (!w.c.inRunahead ==> w.c.between <= w.retired)
    && (!g.allowOverlap ==>
          Sum(Earlier(w.periods)) + (if w.c.inRunahead then 0 else w.c.between) <= w.retired)
  }

  predicate ReasonInv(g: Config, w: World)
  {
    && (w.c.exit ==> w.c.reason.Some?)
    && (w.c.exit && w.c.reason == Some(MinWorkDone) ==> g.policy.MinimumWork? && w.c.pseudoretired >= g.minWork)
    && (w.c.exit && g.policy.MinimumWork? ==> w.c.reason.value in {MinWorkDone, Deadline, FetchPageFault})
    && (w.c.exit && g.policy.Eager? ==> w.c.reason.value in {EagerExit, FetchPageFault})
    && (g.policy.Eager? ==> w.c.events == [] && (w.c.exitable ==> w.c.exit))
    && (w.c.exit && g.policy.Nllb? ==> w.c.reason.value in {EagerExit, Dynamic, Deadline, FetchPageFault})
    && (w.c.exit && g.policy.DynamicDelayed? ==> w.c.reason.value in {EagerExit, Deadline, FetchPageFault})
    && (g.policy.Nllb? && w.c.exitable && !w.c.exit ==> w.c.exitSeqNum > 0)
  }

  ghost predicate Inv(g: Config, w: World)
  {
    FlagsInv(w) && DeadlineInv(g, w) && OverlapInv(g, w) && ReasonInv(g, w)
  }

  lemma FlagsStep(g: Config, w: World, e: Event)
    requires FlagsInv(w) && Guard(g, w, e)
    ensures FlagsInv(Next(g, w, e))
  {
  }

  lemma DeadlineStep(g: Config, w: World, e: Event)
    requires FlagsInv(w) && DeadlineInv(g, w) && Guard(g, w, e)
    ensures DeadlineInv(g, Next(g, w, e))
  {
  }

  lemma OverlapStep(g: Config, w: World, e: Event)
    requires FlagsInv(w) && OverlapInv(g, w) && Guard(g, w, e)
    ensures OverlapInv(g, Next(g, w, e))
  {
  }

  lemma ReasonStep(g: Config, w: World, e: Event)
    requires FlagsInv(w) && ReasonInv(g, w) && Guard(g, w, e)
    ensures ReasonInv(g, Next(g, w, e))
  {
  }

  predicate Enabled(g: Config, w: World, es: seq<Event>)
    decreases |es|, 0
  {
    es == [] || (Enabled(g, w, es[..|es| - 1]) && Guard(g, After(g, w, es[..|es| - 1]), es[|es| - 1]))
  }

  function After(g: Config, w: World, es: seq<Event>): World
    requires Enabled(g, w, es)
    decreases |es|, 1
  {
    if es == [] then w else Next(g, After(g, w, es[..|es| - 1]), es[|es| - 1])
  }

  lemma {:induction false} RunKeepsInv(g: Config, w: World, es: seq<Event>)
    requires Inv(g, w) && Enabled(g, w, es)
    ensures Inv(g, After(g, w, es))
  {
    if es != [] {
      var u, e := After(g, w, es[..|es| - 1]), es[|es| - 1];
      RunKeepsInv(g, w, es[..|es| - 1]);
      FlagsStep(g, u, e);
      DeadlineStep(g, u, e);
      OverlapStep(g, u, e);
      ReasonStep(g, u, e);
    }
  }

  const START := World(Control(false, 0, 0, false, false, None, 0, 0, 0, []), 0, 0, [], 0)

  /** Both flags are up only in runahead, in every reachable state. */
  lemma FlagsOnlyInRunahead(g: Config, es: seq<Event>)
    requires Enabled(g, START, es)
    ensures var c := After(g, START, es).c; c.exit || c.exitable ==> c.inRunahead
  {
    RunKeepsInv(g, START, es);
  }

  /** No overlap: all periods but the latest together pseudoretired at most what normal mode retired. */
  lemma PeriodsDoNotOverlap(g: Config, es: seq<Event>)
    requires Enabled(g, START, es) && !g.allowOverlap
    ensures var w := After(g, START, es); Sum(Earlier(w.periods)) <= w.retired
  {
    RunKeepsInv(g, START, es);
  }

  /** The reason for an exit fits the policy; an eager exit is never delayed, minimum work is done when claimed. */
  lemma ReasonsFitPolicy(g: Config, es: seq<Event>)
    requires Enabled(g, START, es) && After(g, START, es).c.exit
    ensures var c := After(g, START, es).c;
            && c.reason.Some? && (g.policy.Eager? ==> c.reason.value in {EagerExit, FetchPageFault})
            && (c.reason == Some(MinWorkDone) ==> g.policy.MinimumWork? && c.pseudoretired >= g.minWork)
            && (g.policy.MinimumWork? ==> c.reason.value in {MinWorkDone, Deadline, FetchPageFault})
            && (g.policy.Nllb? ==> c.reason.value in {EagerExit, Dynamic, Deadline, FetchPageFault})
            && (g.policy.DynamicDelayed? ==> c.reason.value in {EagerExit, Deadline, FetchPageFault})
  {
    RunKeepsInv(g, START, es);
  }

  /** What the latest period has pseudoretired so far. */
  function WorkDone(w: World): nat
  {
    if w.periods == [] then 0 else w.periods[|w.periods| - 1]
  }

  /**
   * Which policy ends a period as soon as its load returns, by what the period has pseudoretired and what the ROB shows;
   * the one that waits for a load remembers which.
   */
  lemma SignalDecides(g: Config, es: seq<Event>, v: RobView)
    requires Enabled(g, START, es)
    requires var c := After(g, START, es).c; c.inRunahead && !c.exitable && !c.exit
    ensures var w := After(g, START, es);
            var c := Next(g, w, DoSignal(v)).c;
            && (c.exit <==> match g.policy
                            case Eager => true
                            case MinimumWork => WorkDone(w) >= g.minWork
                            case Nllb => v.unsentLoad == 0
                            case DynamicDelayed => WorkDone(w) < v.entryInsts || v.nearbyLoad == 0 || !v.hasChain)
            && (c.exit ==> c.reason == Some(if g.policy.MinimumWork? then MinWorkDone else EagerExit))
            && (g.policy.Nllb? && !c.exit ==> c.exitSeqNum == v.unsentLoad)
  {
    RunKeepsInv(g, START, es);
  }

  /** The load waited for is gone, has executed, or has no older instruction left in the ROB and is not there itself. */
  predicate WaitIsOver(v: WaitView, load: nat)
  {
    !v.loadFound || v.loadExecuted || v.head.None? || v.head.value > load
  }

  lemma CycleEndOf(g: Config, w: World, v: WaitView)
    requires Inv(g, w) && w.c.exitable && !w.c.exit
    ensures var c := Next(g, w, DoUpdate(v)).c;
            && (c.exit <==> || (g.policy.MinimumWork? && WorkDone(w) >= g.minWork)
                            || (g.policy.Nllb? && WaitIsOver(v, w.c.exitSeqNum)))
            && (c.exit ==> c.reason == Some(if g.policy.Nllb? then Dynamic else MinWorkDone))
  {
    hide DeadlineInv, Sum, Earlier;
  }

  /** Which waiting periods the end of a cycle ends: those whose work is done, or whose awaited load is. */
  lemma CycleEndDecides(g: Config, es: seq<Event>, v: WaitView)
    requires Enabled(g, START, es)
    requires var c := After(g, START, es).c; c.exitable && !c.exit
    ensures var w := After(g, START, es);
            var c := Next(g, w, DoUpdate(v)).c;
            && (c.exit <==> || (g.policy.MinimumWork? && WorkDone(w) >= g.minWork)
                            || (g.policy.Nllb? && WaitIsOver(v, w.c.exitSeqNum)))
            && (c.exit ==> c.reason == Some(if g.policy.Nllb? then Dynamic else MinWorkDone))
  {
    hide After, Enabled, Next, WorkDone, WaitIsOver;
    RunKeepsInv(g, START, es);
    CycleEndOf(g, After(g, START, es), v);
  }

  /** The load a period waits for is the one its signal named, for as long as the period lasts. */
  lemma {:induction false} AwaitedLoadStays(g: Config, w: World, es: seq<Event>)
    requires Inv(g, w) && Enabled(g, w, es) && w.c.exitable && SamePeriod(w, After(g, w, es))
    ensures After(g, w, es).c.exitSeqNum == w.c.exitSeqNum
  {
    if es != [] {
      PeriodStep(g, w, es);
      AwaitedLoadStays(g, w, es[..|es| - 1]);
      SignalStays(g, w, es[..|es| - 1]);
    }
  }

  // ---- One period -------------------------------------------------------------------------------

  /** Still in the period that `w` is in. */
  predicate SamePeriod(w: World, v: World)
  {
    w.c.inRunahead && v.c.inRunahead && |w.periods| == |v.periods|
  }

  lemma {:induction false} PeriodsGrow(g: Config, w: World, es: seq<Event>)
    requires Inv(g, w) && Enabled(g, w, es)
    ensures |w.periods| <= |After(g, w, es).periods|
    ensures !w.c.inRunahead && After(g, w, es).c.inRunahead ==> |w.periods| < |After(g, w, es).periods|
  {
    if es != [] {
      PeriodsGrow(g, w, es[..|es| - 1]);
      RunKeepsInv(g, w, es[..|es| - 1]);
    }
  }

  /** What a run that stays in one period went through. */
  lemma PeriodStep(g: Config, w: World, es: seq<Event>)
    requires Inv(g, w) && Enabled(g, w, es) && es != [] && w.c.inRunahead && SamePeriod(w, After(g, w, es))
    ensures SamePeriod(w, After(g, w, es[..|es| - 1])) && !es[|es| - 1].DoExit? && !es[|es| - 1].DoEnter?
  {
    PeriodsGrow(g, w, es[..|es| - 1]);
    RunKeepsInv(g, w, es[..|es| - 1]);
  }

  lemma {:induction false} SignalStays(g: Config, w: World, es: seq<Event>)
    requires Inv(g, w) && Enabled(g, w, es) && w.c.exitable && SamePeriod(w, After(g, w, es))
    ensures After(g, w, es).c.exitable && After(g, w, es).signalledAt == w.signalledAt
    ensures w.c.exit ==> After(g, w, es).c.exit
  {
    if es != [] {
      PeriodStep(g, w, es);
      SignalStays(g, w, es[..|es| - 1]);
    }
  }

  /**
   * The deadline: from any valid state in a signalled period, under every policy and whatever happens, once the
   * deadline has passed the exit is decided or the period is over.
   */
  lemma ExitMeetsDeadline(g: Config, w: World, es: seq<Event>)
    requires Inv(g, w) && Enabled(g, w, es) && w.c.exitable
    requires w.signalledAt + g.deadline < After(g, w, es).now
    ensures !SamePeriod(w, After(g, w, es)) || After(g, w, es).c.exit
  {
    var v := After(g, w, es);
    if SamePeriod(w, v) {
      SignalStays(g, w, es);
      RunKeepsInv(g, w, es);
    }
  }

  // ---- Deadlines of earlier periods -------------------------------------------------------------

  predicate HasEvent(c: Control, cause: nat)
  {
    exists k :: 0 <= k < |c.events| && c.events[k].cause == cause
  }

  lemma FireRemoves(c: Control, k: nat, e: DeadlineEvent)
    requires k < |c.events|
    ensures e in Fire(c, k).events ==> e in c.events
    ensures e in c.events && e != c.events[k] ==> e in Fire(c, k).events
  {
  }

  /**
   * A period entered with no pending deadline for commit's copy of the cause is never ended by a deadline before it
   * is signalled: only a fetch page fault can decide its exit.
   */
  lemma {:induction false} NoStaleDeadline(g: Config, w: World, es: seq<Event>)
    requires Inv(g, w) && Enabled(g, w, es) && w.c.inRunahead && !w.c.exit && !HasEvent(w.c, w.c.cause)
    requires SamePeriod(w, After(g, w, es)) && !After(g, w, es).c.exitable
    ensures var c := After(g, w, es).c;
            && (c.exit ==> c.reason == Some(FetchPageFault))
            && (!c.exit ==> c.cause == w.c.cause && !HasEvent(c, c.cause))
  {
    if es != [] {
      PeriodStep(g, w, es);
      var u, e := After(g, w, es[..|es| - 1]), es[|es| - 1];
      assert !u.c.exitable;
      NoStaleDeadline(g, w, es[..|es| - 1]);
      if e.DoFire? {
        assert !u.c.exit ==> u.c.events[e.k].cause != u.c.cause;
        assert forall k | 0 <= k < |After(g, w, es).c.events| :: After(g, w, es).c.events[k] in u.c.events;
      }
    }
  }

  /** But one entered while such an event is pending does not outlive it, signalled or not. */
  lemma {:induction false} StaleDeadlineEndsPeriod(g: Config, w: World, es: seq<Event>, k: nat)
    requires Inv(g, w) && Enabled(g, w, es) && w.c.inRunahead && !w.c.exitable && !w.c.exit
    requires k < |w.c.events| && w.c.events[k].cause == w.c.cause
    requires SamePeriod(w, After(g, w, es)) && !After(g, w, es).c.exitable
    ensures var v := After(g, w, es);
            && (!v.c.exit ==> v.c.cause == w.c.cause && w.c.events[k] in v.c.events)
            && (w.c.events[k].due < v.now ==> v.c.exit)
  {
    RunKeepsInv(g, w, es);
    if es != [] {
      PeriodStep(g, w, es);
      var u, e := After(g, w, es[..|es| - 1]), es[|es| - 1];
      StaleDeadlineEndsPeriod(g, w, es[..|es| - 1], k);
      if e.DoFire? {
        FireRemoves(u.c, e.k, w.c.events[k]);
      }
    }
    assert DeadlineInv(g, After(g, w, es));
  }

  /** Such an event is always one of an earlier period, and the exit goes back to the load of that period. */
  lemma EarlyDeadlineIsStale(g: Config, es: seq<Event>, k: nat)
    requires Enabled(g, START, es) && Guard(g, After(g, START, es), DoFire(k))
    requires !After(g, START, es).c.exitable && !After(g, START, es).c.exit
    requires Fire(After(g, START, es).c, k).exit
    ensures var c := After(g, START, es).c; c.cause == c.events[k].cause < c.cpuCause
  {
    RunKeepsInv(g, START, es);
  }

  // ---- A stale deadline, cycle by cycle ---------------------------------------------------------

  function Times(e: Event, n: nat): seq<Event>
  {
    if n == 0 then [] else Times(e, n - 1) + [e]
  }

  lemma Extend(g: Config, w: World, es: seq<Event>, e: Event)
    requires Enabled(g, w, es) && Guard(g, After(g, w, es), e)
    ensures Enabled(g, w, es + [e]) && After(g, w, es + [e]) == Next(g, After(g, w, es), e)
  {
    assert (es + [e])[..|es + [e]| - 1] == es;
  }

  lemma LastEvent(g: Config, w: World, es: seq<Event>)
    requires Enabled(g, w, es) && es != []
    ensures Enabled(g, w, es[..|es| - 1]) && Guard(g, After(g, w, es[..|es| - 1]), es[|es| - 1])
    ensures After(g, w, es) == Next(g, After(g, w, es[..|es| - 1]), es[|es| - 1])
  {
  }

  lemma NoEvents(g: Config, w: World)
    ensures Enabled(g, w, []) && After(g, w, []) == w
  {
  }

  lemma {:induction false} ExtendAll(g: Config, w: World, es: seq<Event>, fs: seq<Event>)
    requires Enabled(g, w, es) && Enabled(g, After(g, w, es), fs)
    ensures Enabled(g, w, es + fs) && After(g, w, es + fs) == After(g, After(g, w, es), fs)
  {
    hide Enabled, After, Next, Guard;
    if fs == [] {
      NoEvents(g, After(g, w, es));
      assert es + fs == es;
    } else {
      var front, last := fs[..|fs| - 1], fs[|fs| - 1];
      LastEvent(g, After(g, w, es), fs);
      ExtendAll(g, w, es, front);
      Extend(g, w, es + front, last);
      assert es + fs == (es + front) + [last];
    }
  }

  /** Cycles in which nothing happens, as long as no deadline falls due in them. */
  lemma {:induction false} TicksPass(g: Config, w: World, n: nat)
    requires forall k | 0 <= k < |w.c.events| :: w.now + n <= w.c.events[k].due
    ensures Enabled(g, w, Times(Tick, n)) && After(g, w, Times(Tick, n)) == w.(now := w.now + n)
  {
    if n > 0 {
      TicksPass(g, w, n - 1);
      Extend(g, w, Times(Tick, n - 1), Tick);
    }
  }

  function RetiredMore(w: World, n: nat): World
    requires w.c.inRunahead ==> w.periods != []
  {
    if w.c.inRunahead then
      w.(c := w.c.(pseudoretired := w.c.pseudoretired + n),
         periods := w.periods[..|w.periods| - 1] + [w.periods[|w.periods| - 1] + n])
    else w.(c := w.c.(between := w.c.between + n), retired := w.retired + n)
  }

  lemma RetireOne(g: Config, w: World, n: nat)
    requires w.c.inRunahead ==> w.periods != []
    ensures Next(g, RetiredMore(w, n), DoRetire) == RetiredMore(w, n + 1)
  {
  }

  lemma RetireNone(w: World)
    requires w.c.inRunahead ==> w.periods != []
    ensures RetiredMore(w, 0) == w
  {
    if w.c.inRunahead {
      assert w.periods == w.periods[..|w.periods| - 1] + [w.periods[|w.periods| - 1] + 0];
    }
  }

  /** Instructions retire one after the other, in either mode. */
  lemma {:induction false} RetireMany(g: Config, w: World, n: nat)
    requires w.c.inRunahead ==> w.periods != []
    ensures Enabled(g, w, Times(DoRetire, n)) && After(g, w, Times(DoRetire, n)) == RetiredMore(w, n)
  {
    hide Enabled, After, RetiredMore;
    if n == 0 {
      NoEvents(g, w);
      RetireNone(w);
    } else {
      RetireMany(g, w, n - 1);
      RetireOne(g, w, n - 1);
      Extend(g, w, Times(DoRetire, n - 1), DoRetire);
    }
  }

  function WorkConfig(work: nat, deadline: nat): Config
  {
    Config(MinimumWork, work, deadline, false)
  }

  const ROB_VIEW := RobView(0, 0, 0, true)

  /** The first period: `wait` cycles until its load returns, `busy` more until its work is done, then the squash. */
  function FirstPeriod(work: nat, wait: nat, busy: nat): seq<Event>
  {
    [DoEnter(1)] + Times(Tick, wait) + [DoSignal(ROB_VIEW)] + Times(Tick, busy) + Times(DoRetire, work)
    + [DoUpdate(WaitView(false, false, None))] + [Tick] + [DoExit]
  }

  /** `gap` cycles of normal mode, a second period, and cycles in it until the deadline of the first. */
  function SecondPeriod(work: nat, gap: nat, left: nat): seq<Event>
  {
    Times(Tick, gap) + Times(DoRetire, work) + [DoEnter(2)] + Times(Tick, left) + [DoFire(0)]
  }

  function FirstDone(work: nat, wait: nat, busy: nat, deadline: nat): World
  {
    World(Control(false, 1, 1, false, false, Some(MinWorkDone), 0, work, 0, [DeadlineEvent(wait + deadline, 1)]),
          wait + busy + 1, wait, [work], 0)
  }

  function Signalled(wait: nat, deadline: nat): World
  {
    World(Control(true, 1, 1, true, false, None, 0, 0, 0, [DeadlineEvent(wait + deadline, 1)]), wait, wait, [0], 0)
  }

  lemma SignalRuns(work: nat, wait: nat, deadline: nat)
    requires 0 < work
    ensures var g, es := WorkConfig(work, deadline), [DoEnter(1)] + Times(Tick, wait) + [DoSignal(ROB_VIEW)];
            Enabled(g, START, es) && After(g, START, es) == Signalled(wait, deadline)
  {
    hide Enabled, After, Times;
    var g := WorkConfig(work, deadline);
    NoEvents(g, START);
    var a := [DoEnter(1)];
    Extend(g, START, [], DoEnter(1));
    assert [] + [DoEnter(1)] == a;
    var b := a + Times(Tick, wait);
    TicksPass(g, After(g, START, a), wait);
    ExtendAll(g, START, a, Times(Tick, wait));
    Extend(g, START, b, DoSignal(ROB_VIEW));
  }

  lemma FirstPeriodRuns(work: nat, wait: nat, busy: nat, deadline: nat)
    requires 0 < work && busy + 1 <= deadline
    ensures var g, es := WorkConfig(work, deadline), FirstPeriod(work, wait, busy);
            Enabled(g, START, es) && After(g, START, es) == FirstDone(work, wait, busy, deadline)
  {
    hide Enabled, After, Times;
    var g := WorkConfig(work, deadline);
    SignalRuns(work, wait, deadline);
    var c := [DoEnter(1)] + Times(Tick, wait) + [DoSignal(ROB_VIEW)];
    var d := c + Times(Tick, busy);
    TicksPass(g, After(g, START, c), busy);
    ExtendAll(g, START, c, Times(Tick, busy));
    var e := d + Times(DoRetire, work);
    RetireMany(g, After(g, START, d), work);
    ExtendAll(g, START, d, Times(DoRetire, work));
    var f := e + [DoUpdate(WaitView(false, false, None))];
    Extend(g, START, e, DoUpdate(WaitView(false, false, None)));
    Extend(g, START, f, Tick);
    Extend(g, START, f + [Tick], DoExit);
  }

  /**
   * It does happen, with any cycles in between: for every deadline longer than the rest of the first period and the gap
   * together, the second period, never signalled, is told to go back to the load of the first.
   */
  lemma StaleDeadlineHappens(work: nat, wait: nat, busy: nat, gap: nat, deadline: nat)
    requires 0 < work && busy + 1 + gap <= deadline
    ensures var g := WorkConfig(work, deadline);
            var es := FirstPeriod(work, wait, busy) + SecondPeriod(work, gap, deadline - busy - 1 - gap);
            && Enabled(g, START, es)
            && var c := After(g, START, es).c;
               c.exit && !c.exitable && c.reason == Some(Deadline) && c.cause == 1 && c.cpuCause == 2
  {
    var g, first := WorkConfig(work, deadline), FirstPeriod(work, wait, busy);
    var left := deadline - busy - 1 - gap;
    hide Enabled, After, Times, FirstPeriod;
    FirstPeriodRuns(work, wait, busy, deadline);
    var a := first + Times(Tick, gap);
    TicksPass(g, After(g, START, first), gap);
    ExtendAll(g, START, first, Times(Tick, gap));
    var b := a + Times(DoRetire, work);
    RetireMany(g, After(g, START, a), work);
    ExtendAll(g, START, a, Times(DoRetire, work));
    var c := b + [DoEnter(2)];
    Extend(g, START, b, DoEnter(2));
    var d := c + Times(Tick, left);
    TicksPass(g, After(g, START, c), left);
    ExtendAll(g, START, c, Times(Tick, left));
    Extend(g, START, d, DoFire(0));
    assert d + [DoFire(0)] == first + SecondPeriod(work, gap, left);
  }

  // ---- The stage --------------------------------------------------------------------------------

  lemma StepKeepsInv(g: Config, w: World, e: Event)
    requires Inv(g, w) && Guard(g, w, e)
    ensures Inv(g, Next(g, w, e))
  {
    FlagsStep(g, w, e);
    DeadlineStep(g, w, e);
    OverlapStep(g, w, e);
    ReasonStep(g, w, e);
  }

  /**
   * Commit's part of the mode switch for the one thread, with the CPU's mode and cause. `now` is the clock; the
   * ghost fields are when the period was signalled, and what has retired so far.
   */
  class CommitControl {
    const config: Config
    var inRunahead: bool
    var cpuCause: nat
    var runaheadCause: nat
    var runaheadExitable: bool
    var exitRunahead: bool
    var exitReason: Option<Reason>
    var runaheadExitSeqNum: nat
    var instsPseudoretired: nat
    var instsBetweenRunahead: nat
    var events: seq<DeadlineEvent>
    var now: nat
    ghost var signalledAt: nat
    ghost var periods: seq<nat>
    ghost var retired: nat

    function View(): Control
      reads this
    {
      Control(inRunahead, cpuCause, runaheadCause, runaheadExitable, exitRunahead, exitReason, runaheadExitSeqNum,
              instsPseudoretired, instsBetweenRunahead, events)
    }

    ghost function Seen(): World
      reads this
    {
      World(View(), now, signalledAt, periods, retired)
    }

    ghost predicate Valid()
      reads this
    {
      Inv(config, Seen())
    }

    /** An exit that is due and not decided is still within its deadline. */
    ghost predicate InTime()
      reads this
    {
      runaheadExitable && !exitRunahead ==> now <= signalledAt + config.deadline
    }

    constructor (config: Config)
      ensures Valid() && this.config == config && Seen() == START
    {
      this.config := config;
      inRunahead, cpuCause, runaheadCause, runaheadExitable, exitRunahead := false, 0, 0, false, false;
      exitReason, runaheadExitSeqNum, instsPseudoretired, instsBetweenRunahead, events := None, 0, 0, 0, [];
      now, signalledAt, periods, retired := 0, 0, [], 0;
    }

    method ExitNow(r: Reason)
      modifies `exitRunahead, `exitReason
      ensures View() == Decide(old(View()), r)
    {
      exitRunahead := true;
      exitReason := Some(r);
    }

    method DynamicDelayedExit(v: RobView)
      modifies `exitRunahead, `exitReason
      ensures View() == if old(instsPseudoretired) < v.entryInsts || v.nearbyLoad == 0 || !v.hasChain
                        then Decide(old(View()), EagerExit) else old(View())
    {
      if instsPseudoretired < v.entryInsts {
        ExitNow(EagerExit);
        return;
      }
      if v.nearbyLoad == 0 {
        ExitNow(EagerExit);
        return;
      }
      if !v.hasChain {
        ExitNow(EagerExit);
      }
    }

    /**
     * The load that caused runahead has returned. From now on the period may end, and it will: the exit is decided, or
     * the period's own deadline is among the pending events. The eager policy never waits.
     */
    method SignalExitRunahead(v: RobView)
      requires Valid() && inRunahead
      modifies this
      ensures Valid() && Seen() == Next(config, old(Seen()), DoSignal(v))
      ensures runaheadExitable && runaheadCause == cpuCause
      ensures exitRunahead || DeadlineEvent(signalledAt + config.deadline, cpuCause) in events
      ensures config.policy.Eager? ==> exitRunahead
    {
      hide Inv, ApplyPolicy;
      SignalMeans(config, Seen(), v);
      if runaheadExitable {
        return;
      }
      signalledAt := now;
      runaheadExitable := true;
      runaheadCause := cpuCause;
      ApplyExitPolicy(v);
      if !exitRunahead {
        events := events + [DeadlineEvent(now + config.deadline, cpuCause)];
      }
    }

    method ApplyExitPolicy(v: RobView)
      modifies `exitRunahead, `exitReason, `runaheadExitSeqNum
      ensures View() == ApplyPolicy(config, old(View()), v)
    {
      if config.policy.Eager? {
        ExitNow(EagerExit);
      } else if config.policy.MinimumWork? {
        if instsPseudoretired >= config.minWork {
          ExitNow(MinWorkDone);
        }
      } else if config.policy.Nllb? {
        if v.unsentLoad > 0 {
          runaheadExitSeqNum := v.unsentLoad;
        } else {
          ExitNow(EagerExit);
        }
      } else {
        DynamicDelayedExit(v);
      }
    }

    /**
     * The body of a deadline event that falls due. A period that is waiting to end ends by its own event; an event whose
     * load is not the recorded cause changes nothing.
     */
    method DeadlineReached(k: nat)
      requires Valid() && k < |events| && events[k].due == now
      modifies `events, `exitRunahead, `exitReason
      ensures Valid() && Seen() == Next(config, old(Seen()), DoFire(k))
      ensures events == old(events[..k] + events[k + 1..])
      ensures runaheadExitable && old(events[k].cause) == cpuCause ==> exitRunahead
      ensures old(events[k].cause) != runaheadCause ==> exitRunahead == old(exitRunahead)
      ensures old(exitRunahead) ==> exitRunahead
    {
      StepKeepsInv(config, Seen(), DoFire(k));
      hide OverlapInv, ReasonInv, DeadlineInv;
      var cause := events[k].cause;
      events := events[..k] + events[k + 1..];
      if !inRunahead || exitRunahead {
        return;
      }
      if runaheadCause != cause {
        return;
      }
      ExitNow(Deadline);
    }

    /** The end of a cycle: an exit is decided only in a signalled period, and finished minimum work decides it. */
    method UpdateRunaheadState(v: WaitView)
      requires Valid()
      modifies `exitRunahead, `exitReason
      ensures Valid() && Seen() == Next(config, old(Seen()), DoUpdate(v))
      ensures exitRunahead && !old(exitRunahead) ==> runaheadExitable
      ensures config.policy.MinimumWork? && runaheadExitable && instsPseudoretired >= config.minWork ==> exitRunahead
      ensures config.policy.Nllb? && runaheadExitable && WaitIsOver(v, runaheadExitSeqNum) ==> exitRunahead
      ensures exitRunahead && !old(exitRunahead) && config.policy.Nllb? ==> WaitIsOver(v, runaheadExitSeqNum)
    {
      if config.policy.Nllb? && runaheadExitable {
        UpdateEnds(config, Seen(), v);
      }
      StepKeepsInv(config, Seen(), DoUpdate(v));
      hide OverlapInv, ReasonInv, DeadlineInv, FlagsInv;
      if config.policy.MinimumWork? && runaheadExitable && !exitRunahead {
        if instsPseudoretired >= config.minWork {
          ExitNow(MinWorkDone);
        }
      }
      if config.policy.Nllb? && runaheadExitable && !exitRunahead && runaheadExitSeqNum != 0 {
        if !v.loadFound {
          ExitNow(Dynamic);
        } else if v.loadExecuted {
          ExitNow(Dynamic);
        }
        if v.head.Some? {
          if v.head.value > runaheadExitSeqNum {
            ExitNow(Dynamic);
          }
        } else {
          ExitNow(Dynamic);
        }
      }
    }

    /** A fetch page fault ends the period it happens in, at that period's own load, whatever was recorded before. */
    method FetchFaultInRunahead()
      requires Valid() && inRunahead
      modifies `runaheadCause, `exitRunahead, `exitReason
      ensures Valid() && Seen() == Next(config, old(Seen()), DoPageFault)
      ensures exitRunahead && runaheadCause == cpuCause && exitReason == Some(FetchPageFault)
    {
      StepKeepsInv(config, Seen(), DoPageFault);
      hide Inv;
      runaheadCause := cpuCause;
      ExitNow(FetchPageFault);
    }

    /** The mode is normal again, nothing of the period's exit is left over, and counting towards the next one restarts. */
    method SquashFromRunaheadExit()
      requires Valid() && exitRunahead
      modifies `exitRunahead, `inRunahead, `instsBetweenRunahead, `runaheadExitable
      ensures Valid() && Seen() == Next(config, old(Seen()), DoExit)
      ensures !inRunahead && !exitRunahead && !runaheadExitable && instsBetweenRunahead == 0
      ensures !config.allowOverlap ==> Sum(Earlier(periods)) <= retired
    {
      StepKeepsInv(config, Seen(), DoExit);
      hide ReasonInv, DeadlineInv, FlagsInv, Sum, Earlier;
      exitRunahead := false;
      inRunahead := false;
      instsBetweenRunahead := 0;
      runaheadExitable := false;
    }

    /**
     * Runahead is entered unless already running or the period would overlap the last one: with overlap forbidden, all
     * the periods so far pseudoretired no more than normal mode has retired.
     */
    method EnterRunahead(load: nat) returns (entered: bool)
      requires Valid() && cpuCause < load
      modifies `inRunahead, `cpuCause, `instsPseudoretired, `periods
      ensures entered <==> CanEnter(config, old(View()))
      ensures entered <==> !old(inRunahead) && (config.allowOverlap || old(instsBetweenRunahead) >= old(instsPseudoretired))
      ensures Valid() && Seen() == if entered then Next(config, old(Seen()), DoEnter(load)) else old(Seen())
      ensures entered ==> inRunahead && !exitRunahead && !runaheadExitable && runaheadCause < cpuCause
      ensures entered && !config.allowOverlap ==> Sum(old(periods)) <= retired
    {
      if inRunahead {
        return false;
      }
      if !config.allowOverlap && instsBetweenRunahead < instsPseudoretired {
        return false;
      }
      EntryFits(config, Seen());
      StepKeepsInv(config, Seen(), DoEnter(load));
      hide ReasonInv, DeadlineInv, OverlapInv;
      inRunahead := true;
      cpuCause := load;
      instsPseudoretired := 0;
      periods := periods + [0];
      return true;
    }

    /** One whole instruction leaves the ROB: it counts for the current period, or for what normal mode has retired. */
    method UpdateComInst()
      requires Valid()
      modifies `instsBetweenRunahead, `instsPseudoretired, `periods, `retired
      ensures Valid() && Seen() == Next(config, old(Seen()), DoRetire)
      ensures inRunahead ==> retired == old(retired) && Sum(periods) == old(Sum(periods)) + 1
      ensures !inRunahead ==> retired == old(retired) + 1 && periods == old(periods)
    {
      RetireMeans(config, Seen());
      hide Inv, Next, Guard, Retire, Sum, Counted;
      CountRetired(inRunahead);
      if inRunahead {
        periods := Counted(periods);
      } else {
        retired := retired + 1;
      }
    }

    method CountRetired(runahead: bool)
      modifies `instsBetweenRunahead, `instsPseudoretired
      ensures View() == Retire(old(View()), runahead)
    {
      if !inRunahead {
        instsBetweenRunahead := instsBetweenRunahead + 1;
      }
      if runahead {
        instsPseudoretired := instsPseudoretired + 1;
      }
    }

    /** What is left of a cycle: the events that are due, the end-of-cycle checks, and the clock. */
    method EndOfCycle(v: WaitView)
      requires Valid()
      modifies this
      ensures Valid() && InTime() && now == old(now) + 1
      ensures inRunahead == old(inRunahead) && cpuCause == old(cpuCause) && periods == old(periods) && retired == old(retired)
      ensures old(exitRunahead) ==> exitRunahead
      ensures config.policy.MinimumWork? && runaheadExitable && instsPseudoretired >= config.minWork ==> exitRunahead
    {
      hide Inv, Next, Guard;
      FireDue();
      ghost var w := Seen();
      UpdateRunaheadState(v);
      UpdateMeans(config, w, v);
      TickMeans(config, Seen());
      now := now + 1;
    }

    method Handle(e: Event)
      requires Valid() && Guard(config, Seen(), e)
      modifies this
      ensures Valid() && Seen() == Next(config, old(Seen()), e)
    {
      ghost var w := Seen();
      EventMeans(config, w, e);
      hide Inv, Guard, Next, CanEnter;
      match e {
        case DoEnter(load) =>
          var entered := EnterRunahead(load);
        case DoSignal(rob) => SignalExitRunahead(rob);
        case DoFire(k) => DeadlineReached(k);
        case DoUpdate(wait) => UpdateRunaheadState(wait);
        case DoPageFault => FetchFaultInRunahead();
        case DoExit => SquashFromRunaheadExit();
        case DoRetire => UpdateComInst();
        case Tick => now := now + 1;
      }
    }

    /** A whole run, at the end of which no exit that is due is late. */
    method Run(es: seq<Event>)
      requires Valid() && Enabled(config, Seen(), es)
      modifies this
      ensures Valid() && InTime() && Seen() == After(config, old(Seen()), es)
    {
      hide Inv, Guard, Next, Enabled, After;
      ghost var w := Seen();
      NoEvents(config, w);
      for k := 0 to |es|
        invariant Valid() && Enabled(config, w, es[..k]) && Seen() == After(config, w, es[..k])
      {
        PrefixEnabled(config, w, es, k + 1);
        LastEvent(config, w, es[..k + 1]);
        assert es[..k + 1][..k] == es[..k] && es[..k + 1][k] == es[k];
        Handle(es[k]);
      }
      assert es[..|es|] == es;
      NeverLate(config, Seen());
    }

    /** Every event that is due fires; none of those that are left is due. */
    method FireDue()
      requires Valid()
      modifies `events, `exitRunahead, `exitReason
      ensures Valid() && (old(exitRunahead) ==> exitRunahead)
      ensures forall i | 0 <= i < |events| :: events[i].due != now
    {
      hide Inv, Next, Guard;
      var k := 0;
      while k < |events|
        invariant Valid() && k <= |events| && forall i | 0 <= i < k :: events[i].due != now
        invariant old(exitRunahead) ==> exitRunahead
        decreases |events| - k
      {
        if events[k].due == now {
          DeadlineReached(k);
        } else {
          k := k + 1;
        }
      }
    }
  }

  lemma SumCounted(periods: seq<nat>)
    requires periods != []
    ensures Sum(Counted(periods)) == Sum(periods) + 1
  {
    assert Counted(periods)[..|periods| - 1] == periods[..|periods| - 1];
  }

  /** When a period may be entered, normal mode has caught up with everything runahead ever pseudoretired. */
  lemma EntryFits(g: Config, w: World)
    requires Inv(g, w) && CanEnter(g, w.c)
    ensures !g.allowOverlap ==> Sum(w.periods) <= w.retired
  {
  }

  /** What each event asks of the control, and that it keeps the invariants. */
  lemma EventMeans(g: Config, w: World, e: Event)
    requires Inv(g, w) && Guard(g, w, e)
    ensures Inv(g, Next(g, w, e))
    ensures match e
            case DoEnter(load) => CanEnter(g, w.c) && w.c.cpuCause < load
            case DoSignal(_) => w.c.inRunahead
            case DoFire(k) => k < |w.c.events| && w.c.events[k].due == w.now
            case DoPageFault => w.c.inRunahead
            case DoExit => w.c.exit
            case Tick => Next(g, w, e) == w.(now := w.now + 1)
            case _ => true
  {
    StepKeepsInv(g, w, e);
    hide Inv;
  }

  lemma {:induction false} PrefixEnabled(g: Config, w: World, es: seq<Event>, k: nat)
    requires Enabled(g, w, es) && k <= |es|
    ensures Enabled(g, w, es[..k])
  {
    if k == |es| {
      assert es[..k] == es;
    } else {
      assert es[..|es| - 1][..k] == es[..k];
      PrefixEnabled(g, w, es[..|es| - 1], k);
    }
  }

  lemma NeverLate(g: Config, w: World)
    requires Inv(g, w)
    ensures w.c.exitable && !w.c.exit ==> w.now <= w.signalledAt + g.deadline
  {
    hide OverlapInv, ReasonInv;
  }

  /** A signalled period is either over by decision or has its own deadline pending. */
  lemma SignalMeans(g: Config, w: World, v: RobView)
    requires Inv(g, w) && w.c.inRunahead
    ensures var u := Next(g, w, DoSignal(v));
            && Inv(g, u) && u.c.exitable && u.c.cause == u.c.cpuCause && (g.policy.Eager? ==> u.c.exit)
            && (u.c.exit || DeadlineEvent(u.signalledAt + g.deadline, u.c.cpuCause) in u.c.events)
  {
    StepKeepsInv(g, w, DoSignal(v));
    hide OverlapInv;
  }

  lemma RetireMeans(g: Config, w: World)
    requires Inv(g, w)
    ensures Inv(g, Next(g, w, DoRetire))
    ensures Next(g, w, DoRetire) ==
            w.(c := Retire(w.c, w.c.inRunahead), periods := if w.c.inRunahead then Counted(w.periods) else w.periods,
               retired := if w.c.inRunahead then w.retired else w.retired + 1)
    ensures w.c.inRunahead ==> Sum(Counted(w.periods)) == Sum(w.periods) + 1
  {
    StepKeepsInv(g, w, DoRetire);
    if w.c.inRunahead {
      SumCounted(w.periods);
    }
  }

  lemma UpdateEnds(g: Config, w: World, v: WaitView)
    requires Inv(g, w) && g.policy.Nllb? && w.c.exitable
    ensures Next(g, w, DoUpdate(v)).c.exit <==> w.c.exit || WaitIsOver(v, w.c.exitSeqNum)
  {
    hide DeadlineInv, OverlapInv;
  }

  lemma UpdateMeans(g: Config, w: World, v: WaitView)
    ensures w.c.exit ==> Next(g, w, DoUpdate(v)).c.exit
  {
  }

  /** Once what is due has fired the clock may move on, and a delayed exit is still within its deadline after it has. */
  lemma TickMeans(g: Config, w: World)
    requires Inv(g, w) && forall k | 0 <= k < |w.c.events| :: w.c.events[k].due != w.now
    ensures Guard(g, w, Tick) && Inv(g, w.(now := w.now + 1))
    ensures w.c.exitable && !w.c.exit ==> w.now + 1 <= w.signalledAt + g.deadline
  {
    assert forall k | 0 <= k < |w.c.events| :: w.now <= w.c.events[k].due;
    StepKeepsInv(g, w, Tick);
    assert DeadlineInv(g, w.(now := w.now + 1));
    hide FlagsInv, OverlapInv, ReasonInv;
  }
}
