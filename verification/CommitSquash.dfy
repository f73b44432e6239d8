/** Commit's own squashes against those of issue/execute: nothing that was asked to go is left behind. */
module CommitSquash {
  import opened Prelude
  import opened Redirect

  // ---- Commit -----------------------------------------------------------------------------------

  datatype Status = Running | RobSquashing | TrapPending | SquashAfterPending

  /** `exitCause` is the cause of runahead when an exit is due; `done` the point last sent to the other stages. */
  datatype Commit = Commit(status: Status, rob: seq<nat>, lastCommitted: nat, youngest: int, trapSquash: bool,
                           tcSquash: bool, staleSquashAfter: bool, exitCause: Option<nat>, done: int)

  function Survivors(rob: seq<nat>, point: int): (r: seq<nat>)
    ensures |r| <= |rob|
    ensures forall n :: n in r <==> n in rob && n <= point
  {
    if rob == [] then []
    else Survivors(rob[..|rob| - 1], point) + (if rob[|rob| - 1] <= point then [rob[|rob| - 1]] else [])
  }

  function SquashTo(c: Commit, point: int, youngest: int): Commit
  {
    c.(status := RobSquashing, rob := Survivors(c.rob, point), youngest := youngest, done := point)
  }

  /** Everything in flight, from just below the head. */
  function SquashAll(c: Commit): Commit
  {
    var head: int := if c.rob == [] then c.lastCommitted + 1 else c.rob[0];
    SquashTo(c, head - 1, c.lastCommitted)
  }

  predicate SquashesLocally(c: Commit)
  {
    c.trapSquash || c.tcSquash || (c.status.SquashAfterPending? && !c.staleSquashAfter)
    || (!c.status.SquashAfterPending? && c.exitCause.Some?)
  }

  /** Commit's own squashes, at most one a cycle. */
  function LocalSquash(c: Commit): Commit
  {
    if c.trapSquash then SquashAll(c).(trapSquash := false)
    else if c.tcSquash then SquashAll(c).(tcSquash := false)
    else if c.status.SquashAfterPending? then if c.staleSquashAfter then c.(status := Running) else SquashAll(c)
    else if c.exitCause.Some? then SquashTo(c, c.exitCause.value - 1, c.exitCause.value - 1).(exitCause := None)
    else c
  }

  predicate Accepts(c: Commit, r: Request)
  {
    !c.status.TrapPending? && r.seqNum <= c.youngest
  }

  /** A cycle: commit's own squash, then the one from issue/execute if it is not filtered out. */
  function Cycle(c: Commit, iew: Option<Request>): Commit
  {
    var d := LocalSquash(c);
    if iew.Some? && Accepts(d, iew.value) then SquashTo(d, Point(iew.value), Point(iew.value)) else d
  }

  /** `asked` is every instruction some squash asked to remove while it was in the ROB. */
  datatype World = World(c: Commit, newest: nat, asked: set<nat>)

  datatype Event =
    | Insert(n: nat)
    | Retire
    | RaiseTrap
    | TrapReady
    | AskTc
    | AskSquashAfter
    | GoStale
    | AskExit(cause: nat)
    | DoneSquashing
    | Squashes(iew: Option<Request>)

  predicate ExitCovers(w: World, cause: nat)
  {
    cause <= w.newest && forall k | 0 <= k < |w.c.rob| :: cause <= w.c.rob[k]
  }

  /** Sequence numbers grow, and everything in the ROB at an exit is at or younger than the cause of runahead. */
  predicate Guard(w: World, e: Event)
  {
    match e
    case Insert(n) => w.newest < n && !w.c.status.RobSquashing? && !w.c.status.TrapPending?
    case Retire => w.c.rob != [] && w.c.status.Running?
    case RaiseTrap => w.c.rob != [] && w.c.status.Running?
    case TrapReady => w.c.status.TrapPending?
    case AskTc => true
    case AskSquashAfter => w.c.status.Running?
    case GoStale => true
    case AskExit(cause) => ExitCovers(w, cause)
    case DoneSquashing => w.c.status.RobSquashing?
    case Squashes(_) => true
  }

  function Next(w: World, e: Event): World
    requires Guard(w, e)
  {
    match e
    case Insert(n) => w.(c := w.c.(rob := w.c.rob + [n], youngest := n), newest := n)
    case Retire => w.(c := w.c.(rob := w.c.rob[1..], lastCommitted := w.c.rob[0]))
    case RaiseTrap => w.(c := w.c.(status := TrapPending))
    case TrapReady => w.(c := w.c.(trapSquash := true))
    case AskTc => w.(c := w.c.(tcSquash := true))
    case AskSquashAfter => w.(c := w.c.(status := SquashAfterPending, staleSquashAfter := false))
    case GoStale => w.(c := w.c.(staleSquashAfter := true))
    case AskExit(cause) => w.(c := w.c.(exitCause := Some(cause)))
    case DoneSquashing => w.(c := w.c.(status := Running))
    case Squashes(iew) =>
      w.(c := Cycle(w.c, iew),
         asked := w.asked + (set n | n in w.c.rob && SquashesLocally(w.c) && n > LocalSquash(w.c).done)
                  + (set n | n in w.c.rob && iew.Some? && n > Point(iew.value)))
  }

  predicate Ordered(rob: seq<nat>)
  {
    forall i, j | 0 <= i < j < |rob| :: rob[i] < rob[j]
  }

  predicate Bounded(w: World)
  {
    && (forall k | 0 <= k < |w.c.rob| :: w.c.lastCommitted < w.c.rob[k] <= w.newest && w.c.rob[k] <= w.c.youngest)
    && (forall n | n in w.asked :: n <= w.newest) && w.c.lastCommitted <= w.newest
  }

  predicate ExitsCovered(w: World)
  {
    w.c.exitCause.Some? ==> ExitCovers(w, w.c.exitCause.value)
  }

  predicate AskedGone(w: World)
  {
    !w.c.status.TrapPending? ==> forall k | 0 <= k < |w.c.rob| :: w.c.rob[k] !in w.asked
  }

  predicate Inv(w: World)
  {
    Ordered(w.c.rob) && Bounded(w) && ExitsCovered(w) && AskedGone(w)
  }

  lemma {:induction false} NoSurvivors(rob: seq<nat>, point: int)
    requires forall k | 0 <= k < |rob| :: point < rob[k]
    ensures Survivors(rob, point) == []
  {
    if rob != [] {
      NoSurvivors(rob[..|rob| - 1], point);
    }
  }

  /** A squash of commit's own leaves nothing in the ROB. */
  lemma LocalSquashEmpties(w: World)
    requires Inv(w) && SquashesLocally(w.c)
    ensures LocalSquash(w.c).rob == [] && LocalSquash(w.c).status.RobSquashing?
  {
    var c, d := w.c, LocalSquash(w.c);
    assert forall k | 0 <= k < |c.rob| :: c.rob[0] <= c.rob[k];
    NoSurvivors(c.rob, d.done);
  }

  lemma {:induction false} SurvivorsStayOrdered(rob: seq<nat>, point: int)
    requires forall i, j | 0 <= i < j < |rob| :: rob[i] < rob[j]
    ensures forall i, j | 0 <= i < j < |Survivors(rob, point)| ::
              Survivors(rob, point)[i] < Survivors(rob, point)[j]
  {
    if rob != [] {
      var init := Survivors(rob[..|rob| - 1], point);
      SurvivorsStayOrdered(rob[..|rob| - 1], point);
      forall i | 0 <= i < |init| ensures init[i] < rob[|rob| - 1] {
        assert init[i] in rob[..|rob| - 1];
      }
    }
  }

  /** A request the filter drops would remove nothing: all it asks for is gone already. */
  lemma FilterDropsNothing(c: Commit, r: Request)
    requires !c.status.TrapPending? && !Accepts(c, r) && forall n | n in c.rob :: n <= c.youngest
    ensures forall n | n in c.rob :: n <= Point(r)
  {
  }

  /** When commit squashes in the same cycle, a request is taken only if it reaches at least as far back. */
  lemma OldestSquashWins(c: Commit, r: Request)
    requires SquashesLocally(c) && forall n | n in c.rob :: c.lastCommitted < n
    ensures Cycle(c, Some(r)).done <= LocalSquash(c).done
    ensures Cycle(c, Some(r)).youngest <= LocalSquash(c).youngest
    ensures !c.trapSquash && !c.tcSquash && !c.status.SquashAfterPending? ==>
              Cycle(c, Some(r)).done == Min(c.exitCause.value - 1, Point(r))
    ensures c.lastCommitted < r.seqNum && (c.trapSquash || c.tcSquash || c.status.SquashAfterPending?) ==>
              Cycle(c, Some(r)) == LocalSquash(c)
  {
    if c.rob != [] {
      assert c.rob[0] in c.rob;
    }
  }

  /** What is left after a cycle was there before, in order. */
  lemma CycleShrinks(w: World, iew: Option<Request>)
    requires Inv(w)
    ensures var v := Cycle(w.c, iew);
            && (forall i, j | 0 <= i < j < |v.rob| :: v.rob[i] < v.rob[j])
            && (forall n | n in v.rob :: n in w.c.rob && n <= v.youngest)
            && (SquashesLocally(w.c) ==> v.rob == [])
            && v.lastCommitted == w.c.lastCommitted
  {
    var d := LocalSquash(w.c);
    if SquashesLocally(w.c) {
      LocalSquashEmpties(w);
    }
    if iew.Some? {
      SurvivorsStayOrdered(d.rob, Point(iew.value));
    }
  }

  /** After a cycle with no trap pending, nothing the cycle asked to remove is left. */
  lemma CycleRemovesAsked(w: World, iew: Option<Request>, n: nat)
    requires Inv(w) && !Cycle(w.c, iew).status.TrapPending? && n in Cycle(w.c, iew).rob
    ensures n !in Next(w, Squashes(iew)).asked
    ensures !w.c.status.TrapPending?
  {
    CycleShrinks(w, iew);
    var d := LocalSquash(w.c);
    assert !SquashesLocally(w.c) && d.rob == w.c.rob;
    if iew.Some? && !Accepts(d, iew.value) {
      FilterDropsNothing(d, iew.value);
    }
  }

  lemma ShrunkStaysBounded(w: World, v: World)
    requires Bounded(w) && ExitsCovered(w) && v.newest == w.newest && v.c.lastCommitted == w.c.lastCommitted
    requires forall n | n in v.c.rob :: n in w.c.rob && n <= v.c.youngest
    requires forall n | n in v.asked :: n in w.asked || n in w.c.rob
    requires v.c.exitCause.Some? ==> v.c.exitCause == w.c.exitCause
    ensures Bounded(v) && ExitsCovered(v)
  {
    forall k | 0 <= k < |v.c.rob|
      ensures v.c.lastCommitted < v.c.rob[k] <= v.newest && v.c.rob[k] <= v.c.youngest
      ensures v.c.exitCause.Some? ==> v.c.exitCause.value <= v.c.rob[k]
    {
      assert v.c.rob[k] in w.c.rob;
    }
  }

  lemma CycleKeepsInv(w: World, iew: Option<Request>)
    requires Inv(w) && Guard(w, Squashes(iew))
    ensures Inv(Next(w, Squashes(iew)))
  {
    hide Bounded, ExitsCovered, ExitCovers, Survivors;
    CycleShrinks(w, iew);
    var v := Next(w, Squashes(iew));
    assert AskedGone(v) by {
      forall k | 0 <= k < |v.c.rob| && !v.c.status.TrapPending? ensures v.c.rob[k] !in v.asked {
        CycleRemovesAsked(w, iew, v.c.rob[k]);
      }
    }
    ShrunkStaysBounded(w, v);
  }

  lemma RetireKeepsInv(w: World)
    requires Inv(w) && Guard(w, Retire)
    ensures Inv(Next(w, Retire))
  {
    var v := Next(w, Retire);
    assert forall k | 0 <= k < |v.c.rob| :: v.c.rob[k] == w.c.rob[k + 1];
  }

  lemma InsertKeepsInv(w: World, n: nat)
    requires Inv(w) && Guard(w, Insert(n))
    ensures Inv(Next(w, Insert(n)))
  {
  }

  lemma StepKeepsInv(w: World, e: Event)
    requires Inv(w) && Guard(w, e)
    ensures Inv(Next(w, e))
  {
    match e
    case Squashes(iew) => CycleKeepsInv(w, iew);
    case Retire => RetireKeepsInv(w);
    case Insert(n) => InsertKeepsInv(w, n);
    case _ =>
      hide Survivors, Cycle;
  }

  // ---- Runs -------------------------------------------------------------------------------------

  const START := World(Commit(Running, [], 0, 0, false, false, false, None, 0), 0, {})

  predicate Enabled(w: World, es: seq<Event>)
    decreases |es|
  {
    es == [] || (Guard(w, es[0]) && Enabled(Next(w, es[0]), es[1..]))
  }

  function After(w: World, es: seq<Event>): World
    requires Enabled(w, es)
    decreases |es|
  {
    if es == [] then w else After(Next(w, es[0]), es[1..])
  }

  lemma {:induction false} RunKeepsInv(w: World, es: seq<Event>)
    requires Inv(w) && Enabled(w, es)
    ensures Inv(After(w, es))
    decreases |es|
  {
    if es != [] {
      StepKeepsInv(w, es[0]);
      RunKeepsInv(Next(w, es[0]), es[1..]);
    }
  }

  /**
   * In every reachable state with no trap pending, nothing is left in the ROB that any squash, from either side,
   * taken or filtered out, ever asked to remove.
   */
  lemma NoSurvivorOfAnySquash(es: seq<Event>, n: nat)
    requires Enabled(START, es) && n in After(START, es).c.rob && !After(START, es).c.status.TrapPending?
    ensures n !in After(START, es).asked
  {
    RunKeepsInv(START, es);
  }

  // ---- The stage --------------------------------------------------------------------------------

  /**
   * Commit's squash handling for the one thread. `newest` is the last sequence number that entered the ROB, and `asked`
   * every instruction that a squash has asked to remove.
   */
  class CommitStage {
    var status: Status
    var rob: seq<nat>
    var lastCommitted: nat
    var youngestSeqNum: int
    var trapSquash: bool
    var tcSquash: bool
    var staleSquashAfter: bool
    var exitRunahead: bool
    var runaheadCause: nat
    var doneSeqNum: int
    ghost var newest: nat
    ghost var asked: set<nat>

    function View(): Commit
      reads this
    {
      Commit(status, rob, lastCommitted, youngestSeqNum, trapSquash, tcSquash, staleSquashAfter,
             if exitRunahead then Some(runaheadCause) else None, doneSeqNum)
    }

    ghost function Seen(): World
      reads this
    {
      World(View(), newest, asked)
    }

    /** Sequence numbers grow, an exit covers the ROB, and with no trap pending nothing asked to go is still there. */
    ghost predicate Valid()
      reads this
    {
      Inv(Seen())
    }

    constructor ()
      ensures Valid() && Seen() == START
    {
      status, rob, lastCommitted, youngestSeqNum := Running, [], 0, 0;
      trapSquash, tcSquash, staleSquashAfter, exitRunahead, runaheadCause := false, false, false, false, 0;
      doneSeqNum, newest, asked := 0, 0, {};
    }

    /** The point sent out lies at or above the last commit and below everything in flight, so nothing is left. */
    method SquashEverything()
      requires Valid()
      modifies `status, `rob, `youngestSeqNum, `doneSeqNum
      ensures rob == [] && status.RobSquashing? && youngestSeqNum == lastCommitted
      ensures lastCommitted <= doneSeqNum && forall n | n in old(rob) :: doneSeqNum < n
      ensures View() == SquashAll(old(View()))
    {
      BelowHead(Seen());
      var point: int := lastCommitted;
      if rob != [] {
        point := rob[0];
        point := point - 1;
      }
      youngestSeqNum := lastCommitted;
      rob := Survivors(rob, point);
      doneSeqNum := point;
      status := RobSquashing;
    }

    /** Everything in flight goes, the cause of runahead included, and the exit is no longer due. */
    method SquashFromRunaheadExit()
      requires Valid() && exitRunahead
      modifies `status, `rob, `youngestSeqNum, `doneSeqNum, `exitRunahead
      ensures rob == [] && status.RobSquashing? && !exitRunahead
      ensures doneSeqNum < runaheadCause && forall n | n in old(rob) :: doneSeqNum < n
      ensures View() == SquashTo(old(View()), runaheadCause - 1, runaheadCause - 1).(exitCause := None)
    {
      ExitEmpties(Seen(), runaheadCause);
      exitRunahead := false;
      var point: int := runaheadCause;
      point := point - 1;
      youngestSeqNum := point;
      doneSeqNum := point;
      status := RobSquashing;
      rob := Survivors(rob, point);
    }

    /** Commit's own squashes: whichever it is, it empties the ROB. */
    method SquashLocally()
      requires Valid()
      modifies this
      ensures View() == LocalSquash(old(View())) && newest == old(newest) && asked == old(asked)
      ensures rob == if SquashesLocally(old(View())) then [] else old(rob)
    {
      hide Survivors, Inv;
      if trapSquash {
        SquashEverything();
        trapSquash := false;
      } else if tcSquash {
        SquashEverything();
        tcSquash := false;
      } else if status.SquashAfterPending? {
        if !staleSquashAfter {
          SquashEverything();
        } else {
          status := Running;
        }
      } else if exitRunahead {
        SquashFromRunaheadExit();
      }
    }

    /**
     * A cycle's squashes. With no trap pending, what stays in the ROB is exactly what neither a squash of commit's own
     * (a trap, a thread context's, one after an instruction, the end of runahead) nor the one from issue/execute asked
     * to remove; while a trap is pending nothing is touched. Commit does one of its own in a cycle; the others wait.
     */
    method HandleSquashes(iew: Option<Request>)
      requires Valid()
      modifies this
      ensures Valid() && Seen() == Next(old(Seen()), Squashes(iew))
      ensures !status.TrapPending? ==>
                forall n :: n in rob <==>
                  && n in old(rob) && !old(trapSquash) && !old(tcSquash)
                  && (iew.Some? ==> n < iew.value.seqNum || (n == iew.value.seqNum && iew.value.cause.BranchMispredict?))
                  && if old(status).SquashAfterPending? then old(staleSquashAfter) else !old(exitRunahead)
      ensures status.TrapPending? ==> rob == old(rob)
      ensures !trapSquash && (tcSquash <==> old(tcSquash) && old(trapSquash))
      ensures exitRunahead <==>
                old(exitRunahead) && (old(trapSquash) || old(tcSquash) || old(status).SquashAfterPending?)
    {
      ghost var w := Seen();
      CycleKeepsInv(w, iew);
      CycleIsExact(w, iew);
      hide Survivors, LocalSquash, SquashesLocally, Inv;
      SquashLocally();
      SquashFromIew(iew);
      asked := Next(w, Squashes(iew)).asked;
    }

    /** The request of issue/execute, unless a trap is pending or it asks for nothing that is still there. */
    method SquashFromIew(iew: Option<Request>)
      modifies `status, `rob, `youngestSeqNum, `doneSeqNum
      ensures View() == if iew.Some? && Accepts(old(View()), iew.value)
                        then SquashTo(old(View()), Point(iew.value), Point(iew.value)) else old(View())
    {
      hide Survivors;
      if iew.Some? && !status.TrapPending? && iew.value.seqNum <= youngestSeqNum {
        status := RobSquashing;
        var point: int := iew.value.seqNum;
        if Inclusive(iew.value) {
          point := point - 1;
        }
        youngestSeqNum := point;
        rob := Survivors(rob, point);
        doneSeqNum := point;
      }
    }

    /** Everything else that happens to commit between two cycles of squashing. */
    method Progress(e: Event)
      requires Valid() && Guard(Seen(), e) && !e.Squashes?
      modifies this
      ensures Valid() && Seen() == Next(old(Seen()), e)
    {
      StepKeepsInv(Seen(), e);
      hide Inv;
      match e {
        case Insert(n) => rob, youngestSeqNum, newest := rob + [n], n, n;
        case Retire => rob, lastCommitted := rob[1..], rob[0];
        case RaiseTrap => status := TrapPending;
        case TrapReady => trapSquash := true;
        case AskTc => tcSquash := true;
        case AskSquashAfter => status, staleSquashAfter := SquashAfterPending, false;
        case GoStale => staleSquashAfter := true;
        case AskExit(cause) => exitRunahead, runaheadCause := true, cause;
        case DoneSquashing => status := Running;
      }
    }

    /** A whole run: with no trap pending at its end, no instruction that any squash asked to remove is in the ROB. */
    method Run(es: seq<Event>)
      requires Valid() && Enabled(Seen(), es)
      modifies this
      ensures Valid() && Seen() == After(old(Seen()), es)
      ensures !status.TrapPending? ==> forall n | n in rob :: n !in asked
    {
      ghost var start := Seen();
      hide Inv, Guard, Next;
      for k := 0 to |es|
        invariant Valid() && Enabled(Seen(), es[k..]) && After(Seen(), es[k..]) == After(start, es)
      {
        assert es[k..][0] == es[k] && es[k..][1..] == es[k + 1..];
        if es[k].Squashes? {
          HandleSquashes(es[k].iew);
        } else {
          Progress(es[k]);
        }
      }
      if !status.TrapPending? {
        NothingAskedIsLeft(Seen());
      }
    }
  }

  lemma BelowHead(w: World)
    requires Inv(w)
    ensures var point := if w.c.rob == [] then w.c.lastCommitted else w.c.rob[0] - 1;
            && w.c.lastCommitted <= point && Survivors(w.c.rob, point) == []
            && (forall n | n in w.c.rob :: point < n)
  {
    var point := if w.c.rob == [] then w.c.lastCommitted else w.c.rob[0] - 1;
    assert forall k | 0 <= k < |w.c.rob| :: w.c.rob[0] <= w.c.rob[k];
    NoSurvivors(w.c.rob, point);
  }

  lemma ExitEmpties(w: World, cause: nat)
    requires Inv(w) && w.c.exitCause == Some(cause)
    ensures Survivors(w.c.rob, cause - 1) == [] && forall n | n in w.c.rob :: cause - 1 < n
  {
    NoSurvivors(w.c.rob, cause - 1);
  }

  /** What a cycle of squashes leaves is exactly what nobody asked to remove, unless a trap is pending. */
  lemma CycleIsExact(w: World, iew: Option<Request>)
    requires Inv(w)
    ensures var v := Cycle(w.c, iew);
            && (!v.status.TrapPending? ==>
                  forall n :: n in v.rob <==>
                    && n in w.c.rob && !w.c.trapSquash && !w.c.tcSquash
                    && (iew.Some? ==> n < iew.value.seqNum || (n == iew.value.seqNum && iew.value.cause.BranchMispredict?))
                    && if w.c.status.SquashAfterPending? then w.c.staleSquashAfter else w.c.exitCause.None?)
            && (v.status.TrapPending? ==> v.rob == w.c.rob)
            && !v.trapSquash && (v.tcSquash <==> w.c.tcSquash && w.c.trapSquash)
            && v.exitCause == if w.c.trapSquash || w.c.tcSquash || w.c.status.SquashAfterPending? then w.c.exitCause else None
  {
    var d, v := LocalSquash(w.c), Cycle(w.c, iew);
    if SquashesLocally(w.c) {
      LocalSquashEmpties(w);
    } else {
      assert d.rob == w.c.rob && d.youngest == w.c.youngest;
      assert forall n | n in w.c.rob :: n <= w.c.youngest;
      if iew.Some? && !d.status.TrapPending? && !Accepts(d, iew.value) {
        FilterDropsNothing(d, iew.value);
      }
    }
  }

  lemma NothingAskedIsLeft(w: World)
    requires Inv(w) && !w.c.status.TrapPending?
    ensures forall n | n in w.c.rob :: n !in w.asked
  {
  }
}
