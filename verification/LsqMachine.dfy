/** The load/store queue as the pipeline drives it: one object, every event, the invariant of `LsqWorld` throughout. */
module LsqMachine {
  import opened Prelude
  import opened Memory
  import opened LsqState
  import opened LsqWorld
  import opened LsqSteps
  import opened LsqRetire
  import opened LsqTheorems
  import opened LsqUnit

  /** What the methods of the unit expect of the queues. */
  lemma UnitNeeds(w: World)
    requires Inv(w)
    ensures QueueInv(w.q) && WbPrefix(w.q) && Shaped(w.q) && StallIsOldest(w.q) && Ascending(w.q) && Divided(w.q, w.done)
    ensures forall j | w.q.LoadAt(j) :: w.q.storeWBIt <= w.q.Ld(j).sqIt <= w.q.SqEnd()
    ensures forall i | w.q.StoreAt(i) :: w.q.St(i).lqIt <= w.q.LqEnd()
  {
    CoreHasPrefix(w);
    QueueInvHasOrder(w.q);
    StagedIsDivided(w);
    hide Core, Order, StoreSide, InBounds, RequestsFit, Staged, Drained, LoadsCorrect, InFlightClear, Covered;
  }

  predicate LoadEvent(e: Event)
  {
    e.AddLoad? || e.StartLoad? || e.RunLoad? || e.Serve? || e.SkipLoad?
  }

  predicate StoreEvent(e: Event)
  {
    e.AddStore? || e.StartStore? || e.RunStore?
  }

  predicate MoveEvent(e: Event)
  {
    e.CommitUpTo? || e.SquashAbove? || e.Writeback? || e.Response?
  }

  /** What each event asks of the unit, and what it makes of the queues. */
  lemma LoadEventMeans(w: World, e: Event)
    requires Inv(w) && Guard(w, e) && LoadEvent(e)
    ensures var q := Next(w, e).q;
            match e
            case AddLoad(seqNum) => Newest(w.q, seqNum) && q == LsqState.InsertLoad(w.q, seqNum, w.runahead)
            case StartLoad(j) => w.q.LoadAt(j) && q == TouchLoad(w.q, j)
            case RunLoad(j, addr, size, accept) =>
              w.q.LoadAt(j) && w.q.sqHead <= w.q.storeWBIt <= w.q.Ld(j).sqIt <= w.q.SqEnd()
              && q == ExecLoad(w.q, j, addr, size, accept)
            case Serve(j, reply) => w.q.LoadAt(j) && w.q.Ld(j).outcome.Sent? && q == ServeLoad(w.q, j, reply)
            case SkipLoad(j) => w.q.LoadAt(j) && q == NullLoad(w.q, j)
            case _ => true
  {
    CoreHasPrefix(w);
    hide Inv, QueueInv, InBounds, Drained, LoadsCorrect, Staged, ExecLoad, TouchLoad, ServeLoad, NullLoad, LsqState.InsertLoad;
  }

  lemma StoreEventMeans(w: World, e: Event)
    requires Inv(w) && Guard(w, e) && StoreEvent(e)
    ensures var q := Next(w, e).q;
            match e
            case AddStore(seqNum) => Newest(w.q, seqNum) && q == LsqState.InsertStore(w.q, seqNum, w.runahead)
            case StartStore(i) => w.q.StoreAt(i) && q == TouchStore(w.q, i)
            case RunStore(i, addr, data) =>
              w.q.StoreAt(i) && data != [] && w.q.St(i).lqIt <= w.q.LqEnd() && q == ExecStore(w.q, i, addr, data)
            case _ => true
  {
    CoreHasPrefix(w);
    hide Inv, QueueInv, WbPrefix, InBounds, Drained, LoadsCorrect, Staged, ExecStore, TouchStore, LsqState.InsertStore;
  }

  lemma MoveEventMeans(w: World, e: Event)
    requires Inv(w) && Guard(w, e) && MoveEvent(e)
    ensures var q := Next(w, e).q;
            match e
            case CommitUpTo(n) => q == LsqState.Commit(w.q, n)
            case SquashAbove(n) => q == LsqState.Squash(w.q, n)
            case Writeback(accept) => q == WbStep(w.q, accept)
            case Response(i) => MayComplete(w.q, i) && (i != w.q.sqHead ==> !w.q.sq[0].completed) && q == Complete(w.q, i)
            case _ => true
  {
    CoreHasPrefix(w);
    HeadIsOpen(w.q);
    if e.Response? {
      CompleteReady(w, e.i);
    }
    hide Inv, QueueInv, InBounds, WbPrefix, Drained, LoadsCorrect, Staged, LsqState.Commit, LsqState.Squash, WbStep, Complete,
         Between, Leaving, Taken, MayComplete;
  }

  lemma SteerEventMeans(w: World, e: Event)
    requires Inv(w) && Guard(w, e) && !LoadEvent(e) && !StoreEvent(e) && !MoveEvent(e)
    ensures var v := Next(w, e);
            match e
            case TakeViolator => v.q == w.q.(violator := None) && v.runahead == w.runahead && v.rob == w.rob
            case Retire(n) => v.q == w.q && v.runahead == w.runahead && v.rob == n
            case EnterRunahead(_) => v.q == MarkRunahead(w.q, w.rob) && v.runahead && v.rob == w.rob
            case ExitRunahead(n) => v.q == LsqState.Squash(w.q, n) && !v.runahead && v.rob == w.rob
            case _ => v.q == w.q && v.runahead == w.runahead && v.rob == w.rob
  {
    hide Inv, MarkRunahead, LsqState.Squash;
  }

  lemma CompleteReady(w: World, i: nat)
    requires Inv(w) && Guard(w, Response(i))
    ensures MayComplete(w.q, i)
  {
    CoreHasPrefix(w);
    hide Inv, MayComplete, WbPrefix;
    ResponseReady(w.q, i);
  }

  /** The queue of the one thread, with the mode and the age of the last instruction that left the reorder buffer. */
  class LSQ {
    const unit: LSQUnit
    var inRunahead: bool
    var lastRetired: nat
    ghost var world: World

    ghost predicate Valid()
      reads this, unit
    {
      Inv(world) && world.q == unit.View() && world.runahead == inRunahead && world.rob == lastRetired
    }

    constructor (cfg: Config, memory: Contents)
      ensures Valid() && fresh(unit) && world == Start(cfg, memory)
    {
      StartIsValid(cfg, memory);
      unit := new LSQUnit(cfg, memory);
      inRunahead, lastRetired, world := false, 0, Start(cfg, memory);
    }

    /** Loads are added, executed and served. */
    method ExecuteLoads(e: Event)
      requires Valid() && Guard(world, e) && LoadEvent(e)
      modifies unit
      ensures unit.View() == Next(world, e).q
    {
      hide Inv, Guard, Next, QueueInv, WbPrefix, Shaped, StallIsOldest, Ascending, Divided, ExecLoad, TouchLoad, ServeLoad,
           NullLoad, LsqState.InsertLoad, SearchesAllUnsent, Newest;
      UnitNeeds(world);
      LoadEventMeans(world, e);
      match e {
        case AddLoad(seqNum) => unit.InsertLoad(seqNum, inRunahead);
        case StartLoad(j) => unit.PushLoadRequest(j);
        case RunLoad(j, addr, size, accept) => unit.Read(j, addr, size, accept);
        case Serve(j, reply) => unit.CompleteDataAccess(j, reply);
        case SkipLoad(j) => unit.CompleteWithoutAccess(j);
      }
    }

    /** Stores are added and executed. */
    method ExecuteStores(e: Event)
      requires Valid() && Guard(world, e) && StoreEvent(e)
      modifies unit
      ensures unit.View() == Next(world, e).q
    {
      hide Inv, Guard, Next, QueueInv, WbPrefix, Shaped, StallIsOldest, Ascending, Divided, ExecStore, TouchStore,
           LsqState.InsertStore, AccusesNobody, Newest;
      UnitNeeds(world);
      StoreEventMeans(world, e);
      match e {
        case AddStore(seqNum) => unit.InsertStore(seqNum, inRunahead);
        case StartStore(i) => unit.PushStoreRequest(i);
        case RunStore(i, addr, data) =>
          var fault := unit.ExecuteStore(i, addr, data);
      }
    }

    /** Stores leave for memory and complete; commit and squash move the ends of the queues. */
    method MoveStores(e: Event)
      requires Valid() && Guard(world, e) && MoveEvent(e)
      modifies unit
      ensures unit.View() == Next(world, e).q
    {
      hide Inv, Guard, Next, QueueInv, WbPrefix, Shaped, StallIsOldest, Ascending, Divided, LsqState.Commit, LsqState.Squash,
           WbStep, Complete, MayComplete;
      UnitNeeds(world);
      MoveEventMeans(world, e);
      match e {
        case CommitUpTo(n) => unit.CommitUpTo(n);
        case SquashAbove(n) => unit.Squash(n);
        case Writeback(accept) => unit.TryWriteback(accept, world.done);
        case Response(i) => unit.CompleteStore(i);
      }
    }

    /** Violations, redirects, retirement and the mode. */
    method Steer(e: Event)
      requires Valid() && Guard(world, e) && !LoadEvent(e) && !StoreEvent(e) && !MoveEvent(e)
      modifies unit, `inRunahead, `lastRetired
      ensures unit.View() == Next(world, e).q && inRunahead == Next(world, e).runahead && lastRetired == Next(world, e).rob
    {
      hide Inv, Guard, Next, QueueInv, WbPrefix, Shaped, StallIsOldest, Ascending, Divided, MarkRunahead, LsqState.Squash;
      UnitNeeds(world);
      SteerEventMeans(world, e);
      match e {
        case TakeViolator =>
          var violator := unit.GetMemDepViolator();
        case Redirect(_) =>
        case Report(_) =>
        case Retire(n) => lastRetired := n;
        case EnterRunahead(_) =>
          unit.SetRunahead(lastRetired);
          inRunahead := true;
        case ExitRunahead(n) =>
          unit.Squash(n);
          inRunahead := false;
      }
    }

    /** Whatever the queues are told to do, the object stays in step with the model, and so valid. */
    method Handle(e: Event)
      requires Valid() && Guard(world, e)
      modifies this, unit
      ensures Valid() && world == Next(old(world), e)
    {
      hide Inv, Guard, Next;
      ghost var after := Next(world, e);
      StepKeepsInv(world, e);
      StepFrame(world, e);
      if LoadEvent(e) {
        ExecuteLoads(e);
      } else if StoreEvent(e) {
        ExecuteStores(e);
      } else if MoveEvent(e) {
        MoveStores(e);
      } else {
        Steer(e);
      }
      world := after;
    }

    /** A whole run. */
    method Run(es: seq<Event>)
      requires Valid() && Enabled(world, es)
      modifies this, unit
      ensures Valid() && world == After(old(world), es)
    {
      hide Inv, Guard, Next;
      ghost var start := world;
      for k := 0 to |es|
        invariant Valid() && Enabled(world, es[k..]) && After(world, es[k..]) == After(start, es)
      {
        assert es[k..][0] == es[k] && es[k..][1..] == es[k + 1..];
        Handle(es[k]);
      }
    }
  }

  lemma HeadIsOpen(q: Lsq)
    requires WbPrefix(q)
    ensures q.sq != [] ==> !q.sq[0].completed
  {
  }

  /** Only a few events change the mode or what has retired. */
  lemma StepFrame(w: World, e: Event)
    requires Inv(w) && Guard(w, e)
    ensures LoadEvent(e) || StoreEvent(e) || MoveEvent(e) ==>
              Next(w, e).runahead == w.runahead && Next(w, e).rob == w.rob
  {
    hide Inv;
  }
}
