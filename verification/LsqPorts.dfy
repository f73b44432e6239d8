/** What the write-back loop does when the D-cache ports of a cycle run out: it skips the store, which is then lost. */
module LsqPorts {
  import opened Prelude
  import opened Memory
  import opened Coverage
  import opened LsqState
  import opened LsqWorld
  import opened LsqSteps
  import opened LsqRetire
  import opened LsqRefine
  import opened LsqRuns
  import opened LsqTheorems

  /** The loop moves past a ready normal store without sending it. */
  predicate Skips(q: Lsq, port: bool)
  {
    WbReady(q) && !port && !q.St(q.storeWBIt).runahead
  }

  function Skip(q: Lsq): Lsq
  {
    q.(storeWBIt := q.storeWBIt + 1)
  }

  /** One attempt, with or without a free store port; without one the D-cache gets nothing. */
  function WbTry(q: Lsq, accept: bool, port: bool): Lsq
  {
    if Skips(q, port) then Skip(q) else WbStep(q, accept && port)
  }

  function TakenIn(q: Lsq, accept: bool, port: bool): seq<Store>
    requires WbPrefix(q) && BlockedIsReady(q)
  {
    if Skips(q, port) then [] else Taken(q, accept && port)
  }

  // ---- A skip, and only a skip, breaks the queue ------------------------------------------------

  lemma OldestIsPrior(q: Lsq, n: nat)
    requires WbPrefix(q) && q.StoreAt(q.storeWBIt) && Keep(q.St(q.storeWBIt), n)
    ensures |Older(q.Unsent(), n)| == |Older(q.Unsent()[1..], n)| + 1
  {
    OlderFirst(q.Unsent(), n);
  }

  lemma ReadyIsOld(q: Lsq, done: nat)
    requires WbPrefix(q) && Divided(q, done) && WbReady(q)
    ensures q.St(q.storeWBIt).seqNum <= done && q.Unsent() != [] && q.Unsent()[0] == q.St(q.storeWBIt)
    ensures WbPrefix(Skip(q)) ==> Skip(q).Unsent() == q.Unsent()[1..]
  {
    assert q.sq[q.storeWBIt - q.sqHead] == q.St(q.storeWBIt);
  }

  /** A store without data would have to be completed. */
  lemma SkipLeavesEmpty(q: Lsq)
    requires WbPrefix(q) && WbReady(q) && q.St(q.storeWBIt).data == []
    ensures !WbPrefix(Skip(q))
  {
    assert q.sq[q.storeWBIt - q.sqHead] == q.St(q.storeWBIt);
  }

  /** A store with data is neither sent nor queued any more. */
  lemma SkipLosesData(w: World)
    requires WbPrefix(w.q) && Drained(w) && Skips(w.q, false) && w.q.St(w.q.storeWBIt).data != []
    requires w.q.St(w.q.storeWBIt).seqNum <= w.done && w.q.Unsent() != [] && w.q.Unsent()[0] == w.q.St(w.q.storeWBIt)
    requires WbPrefix(Skip(w.q)) && Skip(w.q).Unsent() == w.q.Unsent()[1..]
    ensures !Drained(w.(q := Skip(w.q)))
  {
    hide WbPrefix, Older, Fold;
    OldestIsPrior(w.q, w.done + 1);
    assert |Prior(w.(q := Skip(w.q)), w.done + 1)| + 1 == |Prior(w, w.done + 1)|;
  }

  lemma SkipBreaks(w: World)
    requires WbPrefix(w.q) && Drained(w) && Divided(w.q, w.done) && Skips(w.q, false)
    ensures var v := w.(q := Skip(w.q)); !WbPrefix(v.q) || !Drained(v)
  {
    hide WbPrefix, Drained, Divided, Skip;
    ReadyIsOld(w.q, w.done);
    if w.q.St(w.q.storeWBIt).data == [] {
      SkipLeavesEmpty(w.q);
    } else if WbPrefix(Skip(w.q)) {
      SkipLosesData(w);
    }
  }

  lemma CoreNeeds(w: World)
    requires !WbPrefix(w.q) || !Drained(w)
    ensures !Core(w)
  {
    hide Order, LoadSide, BlockedIsReady, Counted, RequestsFit, WbPrefix, Drained, LoadsCorrect, Staged, LogCorrect;
  }

  lemma SkipLoses(w: World)
    requires Core(w) && Skips(w.q, false)
    ensures !Core(w.(q := Skip(w.q)))
  {
    CoreHasPrefix(w);
    StagedIsDivided(w);
    hide Core, QueueInv, WbPrefix, Drained, LoadsCorrect, Staged, Divided, Skip, Skips;
    SkipBreaks(w);
    CoreNeeds(w.(q := Skip(w.q)));
  }

  /** An attempt keeps the queue in step with memory if and only if it does not find a store ready with no port free. */
  lemma TryKeepsCoreIff(w: World, accept: bool, port: bool)
    requires Inv(w)
    ensures WbPrefix(w.q) && BlockedIsReady(w.q)
    ensures Core(w.(q := WbTry(w.q, accept, port), sent := w.sent + TakenIn(w.q, accept, port))) <==> !Skips(w.q, port)
  {
    CoreHasPrefix(w);
    CoreHasBlocked(w);
    hide Core, QueueInv, WbPrefix, BlockedIsReady, LoadsCorrect, Staged, Drained, InFlightClear, Covered, WbStep, Taken, Skip;
    if Skips(w.q, port) {
      SkipLoses(w);
      assert w.sent + [] == w.sent;
    } else {
      WritebackKeepsCore(w, accept && port);
    }
  }

  /** With a port free, an attempt is a step of the machine. */
  lemma TryIsStep(q: Lsq, accept: bool, port: bool)
    requires !Skips(q, port)
    ensures WbTry(q, accept, port) == WbStep(q, accept && port)
  {
  }

  // ---- How many ports are enough ----------------------------------------------------------------

  /** The committed normal stores at the front of the unsent ones. */
  function NormalReady(u: seq<SQEntry>): nat
  {
    if u == [] || !u[0].canWB then 0 else NormalReady(u[1..]) + if u[0].runahead then 0 else 1
  }

  function NormalWaiting(q: Lsq): nat
  {
    if q.sqHead <= q.storeWBIt <= q.SqEnd() then NormalReady(q.Unsent()) else 0
  }

  lemma SentWasReady(q: Lsq, r: Lsq, taken: seq<Store>)
    requires WbPrefix(q) && WbPrefix(r) && q.sqHead <= r.sqHead
    requires (NothingGone(q, r) && taken == []) || (OldestGone(q, r) && taken == LsqRuns.Visible(q.St(q.storeWBIt)))
    ensures NormalReady(r.Unsent()) + |taken| <= NormalReady(q.Unsent())
  {
    if !(NothingGone(q, r) && taken == []) {
      assert q.Unsent()[0] == q.St(q.storeWBIt);
    }
    hide WbPrefix, LoadsAlike, Fold;
  }

  /** What the D-cache takes in a step comes out of the ready stores. */
  lemma StepUsesReady(q: Lsq, done: nat, accept: bool)
    requires QueueInv(q) && Divided(q, done)
    ensures WbPrefix(q) && BlockedIsReady(q) && WbPrefix(WbStep(q, accept))
    ensures NormalReady(WbStep(q, accept).Unsent()) + |Taken(q, accept)| <= NormalReady(q.Unsent())
    ensures |Taken(q, accept)| <= 1
  {
    StepPrefixes(q, done, accept);
    hide QueueInv, WbPrefix, BlockedIsReady, Divided, WbStep, OldestGone, NothingGone, LsqRuns.Visible, NormalReady;
    WbStepKeeps(q, done, accept);
    WbStepCases(q, done, accept);
    if NothingGone(q, WbStep(q, accept)) && Taken(q, accept) == [] {
      HeadStays(q, done, accept);
    }
    SentWasReady(q, WbStep(q, accept), Taken(q, accept));
  }

  /** A turn of the write-back loop: what the D-cache takes is one store fewer waiting. */
  lemma TurnUses(q: Lsq, done: nat, accept: bool)
    requires QueueInv(q) && Divided(q, done) && WbReady(q) && !q.storeBlocked
    ensures NormalWaiting(WbStep(q, accept)) + (if accept && q.St(q.storeWBIt).data != [] && !ToRCache(q.St(q.storeWBIt)) then 1 else 0)
            <= NormalWaiting(q)
  {
    StepUsesReady(q, done, accept);
    hide QueueInv, Divided, WbStep, NormalReady, LoadSide, Order;
  }

  /** So is a turn that retries the blocked store. */
  lemma RetryUses(q: Lsq, done: nat, accept: bool)
    requires QueueInv(q) && Divided(q, done) && q.storeBlocked
    ensures NormalWaiting(WbStep(q, accept)) + (if accept then 1 else 0) <= NormalWaiting(q)
  {
    StepUsesReady(q, done, accept);
    RouteIsFlag(q, q.storeWBIt);
    hide Divided, WbStep, NormalReady, LoadSide, Order, Counted;
  }

  lemma SkipNeedsWaiting(q: Lsq)
    requires QueueInv(q) && Skips(q, false)
    ensures NormalWaiting(q) > 0
  {
    assert q.Unsent()[0] == q.St(q.storeWBIt);
    hide Order, LoadSide, BlockedIsReady, Counted, RequestsFit;
  }

  lemma StepPrefixes(q: Lsq, done: nat, accept: bool)
    requires QueueInv(q) && Divided(q, done)
    ensures WbPrefix(q) && BlockedIsReady(q) && WbPrefix(WbStep(q, accept)) && |Taken(q, accept)| <= 1
  {
    WbStepKeeps(q, done, accept);
    hide Order, LoadSide, Counted, RequestsFit, WbStep, Divided;
  }

  lemma HeadStays(q: Lsq, done: nat, accept: bool)
    requires QueueInv(q) && Divided(q, done)
    ensures q.sqHead <= WbStep(q, accept).sqHead
  {
    hide Order, LoadSide, Counted, RequestsFit, Divided, PostSend, Complete, MayComplete;
    if q.StoreAt(q.storeWBIt) {
      PostSendHead(q);
      if !q.storeBlocked && WbReady(q) && q.St(q.storeWBIt).data == [] {
        SkipEmptyReady(q, done);
        CompleteLeaves(q.(storeWBIt := q.storeWBIt + 1), q.storeWBIt);
      }
    }
  }

  // ---- What becomes of a skipped store ----------------------------------------------------------

  const PLAIN_CONFIG := Config(0, false)

  /** One committed store of byte 1 to address 0, not sent yet. */
  const COMMITTED :=
    Lsq(PLAIN_CONFIG, 0, [], 0, [SQEntry(1, 0, false, 0, [1], true, false, Some(false))], 0, 1, None, None, false, false,
        map[], [])

  lemma CommittedIsReached()
    ensures var q0 := Lsq(PLAIN_CONFIG, 0, [], 0, [], 0, 0, None, None, false, false, map[], []);
            var q1 := InsertStore(q0, 1, false);
            q1.StoreAt(0) && q1.St(0).lqIt <= q1.LqEnd() && LsqState.Commit(ExecStore(q1, 0, 0, [1]), 1) == COMMITTED
  {
    var q0 := Lsq(PLAIN_CONFIG, 0, [], 0, [], 0, 0, None, None, false, false, map[], []);
    var q2 := ExecStore(InsertStore(q0, 1, false), 0, 0, [1]);
    assert q2.sq[..0] == [] && CountNew([], 1) == 0;
    assert CountNew(q2.sq, 1) == 1;
    assert MarkStores(q2.sq, 1) == COMMITTED.sq;
  }

  const SKIPPED := COMMITTED.(storeWBIt := 1)

  lemma CommittedIsSkipped(accept: bool)
    ensures Skips(COMMITTED, false) && WbTry(COMMITTED, accept, false) == SKIPPED && !WbReady(SKIPPED)
  {
  }

  const LATER_LOAD := LQEntry(2, 1, false, false, 0, 0, Pending, None)

  const WITH_LOAD := SKIPPED.(lq := [LATER_LOAD])

  const LOAD_SENT := SKIPPED.(lq := [LQEntry(2, 1, false, true, 0, 1, Sent, Some(false))])

  lemma LaterLoadMisses()
    ensures InsertLoad(SKIPPED, 2, false) == WITH_LOAD && ExecLoad(WITH_LOAD, 0, 0, 1, true) == LOAD_SENT
  {
    assert Window(WITH_LOAD, 1) == [];
    assert Scan([], false, 0, 1) == Miss;
  }

  lemma OldAndNewByte()
    ensures ReadBytes(map[], 0, 1) == [0] && ReadBytes(Fold(map[], [Store(1, 0, [1])]), 0, 1) == [1]
  {
    var s := Store(1, 0, [1]);
    assert [s][..0] == [] && Fold(map[], [s]) == Put(map[], s);
    LookupPut(map[], s, 0);
    hide Put, Fold;
    assert ReadBytes(map[], 0, 1)[0] == Lookup(map[], 0) && ReadBytes(Put(map[], s), 0, 1)[0] == Lookup(Put(map[], s), 0);
  }

  /**
   * A store ready with no port free: the loop moves on, the D-cache never gets the byte, and a younger load of it finds
   * nothing in the store queue and is served the old one.
   */
  lemma SkippedStoreIsLost(accept: bool)
    ensures WbTry(COMMITTED, accept, false) == SKIPPED && SKIPPED.dcache == map[] && !WbReady(SKIPPED)
    ensures InsertLoad(SKIPPED, 2, false) == WITH_LOAD && ExecLoad(WITH_LOAD, 0, 0, 1, true) == LOAD_SENT
    ensures ServeLoad(LOAD_SENT, 0, []).Ld(0).outcome == Value([0])
    ensures ReadBytes(Fold(map[], [Store(1, 0, [1])]), 0, 1) == [1]
  {
    hide WbTry, WbReady, ExecLoad, ReadBytes, Fold;
    CommittedIsSkipped(accept);
    LaterLoadMisses();
    OldAndNewByte();
  }
}
