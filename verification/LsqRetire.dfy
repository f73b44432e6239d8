/** Commit, squash, write-back and runahead entry keep the shape of the queues. */
module LsqRetire {
  import opened Prelude
  import opened Memory
  import opened LsqState
  import opened LsqWorld
  import opened LsqProof
  import opened LsqSteps

  // ---- Commit -----------------------------------------------------------------------------------

  lemma CommitOrder(q: Lsq, n: nat)
    requires Order(q)
    ensures Order(Commit(q, n))
  {
    hide Order, DropLoads, CountNew;
    SameKeysOrder(q, Commit(q, n));
  }

  lemma CommitStores(q: Lsq, n: nat)
    requires StoreSide(q)
    ensures StoreSide(Commit(q, n))
  {
    hide DropLoads;
    CountOpenMarked(q.sq, n);
  }

  lemma CommitRest(q: Lsq, n: nat)
    requires InBounds(q) && Shaped(q)
    ensures InBounds(Commit(q, n)) && Shaped(Commit(q, n))
  {
    hide DropLoads, CountNew;
  }

  lemma CommitViolator(q: Lsq, n: nat)
    requires ViolatorQueued(q) && (q.violator.Some? ==> n < q.violator.value)
    ensures ViolatorQueued(Commit(q, n))
  {
    hide DropLoads, CountNew, MarkStores;
    if q.violator.Some? {
      var kept := DropLoads(q.lq, n);
      var k :| 0 <= k < |q.lq| && q.lq[k].seqNum == q.violator.value;
      assert kept[k - (|q.lq| - |kept|)].seqNum == q.violator.value;
    }
  }

  lemma CommitStall(q: Lsq, n: nat)
    requires StallIsOldest(q)
    requires forall j | 0 <= j < |q.lq| && q.lq[j].seqNum <= n :: !q.lq[j].outcome.Rescheduled?
    ensures StallIsOldest(Commit(q, n))
  {
    hide DropLoads, CountNew;
    var r := Commit(q, n);
    if q.stall.Some? {
      WaitingStays(q, r, q.stall.value.storeSeq);
    }
    StallStays(q, r);
  }

  lemma CommitRequests(q: Lsq, n: nat)
    requires RequestsFit(q)
    ensures RequestsFit(Commit(q, n))
  {
    hide DropLoads, CountNew, LoadRequestsFit, StoreRequestsFit;
    LoadRequestsFrom(q.lq, Commit(q, n).lq, |q.lq| - |Commit(q, n).lq|);
    StoreRequestsFrom(q.sq, Commit(q, n).sq, 0);
  }

  lemma CommitKeeps(q: Lsq, n: nat)
    requires QueueInv(q) && (q.violator.Some? ==> n < q.violator.value)
    requires forall j | 0 <= j < |q.lq| && q.lq[j].seqNum <= n :: !q.lq[j].outcome.Rescheduled?
    ensures QueueInv(Commit(q, n))
  {
    hide Order, StoreSide, InBounds, Shaped, ViolatorQueued, StallIsOldest, RequestsFit, Commit;
    CommitRequests(q, n);
    CommitOrder(q, n);
    CommitStores(q, n);
    CommitRest(q, n);
    CommitViolator(q, n);
    CommitStall(q, n);
  }

  // ---- Squash -----------------------------------------------------------------------------------

  /** Exactly the loads younger than `n` leave. */
  lemma SquashLoadsExact(q: Lsq, n: nat)
    requires Ascending(q)
    ensures var r := Squash(q, n);
            && |r.lq| <= |q.lq|
            && (forall j | 0 <= j < |r.lq| :: r.lq[j] == q.lq[j] && r.lq[j].seqNum <= n)
            && (forall j | |r.lq| <= j < |q.lq| :: q.lq[j].seqNum > n)
  {
    hide CutLoads, CutStores;
  }

  /** Exactly the uncommitted stores younger than `n` leave. */
  lemma SquashStoresExact(q: Lsq, n: nat, done: nat)
    requires Ascending(q) && Divided(q, done)
    ensures var r := Squash(q, n);
            && |r.sq| <= |q.sq|
            && (forall i | 0 <= i < |r.sq| :: r.sq[i] == q.sq[i] && (r.sq[i].seqNum <= n || r.sq[i].canWB))
            && (forall i | |r.sq| <= i < |q.sq| :: q.sq[i].seqNum > n && !q.sq[i].canWB)
  {
    hide CutLoads, CutStores;
  }

  lemma SquashOrder(q: Lsq, n: nat)
    requires Order(q)
    ensures Order(Squash(q, n))
  {
    SquashKeys(q, n);
    hide Order, Squash, SameKeys;
    SameKeysOrder(q, Squash(q, n));
  }

  lemma SquashKeys(q: Lsq, n: nat)
    ensures SameKeys(q, Squash(q, n))
  {
    hide CutLoads, CutStores, SameKeys;
    KeysInPlace(q, Squash(q, n));
  }

  lemma SquashCount(q: Lsq, n: nat)
    requires Counted(q)
    ensures Counted(Squash(q, n))
  {
    hide CutLoads, CutStores;
    var kept := CutStores(q.sq, n);
    assert q.sq == kept + q.sq[|kept|..];
    CountOpenConcat(kept, q.sq[|kept|..]);
    CountOpenNone(q.sq[|kept|..]);
  }

  lemma SquashStores(q: Lsq, n: nat)
    requires StoreSide(q)
    ensures StoreSide(Squash(q, n))
  {
    SquashCount(q, n);
    hide CutLoads, CutStores, Counted;
    assert |q.sq| > |CutStores(q.sq, n)| ==> !q.sq[|CutStores(q.sq, n)|].canWB;
  }

  /** A load that stays was inserted no later than the first store that goes. */
  lemma SquashLoadBounds(q: Lsq, n: nat, done: nat)
    requires Order(q) && InBounds(q) && Divided(q, done)
    ensures var r := Squash(q, n); forall j | 0 <= j < |r.lq| :: r.lq[j] == q.lq[j] && r.lq[j].sqIt <= r.SqEnd()
  {
    var r := Squash(q, n);
    SquashLoadsExact(q, n);
    SquashStoresExact(q, n, done);
    SquashFrame(q, n);
    hide Squash, Ascending, Divided;
    forall j | 0 <= j < |r.lq| ensures r.lq[j] == q.lq[j] && r.lq[j].sqIt <= r.SqEnd() {
      assert |r.sq| < |q.sq| ==>
          (q.sqHead + |r.sq| < q.lq[j].sqIt <==> q.sq[|r.sq|].seqNum < q.lq[j].seqNum);
    }
  }

  lemma SquashStoreBounds(q: Lsq, n: nat, done: nat)
    requires Order(q) && InBounds(q) && Divided(q, done)
    ensures var r := Squash(q, n); forall i | 0 <= i < |r.sq| :: r.sq[i].lqIt <= r.LqEnd()
  {
    var r := Squash(q, n);
    SquashLoadsExact(q, n);
    SquashStoresExact(q, n, done);
    SquashFrame(q, n);
    hide Squash, Ascending;
    forall i | 0 <= i < |r.sq| ensures r.sq[i].lqIt <= r.LqEnd() {
      assert |r.lq| < |q.lq| ==>
          (q.sq[i].lqIt <= q.lqHead + |r.lq| <==> q.sq[i].seqNum < q.lq[|r.lq|].seqNum);
    }
  }

  lemma SquashBounds(q: Lsq, n: nat, done: nat)
    requires Order(q) && InBounds(q) && Divided(q, done)
    ensures InBounds(Squash(q, n))
  {
    SquashLoadBounds(q, n, done);
    SquashStoreBounds(q, n, done);
    SquashFrame(q, n);
    hide Order, Divided, Squash;
    assert forall j | 0 <= j < |Squash(q, n).lq| :: q.storeWBIt <= q.lq[j].sqIt;
  }

  lemma SquashFrame(q: Lsq, n: nat)
    ensures var r := Squash(q, n); r.lqHead == q.lqHead && r.sqHead == q.sqHead && r.storeWBIt == q.storeWBIt
  {
  }

  lemma SquashRest(q: Lsq, n: nat)
    requires Ascending(q) && Shaped(q) && ViolatorQueued(q)
    ensures Shaped(Squash(q, n)) && ViolatorQueued(Squash(q, n))
  {
    hide CutLoads, CutStores;
    var r := Squash(q, n);
    SquashLoadsExact(q, n);
    if r.violator.Some? {
      QueuedStays(q.lq, r.lq, q.violator.value);
    }
  }

  lemma SquashWaiting(q: Lsq, n: nat, done: nat, seqNum: nat)
    requires Ascending(q) && Divided(q, done) && q.sqHead <= q.storeWBIt && seqNum <= n && Waiting(q, seqNum)
    ensures Waiting(Squash(q, n), seqNum)
  {
    var r := Squash(q, n);
    SquashStoresExact(q, n, done);
    assert r.sqHead == q.sqHead && r.storeWBIt == q.storeWBIt;
    hide Squash, Ascending, Divided;
    var s :| q.sqHead <= s < q.SqEnd() && q.storeWBIt <= s && q.St(s).seqNum == seqNum && q.St(s).data != [];
    assert r.sq[s - q.sqHead] == q.sq[s - q.sqHead];
    assert r.St(s).seqNum == seqNum;
  }

  lemma SquashLifts(q: Lsq, n: nat)
    requires Ascending(q) && StallIsOldest(q) && Squash(q, n).stall.None?
    ensures StallIsOldest(Squash(q, n))
  {
    SquashLoadsExact(q, n);
    SquashFrame(q, n);
    hide CutLoads, CutStores, Ascending, Waiting;
    var r := Squash(q, n);
    assert q.stall.Some? ==> q.Ld(q.stall.value.loadIdx).seqNum > n;
    hide Squash;
    forall j | 0 <= j < |r.lq| ensures !r.lq[j].outcome.Rescheduled? {
      assert r.lq[j] == q.lq[j] && q.lq[j].seqNum <= n;
    }
  }

  /** A stall that is not lifted belongs to a load that stays. */
  lemma StallSurvives(q: Lsq, n: nat)
    requires StallIsOldest(q) && Squash(q, n).stall.Some?
    ensures Squash(q, n).stall == q.stall && q.LoadAt(q.stall.value.loadIdx)
    ensures q.Ld(q.stall.value.loadIdx).seqNum <= n && q.stall.value.storeSeq <= n
    ensures Waiting(q, q.stall.value.storeSeq)
  {
    hide Waiting, CutLoads, CutStores;
  }

  lemma SquashKeepsStall(q: Lsq, n: nat, done: nat)
    requires Ascending(q) && StallIsOldest(q) && Divided(q, done) && q.sqHead <= q.storeWBIt
    requires Squash(q, n).stall.Some?
    ensures StallIsOldest(Squash(q, n))
  {
    hide StallIsOldest, Squash, Divided, Ascending, Waiting;
    StallSurvives(q, n);
    SquashLoadsExact(q, n);
    SquashFrame(q, n);
    SquashWaiting(q, n, done, q.stall.value.storeSeq);
    assert q.lq[q.stall.value.loadIdx - q.lqHead].seqNum <= n;
    StallStays(q, Squash(q, n));
  }

  lemma SquashStall(q: Lsq, n: nat, done: nat)
    requires Ascending(q) && StallIsOldest(q) && Divided(q, done) && WbPrefix(q)
    ensures StallIsOldest(Squash(q, n))
  {
    assert q.sqHead <= q.storeWBIt;
    hide Squash, WbPrefix, StallIsOldest, Divided, Ascending;
    if Squash(q, n).stall.Some? {
      SquashKeepsStall(q, n, done);
    } else {
      SquashLifts(q, n);
    }
  }

  lemma SquashRequests(q: Lsq, n: nat, done: nat)
    requires RequestsFit(q) && Ascending(q) && Divided(q, done)
    ensures RequestsFit(Squash(q, n))
  {
    hide Squash, Ascending, Divided, LoadRequestsFit, StoreRequestsFit;
    SquashLoadsExact(q, n);
    SquashStoresExact(q, n, done);
    LoadRequestsFrom(q.lq, Squash(q, n).lq, 0);
    StoreRequestsFrom(q.sq, Squash(q, n).sq, 0);
  }

  lemma SquashKeeps(q: Lsq, n: nat, done: nat)
    requires QueueInv(q) && Divided(q, done)
    ensures QueueInv(Squash(q, n))
  {
    hide InBounds, Shaped, ViolatorQueued, StallIsOldest, RequestsFit, Squash, Ascending, Linked, WbPrefix, BlockedIsReady,
         Counted, Divided;
    SquashRequests(q, n, done);
    SquashOrder(q, n);
    SquashStores(q, n);
    SquashBounds(q, n, done);
    SquashRest(q, n);
    SquashStall(q, n, done);
  }

  // ---- Completion -------------------------------------------------------------------------------

  /** The store may complete: it is behind the write-back position, where at most it is missing its completion. */
  predicate MayComplete(q: Lsq, i: nat)
  {
    && q.StoreAt(i) && i < q.storeWBIt <= q.SqEnd() && !q.St(i).completed
    && (forall k | 0 <= k < q.storeWBIt - q.sqHead ::
          q.sq[k].canWB && (q.sq[k].data == [] ==> q.sq[k].completed || q.sqHead + k == i))
    && (forall k | q.storeWBIt - q.sqHead <= k < |q.sq| :: !q.sq[k].completed)
  }

  function Marked(q: Lsq, i: nat): seq<SQEntry>
    requires q.StoreAt(i)
  {
    q.sq[i - q.sqHead := q.St(i).(completed := true)]
  }

  /** Completion changes one flag of one store. */
  lemma MarkedAlike(q: Lsq, i: nat)
    requires q.StoreAt(i)
    ensures var m := Marked(q, i);
            |m| == |q.sq| && forall k | 0 <= k < |m| ::
              && m[k].seqNum == q.sq[k].seqNum && m[k].canWB == q.sq[k].canWB && m[k].data == q.sq[k].data
              && m[k].runahead == q.sq[k].runahead && m[k].request == q.sq[k].request
  {
  }

  /** What is left of the store queue, entry by entry. */
  lemma CompleteLeaves(q: Lsq, i: nat)
    requires MayComplete(q, i)
    ensures var r := Complete(q, i);
            var d := r.sqHead - q.sqHead;
            && r.lq == q.lq && r.lqHead == q.lqHead && r.storeWBIt == q.storeWBIt && r.stall == q.stall
            && 0 <= d <= q.storeWBIt - q.sqHead && d + |r.sq| == |q.sq|
            && (forall k | 0 <= k < |r.sq| :: r.sq[k] == Marked(q, i)[d + k])
            && (forall k | 0 <= k < d :: Marked(q, i)[k].completed)
            && (r.sq != [] ==> !r.sq[0].completed)
  {
    hide DropCompleted;
    var m := Marked(q, i);
    assert q.storeWBIt < q.SqEnd() ==> !m[q.storeWBIt - q.sqHead].completed;
  }

  /** What is left is a suffix of the marked queue. */
  lemma CompleteSuffix(q: Lsq, i: nat)
    requires MayComplete(q, i)
    ensures var d := Complete(q, i).sqHead - q.sqHead;
            0 <= d <= |q.sq| == |Marked(q, i)| && Complete(q, i).sq == Marked(q, i)[d..]
            && q.sqHead + d <= q.storeWBIt
    ensures Complete(q, i).lq == q.lq && Complete(q, i).lqHead == q.lqHead && Complete(q, i).storeWBIt == q.storeWBIt
  {
    MarkedAlike(q, i);
    hide Complete, MayComplete, Marked;
    CompleteLeaves(q, i);
  }

  lemma CompleteOrder(q: Lsq, i: nat)
    requires Order(q) && MayComplete(q, i)
    ensures Order(Complete(q, i))
  {
    hide Order, DropCompleted;
    CompleteLeaves(q, i);
    hide Order, DropCompleted, MayComplete, Complete;
    SameKeysOrder(q, Complete(q, i));
  }

  lemma DropCompletedCount(m: seq<SQEntry>)
    ensures CountOpen(DropCompleted(m)) == CountOpen(m)
  {
    hide DropCompleted;
    var kept := DropCompleted(m);
    var d := |m| - |kept|;
    assert m == m[..d] + kept;
    CountOpenConcat(m[..d], kept);
    CountOpenNone(m[..d]);
  }

  lemma CompleteCount(q: Lsq, i: nat)
    requires MayComplete(q, i) && Counted(q)
    ensures Counted(Complete(q, i))
  {
    CountOpenUpdate(q.sq, i - q.sqHead, q.St(i).(completed := true));
    DropCompletedCount(Marked(q, i));
    hide DropCompleted, CountOpen;
  }

  lemma CompletePrefix(q: Lsq, i: nat)
    requires MayComplete(q, i) && BlockedIsReady(q)
    ensures WbPrefix(Complete(q, i)) && BlockedIsReady(Complete(q, i))
  {
    hide DropCompleted;
    CompleteLeaves(q, i);
    hide Complete;
    CompleteKeepsBlocked(q, i);
  }

  lemma CompleteKeepsBlocked(q: Lsq, i: nat)
    requires q.StoreAt(i)
    ensures Complete(q, i).storeBlocked == q.storeBlocked
  {
  }

  lemma CompleteBounds(q: Lsq, i: nat)
    requires MayComplete(q, i) && InBounds(q)
    ensures InBounds(Complete(q, i))
  {
    CompleteLeaves(q, i);
    hide Complete;
  }

  lemma CompleteWaiting(q: Lsq, i: nat, seqNum: nat)
    requires MayComplete(q, i) && Waiting(q, seqNum)
    ensures Waiting(Complete(q, i), seqNum)
  {
    assert q.StoreAt(i);
    var r, m := Complete(q, i), Marked(q, i);
    hide Complete, MayComplete, Marked;
    CompleteSuffix(q, i);
    var s :| q.sqHead <= s < q.SqEnd() && q.storeWBIt <= s && q.St(s).seqNum == seqNum && q.St(s).data != [];
    assert m[s - q.sqHead].seqNum == seqNum && m[s - q.sqHead].data != [] by {
      MarkedAlike(q, i);
    }
    assert r.St(s) == m[s - q.sqHead];
  }

  lemma CompleteStall(q: Lsq, i: nat)
    requires MayComplete(q, i) && StallIsOldest(q)
    ensures StallIsOldest(Complete(q, i))
  {
    hide Complete, MayComplete, Waiting;
    CompleteLeaves(q, i);
    if q.stall.Some? {
      CompleteWaiting(q, i, q.stall.value.storeSeq);
    }
  }

  lemma CompleteRequests(q: Lsq, i: nat)
    requires MayComplete(q, i) && RequestsFit(q)
    ensures RequestsFit(Complete(q, i))
  {
    assert q.StoreAt(i);
    hide Complete, LoadRequestsFit, StoreRequestsFit, MayComplete, Marked;
    CompleteSuffix(q, i);
    assert StoreRequestsFit(Marked(q, i)) by {
      MarkedAlike(q, i);
      StoreRequestsFrom(q.sq, Marked(q, i), 0);
    }
    StoreRequestsSuffix(Marked(q, i), Complete(q, i).sqHead - q.sqHead);
  }

  lemma StoreRequestsSuffix(sq: seq<SQEntry>, d: nat)
    requires StoreRequestsFit(sq) && d <= |sq|
    ensures StoreRequestsFit(sq[d..])
  {
  }

  predicate SplitAt(sq: seq<SQEntry>, done: nat)
  {
    forall i | 0 <= i < |sq| :: sq[i].canWB <==> sq[i].seqNum <= done
  }

  lemma SplitSuffix(sq: seq<SQEntry>, d: nat, done: nat)
    requires SplitAt(sq, done) && d <= |sq|
    ensures SplitAt(sq[d..], done)
  {
  }

  lemma CompleteDivided(q: Lsq, i: nat, done: nat)
    requires Divided(q, done) && MayComplete(q, i)
    ensures Divided(Complete(q, i), done)
  {
    assert SplitAt(Marked(q, i), done) by {
      MarkedAlike(q, i);
    }
    hide Complete, MayComplete, Marked, SplitAt;
    CompleteSuffix(q, i);
    SplitSuffix(Marked(q, i), Complete(q, i).sqHead - q.sqHead, done);
    DividedParts(q, Complete(q, i), done);
  }

  lemma DividedParts(q: Lsq, r: Lsq, done: nat)
    requires Divided(q, done) && r.lq == q.lq && SplitAt(r.sq, done)
    ensures Divided(r, done)
  {
  }

  lemma CompleteKeeps(q: Lsq, i: nat)
    requires Order(q) && MayComplete(q, i) && BlockedIsReady(q) && Counted(q) && LoadSide(q) && RequestsFit(q)
    ensures QueueInv(Complete(q, i))
  {
    CompleteRequests(q, i);
    hide RequestsFit;
    hide Order, MayComplete, BlockedIsReady, WbPrefix, Counted, InBounds, StallIsOldest, DropCompleted;
    CompleteOrder(q, i);
    CompleteCount(q, i);
    CompletePrefix(q, i);
    CompleteBounds(q, i);
    CompleteStall(q, i);
  }

  // ---- Write-back -------------------------------------------------------------------------------

  /** The store at the write-back position has committed, so it is older than every queued load. */
  lemma HeadOfWritebackIsOld(q: Lsq, done: nat)
    requires Linked(q) && InBounds(q) && Divided(q, done) && q.StoreAt(q.storeWBIt) && q.St(q.storeWBIt).canWB
    ensures forall j | 0 <= j < |q.lq| :: q.storeWBIt + 1 <= q.lq[j].sqIt
  {
    var i := q.storeWBIt - q.sqHead;
    forall j | 0 <= j < |q.lq| ensures q.storeWBIt + 1 <= q.lq[j].sqIt {
      assert q.sq[i].seqNum < q.lq[j].seqNum;
      assert q.sqHead + i < q.lq[j].sqIt;
    }
  }

  lemma PostSendKeys(q: Lsq)
    requires q.StoreAt(q.storeWBIt)
    ensures SameKeys(q, PostSend(q))
  {
    hide Put, SameKeys;
    KeysInPlace(q, PostSend(q));
  }

  lemma PostSendOrder(q: Lsq)
    requires Order(q) && q.StoreAt(q.storeWBIt)
    ensures Order(PostSend(q))
  {
    PostSendKeys(q);
    hide Order, SameKeys, PostSend;
    SameKeysOrder(q, PostSend(q));
  }

  lemma PostSendStall(q: Lsq)
    requires StallIsOldest(q) && q.StoreAt(q.storeWBIt)
    ensures StallIsOldest(PostSend(q))
  {
    var r := PostSend(q);
    if r.stall.Some? {
      WaitingStays(q, r, q.stall.value.storeSeq);
      StallStays(q, r);
    }
  }

  lemma PostSendStores(q: Lsq)
    requires StoreSide(q) && q.StoreAt(q.storeWBIt) && q.St(q.storeWBIt).canWB && q.St(q.storeWBIt).data != []
    ensures StoreSide(PostSend(q))
  {
    hide CountOpen, Put, Replay;
  }

  lemma PostSendBounds(q: Lsq, done: nat)
    requires InBounds(q) && Linked(q) && Divided(q, done) && q.StoreAt(q.storeWBIt) && q.St(q.storeWBIt).canWB
    ensures InBounds(PostSend(q))
  {
    HeadOfWritebackIsOld(q, done);
    hide Linked, Divided, Put;
  }

  lemma PostSendRest(q: Lsq)
    requires Shaped(q) && ViolatorQueued(q) && q.StoreAt(q.storeWBIt)
    ensures Shaped(PostSend(q)) && ViolatorQueued(PostSend(q))
  {
    hide Put;
    if q.violator.Some? {
      QueuedStays(q.lq, PostSend(q).lq, q.violator.value);
    }
  }

  lemma PostSendRequests(q: Lsq)
    requires RequestsFit(q) && q.StoreAt(q.storeWBIt)
    ensures RequestsFit(PostSend(q))
  {
    ReplayRequests(q.lq);
    hide Put, LoadRequestsFit, StoreRequestsFit, Replay;
  }

  lemma ReplayRequests(lq: seq<LQEntry>)
    requires LoadRequestsFit(lq)
    ensures LoadRequestsFit(Replay(lq))
  {
    hide LoadRequestsFit;
    LoadRequestsFrom(lq, Replay(lq), 0);
  }

  lemma PostSendKeeps(q: Lsq, done: nat)
    requires QueueInv(q) && Divided(q, done)
    requires q.StoreAt(q.storeWBIt) && q.St(q.storeWBIt).canWB && q.St(q.storeWBIt).data != []
    ensures QueueInv(PostSend(q))
  {
    hide Ascending, Linked, InBounds, Shaped, ViolatorQueued, StallIsOldest, StoreSide, RequestsFit, Divided, PostSend;
    PostSendRequests(q);
    PostSendOrder(q);
    PostSendStall(q);
    PostSendStores(q);
    PostSendBounds(q, done);
    PostSendRest(q);
  }

  lemma SkipEmptyKeeps(q: Lsq, done: nat)
    requires QueueInv(q) && Divided(q, done)
    requires q.StoreAt(q.storeWBIt) && q.St(q.storeWBIt).canWB && q.St(q.storeWBIt).data == [] && !q.storeBlocked
    ensures QueueInv(Complete(q.(storeWBIt := q.storeWBIt + 1), q.storeWBIt))
  {
    var p := q.(storeWBIt := q.storeWBIt + 1);
    SkipEmptyReady(q, done);
    hide Ascending, Linked, LoadSide, StoreSide, RequestsFit, Divided, Complete, MayComplete, BlockedIsReady, Counted;
    CompleteKeeps(p, q.storeWBIt);
  }

  lemma SkipEmptyReady(q: Lsq, done: nat)
    requires QueueInv(q) && Divided(q, done)
    requires q.StoreAt(q.storeWBIt) && q.St(q.storeWBIt).canWB && q.St(q.storeWBIt).data == [] && !q.storeBlocked
    ensures var p := q.(storeWBIt := q.storeWBIt + 1);
            && Order(p) && MayComplete(p, q.storeWBIt) && BlockedIsReady(p) && Counted(p) && LoadSide(p)
            && RequestsFit(p)
  {
    var p := q.(storeWBIt := q.storeWBIt + 1);
    SkipEmptyLoads(q, done);
    hide LoadSide, Linked, CountOpen;
    PositionIsNotAKey(q, p);
  }

  lemma PositionIsNotAKey(q: Lsq, p: Lsq)
    requires Order(q) && p.lq == q.lq && p.sq == q.sq && p.lqHead == q.lqHead && p.sqHead == q.sqHead
    ensures Order(p)
  {
  }

  lemma SkipEmptyLoads(q: Lsq, done: nat)
    requires Linked(q) && LoadSide(q) && Divided(q, done)
    requires q.StoreAt(q.storeWBIt) && q.St(q.storeWBIt).canWB && q.St(q.storeWBIt).data == []
    ensures LoadSide(q.(storeWBIt := q.storeWBIt + 1))
  {
    HeadOfWritebackIsOld(q, done);
    hide Linked;
    if q.stall.Some? {
      WaitingStays(q, q.(storeWBIt := q.storeWBIt + 1), q.stall.value.storeSeq);
    }
  }

  lemma WbStepKeeps(q: Lsq, done: nat, accept: bool)
    requires QueueInv(q) && Divided(q, done)
    ensures QueueInv(WbStep(q, accept))
  {
    hide Ascending, Linked, LoadSide, Counted, Divided, RequestsFit, PostSend, Complete;
    if q.storeBlocked {
      if ToRCache(q.St(q.storeWBIt)) || accept {
        PostSendKeeps(q, done);
      }
    } else if WbReady(q) {
      if q.St(q.storeWBIt).data == [] {
        SkipEmptyKeeps(q, done);
      } else if ToRCache(q.St(q.storeWBIt)) || accept {
        PostSendKeeps(q, done);
      } else {
        RouteIsFlag(q, q.storeWBIt);
        BlockedKeeps(q);
      }
    }
  }

  lemma BlockedKeeps(q: Lsq)
    requires QueueInv(q) && q.StoreAt(q.storeWBIt) && q.St(q.storeWBIt).canWB && !q.St(q.storeWBIt).runahead
    requires q.St(q.storeWBIt).data != []
    ensures QueueInv(q.(storeBlocked := true))
  {
    PositionIsNotAKey(q, q.(storeBlocked := true));
    StallIgnoresFlags(q, q.(storeBlocked := true));
    hide Order, StallIsOldest;
  }

  lemma StallIgnoresFlags(q: Lsq, r: Lsq)
    requires StallIsOldest(q) && r.lq == q.lq && r.lqHead == q.lqHead && r.sq == q.sq && r.sqHead == q.sqHead
    requires r.storeWBIt == q.storeWBIt && r.stall == q.stall
    ensures StallIsOldest(r)
  {
    if q.stall.Some? {
      WaitingStays(q, r, q.stall.value.storeSeq);
    }
  }

  // ---- Runahead entry ---------------------------------------------------------------------------

  lemma MarkRunaheadOrder(q: Lsq, rob: nat)
    requires Order(q)
    ensures Order(MarkRunahead(q, rob))
  {
    hide Order;
    SameKeysOrder(q, MarkRunahead(q, rob));
  }

  lemma MarkRunaheadStores(q: Lsq, rob: nat)
    requires StoreSide(q) && forall i | 0 <= i < |q.sq| && q.sq[i].canWB :: q.sq[i].seqNum <= rob
    ensures StoreSide(MarkRunahead(q, rob))
  {
    CountOpenSame(q.sq, MarkRunahead(q, rob).sq);
  }

  lemma MarkRunaheadLoads(q: Lsq, rob: nat)
    requires LoadSide(q)
    ensures LoadSide(MarkRunahead(q, rob))
  {
    var r := MarkRunahead(q, rob);
    if q.violator.Some? {
      QueuedStays(q.lq, r.lq, q.violator.value);
    }
    if q.stall.Some? {
      WaitingStays(q, r, q.stall.value.storeSeq);
    }
  }

  /** Marking reaches the request of every instruction that has one, so the two flags still agree. */
  lemma MarkRunaheadRequests(q: Lsq, rob: nat)
    requires RequestsFit(q)
    ensures RequestsFit(MarkRunahead(q, rob))
  {
  }

  lemma MarkRunaheadKeeps(q: Lsq, rob: nat)
    requires QueueInv(q) && forall i | 0 <= i < |q.sq| && q.sq[i].canWB :: q.sq[i].seqNum <= rob
    ensures QueueInv(MarkRunahead(q, rob))
  {
    hide Order, StoreSide, LoadSide, RequestsFit, MarkRunahead;
    MarkRunaheadRequests(q, rob);
    MarkRunaheadOrder(q, rob);
    MarkRunaheadStores(q, rob);
    MarkRunaheadLoads(q, rob);
  }
}
