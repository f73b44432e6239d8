/** What loads return and what memory holds, step by step. */
module LsqRefine {
  import opened Prelude
  import opened Memory
  import opened Coverage
  import opened LsqState
  import opened LsqWorld
  import opened LsqProof
  import opened LsqSteps
  import opened LsqRetire

  // ---- Loads that a step does not touch ---------------------------------------------------------

  /** A load that was correct in `w` is correct in `v`: same bytes, same prior stores, and doom is not forgotten. */
  predicate CarriesOver(w: World, v: World, e: LQEntry, f: LQEntry)
    requires WbPrefix(w.q) && WbPrefix(v.q)
  {
    && f.seqNum == e.seqNum && f.addr == e.addr && f.size == e.size && f.outcome == e.outcome && !e.runahead
    && (Doomed(v, e.seqNum) || (!Doomed(w, e.seqNum) && Prior(v, e.seqNum) == Prior(w, e.seqNum)))
  }

  lemma LoadsCarryOver(w: World, v: World)
    requires WbPrefix(w.q) && WbPrefix(v.q) && v.init == w.init && LoadsCorrect(w)
    requires w.q.lqHead <= v.q.lqHead && v.q.LqEnd() <= w.q.LqEnd()
    requires forall j | 0 <= j < |v.q.lq| && v.q.lq[j].outcome.Value? && !v.q.lq[j].runahead ::
               CarriesOver(w, v, w.q.lq[v.q.lqHead - w.q.lqHead + j], v.q.lq[j])
    ensures LoadsCorrect(v)
  {
    hide Older, Fold, ReadBytes, Doomed;
  }

  // ---- The prior stores, operation by operation -------------------------------------------------

  lemma PriorAfterInsert(w: World, seqNum: nat, runahead: bool, n: nat)
    requires WbPrefix(w.q)
    ensures var v := w.(q := InsertStore(w.q, seqNum, runahead)); WbPrefix(v.q) && Prior(v, n) == Prior(w, n)
  {
    var e := SQEntry(seqNum, w.q.LqEnd(), runahead, 0, [], false, false, None);
    assert InsertStore(w.q, seqNum, runahead).Unsent() == w.q.Unsent() + [e];
    OlderConcat(w.q.Unsent(), [e], n);
    OlderOne(e, n);
  }

  /** Commit, marking for runahead, and anything else that leaves the older normal stores alone. */
  lemma PriorSame(w: World, v: World, n: nat)
    requires WbPrefix(w.q) && WbPrefix(v.q) && v.sent == w.sent && v.q.sqHead == w.q.sqHead
    requires v.q.storeWBIt == w.q.storeWBIt && |v.q.sq| == |w.q.sq|
    requires forall i | 0 <= i < |w.q.sq| ::
               Keep(v.q.sq[i], n) == Keep(w.q.sq[i], n) && (Keep(w.q.sq[i], n) ==> AsStore(v.q.sq[i]) == AsStore(w.q.sq[i]))
    ensures Prior(v, n) == Prior(w, n)
  {
    hide Older, Keep, AsStore;
    var k := w.q.storeWBIt - w.q.sqHead;
    assert forall x | 0 <= x < |w.q.Unsent()| :: w.q.Unsent()[x] == w.q.sq[k + x] && v.q.Unsent()[x] == v.q.sq[k + x];
    OlderSame(v.q.Unsent(), w.q.Unsent(), n, n);
  }

  lemma PriorAfterSquash(w: World, n: nat, m: nat)
    requires WbPrefix(w.q) && WbPrefix(Squash(w.q, n))
    requires forall i | |Squash(w.q, n).sq| <= i < |w.q.sq| :: m <= w.q.sq[i].seqNum
    ensures Prior(AfterSquash(w, n), m) == Prior(w, m)
  {
    hide CutLoads, CutStores;
    var r := Squash(w.q, n);
    var rest := w.q.sq[|r.sq|..];
    assert w.q.Unsent() == r.Unsent() + rest;
    OlderConcat(r.Unsent(), rest, m);
    OlderNone(rest, m);
  }

  /** A list of older stores, with its first entry on its own. */
  lemma OlderFirst(u: seq<SQEntry>, n: nat)
    requires u != []
    ensures Older(u, n) == (if Keep(u[0], n) then [AsStore(u[0])] else []) + Older(u[1..], n)
  {
    hide Older;
    assert u == [u[0]] + u[1..];
    OlderConcat([u[0]], u[1..], n);
    OlderOne(u[0], n);
  }

  /** The oldest unsent store moves from the queue to the list of sent stores; the whole stays as it was. */
  lemma PriorAfterStep(w: World, v: World, n: nat)
    requires WbPrefix(w.q) && WbPrefix(v.q) && w.q.StoreAt(w.q.storeWBIt)
    requires v.q.Unsent() == w.q.Unsent()[1..]
    requires var e := w.q.St(w.q.storeWBIt); v.sent == w.sent + if Keep(e, n) then [AsStore(e)] else []
    ensures Prior(v, n) == Prior(w, n)
  {
    hide WbPrefix, Older, Keep, AsStore;
    assert w.q.Unsent()[0] == w.q.St(w.q.storeWBIt);
    OlderFirst(w.q.Unsent(), n);
  }

  lemma PrefixIgnoresViolator(q: Lsq, r: Lsq)
    requires WbPrefix(q) && r == q.(violator := r.violator)
    ensures WbPrefix(r)
  {
  }

  /** Only the queue and the stores sent matter. */
  lemma PriorDependsOnQueue(w: World, v: World, n: nat)
    requires WbPrefix(w.q) && v.q == w.q.(violator := v.q.violator) && v.sent == w.sent
    ensures WbPrefix(v.q) && Prior(v, n) == Prior(w, n)
  {
    hide Older, WbPrefix;
    PrefixIgnoresViolator(w.q, v.q);
  }

  // ---- Executing a load -------------------------------------------------------------------------

  lemma WindowSplits(q: Lsq, j: nat)
    requires Linked(q) && q.LoadAt(j) && q.sqHead <= q.storeWBIt <= q.Ld(j).sqIt <= q.SqEnd()
    ensures var d := q.Ld(j).sqIt - q.sqHead;
            && (forall i | q.storeWBIt - q.sqHead <= i < d :: q.sq[i].seqNum < q.Ld(j).seqNum)
            && (forall i | d <= i < |q.sq| :: q.Ld(j).seqNum <= q.sq[i].seqNum)
  {
    var e := q.lq[j - q.lqHead];
    assert forall i | 0 <= i < |q.sq| :: q.sqHead + i < e.sqIt <==> q.sq[i].seqNum < e.seqNum;
  }

  /** In a list whose entries from `b` on are not older than `n`, those from `a` to `b` give all that is older. */
  lemma OlderUpTo(sq: seq<SQEntry>, a: nat, b: nat, n: nat)
    requires a <= b <= |sq| && forall i | b <= i < |sq| :: n <= sq[i].seqNum
    ensures Older(sq[a..], n) == Older(sq[a..b], n)
  {
    var rest := sq[b..];
    assert forall k | 0 <= k < |rest| :: !Keep(rest[k], n);
    hide Older, Keep;
    assert sq[a..] == sq[a..b] + rest;
    OlderConcat(sq[a..b], rest, n);
    OlderNone(rest, n);
  }

  /** The window a load searches holds exactly the unsent stores older than it. */
  lemma WindowIsPrior(q: Lsq, j: nat)
    requires Linked(q) && q.LoadAt(j) && q.sqHead <= q.storeWBIt <= q.Ld(j).sqIt <= q.SqEnd()
    ensures var ss := Window(q, q.Ld(j).sqIt);
            && (forall k | 0 <= k < |ss| :: ss[k].seqNum < q.Ld(j).seqNum)
            && Older(q.Unsent(), q.Ld(j).seqNum) == Older(ss, q.Ld(j).seqNum)
  {
    hide Linked, Older;
    WindowSplits(q, j);
    OlderUpTo(q.sq, q.storeWBIt - q.sqHead, q.Ld(j).sqIt - q.sqHead, q.Ld(j).seqNum);
  }

  /** What a normal load's search finds: the in-order bytes, or that the D-cache holds them already. */
  lemma LoadReadsPrior(w: World, j: nat, addr: nat, size: nat)
    requires QueueInv(w.q) && Drained(w) && w.q.LoadAt(j) && size > 0
    ensures var inOrder := ReadBytes(InOrderMemory(w, w.q.Ld(j).seqNum), addr, size);
            match Scan(Window(w.q, w.q.Ld(j).sqIt), false, addr, size)
            case Miss => inOrder == ReadBytes(w.q.dcache, addr, size)
            case Forward(data) => inOrder == data
            case StallOn(_) => true
  {
    var n := w.q.Ld(j).seqNum;
    var ss := Window(w.q, w.q.Ld(j).sqIt);
    assert w.q.lq[j - w.q.lqHead] == w.q.Ld(j);
    WindowIsPrior(w.q, j);
    FoldConcat(w.init, w.sent, Older(ss, n));
    ScanIsOverlay(w.q.dcache, ss, addr, size, n);
    hide QueueInv, Scan, Older, Fold, ReadBytes;
  }
}
