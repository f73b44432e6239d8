/** What a load's search and a store's check answer, in terms of the bytes the accesses touch. */
module LsqSearch {
  import opened Prelude
  import opened Memory
  import opened Coverage
  import opened LsqState

  // ---- The store-queue search -------------------------------------------------------------------

  /** The store writes a byte the load wants, and the load may see it. */
  ghost predicate Hits(e: SQEntry, runaheadLoad: bool, addr: nat, size: nat)
  {
    && (e.runahead ==> runaheadLoad)
    && exists a: nat :: InRange(a, addr, size) && InRange(a, e.addr, |e.data|)
  }

  /** The store writes every byte the load wants. */
  ghost predicate HoldsAll(e: SQEntry, addr: nat, size: nat)
  {
    forall a: nat | InRange(a, addr, size) :: InRange(a, e.addr, |e.data|)
  }

  ghost predicate YoungestHit(ss: seq<SQEntry>, runaheadLoad: bool, addr: nat, size: nat, k: nat)
  {
    && k < |ss| && Hits(ss[k], runaheadLoad, addr, size)
    && forall i | k < i < |ss| :: !Hits(ss[i], runaheadLoad, addr, size)
  }

  /** The bytes the store writes at the load's addresses. */
  ghost predicate SameBytes(e: SQEntry, addr: nat, size: nat, data: Bytes)
    requires HoldsAll(e, addr, size)
  {
    && |data| == size
    && forall a: nat | InRange(a, addr, size) :: data[a - addr] == e.data[a - e.addr]
  }

  /**
   * The answer a search owes the load: its bytes from the youngest store that hits it if that store holds them all,
   * a stall on that store if it holds only some, a miss if no store hits it.
   */
  ghost predicate Answers(ss: seq<SQEntry>, runaheadLoad: bool, addr: nat, size: nat, r: ScanResult)
  {
    && (r.Miss? <==> forall k | 0 <= k < |ss| :: !Hits(ss[k], runaheadLoad, addr, size))
    && forall k: nat | YoungestHit(ss, runaheadLoad, addr, size, k) ::
         && (r.Forward? <==> HoldsAll(ss[k], addr, size))
         && (r.Forward? ==> SameBytes(ss[k], addr, size, r.data))
         && (!r.Forward? ==> r == StallOn(ss[k].seqNum))
  }

  /** What the coverage check says about one store, in bytes. */
  lemma CoverageOfStore(e: SQEntry, runaheadLoad: bool, addr: nat, size: nat)
    requires size > 0 && LsqState.Visible(e, runaheadLoad)
    ensures var c := AddrCoverage(addr, size, e.addr, |e.data|, PLAIN);
            && (c.NoCoverage? <==> !Hits(e, runaheadLoad, addr, size))
            && (c.Full? <==> HoldsAll(e, addr, size))
            && (c.Full? ==> SameBytes(e, addr, size, e.data[addr - e.addr..addr - e.addr + size]))
  {
    CoverageIsExact(addr, size, e.addr, |e.data|, PLAIN);
    assert InRange(addr, addr, size);
  }

  lemma YoungestInFront(ss: seq<SQEntry>, runaheadLoad: bool, addr: nat, size: nat, k: nat)
    requires ss != [] && !Hits(ss[|ss| - 1], runaheadLoad, addr, size)
    ensures YoungestHit(ss, runaheadLoad, addr, size, k) <==> YoungestHit(ss[..|ss| - 1], runaheadLoad, addr, size, k)
  {
    hide Hits;
    var front := ss[..|ss| - 1];
    if YoungestHit(front, runaheadLoad, addr, size, k) {
      assert forall i | k < i < |front| :: ss[i] == front[i];
    }
  }

  /** A youngest store that does not hit changes no answer. */
  lemma AnswersInFront(ss: seq<SQEntry>, runaheadLoad: bool, addr: nat, size: nat, r: ScanResult)
    requires ss != [] && !Hits(ss[|ss| - 1], runaheadLoad, addr, size)
    requires Answers(ss[..|ss| - 1], runaheadLoad, addr, size, r)
    ensures Answers(ss, runaheadLoad, addr, size, r)
  {
    hide Hits, HoldsAll, SameBytes;
    forall k: nat {
      YoungestInFront(ss, runaheadLoad, addr, size, k);
    }
  }

  /** A youngest store that hits decides the answer. */
  lemma AnswersAtLast(ss: seq<SQEntry>, runaheadLoad: bool, addr: nat, size: nat, r: ScanResult)
    requires ss != [] && Hits(ss[|ss| - 1], runaheadLoad, addr, size) && !r.Miss?
    requires r.Forward? <==> HoldsAll(ss[|ss| - 1], addr, size)
    requires r.Forward? ==> SameBytes(ss[|ss| - 1], addr, size, r.data)
    requires r.StallOn? ==> r.storeSeq == ss[|ss| - 1].seqNum
    ensures Answers(ss, runaheadLoad, addr, size, r)
  {
    hide Hits, HoldsAll, SameBytes;
  }

  /** The search gives every load, normal or runahead, the answer it is owed. */
  lemma {:induction false} ScanAnswers(ss: seq<SQEntry>, runaheadLoad: bool, addr: nat, size: nat)
    requires size > 0
    ensures Answers(ss, runaheadLoad, addr, size, Scan(ss, runaheadLoad, addr, size))
  {
    if ss != [] {
      hide Hits, HoldsAll, SameBytes, AddrCoverage, YoungestHit, Answers;
      var e, front := ss[|ss| - 1], ss[..|ss| - 1];
      ScanAnswers(front, runaheadLoad, addr, size);
      if LsqState.Visible(e, runaheadLoad) {
        CoverageOfStore(e, runaheadLoad, addr, size);
      } else {
        NotVisible(e, runaheadLoad, addr, size);
      }
      if Hits(e, runaheadLoad, addr, size) {
        AnswersAtLast(ss, runaheadLoad, addr, size, Scan(ss, runaheadLoad, addr, size));
      } else {
        AnswersInFront(ss, runaheadLoad, addr, size, Scan(front, runaheadLoad, addr, size));
      }
    }
  }

  lemma NotVisible(e: SQEntry, runaheadLoad: bool, addr: nat, size: nat)
    requires !LsqState.Visible(e, runaheadLoad)
    ensures !Hits(e, runaheadLoad, addr, size)
  {
  }

  /** If some store hits the load, one of them is the youngest. */
  lemma {:induction false} SomeYoungest(ss: seq<SQEntry>, runaheadLoad: bool, addr: nat, size: nat, k: nat) returns (y: nat)
    requires k < |ss| && Hits(ss[k], runaheadLoad, addr, size)
    ensures YoungestHit(ss, runaheadLoad, addr, size, y)
  {
    hide Hits;
    if Hits(ss[|ss| - 1], runaheadLoad, addr, size) {
      y := |ss| - 1;
    } else {
      y := SomeYoungest(ss[..|ss| - 1], runaheadLoad, addr, size, k);
      YoungestInFront(ss, runaheadLoad, addr, size, y);
    }
  }

  /** No other answer is owed: what the search returns is the only one. */
  lemma SearchExact(ss: seq<SQEntry>, runaheadLoad: bool, addr: nat, size: nat, r: ScanResult)
    requires size > 0
    ensures r == Scan(ss, runaheadLoad, addr, size) <==> Answers(ss, runaheadLoad, addr, size, r)
  {
    var found := Scan(ss, runaheadLoad, addr, size);
    ScanAnswers(ss, runaheadLoad, addr, size);
    hide Hits, HoldsAll, Scan;
    if Answers(ss, runaheadLoad, addr, size, r) && !found.Miss? {
      var k :| 0 <= k < |ss| && Hits(ss[k], runaheadLoad, addr, size);
      var y := SomeYoungest(ss, runaheadLoad, addr, size, k);
      if r.Forward? {
        SameBytesOnce(ss[y], addr, size, r.data, found.data);
      }
    }
  }

  lemma SameBytesOnce(e: SQEntry, addr: nat, size: nat, data: Bytes, other: Bytes)
    requires HoldsAll(e, addr, size) && SameBytes(e, addr, size, data) && SameBytes(e, addr, size, other)
    ensures data == other
  {
    forall k | 0 <= k < size ensures data[k] == other[k] {
      assert InRange(addr + k, addr, size);
      assert data[addr + k - addr] == other[addr + k - addr];
    }
  }

  // ---- The execution of a load ------------------------------------------------------------------

  /** The store at position `i` is the youngest that is older than the load, not yet sent, and hits it. */
  ghost predicate Supplies(q: Lsq, j: nat, addr: nat, size: nat, i: nat)
    requires q.LoadAt(j) && q.sqHead <= q.storeWBIt <= q.Ld(j).sqIt <= q.SqEnd()
  {
    && q.storeWBIt <= i < q.Ld(j).sqIt && Hits(q.St(i), q.Ld(j).runahead, addr, size)
    && forall k | i < k < q.Ld(j).sqIt :: !Hits(q.St(k), q.Ld(j).runahead, addr, size)
  }

  /** A load at or before load `j` already waits for a store. */
  predicate OlderStalls(q: Lsq, j: nat)
    requires q.LoadAt(j)
  {
    q.stall.Some? && q.LoadAt(q.stall.value.loadIdx) && q.Ld(q.stall.value.loadIdx).seqNum <= q.Ld(j).seqNum
  }

  /** What becomes of load `j`, from the store that supplies it. */
  ghost predicate LoadOutcome(q: Lsq, r: Lsq, j: nat, addr: nat, size: nat, accept: bool)
    requires q.LoadAt(j) && q.sqHead <= q.storeWBIt <= q.Ld(j).sqIt <= q.SqEnd()
  {
    r.LoadAt(j) &&
    var e := r.Ld(j);
    && (forall i | Supplies(q, j, addr, size, i) && HoldsAll(q.St(i), addr, size) ::
          e.outcome.Value? && SameBytes(q.St(i), addr, size, e.outcome.data) && r.stall == q.stall)
    && (forall i | Supplies(q, j, addr, size, i) && !HoldsAll(q.St(i), addr, size) ::
          && e.outcome == Rescheduled && !e.addrValid && e.request == None
          && r.stall == if OlderStalls(q, j) then q.stall else Some(Stall(q.St(i).seqNum, j)))
    && ((forall i | q.storeWBIt <= i < q.Ld(j).sqIt :: !Hits(q.St(i), q.Ld(j).runahead, addr, size)) ==>
          e.outcome == (if accept then Sent else Pending) && r.stall == q.stall)
  }

  lemma SuppliesIsYoungest(q: Lsq, j: nat, addr: nat, size: nat, i: nat)
    requires q.LoadAt(j) && q.sqHead <= q.storeWBIt <= q.Ld(j).sqIt <= q.SqEnd()
    requires Supplies(q, j, addr, size, i)
    ensures YoungestHit(Window(q, q.Ld(j).sqIt), q.Ld(j).runahead, addr, size, i - q.storeWBIt)
    ensures Window(q, q.Ld(j).sqIt)[i - q.storeWBIt] == q.St(i)
  {
    hide Hits;
    var ss, d := Window(q, q.Ld(j).sqIt), q.storeWBIt;
    forall k | i - d < k < |ss| ensures !Hits(ss[k], q.Ld(j).runahead, addr, size) {
      assert ss[k] == q.St(d + k);
    }
  }

  lemma NothingSupplies(q: Lsq, j: nat, addr: nat, size: nat)
    requires q.LoadAt(j) && q.sqHead <= q.storeWBIt <= q.Ld(j).sqIt <= q.SqEnd()
    requires forall i | q.storeWBIt <= i < q.Ld(j).sqIt :: !Hits(q.St(i), q.Ld(j).runahead, addr, size)
    ensures forall s | s in Window(q, q.Ld(j).sqIt) :: !Hits(s, q.Ld(j).runahead, addr, size)
  {
    hide Hits;
    var ss, d := Window(q, q.Ld(j).sqIt), q.storeWBIt;
    forall k | 0 <= k < |ss| ensures !Hits(ss[k], q.Ld(j).runahead, addr, size) {
      assert ss[k] == q.St(d + k);
    }
  }

  /** The search answers from the store that supplies the load. */
  lemma SupplierAnswers(q: Lsq, j: nat, addr: nat, size: nat, i: nat)
    requires size > 0 && q.LoadAt(j) && q.sqHead <= q.storeWBIt <= q.Ld(j).sqIt <= q.SqEnd()
    requires Supplies(q, j, addr, size, i)
    ensures var r := Scan(Window(q, q.Ld(j).sqIt), q.Ld(j).runahead, addr, size);
            && (HoldsAll(q.St(i), addr, size) ==> r.Forward? && SameBytes(q.St(i), addr, size, r.data))
            && (!HoldsAll(q.St(i), addr, size) ==> r == StallOn(q.St(i).seqNum))
  {
    var ss := Window(q, q.Ld(j).sqIt);
    ScanAnswers(ss, q.Ld(j).runahead, addr, size);
    SuppliesIsYoungest(q, j, addr, size, i);
    hide Hits, HoldsAll, SameBytes, Scan, Window, YoungestHit;
    assert YoungestHit(ss, q.Ld(j).runahead, addr, size, i - q.storeWBIt);
  }

  /** How the search's answer decides the load's fields. */
  lemma AnswerDecides(q: Lsq, j: nat, addr: nat, size: nat, accept: bool)
    requires q.LoadAt(j) && q.sqHead <= q.storeWBIt <= q.Ld(j).sqIt <= q.SqEnd()
    ensures var found := Scan(Window(q, q.Ld(j).sqIt), q.Ld(j).runahead, addr, size);
            var r := ExecLoad(q, j, addr, size, accept);
            r.LoadAt(j) &&
            match found
            case Forward(data) => r.Ld(j).outcome == Value(data) && r.stall == q.stall
            case StallOn(n) => && r.Ld(j).outcome == Rescheduled && !r.Ld(j).addrValid && r.Ld(j).request == None
                               && r.stall == if OlderStalls(q, j) then q.stall else Some(Stall(n, j))
            case Miss => r.Ld(j).outcome == (if accept then Sent else Pending) && r.stall == q.stall
  {
    hide Scan, Window;
  }

  /** An executed load, normal or runahead, becomes what the store that supplies it makes of it. */
  lemma ExecLoadOutcome(q: Lsq, j: nat, addr: nat, size: nat, accept: bool)
    requires size > 0 && q.LoadAt(j) && q.sqHead <= q.storeWBIt <= q.Ld(j).sqIt <= q.SqEnd()
    ensures LoadOutcome(q, ExecLoad(q, j, addr, size, accept), j, addr, size, accept)
  {
    var ss, r := Window(q, q.Ld(j).sqIt), ExecLoad(q, j, addr, size, accept);
    AnswerDecides(q, j, addr, size, accept);
    hide Hits, HoldsAll, SameBytes, Scan, Window, Supplies, ExecLoad, OlderStalls;
    forall i: nat | Supplies(q, j, addr, size, i)
      ensures var found := Scan(ss, q.Ld(j).runahead, addr, size);
              && (HoldsAll(q.St(i), addr, size) ==> found.Forward? && SameBytes(q.St(i), addr, size, found.data))
              && (!HoldsAll(q.St(i), addr, size) ==> found == StallOn(q.St(i).seqNum))
    {
      SupplierAnswers(q, j, addr, size, i);
    }
    if forall i | q.storeWBIt <= i < q.Ld(j).sqIt :: !Hits(q.St(i), q.Ld(j).runahead, addr, size) {
      NothingSupplies(q, j, addr, size);
      ScanAnswers(ss, q.Ld(j).runahead, addr, size);
    }
  }

  // ---- The check of a store ---------------------------------------------------------------------

  /** The load has its address, and some block holds a byte of it and a byte of the store. */
  ghost predicate Touches(e: LQEntry, addr: nat, size: nat, shift: nat)
  {
    e.addrValid && ShareBlock(addr, size, e.addr, e.size, shift)
  }

  lemma ConflictsIff(e: LQEntry, addr: nat, size: nat, shift: nat)
    requires size > 0
    ensures Conflicts(e, addr, size, shift) <==> Touches(e, addr, size, shift)
  {
    if e.size > 0 {
      BlocksOverlapIff(addr, size, e.addr, e.size, shift);
    }
  }

  /** The load at position `j` is the oldest queued from position `from` on that the store touches. */
  ghost predicate FirstTouched(q: Lsq, from: nat, addr: nat, size: nat, j: nat)
  {
    && q.LoadAt(j) && from <= j && Touches(q.Ld(j), addr, size, q.cfg.depCheckShift)
    && forall k: nat | q.LoadAt(k) && from <= k < j :: !Touches(q.Ld(k), addr, size, q.cfg.depCheckShift)
  }

  lemma {:induction false} FirstConflictFound(lq: seq<LQEntry>, addr: nat, size: nat, shift: nat, k: nat)
    requires size > 0 && k < |lq| && Touches(lq[k], addr, size, shift)
    requires forall i | 0 <= i < k :: !Touches(lq[i], addr, size, shift)
    ensures FirstConflict(lq, addr, size, shift) == Some(lq[k].seqNum)
  {
    ConflictsIff(lq[0], addr, size, shift);
    hide Touches, Conflicts;
    if k > 0 {
      FirstConflictFound(lq[1..], addr, size, shift, k - 1);
    }
  }

  lemma {:induction false} FirstConflictAbsent(lq: seq<LQEntry>, addr: nat, size: nat, shift: nat)
    requires size > 0 && forall k | 0 <= k < |lq| :: !Touches(lq[k], addr, size, shift)
    ensures FirstConflict(lq, addr, size, shift) == None
  {
    if lq != [] {
      ConflictsIff(lq[0], addr, size, shift);
      hide Touches, Conflicts;
      FirstConflictAbsent(lq[1..], addr, size, shift);
    }
  }

  /** The store accuses load `j`: the oldest it touches, when no older load is accused already. */
  ghost predicate Accuses(q: Lsq, from: nat, addr: nat, size: nat, j: nat)
  {
    && FirstTouched(q, from, addr, size, j)
    && (q.violator.Some? ==> q.Ld(j).seqNum <= q.violator.value)
  }

  /** The check records the load it accuses, if there is one, and otherwise changes nothing; `fault` tells which. */
  ghost predicate StoreOutcome(q: Lsq, r: Lsq, from: nat, addr: nat, size: nat, fault: bool)
  {
    && (fault <==> exists j :: Accuses(q, from, addr, size, j))
    && (forall j | Accuses(q, from, addr, size, j) :: r.violator == Some(q.Ld(j).seqNum))
    && (!fault ==> r.violator == q.violator)
  }

  lemma CheckFinds(q: Lsq, from: nat, addr: nat, size: nat, j: nat)
    requires size > 0 && from <= q.LqEnd() && FirstTouched(q, from, addr, size, j)
    ensures q.LoadAt(j)
    ensures FirstConflict(LoadsFrom(q, from), addr, size, q.cfg.depCheckShift) == Some(q.Ld(j).seqNum)
  {
    hide Touches, FirstConflict;
    var lq, d := LoadsFrom(q, from), if from <= q.lqHead then q.lqHead else from;
    forall i | 0 <= i < j - d ensures !Touches(lq[i], addr, size, q.cfg.depCheckShift) {
      assert lq[i] == q.Ld(d + i);
    }
    FirstConflictFound(lq, addr, size, q.cfg.depCheckShift, j - d);
  }

  lemma {:induction false} FirstConflictAt(lq: seq<LQEntry>, addr: nat, size: nat, shift: nat) returns (k: nat)
    requires size > 0 && FirstConflict(lq, addr, size, shift).Some?
    ensures k < |lq| && Touches(lq[k], addr, size, shift)
    ensures forall i | 0 <= i < k :: !Touches(lq[i], addr, size, shift)
  {
    ConflictsIff(lq[0], addr, size, shift);
    hide Touches, Conflicts;
    k := 0;
    if !Touches(lq[0], addr, size, shift) {
      var rest := FirstConflictAt(lq[1..], addr, size, shift);
      k := rest + 1;
    }
  }

  lemma CheckFound(q: Lsq, from: nat, addr: nat, size: nat) returns (j: nat)
    requires size > 0 && from <= q.LqEnd()
    requires FirstConflict(LoadsFrom(q, from), addr, size, q.cfg.depCheckShift).Some?
    ensures FirstTouched(q, from, addr, size, j)
  {
    hide Touches, FirstConflict;
    var lq, d := LoadsFrom(q, from), if from <= q.lqHead then q.lqHead else from;
    var k := FirstConflictAt(lq, addr, size, q.cfg.depCheckShift);
    j := d + k;
    assert lq[k] == q.Ld(j);
    forall i: nat | q.LoadAt(i) && from <= i < j ensures !Touches(q.Ld(i), addr, size, q.cfg.depCheckShift) {
      assert lq[i - d] == q.Ld(i);
    }
  }

  /** An executed store accuses exactly the load its check owes, and faults exactly if it accuses one. */
  lemma CheckOutcome(q: Lsq, from: nat, addr: nat, size: nat)
    requires size > 0 && from <= q.LqEnd()
    ensures var first := FirstConflict(LoadsFrom(q, from), addr, size, q.cfg.depCheckShift);
            var r := q.(violator := OlderOf(q.violator, first));
            StoreOutcome(q, r, from, addr, size, first.Some? && r.violator == first)
  {
    hide Touches, FirstConflict, LoadsFrom, FirstTouched;
    forall j | FirstTouched(q, from, addr, size, j)
      ensures q.LoadAt(j)
      ensures FirstConflict(LoadsFrom(q, from), addr, size, q.cfg.depCheckShift) == Some(q.Ld(j).seqNum)
    {
      CheckFinds(q, from, addr, size, j);
    }
    if FirstConflict(LoadsFrom(q, from), addr, size, q.cfg.depCheckShift).Some? {
      var j := CheckFound(q, from, addr, size);
      assert Accuses(q, from, addr, size, j) || q.violator.Some?;
    }
  }

  /** The same for the whole execution of a store, whose own entry is no load. */
  lemma ExecStoreOutcome(q: Lsq, i: nat, addr: nat, data: Bytes)
    requires q.StoreAt(i) && data != [] && q.St(i).lqIt <= q.LqEnd()
    ensures var first := FirstConflict(LoadsFrom(q, q.St(i).lqIt), addr, |data|, q.cfg.depCheckShift);
            StoreOutcome(q, ExecStore(q, i, addr, data), q.St(i).lqIt, addr, |data|,
                         first.Some? && OlderOf(q.violator, first) == first)
  {
    CheckOutcome(q, q.St(i).lqIt, addr, |data|);
    hide FirstConflict, LoadsFrom, FirstTouched;
  }
}
