/** Every step of the queue keeps the invariants of `LsqWorld`. */
module LsqProof {
  import opened Prelude
  import opened Memory
  import opened Coverage
  import opened LsqState
  import opened LsqWorld

  // ---- Lists of stores --------------------------------------------------------------------------

  lemma {:induction false} OlderConcat(a: seq<SQEntry>, b: seq<SQEntry>, n: nat)
    ensures Older(a + b, n) == Older(a, n) + Older(b, n)
  {
    if b == [] {
      assert a + b == a;
    } else {
      assert (a + b)[..|a + b| - 1] == a + b[..|b| - 1];
      OlderConcat(a, b[..|b| - 1], n);
    }
  }

  /** Entries that are kept alike and write alike give the same stores. */
  lemma {:induction false} OlderSame(a: seq<SQEntry>, b: seq<SQEntry>, n: nat, m: nat)
    requires |a| == |b|
    requires forall k | 0 <= k < |a| :: Keep(a[k], n) == Keep(b[k], m) && (Keep(a[k], n) ==> AsStore(a[k]) == AsStore(b[k]))
    ensures Older(a, n) == Older(b, m)
  {
    if a != [] {
      OlderSame(a[..|a| - 1], b[..|b| - 1], n, m);
    }
  }

  lemma {:induction false} OlderNone(a: seq<SQEntry>, n: nat)
    requires forall k | 0 <= k < |a| :: !Keep(a[k], n)
    ensures Older(a, n) == []
  {
    if a != [] {
      OlderNone(a[..|a| - 1], n);
    }
  }

  lemma OlderOne(e: SQEntry, n: nat)
    ensures Older([e], n) == if Keep(e, n) then [AsStore(e)] else []
  {
    assert [e][..0] == [];
  }

  lemma {:induction false} BetweenNone(a: seq<SQEntry>, lo: nat, hi: nat)
    requires forall k | 0 <= k < |a| :: a[k].seqNum < lo
    ensures Between(a, lo, hi) == []
  {
    if a != [] {
      BetweenNone(a[..|a| - 1], lo, hi);
    }
  }

  /** In an ascending queue, the stores up to `hi` are those up to `lo` followed by those in between. */
  lemma {:induction false} OlderSplit(a: seq<SQEntry>, lo: nat, hi: nat)
    requires lo <= hi
    requires forall x, y | 0 <= x < y < |a| :: a[x].seqNum < a[y].seqNum
    ensures Older(a, hi) == Older(a, lo) + Between(a, lo, hi)
  {
    if a != [] {
      var front, e := a[..|a| - 1], a[|a| - 1];
      OlderSplit(front, lo, hi);
      if e.seqNum < lo {
        BetweenNone(front, lo, hi);
      }
    }
  }

  /** Stores older than `lo` contribute nothing to what lies between `lo` and `hi`. */
  lemma {:induction false} BetweenSuffix(a: seq<SQEntry>, k: nat, lo: nat, hi: nat)
    requires k <= |a| && forall i | 0 <= i < k :: a[i].seqNum < lo
    ensures Between(a, lo, hi) == Between(a[k..], lo, hi)
  {
    if k == |a| {
      BetweenNone(a, lo, hi);
    } else {
      assert a[k..][..|a[k..]| - 1] == a[..|a| - 1][k..];
      BetweenSuffix(a[..|a| - 1], k, lo, hi);
    }
  }

  lemma {:induction false} BeforeConcat(a: seq<Store>, b: seq<Store>, n: nat)
    ensures Before(a + b, n) == Before(a, n) + Before(b, n)
  {
    if b == [] {
      assert a + b == a;
    } else {
      assert (a + b)[..|a + b| - 1] == a + b[..|b| - 1];
      BeforeConcat(a, b[..|b| - 1], n);
    }
  }

  lemma {:induction false} BeforeAll(a: seq<Store>, n: nat)
    requires forall k | 0 <= k < |a| :: a[k].seqNum < n
    ensures Before(a, n) == a
  {
    if a != [] {
      BeforeAll(a[..|a| - 1], n);
      assert a == a[..|a| - 1] + [a[|a| - 1]];
    }
  }

  lemma {:induction false} BeforeNone(a: seq<Store>, n: nat)
    requires forall s | s in a :: n <= s.seqNum
    ensures Before(a, n) == []
  {
    if a != [] {
      BeforeNone(a[..|a| - 1], n);
    }
  }

  lemma {:induction false} BeforeOlder(a: seq<SQEntry>, n: nat, m: nat)
    requires n <= m
    ensures Before(Older(a, m), n) == Older(a, n)
  {
    if a != [] {
      var front, e := a[..|a| - 1], a[|a| - 1];
      BeforeOlder(front, n, m);
      var last: seq<Store> := if Keep(e, m) then [AsStore(e)] else [];
      BeforeConcat(Older(front, m), last, n);
      if Keep(e, m) {
        assert [AsStore(e)][..0] == [];
      }
    }
  }

  lemma {:induction false} BetweenBounds(a: seq<SQEntry>, lo: nat, hi: nat)
    ensures forall s | s in Between(a, lo, hi) :: lo <= s.seqNum < hi
  {
    if a != [] {
      BetweenBounds(a[..|a| - 1], lo, hi);
    }
  }

  // ---- Forwarding -------------------------------------------------------------------------------

  lemma ReadBytesEqual(m: Contents, n: Contents, addr: nat, size: nat)
    requires forall a | addr <= a < addr + size :: Lookup(m, a) == Lookup(n, a)
    ensures ReadBytes(m, addr, size) == ReadBytes(n, addr, size)
  {
    var x, y := ReadBytes(m, addr, size), ReadBytes(n, addr, size);
    forall k | 0 <= k < size ensures x[k] == y[k] {
      assert x[k] == Lookup(m, addr + k) && y[k] == Lookup(n, addr + k);
    }
  }

  /** What one store does to the bytes a load wants, by how it covers them. */
  lemma OverlayOne(m: Contents, s: Store, addr: nat, size: nat)
    requires size > 0 && s.data != []
    ensures var after := ReadBytes(Put(m, s), addr, size);
            match AddrCoverage(addr, size, s.addr, |s.data|, PLAIN)
            case Full => after == s.data[addr - s.addr..addr - s.addr + size]
            case NoCoverage => after == ReadBytes(m, addr, size)
            case Partial => true
  {
    CoverageIsExact(addr, size, s.addr, |s.data|, PLAIN);
    match AddrCoverage(addr, size, s.addr, |s.data|, PLAIN)
    case Full =>
      var got := ReadBytes(Put(m, s), addr, size);
      forall k | 0 <= k < size ensures got[k] == s.data[addr - s.addr..addr - s.addr + size][k] {
        assert InRange(addr + k, addr, size);
        LookupPut(m, s, addr + k);
      }
    case NoCoverage =>
      forall a | addr <= a < addr + size ensures Lookup(Put(m, s), a) == Lookup(m, a) {
        assert InRange(a, addr, size);
        LookupPut(m, s, a);
      }
      ReadBytesEqual(Put(m, s), m, addr, size);
    case Partial =>
  }

  /** Executing stores in order: a visible youngest one is put last. */
  lemma OlderPushed(m: Contents, ss: seq<SQEntry>, n: nat)
    requires ss != [] && Visible(ss[|ss| - 1], false) && ss[|ss| - 1].seqNum < n
    ensures Fold(m, Older(ss, n)) == Put(Fold(m, Older(ss[..|ss| - 1], n)), AsStore(ss[|ss| - 1]))
  {
    hide Put;
    var front, e := ss[..|ss| - 1], ss[|ss| - 1];
    FoldConcat(m, Older(front, n), [AsStore(e)]);
    assert [AsStore(e)][..0] == [];
  }

  /** The store-queue search gives a normal load exactly memory overlaid by all older executed stores. */
  lemma {:induction false} ScanIsOverlay(m: Contents, ss: seq<SQEntry>, addr: nat, size: nat, n: nat)
    requires size > 0
    requires forall k | 0 <= k < |ss| :: ss[k].seqNum < n
    ensures match Scan(ss, false, addr, size)
            case Miss => ReadBytes(Fold(m, Older(ss, n)), addr, size) == ReadBytes(m, addr, size)
            case Forward(data) => data == ReadBytes(Fold(m, Older(ss, n)), addr, size)
            case StallOn(_) => true
  {
    if ss != [] {
      var e, front := ss[|ss| - 1], ss[..|ss| - 1];
      ScanIsOverlay(m, front, addr, size, n);
      hide ReadBytes, Put, AddrCoverage, Fold;
      if Visible(e, false) {
        OlderPushed(m, ss, n);
        hide Older;
        OverlayOne(Fold(m, Older(front, n)), AsStore(e), addr, size);
      } else {
        assert Older(ss, n) == Older(front, n);
      }
    } else {
      NothingOlder(m, n);
    }
  }

  lemma NothingOlder(m: Contents, n: nat)
    ensures Fold(m, Older([], n)) == m
  {
  }

  /** A load is only ever stalled on a store in the searched window that carries data. */
  lemma {:induction false} StallNamesStore(ss: seq<SQEntry>, runaheadLoad: bool, addr: nat, size: nat) returns (k: nat)
    requires Scan(ss, runaheadLoad, addr, size).StallOn?
    ensures k < |ss| && ss[k].data != [] && ss[k].seqNum == Scan(ss, runaheadLoad, addr, size).storeSeq
  {
    var e, front := ss[|ss| - 1], ss[..|ss| - 1];
    if Visible(e, runaheadLoad) && AddrCoverage(addr, size, e.addr, |e.data|, PLAIN).Partial? {
      k := |ss| - 1;
    } else {
      k := StallNamesStore(front, runaheadLoad, addr, size);
    }
  }

  lemma {:induction false} ForwardSize(ss: seq<SQEntry>, runaheadLoad: bool, addr: nat, size: nat)
    requires Scan(ss, runaheadLoad, addr, size).Forward?
    ensures |Scan(ss, runaheadLoad, addr, size).data| == size
  {
    var e, front := ss[|ss| - 1], ss[..|ss| - 1];
    if !(Visible(e, runaheadLoad) && AddrCoverage(addr, size, e.addr, |e.data|, PLAIN).Full?) {
      ForwardSize(front, runaheadLoad, addr, size);
    }
  }

  // ---- Structure kept by each operation ---------------------------------------------------------

  lemma {:induction false} CountOpenConcat(a: seq<SQEntry>, b: seq<SQEntry>)
    ensures CountOpen(a + b) == CountOpen(a) + CountOpen(b)
  {
    if b == [] {
      assert a + b == a;
    } else {
      assert (a + b)[..|a + b| - 1] == a + b[..|b| - 1];
      CountOpenConcat(a, b[..|b| - 1]);
    }
  }

  lemma CountOpenUpdate(a: seq<SQEntry>, i: nat, e: SQEntry)
    requires i < |a|
    ensures CountOpen(a[i := e]) == CountOpen(a) + (if e.canWB && !e.completed then 1 else 0)
                                    - (if a[i].canWB && !a[i].completed then 1 else 0)
  {
    assert a == a[..i] + [a[i]] + a[i + 1..];
    assert a[i := e] == a[..i] + [e] + a[i + 1..];
    CountOpenConcat(a[..i] + [a[i]], a[i + 1..]);
    CountOpenConcat(a[..i] + [e], a[i + 1..]);
  }

  lemma {:induction false} CountOpenNone(a: seq<SQEntry>)
    requires forall k | 0 <= k < |a| :: !(a[k].canWB && !a[k].completed)
    ensures CountOpen(a) == 0
  {
    if a != [] {
      CountOpenNone(a[..|a| - 1]);
    }
  }

  lemma {:induction false} CountOpenMarked(a: seq<SQEntry>, n: nat)
    requires forall k | 0 <= k < |a| :: !a[k].canWB ==> !a[k].completed
    ensures CountOpen(MarkStores(a, n)) == CountOpen(a) + CountNew(a, n)
  {
    if a != [] {
      assert MarkStores(a, n)[..|a| - 1] == MarkStores(a[..|a| - 1], n);
      CountOpenMarked(a[..|a| - 1], n);
    }
  }

  lemma {:induction false} CountOpenSame(a: seq<SQEntry>, b: seq<SQEntry>)
    requires |a| == |b| && forall k | 0 <= k < |a| :: a[k].canWB == b[k].canWB && a[k].completed == b[k].completed
    ensures CountOpen(a) == CountOpen(b)
  {
    if a != [] {
      CountOpenSame(a[..|a| - 1], b[..|b| - 1]);
    }
  }
}
