/** An access that crosses cache lines, cut into one fragment per line. */
module SplitRequest {
  import opened Memory
  import opened Prelude

  /** A candidate request: which of its bytes are enabled. */
  datatype Fragment = Fragment(addr: nat, enable: seq<bool>)

  function End(f: Fragment): nat
  {
    f.addr + |f.enable|
  }

  lemma Multiples(d: int, line: nat)
    ensures d >= 1 ==> d * line >= line
    ensures d <= -1 ==> d * line + line <= 0
    ensures d == 0 ==> d * line == 0
  {
  }

  /** Division is determined by its remainder's range. */
  lemma DivModUnique(q: nat, r: nat, line: nat)
    requires r < line
    ensures (q * line + r) / line == q && (q * line + r) % line == r
  {
    var x := q * line + r;
    var d := q - x / line;
    assert d * line == x % line - r;
    Multiples(d, line);
  }

  function BlockAlign(a: nat, line: nat): (b: nat)
    requires line > 0
    ensures b <= a < b + line && b % line == 0
  {
    assert a - a % line == a / line * line;
    DivModUnique(a / line, 0, line);
    a / line * line
  }

  lemma AddLine(a: nat, line: nat)
    requires line > 0
    ensures BlockAlign(a + line, line) == BlockAlign(a, line) + line
  {
    assert a + line == (a / line + 1) * line + a % line;
    DivModUnique(a / line + 1, a % line, line);
  }

  // ---- The reference ----------------------------------------------------------------------------

  /** How much of an access fits in the line it starts in. */
  function FirstPart(addr: nat, size: nat, line: nat): (n: nat)
    requires line > 0
    ensures size > 0 ==> 0 < n <= size
  {
    Min(size, line - addr % line)
  }

  /** As much as fits in the line, again and again. */
  function Cuts(addr: nat, enable: seq<bool>, line: nat): (fs: seq<Fragment>)
    requires line > 0
    decreases |enable|
  {
    if enable == [] then []
    else
      var n := FirstPart(addr, |enable|, line);
      [Fragment(addr, enable[..n])] + Cuts(addr + n, enable[n..], line)
  }

  function Kept(fs: seq<Fragment>): (r: seq<Fragment>)
    ensures forall f :: f in r <==> f in fs && true in f.enable
  {
    if fs == [] then []
    else Kept(fs[..|fs| - 1]) + (if true in fs[|fs| - 1].enable then [fs[|fs| - 1]] else [])
  }

  // ---- What the cuts are ------------------------------------------------------------------------

  predicate Contiguous(fs: seq<Fragment>, addr: nat, end: nat)
  {
    && (forall k | 0 <= k < |fs| :: |fs[k].enable| > 0)
    && (forall k | 0 < k < |fs| :: fs[k].addr == End(fs[k - 1]))
    && (fs == [] ==> addr == end)
    && (fs != [] ==> fs[0].addr == addr && End(fs[|fs| - 1]) == end)
  }

  predicate InOneLine(f: Fragment, line: nat)
    requires line > 0
  {
    f.addr % line + |f.enable| <= line
  }

  function Enables(fs: seq<Fragment>): seq<bool>
  {
    if fs == [] then [] else fs[0].enable + Enables(fs[1..])
  }

  lemma ContiguousCons(f: Fragment, fs: seq<Fragment>, end: nat)
    requires |f.enable| > 0 && Contiguous(fs, End(f), end)
    ensures Contiguous([f] + fs, f.addr, end)
  {
    var all := [f] + fs;
    assert forall k | 0 < k < |all| :: all[k] == fs[k - 1];
  }

  lemma {:induction false} CutsAreContiguous(addr: nat, enable: seq<bool>, line: nat)
    requires line > 0
    ensures Contiguous(Cuts(addr, enable, line), addr, addr + |enable|)
    decreases |enable|
  {
    if enable != [] {
      var n := FirstPart(addr, |enable|, line);
      CutsAreContiguous(addr + n, enable[n..], line);
      ContiguousCons(Fragment(addr, enable[..n]), Cuts(addr + n, enable[n..], line), addr + |enable|);
    }
  }

  lemma {:induction false} CutsKeepEnables(addr: nat, enable: seq<bool>, line: nat)
    requires line > 0
    ensures Enables(Cuts(addr, enable, line)) == enable
    decreases |enable|
  {
    if enable != [] {
      var n := FirstPart(addr, |enable|, line);
      var f, tail := Fragment(addr, enable[..n]), Cuts(addr + n, enable[n..], line);
      CutsKeepEnables(addr + n, enable[n..], line);
      assert Cuts(addr, enable, line) == [f] + tail;
      hide Cuts;
      assert ([f] + tail)[1..] == tail;
      assert enable == enable[..n] + enable[n..];
    }
  }

  lemma {:induction false} CutsStayInLines(addr: nat, enable: seq<bool>, line: nat, k: nat)
    requires line > 0 && k < |Cuts(addr, enable, line)|
    ensures InOneLine(Cuts(addr, enable, line)[k], line)
    ensures k > 0 ==> Cuts(addr, enable, line)[k].addr % line == 0
    decreases |enable|
  {
    if k > 0 {
      var n := FirstPart(addr, |enable|, line);
      CutsStayInLines(addr + n, enable[n..], line, k - 1);
      NextLine(addr, line);
    }
  }

  /** Candidate fragments tile the access: in order, without gap or overlap, each inside one line, cut only at lines. */
  lemma CutsTile(addr: nat, enable: seq<bool>, line: nat)
    requires line > 0
    ensures var fs := Cuts(addr, enable, line);
            && Contiguous(fs, addr, addr + |enable|) && Enables(fs) == enable
            && (forall k | 0 <= k < |fs| :: InOneLine(fs[k], line))
            && (forall k | 0 < k < |fs| :: fs[k].addr % line == 0)
  {
    CutsAreContiguous(addr, enable, line);
    CutsKeepEnables(addr, enable, line);
    var fs := Cuts(addr, enable, line);
    forall k | 0 <= k < |fs| ensures InOneLine(fs[k], line) && (k > 0 ==> fs[k].addr % line == 0) {
      CutsStayInLines(addr, enable, line, k);
    }
  }

  lemma NextLine(addr: nat, line: nat)
    requires line > 0
    ensures addr + (line - addr % line) == BlockAlign(addr, line) + line
    ensures (addr + (line - addr % line)) % line == 0
  {
    assert addr + (line - addr % line) == (addr / line + 1) * line;
    DivModUnique(addr / line + 1, 0, line);
  }

  lemma {:induction false} KeptConcat(fs: seq<Fragment>, gs: seq<Fragment>)
    ensures Kept(fs + gs) == Kept(fs) + Kept(gs)
  {
    if gs == [] {
      assert fs + gs == fs && Kept(gs) == [];
    } else {
      KeptConcat(fs, gs[..|gs| - 1]);
      assert (fs + gs)[..|fs + gs| - 1] == fs + gs[..|gs| - 1];
      assert (fs + gs)[|fs + gs| - 1] == gs[|gs| - 1];
    }
  }

  // ---- The request ------------------------------------------------------------------------------

  /** When a request is split at all: it reaches past the line it starts in. */
  predicate NeedsBurst(addr: nat, size: nat, line: nat)
    requires line > 0
  {
    addr % line + size > line
  }

  /** The line an access ends in, counted from the line it starts in. */
  lemma AlignEnd(addr: nat, size: nat, line: nat)
    requires line > 0
    ensures BlockAlign(addr + size, line) == (addr / line + (addr % line + size) / line) * line
  {
    var q, rest := addr / line, addr % line + size;
    var m, r := rest / line, rest % line;
    assert q * line + m * line == (q + m) * line;
    assert addr + size == (q + m) * line + r;
    DivModUnique(q + m, r, line);
  }

  lemma LinesApart(q: nat, m: nat, line: nat)
    ensures (q + m) * line - (q + 1) * line == (m - 1) * line
  {
  }

  lemma DivAtLeastOne(a: nat, line: nat)
    requires line > 0
    ensures a / line >= 1 <==> a >= line
  {
  }

  /** The loop over whole lines runs from the line after the first to the line the access ends in. */
  lemma LoopEndsExactly(addr: nat, size: nat, line: nat)
    requires line > 0
    ensures BlockAlign(addr + line, line) <= BlockAlign(addr + size, line) <==> addr % line + size >= line
  {
    hide BlockAlign;
    var q, m := addr / line, (addr % line + size) / line;
    AlignEnd(addr, size, line);
    FirstPlusLine(addr, line);
    LinesApart(q, m, line);
    Multiples(m - 1, line);
    DivAtLeastOne(addr % line + size, line);
    assert BlockAlign(addr + size, line) - BlockAlign(addr + line, line) == (m - 1) * line;
  }

  lemma FirstPlusLine(addr: nat, line: nat)
    requires line > 0
    ensures BlockAlign(addr + line, line) == (addr / line + 1) * line
  {
    AddLine(addr, line);
    assert addr / line * line + line == (addr / line + 1) * line;
  }

  // ---- Bytes ------------------------------------------------------------------------------------

  predicate Holds(f: Fragment, a: nat)
  {
    f.addr <= a < End(f)
  }

  predicate Enabled(f: Fragment, a: nat)
  {
    Holds(f, a) && f.enable[a - f.addr]
  }

  /** The fragment is the access's own slice. */
  predicate SliceOf(f: Fragment, addr: nat, enable: seq<bool>)
  {
    addr <= f.addr && End(f) <= addr + |enable| && f.enable == enable[f.addr - addr..End(f) - addr]
  }

  lemma {:induction false} CutsAreSlices(addr: nat, enable: seq<bool>, line: nat, k: nat)
    requires line > 0 && k < |Cuts(addr, enable, line)|
    ensures SliceOf(Cuts(addr, enable, line)[k], addr, enable)
    decreases |enable|
  {
    if k > 0 {
      var n := FirstPart(addr, |enable|, line);
      CutsAreSlices(addr + n, enable[n..], line, k - 1);
    }
  }

  /** Which cut a byte falls into. */
  function CutOf(addr: nat, enable: seq<bool>, line: nat, i: nat): (k: nat)
    requires line > 0 && i < |enable|
    ensures k < |Cuts(addr, enable, line)| && Holds(Cuts(addr, enable, line)[k], addr + i)
    decreases |enable|
  {
    var n := FirstPart(addr, |enable|, line);
    if i < n then 0 else 1 + CutOf(addr + n, enable[n..], line, i - n)
  }

  ghost predicate EnabledIn(fs: seq<Fragment>, a: nat)
  {
    exists f :: f in fs && Enabled(f, a)
  }

  /** A byte is enabled in some kept fragment exactly when the access enables it: only dead fragments are dropped. */
  lemma KeptEnablesExactly(addr: nat, enable: seq<bool>, line: nat, a: nat)
    requires line > 0
    ensures EnabledIn(Kept(Cuts(addr, enable, line)), a) <==> addr <= a < addr + |enable| && enable[a - addr]
  {
    var fs := Cuts(addr, enable, line);
    forall f | f in fs ensures SliceOf(f, addr, enable) {
      var k :| 0 <= k < |fs| && fs[k] == f;
      CutsAreSlices(addr, enable, line, k);
    }
    if addr <= a < addr + |enable| && enable[a - addr] {
      var f := fs[CutOf(addr, enable, line, a - addr)];
      hide Cuts, Kept;
      assert SliceOf(f, addr, enable) && Enabled(f, a);
      assert f.enable[a - f.addr] in f.enable;
      assert f in Kept(fs);
    }
  }

  // ---- Packets ----------------------------------------------------------------------------------

  /** A packet to the cache: `offset` is where its bytes lie in the instruction's own buffer. */
  datatype Packet = Packet(fragment: Fragment, offset: nat, data: Bytes)

  predicate Carries(p: Packet, addr: nat, data: Bytes)
  {
    && addr <= p.fragment.addr && p.offset == p.fragment.addr - addr && End(p.fragment) <= addr + |data|
    && |p.data| == |p.fragment.enable|
    && p.data == data[p.offset..p.offset + |p.fragment.enable|]
  }

  ghost predicate AllCarry(ps: seq<Packet>, addr: nat, data: Bytes)
  {
    forall k {:trigger ps[k]} | 0 <= k < |ps| :: Carries(ps[k], addr, data)
  }

  function PacketFor(f: Fragment, addr: nat, data: Bytes): (p: Packet)
    requires addr <= f.addr && End(f) <= addr + |data|
    ensures Carries(p, addr, data) && p.fragment == f
  {
    Packet(f, f.addr - addr, data[f.addr - addr..End(f) - addr])
  }

  /** Write the enabled bytes. */
  function PutEnabled(m: Contents, f: Fragment, data: Bytes): (n: Contents)
    requires |data| == |f.enable|
    ensures forall a: nat :: Lookup(n, a) == if Enabled(f, a) then data[a - f.addr] else Lookup(m, a)
  {
    m + map a: nat | f.addr <= a < End(f) && Enabled(f, a) :: data[a - f.addr]
  }

  function PutAll(m: Contents, ps: seq<Packet>): Contents
    requires forall k | 0 <= k < |ps| :: |ps[k].data| == |ps[k].fragment.enable|
  {
    if ps == [] then m
    else PutEnabled(PutAll(m, ps[..|ps| - 1]), ps[|ps| - 1].fragment, ps[|ps| - 1].data)
  }

  ghost predicate SomeEnabled(ps: seq<Packet>, a: nat)
  {
    exists k :: 0 <= k < |ps| && Enabled(ps[k].fragment, a)
  }

  lemma SomeEnabledStep(ps: seq<Packet>, a: nat)
    requires ps != []
    ensures SomeEnabled(ps, a) <==> SomeEnabled(ps[..|ps| - 1], a) || Enabled(ps[|ps| - 1].fragment, a)
  {
    var init := ps[..|ps| - 1];
    assert forall k | 0 <= k < |init| :: init[k] == ps[k];
  }

  lemma {:induction false} PutAllAt(m: Contents, ps: seq<Packet>, addr: nat, data: Bytes, a: nat)
    requires AllCarry(ps, addr, data)
    ensures SomeEnabled(ps, a) ==> addr <= a < addr + |data| && Lookup(PutAll(m, ps), a) == data[a - addr]
    ensures !SomeEnabled(ps, a) ==> Lookup(PutAll(m, ps), a) == Lookup(m, a)
  {
    if ps != [] {
      var init, p := ps[..|ps| - 1], ps[|ps| - 1];
      assert forall k | 0 <= k < |init| :: init[k] == ps[k];
      PutAllAt(m, init, addr, data, a);
      assert ps[|ps| - 1] == p;
      SomeEnabledStep(ps, a);
      if Enabled(p.fragment, a) {
        assert p.data[a - p.fragment.addr] == data[a - addr];
      }
      hide SomeEnabled;
    }
  }

  /** The packets are those of the kept fragments, each once or more, in any order. */
  ghost predicate PacketsOf(ps: seq<Packet>, fs: seq<Fragment>, addr: nat, data: Bytes)
  {
    && AllCarry(ps, addr, data) && (forall k | 0 <= k < |ps| :: ps[k].fragment in fs)
    && (forall f | f in fs :: exists k :: 0 <= k < |ps| && ps[k].fragment == f)
  }

  lemma SameEnabled(ps: seq<Packet>, fs: seq<Fragment>, addr: nat, data: Bytes, a: nat)
    requires PacketsOf(ps, fs, addr, data)
    ensures SomeEnabled(ps, a) <==> EnabledIn(fs, a)
  {
    if EnabledIn(fs, a) {
      var f :| f in fs && Enabled(f, a);
      var k :| 0 <= k < |ps| && ps[k].fragment == f;
      assert Enabled(ps[k].fragment, a);
    }
  }

  /** A split store means the same as the whole store, in whatever order the cache takes its packets. */
  lemma SplitStoreIsStore(m: Contents, ps: seq<Packet>, addr: nat, enable: seq<bool>, data: Bytes, line: nat, a: nat)
    requires line > 0 && |data| == |enable|
    requires PacketsOf(ps, Kept(Cuts(addr, enable, line)), addr, data)
    ensures Lookup(PutAll(m, ps), a) == Lookup(PutEnabled(m, Fragment(addr, enable), data), a)
  {
    var fs := Kept(Cuts(addr, enable, line));
    KeptEnablesExactly(addr, enable, line, a);
    SameEnabled(ps, fs, addr, data, a);
    PutAllAt(m, ps, addr, data, a);
    hide Cuts, Kept, PutAll, EnabledIn, SomeEnabled, Carries, Lookup;
  }

  /** A load's replies, each copied to its own place in the instruction's buffer. */
  function CopyAll(buf: Bytes, ps: seq<Packet>): (r: Bytes)
    requires forall k | 0 <= k < |ps| :: ps[k].offset + |ps[k].data| <= |buf|
    ensures |r| == |buf|
  {
    if ps == [] then buf
    else
      var r, p := CopyAll(buf, ps[..|ps| - 1]), ps[|ps| - 1];
      r[..p.offset] + p.data + r[p.offset + |p.data|..]
  }

  ghost predicate SomeHolds(ps: seq<Packet>, a: nat)
  {
    exists k :: 0 <= k < |ps| && Holds(ps[k].fragment, a)
  }

  lemma SomeHoldsStep(ps: seq<Packet>, a: nat)
    requires ps != []
    ensures SomeHolds(ps, a) <==> SomeHolds(ps[..|ps| - 1], a) || Holds(ps[|ps| - 1].fragment, a)
  {
    var init := ps[..|ps| - 1];
    assert forall k | 0 <= k < |init| :: init[k] == ps[k];
  }

  lemma EnabledHolds(ps: seq<Packet>, a: nat)
    requires SomeEnabled(ps, a)
    ensures SomeHolds(ps, a)
  {
    var k :| 0 <= k < |ps| && Enabled(ps[k].fragment, a);
    assert Holds(ps[k].fragment, a);
  }

  lemma SpliceAt(r: Bytes, offset: nat, d: Bytes, i: nat)
    requires offset + |d| <= |r| && i < |r|
    ensures (r[..offset] + d + r[offset + |d|..])[i] == if offset <= i < offset + |d| then d[i - offset] else r[i]
  {
  }

  lemma {:induction false} CopyAllAt(buf: Bytes, ps: seq<Packet>, addr: nat, data: Bytes, i: nat)
    requires i < |buf| == |data| && AllCarry(ps, addr, data)
    ensures CopyAll(buf, ps)[i] == if SomeHolds(ps, addr + i) then data[i] else buf[i]
  {
    if ps != [] {
      var init, p := ps[..|ps| - 1], ps[|ps| - 1];
      assert forall k | 0 <= k < |init| :: init[k] == ps[k];
      CopyAllAt(buf, init, addr, data, i);
      assert ps[|ps| - 1] == p;
      SomeHoldsStep(ps, addr + i);
      var r := CopyAll(buf, init);
      SpliceAt(r, p.offset, p.data, i);
      assert CopyAll(buf, ps) == r[..p.offset] + p.data + r[p.offset + |p.data|..];
      hide SomeHolds, CopyAll;
    }
  }

  lemma ReadAt(m: Contents, addr: nat, size: nat, i: nat)
    requires i < size
    ensures |ReadBytes(m, addr, size)| == size && ReadBytes(m, addr, size)[i] == Lookup(m, addr + i)
  {
  }

  /** A split load delivers every enabled byte of what memory holds, in whatever order the replies come. */
  lemma SplitLoadIsLoad(m: Contents, buf: Bytes, ps: seq<Packet>, addr: nat, enable: seq<bool>, line: nat, i: nat)
    requires line > 0 && |buf| == |enable| && i < |enable| && enable[i]
    requires PacketsOf(ps, Kept(Cuts(addr, enable, line)), addr, ReadBytes(m, addr, |enable|))
    ensures CopyAll(buf, ps)[i] == Lookup(m, addr + i)
  {
    var fs, data := Kept(Cuts(addr, enable, line)), ReadBytes(m, addr, |enable|);
    KeptEnablesExactly(addr, enable, line, addr + i);
    SameEnabled(ps, fs, addr, data, addr + i);
    EnabledHolds(ps, addr + i);
    CopyAllAt(buf, ps, addr, data, i);
    ReadAt(m, addr, |enable|, i);
    hide Cuts, Kept, CopyAll, EnabledIn, SomeHolds, SomeEnabled, Carries, ReadBytes, Lookup;
  }

  predicate Inside(fs: seq<Fragment>, addr: nat, size: nat)
  {
    forall k | 0 <= k < |fs| :: addr <= fs[k].addr && End(fs[k]) <= addr + size
  }

  /** One packet a fragment, in order. */
  function PacketsFor(fs: seq<Fragment>, addr: nat, data: Bytes): (ps: seq<Packet>)
    requires Inside(fs, addr, |data|)
    ensures |ps| == |fs|
  {
    seq(|fs|, k requires 0 <= k < |fs| => PacketFor(fs[k], addr, data))
  }

  /** What a request without faults builds is one packet for each kept fragment. */
  lemma BuiltPacketsFit(addr: nat, enable: seq<bool>, data: Bytes, line: nat)
    requires line > 0 && |data| == |enable|
    ensures var fs := Kept(Cuts(addr, enable, line));
            Inside(fs, addr, |data|) && PacketsOf(PacketsFor(fs, addr, data), fs, addr, data)
  {
    var all, fs := Cuts(addr, enable, line), Kept(Cuts(addr, enable, line));
    forall k | 0 <= k < |fs| ensures addr <= fs[k].addr && End(fs[k]) <= addr + |data| {
      assert fs[k] in all;
      var j :| 0 <= j < |all| && all[j] == fs[k];
      CutsAreSlices(addr, enable, line, j);
    }
    var ps := PacketsFor(fs, addr, data);
    forall f | f in fs ensures exists k :: 0 <= k < |ps| && ps[k].fragment == f {
      var k :| 0 <= k < |fs| && fs[k] == f;
      assert ps[k].fragment == f;
    }
  }

  /** An access is cut in more than one piece exactly when it reaches past its first line. */
  lemma SplitExactlyWhenNeeded(addr: nat, enable: seq<bool>, line: nat)
    requires line > 0
    ensures |Cuts(addr, enable, line)| > 1 <==> NeedsBurst(addr, |enable|, line)
  {
    if enable != [] {
      var n := FirstPart(addr, |enable|, line);
      assert |Cuts(addr, enable, line)| == 1 + |Cuts(addr + n, enable[n..], line)|;
      assert |Cuts(addr + n, enable[n..], line)| > 0 <==> n < |enable|;
    }
  }

  // ---- The request object -----------------------------------------------------------------------

  /** The part before the next line. */
  lemma PrefixCut(addr: nat, enable: seq<bool>, line: nat)
    requires line > 0 && NeedsBurst(addr, |enable|, line)
    ensures var n := BlockAlign(addr + line, line) - addr;
            && 0 < n < |enable| && (addr + n) % line == 0
            && Cuts(addr, enable, line) == [Fragment(addr, enable[..n])] + Cuts(addr + n, enable[n..], line)
  {
    NextLine(addr, line);
    AddLine(addr, line);
  }

  /** A whole line in the middle. */
  lemma LineCut(addr: nat, enable: seq<bool>, done: nat, line: nat)
    requires line > 0 && addr % line == 0 && done + line <= |enable|
    ensures Cuts(addr, enable[done..], line) ==
            [Fragment(addr, enable[done..done + line])] + Cuts(addr + line, enable[done + line..], line)
    ensures (addr + line) % line == 0
  {
    assert enable[done..][..line] == enable[done..done + line];
    assert enable[done..][line..] == enable[done + line..];
    NextLine(addr, line);
  }

  /** The tail. */
  lemma TailCut(addr: nat, enable: seq<bool>, line: nat)
    requires line > 0 && addr % line == 0 && |enable| < line
    ensures Cuts(addr, enable, line) == if enable == [] then [] else [Fragment(addr, enable)]
  {
    if enable != [] {
      assert enable[..|enable|] == enable && enable[|enable|..] == [];
      assert Cuts(addr + |enable|, [], line) == [];
    }
  }

  lemma AlignedGap(a: nat, b: nat, line: nat)
    requires line > 0 && a % line == b % line == 0 && a < b
    ensures a + line <= b
  {
    assert b - a == (b / line - a / line) * line;
    Multiples(b / line - a / line, line);
  }

  /** Collected so far, and what the remaining bytes will add to make `all`. */
  ghost predicate Remaining(reqs: seq<Fragment>, base: nat, enable: seq<bool>, line: nat, all: seq<Fragment>)
    requires line > 0
  {
    reqs + Kept(Cuts(base, enable, line)) == all
  }

  lemma RemainingStep(reqs: seq<Fragment>, f: Fragment, base: nat, enable: seq<bool>, rest: seq<bool>, line: nat,
                      all: seq<Fragment>)
    requires line > 0 && Remaining(reqs, base, enable, line, all)
    requires Cuts(base, enable, line) == [f] + Cuts(End(f), rest, line)
    ensures Remaining(reqs + Kept([f]), End(f), rest, line, all)
  {
    var cuts := Cuts(End(f), rest, line);
    KeptConcat([f], cuts);
    hide Cuts, Kept;
    assert reqs + (Kept([f]) + Kept(cuts)) == (reqs + Kept([f])) + Kept(cuts);
  }

  lemma RemainingStart(base: nat, enable: seq<bool>, line: nat)
    requires line > 0
    ensures Remaining([], base, enable, line, Kept(Cuts(base, enable, line)))
  {
    assert [] + Kept(Cuts(base, enable, line)) == Kept(Cuts(base, enable, line));
  }

  lemma RemainingEnd(reqs: seq<Fragment>, base: nat, enable: seq<bool>, line: nat, all: seq<Fragment>)
    requires line > 0 && Remaining(reqs, base, enable, line, all)
    requires Cuts(base, enable, line) == if enable == [] then [] else [Fragment(base, enable)]
    ensures all == if enable == [] then reqs else reqs + Kept([Fragment(base, enable)])
  {
    assert Kept([]) == [] && reqs + [] == reqs;
  }

  class SplitDataRequest {
    const addr: nat
    const byteEnable: seq<bool>
    var reqs: seq<Fragment>
    var packets: seq<Packet>

    constructor (addr: nat, byteEnable: seq<bool>)
      ensures this.addr == addr && this.byteEnable == byteEnable && reqs == [] && packets == []
    {
      this.addr, this.byteEnable := addr, byteEnable;
      reqs, packets := [], [];
    }

    method AddReq(f: Fragment)
      modifies `reqs
      ensures reqs == old(reqs) + Kept([f])
    {
      assert [f][..0] == [] && Kept([]) == [];
      if true in f.enable {
        reqs := reqs + [f];
      }
    }

    /** The prefix up to the next line, then whole lines, then the tail. */
    method InitiateTranslation(line: nat)
      requires line > 0 && NeedsBurst(addr, |byteEnable|, line) && reqs == []
      modifies `reqs
      ensures reqs == Kept(Cuts(addr, byteEnable, line))
    {
      hide Cuts, Kept, Remaining;
      var size := |byteEnable|;
      var base := addr;
      var next := BlockAlign(addr + line, line);
      var final := BlockAlign(addr + size, line);
      ghost var all := Kept(Cuts(addr, byteEnable, line));
      LoopEndsExactly(addr, size, line);
      PrefixCut(addr, byteEnable, line);
      RemainingStart(addr, byteEnable, line);
      RemainingStep(reqs, Fragment(base, byteEnable[..next - base]), base, byteEnable, byteEnable[next - base..], line, all);
      AddReq(Fragment(base, byteEnable[..next - base]));
      var sizeSoFar := next - base;
      base := next;
      while base != final
        invariant base == addr + sizeSoFar && sizeSoFar <= size && base <= final && base % line == 0
        invariant Remaining(reqs, base, byteEnable[sizeSoFar..], line, all)
        decreases final - base
      {
        AlignedGap(base, final, line);
        LineCut(base, byteEnable, sizeSoFar, line);
        var f := Fragment(base, byteEnable[sizeSoFar..sizeSoFar + line]);
        RemainingStep(reqs, f, base, byteEnable[sizeSoFar..], byteEnable[sizeSoFar + line..], line, all);
        AddReq(f);
        sizeSoFar := sizeSoFar + line;
        base := base + line;
      }
      TailCut(base, byteEnable[sizeSoFar..], line);
      RemainingEnd(reqs, base, byteEnable[sizeSoFar..], line, all);
      if sizeSoFar < size {
        AddReq(Fragment(base, byteEnable[sizeSoFar..]));
      }
    }

    /** Packets are built once, for the fragments before the first one whose translation faulted. */
    method BuildPackets(faults: seq<bool>, memData: Bytes)
      requires |faults| == |reqs| && Inside(reqs, addr, |memData|)
      requires packets != [] || (reqs != [] && !faults[0])
      modifies `packets
      ensures packets != []
      ensures old(packets) != [] ==> packets == old(packets)
      ensures old(packets) == [] ==>
                && |packets| <= |reqs| && (forall k | 0 <= k < |packets| :: !faults[k])
                && (|packets| < |reqs| ==> faults[|packets|])
                && packets == PacketsFor(reqs[..|packets|], addr, memData)
    {
      if packets == [] {
        var i := 0;
        while i < |reqs| && !faults[i]
          invariant i <= |reqs| && |packets| == i && forall k | 0 <= k < i :: !faults[k]
          invariant packets == PacketsFor(reqs[..i], addr, memData)
        {
          var offset := reqs[i].addr - addr;
          packets := packets + [Packet(reqs[i], offset, memData[offset..offset + |reqs[i].enable|])];
          i := i + 1;
        }
      }
      assert |packets| > 0;
    }
  }
}
