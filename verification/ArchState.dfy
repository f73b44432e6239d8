/** Architectural registers across a runahead period: rename maps, free list, checkpoint and restore. */
module ArchState {
  import opened Prelude

  // ---- One class of registers -------------------------------------------------------------------

  /** A renamed destination that has not committed: the mapping made and the one it replaced. */
  datatype History = History(seqNum: nat, arch: nat, newReg: nat, prevReg: nat)

  /** A checkpoint of one class: values by architectural register, and which of them are valid. */
  datatype Checkpoint = Checkpoint(values: seq<int>, validIdxs: seq<nat>)

  /** `history` is newest first; `free` is a queue whose head is `free[0]`. */
  datatype Bank = Bank(renameMap: seq<nat>, commitMap: seq<nat>, free: seq<nat>, history: seq<History>,
                       file: seq<int>, poisoned: seq<bool>, scoreboard: seq<bool>, checkpoint: Checkpoint)
  {
    function NumPhys(): nat { |file| }

    function NumArch(): nat { |renameMap| }
  }

  function Range(lo: nat, hi: nat): seq<nat>
    requires lo <= hi
  {
    seq(hi - lo, k => lo + k)
  }

  function Prevs(h: seq<History>): multiset<nat>
  {
    if h == [] then multiset{} else multiset{h[0].prevReg} + Prevs(h[1..])
  }

  function News(h: seq<History>): multiset<nat>
  {
    if h == [] then multiset{} else multiset{h[0].newReg} + News(h[1..])
  }

  /** The map with all renames in the history undone, newest first. */
  function Undo(m: seq<nat>, h: seq<History>): seq<nat>
    requires forall k | 0 <= k < |h| :: h[k].arch < |m|
    decreases |h|
  {
    if h == [] then m else Undo(m[h[0].arch := h[0].prevReg], h[1..])
  }

  /** Each undo finds the mapping that its rename made. */
  predicate Chained(m: seq<nat>, h: seq<History>)
    decreases |h|
  {
    h == [] || (h[0].arch < |m| && m[h[0].arch] == h[0].newReg && Chained(m[h[0].arch := h[0].prevReg], h[1..]))
  }

  predicate ArchsInRange(b: Bank)
  {
    forall k | 0 <= k < |b.history| :: b.history[k].arch < |b.renameMap|
  }

  /** Every physical register is free, mapped, or waiting in the history to be freed: exactly one of the three. */
  predicate Accounted(b: Bank)
  {
    multiset(b.free) + multiset(b.renameMap) + Prevs(b.history) == multiset(Range(0, b.NumPhys()))
  }

  predicate BankShape(b: Bank)
  {
    && |b.commitMap| == |b.renameMap| && |b.poisoned| == |b.scoreboard| == b.NumPhys()
    && (forall a | 0 <= a < |b.commitMap| :: b.commitMap[a] < b.NumPhys())
    && ArchsInRange(b)
  }

  predicate BankInv(b: Bank)
  {
    BankShape(b) && Accounted(b) && Chained(b.renameMap, b.history)
  }

  /** In normal mode the commit map is what undoing every uncommitted rename gives. */
  predicate CommitMapRight(b: Bank)
    requires ArchsInRange(b)
  {
    Undo(b.renameMap, b.history) == b.commitMap
  }

  predicate CheckpointFull(b: Bank)
  {
    |b.checkpoint.values| == b.NumArch() && b.checkpoint.validIdxs == Range(0, b.NumArch())
  }

  /** The architectural values of a class, read through the commit map. */
  function ArchValues(b: Bank): seq<int>
    requires BankShape(b)
  {
    seq(|b.commitMap|, a requires 0 <= a < |b.commitMap| => b.file[b.commitMap[a]])
  }

  // ---- Operations on one class ------------------------------------------------------------------

  function Rename(b: Bank, seqNum: nat, arch: nat): Bank
    requires b.free != [] && arch < b.NumArch() && b.free[0] < |b.scoreboard|
  {
    var p := b.free[0];
    b.(free := b.free[1..], renameMap := b.renameMap[arch := p],
       history := [History(seqNum, arch, p, b.renameMap[arch])] + b.history, scoreboard := b.scoreboard[p := false])
  }

  function Write(b: Bank, p: nat, val: int): Bank
    requires p < b.NumPhys()
  {
    b.(file := b.file[p := val])
  }

  /** Write-back of an instruction: its destination is ready, and poisoned or cured if it is a runahead one. */
  function Finish(b: Bank, p: nat, runahead: bool, poisoned: bool): Bank
    requires p < |b.scoreboard| == |b.poisoned|
  {
    b.(scoreboard := b.scoreboard[p := true], poisoned := if runahead then b.poisoned[p := poisoned] else b.poisoned)
  }

  /** The oldest rename commits: the register it replaced is free. Only a real commit updates the commit map. */
  function Retire(b: Bank, runahead: bool): Bank
    requires b.history != [] && b.history[|b.history| - 1].arch < |b.commitMap|
  {
    var h := b.history[|b.history| - 1];
    b.(history := b.history[..|b.history| - 1], free := b.free + [h.prevReg],
       commitMap := if runahead then b.commitMap else b.commitMap[h.arch := h.newReg])
  }

  /** Undo renames younger than `n`, newest first. */
  function Squash(b: Bank, n: nat): Bank
    requires ArchsInRange(b)
    decreases |b.history|
  {
    if b.history != [] && b.history[0].seqNum > n then
      var h := b.history[0];
      Squash(b.(history := b.history[1..], renameMap := b.renameMap[h.arch := h.prevReg], free := b.free + [h.newReg]), n)
    else b
  }

  function Save(b: Bank): Bank
    requires BankShape(b)
  {
    b.(checkpoint := Checkpoint(ArchValues(b), Range(0, b.NumArch())))
  }

  /** Physical register N for architectural register N, everything else free; saved classes get their values back. */
  function Restore(b: Bank, saved: bool): Bank
    requires b.NumArch() <= b.NumPhys() && (saved ==> CheckpointFull(b))
  {
    var n := b.NumArch();
    b.(renameMap := Range(0, n), commitMap := Range(0, n), free := Range(n, b.NumPhys()), history := [],
       scoreboard := seq(|b.scoreboard|, p requires 0 <= p < |b.scoreboard| => p < n || b.scoreboard[p]),
       poisoned := seq(|b.poisoned|, _ => false),
       file := if saved then b.checkpoint.values + b.file[n..] else b.file,
       checkpoint := if saved then b.checkpoint.(validIdxs := []) else b.checkpoint)
  }

  // ---- What the operations keep -----------------------------------------------------------------

  lemma UpdateCount(m: seq<nat>, i: nat, x: nat, p: nat)
    requires i < |m|
    ensures multiset(m[i := x])[p] == multiset(m)[p] - (if m[i] == p then 1 else 0) + (if x == p then 1 else 0)
  {
    assert m == m[..i] + [m[i]] + m[i + 1..];
    assert m[i := x] == m[..i] + [x] + m[i + 1..];
  }

  /** The map plus what the history will free is the undone map plus what the history made, register by register. */
  lemma {:induction false} UndoExchanges(m: seq<nat>, h: seq<History>, p: nat)
    requires Chained(m, h) && forall k | 0 <= k < |h| :: h[k].arch < |m|
    ensures multiset(Undo(m, h))[p] + News(h)[p] == multiset(m)[p] + Prevs(h)[p]
    decreases |h|
  {
    if h != [] {
      UpdateCount(m, h[0].arch, h[0].prevReg, p);
      UndoExchanges(m[h[0].arch := h[0].prevReg], h[1..], p);
    }
  }

  lemma {:induction false} RangeOnce(lo: nat, hi: nat, p: nat)
    requires lo <= hi
    ensures multiset(Range(lo, hi))[p] == if lo <= p < hi then 1 else 0
    decreases hi - lo
  {
    if lo < hi {
      RangeOnce(lo, hi - 1, p);
      assert Range(lo, hi) == Range(lo, hi - 1) + [hi - 1];
    } else {
      assert Range(lo, hi) == [];
    }
  }

  lemma {:induction false} NewsMember(h: seq<History>, k: nat)
    requires k < |h|
    ensures h[k].newReg in News(h)
  {
    if k > 0 {
      NewsMember(h[1..], k - 1);
    }
  }

  lemma {:induction false} PrevsDropLast(h: seq<History>)
    requires h != []
    ensures Prevs(h) == Prevs(h[..|h| - 1]) + multiset{h[|h| - 1].prevReg}
  {
    var front, rest := h[..|h| - 1], h[1..];
    if rest == [] {
      assert front == [];
    } else {
      assert front[0] == h[0] && front[1..] == rest[..|rest| - 1];
      PrevsDropLast(rest);
      assert rest[|rest| - 1] == h[|h| - 1];
    }
  }

  lemma {:induction false} DropLastUndo(m: seq<nat>, h: seq<History>)
    requires h != [] && Chained(m, h) && forall k | 0 <= k < |h| :: h[k].arch < |m|
    ensures var last := h[|h| - 1];
            && Chained(m, h[..|h| - 1])
            && |Undo(m, h)| == |m|
            && Undo(m, h[..|h| - 1]) == Undo(m, h)[last.arch := last.newReg]
    decreases |h|
  {
    if |h| == 1 {
      assert h[..0] == [] && h[1..] == [];
      assert m == m[h[0].arch := h[0].prevReg][h[0].arch := h[0].newReg];
    } else {
      assert h[..|h| - 1][1..] == h[1..][..|h| - 2];
      DropLastUndo(m[h[0].arch := h[0].prevReg], h[1..]);
    }
  }

  lemma RenameKeepsInv(b: Bank, seqNum: nat, arch: nat)
    requires BankInv(b) && b.free != [] && arch < b.NumArch()
    ensures b.free[0] < b.NumPhys()
    ensures BankInv(Rename(b, seqNum, arch))
    ensures CommitMapRight(b) ==> CommitMapRight(Rename(b, seqNum, arch))
  {
    var p := b.free[0];
    RangeOnce(0, b.NumPhys(), p);
    assert p in multiset(b.free);
    var v := Rename(b, seqNum, arch);
    assert b.free == [p] + b.free[1..];
    assert v.history[1..] == b.history;
    assert v.renameMap[arch := b.renameMap[arch]] == b.renameMap;
  }

  /** A register that an uncommitted rename allocated exists, and is nobody's committed register. */
  lemma NewRegIsUncommitted(b: Bank, k: nat)
    requires BankInv(b) && k < |b.history|
    ensures b.history[k].newReg < b.NumPhys()
    ensures CommitMapRight(b) ==> b.history[k].newReg !in b.commitMap
  {
    var p := b.history[k].newReg;
    var undone := Undo(b.renameMap, b.history);
    UndoExchanges(b.renameMap, b.history, p);
    NewsMember(b.history, k);
    RangeOnce(0, b.NumPhys(), p);
    hide Undo, News, Prevs, Chained, Range;
    AccountedAt(b, p);
    assert multiset(undone)[p] == 0;
    assert p in undone <==> p in multiset(undone);
  }

  lemma AccountedAt(b: Bank, p: nat)
    requires Accounted(b)
    ensures multiset(b.free)[p] + multiset(b.renameMap)[p] + Prevs(b.history)[p] == multiset(Range(0, b.NumPhys()))[p]
  {
    hide Prevs, Range;
    assert (multiset(b.free) + multiset(b.renameMap) + Prevs(b.history))[p] == multiset(Range(0, b.NumPhys()))[p];
  }

  lemma RetireAccounted(b: Bank, runahead: bool)
    requires BankShape(b) && Accounted(b) && b.history != []
    ensures Accounted(Retire(b, runahead))
  {
    PrevsDropLast(b.history);
    hide Range, Prevs;
  }

  lemma RetireShape(b: Bank, runahead: bool)
    requires BankShape(b) && b.history != [] && b.history[|b.history| - 1].newReg < b.NumPhys()
    ensures BankShape(Retire(b, runahead))
  {
  }

  lemma RetireMap(b: Bank, runahead: bool)
    requires BankShape(b) && b.history != [] && Chained(b.renameMap, b.history) && ArchsInRange(Retire(b, runahead))
    ensures Chained(b.renameMap, Retire(b, runahead).history)
    ensures !runahead && CommitMapRight(b) ==> CommitMapRight(Retire(b, runahead))
  {
    DropLastUndo(b.renameMap, b.history);
    hide Undo, Chained;
  }

  lemma RetireKeepsInv(b: Bank, runahead: bool)
    requires BankInv(b) && b.history != []
    ensures BankInv(Retire(b, runahead))
    ensures !runahead && CommitMapRight(b) ==> CommitMapRight(Retire(b, runahead))
  {
    hide Accounted, Undo, Chained, CommitMapRight;
    RetireAccounted(b, runahead);
    NewRegIsUncommitted(b, |b.history| - 1);
    RetireShape(b, runahead);
    RetireMap(b, runahead);
  }

  lemma {:induction false} SquashKeepsInv(b: Bank, n: nat)
    requires BankInv(b)
    ensures var v := Squash(b, n);
            && BankInv(v) && v == b.(history := v.history, renameMap := v.renameMap, free := v.free)
            && |v.renameMap| == |b.renameMap| && |v.history| <= |b.history|
            && (CommitMapRight(b) ==> CommitMapRight(v))
            && (v.history != [] ==> v.history[0].seqNum <= n)
    decreases |b.history|
  {
    if b.history != [] && b.history[0].seqNum > n {
      var h := b.history[0];
      var c := b.(history := b.history[1..], renameMap := b.renameMap[h.arch := h.prevReg], free := b.free + [h.newReg]);
      assert multiset(c.renameMap) == multiset(b.renameMap) - multiset{h.newReg} + multiset{h.prevReg};
      SquashKeepsInv(c, n);
    }
  }

  /** Newest first: an instruction's renames come before those of older instructions. */
  predicate NewestFirst(h: seq<History>)
  {
    forall i, j | 0 <= i < j < |h| :: h[i].seqNum >= h[j].seqNum
  }

  /** Register `a` maps to what it did before the oldest of these renames, or is not one they renamed. */
  predicate UndoneAt(m: seq<nat>, r: seq<nat>, h: seq<History>, a: nat)
    requires a < |m| == |r|
  {
    && ((forall i | 0 <= i < |h| :: h[i].arch != a) ==> r[a] == m[a])
    && (forall i | 0 <= i < |h| && h[i].arch == a && (forall j | i < j < |h| :: h[j].arch != a) :: r[a] == h[i].prevReg)
  }

  /** `v` is `b` with exactly its `k` newest renames undone and their registers freed. */
  predicate Undone(b: Bank, v: Bank, k: nat)
  {
    && k <= |b.history| && |v.renameMap| == |b.renameMap|
    && v == b.(history := b.history[k..], renameMap := v.renameMap, free := v.free)
    && v.free == b.free + seq(k, i requires 0 <= i < k => b.history[i].newReg)
    && (forall a | 0 <= a < |b.renameMap| :: UndoneAt(b.renameMap, v.renameMap, b.history[..k], a))
  }

  /** `v` is `b` after a squash to `n`: undone are the renames that stand before the first one up to `n`. */
  predicate SquashedTo(b: Bank, v: Bank, n: nat)
  {
    && |v.history| <= |b.history|
    && var k := |b.history| - |v.history|;
    && Undone(b, v, k)
    && (forall i | 0 <= i < k :: b.history[i].seqNum > n)
    && (k < |b.history| ==> b.history[k].seqNum <= n)
  }

  lemma UndoneAtStep(m: seq<nat>, r: seq<nat>, h: seq<History>, a: nat)
    requires a < |m| == |r| && h != [] && h[0].arch < |m|
    requires UndoneAt(m[h[0].arch := h[0].prevReg], r, h[1..], a)
    ensures UndoneAt(m, r, h, a)
  {
    var rest := h[1..];
    assert forall i | 1 <= i < |h| :: h[i] == rest[i - 1];
    if forall i | 0 <= i < |rest| :: rest[i].arch != a {
      assert r[a] == if h[0].arch == a then h[0].prevReg else m[a];
    }
  }

  /** A squash undoes the renames younger than `n` that stand before the first that is not, and nothing else. */
  lemma {:induction false} SquashUndoes(b: Bank, n: nat)
    requires ArchsInRange(b)
    ensures SquashedTo(b, Squash(b, n), n)
    decreases |b.history|
  {
    hide Undone;
    if b.history == [] || b.history[0].seqNum <= n {
      NothingUndone(b);
    } else {
      var h := b.history[0];
      var c := b.(history := b.history[1..], renameMap := b.renameMap[h.arch := h.prevReg], free := b.free + [h.newReg]);
      SquashUndoes(c, n);
      UndoneStep(b, c, Squash(b, n), |c.history| - |Squash(c, n).history|);
    }
  }

  lemma NothingUndone(b: Bank)
    ensures Undone(b, b, 0)
  {
  }

  lemma UndoneStep(b: Bank, c: Bank, v: Bank, k: nat)
    requires b.history != [] && b.history[0].arch < |b.renameMap| && Undone(c, v, k)
    requires var h := b.history[0];
             c == b.(history := b.history[1..], renameMap := b.renameMap[h.arch := h.prevReg], free := b.free + [h.newReg])
    ensures Undone(b, v, k + 1)
  {
    var h := b.history[..k + 1];
    assert h[1..] == c.history[..k];
    forall a | 0 <= a < |b.renameMap| ensures UndoneAt(b.renameMap, v.renameMap, h, a) {
      UndoneAtStep(b.renameMap, v.renameMap, h, a);
    }
    hide UndoneAt;
  }

  /** With the history newest first, what a squash keeps is every rename up to `n`, and no other. */
  lemma SquashKeepsOlder(b: Bank, n: nat)
    requires ArchsInRange(b) && NewestFirst(b.history)
    ensures forall h :: h in Squash(b, n).history <==> h in b.history && h.seqNum <= n
  {
    SquashUndoes(b, n);
    var v := Squash(b, n);
    hide Squash, UndoneAt;
    var k := |b.history| - |v.history|;
    assert forall h | h in b.history :: h in b.history[..k] || h in b.history[k..];
  }

  /** Whatever the state, restoring gives a normal-mode state in which both maps agree and nothing is poisoned. */
  lemma RestoreGivesInv(b: Bank, saved: bool)
    requires BankInv(b) && (saved ==> CheckpointFull(b)) && b.NumArch() <= b.NumPhys()
    ensures var v := Restore(b, saved);
            && BankInv(v) && CommitMapRight(v) && v.renameMap == v.commitMap && v.history == []
            && (forall p | 0 <= p < v.NumPhys() :: !v.poisoned[p])
            && ArchValues(v) == if saved then b.checkpoint.values else b.file[..b.NumArch()]
  {
    var v := Restore(b, saved);
    var n := b.NumArch();
    assert Range(0, b.NumPhys()) == Range(0, n) + Range(n, b.NumPhys());
    assert |v.file| == |b.file|;
    forall a | 0 <= a < n ensures ArchValues(v)[a] == if saved then b.checkpoint.values[a] else b.file[a] {
    }
  }

  /** The restore readies the registers it maps and touches no value or ready bit of the others. */
  lemma RestoreSparesTheRest(b: Bank, saved: bool)
    requires BankShape(b) && (saved ==> CheckpointFull(b)) && b.NumArch() <= b.NumPhys()
    ensures var n, v := b.NumArch(), Restore(b, saved);
            && |v.file| == |b.file| && v.file[n..] == b.file[n..]
            && v.scoreboard == seq(n, _ => true) + b.scoreboard[n..]
  {
  }

  /** Free exactly when not mapped: what the free list holds once the history is empty. */
  lemma FreeIsComplement(b: Bank)
    requires BankInv(b) && b.history == []
    ensures forall i, j | 0 <= i < j < |b.renameMap| :: b.renameMap[i] != b.renameMap[j]
    ensures forall i, j | 0 <= i < j < |b.free| :: b.free[i] != b.free[j]
    ensures forall p: nat :: p in b.free <==> p < b.NumPhys() && p !in b.renameMap
  {
    forall p: nat ensures p in b.free <==> p < b.NumPhys() && p !in b.renameMap {
      RangeOnce(0, b.NumPhys(), p);
      assert multiset(b.free)[p] + multiset(b.renameMap)[p] == multiset(Range(0, b.NumPhys()))[p];
      assert p in b.free <==> p in multiset(b.free);
      assert p in b.renameMap <==> p in multiset(b.renameMap);
    }
    forall i, j | 0 <= i < j < |b.renameMap| ensures b.renameMap[i] != b.renameMap[j] {
      RangeOnce(0, b.NumPhys(), b.renameMap[i]);
      TwiceInMultiset(b.renameMap, i, j);
    }
    forall i, j | 0 <= i < j < |b.free| ensures b.free[i] != b.free[j] {
      RangeOnce(0, b.NumPhys(), b.free[i]);
      TwiceInMultiset(b.free, i, j);
    }
  }

  lemma TwiceInMultiset(s: seq<nat>, i: nat, j: nat)
    requires i < j < |s|
    ensures s[i] == s[j] ==> multiset(s)[s[i]] >= 2
  {
    assert s == s[..i] + [s[i]] + s[i + 1..j] + [s[j]] + s[j + 1..];
  }

  /** A speculative write misses every committed register. */
  lemma WriteMissesCommitted(b: Bank, k: nat, val: int)
    requires BankInv(b) && CommitMapRight(b) && k < |b.history|
    ensures b.history[k].newReg < b.NumPhys()
    ensures ArchValues(Write(b, b.history[k].newReg, val)) == ArchValues(b)
  {
    NewRegIsUncommitted(b, k);
    hide Accounted, Chained, CommitMapRight;
    var v := Write(b, b.history[k].newReg, val);
    forall a | 0 <= a < |b.commitMap| ensures ArchValues(v)[a] == ArchValues(b)[a] {
      assert b.commitMap[a] in b.commitMap;
    }
  }

  lemma {:induction false} RangeSize(lo: nat, hi: nat)
    requires lo <= hi
    ensures |multiset(Range(lo, hi))| == hi - lo
  {
  }

  /** There are at least as many physical registers as architectural ones. */
  lemma EnoughRegisters(b: Bank)
    requires BankInv(b)
    ensures b.NumArch() <= b.NumPhys()
  {
    RangeSize(0, b.NumPhys());
    assert |multiset(b.renameMap)| == |b.renameMap|;
    assert multiset(b.renameMap) <= multiset(Range(0, b.NumPhys()));
    SubsetIsSmaller(multiset(b.renameMap), multiset(Range(0, b.NumPhys())));
  }

  lemma SubsetIsSmaller(a: multiset<nat>, c: multiset<nat>)
    requires a <= c
    ensures |a| <= |c|
  {
    assert c == a + (c - a);
  }
}
