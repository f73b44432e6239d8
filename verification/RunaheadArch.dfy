/** A runahead period, however long and whatever it does, leaves the architectural state as it found it. */
module RunaheadArch {
  import opened Prelude
  import opened ArchState

  /** Register classes in the order of the source: integer, float, vector, vector element, predicate, condition code. */
  const NUM_CLASSES := 6

  /** The checkpoint holds every class except whole vectors and vector predicates. */
  predicate Saved(c: nat)
  {
    c < NUM_CLASSES && c != 2 && c != 4
  }

  /** `restorePending`: runahead mode has been left, and the state will be restored next cycle. */
  datatype Cpu = Cpu(banks: seq<Bank>, pc: int, storedPc: int, runahead: bool, restorePending: bool)

  predicate InPeriod(w: Cpu)
  {
    w.runahead || w.restorePending
  }

  datatype Event =
    | RenameDest(c: nat, seqNum: nat, arch: nat)
    | Execute(c: nat, k: nat, reg: nat, val: int, isRunahead: bool)
    | Writeback(c: nat, reg: nat, isRunahead: bool, poisoned: bool)
    | CommitDest(c: nat)
    | CommitPc(pc: int)
    | SquashRenames(n: nat)
    | EnterRunahead
    | ExitRunahead
    | RestoreState

  /**
   * A normal instruction writes the register its own rename allocated; while a period lasts every instruction in
   * flight is a runahead one. Runahead instructions may write any register, during the period or after it.
   */
  predicate Guard(w: Cpu, e: Event)
  {
    && |w.banks| == NUM_CLASSES
    && match e
       case RenameDest(c, _, arch) =>
         c < NUM_CLASSES && w.banks[c].free != [] && arch < w.banks[c].NumArch() && !w.restorePending
       case Execute(c, k, reg, _, isRunahead) =>
         && c < NUM_CLASSES && reg < w.banks[c].NumPhys()
         && (!isRunahead ==> !InPeriod(w) && k < |w.banks[c].history| && reg == w.banks[c].history[k].newReg)
       case Writeback(c, reg, _, _) => c < NUM_CLASSES && reg < w.banks[c].NumPhys()
       case CommitDest(c) => c < NUM_CLASSES && w.banks[c].history != [] && !w.restorePending
       case CommitPc(_) => !w.restorePending
       case SquashRenames(_) => true
       case EnterRunahead => !InPeriod(w)
       case ExitRunahead => w.runahead
       case RestoreState => w.restorePending
  }

  function WithBank(w: Cpu, c: nat, b: Bank): Cpu
    requires c < |w.banks|
  {
    w.(banks := w.banks[c := b])
  }

  function Next(w: Cpu, e: Event): Cpu
    requires Inv(w) && Guard(w, e)
  {
    match e
    case RenameDest(c, seqNum, arch) =>
      RenameKeepsInv(w.banks[c], seqNum, arch);
      WithBank(w, c, Rename(w.banks[c], seqNum, arch))
    case Execute(c, _, reg, val, isRunahead) =>
      // a stale runahead instruction is skipped
      if isRunahead && !w.runahead then w else WithBank(w, c, Write(w.banks[c], reg, val))
    case Writeback(c, reg, isRunahead, poisoned) => WithBank(w, c, Finish(w.banks[c], reg, isRunahead, poisoned))
    case CommitDest(c) => WithBank(w, c, Retire(w.banks[c], w.runahead))
    case CommitPc(pc) => w.(pc := pc)
    case SquashRenames(n) =>
      w.(banks := seq(NUM_CLASSES, c requires 0 <= c < NUM_CLASSES => Squash(w.banks[c], n)))
    case EnterRunahead =>
      w.(banks := seq(NUM_CLASSES, c requires 0 <= c < NUM_CLASSES => if Saved(c) then Save(w.banks[c]) else w.banks[c]),
         storedPc := w.pc, runahead := true)
    case ExitRunahead => w.(runahead := false, restorePending := true, pc := w.storedPc)
    case RestoreState =>
      w.(banks := seq(NUM_CLASSES, c requires 0 <= c < NUM_CLASSES =>
                    EnoughRegisters(w.banks[c]);
                    Restore(w.banks[c], Saved(c))),
         restorePending := false)
  }

  predicate Inv(w: Cpu)
  {
    && |w.banks| == NUM_CLASSES && !(w.runahead && w.restorePending)
    && (forall c | 0 <= c < NUM_CLASSES :: BankInv(w.banks[c]))
    && (!InPeriod(w) ==> forall c | 0 <= c < NUM_CLASSES :: CommitMapRight(w.banks[c]))
    && (InPeriod(w) ==> forall c | 0 <= c < NUM_CLASSES && Saved(c) :: CheckpointFull(w.banks[c]))
  }

  // ---- The architectural state ------------------------------------------------------------------

  /** What the program sees of a saved class: the committed values, or during a period the checkpointed ones. */
  function ArchOf(w: Cpu, c: nat): seq<int>
    requires Inv(w) && Saved(c)
  {
    if InPeriod(w) then w.banks[c].checkpoint.values else ArchValues(w.banks[c])
  }

  function PcOf(w: Cpu): int
  {
    if w.runahead then w.storedPc else w.pc
  }

  /** A commit outside runahead: the one event that may change what the program sees. */
  predicate RealCommit(w: Cpu, e: Event)
  {
    !InPeriod(w) && (e.CommitDest? || e.CommitPc?)
  }

  // ---- Each step --------------------------------------------------------------------------------

  lemma BankStep(w: Cpu, v: Cpu, c: nat, b: Bank)
    requires Inv(w) && c < NUM_CLASSES && v == WithBank(w, c, b) && BankInv(b)
    requires !InPeriod(w) ==> CommitMapRight(b)
    requires InPeriod(w) && Saved(c) ==> CheckpointFull(b)
    ensures Inv(v)
  {
    hide BankInv, CommitMapRight, CheckpointFull;
  }

  lemma FileAndBitsAreFree(b: Bank, v: Bank)
    requires BankInv(b) && v == b.(file := v.file, scoreboard := v.scoreboard, poisoned := v.poisoned)
    requires |v.file| == |b.file| && |v.scoreboard| == |b.scoreboard| && |v.poisoned| == |b.poisoned|
    ensures BankInv(v) && (CommitMapRight(b) ==> CommitMapRight(v)) && (CheckpointFull(b) ==> CheckpointFull(v))
  {
  }

  lemma SaveFills(b: Bank)
    requires BankInv(b)
    ensures BankInv(Save(b)) && CheckpointFull(Save(b)) && Save(b).checkpoint.values == ArchValues(b)
  {
  }

  lemma RetireKeepsCheckpoint(b: Bank, runahead: bool)
    requires BankInv(b) && b.history != [] && CheckpointFull(b)
    ensures CheckpointFull(Retire(b, runahead))
  {
  }

  lemma LocalStepKeepsInv(w: Cpu, e: Event)
    requires Inv(w) && Guard(w, e)
    requires e.RenameDest? || e.Execute? || e.Writeback? || e.CommitDest?
    ensures Inv(Next(w, e))
  {
    var b := w.banks[e.c];
    var v := Next(w, e);
    match e
    case RenameDest(c, seqNum, arch) =>
      RenameKeepsInv(b, seqNum, arch);
      hide BankInv, CommitMapRight;
      BankStep(w, v, c, Rename(b, seqNum, arch));
    case Execute(c, k, reg, val, isRunahead) =>
      FileAndBitsAreFree(b, Write(b, reg, val));
      hide BankInv, CommitMapRight, CheckpointFull;
      if !(isRunahead && !w.runahead) {
        BankStep(w, v, c, Write(b, reg, val));
      }
    case Writeback(c, reg, isRunahead, poisoned) =>
      FileAndBitsAreFree(b, Finish(b, reg, isRunahead, poisoned));
      hide BankInv, CommitMapRight, CheckpointFull;
      BankStep(w, v, c, Finish(b, reg, isRunahead, poisoned));
    case CommitDest(c) =>
      RetireKeepsInv(b, w.runahead);
      if InPeriod(w) && Saved(c) {
        RetireKeepsCheckpoint(b, w.runahead);
      }
      hide BankInv, CommitMapRight, CheckpointFull;
      BankStep(w, v, c, Retire(b, w.runahead));
  }

  lemma SquashStepKeepsInv(w: Cpu, n: nat)
    requires Inv(w) && Guard(w, SquashRenames(n))
    ensures Inv(Next(w, SquashRenames(n)))
  {
    forall c | 0 <= c < NUM_CLASSES
      ensures var b := Squash(w.banks[c], n);
              && BankInv(b) && (CommitMapRight(w.banks[c]) ==> CommitMapRight(b))
              && (CheckpointFull(w.banks[c]) ==> CheckpointFull(b))
    {
      SquashKeepsInv(w.banks[c], n);
    }
    hide BankInv, CommitMapRight, CheckpointFull, Squash;
  }

  lemma PeriodStepKeepsInv(w: Cpu, e: Event)
    requires Inv(w) && Guard(w, e) && (e.EnterRunahead? || e.ExitRunahead? || e.RestoreState? || e.CommitPc?)
    ensures Inv(Next(w, e))
  {
    var v := Next(w, e);
    match e
    case EnterRunahead =>
      forall c | 0 <= c < NUM_CLASSES ensures BankInv(v.banks[c]) && (Saved(c) ==> CheckpointFull(v.banks[c])) {
        SaveFills(w.banks[c]);
      }
      hide BankInv, CommitMapRight, CheckpointFull;
    case RestoreState =>
      forall c | 0 <= c < NUM_CLASSES ensures BankInv(v.banks[c]) && CommitMapRight(v.banks[c]) {
        EnoughRegisters(w.banks[c]);
        RestoreGivesInv(w.banks[c], Saved(c));
      }
      hide BankInv, CommitMapRight, CheckpointFull, Restore;
    case _ => hide BankInv, CommitMapRight, CheckpointFull;
  }

  lemma StepKeepsInv(w: Cpu, e: Event)
    requires Inv(w) && Guard(w, e)
    ensures Inv(Next(w, e))
  {
    hide Inv;
    match e
    case SquashRenames(n) => SquashStepKeepsInv(w, n);
    case RenameDest(_, _, _) => LocalStepKeepsInv(w, e);
    case Execute(_, _, _, _, _) => LocalStepKeepsInv(w, e);
    case Writeback(_, _, _, _) => LocalStepKeepsInv(w, e);
    case CommitDest(_) => LocalStepKeepsInv(w, e);
    case _ => PeriodStepKeepsInv(w, e);
  }

  // ---- Every step but a real commit is invisible ------------------------------------------------

  lemma SquashedValues(b: Bank, n: nat)
    requires BankInv(b)
    ensures BankInv(Squash(b, n)) && ArchValues(Squash(b, n)) == ArchValues(b)
    ensures Squash(b, n).checkpoint == b.checkpoint
  {
    SquashKeepsInv(b, n);
    hide Squash, Chained, Accounted;
  }

  lemma StaleOrPeriodStep(w: Cpu, e: Event, c: nat)
    requires Inv(w) && Guard(w, e) && InPeriod(w) && Saved(c)
    ensures Inv(Next(w, e)) && ArchOf(Next(w, e), c) == ArchOf(w, c)
  {
    StepKeepsInv(w, e);
    match e
    case SquashRenames(n) =>
      SquashedValues(w.banks[c], n);
      hide BankInv, CommitMapRight, CheckpointFull, Squash, ArchValues;
    case RestoreState =>
      EnoughRegisters(w.banks[c]);
      RestoreGivesInv(w.banks[c], true);
      hide BankInv, CommitMapRight, CheckpointFull, Restore, ArchValues;
    case _ => hide BankInv, CommitMapRight, CheckpointFull, ArchValues;
  }

  lemma NormalStep(w: Cpu, e: Event, c: nat)
    requires Inv(w) && Guard(w, e) && !InPeriod(w) && Saved(c) && !RealCommit(w, e)
    ensures Inv(Next(w, e)) && ArchOf(Next(w, e), c) == ArchOf(w, c)
  {
    StepKeepsInv(w, e);
    match e
    case SquashRenames(n) =>
      SquashedValues(w.banks[c], n);
      hide BankInv, CommitMapRight, CheckpointFull, Squash, ArchValues;
    case EnterRunahead =>
      SaveFills(w.banks[c]);
      hide BankInv, CommitMapRight, CheckpointFull, Save, ArchValues;
    case Execute(d, k, reg, val, isRunahead) =>
      if !isRunahead {
        WriteMissesCommitted(w.banks[d], k, val);
      }
      hide BankInv, CommitMapRight, CheckpointFull, Write, ArchValues;
    case RenameDest(d, seqNum, arch) =>
      RenameKeepsInv(w.banks[d], seqNum, arch);
      hide Accounted, Chained, CommitMapRight, CheckpointFull;
    case Writeback(d, reg, isRunahead, poisoned) => hide Accounted, Chained, CommitMapRight, CheckpointFull;
  }

  /** No step except a commit in normal mode changes what the program sees. */
  lemma StepStutters(w: Cpu, e: Event, c: nat)
    requires Inv(w) && Guard(w, e) && Saved(c) && !RealCommit(w, e)
    ensures Inv(Next(w, e)) && ArchOf(Next(w, e), c) == ArchOf(w, c) && PcOf(Next(w, e)) == PcOf(w)
  {
    if InPeriod(w) {
      StaleOrPeriodStep(w, e, c);
    } else {
      NormalStep(w, e, c);
    }
    hide BankInv, CommitMapRight, CheckpointFull, ArchValues, ArchOf, Restore, Squash, Save, Retire, Write, Finish, Rename;
  }

  /** A real commit makes exactly its destination visible, with the value its instruction wrote. */
  lemma CommitShowsItsValue(w: Cpu, c: nat)
    requires Inv(w) && Guard(w, CommitDest(c)) && !InPeriod(w) && Saved(c)
    ensures var h := w.banks[c].history[|w.banks[c].history| - 1];
            && Inv(Next(w, CommitDest(c))) && h.newReg < w.banks[c].NumPhys() && h.arch < |ArchOf(w, c)|
            && ArchOf(Next(w, CommitDest(c)), c) == ArchOf(w, c)[h.arch := w.banks[c].file[h.newReg]]
  {
    StepKeepsInv(w, CommitDest(c));
    NewRegIsUncommitted(w.banks[c], |w.banks[c].history| - 1);
    hide Accounted, Chained, CommitMapRight;
  }

  // ---- Runs -------------------------------------------------------------------------------------

  predicate Enabled(w: Cpu, es: seq<Event>)
    requires Inv(w)
    decreases |es|
  {
    es == [] || (Guard(w, es[0]) && (StepKeepsInv(w, es[0]); Enabled(Next(w, es[0]), es[1..])))
  }

  function After(w: Cpu, es: seq<Event>): (v: Cpu)
    requires Inv(w) && Enabled(w, es)
    ensures Inv(v)
    decreases |es|
  {
    if es == [] then w
    else
      StepKeepsInv(w, es[0]);
      After(Next(w, es[0]), es[1..])
  }

  /** No event of the run commits in normal mode. */
  predicate NothingCommits(w: Cpu, es: seq<Event>)
    requires Inv(w) && Enabled(w, es)
    decreases |es|
  {
    es == [] || (!RealCommit(w, es[0]) && (StepKeepsInv(w, es[0]); NothingCommits(Next(w, es[0]), es[1..])))
  }

  /**
   * Runahead is transparent: over any run in which nothing commits in normal mode, however many renames, executions,
   * pseudoretirements, squashes and stale write-backs it has, every saved register and the commit PC keep their values.
   */
  lemma {:induction false} RunaheadIsTransparent(w: Cpu, es: seq<Event>, c: nat)
    requires Inv(w) && Enabled(w, es) && NothingCommits(w, es) && Saved(c)
    ensures ArchOf(After(w, es), c) == ArchOf(w, c) && PcOf(After(w, es)) == PcOf(w)
    decreases |es|
  {
    hide Inv, ArchOf, PcOf, RealCommit;
    if es != [] {
      StepKeepsInv(w, es[0]);
      StepStutters(w, es[0], c);
      RunaheadIsTransparent(Next(w, es[0]), es[1..], c);
    }
  }

  predicate NoRestore(es: seq<Event>)
  {
    forall k | 0 <= k < |es| :: !es[k].RestoreState?
  }

  lemma StaysInPeriod(w: Cpu, e: Event)
    requires Inv(w) && Guard(w, e) && InPeriod(w) && !e.RestoreState?
    ensures InPeriod(Next(w, e))
  {
    hide BankInv, CommitMapRight, CheckpointFull, Squash, Restore, Save, Rename, Write, Finish, Retire;
  }

  lemma {:induction false} NothingCommitsInPeriod(w: Cpu, es: seq<Event>)
    requires Inv(w) && Enabled(w, es) && InPeriod(w) && NoRestore(es)
    ensures NothingCommits(w, es) && InPeriod(After(w, es))
    decreases |es|
  {
    hide Inv, Next, Guard, InPeriod;
    if es != [] {
      StepKeepsInv(w, es[0]);
      StaysInPeriod(w, es[0]);
      NoCommitInPeriod(w, es[0]);
      NothingCommitsInPeriod(Next(w, es[0]), es[1..]);
    }
  }

  lemma NoCommitInPeriod(w: Cpu, e: Event)
    requires InPeriod(w)
    ensures !RealCommit(w, e)
  {
  }

  /**
   * A whole period, from entry to restore and whatever happens in between: the CPU is back in normal mode at the PC it
   * left, and every integer, float, vector element and condition code register has the value it had.
   */
  lemma PeriodLeavesNoTrace(w: Cpu, es: seq<Event>, c: nat)
    requires Inv(w) && Guard(w, EnterRunahead) && (c == 0 || c == 1 || c == 3 || c == 5)
    requires var v := Next(w, EnterRunahead);
             (StepKeepsInv(w, EnterRunahead);
              Enabled(v, es) && NoRestore(es) && Guard(After(v, es), RestoreState))
    ensures var v := Next(w, EnterRunahead);
            var u := Next(After(v, es), RestoreState);
            && v.runahead && Inv(u) && !InPeriod(u) && u.pc == w.pc
            && ArchValues(u.banks[c]) == ArchValues(w.banks[c])
  {
    var v := Next(w, EnterRunahead);
    EntryMeans(w, c);
    NothingCommitsInPeriod(v, es);
    RunaheadIsTransparent(v, es, c);
    StepStutters(After(v, es), RestoreState, c);
    hide Inv, Enabled, After, NothingCommits, BankInv, ArchValues;
    RestoreMeans(After(v, es), c);
  }

  lemma EntryMeans(w: Cpu, c: nat)
    requires Inv(w) && Guard(w, EnterRunahead) && Saved(c)
    ensures var v := Next(w, EnterRunahead);
            && Inv(v) && v.runahead && ArchOf(v, c) == ArchOf(w, c) == ArchValues(w.banks[c]) && PcOf(v) == PcOf(w) == w.pc
  {
    StepKeepsInv(w, EnterRunahead);
    StepStutters(w, EnterRunahead, c);
    hide Inv, ArchValues, BankInv;
  }

  lemma RestoreMeans(w: Cpu, c: nat)
    requires Inv(w) && Guard(w, RestoreState) && Saved(c)
    ensures var u := Next(w, RestoreState);
            && Inv(u) && !InPeriod(u) && ArchOf(u, c) == ArchValues(u.banks[c]) && PcOf(u) == u.pc
  {
    StepKeepsInv(w, RestoreState);
    hide ArchValues, BankInv, Restore;
  }

  // ---- What a run leaves to a squash and to commit ----------------------------------------------

  /** Instructions are renamed in program order: no rename is older than one that is still in the history. */
  predicate RenamesInOrder(w: Cpu, es: seq<Event>)
    requires Inv(w) && Enabled(w, es)
    decreases |es|
  {
    es == [] ||
    (&& (es[0].RenameDest? && w.banks[es[0].c].history != [] ==> w.banks[es[0].c].history[0].seqNum <= es[0].seqNum)
     && (StepKeepsInv(w, es[0]); RenamesInOrder(Next(w, es[0]), es[1..])))
  }

  predicate AllNewestFirst(w: Cpu)
  {
    forall c | 0 <= c < |w.banks| :: NewestFirst(w.banks[c].history)
  }

  lemma SquashedNewestFirst(b: Bank, n: nat)
    requires ArchsInRange(b) && NewestFirst(b.history)
    ensures NewestFirst(Squash(b, n).history)
  {
    SquashUndoes(b, n);
    hide Squash, UndoneAt;
    assert Squash(b, n).history == b.history[|b.history| - |Squash(b, n).history|..];
  }

  /** What each event does to the history of a class. */
  lemma NextHistory(w: Cpu, e: Event, c: nat)
    requires Inv(w) && Guard(w, e) && c < NUM_CLASSES
    ensures |Next(w, e).banks| == NUM_CLASSES
    ensures var b, h := w.banks[c], Next(w, e).banks[c].history;
            match e
            case RenameDest(d, seqNum, arch) =>
              h == if d == c then [History(seqNum, arch, b.free[0], b.renameMap[arch])] + b.history else b.history
            case CommitDest(d) => h == if d == c then b.history[..|b.history| - 1] else b.history
            case SquashRenames(n) => h == Squash(b, n).history
            case RestoreState => h == []
            case _ => h == b.history
  {
    hide Accounted, Chained, CommitMapRight, CheckpointFull, Squash, Range;
  }

  lemma InvHasArchs(w: Cpu, c: nat)
    requires Inv(w) && c < NUM_CLASSES
    ensures |w.banks| == NUM_CLASSES && ArchsInRange(w.banks[c])
  {
    hide Accounted, Chained, CommitMapRight, CheckpointFull;
  }

  lemma ClassStaysNewestFirst(w: Cpu, e: Event, c: nat)
    requires Inv(w) && Guard(w, e) && c < NUM_CLASSES && NewestFirst(w.banks[c].history)
    requires e.RenameDest? && w.banks[e.c].history != [] ==> w.banks[e.c].history[0].seqNum <= e.seqNum
    ensures |Next(w, e).banks| == NUM_CLASSES && NewestFirst(Next(w, e).banks[c].history)
  {
    hide Inv, Next, Squash, ArchsInRange;
    InvHasArchs(w, c);
    NextHistory(w, e, c);
    if e.SquashRenames? {
      SquashedNewestFirst(w.banks[c], e.n);
    }
  }

  lemma StepKeepsNewestFirst(w: Cpu, e: Event)
    requires Inv(w) && Guard(w, e) && AllNewestFirst(w)
    requires e.RenameDest? && w.banks[e.c].history != [] ==> w.banks[e.c].history[0].seqNum <= e.seqNum
    ensures AllNewestFirst(Next(w, e))
  {
    hide Inv, Guard, Next, NewestFirst;
    InvHasArchs(w, 0);
    forall c | 0 <= c < NUM_CLASSES
      ensures |Next(w, e).banks| == NUM_CLASSES && NewestFirst(Next(w, e).banks[c].history)
    {
      ClassStaysNewestFirst(w, e, c);
    }
    assert |Next(w, e).banks| == NUM_CLASSES by {
      ClassStaysNewestFirst(w, e, 0);
    }
  }

  lemma NextSquash(w: Cpu, n: nat, c: nat)
    requires Inv(w) && Guard(w, SquashRenames(n)) && c < NUM_CLASSES && ArchsInRange(w.banks[c])
    ensures Next(w, SquashRenames(n)).banks[c] == Squash(w.banks[c], n)
  {
    hide BankInv, CommitMapRight, CheckpointFull, Squash;
  }

  lemma SquashOfClass(w: Cpu, n: nat, c: nat)
    requires Inv(w) && c < NUM_CLASSES && NewestFirst(w.banks[c].history)
    ensures Guard(w, SquashRenames(n)) && c < |Next(w, SquashRenames(n)).banks|
    ensures var b, v := w.banks[c], Next(w, SquashRenames(n)).banks[c];
            SquashedTo(b, v, n) && forall h :: h in v.history <==> h in b.history && h.seqNum <= n
  {
    hide Inv, Next, Squash, SquashedTo, NewestFirst, ArchsInRange;
    InvHasArchs(w, c);
    NextHistory(w, SquashRenames(n), c);
    NextSquash(w, n, c);
    SquashUndoes(w.banks[c], n);
    SquashKeepsOlder(w.banks[c], n);
  }

  /**
   * After every run that renames in program order, a squash undoes exactly the renames younger than its point: the
   * others stay in the history, and each register maps to what it did before the younger ones.
   */
  lemma {:induction false} SquashUndoesExactlyYounger(w: Cpu, es: seq<Event>, n: nat, c: nat)
    requires Inv(w) && Enabled(w, es) && RenamesInOrder(w, es) && AllNewestFirst(w) && c < NUM_CLASSES
    ensures var b := After(w, es).banks[c];
            var v := Next(After(w, es), SquashRenames(n)).banks[c];
            && SquashedTo(b, v, n)
            && forall h :: h in v.history <==> h in b.history && h.seqNum <= n
    decreases |es|
  {
    hide BankInv, CommitMapRight, CheckpointFull, NewestFirst, SquashedTo, Next;
    if es == [] {
      SquashOfClass(w, n, c);
    } else {
      StepKeepsInv(w, es[0]);
      StepKeepsNewestFirst(w, es[0]);
      SquashUndoesExactlyYounger(Next(w, es[0]), es[1..], n, c);
    }
  }

  /** What each event does to the commit map, the register file and the ready bits of a class. */
  lemma NextRegisters(w: Cpu, e: Event, c: nat)
    requires Inv(w) && Guard(w, e) && c < NUM_CLASSES && !e.RestoreState?
    ensures |Next(w, e).banks| == NUM_CLASSES
    ensures var b, v := w.banks[c], Next(w, e).banks[c];
            && (v.commitMap != b.commitMap ==> RealCommit(w, e))
            && |v.file| == |b.file| == |v.scoreboard| == |b.scoreboard|
            && (forall p | 0 <= p < |b.file| && !(e.Execute? && e.c == c && e.reg == p) :: v.file[p] == b.file[p])
            && (forall p | 0 <= p < |b.scoreboard| ::
                  || v.scoreboard[p] == b.scoreboard[p]
                  || (v.scoreboard[p] && e.Writeback? && e.c == c && e.reg == p)
                  || (!v.scoreboard[p] && e.RenameDest? && e.c == c && b.free[0] == p))
  {
    hide Accounted, Chained, CommitMapRight, CheckpointFull, Squash;
    assert BankShape(w.banks[c]);
    if e.SquashRenames? {
      SquashKeepsInv(w.banks[c], e.n);
    } else if e.RenameDest? {
      RenameKeepsInv(w.banks[e.c], e.seqNum, e.arch);
    }
  }

  /** Pseudoretirement leaves no trace: until the restore, nothing in a period changes the commit map. */
  lemma {:induction false} PeriodKeepsCommitMap(w: Cpu, es: seq<Event>, c: nat)
    requires Inv(w) && Enabled(w, es) && InPeriod(w) && NoRestore(es) && c < NUM_CLASSES
    ensures After(w, es).banks[c].commitMap == w.banks[c].commitMap
    decreases |es|
  {
    hide BankInv, CommitMapRight, CheckpointFull, Next;
    if es != [] {
      StepKeepsInv(w, es[0]);
      NextRegisters(w, es[0], c);
      StaysInPeriod(w, es[0]);
      PeriodKeepsCommitMap(Next(w, es[0]), es[1..], c);
    }
  }

  /** No event of the run executes an instruction that writes register `reg` of class `c`. */
  predicate NothingWrites(es: seq<Event>, c: nat, reg: nat)
  {
    forall k | 0 <= k < |es| :: !(es[k].Execute? && es[k].c == c && es[k].reg == reg)
  }

  lemma {:induction false} ValueStays(w: Cpu, es: seq<Event>, c: nat, reg: nat)
    requires Inv(w) && Enabled(w, es) && NoRestore(es) && NothingWrites(es, c, reg)
    requires c < NUM_CLASSES && reg < w.banks[c].NumPhys()
    ensures |After(w, es).banks| == NUM_CLASSES && reg < After(w, es).banks[c].NumPhys()
    ensures After(w, es).banks[c].file[reg] == w.banks[c].file[reg]
    decreases |es|
  {
    hide BankInv, CommitMapRight, CheckpointFull, Next;
    if es != [] {
      StepKeepsInv(w, es[0]);
      NextRegisters(w, es[0], c);
      assert !(es[0].Execute? && es[0].c == c && es[0].reg == reg);
      ValueStays(Next(w, es[0]), es[1..], c, reg);
    }
  }

  lemma ExecuteWrites(w: Cpu, c: nat, k: nat, reg: nat, val: int)
    requires Inv(w) && Guard(w, Execute(c, k, reg, val, false))
    ensures var v := Next(w, Execute(c, k, reg, val, false));
            && Inv(v) && reg < v.banks[c].NumPhys() && v.banks[c].file[reg] == val
  {
    StepKeepsInv(w, Execute(c, k, reg, val, false));
    hide BankInv, CommitMapRight, CheckpointFull;
  }

  /**
   * What a normal instruction computed is what its commit makes visible, however long it waited in between: any run
   * without another write to its register.
   */
  lemma CommitShowsExecuted(w: Cpu, c: nat, k: nat, reg: nat, val: int, es: seq<Event>)
    requires Inv(w) && Guard(w, Execute(c, k, reg, val, false)) && Saved(c)
    requires var v := Next(w, Execute(c, k, reg, val, false));
             (StepKeepsInv(w, Execute(c, k, reg, val, false));
              && Enabled(v, es) && NoRestore(es) && NothingWrites(es, c, reg)
              && var u := After(v, es);
              && Guard(u, CommitDest(c)) && !InPeriod(u)
              && u.banks[c].history[|u.banks[c].history| - 1].newReg == reg)
    ensures var u := After(Next(w, Execute(c, k, reg, val, false)), es);
            var arch := u.banks[c].history[|u.banks[c].history| - 1].arch;
            && Inv(Next(u, CommitDest(c))) && arch < |ArchOf(u, c)|
            && ArchOf(Next(u, CommitDest(c)), c) == ArchOf(u, c)[arch := val]
  {
    var v := Next(w, Execute(c, k, reg, val, false));
    ExecuteWrites(w, c, k, reg, val);
    ValueStays(v, es, c, reg);
    hide Inv, Next, ArchOf;
    CommitShowsItsValue(After(v, es), c);
  }

  /** Nothing in the run writes register `reg` of class `c` back. */
  predicate NothingFinishes(es: seq<Event>, c: nat, reg: nat)
  {
    forall k | 0 <= k < |es| :: !(es[k].Writeback? && es[k].c == c && es[k].reg == reg)
  }

  /** No rename of the run allocates register `reg` of class `c`. */
  predicate NothingTakes(w: Cpu, es: seq<Event>, c: nat, reg: nat)
    requires Inv(w) && Enabled(w, es)
    decreases |es|
  {
    es == [] ||
    (&& !(es[0].RenameDest? && es[0].c == c && w.banks[c].free[0] == reg)
     && (StepKeepsInv(w, es[0]); NothingTakes(Next(w, es[0]), es[1..], c, reg)))
  }

  /** A register without a result stays so until its write-back. */
  lemma {:induction false} NotReadyUntilWriteback(w: Cpu, es: seq<Event>, c: nat, reg: nat)
    requires Inv(w) && Enabled(w, es) && NoRestore(es) && NothingFinishes(es, c, reg)
    requires c < NUM_CLASSES && reg < |w.banks[c].scoreboard| && !w.banks[c].scoreboard[reg]
    ensures |After(w, es).banks| == NUM_CLASSES && reg < |After(w, es).banks[c].scoreboard|
    ensures !After(w, es).banks[c].scoreboard[reg]
    decreases |es|
  {
    hide BankInv, CommitMapRight, CheckpointFull, Next;
    if es != [] {
      StepKeepsInv(w, es[0]);
      NextRegisters(w, es[0], c);
      assert !(es[0].Writeback? && es[0].c == c && es[0].reg == reg);
      NotReadyUntilWriteback(Next(w, es[0]), es[1..], c, reg);
    }
  }

  /** A register with a result keeps it until a rename allocates it again. */
  lemma {:induction false} ReadyUntilTaken(w: Cpu, es: seq<Event>, c: nat, reg: nat)
    requires Inv(w) && Enabled(w, es) && NoRestore(es) && NothingTakes(w, es, c, reg)
    requires c < NUM_CLASSES && reg < |w.banks[c].scoreboard| && w.banks[c].scoreboard[reg]
    ensures |After(w, es).banks| == NUM_CLASSES && reg < |After(w, es).banks[c].scoreboard|
    ensures After(w, es).banks[c].scoreboard[reg]
    decreases |es|
  {
    hide BankInv, CommitMapRight, CheckpointFull, Next;
    if es != [] {
      StepKeepsInv(w, es[0]);
      NextRegisters(w, es[0], c);
      ReadyUntilTaken(Next(w, es[0]), es[1..], c, reg);
    }
  }

  /** The destination of a rename has no result, and gets one with its write-back and no sooner. */
  lemma ReadyFromWritebackOn(w: Cpu, c: nat, seqNum: nat, arch: nat, es: seq<Event>, runahead: bool, poisoned: bool)
    requires Inv(w) && Guard(w, RenameDest(c, seqNum, arch))
    requires var v := Next(w, RenameDest(c, seqNum, arch));
             (StepKeepsInv(w, RenameDest(c, seqNum, arch));
              Enabled(v, es) && NoRestore(es) && NothingFinishes(es, c, w.banks[c].free[0]))
    ensures var p, u := w.banks[c].free[0], After(Next(w, RenameDest(c, seqNum, arch)), es);
            && Guard(u, Writeback(c, p, runahead, poisoned)) && !u.banks[c].scoreboard[p]
            && Inv(Next(u, Writeback(c, p, runahead, poisoned)))
            && Next(u, Writeback(c, p, runahead, poisoned)).banks[c].scoreboard[p]
  {
    var v := Next(w, RenameDest(c, seqNum, arch));
    RenameKeepsInv(w.banks[c], seqNum, arch);
    hide CommitMapRight, CheckpointFull, Accounted, Chained;
    NotReadyUntilWriteback(v, es, c, w.banks[c].free[0]);
    StepKeepsInv(After(v, es), Writeback(c, w.banks[c].free[0], runahead, poisoned));
  }

  /** Maps equal and injective, the free list their complement, nothing poisoned, every mapped register ready. */
  ghost predicate Clean(b: Bank)
  {
    && b.renameMap == b.commitMap
    && (forall i, j | 0 <= i < j < |b.renameMap| :: b.renameMap[i] != b.renameMap[j])
    && (forall p: nat :: p in b.free <==> p < b.NumPhys() && p !in b.renameMap)
    && (forall i, j | 0 <= i < j < |b.free| :: b.free[i] != b.free[j])
    && (forall p | 0 <= p < |b.poisoned| :: !b.poisoned[p])
    && (forall a | 0 <= a < |b.renameMap| :: b.renameMap[a] < |b.scoreboard| && b.scoreboard[b.renameMap[a]])
  }

  lemma RestoredBankIsClean(b: Bank, saved: bool)
    requires BankInv(b) && (saved ==> CheckpointFull(b)) && b.NumArch() <= b.NumPhys()
    ensures Clean(Restore(b, saved))
  {
    var v := Restore(b, saved);
    assert v.renameMap == Range(0, b.NumArch());
    assert BankShape(b);
    RestoreSparesTheRest(b, saved);
    assert forall a | 0 <= a < b.NumArch() :: v.renameMap[a] == a && v.scoreboard[a];
    hide Accounted, Chained, CommitMapRight, CheckpointFull, Range, Restore;
    RestoreGivesInv(b, saved);
    FreeIsComplement(v);
  }

  /** Right after the restore every class is clean, whatever the period did. */
  lemma RestoredStateIsClean(w: Cpu)
    requires Inv(w) && Guard(w, RestoreState)
    ensures var v := Next(w, RestoreState);
            Inv(v) && !InPeriod(v) && forall c | 0 <= c < NUM_CLASSES :: Clean(v.banks[c])
  {
    var v := Next(w, RestoreState);
    StepKeepsInv(w, RestoreState);
    forall c | 0 <= c < NUM_CLASSES ensures Clean(v.banks[c]) {
      EnoughRegisters(w.banks[c]);
      RestoredBankIsClean(w.banks[c], Saved(c));
    }
    hide Clean, BankInv, Restore;
  }

  /** At the start each architectural register has a physical one of its own, and nothing is in flight. */
  function StartBank(numArch: nat, numPhys: nat): Bank
    requires numArch <= numPhys
  {
    Bank(Range(0, numArch), Range(0, numArch), Range(numArch, numPhys), [], seq(numPhys, _ => 0),
         seq(numPhys, _ => false), seq(numPhys, _ => true), Checkpoint(seq(numArch, _ => 0), []))
  }

  lemma StartIsValid(w: Cpu)
    requires |w.banks| == NUM_CLASSES && !InPeriod(w)
    requires forall c | 0 <= c < NUM_CLASSES ::
               exists numArch: nat, numPhys: nat :: numArch <= numPhys && w.banks[c] == StartBank(numArch, numPhys)
    ensures Inv(w)
  {
    forall c | 0 <= c < NUM_CLASSES ensures BankInv(w.banks[c]) && CommitMapRight(w.banks[c]) {
      var numArch: nat, numPhys: nat :| numArch <= numPhys && w.banks[c] == StartBank(numArch, numPhys);
      assert Range(0, numPhys) == Range(0, numArch) + Range(numArch, numPhys);
    }
  }

  /** Vectors and vector predicates come back as whatever their first physical registers happen to hold. */
  lemma UnsavedClassIsNotRestored(w: Cpu, c: nat)
    requires Inv(w) && Guard(w, RestoreState) && (c == 2 || c == 4)
    ensures var v := Next(w, RestoreState);
            && Inv(v) && w.banks[c].NumArch() <= w.banks[c].NumPhys()
            && ArchValues(v.banks[c]) == w.banks[c].file[..w.banks[c].NumArch()]
  {
    StepKeepsInv(w, RestoreState);
    EnoughRegisters(w.banks[c]);
    RestoreGivesInv(w.banks[c], false);
    hide Accounted, Chained, CommitMapRight, CheckpointFull;
  }
}
