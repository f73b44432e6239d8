/** One class of registers as the CPU keeps it: free list, rename maps, register file and checkpoint, updated in place. */
module RegisterUnit {
  import opened Prelude
  import opened ArchState

  class RegisterBank {
    var renameMap: seq<nat>
    var commitMap: seq<nat>
    var freeRegs: seq<nat>
    var history: seq<History>
    var file: array<int>
    var poisonedRegs: array<bool>
    var scoreboard: array<bool>
    var values: array<int>
    var validIdxs: seq<nat>

    ghost predicate Valid()
      reads this, file, poisonedRegs, scoreboard, values
    {
      && BankInv(View())
      && file.Length == poisonedRegs.Length == scoreboard.Length && values.Length == |renameMap|
      && poisonedRegs != scoreboard && file != values
    }

    ghost function View(): Bank
      reads this, file, poisonedRegs, scoreboard, values
    {
      Bank(renameMap, commitMap, freeRegs, history, file[..], poisonedRegs[..], scoreboard[..],
           Checkpoint(values[..], validIdxs))
    }

    // ---- Free list ------------------------------------------------------------------------------

    method GetReg() returns (p: nat)
      requires freeRegs != []
      modifies this`freeRegs
      ensures [p] + freeRegs == old(freeRegs)
    {
      p := freeRegs[0];
      freeRegs := freeRegs[1..];
    }

    method AddReg(p: nat)
      modifies this`freeRegs
      ensures freeRegs == old(freeRegs) + [p]
    {
      freeRegs := freeRegs + [p];
    }

    /** Empty the queue, then add every physical register once. */
    method ResetFreeList()
      modifies this`freeRegs
      ensures freeRegs == Range(0, file.Length)
    {
      freeRegs := [];
      var p := 0;
      while p < file.Length
        invariant 0 <= p <= file.Length && freeRegs == Range(0, p)
      {
        AddReg(p);
        p := p + 1;
      }
    }

    // ---- Rename ---------------------------------------------------------------------------------

    method RenameDest(seqNum: nat, arch: nat)
      requires Valid() && freeRegs != [] && arch < |renameMap|
      modifies this`renameMap, this`freeRegs, this`history, scoreboard
      ensures old(freeRegs)[0] < file.Length && Valid() && View() == Rename(old(View()), seqNum, arch)
    {
      RenameKeepsInv(View(), seqNum, arch);
      var prev := renameMap[arch];
      var p := GetReg();
      renameMap := renameMap[arch := p];
      scoreboard[p] := false;
      history := [History(seqNum, arch, p, prev)] + history;
    }

    /** Undo the renames younger than `n`, newest first. */
    method DoSquash(n: nat)
      requires Valid()
      modifies this`renameMap, this`freeRegs, this`history
      ensures Valid() && View() == Squash(old(View()), n)
      ensures SquashedTo(old(View()), View(), n)
      ensures NewestFirst(old(history)) ==> forall h :: h in history <==> h in old(history) && h.seqNum <= n
    {
      SquashKeepsInv(View(), n);
      SquashUndoes(View(), n);
      if NewestFirst(history) {
        SquashKeepsOlder(View(), n);
      }
      hide SquashedTo, NewestFirst;
      while history != [] && history[0].seqNum > n
        invariant ArchsInRange(View()) && Squash(View(), n) == Squash(old(View()), n)
        invariant View() == old(View()).(renameMap := renameMap, free := freeRegs, history := history)
        decreases |history|
      {
        var h := history[0];
        renameMap := renameMap[h.arch := h.prevReg];
        AddReg(h.newReg);
        history := history[1..];
      }
    }

    // ---- Checkpoint -----------------------------------------------------------------------------

    method GetArchReg(arch: nat) returns (val: int)
      requires arch < |commitMap| && commitMap[arch] < file.Length
      ensures val == file[commitMap[arch]]
    {
      val := file[commitMap[arch]];
    }

    /** Record the committed value of every register of the class. */
    method FullSave()
      requires Valid()
      modifies this`validIdxs, values
      ensures Valid() && View() == Save(old(View()))
    {
      ghost var b := View();
      validIdxs := [];
      var arch := 0;
      while arch < |renameMap|
        invariant 0 <= arch <= |renameMap| && validIdxs == Range(0, arch)
        invariant file[..] == b.file && poisonedRegs[..] == b.poisoned && scoreboard[..] == b.scoreboard
        invariant forall a | 0 <= a < arch :: values[a] == ArchValues(b)[a]
      {
        var val := GetArchReg(arch);
        values[arch] := val;
        validIdxs := validIdxs + [arch];
        arch := arch + 1;
      }
      assert values[..] == ArchValues(b);
    }

    /** Write the checkpointed values back where they differ, and invalidate the checkpoint. */
    method RestoreValues()
      requires commitMap == renameMap == Range(0, |renameMap|) && |renameMap| <= file.Length
      requires values.Length == |renameMap| && validIdxs == Range(0, |renameMap|) && file != values
      modifies this`validIdxs, file
      ensures validIdxs == [] && file[..] == values[..] + old(file[..])[|renameMap|..]
    {
      var k := 0;
      while k < |validIdxs|
        invariant 0 <= k <= |validIdxs| && values[..] == old(values[..]) && validIdxs == Range(0, |renameMap|)
        invariant forall p | 0 <= p < file.Length :: file[p] == if p < k then values[p] else old(file[p])
      {
        var arch := validIdxs[k];
        var cur := GetArchReg(arch);
        if cur != values[arch] {
          file[commitMap[arch]] := values[arch];
        }
        k := k + 1;
      }
      validIdxs := [];
    }

    /** Give every architectural register a fresh physical one, in both maps, and mark it ready. */
    method ResetMaps()
      requires |renameMap| == |commitMap| && |renameMap| <= file.Length == scoreboard.Length
      modifies this`renameMap, this`commitMap, this`freeRegs, this`history, scoreboard
      ensures renameMap == commitMap == Range(0, |old(renameMap)|) && history == []
      ensures freeRegs == Range(|renameMap|, file.Length)
      ensures forall p | 0 <= p < scoreboard.Length :: scoreboard[p] == (p < |renameMap| || old(scoreboard[p]))
    {
      ghost var n := |renameMap|;
      ResetFreeList();
      history := [];
      var arch := 0;
      while arch < |renameMap|
        invariant 0 <= arch <= |renameMap| == |commitMap| == n && history == []
        invariant freeRegs == Range(arch, file.Length)
        invariant forall a | 0 <= a < arch :: renameMap[a] == a && commitMap[a] == a
        invariant forall p | 0 <= p < scoreboard.Length :: scoreboard[p] == (p < arch || old(scoreboard[p]))
      {
        assert Range(arch, file.Length)[0] == arch;
        var p := GetReg();
        assert freeRegs == Range(arch, file.Length)[1..];
        renameMap := renameMap[arch := p];
        commitMap := commitMap[arch := p];
        scoreboard[p] := true;
        arch := arch + 1;
      }
    }

    method ClearPoison()
      modifies poisonedRegs
      ensures forall p | 0 <= p < poisonedRegs.Length :: !poisonedRegs[p]
    {
      var p := 0;
      while p < poisonedRegs.Length
        invariant 0 <= p <= poisonedRegs.Length && forall k | 0 <= k < p :: !poisonedRegs[k]
      {
        poisonedRegs[p] := false;
        p := p + 1;
      }
    }

    /** The whole restore: free list and maps, then values if the class is saved, then poison. */
    method RestoreCheckpointState(saved: bool)
      requires Valid() && |renameMap| <= file.Length && (saved ==> CheckpointFull(View()))
      modifies this, file, poisonedRegs, scoreboard
      ensures file == old(file) && poisonedRegs == old(poisonedRegs) && scoreboard == old(scoreboard) && values == old(values)
      ensures Valid() && View() == Restore(old(View()), saved)
    {
      ghost var b := View();
      RestoreGivesInv(b, saved);
      ResetMaps();
      assert file[..] == b.file && values[..] == b.checkpoint.values;
      if saved {
        RestoreValues();
      }
      ClearPoison();
      ghost var v := Restore(b, saved);
      assert scoreboard[..] == v.scoreboard;
      assert poisonedRegs[..] == v.poisoned;
    }
  }
}
