/** Decode's tick and fetch's send loop, as their loops run, against `FetchDecode`. */
module DecodeUnit {
  import opened Prelude
  import opened FetchDecode

  // ---- Facts the loop needs ---------------------------------------------------------------------

  lemma NothingTaken(q: seq<Inst>)
    ensures q[..0] == [] && q[0..] == q && Live(q[..0]) == []
  {
  }

  lemma TakenStep(q: seq<Inst>, width: nat)
    requires q != [] && width > 0
    ensures Taken(q, width) == 1 + if q[0].squashed then Taken(q[1..], width)
                                   else if q[0].redirects then 0 else Taken(q[1..], width - 1)
  {
  }

  lemma TakenEnds(q: seq<Inst>, width: nat)
    ensures q == [] || width == 0 ==> Taken(q, width) == 0
  {
  }

  lemma LiveAppend(q: seq<Inst>, n: nat)
    requires n < |q|
    ensures q[n..][0] == q[n] && q[n..][1..] == q[n + 1..] && q[..n + 1] == q[..n] + [q[n]]
    ensures Live(q[..n + 1]) == Live(q[..n]) + (if q[n].squashed then [] else [q[n]])
  {
    assert q[..n + 1][..n] == q[..n];
  }

  // ---- Decode -----------------------------------------------------------------------------------

  class DecodeStage {
    const decodeWidth: nat
    const skidBufferMax: nat
    var decodeStatus: Status
    var insts: seq<Inst>
    var skidBuffer: seq<Inst>
    var decodeBlock: bool
    var decodeUnblock: bool
    /** The instructions handed to rename this cycle, and all those used up for it. */
    var toRename: seq<Inst>
    var used: seq<Inst>
    /** This cycle's squash towards fetch. */
    var squashing: bool

    function View(): Decode
      reads this
    {
      Decode(decodeStatus, skidBuffer, decodeBlock, decodeUnblock)
    }

    method SkidInsert()
      requires |skidBuffer| + |insts| <= skidBufferMax
      modifies `skidBuffer, `insts
      ensures skidBuffer == old(skidBuffer) + old(insts) && insts == []
    {
      ghost var all := skidBuffer + insts;
      while insts != []
        invariant skidBuffer + insts == all
        decreases |insts|
      {
        var inst := insts[0];
        insts := insts[1..];
        skidBuffer := skidBuffer + [inst];
      }
      assert |skidBuffer| <= skidBufferMax;
    }

    method Block() returns (changed: bool)
      requires |skidBuffer| + |insts| <= skidBufferMax
      modifies `skidBuffer, `insts, `decodeStatus, `decodeBlock, `decodeUnblock
      ensures View() == Blocking(old(View()), old(insts)) && insts == []
      ensures changed == !old(decodeStatus).Blocked?
    {
      SkidInsert();
      if !decodeStatus.Blocked? {
        decodeStatus := Blocked;
        if decodeUnblock {
          decodeUnblock := false;
        } else {
          decodeBlock := true;
        }
        return true;
      }
      return false;
    }

    method Unblock() returns (done: bool)
      modifies `decodeUnblock, `decodeStatus
      ensures View() == Unblocked(old(View())) && done == (skidBuffer == [])
    {
      if skidBuffer == [] {
        decodeUnblock := true;
        decodeStatus := Running;
        return true;
      }
      return false;
    }

    /** A branch whose target decode finds wrong. */
    method SquashFrom()
      modifies `decodeUnblock, `decodeStatus, `insts, `skidBuffer, `squashing
      ensures View() == Decode(Squashing, [], old(decodeBlock), old(decodeUnblock) || Stopped(old(View())))
      ensures insts == [] && squashing
    {
      if decodeStatus.Blocked? || decodeStatus.Unblocking? {
        decodeUnblock := true;
      }
      decodeStatus := Squashing;
      squashing := true;
      insts := [];
      skidBuffer := [];
    }

    /** A squash from commit; outside full-system mode a block raised in the same cycle is taken back. */
    method SquashAll(fullSystem: bool)
      modifies `decodeUnblock, `decodeBlock, `decodeStatus, `insts, `skidBuffer
      ensures decodeStatus == Squashing && skidBuffer == insts == []
      ensures var back := Stopped(old(View())) && !fullSystem && old(decodeBlock);
              && decodeBlock == (old(decodeBlock) && !back)
              && decodeUnblock == (old(decodeUnblock) || (Stopped(old(View())) && !back))
    {
      if decodeStatus.Blocked? || decodeStatus.Unblocking? {
        if fullSystem {
          decodeUnblock := true;
        } else if decodeBlock {
          decodeBlock := false;
        } else {
          decodeUnblock := true;
        }
      }
      decodeStatus := Squashing;
      insts := [];
      skidBuffer := [];
    }

    method CheckSignalsAndUpdate(stalled: bool, squash: bool, fullSystem: bool) returns (changed: bool)
      requires !decodeBlock && (stalled ==> |skidBuffer| + |insts| <= skidBufferMax)
      modifies `decodeUnblock, `decodeBlock, `decodeStatus, `insts, `skidBuffer
      ensures View() == Signalled(old(View()), old(insts), stalled, squash)
      ensures insts == if squash || stalled then [] else old(insts)
    {
      if squash {
        SquashAll(fullSystem);
        return true;
      }
      if stalled {
        changed := Block();
        return changed;
      }
      if decodeStatus.Blocked? {
        decodeStatus := Unblocking;
        var _ := Unblock();
        return true;
      }
      if decodeStatus.Squashing? {
        decodeStatus := Running;
        return false;
      }
      return false;
    }

    /** Pop instructions until the width is used up, the queue is empty or one of them redirects. */
    method DecodeFrom(q: seq<Inst>) returns (rest: seq<Inst>, redirect: bool)
      modifies `toRename, `used
      ensures var n := Taken(q, decodeWidth);
              used == old(used) + q[..n] && rest == q[n..] && toRename == old(toRename) + Live(q[..n])
      ensures redirect == Redirects(q, decodeWidth)
      ensures |rest| <= |q| && Passes(q, q[..|q| - |rest|], redirect, decodeWidth)
    {
      hide Passes, Live, Taken;
      TakenPasses(q, decodeWidth);
      rest, redirect := q, false;
      var index: nat := 0;
      ghost var n: nat := 0;
      NothingTaken(q);
      while rest != [] && index < decodeWidth
        invariant n <= |q| && rest == q[n..] && index <= decodeWidth
        invariant !redirect && n + Taken(rest, decodeWidth - index) == Taken(q, decodeWidth)
        invariant n > 0 ==> !Turns(q[n - 1])
        invariant used == old(used) + q[..n] && toRename == old(toRename) + Live(q[..n])
        decreases |rest|
      {
        var inst := rest[0];
        TakenStep(rest, decodeWidth - index);
        rest := rest[1..];
        used := used + [inst];
        LiveAppend(q, n);
        n := n + 1;
        if inst.squashed {
          continue;
        }
        toRename := toRename + [inst];
        index := index + 1;
        if inst.redirects {
          redirect := true;
          break;
        }
      }
      TakenEnds(rest, decodeWidth - index);
    }

    /** While unblocking, from the skid buffer. */
    method DecodeSkid()
      requires |skidBuffer| + |insts| <= skidBufferMax && toRename == used == [] && !squashing
      requires decodeStatus.Unblocking?
      modifies this
      ensures var n := Taken(old(skidBuffer), decodeWidth);
              && used == old(skidBuffer)[..n] && toRename == Live(used)
              && squashing == Redirects(old(skidBuffer), decodeWidth)
              && (squashing ==> View() == Decode(Squashing, [], old(decodeBlock), true) && insts == [])
              && (!squashing && n < |old(skidBuffer)| ==>
                    View() == Blocking(old(View()).(skid := old(skidBuffer)[n..]), old(insts)) && insts == [])
              && (!squashing && n == |old(skidBuffer)| ==>
                    View() == old(View()).(skid := []) && insts == old(insts))
    {
      assert Live([]) == [];
      if skidBuffer == [] {
        return;
      }
      hide Live;
      var rest, redirect := DecodeFrom(skidBuffer);
      assert used == skidBuffer[..Taken(skidBuffer, decodeWidth)] && toRename == Live(used);
      hide Redirects, Taken;
      if redirect {
        SquashFrom();
      } else {
        skidBuffer := rest;
        if skidBuffer != [] {
          var _ := Block();
        }
      }
    }

    /** Otherwise, straight from fetch. */
    method DecodeFresh()
      requires |insts| <= skidBufferMax && toRename == used == skidBuffer == [] && !squashing
      requires !Stopped(View())
      modifies this
      ensures var n := Taken(old(insts), decodeWidth);
              && used == old(insts)[..n] && toRename == Live(used)
              && squashing == Redirects(old(insts), decodeWidth)
              && (squashing ==> View() == old(View()).(status := Squashing, skid := []))
              && (!squashing && n < |old(insts)| ==> View() == Blocking(old(View()), old(insts)[n..]))
              && (!squashing && n == |old(insts)| ==> View() == old(View()))
      ensures insts == []
    {
      assert Live([]) == [];
      if insts == [] {
        return;
      }
      hide Live;
      var rest, redirect := DecodeFrom(insts);
      assert used == insts[..Taken(insts, decodeWidth)] && toRename == Live(used);
      hide Redirects, Taken;
      if redirect {
        SquashFrom();
      } else {
        insts := rest;
        if insts != [] {
          var _ := Block();
        }
      }
    }

    method DecodeInsts()
      requires |skidBuffer| + |insts| <= skidBufferMax && toRename == used == [] && !squashing
      requires decodeStatus.Unblocking? || (skidBuffer == [] && !Stopped(View()))
      modifies this
      ensures toRename == Live(used)
      ensures old(decodeStatus).Unblocking? ==>
                var o := UnblockStep(old(View()), old(insts), decodeWidth);
                && used == o.used && squashing == o.redirected
                && Unblocked(View().(skid := skidBuffer + insts)) == o.d
                && |skidBuffer| + |insts| <= skidBufferMax && (insts == [] || insts == old(insts))
      ensures !old(decodeStatus).Unblocking? ==>
                var o := RunStep(old(View()), old(insts), decodeWidth);
                View() == o.d && used == o.used && squashing == o.redirected && insts == []
    {
      hide Live, Redirects, Taken;
      if decodeStatus.Unblocking? {
        ghost var skid := skidBuffer;
        DecodeSkid();
        assert skid[..|skid|] == skid;
        assert skidBuffer + [] == skidBuffer;
      } else {
        ghost var given := insts;
        DecodeFresh();
        assert given[..|given|] == given;
      }
    }

    /** A cycle: `fromFetch` arrives, rename may stall and commit may squash. */
    method Tick(fromFetch: seq<Inst>, stalled: bool, squash: bool, fullSystem: bool)
      requires insts == [] && |skidBuffer| + |fromFetch| <= skidBufferMax
      requires decodeStatus.Unblocking? ==> skidBuffer != []
      requires !Stopped(View()) ==> skidBuffer == []
      modifies this
      ensures var o := DecodeCycle(old(View()), fromFetch, stalled, squash, decodeWidth);
              View() == o.d && used == o.used && squashing == o.redirected && toRename == Live(o.used)
      ensures insts == [] && |toRename| <= decodeWidth
      ensures !stalled && !squash ==> Passes(Source(old(View()), fromFetch), used, squashing, decodeWidth)
    {
      hide Passes, Source, Live, UnblockStep, RunStep, Redirects, Taken;
      NothingTaken(fromFetch);
      DecodeUsesWidth(View(), fromFetch, stalled, squash, decodeWidth);
      toRename, used, squashing, decodeBlock, decodeUnblock := [], [], false, false, false;
      insts := fromFetch;
      var _ := CheckSignalsAndUpdate(stalled, squash, fullSystem);
      if decodeStatus.Running? || decodeStatus.Idle? {
        DecodeInsts();
      } else if decodeStatus.Unblocking? {
        assert skidBuffer != [];
        DecodeInsts();
        ghost var d := View().(skid := skidBuffer + insts);
        if fromFetch != [] {
          SkidInsert();
        }
        assert View() == d;
        var _ := Unblock();
      }
    }
  }

  /** Fetch's end of the wire. */
  class FetchStage {
    const decodeWidth: nat
    var decodeStall: bool
    var fetchQueue: seq<Inst>

    method ReadSignals(block: bool, unblock: bool)
      requires unblock ==> decodeStall && !block
      modifies `decodeStall
      ensures decodeStall == ((old(decodeStall) || block) && !unblock)
    {
      if block {
        decodeStall := true;
      }
      if unblock {
        assert decodeStall;
        assert !block;
        decodeStall := false;
      }
    }

    /** At most `decodeWidth` leave the queue; those off the runahead chain are dropped. */
    method SendToDecode() returns (sent: seq<Inst>)
      modifies `fetchQueue
      ensures var n := if decodeStall then 0 else Min(decodeWidth, |old(fetchQueue)|);
              && sent == OnChain(old(fetchQueue)[..n]) && fetchQueue == old(fetchQueue)[n..]
              && forall x :: x in sent <==> x in old(fetchQueue)[..n] && !x.offChain
    {
      OnChainKeeps(fetchQueue[..if decodeStall then 0 else Min(decodeWidth, |fetchQueue|)]);
      sent := [];
      var available: nat := if decodeStall then 0 else |fetchQueue|;
      var instsToDecode: nat := 0;
      while available != 0 && instsToDecode < decodeWidth
        invariant instsToDecode <= |old(fetchQueue)| && instsToDecode <= decodeWidth
        invariant available + instsToDecode == if decodeStall then 0 else |old(fetchQueue)|
        invariant fetchQueue == old(fetchQueue)[instsToDecode..]
        invariant sent == OnChain(old(fetchQueue)[..instsToDecode])
        decreases available
      {
        var inst := fetchQueue[0];
        ghost var now := old(fetchQueue)[..instsToDecode + 1];
        assert now[..|now| - 1] == old(fetchQueue)[..instsToDecode] && now[|now| - 1] == inst;
        if !inst.offChain {
          sent := sent + [inst];
        }
        fetchQueue := fetchQueue[1..];
        instsToDecode := instsToDecode + 1;
        available := available - 1;
      }
    }
  }
}
