/** The block/unblock protocol between fetch and decode, over wires that take one cycle each way. */
module FetchDecode {
  import opened Prelude

  datatype Status = Idle | Running | Blocked | Unblocking | Squashing

  /** `offChain`: fetched in runahead outside its dependence chain; `redirects`: its target turns out wrong at decode. */
  datatype Inst = Inst(id: nat, squashed: bool, offChain: bool, redirects: bool)

  datatype Config = Config(fetchWidth: nat, decodeWidth: nat, queueSize: nat)

  /** Decode between cycles, with the signals it last sent to fetch. */
  datatype Decode = Decode(status: Status, skid: seq<Inst>, block: bool, unblock: bool)

  function Live(s: seq<Inst>): (r: seq<Inst>)
    ensures |r| <= |s|
  {
    if s == [] then [] else Live(s[..|s| - 1]) + (if s[|s| - 1].squashed then [] else [s[|s| - 1]])
  }

  function OnChain(s: seq<Inst>): (r: seq<Inst>)
    ensures |r| <= |s|
  {
    if s == [] then [] else OnChain(s[..|s| - 1]) + (if s[|s| - 1].offChain then [] else [s[|s| - 1]])
  }

  function AllSquashed(s: seq<Inst>): (r: seq<Inst>)
    ensures |r| == |s|
  {
    seq(|s|, k requires 0 <= k < |s| => s[k].(squashed := true))
  }

  // ---- One cycle of decode ----------------------------------------------------------------------

  /** How many of the first instructions are used up when `width` more may go to rename. */
  function Taken(q: seq<Inst>, width: nat): (n: nat)
    ensures n <= |q|
  {
    if q == [] || width == 0 then 0
    else if q[0].squashed then 1 + Taken(q[1..], width)
    else if q[0].redirects then 1
    else 1 + Taken(q[1..], width - 1)
  }

  /** The last one used up sends fetch elsewhere. */
  predicate Redirects(q: seq<Inst>, width: nat)
  {
    var n := Taken(q, width);
    n > 0 && !q[n - 1].squashed && q[n - 1].redirects
  }

  /** What decode did: its new state, the instructions used up, and whether it squashed after the last of them. */
  datatype Outcome = Outcome(d: Decode, used: seq<Inst>, redirected: bool)

  /** Stop and keep the inputs; an unblock raised earlier in the cycle is taken back. */
  function Blocking(d: Decode, insts: seq<Inst>): Decode
  {
    var e := d.(skid := d.skid + insts, status := Blocked);
    if d.status.Blocked? then e
    else if d.unblock then e.(unblock := false)
    else e.(block := true)
  }

  function Unblocked(d: Decode): Decode
  {
    if d.skid == [] then d.(unblock := true, status := Running) else d
  }

  /** Instructions straight from fetch. */
  function RunStep(d: Decode, insts: seq<Inst>, width: nat): Outcome
  {
    var n := Taken(insts, width);
    if Redirects(insts, width) then Outcome(d.(status := Squashing, skid := []), insts[..n], true)
    else if n < |insts| then Outcome(Blocking(d, insts[n..]), insts[..n], false)
    else Outcome(d, insts, false)
  }

  /** Instructions from the skid buffer; the new ones go in behind. */
  function UnblockStep(d: Decode, insts: seq<Inst>, width: nat): Outcome
  {
    var n := Taken(d.skid, width);
    if Redirects(d.skid, width) then
      Outcome(Unblocked(d.(status := Squashing, skid := [], unblock := true)), d.skid[..n], true)
    else if n < |d.skid| then Outcome(Blocking(d.(skid := d.skid[n..]), insts), d.skid[..n], false)
    else Outcome(Unblocked(d.(skid := insts)), d.skid, false)
  }

  predicate Stopped(d: Decode)
  {
    d.status.Blocked? || d.status.Unblocking?
  }

  /** After the stall and squash signals; `d` has fresh wires. */
  function Signalled(d: Decode, insts: seq<Inst>, stalled: bool, squash: bool): Decode
  {
    if squash then Decode(Squashing, [], d.block, d.unblock || Stopped(d))
    else if stalled then Blocking(d, insts)
    else if d.status.Blocked? then Unblocked(d.(status := Unblocking))
    else if d.status.Squashing? then d.(status := Running)
    else d
  }

  function DecodeCycle(d: Decode, insts: seq<Inst>, stalled: bool, squash: bool, width: nat): Outcome
  {
    var e := Signalled(d.(block := false, unblock := false), insts, stalled, squash);
    if squash || stalled then Outcome(e, [], false)
    else if e.status.Unblocking? then UnblockStep(e, insts, width)
    else RunStep(e, insts, width)
  }

  // ---- Both sides -------------------------------------------------------------------------------

  /**
   * `stall` is fetch's latch, `wire` what decode receives next cycle, `refetch` decode's squash on its way to fetch.
   * Since the last squash `sent` went to decode, which has used up `used` and passed `renamed` on to rename.
   */
  datatype World = World(queue: seq<Inst>, stall: bool, wire: seq<Inst>, d: Decode, refetch: bool,
                         sent: seq<Inst>, used: seq<Inst>, renamed: seq<Inst>)

  /** What the rest of the machine does in a cycle. */
  datatype Input = Input(fetched: seq<Inst>, stalled: bool, squash: bool)

  /** What fetch asserts when it reads decode's signals. */
  predicate FetchAsserts(w: World)
  {
    w.d.unblock ==> w.stall && !w.d.block
  }

  function NextStall(w: World): bool
  {
    (w.stall || w.d.block) && !w.d.unblock
  }

  function Queued(w: World, i: Input): seq<Inst>
  {
    (if i.squash || w.refetch then [] else w.queue) + i.fetched
  }

  /** Fetch fills its queue up to its size, at most `fetchWidth` a cycle. */
  predicate Fits(g: Config, w: World, i: Input)
  {
    |i.fetched| <= g.fetchWidth && |Queued(w, i)| <= g.queueSize
  }

  function SendCount(g: Config, w: World, i: Input): (n: nat)
    ensures n <= |Queued(w, i)| && n <= g.decodeWidth
  {
    if NextStall(w) then 0
    else if |Queued(w, i)| < g.decodeWidth then |Queued(w, i)| else g.decodeWidth
  }

  function Sends(g: Config, w: World, i: Input): seq<Inst>
  {
    OnChain(Queued(w, i)[..SendCount(g, w, i)])
  }

  function Next(g: Config, w: World, i: Input): World
  {
    var o := DecodeCycle(w.d, w.wire, i.stalled, i.squash, g.decodeWidth);
    var wire := if o.redirected then AllSquashed(Sends(g, w, i)) else Sends(g, w, i);
    var restart := i.squash || o.redirected;
    World(Queued(w, i)[SendCount(g, w, i)..], NextStall(w), wire, o.d, o.redirected,
          if restart then wire else w.sent + wire,
          if restart then [] else w.used + o.used,
          if restart then [] else w.renamed + Live(o.used))
  }

  /** The most fetch can send in a cycle. */
  function Burst(g: Config): nat
  {
    if g.decodeWidth < g.queueSize then g.decodeWidth else g.queueSize
  }

  predicate HandshakeInv(w: World)
  {
    && (Stopped(w.d) <==> NextStall(w))
    && FetchAsserts(w)
    && (w.d.status.Unblocking? ==> w.d.skid != [])
    && (!Stopped(w.d) ==> w.d.skid == [])
  }

  predicate SizeInv(g: Config, w: World)
  {
    && |w.queue| <= g.queueSize
    && |w.wire| <= Burst(g)
    && (w.stall ==> w.wire == [])
    && (!w.stall ==> |w.d.skid| <= Burst(g))
    && |w.d.skid| <= 2 * Burst(g)
  }

  predicate OrderInv(w: World)
  {
    w.sent == w.used + w.d.skid + w.wire && w.renamed == Live(w.used)
  }

  ghost predicate Inv(g: Config, w: World)
  {
    HandshakeInv(w) && SizeInv(g, w) && OrderInv(w)
  }

  /** Decode's status after a cycle follows from the status before and the signals it sends. */
  predicate Agrees(d: Decode, e: Decode)
  {
    && (Stopped(e) <==> (Stopped(d) || e.block) && !e.unblock)
    && (e.unblock ==> Stopped(d) && !e.block)
    && (e.status.Unblocking? ==> e.skid != [])
    && (!Stopped(e) ==> e.skid == [])
  }

  lemma StopsAgree(d: Decode, insts: seq<Inst>, stalled: bool, squash: bool, width: nat)
    requires (d.status.Unblocking? ==> d.skid != []) && (!Stopped(d) ==> d.skid == [])
    ensures Agrees(d, DecodeCycle(d, insts, stalled, squash, width).d)
  {
    hide Taken, Redirects;
  }

  /** Decode's status and its signals move together. */
  lemma HandshakeStep(g: Config, w: World, i: Input)
    requires HandshakeInv(w)
    ensures HandshakeInv(Next(g, w, i))
  {
    StopsAgree(w.d, w.wire, i.stalled, i.squash, g.decodeWidth);
    hide DecodeCycle, Sends, Queued, AllSquashed, Live, SendCount;
  }

  lemma {:induction false} LiveConcat(a: seq<Inst>, b: seq<Inst>)
    ensures Live(a + b) == Live(a) + Live(b)
  {
    if b == [] {
      assert a + b == a && Live(b) == [];
    } else {
      LiveConcat(a, b[..|b| - 1]);
      assert (a + b)[|a + b| - 1] == b[|b| - 1];
      assert (a + b)[..|a + b| - 1] == a + b[..|b| - 1];
    }
  }

  /** Out of `all`, the oldest are used up and the rest kept in order, unless one of them redirects fetch. */
  predicate UsesInOrder(o: Outcome, all: seq<Inst>)
  {
    && (!o.redirected ==> o.used + o.d.skid == all)
    && (o.redirected ==> o.d.skid == [] && o.used != [] && o.used <= all
                         && o.used[|o.used| - 1].redirects && !o.used[|o.used| - 1].squashed)
  }

  lemma RunsInOrder(d: Decode, insts: seq<Inst>, width: nat)
    requires d.skid == []
    ensures UsesInOrder(RunStep(d, insts, width), insts)
  {
    hide Taken;
    var n := Taken(insts, width);
    assert insts == insts[..n] + insts[n..];
    assert d.skid + insts[n..] == insts[n..];
  }

  lemma UnblocksInOrder(d: Decode, insts: seq<Inst>, width: nat)
    ensures UsesInOrder(UnblockStep(d, insts, width), d.skid + insts)
  {
    hide Taken;
    var n := Taken(d.skid, width);
    assert d.skid + insts == d.skid[..n] + (d.skid[n..] + insts);
  }

  /** A cycle of decode uses its instructions in order: those kept before, then those from fetch. */
  lemma DecodeKeepsOrder(d: Decode, insts: seq<Inst>, stalled: bool, width: nat)
    requires !Stopped(d) ==> d.skid == []
    ensures UsesInOrder(DecodeCycle(d, insts, stalled, false, width), d.skid + insts)
  {
    var e := Signalled(d.(block := false, unblock := false), insts, stalled, false);
    hide RunStep, UnblockStep;
    if stalled {
      assert [] + (d.skid + insts) == d.skid + insts;
    } else if e.status.Unblocking? {
      UnblocksInOrder(e, insts, width);
    } else {
      assert d.skid + insts == insts;
      RunsInOrder(e, insts, width);
    }
  }

  // ---- What a cycle passes on -------------------------------------------------------------------

  /** The filter drops exactly the squashed instructions. */
  lemma {:induction false} LiveKeeps(s: seq<Inst>)
    ensures forall x :: x in Live(s) <==> x in s && !x.squashed
    ensures (forall k | 0 <= k < |s| :: !s[k].squashed) ==> Live(s) == s
  {
    if s != [] {
      LiveKeeps(s[..|s| - 1]);
      assert s == s[..|s| - 1] + [s[|s| - 1]];
    }
  }

  /** The chain filter drops exactly the instructions off the chain. */
  lemma {:induction false} OnChainKeeps(s: seq<Inst>)
    ensures forall x :: x in OnChain(s) <==> x in s && !x.offChain
    ensures (forall k | 0 <= k < |s| :: !s[k].offChain) ==> OnChain(s) == s
  {
    if s != [] {
      OnChainKeeps(s[..|s| - 1]);
      assert s == s[..|s| - 1] + [s[|s| - 1]];
    }
  }

  lemma {:induction false} OnChainConcat(a: seq<Inst>, b: seq<Inst>)
    ensures OnChain(a + b) == OnChain(a) + OnChain(b)
  {
    if b == [] {
      assert a + b == a && OnChain(b) == [];
    } else {
      OnChainConcat(a, b[..|b| - 1]);
      assert (a + b)[|a + b| - 1] == b[|b| - 1];
      assert (a + b)[..|a + b| - 1] == a + b[..|b| - 1];
    }
  }

  /** A live instruction whose target is wrong. */
  predicate Turns(x: Inst)
  {
    !x.squashed && x.redirects
  }

  /**
   * `used` is what a cycle of width `width` owes `q`: a prefix with no more live instructions than that, which ends
   * early only behind the live instruction that fills the width, or that redirects.
   */
  predicate Passes(q: seq<Inst>, used: seq<Inst>, redirected: bool, width: nat)
  {
    && used <= q && |Live(used)| <= width
    && (redirected <==> used != [] && Turns(used[|used| - 1]))
    && (forall k | 0 <= k < |used| - 1 :: !Turns(used[k]))
    && (!redirected && used != q ==> |Live(used)| == width)
    && (used != q && used != [] ==> !used[|used| - 1].squashed)
  }

  lemma LiveCons(x: Inst, s: seq<Inst>)
    ensures Live([x] + s) == (if x.squashed then [] else [x]) + Live(s)
  {
    LiveConcat([x], s);
    assert [x][..0] == [] && Live([]) == [];
  }

  lemma PassesFirst(q: seq<Inst>, width: nat)
    requires q == [] || width == 0 || Turns(q[0])
    ensures Passes(q, q[..Taken(q, width)], Redirects(q, width), width)
  {
    assert Live([]) == [];
    if q != [] && width > 0 {
      LiveCons(q[0], []);
      assert [q[0]] + [] == q[..1];
    }
  }

  lemma PassesCons(x: Inst, q: seq<Inst>, used: seq<Inst>, redirected: bool, width: nat)
    requires Passes(q, used, redirected, width) && !Turns(x) && (x.squashed ==> width > 0)
    ensures Passes([x] + q, [x] + used, redirected, if x.squashed then width else width + 1)
  {
    LiveCons(x, used);
    assert Live([]) == [];
    hide Live, Turns;
  }

  /** One more instruction that neither is squashed for nothing nor redirects. */
  lemma TakenCons(q: seq<Inst>, width: nat)
    requires q != [] && width > 0 && !Turns(q[0])
    ensures var left := if q[0].squashed then width else width - 1;
            && q[..Taken(q, width)] == [q[0]] + q[1..][..Taken(q[1..], left)]
            && Redirects(q, width) == Redirects(q[1..], left)
  {
  }

  /** The loop's count gives the cycle exactly what it owes, and says when it redirects. */
  lemma {:induction false} TakenPasses(q: seq<Inst>, width: nat)
    ensures Passes(q, q[..Taken(q, width)], Redirects(q, width), width)
  {
    hide Passes, Turns, Redirects;
    if q == [] || width == 0 || Turns(q[0]) {
      PassesFirst(q, width);
    } else {
      var rest, left := q[1..], if q[0].squashed then width else width - 1;
      TakenPasses(rest, left);
      TakenCons(q, width);
      hide Taken;
      PassesCons(q[0], rest, rest[..Taken(rest, left)], Redirects(rest, left), left);
      assert q == [q[0]] + rest;
    }
  }

  /** What decode works on: what it kept, if it was stopped, and otherwise what arrives. */
  function Source(d: Decode, insts: seq<Inst>): seq<Inst>
  {
    if Stopped(d) && d.skid != [] then d.skid else insts
  }

  /** A cycle passes on exactly what its width allows, and nothing in a cycle that is stalled or squashed. */
  lemma DecodeUsesWidth(d: Decode, insts: seq<Inst>, stalled: bool, squash: bool, width: nat)
    requires (d.status.Unblocking? ==> d.skid != []) && (!Stopped(d) ==> d.skid == [])
    ensures var o := DecodeCycle(d, insts, stalled, squash, width);
            && |Live(o.used)| <= width
            && if stalled || squash then o.used == [] && !o.redirected
               else Passes(Source(d, insts), o.used, o.redirected, width)
  {
    assert Live([]) == [];
    TakenPasses(Source(d, insts), width);
    assert |Live(Source(d, insts)[..Taken(Source(d, insts), width)])| <= width;
    hide Taken, Redirects, Passes;
    assert Source(d, insts)[..|Source(d, insts)|] == Source(d, insts);
  }

  lemma SameOrder(sent: seq<Inst>, used: seq<Inst>, skid: seq<Inst>, wire: seq<Inst>, more: seq<Inst>, kept: seq<Inst>,
                  fetched: seq<Inst>)
    requires sent == used + skid + wire && more + kept == skid + wire
    ensures sent + fetched == (used + more) + kept + fetched
  {
    assert used + skid + wire == used + (skid + wire);
    assert (used + more) + kept == used + (more + kept);
  }

  lemma QuietOrderStep(g: Config, w: World, i: Input)
    requires HandshakeInv(w) && OrderInv(w) && !i.squash
    requires !DecodeCycle(w.d, w.wire, i.stalled, false, g.decodeWidth).redirected
    ensures OrderInv(Next(g, w, i))
  {
    var o := DecodeCycle(w.d, w.wire, i.stalled, false, g.decodeWidth);
    DecodeKeepsOrder(w.d, w.wire, i.stalled, g.decodeWidth);
    hide DecodeCycle, Sends, Live, HandshakeInv;
    LiveConcat(w.used, o.used);
    SameOrder(w.sent, w.used, w.d.skid, w.wire, o.used, o.d.skid, Sends(g, w, i));
  }

  lemma OrderStep(g: Config, w: World, i: Input)
    requires HandshakeInv(w) && OrderInv(w)
    ensures OrderInv(Next(g, w, i))
  {
    var v, o := Next(g, w, i), DecodeCycle(w.d, w.wire, i.stalled, i.squash, g.decodeWidth);
    if i.squash || o.redirected {
      if !i.squash {
        DecodeKeepsOrder(w.d, w.wire, i.stalled, g.decodeWidth);
      }
      assert v.d.skid == [] && Live([]) == [];
      assert [] + [] + v.wire == v.wire;
    } else {
      QuietOrderStep(g, w, i);
    }
  }

  lemma SendsFewEnough(g: Config, w: World, i: Input)
    requires Fits(g, w, i)
    ensures |Sends(g, w, i)| <= Burst(g)
    ensures NextStall(w) ==> Sends(g, w, i) == []
  {
  }

  lemma SizeStep(g: Config, w: World, i: Input)
    requires HandshakeInv(w) && SizeInv(g, w) && Fits(g, w, i)
    ensures SizeInv(g, Next(g, w, i))
  {
    SendsFewEnough(g, w, i);
    var o := DecodeCycle(w.d, w.wire, i.stalled, i.squash, g.decodeWidth);
    assert |o.d.skid| <= |w.d.skid| + |w.wire| by {
      if !i.squash {
        DecodeKeepsOrder(w.d, w.wire, i.stalled, g.decodeWidth);
        hide DecodeCycle;
        assert |w.d.skid + w.wire| == |w.d.skid| + |w.wire|;
      }
    }
    hide DecodeCycle, Sends;
  }

  // ---- Runs -------------------------------------------------------------------------------------

  const START := World([], false, [], Decode(Idle, [], false, false), false, [], [], [])

  predicate Possible(g: Config, w: World, inputs: seq<Input>)
  {
    inputs == [] || (Possible(g, w, inputs[..|inputs| - 1])
                     && Fits(g, After(g, w, inputs[..|inputs| - 1]), inputs[|inputs| - 1]))
  }

  function After(g: Config, w: World, inputs: seq<Input>): World
  {
    if inputs == [] then w else Next(g, After(g, w, inputs[..|inputs| - 1]), inputs[|inputs| - 1])
  }

  lemma {:induction false} RunKeepsInv(g: Config, w: World, inputs: seq<Input>)
    requires Inv(g, w) && Possible(g, w, inputs)
    ensures Inv(g, After(g, w, inputs))
  {
    if inputs != [] {
      var u, i := After(g, w, inputs[..|inputs| - 1]), inputs[|inputs| - 1];
      RunKeepsInv(g, w, inputs[..|inputs| - 1]);
      HandshakeStep(g, u, i);
      SizeStep(g, u, i);
      OrderStep(g, u, i);
    }
  }

  lemma Extend(g: Config, w: World, inputs: seq<Input>, i: Input)
    requires Possible(g, w, inputs) && Fits(g, After(g, w, inputs), i)
    ensures Possible(g, w, inputs + [i]) && After(g, w, inputs + [i]) == Next(g, After(g, w, inputs), i)
  {
    assert (inputs + [i])[..|inputs + [i]| - 1] == inputs;
  }

  /** Fetch's asserts hold, and decode is stopped exactly when fetch is, or is about to be, stalled. */
  lemma HandshakeHolds(g: Config, inputs: seq<Input>)
    requires Possible(g, START, inputs)
    ensures var w := After(g, START, inputs);
            && (Stopped(w.d) <==> NextStall(w)) && FetchAsserts(w)
            && (forall i: Input ::
                  var e := Signalled(w.d.(block := false, unblock := false), w.wire, i.stalled, i.squash);
                  e.status.Unblocking? ==> e.skid != [])
  {
    RunKeepsInv(g, START, inputs);
  }

  /** Since the last squash, what rename got and what is still held or on the wire is what fetch sent, in order. */
  lemma NothingLostOrReordered(g: Config, inputs: seq<Input>)
    requires Possible(g, START, inputs)
    ensures var w := After(g, START, inputs); w.renamed + Live(w.d.skid) + Live(w.wire) == Live(w.sent)
  {
    RunKeepsInv(g, START, inputs);
    var w := After(g, START, inputs);
    LiveConcat(w.used + w.d.skid, w.wire);
    LiveConcat(w.used, w.d.skid);
  }

  /** A cycle in which decode itself squashes still hands on, in order, everything up to the redirecting instruction. */
  lemma RedirectPassesPrefix(g: Config, inputs: seq<Input>, stalled: bool)
    requires Possible(g, START, inputs)
    ensures var w := After(g, START, inputs);
            UsesInOrder(DecodeCycle(w.d, w.wire, stalled, false, g.decodeWidth), w.d.skid + w.wire)
  {
    RunKeepsInv(g, START, inputs);
    var w := After(g, START, inputs);
    DecodeKeepsOrder(w.d, w.wire, stalled, g.decodeWidth);
  }

  /**
   * In every reachable state, a cycle passes on the longest in-order prefix of what decode works on that its width and
   * the first redirecting instruction allow.
   */
  lemma EveryCyclePasses(g: Config, inputs: seq<Input>, stalled: bool, squash: bool)
    requires Possible(g, START, inputs)
    ensures var w := After(g, START, inputs);
            var o := DecodeCycle(w.d, w.wire, stalled, squash, g.decodeWidth);
            && |Live(o.used)| <= g.decodeWidth
            && if stalled || squash then o.used == [] && !o.redirected
               else Passes(Source(w.d, w.wire), o.used, o.redirected, g.decodeWidth)
  {
    RunKeepsInv(g, START, inputs);
    var w := After(g, START, inputs);
    DecodeUsesWidth(w.d, w.wire, stalled, squash, g.decodeWidth);
    hide DecodeCycle, Source, Live;
  }

  /** Unless it is stalled, fetch empties its queue or sends a full width of it, and what it sends is the chain of that. */
  lemma FetchSends(g: Config, w: World, i: Input)
    ensures var v, n := Next(g, w, i), |Queued(w, i)| - |Next(g, w, i).queue|;
            && 0 <= n <= g.decodeWidth && v.queue == Queued(w, i)[n..]
            && (NextStall(w) ==> n == 0)
            && (!NextStall(w) ==> v.queue == [] || n == g.decodeWidth)
            && (!i.squash && !DecodeCycle(w.d, w.wire, i.stalled, false, g.decodeWidth).redirected ==>
                  forall x :: x in v.wire <==> x in Queued(w, i)[..n] && !x.offChain)
  {
    OnChainKeeps(Queued(w, i)[..SendCount(g, w, i)]);
    hide DecodeCycle, OnChain, Queued;
  }

  predicate AllOnChain(s: seq<Inst>)
  {
    forall k | 0 <= k < |s| :: !s[k].offChain
  }

  lemma SendsOnChain(g: Config, w: World, i: Input)
    ensures AllOnChain(Sends(g, w, i))
  {
    OnChainKeeps(Queued(w, i)[..SendCount(g, w, i)]);
    hide OnChain, Queued;
    assert forall x | x in Sends(g, w, i) :: !x.offChain;
  }

  /** No instruction off the runahead chain ever gets past fetch: none is on the wire, kept, or handed to rename. */
  lemma OffChainStaysBehind(g: Config, inputs: seq<Input>)
    requires Possible(g, START, inputs)
    ensures var w := After(g, START, inputs);
            AllOnChain(w.sent) && AllOnChain(w.wire) && AllOnChain(w.d.skid) && AllOnChain(w.renamed)
  {
    SentOnChain(g, inputs);
    RunKeepsInv(g, START, inputs);
    hide After, Possible, Live, AllOnChain, HandshakeInv, SizeInv;
    var w := After(g, START, inputs);
    PartsOnChain(w.used, w.d.skid, w.wire);
  }

  lemma PartsOnChain(used: seq<Inst>, skid: seq<Inst>, wire: seq<Inst>)
    requires AllOnChain(used + skid + wire)
    ensures AllOnChain(skid) && AllOnChain(wire) && AllOnChain(Live(used))
  {
    var all := used + skid + wire;
    assert forall k | 0 <= k < |used| :: used[k] == all[k];
    assert forall k | 0 <= k < |skid| :: skid[k] == all[|used| + k];
    assert forall k | 0 <= k < |wire| :: wire[k] == all[|used| + |skid| + k];
    LiveKeeps(used);
    hide Live;
    assert forall k | 0 <= k < |Live(used)| :: Live(used)[k] in Live(used);
  }

  lemma {:induction false} SentOnChain(g: Config, inputs: seq<Input>)
    ensures AllOnChain(After(g, START, inputs).sent)
  {
    if inputs != [] {
      var w, i := After(g, START, inputs[..|inputs| - 1]), inputs[|inputs| - 1];
      SentOnChain(g, inputs[..|inputs| - 1]);
      SendsOnChain(g, w, i);
      hide DecodeCycle, Sends, Queued;
    }
  }

  lemma StopsForWork(d: Decode, insts: seq<Inst>, width: nat)
    requires (d.status.Unblocking? ==> d.skid != []) && (!Stopped(d) ==> d.skid == [])
    ensures var e := DecodeCycle(d, insts, false, false, width).d; Stopped(e) <==> e.skid != []
  {
    hide Taken, Redirects;
  }

  /** After a cycle that is neither stalled nor squashed, decode is stopped exactly while it keeps something. */
  lemma StopsOnlyForWork(g: Config, inputs: seq<Input>)
    requires Possible(g, START, inputs)
    ensures var w := After(g, START, inputs);
            var d := DecodeCycle(w.d, w.wire, false, false, g.decodeWidth).d;
            Stopped(d) <==> d.skid != []
  {
    hide DecodeCycle, Taken, Redirects, After, Possible;
    RunKeepsInv(g, START, inputs);
    var w := After(g, START, inputs);
    StopsForWork(w.d, w.wire, g.decodeWidth);
  }

  // ---- The skid buffer bound --------------------------------------------------------------------

  /** With one cycle from fetch to decode. */
  function SkidMax(g: Config): nat
  {
    2 * g.fetchWidth
  }

  lemma SkidStaysBelowBursts(g: Config, inputs: seq<Input>)
    requires Possible(g, START, inputs)
    ensures |After(g, START, inputs).d.skid| <= 2 * Burst(g)
  {
    RunKeepsInv(g, START, inputs);
  }

  const PLAIN := Inst(0, false, false, false)

  function Plain(n: nat): (s: seq<Inst>)
    ensures |s| == n
  {
    seq(n, _ => PLAIN)
  }

  lemma {:induction false} PlainIsOnChain(s: seq<Inst>)
    requires s == Plain(|s|)
    ensures OnChain(s) == s
  {
    if s != [] {
      assert s[..|s| - 1] == Plain(|s| - 1);
      PlainIsOnChain(s[..|s| - 1]);
    }
  }

  /** Decode stopped with an empty skid buffer, fetch stalled with `n` instructions waiting. */
  predicate Waiting(w: World, n: nat)
  {
    && w.queue == Plain(n) && NextStall(w) && w.wire == [] && w.d.status.Blocked? && w.d.skid == [] && !w.refetch
    && !w.d.unblock
  }

  /** Nothing is stopped: decode takes what is on the wire and fetch holds nothing back. */
  predicate Flowing(w: World)
  {
    && w.queue == [] && !w.stall && (w.wire == [] || w.wire == [PLAIN]) && !w.refetch
    && (w.d.status.Idle? || w.d.status.Running?) && w.d.skid == [] && !w.d.block && !w.d.unblock
  }

  const ONE := Input([PLAIN], false, false)

  /** `n` instructions pass through to rename, one a cycle. */
  function Warm(n: nat): seq<Input>
  {
    if n == 0 then [] else Warm(n - 1) + [ONE]
  }

  /** A cycle of decode that is not stopped passes at most one plain instruction on. */
  lemma DecodePasses(d: Decode, insts: seq<Inst>, width: nat)
    requires (insts == [] || insts == [PLAIN]) && 0 < width && d.skid == [] && !d.block && !d.unblock
    requires d.status.Idle? || d.status.Running?
    ensures DecodeCycle(d, insts, false, false, width) == Outcome(d, insts, false)
  {
    if insts != [] {
      assert insts[1..] == [];
    }
  }

  lemma OnlyPlain(s: seq<Inst>)
    requires s == [] || s == [PLAIN]
    ensures Live(s) == s && OnChain(s) == s && s[..|s|] == s && s[|s|..] == []
  {
    assert [PLAIN][..0] == [] && Live([]) == [] && OnChain([]) == [];
  }

  lemma FlowStep(g: Config, w: World, i: Input)
    requires Flowing(w) && 0 < g.decodeWidth && (i == ONE || i == QUIET)
    ensures var v := Next(g, w, i);
            Flowing(v) && v.renamed == w.renamed + w.wire && v.wire == i.fetched
  {
    DecodePasses(w.d, w.wire, g.decodeWidth);
    OnlyPlain(w.wire);
    OnlyPlain(i.fetched);
    assert Queued(w, i) == i.fetched;
    hide DecodeCycle, Live, OnChain, Queued;
  }

  lemma FlowFits(g: Config, w: World, i: Input)
    requires Flowing(w) && 0 < g.fetchWidth && 0 < g.queueSize && (i == ONE || i == QUIET)
    ensures Fits(g, w, i)
  {
  }

  lemma NothingYet(g: Config)
    ensures Possible(g, START, []) && After(g, START, []) == START
  {
  }

  lemma {:induction false} WarmFlows(g: Config, n: nat)
    requires 0 < g.fetchWidth && 0 < g.decodeWidth && 0 < g.queueSize
    ensures Possible(g, START, Warm(n)) && Flowing(After(g, START, Warm(n)))
    ensures var w := After(g, START, Warm(n)); |w.renamed| + |w.wire| == n
  {
    hide Possible, After, Next, Fits;
    if n == 0 {
      NothingYet(g);
    } else {
      hide Flowing;
      WarmFlows(g, n - 1);
      var w := After(g, START, Warm(n - 1));
      FlowFits(g, w, ONE);
      FlowStep(g, w, ONE);
      Extend(g, START, Warm(n - 1), ONE);
    }
  }

  /** The same, and the last one is through. */
  lemma WarmIsThrough(g: Config, n: nat)
    requires 0 < g.fetchWidth && 0 < g.decodeWidth && 0 < g.queueSize
    ensures Possible(g, START, Warm(n) + [QUIET])
    ensures var w := After(g, START, Warm(n) + [QUIET]); Flowing(w) && w.wire == [] && |w.renamed| == n
  {
    WarmFlows(g, n);
    FlowFits(g, After(g, START, Warm(n)), QUIET);
    FlowStep(g, After(g, START, Warm(n)), QUIET);
    hide Possible, After, Next;
    Extend(g, START, Warm(n), QUIET);
  }

  const FILL := Input([PLAIN], true, false)

  /** Then rename stalls and fetch fills its queue. */
  function Filling(warm: seq<Input>, n: nat): seq<Input>
  {
    if n == 0 then warm + [Input([], true, false)] else Filling(warm, n - 1) + [FILL]
  }

  lemma FillStep(g: Config, w: World, n: nat)
    requires Waiting(w, n) && 0 < g.fetchWidth && n < g.queueSize
    ensures Fits(g, w, FILL) && Waiting(Next(g, w, FILL), n + 1)
  {
    assert Queued(w, FILL) == Plain(n + 1);
    assert Next(g, w, FILL).queue == Plain(n + 1);
    assert OnChain([]) == [];
  }

  /** Rename stalls while nothing is held: decode stops with an empty skid buffer. */
  lemma StopsEmpty(g: Config, w: World)
    requires Flowing(w) && w.wire == []
    ensures Fits(g, w, Input([], true, false)) && Waiting(Next(g, w, Input([], true, false)), 0)
  {
    assert Next(g, w, Input([], true, false)).queue == [] == Plain(0);
    assert OnChain([]) == [];
  }

  lemma {:induction false} FillingFills(g: Config, warm: seq<Input>, n: nat)
    requires 0 < g.fetchWidth && n <= g.queueSize && Possible(g, START, warm)
    requires Flowing(After(g, START, warm)) && After(g, START, warm).wire == []
    ensures Possible(g, START, Filling(warm, n)) && Waiting(After(g, START, Filling(warm, n)), n)
  {
    if n == 0 {
      StopsEmpty(g, After(g, START, warm));
      hide Waiting, Possible, After, Next, Fits, Flowing;
      Extend(g, START, warm, Input([], true, false));
    } else {
      FillingFills(g, warm, n - 1);
      FillStep(g, After(g, START, Filling(warm, n - 1)), n - 1);
      hide Waiting, Possible, After, Next, Fits, Flowing;
      Extend(g, START, Filling(warm, n - 1), FILL);
    }
  }

  const QUIET := Input([], false, false)

  /** Then decode lets go, a full burst comes, decode stops, and before fetch knows another batch comes. */
  function Refill(g: Config): Input
  {
    Input(Plain(g.fetchWidth), true, false)
  }

  lemma LetsGo(g: Config, w: World, n: nat)
    requires Waiting(w, n) && n <= g.queueSize
    ensures var v := Next(g, w, QUIET);
            && Fits(g, w, QUIET) && v.queue == Plain(n) && !NextStall(v) && v.wire == [] && v.d.status.Running?
            && v.d.skid == [] && !v.refetch
  {
    assert Queued(w, QUIET) == Plain(n);
    assert OnChain([]) == [];
  }

  lemma SendsPlain(g: Config, w: World, i: Input, n: nat)
    requires Queued(w, i) == Plain(n) && !NextStall(w)
    ensures var m := if n < g.decodeWidth then n else g.decodeWidth;
            SendCount(g, w, i) == m && Sends(g, w, i) == Plain(m) && Queued(w, i)[m..] == Plain(n - m)
  {
    var m := SendCount(g, w, i);
    assert Plain(n)[..m] == Plain(m);
    PlainIsOnChain(Plain(m));
    assert Plain(n)[m..] == Plain(n - m);
  }

  /** Running with nothing from fetch. */
  lemma QuietDecode(d: Decode, width: nat)
    requires d.status.Running? && d.skid == []
    ensures DecodeCycle(d, [], false, false, width) == Outcome(Decode(Running, [], false, false), [], false)
  {
  }

  /** Running with a stall from rename. */
  lemma StalledDecode(d: Decode, insts: seq<Inst>, width: nat)
    requires d.status.Running? && d.skid == []
    ensures DecodeCycle(d, insts, true, false, width) == Outcome(Decode(Blocked, insts, true, false), [], false)
  {
    assert [] + insts == insts;
  }

  lemma BurstComes(g: Config, w: World)
    requires w.queue == Plain(g.queueSize) && !NextStall(w) && w.wire == [] && w.d.status.Running? && w.d.skid == []
    requires !w.refetch
    ensures var v := Next(g, w, QUIET);
            && Fits(g, w, QUIET) && v.queue == Plain(g.queueSize - Burst(g)) && !NextStall(v)
            && v.wire == Plain(Burst(g)) && v.d.status.Running? && v.d.skid == [] && !v.refetch
  {
    assert Queued(w, QUIET) == Plain(g.queueSize);
    SendsPlain(g, w, QUIET, g.queueSize);
    QuietDecode(w.d, g.decodeWidth);
    hide DecodeCycle, Sends, SendCount, Queued, Plain;
  }

  lemma SecondBurstComes(g: Config, w: World)
    requires w.queue == Plain(g.queueSize - Burst(g)) && !NextStall(w) && w.wire == Plain(Burst(g))
    requires w.d.status.Running? && w.d.skid == [] && !w.refetch && 0 < g.fetchWidth < Burst(g)
    ensures var v := Next(g, w, Refill(g));
            && Fits(g, w, Refill(g)) && v.d.status.Blocked? && |v.d.skid| == Burst(g)
            && |v.d.skid| + |v.wire| > SkidMax(g)
  {
    var n := g.queueSize - Burst(g) + g.fetchWidth;
    assert Queued(w, Refill(g)) == Plain(n);
    SendsPlain(g, w, Refill(g), n);
    StalledDecode(w.d, w.wire, g.decodeWidth);
    hide DecodeCycle, Sends, SendCount, Queued;
  }

  /** `n` instructions go through; then rename stalls until fetch is full, recovers for two cycles and stalls again. */
  function OverflowRun(g: Config, n: nat): seq<Input>
  {
    Filling(Warm(n) + [QUIET], g.queueSize) + [QUIET] + [QUIET] + [Refill(g)] + [Input([], true, false)]
  }

  /** A fetch that can send more in a cycle than it can fetch overruns the skid buffer, however long it ran well. */
  lemma SkidOverflows(g: Config, n: nat)
    requires 0 < g.fetchWidth < Burst(g)
    ensures Possible(g, START, Warm(n) + [QUIET]) && |After(g, START, Warm(n) + [QUIET]).renamed| == n
    ensures Possible(g, START, OverflowRun(g, n)) && |After(g, START, OverflowRun(g, n)).d.skid| > SkidMax(g)
  {
    WarmIsThrough(g, n);
    var r0 := Filling(Warm(n) + [QUIET], g.queueSize);
    FillingFills(g, Warm(n) + [QUIET], g.queueSize);
    LetsGo(g, After(g, START, r0), g.queueSize);
    var last := Input([], true, false);
    hide Possible, After, Next, Waiting, Fits, NextStall, Flowing, Filling, Warm;
    Extend(g, START, r0, QUIET);
    BurstComes(g, After(g, START, r0 + [QUIET]));
    Extend(g, START, r0 + [QUIET], QUIET);
    SecondBurstComes(g, After(g, START, r0 + [QUIET] + [QUIET]));
    Extend(g, START, r0 + [QUIET] + [QUIET], Refill(g));
    LastStop(g, r0 + [QUIET] + [QUIET] + [Refill(g)]);
    Extend(g, START, r0 + [QUIET] + [QUIET] + [Refill(g)], last);
  }

  lemma LastStop(g: Config, inputs: seq<Input>)
    requires Possible(g, START, inputs) && After(g, START, inputs).d.status.Blocked?
    ensures var w, i := After(g, START, inputs), Input([], true, false);
            Fits(g, w, i) && |Next(g, w, i).d.skid| == |w.d.skid| + |w.wire|
  {
    RunKeepsInv(g, START, inputs);
  }

  /**
   * The skid buffer's assert never fails, in any run, exactly when fetch can send no more in a cycle than it fetches:
   * when decode is no wider than fetch, or fetch's queue no longer than one fetch.
   */
  lemma SkidFitsExactly(g: Config)
    requires 0 < g.fetchWidth
    ensures (forall inputs | Possible(g, START, inputs) :: |After(g, START, inputs).d.skid| <= SkidMax(g))
            <==> g.decodeWidth <= g.fetchWidth || g.queueSize <= g.fetchWidth
  {
    if g.decodeWidth <= g.fetchWidth || g.queueSize <= g.fetchWidth {
      forall inputs | Possible(g, START, inputs) ensures |After(g, START, inputs).d.skid| <= SkidMax(g) {
        SkidStaysBelowBursts(g, inputs);
      }
    } else {
      SkidOverflows(g, 0);
      assert Possible(g, START, OverflowRun(g, 0));
    }
  }
}
