/** Nothing of a wrong path gets through fetch and decode once it has been squashed. */
module FetchPath {
  import opened Prelude
  import opened FetchDecode

  function AllFetched(inputs: seq<Input>): seq<Inst>
  {
    if inputs == [] then [] else AllFetched(inputs[..|inputs| - 1]) + inputs[|inputs| - 1].fetched
  }

  predicate LiveFrom(s: seq<Inst>, from: seq<Inst>)
  {
    forall x | x in Live(s) :: x in from
  }

  /** What is live in the pipeline, and what fetch will still send, is among the instructions `from`. */
  predicate OnPath(w: World, from: seq<Inst>)
  {
    && LiveFrom(w.wire, from) && LiveFrom(w.d.skid, from) && LiveFrom(w.used, from)
    && (w.refetch || forall x | x in w.queue :: x in from)
  }

  lemma LiveFromMore(s: seq<Inst>, from: seq<Inst>, more: seq<Inst>)
    requires LiveFrom(s, from)
    ensures LiveFrom(s, from + more)
  {
  }

  /** Parts of `a + b` that make up the same list are live from the same. */
  lemma LiveFromParts(a: seq<Inst>, b: seq<Inst>, c: seq<Inst>, d: seq<Inst>, from: seq<Inst>)
    requires LiveFrom(a, from) && LiveFrom(b, from) && c + d == a + b
    ensures LiveFrom(c, from) && LiveFrom(d, from)
  {
    LiveConcat(a, b);
    LiveConcat(c, d);
    hide Live;
    assert forall x | x in Live(c) || x in Live(d) :: x in Live(c) + Live(d);
  }

  lemma {:induction false} SquashedAreDead(s: seq<Inst>)
    ensures Live(AllSquashed(s)) == []
  {
    if s != [] {
      assert AllSquashed(s)[..|s| - 1] == AllSquashed(s[..|s| - 1]);
      SquashedAreDead(s[..|s| - 1]);
    }
  }

  lemma SendsFrom(g: Config, w: World, i: Input, from: seq<Inst>)
    requires w.refetch || i.squash || forall x | x in w.queue :: x in from
    ensures forall x | x in Queued(w, i) :: x in from + i.fetched
    ensures LiveFrom(Sends(g, w, i), from + i.fetched)
  {
    var some := Queued(w, i)[..SendCount(g, w, i)];
    OnChainKeeps(some);
    LiveKeeps(OnChain(some));
    hide Live, OnChain;
    assert forall x | x in some :: x in Queued(w, i);
  }

  /** A squash from commit, or a redirect of decode, starts a new path: nothing older than it is live, or will be sent. */
  lemma NewPath(g: Config, w: World, i: Input)
    requires HandshakeInv(w)
    requires i.squash || DecodeCycle(w.d, w.wire, i.stalled, i.squash, g.decodeWidth).redirected
    ensures OnPath(Next(g, w, i), if i.squash then i.fetched else [])
  {
    var o := DecodeCycle(w.d, w.wire, i.stalled, i.squash, g.decodeWidth);
    SquashedAreDead(Sends(g, w, i));
    if i.squash {
      SendsFrom(g, w, i, []);
      assert [] + i.fetched == i.fetched;
    } else {
      DecodeKeepsOrder(w.d, w.wire, i.stalled, g.decodeWidth);
    }
    assert Live([]) == [];
    hide Live, Sends, AllSquashed;
  }

  lemma PathContinues(g: Config, w: World, i: Input, from: seq<Inst>)
    requires HandshakeInv(w) && OnPath(w, from)
    requires !i.squash && !DecodeCycle(w.d, w.wire, i.stalled, false, g.decodeWidth).redirected
    ensures OnPath(Next(g, w, i), from + i.fetched)
  {
    var o := DecodeCycle(w.d, w.wire, i.stalled, false, g.decodeWidth);
    DecodeKeepsOrder(w.d, w.wire, i.stalled, g.decodeWidth);
    SendsFrom(g, w, i, from);
    hide DecodeCycle, Sends, Live, LiveFrom, HandshakeInv, Queued;
    LiveFromParts(w.d.skid, w.wire, o.used, o.d.skid, from);
    LiveFromMore(o.used, from, i.fetched);
    LiveFromMore(o.d.skid, from, i.fetched);
    LiveFromMore(w.used, from, i.fetched);
    LiveFromBoth(w.used, o.used, from + i.fetched);
  }

  lemma LiveFromBoth(a: seq<Inst>, b: seq<Inst>, from: seq<Inst>)
    requires LiveFrom(a, from) && LiveFrom(b, from)
    ensures LiveFrom(a + b, from)
  {
    LiveConcat(a, b);
    hide Live;
  }

  /** The cycles of the run in which the path stays the same. */
  predicate NoTurn(g: Config, w: World, inputs: seq<Input>)
  {
    inputs == [] ||
    (&& NoTurn(g, w, inputs[..|inputs| - 1]) && !inputs[|inputs| - 1].squash
     && var u := After(g, w, inputs[..|inputs| - 1]);
        !DecodeCycle(u.d, u.wire, inputs[|inputs| - 1].stalled, false, g.decodeWidth).redirected)
  }

  lemma {:induction false} PathStays(g: Config, w: World, inputs: seq<Input>, from: seq<Inst>)
    requires Inv(g, w) && Possible(g, w, inputs) && NoTurn(g, w, inputs) && OnPath(w, from)
    ensures OnPath(After(g, w, inputs), from + AllFetched(inputs))
  {
    hide Next, OnPath, Inv, Fits;
    if inputs == [] {
      assert from + [] == from;
    } else {
      var front, last := inputs[..|inputs| - 1], inputs[|inputs| - 1];
      PathStays(g, w, front, from);
      RunKeepsInv(g, w, front);
      InvHandshake(g, After(g, w, front));
      PathContinues(g, After(g, w, front), last, from + AllFetched(front));
      assert from + AllFetched(front) + last.fetched == from + (AllFetched(front) + last.fetched);
    }
  }

  lemma InvHandshake(g: Config, w: World)
    requires Inv(g, w)
    ensures HandshakeInv(w)
  {
  }

  /**
   * Nothing of a wrong path survives: after a squash from commit, or a redirect of decode, rename gets only what was
   * fetched since (with a squash, in that cycle or later; after a redirect, later than that cycle), until the next one.
   */
  lemma WrongPathIsGone(g: Config, past: seq<Input>, i: Input, inputs: seq<Input>, x: Inst)
    requires Possible(g, START, past) && Fits(g, After(g, START, past), i)
    requires var w := After(g, START, past);
             && (i.squash || DecodeCycle(w.d, w.wire, i.stalled, i.squash, g.decodeWidth).redirected)
             && Possible(g, Next(g, w, i), inputs) && NoTurn(g, Next(g, w, i), inputs)
             && x in After(g, Next(g, w, i), inputs).renamed
    ensures x in (if i.squash then i.fetched else []) + AllFetched(inputs)
  {
    var w := After(g, START, past);
    RunKeepsInv(g, START, past);
    NewPath(g, w, i);
    HandshakeStep(g, w, i);
    SizeStep(g, w, i);
    OrderStep(g, w, i);
    var v, from := Next(g, w, i), if i.squash then i.fetched else [];
    hide Next, DecodeCycle, NoTurn, Possible, Live;
    PathStays(g, v, inputs, from);
    RunKeepsInv(g, v, inputs);
  }
}
