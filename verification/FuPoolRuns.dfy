/** Which pools ever refuse a request although a capable unit is free, over all runs from the constructor. */
module FuPoolRuns {
  import opened Prelude
  import opened FuPool

  /** The pool the constructor builds: every unit free, nothing held. */
  function Built(numOps: nat, descs: seq<FuDesc>): Pool
  {
    Pool(seq(numOps, op requires 0 <= op < numOps => Queue(descs, op)), seq(NumUnits(descs), _ => false), [], {})
  }

  lemma BuiltIsValid(numOps: nat, descs: seq<FuDesc>)
    ensures Inv(Built(numOps, descs))
  {
    forall op, k | 0 <= op < numOps && 0 <= k < |Queue(descs, op)| ensures Queue(descs, op)[k] < NumUnits(descs) {
      QueueHoldsCapable(descs, op, Queue(descs, op)[k]);
    }
  }

  /** The next request for the operation is refused, and yet one of its units is free. */
  ghost predicate WronglyRefuses(p: Pool, op: nat)
  {
    op < |p.queues| && GetUnit(p.queues[op], p.busy).0 == NoFree && exists u :: u in p.queues[op] && !IsBusy(p.busy, u)
  }

  // ---- Rotations --------------------------------------------------------------------------------

  ghost predicate IsRotation(a: seq<nat>, b: seq<nat>)
  {
    exists k: nat :: k <= |b| && a == Rotate(b, k)
  }

  lemma RotateTwice(s: seq<nat>, k: nat, m: nat)
    requires k <= |s| && m <= |s|
    ensures Rotate(Rotate(s, k), m) == if k + m <= |s| then Rotate(s, k + m) else Rotate(s, k + m - |s|)
  {
    if k + m <= |s| {
      CutOnce(s[..k], s[k..k + m], s[k + m..]);
      assert s == s[..k] + s[k..k + m] + s[k + m..];
    } else {
      var i := k + m - |s|;
      CutAgain(s[..i], s[i..k], s[k..]);
      assert s == s[..i] + s[i..k] + s[k..];
    }
  }

  lemma CutOnce(a: seq<nat>, b: seq<nat>, c: seq<nat>)
    ensures var s := a + b + c; Rotate(Rotate(s, |a|), |b|) == Rotate(s, |a| + |b|)
  {
    var s := a + b + c;
    assert s[|a|..] == b + c && s[..|a|] == a && s[|a| + |b|..] == c && s[..|a| + |b|] == a + b;
    assert b + c + a == b + (c + a) && c + (a + b) == (c + a) + b;
  }

  lemma CutAgain(a: seq<nat>, b: seq<nat>, c: seq<nat>)
    ensures var s := a + b + c; Rotate(Rotate(s, |a| + |b|), |c| + |a|) == Rotate(s, |a|)
  {
    var s := a + b + c;
    assert s[|a| + |b|..] == c && s[..|a| + |b|] == a + b && s[|a|..] == b + c && s[..|a|] == a;
    assert c + (a + b) == (c + a) + b;
  }

  lemma RotationsCompose(a: seq<nat>, b: seq<nat>, c: seq<nat>)
    requires IsRotation(a, b) && IsRotation(b, c)
    ensures IsRotation(a, c)
  {
    var m: nat :| m <= |b| && a == Rotate(b, m);
    var k: nat :| k <= |c| && b == Rotate(c, k);
    RotateTwice(c, k, m);
  }

  lemma RotationsReverse(a: seq<nat>, b: seq<nat>)
    requires IsRotation(a, b)
    ensures IsRotation(b, a)
  {
    var k: nat :| k <= |b| && a == Rotate(b, k);
    RotateTwice(b, k, |b| - k);
    assert Rotate(b, |b|) == b;
    assert b == Rotate(a, |b| - k);
  }

  lemma RotationIsOne(s: seq<nat>, k: nat)
    requires k <= |s|
    ensures IsRotation(Rotate(s, k), s)
  {
  }

  lemma SelfRotation(s: seq<nat>)
    ensures IsRotation(s, s)
  {
    assert Rotate(s, 0) == s;
  }

  // ---- Runs -------------------------------------------------------------------------------------

  ghost predicate Reaches(p: Pool, v: Pool)
    requires Inv(p)
  {
    exists es :: Enabled(p, es) && After(p, es) == v
  }

  lemma {:induction false} RunKeepsInv(p: Pool, es: seq<Event>)
    requires Inv(p) && Enabled(p, es)
    ensures Inv(After(p, es))
    decreases |es|
  {
    hide Inv;
    if es != [] {
      StepKeepsInv(p, es[0]);
      RunKeepsInv(Next(p, es[0]), es[1..]);
    }
  }

  lemma {:induction false} RunExtends(p: Pool, es: seq<Event>, e: Event)
    requires Inv(p) && Enabled(p, es) && Inv(After(p, es)) && Guard(After(p, es), e)
    ensures Enabled(p, es + [e]) && After(p, es + [e]) == Next(After(p, es), e)
    decreases |es|
  {
    hide Inv, Next, Guard;
    if es == [] {
      assert [] + [e] == [e] && [e][1..] == [];
      StepKeepsInv(p, e);
    } else {
      assert (es + [e])[1..] == es[1..] + [e];
      StepKeepsInv(p, es[0]);
      RunExtends(Next(p, es[0]), es[1..], e);
    }
  }

  lemma ReachesSelf(p: Pool)
    requires Inv(p)
    ensures Reaches(p, p)
  {
    hide Inv;
    assert Enabled(p, []) && After(p, []) == p;
  }

  lemma ReachesNext(p: Pool, v: Pool, e: Event)
    requires Inv(p) && Reaches(p, v) && Inv(v) && Guard(v, e)
    ensures Inv(Next(v, e)) && Reaches(p, Next(v, e))
  {
    hide Inv, Next, Guard;
    var es :| Enabled(p, es) && After(p, es) == v;
    RunExtends(p, es, e);
    StepKeepsInv(v, e);
  }

  // ---- If every rotation is covered, no refusal is wrong ----------------------------------------

  lemma RequestRotates(p: Pool, op: nat, hold: bool)
    requires Inv(p) && op < |p.queues|
    ensures IsRotation(Next(p, Request(op, hold)).queues[op], p.queues[op])
  {
    var s := p.queues[op];
    if s == [] {
      SelfRotation(s);
    } else {
      var arc := Arc(s);
      var k := FirstFree(s[..arc], p.busy, 0);
      RotationIsOne(s, if k < arc then k + 1 else if arc == |s| then 1 else arc + 1);
    }
  }

  lemma {:induction false} RunRotates(p: Pool, es: seq<Event>, op: nat)
    requires Inv(p) && Enabled(p, es) && op < |p.queues|
    ensures |After(p, es).queues| == |p.queues| && IsRotation(After(p, es).queues[op], p.queues[op])
    decreases |es|
  {
    if es == [] {
      SelfRotation(p.queues[op]);
    } else {
      StepKeepsInv(p, es[0]);
      var v := Next(p, es[0]);
      RunRotates(v, es[1..], op);
      if es[0] == Request(op, true) || es[0] == Request(op, false) {
        RequestRotates(p, op, es[0].hold);
      } else {
        SelfRotation(p.queues[op]);
      }
      hide Inv, Next, IsRotation;
      RotationsCompose(After(v, es[1..]).queues[op], v.queues[op], p.queues[op]);
    }
  }

  // ---- If some rotation is not, a run reaches a wrong refusal -----------------------------------

  /** A request in a cycle of its own, from a state in which the busy units are exactly those held. */
  function Turn(p: Pool, op: nat, hold: bool): Pool
    requires Inv(p) && op < |p.queues|
  {
    RequestKeepsInv(p, op, hold);
    Next(Next(p, Request(op, hold)), EndOfCycle)
  }

  lemma TurnMeans(start: Pool, p: Pool, op: nat, hold: bool)
    requires Inv(start) && Reaches(start, p) && Inv(p) && p.toBeFreed == [] && op < |p.queues|
    requires GetUnit(p.queues[op], p.busy).0.Unit?
    ensures var (g, t) := GetUnit(p.queues[op], p.busy);
            var v := Turn(p, op, hold);
            && Inv(v) && Reaches(start, v) && v.toBeFreed == [] && v.queues == p.queues[op := t]
            && v.held == p.held + if hold then {g.u} else {}
  {
    var q := Next(p, Request(op, hold));
    GrantInRange(p, op);
    ReachesNext(start, p, Request(op, hold));
    ReachesNext(start, q, EndOfCycle);
    hide Inv, Reaches, GetUnit;
  }

  lemma GrantInRange(p: Pool, op: nat)
    requires Inv(p) && op < |p.queues| && GetUnit(p.queues[op], p.busy).0.Unit?
    ensures GetUnit(p.queues[op], p.busy).0.u < |p.busy|
  {
  }

  /** With nothing about to be freed, busy means held. */
  lemma CalmMeans(p: Pool, u: nat)
    requires Inv(p) && p.toBeFreed == []
    ensures IsBusy(p.busy, u) <==> u in p.held
  {
  }

  lemma GrantsFirst(s: seq<nat>, busy: seq<bool>, j: nat)
    requires j < |s| && !IsBusy(busy, s[j])
    ensures GetUnit(s, busy).0 == NoFree || exists k :: 0 <= k <= j && GetUnit(s, busy) == (Unit(s[k]), Rotate(s, k + 1))
  {
    var arc := Arc(s);
    var k := FirstFree(s[..arc], busy, 0);
    forall x | 0 <= x < k ensures IsBusy(busy, s[x]) {
      assert s[..arc][x] == s[x];
    }
    if k < arc {
      assert k <= j;
      assert GetUnit(s, busy) == (Unit(s[k]), Rotate(s, k + 1));
    }
  }

  lemma RotatedAt(s: seq<nat>, k: nat, j: nat)
    requires k < j < |s|
    ensures |Rotate(s, k + 1)| == |s| && Rotate(s, k + 1)[j - k - 1] == s[j]
    ensures Rotate(Rotate(s, k + 1), j - k) == Rotate(s, j + 1)
  {
    RotateTwice(s, k + 1, j - k);
  }

  /** Any free unit can be made the next to be granted, or else some request is wrongly refused on the way. */
  lemma {:induction false} Visit(start: Pool, p: Pool, op: nat, j: nat) returns (v: Pool)
    requires Inv(start) && Reaches(start, p) && Inv(p) && p.toBeFreed == [] && op < |p.queues|
    requires j < |p.queues[op]| && p.queues[op][j] !in p.held
    ensures Inv(v) && Reaches(start, v) && op < |v.queues| == |p.queues|
    ensures || WronglyRefuses(v, op)
            || (v.toBeFreed == [] && v.held == p.held
                && GetUnit(v.queues[op], v.busy) == (Unit(p.queues[op][j]), Rotate(p.queues[op], j + 1)))
    decreases j
  {
    var s := p.queues[op];
    CalmMeans(p, s[j]);
    hide Inv, Reaches, GetUnit, Turn, Rotate;
    GrantsFirst(s, p.busy, j);
    v := p;
    if GetUnit(s, p.busy).0 == NoFree {
      assert s[j] in s && !IsBusy(p.busy, s[j]);
    } else {
      var k :| 0 <= k <= j && GetUnit(s, p.busy) == (Unit(s[k]), Rotate(s, k + 1));
      if k < j {
        TurnMeans(start, p, op, false);
        RotatedAt(s, k, j);
        v := Visit(start, Turn(p, op, false), op, j - k - 1);
      }
    }
  }

  /** Any set of units can be held all at once, or else some request is wrongly refused on the way. */
  lemma {:induction false} HoldAll(start: Pool, p: Pool, op: nat, all: set<nat>) returns (v: Pool)
    requires Inv(start) && Reaches(start, p) && Inv(p) && p.toBeFreed == [] && op < |p.queues|
    requires p.held <= all && forall b | b in all :: b in p.queues[op]
    ensures Inv(v) && Reaches(start, v) && op < |v.queues| == |p.queues|
    ensures WronglyRefuses(v, op) || (v.toBeFreed == [] && v.held == all && IsRotation(v.queues[op], p.queues[op]))
    decreases |all - p.held|
  {
    hide Inv, Reaches, GetUnit, WronglyRefuses, Turn, Rotate;
    v := p;
    if forall b | b in all :: b in p.held {
      assert p.held == all;
      SelfRotation(p.queues[op]);
    } else {
      var b :| b in all && b !in p.held;
      var j :| 0 <= j < |p.queues[op]| && p.queues[op][j] == b;
      v := Visit(start, p, op, j);
      if !WronglyRefuses(v, op) {
        TurnMeans(start, v, op, true);
        var w := Turn(v, op, true);
        assert all - w.held == (all - p.held) - {b};
        var t := w.queues[op];
        RotationIsOne(p.queues[op], j + 1);
        RotateKeepsUnits(p.queues[op], j + 1);
        v := HoldAll(start, w, op, all);
        if !WronglyRefuses(v, op) {
          RotationsCompose(v.queues[op], t, p.queues[op]);
        }
      }
    }
  }

  /** The scan of `r` meets its first unit again before it has seen unit `u`. */
  predicate Misses(r: seq<nat>, u: nat)
  {
    r != [] && u in r && u !in r[..Arc(r)]
  }

  lemma ArcAtMost(r: seq<nat>, i: nat)
    requires 0 < i < |r| && r[i] == r[0]
    ensures Arc(r) <= i
  {
  }

  lemma StepBack(r: seq<nat>, u: nat, i: nat)
    requires Misses(r, u) && i < |r| && r[i] == u && r[|r| - 1] in r[..Arc(r)]
    ensures var b := Rotate(r, |r| - 1); i + 1 < |r| && Misses(b, u) && b[i + 1] == u
  {
    var z, b := r[|r| - 1], Rotate(r, |r| - 1);
    assert b == [z] + r[..|r| - 1];
    var k :| 0 <= k < Arc(r) && r[k] == z;
    assert r[..Arc(r)][k] == z && z != u;
    if k < |r| - 1 {
      assert b[k + 1] == z;
      ArcAtMost(b, k + 1);
    }
    forall x | 0 <= x < Arc(b) ensures b[x] != u {
      if x > 0 {
        assert r[..Arc(r)][x - 1] == b[x];
      }
    }
    assert b[i + 1] == u;
  }

  /** A rotation that misses `u` can be chosen so that the unit before its first is not one it sees either. */
  lemma {:induction false} BackUp(r: seq<nat>, u: nat, i: nat) returns (b: seq<nat>)
    requires Misses(r, u) && i < |r| && r[i] == u
    ensures IsRotation(b, r) && Misses(b, u) && b[|b| - 1] !in Seen(b)
    decreases |r| - i
  {
    hide Misses;
    b := r;
    SelfRotation(r);
    if r[|r| - 1] in r[..Arc(r)] {
      StepBack(r, u, i);
      var c := Rotate(r, |r| - 1);
      RotationIsOne(r, |r| - 1);
      b := BackUp(c, u, i + 1);
      RotationsCompose(b, c, r);
    }
  }

  lemma MissRefuses(p: Pool, op: nat, u: nat)
    requires Inv(p) && p.toBeFreed == [] && op < |p.queues| && Misses(p.queues[op], u)
    requires p.held == Seen(p.queues[op])
    ensures WronglyRefuses(p, op)
  {
    var s := p.queues[op];
    var arc := Arc(s);
    CalmMeans(p, u);
    forall k | 0 <= k < arc ensures IsBusy(p.busy, s[..arc][k]) {
      CalmMeans(p, s[..arc][k]);
    }
    assert FirstFree(s[..arc], p.busy, 0) == arc;
  }

  function Seen(r: seq<nat>): set<nat>
    requires r != []
  {
    set x | x in r[..Arc(r)]
  }

  /** With exactly the units held that the scan of `r` sees, the queue can be turned to `r`, where the scan fails. */
  lemma TurnTo(start: Pool, p: Pool, op: nat, r: seq<nat>, u: nat) returns (v: Pool)
    requires Inv(start) && Reaches(start, p) && Inv(p) && p.toBeFreed == [] && op < |p.queues|
    requires Misses(r, u) && p.held == Seen(r) && r[|r| - 1] !in Seen(r) && IsRotation(r, p.queues[op])
    ensures Inv(v) && Reaches(start, v) && WronglyRefuses(v, op)
  {
    assert r != [];
    hide Inv, Reaches, GetUnit, WronglyRefuses, Misses, IsRotation, Rotate, Turn, Arc, Seen;
    var i := PositiveRotation(r, p.queues[op]);
    v := Visit(start, p, op, i - 1);
    if !WronglyRefuses(v, op) {
      TurnMeans(start, v, op, false);
      v := Turn(v, op, false);
      assert v.queues[op] == r;
      MissRefuses(v, op, u);
    }
  }

  /** From a fresh pool whose queue has a rotation that misses a unit, some run ends in a wrong refusal. */
  lemma MissIsReached(start: Pool, op: nat, r: seq<nat>, u: nat) returns (v: Pool)
    requires Inv(start) && start.toBeFreed == [] && start.held == {} && op < |start.queues|
    requires IsRotation(r, start.queues[op]) && Misses(r, u) && r[|r| - 1] !in Seen(r)
    ensures Inv(v) && Reaches(start, v) && WronglyRefuses(v, op)
  {
    assert r != [];
    SeenUnits(r, start.queues[op]);
    hide Inv, Reaches, WronglyRefuses, Misses, IsRotation, Seen;
    ReachesSelf(start);
    v := HoldAll(start, start, op, Seen(r));
    if !WronglyRefuses(v, op) {
      RotationsReverse(v.queues[op], start.queues[op]);
      RotationsCompose(r, start.queues[op], v.queues[op]);
      v := TurnTo(start, v, op, r, u);
    }
  }

  lemma SeenUnits(r: seq<nat>, q: seq<nat>)
    requires r != [] && IsRotation(r, q)
    ensures forall x | x in Seen(r) :: x in q
  {
    RotatedUnits(r, q);
  }

  lemma RotatedUnits(r: seq<nat>, q: seq<nat>)
    requires IsRotation(r, q)
    ensures forall u | u in r :: u in q
  {
    var k: nat :| k <= |q| && r == Rotate(q, k);
    RotateKeepsUnits(q, k);
  }

  /** How far to turn `t` to get `r`, at least by one; the unit passed last is the one before the first of `r`. */
  lemma PositiveRotation(r: seq<nat>, t: seq<nat>) returns (i: nat)
    requires r != [] && IsRotation(r, t)
    ensures 0 < i <= |t| && r == Rotate(t, i) && t[i - 1] == r[|r| - 1]
  {
    i :| i <= |t| && r == Rotate(t, i);
    if i == 0 {
      i := |t|;
      assert Rotate(t, 0) == Rotate(t, |t|);
    }
  }

  lemma MissedUnit(r: seq<nat>) returns (u: nat, i: nat)
    requires !ArcCovers(r)
    ensures Misses(r, u) && i < |r| && r[i] == u
  {
    u :| u in r && u !in r[..Arc(r)];
    i :| 0 <= i < |r| && r[i] == u;
  }

  /**
   * Over all runs of the pool built from a configuration, a refusal means that every capable unit is busy, if and only if
   * the scan sees every unit from every position of the operation's queue.
   */
  lemma RefusalExactIff(numOps: nat, descs: seq<FuDesc>, op: nat)
    requires op < numOps
    ensures Inv(Built(numOps, descs))
    ensures (forall v | Reaches(Built(numOps, descs), v) :: !WronglyRefuses(v, op)) <==>
            (forall r | IsRotation(r, Queue(descs, op)) :: ArcCovers(r))
  {
    var start := Built(numOps, descs);
    BuiltIsValid(numOps, descs);
    assert start.queues[op] == Queue(descs, op);
    hide Inv, IsRotation, ArcCovers, WronglyRefuses, Queue, Built;
    if forall r | IsRotation(r, Queue(descs, op)) :: ArcCovers(r) {
      forall v | Reaches(start, v) ensures !WronglyRefuses(v, op) {
        CoveredNeverRefuses(start, v, op);
      }
    } else {
      var r :| IsRotation(r, Queue(descs, op)) && !ArcCovers(r);
      var u, i := MissedUnit(r);
      var b := BackUp(r, u, i);
      RotationsCompose(b, r, Queue(descs, op));
      BuiltIsCalm(numOps, descs, op);
      var v := MissIsReached(start, op, b, u);
    }
  }

  lemma BuiltIsCalm(numOps: nat, descs: seq<FuDesc>, op: nat)
    requires op < numOps
    ensures var p := Built(numOps, descs); p.toBeFreed == [] && p.held == {} && |p.queues| == numOps
  {
  }

  lemma CoveredNeverRefuses(start: Pool, v: Pool, op: nat)
    requires Inv(start) && Reaches(start, v) && op < |start.queues|
    requires forall r | IsRotation(r, start.queues[op]) :: ArcCovers(r)
    ensures !WronglyRefuses(v, op)
  {
    hide Inv, IsRotation, ArcCovers, GetUnit;
    var es :| Enabled(start, es) && After(start, es) == v;
    RunRotates(start, es, op);
    GrantIsExact(v.queues[op], v.busy);
  }

  // ---- One that does ----------------------------------------------------------------------------

  const TWICE := [FuDesc(1, [OpDesc(0, 1, true), OpDesc(0, 1, true)]), FuDesc(1, [OpDesc(0, 1, true)])]

  lemma TwiceQueue()
    ensures Queue(TWICE, 0) == [0, 0, 1] && NumUnits(TWICE) == 2
  {
    var o := OpDesc(0, 1, true);
    var a, b := FuDesc(1, [o, o]), FuDesc(1, [o]);
    assert TWICE[..1] == [a] && [a][..0] == [] && [o, o][..1] == [o] && [o][..0] == [];
    assert Queue([], 0) == [] && NumUnits([]) == 0 && Listed([], 0, 0, 1) == [] && Listed([], 0, 1, 1) == [];
    assert Range(0, 1) == [0] && Range(1, 1) == [1];
    assert Listed([o], 0, 0, 1) == [0] && Listed([o], 0, 1, 1) == [1];
    assert Listed([o, o], 0, 0, 1) == [0, 0];
    assert Queue([a], 0) == [0, 0] && NumUnits([a]) == 1;
  }

  /** The pool built from it, after a request that keeps its unit, after one that does not, and after that cycle. */
  const FRESH := Pool([[0, 0, 1]], [false, false], [], {})
  const ONE_HELD := Pool([[0, 1, 0]], [true, false], [], {0})
  const BOTH_BUSY := Pool([[0, 0, 1]], [true, true], [1], {0})
  const ONE_FREE := Pool([[0, 0, 1]], [true, false], [], {0})

  lemma FreshIsBuilt()
    ensures Built(1, TWICE) == FRESH && Inv(FRESH)
  {
    BuiltIsValid(1, TWICE);
    TwiceQueue();
  }

  lemma HoldFirst()
    requires Inv(FRESH)
    ensures Next(FRESH, Request(0, true)) == ONE_HELD && Inv(ONE_HELD)
  {
    FirstGrant();
    StepKeepsInv(FRESH, Request(0, true));
    hide GetUnit, Inv;
  }

  lemma TakeSecond()
    requires Inv(ONE_HELD)
    ensures Next(ONE_HELD, Request(0, false)) == BOTH_BUSY && Inv(BOTH_BUSY)
  {
    SecondGrant();
    StepKeepsInv(ONE_HELD, Request(0, false));
    hide GetUnit, Inv;
  }

  lemma EndFirstCycle()
    requires Inv(BOTH_BUSY)
    ensures Next(BOTH_BUSY, EndOfCycle) == ONE_FREE
  {
    hide Inv;
  }

  /**
   * A description that lists an operation twice hides the unit of the next one. An operation that is not pipelined takes
   * unit 0, another takes unit 1 for a cycle, and the request after that is refused with unit 1 free.
   */
  lemma RepeatedUnitHidesFreeOne()
    ensures Inv(Built(1, TWICE))
    ensures var p, es := Built(1, TWICE), [Request(0, true), Request(0, false), EndOfCycle];
            Enabled(p, es) && After(p, es) == ONE_FREE
    ensures GetUnit(ONE_FREE.queues[0], ONE_FREE.busy).0 == NoFree && 1 in ONE_FREE.queues[0] && !IsBusy(ONE_FREE.busy, 1)
  {
    ThirdRefused();
    hide Inv, Next, GetUnit, Built, Queue;
    FreshIsBuilt();
    HoldFirst();
    TakeSecond();
    EndFirstCycle();
    ThreeSteps(FRESH, Request(0, true), Request(0, false), EndOfCycle);
  }

  lemma ThreeSteps(p: Pool, a: Event, b: Event, c: Event)
    requires Inv(p) && Guard(p, a) && Inv(Next(p, a)) && Guard(Next(p, a), b) && Inv(Next(Next(p, a), b))
    requires Guard(Next(Next(p, a), b), c)
    ensures Enabled(p, [a, b, c]) && After(p, [a, b, c]) == Next(Next(Next(p, a), b), c)
  {
    hide Inv, Next, Guard;
    var q, r := Next(p, a), Next(Next(p, a), b);
    StepKeepsInv(r, c);
    assert Enabled(Next(r, c), []) && After(Next(r, c), []) == Next(r, c);
    Prepend(r, c, []);
    Prepend(q, b, [c]);
    Prepend(p, a, [b, c]);
    assert [c] + [] == [c] && [b] + [c] == [b, c] && [a] + [b, c] == [a, b, c];
  }

  lemma Prepend(p: Pool, e: Event, es: seq<Event>)
    requires Inv(p) && Guard(p, e) && Inv(Next(p, e)) && Enabled(Next(p, e), es)
    ensures Enabled(p, [e] + es) && After(p, [e] + es) == After(Next(p, e), es)
  {
    hide Inv, Next, Guard;
    assert ([e] + es)[1..] == es;
  }

  lemma FirstGrant()
    ensures GetUnit([0, 0, 1], [false, false]) == (Unit(0), [0, 1, 0])
  {
    assert ArcFrom([0, 0, 1], 1) == 1 && [0, 0, 1][..1] == [0];
    assert FirstFree([0], [false, false], 0) == 0;
    assert Rotate([0, 0, 1], 1) == [0, 1, 0];
  }

  lemma SecondGrant()
    ensures GetUnit([0, 1, 0], [true, false]) == (Unit(1), [0, 0, 1])
  {
    assert ArcFrom([0, 1, 0], 1) == 2 && [0, 1, 0][..2] == [0, 1];
    assert FirstFree([0, 1], [true, false], 0) == 1;
    assert Rotate([0, 1, 0], 2) == [0, 0, 1];
  }

  lemma ThirdRefused()
    ensures GetUnit([0, 0, 1], [true, false]).0 == NoFree
  {
    assert ArcFrom([0, 0, 1], 1) == 1 && [0, 0, 1][..1] == [0];
    assert FirstFree([0], [true, false], 0) == 1;
  }
}
