/** The functional-unit pool: which unit an operation gets, and who owns a busy unit. */
module FuPool {
  import opened Prelude

  // ---- One circular queue of units --------------------------------------------------------------

  datatype Grant = NoCapable | NoFree | Unit(u: nat)

  predicate NoDuplicates(s: seq<nat>)
  {
    forall i, j | 0 <= i < j < |s| :: s[i] != s[j]
  }

  /** The queue listed from the unit that is tried next. */
  function Rotate(s: seq<nat>, k: nat): seq<nat>
    requires k <= |s|
  {
    s[k..] + s[..k]
  }

  /** How far the scan goes before it meets its first unit again. */
  function ArcFrom(s: seq<nat>, k: nat): (p: nat)
    requires 0 < k <= |s|
    ensures k <= p <= |s| && (p < |s| ==> s[p] == s[0]) && forall j | k <= j < p :: s[j] != s[0]
    decreases |s| - k
  {
    if k == |s| || s[k] == s[0] then k else ArcFrom(s, k + 1)
  }

  function Arc(s: seq<nat>): nat
    requires s != []
  {
    ArcFrom(s, 1)
  }

  predicate IsBusy(busy: seq<bool>, u: nat)
  {
    u < |busy| && busy[u]
  }

  /** The first unit at position `k` or later that is free; the length of the list if there is none. */
  function FirstFree(s: seq<nat>, busy: seq<bool>, k: nat): (p: nat)
    requires k <= |s|
    ensures k <= p <= |s| && (p < |s| ==> !IsBusy(busy, s[p])) && forall j | k <= j < p :: IsBusy(busy, s[j])
    decreases |s| - k
  {
    if k == |s| || !IsBusy(busy, s[k]) then k else FirstFree(s, busy, k + 1)
  }

  /** What a request is granted, and the order in which the next request will try the units. */
  function GetUnit(tried: seq<nat>, busy: seq<bool>): (Grant, seq<nat>)
  {
    if tried == [] then (NoCapable, tried)
    else
      var arc := Arc(tried);
      var k := FirstFree(tried[..arc], busy, 0);
      if k < arc then (Unit(tried[k]), Rotate(tried, k + 1))
      else (NoFree, if arc == |tried| then Rotate(tried, 1) else Rotate(tried, arc + 1))
  }

  /** The scan sees every unit of the queue before it gives up. */
  predicate ArcCovers(tried: seq<nat>)
  {
    tried != [] ==> forall u | u in tried :: u in tried[..Arc(tried)]
  }

  /** A unit is granted only if it is free; and if the scan covers the queue, refusal means every unit is busy. */
  lemma GrantIsExact(tried: seq<nat>, busy: seq<bool>)
    requires ArcCovers(tried)
    ensures var g := GetUnit(tried, busy).0;
            && (g == NoCapable <==> tried == [])
            && (g == NoFree <==> tried != [] && forall u | u in tried :: IsBusy(busy, u))
            && (g.Unit? ==> g.u in tried && !IsBusy(busy, g.u))
  {
    if tried != [] {
      var arc := Arc(tried);
      var k := FirstFree(tried[..arc], busy, 0);
      if k < arc {
        assert tried[k] in tried && tried[..arc][k] == tried[k];
      } else {
        assert forall u | u in tried[..arc] :: IsBusy(busy, u);
      }
    }
  }

  /** Refusal is exact for every state of the units only if the scan covers the queue. */
  lemma ExactOnlyIfArcCovers(tried: seq<nat>, n: nat)
    requires forall u | u in tried :: u < n
    ensures ArcCovers(tried) <==>
            forall busy: seq<bool> | |busy| == n ::
              GetUnit(tried, busy).0 == NoFree ==> forall u | u in tried :: IsBusy(busy, u)
  {
    if ArcCovers(tried) {
      forall busy: seq<bool> | |busy| == n && GetUnit(tried, busy).0 == NoFree
        ensures forall u | u in tried :: IsBusy(busy, u)
      {
        GrantIsExact(tried, busy);
      }
    } else {
      var arc := Arc(tried);
      var u :| u in tried && u !in tried[..arc];
      var busy := seq(n, i => i != u);
      forall j | 0 <= j < arc ensures IsBusy(busy, tried[..arc][j]) {
        assert tried[..arc][j] == tried[j] && tried[j] in tried && tried[..arc][j] in tried[..arc];
      }
      assert GetUnit(tried, busy).0 == NoFree;
      assert !IsBusy(busy, u);
    }
  }

  lemma DistinctArcCovers(tried: seq<nat>)
    requires NoDuplicates(tried)
    ensures ArcCovers(tried) && (tried != [] ==> Arc(tried) == |tried|)
  {
    if tried != [] {
      assert tried[..|tried|] == tried;
    }
  }

  /** Rotating keeps the units, so the queue stays free of duplicates for the next request. */
  lemma RotateKeepsUnits(s: seq<nat>, k: nat)
    requires k <= |s|
    ensures multiset(Rotate(s, k)) == multiset(s) && (NoDuplicates(s) ==> NoDuplicates(Rotate(s, k)))
    ensures forall u :: u in Rotate(s, k) <==> u in s
  {
    assert s == s[..k] + s[k..];
  }

  lemma RotateEnds(s: seq<nat>, k: nat)
    requires 0 < k <= |s|
    ensures |Rotate(s, k)| == |s| && Rotate(s, k)[|s| - 1] == s[k - 1] && multiset(Rotate(s, k)) == multiset(s)
  {
    assert s == s[..k] + s[k..];
  }

  /** A request is granted the first free unit it meets, and the next scan starts right behind it. */
  lemma GrantedIsFirstFree(tried: seq<nat>, busy: seq<bool>)
    requires GetUnit(tried, busy).0.Unit?
    ensures tried != []
    ensures exists k :: && 0 <= k < |tried| && tried[k] == GetUnit(tried, busy).0.u
                        && GetUnit(tried, busy).1 == Rotate(tried, k + 1) && forall j | 0 <= j < k :: IsBusy(busy, tried[j])
  {
    var k := FirstFree(tried[..Arc(tried)], busy, 0);
    assert forall j | 0 <= j < k :: tried[..Arc(tried)][j] == tried[j];
    hide FirstFree, Arc, Rotate, IsBusy;
  }

  /** A refused one ends at the unit it started with, met again. */
  lemma RefusedEndsAtStart(tried: seq<nat>, busy: seq<bool>)
    requires tried != [] && !GetUnit(tried, busy).0.Unit?
    ensures exists k :: 0 < k <= |tried| && tried[k - 1] == tried[0] && GetUnit(tried, busy).1 == Rotate(tried, k)
  {
    var k := if Arc(tried) == |tried| then 1 else Arc(tried) + 1;
    hide FirstFree, Rotate;
    assert tried[k - 1] == tried[0] && GetUnit(tried, busy).1 == Rotate(tried, k);
  }

  /** So the next request starts right behind the unit that this one looked at last. */
  lemma NextScanStartsBehind(tried: seq<nat>, busy: seq<bool>)
    requires tried != []
    ensures var (g, next) := GetUnit(tried, busy);
            && |next| == |tried| && next[|next| - 1] == (if g.Unit? then g.u else tried[0])
            && multiset(next) == multiset(tried)
  {
    hide GetUnit, Rotate, IsBusy;
    var k: nat;
    if GetUnit(tried, busy).0.Unit? {
      GrantedIsFirstFree(tried, busy);
      var i :| 0 <= i < |tried| && tried[i] == GetUnit(tried, busy).0.u && GetUnit(tried, busy).1 == Rotate(tried, i + 1);
      k := i + 1;
    } else {
      RefusedEndsAtStart(tried, busy);
      k :| 0 < k <= |tried| && tried[k - 1] == tried[0] && GetUnit(tried, busy).1 == Rotate(tried, k);
    }
    RotateEnds(tried, k);
  }

  // ---- The queues the constructor builds --------------------------------------------------------

  datatype OpDesc = OpDesc(op: nat, latency: nat, pipelined: bool)

  /** `number` identical units, each able to perform every operation in `ops`. */
  datatype FuDesc = FuDesc(number: nat, ops: seq<OpDesc>)

  function NumUnits(descs: seq<FuDesc>): nat
  {
    if descs == [] then 0 else NumUnits(descs[..|descs| - 1]) + descs[|descs| - 1].number
  }

  function Range(base: nat, n: nat): seq<nat>
  {
    seq(n, k => base + k)
  }

  /** One description adds its units once for every time it lists the operation. */
  function Listed(ops: seq<OpDesc>, op: nat, base: nat, n: nat): seq<nat>
  {
    if ops == [] then []
    else
      var last := ops[|ops| - 1];
      Listed(ops[..|ops| - 1], op, base, n) + if last.op == op then Range(base, n) else []
  }

  function Queue(descs: seq<FuDesc>, op: nat): seq<nat>
  {
    if descs == [] then []
    else
      var front, d := descs[..|descs| - 1], descs[|descs| - 1];
      Queue(front, op) + Listed(d.ops, op, NumUnits(front), d.number)
  }

  predicate Offers(ops: seq<OpDesc>, op: nat)
  {
    exists k :: 0 <= k < |ops| && ops[k].op == op
  }

  /** Unit `u` comes from a description that offers the operation. */
  predicate Capable(descs: seq<FuDesc>, op: nat, u: nat)
  {
    exists i :: 0 <= i < |descs| && NumUnits(descs[..i]) <= u < NumUnits(descs[..i]) + descs[i].number
                && Offers(descs[i].ops, op)
  }

  predicate OpsDistinct(ops: seq<OpDesc>)
  {
    forall i, j | 0 <= i < j < |ops| :: ops[i].op != ops[j].op
  }

  lemma {:induction false} ListedUnits(ops: seq<OpDesc>, op: nat, base: nat, n: nat, u: nat)
    ensures u in Listed(ops, op, base, n) <==> Offers(ops, op) && base <= u < base + n
  {
    if ops != [] {
      var front, last := ops[..|ops| - 1], ops[|ops| - 1];
      ListedUnits(front, op, base, n, u);
      RangeUnits(base, n, u);
      if Offers(front, op) {
        var k :| 0 <= k < |front| && front[k].op == op;
        assert ops[k].op == op;
      }
      if Offers(ops, op) && last.op != op {
        var k :| 0 <= k < |ops| && ops[k].op == op;
        assert front[k].op == op;
      }
      if last.op == op {
        assert ops[|ops| - 1].op == op;
      }
    }
  }

  lemma RangeUnits(base: nat, n: nat, u: nat)
    ensures u in Range(base, n) <==> base <= u < base + n
    ensures NoDuplicates(Range(base, n))
  {
    if base <= u < base + n {
      assert Range(base, n)[u - base] == u;
    }
  }

  lemma {:induction false} ListedDistinct(ops: seq<OpDesc>, op: nat, base: nat, n: nat)
    requires OpsDistinct(ops)
    ensures NoDuplicates(Listed(ops, op, base, n))
  {
    if ops != [] {
      var front, last := ops[..|ops| - 1], ops[|ops| - 1];
      ListedDistinct(front, op, base, n);
      RangeUnits(base, n, 0);
      if last.op == op {
        NotOffered(front, op, base, n);
      }
    }
  }

  lemma {:induction false} NotOffered(ops: seq<OpDesc>, op: nat, base: nat, n: nat)
    requires forall k | 0 <= k < |ops| :: ops[k].op != op
    ensures Listed(ops, op, base, n) == []
  {
    if ops != [] {
      NotOffered(ops[..|ops| - 1], op, base, n);
    }
  }

  /** The queue of an operation holds exactly the units able to perform it. */
  lemma {:induction false} QueueHoldsCapable(descs: seq<FuDesc>, op: nat, u: nat)
    ensures u in Queue(descs, op) <==> Capable(descs, op, u)
    ensures u in Queue(descs, op) ==> u < NumUnits(descs)
  {
    if descs != [] {
      var front, d := descs[..|descs| - 1], descs[|descs| - 1];
      QueueHoldsCapable(front, op, u);
      ListedUnits(d.ops, op, NumUnits(front), d.number, u);
      if Capable(front, op, u) {
        var i :| 0 <= i < |front| && NumUnits(front[..i]) <= u < NumUnits(front[..i]) + front[i].number
                 && Offers(front[i].ops, op);
        assert descs[..i] == front[..i] && descs[i] == front[i];
        assert Capable(descs, op, u);
      }
      if Offers(d.ops, op) && NumUnits(front) <= u < NumUnits(front) + d.number {
        assert descs[..|descs| - 1] == front;
        assert Capable(descs, op, u);
      }
      if Capable(descs, op, u) {
        var i :| 0 <= i < |descs| && NumUnits(descs[..i]) <= u < NumUnits(descs[..i]) + descs[i].number
                 && Offers(descs[i].ops, op);
        if i < |front| {
          assert descs[..i] == front[..i] && descs[i] == front[i];
          assert Capable(front, op, u);
        }
      }
    }
  }

  /** When no description lists an operation twice, no queue lists a unit twice. */
  lemma {:induction false} QueueDistinct(descs: seq<FuDesc>, op: nat)
    requires forall i | 0 <= i < |descs| :: OpsDistinct(descs[i].ops)
    ensures NoDuplicates(Queue(descs, op))
  {
    if descs != [] {
      var front, d := descs[..|descs| - 1], descs[|descs| - 1];
      QueueDistinct(front, op);
      ListedDistinct(d.ops, op, NumUnits(front), d.number);
      var a, b := Queue(front, op), Listed(d.ops, op, NumUnits(front), d.number);
      forall i, j | 0 <= i < |a| && 0 <= j < |b| ensures a[i] != b[j] {
        QueueHoldsCapable(front, op, a[i]);
        ListedUnits(d.ops, op, NumUnits(front), d.number, b[j]);
      }
    }
  }

  // ---- Ownership --------------------------------------------------------------------------------

  /**
   * `queues[op]` lists the units of an operation in the order they will be tried. A busy unit is either about
   * to be freed at the end of the cycle, or held by the completion event of an operation that is not pipelined.
   */
  datatype Pool = Pool(queues: seq<seq<nat>>, busy: seq<bool>, toBeFreed: seq<nat>, held: set<nat>)

  datatype Event = Request(op: nat, hold: bool) | Completion(u: nat) | EndOfCycle

  predicate Guard(p: Pool, e: Event)
  {
    match e
    case Request(op, _) => op < |p.queues|
    case Completion(u) => u in p.held
    case EndOfCycle => true
  }

  function Next(p: Pool, e: Event): Pool
    requires Inv(p) && Guard(p, e)
  {
    match e
    case Request(op, hold) =>
      var (grant, tried) := GetUnit(p.queues[op], p.busy);
      if grant.Unit? && grant.u < |p.busy| then
        p.(queues := p.queues[op := tried], busy := p.busy[grant.u := true],
           toBeFreed := if hold then p.toBeFreed else p.toBeFreed + [grant.u],
           held := if hold then p.held + {grant.u} else p.held)
      else p.(queues := p.queues[op := tried])
    case Completion(u) => p.(held := p.held - {u}, toBeFreed := p.toBeFreed + [u])
    case EndOfCycle =>
      p.(busy := seq(|p.busy|, u requires 0 <= u < |p.busy| => p.busy[u] && u !in p.toBeFreed), toBeFreed := [])
  }

  /** The busy units are exactly those owned, and nobody owns a unit twice. */
  ghost predicate Inv(p: Pool)
  {
    && NoDuplicates(p.toBeFreed)
    && (forall u | u in p.toBeFreed :: u !in p.held)
    && (forall u: nat :: IsBusy(p.busy, u) <==> u in p.toBeFreed || u in p.held)
    && (forall op, k | 0 <= op < |p.queues| && 0 <= k < |p.queues[op]| :: p.queues[op][k] < |p.busy|)
  }

  lemma RequestKeepsInv(p: Pool, op: nat, hold: bool)
    requires Inv(p) && op < |p.queues|
    ensures Inv(Next(p, Request(op, hold)))
    ensures NoDuplicates(p.queues[op]) ==> NoDuplicates(Next(p, Request(op, hold)).queues[op])
  {
    var s := p.queues[op];
    var (grant, tried) := GetUnit(s, p.busy);
    var v := Next(p, Request(op, hold));
    if s != [] {
      var arc := Arc(s);
      var k := FirstFree(s[..arc], p.busy, 0);
      var steps := if k < arc then k + 1 else if arc == |s| then 1 else arc + 1;
      RotateKeepsUnits(s, steps);
      forall j | 0 <= j < |tried| ensures tried[j] < |p.busy| {
        assert tried[j] in Rotate(s, steps);
      }
    }
    if grant.Unit? {
      forall u: nat ensures IsBusy(v.busy, u) <==> u in v.toBeFreed || u in v.held {
        assert IsBusy(p.busy, u) <==> u in p.toBeFreed || u in p.held;
      }
      assert !IsBusy(p.busy, grant.u);
    }
  }

  lemma StepKeepsInv(p: Pool, e: Event)
    requires Inv(p) && Guard(p, e)
    ensures Inv(Next(p, e))
  {
    match e
    case Request(op, hold) => RequestKeepsInv(p, op, hold);
    case Completion(u) =>
      assert forall w | w in p.toBeFreed + [u] :: w in p.toBeFreed || w == u;
    case EndOfCycle =>
      forall u: nat ensures IsBusy(Next(p, e).busy, u) <==> u in p.held {
        assert IsBusy(p.busy, u) <==> u in p.toBeFreed || u in p.held;
      }
  }

  predicate Enabled(p: Pool, es: seq<Event>)
    requires Inv(p)
    decreases |es|
  {
    es == [] || (Guard(p, es[0]) && (StepKeepsInv(p, es[0]); Enabled(Next(p, es[0]), es[1..])))
  }

  function After(p: Pool, es: seq<Event>): Pool
    requires Inv(p) && Enabled(p, es)
    decreases |es|
  {
    if es == [] then p
    else
      StepKeepsInv(p, es[0]);
      After(Next(p, es[0]), es[1..])
  }

  /** Over any run: a unit is busy exactly while it is owned, owned once, and the queues stay free of duplicates. */
  lemma {:induction false} RunKeepsOwnership(p: Pool, es: seq<Event>)
    requires Inv(p) && Enabled(p, es) && forall op | 0 <= op < |p.queues| :: NoDuplicates(p.queues[op])
    ensures var v := After(p, es);
            && Inv(v) && |v.queues| == |p.queues|
            && forall op | 0 <= op < |v.queues| :: NoDuplicates(v.queues[op])
    decreases |es|
  {
    if es != [] {
      StepKeepsInv(p, es[0]);
      if es[0].Request? {
        RequestKeepsInv(p, es[0].op, es[0].hold);
      }
      RunKeepsOwnership(Next(p, es[0]), es[1..]);
    }
  }
}
