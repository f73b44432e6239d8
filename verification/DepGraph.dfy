/** The dependency graph as it is stored: one linked list of heap nodes per physical register. */
module DepGraph {
  import opened Prelude
  import opened IqState

  class DepEntry {
    var inst: nat
    var next: DepEntry?

    constructor (inst: nat, next: DepEntry?)
      ensures this.inst == inst && this.next == next
    {
      this.inst, this.next := inst, next;
    }
  }

  /** The node at position `k` of a chain; null past its end. */
  ghost function NodeAt(chain: seq<DepEntry>, k: nat): DepEntry?
  {
    if k < |chain| then chain[k] else null
  }

  // ---- One register -----------------------------------------------------------------------------

  /** A slot of the graph: the producer of a register, and a pointer to its newest waiting consumer. */
  class DepChain {
    var inst: Option<nat>
    var next: DepEntry?
    ghost var nodes: seq<DepEntry>
    ghost var list: seq<nat>
    ghost var Repr: set<object>

    /** `nodes` are the objects the pointers go through, `list` the instructions they hold, newest first. */
    ghost predicate Valid()
      reads this, Repr
    {
      && this in Repr && |nodes| == |list| && next == NodeAt(nodes, 0)
      && (forall k | 0 <= k < |nodes| :: nodes[k] in Repr && nodes[k].inst == list[k] && nodes[k].next == NodeAt(nodes, k + 1))
      && (forall k, l | 0 <= k < l < |nodes| :: nodes[k] != nodes[l])
    }

    constructor ()
      ensures Valid() && fresh(Repr) && inst == None && list == []
    {
      inst, next, nodes, list, Repr := None, null, [], [], {this};
    }

    method Insert(newInst: nat)
      requires Valid()
      modifies Repr
      ensures Valid() && fresh(Repr - old(Repr)) && inst == old(inst) && list == [newInst] + old(list)
    {
      var entry := new DepEntry(newInst, next);
      next := entry;
      nodes, list, Repr := [entry] + nodes, [newInst] + list, Repr + {entry};
    }

    /** Walk the chain to the first node that holds the instruction. */
    method Find(target: nat) returns (prev: DepEntry?, curr: DepEntry, ghost p: nat)
      requires Valid() && target in list
      ensures p < |nodes| && curr == nodes[p] && prev == if p == 0 then null else nodes[p - 1]
      ensures RemoveNode(list, target) == Cut(list, p)
    {
      ghost var m: nat :| m < |list| && list[m] == target;
      prev, curr, p := null, next, 0;
      while curr.inst != target
        invariant p <= m < |nodes| && curr == nodes[p] && prev == (if p == 0 then null else nodes[p - 1])
        invariant forall k | 0 <= k < p :: list[k] != target
        decreases m - p
      {
        prev := curr;
        curr := curr.next;
        p := p + 1;
      }
      RemoveNodeAt(list, p, target);
    }

    /** Unlink the first node that holds the instruction; an empty list is left alone. */
    method Remove(target: nat) returns (removed: bool)
      requires Valid() && (list == [] || target in list)
      modifies Repr
      ensures Valid() && Repr == old(Repr) && inst == old(inst)
      ensures removed <==> old(list) != []
      ensures list == if old(list) == [] then [] else RemoveNode(old(list), target)
    {
      removed := next != null;
      if removed {
        var prev, curr, p := Find(target);
        Bypass(prev, curr, p);
      }
    }

    /** `prev->next = curr->next`, where no previous node means the slot itself. */
    method Bypass(prev: DepEntry?, curr: DepEntry, ghost p: nat)
      requires Valid() && p < |nodes| && curr == nodes[p] && prev == if p == 0 then null else nodes[p - 1]
      modifies Repr
      ensures Valid() && Repr == old(Repr) && inst == old(inst)
      ensures list == Cut(old(list), p)
    {
      if prev == null {
        next := curr.next;
        assert Cut(list, 0) == list[1..];
        nodes, list := nodes[1..], list[1..];
      } else {
        BypassAfter(prev, curr, p);
      }
    }

    method BypassAfter(prev: DepEntry, curr: DepEntry, ghost p: nat)
      requires Valid() && 0 < p < |nodes| && curr == nodes[p] && prev == nodes[p - 1]
      modifies Repr
      ensures Valid() && Repr == old(Repr) && inst == old(inst)
      ensures list == Cut(old(list), p)
    {
      CutChain(nodes, p);
      CutList(list, p);
      hide Cut;
      prev.next := curr.next;
      ghost var d := Cut(nodes, p);
      forall k | 0 <= k < |d| ensures d[k].next == NodeAt(d, k + 1) {
        assert k != p - 1 ==> d[k] != prev;
      }
      nodes, list := d, Cut(list, p);
    }

    method Pop() returns (top: Option<nat>)
      requires Valid()
      modifies Repr
      ensures Valid() && Repr == old(Repr) && inst == old(inst)
      ensures if old(list) == [] then top == None && list == [] else top == Some(old(list)[0]) && list == old(list)[1..]
    {
      if next == null {
        top := None;
      } else {
        top := Some(next.inst);
        next := next.next;
        nodes, list := nodes[1..], list[1..];
      }
    }

    method SetInst(producer: Option<nat>)
      requires Valid()
      modifies Repr
      ensures Valid() && Repr == old(Repr) && inst == producer && list == old(list)
    {
      inst := producer;
    }

    /** Free every node of the chain and forget the producer. */
    method Reset() returns (freed: nat)
      requires Valid()
      modifies Repr
      ensures Valid() && Repr == old(Repr) && inst == None && list == [] && freed == |old(list)|
    {
      var curr := next;
      freed := 0;
      while curr != null
        modifies {}
        invariant freed <= |nodes| && curr == NodeAt(nodes, freed)
        decreases |nodes| - freed
      {
        freed := freed + 1;
        curr := curr.next;
      }
      inst, next := None, null;
      nodes, list := [], [];
    }
  }

  /** A sequence with one element taken out. */
  ghost function Cut<T>(c: seq<T>, p: nat): seq<T>
    requires p < |c|
  {
    c[..p] + c[p + 1..]
  }

  lemma CutChain(c: seq<DepEntry>, p: nat)
    requires 0 < p < |c| && forall k, l | 0 <= k < l < |c| :: c[k] != c[l]
    ensures var d := Cut(c, p);
            && |d| == |c| - 1 && NodeAt(d, 0) == NodeAt(c, 0)
            && (forall k | 0 <= k < p :: d[k] == c[k])
            && (forall k | p <= k < |d| :: d[k] == c[k + 1])
            && (forall k | 0 <= k < |d| && k != p - 1 :: d[k] != c[p - 1])
            && (forall k, l | 0 <= k < l < |d| :: d[k] != d[l])
  {
  }

  lemma CutList(l: seq<nat>, p: nat)
    requires p < |l|
    ensures |Cut(l, p)| == |l| - 1
    ensures forall k | 0 <= k < p :: Cut(l, p)[k] == l[k]
    ensures forall k | p <= k < |Cut(l, p)| :: Cut(l, p)[k] == l[k + 1]
  {
  }

  lemma {:induction false} RemoveNodeAt(l: seq<nat>, p: nat, s: nat)
    requires p < |l| && l[p] == s && forall k | 0 <= k < p :: l[k] != s
    ensures RemoveNode(l, s) == Cut(l, p)
  {
    if p > 0 {
      RemoveNodeAt(l[1..], p - 1, s);
      assert l[..p] == [l[0]] + l[1..][..p - 1] && l[1..][p..] == l[p + 1..];
    }
  }

  // ---- All registers ----------------------------------------------------------------------------

  ghost function NodeCount(lists: seq<seq<nat>>): nat
  {
    if lists == [] then 0 else NodeCount(lists[..|lists| - 1]) + |lists[|lists| - 1]|
  }

  lemma {:induction false} NodeCountUpdate(lists: seq<seq<nat>>, i: nat, l: seq<nat>)
    requires i < |lists|
    ensures NodeCount(lists[i := l]) == NodeCount(lists) + |l| - |lists[i]|
  {
    if i < |lists| - 1 {
      assert lists[i := l][..|lists| - 1] == lists[..|lists| - 1][i := l];
      NodeCountUpdate(lists[..|lists| - 1], i, l);
    } else {
      assert lists[i := l][..|lists| - 1] == lists[..|lists| - 1];
    }
  }

  lemma {:induction false} NodeCountZero(lists: seq<seq<nat>>)
    ensures NodeCount(lists) == 0 <==> forall i | 0 <= i < |lists| :: lists[i] == []
  {
    if lists != [] {
      NodeCountZero(lists[..|lists| - 1]);
    }
  }

  class DependencyGraph {
    const chains: seq<DepChain>
    var memAllocCounter: int
    ghost var lists: seq<seq<nat>>
    ghost var producers: seq<Option<nat>>
    ghost var Repr: set<object>

    ghost predicate Valid()
      reads this, Repr
    {
      && this in Repr && |lists| == |producers| == |chains| && memAllocCounter == NodeCount(lists)
      && (forall i | 0 <= i < |chains| :: chains[i] in Repr && chains[i].Repr <= Repr && this !in chains[i].Repr)
      && (forall i, j | 0 <= i < j < |chains| :: chains[i].Repr !! chains[j].Repr)
      && (forall i | 0 <= i < |chains| ::
            && chains[i].Valid() && chains[i] in chains[i].Repr
            && chains[i].list == lists[i] && chains[i].inst == producers[i])
    }

    constructor (numEntries: nat)
      ensures Valid() && fresh(Repr) && |chains| == numEntries
      ensures lists == seq(numEntries, _ => []) && producers == seq(numEntries, _ => None)
    {
      var cs: seq<DepChain> := [];
      ghost var repr: set<object> := {};
      while |cs| < numEntries
        invariant |cs| <= numEntries && fresh(repr)
        invariant forall i | 0 <= i < |cs| ::
                    cs[i] in cs[i].Repr && cs[i].Repr <= repr && cs[i].Valid() && cs[i].list == [] && cs[i].inst == None
        invariant forall i, j | 0 <= i < j < |cs| :: cs[i].Repr !! cs[j].Repr
      {
        var c := new DepChain();
        cs := cs + [c];
        repr := repr + c.Repr;
      }
      hide DepChain.Valid;
      chains := cs;
      memAllocCounter := 0;
      lists, producers := seq(numEntries, _ => []), seq(numEntries, _ => None);
      NodeCountZero(seq(numEntries, _ => []));
      new;
      Repr := {this} + repr;
    }

    /** Put an instruction at the front of a register's list. */
    method Insert(idx: nat, newInst: nat)
      requires Valid() && idx < |chains|
      modifies Repr
      ensures Valid() && fresh(Repr - old(Repr)) && producers == old(producers)
      ensures lists == old(lists)[idx := [newInst] + old(lists)[idx]]
    {
      hide DepChain.Valid, NodeCount;
      NodeCountUpdate(lists, idx, [newInst] + lists[idx]);
      chains[idx].Insert(newInst);
      memAllocCounter := memAllocCounter + 1;
      lists := lists[idx := [newInst] + lists[idx]];
      Repr := Repr + chains[idx].Repr;
    }

    /** Take an instruction off a register's list; it must be there unless the list is empty. */
    method Remove(idx: nat, target: nat)
      requires Valid() && idx < |chains| && (lists[idx] == [] || target in lists[idx])
      modifies Repr
      ensures Valid() && Repr == old(Repr) && producers == old(producers)
      ensures RemoveFrom(old(lists), idx, target) == Fine(lists)
    {
      hide DepChain.Valid, NodeCount;
      var removed := chains[idx].Remove(target);
      if removed {
        NodeCountUpdate(lists, idx, chains[idx].list);
        memAllocCounter := memAllocCounter - 1;
        lists := lists[idx := chains[idx].list];
      }
    }

    /** Take the newest consumer off a register's list. */
    method Pop(idx: nat) returns (top: Option<nat>)
      requires Valid() && idx < |chains|
      modifies Repr
      ensures Valid() && Repr == old(Repr) && producers == old(producers)
      ensures if old(lists)[idx] == [] then top == None && lists == old(lists)
              else top == Some(old(lists)[idx][0]) && lists == old(lists)[idx := old(lists)[idx][1..]]
    {
      hide DepChain.Valid, NodeCount;
      top := chains[idx].Pop();
      if top.Some? {
        NodeCountUpdate(lists, idx, lists[idx][1..]);
        memAllocCounter := memAllocCounter - 1;
        lists := lists[idx := lists[idx][1..]];
      }
    }

    method SetInst(idx: nat, producer: Option<nat>)
      requires Valid() && idx < |chains|
      modifies Repr
      ensures Valid() && Repr == old(Repr) && lists == old(lists) && producers == old(producers)[idx := producer]
    {
      hide DepChain.Valid, NodeCount;
      chains[idx].SetInst(producer);
      producers := producers[idx := producer];
    }

    method EmptyAt(idx: nat) returns (e: bool)
      requires Valid() && idx < |chains|
      ensures e <==> lists[idx] == []
    {
      e := chains[idx].next == null;
    }

    /** The allocation counter is zero exactly when nobody waits anywhere. */
    method Empty() returns (e: bool)
      requires Valid()
      ensures e <==> forall i | 0 <= i < |lists| :: lists[i] == []
      ensures e <==> memAllocCounter == 0
    {
      NodeCountZero(lists);
      var i := 0;
      while i < |chains|
        invariant 0 <= i <= |chains| && forall k | 0 <= k < i :: lists[k] == []
      {
        if chains[i].next != null {
          return false;
        }
        i := i + 1;
      }
      return true;
    }

    /** Clear every list and every producer. */
    method Reset()
      requires Valid()
      modifies Repr
      ensures Valid() && Repr == old(Repr) && memAllocCounter == 0
      ensures lists == seq(|chains|, _ => []) && producers == seq(|chains|, _ => None)
    {
      hide DepChain.Valid, NodeCount;
      var i := 0;
      while i < |chains|
        invariant 0 <= i <= |chains| && Valid() && Repr == old(Repr)
        invariant forall k | 0 <= k < i :: lists[k] == [] && producers[k] == None
      {
        var freed := chains[i].Reset();
        NodeCountUpdate(lists, i, []);
        memAllocCounter := memAllocCounter - freed;
        lists, producers := lists[i := []], producers[i := None];
        i := i + 1;
      }
      NodeCountZero(lists);
    }
  }
}
