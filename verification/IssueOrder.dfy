/** The ready queues of the instruction queue and the age-ordered index over them. */
module IssueOrder {
  import opened Prelude

  /** An entry of the index. Its `id` is its identity: what an iterator into the list holds on to. */
  datatype Node = Node(id: nat, op: nat, oldest: nat)

  /** For each operation class its ready instructions, oldest first, and where its entry is in the index. */
  datatype Ready = Ready(queues: seq<seq<nat>>, list: seq<Node>, it: seq<Option<nat>>, onList: seq<bool>, nextId: nat)

  predicate Ascending(q: seq<nat>)
  {
    forall i, j | 0 <= i < j < |q| :: q[i] <= q[j]
  }

  predicate ByAge(l: seq<Node>)
  {
    forall i, j | 0 <= i < j < |l| :: l[i].oldest <= l[j].oldest
  }

  predicate WellFormed(r: Ready)
  {
    |r.queues| == |r.it| == |r.onList| && forall c | 0 <= c < |r.queues| :: Ascending(r.queues[c])
  }

  /** An entry belongs to a non-empty queue, shows its top, and is the one its class points to. */
  predicate NodeRight(r: Ready, n: Node)
    requires WellFormed(r)
  {
    && n.op < |r.queues| && r.onList[n.op] && r.it[n.op] == Some(n.id) && n.id < r.nextId
    && r.queues[n.op] != [] && n.oldest == r.queues[n.op][0]
  }

  predicate HasNode(l: seq<Node>, c: nat)
  {
    exists i :: 0 <= i < |l| && l[i].op == c
  }

  /** One entry per class, and no entry twice. */
  predicate Distinct(l: seq<Node>)
  {
    forall i, j | 0 <= i < j < |l| :: l[i].op != l[j].op && l[i].id != l[j].id
  }

  predicate Inv(r: Ready)
  {
    && WellFormed(r) && ByAge(r.list) && Distinct(r.list)
    && (forall i | 0 <= i < |r.list| :: NodeRight(r, r.list[i]))
    && (forall c | 0 <= c < |r.queues| :: r.onList[c] <==> r.queues[c] != [])
    && (forall c | 0 <= c < |r.queues| && r.onList[c] :: HasNode(r.list, c))
  }

  // ---- Lists ------------------------------------------------------------------------------------

  /** Insert into a priority queue whose top is the oldest instruction. */
  function Push(q: seq<nat>, s: nat): seq<nat>
  {
    if q == [] || s <= q[0] then [s] + q else [q[0]] + Push(q[1..], s)
  }

  lemma {:induction false} PushAdds(q: seq<nat>, s: nat)
    ensures multiset(Push(q, s)) == multiset(q) + multiset{s} && Push(q, s) != []
  {
    if q != [] && s > q[0] {
      PushAdds(q[1..], s);
      assert q == [q[0]] + q[1..];
    }
  }

  lemma {:induction false} PushAscends(q: seq<nat>, s: nat)
    requires Ascending(q)
    ensures Ascending(Push(q, s))
  {
    if q != [] && s > q[0] {
      PushAscends(q[1..], s);
      PushAdds(q[1..], s);
      var t := Push(q[1..], s);
      forall i | 0 <= i < |t| ensures q[0] <= t[i] {
        assert t[i] in multiset(t);
        assert t[i] in q[1..] || t[i] == s;
      }
    }
  }

  lemma TopAfterPush(q: seq<nat>, s: nat)
    requires Ascending(q)
    ensures Push(q, s)[0] == if q == [] || s <= q[0] then s else q[0]
  {
  }

  function InsertAt(l: seq<Node>, k: nat, n: Node): seq<Node>
    requires k <= |l|
  {
    l[..k] + [n] + l[k..]
  }

  function EraseAt(l: seq<Node>, k: nat): seq<Node>
    requires k < |l|
  {
    l[..k] + l[k + 1..]
  }

  /** The first position at or after `k` whose entry is younger than `s`. */
  function FirstYounger(l: seq<Node>, s: nat, k: nat): (p: nat)
    requires k <= |l|
    ensures k <= p <= |l| && (p < |l| ==> l[p].oldest > s) && forall i | k <= i < p :: l[i].oldest <= s
    decreases |l| - k
  {
    if k == |l| || l[k].oldest > s then k else FirstYounger(l, s, k + 1)
  }

  /** The first position at or after `k` whose entry is not older than `s`. */
  function FirstNotOlder(l: seq<Node>, s: nat, k: nat): (p: nat)
    requires k <= |l|
    ensures k <= p <= |l| && (p < |l| ==> l[p].oldest >= s) && forall i | k <= i < p :: l[i].oldest < s
    decreases |l| - k
  {
    if k == |l| || l[k].oldest >= s then k else FirstNotOlder(l, s, k + 1)
  }

  /** Where the entry with this identity is. */
  function PositionOf(l: seq<Node>, id: nat): (p: nat)
    ensures p <= |l| && (p < |l| ==> l[p].id == id) && forall i | 0 <= i < p :: l[i].id != id
  {
    if l == [] || l[0].id == id then 0 else 1 + PositionOf(l[1..], id)
  }

  lemma InsertAtIndex(l: seq<Node>, k: nat, n: Node)
    requires k <= |l|
    ensures var m := InsertAt(l, k, n);
            && |m| == |l| + 1 && m[k] == n && m[..k] == l[..k]
            && (forall i | 0 <= i < k :: m[i] == l[i])
            && (forall i | k < i < |m| :: m[i] == l[i - 1])
  {
  }

  lemma EraseAtIndex(l: seq<Node>, k: nat)
    requires k < |l|
    ensures var m := EraseAt(l, k);
            && |m| == |l| - 1 && m[..k] == l[..k]
            && (forall i | 0 <= i < k :: m[i] == l[i])
            && (forall i | k <= i < |m| :: m[i] == l[i + 1])
  {
  }

  // ---- Adding a ready instruction ---------------------------------------------------------------

  /** Enter a class that is not in the index, behind everything that is not younger. */
  function AddToOrderList(r: Ready, c: nat): Ready
    requires c < |r.queues| == |r.it| == |r.onList| && r.queues[c] != []
  {
    var top := r.queues[c][0];
    r.(list := InsertAt(r.list, FirstYounger(r.list, top, 0), Node(r.nextId, c, top)),
       it := r.it[c := Some(r.nextId)], onList := r.onList[c := true], nextId := r.nextId + 1)
  }

  function Erase(r: Ready, id: nat): Ready
  {
    var p := PositionOf(r.list, id);
    if p < |r.list| then r.(list := EraseAt(r.list, p)) else r
  }

  /** Put a class whose queue has grown where its top belongs, unless its entry is still right. */
  function Reorder(r: Ready, c: nat): Ready
    requires c < |r.queues| == |r.it| == |r.onList| && r.queues[c] != []
  {
    if !r.onList[c] then AddToOrderList(r, c)
    else if r.it[c].Some? && PositionOf(r.list, r.it[c].value) < |r.list|
            && r.queues[c][0] < r.list[PositionOf(r.list, r.it[c].value)].oldest then
      AddToOrderList(Erase(r, r.it[c].value), c)
    else r
  }

  /** An instruction of class `c` becomes ready. */
  function AddReady(r: Ready, c: nat, s: nat): Ready
    requires c < |r.queues| == |r.it| == |r.onList|
  {
    PushAdds(r.queues[c], s);
    Reorder(r.(queues := r.queues[c := Push(r.queues[c], s)]), c)
  }

  /** The invariant for every class but `c`, which has no entry. */
  predicate InvBut(r: Ready, c: nat)
  {
    && WellFormed(r) && ByAge(r.list) && Distinct(r.list)
    && (forall i | 0 <= i < |r.list| :: r.list[i].op != c && NodeRight(r, r.list[i]))
    && (forall d | 0 <= d < |r.queues| && d != c :: r.onList[d] <==> r.queues[d] != [])
    && (forall d | 0 <= d < |r.queues| && d != c && r.onList[d] :: HasNode(r.list, d))
  }

  lemma InsertOrdered(l: seq<Node>, n: Node, k: nat)
    requires ByAge(l) && Distinct(l) && k <= |l| && forall i | 0 <= i < |l| :: l[i].op != n.op && l[i].id != n.id
    requires forall i | 0 <= i < k :: l[i].oldest <= n.oldest
    requires forall i | k <= i < |l| :: n.oldest <= l[i].oldest
    ensures ByAge(InsertAt(l, k, n)) && Distinct(InsertAt(l, k, n))
  {
    InsertAtIndex(l, k, n);
    hide InsertAt;
  }

  lemma HasNodeInserted(l: seq<Node>, n: Node, k: nat, d: nat)
    requires k <= |l| && (d == n.op || HasNode(l, d))
    ensures HasNode(InsertAt(l, k, n), d)
  {
    InsertAtIndex(l, k, n);
    var m := InsertAt(l, k, n);
    hide InsertAt;
    if d == n.op {
      assert m[k].op == d;
    } else {
      var i :| 0 <= i < |l| && l[i].op == d;
      assert m[if i < k then i else i + 1].op == d;
    }
  }

  /** The two states agree on every class but `c`. */
  predicate SameBut(r: Ready, v: Ready, c: nat)
  {
    && |v.queues| == |r.queues| && |v.it| == |r.it| && |v.onList| == |r.onList| && r.nextId <= v.nextId
    && (forall d | 0 <= d < |r.queues| && d != c :: v.queues[d] == r.queues[d])
    && (forall d | 0 <= d < |r.it| && d != c :: v.it[d] == r.it[d])
    && (forall d | 0 <= d < |r.onList| && d != c :: v.onList[d] == r.onList[d])
  }

  lemma NodeStillRight(r: Ready, v: Ready, c: nat, n: Node)
    requires WellFormed(r) && WellFormed(v) && SameBut(r, v, c) && NodeRight(r, n) && n.op != c
    ensures NodeRight(v, n)
  {
  }

  lemma AddToOrderListNodes(r: Ready, c: nat)
    requires InvBut(r, c) && c < |r.queues| && r.queues[c] != []
    ensures var v := AddToOrderList(r, c); WellFormed(v) && forall i | 0 <= i < |v.list| :: NodeRight(v, v.list[i])
  {
    var v := AddToOrderList(r, c);
    var k := FirstYounger(r.list, r.queues[c][0], 0);
    InsertAtIndex(r.list, k, Node(r.nextId, c, r.queues[c][0]));
    assert WellFormed(v) && SameBut(r, v, c) && NodeRight(v, v.list[k]);
    hide InsertAt, FirstYounger, HasNode, ByAge, Distinct, Ascending, WellFormed, SameBut, NodeRight;
    forall i | 0 <= i < |v.list| ensures NodeRight(v, v.list[i]) {
      if i < k {
        NodeStillRight(r, v, c, r.list[i]);
      } else if i > k {
        NodeStillRight(r, v, c, r.list[i - 1]);
      }
    }
  }

  lemma AddToOrderListKeepsInv(r: Ready, c: nat)
    requires InvBut(r, c) && c < |r.queues| && r.queues[c] != []
    ensures Inv(AddToOrderList(r, c))
  {
    var v := AddToOrderList(r, c);
    var k := FirstYounger(r.list, r.queues[c][0], 0);
    var n := Node(r.nextId, c, r.queues[c][0]);
    hide InsertAt, FirstYounger, HasNode;
    assert forall i | 0 <= i < |r.list| :: NodeRight(r, r.list[i]) && r.list[i].id != n.id;
    InsertOrdered(r.list, n, k);
    AddToOrderListNodes(r, c);
    forall d | 0 <= d < |v.queues| && v.onList[d] ensures HasNode(v.list, d) {
      HasNodeInserted(r.list, n, k, d);
    }
    hide NodeRight, ByAge, Distinct;
  }

  lemma PositionIsUnique(l: seq<Node>, i: nat)
    requires Distinct(l) && i < |l|
    ensures PositionOf(l, l[i].id) == i
  {
    assert forall j | 0 <= j < i :: l[j].id != l[i].id;
  }

  /** Where the entry of a class is, when it has one. */
  lemma NodeOf(r: Ready, c: nat) returns (i: nat)
    requires Inv(r) && c < |r.queues| && r.onList[c]
    ensures i < |r.list| && r.list[i].op == c && r.it[c] == Some(r.list[i].id) && PositionOf(r.list, r.list[i].id) == i
    ensures r.list[i].oldest == r.queues[c][0]
  {
    assert HasNode(r.list, c);
    i :| 0 <= i < |r.list| && r.list[i].op == c;
    PositionIsUnique(r.list, i);
    assert NodeRight(r, r.list[i]);
  }

  lemma EraseAtMoves(l: seq<Node>, k: nat, i: nat)
    requires k < |l| && i < |l| && i != k
    ensures var j := if i < k then i else i - 1; j < |EraseAt(l, k)| && EraseAt(l, k)[j] == l[i]
  {
  }

  lemma HasNodeErased(l: seq<Node>, k: nat, d: nat)
    requires k < |l| && HasNode(l, d) && l[k].op != d
    ensures HasNode(EraseAt(l, k), d)
  {
    var i :| 0 <= i < |l| && l[i].op == d;
    EraseAtMoves(l, k, i);
  }

  lemma EraseOrdered(l: seq<Node>, k: nat)
    requires ByAge(l) && Distinct(l) && k < |l|
    ensures ByAge(EraseAt(l, k)) && Distinct(EraseAt(l, k))
    ensures forall i | 0 <= i < |l| - 1 :: EraseAt(l, k)[i].op != l[k].op && EraseAt(l, k)[i] in l
  {
    EraseAtIndex(l, k);
    hide EraseAt;
  }

  /** Taking a class out of the index, whatever happens to its queue, leaves the rest right. */
  lemma ErasedButRest(r: Ready, v: Ready, k: nat, c: nat)
    requires Inv(r) && k < |r.list| && r.list[k].op == c && WellFormed(v) && SameBut(r, v, c)
    requires v.list == EraseAt(r.list, k)
    ensures InvBut(v, c)
  {
    EraseOrdered(r.list, k);
    forall i | 0 <= i < |v.list| ensures v.list[i].op != c && NodeRight(v, v.list[i]) {
      var j :| 0 <= j < |r.list| && r.list[j] == v.list[i];
      NodeStillRight(r, v, c, r.list[j]);
    }
    forall d | 0 <= d < |v.queues| && d != c && v.onList[d] ensures HasNode(v.list, d) {
      HasNodeErased(r.list, k, d);
    }
    hide EraseAt, NodeRight, ByAge, Distinct, HasNode;
  }

  /** A class that was not in the index is still not there after its queue changed. */
  lemma AbsentButRest(r: Ready, v: Ready, c: nat)
    requires Inv(r) && c < |r.queues| && !r.onList[c] && WellFormed(v) && SameBut(r, v, c) && v.list == r.list
    ensures InvBut(v, c)
  {
    forall i | 0 <= i < |v.list| ensures v.list[i].op != c && NodeRight(v, v.list[i]) {
      assert NodeRight(r, r.list[i]);
      NodeStillRight(r, v, c, r.list[i]);
    }
    hide NodeRight, ByAge, Distinct, HasNode;
  }

  lemma PushedWellFormed(r: Ready, c: nat, s: nat)
    requires WellFormed(r) && c < |r.queues|
    ensures var v := r.(queues := r.queues[c := Push(r.queues[c], s)]); WellFormed(v) && SameBut(r, v, c)
  {
    PushAscends(r.queues[c], s);
    hide Push;
  }

  /** A newly ready instruction keeps the index right, whether or not it overtakes its queue's top. */
  lemma AddReadyKeepsInv(r: Ready, c: nat, s: nat)
    requires Inv(r) && c < |r.queues|
    ensures Inv(AddReady(r, c, s))
  {
    hide Push, EraseAt, ByAge, Distinct, HasNode, NodeRight, AddToOrderList, InvBut, Ascending;
    var pushed := r.(queues := r.queues[c := Push(r.queues[c], s)]);
    PushedWellFormed(r, c, s);
    PushAdds(r.queues[c], s);
    if !r.onList[c] {
      AbsentButRest(r, pushed, c);
      AddToOrderListKeepsInv(pushed, c);
    } else {
      var i := NodeOf(r, c);
      if pushed.queues[c][0] < r.list[i].oldest {
        var erased := pushed.(list := EraseAt(r.list, i));
        ErasedButRest(r, erased, i, c);
        AddToOrderListKeepsInv(erased, c);
      } else {
        StaysInPlace(r, pushed, c, i, s);
      }
    }
  }

  lemma StaysInPlace(r: Ready, v: Ready, c: nat, i: nat, s: nat)
    requires Inv(r) && c < |r.queues| && r.onList[c] && i < |r.list| && r.list[i].op == c
    requires v == r.(queues := r.queues[c := Push(r.queues[c], s)]) && WellFormed(v) && SameBut(r, v, c)
    requires v.queues[c] != [] && v.queues[c][0] >= r.list[i].oldest
    ensures Inv(v)
  {
    assert NodeRight(r, r.list[i]);
    TopAfterPush(r.queues[c], s);
    forall j | 0 <= j < |v.list| ensures NodeRight(v, v.list[j]) {
      if j != i {
        assert NodeRight(r, r.list[j]) && r.list[j].op != c;
        NodeStillRight(r, v, c, r.list[j]);
      }
    }
    hide NodeRight, ByAge, Distinct, HasNode, Push;
  }

  // ---- Taking the instruction at a position of the index ----------------------------------------

  /** Drop the top of the queue at position `p`; its class moves to where its next instruction belongs. */
  function PopAt(r: Ready, p: nat): Ready
    requires WellFormed(r) && p < |r.list| && r.list[p].op < |r.queues| && r.queues[r.list[p].op] != []
  {
    var c := r.list[p].op;
    var rest := r.queues[c][1..];
    if rest == [] then
      r.(queues := r.queues[c := rest], list := EraseAt(r.list, p), it := r.it[c := None], onList := r.onList[c := false])
    else
      var k := FirstNotOlder(r.list, rest[0], p + 1);
      r.(queues := r.queues[c := rest], list := EraseAt(InsertAt(r.list, k, Node(r.nextId, c, rest[0])), p),
         it := r.it[c := Some(r.nextId)], nextId := r.nextId + 1)
  }

  lemma EraseAfterInsert(l: seq<Node>, p: nat, k: nat, n: Node)
    requires p < k <= |l|
    ensures EraseAt(InsertAt(l, k, n), p) == InsertAt(EraseAt(l, p), k - 1, n)
  {
  }

  /** What is before `p` is untouched, and what is after is no older than what was taken. */
  predicate TakenAt(r: Ready, v: Ready, p: nat)
    requires p < |r.list|
  {
    && p <= |v.list| && v.list[..p] == r.list[..p]
    && (forall i | p <= i < |v.list| :: r.list[p].oldest <= v.list[i].oldest)
  }

  lemma PopLastKeepsInv(r: Ready, p: nat)
    requires Inv(r) && p < |r.list| && NodeRight(r, r.list[p]) && |r.queues[r.list[p].op]| == 1
    ensures Inv(PopAt(r, p)) && TakenAt(r, PopAt(r, p), p)
  {
    var c := r.list[p].op;
    var v := PopAt(r, p);
    EraseAtIndex(r.list, p);
    assert v.list == EraseAt(r.list, p) && v.queues == r.queues[c := []] && !v.onList[c];
    PoppedWellFormed(r, c);
    assert WellFormed(v) && SameBut(r, v, c);
    hide EraseAt, PopAt, NodeRight, HasNode, WellFormed, SameBut, Distinct;
    ErasedButRest(r, v, p, c);
  }

  /** The place found for the next instruction of a class fits, once the old entry is gone. */
  lemma PlaceFits(l: seq<Node>, p: nat, s: nat)
    requires ByAge(l) && p < |l| && l[p].oldest <= s
    ensures var k := FirstNotOlder(l, s, p + 1);
            var m := EraseAt(l, p);
            && |m| == |l| - 1 && p <= k - 1 <= |m| && m[..p] == l[..p]
            && (forall i | 0 <= i < k - 1 :: m[i].oldest <= s)
            && (forall i | k - 1 <= i < |m| :: s <= m[i].oldest)
            && (forall i | p <= i < |m| :: l[p].oldest <= m[i].oldest)
  {
    EraseAtIndex(l, p);
    hide EraseAt;
  }

  /** Dropping the top of a class's queue together with its entry. */
  function Dropped(r: Ready, p: nat): Ready
    requires WellFormed(r) && p < |r.list| && r.list[p].op < |r.queues| && r.queues[r.list[p].op] != []
  {
    r.(queues := r.queues[r.list[p].op := r.queues[r.list[p].op][1..]], list := EraseAt(r.list, p))
  }

  lemma DroppedInvBut(r: Ready, p: nat)
    requires Inv(r) && p < |r.list| && NodeRight(r, r.list[p])
    ensures InvBut(Dropped(r, p), r.list[p].op)
  {
    PoppedWellFormed(r, r.list[p].op);
    hide EraseAt, HasNode, ByAge, Distinct, WellFormed;
    ErasedButRest(r, Dropped(r, p), p, r.list[p].op);
  }

  /** Popping one of several is dropping it and entering the class again further down. */
  lemma PopMoreShape(r: Ready, p: nat) returns (k: nat)
    requires WellFormed(r) && ByAge(r.list) && p < |r.list| && NodeRight(r, r.list[p])
    requires |r.queues[r.list[p].op]| > 1
    ensures var c := r.list[p].op;
            var d := Dropped(r, p);
            var top := d.queues[c][0];
            && p <= k <= |d.list| && d.list[..p] == r.list[..p] && r.list[p].oldest <= top
            && PopAt(r, p) == d.(list := InsertAt(d.list, k, Node(d.nextId, c, top)), it := d.it[c := Some(d.nextId)],
                                 nextId := d.nextId + 1)
            && (forall i | 0 <= i < k :: d.list[i].oldest <= top)
            && (forall i | k <= i < |d.list| :: top <= d.list[i].oldest)
            && (forall i | p <= i < |d.list| :: r.list[p].oldest <= d.list[i].oldest)
  {
    var c := r.list[p].op;
    var rest := r.queues[c][1..];
    assert rest[0] == r.queues[c][1] && r.list[p].oldest <= rest[0];
    hide ByAge, EraseAt, InsertAt, FirstNotOlder;
    k := FirstNotOlder(r.list, rest[0], p + 1);
    PlaceFits(r.list, p, rest[0]);
    EraseAfterInsert(r.list, p, k, Node(r.nextId, c, rest[0]));
    k := k - 1;
  }

  lemma PopMoreKeepsInv(r: Ready, p: nat)
    requires Inv(r) && p < |r.list| && NodeRight(r, r.list[p]) && |r.queues[r.list[p].op]| > 1
    ensures Inv(PopAt(r, p)) && TakenAt(r, PopAt(r, p), p)
  {
    var c := r.list[p].op;
    var d := Dropped(r, p);
    DroppedInvBut(r, p);
    assert d.queues[c] != [] && d.onList[c] && c < |d.queues|;
    hide EraseAt, HasNode, ByAge, Distinct, InvBut;
    var k := PopMoreShape(r, p);
    InsertAtIndex(d.list, k, Node(d.nextId, c, d.queues[c][0]));
    hide PopAt, InsertAt, NodeRight, WellFormed;
    PlacedKeepsInv(d, PopAt(r, p), c, k);
    hide Inv, Dropped;
    assert PopAt(r, p).list[..p] == d.list[..p];
  }

  /** Popping at a position keeps the index right. */
  lemma PopAtKeepsInv(r: Ready, p: nat)
    requires Inv(r) && p < |r.list|
    ensures NodeRight(r, r.list[p]) && Inv(PopAt(r, p)) && TakenAt(r, PopAt(r, p), p)
  {
    assert NodeRight(r, r.list[p]);
    hide Inv, PopAt, TakenAt;
    if |r.queues[r.list[p].op]| == 1 {
      PopLastKeepsInv(r, p);
    } else {
      PopMoreKeepsInv(r, p);
    }
  }

  lemma PoppedWellFormed(r: Ready, c: nat)
    requires WellFormed(r) && c < |r.queues| && r.queues[c] != []
    ensures var v := r.(queues := r.queues[c := r.queues[c][1..]]); WellFormed(v) && SameBut(r, v, c)
  {
  }

  /** Entering a class anywhere its top fits keeps the index right. */
  lemma PlacedKeepsInv(r: Ready, v: Ready, c: nat, k: nat)
    requires InvBut(r, c) && c < |r.queues| && r.queues[c] != [] && k <= |r.list| && r.onList[c]
    requires v == r.(list := InsertAt(r.list, k, Node(r.nextId, c, r.queues[c][0])), it := r.it[c := Some(r.nextId)],
                     nextId := r.nextId + 1)
    requires forall i | 0 <= i < k :: r.list[i].oldest <= r.queues[c][0]
    requires forall i | k <= i < |r.list| :: r.queues[c][0] <= r.list[i].oldest
    ensures Inv(v)
  {
    var n := Node(r.nextId, c, r.queues[c][0]);
    assert forall i | 0 <= i < |r.list| :: NodeRight(r, r.list[i]) && r.list[i].id != n.id;
    InsertOrdered(r.list, n, k);
    InsertAtIndex(r.list, k, n);
    assert WellFormed(v) && SameBut(r, v, c) && NodeRight(v, v.list[k]);
    hide InsertAt, ByAge, Distinct, Ascending, SameBut, NodeRight;
    forall i | 0 <= i < |v.list| ensures NodeRight(v, v.list[i]) {
      if i < k {
        NodeStillRight(r, v, c, r.list[i]);
      } else if i > k {
        NodeStillRight(r, v, c, r.list[i - 1]);
      }
    }
    forall d | 0 <= d < |v.queues| && v.onList[d] ensures HasNode(v.list, d) {
      HasNodeInserted(r.list, n, k, d);
    }
  }

  // ---- Runs -------------------------------------------------------------------------------------

  datatype Event = BecomesReady(c: nat, s: nat) | Leaves(p: nat)

  predicate Guard(r: Ready, e: Event)
  {
    match e
    case BecomesReady(c, _) => c < |r.queues|
    case Leaves(p) => p < |r.list|
  }

  function Next(r: Ready, e: Event): Ready
    requires Inv(r) && Guard(r, e)
  {
    match e
    case BecomesReady(c, s) => AddReady(r, c, s)
    case Leaves(p) =>
      PopAtKeepsInv(r, p);
      PopAt(r, p)
  }

  lemma StepKeepsInv(r: Ready, e: Event)
    requires Inv(r) && Guard(r, e)
    ensures Inv(Next(r, e))
  {
    match e
    case BecomesReady(c, s) => AddReadyKeepsInv(r, c, s);
    case Leaves(p) => PopAtKeepsInv(r, p);
  }

  predicate Enabled(r: Ready, es: seq<Event>)
    requires Inv(r)
    decreases |es|
  {
    es == [] || (Guard(r, es[0]) && (StepKeepsInv(r, es[0]); Enabled(Next(r, es[0]), es[1..])))
  }

  function After(r: Ready, es: seq<Event>): Ready
    requires Inv(r) && Enabled(r, es)
    decreases |es|
  {
    if es == [] then r
    else
      StepKeepsInv(r, es[0]);
      After(Next(r, es[0]), es[1..])
  }

  /**
   * Through any sequence of insertions and removals the index lists the non-empty classes once each, in the order
   * of their oldest instructions, and every entry shows its queue's top.
   */
  lemma {:induction false} IndexRefinesQueues(r: Ready, es: seq<Event>)
    requires Inv(r) && Enabled(r, es)
    ensures var v := After(r, es);
            && Inv(v) && ByAge(v.list)
            && (forall c | 0 <= c < |v.queues| ::
                  v.queues[c] != [] <==> exists i :: 0 <= i < |v.list| && v.list[i].op == c)
            && (forall i | 0 <= i < |v.list| ::
                  v.list[i].op < |v.queues| && v.queues[v.list[i].op] != []
                  && v.list[i].oldest == v.queues[v.list[i].op][0])
    decreases |es|
  {
    if es != [] {
      StepKeepsInv(r, es[0]);
      IndexRefinesQueues(Next(r, es[0]), es[1..]);
    } else {
      forall c | 0 <= c < |r.queues|
        ensures r.queues[c] != [] <==> exists i :: 0 <= i < |r.list| && r.list[i].op == c
      {
        assert r.queues[c] != [] ==> HasNode(r.list, c);
        if i :| 0 <= i < |r.list| && r.list[i].op == c {
          assert NodeRight(r, r.list[i]);
        }
      }
      assert forall i | 0 <= i < |r.list| :: NodeRight(r, r.list[i]);
    }
  }
}
