/** Byte-addressed memory, and what a sequence of stores does to it. */
module Memory {

  type Byte = b: int | 0 <= b < 256

  type Bytes = seq<Byte>

  /** Memory contents; an address that was never written reads as zero. */
  type Contents = map<nat, Byte>

  /** A store with its place in program order. */
  datatype Store = Store(seqNum: nat, addr: nat, data: Bytes)

  predicate Covers(s: Store, a: nat)
  {
    s.addr <= a < s.addr + |s.data|
  }

  function Lookup(m: Contents, a: nat): Byte
  {
    if a in m then m[a] else 0
  }

  function Put(m: Contents, s: Store): Contents
  {
    m + map a: nat | s.addr <= a < s.addr + |s.data| && Covers(s, a) :: s.data[a - s.addr]
  }

  /** The memory left behind by performing the stores one after the other. */
  function Fold(m: Contents, ss: seq<Store>): Contents
  {
    if ss == [] then m else Put(Fold(m, ss[..|ss| - 1]), ss[|ss| - 1])
  }

  /** `size` bytes starting at `addr`. */
  function ReadBytes(m: Contents, addr: nat, size: nat): Bytes
  {
    seq<Byte>(size, (k: nat) => Lookup(m, addr + k))
  }

  lemma LookupPut(m: Contents, s: Store, a: nat)
    ensures Lookup(Put(m, s), a) == if Covers(s, a) then s.data[a - s.addr] else Lookup(m, a)
  {
  }

  lemma {:induction false} FoldConcat(m: Contents, s: seq<Store>, t: seq<Store>)
    ensures Fold(m, s + t) == Fold(Fold(m, s), t)
  {
    if t == [] {
      assert s + t == s;
    } else {
      var last := |t| - 1;
      assert (s + t)[..|s + t| - 1] == s + t[..last];
      FoldConcat(m, s, t[..last]);
    }
  }

  /** Two memories that agree on a byte still agree on it after the same stores. */
  lemma {:induction false} FoldCongruent(m: Contents, n: Contents, ss: seq<Store>, a: nat)
    requires Lookup(m, a) == Lookup(n, a)
    ensures Lookup(Fold(m, ss), a) == Lookup(Fold(n, ss), a)
  {
    if ss != [] {
      var front, last := ss[..|ss| - 1], ss[|ss| - 1];
      FoldCongruent(m, n, front, a);
      LookupPut(Fold(m, front), last, a);
      LookupPut(Fold(n, front), last, a);
    }
  }

  /** A store that misses a byte can be slipped in anywhere without changing that byte. */
  lemma FoldInsertMiss(m: Contents, s: seq<Store>, x: Store, t: seq<Store>, a: nat)
    requires !Covers(x, a)
    ensures Lookup(Fold(m, s + [x] + t), a) == Lookup(Fold(m, s + t), a)
  {
    FoldConcat(m, s + [x], t);
    FoldConcat(m, s, t);
    FoldConcat(m, s, [x]);
    assert [x][..0] == [];
    assert Fold(Fold(m, s), [x]) == Put(Fold(m, s), x);
    LookupPut(Fold(m, s), x, a);
    FoldCongruent(Fold(m, s + [x]), Fold(m, s), t, a);
  }
}
