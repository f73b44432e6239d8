/** How one byte range lies over another: the two checks the load/store queue makes. */
module Coverage {

  datatype AddrRangeCoverage = Partial | Full | NoCoverage

  predicate InRange(a: nat, start: nat, size: nat)
  {
    start <= a < start + size
  }

  /** What a load's request and a store entry say about themselves. */
  datatype Kind = Kind(storeAtomic: bool, storeMasked: bool, loadLLSC: bool)

  const PLAIN := Kind(false, false, false)

  /** The source's four comparisons and the two-armed case split over them. */
  function AddrCoverage(reqS: nat, reqSize: nat, stS: nat, stSize: nat, kind: Kind): AddrRangeCoverage
  {
    var reqE := reqS + reqSize;
    var stE := stS + stSize;
    var hasLower := reqS >= stS;
    var hasUpper := reqE <= stE;
    var lowerPart := reqS < stE;
    var upperPart := reqE > stS;
    if !kind.storeAtomic && hasLower && hasUpper && !kind.loadLLSC then
      if kind.storeMasked then Partial else Full
    else if || (!kind.loadLLSC && ((hasLower && lowerPart) || (hasUpper && upperPart) || (lowerPart && upperPart)))
            || (kind.loadLLSC && ((hasLower || upperPart) && (hasUpper || lowerPart)))
            || (kind.storeAtomic && ((hasLower || upperPart) && (hasUpper || lowerPart))) then
      Partial
    else
      NoCoverage
  }

  /** The comparisons decide containment and overlap of the byte sets exactly, for every kind of access. */
  lemma CoverageIsExact(reqS: nat, reqSize: nat, stS: nat, stSize: nat, kind: Kind)
    requires reqSize > 0 && stSize > 0
    ensures var c := AddrCoverage(reqS, reqSize, stS, stSize, kind);
            && (c == NoCoverage <==> forall a | InRange(a, reqS, reqSize) :: !InRange(a, stS, stSize))
            && (c == Full <==> && (forall a | InRange(a, reqS, reqSize) :: InRange(a, stS, stSize))
                               && !kind.storeAtomic && !kind.loadLLSC && !kind.storeMasked)
  {
    var reqE := reqS + reqSize;
    var stE := stS + stSize;
    assert InRange(reqS, reqS, reqSize) && InRange(reqE - 1, reqS, reqSize);
    assert InRange(stS, stS, stSize) && InRange(stE - 1, stS, stSize);
  }

  /** An address shifted right, one bit at a time: `addr >> shift`. */
  function Block(a: nat, shift: nat): nat
  {
    if shift == 0 then a else Block(a / 2, shift - 1)
  }

  /** The dependence check: the two ranges touch a common block. */
  predicate BlocksOverlap(a: nat, aSize: nat, b: nat, bSize: nat, shift: nat)
    requires aSize > 0 && bSize > 0
  {
    && Block(a + aSize - 1, shift) >= Block(b, shift)
    && Block(a, shift) <= Block(b + bSize - 1, shift)
  }

  lemma {:induction false} BlockMonotone(a: nat, b: nat, shift: nat)
    requires a <= b
    ensures Block(a, shift) <= Block(b, shift)
  {
    if shift > 0 {
      BlockMonotone(a / 2, b / 2, shift - 1);
    }
  }

  function Pow2(n: nat): nat
  {
    if n == 0 then 1 else 2 * Pow2(n - 1)
  }

  lemma DoubleProduct(x: nat, y: nat)
    ensures x * (2 * y) == 2 * (x * y)
  {
  }

  /** A block is an aligned stretch of `2^shift` bytes. */
  lemma {:induction false} BlockIsAligned(a: nat, shift: nat)
    ensures Block(a, shift) * Pow2(shift) <= a < (Block(a, shift) + 1) * Pow2(shift)
  {
    if shift > 0 {
      BlockIsAligned(a / 2, shift - 1);
      DoubleProduct(Block(a, shift), Pow2(shift - 1));
      DoubleProduct(Block(a, shift) + 1, Pow2(shift - 1));
    }
  }

  lemma {:induction false} BlockNext(a: nat, shift: nat)
    ensures Block(a + 1, shift) <= Block(a, shift) + 1
  {
    if shift > 0 {
      BlockNext(a / 2, shift - 1);
    }
  }

  /** No block between that of the first byte and that of the last is skipped. */
  lemma {:induction false} BlockReached(a: nat, size: nat, shift: nat, b: nat) returns (x: nat)
    requires size > 0 && Block(a, shift) <= b <= Block(a + size - 1, shift)
    ensures InRange(x, a, size) && Block(x, shift) == b
    decreases size
  {
    x := a;
    if Block(a, shift) < b {
      BlockNext(a, shift);
      x := BlockReached(a + 1, size - 1, shift, b);
    }
  }

  /** Two bytes, one of each range, lie in the same block. */
  ghost predicate ShareBlock(a: nat, aSize: nat, b: nat, bSize: nat, shift: nat)
  {
    exists x: nat, y: nat :: InRange(x, a, aSize) && InRange(y, b, bSize) && Block(x, shift) == Block(y, shift)
  }

  /** For every shift, the check fires exactly when some block holds a byte of each range. */
  lemma BlocksOverlapIff(a: nat, aSize: nat, b: nat, bSize: nat, shift: nat)
    requires aSize > 0 && bSize > 0
    ensures BlocksOverlap(a, aSize, b, bSize, shift) <==> ShareBlock(a, aSize, b, bSize, shift)
  {
    if BlocksOverlap(a, aSize, b, bSize, shift) {
      if Block(a, shift) <= Block(b, shift) {
        var x := BlockReached(a, aSize, shift, Block(b, shift));
        assert InRange(b, b, bSize);
      } else {
        var y := BlockReached(b, bSize, shift, Block(a, shift));
        assert InRange(a, a, aSize);
      }
    } else if ShareBlock(a, aSize, b, bSize, shift) {
      var x: nat, y: nat :| InRange(x, a, aSize) && InRange(y, b, bSize) && Block(x, shift) == Block(y, shift);
      BlockMonotone(a, x, shift);
      BlockMonotone(x, a + aSize - 1, shift);
      BlockMonotone(b, y, shift);
      BlockMonotone(y, b + bSize - 1, shift);
    }
  }

  /** Two accesses that share a byte always trip the check, whatever the shift. */
  lemma SharedByteIsCaught(a: nat, aSize: nat, b: nat, bSize: nat, shift: nat, x: nat)
    requires aSize > 0 && bSize > 0
    requires InRange(x, a, aSize) && InRange(x, b, bSize)
    ensures BlocksOverlap(a, aSize, b, bSize, shift)
  {
    BlockMonotone(b, a + aSize - 1, shift);
    BlockMonotone(a, b + bSize - 1, shift);
  }

  /** With no shift the check is exact: it fires only when a byte is shared. */
  lemma UnshiftedCheckIsExact(a: nat, aSize: nat, b: nat, bSize: nat)
    requires aSize > 0 && bSize > 0
    ensures BlocksOverlap(a, aSize, b, bSize, 0) <==> exists x: nat :: InRange(x, a, aSize) && InRange(x, b, bSize)
  {
    if BlocksOverlap(a, aSize, b, bSize, 0) {
      var x := if a < b then b else a;
      assert InRange(x, a, aSize) && InRange(x, b, bSize);
    } else if x: nat :| InRange(x, a, aSize) && InRange(x, b, bSize) {
      SharedByteIsCaught(a, aSize, b, bSize, 0, x);
    }
  }
}
