// The 32-bit sets of protocol/bitset.go and the bit scans done on them.

/** A word is its 32 bits, least significant first; bit sets number them from 1 to 32. */
module BitSets {

  type BitSet32 = w: seq<bool> | |w| == 32 witness NO_BITS

  const NO_BITS: seq<bool> := [
    false, false, false, false, false, false, false, false, false, false, false, false, false, false, false, false,
    false, false, false, false, false, false, false, false, false, false, false, false, false, false, false, false]

  const ZERO: BitSet32 := NO_BITS

  /** BitSet32.Test; an index out of range panics. */
  predicate Test(b: BitSet32, i: nat)
    requires 1 <= i <= 32
  {
    b[i - 1]
  }

  /** BitSet32.Set */
  function Insert(b: BitSet32, i: nat): (r: BitSet32)
    requires 1 <= i <= 32
    ensures Members(r) == Members(b) + {i}
  {
    b[i - 1 := true]
  }

  /** BitSet32.Clear */
  function Clear(b: BitSet32, i: nat): (r: BitSet32)
    requires 1 <= i <= 32
    ensures Members(r) == Members(b) - {i}
  {
    b[i - 1 := false]
  }

  /** Go's ^b */
  function Complement(b: BitSet32): (r: BitSet32)
    ensures forall i: nat :: i in Members(r) <==> 1 <= i <= 32 && i !in Members(b)
  {
    seq(32, i requires 0 <= i < 32 => !b[i])
  }

  /** The members of a bit set. */
  ghost function Members(b: BitSet32): (s: set<nat>)
    ensures forall i: nat :: i in s <==> 1 <= i <= 32 && Test(b, i)
  {
    set i: nat | 1 <= i <= 32 && Test(b, i)
  }

  /** Two bit sets with the same members are the same word. */
  lemma SameMembers(a: BitSet32, b: BitSet32)
    requires Members(a) == Members(b)
    ensures a == b
  {
    forall k | 0 <= k < 32
      ensures a[k] == b[k]
    {
      assert Test(a, k + 1) <==> k + 1 in Members(a);
      assert Test(b, k + 1) <==> k + 1 in Members(b);
    }
  }

  lemma EmptyIsZero(b: BitSet32)
    ensures Members(b) == {} <==> b == ZERO
  {
    assert Members(ZERO) == {};
    if Members(b) == {} {
      SameMembers(b, ZERO);
    }
  }

  /** bits.TrailingZeros32: the indices missing below the least member; 32 for the empty set. */
  method TrailingZeros32(b: BitSet32) returns (n: nat)
    ensures n <= 32
    ensures n < 32 ==> n + 1 in Members(b)
    ensures forall i: nat | i in Members(b) :: n < i
  {
    n := 0;
    while n < 32 && !b[n]
      invariant n <= 32
      invariant forall i: nat | i in Members(b) :: n < i
    {
      n := n + 1;
    }
  }
}
