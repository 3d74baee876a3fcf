/** pkg/util/allocator/bitmap.go: AllocationBitmap with its random and contiguous strategies. */
module Allocator {
  import opened Basics
  import opened Bits
  import opened Bitmap

  /** The offsets an allocator of this size hands out. */
  ghost function Usable(max: int): (r: set<nat>)
    ensures forall i: nat :: i in r <==> i < max
    decreases max
  {
    if max <= 0 then {} else Usable(max - 1) + {max - 1}
  }

  lemma {:induction false} UsableSize(max: nat)
    ensures |Usable(max)| == max
  {
    if max > 0 {
      UsableSize(max - 1);
    }
  }

  ghost predicate HasFree(taken: nat, max: int) { exists i: nat :: i < max && Bit(taken, i) == 0 }

  /** Fewer ones than usable offsets leaves a usable offset free. */
  lemma RoomLeft(taken: nat, max: nat)
    requires PopCount(taken) < max
    ensures HasFree(taken, max)
  {
    PopCountOnes(taken);
    OnesMeaning(taken);
    UsableSize(max);
    if Usable(max) <= Ones(taken) {
      SubsetSize(Usable(max), Ones(taken));
    } else {
      var i :| i in Usable(max) && i !in Ones(taken);
      BitBound(taken, i);
    }
  }

  /** The position a scan from `start` looks at in step `i`. */
  function Slot(start: nat, i: nat, max: nat): nat
    requires max > 0
  {
    (start + i) % max
  }

  /** The position `x` is met after `(x - start) mod max` steps of a scan from `start`. */
  lemma ScanReaches(start: nat, max: nat, x: nat) returns (i: nat)
    requires start < max && x < max
    ensures i < max && Slot(start, i, max) == x && i == if x >= start then x - start else x + max - start
  {
    i := if x >= start then x - start else x + max - start;
    Wraps(start + i, max, x);
  }

  lemma Wraps(at: nat, max: nat, x: nat)
    requires x < max && (at == x || at == x + max)
    ensures at % max == x
  {
    if at == x + max { assert at == 1 * max + x; }
  }

  /** Every offset between `start` and `at`, going up and from the top back to 0, is taken. */
  ghost predicate FirstFrom(taken: nat, max: int, start: nat, at: nat) {
    forall x: nat :: x < max && (if start <= at then start <= x < at else x >= start || x < at) ==> Bit(taken, x) != 0
  }

  lemma FoundFirst(taken: nat, max: nat, start: nat, i: nat)
    requires start < max && i < max && forall j: nat :: j < i ==> Bit(taken, Slot(start, j, max)) != 0
    ensures FirstFrom(taken, max, start, Slot(start, i, max))
  {
    var at := if start + i < max then start + i else start + i - max;
    Wraps(start + i, max, at);
    forall x: nat | x < max && (if start <= at then start <= x < at else x >= start || x < at) ensures Bit(taken, x) != 0 {
      var j := ScanReaches(start, max, x);
      assert j == if x >= start then x - start else x + max - start;
    }
  }

  /** randomScanStrategy.AllocateBit; `start` is rand.Intn(max). */
  method RandomScan(taken: nat, max: int, count: int, start: nat) returns (at: nat, ok: bool)
    requires count >= 0 && (max > 0 ==> start < max)
    ensures ok <==> count < max && HasFree(taken, max)
    ensures ok ==> at < max && Bit(taken, at) == 0 && FirstFrom(taken, max, start, at)
    ensures !ok ==> at == 0
  {
    if count >= max { return 0, false; }
    var i := 0;
    while i < max
      invariant 0 <= i <= max
      invariant forall j: nat :: j < i ==> Bit(taken, Slot(start, j, max)) != 0
    {
      at := Slot(start, i, max);
      if Bit(taken, at) == 0 {
        FoundFirst(taken, max, start, i);
        return at, true;
      }
      i := i + 1;
    }
    forall x: nat | x < max ensures Bit(taken, x) != 0 {
      var j := ScanReaches(start, max, x);
    }
    return 0, false;
  }

  /** contiguousScanStrategy.AllocateBit: the least free offset. */
  method ContiguousScan(taken: nat, max: int, count: int) returns (at: nat, ok: bool)
    ensures ok <==> count < max && HasFree(taken, max)
    ensures ok ==> at < max && Bit(taken, at) == 0 && forall i: nat :: i < at ==> Bit(taken, i) == 1
    ensures !ok ==> at == 0
  {
    if count >= max { return 0, false; }
    var i := 0;
    while i < max
      invariant 0 <= i
      invariant forall j: nat :: j < i ==> Bit(taken, j) == 1
    {
      BitBound(taken, i);
      if Bit(taken, i) == 0 { return i, true; }
      i := i + 1;
    }
    return 0, false;
  }

  class AllocationBitmap {
    const contiguous: bool
    const max: int
    const rangeSpec: string
    var count: int
    var taken: nat

    /** count is always the number of set bits. */
    ghost predicate Valid()
      reads this
    {
      count == PopCount(taken)
    }

    constructor (contiguous: bool, max: int, rangeSpec: string)
      ensures Valid() && taken == 0 && count == 0
      ensures this.contiguous == contiguous && this.max == max && this.rangeSpec == rangeSpec
    {
      this.contiguous, this.max, this.rangeSpec := contiguous, max, rangeSpec;
      count, taken := 0, 0;
    }

    method Allocate(offset: nat) returns (ok: bool)
      requires Valid()
      modifies this
      ensures Valid()
      ensures ok <==> offset !in old(Ones(taken))
      ensures Ones(taken) == old(Ones(taken)) + {offset}
      ensures taken == if ok then SetBit(old(taken), offset, 1) else old(taken)
    {
      OnesMeaning(taken);
      OnesSetBit(taken, offset, 1);
      PopCountSetBit(taken, offset, 1);
      BitBound(taken, offset);
      if Bit(taken, offset) == 1 { return false; }
      taken := SetBit(taken, offset, 1);
      count := count + 1;
      return true;
    }

    /** It fails exactly when count has reached max; otherwise whatever the random start a free offset below max is
        taken, the least one under the contiguous strategy. */
    method AllocateNext(start: nat) returns (offset: nat, ok: bool)
      requires Valid() && (max > 0 ==> start < max)
      modifies this
      ensures Valid()
      ensures ok <==> old(PopCount(taken)) < max
      ensures !ok ==> offset == 0 && taken == old(taken)
      ensures ok ==> offset < max && offset !in old(Ones(taken))
      ensures ok ==> Ones(taken) == old(Ones(taken)) + {offset} && taken == SetBit(old(taken), offset, 1)
      ensures ok && contiguous ==> forall i: nat :: i < offset ==> i in old(Ones(taken))
      ensures ok && !contiguous ==> FirstFrom(old(taken), max, start, offset)
    {
      OnesMeaning(taken);
      if count < max { RoomLeft(taken, max); }
      var next, found;
      if contiguous {
        next, found := ContiguousScan(taken, max, count);
      } else {
        next, found := RandomScan(taken, max, count, start);
      }
      if !found { return 0, false; }
      OnesSetBit(taken, next, 1);
      PopCountSetBit(taken, next, 1);
      count := count + 1;
      taken := SetBit(taken, next, 1);
      return next, true;
    }

    method Release(offset: nat)
      requires Valid()
      modifies this
      ensures Valid() && Ones(taken) == old(Ones(taken)) - {offset}
      ensures taken == if offset in old(Ones(taken)) then SetBit(old(taken), offset, 0) else old(taken)
    {
      OnesMeaning(taken);
      OnesSetBit(taken, offset, 0);
      PopCountSetBit(taken, offset, 0);
      BitBound(taken, offset);
      if Bit(taken, offset) == 0 { return; }
      taken := SetBit(taken, offset, 0);
      count := count - 1;
    }

    method Has(offset: nat) returns (r: bool)
      ensures r <==> offset in Ones(taken)
    {
      OnesMeaning(taken);
      r := Bit(taken, offset) == 1;
    }

    method Free() returns (r: int)
      requires Valid()
      ensures r == max - |Ones(taken)|
    {
      PopCountOnes(taken);
      r := max - count;
    }

    method Snapshot() returns (spec: string, data: seq<nat>)
      ensures spec == rangeSpec && FromBytes(data) == taken
    {
      BytesRoundTrip(taken);
      return rangeSpec, Bytes(taken);
    }

    /** Restoring a snapshot of the same range reproduces the set it was taken from; count is recomputed from the
        bytes and is right for any data. */
    method Restore(spec: string, data: seq<nat>) returns (ok: bool)
      requires Valid()
      modifies this
      ensures Valid() && (ok <==> spec == rangeSpec)
      ensures taken == if ok then FromBytes(data) else old(taken)
    {
      if rangeSpec != spec { return false; }
      taken := FromBytes(data);
      count := CountBits(taken);
      return true;
    }
  }

  /** Taking a free offset and giving it back restores the very same bitmap. */
  lemma ReleaseUndoes(taken: nat, offset: nat)
    requires Bit(taken, offset) == 0
    ensures SetBit(SetBit(taken, offset, 1), offset, 0) == taken
  {
    var back := SetBit(SetBit(taken, offset, 1), offset, 0);
    forall j: nat ensures Bit(back, j) == Bit(taken, j) {
      BitOfSetBit(SetBit(taken, offset, 1), offset, 0, j);
      BitOfSetBit(taken, offset, 1, j);
    }
    BitsDetermine(back, taken);
  }

  ghost predicate Full(taken: nat, max: nat) { Usable(max) <= Ones(taken) }

  /** AllocateNext's refusal (count at max) means "all offsets taken" exactly when no free offset remains or the bits
      set outside the range are fewer than the free ones inside it. With no bit at or above max it always does. */
  lemma RefusalMeansFullIff(taken: nat, max: nat)
    ensures (PopCount(taken) >= max <==> Full(taken, max)) <==>
            (|Usable(max) - Ones(taken)| == 0 || |Ones(taken) - Usable(max)| < |Usable(max) - Ones(taken)|)
    ensures Ones(taken) <= Usable(max) ==> (PopCount(taken) >= max <==> Full(taken, max))
  {
    var ones, usable := Ones(taken), Usable(max);
    PopCountOnes(taken);
    UsableSize(max);
    assert |ones| == |ones * usable| + |ones - usable| by {
      assert ones == ones * usable + (ones - usable);
    }
    assert |usable| == |ones * usable| + |usable - ones| by {
      assert usable == ones * usable + (usable - ones);
    }
    assert Full(taken, max) <==> |usable - ones| == 0 by {
      if Full(taken, max) {
        assert usable - ones == {};
      } else {
        var x :| x in usable && x !in ones;
        assert x in usable - ones;
      }
    }
    if ones <= usable {
      assert ones - usable == {};
    }
  }

  /** A stray bit above the range makes AllocateNext refuse while offset 0 is free. */
  lemma StrayBitRefuses()
    ensures PopCount(2) >= 1 && !Full(2, 1)
  {
    assert PopCount(2) == 0 + PopCount(1);
    assert Bit(2, 0) == 0;
    assert 0 in Usable(1) && 0 !in Ones(2);
  }
}
