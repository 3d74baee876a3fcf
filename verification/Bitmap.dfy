/** pkg/util/allocator: the allocation bitmap, its two scan strategies, and the byte table behind countBits. */
module Bitmap {
  import opened Bits

  // ---- countBits ----

  const COUNTS_0: seq<seq<nat>> := [
    [0, 1, 1, 2, 1, 2, 2, 3],
    [1, 2, 2, 3, 2, 3, 3, 4],
    [1, 2, 2, 3, 2, 3, 3, 4],
    [2, 3, 3, 4, 3, 4, 4, 5],
    [1, 2, 2, 3, 2, 3, 3, 4],
    [2, 3, 3, 4, 3, 4, 4, 5],
    [2, 3, 3, 4, 3, 4, 4, 5],
    [3, 4, 4, 5, 4, 5, 5, 6]]

  const COUNTS_64: seq<seq<nat>> := [
    [1, 2, 2, 3, 2, 3, 3, 4],
    [2, 3, 3, 4, 3, 4, 4, 5],
    [2, 3, 3, 4, 3, 4, 4, 5],
    [3, 4, 4, 5, 4, 5, 5, 6],
    [2, 3, 3, 4, 3, 4, 4, 5],
    [3, 4, 4, 5, 4, 5, 5, 6],
    [3, 4, 4, 5, 4, 5, 5, 6],
    [4, 5, 5, 6, 5, 6, 6, 7]]

  const COUNTS_128: seq<seq<nat>> := [
    [1, 2, 2, 3, 2, 3, 3, 4],
    [2, 3, 3, 4, 3, 4, 4, 5],
    [2, 3, 3, 4, 3, 4, 4, 5],
    [3, 4, 4, 5, 4, 5, 5, 6],
    [2, 3, 3, 4, 3, 4, 4, 5],
    [3, 4, 4, 5, 4, 5, 5, 6],
    [3, 4, 4, 5, 4, 5, 5, 6],
    [4, 5, 5, 6, 5, 6, 6, 7]]

  const COUNTS_192: seq<seq<nat>> := [
    [2, 3, 3, 4, 3, 4, 4, 5],
    [3, 4, 4, 5, 4, 5, 5, 6],
    [3, 4, 4, 5, 4, 5, 5, 6],
    [4, 5, 5, 6, 5, 6, 6, 7],
    [3, 4, 4, 5, 4, 5, 5, 6],
    [4, 5, 5, 6, 5, 6, 6, 7],
    [4, 5, 5, 6, 5, 6, 6, 7],
    [5, 6, 6, 7, 6, 7, 7, 8]]

  /** The 32 rows of bitCounts, a quarter at a time; the entry for byte b is in row b/8, column b%8. */
  function BitCounts(b: nat): nat
    requires b < 256
  {
    var quarter := if b < 64 then COUNTS_0 else if b < 128 then COUNTS_64 else if b < 192 then COUNTS_128 else COUNTS_192;
    quarter[b / 8 % 8][b % 8]
  }

  function Row(p: nat): seq<nat> { [p, p + 1, p + 1, p + 2, p + 1, p + 2, p + 2, p + 3] }

  function Rows(p: nat): seq<seq<nat>> {
    [Row(p), Row(p + 1), Row(p + 1), Row(p + 2), Row(p + 1), Row(p + 2), Row(p + 2), Row(p + 3)]
  }

  lemma QuartersRegular()
    ensures COUNTS_0 == Rows(0) && COUNTS_64 == Rows(1) && COUNTS_128 == Rows(1) && COUNTS_192 == Rows(2)
  {}

  lemma RowsEntry(p: nat, r: nat, c: nat)
    requires r < 8 && c < 8
    ensures Rows(p)[r][c] == p + Row(0)[r] + Row(0)[c]
  {
    assert Rows(p)[r] == Row(p + Row(0)[r]);
  }

  lemma OctalCounts(b: nat)
    ensures PopCount(b) == PopCount(b / 8) + PopCount(b % 8)
  {
    PopCountSplit(b, 3);
    OctalSplit(b);
  }

  lemma OctalSplit(b: nat)
    ensures Low(b, 3) == b % 8 && High(b, 3) == b / 8
  {
    assert High(b, 3) == b / 2 / 2 / 2;
    assert Low(b, 3) == (Low(b / 2 / 2, 1) * 2 + b / 2 % 2) * 2 + b % 2;
  }

  lemma CountsByDigits(b: nat)
    ensures PopCount(b) == PopCount(b / 64) + PopCount(b / 8 % 8) + PopCount(b % 8)
  {
    OctalCounts(b);
    OctalCounts(b / 8);
    assert b / 8 / 8 == b / 64;
  }

  /** Every table entry is the number of ones in its index. */
  lemma TableCorrect(b: nat)
    requires b < 256
    ensures BitCounts(b) == PopCount(b)
  {
    QuartersRegular();
    CountsByDigits(b);
    SmallCounts(b % 8);
    SmallCounts(b / 8 % 8);
    SmallCounts(b / 64);
    RowsEntry(PopCount(b / 64), b / 8 % 8, b % 8);
  }

  lemma SmallCounts(c: nat)
    requires c < 8
    ensures PopCount(c) == Row(0)[c]
  {
    assert PopCount(c / 2) == c / 2 % 2 + PopCount(c / 4);
    assert PopCount(c / 4) == c / 4;
  }

  function TableSum(data: seq<nat>): nat
    requires AreBytes(data)
  {
    if data == [] then 0 else TableSum(data[..|data| - 1]) + BitCounts(data[|data| - 1])
  }

  lemma {:induction false} TableSumIsPopCount(n: nat)
    ensures AreBytes(Bytes(n)) && TableSum(Bytes(n)) == PopCount(n)
  {
    BytesShape(n);
    if n > 0 {
      TableSumIsPopCount(n / 256);
      var b := Bytes(n);
      assert b[..|b| - 1] == Bytes(n / 256);
      TableCorrect(n % 256);
      ByteSplit(n);
    }
  }

  method CountBits(n: nat) returns (count: nat)
    ensures count == PopCount(n)
  {
    var data := Bytes(n);
    TableSumIsPopCount(n);
    count := 0;
    for i := 0 to |data|
      invariant count == TableSum(data[..i])
    {
      assert data[..i + 1][..i] == data[..i];
      count := count + BitCounts(data[i]);
    }
    assert data[..|data|] == data;
  }

  // ---- ForEach ----

  /** `calls` lists, in ascending order and once each, the one bits of `n` below `bound`. */
  ghost predicate Lists(calls: seq<nat>, n: nat, bound: nat) {
    && (forall i, j :: 0 <= i < j < |calls| ==> calls[i] < calls[j])
    && (forall x: nat :: x in calls <==> x < bound && Bit(n, x) == 1)
  }

  lemma ListsStep(calls: seq<nat>, n: nat, at: nat)
    requires Lists(calls, n, at)
    ensures Lists(if Bit(n, at) == 1 then calls + [at] else calls, n, at + 1)
  {
    forall i | 0 <= i < |calls| ensures calls[i] < at { assert calls[i] in calls; }
  }

  lemma ListsSkip(calls: seq<nat>, n: nat, from: nat, to: nat)
    requires Lists(calls, n, from) && from <= to && forall x: nat :: from <= x < to ==> Bit(n, x) == 0
    ensures Lists(calls, n, to)
  {}

  /** ForEach over words of `w` bits (32 or 64 in Go); the calls of fn are recorded. */
  method ForEach(n: nat, w: nat) returns (calls: seq<nat>)
    requires w > 0
    ensures forall i, j :: 0 <= i < j < |calls| ==> calls[i] < calls[j]
    ensures forall x: nat :: x in calls <==> Bit(n, x) == 1
  {
    var words := Digits(n, w);
    calls := [];
    for wordIdx := 0 to |words|
      invariant Lists(calls, n, wordIdx * w)
    {
      calls := ForEachInWord(n, w, wordIdx, words[wordIdx], calls);
    }
    forall x: nat | Bit(n, x) == 1 ensures x < |words| * w { BitInWords(n, w, x); }
  }

  lemma BitInWords(n: nat, w: nat, x: nat)
    requires w > 0 && Bit(n, x) == 1
    ensures x < |Digits(n, w)| * w
  {
    var k, r := Divided(x, w);
    DigitBit(n, w, k, r);
    WordBelow(k, |Digits(n, w)|, r, w);
  }

  /** The word a position falls into, and where in it. */
  lemma {:induction false} Divided(x: nat, w: nat) returns (k: nat, r: nat)
    requires w > 0
    ensures x == k * w + r && r < w
    decreases x
  {
    k, r := 0, x;
    if x >= w {
      k, r := Divided(x - w, w);
      WordEnd(k, w);
      k := k + 1;
    }
  }

  lemma WordBelow(k: nat, m: nat, r: nat, w: nat)
    requires k < m && r < w
    ensures k * w + r < m * w
  {
    assert (k + 1) * w <= m * w;
  }

  method ForEachInWord(n: nat, w: nat, wordIdx: nat, digit: nat, calls0: seq<nat>) returns (calls: seq<nat>)
    requires w > 0 && wordIdx < |Digits(n, w)| && digit == Digits(n, w)[wordIdx]
    requires Lists(calls0, n, wordIdx * w)
    ensures Lists(calls, n, (wordIdx + 1) * w)
  {
    var base := wordIdx * w;
    assert (wordIdx + 1) * w == base + w by { WordEnd(wordIdx, w); }
    WordBits(n, w, wordIdx, base);
    calls := ForEachFrom(n, w, base, digit, calls0);
  }

  lemma WordEnd(k: nat, w: nat)
    ensures (k + 1) * w == k * w + w
  {}

  /** A word of `w` bits holds those of `n` from `base` on. */
  ghost predicate WordAt(n: nat, w: nat, base: nat, digit: nat) {
    High(digit, w) == 0 && forall i: nat :: i < w ==> Bit(n, base + i) == Bit(digit, i)
  }

  lemma WordBits(n: nat, w: nat, k: nat, base: nat)
    requires w > 0 && k < |Digits(n, w)| && base == k * w
    ensures WordAt(n, w, base, Digits(n, w)[k])
  {
    DigitsSmall(n, w, k);
    HighZero(Digits(n, w)[k], w);
    forall i: nat | i < w ensures Bit(n, base + i) == Bit(Digits(n, w)[k], i) { DigitBit(n, w, k, i); }
  }

  method ForEachFrom(n: nat, w: nat, base: nat, digit: nat, calls0: seq<nat>) returns (calls: seq<nat>)
    requires WordAt(n, w, base, digit) && Lists(calls0, n, base)
    ensures Lists(calls, n, base + w)
  {
    calls := calls0;
    var word, bit := digit, 0;
    while word > 0
      invariant bit <= w && word == High(digit, bit)
      invariant Lists(calls, n, base + bit)
      decreases word
    {
      HighStep(digit, bit);
      ListsStep(calls, n, base + bit);
      if word % 2 != 0 {
        calls := calls + [base + bit];
        word := word - 1;
      }
      bit := bit + 1;
      word := word / 2;
    }
    RestIsZero(n, w, base, digit, bit);
    ListsSkip(calls, n, base + bit, base + w);
  }

  lemma RestIsZero(n: nat, w: nat, base: nat, digit: nat, bit: nat)
    requires WordAt(n, w, base, digit) && High(digit, bit) == 0
    ensures forall x: nat :: base + bit <= x < base + w ==> Bit(n, x) == 0
  {
    HighZero(digit, bit);
    forall x: nat | base + bit <= x < base + w ensures Bit(n, x) == 0 {
      assert Bit(n, base + (x - base)) == Bit(digit, x - base);
    }
  }
}
