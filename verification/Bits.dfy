/** Non-negative big.Int values as bit strings: single bits, population count, and splitting into fixed-width digits
    (bytes for Snapshot/Restore and countBits, machine words for ForEach). */
module Bits {

  function Bit(n: nat, i: nat): nat
    decreases i
  {
    if i == 0 then n % 2 else Bit(n / 2, i - 1)
  }

  function SetBit(n: nat, i: nat, b: nat): nat
    requires b <= 1
    decreases i
  {
    if i == 0 then n / 2 * 2 + b else SetBit(n / 2, i - 1, b) * 2 + n % 2
  }

  /** How many bits are one. */
  function PopCount(n: nat): nat {
    if n == 0 then 0 else n % 2 + PopCount(n / 2)
  }

  /** The positions of the one bits. */
  ghost function Ones(n: nat): set<nat> { set i | 0 <= i < n && Bit(n, i) == 1 }

  /** The low `w` bits, and the rest. */
  function Low(n: nat, w: nat): nat
    decreases w
  {
    if w == 0 then 0 else Low(n / 2, w - 1) * 2 + n % 2
  }

  function High(n: nat, w: nat): nat
    decreases w
  {
    if w == 0 then n else High(n / 2, w - 1)
  }

  // ---- Bits ----

  lemma {:induction false} BitOfZero(i: nat)
    ensures Bit(0, i) == 0
    decreases i
  {
    if i > 0 { BitOfZero(i - 1); }
  }

  /** A number has no one bit at or above its own value. */
  lemma {:induction false} BitBound(n: nat, i: nat)
    ensures Bit(n, i) <= 1
    ensures Bit(n, i) == 1 ==> i < n
    decreases i
  {
    if i > 0 { BitBound(n / 2, i - 1); }
  }

  lemma OnesMeaning(n: nat)
    ensures forall i: nat :: i in Ones(n) <==> Bit(n, i) == 1
  {
    forall i: nat { BitBound(n, i); }
  }

  lemma {:induction false} BitOfSetBit(n: nat, i: nat, b: nat, j: nat)
    requires b <= 1
    ensures Bit(SetBit(n, i, b), j) == if i == j then b else Bit(n, j)
    decreases i
  {
    if i > 0 && j > 0 { BitOfSetBit(n / 2, i - 1, b, j - 1); }
  }

  /** Numbers with the same bits are the same number. */
  lemma {:induction false} BitsDetermine(n: nat, m: nat)
    requires forall i: nat :: Bit(n, i) == Bit(m, i)
    ensures n == m
    decreases n + m
  {
    if n > 0 || m > 0 {
      forall i: nat ensures Bit(n / 2, i) == Bit(m / 2, i) {
        assert Bit(n, i + 1) == Bit(m, i + 1);
      }
      BitsDetermine(n / 2, m / 2);
      assert Bit(n, 0) == Bit(m, 0);
    }
  }

  lemma {:induction false} PopCountSetBit(n: nat, i: nat, b: nat)
    requires b <= 1
    ensures PopCount(SetBit(n, i, b)) == PopCount(n) + b - Bit(n, i)
    decreases i
  {
    var q, r := n / 2, n % 2;
    assert PopCount(n) == PopCount(q) + r by { PopCountDouble(q, r); }
    if i == 0 {
      PopCountDouble(q, b);
    } else {
      var q' := SetBit(q, i - 1, b);
      assert PopCount(q') == PopCount(q) + b - Bit(q, i - 1) by { PopCountSetBit(q, i - 1, b); }
      assert PopCount(q' * 2 + r) == PopCount(q') + r by { PopCountDouble(q', r); }
    }
  }

  lemma PopCountDouble(q: nat, b: nat)
    requires b <= 1
    ensures PopCount(q * 2 + b) == PopCount(q) + b
  {
    var m := q * 2 + b;
    assert m % 2 == b && m / 2 == q;
    if m > 0 { assert PopCount(m) == m % 2 + PopCount(m / 2); }
  }

  lemma OnesSetBit(n: nat, i: nat, b: nat)
    requires b <= 1
    ensures Ones(SetBit(n, i, b)) == if b == 1 then Ones(n) + {i} else Ones(n) - {i}
  {
    OnesMeaning(n);
    OnesMeaning(SetBit(n, i, b));
    forall j: nat { BitOfSetBit(n, i, b, j); }
  }

  /** The population count is the number of set positions. */
  lemma {:induction false} PopCountOnes(n: nat)
    ensures PopCount(n) == |Ones(n)|
    decreases n
  {
    if n > 0 {
      OnesMeaning(n);
      OnesMeaning(n / 2);
      PopCountOnes(n / 2);
      var up := set i | i in Ones(n / 2) :: i + 1;
      ShiftSize(Ones(n / 2), up);
      forall j: nat ensures j in Ones(n) <==> (j == 0 && n % 2 == 1) || j in up {
        if j > 0 {
          assert Bit(n, j) == Bit(n / 2, j - 1);
          if j in Ones(n) { assert j - 1 in Ones(n / 2); }
        }
      }
      assert Ones(n) == up + if n % 2 == 1 then {0} else {};
    } else {
      assert Ones(0) == {};
    }
  }

  lemma {:induction false} ShiftSize(s: set<nat>, up: set<nat>)
    requires up == set i | i in s :: i + 1
    ensures |up| == |s|
    decreases |s|
  {
    if s != {} {
      var i :| i in s;
      var rest := set j | j in s - {i} :: j + 1;
      ShiftSize(s - {i}, rest);
      forall x ensures x in up <==> x in rest + {i + 1} {
        if x in up {
          var j :| j in s && x == j + 1;
          assert j == i || j in s - {i};
        }
      }
      assert up == rest + {i + 1};
    }
  }

  // ---- Digits ----

  lemma {:induction false} BitSplit(n: nat, w: nat, i: nat)
    ensures Bit(Low(n, w), i) == if i < w then Bit(n, i) else 0
    ensures Bit(n, w + i) == Bit(High(n, w), i)
    decreases w
  {
    if w == 0 {
      BitOfZero(i);
    } else {
      BitSplit(n / 2, w - 1, i);
      if i > 0 { BitSplit(n / 2, w - 1, i - 1); }
    }
  }

  lemma {:induction false} PopCountSplit(n: nat, w: nat)
    ensures PopCount(n) == PopCount(Low(n, w)) + PopCount(High(n, w))
    decreases w
  {
    if w > 0 {
      PopCountSplit(n / 2, w - 1);
      var l := Low(n / 2, w - 1) * 2 + n % 2;
      assert l % 2 == n % 2 && l / 2 == Low(n / 2, w - 1);
    }
  }

  lemma {:induction false} HighShrinks(n: nat, w: nat)
    requires w > 0
    ensures High(n, w) <= n && (n > 0 ==> High(n, w) < n)
    decreases w
  {
    if w > 1 { HighShrinks(n / 2, w - 1); }
  }

  /** The `w`-bit digits of `n`, least significant first, without leading zero digits: big.Int.Bits(). */
  function Digits(n: nat, w: nat): seq<nat>
    requires w > 0
  {
    if n == 0 then [] else HighShrinks(n, w); [Low(n, w)] + Digits(High(n, w), w)
  }

  lemma NextDigit(k: nat, w: nat, b: nat)
    requires k > 0
    ensures (k - 1) * w >= 0 && k * w + b == w + ((k - 1) * w + b)
  {}

  lemma DigitsStep(n: nat, w: nat, k: nat)
    requires w > 0 && n > 0 && k > 0
    ensures |Digits(n, w)| == |Digits(High(n, w), w)| + 1
    ensures k < |Digits(n, w)| ==> Digits(n, w)[k] == Digits(High(n, w), w)[k - 1]
  {
    HighShrinks(n, w);
  }

  /** Bit `b` of digit `k` is bit `k*w + b` of the number. */
  lemma {:induction false} DigitBit(n: nat, w: nat, k: nat, b: nat)
    requires w > 0 && b < w
    ensures Bit(n, k * w + b) == if k < |Digits(n, w)| then Bit(Digits(n, w)[k], b) else 0
    decreases k
  {
    if n == 0 {
      BitOfZero(k * w + b);
    } else if k == 0 {
      BitSplit(n, w, b);
    } else {
      DigitsStep(n, w, k);
      DigitBit(High(n, w), w, k - 1, b);
      NextDigit(k, w, b);
      BitSplit(n, w, (k - 1) * w + b);
    }
  }

  lemma {:induction false} DigitsSmall(n: nat, w: nat, k: nat)
    requires w > 0 && k < |Digits(n, w)|
    ensures ClearFrom(Digits(n, w)[k], w)
    decreases k
  {
    HighShrinks(n, w);
    if k == 0 {
      forall b: nat | b >= w ensures Bit(Digits(n, w)[0], b) == 0 { BitSplit(n, w, b); }
    } else {
      DigitsSmall(High(n, w), w, k - 1);
    }
  }

  /** No one bits from position `b` on. */
  ghost predicate ClearFrom(n: nat, b: nat) { forall i: nat :: i >= b ==> Bit(n, i) == 0 }

  lemma HighZero(n: nat, b: nat)
    ensures High(n, b) == 0 <==> ClearFrom(n, b)
  {
    if High(n, b) == 0 {
      forall i: nat | i >= b ensures Bit(n, i) == 0 {
        BitSplit(n, b, i - b);
        BitOfZero(i - b);
      }
    }
    if ClearFrom(n, b) {
      forall i: nat ensures Bit(High(n, b), i) == Bit(0, i) {
        BitSplit(n, b, i);
        BitOfZero(i);
      }
      BitsDetermine(High(n, b), 0);
    }
  }

  lemma {:induction false} HighStep(n: nat, b: nat)
    ensures High(n, b + 1) == High(n, b) / 2 && Bit(n, b) == High(n, b) % 2
    decreases b
  {
    if b > 0 { HighStep(n / 2, b - 1); }
  }

  // ---- Bytes: big.Int.Bytes and SetBytes ----

  /** Big-endian, without leading zero bytes. */
  function Bytes(n: nat): seq<nat> {
    if n == 0 then [] else Bytes(n / 256) + [n % 256]
  }

  function FromBytes(data: seq<nat>): nat {
    if data == [] then 0 else FromBytes(data[..|data| - 1]) * 256 + data[|data| - 1]
  }

  ghost predicate AreBytes(data: seq<nat>) { forall i :: 0 <= i < |data| ==> data[i] < 256 }

  lemma FromBytesSnoc(data: seq<nat>, b: nat)
    ensures FromBytes(data + [b]) == FromBytes(data) * 256 + b
  {
    assert (data + [b])[..|data|] == data;
  }

  lemma {:induction false} BytesRoundTrip(n: nat)
    ensures FromBytes(Bytes(n)) == n
  {
    if n > 0 {
      BytesRoundTrip(n / 256);
      FromBytesSnoc(Bytes(n / 256), n % 256);
    }
  }

  /** The bytes are bytes, and the first is not zero. */
  lemma {:induction false} BytesShape(n: nat)
    ensures AreBytes(Bytes(n)) && (n > 0 ==> |Bytes(n)| > 0 && Bytes(n)[0] > 0)
  {
    if n > 0 {
      BytesShape(n / 256);
    }
  }

  function Power2(w: nat): nat { if w == 0 then 1 else 2 * Power2(w - 1) }

  lemma {:induction false} SplitValue(n: nat, w: nat)
    ensures n == Low(n, w) + Power2(w) * High(n, w) && Low(n, w) < Power2(w)
    decreases w
  {
    if w > 0 {
      SplitValue(n / 2, w - 1);
      TwiceSplit(n, Low(n / 2, w - 1), Power2(w - 1), High(n / 2, w - 1));
    }
  }

  lemma TwiceSplit(n: nat, l: nat, p: nat, h: nat)
    requires n / 2 == l + p * h && l < p
    ensures n == l * 2 + n % 2 + (2 * p) * h && l * 2 + n % 2 < 2 * p
  {
    TwiceProduct(p, h, p * h);
  }

  lemma TwiceProduct(p: nat, h: nat, q: nat)
    requires q == p * h
    ensures (2 * p) * h == 2 * q
  {}

  lemma LowByte(n: nat)
    ensures Low(n, 8) == n % 256 && High(n, 8) == n / 256
  {
    SplitValue(n, 8);
    assert Power2(8) == 256;
    ByteUnique(n, Low(n, 8), High(n, 8));
  }

  lemma ByteUnique(n: nat, l: nat, h: nat)
    requires n == l + 256 * h && l < 256
    ensures l == n % 256 && h == n / 256
  {}

  lemma ByteSplit(n: nat)
    ensures PopCount(n) == PopCount(n / 256) + PopCount(n % 256)
  {
    LowByte(n);
    PopCountSplit(n, 8);
  }
}
