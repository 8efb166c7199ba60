/** Bytes, their bits, and byte strings read as big-endian numbers. */
module Bytes {

  import opened Division

  type Byte = x: int | 0 <= x < 256

  // ---- Bits of a number, least significant first ----

  function Shr(n: nat, k: nat): nat {
    if k == 0 then n else Shr(n, k - 1) / 2
  }

  predicate Bit(n: nat, k: nat) {
    Shr(n, k) % 2 == 1
  }

  lemma {:induction false} ShrFront(n: nat, k: nat)
    requires k > 0
    ensures Shr(n, k) == Shr(n / 2, k - 1)
  {
    if k > 1 { ShrFront(n, k - 1); }
  }

  lemma {:induction false} ShrZero(k: nat)
    ensures Shr(0, k) == 0
  {
    if k > 0 { ShrZero(k - 1); }
  }

  lemma {:induction false} ZeroStaysZero(n: nat, j: nat, k: nat)
    requires j <= k && Shr(n, j) == 0
    ensures Shr(n, k) == 0
  {
    if j < k { ZeroStaysZero(n, j, k - 1); }
  }

  lemma ByteHasEightBits(b: Byte, k: nat)
    requires k >= 8
    ensures Shr(b, k) == 0
  {
    assert Shr(b, 1) < 128 && Shr(b, 2) < 64 && Shr(b, 3) < 32 && Shr(b, 4) < 16;
    assert Shr(b, 5) < 8 && Shr(b, 6) < 4 && Shr(b, 7) < 2 && Shr(b, 8) == 0;
    ZeroStaysZero(b, 8, k);
  }

  /** b with bit k set or cleared: |= 1 << k and &= ~(1 << k). */
  function WithBit(b: nat, k: nat, on: bool): nat {
    if k == 0 then b / 2 * 2 + (if on then 1 else 0)
    else WithBit(b / 2, k - 1, on) * 2 + b % 2
  }

  lemma {:induction false} WithBitBit(b: nat, k: nat, on: bool, j: nat)
    ensures Bit(WithBit(b, k, on), j) == if j == k then on else Bit(b, j)
    decreases k
  {
    var w := WithBit(b, k, on);
    if j > 0 { ShrFront(w, j); ShrFront(b, j); }
    if k > 0 && j > 0 { WithBitBit(b / 2, k - 1, on, j - 1); }
  }

  lemma {:induction false} WithBitStaysBelow(b: nat, k: nat, on: bool, bits: nat)
    requires k < bits && Shr(b, bits) == 0
    ensures Shr(WithBit(b, k, on), bits) == 0
    decreases k
  {
    var w := WithBit(b, k, on);
    ShrFront(w, bits);
    ShrFront(b, bits);
    if k > 0 { WithBitStaysBelow(b / 2, k - 1, on, bits - 1); }
  }

  /** Setting or clearing a bit of a byte gives a byte. */
  function ByteWithBit(b: Byte, k: nat, on: bool): (r: Byte)
    requires k < 8
    ensures forall j: nat :: Bit(r, j) == if j == k then on else Bit(b, j)
  {
    ByteHasEightBits(b, 8);
    WithBitStaysBelow(b, k, on, 8);
    EightBitsMakeAByte(WithBit(b, k, on));
    assert forall j: nat :: Bit(WithBit(b, k, on), j) == if j == k then on else Bit(b, j) by {
      forall j: nat { WithBitBit(b, k, on, j); }
    }
    WithBit(b, k, on)
  }

  lemma EightBitsMakeAByte(n: nat)
    requires Shr(n, 8) == 0
    ensures n < 256
  {
    assert Shr(n, 0) == n;
    assert Shr(n, 7) < 2;
    assert Shr(n, 6) < 4 && Shr(n, 5) < 8 && Shr(n, 4) < 16;
    assert Shr(n, 3) < 32 && Shr(n, 2) < 64 && Shr(n, 1) < 128;
  }

  /** Bitwise conjunction of two numbers. */
  function And(a: nat, b: nat): nat {
    if a == 0 || b == 0 then 0 else And(a / 2, b / 2) * 2 + (a % 2) * (b % 2)
  }

  lemma {:induction false} AndBit(a: nat, b: nat, k: nat)
    ensures Bit(And(a, b), k) == (Bit(a, k) && Bit(b, k))
    decreases k
  {
    var c := And(a, b);
    if a == 0 || b == 0 {
      ShrZero(k);
    } else {
      assert (a % 2) * (b % 2) == 0 || (a % 2) * (b % 2) == 1;
      assert c / 2 == And(a / 2, b / 2);
      if k > 0 {
        ShrFront(c, k); ShrFront(a, k); ShrFront(b, k);
        AndBit(a / 2, b / 2, k - 1);
      } else {
        assert c % 2 == (a % 2) * (b % 2);
        assert a % 2 == 0 || a % 2 == 1;
      }
    }
  }

  lemma {:induction false} AndBelow(a: nat, b: nat)
    ensures And(a, b) <= a && And(a, b) <= b
  {
    if a != 0 && b != 0 {
      AndBelow(a / 2, b / 2);
      assert a % 2 == 0 || a % 2 == 1;
    }
  }

  lemma {:induction false} BitsDetermine(a: nat, b: nat)
    requires forall k: nat :: Bit(a, k) == Bit(b, k)
    ensures a == b
    decreases a + b
  {
    if a != b {
      assert Bit(a, 0) == Bit(b, 0);
      forall k: nat ensures Bit(a / 2, k) == Bit(b / 2, k) {
        assert Bit(a, k + 1) == Bit(b, k + 1);
        ShrFront(a, k + 1); ShrFront(b, k + 1);
      }
      BitsDetermine(a / 2, b / 2);
    }
  }

  /** Comparing under a mask compares exactly the bits the mask selects. */
  lemma MaskedEquality(a: nat, b: nat, m: nat)
    ensures And(a, m) == And(b, m) <==> forall k: nat :: Bit(m, k) ==> Bit(a, k) == Bit(b, k)
  {
    forall k: nat
      ensures Bit(And(a, m), k) == (Bit(a, k) && Bit(m, k))
      ensures Bit(And(b, m), k) == (Bit(b, k) && Bit(m, k))
    {
      AndBit(a, m, k); AndBit(b, m, k);
    }
    if forall k: nat :: Bit(m, k) ==> Bit(a, k) == Bit(b, k) {
      BitsDetermine(And(a, m), And(b, m));
    }
  }

  // ---- Byte strings as big-endian numbers ----

  function Pow256(n: nat): (p: nat)
    ensures p >= 1
  {
    if n == 0 then 1 else 256 * Pow256(n - 1)
  }

  function Number(bs: seq<Byte>): nat {
    if bs == [] then 0 else Number(bs[..|bs| - 1]) * 256 + bs[|bs| - 1]
  }

  lemma {:induction false} NumberBound(bs: seq<Byte>)
    ensures Number(bs) < Pow256(|bs|)
  {
    if bs != [] { NumberBound(bs[..|bs| - 1]); }
  }

  lemma {:induction false} NumberFront(bs: seq<Byte>)
    requires bs != []
    ensures Number(bs) == bs[0] * Pow256(|bs| - 1) + Number(bs[1..])
  {
    if |bs| > 1 {
      var front := bs[..|bs| - 1];
      NumberFront(front);
      assert bs[1..][..|bs| - 2] == front[1..];
      assert Number(bs[1..]) == Number(front[1..]) * 256 + bs[|bs| - 1];
      Shifted256(bs[0], Pow256(|bs| - 2), Number(front[1..]));
    }
  }

  lemma Shifted256(a: nat, p: nat, r: nat)
    ensures (a * p + r) * 256 == a * (256 * p) + r * 256
  {
  }

  /** Bit k of a byte string: the last byte holds bits 0 to 7. */
  predicate BitAt(bs: seq<Byte>, k: nat)
    requires k < 8 * |bs|
  {
    Bit(bs[|bs| - 1 - k / 8], k % 8)
  }

  /** Bit k of a byte string is bit k of the number it spells. */
  lemma {:induction false} BitAtIsNumberBit(bs: seq<Byte>, k: nat)
    requires k < 8 * |bs|
    ensures BitAt(bs, k) == Bit(Number(bs), k)
    decreases |bs|
  {
    var front, last := bs[..|bs| - 1], bs[|bs| - 1];
    assert Two(8) == 256;
    if k < 8 {
      LowBits(Number(front), last, 8, k);
    } else {
      HighShift(Number(front), last, 8, k);
      BitAtIsNumberBit(front, k - 8);
      assert (k - 8) / 8 == k / 8 - 1 && (k - 8) % 8 == k % 8;
    }
  }

  lemma Halve(h: nat, b: nat, t: nat)
    ensures (h * (2 * t) + b) / 2 == h * t + b / 2 && (h * (2 * t) + b) % 2 == b % 2
  {
  }

  lemma {:induction false} LowBits(h: nat, b: nat, j: nat, k: nat)
    requires b < Two(j) && k < j
    ensures Bit(h * Two(j) + b, k) == Bit(b, k)
    decreases k
  {
    Halve(h, b, Two(j - 1));
    if k > 0 {
      ShrFront(h * Two(j) + b, k); ShrFront(b, k);
      LowBits(h, b / 2, j - 1, k - 1);
    }
  }

  lemma {:induction false} HighShift(h: nat, b: nat, j: nat, k: nat)
    requires b < Two(j) && k >= j
    ensures Shr(h * Two(j) + b, k) == Shr(h, k - j)
    decreases j
  {
    if j > 0 {
      Halve(h, b, Two(j - 1));
      ShrFront(h * Two(j) + b, k);
      HighShift(h, b / 2, j - 1, k - 1);
    }
  }

  lemma {:induction false} HighBitsZero(bs: seq<Byte>, k: nat)
    requires k >= 8 * |bs|
    ensures Shr(Number(bs), k) == 0
  {
    if bs == [] {
      ShrZero(k);
    } else {
      HighBitsZero(bs[..|bs| - 1], k - 8);
      assert Two(8) == 256;
      HighShift(Number(bs[..|bs| - 1]), bs[|bs| - 1], 8, k);
    }
  }
}
