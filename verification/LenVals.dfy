/** The length-tagged byte buffers of firmware/common/xapp058/lenval.c. */
module LenVals {
  import opened Bytes
  import opened Division

  const MAX_LEN := 256

  /** A buffer: val[..len] is a big-endian number; val[len..] is left over. */
  class LenVal {
    var len: nat
    const val: array<Byte>

    ghost predicate Valid()
      reads this
    {
      val.Length == MAX_LEN + 1 && len <= MAX_LEN + 1
    }

    function Text(): (bs: seq<Byte>)
      requires Valid()
      reads this, val
      ensures |bs| == len
    {
      val[..len]
    }

    /** A buffer on the stack: whatever was there before. */
    constructor ()
      ensures Valid() && fresh(val)
    {
      var n: nat :| n <= MAX_LEN + 1;
      len := n;
      val := new Byte[MAX_LEN + 1];
    }

    /** The long the buffer spells, in 32-bit two's complement (the target's long). */
    method Value() returns (value: int)
      requires Valid()
      ensures value == Int32(Number(Text()))
    {
      value := 0;
      for index := 0 to len
        invariant value == Int32(Number(val[..index]))
      {
        assert val[..index + 1][..index] == val[..index];
        ShiftIn(Number(val[..index]), val[index]);
        value := Int32(value * 256 + val[index]);
      }
    }

    /** The bit iBit from the left of byte iByte from the left, as a bit of the number. */
    method RetBit(iByte: nat, iBit: nat) returns (on: bool)
      requires Valid() && iByte < len && iBit < 8
      ensures on == Bit(Number(Text()), FromRight(len, iByte, iBit))
    {
      var k := FromRight(len, iByte, iBit);
      assert k / 8 == len - 1 - iByte && k % 8 == 7 - iBit;
      BitAtIsNumberBit(Text(), k);
      on := Shr(val[iByte], 7 - iBit) % 2 == 1;
    }

    /** Sets or clears that bit, and no other. */
    method SetBit(iByte: nat, iBit: nat, on: bool)
      requires Valid() && iByte < len && iBit < 8
      modifies val
      ensures forall k: nat :: k < 8 * len ==>
                BitAt(Text(), k) == if k == FromRight(len, iByte, iBit) then on else BitAt(old(Text()), k)
      ensures forall i :: len <= i <= MAX_LEN ==> val[i] == old(val[i])
    {
      val[iByte] := ByteWithBit(val[iByte], 7 - iBit, on);
    }
  }

  /** Two buffers that share nothing. */
  ghost predicate Apart(a: LenVal, b: LenVal) {
    a != b && a.val != b.val
  }

  /** The place in the number of a bit counted from the left. */
  function FromRight(len: nat, iByte: nat, iBit: nat): nat
    requires iByte < len && iBit < 8
  {
    8 * (len - 1 - iByte) + (7 - iBit)
  }

  /** Reduction to a signed 32-bit integer. */
  function Int32(n: int): (r: int)
    ensures -0x8000_0000 <= r < 0x8000_0000
    ensures (r - n) % 0x1_0000_0000 == 0
  {
    var u := n % 0x1_0000_0000;
    if u < 0x8000_0000 then u else u - 0x1_0000_0000
  }

  lemma Int32Periodic(n: int, k: int)
    ensures Int32(n + k * 0x1_0000_0000) == Int32(n)
  {
  }

  lemma ShiftIn(n: int, b: Byte)
    ensures Int32(Int32(n) * 256 + b) == Int32(n * 256 + b)
  {
    var k := (Int32(n) - n) / 0x1_0000_0000;
    Int32Periodic(n * 256 + b, 256 * k);
  }

  /** Two bytes never reach the sign. */
  lemma TwoBytes(bs: seq<Byte>)
    requires |bs| == 2
    ensures Int32(Number(bs)) == Number(bs) < 0x1_0000
  {
    NumberBound(bs);
    assert Pow256(2) == 0x1_0000;
  }

  /** Comparison of two buffers, under a mask buffer if there is one. Only the length of the expected
      buffer counts. */
  ghost predicate Agree(expected: seq<Byte>, captured: seq<Byte>, mask: seq<Byte>)
    requires |expected| <= |captured| && |expected| <= |mask|
  {
    forall i, k: nat :: 0 <= i < |expected| && Bit(mask[i], k) ==> Bit(expected[i], k) == Bit(captured[i], k)
  }

  ghost function AllOnes(n: nat): seq<Byte> {
    seq(n, _ => 255)
  }

  ghost function MaskText(mask: LenVal?): seq<Byte>
    reads mask, if mask == null then {} else {mask.val}
  {
    if mask == null then AllOnes(MAX_LEN + 1) else mask.val[..]
  }

  lemma OnesKeepByte(b: Byte)
    ensures And(b, 255) == b
  {
    forall k: nat ensures Bit(And(b, 255), k) == Bit(b, k) {
      AndBit(b, 255, k);
      if k >= 8 { ByteHasEightBits(b, k); } else { OnesBit(k); }
    }
    BitsDetermine(And(b, 255), b);
  }

  lemma OnesBit(k: nat)
    requires k < 8
    ensures Bit(255, k)
  {
    assert Shr(255, 1) == 127 && Shr(255, 2) == 63 && Shr(255, 3) == 31 && Shr(255, 4) == 15;
    assert Shr(255, 5) == 7 && Shr(255, 6) == 3 && Shr(255, 7) == 1;
  }

  method EqualLenVal(expected: LenVal, captured: LenVal, mask: LenVal?) returns (equal: bool)
    requires expected.Valid() && captured.Valid() && (mask != null ==> mask.Valid())
    ensures equal <==> Agree(expected.Text(), captured.val[..], MaskText(mask))
  {
    equal := true;
    var index := expected.len;
    while equal && index > 0
      invariant 0 <= index <= expected.len
      invariant equal ==> forall i, k: nat :: index <= i < expected.len && Bit(MaskText(mask)[i], k) ==>
                            Bit(expected.Text()[i], k) == Bit(captured.val[..][i], k)
      invariant !equal ==> !Agree(expected.Text(), captured.val[..], MaskText(mask))
      decreases index, equal
    {
      index := index - 1;
      var byte1: nat, byte2: nat := expected.val[index], captured.val[index];
      MaskedEquality(byte1, byte2, MaskText(mask)[index]);
      if mask != null {
        byte1 := And(byte1, mask.val[index]);
        byte2 := And(byte2, mask.val[index]);
      } else {
        OnesKeepByte(byte1); OnesKeepByte(byte2);
      }
      if byte1 != byte2 {
        equal := false;
      }
    }
  }

  /** Column addition of the bytes from position i on, from the right: the digits and the carry out. */
  ghost function Columns(x: seq<Byte>, y: seq<Byte>, i: nat): (r: (seq<Byte>, nat))
    requires i <= |x| == |y|
    ensures |r.0| == |x| - i && r.1 <= 1
    decreases |x| - i
  {
    if i == |x| then ([], 0)
    else
      var (digits, carry) := Columns(x, y, i + 1);
      var sum: int := x[i] as int + y[i] as int + carry;
      ([sum % 256] + digits, if sum > 255 then 1 else 0)
  }

  lemma OneColumn(x: seq<Byte>, y: seq<Byte>, i: nat)
    requires i < |x| == |y|
    ensures var sum := x[i] as int + y[i] as int + Columns(x, y, i + 1).1;
            && Columns(x, y, i).0 == [sum % 256] + Columns(x, y, i + 1).0
            && Columns(x, y, i).1 == (if sum > 255 then 1 else 0)
            && Columns(x, y, i).0[0] as int + 256 * Columns(x, y, i).1 == sum
  {
  }

  /** Column addition adds the numbers, up to the carry out of the top byte. */
  lemma {:induction false} ColumnsAdd(x: seq<Byte>, y: seq<Byte>, i: nat)
    requires i <= |x| == |y|
    ensures Number(Columns(x, y, i).0) + Columns(x, y, i).1 * Pow256(|x| - i) == Number(x[i..]) + Number(y[i..])
    decreases |x| - i
  {
    if i < |x| {
      OneColumn(x, y, i);
      hide Columns, Number;
      var (digits, carryIn) := Columns(x, y, i + 1);
      var (r, carryOut) := Columns(x, y, i);
      assert r[1..] == digits && x[i..][1..] == x[i + 1..] && y[i..][1..] == y[i + 1..];
      ColumnsAdd(x, y, i + 1);
      NumberFront(x[i..]); NumberFront(y[i..]); NumberFront(r);
      CarryThrough(x[i], y[i], r[0], carryIn, carryOut, Pow256(|x| - i - 1));
    }
  }

  lemma CarryThrough(x: nat, y: nat, r: nat, carryIn: nat, carryOut: nat, p: nat)
    requires r + 256 * carryOut == x + y + carryIn
    ensures r * p + carryOut * (256 * p) == x * p + y * p + carryIn * p
  {
  }

  lemma ColumnsModulo(x: seq<Byte>, y: seq<Byte>)
    requires |x| == |y|
    ensures Number(Columns(x, y, 0).0) == (Number(x) + Number(y)) % Pow256(|x|)
  {
    var (r, carry) := Columns(x, y, 0);
    ColumnsAdd(x, y, 0);
    assert x[0..] == x && y[0..] == y;
    NumberBound(r);
    Quotient(Number(x) + Number(y), carry, Number(r), Pow256(|x|));
  }

  /** Big-endian addition modulo 256^len; the result may be either operand. */
  method AddVal(result: LenVal, val1: LenVal, val2: LenVal)
    requires result.Valid() && val1.Valid() && val2.Valid()
    requires result == val1 || result.val != val1.val
    requires result == val2 || result.val != val2.val
    modifies result, result.val
    ensures result.Valid() && result.len == old(val1.len)
    ensures result.Text() == Columns(old(val1.Text()), old(val2.val[..val1.len]), 0).0
    ensures forall i :: result.len <= i <= MAX_LEN ==> result.val[i] == old(result.val[i])
  {
    ghost var n, x, y := val1.len, val1.Text(), val2.val[..val1.len];
    ghost var digits: seq<Byte> := [];
    result.len := val1.len;
    var carry: int := 0;
    assert (digits, carry) == Columns(x, y, n);
    hide Columns;
    var index := val1.len;
    while index > 0
      invariant 0 <= index <= n == result.len
      invariant forall i :: 0 <= i < index ==> val1.val[i] == x[i] && val2.val[i] == y[i]
      invariant (digits, carry) == Columns(x, y, index)
      invariant result.val[index..n] == digits
      invariant forall i :: n <= i <= MAX_LEN ==> result.val[i] == old(result.val[i])
    {
      index := index - 1;
      var byte1: int, byte2: int := val1.val[index], val2.val[index];
      var sum := byte1 + byte2 + carry;
      OneColumn(x, y, index);
      digits := [sum % 256] + digits;
      carry := if sum > 255 then 1 else 0;
      result.val[index] := sum % 256;
    }
    assert result.Text() == digits;
  }
}
