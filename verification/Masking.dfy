/** The XSDRINC masking step of firmware/common/xapp058/micro.c, in place on the shift buffer. */
module Masking {
  import opened Bytes
  import opened LenVals

  // ---- What the step means, bit k of a buffer counted from the least significant end ----

  /** Set bits of the mask below bit k. */
  ghost function Rank(mask: seq<Byte>, k: nat): (r: nat)
    requires k <= 8 * |mask|
    ensures r <= k
  {
    if k == 0 then 0 else Rank(mask, k - 1) + (if BitAt(mask, k - 1) then 1 else 0)
  }

  ghost function PopCount(mask: seq<Byte>): nat {
    Rank(mask, 8 * |mask|)
  }

  lemma {:induction false} RankMonotone(mask: seq<Byte>, j: nat, k: nat)
    requires j <= k <= 8 * |mask|
    ensures Rank(mask, j) <= Rank(mask, k)
  {
    if j < k { RankMonotone(mask, j, k - 1); }
  }

  /** Bit k of the parallel deposit of data into value at the set bits of mask, least significant
      first: the selected bits take the data bits one after another, the others keep the value. */
  ghost predicate Deposit(value: seq<Byte>, mask: seq<Byte>, data: seq<Byte>, k: nat)
    requires |value| == |mask| && k < 8 * |mask|
  {
    if BitAt(mask, k) then DataBit(data, Rank(mask, k)) else BitAt(value, k)
  }

  ghost predicate DataBit(data: seq<Byte>, r: nat) {
    r < 8 * |data| && BitAt(data, r)
  }

  // ---- The same, by byte and bit of the byte, as the loops go ----

  function Position(n: nat, i: nat, b: nat): nat
    requires i < n
  {
    8 * (n - 1 - i) + b
  }

  lemma BitPosition(bs: seq<Byte>, i: nat, b: nat)
    requires i < |bs| && b < 8
    ensures BitAt(bs, Position(|bs|, i, b)) == Bit(bs[i], b)
  {
  }

  ghost predicate Deposited(byte: Byte, before: Byte, mask: seq<Byte>, data: seq<Byte>, i: nat, b: nat)
    requires i < |mask| && b < 8
  {
    Bit(byte, b) == if Bit(mask[i], b) then DataBit(data, Rank(mask, Position(|mask|, i, b))) else Bit(before, b)
  }

  lemma DepositedIsDeposit(byte: Byte, value: seq<Byte>, mask: seq<Byte>, data: seq<Byte>, i: nat, b: nat)
    requires i < |mask| == |value| && b < 8
    requires Deposited(byte, value[i], mask, data, i, b)
    ensures Bit(byte, b) == Deposit(value, mask, data, Position(|mask|, i, b))
  {
  }

  /** Where the loops stand in the next data: bytes from next on are used up, the byte at next as far
      as bit nextMask; 8 stands for a mask bit shifted out of its byte. */
  ghost predicate Consumed(data: seq<Byte>, next: int, nextByte: Byte, nextMask: int, bits: int) {
    && 0 <= next <= |data| && 0 <= nextMask <= 8
    && (nextMask < 8 ==> next < |data| && nextByte == data[next])
    && 8 * (|data| - next) - (8 - nextMask) == bits
  }

  lemma NextBit(data: seq<Byte>, next: int, nextByte: Byte, nextMask: int, r: nat)
    requires Consumed(data, next, nextByte, nextMask, r) && nextMask < 8
    ensures DataBit(data, r) == Bit(nextByte, nextMask)
    ensures Consumed(data, next, nextByte, nextMask + 1, r + 1)
  {
  }

  lemma {:induction false} RankOverZeros(mask: seq<Byte>, i: nat, b: nat, c: nat)
    requires i < |mask| && b <= c <= 8 && Shr(mask[i], b) == 0
    ensures Rank(mask, Position(|mask|, i, c)) == Rank(mask, Position(|mask|, i, b))
  {
    if b < c {
      RankOverZeros(mask, i, b, c - 1);
      ZeroStaysZero(mask[i], b, c - 1);
      BitPosition(mask, i, c - 1);
    }
  }

  lemma OneMore(result: Byte, before: Byte, tdiByte: Byte, mask: seq<Byte>, data: seq<Byte>, i: nat, bit: nat)
    requires i < |mask| && bit < 8
    requires forall b: nat :: b < bit ==> Deposited(before, tdiByte, mask, data, i, b)
    requires Deposited(result, tdiByte, mask, data, i, bit)
    requires forall b: nat :: b != bit ==> Bit(result, b) == Bit(before, b)
    ensures forall b: nat :: b < bit + 1 ==> Deposited(result, tdiByte, mask, data, i, b)
  {
    forall b: nat | b < bit ensures Deposited(result, tdiByte, mask, data, i, b) {
      assert Deposited(before, tdiByte, mask, data, i, b);
    }
  }

  /** One byte of the data mask: the inner loop. */
  method DepositByte(maskByte: Byte, tdiByte: Byte, nextData: LenVal, next0: int, nextByte0: Byte, nextMask0: int,
                     ghost mask: seq<Byte>, ghost i: nat)
    returns (result: Byte, next: int, nextByte: Byte, nextMask: int)
    requires nextData.Valid() && i < |mask| && mask[i] == maskByte && PopCount(mask) <= 8 * nextData.len
    requires Consumed(nextData.Text(), next0, nextByte0, nextMask0, Rank(mask, Position(|mask|, i, 0)))
    ensures Consumed(nextData.Text(), next, nextByte, nextMask, Rank(mask, Position(|mask|, i, 8)))
    ensures forall b: nat :: b < 8 ==> Deposited(result, tdiByte, mask, nextData.Text(), i, b)
  {
    ghost var data := nextData.Text();
    result, next, nextByte, nextMask := tdiByte, next0, nextByte0, nextMask0;
    var dataMask: nat := maskByte;
    var bit := 0;
    while dataMask != 0
      invariant 0 <= bit <= 8 && dataMask == Shr(maskByte, bit)
      invariant Consumed(data, next, nextByte, nextMask, Rank(mask, Position(|mask|, i, bit)))
      invariant forall b: nat :: b < bit ==> Deposited(result, tdiByte, mask, data, i, b)
      invariant forall b: nat :: bit <= b ==> Bit(result, b) == Bit(tdiByte, b)
      decreases dataMask
    {
      ghost var before := result;
      ByteHasEightBits(maskByte, 8);
      BitPosition(mask, i, bit);
      if dataMask % 2 == 1 {
        ghost var r := Rank(mask, Position(|mask|, i, bit));
        assert r < 8 * |data| by { RankMonotone(mask, Position(|mask|, i, bit) + 1, 8 * |mask|); }
        if nextMask == 8 {
          next := next - 1;
          nextByte := nextData.val[next];
          nextMask := 0;
        }
        NextBit(data, next, nextByte, nextMask, r);
        result := ByteWithBit(result, bit, Bit(nextByte, nextMask));
        nextMask := nextMask + 1;
      }
      OneMore(result, before, tdiByte, mask, data, i, bit);
      bit := bit + 1;
      dataMask := dataMask / 2;
    }
    RankOverZeros(mask, i, bit, 8);
    forall b: nat | bit <= b < 8 ensures Deposited(result, tdiByte, mask, data, i, b) {
      ZeroStaysZero(maskByte, bit, b);
    }
  }

  /** Adds the address mask to the shift value, then replaces the bits the data mask selects by the
      next data. The result and the first operand of the addition are the same buffer. */
  method DoSdrMasking(tdi: LenVal, nextData: LenVal, addressMask: LenVal, dataMask: LenVal)
    requires tdi.Valid() && nextData.Valid() && addressMask.Valid() && dataMask.Valid()
    requires tdi.val != nextData.val && tdi.val != addressMask.val && tdi.val != dataMask.val
    requires tdi != nextData && tdi != dataMask
    requires PopCount(dataMask.Text()) <= 8 * nextData.len
    modifies tdi, tdi.val
    ensures tdi.Valid() && tdi.len == old(tdi.len)
    ensures dataMask.len == tdi.len ==>
              var sum := Columns(old(tdi.Text()), addressMask.val[..tdi.len], 0).0;
              forall k: nat :: k < 8 * tdi.len ==>
                BitAt(tdi.Text(), k) == Deposit(sum, dataMask.Text(), nextData.Text(), k)
  {
    AddVal(tdi, tdi, addressMask);
    ghost var sum := tdi.val[..dataMask.len];
    DepositBits(tdi, nextData, dataMask);
    if dataMask.len == tdi.len {
      AllDeposited(tdi.Text(), sum, dataMask.Text(), nextData.Text());
    }
  }

  /** The bits of the next data replace the masked bits of a value in place, the lowest first. */
  method DepositBits(tdi: LenVal, nextData: LenVal, dataMask: LenVal)
    requires tdi.Valid() && nextData.Valid() && dataMask.Valid()
    requires tdi.val != nextData.val && tdi.val != dataMask.val && tdi != nextData && tdi != dataMask
    requires PopCount(dataMask.Text()) <= 8 * nextData.len
    modifies tdi.val
    ensures forall t: nat, b: nat :: t < dataMask.len && b < 8 ==>
              Deposited(tdi.val[t], old(tdi.val[t]), dataMask.Text(), nextData.Text(), t, b)
  {
    ghost var mask, data, sum := dataMask.Text(), nextData.Text(), tdi.val[..];
    var next, nextByte: Byte, nextMask := nextData.len, 0, 8;
    var i := dataMask.len;
    while i > 0
      invariant 0 <= i <= |mask|
      invariant Consumed(data, next, nextByte, nextMask, Rank(mask, 8 * (|mask| - i)))
      invariant forall t :: 0 <= t < i ==> tdi.val[t] == sum[t]
      invariant forall t: nat, b: nat :: i <= t < |mask| && b < 8 ==> Deposited(tdi.val[t], sum[t], mask, data, t, b)
    {
      i := i - 1;
      var byte;
      byte, next, nextByte, nextMask :=
        DepositByte(dataMask.val[i], tdi.val[i], nextData, next, nextByte, nextMask, mask, i);
      tdi.val[i] := byte;
    }
  }

  lemma AllDeposited(result: seq<Byte>, value: seq<Byte>, mask: seq<Byte>, data: seq<Byte>)
    requires |result| == |value| == |mask|
    requires forall i: nat, b: nat :: i < |mask| && b < 8 ==> Deposited(result[i], value[i], mask, data, i, b)
    ensures forall k: nat :: k < 8 * |mask| ==> BitAt(result, k) == Deposit(value, mask, data, k)
  {
    forall k: nat | k < 8 * |mask| ensures BitAt(result, k) == Deposit(value, mask, data, k) {
      var i, b := |mask| - 1 - k / 8, k % 8;
      assert Position(|mask|, i, b) == k;
      DepositedIsDeposit(result[i], value, mask, data, i, b);
    }
  }

  // ---- Counting the data bits one step needs ----

  lemma {:induction false} RankInLastByte(front: seq<Byte>, b: Byte, k: nat)
    requires k <= 8
    ensures Rank(front + [b], k) == Rank([b], k)
  {
    if k > 0 {
      RankInLastByte(front, b, k - 1);
      assert BitAt(front + [b], k - 1) == BitAt([b], k - 1);
    }
  }

  lemma {:induction false} RankAboveLastByte(front: seq<Byte>, b: Byte, k: nat)
    requires k <= 8 * |front|
    ensures Rank(front + [b], 8 + k) == Rank([b], 8) + Rank(front, k)
  {
    if k == 0 {
      RankInLastByte(front, b, 8);
    } else {
      RankAboveLastByte(front, b, k - 1);
      assert (8 + k - 1) / 8 == (k - 1) / 8 + 1 && (8 + k - 1) % 8 == (k - 1) % 8;
      assert BitAt(front + [b], 8 + k - 1) == BitAt(front, k - 1);
    }
  }

  lemma PopCountBound(mask: seq<Byte>)
    ensures PopCount(mask) <= 8 * |mask|
  {
  }

  method CountMaskBits(dataMask: LenVal) returns (count: nat)
    requires dataMask.Valid()
    ensures count == PopCount(dataMask.Text())
  {
    count := 0;
    for i := 0 to dataMask.len
      invariant count == PopCount(dataMask.val[..i])
    {
      ghost var before, byte := count, dataMask.val[i];
      var mask: nat := dataMask.val[i];
      ghost var bit := 0;
      while mask != 0
        invariant 0 <= bit <= 8 && mask == Shr(byte, bit) && count == before + Rank([byte], bit)
        decreases mask
      {
        ByteHasEightBits(byte, 8);
        BitPosition([byte], 0, bit);
        count := count + mask % 2;
        mask := mask / 2;
        bit := bit + 1;
      }
      RankOverZeros([byte], 0, bit, 8);
      RankAboveLastByte(dataMask.val[..i], byte, 8 * i);
      assert dataMask.val[..i + 1] == dataMask.val[..i] + [byte];
    }
  }

  // ---- The step on numbers, against an independent definition ----

  /** Parallel bit deposit of d into x under the mask m. */
  ghost function Pdep(x: nat, m: nat, d: nat): nat {
    if m == 0 then x
    else if m % 2 == 1 then Pdep(x / 2, m / 2, d / 2) * 2 + d % 2
    else Pdep(x / 2, m / 2, d) * 2 + x % 2
  }

  ghost function NumberRank(m: nat, k: nat): nat {
    if k == 0 then 0 else NumberRank(m, k - 1) + (if Bit(m, k - 1) then 1 else 0)
  }

  lemma {:induction false} NumberRankFront(m: nat, k: nat)
    requires k > 0
    ensures NumberRank(m, k) == m % 2 + NumberRank(m / 2, k - 1)
  {
    if k > 1 {
      NumberRankFront(m, k - 1);
      ShrFront(m, k - 1);
    }
  }

  lemma {:induction false} PdepBit(x: nat, m: nat, d: nat, k: nat)
    ensures Bit(Pdep(x, m, d), k) == if Bit(m, k) then Bit(d, NumberRank(m, k)) else Bit(x, k)
    decreases k
  {
    if m == 0 {
      ShrZero(k);
    } else if k > 0 {
      ShrFront(Pdep(x, m, d), k); ShrFront(m, k); ShrFront(x, k);
      NumberRankFront(m, k);
      if m % 2 == 1 {
        PdepBit(x / 2, m / 2, d / 2, k - 1);
        ShrFront(d, NumberRank(m, k));
      } else {
        PdepBit(x / 2, m / 2, d, k - 1);
      }
    }
  }

  lemma {:induction false} RankIsNumberRank(mask: seq<Byte>, k: nat)
    requires k <= 8 * |mask|
    ensures Rank(mask, k) == NumberRank(Number(mask), k)
  {
    if k > 0 {
      RankIsNumberRank(mask, k - 1);
      BitAtIsNumberBit(mask, k - 1);
    }
  }

  /** The deposit is determined bit by bit. */
  lemma PdepIsUnique(r: nat, x: nat, m: nat, d: nat)
    requires forall k: nat :: Bit(r, k) == if Bit(m, k) then Bit(d, NumberRank(m, k)) else Bit(x, k)
    ensures r == Pdep(x, m, d)
  {
    var p := Pdep(x, m, d);
    forall k: nat ensures Bit(r, k) == Bit(p, k) {
      PdepBit(x, m, d, k);
    }
    BitsDetermine(r, p);
  }

  lemma MeaningOfBit(result: seq<Byte>, sum: seq<Byte>, mask: seq<Byte>, data: seq<Byte>, k: nat)
    requires |result| == |sum| == |mask| && PopCount(mask) <= 8 * |data|
    requires k < 8 * |mask| && BitAt(result, k) == Deposit(sum, mask, data, k)
    ensures Bit(Number(result), k)
            == if Bit(Number(mask), k) then Bit(Number(data), NumberRank(Number(mask), k)) else Bit(Number(sum), k)
  {
    var r := Rank(mask, k);
    assert r == NumberRank(Number(mask), k) by { RankIsNumberRank(mask, k); }
    assert BitAt(mask, k) ==> DataBit(data, r) == Bit(Number(data), r) by {
      if BitAt(mask, k) {
        RankMonotone(mask, k + 1, 8 * |mask|);
        BitAtIsNumberBit(data, r);
      }
    }
    BitAtIsNumberBit(result, k);
    BitAtIsNumberBit(mask, k);
    BitAtIsNumberBit(sum, k);
  }

  lemma DepositMeaning(result: seq<Byte>, sum: seq<Byte>, mask: seq<Byte>, data: seq<Byte>)
    requires |result| == |sum| == |mask| && PopCount(mask) <= 8 * |data|
    requires forall k: nat :: k < 8 * |mask| ==> BitAt(result, k) == Deposit(sum, mask, data, k)
    ensures Number(result) == Pdep(Number(sum), Number(mask), Number(data))
  {
    forall k: nat
      ensures Bit(Number(result), k)
              == if Bit(Number(mask), k) then Bit(Number(data), NumberRank(Number(mask), k)) else Bit(Number(sum), k)
    {
      if k < 8 * |mask| {
        MeaningOfBit(result, sum, mask, data, k);
      } else {
        HighBitsZero(result, k); HighBitsZero(mask, k); HighBitsZero(sum, k);
      }
    }
    PdepIsUnique(Number(result), Number(sum), Number(mask), Number(data));
  }

  /** What DoSdrMasking leaves, read as numbers: the sum modulo 256^len with the next data deposited
      into it. */
  lemma MaskingMeaning(result: seq<Byte>, tdi: seq<Byte>, address: seq<Byte>, mask: seq<Byte>, data: seq<Byte>)
    requires |result| == |tdi| == |address| == |mask| && PopCount(mask) <= 8 * |data|
    requires forall k: nat :: k < 8 * |mask| ==>
               BitAt(result, k) == Deposit(Columns(tdi, address, 0).0, mask, data, k)
    ensures Number(result) == Pdep((Number(tdi) + Number(address)) % Pow256(|mask|), Number(mask), Number(data))
  {
    ColumnsModulo(tdi, address);
    DepositMeaning(result, Columns(tdi, address, 0).0, mask, data);
  }

  /** Every data bit below PopCount lands on a position of the mask ... */
  lemma {:induction false} EachDataBitUsed(mask: seq<Byte>, n: nat, r: nat) returns (k: nat)
    requires n <= 8 * |mask| && r < Rank(mask, n)
    ensures k < n && BitAt(mask, k) && Rank(mask, k) == r
  {
    if r < Rank(mask, n - 1) {
      k := EachDataBitUsed(mask, n - 1, r);
    } else {
      k := n - 1;
    }
  }

  /** ... and on no other: exactly PopCount bits are consumed. */
  lemma DataBitsUsedOnce(mask: seq<Byte>, j: nat, k: nat)
    requires j < k < 8 * |mask| && BitAt(mask, j) && BitAt(mask, k)
    ensures Rank(mask, j) < Rank(mask, k) < PopCount(mask)
  {
    RankMonotone(mask, j + 1, k);
    RankMonotone(mask, k + 1, 8 * |mask|);
  }
}
