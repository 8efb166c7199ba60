/** The link-layer CRC (host/libhackrf/btle/common.h): the table-driven form against the bit-serial LFSR
    of section 3.1.1 of Bluetooth Core 4.2, Vol 6 Part B, and the errors it detects. */
module BleCrc {

  const Poly: bv32 := 0xDA6000

  /** The table, as a function of the two halves of its index. */
  function TableEntry(h: bv8, l: bv8): bv32 {
    match h
    case 0x0 => (match l
        case 0x0 => 0x000000 case 0x1 => 0x01b4c0 case 0x2 => 0x036980 case 0x3 => 0x02dd40
        case 0x4 => 0x06d300 case 0x5 => 0x0767c0 case 0x6 => 0x05ba80 case 0x7 => 0x040e40
        case 0x8 => 0x0da600 case 0x9 => 0x0c12c0 case 0xa => 0x0ecf80 case 0xb => 0x0f7b40
        case 0xc => 0x0b7500 case 0xd => 0x0ac1c0 case 0xe => 0x081c80 case _ => 0x09a840)
    case 0x1 => (match l
        case 0x0 => 0x1b4c00 case 0x1 => 0x1af8c0 case 0x2 => 0x182580 case 0x3 => 0x199140
        case 0x4 => 0x1d9f00 case 0x5 => 0x1c2bc0 case 0x6 => 0x1ef680 case 0x7 => 0x1f4240
        case 0x8 => 0x16ea00 case 0x9 => 0x175ec0 case 0xa => 0x158380 case 0xb => 0x143740
        case 0xc => 0x103900 case 0xd => 0x118dc0 case 0xe => 0x135080 case _ => 0x12e440)
    case 0x2 => (match l
        case 0x0 => 0x369800 case 0x1 => 0x372cc0 case 0x2 => 0x35f180 case 0x3 => 0x344540
        case 0x4 => 0x304b00 case 0x5 => 0x31ffc0 case 0x6 => 0x332280 case 0x7 => 0x329640
        case 0x8 => 0x3b3e00 case 0x9 => 0x3a8ac0 case 0xa => 0x385780 case 0xb => 0x39e340
        case 0xc => 0x3ded00 case 0xd => 0x3c59c0 case 0xe => 0x3e8480 case _ => 0x3f3040)
    case 0x3 => (match l
        case 0x0 => 0x2dd400 case 0x1 => 0x2c60c0 case 0x2 => 0x2ebd80 case 0x3 => 0x2f0940
        case 0x4 => 0x2b0700 case 0x5 => 0x2ab3c0 case 0x6 => 0x286e80 case 0x7 => 0x29da40
        case 0x8 => 0x207200 case 0x9 => 0x21c6c0 case 0xa => 0x231b80 case 0xb => 0x22af40
        case 0xc => 0x26a100 case 0xd => 0x2715c0 case 0xe => 0x25c880 case _ => 0x247c40)
    case 0x4 => (match l
        case 0x0 => 0x6d3000 case 0x1 => 0x6c84c0 case 0x2 => 0x6e5980 case 0x3 => 0x6fed40
        case 0x4 => 0x6be300 case 0x5 => 0x6a57c0 case 0x6 => 0x688a80 case 0x7 => 0x693e40
        case 0x8 => 0x609600 case 0x9 => 0x6122c0 case 0xa => 0x63ff80 case 0xb => 0x624b40
        case 0xc => 0x664500 case 0xd => 0x67f1c0 case 0xe => 0x652c80 case _ => 0x649840)
    case 0x5 => (match l
        case 0x0 => 0x767c00 case 0x1 => 0x77c8c0 case 0x2 => 0x751580 case 0x3 => 0x74a140
        case 0x4 => 0x70af00 case 0x5 => 0x711bc0 case 0x6 => 0x73c680 case 0x7 => 0x727240
        case 0x8 => 0x7bda00 case 0x9 => 0x7a6ec0 case 0xa => 0x78b380 case 0xb => 0x790740
        case 0xc => 0x7d0900 case 0xd => 0x7cbdc0 case 0xe => 0x7e6080 case _ => 0x7fd440)
    case 0x6 => (match l
        case 0x0 => 0x5ba800 case 0x1 => 0x5a1cc0 case 0x2 => 0x58c180 case 0x3 => 0x597540
        case 0x4 => 0x5d7b00 case 0x5 => 0x5ccfc0 case 0x6 => 0x5e1280 case 0x7 => 0x5fa640
        case 0x8 => 0x560e00 case 0x9 => 0x57bac0 case 0xa => 0x556780 case 0xb => 0x54d340
        case 0xc => 0x50dd00 case 0xd => 0x5169c0 case 0xe => 0x53b480 case _ => 0x520040)
    case 0x7 => (match l
        case 0x0 => 0x40e400 case 0x1 => 0x4150c0 case 0x2 => 0x438d80 case 0x3 => 0x423940
        case 0x4 => 0x463700 case 0x5 => 0x4783c0 case 0x6 => 0x455e80 case 0x7 => 0x44ea40
        case 0x8 => 0x4d4200 case 0x9 => 0x4cf6c0 case 0xa => 0x4e2b80 case 0xb => 0x4f9f40
        case 0xc => 0x4b9100 case 0xd => 0x4a25c0 case 0xe => 0x48f880 case _ => 0x494c40)
    case 0x8 => (match l
        case 0x0 => 0xda6000 case 0x1 => 0xdbd4c0 case 0x2 => 0xd90980 case 0x3 => 0xd8bd40
        case 0x4 => 0xdcb300 case 0x5 => 0xdd07c0 case 0x6 => 0xdfda80 case 0x7 => 0xde6e40
        case 0x8 => 0xd7c600 case 0x9 => 0xd672c0 case 0xa => 0xd4af80 case 0xb => 0xd51b40
        case 0xc => 0xd11500 case 0xd => 0xd0a1c0 case 0xe => 0xd27c80 case _ => 0xd3c840)
    case 0x9 => (match l
        case 0x0 => 0xc12c00 case 0x1 => 0xc098c0 case 0x2 => 0xc24580 case 0x3 => 0xc3f140
        case 0x4 => 0xc7ff00 case 0x5 => 0xc64bc0 case 0x6 => 0xc49680 case 0x7 => 0xc52240
        case 0x8 => 0xcc8a00 case 0x9 => 0xcd3ec0 case 0xa => 0xcfe380 case 0xb => 0xce5740
        case 0xc => 0xca5900 case 0xd => 0xcbedc0 case 0xe => 0xc93080 case _ => 0xc88440)
    case 0xa => (match l
        case 0x0 => 0xecf800 case 0x1 => 0xed4cc0 case 0x2 => 0xef9180 case 0x3 => 0xee2540
        case 0x4 => 0xea2b00 case 0x5 => 0xeb9fc0 case 0x6 => 0xe94280 case 0x7 => 0xe8f640
        case 0x8 => 0xe15e00 case 0x9 => 0xe0eac0 case 0xa => 0xe23780 case 0xb => 0xe38340
        case 0xc => 0xe78d00 case 0xd => 0xe639c0 case 0xe => 0xe4e480 case _ => 0xe55040)
    case 0xb => (match l
        case 0x0 => 0xf7b400 case 0x1 => 0xf600c0 case 0x2 => 0xf4dd80 case 0x3 => 0xf56940
        case 0x4 => 0xf16700 case 0x5 => 0xf0d3c0 case 0x6 => 0xf20e80 case 0x7 => 0xf3ba40
        case 0x8 => 0xfa1200 case 0x9 => 0xfba6c0 case 0xa => 0xf97b80 case 0xb => 0xf8cf40
        case 0xc => 0xfcc100 case 0xd => 0xfd75c0 case 0xe => 0xffa880 case _ => 0xfe1c40)
    case 0xc => (match l
        case 0x0 => 0xb75000 case 0x1 => 0xb6e4c0 case 0x2 => 0xb43980 case 0x3 => 0xb58d40
        case 0x4 => 0xb18300 case 0x5 => 0xb037c0 case 0x6 => 0xb2ea80 case 0x7 => 0xb35e40
        case 0x8 => 0xbaf600 case 0x9 => 0xbb42c0 case 0xa => 0xb99f80 case 0xb => 0xb82b40
        case 0xc => 0xbc2500 case 0xd => 0xbd91c0 case 0xe => 0xbf4c80 case _ => 0xbef840)
    case 0xd => (match l
        case 0x0 => 0xac1c00 case 0x1 => 0xada8c0 case 0x2 => 0xaf7580 case 0x3 => 0xaec140
        case 0x4 => 0xaacf00 case 0x5 => 0xab7bc0 case 0x6 => 0xa9a680 case 0x7 => 0xa81240
        case 0x8 => 0xa1ba00 case 0x9 => 0xa00ec0 case 0xa => 0xa2d380 case 0xb => 0xa36740
        case 0xc => 0xa76900 case 0xd => 0xa6ddc0 case 0xe => 0xa40080 case _ => 0xa5b440)
    case 0xe => (match l
        case 0x0 => 0x81c800 case 0x1 => 0x807cc0 case 0x2 => 0x82a180 case 0x3 => 0x831540
        case 0x4 => 0x871b00 case 0x5 => 0x86afc0 case 0x6 => 0x847280 case 0x7 => 0x85c640
        case 0x8 => 0x8c6e00 case 0x9 => 0x8ddac0 case 0xa => 0x8f0780 case 0xb => 0x8eb340
        case 0xc => 0x8abd00 case 0xd => 0x8b09c0 case 0xe => 0x89d480 case _ => 0x886040)
    case _ => (match l
        case 0x0 => 0x9a8400 case 0x1 => 0x9b30c0 case 0x2 => 0x99ed80 case 0x3 => 0x985940
        case 0x4 => 0x9c5700 case 0x5 => 0x9de3c0 case 0x6 => 0x9f3e80 case 0x7 => 0x9e8a40
        case 0x8 => 0x972200 case 0x9 => 0x9696c0 case 0xa => 0x944b80 case 0xb => 0x95ff40
        case 0xc => 0x91f100 case 0xd => 0x9045c0 case 0xe => 0x929880 case _ => 0x932c40)
  }

  function CrcTable(i: bv8): bv32 {
    TableEntry(i >> 4, i & 0xf)
  }

  /** One step of the shift register: what leaves at the low end is fed back. */
  function Shift(c: bv32): bv32 {
    (c >> 1) ^ (Poly & (0 - (c & 1)))
  }

  function Shift8(c: bv32): bv32 {
    Shift(Shift(Shift(Shift(Shift(Shift(Shift(Shift(c))))))))
  }

  /** Entry i of the table is i after eight steps. */
  lemma TableIsShift8(h: bv8, l: bv8)
    requires h < 16 && l < 16
    ensures TableEntry(h, l) == Shift8((h as bv32 << 4) | (l as bv32))
  {
  }

  function Xor(x: bv32, y: bv32): bv32 {
    x ^ y
  }

  lemma ShiftOfXor(x: bv32, y: bv32)
    ensures Shift(x ^ y) == Shift(x) ^ Shift(y)
  {
  }

  lemma ShiftLinear(x: bv32, y: bv32)
    ensures Shift(Xor(x, y)) == Xor(Shift(x), Shift(y))
  {
    hide Shift;
    ShiftOfXor(x, y);
  }

  lemma Shift8Linear(x: bv32, y: bv32)
    ensures Shift8(Xor(x, y)) == Xor(Shift8(x), Shift8(y))
  {
    hide Shift, Xor;
    var x1, y1 := Shift(x), Shift(y);
    var x2, y2 := Shift(x1), Shift(y1);
    var x3, y3 := Shift(x2), Shift(y2);
    var x4, y4 := Shift(x3), Shift(y3);
    var x5, y5 := Shift(x4), Shift(y4);
    var x6, y6 := Shift(x5), Shift(y5);
    var x7, y7 := Shift(x6), Shift(y6);
    ShiftLinear(x, y); ShiftLinear(x1, y1); ShiftLinear(x2, y2); ShiftLinear(x3, y3);
    ShiftLinear(x4, y4); ShiftLinear(x5, y5); ShiftLinear(x6, y6); ShiftLinear(x7, y7);
  }

  lemma TableByte(i: bv8)
    ensures CrcTable(i) == Shift8(i as bv32)
  {
    TableIsShift8(i >> 4, i & 0xf);
    hide Shift8, TableEntry;
  }

  function Index(c: bv32): bv8 {
    (c & 0xff) as bv8
  }

  function Upper(c: bv32): bv32 {
    c & 0xffff_ff00
  }

  function Tail(c: bv32): bv32 {
    c >> 8
  }

  lemma Halves(c: bv32)
    ensures c == Xor(Index(c) as bv32, Upper(c))
  {
  }

  /** A zero low byte is shifted out without feedback. */
  lemma HighBytes(all: bv32)
    ensures Shift8(Upper(all)) == Tail(all)
  {
  }

  /** Eight steps, whatever the rest: the low byte through the table, the others shifted. */
  lemma LowByte(c: bv32)
    ensures Shift8(c) == Xor(CrcTable(Index(c)), Tail(c))
  {
    Halves(c);
    hide *;
    Shift8Linear(Index(c) as bv32, Upper(c));
    HighBytes(c);
    TableByte(Index(c));
  }

  /** One bit of input. */
  function Step(c: bv32, bit: bool): bv32 {
    Shift(Xor(c, if bit then 1 else 0))
  }

  /** The shift register on a bit string. */
  function Lfsr(c: bv32, bits: seq<bool>): bv32
    decreases bits
  {
    if bits == [] then c else Lfsr(Step(c, bits[0]), bits[1..])
  }

  /** The bits of a byte in the order of transmission. */
  function ByteBits(d: bv8): (bits: seq<bool>)
    ensures |bits| == 8
  {
    Eight(d & 1 != 0, d & 2 != 0, d & 4 != 0, d & 8 != 0, d & 16 != 0, d & 32 != 0, d & 64 != 0, d & 128 != 0)
  }

  function Bits(data: seq<bv8>): (bits: seq<bool>)
    ensures |bits| == 8 * |data|
  {
    if data == [] then [] else ByteBits(data[0]) + Bits(data[1..])
  }

  lemma {:induction false} LfsrConcat(c: bv32, x: seq<bool>, y: seq<bool>)
    ensures Lfsr(c, x + y) == Lfsr(Lfsr(c, x), y)
    decreases x
  {
    hide Step;
    if x == [] {
      assert x + y == y;
    } else {
      assert (x + y)[1..] == x[1..] + y;
      LfsrConcat(Step(c, x[0]), x[1..], y);
    }
  }

  /** Up to 24 bits as a number, the first the lowest. */
  function Pack(bits: seq<bool>): bv32
    decreases bits
  {
    if bits == [] then 0 else Xor(Double(Pack(bits[1..])), if bits[0] then 1 else 0)
  }

  function Double(p: bv32): bv32 {
    p << 1
  }

  /** n steps without input. */
  function Run(c: bv32, n: nat): bv32
    decreases n
  {
    if n == 0 then c else Run(Shift(c), n - 1)
  }

  /** n ones. */
  function Ones(n: nat): bv32 {
    if n == 0 then 0 else Xor(Double(Ones(n - 1)), 1)
  }

  /** p has no bit outside m. */
  predicate Within(p: bv32, m: bv32) {
    p | m == m
  }

  lemma OnesGrow(p: bv32, m: bv32)
    requires Within(p, m)
    ensures Within(Xor(Double(p), 0), Xor(Double(m), 1)) && Within(Xor(Double(p), 1), Xor(Double(m), 1))
  {
  }

  lemma {:induction false} PackFits(bits: seq<bool>)
    ensures Within(Pack(bits), Ones(|bits|))
    decreases bits
  {
    hide Within, Xor, Double;
    if bits != [] {
      PackFits(bits[1..]);
      OnesGrow(Pack(bits[1..]), Ones(|bits| - 1));
    } else {
      Nothing();
    }
  }

  lemma Nothing()
    ensures Within(0, 0)
  {
  }

  /** A number of n bits, n at most 24, has 24. */
  lemma {:induction false} Ones24(p: bv32, n: nat)
    requires n <= 24 && Within(p, Ones(n))
    ensures Within(p, 0xff_ffff)
    decreases 24 - n
  {
    if n == 24 {
      OnesAre();
    } else {
      hide Within, Xor, Double;
      OnesWiden(n);
      Transitive(p, Ones(n), Ones(n + 1));
      Ones24(p, n + 1);
    }
  }

  lemma {:induction false} OnesWiden(n: nat)
    ensures Within(Ones(n), Ones(n + 1))
  {
    if n > 0 {
      OnesWiden(n - 1);
      OnesGrow(Ones(n - 1), Ones(n));
    }
  }

  lemma Transitive(p: bv32, m: bv32, k: bv32)
    requires Within(p, m) && Within(m, k)
    ensures Within(p, k)
  {
  }

  lemma OnesAre()
    ensures Ones(8) == 0xff && Ones(16) == 0xffff && Ones(24) == 0xff_ffff
  {
  }

  lemma DoubleFalls(p: bv32)
    requires Within(p, 0xff_ffff)
    ensures Shift(Double(p)) == p
  {
  }

  lemma Regroup(c: bv32, d: bv32, b: bv32)
    ensures Xor(c, Xor(d, b)) == Xor(Xor(c, b), d) && Xor(c, 0) == c
  {
  }

  /** Up to 25 bits of input can as well be put into the register at once. */
  lemma {:induction false} LfsrIsRun(c: bv32, bits: seq<bool>)
    requires |bits| <= 25
    ensures Lfsr(c, bits) == Run(Xor(c, Pack(bits)), |bits|)
    decreases bits
  {
    hide Within, Xor, Double, Shift;
    if bits == [] {
      Regroup(c, c, c);
    } else {
      var b: bv32 := if bits[0] then 1 else 0;
      var p := Pack(bits[1..]);
      LfsrIsRun(Step(c, bits[0]), bits[1..]);
      PackFits(bits[1..]);
      Ones24(p, |bits| - 1);
      DoubleFalls(p);
      ShiftLinear(Xor(c, b), Double(p));
      Regroup(c, Double(p), b);
    }
  }

  /** On 24 bits the step can be undone: the bit fed back is the highest. */
  lemma ShiftInjective(x: bv32, y: bv32)
    requires Within(x, 0xff_ffff) && Within(y, 0xff_ffff)
    ensures Within(Shift(x), 0xff_ffff)
    ensures Shift(x) == Shift(y) ==> x == y
  {
  }

  lemma XorInjective(x: bv32, y: bv32, b: bv32)
    ensures Xor(x, b) == Xor(y, b) ==> x == y
    ensures Xor(b, x) == Xor(b, y) ==> x == y
    ensures Within(x, 0xff_ffff) && Within(b, 0xff_ffff) ==> Within(Xor(x, b), 0xff_ffff)
    ensures Within(0, 0xff_ffff) && Within(1, 0xff_ffff)
  {
  }

  lemma {:induction false} LfsrInjective(x: bv32, y: bv32, bits: seq<bool>)
    requires Within(x, 0xff_ffff) && Within(y, 0xff_ffff)
    ensures Within(Lfsr(x, bits), 0xff_ffff)
    ensures Lfsr(x, bits) == Lfsr(y, bits) ==> x == y
    decreases bits
  {
    hide Within, Xor, Shift;
    if bits != [] {
      var b: bv32 := if bits[0] then 1 else 0;
      XorInjective(x, y, b);
      XorInjective(y, x, b);
      ShiftInjective(Xor(x, b), Xor(y, b));
      ShiftInjective(Xor(y, b), Xor(x, b));
      LfsrInjective(Step(x, bits[0]), Step(y, bits[0]), bits[1..]);
    }
  }

  lemma {:induction false} RunInjective(x: bv32, y: bv32, n: nat)
    requires Within(x, 0xff_ffff) && Within(y, 0xff_ffff)
    ensures Run(x, n) == Run(y, n) ==> x == y
    decreases n
  {
    hide Within, Shift;
    if n > 0 {
      ShiftInjective(x, y);
      ShiftInjective(y, x);
      RunInjective(Shift(x), Shift(y), n - 1);
    }
  }

  lemma LowBit(p: bv32, q: bv32, b: bv32, d: bv32)
    requires Within(p, 0xff_ffff) && Within(q, 0xff_ffff) && b in {0, 1} && d in {0, 1}
    requires Xor(Double(p), b) == Xor(Double(q), d)
    ensures p == q && b == d
  {
  }

  lemma {:induction false} PackInjective(x: seq<bool>, y: seq<bool>)
    requires |x| == |y| <= 24 && Pack(x) == Pack(y)
    ensures x == y
    decreases x
  {
    hide Within, Xor, Double;
    if x != [] {
      PackFits(x[1..]); Ones24(Pack(x[1..]), |x| - 1);
      PackFits(y[1..]); Ones24(Pack(y[1..]), |y| - 1);
      LowBit(Pack(x[1..]), Pack(y[1..]), if x[0] then 1 else 0, if y[0] then 1 else 0);
      PackInjective(x[1..], y[1..]);
    }
  }

  /** Different inputs of at most 24 bits leave different registers. */
  lemma BurstSeen(c: bv32, u: seq<bool>, v: seq<bool>)
    requires Within(c, 0xff_ffff) && |u| == |v| <= 24 && u != v
    ensures Lfsr(c, u) != Lfsr(c, v)
  {
    LfsrIsRun(c, u);
    LfsrIsRun(c, v);
    PackFits(u); Ones24(Pack(u), |u|);
    PackFits(v); Ones24(Pack(v), |v|);
    if Pack(u) == Pack(v) { PackInjective(u, v); }
    hide Within, Xor, Pack, Lfsr, Run;
    XorInjective(Pack(u), Pack(v), c);
    XorInjective(c, c, Pack(u));
    XorInjective(c, c, Pack(v));
    RunInjective(Xor(c, Pack(u)), Xor(c, Pack(v)), |u|);
  }

  /** An error burst of at most 24 bits anywhere changes the register. */
  lemma BurstAnywhere(c: bv32, before: seq<bool>, u: seq<bool>, v: seq<bool>, after: seq<bool>)
    requires Within(c, 0xff_ffff) && |u| == |v| <= 24 && u != v
    ensures Lfsr(c, before + u + after) != Lfsr(c, before + v + after)
  {
    hide Within, Lfsr;
    LfsrConcat(c, before + u, after);
    LfsrConcat(c, before, u);
    LfsrConcat(c, before + v, after);
    LfsrConcat(c, before, v);
    var c' := Lfsr(c, before);
    LfsrInjective(c, c, before);
    BurstSeen(c', u, v);
    LfsrInjective(c', c', u);
    LfsrInjective(c', c', v);
    LfsrInjective(Lfsr(c', u), Lfsr(c', v), after);
  }

  function One(b: bool): bv32 {
    if b then 1 else 0
  }

  lemma Peel(b: bool, rest: seq<bool>)
    ensures Pack([b] + rest) == Xor(Double(Pack(rest)), One(b))
  {
  }

  /** Bit 7 - k of a byte. */
  function High(d: bv32, k: bv32): bv32
    requires k < 8
  {
    (d >> (7 - k)) & 1
  }

  /** The k high bits of a byte below p. */
  function Part(p: bv32, d: bv32, k: bv32): bv32
    requires k <= 8
  {
    (p << k) | (d >> (8 - k))
  }

  lemma PartStep(p: bv32, d: bv32, k: bv32)
    requires d < 0x100 && k < 8
    ensures Xor(Double(Part(p, d, k)), High(d, k)) == Part(p, d, k + 1)
  {
  }

  lemma PartEnds(p: bv32, d: bv8)
    ensures (d as bv32) < 0x100 && Part(p, d as bv32, 0) == p && Part(p, d as bv32, 8) == Byte(p, d)
  {
  }

  lemma BitValues(d: bv8)
    ensures var x := d as bv32;
            && One(d & 128 != 0) == High(x, 0) && One(d & 64 != 0) == High(x, 1)
            && One(d & 32 != 0) == High(x, 2) && One(d & 16 != 0) == High(x, 3)
            && One(d & 8 != 0) == High(x, 4) && One(d & 4 != 0) == High(x, 5)
            && One(d & 2 != 0) == High(x, 6) && One(d & 1 != 0) == High(x, 7)
  {
  }

  lemma EightBits(p: bv32, d: bv8)
    ensures var p7 := Xor(Double(p), One(d & 128 != 0)); var p6 := Xor(Double(p7), One(d & 64 != 0));
            var p5 := Xor(Double(p6), One(d & 32 != 0)); var p4 := Xor(Double(p5), One(d & 16 != 0));
            var p3 := Xor(Double(p4), One(d & 8 != 0)); var p2 := Xor(Double(p3), One(d & 4 != 0));
            var p1 := Xor(Double(p2), One(d & 2 != 0));
            Xor(Double(p1), One(d & 1 != 0)) == Byte(p, d)
  {
    BitValues(d);
    PartEnds(p, d);
    hide *;
    var x := d as bv32;
    PartStep(p, x, 0); PartStep(p, x, 1); PartStep(p, x, 2); PartStep(p, x, 3);
    PartStep(p, x, 4); PartStep(p, x, 5); PartStep(p, x, 6); PartStep(p, x, 7);
  }

  /** p above a byte. */
  function Byte(p: bv32, d: bv8): bv32 {
    (p << 8) | (d as bv32)
  }

  lemma Assoc(b: bool, s: seq<bool>, rest: seq<bool>)
    ensures ([b] + s) + rest == [b] + (s + rest)
  {
  }

  function Eight(b0: bool, b1: bool, b2: bool, b3: bool, b4: bool, b5: bool, b6: bool, b7: bool): (s: seq<bool>)
    ensures |s| == 8
  {
    [b0] + ([b1] + ([b2] + ([b3] + ([b4] + ([b5] + ([b6] + [b7]))))))
  }

  lemma InFront(b0: bool, b1: bool, b2: bool, b3: bool, b4: bool, b5: bool, b6: bool, b7: bool, rest: seq<bool>)
    ensures Pack(Eight(b0, b1, b2, b3, b4, b5, b6, b7) + rest)
            == var p7 := Xor(Double(Pack(rest)), One(b7)); var p6 := Xor(Double(p7), One(b6));
               var p5 := Xor(Double(p6), One(b5)); var p4 := Xor(Double(p5), One(b4));
               var p3 := Xor(Double(p4), One(b3)); var p2 := Xor(Double(p3), One(b2));
               var p1 := Xor(Double(p2), One(b1)); Xor(Double(p1), One(b0))
  {
    hide Pack, Xor, Double, One;
    var s6 := [b6] + [b7]; var s5 := [b5] + s6; var s4 := [b4] + s5; var s3 := [b3] + s4;
    var s2 := [b2] + s3; var s1 := [b1] + s2;
    Assoc(b0, s1, rest); Assoc(b1, s2, rest); Assoc(b2, s3, rest); Assoc(b3, s4, rest);
    Assoc(b4, s5, rest); Assoc(b5, s6, rest); Assoc(b6, [b7], rest);
    Peel(b7, rest); Peel(b6, [b7] + rest); Peel(b5, s6 + rest); Peel(b4, s5 + rest);
    Peel(b3, s4 + rest); Peel(b2, s3 + rest); Peel(b1, s2 + rest); Peel(b0, s1 + rest);
  }

  /** A byte in front of other bits. */
  lemma PackByte(d: bv8, rest: seq<bool>)
    ensures Pack(ByteBits(d) + rest) == Byte(Pack(rest), d)
  {
    EightBits(Pack(rest), d);
    InFront(d & 1 != 0, d & 2 != 0, d & 4 != 0, d & 8 != 0, d & 16 != 0, d & 32 != 0, d & 64 != 0, d & 128 != 0, rest);
    hide Pack, Xor, Double, One, Byte, Eight;
  }

  lemma BytePack(d: bv8)
    ensures Pack(ByteBits(d)) == d as bv32
  {
    PackByte(d, []);
    hide ByteBits;
    assert ByteBits(d) + [] == ByteBits(d);
  }

  lemma RunEight(c: bv32)
    ensures Run(c, 8) == Shift8(c)
  {
  }

  /** A byte of input is one table look-up. */
  lemma ByteStep(c: bv32, d: bv8)
    ensures Lfsr(c, ByteBits(d)) == Xor(CrcTable(Index(Xor(c, d as bv32))), Tail(c))
  {
    LfsrIsRun(c, ByteBits(d));
    BytePack(d);
    TailKept(c, d);
    hide *;
    RunEight(Xor(c, d as bv32));
    LowByte(Xor(c, d as bv32));
  }

  lemma TailKept(c: bv32, d: bv8)
    ensures Tail(Xor(c, d as bv32)) == Tail(c)
  {
  }

  lemma {:induction false} BitsConcat(x: seq<bv8>, y: seq<bv8>)
    ensures Bits(x + y) == Bits(x) + Bits(y)
  {
    if x == [] {
      assert x + y == y;
    } else {
      assert (x + y)[1..] == x[1..] + y;
      BitsConcat(x[1..], y);
      hide ByteBits;
      assert Bits(x + y) == ByteBits(x[0]) + (Bits(x[1..]) + Bits(y));
    }
  }

  /** The checksum by the shift register alone. */
  function Crc(init: bv32, data: seq<bv8>): bv32 {
    Low24(Lfsr(init, Bits(data)))
  }

  function Low24(c: bv32): bv32 {
    c & 0xff_ffff
  }

  lemma EntryFits(i: bv8)
    ensures Within(CrcTable(i), 0xff_ffff)
  {
    TableByte(i);
    ByteFits(i);
    hide Within, Shift, CrcTable;
    var c := i as bv32;
    var c1 := Shift(c); var c2 := Shift(c1); var c3 := Shift(c2); var c4 := Shift(c3);
    var c5 := Shift(c4); var c6 := Shift(c5); var c7 := Shift(c6);
    ShiftInjective(c, c); ShiftInjective(c1, c1); ShiftInjective(c2, c2); ShiftInjective(c3, c3);
    ShiftInjective(c4, c4); ShiftInjective(c5, c5); ShiftInjective(c6, c6); ShiftInjective(c7, c7);
  }

  lemma ByteFits(i: bv8)
    ensures Within(i as bv32, 0xff_ffff)
  {
  }

  lemma MaskKeeps(t: bv32, c: bv32)
    requires Within(t, 0xff_ffff)
    ensures Low24(Xor(t, Tail(c))) == Xor(t, Tail(c))
  {
    TailFits(c);
    hide Within, Xor, Tail, Low24;
    XorInjective(t, t, Tail(c));
    Masked(Xor(t, Tail(c)));
  }

  lemma TailFits(c: bv32)
    ensures Within(Tail(c), 0xff_ffff)
  {
  }

  lemma Masked(c: bv32)
    requires Within(c, 0xff_ffff)
    ensures Low24(c) == c
  {
  }

  /** The table-driven update is the shift register, for every data and every initial value. */
  method CrcUpdate(init: bv32, data: seq<bv8>) returns (crc: bv32)
    ensures crc == Crc(init, data)
  {
    hide CrcTable, Xor, Tail, Index, Bits, ByteBits, Within, Lfsr, Low24;
    crc := init;
    StartOf(init);
    for i := 0 to |data|
      invariant crc == Lfsr(init, Bits(data[..i]))
    {
      var tblIdx := Index(Xor(crc, data[i] as bv32));
      ByteStep(crc, data[i]);
      EntryFits(tblIdx);
      MaskKeeps(CrcTable(tblIdx), crc);
      OneMore(init, data[..i], data[i]);
      assert data[..i] + [data[i]] == data[..i + 1];
      crc := Low24(Xor(CrcTable(tblIdx), Tail(crc)));
    }
    assert data[..|data|] == data;
    crc := Low24(crc);
  }

  lemma StartOf(init: bv32)
    ensures Lfsr(init, Bits([])) == init
  {
  }

  lemma OneMore(init: bv32, data: seq<bv8>, d: bv8)
    ensures Lfsr(init, Bits(data + [d])) == Lfsr(Lfsr(init, Bits(data)), ByteBits(d))
  {
    BitsConcat(data, [d]);
    assert Bits([]) == [];
    assert Bits([d]) == ByteBits(d);
    LfsrConcat(init, Bits(data), ByteBits(d));
  }

  /** The checksum goes on where it stopped. */
  lemma CrcConcat(init: bv32, x: seq<bv8>, y: seq<bv8>)
    requires Within(init, 0xff_ffff)
    ensures Crc(init, x + y) == Crc(Crc(init, x), y)
  {
    hide Bits, Lfsr, Within, Low24;
    BitsConcat(x, y);
    LfsrConcat(init, Bits(x), Bits(y));
    LfsrInjective(init, init, Bits(x));
    Masked(Lfsr(init, Bits(x)));
  }

  /** The checksum received: three bytes, the lowest first. */
  function Received(word: seq<bv8>): bv32
    requires |word| >= 3
  {
    var n := |word| - 3;
    Byte(Byte(Byte(0, word[n + 2]), word[n + 1]), word[n])
  }

  /** The result is 1 iff the checksum is correct, whatever the comment above the original says. */
  method CrcCheck(tmpByte: seq<bv8>, bodyLen: nat, crcInit: bv32) returns (r: int)
    requires bodyLen + 3 <= |tmpByte|
    ensures r == if Crc(crcInit, tmpByte[..bodyLen]) == Received(tmpByte[..bodyLen + 3]) then 1 else 0
  {
    var checksum := CrcUpdate(crcInit, tmpByte[..bodyLen]);
    var received: bv32 := 0;
    hide Crc, Byte;
    received := Byte(received, tmpByte[bodyLen + 2]);
    received := Byte(received, tmpByte[bodyLen + 1]);
    received := Byte(received, tmpByte[bodyLen]);
    return if checksum == received then 1 else 0;
  }

  ghost predicate Passes(init: bv32, word: seq<bv8>) {
    |word| >= 3 && Crc(init, word[..|word| - 3]) == Received(word)
  }

  lemma {:induction false} RunZero(n: nat)
    ensures Run(0, n) == 0
  {
    if n > 0 {
      RunZero(n - 1);
    }
  }

  lemma XorZero(c: bv32, p: bv32)
    ensures Xor(c, p) == 0 <==> c == p
  {
    SelfXor(p);
    hide Xor, Within;
    XorInjective(c, p, p);
  }

  lemma SelfXor(p: bv32)
    ensures Xor(p, p) == 0
  {
  }

  lemma ThreeBytes(b0: bv8, b1: bv8, b2: bv8)
    ensures Pack(Bits([b0, b1, b2])) == Byte(Byte(Byte(0, b2), b1), b0)
    ensures Within(Pack(Bits([b0, b1, b2])), 0xff_ffff)
  {
    hide ByteBits, Byte, Within, Xor, Double;
    var none: seq<bv8> := [];
    assert Bits(none) == [] && [b0, b1, b2][1..] == [b1, b2] && [b1, b2][1..] == [b2] && [b2][1..] == none;
    PackByte(b2, []);
    PackByte(b1, Bits([b2]));
    PackByte(b0, Bits([b1, b2]));
    PackFits(Bits([b0, b1, b2]));
    Ones24(Pack(Bits([b0, b1, b2])), 24);
  }

  /** Running on over the received checksum leaves zero iff it is the register. */
  lemma Residue(c: bv32, b0: bv8, b1: bv8, b2: bv8)
    requires Within(c, 0xff_ffff)
    ensures Lfsr(c, Bits([b0, b1, b2])) == 0 <==> c == Byte(Byte(Byte(0, b2), b1), b0)
  {
    hide Bits, Byte, Within, Xor, Pack, Run, Lfsr;
    var bits := Bits([b0, b1, b2]);
    ThreeBytes(b0, b1, b2);
    LfsrIsRun(c, bits);
    XorInjective(c, c, Pack(bits));
    RunZero(24);
    RunInjective(Xor(c, Pack(bits)), 0, 24);
    XorZero(c, Pack(bits));
  }

  /** A word passes iff the checksum over all of it is zero. */
  lemma PassesIffResidueZero(init: bv32, word: seq<bv8>)
    requires Within(init, 0xff_ffff) && |word| >= 3
    ensures Passes(init, word) <==> Crc(init, word) == 0
  {
    hide Bits, Byte, Within, Lfsr, Low24;
    var n := |word| - 3;
    var c := Lfsr(init, Bits(word[..n]));
    LfsrInjective(init, init, Bits(word[..n]));
    LfsrInjective(init, init, Bits(word));
    Masked(c);
    Masked(Lfsr(init, Bits(word)));
    assert word == word[..n] + [word[n], word[n + 1], word[n + 2]];
    BitsConcat(word[..n], [word[n], word[n + 1], word[n + 2]]);
    LfsrConcat(init, Bits(word[..n]), Bits([word[n], word[n + 1], word[n + 2]]));
    Residue(c, word[n], word[n + 1], word[n + 2]);
  }

  lemma SameByte(d: bv8, e: bv8)
    requires d as bv32 == e as bv32
    ensures d == e
  {
  }

  lemma {:induction false} BitsInjective(x: seq<bv8>, y: seq<bv8>)
    requires |x| == |y| && Bits(x) == Bits(y)
    ensures x == y
  {
    hide ByteBits, Pack;
    if x != [] {
      assert Bits(x)[..8] == ByteBits(x[0]) && Bits(y)[..8] == ByteBits(y[0]);
      assert Bits(x)[8..] == Bits(x[1..]) && Bits(y)[8..] == Bits(y[1..]);
      BytePack(x[0]);
      BytePack(y[0]);
      SameByte(x[0], y[0]);
      BitsInjective(x[1..], y[1..]);
    }
  }

  /** Words of the same length whose bits differ, in order of transmission, within 24 from bit k on. */
  ghost predicate DifferByBurst(x: seq<bv8>, y: seq<bv8>, k: nat) {
    && |x| == |y| && x != y
    && forall j :: 0 <= j < 8 * |x| && !(k <= j < k + 24) ==> Bits(x)[j] == Bits(y)[j]
  }

  lemma BurstChangesCrc(init: bv32, x: seq<bv8>, y: seq<bv8>, k: nat)
    requires Within(init, 0xff_ffff) && DifferByBurst(x, y, k)
    ensures Crc(init, x) != Crc(init, y)
  {
    hide Within, Bits, Lfsr, Low24;
    var n := 8 * |x|;
    var from, to := if k < n then k else n, if k + 24 < n then k + 24 else n;
    var u, v := Bits(x)[from..to], Bits(y)[from..to];
    assert Bits(x)[..from] == Bits(y)[..from] && Bits(x)[to..] == Bits(y)[to..];
    assert Bits(x) == Bits(x)[..from] + u + Bits(x)[to..] && Bits(y) == Bits(x)[..from] + v + Bits(x)[to..];
    if u == v { BitsInjective(x, y); }
    BurstAnywhere(init, Bits(x)[..from], u, v, Bits(x)[to..]);
    LfsrInjective(init, init, Bits(x));
    LfsrInjective(init, init, Bits(y));
    Masked(Lfsr(init, Bits(x)));
    Masked(Lfsr(init, Bits(y)));
  }

  /** No burst of at most 24 bits, in the data, in the checksum or across both, goes unnoticed. */
  lemma BurstDetected(init: bv32, x: seq<bv8>, y: seq<bv8>, k: nat)
    requires Within(init, 0xff_ffff) && DifferByBurst(x, y, k) && Passes(init, x)
    ensures !Passes(init, y)
  {
    hide Within, Crc, Received;
    PassesIffResidueZero(init, x);
    PassesIffResidueZero(init, y);
    BurstChangesCrc(init, x, y, k);
  }
}
