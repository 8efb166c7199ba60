/** The sampling clock: binary gcd, the divider a + b / c (firmware/common/hackrf_core.c), and its
    multisynth registers (firmware/common/si5351c.c, host/hackrf-tools/src/hackrf_debug.c). */
module Gcds {

  import opened Division

  function Times(d: int, k: int): int {
    d * k
  }

  ghost predicate Divides(d: nat, n: nat) {
    exists k: nat :: Times(d, k) == n
  }

  lemma TimesSum(d: nat, j: nat, k: nat)
    ensures Times(d, j + k) == Times(d, j) + Times(d, k)
    ensures d > 0 && k > 0 ==> Times(d, k) > 0
  {
  }

  lemma Sum(d: nat, x: nat, y: nat)
    requires d > 0 && Divides(d, x)
    ensures Divides(d, x + y) <==> Divides(d, y)
  {
    hide Times;
    var a: nat :| Times(d, a) == x;
    if Divides(d, y) {
      var b: nat :| Times(d, b) == y;
      TimesSum(d, a, b);
      assert Times(d, a + b) == x + y;
    }
    if Divides(d, x + y) {
      var c: nat :| Times(d, c) == x + y;
      if c < a {
        TimesSum(d, c, a - c);
      } else {
        TimesSum(d, a, c - a);
        assert Times(d, c - a) == y;
      }
    }
  }

  /** By repeated subtraction; with zero, the other number. */
  function Gcd(u: nat, v: nat): (g: nat)
    ensures u > 0 || v > 0 ==> g > 0
    decreases u + v
  {
    if u == 0 then v
    else if v == 0 then u
    else if u > v then Gcd(u - v, v)
    else Gcd(u, v - u)
  }

  /** The gcd divides both numbers, and every common divisor divides it. */
  lemma {:induction false} GcdIsGreatest(u: nat, v: nat, d: nat)
    requires d > 0 && (u > 0 || v > 0)
    ensures Divides(Gcd(u, v), u) && Divides(Gcd(u, v), v)
    ensures Divides(d, u) && Divides(d, v) <==> Divides(d, Gcd(u, v))
    decreases u + v
  {
    var g := Gcd(u, v);
    if u == 0 || v == 0 {
      assert Times(g, 0) == 0 && Times(g, 1) == g && Times(d, 0) == 0;
    } else if u > v {
      GcdIsGreatest(u - v, v, d);
      Sum(g, v, u - v);
      if Divides(d, v) { Sum(d, v, u - v); }
    } else {
      GcdIsGreatest(u, v - u, d);
      Sum(g, u, v - u);
      if Divides(d, u) { Sum(d, u, v - u); }
    }
  }

  lemma {:induction false} GcdScales(k: nat, u: nat, v: nat)
    requires k > 0
    ensures Gcd(k * u, k * v) == k * Gcd(u, v)
    decreases u + v
  {
    if u == 0 || v == 0 {
      assert k * 0 == 0;
    } else if u > v {
      GcdScales(k, u - v, v);
      Distribute(k, u, v);
    } else {
      GcdScales(k, u, v - u);
      Distribute(k, v, u);
    }
  }

  lemma {:induction false} GcdCommutes(u: nat, v: nat)
    ensures Gcd(u, v) == Gcd(v, u)
    decreases u + v
  {
    if u == 0 || v == 0 || u == v {
    } else if u > v {
      GcdCommutes(u - v, v);
    } else {
      GcdCommutes(u, v - u);
    }
  }

  /** A factor two on one side only does not matter. */
  lemma GcdHalves(u: nat, v: nat)
    requires u % 2 == 1 && v % 2 == 0 && v > 0
    ensures Gcd(u, v) == Gcd(u, v / 2)
  {
    var g, h := Gcd(u, v), Gcd(u, v / 2);
    GcdIsGreatest(u, v, h);
    GcdIsGreatest(u, v / 2, g);
    GcdIsGreatest(u, v, g);
    GcdIsGreatest(u, v / 2, h);
    Sum(h, v / 2, v / 2);
    OddDivisor(g, u, v);
    Antisymmetric(g, h);
  }

  lemma OddDivisor(g: nat, u: nat, v: nat)
    requires Divides(g, u) && u % 2 == 1 && Divides(g, v) && v % 2 == 0
    ensures Divides(g, v / 2)
  {
    var j: nat :| Times(g, j) == u;
    var k: nat :| Times(g, k) == v;
    Parity(g, j);
    Parity(g, k);
    HalfOfProduct(g, k);
    assert Times(g, k / 2) == v / 2;
  }

  lemma Parity(x: nat, y: nat)
    ensures (x * y) % 2 == 1 <==> x % 2 == 1 && y % 2 == 1
  {
    var p, q, r, t := x / 2, y / 2, x % 2, y % 2;
    assert x * y == (2 * p + r) * y == 2 * (p * y) + r * y;
    assert r * y == 2 * (r * q) + r * t;
    assert r * t == if r == 1 && t == 1 then 1 else 0;
    assert x * y == 2 * (p * y + r * q) + r * t;
  }

  lemma HalfOfProduct(x: nat, k: nat)
    requires k % 2 == 0
    ensures x * k / 2 == x * (k / 2)
  {
  }

  lemma Antisymmetric(d: nat, e: nat)
    requires d > 0 && e > 0 && Divides(d, e) && Divides(e, d)
    ensures d == e
  {
  }

  lemma NotLarger(d: nat, n: nat)
    requires Divides(d, n) && n > 0
    ensures d <= n
  {
  }

  /** Takes all factors two out of x, which an odd partner does not share. */
  method Odd(x: nat, ghost partner: nat) returns (y: nat)
    requires x > 0
    ensures 0 < y <= x && y % 2 == 1 && (x % 2 == 1 ==> y == x)
    ensures partner % 2 == 1 ==> Gcd(partner, y) == Gcd(partner, x)
  {
    y := x;
    while y % 2 == 0
      invariant 0 < y <= x && (x % 2 == 1 ==> y == x)
      invariant partner % 2 == 1 ==> Gcd(partner, y) == Gcd(partner, x)
      decreases y
    {
      if partner % 2 == 1 { GcdHalves(partner, y); }
      y := y / 2;
    }
  }

  function ShiftLeft(g: nat, s: nat): nat {
    g * Two(s)
  }

  lemma ShiftOnceMore(g: nat, s: nat)
    ensures ShiftLeft(2 * g, s) == ShiftLeft(g, s + 1) && ShiftLeft(g, 0) == g
  {
  }

  /** The binary algorithm. */
  method BinaryGcd(u0: nat, v0: nat) returns (g: nat)
    ensures g == Gcd(u0, v0)
  {
    if u0 == 0 || v0 == 0 {
      return u0 + v0;
    }
    ShiftOnceMore(Gcd(u0, v0), 0);
    hide Gcd, ShiftLeft;
    var u, v, s := u0, v0, 0;
    while u % 2 == 0 && v % 2 == 0
      invariant u > 0 && v > 0 && Gcd(u0, v0) == ShiftLeft(Gcd(u, v), s)
      decreases u
    {
      GcdScales(2, u / 2, v / 2);
      ShiftOnceMore(Gcd(u / 2, v / 2), s);
      u, v, s := u / 2, v / 2, s + 1;
    }
    GcdCommutes(u, v);
    u := Odd(u, v);
    GcdCommutes(u, v);
    g := OddGcd(u, v);
    g := ShiftLeft(g, s);
  }

  /** The subtracting loop, u odd. */
  method OddGcd(u0: nat, v0: nat) returns (g: nat)
    requires u0 % 2 == 1 && v0 > 0
    ensures g == Gcd(u0, v0)
  {
    var u, v := u0, v0;
    while true
      invariant u % 2 == 1 && v > 0 && Gcd(u, v) == Gcd(u0, v0)
      decreases u + v
    {
      v := Odd(v, u);
      if u > v {
        GcdCommutes(u, v);
        u, v := v, u;
      }
      v := v - u;
      if v == 0 {
        break;
      }
    }
    return u;
  }
}

/** The clock generator's registers. */
module Si5351c {

  import opened Division

  datatype Multisynth = Multisynth(p1: nat, p2: nat, p3: nat, rDiv: nat)

  /** The bytes of a multisynth as the firmware writes them. */
  function Pack(m: Multisynth): (data: seq<nat>)
    ensures |data| == 8 && forall k :: 0 <= k < 8 ==> data[k] < 0x100
  {
    [m.p3 / 0x100 % 0x100,
     m.p3 % 0x100,
     (m.rDiv * 0x10 + m.p1 / 0x1_0000 % 4) % 0x100,
     m.p1 / 0x100 % 0x100,
     m.p1 % 0x100,
     m.p3 / 0x1_0000 % 0x10 * 0x10 + m.p2 / 0x1_0000 % 0x10,
     m.p2 / 0x100 % 0x100,
     m.p2 % 0x100]
  }

  /** The bytes as the host tool reads them. */
  function Unpack(parameters: seq<nat>): Multisynth
    requires |parameters| == 8
  {
    Multisynth(parameters[2] % 4 * 0x1_0000 + parameters[3] * 0x100 + parameters[4],
               parameters[5] % 0x10 * 0x1_0000 + parameters[6] * 0x100 + parameters[7],
               parameters[5] / 0x10 % 0x10 * 0x1_0000 + parameters[0] * 0x100 + parameters[1],
               parameters[2] / 0x10 % 8)
  }

  /** The layout of the chip: P3, P1 and P2 with their low halves in two bytes each, the high one first, and
      what is above them in the shared bytes. */
  ghost predicate LaidOut(data: seq<nat>, m: Multisynth) {
    && |data| == 8
    && data[0] * 0x100 + data[1] == m.p3 % 0x1_0000 && data[1] < 0x100
    && data[2] / 0x10 == m.rDiv % 0x10 && data[2] % 0x10 == m.p1 / 0x1_0000 % 4
    && data[3] * 0x100 + data[4] == m.p1 % 0x1_0000 && data[4] < 0x100
    && data[5] / 0x10 == m.p3 / 0x1_0000 % 0x10 && data[5] % 0x10 == m.p2 / 0x1_0000 % 0x10
    && data[6] * 0x100 + data[7] == m.p2 % 0x1_0000 && data[7] < 0x100
  }

  lemma PackLaysOut(m: Multisynth)
    ensures LaidOut(Pack(m), m)
  {
    LowHalf(m.p1);
    LowHalf(m.p2);
    LowHalf(m.p3);
    var r := m.rDiv;
    Quotient(r * 0x10 + m.p1 / 0x1_0000 % 4, r / 0x10, r % 0x10 * 0x10 + m.p1 / 0x1_0000 % 4, 0x100);
  }

  lemma LowHalf(p: nat)
    ensures p / 0x100 % 0x100 * 0x100 + p % 0x100 == p % 0x1_0000
  {
    var p1, b0 := p / 0x100, p % 0x100;
    Quotient(p, p1 / 0x100, p1 % 0x100 * 0x100 + b0, 0x1_0000);
  }

  /** No other bytes are laid out like that. */
  lemma LaidOutOnce(data: seq<nat>, data': seq<nat>, m: Multisynth)
    requires LaidOut(data, m) && LaidOut(data', m)
    ensures data == data'
  {
  }

  /** What is read is what was written, cut to the widths of the fields. */
  lemma UnpackPack(m: Multisynth)
    ensures Unpack(Pack(m)) == Multisynth(m.p1 % 0x4_0000, m.p2 % 0x10_0000, m.p3 % 0x10_0000, m.rDiv % 8)
  {
    Digits(m.p1);
    Digits(m.p2);
    Digits(m.p3);
    SharedByte(m.rDiv, m.p1 / 0x1_0000 % 4);
    Nibbles(m.p3 / 0x1_0000 % 0x10, m.p2 / 0x1_0000 % 0x10);
  }

  lemma Digits(p: nat)
    ensures p / 0x1_0000 % 4 * 0x1_0000 + p / 0x100 % 0x100 * 0x100 + p % 0x100 == p % 0x4_0000
    ensures p / 0x1_0000 % 0x10 * 0x1_0000 + p / 0x100 % 0x100 * 0x100 + p % 0x100 == p % 0x10_0000
  {
    var p1, b0 := p / 0x100, p % 0x100;
    var h, b1 := p1 / 0x100, p1 % 0x100;
    var low := b1 * 0x100 + b0;
    Quotient(p, h, low, 0x1_0000);
    Quotient(p, h / 4, h % 4 * 0x1_0000 + low, 0x4_0000);
    Quotient(p, h / 0x10, h % 0x10 * 0x1_0000 + low, 0x10_0000);
  }

  lemma SharedByte(r: nat, t: nat)
    requires t < 4
    ensures var x := (r * 0x10 + t) % 0x100; x % 4 == t && x / 0x10 % 8 == r % 8
  {
    var k, j := r / 0x10, r % 0x10;
    Quotient(r * 0x10 + t, k, j * 0x10 + t, 0x100);
    Quotient(j * 0x10 + t, j * 4, t, 4);
    Quotient(j * 0x10 + t, j, t, 0x10);
    Quotient(r, k * 2 + j / 8, j % 8, 8);
  }

  lemma Nibbles(h: nat, l: nat)
    requires h < 0x10 && l < 0x10
    ensures var x := h * 0x10 + l; x % 0x10 == l && x / 0x10 % 0x10 == h
  {
  }

  class Generator {
    const regs: array<nat>

    ghost predicate Valid()
      reads this
    {
      regs.Length == 0x100
    }

    constructor ()
      ensures Valid() && fresh(regs)
    {
      regs := new nat[0x100](_ => 0);
    }

    /** The multisynth that the registers hold. */
    ghost function Held(ms: nat): Multisynth
      requires Valid() && ms < 6
      reads this, regs
    {
      Unpack(regs[42 + ms * 8..50 + ms * 8])
    }

    /** Writes data to consecutive registers. */
    method Write(register: nat, data: seq<nat>)
      requires Valid() && register + |data| <= 0x100
      modifies regs
      ensures regs[register..register + |data|] == data
      ensures forall k :: 0 <= k < register || register + |data| <= k < 0x100 ==> regs[k] == old(regs[k])
    {
      for i := 0 to |data|
        invariant forall k :: 0 <= k < i ==> regs[register + k] == data[k]
        invariant forall k :: 0 <= k < register || register + |data| <= k < 0x100 ==> regs[k] == old(regs[k])
      {
        regs[register + i] := data[i];
      }
    }

    method ConfigureMultisynth(ms: nat, p1: nat, p2: nat, p3: nat, rDiv: nat)
      requires Valid() && ms < 6
      modifies regs
      ensures LaidOut(regs[42 + ms * 8..50 + ms * 8], Multisynth(p1, p2, p3, rDiv))
      ensures Held(ms) == Multisynth(p1 % 0x4_0000, p2 % 0x10_0000, p3 % 0x10_0000, rDiv % 8)
      ensures forall k :: 0 <= k < 42 + ms * 8 || 50 + ms * 8 <= k < 0x100 ==> regs[k] == old(regs[k])
      ensures forall other :: 0 <= other < 6 && other != ms ==> Held(other) == old(Held(other))
    {
      var m := Multisynth(p1, p2, p3, rDiv);
      UnpackPack(m);
      PackLaysOut(m);
      hide Pack, Unpack, LaidOut;
      Write(42 + ms * 8, Pack(m));
      forall other | 0 <= other < 6 && other != ms
        ensures Held(other) == old(Held(other))
      {
        assert regs[42 + other * 8..50 + other * 8] == old(regs[42 + other * 8..50 + other * 8]);
      }
    }

    /** The host tool reads the eight registers one by one. */
    method ReadMultisynth(ms: nat) returns (m: Multisynth)
      requires Valid() && ms < 6
      ensures m == Held(ms)
    {
      hide Pack, Unpack;
      var parameters: seq<nat> := [];
      for i := 0 to 8
        invariant parameters == regs[42 + ms * 8..42 + ms * 8 + i]
      {
        parameters := parameters + [regs[42 + ms * 8 + i]];
      }
      return Unpack(parameters);
    }

    /** Bit 6 of a clock control register. */
    method SetIntMode(ms: nat, on: bool)
      requires Valid() && ms < 8
      modifies regs
      ensures IntMode(ms) == on
      ensures regs[16 + ms] % 0x40 == old(regs[16 + ms] % 0x40) && regs[16 + ms] / 0x80 == old(regs[16 + ms] / 0x80)
      ensures forall k :: 0 <= k < 0x100 && k != 16 + ms ==> regs[k] == old(regs[k])
    {
      var v := regs[16 + ms];
      Write(16 + ms, [v - v / 0x40 % 2 * 0x40 + if on then 0x40 else 0]);
      assert regs[16 + ms..17 + ms][0] == regs[16 + ms];
    }

    ghost predicate IntMode(ms: nat)
      requires Valid() && ms < 8
      reads this, regs
    {
      regs[16 + ms] / 0x40 % 2 == 1
    }
  }
}

/** The choice of the divider. */
module ClockRate {

  import opened Division
  import opened Gcds
  import S = Si5351c

  const VCO_FREQ := 800_000_000
  const U32 := 0x1_0000_0000
  const MaxC := 0xF_FFFF

  /** The product wraps at 32 bits, the remainder is exact all the same, even if the quotient wraps. */
  lemma RemainderSurvives(p: nat, n: nat)
    requires 0 < n < U32
    ensures (p - (p / n % U32) * n % U32) % U32 == p % n
  {
    var q, r := p / n, p % n;
    var h, a := q / U32, q % U32;
    var t := a * n / U32;
    assert p == n * q + r && q == U32 * h + a && a * n == U32 * t + a * n % U32;
    assert n * q == U32 * (n * h) + a * n;
    var wrapped := a * n % U32;
    assert p - wrapped == (n * h + t) * U32 + r;
    Quotient(p - wrapped, n * h + t, r, U32);
  }

  /** b / c is rem / rate, at most 1 / (2^20 - 1) too small, with c below 2^20. */
  ghost predicate Approximates(b: nat, c: nat, rem: nat, rate: nat) {
    && b < c <= MaxC
    && 0 <= (rem * c - b * rate) * MaxC < rate * c
  }

  /** Dividing by the gcd leaves coprime numbers. */
  lemma Reduced(u: nat, v: nat) returns (g: nat, u': nat, v': nat)
    requires v > 0
    ensures g == Gcd(u, v) > 0 && u == g * u' && v == g * v' && v' > 0 && Gcd(u', v') == 1
    ensures u' == u / g && v' == v / g
  {
    g := Gcd(u, v);
    GcdIsGreatest(u, v, g);
    u' :| Times(g, u') == u;
    v' :| Times(g, v') == v;
    GcdScales(g, u', v');
    assert g * Gcd(u', v') == g * 1;
    Cancel(g, Gcd(u', v'), 1);
    Quotient(u, u', 0, g);
    Quotient(v, v', 0, g);
    assert g * v' > 0;
  }

  lemma Cancel(g: nat, x: nat, y: nat)
    requires g > 0 && g * x == g * y
    ensures x == y
  {
  }

  /** A denominator that makes the fraction is a multiple of the reduced one. */
  lemma ReducedIsLeast(r: nat, n: nat, b: nat, c: nat)
    requires Gcd(r, n) == 1 && n > 0 && c > 0 && b * n == r * c
    ensures n <= c
  {
    assert Times(n, b) == c * r && Times(n, c) == c * n;
    GcdScales(c, r, n);
    GcdIsGreatest(c * r, c * n, n);
    NotLarger(n, c);
  }

  /** The reduced fraction of a proper one is proper. */
  lemma ReducedProper(r: nat, n: nat, g: nat, r': nat, n': nat)
    requires 0 < r < n && r == g * r' && n == g * n'
    ensures 0 < r' < n'
  {
    if r' >= n' { Distribute(g, r', n'); }
    assert r' != 0 by { assert g * 0 == 0; }
  }

  lemma Perfect(r: nat, n: nat, g: nat, r': nat, n': nat)
    requires 0 < r < n && r == g * r' && n == g * n' && n' <= MaxC
    ensures Approximates(r', n', r, n) && r' * n == r * n'
  {
    ReducedProper(r, n, g, r', n');
    assert r' * n == r' * g * n' == r * n';
    assert n * n' > 0;
  }

  /** Cutting at the largest denominator: the numerators differ by less than one part. */
  lemma Cut(r: nat, n: nat, g: nat, r': nat, n': nat, big: nat)
    requires 0 < r < n && r == g * r' && n == g * n' && Gcd(r', n') == 1 && n' > MaxC
    requires big == MaxC * r' / n'
    ensures big < MaxC && 0 < r * MaxC - big * n < n
  {
    ReducedProper(r, n, g, r', n');
    var k := MaxC * r' % n';
    assert MaxC * r' == n' * big + k;
    if k == 0 {
      assert big * n' == r' * MaxC;
      ReducedIsLeast(r', n', big, MaxC);
    }
    Distribute(MaxC, n', r');
    if big >= MaxC { Distribute(n', big, MaxC); }
    assert r * MaxC - big * n == g * k by {
      assert r * MaxC == g * (MaxC * r') && big * n == g * (n' * big);
      Distribute(g, MaxC * r', n' * big);
    }
    Distribute(g, n', k);
    assert g > 0 by { assert n == g * n'; }
    OneTimes(g, k);
  }

  lemma SameSign(g: nat, d: int)
    ensures d <= 0 ==> g * d <= 0
  {
  }

  /** Reducing the cut fraction keeps its value. */
  lemma CutReduced(r: nat, n: nat, big: nat, g: nat, b: nat, c: nat)
    requires n > 0 && big < MaxC && 0 < r * MaxC - big * n < n
    requires big == g * b && MaxC == g * c && c > 0 && g > 0
    ensures Approximates(b, c, r, n) && b * n != r * c
  {
    var d := r * c - b * n;
    assert g * d == r * MaxC - big * n by {
      assert r * MaxC == g * (r * c) && big * n == g * (b * n);
      assert g * d == g * (r * c) - g * (b * n);
    }
    SameSign(g, d);
    assert d * MaxC == c * (g * d);
    Distribute(c, n, g * d);
    assert c <= MaxC by { Distribute(g, c, 0); OneTimes(c, g); }
    assert b < c by { if b >= c { Distribute(g, b, c); } }
  }

  /** The best fraction found: exact iff the reduced denominator fits 20 bits. */
  method Fraction(rem0: nat, rateNum0: nat) returns (b: nat, c: nat)
    requires 0 < rem0 < rateNum0
    ensures Approximates(b, c, rem0, rateNum0) && Gcd(b, c) == 1
    ensures b * rateNum0 == rem0 * c <==> rateNum0 / Gcd(rem0, rateNum0) <= MaxC
  {
    var g := BinaryGcd(rem0, rateNum0);
    ghost var gg, r', n' := Reduced(rem0, rateNum0);
    var rem := rem0 / g;
    var rateNum := rateNum0 / g;
    if rateNum < 0x10_0000 {
      Perfect(rem0, rateNum0, gg, r', n');
      b, c := rem, rateNum;
    } else {
      c := 0xF_FFFF;
      b := c * rem / rateNum;
      Cut(rem0, rateNum0, gg, r', n', b);
      g := BinaryGcd(b, c);
      ghost var g2, b', c' := Reduced(b, c);
      CutReduced(rem0, rateNum0, b, g2, b', c');
      b, c := b / g, c / g;
    }
  }

  /** The multisynth's divider, times 128 c. */
  function Divider(m: S.Multisynth): int {
    (m.p1 + 512) * m.p3 + m.p2
  }

  /** The register values for a + b / c, in 32 bits. */
  function Values(a: nat, b: nat, c: nat, rDiv: nat): S.Multisynth
    requires c > 0
  {
    S.Multisynth((128 * a + 128 * b / c - 512) % U32, 128 * b % c, c, rDiv)
  }

  /** What the registers keep of the values stands for a + b / c iff a is between 4 and 2051. */
  lemma DividerKept(q: nat, b: nat, c: nat)
    requires b < c <= MaxC
    ensures var v := Values(q % U32, b, c, 1);
            var held := S.Multisynth(v.p1 % 0x4_0000, v.p2 % 0x10_0000, v.p3 % 0x10_0000, 1);
            Divider(held) == 128 * (q * c + b) <==> 4 <= q <= 2051
  {
    Part(b, c);
    var k, r := 128 * b / c, 128 * b % c;
    KeptNumber(q, k);
    assert r % 0x10_0000 == r && c % 0x10_0000 == c;
    SameDivider(q, b, c, k, r, (128 * (q % U32) + k - 512) % U32 % 0x4_0000);
  }

  lemma Part(b: nat, c: nat)
    requires b < c
    ensures var k, r := 128 * b / c, 128 * b % c; 0 <= k < 128 && 0 <= r < c && 128 * b == c * k + r
  {
    var k := 128 * b / c;
    if k >= 128 { Distribute(c, k, 128); }
  }

  lemma SameDivider(q: nat, b: nat, c: nat, k: nat, r: nat, p1: nat)
    requires c > 0 && 128 * b == c * k + r
    ensures (p1 + 512) * c + r == 128 * (q * c + b) <==> p1 + 512 == 128 * q + k
  {
    assert 128 * (q * c + b) == c * (128 * q + k) + r;
    if c * (p1 + 512) == c * (128 * q + k) {
      Cancel(c, p1 + 512, 128 * q + k);
    }
  }

  lemma KeptNumber(q: nat, k: nat)
    requires k < 128
    ensures (128 * (q % U32) + k - 512) % U32 % 0x4_0000 + 512 == 128 * q + k <==> 4 <= q <= 2051
  {
  }

  /** The whole part of the divider, and what is left for the fraction. */
  function Whole(rateNum: nat, rateDenom: nat): nat
    requires rateNum > 0
  {
    VCO_FREQ * rateDenom / rateNum
  }

  function Left(rateNum: nat, rateDenom: nat): nat
    requires rateNum > 0
  {
    VCO_FREQ * rateDenom % rateNum
  }

  /** b / c is the fraction r / n, exactly iff the reduced denominator fits 20 bits, else less than
      1 / (2^20 - 1) too small. */
  ghost predicate BestFraction(b: nat, c: nat, r: nat, n: nat)
    requires n > 0
  {
    && b < c <= MaxC
    && (if r == 0 then b == 0 && c == 1 else Approximates(b, c, r, n))
    && (b * n == r * c <==> r == 0 || n / Gcd(r, n) <= MaxC)
  }

  /** The multisynth divides by q + b / c. */
  ghost predicate StandsFor(m: S.Multisynth, q: nat, b: nat, c: nat) {
    Divider(m) == 128 * (q * c + b) && m.p3 == c
  }

  lemma WrapParity(q: nat)
    ensures q % U32 % 2 == q % 2
  {
  }

  /** The choice of a, b and c: a is the quotient cut to 32 bits, b / c the remainder's part. */
  method Choose(rateNum: nat, rateDenom: nat) returns (a: nat, b: nat, c: nat)
    requires 0 < rateNum < U32 && rateDenom < U32
    ensures a == Whole(rateNum, rateDenom) % U32
    ensures BestFraction(b, c, Left(rateNum, rateDenom), rateNum)
  {
    hide Gcd;
    var p := VCO_FREQ * rateDenom;
    a := p / rateNum % U32;
    var rem := (p - a * rateNum % U32) % U32;
    RemainderSurvives(p, rateNum);
    if rem == 0 {
      b, c := 0, 1;
    } else {
      b, c := Fraction(rem, rateNum);
    }
  }

  /** The divider programmed is the quotient and the best fraction iff the quotient is between 4 and
      2051; the next two multisynths are zero, the others stay. */
  method SampleRateFracSet(clockGen: S.Generator, rateNum: nat, rateDenom: nat) returns (ghost b: nat, ghost c: nat)
    requires clockGen.Valid() && 0 < rateNum < U32 && rateDenom < U32
    modifies clockGen.regs
    ensures BestFraction(b, c, Left(rateNum, rateDenom), rateNum)
    ensures StandsFor(clockGen.Held(0), Whole(rateNum, rateDenom), b, c) <==> 4 <= Whole(rateNum, rateDenom) <= 2051
    ensures clockGen.IntMode(0) <==> Whole(rateNum, rateDenom) % 2 == 0 && b == 0
    ensures clockGen.Held(0).rDiv == 1 && clockGen.Held(1) == clockGen.Held(2) == S.Multisynth(0, 0, 0, 0)
    ensures forall other :: 3 <= other < 6 ==> clockGen.Held(other) == old(clockGen.Held(other))
  {
    hide Whole, Left, Approximates, Gcd, StandsFor, S.Unpack;
    var a, b', c' := Choose(rateNum, rateDenom);
    b, c := b', c';
    ProgramDivider(clockGen, Whole(rateNum, rateDenom), a, b', c');
  }

  method ProgramDivider(clockGen: S.Generator, ghost q: nat, a: nat, b: nat, c: nat)
    requires clockGen.Valid() && a == q % U32 && b < c <= MaxC
    modifies clockGen.regs
    ensures StandsFor(clockGen.Held(0), q, b, c) <==> 4 <= q <= 2051
    ensures clockGen.IntMode(0) <==> q % 2 == 0 && b == 0
    ensures clockGen.Held(0).rDiv == 1 && clockGen.Held(1) == clockGen.Held(2) == S.Multisynth(0, 0, 0, 0)
    ensures forall other :: 3 <= other < 6 ==> clockGen.Held(other) == old(clockGen.Held(other))
  {
    hide Divider, Values, S.Unpack;
    DividerKept(q, b, c);
    WrapParity(q);
    ValuesFit(a, b, c);
    var v := Values(a, b, c, 1);
    var intMode := !(a % 2 == 1 || b != 0);
    assert intMode == (q % 2 == 0 && b == 0);
    clockGen.SetIntMode(0, intMode);
    forall other | 0 <= other < 6
      ensures clockGen.Held(other) == old(clockGen.Held(other))
    {
      assert clockGen.regs[42 + other * 8..50 + other * 8] == old(clockGen.regs[42 + other * 8..50 + other * 8]);
    }
    clockGen.ConfigureMultisynth(0, v.p1, v.p2, v.p3, 1);
    clockGen.ConfigureMultisynth(1, 0, 0, 0, 0);
    clockGen.ConfigureMultisynth(2, 0, 0, 0, 0);
  }

  lemma ValuesFit(a: nat, b: nat, c: nat)
    requires b < c <= MaxC
    ensures Values(a, b, c, 1).p3 == c == c % 0x10_0000
  {
  }
}
