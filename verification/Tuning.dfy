/** The LO synthesizer in integer mode (firmware/common/rffc5071.c). */
module Rffc5071 {

  import opened Division

  const LO_MAX := 5400
  const REF_FREQ := 50
  const FREQ_ONE_MHZ := 1_000_000

  lemma SmallPowers()
    ensures Two(0) == 1 && Two(1) == 2 && Two(2) == 4 && Two(3) == 8 && Two(4) == 16 && Two(5) == 32
  {
  }

  /** Halving x by the loop of the divider search ends at 1 unless five halvings are not enough. */
  ghost predicate Divides(x: nat, n: nat) {
    n <= 5 && (n > 0 ==> Two(n) <= x) && (x < 2 * Two(n) || n == 5)
  }

  /** The VCO is an octave below 5400 MHz iff the LO is between 85 and 5400 MHz. */
  lemma VcoOctave(lo: nat, n: nat)
    requires 1 <= lo && Divides(LO_MAX / lo, n)
    ensures LO_MAX / 2 < Two(n) * lo <= LO_MAX <==> 85 <= lo <= LO_MAX
    ensures Two(n) * lo <= if lo <= LO_MAX then LO_MAX else lo
  {
    SmallPowers();
    QuotientReaches(lo, Two(n));
    QuotientReaches(lo, 2 * Two(n));
    assert n in {0, 1, 2, 3, 4, 5};
  }

  lemma QuotientReaches(lo: nat, k: nat)
    requires 1 <= lo
    ensures LO_MAX / lo >= k <==> k * lo <= LO_MAX
  {
    var x := LO_MAX / lo;
    assert LO_MAX == lo * x + LO_MAX % lo;
    MultipleOrder(lo, k, x);
    MultipleOrder(lo, x + 1, k);
  }

  lemma MultipleOrder(lo: nat, k: nat, x: nat)
    ensures k <= x ==> lo * k <= lo * x
  {
  }

  /** The output of a loop with N = n24 / 2^24, in hertz: as a ratio, and cut to whole hertz. */
  function HertzTop(n24: nat, fbkdiv: nat): int {
    REF_FREQ * n24 * fbkdiv * FREQ_ONE_MHZ
  }

  function Hertz(n24: nat, fbkdiv: nat, lodiv: nat): int
    requires lodiv > 0
  {
    HertzTop(n24, fbkdiv) / (lodiv * 0x100_0000)
  }

  /** The reported LO is at most 12 Hz below the requested one: the fraction of N is cut at 24 bits. */
  lemma ReportedLo(lo: nat, lodiv: nat, fbkdiv: nat)
    requires lodiv in {1, 2, 4, 8, 16, 32} && fbkdiv in {2, 4}
    ensures var n24 := lodiv * lo * 0x2000_0000 / (fbkdiv * REF_FREQ) / 32;
            var hz := Hertz(n24, fbkdiv, lodiv);
            lo * FREQ_ONE_MHZ - 12 <= hz <= lo * FREQ_ONE_MHZ
  {
    var n24 := lodiv * lo * 0x2000_0000 / (fbkdiv * REF_FREQ) / 32;
    var s, hz := lodiv * 0x100_0000, lo * FREQ_ONE_MHZ;
    CutTwice(lodiv * lo * 0x100_0000, fbkdiv * REF_FREQ, n24);
    var top := HertzTop(n24, fbkdiv);
    assert top == fbkdiv * REF_FREQ * n24 * FREQ_ONE_MHZ;
    assert s * hz == lodiv * lo * 0x100_0000 * FREQ_ONE_MHZ;
    hide HertzTop;
    QuotientBetween(top, s, hz);
  }

  lemma CutTwice(a: nat, f: nat, n: nat)
    requires f in {100, 200} && n == a * 32 / f / 32
    ensures f * n <= a < f * n + f
  {
    if f == 100 {} else {}
  }

  lemma QuotientBetween(top: int, s: int, hz: int)
    requires s >= 0x100_0000 && s * hz - 12 * 0x100_0000 <= top <= s * hz
    ensures hz - 12 <= top / s <= hz
  {
    var q := top / s;
    assert top == s * q + top % s;
    assert s * (hz - q) == s * hz - s * q;
    FactorBetween(s, hz - q);
  }

  lemma FactorBetween(s: int, d: int)
    requires s > 0 && 0 <= s * d < 13 * s
    ensures 0 <= d <= 12
  {
    if d < 0 { OneTimes(s, -d); } else if d > 12 { OneTimes(s, d - 12); }
  }

  /** The three fields of N hold its whole part and its 24-bit fraction. */
  lemma FieldsOfN(tmp: nat)
    ensures var n, nmsb, nlsb := tmp / 0x2000_0000, tmp / 0x2000 % 0x1_0000, tmp / 32 % 0x100;
            n * 0x100_0000 + nmsb * 0x100 + nlsb == tmp / 32
  {
  }

  lemma NFits(fvco: nat)
    requires fvco < 0x1_0000
    ensures fvco <= 3200 ==> fvco * 0x2000_0000 / (2 * REF_FREQ) < 0x200 * 0x2000_0000
    ensures fvco * 0x2000_0000 / (4 * REF_FREQ) < 0x200 * 0x2000_0000
  {
  }

  class Synth {
    var pllcpl: nat
    var p2lodiv: nat
    var p2n: nat
    var p2presc: nat
    var p2nmsb: nat
    var p2nlsb: nat
    var enabled: bool
    /** Whether it was off when the fields were set last. */
    ghost var setWhileOff: bool

    constructor () {
      pllcpl, p2lodiv, p2n, p2presc, p2nmsb, p2nlsb, enabled := 2, 0, 0, 1, 0, 0, false;
      setWhileOff := true;
    }

    /** Every field fits its register. */
    ghost predicate FieldsFit()
      reads this
    {
      p2lodiv < 8 && p2n < 0x200 && p2presc < 4 && p2nmsb < 0x1_0000 && p2nlsb < 0x100
    }

    ghost function N24(): nat
      reads this
    {
      p2n * 0x100_0000 + p2nmsb * 0x100 + p2nlsb
    }

    /** The LO that the fields stand for, scaled by 2^24 times the divider. */
    ghost function LoTop(): int
      reads this
    {
      HertzTop(N24(), 2 * p2presc)
    }

    /** That LO cut to whole hertz. */
    ghost function LoHz(): int
      reads this
    {
      Hertz(N24(), 2 * p2presc, Two(p2lodiv))
    }

    lemma LoIsCut()
      ensures Two(p2lodiv) * (0x100_0000 * LoHz()) <= LoTop() < Two(p2lodiv) * (0x100_0000 * (LoHz() + 1))
    {
      var s := Two(p2lodiv) * 0x100_0000;
      assert LoTop() == s * (LoTop() / s) + LoTop() % s;
      hide HertzTop;
    }

    /** The search for the LO divider. */
    static method LoDivider(lo: nat) returns (nLo: nat)
      requires 1 <= lo < 0x1_0000
      ensures Divides(LO_MAX / lo, nLo)
    {
      nLo := 0;
      var x := LO_MAX / lo;
      SmallPowers();
      while x > 1 && nLo < 5
        invariant nLo <= 5 && x == LO_MAX / lo / Two(nLo)
        invariant nLo > 0 ==> Two(nLo) <= LO_MAX / lo
      {
        nLo := nLo + 1;
        x := x / 2;
      }
    }

    /** Integer mode, lo in MHz: the value returned is the LO of the fields in whole hertz, at most 12 Hz
        below the request; the VCO is in its octave iff the request is between 85 and 5400 MHz. */
    method ConfigSynthInt(lo: nat) returns (tuneFreqHz: nat)
      requires 1 <= lo < 0x1_0000
      modifies this`pllcpl, this`p2lodiv, this`p2n, this`p2presc, this`p2nmsb, this`p2nlsb, `setWhileOff
      ensures FieldsFit() && tuneFreqHz == LoHz() && setWhileOff == !enabled
      ensures lo * FREQ_ONE_MHZ - 12 <= LoHz() <= lo * FREQ_ONE_MHZ
      ensures LO_MAX / 2 < Two(p2lodiv) * lo <= LO_MAX <==> 85 <= lo <= LO_MAX
      ensures p2presc == (if Two(p2lodiv) * lo > 3200 then 2 else 1) && pllcpl == p2presc + 1
    {
      hide Hertz, Divides;
      var nLo := LoDivider(lo);
      VcoOctave(lo, nLo);
      SmallPowers();
      var lodiv := Two(nLo);
      var fvco := lodiv * lo;
      var fbkdiv := 2;
      if fvco > 3200 {
        fbkdiv := 4;
        pllcpl := 3;
      } else {
        pllcpl := 2;
      }
      var tmpN := fvco * 0x2000_0000 / (fbkdiv * REF_FREQ);
      var n := tmpN / 0x2000_0000;
      var p1nmsb := tmpN / 0x2000 % 0x1_0000;
      var p1nlsb := tmpN / 32 % 0x100;
      FieldsOfN(tmpN);
      NFits(fvco);
      ReportedLo(lo, lodiv, fbkdiv);
      tuneFreqHz := Hertz(tmpN / 32, fbkdiv, lodiv);
      setWhileOff := !enabled;
      p2lodiv, p2n, p2presc, p2nmsb, p2nlsb := nLo, n, fbkdiv / 2, p1nmsb, p1nlsb;
    }

    /** The value returned is cut to 32 bits. */
    method SetFrequency(mhz: nat) returns (tuneFreq: nat)
      requires 1 <= mhz < 0x1_0000
      modifies this
      ensures enabled && setWhileOff && FieldsFit() && tuneFreq == LoHz() % 0x1_0000_0000
      ensures mhz * FREQ_ONE_MHZ - 12 <= LoHz() <= mhz * FREQ_ONE_MHZ
      ensures LO_MAX / 2 < Two(p2lodiv) * mhz <= LO_MAX <==> 85 <= mhz <= LO_MAX
    {
      enabled := false;
      var hz := ConfigSynthInt(mhz);
      tuneFreq := hz % 0x1_0000_0000;
      enabled := true;
    }
  }
}

/** The IF synthesizer (firmware/common/max2837.c). */
module Max2837 {

  const Step := 30_000_000

  /** Scaled by 2^20: what bit i of the ratio, counted from the top, is worth. */
  function Worth(i: nat): (w: nat)
    requires i <= 20
    decreases 20 - i
  {
    if i == 20 then Step else 2 * Worth(i + 1)
  }

  /** What the loop takes it to be worth: the halves are cut to whole hertz. */
  function DivCmp(i: nat): (c: nat)
  {
    if i == 0 then Step else DivCmp(i - 1) / 2
  }

  /** Scaled by 2^20: what the cut can add up to over the bits down to i. */
  function Surplus(i: nat): (s: int)
    requires i <= 20
  {
    if i == 0 then 0 else Surplus(i - 1) + Worth(i) - 0x10_0000 * DivCmp(i)
  }

  /** How far the remainder can exceed the step just tried. */
  function Excess(i: nat): (e: nat)
  {
    if i == 0 then 0 else Excess(i - 1) + DivCmp(i - 1) % 2
  }

  lemma {:induction false} WorthAndStep(i: nat)
    requires i <= 20
    ensures Worth(i) >= 0x10_0000 * DivCmp(i)
  {
    if i > 0 {
      WorthAndStep(i - 1);
    } else {
      assert Worth(10) == 1024 * Step;
    }
  }

  /** What the cuts add up to is what the odd steps lose, less what the last step still has to lose. */
  lemma {:induction false} SurplusIs(i: nat)
    requires i <= 20
    ensures Surplus(i) == 0x10_0000 * Excess(i) - (Worth(i) - 0x10_0000 * DivCmp(i))
  {
    if i > 0 {
      SurplusIs(i - 1);
    } else {
      assert Worth(10) == 1024 * Step;
    }
  }

  lemma Halve(i: nat, c: nat, e: nat)
    requires DivCmp(i) == c && Excess(i) == e
    ensures DivCmp(i + 1) == c / 2 && Excess(i + 1) == e + c % 2
  {
  }

  lemma TwentySteps()
    ensures DivCmp(20) == 28 && Excess(20) == 7
  {
    assert DivCmp(0) == Step && Excess(0) == 0;
    hide DivCmp, Excess;
    Halve(0, Step, 0); Halve(1, 15_000_000, 0); Halve(2, 7_500_000, 0); Halve(3, 3_750_000, 0);
    Halve(4, 1_875_000, 0); Halve(5, 937_500, 0); Halve(6, 468_750, 0); Halve(7, 234_375, 0);
    Halve(8, 117_187, 1); Halve(9, 58_593, 2); Halve(10, 29_296, 3); Halve(11, 14_648, 3);
    Halve(12, 7_324, 3); Halve(13, 3_662, 3); Halve(14, 1_831, 3); Halve(15, 915, 4);
    Halve(16, 457, 5); Halve(17, 228, 6); Halve(18, 114, 6); Halve(19, 57, 6);
  }

  lemma AfterTwentySteps()
    ensures DivCmp(20) == 28 && Excess(20) == 7 && Surplus(20) < 7 * 0x10_0000
  {
    TwentySteps();
    SurplusIs(20);
    assert Worth(20) == Step;
    hide *;
  }

  datatype Band = Bsw23 | Bsw24 | Bsw25 | Bsw26
  datatype LnaBand = Lna24 | Lna26
  datatype Mode = Shutdown | Standby | Tx | Rx

  /** After i bits: what the fraction is worth is what was taken from the remainder, up to the cuts. */
  ghost predicate Split(i: nat, rem: int, left: nat, frac: nat, limit: nat)
    requires i <= 20
  {
    && left <= DivCmp(i) + Excess(i)
    && frac < limit && limit * Worth(i) == 0x10_0000 * Step
    && 0x10_0000 * (rem - left) <= frac * Worth(i) <= 0x10_0000 * (rem - left) + Surplus(i)
  }

  lemma Unfolded(i: nat)
    requires i < 20
    ensures Worth(i) == 2 * Worth(i + 1) && DivCmp(i + 1) == DivCmp(i) / 2
    ensures Excess(i + 1) == Excess(i) + DivCmp(i) % 2
    ensures Surplus(i + 1) == Surplus(i) + Worth(i + 1) - 0x10_0000 * DivCmp(i + 1)
  {
  }

  lemma BitWorth(frac: nat, w: nat)
    ensures frac * (2 * w) == (frac * 2) * w && (frac * 2 + 1) * w == (frac * 2) * w + w
  {
  }

  lemma SplitStep(i: nat, rem: int, left: nat, frac: nat, limit: nat)
    requires i < 20 && Split(i, rem, left, frac, limit)
    ensures var c := DivCmp(i) / 2;
            && c == DivCmp(i + 1)
            && if left > c then Split(i + 1, rem, left - c, frac * 2 + 1, limit * 2)
               else Split(i + 1, rem, left, frac * 2, limit * 2)
  {
    hide DivCmp, Worth, Surplus, Excess;
    Unfolded(i);
    WorthAndStep(i + 1);
    BitWorth(frac, Worth(i + 1));
    BitWorth(limit, Worth(i + 1));
  }

  lemma SplitStart(rem: nat)
    requires rem < Step
    ensures DivCmp(0) == Step && Split(0, rem, rem, 0, 1)
  {
    assert Worth(10) == 1024 * Step;
  }

  lemma SplitDone(rem: int, left: nat, frac: nat, limit: nat)
    requires Split(20, rem, left, frac, limit)
    ensures frac < 0x10_0000 && left <= 35
    ensures 0x10_0000 * (rem - left) <= frac * Step < 0x10_0000 * (rem - left + 7)
  {
    AfterTwentySteps();
    assert Worth(20) == Step;
    hide DivCmp, Worth, Surplus, Excess;
  }

  /** The greedy split of the remainder into twenty bits. */
  method Fraction(rem: nat) returns (divFrac: nat)
    requires rem < Step
    ensures divFrac < 0x10_0000
    ensures 0x10_0000 * (rem - 35) <= divFrac * Step < 0x10_0000 * (rem + 7)
  {
    var divRem: nat, divCmp: nat := rem, Step;
    divFrac := 0;
    ghost var limit: nat := 1;
    SplitStart(rem);
    hide Split, DivCmp, Worth, Surplus, Excess;
    for i := 0 to 20
      invariant divCmp == DivCmp(i) && Split(i, rem, divRem, divFrac, limit)
    {
      SplitStep(i, rem, divRem, divFrac, limit);
      divFrac := divFrac * 2;
      divCmp := divCmp / 2;
      if divRem > divCmp {
        divFrac := divFrac + 1;
        divRem := divRem - divCmp;
      }
      limit := limit * 2;
    }
    SplitDone(rem, divRem, divFrac, limit);
  }

  class Mixer {
    var band: Band
    var lnaBand: LnaBand
    var synInt: nat
    var synFracHi: nat
    var synFracLo: nat
    var mode: Mode

    /** The last frequency asked for, and the mode in which it was. */
    ghost var requested: nat
    ghost var tunedIn: Mode

    constructor () {
      band, lnaBand, synInt, synFracHi, synFracLo, mode := Bsw23, Lna24, 79, 0, 0, Shutdown;
      requested, tunedIn := 0, Shutdown;
    }

    ghost predicate FieldsFit()
      reads this
    {
      synInt < 0x100 && synFracHi < 0x400 && synFracLo < 0x400
    }

    /** The frequency that the fields stand for, scaled by 2^20. */
    ghost function Tuned(): nat
      reads this
    {
      (synInt * 0x10_0000 + synFracHi * 0x400 + synFracLo) * Step
    }

    /** Every 32-bit frequency is tuned at most 35 Hz below the request and less than 7 Hz above it. */
    method SetFrequency(freq: nat)
      requires freq < 0x1_0000_0000
      modifies `band, `lnaBand, `synInt, `synFracHi, `synFracLo, `requested, `tunedIn
      ensures FieldsFit() && requested == freq && tunedIn == mode
      ensures 0x10_0000 * (freq - 35) <= Tuned() < 0x10_0000 * (freq + 7)
      ensures (band, lnaBand) == if freq < 2_400_000_000 then (Bsw23, Lna24)
              else if freq < 2_500_000_000 then (Bsw24, Lna24)
                                 else if freq < 2_600_000_000 then (Bsw25, Lna26) else (Bsw26, Lna26)
    {
      var newBand, newLna;
      if freq < 2_400_000_000 {
        newBand, newLna := Bsw23, Lna24;
      } else if freq < 2_500_000_000 {
        newBand, newLna := Bsw24, Lna24;
      } else if freq < 2_600_000_000 {
        newBand, newLna := Bsw25, Lna26;
      } else {
        newBand, newLna := Bsw26, Lna26;
      }
      var divInt := freq / Step;
      var divFrac := Fraction(freq % Step);
      band, lnaBand, requested, tunedIn := newBand, newLna, freq, mode;
      synInt := divInt;
      synFracHi := divFrac / 0x400 % 0x400;
      synFracLo := divFrac % 0x400;
      assert synInt * 0x10_0000 + synFracHi * 0x400 + synFracLo == divInt * 0x10_0000 + divFrac;
    }
  }
}

/** The frequency plan (firmware/common/tuning.c), in the source's integer widths. */
module Tuning {

  import R = Rffc5071
  import M = Max2837
  import opened Division

  const FREQ_ONE_MHZ := 1_000_000
  const MAX_LP_FREQ_MHZ := 2150
  const MIN_BYPASS_FREQ_MHZ := 2150
  const MAX_BYPASS_FREQ_MHZ := 2750
  const MID1_HP_FREQ_MHZ := 3600
  const MID2_HP_FREQ_MHZ := 5100
  const MAX_HP_FREQ_MHZ := 7250
  const MIN_LO_FREQ_HZ := 84_375_000
  const MAX_LO_FREQ_HZ := 5_400_000_000

  const RF_PATH_FILTER_BYPASS := 0
  const RF_PATH_FILTER_LOW_PASS := 1
  const RF_PATH_FILTER_HIGH_PASS := 2

  const U16 := 0x1_0000
  const U32 := 0x1_0000_0000
  const U64 := 0x1_0000_0000_0000_0000

  /** The LO is a ratio over the divider and this. */
  const SCALE := 0x100_0000

  datatype Band = LowPass | Bypass | HighPass | TooHigh

  function FreqMhz(freq: nat): nat {
    freq / FREQ_ONE_MHZ % U32
  }

  function BandOf(freq: nat): Band {
    var mhz := FreqMhz(freq);
    if mhz < MAX_LP_FREQ_MHZ then LowPass
    else if mhz < MAX_BYPASS_FREQ_MHZ then Bypass
    else if mhz <= MAX_HP_FREQ_MHZ then HighPass
    else TooHigh
  }

  /** The planned IF, a 32-bit value computed in 64 bits. */
  function NominalHz(freq: nat): nat {
    var mhz := FreqMhz(freq);
    if mhz < MAX_LP_FREQ_MHZ then (2_650_000_000 - freq / 7) % U32
    else if mhz < MID1_HP_FREQ_MHZ then (2_150_000_000 + (freq - 2_750_000_000) * 60 % U64 / 85) % U32
    else if mhz < MID2_HP_FREQ_MHZ then (2_350_000_000 + (freq - 3_600_000_000) / 5) % U32
    else (2_500_000_000 + (freq - 5_100_000_000) / 9) % U32
  }

  /** The LO to ask for, passed as 16 bits. */
  function LoMhz(freq: nat): nat {
    (if BandOf(freq) == LowPass then NominalHz(freq) / FREQ_ONE_MHZ + FreqMhz(freq)
     else FreqMhz(freq) - NominalHz(freq) / FREQ_ONE_MHZ) % U16
  }

  /** The whole megahertz fit 32 bits. */
  predicate MhzFits(freq: nat) {
    freq / FREQ_ONE_MHZ < U32
  }

  lemma InRange(freq: nat)
    requires MhzFits(freq)
    ensures FreqMhz(freq) == freq / FREQ_ONE_MHZ
    ensures BandOf(freq) == LowPass <==> freq < 2_150_000_000
    ensures BandOf(freq) == HighPass <==> 2_750_000_000 <= freq < 7_251_000_000
  {
  }

  /** The graduation of the IF, without widths. */
  function Grade(freq: nat): int {
    if freq < 2_150_000_000 then 2_650_000_000 - freq / 7
    else if freq < 3_600_000_000 then 2_150_000_000 + (freq - 2_750_000_000) * 60 / 85
    else if freq < 5_100_000_000 then 2_350_000_000 + (freq - 3_600_000_000) / 5
    else 2_500_000_000 + (freq - 5_100_000_000) / 9
  }

  lemma GradeRange(freq: nat)
    requires freq < 2_150_000_000 || 2_750_000_000 <= freq < 7_251_000_000
    ensures 2_150_000_000 <= Grade(freq) <= 2_750_000_000
    ensures freq >= 2_750_000_000 ==> 0 <= (freq - 2_750_000_000) * 60 < U64
  {
  }

  /** In range the plan is computed without wrapping: the IF is graduated. */
  lemma Graduated(freq: nat)
    requires MhzFits(freq) && BandOf(freq) in {LowPass, HighPass}
    ensures NominalHz(freq) == Grade(freq) && 2_150_000_000 <= Grade(freq) <= 2_750_000_000
  {
    InRange(freq);
    GradeRange(freq);
    var x := (freq - 2_750_000_000) * 60;
    if freq >= 2_750_000_000 { Quotient(x, 0, x, U64); }
    Quotient(Grade(freq), 0, Grade(freq), U32);
    hide FreqMhz, BandOf;
    if freq < 2_150_000_000 {
    } else if freq < 3_600_000_000 {
    } else if freq < 5_100_000_000 {
    } else {
    }
  }

  lemma LowPassNominal(freq: nat)
    requires BandOf(freq) == LowPass
    ensures NominalHz(freq) == (2_650_000_000 - freq / 7) % U32
  {
  }

  lemma LowPassLo(freq: nat, n: nat)
    requires freq < 2_150_000_000 && n == Grade(freq)
    ensures 600 <= n / FREQ_ONE_MHZ + freq / FREQ_ONE_MHZ <= 4512
  {
  }

  lemma HighPassLo(freq: nat, n: nat)
    requires 2_750_000_000 <= freq < 7_251_000_000
    requires n == Grade(freq)
    ensures 600 <= freq / FREQ_ONE_MHZ - n / FREQ_ONE_MHZ <= 4512
  {
  }

  /** The plan asks for an LO between 600 and 4512 MHz, the IF away from the request. */
  lemma PlannedLo(freq: nat)
    requires MhzFits(freq) && BandOf(freq) in {LowPass, HighPass}
    ensures var n, lo := NominalHz(freq), LoMhz(freq);
            && 600 <= lo <= 4512
            && lo == if BandOf(freq) == LowPass then n / FREQ_ONE_MHZ + freq / FREQ_ONE_MHZ
               else freq / FREQ_ONE_MHZ - n / FREQ_ONE_MHZ
  {
    Graduated(freq);
    InRange(freq);
    hide NominalHz, BandOf, FreqMhz, Grade;
    if freq < 2_150_000_000 {
      LowPassLo(freq, NominalHz(freq));
    } else {
      HighPassLo(freq, NominalHz(freq));
    }
  }

  /** How far the IF, the distance from an LO near the plan, can be from the planned one. */
  lemma NearPlan(freq: nat, n: nat, lo: nat)
    requires 2_150_000_000 <= n <= 2_750_000_000
    ensures var above := (n / FREQ_ONE_MHZ + freq / FREQ_ONE_MHZ) * FREQ_ONE_MHZ;
            above - 12 <= lo <= above ==> -2_000_012 < lo - freq - n <= 0
    ensures var below := (freq / FREQ_ONE_MHZ - n / FREQ_ONE_MHZ) * FREQ_ONE_MHZ;
            below - 12 <= lo <= below ==> -1_000_000 < freq - lo - n < 1_000_012
  {
  }

  lemma ExplicitLo(loFreqHz: nat)
    requires MIN_LO_FREQ_HZ <= loFreqHz <= MAX_LO_FREQ_HZ
    ensures var mhz := loFreqHz / FREQ_ONE_MHZ;
            84 <= mhz <= R.LO_MAX && mhz % U16 == mhz && (85 <= mhz <==> loFreqHz >= 85_000_000)
  {
  }

  /** The frequencies above 7250 MHz that set_freq takes for good ones are those whose whole megahertz
      overflow 32 bits into the range. */
  lemma AcceptedTooHigh(freq: nat)
    ensures BandOf(freq) != TooHigh && freq / FREQ_ONE_MHZ > MAX_HP_FREQ_MHZ
            <==> !MhzFits(freq) && freq / FREQ_ONE_MHZ % U32 <= MAX_HP_FREQ_MHZ
  {
  }

  /** A request of the host for 4294967295 MHz and 1000000 Hz is taken for one in the low-pass band. */
  lemma FarTooHighAccepted()
    ensures var freq := 4_294_967_295 * FREQ_ONE_MHZ + 1_000_000;
            freq < U64 && BandOf(freq) == LowPass && freq / FREQ_ONE_MHZ > MAX_HP_FREQ_MHZ && LoMhz(freq) != 0
  {
    var freq := 4_294_967_295 * FREQ_ONE_MHZ + 1_000_000;
    Quotient(freq, U32, 0, FREQ_ONE_MHZ);
    Quotient(U32, 1, 0, U32);
  }

  /** The lowest LO of an explicit plan, 84.375 MHz, is cut to 84, and the VCO is too slow. */
  lemma LowestExplicitLo(n: nat)
    requires R.Divides(R.LO_MAX / (MIN_LO_FREQ_HZ / FREQ_ONE_MHZ), n)
    ensures n == 5 && Two(n) * (MIN_LO_FREQ_HZ / FREQ_ONE_MHZ) == 2688 < R.LO_MAX / 2
  {
    R.SmallPowers();
  }

  /** The difference survives although the LO is cut to 32 bits. */
  lemma DifferenceSurvives(lo: nat, freq: nat, diff: int)
    requires diff == lo - freq || diff == freq - lo
    requires 0 <= diff < U32
    ensures diff == lo - freq ==> (lo % U32 - freq) % U64 % U32 == diff
    ensures diff == freq - lo ==> (freq - lo % U32) % U64 % U32 == diff
  {
    assert lo == U32 * (lo / U32) + lo % U32;
  }

  lemma Times(d: int, x: int, y: int)
    requires d >= 1
    ensures d * (x + y) == d * x + d * y && d * (x - y) == d * x - d * y
    ensures x <= y ==> d * x <= d * y
    ensures x < y ==> d * x < d * y
  {
    if x < y {
      assert d * y == d * x + d * (y - x);
      OneTimes(d, y - x);
    }
  }

  /** The LO is top over d * 2^24 hertz, cut to lo. If the mixer was asked for its distance to a request
      below, and tuned over 2^20 is what it was tuned to, this is how far the request is from what is received. */
  lemma ReceivedBelow(top: int, d: int, lo: int, tuned: int, freq: int)
    requires d >= 1 && d * (SCALE * lo) <= top < d * (SCALE * (lo + 1))
    requires 0x10_0000 * (lo - freq - 35) <= tuned < 0x10_0000 * (lo - freq + 7)
    ensures d * (SCALE * (freq - 7)) < top - d * (16 * tuned) < d * (SCALE * (freq + 36))
  {
    var w := SCALE * lo - 16 * tuned;
    Times(d, SCALE * lo, 16 * tuned);
    Times(d, SCALE * lo, SCALE);
    Times(d, SCALE * (freq - 7), w);
    Times(d, w, SCALE * (freq + 35));
    Times(d, SCALE * (freq + 35), SCALE);
  }

  /** The same for a request above the LO. */
  lemma ReceivedAbove(top: int, d: int, lo: int, tuned: int, freq: int)
    requires d >= 1 && d * (SCALE * lo) <= top < d * (SCALE * (lo + 1))
    requires 0x10_0000 * (freq - lo - 35) <= tuned < 0x10_0000 * (freq - lo + 7)
    ensures d * (SCALE * (freq - 35)) <= top + d * (16 * tuned) < d * (SCALE * (freq + 8))
  {
    var w := SCALE * lo + 16 * tuned;
    Times(d, SCALE * lo, 16 * tuned);
    Times(d, SCALE * lo, SCALE);
    Times(d, SCALE * (freq - 35), w);
    Times(d, w, SCALE * (freq + 7));
    Times(d, SCALE * (freq + 7), SCALE);
  }

  /** And without the LO. */
  lemma ReceivedAt(d: int, tuned: int, freq: int)
    requires d >= 1 && 0x10_0000 * (freq - 35) <= tuned < 0x10_0000 * (freq + 7)
    ensures d * (SCALE * (freq - 35)) <= d * (16 * tuned) < d * (SCALE * (freq + 7))
  {
    Times(d, SCALE * (freq - 35), 16 * tuned);
    Times(d, 16 * tuned, SCALE * (freq + 7));
  }

  class Tuner {
    const synth: R.Synth
    const mixer: M.Mixer
    var filter: nat
    var qInvert: bool
    var nominalHz: nat
    var freqCache: nat

    constructor (synth: R.Synth, mixer: M.Mixer)
      ensures this.synth == synth && this.mixer == mixer
    {
      this.synth, this.mixer := synth, mixer;
      filter, qInvert, nominalHz, freqCache := RF_PATH_FILTER_BYPASS, false, 2_560_000_000, 100_000_000;
    }

    /** The frequency received by the fields of both synthesizers, scaled by 2^24 times the LO divider. */
    ghost function Received(): int
      reads this, synth, mixer
    {
      var mixed := Two(synth.p2lodiv) * (16 * mixer.Tuned());
      if filter == RF_PATH_FILTER_BYPASS then mixed
      else if qInvert then synth.LoTop() - mixed
      else synth.LoTop() + mixed
    }

    ghost function Scaled(hz: int): int
      reads synth
    {
      Two(synth.p2lodiv) * (SCALE * hz)
    }

    /** The LO is as planned and the mixer is asked for exactly the distance from it to the request, which
        is within 2 MHz, and the rounding of the LO, of the planned IF. */
    ghost predicate Planned(freq: nat)
      reads this, synth, mixer
    {
      var lo := synth.LoHz();
      && LoMhz(freq) * FREQ_ONE_MHZ - 12 <= lo <= LoMhz(freq) * FREQ_ONE_MHZ
      && R.LO_MAX / 2 < Two(synth.p2lodiv) * LoMhz(freq) <= R.LO_MAX
      && mixer.requested == (if qInvert then lo - freq else freq - lo)
      && nominalHz == NominalHz(freq)
      && (qInvert ==> -2_000_012 < mixer.requested - nominalHz <= 0)
      && (!qInvert ==> -1_000_000 < mixer.requested - nominalHz < 1_000_012)
    }

    method TuneLowPass(freq: nat)
      requires BandOf(freq) == LowPass && freq < U64 && LoMhz(freq) != 0
      modifies `filter, `qInvert, `nominalHz, synth, mixer
      ensures filter == RF_PATH_FILTER_LOW_PASS && qInvert && mixer.tunedIn == mixer.mode == old(mixer.mode)
      ensures MhzFits(freq) ==> Planned(freq)
      ensures synth.FieldsFit() && mixer.FieldsFit()
      ensures 0x10_0000 * (mixer.requested - 35) <= mixer.Tuned() < 0x10_0000 * (mixer.requested + 7)
    {
      LowPassNominal(freq);
      hide R.Hertz, Two, NominalHz;
      filter := RF_PATH_FILTER_LOW_PASS;
      nominalHz := (2_650_000_000 - freq / 7) % U32;
      var loMhz := (nominalHz / FREQ_ONE_MHZ + freq / FREQ_ONE_MHZ % U32) % U16;
      var realHz := synth.SetFrequency(loMhz);
      if MhzFits(freq) {
        PlannedLo(freq);
        Graduated(freq);
        NearPlan(freq, nominalHz, synth.LoHz());
        DifferenceSurvives(synth.LoHz(), freq, synth.LoHz() - freq);
      }
      mixer.SetFrequency((realHz - freq) % U64 % U32);
      qInvert := true;
    }

    method TuneBypass(freq: nat)
      requires BandOf(freq) == Bypass
      modifies `filter, `qInvert, mixer
      ensures filter == RF_PATH_FILTER_BYPASS && !qInvert && mixer.tunedIn == mixer.mode == old(mixer.mode)
      ensures MhzFits(freq) ==> mixer.requested == freq
      ensures mixer.FieldsFit()
      ensures 0x10_0000 * (mixer.requested - 35) <= mixer.Tuned() < 0x10_0000 * (mixer.requested + 7)
    {
      filter := RF_PATH_FILTER_BYPASS;
      var freqHz := freq % FREQ_ONE_MHZ;
      mixer.SetFrequency((freq / FREQ_ONE_MHZ % U32 * FREQ_ONE_MHZ + freqHz) % U32);
      qInvert := false;
    }

    /** The graduation by thirds of the band: in range it does not wrap. */
    static method HighPassNominal(freq: nat) returns (nominalHz: nat)
      requires BandOf(freq) == HighPass
      ensures nominalHz == NominalHz(freq)
      ensures MhzFits(freq) ==> nominalHz == Grade(freq) && 2_150_000_000 <= nominalHz <= 2_750_000_000
    {
      if MhzFits(freq) {
        Graduated(freq);
      }
      var freqMhz := freq / FREQ_ONE_MHZ % U32;
      if freqMhz < MID1_HP_FREQ_MHZ {
        nominalHz := (2_150_000_000 + (freq - 2_750_000_000) * 60 % U64 / 85) % U32;
      } else if freqMhz < MID2_HP_FREQ_MHZ {
        nominalHz := (2_350_000_000 + (freq - 3_600_000_000) / 5) % U32;
      } else {
        nominalHz := (2_500_000_000 + (freq - 5_100_000_000) / 9) % U32;
      }
    }

    method TuneHighPass(freq: nat)
      requires BandOf(freq) == HighPass && freq < U64 && LoMhz(freq) != 0
      modifies `filter, `qInvert, `nominalHz, synth, mixer
      ensures filter == RF_PATH_FILTER_HIGH_PASS && !qInvert && mixer.tunedIn == mixer.mode == old(mixer.mode)
      ensures MhzFits(freq) ==> Planned(freq)
      ensures synth.FieldsFit() && mixer.FieldsFit()
      ensures 0x10_0000 * (mixer.requested - 35) <= mixer.Tuned() < 0x10_0000 * (mixer.requested + 7)
    {
      hide R.Hertz, Two, NominalHz;
      nominalHz := HighPassNominal(freq);
      filter := RF_PATH_FILTER_HIGH_PASS;
      var realHz := synth.SetFrequency((freq / FREQ_ONE_MHZ % U32 - nominalHz / FREQ_ONE_MHZ) % U16);
      if MhzFits(freq) {
        PlannedLo(freq);
        Graduated(freq);
        NearPlan(freq, nominalHz, synth.LoHz());
        DifferenceSurvives(synth.LoHz(), freq, freq - synth.LoHz());
      }
      mixer.SetFrequency((freq - realHz) % U64 % U32);
      qInvert := false;
    }

    /** Success iff the whole megahertz, cut to 32 bits, are at most 7250. Then, unless the cut changed
        them, the frequency received is less than 36 Hz from the request. The request must not make the
        synthesizer divide by zero, which it does not if its megahertz fit (PlannedLo). */
    method SetFreq(freq: nat) returns (success: bool)
      requires freq < U64 && (BandOf(freq) in {LowPass, HighPass} ==> LoMhz(freq) != 0)
      modifies this, synth, mixer
      ensures success <==> freq / FREQ_ONE_MHZ % U32 <= MAX_HP_FREQ_MHZ
      ensures mixer.mode == old(mixer.mode) && freqCache == if success then freq else old(freqCache)
      ensures success ==> mixer.tunedIn == M.Standby
      ensures success ==> filter == match BandOf(freq)
                                    case LowPass => RF_PATH_FILTER_LOW_PASS
                                    case Bypass => RF_PATH_FILTER_BYPASS
                                    case _ => RF_PATH_FILTER_HIGH_PASS
      ensures success && MhzFits(freq) ==>
                && (BandOf(freq) == Bypass || Planned(freq))
                && (match BandOf(freq)
                    case LowPass => Scaled(freq - 7) < Received() < Scaled(freq + 36)
                    case Bypass => Scaled(freq - 35) <= Received() < Scaled(freq + 7)
                    case _ => Scaled(freq - 35) <= Received() < Scaled(freq + 8))
      ensures !success ==> unchanged(synth) && (filter, qInvert, nominalHz) == old((filter, qInvert, nominalHz))
    {
      hide NominalHz, LoMhz, R.Hertz, R.HertzTop, Two;
      var priorMode := mixer.mode;
      mixer.mode := M.Standby;
      success := true;
      match BandOf(freq) {
        case LowPass => TuneLowPass(freq);
        case Bypass => TuneBypass(freq);
        case HighPass => TuneHighPass(freq);
        case TooHigh => success := false;
      }
      mixer.mode := priorMode;
      if success && MhzFits(freq) {
        synth.LoIsCut();
        if BandOf(freq) == LowPass {
          ReceivedBelow(synth.LoTop(), Two(synth.p2lodiv), synth.LoHz(), mixer.Tuned(), freq);
        } else if BandOf(freq) == Bypass {
          ReceivedAt(Two(synth.p2lodiv), mixer.Tuned(), freq);
        } else {
          ReceivedAbove(synth.LoTop(), Two(synth.p2lodiv), synth.LoHz(), mixer.Tuned(), freq);
        }
      }
      if success {
        freqCache := freq;
      }
    }

    /** An explicit plan is taken iff both frequencies are in range. The LO range begins at 84.375 MHz, yet
        the LO is cut to whole megahertz: the VCO is in its octave iff the LO is at least 85 MHz. */
    method SetFreqExplicit(ifFreqHz: nat, loFreqHz: nat, path: nat) returns (ok: bool)
      requires ifFreqHz < U64 && loFreqHz < U64
      modifies this, synth, mixer
      ensures ok <==> && MIN_BYPASS_FREQ_MHZ * FREQ_ONE_MHZ <= ifFreqHz <= MAX_BYPASS_FREQ_MHZ * FREQ_ONE_MHZ
                      && (path == RF_PATH_FILTER_BYPASS || MIN_LO_FREQ_HZ <= loFreqHz <= MAX_LO_FREQ_HZ)
                      && path <= 2
      ensures ok ==> filter == path && mixer.requested == ifFreqHz && qInvert == (loFreqHz > ifFreqHz)
      ensures ok && path != RF_PATH_FILTER_BYPASS ==>
                var mhz := loFreqHz / FREQ_ONE_MHZ;
                && mhz * FREQ_ONE_MHZ - 12 <= synth.LoHz() <= mhz * FREQ_ONE_MHZ
                && (R.LO_MAX / 2 < Two(synth.p2lodiv) * mhz <= R.LO_MAX <==> loFreqHz >= 85_000_000)
      ensures !ok ==> unchanged(this) && unchanged(synth) && unchanged(mixer)
    {
      if ifFreqHz < MIN_BYPASS_FREQ_MHZ * FREQ_ONE_MHZ || ifFreqHz > MAX_BYPASS_FREQ_MHZ * FREQ_ONE_MHZ {
        return false;
      }
      if path != RF_PATH_FILTER_BYPASS && (loFreqHz < MIN_LO_FREQ_HZ || loFreqHz > MAX_LO_FREQ_HZ) {
        return false;
      }
      if path > 2 {
        return false;
      }
      SetExplicit(ifFreqHz, loFreqHz, path);
      return true;
    }

    method SetExplicit(ifFreqHz: nat, loFreqHz: nat, path: nat)
      requires ifFreqHz < U32 && (path != RF_PATH_FILTER_BYPASS ==> MIN_LO_FREQ_HZ <= loFreqHz <= MAX_LO_FREQ_HZ)
      modifies `filter, `qInvert, synth, mixer
      ensures filter == path && mixer.requested == ifFreqHz && qInvert == (loFreqHz > ifFreqHz)
      ensures path != RF_PATH_FILTER_BYPASS ==>
                var mhz := loFreqHz / FREQ_ONE_MHZ;
                && mhz * FREQ_ONE_MHZ - 12 <= synth.LoHz() <= mhz * FREQ_ONE_MHZ
                && (R.LO_MAX / 2 < Two(synth.p2lodiv) * mhz <= R.LO_MAX <==> loFreqHz >= 85_000_000)
    {
      hide R.Hertz, Two, R.HertzTop;
      filter := path;
      mixer.SetFrequency(ifFreqHz % U32);
      qInvert := loFreqHz > ifFreqHz;
      if path != RF_PATH_FILTER_BYPASS {
        ExplicitLo(loFreqHz);
        var _ := synth.SetFrequency(loFreqHz / FREQ_ONE_MHZ % U16);
      }
    }
  }
}
