/** The frequency sweep: planning and output (host/hackrf-tools/src/hackrf_sweep.c), the request
    (host/libhackrf/src/hackrf.c) and the stepping (firmware/hackrf_usb/usb_api_sweep.c). */
module SweepPlan {

  import opened Division
  import T = Tuning

  const ONE_MHZ := 1_000_000
  const TUNE_STEP := 20
  const OFFSET := 7_500_000
  const FREQ_MAX_MHZ := 7250
  const DEFAULT_SAMPLE_RATE_HZ := 20_000_000

  /** Pairs of whole megahertz, each a range of at least one tuning step. */
  ghost predicate Planned(fs: seq<nat>) {
    |fs| % 2 == 0 && forall r: nat :: 2 * r + 1 < |fs| ==>
      Steps(fs, r) >= 1 && fs[2 * r + 1] == fs[2 * r] + TUNE_STEP * Steps(fs, r)
  }

  function Steps(fs: seq<nat>, r: nat): int
    requires 2 * r + 1 < |fs|
  {
    (fs[2 * r + 1] - fs[2 * r]) / TUNE_STEP
  }

  /** Planning extends each range to the least whole number of steps that covers it. */
  method Plan(frequencies: array<nat>, numRanges: nat)
    requires 2 * numRanges <= frequencies.Length
    requires forall r: nat :: 2 * r + 1 < 2 * numRanges ==> frequencies[2 * r] < frequencies[2 * r + 1]
    modifies frequencies
    ensures Planned(frequencies[..2 * numRanges])
    ensures forall r: nat :: 2 * r + 1 < 2 * numRanges ==>
              && frequencies[2 * r] == old(frequencies[2 * r])
              && frequencies[2 * r + 1] - TUNE_STEP < old(frequencies[2 * r + 1]) <= frequencies[2 * r + 1]
    ensures forall k :: 2 * numRanges <= k < frequencies.Length ==> frequencies[k] == old(frequencies[k])
  {
    for i := 0 to numRanges
      invariant forall r: nat :: 2 * r + 1 < 2 * numRanges ==> frequencies[2 * r] == old(frequencies[2 * r])
      invariant forall r: nat :: r < i ==>
                frequencies[2 * r + 1] - TUNE_STEP < old(frequencies[2 * r + 1]) <= frequencies[2 * r + 1]
      invariant forall r: nat :: r < i ==>
                frequencies[2 * r] < frequencies[2 * r + 1]
                  && (frequencies[2 * r + 1] - frequencies[2 * r]) % TUNE_STEP == 0
      invariant forall r: nat :: i <= r && 2 * r + 1 < 2 * numRanges ==>
                frequencies[2 * r + 1] == old(frequencies[2 * r + 1])
      invariant forall k :: 2 * numRanges <= k < frequencies.Length ==> frequencies[k] == old(frequencies[k])
    {
      var stepCount := 1 + (frequencies[2 * i + 1] - frequencies[2 * i] - 1) / TUNE_STEP;
      frequencies[2 * i + 1] := frequencies[2 * i] + stepCount * TUNE_STEP;
    }
  }

  /** The tunings of the first k steps from f0 MHz on: each step is visited at its start and a quarter in. */
  function Tunings(f0: nat, k: nat): (ts: seq<nat>)
    ensures |ts| == 2 * k
  {
    if k == 0 then []
    else
      var at := f0 * ONE_MHZ + (k - 1) * DEFAULT_SAMPLE_RATE_HZ;
      Tunings(f0, k - 1) + [at, at + DEFAULT_SAMPLE_RATE_HZ / 4]
  }

  lemma {:induction false} TuningsAt(f0: nat, k: nat, j: nat)
    requires j < k
    ensures Tunings(f0, k)[2 * j] == f0 * ONE_MHZ + j * DEFAULT_SAMPLE_RATE_HZ
    ensures Tunings(f0, k)[2 * j + 1] == f0 * ONE_MHZ + j * DEFAULT_SAMPLE_RATE_HZ + DEFAULT_SAMPLE_RATE_HZ / 4
  {
    if j < k - 1 {
      TuningsAt(f0, k - 1, j);
    }
  }

  /** The two bands that the host prints for a tuning. */
  predicate Printed(tuning: nat, x: nat) {
    var q := DEFAULT_SAMPLE_RATE_HZ / 4;
    tuning <= x < tuning + q || tuning + 2 * q <= x < tuning + 3 * q
  }

  /** The quarter step in which a frequency falls. */
  function Quarter(f0: nat, x: nat): int {
    (x - f0 * ONE_MHZ) / (DEFAULT_SAMPLE_RATE_HZ / 4)
  }

  /** The tuning of a range in whose bands a frequency falls. */
  function WhichTuning(f0: nat, x: nat): int
  {
    var m := Quarter(f0, x);
    2 * (m / 4) + m % 2
  }

  /** The bands tile the range: every frequency in it is printed for exactly one tuning, every frequency
      outside for none. */
  lemma BandsTile(f0: nat, k: nat, x: nat, i: nat)
    requires i < 2 * k
    ensures Printed(Tunings(f0, k)[i], x)
            <==> f0 * ONE_MHZ <= x < (f0 + TUNE_STEP * k) * ONE_MHZ && i == WhichTuning(f0, x)
  {
    hide Printed, Quarter, Tunings;
    var j, h := i / 2, i % 2;
    TuningsAt(f0, k, j);
    PrintedQuarters(f0, x, j, h);
    QuartersOfRange(f0, k, x);
    assert i == 2 * j + h;
    QuarterIndex(j, h, Quarter(f0, x));
  }

  lemma QuarterIndex(j: nat, h: nat, m: int)
    requires h < 2
    ensures 2 * j + h == 2 * (m / 4) + m % 2 <==> m == 4 * j + h || m == 4 * j + h + 2
  {
    var a, b := m / 4, m % 4;
    Quotient(m, 2 * a + b / 2, b % 2, 2);
  }

  lemma PrintedQuarters(f0: nat, x: nat, j: nat, h: nat)
    requires h < 2
    ensures Printed(f0 * ONE_MHZ + j * DEFAULT_SAMPLE_RATE_HZ + h * (DEFAULT_SAMPLE_RATE_HZ / 4), x)
            <==> Quarter(f0, x) == 4 * j + h || Quarter(f0, x) == 4 * j + h + 2
  {
    var d, m, n := x - f0 * ONE_MHZ, Quarter(f0, x), 4 * j + h;
    assert 5_000_000 * m <= d < 5_000_000 * m + 5_000_000;
    assert 5_000_000 * n <= d < 5_000_000 * n + 5_000_000 <==> m == n;
    assert 5_000_000 * (n + 2) <= d < 5_000_000 * (n + 2) + 5_000_000 <==> m == n + 2;
  }

  lemma QuartersOfRange(f0: nat, k: nat, x: nat)
    ensures f0 * ONE_MHZ <= x < (f0 + TUNE_STEP * k) * ONE_MHZ <==> 0 <= Quarter(f0, x) < 4 * k
  {
  }

  lemma WhichTuningInRange(f0: nat, k: nat, x: nat)
    requires f0 * ONE_MHZ <= x < (f0 + TUNE_STEP * k) * ONE_MHZ
    ensures 0 <= WhichTuning(f0, x) < 2 * k
  {
    QuartersOfRange(f0, k, x);
    hide Quarter;
  }

  /** The output, which drops tunings above 7250 MHz, covers a planned range iff it ends by 7265 MHz. */
  lemma OutputTiles(f0: nat, k: nat)
    requires k >= 1
    ensures (forall x {:trigger Quarter(f0, x)} :: f0 * ONE_MHZ <= x < (f0 + TUNE_STEP * k) * ONE_MHZ ==>
               Tunings(f0, k)[InTurn(f0, k, x)] <= FREQ_MAX_MHZ * ONE_MHZ)
            <==> f0 + TUNE_STEP * k <= 7265
  {
    var last := LastTuning(f0, k);
    LastIsHighest(f0, k, 0);
    LastQuarter(f0, k);
    hide Quarter, Tunings, LastTuning;
    forall x | f0 * ONE_MHZ <= x < (f0 + TUNE_STEP * k) * ONE_MHZ
      ensures Tunings(f0, k)[InTurn(f0, k, x)] <= last
    {
      LastIsHighest(f0, k, InTurn(f0, k, x));
    }
  }

  function LastTuning(f0: nat, k: nat): int {
    f0 * ONE_MHZ + (k - 1) * DEFAULT_SAMPLE_RATE_HZ + DEFAULT_SAMPLE_RATE_HZ / 4
  }

  lemma LastIsHighest(f0: nat, k: nat, i: nat)
    requires i < 2 * k
    ensures Tunings(f0, k)[i] <= Tunings(f0, k)[2 * k - 1] == LastTuning(f0, k)
    ensures LastTuning(f0, k) <= FREQ_MAX_MHZ * ONE_MHZ <==> f0 + TUNE_STEP * k <= 7265
    ensures LastTuning(f0, k) + OFFSET < 7_251_000_000 <==> f0 + TUNE_STEP * k <= 7258
  {
    TuningsAt(f0, k, i / 2);
    TuningsAt(f0, k, k - 1);
  }

  lemma LastQuarter(f0: nat, k: nat)
    requires k >= 1
    ensures var x := LastTuning(f0, k);
            f0 * ONE_MHZ <= x < (f0 + TUNE_STEP * k) * ONE_MHZ && WhichTuning(f0, x) == 2 * k - 1
  {
    var m := 4 * (k - 1) + 1;
    Quotient(LastTuning(f0, k) - f0 * ONE_MHZ, m, 0, DEFAULT_SAMPLE_RATE_HZ / 4);
    assert Quarter(f0, LastTuning(f0, k)) == m;
    QuarterIndex(k - 1, 1, 4 * (k - 1) + 1);
  }

  /** The tuning that prints a frequency of the range. */
  function InTurn(f0: nat, k: nat, x: nat): (i: nat)
    ensures f0 * ONE_MHZ <= x < (f0 + TUNE_STEP * k) * ONE_MHZ ==> i < 2 * k && Printed(Tunings(f0, k)[i], x)
  {
    if f0 * ONE_MHZ <= x < (f0 + TUNE_STEP * k) * ONE_MHZ then
      WhichTuningInRange(f0, k, x);
      BandsTile(f0, k, x, WhichTuning(f0, x));
      WhichTuning(f0, x)
    else 0
  }

  /** The receiver follows every tuning of a planned range iff the range ends by 7258 MHz: above, the
      offset makes set_freq refuse. */
  lemma TunerFollows(f0: nat, k: nat)
    requires 1 <= k && f0 + TUNE_STEP * k < 0x1_0000
    ensures (forall i :: 0 <= i < 2 * k ==> T.BandOf(Tunings(f0, k)[i] + OFFSET) != T.TooHigh)
            <==> f0 + TUNE_STEP * k <= 7258
  {
    var ts := Tunings(f0, k);
    LastIsHighest(f0, k, 2 * k - 1);
    Refused(ts[2 * k - 1] + OFFSET);
    hide Tunings, LastTuning, T.BandOf;
    forall i | 0 <= i < 2 * k
      ensures ts[i] <= ts[2 * k - 1]
      ensures T.BandOf(ts[i] + OFFSET) == T.TooHigh <==> ts[i] + OFFSET >= 7_251_000_000
    {
      LastIsHighest(f0, k, i);
      Refused(ts[i] + OFFSET);
    }
  }

  lemma Refused(freq: nat)
    requires freq < 0x1_0000_0000 * ONE_MHZ
    ensures T.BandOf(freq) == T.TooHigh <==> freq >= 7_251_000_000
  {
  }

  /** The range from 7249 to 7250 MHz is planned up to 7269: the receiver follows neither tuning, and the
      output drops the second. */
  lemma HighestRange()
    ensures var ts := Tunings(FREQ_MAX_MHZ - 1, 1);
            && ts[0] == 7_249_000_000 && ts[1] == 7_254_000_000 > FREQ_MAX_MHZ * ONE_MHZ
            && T.BandOf(ts[0] + OFFSET) == T.BandOf(ts[1] + OFFSET) == T.TooHigh
            && (forall i :: 0 <= i < 2 ==> (Printed(ts[i], 7_254_000_000) <==> i == 1))
  {
    TuningsAt(FREQ_MAX_MHZ - 1, 1, 0);
  }
}

/** The request that starts a sweep, on the wire. */
module SweepRequest {

  import opened Division

  const SAMPLES_PER_BLOCK := 0x4000
  const MAX_RANGES := 10
  const LINEAR := 0
  const INTERLEAVED := 1

  datatype Parameters = Parameters(frequencies: seq<nat>, numSamples: nat, stepWidth: nat, offset: nat, style: nat)

  /** A control transfer: two 16-bit fields and the data. */
  datatype Transfer = Transfer(value: nat, index: nat, data: seq<nat>)

  datatype Sent = InvalidParam | Sent(transfer: Transfer)

  datatype Status = Ok | Stall

  predicate Sendable(p: Parameters) {
    && |p.frequencies| % 2 == 0 && 1 <= |p.frequencies| / 2 <= MAX_RANGES
    && p.numSamples % SAMPLES_PER_BLOCK == 0 && p.numSamples >= SAMPLES_PER_BLOCK
    && p.stepWidth >= 1 && p.style <= INTERLEAVED
  }

  /** The parameters fit the widths of their types. */
  predicate InWidth(p: Parameters) {
    && p.numSamples < 0x1_0000_0000 && p.stepWidth < 0x1_0000_0000 && p.offset < 0x1_0000_0000
    && forall i :: 0 <= i < |p.frequencies| ==> p.frequencies[i] < 0x1_0000
  }

  function Byte0(n: nat): nat { n % 0x100 }
  function Byte1(n: nat): nat { n / 0x100 % 0x100 }
  function Byte2(n: nat): nat { n / 0x1_0000 % 0x100 }
  function Byte3(n: nat): nat { n / 0x100_0000 % 0x100 }

  function Word32(b0: nat, b1: nat, b2: nat, b3: nat): nat {
    b3 * 0x100_0000 + b2 * 0x1_0000 + b1 * 0x100 + b0
  }

  lemma Word32Survives(n: nat)
    requires n < 0x1_0000_0000
    ensures Word32(Byte0(n), Byte1(n), Byte2(n), Byte3(n)) == n
    ensures Byte0(n) + 0x100 * Byte1(n) + 0x1_0000 * Byte2(n) + 0x100_0000 * Byte3(n) == n
    ensures Byte0(n) < 0x100 && Byte1(n) < 0x100 && Byte2(n) < 0x100 && Byte3(n) < 0x100
    ensures n % 0x1_0000 + n / 0x1_0000 % 0x1_0000 * 0x1_0000 == n
  {
    var n1, b0 := n / 0x100, n % 0x100;
    var n2, b1 := n1 / 0x100, n1 % 0x100;
    var n3, b2 := n2 / 0x100, n2 % 0x100;
    Quotient(n, n2, b1 * 0x100 + b0, 0x1_0000);
    Quotient(n, n3, b2 * 0x1_0000 + b1 * 0x100 + b0, 0x100_0000);
    Quotient(n3, 0, n3, 0x100);
    Quotient(n2, 0, n2, 0x1_0000);
  }

  /** The data of the request. */
  ghost predicate IsWire(data: seq<nat>, p: Parameters) {
    && |data| == 9 + 2 * |p.frequencies|
    && data[0] == Byte0(p.stepWidth) && data[1] == Byte1(p.stepWidth)
    && data[2] == Byte2(p.stepWidth) && data[3] == Byte3(p.stepWidth)
    && data[4] == Byte0(p.offset) && data[5] == Byte1(p.offset)
    && data[6] == Byte2(p.offset) && data[7] == Byte3(p.offset)
    && data[8] == p.style
    && forall i :: 0 <= i < |p.frequencies| ==>
         data[9 + 2 * i] == Byte0(p.frequencies[i]) && data[10 + 2 * i] == Byte1(p.frequencies[i])
  }

  /** The host side: the parameters are checked and packed. */
  method Pack(p: Parameters) returns (r: Sent)
    requires |p.frequencies| % 2 == 0
    ensures r.Sent? <==> Sendable(p)
    ensures r.Sent? ==> && IsWire(r.transfer.data, p)
                        && r.transfer.value == p.numSamples % 0x1_0000
                        && r.transfer.index == p.numSamples / 0x1_0000 % 0x1_0000
  {
    var numRanges := |p.frequencies| / 2;
    if numRanges < 1 || numRanges > MAX_RANGES {
      return InvalidParam;
    }
    if p.numSamples % SAMPLES_PER_BLOCK != 0 || SAMPLES_PER_BLOCK > p.numSamples {
      return InvalidParam;
    }
    if 1 > p.stepWidth || INTERLEAVED < p.style {
      return InvalidParam;
    }
    var data := new nat[9 + numRanges * 4](_ => 0);
    data[0], data[1], data[2], data[3] :=
      Byte0(p.stepWidth), Byte1(p.stepWidth), Byte2(p.stepWidth), Byte3(p.stepWidth);
    data[4], data[5], data[6], data[7] := Byte0(p.offset), Byte1(p.offset), Byte2(p.offset), Byte3(p.offset);
    data[8] := p.style;
    PackFrequencies(data, p.frequencies);
    return Sent(Transfer(p.numSamples % 0x1_0000, p.numSamples / 0x1_0000 % 0x1_0000, data[..]));
  }

  method PackFrequencies(data: array<nat>, frequencies: seq<nat>)
    requires data.Length == 9 + 2 * |frequencies|
    modifies data
    ensures forall k :: 0 <= k < 9 ==> data[k] == old(data[k])
    ensures forall i :: 0 <= i < |frequencies| ==>
              data[9 + 2 * i] == Byte0(frequencies[i]) && data[10 + 2 * i] == Byte1(frequencies[i])
  {
    hide Byte0, Byte1;
    for i := 0 to |frequencies|
      invariant forall k :: 0 <= k < 9 ==> data[k] == old(data[k])
      invariant forall j :: 0 <= j < i ==>
                  data[9 + 2 * j] == Byte0(frequencies[j]) && data[10 + 2 * j] == Byte1(frequencies[j])
    {
      data[9 + i * 2] := Byte0(frequencies[i]);
      data[10 + i * 2] := Byte1(frequencies[i]);
    }
  }
}

/** The firmware: decoding the request, and stepping through the ranges. */
module SweepMode {

  import opened Division
  import opened SweepDwell
  import opened SweepPlan
  import opened SweepRequest

  /** The tunings of a range, in either style. */
  function Visits(style: nat, f0: nat, k: nat): (ts: seq<nat>)
    ensures |ts| == if style == INTERLEAVED then 2 * k else k
  {
    if style == INTERLEAVED then Tunings(f0, k)
    else seq(k, j requires 0 <= j < k => f0 * ONE_MHZ + j * DEFAULT_SAMPLE_RATE_HZ)
  }

  ghost function RangeVisits(style: nat, fs: seq<nat>, r: nat): (ts: seq<nat>)
    requires Planned(fs) && 2 * r + 1 < |fs|
    ensures |ts| > 0
  {
    Visits(style, fs[2 * r], Steps(fs, r))
  }

  /** The tunings of the first n ranges, one range after the other. */
  ghost function Round(style: nat, fs: seq<nat>, n: nat): (ts: seq<nat>)
    requires Planned(fs) && 2 * n <= |fs|
    ensures n > 0 ==> |ts| > 0
  {
    if n == 0 then [] else Round(style, fs, n - 1) + RangeVisits(style, fs, n - 1)
  }

  /** Where a range's tunings are in the round. */
  lemma {:induction false} PlaceInRound(style: nat, fs: seq<nat>, n: nat, r: nat, i: nat)
    requires Planned(fs) && 2 * n <= |fs| && r < n && i < |RangeVisits(style, fs, r)|
    ensures var at := |Round(style, fs, r)|;
            && at + |RangeVisits(style, fs, r)| == |Round(style, fs, r + 1)| <= |Round(style, fs, n)|
            && Round(style, fs, n)[at + i] == RangeVisits(style, fs, r)[i]
  {
    hide RangeVisits;
    if r < n - 1 {
      PlaceInRound(style, fs, n - 1, r, i);
    }
  }

  lemma NextInCycle(m: nat, l: nat)
    requires l > 0
    ensures (m + 1) % l == if m % l + 1 < l then m % l + 1 else 0
  {
    var q, r := m / l, m % l;
    assert m == l * q + r;
    if r + 1 < l {
      Quotient(m + 1, q, r + 1, l);
    } else {
      assert m + 1 == l * (q + 1);
      Quotient(m + 1, q + 1, 0, l);
    }
  }

  /** Where the stepping is: range r, step j of it, at its start or, not odd, a quarter in; place counts
      the tunings of the round before it. */
  ghost predicate At(style: nat, fs: seq<nat>, n: nat, r: nat, j: nat, odd: bool, freq: nat, place: nat) {
    && Planned(fs) && r < n && 2 * n <= |fs| && j < Steps(fs, r) && style <= INTERLEAVED
    && freq == fs[2 * r] * ONE_MHZ + j * DEFAULT_SAMPLE_RATE_HZ + (if odd then 0 else DEFAULT_SAMPLE_RATE_HZ / 4)
    && (style == LINEAR ==> odd)
    && place == |Round(style, fs, r)| + if style == LINEAR then j else if odd then 2 * j else 2 * j + 1
  }

  /** There, the frequency is the one that the round has in that place. */
  lemma AtVisits(style: nat, fs: seq<nat>, n: nat, r: nat, j: nat, odd: bool, freq: nat, place: nat)
    requires At(style, fs, n, r, j, odd, freq, place)
    ensures place < |Round(style, fs, n)| && Round(style, fs, n)[place] == freq
  {
    var i := place - |Round(style, fs, r)|;
    if style == INTERLEAVED {
      TuningsAt(fs[2 * r], Steps(fs, r), j);
    }
    PlaceInRound(style, fs, n, r, i);
  }

  /** The test for the end of a range succeeds at its last tuning. */
  lemma EndOfRange(style: nat, fs: seq<nat>, n: nat, r: nat, j: nat, odd: bool, freq: nat, place: nat)
    requires At(style, fs, n, r, j, odd, freq, place) && (style == LINEAR || !odd)
    ensures freq + DEFAULT_SAMPLE_RATE_HZ >= fs[1 + r * 2] * ONE_MHZ <==> j == Steps(fs, r) - 1
  {
    hide Round;
    var k := Steps(fs, r);
    assert fs[1 + r * 2] == fs[2 * r] + TUNE_STEP * k;
  }

  /** After the last tuning of a range comes the first of the next, cyclically. */
  lemma NextRange(style: nat, fs: seq<nat>, n: nat, r: nat, j: nat, odd: bool, freq: nat, place: nat)
    requires At(style, fs, n, r, j, odd, freq, place) && (style == LINEAR || !odd) && j == Steps(fs, r) - 1
    ensures var r' := (r + 1) % n;
            && 2 * r' < |fs|
            && At(style, fs, n, r', 0, true, fs[2 * r'] * ONE_MHZ,
                  if place + 1 < |Round(style, fs, n)| then place + 1 else 0)
  {
    Cyclic(r, n);
    LastOfRange(style, fs, n, r, j, odd, freq, place);
    assert Steps(fs, (r + 1) % n) >= 1;
    assert Round(style, fs, 0) == [];
    hide Steps, Round, Planned;
  }

  lemma Cyclic(r: nat, n: nat)
    requires r < n
    ensures (r + 1) % n == if r + 1 < n then r + 1 else 0
  {
  }

  lemma LastOfRange(style: nat, fs: seq<nat>, n: nat, r: nat, j: nat, odd: bool, freq: nat, place: nat)
    requires At(style, fs, n, r, j, odd, freq, place) && (style == LINEAR || !odd) && j == Steps(fs, r) - 1
    ensures place + 1 == |Round(style, fs, r + 1)|
    ensures r + 1 < n ==> place + 1 < |Round(style, fs, n)|
  {
    PlaceInRound(style, fs, n, r, 0);
    if r + 1 < n {
      PlaceInRound(style, fs, n, r + 1, 0);
    }
  }

  /** Within a range the next tuning is the next of the round. */
  lemma NextTuning(style: nat, fs: seq<nat>, n: nat, r: nat, j: nat, odd: bool, freq: nat, place: nat, j': nat,
                   odd': bool, freq': nat)
    requires At(style, fs, n, r, j, odd, freq, place)
    requires style == INTERLEAVED ==> odd' == !odd && j' == (if odd then j else j + 1)
                                      && freq' == freq + if odd then DEFAULT_SAMPLE_RATE_HZ / 4
                                         else 3 * DEFAULT_SAMPLE_RATE_HZ / 4
    requires style == LINEAR ==> odd' && j' == j + 1 && freq' == freq + DEFAULT_SAMPLE_RATE_HZ
    requires j' < Steps(fs, r)
    ensures At(style, fs, n, r, j', odd', freq', place + 1) && place + 1 < |Round(style, fs, n)|
  {
    AtVisits(style, fs, n, r, j', odd', freq', place + 1);
  }

  /** ts goes through the round again and again, and stands at place. */
  ghost predicate Repeats(ts: seq<nat>, round: seq<nat>, place: nat) {
    && |round| > 0 && |ts| > 0 && place == (|ts| - 1) % |round|
    && forall m {:trigger ts[m]} :: 0 <= m < |ts| ==> ts[m] == round[m % |round|]
  }

  lemma RepeatsOn(ts: seq<nat>, round: seq<nat>, place: nat, place': nat, freq: nat)
    requires Repeats(ts, round, place) && place' == (if place + 1 < |round| then place + 1 else 0)
             && freq == round[place']
    ensures Repeats(ts + [freq], round, place')
  {
    NextInCycle(|ts| - 1, |round|);
  }

  lemma Beginning(style: nat, fs: seq<nat>, n: nat, dwell: nat)
    requires Planned(fs) && 1 <= n && 2 * n <= |fs| && style <= INTERLEAVED
    ensures At(style, fs, n, 0, 0, true, fs[0] * ONE_MHZ, 0)
    ensures Repeats([fs[0] * ONE_MHZ], Round(style, fs, n), 0)
    ensures dwell >= 1 ==> Dwelt([0], [], dwell)
  {
    assert Steps(fs, 0) >= 1 && Round(style, fs, 0) == [];
    AtVisits(style, fs, n, 0, 0, true, fs[0] * ONE_MHZ, 0);
  }

  class Sweeper {
    const frequencies: array<nat>
    var numRanges: nat
    var dwellBlocks: nat
    var stepWidth: nat
    var offset: nat
    var style: nat
    var sweepFreq: nat
    var startSweepMode: bool

    /** The loop's own variables. */
    var blocksQueued: nat
    var phase: nat
    var odd: bool
    var range: nat

    /** The frequencies tuned to, in order, the blocks sent for each, and the passes of the loop. */
    ghost var tuned: seq<nat>
    /** What set_freq was asked for. */
    ghost var asked: seq<nat>
    ghost var blocks: seq<nat>
    ghost var passes: seq<Readings>

    /** The step of the range, and the place in the round. */
    ghost var step: nat
    ghost var place: nat

    constructor ()
      ensures frequencies.Length == 2 * MAX_RANGES && fresh(frequencies)
    {
      frequencies := new nat[2 * MAX_RANGES](_ => 0);
      numRanges, dwellBlocks, stepWidth, offset, style, sweepFreq, startSweepMode := 0, 0, 0, 0, LINEAR, 0, false;
      blocksQueued, phase, odd, range := 0, 1, true, 0;
      tuned, asked, blocks, passes, step, place := [], [], [], [], 0, 0;
    }

    ghost function Fs(): seq<nat>
      requires 2 * numRanges <= frequencies.Length
      reads this, frequencies
    {
      frequencies[..2 * numRanges]
    }

    /** The step width is the host tool's and the stepping is somewhere in the planned ranges. */
    ghost predicate Sweeping()
      reads this, frequencies
    {
      && 1 <= numRanges && 2 * numRanges <= frequencies.Length && stepWidth == DEFAULT_SAMPLE_RATE_HZ
      && At(style, Fs(), numRanges, range, step, odd, sweepFreq, place)
    }

    /** What was tuned to repeats the round, and the blocks are those that the passes leave. */
    ghost predicate History()
      requires Sweeping()
      reads this, frequencies
    {
      && Repeats(tuned, Round(style, Fs(), numRanges), place)
      && dwellBlocks >= 1 && |tuned| > 0 && After(passes, dwellBlocks) == Beat(blocksQueued, phase, |tuned| - 1)
      && Dwelt(blocks, passes, dwellBlocks)
    }

    /** Every tuning was asked for with the offset added. */
    ghost predicate Offset()
      reads `tuned, `asked, `offset
    {
      |asked| == |tuned| && forall m :: 0 <= m < |tuned| ==> asked[m] == tuned[m] + offset
    }

    /** sweep_mode begins with the first range. */
    method Begin()
      requires 1 <= numRanges && 2 * numRanges <= frequencies.Length && Planned(Fs()) && style <= INTERLEAVED
      requires stepWidth == DEFAULT_SAMPLE_RATE_HZ && sweepFreq == frequencies[0] * ONE_MHZ && dwellBlocks >= 1
      requires asked == [sweepFreq + offset]
      modifies `blocksQueued, `phase, `odd, `range, `tuned, `blocks, `passes, `step, `place
      ensures Sweeping() && History() && Offset() && tuned == [sweepFreq] && passes == []
    {
      Beginning(style, Fs(), numRanges, dwellBlocks);
      hide At, Round, Planned, Repeats, Dwelt;
      blocksQueued, phase, odd, range, step, place := 0, 1, true, 0, 0, 0;
      tuned, blocks, passes := [sweepFreq], [0], [];
    }

    /** One pass of the loop, which reads the sample counter twice: a block for either half of the sample
        buffer that is complete, and after the last block of a tuning the next. */
    method Pass(first: nat, second: nat)
      requires Sweeping() && History() && Offset()
      modifies `blocksQueued, `phase, `range, `sweepFreq, `odd, `step, `place, `tuned, `asked, `blocks, `passes
      ensures Sweeping() && History() && Offset() && old(tuned) <= tuned
              && passes == old(passes) + [Readings(first, second)]
    {
      hide At, Round, Repeats, Dwelt, SweepDwell.Queue, Sends, SweepDwell.After, Planned, Steps;
      ghost var p := Readings(first, second);
      ghost var b := Beat(blocksQueued, phase, |tuned| - 1);
      BlocksThere(blocks, passes, dwellBlocks);
      DweltOn(blocks, passes, p, dwellBlocks);
      OnePass(passes, p, dwellBlocks, 0);
      QueueBlocks(first, second, |tuned| - 1);
      if dwellBlocks + THROWAWAY_BUFFERS <= blocksQueued {
        Retune();
      }
      assert blocks == BlocksNext(old(blocks), b, p, dwellBlocks);
      passes := passes + [p];
    }

    /** The blocks of one pass, of which at most one is sent. */
    method QueueBlocks(first: nat, second: nat, ghost t: nat)
      requires |blocks| > 0
      modifies `blocksQueued, `phase, `blocks
      ensures var b, p := Beat(old(blocksQueued), old(phase), t), Readings(first, second);
                && Beat(blocksQueued, phase, t) == SweepDwell.Queue(b, p)
                && blocks == if Sends(b, p) then OneMore(old(blocks)) else old(blocks)
    {
      var transfer := false;
      if first >= HALF && phase == 1 {
        transfer := true;
        phase := 0;
        blocksQueued := blocksQueued + 1;
      }
      if second < HALF && phase == 0 {
        transfer := true;
        phase := 1;
        blocksQueued := blocksQueued + 1;
      }
      if transfer {
        if blocksQueued > THROWAWAY_BUFFERS {
          blocks := OneMore(blocks);
        }
      }
    }

    /** The next tuning, with no blocks yet. */
    method Retune()
      requires Sweeping() && Repeats(tuned, Round(style, Fs(), numRanges), place)
      modifies `blocksQueued, `range, `sweepFreq, `odd, `step, `place, `tuned, `asked, `blocks
      ensures Sweeping() && Repeats(tuned, Round(style, Fs(), numRanges), place)
              && asked == old(asked) + [sweepFreq + offset]
      ensures tuned == old(tuned) + [sweepFreq] && blocks == old(blocks) + [0] && blocksQueued == 0
    {
      hide Round, Planned, Steps, Repeats;
      ghost var was := place;
      NextFrequency();
      AtVisits(style, Fs(), numRanges, range, step, odd, sweepFreq, place);
      RepeatsOn(tuned, Round(style, Fs(), numRanges), was, place, sweepFreq);
      tuned := tuned + [sweepFreq];
      asked := asked + [sweepFreq + offset];
      blocks := blocks + [0];
      blocksQueued := 0;
    }

    /** A whole sweep, whatever the sample counter does: the tunings repeat the round, and a finished one has
        its dwell count of blocks iff no pass lost one. */
    method Run(readings: seq<Readings>)
      requires 1 <= numRanges && 2 * numRanges <= frequencies.Length && Planned(Fs()) && style <= INTERLEAVED
      requires stepWidth == DEFAULT_SAMPLE_RATE_HZ && sweepFreq == frequencies[0] * ONE_MHZ && dwellBlocks >= 1
      requires asked == [sweepFreq + offset]
      modifies `blocksQueued, `phase, `range, `sweepFreq, `odd, `step, `place, `tuned, `asked, `blocks, `passes
      ensures Sweeping() && History() && Offset() && passes == readings && |blocks| == |tuned|
      ensures forall m {:trigger blocks[m]} :: 0 <= m < |tuned| - 1 ==>
                && blocks[m] <= dwellBlocks
                && (blocks[m] == dwellBlocks <==> forall i :: 0 <= i < |passes| ==> !LosesAt(passes, dwellBlocks, m, i))
    {
      hide At, Round, Repeats, Planned, LosesAt, Losses;
      Begin();
      for i := 0 to |readings|
        invariant Sweeping() && History() && Offset() && passes == readings[..i]
      {
        Pass(readings[i].first, readings[i].second);
      }
      forall m | 0 <= m < |tuned| - 1
        ensures blocks[m] <= dwellBlocks
        ensures blocks[m] == dwellBlocks <==> forall i :: 0 <= i < |passes| ==> !LosesAt(passes, dwellBlocks, m, i)
      {
        FullDwell(blocks, passes, dwellBlocks, m);
      }
    }

    /** What comes next, at the end of a range and within it. */
    lemma Onward()
      requires Sweeping()
      ensures var fs, next := Fs(), if place + 1 < |Round(style, Fs(), numRanges)| then place + 1 else 0;
              var end := sweepFreq + stepWidth >= fs[1 + range * 2] * ONE_MHZ;
              && style <= INTERLEAVED && range < numRanges && 0 <= (range + 1) % numRanges < numRanges
                 && |fs| == 2 * numRanges
              && ((style == LINEAR || !odd) && end ==>
                    At(style, fs, numRanges, (range + 1) % numRanges, 0, true,
                       fs[2 * ((range + 1) % numRanges)] * ONE_MHZ, next))
              && (style == LINEAR && !end ==>
                  At(style, fs, numRanges, range, step + 1, true, sweepFreq + stepWidth, next))
              && (style == INTERLEAVED && !odd && !end ==>
                    At(style, fs, numRanges, range, step + 1, true, sweepFreq + 3 * stepWidth / 4, next))
              && (style == INTERLEAVED && odd ==>
                  At(style, fs, numRanges, range, step, false, sweepFreq + stepWidth / 4, next))
      ensures style == LINEAR ==> odd
    {
      hide Round, Planned, Steps;
      var fs := Fs();
      if style == LINEAR || !odd {
        EndOfRange(style, fs, numRanges, range, step, odd, sweepFreq, place);
      }
      if step == Steps(fs, range) - 1 && (style == LINEAR || !odd) {
        NextRange(style, fs, numRanges, range, step, odd, sweepFreq, place);
      } else if style == INTERLEAVED {
        NextTuning(style, fs, numRanges, range, step, odd, sweepFreq, place, if odd then step else step + 1, !odd,
                   sweepFreq + if odd then DEFAULT_SAMPLE_RATE_HZ / 4 else 3 * DEFAULT_SAMPLE_RATE_HZ / 4);
      } else {
        NextTuning(style, fs, numRanges, range, step, odd, sweepFreq, place, step + 1, true,
                   sweepFreq + DEFAULT_SAMPLE_RATE_HZ);
      }
    }

    /** To the next tuning of the round. */
    method NextFrequency()
      requires Sweeping()
      modifies `range, `sweepFreq, `odd, `step, `place
      ensures Sweeping() && place == if old(place) + 1 < |Round(style, Fs(), numRanges)| then old(place) + 1 else 0
    {
      Onward();
      hide Round, Planned, Steps, At;
      ghost var next := if place + 1 < |Round(style, Fs(), numRanges)| then place + 1 else 0;
      if INTERLEAVED == style {
        NextInterleaved(next);
      } else {
        NextLinear(next);
      }
      place := next;
    }

    method NextInterleaved(ghost next: nat)
      requires Sweeping() && style == INTERLEAVED
               && next == if place + 1 < |Round(style, Fs(), numRanges)| then place + 1 else 0
      modifies `range, `sweepFreq, `odd, `step
      ensures At(style, Fs(), numRanges, range, step, odd, sweepFreq, next) && Fs() == old(Fs())
    {
      Onward();
      hide Round, Planned, Steps, At;
      if !odd && sweepFreq + stepWidth >= frequencies[1 + range * 2] * ONE_MHZ {
        range := (range + 1) % numRanges;
        sweepFreq := frequencies[range * 2] * ONE_MHZ;
        step := 0;
      } else if odd {
        sweepFreq := sweepFreq + stepWidth / 4;
      } else {
        sweepFreq := sweepFreq + 3 * stepWidth / 4;
        step := step + 1;
      }
      odd := !odd;
    }

    method NextLinear(ghost next: nat)
      requires Sweeping() && style == LINEAR
               && next == if place + 1 < |Round(style, Fs(), numRanges)| then place + 1 else 0
      modifies `range, `sweepFreq, `step
      ensures At(style, Fs(), numRanges, range, step, odd, sweepFreq, next) && Fs() == old(Fs())
    {
      Onward();
      hide Round, Planned, Steps, At;
      if sweepFreq + stepWidth >= frequencies[1 + range * 2] * ONE_MHZ {
        range := (range + 1) % numRanges;
        sweepFreq := frequencies[range * 2] * ONE_MHZ;
        step := 0;
      } else {
        sweepFreq := sweepFreq + stepWidth;
        step := step + 1;
      }
    }

    /** The setup stage: counts and lengths. */
    method Setup(value: nat, index: nat, length: nat) returns (s: Status)
      requires value < 0x1_0000 && index < 0x1_0000 && length < 0x1_0000
      modifies `dwellBlocks, `numRanges
      ensures s == Ok <==> (index * 0x1_0000 + value) / 0x4000 >= 1 && 1 <= (length - 9) / 4 <= MAX_RANGES
      ensures s == Ok ==> dwellBlocks == (index * 0x1_0000 + value) / 0x4000 && numRanges == (length - 9) / 4
    {
      LengthCount(length);
      var numSamples := index * 0x1_0000 + value;
      dwellBlocks := numSamples / 0x4000;
      if 1 > dwellBlocks {
        return Stall;
      }
      numRanges := (length - 9) % 0x1_0000_0000 / 4 % 0x1_0000;
      if 1 > numRanges || MAX_RANGES < numRanges {
        return Stall;
      }
      return Ok;
    }

    /** The data stage: the parameters are taken from the bytes, or refused. */
    method Data(data: seq<nat>) returns (s: Status)
      requires frequencies.Length == 2 * MAX_RANGES && 1 <= numRanges <= MAX_RANGES && |data| >= 9 + 4 * numRanges
      modifies `stepWidth, `offset, `style, `sweepFreq, `asked, `startSweepMode, frequencies
      ensures s == Ok <==> Word32(data[0], data[1], data[2], data[3]) >= 1 && data[8] <= INTERLEAVED
      ensures s == Ok ==>
                && stepWidth == Word32(data[0], data[1], data[2], data[3])
                && offset == Word32(data[4], data[5], data[6], data[7]) && style == data[8]
                && (forall i :: 0 <= i < 2 * numRanges ==> frequencies[i] == Frequency(data, i))
                && sweepFreq == Frequency(data, 0) * ONE_MHZ && asked == [sweepFreq + offset] && startSweepMode
    {
      hide Word32;
      stepWidth := Word32(data[0], data[1], data[2], data[3]);
      if 1 > stepWidth {
        return Stall;
      }
      offset := Word32(data[4], data[5], data[6], data[7]);
      style := data[8];
      if INTERLEAVED < style {
        return Stall;
      }
      for i := 0 to numRanges * 2
        modifies frequencies
        invariant forall j :: 0 <= j < i ==> frequencies[j] == Frequency(data, j)
      {
        frequencies[i] := (data[10 + i * 2] * 0x100 % 0x1_0000 + data[9 + i * 2]) % 0x1_0000;
      }
      sweepFreq := frequencies[0] * ONE_MHZ;
      asked := [sweepFreq + offset];
      startSweepMode := true;
      return Ok;
    }
  }

  /** The number of ranges, from the length of the data; a length below nine wraps and is no valid number. */
  lemma LengthCount(length: nat)
    requires length < 0x1_0000
    ensures var n := (length - 9) % 0x1_0000_0000 / 4 % 0x1_0000;
            && (length >= 9 ==> n == (length - 9) / 4)
            && (length < 9 ==> n > MAX_RANGES)
  {
    if length >= 9 {
      Quotient((length - 9) / 4, 0, (length - 9) / 4, 0x1_0000);
    } else {
      assert (length - 9) % 0x1_0000_0000 == 0x1_0000_0000 + length - 9;
    }
  }

  /** Entry i of the list in the data. */
  function Frequency(data: seq<nat>, i: nat): nat
    requires 10 + 2 * i < |data|
  {
    (data[10 + i * 2] * 0x100 % 0x1_0000 + data[9 + i * 2]) % 0x1_0000
  }

  lemma TwoBytes(f: nat)
    requires f < 0x1_0000
    ensures (Byte1(f) * 0x100 % 0x1_0000 + Byte0(f)) % 0x1_0000 == f
  {
  }

  lemma FrequencyDecodes(data: seq<nat>, p: Parameters, i: nat)
    requires IsWire(data, p) && InWidth(p) && i < |p.frequencies|
    ensures Frequency(data, i) == p.frequencies[i]
  {
    TwoBytes(p.frequencies[i]);
    hide Byte0, Byte1;
  }

  lemma NumbersDecode(data: seq<nat>, p: Parameters)
    requires IsWire(data, p) && InWidth(p)
    ensures Word32(data[0], data[1], data[2], data[3]) == p.stepWidth
    ensures Word32(data[4], data[5], data[6], data[7]) == p.offset && data[8] == p.style
  {
    Word32Survives(p.stepWidth);
    Word32Survives(p.offset);
    hide Word32, Byte0, Byte1, Byte2, Byte3;
  }

  /** The data decodes to the parameters it was packed from. */
  lemma WireDecodes(data: seq<nat>, p: Parameters)
    requires IsWire(data, p) && InWidth(p)
    ensures |data| == 9 + 2 * |p.frequencies|
    ensures |p.frequencies| > 0 ==> Word32(data[0], data[1], data[2], data[3]) == p.stepWidth
    ensures |p.frequencies| > 0 ==> Word32(data[4], data[5], data[6], data[7]) == p.offset && data[8] == p.style
    ensures forall i :: 0 <= i < |p.frequencies| ==> Frequency(data, i) == p.frequencies[i]
  {
    NumbersDecode(data, p);
    forall i | 0 <= i < |p.frequencies|
      ensures Frequency(data, i) == p.frequencies[i]
    {
      FrequencyDecodes(data, p, i);
    }
    hide *;
  }

  /** The firmware holds the parameters and is ready to sweep. */
  ghost predicate Holds(sweeper: Sweeper, p: Parameters)
    reads sweeper, sweeper.frequencies
  {
    && sweeper.stepWidth == p.stepWidth && sweeper.offset == p.offset && sweeper.style == p.style
    && sweeper.numRanges == |p.frequencies| / 2 && 2 * sweeper.numRanges <= sweeper.frequencies.Length
    && sweeper.dwellBlocks == p.numSamples / SAMPLES_PER_BLOCK
    && sweeper.frequencies[..2 * sweeper.numRanges] == p.frequencies
    && |p.frequencies| > 0 && sweeper.sweepFreq == p.frequencies[0] * ONE_MHZ && sweeper.startSweepMode
    && sweeper.asked == [sweeper.sweepFreq + sweeper.offset]
  }

  lemma Counts(p: Parameters)
    requires Sendable(p) && InWidth(p)
    ensures p.numSamples / 0x1_0000 % 0x1_0000 * 0x1_0000 + p.numSamples % 0x1_0000 == p.numSamples
    ensures p.numSamples / 0x4000 >= 1 && (9 + 2 * |p.frequencies| - 9) / 4 == |p.frequencies| / 2
    ensures 9 + 2 * |p.frequencies| == 9 + 4 * (|p.frequencies| / 2) < 0x1_0000
  {
    Word32Survives(p.numSamples);
  }

  method Receive(sweeper: Sweeper, t: Transfer, ghost p: Parameters)
    requires sweeper.frequencies.Length == 2 * MAX_RANGES && InWidth(p) && Sendable(p) && IsWire(t.data, p)
    requires t.value == p.numSamples % 0x1_0000 && t.index == p.numSamples / 0x1_0000 % 0x1_0000
    modifies sweeper, sweeper.frequencies
    ensures Holds(sweeper, p)
  {
    WireDecodes(t.data, p);
    Counts(p);
    hide IsWire, Word32, Frequency, InWidth;
    var s := sweeper.Setup(t.value, t.index, |t.data|);
    s := sweeper.Data(t.data);
    assert sweeper.frequencies[..2 * sweeper.numRanges] == p.frequencies;
  }

  /** The host's request reaches the firmware: the same parameters, or none. */
  method InitSweep(sweeper: Sweeper, p: Parameters) returns (sent: bool)
    requires sweeper.frequencies.Length == 2 * MAX_RANGES && |p.frequencies| % 2 == 0 && InWidth(p)
    modifies sweeper, sweeper.frequencies
    ensures sent <==> Sendable(p)
    ensures sent ==> Holds(sweeper, p)
    ensures !sent ==> unchanged(sweeper) && unchanged(sweeper.frequencies)
  {
    hide IsWire, InWidth, Sendable, Holds;
    var r := Pack(p);
    if r.InvalidParam? {
      return false;
    }
    Receive(sweeper, r.transfer, p);
    return true;
  }

  /** The ranges that the user names. */
  ghost predicate Named(fs: seq<nat>) {
    |fs| % 2 == 0 && forall r: nat :: 2 * r + 1 < |fs| ==> fs[2 * r] < fs[2 * r + 1] <= FREQ_MAX_MHZ
  }

  /** The planned ranges make valid parameters. */
  lemma PlanIsSendable(was: seq<nat>, fs: seq<nat>, numSamples: nat)
    requires Named(was) && |fs| == |was| && 1 <= |fs| / 2 <= MAX_RANGES && Planned(fs)
    requires forall r: nat :: 2 * r + 1 < |fs| ==> fs[2 * r] == was[2 * r] && fs[2 * r + 1] - TUNE_STEP < was[2 * r + 1]
    requires numSamples % SAMPLES_PER_BLOCK == 0 && SAMPLES_PER_BLOCK <= numSamples < 0x1_0000_0000
    ensures var p := Parameters(fs, numSamples, DEFAULT_SAMPLE_RATE_HZ, OFFSET, INTERLEAVED); Sendable(p) && InWidth(p)
  {
    forall i | 0 <= i < |fs| ensures fs[i] < 0x1_0000 {
      var r := i / 2;
      assert 2 * r + 1 < |fs| && (i == 2 * r || i == 2 * r + 1);
      assert was[2 * r] < was[2 * r + 1] <= FREQ_MAX_MHZ;
    }
  }

  /** Every finished tuning got all the samples asked for, unless a pass lost some. */
  ghost predicate Sampled(blocks: seq<nat>, passes: seq<Readings>, numSamples: nat) {
    forall m {:trigger blocks[m]} :: 0 <= m < |blocks| - 1 ==>
      (blocks[m] * SAMPLES_PER_BLOCK == numSamples
       <==> forall i :: 0 <= i < |passes| ==> !LosesAt(passes, numSamples / SAMPLES_PER_BLOCK, m, i))
  }

  /** A request is sent and its sweep run. */
  method Sweep(sweeper: Sweeper, p: Parameters, readings: seq<Readings>)
    requires sweeper.frequencies.Length == 2 * MAX_RANGES && Sendable(p) && InWidth(p) && Planned(p.frequencies)
    requires p.stepWidth == DEFAULT_SAMPLE_RATE_HZ
    modifies sweeper, sweeper.frequencies
    ensures Repeats(sweeper.tuned, Round(p.style, p.frequencies, |p.frequencies| / 2), sweeper.place)
    ensures sweeper.Offset() && sweeper.offset == p.offset
    ensures sweeper.passes == readings && |sweeper.blocks| == |sweeper.tuned|
    ensures Sampled(sweeper.blocks, readings, p.numSamples)
  {
    hide InWidth, Planned, LosesAt, Round, Repeats, At;
    var sent := InitSweep(sweeper, p);
    assert sweeper.Fs() == p.frequencies;
    sweeper.Run(readings);
    assert p.numSamples == p.numSamples / SAMPLES_PER_BLOCK * SAMPLES_PER_BLOCK;
  }

  /** From the ranges named by the user to the tunings of the firmware: the ranges are planned, requested and
      swept round by round, each tuning with the samples asked for unless a pass loses some. */
  method SweepRanges(frequencies: array<nat>, numRanges: nat, numSamples: nat, sweeper: Sweeper,
                     readings: seq<Readings>)
    requires 1 <= numRanges <= MAX_RANGES && 2 * numRanges <= frequencies.Length && Named(frequencies[..2 * numRanges])
    requires numSamples % SAMPLES_PER_BLOCK == 0 && SAMPLES_PER_BLOCK <= numSamples < 0x1_0000_0000
    requires sweeper.frequencies.Length == 2 * MAX_RANGES && sweeper.frequencies != frequencies
    modifies frequencies, sweeper, sweeper.frequencies
    ensures Planned(frequencies[..2 * numRanges])
    ensures forall r: nat :: 2 * r + 1 < 2 * numRanges ==>
              && frequencies[2 * r] == old(frequencies[2 * r])
              && frequencies[2 * r + 1] - TUNE_STEP < old(frequencies[2 * r + 1]) <= frequencies[2 * r + 1]
    ensures Repeats(sweeper.tuned, Round(INTERLEAVED, frequencies[..2 * numRanges], numRanges), sweeper.place)
    ensures sweeper.Offset() && sweeper.offset == OFFSET
    ensures sweeper.passes == readings && |sweeper.blocks| == |sweeper.tuned|
    ensures Sampled(sweeper.blocks, readings, numSamples)
  {
    ghost var was := frequencies[..2 * numRanges];
    Plan(frequencies, numRanges);
    var fs := frequencies[..2 * numRanges];
    PlanIsSendable(was, fs, numSamples);
    hide Sendable, InWidth, Planned, Round, Repeats, Sampled, Named;
    Sweep(sweeper, Parameters(fs, numSamples, DEFAULT_SAMPLE_RATE_HZ, OFFSET, INTERLEAVED), readings);
    assert frequencies[..2 * numRanges] == fs;
  }
}
