/** The XSVF format as the player reads it (firmware/common/xapp058/micro.c): the command codes, and what
    their operands must be for a command to return. */
module Xsvf {

  import opened Bytes
  import opened LenVals
  import opened Masking
  import opened Scans
  import opened Tap
  import opened Waiting

  const ERROR_ILLEGALCMD := 4
  const ERROR_ILLEGALSTATE := 5
  const ERROR_DATAOVERFLOW := 6

  const XCOMPLETE := 0
  const XTDOMASK := 1
  const XSIR := 2
  const XSDR := 3
  const XRUNTEST := 4
  const XREPEAT := 7
  const XSDRSIZE := 8
  const XSDRTDO := 9
  const XSETSDRMASKS := 10
  const XSDRINC := 11
  const XSDRB := 12
  const XSDRC := 13
  const XSDRE := 14
  const XSDRTDOB := 15
  const XSDRTDOC := 16
  const XSDRTDOE := 17
  const XSTATE := 18
  const XENDIR := 19
  const XENDDR := 20
  const XSIR2 := 21
  const XCOMMENT := 22
  const XWAIT := 23

  function NumBytes(bits: nat): nat {
    (bits + 7) / 8
  }

  /** Four bytes as the signed length or time they spell. */
  function Long(program: seq<Byte>, p: nat): int
    requires p + 4 <= |program|
  {
    Int32(Number(program[p..p + 4]))
  }

  /** A length that is negative, or whose byte count does not fit a short. */
  predicate LengthUnfit(bits: int) {
    !(0 <= bits <= 8 * 0x7FFF)
  }

  /** When command c, its operands at p, does not return: the bytes do not suffice, a state byte names no
      state, or, for XSDRINC, the data mask has 256 bytes; or a length is unfit, with which the model goes no
      further. XSDRINC may return early, with an error, even then; every other command halts iff this holds. */
  ghost predicate Halts(c: Byte, program: seq<Byte>, p: nat, len: nat, mask: seq<Byte>) {
    var size := |program|;
    match c
    case 0 => false
    case 1 => p + len > size
    case 2 => p >= size || p + 1 + NumBytes(program[p]) > size
    case 3 => p + len > size
    case 4 => p + 4 > size
    case 7 => p >= size
    case 8 => p + 4 > size || LengthUnfit(Long(program, p))
    case 9 => p + 2 * len > size
    case 10 => p + 2 * len > size
    case 11 => p + len >= size || |mask| > 255 || p + len + 1 + program[p + len] * NumBytes(PopCount(mask)) > size
    case 12 => p + len > size
    case 13 => p + len > size
    case 14 => p + len > size
    case 15 => p + 2 * len > size
    case 16 => p + 2 * len > size
    case 17 => p + 2 * len > size
    case 18 => p >= size || program[p] > UPDATEIR
    case 19 => p >= size
    case 20 => p >= size
    case 21 => p + 2 > size || var n := NumBytes(Number(program[p..p + 2])); n <= MAX_LEN && p + 2 + n > size
    case 22 => forall k :: p <= k < size ==> program[k] != 0
    case 23 => p + 6 > size || program[p] > UPDATEIR || program[p + 1] > UPDATEIR
    case _ => false
  }

  /** The command that begins at p does not return, or there is none. */
  ghost predicate HaltsAt(program: seq<Byte>, p: nat, len: nat, mask: seq<Byte>) {
    p >= |program| || Halts(program[p], program, p + 1, len, mask)
  }

  /** The command that begins at p is an XWAIT that takes player and controller out of step. */
  predicate SlipsAt(program: seq<Byte>, p: nat, tap: Code) {
    p + 7 <= |program| && program[p] == XWAIT && XwaitSlips(tap, program[p + 1], program[p + 2], Long(program, p + 3))
  }

  /** A program that fails: it waits three microseconds in Update-DR on the way to Pause-DR. */
  lemma SlippingProgram()
    ensures SlipsAt([XWAIT, UPDATEDR, PAUSEDR, 0, 0, 0, 3, XCOMPLETE], 0, RESET)
  {
    var time: seq<Byte> := [0, 0, 0, 3];
    var t1: seq<Byte>, t2: seq<Byte>, t3: seq<Byte> := [0], [0, 0], [0, 0, 0];
    assert t1[..0] == [] && t2[..1] == t1 && t3[..2] == t2 && time[..3] == t3;
    assert Number(t1) == Number(t2) == Number(t3) == 0;
    var program: seq<Byte> := [XWAIT, UPDATEDR, PAUSEDR, 0, 0, 0, 3, XCOMPLETE];
    assert program[3..7] == time;
    SlipsInUpdate();
  }

  /** Where the next command begins, and what its length depends on: the register's bytes, the data mask. */
  datatype Reading = Reading(pos: nat, len: nat, mask: seq<Byte>)

  /** Command c, its operands at p, ends at q. */
  ghost predicate Ends(c: Byte, program: seq<Byte>, p: nat, len: nat, mask: seq<Byte>, q: nat) {
    match c
    case 1 => q == p + len
    case 2 => p < |program| && q == p + 1 + NumBytes(program[p])
    case 3 => q == p + len
    case 4 => q == p + 4
    case 7 => q == p + 1
    case 8 => q == p + 4
    case 9 => q == p + 2 * len
    case 10 => q == p + 2 * len
    case 11 => p + len < |program| && q == p + len + 1 + program[p + len] * NumBytes(PopCount(mask))
    case 12 => q == p + len
    case 13 => q == p + len
    case 14 => q == p + len
    case 15 => q == p + 2 * len
    case 16 => q == p + 2 * len
    case 17 => q == p + 2 * len
    case 18 => q == p + 1
    case 19 => q == p + 1
    case 20 => q == p + 1
    case 21 => p + 2 <= |program| && q == p + 2 + NumBytes(Number(program[p..p + 2]))
    case 22 => p < q <= |program| && program[q - 1] == 0 && forall k :: p <= k < q - 1 ==> program[k] != 0
    case 23 => q == p + 6
    case _ => q == p
  }

  /** The command that begins at a returns without error, and the next begins at b. */
  ghost predicate Reads(program: seq<Byte>, a: Reading, b: Reading) {
    && a.pos < |program|
    && var c, p := program[a.pos], a.pos + 1;
    && Ends(c, program, p, a.len, a.mask, b.pos)
    && (if c == XSDRSIZE then p + 4 <= |program| && b.len == NumBytes(Nat(Long(program, p))) else b.len == a.len)
    && (if c == XSETSDRMASKS then p + 2 * a.len <= |program| && b.mask == program[p + a.len..p + 2 * a.len]
        else b.mask == a.mask)
  }

  function Nat(x: int): nat {
    if x < 0 then 0 else x
  }

  /** The beginnings of the commands are determined by the program. */
  lemma ReadsOnce(program: seq<Byte>, a: Reading, b: Reading, b': Reading)
    requires Reads(program, a, b) && Reads(program, a, b')
    ensures b == b'
  {
  }

  /** What the commands set: the run-test time, the retries, where shifts end, the register's length, the expectation,
      and the buffers with what is left over in them. */
  datatype Settings = Settings(runTest: int, repeat: Byte, endIr: Code, endDr: Code, bits: nat,
                               expected: seq<Byte>, tdoMask: seq<Byte>, captured: seq<Byte>, address: seq<Byte>)

  /** Player and controller at the beginning of a command, or at the end: where the program is read, the settings,
      the tracked state, the state every controller is in, the edges so far, and whether XCOMPLETE was met. */
  datatype Moment = Moment(at: Reading, conf: Settings, tap: Code, actual: Controller, trace: seq<Edge>, complete: bool)

  predicate Sized(m: Moment) {
    && |m.conf.tdoMask| == |m.conf.captured| == |m.conf.address| == MAX_LEN + 1 && |m.conf.expected| <= MAX_LEN + 1
    && m.at.len == NumBytes(m.conf.bits) <= MAX_LEN
  }

  /** After the reset sequence, before the first command. */
  predicate Initial(m: Moment) {
    && m.tap == RESET && !m.complete && m.at.len == 0
    && (m.conf.runTest, m.conf.repeat, m.conf.endIr, m.conf.endDr, m.conf.bits) == (0, 0, RUNTEST, RUNTEST, 0)
  }

  predicate InStep(m: Moment) {
    CodeOf(m.actual) == m.tap
  }

  /** Whatever state a controller started from, it is in the actual one. */
  ghost predicate Known(m: Moment) {
    forall s: Controller :: After(s, m.trace) == m.actual
  }

  /** From one moment to the next: in step it stays exactly unless the command is an XWAIT that slips. */
  ghost predicate Follows(program: seq<Byte>, m: Moment, m': Moment) {
    && m.trace <= m'.trace && m.at.pos <= m'.at.pos
    && (InStep(m) ==> (InStep(m') <==> !SlipsAt(program, m.at.pos, m.tap)))
  }

  /** A command that sets and moves nothing else: the next one begins at q. */
  ghost predicate Sets(m: Moment, m': Moment, q: nat, s: Settings) {
    m'.at == m.at.(pos := q) && m'.conf == s && m'.tap == m.tap && m'.trace == m.trace
  }

  /** A buffer with bytes read into it. */
  function Into(bytes: seq<Byte>, buffer: seq<Byte>): seq<Byte>
    requires |bytes| <= |buffer|
  {
    bytes + buffer[|bytes|..]
  }

  /** What a shift through the data register is checked against, if it is. */
  datatype Check = Unchecked | Check(expected: seq<Byte>, mask: seq<Byte>)

  ghost predicate Checks(check: Check) {
    check.Check? ==> |check.expected| <= MAX_LEN + 1 <= |check.mask|
  }

  ghost function DrScan(m: Moment, data: seq<Byte>, end: Code, check: Check): (x: Scan)
    requires Sized(m) && |data| == m.at.len && Checks(check)
    ensures x.Ok()
  {
    match check
    case Unchecked => Scan(SHIFTDR, data, m.conf.bits, end, false, [], [], [])
    case Check(expected, mask) => Scan(SHIFTDR, data, m.conf.bits, end, true, expected, mask,
                                       m.conf.captured[m.at.len..])
  }

  ghost function PlaceOf(m: Moment, check: Check): Place {
    Place(m.trace, m.tap, if check.Unchecked? then [] else m.conf.captured)
  }

  /** The data register gets the bytes of the program that come first, and the next command begins at q. */
  ghost predicate DrShifted(program: seq<Byte>, tdo: seq<Edge> -> bool, m: Moment, m': Moment, q: nat, end: Code,
                            y: Manner,
                            check: Check, expected: seq<Byte>, error: int)
    requires Sized(m) && Checks(check)
  {
    var p, len := m.at.pos, m.at.len;
    && p + len <= |program| && m'.at == m.at.(pos := q)
    && m'.conf == m.conf.(expected := expected, captured := m'.conf.captured) && |m'.conf.captured| == |m.conf.captured|
    && (check.Unchecked? ==> m'.conf.captured == m.conf.captured)
    && ShiftDone(DrScan(m, program[p..p + len], end, check), tdo, y, PlaceOf(m, check), PlaceOf(m', check), error,
                 InStep(m))
  }

  /** But for the error, the wire and what is captured, a shift leaves everything as it was. */
  ghost predicate Advanced(m: Moment, m': Moment, check: Check)
    requires Sized(m)
  {
    && m'.at == m.at && m'.conf == m.conf.(captured := m'.conf.captured) && m'.complete == m.complete
    && |m'.conf.captured| == |m.conf.captured| && m'.conf.captured[m.at.len..] == m.conf.captured[m.at.len..]
    && (check.Unchecked? ==> m'.conf.captured == m.conf.captured)
  }

  function At(m: Moment, q: nat): Moment {
    m.(at := m.at.(pos := q))
  }

  /** The operands read between m and m1, the shift leads to m'. */
  lemma DrDone(program: seq<Byte>, tdo: seq<Edge> -> bool, m: Moment, m1: Moment, m': Moment, end: Code, y: Manner,
               check: Check, error: int)
    requires Sized(m) && Sized(m1) && Checks(check) && m.at.pos + m.at.len <= |program|
    requires m1 == At(m, m1.at.pos).(conf := m.conf.(expected := m1.conf.expected)) && Advanced(m1, m', check)
    requires ShiftDone(DrScan(m1, program[m.at.pos..m.at.pos + m.at.len], end, check), tdo, y, PlaceOf(m1, check),
                       PlaceOf(m', check),
                       error, InStep(m1))
    ensures DrShifted(program, tdo, m, m', m1.at.pos, end, y, check, m1.conf.expected, error)
  {
    hide ShiftDone;
  }

  /** The instruction register gets n bits of the program from byte p on. */
  ghost predicate IrShifted(program: seq<Byte>, tdo: seq<Edge> -> bool, m: Moment, m': Moment, n: nat, p: nat) {
    var q := p + NumBytes(n);
    && q <= |program| && m'.at == m.at.(pos := q) && m'.conf == m.conf
    && ShiftDone(Scan(SHIFTIR, program[p..q], n, m.conf.endIr, false, [], [], []), tdo, Manner(m.conf.runTest, 0),
               Place(m.trace, m.tap, []), Place(m'.trace, m'.tap, []), ERROR_NONE, InStep(m))
  }

  /** The clock was pulsed for the time in a state that the walk there had reached. */
  ghost predicate WaitedIn(from: seq<Edge>, to: seq<Edge>, state: Code, time: nat, inStep: bool) {
    exists w: seq<Edge>, tdi: bool :: WaitedFrom(from, to, w, tdi, state, time, inStep)
  }

  ghost predicate WaitedFrom(from: seq<Edge>, to: seq<Edge>, w: seq<Edge>, tdi: bool, state: Code, time: nat,
                             inStep: bool) {
    && from <= w && w + Held(EnteredHigh(state), tdi, time) <= to
    && (inStep ==> forall s: Controller :: CodeOf(After(s, w)) == state)
  }

  /** What command c has done that began, its byte read, at m and returned at m'. */
  ghost predicate Performed(program: seq<Byte>, tdo: seq<Edge> -> bool, c: Byte, m: Moment, m': Moment, error: int)
    requires Sized(m)
  {
    var p, len, s, size := m.at.pos, m.at.len, m.conf, |program|;
    && m'.complete == (c == XCOMPLETE || m.complete)
    && match c
       case 0 => error == ERROR_NONE && Sets(m, m', p, s)
       case 1 => error == ERROR_NONE && p + len <= size
         && Sets(m, m', p + len, s.(tdoMask := Into(program[p..p + len], s.tdoMask)))
       case 2 => error == ERROR_NONE && p < size && IrShifted(program, tdo, m, m', program[p], p + 1)
       case 3 =>
         DrShifted(program, tdo, m, m', p + len, s.endDr, Manner(s.runTest, s.repeat), Check(s.expected, s.tdoMask),
                   s.expected, error)
       case 4 => error == ERROR_NONE && p + 4 <= size && Sets(m, m', p + 4, s.(runTest := Long(program, p)))
       case 7 => error == ERROR_NONE && p < size && Sets(m, m', p + 1, s.(repeat := program[p]))
       case 8 =>
         && p + 4 <= size && !LengthUnfit(Long(program, p))
         && var n: nat := Long(program, p);
         && m'.at == m.at.(pos := p + 4, len := NumBytes(n)) && m'.conf == s.(bits := n) && m'.tap == m.tap
            && m'.trace == m.trace
         && error == if NumBytes(n) > MAX_LEN then ERROR_DATAOVERFLOW else ERROR_NONE
       case 9 =>
         && p + 2 * len <= size && var expected := program[p + len..p + 2 * len];
         DrShifted(program, tdo, m, m', p + 2 * len, s.endDr, Manner(s.runTest, s.repeat), Check(expected, s.tdoMask),
                   expected, error)
       case 10 =>
         && error == ERROR_NONE && p + 2 * len <= size
         && m'.at == Reading(p + 2 * len, len, program[p + len..p + 2 * len])
         && m'.conf == s.(address := Into(program[p..p + len], s.address)) && m'.tap == m.tap && m'.trace == m.trace
       case 11 => Incremented(program, tdo, m, m', error)
       case 12 => error == ERROR_NONE
         && DrShifted(program, tdo, m, m', p + len, SHIFTDR, Manner(0, 0), Unchecked, s.expected, error)
       case 13 => error == ERROR_NONE
         && DrShifted(program, tdo, m, m', p + len, SHIFTDR, Manner(0, 0), Unchecked, s.expected, error)
       case 14 => error == ERROR_NONE
         && DrShifted(program, tdo, m, m', p + len, s.endDr, Manner(0, 0), Unchecked, s.expected, error)
       case 15 => ExpectedAlone(program, tdo, m, m', SHIFTDR, error)
       case 16 => ExpectedAlone(program, tdo, m, m', SHIFTDR, error)
       case 17 => ExpectedAlone(program, tdo, m, m', s.endDr, error)
       case 18 =>
         && p < size && m'.at == m.at.(pos := p + 1) && m'.conf == s && program[p] <= UPDATEIR
         && if program[p] != RESET && Trapped(m.tap, program[p]) then
              error == ERROR_ILLEGALSTATE && m'.tap == m.tap && m'.trace == m.trace
            else error == ERROR_NONE && m'.tap == program[p]
       case 19 =>
         && p < size && error == (if program[p] <= 1 then ERROR_NONE else ERROR_ILLEGALSTATE)
         && Sets(m, m', p + 1, if program[p] > 1 then s else s.(endIr := if program[p] == 1 then PAUSEIR else RUNTEST))
       case 20 =>
         && p < size && error == (if program[p] <= 1 then ERROR_NONE else ERROR_ILLEGALSTATE)
         && Sets(m, m', p + 1, if program[p] > 1 then s else s.(endDr := if program[p] == 1 then PAUSEDR else RUNTEST))
       case 21 =>
         && p + 2 <= size && var n := Number(program[p..p + 2]);
         if NumBytes(n) > MAX_LEN then error == ERROR_DATAOVERFLOW && Sets(m, m', p + 2, s)
         else error == ERROR_NONE && IrShifted(program, tdo, m, m', n, p + 2)
       case 22 =>
         && error == ERROR_NONE && p < m'.at.pos <= size && program[m'.at.pos - 1] == 0
         && (forall k :: p <= k < m'.at.pos - 1 ==> program[k] != 0) && Sets(m, m', m'.at.pos, s)
       case 23 =>
         && error == ERROR_NONE && p + 6 <= size && m'.at == m.at.(pos := p + 6) && m'.conf == s
         && program[p] <= UPDATEIR && program[p + 1] <= UPDATEIR
         && var q := WaitsIn(m.tap, program[p]);
         && m'.tap == WaitsIn(q, program[p + 1])
         && (Long(program, p + 2) > 0 ==> WaitedIn(m.trace, m'.trace, q, Long(program, p + 2), InStep(m)))
       case _ => error == ERROR_ILLEGALCMD && Sets(m, m', p, s)
  }

  /** XSDRTDOB, XSDRTDOC and XSDRTDOE: an expectation, but no mask, no retries and no wait. */
  ghost predicate ExpectedAlone(program: seq<Byte>, tdo: seq<Edge> -> bool, m: Moment, m': Moment, end: Code,
                                error: int)
    requires Sized(m)
  {
    var p, len := m.at.pos, m.at.len;
    && p + 2 * len <= |program| && var expected := program[p + len..p + 2 * len];
    DrShifted(program, tdo, m, m', p + 2 * len, end, Manner(0, 0), Check(expected, AllOnes(MAX_LEN + 1)), expected,
              error)
  }

  lemma HaltsWithoutData(c: Byte, program: seq<Byte>, p: nat, len: nat, mask: seq<Byte>)
    requires c in {XSDR, XSDRB, XSDRC, XSDRE}
    ensures Halts(c, program, p, len, mask) <==> p + len > |program|
  {
  }

  lemma HaltsWithoutByte(c: Byte, program: seq<Byte>, p: nat, len: nat, mask: seq<Byte>)
    requires c in {XREPEAT, XENDIR, XENDDR}
    ensures Halts(c, program, p, len, mask) <==> p >= |program|
  {
  }

  lemma HaltsWithoutLength(program: seq<Byte>, p: nat, len: nat, mask: seq<Byte>)
    ensures Halts(XSDRSIZE, program, p, len, mask) <==> p + 4 > |program| || LengthUnfit(Long(program, p))
  {
  }

  lemma SdrsizeDone(program: seq<Byte>, tdo: seq<Edge> -> bool, m: Moment, m': Moment, error: int)
    requires Sized(m) && m.at.pos + 4 <= |program| && !LengthUnfit(Long(program, m.at.pos))
    requires var n: nat := Long(program, m.at.pos);
             && m' == m.(at := m.at.(pos := m.at.pos + 4, len := NumBytes(n)), conf := m.conf.(bits := n))
             && error == if NumBytes(n) > MAX_LEN then ERROR_DATAOVERFLOW else ERROR_NONE
    ensures Performed(program, tdo, XSDRSIZE, m, m', error)
  {
    hide DrShifted, IrShifted, Incremented, ExpectedAlone, WaitedIn, Long;
  }

  lemma EndxrDone(program: seq<Byte>, tdo: seq<Edge> -> bool, c: Byte, m: Moment, m': Moment, error: int)
    requires Sized(m) && c in {XENDIR, XENDDR} && m.at.pos < |program| && m'.complete == m.complete
    requires error == if program[m.at.pos] <= 1 then ERROR_NONE else ERROR_ILLEGALSTATE
    requires var b, s := program[m.at.pos], m.conf;
             Sets(m, m', m.at.pos + 1,
                  if b > 1 then s
                  else if c == XENDIR then s.(endIr := if b == 1 then PAUSEIR else RUNTEST)
                                       else s.(endDr := if b == 1 then PAUSEDR else RUNTEST))
    ensures Performed(program, tdo, c, m, m', error)
  {
    hide DrShifted, IrShifted, Incremented, ExpectedAlone, WaitedIn;
  }

  lemma SdrbceDone(program: seq<Byte>, tdo: seq<Edge> -> bool, c: Byte, m: Moment, m': Moment, end: Code)
    requires Sized(m) && c in {XSDRB, XSDRC, XSDRE} && end == (if c == XSDRE then m.conf.endDr else SHIFTDR)
             && m'.complete == m.complete
    requires DrShifted(program, tdo, m, m', m.at.pos + m.at.len, end, Manner(0, 0), Unchecked, m.conf.expected,
                       ERROR_NONE)
    ensures Performed(program, tdo, c, m, m', ERROR_NONE)
  {
    hide DrShifted, IrShifted, Incremented, ExpectedAlone, WaitedIn;
  }

  /** The command that begins at m has done its work at m'. */
  ghost predicate Does(program: seq<Byte>, tdo: seq<Edge> -> bool, m: Moment, m': Moment, error: int) {
    m.at.pos < |program| && Sized(m)
      && Performed(program, tdo, program[m.at.pos], m.(at := m.at.(pos := m.at.pos + 1)), m', error)
  }

  /** So it ends where its operands do. */
  lemma DoesReads(program: seq<Byte>, tdo: seq<Edge> -> bool, m: Moment, m': Moment)
    requires Does(program, tdo, m, m', ERROR_NONE)
    ensures Reads(program, m.at, m'.at)
  {
    hide Performed, Ends;
    EndsThere(program, tdo, program[m.at.pos], m.(at := m.at.(pos := m.at.pos + 1)), m');
  }

  lemma EndsThere(program: seq<Byte>, tdo: seq<Edge> -> bool, c: Byte, m: Moment, m': Moment)
    requires Sized(m) && Performed(program, tdo, c, m, m', ERROR_NONE)
    ensures Ends(c, program, m.at.pos, m.at.len, m.at.mask, m'.at.pos)
    ensures if c == XSDRSIZE then m.at.pos + 4 <= |program| && m'.at.len == NumBytes(Nat(Long(program, m.at.pos)))
            else m'.at.len == m.at.len
    ensures if c == XSETSDRMASKS then
              var p, len := m.at.pos, m.at.len;
              p + 2 * len <= |program| && m'.at.mask == program[p + len..p + 2 * len]
            else m'.at.mask == m.at.mask
  {
    hide ShiftDone, AllSent, WaitedIn, Into, AllOnes, WaitsIn, Trapped, DrScan, PlaceOf, Number, PopCount, Sized;
    if c < 12 {
    } else {
      hide Incremented;
    }
  }

  /** A run: from the reset sequence on, one moment for every command begun, and one for the end; all
      commands but the last returned without error. */
  ghost predicate IsRun(program: seq<Byte>, tdo: seq<Edge> -> bool, log: seq<Moment>) {
    && log != [] && InStep(log[0])
    && (forall i :: 0 <= i < |log| ==> Known(log[i]))
    && (forall i {:trigger log[i].at} :: 0 <= i < |log| - 1 ==> Follows(program, log[i], log[i + 1]))
    && (forall i {:trigger log[i].at} :: 0 <= i < |log| - 2 ==> Does(program, tdo, log[i], log[i + 1], ERROR_NONE))
  }

  /** As long as no XWAIT has slipped, player and controller are in step; the first that does takes them out
      of step. */
  lemma {:induction false} InStepUntil(program: seq<Byte>, tdo: seq<Edge> -> bool, log: seq<Moment>, n: nat)
    requires IsRun(program, tdo, log) && n < |log|
    requires forall i :: 0 <= i < n ==> !SlipsAt(program, log[i].at.pos, log[i].tap)
    ensures InStep(log[n])
    ensures n < |log| - 1 ==> (InStep(log[n + 1]) <==> !SlipsAt(program, log[n].at.pos, log[n].tap))
  {
    hide SlipsAt, Does, Known;
    if n > 0 {
      InStepUntil(program, tdo, log, n - 1);
    }
    if n < |log| - 1 {
      assert Follows(program, log[n], log[n + 1]);
    }
  }

  /** Value i of an XSDRINC whose start value is at p: the one before, plus the address mask, with the next
      k bytes of data deposited at the data mask. */
  ghost function Increment(program: seq<Byte>, p: nat, len: nat, address: nat, mask: nat, k: nat, i: nat): nat
    requires p + len <= |program| && (i > 0 ==> p + len + 1 + i * k <= |program|)
  {
    if i == 0 then Number(program[p..p + len])
    else
      OneMoreTime(i - 1, k);
      var at := p + len + 1 + (i - 1) * k;
      Pdep((Increment(program, p, len, address, mask, k, i - 1) + address) % Pow256(len), mask,
           Number(program[at..at + k]))
  }

  lemma IncrementNext(program: seq<Byte>, p: nat, len: nat, address: nat, mask: nat, k: nat, i: nat)
    requires p + len + 1 + i * k <= p + len + 1 + i * k + k == p + len + 1 + (i + 1) * k <= |program|
    ensures Increment(program, p, len, address, mask, k, i + 1)
            == Pdep((Increment(program, p, len, address, mask, k, i) + address) % Pow256(len), mask,
                    Number(program[p + len + 1 + i * k..p + len + 1 + i * k + k]))
  {
  }

  lemma OneMoreTime(i: nat, k: nat)
    ensures (i + 1) * k == i * k + k
  {
  }

  lemma TimesOrder(i: nat, n: nat, k: nat)
    requires i <= n
    ensures i * k <= n * k
  {
  }

  /** Where an XSDRINC that began at m reads after i steps. */
  ghost function StepAt(m: Moment, i: nat): (q: nat)
    ensures q >= m.at.pos + m.at.len
  {
    m.at.pos + m.at.len + if i == 0 then 0 else 1 + i * NumBytes(PopCount(m.at.mask))
  }

  /** The value of step i. */
  ghost function ValueAt(program: seq<Byte>, m: Moment, i: nat): nat
    requires Sized(m) && StepAt(m, i) <= |program|
  {
    Increment(program, m.at.pos, m.at.len, Number(m.conf.address[..m.at.len]), Number(m.at.mask),
              NumBytes(PopCount(m.at.mask)), i)
  }

  /** A value goes out through the data register and is checked against the expectation in force. */
  ghost predicate ValueSent(tdo: seq<Edge> -> bool, m: Moment, value: nat, a: Place, b: Place, error: int)
    requires Sized(m)
  {
    exists data: seq<Byte> {:trigger DataSent(tdo, m, data, a, b, error)} ::
      |data| == m.at.len && Number(data) == value && DataSent(tdo, m, data, a, b, error)
  }

  ghost predicate DataSent(tdo: seq<Edge> -> bool, m: Moment, data: seq<Byte>, a: Place, b: Place, error: int)
    requires Sized(m)
  {
    && |data| == m.at.len
    && ShiftDone(DrScan(m, data, m.conf.endDr, Check(m.conf.expected, m.conf.tdoMask)), tdo,
                 Manner(m.conf.runTest, m.conf.repeat), a, b, error, InStep(m))
  }

  /** The values up to that of step i went out one after the other; the last with the error, if any. */
  ghost predicate AllSent(program: seq<Byte>, tdo: seq<Edge> -> bool, m: Moment, i: nat, b: Place, error: int)
    requires Sized(m) && StepAt(m, i) <= |program|
    decreases i
  {
    if i == 0 then ValueSent(tdo, m, ValueAt(program, m, 0), Place(m.trace, m.tap, m.conf.captured), b, error)
    else
      TimesOrder(i - 1, i, NumBytes(PopCount(m.at.mask)));
      exists mid: Place {:trigger ValueSent(tdo, m, ValueAt(program, m, i), mid, b, error)} ::
        AllSent(program, tdo, m, i - 1, mid, ERROR_NONE) && ValueSent(tdo, m, ValueAt(program, m, i), mid, b, error)
  }

  /** An XSDRINC after i steps: where it reads, and what went out if the masks have the register's length. */
  ghost predicate Stepped(program: seq<Byte>, tdo: seq<Edge> -> bool, m: Moment, i: nat, pos: nat, b: Place, error: int)
    requires Sized(m)
  {
    && StepAt(m, i) <= |program| && pos == StepAt(m, i) + (if i == 0 && error == ERROR_NONE then 1 else 0)
    && (|m.at.mask| == m.at.len ==> AllSent(program, tdo, m, i, b, error))
  }

  /** And the value in TDI. */
  ghost predicate Holds(program: seq<Byte>, m: Moment, i: nat, tdi: nat)
    requires Sized(m)
  {
    StepAt(m, i) <= |program| && (|m.at.mask| == m.at.len ==> tdi == ValueAt(program, m, i))
  }

  /** XSDRINC: the operands are the start value, a count and, for each step, the bytes of the data mask's bits; if
      the masks have the register's length, the values of all steps went out, or those up to an error. */
  ghost predicate Incremented(program: seq<Byte>, tdo: seq<Edge> -> bool, m: Moment, m': Moment, error: int)
    requires Sized(m)
  {
    var p, len, size := m.at.pos, m.at.len, |program|;
    && m'.conf == m.conf.(captured := m'.conf.captured) && |m'.conf.captured| == |m.conf.captured|
    && m'.at == m.at.(pos := m'.at.pos)
    && var b := Place(m'.trace, m'.tap, m'.conf.captured);
    if error == ERROR_NONE then
      && p + len < size && |m.at.mask| <= 255
      && Stepped(program, tdo, m, program[p + len], m'.at.pos, b, error)
    else
      exists i: nat :: Stepped(program, tdo, m, i, m'.at.pos, b, error)
        && (i > 0 ==> p + len < size && i <= program[p + len])
  }

  /** A command that began at m and is under way at n has changed no setting but what is captured. */
  ghost predicate Continues(m: Moment, n: Moment)
    requires Sized(m)
  {
    && n.at == m.at.(pos := n.at.pos) && n.conf == m.conf.(captured := n.conf.captured) && n.complete == m.complete
    && |n.conf.captured| == |m.conf.captured| && n.conf.captured[m.at.len..] == m.conf.captured[m.at.len..]
    && (InStep(m) ==> InStep(n))
  }

  /** A shift at n, until n', of an XSDRINC that began at m. */
  lemma DataDone(tdo: seq<Edge> -> bool, m: Moment, n: Moment, n': Moment, data: seq<Byte>, error: int)
    requires Sized(m) && Sized(n) && Continues(m, n) && |data| == m.at.len
    requires var check := Check(n.conf.expected, n.conf.tdoMask);
             && Advanced(n, n', check)
             && ShiftDone(DrScan(n, data, n.conf.endDr, check), tdo, Manner(n.conf.runTest, n.conf.repeat),
                          PlaceOf(n, check),
                          PlaceOf(n', check), error, InStep(n))
    requires InStep(n) ==> InStep(n')
    ensures DataSent(tdo, m, data, Place(n.trace, n.tap, n.conf.captured), Place(n'.trace, n'.tap, n'.conf.captured),
                     error)
    ensures Continues(m, n')
  {
    hide ShiftDone;
    var check := Check(n.conf.expected, n.conf.tdoMask);
    ShiftDoneWeaker(DrScan(n, data, n.conf.endDr, check), tdo, Manner(n.conf.runTest, n.conf.repeat), PlaceOf(n, check),
                    PlaceOf(n', check), error, InStep(n), InStep(m));
  }

  lemma FirstStep(program: seq<Byte>, tdo: seq<Edge> -> bool, m: Moment, pos: nat, data: seq<Byte>, b: Place,
                  error: int)
    requires Sized(m) && m.at.pos + m.at.len <= |program| && data == program[m.at.pos..m.at.pos + m.at.len]
    requires pos == m.at.pos + m.at.len + if error == ERROR_NONE then 1 else 0
    requires DataSent(tdo, m, data, Place(m.trace, m.tap, m.conf.captured), b, error)
    ensures Stepped(program, tdo, m, 0, pos, b, error) && Holds(program, m, 0, Number(data))
  {
    hide DataSent;
  }

  lemma NextStep(program: seq<Byte>, m: Moment, i: nat, pos: nat, tdi: nat, data: seq<Byte>)
    requires Sized(m) && Holds(program, m, i, tdi) && pos == m.at.pos + m.at.len + 1 + i * NumBytes(PopCount(m.at.mask))
    requires var k := NumBytes(PopCount(m.at.mask));
             && pos + k <= |program| && |data| == m.at.len
             && (|m.at.mask| == m.at.len ==>
                   Number(data) == Pdep((tdi + Number(m.conf.address[..m.at.len])) % Pow256(m.at.len),
                                        Number(m.at.mask),
                                        Number(program[pos..pos + k])))
    ensures pos + NumBytes(PopCount(m.at.mask)) == StepAt(m, i + 1) && Holds(program, m, i + 1, Number(data))
  {
    hide PopCount, Pdep, Number, Pow256;
    var k := NumBytes(PopCount(m.at.mask));
    OneMoreTime(i, k);
    if |m.at.mask| == m.at.len {
      IncrementNext(program, m.at.pos, m.at.len, Number(m.conf.address[..m.at.len]), Number(m.at.mask), k, i);
    }
  }

  lemma SteppedPos(program: seq<Byte>, tdo: seq<Edge> -> bool, m: Moment, i: nat, pos: nat, b: Place)
    requires Sized(m) && Stepped(program, tdo, m, i, pos, b, ERROR_NONE)
    ensures pos == m.at.pos + m.at.len + 1 + i * NumBytes(PopCount(m.at.mask))
  {
    hide AllSent, PopCount;
  }

  /** One step more. */
  lemma SteppedOn(program: seq<Byte>, tdo: seq<Edge> -> bool, m: Moment, i: nat, pos: nat, a: Place, data: seq<Byte>,
                  b: Place, error: int)
    requires Sized(m) && Stepped(program, tdo, m, i, pos, a, ERROR_NONE) && |data| == m.at.len
    requires pos + NumBytes(PopCount(m.at.mask)) == StepAt(m, i + 1) <= |program|
             && Holds(program, m, i + 1, Number(data))
    requires DataSent(tdo, m, data, a, b, error)
    ensures Stepped(program, tdo, m, i + 1, pos + NumBytes(PopCount(m.at.mask)), b, error)
  {
    hide DataSent, ValueAt, PopCount;
    if |m.at.mask| == m.at.len {
      assert ValueSent(tdo, m, ValueAt(program, m, i + 1), a, b, error);
    }
  }
}
