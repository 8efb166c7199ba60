/** Shifting a buffer through the scan chain: xsvfShiftOnly of firmware/common/xapp058/micro.c. */
module Shifting {
  import opened Bytes
  import opened LenVals
  import opened Ports
  import opened Tap

  /** The edges of a shift of n bits: least significant bit first, TMS raised on the last one when the
      shift also leaves the Shift state. */
  ghost function ShiftEdges(data: seq<Byte>, n: nat, tms: bool, exit: bool): (es: seq<Edge>)
    requires n <= 8 * |data|
    ensures |es| == n
  {
    seq(n, k requires 0 <= k < n => Edge(tms || (exit && k == n - 1), BitAt(data, k)))
  }

  /** The captured buffer: bit k is the level on TDO just before edge k, bits above the shift are zero. */
  ghost predicate CapturedFrom(bytes: seq<Byte>, tdo: seq<Edge> -> bool, h: seq<Edge>, es: seq<Edge>) {
    forall k: nat | k < 8 * |bytes| :: BitAt(bytes, k) == Level(tdo, h, es, k)
  }

  ghost predicate Level(tdo: seq<Edge> -> bool, h: seq<Edge>, es: seq<Edge>, k: nat) {
    k < |es| && tdo(h + es[..k])
  }

  ghost predicate SampledByte(byte: Byte, tdo: seq<Edge> -> bool, h: seq<Edge>, es: seq<Edge>, first: nat) {
    forall b: nat | b < 8 :: Bit(byte, b) == Level(tdo, h, es, first + b)
  }

  /** The edges of a shift went out after history h, the controllers being in the Shift state then if inStep
      says so. */
  ghost predicate SentIn(trace: seq<Edge>, h: seq<Edge>, state: Code, data: seq<Byte>, n: nat, exit: bool, inStep: bool)
    requires n <= 8 * |data|
  {
    && h + ShiftEdges(data, n, false, exit) <= trace
    && (inStep ==> forall s: Controller :: CodeOf(After(s, h)) == state)
  }

  /** They went out after some history that begins with the given one. */
  ghost predicate SentSince(from: seq<Edge>, trace: seq<Edge>, state: Code, data: seq<Byte>, n: nat, exit: bool,
                            inStep: bool)
    requires n <= 8 * |data|
  {
    exists h: seq<Edge> {:trigger SentIn(trace, h, state, data, n, exit, inStep)} ::
      from <= h && SentIn(trace, h, state, data, n, exit, inStep)
  }

  /** The buffer, if there is one, holds what the device drove meanwhile. */
  ghost predicate Caught(captured: LenVal?, tdo: seq<Edge> -> bool, h: seq<Edge>, data: seq<Byte>, n: nat, exit: bool)
    requires n <= 8 * |data| && (captured != null ==> captured.Valid())
    reads captured, if captured == null then {} else {captured.val}
  {
    captured != null ==>
      captured.len == |data| && CapturedFrom(captured.Text(), tdo, h, ShiftEdges(data, n, false, exit))
  }

  lemma SentWeaker(trace: seq<Edge>, h: seq<Edge>, state: Code, data: seq<Byte>, n: nat, exit: bool, inStep: bool,
                   claimed: bool)
    requires n <= 8 * |data| && SentIn(trace, h, state, data, n, exit, inStep) && (claimed ==> inStep)
    ensures SentIn(trace, h, state, data, n, exit, claimed)
  {
  }

  lemma SampledBytes(bytes: seq<Byte>, tdo: seq<Edge> -> bool, h: seq<Edge>, es: seq<Edge>)
    requires forall i | 0 <= i < |bytes| :: SampledByte(bytes[i], tdo, h, es, 8 * (|bytes| - 1 - i))
    ensures CapturedFrom(bytes, tdo, h, es)
  {
  }

  /** One bit: TMS is raised first if this bit leaves the Shift state; TDO is read while TCK is low. */
  method ShiftBit(port: Port, leave: bool, tdi: bool) returns (tdoBit: bool)
    modifies port`tms, port`tdi, port`tck, port`trace
    ensures port.tms == (old(port.tms) || leave)
    ensures port.trace == old(port.trace) + [Edge(port.tms, tdi)]
    ensures tdoBit == port.tdo(old(port.trace))
  {
    if leave {
      port.SetPort(TMS, true);
    }
    port.SetPort(TDI, tdi);
    port.SetPort(TCK, false);
    tdoBit := port.ReadTdoBit();
    port.SetPort(TCK, true);
  }

  /** One byte, or what is left of the shift: the inner loop. */
  method ShiftByte(port: Port, tdi: Byte, bits0: nat, capture: bool, exitShift: bool,
                   ghost data: seq<Byte>, ghost index: nat, ghost h: seq<Edge>, ghost es: seq<Edge>, ghost tms: bool)
    returns (bits: nat, tdoByte: Byte)
    requires index < |data| && tdi == data[index] && bits0 > 0
    requires |es| - bits0 == 8 * (|data| - 1 - index) && |es| <= 8 * |data|
             && es == ShiftEdges(data, |es|, tms, exitShift)
    requires port.trace == h + es[..|es| - bits0] && port.tms == tms
    modifies port`tms, port`tdi, port`tck, port`trace
    ensures bits == if bits0 > 8 then bits0 - 8 else 0
    ensures port.trace == h + es[..|es| - bits]
    ensures port.tms == (tms || (exitShift && bits == 0))
    ensures capture ==> SampledByte(tdoByte, port.tdo, h, es, |es| - bits0)
  {
    bits := bits0;
    ghost var first := |es| - bits0;
    var tdiByte: nat := tdi;
    tdoByte := 0;
    forall b: nat ensures !Bit(0, b) { ShrZero(b); }
    var i := 0;
    while bits != 0 && i < 8
      invariant 0 <= i <= 8 && bits0 - bits == i
      invariant tdiByte == Shr(tdi, i)
      invariant port.trace == h + es[..first + i]
      invariant port.tms == (tms || (exitShift && bits == 0))
      invariant forall b: nat :: Bit(tdoByte, b) == (capture && b < i && Level(port.tdo, h, es, first + b))
    {
      bits := bits - 1;
      BitOfByte(data, index, i);
      assert h + es[..first + i + 1] == h + es[..first + i] + [es[first + i]];
      var tdoBit := ShiftBit(port, exitShift && bits == 0, tdiByte % 2 == 1);
      tdiByte := tdiByte / 2;
      if capture {
        tdoByte := ByteWithBit(tdoByte, i, tdoBit);
      }
      i := i + 1;
    }
  }

  /** Shifts tdi out and, if a buffer is given for it, TDO in. The last edge is pulsed as well. */
  method ShiftOnly(port: Port, numBits: nat, tdi: LenVal, captured: LenVal?, exitShift: bool)
    requires tdi.Valid() && (numBits + 7) / 8 == tdi.len
    requires captured != null ==> captured.Valid() && captured != tdi && captured.val != tdi.val
    modifies port`tms, port`tdi, port`tck, port`trace
    modifies if captured == null then {} else {captured, captured.val}
    ensures var es := ShiftEdges(tdi.Text(), numBits, old(port.tms), exitShift);
            && port.trace == old(port.trace) + es
            && (captured != null ==>
                  && captured.Valid() && captured.len == tdi.len
                  && CapturedFrom(captured.Text(), port.tdo, old(port.trace), es)
                  && captured.val[tdi.len..] == old(captured.val[tdi.len..]))
    ensures port.tms == (old(port.tms) || (exitShift && numBits > 0))
  {
    ghost var h, data, tms := port.trace, tdi.Text(), port.tms;
    ghost var es := ShiftEdges(data, numBits, tms, exitShift);
    if captured != null {
      captured.len := tdi.len;
    }
    assert h + es[..0] == h;
    var bits := numBits;
    var index := tdi.len;
    while bits != 0
      invariant 0 <= bits <= numBits && 0 <= index <= tdi.len
      invariant if bits != 0 then numBits - bits == 8 * (tdi.len - index) else index == 0
      invariant port.trace == h + es[..numBits - bits]
      invariant port.tms == (tms || (exitShift && bits == 0 && numBits > 0))
      invariant captured != null ==> captured.len == tdi.len
      invariant captured != null ==> captured.val[tdi.len..] == old(captured.val[tdi.len..])
      invariant captured != null ==> forall i | index <= i < tdi.len ::
          SampledByte(captured.val[i], port.tdo, h, es, 8 * (tdi.len - 1 - i))
    {
      index := index - 1;
      var tdoByte;
      bits, tdoByte := ShiftByte(port, tdi.val[index], bits, captured != null, exitShift, data, index, h, es, tms);
      if captured != null {
        captured.val[index] := tdoByte;
      }
    }
    if captured != null {
      SampledBytes(captured.Text(), port.tdo, h, es);
    }
    assert es[..numBits] == es;
  }

  lemma BitOfByte(data: seq<Byte>, index: nat, i: nat)
    requires index < |data| && i < 8
    ensures BitAt(data, 8 * (|data| - 1 - index) + i) == (Shr(data[index], i) % 2 == 1)
  {
  }

  // ---- The device's side ----

  /** A scan register after some edges in a Shift state: each one drops the bit next to TDO and takes
      TDI in at the other end. */
  ghost function Shifted(reg: seq<bool>, es: seq<Edge>): (r: seq<bool>)
    requires reg != []
    ensures |r| == |reg|
  {
    if es == [] then reg
    else Shifted(reg, es[..|es| - 1])[1..] + [es[|es| - 1].tdi]
  }

  lemma {:induction false} ShiftedContents(reg: seq<bool>, es: seq<Edge>, k: nat)
    requires reg != [] && k < |reg| && |es| <= |reg|
    ensures Shifted(reg, es)[k] == if k < |reg| - |es| then reg[k + |es|] else es[k - (|reg| - |es|)].tdi
  {
    if es != [] && k < |reg| - 1 {
      ShiftedContents(reg, es[..|es| - 1], k + 1);
    }
  }

  /** TDO of a device whose register of n bits stands in the chain when history h ends. */
  ghost predicate DrivenBy(tdo: seq<Edge> -> bool, h: seq<Edge>, reg: seq<bool>) {
    reg != [] && forall es: seq<Edge> | |es| < |reg| :: tdo(h + es) == Shifted(reg, es)[0]
  }

  lemma RegisterTakesBit(reg: seq<bool>, data: seq<Byte>, tms: bool, exit: bool, k: nat)
    requires k < |reg| && (|reg| + 7) / 8 == |data|
    ensures Shifted(reg, ShiftEdges(data, |reg|, tms, exit))[k] == Bit(Number(data), k)
  {
    hide Shifted, Number;
    var es := ShiftEdges(data, |reg|, tms, exit);
    ShiftedContents(reg, es, k);
    assert es[k].tdi == BitAt(data, k);
    BitAtIsNumberBit(data, k);
  }

  lemma BufferTakesRegister(tdo: seq<Edge> -> bool, h: seq<Edge>, reg: seq<bool>, es: seq<Edge>, captured: seq<Byte>)
    requires |reg| == |es| && (|reg| + 7) / 8 == |captured|
    requires DrivenBy(tdo, h, reg) && CapturedFrom(captured, tdo, h, es)
    ensures forall k: nat :: Bit(Number(captured), k) == (k < |reg| && reg[k])
  {
    forall k: nat ensures Bit(Number(captured), k) == (k < |reg| && reg[k]) {
      if k < 8 * |captured| {
        BitAtIsNumberBit(captured, k);
        LevelIsRegisterBit(tdo, h, reg, es, k);
      } else {
        HighBitsZero(captured, k);
      }
    }
  }

  /** Shifting n bits through an n-bit register: the register ends with the bits of the shifted
      number, and the captured number has the bits the register held, with zeros above them. */
  lemma ScanExchangesContents(tdo: seq<Edge> -> bool, h: seq<Edge>, reg: seq<bool>, data: seq<Byte>, tms: bool,
                              exit: bool, captured: seq<Byte>)
    requires reg != [] && (|reg| + 7) / 8 == |data| == |captured|
    requires DrivenBy(tdo, h, reg)
    requires CapturedFrom(captured, tdo, h, ShiftEdges(data, |reg|, tms, exit))
    ensures var es := ShiftEdges(data, |reg|, tms, exit);
            forall k: nat | k < |reg| :: Shifted(reg, es)[k] == Bit(Number(data), k)
    ensures forall k: nat :: Bit(Number(captured), k) == (k < |reg| && reg[k])
  {
    forall k: nat | k < |reg| ensures Shifted(reg, ShiftEdges(data, |reg|, tms, exit))[k] == Bit(Number(data), k) {
      RegisterTakesBit(reg, data, tms, exit, k);
    }
    BufferTakesRegister(tdo, h, reg, ShiftEdges(data, |reg|, tms, exit), captured);
  }

  lemma LevelIsRegisterBit(tdo: seq<Edge> -> bool, h: seq<Edge>, reg: seq<bool>, es: seq<Edge>, k: nat)
    requires DrivenBy(tdo, h, reg) && |es| == |reg|
    ensures Level(tdo, h, es, k) == (k < |reg| && reg[k])
  {
    if k < |reg| {
      ShiftedContents(reg, es[..k], 0);
    }
  }

  // ---- The controller's side ----

  lemma {:induction false} AfterConcat(s: Controller, h: seq<Edge>, es: seq<Edge>)
    ensures After(s, h + es) == After(After(s, h), es)
  {
    if es == [] {
      assert h + es == h;
    } else {
      var n := |es| - 1;
      AfterConcat(s, h, es[..n]);
      assert h + es == (h + es[..n]) + [es[n]];
      AfterAppend(s, h + es[..n], es[n]);
    }
  }

  lemma AllAfterConcat(a: Controller, h: seq<Edge>, es: seq<Edge>)
    requires forall s: Controller :: After(s, h) == a
    ensures forall s: Controller :: After(s, h + es) == After(a, es)
  {
    forall s: Controller ensures After(s, h + es) == After(a, es) {
      AfterConcat(s, h, es);
    }
  }

  /** A shift stays in its Shift state and, if it is to leave, ends in Exit1. */
  lemma AfterShift(s: Controller, data: seq<Byte>, n: nat, exit: bool)
    requires CodeOf(s) in {SHIFTDR, SHIFTIR} && 0 < n <= 8 * |data|
    ensures CodeOf(After(s, ShiftEdges(data, n, false, exit))) == CodeOf(s) + if exit then 1 else 0
  {
    var es := ShiftEdges(data, n, false, exit);
    ShiftStays(s, es[..n - 1]);
  }

  lemma {:induction false} ShiftStays(s: Controller, es: seq<Edge>)
    requires CodeOf(s) in {SHIFTDR, SHIFTIR}
    requires forall k :: 0 <= k < |es| ==> !es[k].tms
    ensures After(s, es) == s
  {
    if es != [] {
      ShiftStays(s, es[..|es| - 1]);
    }
  }
}
