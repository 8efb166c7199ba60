/** The pins and the byte source of the XSVF player (firmware/common/xapp058/ports.c). */
module Ports {
  import opened Outcomes
  import opened Bytes
  import opened Tap

  datatype Pin = TMS | TDI | TCK

  /** The JTAG port. The device under test is any function from the edges it has seen to the level
      it drives on TDO; the program is the bytes readByte will deliver. */
  class Port {
    const program: seq<Byte>
    const tdo: seq<Edge> -> bool
    var pos: nat
    var tms: bool
    var tdi: bool
    var tck: bool
    var trace: seq<Edge>

    ghost predicate Valid()
      reads this
    {
      pos <= |program|
    }

    constructor (program: seq<Byte>, tdo: seq<Edge> -> bool, tms: bool, tdi: bool, tck: bool, trace: seq<Edge>)
      ensures Valid() && this.program == program && pos == 0 && this.trace == trace && this.tdo == tdo
    {
      this.program, this.tdo, this.pos := program, tdo, 0;
      this.tms, this.tdi, this.tck, this.trace := tms, tdi, tck, trace;
    }

    method SetPort(p: Pin, val: bool)
      modifies `tms, `tdi, `tck, `trace
      ensures tms == (if p == TMS then val else old(tms))
      ensures tdi == (if p == TDI then val else old(tdi))
      ensures tck == (if p == TCK then val else old(tck))
      ensures trace == if p == TCK && val && !old(tck) then old(trace) + [Edge(tms, tdi)] else old(trace)
    {
      if p == TMS {
        tms := val;
      }
      if p == TDI {
        tdi := val;
      }
      if p == TCK {
        if val && !tck {
          trace := trace + [Edge(tms, tdi)];
        }
        tck := val;
      }
    }

    method PulseClock()
      modifies `tms, `tdi, `tck, `trace
      ensures tms == old(tms) && tdi == old(tdi) && tck
      ensures trace == old(trace) + [Edge(tms, tdi)]
    {
      SetPort(TCK, false);
      SetPort(TCK, true);
    }

    /** Pulses the clock once per microsecond; not at all for a negative time. */
    method WaitTime(microsec: int)
      modifies `tms, `tdi, `tck, `trace
      ensures tms == old(tms) && tdi == old(tdi)
      ensures trace == old(trace) + Held(tms, tdi, if microsec > 0 then microsec else 0)
    {
      var i := 0;
      while i < microsec
        invariant 0 <= i && (microsec >= 0 ==> i <= microsec) && (microsec < 0 ==> i == 0)
        invariant tms == old(tms) && tdi == old(tdi)
        invariant trace == old(trace) + Held(tms, tdi, i)
      {
        PulseClock();
        assert Held(tms, tdi, i + 1) == Held(tms, tdi, i) + [Edge(tms, tdi)];
        i := i + 1;
      }
    }

    method ReadTdoBit() returns (bit: bool)
      ensures bit == tdo(trace)
    {
      bit := tdo(trace);
    }

    method ReadByte() returns (r: Outcome<Byte>)
      requires Valid()
      modifies `pos
      ensures Valid()
      ensures old(pos) < |program| ==> r == Done(program[old(pos)]) && pos == old(pos) + 1
      ensures old(pos) == |program| ==> r == Halted(Starved) && pos == old(pos)
    {
      if pos == |program| {
        return Halted(Starved);
      }
      r := Done(program[pos]);
      pos := pos + 1;
    }
  }

  /** A wait is that many equal steps of the controller. */
  lemma {:induction false} AfterHeld(s: Controller, trace: seq<Edge>, tms: bool, tdi: bool, n: nat)
    ensures After(s, trace + Held(tms, tdi, n)) == ClockTimes(After(s, trace), tms, n)
  {
    if n == 0 {
      assert trace + Held(tms, tdi, 0) == trace;
    } else {
      AfterHeld(s, trace, tms, tdi, n - 1);
      assert trace + Held(tms, tdi, n) == (trace + Held(tms, tdi, n - 1)) + [Edge(tms, tdi)];
      AfterAppend(s, trace + Held(tms, tdi, n - 1), Edge(tms, tdi));
    }
  }
}
