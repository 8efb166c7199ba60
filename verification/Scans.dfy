/** What xsvfShift of firmware/common/xapp058/micro.c does on the wire: attempts, each a shift and, if it leaves
    the Shift state, a wait in Run-Test/Idle, which grows from one attempt to the next. */
module Scans {
  import opened Bytes
  import opened LenVals
  import opened Shifting
  import opened Tap

  /** A shift of the first bits of data from a Shift state to an end state. Checked, what is seen on TDO is
      compared to expected under the mask; a longer expectation also to what is left over in the buffer. */
  datatype Scan = Scan(state: Code, data: seq<Byte>, bits: nat, end: Code,
                       checked: bool, expected: seq<Byte>, mask: seq<Byte>, stale: seq<Byte>)
  {
    ghost predicate Ok() {
      state in {SHIFTDR, SHIFTIR} && bits <= 8 * |data|
        && (checked ==> |expected| <= |mask| && |expected| <= |data| + |stale|)
    }

    /** The shift leaves the Shift state. */
    predicate Exits() {
      state != end
    }

    ghost function Edges(): seq<Edge>
      requires Ok()
    {
      ShiftEdges(data, bits, false, Exits())
    }
  }

  /** The trace ends with a wait, entered in Run-Test/Idle. */
  ghost predicate RestedAt(from: seq<Edge>, to: seq<Edge>, w: seq<Edge>, tdi: bool, time: nat, inStep: bool) {
    && from <= w && to == w + Held(false, tdi, time)
    && (inStep ==> forall s: Controller :: After(s, w) == RunTestIdle)
  }

  ghost predicate Rested(from: seq<Edge>, to: seq<Edge>, time: nat, inStep: bool) {
    exists w: seq<Edge>, tdi: bool :: RestedAt(from, to, w, tdi, time, inStep)
  }

  /** The edges that an attempt takes from Exit1 on: to the end state, or, before a retry, to Pause-DR and on to
      Shift-DR, which is left with one more bit; and from there to the wait, if there is one. */
  function LeaveSteps(x: Scan, time: int, retry: bool): nat
    requires x.state in {SHIFTDR, SHIFTIR}
  {
    (if retry then Distance(x.state + 1, PAUSEDR) + Distance(PAUSEDR, SHIFTDR) else Distance(x.state + 1, x.end))
    + if time == 0 then 0 else RestSteps(if retry then SHIFTDR else x.end, time)
  }

  /** The edges of a wait that begins with the walk to Run-Test/Idle. */
  function RestSteps(tap: Code, time: int): nat {
    Distance(tap, RUNTEST) + if time > 0 then time else 0
  }

  /** One attempt: its edges follow history h, at which the controllers are in the Shift state, and a positive
      time is waited if it leaves that state. */
  ghost predicate Tried(x: Scan, from: seq<Edge>, to: seq<Edge>, h: seq<Edge>, time: int, retry: bool, inStep: bool)
    requires x.Ok()
  {
    var sent := h + x.Edges();
    && from <= h && sent <= to
    && (inStep ==> forall s: Controller :: CodeOf(After(s, h)) == x.state)
    && (if x.Exits() then |to| == |sent| + LeaveSteps(x, time, retry) && (time > 0 ==> Rested(sent, to, time, inStep))
        else to == sent)
  }

  /** What is compared to bit k of byte i of the expectation. */
  ghost predicate Seen(x: Scan, tdo: seq<Edge> -> bool, h: seq<Edge>, i: nat, k: nat)
    requires x.Ok() && k < 8 && i < |x.data| + |x.stale|
  {
    if i < |x.data| then Level(tdo, h, x.Edges(), 8 * (|x.data| - 1 - i) + k) else Bit(x.stale[i - |x.data|], k)
  }

  /** What the device drives after history h differs from the expectation, where the mask says. */
  ghost predicate Mismatches(x: Scan, tdo: seq<Edge> -> bool, h: seq<Edge>)
    requires x.Ok()
  {
    x.checked && exists i: nat, k: nat ::
      i < |x.expected| && k < 8 && Bit(x.mask[i], k) && Bit(x.expected[i], k) != Seen(x, tdo, h, i, k)
  }

  lemma MismatchCaptured(x: Scan, tdo: seq<Edge> -> bool, h: seq<Edge>, captured: seq<Byte>)
    requires x.Ok() && x.checked && |captured| == |x.data| + |x.stale| && captured[|x.data|..] == x.stale
    requires CapturedFrom(captured[..|x.data|], tdo, h, x.Edges())
    ensures Mismatches(x, tdo, h) <==> !Agree(x.expected, captured, x.mask)
  {
    forall i: nat, k: nat | i < |captured| && k < 8
      ensures Seen(x, tdo, h, i, k) == Bit(captured[i], k)
    {
      if i < |x.data| {
        assert BitAt(captured[..|x.data|], 8 * (|x.data| - 1 - i) + k) == Bit(captured[i], k);
      } else {
        assert captured[|x.data|..][i - |x.data|] == captured[i];
      }
    }
    forall i: nat, k: nat | i < |x.expected| && Bit(x.mask[i], k)
      ensures k < 8
    {
      if k >= 8 { ByteHasEightBits(x.mask[i], k); }
    }
  }

  /** A run-test time a quarter longer, in the target's 32-bit arithmetic. */
  function Stretch(time: int): int {
    Int32(time + time / 4)
  }

  /** The time after k retries. */
  function Stretched(time: int, k: nat): int {
    if k == 0 then time else Stretch(Stretched(time, k - 1))
  }

  /** k attempts, one after the other, each with a mismatch and, if there is a time to wait, a longer one. */
  ghost predicate Retried(x: Scan, tdo: seq<Edge> -> bool, from: seq<Edge>, to: seq<Edge>, time: int, k: nat,
                          inStep: bool)
    requires x.Ok()
    decreases k
  {
    if k == 0 then to == from
    else
      var wait, detour := Stretched(time, k), Stretched(time, k - 1) != 0;
      exists mid: seq<Edge>, h: seq<Edge> {:trigger Tried(x, mid, to, h, wait, detour, inStep)} ::
        && Retried(x, tdo, from, mid, time, k - 1, inStep) && Mismatches(x, tdo, h)
        && Tried(x, mid, to, h, wait, detour, inStep)
  }

  /** k such attempts and the last one, after history h. */
  ghost predicate Scanned(x: Scan, tdo: seq<Edge> -> bool, from: seq<Edge>, to: seq<Edge>, h: seq<Edge>, time: int,
                          k: nat, inStep: bool)
    requires x.Ok()
  {
    exists mid: seq<Edge> {:trigger Tried(x, mid, to, h, Stretched(time, k), false, inStep)} ::
      Retried(x, tdo, from, mid, time, k, inStep) && Tried(x, mid, to, h, Stretched(time, k), false, inStep)
  }

  const ERROR_NONE := 0
  const ERROR_TDOMISMATCH := 2
  const ERROR_MAXRETRIES := 3

  /** How the player shifts: the time to wait afterwards, and how many retries there may be. */
  datatype Manner = Manner(time: int, max: Byte)

  /** Where it stands: the edges so far, the tracked state, and the buffer for what is captured, if there is one. */
  datatype Place = Place(trace: seq<Edge>, tap: Code, captured: seq<Byte>)

  /** After the last attempt, which follows h and is retry number k: it mismatched iff there is an error, which is
      only if it was the last one allowed; what was seen is captured; and the tap rests in Run-Test/Idle if
      there was a time to wait. */
  ghost predicate EndsWell(x: Scan, tdo: seq<Edge> -> bool, y: Manner, h: seq<Edge>, k: nat, a: Place, b: Place,
                           error: int)
    requires x.Ok()
  {
    && k <= y.max && b.tap == (if !x.Exits() then x.state else if Stretched(y.time, k) != 0 then RUNTEST else x.end)
    && (error == ERROR_NONE <==> !Mismatches(x, tdo, h))
    && (error != ERROR_NONE ==> k == y.max && error == if 0 < y.max < 255 then ERROR_MAXRETRIES else ERROR_TDOMISMATCH)
    && (if a.captured == [] then b.captured == [] else CapturedInto(x, tdo, h, a.captured, b.captured))
  }

  ghost predicate CapturedInto(x: Scan, tdo: seq<Edge> -> bool, h: seq<Edge>, was: seq<Byte>, captured: seq<Byte>)
    requires x.Ok()
  {
    && |x.data| <= |captured| == |was| && captured[|x.data|..] == was[|x.data|..]
    && CapturedFrom(captured[..|x.data|], tdo, h, x.Edges())
  }

  /** A whole xsvfShift; without bits it is the wait alone. */
  ghost predicate ShiftDone(x: Scan, tdo: seq<Edge> -> bool, y: Manner, a: Place, b: Place, error: int, inStep: bool)
    requires x.Ok()
  {
    if x.bits == 0 then
      && error == ERROR_NONE && b.captured == a.captured
      && (if y.time == 0 then b == a
          else
            && b.tap == RUNTEST && a.trace <= b.trace && |b.trace| == |a.trace| + RestSteps(a.tap, y.time)
            && (y.time > 0 ==> Rested(a.trace, b.trace, y.time, inStep)))
    else
      exists h: seq<Edge>, k: nat {:trigger Scanned(x, tdo, a.trace, b.trace, h, y.time, k, inStep)} ::
        Scanned(x, tdo, a.trace, b.trace, h, y.time, k, inStep) && EndsWell(x, tdo, y, h, k, a, b, error)
  }

  lemma RestedWeaker(from: seq<Edge>, to: seq<Edge>, time: nat, inStep: bool, claimed: bool)
    requires Rested(from, to, time, inStep) && (claimed ==> inStep)
    ensures Rested(from, to, time, claimed)
  {
    var w: seq<Edge>, tdi: bool :| RestedAt(from, to, w, tdi, time, inStep);
    assert RestedAt(from, to, w, tdi, time, claimed);
  }

  lemma TriedWeaker(x: Scan, from: seq<Edge>, to: seq<Edge>, h: seq<Edge>, time: int, retry: bool, inStep: bool,
                    claimed: bool)
    requires x.Ok() && Tried(x, from, to, h, time, retry, inStep) && (claimed ==> inStep)
    ensures Tried(x, from, to, h, time, retry, claimed)
  {
    if x.Exits() && time > 0 {
      RestedWeaker(h + x.Edges(), to, time, inStep, claimed);
    }
  }

  lemma RestedSince(from: seq<Edge>, mid: seq<Edge>, to: seq<Edge>, time: nat, inStep: bool, claimed: bool)
    requires from <= mid && Rested(mid, to, time, inStep) && (claimed ==> inStep)
    ensures Rested(from, to, time, claimed)
  {
    var w: seq<Edge>, tdi: bool :| RestedAt(mid, to, w, tdi, time, inStep);
    assert RestedAt(from, to, w, tdi, time, claimed);
  }

  lemma CapturedAgain(x: Scan, tdo: seq<Edge> -> bool, h0: seq<Edge>, h: seq<Edge>, was: seq<Byte>, before: seq<Byte>,
                      captured: seq<Byte>)
    requires x.Ok() && CapturedInto(x, tdo, h0, was, before) && CapturedInto(x, tdo, h, before, captured)
    ensures CapturedInto(x, tdo, h, was, captured)
  {
  }

  /** A shift that stays waits for no time. */
  lemma AnyTime(x: Scan, from: seq<Edge>, to: seq<Edge>, h: seq<Edge>, time: int, time': int, retry: bool,
                retry': bool, inStep: bool)
    requires x.Ok() && Tried(x, from, to, h, time, retry, inStep) && (x.Exits() ==> time == time' && retry == retry')
    ensures Tried(x, from, to, h, time', retry', inStep)
  {
  }

  lemma NotChecked(x: Scan, tdo: seq<Edge> -> bool, h: seq<Edge>)
    requires x.Ok() && !x.checked
    ensures !Mismatches(x, tdo, h)
  {
  }

  lemma NextTime(time: int, k: nat)
    ensures Stretched(time, k + 1) == Stretch(Stretched(time, k)) && Stretched(time, 0) == time && Stretch(0) == 0
  {
  }

  lemma {:induction false} RetriedWeaker(x: Scan, tdo: seq<Edge> -> bool, from: seq<Edge>, to: seq<Edge>, time: int,
                                         k: nat,
                                         inStep: bool, claimed: bool)
    requires x.Ok() && Retried(x, tdo, from, to, time, k, inStep) && (claimed ==> inStep)
    ensures Retried(x, tdo, from, to, time, k, claimed)
    decreases k
  {
    if k > 0 {
      var mid: seq<Edge>, h: seq<Edge> :|
        Retried(x, tdo, from, mid, time, k - 1, inStep) && Mismatches(x, tdo, h)
          && Tried(x, mid, to, h, Stretched(time, k), Stretched(time, k - 1) != 0, inStep);
      RetriedWeaker(x, tdo, from, mid, time, k - 1, inStep, claimed);
      TriedWeaker(x, mid, to, h, Stretched(time, k), Stretched(time, k - 1) != 0, inStep, claimed);
    }
  }

  /** What holds if the controllers were in step holds if less is claimed. */
  lemma ShiftDoneWeaker(x: Scan, tdo: seq<Edge> -> bool, y: Manner, a: Place, b: Place, error: int, inStep: bool,
                        claimed: bool)
    requires x.Ok() && ShiftDone(x, tdo, y, a, b, error, inStep) && (claimed ==> inStep)
    ensures ShiftDone(x, tdo, y, a, b, error, claimed)
  {
    if x.bits == 0 {
      if y.time > 0 { RestedWeaker(a.trace, b.trace, y.time, inStep, claimed); }
    } else {
      var h: seq<Edge>, k: nat :|
        Scanned(x, tdo, a.trace, b.trace, h, y.time, k, inStep) && EndsWell(x, tdo, y, h, k, a, b, error);
      var mid: seq<Edge> :| Retried(x, tdo, a.trace, mid, y.time, k, inStep)
                            && Tried(x, mid, b.trace, h, Stretched(y.time, k), false, inStep);
      hide Tried, EndsWell;
      RetriedWeaker(x, tdo, a.trace, mid, y.time, k, inStep, claimed);
      TriedWeaker(x, mid, b.trace, h, Stretched(y.time, k), false, inStep, claimed);
      assert Scanned(x, tdo, a.trace, b.trace, h, y.time, k, claimed);
    }
  }

  lemma FirstTry(x: Scan, tdo: seq<Edge> -> bool, from: seq<Edge>, time: int, inStep: bool)
    requires x.Ok()
    ensures Retried(x, tdo, from, from, time, 0, inStep) && Stretched(time, 0) == time
  {
  }

  lemma OneMoreTry(x: Scan, tdo: seq<Edge> -> bool, from: seq<Edge>, mid: seq<Edge>, to: seq<Edge>, h: seq<Edge>,
                   time: int, k: nat, inStep: bool)
    requires x.Ok() && Retried(x, tdo, from, mid, time, k, inStep) && Mismatches(x, tdo, h)
    requires Tried(x, mid, to, h, Stretched(time, k + 1), Stretched(time, k) != 0, inStep)
    ensures Retried(x, tdo, from, to, time, k + 1, inStep)
  {
  }

  lemma {:induction false} RetriedSince(x: Scan, tdo: seq<Edge> -> bool, from: seq<Edge>, to: seq<Edge>, time: int,
                                        k: nat, inStep: bool)
    requires x.Ok() && Retried(x, tdo, from, to, time, k, inStep)
    ensures from <= to
    decreases k
  {
    if k > 0 {
      var mid: seq<Edge>, h: seq<Edge> :|
        Retried(x, tdo, from, mid, time, k - 1, inStep)
          && Tried(x, mid, to, h, Stretched(time, k), Stretched(time, k - 1) != 0, inStep);
      RetriedSince(x, tdo, from, mid, time, k - 1, inStep);
      assert Tried(x, mid, to, h, Stretched(time, k), Stretched(time, k - 1) != 0, inStep);
      assert mid <= h;
      assert h <= h + x.Edges();
      assert h + x.Edges() <= to;
    }
  }

  lemma ScannedSince(x: Scan, tdo: seq<Edge> -> bool, from: seq<Edge>, to: seq<Edge>, h: seq<Edge>, time: int, k: nat,
                     inStep: bool)
    requires x.Ok() && Scanned(x, tdo, from, to, h, time, k, inStep)
    ensures from <= to
  {
    var mid: seq<Edge> :| Retried(x, tdo, from, mid, time, k, inStep)
      && Tried(x, mid, to, h, Stretched(time, k), false, inStep);
    RetriedSince(x, tdo, from, mid, time, k, inStep);
    assert Tried(x, mid, to, h, Stretched(time, k), false, inStep);
    assert mid <= h;
    assert h <= h + x.Edges();
    assert h + x.Edges() <= to;
  }

  /** A positive time grows by a quarter, cut to whole microseconds, iff it then still fits 31 bits; a longer one
      becomes negative, and nothing is waited. */
  lemma StretchGrows(time: int)
    requires 0 < time <= 0x7FFF_FFFF
    ensures if time <= 0x6666_6666 then Stretch(time) == time + time / 4 else Stretch(time) < 0
  {
  }
}
