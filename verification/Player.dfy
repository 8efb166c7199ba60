/** The XSVF player of firmware/common/xapp058/micro.c: the tap moves, the shift with its retries and
    the commands. The player keeps its own copy of the TAP state; Slipped says when that copy is wrong. */
module Player {
  import opened Outcomes
  import opened Bytes
  import opened LenVals
  import opened Masking
  import opened Ports
  import opened Scans
  import opened Shifting
  import opened Tap
  import opened Waiting
  import opened Xsvf

  class Player {
    const port: Port
    var complete: bool
    var command: Byte
    var commandCount: nat
    var errorCode: int
    var tapState: Code
    var endIr: Code
    var endDr: Code
    var maxRepeat: Byte
    var runTestTime: int
    var shiftLengthBits: nat
    var shiftLengthBytes: nat
    const lvTdi: LenVal
    const lvTdoExpected: LenVal
    const lvTdoCaptured: LenVal
    const lvTdoMask: LenVal
    const lvAddressMask: LenVal
    const lvDataMask: LenVal
    const lvNextData: LenVal
    /** The state that every controller is in, after the reset sequence. */
    ghost var actual: Controller

    ghost predicate Valid()
      reads this, port, lvTdi, lvTdoExpected, lvTdoCaptured, lvTdoMask, lvAddressMask, lvDataMask, lvNextData
      ensures Valid() ==> port.Valid() && BuffersOk()
    {
      && port.Valid()
      && BuffersOk()
      && endIr in {RUNTEST, PAUSEIR} && endDr in {RUNTEST, PAUSEDR}
      && shiftLengthBytes == NumBytes(shiftLengthBits)
      && (errorCode == ERROR_NONE ==> shiftLengthBytes <= MAX_LEN)
    }

    ghost predicate BuffersOk()
      reads lvTdi, lvTdoExpected, lvTdoCaptured, lvTdoMask, lvAddressMask, lvDataMask, lvNextData
      ensures BuffersOk() ==> lvTdi.Valid() && lvTdoExpected.Valid() && lvTdoCaptured.Valid() && lvTdoMask.Valid()
      ensures BuffersOk() ==> lvAddressMask.Valid() && lvDataMask.Valid()
    {
      && lvTdi.Valid() && lvTdoExpected.Valid() && lvTdoCaptured.Valid() && lvTdoMask.Valid()
      && lvAddressMask.Valid() && lvDataMask.Valid() && lvNextData.Valid()
      && Distinct()
    }

    /** No two buffers share anything. */
    ghost predicate Distinct() {
      && Apart(lvTdi, lvTdoExpected) && Apart(lvTdi, lvTdoCaptured) && Apart(lvTdi, lvTdoMask)
      && Apart(lvTdi, lvAddressMask) && Apart(lvTdi, lvDataMask) && Apart(lvTdi, lvNextData)
      && Apart(lvTdoExpected, lvTdoCaptured) && Apart(lvTdoExpected, lvTdoMask) && Apart(lvTdoExpected, lvAddressMask)
      && Apart(lvTdoExpected, lvDataMask) && Apart(lvTdoExpected, lvNextData)
      && Apart(lvTdoCaptured, lvTdoMask) && Apart(lvTdoCaptured, lvAddressMask) && Apart(lvTdoCaptured, lvDataMask)
      && Apart(lvTdoCaptured, lvNextData)
      && Apart(lvTdoMask, lvAddressMask) && Apart(lvTdoMask, lvDataMask) && Apart(lvTdoMask, lvNextData)
      && Apart(lvAddressMask, lvDataMask) && Apart(lvAddressMask, lvNextData)
      && Apart(lvDataMask, lvNextData)
    }

    /** Every controller that saw the trace, whatever state it started from, is in the actual state; and TMS
        is at the level that enters the tracked state. */
    ghost predicate InSync()
      reads `actual, `tapState, port`tms, port`trace
    {
      && (forall s: Controller :: After(s, port.trace) == actual)
      && port.tms == EnteredHigh(tapState)
    }

    /** The tracked state is not the actual one. */
    ghost predicate Slipped()
      reads `actual, `tapState
    {
      CodeOf(actual) != tapState
    }

    /** xsvfInfoInit. */
    constructor (port: Port)
      requires port.Valid()
      ensures Valid() && this.port == port
      ensures errorCode == ERROR_NONE && !complete && commandCount == 0 && Initial(Now())
      ensures fresh({lvTdi, lvTdoExpected, lvTdoCaptured, lvTdoMask, lvAddressMask, lvDataMask, lvNextData})
      ensures fresh({lvTdi.val, lvTdoExpected.val, lvTdoCaptured.val, lvTdoMask.val})
      ensures fresh({lvAddressMask.val, lvDataMask.val, lvNextData.val})
    {
      this.port := port;
      complete, command, commandCount, errorCode := false, 0, 0, ERROR_NONE;
      maxRepeat, tapState, endIr, endDr := 0, RESET, RUNTEST, RUNTEST;
      shiftLengthBits, shiftLengthBytes, runTestTime := 0, 0, 0;
      lvTdi := new LenVal();
      lvTdoExpected := new LenVal();
      lvTdoCaptured := new LenVal();
      lvTdoMask := new LenVal();
      lvAddressMask := new LenVal();
      lvDataMask := new LenVal();
      lvNextData := new LenVal();
      actual := TestLogicReset;
    }

    // ---- Moving the TAP ----

    method TmsTransition(tms: bool)
      modifies port`tms, port`tdi, port`tck, port`trace
      ensures port.tms == tms && port.tdi == old(port.tdi)
      ensures port.trace == old(port.trace) + [Edge(tms, port.tdi)]
    {
      port.SetPort(TMS, tms);
      port.SetPort(TCK, false);
      port.SetPort(TCK, true);
    }

    /** One arm of the switch. */
    method PathMove(target: int)
      requires InSync()
      modifies `tapState, `actual, port`tms, port`tdi, port`tck, port`trace
      ensures InSync() && tapState == PathStep(old(tapState), target).1
      ensures actual == Clock(old(actual), PathStep(old(tapState), target).0)
      ensures |port.trace| == |old(port.trace)| + 1 && old(port.trace) <= port.trace
    {
      var (tms, next) := PathStep(tapState, target);
      ghost var before := port.trace;
      TmsTransition(tms);
      forall s: Controller ensures After(s, port.trace) == Clock(After(s, before), tms) {
        AfterAppend(s, before, Edge(tms, port.tdi));
      }
      actual := Clock(actual, tms);
      tapState := next;
      PathLevel(old(tapState), target);
    }

    method ResetSequence()
      modifies `tapState, `actual, port`tms, port`tdi, port`tck, port`trace
      ensures InSync() && tapState == RESET && actual == TestLogicReset
      ensures |port.trace| == |old(port.trace)| + 6 && old(port.trace) <= port.trace
    {
      ghost var before := port.trace;
      TmsTransition(true);
      assert port.trace == before + Held(true, port.tdi, 1);
      for i := 0 to 5
        invariant port.tms && port.tdi == old(port.tdi)
        invariant port.trace == before + Held(true, port.tdi, i + 1)
      {
        port.SetPort(TCK, false);
        port.SetPort(TCK, true);
        assert Held(true, port.tdi, i + 2) == Held(true, port.tdi, i + 1) + [Edge(true, port.tdi)];
      }
      forall s: Controller ensures After(s, port.trace) == TestLogicReset {
        AfterHeld(s, before, true, port.tdi, 6);
        SixHighEdgesReset(After(s, before));
      }
      tapState, actual := RESET, TestLogicReset;
    }

    /** xsvfGotoTapState for a byte that names a state. A walk that starts and ends in the same Pause
        state leaves it and comes back. */
    method GotoTapState(target: Code) returns (error: int)
      requires target == RESET || InSync()
      modifies `tapState, `actual, port`tms, port`tdi, port`tck, port`trace
      ensures InSync() && old(port.trace) <= port.trace
      ensures actual == Moved(old(actual), old(tapState), target)
      ensures Slipped() ==> old(Slipped()) && target != RESET
      ensures target != RESET && Trapped(old(tapState), target) ==>
                error == ERROR_ILLEGALSTATE && tapState == old(tapState) && port.trace == old(port.trace)
      ensures target == RESET || !Trapped(old(tapState), target) ==> error == ERROR_NONE && tapState == target
      ensures target != RESET && !Trapped(old(tapState), target) ==>
                |port.trace| == |old(port.trace)| + (
                  if old(tapState) == target && target in {PAUSEDR, PAUSEIR} then 1 + Distance(target + 1, target)
                  else Distance(old(tapState), target))
    {
      hide Distance;
      error := ERROR_NONE;
      MovedTogether(actual, target);
      if target == RESET {
        ResetSequence();
      } else if target != tapState
                && ((target == EXIT2DR && tapState != PAUSEDR) || (target == EXIT2IR && tapState != PAUSEIR)) {
        error := ERROR_ILLEGALSTATE;
      } else {
        if target == tapState && (target == PAUSEDR || target == PAUSEIR) {
          PathMove(target);
        }
        WalkTo(target);
      }
    }

    /** The path loop. */
    method WalkTo(target: Code)
      requires InSync() && target != RESET && !Trapped(tapState, target)
      modifies `tapState, `actual, port`tms, port`tdi, port`tck, port`trace
      ensures InSync() && old(port.trace) <= port.trace
      ensures tapState == target && actual == Carried(old(actual), old(tapState), target)
      ensures |port.trace| == |old(port.trace)| + Distance(old(tapState), target)
    {
      while target != tapState
        invariant InSync() && !Trapped(tapState, target)
        invariant old(port.trace) <= port.trace
        invariant Carried(actual, tapState, target) == Carried(old(actual), old(tapState), target)
        invariant |port.trace| + Distance(tapState, target) == |old(port.trace)| + Distance(old(tapState), target)
        decreases Distance(tapState, target)
      {
        PathStepApproaches(tapState, target);
        PathMove(target);
      }
    }

    /** xsvfGotoTapState for a byte of the program: above 0x0F the walk never ends. */
    method GotoStateByte(target: Byte) returns (r: Outcome<int>)
      requires InSync()
      modifies `tapState, `actual, port`tms, port`tdi, port`tck, port`trace
      ensures InSync() && (Slipped() ==> old(Slipped()) && target != RESET) && old(port.trace) <= port.trace
      ensures actual == if target > UPDATEIR then old(actual) else Moved(old(actual), old(tapState), target)
      ensures r == if target > UPDATEIR then Halted(NoProgress)
                   else if target != RESET && Trapped(old(tapState), target) then Done(ERROR_ILLEGALSTATE)
                   else Done(ERROR_NONE)
      ensures r == Done(ERROR_NONE) ==> tapState == target
      ensures r != Done(ERROR_NONE) ==> tapState == old(tapState) && port.trace == old(port.trace)
    {
      if target > UPDATEIR {
        return Halted(NoProgress);
      }
      var error := GotoTapState(target);
      r := Done(error);
    }

    /** Pulses the clock in the tracked state. From in step it leads out of step exactly if it is a wait in
        a state that TMS does not hold. */
    method WaitInState(microsec: int)
      requires InSync()
      modifies `actual, port`tms, port`tdi, port`tck, port`trace
      ensures InSync() && old(port.trace) <= port.trace
      ensures actual == ClockTimes(old(actual), EnteredHigh(tapState), if microsec > 0 then microsec else 0)
      ensures var n := if microsec > 0 then microsec else 0;
              port.trace == old(port.trace) + Held(EnteredHigh(tapState), old(port.tdi), n)
      ensures !old(Slipped()) ==> (Slipped() <==> microsec > 0 && !Stable(tapState))
    {
      ghost var before := port.trace;
      ghost var n := if microsec > 0 then microsec else 0;
      port.WaitTime(microsec);
      forall s: Controller
        ensures After(s, port.trace) == ClockTimes(actual, port.tms, n)
      {
        AfterHeld(s, before, port.tms, port.tdi, n);
      }
      ghost var waited := ClockTimes(actual, port.tms, n);
      if CodeOf(actual) == tapState && n > 0 { WaitKeepsState(actual, n); }
      CodesDiffer(waited, actual);
      actual := waited;
    }

    // ---- Shifting, with retries ----

    /** The shift that the arguments of xsvfShift ask for. */
    ghost function ScanOf(state: Code, numBits: nat, tdi: LenVal, captured: LenVal?, expected: LenVal?, mask: LenVal?,
                          end: Code)
      : (x: Scan)
      requires Buffers(tdi, captured, expected, mask)
      reads tdi, tdi.val
      reads captured, if captured == null then {} else {captured.val}
      reads expected, if expected == null then {} else {expected.val}
      reads mask, if mask == null then {} else {mask.val}
    {
      Scan(state, tdi.Text(), numBits, end, expected != null, if expected == null then [] else expected.Text(),
           if expected == null then [] else MaskText(mask), if captured == null then [] else captured.val[tdi.len..])
    }

    /** The buffers of a shift: what is captured is compared, and overwrites nothing else. */
    ghost predicate Buffers(tdi: LenVal, captured: LenVal?, expected: LenVal?, mask: LenVal?)
      reads tdi, captured, expected, mask
    {
      && tdi.Valid() && (captured != null ==> captured.Valid())
         && (expected != null ==> expected.Valid() && captured != null)
      && (mask != null ==> mask.Valid())
      && (captured != null ==>
            && Apart(captured, tdi) && (expected != null ==> Apart(captured, expected))
               && (mask != null ==> Apart(captured, mask)))
    }

    lemma ScanOk(state: Code, numBits: nat, tdi: LenVal, captured: LenVal?, expected: LenVal?, mask: LenVal?, end: Code)
      requires Buffers(tdi, captured, expected, mask) && (numBits + 7) / 8 == tdi.len && state in {SHIFTDR, SHIFTIR}
      ensures var x := ScanOf(state, numBits, tdi, captured, expected, mask, end);
              x.Ok() && x.state == state && x.end == end && x.bits == numBits && x.checked == (expected != null)
                && |x.data| == tdi.len
    {
    }

    ghost function PlaceNow(captured: LenVal?): Place
      reads `tapState, port`trace, if captured == null then {} else {captured.val}
    {
      Place(port.trace, tapState, if captured == null then [] else captured.val[..])
    }

    /** Goes to the Shift state and shifts; h is the history the shifted edges follow. */
    method ScanOnce(startState: Code, numBits: nat, tdi: LenVal, captured: LenVal?, exitShift: bool)
      returns (ghost h: seq<Edge>)
      requires InSync() && tdi.Valid() && (numBits + 7) / 8 == tdi.len && numBits > 0
      requires startState in {SHIFTDR, SHIFTIR}
      requires captured != null ==> captured.Valid() && captured != tdi && captured.val != tdi.val
      modifies `tapState, `actual, port`tms, port`tdi, port`tck, port`trace
      modifies if captured == null then {} else {captured, captured.val}
      ensures InSync() && (Slipped() ==> old(Slipped())) && (captured != null ==> captured.Valid())
      ensures tapState == startState + if exitShift then 1 else 0
      ensures old(port.trace) <= h && port.trace == h + ShiftEdges(tdi.Text(), numBits, false, exitShift)
      ensures !old(Slipped()) ==> forall s: Controller :: CodeOf(After(s, h)) == startState
      ensures Caught(captured, port.tdo, h, tdi.Text(), numBits, exitShift)
      ensures captured != null ==> captured.val[tdi.len..] == old(captured.val[tdi.len..])
    {
      hide ShiftEdges, After, Distance, CapturedFrom;
      var _ := GotoTapState(startState);
      h := port.trace;
      ghost var es := ShiftEdges(tdi.Text(), numBits, false, exitShift);
      ShiftOnly(port, numBits, tdi, captured, exitShift);
      AllAfterConcat(actual, h, es);
      if CodeOf(actual) == startState { AfterShift(actual, tdi.Text(), numBits, exitShift); }
      actual := After(actual, es);
      if exitShift {
        tapState := tapState + 1;
      }
    }

    /** To Run-Test/Idle, and the wait there. */
    method RunTest(time: int)
      requires InSync()
      modifies `tapState, `actual, port`tms, port`tdi, port`tck, port`trace
      ensures InSync() && (Slipped() ==> old(Slipped())) && old(port.trace) <= port.trace && tapState == RUNTEST
      ensures |port.trace| == |old(port.trace)| + RestSteps(old(tapState), time)
      ensures time > 0 ==> Rested(old(port.trace), port.trace, time, !old(Slipped()))
    {
      hide After, Distance;
      var _ := GotoTapState(RUNTEST);
      ghost var w, tdi := port.trace, port.tdi;
      IdleCode(actual);
      WaitInState(time);
      if time > 0 {
        assert RestedAt(old(port.trace), port.trace, w, tdi, time, !old(Slipped()));
      }
    }

    /** Leaves Exit1 after an attempt: the retry detour or the end state, then the run-test wait. */
    method LeaveShift(ghost x: Scan, retry: bool, endState: Code, time0: int) returns (time: int)
      requires InSync() && x.state in {SHIFTDR, SHIFTIR} && tapState == x.state + 1 && endState == x.end
               && (retry ==> time0 != 0)
      requires endState in {RUNTEST, PAUSEDR, PAUSEIR, SHIFTDR, SHIFTIR}
      modifies `tapState, `actual, port`tms, port`tdi, port`tck, port`trace
      ensures InSync() && (Slipped() ==> old(Slipped())) && old(port.trace) <= port.trace
      ensures time == if retry then Stretch(time0) else time0
      ensures tapState == if time != 0 then RUNTEST else if retry then SHIFTDR else endState
      ensures |port.trace| == |old(port.trace)| + LeaveSteps(x, time, retry)
      ensures time > 0 ==> Rested(old(port.trace), port.trace, time, !old(Slipped()))
    {
      hide Distance, Rested;
      time := time0;
      if retry {
        var _ := GotoTapState(PAUSEDR);
        var _ := GotoTapState(SHIFTDR);
        time := Int32(time + time / 4);
      } else {
        var _ := GotoTapState(endState);
      }
      ghost var mid, slipped := port.trace, Slipped();
      if time != 0 {
        RunTest(time);
        if time > 0 {
          RestedSince(old(port.trace), mid, port.trace, time, !slipped, !old(Slipped()));
        }
      }
    }

    /** The first half of the loop's body: the shift and the comparison. */
    method ScanAndCompare(startState: Code, numBits: nat, tdi: LenVal, captured: LenVal?, expected: LenVal?,
                          mask: LenVal?,
                          endState: Code)
      returns (mismatch: bool, ghost h: seq<Edge>)
      requires InSync() && Buffers(tdi, captured, expected, mask) && (numBits + 7) / 8 == tdi.len && numBits > 0
      requires startState in {SHIFTDR, SHIFTIR}
      modifies `tapState, `actual, port`tms, port`tdi, port`tck, port`trace
      modifies if captured == null then {} else {captured, captured.val}
      ensures InSync() && (Slipped() ==> old(Slipped())) && Buffers(tdi, captured, expected, mask)
              && tdi.len == old(tdi.len)
      ensures tapState == startState + if startState != endState then 1 else 0
      ensures var x := old(ScanOf(startState, numBits, tdi, captured, expected, mask, endState));
              && ScanOf(startState, numBits, tdi, captured, expected, mask, endState) == x && x.Ok()
              && old(port.trace) <= h && port.trace == h + x.Edges()
              && (mismatch <==> Mismatches(x, port.tdo, h))
              && (captured != null ==> CapturedInto(x, port.tdo, h, old(captured.val[..]), captured.val[..]))
      ensures !old(Slipped()) ==> forall s: Controller :: CodeOf(After(s, h)) == startState
    {
      hide After, ShiftEdges, CapturedFrom, Agree, Mismatches, InSync, Slipped;
      ScanOk(startState, numBits, tdi, captured, expected, mask, endState);
      ghost var x := ScanOf(startState, numBits, tdi, captured, expected, mask, endState);
      h := ScanOnce(startState, numBits, tdi, captured, startState != endState);
      mismatch := false;
      if captured != null {
        assert captured.val[..][..|x.data|] == captured.Text();
        assert captured.val[..][|x.data|..] == captured.val[|x.data|..];
      }
      if expected != null {
        var equal := EqualLenVal(expected, captured, mask);
        mismatch := !equal;
        MismatchCaptured(x, port.tdo, h, captured.val[..]);
      } else {
        NotChecked(x, port.tdo, h);
      }
    }

    /** The body of xsvfShift's loop. */
    method Attempt(startState: Code, numBits: nat, tdi: LenVal, captured: LenVal?, expected: LenVal?, mask: LenVal?,
                   endState: Code, time0: int, retriesLeft: bool)
      returns (mismatch: bool, time: int, ghost retry: bool, ghost h: seq<Edge>)
      requires InSync() && Buffers(tdi, captured, expected, mask) && (numBits + 7) / 8 == tdi.len && numBits > 0
      requires startState in {SHIFTDR, SHIFTIR}
      requires endState in {RUNTEST, PAUSEDR, PAUSEIR, startState}
      modifies `tapState, `actual, port`tms, port`tdi, port`tck, port`trace
      modifies if captured == null then {} else {captured, captured.val}
      ensures InSync() && (Slipped() ==> old(Slipped())) && Buffers(tdi, captured, expected, mask)
              && tdi.len == old(tdi.len)
      ensures var x := old(ScanOf(startState, numBits, tdi, captured, expected, mask, endState));
              && ScanOf(startState, numBits, tdi, captured, expected, mask, endState) == x && x.Ok()
              && Tried(x, old(port.trace), port.trace, h, time, retry, !old(Slipped()))
              && (mismatch <==> Mismatches(x, port.tdo, h))
              && (captured != null ==> CapturedInto(x, port.tdo, h, old(captured.val[..]), captured.val[..]))
      ensures retry <==> startState != endState && mismatch && time0 != 0 && retriesLeft
      ensures time == if retry then Stretch(time0) else time0
      ensures !(mismatch && time0 != 0 && retriesLeft) ==>
                tapState == if startState == endState then startState else if time0 != 0 then RUNTEST else endState
    {
      hide After, Mismatches, Rested, CapturedInto, Stretch;
      ghost var x := ScanOf(startState, numBits, tdi, captured, expected, mask, endState);
      ghost var inStep := !Slipped();
      ScanOk(startState, numBits, tdi, captured, expected, mask, endState);
      mismatch, h := ScanAndCompare(startState, numBits, tdi, captured, expected, mask, endState);
      hide Buffers;
      time, retry := time0, false;
      if startState != endState {
        ghost var sent, was := port.trace, Slipped();
        retry := mismatch && time != 0 && retriesLeft;
        time := LeaveShift(x, mismatch && time != 0 && retriesLeft, endState, time);
        if time > 0 { RestedWeaker(sent, port.trace, time, !was, inStep); }
      }
    }

    /** xsvfShift's loop: attempts until one matches or the retries are used up. The retry counter is a
        byte and wraps. */
    method Attempts(startState: Code, numBits: nat, tdi: LenVal, captured: LenVal?, expected: LenVal?, mask: LenVal?,
                    endState: Code, runTestTime: int, maxRepeat: Byte)
      returns (mismatch: bool, repeat: Byte, ghost k: nat, ghost h: seq<Edge>)
      requires InSync() && Buffers(tdi, captured, expected, mask) && (numBits + 7) / 8 == tdi.len && numBits > 0
      requires startState in {SHIFTDR, SHIFTIR}
      requires endState in {RUNTEST, PAUSEDR, PAUSEIR, startState}
      modifies `tapState, `actual, port`tms, port`tdi, port`tck, port`trace
      modifies if captured == null then {} else {captured, captured.val}
      ensures InSync() && (Slipped() ==> old(Slipped())) && Buffers(tdi, captured, expected, mask)
              && tdi.len == old(tdi.len)
      ensures var x := old(ScanOf(startState, numBits, tdi, captured, expected, mask, endState));
              && x.Ok() && Scanned(x, port.tdo, old(port.trace), port.trace, h, runTestTime, k, !old(Slipped()))
              && (mismatch <==> Mismatches(x, port.tdo, h))
              && (captured != null ==> CapturedInto(x, port.tdo, h, old(captured.val[..]), captured.val[..]))
      ensures k <= maxRepeat && (mismatch ==> k == maxRepeat && repeat == (maxRepeat + 1) % 256)
      ensures tapState == if startState == endState then startState
              else if Stretched(runTestTime, k) != 0 then RUNTEST else endState
    {
      hide Mismatches, Tried, Retried, CapturedInto, Stretched, Stretch, Buffers, ScanOf;
      ghost var x := ScanOf(startState, numBits, tdi, captured, expected, mask, endState);
      ghost var from, mid, inStep, tdo := port.trace, port.trace, !Slipped(), port.tdo;
      ghost var was := if captured == null then [] else captured.val[..];
      var time;
      ScanOk(startState, numBits, tdi, captured, expected, mask, endState);
      FirstTry(x, tdo, from, runTestTime, inStep);
      ghost var retry;
      mismatch, time, retry, h :=
        Attempt(startState, numBits, tdi, captured, expected, mask, endState, runTestTime, 0 < maxRepeat);
      NextTime(runTestTime, 0);
      repeat := 0;
      while mismatch && repeat < maxRepeat
        invariant InSync() && (Slipped() ==> old(Slipped())) && Buffers(tdi, captured, expected, mask)
                  && repeat <= maxRepeat
        invariant tdi.len == old(tdi.len) && x == ScanOf(startState, numBits, tdi, captured, expected, mask, endState)
                  && x.Ok()
        invariant Retried(x, tdo, from, mid, runTestTime, repeat, inStep)
                  && Tried(x, mid, port.trace, h, time, retry, inStep)
        invariant mismatch <==> Mismatches(x, tdo, h)
        invariant captured != null ==> CapturedInto(x, tdo, h, was, captured.val[..])
        invariant startState != endState ==>
            && time == Stretched(runTestTime, if mismatch && repeat < maxRepeat then repeat + 1 else repeat)
            && (retry <==> mismatch && repeat < maxRepeat && Stretched(runTestTime, repeat) != 0)
        invariant !(mismatch && repeat < maxRepeat) ==>
            tapState == if startState == endState then startState
                        else if Stretched(runTestTime, repeat) != 0 then RUNTEST else endState
        decreases maxRepeat - repeat
      {
        AnyTime(x, mid, port.trace, h, time, Stretched(runTestTime, repeat + 1), retry,
                Stretched(runTestTime, repeat) != 0, inStep);
        OneMoreTry(x, tdo, from, mid, port.trace, h, runTestTime, repeat, inStep);
        mid := port.trace;
        repeat := repeat + 1;
        ghost var claimed := !Slipped();
        ghost var before, h0 := if captured == null then [] else captured.val[..], h;
        mismatch, time, retry, h :=
          Attempt(startState, numBits, tdi, captured, expected, mask, endState, time, repeat < maxRepeat);
        NextTime(runTestTime, repeat);
        TriedWeaker(x, mid, port.trace, h, time, retry, claimed, inStep);
        if captured != null { CapturedAgain(x, tdo, h0, h, was, before, captured.val[..]); }
      }
      k := repeat;
      AnyTime(x, mid, port.trace, h, time, Stretched(runTestTime, k), retry, false, inStep);
      if mismatch {
        repeat := (repeat + 1) % 256;
      }
    }

    /** xsvfShift. */
    method Shift(startState: Code, numBits: nat, tdi: LenVal, captured: LenVal?, expected: LenVal?, mask: LenVal?,
                 endState: Code, runTestTime: int, maxRepeat: Byte)
      returns (error: int)
      requires InSync() && Buffers(tdi, captured, expected, mask) && (numBits + 7) / 8 == tdi.len
      requires startState in {SHIFTDR, SHIFTIR}
      requires endState in {RUNTEST, PAUSEDR, PAUSEIR, startState}
      modifies `tapState, `actual, port`tms, port`tdi, port`tck, port`trace
      modifies if captured == null then {} else {captured, captured.val}
      ensures InSync() && (Slipped() ==> old(Slipped())) && (captured != null ==> captured.Valid())
              && old(port.trace) <= port.trace
      ensures var x := old(ScanOf(startState, numBits, tdi, captured, expected, mask, endState));
              && x.Ok()
              && ShiftDone(x, port.tdo, Manner(runTestTime, maxRepeat), old(PlaceNow(captured)), PlaceNow(captured),
                           error, !old(Slipped()))
      ensures captured != null ==> captured.val[tdi.len..] == old(captured.val[tdi.len..])
      ensures expected == null ==> error == ERROR_NONE
    {
      hide Mismatches, Rested, CapturedFrom, Scanned, After, ScanOf, Distance;
      error := ERROR_NONE;
      ScanOk(startState, numBits, tdi, captured, expected, mask, endState);
      ghost var x := ScanOf(startState, numBits, tdi, captured, expected, mask, endState);
      if numBits == 0 {
        if runTestTime != 0 {
          RunTest(runTestTime);
        }
      } else {
        var mismatch, repeat;
        ghost var k, h;
        mismatch, repeat, k, h :=
          Attempts(startState, numBits, tdi, captured, expected, mask, endState, runTestTime, maxRepeat);
        ScannedSince(x, port.tdo, old(port.trace), port.trace, h, runTestTime, k, !old(Slipped()));
        if expected == null { NotChecked(x, port.tdo, h); }
        if mismatch {
          if maxRepeat != 0 && repeat > maxRepeat {
            error := ERROR_MAXRETRIES;
          } else {
            error := ERROR_TDOMISMATCH;
          }
        }
      }
    }

    // ---- Commands ----

    ghost function Footprint(): set<object> {
      {this, port, lvTdi, lvTdoExpected, lvTdoCaptured, lvTdoMask, lvAddressMask, lvDataMask, lvNextData,
       lvTdi.val, lvTdoExpected.val, lvTdoCaptured.val, lvTdoMask.val, lvAddressMask.val, lvDataMask.val,
       lvNextData.val}
    }

    ghost predicate Running()
      reads this, port, lvTdi, lvTdoExpected, lvTdoCaptured, lvTdoMask, lvAddressMask, lvDataMask, lvNextData
    {
      Valid() && InSync() && errorCode == ERROR_NONE && !complete
    }

    ghost function Conf(): Settings
      reads this, lvTdoExpected, lvTdoExpected.val, lvTdoMask.val, lvTdoCaptured.val, lvAddressMask.val
      requires lvTdoExpected.Valid()
    {
      Settings(runTestTime, maxRepeat, endIr, endDr, shiftLengthBits,
               lvTdoExpected.Text(), lvTdoMask.val[..], lvTdoCaptured.val[..], lvAddressMask.val[..])
    }

    /** The present moment. */
    ghost function Now(): Moment
      reads this, port, lvDataMask, lvDataMask.val, lvTdoExpected, lvTdoExpected.val, lvTdoMask.val,
            lvTdoCaptured.val, lvAddressMask.val
      requires lvDataMask.Valid() && lvTdoExpected.Valid()
    {
      Moment(Reading(port.pos, shiftLengthBytes, lvDataMask.Text()), Conf(), tapState, actual, port.trace, complete)
    }

    lemma SizedNow()
      requires Running()
      ensures Sized(Now())
    {
    }

    /** What every command leaves: the player valid, the actual state known, and its error recorded. A
        command that never returns stops at a point where the same holds. */
    twostate predicate Played(new r: Outcome<int>)
      reads this, port, lvTdi, lvTdoExpected, lvTdoCaptured, lvTdoMask, lvAddressMask, lvDataMask, lvNextData
    {
      && Valid() && InSync()
      && old(port.pos) <= port.pos && old(port.trace) <= port.trace
      && (r.Done? ==> errorCode == r.value)
    }

    /** A command that began in step ends in step. */
    twostate predicate InStepStill()
      reads `actual, `tapState
    {
      Slipped() ==> old(Slipped())
    }

    /** When the command returns, it has performed; and when it does not return. */
    twostate predicate Effect(c: Byte, new r: Outcome<int>)
      reads this, port, lvTdi, lvTdoExpected, lvTdoCaptured, lvTdoMask, lvAddressMask, lvDataMask, lvNextData,
            lvTdi.val, lvTdoExpected.val, lvTdoCaptured.val, lvTdoMask.val, lvAddressMask.val, lvDataMask.val
      requires old(Running())
    {
      var program, p := port.program, old(port.pos);
      var len, mask := old(shiftLengthBytes), old(lvDataMask.Text());
      && Valid() && Sized(old(Now()))
      && (r.Halted? ==> Halts(c, program, p, len, mask))
      && (c != XSDRINC && Halts(c, program, p, len, mask) ==> r.Halted?)
      && (r.Done? ==> Performed(program, port.tdo, c, old(Now()), Now(), r.value))
    }

    /** Bytes of the program are read into a buffer, which keeps what is behind them. */
    method ReadVal(lv: LenVal, numBytes: nat) returns (r: Outcome<()>)
      requires port.Valid() && lv.Valid() && numBytes <= MAX_LEN
      modifies port`pos, lv, lv.val
      ensures port.Valid() && lv.Valid() && old(port.pos) <= port.pos
      ensures old(port.pos) + numBytes <= |port.program| ==>
                r == Done(()) && port.pos == old(port.pos) + numBytes
                && lv.Text() == port.program[old(port.pos)..port.pos]
                && lv.val[..] == Into(port.program[old(port.pos)..port.pos], old(lv.val[..]))
      ensures old(port.pos) + numBytes > |port.program| ==> r == Halted(Starved)
      ensures r.Done? ==> lv.len == numBytes
    {
      lv.len := numBytes;
      for i := 0 to numBytes
        invariant port.Valid() && lv.len == numBytes && port.pos == old(port.pos) + i
        invariant lv.val[..i] == port.program[old(port.pos)..port.pos]
        invariant lv.val[i..] == old(lv.val[i..])
      {
        var byte :- port.ReadByte();
        lv.val[i] := byte;
      }
      r := Done(());
      assert lv.val[..] == lv.val[..numBytes] + lv.val[numBytes..];
      assert old(lv.val[..])[numBytes..] == old(lv.val[numBytes..]);
    }

    /** Bytes for TDI: nothing else is read or changed. */
    method ReadTdi(numBytes: nat) returns (r: Outcome<()>)
      requires Running() && numBytes <= MAX_LEN
      modifies port`pos, lvTdi, lvTdi.val
      ensures Running() && old(port.pos) <= port.pos
      ensures r.Halted? <==> old(port.pos) + numBytes > |port.program|
      ensures r.Done? ==>
                && Taken(numBytes) && lvTdi.len == numBytes
                && lvTdi.Text() == port.program[old(port.pos)..port.pos]
      ensures r.Done? ==> Now() == At(old(Now()), port.pos)
    {
      r := ReadVal(lvTdi, numBytes);
    }

    method ReadExpected() returns (r: Outcome<()>)
      requires Running()
      modifies port`pos, lvTdoExpected, lvTdoExpected.val
      ensures Running() && old(port.pos) <= port.pos && Sized(old(Now()))
      ensures r.Halted? <==> old(port.pos) + shiftLengthBytes > |port.program|
      ensures r.Done? ==> Taken(shiftLengthBytes) && lvTdoExpected.Text() == port.program[old(port.pos)..port.pos]
      ensures r.Done? ==>
                var m := At(old(Now()), port.pos);
                Now() == m.(conf := m.conf.(expected := lvTdoExpected.Text()))
    {
      r := ReadVal(lvTdoExpected, shiftLengthBytes);
    }

    /** The command's operands were n bytes. */
    twostate predicate Taken(n: nat)
      reads port
    {
      port.pos == old(port.pos) + n <= |port.program|
    }

    method DoIllegalCmd() returns (r: Outcome<int>)
      requires Running() && (command in {5, 6} || command > XWAIT)
      modifies `errorCode
      ensures Played(r) && InStepStill() && Effect(old(command), r)
    {
      hide DrShifted, IrShifted, Incremented, ExpectedAlone, WaitedIn, Into, Number, Long, Trapped, WaitsIn, BuffersOk;
      errorCode := ERROR_ILLEGALCMD;
      r := Done(errorCode);
    }

    method DoXcomplete() returns (r: Outcome<int>)
      requires Running()
      modifies this
      ensures Played(r) && InStepStill() && Effect(XCOMPLETE, r)
    {
      hide DrShifted, IrShifted, Incremented, ExpectedAlone, WaitedIn, Into, Number, Long, Trapped, WaitsIn, BuffersOk;
      complete := true;
      r := Done(ERROR_NONE);
    }

    method DoXtdomask() returns (r: Outcome<int>)
      requires Running()
      modifies Footprint()
      ensures Played(r) && InStepStill() && Effect(XTDOMASK, r)
    {
      hide PopCount, NumBytes, DrShifted, IrShifted, Incremented, ExpectedAlone, WaitedIn, Number, Long, Trapped,
           WaitsIn;
      var _ :- ReadVal(lvTdoMask, shiftLengthBytes);
      r := Done(ERROR_NONE);
    }

    /** The instruction register: shift numBits bits, ending as XENDIR said. */
    method ShiftIr(numBits: nat) returns (r: Outcome<int>)
      requires Running()
      modifies this, port, lvTdi, lvTdi.val
      ensures Played(r) && InStepStill()
      ensures r.Halted? <==> NumBytes(numBits) <= MAX_LEN && old(port.pos) + NumBytes(numBits) > |port.program|
      ensures r.Done? ==>
                if NumBytes(numBits) > MAX_LEN then r.value == ERROR_DATAOVERFLOW && Now() == old(Now())
                else
                  && r.value == ERROR_NONE
                  && IrShifted(port.program, port.tdo, old(Now()), Now(), numBits, old(port.pos))
      ensures complete == old(complete)
    {
      if NumBytes(numBits) > MAX_LEN {
        errorCode := ERROR_DATAOVERFLOW;
        return Done(errorCode);
      }
      hide ShiftDone;
      var _ :- ReadTdi(NumBytes(numBits));
      r := ShiftIrNow(numBits);
    }

    method ShiftIrNow(numBits: nat) returns (r: Outcome<int>)
      requires Running() && lvTdi.len == NumBytes(numBits)
      modifies `errorCode, `tapState, `actual, port`tms, port`tdi, port`tck, port`trace
      ensures Played(r) && InStepStill() && r == Done(ERROR_NONE)
      ensures Now().at == old(Now()).at && Now().conf == old(Now()).conf
      ensures ShiftDone(Scan(SHIFTIR, lvTdi.Text(), numBits, endIr, false, [], [], []), port.tdo,
                        Manner(runTestTime, 0), Place(old(port.trace), old(tapState), []),
                        Place(port.trace, tapState, []), ERROR_NONE, !old(Slipped()))
    {
      hide ShiftDone;
      errorCode := Shift(SHIFTIR, numBits, lvTdi, null, null, null, endIr, runTestTime, 0);
      r := Done(errorCode);
    }

    method DoXsir() returns (r: Outcome<int>)
      requires Running()
      modifies Footprint()
      ensures Played(r) && InStepStill() && Effect(XSIR, r)
    {
      hide ShiftDone;
      var numBits :- port.ReadByte();
      r := ShiftIr(numBits);
    }

    method DoXsir2() returns (r: Outcome<int>)
      requires Running()
      modifies Footprint()
      ensures Played(r) && InStepStill() && Effect(XSIR2, r)
    {
      hide ShiftDone;
      var _ :- ReadTdi(2);
      var numBits := lvTdi.Value();
      TwoBytes(lvTdi.Text());
      r := ShiftIr(numBits);
    }

    ghost function CheckNow(mask: LenVal?): Check
      reads lvTdoExpected, lvTdoExpected.val, mask, if mask == null then {} else {mask.val}
      requires lvTdoExpected.Valid()
    {
      Check(lvTdoExpected.Text(), MaskText(mask))
    }

    /** The data register: shift what is in lvTdi, ending in endState, and check it. */
    method ShiftDr(mask: LenVal?, endState: Code, runTest: int, repeat: Byte) returns (r: Outcome<int>)
      requires Running() && lvTdi.len == shiftLengthBytes && (mask == null || mask == lvTdoMask)
      requires endState in {RUNTEST, PAUSEDR, SHIFTDR}
      modifies `errorCode, `tapState, `actual, port`tms, port`tdi, port`tck, port`trace, lvTdoCaptured,
               lvTdoCaptured.val
      ensures Played(r) && InStepStill() && r.Done?
      ensures var check, m := old(CheckNow(mask)), old(Now());
              && Sized(m) && Checks(check)
              && ShiftDone(DrScan(m, lvTdi.Text(), endState, check), port.tdo, Manner(runTest, repeat),
                           PlaceOf(m, check),
                           PlaceOf(Now(), check), r.value, InStep(m))
              && Advanced(m, Now(), check)
    {
      hide ShiftDone, InSync, BuffersOk, ScanOf, DrScan, CheckNow;
      LoadedOk(mask, endState);
      hide Checks, Sized;
      r := ShiftBuffers(mask, endState, runTest, repeat);
    }

    /** The buffers of the player, as xsvfShift is given them. */
    method ShiftBuffers(mask: LenVal?, endState: Code, runTest: int, repeat: Byte) returns (r: Outcome<int>)
      requires Running() && lvTdi.len == shiftLengthBytes && (mask == null || mask == lvTdoMask)
      requires endState in {RUNTEST, PAUSEDR, SHIFTDR}
      modifies `errorCode, `tapState, `actual, port`tms, port`tdi, port`tck, port`trace, lvTdoCaptured,
               lvTdoCaptured.val
      ensures Valid() && InSync() && (Slipped() ==> old(Slipped())) && r == Done(errorCode)
      ensures old(port.trace) <= port.trace
      ensures lvTdoCaptured.val[lvTdi.len..] == old(lvTdoCaptured.val[lvTdi.len..])
      ensures var x := old(ScanOf(SHIFTDR, shiftLengthBits, lvTdi, lvTdoCaptured, lvTdoExpected, mask, endState));
              && x.Ok()
              && ShiftDone(x, port.tdo, Manner(runTest, repeat), old(PlaceNow(lvTdoCaptured)),
                           PlaceNow(lvTdoCaptured), r.value, !old(Slipped()))
      ensures lvTdoExpected.Text() == old(lvTdoExpected.Text()) && lvTdoMask.val[..] == old(lvTdoMask.val[..])
      ensures lvAddressMask.val[..] == old(lvAddressMask.val[..]) && lvDataMask.Text() == old(lvDataMask.Text())
      ensures lvTdi.Text() == old(lvTdi.Text())
    {
      hide ShiftDone, InSync;
      errorCode := Shift(SHIFTDR, shiftLengthBits, lvTdi, lvTdoCaptured, lvTdoExpected, mask, endState, runTest,
                         repeat);
      r := Done(errorCode);
    }

    lemma LoadedOk(mask: LenVal?, end: Code)
      requires Running() && lvTdi.len == shiftLengthBytes && (mask == null || mask == lvTdoMask)
      ensures var check := CheckNow(mask);
              && Buffers(lvTdi, lvTdoCaptured, lvTdoExpected, mask) && Sized(Now()) && Checks(check)
              && PlaceNow(lvTdoCaptured) == PlaceOf(Now(), check)
              && ScanOf(SHIFTDR, shiftLengthBits, lvTdi, lvTdoCaptured, lvTdoExpected, mask, end)
                 == DrScan(Now(), lvTdi.Text(), end, check)
    {
      hide InSync;
    }

    /** The same with nothing captured or expected, no wait and no retries. */
    method ShiftDrAlone(end: Code) returns (r: Outcome<int>)
      requires Running() && lvTdi.len == shiftLengthBytes && end in {RUNTEST, PAUSEDR, SHIFTDR}
      modifies `errorCode, `tapState, `actual, port`tms, port`tdi, port`tck, port`trace
      ensures Played(r) && InStepStill() && r == Done(ERROR_NONE)
      ensures var m := old(Now());
              && Sized(m)
              && ShiftDone(DrScan(m, lvTdi.Text(), end, Unchecked), port.tdo, Manner(0, 0), PlaceOf(m, Unchecked),
                           PlaceOf(Now(), Unchecked), r.value, InStep(m))
              && Advanced(m, Now(), Unchecked)
    {
      hide ShiftDone;
      errorCode := Shift(SHIFTDR, shiftLengthBits, lvTdi, null, null, null, end, 0, 0);
      r := Done(errorCode);
    }

    /** The shift of a command that began at m and has read its operands. */
    method ShiftLoaded(mask: LenVal?, end: Code, time: int, repeat: Byte, ghost m: Moment) returns (r: Outcome<int>)
      requires Running() && lvTdi.len == shiftLengthBytes && (mask == null || mask == lvTdoMask)
      requires end in {RUNTEST, PAUSEDR, SHIFTDR}
      requires Sized(m) && m.at.pos + m.at.len <= |port.program|
               && lvTdi.Text() == port.program[m.at.pos..m.at.pos + m.at.len]
      requires Now() == At(m, port.pos).(conf := m.conf.(expected := lvTdoExpected.Text()))
      modifies `errorCode, `tapState, `actual, port`tms, port`tdi, port`tck, port`trace, lvTdoCaptured,
               lvTdoCaptured.val
      ensures Played(r) && InStepStill() && r.Done? && complete == old(complete)
      ensures var check := old(CheckNow(mask));
              && Checks(check)
              && DrShifted(port.program, port.tdo, m, Now(), port.pos, end, Manner(time, repeat), check,
                           old(lvTdoExpected.Text()), r.value)
    {
      hide ShiftDone, InSync, DrScan, Conf, PlaceOf;
      ghost var m1, check := Now(), CheckNow(mask);
      r := ShiftDr(mask, end, time, repeat);
      DrDone(port.program, port.tdo, m, m1, Now(), end, Manner(time, repeat), check, r.value);
    }

    method DoXsdr() returns (r: Outcome<int>)
      requires Running()
      modifies Footprint()
      ensures Played(r) && InStepStill() && Effect(XSDR, r)
    {
      hide DrShifted, IrShifted, Incremented, ExpectedAlone, WaitedIn;
      ghost var m := Now();
      SizedNow();
      var _ :- ReadTdi(shiftLengthBytes);
      r := ShiftLoaded(lvTdoMask, endDr, runTestTime, maxRepeat, m);
    }

    method DoXruntest() returns (r: Outcome<int>)
      requires Running()
      modifies Footprint()
      ensures Played(r) && InStepStill() && Effect(XRUNTEST, r)
    {
      hide PopCount, NumBytes, DrShifted, IrShifted, Incremented, ExpectedAlone, WaitedIn, Into, Trapped, WaitsIn,
           BuffersOk, InSync;
      var _ :- ReadTdi(4);
      runTestTime := lvTdi.Value();
      r := Done(ERROR_NONE);
    }

    method DoXrepeat() returns (r: Outcome<int>)
      requires Running()
      modifies Footprint()
      ensures Played(r) && InStepStill() && Effect(XREPEAT, r)
    {
      hide DrShifted, IrShifted, Incremented, ExpectedAlone, WaitedIn, Into, Number, Long, Trapped, WaitsIn, BuffersOk;
      maxRepeat :- port.ReadByte();
      r := Done(ERROR_NONE);
    }

    /** A length whose byte count does not fit the short that holds it is not followed further. */
    method DoXsdrsize() returns (r: Outcome<int>)
      requires Running()
      modifies Footprint()
      ensures Played(r) && InStepStill() && Effect(XSDRSIZE, r)
    {
      hide Performed, Halts, BuffersOk;
      SizedNow();
      HaltsWithoutLength(port.program, port.pos, shiftLengthBytes, lvDataMask.Text());
      ghost var m := Now();
      var _ :- ReadTdi(4);
      var bits := lvTdi.Value();
      if bits < 0 || NumBytes(bits) > 0x7FFF {
        return Halted(LengthWraps);
      }
      var error := Resize(bits);
      r := Done(error);
      SdrsizeDone(port.program, port.tdo, m, Now(), error);
    }

    method Resize(bits: nat) returns (error: int)
      requires Running()
      modifies `shiftLengthBits, `shiftLengthBytes, `errorCode
      ensures Valid() && InSync() && errorCode == error
      ensures var m := old(Now()); Now() == m.(at := m.at.(len := NumBytes(bits)), conf := m.conf.(bits := bits))
      ensures error == if shiftLengthBytes > MAX_LEN then ERROR_DATAOVERFLOW else ERROR_NONE
    {
      shiftLengthBits := bits;
      shiftLengthBytes := NumBytes(bits);
      error := ERROR_NONE;
      if shiftLengthBytes > MAX_LEN {
        error := ERROR_DATAOVERFLOW;
        errorCode := error;
      }
    }

    method DoXsdrtdo() returns (r: Outcome<int>)
      requires Running()
      modifies Footprint()
      ensures Played(r) && InStepStill() && Effect(XSDRTDO, r)
    {
      hide DrShifted;
      r := ShiftExpecting(lvTdoMask, endDr, runTestTime, maxRepeat);
    }

    /** The data and the expectation. */
    method ReadBoth(ghost mask: LenVal?) returns (r: Outcome<()>)
      requires Running() && (mask == null || mask == lvTdoMask)
      modifies port`pos, lvTdi, lvTdi.val, lvTdoExpected, lvTdoExpected.val
      ensures Running() && old(port.pos) <= port.pos && Sized(old(Now()))
      ensures r.Halted? <==> old(port.pos) + 2 * shiftLengthBytes > |port.program|
      ensures r.Done? ==>
                var p, len, m := old(port.pos), shiftLengthBytes, old(Now());
                && Taken(2 * len) && lvTdi.len == len && lvTdi.Text() == port.program[p..p + len]
                && lvTdoExpected.Text() == port.program[p + len..p + 2 * len] && MaskText(mask) == old(MaskText(mask))
                && Now() == At(m, port.pos).(conf := m.conf.(expected := lvTdoExpected.Text()))
    {
      SizedNow();
      hide InSync;
      var _ :- ReadTdi(shiftLengthBytes);
      r := ReadExpected();
    }

    /** The data, the expectation and the shift. */
    method ShiftExpecting(mask: LenVal?, end: Code, time: int, repeat: Byte) returns (r: Outcome<int>)
      requires Running() && (mask == null || mask == lvTdoMask) && end in {RUNTEST, PAUSEDR, SHIFTDR}
      modifies this, port, lvTdi, lvTdi.val, lvTdoExpected, lvTdoExpected.val, lvTdoCaptured, lvTdoCaptured.val
      ensures Played(r) && InStepStill()
      ensures r.Halted? <==> old(port.pos) + 2 * old(shiftLengthBytes) > |port.program|
      ensures r.Done? ==>
                var p, len := old(port.pos), old(shiftLengthBytes);
                && Sized(old(Now())) && p + 2 * len <= |port.program|
                   && var expected := port.program[p + len..p + 2 * len];
                DrShifted(port.program, port.tdo, old(Now()), Now(), p + 2 * len, end, Manner(time, repeat),
                          Check(expected, old(MaskText(mask))), expected, r.value)
      ensures r.Done? ==> Now().complete == old(Now()).complete
    {
      hide DrShifted, BuffersOk, InSync, Conf;
      ghost var m := Now();
      var _ :- ReadBoth(mask);
      r := ShiftLoaded(mask, end, time, repeat, m);
    }

    method DoXsetsdrmasks() returns (r: Outcome<int>)
      requires Running()
      modifies Footprint()
      ensures Played(r) && InStepStill() && Effect(XSETSDRMASKS, r)
    {
      hide PopCount, NumBytes, DrShifted, IrShifted, Incremented, ExpectedAlone, WaitedIn, Number, Long, Trapped,
           WaitsIn;
      var _ :- ReadVal(lvAddressMask, shiftLengthBytes);
      var _ :- ReadVal(lvDataMask, shiftLengthBytes);
      r := Done(ERROR_NONE);
    }

    method DoXsdrbce() returns (r: Outcome<int>)
      requires Running() && command in {XSDRB, XSDRC, XSDRE}
      modifies Footprint()
      ensures Played(r) && InStepStill() && Effect(old(command), r)
    {
      hide DrShifted, Performed, Halts, ShiftDone, DrScan, InSync;
      ghost var m := Now();
      SizedNow();
      ghost var c := command;
      HaltsWithoutData(c, port.program, port.pos, shiftLengthBytes, lvDataMask.Text());
      var _ :- ReadTdi(shiftLengthBytes);
      ghost var m1 := Now();
      SizedNow();
      var end := if command == XSDRE then endDr else SHIFTDR;
      r := ShiftDrAlone(end);
      DrDone(port.program, port.tdo, m, m1, Now(), end, Manner(0, 0), Unchecked, r.value);
      SdrbceDone(port.program, port.tdo, c, m, Now(), end);
    }

    method DoXsdrtdobce() returns (r: Outcome<int>)
      requires Running() && command in {XSDRTDOB, XSDRTDOC, XSDRTDOE}
      modifies Footprint()
      ensures Played(r) && InStepStill() && Effect(old(command), r)
    {
      hide DrShifted;
      r := ShiftExpecting(null, if command == XSDRTDOE then endDr else SHIFTDR, 0, 0);
    }

    method DoXstate() returns (r: Outcome<int>)
      requires Running()
      modifies Footprint()
      ensures Played(r) && InStepStill() && Effect(XSTATE, r)
    {
      hide PopCount, NumBytes, DrShifted, IrShifted, Incremented, ExpectedAlone, WaitedIn, Into, Number, Long,
           WaitsIn, Distance, Moved, BuffersOk, InSync;
      var target :- port.ReadByte();
      r := GotoStateByte(target);
      if r.Done? && r.value != ERROR_NONE {
        errorCode := r.value;
      }
    }

    method DoXendxr() returns (r: Outcome<int>)
      requires Running() && command in {XENDIR, XENDDR}
      modifies Footprint()
      ensures Played(r) && InStepStill() && Effect(old(command), r)
    {
      hide Performed, Halts, BuffersOk, Slipped;
      HaltsWithoutByte(command, port.program, port.pos, shiftLengthBytes, lvDataMask.Text());
      ghost var c, m := command, Now();
      var error := ERROR_NONE;
      var endState :- port.ReadByte();
      if endState != 0 && endState != 1 {
        error := ERROR_ILLEGALSTATE;
      } else if command == XENDIR {
        endIr := if endState == 0 then RUNTEST else PAUSEIR;
      } else {
        endDr := if endState == 0 then RUNTEST else PAUSEDR;
      }
      if error != ERROR_NONE {
        errorCode := error;
      }
      r := Done(error);
      EndxrDone(port.program, port.tdo, c, m, Now(), error);
    }

    method DoXcomment() returns (r: Outcome<int>)
      requires Running()
      modifies Footprint()
      ensures Played(r) && InStepStill() && Effect(XCOMMENT, r)
    {
      hide PopCount, NumBytes, DrShifted, IrShifted, Incremented, ExpectedAlone, WaitedIn, Into, Number, Long,
           Trapped, WaitsIn, BuffersOk, InSync;
      var text: Byte := 1;
      while text != 0
        modifies port`pos
        invariant port.Valid() && old(port.pos) <= port.pos
        invariant text == 0 ==> old(port.pos) < port.pos && port.program[port.pos - 1] == 0
        invariant forall k :: old(port.pos) <= k < port.pos - (if text == 0 then 1 else 0) ==> port.program[k] != 0
        decreases |port.program| - port.pos, text
      {
        text :- port.ReadByte();
      }
      errorCode := ERROR_NONE;
      r := Done(ERROR_NONE);
    }

    method ReadWait() returns (r: Outcome<(Byte, Byte, int)>)
      requires Running()
      modifies port`pos, lvTdi, lvTdi.val
      ensures Running() && old(port.pos) <= port.pos
      ensures r.Halted? <==> old(port.pos) + 6 > |port.program|
      ensures r.Done? ==> Taken(6)
      ensures r.Done? ==>
                var program, p := port.program, old(port.pos);
                r.value == (program[p], program[p + 1], Long(program, p + 2))
    {
      var _ :- ReadTdi(1);
      var waitState := lvTdi.val[0];
      assert waitState == lvTdi.Text()[0];
      var _ :- ReadTdi(1);
      var endState := lvTdi.val[0];
      assert endState == lvTdi.Text()[0];
      var _ :- ReadTdi(4);
      var waitTime := lvTdi.Value();
      r := Done((waitState, endState, waitTime));
    }

    /** Errors of the two moves are ignored. From in step the command leads out of step exactly if XwaitSlips
        says so. */
    method DoXwait() returns (r: Outcome<int>)
      requires Running()
      modifies Footprint()
      ensures Played(r) && Effect(XWAIT, r)
      ensures var program, p := port.program, old(port.pos);
              !old(Slipped()) ==>
                (Slipped() <==>
                 p + 6 <= |program| && XwaitSlips(old(tapState), program[p], program[p + 1], Long(program, p + 2)))
    {
      hide XwaitSlips, WaitedIn;
      var parameters :- ReadWait();
      var (waitState, endState, waitTime) := parameters;
      var _ :- MoveWaitMove(waitState, endState, waitTime);
      r := Done(ERROR_NONE);
    }

    method MoveWaitMove(waitState: Byte, endState: Byte, waitTime: int) returns (r: Outcome<int>)
      requires InSync()
      modifies `tapState, `actual, port`tms, port`tdi, port`tck, port`trace
      ensures InSync() && old(port.trace) <= port.trace
      ensures !old(Slipped()) ==> (Slipped() <==> XwaitSlips(old(tapState), waitState, endState, waitTime))
      ensures r.Halted? <==> waitState > UPDATEIR || endState > UPDATEIR
      ensures r.Done? ==> tapState == WaitsIn(WaitsIn(old(tapState), waitState), endState)
      ensures r.Done? && waitTime > 0 ==>
                WaitedIn(old(port.trace), port.trace, WaitsIn(old(tapState), waitState), waitTime, !old(Slipped()))
    {
      hide Distance;
      ghost var tap := tapState;
      if tapState != waitState {
        var _ :- GotoStateByte(waitState);
      }
      assert tapState == WaitsIn(tap, waitState);
      ghost var before, w, tdi := actual, port.trace, port.tdi;
      WaitInState(waitTime);
      if endState <= UPDATEIR && CodeOf(before) == tapState {
        XwaitExactly(tap, waitState, endState, waitTime, before);
      }
      if tapState != endState {
        var _ :- GotoStateByte(endState);
      }
      r := Done(ERROR_NONE);
      if waitTime > 0 {
        assert WaitedFrom(old(port.trace), port.trace, w, tdi, WaitsIn(tap, waitState), waitTime, !old(Slipped()));
      }
    }

    /** An XSDRINC that began at m goes on. */
    ghost predicate Going(m: Moment)
      reads this, port, lvTdi, lvTdoExpected, lvTdoCaptured, lvTdoMask, lvAddressMask, lvDataMask, lvNextData,
            lvTdoExpected.val, lvTdoCaptured.val, lvTdoMask.val, lvAddressMask.val, lvDataMask.val
    {
      Running() && Sized(m) && Continues(m, Now()) && lvTdi.len == m.at.len
    }

    /** The first shift value, then numTimes steps of masking and shifting. With a data mask of 256
        bytes the eight-bit index of the counting loop never reaches the length. */
    method DoXsdrinc() returns (r: Outcome<int>)
      requires Running()
      modifies Footprint()
      ensures Played(r) && InStepStill() && Effect(XSDRINC, r)
    {
      hide DrShifted, IrShifted, ExpectedAlone, WaitedIn, Into, Number, Long, Trapped, WaitsIn, Stepped, PopCount,
           BuffersOk, InSync;
      ghost var m := Now();
      SizedNow();
      var count, numTimes;
      r, count, numTimes := XsdrincStart(m);
      if r != Done(ERROR_NONE) {
        return;
      }
      r := XsdrincSteps(count, numTimes, m);
    }

    /** The start value goes out. */
    method XsdrincFirst(ghost m: Moment) returns (r: Outcome<int>)
      requires Running() && Sized(m) && m == Now()
      modifies Footprint() - {lvDataMask, lvDataMask.val, lvAddressMask, lvAddressMask.val}
      ensures Played(r) && InStepStill()
      ensures r.Halted? <==> m.at.pos + m.at.len > |port.program|
      ensures r.Done? ==>
                && Taken(m.at.len) && Continues(m, Now()) && lvTdi.len == m.at.len
                   && lvTdi.Text() == port.program[m.at.pos..port.pos]
                && DataSent(port.tdo, m, lvTdi.Text(), Place(m.trace, m.tap, m.conf.captured),
                            PlaceNow(lvTdoCaptured), r.value)
    {
      var _ :- ReadTdi(shiftLengthBytes);
      SizedNow();
      ghost var n := Now();
      hide ShiftDone, DrScan, Conf, BuffersOk, InSync;
      r := ShiftDr(lvTdoMask, endDr, runTestTime, maxRepeat);
      DataDone(port.tdo, m, n, Now(), lvTdi.Text(), r.value);
    }

    /** The start value goes out, and the operands for the loop are taken. */
    method XsdrincStart(ghost m: Moment) returns (r: Outcome<int>, count: nat, numTimes: Byte)
      requires Running() && Sized(m) && m == Now()
      modifies Footprint() - {lvDataMask, lvDataMask.val, lvAddressMask, lvAddressMask.val}
      ensures Played(r) && InStepStill()
      ensures r.Halted? ==> m.at.pos + m.at.len >= |port.program| || |m.at.mask| > 255
      ensures r.Done? ==> Continues(m, Now())
      ensures r.Done? && r.value != ERROR_NONE ==>
              Stepped(port.program, port.tdo, m, 0, port.pos, PlaceNow(lvTdoCaptured), r.value)
      ensures r == Done(ERROR_NONE) ==>
                && Going(m) && |m.at.mask| <= 255 && count == PopCount(m.at.mask)
                && m.at.pos + m.at.len < |port.program| && numTimes == port.program[m.at.pos + m.at.len]
                && Stepped(port.program, port.tdo, m, 0, port.pos, PlaceNow(lvTdoCaptured), ERROR_NONE)
                && Holds(port.program, m, 0, Number(lvTdi.Text()))
    {
      hide PopCount, DataSent, Stepped, Xsvf.Holds, BuffersOk;
      count, numTimes := 0, 0;
      r := XsdrincFirst(m);
      if r.Halted? {
        return;
      }
      ghost var b, data, error := PlaceNow(lvTdoCaptured), lvTdi.Text(), r.value;
      FirstStep(port.program, port.tdo, m, port.pos + if error == ERROR_NONE then 1 else 0, data, b, error);
      if r != Done(ERROR_NONE) {
        return;
      }
      if lvDataMask.len > 255 {
        r := Halted(NoProgress);
        return;
      }
      count := CountMaskBits(lvDataMask);
      numTimes :- port.ReadByte();
    }

    /** The loop: every step consumes its bits' bytes and sends the next value. */
    method XsdrincSteps(count: nat, numTimes: Byte, ghost m: Moment) returns (r: Outcome<int>)
      requires Going(m) && |m.at.mask| <= 255 && count == PopCount(m.at.mask)
      requires Stepped(port.program, port.tdo, m, 0, port.pos, PlaceNow(lvTdoCaptured), ERROR_NONE)
      requires Holds(port.program, m, 0, Number(lvTdi.Text()))
      modifies Footprint() - {lvDataMask, lvDataMask.val, lvAddressMask, lvAddressMask.val}
      ensures Played(r) && InStepStill()
      ensures r.Halted? ==> m.at.pos + m.at.len + 1 + numTimes * NumBytes(count) > |port.program|
      ensures r.Done? ==>
                && Continues(m, Now())
                && exists i: nat ::
                     && i <= numTimes && (if r.value == ERROR_NONE then i == numTimes else i > 0)
                     && Stepped(port.program, port.tdo, m, i, port.pos, PlaceNow(lvTdoCaptured), r.value)
    {
      hide Stepped, Xsvf.Holds, PopCount, Pdep, DataSent, BuffersOk, InSync, Conf, Number, Pow256;
      r := Done(ERROR_NONE);
      var i := 0;
      while r == Done(ERROR_NONE) && i < numTimes
        invariant Played(r) && InStepStill() && r.Done? && Continues(m, Now()) && i <= numTimes
                  && (r.value != ERROR_NONE ==> i > 0)
        invariant r == Done(ERROR_NONE) ==> Going(m) && Holds(port.program, m, i, Number(lvTdi.Text()))
        invariant Stepped(port.program, port.tdo, m, i, port.pos, PlaceNow(lvTdoCaptured), r.value)
      {
        ghost var a, pos, tdi := PlaceNow(lvTdoCaptured), port.pos, Number(lvTdi.Text());
        r := XsdrincStep(count, m);
        SteppedPos(port.program, port.tdo, m, i, pos, a);
        TimesOrder(i + 1, numTimes, NumBytes(count));
        OneMoreTime(i, NumBytes(count));
        if r.Halted? {
          return;
        }
        NextStep(port.program, m, i, pos, tdi, lvTdi.Text());
        SteppedOn(port.program, port.tdo, m, i, pos, a, lvTdi.Text(), PlaceNow(lvTdoCaptured), r.value);
        i := i + 1;
      }
    }

    /** The next data and the masking. */
    method NextValue(count: nat) returns (r: Outcome<()>)
      requires Running() && lvTdi.len == shiftLengthBytes && count == PopCount(lvDataMask.Text())
      requires lvDataMask.len <= 255
      modifies port`pos, lvNextData, lvNextData.val, lvTdi, lvTdi.val
      ensures Running() && old(port.pos) <= port.pos && lvTdi.len == shiftLengthBytes
      ensures r.Halted? <==> old(port.pos) + NumBytes(count) > |port.program|
      ensures r.Done? ==> Taken(NumBytes(count)) && Now() == At(old(Now()), port.pos)
      ensures r.Done? && lvDataMask.len == lvTdi.len ==>
                Number(lvTdi.Text())
                == Pdep((Number(old(lvTdi.Text())) + Number(old(lvAddressMask.val[..lvTdi.len]))) % Pow256(lvTdi.len),
                        Number(lvDataMask.Text()),
                        Number(port.program[old(port.pos)..old(port.pos) + NumBytes(count)]))
    {
      hide InSync, Number, Pdep, Pow256, Deposit, BitAt, Columns;
      PopCountBound(lvDataMask.Text());
      var _ :- ReadVal(lvNextData, NumBytes(count));
      DoSdrMasking(lvTdi, lvNextData, lvAddressMask, lvDataMask);
      if lvDataMask.len == lvTdi.len {
        MaskingMeaning(lvTdi.Text(), old(lvTdi.Text()), lvAddressMask.val[..lvTdi.len], lvDataMask.Text(),
                       lvNextData.Text());
      }
      r := Done(());
    }

    /** One step: the next value, which is the sum with the next data deposited into it, is shifted. */
    method XsdrincStep(count: nat, ghost m: Moment) returns (r: Outcome<int>)
      requires Going(m) && |m.at.mask| <= 255 && count == PopCount(m.at.mask)
      modifies Footprint() - {lvDataMask, lvDataMask.val, lvAddressMask, lvAddressMask.val}
      ensures Played(r) && InStepStill() && lvTdi.len == m.at.len
      ensures r.Halted? <==> old(port.pos) + NumBytes(count) > |port.program|
      ensures r == Done(ERROR_NONE) ==> Going(m)
      ensures r.Done? ==>
                && Taken(NumBytes(count)) && Continues(m, Now())
                && DataSent(port.tdo, m, lvTdi.Text(), old(PlaceNow(lvTdoCaptured)), PlaceNow(lvTdoCaptured), r.value)
      ensures r.Done? && |m.at.mask| == m.at.len ==>
                Number(lvTdi.Text())
                == Pdep((Number(old(lvTdi.Text())) + Number(m.conf.address[..m.at.len])) % Pow256(m.at.len),
                        Number(m.at.mask),
                        Number(port.program[old(port.pos)..old(port.pos) + NumBytes(count)]))
    {
      hide PopCount, Pdep, Number, Pow256, ShiftDone, DrScan, InSync;
      assert lvAddressMask.val[..m.at.len] == m.conf.address[..m.at.len];
      ghost var m0 := Now();
      var _ :- NextValue(count);
      ghost var n := Now();
      hide BuffersOk;
      r := ShiftDr(lvTdoMask, endDr, runTestTime, maxRepeat);
      DataDone(port.tdo, m, n, Now(), lvTdi.Text(), r.value);
    }

    // ---- Running a program ----

    /** xsvfInitialize: the reset sequence synchronises every controller. */
    method Initialize()
      requires Valid() && errorCode == ERROR_NONE && !complete && Initial(Now())
      modifies this, port
      ensures Running() && Initial(Now()) && !Slipped() && port.pos == old(port.pos) && old(port.trace) <= port.trace
    {
      errorCode := GotoTapState(RESET);
    }

    /** One command: the moment when it begins decides whether it returns, what it has done then, and whether it
        leads out of step. */
    method Run() returns (r: Outcome<int>)
      requires Valid() && InSync()
      modifies Footprint()
      ensures Valid() && InSync()
      ensures old(errorCode) != ERROR_NONE || old(complete) ==>
              r == Done(old(errorCode)) && port.trace == old(port.trace)
      ensures old(errorCode) == ERROR_NONE && !old(complete) ==>
                && Follows(port.program, old(Now()), Now())
                && (r.Done? ==> old(port.pos) < port.pos && r.value == errorCode
                                && Does(port.program, port.tdo, old(Now()), Now(), r.value))
                && (r.Halted? ==> HaltsAt(port.program, old(port.pos), old(shiftLengthBytes), old(lvDataMask.Text())))
    {
      hide Follows, HaltsAt, Does;
      if errorCode != ERROR_NONE || complete {
        return Done(errorCode);
      }
      r := ReadCommand();
    }

    method ReadCommand() returns (r: Outcome<int>)
      requires Running()
      modifies Footprint()
      ensures Valid() && InSync() && Follows(port.program, old(Now()), Now())
      ensures r.Done? ==>
                && old(port.pos) < port.pos && r.value == errorCode
                && Does(port.program, port.tdo, old(Now()), Now(), r.value)
      ensures r.Halted? ==> HaltsAt(port.program, old(port.pos), old(shiftLengthBytes), old(lvDataMask.Text()))
    {
      hide Performed, Halts, XwaitSlips, Long;
      command :- port.ReadByte();
      commandCount := commandCount + 1;
      r := DoCmd();
    }

    /** The command table. */
    method DoCmd() returns (r: Outcome<int>)
      requires Running()
      modifies Footprint()
      ensures Played(r) && Effect(old(command), r)
      ensures var program, p := port.program, old(port.pos);
              !old(Slipped()) ==>
                (Slipped() <==> old(command) == XWAIT && p + 6 <= |program|
                                && XwaitSlips(old(tapState), program[p], program[p + 1], Long(program, p + 2)))
    {
      hide Performed, Halts, XwaitSlips, Long;
      if command < 12 {
        r := DoEarlyCmd();
      } else if command == XWAIT {
        r := DoXwait();
      } else {
        r := DoLateCmd();
      }
    }

    /** The first half of the command table. */
    method DoEarlyCmd() returns (r: Outcome<int>)
      requires Running() && command < 12
      modifies Footprint()
      ensures Played(r) && InStepStill() && Effect(old(command), r)
    {
      hide Performed, Halts;
      match command {
        case 0 => r := DoXcomplete();
        case 1 => r := DoXtdomask();
        case 2 => r := DoXsir();
        case 3 => r := DoXsdr();
        case 4 => r := DoXruntest();
        case 7 => r := DoXrepeat();
        case 8 => r := DoXsdrsize();
        case 9 => r := DoXsdrtdo();
        case 10 => r := DoXsetsdrmasks();
        case 11 => r := DoXsdrinc();
        case _ => r := DoIllegalCmd();
      }
    }

    /** The second half, but for XWAIT; every other byte is illegal. */
    method DoLateCmd() returns (r: Outcome<int>)
      requires Running() && command >= 12 && command != XWAIT
      modifies Footprint()
      ensures Played(r) && InStepStill() && Effect(old(command), r)
    {
      hide Performed, Halts;
      match command {
        case 12 => r := DoXsdrbce();
        case 13 => r := DoXsdrbce();
        case 14 => r := DoXsdrbce();
        case 15 => r := DoXsdrtdobce();
        case 16 => r := DoXsdrtdobce();
        case 17 => r := DoXsdrtdobce();
        case 18 => r := DoXstate();
        case 19 => r := DoXendxr();
        case 20 => r := DoXendxr();
        case 21 => r := DoXsir2();
        case 22 => r := DoXcomment();
        case _ => r := DoIllegalCmd();
      }
    }

    /** The loop of xsvfExecute. */
    method RunAll(ghost log0: seq<Moment>) returns (r: Outcome<int>, ghost log: seq<Moment>)
      requires Running() && IsRun(port.program, port.tdo, log0) && log0 == [Now()]
      modifies Footprint()
      ensures Valid() && InSync() && IsRun(port.program, port.tdo, log) && log0 <= log && log[|log| - 1] == Now()
      ensures r.Halted? ==>
                |log| >= 2 && var at := log[|log| - 2].at; HaltsAt(port.program, at.pos, at.len, at.mask)
      ensures r.Done? ==>
                && r.value == errorCode && (r.value == ERROR_NONE ==> complete)
                && |log| >= 2 && Does(port.program, port.tdo, log[|log| - 2], log[|log| - 1], r.value)
    {
      hide Follows, HaltsAt, IsRun, Does;
      log := log0;
      r := Done(ERROR_NONE);
      while errorCode == ERROR_NONE && !complete
        invariant Valid() && InSync() && IsRun(port.program, port.tdo, log) && log0 <= log && log[|log| - 1] == Now()
        invariant r == Done(errorCode)
        invariant |log| >= 2 ==> Does(port.program, port.tdo, log[|log| - 2], log[|log| - 1], errorCode)
        invariant complete || errorCode != ERROR_NONE ==> |log| >= 2
        decreases |port.program| - port.pos
      {
        r := Run();
        RunGoesOn(port.program, port.tdo, log, Now());
        log := log + [Now()];
        if r.Halted? {
          return;
        }
      }
    }
  }

  /** xsvfExecute: whatever the program, the device and the controller's state before. The log has a moment
      for every command begun, and each command has done between two of them what the format says; at each, the
      state of every controller is known, and the tracked state is that state, until an XWAIT slips; wherever the
      player stops, it is the last moment. It returns unless the last command begun does not. */
  method Execute(port: Port) returns (r: Outcome<int>, player: Player, ghost log: seq<Moment>)
    requires port.Valid()
    modifies port
    ensures player.port == port && player.Valid() && IsRun(port.program, port.tdo, log)
    ensures Initial(log[0]) && log[0].at.pos == old(port.pos) && log[|log| - 1] == player.Now()
    ensures (forall i :: 0 <= i < |log| - 1 ==> !SlipsAt(port.program, log[i].at.pos, log[i].tap)) ==>
              forall s: Controller :: CodeOf(After(s, port.trace)) == player.tapState
    ensures r.Halted? ==>
              |log| >= 2 && var at := log[|log| - 2].at; HaltsAt(port.program, at.pos, at.len, at.mask)
    ensures r.Done? ==>
              && r.value == player.errorCode && (r.value == ERROR_NONE ==> player.complete)
              && |log| >= 2 && Does(port.program, port.tdo, log[|log| - 2], log[|log| - 1], r.value)
  {
    hide Follows, HaltsAt, IsRun, Known, SlipsAt, Player.Valid, Halts, Does;
    player := new Player(port);
    player.Initialize();
    RunBegins(port.program, port.tdo, player.Now());
    r, log := player.RunAll([player.Now()]);
    InStepAtEnd(port.program, port.tdo, log);
  }

  lemma RunBegins(program: seq<Byte>, tdo: seq<Edge> -> bool, m: Moment)
    requires Known(m) && InStep(m)
    ensures IsRun(program, tdo, [m])
  {
  }

  lemma RunGoesOn(program: seq<Byte>, tdo: seq<Edge> -> bool, log: seq<Moment>, m: Moment)
    requires IsRun(program, tdo, log) && Known(m) && Follows(program, log[|log| - 1], m)
    requires |log| >= 2 ==> Does(program, tdo, log[|log| - 2], log[|log| - 1], ERROR_NONE)
    ensures IsRun(program, tdo, log + [m])
  {
    hide Does, Follows, Known;
    var longer := log + [m];
    forall i | 0 <= i < |longer| ensures Known(longer[i]) {
    }
    forall i | 0 <= i < |longer| - 1
      ensures Follows(program, longer[i], longer[i + 1])
      ensures i < |longer| - 2 ==> Does(program, tdo, longer[i], longer[i + 1], ERROR_NONE)
    {
      if i < |log| - 1 {
        assert longer[i] == log[i] && longer[i + 1] == log[i + 1];
        assert Follows(program, log[i], log[i + 1]);
        if i < |log| - 2 { assert Does(program, tdo, log[i], log[i + 1], ERROR_NONE); }
      }
    }
  }

  lemma InStepAtEnd(program: seq<Byte>, tdo: seq<Edge> -> bool, log: seq<Moment>)
    requires IsRun(program, tdo, log)
    ensures (forall i :: 0 <= i < |log| - 1 ==> !SlipsAt(program, log[i].at.pos, log[i].tap)) ==> InStep(log[|log| - 1])
  {
    hide SlipsAt, InStep, Does, Follows, Known;
    if forall i :: 0 <= i < |log| - 1 ==> !SlipsAt(program, log[i].at.pos, log[i].tap) {
      InStepUntil(program, tdo, log, |log| - 1);
    }
  }
}
