/** What XWAIT does to a controller (firmware/common/xapp058/micro.c): the wait in a state that TMS may
    not hold, and the closing move, which may bring player and controller together again. */
module Waiting {

  import opened Tap

  /** Where a controller in a goes while the player walks from c to a target. */
  function Carried(a: Controller, c: Code, target: Code): Controller
    requires target != RESET && !Trapped(c, target)
    decreases Distance(c, target)
  {
    if c == target then a
    else
      PathStepApproaches(c, target);
      Carried(Clock(a, PathStep(c, target).0), PathStep(c, target).1, target)
  }

  /** A controller that is where the player believes it arrives with the player. */
  lemma {:induction false} CarriedTogether(a: Controller, target: Code)
    requires target != RESET && !Trapped(CodeOf(a), target)
    ensures CodeOf(Carried(a, CodeOf(a), target)) == target
    decreases Distance(CodeOf(a), target)
  {
    if CodeOf(a) != target {
      PathStepApproaches(CodeOf(a), target);
      PathStepFollowsDiagram(a, target);
      CarriedTogether(Clock(a, PathStep(CodeOf(a), target).0), target);
    }
  }

  /** Where xsvfGotoTapState takes a controller in a when the player believes to be in c. */
  function Moved(a: Controller, c: Code, target: Code): Controller {
    if target == RESET then TestLogicReset
    else if Trapped(c, target) then a
    else if c == target && target in {PAUSEDR, PAUSEIR} then Carried(Clock(a, true), target + 1, target)
    else Carried(a, c, target)
  }

  lemma MovedTogether(a: Controller, target: Code)
    ensures CodeOf(Moved(a, CodeOf(a), target))
            == if target != RESET && Trapped(CodeOf(a), target) then CodeOf(a) else target
  {
    if target != RESET && !Trapped(CodeOf(a), target) {
      if CodeOf(a) == target && target in {PAUSEDR, PAUSEIR} {
        CarriedTogether(Clock(a, true), target);
      } else {
        CarriedTogether(a, target);
      }
    }
  }

  /** One more edge may as well come first. */
  lemma {:induction false} FirstEdge(s: Controller, tms: bool, n: nat)
    ensures ClockTimes(s, tms, n + 1) == ClockTimes(Clock(s, tms), tms, n)
  {
    if n > 0 {
      FirstEdge(s, tms, n - 1);
    }
  }

  lemma ResetStays(n: nat)
    ensures ClockTimes(TestLogicReset, true, n) == TestLogicReset
  {
    StableStays(TestLogicReset, n);
  }

  /** Up to which state n high edges lead from the one before Select-DR-Scan. */
  function RaisedFromUpdate(n: nat): Controller {
    if n == 1 then SelectDrScan else if n == 2 then SelectIrScan else TestLogicReset
  }

  lemma RaisedFrom(s: Controller, n: nat)
    requires n > 0
    ensures s in {UpdateDr, UpdateIr} ==> ClockTimes(s, true, n) == RaisedFromUpdate(n)
    ensures s == SelectDrScan ==> ClockTimes(s, true, n) == if n == 1 then SelectIrScan else TestLogicReset
    ensures s == SelectIrScan ==> ClockTimes(s, true, n) == TestLogicReset
  {
    FirstEdge(s, true, n - 1);
    if n > 1 {
      FirstEdge(Clock(s, true), true, n - 2);
      ResetStays(n - 2);
    }
    if n > 2 {
      FirstEdge(Clock(Clock(s, true), true), true, n - 3);
      ResetStays(n - 3);
    }
  }

  /** The closing move of an XWAIT to a state other than Reset mends a wait of n edges in an unstable state
      iff it leaves Capture, or goes to Run-Test/Idle after a wait of the right length. */
  predicate Mended(q: Code, n: nat, e: Code) {
    || (q in {CAPTUREDR, CAPTUREIR} && e != q)
    || (e == RUNTEST && q == SELECTDR && n == 1)
    || (e == RUNTEST && q in {EXIT1DR, EXIT2DR, UPDATEDR, EXIT1IR, EXIT2IR, UPDATEIR} && n >= 3)
  }

  /** From Select-DR-Scan a controller ahead by one state meets the player in Run-Test/Idle only, one in
      Test-Logic-Reset nowhere. */
  lemma FromSelect(e: Code)
    requires e != RESET && !Trapped(SELECTDR, e)
    ensures CodeOf(Carried(SelectIrScan, SELECTDR, e)) == e <==> e == RUNTEST
  {
    if e == 1 {} else if e == 2 {} else if e == 3 {} else if e == 4 {} else if e == 5 {} else if e == 6 {}
    else if e == 8 {} else if e == 9 {} else if e == 10 {} else if e == 11 {} else if e == 12 {}
    else if e == 13 {} else {}
  }

  lemma FromSelectInReset(e: Code)
    requires e != RESET && !Trapped(SELECTDR, e)
    ensures CodeOf(Carried(TestLogicReset, SELECTDR, e)) != e
  {
    if e == 1 {} else if e == 2 {} else if e == 3 {} else if e == 4 {} else if e == 5 {} else if e == 6 {}
    else if e == 8 {} else if e == 9 {} else if e == 10 {} else if e == 11 {} else if e == 12 {}
    else if e == 13 {} else {}
  }

  lemma FromUpdate(a: Controller, c: Code, e: Code)
    requires c in {UPDATEDR, UPDATEIR} && a in {SelectDrScan, SelectIrScan, TestLogicReset}
    requires e != RESET && !Trapped(c, e)
    ensures CodeOf(Carried(a, c, e)) == e <==> e == RUNTEST && a == TestLogicReset
  {
    if e != c && e != RUNTEST {
      FromSelect(e);
      FromSelectInReset(e);
    }
  }

  lemma FromExit(a: Controller, c: Code, e: Code)
    requires c in {EXIT1DR, EXIT2DR, EXIT1IR, EXIT2IR}
             && a in {UpdateDr, UpdateIr, SelectDrScan, SelectIrScan, TestLogicReset}
    requires e != RESET && !Trapped(c, e)
    ensures CodeOf(Carried(a, c, e)) == e <==> e == RUNTEST && a in {SelectIrScan, TestLogicReset}
  {
    var (tms, c') := PathStep(c, e);
    if e != c && e != c' {
      FromUpdate(Clock(a, tms), c', e);
    }
  }

  lemma FromCapture(s: Controller, n: nat, e: Code)
    requires s in {CaptureDr, CaptureIr} && n > 0 && e != RESET && !Trapped(CodeOf(s), e)
    ensures CodeOf(Carried(ClockTimes(s, false, n), CodeOf(s), e)) == e <==> e != CodeOf(s)
  {
    FirstEdge(s, false, n - 1);
    StableStays(Clock(s, false), n - 1);
    var a := Clock(s, false);
    if e != CodeOf(s) {
      PathStepApproaches(CodeOf(s), e);
      CarriedTogether(Clock(a, PathStep(CodeOf(s), e).0), e);
    }
  }

  /** Exactly then do player and controller meet. */
  lemma MendedExactly(s: Controller, n: nat, e: Code)
    requires !Stable(CodeOf(s)) && n > 0 && e != RESET && !Trapped(CodeOf(s), e)
    ensures var a := ClockTimes(s, EnteredHigh(CodeOf(s)), n);
            CodeOf(Carried(a, CodeOf(s), e)) == e <==> Mended(CodeOf(s), n, e)
  {
    hide Carried;
    match s {
      case CaptureDr => FromCapture(s, n, e);
      case CaptureIr => FromCapture(s, n, e);
      case SelectDrScan =>
        RaisedFrom(s, n);
        FromSelect(e);
        FromSelectInReset(e);
      case SelectIrScan =>
        RaisedFrom(s, n);
        FromSelectIr(e);
      case UpdateDr =>
        RaisedFrom(s, n);
        FromUpdate(RaisedFromUpdate(n), UPDATEDR, e);
      case UpdateIr =>
        RaisedFrom(s, n);
        FromUpdate(RaisedFromUpdate(n), UPDATEIR, e);
      case Exit1Dr | Exit2Dr | Exit1Ir | Exit2Ir =>
        FirstEdge(s, true, n - 1);
        if n > 1 { RaisedFrom(Clock(s, true), n - 1); }
        FromExit(ClockTimes(s, true, n), CodeOf(s), e);
      case _ =>
    }
  }

  /** From Select-IR-Scan a controller in Test-Logic-Reset never meets the player. */
  lemma FromSelectIr(e: Code)
    requires e != RESET && !Trapped(SELECTIR, e)
    ensures CodeOf(Carried(TestLogicReset, SELECTIR, e)) != e
  {
    if e != SELECTIR && e != CAPTUREIR && e != SHIFTIR {
      assert PathStep(SELECTIR, e) == (false, CAPTUREIR) && PathStep(CAPTUREIR, e) == (true, EXIT1IR);
      FromExit(SelectDrScan, EXIT1IR, e);
    }
  }

  /** The state in which XWAIT waits: the one named, unless the way there is refused. */
  function WaitsIn(tap: Code, w: Code): Code {
    if w != RESET && Trapped(tap, w) then tap else w
  }

  /** An XWAIT takes player and controller, in step before, out of step: it waits in a state that TMS does
      not hold, and the closing move does not mend it, or is none. */
  predicate XwaitSlips(tap: Code, w: int, e: int, time: int) {
    && 0 <= w <= UPDATEIR && time > 0
    && var q := WaitsIn(tap, w);
    && !Stable(q) && e != RESET
    && (e < 0 || e > UPDATEIR || e == q || Trapped(q, e) || !Mended(q, time, e))
  }

  /** The whole XWAIT, from in step: out of step exactly if XwaitSlips says so. */
  lemma XwaitExactly(tap: Code, w: Code, e: Code, time: int, s: Controller)
    requires CodeOf(s) == WaitsIn(tap, w)
    ensures var q := WaitsIn(tap, w);
            var waited := ClockTimes(s, EnteredHigh(q), if time > 0 then time else 0);
            var (a, c) := if e == q then (waited, q)
                          else (Moved(waited, q, e), if e != RESET && Trapped(q, e) then q else e);
            CodeOf(a) != c <==> XwaitSlips(tap, w, e, time)
  {
    var q := WaitsIn(tap, w);
    var waited := ClockTimes(s, EnteredHigh(q), if time > 0 then time else 0);
    hide Mended, Carried;
    if time > 0 { WaitKeepsState(s, time); }
    CodesDiffer(waited, s);
    if waited == s {
      MovedTogether(s, e);
    } else if e != RESET && !Trapped(q, e) && e != q {
      MendedExactly(s, time, e);
    }
  }

  lemma CodesDiffer(a: Controller, b: Controller)
    ensures CodeOf(a) == CodeOf(b) <==> a == b
  {
  }

  /** Failing: three microseconds in Update-DR, and on to Pause-DR. */
  lemma SlipsInUpdate()
    ensures XwaitSlips(RESET, UPDATEDR, PAUSEDR, 3) && !XwaitSlips(RESET, UPDATEDR, RUNTEST, 3)
    ensures CodeOf(Carried(ClockTimes(UpdateDr, true, 3), UPDATEDR, PAUSEDR)) != PAUSEDR
  {
    MendedExactly(UpdateDr, 3, PAUSEDR);
  }
}
