/** The TAP controller of IEEE Std 1149.1-2001, section 6.1, and the player's path through it
    (firmware/common/xapp058/micro.c). The controller is the standard's diagram; the path table is
    the code's; the lemmas relate the two. */
module Tap {

  /** One rising edge of TCK with the levels it samples. */
  datatype Edge = Edge(tms: bool, tdi: bool)

  datatype Controller =
    | TestLogicReset | RunTestIdle
    | SelectDrScan | CaptureDr | ShiftDr | Exit1Dr | PauseDr | Exit2Dr | UpdateDr
    | SelectIrScan | CaptureIr | ShiftIr | Exit1Ir | PauseIr | Exit2Ir | UpdateIr

  /** The standard's state diagram. */
  function Clock(s: Controller, tms: bool): Controller {
    match s
    case TestLogicReset => if tms then TestLogicReset else RunTestIdle
    case RunTestIdle => if tms then SelectDrScan else RunTestIdle
    case SelectDrScan => if tms then SelectIrScan else CaptureDr
    case CaptureDr => if tms then Exit1Dr else ShiftDr
    case ShiftDr => if tms then Exit1Dr else ShiftDr
    case Exit1Dr => if tms then UpdateDr else PauseDr
    case PauseDr => if tms then Exit2Dr else PauseDr
    case Exit2Dr => if tms then UpdateDr else ShiftDr
    case UpdateDr => if tms then SelectDrScan else RunTestIdle
    case SelectIrScan => if tms then TestLogicReset else CaptureIr
    case CaptureIr => if tms then Exit1Ir else ShiftIr
    case ShiftIr => if tms then Exit1Ir else ShiftIr
    case Exit1Ir => if tms then UpdateIr else PauseIr
    case PauseIr => if tms then Exit2Ir else PauseIr
    case Exit2Ir => if tms then UpdateIr else ShiftIr
    case UpdateIr => if tms then SelectDrScan else RunTestIdle
  }

  /** The state a controller that was in s reaches after a trace of edges. */
  function After(s: Controller, trace: seq<Edge>): Controller {
    if trace == [] then s
    else Clock(After(s, trace[..|trace| - 1]), trace[|trace| - 1].tms)
  }

  lemma AfterAppend(s: Controller, trace: seq<Edge>, e: Edge)
    ensures After(s, trace + [e]) == Clock(After(s, trace), e.tms)
  {
  }

  // ---- The player's encoding of the states (one byte) ----

  const RESET := 0x00
  const RUNTEST := 0x01
  const SELECTDR := 0x02
  const CAPTUREDR := 0x03
  const SHIFTDR := 0x04
  const EXIT1DR := 0x05
  const PAUSEDR := 0x06
  const EXIT2DR := 0x07
  const UPDATEDR := 0x08
  const SELECTIR := 0x09
  const CAPTUREIR := 0x0A
  const SHIFTIR := 0x0B
  const EXIT1IR := 0x0C
  const PAUSEIR := 0x0D
  const EXIT2IR := 0x0E
  const UPDATEIR := 0x0F

  type Code = c: int | 0 <= c <= 0x0F

  function CodeOf(s: Controller): Code {
    match s
    case TestLogicReset => RESET
    case RunTestIdle => RUNTEST
    case SelectDrScan => SELECTDR
    case CaptureDr => CAPTUREDR
    case ShiftDr => SHIFTDR
    case Exit1Dr => EXIT1DR
    case PauseDr => PAUSEDR
    case Exit2Dr => EXIT2DR
    case UpdateDr => UPDATEDR
    case SelectIrScan => SELECTIR
    case CaptureIr => CAPTUREIR
    case ShiftIr => SHIFTIR
    case Exit1Ir => EXIT1IR
    case PauseIr => PAUSEIR
    case Exit2Ir => EXIT2IR
    case UpdateIr => UPDATEIR
  }

  /** TMS on the edge that enters a state; every state of the diagram is entered on one level only. */
  predicate EnteredHigh(c: Code) {
    c in {RESET, SELECTDR, EXIT1DR, EXIT2DR, UPDATEDR, SELECTIR, EXIT1IR, EXIT2IR, UPDATEIR}
  }

  lemma EntryLevelIsUnique(s: Controller, tms: bool)
    ensures EnteredHigh(CodeOf(Clock(s, tms))) == tms
  {
  }

  /** States that the level on TMS that entered them also holds. */
  predicate Stable(c: Code) {
    c in {RESET, RUNTEST, SHIFTDR, PAUSEDR, SHIFTIR, PAUSEIR}
  }

  // ---- The path the player takes, one switch arm of xsvfGotoTapState at a time ----

  /** The TMS level and the new tracked state; target is any byte. */
  function PathStep(c: Code, target: int): (r: (bool, Code)) {
    if c == RESET then (false, RUNTEST)
    else if c == RUNTEST then (true, SELECTDR)
    else if c == SELECTDR then if target >= SELECTIR then (true, SELECTIR) else (false, CAPTUREDR)
    else if c == CAPTUREDR then if target == SHIFTDR then (false, SHIFTDR) else (true, EXIT1DR)
    else if c == SHIFTDR then (true, EXIT1DR)
    else if c == EXIT1DR then if target == PAUSEDR then (false, PAUSEDR) else (true, UPDATEDR)
    else if c == PAUSEDR then (true, EXIT2DR)
    else if c == EXIT2DR then if target == SHIFTDR then (false, SHIFTDR) else (true, UPDATEDR)
    else if c == UPDATEDR then if target == RUNTEST then (false, RUNTEST) else (true, SELECTDR)
    else if c == SELECTIR then (false, CAPTUREIR)
    else if c == CAPTUREIR then if target == SHIFTIR then (false, SHIFTIR) else (true, EXIT1IR)
    else if c == SHIFTIR then (true, EXIT1IR)
    else if c == EXIT1IR then if target == PAUSEIR then (false, PAUSEIR) else (true, UPDATEIR)
    else if c == PAUSEIR then (true, EXIT2IR)
    else if c == EXIT2IR then if target == SHIFTIR then (false, SHIFTIR) else (true, UPDATEIR)
    else if target == RUNTEST then (false, RUNTEST) else (true, SELECTDR)
  }

  /** Each arm assigns the state the controller really enters on the level it puts out. */
  lemma PathStepFollowsDiagram(s: Controller, target: int)
    ensures PathStep(CodeOf(s), target).1 == CodeOf(Clock(s, PathStep(CodeOf(s), target).0))
  {
  }

  lemma PathLevel(c: Code, target: int)
    ensures EnteredHigh(PathStep(c, target).1) == PathStep(c, target).0
  {
  }

  predicate Trapped(c: Code, target: int) {
    c != target && ((target == EXIT2DR && c != PAUSEDR) || (target == EXIT2IR && c != PAUSEIR))
  }

  /** Edges from a state to the next visit of Select-DR-Scan when nothing stops the walk earlier. */
  function ToSelectDr(c: Code): nat {
    if c == RESET then 2
    else if c == RUNTEST then 1
    else if c == SELECTDR then 0
    else if c == SELECTIR then 4
    else if c in {UPDATEDR, UPDATEIR} then 1
    else if c in {EXIT1DR, EXIT2DR, EXIT1IR, EXIT2IR} then 2
    else 3
  }

  /** Edges from Select-DR-Scan to a target. */
  function FromSelectDr(target: Code): nat {
    if target == SELECTDR then 0
    else if target in {CAPTUREDR, SELECTIR} then 1
    else if target in {SHIFTDR, EXIT1DR, CAPTUREIR} then 2
    else if target in {PAUSEDR, UPDATEDR, SHIFTIR, EXIT1IR} then 3
    else 4
  }

  /** Position inside a column: Select 0, Capture 1, Shift 2, Exit1 3, Pause 4, Exit2 5, Update 6. */
  function Row(c: Code): nat {
    if c < SELECTDR then 0 else (c - SELECTDR) % 7
  }

  /** Edges between two states of one column, when the walk meets the target before leaving it. */
  function WithinColumn(from: nat, to: nat): int {
    if from == 0 && to == 1 then 1
    else if from == 0 && to in {2, 3} then 2
    else if from == 0 && to in {4, 6} then 3
    else if from == 1 && to in {2, 3} then 1
    else if from == 1 && to in {4, 6} then 2
    else if from == 2 && to == 3 then 1
    else if from == 2 && to in {4, 6} then 2
    else if from == 3 && to in {4, 6} then 1
    else if from == 4 && to == 5 then 1
    else if from == 4 && to in {2, 6} then 2
    else if from == 5 && to in {2, 6} then 1
    else -1
  }

  /** The exact number of edges the path loop emits. */
  function Distance(c: Code, target: Code): nat {
    if c == target then 0
    else if target == RUNTEST then
      if c == RESET then 1
      else if c == SELECTDR then 4
      else ToSelectDr(c)
    else if c >= SELECTDR && target >= SELECTDR && (c >= SELECTIR) == (target >= SELECTIR)
            && WithinColumn(Row(c), Row(target)) > 0 then
      WithinColumn(Row(c), Row(target))
    else ToSelectDr(c) + FromSelectDr(target)
  }

  /** The loop's measure: every step of an untrapped walk brings the target one edge nearer. */
  lemma PathStepApproaches(c: Code, target: Code)
    requires target != RESET && c != target && !Trapped(c, target)
    ensures !Trapped(PathStep(c, target).1, target)
    ensures Distance(PathStep(c, target).1, target) == Distance(c, target) - 1
  {
    if target <= SHIFTDR {
      ApproachEarly(c, target);
    } else if target < SELECTIR {
      ApproachLateDr(c, target);
    } else {
      ApproachIr(c, target);
    }
  }

  lemma ApproachEarly(c: Code, target: Code)
    requires RESET < target <= SHIFTDR && c != target
    ensures Distance(PathStep(c, target).1, target) == Distance(c, target) - 1
  {
  }

  lemma ApproachLateDr(c: Code, target: Code)
    requires SHIFTDR < target < SELECTIR && c != target && !Trapped(c, target)
    ensures Distance(PathStep(c, target).1, target) == Distance(c, target) - 1
  {
  }

  lemma ApproachIr(c: Code, target: Code)
    requires SELECTIR <= target && c != target && !Trapped(c, target)
    ensures Distance(PathStep(c, target).1, target) == Distance(c, target) - 1
  {
  }

  function Walk(c: Code, target: int, steps: nat): Code {
    if steps == 0 then c else PathStep(Walk(c, target, steps - 1), target).1
  }

  /** The walk reaches its target byte, and then after exactly Distance edges, iff the byte names a
      state; a byte above 0x0F makes xsvfGotoTapState loop for ever. */
  lemma {:induction false} WalkArrives(c: Code, target: int)
    requires target != RESET && !Trapped(c, target)
    ensures (exists n: nat :: Walk(c, target, n) == target) <==> 0 < target <= 0x0F
    ensures 0 < target <= 0x0F ==> Walk(c, target, Distance(c, target)) == target
  {
    if 0 < target <= 0x0F {
      WalkCountsDown(c, target, Distance(c, target));
    }
  }

  lemma {:induction false} WalkCountsDown(c: Code, target: Code, n: nat)
    requires target != RESET && !Trapped(c, target) && n <= Distance(c, target)
    ensures !Trapped(Walk(c, target, n), target)
    ensures Distance(Walk(c, target, n), target) == Distance(c, target) - n
    ensures n == Distance(c, target) ==> Walk(c, target, n) == target
  {
    if n > 0 {
      WalkCountsDown(c, target, n - 1);
      PathStepApproaches(Walk(c, target, n - 1), target);
    }
  }

  // ---- Reset and waiting ----

  lemma IdleCode(s: Controller)
    ensures CodeOf(s) == RUNTEST <==> s == RunTestIdle
  {
  }

  function Held(tms: bool, tdi: bool, n: nat): seq<Edge> {
    seq(n, i => Edge(tms, tdi))
  }

  function ClockTimes(s: Controller, tms: bool, n: nat): Controller {
    if n == 0 then s else Clock(ClockTimes(s, tms, n - 1), tms)
  }

  /** Five edges with TMS high reach Test-Logic-Reset from every state; the player emits six. */
  lemma SixHighEdgesReset(s: Controller)
    ensures ClockTimes(s, true, 6) == TestLogicReset
  {
    var s1 := Clock(s, true);
    var s2 := Clock(s1, true);
    var s3 := Clock(s2, true);
    var s4 := Clock(s3, true);
    assert ClockTimes(s, true, 1) == s1;
    assert ClockTimes(s, true, 2) == s2;
    assert ClockTimes(s, true, 3) == s3;
    assert ClockTimes(s, true, 4) == s4;
    assert ClockTimes(s, true, 5) == Clock(s4, true);
  }

  /** Waiting n > 0 edges with TMS left at the level that entered a state keeps that state iff the
      state is stable. */
  lemma {:induction false} WaitKeepsState(s: Controller, n: nat)
    requires n > 0
    ensures ClockTimes(s, EnteredHigh(CodeOf(s)), n) == s <==> Stable(CodeOf(s))
  {
    var tms := EnteredHigh(CodeOf(s));
    if Stable(CodeOf(s)) {
      StableStays(s, n);
    } else {
      LeftForGood(s, n);
    }
  }

  lemma {:induction false} StableStays(s: Controller, n: nat)
    requires Stable(CodeOf(s))
    ensures ClockTimes(s, EnteredHigh(CodeOf(s)), n) == s
  {
    if n > 0 { StableStays(s, n - 1); }
  }

  /** With the level held, an unstable state drains through later states and never returns. */
  function Drain(c: Code): nat {
    if c in {EXIT1DR, EXIT2DR, EXIT1IR, EXIT2IR} then 4
    else if c in {UPDATEDR, UPDATEIR} then 3
    else if c in {SELECTDR, CAPTUREDR, CAPTUREIR} then 2
    else if c == SELECTIR then 1
    else 0
  }

  lemma {:induction false} LeftForGood(s: Controller, n: nat)
    requires !Stable(CodeOf(s)) && n > 0
    ensures Drain(CodeOf(ClockTimes(s, EnteredHigh(CodeOf(s)), n))) < Drain(CodeOf(s))
    ensures EnteredHigh(CodeOf(ClockTimes(s, EnteredHigh(CodeOf(s)), n))) == EnteredHigh(CodeOf(s))
  {
    var tms := EnteredHigh(CodeOf(s));
    var before := ClockTimes(s, tms, n - 1);
    EntryLevelIsUnique(before, tms);
    if n == 1 {
      assert before == s;
    } else {
      LeftForGood(s, n - 1);
    }
  }
}
