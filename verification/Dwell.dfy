/** How many blocks a tuning of the sweep gets (firmware/hackrf_usb/usb_api_sweep.c): the loop reads the
    sample counter twice in a pass, and the counter may go on in between. */
module SweepDwell {

  const THROWAWAY_BUFFERS := 2
  const HALF := 16384

  /** The two readings of one pass. */
  datatype Readings = Readings(first: nat, second: nat)

  /** Between passes: the blocks queued for the tuning, the half awaited, and the number of the tuning. */
  datatype Beat = Beat(queued: nat, phase: nat, tuning: nat)

  /** The first half was complete at the first reading, and the second at the other. */
  predicate Crosses(b: Beat, p: Readings) {
    b.phase == 1 && p.first >= HALF && p.second < HALF
  }

  /** A crossing queues two blocks and sends one. That loses a block unless the blocks still to be thrown
        away, or more than the tuning needs, make up for it. */
  predicate Loses(b: Beat, p: Readings, dwell: nat) {
    Crosses(b, p) && THROWAWAY_BUFFERS <= b.queued <= dwell
  }

  /** The blocks of a pass. */
  function Queue(b: Beat, p: Readings): Beat {
    var b1 := if p.first >= HALF && b.phase == 1 then b.(queued := b.queued + 1, phase := 0) else b;
    if p.second < HALF && b1.phase == 0 then b1.(queued := b1.queued + 1, phase := 1) else b1
  }

  /** One of them is sent. */
  predicate Sends(b: Beat, p: Readings) {
    Queue(b, p).queued > b.queued && Queue(b, p).queued > THROWAWAY_BUFFERS
  }

  function Next(b: Beat, p: Readings, dwell: nat): Beat {
    var q := Queue(b, p);
    if q.queued >= dwell + THROWAWAY_BUFFERS then Beat(0, q.phase, q.tuning + 1) else q
  }

  function After(passes: seq<Readings>, dwell: nat): Beat {
    if passes == [] then Beat(0, 1, 0) else Next(After(passes[..|passes| - 1], dwell), passes[|passes| - 1], dwell)
  }

  /** Pass i loses a block of tuning m. */
  predicate LosesAt(passes: seq<Readings>, dwell: nat, m: nat, i: nat)
    requires i < |passes|
  {
    After(passes[..i], dwell).tuning == m && Loses(After(passes[..i], dwell), passes[i], dwell)
  }

  function Losses(passes: seq<Readings>, dwell: nat, m: nat): nat {
    if passes == [] then 0
    else Losses(passes[..|passes| - 1], dwell, m) + if LosesAt(passes, dwell, m, |passes| - 1) then 1 else 0
  }

  lemma {:induction false} NoLosses(passes: seq<Readings>, dwell: nat, m: nat)
    ensures Losses(passes, dwell, m) == 0 <==> forall i :: 0 <= i < |passes| ==> !LosesAt(passes, dwell, m, i)
  {
    if passes != [] {
      var n := |passes| - 1;
      NoLosses(passes[..n], dwell, m);
      forall i | 0 <= i < n
        ensures LosesAt(passes[..n], dwell, m, i) == LosesAt(passes, dwell, m, i)
      {
        assert passes[..n][..i] == passes[..i];
      }
    }
  }

  lemma {:induction false} NoLossAhead(passes: seq<Readings>, dwell: nat, m: nat)
    requires m > After(passes, dwell).tuning
    ensures Losses(passes, dwell, m) == 0
  {
    if passes != [] {
      NoLossAhead(passes[..|passes| - 1], dwell, m);
    }
  }

  /** The blocks that a tuning would have got by now without losses. */
  function Expected(dwell: nat, queued: nat): nat {
    if queued <= THROWAWAY_BUFFERS then 0
    else if queued - THROWAWAY_BUFFERS > dwell then dwell else queued - THROWAWAY_BUFFERS
  }

  /** The blocks sent for each tuning, the last not finished: the dwell count, less the losses. */
  ghost predicate Dwelt(blocks: seq<nat>, passes: seq<Readings>, dwell: nat) {
    var b := After(passes, dwell);
    && |blocks| == b.tuning + 1 && b.queued <= dwell + 1
    && (forall m {:trigger blocks[m]} :: 0 <= m < b.tuning ==> blocks[m] + Losses(passes, dwell, m) == dwell)
    && blocks[b.tuning] + Losses(passes, dwell, b.tuning) == Expected(dwell, b.queued)
  }

  /** The last tuning has one block more. */
  function OneMore(blocks: seq<nat>): (r: seq<nat>)
    requires |blocks| > 0
    ensures |r| == |blocks|
  {
    blocks[|blocks| - 1 := blocks[|blocks| - 1] + 1]
  }

  lemma BlocksThere(blocks: seq<nat>, passes: seq<Readings>, dwell: nat)
    requires Dwelt(blocks, passes, dwell)
    ensures |blocks| == After(passes, dwell).tuning + 1
  {
  }

  /** The blocks after a pass. */
  function BlocksNext(blocks: seq<nat>, b: Beat, p: Readings, dwell: nat): seq<nat>
    requires |blocks| > 0
  {
    (if Sends(b, p) then OneMore(blocks) else blocks)
    + if Queue(b, p).queued >= dwell + THROWAWAY_BUFFERS then [0] else []
  }

  lemma OnePass(passes: seq<Readings>, p: Readings, dwell: nat, m: nat)
    ensures After(passes + [p], dwell) == Next(After(passes, dwell), p, dwell)
    ensures var b := After(passes, dwell);
            Losses(passes + [p], dwell, m)
            == Losses(passes, dwell, m) + if b.tuning == m && Loses(b, p, dwell) then 1 else 0
  {
    assert (passes + [p])[..|passes|] == passes;
  }

  /** What a pass sends, and what it loses, make up the difference in what is expected. */
  lemma Counted(b: Beat, p: Readings, dwell: nat)
    requires dwell >= 1 && b.queued <= dwell + 1
    ensures Expected(dwell, Queue(b, p).queued)
            == Expected(dwell, b.queued) + (if Sends(b, p) then 1 else 0) + (if Loses(b, p, dwell) then 1 else 0)
    ensures Queue(b, p).tuning == b.tuning
    ensures Queue(b, p).queued >= dwell + THROWAWAY_BUFFERS ==> Expected(dwell, Queue(b, p).queued) == dwell
    ensures Expected(dwell, 0) == 0
  {
  }

  lemma BlocksNextAre(blocks: seq<nat>, b: Beat, p: Readings, dwell: nat)
    requires |blocks| == b.tuning + 1
    ensures var next := BlocksNext(blocks, b, p, dwell);
            && |next| == Next(b, p, dwell).tuning + 1
            && next[b.tuning] == blocks[b.tuning] + (if Sends(b, p) then 1 else 0)
            && (forall m {:trigger next[m]} :: 0 <= m < b.tuning ==> next[m] == blocks[m])
            && (Next(b, p, dwell).tuning == b.tuning
                || (Next(b, p, dwell).tuning == b.tuning + 1 && next[b.tuning + 1] == 0))
  {
    hide Sends;
    assert Queue(b, p).tuning == b.tuning;
    hide Queue;
  }

  lemma DweltOn(blocks: seq<nat>, passes: seq<Readings>, p: Readings, dwell: nat)
    requires dwell >= 1 && Dwelt(blocks, passes, dwell)
    ensures Dwelt(BlocksNext(blocks, After(passes, dwell), p, dwell), passes + [p], dwell)
  {
    hide After, Losses, Queue, Sends, Loses, Expected, BlocksNext;
    var b, longer := After(passes, dwell), passes + [p];
    var t, next := b.tuning, BlocksNext(blocks, b, p, dwell);
    Counted(b, p, dwell);
    NoLossAhead(passes, dwell, t + 1);
    BlocksNextAre(blocks, b, p, dwell);
    OnePass(passes, p, dwell, t);
    OnePass(passes, p, dwell, t + 1);
    assert next[t] + Losses(longer, dwell, t) == Expected(dwell, Queue(b, p).queued);
    forall m {:trigger next[m]} | 0 <= m < t
      ensures next[m] + Losses(longer, dwell, m) == dwell
    {
      assert next[m] == blocks[m];
      OnePass(passes, p, dwell, m);
    }
  }

  /** A finished tuning has all its blocks iff none of its passes crossed with at least as many blocks queued
      as are thrown away, and at most the dwell count. */
  lemma FullDwell(blocks: seq<nat>, passes: seq<Readings>, dwell: nat, m: nat)
    requires Dwelt(blocks, passes, dwell) && m < After(passes, dwell).tuning
    ensures blocks[m] <= dwell
    ensures blocks[m] == dwell <==> forall i :: 0 <= i < |passes| ==> !LosesAt(passes, dwell, m, i)
  {
    NoLosses(passes, dwell, m);
  }

  /** A run that loses: three passes with a dwell count of two, the third of which crosses. */
  lemma LosingRun(blocks: seq<nat>)
    requires Dwelt(blocks, [Readings(HALF, HALF), Readings(0, 0), Readings(HALF, 0)], 2)
    ensures |blocks| == 2 && blocks[0] == 1
  {
    var p1: seq<Readings> := [Readings(HALF, HALF)];
    var p2: seq<Readings> := p1 + [Readings(0, 0)];
    OnePass([], Readings(HALF, HALF), 2, 0);
    OnePass(p1, Readings(0, 0), 2, 0);
    OnePass(p2, Readings(HALF, 0), 2, 0);
    assert [] + [Readings(HALF, HALF)] == p1;
    assert p2 + [Readings(HALF, 0)] == [Readings(HALF, HALF), Readings(0, 0), Readings(HALF, 0)];
  }
}
