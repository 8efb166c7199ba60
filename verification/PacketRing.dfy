/** The packet ring between the USB callback and the reader
    (host/hackrf-tools/src/libhackrf_wrapper.c), the two interleaved statement by statement. */
module PacketRing {

  const PACKETS_CNT := 1024
  const BUFFER_LEN_MAX := 128

  type Packet = p: seq<int> | p != [] witness [0]

  datatype Slot = Slot(buffer: seq<int>, bufferLen: nat)

  /** Statements of rx_callback: the count guard, the slot check, the length check, the copy, the
      length, the counter. */
  datatype WriterPc = AtGuard | AtSlotCheck | AtLengthCheck | AtCopy | AtLength | AtCount

  /** Statements of get_next_packet: the empty test, the zero-length check, the copy, the length, the
      clearing of the slot, the counter. */
  datatype ReaderPc = AtEmptyTest | AtZeroCheck | AtCopyOut | AtLengthOut | AtClear | AtAdvance

  /** One step of either side. */
  datatype Event = Arrive(block: Packet) | Write | Read

  ghost predicate Holds(s: Slot, p: Packet) {
    |s.buffer| == BUFFER_LEN_MAX && s.bufferLen == |p| <= BUFFER_LEN_MAX && s.buffer[..|p|] == p
  }

  /** Packets lo up to hi lie in their slots. */
  ghost predicate Stored(slots: seq<Slot>, accepted: seq<Packet>, lo: nat, hi: nat) {
    && |slots| == PACKETS_CNT && hi == |accepted|
    && (forall i :: 0 <= i < PACKETS_CNT ==> |slots[i].buffer| == BUFFER_LEN_MAX)
    && (forall k: nat :: lo <= k < hi ==> Holds(slots[k % PACKETS_CNT], accepted[k]))
  }

  /** The slots of the packets to come, from number lo up to hi, are free. */
  ghost predicate Free(slots: seq<Slot>, lo: nat, hi: nat)
    requires |slots| == PACKETS_CNT
  {
    forall k: nat :: lo <= k < hi ==> slots[k % PACKETS_CNT].bufferLen == 0
  }

  /** With at most PACKETS_CNT packets waiting and all other slots free, the length of the next slot is zero
      iff the ring is not full. */
  lemma FreeSlotMeansRoom(slots: seq<Slot>, accepted: seq<Packet>, lo: nat, hi: nat)
    requires Stored(slots, accepted, lo, hi) && lo <= hi <= lo + PACKETS_CNT && Free(slots, hi, lo + PACKETS_CNT)
    ensures slots[hi % PACKETS_CNT].bufferLen == 0 <==> hi < lo + PACKETS_CNT
  {
    assert lo < hi ==> Holds(slots[lo % PACKETS_CNT], accepted[lo]);
  }

  /** Writing the next slot of a ring with room leaves every waiting packet alone. */
  lemma NextSlotIsNobodys(slots: seq<Slot>, accepted: seq<Packet>, lo: nat, hi: nat, s: Slot)
    requires Stored(slots, accepted, lo, hi) && lo <= hi < lo + PACKETS_CNT && |s.buffer| == BUFFER_LEN_MAX
    ensures Stored(slots[hi % PACKETS_CNT := s], accepted, lo, hi)
    ensures Free(slots, hi + 1, lo + PACKETS_CNT) ==> Free(slots[hi % PACKETS_CNT := s], hi + 1, lo + PACKETS_CNT)
  {
  }

  /** Clearing the oldest slot leaves every younger packet alone, and frees one slot more. */
  lemma OldestSlotIsAlone(slots: seq<Slot>, accepted: seq<Packet>, lo: nat, hi: nat, coming: nat, s: Slot)
    requires Stored(slots, accepted, lo, hi) && lo < hi <= lo + PACKETS_CNT && |s.buffer| == BUFFER_LEN_MAX
    requires hi <= coming && Free(slots, coming, lo + PACKETS_CNT) && s.bufferLen == 0
    ensures Stored(slots[lo % PACKETS_CNT := s], accepted, lo + 1, hi)
    ensures Free(slots[lo % PACKETS_CNT := s], coming, lo + 1 + PACKETS_CNT)
  {
  }

  class Ring {
    const packetBuffer: array<Slot>
    var cntWrite: nat
    var cntRead: nat

    var writerPc: WriterPc
    var block: Packet
    var readerPc: ReaderPc
    var packet: seq<int>
    var packetLen: nat

    /** Every packet stored, and every packet handed out. */
    ghost var accepted: seq<Packet>
    ghost var delivered: seq<seq<int>>
    /** The steps taken. */
    ghost var history: seq<Event>

    /** The oldest packet whose slot the reader has not cleared. */
    ghost function Oldest(): (lo: nat)
      reads `delivered, `readerPc
    {
      |delivered| + if readerPc == AtAdvance then 1 else 0
    }

    /** The first packet to come whose slot the writer has not filled. */
    ghost function Coming(): (hi: nat)
      reads `accepted, `writerPc
    {
      |accepted| + if writerPc == AtCount then 1 else 0
    }

    ghost predicate CountersOk()
      reads `cntWrite, `cntRead, `accepted, `delivered
    {
      && |delivered| <= |accepted|
      && cntWrite == |accepted| && cntRead == |delivered|
      && delivered == accepted[..|delivered|]
    }

    ghost predicate ReaderOk()
      reads `readerPc, `packet, `packetLen, `accepted, `delivered
    {
      && (readerPc != AtEmptyTest ==> |delivered| < |accepted|)
      && (readerPc in {AtLengthOut, AtClear, AtAdvance} ==> |delivered| < |accepted| && packet == accepted[|delivered|])
      && (readerPc in {AtClear, AtAdvance} ==> packetLen == |packet|)
    }

    ghost predicate WriterOk()
      reads `writerPc, `block, `accepted, `delivered, `readerPc, packetBuffer
    {
      && packetBuffer.Length == PACKETS_CNT
      && (writerPc in {AtLengthCheck, AtCopy, AtLength, AtCount} ==> |accepted| < Oldest() + PACKETS_CNT)
      && (writerPc in {AtCopy, AtLength, AtCount} ==> |block| <= BUFFER_LEN_MAX)
      && var s := packetBuffer[|accepted| % PACKETS_CNT];
      && |s.buffer| == BUFFER_LEN_MAX
      && (writerPc in {AtLength, AtCount} ==> |block| <= BUFFER_LEN_MAX && s.buffer[..|block|] == block)
      && (writerPc == AtCount ==> s.bufferLen == |block|)
    }

    ghost predicate Valid()
      reads `cntWrite, `cntRead, `writerPc, `block, `readerPc, `packet, `packetLen, `accepted, `delivered, packetBuffer
    {
      && CountersOk() && ReaderOk() && WriterOk()
      && Oldest() <= |accepted| <= Oldest() + PACKETS_CNT
      && Stored(packetBuffer[..], accepted, Oldest(), |accepted|)
      && Free(packetBuffer[..], Coming(), Oldest() + PACKETS_CNT)
    }

    /** Where the writer is after its next step: a block is dropped iff its slot is taken, which it is iff the
        ring is full, or if it is too long. */
    ghost function AfterWrite(): WriterPc
      reads `writerPc, `block, `accepted, `delivered, `readerPc
    {
      match writerPc
      case AtGuard => AtGuard
      case AtSlotCheck => if |accepted| == Oldest() + PACKETS_CNT then AtGuard else AtLengthCheck
      case AtLengthCheck => if |block| > BUFFER_LEN_MAX then AtGuard else AtCopy
      case AtCopy => AtLength
      case AtLength => AtCount
      case AtCount => AtGuard
    }

    /** Where the reader is after its next step: it waits only if no packet does. */
    ghost function AfterRead(): ReaderPc
      reads `readerPc, `accepted, `delivered
    {
      match readerPc
      case AtEmptyTest => if |delivered| < |accepted| then AtZeroCheck else AtEmptyTest
      case AtZeroCheck => AtCopyOut
      case AtCopyOut => AtLengthOut
      case AtLengthOut => AtClear
      case AtClear => AtAdvance
      case AtAdvance => AtEmptyTest
    }

    constructor ()
      ensures Valid() && fresh(packetBuffer) && accepted == [] && delivered == []
      ensures writerPc == AtGuard && readerPc == AtEmptyTest
    {
      packetBuffer := new Slot[PACKETS_CNT](_ => Slot(seq(BUFFER_LEN_MAX, _ => 0), 0));
      cntWrite, cntRead, writerPc, readerPc, packet, packetLen := 0, 0, AtGuard, AtEmptyTest, [], 0;
      block := [0];
      accepted, delivered, history := [], [], [];
    }

    /** A new block arrives: the count guard, which lets a full ring through. */
    method Receive(newBlock: Packet)
      requires Valid() && writerPc == AtGuard
      modifies `block, `writerPc
      ensures Valid() && block == newBlock
      ensures writerPc == if |accepted| - |delivered| > PACKETS_CNT then AtGuard else AtSlotCheck
    {
      block := newBlock;
      if !(cntWrite - cntRead > PACKETS_CNT) {
        writerPc := AtSlotCheck;
      }
    }

    /** The slot check and the length check drop the block or let it on. */
    method WriterCheck()
      requires Valid() && writerPc in {AtSlotCheck, AtLengthCheck}
      modifies `writerPc
      ensures Valid() && writerPc == old(AfterWrite())
    {
      if writerPc == AtSlotCheck {
        FreeSlotMeansRoom(packetBuffer[..], accepted, Oldest(), |accepted|);
        if packetBuffer[cntWrite % PACKETS_CNT].bufferLen != 0 {
          writerPc := AtGuard;
        } else {
          writerPc := AtLengthCheck;
        }
      } else {
        writerPc := if |block| > BUFFER_LEN_MAX then AtGuard else AtCopy;
      }
    }

    /** The copy and the length: only the slot of the coming packet changes. */
    method WriterFill()
      requires Valid() && writerPc in {AtCopy, AtLength}
      modifies `writerPc, packetBuffer
      ensures Valid() && writerPc == if old(writerPc) == AtCopy then AtLength else AtCount
    {
      var idx := cntWrite % PACKETS_CNT;
      var s := packetBuffer[idx];
      ghost var was := packetBuffer[..];
      if writerPc == AtCopy {
        s := s.(buffer := block + s.buffer[|block|..]);
        writerPc := AtLength;
      } else {
        s := s.(bufferLen := |block|);
        writerPc := AtCount;
      }
      NextSlotIsNobodys(was, accepted, Oldest(), |accepted|, s);
      packetBuffer[idx] := s;
      assert packetBuffer[..] == was[idx := s];
    }

    /** The counter: the block is accepted. */
    method WriterCount()
      requires Valid() && writerPc == AtCount
      modifies `writerPc, `cntWrite, `accepted
      ensures Valid() && writerPc == AtGuard && accepted == old(accepted) + [block]
    {
      assert Holds(packetBuffer[|accepted| % PACKETS_CNT], block);
      cntWrite := cntWrite + 1;
      accepted := accepted + [block];
      writerPc := AtGuard;
    }

    /** The empty test and the zero-length check: no waiting packet has length zero. The test
        passes iff a packet waits. */
    method ReaderCheck()
      requires Valid() && readerPc in {AtEmptyTest, AtZeroCheck}
      modifies `readerPc, `packetLen
      ensures Valid()
      ensures readerPc == if old(readerPc) == AtZeroCheck then AtCopyOut
                          else if |delivered| < |accepted| then AtZeroCheck
                          else AtEmptyTest
    {
      if readerPc == AtEmptyTest {
        if !(cntRead >= cntWrite) {
          packetLen := 0;
          readerPc := AtZeroCheck;
        }
      } else {
        assert Holds(packetBuffer[..][cntRead % PACKETS_CNT], accepted[cntRead]);
        assert packetBuffer[cntRead % PACKETS_CNT].bufferLen != 0;
        readerPc := AtCopyOut;
      }
    }

    /** The copy and the length: what leaves is the oldest waiting packet. */
    method ReaderCopy()
      requires Valid() && readerPc in {AtCopyOut, AtLengthOut}
      modifies `readerPc, `packet, `packetLen
      ensures Valid() && packet == accepted[|delivered|]
      ensures readerPc == if old(readerPc) == AtCopyOut then AtLengthOut else AtClear
    {
      var s := packetBuffer[cntRead % PACKETS_CNT];
      assert Holds(packetBuffer[..][|delivered| % PACKETS_CNT], accepted[|delivered|]);
      if readerPc == AtCopyOut {
        packet := s.buffer[..s.bufferLen];
        readerPc := AtLengthOut;
      } else {
        packetLen := s.bufferLen;
        readerPc := AtClear;
      }
    }

    /** The clearing of the slot, before the counter. */
    method ReaderClear()
      requires Valid() && readerPc == AtClear
      modifies `readerPc, packetBuffer
      ensures Valid() && readerPc == AtAdvance
    {
      var idx := cntRead % PACKETS_CNT;
      var s := packetBuffer[idx].(bufferLen := 0);
      ghost var was := packetBuffer[..];
      OldestSlotIsAlone(was, accepted, |delivered|, |accepted|, Coming(), s);
      packetBuffer[idx] := s;
      readerPc := AtAdvance;
      assert packetBuffer[..] == was[idx := s];
    }

    /** The counter: the packet is handed out. */
    method ReaderAdvance()
      requires Valid() && readerPc == AtAdvance
      modifies `readerPc, `cntRead, `delivered
      ensures Valid() && readerPc == AtEmptyTest && packet == accepted[|old(delivered)|]
      ensures delivered == old(delivered) + [packet] && packetLen == |packet|
      ensures |old(delivered)| < |accepted| && delivered == accepted[..|old(delivered)| + 1]
    {
      cntRead := cntRead + 1;
      delivered := delivered + [packet];
      readerPc := AtEmptyTest;
    }

    twostate predicate ReaderStands()
      reads `readerPc, `delivered
    {
      readerPc == old(readerPc) && delivered == old(delivered)
    }

    /** One step of either side. Packets accepted are only appended to, and what has been handed out is
        a prefix of them. */
    method Step(e: Event)
      requires Valid()
      modifies this, packetBuffer
      ensures Valid() && old(accepted) <= accepted && old(delivered) <= delivered <= accepted
      ensures history == old(history) + [e]
      ensures match e
              case Arrive(newBlock) =>
                && ReaderStands() && accepted == old(accepted)
                && writerPc == (if old(writerPc) != AtGuard then old(writerPc)
                                else if |accepted| - |delivered| > PACKETS_CNT then AtGuard else AtSlotCheck)
                && block == if old(writerPc) == AtGuard then newBlock else old(block)
              case Write =>
                && ReaderStands() && block == old(block) && writerPc == old(AfterWrite())
                && accepted == if old(writerPc) == AtCount then old(accepted) + [block] else old(accepted)
              case Read =>
                && writerPc == old(writerPc) && block == old(block) && accepted == old(accepted)
                   && readerPc == old(AfterRead())
                && (if old(readerPc) == AtAdvance then
                      |old(delivered)| < |accepted| && delivered == accepted[..|old(delivered)| + 1]
                    else delivered == old(delivered))
    {
      hide Stored, Free, ReaderOk, WriterOk;
      match e {
        case Arrive(newBlock) => if writerPc == AtGuard { Receive(newBlock); }
        case Write => WriteStep();
        case Read => ReadStep();
      }
      history := history + [e];
    }

    method WriteStep()
      requires Valid()
      modifies `writerPc, `cntWrite, `accepted, packetBuffer
      ensures Valid() && writerPc == old(AfterWrite())
      ensures accepted == if old(writerPc) == AtCount then old(accepted) + [block] else old(accepted)
    {
      hide Stored, Free, CountersOk, ReaderOk, WriterOk;
      match writerPc {
        case AtGuard =>
        case AtSlotCheck | AtLengthCheck => WriterCheck();
        case AtCopy | AtLength => WriterFill();
        case AtCount => WriterCount();
      }
    }

    method ReadStep()
      requires Valid()
      modifies `readerPc, `packet, `packetLen, `cntRead, `delivered, packetBuffer
      ensures Valid() && readerPc == old(AfterRead())
      ensures if old(readerPc) == AtAdvance then
                |old(delivered)| < |accepted| && delivered == accepted[..|old(delivered)| + 1]
              else delivered == old(delivered)
    {
      hide Stored, Free, CountersOk, ReaderOk, WriterOk;
      match readerPc {
        case AtEmptyTest | AtZeroCheck => ReaderCheck();
        case AtCopyOut | AtLengthOut => ReaderCopy();
        case AtClear => ReaderClear();
        case AtAdvance => ReaderAdvance();
      }
    }

    /** Any interleaving: all its steps are taken, and each does what Step says. */
    method Run(schedule: seq<Event>)
      requires Valid()
      modifies this, packetBuffer
      ensures Valid() && old(accepted) <= accepted && old(delivered) <= delivered <= accepted
      ensures |accepted| - |delivered| <= PACKETS_CNT + 1 && history == old(history) + schedule
    {
      for i := 0 to |schedule|
        invariant history == old(history) + schedule[..i]
        invariant Valid() && old(accepted) <= accepted && old(delivered) <= delivered <= accepted
      {
        Step(schedule[i]);
      }
    }

    /** A block of at most BUFFER_LEN_MAX that meets a ring which is not full is accepted by its five steps,
        however the reader's come in between and whatever else arrives meanwhile. */
    method Accept(newBlock: Packet, schedule: seq<Event>)
      requires Valid() && writerPc == AtGuard && |newBlock| <= BUFFER_LEN_MAX && |accepted| < Oldest() + PACKETS_CNT
      requires Count(schedule, Write) == 5
      modifies this, packetBuffer
      ensures Valid() && accepted == old(accepted) + [newBlock]
    {
      hide Stored, Free, ReaderOk, WriterOk;
      Step(Arrive(newBlock));
      for i := 0 to |schedule|
        invariant Valid() && old(accepted) <= accepted && old(delivered) <= delivered
        invariant var n := Count(schedule[..i], Write);
                  if n < 5 then block == newBlock && writerPc == WriterAt(n) && accepted == old(accepted)
                                && |accepted| < Oldest() + PACKETS_CNT
                  else accepted == old(accepted) + [newBlock] && writerPc in {AtGuard, AtSlotCheck}
      {
        CountNext(schedule, Write, i);
        Step(schedule[i]);
      }
      assert schedule[..|schedule|] == schedule;
    }

    /** A waiting packet is handed out by six steps of the reader, whatever the writer does meanwhile. */
    method Take(schedule: seq<Event>)
      requires Valid() && readerPc == AtEmptyTest && |delivered| < |accepted| && Count(schedule, Read) == 6
      modifies this, packetBuffer
      ensures Valid() && delivered == old(delivered + [accepted[|delivered|]])
    {
      for i := 0 to |schedule|
        invariant Valid() && old(accepted) <= accepted
        invariant var n := Count(schedule[..i], Read);
                  if n < 6 then readerPc == ReaderAt(n) && delivered == old(delivered)
                  else readerPc == AtEmptyTest && delivered == old(delivered + [accepted[|delivered|]])
      {
        CountNext(schedule, Read, i);
        Step(schedule[i]);
      }
      assert schedule[..|schedule|] == schedule;
    }
  }

  function WriterAt(n: nat): WriterPc {
    match n
    case 0 => AtSlotCheck
    case 1 => AtLengthCheck
    case 2 => AtCopy
    case 3 => AtLength
    case _ => AtCount
  }

  function ReaderAt(n: nat): ReaderPc {
    match n
    case 0 => AtEmptyTest
    case 1 => AtZeroCheck
    case 2 => AtCopyOut
    case 3 => AtLengthOut
    case 4 => AtClear
    case _ => AtAdvance
  }

  /** How often an event occurs. */
  ghost function Count(schedule: seq<Event>, e: Event): nat {
    multiset(schedule)[e]
  }

  lemma CountNext(schedule: seq<Event>, e: Event, i: nat)
    requires i < |schedule|
    ensures Count(schedule[..i + 1], e) == Count(schedule[..i], e) + if schedule[i] == e then 1 else 0
    ensures Count(schedule[..i + 1], e) <= Count(schedule, e)
  {
    assert schedule[..i + 1] == schedule[..i] + [schedule[i]];
    assert schedule == schedule[..i + 1] + schedule[i + 1..];
  }
}
