/** The byte ring between the receive callback and the loop that writes the file
    (host/hackrf-tools/src/hackrf_transfer.c), the two interleaved statement by statement. */
module StreamRing {

  datatype WriterPc = Idle | AtCheck | AtCopy | AtWrap | AtStore
  datatype ReaderPc = AtTest | AtLoad | AtWrite | AtUpdate

  /** One step of either side; the file takes at most limit bytes of a write. */
  datatype Event = Arrive(block: seq<int>) | Callback | Drain(limit: nat)

  /** The slot of byte k of the stream when byte h is in slot head. */
  function Slot(size: nat, head: nat, h: nat, k: nat): int {
    var o := head + (k - h);
    if o < size then o else o - size
  }

  lemma Around(size: nat, o: nat)
    requires 0 < size && o <= size
    ensures o % size == if o < size then o else 0
  {
    Once(size, o);
  }

  lemma Once(size: nat, o: nat)
    requires 0 < size && o < 2 * size
    ensures o % size == if o < size then o else o - size
  {
    if o < size {
    } else {
      assert o == size * 1 + (o - size);
      assert o / size == 1;
    }
  }

  /** The bytes from h up to the end of the stream are in their slots. */
  ghost predicate Stored(buf: seq<int>, head: nat, h: nat, stream: seq<int>) {
    && head < |buf| && h <= |stream| < h + |buf|
    && forall k :: h <= k < |stream| ==>
       0 <= Slot(|buf|, head, h, k) < |buf| && buf[Slot(|buf|, head, h, k)] == stream[k]
  }

  /** The first n bytes of a block follow in their slots. */
  ghost predicate Following(buf: seq<int>, head: nat, h: nat, end: nat, block: seq<int>, n: nat) {
    && head < |buf| && n <= |block| && h <= end && end + |block| < h + |buf|
    && forall i :: 0 <= i < n ==> buf[Slot(|buf|, head, h, end + i)] == block[i]
  }

  function Patched(buf: seq<int>, at: nat, part: seq<int>): (r: seq<int>)
    requires at + |part| <= |buf|
    ensures |r| == |buf|
    ensures forall k :: 0 <= k < |buf| ==> r[k] == if at <= k < at + |part| then part[k - at] else buf[k]
  {
    buf[..at] + part + buf[at + |part|..]
  }

  /** Copying the next part of the block, up to the end of the buffer at most, touches no unread byte. */
  lemma PartCopied(buf: seq<int>, head: nat, h: nat, stream: seq<int>, block: seq<int>, from: nat, to: nat, at: nat)
    requires Stored(buf, head, h, stream) && Following(buf, head, h, |stream|, block, from) && from <= to <= |block|
    requires at == (if from == to then at else Slot(|buf|, head, h, |stream| + from)) && at + (to - from) <= |buf|
    ensures Stored(Patched(buf, at, block[from..to]), head, h, stream)
    ensures Following(Patched(buf, at, block[from..to]), head, h, |stream|, block, to)
  {
  }

  /** Taking bytes moves the head, not the bytes. */
  lemma SlotsStay(size: nat, head: nat, h: nat, len: nat, k: nat)
    requires head < size && head + len <= size && h + len <= k < h + size
    ensures (head + len) % size < size
    ensures Slot(size, (head + len) % size, h + len, k) == Slot(size, head, h, k)
  {
  }

  /** From the head to the end of the buffer the bytes are in order. */
  lemma InOrder(buf: seq<int>, head: nat, h: nat, stream: seq<int>, n: nat)
    requires Stored(buf, head, h, stream) && head + n <= |buf| && h + n <= |stream|
    ensures buf[head..head + n] == stream[h..h + n]
  {
  }

  lemma HeadMoves(buf: seq<int>, head: nat, h: nat, stream: seq<int>, block: seq<int>, len: nat)
    requires Stored(buf, head, h, stream) && head + len <= |buf| && h + len <= |stream|
    ensures var head' := (head + len) % |buf|;
            && 0 <= head' < |buf| && Stored(buf, head', h + len, stream)
            && Slot(|buf|, head', h + len, |stream|) == Slot(|buf|, head, h, |stream|)
            && forall n: nat :: Following(buf, head, h, |stream|, block, n) ==>
               Following(buf, head', h + len, |stream|, block, n)
  {
    var head' := (head + len) % |buf|;
    forall k | h + len <= k < h + |buf|
      ensures 0 <= head' < |buf| && Slot(|buf|, head', h + len, k) == Slot(|buf|, head, h, k)
    {
      SlotsStay(|buf|, head, h, len, k);
    }
    SlotsStay(|buf|, head, h, len, |stream|);
  }

  class Ring {
    const streamBuf: array<int>
    var streamHead: nat
    var streamTail: nat
    var streamDrop: nat
    var doExit: bool

    var writerPc: WriterPc
    var block: seq<int>
    var readerPc: ReaderPc
    var st: nat
    var len: nat

    /** All bytes accepted, the number of them read, and the file. */
    ghost var stream: seq<int>
    ghost var taken: nat
    ghost var file: seq<int>
    /** The steps taken. */
    ghost var history: seq<Event>

    ghost predicate Valid()
      reads `streamHead, `streamTail, `streamDrop, `doExit, `writerPc, `block, `readerPc, `st, `len, `stream, `taken,
            `file, streamBuf
    {
      && 0 < streamBuf.Length
      && taken <= |stream| && streamHead < streamBuf.Length
      && Stored(streamBuf[..], streamHead, taken, stream)
      && streamTail == Slot(streamBuf.Length, streamHead, taken, |stream|)
      && WriterOk() && ReaderOk()
    }

    ghost predicate WriterOk()
      reads `writerPc, `block, `streamHead, `streamTail, `stream, `taken, streamBuf
    {
      && (writerPc == AtCopy ==> Following(streamBuf[..], streamHead, taken, |stream|, block, 0))
      && (writerPc == AtWrap ==>
            streamTail <= streamBuf.Length < streamTail + |block|
            && Following(streamBuf[..], streamHead, taken, |stream|, block, streamBuf.Length - streamTail))
      && (writerPc == AtStore ==> Following(streamBuf[..], streamHead, taken, |stream|, block, |block|))
    }

    ghost predicate ReaderOk()
      reads `readerPc, `st, `len, `streamHead, `stream, `taken, `file, `doExit, streamBuf
    {
      && (readerPc != AtTest ==> taken < |stream|)
      && (readerPc in {AtWrite, AtUpdate} ==>
          0 < len && streamHead + len <= streamBuf.Length && taken + len <= |stream|)
      && file <= stream
      && (!doExit ==> |file| == taken + if readerPc == AtUpdate then len else 0)
      && (doExit ==> readerPc in {AtTest, AtUpdate})
    }

    constructor (size: nat)
      requires 0 < size
      ensures Valid() && fresh(streamBuf) && streamBuf.Length == size && stream == [] && file == []
    {
      streamBuf := new int[size](_ => 0);
      streamHead, streamTail, streamDrop, doExit := 0, 0, 0, false;
      writerPc, block, readerPc, st, len := Idle, [], AtTest, 0, 0;
      stream, taken, file, history := [], 0, [], [];
    }

    /** Where the callback is after its next step: a block that does not fit with one byte to spare is dropped. */
    ghost function AfterCallback(): WriterPc
      reads `writerPc, `block, `stream, `taken, `streamTail
    {
      match writerPc
      case Idle => Idle
      case AtCheck => if |stream| - taken + |block| < streamBuf.Length then AtCopy else Idle
      case AtCopy => if streamTail + |block| <= streamBuf.Length then AtStore else AtWrap
      case AtWrap => AtStore
      case AtStore => Idle
    }

    ghost function AfterDrain(): ReaderPc
      reads `readerPc, `stream, `taken, `doExit
    {
      match readerPc
      case AtTest => if taken < |stream| && !doExit then AtLoad else AtTest
      case AtLoad => AtWrite
      case AtWrite => AtUpdate
      case AtUpdate => AtTest
    }

    /** The callback's step: a block leaves it dropped and counted, or stored whole. */
    twostate predicate CallbackDone()
      reads `streamHead, `streamTail, `streamDrop, `doExit, `writerPc, `block, `readerPc, `len, `stream, `taken, `file
    {
      && writerPc == old(AfterCallback()) && block == old(block)
      && stream == (if old(writerPc) == AtStore then old(stream) + block else old(stream))
      && streamDrop == old(streamDrop) + if old(writerPc) == AtCheck && writerPc == Idle then 1 else 0
    }

    /** The loop's step: the length found reaches to the end of the buffer or of the stream, the file gets as many
        bytes, or limit, and as many are freed. */
    twostate predicate Drained(limit: nat)
      requires 0 < streamBuf.Length
      reads `streamHead, `streamTail, `streamDrop, `doExit, `writerPc, `block, `readerPc, `len, `stream, `taken, `file
    {
      && readerPc == old(AfterDrain())
      && (if old(readerPc) == AtLoad then streamHead + len == streamBuf.Length || taken + len == |stream|
          else len == old(len))
      && (if old(readerPc) == AtWrite then
            && taken + len <= |stream| && doExit == (limit < len)
            && file == old(file) + stream[taken..taken + if limit < len then limit else len]
          else file == old(file) && doExit == old(doExit))
      && (if old(readerPc) == AtUpdate then
            taken == old(taken) + len && streamHead == (old(streamHead) + len) % streamBuf.Length
          else taken == old(taken) && streamHead == old(streamHead))
    }

    twostate predicate WriterStands()
      reads `streamHead, `streamTail, `streamDrop, `doExit, `writerPc, `block, `readerPc, `len, `stream, `taken, `file
    {
      (writerPc, block, stream, streamDrop) == old((writerPc, block, stream, streamDrop))
    }

    twostate predicate ReaderStands()
      reads `streamHead, `streamTail, `streamDrop, `doExit, `writerPc, `block, `readerPc, `len, `stream, `taken, `file
    {
      (readerPc, len, file, doExit, taken, streamHead) == old((readerPc, len, file, doExit, taken, streamHead))
    }

    /** The check: the block fits, with one byte to spare, or is dropped whole. */
    method Check()
      requires Valid() && writerPc == AtCheck
      modifies `writerPc, `streamDrop
      ensures Valid()
      ensures writerPc == if |stream| - taken + |block| <= streamBuf.Length - 1 then AtCopy else Idle
      ensures streamDrop == old(streamDrop) + if writerPc == Idle then 1 else 0
    {
      var size := streamBuf.Length;
      Once(size, size - 1 + streamHead - streamTail);
      if (size - 1 + streamHead - streamTail) % size < |block| {
        streamDrop := streamDrop + 1;
        writerPc := Idle;
      } else {
        writerPc := AtCopy;
      }
    }

    /** The first copy: the whole block, or the part up to the end of the buffer. */
    method Copy()
      requires Valid() && writerPc == AtCopy
      modifies `writerPc, streamBuf
      ensures Valid() && writerPc == if streamTail + |block| <= streamBuf.Length then AtStore else AtWrap
    {
      hide Stored, Following;
      ghost var was := streamBuf[..];
      var n := if streamTail + |block| <= streamBuf.Length then |block| else streamBuf.Length - streamTail;
      RunsOn(was, streamHead, taken, stream, block, 0, 0);
      PartCopied(was, streamHead, taken, stream, block, 0, n, streamTail);
      Memcpy(streamBuf, streamTail, block[..n]);
      assert block[0..n] == block[..n];
      writerPc := if streamTail + |block| <= streamBuf.Length then AtStore else AtWrap;
    }

    /** The second copy, from the beginning of the buffer. */
    method Wrap()
      requires Valid() && writerPc == AtWrap
      modifies `writerPc, streamBuf
      ensures Valid() && writerPc == AtStore
    {
      hide Stored, Following;
      ghost var was := streamBuf[..];
      var n := streamBuf.Length - streamTail;
      RunsOn(was, streamHead, taken, stream, block, n, n);
      PartCopied(was, streamHead, taken, stream, block, n, |block|, 0);
      Memcpy(streamBuf, 0, block[n..]);
      assert block[n..|block|] == block[n..];
      writerPc := AtStore;
    }

    /** The new tail: the block is accepted whole. */
    method Store()
      requires Valid() && writerPc == AtStore
      modifies `writerPc, `streamTail, `stream
      ensures Valid() && writerPc == Idle && stream == old(stream) + block
    {
      var size := streamBuf.Length;
      RunsOn(streamBuf[..], streamHead, taken, stream, block, |block|, |block|);
      Once(size, streamTail + |block|);
      streamTail := (streamTail + |block|) % size;
      stream := stream + block;
      writerPc := Idle;
    }

    /** Is there anything to write? */
    method Test()
      requires Valid() && readerPc == AtTest
      modifies `readerPc
      ensures Valid() && readerPc == if taken < |stream| && !doExit then AtLoad else AtTest
    {
      if !doExit && streamHead != streamTail {
        readerPc := AtLoad;
      }
    }

    /** The tail is loaded, and the length found, to the tail or to the end of the buffer. */
    method Load()
      requires Valid() && readerPc == AtLoad
      modifies `readerPc, `st, `len
      ensures Valid() && readerPc == AtWrite
      ensures streamHead + len == streamBuf.Length || taken + len == |stream|
    {
      st := streamTail;
      len := if streamHead < st then st - streamHead else streamBuf.Length - streamHead;
      readerPc := AtWrite;
    }

    /** The file takes the bytes from the head on, or fewer and the loop ends. */
    method Write(limit: nat)
      requires Valid() && readerPc == AtWrite
      modifies `readerPc, `doExit, `file
      ensures Valid() && readerPc == AtUpdate && doExit == (limit < len)
      ensures file == old(file) + stream[taken..taken + if limit < len then limit else len]
    {
      var bytesWritten := if limit < len then limit else len;
      InOrder(streamBuf[..], streamHead, taken, stream, bytesWritten);
      file := file + streamBuf[streamHead..streamHead + bytesWritten];
      assert file == stream[..taken] + stream[taken..taken + bytesWritten] == stream[..taken + bytesWritten];
      if len != bytesWritten {
        doExit := true;
      }
      readerPc := AtUpdate;
    }

    /** The new head frees the bytes written. */
    method Update()
      requires Valid() && readerPc == AtUpdate
      modifies `readerPc, `streamHead, `taken
      ensures Valid() && readerPc == AtTest && taken == old(taken) + len
      ensures streamHead == (old(streamHead) + len) % streamBuf.Length
    {
      hide Stored, Following;
      HeadMoves(streamBuf[..], streamHead, taken, stream, block, len);
      streamHead := (streamHead + len) % streamBuf.Length;
      taken := taken + len;
      readerPc := AtTest;
    }

    /** One step of either side. Accepted bytes are only appended to, block by block; the file grows
        along them, and what is not yet in it is in the buffer. */
    method Step(e: Event)
      requires Valid()
      modifies this, streamBuf
      ensures Valid() && old(stream) <= stream && old(file) <= file <= stream
      ensures history == old(history) + [e]
      ensures 0 < streamBuf.Length && match e
              case Arrive(newBlock) =>
                && ReaderStands() && stream == old(stream) && streamDrop == old(streamDrop)
                && (writerPc, block) == if old(writerPc) == Idle then (AtCheck, newBlock) else old((writerPc, block))
              case Callback => ReaderStands() && CallbackDone()
              case Drain(limit) => WriterStands() && Drained(limit)
    {
      hide Stored, Following;
      match e {
        case Arrive(newBlock) =>
          if writerPc == Idle {
            block := newBlock;
            writerPc := AtCheck;
          }
        case Callback => CallbackStep();
        case Drain(limit) => DrainStep(limit);
      }
      history := history + [e];
    }

    method CallbackStep()
      requires Valid()
      modifies `writerPc, `streamDrop, `streamTail, `stream, streamBuf
      ensures Valid() && old(stream) <= stream && CallbackDone()
    {
      hide Stored, Following;
      match writerPc {
        case Idle =>
        case AtCheck => Check();
        case AtCopy => Copy();
        case AtWrap => Wrap();
        case AtStore => Store();
      }
    }

    method DrainStep(limit: nat)
      requires Valid()
      modifies `readerPc, `st, `len, `doExit, `file, `streamHead, `taken
      ensures Valid() && old(file) <= file && 0 < streamBuf.Length && Drained(limit)
    {
      hide Stored, Following;
      match readerPc {
        case AtTest => Test();
        case AtLoad => Load();
        case AtWrite => Write(limit);
        case AtUpdate => Update();
      }
    }

    /** Any interleaving: all its steps are taken, and each does what Step says. */
    method Run(schedule: seq<Event>)
      requires Valid()
      modifies this, streamBuf
      ensures Valid() && old(stream) <= stream && old(file) <= file <= stream
      ensures (!doExit ==> |stream| < |file| + streamBuf.Length) && history == old(history) + schedule
    {
      hide Stored, Following;
      for i := 0 to |schedule|
        invariant history == old(history) + schedule[..i]
        invariant Valid() && old(stream) <= stream && old(file) <= file <= stream
      {
        Step(schedule[i]);
      }
      Bounded();
    }

    /** A block that meets room for it, and one byte, is accepted by four steps of the callback, however the
        loop's steps come in between and whatever else arrives. */
    method Accept(newBlock: seq<int>, schedule: seq<Event>)
      requires Valid() && writerPc == Idle && |stream| - taken + |newBlock| < streamBuf.Length
      requires Count(schedule, IsCallback) == 4
      modifies this, streamBuf
      ensures Valid() && stream == old(stream) + newBlock
    {
      hide Stored, Following, WriterOk, ReaderOk, Count;
      Step(Arrive(newBlock));
      CountNone(IsCallback);
      for i := 0 to |schedule|
        invariant Valid() && taken >= old(taken)
        invariant AcceptedBy(Count(schedule[..i], IsCallback), old(stream), newBlock)
      {
        CountNext(schedule, IsCallback, i);
        Step(schedule[i]);
      }
      assert schedule[..|schedule|] == schedule;
    }

    /** What n steps of the callback have done for a block that fits. */
    ghost predicate AcceptedBy(n: nat, was: seq<int>, newBlock: seq<int>)
      reads `streamHead, `streamTail, `streamDrop, `doExit, `writerPc, `block, `readerPc, `len, `stream, `taken, `file
    {
      var pending := stream == was && block == newBlock && |was| - taken + |newBlock| < streamBuf.Length;
      match n
      case 0 => pending && writerPc == AtCheck
      case 1 => pending && writerPc == AtCopy
      case 2 => pending && writerPc in {AtWrap, AtStore}
      case 3 => (pending && writerPc == AtStore) || (stream == was + newBlock && writerPc in {Idle, AtCheck})
      case 4 => stream == was + newBlock && writerPc != AtStore
      case _ => false
    }

    /** Four steps of the loop write what is stored up to the end of the buffer. */
    method DrainOnce(schedule: seq<Event>)
      requires Valid() && readerPc == AtTest && !doExit && taken < |stream|
      requires Count(schedule, IsDrain) == 4 && Unlimited(schedule)
      modifies this, streamBuf
      ensures history == old(history) + schedule
      ensures Valid() && readerPc == AtTest && !doExit && old(taken) < taken && old(stream) <= stream
      ensures streamHead == 0 || |old(stream)| <= taken
      ensures old(streamHead) == 0 ==> |old(stream)| <= taken
    {
      hide Valid, Count, DrainedBy;
      CountNone(IsDrain);
      DrainBegins();
      for i := 0 to |schedule|
        invariant Valid() && !doExit && old(stream) <= stream && history == old(history) + schedule[..i]
        invariant DrainedBy(Count(schedule[..i], IsDrain), old(streamHead), old(taken), |old(stream)|)
      {
        CountNext(schedule, IsDrain, i);
        DrainOn(schedule[i], Count(schedule[..i], IsDrain), old(streamHead), old(taken), |old(stream)|);
      }
      assert schedule[..|schedule|] == schedule;
      DrainEnds(old(streamHead), old(taken), |old(stream)|);
    }

    lemma DrainBegins()
      requires Valid() && readerPc == AtTest && taken < |stream|
      ensures DrainedBy(0, streamHead, taken, |stream|)
    {
    }

    lemma DrainEnds(h: nat, t: nat, end: nat)
      requires DrainedBy(4, h, t, end)
      ensures readerPc == AtTest && t < taken && (streamHead == 0 || end <= taken) && (h == 0 ==> end <= taken)
    {
    }

    method DrainOn(e: Event, ghost n: nat, ghost h: nat, ghost t: nat, ghost end: nat)
      requires Valid() && !doExit && n + (if e.Drain? then 1 else 0) <= 4 && DrainedBy(n, h, t, end)
      requires e.Drain? ==> e.limit >= streamBuf.Length
      modifies this, streamBuf
      ensures Valid() && !doExit && old(stream) <= stream && DrainedBy(n + if e.Drain? then 1 else 0, h, t, end)
      ensures history == old(history) + [e]
    {
      hide Valid, CallbackDone;
      InBuffer();
      if n == 3 { Around(streamBuf.Length, h + len); }
      Step(e);
      InBuffer();
    }

    lemma InBuffer()
      requires Valid()
      ensures 0 < streamBuf.Length && taken <= |stream| < taken + streamBuf.Length
      ensures readerPc in {AtWrite, AtUpdate} ==>
              0 < len && streamHead + len <= streamBuf.Length && taken + len <= |stream|
    {
    }

    /** What n steps of the loop have done since the head was at h, with t bytes taken and end stored. */
    ghost predicate DrainedBy(n: nat, h: nat, t: nat, end: nat)
      reads `streamHead, `streamTail, `streamDrop, `doExit, `writerPc, `block, `readerPc, `len, `stream, `taken, `file
    {
      && t < end <= |stream| && 0 < streamBuf.Length
      && (n < 4 ==> streamHead == h && taken == t)
      && match n
         case 0 => readerPc == AtTest
         case 1 => readerPc == AtLoad
         case 2 => readerPc == AtWrite && 0 < len && (h + len == streamBuf.Length || end <= t + len)
           && (h == 0 ==> end <= t + len)
         case 3 => readerPc == AtUpdate && 0 < len && (h + len == streamBuf.Length || end <= t + len)
           && (h == 0 ==> end <= t + len)
         case 4 => readerPc == AtTest && t < taken && (streamHead == 0 || end <= taken) && (h == 0 ==> end <= taken)
         case _ => false
    }

    /** Every write of the schedule can take the whole buffer. */
    ghost predicate Unlimited(schedule: seq<Event>) {
      forall i :: 0 <= i < |schedule| && schedule[i].Drain? ==> schedule[i].limit >= streamBuf.Length
    }

    /** Twice four steps of the loop put everything that was stored into the file. */
    method Drain(first: seq<Event>, second: seq<Event>)
      requires Valid() && readerPc == AtTest && !doExit && taken < |stream|
      requires Count(first, IsDrain) == Count(second, IsDrain) == 4 && Unlimited(first) && Unlimited(second)
      modifies this, streamBuf
      ensures Valid() && old(stream) <= file && history == old(history) + first + second
    {
      hide Following, WriterOk, Count;
      DrainOnce(first);
      if streamHead != streamTail {
        DrainOnce(second);
      } else {
        Run(second);
      }
    }

    lemma Bounded()
      requires Valid()
      ensures !doExit ==> |stream| < |file| + streamBuf.Length
    {
    }
  }

  predicate IsCallback(e: Event) {
    e.Callback?
  }

  predicate IsDrain(e: Event) {
    e.Drain?
  }

  /** How many of the events are of a kind. */
  ghost function Count(schedule: seq<Event>, kind: Event -> bool): nat {
    if schedule == [] then 0
    else Count(schedule[..|schedule| - 1], kind) + if kind(schedule[|schedule| - 1]) then 1 else 0
  }

  lemma CountNone(kind: Event -> bool)
    ensures Count([], kind) == 0
  {
  }

  lemma {:induction false} CountNext(schedule: seq<Event>, kind: Event -> bool, i: nat)
    requires i < |schedule|
    ensures Count(schedule[..i + 1], kind) == Count(schedule[..i], kind) + if kind(schedule[i]) then 1 else 0
    ensures Count(schedule[..i + 1], kind) <= Count(schedule, kind)
  {
    assert schedule[..i + 1][..i] == schedule[..i];
    if i + 1 < |schedule| {
      CountNext(schedule[..|schedule| - 1], kind, i);
      assert schedule[..|schedule| - 1][..i + 1] == schedule[..i + 1];
    } else {
      assert schedule[..i + 1] == schedule;
    }
  }

  /** Copies a part into the buffer. */
  method Memcpy(buf: array<int>, at: nat, part: seq<int>)
    requires at + |part| <= buf.Length
    modifies buf
    ensures buf[..] == Patched(old(buf[..]), at, part)
  {
    for i := 0 to |part|
      invariant forall k :: 0 <= k < buf.Length ==> buf[k] == if at <= k < at + i then part[k - at] else old(buf[k])
    {
      buf[at + i] := part[i];
    }
  }

  /** The slots after the stream run on from the tail, around the end of the buffer once. */
  lemma RunsOn(buf: seq<int>, head: nat, h: nat, stream: seq<int>, block: seq<int>, n: nat, i: nat)
    requires Stored(buf, head, h, stream) && Following(buf, head, h, |stream|, block, n) && i <= |block|
    ensures var tail := Slot(|buf|, head, h, |stream|);
            && 0 <= tail < |buf| && tail + |block| < 2 * |buf|
            && Slot(|buf|, head, h, |stream| + i) == if tail + i < |buf| then tail + i else tail + i - |buf|
  {
  }
}
