/** Following a Bluetooth LE connection: the channel sequence and the hops
    (firmware/hackrf_usb/bluehack.c, and the pending hop in the main loop of
    firmware/hackrf_usb/hackrf_usb.c). */
module ChannelMap {

  const DATA_CHANNELS := 37

  /** The 40 bits of a channel map, of which 37 are data channels: active or not. */
  type Map = m: seq<bool> | |m| == 40 witness seq(40, _ => false)

  ghost function Used(m: Map, c: nat): (cs: seq<nat>)
    requires c <= DATA_CHANNELS
    ensures forall k :: 0 <= k < |cs| ==> cs[k] < c && m[cs[k]]
    ensures |cs| <= c
  {
    if c == 0 then [] else if m[c - 1] then Used(m, c - 1) + [c - 1] else Used(m, c - 1)
  }

  ghost function Unused(m: Map, c: nat): (cs: seq<nat>)
    requires c <= DATA_CHANNELS
    ensures forall k :: 0 <= k < |cs| ==> cs[k] < c && !m[cs[k]]
    ensures forall i, j :: 0 <= i < j < |cs| ==> cs[i] < cs[j]
    ensures |cs| <= c
  {
    if c == 0 then [] else if m[c - 1] then Unused(m, c - 1) else Unused(m, c - 1) + [c - 1]
  }

  /** The used channels that took over the waiting unused ones, in order: each the first that waits. */
  ghost function Takers(m: Map, c: nat): (cs: seq<nat>)
    requires c <= DATA_CHANNELS
    ensures |cs| <= |Unused(m, c)|
    ensures forall k :: 0 <= k < |cs| ==> Unused(m, c)[k] < cs[k] < c && m[cs[k]]
  {
    if c == 0 then []
    else if m[c - 1] && |Takers(m, c - 1)| < |Unused(m, c - 1)| then Takers(m, c - 1) + [c - 1]
    else Takers(m, c - 1)
  }

  /** The sequence after the channels below c: used channels stand for themselves, unused ones for the used
      channel that took them over. */
  ghost predicate Filled(s: seq<nat>, m: Map, c: nat)
    requires |s| >= DATA_CHANNELS >= c
  {
    FilledBy(s, m, c, Unused(m, c), Takers(m, c))
  }

  ghost predicate FilledBy(s: seq<nat>, m: Map, c: nat, unused: seq<nat>, takers: seq<nat>)
    requires |s| >= DATA_CHANNELS >= c
    requires |takers| <= |unused| && forall k :: 0 <= k < |unused| ==> unused[k] < c && !m[unused[k]]
  {
    && (forall d :: 0 <= d < c && m[d] ==> s[d] == d)
    && (forall k :: 0 <= k < |takers| ==> s[unused[k]] == takers[k])
  }

  /** The whole sequence: unused channels that nobody took over stand for the used channel of their number
      modulo the count of used ones. */
  ghost predicate Complete(s: seq<nat>, m: Map)
    requires |s| >= DATA_CHANNELS
  {
    var used, unused := Used(m, DATA_CHANNELS), Unused(m, DATA_CHANNELS);
    && Filled(s, m, DATA_CHANNELS) && |used| > 0
    && forall k :: |Takers(m, DATA_CHANNELS)| <= k < |unused| ==> s[unused[k]] == used[unused[k] % |used|]
  }

  lemma {:induction false} EveryChannel(m: Map, c: nat, d: nat)
    requires d < c <= DATA_CHANNELS
    ensures m[d] ==> exists k :: 0 <= k < |Used(m, c)| && Used(m, c)[k] == d
    ensures !m[d] ==> exists k :: 0 <= k < |Unused(m, c)| && Unused(m, c)[k] == d
  {
    if d < c - 1 {
      EveryChannel(m, c - 1, d);
    }
    if m[d] && d == c - 1 {
      assert Used(m, c)[|Used(m, c)| - 1] == d;
    }
    if !m[d] && d == c - 1 {
      assert Unused(m, c)[|Unused(m, c)| - 1] == d;
    }
    if m[d] && d < c - 1 {
      var k :| 0 <= k < |Used(m, c - 1)| && Used(m, c - 1)[k] == d;
      assert Used(m, c)[k] == d;
    }
    if !m[d] && d < c - 1 {
      var k :| 0 <= k < |Unused(m, c - 1)| && Unused(m, c - 1)[k] == d;
      assert Unused(m, c)[k] == d;
    }
  }

  /** Every entry is an active channel, and active channels stand for themselves. */
  lemma EntriesActive(s: seq<nat>, m: Map, d: nat)
    requires |s| >= DATA_CHANNELS && Complete(s, m) && d < DATA_CHANNELS
    ensures s[d] < DATA_CHANNELS && m[s[d]] && (m[d] ==> s[d] == d)
  {
    if !m[d] {
      EveryChannel(m, DATA_CHANNELS, d);
    }
  }

  lemma NextUsed(m: Map, c: nat)
    requires c < DATA_CHANNELS && m[c]
    ensures Used(m, c + 1) == Used(m, c) + [c] && Unused(m, c + 1) == Unused(m, c)
    ensures Takers(m, c + 1) == if |Takers(m, c)| < |Unused(m, c)| then Takers(m, c) + [c] else Takers(m, c)
  {
  }

  /** An active channel stands for itself, and takes over the first unused one that waits. */
  lemma FilledUsed(s: seq<nat>, m: Map, c: nat)
    requires |s| >= DATA_CHANNELS > c && Filled(s, m, c) && m[c]
    ensures var t, r := s[c := c], |Takers(m, c)|;
            Filled(if r < |Unused(m, c)| then t[Unused(m, c)[r] := c] else t, m, c + 1)
  {
    NextUsed(m, c);
    var u, t := Unused(m, c), Takers(m, c);
    hide Used, Unused, Takers;
    if |t| < |u| { TakesOver(s, m, c, u, t); }
  }

  lemma TakesOver(s: seq<nat>, m: Map, c: nat, u: seq<nat>, t: seq<nat>)
    requires |s| >= DATA_CHANNELS > c && m[c]
    requires |t| < |u| && forall k :: 0 <= k < |u| ==> u[k] < c && !m[u[k]]
    requires forall i, j :: 0 <= i < j < |u| ==> u[i] < u[j]
    requires FilledBy(s, m, c, u, t)
    ensures FilledBy(s[c := c][u[|t|] := c], m, c + 1, u, t + [c])
  {
  }

  lemma FilledUnused(s: seq<nat>, m: Map, c: nat)
    requires |s| >= DATA_CHANNELS > c && Filled(s, m, c) && !m[c]
    ensures Used(m, c + 1) == Used(m, c) && Unused(m, c + 1) == Unused(m, c) + [c]
    ensures Takers(m, c + 1) == Takers(m, c) && Filled(s, m, c + 1)
  {
  }

  /** One bit of the map. */
  method OneChannel(sequence: array<nat>, m: Map, channel: nat, used: seq<nat>, unused: seq<nat>, r: nat)
    returns (used': seq<nat>, unused': seq<nat>, r': nat)
    requires sequence.Length == 38 && channel < DATA_CHANNELS && Filled(sequence[..], m, channel)
    requires used == Used(m, channel) && unused == Unused(m, channel) && r == |Takers(m, channel)|
    modifies sequence
    ensures Filled(sequence[..], m, channel + 1)
    ensures used' == Used(m, channel + 1) && unused' == Unused(m, channel + 1) && r' == |Takers(m, channel + 1)|
  {
    used', unused', r' := used, unused, r;
    ghost var was := sequence[..];
    if m[channel] {
      FilledUsed(was, m, channel);
      NextUsed(m, channel);
      hide Filled;
      sequence[channel] := channel;
      ghost var now: seq<nat> := sequence[..];
      assert now == was[channel := channel];
      used' := used + [channel];
      if r != |unused| {
        sequence[unused[r]] := channel;
        assert sequence[..] == now[unused[r] := channel];
        r' := r + 1;
      }
    } else {
      FilledUnused(was, m, channel);
      unused' := unused + [channel];
    }
  }

  /** The sequence for a map with an active channel. */
  method GetChannels(sequence: array<nat>, m: Map)
    requires sequence.Length == 38 && exists c: nat :: c < DATA_CHANNELS && m[c]
    modifies sequence
    ensures Complete(sequence[..], m)
  {
    var channel := 0;
    var used: seq<nat>, unused: seq<nat>, r := [], [], 0;
    var i := 0;
    while i < 5
      invariant i <= 5 && channel == if i < 5 then 8 * i else DATA_CHANNELS
      invariant used == Used(m, channel) && unused == Unused(m, channel) && r == |Takers(m, channel)|
      invariant Filled(sequence[..], m, channel)
    {
      var j := 0;
      while j < 8
        invariant j <= 8 && channel == 8 * i + j < DATA_CHANNELS + 3
        invariant channel <= DATA_CHANNELS && (i == 4 ==> channel < DATA_CHANNELS)
        invariant used == Used(m, channel) && unused == Unused(m, channel) && r == |Takers(m, channel)|
        invariant Filled(sequence[..], m, channel)
      {
        used, unused, r := OneChannel(sequence, m, channel, used, unused, r);
        channel := channel + 1;
        if channel >= DATA_CHANNELS {
          break;
        }
        j := j + 1;
      }
      i := i + 1;
    }
    Leftovers(sequence, m, used, unused, r);
  }

  /** Filling in an unused channel that nobody took over. */
  lemma LeftoverFilled(s: seq<nat>, m: Map, r: nat, x: nat)
    requires |s| >= DATA_CHANNELS && Filled(s, m, DATA_CHANNELS)
    requires |Takers(m, DATA_CHANNELS)| <= r < |Unused(m, DATA_CHANNELS)|
    ensures Filled(s[Unused(m, DATA_CHANNELS)[r] := x], m, DATA_CHANNELS)
    ensures forall k :: 0 <= k < |Used(m, DATA_CHANNELS)| ==> s[Used(m, DATA_CHANNELS)[k]] == Used(m, DATA_CHANNELS)[k]
  {
  }

  /** Unused channels at the end. */
  method Leftovers(sequence: array<nat>, m: Map, used: seq<nat>, unused: seq<nat>, r0: nat)
    requires sequence.Length == 38 && Filled(sequence[..], m, DATA_CHANNELS)
    requires exists c: nat :: c < DATA_CHANNELS && m[c]
    requires used == Used(m, DATA_CHANNELS) && unused == Unused(m, DATA_CHANNELS) && r0 == |Takers(m, DATA_CHANNELS)|
    modifies sequence
    ensures Complete(sequence[..], m)
  {
    ghost var c: nat :| c < DATA_CHANNELS && m[c];
    EveryChannel(m, DATA_CHANNELS, c);
    hide Used, Unused, Takers, Filled;
    var r := r0;
    while r < |unused|
      invariant r0 <= r <= |unused|
      invariant Filled(sequence[..], m, DATA_CHANNELS)
      invariant forall k :: r0 <= k < r ==> sequence[unused[k]] == used[unused[k] % |used|]
    {
      ghost var was: seq<nat> := sequence[..];
      LeftoverFilled(was, m, r, was[used[unused[r] % |used|]]);
      assert forall k :: r0 <= k < r ==> unused[k] < unused[r];
      sequence[unused[r]] := sequence[used[unused[r] % |used|]];
      assert sequence[..] == was[unused[r] := sequence[unused[r]]];
      r := r + 1;
    }
  }
}

module Follow {

  import opened Bytes
  import opened Division
  import opened ChannelMap

  const CONNECT_REQ := 5
  const ADV_IND := 0
  const PACKET_LEN := 70

  datatype State = AdvSynch | AdvListening | Following

  /** A demodulated packet in its buffer. */
  type Packet = p: seq<Byte> | |p| == PACKET_LEN witness seq(PACKET_LEN, _ => 0)

  /** A packet, and whether the next connection event is near; or a pass of the main loop, and whether
      the time of the pending hop has come. */
  datatype Event = Received(packet: Packet, late: bool) | MainLoop(due: bool)

  function MapOf(p: Packet): Map {
    seq(40, i requires 0 <= i < 40 => Bit(p[34 + i / 8], i % 8))
  }

  /** The number that five bytes make, the lowest first. */
  ghost function FiveBytes(b0: nat, b1: nat, b2: nat, b3: nat, b4: nat): nat {
    b0 + 0x100 * b1 + 0x1_0000 * b2 + 0x100_0000 * b3 + 0x1_0000_0000 * b4
  }

  lemma FiveBytesNumber(b0: Byte, b1: Byte, b2: Byte, b3: Byte, b4: Byte)
    ensures Number([b4, b3, b2, b1, b0]) == FiveBytes(b0, b1, b2, b3, b4)
  {
    var t1: seq<Byte>, t2: seq<Byte>, t3: seq<Byte> := [b4], [b4, b3], [b4, b3, b2];
    var t4: seq<Byte>, t5: seq<Byte> := [b4, b3, b2, b1], [b4, b3, b2, b1, b0];
    assert t5[..4] == t4 && t4[..3] == t3 && t3[..2] == t2 && t2[..1] == t1 && t1[..0] == [];
    assert Number(t1) == b4;
    assert Number(t2) == Number(t1) * 256 + b3;
    assert Number(t3) == Number(t2) * 256 + b2;
  }

  /** The map of a CONNECT_REQ is the number of its five bytes, bit by bit. */
  lemma MapIsNumber(p: Packet, i: nat)
    requires i < 40
    ensures MapOf(p)[i] == Bit(FiveBytes(p[34], p[35], p[36], p[37], p[38]), i)
  {
    FiveBytesNumber(p[34], p[35], p[36], p[37], p[38]);
    BitAtIsNumberBit([p[38], p[37], p[36], p[35], p[34]], i);
  }

  const FIRST_HZ := 2_402_000_000
  const SPACING_HZ := 2_000_000

  /** get_freq_by_channel, for channels that exist. */
  function FreqByChannel(channel: nat): nat {
    if channel == 37 then 2_402_000_000
    else if channel == 38 then 2_426_000_000
    else if channel == 39 then 2_480_000_000
    else if channel <= 10 then 2_404_000_000 + channel * 2_000_000
    else if channel <= 36 then 2_428_000_000 + (channel - 11) * 2_000_000
    else 2_402_000_000
  }

  /** The channels have the 40 places of the band from 2402 MHz on, 2 MHz apart, each its own; the data channels in
      their order, around the two advertising channels at the ends and the one in the middle. */
  lemma ChannelsFillTheBand(place: nat) returns (channel: nat)
    requires place < 40
    ensures channel < 40 && FreqByChannel(channel) == FIRST_HZ + place * SPACING_HZ
    ensures forall c: nat :: c < 40 && FreqByChannel(c) == FreqByChannel(channel) ==> c == channel
    ensures place in {0, 12, 39} <==> channel >= DATA_CHANNELS
    ensures channel < DATA_CHANNELS ==> channel == place - if place < 12 then 1 else 2
  {
    channel := if place == 0 then 37 else if place == 12 then 38 else if place == 39 then 39
               else if place < 12 then place - 1 else place - 2;
  }

  /** The index after n hops. */
  function IndexAfter(n: nat, increment: nat): (i: nat)
    ensures i < DATA_CHANNELS
  {
    (n + 1) * increment % DATA_CHANNELS
  }

  lemma IndexSteps(n: nat, increment: nat)
    ensures (IndexAfter(n, increment) + increment) % DATA_CHANNELS == IndexAfter(n + 1, increment)
  {
    var x := (n + 1) * increment;
    var q, r := x / DATA_CHANNELS, x % DATA_CHANNELS;
    assert (n + 2) * increment == x + increment;
    var y := r + increment;
    Quotient(x + increment, q + y / DATA_CHANNELS, y % DATA_CHANNELS, DATA_CHANNELS);
  }

  /** Every increment but zero has an inverse modulo 37. */
  lemma Inverse(increment: nat) returns (inverse: nat)
    requires 1 <= increment < DATA_CHANNELS
    ensures 0 < inverse < DATA_CHANNELS && increment * inverse % DATA_CHANNELS == 1
  {
    var table: seq<nat> := [0, 1, 19, 25, 28, 15, 31, 16, 14, 33, 26, 27, 34, 20, 8, 5, 7, 24, 35,
                            2, 13, 30, 32, 29, 17, 3, 10, 11, 4, 23, 21, 6, 22, 9, 12, 18, 36];
    inverse := table[increment];
  }

  lemma Reached(increment: nat, t: nat) returns (n: nat)
    requires 1 <= increment < DATA_CHANNELS && t < DATA_CHANNELS
    ensures n < DATA_CHANNELS && IndexAfter(n, increment) == t
  {
    var inverse := Inverse(increment);
    var a, b := increment * inverse / DATA_CHANNELS, t * inverse / DATA_CHANNELS;
    var k := t * inverse % DATA_CHANNELS;
    assert increment * inverse == DATA_CHANNELS * a + 1 && t * inverse == DATA_CHANNELS * b + k;
    Combine(increment, inverse, t, a, b, k);
    Quotient(k * increment, t * a - b * increment, t, DATA_CHANNELS);
    n := if k == 0 then DATA_CHANNELS - 1 else k - 1;
    if k == 0 {
      assert k * increment == 0;
      Quotient(DATA_CHANNELS * increment, increment, 0, DATA_CHANNELS);
    }
  }

  lemma Combine(increment: nat, inverse: nat, t: nat, a: nat, b: nat, k: nat)
    requires increment * inverse == DATA_CHANNELS * a + 1 && t * inverse == DATA_CHANNELS * b + k
    ensures k * increment == (t * a - b * increment) * DATA_CHANNELS + t
  {
  }

  /** 37 indices are visited in turn, all of them, iff the increment is not zero. */
  lemma VisitsAll(increment: nat)
    requires increment < DATA_CHANNELS
    ensures (forall t :: 0 <= t < DATA_CHANNELS ==> Visited(t, increment)) <==> increment != 0
  {
    if increment == 0 {
      assert !Visited(1, 0);
    } else {
      forall t | 0 <= t < DATA_CHANNELS
        ensures Visited(t, increment)
      {
        var n := Reached(increment, t);
      }
    }
  }

  ghost predicate Visited(t: nat, increment: nat) {
    exists n :: 0 <= n < DATA_CHANNELS && IndexAfter(n, increment) == t
  }

  class Follower {
    const sequence: array<nat>
    var followState: State
    var currentChannel: nat
    /** What set_freq was asked for last. */
    var frequency: nat
    var nextChannelTrigger: int
    var channelIncrement: nat
    var sequenceIdx: nat
    var packetCnt: nat
    var advAddr: seq<Byte>
    var advAddrSet: bool
    var accessAddr: seq<Byte>

    /** The map of the connection, and the hops since the CONNECT_REQ. */
    ghost var channelMap: Map
    ghost var hops: nat
    /** The packets and passes of the main loop so far. */
    ghost var history: seq<Event>

    ghost predicate Valid()
      reads `followState, `currentChannel, `frequency, `nextChannelTrigger, `channelIncrement, `sequenceIdx,
            `packetCnt, `channelMap, `hops, sequence
    {
      && sequence.Length == 38 && (followState == Following ==> Tracking())
    }

    /** On a connection: the index is that of the hops, the channel the sequence's, and a pending hop the
        next. */
    ghost predicate Tracking()
      requires sequence.Length == 38
      reads `followState, `currentChannel, `frequency, `nextChannelTrigger, `channelIncrement, `sequenceIdx,
            `packetCnt, `channelMap, `hops, sequence
    {
      && Complete(sequence[..], channelMap)
      && sequenceIdx == IndexAfter(hops, channelIncrement)
      && currentChannel == sequence[sequenceIdx] && frequency == FreqByChannel(currentChannel)
      && (nextChannelTrigger == -1 || nextChannelTrigger == sequence[IndexAfter(hops + 1, channelIncrement)])
    }

    constructor ()
      ensures Valid() && fresh(sequence) && followState == AdvListening && packetCnt == 0 && nextChannelTrigger == -1
      ensures currentChannel == 39 && frequency == FreqByChannel(39) && !advAddrSet && hops == 0 && history == []
      ensures accessAddr == [0xD6, 0xBE, 0x89, 0x8E]
    {
      sequence := new nat[38](_ => 0);
      followState, currentChannel, nextChannelTrigger := AdvListening, 39, -1;
      frequency := FreqByChannel(39);
      channelIncrement, sequenceIdx, packetCnt, advAddr, advAddrSet := 0, 0, 0, seq(6, _ => 0), false;
      accessAddr := [0xD6, 0xBE, 0x89, 0x8E];
      hops, history := 0, [];
    }

    /** A CONNECT_REQ that will be followed: for the watched address, if one is set or the channels are
        being synchronised, and with the middle channels all active. */
    predicate Accepts(packet: Packet)
      reads `followState, `advAddr, `advAddrSet
    {
      && packet[4] % 0x10 == CONNECT_REQ && packet[36] == 0xFF && packet[37] == 0xFF
      && match followState
         case AdvSynch => packet[12..18] == advAddr
         case AdvListening => advAddrSet ==> packet[12..18] == advAddr
         case Following => false
    }

    /** A CONNECT_REQ for the watched address ends the synchronisation. */
    predicate Synchronised(packet: Packet)
      reads `followState, `advAddr
    {
      followState == AdvSynch && packet[4] % 0x10 == CONNECT_REQ && packet[12..18] == advAddr
    }

    /** The announced hop: the one after the hops so far. */
    ghost predicate Announced()
      requires sequence.Length == 38
      reads `followState, `currentChannel, `frequency, `nextChannelTrigger, `channelIncrement, `sequenceIdx,
            `packetCnt, `channelMap, `hops, sequence
    {
      nextChannelTrigger == sequence[IndexAfter(hops + 1, channelIncrement)]
    }

    /** A packet on the connection: the first of an event announces the next hop, a late one hops and announces
        the one after, and any other changes nothing but the count. */
    twostate predicate Heard(late: bool)
      requires sequence.Length == 38
      reads `followState, `currentChannel, `frequency, `nextChannelTrigger, `channelIncrement, `sequenceIdx,
            `packetCnt, `channelMap, `hops, sequence
    {
      var cnt := (old(packetCnt) + 1) % 0x100;
      if cnt == 1 then
        packetCnt == 1 && Announced() && hops == old(hops) && currentChannel == old(currentChannel)
      else if late then
        packetCnt == 0 && Announced() && hops == old(hops) + 1
          && currentChannel == sequence[IndexAfter(hops, channelIncrement)]
      else
        (packetCnt, nextChannelTrigger, hops, currentChannel)
          == (cnt, old(nextChannelTrigger), old(hops), old(currentChannel))
    }

    twostate predicate Stands()
      reads `followState, `currentChannel, `frequency, `nextChannelTrigger, `channelIncrement, `sequenceIdx,
            `packetCnt, `channelMap, `hops
    {
      (followState, currentChannel, frequency, nextChannelTrigger, channelIncrement, sequenceIdx, packetCnt,
       channelMap, hops)
      == old((followState, currentChannel, frequency, nextChannelTrigger, channelIncrement, sequenceIdx, packetCnt,
              channelMap, hops))
    }

    /** Tunes to a channel. */
    method SetChannel(channel: nat)
      modifies `currentChannel, `frequency
      ensures currentChannel == channel && frequency == FreqByChannel(channel)
    {
      currentChannel := channel;
      frequency := FreqByChannel(channel);
    }

    /** A packet. A CONNECT_REQ that is accepted starts the connection at its first index; on a connection
        the first packet of an event announces the next hop, and a late one hops. */
    method UpdateBtleState(packet: Packet, late: bool)
      requires Valid()
      modifies `followState, `currentChannel, `frequency, `nextChannelTrigger, `channelIncrement, `sequenceIdx,
               `packetCnt, `accessAddr,
               `channelMap, `hops, sequence
      ensures Valid() && (old(nextChannelTrigger) >= -1 ==> nextChannelTrigger >= -1)
      ensures followState == if old(followState == Following || Accepts(packet)) then Following
                             else if old(Synchronised(packet)) then AdvListening else old(followState)
      ensures old(Accepts(packet)) ==> hops == 0 && channelIncrement == packet[39] % 0x20
                                       && channelMap == MapOf(packet) && accessAddr == packet[18..22]
      ensures old(followState) == Following ==>
                && unchanged(sequence) && unchanged(`channelIncrement) && unchanged(`channelMap) && Heard(late)
      ensures old(followState) != Following ==>
              packetCnt == old(packetCnt) && (followState == Following ==> nextChannelTrigger == -1)
      ensures old(followState) == AdvSynch && packet[4] % 0x10 != CONNECT_REQ ==>
              nextChannelTrigger == old(Synchronising(packet))
      ensures old(followState) != Following && !old(Accepts(packet)) ==>
                && (currentChannel, frequency, sequenceIdx, channelIncrement, accessAddr)
                   == old((currentChannel, frequency, sequenceIdx, channelIncrement, accessAddr))
                && (old(followState) != AdvSynch || packet[4] % 0x10 == CONNECT_REQ ==>
                    nextChannelTrigger == old(nextChannelTrigger))
    {
      hide Announced, Heard;
      var packetType := packet[4] % 0x10;
      if followState == AdvSynch {
        if packetType == CONNECT_REQ {
          if packet[12..18] != advAddr {
            return;
          }
          followState := AdvListening;
        } else {
          Synchronise(packet);
          return;
        }
      }
      if followState == AdvListening {
        if packetType != CONNECT_REQ || (advAddrSet && packet[12..18] != advAddr)
           || packet[36] != 0xFF || packet[37] != 0xFF {
          return;
        }
        Connect(packet);
      } else if followState == Following {
        Event(late);
      }
    }

    /** The channel that a packet of the watched address announces while synchronising. */
    function Synchronising(packet: Packet): int
      reads `currentChannel, `nextChannelTrigger, `advAddr
    {
      if packet[4] % 0x10 != ADV_IND && packet[6..12] != advAddr then nextChannelTrigger
      else match currentChannel case 37 => 38 case 38 => 39 case 39 => 37 case _ => nextChannelTrigger
    }

    /** The next advertising channel. */
    method Synchronise(packet: Packet)
      requires Valid() && followState == AdvSynch
      modifies `nextChannelTrigger
      ensures Valid()
      ensures nextChannelTrigger == old(Synchronising(packet))
    {
      if packet[4] % 0x10 != ADV_IND && packet[6..12] != advAddr {
        return;
      }
      match currentChannel {
        case 37 => nextChannelTrigger := 38;
        case 38 => nextChannelTrigger := 39;
        case 39 => nextChannelTrigger := 37;
        case _ =>
      }
    }

    /** The parameters of the connection, and its first channel. */
    method Connect(packet: Packet)
      requires sequence.Length == 38 && packet[36] == 0xFF && packet[37] == 0xFF
      modifies `followState, `currentChannel, `frequency, `nextChannelTrigger, `channelIncrement, `sequenceIdx,
               `accessAddr,
               `channelMap, `hops, sequence
      ensures Valid() && followState == Following && nextChannelTrigger == -1
      ensures hops == 0 && channelIncrement == packet[39] % 0x20 && channelMap == MapOf(packet)
              && accessAddr == packet[18..22]
    {
      hide Complete;
      channelMap, hops := MapOf(packet), 0;
      channelIncrement := packet[39] % 0x20;
      sequenceIdx := channelIncrement;
      accessAddr := packet[18..22];
      MiddleActive(packet);
      GetChannels(sequence, MapOf(packet));
      currentChannel := sequence[sequenceIdx];
      nextChannelTrigger := -1;
      followState := Following;
      SetChannel(currentChannel);
    }

    /** A packet on the connection. */
    method Event(late: bool)
      requires Valid() && followState == Following
      modifies `packetCnt, `nextChannelTrigger, `sequenceIdx, `currentChannel, `frequency, `hops
      ensures Valid() && (old(nextChannelTrigger) >= -1 ==> nextChannelTrigger >= -1) && Heard(late)
    {
      hide Complete, IndexAfter;
      IndexSteps(hops, channelIncrement);
      IndexSteps(hops + 1, channelIncrement);
      packetCnt := (packetCnt + 1) % 0x100;
      if packetCnt == 1 {
        nextChannelTrigger := sequence[(sequenceIdx + channelIncrement) % 37];
      } else if late {
        packetCnt := 0;
        sequenceIdx := (sequenceIdx + channelIncrement) % 37;
        hops := hops + 1;
        currentChannel := sequence[sequenceIdx];
        nextChannelTrigger := sequence[(sequenceIdx + channelIncrement) % 37];
        SetChannel(currentChannel);
      }
    }

    /** The pending hop in the main loop. */
    method PendingHop(due: bool)
      requires Valid() && nextChannelTrigger >= -1
      modifies `packetCnt, `nextChannelTrigger, `sequenceIdx, `currentChannel, `frequency, `hops
      ensures Valid() && nextChannelTrigger >= -1
      ensures if old(nextChannelTrigger) != -1 && due then
                && nextChannelTrigger == -1 && hops == old(hops) + 1
                && packetCnt == (if followState != AdvSynch then 0 else old(packetCnt))
                && currentChannel == old(nextChannelTrigger) && frequency == FreqByChannel(currentChannel)
                && (followState == Following ==> currentChannel == sequence[IndexAfter(hops, channelIncrement)])
              else Stands()
    {
      hide Complete, IndexAfter;
      IndexSteps(hops, channelIncrement);
      if nextChannelTrigger != -1 && due {
        if followState != AdvSynch {
          packetCnt := 0;
        }
        SetChannel(nextChannelTrigger);
        sequenceIdx := (sequenceIdx + channelIncrement) % 37;
        nextChannelTrigger := -1;
        hops := hops + 1;
      }
    }

    /** One event of a run. */
    method Step(e: Event)
      requires Valid() && nextChannelTrigger >= -1
      modifies this, sequence
      ensures Valid() && nextChannelTrigger >= -1
      ensures old(followState) == Following ==>
                && followState == Following && unchanged(sequence)
                && channelIncrement == old(channelIncrement) && channelMap == old(channelMap)
                && match e
                   case Received(_, late) => Heard(late)
                   case MainLoop(due) =>
                     if old(nextChannelTrigger) != -1 && due then
                       && nextChannelTrigger == -1 && hops == old(hops) + 1 && packetCnt == 0
                       && currentChannel == sequence[IndexAfter(hops, channelIncrement)]
                     else Stands()
      ensures old(followState) == AdvSynch ==>
                match e
                case Received(packet, _) =>
                  packet[4] % 0x10 != CONNECT_REQ ==>
                    followState == AdvSynch && currentChannel == old(currentChannel)
                      && nextChannelTrigger == old(Synchronising(packet))
                case MainLoop(due) =>
                  && followState == AdvSynch
                  && if old(nextChannelTrigger) != -1 && due then
                       currentChannel == old(nextChannelTrigger) && nextChannelTrigger == -1
                     else currentChannel == old(currentChannel) && nextChannelTrigger == old(nextChannelTrigger)
      ensures history == old(history) + [e]
    {
      hide Complete, IndexAfter, Heard;
      match e {
        case Received(packet, late) => UpdateBtleState(packet, late);
        case MainLoop(due) => PendingHop(due);
      }
      history := history + [e];
    }

    /** A connection event: after its first packet, further ones that are not late and passes before the time
        hop nowhere, and the first due pass hops once, to the channel of the next index. */
    method ConnectionEvent(first: Packet, late: bool, quiet: seq<Event>)
      requires Valid() && followState == Following && packetCnt == 0 && nextChannelTrigger >= -1
      requires forall i :: 0 <= i < |quiet| ==> quiet[i] == MainLoop(false) || (quiet[i].Received? && !quiet[i].late)
      modifies this, sequence
      ensures Valid() && followState == Following && packetCnt == 0 && nextChannelTrigger == -1
      ensures unchanged(sequence) && channelIncrement == old(channelIncrement) && channelMap == old(channelMap)
      ensures hops == old(hops) + 1 && currentChannel == sequence[IndexAfter(hops, channelIncrement)]
      ensures history == old(history) + [Received(first, late)] + quiet + [MainLoop(true)]
    {
      hide Complete, IndexAfter;
      Step(Received(first, late));
      for i := 0 to |quiet|
        invariant history == old(history) + [Received(first, late)] + quiet[..i]
        invariant Valid() && followState == Following && unchanged(sequence) && hops == old(hops)
                  && nextChannelTrigger != -1
        invariant nextChannelTrigger >= -1 && channelIncrement == old(channelIncrement) && channelMap == old(channelMap)
      {
        Step(quiet[i]);
      }
      Step(MainLoop(true));
    }

    /** From a CONNECT_REQ that is accepted on, every connection event hops once: after n of them the receiver is
        on the channel of the index of n hops. */
    method FollowConnection(request: Packet, isLate: bool, events: seq<(Packet, bool, seq<Event>)>)
      requires Valid() && followState != Following && Accepts(request) && packetCnt == 0 && nextChannelTrigger >= -1
      requires forall k, i :: 0 <= k < |events| && 0 <= i < |events[k].2| ==>
                 events[k].2[i] == MainLoop(false) || (events[k].2[i].Received? && !events[k].2[i].late)
      modifies this, sequence
      ensures Valid() && followState == Following && channelIncrement == request[39] % 0x20
              && channelMap == MapOf(request)
      ensures hops == |events| && currentChannel == sequence[IndexAfter(|events|, channelIncrement)]
    {
      hide Complete, IndexAfter;
      UpdateBtleState(request, isLate);
      for k := 0 to |events|
        invariant Valid() && followState == Following && packetCnt == 0 && nextChannelTrigger >= -1 && hops == k
        invariant channelIncrement == request[39] % 0x20 && channelMap == MapOf(request)
        invariant currentChannel == sequence[IndexAfter(k, channelIncrement)]
      {
        ConnectionEvent(events[k].0, events[k].1, events[k].2);
      }
    }

    /** Any run of packets and passes of the main loop: once a connection is followed it stays followed, on
        the same sequence, and Valid says where it is after the hops so far. */
    method Run(events: seq<Event>)
      requires Valid() && nextChannelTrigger >= -1
      modifies this, sequence
      ensures Valid() && nextChannelTrigger >= -1
      ensures old(followState) == Following ==>
                && followState == Following && unchanged(sequence) && hops >= old(hops)
                && channelIncrement == old(channelIncrement) && channelMap == old(channelMap)
      ensures history == old(history) + events
    {
      hide Complete, IndexAfter;
      for i := 0 to |events|
        invariant history == old(history) + events[..i]
        invariant Valid() && nextChannelTrigger >= -1
        invariant old(followState) == Following ==>
                    && followState == Following && unchanged(sequence) && hops >= old(hops)
                    && channelIncrement == old(channelIncrement) && channelMap == old(channelMap)
      {
        Step(events[i]);
      }
    }
  }

  lemma MiddleActive(packet: Packet)
    requires packet[36] == 0xFF
    ensures exists c: nat :: c < DATA_CHANNELS && MapOf(packet)[c]
  {
    assert Bit(0xFF, 0);
    assert MapOf(packet)[16];
  }
}
