/** The trailers a packet gains on its way out (packet_sender.c, append_ack) and loses on its way in
    (packet_receiver.c, strip_ack), and what the receiver makes of the rest. */
module Framing {
  import opened Basics
  import opened NetEncoder

  // ---------------------------------------------------------------- the way out

  /** What packet_send puts on the wire: the sequence number when an acknowledgement is wanted, the
      consecutive mark on the second packet of a pair, and the NAT port on everything but raw messages. */
  function WireOut(e: Endian, p: Packet, seqno: u16, consecutive: bool, natPort: u16): Packet {
    var flags := OutFlags(p.flags, consecutive);
    Packet(flags,
           p.body
           + (if NeedAck(p.flags) then HostBytes(e, seqno) else [])
           + (if flags != 0 then [natPort / 0x100, natPort % 0x100] else []))
  }

  function OutFlags(flags: bv8, consecutive: bool): bv8 {
    if consecutive then MarkConsecutive(flags) else flags
  }

  /** The update of a saved packet before it is queued again. */
  function Retransmit(p: Packet): Packet { p.(flags := MarkRetransmission(p.flags)) }

  function RetransmitTimes(p: Packet, k: nat): Packet {
    if k == 0 then p else Retransmit(RetransmitTimes(p, k - 1))
  }

  // ---------------------------------------------------------------- the way in

  /** The outcome of processing one datagram: the sequence number to acknowledge, the acknowledgement
      received, the fragment received, and whether it was handed up as a raw message. */
  datatype Rx = Rx(ackOut: Option<u16>, ackIn: Option<AckReceived>, fragment: Option<Fragment>, raw: bool)

  const NOTHING := Rx(None, None, None, false)

  function DropLast(p: Packet, n: nat): Packet
    requires n <= |p.body|
  {
    p.(body := p.body[..|p.body| - n])
  }

  /** Removal of the NAT port. A nonzero first byte is taken for a port and costs two more bytes. When
      the length would drop below one byte no validator accepts the packet. */
  function StripPort(p: Packet): Option<Packet> {
    if |p.body| < 2 then None
    else if p.body[|p.body| - 2] == 0 then Some(DropLast(p, 2))
    else if |p.body| < 4 then None
    else Some(DropLast(p, 4))
  }

  /** The acknowledgement, bandwidth and fragment stages; a stage that rejects the packet clears its
      flags and so ends the processing. */
  function LateStages(e: Endian, p: Packet, ackOut: Option<u16>): Rx {
    if IsAck(p.flags) && !ValidateAck(p) then Rx(ackOut, None, None, false)
    else
      var ackIn := if IsAck(p.flags) then DecodeAck(e, p) else None;
      if IsBandwidth(p.flags) && !(Length(p) == 5 && p.flags == BW_MSG) then Rx(ackOut, ackIn, None, false)
      else Rx(ackOut, ackIn, if IsBlock(p.flags) && ValidateBlock(p) then DecodeFragment(p) else None, false)
  }

  /** One turn of packet_processor on a datagram. */
  function Process(e: Endian, p: Packet): Rx {
    if Length(p) <= 1 then NOTHING
    else if p.flags == 0 then NOTHING.(raw := Length(p) > 3)
    else
      match StripPort(p)
      case None => NOTHING
      case Some(q) =>
        if !NeedAck(q.flags) then LateStages(e, q, None)
        else if |q.body| >= 2 && ValidateBlock(DropLast(q, 2)) then
          LateStages(e, DropLast(q, 2), Some(HostU16(e, q.body[|q.body| - 2..])))
        else NOTHING
  }

  // ---------------------------------------------------------------- round trips

  /** Flags a fragment may carry: block, and any of need-ack, consecutive and retransmission. */
  predicate FragmentFlags(flags: bv8) { IsBlock(flags) && BlockMaskClear(flags) }

  lemma FlagFacts(flags: bv8)
    requires FragmentFlags(flags)
    ensures flags != 0 && !IsAck(flags) && !IsBandwidth(flags)
    ensures FragmentFlags(MarkConsecutive(flags)) && NeedAck(MarkConsecutive(flags)) == NeedAck(flags)
    ensures FragmentFlags(MarkRetransmission(flags)) && NeedAck(MarkRetransmission(flags)) == NeedAck(flags)
    ensures IsRetransmission(MarkRetransmission(flags)) && !IsConsecutive(MarkRetransmission(flags))
  {
  }

  /** The update before a retransmission clears the consecutive mark, sets the retransmission mark and leaves
      every other flag as it is. */
  lemma RetransmissionMark(p: Packet)
    ensures var flags := Retransmit(p).flags;
            flags & 0xEB == p.flags & 0xEB && flags & 0x14 == 0x10 && Retransmit(p).body == p.body
  {
  }

  /** The consecutive mark is the only change to the flags on the way out, and it is made only when asked for. */
  lemma PairMark(e: Endian, p: Packet, seqno: u16, consecutive: bool, natPort: u16)
    ensures var out := WireOut(e, p, seqno, consecutive, natPort).flags;
            && out & 0xFB == p.flags & 0xFB
            && (IsConsecutive(out) <==> consecutive || IsConsecutive(p.flags))
  {
  }

  /** The validator accepts an encoded fragment, and not one that is two bytes short. */
  lemma ValidWire(flags: bv8, f: Fragment)
    requires Encodable(f) && FragmentFlags(flags)
    ensures ValidateBlock(FragmentPacket(flags, f))
    ensures !ValidateBlock(DropLast(FragmentPacket(flags, f), 2))
  {
    HeaderFields(f);
    FlagFacts(flags);
    var s := FragmentPacket(flags, f).body;
    if |f.data| >= 2 {
      var t := s[..|s| - 2];
      assert t[10] == s[10] && t[11] == s[11];
    }
  }

  /** What a fragment sent with the given flags turns into at the other end when all goes well. */
  function Delivered(maker: Endian, echoer: Endian, flags: bv8, f: Fragment, seqno: u16): Rx {
    Rx(if NeedAck(flags) then Some(HostU16(echoer, HostBytes(maker, seqno))) else None, None, Some(f), false)
  }

  lemma DeliveredBelow256(
      maker: Endian, echoer: Endian, flags: bv8, f: Fragment, seqno: u16, consecutive: bool, natPort: u16)
    requires Encodable(f) && FragmentFlags(flags) && natPort < 0x100
    ensures Process(echoer, WireOut(maker, FragmentPacket(flags, f), seqno, consecutive, natPort))
         == Delivered(maker, echoer, flags, f, seqno)
  {
    FlagFacts(flags);
    var fl := OutFlags(flags, consecutive);
    FlagFacts(fl);
    var p := FragmentPacket(fl, f);
    var out := WireOut(maker, FragmentPacket(flags, f), seqno, consecutive, natPort);
    var q := DropLast(out, 2);
    assert StripPort(out) == Some(q);
    ValidWire(fl, f);
    DecodeInvertsEncode(fl, f);
    if NeedAck(flags) {
      assert q.body == p.body + HostBytes(maker, seqno);
      assert DropLast(q, 2) == p && q.body[|q.body| - 2..] == HostBytes(maker, seqno);
    } else {
      assert q.body == p.body;
    }
  }

  lemma LostFrom256(
      maker: Endian, echoer: Endian, flags: bv8, f: Fragment, seqno: u16, consecutive: bool, natPort: u16)
    requires Encodable(f) && FragmentFlags(flags) && natPort >= 0x100
    ensures Process(echoer, WireOut(maker, FragmentPacket(flags, f), seqno, consecutive, natPort)) == NOTHING
  {
    FlagFacts(flags);
    var fl := OutFlags(flags, consecutive);
    FlagFacts(fl);
    var p := FragmentPacket(fl, f);
    var out := WireOut(maker, FragmentPacket(flags, f), seqno, consecutive, natPort);
    var q := DropLast(out, 4);
    assert StripPort(out) == Some(q);
    ValidWire(fl, f);
    if NeedAck(flags) {
      assert q.body == p.body;
    } else {
      assert q == DropLast(p, 2);
    }
  }

  /** The round trip of a fragment over the wire, trailers included, holds exactly when the configured
      NAT port is below 256; the default port is 0. */
  lemma FragmentRoundTrip(
      maker: Endian, echoer: Endian, flags: bv8, f: Fragment, seqno: u16, consecutive: bool, natPort: u16)
    requires Encodable(f) && FragmentFlags(flags)
    ensures Process(echoer, WireOut(maker, FragmentPacket(flags, f), seqno, consecutive, natPort))
         == Delivered(maker, echoer, flags, f, seqno)
        <==> natPort < 0x100
  {
    if natPort < 0x100 {
      DeliveredBelow256(maker, echoer, flags, f, seqno, consecutive, natPort);
    } else {
      LostFrom256(maker, echoer, flags, f, seqno, consecutive, natPort);
    }
  }

  /** An acknowledgement makes the whole trip back: the sender reads the sequence number it chose,
      whatever the two byte orders, exactly when the acknowledging host's NAT port is below 256. */
  lemma AckTrip(maker: Endian, echoer: Endian, seqno: u16, sec: u32, usec: u32, cons: u16, unused: u16, natPort: u16)
    ensures var ack := AckPacket(echoer, HostU16(echoer, HostBytes(maker, seqno)), sec, usec, cons);
            var rx := Process(maker, WireOut(echoer, ack, unused, false, natPort));
            && (rx == NOTHING.(ackIn := Some(AckReceived(BLK_ACK, seqno, ToInt32(sec), ToInt32(usec), cons)))
                <==> natPort < 0x100)
            && (natPort >= 0x100 ==> rx == NOTHING)
  {
    var ack := AckPacket(echoer, HostU16(echoer, HostBytes(maker, seqno)), sec, usec, cons);
    AckRoundTrip(maker, echoer, seqno, sec, usec, cons);
    var out := WireOut(echoer, ack, unused, false, natPort);
    assert DropLast(out, 2).body == ack.body;
  }

  /** However often a saved fragment is retransmitted, it stays the same fragment, keeps its
      need-ack bit, never grows and is never marked consecutive. */
  lemma {:induction false} RetransmissionsKeepFragment(flags: bv8, f: Fragment, k: nat) returns (flags': bv8)
    requires Encodable(f) && FragmentFlags(flags)
    ensures FragmentFlags(flags') && NeedAck(flags') == NeedAck(flags)
    ensures k > 0 ==> IsRetransmission(flags') && !IsConsecutive(flags')
    ensures RetransmitTimes(FragmentPacket(flags, f), k) == FragmentPacket(flags', f)
  {
    if k == 0 {
      flags' := flags;
    } else {
      var before := RetransmissionsKeepFragment(flags, f, k - 1);
      FlagFacts(before);
      flags' := MarkRetransmission(before);
    }
  }

  /** A fragment survives any number of retransmissions followed by the trip, with a datagram of the
      same length each time. */
  lemma RetransmittedRoundTrip(
      maker: Endian, echoer: Endian, flags: bv8, f: Fragment, k: nat, seq0: u16, seqno: u16, consecutive: bool)
    requires Encodable(f) && FragmentFlags(flags)
    ensures var saved := RetransmitTimes(FragmentPacket(flags, f), k);
            && Process(echoer, WireOut(maker, saved, seqno, consecutive, 0))
               == Delivered(maker, echoer, flags, f, seqno)
            && Length(WireOut(maker, saved, seqno, consecutive, 0))
               == Length(WireOut(maker, FragmentPacket(flags, f), seq0, false, 0))
  {
    var flags' := RetransmissionsKeepFragment(flags, f, k);
    DeliveredBelow256(maker, echoer, flags', f, seqno, consecutive, 0);
    FlagFacts(flags);
    FlagFacts(flags');
  }

  /** A raw message, whose first byte is 0, goes out as it is and comes out raw, unless it is no longer than 3
      bytes. As the second packet of a pair it gets the consecutive mark, so it is no longer raw and nothing
      comes out at all. */
  lemma RawTrip(maker: Endian, echoer: Endian, p: Packet, seqno: u16, consecutive: bool, natPort: u16)
    requires p.flags == 0
    ensures var out := WireOut(maker, p, seqno, consecutive, natPort);
            && (Process(echoer, out) == NOTHING.(raw := true) <==> !consecutive && Length(p) > 3)
            && (Process(echoer, out) != NOTHING ==> out == p)
  {
    var out := WireOut(maker, p, seqno, consecutive, natPort);
    var flags: bv8 := 0;
    assert !NeedAck(flags) && MarkConsecutive(flags) == 0x04;
    if consecutive {
      MarkedIsNothing(echoer, out);
    } else {
      assert out.body == p.body;
    }
  }

  /** A packet with no flag but the consecutive mark is ignored. */
  lemma MarkedIsNothing(e: Endian, p: Packet)
    requires p.flags == 0x04
    ensures Process(e, p) == NOTHING
  {
    var flags: bv8 := 0x04;
    assert !NeedAck(flags) && !IsAck(flags) && !IsBandwidth(flags) && !IsBlock(flags);
  }

  /** The validator accepts exactly the encodings of fragments, under flags that leave nothing but the marks,
      and cookies. */
  lemma ValidIff(p: Packet)
    ensures ValidateBlock(p)
       <==> || (p.flags & 0x6A == 0 && exists f :: Encodable(f) && p == FragmentPacket(p.flags, f))
            || (p.flags == COOKIE_FLAGS && Length(p) == HEADER + MTU)
  {
    if Length(p) >= HEADER && Length(p) == HEADER + Net16(p.body, 10) {
      var asBlock := p.(flags := BLK_BLOCK);
      assert IsBlock(BLK_BLOCK);
      EncodeInvertsDecode(asBlock);
      var f := DecodeFragment(asBlock).value;
      assert p == FragmentPacket(p.flags, f);
    }
    if f :| Encodable(f) && p == FragmentPacket(p.flags, f) { HeaderFields(f); }
  }

  /** Of the packets that want an acknowledgement and are valid, the cookie alone becomes invalid when
      it is retransmitted: its flag byte is compared as a whole. */
  lemma RetransmissionStaysValid(p: Packet)
    requires ValidateBlock(p) && NeedAck(p.flags)
    ensures ValidateBlock(Retransmit(p)) <==> p.flags != COOKIE_FLAGS
  {
    if p.flags == COOKIE_FLAGS {
      assert MarkRetransmission(p.flags) == 0x98;
      assert !BlockMaskClear(0x98);
    } else {
      assert BlockMaskClear(p.flags);
      assert BlockMaskClear(MarkRetransmission(p.flags));
    }
  }

  lemma {:induction false} CookieFlags(p: Packet, k: nat)
    requires p.flags == COOKIE_FLAGS
    ensures RetransmitTimes(p, k) == p.(flags := if k == 0 then COOKIE_FLAGS else 0x98)
  {
    if k > 0 { CookieFlags(p, k - 1); }
  }

  /** A packet that wants an acknowledgement gets one exactly when it is valid without its trailers. */
  lemma AnsweredIffValid(maker: Endian, echoer: Endian, p: Packet, seqno: u16)
    requires NeedAck(p.flags)
    ensures Process(echoer, WireOut(maker, p, seqno, false, 0)).ackOut.Some? <==> ValidateBlock(p)
  {
    var out := WireOut(maker, p, seqno, false, 0);
    assert out.flags != 0;
    assert out.body == p.body + HostBytes(maker, seqno) + [0, 0];
    assert StripPort(out) == Some(DropLast(out, 2));
    assert DropLast(DropLast(out, 2), 2) == p;
  }

  /** So a cookie is acknowledged when it arrives the first time it is sent and never afterwards. */
  lemma CookieRetransmissionUnanswered(maker: Endian, echoer: Endian, p: Packet, k: nat, seqno: u16)
    requires Length(p) == HEADER + MTU && p.flags == COOKIE_FLAGS
    ensures Process(echoer, WireOut(maker, RetransmitTimes(p, k), seqno, false, 0)).ackOut.Some? <==> k == 0
  {
    CookieFlags(p, k);
    assert NeedAck(0x98) && NeedAck(COOKIE_FLAGS) && !BlockMaskClear(0x98);
    AnsweredIffValid(maker, echoer, RetransmitTimes(p, k), seqno);
  }
}
