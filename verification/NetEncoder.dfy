/** The wire format of fragments and acknowledgements (netencoder.c). */
module NetEncoder {
  import opened Basics

  // ---------------------------------------------------------------- integers on the wire

  /** The byte order of a host. Sequence numbers travel in the order of the host that made them. */
  datatype Endian = Little | Big

  function Join16(a: byte, b: byte): u16 { (a as int) * 0x100 + b }

  lemma SplitJoin16(a: byte, b: byte)
    ensures Join16(a, b) / 0x100 == a && Join16(a, b) % 0x100 == b
  {
  }

  function High(x: u32): u16 { x / 0x1_0000 }

  function Low(x: u32): u16 { x % 0x1_0000 }

  function Join32(hi: u16, lo: u16): u32 { (hi as int) * 0x1_0000 + lo }

  lemma SplitJoin32(hi: u16, lo: u16)
    ensures High(Join32(hi, lo)) == hi && Low(Join32(hi, lo)) == lo
  {
  }

  function HostBytes(e: Endian, x: u16): (s: seq<byte>)
    ensures |s| == 2
  {
    if e.Big? then [x / 0x100, x % 0x100] else [x % 0x100, x / 0x100]
  }

  function HostU16(e: Endian, s: seq<byte>): u16
    requires |s| == 2
  {
    if e.Big? then Join16(s[0], s[1]) else Join16(s[1], s[0])
  }

  function Net16(s: seq<byte>, i: nat): u16
    requires i + 2 <= |s|
  {
    Join16(s[i], s[i + 1])
  }

  function Net32(s: seq<byte>, i: nat): u32
    requires i + 4 <= |s|
  {
    Join32(Net16(s, i), Net16(s, i + 2))
  }

  /** Conversion of an unsigned 32-bit value to int32_t. */
  function ToInt32(x: u32): int { if x < 0x8000_0000 then x else x - 0x1_0000_0000 }

  /** It is the number of 32 bits with a sign that agrees with the value modulo 2 to the 32. */
  lemma ToInt32Is(x: u32, r: int)
    ensures r == ToInt32(x) <==> -0x8000_0000 <= r < 0x8000_0000 && r % 0x1_0000_0000 == x
  {
  }

  // ---------------------------------------------------------------- fragments

  /** A fragment whose payload length fits the 16-bit length field. */
  predicate Encodable(f: Fragment) { |f.data| < 0x1_0000 }

  /** The header after the flag byte. */
  function Header(f: Fragment): (h: seq<byte>)
    requires Encodable(f)
    ensures |h| == HEADER - 1
  {
    [f.sid / 0x100, f.sid % 0x100,
     High(f.bid) / 0x100, High(f.bid) % 0x100, Low(f.bid) / 0x100, Low(f.bid) % 0x100,
     f.fid / 0x100, f.fid % 0x100,
     f.total / 0x100, f.total % 0x100,
     |f.data| / 0x100, |f.data| % 0x100]
  }

  /** A fragment on the wire, carrying the given flags. */
  function FragmentPacket(flags: bv8, f: Fragment): (p: Packet)
    requires Encodable(f)
    ensures Length(p) == HEADER + |f.data|
  {
    Packet(flags, Header(f) + f.data)
  }

  /** decode_fragment */
  function DecodeFragment(p: Packet): Option<Fragment>
  {
    if Length(p) < HEADER then None
    else if !IsBlock(p.flags) then None
    else if Length(p) != Net16(p.body, 10) + HEADER then None
    else Some(Fragment(Net16(p.body, 0), Net32(p.body, 2), Net16(p.body, 6), Net16(p.body, 8), p.body[HEADER - 1..]))
  }

  /** validate_block */
  predicate ValidateBlock(p: Packet) {
    || (Length(p) >= HEADER && Length(p) == HEADER + Net16(p.body, 10) && BlockMaskClear(p.flags))
    || (Length(p) == HEADER + MTU && p.flags == COOKIE_FLAGS)
  }

  /** What get_fragment_id reports; all zero when the packet is too short or not a fragment. */
  datatype FragmentId = FragmentId(sid: u16, bid: u32, fid: u16, total: u16, length: u16)

  /** get_fragment_id: the fields are reported even when the length does not match. */
  function GetFragmentId(p: Packet): FragmentId {
    if Length(p) < HEADER || !IsBlock(p.flags) then FragmentId(0, 0, 0, 0, 0)
    else FragmentId(Net16(p.body, 0), Net32(p.body, 2), Net16(p.body, 6), Net16(p.body, 8), Net16(p.body, 10))
  }

  /** The fields of a fragment are where the packed header has them, in network order. */
  lemma HeaderFields(f: Fragment)
    requires Encodable(f)
    ensures var s := Header(f) + f.data;
            && Net16(s, 0) == f.sid && Net32(s, 2) == f.bid && Net16(s, 6) == f.fid
            && Net16(s, 8) == f.total && Net16(s, 10) == |f.data| && s[HEADER - 1..] == f.data
  {
  }

  /** Decoding inverts encoding, and the identity read from the packet is the fragment's. */
  lemma DecodeInvertsEncode(flags: bv8, f: Fragment)
    requires Encodable(f) && IsBlock(flags)
    ensures DecodeFragment(FragmentPacket(flags, f)) == Some(f)
    ensures GetFragmentId(FragmentPacket(flags, f)) == FragmentId(f.sid, f.bid, f.fid, f.total, |f.data|)
  {
    HeaderFields(f);
  }

  /** Encoding inverts decoding: every packet that decodes is the encoding of what it decodes to,
      so no two different packets with the same flags carry the same fragment. */
  lemma EncodeInvertsDecode(p: Packet)
    requires DecodeFragment(p).Some?
    ensures Encodable(DecodeFragment(p).value)
    ensures FragmentPacket(p.flags, DecodeFragment(p).value) == p
  {
    var f := DecodeFragment(p).value;
    var s := p.body;
    assert |f.data| == Net16(s, 10);
    SplitJoin32(Net16(s, 2), Net16(s, 4));
    forall i | i in {0, 2, 4, 6, 8, 10} ensures Net16(s, i) / 0x100 == s[i] && Net16(s, i) % 0x100 == s[i + 1] {
      SplitJoin16(s[i], s[i + 1]);
    }
    assert Header(f) == s[..HEADER - 1];
  }

  /** encode_fragment: the header and payload are written field by field into the packet buffer,
      which holds 1500 bytes. */
  method EncodeFragment(f: Fragment) returns (p: Packet)
    requires HEADER + |f.data| <= 1500
    ensures p == FragmentPacket(BLK_BLOCK, f)
  {
    var buf := new byte[1499];
    Put16(buf, 0, f.sid);
    Put32(buf, 2, f.bid);
    Put16(buf, 6, f.fid);
    Put16(buf, 8, f.total);
    Put16(buf, 10, |f.data|);
    assert buf[..HEADER - 1] == Header(f);
    var i := 0;
    while i < |f.data|
      invariant 0 <= i <= |f.data|
      invariant buf[..HEADER - 1] == Header(f)
      invariant buf[HEADER - 1..HEADER - 1 + i] == f.data[..i]
    {
      buf[HEADER - 1 + i] := f.data[i];
      i := i + 1;
    }
    assert buf[..HEADER - 1 + i] == buf[..HEADER - 1] + buf[HEADER - 1..HEADER - 1 + i];
    p := Packet(BLK_BLOCK, buf[..HEADER - 1 + |f.data|]);
  }

  method Put16(buf: array<byte>, at: nat, x: u16)
    requires at + 2 <= buf.Length
    modifies buf
    ensures buf[at] == x / 0x100 && buf[at + 1] == x % 0x100
    ensures forall k :: 0 <= k < buf.Length && !(at <= k < at + 2) ==> buf[k] == old(buf[k])
  {
    buf[at], buf[at + 1] := x / 0x100, x % 0x100;
  }

  method Put32(buf: array<byte>, at: nat, x: u32)
    requires at + 4 <= buf.Length
    modifies buf
    ensures buf[at] == High(x) / 0x100 && buf[at + 1] == High(x) % 0x100
    ensures buf[at + 2] == Low(x) / 0x100 && buf[at + 3] == Low(x) % 0x100
    ensures forall k :: 0 <= k < buf.Length && !(at <= k < at + 4) ==> buf[k] == old(buf[k])
  {
    buf[at], buf[at + 1] := High(x) / 0x100, High(x) % 0x100;
    buf[at + 2], buf[at + 3] := Low(x) / 0x100, Low(x) % 0x100;
  }

  // ---------------------------------------------------------------- acknowledgements

  const ACK_PACKET: int := 13

  /** A decoded acknowledgement. */
  datatype AckReceived = AckReceived(flags: bv8, seqno: u16, sec: int, usec: int, cons: u16)

  /** The packet built by encode_ack, append_ack_cons and append_ack_ts: the sequence number in host
      order, the other fields in network order. */
  function AckPacket(e: Endian, seqno: u16, sec: u32, usec: u32, cons: u16): (p: Packet)
    ensures Length(p) == ACK_PACKET
  {
    Packet(BLK_ACK,
           [HostBytes(e, seqno)[0], HostBytes(e, seqno)[1],
            High(sec) / 0x100, High(sec) % 0x100, Low(sec) / 0x100, Low(sec) % 0x100,
            High(usec) / 0x100, High(usec) % 0x100, Low(usec) / 0x100, Low(usec) % 0x100,
            cons / 0x100, cons % 0x100])
  }

  /** validate_ack */
  predicate ValidateAck(p: Packet) { Length(p) == ACK_PACKET && p.flags == BLK_ACK }

  /** decode_ack */
  function DecodeAck(e: Endian, p: Packet): Option<AckReceived> {
    if Length(p) < ACK_PACKET then None
    else Some(AckReceived(p.flags, HostU16(e, p.body[..2]), ToInt32(Net32(p.body, 2)),
                          ToInt32(Net32(p.body, 6)), Net16(p.body, 10)))
  }

  /** An acknowledgement decodes to what was encoded, whatever the byte orders of the two hosts, when
      the sequence number is carried back in the bytes it came in. */
  lemma AckRoundTrip(maker: Endian, echoer: Endian, seqno: u16, sec: u32, usec: u32, cons: u16)
    ensures var p := AckPacket(echoer, HostU16(echoer, HostBytes(maker, seqno)), sec, usec, cons);
            && ValidateAck(p)
            && DecodeAck(maker, p) == Some(AckReceived(BLK_ACK, seqno, ToInt32(sec), ToInt32(usec), cons))
  {
    var echoed := HostU16(echoer, HostBytes(maker, seqno));
    var p := AckPacket(echoer, echoed, sec, usec, cons);
    var sent := HostBytes(maker, seqno);
    SplitJoin16(sent[0], sent[1]);
    SplitJoin16(sent[1], sent[0]);
    assert p.body[..2] == HostBytes(echoer, echoed) == HostBytes(maker, seqno);
  }

  /** The fields of an acknowledgement: the sequence number in the order of the host, then the two halves of
      the time and the count in network order. */
  lemma AckFields(e: Endian, seqno: u16, sec: u32, usec: u32, cons: u16)
    ensures var s := AckPacket(e, seqno, sec, usec, cons).body;
            && s[0] == (if e.Big? then seqno / 0x100 else seqno % 0x100)
            && s[1] == (if e.Big? then seqno % 0x100 else seqno / 0x100)
            && Net32(s, 2) == sec && Net32(s, 6) == usec && Net16(s, 10) == cons
  {
  }

  /** validate_ack accepts exactly the packets the three calls can build. */
  lemma ValidAckIff(e: Endian, p: Packet)
    ensures ValidateAck(p) <==> exists seqno, sec, usec, cons :: p == AckPacket(e, seqno, sec, usec, cons)
  {
    if ValidateAck(p) {
      var s := p.body;
      SplitJoin16(s[0], s[1]);
      SplitJoin16(s[1], s[0]);
      SplitJoin32(Net16(s, 2), Net16(s, 4));
      SplitJoin32(Net16(s, 6), Net16(s, 8));
      forall i | i in {2, 4, 6, 8, 10} ensures Net16(s, i) / 0x100 == s[i] && Net16(s, i) % 0x100 == s[i + 1] {
        SplitJoin16(s[i], s[i + 1]);
      }
      assert p.body == AckPacket(e, HostU16(e, s[..2]), Net32(s, 2), Net32(s, 6), Net16(s, 10)).body;
    }
  }

  /** encode_ack, append_ack_cons and append_ack_ts, in the order the receiver calls them, writing the
      packet buffer in place. */
  method BuildAck(e: Endian, seqno: u16, cons: u16, sec: u32, usec: u32) returns (p: Packet)
    ensures p == AckPacket(e, seqno, sec, usec, cons)
  {
    var buf := new byte[1499];
    var sq := HostBytes(e, seqno);
    buf[0], buf[1] := sq[0], sq[1];
    Put16(buf, 10, cons);
    Put32(buf, 2, sec);
    Put32(buf, 6, usec);
    p := Packet(BLK_ACK, buf[..ACK_PACKET - 1]);
    assert p.body == AckPacket(e, seqno, sec, usec, cons).body;
  }
}
