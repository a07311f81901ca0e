/** Types, constants and flag bits shared by every component (messages.h, blockcache.h,
    packet_sender.h, bora_util.c). */
module Basics {

  datatype Option<+T> = None | Some(value: T)

  type byte = x: int | 0 <= x < 0x100
  type u16 = x: int | 0 <= x < 0x1_0000
  type u32 = x: int | 0 <= x < 0x1_0000_0000
  type u64 = x: int | 0 <= x < 0x1_0000_0000_0000_0000

  /** Payload bytes of one full fragment. */
  const MTU: int := 1400

  /** Slots of each send queue (N_PRIO, N_RETR and N_SEND). */
  const RING: nat := 2000

  /** Size of the packed fragment header, the flag byte included. */
  const HEADER: int := 13

  /** The address and port of a socket address; the fields the program compares. */
  datatype Addr = Addr(ip: u32, port: u16)

  /** The bytes of a packet. The first byte, whose bits the program tests and sets, is kept apart as a
      bit vector; `body` holds the bytes from offset 1 on. */
  datatype Packet = Packet(flags: bv8, body: seq<byte>)

  /** The packet's `length` field. */
  function Length(p: Packet): nat { 1 + |p.body| }

  /** A packet waiting to be sent and its destination. */
  datatype SendData = SendData(packet: Packet, to: Addr)

  /** One fragment of a block; the `length` field is the number of payload bytes. */
  datatype Fragment = Fragment(sid: u16, bid: u32, fid: u16, total: u16, data: seq<byte>)

  datatype BlockKey = BlockKey(sid: u16, bid: u32)

  // ---------------------------------------------------------------- flag bits

  const BLK_BLOCK: bv8 := 0x01
  const BLK_BLOCK_ACK: bv8 := 0x81
  const BLK_ACK: bv8 := 0x02
  const BW_MSG: bv8 := 0x40
  const COOKIE_FLAGS: bv8 := 0x88

  predicate NeedAck(flags: bv8) { flags & 0x80 != 0 }
  predicate IsBandwidth(flags: bv8) { flags & 0x40 != 0 }
  predicate IsRetransmission(flags: bv8) { flags & 0x10 != 0 }
  predicate IsConsecutive(flags: bv8) { flags & 0x04 != 0 }
  predicate IsAck(flags: bv8) { flags & 0x02 != 0 }
  predicate IsBlock(flags: bv8) { flags & 0x01 != 0 }

  /** flags & MASK_BLOCK_ACK & BLOCK_MASK_CONSECUTIVE & BLOCK_MASK_RETRANSMISSION == BLK_EMPTY */
  predicate BlockMaskClear(flags: bv8) { flags & 0x7E & 0xFB & 0xEF == 0 }

  function MarkConsecutive(flags: bv8): bv8 { flags | 0x04 }

  /** The flag update made on a saved packet before it is queued again. */
  function MarkRetransmission(flags: bv8): bv8 { (flags & 0xFB) | 0x10 }

  // ---------------------------------------------------------------- time

  /** A struct timeval. A difference of two may have a negative `sec`. */
  datatype Timeval = Timeval(sec: int, usec: int)

  predicate Normal(t: Timeval) { 0 <= t.usec < 1_000_000 }

  /** timercmp(a, b, <) */
  predicate TimerLess(a: Timeval, b: Timeval) {
    a.sec < b.sec || (a.sec == b.sec && a.usec < b.usec)
  }

  /** timersub */
  function TimerSub(a: Timeval, b: Timeval): Timeval {
    if a.usec < b.usec then Timeval(a.sec - b.sec - 1, a.usec - b.usec + 1_000_000)
    else Timeval(a.sec - b.sec, a.usec - b.usec)
  }

  /** time_to_usec: the arithmetic is in unsigned 64 bits. */
  function TimeToUsec(t: Timeval): u64 {
    (t.usec + t.sec * 1_000_000) % 0x1_0000_0000_0000_0000
  }

  /** time_from_usec */
  function TimeFromUsec(usec: u64): Timeval {
    Timeval(usec / 1_000_000, usec % 1_000_000)
  }

  lemma TimeRoundTrip(u: u64)
    ensures Normal(TimeFromUsec(u)) && TimeToUsec(TimeFromUsec(u)) == u
  {
  }

  /** A time or a difference of times in microseconds, without a bound. */
  function Micros(t: Timeval): int { t.sec * 1_000_000 + t.usec }

  /** On normal times timercmp compares microseconds and timersub subtracts them, whatever their order. */
  lemma MicrosOf(a: Timeval, b: Timeval)
    requires Normal(a) && Normal(b)
    ensures TimerLess(a, b) <==> Micros(a) < Micros(b)
    ensures Normal(TimerSub(a, b)) && Micros(TimerSub(a, b)) == Micros(a) - Micros(b)
    ensures TimeToUsec(a) == Micros(a) % 0x1_0000_0000_0000_0000
  {
  }

  /** A time the 64-bit microsecond count can hold. */
  predicate Representable(t: Timeval) {
    Normal(t) && 0 <= t.sec && t.usec + t.sec * 1_000_000 < 0x1_0000_0000_0000_0000
  }

  lemma Fits64(x: int)
    requires 0 <= x < 0x1_0000_0000_0000_0000
    ensures x % 0x1_0000_0000_0000_0000 == x
  {
  }

  lemma UsecIsMicros(t: Timeval)
    requires Representable(t)
    ensures TimeToUsec(t) == Micros(t)
  {
  }

  /** On representable times the comparison of timevals and of microseconds agree, and the
      subtraction yields the difference. */
  lemma TimeOrder(a: Timeval, b: Timeval)
    requires Representable(a) && Representable(b)
    ensures TimerLess(a, b) <==> TimeToUsec(a) < TimeToUsec(b)
    ensures !TimerLess(a, b) ==> TimeToUsec(TimerSub(a, b)) == TimeToUsec(a) - TimeToUsec(b)
  {
    assert TimeToUsec(a) == a.usec + a.sec * 1_000_000;
    assert TimeToUsec(b) == b.usec + b.sec * 1_000_000;
    var d := TimerSub(a, b);
    assert d.usec + d.sec * 1_000_000 == TimeToUsec(a) - TimeToUsec(b);
  }
}
