/** The ring buffers of the send scheduler (packet_sender.c): a fixed array, the slot written next and
    the number of packets queued. */
module RingQueue {
  import opened Basics

  class Ring {
    const buf: array<SendData>
    var c: nat
    var f: nat

    ghost predicate Valid()
      reads this
    {
      buf.Length == RING && c < RING && f <= RING
    }

    /** The queued packets, oldest first. */
    ghost function Contents(): (s: seq<SendData>)
      requires Valid()
      reads this, buf
      ensures |s| == f
    {
      seq(f, i requires 0 <= i < f reads this, buf => buf[(RING + c - f + i) % RING])
    }

    constructor ()
      ensures Valid() && fresh(buf) && Contents() == []
    {
      buf := new SendData[RING];
      c, f := 0, 0;
    }

    /** The insertion in send_data: refused when the ring is full. */
    method Put(d: SendData) returns (ok: bool)
      requires Valid()
      modifies this, buf
      ensures Valid()
      ensures ok <==> old(|Contents()|) < RING
      ensures Contents() == old(Contents()) + if ok then [d] else []
    {
      ok := f < RING;
      if ok {
        buf[c] := d;
        c := (c + 1) % RING;
        f := f + 1;
        NewSlot(old(c), old(f));
        assert Contents()[old(f)] == d;
        forall i | 0 <= i < old(f) ensures Contents()[i] == old(Contents())[i] { SlotKept(old(c), old(f), i); }
        assert Contents()[..old(f)] == old(Contents());
        assert Contents() == Contents()[..old(f)] + [d];
      }
    }

    /** The look at the head in the sender loop. */
    method Head() returns (d: SendData)
      requires Valid() && f > 0
      ensures d == Contents()[0]
    {
      d := buf[(RING + c - f) % RING];
    }

    /** The removal in packet_send, which does not look at the count. */
    method Take() returns (d: SendData)
      requires Valid() && f > 0
      modifies this`f
      ensures Valid() && old(Contents()) == [d] + Contents()
    {
      d := buf[(RING + c - f) % RING];
      f := f - 1;
    }
  }

  lemma NewSlot(c: nat, f: nat)
    requires c < RING && f < RING
    ensures (RING + (c + 1) % RING - (f + 1) + f) % RING == c
  {
  }

  /** After an insertion the older packets are found in the same slots. */
  lemma SlotKept(c: nat, f: nat, i: nat)
    requires c < RING && f < RING && i < f
    ensures (RING + (c + 1) % RING - (f + 1) + i) % RING == (RING + c - f + i) % RING != c
  {
  }
}
