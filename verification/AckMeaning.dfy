/** What the operations on the unacknowledged packets mean in terms of fragment numbers and of the times of
    sending, acknowledging and sweeping (ack.c). */
module AckMeaning {
  import opened Basics
  import opened NetEncoder
  import opened BlockSpec
  import opened NackSpec
  import opened NackProps

  // ---------------------------------------------------------------- fragments and times of entries

  /** The entry holds fragment `i` of block `k`, whose bytes are `o`. */
  predicate Carries(e: Entry, k: BlockKey, o: seq<byte>, i: nat) {
    && GoodData(o) && i < Fn(o) && IsBlock(e.d.packet.flags)
    && e.d.packet == FragmentPacket(e.d.packet.flags, FragmentOf(k, o, i))
  }

  predicate SentBefore(x: Entry, e: Entry) { Micros(x.sendtime) < Micros(e.sendtime) }

  lemma CarriedId(e: Entry, k: BlockKey, o: seq<byte>, i: nat)
    requires Carries(e, k, o, i)
    ensures GetFragmentId(e.d.packet) == FragmentId(k.sid, k.bid, i, Fn(o), |Piece(o, i)|)
  {
    DecodeInvertsEncode(e.d.packet.flags, FragmentOf(k, o, i));
  }

  lemma FilteredList(t: Table, a: Addr, keep: Entry -> bool, b: Addr, x: Entry)
    ensures x in NacksOf(FilterPeer(t, a, keep), b) <==> x in NacksOf(t, b) && (b == a ==> keep(x))
  {
    NacksAfterFilter(t, a, keep, b);
    FilterMembers(NacksOf(t, a), keep);
  }

  // ---------------------------------------------------------------- cancellation

  /** The fragments an acknowledgement of `e` with count `cons` reports. */
  predicate Reported(x: Entry, e: Entry, cons: u16) {
    var id, ackId := GetFragmentId(x.d.packet), GetFragmentId(e.d.packet);
    BlockKey(id.sid, id.bid) == BlockKey(ackId.sid, ackId.bid) && ackId.fid - cons <= id.fid < ackId.fid
  }

  /** For fragments of known blocks the reported run is what its name says. */
  lemma ReportedExact(
      x: Entry, e: Entry, cons: u16, k: BlockKey, o: seq<byte>, i: nat, k': BlockKey, o': seq<byte>, j: nat)
    requires Carries(e, k, o, i) && Carries(x, k', o', j)
    ensures Reported(x, e, cons) <==> k' == k && i - cons <= j < i
  {
    CarriedId(e, k, o, i);
    CarriedId(x, k', o', j);
  }

  lemma CancelsOne(t: Table, e: Entry, cons: u16, a: Addr, x: Entry)
    requires x in NacksOf(t, a) && Normal(x.sendtime) && Normal(e.sendtime)
    ensures x !in NacksOf(RemoveLost(t, e, cons), a) <==> a == e.d.to && SentBefore(x, e) && Reported(x, e, cons)
  {
    FilteredList(t, e.d.to, NotCancelled(e, cons), a, x);
    MicrosOf(x.sendtime, e.sendtime);
  }

  /** remove_lost_acks drops an outstanding fragment if and only if it went to the acknowledging peer before
      the acknowledged one, belongs to the same block, and is one of the `cons` fragments just below it. */
  lemma CancelExact(
      t: Table, e: Entry, cons: u16, k: BlockKey, o: seq<byte>, i: nat,
      to: Addr, x: Entry, k': BlockKey, o': seq<byte>, j: nat)
    requires Carries(e, k, o, i) && Carries(x, k', o', j) && x in NacksOf(t, to)
    requires Normal(e.sendtime) && Normal(x.sendtime)
    ensures x !in NacksOf(RemoveLost(t, e, cons), to)
       <==> to == e.d.to && SentBefore(x, e) && k' == k && i - cons <= j < i
  {
    ReportedExact(x, e, cons, k, o, i, k', o', j);
    CancelsOne(t, e, cons, to, x);
  }

  /** A packet that is no fragment, a cookie, has no fragment number; remove_lost_acks takes it for fragment 0 of
      block 0 of stream 0. It drops such a packet if and only if it went to the acknowledging peer before the
      acknowledged fragment, and that is of this block and reports a run down to its start; the
      acknowledgement of such a packet drops nothing. */
  lemma CookieCancelIff(
      t: Table, e: Entry, cons: u16, k: BlockKey, o: seq<byte>, i: nat, to: Addr, x: Entry)
    requires !IsBlock(x.d.packet.flags) && x in NacksOf(t, to) && Normal(e.sendtime) && Normal(x.sendtime)
    ensures Carries(e, k, o, i) ==>
              (x in NacksOf(RemoveLost(t, e, cons), to) <==>
                !(to == e.d.to && SentBefore(x, e) && k == BlockKey(0, 0) && 0 < i <= cons))
    ensures !IsBlock(e.d.packet.flags) ==> x in NacksOf(RemoveLost(t, e, cons), to)
  {
    if Carries(e, k, o, i) { CarriedId(e, k, o, i); }
    CancelsOne(t, e, cons, to, x);
  }

  /** A table and what remove_lost_acks leaves of it. */
  ghost predicate CancelledByRun(t: Table, t': Table, e: Entry, cons: u16) {
    forall a, x :: x in NacksOf(t, a) && Normal(x.sendtime) && Normal(e.sendtime) ==>
      (x !in NacksOf(t', a) <==> a == e.d.to && SentBefore(x, e) && Reported(x, e, cons))
  }

  lemma CancelByRun(t: Table, e: Entry, cons: u16)
    ensures CancelledByRun(t, RemoveLost(t, e, cons), e, cons)
    ensures forall a, x :: x in NacksOf(RemoveLost(t, e, cons), a) ==> x in NacksOf(t, a)
  {
    var t' := RemoveLost(t, e, cons);
    forall a, x | x in NacksOf(t, a) && Normal(x.sendtime) && Normal(e.sendtime)
      ensures x !in NacksOf(t', a) <==> a == e.d.to && SentBefore(x, e) && Reported(x, e, cons)
    {
      CancelsOne(t, e, cons, a, x);
    }
    forall a, x | x in NacksOf(t', a) ensures x in NacksOf(t, a) {
      FilteredList(t, e.d.to, NotCancelled(e, cons), a, x);
    }
  }

  // ---------------------------------------------------------------- what an acknowledgement leaves

  /** After an acknowledgement, on either path, an outstanding packet is still there if and only if it went
      to another peer or was not sent before the acknowledged one. */
  lemma SurvivesIff(t: Table, e: Entry, cons: u16, to: Addr, x: Entry)
    requires x in NacksOf(t, to) && Normal(e.sendtime) && Normal(x.sendtime)
    ensures x in NacksOf(RemoveOoo(t, e), to) <==> to != e.d.to || !SentBefore(x, e)
    ensures x in NacksOf(RemoveOoo(RemoveLost(t, e, cons), e), to) <==> to != e.d.to || !SentBefore(x, e)
  {
    MicrosOf(x.sendtime, e.sendtime);
    FilteredList(t, e.d.to, NotOlder(e), to, x);
    FilteredList(t, e.d.to, NotCancelled(e, cons), to, x);
    FilteredList(RemoveLost(t, e, cons), e.d.to, NotOlder(e), to, x);
  }

  /** What goes back to send_data on the path for a known peer: for a packet there is an outstanding one of
      the peer, sent before the acknowledged one and not in the reported run, of which it is the marked
      copy; and every such outstanding packet is resent. */
  lemma ResentIff(t: Table, e: Entry, cons: u16, d: SendData)
    requires TableInv(t, None) && Normal(e.sendtime)
    requires forall x :: x in NacksOf(t, e.d.to) ==> Normal(x.sendtime)
    ensures d in OooResends(RemoveLost(t, e, cons), e)
       <==> exists x :: x in NacksOf(t, e.d.to) && SentBefore(x, e) && !Reported(x, e, cons) && d == Resend(x.d)
  {
    var es := NacksOf(t, e.d.to);
    AckRefinesFilter(t, e, cons);
    FilterMembers(es, Overdue(e, cons));
    MarkedCopies(Filter(es, Overdue(e, cons)), OooResends(RemoveLost(t, e, cons), e), d);
    forall x | x in es ensures x in Filter(es, Overdue(e, cons)) <==> SentBefore(x, e) && !Reported(x, e, cons) {
      MicrosOf(x.sendtime, e.sendtime);
    }
  }

  /** A list of marked copies holds a packet when one of the originals has it as its copy. */
  lemma MarkedCopies(gone: seq<Entry>, sent: seq<SendData>, d: SendData)
    requires |sent| == |gone| && forall i :: 0 <= i < |sent| ==> sent[i] == Resend(gone[i].d)
    ensures d in sent <==> exists x :: x in gone && d == Resend(x.d)
  {
    if d in sent {
      var i :| 0 <= i < |sent| && sent[i] == d;
      assert gone[i] in gone;
    }
    if x :| x in gone && d == Resend(x.d) {
      var i :| 0 <= i < |gone| && gone[i] == x;
      assert sent[i] == d;
    }
  }

  // ---------------------------------------------------------------- the timeout sweep

  /** How long ago the packet was sent. */
  function Age(e: Entry, now: Timeval): int { Micros(now) - Micros(e.sendtime) }

  /** The times and the deadline fit the unsigned 64-bit arithmetic of the program. */
  predicate Dated(e: Entry, now: Timeval, timeout: nat) {
    && Representable(now) && Representable(e.sendtime)
    && Micros(e.sendtime) + timeout < 0x1_0000_0000_0000_0000
  }

  lemma ExpiredMeans(e: Entry, now: Timeval, timeout: nat)
    requires Dated(e, now, timeout)
    ensures Expired(e, now, timeout) <==> Age(e, now) > timeout
  {
    UsecIsMicros(now);
    UsecIsMicros(e.sendtime);
    Fits64(Micros(e.sendtime) + timeout);
  }

  lemma NacksAfterSweep(t: Table, now: Timeval, timeout: Addr -> nat, a: Addr)
    ensures NacksOf(Sweep(t, now, timeout), a) == Filter(NacksOf(t, a), NotExpired(now, timeout(a)))
  {
    PeerUnique(Sweep(t, now, timeout).peers, a, FindPeer(t.peers, a));
  }

  /** A table and what a sweep leaves of it: a packet stays if and only if it is not older than the timeout
      of its peer. */
  ghost predicate SweptByAge(t: Table, t': Table, now: Timeval, timeout: Addr -> nat) {
    forall a, e :: e in NacksOf(t, a) && Dated(e, now, timeout(a)) ==>
      (e in NacksOf(t', a) <==> Age(e, now) <= timeout(a))
  }

  lemma SweepByAge(t: Table, now: Timeval, timeout: Addr -> nat)
    ensures SweptByAge(t, Sweep(t, now, timeout), now, timeout)
    ensures forall a, e :: e in NacksOf(Sweep(t, now, timeout), a) ==> e in NacksOf(t, a)
  {
    forall a, e | e in NacksOf(t, a) && Dated(e, now, timeout(a))
      ensures e in NacksOf(Sweep(t, now, timeout), a) <==> Age(e, now) <= timeout(a)
    {
      NacksAfterSweep(t, now, timeout, a);
      FilterMembers(NacksOf(t, a), NotExpired(now, timeout(a)));
      ExpiredMeans(e, now, timeout(a));
    }
    forall a, e | e in NacksOf(Sweep(t, now, timeout), a) ensures e in NacksOf(t, a) {
      NacksAfterSweep(t, now, timeout, a);
      FilterMembers(NacksOf(t, a), NotExpired(now, timeout(a)));
    }
  }

  /** What a sweep hands to send_data: a packet is among it if and only if it is the marked copy of an
      outstanding one that is older than the timeout of its peer. */
  lemma TimedOutIff(t: Table, now: Timeval, timeout: Addr -> nat, d: SendData)
    requires TableInv(t, None) && forall e :: InTable(t, e) ==> Dated(e, now, timeout(e.d.to))
    ensures d in SweepResends(t, now, timeout)
       <==> exists e :: InTable(t, e) && Age(e, now) > timeout(e.d.to) && d == Resend(e.d)
  {
    var gone := ExpiredEntries(t.peers, now, timeout);
    SweepPartitions(t, now, timeout);
    MarkedCopies(gone, SweepResends(t, now, timeout), d);
    forall e | InTable(t, e) ensures e in gone <==> Age(e, now) > timeout(e.d.to) { OverdueIsGone(t, now, timeout, e); }
  }

  lemma OverdueIsGone(t: Table, now: Timeval, timeout: Addr -> nat, e: Entry)
    requires TableInv(t, None) && InTable(t, e) && Dated(e, now, timeout(e.d.to))
    ensures e in ExpiredEntries(t.peers, now, timeout) <==> Age(e, now) > timeout(e.d.to)
  {
    ExpiredMeans(e, now, timeout(e.d.to));
    ExpiredMembers(t.peers, now, timeout, e);
    forall i | 0 <= i < |t.peers| && e in t.peers[i].nacks ensures t.peers[i].addr == e.d.to {
      assert PeerOk(t.peers[i], t.appends, None);
    }
  }
}
