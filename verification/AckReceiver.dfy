/** What an accepted acknowledgement does: the per-peer statistics and the order of cancel, then resend
    (ack_received.c). */
module AckReceiver {
  import opened Basics
  import opened NetEncoder
  import opened Framing
  import opened NackSpec
  import opened NackProps
  import opened NackTable
  import opened AckMeaning

  /** One acknowledged packet: round trip and single trip times. */
  datatype AckStore = AckStore(seqno: u16, sent: Timeval, rtt: Timeval, stt: Timeval, sleeptime: u32)

  /** The statistics of a peer; `store` is newest first. */
  datatype PeerStats = PeerStats(
    minRtt: Timeval, minStt: Timeval, avgRtt: Timeval, avgStt: Timeval, errRtt: Timeval, errStt: Timeval,
    lastRtt: u64, store: seq<AckStore>, totalAcked: nat, totalErrors: nat, lastAcked: nat, lastError: nat)

  function RecordOf(ack: Entry, r: AckReceived, received: Timeval): AckStore {
    AckStore(ack.seqno, ack.sendtime, TimerSub(received, ack.sendtime),
             TimerSub(Timeval(r.sec, r.usec), ack.sendtime), ack.sleeptime)
  }

  function FirstStats(x: AckStore): PeerStats {
    PeerStats(x.rtt, x.stt, x.rtt, x.stt, Timeval(0, 0), Timeval(0, 0), TimeToUsec(x.rtt), [x], 1, 0, 1, 0)
  }

  function Earlier(a: Timeval, b: Timeval): Timeval { if TimerLess(a, b) then a else b }

  function NextStats(p: PeerStats, x: AckStore, errors: nat): PeerStats {
    var prev := if p.store == [] then x else p.store[0];
    PeerStats(Earlier(x.rtt, p.minRtt), Earlier(x.stt, p.minStt), x.rtt, x.stt,
              if errors > 0 then prev.rtt else p.errRtt, if errors > 0 then prev.stt else p.errStt,
              TimeToUsec(x.rtt), [x] + p.store,
              p.totalAcked + 1, p.totalErrors + errors, p.lastAcked + 1, p.lastError + errors)
  }

  /** get_timeout_value, the factor 1.2 taken exactly: 0 for a peer that never acknowledged anything,
      otherwise at least 10 milliseconds. */
  function TimeoutValue(peers: map<Addr, PeerStats>, a: Addr): nat {
    if a !in peers then 0
    else if peers[a].lastRtt * 12 / 10 > 10_000 then peers[a].lastRtt * 12 / 10 else 10_000
  }

  function Timeouts(peers: map<Addr, PeerStats>): Addr -> nat { (a: Addr) => TimeoutValue(peers, a) }

  /** The unacknowledged packets, the peers' statistics and the highest sequence number seen. */
  datatype Book = Book(table: Table, peers: map<Addr, PeerStats>, highest: Option<AckStore>)

  /** The number of entries resend_ooo_nacks counts. */
  function Errors(t: Table, ack: Entry): nat { |Filter(NacksOf(t, ack.d.to), Older(ack))| }

  function Highest(h: Option<AckStore>, x: AckStore): Option<AckStore> {
    if h.Some? && h.value.seqno >= x.seqno then h else Some(x)
  }

  /** ack_received: the book afterwards and the packets handed to send_data. */
  function OnAck(b: Book, ack: Entry, r: AckReceived, received: Timeval, from: Addr): (Book, seq<SendData>) {
    var x := RecordOf(ack, r, received);
    if from !in b.peers then
      (Book(RemoveOoo(b.table, ack), b.peers[from := FirstStats(x)], Highest(b.highest, x)), [])
    else
      var t := RemoveLost(b.table, ack, r.cons);
      (Book(RemoveOoo(t, ack), b.peers[from := NextStats(b.peers[from], x, Errors(t, ack))], Highest(b.highest, x)),
       OooResends(t, ack))
  }

  /** What goes to cookie_received: the record of an acknowledged cookie. The whole flag byte is compared. */
  function CookieAnswer(ack: Entry, x: AckStore): Option<AckStore> {
    if ack.d.packet.flags == COOKIE_FLAGS then Some(x) else None
  }

  /** release_ack_store: the running counters of every peer start over. */
  function Released(b: Book): Book {
    Book(b.table, map a | a in b.peers :: b.peers[a].(lastAcked := 0, lastError := 0), None)
  }

  class AckBook {
    const lists: NackLists
    var peers: map<Addr, PeerStats>
    var highest: Option<AckStore>

    constructor ()
      ensures lists.Valid() && fresh(lists) && Value() == Book(EMPTY, map[], None)
    {
      lists := new NackLists();
      peers, highest := map[], None;
    }

    ghost function Value(): Book
      reads this, lists
    {
      Book(lists.Value(), peers, highest)
    }

    /** ack_received. `sent` is what goes to send_data, `cookie` what goes to cookie_received. */
    method AckReceived(ack: Entry, r: AckReceived, received: Timeval, from: Addr)
        returns (sent: seq<SendData>, cookie: Option<AckStore>)
      requires lists.Valid()
      modifies this, lists
      ensures lists.Valid()
      ensures Value() == OnAck(old(Value()), ack, r, received, from).0
      ensures sent == OnAck(old(Value()), ack, r, received, from).1
      ensures cookie == CookieAnswer(ack, RecordOf(ack, r, received))
    {
      var x := RecordOf(ack, r, received);
      sent, cookie := [], None;
      if from !in peers {
        var _ := lists.RemoveOooNacks(ack);
        peers := peers[from := FirstStats(x)];
      } else {
        var _ := lists.RemoveLostAcks(ack, r.cons);
        var errors;
        errors, sent := lists.ResendOooNacks(ack);
        peers := peers[from := NextStats(peers[from], x, errors)];
      }
      if highest.None? || highest.value.seqno < x.seqno { highest := Some(x); }
      if ack.d.packet.flags == COOKIE_FLAGS { cookie := Some(x); }
    }

    /** release_ack_store */
    method ReleaseAckStore()
      modifies this
      ensures Value() == Released(old(Value()))
    {
      peers := map a | a in peers :: peers[a].(lastAcked := 0, lastError := 0);
      highest := None;
    }

    /** resend_timeout_nacks with the peers' own timeouts. */
    method ResendTimeouts(now: Timeval) returns (count: nat, sent: seq<SendData>)
      requires lists.Valid()
      modifies lists
      ensures lists.Valid() && lists.Value() == Sweep(old(lists.Value()), now, Timeouts(peers))
      ensures SweptByAge(old(lists.Value()), lists.Value(), now, Timeouts(peers))
      ensures sent == SweepResends(old(lists.Value()), now, Timeouts(peers))
      ensures count == |ExpiredEntries(old(lists.peers), now, Timeouts(peers))|
    {
      count, sent := lists.ResendTimeoutNacks(now, Timeouts(peers));
    }
  }

  // ---------------------------------------------------------------- consequences

  lemma OlderIsGone(t: Table, ack: Entry, cons: u16, x: Entry)
    requires TableInv(t, None) && OlderThan(x, ack)
    ensures x !in NacksOf(RemoveOoo(t, ack), ack.d.to)
    ensures x !in NacksOf(RemoveOoo(RemoveLost(t, ack, cons), ack), ack.d.to)
  {
    FilterMembers(NacksOf(t, ack.d.to), NotOlder(ack));
    NacksAfterFilter(t, ack.d.to, NotOlder(ack), ack.d.to);
    AckRefinesFilter(t, ack, cons);
  }

  lemma OverdueIsResent(t: Table, ack: Entry, cons: u16, x: Entry)
    requires TableInv(t, None) && x in NacksOf(t, ack.d.to) && OlderThan(x, ack) && !InRun(x, ack, cons)
    ensures Resend(x.d) in OooResends(RemoveLost(t, ack, cons), ack)
  {
    AckRefinesFilter(t, ack, cons);
    var overdue := Filter(NacksOf(t, ack.d.to), Overdue(ack, cons));
    FilterMembers(NacksOf(t, ack.d.to), Overdue(ack, cons));
    var i :| 0 <= i < |overdue| && overdue[i] == x;
    assert OooResends(RemoveLost(t, ack, cons), ack)[i] == Resend(x.d);
  }

  /** An older entry outside the acknowledged run is handed to send_data exactly when its peer has
      acknowledged something before. On a peer's first acknowledgement every older entry is discarded,
      and nothing is resent. */
  lemma ResentIffKnown(b: Book, ack: Entry, r: AckReceived, received: Timeval, x: Entry)
    requires TableInv(b.table, None) && x in NacksOf(b.table, ack.d.to)
    requires OlderThan(x, ack) && !InRun(x, ack, r.cons)
    ensures var (b', sent) := OnAck(b, ack, r, received, ack.d.to);
            && x !in NacksOf(b'.table, ack.d.to)
            && (Resend(x.d) in sent <==> ack.d.to in b.peers)
            && (ack.d.to !in b.peers ==> sent == [])
  {
    OlderIsGone(b.table, ack, r.cons, x);
    OverdueIsResent(b.table, ack, r.cons, x);
  }

  /** total_errors grows by exactly the number of packets resent. */
  lemma ErrorsAreResends(b: Book, ack: Entry, r: AckReceived, received: Timeval)
    requires TableInv(b.table, None)
    ensures var (b', sent) := OnAck(b, ack, r, received, ack.d.to);
            var a := ack.d.to;
            && a in b'.peers
            && b'.peers[a].totalErrors == (if a in b.peers then b.peers[a].totalErrors else 0) + |sent|
            && b'.peers[a].totalAcked == (if a in b.peers then b.peers[a].totalAcked else 0) + 1
            && (a in b.peers ==> b'.peers[a] == NextStats(b.peers[a], RecordOf(ack, r, received), |sent|))
  {
    var a := ack.d.to;
    if a in b.peers {
      var t := RemoveLost(b.table, ack, r.cons);
      FilterPeerKeepsInv(b.table, a, NotCancelled(ack, r.cons), None);
      forall e | e in Filter(NacksOf(t, a), Older(ack)) ensures NeedAck(e.d.packet.flags) {
        FilterMembers(NacksOf(t, a), Older(ack));
        assert PeerOk(t.peers[FindPeer(t.peers, a)], t.appends, None);
      }
      ResendsAll(Filter(NacksOf(t, a), Older(ack)));
    }
  }

  /** The cookie code hears of a cookie when its first transmission is acknowledged, not when a
      retransmission is, and never of a fragment. */
  lemma CookieReportedIff(ack: Entry, x: AckStore, p: Packet, k: nat)
    requires ack.d.packet == RetransmitTimes(p, k) && (p.flags == COOKIE_FLAGS || FragmentFlags(p.flags))
    ensures CookieAnswer(ack, x) == if p.flags == COOKIE_FLAGS && k == 0 then Some(x) else None
  {
    if p.flags == COOKIE_FLAGS { CookieFlags(p, k); } else { FragmentsStayFragments(p, k); }
  }

  lemma {:induction false} FragmentsStayFragments(p: Packet, k: nat)
    requires FragmentFlags(p.flags)
    ensures FragmentFlags(RetransmitTimes(p, k).flags) && RetransmitTimes(p, k).flags != COOKIE_FLAGS
  {
    if k > 0 {
      FragmentsStayFragments(p, k - 1);
      FlagFacts(RetransmitTimes(p, k - 1).flags);
    }
    assert !FragmentFlags(COOKIE_FLAGS);
  }

  /** A packet is sent, an acknowledgement comes in, the timeouts are swept, or the statistics are read and
      released. */
  datatype BookOp =
    | Send(d: SendData, sendtime: Timeval, sleeptime: u32)
    | Ack(r: AckReceived, received: Timeval, from: Addr)
    | Sweeping(now: Timeval)
    | Release

  /** The book afterwards and what was resent. An acknowledgement that finds no entry is dropped. */
  function BookStep(b: Book, op: BookOp): (Book, seq<SendData>) {
    match op
    case Send(d, sendtime, sleeptime) => (b.(table := Append(b.table, d, sendtime, sleeptime)), [])
    case Ack(r, received, from) =>
      var (t, e) := Pop(b.table, r.seqno, from);
      if e.None? then (b, []) else OnAck(b.(table := t), e.value, r, received, from)
    case Sweeping(now) =>
      (b.(table := Sweep(b.table, now, Timeouts(b.peers))), SweepResends(b.table, now, Timeouts(b.peers)))
    case Release => (Released(b), [])
  }

  function BookRun(ops: seq<BookOp>): Book {
    if ops == [] then Book(EMPTY, map[], None) else BookStep(BookRun(ops[..|ops| - 1]), ops[|ops| - 1]).0
  }

  /** The record of the acknowledgement, when it is accepted. */
  function Accepted(b: Book, op: BookOp): Option<AckStore> {
    if !op.Ack? then None
    else
      var e := Pop(b.table, op.r.seqno, op.from).1;
      if e.None? then None else Some(RecordOf(e.value, op.r, op.received))
  }

  /** The same, when it comes from the given peer. */
  function AcceptedBy(b: Book, op: BookOp, a: Addr): Option<AckStore> {
    if op.Ack? && op.from == a then Accepted(b, op) else None
  }

  /** Where the operations after the last release begin. */
  function LastRelease(ops: seq<BookOp>): (i: nat)
    ensures i <= |ops|
  {
    if ops == [] then 0 else if ops[|ops| - 1].Release? then |ops| else LastRelease(ops[..|ops| - 1])
  }

  /** How many packets the acknowledgements of a peer have caused to be resent, from a point of the run on. */
  function ResentFor(ops: seq<BookOp>, a: Addr, start: nat): nat {
    if |ops| <= start then 0
    else
      var before, op := ops[..|ops| - 1], ops[|ops| - 1];
      ResentFor(before, a, start) + if op.Ack? && op.from == a then |BookStep(BookRun(before), op).1| else 0
  }

  /** How many of a peer's acknowledgements found their packet, from a point of the run on. */
  function AcceptedFrom(ops: seq<BookOp>, a: Addr, start: nat): nat {
    if |ops| <= start then 0
    else
      var before, op := ops[..|ops| - 1], ops[|ops| - 1];
      AcceptedFrom(before, a, start) + if AcceptedBy(BookRun(before), op, a).Some? then 1 else 0
  }

  /** The records of all of a peer's accepted acknowledgements, newest first. */
  function Records(ops: seq<BookOp>, a: Addr): seq<AckStore> {
    if ops == [] then []
    else
      var before, op := ops[..|ops| - 1], ops[|ops| - 1];
      var x := AcceptedBy(BookRun(before), op, a);
      (if x.Some? then [x.value] else []) + Records(before, a)
  }

  /** The records of all acknowledgements accepted from a point of the run on, newest first. */
  function AllRecords(ops: seq<BookOp>, start: nat): seq<AckStore> {
    if |ops| <= start then []
    else
      var before, op := ops[..|ops| - 1], ops[|ops| - 1];
      var x := Accepted(BookRun(before), op);
      (if x.Some? then [x.value] else []) + AllRecords(before, start)
  }

  /** The record that was a peer's latest when an acknowledgement of the peer last caused a resend. */
  function BeforeError(ops: seq<BookOp>, a: Addr): Option<AckStore> {
    if ops == [] then None
    else
      var before, op := ops[..|ops| - 1], ops[|ops| - 1];
      if op.Ack? && op.from == a && BookStep(BookRun(before), op).1 != [] && Records(before, a) != []
      then Some(Records(before, a)[0])
      else BeforeError(before, a)
  }

  predicate SendsWantAcks(ops: seq<BookOp>) {
    forall i :: 0 <= i < |ops| && ops[i].Send? ==> NeedAck(ops[i].d.packet.flags)
  }

  /** A popped entry belongs to the peer it was popped for. */
  lemma PoppedFor(t: Table, seqno: u16, from: Addr)
    requires TableInv(t, None)
    ensures Pop(t, seqno, from).1.Some? ==> Pop(t, seqno, from).1.value.d.to == from
  {
    if Pop(t, seqno, from).1.Some? {
      var n := FindPeer(t.peers, from);
      assert PeerOk(t.peers[n], t.appends, None);
      assert EntryOk(t.peers[n].nacks[FindSeq(t.peers[n].nacks, seqno)], from, t.appends);
    }
  }

  lemma BookStepKeepsInv(b: Book, op: BookOp)
    requires TableInv(b.table, None) && (op.Send? ==> NeedAck(op.d.packet.flags))
    ensures TableInv(BookStep(b, op).0.table, None)
  {
    match op
    case Send(d, sendtime, sleeptime) => AppendKeepsInv(b.table, d, sendtime, sleeptime, None);
    case Ack(r, received, from) =>
      PopKeepsInv(b.table, r.seqno, from, None);
      var (t, e) := Pop(b.table, r.seqno, from);
      if e.Some? {
        FilterPeerKeepsInv(t, e.value.d.to, NotCancelled(e.value, r.cons), None);
        FilterPeerKeepsInv(RemoveLost(t, e.value, r.cons), e.value.d.to, NotOlder(e.value), None);
        FilterPeerKeepsInv(t, e.value.d.to, NotOlder(e.value), None);
      }
    case Sweeping(now) => SweepKeepsInv(b.table, now, Timeouts(b.peers), None);
    case Release =>
  }

  /** Over every run the invariant of the table holds. */
  lemma {:induction false} BookInv(ops: seq<BookOp>)
    requires SendsWantAcks(ops)
    ensures TableInv(BookRun(ops).table, None)
  {
    if ops != [] {
      BookInv(ops[..|ops| - 1]);
      BookStepKeepsInv(BookRun(ops[..|ops| - 1]), ops[|ops| - 1]);
    }
  }

  /** What one operation does to the statistics of a peer. */
  lemma PeerStep(b: Book, op: BookOp, a: Addr)
    requires TableInv(b.table, None)
    ensures var (b', sent) := BookStep(b, op);
            var x := AcceptedBy(b, op, a);
            if x.Some? then
              && a in b'.peers
              && b'.peers[a] == (if a in b.peers then NextStats(b.peers[a], x.value, |sent|) else FirstStats(x.value))
              && (a !in b.peers ==> sent == [])
            else
              && (a in b'.peers <==> a in b.peers)
              && (op.Ack? && op.from == a ==> sent == [])
              && (a in b.peers ==>
                    b'.peers[a] == if op.Release? then b.peers[a].(lastAcked := 0, lastError := 0) else b.peers[a])
  {
    if op.Ack? {
      PopKeepsInv(b.table, op.r.seqno, op.from, None);
      PoppedFor(b.table, op.r.seqno, op.from);
      var (t, e) := Pop(b.table, op.r.seqno, op.from);
      if e.Some? { ErrorsAreResends(b.(table := t), e.value, op.r, op.received); }
    }
  }

  lemma {:induction false} TotalsOverRuns(ops: seq<BookOp>, a: Addr)
    requires SendsWantAcks(ops)
    ensures a in BookRun(ops).peers <==> AcceptedFrom(ops, a, 0) > 0
    ensures a in BookRun(ops).peers ==>
              var p := BookRun(ops).peers[a];
              p.totalErrors == ResentFor(ops, a, 0) && p.totalAcked == AcceptedFrom(ops, a, 0)
    ensures a !in BookRun(ops).peers ==> ResentFor(ops, a, 0) == 0
  {
    if ops != [] {
      var before, op := ops[..|ops| - 1], ops[|ops| - 1];
      TotalsOverRuns(before, a);
      BookInv(before);
      PeerStep(BookRun(before), op, a);
    }
  }

  lemma {:induction false} LastsOverRuns(ops: seq<BookOp>, a: Addr)
    requires SendsWantAcks(ops)
    ensures var resent, accepted := ResentFor(ops, a, LastRelease(ops)), AcceptedFrom(ops, a, LastRelease(ops));
            if a in BookRun(ops).peers
            then BookRun(ops).peers[a].lastError == resent && BookRun(ops).peers[a].lastAcked == accepted
            else resent == accepted == 0
  {
    if ops != [] {
      var before, op := ops[..|ops| - 1], ops[|ops| - 1];
      LastsOverRuns(before, a);
      BookInv(before);
      PeerStep(BookRun(before), op, a);
    }
  }

  /** Over every run a peer's error count is exactly the number of packets its acknowledgements have
      caused to be resent, and its acknowledged count the number of acknowledgements accepted from it,
      since the start and since the last release; a peer has statistics exactly when one was accepted. */
  lemma CountsOverRuns(ops: seq<BookOp>, a: Addr)
    requires SendsWantAcks(ops)
    ensures a in BookRun(ops).peers <==> AcceptedFrom(ops, a, 0) > 0
    ensures a in BookRun(ops).peers ==>
              var p, last := BookRun(ops).peers[a], LastRelease(ops);
              && p.totalErrors == ResentFor(ops, a, 0) && p.totalAcked == AcceptedFrom(ops, a, 0)
              && p.lastError == ResentFor(ops, a, last) && p.lastAcked == AcceptedFrom(ops, a, last)
    ensures a !in BookRun(ops).peers ==> ResentFor(ops, a, 0) == 0
  {
    TotalsOverRuns(ops, a);
    LastsOverRuns(ops, a);
  }

  /** The minima are the least round and single trip times among all a peer's acknowledged packets, and the
      current values are those of the latest. */
  predicate StatsOk(p: PeerStats, store: seq<AckStore>) {
    && p.store == store && |store| > 0
    && (forall x :: x in store ==> !TimerLess(x.rtt, p.minRtt) && !TimerLess(x.stt, p.minStt))
    && (exists x :: x in store && x.rtt == p.minRtt) && (exists x :: x in store && x.stt == p.minStt)
    && p.avgRtt == store[0].rtt && p.avgStt == store[0].stt && p.lastRtt == TimeToUsec(store[0].rtt)
  }

  lemma FirstStatsOk(x: AckStore)
    ensures StatsOk(FirstStats(x), [x])
  {
    assert x in [x];
  }

  lemma NextStatsOk(p: PeerStats, store: seq<AckStore>, x: AckStore, errors: nat)
    requires StatsOk(p, store)
    ensures StatsOk(NextStats(p, x, errors), [x] + store)
  {
    var all := [x] + store;
    assert x in all && forall y :: y in all <==> y == x || y in store;
    var a :| a in store && a.rtt == p.minRtt;
    var b :| b in store && b.stt == p.minStt;
    assert (if TimerLess(x.rtt, p.minRtt) then x else a) in all;
    assert (if TimerLess(x.stt, p.minStt) then x else b) in all;
  }

  lemma StatsStep(b: Book, op: BookOp, a: Addr, store: seq<AckStore>)
    requires if a in b.peers then StatsOk(b.peers[a], store) else store == []
    ensures var peers, x := BookStep(b, op).0.peers, AcceptedBy(b, op, a);
            var all := (if x.Some? then [x.value] else []) + store;
            if a in peers then StatsOk(peers[a], all) else all == []
  {
    var x := AcceptedBy(b, op, a);
    if x.Some? {
      FirstStatsOk(x.value);
      assert [x.value] + [] == [x.value];
      if a in b.peers {
        var (t, e) := Pop(b.table, op.r.seqno, a);
        NextStatsOk(b.peers[a], store, x.value, Errors(RemoveLost(t, e.value, op.r.cons), e.value));
      }
    } else {
      assert [] + store == store;
    }
  }

  /** Over every run a peer's stored records are exactly those of its accepted acknowledgements, newest
      first; the minima and current values of its statistics are those of these records. */
  lemma {:induction false} StatsOverRuns(ops: seq<BookOp>, a: Addr)
    ensures a in BookRun(ops).peers <==> Records(ops, a) != []
    ensures a in BookRun(ops).peers ==> StatsOk(BookRun(ops).peers[a], Records(ops, a))
  {
    if ops != [] {
      StatsOverRuns(ops[..|ops| - 1], a);
      StatsStep(BookRun(ops[..|ops| - 1]), ops[|ops| - 1], a, Records(ops[..|ops| - 1], a));
    }
  }

  /** The trip times kept with the last error are those of the record before it. */
  predicate ErrorTimesOk(p: PeerStats, before: Option<AckStore>) {
    match before
    case None => p.errRtt == p.errStt == Timeval(0, 0)
    case Some(y) => p.errRtt == y.rtt && p.errStt == y.stt
  }

  /** Over every run the trip times kept with a peer's last error are those of the record that was its
      latest when one of its acknowledgements last caused a resend. */
  lemma {:induction false} ErrorTimesOverRuns(ops: seq<BookOp>, a: Addr)
    requires SendsWantAcks(ops)
    ensures if a in BookRun(ops).peers then ErrorTimesOk(BookRun(ops).peers[a], BeforeError(ops, a))
            else BeforeError(ops, a).None?
  {
    if ops != [] {
      var before, op := ops[..|ops| - 1], ops[|ops| - 1];
      ErrorTimesOverRuns(before, a);
      StatsOverRuns(before, a);
      BookInv(before);
      PeerStep(BookRun(before), op, a);
    }
  }

  /** The record is the one with the largest number. */
  predicate HighestOk(h: Option<AckStore>, xs: seq<AckStore>) {
    match h
    case None => xs == []
    case Some(y) => y in xs && forall x :: x in xs ==> x.seqno <= y.seqno
  }

  lemma HighestStep(h: Option<AckStore>, xs: seq<AckStore>, x: AckStore)
    requires HighestOk(h, xs)
    ensures HighestOk(Highest(h, x), [x] + xs)
  {
    assert x in [x] + xs && forall y :: y in [x] + xs <==> y == x || y in xs;
  }

  /** Over every run highest_seq is the record with the largest sequence number among those of all
      acknowledgements accepted since the last release. */
  lemma {:induction false} HighestOverRuns(ops: seq<BookOp>)
    ensures HighestOk(BookRun(ops).highest, AllRecords(ops, LastRelease(ops)))
  {
    if ops != [] {
      var before, op := ops[..|ops| - 1], ops[|ops| - 1];
      HighestOverRuns(before);
      var x := Accepted(BookRun(before), op);
      if x.Some? { HighestStep(BookRun(before).highest, AllRecords(before, LastRelease(before)), x.value); }
    }
  }

  /** Nothing is resent by a timeout within 10 milliseconds of being sent, unless its peer never
      acknowledged anything. */
  lemma TimeoutNotEarly(b: Book, e: Entry, now: Timeval)
    requires Representable(e.sendtime) && Representable(now) && e.d.to in b.peers
    requires TimeToUsec(e.sendtime) + TimeoutValue(b.peers, e.d.to) < 0x1_0000_0000_0000_0000
    ensures Expired(e, now, TimeoutValue(b.peers, e.d.to)) ==> TimeToUsec(now) - TimeToUsec(e.sendtime) > 10_000
  {
    NoEarlyResend(e, now, TimeoutValue(b.peers, e.d.to));
  }
}
