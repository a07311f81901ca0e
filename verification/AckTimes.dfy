/** What the per-peer statistics mean: the records, minima and timeouts of ack_received.c in terms of when
    packets were sent, stamped by the peer and acknowledged, over whole runs. */
module AckTimes {
  import opened Basics
  import opened NetEncoder
  import opened NackSpec
  import opened NackProps
  import opened AckMeaning
  import opened AckReceiver

  // ---------------------------------------------------------------- entries and the packets sent

  /** The packets sent in a run, in order. */
  function SendsOf(ops: seq<BookOp>): (r: seq<BookOp>)
    ensures forall op :: op in r ==> op.Send?
  {
    if ops == [] then []
    else SendsOf(ops[..|ops| - 1]) + if ops[|ops| - 1].Send? then [ops[|ops| - 1]] else []
  }

  lemma BookStepMembers(b: Book, op: BookOp, e: Entry)
    requires InTable(BookStep(b, op).0.table, e)
    ensures InTable(b.table, e) || (op.Send? && e == NewEntry(b.table, op.d, op.sendtime, op.sleeptime))
    ensures BookStep(b, op).0.table.appends == b.table.appends + if op.Send? then 1 else 0
  {
    match op
    case Send(d, sendtime, sleeptime) => AppendMembers(b.table, d, sendtime, sleeptime, e);
    case Ack(r, received, from) =>
      var (t, popped) := Pop(b.table, r.seqno, from);
      PopMembers(b.table, r.seqno, from, e);
      if popped.Some? {
        var ack := popped.value;
        FilterPeerMembers(t, ack.d.to, NotOlder(ack), e);
        FilterPeerMembers(t, ack.d.to, NotCancelled(ack, r.cons), e);
        FilterPeerMembers(RemoveLost(t, ack, r.cons), ack.d.to, NotOlder(ack), e);
      }
    case Sweeping(now) => SweepMembers(b.table, now, Timeouts(b.peers), e);
    case Release =>
  }

  lemma {:induction false} AppendsAreSends(ops: seq<BookOp>)
    ensures BookRun(ops).table.appends == |SendsOf(ops)|
  {
    if ops != [] { AppendsAreSends(ops[..|ops| - 1]); }
  }

  /** The entry was made by the packet sent as number `serial` of the run. */
  predicate MadeBy(e: Entry, sends: seq<BookOp>) {
    && 1 <= e.serial <= |sends| && e.seqno == e.serial % 0x1_0000
    && sends[e.serial - 1] == Send(e.d, e.sendtime, e.sleeptime)
  }

  /** Over every run, every outstanding entry is what one of the packets sent has left. */
  lemma {:induction false} EntryFromSend(ops: seq<BookOp>, e: Entry)
    requires InTable(BookRun(ops).table, e)
    ensures MadeBy(e, SendsOf(ops))
  {
    if ops != [] {
      var before, op := ops[..|ops| - 1], ops[|ops| - 1];
      BookStepMembers(BookRun(before), op, e);
      AppendsAreSends(before);
      if InTable(BookRun(before).table, e) { EntryFromSend(before, e); }
    }
  }

  // ---------------------------------------------------------------- trips

  /** The way of an acknowledged packet: its number among the packets sent, when it was sent, what the peer
      stamped on the acknowledgement, and when that came in. */
  datatype Trip = Trip(serial: nat, sent: Timeval, stamped: Timeval, received: Timeval, sleeptime: u32)

  function RoundTrip(t: Trip): int { Micros(t.received) - Micros(t.sent) }
  function SingleTrip(t: Trip): int { Micros(t.stamped) - Micros(t.sent) }

  /** The trip an acknowledgement ends, when it is accepted: the times come from the operations of the run. */
  function TripEnded(t: Table, sends: seq<BookOp>, op: BookOp, a: Addr): Option<Trip>
    requires forall s :: s in sends ==> s.Send?
  {
    if !op.Ack? || op.from != a then None
    else
      var popped := Pop(t, op.r.seqno, a).1;
      if popped.None? || !(1 <= popped.value.serial <= |sends|) then None
      else
        var n := popped.value.serial;
        var send := sends[n - 1];
        Some(Trip(n, send.sendtime, Timeval(op.r.sec, op.r.usec), op.received, send.sleeptime))
  }

  /** All trips of a peer's packets in a run, the latest first. */
  function Trips(ops: seq<BookOp>, a: Addr): seq<Trip> {
    if ops == [] then []
    else
      var before := ops[..|ops| - 1];
      var t := TripEnded(BookRun(before).table, SendsOf(before), ops[|ops| - 1], a);
      (if t.Some? then [t.value] else []) + Trips(before, a)
  }

  predicate TripNormal(t: Trip) { Normal(t.sent) && Normal(t.stamped) && Normal(t.received) }

  /** What a record says of a trip. */
  predicate Describes(x: AckStore, t: Trip) {
    && x.seqno == t.serial % 0x1_0000 && x.sent == t.sent && x.sleeptime == t.sleeptime
    && (TripNormal(t) ==>
          && Normal(x.rtt) && Micros(x.rtt) == RoundTrip(t)
          && Normal(x.stt) && Micros(x.stt) == SingleTrip(t))
  }

  lemma EntryDescribes(e: Entry, r: AckReceived, received: Timeval)
    requires e.seqno == e.serial % 0x1_0000
    ensures Describes(RecordOf(e, r, received),
                      Trip(e.serial, e.sendtime, Timeval(r.sec, r.usec), received, e.sleeptime))
  {
    var stamped := Timeval(r.sec, r.usec);
    if Normal(e.sendtime) && Normal(received) { MicrosOf(received, e.sendtime); }
    if Normal(e.sendtime) && Normal(stamped) { MicrosOf(stamped, e.sendtime); }
  }

  lemma RecordDescribes(b: Book, sends: seq<BookOp>, op: BookOp, a: Addr)
    requires (forall s :: s in sends ==> s.Send?) && forall e :: InTable(b.table, e) ==> MadeBy(e, sends)
    ensures var x, t := AcceptedBy(b, op, a), TripEnded(b.table, sends, op, a);
            (x.Some? <==> t.Some?) && (x.Some? ==> Describes(x.value, t.value))
  {
    if op.Ack? && op.from == a && Pop(b.table, op.r.seqno, a).1.Some? {
      var e := Pop(b.table, op.r.seqno, a).1.value;
      PopMembers(b.table, op.r.seqno, a, e);
      assert MadeBy(e, sends);
      EntryDescribes(e, op.r, op.received);
    }
  }

  predicate AllDescribe(xs: seq<AckStore>, ts: seq<Trip>) {
    |xs| == |ts| && forall i :: 0 <= i < |xs| ==> Describes(xs[i], ts[i])
  }

  /** Over every run the stored records of a peer describe exactly the trips of its acknowledged packets:
      number, send time and sleep of the packet as sent, and the two trip times. */
  lemma {:induction false} RecordsDescribeTrips(ops: seq<BookOp>, a: Addr)
    ensures AllDescribe(Records(ops, a), Trips(ops, a))
  {
    if ops != [] {
      var before := ops[..|ops| - 1];
      RecordsDescribeTrips(before, a);
      forall e | InTable(BookRun(before).table, e) ensures MadeBy(e, SendsOf(before)) { EntryFromSend(before, e); }
      RecordDescribes(BookRun(before), SendsOf(before), ops[|ops| - 1], a);
    }
  }

  predicate AllNormal(ts: seq<Trip>) { forall t :: t in ts ==> TripNormal(t) }

  /** A value is the least of the round trips, or of the single trips. */
  predicate LeastRound(v: int, ts: seq<Trip>) {
    (forall t :: t in ts ==> v <= RoundTrip(t)) && exists t :: t in ts && v == RoundTrip(t)
  }
  predicate LeastSingle(v: int, ts: seq<Trip>) {
    (forall t :: t in ts ==> v <= SingleTrip(t)) && exists t :: t in ts && v == SingleTrip(t)
  }

  lemma LeastOfRecords(p: PeerStats, xs: seq<AckStore>, ts: seq<Trip>)
    requires StatsOk(p, xs) && AllDescribe(xs, ts) && AllNormal(ts)
    ensures LeastRound(Micros(p.minRtt), ts) && LeastSingle(Micros(p.minStt), ts)
  {
    var i :| 0 <= i < |xs| && xs[i].rtt == p.minRtt;
    var j :| 0 <= j < |xs| && xs[j].stt == p.minStt;
    assert ts[i] in ts && ts[j] in ts && Describes(xs[i], ts[i]) && Describes(xs[j], ts[j]);
    forall t | t in ts ensures Micros(p.minRtt) <= RoundTrip(t) && Micros(p.minStt) <= SingleTrip(t) {
      var n :| 0 <= n < |ts| && ts[n] == t;
      assert xs[n] in xs && Describes(xs[n], ts[n]);
      MicrosOf(xs[n].rtt, p.minRtt);
      MicrosOf(xs[n].stt, p.minStt);
    }
  }

  lemma LatestOfRecords(p: PeerStats, xs: seq<AckStore>, ts: seq<Trip>)
    requires StatsOk(p, xs) && AllDescribe(xs, ts) && AllNormal(ts)
    ensures Micros(p.avgRtt) == RoundTrip(ts[0]) && Micros(p.avgStt) == SingleTrip(ts[0])
    ensures p.lastRtt == RoundTrip(ts[0]) % 0x1_0000_0000_0000_0000
  {
    assert ts[0] in ts && Describes(xs[0], ts[0]);
    MicrosOf(xs[0].rtt, xs[0].rtt);
  }

  /** Over every run a peer's statistics are those of the trips of its acknowledged packets: the minima are
      the least round trip and the least single trip, and the current values are those of the latest. */
  lemma StatsAreTripTimes(ops: seq<BookOp>, a: Addr)
    requires AllNormal(Trips(ops, a))
    ensures a in BookRun(ops).peers <==> Trips(ops, a) != []
    ensures a in BookRun(ops).peers ==>
              var p, ts := BookRun(ops).peers[a], Trips(ops, a);
              && LeastRound(Micros(p.minRtt), ts) && LeastSingle(Micros(p.minStt), ts)
              && Micros(p.avgRtt) == RoundTrip(ts[0]) && Micros(p.avgStt) == SingleTrip(ts[0])
              && p.lastRtt == RoundTrip(ts[0]) % 0x1_0000_0000_0000_0000
  {
    StatsOverRuns(ops, a);
    RecordsDescribeTrips(ops, a);
    if a in BookRun(ops).peers {
      var p, xs, ts := BookRun(ops).peers[a], Records(ops, a), Trips(ops, a);
      LeastOfRecords(p, xs, ts);
      LatestOfRecords(p, xs, ts);
    }
  }

  // ---------------------------------------------------------------- timeouts

  /** The packet is overdue: a peer that has acknowledged something gets 1.2 times its latest round trip and
      at least 10 milliseconds, any other peer nothing. */
  predicate Overtime(age: int, ts: seq<Trip>) {
    if ts == [] then age > 0 else age > 10_000 && 10 * age > 12 * RoundTrip(ts[0])
  }

  lemma TimeoutIsOvertime(ops: seq<BookOp>, a: Addr, age: int)
    requires AllNormal(Trips(ops, a))
    requires Trips(ops, a) != [] ==> 0 <= RoundTrip(Trips(ops, a)[0]) < 0x1_0000_0000_0000_0000
    ensures age > TimeoutValue(BookRun(ops).peers, a) <==> Overtime(age, Trips(ops, a))
  {
    StatsAreTripTimes(ops, a);
    if a in BookRun(ops).peers {
      Fits64(RoundTrip(Trips(ops, a)[0]));
      TwelveTenths(age, RoundTrip(Trips(ops, a)[0]));
    }
  }

  lemma TwelveTenths(age: int, rtt: nat)
    ensures age > (if rtt * 12 / 10 > 10_000 then rtt * 12 / 10 else 10_000) <==> age > 10_000 && 10 * age > 12 * rtt
  {
  }

  /** Over every run a sweep takes an outstanding packet out, and hands its marked copy to send_data, if and
      only if it is overdue by the latest trip of its peer. */
  lemma SweepTakesOverdue(ops: seq<BookOp>, now: Timeval, e: Entry)
    requires SendsWantAcks(ops) && InTable(BookRun(ops).table, e)
    requires AllNormal(Trips(ops, e.d.to))
    requires Trips(ops, e.d.to) != [] ==> 0 <= RoundTrip(Trips(ops, e.d.to)[0]) < 0x1_0000_0000_0000_0000
    requires Dated(e, now, TimeoutValue(BookRun(ops).peers, e.d.to))
    ensures var (b, sent) := BookStep(BookRun(ops), Sweeping(now));
            && (!InTable(b.table, e) <==> Overtime(Age(e, now), Trips(ops, e.d.to)))
            && (Overtime(Age(e, now), Trips(ops, e.d.to)) ==> Resend(e.d) in sent)
  {
    BookInv(ops);
    TimeoutIsOvertime(ops, e.d.to, Age(e, now));
    TakenIffAged(BookRun(ops).table, now, Timeouts(BookRun(ops).peers), e);
  }

  lemma TakenIffAged(t: Table, now: Timeval, timeout: Addr -> nat, e: Entry)
    requires TableInv(t, None) && InTable(t, e) && Dated(e, now, timeout(e.d.to))
    ensures !InTable(Sweep(t, now, timeout), e) <==> Age(e, now) > timeout(e.d.to)
    ensures Age(e, now) > timeout(e.d.to) ==> Resend(e.d) in SweepResends(t, now, timeout)
  {
    OverdueIsGone(t, now, timeout, e);
    GoneIffExpired(t, now, timeout, e);
    SweepPartitions(t, now, timeout);
    MarkedCopies(ExpiredEntries(t.peers, now, timeout), SweepResends(t, now, timeout), Resend(e.d));
  }

  lemma GoneIffExpired(t: Table, now: Timeval, timeout: Addr -> nat, e: Entry)
    requires TableInv(t, None) && InTable(t, e)
    ensures !InTable(Sweep(t, now, timeout), e) <==> e in ExpiredEntries(t.peers, now, timeout)
  {
    var t' := Sweep(t, now, timeout);
    var late := Expired(e, now, timeout(e.d.to));
    SweepMembers(t, now, timeout, e);
    ExpiredMembers(t.peers, now, timeout, e);
    forall i | 0 <= i < |t.peers| && e in t.peers[i].nacks
      ensures t.peers[i].addr == e.d.to && (e in t'.peers[i].nacks <==> !late)
    {
      assert PeerOk(t.peers[i], t.appends, None);
      FilterMembers(t.peers[i].nacks, NotExpired(now, timeout(e.d.to)));
    }
    forall i | 0 <= i < |t.peers| && e in t'.peers[i].nacks ensures !late {
      FilterMembers(t.peers[i].nacks, NotExpired(now, timeout(t.peers[i].addr)));
      assert e in t.peers[i].nacks;
    }
  }
}
