/** What the operations on the unacknowledged packets keep and achieve (ack.c, ack_received.c). */
module NackProps {
  import opened Basics
  import opened NackSpec

  // ---------------------------------------------------------------- the invariant of the table

  predicate EntryOk(e: Entry, a: Addr, appends: nat) {
    && e.d.to == a && NeedAck(e.d.packet.flags)
    && 1 <= e.serial <= appends && e.seqno == e.serial % 0x1_0000
  }

  ghost predicate Ordered(es: seq<Entry>, r: (Entry, Entry) -> bool) {
    forall i, j :: 0 <= i < j < |es| ==> r(es[i], es[j])
  }

  function Newer(): (Entry, Entry) -> bool { (a: Entry, b: Entry) => a.serial > b.serial }
  function NotSentBefore(): (Entry, Entry) -> bool { (a: Entry, b: Entry) => !TimerLess(a.sendtime, b.sendtime) }

  /** Every entry of a peer's list has the peer's address, wants an acknowledgement and has its own
      serial, and the list is ordered newest first. When a clock is given, the list is also ordered by
      send time and nothing in it was sent after the clock. */
  ghost predicate PeerOk(p: NackPeer, appends: nat, clock: Option<Timeval>) {
    && (forall e :: e in p.nacks ==>
          EntryOk(e, p.addr, appends) && (clock.Some? ==> !TimerLess(clock.value, e.sendtime)))
    && Ordered(p.nacks, Newer())
    && (clock.Some? ==> Ordered(p.nacks, NotSentBefore()))
  }

  /** Two different peers have different addresses, and no serial is in both their lists. */
  ghost predicate Apart(p: NackPeer, q: NackPeer) {
    p.addr != q.addr && forall x, y :: x in p.nacks && y in q.nacks ==> x.serial != y.serial
  }

  ghost predicate TableInv(t: Table, clock: Option<Timeval>) {
    && (forall i :: 0 <= i < |t.peers| ==> PeerOk(t.peers[i], t.appends, clock))
    && PeersApart(t.peers)
  }

  ghost predicate PeersApart(peers: seq<NackPeer>) {
    forall i, j :: 0 <= i < j < |peers| ==> Apart(peers[i], peers[j])
  }

  /** The list of a peer has lost entries and gained none. */
  ghost predicate Shrunk(p: NackPeer, q: NackPeer) { q.addr == p.addr && forall x :: x in q.nacks ==> x in p.nacks }

  lemma ShrinkingKeepsApart(peers: seq<NackPeer>, peers': seq<NackPeer>)
    requires PeersApart(peers) && |peers'| == |peers| && forall i :: 0 <= i < |peers| ==> Shrunk(peers[i], peers'[i])
    ensures PeersApart(peers')
  {
    forall i, j | 0 <= i < j < |peers'| ensures Apart(peers'[i], peers'[j]) {
      assert Apart(peers[i], peers[j]) && Shrunk(peers[i], peers'[i]) && Shrunk(peers[j], peers'[j]);
    }
  }

  lemma WithoutClock(t: Table, clock: Option<Timeval>)
    requires TableInv(t, clock)
    ensures TableInv(t, None)
  {
    assert forall i :: 0 <= i < |t.peers| ==>
      PeerOk(t.peers[i], t.appends, clock) && PeerOk(t.peers[i], t.appends, None);
  }

  lemma {:induction false} FilterKeepsOrder(es: seq<Entry>, keep: Entry -> bool, r: (Entry, Entry) -> bool)
    requires Ordered(es, r)
    ensures Ordered(Filter(es, keep), r)
  {
    if es != [] {
      FilterKeepsOrder(es[1..], keep, r);
      var tail := Filter(es[1..], keep);
      FilterMembers(es[1..], keep);
      forall e | e in tail ensures r(es[0], e) {
        var j :| 0 <= j < |es[1..]| && es[1..][j] == e;
        assert es[j + 1] == e;
      }
    }
  }

  /** The operations on the table, with the arguments they get. resend_ooo_nacks leaves the table as
      remove_ooo_nacks does. */
  datatype NackOp =
    | DoAppend(d: SendData, sendtime: Timeval, sleeptime: u32)
    | DoPop(seqno: u16, from: Addr)
    | DoRemoveOoo(ack: Entry)
    | DoRemoveLost(ack: Entry, cons: u16)
    | DoSweep(now: Timeval, timeout: Addr -> nat)

  function Apply(t: Table, op: NackOp): Table {
    match op
    case DoAppend(d, sendtime, sleeptime) => Append(t, d, sendtime, sleeptime)
    case DoPop(seqno, from) => Pop(t, seqno, from).0
    case DoRemoveOoo(ack) => RemoveOoo(t, ack)
    case DoRemoveLost(ack, cons) => RemoveLost(t, ack, cons)
    case DoSweep(now, timeout) => Sweep(t, now, timeout)
  }

  /** packet_send appends only packets that want an acknowledgement; a clock, when given, does not go back. */
  predicate OpAllowed(op: NackOp, clock: Option<Timeval>) {
    op.DoAppend? ==> NeedAck(op.d.packet.flags) && (clock.Some? ==> !TimerLess(op.sendtime, clock.value))
  }

  function ClockAfter(op: NackOp, clock: Option<Timeval>): Option<Timeval> {
    if op.DoAppend? && clock.Some? then Some(op.sendtime) else clock
  }

  lemma FilteredPeerOk(p: NackPeer, keep: Entry -> bool, appends: nat, clock: Option<Timeval>)
    requires PeerOk(p, appends, clock)
    ensures PeerOk(NackPeer(p.addr, Filter(p.nacks, keep)), appends, clock)
    ensures Shrunk(p, NackPeer(p.addr, Filter(p.nacks, keep)))
  {
    FilterMembers(p.nacks, keep);
    FilterKeepsOrder(p.nacks, keep, Newer());
    if clock.Some? { FilterKeepsOrder(p.nacks, keep, NotSentBefore()); }
  }

  lemma RemovalKeepsOrder(es: seq<Entry>, j: nat, r: (Entry, Entry) -> bool)
    requires Ordered(es, r) && j < |es|
    ensures Ordered(es[..j] + es[j + 1..], r)
  {
    var rest := es[..j] + es[j + 1..];
    assert forall i :: 0 <= i < |rest| ==> rest[i] == if i < j then es[i] else es[i + 1];
  }

  lemma PrependKeepsOrder(e: Entry, es: seq<Entry>, r: (Entry, Entry) -> bool)
    requires Ordered(es, r) && forall x :: x in es ==> r(e, x)
    ensures Ordered([e] + es, r)
  {
  }

  lemma PrependedPeerOk(p: NackPeer, e: Entry, appends: nat, clock: Option<Timeval>, clock': Option<Timeval>)
    requires PeerOk(p, appends, clock) && EntryOk(e, p.addr, appends + 1) && e.serial == appends + 1
    requires clock'.Some? ==> clock.Some? && !TimerLess(clock'.value, clock.value) && clock'.value == e.sendtime
    ensures PeerOk(NackPeer(p.addr, [e] + p.nacks), appends + 1, clock')
    ensures PeerOk(p, appends + 1, clock')
  {
    forall x | x in p.nacks ensures Newer()(e, x) && (clock'.Some? ==> NotSentBefore()(e, x)) {
      assert EntryOk(x, p.addr, appends);
    }
    PrependKeepsOrder(e, p.nacks, Newer());
    if clock'.Some? { PrependKeepsOrder(e, p.nacks, NotSentBefore()); }
  }

  /** The new serial is larger than all that are there. */
  lemma AppendKeepsApart(t: Table, d: SendData, sendtime: Timeval, sleeptime: u32)
    requires PeersApart(t.peers)
    requires forall i, x :: 0 <= i < |t.peers| && x in t.peers[i].nacks ==> x.serial <= t.appends
    ensures PeersApart(Append(t, d, sendtime, sleeptime).peers)
  {
    var ps, qs := t.peers, Append(t, d, sendtime, sleeptime).peers;
    var e := NewEntry(t, d, sendtime, sleeptime);
    var n := FindPeer(ps, d.to);
    forall i, j | 0 <= i < j < |qs| ensures Apart(qs[i], qs[j]) {
      if n < |ps| {
        assert Apart(ps[i], ps[j]);
        assert forall m, x :: 0 <= m < |ps| && x in qs[m].nacks ==> x in ps[m].nacks || (m == n && x == e);
      } else {
        assert qs[j] == ps[j - 1] && (i > 0 ==> Apart(ps[i - 1], ps[j - 1]));
      }
    }
  }

  lemma AppendKeepsInv(t: Table, d: SendData, sendtime: Timeval, sleeptime: u32, clock: Option<Timeval>)
    requires TableInv(t, clock) && OpAllowed(DoAppend(d, sendtime, sleeptime), clock)
    ensures TableInv(Append(t, d, sendtime, sleeptime), ClockAfter(DoAppend(d, sendtime, sleeptime), clock))
  {
    var t' := Append(t, d, sendtime, sleeptime);
    var clock' := ClockAfter(DoAppend(d, sendtime, sleeptime), clock);
    var e := NewEntry(t, d, sendtime, sleeptime);
    var n := FindPeer(t.peers, d.to);
    forall i | 0 <= i < |t.peers| ensures PeerOk(t.peers[i], t'.appends, clock') {
      PrependedPeerOk(t.peers[i], e.(d := e.d.(to := t.peers[i].addr)), t.appends, clock, clock');
    }
    AppendKeepsApart(t, d, sendtime, sleeptime);
    if n < |t.peers| {
      PrependedPeerOk(t.peers[n], e, t.appends, clock, clock');
      assert PeerOk(t'.peers[n], t'.appends, clock');
    } else {
      assert PeerOk(t'.peers[0], t'.appends, clock');
      assert forall i :: 0 < i < |t'.peers| ==> t'.peers[i] == t.peers[i - 1];
    }
  }

  lemma PopKeepsInv(t: Table, seqno: u16, from: Addr, clock: Option<Timeval>)
    requires TableInv(t, clock)
    ensures TableInv(Pop(t, seqno, from).0, clock)
  {
    var (t', r) := Pop(t, seqno, from);
    var n := FindPeer(t.peers, from);
    if r.Some? {
      var es := t.peers[n].nacks;
      var j := FindSeq(es, seqno);
      assert PeerOk(t.peers[n], t.appends, clock);
      RemovalKeepsOrder(es, j, Newer());
      if clock.Some? { RemovalKeepsOrder(es, j, NotSentBefore()); }
      assert PeerOk(NackPeer(from, es[..j] + es[j + 1..]), t.appends, clock);
      ShrinkingKeepsApart(t.peers, t'.peers);
    }
  }

  lemma FilterPeerKeepsInv(t: Table, a: Addr, keep: Entry -> bool, clock: Option<Timeval>)
    requires TableInv(t, clock)
    ensures TableInv(FilterPeer(t, a, keep), clock)
  {
    var n := FindPeer(t.peers, a);
    if n < |t.peers| {
      FilteredPeerOk(t.peers[n], keep, t.appends, clock);
      ShrinkingKeepsApart(t.peers, FilterPeer(t, a, keep).peers);
    }
  }

  lemma SweepKeepsInv(t: Table, now: Timeval, timeout: Addr -> nat, clock: Option<Timeval>)
    requires TableInv(t, clock)
    ensures TableInv(Sweep(t, now, timeout), clock)
  {
    var swept := Sweep(t, now, timeout).peers;
    forall i | 0 <= i < |t.peers| ensures PeerOk(swept[i], t.appends, clock) && Shrunk(t.peers[i], swept[i]) {
      FilteredPeerOk(t.peers[i], NotExpired(now, timeout(t.peers[i].addr)), t.appends, clock);
    }
    ShrinkingKeepsApart(t.peers, swept);
  }

  /** Every operation keeps the invariant. */
  lemma StepKeepsInv(t: Table, op: NackOp, clock: Option<Timeval>)
    requires TableInv(t, clock) && OpAllowed(op, clock)
    ensures TableInv(Apply(t, op), ClockAfter(op, clock))
  {
    match op
    case DoAppend(d, sendtime, sleeptime) => AppendKeepsInv(t, d, sendtime, sleeptime, clock);
    case DoPop(seqno, from) => PopKeepsInv(t, seqno, from, clock);
    case DoRemoveOoo(ack) => FilterPeerKeepsInv(t, ack.d.to, NotOlder(ack), clock);
    case DoRemoveLost(ack, cons) => FilterPeerKeepsInv(t, ack.d.to, NotCancelled(ack, cons), clock);
    case DoSweep(now, timeout) => SweepKeepsInv(t, now, timeout, clock);
  }

  function ApplyAll(t: Table, ops: seq<NackOp>): Table
    decreases |ops|
  {
    if ops == [] then t else ApplyAll(Apply(t, ops[0]), ops[1..])
  }

  predicate AllAllowed(ops: seq<NackOp>, clock: Option<Timeval>)
    decreases |ops|
  {
    ops == [] || (OpAllowed(ops[0], clock) && AllAllowed(ops[1..], ClockAfter(ops[0], clock)))
  }

  /** In every state any run reaches, each peer's list is ordered newest first and holds only that
      peer's packets, all of them waiting for an acknowledgement; when the clock never goes back it is
      ordered by send time as well. */
  lemma {:induction false} RunKeepsInv(t: Table, ops: seq<NackOp>, clock: Option<Timeval>)
      returns (clock': Option<Timeval>)
    requires TableInv(t, clock) && AllAllowed(ops, clock)
    ensures TableInv(ApplyAll(t, ops), clock') && clock'.Some? == clock.Some?
    decreases |ops|
  {
    if ops == [] {
      clock' := clock;
    } else {
      StepKeepsInv(t, ops[0], clock);
      clock' := RunKeepsInv(Apply(t, ops[0]), ops[1..], ClockAfter(ops[0], clock));
    }
  }

  // ---------------------------------------------------------------- sequence numbers

  /** Every outstanding entry was made within the last 65536 appends. */
  predicate Recent(t: Table) {
    forall i, e :: 0 <= i < |t.peers| && e in t.peers[i].nacks ==> t.appends - e.serial < 0x1_0000
  }

  lemma SameSerialSameEntry(es: seq<Entry>, x: Entry, y: Entry)
    requires Ordered(es, Newer()) && x in es && y in es
    ensures x.serial == y.serial ==> x == y
  {
    var a :| 0 <= a < |es| && es[a] == x;
    var b :| 0 <= b < |es| && es[b] == y;
    if a < b { assert Newer()(es[a], es[b]); } else if b < a { assert Newer()(es[b], es[a]); }
  }

  /** Serials are unique over the whole table, across peers. */
  lemma SerialsDistinct(t: Table, i: nat, j: nat, x: Entry, y: Entry)
    requires TableInv(t, None) && i < |t.peers| && j < |t.peers| && x in t.peers[i].nacks && y in t.peers[j].nacks
    requires x.serial == y.serial
    ensures i == j && x == y
  {
    assert PeerOk(t.peers[i], t.appends, None);
    assert i < j ==> Apart(t.peers[i], t.peers[j]);
    assert j < i ==> Apart(t.peers[j], t.peers[i]);
    if i == j { SameSerialSameEntry(t.peers[i].nacks, x, y); }
  }

  /** While every outstanding entry is recent, the wrapped numbers of all outstanding entries, whatever
      their peers, are distinct. */
  lemma SeqnosDistinct(t: Table, i: nat, j: nat, x: Entry, y: Entry)
    requires TableInv(t, None) && Recent(t)
    requires i < |t.peers| && j < |t.peers| && x in t.peers[i].nacks && y in t.peers[j].nacks
    ensures x.seqno == y.seqno <==> x == y
    ensures x == y ==> i == j
  {
    assert EntryOk(x, t.peers[i].addr, t.appends) && EntryOk(y, t.peers[j].addr, t.appends);
    if x.seqno == y.seqno { SerialsDistinct(t, i, j, x, y); }
  }

  /** Nothing sent to the same peer after `e` has its number. */
  ghost predicate Unshadowed(es: seq<Entry>, e: Entry) {
    forall x :: x in es && x.serial > e.serial ==> x.serial % 0x1_0000 != e.serial % 0x1_0000
  }

  /** In a list ordered newest first, the search by number stops at an entry exactly when no newer one has
      the same number. */
  lemma FindsIffUnshadowed(es: seq<Entry>, i: nat)
    requires Ordered(es, Newer()) && i < |es| && forall x :: x in es ==> x.seqno == x.serial % 0x1_0000
    ensures FindSeq(es, es[i].seqno) == i <==> Unshadowed(es, es[i])
  {
    var e := es[i];
    var j := FindSeq(es, e.seqno);
    if j < i {
      assert Newer()(es[j], e);
      assert es[j] in es;
    } else {
      forall m | 0 <= m < |es| && es[m].seqno == e.seqno ensures es[m].serial <= e.serial {
        assert m > i ==> Newer()(e, es[m]);
      }
    }
  }

  /** The acknowledgement of an outstanding packet pops that very packet exactly when nothing sent to the
      same peer after it has the same number. */
  lemma PopsAnsweredIff(t: Table, from: Addr, e: Entry)
    requires TableInv(t, None) && e in NacksOf(t, from)
    ensures Pop(t, e.seqno, from).1 == Some(e) <==> Unshadowed(NacksOf(t, from), e)
  {
    NacksOk(t, from);
    var es := NacksOf(t, from);
    var i :| 0 <= i < |es| && es[i] == e;
    FindsIffUnshadowed(es, i);
    var j := FindSeq(es, e.seqno);
    if j < i { assert Newer()(es[j], es[i]); }
  }

  /** pop_ack returns the newest outstanding packet of the peer with the number, if there is one. */
  lemma PopsNewest(t: Table, seqno: u16, from: Addr)
    requires TableInv(t, None)
    ensures var es := NacksOf(t, from);
            match Pop(t, seqno, from).1
            case None => forall x :: x in es ==> x.seqno != seqno
            case Some(e) =>
              && e in es && e.seqno == seqno
              && forall x :: x in es && x.seqno == seqno ==> x.serial <= e.serial
  {
    NacksOk(t, from);
    var es := NacksOf(t, from);
    var j := FindSeq(es, seqno);
    forall m | j < m < |es| ensures es[m].serial <= es[j].serial { assert Newer()(es[j], es[m]); }
  }

  /** Another packet of the peer has the number of the packet with the given serial and is newer, or is
      older while the packet itself is not outstanding any more. */
  ghost predicate Misleads(es: seq<Entry>, serial: nat) {
    exists e :: e in es && e.seqno == serial % 0x1_0000 && e.serial != serial
                && (e.serial > serial || !Outstanding(es, serial))
  }

  predicate Outstanding(es: seq<Entry>, serial: nat) { exists e :: e in es && e.serial == serial }

  /** The acknowledgement of any packet, outstanding or not, pops another packet exactly when its number
      misleads: duplicates and late acknowledgements included. */
  lemma PopsAnotherIff(t: Table, serial: nat, from: Addr)
    requires TableInv(t, None)
    ensures var popped := Pop(t, serial % 0x1_0000, from).1;
            popped.Some? && popped.value.serial != serial <==> Misleads(NacksOf(t, from), serial)
  {
    NacksOk(t, from);
    PopsNewest(t, serial % 0x1_0000, from);
  }

  /** While all outstanding entries are recent, no number of a recent packet misleads. */
  lemma RecentNeverMisleads(t: Table, serial: nat, from: Addr)
    requires TableInv(t, None) && Recent(t) && 1 <= serial <= t.appends && t.appends - serial < 0x1_0000
    ensures !Misleads(NacksOf(t, from), serial)
  {
    NacksOk(t, from);
  }

  lemma NacksAfterPop(t: Table, seqno: u16, from: Addr, a: Addr)
    requires Pop(t, seqno, from).1.Some?
    ensures var es := NacksOf(t, from);
            var j := FindSeq(es, seqno);
            && j < |es| && Pop(t, seqno, from).1 == Some(es[j])
            && NacksOf(Pop(t, seqno, from).0, a) == if a == from then es[..j] + es[j + 1..] else NacksOf(t, a)
  {
    var n := FindPeer(t.peers, from);
    var es := t.peers[n].nacks;
    var j := FindSeq(es, seqno);
    PeerUpdated(t.peers, n, NackPeer(from, es[..j] + es[j + 1..]), a);
  }

  /** The list of a peer is ordered and holds only packets for that peer. */
  lemma NacksOk(t: Table, a: Addr)
    requires TableInv(t, None)
    ensures Ordered(NacksOf(t, a), Newer()) && forall e :: e in NacksOf(t, a) ==> EntryOk(e, a, t.appends)
  {
    var n := FindPeer(t.peers, a);
    if n < |t.peers| { assert PeerOk(t.peers[n], t.appends, None); }
  }

  /** What is popped is gone, and nothing else is: every other packet of every peer stays. */
  lemma PopRemovesOne(t: Table, seqno: u16, from: Addr, a: Addr)
    requires TableInv(t, None) && Pop(t, seqno, from).1.Some?
    ensures var (t', r) := Pop(t, seqno, from);
            forall x :: x in NacksOf(t', a) <==> x in NacksOf(t, a) && x != r.value
  {
    NacksAfterPop(t, seqno, from, a);
    NacksOk(t, from);
    NacksOk(t, a);
    RemovedIsGone(NacksOf(t, from), FindSeq(NacksOf(t, from), seqno));
  }

  /** While all outstanding entries are recent, the acknowledgement of a packet pops exactly that packet. */
  lemma PopExact(t: Table, from: Addr, e: Entry)
    requires TableInv(t, None) && Recent(t) && e in NacksOf(t, from)
    ensures Pop(t, e.seqno, from).1 == Some(e)
    ensures forall a, x :: x in NacksOf(Pop(t, e.seqno, from).0, a) <==> x in NacksOf(t, a) && x != e
  {
    var n := FindPeer(t.peers, from);
    forall x | x in t.peers[n].nacks && x.serial > e.serial ensures x.serial % 0x1_0000 != e.serial % 0x1_0000 {
      assert EntryOk(x, from, t.appends) && EntryOk(e, from, t.appends);
      SeqnosDistinct(t, n, n, x, e);
    }
    PopsAnsweredIff(t, from, e);
    forall a { PopRemovesOne(t, e.seqno, from, a); }
  }

  lemma RemovedIsGone(es: seq<Entry>, j: nat)
    requires Ordered(es, Newer()) && j < |es|
    ensures forall x :: x in es[..j] + es[j + 1..] <==> x in es && x != es[j]
  {
    assert es == es[..j] + [es[j]] + es[j + 1..];
    forall m | 0 <= m < |es| && m != j ensures es[m] != es[j] {
      assert if m < j then Newer()(es[m], es[j]) else Newer()(es[j], es[m]);
    }
  }

  lemma PeerUnique(peers: seq<NackPeer>, a: Addr, n: nat)
    requires n <= |peers| && (n < |peers| ==> peers[n].addr == a) && forall j :: 0 <= j < n ==> peers[j].addr != a
    ensures FindPeer(peers, a) == n
  {
  }

  lemma PeerUpdated(peers: seq<NackPeer>, n: nat, p: NackPeer, a: Addr)
    requires n == FindPeer(peers, p.addr) < |peers|
    ensures FindPeer(peers[n := p], a) == FindPeer(peers, a)
  {
    PeerUnique(peers[n := p], a, FindPeer(peers, a));
  }

  lemma NacksAfterAppend(t: Table, d: SendData, sendtime: Timeval, sleeptime: u32, a: Addr)
    ensures NacksOf(Append(t, d, sendtime, sleeptime), a)
         == if a == d.to then [NewEntry(t, d, sendtime, sleeptime)] + NacksOf(t, a) else NacksOf(t, a)
  {
    var e := NewEntry(t, d, sendtime, sleeptime);
    var n, m := FindPeer(t.peers, d.to), FindPeer(t.peers, a);
    if n < |t.peers| {
      PeerUpdated(t.peers, n, NackPeer(d.to, [e] + t.peers[n].nacks), a);
    } else {
      var ps := [NackPeer(d.to, [e])] + t.peers;
      PeerUnique(ps, a, if a == d.to then 0 else m + 1);
    }
  }

  /** The same packet sent a number of times. */
  function Sends(d: SendData, now: Timeval, k: nat): seq<NackOp> { seq(k, i => DoAppend(d, now, 0)) }

  /** Packets sent to other peers use up sequence numbers and nothing else of a peer's list. */
  lemma {:induction false} SendsElsewhere(t: Table, d: SendData, now: Timeval, k: nat, a: Addr)
    requires d.to != a && NeedAck(d.packet.flags)
    ensures AllAllowed(Sends(d, now, k), Some(now))
    ensures var t' := ApplyAll(t, Sends(d, now, k));
            t'.appends == t.appends + k && NacksOf(t', a) == NacksOf(t, a)
    decreases k
  {
    if k > 0 {
      assert Sends(d, now, k)[1..] == Sends(d, now, k - 1);
      NacksAfterAppend(t, d, now, 0, a);
      SendsElsewhere(Append(t, d, now, 0), d, now, k - 1, a);
    }
  }

  lemma {:induction false} ApplyBoth(t: Table, xs: seq<NackOp>, ys: seq<NackOp>, clock: Option<Timeval>)
    requires AllAllowed(xs, clock) && AllAllowed(ys, clock) && forall x :: x in xs ==> ClockAfter(x, clock) == clock
    ensures ApplyAll(t, xs + ys) == ApplyAll(ApplyAll(t, xs), ys) && AllAllowed(xs + ys, clock)
    decreases |xs|
  {
    if xs == [] {
      assert xs + ys == ys;
    } else {
      assert (xs + ys)[1..] == xs[1..] + ys;
      ApplyBoth(Apply(t, xs[0]), xs[1..], ys, clock);
    }
  }

  /** Packets sent to another peer until the counter has come round, and then one more to the same peer. */
  function ShadowingOps(t: Table, e: Entry, d: SendData, other: SendData, now: Timeval): seq<NackOp>
    requires 0 <= t.appends - e.serial < 0x1_0000
  {
    Sends(other, now, 0xFFFF - (t.appends - e.serial)) + [DoAppend(d, now, 0)]
  }

  lemma ShadowedTable(t: Table, e: Entry, d: SendData, other: SendData, now: Timeval)
    requires 0 <= t.appends - e.serial < 0x1_0000 && e.seqno == e.serial % 0x1_0000
    requires d.to != other.to && NeedAck(d.packet.flags) && NeedAck(other.packet.flags)
    ensures AllAllowed(ShadowingOps(t, e, d, other, now), Some(now))
    ensures var t' := ApplyAll(t, ShadowingOps(t, e, d, other, now));
            && t'.appends == e.serial + 0x1_0000
            && NacksOf(t', d.to) == [Entry(e.seqno, e.serial + 0x1_0000, now, 0, d)] + NacksOf(t, d.to)
  {
    var k := 0xFFFF - (t.appends - e.serial);
    SendsElsewhere(t, other, now, k, d.to);
    var t1 := ApplyAll(t, Sends(other, now, k));
    var last := [DoAppend(d, now, 0)];
    assert AllAllowed(last[1..], Some(now));
    ApplyBoth(t, Sends(other, now, k), last, Some(now));
    assert ApplyAll(t1, last) == Append(t1, d, now, 0);
    NacksAfterAppend(t1, d, now, 0, d.to);
  }

  lemma PopsHead(t: Table, from: Addr, e: Entry)
    requires NacksOf(t, from) != [] && NacksOf(t, from)[0] == e
    ensures Pop(t, e.seqno, from).1 == Some(e)
  {
  }

  /** No outstanding entry is safe from this: whatever the table, such a run makes the acknowledgement of
      the entry pop the last packet instead. The clock need not go back for it. */
  lemma EveryEntryCanBeShadowed(t: Table, e: Entry, d: SendData, other: SendData, now: Timeval)
      returns (ops: seq<NackOp>)
    requires TableInv(t, Some(now)) && Recent(t) && e in NacksOf(t, d.to) && d.to != other.to
    requires NeedAck(d.packet.flags) && NeedAck(other.packet.flags)
    ensures AllAllowed(ops, Some(now))
    ensures var t' := ApplyAll(t, ops);
            && e in NacksOf(t', d.to) && t'.appends == e.serial + 0x1_0000
            && Pop(t', e.seqno, d.to).1 == Some(Entry(e.seqno, e.serial + 0x1_0000, now, 0, d))
  {
    assert EntryOk(e, t.peers[FindPeer(t.peers, d.to)].addr, t.appends);
    ops := ShadowingOps(t, e, d, other, now);
    ShadowedTable(t, e, d, other, now);
    PopsHead(ApplyAll(t, ops), d.to, Entry(e.seqno, e.serial + 0x1_0000, now, 0, d));
  }

  /** Such a table is reached from the start: one packet outstanding, 65535 sent to another peer, and one
      more to the first. */
  lemma StaleSeqnoPopsAnother(d: SendData, other: SendData, now: Timeval) returns (ops: seq<NackOp>)
    requires d.to != other.to && NeedAck(d.packet.flags) && NeedAck(other.packet.flags)
    ensures AllAllowed(ops, Some(now))
    ensures var t := ApplyAll(EMPTY, ops);
            var first, last := Entry(1, 1, now, 0, d), Entry(1, 0x1_0001, now, 0, d);
            && TableInv(t, None) && first in NacksOf(t, d.to) && Pop(t, first.seqno, d.to).1 == Some(last)
  {
    var start := [DoAppend(d, now, 0)];
    var t := Append(EMPTY, d, now, 0);
    assert AllAllowed(start[1..], Some(now)) && ApplyAll(EMPTY, start) == t;
    AppendKeepsInv(EMPTY, d, now, 0, Some(now));
    NacksAfterAppend(EMPTY, d, now, 0, d.to);
    var rest := EveryEntryCanBeShadowed(t, Entry(1, 1, now, 0, d), d, other, now);
    ops := start + rest;
    ApplyBoth(EMPTY, start, rest, Some(now));
    var clock := RunKeepsInv(EMPTY, ops, Some(now));
    WithoutClock(ApplyAll(EMPTY, ops), clock);
  }

  // ---------------------------------------------------------------- an acknowledgement refines a filter

  lemma NacksAfterFilter(t: Table, a: Addr, keep: Entry -> bool, b: Addr)
    ensures NacksOf(FilterPeer(t, a, keep), b) == if a == b then Filter(NacksOf(t, a), keep) else NacksOf(t, b)
  {
    var n := FindPeer(t.peers, a);
    if n < |t.peers| { PeerUpdated(t.peers, n, NackPeer(a, Filter(t.peers[n].nacks, keep)), b); }
  }

  /** The three things that happen to an older or newer entry when an acknowledgement is accepted. */
  ghost predicate ThreeWay(es: seq<Entry>, ack: Entry, cons: u16) {
    && multiset(es) == multiset(Filter(es, NotOlder(ack))) + multiset(Filter(es, Cancelled(ack, cons)))
                     + multiset(Filter(es, Overdue(ack, cons)))
    && |es| == |Filter(es, NotOlder(ack))| + |Filter(es, Cancelled(ack, cons))| + |Filter(es, Overdue(ack, cons))|
  }

  lemma EveryEntryOnce(es: seq<Entry>, ack: Entry, cons: u16)
    ensures ThreeWay(es, ack, cons)
  {
    var kept := Filter(es, NotCancelled(ack, cons));
    FilterSplit(es, Cancelled(ack, cons), NotCancelled(ack, cons));
    FilterSplit(kept, Older(ack), NotOlder(ack));
    FilterTwice(es, NotCancelled(ack, cons), NotOlder(ack), NotOlder(ack));
    FilterTwice(es, NotCancelled(ack, cons), Older(ack), Overdue(ack, cons));
  }

  /** On the path for a known peer, remove_lost_acks followed by resend_ooo_nacks leaves exactly the
      entries that are not older than the acknowledged one, in their order; hands exactly the older ones
      outside the run to send_data, each once, marked, in list order; and touches no other peer. Every
      entry is accounted for once. */
  lemma AckRefinesFilter(t: Table, ack: Entry, cons: u16)
    requires TableInv(t, None)
    ensures var a := ack.d.to;
            var es := NacksOf(t, a);
            var t1 := RemoveLost(t, ack, cons);
            var t2 := RemoveOoo(t1, ack);
            var overdue := Filter(es, Overdue(ack, cons));
            var sent := OooResends(t1, ack);
            && NacksOf(t2, a) == Filter(es, NotOlder(ack))
            && (forall b :: b != a ==> NacksOf(t2, b) == NacksOf(t, b))
            && |sent| == |overdue|
            && (forall i :: 0 <= i < |sent| ==> sent[i] == Resend(overdue[i].d))
            && ThreeWay(es, ack, cons)
  {
    var a := ack.d.to;
    var es := NacksOf(t, a);
    var t1 := RemoveLost(t, ack, cons);
    NacksAfterFilter(t, a, NotCancelled(ack, cons), a);
    NacksAfterFilter(t1, a, NotOlder(ack), a);
    FilterTwice(es, NotCancelled(ack, cons), NotOlder(ack), NotOlder(ack));
    FilterTwice(es, NotCancelled(ack, cons), Older(ack), Overdue(ack, cons));
    EveryEntryOnce(es, ack, cons);
    forall b | b != a ensures NacksOf(RemoveOoo(t1, ack), b) == NacksOf(t, b) {
      NacksAfterFilter(t, a, NotCancelled(ack, cons), b);
      NacksAfterFilter(t1, a, NotOlder(ack), b);
    }
    forall e | e in es ensures NeedAck(e.d.packet.flags) {
      assert PeerOk(t.peers[FindPeer(t.peers, a)], t.appends, None);
    }
    FilterMembers(es, Overdue(ack, cons));
    ResendsAll(Filter(es, Overdue(ack, cons)));
  }

  /** Because the list is ordered by send time, an acknowledgement cuts off its tail: the survivors are
      the entries in front of the first older one. */
  lemma AckCutsTail(es: seq<Entry>, ack: Entry) returns (n: nat)
    requires Ordered(es, NotSentBefore())
    ensures n <= |es| && Filter(es, NotOlder(ack)) == es[..n] && Filter(es, Older(ack)) == es[n..]
  {
    n := 0;
    while n < |es| && !OlderThan(es[n], ack)
      invariant n <= |es| && forall i :: 0 <= i < n ==> !OlderThan(es[i], ack)
    {
      n := n + 1;
    }
    forall i | n <= i < |es| ensures OlderThan(es[i], ack) {
      assert i > n ==> NotSentBefore()(es[n], es[i]);
    }
    assert es == es[..n] + es[n..];
    CutBy(es[..n], es[n..], NotOlder(ack));
    CutBy(es[n..], es[..n], Older(ack));
    FilterConcat(es[..n], es[n..], Older(ack));
  }

  /** A filter that keeps all of one list and none of the other. */
  lemma CutBy(a: seq<Entry>, b: seq<Entry>, keep: Entry -> bool)
    requires (forall e :: e in a ==> keep(e)) && (forall e :: e in b ==> !keep(e))
    ensures Filter(a + b, keep) == a && Filter(a, keep) == a && Filter(b, keep) == []
  {
    FilterConcat(a, b, keep);
    FilterAll(a, keep);
    FilterNone(b, keep);
  }

  // ---------------------------------------------------------------- the timeout sweep

  lemma {:induction false} SweepCounts(peers: seq<NackPeer>, now: Timeval, timeout: Addr -> nat)
    ensures CountNacks(SweepPeers(peers, now, timeout)) + |ExpiredEntries(peers, now, timeout)| == CountNacks(peers)
  {
    if peers != [] {
      SweepCounts(peers[1..], now, timeout);
      FilterSplit(peers[0].nacks, IsExpired(now, timeout(peers[0].addr)), NotExpired(now, timeout(peers[0].addr)));
      assert SweepPeers(peers, now, timeout)[1..] == SweepPeers(peers[1..], now, timeout);
    }
  }

  /** The sweep is an exact partition: what stays has not expired, what expired is gone and was handed to
      send_data once, marked, in order, and the numbers add up. */
  lemma SweepPartitions(t: Table, now: Timeval, timeout: Addr -> nat)
    requires TableInv(t, None)
    ensures var t' := Sweep(t, now, timeout);
            var gone := ExpiredEntries(t.peers, now, timeout);
            var sent := SweepResends(t, now, timeout);
            && (forall i, e :: 0 <= i < |t'.peers| && e in t'.peers[i].nacks ==>
                  !Expired(e, now, timeout(t'.peers[i].addr)))
            && (forall e :: e in gone ==> InTable(t, e) && Expired(e, now, timeout(e.d.to)))
            && CountNacks(t.peers) == CountNacks(t'.peers) + |gone|
            && |sent| == |gone| && (forall i :: 0 <= i < |sent| ==> sent[i] == Resend(gone[i].d))
  {
    var gone := ExpiredEntries(t.peers, now, timeout);
    SweepCounts(t.peers, now, timeout);
    forall i | 0 <= i < |t.peers|
      ensures forall e :: e in Sweep(t, now, timeout).peers[i].nacks ==> !Expired(e, now, timeout(t.peers[i].addr))
    {
      FilterMembers(t.peers[i].nacks, NotExpired(now, timeout(t.peers[i].addr)));
    }
    forall e | e in gone ensures InTable(t, e) && Expired(e, now, timeout(e.d.to)) && NeedAck(e.d.packet.flags) {
      ExpiredMembers(t.peers, now, timeout, e);
      var i :| 0 <= i < |t.peers| && e in t.peers[i].nacks && Expired(e, now, timeout(t.peers[i].addr));
      assert PeerOk(t.peers[i], t.appends, None);
    }
    ResendsAll(gone);
  }

  /** With a timeout of at least 10 milliseconds nothing is resent within 10 milliseconds of being sent,
      as long as the deadline fits 64 bits. */
  lemma NoEarlyResend(e: Entry, now: Timeval, timeout: nat)
    requires Representable(e.sendtime) && Representable(now) && timeout >= 10_000
    requires TimeToUsec(e.sendtime) + timeout < 0x1_0000_0000_0000_0000
    ensures Expired(e, now, timeout) ==> TimeToUsec(now) - TimeToUsec(e.sendtime) > 10_000
  {
  }
}
