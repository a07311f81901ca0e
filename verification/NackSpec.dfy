/** The lists of unacknowledged packets as values: what each operation of ack.c does to them. */
module NackSpec {
  import opened Basics
  import opened NetEncoder
  import opened Framing

  /** An unacknowledged packet. `serial` counts appends without wrapping; the program keeps only
      `seqno`, its low 16 bits, and no operation reads `serial`. */
  datatype Entry = Entry(seqno: u16, serial: nat, sendtime: Timeval, sleeptime: u32, d: SendData)

  /** The unacknowledged packets of one peer, newest first. */
  datatype NackPeer = NackPeer(addr: Addr, nacks: seq<Entry>)

  datatype Table = Table(peers: seq<NackPeer>, appends: nat)

  const EMPTY := Table([], 0)

  // ---------------------------------------------------------------- list helpers

  /** nack_find_by_host: position of the peer, or the number of peers. */
  function FindPeer(peers: seq<NackPeer>, a: Addr): (i: nat)
    ensures i <= |peers|
    ensures i < |peers| ==> peers[i].addr == a
    ensures forall j :: 0 <= j < i ==> peers[j].addr != a
  {
    if peers == [] || peers[0].addr == a then 0 else 1 + FindPeer(peers[1..], a)
  }

  /** Position of the first entry with the sequence number, or the length of the list. */
  function FindSeq(es: seq<Entry>, seqno: u16): (i: nat)
    ensures i <= |es|
    ensures i < |es| ==> es[i].seqno == seqno
    ensures forall j :: 0 <= j < i ==> es[j].seqno != seqno
  {
    if es == [] || es[0].seqno == seqno then 0 else 1 + FindSeq(es[1..], seqno)
  }

  function Filter(es: seq<Entry>, keep: Entry -> bool): (r: seq<Entry>)
    ensures |r| <= |es|
  {
    if es == [] then [] else (if keep(es[0]) then [es[0]] else []) + Filter(es[1..], keep)
  }

  lemma {:induction false} FilterMembers(es: seq<Entry>, keep: Entry -> bool)
    ensures forall e :: e in Filter(es, keep) <==> e in es && keep(e)
  {
    if es != [] {
      FilterMembers(es[1..], keep);
      assert forall e :: e in es <==> e == es[0] || e in es[1..];
    }
  }

  lemma {:induction false} FilterConcat(a: seq<Entry>, b: seq<Entry>, keep: Entry -> bool)
    ensures Filter(a + b, keep) == Filter(a, keep) + Filter(b, keep)
  {
    if a == [] {
      assert a + b == b;
    } else {
      assert (a + b)[0] == a[0] && (a + b)[1..] == a[1..] + b;
      FilterConcat(a[1..], b, keep);
      var h := if keep(a[0]) then [a[0]] else [];
      assert h + (Filter(a[1..], keep) + Filter(b, keep)) == (h + Filter(a[1..], keep)) + Filter(b, keep);
    }
  }

  lemma {:induction false} FilterAll(es: seq<Entry>, keep: Entry -> bool)
    requires forall e :: e in es ==> keep(e)
    ensures Filter(es, keep) == es
  {
    if es != [] {
      FilterAll(es[1..], keep);
      assert es == [es[0]] + es[1..];
    }
  }

  lemma {:induction false} FilterNone(es: seq<Entry>, keep: Entry -> bool)
    requires forall e :: e in es ==> !keep(e)
    ensures Filter(es, keep) == []
  {
    if es != [] { FilterNone(es[1..], keep); }
  }

  /** Filtering twice is filtering by both conditions. */
  lemma {:induction false} FilterTwice(es: seq<Entry>, p: Entry -> bool, q: Entry -> bool, both: Entry -> bool)
    requires forall e :: e in es ==> (both(e) <==> p(e) && q(e))
    ensures Filter(Filter(es, p), q) == Filter(es, both)
  {
    if es != [] {
      var tail := Filter(es[1..], p);
      FilterTwice(es[1..], p, q, both);
      if p(es[0]) {
        assert ([es[0]] + tail)[1..] == tail;
        assert Filter([es[0]] + tail, q) == (if q(es[0]) then [es[0]] else []) + Filter(tail, q);
      } else {
        assert Filter(es, p) == tail;
      }
    }
  }

  /** A filter and its complement divide a list. */
  lemma {:induction false} FilterSplit(es: seq<Entry>, p: Entry -> bool, q: Entry -> bool)
    requires forall e :: e in es ==> (q(e) <==> !p(e))
    ensures |Filter(es, p)| + |Filter(es, q)| == |es|
    ensures multiset(Filter(es, p)) + multiset(Filter(es, q)) == multiset(es)
  {
    if es != [] {
      FilterSplit(es[1..], p, q);
      assert es == [es[0]] + es[1..];
    }
  }

  /** The packets handed to send_data for a list of entries, in list order: the consecutive mark is
      cleared and the retransmission mark set; an entry that is neither a block nor wants an
      acknowledgement is dropped. */
  function Resends(es: seq<Entry>): (r: seq<SendData>)
    ensures |r| <= |es|
  {
    if es == [] then []
    else (if es[0].d.packet.flags & BLK_BLOCK_ACK != 0 then [Resend(es[0].d)] else []) + Resends(es[1..])
  }

  function Resend(d: SendData): SendData { d.(packet := Retransmit(d.packet)) }

  lemma {:induction false} ResendsConcat(a: seq<Entry>, b: seq<Entry>)
    ensures Resends(a + b) == Resends(a) + Resends(b)
  {
    if a == [] {
      assert a + b == b;
    } else {
      assert (a + b)[0] == a[0] && (a + b)[1..] == a[1..] + b;
      ResendsConcat(a[1..], b);
      var h := if a[0].d.packet.flags & BLK_BLOCK_ACK != 0 then [Resend(a[0].d)] else [];
      assert h + (Resends(a[1..]) + Resends(b)) == (h + Resends(a[1..])) + Resends(b);
    }
  }

  /** When every entry wants an acknowledgement, each is resent, in order. */
  lemma {:induction false} ResendsAll(es: seq<Entry>)
    requires forall e :: e in es ==> NeedAck(e.d.packet.flags)
    ensures |Resends(es)| == |es| && forall i :: 0 <= i < |es| ==> Resends(es)[i] == Resend(es[i].d)
  {
    if es != [] {
      ResendsAll(es[1..]);
      var fl := es[0].d.packet.flags;
      assert fl & 0x80 != 0 ==> fl & 0x81 != 0;
    }
  }

  // ---------------------------------------------------------------- operations

  /** append_ack: the counter is advanced and the packet saved, without its trailers, at the head of
      its peer's list. */
  function NewEntry(t: Table, d: SendData, sendtime: Timeval, sleeptime: u32): Entry {
    Entry((t.appends + 1) % 0x1_0000, t.appends + 1, sendtime, sleeptime, d)
  }

  function Append(t: Table, d: SendData, sendtime: Timeval, sleeptime: u32): Table {
    var e := NewEntry(t, d, sendtime, sleeptime);
    var i := FindPeer(t.peers, d.to);
    Table(if i == |t.peers| then [NackPeer(d.to, [e])] + t.peers
          else t.peers[i := NackPeer(d.to, [e] + t.peers[i].nacks)],
          t.appends + 1)
  }

  /** pop_ack */
  function Pop(t: Table, seqno: u16, from: Addr): (Table, Option<Entry>) {
    var i := FindPeer(t.peers, from);
    if i == |t.peers| then (t, None)
    else
      var es := t.peers[i].nacks;
      var j := FindSeq(es, seqno);
      if j == |es| then (t, None)
      else (t.(peers := t.peers[i := NackPeer(from, es[..j] + es[j + 1..])]), Some(es[j]))
  }

  /** The list of a peer; empty when the peer is unknown. */
  function NacksOf(t: Table, a: Addr): seq<Entry> {
    var i := FindPeer(t.peers, a);
    if i == |t.peers| then [] else t.peers[i].nacks
  }

  /** Keep only the chosen entries of one peer. */
  function FilterPeer(t: Table, a: Addr, keep: Entry -> bool): Table {
    var i := FindPeer(t.peers, a);
    if i == |t.peers| then t
    else t.(peers := t.peers[i := NackPeer(a, Filter(t.peers[i].nacks, keep))])
  }

  predicate OlderThan(e: Entry, ack: Entry) { TimerLess(e.sendtime, ack.sendtime) }

  /** The entry holds a fragment of the acknowledged one's block, at most `cons` below it. */
  predicate InRun(e: Entry, ack: Entry, cons: u16) {
    var id, ackId := GetFragmentId(e.d.packet), GetFragmentId(ack.d.packet);
    id.sid == ackId.sid && id.bid == ackId.bid && id.fid < ackId.fid && ackId.fid - id.fid <= cons
  }

  function Older(ack: Entry): Entry -> bool { (e: Entry) => OlderThan(e, ack) }
  function NotOlder(ack: Entry): Entry -> bool { (e: Entry) => !OlderThan(e, ack) }
  function Cancelled(ack: Entry, cons: u16): Entry -> bool { (e: Entry) => OlderThan(e, ack) && InRun(e, ack, cons) }
  function NotCancelled(ack: Entry, cons: u16): Entry -> bool {
    (e: Entry) => !(OlderThan(e, ack) && InRun(e, ack, cons))
  }
  function Overdue(ack: Entry, cons: u16): Entry -> bool { (e: Entry) => OlderThan(e, ack) && !InRun(e, ack, cons) }

  /** remove_ooo_nacks */
  function RemoveOoo(t: Table, ack: Entry): Table { FilterPeer(t, ack.d.to, NotOlder(ack)) }

  /** remove_lost_acks */
  function RemoveLost(t: Table, ack: Entry, cons: u16): Table { FilterPeer(t, ack.d.to, NotCancelled(ack, cons)) }

  /** What resend_ooo_nacks hands to send_data. It leaves the same table as remove_ooo_nacks. */
  function OooResends(t: Table, ack: Entry): seq<SendData> { Resends(Filter(NacksOf(t, ack.d.to), Older(ack))) }

  /** now_usec > time_to_usec(sendtime) + timeout, in unsigned 64 bits. */
  predicate Expired(e: Entry, now: Timeval, timeout: nat) {
    TimeToUsec(now) > (TimeToUsec(e.sendtime) + timeout) % 0x1_0000_0000_0000_0000
  }

  function IsExpired(now: Timeval, timeout: nat): Entry -> bool { (e: Entry) => Expired(e, now, timeout) }
  function NotExpired(now: Timeval, timeout: nat): Entry -> bool { (e: Entry) => !Expired(e, now, timeout) }

  /** resend_timeout_nacks: what is left, and what is handed to send_data, peer by peer. */
  function SweepPeers(peers: seq<NackPeer>, now: Timeval, timeout: Addr -> nat): (r: seq<NackPeer>)
    ensures |r| == |peers|
    ensures forall i :: 0 <= i < |r| ==> r[i] == SweptPeer(peers[i], now, timeout)
  {
    if peers == [] then []
    else [SweptPeer(peers[0], now, timeout)] + SweepPeers(peers[1..], now, timeout)
  }

  function SweptPeer(p: NackPeer, now: Timeval, timeout: Addr -> nat): NackPeer {
    NackPeer(p.addr, Filter(p.nacks, NotExpired(now, timeout(p.addr))))
  }

  function Sweep(t: Table, now: Timeval, timeout: Addr -> nat): Table {
    t.(peers := SweepPeers(t.peers, now, timeout))
  }

  /** The expired entries, in the order the sweep meets them. */
  function ExpiredEntries(peers: seq<NackPeer>, now: Timeval, timeout: Addr -> nat): seq<Entry> {
    if peers == [] then []
    else Filter(peers[0].nacks, IsExpired(now, timeout(peers[0].addr))) + ExpiredEntries(peers[1..], now, timeout)
  }

  function SweepResends(t: Table, now: Timeval, timeout: Addr -> nat): seq<SendData> {
    Resends(ExpiredEntries(t.peers, now, timeout))
  }

  /** get_n_nack */
  function CountNacks(peers: seq<NackPeer>): nat {
    if peers == [] then 0 else |peers[0].nacks| + CountNacks(peers[1..])
  }

  // ---------------------------------------------------------------- membership

  predicate InTable(t: Table, e: Entry) {
    exists i :: 0 <= i < |t.peers| && e in t.peers[i].nacks
  }

  lemma AppendMembers(t: Table, d: SendData, sendtime: Timeval, sleeptime: u32, e: Entry)
    ensures InTable(Append(t, d, sendtime, sleeptime), e) <==> InTable(t, e) || e == NewEntry(t, d, sendtime, sleeptime)
  {
    var t' := Append(t, d, sendtime, sleeptime);
    var n := FindPeer(t.peers, d.to);
    if InTable(t, e) {
      var i :| 0 <= i < |t.peers| && e in t.peers[i].nacks;
      assert e in t'.peers[if n == |t.peers| then i + 1 else i].nacks;
    }
    if e == NewEntry(t, d, sendtime, sleeptime) {
      assert e in t'.peers[if n == |t.peers| then 0 else n].nacks;
    }
    if InTable(t', e) {
      var i :| 0 <= i < |t'.peers| && e in t'.peers[i].nacks;
      if n == |t.peers| && i > 0 { assert t'.peers[i] == t.peers[i - 1]; }
    }
  }

  /** The addresses of the peers, in list order. */
  function Addresses(peers: seq<NackPeer>): seq<Addr> { seq(|peers|, i requires 0 <= i < |peers| => peers[i].addr) }

  /** A peer that has no list yet gets one at the head; the order of the others does not change. */
  lemma AppendPeers(t: Table, d: SendData, sendtime: Timeval, sleeptime: u32)
    ensures Addresses(Append(t, d, sendtime, sleeptime).peers)
         == (if d.to in Addresses(t.peers) then [] else [d.to]) + Addresses(t.peers)
  {
    var n := FindPeer(t.peers, d.to);
    if n < |t.peers| {
      assert Addresses(t.peers)[n] == d.to;
    } else {
      assert forall i :: 0 <= i < |t.peers| ==> Addresses(t.peers)[i] != d.to;
    }
  }

  lemma PopMembers(t: Table, seqno: u16, from: Addr, e: Entry)
    ensures var (t', r) := Pop(t, seqno, from);
            && (InTable(t', e) ==> InTable(t, e))
            && (InTable(t, e) ==> InTable(t', e) || r == Some(e))
            && (r == Some(e) ==> e in NacksOf(t, from) && e.seqno == seqno && InTable(t, e))
  {
    var (t', r) := Pop(t, seqno, from);
    var n := FindPeer(t.peers, from);
    if r.Some? {
      var es := t.peers[n].nacks;
      var j := FindSeq(es, seqno);
      assert es == es[..j] + [es[j]] + es[j + 1..];
      assert t'.peers[n].nacks == es[..j] + es[j + 1..];
      if InTable(t, e) {
        var i :| 0 <= i < |t.peers| && e in t.peers[i].nacks;
        assert i == n ==> e == es[j] || e in t'.peers[n].nacks;
        assert i != n ==> e in t'.peers[i].nacks;
      }
      if InTable(t', e) {
        var i :| 0 <= i < |t'.peers| && e in t'.peers[i].nacks;
        assert e in t.peers[i].nacks;
      }
      assert es[j] in t.peers[n].nacks;
    }
  }

  lemma FilterPeerMembers(t: Table, a: Addr, keep: Entry -> bool, e: Entry)
    ensures InTable(FilterPeer(t, a, keep), e) ==> InTable(t, e)
    ensures InTable(t, e) && !InTable(FilterPeer(t, a, keep), e) ==> e in NacksOf(t, a) && !keep(e)
  {
    var t' := FilterPeer(t, a, keep);
    var n := FindPeer(t.peers, a);
    if n < |t.peers| { FilterMembers(t.peers[n].nacks, keep); }
    if InTable(t', e) {
      var i :| 0 <= i < |t'.peers| && e in t'.peers[i].nacks;
      assert e in t.peers[i].nacks;
    }
    if InTable(t, e) && !InTable(t', e) {
      var i :| 0 <= i < |t.peers| && e in t.peers[i].nacks;
      assert n < |t.peers|;
      assert e !in t'.peers[i].nacks;
    }
  }

  lemma {:induction false} ExpiredMembers(peers: seq<NackPeer>, now: Timeval, timeout: Addr -> nat, e: Entry)
    ensures e in ExpiredEntries(peers, now, timeout)
       <==> exists i :: 0 <= i < |peers| && e in peers[i].nacks && Expired(e, now, timeout(peers[i].addr))
  {
    if peers != [] {
      ExpiredMembers(peers[1..], now, timeout, e);
      FilterMembers(peers[0].nacks, IsExpired(now, timeout(peers[0].addr)));
      assert forall i :: 0 <= i < |peers[1..]| ==> peers[1..][i] == peers[i + 1];
    }
  }

  lemma SweepMembers(t: Table, now: Timeval, timeout: Addr -> nat, e: Entry)
    ensures InTable(Sweep(t, now, timeout), e) ==> InTable(t, e)
    ensures InTable(t, e) && !InTable(Sweep(t, now, timeout), e) ==> e in ExpiredEntries(t.peers, now, timeout)
    ensures e in ExpiredEntries(t.peers, now, timeout) ==> InTable(t, e)
  {
    var t' := Sweep(t, now, timeout);
    ExpiredMembers(t.peers, now, timeout, e);
    if InTable(t', e) {
      var i :| 0 <= i < |t'.peers| && e in t'.peers[i].nacks;
      FilterMembers(t.peers[i].nacks, NotExpired(now, timeout(t.peers[i].addr)));
      assert e in t.peers[i].nacks;
    }
    if InTable(t, e) && !InTable(t', e) {
      var i :| 0 <= i < |t.peers| && e in t.peers[i].nacks;
      FilterMembers(t.peers[i].nacks, NotExpired(now, timeout(t.peers[i].addr)));
      assert e !in t'.peers[i].nacks;
    }
  }
}
