/** The lists of unacknowledged packets, updated in place (ack.c). Every operation is tied to the
    value-level operation of NackSpec; the packets it passes to send_data are an out-parameter. */
module NackTable {
  import opened Basics
  import opened NackSpec
  import opened AckMeaning

  /** How far a walk has come: the entries kept and those dropped so far, and those still ahead. */
  ghost predicate Walked(
      es: seq<Entry>, drop: Entry -> bool, keep: Entry -> bool, done: seq<Entry>, gone: seq<Entry>, rest: seq<Entry>)
  {
    && (forall e :: e in rest ==> (keep(e) <==> !drop(e)))
    && Filter(es, keep) == done + Filter(rest, keep)
    && Filter(es, drop) == gone + Filter(rest, drop)
  }

  lemma WalkStep(
      es: seq<Entry>, drop: Entry -> bool, keep: Entry -> bool, done: seq<Entry>, gone: seq<Entry>, rest: seq<Entry>)
    requires Walked(es, drop, keep, done, gone, rest) && rest != []
    ensures drop(rest[0]) ==> Walked(es, drop, keep, done, gone + [rest[0]], rest[1..])
    ensures !drop(rest[0]) ==> Walked(es, drop, keep, done + [rest[0]], gone, rest[1..])
  {
    var h := [rest[0]];
    assert rest[0] in rest;
    assert done + (h + Filter(rest[1..], keep)) == (done + h) + Filter(rest[1..], keep);
    assert gone + (h + Filter(rest[1..], drop)) == (gone + h) + Filter(rest[1..], drop);
  }

  lemma WalkEnd(es: seq<Entry>, drop: Entry -> bool, keep: Entry -> bool, done: seq<Entry>, gone: seq<Entry>)
    requires Walked(es, drop, keep, done, gone, [])
    ensures Filter(es, keep) == done && Filter(es, drop) == gone
  {
  }

  lemma Unlinked<T>(done: seq<T>, rest: seq<T>)
    requires rest != []
    ensures (done + rest)[..|done|] + (done + rest)[|done| + 1..] == done + rest[1..]
    ensures (done + [rest[0]]) + rest[1..] == done + rest
  {
  }

  lemma Replaced<T>(done: seq<T>, rest: seq<T>, x: T)
    requires rest != []
    ensures (done + rest)[|done| := x] == (done + [x]) + rest[1..]
  {
  }

  /** The same for the walk over the peers. */
  ghost predicate Swept(
      peers: seq<NackPeer>, now: Timeval, timeout: Addr -> nat,
      done: seq<NackPeer>, gone: seq<Entry>, rest: seq<NackPeer>)
  {
    && SweepPeers(peers, now, timeout) == done + SweepPeers(rest, now, timeout)
    && ExpiredEntries(peers, now, timeout) == gone + ExpiredEntries(rest, now, timeout)
  }

  lemma SweepStep(
      peers: seq<NackPeer>, now: Timeval, timeout: Addr -> nat,
      done: seq<NackPeer>, gone: seq<Entry>, rest: seq<NackPeer>)
    requires Swept(peers, now, timeout, done, gone, rest) && rest != []
    ensures var p := rest[0];
            Swept(peers, now, timeout, done + [SweptPeer(p, now, timeout)],
                  gone + Filter(p.nacks, IsExpired(now, timeout(p.addr))), rest[1..])
  {
    var p := rest[0];
    var more := Filter(p.nacks, IsExpired(now, timeout(p.addr)));
    assert done + ([SweptPeer(p, now, timeout)] + SweepPeers(rest[1..], now, timeout))
        == (done + [SweptPeer(p, now, timeout)]) + SweepPeers(rest[1..], now, timeout);
    assert gone + (more + ExpiredEntries(rest[1..], now, timeout))
        == (gone + more) + ExpiredEntries(rest[1..], now, timeout);
  }

  lemma SweepEnd(peers: seq<NackPeer>, now: Timeval, timeout: Addr -> nat, done: seq<NackPeer>, gone: seq<Entry>)
    requires Swept(peers, now, timeout, done, gone, [])
    ensures SweepPeers(peers, now, timeout) == done && ExpiredEntries(peers, now, timeout) == gone
  {
  }

  lemma ResendsSnoc(es: seq<Entry>, e: Entry)
    ensures Resends(es + [e])
         == if e.d.packet.flags & BLK_BLOCK_ACK != 0 then Resends(es) + [Resend(e.d)] else Resends(es)
  {
    ResendsConcat(es, [e]);
    assert [e][1..] == [];
  }

  /** The walk all the removal loops of ack.c make over a list (MYSLIST_FOREACH_SAFE with MYSLIST_REMOVE):
      unlink every entry that satisfies `drop`. `sent` collects what the resending loops hand to
      send_data on the way. */
  method WalkList(es: seq<Entry>, drop: Entry -> bool, ghost keep: Entry -> bool)
      returns (list: seq<Entry>, count: nat, sent: seq<SendData>)
    requires forall e :: e in es ==> (keep(e) <==> !drop(e))
    ensures list == Filter(es, keep) && count == |Filter(es, drop)| && sent == Resends(Filter(es, drop))
  {
    list, count, sent := es, 0, [];
    var k := 0;
    ghost var done, gone, rest := [], [], es;
    while k < |list|
      invariant list == done + rest && k == |done|
      invariant Walked(es, drop, keep, done, gone, rest)
      invariant count == |gone| && sent == Resends(gone)
      decreases |rest|
    {
      var cur := list[k];
      assert cur == rest[0];
      WalkStep(es, drop, keep, done, gone, rest);
      Unlinked(done, rest);
      if drop(cur) {
        ResendsSnoc(gone, cur);
        count := count + 1;
        if cur.d.packet.flags & BLK_BLOCK_ACK != 0 { sent := sent + [Resend(cur.d)]; }
        list := list[..k] + list[k + 1..];
        gone := gone + [cur];
      } else {
        k := k + 1;
        done := done + [cur];
      }
      rest := rest[1..];
    }
    assert rest == [] && list == done;
    WalkEnd(es, drop, keep, done, gone);
  }

  class NackLists {
    var peers: seq<NackPeer>
    var seqNum: u16
    /** The number of appends so far; the program keeps only its low 16 bits, `seqNum`. */
    var appends: nat

    ghost predicate Valid()
      reads this
    {
      seqNum == appends % 0x1_0000
    }

    ghost function Value(): Table
      reads this
    {
      Table(peers, appends)
    }

    constructor ()
      ensures Valid() && Value() == EMPTY
    {
      peers, seqNum, appends := [], 0, 0;
    }

    /** nack_find_by_host */
    method FindByHost(from: Addr) returns (n: nat)
      ensures n == FindPeer(peers, from)
    {
      n := 0;
      while n < |peers|
        invariant n <= |peers| && forall j :: 0 <= j < n ==> peers[j].addr != from
      {
        if peers[n].addr == from { return; }
        n := n + 1;
      }
    }

    /** append_ack: `seqno` is what goes onto the wire behind the packet. */
    method AppendAck(d: SendData, sendtime: Timeval, sleeptime: u32) returns (seqno: u16)
      requires Valid()
      modifies this
      ensures Valid() && Value() == Append(old(Value()), d, sendtime, sleeptime)
      ensures seqno == NewEntry(old(Value()), d, sendtime, sleeptime).seqno
    {
      seqNum, appends := (seqNum + 1) % 0x1_0000, appends + 1;
      var n := FindByHost(d.to);
      var e := Entry(seqNum, appends, sendtime, sleeptime, d);
      if n == |peers| {
        peers := [NackPeer(d.to, [e])] + peers;
      } else {
        peers := peers[n := NackPeer(d.to, [e] + peers[n].nacks)];
      }
      seqno := seqNum;
    }

    /** pop_ack */
    method PopAck(seqno: u16, from: Addr) returns (r: Option<Entry>)
      requires Valid()
      modifies this
      ensures Valid() && Value() == Pop(old(Value()), seqno, from).0
      ensures r == Pop(old(Value()), seqno, from).1
    {
      var n := FindByHost(from);
      if n == |peers| { return None; }
      var es := peers[n].nacks;
      var j := 0;
      while j < |es|
        invariant 0 <= j <= |es| && forall i :: 0 <= i < j ==> es[i].seqno != seqno
      {
        if es[j].seqno == seqno { break; }
        j := j + 1;
      }
      if j == |es| { return None; }
      peers := peers[n := NackPeer(from, es[..j] + es[j + 1..])];
      r := Some(es[j]);
    }

    /** remove_ooo_nacks */
    method RemoveOooNacks(ack: Entry) returns (count: nat)
      requires Valid()
      modifies this
      ensures Valid() && Value() == RemoveOoo(old(Value()), ack)
      ensures count == |Filter(NacksOf(old(Value()), ack.d.to), Older(ack))|
    {
      var n := FindByHost(ack.d.to);
      if n == |peers| { return 0; }
      var list, c, _ := WalkList(peers[n].nacks, Older(ack), NotOlder(ack));
      peers, count := peers[n := NackPeer(ack.d.to, list)], c;
    }

    /** remove_lost_acks: the count it returns is never advanced. */
    method RemoveLostAcks(ack: Entry, cons: u16) returns (count: nat)
      requires Valid()
      modifies this
      ensures Valid() && Value() == RemoveLost(old(Value()), ack, cons)
      ensures CancelledByRun(old(Value()), Value(), ack, cons)
      ensures count == 0
    {
      count := 0;
      CancelByRun(Value(), ack, cons);
      var n := FindByHost(ack.d.to);
      if n == |peers| { return; }
      var list, _, _ := WalkList(peers[n].nacks, Cancelled(ack, cons), NotCancelled(ack, cons));
      peers := peers[n := NackPeer(ack.d.to, list)];
    }

    /** resend_ooo_nacks */
    method ResendOooNacks(ack: Entry) returns (count: nat, sent: seq<SendData>)
      requires Valid()
      modifies this
      ensures Valid() && Value() == RemoveOoo(old(Value()), ack)
      ensures count == |Filter(NacksOf(old(Value()), ack.d.to), Older(ack))|
      ensures sent == OooResends(old(Value()), ack)
    {
      var n := FindByHost(ack.d.to);
      if n == |peers| { return 0, []; }
      var list;
      list, count, sent := WalkList(peers[n].nacks, Older(ack), NotOlder(ack));
      peers := peers[n := NackPeer(ack.d.to, list)];
    }

    /** resend_timeout_nacks */
    method ResendTimeoutNacks(now: Timeval, timeout: Addr -> nat) returns (count: nat, sent: seq<SendData>)
      requires Valid()
      modifies this
      ensures Valid() && Value() == Sweep(old(Value()), now, timeout)
      ensures SweptByAge(old(Value()), Value(), now, timeout)
      ensures count == |ExpiredEntries(old(peers), now, timeout)|
      ensures sent == SweepResends(old(Value()), now, timeout)
    {
      count, sent := 0, [];
      var n := 0;
      ghost var done, gone, rest := [], [], peers;
      while n < |peers|
        invariant seqNum == old(seqNum) && appends == old(appends)
        invariant peers == done + rest && n == |done|
        invariant Swept(old(peers), now, timeout, done, gone, rest)
        invariant count == |gone| && sent == Resends(gone)
      {
        var p := peers[n];
        assert p == rest[0];
        var list, c, s := WalkList(p.nacks, IsExpired(now, timeout(p.addr)), NotExpired(now, timeout(p.addr)));
        ghost var more := Filter(p.nacks, IsExpired(now, timeout(p.addr)));
        SweepStep(old(peers), now, timeout, done, gone, rest);
        ResendsConcat(gone, more);
        Replaced(done, rest, NackPeer(p.addr, list));
        peers := peers[n := NackPeer(p.addr, list)];
        count, sent := count + c, sent + s;
        done, gone, rest := done + [NackPeer(p.addr, list)], gone + more, rest[1..];
        n := n + 1;
      }
      assert rest == [] && peers == done;
      SweepEnd(old(peers), now, timeout, done, gone);
      SweepByAge(old(Value()), now, timeout);
    }

    /** get_n_nack */
    method GetNNack() returns (count: nat)
      ensures count == CountNacks(peers)
    {
      count := 0;
      var n := 0;
      while n < |peers|
        invariant 0 <= n <= |peers| && count + CountNacks(peers[n..]) == CountNacks(peers)
      {
        count := count + |peers[n].nacks|;
        n := n + 1;
      }
    }
  }
}
