/** Safety of the acknowledgement protocol over whole runs. */
module ProtocolProofs {
  import opened Basics
  import opened NetEncoder
  import opened Framing
  import opened BlockSpec
  import opened Reassembly
  import opened NackSpec
  import opened NackProps
  import opened Protocol

  // ---------------------------------------------------------------- packets

  lemma SubmittedGood(w: World, it: Item)
    requires ItemOk(w, it)
    ensures var d := SendData(FragmentPacket(BLK_BLOCK_ACK, FragmentFor(w, it)), it.to);
            Good(w, d) && ItemOf(d) == it
  {
    var fl := BLK_BLOCK_ACK;
    assert FragmentFlags(fl) && NeedAck(fl);
    DecodeInvertsEncode(fl, FragmentFor(w, it));
  }

  lemma ResendGood(w: World, d: SendData)
    requires Good(w, d)
    ensures Good(w, Resend(d)) && ItemOf(Resend(d)) == ItemOf(d)
  {
    FlagFacts(d.packet.flags);
    DecodeInvertsEncode(d.packet.flags, FragmentFor(w, ItemOf(d)));
    DecodeInvertsEncode(MarkRetransmission(d.packet.flags), FragmentFor(w, ItemOf(d)));
  }

  /** The receiver of a good packet gets its fragment and its sequence number. */
  lemma ParsedData(c: Config, m: Msg)
    requires m.DataMsg? && Good(c.world, m.d)
    ensures Parsed(c, m).fragment == Some(FragmentFor(c.world, ItemOf(m.d)))
    ensures Parsed(c, m).ackOut == Some(HostU16(c.order(m.d.to), HostBytes(c.me, m.seqno)))
  {
    var f := FragmentFor(c.world, ItemOf(m.d));
    DeliveredBelow256(c.me, c.order(m.d.to), m.d.packet.flags, f, m.seqno, m.consecutive, 0);
  }

  /** The sender of the packet gets back the sequence number it chose and the receiver's count. */
  lemma ParsedAck(c: Config, m: Msg, seqno: u16)
    requires m.AckMsg? && m.echo == HostU16(c.order(m.from), HostBytes(c.me, seqno))
    ensures var r := Process(c.me, AckBytes(c, m)).ackIn; r.Some? && r.value.seqno == seqno && r.value.cons == m.cons
  {
    AckTrip(c.me, c.order(m.from), seqno, m.sec, m.usec, m.cons, 0, 0);
  }

  // ---------------------------------------------------------------- the invariant

  /** The peer holds the fragment, or has it in hand and stores it next. */
  predicate Safe(s: State, it: Item) {
    var r := RxAt(s, it.to);
    Held(r.cache, it.key, it.fid) || (r.hand.Some? && FragmentKey(r.hand.value) == it.key && r.hand.value.fid == it.fid)
  }

  /** The peer holds the `cons` fragments just below. */
  predicate RunHeld(s: State, it: Item, cons: nat) {
    cons <= it.fid && forall j :: it.fid - cons <= j < it.fid ==> Held(RxAt(s, it.to).cache, it.key, j)
  }

  predicate AllGood(w: World, ds: seq<SendData>) { forall d :: d in ds ==> Good(w, d) }

  predicate Logged(s: State, e: Entry) { 1 <= e.serial <= |s.log| && s.log[e.serial - 1] == e.d }

  ghost predicate InvTx(c: Config, s: State) {
    && AllGood(c.world, s.retr) && AllGood(c.world, s.send) && AllGood(c.world, s.log)
    && (s.hand.Some? ==> Good(c.world, s.hand.value))
    && TableInv(s.table, None) && s.table.appends == |s.log|
    && (forall e :: InTable(s.table, e) ==> Logged(s, e))
  }

  ghost predicate ReceiverOk(w: World, r: Receiver) {
    && CacheOk(w, r.cache)
    && (r.hand.Some? ==>
          var f := r.hand.value; var k := FragmentKey(f);
          k in w && f.fid < Fn(w[k]) && f == FragmentOf(k, w[k], f.fid))
  }

  ghost predicate InvRx(c: Config, s: State) { forall a :: a in s.rx ==> ReceiverOk(c.world, s.rx[a]) }

  /** A datagram carries or answers a transmitted packet. An acknowledgement is never early: its fragment
      is safe, and the run it reports is held. */
  ghost predicate MsgOk(c: Config, s: State, m: Msg) {
    && 1 <= m.serial <= |s.log|
    && var d := s.log[m.serial - 1];
       match m
       case DataMsg(_, d', seqno, _) => d' == d && seqno == m.serial % 0x1_0000
       case AckMsg(_, from, echo, _, _, cons) =>
         && from == d.to && echo == HostU16(c.order(from), HostBytes(c.me, m.serial % 0x1_0000))
         && Safe(s, ItemOf(d)) && RunHeld(s, ItemOf(d), cons)
  }

  ghost predicate InvNet(c: Config, s: State) { forall m :: m in s.net ==> MsgOk(c, s, m) }

  ghost predicate InvProc(c: Config, s: State) {
    match s.proc
    case Idle => true
    case Popped(e, cons) => Good(c.world, e.d) && Safe(s, ItemOf(e.d)) && RunHeld(s, ItemOf(e.d), cons)
    case Pruned(e) => Good(c.world, e.d)
  }

  predicate Queued(ds: seq<SendData>, it: Item) { exists d :: d in ds && ItemOf(d) == it }

  ghost predicate Listed(t: Table, it: Item) { exists e :: InTable(t, e) && ItemOf(e.d) == it }

  /** Where an accepted fragment can be. */
  ghost predicate Covered(s: State, it: Item) {
    || Queued(s.retr, it) || Queued(s.send, it)
    || (s.hand.Some? && ItemOf(s.hand.value) == it)
    || Listed(s.table, it)
    || Safe(s, it)
    || it in s.dropped || it in s.discarded
  }

  ghost predicate InvCover(s: State) { forall it :: it in s.accepted ==> Covered(s, it) }

  ghost predicate Inv(c: Config, s: State) {
    InvTx(c, s) && InvRx(c, s) && InvNet(c, s) && InvProc(c, s) && InvCover(s)
  }

  // ---------------------------------------------------------------- sender steps

  /** A step on the queues, the sender's hand and the accounts keeps what is said about the rest. */
  lemma QueueStepKeeps(c: Config, s: State, s': State)
    requires Inv(c, s) && InvCover(s')
    requires AllGood(c.world, s'.retr) && AllGood(c.world, s'.send) && (s'.hand.Some? ==> Good(c.world, s'.hand.value))
    requires s' == s.(retr := s'.retr, send := s'.send, hand := s'.hand, accepted := s'.accepted)
    ensures Inv(c, s')
  {
    assert forall e :: InTable(s'.table, e) ==> Logged(s, e) && Logged(s', e);
    forall m | m in s'.net ensures MsgOk(c, s', m) { assert MsgOk(c, s, m); }
  }

  lemma SubmitCovers(s: State, s': State, d: SendData)
    requires InvCover(s) && s' == s.(send := s.send + [d], accepted := s.accepted + {ItemOf(d)})
    ensures InvCover(s')
  {
    assert d in s'.send;
    forall x | x in s'.accepted ensures Covered(s', x) {
      if x != ItemOf(d) {
        assert Covered(s, x);
        if Queued(s.send, x) {
          var y :| y in s.send && ItemOf(y) == x;
          assert y in s'.send;
        }
      }
    }
  }

  lemma SubmitKeeps(c: Config, s: State, it: Item, token: bool)
    requires Inv(c, s) && ItemOk(c.world, it)
    ensures Inv(c, SubmitStep(c, s, it, token))
  {
    SubmittedGood(c.world, it);
    var d := SendData(FragmentPacket(BLK_BLOCK_ACK, FragmentFor(c.world, it)), it.to);
    assert !IsRetransmission(d.packet.flags);
    if token && |s.send| < RING {
      var s' := s.(send := s.send + [d], accepted := s.accepted + {it});
      assert SubmitStep(c, s, it, token) == s';
      SubmitCovers(s, s', d);
      QueueStepKeeps(c, s, s');
    }
  }

  lemma TakeHead(q: seq<SendData>, it: Item)
    requires q != [] && Queued(q, it)
    ensures ItemOf(q[0]) == it || Queued(q[1..], it)
  {
    var d :| d in q && ItemOf(d) == it;
    assert d == q[0] || d in q[1..];
  }

  lemma DequeueCovers(s: State, s': State, fromSend: bool)
    requires InvCover(s) && s.hand.None? && (if fromSend then s.send != [] else s.retr != [])
    requires s' == if fromSend then s.(hand := Some(s.send[0]), send := s.send[1..])
                   else s.(hand := Some(s.retr[0]), retr := s.retr[1..])
    ensures InvCover(s')
  {
    var q := if fromSend then s.send else s.retr;
    forall x | x in s'.accepted ensures Covered(s', x) {
      assert Covered(s, x);
      if Queued(q, x) { TakeHead(q, x); }
    }
  }

  lemma DequeueKeeps(c: Config, s: State, fromSend: bool)
    requires Inv(c, s) && Enabled(c, s, Dequeue(fromSend))
    ensures Inv(c, Step(c, s, Dequeue(fromSend)))
  {
    var s' := Step(c, s, Dequeue(fromSend));
    DequeueCovers(s, s', fromSend);
    QueueStepKeeps(c, s, s');
  }

  lemma TransmitTx(c: Config, s: State, now: Timeval, sleeptime: u32, consecutive: bool)
    requires InvTx(c, s) && s.hand.Some?
    ensures InvTx(c, TransmitStep(s, now, sleeptime, consecutive))
  {
    var d := s.hand.value;
    var s' := TransmitStep(s, now, sleeptime, consecutive);
    AppendKeepsInv(s.table, d, now, sleeptime, None);
    forall x | InTable(s'.table, x) ensures Logged(s', x) {
      AppendMembers(s.table, d, now, sleeptime, x);
      if InTable(s.table, x) { assert Logged(s, x); }
    }
  }

  lemma TransmitNet(c: Config, s: State, now: Timeval, sleeptime: u32, consecutive: bool)
    requires InvNet(c, s) && s.hand.Some? && s.table.appends == |s.log|
    ensures InvNet(c, TransmitStep(s, now, sleeptime, consecutive))
  {
    var s' := TransmitStep(s, now, sleeptime, consecutive);
    forall m | m in s'.net ensures MsgOk(c, s', m) {
      if m in s.net { assert MsgOk(c, s, m) && s'.log[m.serial - 1] == s.log[m.serial - 1]; }
    }
  }

  lemma TransmitCovers(s: State, now: Timeval, sleeptime: u32, consecutive: bool)
    requires InvCover(s) && s.hand.Some?
    ensures InvCover(TransmitStep(s, now, sleeptime, consecutive))
  {
    var d := s.hand.value;
    var e := NewEntry(s.table, d, now, sleeptime);
    var s' := TransmitStep(s, now, sleeptime, consecutive);
    AppendMembers(s.table, d, now, sleeptime, e);
    forall x | x in s'.accepted ensures Covered(s', x) {
      assert Covered(s, x);
      if ItemOf(d) == x {
        assert InTable(s'.table, e) && ItemOf(e.d) == x;
      } else if Listed(s.table, x) {
        var y :| InTable(s.table, y) && ItemOf(y.d) == x;
        AppendMembers(s.table, d, now, sleeptime, y);
      }
    }
  }

  lemma TransmitKeeps(c: Config, s: State, now: Timeval, sleeptime: u32, consecutive: bool)
    requires Inv(c, s) && s.hand.Some?
    ensures Inv(c, TransmitStep(s, now, sleeptime, consecutive))
  {
    TransmitTx(c, s, now, sleeptime, consecutive);
    TransmitNet(c, s, now, sleeptime, consecutive);
    TransmitCovers(s, now, sleeptime, consecutive);
  }

  // ---------------------------------------------------------------- receiver steps

  /** The receivers of s' have at least what those of s have. */
  ghost predicate RxGrows(s: State, s': State) { forall it :: Safe(s, it) ==> Safe(s', it) }

  ghost predicate HeldGrowsAll(s: State, s': State) {
    forall a, k, i :: Held(RxAt(s, a).cache, k, i) ==> Held(RxAt(s', a).cache, k, i)
  }

  /** Growing receivers keep everything that is said about them. */
  lemma RxStepKeeps(c: Config, s: State, s': State)
    requires Inv(c, s) && InvRx(c, s') && RxGrows(s, s') && HeldGrowsAll(s, s')
    requires s' == s.(rx := s'.rx, net := s'.net)
    requires forall m :: m in s'.net && m !in s.net ==> MsgOk(c, s', m)
    ensures Inv(c, s')
  {
    forall it: Item, cons | RunHeld(s, it, cons) ensures RunHeld(s', it, cons) {
      assert forall j :: it.fid - cons <= j < it.fid ==> Held(RxAt(s, it.to).cache, it.key, j);
    }
    forall m | m in s'.net ensures MsgOk(c, s', m) {
      if m in s.net { assert MsgOk(c, s, m); }
    }
    forall it | it in s'.accepted ensures Covered(s', it) { assert Covered(s, it); }
  }

  /** The state after a fragment arrives: the fragment in the receiver's hand, and an acknowledgement
      that reports the run below it. */
  lemma ArriveEffect(c: Config, s: State, m: Msg, sec: u32, usec: u32)
    requires InvTx(c, s) && InvNet(c, s) && Enabled(c, s, Arrive(m, sec, usec))
    ensures var it := ItemOf(m.d);
            var r := RxAt(s, m.d.to);
            && Good(c.world, m.d) && MsgOk(c, s, m)
            && ConsInRange(r.cache, FragmentFor(c.world, it))
            && ArriveStep(c, s, m, sec, usec)
               == s.(net := s.net + {AckMsg(m.serial, m.d.to, HostU16(c.order(m.d.to), HostBytes(c.me, m.seqno)),
                                            sec, usec, Consecutives(r.cache, it.key, it.fid))},
                     rx := s.rx[m.d.to := r.(hand := Some(FragmentFor(c.world, it)))])
  {
    assert MsgOk(c, s, m);
    assert m.d in s.log;
    ParsedData(c, m);
  }

  /** The acknowledgement it sends is truthful. */
  lemma AckTruthful(c: Config, s: State, s': State, m: Msg, ack: Msg)
    requires m.DataMsg? && ack.AckMsg? && Good(c.world, m.d) && MsgOk(c, s, m) && s'.log == s.log
    requires var it := ItemOf(m.d);
             var r := RxAt(s, m.d.to);
             && RxAt(s', m.d.to) == r.(hand := Some(FragmentFor(c.world, it)))
             && ConsInRange(r.cache, FragmentFor(c.world, it))
             && ack.serial == m.serial && ack.from == m.d.to
             && ack.echo == HostU16(c.order(m.d.to), HostBytes(c.me, m.seqno))
             && ack.cons == Consecutives(r.cache, it.key, it.fid)
    ensures MsgOk(c, s', ack)
  {
    var it := ItemOf(m.d);
    assert FragmentKey(FragmentFor(c.world, it)) == it.key;
    assert Safe(s', it);
    assert RunHeld(s', it, ack.cons);
  }

  /** Taking a fragment into an empty hand loses nothing. */
  lemma HandKeeps(c: Config, s: State, s': State, it: Item)
    requires InvRx(c, s) && ItemOk(c.world, it) && RxAt(s, it.to).hand.None?
    requires s'.rx == s.rx[it.to := RxAt(s, it.to).(hand := Some(FragmentFor(c.world, it)))]
    ensures InvRx(c, s') && RxGrows(s, s') && HeldGrowsAll(s, s')
  {
    assert forall b :: RxAt(s', b).cache == RxAt(s, b).cache && (RxAt(s, b).hand.Some? ==> RxAt(s', b) == RxAt(s, b));
  }

  lemma ArriveKeeps(c: Config, s: State, m: Msg, sec: u32, usec: u32)
    requires Inv(c, s) && Enabled(c, s, Arrive(m, sec, usec))
    ensures Inv(c, ArriveStep(c, s, m, sec, usec))
  {
    ArriveEffect(c, s, m, sec, usec);
    var s' := ArriveStep(c, s, m, sec, usec);
    var it := ItemOf(m.d);
    var ack := AckMsg(m.serial, m.d.to, HostU16(c.order(m.d.to), HostBytes(c.me, m.seqno)), sec, usec,
                      Consecutives(RxAt(s, m.d.to).cache, it.key, it.fid));
    AckTruthful(c, s, s', m, ack);
    HandKeeps(c, s, s', it);
    RxStepKeeps(c, s, s');
  }

  lemma StoreKeeps(c: Config, s: State, at: Addr, junk: u16)
    requires Inv(c, s) && Enabled(c, s, Store(at, junk))
    ensures Inv(c, StoreStep(s, at, junk))
  {
    var r := RxAt(s, at);
    var f := r.hand.value;
    var k := FragmentKey(f);
    assert ReceiverOk(c.world, r);
    DeliverEffect(c.world, r.cache, k, f.fid, junk);
    var s' := StoreStep(s, at, junk);
    var r' := RxAt(s', at);
    forall k', i | Held(r.cache, k', i) ensures Held(r'.cache, k', i) {
      HeldGrows(c.world, r.cache, k, f.fid, junk, k', i);
    }
    assert forall b :: b != at ==> RxAt(s', b) == RxAt(s, b);
    RxStepKeeps(c, s, s');
  }

  // ---------------------------------------------------------------- handling an acknowledgement

  lemma PopNamesSerial(t: Table, serial: nat, from: Addr)
    requires TableInv(t, None) && !Misleads(NacksOf(t, from), serial)
    ensures var popped := Pop(t, serial % 0x1_0000, from).1;
            popped.Some? ==> InTable(t, popped.value) && popped.value.serial == serial
  {
    PopsAnotherIff(t, serial, from);
    var popped := Pop(t, serial % 0x1_0000, from).1;
    if popped.Some? { PopMembers(t, serial % 0x1_0000, from, popped.value); }
  }

  lemma AnswerParsed(c: Config, s: State, m: Msg)
    requires MsgOk(c, s, m) && m.AckMsg?
    ensures var r := Process(c.me, AckBytes(c, m)).ackIn;
            r.Some? && r.value.seqno == m.serial % 0x1_0000 && r.value.cons == m.cons
  {
    ParsedAck(c, m, m.serial % 0x1_0000);
  }

  /** The popped entry is the packet the acknowledgement answers. */
  lemma PopIsAnswered(c: Config, s: State, m: Msg)
    requires InvTx(c, s) && MsgOk(c, s, m) && m.AckMsg? && Clear(s, AckArrive(m))
    ensures var popped := Pop(s.table, m.serial % 0x1_0000, m.from).1;
            popped.Some? ==>
              && InTable(s.table, popped.value) && popped.value.serial == m.serial
              && Logged(s, popped.value) && popped.value.d == s.log[m.serial - 1]
  {
    PopNamesSerial(s.table, m.serial, m.from);
    var popped := Pop(s.table, m.serial % 0x1_0000, m.from).1;
    if popped.Some? { assert Logged(s, popped.value); }
  }

  /** The state after an acknowledgement is taken up. */
  lemma AckArriveEffect(c: Config, s: State, m: Msg)
    requires MsgOk(c, s, m) && m.AckMsg?
    ensures var (t, popped) := Pop(s.table, m.serial % 0x1_0000, m.from);
            AckArriveStep(c, s, m) == if popped.None? then s else s.(table := t, proc := Popped(popped.value, m.cons))
  {
    AnswerParsed(c, s, m);
  }

  lemma AckArriveKeeps(c: Config, s: State, m: Msg)
    requires Inv(c, s) && Clear(s, AckArrive(m)) && Enabled(c, s, AckArrive(m))
    ensures Inv(c, AckArriveStep(c, s, m))
  {
    var s' := AckArriveStep(c, s, m);
    assert MsgOk(c, s, m);
    AckArriveEffect(c, s, m);
    PopIsAnswered(c, s, m);
    var seqno := m.serial % 0x1_0000;
    if s' != s {
      var e := s'.proc.e;
      PopKeepsInv(s.table, seqno, m.from, None);
      forall x ensures InTable(s'.table, x) ==> InTable(s.table, x)
               ensures InTable(s.table, x) ==> InTable(s'.table, x) || x == e
      {
        PopMembers(s.table, seqno, m.from, x);
      }
      assert e.d in s.log;
      TableStepKeeps(c, s, s');
    }
  }

  /** A step that only removes entries from the table, and changes the processor's place, keeps the
      invariant when every removed fragment is covered otherwise. */
  lemma TableStepKeeps(c: Config, s: State, s': State)
    requires Inv(c, s) && TableInv(s'.table, None) && s'.table.appends == s.table.appends && InvProc(c, s')
    requires s' == s.(table := s'.table, proc := s'.proc, known := s'.known, discarded := s'.discarded)
    requires s.discarded <= s'.discarded
    requires forall x :: InTable(s'.table, x) ==> InTable(s.table, x)
    requires forall x :: InTable(s.table, x) ==> InTable(s'.table, x) || Covered(s', ItemOf(x.d))
    ensures Inv(c, s')
  {
    assert forall x :: InTable(s'.table, x) ==> Logged(s, x) && Logged(s', x);
    forall m | m in s'.net ensures MsgOk(c, s', m) { assert MsgOk(c, s, m); }
    forall it | it in s'.accepted ensures Covered(s', it) {
      assert Covered(s, it);
      if Listed(s.table, it) {
        var y :| InTable(s.table, y) && ItemOf(y.d) == it;
        if InTable(s'.table, y) { assert Listed(s'.table, it); }
      }
    }
  }

  lemma FirstAckKeeps(c: Config, s: State)
    requires Inv(c, s) && s.proc.Popped?
    ensures Inv(c, FirstAckStep(s))
  {
    var e := s.proc.e;
    var s' := FirstAckStep(s);
    FilterPeerKeepsInv(s.table, e.d.to, NotOlder(e), None);
    forall x ensures InTable(s'.table, x) ==> InTable(s.table, x)
             ensures InTable(s.table, x) ==> InTable(s'.table, x) || Covered(s', ItemOf(x.d))
    {
      FilterPeerMembers(s.table, e.d.to, NotOlder(e), x);
    }
    TableStepKeeps(c, s, s');
  }

  /** What remove_lost_acks cancels, the peer holds. */
  lemma CancelledAreHeld(c: Config, s: State, x: Entry)
    requires Inv(c, s) && s.proc.Popped?
    requires InTable(s.table, x) && !InTable(RemoveLost(s.table, s.proc.e, s.proc.cons), x)
    ensures Held(RxAt(s, x.d.to).cache, ItemOf(x.d).key, ItemOf(x.d).fid)
  {
    var e, cons := s.proc.e, s.proc.cons;
    FilterPeerMembers(s.table, e.d.to, NotCancelled(e, cons), x);
    assert InRun(x, e, cons);
    var i := FindPeer(s.table.peers, e.d.to);
    assert PeerOk(s.table.peers[i], s.table.appends, None);
    assert EntryOk(x, e.d.to, s.table.appends);
    var it, jt := ItemOf(e.d), ItemOf(x.d);
    assert it.key == jt.key && it.fid - cons <= jt.fid < it.fid;
  }

  lemma CancelKeeps(c: Config, s: State)
    requires Inv(c, s) && Enabled(c, s, Cancel)
    ensures Inv(c, Step(c, s, Cancel))
  {
    var e, cons := s.proc.e, s.proc.cons;
    var s' := Step(c, s, Cancel);
    FilterPeerKeepsInv(s.table, e.d.to, NotCancelled(e, cons), None);
    forall x ensures InTable(s'.table, x) ==> InTable(s.table, x)
             ensures InTable(s.table, x) ==> InTable(s'.table, x) || Covered(s', ItemOf(x.d))
    {
      FilterPeerMembers(s.table, e.d.to, NotCancelled(e, cons), x);
      if InTable(s.table, x) && !InTable(s'.table, x) { CancelledAreHeld(c, s, x); }
    }
    TableStepKeeps(c, s, s');
  }

  // ---------------------------------------------------------------- requeueing

  /** send_data of several packets: the queues only grow, and every packet is queued or accounted for. */
  lemma {:induction false} EnqueueAllEffect(w: World, s: State, ds: seq<SendData>, tokens: seq<bool>)
    requires AllGood(w, s.retr) && AllGood(w, s.send) && AllGood(w, ds)
    ensures var s' := EnqueueAll(s, ds, tokens);
            && AllGood(w, s'.retr) && AllGood(w, s'.send)
            && s.dropped <= s'.dropped
            && (forall d :: d in s.retr ==> d in s'.retr) && (forall d :: d in s.send ==> d in s'.send)
            && (forall d :: d in ds ==> d in s'.retr || d in s'.send || ItemOf(d) in s'.dropped)
    decreases |ds|
  {
    if ds != [] {
      var (s1, ok) := Enqueue(s, ds[0], tokens != [] && tokens[0]);
      var s2 := if ok then s1 else s1.(dropped := s1.dropped + {ItemOf(ds[0])});
      EnqueueAllEffect(w, s2, ds[1..], if tokens == [] then [] else tokens[1..]);
      assert forall d :: d in ds <==> d == ds[0] || d in ds[1..];
    }
  }

  lemma GoneGood(c: Config, s: State, gone: seq<Entry>)
    requires InvTx(c, s) && forall x :: x in gone ==> InTable(s.table, x)
    ensures forall x :: x in gone ==> Good(c.world, x.d) && NeedAck(x.d.packet.flags)
    ensures AllGood(c.world, Resends(gone))
  {
    forall x | x in gone ensures Good(c.world, x.d) && NeedAck(x.d.packet.flags) {
      assert Logged(s, x);
      assert x.d in s.log;
    }
    ResendsAll(gone);
    forall d | d in Resends(gone) ensures Good(c.world, d) {
      var i :| 0 <= i < |gone| && Resends(gone)[i] == d;
      ResendGood(c.world, gone[i].d);
    }
  }

  /** A step that takes entries from the table and requeues them keeps the invariant. */
  lemma RequeueStepKeeps(c: Config, s: State, t: Table, proc: Proc, gone: seq<Entry>, tokens: seq<bool>)
    requires Inv(c, s) && TableInv(t, None) && t.appends == s.table.appends && (proc == s.proc || proc == Idle)
    requires forall x :: InTable(t, x) ==> InTable(s.table, x)
    requires forall x :: x in gone ==> InTable(s.table, x)
    requires forall x :: InTable(s.table, x) ==> InTable(t, x) || x in gone
    ensures Inv(c, EnqueueAll(s.(table := t, proc := proc), Resends(gone), tokens))
  {
    GoneGood(c, s, gone);
    var s0 := s.(table := t, proc := proc);
    EnqueueAllEffect(c.world, s0, Resends(gone), tokens);
    var s' := EnqueueAll(s0, Resends(gone), tokens);
    assert forall x :: InTable(t, x) ==> Logged(s, x) && Logged(s', x);
    forall m | m in s'.net ensures MsgOk(c, s', m) { assert MsgOk(c, s, m); }
    forall it | it in s'.accepted ensures Covered(s', it) {
      RequeuedCovered(c, s, t, gone, s', it);
    }
  }

  lemma RequeuedCovered(c: Config, s: State, t: Table, gone: seq<Entry>, s': State, it: Item)
    requires InvCover(s) && it in s.accepted
    requires s'.table == t && s'.rx == s.rx && s'.hand == s.hand
    requires s.dropped <= s'.dropped && s.discarded <= s'.discarded
    requires (forall d :: d in s.retr ==> d in s'.retr) && (forall d :: d in s.send ==> d in s'.send)
    requires forall x :: InTable(s.table, x) ==> InTable(t, x) || x in gone
    requires forall x :: x in gone ==> Good(c.world, x.d) && NeedAck(x.d.packet.flags)
    requires forall d :: d in Resends(gone) ==> d in s'.retr || d in s'.send || ItemOf(d) in s'.dropped
    ensures Covered(s', it)
  {
    assert Covered(s, it);
    if Listed(s.table, it) {
      var y :| InTable(s.table, y) && ItemOf(y.d) == it;
      if InTable(t, y) {
        assert Listed(s'.table, it);
      } else {
        ResendsAll(gone);
        var i :| 0 <= i < |gone| && gone[i] == y;
        var d := Resends(gone)[i];
        assert d == Resend(y.d) && d in Resends(gone);
        ResendGood(c.world, y.d);
        assert ItemOf(d) == it;
      }
    } else if Queued(s.retr, it) {
      var d :| d in s.retr && ItemOf(d) == it;
      assert d in s'.retr;
    } else if Queued(s.send, it) {
      var d :| d in s.send && ItemOf(d) == it;
      assert d in s'.send;
    }
  }

  lemma RequeueKeeps(c: Config, s: State, tokens: seq<bool>)
    requires Inv(c, s) && s.proc.Pruned?
    ensures Inv(c, Step(c, s, Requeue(tokens)))
  {
    var e := s.proc.e;
    var gone := Filter(NacksOf(s.table, e.d.to), Older(e));
    FilterMembers(NacksOf(s.table, e.d.to), Older(e));
    FilterPeerKeepsInv(s.table, e.d.to, NotOlder(e), None);
    var t := RemoveOoo(s.table, e);
    forall x ensures InTable(t, x) ==> InTable(s.table, x)
             ensures InTable(s.table, x) ==> InTable(t, x) || x in gone
    {
      FilterPeerMembers(s.table, e.d.to, NotOlder(e), x);
    }
    forall x | x in gone ensures InTable(s.table, x) {
      assert x in s.table.peers[FindPeer(s.table.peers, e.d.to)].nacks;
    }
    RequeueStepKeeps(c, s, t, Idle, gone, tokens);
  }

  lemma TimeoutKeeps(c: Config, s: State, now: Timeval, timeout: Addr -> nat, tokens: seq<bool>)
    requires Inv(c, s)
    ensures Inv(c, Step(c, s, Timeout(now, timeout, tokens)))
  {
    var gone := ExpiredEntries(s.table.peers, now, timeout);
    var t := Sweep(s.table, now, timeout);
    SweepKeepsInv(s.table, now, timeout, None);
    forall x ensures InTable(t, x) ==> InTable(s.table, x)
             ensures InTable(s.table, x) ==> InTable(t, x) || x in gone
             ensures x in gone ==> InTable(s.table, x)
    {
      SweepMembers(s.table, now, timeout, x);
    }
    RequeueStepKeeps(c, s, t, s.proc, gone, tokens);
    assert s.(table := t, proc := s.proc) == s.(table := t);
  }

  // ---------------------------------------------------------------- whole runs

  lemma LoseKeeps(c: Config, s: State, m: Msg)
    requires Inv(c, s)
    ensures Inv(c, s.(net := s.net - {m}))
  {
    var s' := s.(net := s.net - {m});
    forall x | x in s'.net ensures MsgOk(c, s', x) { assert MsgOk(c, s, x); }
    forall it | it in s'.accepted ensures Covered(s', it) { assert Covered(s, it); }
  }

  /** Every step keeps the invariant. */
  lemma StepKeeps(c: Config, s: State, ev: Event)
    requires Inv(c, s) && Clear(s, ev) && Enabled(c, s, ev)
    ensures Inv(c, Step(c, s, ev))
  {
    match ev
    case Submit(it, token) => SubmitKeeps(c, s, it, token);
    case Dequeue(fromSend) => DequeueKeeps(c, s, fromSend);
    case Transmit(now, sleeptime, consecutive) => TransmitKeeps(c, s, now, sleeptime, consecutive);
    case Lose(m) => LoseKeeps(c, s, m);
    case Arrive(m, sec, usec) => ArriveKeeps(c, s, m, sec, usec);
    case Store(at, junk) => StoreKeeps(c, s, at, junk);
    case AckArrive(m) => AckArriveKeeps(c, s, m);
    case FirstAck => FirstAckKeeps(c, s);
    case Cancel => CancelKeeps(c, s);
    case Requeue(tokens) => RequeueKeeps(c, s, tokens);
    case Timeout(now, timeout, tokens) => TimeoutKeeps(c, s, now, timeout, tokens);
  }

  lemma {:induction false} RunInv(c: Config, states: seq<State>, evs: seq<Event>, i: nat)
    requires IsRun(c, states, evs) && i < |states|
    ensures Inv(c, states[i])
  {
    if i > 0 {
      RunInv(c, states, evs, i - 1);
      assert StepAt(c, states, evs, i - 1);
      StepKeeps(c, states[i - 1], evs[i - 1]);
    }
  }

  lemma RunNext(c: Config, states: seq<State>, evs: seq<Event>, i: nat)
    requires IsRun(c, states, evs) && i < |evs|
    ensures Inv(c, states[i]) && Clear(states[i], evs[i]) && Next(c, states[i], evs[i], states[i + 1])
  {
    RunInv(c, states, evs, i);
    assert StepAt(c, states, evs, i);
  }

  /** No silent loss: in every state of every run, a fragment that send_data accepted is queued, in the
      sender's hand, in the unacknowledged list, at the peer, or on record as dropped by a full queue
      when requeued or as discarded on the peer's first acknowledgement. */
  lemma NoSilentLoss(c: Config, states: seq<State>, evs: seq<Event>, i: nat, it: Item)
    requires IsRun(c, states, evs) && i < |states| && it in states[i].accepted
    ensures Covered(states[i], it)
  {
    RunInv(c, states, evs, i);
  }

  /** Cancellation is sound: whenever remove_lost_acks drops an entry without resending it, the peer
      already holds that fragment. */
  lemma CancellationSound(c: Config, states: seq<State>, evs: seq<Event>, i: nat, x: Entry)
    requires IsRun(c, states, evs) && i < |evs| && evs[i].Cancel?
    requires InTable(states[i].table, x) && !InTable(states[i + 1].table, x)
    ensures Held(RxAt(states[i], x.d.to).cache, ItemOf(x.d).key, ItemOf(x.d).fid)
  {
    RunNext(c, states, evs, i);
    CancelledAreHeld(c, states[i], x);
  }

  lemma PoppedIsAtPeer(c: Config, s: State, m: Msg)
    requires Inv(c, s) && Clear(s, AckArrive(m)) && Enabled(c, s, AckArrive(m)) && AckArriveStep(c, s, m).proc.Popped?
    ensures var e := AckArriveStep(c, s, m).proc.e;
            e.serial == m.serial && Logged(s, e) && Safe(s, ItemOf(e.d))
  {
    assert MsgOk(c, s, m);
    AckArriveEffect(c, s, m);
    PopIsAnswered(c, s, m);
  }

  /** An acknowledgement pops the very packet it answers, and that fragment is at the peer. */
  lemma PopSound(c: Config, states: seq<State>, evs: seq<Event>, i: nat)
    requires IsRun(c, states, evs) && i < |evs| && evs[i].AckArrive? && states[i + 1].proc.Popped?
    ensures var e := states[i + 1].proc.e;
            e.serial == evs[i].m.serial && Logged(states[i], e) && Safe(states[i], ItemOf(e.d))
  {
    RunNext(c, states, evs, i);
    PoppedIsAtPeer(c, states[i], evs[i].m);
  }

  /** The condition on runs is exact: in every state a run reaches, an acknowledgement taken up pops another
      packet than the one it answers if and only if its number misleads. */
  lemma MispopIff(c: Config, states: seq<State>, evs: seq<Event>, i: nat, m: Msg)
    requires IsRun(c, states, evs) && i < |states| && Enabled(c, states[i], AckArrive(m))
    ensures var s' := AckArriveStep(c, states[i], m);
            s'.proc.Popped? && s'.proc.e.serial != m.serial <==> Misleads(NacksOf(states[i].table, m.from), m.serial)
  {
    RunInv(c, states, evs, i);
    assert MsgOk(c, states[i], m);
    AckArriveEffect(c, states[i], m);
    PopsAnotherIff(states[i].table, m.serial, m.from);
  }

  /** It holds in particular whenever sequence numbers are not reused: while no outstanding entry and no
      datagram is 65536 or more transmissions old. */
  lemma NoReuseIsClear(c: Config, s: State, ev: Event)
    requires Inv(c, s) && NoSeqReuse(s) && Enabled(c, s, ev)
    ensures Clear(s, ev)
  {
    if ev.AckArrive? {
      assert MsgOk(c, s, ev.m);
      RecentNeverMisleads(s.table, ev.m.serial, ev.m.from);
    }
  }

  /** The receivers never reach outside their arrays, so these conditions block no step, and every block
      they hold is at all times a part of the original. */
  lemma ReceiversInRange(c: Config, states: seq<State>, evs: seq<Event>, i: nat, a: Addr)
    requires IsRun(c, states, evs) && i < |states|
    ensures var r := RxAt(states[i], a);
            && CacheOk(c.world, r.cache)
            && (r.hand.Some? ==> InRange(r.cache, r.hand.value))
            && (forall m :: m in states[i].net && m.DataMsg? && m.d.to == a && Parsed(c, m).fragment.Some? ==>
                  ConsInRange(r.cache, Parsed(c, m).fragment.value))
  {
    RunInv(c, states, evs, i);
    var s := states[i];
    var r := RxAt(s, a);
    if r.hand.Some? {
      var f := r.hand.value;
      DeliverEffect(c.world, r.cache, FragmentKey(f), f.fid, 0);
    }
    forall m | m in s.net && m.DataMsg? && m.d.to == a
      ensures Parsed(c, m).fragment.Some? && ConsInRange(r.cache, Parsed(c, m).fragment.value)
    {
      assert MsgOk(c, s, m);
      assert m.d in s.log;
      ParsedData(c, m);
      var it := ItemOf(m.d);
      DeliverEffect(c.world, r.cache, it.key, it.fid, 0);
    }
  }

  /** Nothing is on its way any more. */
  ghost predicate Quiet(s: State) {
    && s.retr == [] && s.send == [] && s.hand.None?
    && (forall e :: !InTable(s.table, e))
    && (forall a :: a in s.rx ==> s.rx[a].hand.None?)
  }

  /** Every fragment of the block was accepted for the peer, and none is on record as dropped or discarded. */
  ghost predicate AllAccounted(c: Config, s: State, a: Addr, k: BlockKey)
    requires k in c.world
  {
    forall j :: 0 <= j < Fn(c.world[k]) ==>
      Item(a, k, j) in s.accepted && Item(a, k, j) !in s.dropped && Item(a, k, j) !in s.discarded
  }

  /** End to end: when a run has gone quiet, a block all of whose fragments were accepted for a peer, none
      of them on record as dropped or discarded, is complete at that peer and its bytes are the original's. */
  lemma QuietMeansDelivered(c: Config, states: seq<State>, evs: seq<Event>, i: nat, a: Addr, k: BlockKey)
    requires IsRun(c, states, evs) && i < |states| && Quiet(states[i]) && k in c.world
    requires AllAccounted(c, states[i], a, k)
    ensures var found := Lookup(RxAt(states[i], a).cache, k);
            && found.Some? && IsComplete(found.value)
            && |c.world[k]| <= |found.value.data| && found.value.data[..|c.world[k]|] == c.world[k]
  {
    RunInv(c, states, evs, i);
    var s := states[i];
    var o := c.world[k];
    forall j | 0 <= j < Fn(o) ensures Held(RxAt(s, a).cache, k, j) {
      var it := Item(a, k, j);
      assert Covered(s, it);
      assert !Queued(s.retr, it) && !Queued(s.send, it) && !Listed(s.table, it);
    }
    assert Held(RxAt(s, a).cache, k, 0);
    HeldMeansWhole(c.world, RxAt(s, a).cache, k);
  }

  lemma HeldMeansWhole(w: World, c: seq<Block>, k: BlockKey)
    requires CacheOk(w, c) && k in w && forall j :: 0 <= j < Fn(w[k]) ==> Held(c, k, j)
    ensures var found := Lookup(c, k);
            && found.Some? && IsComplete(found.value)
            && |w[k]| <= |found.value.data| && found.value.data[..|w[k]|] == w[k]
  {
    assert Held(c, k, 0);
    var b := Lookup(c, k).value;
    if Received(k, w[k], b) {
      forall j | 0 <= j < |b.have| ensures b.have[j] { assert Held(c, k, j); }
      FilledComplete(w[k], b.have);
    }
  }
}
