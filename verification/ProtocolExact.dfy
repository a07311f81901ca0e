/** What single steps of the protocol do, exactly, in every run: which run an acknowledgement reports, what
    it cancels and what it leaves to be resent, which queue a packet waits in, and when a fragment goes on
    the accounts of dropped and discarded ones. */
module ProtocolExact {
  import opened Basics
  import opened NetEncoder
  import opened Framing
  import opened BlockSpec
  import opened Reassembly
  import opened NackSpec
  import opened NackProps
  import BlockCache
  import opened AckMeaning
  import opened Protocol
  import opened ProtocolProofs

  // ---------------------------------------------------------------- what an acknowledgement reports

  /** In every run, a fragment that arrives is answered with one acknowledgement, which reports the whole run
      the receiver holds below it at that moment: no fragment less, and no fragment more. */
  lemma AckReportsWholeRun(c: Config, states: seq<State>, evs: seq<Event>, i: nat)
    requires IsRun(c, states, evs) && i < |evs| && evs[i].Arrive? && evs[i].m.DataMsg?
    ensures var m, s, s' := evs[i].m, states[i], states[i + 1];
            exists ack: Msg ::
              && s'.net == s.net + {ack} && ack.AckMsg? && ack.serial == m.serial && ack.from == m.d.to
              && ack.sec == evs[i].sec && ack.usec == evs[i].usec
              && WholeRun(RxAt(s, m.d.to).cache, ItemOf(m.d).key, ItemOf(m.d).fid, ack.cons)
  {
    RunNext(c, states, evs, i);
    var m, s, s' := evs[i].m, states[i], states[i + 1];
    ArriveEffect(c, s, m, evs[i].sec, evs[i].usec);
    var it := ItemOf(m.d);
    var cons := Consecutives(RxAt(s, m.d.to).cache, it.key, it.fid);
    var ack := AckMsg(m.serial, m.d.to, HostU16(c.order(m.d.to), HostBytes(c.me, m.seqno)),
                      evs[i].sec, evs[i].usec, cons);
    assert s'.net == s.net + {ack};
    ConsecutivesExact(RxAt(s, m.d.to).cache, it.key, it.fid);
  }

  // ---------------------------------------------------------------- what it cancels

  lemma ListedIn(t: Table, x: Entry)
    requires TableInv(t, None)
    ensures InTable(t, x) <==> x in NacksOf(t, x.d.to)
  {
    if InTable(t, x) {
      var i :| 0 <= i < |t.peers| && x in t.peers[i].nacks;
      assert PeerOk(t.peers[i], t.appends, None);
      forall j | 0 <= j < i ensures t.peers[j].addr != x.d.to { assert Apart(t.peers[j], t.peers[i]); }
      PeerUnique(t.peers, x.d.to, i);
    }
  }

  /** The fragment is one of the `cons` just below the other, of the same block for the same peer. */
  predicate JustBelow(jt: Item, it: Item, cons: u16) {
    jt.to == it.to && jt.key == it.key && it.fid - cons <= jt.fid < it.fid
  }

  lemma CancelsInTable(t: Table, e: Entry, cons: u16, x: Entry)
    requires TableInv(t, None) && InTable(t, x) && Normal(x.sendtime) && Normal(e.sendtime)
    ensures !InTable(RemoveLost(t, e, cons), x) <==> SentBefore(x, e) && JustBelow(ItemOf(x.d), ItemOf(e.d), cons)
  {
    FilterPeerKeepsInv(t, e.d.to, NotCancelled(e, cons), None);
    ListedIn(t, x);
    ListedIn(RemoveLost(t, e, cons), x);
    CancelsOne(t, e, cons, x.d.to, x);
  }

  /** In every run, the cancelling step takes a packet off the list if and only if it was sent before the
      acknowledged one and carries one of the `cons` fragments just below it for the same peer. */
  lemma CancelStepExact(c: Config, states: seq<State>, evs: seq<Event>, i: nat, x: Entry)
    requires IsRun(c, states, evs) && i < |evs| && evs[i].Cancel? && InTable(states[i].table, x)
    requires Normal(x.sendtime) && states[i].proc.Popped? && Normal(states[i].proc.e.sendtime)
    ensures var e, cons := states[i].proc.e, states[i].proc.cons;
            !InTable(states[i + 1].table, x) <==> SentBefore(x, e) && JustBelow(ItemOf(x.d), ItemOf(e.d), cons)
  {
    RunNext(c, states, evs, i);
    CancelsInTable(states[i].table, states[i].proc.e, states[i].proc.cons, x);
  }

  /** A step puts no entry on the list but one with a new serial. */
  lemma StepAddsNew(c: Config, s: State, ev: Event, s': State, x: Entry)
    requires Next(c, s, ev, s')
    ensures s.table.appends <= s'.table.appends
    ensures InTable(s'.table, x) ==> InTable(s.table, x) || x.serial > s.table.appends
  {
    match ev
    case Transmit(now, sleeptime, _) => AppendMembers(s.table, s.hand.value, now, sleeptime, x);
    case AckArrive(m) =>
      var r := Process(c.me, AckBytes(c, m)).ackIn;
      if r.Some? { PopMembers(s.table, r.value.seqno, m.from, x); }
    case FirstAck => FilterPeerMembers(s.table, s.proc.e.d.to, NotOlder(s.proc.e), x);
    case Cancel => FilterPeerMembers(s.table, s.proc.e.d.to, NotCancelled(s.proc.e, s.proc.cons), x);
    case Requeue(_) => FilterPeerMembers(s.table, s.proc.e.d.to, NotOlder(s.proc.e), x);
    case Timeout(now, timeout, _) => SweepMembers(s.table, now, timeout, x);
    case _ => assert s'.table == s.table;
  }

  lemma {:induction false} RunAddsNew(c: Config, states: seq<State>, evs: seq<Event>, i: nat, j: nat, x: Entry)
    requires IsRun(c, states, evs) && i <= j < |states|
    ensures InTable(states[j].table, x) ==> InTable(states[i].table, x) || x.serial > states[i].table.appends
    decreases j - i
  {
    if i < j {
      RunAddsNew(c, states, evs, i + 1, j, x);
      RunNext(c, states, evs, i);
      StepAddsNew(c, states[i], evs[i], states[i + 1], x);
    }
  }

  /** In every run, of the packets that were on the list when an acknowledgement cancelled its run, none that
      was sent before the acknowledged one and carries a fragment of that run is on it later. */
  lemma RunStaysCancelled(c: Config, states: seq<State>, evs: seq<Event>, i: nat, j: nat, x: Entry)
    requires IsRun(c, states, evs) && i < j < |states| && evs[i].Cancel? && states[i].proc.Popped?
    requires Normal(states[i].proc.e.sendtime) && Normal(x.sendtime)
    requires InTable(states[j].table, x) && SentBefore(x, states[i].proc.e)
    requires JustBelow(ItemOf(x.d), ItemOf(states[i].proc.e.d), states[i].proc.cons)
    ensures x.serial > states[i].table.appends
  {
    RunAddsNew(c, states, evs, i + 1, j, x);
    CancelAppends(c, states, evs, i, x);
    if InTable(states[i].table, x) { CancelStepExact(c, states, evs, i, x); }
  }

  lemma CancelAppends(c: Config, states: seq<State>, evs: seq<Event>, i: nat, x: Entry)
    requires IsRun(c, states, evs) && i < |evs| && evs[i].Cancel?
    ensures states[i + 1].table.appends == states[i].table.appends
    ensures InTable(states[i + 1].table, x) ==> InTable(states[i].table, x)
  {
    RunNext(c, states, evs, i);
    var e := states[i].proc.e;
    FilterPeerMembers(states[i].table, e.d.to, NotCancelled(e, states[i].proc.cons), x);
  }

  /** So what the acknowledgement then hands to send_data are marked copies of packets sent before the
      acknowledged one that carry other fragments, or were transmitted since the run was cancelled. */
  lemma RequeueSkipsRun(c: Config, states: seq<State>, evs: seq<Event>, i: nat, j: nat, d: SendData)
      returns (x: Entry)
    requires IsRun(c, states, evs) && i < j < |evs| && evs[i].Cancel? && evs[j].Requeue?
    requires states[i].proc.Popped? && forall n :: i < n < j ==> !evs[n].Requeue?
    requires Normal(states[i].proc.e.sendtime) && forall y :: InTable(states[j].table, y) ==> Normal(y.sendtime)
    requires d in HandedOn(states[j], evs[j])
    ensures var e, cons := states[i].proc.e, states[i].proc.cons;
            && InTable(states[j].table, x) && d == Resend(x.d) && SentBefore(x, e)
            && (JustBelow(ItemOf(x.d), ItemOf(e.d), cons) ==> x.serial > states[i].table.appends)
  {
    var e := states[i].proc.e;
    CancelThenRequeue(c, states, evs, i, j);
    RunInv(c, states, evs, j);
    x := ResentFrom(states[j].table, e, d);
    if JustBelow(ItemOf(x.d), ItemOf(e.d), states[i].proc.cons) { RunStaysCancelled(c, states, evs, i, j, x); }
  }

  /** What a step hands to send_data. */
  function HandedOn(s: State, ev: Event): seq<SendData> {
    match ev
    case Requeue(_) => if s.proc.Pruned? then OooResends(s.table, s.proc.e) else []
    case Timeout(now, timeout, _) => SweepResends(s.table, now, timeout)
    case _ => []
  }

  /** A packet handed on is the copy of one on the list. */
  lemma ResentFrom(t: Table, e: Entry, d: SendData) returns (x: Entry)
    requires TableInv(t, None) && d in OooResends(t, e) && Normal(e.sendtime)
    requires forall y :: InTable(t, y) ==> Normal(y.sendtime)
    ensures InTable(t, x) && d == Resend(x.d) && SentBefore(x, e)
  {
    var es := NacksOf(t, e.d.to);
    var gone := Filter(es, Older(e));
    NacksOk(t, e.d.to);
    FilterMembers(es, Older(e));
    ResendsAll(gone);
    MarkedCopies(gone, Resends(gone), d);
    x :| x in gone && d == Resend(x.d);
    ListedIn(t, x);
    MicrosOf(x.sendtime, e.sendtime);
  }

  // ---------------------------------------------------------------- what the other steps do to the list

  /** In every run, a transmission puts one entry on the list: the packet as it was in hand, with the time it
      was sent at and the next serial, and sends it with that number. */
  lemma TransmitExact(c: Config, states: seq<State>, evs: seq<Event>, i: nat, x: Entry)
    requires IsRun(c, states, evs) && i < |evs| && evs[i].Transmit? && states[i].hand.Some?
    ensures var s, s', d, n := states[i], states[i + 1], states[i].hand.value, states[i].table.appends + 1;
            var e := Entry(n % 0x1_0000, n, evs[i].now, evs[i].sleeptime, d);
            && (InTable(s'.table, x) <==> InTable(s.table, x) || x == e)
            && s'.net == s.net + {DataMsg(n, d, n % 0x1_0000, evs[i].consecutive)} && s'.hand == None
  {
    RunNext(c, states, evs, i);
    AppendMembers(states[i].table, states[i].hand.value, evs[i].now, evs[i].sleeptime, x);
  }

  lemma OooInTable(t: Table, e: Entry, x: Entry)
    requires TableInv(t, None) && InTable(t, x) && Normal(x.sendtime) && Normal(e.sendtime)
    ensures !InTable(RemoveOoo(t, e), x) <==> x.d.to == e.d.to && SentBefore(x, e)
  {
    FilterPeerKeepsInv(t, e.d.to, NotOlder(e), None);
    ListedIn(t, x);
    ListedIn(RemoveOoo(t, e), x);
    SurvivesIff(t, e, 0, x.d.to, x);
  }

  /** In every run, the last step of an acknowledgement, on either path, takes a packet off the list if and only
      if it went to the same peer and was sent before the acknowledged one. */
  lemma AckEndsExact(c: Config, states: seq<State>, evs: seq<Event>, i: nat, x: Entry)
    requires IsRun(c, states, evs) && i < |evs| && (evs[i].FirstAck? || evs[i].Requeue?)
    requires InTable(states[i].table, x) && Normal(x.sendtime)
    requires !states[i].proc.Idle? && Normal(states[i].proc.e.sendtime)
    ensures !InTable(states[i + 1].table, x) <==> x.d.to == states[i].proc.e.d.to && SentBefore(x, states[i].proc.e)
  {
    RunNext(c, states, evs, i);
    AckEndsTable(c, states[i], evs[i], states[i + 1]);
    OooInTable(states[i].table, states[i].proc.e, x);
  }

  lemma AckEndsTable(c: Config, s: State, ev: Event, s': State)
    requires Next(c, s, ev, s') && (ev.FirstAck? || ev.Requeue?)
    ensures !s.proc.Idle? && s'.table == RemoveOoo(s.table, s.proc.e)
  {
  }

  lemma SweptInTable(t: Table, now: Timeval, timeout: Addr -> nat, x: Entry)
    requires TableInv(t, None) && InTable(t, x) && Dated(x, now, timeout(x.d.to))
    ensures !InTable(Sweep(t, now, timeout), x) <==> Age(x, now) > timeout(x.d.to)
  {
    SweepKeepsInv(t, now, timeout, None);
    ListedIn(t, x);
    ListedIn(Sweep(t, now, timeout), x);
    SweepByAge(t, now, timeout);
  }

  /** In every run, a sweep takes a packet off the list if and only if it is older than its peer's timeout. */
  lemma TimeoutStepExact(c: Config, states: seq<State>, evs: seq<Event>, i: nat, x: Entry)
    requires IsRun(c, states, evs) && i < |evs| && evs[i].Timeout? && InTable(states[i].table, x)
    requires Dated(x, evs[i].now, evs[i].timeout(x.d.to))
    ensures !InTable(states[i + 1].table, x) <==> Age(x, evs[i].now) > evs[i].timeout(x.d.to)
  {
    RunNext(c, states, evs, i);
    SweptInTable(states[i].table, evs[i].now, evs[i].timeout, x);
  }

  // ---------------------------------------------------------------- one acknowledgement at a time

  /** What a step does to the place of the packet processor and to the peers it knows. */
  predicate ProcMoves(s: State, ev: Event, s': State) {
    match ev
    case AckArrive(_) => s.proc.Idle? && s'.known == s.known && !s'.proc.Pruned?
    case FirstAck =>
      s.proc.Popped? && s.proc.e.d.to !in s.known && s'.proc.Idle? && s'.known == s.known + {s.proc.e.d.to}
    case Cancel => s.proc.Popped? && s.proc.e.d.to in s.known && s'.proc == Pruned(s.proc.e) && s'.known == s.known
    case Requeue(_) => s.proc.Pruned? && s'.proc.Idle? && s'.known == s.known
    case _ => s'.proc == s.proc && s'.known == s.known
  }

  lemma ProcStep(c: Config, s: State, ev: Event, s': State)
    requires Next(c, s, ev, s')
    ensures ProcMoves(s, ev, s')
  {
  }

  lemma RunProc(c: Config, states: seq<State>, evs: seq<Event>, i: nat)
    requires IsRun(c, states, evs) && i < |evs|
    ensures ProcMoves(states[i], evs[i], states[i + 1])
  {
    RunNext(c, states, evs, i);
    ProcStep(c, states[i], evs[i], states[i + 1]);
  }

  /** In every run, an acknowledgement that has cancelled its run goes on to hand older packets to send_data:
      until it does, no other acknowledgement is taken up and this one is not forgotten. */
  lemma {:induction false} CancelThenRequeue(c: Config, states: seq<State>, evs: seq<Event>, i: nat, j: nat)
    requires IsRun(c, states, evs) && i < j < |states| && evs[i].Cancel? && states[i].proc.Popped?
    requires forall n :: i < n < j ==> !evs[n].Requeue?
    ensures states[j].proc == Pruned(states[i].proc.e)
    decreases j
  {
    RunProc(c, states, evs, j - 1);
    if i + 1 < j { CancelThenRequeue(c, states, evs, i, j - 1); }
  }

  lemma {:induction false} KnownSince(c: Config, states: seq<State>, evs: seq<Event>, j: nat, a: Addr) returns (i: nat)
    requires IsRun(c, states, evs) && j < |states| && a in states[j].known
    ensures i < j && evs[i].FirstAck? && states[i].proc.Popped? && states[i].proc.e.d.to == a
  {
    assert j > 0;
    RunProc(c, states, evs, j - 1);
    if a in states[j - 1].known { i := KnownSince(c, states, evs, j - 1, a); } else { i := j - 1; }
  }

  lemma {:induction false} StaysKnown(c: Config, states: seq<State>, evs: seq<Event>, i: nat, j: nat, a: Addr)
    requires IsRun(c, states, evs) && i <= j < |states| && a in states[i].known
    ensures a in states[j].known
    decreases j - i
  {
    if i < j {
      RunProc(c, states, evs, i);
      StaysKnown(c, states, evs, i + 1, j, a);
    }
  }

  /** In every run, the branch that discards older packets is taken once for a peer, for the first of its
      acknowledgements that pops a packet, and the branch that cancels and resends only after that. */
  lemma FirstAckOnce(c: Config, states: seq<State>, evs: seq<Event>, j: nat) returns (i: nat)
    requires IsRun(c, states, evs) && j < |evs| && (evs[j].FirstAck? || evs[j].Cancel?) && states[j].proc.Popped?
    ensures evs[j].Cancel? ==>
              i < j && evs[i].FirstAck? && states[i].proc.Popped? && states[i].proc.e.d.to == states[j].proc.e.d.to
    ensures evs[j].FirstAck? ==>
              forall n :: 0 <= n < j && (evs[n].FirstAck? || evs[n].Cancel?) && states[n].proc.Popped? ==>
                states[n].proc.e.d.to != states[j].proc.e.d.to
  {
    i := 0;
    var a := states[j].proc.e.d.to;
    RunProc(c, states, evs, j);
    if evs[j].Cancel? {
      i := KnownSince(c, states, evs, j, a);
    } else {
      forall n | 0 <= n < j && (evs[n].FirstAck? || evs[n].Cancel?) && states[n].proc.Popped?
        ensures states[n].proc.e.d.to != a
      {
        NotKnownBefore(c, states, evs, n, j, a);
      }
    }
  }

  lemma NotKnownBefore(c: Config, states: seq<State>, evs: seq<Event>, n: nat, j: nat, a: Addr)
    requires IsRun(c, states, evs) && n < j < |states| && a !in states[j].known
    requires (evs[n].FirstAck? || evs[n].Cancel?) && states[n].proc.Popped?
    ensures states[n].proc.e.d.to != a
  {
    RunProc(c, states, evs, n);
    if a in states[n + 1].known { StaysKnown(c, states, evs, n + 1, j, a); }
  }

  // ---------------------------------------------------------------- which queue

  predicate AllRetransmissions(ds: seq<SendData>) { forall d :: d in ds ==> IsRetransmission(d.packet.flags) }

  /** Retransmissions wait in their own queue, everything else in the send queue, within their rings. */
  predicate QueuesByKind(s: State) {
    && AllRetransmissions(s.retr) && (forall d :: d in s.send ==> !IsRetransmission(d.packet.flags))
    && |s.retr| <= RING && |s.send| <= RING
  }

  lemma {:induction false} EnqueueAllByKind(s: State, ds: seq<SendData>, tokens: seq<bool>)
    requires QueuesByKind(s)
    ensures QueuesByKind(EnqueueAll(s, ds, tokens))
    decreases |ds|
  {
    if ds != [] {
      var (s1, ok) := Enqueue(s, ds[0], tokens != [] && tokens[0]);
      var s2 := if ok then s1 else s1.(dropped := s1.dropped + {ItemOf(ds[0])});
      assert QueuesByKind(s2);
      EnqueueAllByKind(s2, ds[1..], if tokens == [] then [] else tokens[1..]);
    }
  }

  lemma StepByKind(c: Config, s: State, ev: Event, s': State)
    requires Next(c, s, ev, s') && QueuesByKind(s)
    ensures QueuesByKind(s')
  {
    match ev
    case Requeue(tokens) =>
      EnqueueAllByKind(s.(table := RemoveOoo(s.table, s.proc.e), proc := Idle), OooResends(s.table, s.proc.e), tokens);
    case Timeout(now, timeout, tokens) =>
      EnqueueAllByKind(s.(table := Sweep(s.table, now, timeout)), SweepResends(s.table, now, timeout), tokens);
    case Submit(it, token) => assert !IsRetransmission(BLK_BLOCK_ACK);
    case Dequeue(_) =>
    case _ => assert s'.retr == s.retr && s'.send == s.send;
  }

  lemma {:induction false} RunByKind(c: Config, states: seq<State>, evs: seq<Event>, i: nat)
    requires IsRun(c, states, evs) && i < |states|
    ensures QueuesByKind(states[i])
  {
    if i > 0 {
      RunByKind(c, states, evs, i - 1);
      RunNext(c, states, evs, i - 1);
      StepByKind(c, states[i - 1], evs[i - 1], states[i]);
    }
  }

  // ---------------------------------------------------------------- the accounts

  /** The packets sendblock hands to send_data for a block of the world are those the protocol submits. */
  lemma SendBlockSubmits(w: World, k: BlockKey, i: nat, to: Addr)
    requires k in w && i < Fn(w[k])
    ensures var b := PutBlock(k, w[k]);
            && Sendable(b) && i < |b.have| && b.lastlen <= MTU
            && BlockCache.SentPacket(b, i, to)
               == SendData(FragmentPacket(BLK_BLOCK_ACK, FragmentFor(w, Item(to, k, i))), to)
  {
    OriginalSends(k, w[k]);
    assert SentFragments(PutBlock(k, w[k]))[i] == FragmentOf(k, w[k], i);
  }

  /** In every run, a fragment handed to send_data is accepted if and only if a token is free and the send
      queue has room, and is then its last packet; otherwise nothing changes. */
  lemma SubmitExact(c: Config, states: seq<State>, evs: seq<Event>, i: nat)
    requires IsRun(c, states, evs) && i < |evs| && evs[i].Submit?
    ensures var s, s', it := states[i], states[i + 1], evs[i].it;
            if evs[i].token && |s.send| < RING
            then it in s'.accepted && |s'.send| == |s.send| + 1 && s'.send[..|s.send|] == s.send
                 && ItemOf(s'.send[|s.send|]) == it
            else s' == s
  {
    RunNext(c, states, evs, i);
    SubmittedGood(c.world, evs[i].it);
    assert !IsRetransmission(BLK_BLOCK_ACK);
  }

  /** The packet with this place in the list finds a token. */
  predicate HasToken(tokens: seq<bool>, n: nat) { n < |tokens| && tokens[n] }

  /** With tokens and room for all, packets taken off the list are queued, in order, and none is dropped. */
  lemma {:induction false} RoomMeansQueued(s: State, ds: seq<SendData>, tokens: seq<bool>)
    requires AllRetransmissions(ds) && |s.retr| + |ds| <= RING
    requires forall n :: 0 <= n < |ds| ==> HasToken(tokens, n)
    ensures EnqueueAll(s, ds, tokens) == s.(retr := s.retr + ds)
    decreases |ds|
  {
    if ds == [] {
      assert s.retr + ds == s.retr;
    } else {
      assert HasToken(tokens, 0);
      forall n | 0 <= n < |ds[1..]| ensures HasToken(tokens[1..], n) { assert HasToken(tokens, n + 1); }
      var s1 := s.(retr := s.retr + [ds[0]]);
      assert Enqueue(s, ds[0], true) == (s1, true);
      RoomMeansQueued(s1, ds[1..], tokens[1..]);
      assert (s.retr + [ds[0]]) + ds[1..] == s.retr + ds;
    }
  }

  /** A fragment goes on the account of dropped ones only when its packet found no token or its queue full. */
  lemma {:induction false} DroppedMeansRefused(s: State, ds: seq<SendData>, tokens: seq<bool>, it: Item)
    requires AllRetransmissions(ds) && it !in s.dropped && it in EnqueueAll(s, ds, tokens).dropped
    ensures exists n :: 0 <= n < |ds| && ItemOf(ds[n]) == it
                     && (!HasToken(tokens, n) || |EnqueueAll(s, ds, tokens).retr| >= RING)
    decreases |ds|
  {
    var (s1, ok) := Enqueue(s, ds[0], tokens != [] && tokens[0]);
    var s2 := if ok then s1 else s1.(dropped := s1.dropped + {ItemOf(ds[0])});
    var rest := if tokens == [] then [] else tokens[1..];
    RetrGrows(s2, ds[1..], rest);
    if it in s2.dropped {
      assert ItemOf(ds[0]) == it && (HasToken(tokens, 0) ==> |s.retr| >= RING);
    } else {
      DroppedMeansRefused(s2, ds[1..], rest, it);
      var n :| 0 <= n < |ds[1..]| && ItemOf(ds[1..][n]) == it
               && (!HasToken(rest, n) || |EnqueueAll(s2, ds[1..], rest).retr| >= RING);
      assert ds[n + 1] == ds[1..][n] && (HasToken(tokens, n + 1) ==> HasToken(rest, n));
    }
  }

  lemma {:induction false} RetrGrows(s: State, ds: seq<SendData>, tokens: seq<bool>)
    ensures |EnqueueAll(s, ds, tokens).retr| >= |s.retr|
    decreases |ds|
  {
    if ds != [] {
      var (s1, ok) := Enqueue(s, ds[0], tokens != [] && tokens[0]);
      var s2 := if ok then s1 else s1.(dropped := s1.dropped + {ItemOf(ds[0])});
      RetrGrows(s2, ds[1..], if tokens == [] then [] else tokens[1..]);
    }
  }

  lemma ResendsAreRetransmissions(es: seq<Entry>)
    requires forall e :: e in es ==> NeedAck(e.d.packet.flags)
    ensures AllRetransmissions(Resends(es))
  {
    ResendsAll(es);
    forall d | d in Resends(es) ensures IsRetransmission(d.packet.flags) {
      var i :| 0 <= i < |es| && Resends(es)[i] == d;
      MarkIsSet(es[i].d.packet.flags);
    }
  }

  lemma MarkIsSet(flags: bv8)
    ensures IsRetransmission(MarkRetransmission(flags))
  {
  }

  lemma HandedOnAreRetransmissions(s: State, ev: Event)
    requires TableInv(s.table, None)
    ensures AllRetransmissions(HandedOn(s, ev))
  {
    match ev
    case Requeue(_) =>
      if s.proc.Pruned? {
        NacksOk(s.table, s.proc.e.d.to);
        FilterMembers(NacksOf(s.table, s.proc.e.d.to), Older(s.proc.e));
        ResendsAreRetransmissions(Filter(NacksOf(s.table, s.proc.e.d.to), Older(s.proc.e)));
      }
    case Timeout(now, timeout, _) =>
      forall e | e in ExpiredEntries(s.table.peers, now, timeout) ensures NeedAck(e.d.packet.flags) {
        SweepMembers(s.table, now, timeout, e);
        ListedIn(s.table, e);
        NacksOk(s.table, e.d.to);
      }
      ResendsAreRetransmissions(ExpiredEntries(s.table.peers, now, timeout));
    case _ =>
  }

  /** In every run, when tokens and room suffice, what a step hands to send_data waits, in order, behind what
      was in the retransmission queue, and nothing is dropped. */
  lemma HandedOnIsQueued(c: Config, states: seq<State>, evs: seq<Event>, i: nat)
    requires IsRun(c, states, evs) && i < |evs| && (evs[i].Requeue? || evs[i].Timeout?)
    requires var ds := HandedOn(states[i], evs[i]);
             |states[i].retr| + |ds| <= RING && forall n :: 0 <= n < |ds| ==> HasToken(evs[i].tokens, n)
    ensures states[i + 1].retr == states[i].retr + HandedOn(states[i], evs[i])
    ensures states[i + 1].dropped == states[i].dropped
  {
    RunNext(c, states, evs, i);
    var s, ev := states[i], evs[i];
    HandedOnAreRetransmissions(s, ev);
    if ev.Requeue? {
      RoomMeansQueued(s.(table := RemoveOoo(s.table, s.proc.e), proc := Idle), HandedOn(s, ev), ev.tokens);
    } else {
      RoomMeansQueued(s.(table := Sweep(s.table, ev.now, ev.timeout)), HandedOn(s, ev), ev.tokens);
    }
  }

  lemma DropsOnlyWhenRequeueing(c: Config, s: State, ev: Event, s': State, it: Item)
    requires Next(c, s, ev, s') && TableInv(s.table, None) && it !in s.dropped && it in s'.dropped
    ensures ev.Requeue? || ev.Timeout?
    ensures |s'.retr| >= RING
         || exists n :: 0 <= n < |HandedOn(s, ev)| && ItemOf(HandedOn(s, ev)[n]) == it && !HasToken(ev.tokens, n)
  {
    HandedOnAreRetransmissions(s, ev);
    match ev
    case Requeue(tokens) =>
      DroppedMeansRefused(s.(table := RemoveOoo(s.table, s.proc.e), proc := Idle), HandedOn(s, ev), tokens, it);
    case Timeout(now, timeout, tokens) =>
      DroppedMeansRefused(s.(table := Sweep(s.table, now, timeout)), HandedOn(s, ev), tokens, it);
    case _ =>
  }

  /** In every run, a fragment goes on the account of dropped ones only in a step that takes packets off the
      list, and only when that step filled the retransmission queue or a packet with it found no token. */
  lemma DropIsRefusal(c: Config, states: seq<State>, evs: seq<Event>, i: nat, it: Item)
    requires IsRun(c, states, evs) && i < |evs| && it !in states[i].dropped && it in states[i + 1].dropped
    ensures evs[i].Requeue? || evs[i].Timeout?
    ensures var ds := HandedOn(states[i], evs[i]);
            |states[i + 1].retr| == RING
            || exists n :: 0 <= n < |ds| && ItemOf(ds[n]) == it && !HasToken(evs[i].tokens, n)
  {
    RunNext(c, states, evs, i);
    RunByKind(c, states, evs, i + 1);
    DropsOnlyWhenRequeueing(c, states[i], evs[i], states[i + 1], it);
  }

  /** The first acknowledgement of a peer takes a packet with the fragment off the list. */
  ghost predicate Discards(s: State, it: Item)
    requires s.proc.Popped?
  {
    exists x :: InTable(s.table, x) && ItemOf(x.d) == it && it.to == s.proc.e.d.to && SentBefore(x, s.proc.e)
  }

  lemma FirstAckDiscards(s: State, it: Item)
    requires TableInv(s.table, None) && s.proc.Popped? && it !in s.discarded && Normal(s.proc.e.sendtime)
    requires forall x :: InTable(s.table, x) ==> Normal(x.sendtime)
    ensures it in FirstAckStep(s).discarded <==> Discards(s, it)
  {
    var e := s.proc.e;
    var es := NacksOf(s.table, e.d.to);
    NacksOk(s.table, e.d.to);
    forall x | x in es ensures InTable(s.table, x) && (OlderThan(x, e) <==> SentBefore(x, e)) {
      ListedIn(s.table, x);
      MicrosOf(x.sendtime, e.sendtime);
    }
    if Discards(s, it) {
      var x :| InTable(s.table, x) && ItemOf(x.d) == it && it.to == e.d.to && SentBefore(x, e);
      ListedIn(s.table, x);
      assert x in es;
    }
  }

  /** In every run, a fragment goes on the account of discarded ones if and only if its peer's first
      acknowledgement takes a packet with it, sent before the acknowledged one, off the list. */
  lemma DiscardExact(c: Config, states: seq<State>, evs: seq<Event>, i: nat, it: Item)
    requires IsRun(c, states, evs) && i < |evs| && it !in states[i].discarded
    requires forall x :: InTable(states[i].table, x) ==> Normal(x.sendtime)
    requires states[i].proc.Popped? ==> Normal(states[i].proc.e.sendtime)
    ensures it in states[i + 1].discarded <==> evs[i].FirstAck? && states[i].proc.Popped? && Discards(states[i], it)
  {
    RunNext(c, states, evs, i);
    if evs[i].FirstAck? {
      FirstAckDiscards(states[i], it);
    } else {
      OthersDiscardNothing(c, states[i], evs[i], states[i + 1]);
    }
  }

  lemma OthersDiscardNothing(c: Config, s: State, ev: Event, s': State)
    requires Next(c, s, ev, s') && !ev.FirstAck?
    ensures s'.discarded == s.discarded
  {
  }
}
