/** The account of discarded fragments in NoSilentLoss cannot be done without: a run in which a fragment
    is lost because its peer's first acknowledgement was for a later one. */
module FirstAckLoss {
  import opened Basics
  import opened NetEncoder
  import opened BlockSpec
  import opened Reassembly
  import opened NackSpec
  import opened Protocol
  import opened ProtocolProofs
  import opened GoneFragments

  ghost predicate Reachable(c: Config, s: State) { exists states, evs :: IsRun(c, states, evs) && states[|evs|] == s }

  lemma SameStep(c: Config, states: seq<State>, evs: seq<Event>, states': seq<State>, evs': seq<Event>, i: nat)
    requires i < |evs| < |states| && i < |evs'| < |states'| && StepAt(c, states, evs, i)
    requires states'[i] == states[i] && evs'[i] == evs[i] && states'[i + 1] == states[i + 1]
    ensures StepAt(c, states', evs', i)
  {
  }

  /** The steps of a run that goes on for one step more. */
  lemma ExtendedStep(c: Config, states: seq<State>, evs: seq<Event>, ev: Event, s': State, i: nat)
    requires IsRun(c, states, evs) && Next(c, states[|evs|], ev, s') && Clear(states[|evs|], ev) && i <= |evs|
    ensures StepAt(c, states + [s'], evs + [ev], i)
  {
    if i < |evs| { SameStep(c, states, evs, states + [s'], evs + [ev], i); }
  }

  lemma ReachStep(c: Config, s: State, ev: Event, s': State)
    requires Reachable(c, s) && Next(c, s, ev, s') && Clear(s, ev)
    ensures Reachable(c, s')
  {
    var states, evs :| IsRun(c, states, evs) && states[|evs|] == s;
    var states', evs' := states + [s'], evs + [ev];
    forall i | 0 <= i < |evs'| ensures StepAt(c, states', evs', i) { ExtendedStep(c, states, evs, ev, s', i); }
    assert IsRun(c, states', evs') && states'[|evs'|] == s';
  }

  function PacketOf(w: World, it: Item): SendData
    requires ItemOk(w, it)
  {
    SendData(FragmentPacket(BLK_BLOCK_ACK, FragmentFor(w, it)), it.to)
  }

  /** The sender's side of a state, with nothing yet at the receivers. */
  function Sending(
      send: seq<SendData>, hand: Option<SendData>, log: seq<SendData>, net: set<Msg>, table: Table,
      accepted: set<Item>): State
  {
    INIT.(send := send, hand := hand, log := log, net := net, table := table, accepted := accepted)
  }

  function FirstEntry(d: SendData, t: Timeval): Entry { Entry(1, 1, t, 0, d) }
  function SecondEntry(d: SendData, t: Timeval): Entry { Entry(2, 2, t, 0, d) }

  lemma BothSubmitted(c: Config, i0: Item, i1: Item)
    requires ItemOk(c.world, i0) && ItemOk(c.world, i1)
    ensures Reachable(c, Sending([PacketOf(c.world, i0), PacketOf(c.world, i1)], None, [], {}, EMPTY, {i0, i1}))
  {
    var d0, d1 := PacketOf(c.world, i0), PacketOf(c.world, i1);
    assert !IsRetransmission(BLK_BLOCK_ACK);
    var none: seq<Event> := [];
    assert IsRun(c, [INIT], none) && [INIT][|none|] == INIT;
    var s1 := Sending([d0], None, [], {}, EMPTY, {i0});
    ReachStep(c, INIT, Submit(i0, true), s1);
    ReachStep(c, s1, Submit(i1, true), Sending([d0, d1], None, [], {}, EMPTY, {i0, i1}));
  }

  lemma OneSent(c: Config, d0: SendData, d1: SendData, t0: Timeval, items: set<Item>)
    requires Reachable(c, Sending([d0, d1], None, [], {}, EMPTY, items))
    ensures Reachable(c, Sending([d1], None, [d0], {DataMsg(1, d0, 1, false)},
                                 Table([NackPeer(d0.to, [FirstEntry(d0, t0)])], 1), items))
  {
    var s1 := Sending([d1], Some(d0), [], {}, EMPTY, items);
    ReachStep(c, Sending([d0, d1], None, [], {}, EMPTY, items), Dequeue(true), s1);
    var t := Table([NackPeer(d0.to, [FirstEntry(d0, t0)])], 1);
    ReachStep(c, s1, Transmit(t0, 0, false), Sending([d1], None, [d0], {DataMsg(1, d0, 1, false)}, t, items));
  }

  function SentBoth(d0: SendData, d1: SendData, t0: Timeval, t1: Timeval, items: set<Item>): State {
    Sending([], None, [d0, d1], {DataMsg(1, d0, 1, false), DataMsg(2, d1, 2, true)},
            Table([NackPeer(d0.to, [SecondEntry(d1, t1), FirstEntry(d0, t0)])], 2), items)
  }

  lemma BothSent(c: Config, d0: SendData, d1: SendData, t0: Timeval, t1: Timeval, items: set<Item>)
    requires d0.to == d1.to && Reachable(c, Sending([d0, d1], None, [], {}, EMPTY, items))
    ensures Reachable(c, SentBoth(d0, d1, t0, t1, items))
  {
    OneSent(c, d0, d1, t0, items);
    var t := Table([NackPeer(d0.to, [FirstEntry(d0, t0)])], 1);
    var net := {DataMsg(1, d0, 1, false)};
    var s1 := Sending([], Some(d1), [d0], net, t, items);
    ReachStep(c, Sending([d1], None, [d0], net, t, items), Dequeue(true), s1);
    assert [SecondEntry(d1, t1)] + [FirstEntry(d0, t0)] == [SecondEntry(d1, t1), FirstEntry(d0, t0)];
    assert Append(t, d1, t1, 0).peers == [NackPeer(d0.to, [SecondEntry(d1, t1), FirstEntry(d0, t0)])];
    assert Append(t, d1, t1, 0) == Table([NackPeer(d0.to, [SecondEntry(d1, t1), FirstEntry(d0, t0)])], 2);
    ReachStep(c, s1, Transmit(t1, 0, true), SentBoth(d0, d1, t0, t1, items));
  }

  /** The receiver after a first fragment, which does not complete its block. */
  function Stored(f: Fragment): Receiver
    requires f.fid < f.total && |f.data| <= MTU
  {
    Receiver([FirstBlock(f, 0)], [], None)
  }

  /** The second fragment is stored and the acknowledgement for it is under way. */
  function SecondStored(c: Config, s: State, a: Addr, f: Fragment): State
    requires f.fid < f.total && |f.data| <= MTU
  {
    s.(net := s.net + {SecondAck(c, a)}, rx := map[a := Stored(f)])
  }

  function SecondAck(c: Config, a: Addr): Msg { AckMsg(2, a, HostU16(c.order(a), HostBytes(c.me, 2)), 0, 0, 0) }

  lemma FirstStored(f: Fragment)
    requires f.fid == 1 < f.total && |f.data| <= MTU && (f.fid == f.total - 1 || |f.data| == MTU)
    ensures InRange([], f) && Deliver([], f, 0) == ([FirstBlock(f, 0)], false)
  {
    var b := FirstBlock(f, 0);
    assert IndexOf([], FragmentKey(f)) == 0;
    assert [b] + [] == [b] && AddFragment([], f, 0) == ([b], Added);
    assert Lookup([b], FragmentKey(f)) == Some(b) && !b.have[0];
  }

  lemma ReachableInv(c: Config, s: State)
    requires Reachable(c, s)
    ensures Inv(c, s)
  {
    var states, evs :| IsRun(c, states, evs) && states[|evs|] == s;
    RunInv(c, states, evs, |evs|);
  }

  lemma SecondParsed(c: Config, s: State, i1: Item)
    requires ItemOk(c.world, i1) && DataMsg(2, PacketOf(c.world, i1), 2, true) in s.net
    requires s.rx == map[] && Reachable(c, s)
    ensures var m := DataMsg(2, PacketOf(c.world, i1), 2, true);
            && Enabled(c, s, Arrive(m, 0, 0))
            && ArriveStep(c, s, m, 0, 0)
               == s.(net := s.net + {SecondAck(c, i1.to)},
                     rx := map[i1.to := Receiver([], [], Some(FragmentFor(c.world, i1)))])
  {
    var m := DataMsg(2, PacketOf(c.world, i1), 2, true);
    SubmittedGood(c.world, i1);
    ReachableInv(c, s);
    assert forall k :: Lookup([], k).None?;
    ArriveEffect(c, s, m, 0, 0);
    assert Consecutives([], i1.key, i1.fid) == 0;
    var r := Receiver([], [], Some(FragmentFor(c.world, i1)));
    assert s.rx[i1.to := r] == map[i1.to := r];
  }

  lemma SecondArrives(c: Config, s: State, i1: Item)
    requires ItemOk(c.world, i1) && i1.fid == 1 && DataMsg(2, PacketOf(c.world, i1), 2, true) in s.net && s.rx == map[]
    requires Reachable(c, s)
    ensures Reachable(c, SecondStored(c, s, i1.to, FragmentFor(c.world, i1)))
  {
    var m := DataMsg(2, PacketOf(c.world, i1), 2, true);
    var f := FragmentFor(c.world, i1);
    SecondParsed(c, s, i1);
    var s1 := s.(net := s.net + {SecondAck(c, i1.to)}, rx := map[i1.to := Receiver([], [], Some(f))]);
    ReachStep(c, s, Arrive(m, 0, 0), s1);
    FirstStored(f);
    assert RxAt(s1, i1.to) == Receiver([], [], Some(f));
    assert SecondStored(c, s, i1.to, f).rx == s1.rx[i1.to := Stored(f)];
    assert StoreStep(s1, i1.to, 0) == SecondStored(c, s, i1.to, f);
    ReachStep(c, s1, Store(i1.to, 0), SecondStored(c, s, i1.to, f));
  }

  lemma PopsSecond(e0: Entry, e1: Entry, a: Addr)
    requires e0.seqno == 1 && e1.seqno == 2
    ensures Pop(Table([NackPeer(a, [e1, e0])], 2), 2, a) == (Table([NackPeer(a, [e0])], 2), Some(e1))
  {
    var t := Table([NackPeer(a, [e1, e0])], 2);
    assert FindPeer(t.peers, a) == 0 && FindSeq([e1, e0], 2) == 0;
    assert [e1, e0][..0] + [e1, e0][1..] == [e0];
    assert t.peers[0 := NackPeer(a, [e0])] == [NackPeer(a, [e0])];
  }

  lemma DiscardsFirst(s: State, a: Addr, e0: Entry, e1: Entry)
    requires s.table == Table([NackPeer(a, [e0])], 2) && s.proc == Popped(e1, 0) && s.known == {} && s.discarded == {}
    requires e1.d.to == a && OlderThan(e0, e1)
    ensures FirstAckStep(s)
         == s.(table := Table([NackPeer(a, [])], 2), known := {a}, proc := Idle, discarded := {ItemOf(e0.d)})
  {
    assert FindPeer(s.table.peers, a) == 0;
    assert NacksOf(s.table, a) == [e0];
    assert Filter([e0], NotOlder(e1)) == [];
    assert s.table.peers[0 := NackPeer(a, [])] == [NackPeer(a, [])];
    assert e0 in [e0];
    assert (set x | x in NacksOf(s.table, a) && OlderThan(x, e1) :: ItemOf(x.d)) == {ItemOf(e0.d)};
  }

  lemma AckPops(c: Config, s: State, a: Addr, e0: Entry, e1: Entry)
    requires e0.seqno == 1 && e1.seqno == 2 == e1.serial && s.table == Table([NackPeer(a, [e1, e0])], 2)
    ensures AckArriveStep(c, s, SecondAck(c, a)) == s.(table := Table([NackPeer(a, [e0])], 2), proc := Popped(e1, 0))
  {
    ParsedAck(c, SecondAck(c, a), 2);
    PopsSecond(e0, e1, a);
  }

  lemma AckPopped(c: Config, s: State, a: Addr, e0: Entry, e1: Entry)
    requires e0.seqno == 1 && e1.seqno == 2 == e1.serial && s.table == Table([NackPeer(a, [e1, e0])], 2)
    requires SecondAck(c, a) in s.net && s.proc == Idle && Reachable(c, s)
    ensures Reachable(c, s.(table := Table([NackPeer(a, [e0])], 2), proc := Popped(e1, 0)))
  {
    AckPops(c, s, a, e0, e1);
    ReachStep(c, s, AckArrive(SecondAck(c, a)), AckArriveStep(c, s, SecondAck(c, a)));
  }

  /** The acknowledgement comes in: the second entry is popped, and the first, older, is discarded. */
  lemma FirstAckComes(c: Config, s: State, a: Addr, e0: Entry, e1: Entry)
    requires e0.seqno == 1 && e1.seqno == 2 == e1.serial && e1.d.to == a && OlderThan(e0, e1)
    requires s.table == Table([NackPeer(a, [e1, e0])], 2) && SecondAck(c, a) in s.net
    requires s.proc == Idle && s.known == {} && s.discarded == {}
    requires Reachable(c, s)
    ensures Reachable(c, s.(table := Table([NackPeer(a, [])], 2), known := {a}, discarded := {ItemOf(e0.d)}))
  {
    AckPopped(c, s, a, e0, e1);
    var s1 := s.(table := Table([NackPeer(a, [e0])], 2), proc := Popped(e1, 0));
    DiscardsFirst(s1, a, e0, e1);
    ReachStep(c, s1, FirstAck, FirstAckStep(s1));
  }

  lemma FirstMissing(s: State, a: Addr, k: BlockKey, f: Fragment)
    requires f.fid == 1 < f.total && |f.data| <= MTU && FragmentKey(f) == k
    requires s.table == Table([NackPeer(a, [])], 2) && RxAt(s, a) == Stored(f)
    ensures !Listed(s.table, Item(a, k, 0)) && !Safe(s, Item(a, k, 0))
  {
    assert forall e :: !InTable(s.table, e);
    assert Lookup([FirstBlock(f, 0)], k) == Some(FirstBlock(f, 0)) && !FirstBlock(f, 0).have[0];
  }

  /** The first fragment is discarded, and its only datagram lost. */
  function AllLost(c: Config, d0: SendData, d1: SendData, t0: Timeval, t1: Timeval, f: Fragment): State
    requires f.fid < f.total && |f.data| <= MTU
  {
    var s := SecondStored(c, SentBoth(d0, d1, t0, t1, {ItemOf(d0), ItemOf(d1)}), d0.to, f);
    s.(table := Table([NackPeer(d0.to, [])], 2), known := {d0.to}, discarded := {ItemOf(d0)},
       net := {DataMsg(2, d1, 2, true), SecondAck(c, d0.to)})
  }

  lemma DiscardedThenLost(c: Config, d0: SendData, d1: SendData, t0: Timeval, t1: Timeval, f: Fragment)
    requires f.fid < f.total && |f.data| <= MTU && d0.to == d1.to && ItemOf(d0) != ItemOf(d1) && TimerLess(t0, t1)
    requires Reachable(c, SecondStored(c, SentBoth(d0, d1, t0, t1, {ItemOf(d0), ItemOf(d1)}), d0.to, f))
    ensures Reachable(c, AllLost(c, d0, d1, t0, t1, f))
  {
    var s := SecondStored(c, SentBoth(d0, d1, t0, t1, {ItemOf(d0), ItemOf(d1)}), d0.to, f);
    FirstAckComes(c, s, d0.to, FirstEntry(d0, t0), SecondEntry(d1, t1));
    var s1 := s.(table := Table([NackPeer(d0.to, [])], 2), known := {d0.to}, discarded := {ItemOf(d0)});
    var m := DataMsg(1, d0, 1, false);
    assert s1.net - {m} == {DataMsg(2, d1, 2, true), SecondAck(c, d0.to)};
    ReachStep(c, s1, Lose(m), AllLost(c, d0, d1, t0, t1, f));
  }

  lemma AllLostReached(c: Config, i0: Item, i1: Item, t0: Timeval, t1: Timeval)
    requires ItemOk(c.world, i0) && ItemOk(c.world, i1) && i0.to == i1.to && i0.fid != i1.fid == 1 && TimerLess(t0, t1)
    ensures var d0, d1 := PacketOf(c.world, i0), PacketOf(c.world, i1);
            && ItemOf(d0) == i0 && ItemOf(d1) == i1
            && Reachable(c, AllLost(c, d0, d1, t0, t1, FragmentFor(c.world, i1)))
  {
    var d0, d1 := PacketOf(c.world, i0), PacketOf(c.world, i1);
    var f := FragmentFor(c.world, i1);
    SubmittedGood(c.world, i0);
    SubmittedGood(c.world, i1);
    BothSubmitted(c, i0, i1);
    BothSent(c, d0, d1, t0, t1, {i0, i1});
    SecondArrives(c, SentBoth(d0, d1, t0, t1, {i0, i1}), i1);
    DiscardedThenLost(c, d0, d1, t0, t1, f);
  }

  lemma AllLostIsGone(c: Config, d0: SendData, d1: SendData, t0: Timeval, t1: Timeval, f: Fragment)
    requires f.fid == 1 < f.total && |f.data| <= MTU
    requires ItemOf(d0) == Item(d0.to, FragmentKey(f), 0) && ItemOf(d1) != ItemOf(d0)
    ensures Gone(AllLost(c, d0, d1, t0, t1, f), ItemOf(d0))
  {
    FirstMissing(AllLost(c, d0, d1, t0, t1, f), d0.to, FragmentKey(f), f);
  }

  /** A run in which the first fragment of a block of at least two is accepted and then lost for good, for no
      other reason than its peer's first acknowledgement: it is gone, with nothing dropped and no step left
      that would send it again. */
  lemma LostForGood(c: Config, k: BlockKey, a: Addr, t0: Timeval, t1: Timeval) returns (s: State)
    requires k in c.world && Fn(c.world[k]) >= 2 && TimerLess(t0, t1)
    ensures var it := Item(a, k, 0);
            && Reachable(c, s) && Gone(s, it)
            && it in s.accepted && it in s.discarded && s.dropped == {}
  {
    var i0, i1 := Item(a, k, 0), Item(a, k, 1);
    var d0, d1 := PacketOf(c.world, i0), PacketOf(c.world, i1);
    var f := FragmentFor(c.world, i1);
    AllLostReached(c, i0, i1, t0, t1);
    s := AllLost(c, d0, d1, t0, t1, f);
    AllLostIsGone(c, d0, d1, t0, t1, f);
  }
}
