/** The acknowledgement protocol as a step system: one sender with its queues, sender thread, packet
    processor and timeout sweep; a network that loses, reorders and duplicates; and any number of
    receivers (ack.c, ack_received.c, packet_sender.c, packet_receiver.c, blockcache.c).

    Steps are the regions between lock operations, so the sender thread, the handling of an
    acknowledgement (pop, then cancel, then requeue) and the timeout sweep interleave freely. */
module Protocol {
  import opened Basics
  import opened NetEncoder
  import opened Framing
  import opened BlockSpec
  import opened Reassembly
  import opened NackSpec
  import opened NackProps

  /** The blocks being sent and the byte orders of the hosts. */
  datatype Config = Config(world: World, me: Endian, order: Addr -> Endian)

  /** A fragment on its way to a peer. */
  datatype Item = Item(to: Addr, key: BlockKey, fid: nat)

  function ItemOf(d: SendData): Item {
    var id := GetFragmentId(d.packet);
    Item(d.to, BlockKey(id.sid, id.bid), id.fid)
  }

  predicate ItemOk(w: World, it: Item) { it.key in w && it.fid < Fn(w[it.key]) }

  function FragmentFor(w: World, it: Item): Fragment
    requires ItemOk(w, it)
  {
    FragmentOf(it.key, w[it.key], it.fid)
  }

  /** A packet that carries a fragment of the world and wants an acknowledgement. */
  predicate Good(w: World, d: SendData) {
    && ItemOk(w, ItemOf(d))
    && FragmentFlags(d.packet.flags) && NeedAck(d.packet.flags)
    && d.packet == FragmentPacket(d.packet.flags, FragmentFor(w, ItemOf(d)))
  }

  // ---------------------------------------------------------------- state

  /** A datagram, given by what its maker put into it. `serial` is the unwrapped number of the packet it
      carries or answers; no step reads it. */
  datatype Msg =
    | DataMsg(serial: nat, d: SendData, seqno: u16, consecutive: bool)
    | AckMsg(serial: nat, from: Addr, echo: u16, sec: u32, usec: u32, cons: u16)

  function DataBytes(c: Config, m: Msg): Packet
    requires m.DataMsg?
  {
    WireOut(c.me, m.d.packet, m.seqno, m.consecutive, 0)
  }

  function AckBytes(c: Config, m: Msg): Packet
    requires m.AckMsg?
  {
    WireOut(c.order(m.from), AckPacket(c.order(m.from), m.echo, m.sec, m.usec, m.cons), 0, false, 0)
  }

  /** Where the packet processor is in handling an acknowledgement. */
  datatype Proc = Idle | Popped(e: Entry, cons: u16) | Pruned(e: Entry)

  /** A receiver: its cache, the completions it has announced to its upper layer, and the fragment it has
      acknowledged but not yet stored. */
  datatype Receiver = Receiver(cache: seq<Block>, notes: seq<BlockKey>, hand: Option<Fragment>)

  const FRESH := Receiver([], [], None)

  datatype State = State(
    retr: seq<SendData>, send: seq<SendData>, hand: Option<SendData>,
    table: Table, known: set<Addr>, proc: Proc,
    log: seq<SendData>, net: set<Msg>, rx: map<Addr, Receiver>,
    accepted: set<Item>, dropped: set<Item>, discarded: set<Item>)

  const INIT := State([], [], None, EMPTY, {}, Idle, [], {}, map[], {}, {}, {})

  function RxAt(s: State, a: Addr): Receiver { if a in s.rx then s.rx[a] else FRESH }

  // ---------------------------------------------------------------- steps

  /** send_data of a fragment. `token` says whether a queue token was free. */
  function Enqueue(s: State, d: SendData, token: bool): (State, bool) {
    if !token then (s, false)
    else if IsRetransmission(d.packet.flags) then
      if |s.retr| < RING then (s.(retr := s.retr + [d]), true) else (s, false)
    else
      if |s.send| < RING then (s.(send := s.send + [d]), true) else (s, false)
  }

  /** send_data of packets taken from the unacknowledged list; a packet that finds no room is gone. */
  function EnqueueAll(s: State, ds: seq<SendData>, tokens: seq<bool>): (r: State)
    ensures r == s.(retr := r.retr, send := r.send, dropped := r.dropped)
    decreases |ds|
  {
    if ds == [] then s
    else
      var (s1, ok) := Enqueue(s, ds[0], tokens != [] && tokens[0]);
      var s2 := if ok then s1 else s1.(dropped := s1.dropped + {ItemOf(ds[0])});
      EnqueueAll(s2, ds[1..], if tokens == [] then [] else tokens[1..])
  }

  datatype Event =
    | Submit(it: Item, token: bool)
    | Dequeue(fromSend: bool)
    | Transmit(now: Timeval, sleeptime: u32, consecutive: bool)
    | Lose(m: Msg)
    | Arrive(m: Msg, sec: u32, usec: u32)
    | Store(at: Addr, junk: u16)
    | AckArrive(m: Msg)
    | FirstAck
    | Cancel
    | Requeue(tokens: seq<bool>)
    | Timeout(now: Timeval, timeout: Addr -> nat, tokens: seq<bool>)

  /** What the receiver makes of a datagram: the sequence number to echo and the fragment. */
  function Parsed(c: Config, m: Msg): Rx
    requires m.DataMsg?
  {
    Process(c.order(m.d.to), DataBytes(c, m))
  }

  /** The receiver's array accesses are in range. */
  predicate ConsInRange(c: seq<Block>, f: Fragment) {
    Lookup(c, FragmentKey(f)).Some? ==> f.fid <= |Lookup(c, FragmentKey(f)).value.have|
  }

  predicate Enabled(c: Config, s: State, ev: Event) {
    match ev
    case Submit(it, _) => ItemOk(c.world, it)
    case Dequeue(fromSend) => s.hand.None? && (if fromSend then s.send != [] else s.retr != [])
    case Transmit(_, _, _) => s.hand.Some?
    case Lose(m) => m in s.net
    case Arrive(m, _, _) =>
      && m in s.net && m.DataMsg? && RxAt(s, m.d.to).hand.None?
      && (Parsed(c, m).fragment.Some? ==> ConsInRange(RxAt(s, m.d.to).cache, Parsed(c, m).fragment.value))
    case Store(at, _) =>
      RxAt(s, at).hand.Some? && CacheWf(RxAt(s, at).cache) && InRange(RxAt(s, at).cache, RxAt(s, at).hand.value)
    case AckArrive(m) => m in s.net && m.AckMsg? && s.proc.Idle?
    case FirstAck => s.proc.Popped? && s.proc.e.d.to !in s.known
    case Cancel => s.proc.Popped? && s.proc.e.d.to in s.known
    case Requeue(_) => s.proc.Pruned?
    case Timeout(_, _, _) => true
  }

  function SubmitStep(c: Config, s: State, it: Item, token: bool): State
    requires ItemOk(c.world, it)
  {
    var (s', ok) := Enqueue(s, SendData(FragmentPacket(BLK_BLOCK_ACK, FragmentFor(c.world, it)), it.to), token);
    if ok then s'.(accepted := s'.accepted + {it}) else s'
  }

  /** packet_send from append_ack to sendto. A failed sendto is a loss in the network. */
  function TransmitStep(s: State, now: Timeval, sleeptime: u32, consecutive: bool): State
    requires s.hand.Some?
  {
    var d := s.hand.value;
    var e := NewEntry(s.table, d, now, sleeptime);
    s.(hand := None, table := Append(s.table, d, now, sleeptime), log := s.log + [d],
       net := s.net + {DataMsg(e.serial, d, e.seqno, consecutive)})
  }

  /** packet_processor on a fragment, up to the point where the acknowledgement has been queued. */
  function ArriveStep(c: Config, s: State, m: Msg, sec: u32, usec: u32): State
    requires Enabled(c, s, Arrive(m, sec, usec))
  {
    var r := RxAt(s, m.d.to);
    var rx := Parsed(c, m);
    if rx.fragment.None? || rx.ackOut.None? then s
    else
      var f := rx.fragment.value;
      var ack := AckMsg(m.serial, m.d.to, rx.ackOut.value, sec, usec, Consecutives(r.cache, FragmentKey(f), f.fid));
      s.(net := s.net + {ack}, rx := s.rx[m.d.to := r.(hand := Some(f))])
  }

  function StoreStep(s: State, at: Addr, junk: u16): State
    requires RxAt(s, at).hand.Some? && CacheWf(RxAt(s, at).cache)
    requires InRange(RxAt(s, at).cache, RxAt(s, at).hand.value)
  {
    var r := RxAt(s, at);
    var (cache, notify) := Deliver(r.cache, r.hand.value, junk);
    s.(rx := s.rx[at := Receiver(cache, if notify then r.notes + [FragmentKey(r.hand.value)] else r.notes, None)])
  }

  /** packet_processor on an acknowledgement: decode and pop. */
  function AckArriveStep(c: Config, s: State, m: Msg): State
    requires m.AckMsg?
  {
    var rx := Process(c.me, AckBytes(c, m));
    if rx.ackIn.None? then s
    else
      var (t, popped) := Pop(s.table, rx.ackIn.value.seqno, m.from);
      if popped.None? then s else s.(table := t, proc := Popped(popped.value, rx.ackIn.value.cons))
  }

  /** The branch of ack_received for a peer that has never acknowledged anything. */
  function FirstAckStep(s: State): State
    requires s.proc.Popped?
  {
    var e := s.proc.e;
    s.(table := RemoveOoo(s.table, e), known := s.known + {e.d.to}, proc := Idle,
       discarded := s.discarded + set x | x in NacksOf(s.table, e.d.to) && OlderThan(x, e) :: ItemOf(x.d))
  }

  function Step(c: Config, s: State, ev: Event): State
    requires Enabled(c, s, ev)
  {
    match ev
    case Submit(it, token) => SubmitStep(c, s, it, token)
    case Dequeue(fromSend) =>
      if fromSend then s.(hand := Some(s.send[0]), send := s.send[1..])
      else s.(hand := Some(s.retr[0]), retr := s.retr[1..])
    case Transmit(now, sleeptime, consecutive) => TransmitStep(s, now, sleeptime, consecutive)
    case Lose(m) => s.(net := s.net - {m})
    case Arrive(m, sec, usec) => ArriveStep(c, s, m, sec, usec)
    case Store(at, junk) => StoreStep(s, at, junk)
    case AckArrive(m) => AckArriveStep(c, s, m)
    case FirstAck => FirstAckStep(s)
    case Cancel => s.(table := RemoveLost(s.table, s.proc.e, s.proc.cons), proc := Pruned(s.proc.e))
    case Requeue(tokens) =>
      EnqueueAll(s.(table := RemoveOoo(s.table, s.proc.e), proc := Idle), OooResends(s.table, s.proc.e), tokens)
    case Timeout(now, timeout, tokens) =>
      EnqueueAll(s.(table := Sweep(s.table, now, timeout)), SweepResends(s.table, now, timeout), tokens)
  }

  /** Sequence numbers are not reused while they matter: no datagram and no outstanding entry is 65536
      or more transmissions old. */
  predicate NoSeqReuse(s: State) {
    Recent(s.table) && forall m :: m in s.net ==> |s.log| - m.serial < 0x1_0000
  }

  predicate Next(c: Config, s: State, ev: Event, s': State) { Enabled(c, s, ev) && s' == Step(c, s, ev) }

  /** The acknowledgement that is taken up, if one is, does not name another packet by its 16-bit number. */
  ghost predicate Clear(s: State, ev: Event) {
    ev.AckArrive? && ev.m.AckMsg? ==> !Misleads(NacksOf(s.table, ev.m.from), ev.m.serial)
  }

  ghost predicate StepAt(c: Config, states: seq<State>, evs: seq<Event>, i: nat)
    requires i < |evs| < |states|
  {
    Clear(states[i], evs[i]) && Next(c, states[i], evs[i], states[i + 1])
  }

  /** A run from the initial state, in which no acknowledgement taken up is misleading. */
  ghost predicate IsRun(c: Config, states: seq<State>, evs: seq<Event>) {
    && |states| == |evs| + 1 && states[0] == INIT
    && (forall i {:trigger StepAt(c, states, evs, i)} :: 0 <= i < |evs| ==> StepAt(c, states, evs, i))
  }
}
