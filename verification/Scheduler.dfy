/** The send scheduler as a step system: any number of concurrent send_data calls and the one sender
    thread, over three queues and two counting semaphores (packet_sender.c). A step is one semaphore
    operation or one region under a queue's lock. */
module Scheduler {
  import opened Basics

  const TOKENS: nat := 6000

  /** Where a packet that is sent comes from. */
  datatype Source = FromPrio | FromRetr | FromSend | FromCookie

  /** The queue send_data chooses. */
  function QueueFor(flags: bv8): (src: Source)
    ensures !src.FromCookie?
  {
    if IsAck(flags) || IsBandwidth(flags) then FromPrio
    else if IsRetransmission(flags) then FromRetr
    else FromSend
  }

  /** A queue: what waits in it and, for the record, everything ever put into it. */
  datatype Queue = Queue(items: seq<SendData>, put: seq<SendData>)

  /** The semaphores; the packets of send_data calls that hold a token and have not queued it yet; the
      number of calls that have queued their packet and not announced it yet; the cookies sent. */
  datatype Sems = Sems(sFull: nat, qEmpty: nat, holding: multiset<SendData>, inserted: nat, ckFull: nat, cookies: nat)

  /** A packet that went out: from where, whether as the second of a pair, whether sendto succeeded, and
      the bandwidth in force. */
  datatype SendRec = SendRec(d: SendData, src: Source, paired: bool, ok: bool, bandwidth: nat)

  /** The sender thread: at the top of its loop, about to sleep, waiting for a packet, past the wait,
      past the cookie check, past the empty priority queue, about to take from the send queue, with a
      packet in hand, about to return the token. */
  datatype Pc = AtTop | AtSleep | AtWait | Woken | AtPrio | AtRetr | AtSend | InHand(d: SendData, src: Source) | AtPost

  /** `sleeptime` and `prev` are the program's sleeptime and sleep_prev; `slept` is the total of all sleeps
      requested and `since` the number of packets sent after the last one. */
  datatype Clock = Clock(sleeptime: nat, prev: nat, slept: nat, since: nat)

  datatype Thread = Thread(pc: Pc, z: bool, lasthost: Option<Addr>, clock: Clock, sent: seq<SendRec>)

  datatype State = State(prio: Queue, retr: Queue, send: Queue, sem: Sems, th: Thread, underflow: bool)

  const INIT := State(Queue([], []), Queue([], []), Queue([], []), Sems(0, TOKENS, multiset{}, 0, 0, 0),
                      Thread(AtTop, false, None, Clock(1500, 0, 0, 0), []), false)

  datatype Event =
    | Acquire(d: SendData)                                  // send_data takes a token
    | Insert(d: SendData)                                   // send_data under the queue's lock
    | PostFull                                              // send_data announces the packet
    | PostCookies                                           // send_cookie
    | Tick(cookie: SendData, bandwidth: nat, ok: bool)      // the sender thread moves

  /** A step of the sender waits only for a packet; the bandwidth is positive; a cookie has its own flags. */
  predicate Enabled(s: State, ev: Event) {
    match ev
    case Acquire(_) => s.sem.qEmpty > 0
    case Insert(d) => d in s.sem.holding
    case PostFull => s.sem.inserted > 0
    case PostCookies => true
    case Tick(cookie, bandwidth, _) =>
      bandwidth > 0 && cookie.packet.flags == COOKIE_FLAGS && (s.th.pc.AtWait? ==> s.sem.sFull > 0)
  }

  function QueueOf(s: State, src: Source): Queue
    requires !src.FromCookie?
  {
    match src case FromPrio => s.prio case FromRetr => s.retr case FromSend => s.send
  }

  function WithQueue(s: State, src: Source, q: Queue): State
    requires !src.FromCookie?
  {
    match src case FromPrio => s.(prio := q) case FromRetr => s.(retr := q) case FromSend => s.(send := q)
  }

  /** The locked region of send_data: the packet is queued, or its token goes back. */
  function InsertStep(s: State, d: SendData): State {
    var src := QueueFor(d.packet.flags);
    var q := QueueOf(s, src);
    var left := s.sem.holding - multiset{d};
    if |q.items| < RING then
      var sem := s.sem.(holding := left, inserted := s.sem.inserted + 1);
      WithQueue(s, src, Queue(q.items + [d], q.put + [d])).(sem := sem)
    else s.(sem := s.sem.(holding := left, qEmpty := s.sem.qEmpty + 1))
  }

  function Pace(r: SendRec): nat
    requires r.bandwidth > 0
  {
    1_000_000 * Length(r.d.packet) / r.bandwidth
  }

  /** packet_send from the pacing computation to the end of sendto. */
  function SendStep(th: Thread, bandwidth: nat, ok: bool): Thread
    requires th.pc.InHand? && bandwidth > 0
  {
    var r := SendRec(th.pc.d, th.pc.src, th.z, ok, bandwidth);
    var host := if !ok || r.src.FromPrio? || r.src.FromRetr? then th.lasthost
                else if th.z then None
                else if IsBlock(r.d.packet.flags) then Some(r.d.to) else th.lasthost;
    Thread(AtPost, th.z, host, th.clock.(sleeptime := Pace(r), since := th.clock.since + 1), th.sent + [r])
  }

  /** The look at the head of the send queue at the top of the loop: a packet for the last host makes a pair. */
  function TopStep(th: Thread, send: seq<SendData>): Thread {
    if th.lasthost.Some? && send != [] && send[0].to == th.lasthost.value
    then th.(z := true, clock := th.clock.(prev := th.clock.sleeptime), pc := AtWait)
    else th.(lasthost := None, pc := AtSleep)
  }

  /** The end of packet_send; after the second packet of a pair the two sleeps are added up. */
  function PostStep(th: Thread): Thread {
    if th.z then th.(clock := th.clock.(sleeptime := th.clock.prev + th.clock.sleeptime), z := false, pc := AtSleep)
    else th.(pc := AtTop)
  }

  /** Take the first packet of a queue. */
  function TakeStep(s: State, src: Source): State
    requires !src.FromCookie? && QueueOf(s, src).items != []
  {
    var q := QueueOf(s, src);
    WithQueue(s, src, q.(items := q.items[1..])).(th := s.th.(pc := InHand(q.items[0], src)))
  }

  function GoTo(s: State, pc: Pc): State { s.(th := s.th.(pc := pc)) }

  function TickStep(s: State, cookie: SendData, bandwidth: nat, ok: bool): State
    requires Enabled(s, Tick(cookie, bandwidth, ok))
  {
    var th := s.th;
    match th.pc
    case AtTop => s.(th := TopStep(th, s.send.items))
    case AtSleep =>
      s.(th := th.(clock := th.clock.(slept := th.clock.slept + th.clock.sleeptime, since := 0), pc := AtWait))
    case AtWait => GoTo(s.(sem := s.sem.(sFull := s.sem.sFull - 1)), Woken)
    case Woken =>
      if th.z then GoTo(s, AtSend)
      else if s.sem.ckFull > 0 then
        s.(sem := s.sem.(ckFull := s.sem.ckFull - 1, cookies := s.sem.cookies + 1),
           th := th.(lasthost := None, pc := InHand(cookie, FromCookie)))
      else s.(th := th.(lasthost := None, pc := AtPrio))
    case AtPrio => if s.prio.items != [] then TakeStep(s, FromPrio) else GoTo(s, AtRetr)
    case AtRetr => if s.retr.items != [] then TakeStep(s, FromRetr) else GoTo(s, AtSend)
    case AtSend => if s.send.items != [] then TakeStep(s, FromSend) else s.(underflow := true)
    case InHand(_, _) => s.(th := SendStep(th, bandwidth, ok))
    case AtPost => s.(th := PostStep(th), sem := s.sem.(qEmpty := s.sem.qEmpty + 1))
  }

  function Step(s: State, ev: Event): State
    requires Enabled(s, ev)
  {
    match ev
    case Acquire(d) => s.(sem := s.sem.(qEmpty := s.sem.qEmpty - 1, holding := s.sem.holding + multiset{d}))
    case Insert(d) => InsertStep(s, d)
    case PostFull => s.(sem := s.sem.(inserted := s.sem.inserted - 1, sFull := s.sem.sFull + 1))
    case PostCookies => s.(sem := s.sem.(ckFull := s.sem.ckFull + 2))
    case Tick(cookie, bandwidth, ok) => TickStep(s, cookie, bandwidth, ok)
  }

  predicate Next(s: State, ev: Event, s': State) { Enabled(s, ev) && s' == Step(s, ev) }

  /** The states the events lead through from a state. */
  ghost predicate Continues(s: State, evs: seq<Event>, states: seq<State>) {
    && |states| == |evs| + 1 && states[0] == s
    && (forall i :: 0 <= i < |evs| ==> Next(states[i], evs[i], states[i + 1]))
  }

  ghost predicate IsRun(states: seq<State>, evs: seq<Event>) { Continues(INIT, evs, states) }
}
