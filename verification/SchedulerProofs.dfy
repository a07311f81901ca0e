/** Safety, order and pacing of the send scheduler over whole runs. */
module SchedulerProofs {
  import opened Basics
  import opened NetEncoder
  import opened Framing
  import opened Scheduler

  // ---------------------------------------------------------------- tokens

  function Queued(s: State): nat { |s.prio.items| + |s.retr.items| + |s.send.items| }

  /** The sender has taken a token of sFull and no packet for it yet. */
  function Owed(pc: Pc): nat { if pc.Woken? || pc.AtPrio? || pc.AtRetr? || pc.AtSend? then 1 else 0 }

  /** The sender has a token it will return to qEmpty. */
  function Carried(pc: Pc): nat { if pc.AtTop? || pc.AtSleep? || pc.AtWait? then 0 else 1 }

  predicate TokenInv(s: State) {
    && s.sem.sFull + s.sem.qEmpty + |s.sem.holding| + s.sem.inserted + Carried(s.th.pc) == TOKENS
    && Queued(s) == s.sem.sFull + s.sem.inserted + Owed(s.th.pc) + s.sem.cookies
    && |s.prio.items| <= RING && |s.retr.items| <= RING && |s.send.items| <= RING
    && (s.th.pc.AtRetr? ==> |s.retr.items| + |s.send.items| >= 1)
    && (s.th.pc.AtSend? ==> |s.send.items| >= 1)
    && !s.underflow
  }

  lemma TokenInsert(s: State, d: SendData)
    requires TokenInv(s) && d in s.sem.holding
    ensures TokenInv(InsertStep(s, d))
  {
    assert |s.sem.holding - multiset{d}| == |s.sem.holding| - 1;
  }

  lemma TokenTake(s: State, src: Source)
    requires TokenInv(s) && !src.FromCookie? && QueueOf(s, src).items != [] && Owed(s.th.pc) == 1
    ensures TokenInv(TakeStep(s, src))
  {
  }

  /** The sender at one of the three queues. */
  lemma TokenChoose(s: State, cookie: SendData, bandwidth: nat, ok: bool)
    requires TokenInv(s) && Enabled(s, Tick(cookie, bandwidth, ok))
    requires s.th.pc.AtPrio? || s.th.pc.AtRetr? || s.th.pc.AtSend?
    ensures TokenInv(TickStep(s, cookie, bandwidth, ok))
  {
    var src := if s.th.pc.AtPrio? then FromPrio else if s.th.pc.AtRetr? then FromRetr else FromSend;
    if QueueOf(s, src).items != [] { TokenTake(s, src); }
  }

  /** The sender anywhere else: no queue is touched. */
  lemma TokenMove(s: State, cookie: SendData, bandwidth: nat, ok: bool)
    requires TokenInv(s) && Enabled(s, Tick(cookie, bandwidth, ok)) && (s.th.z && s.th.pc.Woken? ==> s.send.items != [])
    requires !s.th.pc.AtPrio? && !s.th.pc.AtRetr? && !s.th.pc.AtSend?
    ensures TokenInv(TickStep(s, cookie, bandwidth, ok))
  {
    var s' := TickStep(s, cookie, bandwidth, ok);
    assert Queued(s') == Queued(s) && s'.sem.holding == s.sem.holding && s'.sem.inserted == s.sem.inserted;
  }

  lemma TokenTick(s: State, cookie: SendData, bandwidth: nat, ok: bool)
    requires TokenInv(s) && Enabled(s, Tick(cookie, bandwidth, ok)) && (s.th.z && s.th.pc.Woken? ==> s.send.items != [])
    ensures TokenInv(TickStep(s, cookie, bandwidth, ok))
  {
    if s.th.pc.AtPrio? || s.th.pc.AtRetr? || s.th.pc.AtSend? {
      TokenChoose(s, cookie, bandwidth, ok);
    } else {
      TokenMove(s, cookie, bandwidth, ok);
    }
  }

  /** The semaphores and counts. That a pair never finds the send queue empty is the pairs' business. */
  lemma TokenStep(s: State, ev: Event)
    requires TokenInv(s) && Enabled(s, ev) && (s.th.z && s.th.pc.Woken? ==> s.send.items != [])
    ensures TokenInv(Step(s, ev))
  {
    match ev
    case Acquire(d) => assert |s.sem.holding + multiset{d}| == |s.sem.holding| + 1;
    case Insert(d) => TokenInsert(s, d);
    case PostFull =>
    case PostCookies =>
    case Tick(cookie, bandwidth, ok) => TokenTick(s, cookie, bandwidth, ok);
  }

  // ---------------------------------------------------------------- pairs

  /** The last packet sent was the first of a possible pair to the host. */
  predicate LedTo(sent: seq<SendRec>, host: Addr) {
    && |sent| > 0
    && var r := sent[|sent| - 1]; r.src.FromSend? && !r.paired && r.ok && IsBlock(r.d.packet.flags) && r.d.to == host
  }

  predicate PairAt(sent: seq<SendRec>, j: nat)
    requires j < |sent|
  {
    sent[j].src.FromSend? && j > 0 && LedTo(sent[..j], sent[j].d.to)
  }

  predicate PairsOk(sent: seq<SendRec>) { forall j :: 0 <= j < |sent| && sent[j].paired ==> PairAt(sent, j) }

  predicate PairInv(th: Thread, send: seq<SendData>) {
    && PairsOk(th.sent)
    && (th.z ==>
          th.pc.AtWait? || th.pc.Woken? || th.pc.AtSend? || (th.pc.InHand? && th.pc.src.FromSend?) || th.pc.AtPost?)
    && (th.z && (th.pc.AtWait? || th.pc.Woken? || th.pc.AtSend?) ==>
          th.lasthost.Some? && send != [] && send[0].to == th.lasthost.value && LedTo(th.sent, th.lasthost.value))
    && (th.z && th.pc.InHand? ==> LedTo(th.sent, th.pc.d.to))
    && (!th.z && (th.pc.AtPrio? || th.pc.AtRetr? || th.pc.AtSend? || th.pc.InHand?) ==> th.lasthost.None?)
    && (!th.z && (th.pc.AtTop? || th.pc.AtPost?) && th.lasthost.Some? ==> LedTo(th.sent, th.lasthost.value))
    && (th.pc.InHand? && th.pc.src.FromCookie? ==> th.pc.d.packet.flags == COOKIE_FLAGS)
  }

  lemma CookieIsNoBlock()
    ensures !IsBlock(COOKIE_FLAGS)
  {
  }

  lemma PairSend(th: Thread, send: seq<SendData>, bandwidth: nat, ok: bool)
    requires PairInv(th, send) && th.pc.InHand? && bandwidth > 0
    ensures PairInv(SendStep(th, bandwidth, ok), send)
  {
    CookieIsNoBlock();
    var th' := SendStep(th, bandwidth, ok);
    var n := |th.sent|;
    assert th'.sent[..n] == th.sent;
    forall j | 0 <= j < |th'.sent| && th'.sent[j].paired ensures PairAt(th'.sent, j) {
      if j < n { assert PairAt(th.sent, j) && th'.sent[..j] == th.sent[..j]; }
    }
  }

  lemma PairStep(s: State, ev: Event)
    requires PairInv(s.th, s.send.items) && Enabled(s, ev)
    ensures PairInv(Step(s, ev).th, Step(s, ev).send.items)
  {
    if ev.Tick? && s.th.pc.InHand? { PairSend(s.th, s.send.items, ev.bandwidth, ev.ok); }
  }

  // ---------------------------------------------------------------- pacing

  predicate Paced(sent: seq<SendRec>) { forall r :: r in sent ==> r.bandwidth > 0 }

  function PaceSum(sent: seq<SendRec>): nat
    requires Paced(sent)
  {
    if sent == [] then 0 else PaceSum(sent[..|sent| - 1]) + Pace(sent[|sent| - 1])
  }

  /** The sleep requested so far and the sleep still to be requested are 1500 and the pace of every packet
      sent; at most two packets are sent between two sleeps. */
  predicate ClockInv(pc: Pc, z: bool, c: Clock, paceSum: nat) {
    var due := 1500 + paceSum;
    match pc
    case AtTop => c.slept + c.sleeptime == due && c.since <= 1 && !z
    case AtSleep => c.slept + c.sleeptime == due && c.since <= 2 && !z
    case AtPost =>
      if z then c.slept + c.prev + c.sleeptime == due && c.since <= 2
      else c.slept + c.sleeptime == due && c.since <= 1
    case _ =>
      if z then c.slept + c.prev == due && c.since <= 1
      else c.slept == due && c.since == 0
  }

  predicate PaceInv(th: Thread) { Paced(th.sent) && ClockInv(th.pc, th.z, th.clock, PaceSum(th.sent)) }

  lemma PaceSend(th: Thread, bandwidth: nat, ok: bool)
    requires PaceInv(th) && th.pc.InHand? && bandwidth > 0
    ensures PaceInv(SendStep(th, bandwidth, ok))
  {
    var th' := SendStep(th, bandwidth, ok);
    assert th'.sent[..|th.sent|] == th.sent;
    assert PaceSum(th'.sent) == PaceSum(th.sent) + th'.clock.sleeptime;
  }

  /** A step of the sender that touches its clock and sends nothing. */
  lemma PaceClock(s: State, cookie: SendData, bandwidth: nat, ok: bool)
    requires PaceInv(s.th) && Enabled(s, Tick(cookie, bandwidth, ok))
    requires s.th.pc.AtTop? || s.th.pc.AtSleep? || s.th.pc.AtPost?
    ensures PaceInv(TickStep(s, cookie, bandwidth, ok).th)
  {
    assert TickStep(s, cookie, bandwidth, ok).th.sent == s.th.sent;
  }

  /** The sender past its wait, with no packet yet. */
  predicate Choosing(pc: Pc) { pc.AtWait? || pc.Woken? || pc.AtPrio? || pc.AtRetr? || pc.AtSend? }

  lemma PaceChoose(s: State, cookie: SendData, bandwidth: nat, ok: bool)
    requires PaceInv(s.th) && Enabled(s, Tick(cookie, bandwidth, ok)) && Choosing(s.th.pc)
    ensures PaceInv(TickStep(s, cookie, bandwidth, ok).th)
  {
    var th' := TickStep(s, cookie, bandwidth, ok).th;
    assert th'.sent == s.th.sent && th'.z == s.th.z && th'.clock == s.th.clock;
    assert Choosing(th'.pc) || th'.pc.InHand?;
  }

  lemma PaceTick(s: State, cookie: SendData, bandwidth: nat, ok: bool)
    requires PaceInv(s.th) && Enabled(s, Tick(cookie, bandwidth, ok))
    ensures PaceInv(TickStep(s, cookie, bandwidth, ok).th)
  {
    if s.th.pc.InHand? {
      PaceSend(s.th, bandwidth, ok);
    } else if Choosing(s.th.pc) {
      PaceChoose(s, cookie, bandwidth, ok);
    } else {
      PaceClock(s, cookie, bandwidth, ok);
    }
  }

  lemma PaceStep(s: State, ev: Event)
    requires PaceInv(s.th) && Enabled(s, ev)
    ensures PaceInv(Step(s, ev).th)
  {
    if ev.Tick? {
      PaceTick(s, ev.cookie, ev.bandwidth, ev.ok);
    } else {
      assert Step(s, ev).th == s.th;
    }
  }

  // ---------------------------------------------------------------- order

  /** The packets sent from one queue, in order. */
  function TakenFrom(sent: seq<SendRec>, src: Source): seq<SendData> {
    if sent == [] then []
    else
      var r := sent[|sent| - 1];
      TakenFrom(sent[..|sent| - 1], src) + if r.src == src then [r.d] else []
  }

  function HandOf(pc: Pc, src: Source): seq<SendData> { if pc.InHand? && pc.src == src then [pc.d] else [] }

  /** A queue is first in, first out: what was put in is what was sent, what is in hand and what waits. */
  predicate OrderInv(th: Thread, q: Queue, src: Source) {
    q.put == TakenFrom(th.sent, src) + (HandOf(th.pc, src) + q.items)
  }

  lemma TakenSnoc(sent: seq<SendRec>, r: SendRec, src: Source)
    ensures TakenFrom(sent + [r], src) == TakenFrom(sent, src) + if r.src == src then [r.d] else []
  {
    assert (sent + [r])[..|sent|] == sent;
  }

  lemma OrderPut(th: Thread, q: Queue, src: Source, d: SendData)
    requires OrderInv(th, q, src)
    ensures OrderInv(th, Queue(q.items + [d], q.put + [d]), src)
  {
    var t, h := TakenFrom(th.sent, src), HandOf(th.pc, src);
    assert t + (h + (q.items + [d])) == (t + (h + q.items)) + [d];
  }

  lemma OrderSend(th: Thread, q: Queue, src: Source, bandwidth: nat, ok: bool)
    requires OrderInv(th, q, src) && th.pc.InHand? && bandwidth > 0
    ensures OrderInv(SendStep(th, bandwidth, ok), q, src)
  {
    TakenSnoc(th.sent, SendRec(th.pc.d, th.pc.src, th.z, ok, bandwidth), src);
    var t, h := TakenFrom(th.sent, src), HandOf(th.pc, src);
    assert t + (h + q.items) == (t + h) + ([] + q.items);
  }

  lemma OrderTake(s: State, from: Source, src: Source)
    requires !src.FromCookie? && !from.FromCookie? && QueueOf(s, from).items != [] && !s.th.pc.InHand?
    requires OrderInv(s.th, QueueOf(s, src), src)
    ensures OrderInv(TakeStep(s, from).th, QueueOf(TakeStep(s, from), src), src)
  {
    var q := QueueOf(s, from).items;
    assert [q[0]] + q[1..] == [] + q;
  }

  /** A step of the sender that neither takes nor sends a packet leaves the queues alone. */
  lemma OrderIdle(s: State, cookie: SendData, bandwidth: nat, ok: bool, src: Source)
    requires !src.FromCookie? && OrderInv(s.th, QueueOf(s, src), src) && Enabled(s, Tick(cookie, bandwidth, ok))
    requires !s.th.pc.InHand? && !s.th.pc.AtPrio? && !s.th.pc.AtRetr? && !s.th.pc.AtSend?
    ensures OrderInv(TickStep(s, cookie, bandwidth, ok).th, QueueOf(TickStep(s, cookie, bandwidth, ok), src), src)
  {
    var s' := TickStep(s, cookie, bandwidth, ok);
    assert s'.prio == s.prio && s'.retr == s.retr && s'.send == s.send && s'.th.sent == s.th.sent;
    assert HandOf(s'.th.pc, src) == HandOf(s.th.pc, src);
  }

  lemma OrderStep(s: State, ev: Event, src: Source)
    requires !src.FromCookie? && OrderInv(s.th, QueueOf(s, src), src) && Enabled(s, ev)
    ensures OrderInv(Step(s, ev).th, QueueOf(Step(s, ev), src), src)
  {
    match ev
    case Insert(d) => OrderPut(s.th, QueueOf(s, src), src, d);
    case Tick(cookie, bandwidth, ok) =>
      match s.th.pc {
        case InHand(_, _) => OrderSend(s.th, QueueOf(s, src), src, bandwidth, ok);
        case AtPrio => if s.prio.items != [] { OrderTake(s, FromPrio, src); }
        case AtRetr => if s.retr.items != [] { OrderTake(s, FromRetr, src); }
        case AtSend => if s.send.items != [] { OrderTake(s, FromSend, src); }
        case _ => OrderIdle(s, cookie, bandwidth, ok, src);
      }
    case _ =>
  }

  // ---------------------------------------------------------------- every step keeps the invariant

  predicate Inv(s: State) {
    && TokenInv(s) && PairInv(s.th, s.send.items) && PaceInv(s.th)
    && OrderInv(s.th, s.prio, FromPrio) && OrderInv(s.th, s.retr, FromRetr) && OrderInv(s.th, s.send, FromSend)
  }

  lemma StepKeeps(s: State, ev: Event)
    requires Inv(s) && Enabled(s, ev)
    ensures Inv(Step(s, ev))
  {
    TokenStep(s, ev);
    PairStep(s, ev);
    PaceStep(s, ev);
    OrderStep(s, ev, FromPrio);
    OrderStep(s, ev, FromRetr);
    OrderStep(s, ev, FromSend);
  }

  lemma InitInv()
    ensures Inv(INIT)
  {
  }

  lemma {:induction false} RunInv(states: seq<State>, evs: seq<Event>, i: nat)
    requires IsRun(states, evs) && i < |states|
    ensures Inv(states[i])
  {
    if i == 0 {
      InitInv();
    } else {
      RunInv(states, evs, i - 1);
      assert Next(states[i - 1], evs[i - 1], states[(i - 1) + 1]);
      StepKeeps(states[i - 1], evs[i - 1]);
    }
  }

  // ---------------------------------------------------------------- theorems over whole runs

  /** The sender never takes from an empty queue, under any interleaving, cookies included. */
  lemma NeverTakesFromEmpty(states: seq<State>, evs: seq<Event>, i: nat)
    requires IsRun(states, evs) && i < |states|
    ensures !states[i].underflow && (states[i].th.pc.AtSend? ==> states[i].send.items != [])
  {
    RunInv(states, evs, i);
  }

  /** Tokens are conserved, and the queues stay within their rings. */
  lemma TokensConserved(states: seq<State>, evs: seq<Event>, i: nat)
    requires IsRun(states, evs) && i < |states|
    ensures var s := states[i];
            && s.sem.sFull + s.sem.qEmpty + |s.sem.holding| + s.sem.inserted + Carried(s.th.pc) == TOKENS
            && Queued(s) == s.sem.sFull + s.sem.inserted + Owed(s.th.pc) + s.sem.cookies
            && |s.prio.items| <= RING && |s.retr.items| <= RING && |s.send.items| <= RING
  {
    RunInv(states, evs, i);
  }

  /** The sender waits, nothing is announced and no call of send_data is about to announce. */
  predicate IdleWait(s: State) { s.th.pc.AtWait? && s.sem.sFull == 0 && s.sem.inserted == 0 }

  /** Every cookie sent strands a packet: a sender that waits with nothing announced and no call about to
      announce has left as many packets in the queues as it has sent cookies, so the queues are empty
      exactly when no cookie was ever sent. */
  lemma CookiesStrandPackets(states: seq<State>, evs: seq<Event>, i: nat)
    requires IsRun(states, evs) && i < |states|
    requires IdleWait(states[i])
    ensures Queued(states[i]) == states[i].sem.cookies
    ensures var s := states[i]; s.prio.items == [] && s.retr.items == [] && s.send.items == [] <==> s.sem.cookies == 0
  {
    RunInv(states, evs, i);
  }

  lemma {:induction false} CookiesOnlyGrow(states: seq<State>, evs: seq<Event>, i: nat, j: nat)
    requires IsRun(states, evs) && i <= j < |states|
    ensures states[i].sem.cookies <= states[j].sem.cookies
    decreases j
  {
    if i < j {
      CookiesOnlyGrow(states, evs, i, j - 1);
      assert Next(states[j - 1], evs[j - 1], states[(j - 1) + 1]);
    }
  }

  /** The backlog is never worked off: between two such waits it does not shrink, however many packets and
      announcements come in between, and it grows by exactly the cookies sent between them. */
  lemma BacklogNeverShrinks(states: seq<State>, evs: seq<Event>, i: nat, j: nat)
    requires IsRun(states, evs) && i <= j < |states|
    requires IdleWait(states[i]) && IdleWait(states[j])
    ensures Queued(states[i]) <= Queued(states[j])
    ensures Queued(states[j]) - Queued(states[i]) == states[j].sem.cookies - states[i].sem.cookies
  {
    CookiesStrandPackets(states, evs, i);
    CookiesStrandPackets(states, evs, j);
    CookiesOnlyGrow(states, evs, i, j);
  }

  // ---------------------------------------------------------------- how long a stall lasts

  /** The sender waits with nothing announced, and no call of send_data is under way. */
  predicate Stalled(s: State) {
    IdleWait(s) && s.sem.holding == multiset{}
  }

  /** With no call of send_data under way, a sender at its wait is stalled exactly when no more packets are
      queued than cookies were ever sent. */
  lemma StalledIffBacklog(states: seq<State>, evs: seq<Event>, i: nat)
    requires IsRun(states, evs) && i < |states|
    requires var s := states[i]; s.th.pc.AtWait? && s.sem.inserted == 0 && s.sem.holding == multiset{}
    ensures Stalled(states[i]) <==> Queued(states[i]) <= states[i].sem.cookies
  {
    RunInv(states, evs, i);
  }

  lemma StalledStep(s: State, ev: Event)
    requires Stalled(s) && Enabled(s, ev) && !ev.Acquire?
    ensures ev.PostCookies? && Step(s, ev) == s.(sem := s.sem.(ckFull := s.sem.ckFull + 2))
  {
  }

  /** A stall lasts until the next call of send_data: in every continuation without one the sender cannot
      move, whatever cookies become due, and everything queued stays where it is. */
  lemma {:induction false} StallLasts(states: seq<State>, evs: seq<Event>, i: nat, j: nat)
    requires IsRun(states, evs) && i <= j < |states| && Stalled(states[i])
    requires forall n :: i <= n < j ==> !evs[n].Acquire?
    ensures var s, s' := states[i], states[j];
            && Stalled(s') && s'.th == s.th && s'.prio == s.prio && s'.retr == s.retr && s'.send == s.send
            && (forall cookie, bandwidth, ok :: !Enabled(s', Tick(cookie, bandwidth, ok)))
    decreases j
  {
    if i < j {
      StallLasts(states, evs, i, j - 1);
      assert Next(states[j - 1], evs[j - 1], states[(j - 1) + 1]);
      StalledStep(states[j - 1], evs[j - 1]);
    }
  }

  lemma ContinuesCons(s: State, ev: Event, evs: seq<Event>, states: seq<State>)
    requires Enabled(s, ev) && Continues(Step(s, ev), evs, states)
    ensures Continues(s, [ev] + evs, [s] + states)
  {
    var evs', states' := [ev] + evs, [s] + states;
    forall i | 0 <= i < |evs'| ensures Next(states'[i], evs'[i], states'[i + 1]) {
      if i > 0 { assert Next(states[i - 1], evs[i - 1], states[(i - 1) + 1]); }
    }
  }

  /** The same event a number of times. */
  function Times(ev: Event, n: nat): seq<Event> { if n == 0 then [] else [ev] + Times(ev, n - 1) }

  /** The way of the sender from its wait to the send queue. */
  lemma SenderMoves(s: State, tick: Event) returns (states: seq<State>)
    requires s.th.pc.AtWait? && !s.th.z && s.sem.sFull > 0 && s.sem.ckFull == 0
    requires s.prio.items == [] && s.retr.items == [] && s.send.items != []
    requires tick.Tick? && tick.bandwidth > 0 && tick.cookie.packet.flags == COOKIE_FLAGS
    ensures Continues(s, Times(tick, 5), states)
    ensures var s' := states[|states| - 1];
            s'.th.pc == InHand(s.send.items[0], FromSend) && s'.send.items == s.send.items[1..]
  {
    var s1 := Step(s, tick);
    var s2 := Step(s1, tick);
    var s3 := Step(s2, tick);
    var s4 := Step(s3, tick);
    var s5 := Step(s4, tick);
    states := [s5];
    ContinuesCons(s4, tick, Times(tick, 0), states);
    states := [s4] + states;
    ContinuesCons(s3, tick, Times(tick, 1), states);
    states := [s3] + states;
    ContinuesCons(s2, tick, Times(tick, 2), states);
    states := [s2] + states;
    ContinuesCons(s1, tick, Times(tick, 3), states);
    states := [s1] + states;
    ContinuesCons(s, tick, Times(tick, 4), states);
    states := [s] + states;
  }

  /** The next call of send_data ends it: once its packet is announced the sender moves again, and with no
      cookie due and nothing of higher priority it takes the packet that waited longest, not the new one. */
  lemma StallEnds(s: State, d: SendData, tick: Event) returns (states: seq<State>)
    requires Stalled(s) && !s.th.z && s.sem.qEmpty > 0 && s.sem.ckFull == 0
    requires s.prio.items == [] && s.retr.items == [] && 0 < |s.send.items| < RING
    requires QueueFor(d.packet.flags) == FromSend
    requires tick.Tick? && tick.bandwidth > 0 && tick.cookie.packet.flags == COOKIE_FLAGS
    ensures Continues(s, [Acquire(d)] + ([Insert(d)] + ([PostFull] + Times(tick, 5))), states)
    ensures var s' := states[|states| - 1];
            s'.th.pc == InHand(s.send.items[0], FromSend) && s'.send.items == s.send.items[1..] + [d]
  {
    var s1 := Step(s, Acquire(d));
    var s2 := Step(s1, Insert(d));
    var s3 := Step(s2, PostFull);
    assert s3.send.items == s.send.items + [d];
    states := SenderMoves(s3, tick);
    ContinuesCons(s2, PostFull, Times(tick, 5), states);
    states := [s2] + states;
    ContinuesCons(s1, Insert(d), [PostFull] + Times(tick, 5), states);
    states := [s1] + states;
    ContinuesCons(s, Acquire(d), [Insert(d)] + ([PostFull] + Times(tick, 5)), states);
    states := [s] + states;
  }

  /** A packet sent as the second of a pair comes from the send queue and goes to the host of the packet
      sent just before it, which was itself a fragment from the send queue, sent without error. */
  lemma PairsAreConsecutive(states: seq<State>, evs: seq<Event>, i: nat, j: nat)
    requires IsRun(states, evs) && i < |states| && j < |states[i].th.sent| && states[i].th.sent[j].paired
    ensures var sent := states[i].th.sent;
            && sent[j].src.FromSend? && j > 0
            && sent[j - 1].src.FromSend? && !sent[j - 1].paired && sent[j - 1].ok
            && IsBlock(sent[j - 1].d.packet.flags) && sent[j - 1].d.to == sent[j].d.to
  {
    RunInv(states, evs, i);
    assert PairAt(states[i].th.sent, j);
  }

  // ---------------------------------------------------------------- the mark on the wire

  predicate Plain(d: SendData) { !IsConsecutive(d.packet.flags) }

  predicate AllPlain(ds: seq<SendData>) { forall d :: d in ds ==> Plain(d) }

  /** No packet in a call of send_data, a queue, the sender's hand or the record carries the mark yet. */
  predicate PlainInv(s: State) {
    && (forall d :: d in s.sem.holding ==> Plain(d))
    && AllPlain(s.prio.items) && AllPlain(s.retr.items) && AllPlain(s.send.items)
    && (s.th.pc.InHand? ==> Plain(s.th.pc.d))
    && (forall r :: r in s.th.sent ==> Plain(r.d))
  }

  lemma PlainTake(s: State, src: Source)
    requires PlainInv(s) && !src.FromCookie? && QueueOf(s, src).items != []
    ensures PlainInv(TakeStep(s, src))
  {
    var q := QueueOf(s, src).items;
    assert q[0] in q && forall d :: d in q[1..] ==> d in q;
  }

  lemma PlainTick(s: State, cookie: SendData, bandwidth: nat, ok: bool)
    requires PlainInv(s) && Enabled(s, Tick(cookie, bandwidth, ok))
    ensures PlainInv(TickStep(s, cookie, bandwidth, ok))
  {
    match s.th.pc
    case AtPrio => if s.prio.items != [] { PlainTake(s, FromPrio); }
    case AtRetr => if s.retr.items != [] { PlainTake(s, FromRetr); }
    case AtSend => if s.send.items != [] { PlainTake(s, FromSend); }
    case Woken => assert Plain(cookie);
    case _ =>
  }

  lemma PlainInsert(s: State, d: SendData)
    requires PlainInv(s) && d in s.sem.holding
    ensures PlainInv(InsertStep(s, d))
  {
    var src := QueueFor(d.packet.flags);
    var q := QueueOf(s, src);
    var s' := InsertStep(s, d);
    assert forall x :: x in s.sem.holding - multiset{d} ==> x in s.sem.holding;
    assert AllPlain(q.items + [d]);
    assert s'.th == s.th && (QueueOf(s', src).items == q.items || QueueOf(s', src).items == q.items + [d]);
  }

  lemma PlainStep(s: State, ev: Event)
    requires PlainInv(s) && Enabled(s, ev) && (ev.Acquire? ==> Plain(ev.d))
    ensures PlainInv(Step(s, ev))
  {
    match ev
    case Insert(d) => PlainInsert(s, d);
    case Tick(cookie, bandwidth, ok) => PlainTick(s, cookie, bandwidth, ok);
    case _ =>
  }

  lemma {:induction false} RunPlain(states: seq<State>, evs: seq<Event>, i: nat)
    requires IsRun(states, evs) && i < |states|
    requires forall n :: 0 <= n < |evs| && evs[n].Acquire? ==> Plain(evs[n].d)
    ensures PlainInv(states[i])
  {
    if i > 0 {
      RunPlain(states, evs, i - 1);
      assert Next(states[i - 1], evs[i - 1], states[(i - 1) + 1]);
      PlainStep(states[i - 1], evs[i - 1]);
    }
  }

  /** On the wire exactly the second packet of a pair is marked, in every run in which no packet is marked
      when it is handed to send_data: the j-th datagram carries the mark if and only if it was sent as the
      second of a pair, and then the one before it is an unmarked block to the same host. */
  lemma MarkedIffPaired(states: seq<State>, evs: seq<Event>, i: nat, j: nat, e: Endian, seqno: u16, natPort: u16)
    requires IsRun(states, evs) && i < |states| && j < |states[i].th.sent|
    requires forall n :: 0 <= n < |evs| && evs[n].Acquire? ==> Plain(evs[n].d)
    ensures var r := states[i].th.sent[j];
            && (IsConsecutive(WireOut(e, r.d.packet, seqno, r.paired, natPort).flags) <==> r.paired)
            && (r.paired ==>
                  j > 0
                  && var p := states[i].th.sent[j - 1];
                     var out := WireOut(e, p.d.packet, seqno, p.paired, natPort).flags;
                     IsBlock(out) && !IsConsecutive(out) && p.d.to == r.d.to && p.ok)
  {
    RunPlain(states, evs, i);
    var r := states[i].th.sent[j];
    assert r in states[i].th.sent;
    PairMark(e, r.d.packet, seqno, r.paired, natPort);
    if r.paired {
      PairsAreConsecutive(states, evs, i, j);
      assert states[i].th.sent[j - 1] in states[i].th.sent;
    }
  }

  // ---------------------------------------------------------------- pacing over whole runs

  /** When the sender waits for a leader, the sleep it has requested is exactly 1500 microseconds and the
      pace of every packet sent so far; no more than two packets go out between sleeps. */
  lemma PacingExact(states: seq<State>, evs: seq<Event>, i: nat)
    requires IsRun(states, evs) && i < |states|
    ensures var th := states[i].th;
            && Paced(th.sent) && th.clock.since <= 2
            && (th.pc.AtWait? && !th.z ==> th.clock.slept == 1500 + PaceSum(th.sent))
  {
    RunInv(states, evs, i);
  }

  lemma SinceStep(s: State, ev: Event)
    requires Enabled(s, ev)
    ensures |Step(s, ev).th.sent| >= |s.th.sent|
    ensures !(ev.Tick? && s.th.pc.AtSleep?) ==>
              Step(s, ev).th.clock.since - s.th.clock.since == |Step(s, ev).th.sent| - |s.th.sent|
  {
  }

  lemma {:induction false} SentSince(states: seq<State>, evs: seq<Event>, i: nat, j: nat)
    requires IsRun(states, evs) && i <= j < |states|
    requires forall n :: i <= n < j ==> !(evs[n].Tick? && states[n].th.pc.AtSleep?)
    ensures states[j].th.clock.since - states[i].th.clock.since == |states[j].th.sent| - |states[i].th.sent|
    decreases j - i
  {
    if i < j {
      assert Next(states[i], evs[i], states[i + 1]);
      SinceStep(states[i], evs[i]);
      SentSince(states, evs, i + 1, j);
    }
  }

  /** Between two sleeps of the sender at most two packets go out, in every run. */
  lemma AtMostTwoBetweenSleeps(states: seq<State>, evs: seq<Event>, i: nat, j: nat)
    requires IsRun(states, evs) && i <= j < |states|
    requires forall n :: i <= n < j ==> !(evs[n].Tick? && states[n].th.pc.AtSleep?)
    ensures |states[j].th.sent| <= |states[i].th.sent| + 2
  {
    SentSince(states, evs, i, j);
    PacingExact(states, evs, j);
  }

  function Bytes(sent: seq<SendRec>): nat {
    if sent == [] then 0 else Bytes(sent[..|sent| - 1]) + Length(sent[|sent| - 1].d.packet)
  }

  lemma FloorBound(a: nat, b: nat)
    requires b > 0
    ensures b * (a / b) <= a < b * (a / b) + b
  {
  }

  lemma Distribute(b: int, x: int, y: int)
    ensures b * (x + y) == b * x + b * y
  {
  }

  /** With a constant bandwidth the pace of all packets falls short of the exact time of their bytes by
      less than a microsecond a packet, and never exceeds it. */
  lemma {:induction false} PaceWithinOne(sent: seq<SendRec>, bandwidth: nat)
    requires bandwidth > 0 && forall r :: r in sent ==> r.bandwidth == bandwidth
    ensures Paced(sent)
    ensures bandwidth * PaceSum(sent) <= 1_000_000 * Bytes(sent) <= bandwidth * PaceSum(sent) + bandwidth * |sent|
    ensures sent != [] ==> 1_000_000 * Bytes(sent) < bandwidth * PaceSum(sent) + bandwidth * |sent|
  {
    if sent != [] {
      var before, r := sent[..|sent| - 1], sent[|sent| - 1];
      PaceWithinOne(before, bandwidth);
      assert r in sent;
      FloorBound(1_000_000 * Length(r.d.packet), bandwidth);
      Distribute(bandwidth, PaceSum(before), Pace(r));
      Distribute(bandwidth, |before|, 1);
    }
  }

  /** The rate over whole runs: with a constant bandwidth, the time the bytes sent before a leader need and
      the sleep requested since the start, less the initial 1500, differ by at most a microsecond a packet. */
  lemma RateBound(states: seq<State>, evs: seq<Event>, i: nat, bandwidth: nat)
    requires IsRun(states, evs) && i < |states| && bandwidth > 0
    requires var th := states[i].th; th.pc.AtWait? && !th.z && forall r :: r in th.sent ==> r.bandwidth == bandwidth
    ensures var th := states[i].th;
            var slept := th.clock.slept - 1500;
            bandwidth * slept <= 1_000_000 * Bytes(th.sent) <= bandwidth * slept + bandwidth * |th.sent|
  {
    RunInv(states, evs, i);
    PaceWithinOne(states[i].th.sent, bandwidth);
  }

  /** Nothing is lost, duplicated or reordered inside a queue. */
  lemma QueuesAreFifo(states: seq<State>, evs: seq<Event>, i: nat, src: Source)
    requires IsRun(states, evs) && i < |states| && !src.FromCookie?
    ensures var s := states[i];
            QueueOf(s, src).put == TakenFrom(s.th.sent, src) + (HandOf(s.th.pc, src) + QueueOf(s, src).items)
  {
    RunInv(states, evs, i);
  }

  // ---------------------------------------------------------------- the stall is real

  ghost predicate Reachable(s: State) { exists states, evs :: IsRun(states, evs) && states[|evs|] == s }

  lemma ReachStep(s: State, ev: Event)
    requires Reachable(s) && Enabled(s, ev)
    ensures Reachable(Step(s, ev))
  {
    var states, evs :| IsRun(states, evs) && states[|evs|] == s;
    var states', evs' := states + [Step(s, ev)], evs + [ev];
    forall i | 0 <= i < |evs'| ensures Next(states'[i], evs'[i], states'[i + 1]) {
      if i < |evs| { assert Next(states[i], evs[i], states[i + 1]); }
    }
    assert IsRun(states', evs') && states'[|evs'|] == Step(s, ev);
  }

  function Queueing(d: SendData, sem: Sems, th: Thread): State {
    State(Queue([], []), Queue([], []), Queue([d], [d]), sem, th, false)
  }

  lemma PacketQueued(d: SendData)
    requires QueueFor(d.packet.flags) == FromSend
    ensures Reachable(Queueing(d, Sems(1, TOKENS - 1, multiset{}, 0, 2, 0), INIT.th))
  {
    var none: seq<Event> := [];
    assert IsRun([INIT], none) && [INIT][|none|] == INIT;
    ReachStep(INIT, Acquire(d));
    var s1 := INIT.(sem := Sems(0, TOKENS - 1, multiset{d}, 0, 0, 0));
    ReachStep(s1, Insert(d));
    var s2 := Queueing(d, Sems(0, TOKENS - 1, multiset{}, 1, 0, 0), INIT.th);
    assert Step(s1, Insert(d)) == s2;
    ReachStep(s2, PostFull);
    ReachStep(Step(s2, PostFull), PostCookies);
  }

  /** With one packet queued and one cookie due, the scheduler comes to a stall with the packet still in the
      send queue. */
  lemma CookieStall(d: SendData, cookie: SendData) returns (s: State)
    requires QueueFor(d.packet.flags) == FromSend && cookie.packet.flags == COOKIE_FLAGS
    ensures Reachable(s) && Stalled(s) && s.send.items == [d]
  {
    PacketQueued(d);
    var tick := Tick(cookie, 1, false);
    var sem := Sems(1, TOKENS - 1, multiset{}, 0, 2, 0);
    var th := INIT.th;
    s := Queueing(d, sem, th);
    ReachStep(s, tick);
    s := Queueing(d, sem, th.(pc := AtSleep));
    ReachStep(s, tick);
    th := th.(clock := Clock(1500, 0, 1500, 0));
    s := Queueing(d, sem, th.(pc := AtWait));
    ReachStep(s, tick);
    s := Queueing(d, sem.(sFull := 0), th.(pc := Woken));
    ReachStep(s, tick);
    sem := Sems(0, TOKENS - 1, multiset{}, 0, 1, 1);
    s := Queueing(d, sem, th.(pc := InHand(cookie, FromCookie)));
    ReachStep(s, tick);
    th := SendStep(s.th, 1, false);
    s := Queueing(d, sem, th);
    ReachStep(s, tick);
    s := Queueing(d, sem.(qEmpty := TOKENS), th.(pc := AtTop));
    ReachStep(s, tick);
    s := Queueing(d, sem.(qEmpty := TOKENS), th.(pc := AtSleep));
    ReachStep(s, tick);
    s := Step(s, tick);
  }
}
