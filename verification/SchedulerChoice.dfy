/** Which packet the sender takes next, over whole runs and without naming its steps: the queue a packet
    waits in, strict priority between the queues, cookies first, and pairs whenever they can be made. */
module SchedulerChoice {
  import opened Basics
  import opened NetEncoder
  import opened Framing
  import opened Scheduler
  import opened SchedulerProofs

  // ---------------------------------------------------------------- the queue a packet waits in

  /** Acknowledgements and bandwidth messages. */
  predicate Urgent(d: SendData) { d.packet.flags & 0x02 != 0 || d.packet.flags & 0x40 != 0 }

  /** Retransmissions of anything else. */
  predicate Repeated(d: SendData) { !Urgent(d) && d.packet.flags & 0x10 != 0 }

  lemma QueueMeans(d: SendData)
    ensures QueueFor(d.packet.flags) == if Urgent(d) then FromPrio else if Repeated(d) then FromRetr else FromSend
  {
  }

  predicate AllUrgent(ds: seq<SendData>) { forall d :: d in ds ==> Urgent(d) }
  predicate AllRepeated(ds: seq<SendData>) { forall d :: d in ds ==> Repeated(d) }
  predicate AllOrdinary(ds: seq<SendData>) { forall d :: d in ds ==> !Urgent(d) && !Repeated(d) }

  predicate KindInv(s: State) { AllUrgent(s.prio.put) && AllRepeated(s.retr.put) && AllOrdinary(s.send.put) }

  lemma KindStep(s: State, ev: Event)
    requires KindInv(s) && Enabled(s, ev)
    ensures KindInv(Step(s, ev))
  {
    if ev.Insert? {
      QueueMeans(ev.d);
    } else {
      var s' := Step(s, ev);
      assert s'.prio.put == s.prio.put && s'.retr.put == s.retr.put && s'.send.put == s.send.put;
    }
  }

  /** In every run, acknowledgements and bandwidth messages are put into the priority queue, other
      retransmissions into the retransmission queue, and everything else into the send queue. */
  lemma {:induction false} QueuedByKind(states: seq<State>, evs: seq<Event>, i: nat)
    requires IsRun(states, evs) && i < |states|
    ensures KindInv(states[i])
  {
    if i > 0 {
      QueuedByKind(states, evs, i - 1);
      assert Next(states[i - 1], evs[i - 1], states[(i - 1) + 1]);
      KindStep(states[i - 1], evs[i - 1]);
    }
  }

  /** A call that holds a token puts its packet at the end of its queue if and only if there is room, and
      leaves the other queues alone; otherwise the token goes back. */
  lemma InsertExact(states: seq<State>, evs: seq<Event>, i: nat)
    requires IsRun(states, evs) && i < |evs| && evs[i].Insert?
    ensures var s, s', d := states[i], states[i + 1], evs[i].d;
            var q := if Urgent(d) then s.prio.items else if Repeated(d) then s.retr.items else s.send.items;
            var more := if |q| < RING then [d] else [];
            && s'.prio.items == s.prio.items + (if Urgent(d) then more else [])
            && s'.retr.items == s.retr.items + (if Repeated(d) then more else [])
            && s'.send.items == s.send.items + (if !Urgent(d) && !Repeated(d) then more else [])
            && s'.sem.qEmpty == s.sem.qEmpty + (if |q| < RING then 0 else 1)
  {
    assert Next(states[i], evs[i], states[i + 1]);
    QueueMeans(evs[i].d);
  }

  // ---------------------------------------------------------------- strict priority

  /** The sender takes a packet in this step. */
  predicate Takes(s: State, s': State, d: SendData, src: Source) {
    !s.th.pc.InHand? && s'.th.pc == InHand(d, src)
  }

  /** In every run, the sender at the priority queue takes its oldest packet when there is one, and else goes
      on to the retransmission queue; there it does the same and goes on to the send queue. */
  lemma TakesWhatIsThere(states: seq<State>, evs: seq<Event>, i: nat)
    requires IsRun(states, evs) && i < |evs| && evs[i].Tick?
    ensures var s, s' := states[i], states[i + 1];
            && (s.th.pc.AtPrio? ==>
                  if s.prio.items != [] then Takes(s, s', s.prio.items[0], FromPrio) else s'.th.pc.AtRetr?)
            && (s.th.pc.AtRetr? ==>
                  if s.retr.items != [] then Takes(s, s', s.retr.items[0], FromRetr) else s'.th.pc.AtSend?)
            && (s.th.pc.AtSend? ==> s.send.items != [] && Takes(s, s', s.send.items[0], FromSend))
  {
    assert Next(states[i], evs[i], states[i + 1]);
    NeverTakesFromEmpty(states, evs, i);
  }

  /** In every run, a packet that is taken is the oldest of its queue and leaves it, and the sender was at that
      queue; the other queues do not change. */
  lemma TakenIsOldest(states: seq<State>, evs: seq<Event>, i: nat, d: SendData, src: Source)
    requires IsRun(states, evs) && i < |evs| && Takes(states[i], states[i + 1], d, src)
    ensures var s, s' := states[i], states[i + 1];
            && s.prio.items == (if src.FromPrio? then [d] else []) + s'.prio.items
            && s.retr.items == (if src.FromRetr? then [d] else []) + s'.retr.items
            && s.send.items == (if src.FromSend? then [d] else []) + s'.send.items
            && s.th.pc == match src
                          case FromPrio => AtPrio case FromRetr => AtRetr case FromSend => AtSend
                          case FromCookie => Woken
  {
    assert Next(states[i], evs[i], states[i + 1]);
  }

  /** The step at `k` is the sender's look at a queue that is empty, and the sender rests until `i`. */
  ghost predicate LookedAt(states: seq<State>, evs: seq<Event>, k: nat, i: nat, src: Source)
    requires i < |states| && |states| == |evs| + 1 && !src.FromCookie?
  {
    && k < i && evs[k].Tick? && QueueOf(states[k], src).items == []
    && (if src.FromPrio? then states[k].th.pc.AtPrio? else states[k].th.pc.AtRetr?)
    && (forall n :: k < n < i ==> !evs[n].Tick?)
  }

  /** In every run, a sender at the retransmission queue has found the priority queue empty in its last step. */
  lemma {:induction false} PrioWasEmpty(states: seq<State>, evs: seq<Event>, i: nat) returns (k: nat)
    requires IsRun(states, evs) && i < |states| && states[i].th.pc.AtRetr?
    ensures LookedAt(states, evs, k, i, FromPrio)
  {
    assert i > 0;
    assert Next(states[i - 1], evs[i - 1], states[(i - 1) + 1]);
    if evs[i - 1].Tick? { k := i - 1; } else { k := PrioWasEmpty(states, evs, i - 1); }
  }

  /** In every run, a sender at the send queue outside a pair has found the retransmission queue empty in its
      last step, and the priority queue in the step before. */
  lemma {:induction false} RetrWasEmpty(states: seq<State>, evs: seq<Event>, i: nat) returns (k: nat)
    requires IsRun(states, evs) && i < |states| && states[i].th.pc.AtSend? && !states[i].th.z
    ensures LookedAt(states, evs, k, i, FromRetr)
  {
    assert i > 0;
    assert Next(states[i - 1], evs[i - 1], states[(i - 1) + 1]);
    NeverTakesFromEmpty(states, evs, i - 1);
    if evs[i - 1].Tick? { k := i - 1; } else { k := RetrWasEmpty(states, evs, i - 1); }
  }

  /** Strict priority, in every run: a packet taken from the retransmission queue was taken because the
      priority queue was empty at the sender's last look, and one taken from the send queue outside a pair
      because both were. */
  lemma StrictPriority(states: seq<State>, evs: seq<Event>, i: nat, d: SendData, src: Source)
      returns (prio: nat, retr: nat)
    requires IsRun(states, evs) && i < |evs| && Takes(states[i], states[i + 1], d, src)
    ensures src.FromRetr? ==> LookedAt(states, evs, prio, i, FromPrio)
    ensures src.FromSend? && !states[i].th.z ==>
              LookedAt(states, evs, retr, i, FromRetr) && LookedAt(states, evs, prio, retr, FromPrio)
  {
    prio, retr := 0, 0;
    TakenIsOldest(states, evs, i, d, src);
    if src.FromRetr? {
      prio := PrioWasEmpty(states, evs, i);
    } else if src.FromSend? && !states[i].th.z {
      retr := RetrWasEmpty(states, evs, i);
      prio := PrioWasEmpty(states, evs, retr);
    }
  }

  // ---------------------------------------------------------------- no waiting behind lower queues

  /** The sender is on its way to the priority queue and will find the packet at its head. */
  predicate Bound(s: State, d: SendData) {
    !s.th.z && (s.th.pc.AtPrio? || s.th.pc.Woken?) && s.prio.items != [] && s.prio.items[0] == d
  }

  /** In every run, once the sender has woken outside a pair with a packet in the priority queue, and finds
      no cookie due, the next packet it has in hand is that one, whatever else is or comes to be queued. */
  lemma {:induction false} UrgentGoesNext(states: seq<State>, evs: seq<Event>, i: nat, j: nat, d: SendData)
    requires IsRun(states, evs) && i < j < |states| && Bound(states[i], d)
    requires forall n :: i <= n < j ==> !states[n].th.pc.InHand?
    requires forall n :: i <= n < j && states[n].th.pc.Woken? ==> states[n].sem.ckFull == 0
    requires states[j].th.pc.InHand?
    ensures states[j].th.pc == InHand(d, FromPrio)
    decreases j - i
  {
    assert Next(states[i], evs[i], states[i + 1]);
    BoundStep(states[i], evs[i], d);
    if i + 1 < j { UrgentGoesNext(states, evs, i + 1, j, d); }
  }

  lemma BoundStep(s: State, ev: Event, d: SendData)
    requires Bound(s, d) && Enabled(s, ev) && (s.th.pc.Woken? ==> s.sem.ckFull == 0)
    ensures Bound(Step(s, ev), d) || Step(s, ev).th.pc == InHand(d, FromPrio)
  {
  }

  /** In every run, a due cookie goes before every queue, outside a pair, and nothing else makes one go. */
  lemma CookieFirst(states: seq<State>, evs: seq<Event>, i: nat)
    requires IsRun(states, evs) && i < |evs| && evs[i].Tick? && states[i].th.pc.Woken?
    ensures var s, s' := states[i], states[i + 1];
            s'.th.pc == (if s.th.z then AtSend
                         else if s.sem.ckFull > 0 then InHand(evs[i].cookie, FromCookie) else AtPrio)
  {
    assert Next(states[i], evs[i], states[i + 1]);
  }

  function Posts(evs: seq<Event>): nat {
    if evs == [] then 0 else Posts(evs[..|evs| - 1]) + if evs[|evs| - 1].PostCookies? then 1 else 0
  }

  lemma CookieCount(s: State, ev: Event)
    requires Enabled(s, ev)
    ensures Step(s, ev).sem.cookies + Step(s, ev).sem.ckFull
         == s.sem.cookies + s.sem.ckFull + if ev.PostCookies? then 2 else 0
  {
  }

  /** In every run, each call of send_cookie makes two cookies due, and each goes out once. */
  lemma {:induction false} TwoCookiesEach(states: seq<State>, evs: seq<Event>, i: nat)
    requires IsRun(states, evs) && i < |states|
    ensures states[i].sem.cookies + states[i].sem.ckFull == 2 * Posts(evs[..i])
  {
    if i > 0 {
      TwoCookiesEach(states, evs, i - 1);
      assert Next(states[i - 1], evs[i - 1], states[(i - 1) + 1]);
      CookieCount(states[i - 1], evs[i - 1]);
      assert evs[..i][..i - 1] == evs[..i - 1];
    }
  }

  // ---------------------------------------------------------------- pairs are made

  /** A packet that may lead a pair leaves its host behind. */
  ghost predicate LeaderInv(th: Thread) {
    && (th.pc.AtTop? ==> !th.z)
    && forall host :: (th.pc.AtTop? || th.pc.AtPost?) && !th.z && LedTo(th.sent, host) ==> th.lasthost == Some(host)
  }

  lemma LeaderStep(s: State, ev: Event)
    requires LeaderInv(s.th) && PairInv(s.th, s.send.items) && Enabled(s, ev)
    ensures LeaderInv(Step(s, ev).th)
  {
  }

  lemma {:induction false} RunLeader(states: seq<State>, evs: seq<Event>, i: nat)
    requires IsRun(states, evs) && i < |states|
    ensures LeaderInv(states[i].th)
  {
    if i > 0 {
      RunLeader(states, evs, i - 1);
      RunInv(states, evs, i - 1);
      assert Next(states[i - 1], evs[i - 1], states[(i - 1) + 1]);
      LeaderStep(states[i - 1], evs[i - 1]);
    }
  }

  /** The sender is committed to send the packet next, as the second of a pair. */
  predicate Committed(s: State, sent: seq<SendRec>, d: SendData) {
    && s.th.z && s.th.sent == sent
    && (|| ((s.th.pc.AtWait? || s.th.pc.Woken? || s.th.pc.AtSend?) && s.send.items != [] && s.send.items[0] == d)
        || s.th.pc == InHand(d, FromSend))
  }

  /** The packet has gone out as the second of a pair, right after these. */
  predicate Paired(s: State, sent: seq<SendRec>, d: SendData) {
    |s.th.sent| == |sent| + 1 && s.th.sent[..|sent|] == sent && s.th.sent[|sent|].paired && s.th.sent[|sent|].d == d
  }

  lemma CommittedStep(s: State, ev: Event, sent: seq<SendRec>, d: SendData)
    requires Committed(s, sent, d) && Enabled(s, ev)
    ensures Committed(Step(s, ev), sent, d) || Paired(Step(s, ev), sent, d)
  {
  }

  /** Pairs are made whenever they can be: in every run, when the packet sent last is an unpaired fragment from
      the send queue, sent without error, and at the top of its loop the sender finds a packet for the same
      host at the head of the send queue, the next packet it sends is that one, as the second of a pair. */
  lemma PairIsMade(states: seq<State>, evs: seq<Event>, i: nat, j: nat)
    requires IsRun(states, evs) && i < j < |states| && evs[i].Tick? && states[i].th.pc.AtTop?
    requires states[i].send.items != [] && LedTo(states[i].th.sent, states[i].send.items[0].to)
    requires |states[j].th.sent| == |states[i].th.sent| + 1
    requires forall n :: i <= n < j ==> |states[n].th.sent| == |states[i].th.sent|
    ensures Paired(states[j], states[i].th.sent, states[i].send.items[0])
  {
    RunLeader(states, evs, i);
    assert Next(states[i], evs[i], states[i + 1]);
    assert Committed(states[i + 1], states[i].th.sent, states[i].send.items[0]);
    StaysCommitted(states, evs, i + 1, j, states[i].th.sent, states[i].send.items[0]);
  }

  lemma {:induction false} StaysCommitted(
      states: seq<State>, evs: seq<Event>, i: nat, j: nat, sent: seq<SendRec>, d: SendData)
    requires IsRun(states, evs) && i <= j < |states| && Committed(states[i], sent, d)
    requires |states[j].th.sent| == |sent| + 1 && forall n :: i <= n < j ==> |states[n].th.sent| == |sent|
    ensures Paired(states[j], sent, d)
    decreases j - i
  {
    assert i < j;
    assert Next(states[i], evs[i], states[i + 1]);
    CommittedStep(states[i], evs[i], sent, d);
    if i + 1 < j { StaysCommitted(states, evs, i + 1, j, sent, d); }
  }

  /** So a raw message for the host of the fragment before it is lost: it goes out with the mark of a pair, and
      no receiver makes anything of it. */
  lemma RawAfterBlockIsLost(
      states: seq<State>, evs: seq<Event>, i: nat, j: nat, maker: Endian, echoer: Endian, seqno: u16, natPort: u16)
    requires IsRun(states, evs) && i < j < |states| && evs[i].Tick? && states[i].th.pc.AtTop?
    requires states[i].send.items != [] && LedTo(states[i].th.sent, states[i].send.items[0].to)
    requires |states[j].th.sent| == |states[i].th.sent| + 1
    requires forall n :: i <= n < j ==> |states[n].th.sent| == |states[i].th.sent|
    requires states[i].send.items[0].packet.flags == 0
    ensures var r := states[j].th.sent[|states[i].th.sent|];
            && r.d == states[i].send.items[0]
            && Process(echoer, WireOut(maker, r.d.packet, seqno, r.paired, natPort)) == NOTHING
  {
    PairIsMade(states, evs, i, j);
    var r := states[j].th.sent[|states[i].th.sent|];
    assert MarkConsecutive(0) == 0x04;
    MarkedIsNothing(echoer, WireOut(maker, r.d.packet, seqno, true, natPort));
  }
}
