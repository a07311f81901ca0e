/** send_data and the choice of the next packet, on the rings themselves (packet_sender.c), for a caller
    that is not disturbed; and how they are made of the steps of the scheduler. */
module SendQueues {
  import opened Basics
  import opened RingQueue
  import opened Scheduler
  import opened SchedulerChoice

  /** The queues and semaphores as values. */
  datatype View = View(prio: seq<SendData>, retr: seq<SendData>, send: seq<SendData>, sFull: nat, qEmpty: nat)

  function ItemsOf(v: View, src: Source): seq<SendData>
    requires !src.FromCookie?
  {
    match src case FromPrio => v.prio case FromRetr => v.retr case FromSend => v.send
  }

  function WithItems(v: View, src: Source, q: seq<SendData>): View
    requires !src.FromCookie?
  {
    match src case FromPrio => v.(prio := q) case FromRetr => v.(retr := q) case FromSend => v.(send := q)
  }

  /** send_data: a packet is accepted when a token is free and its ring has room. */
  function Sent(v: View, d: SendData): (View, bool) {
    var src := QueueFor(d.packet.flags);
    if v.qEmpty > 0 && |ItemsOf(v, src)| < RING
    then (WithItems(v, src, ItemsOf(v, src) + [d]).(sFull := v.sFull + 1, qEmpty := v.qEmpty - 1), true)
    else (v, false)
  }

  /** The first queue that is not empty, in order of priority. */
  function NextSource(v: View): Source {
    if v.prio != [] then FromPrio else if v.retr != [] then FromRetr else FromSend
  }

  class Sender {
    const prio: Ring
    const retr: Ring
    const send: Ring
    var sFull: nat
    var qEmpty: nat

    ghost predicate Valid()
      reads this, prio, retr, send
    {
      && prio.Valid() && retr.Valid() && send.Valid()
      && prio != retr && prio != send && retr != send
      && prio.buf != retr.buf && prio.buf != send.buf && retr.buf != send.buf
    }

    ghost function Value(): View
      requires Valid()
      reads this, prio, retr, send, prio.buf, retr.buf, send.buf
    {
      View(prio.Contents(), retr.Contents(), send.Contents(), sFull, qEmpty)
    }

    /** init_sender */
    constructor ()
      ensures Valid() && Value() == View([], [], [], 0, TOKENS)
    {
      prio := new Ring();
      retr := new Ring();
      send := new Ring();
      sFull, qEmpty := 0, TOKENS;
    }

    /** send_data */
    method SendData(d: SendData) returns (accepted: bool)
      requires Valid()
      modifies this, prio, retr, send, prio.buf, retr.buf, send.buf
      ensures Valid() && Value() == Sent(old(Value()), d).0
      ensures accepted == Sent(old(Value()), d).1
    {
      if qEmpty == 0 { return false; }
      qEmpty := qEmpty - 1;
      accepted := Insert(d);
      if accepted { sFull := sFull + 1; } else { qEmpty := qEmpty + 1; }
    }

    /** The choice of the queue and the insertion under its lock. */
    method Insert(d: SendData) returns (ok: bool)
      requires Valid()
      modifies prio, retr, send, prio.buf, retr.buf, send.buf
      ensures Valid()
      ensures var v, src := old(Value()), QueueFor(d.packet.flags);
              && (ok <==> |ItemsOf(v, src)| < RING)
              && Value() == WithItems(v, src, ItemsOf(v, src) + if ok then [d] else [])
    {
      if IsAck(d.packet.flags) || IsBandwidth(d.packet.flags) {
        ok := prio.Put(d);
      } else if IsRetransmission(d.packet.flags) {
        ok := retr.Put(d);
      } else {
        ok := send.Put(d);
      }
    }

    /** The choice of packet_send between its wait and its return of the token, without a cookie and
        outside a pair: the oldest packet of the first queue that is not empty. */
    method TakeNext() returns (d: SendData, src: Source)
      requires Valid() && sFull > 0 && |Value().prio| + |Value().retr| + |Value().send| > 0
      modifies this, prio`f, retr`f, send`f
      ensures Valid() && src == NextSource(old(Value()))
      ensures var v := old(Value());
              && ItemsOf(v, src) == [d] + ItemsOf(Value(), src)
              && Value() == WithItems(v, src, ItemsOf(v, src)[1..]).(sFull := v.sFull - 1, qEmpty := v.qEmpty + 1)
    {
      sFull := sFull - 1;
      if prio.f > 0 {
        d := prio.Take();
        src := FromPrio;
      } else if retr.f > 0 {
        d := retr.Take();
        src := FromRetr;
      } else {
        d := send.Take();
        src := FromSend;
      }
      qEmpty := qEmpty + 1;
    }
  }

  function ViewOf(s: State): View { View(s.prio.items, s.retr.items, s.send.items, s.sem.sFull, s.sem.qEmpty) }

  /** Undisturbed, the three steps of a send_data call come to what send_data does: the packet is queued
      and announced, or everything is as before. */
  lemma SendIsItsSteps(s: State, d: SendData)
    requires s.sem.qEmpty > 0
    ensures var s1 := Step(s, Acquire(d));
            && Enabled(s1, Insert(d))
            && var s2 := Step(s1, Insert(d));
               if Sent(ViewOf(s), d).1
               then Enabled(s2, PostFull) && ViewOf(Step(s2, PostFull)) == Sent(ViewOf(s), d).0
               else ViewOf(s2) == ViewOf(s)
  {
  }

  /** After send_data an acknowledgement or bandwidth message is the last packet of the priority queue, any
      other retransmission that of the retransmission queue, and every other packet that of the send queue,
      if a token is free and there is room; otherwise nothing has changed. */
  lemma SentByKind(v: View, d: SendData)
    ensures var q := if Urgent(d) then v.prio else if Repeated(d) then v.retr else v.send;
            var more := if v.qEmpty > 0 && |q| < RING then [d] else [];
            && (Sent(v, d).1 <==> more != [])
            && Sent(v, d).0 == View(v.prio + (if Urgent(d) then more else []),
                                    v.retr + (if Repeated(d) then more else []),
                                    v.send + (if !Urgent(d) && !Repeated(d) then more else []),
                                    v.sFull + |more|, v.qEmpty - |more|)
  {
    QueueMeans(d);
  }

  /** The sender moves a number of times, undisturbed. */
  function Moved(s: State, tick: Event, n: nat): Option<State>
    requires tick.Tick?
    decreases n
  {
    if n == 0 then Some(s) else if !Enabled(s, tick) then None else Moved(Step(s, tick), tick, n - 1)
  }

  lemma MovedOn(s: State, tick: Event, n: nat, s': State)
    requires tick.Tick? && Enabled(s, tick) && Moved(Step(s, tick), tick, n) == Some(s')
    ensures Moved(s, tick, n + 1) == Some(s')
  {
  }

  /** From its look at the priority queue to the packet in hand. */
  function Looks(src: Source): nat { match src case FromPrio => 1 case FromRetr => 2 case _ => 3 }

  lemma ChoiceIsItsSteps(s: State, tick: Event)
    requires s.th.pc.AtPrio? && |s.prio.items| + |s.retr.items| + |s.send.items| > 0
    requires tick.Tick? && tick.bandwidth > 0 && tick.cookie.packet.flags == COOKIE_FLAGS
    ensures var src := NextSource(ViewOf(s));
            ItemsOf(ViewOf(s), src) != [] && Moved(s, tick, Looks(src)) == Some(TakeStep(s, src))
  {
    var atRetr, atSend := GoTo(s, AtRetr), GoTo(s, AtSend);
    if s.prio.items == [] {
      assert Step(s, tick) == atRetr;
      if s.retr.items == [] {
        assert Step(atRetr, tick) == atSend;
        assert Step(atSend, tick) == TakeStep(s, FromSend);
        MovedOn(atSend, tick, 0, TakeStep(s, FromSend));
        MovedOn(atRetr, tick, 1, TakeStep(s, FromSend));
        MovedOn(s, tick, 2, TakeStep(s, FromSend));
      } else {
        assert Step(atRetr, tick) == TakeStep(s, FromRetr);
        MovedOn(atRetr, tick, 0, TakeStep(s, FromRetr));
        MovedOn(s, tick, 1, TakeStep(s, FromRetr));
      }
    } else {
      assert Step(s, tick) == TakeStep(s, FromPrio);
      MovedOn(s, tick, 0, TakeStep(s, FromPrio));
    }
  }

  lemma {:induction false} MovedTwice(s: State, tick: Event, m: nat, s1: State, n: nat, s2: State)
    requires tick.Tick? && Moved(s, tick, m) == Some(s1) && Moved(s1, tick, n) == Some(s2)
    ensures Moved(s, tick, m + n) == Some(s2)
    decreases m
  {
    if m > 0 { MovedTwice(Step(s, tick), tick, m - 1, s1, n, s2); }
  }

  /** Undisturbed, with a packet announced, no cookie due and outside a pair, the steps of the sender from its
      wait to the top of its loop come to what taking the next packet does: the oldest packet of the first
      queue that is not empty goes out, its token is taken and returned, and nothing else changes. */
  lemma TakeIsItsSteps(s: State, tick: Event) returns (s': State)
    requires s.th.pc.AtWait? && !s.th.z && s.sem.sFull > 0 && s.sem.ckFull == 0
    requires |s.prio.items| + |s.retr.items| + |s.send.items| > 0
    requires tick.Tick? && tick.bandwidth > 0 && tick.cookie.packet.flags == COOKIE_FLAGS
    ensures var v := ViewOf(s);
            var src := NextSource(v);
            && ItemsOf(v, src) != []
            && Moved(s, tick, 2 + (Looks(src) + 2)) == Some(s') && s'.th.pc.AtTop?
            && ViewOf(s') == WithItems(v, src, ItemsOf(v, src)[1..]).(sFull := v.sFull - 1, qEmpty := v.qEmpty + 1)
            && s'.th.sent == s.th.sent + [SendRec(ItemsOf(v, src)[0], src, false, tick.ok, tick.bandwidth)]
  {
    var s1 := Step(s, tick);
    var s2 := Step(s1, tick);
    var src := NextSource(ViewOf(s));
    ChoiceIsItsSteps(s2, tick);
    var s3 := TakeStep(s2, src);
    var s4 := Step(s3, tick);
    s' := Step(s4, tick);
    MovedOn(s4, tick, 0, s');
    MovedOn(s3, tick, 1, s');
    MovedTwice(s2, tick, Looks(src), s3, 2, s');
    MovedOn(s1, tick, Looks(src) + 2, s');
    MovedOn(s, tick, 1 + (Looks(src) + 2), s');
  }
}
