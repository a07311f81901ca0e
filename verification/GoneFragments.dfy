/** Nothing the program does brings a fragment back that is nowhere any more. */
module GoneFragments {
  import opened Basics
  import opened Framing
  import opened BlockSpec
  import opened Reassembly
  import opened NackSpec
  import opened Protocol
  import opened ProtocolProofs

  /** The fragment is in no queue, hand, list or datagram, and not at the peer. */
  ghost predicate Gone(s: State, it: Item) {
    && !Queued(s.retr, it) && !Queued(s.send, it)
    && (s.hand.Some? ==> ItemOf(s.hand.value) != it)
    && !Listed(s.table, it)
    && (forall m :: m in s.net && m.DataMsg? ==> ItemOf(m.d) != it)
    && !Safe(s, it)
  }

  lemma TransmitKeepsGone(s: State, now: Timeval, sleeptime: u32, consecutive: bool, it: Item)
    requires Gone(s, it) && s.hand.Some?
    ensures Gone(TransmitStep(s, now, sleeptime, consecutive), it)
  {
    var s' := TransmitStep(s, now, sleeptime, consecutive);
    forall e | InTable(s'.table, e) ensures ItemOf(e.d) != it {
      AppendMembers(s.table, s.hand.value, now, sleeptime, e);
    }
  }

  lemma ArriveKeepsGone(c: Config, s: State, m: Msg, sec: u32, usec: u32, it: Item)
    requires Inv(c, s) && Enabled(c, s, Arrive(m, sec, usec)) && Gone(s, it)
    ensures Gone(ArriveStep(c, s, m, sec, usec), it)
  {
    ArriveEffect(c, s, m, sec, usec);
    var s' := ArriveStep(c, s, m, sec, usec);
    var jt := ItemOf(m.d);
    assert jt != it && jt.to == m.d.to && FragmentKey(FragmentFor(c.world, jt)) == jt.key;
    assert RxAt(s', it.to).cache == RxAt(s, it.to).cache;
  }

  /** A delivery makes no fragment held but its own. */
  lemma DeliverHoldsOne(w: World, c: seq<Block>, k: BlockKey, i: nat, junk: u16, k': BlockKey, j: nat)
    requires CacheOk(w, c) && k in w && i < Fn(w[k])
    ensures InRange(c, FragmentOf(k, w[k], i))
    ensures Held(Deliver(c, FragmentOf(k, w[k], i), junk).0, k', j) <==> Held(c, k', j) || (k' == k && j == i)
  {
    DeliverEffect(w, c, k, i, junk);
  }

  lemma StoreKeepsGone(c: Config, s: State, at: Addr, junk: u16, it: Item)
    requires Inv(c, s) && Enabled(c, s, Store(at, junk)) && Gone(s, it)
    ensures Gone(StoreStep(s, at, junk), it)
  {
    var r := RxAt(s, at);
    var f := r.hand.value;
    assert ReceiverOk(c.world, r);
    if at == it.to { DeliverHoldsOne(c.world, r.cache, FragmentKey(f), f.fid, junk, it.key, it.fid); }
  }

  /** A step that only removes entries from the table. */
  lemma TableStepKeepsGone(s: State, s': State, it: Item)
    requires Gone(s, it) && s' == s.(table := s'.table, proc := s'.proc, known := s'.known, discarded := s'.discarded)
    requires forall x :: InTable(s'.table, x) ==> InTable(s.table, x)
    ensures Gone(s', it)
  {
  }

  /** What is in a queue after requeueing was there before or was requeued. */
  lemma {:induction false} EnqueueAllOnly(s: State, ds: seq<SendData>, tokens: seq<bool>)
    ensures var s' := EnqueueAll(s, ds, tokens);
            && (forall d :: d in s'.retr ==> d in s.retr || d in ds)
            && (forall d :: d in s'.send ==> d in s.send || d in ds)
    decreases |ds|
  {
    if ds != [] {
      var (s1, ok) := Enqueue(s, ds[0], tokens != [] && tokens[0]);
      var s2 := if ok then s1 else s1.(dropped := s1.dropped + {ItemOf(ds[0])});
      EnqueueAllOnly(s2, ds[1..], if tokens == [] then [] else tokens[1..]);
      assert forall d :: d in s2.retr ==> d in s.retr || d == ds[0];
      assert forall d :: d in s2.send ==> d in s.send || d == ds[0];
    }
  }

  lemma RequeueKeepsGone(c: Config, s: State, s0: State, gone: seq<Entry>, tokens: seq<bool>, it: Item)
    requires InvTx(c, s) && Gone(s, it) && s0 == s.(table := s0.table, proc := s0.proc)
    requires forall x :: InTable(s0.table, x) ==> InTable(s.table, x)
    requires forall x :: x in gone ==> InTable(s.table, x)
    ensures Gone(EnqueueAll(s0, Resends(gone), tokens), it)
  {
    GoneGood(c, s, gone);
    ResendsAll(gone);
    forall d | d in Resends(gone) ensures ItemOf(d) != it {
      var i :| 0 <= i < |gone| && Resends(gone)[i] == d;
      ResendGood(c.world, gone[i].d);
      assert InTable(s.table, gone[i]);
    }
    EnqueueAllOnly(s0, Resends(gone), tokens);
    TableStepKeepsGone(s, s0, it);
  }

  lemma SubmitKeepsGone(c: Config, s: State, jt: Item, token: bool, it: Item)
    requires ItemOk(c.world, jt) && Gone(s, it) && jt != it
    ensures Gone(SubmitStep(c, s, jt, token), it)
  {
    SubmittedGood(c.world, jt);
    assert forall d :: d in SubmitStep(c, s, jt, token).send ==> d in s.send || ItemOf(d) == jt;
  }

  lemma DequeueKeepsGone(c: Config, s: State, fromSend: bool, it: Item)
    requires Enabled(c, s, Dequeue(fromSend)) && Gone(s, it)
    ensures Gone(Step(c, s, Dequeue(fromSend)), it)
  {
    var q := if fromSend then s.send else s.retr;
    assert q[0] in q && forall d :: d in q[1..] ==> d in q;
  }

  /** The steps that handle an acknowledgement or a timeout. */
  lemma ListStepKeepsGone(c: Config, s: State, ev: Event, it: Item)
    requires Inv(c, s) && Enabled(c, s, ev) && Gone(s, it)
    requires ev.AckArrive? || ev.FirstAck? || ev.Cancel? || ev.Requeue? || ev.Timeout?
    ensures Gone(Step(c, s, ev), it)
  {
    var s' := Step(c, s, ev);
    if ev.AckArrive? {
      var r := Process(c.me, AckBytes(c, ev.m)).ackIn;
      if r.Some? { forall x { PopMembers(s.table, r.value.seqno, ev.m.from, x); } }
      TableStepKeepsGone(s, s', it);
    } else if ev.Timeout? {
      forall x { SweepMembers(s.table, ev.now, ev.timeout, x); }
      var t := Sweep(s.table, ev.now, ev.timeout);
      RequeueKeepsGone(c, s, s.(table := t), ExpiredEntries(s.table.peers, ev.now, ev.timeout), ev.tokens, it);
    } else if ev.Requeue? {
      PrunedKeepsGone(c, s, ev.tokens, it);
    } else {
      var e := s.proc.e;
      forall x { FilterPeerMembers(s.table, e.d.to, NotOlder(e), x); }
      forall x { FilterPeerMembers(s.table, e.d.to, NotCancelled(e, s.proc.cons), x); }
      TableStepKeepsGone(s, s', it);
    }
  }

  lemma PrunedKeepsGone(c: Config, s: State, tokens: seq<bool>, it: Item)
    requires Inv(c, s) && s.proc.Pruned? && Gone(s, it)
    ensures Gone(Step(c, s, Requeue(tokens)), it)
  {
    var e := s.proc.e;
    var es := NacksOf(s.table, e.d.to);
    forall x { FilterPeerMembers(s.table, e.d.to, NotOlder(e), x); }
    FilterMembers(es, Older(e));
    assert forall x :: x in es ==> x in s.table.peers[FindPeer(s.table.peers, e.d.to)].nacks;
    RequeueKeepsGone(c, s, s.(table := RemoveOoo(s.table, e), proc := Idle), Filter(es, Older(e)), tokens, it);
  }

  /** No step brings a fragment back that is gone, except that it is handed to send_data once more. */
  lemma StepKeepsGone(c: Config, s: State, ev: Event, s': State, it: Item)
    requires Inv(c, s) && Next(c, s, ev, s') && Gone(s, it) && !(ev.Submit? && ev.it == it)
    ensures Gone(s', it)
  {
    match ev
    case Submit(jt, token) => SubmitKeepsGone(c, s, jt, token, it);
    case Dequeue(fromSend) => DequeueKeepsGone(c, s, fromSend, it);
    case Transmit(now, sleeptime, consecutive) => TransmitKeepsGone(s, now, sleeptime, consecutive, it);
    case Lose(m) =>
    case Arrive(m, sec, usec) => ArriveKeepsGone(c, s, m, sec, usec, it);
    case Store(at, junk) => StoreKeepsGone(c, s, at, junk, it);
    case _ => ListStepKeepsGone(c, s, ev, it);
  }

  lemma NextKeepsGone(c: Config, states: seq<State>, evs: seq<Event>, i: nat, it: Item)
    requires IsRun(c, states, evs) && i < |evs| && Gone(states[i], it) && !(evs[i].Submit? && evs[i].it == it)
    ensures Gone(states[i + 1], it)
  {
    RunNext(c, states, evs, i);
    StepKeepsGone(c, states[i], evs[i], states[i + 1], it);
  }

  lemma {:induction false} RunKeepsGone(c: Config, states: seq<State>, evs: seq<Event>, i: nat, j: nat, it: Item)
    requires IsRun(c, states, evs) && i <= j < |states| && Gone(states[i], it)
    requires forall n :: i <= n < j ==> !(evs[n].Submit? && evs[n].it == it)
    ensures Gone(states[j], it)
    decreases j
  {
    if i < j {
      RunKeepsGone(c, states, evs, i, j - 1, it);
      NextKeepsGone(c, states, evs, j - 1, it);
    }
  }

  /** Gone means gone: in every run, once a fragment is in no queue, hand, list or datagram and not at the
      peer, it stays so in every later state unless it is handed to send_data again, and its block is never
      complete at the peer. */
  lemma GoneForGood(c: Config, states: seq<State>, evs: seq<Event>, i: nat, j: nat, it: Item)
    requires IsRun(c, states, evs) && i <= j < |states| && Gone(states[i], it) && ItemOk(c.world, it)
    requires forall n :: i <= n < j ==> !(evs[n].Submit? && evs[n].it == it)
    ensures Gone(states[j], it)
    ensures var found := Lookup(RxAt(states[j], it.to).cache, it.key); found.Some? ==> !IsComplete(found.value)
  {
    RunKeepsGone(c, states, evs, i, j, it);
    RunInv(c, states, evs, j);
    MissingMeansIncomplete(c.world, RxAt(states[j], it.to).cache, it.key, it.fid);
  }

  lemma MissingMeansIncomplete(w: World, c: seq<Block>, k: BlockKey, i: nat)
    requires CacheOk(w, c) && k in w && i < Fn(w[k]) && !Held(c, k, i)
    ensures Lookup(c, k).Some? ==> !IsComplete(Lookup(c, k).value)
  {
  }
}
