/** What the upper layer of a receiver sees of a protocol run: every receiver is at all times a receiver in
    the sense of Reassembly, so what is proved there of arbitrary streams of fragments holds of the runs of
    the protocol. */
module Delivery {
  import opened Basics
  import opened BlockSpec
  import opened Reassembly
  import opened Protocol
  import opened ProtocolProofs

  /** The fragments a receiver has stored in the first steps of a run, in order. */
  ghost function StoredAt(states: seq<State>, evs: seq<Event>, a: Addr, i: nat): seq<Op>
    requires i <= |evs| <= |states|
  {
    if i == 0 then []
    else StoredAt(states, evs, a, i - 1) + StoredBy(states[i - 1], evs[i - 1], a)
  }

  ghost function StoredBy(s: State, ev: Event, a: Addr): seq<Op> {
    if ev.Store? && ev.at == a && RxAt(s, a).hand.Some? then
      var f := RxAt(s, a).hand.value;
      [Recv(FragmentKey(f), f.fid, ev.junk)]
    else []
  }

  /** The receiver is what the stream makes of an empty one. */
  ghost predicate IsAfter(w: World, ops: seq<Op>, r: Receiver) {
    && OpsOk(w, ops) && (forall op :: op in ops ==> op.Recv?)
    && Run(w, ops) == Node(r.cache, r.notes)
  }

  lemma ArriveLeavesAlone(c: Config, s: State, m: Msg, sec: u32, usec: u32, a: Addr)
    requires Inv(c, s) && Enabled(c, s, Arrive(m, sec, usec))
    ensures var r, r' := RxAt(s, a), RxAt(ArriveStep(c, s, m, sec, usec), a); r'.cache == r.cache && r'.notes == r.notes
  {
    ArriveEffect(c, s, m, sec, usec);
  }

  /** Only a receiver's own store step touches its cache and its announcements. */
  lemma OthersLeaveAlone(c: Config, s: State, ev: Event, s': State, a: Addr)
    requires Inv(c, s) && Next(c, s, ev, s') && !(ev.Store? && ev.at == a)
    ensures RxAt(s', a).cache == RxAt(s, a).cache && RxAt(s', a).notes == RxAt(s, a).notes
  {
    if ev.Arrive? {
      ArriveLeavesAlone(c, s, ev.m, ev.sec, ev.usec, a);
    } else if !ev.Store? {
      assert s'.rx == s.rx;
    }
  }

  lemma RunSnoc(w: World, ops: seq<Op>, op: Op)
    requires OpsOk(w, ops) && OpOk(w, op)
    ensures OpsOk(w, ops + [op]) && Run(w, ops + [op]) == Exec(w, Run(w, ops), op)
  {
    assert (ops + [op])[..|ops|] == ops;
  }

  /** Storing a fragment is one operation of the stream. */
  lemma StoreIsExec(c: Config, s: State, at: Addr, junk: u16, ops: seq<Op>)
    requires Inv(c, s) && Enabled(c, s, Store(at, junk)) && IsAfter(c.world, ops, RxAt(s, at))
    ensures IsAfter(c.world, ops + StoredBy(s, Store(at, junk), at), RxAt(StoreStep(s, at, junk), at))
  {
    var r := RxAt(s, at);
    assert ReceiverOk(c.world, r);
    var op := Recv(FragmentKey(r.hand.value), r.hand.value.fid, junk);
    RunSnoc(c.world, ops, op);
    DeliverIsExec(c.world, r, junk);
  }

  lemma DeliverIsExec(w: World, r: Receiver, junk: u16)
    requires ReceiverOk(w, r) && r.hand.Some?
    ensures var f := r.hand.value;
            && InRange(r.cache, f)
            && Exec(w, Node(r.cache, r.notes), Recv(FragmentKey(f), f.fid, junk))
               == var (cache, notify) := Deliver(r.cache, f, junk);
                  Node(cache, if notify then r.notes + [FragmentKey(f)] else r.notes)
  {
    DeliverEffect(w, r.cache, FragmentKey(r.hand.value), r.hand.value.fid, junk);
  }

  lemma StepIsAfter(c: Config, s: State, ev: Event, s': State, a: Addr, ops: seq<Op>)
    requires Inv(c, s) && Next(c, s, ev, s') && IsAfter(c.world, ops, RxAt(s, a))
    ensures IsAfter(c.world, ops + StoredBy(s, ev, a), RxAt(s', a))
  {
    if ev.Store? && ev.at == a {
      StoreIsExec(c, s, a, ev.junk, ops);
    } else {
      OthersLeaveAlone(c, s, ev, s', a);
      assert ops + [] == ops;
    }
  }

  lemma FreshIsAfter(w: World, a: Addr)
    ensures IsAfter(w, [], RxAt(INIT, a))
  {
  }

  /** Cache and announcements of a receiver are those of one that was fed, from empty, the fragments this
      one has stored. */
  ghost predicate FedAt(c: Config, states: seq<State>, evs: seq<Event>, i: nat, a: Addr)
    requires i <= |evs| < |states|
  {
    IsAfter(c.world, StoredAt(states, evs, a, i), RxAt(states[i], a))
  }

  lemma FedAtStart(c: Config, states: seq<State>, evs: seq<Event>, a: Addr)
    requires IsRun(c, states, evs)
    ensures FedAt(c, states, evs, 0, a)
  {
    FreshIsAfter(c.world, a);
  }

  lemma FedAtNext(c: Config, states: seq<State>, evs: seq<Event>, i: nat, a: Addr)
    requires IsRun(c, states, evs) && i < |evs| && FedAt(c, states, evs, i, a)
    ensures FedAt(c, states, evs, i + 1, a)
  {
    RunNext(c, states, evs, i);
    StepIsAfter(c, states[i], evs[i], states[i + 1], a, StoredAt(states, evs, a, i));
  }

  lemma {:induction false} UpTo(p: nat -> bool, n: nat)
    requires p(0) && forall k :: 0 <= k < n && p(k) ==> p(k + 1)
    ensures p(n)
  {
    if n > 0 { UpTo(p, n - 1); }
  }

  /** The steps of a run after which this is so. */
  ghost function FedSteps(c: Config, states: seq<State>, evs: seq<Event>, a: Addr): nat -> bool {
    (i: nat) => i <= |evs| < |states| && FedAt(c, states, evs, i, a)
  }

  lemma FedStepsInductive(c: Config, states: seq<State>, evs: seq<Event>, a: Addr, n: nat)
    requires IsRun(c, states, evs) && n < |evs| && FedSteps(c, states, evs, a)(n)
    ensures FedSteps(c, states, evs, a)(n + 1)
  {
    FedAtNext(c, states, evs, n, a);
  }

  /** So it is for every receiver in every state of every run. */
  lemma ReceiverIsRun(c: Config, states: seq<State>, evs: seq<Event>, i: nat, a: Addr)
    requires IsRun(c, states, evs) && i < |states|
    ensures FedAt(c, states, evs, i, a)
  {
    var fed := FedSteps(c, states, evs, a);
    FedAtStart(c, states, evs, a);
    forall n | 0 <= n < i && fed(n) ensures fed(n + 1) { FedStepsInductive(c, states, evs, a, n); }
    UpTo(fed, i);
  }

  lemma {:induction false} FirstIsRecv(ops: seq<Op>, k: BlockKey)
    requires forall op :: op in ops ==> op.Recv?
    ensures First(ops, k).Some? ==> First(ops, k).value.Recv?
  {
    if ops != [] { FirstIsRecv(ops[..|ops| - 1], k); }
  }

  /** A receiver fed only fragments has announced exactly the blocks it has complete, each once. */
  lemma AfterAnnounced(w: World, ops: seq<Op>, r: Receiver, k: BlockKey)
    requires IsAfter(w, ops, r) && k in w
    ensures var found := Lookup(r.cache, k);
            Count(r.notes, k) == if found.Some? && IsComplete(found.value) then 1 else 0
  {
    FirstIsRecv(ops, k);
    RunState(w, ops, k);
  }

  /** Exactly-once completion over whole runs: in every state of every run, a receiver has announced a block
      once if it is complete there and not at all otherwise, through loss, reordering, duplication and
      retransmission. */
  lemma AnnouncedIffComplete(c: Config, states: seq<State>, evs: seq<Event>, i: nat, a: Addr, k: BlockKey)
    requires IsRun(c, states, evs) && i < |states| && k in c.world
    ensures var r := RxAt(states[i], a);
            var found := Lookup(r.cache, k);
            Count(r.notes, k) == if found.Some? && IsComplete(found.value) then 1 else 0
  {
    ReceiverIsRun(c, states, evs, i, a);
    AfterAnnounced(c.world, StoredAt(states, evs, a, i), RxAt(states[i], a), k);
  }

  /** What get_block_data gives for a complete block, and what relaying it sends. */
  ghost predicate ReadsBack(k: BlockKey, o: seq<byte>, b: Block, lastFirst: bool)
    requires GoodData(o)
  {
    && BlockWf(b) && BlockData(b) == (if lastFirst then o + Zeros(MTU * Fn(o) - |o|) else o)
    && Sendable(b) && Sendable(PutBlock(k, o)) && SentFragments(b) == SentFragments(PutBlock(k, o))
  }

  lemma AfterReadsBack(w: World, ops: seq<Op>, r: Receiver, k: BlockKey)
    requires IsAfter(w, ops, r) && k in w && Lookup(r.cache, k).Some? && IsComplete(Lookup(r.cache, k).value)
    ensures First(ops, k).Some? && First(ops, k).value.Recv?
    ensures ReadsBack(k, w[k], Lookup(r.cache, k).value, First(ops, k).value.fid == Fn(w[k]) - 1)
  {
    FirstIsRecv(ops, k);
    RunState(w, ops, k);
    CompleteIffAllCame(w, ops, k);
    EndToEnd(w, ops, k);
    RelayTransparent(w, ops, k);
  }

  /** In every state of every run a complete block reads back as the original, padded exactly when its last
      fragment was the first the receiver stored, and is relayed as the original. */
  lemma CompleteReadsBack(c: Config, states: seq<State>, evs: seq<Event>, i: nat, a: Addr, k: BlockKey)
    requires IsRun(c, states, evs) && i < |states| && k in c.world
    requires var found := Lookup(RxAt(states[i], a).cache, k); found.Some? && IsComplete(found.value)
    ensures var first := First(StoredAt(states, evs, a, i), k);
            && first.Some? && first.value.Recv?
            && ReadsBack(k, c.world[k], Lookup(RxAt(states[i], a).cache, k).value,
                         first.value.fid == Fn(c.world[k]) - 1)
  {
    ReceiverIsRun(c, states, evs, i, a);
    AfterReadsBack(c.world, StoredAt(states, evs, a, i), RxAt(states[i], a), k);
  }

  /** End to end: when a run has gone quiet, a block all of whose fragments were accepted for a peer, none
      dropped or discarded, has been announced there exactly once and reads back as the original. */
  lemma QuietMeansAnnounced(c: Config, states: seq<State>, evs: seq<Event>, i: nat, a: Addr, k: BlockKey)
    requires IsRun(c, states, evs) && i < |states| && Quiet(states[i]) && k in c.world
    requires AllAccounted(c, states[i], a, k)
    ensures Count(RxAt(states[i], a).notes, k) == 1
    ensures var found, first := Lookup(RxAt(states[i], a).cache, k), First(StoredAt(states, evs, a, i), k);
            && found.Some? && first.Some? && first.value.Recv?
            && ReadsBack(k, c.world[k], found.value, first.value.fid == Fn(c.world[k]) - 1)
  {
    QuietMeansDelivered(c, states, evs, i, a, k);
    AnnouncedIffComplete(c, states, evs, i, a, k);
    CompleteReadsBack(c, states, evs, i, a, k);
  }
}
