/** The two rings between threads, each with one producer and one consumer under two counting
    semaphores: received datagrams (packet_receiver.c, 256 slots) and notifications for the upper layer
    (biter_bridge.c and bora.c, 20 slots). A step is one semaphore operation, one access to a slot or
    one move of a thread's own index. */
module BoundedBuffer {
  import opened Basics
  import opened NetEncoder

  /** The producer: idle, with a free slot, with the slot written, with the item announced but its index
      not moved yet, with its index moved but the item not announced yet. The two rings take the last two
      in different order. */
  datatype Producer = PIdle | PHolds | PWritten | PPosted | PMoved

  /** The consumer: idle, with a full slot, with the slot read, with its index moved. */
  datatype Consumer = CIdle | CHolds | CRead | CMoved

  datatype State<T> = State(
    slots: seq<T>, empty: nat, full: nat,
    p: nat, prod: Producer, c: nat, cons: Consumer,
    produced: seq<T>, consumed: seq<T>)

  datatype Event<T> =
    | PAcquire | PWrite(x: T) | PPost | PMove
    | CAcquire | CTake | CEdit(x: T) | CMove | CPost

  function Init<T>(slots: seq<T>): State<T> { State(slots, |slots|, 0, 0, PIdle, 0, CIdle, [], []) }

  /** `postFirst` says in which order the producer announces and moves on. */
  predicate Enabled<T>(s: State<T>, ev: Event<T>, postFirst: bool) {
    match ev
    case PAcquire => s.prod.PIdle? && s.empty > 0
    case PWrite(_) => s.prod.PHolds? && s.p < |s.slots|
    case PPost => if postFirst then s.prod.PWritten? else s.prod.PMoved?
    case PMove => |s.slots| > 0 && if postFirst then s.prod.PPosted? else s.prod.PWritten?
    case CAcquire => s.cons.CIdle? && s.full > 0
    case CTake => s.cons.CHolds? && s.c < |s.slots|
    case CEdit(_) => s.cons.CRead? && s.c < |s.slots|
    case CMove => |s.slots| > 0 && s.cons.CRead?
    case CPost => s.cons.CMoved?
  }

  function Step<T>(s: State<T>, ev: Event<T>, postFirst: bool): State<T>
    requires Enabled(s, ev, postFirst)
  {
    match ev
    case PAcquire => s.(empty := s.empty - 1, prod := PHolds)
    case PWrite(x) => s.(slots := s.slots[s.p := x], produced := s.produced + [x], prod := PWritten)
    case PPost => s.(full := s.full + 1, prod := if postFirst then PPosted else PIdle)
    case PMove => s.(p := (s.p + 1) % |s.slots|, prod := if postFirst then PIdle else PMoved)
    case CAcquire => s.(full := s.full - 1, cons := CHolds)
    case CTake => s.(consumed := s.consumed + [s.slots[s.c]], cons := CRead)
    case CEdit(x) => s.(slots := s.slots[s.c := x])
    case CMove => s.(c := (s.c + 1) % |s.slots|, cons := CMoved)
    case CPost => s.(empty := s.empty + 1, cons := CIdle)
  }

  ghost predicate IsRun<T(!new)>(slots: seq<T>, states: seq<State<T>>, evs: seq<Event<T>>, postFirst: bool) {
    && slots != [] && |states| == |evs| + 1 && states[0] == Init(slots)
    && (forall i :: 0 <= i < |evs| ==>
          Enabled(states[i], evs[i], postFirst) && states[i + 1] == Step(states[i], evs[i], postFirst))
  }

  // ---------------------------------------------------------------- indices that wrap

  lemma MulMono(n: nat, a: nat, b: nat)
    requires a <= b
    ensures n * a <= n * b
  {
  }

  lemma MulSucc(n: nat, a: nat)
    ensures n * (a + 1) == n * a + n
  {
  }

  /** A quotient and a small enough remainder are the quotient and the remainder. */
  lemma ModIs(x: nat, n: nat, q: nat, r: nat)
    requires n > 0 && x == n * q + r && r < n
    ensures x % n == r
  {
    var p := x / n;
    assert x == n * p + x % n;
    MulSucc(n, p);
    MulSucc(n, q);
    if p < q { MulMono(n, p + 1, q); } else if q < p { MulMono(n, q + 1, p); }
  }

  lemma ModSucc(x: nat, n: nat)
    requires n > 0
    ensures (x % n + 1) % n == (x + 1) % n
  {
    var q, r := x / n, x % n;
    assert x == n * q + r;
    if r + 1 < n {
      ModIs(x + 1, n, q, r + 1);
      ModIs(r + 1, n, 0, r + 1);
    } else {
      MulSucc(n, q);
      ModIs(x + 1, n, q + 1, 0);
      ModIs(n, n, 1, 0);
    }
  }

  lemma ModDistinct(a: nat, b: nat, n: nat)
    requires n > 0 && b < a < b + n
    ensures a % n != b % n
  {
    var p, q := a / n, b / n;
    assert a == n * p + a % n && b == n * q + b % n;
    MulSucc(n, q);
    if p > q { MulMono(n, q + 1, p); } else { MulMono(n, p, q); }
  }

  // ---------------------------------------------------------------- the invariant

  function Bit(b: bool): nat { if b then 1 else 0 }

  /** The number of items the producer has moved past, and the consumer. */
  function PDone<T>(s: State<T>): int { |s.produced| - Bit(s.prod.PWritten? || s.prod.PPosted?) }
  function CDone<T>(s: State<T>): int { |s.consumed| - Bit(s.cons.CRead?) }

  ghost predicate Inv<T>(n: nat, s: State<T>) {
    && n > 0 && |s.slots| == n
    && s.empty + s.full + Bit(s.prod.PHolds? || s.prod.PWritten? || s.prod.PMoved?) + Bit(!s.cons.CIdle?) == n
    && |s.produced| - |s.consumed| == s.full + Bit(s.prod.PWritten? || s.prod.PMoved?) + Bit(s.cons.CHolds?)
    && 0 <= CDone(s) && 0 <= PDone(s) && s.p == PDone(s) % n && s.c == CDone(s) % n
    && s.consumed <= s.produced
    && (forall k :: |s.consumed| <= k < |s.produced| ==> s.slots[k % n] == s.produced[k])
  }

  lemma WriteKeeps<T>(n: nat, s: State<T>, x: T)
    requires Inv(n, s) && s.prod.PHolds?
    ensures Inv(n, s.(slots := s.slots[s.p := x], produced := s.produced + [x], prod := PWritten))
  {
    var s' := s.(slots := s.slots[s.p := x], produced := s.produced + [x], prod := PWritten);
    forall k | |s'.consumed| <= k < |s'.produced| ensures s'.slots[k % n] == s'.produced[k] {
      if k < |s.produced| { ModDistinct(|s.produced|, k, n); }
    }
  }

  lemma EditKeeps<T>(n: nat, s: State<T>, x: T)
    requires Inv(n, s) && s.cons.CRead?
    ensures Inv(n, s.(slots := s.slots[s.c := x]))
  {
    var s' := s.(slots := s.slots[s.c := x]);
    forall k | |s'.consumed| <= k < |s'.produced| ensures s'.slots[k % n] == s'.produced[k] {
      ModDistinct(k, CDone(s), n);
    }
  }

  lemma StepKeeps<T>(n: nat, s: State<T>, ev: Event<T>, postFirst: bool)
    requires Inv(n, s) && Enabled(s, ev, postFirst)
    ensures Inv(n, Step(s, ev, postFirst))
  {
    match ev
    case PWrite(x) => WriteKeeps(n, s, x);
    case CEdit(x) => EditKeeps(n, s, x);
    case PMove => ModSucc(PDone(s), n);
    case CMove => ModSucc(CDone(s), n);
    case _ =>
  }

  lemma {:induction false} RunInv<T(!new)>(
      slots: seq<T>, states: seq<State<T>>, evs: seq<Event<T>>, postFirst: bool, i: nat)
    requires IsRun(slots, states, evs, postFirst) && i < |states|
    ensures Inv(|slots|, states[i])
  {
    if i > 0 {
      RunInv(slots, states, evs, postFirst, i - 1);
      assert Enabled(states[i - 1], evs[i - 1], postFirst);
      assert states[(i - 1) + 1] == Step(states[i - 1], evs[i - 1], postFirst);
      StepKeeps(|slots|, states[i - 1], evs[i - 1], postFirst);
    }
  }

  /** For every interleaving: what was consumed is a prefix of what was produced, no more than the ring's
      size is under way, and the two threads are never in the same slot, from the moment the producer has
      the slot until it has announced it or moved on. It holds for both orders of announcing and moving on,
      whatever the consumer writes into a slot it has read, and for any size. */
  lemma RefinesQueue<T(!new)>(slots: seq<T>, states: seq<State<T>>, evs: seq<Event<T>>, postFirst: bool, i: nat)
    requires IsRun(slots, states, evs, postFirst) && i < |states|
    ensures var s := states[i];
            && s.consumed <= s.produced
            && |s.produced| - |s.consumed| <= |slots|
            && s.p < |slots| && s.c < |slots|
            && ((s.prod.PHolds? || s.prod.PWritten?) && (s.cons.CHolds? || s.cons.CRead?) ==> s.p != s.c)
  {
    RunInv(slots, states, evs, postFirst, i);
    var s := states[i];
    if (s.prod.PHolds? || s.prod.PWritten?) && (s.cons.CHolds? || s.cons.CRead?) {
      ModDistinct(PDone(s), CDone(s), |slots|);
    }
  }

  // ---------------------------------------------------------------- notifications

  /** A notification: a block was completed, or a raw message came in. */
  datatype Note<D> = BlockDone(sid: u16, bid: u32) | Raw(data: D)

  /** A slot of the notification ring; the two ids are C ints. */
  datatype Slot<D> = Slot(s: int, b: int, d: D)

  /** block_completed: the datagram is copied only for a raw message, so a block's notification leaves an
      old one in the slot. */
  function WriteNote<D>(slot: Slot<D>, note: Note<D>): Slot<D> {
    match note
    case BlockDone(sid, bid) => Slot(sid, ToInt32(bid), slot.d)
    case Raw(data) => Slot(-1, -1, data)
  }

  predicate SlotOk<D>(slot: Slot<D>) { (slot.s == -1 && slot.b == -1) || 0 <= slot.s < 0x1_0000 }

  /** The consumer: the pair (-1, -1) announces a raw message. */
  function ReadNote<D>(slot: Slot<D>): Note<D>
    requires SlotOk(slot)
  {
    if slot.s == -1 && slot.b == -1 then Raw(slot.d) else BlockDone(slot.s, slot.b % 0x1_0000_0000)
  }

  /** No block's notification is taken for a raw message, not even that of block 0xFFFFFFFF, whose id
      becomes -1, and an old datagram in the slot does no harm. */
  lemma NoteRoundTrip<D>(slot: Slot<D>, note: Note<D>)
    ensures var w := WriteNote(slot, note);
            SlotOk(w) && ReadNote(w) == note
  {
  }

  /** Over every run of the notification ring, the upper layer reads exactly the first notifications made,
      in order. */
  lemma NotesInOrder<D(!new)>(
      slots: seq<Slot<D>>, states: seq<State<Slot<D>>>, evs: seq<Event<Slot<D>>>, i: nat,
      notes: seq<Note<D>>, olds: seq<Slot<D>>)
    requires IsRun(slots, states, evs, true) && i < |states|
    requires |notes| == |olds| == |states[i].produced|
    requires forall k :: 0 <= k < |notes| ==> states[i].produced[k] == WriteNote(olds[k], notes[k])
    ensures var read := states[i].consumed;
            && |read| <= |notes|
            && forall k :: 0 <= k < |read| ==>
                 SlotOk(read[k]) && ReadNote(read[k]) == notes[k]
  {
    RefinesQueue(slots, states, evs, true, i);
    forall k | 0 <= k < |states[i].consumed|
      ensures var r := states[i].consumed[k]; SlotOk(r) && ReadNote(r) == notes[k]
    {
      NoteRoundTrip(olds[k], notes[k]);
    }
  }
}
