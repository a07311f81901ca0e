/** Reassembly of blocks from fragments that arrive in any order, any number of times or not at all,
    for several blocks at once (blockcache.c, packet_receiver.c). */
module Reassembly {
  import opened Basics
  import opened BlockSpec

  /** The blocks that exist, by key. Fragments are cut from these. */
  type World = w: map<BlockKey, seq<byte>> | forall k :: k in w ==> GoodData(w[k])

  // ---------------------------------------------------------------- the buffer of a received block

  /** The buffer in which exactly the held fragments of `o` are in place and all else is zero. */
  function Filled(o: seq<byte>, have: seq<bool>): (r: seq<byte>)
    requires GoodData(o) && |have| == Fn(o)
    ensures |r| == MTU * |have|
  {
    seq(MTU * |have|, p requires 0 <= p < MTU * |have| => if have[p / MTU] && p < |o| then o[p] else 0)
  }

  /** A block received in part or whole: its buffer is determined by its `have` flags. */
  ghost predicate Received(k: BlockKey, o: seq<byte>, b: Block)
    requires GoodData(o)
  {
    && b.key == k
    && |b.have| == Fn(o)
    && b.data == Filled(o, b.have)
    && (b.have[Fn(o) - 1] ==> b.lastlen == LastLen(o))
    && b.length <= MTU * Fn(o)
  }

  /** Storing a fragment's payload turns the buffer for one set of fragments into the next. */
  lemma FilledStep(o: seq<byte>, have: seq<bool>, i: nat)
    requires GoodData(o) && |have| == Fn(o) && i < Fn(o)
    ensures Overwrite(Filled(o, have), MTU * i, Piece(o, i)) == Filled(o, have[i := true])
  {
    var a, b := Overwrite(Filled(o, have), MTU * i, Piece(o, i)), Filled(o, have[i := true]);
    forall p | 0 <= p < |a| ensures a[p] == b[p] {
      if MTU * i <= p < MTU * i + MTU { assert p / MTU == i; } else { assert p / MTU != i; }
    }
  }

  lemma FirstBlockReceived(k: BlockKey, o: seq<byte>, i: nat, junk: u16)
    requires GoodData(o) && i < Fn(o)
    ensures Received(k, o, FirstBlock(FragmentOf(k, o, i), junk))
  {
    var none := seq(Fn(o), j => false);
    assert Filled(o, none) == Zeros(MTU * Fn(o));
    FilledStep(o, none, i);
    assert none[i := true] == seq(Fn(o), j => j == i);
  }

  lemma FillBlockReceived(k: BlockKey, o: seq<byte>, b: Block, i: nat)
    requires GoodData(o) && i < Fn(o) && Received(k, o, b)
    ensures Received(k, o, FillBlock(b, FragmentOf(k, o, i)))
  {
    FilledStep(o, b.have, i);
  }

  /** With every fragment held, the buffer is the block's bytes followed by zeros. */
  lemma FilledComplete(o: seq<byte>, have: seq<bool>)
    requires GoodData(o) && |have| == Fn(o) && forall i :: 0 <= i < |have| ==> have[i]
    ensures Filled(o, have) == o + Zeros(MTU * Fn(o) - |o|)
  {
    assert forall p :: 0 <= p < MTU * |have| ==> 0 <= p / MTU < |have|;
  }

  // ---------------------------------------------------------------- one fragment arrives

  /** Every cached block is one of the world's, received in part or put in whole. */
  ghost predicate CacheOk(w: World, c: seq<Block>) {
    && CacheWf(c)
    && forall i :: 0 <= i < |c| ==>
         c[i].key in w && (Received(c[i].key, w[c[i].key], c[i]) || c[i] == PutBlock(c[i].key, w[c[i].key]))
  }

  lemma DeliverFirst(w: World, c: seq<Block>, k: BlockKey, i: nat, junk: u16)
    requires CacheOk(w, c) && k in w && i < Fn(w[k]) && IndexOf(c, k) == |c|
    ensures var f := FragmentOf(k, w[k], i);
            var b := FirstBlock(f, junk);
            InRange(c, f) && CacheOk(w, [b] + c) && Deliver(c, f, junk) == ([b] + c, IsComplete(b))
  {
    FirstBlockReceived(k, w[k], i, junk);
    LookupCons(FirstBlock(FragmentOf(k, w[k], i), junk), c, k);
  }

  lemma DeliverFill(w: World, c: seq<Block>, k: BlockKey, i: nat, junk: u16)
    requires CacheOk(w, c) && k in w && i < Fn(w[k]) && IndexOf(c, k) < |c|
    requires i < |c[IndexOf(c, k)].have| && !c[IndexOf(c, k)].have[i]
    ensures var f, n := FragmentOf(k, w[k], i), IndexOf(c, k);
            && InRange(c, f) && Received(k, w[k], c[n])
            && var b := FillBlock(c[n], f);
               CacheOk(w, c[n := b]) && Deliver(c, f, junk) == (c[n := b], IsComplete(b))
  {
    var f, n := FragmentOf(k, w[k], i), IndexOf(c, k);
    assert Received(k, w[k], c[n]);
    FillBlockReceived(k, w[k], c[n], i);
    LookupUpdate(c, FillBlock(c[n], f), k);
  }

  /** The effect of delivering fragment `i` of block `k`: only that block changes, the fragment is held
      afterwards, and the upper layer is told exactly when this fragment filled the last gap. */
  lemma DeliverEffect(w: World, c: seq<Block>, k: BlockKey, i: nat, junk: u16)
    requires CacheOk(w, c) && k in w && i < Fn(w[k])
    ensures InRange(c, FragmentOf(k, w[k], i))
    ensures var f := FragmentOf(k, w[k], i);
            var (c', notify) := Deliver(c, f, junk);
            && CacheOk(w, c')
            && (forall k' :: k' != k ==> Lookup(c', k') == Lookup(c, k'))
            && Lookup(c', k) == Some(match Lookup(c, k)
                                     case None => FirstBlock(f, junk)
                                     case Some(b) => if b.have[i] then b else FillBlock(b, f))
            && Held(c', k, i)
            && (notify <==> !Held(c, k, i) && IsComplete(Lookup(c', k).value))
  {
    var f := FragmentOf(k, w[k], i);
    var n := IndexOf(c, k);
    assert FragmentKey(f) == k;
    if n == |c| {
      DeliverFirst(w, c, k, i, junk);
      forall k' { LookupCons(FirstBlock(f, junk), c, k'); }
    } else if !c[n].have[i] {
      DeliverFill(w, c, k, i, junk);
      forall k' { LookupUpdate(c, FillBlock(c[n], f), k'); }
    }
  }

  /** Flags only grow: nothing that is held is ever lost by a delivery. */
  lemma HeldGrows(w: World, c: seq<Block>, k: BlockKey, i: nat, junk: u16, k': BlockKey, j: nat)
    requires CacheOk(w, c) && k in w && i < Fn(w[k]) && Held(c, k', j)
    ensures InRange(c, FragmentOf(k, w[k], i)) && Held(Deliver(c, FragmentOf(k, w[k], i), junk).0, k', j)
  {
    DeliverEffect(w, c, k, i, junk);
  }

  // ---------------------------------------------------------------- whole streams

  /** What happens at a receiver: a block is put in whole, or one fragment of a block arrives. */
  datatype Op = Put(key: BlockKey) | Recv(key: BlockKey, fid: nat, junk: u16)

  predicate OpOk(w: World, op: Op) { op.key in w && (op.Recv? ==> op.fid < Fn(w[op.key])) }

  predicate OpsOk(w: World, ops: seq<Op>) { forall i :: 0 <= i < |ops| ==> OpOk(w, ops[i]) }

  /** A receiver: its cache and the completions it has announced. */
  datatype Node = Node(cache: seq<Block>, notes: seq<BlockKey>)

  function Exec(w: World, n: Node, op: Op): (r: Node)
    requires OpOk(w, op) && CacheOk(w, n.cache)
    ensures CacheOk(w, r.cache)
  {
    match op
    case Put(k) => n.(cache := AddBlock(n.cache, k, w[k]).0)
    case Recv(k, i, junk) =>
      DeliverEffect(w, n.cache, k, i, junk);
      var (c, notify) := Deliver(n.cache, FragmentOf(k, w[k], i), junk);
      Node(c, if notify then n.notes + [k] else n.notes)
  }

  /** A receiver that starts empty, after a stream of operations. */
  function Run(w: World, ops: seq<Op>): (r: Node)
    requires OpsOk(w, ops)
    ensures CacheOk(w, r.cache)
  {
    if ops == [] then Node([], []) else Exec(w, Run(w, ops[..|ops| - 1]), ops[|ops| - 1])
  }

  /** The first operation of a stream on a block. */
  function First(ops: seq<Op>, k: BlockKey): Option<Op> {
    if ops == [] then None
    else
      var before := First(ops[..|ops| - 1], k);
      var last := ops[|ops| - 1];
      if before.Some? then before else if last.key == k then Some(last) else None
  }

  /** The fragments of a block that occur in a stream. */
  function Fids(ops: seq<Op>, k: BlockKey): set<nat> {
    if ops == [] then {}
    else
      var last := ops[|ops| - 1];
      Fids(ops[..|ops| - 1], k) + if last.Recv? && last.key == k then {last.fid} else {}
  }

  function Count(notes: seq<BlockKey>, k: BlockKey): nat { multiset(notes)[k] }

  /** The content.length of a received block: right once the last fragment has come, unless it came first. */
  function ReceivedLength(o: seq<byte>, first: nat, fids: set<nat>): nat
    requires GoodData(o)
  {
    if first != Fn(o) - 1 && Fn(o) - 1 in fids then |o| else MTU * Fn(o)
  }

  /** The block's flags and length are those of the fragments that have come. */
  ghost predicate InStep(w: World, ops: seq<Op>, b: Block)
    requires b.key in w && |b.have| == Fn(w[b.key]) && First(ops, b.key).Some? && First(ops, b.key).value.Recv?
  {
    && (forall i :: 0 <= i < |b.have| ==> (b.have[i] <==> i in Fids(ops, b.key)))
    && b.length == ReceivedLength(w[b.key], First(ops, b.key).value.fid, Fids(ops, b.key))
  }

  /** Everything a stream determines about one block. */
  ghost predicate KeyState(w: World, ops: seq<Op>, n: Node, k: BlockKey)
    requires k in w
  {
    var found := Lookup(n.cache, k);
    match First(ops, k)
    case None => found.None? && Count(n.notes, k) == 0
    case Some(Put(_)) => found == Some(PutBlock(k, w[k])) && Count(n.notes, k) == 0
    case Some(Recv(_, first, _)) =>
      && found.Some?
      && first in Fids(ops, k)
      && Received(k, w[k], found.value) && InStep(w, ops, found.value)
      && Count(n.notes, k) == if IsComplete(found.value) then 1 else 0
  }

  lemma StreamGrows(ops: seq<Op>, op: Op, k: BlockKey)
    ensures First(ops + [op], k)
         == if First(ops, k).Some? then First(ops, k) else if op.key == k then Some(op) else None
    ensures Fids(ops + [op], k) == Fids(ops, k) + if op.Recv? && op.key == k then {op.fid} else {}
  {
    assert (ops + [op])[..|ops|] == ops;
  }

  /** The first fragment of a block. */
  lemma FirstFragmentState(w: World, ops: seq<Op>, n: Node, op: Op)
    requires OpOk(w, op) && op.Recv? && CacheOk(w, n.cache)
    requires KeyState(w, ops, n, op.key) && First(ops, op.key).None?
    ensures KeyState(w, ops + [op], Exec(w, n, op), op.key)
  {
    var k := op.key;
    DeliverEffect(w, n.cache, k, op.fid, op.junk);
    FirstBlockReceived(k, w[k], op.fid, op.junk);
    NothingBefore(ops, k);
    StreamGrows(ops, op, k);
  }

  /** A fragment of a block that is being received, for the first time. */
  lemma NewFragmentState(w: World, ops: seq<Op>, n: Node, op: Op)
    requires OpOk(w, op) && op.Recv? && CacheOk(w, n.cache)
    requires KeyState(w, ops, n, op.key) && First(ops, op.key).Some? && First(ops, op.key).value.Recv?
    requires !Held(n.cache, op.key, op.fid)
    ensures KeyState(w, ops + [op], Exec(w, n, op), op.key)
  {
    var k := op.key;
    var b := Lookup(n.cache, k).value;
    DeliverEffect(w, n.cache, k, op.fid, op.junk);
    FilledState(w, ops, b, op);
    StreamGrows(ops, op, k);
    var n' := Exec(w, n, op);
    var b' := Lookup(n'.cache, k).value;
    assert b' == FillBlock(b, FragmentOf(k, w[k], op.fid));
    assert !IsComplete(b);
    assert Count(n'.notes, k) == if IsComplete(b') then 1 else 0;
  }

  lemma FilledState(w: World, ops: seq<Op>, b: Block, op: Op)
    requires OpOk(w, op) && op.Recv? && First(ops, op.key).Some? && First(ops, op.key).value.Recv?
    requires Received(op.key, w[op.key], b) && InStep(w, ops, b) && !b.have[op.fid]
    requires First(ops, op.key).value.fid in Fids(ops, op.key)
    ensures Received(op.key, w[op.key], FillBlock(b, FragmentOf(op.key, w[op.key], op.fid)))
    ensures InStep(w, ops + [op], FillBlock(b, FragmentOf(op.key, w[op.key], op.fid)))
  {
    FillBlockReceived(op.key, w[op.key], b, op.fid);
    StreamGrows(ops, op, op.key);
  }

  /** A fragment that is held already. */
  lemma DuplicateState(w: World, ops: seq<Op>, n: Node, op: Op)
    requires OpOk(w, op) && op.Recv? && CacheOk(w, n.cache)
    requires KeyState(w, ops, n, op.key) && First(ops, op.key).Some? && First(ops, op.key).value.Recv?
    requires Held(n.cache, op.key, op.fid)
    ensures KeyState(w, ops + [op], Exec(w, n, op), op.key)
  {
    DeliverEffect(w, n.cache, op.key, op.fid, op.junk);
    StreamGrows(ops, op, op.key);
    assert Fids(ops + [op], op.key) == Fids(ops, op.key);
    assert Exec(w, n, op).notes == n.notes;
  }

  /** An operation on another block, or on a block that is there whole, leaves the block as it is. */
  lemma Unaffected(w: World, ops: seq<Op>, n: Node, op: Op, k: BlockKey)
    requires OpOk(w, op) && CacheOk(w, n.cache) && k in w
    requires KeyState(w, ops, n, k)
    requires op.key != k || (First(ops, k).Some? && (First(ops, k).value.Put? || op.Put?))
    ensures Lookup(Exec(w, n, op).cache, k) == Lookup(n.cache, k)
    ensures Count(Exec(w, n, op).notes, k) == Count(n.notes, k)
  {
    if op.Put? {
      LookupCons(PutBlock(op.key, w[op.key]), n.cache, k);
    } else {
      DeliverEffect(w, n.cache, op.key, op.fid, op.junk);
    }
  }

  lemma UnaffectedState(w: World, ops: seq<Op>, n: Node, op: Op, k: BlockKey)
    requires OpOk(w, op) && CacheOk(w, n.cache) && k in w
    requires KeyState(w, ops, n, k)
    requires op.key != k || (First(ops, k).Some? && (First(ops, k).value.Put? || op.Put?))
    ensures KeyState(w, ops + [op], Exec(w, n, op), k)
  {
    StreamGrows(ops, op, k);
    Unaffected(w, ops, n, op, k);
  }

  /** A block is put in. */
  lemma PutState(w: World, ops: seq<Op>, n: Node, op: Op)
    requires OpOk(w, op) && op.Put? && CacheOk(w, n.cache)
    requires KeyState(w, ops, n, op.key) && First(ops, op.key).None?
    ensures KeyState(w, ops + [op], Exec(w, n, op), op.key)
  {
    StreamGrows(ops, op, op.key);
    LookupCons(PutBlock(op.key, w[op.key]), n.cache, op.key);
  }

  /** One more operation. */
  lemma KeyStateStep(w: World, ops: seq<Op>, n: Node, op: Op, k: BlockKey)
    requires OpOk(w, op) && CacheOk(w, n.cache) && k in w
    requires KeyState(w, ops, n, k)
    ensures KeyState(w, ops + [op], Exec(w, n, op), k)
  {
    if op.key == k && First(ops, k).None? {
      if op.Put? { PutState(w, ops, n, op); } else { FirstFragmentState(w, ops, n, op); }
    } else if op.key == k && op.Recv? && First(ops, k).value.Recv? {
      if Held(n.cache, k, op.fid) { DuplicateState(w, ops, n, op); } else { NewFragmentState(w, ops, n, op); }
    } else {
      UnaffectedState(w, ops, n, op, k);
    }
  }

  lemma {:induction false} NothingBefore(ops: seq<Op>, k: BlockKey)
    requires First(ops, k).None?
    ensures Fids(ops, k) == {}
  {
    if ops != [] { NothingBefore(ops[..|ops| - 1], k); }
  }

  /** In every run, for every block, the state of the cache and the number of completions announced are
      determined by which operation on the block came first and which fragments have come. */
  lemma {:induction false} RunState(w: World, ops: seq<Op>, k: BlockKey)
    requires OpsOk(w, ops) && k in w
    ensures KeyState(w, ops, Run(w, ops), k)
  {
    if ops != [] {
      var before, last := ops[..|ops| - 1], ops[|ops| - 1];
      RunState(w, before, k);
      KeyStateStep(w, before, Run(w, before), last, k);
      assert before + [last] == ops;
    }
  }

  // ---------------------------------------------------------------- consequences

  /** All fragments of the block occur in the stream. */
  predicate AllCame(w: World, ops: seq<Op>, k: BlockKey)
    requires k in w
  {
    forall i :: 0 <= i < Fn(w[k]) ==> i in Fids(ops, k)
  }

  /** A block that was not put in is complete exactly when all its fragments have come, whatever their
      order and repetition. */
  lemma CompleteIffAllCame(w: World, ops: seq<Op>, k: BlockKey)
    requires OpsOk(w, ops) && k in w && First(ops, k).Some? && First(ops, k).value.Recv?
    ensures Lookup(Run(w, ops).cache, k).Some?
    ensures IsComplete(Lookup(Run(w, ops).cache, k).value) <==> AllCame(w, ops, k)
  {
    RunState(w, ops, k);
  }

  /** Completion is announced exactly once for a block all of whose fragments came, not at all for an
      incomplete one, and never for a block that was put in. */
  lemma CompletionAnnouncedOnce(w: World, ops: seq<Op>, k: BlockKey)
    requires OpsOk(w, ops) && k in w
    ensures Count(Run(w, ops).notes, k)
         == if First(ops, k).Some? && First(ops, k).value.Recv? && AllCame(w, ops, k) then 1 else 0
  {
    RunState(w, ops, k);
    if First(ops, k).Some? && First(ops, k).value.Recv? { CompleteIffAllCame(w, ops, k); }
  }

  /** End to end: once all fragments have come the buffer holds the original bytes, then zeros.
      get_block_data returns the original bytes exactly when the last fragment was not the first to
      arrive or fills its slot; otherwise it returns them padded with zeros to a multiple of the MTU. */
  lemma EndToEnd(w: World, ops: seq<Op>, k: BlockKey)
    requires OpsOk(w, ops) && k in w && First(ops, k).Some? && First(ops, k).value.Recv? && AllCame(w, ops, k)
    ensures Lookup(Run(w, ops).cache, k).Some?
    ensures var b := Lookup(Run(w, ops).cache, k).value;
            var o := w[k];
            var lastFirst := First(ops, k).value.fid == Fn(o) - 1;
            && BlockWf(b)
            && (Fn(o) - 1) * MTU + b.lastlen <= |b.data|
            && b.data[..(Fn(o) - 1) * MTU + b.lastlen] == o
            && BlockData(b) == (if lastFirst then o + Zeros(MTU * Fn(o) - |o|) else o)
            && (BlockData(b) == o <==> !lastFirst || LastLen(o) == MTU)
  {
    RunState(w, ops, k);
    var b := Lookup(Run(w, ops).cache, k).value;
    FilledComplete(w[k], b.have);
  }

  /** A block of a single fragment shorter than the MTU is always returned padded. */
  lemma SingleFragmentPadded(w: World, ops: seq<Op>, k: BlockKey)
    requires OpsOk(w, ops) && k in w && First(ops, k).Some? && First(ops, k).value.Recv?
    requires |w[k]| < MTU
    ensures Lookup(Run(w, ops).cache, k).Some?
    ensures var b := Lookup(Run(w, ops).cache, k).value; BlockWf(b) && BlockData(b) == w[k] + Zeros(MTU - |w[k]|)
  {
    FirstInRange(w, ops, k);
    FirstCame(ops, k);
    assert First(ops, k).value.fid == 0 && AllCame(w, ops, k);
    EndToEnd(w, ops, k);
  }

  lemma {:induction false} FirstCame(ops: seq<Op>, k: BlockKey)
    requires First(ops, k).Some? && First(ops, k).value.Recv?
    ensures First(ops, k).value.fid in Fids(ops, k)
  {
    if First(ops[..|ops| - 1], k).Some? { FirstCame(ops[..|ops| - 1], k); }
  }

  lemma {:induction false} FirstInRange(w: World, ops: seq<Op>, k: BlockKey)
    requires OpsOk(w, ops) && k in w && First(ops, k).Some?
    ensures First(ops, k).value.key == k && OpOk(w, First(ops, k).value)
  {
    if First(ops[..|ops| - 1], k).Some? { FirstInRange(w, ops[..|ops| - 1], k); }
  }

  /** What a holder of the original block sends. */
  lemma OriginalSends(k: BlockKey, o: seq<byte>)
    requires GoodData(o)
    ensures Sendable(PutBlock(k, o))
    ensures SentFragments(PutBlock(k, o)) == seq(Fn(o), i requires 0 <= i < Fn(o) => FragmentOf(k, o, i))
  {
    var b := PutBlock(k, o);
    forall i | 0 <= i < Fn(o) ensures SentFragment(b, i) == FragmentOf(k, o, i) {
      assert SentFragment(b, i).data == Piece(o, i);
    }
  }

  /** So does one that received all of it. */
  lemma CompleteSends(k: BlockKey, o: seq<byte>, b: Block)
    requires GoodData(o) && Received(k, o, b) && IsComplete(b)
    ensures Sendable(b)
    ensures SentFragments(b) == seq(Fn(o), i requires 0 <= i < Fn(o) => FragmentOf(k, o, i))
  {
    FilledComplete(o, b.have);
    forall i | 0 <= i < Fn(o) ensures SentFragment(b, i) == FragmentOf(k, o, i) {
      assert SentFragment(b, i).data == Piece(o, i);
    }
  }

  /** Relaying is transparent: a block completed from fragments sends the very fragments its origin
      sends, whatever the order of arrival. */
  lemma RelayTransparent(w: World, ops: seq<Op>, k: BlockKey)
    requires OpsOk(w, ops) && k in w && First(ops, k).Some? && First(ops, k).value.Recv? && AllCame(w, ops, k)
    ensures Lookup(Run(w, ops).cache, k).Some?
    ensures var b := Lookup(Run(w, ops).cache, k).value;
            Sendable(b) && Sendable(PutBlock(k, w[k])) && SentFragments(b) == SentFragments(PutBlock(k, w[k]))
  {
    RunState(w, ops, k);
    CompleteSends(k, w[k], Lookup(Run(w, ops).cache, k).value);
    OriginalSends(k, w[k]);
  }

  /** Two receivers that completed the same block agree on its flags, bytes and last length. */
  lemma OrderIndependent(w: World, ops1: seq<Op>, ops2: seq<Op>, k: BlockKey)
    requires OpsOk(w, ops1) && k in w && First(ops1, k).Some? && First(ops1, k).value.Recv? && AllCame(w, ops1, k)
    requires OpsOk(w, ops2) && First(ops2, k).Some? && First(ops2, k).value.Recv? && AllCame(w, ops2, k)
    ensures Lookup(Run(w, ops1).cache, k).Some? && Lookup(Run(w, ops2).cache, k).Some?
    ensures var a, b := Lookup(Run(w, ops1).cache, k).value, Lookup(Run(w, ops2).cache, k).value;
            a.have == b.have && a.data == b.data && a.lastlen == b.lastlen
  {
    RunState(w, ops1, k);
    RunState(w, ops2, k);
    var a, b := Lookup(Run(w, ops1).cache, k).value, Lookup(Run(w, ops2).cache, k).value;
    assert a.have == b.have;
  }
}
