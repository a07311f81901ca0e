/** The block cache over whole runs of addblock, addfragment and deleteblock, in any order and with any
    arguments the C code can take without leaving its arrays (blockcache.c). */
module CacheRuns {
  import opened Basics
  import opened BlockSpec

  datatype CacheOp = PutIn(key: BlockKey, data: seq<byte>) | Receive(f: Fragment, junk: u16) | Delete(key: BlockKey)

  /** The arguments are within what the C code can take. Nothing is asked about the stored fragment count. */
  predicate Fits(c: seq<Block>, op: CacheOp) {
    match op
    case PutIn(_, data) => |data| < 0x1_0000_0000
    case Receive(f, _) => InRange(c, f)
    case Delete(_) => true
  }

  /** One operation. Nothing is assumed of an ill-formed cache: that there is none is to be shown. */
  ghost predicate CacheStep(c: seq<Block>, op: CacheOp, c': seq<Block>) {
    && Fits(c, op)
    && match op
       case PutIn(k, data) => c' == AddBlock(c, k, data).0
       case Receive(f, junk) => CacheWf(c) ==> c' == AddFragment(c, f, junk).0
       case Delete(k) => c' == DeleteBlock(c, k).0
  }

  /** A run from the empty cache. */
  ghost predicate IsCacheRun(caches: seq<seq<Block>>, ops: seq<CacheOp>) {
    && |caches| == |ops| + 1 && caches[0] == []
    && (forall i :: 0 <= i < |ops| ==> CacheStep(caches[i], ops[i], caches[i + 1]))
  }

  lemma DeleteKeepsWf(c: seq<Block>, k: BlockKey)
    requires CacheWf(c)
    ensures CacheWf(DeleteBlock(c, k).0)
  {
    var r := DeleteBlock(c, k).0;
    assert forall j :: 0 <= j < |r| ==> r[j] in c;
  }

  lemma StepKeepsCache(c: seq<Block>, op: CacheOp, c': seq<Block>)
    requires CacheWf(c) && UniqueKeys(c) && CacheStep(c, op, c')
    ensures CacheWf(c') && UniqueKeys(c') && (c != [] ==> c' != [])
  {
    match op
    case PutIn(k, data) => assert BlockWf(PutBlock(k, data));
    case Receive(f, junk) =>
      AddFragmentKeepsWf(c, f, junk);
      AddKeepsKeysUnique(c, f, junk, FragmentKey(f), []);
    case Delete(k) =>
      DeleteKeepsWf(c, k);
      DeleteKeepsKeysUnique(c, k);
  }

  /** In every state of every run the keys are unique, every missing fragment has its slot in its block's
      buffer, and no length reaches outside a buffer. */
  lemma {:induction false} CacheAlwaysOk(caches: seq<seq<Block>>, ops: seq<CacheOp>, i: nat)
    requires IsCacheRun(caches, ops) && i < |caches|
    ensures CacheWf(caches[i]) && UniqueKeys(caches[i])
  {
    if i > 0 {
      CacheAlwaysOk(caches, ops, i - 1);
      assert CacheStep(caches[i - 1], ops[i - 1], caches[(i - 1) + 1]);
      StepKeepsCache(caches[i - 1], ops[i - 1], caches[i]);
    }
  }

  /** What became of a block: it is still there, with the same number of fragments and all it held. */
  ghost predicate StillHas(c: seq<Block>, c': seq<Block>, k: BlockKey) {
    var old_, new_ := Lookup(c, k), Lookup(c', k);
    old_.Some? ==>
      && new_.Some? && |new_.value.have| == |old_.value.have|
      && forall i :: 0 <= i < |old_.value.have| && old_.value.have[i] ==> new_.value.have[i]
  }

  lemma ReceiveKeepsBlocks(c: seq<Block>, f: Fragment, junk: u16, k: BlockKey)
    requires CacheWf(c) && InRange(c, f)
    ensures StillHas(c, AddFragment(c, f, junk).0, k)
  {
    var n := IndexOf(c, FragmentKey(f));
    if AddFragment(c, f, junk).1.Added? {
      if n == |c| {
        LookupCons(FirstBlock(f, junk), c, k);
      } else {
        LookupUpdate(c, FillBlock(c[n], f), k);
      }
    }
  }

  /** A block and what it holds survive every operation but a successful deleteblock of its own key, and
      that one succeeds exactly when the block is there behind another. */
  lemma StepKeepsBlock(c: seq<Block>, op: CacheOp, c': seq<Block>, k: BlockKey)
    requires CacheWf(c) && UniqueKeys(c) && CacheStep(c, op, c') && Lookup(c, k).Some?
    ensures StillHas(c, c', k) <==> !(op.Delete? && op.key == k && c[0].key != k)
  {
    match op
    case PutIn(k', data) => LookupCons(PutBlock(k', data), c, k);
    case Receive(f, junk) => ReceiveKeepsBlocks(c, f, junk, k);
    case Delete(k') => DeleteExact(c, k', k);
  }

  lemma RunStep(caches: seq<seq<Block>>, ops: seq<CacheOp>, i: nat)
    requires IsCacheRun(caches, ops) && i < |ops|
    ensures CacheWf(caches[i]) && UniqueKeys(caches[i]) && CacheStep(caches[i], ops[i], caches[i + 1])
  {
    CacheAlwaysOk(caches, ops, i);
  }

  /** Over whole runs: a cache that has ever held a block is never empty again, whatever is deleted. */
  lemma {:induction false} NeverEmptied(caches: seq<seq<Block>>, ops: seq<CacheOp>, i: nat, j: nat)
    requires IsCacheRun(caches, ops) && i <= j < |caches| && caches[i] != []
    ensures caches[j] != []
    decreases j - i
  {
    if i < j {
      RunStep(caches, ops, i);
      StepKeepsCache(caches[i], ops[i], caches[i + 1]);
      NeverEmptied(caches, ops, i + 1, j);
    }
  }

  lemma StillHasTrans(a: seq<Block>, b: seq<Block>, c: seq<Block>, k: BlockKey)
    requires StillHas(a, b, k) && StillHas(b, c, k)
    ensures StillHas(a, c, k)
  {
  }

  lemma NextStillHas(caches: seq<seq<Block>>, ops: seq<CacheOp>, i: nat, k: BlockKey)
    requires IsCacheRun(caches, ops) && i < |ops| && ops[i] != Delete(k)
    ensures StillHas(caches[i], caches[i + 1], k)
  {
    RunStep(caches, ops, i);
    if Lookup(caches[i], k).Some? { StepKeepsBlock(caches[i], ops[i], caches[i + 1], k); }
  }

  /** Over whole runs: a block that is not asked to be deleted stays, and what it holds it keeps. */
  lemma {:induction false} KeptUntilDeleted(caches: seq<seq<Block>>, ops: seq<CacheOp>, i: nat, j: nat, k: BlockKey)
    requires IsCacheRun(caches, ops) && i <= j < |caches| && forall n :: i <= n < j ==> ops[n] != Delete(k)
    ensures StillHas(caches[i], caches[j], k)
    decreases j - i
  {
    if i < j {
      NextStillHas(caches, ops, i, k);
      KeptUntilDeleted(caches, ops, i + 1, j, k);
      StillHasTrans(caches[i], caches[i + 1], caches[j], k);
    }
  }
}
