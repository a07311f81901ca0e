/** The block cache as a value: what each operation of blockcache.c does to the list of blocks. */
module BlockSpec {
  import opened Basics

  // ---------------------------------------------------------------- cutting a block into fragments

  /** The largest block whose fragment count fits 16 bits. */
  const MAX_BLOCK: int := 91_749_000

  datatype Fragments = Fragments(fn: u16, lastlen: u16)

  /** C division of a possibly negative int by MTU: quotient and remainder truncate toward zero. */
  function DivMtu(n: int): (int, int) {
    if n >= 0 then (n / MTU, n % MTU) else (-((-n) / MTU), -((-n) % MTU))
  }

  /** calcfragments: the length is converted to int for div, and the results are cut to 16 bits. */
  function CalcFragments(length: u32): Fragments {
    if length < 1 then Fragments(0, 0)
    else
      var n := if length < 0x8000_0000 then length else length - 0x1_0000_0000;
      var (quot, rem) := DivMtu(n);
      if rem != 0 then Fragments((quot % 0x1_0000 + 1) % 0x1_0000, rem % 0x1_0000)
      else Fragments(quot % 0x1_0000, MTU)
  }

  /** The fragment count and last length account for every byte exactly for blocks of 1 to
      65535 * 1400 bytes. Outside that range some byte is lost or invented. */
  lemma CalcFragmentsExact(length: u32)
    ensures var fs := CalcFragments(length);
            (fs.fn - 1) * MTU + fs.lastlen == length <==> 1 <= length <= MAX_BLOCK
    ensures 1 <= length <= MAX_BLOCK ==> var fs := CalcFragments(length); fs.fn >= 1 && 1 <= fs.lastlen <= MTU
  {
    if 1 <= length <= MAX_BLOCK {
      assert length / MTU <= 65535;
    }
  }

  predicate GoodData(o: seq<byte>) { 1 <= |o| <= MAX_BLOCK }

  function Fn(o: seq<byte>): (n: u16)
    requires GoodData(o)
    ensures n >= 1 && MTU * (n - 1) < |o| <= MTU * n
  {
    CalcFragmentsExact(|o|);
    CalcFragments(|o|).fn
  }

  function LastLen(o: seq<byte>): (n: u16)
    requires GoodData(o)
    ensures n == |o| - MTU * (Fn(o) - 1)
  {
    CalcFragmentsExact(|o|);
    CalcFragments(|o|).lastlen
  }

  /** The i-th piece of a block's bytes. */
  function Piece(o: seq<byte>, i: nat): (p: seq<byte>)
    requires GoodData(o) && i < Fn(o)
    ensures |p| == if i + 1 == Fn(o) then LastLen(o) else MTU
    ensures forall j :: 0 <= j < |p| ==> p[j] == o[MTU * i + j]
  {
    o[MTU * i .. if i + 1 == Fn(o) then |o| else MTU * (i + 1)]
  }

  function FragmentOf(k: BlockKey, o: seq<byte>, i: nat): Fragment
    requires GoodData(o) && i < Fn(o)
  {
    Fragment(k.sid, k.bid, i, Fn(o), Piece(o, i))
  }

  // ---------------------------------------------------------------- blocks and the cache

  /** A cached block. `have` has one flag per fragment; `length` is content.length, which need not be
      the size of the buffer `data`. */
  datatype Block = Block(key: BlockKey, length: u32, data: seq<byte>, have: seq<bool>, lastlen: u16)

  predicate IsComplete(b: Block) { forall i :: 0 <= i < |b.have| ==> b.have[i] }

  /** A missing fragment has its whole slot in the buffer, and the length stays inside the buffer. */
  predicate BlockWf(b: Block) {
    && |b.have| < 0x1_0000
    && b.length <= |b.data|
    && (!IsComplete(b) ==> |b.data| == MTU * |b.have|)
  }

  predicate CacheWf(c: seq<Block>) { forall i :: 0 <= i < |c| ==> BlockWf(c[i]) }

  predicate UniqueKeys(c: seq<Block>) {
    forall i, j :: 0 <= i < j < |c| ==> c[i].key != c[j].key
  }

  /** Position of the first block with the key, or the length of the list. */
  function IndexOf(c: seq<Block>, k: BlockKey): (i: nat)
    ensures i <= |c|
    ensures i < |c| ==> c[i].key == k
    ensures forall j :: 0 <= j < i ==> c[j].key != k
  {
    if c == [] then 0 else if c[0].key == k then 0 else 1 + IndexOf(c[1..], k)
  }

  function Lookup(c: seq<Block>, k: BlockKey): Option<Block> {
    var i := IndexOf(c, k);
    if i < |c| then Some(c[i]) else None
  }

  lemma IndexUnique(c: seq<Block>, k: BlockKey, i: nat)
    requires i <= |c| && (i < |c| ==> c[i].key == k)
    requires forall j :: 0 <= j < i ==> c[j].key != k
    ensures IndexOf(c, k) == i
  {
  }

  lemma LookupCons(b: Block, c: seq<Block>, k: BlockKey)
    ensures Lookup([b] + c, k) == if b.key == k then Some(b) else Lookup(c, k)
  {
    assert ([b] + c)[1..] == c;
  }

  lemma LookupUpdate(c: seq<Block>, b: Block, k: BlockKey)
    requires IndexOf(c, b.key) < |c|
    ensures Lookup(c[IndexOf(c, b.key) := b], k) == if k == b.key then Some(b) else Lookup(c, k)
  {
    IndexUnique(c[IndexOf(c, b.key) := b], k, IndexOf(c, k));
  }

  // ---------------------------------------------------------------- operations

  /** The block addblock inserts: a copy of the data with every fragment present. */
  function PutBlock(k: BlockKey, o: seq<byte>): Block
    requires |o| < 0x1_0000_0000
  {
    Block(k, |o|, o, seq(CalcFragments(|o|).fn, i => true), CalcFragments(|o|).lastlen)
  }

  /** addblock */
  function AddBlock(c: seq<Block>, k: BlockKey, o: seq<byte>): (r: (seq<Block>, bool))
    requires |o| < 0x1_0000_0000
  {
    if IndexOf(c, k) < |c| then (c, false) else ([PutBlock(k, o)] + c, true)
  }

  datatype AddResult = Added | Duplicate | Mismatch | OutOfBounds | BadLen

  function FragmentKey(f: Fragment): BlockKey { BlockKey(f.sid, f.bid) }

  /** What addfragment needs so that it stays inside its arrays. */
  predicate InRange(c: seq<Block>, f: Fragment) {
    && |f.data| <= MTU
    && match Lookup(c, FragmentKey(f))
       case None => f.fid < f.total
       case Some(b) => f.fid < |b.have|
  }

  /** memcpy of a payload into a buffer. */
  function Overwrite(buf: seq<byte>, at: nat, p: seq<byte>): (r: seq<byte>)
    requires at + |p| <= |buf|
    ensures |r| == |buf|
    ensures forall j :: 0 <= j < |r| ==> r[j] == if at <= j < at + |p| then p[j - at] else buf[j]
  {
    buf[..at] + p + buf[at + |p|..]
  }

  function Zeros(n: nat): (r: seq<byte>)
    ensures |r| == n && forall i :: 0 <= i < n ==> r[i] == 0
  {
    seq(n, i => 0)
  }

  /** The block addfragment creates for the first fragment of a block. When that is not the last
      fragment, `lastlen` keeps the indeterminate value of fresh memory, here `junk`. */
  function FirstBlock(f: Fragment, junk: u16): Block
    requires f.fid < f.total && |f.data| <= MTU
  {
    Block(FragmentKey(f), MTU * f.total,
          Overwrite(Zeros(MTU * f.total), MTU * f.fid, f.data),
          seq(f.total, i => i == f.fid),
          if f.fid == f.total - 1 then |f.data| else junk)
  }

  /** The same block after one more fragment. */
  function FillBlock(b: Block, f: Fragment): Block
    requires f.fid < |b.have| == f.total && |f.data| <= MTU && |b.data| == MTU * |b.have|
  {
    var last := f.fid == f.total - 1;
    Block(b.key, if last then (|b.have| - 1) * MTU + |f.data| else b.length,
          Overwrite(b.data, MTU * f.fid, f.data), b.have[f.fid := true], if last then |f.data| else b.lastlen)
  }

  /** addfragment */
  function AddFragment(c: seq<Block>, f: Fragment, junk: u16): (r: (seq<Block>, AddResult))
    requires CacheWf(c) && InRange(c, f)
  {
    var i := IndexOf(c, FragmentKey(f));
    if i == |c| then
      if f.fid != f.total - 1 && |f.data| != MTU then (c, BadLen)
      else ([FirstBlock(f, junk)] + c, Added)
    else if c[i].have[f.fid] then (c, Duplicate)
    else if |c[i].have| != f.total then (c, Mismatch)
    else if f.fid >= |c[i].have| then (c, OutOfBounds)
    else if f.fid < |c[i].have| - 1 && |f.data| != MTU then (c, BadLen)
    else (c[i := FillBlock(c[i], f)], Added)
  }

  /** iscomplete: a block that is not there counts as complete. */
  predicate CompleteOrAbsent(c: seq<Block>, k: BlockKey) {
    match Lookup(c, k) case None => true case Some(b) => IsComplete(b)
  }

  /** The fragment branch of packet_processor: store the fragment; notify when it was added and the
      block is now complete. */
  function Deliver(c: seq<Block>, f: Fragment, junk: u16): (r: (seq<Block>, bool))
    requires CacheWf(c) && InRange(c, f)
  {
    var (c', res) := AddFragment(c, f, junk);
    (c', res.Added? && CompleteOrAbsent(c', FragmentKey(f)))
  }

  /** The longest run of held fragments just below `fid`. */
  function RunBelow(have: seq<bool>, fid: nat): (n: nat)
    requires fid <= |have|
    ensures n <= fid
    ensures forall j :: fid - n <= j < fid ==> have[j]
    ensures n < fid ==> !have[fid - n - 1]
  {
    if fid == 0 || !have[fid - 1] then 0 else 1 + RunBelow(have, fid - 1)
  }

  predicate Held(c: seq<Block>, k: BlockKey, i: nat) {
    match Lookup(c, k) case None => false case Some(b) => i < |b.have| && b.have[i]
  }

  /** Exactly `n` fragments just below `fid` are held without a gap. */
  predicate WholeRun(c: seq<Block>, k: BlockKey, fid: nat, n: nat) {
    n <= fid && (forall j :: fid - n <= j < fid ==> Held(c, k, j)) && (n < fid ==> !Held(c, k, fid - n - 1))
  }

  /** get_consecutives */
  function Consecutives(c: seq<Block>, k: BlockKey, fid: u16): u16
    requires Lookup(c, k).Some? ==> fid <= |Lookup(c, k).value.have|
  {
    match Lookup(c, k) case None => 0 case Some(b) => RunBelow(b.have, fid)
  }

  /** It reports the whole run held just below the fragment. */
  lemma ConsecutivesExact(c: seq<Block>, k: BlockKey, fid: u16)
    requires Lookup(c, k).Some? ==> fid <= |Lookup(c, k).value.have|
    ensures WholeRun(c, k, fid, Consecutives(c, k, fid))
  {
  }

  /** get_block_data: the first `length` bytes, complete or not. */
  function BlockData(b: Block): seq<byte>
    requires BlockWf(b)
  {
    b.data[..b.length]
  }

  /** sendblock reads inside the buffer when the last length is right or small enough. */
  predicate Sendable(b: Block) {
    |b.have| < 0x1_0000 && (|b.have| > 0 ==> MTU * (|b.have| - 1) + b.lastlen <= |b.data|)
  }

  /** The i-th fragment sendblock emits. */
  function SentFragment(b: Block, i: nat): Fragment
    requires Sendable(b) && i < |b.have|
  {
    Fragment(b.key.sid, b.key.bid, i, |b.have|,
             b.data[MTU * i .. MTU * i + (if i + 1 == |b.have| then b.lastlen else MTU)])
  }

  /** The fragments sendblock emits, in order. */
  function SentFragments(b: Block): seq<Fragment>
    requires Sendable(b)
  {
    seq(|b.have|, i requires 0 <= i < |b.have| => SentFragment(b, i))
  }

  /** deleteblock: the search starts at the second block. */
  function DeleteBlock(c: seq<Block>, k: BlockKey): (r: (seq<Block>, bool)) {
    if c == [] then (c, false)
    else
      var i := 1 + IndexOf(c[1..], k);
      if i < |c| then (c[..i] + c[i + 1..], true) else (c, false)
  }

  /** The keys, in list order, of the blocks whose completeness is as asked. */
  function KeysWhere(c: seq<Block>, complete: bool): seq<BlockKey> {
    if c == [] then []
    else (if IsComplete(c[0]) == complete then [c[0].key] else []) + KeysWhere(c[1..], complete)
  }

  // ---------------------------------------------------------------- what addfragment accepts

  /** The payload has the only length its place allows: a full slot, or anything for the last fragment. */
  predicate FillsSlot(f: Fragment) { |f.data| == MTU || f.fid == f.total - 1 }

  /** addfragment takes a fragment if and only if it is not held, agrees with the stored count of a known
      block, and fills its slot; otherwise the cache is unchanged and the code says which of these failed,
      in this order. */
  lemma AddFragmentExact(c: seq<Block>, f: Fragment, junk: u16)
    requires CacheWf(c) && InRange(c, f)
    ensures var (c', res) := AddFragment(c, f, junk);
            var k := FragmentKey(f);
            var agrees := Lookup(c, k).Some? ==> |Lookup(c, k).value.have| == f.total;
            && (res.Added? <==> !Held(c, k, f.fid) && agrees && FillsSlot(f))
            && (res.Duplicate? <==> Held(c, k, f.fid))
            && (res.Mismatch? <==> !Held(c, k, f.fid) && !agrees)
            && (res.BadLen? <==> !Held(c, k, f.fid) && agrees && !FillsSlot(f))
            && (!res.Added? ==> c' == c)
            && (res.Added? ==> |c'| == |c| + (if Lookup(c, k).None? then 1 else 0))
            && (forall j :: 0 <= j < f.total && res.Added? ==> (Held(c', k, j) <==> Held(c, k, j) || j == f.fid))
  {
    var n := IndexOf(c, FragmentKey(f));
    if AddFragment(c, f, junk).1.Added? {
      if n == |c| {
        LookupCons(FirstBlock(f, junk), c, FragmentKey(f));
      } else {
        LookupUpdate(c, FillBlock(c[n], f), FragmentKey(f));
      }
    }
  }

  // ---------------------------------------------------------------- what every operation keeps

  lemma AddFragmentKeepsWf(c: seq<Block>, f: Fragment, junk: u16)
    requires CacheWf(c) && InRange(c, f)
    ensures CacheWf(AddFragment(c, f, junk).0)
  {
    var i := IndexOf(c, FragmentKey(f));
    if i < |c| && AddFragment(c, f, junk).1.Added? {
      var b := c[i];
      assert |b.data| == MTU * |b.have|;
    }
  }

  /** Keys stay unique through every operation. */
  lemma AddKeepsKeysUnique(c: seq<Block>, f: Fragment, junk: u16, k: BlockKey, o: seq<byte>)
    requires CacheWf(c) && InRange(c, f) && UniqueKeys(c) && |o| < 0x1_0000_0000
    ensures UniqueKeys(AddFragment(c, f, junk).0) && UniqueKeys(AddBlock(c, k, o).0)
  {
    var c' := AddFragment(c, f, junk).0;
    if |c'| == |c| {
      assert forall i :: 0 <= i < |c| ==> c'[i].key == c[i].key;
    }
  }

  lemma DeleteKeepsKeysUnique(c: seq<Block>, k: BlockKey)
    requires UniqueKeys(c)
    ensures UniqueKeys(DeleteBlock(c, k).0)
  {
    if c != [] && DeleteBlock(c, k).1 {
      var d := 1 + IndexOf(c[1..], k);
      var r := DeleteBlock(c, k).0;
      assert forall j :: 0 <= j < |r| ==> r[j] == if j < d then c[j] else c[j + 1];
    }
  }

  lemma LookupRemoved(c: seq<Block>, d: nat, k: BlockKey)
    requires UniqueKeys(c) && d < |c|
    ensures Lookup(c[..d] + c[d + 1..], k) == if k == c[d].key then None else Lookup(c, k)
  {
    var r := c[..d] + c[d + 1..];
    assert forall j :: 0 <= j < |r| ==> r[j] == if j < d then c[j] else c[j + 1];
    var n := IndexOf(c, k);
    if k == c[d].key {
      forall j | 0 <= j < |r| ensures r[j].key != k {
        var m := if j < d then j else j + 1;
        assert r[j] == c[m] && c[m].key != c[d].key;
      }
      IndexUnique(r, k, |r|);
    } else {
      assert n != d;
      IndexUnique(r, k, if n < d then n else n - 1);
    }
  }

  /** deleteblock removes exactly the block with the key unless that block is the head of the list,
      which it never removes; every other block stays. */
  lemma DeleteExact(c: seq<Block>, k: BlockKey, other: BlockKey)
    requires UniqueKeys(c)
    ensures DeleteBlock(c, k).1 <==> Lookup(c, k).Some? && c[0].key != k
    ensures c != [] ==> DeleteBlock(c, k).0 != [] && DeleteBlock(c, k).0[0] == c[0]
    ensures Lookup(DeleteBlock(c, k).0, other) == if DeleteBlock(c, k).1 && other == k then None else Lookup(c, other)
  {
    if c != [] {
      var rest := c[1..];
      assert c == [c[0]] + rest;
      LookupCons(c[0], rest, k);
      var d := 1 + IndexOf(rest, k);
      if d < |c| {
        assert c[d] == rest[d - 1];
        LookupRemoved(c, d, other);
      }
    }
  }

  /** A block that is put in, or received for the first time, is the new head, in front of all others, so the
      newest block is never deleted. */
  lemma NewestIsHead(c: seq<Block>, k: BlockKey, o: seq<byte>, f: Fragment, junk: u16)
    requires CacheWf(c) && UniqueKeys(c) && |o| < 0x1_0000_0000 && InRange(c, f)
    ensures Lookup(c, k).None? ==>
              var c' := AddBlock(c, k, o).0;
              |c'| > 0 && c'[0].key == k && c'[1..] == c && DeleteBlock(c', k) == (c', false)
    ensures Lookup(c, FragmentKey(f)).None? && FillsSlot(f) ==>
              var c' := AddFragment(c, f, junk).0;
              |c'| > 0 && c'[0].key == FragmentKey(f) && c'[1..] == c && DeleteBlock(c', FragmentKey(f)) == (c', false)
  {
  }

  /** The two lists partition the cache: every block is in the list its completeness says and in no
      other, and together they name every block once. */
  lemma {:induction false} ListsPartition(c: seq<Block>, k: BlockKey)
    requires UniqueKeys(c)
    ensures |KeysWhere(c, true)| + |KeysWhere(c, false)| == |c|
    ensures k in KeysWhere(c, true) <==> Lookup(c, k).Some? && IsComplete(Lookup(c, k).value)
    ensures k in KeysWhere(c, false) <==> Lookup(c, k).Some? && !IsComplete(Lookup(c, k).value)
  {
    if c != [] {
      assert UniqueKeys(c[1..]);
      ListsPartition(c[1..], k);
      LookupCons(c[0], c[1..], k);
      assert [c[0]] + c[1..] == c;
      assert c[0].key == k ==> IndexOf(c[1..], k) == |c[1..]|;
    }
  }

  /** The lists keep the order of the cache. */
  lemma {:induction false} ListsKeepOrder(a: seq<Block>, b: seq<Block>, complete: bool)
    ensures KeysWhere(a + b, complete) == KeysWhere(a, complete) + KeysWhere(b, complete)
  {
    if a == [] {
      assert a + b == b;
    } else {
      var h := if IsComplete(a[0]) == complete then [a[0].key] else [];
      var ka, kb := KeysWhere(a[1..], complete), KeysWhere(b, complete);
      assert (a + b)[0] == a[0] && (a + b)[1..] == a[1..] + b;
      ListsKeepOrder(a[1..], b, complete);
      assert h + (ka + kb) == (h + ka) + kb;
    }
  }
}
