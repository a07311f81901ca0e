/** The block cache with its buffers and flag arrays updated in place (blockcache.c). Every operation
    is tied to the value-level operation of the same name in BlockSpec. */
module BlockCache {
  import opened Basics
  import opened NetEncoder
  import Spec = BlockSpec

  class CachedBlock {
    const key: BlockKey
    const data: array<byte>
    const have: array<bool>
    var length: u32
    var lastlen: u16

    ghost function Value(): Spec.Block
      reads this, data, have
    {
      Spec.Block(key, length, data[..], have[..], lastlen)
    }

    constructor (key: BlockKey, data: array<byte>, have: array<bool>, length: u32, lastlen: u16)
      ensures this.key == key && this.data == data && this.have == have
      ensures this.length == length && this.lastlen == lastlen
    {
      this.key, this.data, this.have, this.length, this.lastlen := key, data, have, length, lastlen;
    }

    /** Store one more fragment: flag, payload and, for the last fragment, the lengths. */
    method Store(f: Fragment)
      requires f.fid < have.Length == f.total && |f.data| <= MTU && data.Length == MTU * have.Length
      modifies this, data, have
      ensures Value() == Spec.FillBlock(old(Value()), f)
    {
      if f.fid == f.total - 1 {
        lastlen := |f.data|;
        length := (have.Length - 1) * MTU + lastlen;
      }
      have[f.fid] := true;
      CopyInto(data, MTU * f.fid, f.data);
    }
  }

  /** The objects a list of blocks is made of. */
  ghost function Footprint(bs: seq<CachedBlock>): set<object> {
    (set b: CachedBlock | b in bs :: b as object)
    + (set b: CachedBlock | b in bs :: b.data as object)
    + (set b: CachedBlock | b in bs :: b.have as object)
  }

  /** The two blocks share no object. */
  ghost predicate Apart(a: CachedBlock, b: CachedBlock) {
    a != b && a.data != b.data && a.have != b.have
  }

  /** A flag array with every entry set the same way, filled by a loop. */
  method NewFlags(n: nat, value: bool) returns (a: array<bool>)
    ensures fresh(a) && a.Length == n && forall i :: 0 <= i < n ==> a[i] == value
  {
    a := new bool[n];
    var i := 0;
    while i < n
      invariant 0 <= i <= n
      invariant forall j :: 0 <= j < i ==> a[j] == value
    {
      a[i] := value;
      i := i + 1;
    }
  }

  /** memcpy into a buffer. */
  method CopyInto(buf: array<byte>, at: nat, p: seq<byte>)
    requires at + |p| <= buf.Length
    modifies buf
    ensures buf[..] == Spec.Overwrite(old(buf[..]), at, p)
  {
    var j := 0;
    while j < |p|
      invariant 0 <= j <= |p|
      invariant forall n :: 0 <= n < buf.Length ==> buf[n] == if at <= n < at + j then p[n - at] else old(buf[n])
    {
      buf[at + j] := p[j];
      j := j + 1;
    }
  }

  /** The block addblock builds. */
  method NewWholeBlock(k: BlockKey, o: seq<byte>) returns (b: CachedBlock)
    requires |o| < 0x1_0000_0000
    ensures fresh(b) && fresh(b.data) && fresh(b.have) && b.Value() == Spec.PutBlock(k, o)
  {
    var fs := Spec.CalcFragments(|o|);
    var data := new byte[|o|](j requires 0 <= j < |o| => o[j]);
    var have := NewFlags(fs.fn, true);
    b := new CachedBlock(k, data, have, |o|, fs.lastlen);
    assert b.data[..] == o;
    assert b.have[..] == Spec.PutBlock(k, o).have;
  }

  /** The block addfragment builds for the first fragment of a block. */
  method NewFirstBlock(f: Fragment, junk: u16) returns (b: CachedBlock)
    requires f.fid < f.total && |f.data| <= MTU
    ensures fresh(b) && fresh(b.data) && fresh(b.have) && b.Value() == Spec.FirstBlock(f, junk)
  {
    var have := NewFlags(f.total, false);
    var data := new byte[MTU * f.total](j => 0);
    assert data[..] == Spec.Zeros(MTU * f.total);
    have[f.fid] := true;
    CopyInto(data, MTU * f.fid, f.data);
    var lastlen := if f.fid == f.total - 1 then |f.data| else junk;
    b := new CachedBlock(Spec.FragmentKey(f), data, have, MTU * f.total, lastlen);
    assert b.have[..] == Spec.FirstBlock(f, junk).have;
  }

  /** The packet sendblock makes of the i-th fragment. */
  ghost function SentPacket(b: Spec.Block, i: nat, to: Addr): SendData
    requires Spec.Sendable(b) && i < |b.have| && b.lastlen <= MTU
  {
    SendData(FragmentPacket(BLK_BLOCK_ACK, Spec.SentFragment(b, i)), to)
  }

  ghost predicate SentAll(b: Spec.Block, to: Addr, sent: seq<SendData>)
    requires Spec.Sendable(b) && b.lastlen <= MTU
  {
    |sent| == |b.have| && forall i :: 0 <= i < |sent| ==> sent[i] == SentPacket(b, i, to)
  }

  class Cache {
    var blocks: seq<CachedBlock>
    /** The list as a value. */
    ghost var values: seq<Spec.Block>

    /** The value is that of the objects, and no two blocks of the list share an object. */
    ghost predicate Valid()
      reads this, Footprint(blocks)
    {
      && |values| == |blocks|
      && (forall i :: 0 <= i < |blocks| ==> blocks[i] in blocks && values[i] == blocks[i].Value())
      && (forall i, j {:trigger Apart(blocks[i], blocks[j])} :: 0 <= i < j < |blocks| ==> Apart(blocks[i], blocks[j]))
    }

    constructor ()
      ensures Valid() && values == []
    {
      blocks, values := [], [];
    }

    /** findblock: walk the list from its head. */
    method FindBlock(k: BlockKey) returns (i: nat)
      requires Valid()
      ensures i == Spec.IndexOf(values, k)
    {
      i := 0;
      while i < |blocks|
        invariant i <= |blocks|
        invariant forall j :: 0 <= j < i ==> blocks[j].key != k
      {
        if blocks[i].key == k { break; }
        i := i + 1;
      }
      Spec.IndexUnique(values, k, i);
    }

    /** __iscomplete on a block: scan the flags from the last to the first. */
    method BlockComplete(b: CachedBlock) returns (r: bool)
      ensures r <==> Spec.IsComplete(b.Value())
    {
      var i := b.have.Length;
      while i > 0
        invariant 0 <= i <= b.have.Length
        invariant forall j :: i <= j < b.have.Length ==> b.have[j]
      {
        i := i - 1;
        if !b.have[i] { return false; }
      }
      return true;
    }

    /** iscomplete */
    method IsComplete(k: BlockKey) returns (r: bool)
      requires Valid()
      ensures r <==> Spec.CompleteOrAbsent(values, k)
    {
      var i := FindBlock(k);
      if i == |blocks| { return true; }
      r := BlockComplete(blocks[i]);
    }

    /** addblock */
    method AddBlock(k: BlockKey, o: seq<byte>) returns (added: bool)
      requires Valid() && |o| < 0x1_0000_0000
      modifies this
      ensures Valid()
      ensures forall b :: b in blocks && b !in old(blocks) ==> fresh(b) && fresh(b.data) && fresh(b.have)
      ensures values == Spec.AddBlock(old(values), k, o).0
      ensures added == Spec.AddBlock(old(values), k, o).1
    {
      var i := FindBlock(k);
      if i < |blocks| { return false; }
      var b := NewWholeBlock(k, o);
      Prepend(b);
      added := true;
    }

    /** Insertion at the head of the list. */
    method Prepend(b: CachedBlock)
      requires Valid()
      requires forall i :: 0 <= i < |blocks| ==> Apart(b, blocks[i])
      modifies this
      ensures Valid() && blocks == [b] + old(blocks)
      ensures values == [b.Value()] + old(values)
    {
      blocks, values := [b] + blocks, [b.Value()] + values;
    }

    /** prev->next = current->next */
    method Unlink(at: nat)
      requires Valid() && at < |blocks|
      modifies this
      ensures Valid() && forall b :: b in blocks ==> b in old(blocks)
      ensures values == old(values)[..at] + old(values)[at + 1..]
    {
      blocks, values := blocks[..at] + blocks[at + 1..], values[..at] + values[at + 1..];
      assert forall j :: 0 <= j < |blocks| ==> blocks[j] == if j < at then old(blocks)[j] else old(blocks)[j + 1];
    }

    /** deleteblock: `prev` starts at the head, so the head itself is never examined. */
    method DeleteBlock(k: BlockKey) returns (deleted: bool)
      requires Valid()
      modifies this
      ensures Valid() && forall b :: b in blocks ==> b in old(blocks)
      ensures values == Spec.DeleteBlock(old(values), k).0
      ensures deleted == Spec.DeleteBlock(old(values), k).1
    {
      if |blocks| == 0 { return false; }
      ghost var rest := values[1..];
      var prev := FindAfterHead(k);
      assert forall j :: 0 <= j < |rest| ==> rest[j].key == blocks[j + 1].key;
      Spec.IndexUnique(rest, k, prev);
      deleted := prev + 1 < |blocks|;
      if deleted { Unlink(prev + 1); }
    }

    /** The search of deleteblock. */
    method FindAfterHead(k: BlockKey) returns (prev: nat)
      requires |blocks| > 0
      ensures prev < |blocks| && (prev + 1 < |blocks| ==> blocks[prev + 1].key == k)
      ensures forall j :: 0 < j <= prev ==> blocks[j].key != k
    {
      prev := 0;
      while prev + 1 < |blocks|
        invariant 0 <= prev < |blocks|
        invariant forall j :: 0 < j <= prev ==> blocks[j].key != k
      {
        if blocks[prev + 1].key == k { return; }
        prev := prev + 1;
      }
    }

    /** The branch of addfragment that fills a slot of a block already there. */
    method Fill(i: nat, f: Fragment)
      requires Valid() && i < |blocks| && |f.data| <= MTU
      requires f.fid < blocks[i].have.Length == f.total && blocks[i].data.Length == MTU * blocks[i].have.Length
      modifies this`values, blocks[i], blocks[i].data, blocks[i].have
      ensures Valid() && values == old(values)[i := Spec.FillBlock(old(values)[i], f)]
    {
      assert forall j :: 0 <= j < |blocks| && j != i ==> Apart(blocks[i], blocks[j]) || Apart(blocks[j], blocks[i]);
      blocks[i].Store(f);
      values := values[i := blocks[i].Value()];
    }

    /** addfragment on a block that is there. */
    method AddToExisting(i: nat, f: Fragment) returns (res: Spec.AddResult)
      requires Valid() && i < |blocks| && Spec.BlockWf(blocks[i].Value())
      requires |f.data| <= MTU && f.fid < blocks[i].have.Length
      modifies this`values, blocks[i], blocks[i].data, blocks[i].have
      ensures Valid()
      ensures var b := old(blocks[i].Value());
              res == if b.have[f.fid] then Spec.Duplicate
                     else if |b.have| != f.total then Spec.Mismatch
                     else if f.fid < |b.have| - 1 && |f.data| != MTU then Spec.BadLen
                     else Spec.Added
      ensures !res.Added? ==> values == old(values)
      ensures res.Added? ==> old(blocks[i].data.Length == MTU * blocks[i].have.Length)
      ensures res.Added? ==> values == old(values)[i := Spec.FillBlock(old(blocks[i].Value()), f)]
    {
      var b := blocks[i];
      if b.have[f.fid] { return Spec.Duplicate; }
      if b.have.Length != f.total { return Spec.Mismatch; }
      if f.fid < b.have.Length - 1 && |f.data| != MTU { return Spec.BadLen; }
      assert !Spec.IsComplete(b.Value());
      Fill(i, f);
      return Spec.Added;
    }

    /** addfragment. `junk` is the indeterminate content of a freshly allocated `lastlen`. */
    method AddFragment(f: Fragment, junk: u16) returns (res: Spec.AddResult)
      requires Valid() && Spec.CacheWf(values) && Spec.InRange(values, f)
      modifies this, Footprint(blocks)
      ensures Valid()
      ensures forall b :: b in blocks && b !in old(blocks) ==> fresh(b) && fresh(b.data) && fresh(b.have)
      ensures values == Spec.AddFragment(old(values), f, junk).0
      ensures res == Spec.AddFragment(old(values), f, junk).1
    {
      var i := FindBlock(Spec.FragmentKey(f));
      if i < |blocks| {
        assert blocks[i] in blocks && Spec.Lookup(values, Spec.FragmentKey(f)) == Some(blocks[i].Value());
        res := AddToExisting(i, f);
      } else if f.fid != f.total - 1 && |f.data| != MTU {
        res := Spec.BadLen;
      } else {
        AddFirst(f, junk);
        res := Spec.Added;
      }
    }

    /** addfragment on a block that is not there. */
    method AddFirst(f: Fragment, junk: u16)
      requires Valid() && f.fid < f.total && |f.data| <= MTU
      modifies this
      ensures Valid() && |blocks| > 0 && blocks[1..] == old(blocks)
      ensures fresh(blocks[0]) && fresh(blocks[0].data) && fresh(blocks[0].have)
      ensures values == [Spec.FirstBlock(f, junk)] + old(values)
    {
      var b := NewFirstBlock(f, junk);
      Prepend(b);
    }

    /** get_block_data */
    method GetBlockData(k: BlockKey) returns (r: Option<seq<byte>>)
      requires Valid() && Spec.CacheWf(values)
      ensures r == match Spec.Lookup(values, k) case None => None case Some(b) => Some(Spec.BlockData(b))
    {
      var i := FindBlock(k);
      if i == |blocks| { return None; }
      var b := blocks[i];
      assert Spec.BlockWf(b.Value());
      return Some(b.data[..b.length]);
    }

    /** sendblock: the packets handed to send_data, in order, all to the same peer. */
    method SendBlock(k: BlockKey, to: Addr) returns (sent: seq<SendData>)
      requires Valid()
      requires var found := Spec.Lookup(values, k);
               found.Some? ==> Spec.Sendable(found.value) && found.value.lastlen <= MTU
      ensures match Spec.Lookup(values, k)
              case None => sent == []
              case Some(b) => SentAll(b, to, sent)
    {
      var n := FindBlock(k);
      if n == |blocks| { return []; }
      sent := SendFragments(blocks[n], to);
    }

    /** The loop of sendblock. */
    method SendFragments(b: CachedBlock, to: Addr) returns (sent: seq<SendData>)
      requires Spec.Sendable(b.Value()) && b.lastlen <= MTU
      ensures SentAll(b.Value(), to, sent)
    {
      sent := [];
      ghost var v := b.Value();
      var i := 0;
      while i < b.have.Length
        invariant 0 <= i <= b.have.Length && |sent| == i && b.Value() == v
        invariant forall j :: 0 <= j < i ==> sent[j] == SentPacket(v, j, to)
      {
        var len := if i + 1 == b.have.Length then b.lastlen else MTU;
        var f := Fragment(b.key.sid, b.key.bid, i, b.have.Length, b.data[MTU * i..MTU * i + len]);
        assert f == Spec.SentFragment(v, i);
        var p := EncodeFragment(f);
        sent := sent + [SendData(p.(flags := BLK_BLOCK_ACK), to)];
        i := i + 1;
      }
    }

    /** get_consecutives */
    method GetConsecutives(k: BlockKey, fid: u16) returns (r: u16)
      requires Valid()
      requires Spec.Lookup(values, k).Some? ==> fid <= |Spec.Lookup(values, k).value.have|
      ensures r == Spec.Consecutives(values, k, fid)
      ensures Spec.WholeRun(values, k, fid, r)
    {
      Spec.ConsecutivesExact(values, k, fid);
      var n := FindBlock(k);
      r := 0;
      if n == |blocks| { return; }
      var b := blocks[n];
      assert values[n] == b.Value();
      var i := fid as int;
      while i > 0
        invariant 0 <= i <= fid && r == fid - i
        invariant Spec.RunBelow(b.have[..], fid) == r + Spec.RunBelow(b.have[..], i)
      {
        if b.have[i - 1] { r := r + 1; } else { break; }
        i := i - 1;
      }
    }

    /** get_complete_block_list and get_incomplete_block_list: one pass over the list. */
    method ListBlocks(complete: bool) returns (keys: seq<BlockKey>)
      requires Valid()
      ensures keys == Spec.KeysWhere(values, complete)
    {
      keys := [];
      var i := 0;
      while i < |blocks|
        invariant 0 <= i <= |blocks|
        invariant keys == Spec.KeysWhere(values[..i], complete)
      {
        var c := BlockComplete(blocks[i]);
        Spec.ListsKeepOrder(values[..i], [values[i]], complete);
        assert values[..i + 1] == values[..i] + [values[i]];
        if c == complete { keys := keys + [blocks[i].key]; }
        i := i + 1;
      }
      assert values[..i] == values;
    }
  }
}
