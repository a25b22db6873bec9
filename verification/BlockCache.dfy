/** The write-back block cache: at most sixteen cached blocks in front of one
    block device.  `logical` is the plain array of blocks that the cache stands
    for; every operation is specified on it alone. */
module BlockCaching {
  import opened Bytes

  const BLOCK_CACHE_SIZE: nat := 16

  /** A cached block.  `strong` is the strong count of the `Arc` holding it: one
      for the queue and one for each handle that has not been dropped. */
  datatype BlockCache = BlockCache(blockId: nat, cache: Block, modified: bool, strong: nat)

  ghost predicate Cached(queue: seq<BlockCache>, id: nat) {
    exists i :: 0 <= i < |queue| && queue[i].blockId == id
  }

  ghost predicate CoherentEntry(c: BlockCache, device: Disk, logical: Disk, handles: multiset<nat>) {
    && c.blockId < |device| == |logical|
    && c.cache == logical[c.blockId]
    && (!c.modified ==> c.cache == device[c.blockId])
    && c.strong == 1 + handles[c.blockId]
  }

  /** At most one live copy of a block exists, every handle has its block in the
      queue, and queue over device give `logical`. */
  ghost predicate Coherent(queue: seq<BlockCache>, device: Disk, logical: Disk, handles: multiset<nat>) {
    && |queue| <= BLOCK_CACHE_SIZE
    && |logical| == |device|
    && (forall i :: 0 <= i < |queue| ==> CoherentEntry(queue[i], device, logical, handles))
    && (forall i, j :: 0 <= i < j < |queue| ==> queue[i].blockId != queue[j].blockId)
    && (forall id :: id in handles ==> Cached(queue, id))
    && (forall id :: 0 <= id < |logical| && !Cached(queue, id) ==> logical[id] == device[id])
  }

  ghost predicate Pinned(queue: seq<BlockCache>, handles: multiset<nat>) {
    forall i :: 0 <= i < |queue| ==> queue[i].blockId in handles
  }

  /** Dirty blocks reach the device before their cache entry goes away. */
  function Synced(c: BlockCache, device: Disk): (r: Disk)
    requires c.blockId < |device|
  {
    if c.modified then device[c.blockId := c.cache] else device
  }

  lemma EvictKeeps(queue: seq<BlockCache>, device: Disk, logical: Disk, handles: multiset<nat>, idx: nat)
    requires Coherent(queue, device, logical, handles)
    requires idx < |queue| && queue[idx].strong == 1
    ensures Coherent(queue[..idx] + queue[idx + 1..], Synced(queue[idx], device), logical, handles)
    ensures forall id :: Cached(queue[..idx] + queue[idx + 1..], id) ==> Cached(queue, id)
  {
    hide Cached, Synced;
    var v := queue[idx];
    var q := queue[..idx] + queue[idx + 1..];
    var dev := Synced(v, device);
    assert CoherentEntry(v, device, logical, handles);
    SyncedAt(v, device);
    forall id ensures Cached(q, id) <==> Cached(queue, id) && id != v.blockId {
      WithoutEntry(queue, idx, id);
    }
    assert forall i :: 0 <= i < |q| ==> q[i] == queue[if i < idx then i else i + 1];
    forall i | 0 <= i < |q| ensures CoherentEntry(q[i], dev, logical, handles) {
      assert CoherentEntry(queue[if i < idx then i else i + 1], device, logical, handles);
    }
  }

  lemma SyncedAt(c: BlockCache, device: Disk)
    requires c.blockId < |device| && (!c.modified ==> c.cache == device[c.blockId])
    ensures Synced(c, device) == device[c.blockId := c.cache]
  {
  }

  /** Taking an entry out of the queue takes its block and no other out of the cache. */
  lemma WithoutEntry(queue: seq<BlockCache>, idx: nat, id: nat)
    requires idx < |queue| && forall i, j :: 0 <= i < j < |queue| ==> queue[i].blockId != queue[j].blockId
    ensures Cached(queue[..idx] + queue[idx + 1..], id) <==> Cached(queue, id) && id != queue[idx].blockId
  {
    var q := queue[..idx] + queue[idx + 1..];
    assert forall i :: 0 <= i < |q| ==> q[i] == queue[if i < idx then i else i + 1];
    if Cached(queue, id) && id != queue[idx].blockId {
      var k :| 0 <= k < |queue| && queue[k].blockId == id;
      assert q[if k < idx then k else k - 1] == queue[k];
    }
  }

  lemma LoadKeeps(queue: seq<BlockCache>, device: Disk, logical: Disk, handles: multiset<nat>, id: nat)
    requires Coherent(queue, device, logical, handles)
    requires !Cached(queue, id) && id < |logical| && |queue| < BLOCK_CACHE_SIZE
    ensures Coherent(queue + [BlockCache(id, device[id], false, 2)], device, logical, handles + multiset{id})
  {
    var c := BlockCache(id, device[id], false, 2);
    var q := queue + [c];
    var h := handles + multiset{id};
    assert q[|queue|] == c;
    forall i | 0 <= i < |q| ensures CoherentEntry(q[i], device, logical, h) {
      if i < |queue| {
        assert CoherentEntry(queue[i], device, logical, handles);
      }
    }
    forall k | Cached(queue, k) || k == id ensures Cached(q, k) {
      if k != id {
        var i :| 0 <= i < |queue| && queue[i].blockId == k;
        assert q[i].blockId == k;
      }
    }
  }

  /** Replacing entry `i` by one with the same block id. */
  lemma UpdateKeeps(queue: seq<BlockCache>, device: Disk, logical: Disk, handles: multiset<nat>,
                    i: nat, c: BlockCache, logical': Disk, handles': multiset<nat>)
    requires Coherent(queue, device, logical, handles)
    requires i < |queue| && c.blockId == queue[i].blockId
    requires CoherentEntry(c, device, logical', handles')
    requires |logical'| == |logical|
    requires forall id :: 0 <= id < |logical| && id != c.blockId ==> logical'[id] == logical[id]
    requires forall id :: id != c.blockId ==> handles'[id] == handles[id]
    ensures Coherent(queue[i := c], device, logical', handles')
  {
    var q := queue[i := c];
    forall k | 0 <= k < |q| ensures CoherentEntry(q[k], device, logical', handles') {
      if k != i {
        assert CoherentEntry(queue[k], device, logical, handles);
      }
    }
    forall id | Cached(queue, id) ensures Cached(q, id) {
      var k :| 0 <= k < |queue| && queue[k].blockId == id;
      assert q[k].blockId == id;
    }
    assert q[i] == c && Cached(q, c.blockId);
    forall id | id in handles' ensures Cached(q, id) {
      if id != c.blockId {
        assert id in handles;
      }
    }
  }

  lemma SyncKeeps(queue: seq<BlockCache>, device: Disk, logical: Disk, handles: multiset<nat>, i: nat)
    requires Coherent(queue, device, logical, handles)
    requires i < |queue|
    ensures Coherent(queue[i := queue[i].(modified := false)], Synced(queue[i], device), logical, handles)
  {
    var q := queue[i := queue[i].(modified := false)];
    var dev := Synced(queue[i], device);
    forall k | 0 <= k < |q| ensures CoherentEntry(q[k], dev, logical, handles) {
      assert CoherentEntry(queue[k], device, logical, handles);
    }
    forall id | Cached(queue, id) ensures Cached(q, id) {
      var k :| 0 <= k < |queue| && queue[k].blockId == id;
      assert q[k].blockId == id;
    }
  }

  /** A full queue of pinned blocks needs as many handles as it has entries. */
  lemma {:induction false} PinnedNeedsHandles(queue: seq<BlockCache>, handles: multiset<nat>)
    requires forall i, j :: 0 <= i < j < |queue| ==> queue[i].blockId != queue[j].blockId
    requires Pinned(queue, handles)
    ensures |queue| <= |handles|
  {
    if |queue| > 0 {
      var last := queue[|queue| - 1].blockId;
      PinnedNeedsHandles(queue[..|queue| - 1], handles - multiset{last});
    }
  }

  /** What code holding handles may do to the cache, in any order. */
  datatype CacheOp = Get(id: nat) | Load(id: nat) | Store(id: nat, b: Block) | Drop(id: nat) | SyncAll

  /** Handles are used only while open and fewer than sixteen are open at a get. */
  ghost predicate Legal(ops: seq<CacheOp>, handles: multiset<nat>, blocks: nat) {
    ops == [] || (Allowed(ops[0], handles, blocks) && Legal(ops[1..], HandlesAfter(ops[0], handles), blocks))
  }

  ghost predicate Allowed(op: CacheOp, handles: multiset<nat>, blocks: nat) {
    match op
    case Get(id) => id < blocks && |handles| < 16
    case Load(id) => id in handles
    case Store(id, _) => id in handles
    case Drop(id) => id in handles
    case SyncAll => true
  }

  ghost function HandlesAfter(op: CacheOp, handles: multiset<nat>): multiset<nat> {
    if op.Get? then handles + multiset{op.id} else if op.Drop? then handles - multiset{op.id} else handles
  }

  /** One operation on a plain array of blocks. */
  function Plain(op: CacheOp, d: Disk): Disk {
    if op.Store? && op.id < |d| then d[op.id := op.b] else d
  }

  function Loaded(op: CacheOp, d: Disk): seq<Block> {
    if op.Load? && op.id < |d| then [d[op.id]] else []
  }

  /** The same operations on a plain array of blocks: its final contents. */
  function PlainFinal(d: Disk, ops: seq<CacheOp>): Disk
    decreases |ops|
  {
    if ops == [] then d else PlainFinal(Plain(ops[0], d), ops[1..])
  }

  /** The same operations on a plain array of blocks: what the loads return. */
  function PlainLoads(d: Disk, ops: seq<CacheOp>): seq<Block>
    decreases |ops|
  {
    if ops == [] then [] else Loaded(ops[0], d) + PlainLoads(Plain(ops[0], d), ops[1..])
  }

  lemma NextOp(ops: seq<CacheOp>, i: nat, handles: multiset<nat>, d: Disk)
    requires i < |ops| && Legal(ops[i..], handles, |d|)
    ensures Allowed(ops[i], handles, |d|) && Legal(ops[i + 1..], HandlesAfter(ops[i], handles), |d|)
    ensures PlainFinal(d, ops[i..]) == PlainFinal(Plain(ops[i], d), ops[i + 1..])
    ensures PlainLoads(d, ops[i..]) == Loaded(ops[i], d) + PlainLoads(Plain(ops[i], d), ops[i + 1..])
  {
    assert ops[i..][0] == ops[i] && ops[i..][1..] == ops[i + 1..];
  }

  lemma NoOps(d: Disk)
    ensures PlainFinal(d, []) == d && PlainLoads(d, []) == []
  {
  }

  /** With fewer handles than entries some entry is unreferenced. */
  lemma RoomWhenFew(queue: seq<BlockCache>, device: Disk, logical: Disk, handles: multiset<nat>)
    requires Coherent(queue, device, logical, handles) && |handles| < 16
    ensures |queue| <= 16 && (|queue| == BLOCK_CACHE_SIZE ==> !Pinned(queue, handles))
  {
    if Pinned(queue, handles) {
      PinnedNeedsHandles(queue, handles);
    }
  }

  class BlockCacheManager {
    var device: Disk
    var queue: seq<BlockCache>
    /** The array of blocks seen through the cache. */
    ghost var logical: Disk
    /** Block ids of the handles given out and not yet dropped. */
    ghost var handles: multiset<nat>

    ghost predicate Valid()
      reads this
    {
      Coherent(queue, device, logical, handles)
    }

    /** The device has everything. */
    ghost predicate Flushed()
      reads this
    {
      device == logical
    }

    constructor (device: Disk)
      ensures Valid()
      ensures this.device == device && logical == device && handles == multiset{}
    {
      this.device := device;
      queue := [];
      logical := device;
      handles := multiset{};
    }

    method FindCached(id: nat) returns (i: nat)
      ensures i <= |queue|
      ensures i < |queue| ==> queue[i].blockId == id
      ensures i == |queue| ==> !Cached(queue, id)
    {
      i := 0;
      while i < |queue| && queue[i].blockId != id
        invariant i <= |queue|
        invariant forall k :: 0 <= k < i ==> queue[k].blockId != id
      {
        i := i + 1;
      }
    }

    method FindUnreferenced() returns (i: nat)
      ensures i <= |queue|
      ensures i < |queue| ==> queue[i].strong == 1
      ensures i == |queue| ==> forall k :: 0 <= k < |queue| ==> queue[k].strong != 1
    {
      i := 0;
      while i < |queue| && queue[i].strong != 1
        invariant i <= |queue|
        invariant forall k :: 0 <= k < i ==> queue[k].strong != 1
      {
        i := i + 1;
      }
    }

    /** `get_block_cache`.  `ok` is false where the source panics. */
    method GetBlockCache(id: nat) returns (ok: bool)
      requires Valid() && id < |logical|
      modifies this
      ensures Valid() && logical == old(logical)
      ensures !ok <==> old(!Cached(queue, id) && |queue| == BLOCK_CACHE_SIZE && Pinned(queue, handles))
      ensures handles == if ok then old(handles) + multiset{id} else old(handles)
      ensures old(Flushed()) ==> Flushed()
    {
      var i := FindCached(id);
      if i < |queue| {
        var c := queue[i].(strong := queue[i].strong + 1);
        assert CoherentEntry(queue[i], device, logical, handles);
        UpdateKeeps(queue, device, logical, handles, i, c, logical, handles + multiset{id});
        queue := queue[i := c];
        handles := handles + multiset{id};
        return true;
      }
      if |queue| == BLOCK_CACHE_SIZE {
        var idx := FindUnreferenced();
        if idx == |queue| {
          assert forall k :: 0 <= k < |queue| ==> CoherentEntry(queue[k], device, logical, handles);
          return false;
        }
        assert CoherentEntry(queue[idx], device, logical, handles);
        EvictKeeps(queue, device, logical, handles, idx);
        SyncedAt(queue[idx], device);
        device := Synced(queue[idx], device);
        queue := queue[..idx] + queue[idx + 1..];
      }
      LoadKeeps(queue, device, logical, handles, id);
      queue := queue + [BlockCache(id, device[id], false, 2)];
      handles := handles + multiset{id};
      ok := true;
    }

    /** `BlockCache::read` through an open handle. */
    method Read(id: nat) returns (b: Block)
      requires Valid() && id in handles
      ensures id < |logical| && b == logical[id]
    {
      var i := FindCached(id);
      assert CoherentEntry(queue[i], device, logical, handles);
      b := queue[i].cache;
    }

    /** `BlockCache::modify` through an open handle: the cached copy changes and
        becomes dirty, the device does not. */
    method Modify(id: nat, b: Block)
      requires Valid() && id in handles
      modifies this`queue, this`logical
      ensures Valid() && id < |logical| == |old(logical)|
      ensures logical == old(logical)[id := b]
    {
      var i := FindCached(id);
      assert CoherentEntry(queue[i], device, logical, handles);
      var c := queue[i].(cache := b, modified := true);
      UpdateKeeps(queue, device, logical, handles, i, c, logical[id := b], handles);
      queue := queue[i := c];
      logical := logical[id := b];
    }

    /** Dropping a handle. */
    method Release(id: nat)
      requires Valid() && id in handles
      modifies this`queue, this`handles
      ensures Valid()
      ensures handles == old(handles) - multiset{id}
    {
      var i := FindCached(id);
      assert CoherentEntry(queue[i], device, logical, handles);
      var c := queue[i].(strong := queue[i].strong - 1);
      UpdateKeeps(queue, device, logical, handles, i, c, logical, handles - multiset{id});
      queue := queue[i := c];
      handles := handles - multiset{id};
    }

    /** `block_cache_sync_all`. */
    method SyncAll()
      requires Valid()
      modifies this`queue, this`device
      ensures Valid()
      ensures device == logical
    {
      var i := 0;
      while i < |queue|
        invariant Valid() && 0 <= i <= |queue| == |old(queue)|
        invariant forall k :: 0 <= k < i ==> !queue[k].modified
      {
        SyncKeeps(queue, device, logical, handles, i);
        assert CoherentEntry(queue[i], device, logical, handles);
        device := Synced(queue[i], device);
        queue := queue[i := queue[i].(modified := false)];
        i := i + 1;
      }
      forall id | 0 <= id < |logical| ensures device[id] == logical[id] {
        if Cached(queue, id) {
          var k :| 0 <= k < |queue| && queue[k].blockId == id;
          assert CoherentEntry(queue[k], device, logical, handles);
        }
      }
      assert device == logical;
    }

    /** `get_block_cache(id).lock()`: with fewer than sixteen handles open it does
        not panic, and with no handle open on `id` the lock is free. */
    method Lock(id: nat)
      requires Valid() && id < |logical| && id !in handles && |handles| < BLOCK_CACHE_SIZE
      modifies this
      ensures Valid() && logical == old(logical)
      ensures handles == old(handles) + multiset{id} && (old(Flushed()) ==> Flushed())
    {
      hide Coherent, Pinned;
      RoomWhenFew(queue, device, logical, handles);
      var ok := GetBlockCache(id);
    }

    /** A block read or replaced within one expression: lock, use, drop. */
    method ReadBlock(id: nat) returns (b: Block)
      requires Valid() && id < |logical| && id !in handles && |handles| < BLOCK_CACHE_SIZE
      modifies this
      ensures Valid() && logical == old(logical) && handles == old(handles)
      ensures b == logical[id] && (old(Flushed()) ==> Flushed())
    {
      hide Coherent;
      Lock(id);
      b := Read(id);
      Release(id);
      assert handles == old(handles);
    }

    method WriteBlock(id: nat, b: Block)
      requires Valid() && id < |logical| && id !in handles && |handles| < BLOCK_CACHE_SIZE
      modifies this
      ensures Valid() && logical == old(logical)[id := b] && handles == old(handles)
    {
      Lock(id);
      Modify(id, b);
      Release(id);
      assert handles == old(handles);
    }

    /** One word written through an open handle. */
    method ModifyWord(id: nat, i: nat, v: Word)
      requires Valid() && id in handles && i < 128
      modifies this`queue, this`logical
      ensures Valid() && id < |logical|
      ensures logical == old(logical)[id := PutWord(old(logical)[id], i, v)]
    {
      hide PutWord, Coherent;
      var b := Read(id);
      Modify(id, PutWord(b, i, v));
    }

    /** One word of a block modified within one expression. */
    method WriteWord(id: nat, i: nat, v: Word)
      requires Valid() && id < |logical| && id !in handles && |handles| < BLOCK_CACHE_SIZE && i < 128
      modifies this
      ensures Valid() && logical == old(logical)[id := PutWord(old(logical)[id], i, v)] && handles == old(handles)
    {
      hide PutWord, Coherent;
      Lock(id);
      ModifyWord(id, i, v);
      Release(id);
      assert handles == old(handles);
    }

    /** One operation; `got` is the block that a load returns. */
    method Perform(op: CacheOp) returns (got: seq<Block>)
      requires Valid() && Allowed(op, handles, |logical|)
      modifies this
      ensures Valid() && handles == HandlesAfter(op, old(handles))
      ensures logical == Plain(op, old(logical)) && got == Loaded(op, old(logical))
      ensures op.SyncAll? ==> device == logical
    {
      hide Coherent, Pinned, Flushed;
      got := [];
      match op {
        case Get(id) =>
          RoomWhenFew(queue, device, logical, handles);
          var ok := GetBlockCache(id);
          assert ok;
        case Load(id) =>
          var b := Read(id);
          got := [b];
        case Store(id, b) =>
          Modify(id, b);
        case Drop(id) =>
          Release(id);
        case SyncAll =>
          SyncAll();
      }
    }

    /** Cache transparency: no legal interleaving panics, and each behaves as it
        would on a plain array of blocks. */
    method Replay(ops: seq<CacheOp>) returns (loads: seq<Block>)
      requires Valid() && Legal(ops, handles, |logical|)
      modifies this
      ensures Valid()
      ensures loads == PlainLoads(old(logical), ops)
      ensures logical == PlainFinal(old(logical), ops)
      ensures |ops| > 0 && ops[|ops| - 1].SyncAll? ==> device == PlainFinal(old(logical), ops)
    {
      hide Coherent, Allowed, HandlesAfter, Legal, PlainFinal, PlainLoads, Loaded;
      loads := [];
      assert ops[0..] == ops;
      for i := 0 to |ops|
        invariant Valid() && Legal(ops[i..], handles, |logical|)
        invariant PlainLoads(old(logical), ops) == loads + PlainLoads(logical, ops[i..])
        invariant PlainFinal(old(logical), ops) == PlainFinal(logical, ops[i..])
        invariant 0 < i && ops[i - 1].SyncAll? ==> device == logical
      {
        NextOp(ops, i, handles, logical);
        var got := Perform(ops[i]);
        loads := loads + got;
      }
      assert ops[|ops|..] == [];
      NoOps(logical);
    }
  }
}
