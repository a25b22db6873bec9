/** The virtual file system layer: named files under one root directory. */
module Vfs {
  import opened Common
  import opened Bytes
  import opened BlockCaching
  import opened Bitmaps
  import opened DiskLayout
  import opened EfsFormat
  import opened FsInvariant
  import opened Filesystem

  /** `e` is `d` outside the data bitmap and the blocks `q`. */
  ghost predicate SameOutside(g: Geometry, d: Disk, e: Disk, q: seq<nat>) {
    && |e| == |d|
    && forall x :: 0 <= x < |d| && !(g.DataBitmap().start <= x < g.DataStart()) && x !in q ==> e[x] == d[x]
  }

  lemma NothingChanged(g: Geometry, d: Disk, q: seq<nat>)
    ensures SameOutside(g, d, d, q)
  {
  }

  /** An inode value `n` over blocks `p` holds the file `f`. */
  ghost predicate Opened(g: Geometry, d: Disk, n: Ino, p: seq<nat>, f: seq<Byte>) {
    && g.Ok() && |d| == g.total
    && n.size == |f| && |n.direct| == 28 && |p| == TotalBlocks(|f|) && DataBlocks(|f|) <= MAX_DATA_BLOCKS && Laid(n, d, p) && Holds(d, p, f)
    && Plan(d, p) && forall i :: 0 <= i < |p| ==> p[i] in Used(g, d) && g.DataStart() <= p[i]
  }

  ghost predicate Extended(g: Geometry, e: Disk, p: seq<nat>, v: seq<nat>, f: seq<Byte>) {
    && Allocatable(g, e) && Plan(e, p + v) && Holds(e, p, f)
    && (forall i :: 0 <= i < |p + v| ==> (p + v)[i] in Used(g, e) && g.DataStart() <= (p + v)[i])
    && (forall i :: 0 <= i < |v| ==> v[i] < |e| && IsZero(e[v[i]]))
  }

  lemma NewBlocksBlank(g: Geometry, e: Disk, p: seq<nat>, v: seq<nat>, f: seq<Byte>)
    requires Extended(g, e, p, v, f)
    ensures BlankFrom(e, p + v, |p|)
  {
    hide Used, Holds, IsZero, IsMeta, Plan;
    forall i | |p| <= i < |p + v| && IsMeta(i) ensures (p + v)[i] < |e| && IsZero(e[(p + v)[i]]) {
      assert (p + v)[i] == v[i - |p|];
    }
  }

  /** New blocks `v`, free before and owned by nobody, extend the plan `p`. */
  lemma ExtendPlan(g: Geometry, d: Disk, e: Disk, p: seq<nat>, v: seq<nat>, n: Ino, f: seq<Byte>, newSize: nat)
    requires Opened(g, d, n, p, f) && Allocatable(g, d) && Allocatable(g, e) && FreeAreZero(g, d)
    requires g.DataBitmap().OnlyBitmapDiffers(d, e)
    requires Distinct(v) && Used(g, e) == Used(g, d) + Elements(v)
    requires forall i :: 0 <= i < |v| ==> g.DataStart() <= v[i] < g.total && v[i] !in Used(g, d)
    requires |f| <= newSize && DataBlocks(newSize) <= MAX_DATA_BLOCKS && |p| + |v| == TotalBlocks(newSize)
    ensures Extended(g, e, p, v, f) && Laid(n, e, p)
  {
    hide At, FileByte, Used;
    LaidFrame(n, d, e, p);
    HoldsFrame(d, e, p, f);
    TotalForMonotone(DataBlocks(newSize), MAX_DATA_BLOCKS);
    forall i | 0 <= i < |v| ensures v[i] in Used(g, e) {
      assert v[i] in Elements(v);
    }
  }

  lemma GrownOpen(g: Geometry, d: Disk, e: Disk, e': Disk, p: seq<nat>, v: seq<nat>, n: Ino, f: seq<Byte>)
    requires Extended(g, e, p, v, f) && g.DataBitmap().OnlyBitmapDiffers(d, e)
    requires SameButMeta(e, e', p + v) && Laid(n, e', p + v)
    requires |f| <= n.size && DataBlocks(n.size) <= MAX_DATA_BLOCKS && |p| + |v| == TotalBlocks(n.size)
    ensures Opened(g, e', n, p + v, Padded(f, n.size))
    ensures SameOutside(g, d, e', p + v)
    ensures Used(g, e') == Used(g, e) && Allocatable(g, e')
  {
    hide At, FileByte, Used;
    var q := p + v;
    forall x | 0 <= x < |e| && x !in q ensures e'[x] == e[x] {
      assert forall i :: 0 <= i < |q| ==> q[i] != x;
    }
    UsedFrame(g, e, e');
    forall i | 0 <= i < |q| && !IsMeta(i) ensures e'[q[i]] == e[q[i]] {
    }
    GrownHolds(e, e', p, v, f, n.size);
  }

  /** Storing inode `i` after work on the blocks `q` leaves the rest of the image alone. */
  lemma StoredInode(g: Geometry, d: Disk, e: Disk, i: nat, q: seq<nat>, n: Ino)
    requires g.Ok() && |d| == g.total && SameOutside(g, d, e, q) && |n.direct| == 28
    requires i < g.InodeBitmap().Maximum()
    requires forall x :: 0 <= x < |q| ==> g.DataStart() <= q[x]
    ensures g.InodeBlock(i) < |e|
    ensures var e' := e[g.InodeBlock(i) := PutIno(e[g.InodeBlock(i)], g.InodeSlot(i), n)];
            && e'[0] == d[0]
            && g.InodeBitmap().Bits(e') == g.InodeBitmap().Bits(d)
            && InodeAt(g, e', i) == n
            && (forall j :: 0 <= j < g.InodeBitmap().Maximum() && j != i ==> InodeAt(g, e', j) == InodeAt(g, d, j))
            && (forall x :: g.DataBitmap().start <= x < |e| ==> e'[x] == e[x])
            && Used(g, e') == Used(g, e)
  {
    hide BitIn, SlotIno, PutIno, Used;
    var b := g.InodeBlock(i);
    var e' := e[b := PutIno(e[b], g.InodeSlot(i), n)];
    assert forall x :: 0 <= x < g.DataBitmap().start ==> x !in q;
    BitsFrame(g.InodeBitmap(), d, e');
    UsedFrame(g, e, e');
    PutInoSame(e[b], g.InodeSlot(i), n);
    forall j | 0 <= j < g.InodeBitmap().Maximum() && j != i ensures InodeAt(g, e', j) == InodeAt(g, d, j) {
      InodeSlotsDisjoint(g, i, j);
      if g.InodeBlock(j) == b {
        PutInoOther(e[b], g.InodeSlot(i), n, g.InodeSlot(j));
      }
    }
  }

  /** The counting argument for growth. */
  lemma GrownUsed(s: set<nat>, p: seq<nat>, v: seq<nat>)
    requires Distinct(v) && forall i :: 0 <= i < |v| ==> v[i] !in s
    ensures forall y :: multiset(s + Elements(v))[y] + multiset(p)[y] == multiset(s)[y] + multiset(p + v)[y]
  {
    DistinctCounts(v);
  }

  lemma {:induction false} DistinctCounts(v: seq<nat>)
    requires Distinct(v)
    ensures multiset(v) == multiset(Elements(v))
  {
    if v != [] {
      var last := |v| - 1;
      DistinctCounts(v[..last]);
      assert v == v[..last] + [v[last]];
      assert v[last] !in v[..last];
      assert Elements(v) == Elements(v[..last]) + {v[last]};
    }
  }

  /** After growing and writing inode `i`, storing it re-establishes the invariant. */
  lemma WrittenSound(g: Geometry, d: Disk, e: Disk, plans: seq<seq<nat>>, files: seq<seq<Byte>>,
                     i: nat, v: seq<nat>, n: Ino, f: seq<Byte>)
    requires Sound(g, d, plans, files) && i < |plans| && Allocatable(g, e)
    requires SameOutside(g, d, e, plans[i] + v) && Opened(g, e, n, plans[i] + v, f) && (n.isDir <==> i == 0)
    requires Used(g, e) == Used(g, d) + Elements(v)
    requires Distinct(v) && forall x :: 0 <= x < |v| ==> v[x] !in Used(g, d)
    ensures |n.direct| == 28 && g.InodeBlock(i) < |e|
    ensures var e' := e[g.InodeBlock(i) := PutIno(e[g.InodeBlock(i)], g.InodeSlot(i), n)];
            Sound(g, e', plans[i := plans[i] + v], files[i := f])
  {
    hide BitIn, SlotIno, PutIno, Used, At, FileByte, Flat, WordAt, SuperAt;
    var q := plans[i] + v;
    StoredInode(g, d, e, i, q, n);
    var e' := e[g.InodeBlock(i) := PutIno(e[g.InodeBlock(i)], g.InodeSlot(i), n)];
    assert InodeSound(g, e', i, q, f) by {
      LaidFrame(n, e, e', q);
      HoldsFrame(e, e', q, f);
    }
    GrownUsed(Used(g, d), plans[i], v);
    assert FreeAreZero(g, e') by {
      forall b | g.DataStart() <= b < |e'| && b !in Used(g, e') ensures IsZero(e'[b]) {
        assert b !in q;
      }
    }
    OthersUntouched(g, d, e, plans, files, i, v);
    InodeReplaced(g, d, e', plans, files, i, q, f);
  }

  lemma OthersUntouched(g: Geometry, d: Disk, e: Disk, plans: seq<seq<nat>>, files: seq<seq<Byte>>, i: nat, v: seq<nat>)
    requires Sound(g, d, plans, files) && i < |plans| && SameOutside(g, d, e, plans[i] + v)
    requires forall x :: 0 <= x < |v| ==> v[x] !in Used(g, d)
    ensures forall j, x :: 0 <= j < |plans| && j != i && 0 <= x < |plans[j]| ==>
              g.DataStart() <= plans[j][x] < |d| && e[plans[j][x]] == d[plans[j][x]]
  {
    hide BitIn, Used, InodeSound, Flat, SuperAt, FreeAreZero;
    forall j, x | 0 <= j < |plans| && j != i && 0 <= x < |plans[j]|
      ensures g.DataStart() <= plans[j][x] < |d| && e[plans[j][x]] == d[plans[j][x]]
    {
      PlanOk(g, d, plans, files, j);
      OwnedOnce(plans, Used(g, d), j, i);
      assert plans[j][x] in plans[j];
    }
  }

  lemma WrittenOpen(g: Geometry, d: Disk, e: Disk, e': Disk, q: seq<nat>, n: Ino, f: seq<Byte>, offset: nat, buf: seq<Byte>)
    requires Opened(g, e, n, q, Padded(f, offset + |buf|)) && SameOutside(g, d, e, q) && Allocatable(g, e)
    requires SameButData(e, e', q) && Laid(n, e', q)
    requires Spliced(e, e', q, DataBlocks(n.size), offset, buf)
    ensures Opened(g, e', n, q, Overwritten(f, offset, buf)) && SameOutside(g, d, e', q)
    ensures Used(g, e') == Used(g, e) && Allocatable(g, e')
  {
    hide At, FileByte, Used;
    forall x | 0 <= x < |e| && x !in q ensures e'[x] == e[x] {
      assert forall i :: 0 <= i < |q| ==> q[i] != x;
    }
    UsedFrame(g, e, e');
    WrittenHolds(e, e', q, f, offset + |buf|, offset, buf);
  }

  lemma InodeOpens(g: Geometry, d: Disk, plans: seq<seq<nat>>, files: seq<seq<Byte>>, i: nat)
    requires Sound(g, d, plans, files) && i < |plans|
    ensures g.InodeStart() <= g.InodeBlock(i) < g.DataBitmap().start <= |d|
    ensures Opened(g, d, InodeAt(g, d, i), plans[i], files[i]) && (InodeAt(g, d, i).isDir <==> i == 0)
    ensures Allocatable(g, d)
  {
    hide BitIn, Used, At, Flat, SuperAt, FreeAreZero, SlotIno, Holds;
    PlanOk(g, d, plans, files, i);
    OwnedOnce(plans, Used(g, d), i, i);
    assert InodeSound(g, d, i, plans[i], files[i]);
    assert |plans[i]| == TotalBlocks(|files[i]|) by {
      HoldsLength(d, plans[i], files[i]);
    }
    forall x | 0 <= x < |plans[i]| ensures plans[i][x] in Used(g, d) {
      assert plans[i][x] in plans[i];
    }
  }

  lemma HoldsLength(d: Disk, p: seq<nat>, f: seq<Byte>)
    requires Holds(d, p, f)
    ensures |p| == TotalBlocks(|f|)
  {
  }

  lemma ClearedUsed(s: set<nat>, p: seq<nat>)
    requires Distinct(p) && forall i :: 0 <= i < |p| ==> p[i] in s
    ensures forall y :: multiset(s - Elements(p))[y] + multiset(p)[y] == multiset(s)[y] + multiset([])[y]
  {
    DistinctCounts(p);
  }

  /** After clearing inode `i` and releasing its blocks, storing it re-establishes
      the invariant. */
  lemma ClearedSound(g: Geometry, d: Disk, e: Disk, plans: seq<seq<nat>>, files: seq<seq<Byte>>, i: nat, n: Ino)
    requires Sound(g, d, plans, files) && i < |plans| && Allocatable(g, e) && |e| == |d|
    requires forall x :: 0 <= x < |e| && !(g.DataBitmap().start <= x < g.DataStart()) ==>
               if x in plans[i] then IsZero(e[x]) else e[x] == d[x]
    requires Used(g, e) == Used(g, d) - Elements(plans[i])
    requires IsEmpty(n) && (n.isDir <==> i == 0)
    ensures g.InodeBlock(i) < |e|
    ensures var e' := e[g.InodeBlock(i) := PutIno(e[g.InodeBlock(i)], g.InodeSlot(i), n)];
            Sound(g, e', plans[i := []], files[i := []])
  {
    hide BitIn, SlotIno, PutIno, Used, At, FileByte, Flat, WordAt, SuperAt;
    PlanOk(g, d, plans, files, i);
    OwnedOnce(plans, Used(g, d), i, i);
    StoredInode(g, d, e, i, plans[i], n);
    var e' := e[g.InodeBlock(i) := PutIno(e[g.InodeBlock(i)], g.InodeSlot(i), n)];
    EmptyIsLaid(n, e');
    assert InodeSound(g, e', i, [], []);
    forall x | 0 <= x < |plans[i]| ensures plans[i][x] in Used(g, d) {
      assert plans[i][x] in plans[i];
    }
    ClearedUsed(Used(g, d), plans[i]);
    assert FreeAreZero(g, e') by {
      forall b | g.DataStart() <= b < |e'| && b !in Used(g, e') ensures IsZero(e'[b]) {
        if b !in plans[i] {
          assert b !in Elements(plans[i]);
        }
      }
    }
    assert plans[i] + [] == plans[i];
    OthersUntouched(g, d, e, plans, files, i, []);
    InodeReplaced(g, d, e', plans, files, i, [], []);
  }

  /** A write of no bytes at the end of a file of whole blocks looks up the block after
      the end; that stays on the device exactly off the boundaries, or where the magic
      number is a block id too. */
  lemma EmptyWritePastEnd(g: Geometry, d: Disk, plans: seq<seq<nat>>, files: seq<seq<Byte>>, i: nat)
    requires Sound(g, d, plans, files) && i < |plans| && 0 < |d|
    requires |files[i]| % 512 == 0 && g.InodeBlock(i) < |d|
    ensures Reachable(InodeAt(g, d, i), d, |files[i]| / 512) <==>
            !Boundary(|files[i]| / 512) || MagicIsBlock(d, |files[i]| / 512)
    ensures |d| <= EFS_MAGIC ==> !MagicIsBlock(d, |files[i]| / 512)
  {
    hide WordAt, Holds, Laid, SlotIno, Sound, Plan, Reachable, MagicIsBlock, Boundary;
    SoundLengths(g, d, plans, files);
    InodeOpens(g, d, plans, files, i);
    PlanOk(g, d, plans, files, i);
    SoundMagic(g, d, plans, files);
    MagicTooLarge(d, |files[i]| / 512);
    LookupPastEnd(InodeAt(g, d, i), d, plans[i], |files[i]| / 512);
  }

  lemma MagicTooLarge(d: Disk, k: nat)
    requires 0 < |d| && WordAt(d[0], 0) == EFS_MAGIC
    ensures |d| <= EFS_MAGIC ==> !MagicIsBlock(d, k)
  {
    hide WordAt;
  }

  class Inode {
    const blockId: nat
    const blockOffset: nat
    const fs: EasyFileSystem
    ghost const id: nat

    constructor (blockId: nat, blockOffset: nat, fs: EasyFileSystem, ghost id: nat)
      ensures this.blockId == blockId && this.blockOffset == blockOffset && this.fs == fs && this.id == id
    {
      this.blockId, this.blockOffset, this.fs, this.id := blockId, blockOffset, fs, id;
    }

    /** `Inode::increase_size` */
    method IncreaseSize(newSize: nat, ino: DiskInode, ghost p: seq<nat>, ghost f: seq<Byte>) returns (ghost v: seq<nat>)
      requires fs.Placed() && Quiet(fs.g, fs.cache) && FreeAreZero(fs.g, fs.cache.logical)
      requires Opened(fs.g, fs.cache.logical, ino.Value(), p, f) && DataBlocks(newSize) <= MAX_DATA_BLOCKS
      requires |Used(fs.g, fs.cache.logical)| + TotalBlocks(Max(|f|, newSize)) - TotalBlocks(|f|) <= fs.g.dataAreaBlocks
      modifies ino, fs.cache
      ensures Quiet(fs.g, fs.cache) && fs.cache.handles == old(fs.cache.handles)
      ensures Opened(fs.g, fs.cache.logical, ino.Value(), p + v, Padded(f, newSize)) && ino.isDir == old(ino.isDir)
      ensures SameOutside(fs.g, old(fs.cache.logical), fs.cache.logical, p + v)
      ensures Used(fs.g, fs.cache.logical) == Used(fs.g, old(fs.cache.logical)) + Elements(v)
      ensures Distinct(v) && forall i :: 0 <= i < |v| ==> v[i] !in Used(fs.g, old(fs.cache.logical))
    {
      hide Coherent, At, Used, Holds, SameOutside, LaidTo, SameButMeta, FreeAreZero;
      if newSize < ino.size {
        v := [];
        NoElements();
        assert p + v == p;
        NothingChanged(fs.g, fs.cache.logical, p);
        return;
      }
      var needed := TotalBlocks(newSize) - TotalBlocks(ino.size);
      ghost var d := fs.cache.logical;
      var blocks := fs.AllocMany(needed);
      v := blocks;
      ghost var e := fs.cache.logical;
      ExtendPlan(fs.g, d, e, p, v, ino.Value(), f, newSize);
      NewBlocksBlank(fs.g, e, p, v, f);
      ino.IncreaseSize(newSize, blocks, fs.cache, p);
      GrownOpen(fs.g, d, e, fs.cache.logical, p, v, ino.Value(), f);
    }

    /** The handle stands for inode `id` of its file system. */
    ghost predicate Refers()
      reads fs
    {
      id < |fs.plans| && blockId == fs.g.InodeBlock(id) && blockOffset == 128 * fs.g.InodeSlot(id)
    }

    /** How many blocks the inode needs to grow to `size` bytes. */
    ghost function Needs(size: nat): int
      requires id < |fs.files|
      reads fs
    {
      TotalBlocks(Max(|fs.files[id]|, size)) - TotalBlocks(|fs.files[id]|)
    }

    /** Writes the inode back into its slot and unlocks its block. */
    method CloseInode(ino: DiskInode)
      requires fs.Placed() && fs.cache.Valid() && blockId in fs.cache.handles && |ino.direct| == 28
      requires blockOffset == 128 * fs.g.InodeSlot(id)
      modifies fs.cache
      ensures fs.cache.Valid() && fs.cache.handles == old(fs.cache.handles) - multiset{blockId}
      ensures blockId < |fs.cache.logical|
      ensures fs.cache.logical ==
              old(fs.cache.logical)[blockId := PutIno(old(fs.cache.logical)[blockId], fs.g.InodeSlot(id), ino.Value())]
    {
      hide Coherent, PutIno;
      var b := fs.cache.Read(blockId);
      fs.cache.Modify(blockId, PutIno(b, blockOffset / 128, Ino(ino.size, ino.direct, ino.indirect1, ino.indirect2, ino.isDir)));
      fs.cache.Release(blockId);
    }

    /** Locks the inode's block and reads the inode out of it. */
    method OpenInode() returns (ino: DiskInode)
      requires fs.Valid() && Refers()
      modifies fs.cache
      ensures fs.cache.logical == old(fs.cache.logical) && fs.cache.handles == multiset{blockId}
      ensures Quiet(fs.g, fs.cache)
      ensures FreeAreZero(fs.g, fs.cache.logical)
      ensures fs.g.InodeBlock(id) < |fs.cache.logical|
      ensures fresh(ino) && ino.Value() == InodeAt(fs.g, fs.cache.logical, id)
      ensures id < |fs.plans| && id < |fs.files|
      ensures Opened(fs.g, fs.cache.logical, ino.Value(), fs.plans[id], fs.files[id]) && (ino.isDir <==> id == 0)
      ensures old(fs.cache.Flushed()) ==> fs.cache.Flushed()
    {
      hide Coherent, At, Used, Holds, LaidTo, FreeAreZero, Flat, SuperAt, SlotIno, BitIn;
      InodeOpens(fs.g, fs.cache.logical, fs.plans, fs.files, id);
      fs.cache.Lock(blockId);
      var b := fs.cache.Read(blockId);
      ino := new DiskInode(SlotIno(b, blockOffset / 128));
    }

    /** Growing and writing an open inode, as `write_at` and `create` do. */
    method GrowAndWrite(ino: DiskInode, offset: nat, buf: seq<Byte>, ghost p: seq<nat>, ghost f: seq<Byte>)
      returns (count: nat, ghost v: seq<nat>)
      requires fs.Placed() && Quiet(fs.g, fs.cache) && FreeAreZero(fs.g, fs.cache.logical)
      requires Opened(fs.g, fs.cache.logical, ino.Value(), p, f) && DataBlocks(offset + |buf|) <= MAX_DATA_BLOCKS
      requires |Used(fs.g, fs.cache.logical)| + TotalBlocks(Max(|f|, offset + |buf|)) - TotalBlocks(|f|) <= fs.g.dataAreaBlocks
      requires |buf| > 0 || offset < |f| || offset % 512 != 0 || !Boundary(offset / 512)
      modifies ino, fs.cache
      ensures Quiet(fs.g, fs.cache) && fs.cache.handles == old(fs.cache.handles)
      ensures count == |buf| && ino.isDir == old(ino.isDir)
      ensures Opened(fs.g, fs.cache.logical, ino.Value(), p + v, Overwritten(f, offset, buf))
      ensures SameOutside(fs.g, old(fs.cache.logical), fs.cache.logical, p + v)
      ensures Used(fs.g, fs.cache.logical) == Used(fs.g, old(fs.cache.logical)) + Elements(v)
      ensures Distinct(v) && forall i :: 0 <= i < |v| ==> v[i] !in Used(fs.g, old(fs.cache.logical))
    {
      hide Coherent, At, Used, Holds, SameOutside, LaidTo, Spliced, SameButData, FreeAreZero;
      ghost var d := fs.cache.logical;
      v := IncreaseSize(offset + |buf|, ino, p, f);
      ghost var e := fs.cache.logical;
      count := ino.WriteAt(offset, buf, fs.cache, p + v);
      assert buf[..count] == buf;
      WrittenOpen(fs.g, d, e, fs.cache.logical, p + v, ino.Value(), f, offset, buf);
    }

    /** Grows and writes the inode and stores it, without writing the cache back. */
    method WriteThrough(offset: nat, buf: seq<Byte>) returns (count: nat)
      requires fs.Valid() && Refers()
      requires DataBlocks(offset + |buf|) <= MAX_DATA_BLOCKS
      requires |Used(fs.g, fs.cache.logical)| + Needs(offset + |buf|) <= fs.g.dataAreaBlocks
      requires |buf| > 0 || offset < |fs.files[id]| || offset % 512 != 0 || !Boundary(offset / 512)
      modifies fs`plans, fs`files, fs.cache
      ensures fs.Valid() && Refers() && |fs.plans| == |old(fs.plans)|
      ensures count == |buf|
      ensures fs.files == old(fs.files)[id := Overwritten(old(fs.files)[id], offset, buf)]
    {
      hide Coherent, Used, SameOutside, FreeAreZero, Flat, SuperAt, SlotIno, PutIno, BitIn, Opened, Distinct;
      ghost var d, p, f := fs.cache.logical, fs.plans[id], fs.files[id];
      var ino := OpenInode();
      ghost var v;
      count, v := GrowAndWrite(ino, offset, buf, p, f);
      WrittenSound(fs.g, d, fs.cache.logical, fs.plans, fs.files, id, v, ino.Value(), Overwritten(f, offset, buf));
      CloseInode(ino);
      fs.plans := fs.plans[id := p + v];
      fs.files := fs.files[id := Overwritten(f, offset, buf)];
    }

    /** `write_at`: the buffer is spliced in and any gap is filled with zeros.  A write
        of no bytes that ends a file at a boundary is left to `EmptyWritePastEnd`. */
    method WriteAt(offset: nat, buf: seq<Byte>) returns (count: nat)
      requires fs.Valid() && Refers()
      requires DataBlocks(offset + |buf|) <= MAX_DATA_BLOCKS
      requires |Used(fs.g, fs.cache.logical)| + Needs(offset + |buf|) <= fs.g.dataAreaBlocks
      requires |buf| > 0 || offset < |fs.files[id]| || offset % 512 != 0 || !Boundary(offset / 512)
      modifies fs`plans, fs`files, fs.cache
      ensures fs.Valid() && Refers() && |fs.plans| == |old(fs.plans)|
      ensures fs.cache.device == fs.cache.logical
      ensures count == |buf|
      ensures fs.files == old(fs.files)[id := Overwritten(old(fs.files)[id], offset, buf)]
    {
      hide Coherent, Sound;
      count := WriteThrough(offset, buf);
      fs.cache.SyncAll();
    }

    /** `read_at`: the stored slice, clipped at the end of the file. */
    method ReadAt(offset: nat, buf: array<Byte>) returns (count: nat)
      requires fs.Valid() && Refers()
      modifies buf, fs.cache
      ensures fs.Valid() && fs.cache.logical == old(fs.cache.logical)
      ensures count == 0 <==> offset >= |fs.files[id]| || buf.Length == 0
      ensures count > 0 ==> count <= buf.Length && offset + count <= |fs.files[id]|
      ensures count > 0 ==> count == buf.Length || offset + count == |fs.files[id]|
      ensures count > 0 ==> buf[..count] == fs.files[id][offset..offset + count]
      ensures buf[count..] == old(buf[count..])
      ensures old(fs.cache.Flushed()) ==> fs.cache.Flushed()
    {
      hide Coherent, Used, FreeAreZero, Flat, SuperAt, SlotIno, BitIn, Sound, Allocatable;
      var ino := OpenInode();
      count := ReadOpen(ino, offset, buf, fs.plans[id], fs.files[id]);
      fs.cache.Release(blockId);
    }

    /** `DiskInode::read_at` on an open inode, in terms of its file. */
    method ReadOpen(ino: DiskInode, offset: nat, buf: array<Byte>, ghost p: seq<nat>, ghost f: seq<Byte>) returns (count: nat)
      requires Quiet(fs.g, fs.cache) && Opened(fs.g, fs.cache.logical, ino.Value(), p, f)
      modifies buf, fs.cache
      ensures Quiet(fs.g, fs.cache) && fs.cache.handles == old(fs.cache.handles) && fs.cache.logical == old(fs.cache.logical)
      ensures count == Clipped(offset, buf.Length, |f|) <= buf.Length
      ensures count > 0 ==> buf[..count] == f[offset..offset + count]
      ensures buf[count..] == old(buf[count..])
      ensures old(fs.cache.Flushed()) ==> fs.cache.Flushed()
    {
      hide Coherent, Used, FileByte, At;
      count := ino.ReadAt(offset, buf, fs.cache, p);
      if count > 0 {
        forall i | 0 <= i < count ensures buf[i] == f[offset + i] {
          assert FileByte(fs.cache.logical, p, offset + i) == f[offset + i];
        }
      }
    }

    /** `clear`: the file becomes empty and all its blocks free and zero; the length
        assertion of the source holds because `clear_size` returns the whole plan. */
    method Clear()
      requires fs.Valid() && Refers()
      modifies fs`plans, fs`files, fs.cache
      ensures fs.Valid() && Refers() && |fs.plans| == |old(fs.plans)|
      ensures fs.cache.device == fs.cache.logical
      ensures fs.files == old(fs.files)[id := []]
    {
      hide Coherent, Used, FreeAreZero, Flat, SuperAt, SlotIno, PutIno, BitIn, Holds, At, IsZero, Elements;
      ghost var d, p := fs.cache.logical, fs.plans[id];
      var ino := OpenInode();
      var size := ino.size;
      var v := ino.ClearSize(fs.cache, p);
      assert |v| == TotalBlocks(size);
      fs.DeallocMany(v);
      ClearedSound(fs.g, d, fs.cache.logical, fs.plans, fs.files, id, ino.Value());
      CloseInode(ino);
      fs.plans := fs.plans[id := []];
      fs.files := fs.files[id := []];
      fs.cache.SyncAll();
    }

    /** `find_inode_id` on the open root directory. */
    method FindInodeId(name: Name, ino: DiskInode, ghost p: seq<nat>) returns (r: Option<nat>)
      requires Quiet(fs.g, fs.cache) && fs.Listed() && ino.isDir
      requires Opened(fs.g, fs.cache.logical, ino.Value(), p, fs.files[0])
      modifies fs.cache
      ensures Quiet(fs.g, fs.cache) && fs.cache.handles == old(fs.cache.handles) && fs.cache.logical == old(fs.cache.logical)
      ensures r.None? <==> name !in fs.names
      ensures r.Some? ==> 1 <= r.value <= |fs.names| && fs.names[r.value - 1] == name
      ensures old(fs.cache.Flushed()) ==> fs.cache.Flushed()
    {
      hide Quiet;
      var count := ino.size / 32;
      var dirent := new Byte[32](_ => 0);
      for i := 0 to count
        invariant Quiet(fs.g, fs.cache) && fs.cache.handles == old(fs.cache.handles) && fs.cache.logical == old(fs.cache.logical)
        invariant forall k :: 0 <= k < i ==> fs.names[k] != name
        invariant old(fs.cache.Flushed()) ==> fs.cache.Flushed()
      {
        ReadEntry(ino, i, dirent, p);
        if EntryName(dirent[..]) == name {
          return Some(EntryNumber(dirent[..]));
        }
      }
      return None;
    }

    /** Reads the `i`-th directory entry; the length assertion of the source holds. */
    method ReadEntry(ino: DiskInode, i: nat, dirent: array<Byte>, ghost p: seq<nat>)
      requires Quiet(fs.g, fs.cache) && fs.Listed() && i < |fs.names| && dirent.Length == 32
      requires Opened(fs.g, fs.cache.logical, ino.Value(), p, fs.files[0])
      modifies dirent, fs.cache
      ensures Quiet(fs.g, fs.cache) && fs.cache.handles == old(fs.cache.handles) && fs.cache.logical == old(fs.cache.logical)
      ensures EntryName(dirent[..]) == fs.names[i] && EntryNumber(dirent[..]) == i + 1
      ensures old(fs.cache.Flushed()) ==> fs.cache.Flushed()
    {
      hide Quiet, Opened, EntryName, EntryNumber, EntryBytes, DirBytes;
      var n := ReadOpen(ino, 32 * i, dirent, p, fs.files[0]);
      assert n == 32;
      DirBytesAt(fs.names, i);
      EntryRoundTrip(fs.names[i], i + 1);
      assert dirent[..] == dirent[..32];
    }

    /** `find`: a handle on the file of that name, exactly when there is one. */
    method Find(name: Name) returns (r: Inode?)
      requires fs.Valid() && fs.Listed() && Refers() && id == 0
      modifies fs.cache
      ensures fs.Valid() && fs.cache.logical == old(fs.cache.logical)
      ensures r == null <==> name !in fs.names
      ensures r != null ==> fresh(r) && r.fs == fs && r.Refers() && 0 < r.id && fs.names[r.id - 1] == name
      ensures old(fs.cache.Flushed()) ==> fs.cache.Flushed()
    {
      hide Coherent, Used, FreeAreZero, Flat, SuperAt, SlotIno, BitIn, Sound, Allocatable, Opened, DirBytes;
      var ino := OpenInode();
      var found := FindInodeId(name, ino, fs.plans[0]);
      fs.cache.Release(blockId);
      if found.None? {
        return null;
      }
      assert |fs.plans| == |fs.files| by {
        SoundLengths(fs.g, fs.cache.logical, fs.plans, fs.files);
      }
      var (b, o) := fs.InodePos(found.value);
      r := new Inode(b, o, fs, found.value);
    }

    /** `ls`: the names in order of creation. */
    method Ls() returns (v: seq<Name>)
      requires fs.Valid() && fs.Listed() && Refers() && id == 0
      modifies fs.cache
      ensures fs.Valid() && fs.cache.logical == old(fs.cache.logical)
      ensures v == fs.names
      ensures old(fs.cache.Flushed()) ==> fs.cache.Flushed()
    {
      hide Coherent, Used, FreeAreZero, Flat, SuperAt, SlotIno, BitIn, Sound, Allocatable, Opened;
      var ino := OpenInode();
      assert ino.size == |fs.files[0]| by {
        OpenedSize(fs.g, fs.cache.logical, ino.Value(), fs.plans[0], fs.files[0]);
      }
      hide DirBytes;
      v := [];
      var count := ino.size / 32;
      for i := 0 to count
        invariant Quiet(fs.g, fs.cache) && fs.cache.handles == multiset{blockId} && fs.cache.logical == old(fs.cache.logical)
        invariant Opened(fs.g, fs.cache.logical, ino.Value(), fs.plans[0], fs.files[0])
        invariant v == fs.names[..i] && (old(fs.cache.Flushed()) ==> fs.cache.Flushed())
      {
        var dirent := new Byte[32](_ => 0);
        ReadEntry(ino, i, dirent, fs.plans[0]);
        v := v + [EntryName(dirent[..])];
      }
      fs.cache.Release(blockId);
    }

    /** `create`: fails exactly when the name exists; otherwise the new file is empty,
        last in the directory, and no other file changes. */
    method Create(name: Name) returns (r: Inode?)
      requires fs.Valid() && fs.Listed() && Refers() && id == 0 && LegalName(name)
      requires name !in fs.names ==>
                 && |fs.plans| < fs.g.InodeBitmap().Maximum()
                 && DataBlocks(32 * |fs.plans|) <= MAX_DATA_BLOCKS
                 && |Used(fs.g, fs.cache.logical)| + Needs(32 * |fs.plans|) <= fs.g.dataAreaBlocks
      modifies fs`plans, fs`files, fs`names, fs.cache
      ensures fs.Valid() && fs.Listed() && Refers()
      ensures r == null <==> name in old(fs.names)
      ensures old(fs.cache.Flushed()) ==> fs.cache.Flushed()
      ensures r == null ==> fs.names == old(fs.names) && fs.files == old(fs.files) && fs.plans == old(fs.plans)
      ensures r != null ==>
                && fresh(r) && r.fs == fs && r.Refers() && r.id == |old(fs.files)|
                && fs.names == old(fs.names) + [name]
                && fs.files[1..] == old(fs.files)[1..] + [[]]
                && fs.cache.device == fs.cache.logical
    {
      hide Coherent, Used, FreeAreZero, Flat, SuperAt, SlotIno, BitIn, Sound, Allocatable, Opened, DirBytes;
      SoundLengths(fs.g, fs.cache.logical, fs.plans, fs.files);
      var ino := OpenInode();
      var found := FindInodeId(name, ino, fs.plans[0]);
      fs.cache.Release(blockId);
      if found.Some? {
        return null;
      }
      r := CreateNew(name);
    }

    /** The rest of `create`, once the name is known to be new. */
    method CreateNew(name: Name) returns (r: Inode)
      requires fs.Valid() && fs.Listed() && Refers() && id == 0 && LegalName(name) && name !in fs.names
      requires |fs.plans| < fs.g.InodeBitmap().Maximum() && DataBlocks(32 * |fs.plans|) <= MAX_DATA_BLOCKS
      requires |Used(fs.g, fs.cache.logical)| + Needs(32 * |fs.plans|) <= fs.g.dataAreaBlocks
      modifies fs`plans, fs`files, fs`names, fs.cache
      ensures fs.Valid() && fs.Listed() && Refers() && fs.cache.device == fs.cache.logical
      ensures fresh(r) && r.fs == fs && r.Refers() && r.id == |old(fs.files)|
      ensures fs.names == old(fs.names) + [name]
      ensures fs.files[1..] == old(fs.files)[1..] + [[]]
    {
      hide Coherent, Used, Sound, DirBytes, EntryBytes, Overwritten;
      SoundLengths(fs.g, fs.cache.logical, fs.plans, fs.files);
      ghost var names := fs.names;
      var newId := fs.NewInode();
      AppendName(names, name);
      var n := WriteThrough(32 * (newId - 1), EntryBytes(name, newId));
      fs.names := names + [name];
      var (b, o) := fs.InodePos(newId);
      fs.cache.SyncAll();
      r := new Inode(b, o, fs, newId);
    }
  }

  lemma SoundLengths(g: Geometry, d: Disk, plans: seq<seq<nat>>, files: seq<seq<Byte>>)
    requires Sound(g, d, plans, files)
    ensures |plans| == |files| >= 1
  {
  }

  lemma OpenedSize(g: Geometry, d: Disk, n: Ino, p: seq<nat>, f: seq<Byte>)
    requires Opened(g, d, n, p, f)
    ensures n.size == |f|
  {
  }

  /** Appending the entry of the next inode to a directory. */
  lemma AppendName(names: seq<Name>, name: Name)
    requires |names| + 1 < 0x1_0000_0000 && |name| <= 28 && forall k :: 0 <= k < |names| ==> |names[k]| <= 28
    ensures Overwritten(DirBytes(names), 32 * |names|, EntryBytes(name, |names| + 1)) == DirBytes(names + [name])
  {
    assert (names + [name])[..|names|] == names;
  }
}
