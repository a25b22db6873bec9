/** `EasyFileSystem`: allocation and release of data blocks through the cache. */
module Filesystem {
  import opened Common
  import opened Bytes
  import opened BlockCaching
  import opened Bitmaps
  import opened DiskLayout
  import opened EfsFormat
  import opened FsInvariant

  /** Enough for allocation: the regions are right and no surplus bit is set. */
  ghost predicate Allocatable(g: Geometry, d: Disk) {
    g.Ok() && |d| == g.total && forall b :: b in Used(g, d) ==> b < |d|
  }

  ghost predicate Quiet(g: Geometry, cache: BlockCacheManager)
    reads cache
  {
    && cache.Valid() && Allocatable(g, cache.logical) && |cache.handles| <= 1
    && forall b :: b in cache.handles ==> g.InodeStart() <= b < g.DataBitmap().start
  }

  ghost function Elements(v: seq<nat>): set<nat> { set x | x in v }

  lemma NoElements()
    ensures Distinct([]) && Elements([]) == {}
  {
  }

  lemma OneMoreElement(v: seq<nat>, b: nat)
    requires Distinct(v) && b !in Elements(v)
    ensures Distinct(v + [b]) && Elements(v + [b]) == Elements(v) + {b}
  {
    forall i | 0 <= i < |v| ensures v[i] != b {
      assert v[i] in Elements(v);
    }
    forall x | x in Elements(v) + {b} ensures x in v + [b] {
    }
  }

  /** A set that holds all of [from, from + n) has at least n elements. */
  lemma {:induction false} RunCounts(s: set<nat>, from: nat, n: nat)
    requires forall x :: from <= x < from + n ==> x in s
    ensures n <= |s|
  {
    if n > 0 {
      RunCounts(s - {from + n - 1}, from, n - 1);
    }
  }

  /** Every block zero except that block 0 holds the super block. */
  ghost predicate Blank(g: Geometry, d: Disk) {
    g.Ok() && |d| == g.total && SuperAt(d[0], g) && forall x :: 0 < x < |d| ==> IsZero(d[x])
  }

  lemma BlankBits(g: Geometry, d: Disk)
    requires Blank(g, d)
    ensures g.InodeBitmap().Bits(d) == {} && Used(g, d) == {}
  {
    hide SuperAt, LongAt;
    forall x, k | 0 < x < |d| && 0 <= k < 4096 ensures !BitIn(d[x], k) {
      ZeroWords(d[x]);
      NoBits(k % 64);
    }
  }

  lemma {:induction false} NoBits(i: nat)
    ensures !Bit(0, i)
  {
    if i > 0 {
      NoBits(i - 1);
    }
  }

  /** The image once inode 0 has been marked and set up as a directory. */
  lemma FormattedSound(g: Geometry, d: Disk, e: Disk, n: Ino)
    requires Blank(g, d) && g.InodeBitmap().OnlyBitmapDiffers(d, e)
    requires g.InodeBitmap().Bits(e) == g.InodeBitmap().Bits(d) + {0}
    requires IsEmpty(n) && n.isDir
    ensures g.InodeBlock(0) < |e|
    ensures Sound(g, e[g.InodeBlock(0) := PutIno(e[g.InodeBlock(0)], 0, n)], [[]], [[]])
  {
    hide BitIn, Used, SlotIno, PutIno, SuperAt, At, FileByte, IsZero;
    var b := g.InodeBlock(0);
    var e' := e[b := PutIno(e[b], 0, n)];
    BlankBits(g, d);
    PutInoSame(e[b], 0, n);
    BitsFrame(g.InodeBitmap(), e, e');
    UsedFrame(g, d, e');
    EmptyIsLaid(n, e');
    assert InodeSound(g, e', 0, [], []);
    assert Flat([[]]) == multiset(Used(g, e'));
    assert FreeAreZero(g, e');
  }

  /** Overwrites the inode in slot `s` of block `id`, as `initialize` does. */
  method StoreInode(cache: BlockCacheManager, id: nat, s: nat, n: Ino)
    requires cache.Valid() && cache.handles == multiset{} && id < |cache.logical| && s < 4 && |n.direct| == 28
    modifies cache
    ensures cache.Valid() && cache.handles == multiset{}
    ensures cache.logical == old(cache.logical)[id := PutIno(old(cache.logical)[id], s, n)]
  {
    hide Coherent, PutIno;
    cache.Lock(id);
    var b := cache.Read(id);
    cache.Modify(id, PutIno(b, s, n));
    cache.Release(id);
  }

  /** Clears all blocks and writes the super block. */
  method WriteBlank(cache: BlockCacheManager, g: Geometry)
    requires cache.Valid() && cache.handles == multiset{} && g.Ok() && |cache.logical| == g.total
    modifies cache
    ensures cache.Valid() && cache.handles == multiset{} && Blank(g, cache.logical)
  {
    hide Coherent, IsZero, FlatWords, SuperAt;
    for i := 0 to g.total
      invariant cache.Valid() && cache.handles == multiset{} && |cache.logical| == g.total
      invariant forall x :: 0 <= x < i ==> IsZero(cache.logical[x])
    {
      cache.WriteBlock(i, ZeroBlock());
    }
    cache.Lock(0);
    var super := cache.Read(0);
    SuperRoundTrip(super, g);
    cache.Modify(0, Splice(super, 0, FlatWords(SuperWords(g))));
    cache.Release(0);
  }

  /** The block operations of `EasyFileSystem::create`. */
  method FormatDevice(cache: BlockCacheManager, g: Geometry)
    requires cache.Valid() && cache.handles == multiset{} && g.Ok() && |cache.logical| == g.total
    modifies cache
    ensures cache.Valid() && cache.handles == multiset{} && cache.device == cache.logical
    ensures Sound(g, cache.logical, [[]], [[]])
  {
    hide Coherent, BitIn, Used, PutIno, Sound;
    WriteBlank(cache, g);
    ghost var d := cache.logical;
    BlankBits(g, d);
    hide Blank;
    var r := Alloc(g.InodeBitmap(), cache);
    LowestFree(g, d, 0, r);
    var n := Ino(0, EmptyDirect(), 0, 0, true);
    FormattedSound(g, d, cache.logical, n);
    StoreInode(cache, g.InodeBlock(0), 0, n);
    cache.SyncAll();
  }

  lemma ClearBitIsUnused(g: Geometry, d: Disk, k: nat)
    requires g.DataBitmap().Fits(d)
    ensures !g.DataBitmap().Has(d, k) ==> g.DataStart() + k !in Used(g, d)
  {
    hide BitIn;
  }

  /** `n` set bits from the start of the bitmap are `n` used blocks. */
  lemma SetBitsAreUsed(g: Geometry, d: Disk, n: nat)
    requires g.DataBitmap().Fits(d) && n <= g.DataBitmap().Maximum()
    requires forall k :: 0 <= k < n ==> g.DataBitmap().Has(d, k)
    ensures n <= |Used(g, d)|
  {
    hide BitIn;
    forall x | g.DataStart() <= x < g.DataStart() + n ensures x in Used(g, d) {
      assert g.DataBitmap().Has(d, x - g.DataStart());
    }
    RunCounts(Used(g, d), g.DataStart(), n);
  }

  /** Addition of `u32` values. */
  function Sum32(a: Word, b: Word): (r: Word)
    ensures r as int == a + b || r as int == a + b - 0x1_0000_0000
  {
    (a + b) % 0x1_0000_0000
  }

  class EasyFileSystem {
    const cache: BlockCacheManager
    const inodeBitmap: Bitmap
    const dataBitmap: Bitmap
    const inodeAreaStart: nat
    const dataAreaStart: nat
    ghost const g: Geometry
    /** The blocks of each inode, in layout order. */
    ghost var plans: seq<seq<nat>>
    /** The contents of each inode; inode 0 is the root directory. */
    ghost var files: seq<seq<Byte>>
    /** The names in the root directory, in order of creation. */
    ghost var names: seq<Name>

    ghost predicate Placed()
    {
      && inodeBitmap == g.InodeBitmap() && dataBitmap == g.DataBitmap()
      && inodeAreaStart == g.InodeStart() && dataAreaStart == g.DataStart()
    }

    /** The state between calls: nothing locked, the invariant on the blocks seen
        through the cache. */
    ghost predicate Valid()
      reads this, cache
    {
      Placed() && cache.Valid() && cache.handles == multiset{} && Sound(g, cache.logical, plans, files)
    }

    /** The root directory lists inode `k + 1` under the `k`-th name. */
    ghost predicate Listed()
      reads this
    {
      && |files| == |names| + 1 && |names| < 0x1_0000_0000
      && (forall k :: 0 <= k < |names| ==> LegalName(names[k]))
      && (forall j, k :: 0 <= j < k < |names| ==> names[j] != names[k])
      && files[0] == DirBytes(names)
    }

    /** `open`: asserts the magic number and rebuilds the regions, in 32-bit arithmetic,
        from the super block alone.  For an image in order that is the file system it
        holds. */
    constructor Open(cache: BlockCacheManager, ghost g: Geometry, ghost plans: seq<seq<nat>>,
                     ghost files: seq<seq<Byte>>, ghost names: seq<Name>)
      requires cache.Valid() && cache.handles == multiset{} && 0 < |cache.logical| && WordAt(cache.logical[0], 0) == EFS_MAGIC
      modifies cache
      ensures cache.Valid() && cache.handles == multiset{} && cache.logical == old(cache.logical)
      ensures this.cache == cache && this.g == g && this.plans == plans && this.files == files && this.names == names
      ensures var s := cache.logical[0];
              && inodeBitmap == Bitmap(1, WordAt(s, 2)) && inodeAreaStart == Sum32(1, WordAt(s, 2))
              && dataBitmap == Bitmap(Sum32(1, Sum32(WordAt(s, 2), WordAt(s, 3))), WordAt(s, 4))
              && dataAreaStart == Sum32(Sum32(1, Sum32(WordAt(s, 2), WordAt(s, 3))), WordAt(s, 4))
      ensures (Sound(g, cache.logical, plans, files) ==> Valid()) && (old(cache.Flushed()) ==> cache.Flushed())
    {
      hide Coherent, Flat, InodeSound, FreeAreZero, WordAt, Used, BitIn;
      var super := cache.ReadBlock(0);
      var inodeTotal := Sum32(WordAt(super, 2), WordAt(super, 3));
      this.cache := cache;
      inodeBitmap := Bitmap(1, WordAt(super, 2));
      dataBitmap := Bitmap(Sum32(1, inodeTotal), WordAt(super, 4));
      inodeAreaStart := Sum32(1, WordAt(super, 2));
      dataAreaStart := Sum32(Sum32(1, inodeTotal), WordAt(super, 4));
      this.g, this.plans, this.files, this.names := g, plans, files, names;
    }

    /** `create`: a fresh image with an empty root directory, already on the device. */
    constructor Create(cache: BlockCacheManager, total: nat, inodeBitmapBlocks: nat)
      requires cache.Valid() && cache.handles == multiset{} && |cache.logical| == total
      requires 0 < inodeBitmapBlocks && 1 + 1025 * inodeBitmapBlocks <= total < 0x1_0000_0000
      modifies cache
      ensures this.cache == cache && g == Format(total, inodeBitmapBlocks)
      ensures Valid() && Listed() && names == [] && plans == [[]] && cache.device == cache.logical
    {
      hide Coherent, BitIn, Used, SlotIno, PutIno, SuperAt, InodeSound, FreeAreZero;
      FormatIsOk(total, inodeBitmapBlocks);
      var f := Format(total, inodeBitmapBlocks);
      this.cache := cache;
      inodeBitmap, dataBitmap := f.InodeBitmap(), f.DataBitmap();
      inodeAreaStart, dataAreaStart := f.InodeStart(), f.DataStart();
      g, plans, files, names := f, [[]], [[]], [];
      FormatDevice(cache, f);
    }

    /** `alloc_data`: by pigeonhole the lowest clear bit is a real block while some
        data block is free, even if the bitmap has surplus bits. */
    method AllocData() returns (b: nat)
      requires Placed() && Quiet(g, cache) && |Used(g, cache.logical)| < g.dataAreaBlocks
      modifies cache
      ensures Quiet(g, cache) && cache.handles == old(cache.handles)
      ensures g.DataBitmap().OnlyBitmapDiffers(old(cache.logical), cache.logical)
      ensures g.DataStart() <= b < g.total && b !in Used(g, old(cache.logical))
      ensures Used(g, cache.logical) == Used(g, old(cache.logical)) + {b}
    {
      hide Coherent, BitIn, Used;
      ghost var d := cache.logical;
      var r := Alloc(dataBitmap, cache);
      ghost var n := if r.Some? then r.value else g.DataBitmap().Maximum();
      SetBitsAreUsed(g, d, n);
      ClearBitIsUnused(g, d, n);
      assert r.Some?;
      UsedFromBits(g, d, cache.logical, r.value);
      b := r.value + dataAreaStart;
    }

    /** The allocation loop of `Inode::increase_size`. */
    method AllocMany(n: nat) returns (v: seq<nat>)
      requires Placed() && Quiet(g, cache) && |Used(g, cache.logical)| + n <= g.dataAreaBlocks
      modifies cache
      ensures Quiet(g, cache) && cache.handles == old(cache.handles)
      ensures g.DataBitmap().OnlyBitmapDiffers(old(cache.logical), cache.logical)
      ensures |v| == n && Distinct(v)
      ensures forall i :: 0 <= i < n ==> g.DataStart() <= v[i] < g.total && v[i] !in Used(g, old(cache.logical))
      ensures Used(g, cache.logical) == Used(g, old(cache.logical)) + Elements(v)
    {
      hide Coherent, BitIn, Used, Distinct, Elements;
      v := [];
      NoElements();
      for k := 0 to n
        invariant Quiet(g, cache) && cache.handles == old(cache.handles)
        invariant g.DataBitmap().OnlyBitmapDiffers(old(cache.logical), cache.logical)
        invariant |v| == k && Distinct(v)
        invariant forall i :: 0 <= i < k ==> g.DataStart() <= v[i] < g.total && v[i] !in Used(g, old(cache.logical))
        invariant Used(g, cache.logical) == Used(g, old(cache.logical)) + Elements(v)
        invariant |Used(g, cache.logical)| == |Used(g, old(cache.logical))| + k
      {
        var b := AllocData();
        OneMoreElement(v, b);
        v := v + [b];
      }
    }

    /** `dealloc_data`: the block is zeroed before its bit is cleared. */
    method DeallocData(b: nat)
      requires Placed() && Quiet(g, cache) && b in Used(g, cache.logical)
      modifies cache
      ensures Quiet(g, cache) && cache.handles == old(cache.handles)
      ensures |cache.logical| == |old(cache.logical)| && IsZero(cache.logical[b])
      ensures forall x :: 0 <= x < |cache.logical| && x != b && !(g.DataBitmap().start <= x < g.DataStart()) ==>
                cache.logical[x] == old(cache.logical)[x]
      ensures Used(g, cache.logical) == Used(g, old(cache.logical)) - {b}
    {
      hide Coherent, BitIn;
      ghost var d := cache.logical;
      assert IsUsed(g, d, b);
      cache.WriteBlock(b, ZeroBlock());
      ghost var e := cache.logical;
      UsedFrame(g, d, e);
      assert IsUsed(g, e, b);
      Dealloc(dataBitmap, b - dataAreaStart, cache);
      UsedFromBits(g, e, cache.logical, b - g.DataStart());
    }

    /** `get_disk_inode_pos` */
    function InodePos(i: nat): (nat, nat) {
      (inodeAreaStart + i / 4, i % 4 * 128)
    }

    /** `alloc_inode` followed by `initialize` of the new inode: inode numbers are
        given out in order. */
    method NewInode() returns (i: nat)
      requires Valid() && |plans| < g.InodeBitmap().Maximum()
      modifies this`plans, this`files, cache
      ensures Valid() && i == |old(plans)|
      ensures plans == old(plans) + [[]] && files == old(files) + [[]]
      ensures Used(g, cache.logical) == Used(g, old(cache.logical))
    {
      hide Coherent, BitIn, Used, PutIno, Sound;
      ghost var d := cache.logical;
      SoundBits(g, d, plans, files);
      var r := Alloc(inodeBitmap, cache);
      LowestFree(g, d, |plans|, r);
      i := r.value;
      var (blockId, offset) := InodePos(i);
      ghost var e := cache.logical;
      var n := Ino(0, EmptyDirect(), 0, 0, false);
      StoreInode(cache, blockId, offset / 128, n);
      NewInodeSound(g, d, e, plans, files, n);
      plans, files := plans + [[]], files + [[]];
    }

    /** The release loop of `Inode::clear`. */
    method DeallocMany(v: seq<nat>)
      requires Placed() && Quiet(g, cache) && Distinct(v)
      requires forall i :: 0 <= i < |v| ==> v[i] in Used(g, cache.logical)
      modifies cache
      ensures Quiet(g, cache) && cache.handles == old(cache.handles)
      ensures |cache.logical| == |old(cache.logical)|
      ensures forall x :: 0 <= x < |cache.logical| && !(g.DataBitmap().start <= x < g.DataStart()) ==>
                if x in v then IsZero(cache.logical[x]) else cache.logical[x] == old(cache.logical)[x]
      ensures Used(g, cache.logical) == Used(g, old(cache.logical)) - Elements(v)
    {
      hide Coherent, BitIn, Used, IsZero, Elements;
      ghost var u := Used(g, cache.logical);
      NoElements();
      assert v[..0] == [];
      for k := 0 to |v|
        invariant Quiet(g, cache) && cache.handles == old(cache.handles)
        invariant |cache.logical| == |old(cache.logical)|
        invariant forall x :: 0 <= x < |cache.logical| && !(g.DataBitmap().start <= x < g.DataStart()) ==>
                    if x in v[..k] then IsZero(cache.logical[x]) else cache.logical[x] == old(cache.logical)[x]
        invariant Used(g, cache.logical) == u - Elements(v[..k])
      {
        TakeOne(v, k);
        DeallocData(v[k]);
      }
      assert v[..|v|] == v;
    }
  }

  lemma TakeOne(v: seq<nat>, k: nat)
    requires k < |v| && Distinct(v)
    ensures v[k] !in v[..k] && v[k] !in Elements(v[..k])
    ensures Elements(v[..k + 1]) == Elements(v[..k]) + {v[k]}
    ensures forall x :: x in v[..k + 1] <==> x in v[..k] || x == v[k]
  {
    assert v[..k + 1] == v[..k] + [v[k]];
    OneMoreElement(v[..k], v[k]);
  }

  function EmptyDirect(): (r: seq<Word>)
    ensures |r| == 28 && forall i :: 0 <= i < 28 ==> r[i] == 0
  {
    seq(28, _ => 0)
  }

  lemma SoundMagic(g: Geometry, d: Disk, plans: seq<seq<nat>>, files: seq<seq<Byte>>)
    requires Sound(g, d, plans, files)
    ensures 0 < |d| && WordAt(d[0], 0) == EFS_MAGIC
  {
    hide BitIn, Used, InodeSound, Flat, FreeAreZero, WordAt;
  }

  lemma SoundBits(g: Geometry, d: Disk, plans: seq<seq<nat>>, files: seq<seq<Byte>>)
    requires Sound(g, d, plans, files)
    ensures g.Ok() && |d| == g.total && g.InodeBitmap().Fits(d) && |plans| == |files| <= g.InodeBitmap().Maximum()
    ensures forall k: nat :: k in g.InodeBitmap().Bits(d) <==> k < |plans|
  {
    hide BitIn, Used, SuperAt, InodeSound, Flat, FreeAreZero;
  }

  lemma LowestFree(g: Geometry, d: Disk, n: nat, r: Option<nat>)
    requires g.InodeBitmap().Fits(d) && n < g.InodeBitmap().Maximum()
    requires forall k: nat :: k in g.InodeBitmap().Bits(d) <==> k < n
    requires r.None? <==> forall k :: 0 <= k < g.InodeBitmap().Maximum() ==> g.InodeBitmap().Has(d, k)
    requires r.Some? ==> r.value < g.InodeBitmap().Maximum() && !g.InodeBitmap().Has(d, r.value)
    requires r.Some? ==> forall k :: 0 <= k < r.value ==> g.InodeBitmap().Has(d, k)
    ensures r == Some(n)
  {
    hide BitIn;
    assert forall k :: 0 <= k < g.InodeBitmap().Maximum() ==> (g.InodeBitmap().Has(d, k) <==> k in g.InodeBitmap().Bits(d));
    assert !g.InodeBitmap().Has(d, n);
  }

  lemma NewInodeSound(g: Geometry, d: Disk, e: Disk, plans: seq<seq<nat>>, files: seq<seq<Byte>>, n: Ino)
    requires Sound(g, d, plans, files) && |plans| < g.InodeBitmap().Maximum()
    requires g.InodeBitmap().OnlyBitmapDiffers(d, e)
    requires g.InodeBitmap().Bits(e) == g.InodeBitmap().Bits(d) + {|plans|}
    requires IsEmpty(n) && !n.isDir
    ensures g.InodeBlock(|plans|) < |e|
    ensures var i := |plans|;
            var e' := e[g.InodeBlock(i) := PutIno(e[g.InodeBlock(i)], g.InodeSlot(i), n)];
            Sound(g, e', plans + [[]], files + [[]]) && Used(g, e') == Used(g, d)
  {
    hide BitIn, Used, PutIno, SuperAt, InodeSound, SlotIno;
    var i := |plans|;
    var b := g.InodeBlock(i);
    var e' := e[b := PutIno(e[b], g.InodeSlot(i), n)];
    var plans', files' := plans + [[]], files + [[]];
    BitsFrame(g.InodeBitmap(), e, e');
    UsedFrame(g, d, e');
    assert plans'[..|plans|] == plans;
    assert Flat(plans') == multiset(Used(g, e'));
    hide Flat;
    forall j | 0 <= j < |plans'| ensures InodeSound(g, e', j, plans'[j], files'[j]) {
      if j < |plans| {
        OldInodeSound(g, d, e, plans, files, n, j);
      } else {
        NewInodeIsSound(g, e, i, n);
      }
    }
    assert FreeAreZero(g, e');
  }

  lemma NewInodeIsSound(g: Geometry, e: Disk, i: nat, n: Ino)
    requires g.InodeBlock(i) < |e| && IsEmpty(n) && !n.isDir && 0 < i
    ensures InodeSound(g, e[g.InodeBlock(i) := PutIno(e[g.InodeBlock(i)], g.InodeSlot(i), n)], i, [], [])
  {
    hide SlotIno, PutIno, At, FileByte;
    PutInoSame(e[g.InodeBlock(i)], g.InodeSlot(i), n);
    EmptyIsLaid(n, e[g.InodeBlock(i) := PutIno(e[g.InodeBlock(i)], g.InodeSlot(i), n)]);
  }

  lemma OldInodeSound(g: Geometry, d: Disk, e: Disk, plans: seq<seq<nat>>, files: seq<seq<Byte>>, n: Ino, j: nat)
    requires Sound(g, d, plans, files) && j < |plans| < g.InodeBitmap().Maximum()
    requires g.InodeBitmap().OnlyBitmapDiffers(d, e) && |n.direct| == 28
    ensures var i := |plans|;
            InodeSound(g, e[g.InodeBlock(i) := PutIno(e[g.InodeBlock(i)], g.InodeSlot(i), n)], j, plans[j], files[j])
  {
    hide BitIn, Used, SlotIno, PutIno, SuperAt, At, FileByte, Flat, Holds;
    var i := |plans|;
    var b := g.InodeBlock(i);
    InodeSlotsDisjoint(g, i, j);
    if g.InodeBlock(j) == b {
      PutInoOther(e[b], g.InodeSlot(i), n, g.InodeSlot(j));
    }
    PlanOk(g, d, plans, files, j);
    assert InodeSound(g, d, j, plans[j], files[j]);
    InodeSoundFrame(g, d, e[b := PutIno(e[b], g.InodeSlot(i), n)], j, plans[j], files[j]);
  }
}
