/** On-disk bitmaps: a run of blocks read as 64-bit words, refining a set. */
module Bitmaps {
  import opened Common
  import opened Bytes
  import opened BlockCaching

  // A block holds 4096 bits (BLOCK_BITS in the source).

  // ----- bits of a machine word

  function Pow2(k: nat): (r: nat)
    ensures r > 0
  {
    if k == 0 then 1 else 2 * Pow2(k - 1)
  }

  predicate Bit(n: nat, i: nat) {
    if i == 0 then n % 2 == 1 else Bit(n / 2, i - 1)
  }

  /** `n.trailing_ones()` */
  function TrailingOnes(n: nat): nat {
    if n % 2 == 1 then 1 + TrailingOnes(n / 2) else 0
  }

  /** `n | 1 << i` */
  function WithBit(n: nat, i: nat): nat {
    if Bit(n, i) then n else n + Pow2(i)
  }

  lemma {:induction false} TrailingOnesLowestClear(n: nat, m: nat)
    requires n < Pow2(m)
    ensures !Bit(n, TrailingOnes(n))
    ensures forall j :: 0 <= j < TrailingOnes(n) ==> Bit(n, j)
    ensures TrailingOnes(n) <= m
    ensures TrailingOnes(n) == m <==> n == Pow2(m) - 1
  {
    if n % 2 == 1 {
      TrailingOnesLowestClear(n / 2, m - 1);
      forall j | 0 <= j < TrailingOnes(n) ensures Bit(n, j) {
        if j > 0 {
          assert Bit(n / 2, j - 1);
        }
      }
    }
  }

  lemma {:induction false} WithBitAt(n: nat, i: nat, j: nat)
    ensures Bit(WithBit(n, i), j) <==> j == i || Bit(n, j)
  {
    if !Bit(n, i) && i > 0 {
      assert (n + Pow2(i)) / 2 == n / 2 + Pow2(i - 1);
      if j > 0 {
        WithBitAt(n / 2, i - 1, j - 1);
      }
    }
  }

  lemma {:induction false} WithBitBound(n: nat, i: nat, m: nat)
    requires n < Pow2(m) && i < m
    ensures WithBit(n, i) < Pow2(m)
  {
    var h, p := n / 2, Pow2(m - 1);
    assert h < p;
    if i > 0 {
      WithBitBound(h, i - 1, m - 1);
      var s := Pow2(i - 1);
      assert !Bit(n, i) ==> h + s < p;
    }
  }

  /** Subtracting a set bit clears that bit and no other. */
  lemma {:induction false} SubtractBitAt(n: nat, i: nat, j: nat)
    requires Bit(n, i)
    ensures Pow2(i) <= n
    ensures Bit(n - Pow2(i), j) <==> j != i && Bit(n, j)
  {
    if i > 0 {
      SubtractBitAt(n / 2, i - 1, if j > 0 then j - 1 else 0);
      assert (n - Pow2(i)) / 2 == n / 2 - Pow2(i - 1);
    }
  }

  lemma {:induction false} Pow2Adds(a: nat, b: nat)
    ensures Pow2(a + b) == Pow2(a) * Pow2(b)
  {
    if a > 0 {
      Pow2Adds(a - 1, b);
    }
  }

  lemma Pow2Of1()
    ensures Pow2(1) == 2
  {
  }

  lemma Pow2Of64()
    ensures Pow2(64) == 0x1_0000_0000_0000_0000
  {
    hide Pow2;
    Pow2Of1();
    Pow2Adds(1, 1);
    Pow2Adds(2, 2);
    Pow2Adds(4, 4);
    Pow2Adds(8, 8);
    Pow2Adds(16, 16);
    Pow2Adds(32, 32);
  }

  // ----- bits of a block and of a bitmap

  predicate BitIn(b: Block, k: nat)
    requires k < 4096
  {
    Bit(LongAt(b, k / 64), k % 64)
  }

  function SetBitIn(b: Block, k: nat): Block
    requires k < 4096
  {
    WordFits(b, k);
    PutLong(b, k / 64, WithBit(LongAt(b, k / 64), k % 64))
  }

  lemma WordFits(b: Block, k: nat)
    requires k < 4096
    ensures WithBit(LongAt(b, k / 64), k % 64) < 0x1_0000_0000_0000_0000
  {
    Pow2Of64();
    WithBitBound(LongAt(b, k / 64), k % 64, 64);
  }

  function ClearBitIn(b: Block, k: nat): Block
    requires k < 4096 && BitIn(b, k)
  {
    SubtractBitAt(LongAt(b, k / 64), k % 64, 0);
    PutLong(b, k / 64, LongAt(b, k / 64) - Pow2(k % 64))
  }

  lemma SetBitInAt(b: Block, k: nat, j: nat)
    requires k < 4096 && j < 4096
    ensures BitIn(SetBitIn(b, k), j) <==> j == k || BitIn(b, j)
  {
    WordFits(b, k);
    PutLongAt(b, k / 64, WithBit(LongAt(b, k / 64), k % 64), j / 64);
    WithBitAt(LongAt(b, k / 64), k % 64, j % 64);
  }

  lemma ClearBitInAt(b: Block, k: nat, j: nat)
    requires k < 4096 && j < 4096 && BitIn(b, k)
    ensures BitIn(ClearBitIn(b, k), j) <==> j != k && BitIn(b, j)
  {
    SubtractBitAt(LongAt(b, k / 64), k % 64, j % 64);
    PutLongAt(b, k / 64, LongAt(b, k / 64) - Pow2(k % 64), j / 64);
  }

  datatype Bitmap = Bitmap(start: nat, blocks: nat) {

    /** `Bitmap::maximum` */
    function Maximum(): nat { blocks * 4096 }

    ghost predicate Fits(d: Disk) { start + blocks <= |d| }

    ghost predicate Has(d: Disk, k: nat)
      requires Fits(d)
    {
      k < Maximum() && BitIn(d[start + k / 4096], k % 4096)
    }

    /** The set that the bitmap represents. */
    ghost function Bits(d: Disk): set<nat>
      requires Fits(d)
    {
      set k | 0 <= k < Maximum() && Has(d, k)
    }

    /** `d'` differs from `d` inside the bitmap's blocks only. */
    ghost predicate OnlyBitmapDiffers(d: Disk, d': Disk) {
      && |d'| == |d|
      && forall id :: 0 <= id < |d| && !(start <= id < start + blocks) ==> d'[id] == d[id]
    }
  }

  lemma SetBitOnDisk(m: Bitmap, d: Disk, k: nat)
    requires m.Fits(d) && k < m.Maximum()
    ensures var d' := d[m.start + k / 4096 := SetBitIn(d[m.start + k / 4096], k % 4096)];
            m.Bits(d') == m.Bits(d) + {k}
  {
    hide BitIn, SetBitIn;
    var id := m.start + k / 4096;
    var d' := d[id := SetBitIn(d[id], k % 4096)];
    forall j | 0 <= j < m.Maximum() ensures m.Has(d', j) <==> j == k || m.Has(d, j) {
      SamePlace(j, k);
      if j / 4096 == k / 4096 {
        SetBitInAt(d[id], k % 4096, j % 4096);
      }
    }
  }

  lemma ClearBitOnDisk(m: Bitmap, d: Disk, k: nat)
    requires m.Fits(d) && m.Has(d, k)
    ensures var d' := d[m.start + k / 4096 := ClearBitIn(d[m.start + k / 4096], k % 4096)];
            m.Bits(d') == m.Bits(d) - {k}
  {
    hide BitIn, ClearBitIn;
    var id := m.start + k / 4096;
    var d' := d[id := ClearBitIn(d[id], k % 4096)];
    forall j | 0 <= j < m.Maximum() ensures m.Has(d', j) <==> j != k && m.Has(d, j) {
      SamePlace(j, k);
      if j / 4096 == k / 4096 {
        ClearBitInAt(d[id], k % 4096, j % 4096);
      }
    }
  }

  lemma SamePlace(j: nat, k: nat)
    ensures j == k <==> j / 4096 == k / 4096 && j % 4096 == k % 4096
  {
  }

  lemma BitsOfWord(b: Block, w: nat)
    requires w < 64
    ensures LongAt(b, w) == 0xFFFF_FFFF_FFFF_FFFF ==> forall j :: 64 * w <= j < 64 * w + 64 ==> BitIn(b, j)
    ensures LongAt(b, w) != 0xFFFF_FFFF_FFFF_FFFF ==>
              var t := TrailingOnes(LongAt(b, w));
              t < 64 && !BitIn(b, 64 * w + t) && forall j :: 64 * w <= j < 64 * w + t ==> BitIn(b, j)
  {
    Pow2Of64();
    TrailingOnesLowestClear(LongAt(b, w), 64);
    forall j | 64 * w <= j < 64 * w + 64 ensures j / 64 == w && j % 64 == j - 64 * w {
    }
  }

  /** The search inside one bitmap block: first word that is not all ones, then
      its trailing ones. */
  method LowestClearIn(b: Block) returns (r: nat)
    ensures r <= 4096
    ensures forall j :: 0 <= j < r ==> BitIn(b, j)
    ensures r < 4096 ==> !BitIn(b, r)
  {
    hide BitIn;
    var w := 0;
    while w < 64 && LongAt(b, w) == 0xFFFF_FFFF_FFFF_FFFF
      invariant 0 <= w <= 64
      invariant forall j :: 0 <= j < 64 * w ==> BitIn(b, j)
    {
      BitsOfWord(b, w);
      w := w + 1;
    }
    if w == 64 {
      return 4096;
    }
    BitsOfWord(b, w);
    r := 64 * w + TrailingOnes(LongAt(b, w));
  }

  ghost predicate Usable(m: Bitmap, cache: BlockCacheManager)
    reads cache
  {
    && cache.Valid() && m.Fits(cache.logical) && |cache.handles| < BLOCK_CACHE_SIZE
    && forall id :: m.start <= id < m.start + m.blocks ==> id !in cache.handles
  }

  lemma HasIn(m: Bitmap, d: Disk, i: nat)
    requires m.Fits(d) && i < m.blocks
    ensures forall k :: i * 4096 <= k < (i + 1) * 4096 ==> (m.Has(d, k) <==> BitIn(d[m.start + i], k - i * 4096))
  {
    forall k | i * 4096 <= k < (i + 1) * 4096 ensures k / 4096 == i && k % 4096 == k - i * 4096 && k < m.Maximum() {
    }
  }

  lemma LowestClearOnDisk(m: Bitmap, d: Disk, i: nat, b: Block, pos: nat)
    requires m.Fits(d) && i < m.blocks && pos < 4096 && b == d[m.start + i]
    requires forall j :: 0 <= j < pos ==> BitIn(b, j)
    requires !BitIn(b, pos)
    ensures var k := i * 4096 + pos;
            var d' := d[m.start + i := SetBitIn(b, pos)];
            && m.OnlyBitmapDiffers(d, d')
            && k < m.Maximum() && !m.Has(d, k) && m.Bits(d') == m.Bits(d) + {k}
            && forall j :: i * 4096 <= j < k ==> m.Has(d, j)
  {
    hide BitIn, SetBitIn;
    var k := i * 4096 + pos;
    assert k / 4096 == i && k % 4096 == pos;
    HasIn(m, d, i);
    SetBitOnDisk(m, d, k);
  }

  /** The closure given to `modify`: finds and sets the lowest clear bit of the block. */
  method TakeLowest(id: nat, cache: BlockCacheManager) returns (pos: nat)
    requires cache.Valid() && id in cache.handles && id < |cache.logical|
    modifies cache`queue, cache`logical
    ensures cache.Valid() && pos <= 4096
    ensures forall j :: 0 <= j < pos ==> BitIn(old(cache.logical)[id], j)
    ensures pos < 4096 ==> !BitIn(old(cache.logical)[id], pos)
    ensures cache.logical ==
              if pos < 4096 then old(cache.logical)[id := SetBitIn(old(cache.logical)[id], pos)] else old(cache.logical)
  {
    hide BitIn, SetBitIn, Coherent;
    var b := cache.Read(id);
    pos := LowestClearIn(b);
    cache.Modify(id, if pos < 4096 then SetBitIn(b, pos) else b);
  }

  /** One round of the loop in `Bitmap::alloc`. */
  method AllocInBlock(m: Bitmap, i: nat, cache: BlockCacheManager) returns (r: Option<nat>)
    requires Usable(m, cache) && i < m.blocks
    modifies cache
    ensures Usable(m, cache) && cache.handles == old(cache.handles)
    ensures r.None? ==> cache.logical == old(cache.logical)
    ensures r.None? ==> forall k :: i * 4096 <= k < (i + 1) * 4096 ==> m.Has(cache.logical, k)
    ensures r.Some? ==> m.OnlyBitmapDiffers(old(cache.logical), cache.logical)
    ensures r.Some? ==> i * 4096 <= r.value < m.Maximum() && !m.Has(old(cache.logical), r.value)
    ensures r.Some? ==> forall k :: i * 4096 <= k < r.value ==> m.Has(old(cache.logical), k)
    ensures r.Some? ==> m.Bits(cache.logical) == m.Bits(old(cache.logical)) + {r.value}
  {
    hide BitIn, SetBitIn, Coherent;
    var id := i + m.start;
    ghost var d := cache.logical;
    cache.Lock(id);
    var pos := TakeLowest(id, cache);
    cache.Release(id);
    assert cache.handles == old(cache.handles);
    HasIn(m, d, i);
    if pos == 4096 {
      return None;
    }
    LowestClearOnDisk(m, d, i, d[id], pos);
    r := Some(i * 4096 + pos);
  }

  /** `Bitmap::alloc`: the lowest clear bit over all blocks, if there is one. */
  method Alloc(m: Bitmap, cache: BlockCacheManager) returns (r: Option<nat>)
    requires Usable(m, cache)
    modifies cache
    ensures Usable(m, cache) && cache.handles == old(cache.handles)
    ensures m.OnlyBitmapDiffers(old(cache.logical), cache.logical)
    ensures r.None? <==> forall k :: 0 <= k < m.Maximum() ==> m.Has(old(cache.logical), k)
    ensures r.None? ==> cache.logical == old(cache.logical)
    ensures r.Some? ==> r.value < m.Maximum() && !m.Has(old(cache.logical), r.value)
    ensures r.Some? ==> forall k :: 0 <= k < r.value ==> m.Has(old(cache.logical), k)
    ensures r.Some? ==> m.Bits(cache.logical) == m.Bits(old(cache.logical)) + {r.value}
  {
    for i := 0 to m.blocks
      invariant Usable(m, cache) && cache.handles == old(cache.handles) && cache.logical == old(cache.logical)
      invariant forall k :: 0 <= k < i * 4096 ==> m.Has(cache.logical, k)
    {
      r := AllocInBlock(m, i, cache);
      if r.Some? {
        return;
      }
    }
    return None;
  }

  /** `Bitmap::dealloc`; the source asserts that the bit is set. */
  method Dealloc(m: Bitmap, k: nat, cache: BlockCacheManager)
    requires Usable(m, cache)
    requires m.Has(cache.logical, k)
    modifies cache
    ensures Usable(m, cache) && cache.handles == old(cache.handles)
    ensures m.OnlyBitmapDiffers(old(cache.logical), cache.logical)
    ensures m.Bits(cache.logical) == m.Bits(old(cache.logical)) - {k}
  {
    hide BitIn, ClearBitIn, Coherent;
    var id := k / 4096 + m.start;
    ClearBitOnDisk(m, cache.logical, k);
    cache.Lock(id);
    var b := cache.Read(id);
    cache.Modify(id, ClearBitIn(b, k % 4096));
    cache.Release(id);
    assert cache.handles == old(cache.handles);
  }
}
