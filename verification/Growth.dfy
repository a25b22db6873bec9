/** An inode's whole life: any sequence of growths from empty, then `clear_size`. */
module InodeLife {
  import opened Bytes
  import opened BlockCaching
  import opened DiskLayout

  ghost predicate Ascending(sizes: seq<nat>) {
    forall i, j :: 0 <= i < j < |sizes| ==> sizes[i] <= sizes[j]
  }

  function Reached(sizes: seq<nat>, i: nat): nat
    requires i <= |sizes|
  {
    if i == 0 then 0 else sizes[i - 1]
  }

  lemma ServesPrefix(cache: BlockCacheManager, p: seq<nat>, k: nat)
    requires Serves(cache, p) && k <= |p|
    ensures Serves(cache, p[..k])
  {
    hide Coherent;
  }

  /** One growth to `to`, given the next blocks in order. */
  method GrowTo(ino: DiskInode, to: nat, blocks: seq<nat>, cache: BlockCacheManager)
    requires ino.size <= to && DataBlocks(to) <= MAX_DATA_BLOCKS && TotalBlocks(ino.size) <= TotalBlocks(to) <= |blocks|
    requires Serves(cache, blocks) && Settled(ino.Value(), cache.logical, blocks[..TotalBlocks(ino.size)])
    modifies ino, cache
    ensures Serves(cache, blocks) && cache.handles == old(cache.handles)
    ensures ino.size == to && Settled(ino.Value(), cache.logical, blocks[..TotalBlocks(to)])
  {
    hide Coherent, Settled, TotalBlocks, IsMeta;
    var a, b := TotalBlocks(ino.size), TotalBlocks(to);
    assert blocks[..a] + blocks[a..b] == blocks[..b];
    ServesPrefix(cache, blocks, b);
    ino.IncreaseSize(to, blocks[a..b], cache, blocks[..a]);
  }

  /** Each growth takes exactly the blocks it is given, and clearing gives back all of
      them, in the order in which they were given. */
  method GrowThenClear(ino: DiskInode, sizes: seq<nat>, blocks: seq<nat>, cache: BlockCacheManager) returns (v: seq<nat>)
    requires IsEmpty(ino.Value()) && Ascending(sizes) && DataBlocks(Reached(sizes, |sizes|)) <= MAX_DATA_BLOCKS
    requires |blocks| == TotalBlocks(Reached(sizes, |sizes|)) && Serves(cache, blocks)
    modifies ino, cache
    ensures v == blocks && IsEmpty(ino.Value())
    ensures Serves(cache, blocks) && cache.handles == old(cache.handles)
  {
    hide Coherent, Settled, TotalBlocks, DataBlocks, Serves, IsEmpty;
    StartsEmpty(ino.Value(), cache.logical, blocks);
    for i := 0 to |sizes|
      invariant ino.size == Reached(sizes, i)
      invariant Serves(cache, blocks) && cache.handles == old(cache.handles)
      invariant TotalBlocks(ino.size) <= |blocks| && Settled(ino.Value(), cache.logical, blocks[..TotalBlocks(ino.size)])
    {
      SizesGrow(ino.size, sizes[i], Reached(sizes, |sizes|));
      GrowTo(ino, sizes[i], blocks, cache);
    }
    assert blocks[..|blocks|] == blocks;
    v := ino.ClearSize(cache, blocks);
  }

  lemma StartsEmpty(n: Ino, d: Disk, blocks: seq<nat>)
    requires IsEmpty(n)
    ensures n.size == 0 && TotalBlocks(0) == 0 && Settled(n, d, blocks[..0])
  {
    assert blocks[..0] == [];
    EmptyIsLaid(n, d);
  }

  lemma SizesGrow(a: nat, b: nat, c: nat)
    requires a <= b <= c
    ensures TotalBlocks(a) <= TotalBlocks(b) <= TotalBlocks(c) && DataBlocks(b) <= DataBlocks(c)
  {
    TotalForMonotone(DataBlocks(a), DataBlocks(b));
    TotalForMonotone(DataBlocks(b), DataBlocks(c));
  }
}
