/** The inode's block tree.  All blocks of an inode, index blocks included, have a
    fixed place in one "layout order": a file of `d` data blocks uses exactly the
    first `TotalFor(d)` places, so growing appends and shrinking cuts. */
module DiskLayout {
  import opened Bytes
  import opened BlockCaching

  // An inode has 28 direct blocks, one indirect block of 128 words and one double
  // indirect block: 28 + 128 = 156 data blocks before the 128 * 128 double indirect ones.
  const MAX_DATA_BLOCKS: nat := 16540

  /** The value of a disk inode. */
  datatype Ino = Ino(size: Word, direct: seq<Word>, indirect1: Word, indirect2: Word, isDir: bool)

  function DataBlocks(size: nat): nat { (size + 511) / 512 }

  /** The fewest blocks of 512 bytes that hold the file. */
  lemma FewestBlocks(size: nat, d: nat)
    ensures DataBlocks(size) <= d <==> size <= 512 * d
  {
  }

  /** `total_blocks`, in terms of the number of data blocks. */
  function TotalFor(d: nat): nat {
    d + (if d > 28 then 1 else 0) + (if d > 156 then 1 + (d - 156 + 127) / 128 else 0)
  }

  function TotalBlocks(size: nat): nat { TotalFor(DataBlocks(size)) }

  /** Word `i` of block `b`; 0 outside the disk. */
  function Entry(d: Disk, b: nat, i: nat): nat {
    if b < |d| && i < 128 then WordAt(d[b], i) else 0
  }

  /** `get_block_id` */
  function BlockId(n: Ino, d: Disk, k: nat): nat {
    if k < 28 then if k < |n.direct| then n.direct[k] else 0
    else if k < 156 then Entry(d, n.indirect1, k - 28)
    else Entry(d, Entry(d, n.indirect2, (k - 156) / 128), (k - 156) % 128)
  }

  /** The block at place `i` of the layout order. */
  function At(n: Ino, d: Disk, i: nat): nat {
    if i < 28 then if i < |n.direct| then n.direct[i] else 0
    else if i == 28 then n.indirect1
    else if i < 157 then Entry(d, n.indirect1, i - 29)
    else if i == 157 then n.indirect2
    else if (i - 158) % 129 == 0 then Entry(d, n.indirect2, (i - 158) / 129)
    else Entry(d, Entry(d, n.indirect2, (i - 158) / 129), (i - 158) % 129 - 1)
  }

  /** The place of data block `k`. */
  function DataPos(k: nat): nat {
    if k < 28 then k else if k < 156 then k + 1 else 159 + 129 * ((k - 156) / 128) + (k - 156) % 128
  }

  /** The places of index blocks. */
  predicate IsMeta(i: nat) {
    i == 28 || i == 157 || (i >= 158 && (i - 158) % 129 == 0)
  }

  /** The tree can list exactly so many data blocks. */
  lemma WholeTree(k: nat)
    ensures k < MAX_DATA_BLOCKS <==> k < 28 + 128 || (k - 156) / 128 < 128
  {
  }

  /** A file needs the places up to that of its last data block, and no more. */
  lemma TotalIsLastPlace(d: nat)
    ensures TotalFor(d) == if d == 0 then 0 else DataPos(d - 1) + 1
  {
  }

  /** Every place below `TotalFor(d)` is an index block or one of the `d` data
      blocks, and these are all different places. */
  lemma PlacesOfDataBlocks(d: nat, k: nat)
    requires k < d
    ensures DataPos(k) < TotalFor(d) && !IsMeta(DataPos(k))
    ensures TotalFor(k) <= DataPos(k) < TotalFor(k + 1) <= TotalFor(d)
  {
    if k >= 156 {
      var a, b := (k - 156) / 128, (k - 156) % 128;
      assert k == 156 + 128 * a + b;
      assert DataPos(k) - 158 == 129 * a + (1 + b);
      assert (129 * a + (1 + b)) % 129 == 1 + b;
      assert (k + 1 - 156 + 127) / 128 == a + 1;
      assert (d - 156 + 127) / 128 >= a + 1;
    }
  }

  lemma DataPosInjective(j: nat, k: nat)
    requires j < k
    ensures DataPos(j) < DataPos(k)
  {
    PlacesOfDataBlocks(k, j);
    PlacesOfDataBlocks(k + 1, k);
  }

  /** `get_block_id` finds data block `k` at its place in the layout order. */
  lemma BlockIdIsAt(n: Ino, d: Disk, k: nat)
    ensures BlockId(n, d, k) == At(n, d, DataPos(k))
  {
    if k >= 156 {
      var a, b := (k - 156) / 128, (k - 156) % 128;
      assert DataPos(k) - 158 == 129 * a + (1 + b);
      assert (129 * a + (1 + b)) % 129 == 1 + b && (129 * a + (1 + b)) / 129 == a;
    }
  }

  lemma TotalForMonotone(c: nat, d: nat)
    requires c <= d
    ensures TotalFor(c) <= TotalFor(d)
  {
  }

  ghost predicate Distinct(p: seq<nat>) {
    forall i, j :: 0 <= i < j < |p| ==> p[i] != p[j]
  }

  ghost predicate Within(p: seq<nat>, n: nat) {
    forall i :: 0 <= i < |p| ==> p[i] < n
  }

  /** The first `k` places of the inode hold the first `k` blocks of `p`. */
  ghost predicate LaidTo(n: Ino, d: Disk, p: seq<nat>, k: nat) {
    && |n.direct| == 28 && k <= |p|
    && forall i :: 0 <= i < k ==> At(n, d, i) == p[i]
  }

  /** The index block in which place `i` is written, or -1 for the inode itself. */
  function Parent(i: nat): int {
    if i <= 28 || i == 157 then -1
    else if i < 157 then 28
    else if (i - 158) % 129 == 0 then 157
    else 158 + 129 * ((i - 158) / 129)
  }

  /** Places from `k` on, as far as there is somewhere to read them from, are 0. */
  ghost predicate Vacant(n: Ino, d: Disk, k: nat) {
    forall i :: k <= i < 16670 && Parent(i) < k ==> At(n, d, i) == 0
  }

  /** The fields of the inode itself from place `k` on are 0. */
  ghost predicate Spare(n: Ino, d: Disk, k: nat) {
    forall i :: k <= i < 158 && Parent(i) == -1 ==> At(n, d, i) == 0
  }

  /** The inode's places hold exactly the blocks of `p`. */
  ghost predicate Settled(n: Ino, d: Disk, p: seq<nat>) {
    LaidTo(n, d, p, |p|) && Spare(n, d, |p|)
  }

  /** The same, and what index blocks say beyond the end is 0 too. */
  ghost predicate Laid(n: Ino, d: Disk, p: seq<nat>) {
    Settled(n, d, p) && Vacant(n, d, |p|)
  }

  /** A file of no bytes, as `initialize` and `clear_size` leave it. */
  ghost predicate IsEmpty(n: Ino) {
    && n.size == 0 && n.indirect1 == 0 && n.indirect2 == 0
    && |n.direct| == 28 && forall i :: 0 <= i < 28 ==> n.direct[i] == 0
  }

  lemma EmptyIsLaid(n: Ino, d: Disk)
    requires IsEmpty(n)
    ensures Laid(n, d, [])
  {
  }

  /** Clearing the used fields of an inode clears all of them. */
  lemma ClearedIsEmpty(n: Ino, d: Disk, p: seq<nat>, m: Ino)
    requires Settled(n, d, p) && |p| == TotalBlocks(n.size) && DataBlocks(n.size) <= MAX_DATA_BLOCKS
    requires m.size == 0 && |m.direct| == 28
    requires forall i :: 0 <= i < 28 ==> m.direct[i] == if i < DataBlocks(n.size) then 0 else n.direct[i]
    requires m.indirect1 == if DataBlocks(n.size) > 28 then 0 else n.indirect1
    requires m.indirect2 == if DataBlocks(n.size) > 156 then 0 else n.indirect2
    ensures IsEmpty(m)
  {
    hide WordAt;
    assert DataBlocks(n.size) <= 28 ==> At(n, d, 28) == 0;
    assert DataBlocks(n.size) <= 156 ==> At(n, d, 157) == 0;
    forall i | DataBlocks(n.size) <= i < 28 ensures n.direct[i] == 0 {
      assert At(n, d, i) == 0;
    }
  }

  /** The data blocks whose lookup goes through an index block of their own. */
  predicate Boundary(k: nat) {
    k == 28 || (k >= 156 && (k - 156) % 128 == 0)
  }

  /** Looking up the first data block after the end finds block 0, except at a
      boundary. */
  lemma VacantBlockId(n: Ino, d: Disk, p: seq<nat>, k: nat)
    requires Laid(n, d, p) && |p| == TotalFor(k) && k <= MAX_DATA_BLOCKS && !Boundary(k)
    ensures k < MAX_DATA_BLOCKS && BlockId(n, d, k) == 0
    ensures k > 28 ==> |p| > 28
    ensures k > 156 ==> |p| > 158 + 129 * ((k - 156) / 128)
  {
    hide WordAt;
    BlockIdIsAt(n, d, k);
    if k > 156 {
      var a, b := (k - 156) / 128, (k - 156) % 128;
      assert k - 156 == 128 * a + b;
      SubPosTotal(k - 156);
      assert DataPos(k) == 159 + 129 * a + b == |p|;
      assert (DataPos(k) - 158) / 129 == a;
    }
    assert Parent(DataPos(k)) < |p| == DataPos(k);
  }

  /** Every block read by `get_block_id(k)`, and the one it returns, exists. */
  ghost predicate Reachable(n: Ino, d: Disk, k: nat) {
    && (28 <= k < 156 ==> n.indirect1 < |d|)
    && (156 <= k ==> n.indirect2 < |d| && (k - 156) / 128 < 128 && Entry(d, n.indirect2, (k - 156) / 128) < |d|)
    && BlockId(n, d, k) < |d|
  }

  /** Where a lookup at boundary `k` leads: through word 0 of the super block, its magic
      number, taken as a block id, and at 156 through word 0 of that block. */
  ghost predicate MagicIsBlock(d: Disk, k: nat)
    requires 0 < |d|
  {
    && k < MAX_DATA_BLOCKS && WordAt(d[0], 0) < |d|
    && (k == 156 ==> WordAt(d[WordAt(d[0], 0)], 0) < |d|)
  }

  /** Looking up the first data block after the end stays on the device exactly off the
      boundaries, or where the magic number happens to be a block id. */
  lemma LookupPastEnd(n: Ino, d: Disk, p: seq<nat>, k: nat)
    requires Plan(d, p) && Laid(n, d, p) && |p| == TotalFor(k) && k <= MAX_DATA_BLOCKS && 0 < |d|
    ensures Reachable(n, d, k) <==> !Boundary(k) || MagicIsBlock(d, k)
  {
    hide WordAt;
    if !Boundary(k) {
      VacantBlockId(n, d, p, k);
      LaidRoots(n, d, p);
      if k > 156 {
        SubAt(n, d, p, |p|, (k - 156) / 128);
      }
    } else if k == 28 {
      assert At(n, d, 28) == 0;
    } else if k == 156 {
      assert At(n, d, 157) == 0;
    } else if k < MAX_DATA_BLOCKS {
      var a := (k - 156) / 128;
      assert k == 156 + 128 * a && |p| == 158 + 129 * a;
      assert (|p| - 158) / 129 == a && (|p| - 158) % 129 == 0;
      assert At(n, d, |p|) == 0;
      LaidRoots(n, d, p);
      assert p[157] < |d| && Entry(d, n.indirect2, a) == 0;
    }
  }

  /** The state of an inode on its way from fewer blocks to `p`, at place `k`; with `z`
      the places beyond are vacant, which takes index blocks that were zero. */
  ghost predicate Growing(n: Ino, d: Disk, p: seq<nat>, k: nat, z: bool) {
    && LaidTo(n, d, p, k) && Spare(n, d, k) && Within(p, |d|)
    && (z ==> Vacant(n, d, k) && BlankFrom(d, p, k))
  }

  /** The index blocks among the places from `k` on are zero. */
  ghost predicate BlankFrom(d: Disk, p: seq<nat>, k: nat) {
    forall i :: k <= i < |p| && IsMeta(i) ==> p[i] < |d| && IsZero(d[p[i]])
  }

  /** The inode's places hold distinct blocks of the disk. */
  ghost predicate Plan(d: Disk, p: seq<nat>) {
    Distinct(p) && Within(p, |d|) && |p| <= 16670 && |d| <= 0x1_0000_0000
  }

  lemma PlaceIndirect1Word(n: Ino, d: Disk, p: seq<nat>, i: nat)
    requires Plan(d, p) && 29 <= i < 157 && i < |p| && LaidTo(n, d, p, i)
    ensures LaidTo(n, d[p[28] := PutWord(d[p[28]], i - 29, p[i])], p, i + 1)
  {
    PutWordAll(d[p[28]], i - 29, p[i]);
    assert At(n, d, 28) == p[28];
  }

  lemma PlaceSubIndirect(n: Ino, d: Disk, p: seq<nat>, a: nat)
    requires Plan(d, p) && 158 + 129 * a < |p| && LaidTo(n, d, p, 158 + 129 * a)
    ensures a < 128
    ensures LaidTo(n, d[p[157] := PutWord(d[p[157]], a, p[158 + 129 * a])], p, 159 + 129 * a)
  {
    var i := 158 + 129 * a;
    var e := d[p[157] := PutWord(d[p[157]], a, p[i])];
    PutWordAll(d[p[157]], a, p[i]);
    assert At(n, d, 28) == p[28] && At(n, d, 157) == p[157];
    forall j | 158 <= j < i + 1 ensures At(n, e, j) == p[j] {
      var c, r := (j - 158) / 129, (j - 158) % 129;
      if c < a {
        SubAt(n, d, p, i, c);
      }
    }
  }

  lemma SubAt(n: Ino, d: Disk, p: seq<nat>, i: nat, c: nat)
    requires LaidTo(n, d, p, i) && 158 + 129 * c < i
    ensures Entry(d, n.indirect2, c) == p[158 + 129 * c]
  {
    assert (158 + 129 * c - 158) % 129 == 0 && (158 + 129 * c - 158) / 129 == c;
    assert At(n, d, 158 + 129 * c) == p[158 + 129 * c];
  }

  lemma PlaceSubIndirectWord(n: Ino, d: Disk, p: seq<nat>, a: nat, b: nat)
    requires b < 128
    requires Plan(d, p) && 159 + 129 * a + b < |p| && LaidTo(n, d, p, 159 + 129 * a + b)
    ensures LaidTo(n, d[p[158 + 129 * a] := PutWord(d[p[158 + 129 * a]], b, p[159 + 129 * a + b])], p, 160 + 129 * a + b)
  {
    hide WordAt, PutWord;
    var i := 159 + 129 * a + b;
    var s := p[158 + 129 * a];
    forall j | 0 <= j < i + 1 ensures At(n, d[s := PutWord(d[s], b, p[i])], j) == p[j] {
      PlacedWordAt(n, d, p, a, b, j);
    }
  }

  lemma PlacedWordAt(n: Ino, d: Disk, p: seq<nat>, a: nat, b: nat, j: nat)
    requires b < 128
    requires Plan(d, p) && 159 + 129 * a + b < |p| && LaidTo(n, d, p, 159 + 129 * a + b)
    requires j < 160 + 129 * a + b
    ensures At(n, d[p[158 + 129 * a] := PutWord(d[p[158 + 129 * a]], b, p[159 + 129 * a + b])], j) == p[j]
  {
    hide WordAt, PutWord;
    var i := 159 + 129 * a + b;
    var s := p[158 + 129 * a];
    assert At(n, d, 28) == p[28] && p[28] != s;
    assert At(n, d, 157) == p[157] && p[157] != s;
    assert j < i ==> At(n, d, j) == p[j];
    if j >= 158 {
      var c, r := (j - 158) / 129, (j - 158) % 129;
      SubAt(n, d, p, i, c);
      if c < a {
        assert p[158 + 129 * c] != s;
      } else if r > 0 {
        PutWordAt(d[s], b, p[i], r - 1);
      }
    }
  }

  lemma VacantBelow(n: Ino, d: Disk, k: nat, j: nat)
    requires Vacant(n, d, k) && k <= j < 16670 && Parent(j) < k
    ensures At(n, d, j) == 0
  {
  }

  lemma GrownLaid(n: Ino, d: Disk, p: seq<nat>, z: bool)
    requires Growing(n, d, p, |p|, z)
    ensures Settled(n, d, p) && (z ==> Laid(n, d, p))
  {
  }

  lemma RootsAt(n: Ino, d: Disk, p: seq<nat>, k: nat, z: bool)
    requires Growing(n, d, p, k, z)
    ensures k <= |p| && Within(p, |d|)
    ensures k > 28 ==> n.indirect1 == p[28]
    ensures k > 157 ==> n.indirect2 == p[157]
  {
    hide WordAt;
    assert k > 28 ==> At(n, d, 28) == p[28];
    assert k > 157 ==> At(n, d, 157) == p[157];
  }

  lemma SubRootAt(n: Ino, d: Disk, p: seq<nat>, k: nat, a: nat, z: bool)
    requires Growing(n, d, p, k, z) && 158 + 129 * a < k
    ensures Entry(d, n.indirect2, a) == p[158 + 129 * a]
  {
    hide WordAt;
    SubAt(n, d, p, k, a);
  }

  lemma GrowDirect(n: Ino, n': Ino, d: Disk, p: seq<nat>, i: nat, z: bool)
    requires Growing(n, d, p, i, z) && i < 28 && i < |p| && p[i] < 0x1_0000_0000
    requires n' == n.(direct := n.direct[i := p[i]])
    ensures Growing(n', d, p, i + 1, z)
  {
    hide WordAt, IsZero;
    if z {
      forall j | i < j < 16670 && Parent(j) < i + 1 ensures At(n', d, j) == 0 {
        VacantBelow(n, d, i, j);
      }
    }
  }

  lemma GrowIndirect1(n: Ino, n': Ino, d: Disk, p: seq<nat>, z: bool)
    requires Growing(n, d, p, 28, z) && 28 < |p| && n' == n.(indirect1 := n'.indirect1) && n'.indirect1 == p[28]
    ensures Growing(n', d, p, 29, z)
  {
    if z {
      ZeroWords(d[p[28]]);
      hide WordAt, IsZero;
      forall j | 28 < j < 16670 && Parent(j) < 29 ensures At(n', d, j) == 0 {
        if j == 157 {
          VacantBelow(n, d, 28, j);
        }
      }
    }
  }

  lemma GrowIndirect1Word(n: Ino, d: Disk, p: seq<nat>, i: nat, z: bool)
    requires Plan(d, p) && 29 <= i < 157 && i < |p| && Growing(n, d, p, i, z)
    ensures Growing(n, d[p[28] := PutWord(d[p[28]], i - 29, p[i])], p, i + 1, z)
  {
    hide WordAt, PutWord, IsZero;
    PlaceIndirect1Word(n, d, p, i);
    assert At(n, d, 28) == p[28];
    var e := d[p[28] := PutWord(d[p[28]], i - 29, p[i])];
    if z {
      forall j | i < j < 16670 && Parent(j) < i + 1 ensures At(n, e, j) == 0 {
        VacantBelow(n, d, i, j);
        if j < 157 {
          PutWordAt(d[p[28]], i - 29, p[i], j - 29);
        }
      }
    }
  }

  lemma GrowIndirect2(n: Ino, n': Ino, d: Disk, p: seq<nat>, z: bool)
    requires Growing(n, d, p, 157, z) && 157 < |p| && n' == n.(indirect2 := n'.indirect2) && n'.indirect2 == p[157]
    ensures Growing(n', d, p, 158, z)
  {
    if z {
      ZeroWords(d[p[157]]);
      hide WordAt, IsZero;
      forall j | 157 < j < 16670 && Parent(j) < 158 ensures At(n', d, j) == 0 {
        assert (j - 158) / 129 < 128;
      }
    }
  }

  lemma GrowSub(n: Ino, d: Disk, p: seq<nat>, a: nat, z: bool)
    requires Plan(d, p) && 158 + 129 * a < |p| && Growing(n, d, p, 158 + 129 * a, z)
    ensures a < 128
    ensures Growing(n, d[p[157] := PutWord(d[p[157]], a, p[158 + 129 * a])], p, 159 + 129 * a, z)
  {
    var i := 158 + 129 * a;
    assert p[157] != p[i] && IsMeta(i);
    if z {
      ZeroWords(d[p[i]]);
    }
    hide WordAt, PutWord, IsZero;
    PlaceSubIndirect(n, d, p, a);
    assert At(n, d, 157) == p[157];
    var e := d[p[157] := PutWord(d[p[157]], a, p[i])];
    if z {
      forall j | i < j < 16670 && Parent(j) < i + 1 ensures At(n, e, j) == 0 {
        var c, r := (j - 158) / 129, (j - 158) % 129;
        assert j == 158 + 129 * c + r && c >= a;
        PutWordAt(d[p[157]], a, p[i], c);
        if r == 0 {
          VacantBelow(n, d, i, j);
        } else {
          assert c == a;
        }
      }
    }
  }

  lemma GrowSubWord(n: Ino, d: Disk, p: seq<nat>, a: nat, b: nat, z: bool)
    requires b < 128 && a < 128
    requires Plan(d, p) && 159 + 129 * a + b < |p| && Growing(n, d, p, 159 + 129 * a + b, z)
    ensures Growing(n, d[p[158 + 129 * a] := PutWord(d[p[158 + 129 * a]], b, p[159 + 129 * a + b])], p, 160 + 129 * a + b, z)
  {
    hide WordAt, PutWord, IsZero;
    PlaceSubIndirectWord(n, d, p, a, b);
    var i := 159 + 129 * a + b;
    var s := p[158 + 129 * a];
    assert At(n, d, 157) == p[157] && p[157] != s;
    SubAt(n, d, p, i, a);
    var e := d[s := PutWord(d[s], b, p[i])];
    if z {
      forall j | i < j < 16670 && Parent(j) < i + 1 ensures At(n, e, j) == 0 {
        var c, r := (j - 158) / 129, (j - 158) % 129;
        assert j == 158 + 129 * c + r && c >= a;
        VacantBelow(n, d, i, j);
        if r > 0 {
          assert c == a;
          PutWordAt(d[s], b, p[i], r - 1);
        }
      }
    }
  }

  /** `e` differs from `d` in index blocks of `p` only. */
  ghost predicate SameButMeta(d: Disk, e: Disk, p: seq<nat>) {
    && |e| == |d|
    && forall id :: 0 <= id < |d| && (forall i :: 0 <= i < |p| && IsMeta(i) ==> p[i] != id) ==> e[id] == d[id]
  }

  lemma MetaChain(c: Disk, d: Disk, e: Disk, p: seq<nat>)
    requires SameButMeta(c, d, p) && SameButMeta(d, e, p)
    ensures SameButMeta(c, e, p)
  {
  }

  lemma MetaRefl(d: Disk, p: seq<nat>)
    ensures SameButMeta(d, d, p)
  {
  }

  lemma MetaWrite(d: Disk, p: seq<nat>, i: nat, b: Block)
    requires i < |p| && IsMeta(i) && p[i] < |d|
    ensures SameButMeta(d, d[p[i] := b], p)
  {
  }

  /** The cache can serve work on the blocks of `p`, none of which is locked. */
  ghost predicate Serves(cache: BlockCacheManager, p: seq<nat>)
    reads cache
  {
    && cache.Valid() && |cache.handles| <= 13 && Plan(cache.logical, p)
    && forall i :: 0 <= i < |p| ==> p[i] !in cache.handles
  }

  /** The same while the block at place `l` is held. */
  ghost predicate ServesHolding(cache: BlockCacheManager, p: seq<nat>, l: nat)
    reads cache
  {
    && cache.Valid() && |cache.handles| <= 14 && Plan(cache.logical, p) && l < |p|
    && p[l] in cache.handles && forall i :: 0 <= i < |p| && i != l ==> p[i] !in cache.handles
  }

  function Min(a: nat, b: nat): nat { if a <= b then a else b }

  class DiskInode {
    var size: Word
    var direct: seq<Word>
    var indirect1: Word
    var indirect2: Word
    var isDir: bool

    ghost function Value(): Ino
      reads this
    {
      Ino(size, direct, indirect1, indirect2, isDir)
    }

    constructor (n: Ino)
      ensures Value() == n
    {
      size, direct, indirect1, indirect2, isDir := n.size, n.direct, n.indirect1, n.indirect2, n.isDir;
    }

    method FillDirect(newBlocks: seq<nat>, current0: nat, total: nat, ghost d: Disk, ghost p: seq<nat>, ghost z: bool)
      returns (next: nat, current: nat)
      requires current0 <= total && |p| == TotalFor(total)
      requires Suffix(newBlocks, p) && |p| - |newBlocks| == TotalFor(current0)
      requires Plan(d, p) && Growing(Value(), d, p, TotalFor(current0), z)
      modifies this`direct
      ensures current0 <= current <= total && current >= Min(total, 28)
      ensures current > 28 ==> current == current0
      ensures |p| - |newBlocks| + next == TotalFor(current)
      ensures Growing(Value(), d, p, TotalFor(current), z)
    {
      hide At, IsZero, Vacant;
      next, current := 0, current0;
      while current < Min(total, 28)
        invariant current0 <= current <= total && (current > 28 ==> current == current0)
        invariant |p| - |newBlocks| + next == TotalFor(current)
        invariant Growing(Value(), d, p, TotalFor(current), z)
      {
        ghost var n := Value();
        direct := direct[current := newBlocks[next]];
        GrowDirect(n, Value(), d, p, current, z);
        next, current := next + 1, current + 1;
      }
    }

    /** Fills the single-indirect block from word `from` up to word `to`. */
    method FillIndirect1(newBlocks: seq<nat>, next0: nat, from: nat, to: nat, cache: BlockCacheManager, ghost p: seq<nat>, ghost z: bool)
      requires to <= 128 && |p| >= 29 + to
      requires Suffix(newBlocks, p) && (from < to ==> |p| - |newBlocks| + next0 == 29 + from)
      requires |p| > 28 && Serves(cache, p) && indirect1 == p[28]
      requires from < to ==> Growing(Value(), cache.logical, p, 29 + from, z)
      modifies cache
      ensures Serves(cache, p) && cache.handles == old(cache.handles)
      ensures SameButMeta(old(cache.logical), cache.logical, p)
      ensures from >= to ==> cache.logical == old(cache.logical)
      ensures from < to ==> Growing(Value(), cache.logical, p, 29 + to, z)
    {
      hide WordAt, PutWord, Coherent, Growing, SameButMeta;
      MetaRefl(cache.logical, p);
      cache.Lock(indirect1);
      var current := from;
      while current < to
        invariant from <= current && (from < to ==> current <= to)
        invariant cache.Valid() && cache.handles == old(cache.handles) + multiset{p[28]}
        invariant SameButMeta(old(cache.logical), cache.logical, p)
        invariant |cache.logical| == |old(cache.logical)| && (from >= to ==> cache.logical == old(cache.logical))
        invariant from < to ==> Growing(Value(), cache.logical, p, 29 + current, z)
      {
        GrowIndirect1Word(Value(), cache.logical, p, 29 + current, z);
        ghost var d := cache.logical;
        cache.ModifyWord(indirect1, current, newBlocks[next0 + current - from]);
        MetaWrite(d, p, 28, cache.logical[p[28]]);
        MetaChain(old(cache.logical), d, cache.logical, p);
        current := current + 1;
      }
      cache.Release(indirect1);
      assert cache.handles == old(cache.handles);
    }

    /** `indirect2[a] = next` through the held top block. */
    method PlaceSub(id: nat, a: nat, cache: BlockCacheManager, ghost p: seq<nat>, ghost z: bool)
      requires |p| > 158 + 129 * a && id == p[158 + 129 * a]
      requires ServesHolding(cache, p, 157) && Growing(Value(), cache.logical, p, 158 + 129 * a, z)
      modifies cache
      ensures ServesHolding(cache, p, 157) && cache.handles == old(cache.handles)
      ensures SameButMeta(old(cache.logical), cache.logical, p)
      ensures Growing(Value(), cache.logical, p, 159 + 129 * a, z)
    {
      hide WordAt, PutWord, Coherent, Growing, SameButMeta;
      ghost var d := cache.logical;
      RootsAt(Value(), d, p, 158 + 129 * a, z);
      GrowSub(Value(), d, p, a, z);
      cache.ModifyWord(indirect2, a, id);
      MetaWrite(d, p, 157, cache.logical[p[157]]);
    }

    /** `indirect1[b] = next` in sub-block `a`, found through the held top block. */
    method PlaceSubWord(id: nat, a: nat, b: nat, cache: BlockCacheManager, ghost p: seq<nat>, ghost z: bool)
      requires b < 128 && |p| > 159 + 129 * a + b && id == p[159 + 129 * a + b]
      requires ServesHolding(cache, p, 157) && Growing(Value(), cache.logical, p, 159 + 129 * a + b, z)
      modifies cache
      ensures ServesHolding(cache, p, 157) && cache.handles == old(cache.handles)
      ensures SameButMeta(old(cache.logical), cache.logical, p)
      ensures Growing(Value(), cache.logical, p, 160 + 129 * a + b, z)
    {
      hide WordAt, PutWord, Coherent, Growing, SameButMeta;
      ghost var d := cache.logical;
      RootsAt(Value(), d, p, 159 + 129 * a + b, z);
      SubRootAt(Value(), d, p, 159 + 129 * a + b, a, z);
      GrowSubWord(Value(), d, p, a, b, z);
      var top := cache.Read(indirect2);
      var sub := WordAt(top, a);
      cache.WriteWord(sub, b, id);
      MetaWrite(d, p, 158 + 129 * a, cache.logical[sub]);
    }

    /** One round of the double-indirect loop: place data word `b` of sub-block
        `a`, placing the sub-block itself first when `b` is 0. */
    method FillSubWord(newBlocks: seq<nat>, next0: nat, ghost c: nat, a: nat, b: nat, cache: BlockCacheManager, ghost p: seq<nat>, ghost z: bool)
      returns (next: nat)
      requires Digits(c, a, b) && SubPos(c + 1) <= |p|
      requires Suffix(newBlocks, p) && |p| - |newBlocks| + next0 == SubPos(c)
      requires ServesHolding(cache, p, 157) && Growing(Value(), cache.logical, p, SubPos(c), z)
      modifies cache
      ensures ServesHolding(cache, p, 157) && cache.handles == old(cache.handles)
      ensures SameButMeta(old(cache.logical), cache.logical, p)
      ensures Growing(Value(), cache.logical, p, SubPos(c + 1), z)
      ensures |p| - |newBlocks| + next == SubPos(c + 1)
    {
      hide ServesHolding, Growing, SameButMeta;
      next := next0;
      SubPosStep(a, b);
      ghost var d := cache.logical;
      MetaRefl(d, p);
      if b == 0 {
        PlaceSub(newBlocks[next], a, cache, p, z);
        next := next + 1;
      }
      ghost var e := cache.logical;
      PlaceSubWord(newBlocks[next], a, b, cache, p, z);
      next := next + 1;
      MetaChain(d, e, cache.logical, p);
    }

    /** The loop over the double-indirect tree, from data word `from` to `to`. */
    method FillSubs(newBlocks: seq<nat>, next0: nat, from: nat, to: nat, cache: BlockCacheManager, ghost p: seq<nat>, ghost z: bool)
      requires from <= to && 0 < to && |p| == TotalFor(156 + to)
      requires Suffix(newBlocks, p) && |p| - |newBlocks| + next0 == SubPos(from)
      requires ServesHolding(cache, p, 157) && Growing(Value(), cache.logical, p, SubPos(from), z)
      modifies cache
      ensures ServesHolding(cache, p, 157) && cache.handles == old(cache.handles)
      ensures SameButMeta(old(cache.logical), cache.logical, p)
      ensures Growing(Value(), cache.logical, p, |p|, z)
    {
      hide SubPos, TotalFor, SameButMeta, ServesHolding, Growing, Suffix, Digits;
      var a0: nat, b0: nat, a1: nat, b1: nat := from / 128, from % 128, to / 128, to % 128;
      var next: nat := next0;
      SubPosTotal(to);
      MetaRefl(cache.logical, p);
      ghost var c: nat := from;
      DigitsOf(from);
      DigitsOf(to);
      while a0 < a1 || (a0 == a1 && b0 < b1)
        invariant Digits(c, a0, b0) && Digits(to, a1, b1) && c <= to
        invariant ServesHolding(cache, p, 157) && cache.handles == old(cache.handles)
        invariant SameButMeta(old(cache.logical), cache.logical, p)
        invariant |p| - |newBlocks| + next == SubPos(c)
        invariant Growing(Value(), cache.logical, p, SubPos(c), z)
        decreases a1 - a0, 128 - b0
      {
        DigitsStep(c, a0, b0, to, a1, b1);
        assert c < to;
        SubPosMonotone(c + 1, to);
        ghost var d := cache.logical;
        next := FillSubWord(newBlocks, next, c, a0, b0, cache, p, z);
        MetaChain(old(cache.logical), d, cache.logical, p);
        c := c + 1;
        b0 := b0 + 1;
        if b0 == 128 {
          b0, a0 := 0, a0 + 1;
        }
      }
      DigitsStep(c, a0, b0, to, a1, b1);
    }

    /** Fills the double-indirect tree with the top block held. */
    method FillIndirect2(newBlocks: seq<nat>, next0: nat, from: nat, to: nat, cache: BlockCacheManager, ghost p: seq<nat>, ghost z: bool)
      requires from <= to && 0 < to && |p| == TotalFor(156 + to)
      requires Suffix(newBlocks, p) && |p| - |newBlocks| + next0 == SubPos(from)
      requires Serves(cache, p) && Growing(Value(), cache.logical, p, SubPos(from), z) && indirect2 == p[157]
      modifies cache
      ensures Serves(cache, p) && cache.handles == old(cache.handles)
      ensures SameButMeta(old(cache.logical), cache.logical, p)
      ensures Growing(Value(), cache.logical, p, |p|, z)
    {
      hide Coherent, At, Growing;
      cache.Lock(indirect2);
      FillSubs(newBlocks, next0, from, to, cache, p, z);
      cache.Release(indirect2);
      assert cache.handles == old(cache.handles);
    }

    /** `increase_size`: given exactly the blocks that are missing, every old place
        keeps its block and every new place gets the next new one. */
    method IncreaseSize(newSize: nat, newBlocks: seq<nat>, cache: BlockCacheManager, ghost p0: seq<nat>)
      requires size <= newSize && DataBlocks(newSize) <= MAX_DATA_BLOCKS
      requires |p0| == TotalBlocks(size) && |newBlocks| == TotalBlocks(newSize) - TotalBlocks(size)
      requires Serves(cache, p0 + newBlocks) && Settled(Value(), cache.logical, p0)
      modifies this, cache
      ensures Serves(cache, p0 + newBlocks) && cache.handles == old(cache.handles)
      ensures Settled(Value(), cache.logical, p0 + newBlocks)
      ensures old(Laid(Value(), cache.logical, p0) && BlankFrom(cache.logical, p0 + newBlocks, |p0|)) ==>
                Laid(Value(), cache.logical, p0 + newBlocks)
      ensures size == newSize && isDir == old(isDir)
      ensures SameButMeta(old(cache.logical), cache.logical, p0 + newBlocks)
    {
      hide Coherent, At, IsZero, Growing, Vacant, SameButMeta, BlankFrom, Settled, Laid, DataBlocks;
      ghost var p := p0 + newBlocks;
      ghost var z := Laid(Value(), cache.logical, p0) && BlankFrom(cache.logical, p, |p0|);
      var current0, total := DataBlocks(size), DataBlocks(newSize);
      FewestBlocks(newSize, MAX_DATA_BLOCKS);
      FewestBlocks(newSize, total);
      FewestBlocks(size, total);
      size := newSize;
      StartGrowing(old(Value()), Value(), cache.logical, p0, newBlocks, z);
      var next, current := FillDirect(newBlocks, current0, total, cache.logical, p, z);
      MetaRefl(cache.logical, p);
      if total <= 28 {
        GrownLaid(Value(), cache.logical, p, z);
        return;
      }
      if current == 28 {
        ghost var n := Value();
        indirect1 := newBlocks[next];
        next := next + 1;
        GrowIndirect1(n, Value(), cache.logical, p, z);
      }
      GrowBeyondDirect(newBlocks, next, current, total, cache, p, z);
    }

    /** The rest of `increase_size`, once the direct blocks are in place. */
    method GrowBeyondDirect(newBlocks: seq<nat>, next0: nat, current: nat, total: nat, cache: BlockCacheManager, ghost p: seq<nat>, ghost z: bool)
      requires 28 <= current <= total <= MAX_DATA_BLOCKS && total > 28 && |p| == TotalFor(total)
      requires Suffix(newBlocks, p)
      requires |p| - |newBlocks| + next0 == if current == 28 then 29 else TotalFor(current)
      requires Serves(cache, p) && Growing(Value(), cache.logical, p, |p| - |newBlocks| + next0, z)
      modifies this`indirect2, cache
      ensures Serves(cache, p) && cache.handles == old(cache.handles)
      ensures Settled(Value(), cache.logical, p) && (z ==> Laid(Value(), cache.logical, p))
      ensures SameButMeta(old(cache.logical), cache.logical, p)
    {
      hide Coherent, SameButMeta, Growing;
      RootsAt(Value(), cache.logical, p, |p| - |newBlocks| + next0, z);
      var next := next0;
      var from, to := current - 28, Min(total - 28, 128);
      FillIndirect1(newBlocks, next, from, to, cache, p, z);
      if from < to {
        next, from := next + (to - from), to;
      }
      if total <= 156 {
        GrownLaid(Value(), cache.logical, p, z);
        return;
      }
      if from == 128 {
        ghost var n := Value();
        indirect2 := newBlocks[next];
        next := next + 1;
        GrowIndirect2(n, Value(), cache.logical, p, z);
      }
      SubPosTotal(from - 128);
      ghost var d := cache.logical;
      FillIndirect2(newBlocks, next, from - 128, total - 156, cache, p, z);
      MetaChain(old(cache.logical), d, cache.logical, p);
      GrownLaid(Value(), cache.logical, p, z);
    }

    /** Appends the first `count` words of block `id` to `v`. */
    method CollectWords(v: seq<nat>, id: nat, count: nat, cache: BlockCacheManager) returns (r: seq<nat>)
      requires count <= 128
      requires cache.Valid() && id < |cache.logical| && id !in cache.handles && |cache.handles| < BLOCK_CACHE_SIZE
      modifies cache
      ensures cache.Valid() && cache.logical == old(cache.logical) && cache.handles == old(cache.handles)
      ensures |r| == |v| + count && v <= r
      ensures forall k :: |v| <= k < |r| ==> r[k] == WordAt(cache.logical[id], k - |v|)
    {
      hide WordAt, Coherent;
      cache.Lock(id);
      var b := cache.Read(id);
      r := v;
      for j := 0 to count
        invariant |r| == |v| + j && v <= r
        invariant forall k :: |v| <= k < |r| ==> r[k] == WordAt(b, k - |v|)
      {
        r := r + [WordAt(b, j)];
      }
      cache.Modify(id, b);
      cache.Release(id);
      assert cache.handles == old(cache.handles);
      assert cache.logical == old(cache.logical);
    }

    method ClearDirect(count: nat, ghost d: Disk, ghost p: seq<nat>) returns (v: seq<nat>)
      requires count <= 28 && count <= |p| && Settled(Value(), d, p)
      modifies this`direct
      ensures v == p[..count]
      ensures |direct| == 28
      ensures forall i :: 0 <= i < 28 ==> direct[i] == if i < count then 0 else old(direct[i])
    {
      hide WordAt;
      v := [];
      var current := 0;
      while current < count
        invariant 0 <= current <= count && v == p[..current]
        invariant |direct| == 28
        invariant forall i :: 0 <= i < 28 ==> direct[i] == if i < current then 0 else old(direct[i])
      {
        assert At(old(Value()), d, current) == p[current];
        v := v + [direct[current]];
        direct := direct[current := 0];
        current := current + 1;
      }
    }

    /** Sub-block `a` and its first `count` words. */
    method CollectSub(v: seq<nat>, a: nat, count: nat, cache: BlockCacheManager, ghost n: Ino, ghost p: seq<nat>)
      returns (r: seq<nat>)
      requires count <= 128 && 159 + 129 * a + count <= |p| && v == p[..158 + 129 * a]
      requires ServesHolding(cache, p, 157) && Settled(n, cache.logical, p) && indirect2 == n.indirect2
      modifies cache
      ensures ServesHolding(cache, p, 157) && cache.handles == old(cache.handles) && cache.logical == old(cache.logical)
      ensures r == p[..159 + 129 * a + count]
    {
      hide WordAt, Coherent;
      assert At(n, cache.logical, 157) == indirect2 == p[157];
      hide At;
      SubAt(n, cache.logical, p, |p|, a);
      SubWords(n, cache.logical, p, a, count);
      var top := cache.Read(indirect2);
      r := v + [WordAt(top, a)];
      r := CollectWords(r, WordAt(top, a), count, cache);
      assert r == p[..159 + 129 * a + count];
    }

    /** The double-indirect part of `clear_size`, with the top block held. */
    method CollectSubs(v: seq<nat>, blocks: nat, cache: BlockCacheManager, ghost n: Ino, ghost p: seq<nat>)
      returns (r: seq<nat>)
      requires 0 < blocks && |p| == TotalFor(156 + blocks) && v == p[..158]
      requires ServesHolding(cache, p, 157) && Settled(n, cache.logical, p) && indirect2 == n.indirect2
      modifies cache
      ensures ServesHolding(cache, p, 157) && cache.handles == old(cache.handles) && cache.logical == old(cache.logical)
      ensures r == p
    {
      hide WordAt, Coherent, At, ServesHolding, LaidTo;
      var a1, b1 := blocks / 128, blocks % 128;
      SubPosTotal(blocks);
      r := v;
      for i := 0 to a1
        invariant r == p[..158 + 129 * i]
        invariant ServesHolding(cache, p, 157) && cache.handles == old(cache.handles) && cache.logical == old(cache.logical)
      {
        r := CollectSub(r, i, 128, cache, n, p);
      }
      if b1 > 0 {
        r := CollectSub(r, a1, b1, cache, n, p);
      }
      assert r == p;
    }

    /** `clear_size`: returns all blocks of the inode, in layout order. */
    method ClearSize(cache: BlockCacheManager, ghost p: seq<nat>) returns (v: seq<nat>)
      requires |p| == TotalBlocks(size) && DataBlocks(size) <= MAX_DATA_BLOCKS
      requires Serves(cache, p) && Settled(Value(), cache.logical, p)
      modifies this, cache
      ensures Serves(cache, p) && cache.handles == old(cache.handles) && cache.logical == old(cache.logical)
      ensures v == p
      ensures IsEmpty(Value()) && isDir == old(isDir)
    {
      hide WordAt, Coherent, At, Vacant, LaidTo;
      ghost var n := Value();
      var blocks := DataBlocks(size);
      size := 0;
      Resized(n, Value(), cache.logical, p);
      LaidRoots(n, cache.logical, p);
      v := ClearDirect(Min(blocks, 28), cache.logical, p);
      if blocks <= 28 {
        ClearedIsEmpty(n, cache.logical, p, Value());
        return;
      }
      v := v + [indirect1];
      blocks := blocks - 28;
      Indirect1Words(n, cache.logical, p, Min(blocks, 128));
      v := CollectWords(v, indirect1, Min(blocks, 128), cache);
      indirect1 := 0;
      assert v == p[..29 + Min(blocks, 128)];
      if blocks <= 128 {
        ClearedIsEmpty(n, cache.logical, p, Value());
        return;
      }
      v := v + [indirect2];
      v := CollectIndirect2(v, blocks - 128, cache, n, p);
      indirect2 := 0;
      ClearedIsEmpty(n, cache.logical, p, Value());
    }

    method CollectIndirect2(v: seq<nat>, blocks: nat, cache: BlockCacheManager, ghost n: Ino, ghost p: seq<nat>) returns (r: seq<nat>)
      requires 0 < blocks && |p| == TotalFor(156 + blocks) && v == p[..158]
      requires Serves(cache, p) && Settled(n, cache.logical, p) && |direct| == 28 && indirect2 == n.indirect2
      modifies cache
      ensures Serves(cache, p) && cache.handles == old(cache.handles) && cache.logical == old(cache.logical)
      ensures r == p
    {
      hide WordAt, Coherent;
      assert At(n, cache.logical, 157) == indirect2 == p[157];
      hide At;
      cache.Lock(indirect2);
      r := CollectSubs(v, blocks, cache, n, p);
      cache.Release(indirect2);
      assert cache.handles == old(cache.handles);
    }

    /** `get_block_id`, also for the first block after the end where that is no
        boundary. */
    method GetBlockId(k: nat, cache: BlockCacheManager, ghost p: seq<nat>) returns (r: nat)
      requires DataPos(k) < |p| || (|p| == TotalFor(k) && k <= MAX_DATA_BLOCKS && !Boundary(k))
      requires Serves(cache, p) && Laid(Value(), cache.logical, p)
      modifies cache
      ensures Serves(cache, p) && cache.handles == old(cache.handles) && cache.logical == old(cache.logical)
      ensures r == BlockId(Value(), cache.logical, k)
      ensures if DataPos(k) < |p| then r == p[DataPos(k)] else r == 0
      ensures old(cache.Flushed()) ==> cache.Flushed()
    {
      hide WordAt, Coherent, Vacant, LaidTo, At;
      LookupIds(Value(), cache.logical, p, k);
      if k < 28 {
        LaidRoots(Value(), cache.logical, p);
        r := direct[k];
      } else if k < 156 {
        var b := cache.ReadBlock(indirect1);
        r := WordAt(b, k - 28);
      } else {
        var last := k - 156;
        var top := cache.ReadBlock(indirect2);
        var sub := WordAt(top, last / 128);
        var b := cache.ReadBlock(sub);
        r := WordAt(b, last % 128);
      }
    }

    /** `read_at`: fills the buffer with the stored bytes, clipped at `size`. */
    method ReadAt(offset: nat, buf: array<Byte>, cache: BlockCacheManager, ghost p: seq<nat>) returns (count: nat)
      requires |p| == TotalBlocks(size) && Serves(cache, p) && Laid(Value(), cache.logical, p)
      modifies buf, cache
      ensures Serves(cache, p) && cache.handles == old(cache.handles) && cache.logical == old(cache.logical)
      ensures count == Clipped(offset, buf.Length, size)
      ensures count == 0 <==> offset >= size || buf.Length == 0
      ensures count > 0 ==> count <= buf.Length && offset + count <= size && (count == buf.Length || offset + count == size)
      ensures forall i :: 0 <= i < count ==> buf[i] == FileByte(cache.logical, p, offset + i)
      ensures forall i :: count <= i < buf.Length ==> buf[i] == old(buf[i])
      ensures old(cache.Flushed()) ==> cache.Flushed()
    {
      hide Coherent, At, FileByte, Vacant, LaidTo, Distinct, DataPos, TotalFor;
      var start := offset;
      var end := Min(offset + buf.Length, size);
      if start >= end {
        return 0;
      }
      var startBlock := start / 512;
      count := 0;
      while true
        invariant offset <= start < end && startBlock == start / 512 && count == start - offset
        invariant Serves(cache, p) && cache.handles == old(cache.handles) && cache.logical == old(cache.logical)
        invariant forall i :: 0 <= i < count ==> buf[i] == FileByte(cache.logical, p, offset + i)
        invariant forall i :: count <= i < buf.Length ==> buf[i] == old(buf[i])
        invariant old(cache.Flushed()) ==> cache.Flushed()
        decreases end - start
      {
        var endCurrent := Min((start / 512 + 1) * 512, end);
        var n := endCurrent - start;
        PlacesOfDataBlocks(DataBlocks(size), startBlock);
        var id := GetBlockId(startBlock, cache, p);
        var block := cache.ReadBlock(id);
        BytesOfBlock(cache.logical, p, startBlock);
        forall i | 0 <= i < n {
          buf[count + i] := block[start % 512 + i];
        }
        count := count + n;
        if endCurrent == end {
          break;
        }
        startBlock := startBlock + 1;
        start := endCurrent;
      }
    }

    /** One round of the loop in `write_at`: `src` goes into data block `k`, or no
        bytes go into block 0 if `k` is the first block after the end. */
    method WriteInBlock(k: nat, off: nat, src: seq<Byte>, cache: BlockCacheManager, ghost p: seq<nat>)
      requires off + |src| <= 512 && DataBlocks(size) <= MAX_DATA_BLOCKS
      requires k < DataBlocks(size) || (k == DataBlocks(size) && |src| == 0 && Untouched(k, cache))
      requires |p| == TotalBlocks(size) && Serves(cache, p) && Laid(Value(), cache.logical, p)
      modifies cache
      ensures Serves(cache, p) && cache.handles == old(cache.handles) && Laid(Value(), cache.logical, p)
      ensures SameButData(old(cache.logical), cache.logical, p)
      ensures k < DataBlocks(size) ==> Spliced(old(cache.logical), cache.logical, p, DataBlocks(size), 512 * k + off, src)
      ensures k == DataBlocks(size) ==> cache.logical == old(cache.logical)
    {
      hide Coherent, At, FileByte, SameButData, Spliced, Vacant, LaidTo, DataPos, TotalFor;
      ghost var d := cache.logical;
      if k < DataBlocks(size) {
        PlacesOfDataBlocks(DataBlocks(size), k);
      } else {
        PlaceAfterEnd(k);
        NothingSpliced(d, p, k, 0);
      }
      var id := GetBlockId(k, cache, p);
      cache.Lock(id);
      var block := cache.Read(id);
      cache.Modify(id, Splice(block, off, src));
      cache.Release(id);
      assert cache.handles == old(cache.handles);
      if k < DataBlocks(size) {
        SpliceBlock(Value(), d, cache.logical, p, k, off, src, DataBlocks(size));
      } else {
        assert Splice(block, off, src) == block;
        assert cache.logical == d;
      }
    }

    /** Writing no bytes at the first block after the end, off the boundaries. */
    ghost predicate Untouched(k: nat, cache: BlockCacheManager)
      reads cache
    {
      !Boundary(k) && 0 !in cache.handles && 0 < |cache.logical|
    }

    /** `write_at`: the loop looks up a block even for zero bytes, so the block of
        `offset` has to exist or be the one after the end, off the boundaries. */
    method WriteAt(offset: nat, buf: seq<Byte>, cache: BlockCacheManager, ghost p: seq<nat>) returns (count: nat)
      requires offset <= size && DataBlocks(size) <= MAX_DATA_BLOCKS
      requires offset / 512 < DataBlocks(size) || Untouched(offset / 512, cache)
      requires |p| == TotalBlocks(size) && Serves(cache, p) && Laid(Value(), cache.logical, p)
      modifies cache
      ensures Serves(cache, p) && cache.handles == old(cache.handles) && Laid(Value(), cache.logical, p)
      ensures count == Min(offset + |buf|, size) - offset
      ensures SameButData(old(cache.logical), cache.logical, p)
      ensures Spliced(old(cache.logical), cache.logical, p, DataBlocks(size), offset, buf[..count])
    {
      hide At, Serves, SameButData, Spliced, Vacant, LaidTo, TotalFor, Boundary;
      var start := offset;
      var end := Min(offset + |buf|, size);
      var startBlock := start / 512;
      count := 0;
      NothingSpliced(cache.logical, p, DataBlocks(size), offset);
      while true
        invariant offset <= start <= end && startBlock == start / 512 && count == start - offset
        invariant startBlock < DataBlocks(size) || (start == end && Untouched(startBlock, cache))
        invariant Serves(cache, p) && cache.handles == old(cache.handles) && Laid(Value(), cache.logical, p)
        invariant SameButData(old(cache.logical), cache.logical, p)
        invariant Spliced(old(cache.logical), cache.logical, p, DataBlocks(size), offset, buf[..count])
        decreases end - start
      {
        var endCurrent := Min((start / 512 + 1) * 512, end);
        var n := endCurrent - start;
        var src := buf[count..count + n];
        ghost var d := cache.logical;
        WriteInBlock(startBlock, start % 512, src, cache, p);
        if startBlock < DataBlocks(size) {
          SpliceMore(old(cache.logical), d, cache.logical, p, DataBlocks(size), offset, buf[..count], src);
        }
        assert buf[..count] + src == buf[..count + n];
        count := count + n;
        if endCurrent == end {
          break;
        }
        startBlock := startBlock + 1;
        start := endCurrent;
      }
    }
  }

  lemma PlaceAfterEnd(k: nat)
    ensures DataPos(k) >= TotalFor(k)
  {
    PlacesOfDataBlocks(k + 1, k);
  }

  /** `e` differs from `d` in data blocks of `p` only. */
  ghost predicate SameButData(d: Disk, e: Disk, p: seq<nat>) {
    && |e| == |d|
    && forall id :: 0 <= id < |d| && (forall i :: 0 <= i < |p| && !IsMeta(i) ==> p[i] != id) ==> e[id] == d[id]
  }

  /** Over the `c` data blocks of `p`, `e` is `d` with `src` written at `offset`. */
  ghost predicate Spliced(d: Disk, e: Disk, p: seq<nat>, c: nat, offset: nat, src: seq<Byte>) {
    forall j :: 0 <= j < 512 * c ==>
      FileByte(e, p, j) == if offset <= j < offset + |src| then src[j - offset] else FileByte(d, p, j)
  }

  lemma NothingSpliced(d: Disk, p: seq<nat>, c: nat, offset: nat)
    ensures SameButData(d, d, p) && Spliced(d, d, p, c, offset, [])
  {
    hide FileByte;
  }

  lemma SpliceMore(c: Disk, d: Disk, e: Disk, p: seq<nat>, n: nat, offset: nat, src: seq<Byte>, more: seq<Byte>)
    requires Spliced(c, d, p, n, offset, src) && Spliced(d, e, p, n, offset + |src|, more)
    requires SameButData(c, d, p) && SameButData(d, e, p)
    ensures Spliced(c, e, p, n, offset, src + more) && SameButData(c, e, p)
  {
    hide FileByte;
  }

  /** Writing inside data block `k` changes those bytes of the file and nothing else. */
  lemma SpliceBlock(n: Ino, d: Disk, e: Disk, p: seq<nat>, k: nat, off: nat, src: seq<Byte>, c: nat)
    requires Plan(d, p) && |p| == TotalFor(c) && k < c && off + |src| <= 512 && Laid(n, d, p)
    requires DataPos(k) < |p| && e == d[p[DataPos(k)] := Splice(d[p[DataPos(k)]], off, src)]
    ensures SameButData(d, e, p) && Laid(n, e, p)
    ensures Spliced(d, e, p, c, 512 * k + off, src)
  {
    hide At, Splice;
    PlacesOfDataBlocks(c, k);
    LaidFrame(n, d, e, p);
    hide LaidTo, Vacant;
    forall j | 0 <= j < 512 * c
      ensures FileByte(e, p, j) ==
              if 512 * k + off <= j < 512 * k + off + |src| then src[j - (512 * k + off)] else FileByte(d, p, j)
    {
      var m := j / 512;
      PlacesOfDataBlocks(c, m);
      if m < k {
        DataPosInjective(m, k);
      } else if k < m {
        DataPosInjective(k, m);
      }
    }
  }

  /** The tree is read from index blocks only. */
  lemma LaidFrame(n: Ino, d: Disk, e: Disk, p: seq<nat>)
    requires Laid(n, d, p) && Within(p, |d|) && |e| == |d|
    requires forall i :: 0 <= i < |p| && IsMeta(i) ==> e[p[i]] == d[p[i]]
    ensures Laid(n, e, p)
  {
    hide WordAt;
    forall i | 0 <= i < 16670 && Parent(i) < |p| ensures At(n, e, i) == At(n, d, i) {
      AtFrame(n, d, e, p, i);
    }
    forall i | 0 <= i < |p| ensures At(n, e, i) == p[i] {
      assert At(n, d, i) == p[i];
      AtFrame(n, d, e, p, i);
    }
    forall i | |p| <= i < 16670 && Parent(i) < |p| ensures At(n, e, i) == 0 {
      VacantBelow(n, d, |p|, i);
    }
  }

  lemma AtFrame(n: Ino, d: Disk, e: Disk, p: seq<nat>, i: nat)
    requires LaidTo(n, d, p, |p|) && Within(p, |d|) && |e| == |d| && Parent(i) < |p|
    requires forall i :: 0 <= i < |p| && IsMeta(i) ==> e[p[i]] == d[p[i]]
    ensures At(n, e, i) == At(n, d, i)
  {
    hide WordAt;
    if 29 <= i < 157 {
      assert At(n, d, 28) == p[28] && IsMeta(28);
    } else if i >= 158 {
      var a := (i - 158) / 129;
      assert At(n, d, 157) == p[157] && IsMeta(157);
      if (i - 158) % 129 > 0 {
        SubAt(n, d, p, |p|, a);
        assert IsMeta(158 + 129 * a);
      }
    }
  }

  /** Byte `j` of the file whose blocks are `p`. */
  function FileByte(d: Disk, p: seq<nat>, j: nat): Byte {
    var i := DataPos(j / 512);
    if i < |p| && p[i] < |d| then d[p[i]][j % 512] else 0
  }

  /** How many bytes a read of `len` bytes at `offset` gives. */
  function Clipped(offset: nat, len: nat, size: nat): (c: nat)
    ensures c == 0 <==> offset >= size || len == 0
    ensures c > 0 ==> c <= len && offset + c <= size && (c == len || offset + c == size)
  {
    if offset >= Min(offset + len, size) then 0 else Min(offset + len, size) - offset
  }

  lemma BytesOfBlock(d: Disk, p: seq<nat>, k: nat)
    requires DataPos(k) < |p| && p[DataPos(k)] < |d|
    ensures forall j :: 512 * k <= j < 512 * k + 512 ==> FileByte(d, p, j) == d[p[DataPos(k)]][j - 512 * k]
  {
    forall j | 512 * k <= j < 512 * k + 512 ensures j / 512 == k && j % 512 == j - 512 * k {
    }
  }

  lemma LookupIds(n: Ino, d: Disk, p: seq<nat>, k: nat)
    requires DataPos(k) < |p| || (|p| == TotalFor(k) && k <= MAX_DATA_BLOCKS && !Boundary(k))
    requires Plan(d, p) && Laid(n, d, p)
    ensures if DataPos(k) < |p| then BlockId(n, d, k) == p[DataPos(k)] else BlockId(n, d, k) == 0
    ensures 28 <= k < 156 ==> |p| > 28 && n.indirect1 == p[28]
    ensures 156 <= k ==> |p| > 157 && n.indirect2 == p[157] && (k - 156) / 128 < 128
    ensures 156 <= k ==> |p| > 158 + 129 * ((k - 156) / 128) && Entry(d, p[157], (k - 156) / 128) == p[158 + 129 * ((k - 156) / 128)]
  {
    hide WordAt;
    LaidRoots(n, d, p);
    if DataPos(k) < |p| {
      BlockIdIsAt(n, d, k);
    } else {
      VacantBlockId(n, d, p, k);
    }
    if 156 <= k {
      SubAt(n, d, p, |p|, (k - 156) / 128);
    }
  }

  lemma LaidRoots(n: Ino, d: Disk, p: seq<nat>)
    requires Settled(n, d, p)
    ensures |n.direct| == 28
    ensures |p| > 28 ==> n.indirect1 == p[28]
    ensures |p| > 157 ==> n.indirect2 == p[157]
  {
    hide WordAt;
    assert |p| > 28 ==> At(n, d, 28) == p[28];
    assert |p| > 157 ==> At(n, d, 157) == p[157];
  }

  lemma SubWords(n: Ino, d: Disk, p: seq<nat>, a: nat, count: nat)
    requires count <= 128 && Settled(n, d, p) && 159 + 129 * a + count <= |p| && Within(p, |d|)
    ensures forall k :: 159 + 129 * a <= k < 159 + 129 * a + count ==> p[k] == WordAt(d[p[158 + 129 * a]], k - (159 + 129 * a))
  {
    hide WordAt;
    SubAt(n, d, p, |p|, a);
    forall k | 159 + 129 * a <= k < 159 + 129 * a + count
      ensures p[k] == WordAt(d[p[158 + 129 * a]], k - (159 + 129 * a))
    {
      assert (k - 158) / 129 == a && (k - 158) % 129 == k - (158 + 129 * a);
      assert At(n, d, k) == p[k];
    }
  }

  lemma Indirect1Words(n: Ino, d: Disk, p: seq<nat>, count: nat)
    requires count <= 128 && Settled(n, d, p) && 29 + count <= |p| && Within(p, |d|)
    ensures forall k :: 29 <= k < 29 + count ==> p[k] == WordAt(d[p[28]], k - 29)
  {
    hide WordAt;
    forall k | 29 <= k < 29 + count ensures p[k] == WordAt(d[p[28]], k - 29) {
      assert At(n, d, 28) == p[28] && At(n, d, k) == p[k];
    }
  }

  lemma Resized(n: Ino, n': Ino, d: Disk, p: seq<nat>)
    requires Settled(n, d, p) && n' == n.(size := n'.size)
    ensures Settled(n', d, p)
  {
    hide WordAt;
    assert forall i :: At(n', d, i) == At(n, d, i);
  }

  lemma StartGrowing(n: Ino, n': Ino, d: Disk, p: seq<nat>, v: seq<nat>, z: bool)
    requires Settled(n, d, p) && n' == n.(size := n'.size) && Within(p + v, |d|)
    requires z ==> Laid(n, d, p) && BlankFrom(d, p + v, |p|)
    ensures Growing(n', d, p + v, |p|, z)
  {
    hide WordAt, IsZero;
    assert forall i :: At(n', d, i) == At(n, d, i);
  }

  ghost predicate Suffix(s: seq<nat>, p: seq<nat>) {
    |s| <= |p| && s == p[|p| - |s|..]
  }

  /** The place at which growth continues after `c` double-indirect data blocks. */
  function SubPos(c: nat): nat {
    158 + 129 * (c / 128) + (if c % 128 == 0 then 0 else 1 + c % 128)
  }

  lemma SubPosTotal(c: nat)
    ensures c > 0 ==> SubPos(c) == TotalFor(156 + c)
    ensures c == 0 ==> SubPos(c) == TotalFor(156) + 1
  {
    var a, b := c / 128, c % 128;
    if b > 0 {
      assert (c + 127) / 128 == a + 1;
    }
  }

  ghost predicate Digits(c: nat, a: nat, b: nat) {
    c == 128 * a + b && b < 128
  }

  lemma DigitsStep(c: nat, a: nat, b: nat, to: nat, a1: nat, b1: nat)
    requires Digits(c, a, b) && Digits(to, a1, b1) && c <= to
    ensures a < a1 || (a == a1 && b < b1) <==> c < to
    ensures b < 128 && if b + 1 == 128 then Digits(c + 1, a + 1, 0) else Digits(c + 1, a, b + 1)
  {
  }

  lemma DigitsOf(c: nat)
    ensures Digits(c, c / 128, c % 128)
  {
  }

  lemma SubPosStep(a: nat, b: nat)
    requires b < 128
    ensures SubPos(128 * a + b) == 159 + 129 * a + b - (if b == 0 then 1 else 0)
    ensures SubPos(128 * a + b + 1) == 160 + 129 * a + b
  {
    var c := 128 * a + b;
    assert c / 128 == a && c % 128 == b;
    assert b < 127 ==> (c + 1) / 128 == a && (c + 1) % 128 == b + 1;
    assert b == 127 ==> (c + 1) / 128 == a + 1 && (c + 1) % 128 == 0;
  }

  lemma SubPosMonotone(c: nat, to: nat)
    requires c <= to && 0 < c
    ensures SubPos(c) <= TotalFor(156 + to)
  {
    SubPosTotal(c);
    TotalForMonotone(156 + c, 156 + to);
  }
}
