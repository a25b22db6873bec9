/** What every reachable easy-fs image satisfies: each data block belongs to exactly
    one place of one inode or is free and zero, and each inode holds its file. */
module FsInvariant {
  import opened Bytes
  import opened Bitmaps
  import opened DiskLayout
  import opened EfsFormat

  // ----- block ownership

  /** All blocks of all inodes, counted. */
  ghost function Flat(plans: seq<seq<nat>>): multiset<nat> {
    if plans == [] then multiset{} else Flat(plans[..|plans| - 1]) + multiset(plans[|plans| - 1])
  }

  ghost function SumOfLengths(plans: seq<seq<nat>>): nat {
    if plans == [] then 0 else SumOfLengths(plans[..|plans| - 1]) + |plans[|plans| - 1]|
  }

  lemma {:induction false} FlatCardinality(plans: seq<seq<nat>>)
    ensures |Flat(plans)| == SumOfLengths(plans)
  {
    if plans != [] {
      FlatCardinality(plans[..|plans| - 1]);
    }
  }

  lemma {:induction false} FlatUpdate(plans: seq<seq<nat>>, i: nat, q: seq<nat>)
    requires i < |plans|
    ensures forall y :: Flat(plans[i := q])[y] + multiset(plans[i])[y] == Flat(plans)[y] + multiset(q)[y]
  {
    var last := |plans| - 1;
    if i < last {
      FlatUpdate(plans[..last], i, q);
      assert plans[i := q][..last] == plans[..last][i := q];
    } else {
      assert plans[i := q][..last] == plans[..last];
    }
  }

  lemma FlatCounts(plans: seq<seq<nat>>, i: nat, j: nat, y: nat)
    requires i < |plans| && j < |plans|
    ensures multiset(plans[i])[y] <= Flat(plans)[y]
    ensures i != j ==> multiset(plans[i])[y] + multiset(plans[j])[y] <= Flat(plans)[y]
  {
    FlatUpdate(plans, i, []);
    if i != j {
      FlatUpdate(plans[i := []], j, []);
    }
  }

  /** A block owned once is at one place of one inode. */
  lemma OwnedOnce(plans: seq<seq<nat>>, s: set<nat>, i: nat, j: nat)
    requires Flat(plans) == multiset(s) && i < |plans| && j < |plans|
    ensures Distinct(plans[i]) && forall x :: x in plans[i] ==> x in s
    ensures i != j ==> forall x :: x in plans[i] ==> x !in plans[j]
  {
    forall x | x in plans[i] ensures x in s && (i != j ==> x !in plans[j]) {
      FlatCounts(plans, i, j, x);
      assert multiset(s)[x] <= 1;
      assert multiset(plans[i])[x] > 0;
    }
    forall a, b | 0 <= a < b < |plans[i]| ensures plans[i][a] != plans[i][b] {
      TwiceCounted(plans[i], a, b);
      FlatCounts(plans, i, i, plans[i][a]);
    }
  }

  lemma TwiceCounted(p: seq<nat>, a: nat, b: nat)
    requires a < b < |p|
    ensures p[a] == p[b] ==> multiset(p)[p[a]] >= 2
  {
    assert p == p[..b] + [p[b]] + p[b + 1..];
    assert p[a] in p[..b];
  }

  ghost predicate IsUsed(g: Geometry, d: Disk, b: nat)
    requires g.DataBitmap().Fits(d)
  {
    g.DataStart() <= b && g.DataBitmap().Has(d, b - g.DataStart())
  }

  /** The data blocks whose bitmap bit is set. */
  ghost function Used(g: Geometry, d: Disk): set<nat>
    requires g.DataBitmap().Fits(d)
  {
    set b | 0 <= b < g.DataStart() + g.DataBitmap().Maximum() && IsUsed(g, d, b)
  }

  lemma UsedFromBits(g: Geometry, d: Disk, d': Disk, k: nat)
    requires g.DataBitmap().Fits(d) && g.DataBitmap().Fits(d') && k < g.DataBitmap().Maximum()
    ensures g.DataBitmap().Bits(d') == g.DataBitmap().Bits(d) + {k} ==> Used(g, d') == Used(g, d) + {g.DataStart() + k}
    ensures g.DataBitmap().Bits(d') == g.DataBitmap().Bits(d) - {k} ==> Used(g, d') == Used(g, d) - {g.DataStart() + k}
    ensures g.DataBitmap().Bits(d') == g.DataBitmap().Bits(d) ==> Used(g, d') == Used(g, d)
  {
    hide BitIn;
    forall b | g.DataStart() <= b < g.DataStart() + g.DataBitmap().Maximum()
      ensures b in Used(g, d) <==> (b - g.DataStart()) in g.DataBitmap().Bits(d)
      ensures b in Used(g, d') <==> (b - g.DataStart()) in g.DataBitmap().Bits(d')
    {
    }
  }

  // ----- inodes and their files

  /** The blocks `p` hold the file `f`, with zeros after it in its last block. */
  ghost predicate Holds(d: Disk, p: seq<nat>, f: seq<Byte>) {
    && |p| == TotalBlocks(|f|)
    && forall j :: 0 <= j < 512 * DataBlocks(|f|) ==> FileByte(d, p, j) == if j < |f| then f[j] else 0
  }

  ghost predicate InodeSound(g: Geometry, d: Disk, i: nat, p: seq<nat>, f: seq<Byte>) {
    && g.InodeBlock(i) < |d| && DataBlocks(|f|) <= MAX_DATA_BLOCKS
    && InodeAt(g, d, i).size == |f| && (InodeAt(g, d, i).isDir <==> i == 0)
    && Laid(InodeAt(g, d, i), d, p) && Holds(d, p, f)
  }

  ghost predicate FreeAreZero(g: Geometry, d: Disk)
    requires g.DataBitmap().Fits(d)
  {
    forall b :: g.DataStart() <= b < |d| && b !in Used(g, d) ==> IsZero(d[b])
  }

  ghost predicate Sound(g: Geometry, d: Disk, plans: seq<seq<nat>>, files: seq<seq<Byte>>) {
    && g.Ok() && |d| == g.total && SuperAt(d[0], g)
    && 1 <= |plans| == |files| <= g.InodeBitmap().Maximum()
    && (forall k: nat :: k in g.InodeBitmap().Bits(d) <==> k < |plans|)
    && (forall i :: 0 <= i < |plans| ==> InodeSound(g, d, i, plans[i], files[i]))
    && Flat(plans) == multiset(Used(g, d))
    && (forall b :: b in Used(g, d) ==> b < |d|)
    && FreeAreZero(g, d)
  }

  /** Conservation: set bits are exactly the blocks that the file sizes call for. */
  lemma BlocksAreConserved(g: Geometry, d: Disk, plans: seq<seq<nat>>, files: seq<seq<Byte>>)
    requires Sound(g, d, plans, files)
    ensures |Used(g, d)| == SumOfLengths(plans)
    ensures forall i :: 0 <= i < |plans| ==> |plans[i]| == TotalBlocks(|files[i]|)
  {
    FlatCardinality(plans);
    forall i | 0 <= i < |plans| ensures |plans[i]| == TotalBlocks(|files[i]|) {
      assert InodeSound(g, d, i, plans[i], files[i]);
    }
  }

  lemma PlanOk(g: Geometry, d: Disk, plans: seq<seq<nat>>, files: seq<seq<Byte>>, i: nat)
    requires Sound(g, d, plans, files) && i < |plans|
    ensures Plan(d, plans[i])
    ensures forall x :: 0 <= x < |plans[i]| ==> g.DataStart() <= plans[i][x] < |d|
  {
    OwnedOnce(plans, Used(g, d), i, i);
    assert InodeSound(g, d, i, plans[i], files[i]);
    TotalForMonotone(DataBlocks(|files[i]|), MAX_DATA_BLOCKS);
    forall x | 0 <= x < |plans[i]| ensures g.DataStart() <= plans[i][x] < |d| {
      assert plans[i][x] in plans[i];
    }
  }

  lemma HoldsFrame(d: Disk, e: Disk, p: seq<nat>, f: seq<Byte>)
    requires Holds(d, p, f) && Within(p, |d|) && |e| == |d|
    requires forall x :: 0 <= x < |p| ==> e[p[x]] == d[p[x]]
    ensures Holds(e, p, f)
  {
    forall j | 0 <= j < 512 * DataBlocks(|f|) ensures FileByte(e, p, j) == FileByte(d, p, j) {
      PlacesOfDataBlocks(DataBlocks(|f|), j / 512);
    }
  }

  lemma InodeSoundFrame(g: Geometry, d: Disk, e: Disk, j: nat, p: seq<nat>, f: seq<Byte>)
    requires InodeSound(g, d, j, p, f) && Within(p, |d|) && |e| == |d|
    requires InodeAt(g, e, j) == InodeAt(g, d, j)
    requires forall x :: 0 <= x < |p| ==> e[p[x]] == d[p[x]]
    ensures InodeSound(g, e, j, p, f)
  {
    hide SlotIno, At;
    LaidFrame(InodeAt(g, d, j), d, e, p);
    HoldsFrame(d, e, p, f);
  }

  lemma FlatReplaced(plans: seq<seq<nat>>, i: nat, p: seq<nat>, s: set<nat>, t: set<nat>)
    requires i < |plans| && Flat(plans) == multiset(s)
    requires forall y :: multiset(t)[y] + multiset(plans[i])[y] == multiset(s)[y] + multiset(p)[y]
    ensures Flat(plans[i := p]) == multiset(t)
  {
    FlatUpdate(plans, i, p);
    forall y ensures Flat(plans[i := p])[y] == multiset(t)[y] {
      assert Flat(plans)[y] == multiset(s)[y];
    }
  }

  /** One inode changes: its slot, its blocks and the data bitmap. */
  lemma InodeReplaced(g: Geometry, d: Disk, e: Disk, plans: seq<seq<nat>>, files: seq<seq<Byte>>,
                      i: nat, p: seq<nat>, f: seq<Byte>)
    requires Sound(g, d, plans, files) && i < |plans|
    requires |e| == |d| && e[0] == d[0]
    requires g.InodeBitmap().Bits(e) == g.InodeBitmap().Bits(d)
    requires forall j :: 0 <= j < |plans| && j != i ==> InodeAt(g, e, j) == InodeAt(g, d, j)
    requires forall j, x :: 0 <= j < |plans| && j != i && 0 <= x < |plans[j]| ==> plans[j][x] < |d| && e[plans[j][x]] == d[plans[j][x]]
    requires InodeSound(g, e, i, p, f)
    requires forall y :: multiset(Used(g, e))[y] + multiset(plans[i])[y] == multiset(Used(g, d))[y] + multiset(p)[y]
    requires forall b :: b in Used(g, e) ==> b < |e|
    requires FreeAreZero(g, e)
    ensures Sound(g, e, plans[i := p], files[i := f])
  {
    hide SlotIno, At, WordAt, InodeSound, BitIn, Used, FreeAreZero, Flat;
    FlatReplaced(plans, i, p, Used(g, d), Used(g, e));
    forall j | 0 <= j < |plans| && j != i ensures InodeSound(g, e, j, plans[j], files[j]) {
      InodeKept(g, d, e, j, plans[j], files[j]);
    }
  }

  lemma InodeKept(g: Geometry, d: Disk, e: Disk, j: nat, p: seq<nat>, f: seq<Byte>)
    requires InodeSound(g, d, j, p, f) && |e| == |d|
    requires g.InodeBlock(j) < |d| ==> InodeAt(g, e, j) == InodeAt(g, d, j)
    requires forall x :: 0 <= x < |p| ==> p[x] < |d| && e[p[x]] == d[p[x]]
    ensures InodeSound(g, e, j, p, f)
  {
    hide SlotIno, At, WordAt, Holds, Laid;
    InodeSoundFrame(g, d, e, j, p, f);
  }

  // ----- growing, writing and clearing one file

  lemma BitsFrame(m: Bitmap, d: Disk, e: Disk)
    requires m.Fits(d) && m.Fits(e)
    requires forall b :: m.start <= b < m.start + m.blocks ==> e[b] == d[b]
    ensures m.Bits(e) == m.Bits(d)
  {
    hide BitIn;
    forall k | 0 <= k < m.Maximum() ensures m.Has(e, k) <==> m.Has(d, k) {
      assert m.start <= m.start + k / 4096 < m.start + m.blocks;
    }
  }

  lemma UsedFrame(g: Geometry, d: Disk, e: Disk)
    requires g.DataBitmap().Fits(d) && g.DataBitmap().Fits(e)
    requires forall b :: g.DataBitmap().start <= b < g.DataStart() ==> e[b] == d[b]
    ensures Used(g, e) == Used(g, d)
  {
    hide BitIn;
    forall b | 0 <= b < g.DataStart() + g.DataBitmap().Maximum() ensures IsUsed(g, e, b) <==> IsUsed(g, d, b) {
      if g.DataStart() <= b {
        var k := b - g.DataStart();
        assert g.DataBitmap().start <= g.DataBitmap().start + k / 4096 < g.DataStart();
      }
    }
  }

  function Zeros(n: nat): (r: seq<Byte>)
    ensures |r| == n && forall j :: 0 <= j < n ==> r[j] == 0
  {
    seq(n, _ => 0)
  }

  /** `f` with zeros appended up to length `n`. */
  function Padded(f: seq<Byte>, n: nat): (r: seq<Byte>)
    ensures |r| == Max(|f|, n)
    ensures forall j :: 0 <= j < |r| ==> r[j] == if j < |f| then f[j] else 0
  {
    if n <= |f| then f else f + Zeros(n - |f|)
  }

  function Max(a: nat, b: nat): nat { if a <= b then b else a }

  /** `f` with `src` written at `offset`, zeros filling any gap. */
  function Overwritten(f: seq<Byte>, offset: nat, src: seq<Byte>): (r: seq<Byte>)
    ensures |r| == Max(|f|, offset + |src|)
    ensures forall j :: 0 <= j < |r| ==>
              r[j] == if offset <= j < offset + |src| then src[j - offset] else if j < |f| then f[j] else 0
  {
    var r := Padded(f, offset + |src|);
    r[..offset] + src + r[offset + |src|..]
  }

  /** Fresh zero blocks extend a file by zeros. */
  lemma GrownHolds(d: Disk, e: Disk, p: seq<nat>, v: seq<nat>, f: seq<Byte>, n: nat)
    requires Holds(d, p, f) && |f| <= n && |p| + |v| == TotalBlocks(n) && |e| == |d|
    requires Plan(d, p + v)
    requires forall i :: 0 <= i < |p + v| && !IsMeta(i) ==> e[(p + v)[i]] == d[(p + v)[i]]
    requires forall i :: 0 <= i < |v| ==> v[i] < |d| && IsZero(d[v[i]])
    ensures Holds(e, p + v, Padded(f, n))
  {
    hide FileByte, DataBlocks, TotalFor, IsMeta, IsZero, Distinct;
    forall j | 0 <= j < 512 * DataBlocks(n) ensures FileByte(e, p + v, j) == if j < |f| then f[j] else 0 {
      GrownByte(d, e, p, v, f, n, j);
    }
  }

  lemma GrownByte(d: Disk, e: Disk, p: seq<nat>, v: seq<nat>, f: seq<Byte>, n: nat, j: nat)
    requires Holds(d, p, f) && |p| + |v| == TotalBlocks(n) && |e| == |d| && Within(p + v, |d|)
    requires forall i :: 0 <= i < |p + v| && !IsMeta(i) ==> e[(p + v)[i]] == d[(p + v)[i]]
    requires forall i :: 0 <= i < |v| ==> v[i] < |d| && IsZero(d[v[i]])
    requires j < 512 * DataBlocks(n)
    ensures FileByte(e, p + v, j) == if j < |f| then f[j] else 0
  {
    hide DataBlocks, TotalFor, IsMeta, DataPos;
    var q, k := p + v, j / 512;
    PlacesOfDataBlocks(DataBlocks(n), k);
    var i := DataPos(k);
    assert FileByte(e, q, j) == d[q[i]][j % 512];
    if k < DataBlocks(|f|) {
      PlacesOfDataBlocks(DataBlocks(|f|), k);
      assert q[i] == p[i] && FileByte(d, p, j) == d[p[i]][j % 512];
    } else {
      TotalForMonotone(DataBlocks(|f|), k);
      FewestBlocks(|f|, k);
      assert q[i] == v[i - |p|];
    }
  }

  lemma WrittenHolds(d: Disk, e: Disk, p: seq<nat>, f: seq<Byte>, n: nat, offset: nat, src: seq<Byte>)
    requires Holds(d, p, Padded(f, n)) && n == offset + |src|
    requires Spliced(d, e, p, DataBlocks(Max(|f|, n)), offset, src)
    ensures Holds(e, p, Overwritten(f, offset, src))
  {
    hide FileByte;
  }
}
