/** The on-disk format: how the blocks of the device are divided, and how inodes
    and directory entries are laid out as bytes. */
module EfsFormat {
  import opened Bytes
  import opened Bitmaps
  import opened DiskLayout

  const EFS_MAGIC: Word := 0x3b800001

  /** The division of the device that the super block records. */
  datatype Geometry = Geometry(
    total: nat,
    inodeBitmapBlocks: nat,
    inodeAreaBlocks: nat,
    dataBitmapBlocks: nat,
    dataAreaBlocks: nat)
  {
    function InodeBitmap(): Bitmap { Bitmap(1, inodeBitmapBlocks) }
    function InodeStart(): nat { 1 + inodeBitmapBlocks }
    function DataBitmap(): Bitmap { Bitmap(1 + inodeBitmapBlocks + inodeAreaBlocks, dataBitmapBlocks) }
    function DataStart(): nat { 1 + inodeBitmapBlocks + inodeAreaBlocks + dataBitmapBlocks }

    /** Five adjacent regions fill the device; inodes and data blocks have bits. */
    ghost predicate Ok() {
      && total == 1 + inodeBitmapBlocks + inodeAreaBlocks + dataBitmapBlocks + dataAreaBlocks
      && inodeAreaBlocks == 1024 * inodeBitmapBlocks
      && dataAreaBlocks <= dataBitmapBlocks * 4096
      && 0 < inodeBitmapBlocks
      && total < 0x1_0000_0000
    }

    /** `get_disk_inode_pos`, with the slot number in place of the byte offset. */
    function InodeBlock(i: nat): nat { InodeStart() + i / 4 }
    function InodeSlot(i: nat): nat { i % 4 }
  }

  /** The arithmetic of `EasyFileSystem::create`. */
  function Format(total: nat, inodeBitmapBlocks: nat): Geometry
    requires 1 + 1025 * inodeBitmapBlocks <= total
  {
    var inodeNum := inodeBitmapBlocks * 4096;
    var inodeAreaBlocks := (inodeNum * 128 + 511) / 512;
    var dataTotal := total - 1 - (inodeBitmapBlocks + inodeAreaBlocks);
    var dataBitmapBlocks := (dataTotal + 4096) / 4097;
    Geometry(total, inodeBitmapBlocks, inodeAreaBlocks, dataBitmapBlocks, dataTotal - dataBitmapBlocks)
  }

  lemma FormatIsOk(total: nat, inodeBitmapBlocks: nat)
    requires 0 < inodeBitmapBlocks && 1 + 1025 * inodeBitmapBlocks <= total < 0x1_0000_0000
    ensures Format(total, inodeBitmapBlocks).Ok() && Format(total, inodeBitmapBlocks).total == total
    ensures var g := Format(total, inodeBitmapBlocks);
            && g.InodeBitmap() == Bitmap(1, inodeBitmapBlocks) && g.InodeStart() == 1 + inodeBitmapBlocks
            && g.DataBitmap() == Bitmap(g.InodeStart() + g.inodeAreaBlocks, g.dataBitmapBlocks)
            && g.DataStart() == g.DataBitmap().start + g.DataBitmap().blocks && g.DataStart() + g.dataAreaBlocks == total
  {
    var dt := total - 1 - 1025 * inodeBitmapBlocks;
    var db := (dt + 4096) / 4097;
    assert 4097 * db <= dt + 4096 < 4097 * (db + 1);
  }

  /** `b` bitmap blocks cover what they leave for data exactly from the chosen
      number on. */
  lemma FormatBitmapIsSmallest(total: nat, inodeBitmapBlocks: nat, b: nat)
    requires 1 + 1025 * inodeBitmapBlocks <= total
    ensures var g := Format(total, inodeBitmapBlocks);
            g.dataAreaBlocks + g.dataBitmapBlocks - b <= b * 4096 <==> g.dataBitmapBlocks <= b
  {
    var dt := total - 1 - 1025 * inodeBitmapBlocks;
    var db := (dt + 4096) / 4097;
    assert 4097 * db <= dt + 4096 < 4097 * (db + 1);
  }

  /** Inode slots stay inside the inode area and do not overlap. */
  lemma InodeSlotsDisjoint(g: Geometry, i: nat, j: nat)
    requires g.Ok() && i < g.InodeBitmap().Maximum() && j < g.InodeBitmap().Maximum()
    ensures g.InodeStart() <= g.InodeBlock(i) < g.DataBitmap().start
    ensures g.InodeBlock(i) == g.InodeBlock(j) && g.InodeSlot(i) == g.InodeSlot(j) ==> i == j
    ensures 512 * (g.InodeBlock(i) - g.InodeStart()) + 128 * g.InodeSlot(i) == 128 * i && g.InodeSlot(i) < 4
  {
  }

  // ----- the super block

  function SuperWords(g: Geometry): seq<Word>
    requires g.total < 0x1_0000_0000 && g.Ok()
  {
    [EFS_MAGIC, g.total, g.inodeBitmapBlocks, g.inodeAreaBlocks, g.dataBitmapBlocks, g.dataAreaBlocks]
  }

  function FlatWords(ws: seq<Word>): (r: seq<Byte>)
    ensures |r| == 4 * |ws|
  {
    if ws == [] then [] else FlatWords(ws[..|ws| - 1]) + BytesOfWord(ws[|ws| - 1])
  }

  lemma {:induction false} FlatWordsAt(ws: seq<Word>, i: nat)
    requires i < |ws|
    ensures FlatWords(ws)[4 * i..4 * i + 4] == BytesOfWord(ws[i])
  {
    if i < |ws| - 1 {
      FlatWordsAt(ws[..|ws| - 1], i);
      assert FlatWords(ws)[4 * i..4 * i + 4] == FlatWords(ws[..|ws| - 1])[4 * i..4 * i + 4];
    }
  }

  lemma SpliceSlice(b: Block, off: nat, src: seq<Byte>, i: nat, n: nat)
    requires off + |src| <= 512 && i + n <= |src|
    ensures Splice(b, off, src)[off + i..off + i + n] == src[i..i + n]
  {
  }

  /** Words written by one contiguous store read back one by one. */
  lemma StoredWordAt(b: Block, o: nat, ws: seq<Word>, rest: seq<Byte>, i: nat)
    requires i < |ws| && 4 * o + 4 * |ws| + |rest| <= 512
    ensures WordAt(Splice(b, 4 * o, FlatWords(ws) + rest), o + i) == ws[i]
  {
    hide FlatWords, Splice, WordOfBytes, BytesOfWord, WordAt;
    WordRoundTrip(ws[i]);
    FlatWordsAt(ws, i);
    var flat := FlatWords(ws);
    StoredSlice(b, 4 * o, flat, rest, 4 * i);
    WordOfSlice(Splice(b, 4 * o, flat + rest), o, i);
  }

  lemma StoredSlice(b: Block, off: nat, src: seq<Byte>, rest: seq<Byte>, i: nat)
    requires off + |src| + |rest| <= 512 && i + 4 <= |src|
    ensures Splice(b, off, src + rest)[off + i..off + i + 4] == src[i..i + 4]
  {
    hide Splice;
    SpliceSlice(b, off, src + rest, i, 4);
    SliceOfPrefix(src, rest, i, i + 4);
  }

  lemma WordOfSlice(r: Block, o: nat, i: nat)
    requires o + i < 128
    ensures WordAt(r, o + i) == WordOfBytes(r[4 * o + 4 * i..4 * o + 4 * i + 4])
  {
    hide WordOfBytes;
    assert 4 * (o + i) == 4 * o + 4 * i;
  }

  lemma SliceOfPrefix(a: seq<Byte>, rest: seq<Byte>, i: nat, j: nat)
    requires i <= j <= |a|
    ensures (a + rest)[i..j] == a[i..j]
  {
  }

  ghost predicate SuperAt(b: Block, g: Geometry) {
    && WordAt(b, 0) == EFS_MAGIC
    && WordAt(b, 1) == g.total
    && WordAt(b, 2) == g.inodeBitmapBlocks
    && WordAt(b, 3) == g.inodeAreaBlocks
    && WordAt(b, 4) == g.dataBitmapBlocks
    && WordAt(b, 5) == g.dataAreaBlocks
  }

  lemma SuperRoundTrip(b: Block, g: Geometry)
    requires g.Ok()
    ensures SuperAt(Splice(b, 0, FlatWords(SuperWords(g))), g)
    ensures WordAt(Splice(b, 0, FlatWords(SuperWords(g))), 0) == 0x3b800001
  {
    var ws := SuperWords(g);
    assert FlatWords(ws) + [] == FlatWords(ws);
    hide WordAt, FlatWords, Splice;
    StoredWordAt(b, 0, ws, [], 0);
    StoredWordAt(b, 0, ws, [], 1);
    StoredWordAt(b, 0, ws, [], 2);
    StoredWordAt(b, 0, ws, [], 3);
    StoredWordAt(b, 0, ws, [], 4);
    StoredWordAt(b, 0, ws, [], 5);
  }

  // ----- inodes

  function InoWords(n: Ino): (ws: seq<Word>)
    requires |n.direct| == 28
    ensures |ws| == 31
  {
    [n.size] + n.direct + [n.indirect1, n.indirect2]
  }

  function WordsFrom(b: Block, o: nat, n: nat): (r: seq<Word>)
    requires o + n <= 128
    ensures |r| == n
    ensures forall k :: 0 <= k < n ==> r[k] == WordAt(b, o + k)
  {
    if n == 0 then [] else WordsFrom(b, o, n - 1) + [WordAt(b, o + n - 1)]
  }

  /** The inode in slot `s` of a block of the inode area. */
  function SlotIno(b: Block, s: nat): (n: Ino)
    requires s < 4
    ensures |n.direct| == 28
  {
    Ino(WordAt(b, 32 * s), WordsFrom(b, 32 * s + 1, 28), WordAt(b, 32 * s + 29), WordAt(b, 32 * s + 30), b[128 * s + 124] == 1)
  }

  /** Stores the fields; the three padding bytes of the slot keep their values. */
  function PutIno(b: Block, s: nat, n: Ino): Block
    requires s < 4 && |n.direct| == 28
  {
    Splice(b, 128 * s, FlatWords(InoWords(n)) + [if n.isDir then 1 else 0])
  }

  lemma PutInoIsSplice(b: Block, s: nat, n: Ino)
    requires s < 4 && |n.direct| == 28
    ensures PutIno(b, s, n) == Splice(b, 4 * (32 * s), FlatWords(InoWords(n)) + [if n.isDir then 1 else 0])
    ensures PutIno(b, s, n)[128 * s + 124] == if n.isDir then 1 else 0
  {
    hide FlatWords;
  }

  lemma PutInoSame(b: Block, s: nat, n: Ino)
    requires s < 4 && |n.direct| == 28
    ensures SlotIno(PutIno(b, s, n), s) == n
    ensures var r := PutIno(b, s, n);
            && WordAt(r, 32 * s) == n.size && (forall k :: 0 <= k < 28 ==> WordAt(r, 32 * s + 1 + k) == n.direct[k])
            && WordAt(r, 32 * s + 29) == n.indirect1 && WordAt(r, 32 * s + 30) == n.indirect2
            && r[128 * s + 124] == if n.isDir then 1 else 0
  {
    hide WordAt, FlatWords, Splice, PutIno;
    var ws := InoWords(n);
    var rest: seq<Byte> := [if n.isDir then 1 else 0];
    var r := PutIno(b, s, n);
    PutInoIsSplice(b, s, n);
    StoredWordAt(b, 32 * s, ws, rest, 0);
    StoredWordAt(b, 32 * s, ws, rest, 29);
    StoredWordAt(b, 32 * s, ws, rest, 30);
    forall k | 0 <= k < 28 ensures WordAt(r, 32 * s + 1 + k) == n.direct[k] {
      StoredWordAt(b, 32 * s, ws, rest, 1 + k);
      assert 32 * s + (1 + k) == 32 * s + 1 + k;
    }
    assert SlotIno(r, s).direct == n.direct;
  }

  lemma PutInoOther(b: Block, s: nat, n: Ino, t: nat)
    requires s < 4 && t < 4 && s != t && |n.direct| == 28
    ensures SlotIno(PutIno(b, s, n), t) == SlotIno(b, t)
  {
    hide FlatWords;
    var r := PutIno(b, s, n);
    hide PutIno, Splice;
    forall w | 32 * t <= w < 32 * t + 31 ensures WordAt(r, w) == WordAt(b, w) {
      assert r[4 * w..4 * w + 4] == b[4 * w..4 * w + 4];
    }
    assert SlotIno(r, t).direct == SlotIno(b, t).direct;
  }

  function InodeAt(g: Geometry, d: Disk, i: nat): Ino
    requires g.InodeBlock(i) < |d|
  {
    SlotIno(d[g.InodeBlock(i)], g.InodeSlot(i))
  }

  // ----- directory entries

  type Name = seq<Byte>

  /** A name that `DirEntry::new` and `DirEntry::name` take through unchanged. */
  ghost predicate LegalName(s: Name) {
    |s| <= 27 && forall i :: 0 <= i < |s| ==> s[i] != 0
  }

  /** `DirEntry::new(name, number).as_bytes()` */
  function EntryBytes(name: Name, number: Word): (r: seq<Byte>)
    requires |name| <= 28
    ensures |r| == 32
  {
    name + seq(28 - |name|, _ => 0) + BytesOfWord(number)
  }

  /** `DirEntry::name`: the bytes before the first NUL. */
  function EntryName(e: seq<Byte>): Name
    requires |e| == 32
  {
    NamePrefix(e[..28], 0)
  }

  function NamePrefix(e: seq<Byte>, i: nat): Name
    requires i <= |e|
    decreases |e| - i
  {
    if i == |e| || e[i] == 0 then [] else [e[i]] + NamePrefix(e, i + 1)
  }

  function EntryNumber(e: seq<Byte>): Word
    requires |e| == 32
  {
    WordOfBytes(e[28..32])
  }

  lemma {:induction false} NamePrefixStops(e: seq<Byte>, i: nat, n: nat)
    requires i <= n < |e| && e[n] == 0 && forall k :: i <= k < n ==> e[k] != 0
    ensures NamePrefix(e, i) == e[i..n]
    decreases n - i
  {
    if i < n {
      NamePrefixStops(e, i + 1, n);
    }
  }

  lemma EntryRoundTrip(name: Name, number: Word)
    requires LegalName(name)
    ensures EntryName(EntryBytes(name, number)) == name
    ensures EntryNumber(EntryBytes(name, number)) == number
    ensures var e := EntryBytes(name, number);
            (forall k :: 0 <= k < 28 ==> e[k] == if k < |name| then name[k] else 0) && e[28..] == BytesOfWord(number)
  {
    var e := EntryBytes(name, number);
    assert forall k :: 0 <= k < |name| ==> e[..28][k] == name[k];
    NamePrefixStops(e[..28], 0, |name|);
    assert e[28..32] == BytesOfWord(number);
    WordRoundTrip(number);
  }

  /** Without a NUL in its name field an entry makes `name` panic. */
  ghost predicate Terminated(e: seq<Byte>)
    requires |e| == 32
  {
    exists i :: 0 <= i < 28 && e[i] == 0
  }

  /** Of the names that fit the field, exactly the legal ones read back. */
  lemma EntryReadsBackIff(name: Name, number: Word)
    requires |name| <= 28
    ensures Terminated(EntryBytes(name, number)) && EntryName(EntryBytes(name, number)) == name <==> LegalName(name)
  {
    var e := EntryBytes(name, number);
    if LegalName(name) {
      EntryRoundTrip(name, number);
      assert e[|name|] == 0;
    } else {
      NamePrefixHasNoNul(e[..28], 0);
      assert |name| == 28 ==> forall k :: 0 <= k < 28 ==> e[k] == name[k];
    }
  }

  lemma {:induction false} NamePrefixHasNoNul(e: seq<Byte>, i: nat)
    requires i <= |e|
    ensures forall k :: 0 <= k < |NamePrefix(e, i)| ==> NamePrefix(e, i)[k] != 0
    decreases |e| - i
  {
    if i < |e| && e[i] != 0 {
      NamePrefixHasNoNul(e, i + 1);
    }
  }

  /** The bytes of a directory whose `j`-th entry is inode `j + 1`. */
  function DirBytes(names: seq<Name>): (r: seq<Byte>)
    requires |names| < 0x1_0000_0000 && forall j :: 0 <= j < |names| ==> |names[j]| <= 28
    ensures |r| == 32 * |names|
  {
    if names == [] then []
    else DirBytes(names[..|names| - 1]) + EntryBytes(names[|names| - 1], |names|)
  }

  lemma {:induction false} DirBytesAt(names: seq<Name>, j: nat)
    requires |names| < 0x1_0000_0000 && forall k :: 0 <= k < |names| ==> |names[k]| <= 28
    requires j < |names|
    ensures DirBytes(names)[32 * j..32 * j + 32] == EntryBytes(names[j], j + 1)
  {
    if j < |names| - 1 {
      DirBytesAt(names[..|names| - 1], j);
      assert DirBytes(names)[32 * j..32 * j + 32] == DirBytes(names[..|names| - 1])[32 * j..32 * j + 32];
    }
  }
}
