/** Whole runs of the file system against the abstract one: an ordered list of names
    and a map from name to byte sequence. */
module FsRuns {
  import opened Bytes
  import opened BlockCaching
  import opened DiskLayout
  import opened EfsFormat
  import opened FsInvariant
  import opened Filesystem
  import opened Vfs

  datatype Tree = Tree(order: seq<Name>, data: map<Name, seq<Byte>>)

  datatype FsOp =
    | Create(name: Name)
    | Write(name: Name, offset: nat, src: seq<Byte>)
    | Read(name: Name, offset: nat, len: nat)
    | Clear(name: Name)
    | List

  datatype Answer = Done | Exists | Missing | Wrote(count: nat) | Bytes(bytes: seq<Byte>) | Names(names: seq<Name>)

  // ----- the abstract file system

  function Apply(t: Tree, op: FsOp): Tree {
    match op
    case Create(n) => if n in t.data then t else Tree(t.order + [n], t.data[n := []])
    case Write(n, offset, src) => if n in t.data then t.(data := t.data[n := Overwritten(t.data[n], offset, src)]) else t
    case Read(_, _, _) => t
    case Clear(n) => if n in t.data then t.(data := t.data[n := []]) else t
    case List => t
  }

  function Reply(t: Tree, op: FsOp): Answer {
    match op
    case Create(n) => if n in t.data then Exists else Done
    case Write(n, _, src) => if n in t.data then Wrote(|src|) else Missing
    case Read(n, offset, len) =>
      if n !in t.data then Missing
      else var c := Clipped(offset, len, |t.data[n]|);
           Bytes(if c == 0 then [] else t.data[n][offset..offset + c])
    case Clear(n) => if n in t.data then Done else Missing
    case List => Names(t.order)
  }

  function ApplyAll(t: Tree, ops: seq<FsOp>): Tree
    decreases |ops|
  {
    if ops == [] then t else ApplyAll(Apply(t, ops[0]), ops[1..])
  }

  function Replies(t: Tree, ops: seq<FsOp>): seq<Answer>
    decreases |ops|
  {
    if ops == [] then [] else [Reply(t, ops[0])] + Replies(Apply(t, ops[0]), ops[1..])
  }

  // ----- what readers get

  /** A read answers with what is stored from `offset` on, all that the file has and the
      buffer takes. */
  lemma ReadReply(t: Tree, n: Name, offset: nat, len: nat)
    requires n in t.data
    ensures var f, a := t.data[n], Reply(t, Read(n, offset, len));
            && a.Bytes? && (a.bytes == [] <==> offset >= |f| || len == 0)
            && (a.bytes != [] ==>
                  && |a.bytes| <= len && offset + |a.bytes| <= |f| && a.bytes == f[offset..offset + |a.bytes|]
                  && (|a.bytes| == len || offset + |a.bytes| == |f|))
  {
  }

  lemma {:induction false} RunTwice(t: Tree, a: seq<FsOp>, b: seq<FsOp>)
    ensures ApplyAll(t, a + b) == ApplyAll(ApplyAll(t, a), b)
    ensures Replies(t, a + b) == Replies(t, a) + Replies(ApplyAll(t, a), b)
    decreases |a|
  {
    hide Apply, Reply;
    if a == [] {
      assert a + b == b;
    } else {
      assert (a + b)[1..] == a[1..] + b;
      RunTwice(Apply(t, a[0]), a[1..], b);
    }
  }

  lemma {:induction false} RepliesCount(t: Tree, ops: seq<FsOp>)
    ensures |Replies(t, ops)| == |ops|
    decreases |ops|
  {
    if ops != [] {
      RepliesCount(Apply(t, ops[0]), ops[1..]);
    }
  }

  /** The operation may change what file `n` holds. */
  predicate Changes(op: FsOp, n: Name) {
    (op.Write? || op.Clear?) && op.name == n
  }

  /** A file changes by writes and clears of its own name only, and never goes away. */
  lemma {:induction false} FileKept(t: Tree, ops: seq<FsOp>, n: Name)
    requires n in t.data && forall op :: op in ops ==> !Changes(op, n)
    ensures n in ApplyAll(t, ops).data && ApplyAll(t, ops).data[n] == t.data[n]
    decreases |ops|
  {
    hide Overwritten;
    if ops != [] {
      assert ops[0] in ops;
      FileKept(Apply(t, ops[0]), ops[1..], n);
    }
  }

  /** In every run: what was written is what a later read of that range answers, whatever
      other files go through in between. */
  lemma WriteThenRead(t: Tree, before: seq<FsOp>, n: Name, offset: nat, src: seq<Byte>, between: seq<FsOp>, later: seq<FsOp>)
    requires n in ApplyAll(t, before).data && forall op :: op in between ==> !Changes(op, n)
    ensures var ops := before + ([Write(n, offset, src)] + (between + ([Read(n, offset, |src|)] + later)));
            |Replies(t, ops)| == |ops| && Replies(t, ops)[|before| + 1 + |between|] == Bytes(src)
  {
    hide Replies, ApplyAll, Overwritten;
    var read := [Read(n, offset, |src|)] + later;
    var s := ApplyAll(t, before);
    var u := Apply(s, Write(n, offset, src));
    RunTwice(t, before, [Write(n, offset, src)] + (between + read));
    OneOp(s, Write(n, offset, src), between + read);
    RunTwice(u, between, read);
    FileKept(u, between, n);
    OneOp(ApplyAll(u, between), Read(n, offset, |src|), later);
    RepliesCount(t, before);
    RepliesCount(u, between);
    RepliesCount(t, before + ([Write(n, offset, src)] + (between + read)));
    ReadBack(s.data[n], offset, src);
    ReadReply(ApplyAll(u, between), n, offset, |src|);
  }

  lemma OneOp(t: Tree, op: FsOp, ops: seq<FsOp>)
    ensures Replies(t, [op] + ops) == [Reply(t, op)] + Replies(Apply(t, op), ops)
  {
    assert ([op] + ops)[1..] == ops;
  }

  lemma ReadBack(f: seq<Byte>, offset: nat, src: seq<Byte>)
    ensures offset + |src| <= |Overwritten(f, offset, src)|
    ensures Overwritten(f, offset, src)[offset..offset + |src|] == src
  {
    hide Overwritten;
  }

  // ----- what an abstract state costs on disk

  ghost function Gather(order: seq<Name>, data: map<Name, seq<Byte>>): (r: seq<seq<Byte>>)
    ensures |r| == |order|
    ensures forall k :: 0 <= k < |r| ==> r[k] == if order[k] in data then data[order[k]] else []
  {
    seq(|order|, k requires 0 <= k < |order| => if order[k] in data then data[order[k]] else [])
  }

  ghost predicate Proper(t: Tree) {
    && |t.order| < 0x1_0000_0000 && (forall k :: 0 <= k < |t.order| ==> LegalName(t.order[k]))
    && (forall j, k :: 0 <= j < k < |t.order| ==> t.order[j] != t.order[k])
    && (forall n :: n in t.order <==> n in t.data)
  }

  /** The contents of all inodes for an abstract state, the root directory first. */
  ghost function FilesOf(t: Tree): seq<seq<Byte>>
    requires Proper(t)
  {
    [DirBytes(t.order)] + Gather(t.order, t.data)
  }

  ghost function SumOfBlocks(files: seq<seq<Byte>>): nat {
    if files == [] then 0 else SumOfBlocks(files[..|files| - 1]) + TotalBlocks(|files[|files| - 1]|)
  }

  lemma {:induction false} SumUpdate(files: seq<seq<Byte>>, i: nat, f: seq<Byte>)
    requires i < |files|
    ensures SumOfBlocks(files[i := f]) == SumOfBlocks(files) - TotalBlocks(|files[i]|) + TotalBlocks(|f|)
  {
    var last := |files| - 1;
    if i < last {
      SumUpdate(files[..last], i, f);
      assert files[i := f][..last] == files[..last][i := f];
    } else {
      assert files[i := f][..last] == files[..last];
    }
  }

  lemma {:induction false} SumIsLengths(plans: seq<seq<nat>>, files: seq<seq<Byte>>)
    requires |plans| == |files| && forall i :: 0 <= i < |plans| ==> |plans[i]| == TotalBlocks(|files[i]|)
    ensures SumOfLengths(plans) == SumOfBlocks(files)
  {
    if plans != [] {
      SumIsLengths(plans[..|plans| - 1], files[..|files| - 1]);
    }
  }

  /** The operation finds room: names are legal, sizes within the tree, blocks and
      inodes available.  A write of no bytes must not end a file at a boundary. */
  ghost predicate Legal(g: Geometry, t: Tree, op: FsOp)
    requires Proper(t)
  {
    match op
    case Create(n) =>
      LegalName(n) && (n !in t.data ==>
        && |t.order| + 1 < g.InodeBitmap().Maximum()
        && DataBlocks(32 * (|t.order| + 1)) <= MAX_DATA_BLOCKS
        && SumOfBlocks(FilesOf(t)) + TotalBlocks(32 * (|t.order| + 1)) - TotalBlocks(32 * |t.order|) <= g.dataAreaBlocks)
    case Write(n, offset, src) =>
      n in t.data ==>
        && DataBlocks(offset + |src|) <= MAX_DATA_BLOCKS
        && (|src| > 0 || offset < |t.data[n]| || offset % 512 != 0 || !Boundary(offset / 512))
        && SumOfBlocks(FilesOf(t)) + TotalBlocks(|Overwritten(t.data[n], offset, src)|) - TotalBlocks(|t.data[n]|) <= g.dataAreaBlocks
    case _ => true
  }

  ghost predicate LegalRun(g: Geometry, t: Tree, ops: seq<FsOp>)
    decreases |ops|
  {
    ops != [] ==> Proper(t) && Legal(g, t, ops[0]) && LegalRun(g, Apply(t, ops[0]), ops[1..])
  }

  // ----- refinement

  /** The file system's state stands for the abstract state `t`, all of it on the device. */
  ghost predicate Represents(fs: EasyFileSystem, t: Tree)
    reads fs, fs.cache
  {
    && fs.Valid() && fs.Listed() && fs.cache.Flushed()
    && Proper(t) && fs.names == t.order && fs.files == FilesOf(t)
  }

  lemma UsedIsSum(g: Geometry, d: Disk, plans: seq<seq<nat>>, files: seq<seq<Byte>>)
    requires Sound(g, d, plans, files)
    ensures |plans| == |files| && |Used(g, d)| == SumOfBlocks(files)
  {
    hide Used, Flat, InodeSound, FreeAreZero, SuperAt;
    BlocksAreConserved(g, d, plans, files);
    SumIsLengths(plans, files);
  }

  lemma UpdatedFiles(t: Tree, k: nat, f: seq<Byte>)
    requires Proper(t) && k < |t.order|
    ensures Proper(t.(data := t.data[t.order[k] := f]))
    ensures FilesOf(t.(data := t.data[t.order[k] := f])) == FilesOf(t)[k + 1 := f]
    ensures FilesOf(t)[k + 1] == t.data[t.order[k]]
  {
    hide DirBytes, Gather, LegalName, Proper;
    UpdatedProper(t, k, f);
    UpdatedGather(t.order, t.data, k, f);
  }

  lemma UpdatedProper(t: Tree, k: nat, f: seq<Byte>)
    requires Proper(t) && k < |t.order|
    ensures Proper(t.(data := t.data[t.order[k] := f]))
    ensures t.order[k] in t.data && forall j :: 0 <= j < |t.order| && j != k ==> t.order[j] != t.order[k]
  {
    hide LegalName;
  }

  lemma UpdatedGather(order: seq<Name>, data: map<Name, seq<Byte>>, k: nat, f: seq<Byte>)
    requires k < |order| && forall j :: 0 <= j < |order| && j != k ==> order[j] != order[k]
    ensures Gather(order, data[order[k] := f]) == Gather(order, data)[k := f]
  {
    hide Gather;
  }

  lemma CreatedFiles(t: Tree, n: Name)
    requires Proper(t) && n !in t.data && LegalName(n) && |t.order| + 1 < 0x1_0000_0000
    ensures Proper(Apply(t, Create(n)))
    ensures FilesOf(Apply(t, Create(n)))[1..] == FilesOf(t)[1..] + [[]]
  {
    hide DirBytes, Gather, LegalName, Proper;
    CreatedProper(t, n);
    CreatedGather(t.order, t.data, n);
  }

  lemma CreatedProper(t: Tree, n: Name)
    requires Proper(t) && n !in t.data && LegalName(n) && |t.order| + 1 < 0x1_0000_0000
    ensures Proper(Apply(t, Create(n))) && n !in t.order
  {
    hide LegalName;
    var t' := Apply(t, Create(n));
    forall x ensures x in t'.order <==> x in t'.data {
      assert x in t'.order <==> x in t.order || x == n;
    }
  }

  lemma CreatedGather(order: seq<Name>, data: map<Name, seq<Byte>>, n: Name)
    requires n !in order
    ensures Gather(order + [n], data[n := []]) == Gather(order, data) + [[]]
  {
    hide Gather;
  }

  /** One operation through the vfs layer; files are reached by `find`. */
  method Step(root: Inode, op: FsOp, ghost t: Tree) returns (a: Answer)
    requires Represents(root.fs, t) && root.Refers() && root.id == 0 && Legal(root.fs.g, t, op)
    modifies root.fs`plans, root.fs`files, root.fs`names, root.fs.cache
    ensures Represents(root.fs, Apply(t, op)) && root.Refers()
    ensures a == Reply(t, op)
  {
    hide Coherent, Used, Sound, DirBytes, Overwritten, Gather, SumOfBlocks;
    UsedIsSum(root.fs.g, root.fs.cache.logical, root.fs.plans, root.fs.files);
    match op {
      case Create(n) =>
        a := StepCreate(root, n, t);
      case List =>
        var names := root.Ls();
        a := Names(names);
      case _ =>
        var f := root.Find(op.name);
        if f == null {
          a := Missing;
        } else {
          a := StepFile(root, f, op, t);
        }
    }
  }

  method StepCreate(root: Inode, n: Name, ghost t: Tree) returns (a: Answer)
    requires Represents(root.fs, t) && root.Refers() && root.id == 0 && Legal(root.fs.g, t, Create(n))
    modifies root.fs`plans, root.fs`files, root.fs`names, root.fs.cache
    ensures Represents(root.fs, Apply(t, Create(n))) && root.Refers()
    ensures a == Reply(t, Create(n))
  {
    hide Coherent, Used, Sound, DirBytes, Overwritten, Gather, SumOfBlocks;
    UsedIsSum(root.fs.g, root.fs.cache.logical, root.fs.plans, root.fs.files);
    if n !in t.data {
      CreatedFiles(t, n);
    }
    var r := root.Create(n);
    if r == null {
      a := Exists;
    } else {
      assert root.fs.files == FilesOf(Apply(t, Create(n)));
      a := Done;
    }
  }

  /** An operation on the file that `find` gave. */
  method StepFile(root: Inode, f: Inode, op: FsOp, ghost t: Tree) returns (a: Answer)
    requires Represents(root.fs, t) && root.Refers() && Legal(root.fs.g, t, op)
    requires !op.Create? && !op.List?
    requires f.fs == root.fs && f.Refers() && 0 < f.id <= |t.order| && t.order[f.id - 1] == op.name
    modifies root.fs`plans, root.fs`files, root.fs.cache
    ensures Represents(root.fs, Apply(t, op)) && root.Refers()
    ensures a == Reply(t, op)
  {
    hide Represents, Legal, Overwritten;
    match op {
      case Write(n, offset, src) =>
        a := StepWrite(f, n, offset, src, t);
      case Read(n, offset, len) =>
        a := StepRead(f, n, offset, len, t);
      case Clear(n) =>
        a := StepClear(f, n, t);
    }
  }

  method StepWrite(f: Inode, n: Name, offset: nat, src: seq<Byte>, ghost t: Tree) returns (a: Answer)
    requires Represents(f.fs, t) && f.Refers() && 0 < f.id <= |t.order| && t.order[f.id - 1] == n
    requires Legal(f.fs.g, t, Write(n, offset, src))
    modifies f.fs`plans, f.fs`files, f.fs.cache
    ensures Represents(f.fs, Apply(t, Write(n, offset, src))) && |f.fs.plans| == |old(f.fs.plans)|
    ensures a == Reply(t, Write(n, offset, src))
  {
    hide Coherent, Used, Sound, DirBytes, Gather, SumOfBlocks, Overwritten, Proper, LegalName;
    UsedIsSum(f.fs.g, f.fs.cache.logical, f.fs.plans, f.fs.files);
    UpdatedProper(t, f.id - 1, []);
    UpdatedFiles(t, f.id - 1, Overwritten(t.data[n], offset, src));
    var c := f.WriteAt(offset, src);
    a := Wrote(c);
  }

  method StepClear(f: Inode, n: Name, ghost t: Tree) returns (a: Answer)
    requires Represents(f.fs, t) && f.Refers() && 0 < f.id <= |t.order| && t.order[f.id - 1] == n
    modifies f.fs`plans, f.fs`files, f.fs.cache
    ensures Represents(f.fs, Apply(t, Clear(n))) && |f.fs.plans| == |old(f.fs.plans)|
    ensures a == Reply(t, Clear(n))
  {
    hide Coherent, Used, Sound, DirBytes, Gather, SumOfBlocks, Overwritten, Proper, LegalName;
    UpdatedProper(t, f.id - 1, []);
    UpdatedFiles(t, f.id - 1, []);
    f.Clear();
    a := Done;
  }

  method StepRead(f: Inode, n: Name, offset: nat, len: nat, ghost t: Tree) returns (a: Answer)
    requires Represents(f.fs, t) && f.Refers() && 0 < f.id <= |t.order| && t.order[f.id - 1] == n
    modifies f.fs.cache
    ensures Represents(f.fs, t) && |f.fs.plans| == |old(f.fs.plans)|
    ensures a == Reply(t, Read(n, offset, len))
  {
    hide Coherent, Used, Sound, DirBytes, Gather;
    UpdatedFiles(t, f.id - 1, []);
    hide FilesOf;
    var buf := new Byte[len](_ => 0);
    var c := f.ReadAt(offset, buf);
    a := Bytes(buf[..c]);
  }

  /** Every legal run answers as the abstract file system does, and the device is up to
      date after every operation. */
  method Run(root: Inode, ops: seq<FsOp>, ghost t: Tree) returns (answers: seq<Answer>)
    requires Represents(root.fs, t) && root.Refers() && root.id == 0 && LegalRun(root.fs.g, t, ops)
    modifies root.fs`plans, root.fs`files, root.fs`names, root.fs.cache
    ensures Represents(root.fs, ApplyAll(t, ops))
    ensures answers == Replies(t, ops)
  {
    hide Represents, Legal, Apply, Reply, Proper;
    answers := [];
    ghost var s := t;
    var i := 0;
    while i < |ops|
      invariant 0 <= i <= |ops|
      invariant Represents(root.fs, s) && root.Refers() && LegalRun(root.fs.g, s, ops[i..])
      invariant ApplyAll(t, ops) == ApplyAll(s, ops[i..])
      invariant Replies(t, ops) == answers + Replies(s, ops[i..])
    {
      assert ops[i..][0] == ops[i] && ops[i..][1..] == ops[i + 1..];
      var a := Step(root, ops[i], s);
      answers := answers + [a];
      s := Apply(s, ops[i]);
      i := i + 1;
    }
  }

  /** From an empty device: format, run, and mount the device again with a cold
      cache; the second mount has the files that the run left. */
  method FormatRunRemount(device: Disk, inodeBitmapBlocks: nat, ops: seq<FsOp>)
    returns (answers: seq<Answer>, fs: EasyFileSystem)
    requires 0 < inodeBitmapBlocks && 1 + 1025 * inodeBitmapBlocks <= |device| < 0x1_0000_0000
    requires LegalRun(Format(|device|, inodeBitmapBlocks), Tree([], map[]), ops)
    ensures answers == Replies(Tree([], map[]), ops)
    ensures Represents(fs, ApplyAll(Tree([], map[]), ops))
  {
    hide Coherent, Sound, LegalRun, WordAt, Replies, ApplyAll;
    var cache := new BlockCacheManager(device);
    var fs0 := new EasyFileSystem.Create(cache, |device|, inodeBitmapBlocks);
    ghost var t := Tree([], map[]);
    assert FilesOf(t) == [[]];
    var (b, o) := fs0.InodePos(0);
    var root := new Inode(b, o, fs0, 0);
    answers := Run(root, ops, t);
    SoundMagic(fs0.g, cache.logical, fs0.plans, fs0.files);
    var cold := new BlockCacheManager(cache.device);
    fs := new EasyFileSystem.Open(cold, fs0.g, fs0.plans, fs0.files, fs0.names);
  }
}
