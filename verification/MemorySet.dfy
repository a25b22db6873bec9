/** Address spaces: areas of framed pages over a page table, mmap and munmap, and the
    copy that fork makes. */
module MemorySets {
  import opened Common
  import opened Recycling
  import opened PageTables
  import opened AddressSpaces

  /** A contiguous range of pages, each with its own frame. */
  datatype MapArea = MapArea(start: nat, end: nat, dataFrames: map<nat, nat>, perm: nat)

  /** A snapshot of what an address space lives on. */
  datatype Snap = Snap(mem: Mem, held: set<nat>, nodes: map<nat, Node>, root: nat)

  ghost predicate Good(s: Snap) {
    TableOk(s.mem, s.root, s.nodes) && forall t :: t in s.nodes ==> t in s.held
  }

  /** The page has a valid entry. */
  ghost predicate IsMapped(s: Snap, vpn: nat) {
    PteValid(Entry(s.mem, s.root, vpn))
  }

  ghost predicate Apart(start: nat, end: nat, w: nat) {
    forall v :: start <= v < end ==> Key(v) != Key(w)
  }

  /** The walk for the page reaches its last level, where the entry is valid or empty. */
  ghost predicate Walks(s: Snap, vpn: nat) {
    match Translate(s.mem, s.root, vpn)
    case None => false
    case Some(e) => PteValid(e) || e == 0
  }

  /** From `a` to `b` no page has lost its walk, and those of [start, end) have one. */
  ghost predicate WalksMore(a: Snap, b: Snap, start: nat, end: nat) {
    forall v: nat :: Walks(a, v) || start <= v < end ==> Walks(b, v)
  }

  /** From `a` to `b` the frames `fs` of the pages [start, end) have been taken; they are
      blank and all different, and no frame outside the table has changed. */
  ghost predicate TakesFrames(a: Snap, b: Snap, start: nat, end: nat, fs: map<nat, nat>) {
    && b.root == a.root && |b.mem| == |a.mem|
    && (forall t :: t in a.nodes ==> t in b.nodes)
    && (forall t :: t in b.nodes && t !in a.nodes ==> t !in a.held)
    && (forall v :: v in fs <==> start <= v < end)
    && (forall v :: v in fs ==> fs[v] < |b.mem| <= PPN_LIMIT && fs[v] !in a.held && fs[v] !in b.nodes && fs[v] in b.held && IsBlank(b.mem[fs[v]]))
    && (forall v, w :: v in fs && w in fs && v != w ==> fs[v] != fs[w])
    && (forall t :: t in a.held ==> t in b.held)
    && (forall t :: t in b.held ==> t in a.held || t in b.nodes || t in fs.Values)
    && (forall x :: x in a.held && x !in a.nodes && x < |a.mem| ==> b.mem[x] == a.mem[x])
  }

  /** Each page of [start, end) is mapped to its frame, and no other page has changed. */
  ghost predicate SetsEntries(a: Snap, b: Snap, start: nat, end: nat, fs: map<nat, nat>, perm: nat) {
    && perm < 256
    && (forall v :: start <= v < end ==> v in fs && fs[v] < PPN_LIMIT && Entry(b.mem, b.root, v) == MappedPte(fs[v], perm))
    && (forall w :: Apart(start, end, w) ==> Entry(b.mem, b.root, w) == Entry(a.mem, a.root, w))
  }

  lemma MapsNothing(a: Snap, start: nat, perm: nat)
    requires perm < 256
    ensures TakesFrames(a, a, start, start, map[]) && SetsEntries(a, a, start, start, map[], perm)
  {
    hide Entry;
  }

  lemma WalksNothing(a: Snap, start: nat)
    ensures WalksMore(a, a, start, start)
  {
  }

  /** One more page: a fresh blank frame `f`, then `map`. */
  lemma OneMoreFrame(a: Snap, b: Snap, c: Snap, start: nat, end: nat, fs: map<nat, nat>, f: nat, mem1: Mem)
    requires TakesFrames(a, b, start, end, fs) && start <= end
    requires |mem1| == |b.mem| <= PPN_LIMIT && f < |mem1| && mem1 == b.mem[f := mem1[f]] && IsBlank(mem1[f]) && f !in b.held
    requires c.root == b.root && OnlyTable(mem1, b.held + {f}, b.nodes, c.mem, c.held, c.nodes)
    requires forall t :: t in b.nodes ==> t in b.held
    ensures TakesFrames(a, c, start, end + 1, fs[end := f])
  {
    hide IsBlank, OnlyTable;
    var fs' := fs[end := f];
    assert end !in fs;
    OneMoreValue(fs, end, f);
    forall v | v in fs'
      ensures fs'[v] < |c.mem| <= PPN_LIMIT && fs'[v] !in a.held && fs'[v] !in c.nodes && fs'[v] in c.held && IsBlank(c.mem[fs'[v]])
    {
      FrameIsOwn(a, b, c, start, end, fs, f, mem1, v);
    }
    OnlyTableHeld(b, c, f, mem1);
  }

  lemma FrameIsOwn(a: Snap, b: Snap, c: Snap, start: nat, end: nat, fs: map<nat, nat>, f: nat, mem1: Mem, v: nat)
    requires TakesFrames(a, b, start, end, fs) && start <= end && v in fs[end := f]
    requires |mem1| == |b.mem| <= PPN_LIMIT && f < |mem1| && mem1 == b.mem[f := mem1[f]] && IsBlank(mem1[f]) && f !in b.held
    requires c.root == b.root && OnlyTable(mem1, b.held + {f}, b.nodes, c.mem, c.held, c.nodes)
    requires forall t :: t in b.nodes ==> t in b.held
    ensures var g := fs[end := f][v];
            g < |c.mem| <= PPN_LIMIT && g !in a.held && g !in c.nodes && g in c.held && IsBlank(c.mem[g])
  {
    hide IsBlank;
    if v == end {
      assert c.mem[f] == mem1[f];
    } else {
      assert c.mem[fs[v]] == b.mem[fs[v]];
    }
  }

  lemma OnlyTableHeld(b: Snap, c: Snap, f: nat, mem1: Mem)
    requires |mem1| == |b.mem| && f < |mem1| && mem1 == b.mem[f := mem1[f]] && f !in b.held
    requires OnlyTable(mem1, b.held + {f}, b.nodes, c.mem, c.held, c.nodes)
    ensures |c.mem| == |b.mem| && (forall t :: t in b.nodes ==> t in c.nodes)
    ensures forall t :: t in c.nodes && t !in b.nodes ==> t !in b.held && t != f
    ensures forall t :: t in c.held <==> t in b.held || t == f || t in c.nodes
    ensures forall x :: x in b.held && x !in b.nodes && x < |b.mem| ==> c.mem[x] == b.mem[x]
  {
  }

  lemma OneMoreValue(fs: map<nat, nat>, end: nat, f: nat)
    requires end !in fs
    ensures forall x :: x in fs[end := f].Values <==> x in fs.Values || x == f
  {
    var fs' := fs[end := f];
    assert fs'[end] == f;
    forall x | x in fs.Values ensures x in fs'.Values {
      var v :| v in fs && fs[v] == x;
      assert fs'[v] == x;
    }
  }

  lemma OneMoreEntry(a: Snap, b: Snap, c: Snap, start: nat, end: nat, fs: map<nat, nat>, perm: nat, f: nat, mem1: Mem)
    requires Good(b) && SetsEntries(a, b, start, end, fs, perm) && start <= end < start + KEY_LIMIT
    requires |mem1| == |b.mem| <= PPN_LIMIT && f < |mem1| && mem1 == b.mem[f := mem1[f]] && f !in b.held
    requires c.root == b.root == a.root && SetsEntry(mem1, c.mem, b.root, end, MappedPte(f, perm))
    requires PteValid(MappedPte(f, perm))
    ensures SetsEntries(a, c, start, end + 1, fs[end := f], perm)
  {
    hide MappedPte, Entry, PteValid, TableOk;
    forall v | start <= v < end ensures Key(v) != Key(end) {
      NearKeysDiffer(v, end);
    }
    RootInNodes(b.mem, b.root, b.nodes);
    forall w: nat ensures Entry(mem1, b.root, w) == Entry(b.mem, b.root, w) {
      EntryFrame(b, mem1, w);
    }
    forall w | Apart(start, end + 1, w) ensures Entry(c.mem, c.root, w) == Entry(a.mem, a.root, w) {
      assert Key(end) != Key(w);
      assert Apart(start, end, w);
    }
  }

  lemma EntryFrame(b: Snap, mem1: Mem, w: nat)
    requires Good(b) && |mem1| == |b.mem| && forall t :: t in b.nodes ==> t < |b.mem| && mem1[t] == b.mem[t]
    ensures Entry(mem1, b.root, w) == Entry(b.mem, b.root, w) && Translate(mem1, b.root, w) == Translate(b.mem, b.root, w)
  {
    hide Walk, TableOk, Index;
    WalkFrame(b.mem, mem1, b.root, b.nodes, Index(w, 0), Index(w, 1), Index(w, 2));
  }

  lemma MappedIsValid(ppn: nat, perm: nat)
    requires ppn < PPN_LIMIT && perm < 256
    ensures PteValid(MappedPte(ppn, perm))
  {
    PteRoundTrip(ppn, if perm % 2 == 1 then perm else perm + 1);
  }

  /** `VirtAddr::ceil` in 64-bit arithmetic. */
  function Ceil(va: nat): (r: nat)
    requires va < ADDR_LIMIT
    ensures va <= ADDR_LIMIT - PAGE_SIZE ==> (r - 1) * PAGE_SIZE < va <= r * PAGE_SIZE
    ensures va > ADDR_LIMIT - PAGE_SIZE ==> r == 0
  {
    (va + PAGE_SIZE - 1) % ADDR_LIMIT / PAGE_SIZE
  }

  /** The pages that mmap and munmap work on. */
  function FirstPage(start: nat): nat { start / PAGE_SIZE }
  function LastPage(start: nat, len: nat): nat { Ceil((start + len) % ADDR_LIMIT) }

  ghost predicate ByteOf(va: nat, v: nat) {
    v * PAGE_SIZE <= va < (v + 1) * PAGE_SIZE
  }

  /** Page `v` has a byte of [start, start + len). */
  ghost predicate HasByte(start: nat, len: nat, v: nat) {
    exists va: nat :: start <= va < start + len && ByteOf(va, v)
  }

  /** The range ends before the last page of the address space. */
  ghost predicate InSpace(start: nat, len: nat) {
    start + len <= ADDR_LIMIT - PAGE_SIZE
  }

  /** mmap and munmap work on the pages that have a byte of the range, and no others. */
  lemma PagesOfRange(start: nat, len: nat, v: nat)
    requires start % PAGE_SIZE == 0 && InSpace(start, len)
    ensures FirstPage(start) <= v < LastPage(start, len) <==> HasByte(start, len, v)
  {
    hide Ceil;
    assert (start + len) % ADDR_LIMIT == start + len;
    if FirstPage(start) <= v < LastPage(start, len) {
      assert v * PAGE_SIZE <= (LastPage(start, len) - 1) * PAGE_SIZE < start + len;
      assert ByteOf(v * PAGE_SIZE, v);
    }
  }

  /** The page shares its key with no page that has a byte of the range. */
  ghost predicate NoByte(start: nat, len: nat, w: nat) {
    forall v: nat :: HasByte(start, len, v) ==> Key(v) != Key(w)
  }

  /** Each page with a byte of the range is mapped to a frame of its own, and no other page
      has changed. */
  ghost predicate MapsBytes(a: Snap, b: Snap, start: nat, len: nat, fs: map<nat, nat>, perm: nat) {
    && perm < 256
    && (forall v: nat :: v in fs <==> HasByte(start, len, v))
    && (forall v, w :: v in fs && w in fs && v != w ==> fs[v] != fs[w])
    && (forall v :: v in fs ==> fs[v] < PPN_LIMIT && Entry(b.mem, b.root, v) == MappedPte(fs[v], perm))
    && (forall w: nat :: NoByte(start, len, w) ==> Entry(b.mem, b.root, w) == Entry(a.mem, a.root, w))
  }

  /** Each page with a byte of the range has lost its entry, and no other page has changed. */
  ghost predicate UnmapsBytes(a: Snap, b: Snap, start: nat, len: nat) {
    && (forall v: nat :: HasByte(start, len, v) ==> Entry(b.mem, b.root, v) == 0)
    && (forall w: nat :: NoByte(start, len, w) ==> Entry(b.mem, b.root, w) == Entry(a.mem, a.root, w))
  }

  lemma NoByteIsApart(start: nat, len: nat, w: nat)
    requires start % PAGE_SIZE == 0 && InSpace(start, len)
    ensures NoByte(start, len, w) <==> Apart(FirstPage(start), LastPage(start, len), w)
  {
    hide HasByte, FirstPage, LastPage, Key;
    forall v: nat ensures FirstPage(start) <= v < LastPage(start, len) <==> HasByte(start, len, v) {
      PagesOfRange(start, len, v);
    }
  }

  lemma MapsInBytes(a: Snap, b: Snap, start: nat, len: nat, fs: map<nat, nat>, perm: nat)
    requires start % PAGE_SIZE == 0 && InSpace(start, len)
    requires TakesFrames(a, b, FirstPage(start), LastPage(start, len), fs)
    requires SetsEntries(a, b, FirstPage(start), LastPage(start, len), fs, perm)
    ensures MapsBytes(a, b, start, len, fs, perm)
  {
    hide HasByte, FirstPage, LastPage, Key, NoByte, Apart, Entry, MappedPte, IsBlank;
    forall v: nat ensures v in fs <==> HasByte(start, len, v) {
      PagesOfRange(start, len, v);
    }
    forall w: nat | NoByte(start, len, w) ensures Entry(b.mem, b.root, w) == Entry(a.mem, a.root, w) {
      NoByteIsApart(start, len, w);
    }
  }

  lemma UnmapsInBytes(a: Snap, b: Snap, start: nat, len: nat)
    requires start % PAGE_SIZE == 0 && InSpace(start, len)
    requires ClearsEntries(a, b, FirstPage(start), LastPage(start, len))
    ensures UnmapsBytes(a, b, start, len)
  {
    hide HasByte, FirstPage, LastPage, Key, NoByte, Apart, Entry;
    forall v: nat | HasByte(start, len, v) ensures Entry(b.mem, b.root, v) == 0 {
      PagesOfRange(start, len, v);
    }
    forall w: nat | NoByte(start, len, w) ensures Entry(b.mem, b.root, w) == Entry(a.mem, a.root, w) {
      NoByteIsApart(start, len, w);
    }
  }

  /** The guard of mmap and munmap, in bytes. */
  lemma SomePageInBytes(s: Snap, start: nat, len: nat)
    requires start % PAGE_SIZE == 0 && InSpace(start, len)
    ensures (exists v :: FirstPage(start) <= v < LastPage(start, len) && IsMapped(s, v)) <==>
            (exists v: nat :: HasByte(start, len, v) && IsMapped(s, v))
    ensures (exists v :: FirstPage(start) <= v < LastPage(start, len) && !IsMapped(s, v)) <==>
            (exists v: nat :: HasByte(start, len, v) && !IsMapped(s, v))
  {
    hide HasByte, FirstPage, LastPage, IsMapped;
    forall v: nat ensures FirstPage(start) <= v < LastPage(start, len) <==> HasByte(start, len, v) {
      PagesOfRange(start, len, v);
    }
  }

  lemma GoodRange(start: nat, len: nat)
    requires InSpace(start, len) && start % PAGE_SIZE == 0
    ensures FirstPage(start) <= LastPage(start, len)
    ensures len <= KEY_LIMIT * PAGE_SIZE ==> LastPage(start, len) - FirstPage(start) <= KEY_LIMIT
  {
    hide Ceil;
    assert (start + len) % ADDR_LIMIT == start + len;
  }

  class MemorySet {
    const pageTable: PageTable
    var areas: seq<MapArea>

    constructor (pageTable: PageTable)
      ensures this.pageTable == pageTable && areas == []
    {
      this.pageTable := pageTable;
      areas := [];
    }

    ghost predicate Valid(m: Machine)
      reads pageTable, m, m.frames
    {
      pageTable.Valid(m)
    }

    /** The invariant of an address space: each area has a frame of its own for each
        page, the walks for all pages of the areas reach their last level, and a page
        that is mapped is mapped to a frame of the areas. */
    ghost predicate WellFormed(m: Machine)
      reads this, pageTable, m, m.frames
    {
      Valid(m) && AreasOk(View(m), areas)
    }

    ghost function View(m: Machine): Snap
      reads pageTable, m, m.frames
    {
      Snap(m.mem, m.frames.held, pageTable.nodes, pageTable.root)
    }

    /** `MapArea::map` for a framed area: every page gets a frame of its own.  It panics
        if frames run out, a page is mapped already, or the pages wrap onto themselves
        in the 27-bit key space. */
    method MapPages(start: nat, end: nat, perm: nat, m: Machine) returns (ok: bool, fs: map<nat, nat>)
      requires Valid(m) && start <= end && perm < 256
      modifies pageTable`tracked, pageTable`nodes, m, m.frames
      ensures m.Valid()
      ensures !ok ==> m.Exhausted() || end - start > KEY_LIMIT || exists v :: start <= v < end && IsMapped(old(View(m)), v)
      ensures ok ==> forall v :: start <= v < end ==> !IsMapped(old(View(m)), v)
      ensures ok ==> Valid(m) && TakesFrames(old(View(m)), View(m), start, end, fs)
      ensures ok ==> SetsEntries(old(View(m)), View(m), start, end, fs, perm) && WalksMore(old(View(m)), View(m), start, end)
    {
      hide TakesFrames, SetsEntries, TableOk, Entry, MappedPte, PteValid, OnlyTable, SetsEntry, IsMapped, WalksMore, Translate, KeepsWalks;
      ghost var a := View(m);
      fs := map[];
      ok := true;
      MapsNothing(a, start, perm);
      WalksNothing(a, start);
      for vpn := start to end
        invariant Valid(m) && ok
        invariant vpn <= start + KEY_LIMIT && forall v :: start <= v < vpn ==> !IsMapped(a, v)
        invariant TakesFrames(a, View(m), start, vpn, fs) && SetsEntries(a, View(m), start, vpn, fs, perm)
        invariant WalksMore(a, View(m), start, vpn)
      {
        ghost var b := View(m);
        var frame := m.FrameAlloc();
        if frame.None? {
          return false, fs;
        }
        ghost var mem1 := m.mem;
        FrameTaken(b, mem1, frame.value);
        ok := pageTable.Map(vpn, frame.value, perm, m);
        if !ok {
          PageTaken(a, b, mem1, start, vpn, end, fs, perm, frame.value);
          return;
        }
        PageWasFree(a, b, mem1, start, vpn, fs, perm, frame.value);
        MappedIsValid(frame.value, perm);
        SameRoot(a, b, start, vpn, fs);
        OneMoreFrame(a, b, View(m), start, vpn, fs, frame.value, mem1);
        OneMoreEntry(a, b, View(m), start, vpn, fs, perm, frame.value, mem1);
        OneMoreWalk(a, b, View(m), start, vpn, perm, frame.value, mem1);
        fs := fs[vpn := frame.value];
      }
    }

    /** `MemorySet::unmap`: clears the entries and nothing else; in particular the areas
        and the frames stay.  It panics if the keys of the pages repeat. */
    method UnmapPages(start: nat, end: nat, m: Machine) returns (ok: bool)
      requires Valid(m) && start <= end
      requires forall v :: start <= v < end ==> IsMapped(View(m), v)
      modifies pageTable`tracked, pageTable`nodes, m, m.frames
      ensures m.Valid()
      ensures !ok ==> end - start > KEY_LIMIT
      ensures ok ==> Valid(m) && m.frames.held == old(m.frames.held) && pageTable.nodes == old(pageTable.nodes)
      ensures ok ==> ClearsEntries(old(View(m)), View(m), start, end) && ClearsWalks(old(View(m)), View(m), start, end)
    {
      hide ClearsEntries, TableOk, Entry, PteValid, SetsEntry, ClearsWalks, SetsWalk;
      ghost var a := View(m);
      forall v | start <= v < end ensures PteValid(Entry(a.mem, a.root, v)) {
        assert IsMapped(View(m), v);
      }
      ok := true;
      ClearsNothing(a, start);
      for vpn := start to end
        invariant Valid(m) && ok && vpn <= start + KEY_LIMIT
        invariant m.frames.held == old(m.frames.held) && pageTable.nodes == old(pageTable.nodes)
        invariant ClearsEntries(a, View(m), start, vpn) && ClearsWalks(a, View(m), start, vpn)
      {
        ghost var b := View(m);
        StillMapped(a, b, start, vpn);
        ok := pageTable.Unmap(vpn, m);
        if !ok {
          return;
        }
        ClearsOneMore(a, b, View(m), start, vpn);
        OneMoreCleared(a, b, View(m), start, vpn);
      }
    }

    /** Whether some page of the range is mapped, as the loop of `task_mmap` asks. */
    method AnyMapped(start: nat, end: nat, m: Machine) returns (any: bool)
      requires Valid(m) && start <= end
      ensures any <==> exists v :: start <= v < end && IsMapped(View(m), v)
    {
      hide TableOk, Entry, PteValid, Translate;
      for vpn := start to end
        invariant forall v :: start <= v < vpn ==> !IsMapped(View(m), v)
      {
        var pte := pageTable.FindPte(vpn, m);
        EntryOfTranslate(m.mem, pageTable.root, vpn);
        if pte.Some? && PteValid(pte.value) {
          assert IsMapped(View(m), vpn);
          return true;
        }
      }
      return false;
    }

    /** Whether every page of the range is mapped, as the loop of `task_munmap` asks. */
    method AllMapped(start: nat, end: nat, m: Machine) returns (all: bool)
      requires Valid(m) && start <= end
      ensures all <==> forall v :: start <= v < end ==> IsMapped(View(m), v)
    {
      hide TableOk, Entry, PteValid, Translate;
      for vpn := start to end
        invariant forall v :: start <= v < vpn ==> IsMapped(View(m), v)
      {
        var pte := pageTable.FindPte(vpn, m);
        EntryOfTranslate(m.mem, pageTable.root, vpn);
        if pte.None? || !PteValid(pte.value) {
          assert !IsMapped(View(m), vpn);
          return false;
        }
      }
      return true;
    }

    /** `task_mmap`: all or nothing. */
    method Mmap(start: nat, len: nat, port: nat, m: Machine) returns (ok: bool, r: int)
      requires Valid(m) && start < ADDR_LIMIT && len < ADDR_LIMIT
      modifies this, pageTable`tracked, pageTable`nodes, m, m.frames
      ensures m.Valid()
      ensures !ok ==> LastPage(start, len) < FirstPage(start) || m.Exhausted() || LastPage(start, len) - FirstPage(start) > KEY_LIMIT
      ensures start % PAGE_SIZE == 0 && 0 < port < 8 && LastPage(start, len) < FirstPage(start) ==> !ok
      ensures ok ==> r == 0 || r == -1
      ensures ok ==> (r == -1 <==> start % PAGE_SIZE != 0 || port >= 8 || port == 0 || exists v :: FirstPage(start) <= v < LastPage(start, len) && IsMapped(old(View(m)), v))
      ensures ok && r == -1 ==> View(m) == old(View(m)) && areas == old(areas)
      ensures ok && r == 0 ==> |areas| == |old(areas)| + 1 && areas[..|old(areas)|] == old(areas)
      ensures ok && r == 0 ==>
                var area := areas[|old(areas)|];
                && Valid(m) && area == MapArea(FirstPage(start), LastPage(start, len), area.dataFrames, 2 * port + 16)
                && TakesFrames(old(View(m)), View(m), area.start, area.end, area.dataFrames)
                && SetsEntries(old(View(m)), View(m), area.start, area.end, area.dataFrames, area.perm)
      ensures ok && InSpace(start, len) && start % PAGE_SIZE == 0 && 0 < port < 8 ==>
                (r == -1 <==> exists v: nat :: HasByte(start, len, v) && IsMapped(old(View(m)), v))
      ensures ok && r == 0 && InSpace(start, len) ==>
                MapsBytes(old(View(m)), View(m), start, len, areas[|old(areas)|].dataFrames, 2 * port + 16)
      ensures InSpace(start, len) && len <= KEY_LIMIT * PAGE_SIZE && !ok ==> m.Exhausted()
      ensures ok && old(WellFormed(m)) ==> WellFormed(m)
    {
      hide TakesFrames, SetsEntries, TableOk, Entry, PteValid, FirstPage, LastPage, AreasOk, WalksMore, HasByte, MapsBytes;
      ghost var a := View(m);
      if start % PAGE_SIZE != 0 || port >= 8 || port == 0 {
        return true, -1;
      }
      var first, last := FirstPage(start), LastPage(start, len);
      if InSpace(start, len) {
        GoodRange(start, len);
        SomePageInBytes(a, start, len);
      }
      if last < first {
        return false, 0;
      }
      var any := AnyMapped(first, last, m);
      if any {
        return true, -1;
      }
      var fs;
      ok, fs := MapPages(first, last, 2 * port + 16, m);
      if ok {
        var area := MapArea(first, last, fs, 2 * port + 16);
        if AreasOk(a, areas) {
          PushOk(a, View(m), areas, area);
        }
        if InSpace(start, len) {
          MapsInBytes(a, View(m), start, len, fs, 2 * port + 16);
        }
        areas := areas + [area];
      }
      r := 0;
    }

    /** `task_munmap`: all or nothing. */
    method Munmap(start: nat, len: nat, m: Machine) returns (ok: bool, r: int)
      requires Valid(m) && start < ADDR_LIMIT && len < ADDR_LIMIT
      modifies pageTable`tracked, pageTable`nodes, m, m.frames
      ensures m.Valid()
      ensures !ok ==> LastPage(start, len) < FirstPage(start) || LastPage(start, len) - FirstPage(start) > KEY_LIMIT
      ensures start % PAGE_SIZE == 0 && LastPage(start, len) < FirstPage(start) ==> !ok
      ensures ok ==> r == 0 || r == -1
      ensures ok ==> (r == -1 <==> start % PAGE_SIZE != 0 || exists v :: FirstPage(start) <= v < LastPage(start, len) && !IsMapped(old(View(m)), v))
      ensures ok && r == -1 ==> View(m) == old(View(m))
      ensures ok && r == 0 ==>
                && Valid(m) && m.frames.held == old(m.frames.held) && pageTable.nodes == old(pageTable.nodes)
                && ClearsEntries(old(View(m)), View(m), FirstPage(start), LastPage(start, len))
                && ClearsWalks(old(View(m)), View(m), FirstPage(start), LastPage(start, len))
      ensures ok && InSpace(start, len) && start % PAGE_SIZE == 0 ==>
                (r == -1 <==> exists v: nat :: HasByte(start, len, v) && !IsMapped(old(View(m)), v))
      ensures ok && r == 0 && InSpace(start, len) ==> UnmapsBytes(old(View(m)), View(m), start, len)
      ensures InSpace(start, len) && len <= KEY_LIMIT * PAGE_SIZE ==> ok
      ensures ok && old(WellFormed(m)) ==> WellFormed(m)
    {
      hide ClearsEntries, TableOk, Entry, PteValid, FirstPage, LastPage, AreasOk, ClearsWalks, HasByte, UnmapsBytes;
      ghost var a := View(m);
      if start % PAGE_SIZE != 0 {
        return true, -1;
      }
      var first, last := FirstPage(start), LastPage(start, len);
      if InSpace(start, len) {
        GoodRange(start, len);
        SomePageInBytes(a, start, len);
      }
      if last < first {
        return false, 0;
      }
      var all := AllMapped(first, last, m);
      if !all {
        return true, -1;
      }
      ok := UnmapPages(first, last, m);
      if ok && AreasOk(a, areas) {
        ClearedOk(a, View(m), areas, first, last);
      }
      if ok && InSpace(start, len) {
        UnmapsInBytes(a, View(m), start, len);
      }
      r := 0;
    }

    /** `MapArea::unmap`: each page gives back its frame and loses its entry.  It panics
        exactly when some page is not mapped or the pages wrap onto themselves. */
    method UnmapArea(area: MapArea, m: Machine) returns (ok: bool)
      requires Valid(m) && Owned(View(m), area)
      modifies pageTable`tracked, pageTable`nodes, m, m.frames
      ensures m.Valid()
      ensures ok <==> Removable(old(View(m)), area)
      ensures ok ==> Valid(m) && Released(old(View(m)), View(m), area, area.end) && WalksMore(old(View(m)), View(m), 0, 0)
    {
      hide Released, TableOk, Entry, PteValid, SetsEntry, Removable, OnlyTable, SetsWalk, Walks;
      ghost var a := View(m);
      ok := true;
      ReleasesNothing(a, area);
      for vpn := area.start to area.end
        invariant Valid(m) && ok && vpn <= area.start + KEY_LIMIT
        invariant Released(a, View(m), area, vpn) && forall v :: area.start <= v < vpn ==> IsMapped(a, v)
        invariant WalksMore(a, View(m), 0, 0)
      {
        ghost var b := View(m);
        FrameStillHeld(a, b, area, vpn);
        m.FrameDealloc(area.dataFrames[vpn]);
        ok := pageTable.Unmap(vpn, m);
        EntryStillThere(a, b, area, vpn);
        if !ok {
          NotRemovable(a, area, vpn);
          return;
        }
        ReleasesOneMore(a, b, View(m), area, vpn);
        WalkEnds(b, View(m), vpn);
      }
      AllReleased(a, area);
    }

    /** `remove_area_with_start_vpn`: the first area that starts there goes away with
        its entries and frames; `k` is its index. */
    method RemoveArea(startVpn: nat, m: Machine) returns (ok: bool, k: nat)
      requires Valid(m) && AreasOwned(View(m), areas)
      modifies this, pageTable`tracked, pageTable`nodes, m, m.frames
      ensures m.Valid()
      ensures k <= |old(areas)| && forall j :: 0 <= j < k ==> old(areas)[j].start != startVpn
      ensures k == |old(areas)| ==> ok && areas == old(areas) && View(m) == old(View(m))
      ensures k < |old(areas)| ==> old(areas)[k].start == startVpn && (ok <==> Removable(old(View(m)), old(areas)[k]))
      ensures k < |old(areas)| && ok ==>
                && Valid(m) && Released(old(View(m)), View(m), old(areas)[k], old(areas)[k].end)
                && areas == old(areas)[..k] + old(areas)[k + 1..] && AreasOwned(View(m), areas)
      ensures ok && old(WellFormed(m)) ==> WellFormed(m)
    {
      hide Released, TableOk, Removable, AreasOwned, Owned, WalksMore, AreasWalk, AreasBacked;
      k := 0;
      while k < |areas| && areas[k].start != startVpn
        invariant k <= |areas| && forall j :: 0 <= j < k ==> areas[j].start != startVpn
      {
        k := k + 1;
      }
      if k == |areas| {
        return true, k;
      }
      ghost var a := View(m);
      OneOwned(a, areas, k);
      ok := UnmapArea(areas[k], m);
      if ok {
        RestOwned(a, View(m), areas, k);
        RestWalks(a, View(m), areas, k);
        if AreasBacked(a, areas) {
          RestBacked(a, View(m), areas, k);
        }
        areas := areas[..k] + areas[k + 1..];
      }
    }

    /** Dropping the `FrameTracker`s of one area. */
    method DropArea(area: MapArea, m: Machine)
      requires m.Valid() && area.start <= area.end && (forall v :: v in area.dataFrames <==> area.start <= v < area.end)
      requires forall v :: v in area.dataFrames ==> area.dataFrames[v] in m.frames.held
      requires forall v, w :: v in area.dataFrames && w in area.dataFrames && v != w ==> area.dataFrames[v] != area.dataFrames[w]
      modifies m.frames
      ensures m.Valid()
      ensures forall x :: x in m.frames.held <==> x in old(m.frames.held) && !FrameBelow(area, area.end, x)
    {
      hide Conserved, FrameBelow;
      NoneBelow(area);
      for vpn := area.start to area.end
        invariant m.Valid()
        invariant forall x :: x in m.frames.held <==> x in old(m.frames.held) && !FrameBelow(area, vpn, x)
      {
        NotYetBelow(area, vpn);
        m.FrameDealloc(area.dataFrames[vpn]);
        forall x ensures FrameBelow(area, vpn + 1, x) <==> FrameBelow(area, vpn, x) || x == area.dataFrames[vpn] {
          OneMoreBelow(area, vpn, x);
        }
      }
    }

    /** `recycle_data_pages`: all areas go, and with them exactly their frames. */
    method RecycleDataPages(m: Machine)
      requires m.Valid() && AreasOwned(View(m), areas)
      modifies this, m.frames
      ensures m.Valid() && areas == []
      ensures forall x :: x in m.frames.held <==> x in old(m.frames.held) && x !in DataFrames(old(areas))
    {
      hide Conserved, FrameBelow, DataFrames;
      ghost var a := View(m);
      NoDataFrames();
      assert areas[..0] == [];
      for k := 0 to |areas|
        invariant m.Valid() && areas == old(areas)
        invariant forall x :: x in m.frames.held <==> x in old(m.frames.held) && x !in DataFrames(areas[..k])
      {
        FramesStillHeld(a, areas, k);
        DropArea(areas[k], m);
        forall x ensures x in DataFrames(areas[..k + 1]) <==> x in DataFrames(areas[..k]) || FrameBelow(areas[k], areas[k].end, x) {
          OneMoreArea(a, areas, k, x);
        }
      }
      assert areas[..|areas|] == areas;
      areas := [];
    }

    /** The drop of an address space: its table's frames go back, then those of whatever
        areas are left. */
    method Drop(m: Machine)
      requires WellFormed(m)
      modifies this, pageTable`tracked, m.frames
      ensures m.Valid() && areas == []
      ensures forall x :: x in m.frames.held <==>
                x in old(m.frames.held) && x !in old(pageTable.nodes) && x !in DataFrames(old(areas))
    {
      hide TableOk, Conserved, DataFrames, AreasWalk, AreasBacked, AreasOwned;
      ghost var a := View(m);
      pageTable.DropFrames(m);
      OwnedWithoutTable(a, View(m), areas);
      RecycleDataPages(m);
    }
  }

  /** From `a` to `b` the pages [start, end) have lost their entries; no other page and
      no frame outside the table has changed. */
  ghost predicate ClearsEntries(a: Snap, b: Snap, start: nat, end: nat) {
    && b.root == a.root && |b.mem| == |a.mem|
    && (forall v :: start <= v < end ==> Entry(b.mem, b.root, v) == 0)
    && (forall w :: Apart(start, end, w) ==> Entry(b.mem, b.root, w) == Entry(a.mem, a.root, w))
    && (forall x :: x in a.held && x !in a.nodes && x < |a.mem| ==> b.mem[x] == a.mem[x])
  }

  lemma ClearsNothing(a: Snap, start: nat)
    ensures ClearsEntries(a, a, start, start) && ClearsWalks(a, a, start, start)
  {
    hide Entry, Translate;
  }

  lemma StillMapped(a: Snap, b: Snap, start: nat, vpn: nat)
    requires ClearsEntries(a, b, start, vpn) && start <= vpn <= start + KEY_LIMIT && PteValid(Entry(a.mem, a.root, vpn))
    ensures PteValid(Entry(b.mem, b.root, vpn)) <==> vpn < start + KEY_LIMIT
  {
    hide Entry;
    if vpn < start + KEY_LIMIT {
      forall v | start <= v < vpn ensures Key(v) != Key(vpn) {
        NearKeysDiffer(v, vpn);
      }
      assert Apart(start, vpn, vpn);
    } else {
      assert Key(vpn) == Key(start);
      SameKeySameEntry(b, start, vpn);
    }
  }

  lemma ClearsOneMore(a: Snap, b: Snap, c: Snap, start: nat, vpn: nat)
    requires ClearsEntries(a, b, start, vpn) && start <= vpn < start + KEY_LIMIT
    requires c.root == b.root && SetsEntry(b.mem, c.mem, b.root, vpn, 0)
    requires a.held == b.held && a.nodes == b.nodes && OnlyTable(b.mem, b.held, b.nodes, c.mem, c.held, c.nodes)
    ensures ClearsEntries(a, c, start, vpn + 1)
  {
    hide Entry;
    forall v | start <= v < vpn ensures Key(v) != Key(vpn) {
      NearKeysDiffer(v, vpn);
    }
    forall w | Apart(start, vpn + 1, w) ensures Entry(c.mem, c.root, w) == Entry(a.mem, a.root, w) {
      assert Key(vpn) != Key(w);
      assert Apart(start, vpn, w);
    }
  }

  lemma EntryOfTranslate(mem: Mem, root: nat, vpn: nat)
    ensures PteValid(Entry(mem, root, vpn)) <==> Translate(mem, root, vpn).Some? && PteValid(Translate(mem, root, vpn).value)
  {
    hide Walk, Index;
  }

  /** Taking a frame leaves the table in order. */
  lemma FrameTaken(b: Snap, mem1: Mem, f: nat)
    requires Good(b) && |mem1| == |b.mem| && f < |mem1| && mem1 == b.mem[f := mem1[f]] && f !in b.held
    ensures TableOk(mem1, b.root, b.nodes)
  {
    RootInNodes(b.mem, b.root, b.nodes);
    TableFrame(b.mem, mem1, b.root, b.nodes);
  }

  lemma SameRoot(a: Snap, b: Snap, start: nat, end: nat, fs: map<nat, nat>)
    requires TakesFrames(a, b, start, end, fs)
    ensures b.root == a.root
  {
  }

  /** If `map` refused the page, it was mapped before or the keys have come round. */
  lemma PageTaken(a: Snap, b: Snap, mem1: Mem, start: nat, vpn: nat, end: nat, fs: map<nat, nat>, perm: nat, f: nat)
    requires Good(b) && SetsEntries(a, b, start, vpn, fs, perm) && start <= vpn < end
    requires |mem1| == |b.mem| && f < |mem1| && mem1 == b.mem[f := mem1[f]] && f !in b.held
    ensures PteValid(Entry(mem1, b.root, vpn)) ==> end - start > KEY_LIMIT || IsMapped(a, vpn)
  {
    hide Entry, PteValid, MappedPte, TableOk;
    RootInNodes(b.mem, b.root, b.nodes);
    EntryFrame(b, mem1, vpn);
    if vpn < start + KEY_LIMIT {
      KeysNotRound(start, vpn);
    }
  }

  lemma KeysNotRound(start: nat, vpn: nat)
    requires start <= vpn < start + KEY_LIMIT
    ensures Apart(start, vpn, vpn)
  {
    forall v | start <= v < vpn ensures Key(v) != Key(vpn) {
      NearKeysDiffer(v, vpn);
    }
  }

  /** If `map` accepted the page, it was free and its key had not come round yet. */
  lemma PageWasFree(a: Snap, b: Snap, mem1: Mem, start: nat, vpn: nat, fs: map<nat, nat>, perm: nat, f: nat)
    requires Good(b) && SetsEntries(a, b, start, vpn, fs, perm) && start <= vpn <= start + KEY_LIMIT
    requires |mem1| == |b.mem| && f < |mem1| && mem1 == b.mem[f := mem1[f]] && f !in b.held
    requires !PteValid(Entry(mem1, b.root, vpn))
    ensures vpn < start + KEY_LIMIT && !IsMapped(a, vpn)
  {
    hide Entry, PteValid, MappedPte, TableOk, Translate, Apart;
    RootInNodes(b.mem, b.root, b.nodes);
    EntryFrame(b, mem1, vpn);
    if vpn == start + KEY_LIMIT {
      assert Key(vpn) == Key(start);
      SameKeySameEntry(b, start, vpn);
      MappedIsValid(fs[start], perm);
    } else {
      KeysNotRound(start, vpn);
    }
  }

  lemma SameKeySameEntry(b: Snap, v: nat, w: nat)
    requires Key(v) == Key(w)
    ensures Entry(b.mem, b.root, v) == Entry(b.mem, b.root, w)
  {
    IndexesAreKey(v, w);
  }

  /** mmap and then munmap of the same range gives back the map of pages, but not the
      frames: the area keeps those. */
  lemma MmapMunmapRoundTrip(a: Snap, b: Snap, c: Snap, start: nat, end: nat, fs: map<nat, nat>, perm: nat)
    requires forall v :: start <= v < end ==> !IsMapped(a, v)
    requires TakesFrames(a, b, start, end, fs) && SetsEntries(a, b, start, end, fs, perm)
    requires ClearsEntries(b, c, start, end) && c.held == b.held
    ensures forall w: nat :: Entry(c.mem, c.root, w) == Entry(a.mem, a.root, w)
    ensures forall v :: start <= v < end ==> fs[v] in c.held && fs[v] !in a.held
  {
    hide Entry, PteValid, MappedPte, Key;
    forall w: nat ensures Entry(c.mem, c.root, w) == Entry(a.mem, a.root, w) {
      if !Apart(start, end, w) {
        var v :| start <= v < end && Key(v) == Key(w);
        assert !IsMapped(a, v);
        UnmappedIsZero(a, v);
        SameKeySameEntry(a, v, w);
        SameKeySameEntry(c, v, w);
      }
    }
  }

  lemma UnmappedIsZero(a: Snap, v: nat)
    requires !IsMapped(a, v)
    ensures Entry(a.mem, a.root, v) == 0
  {
  }

  // ----- areas and the frames they own

  /** The area has a frame of its own for each page, none of them a table. */
  ghost predicate Owned(s: Snap, area: MapArea) {
    && area.start <= area.end
    && (forall v :: v in area.dataFrames <==> area.start <= v < area.end)
    && (forall v :: v in area.dataFrames ==> area.dataFrames[v] in s.held && area.dataFrames[v] !in s.nodes)
    && (forall v, w :: v in area.dataFrames && w in area.dataFrames && v != w ==> area.dataFrames[v] != area.dataFrames[w])
  }

  /** No frame belongs to two pages of the address space. */
  ghost predicate AreasOwned(s: Snap, areas: seq<MapArea>) {
    && (forall k :: 0 <= k < |areas| ==> Owned(s, areas[k]))
    && (forall j, k, v, w :: 0 <= j < k < |areas| && v in areas[j].dataFrames && w in areas[k].dataFrames ==>
          areas[j].dataFrames[v] != areas[k].dataFrames[w])
  }

  /** All pages of the areas can be looked up. */
  ghost predicate AreasWalk(s: Snap, areas: seq<MapArea>) {
    forall k, v :: 0 <= k < |areas| && areas[k].start <= v < areas[k].end ==> Walks(s, v)
  }

  /** The page's entry names a frame that some area has for a page with that key. */
  ghost predicate Backed(s: Snap, areas: seq<MapArea>, v: nat) {
    exists j, u :: 0 <= j < |areas| && u in areas[j].dataFrames && Backs(s, areas[j], u, v)
  }

  ghost predicate Backs(s: Snap, area: MapArea, u: nat, v: nat)
    requires u in area.dataFrames
  {
    && Key(u) == Key(v) && area.dataFrames[u] < PPN_LIMIT && area.perm < 256
    && Entry(s.mem, s.root, v) == MappedPte(area.dataFrames[u], area.perm)
  }

  /** Every mapped page of the areas is backed by a frame of theirs. */
  ghost predicate AreasBacked(s: Snap, areas: seq<MapArea>) {
    forall k, v :: 0 <= k < |areas| && areas[k].start <= v < areas[k].end && IsMapped(s, v) ==> Backed(s, areas, v)
  }

  ghost predicate AreasOk(s: Snap, areas: seq<MapArea>) {
    && AreasOwned(s, areas) && AreasWalk(s, areas) && AreasBacked(s, areas)
    && forall k :: 0 <= k < |areas| ==> areas[k].perm < 256
  }

  ghost predicate Removable(s: Snap, area: MapArea) {
    area.end - area.start <= KEY_LIMIT && forall v :: area.start <= v < area.end ==> IsMapped(s, v)
  }

  ghost predicate FrameBelow(area: MapArea, k: nat, x: nat) {
    exists v :: v in area.dataFrames && area.start <= v < k && area.dataFrames[v] == x
  }

  /** The pages before `k` have lost their entries and their frames; nothing else has
      changed. */
  ghost predicate Released(a: Snap, b: Snap, area: MapArea, k: nat) {
    && b.root == a.root && |b.mem| == |a.mem| && b.nodes == a.nodes
    && (forall v :: area.start <= v < k ==> Entry(b.mem, b.root, v) == 0)
    && (forall w :: Apart(area.start, k, w) ==> Entry(b.mem, b.root, w) == Entry(a.mem, a.root, w))
    && (forall x :: x in b.held <==> x in a.held && !FrameBelow(area, k, x))
    && (forall x :: x in b.held && x !in b.nodes && x < |a.mem| ==> b.mem[x] == a.mem[x])
  }

  lemma ReleasesNothing(a: Snap, area: MapArea)
    ensures Released(a, a, area, area.start)
  {
    hide Entry;
  }

  lemma FrameStillHeld(a: Snap, b: Snap, area: MapArea, k: nat)
    requires Owned(a, area) && Released(a, b, area, k) && area.start <= k < area.end
    ensures k in area.dataFrames && area.dataFrames[k] in b.held && area.dataFrames[k] !in b.nodes
  {
    hide Entry;
  }

  lemma EntryStillThere(a: Snap, b: Snap, area: MapArea, k: nat)
    requires Released(a, b, area, k) && area.start <= k <= area.start + KEY_LIMIT
    ensures PteValid(Entry(b.mem, b.root, k)) <==> k < area.start + KEY_LIMIT && IsMapped(a, k)
  {
    hide Entry, FrameBelow;
    if k < area.start + KEY_LIMIT {
      KeysNotRound(area.start, k);
    } else {
      assert Key(k) == Key(area.start);
      SameKeySameEntry(b, area.start, k);
    }
  }

  lemma NotRemovable(a: Snap, area: MapArea, k: nat)
    requires area.start <= k < area.end && !(k < area.start + KEY_LIMIT && IsMapped(a, k))
    ensures !Removable(a, area)
  {
    hide IsMapped;
  }

  lemma AllReleased(a: Snap, area: MapArea)
    requires area.end <= area.start + KEY_LIMIT && forall v :: area.start <= v < area.end ==> IsMapped(a, v)
    ensures Removable(a, area)
  {
    hide IsMapped;
  }

  lemma ReleasesOneMore(a: Snap, b: Snap, c: Snap, area: MapArea, k: nat)
    requires Owned(a, area) && Released(a, b, area, k) && area.start <= k < area.end && k < area.start + KEY_LIMIT
    requires c.root == b.root && c.nodes == b.nodes && c.held == b.held - {area.dataFrames[k]}
    requires SetsEntry(b.mem, c.mem, b.root, k, 0) && OnlyTable(b.mem, c.held, b.nodes, c.mem, c.held, c.nodes)
    ensures Released(a, c, area, k + 1)
  {
    hide Entry, Owned, FrameBelow, SetsEntry, Apart;
    assert k in area.dataFrames by {
      FrameStillHeld(a, b, area, k);
    }
    OneMoreEmptied(a, b, c, area.start, k);
    forall x ensures FrameBelow(area, k + 1, x) <==> FrameBelow(area, k, x) || x == area.dataFrames[k] {
      OneMoreBelow(area, k, x);
    }
  }

  lemma OneMoreEmptied(a: Snap, b: Snap, c: Snap, start: nat, k: nat)
    requires c.root == b.root && start <= k < start + KEY_LIMIT && SetsEntry(b.mem, c.mem, b.root, k, 0)
    requires forall v :: start <= v < k ==> Entry(b.mem, b.root, v) == 0
    requires forall w :: Apart(start, k, w) ==> Entry(b.mem, b.root, w) == Entry(a.mem, a.root, w)
    ensures forall v :: start <= v < k + 1 ==> Entry(c.mem, c.root, v) == 0
    ensures forall w :: Apart(start, k + 1, w) ==> Entry(c.mem, c.root, w) == Entry(a.mem, a.root, w)
  {
    hide Entry, Key, SetsEntry, Apart;
    forall v | start <= v < k + 1 ensures Entry(c.mem, c.root, v) == 0 {
      EntryCleared(b, c, k, v);
    }
    forall w | Apart(start, k + 1, w) ensures Entry(c.mem, c.root, w) == Entry(a.mem, a.root, w) {
      EntryCleared(b, c, k, w);
      ApartFromFewer(start, k, w);
    }
  }

  lemma EntryCleared(b: Snap, c: Snap, k: nat, w: nat)
    requires c.root == b.root && SetsEntry(b.mem, c.mem, b.root, k, 0)
    ensures Entry(c.mem, c.root, w) == if Key(w) == Key(k) then 0 else Entry(b.mem, b.root, w)
  {
    hide Entry, Key;
  }

  lemma ApartFromFewer(start: nat, k: nat, w: nat)
    requires start <= k && Apart(start, k + 1, w)
    ensures Apart(start, k, w) && Key(k) != Key(w)
  {
    hide Key;
  }

  lemma OneMoreBelow(area: MapArea, k: nat, x: nat)
    requires area.start <= k && k in area.dataFrames
    ensures FrameBelow(area, k + 1, x) <==> FrameBelow(area, k, x) || x == area.dataFrames[k]
  {
  }

  lemma OneOwned(s: Snap, areas: seq<MapArea>, k: nat)
    requires AreasOwned(s, areas) && k < |areas|
    ensures Owned(s, areas[k])
  {
    hide Owned;
  }

  /** The other areas keep their frames when one is removed. */
  lemma RestOwned(a: Snap, b: Snap, areas: seq<MapArea>, k: nat)
    requires AreasOwned(a, areas) && k < |areas| && Released(a, b, areas[k], areas[k].end)
    ensures AreasOwned(b, areas[..k] + areas[k + 1..])
  {
    hide Entry;
    var rest := areas[..k] + areas[k + 1..];
    assert forall j :: 0 <= j < |rest| ==> rest[j] == areas[if j < k then j else j + 1];
    forall j | 0 <= j < |rest| ensures Owned(b, rest[j]) {
      assert Owned(a, areas[if j < k then j else j + 1]);
    }
  }

  /** mmap adds an area that owns its frames. */
  lemma PushOwned(a: Snap, b: Snap, areas: seq<MapArea>, area: MapArea)
    requires AreasOwned(a, areas) && area.start <= area.end && TakesFrames(a, b, area.start, area.end, area.dataFrames)
    ensures AreasOwned(b, areas + [area])
  {
    hide IsBlank;
    var all := areas + [area];
    forall k | 0 <= k < |all| ensures Owned(b, all[k]) {
      if k < |areas| {
        assert Owned(a, areas[k]);
      }
    }
    forall j, k, v, w | 0 <= j < k < |all| && v in all[j].dataFrames && w in all[k].dataFrames
      ensures all[j].dataFrames[v] != all[k].dataFrames[w]
    {
      assert Owned(a, areas[j]);
    }
  }

  /** Mapping an area and removing it gives back the map of pages and all of the area's
      frames; only frames that became tables stay in use. */
  lemma PushRemoveRoundTrip(a: Snap, b: Snap, c: Snap, area: MapArea)
    requires forall v :: area.start <= v < area.end ==> !IsMapped(a, v)
    requires TakesFrames(a, b, area.start, area.end, area.dataFrames)
    requires SetsEntries(a, b, area.start, area.end, area.dataFrames, area.perm)
    requires Released(b, c, area, area.end)
    ensures forall w: nat :: Entry(c.mem, c.root, w) == Entry(a.mem, a.root, w)
    ensures forall x :: x in c.held <==> x in a.held || (x in b.held && x in b.nodes)
  {
    hide Entry, PteValid, MappedPte, Key, IsBlank;
    forall w: nat ensures Entry(c.mem, c.root, w) == Entry(a.mem, a.root, w) {
      if !Apart(area.start, area.end, w) {
        var v :| area.start <= v < area.end && Key(v) == Key(w);
        assert !IsMapped(a, v);
        UnmappedIsZero(a, v);
        SameKeySameEntry(a, v, w);
        SameKeySameEntry(c, v, w);
      }
    }
  }

  // ----- walks

  lemma SameKeySameWalk(s: Snap, v: nat, w: nat)
    requires Key(v) == Key(w)
    ensures Translate(s.mem, s.root, v) == Translate(s.mem, s.root, w)
  {
    IndexesAreKey(v, w);
  }

  /** `map` of a fresh frame gives its page a walk and keeps all others. */
  lemma OneMoreWalk(a: Snap, b: Snap, c: Snap, start: nat, vpn: nat, perm: nat, f: nat, mem1: Mem)
    requires WalksMore(a, b, start, vpn)
    requires Good(b) && |mem1| == |b.mem| && f < |mem1| < PPN_LIMIT + 1 && mem1 == b.mem[f := mem1[f]] && f !in b.held && perm < 256
    requires c.root == b.root && |c.mem| == |b.mem| && f < PPN_LIMIT
    requires KeepsWalks(mem1, c.mem, b.root, vpn) && Translate(c.mem, c.root, vpn) == Some(MappedPte(f, perm))
    ensures WalksMore(a, c, start, vpn + 1)
  {
    hide Translate, TableOk, PteValid, MappedPte, Key, Entry;
    RootInNodes(b.mem, b.root, b.nodes);
    MappedIsValid(f, perm);
    forall v: nat | Walks(b, v) || v == vpn ensures Walks(c, v) {
      if Key(v) == Key(vpn) {
        SameKeySameWalk(c, v, vpn);
      } else {
        EntryFrame(b, mem1, v);
      }
    }
  }

  /** From `a` to `b` the walks for [start, end) end at an empty entry; all other walks
      are as before. */
  ghost predicate ClearsWalks(a: Snap, b: Snap, start: nat, end: nat) {
    && b.root == a.root && |b.mem| == |a.mem|
    && (forall v :: start <= v < end ==> Translate(b.mem, b.root, v) == Some(0))
    && (forall w :: Apart(start, end, w) ==> Translate(b.mem, b.root, w) == Translate(a.mem, a.root, w))
  }

  lemma OneMoreCleared(a: Snap, b: Snap, c: Snap, start: nat, k: nat)
    requires ClearsWalks(a, b, start, k) && start <= k && c.root == b.root && |c.mem| == |b.mem| && SetsWalk(b.mem, c.mem, b.root, k, 0)
    ensures ClearsWalks(a, c, start, k + 1)
  {
    hide Translate, Key, SetsWalk, Apart;
    forall v | start <= v < k + 1 ensures Translate(c.mem, c.root, v) == Some(0) {
      WalkCleared(b, c, k, v);
    }
    forall w | Apart(start, k + 1, w) ensures Translate(c.mem, c.root, w) == Translate(a.mem, a.root, w) {
      WalkCleared(b, c, k, w);
      ApartFromFewer(start, k, w);
    }
  }

  lemma WalkCleared(b: Snap, c: Snap, k: nat, w: nat)
    requires c.root == b.root && SetsWalk(b.mem, c.mem, b.root, k, 0)
    ensures Translate(c.mem, c.root, w) == if Key(w) == Key(k) then Some(0) else Translate(b.mem, b.root, w)
  {
    hide Translate, Key;
  }

  /** `unmap` ends no walk earlier. */
  lemma WalkEnds(b: Snap, c: Snap, k: nat)
    requires c.root == b.root && SetsWalk(b.mem, c.mem, b.root, k, 0)
    ensures forall v: nat :: Walks(b, v) ==> Walks(c, v)
  {
    hide Translate, Key, SetsWalk;
    forall v: nat | Walks(b, v) ensures Walks(c, v) {
      WalkCleared(b, c, k, v);
    }
  }

  lemma ClearedWalks(a: Snap, b: Snap, start: nat, end: nat, v: nat)
    requires ClearsWalks(a, b, start, end) && Walks(a, v)
    ensures Walks(b, v)
  {
    hide Translate, Key;
    if !Apart(start, end, v) {
      var u :| start <= u < end && Key(u) == Key(v);
      SameKeySameWalk(b, u, v);
    }
  }

  // ----- the invariant of an address space

  lemma NoAreasOk(s: Snap)
    ensures AreasOk(s, [])
  {
  }

  lemma PushOk(a: Snap, b: Snap, areas: seq<MapArea>, area: MapArea)
    requires AreasOk(a, areas) && area.start <= area.end && area.perm < 256
    requires TakesFrames(a, b, area.start, area.end, area.dataFrames) && WalksMore(a, b, area.start, area.end)
    requires SetsEntries(a, b, area.start, area.end, area.dataFrames, area.perm)
    ensures AreasOk(b, areas + [area])
  {
    hide TakesFrames, AreasOwned, Walks, AreasBacked, SetsEntries;
    PushOwned(a, b, areas, area);
    PushBacked(a, b, areas, area);
  }

  lemma PushBacked(a: Snap, b: Snap, areas: seq<MapArea>, area: MapArea)
    requires AreasBacked(a, areas) && SetsEntries(a, b, area.start, area.end, area.dataFrames, area.perm)
    ensures AreasBacked(b, areas + [area])
  {
    hide Entry, MappedPte, PteValid, Key, Backs;
    var all := areas + [area];
    forall k, v | 0 <= k < |all| && all[k].start <= v < all[k].end && IsMapped(b, v) ensures Backed(b, all, v) {
      if Apart(area.start, area.end, v) {
        assert IsMapped(a, v) && k < |areas|;
        var j, u :| 0 <= j < |areas| && u in areas[j].dataFrames && Backs(a, areas[j], u, v);
        SameBacking(a, b, areas[j], u, v);
        assert all[j] == areas[j] && Backs(b, all[j], u, v);
      } else {
        var u :| area.start <= u < area.end && Key(u) == Key(v);
        SameKeySameEntry(b, u, v);
        OwnBacking(b, area, u, v);
        assert all[|areas|] == area && Backs(b, all[|areas|], u, v);
      }
    }
  }

  lemma SameBacking(a: Snap, b: Snap, area: MapArea, u: nat, v: nat)
    requires u in area.dataFrames && Backs(a, area, u, v) && Entry(b.mem, b.root, v) == Entry(a.mem, a.root, v)
    ensures Backs(b, area, u, v)
  {
    hide Entry, MappedPte, Key;
  }

  lemma OwnBacking(b: Snap, area: MapArea, u: nat, v: nat)
    requires u in area.dataFrames && Key(u) == Key(v) && area.dataFrames[u] < PPN_LIMIT && area.perm < 256
    requires Entry(b.mem, b.root, v) == MappedPte(area.dataFrames[u], area.perm)
    ensures Backs(b, area, u, v)
  {
    hide Entry, MappedPte, Key;
  }

  lemma ClearedOk(a: Snap, b: Snap, areas: seq<MapArea>, start: nat, end: nat)
    requires AreasOk(a, areas) && ClearsWalks(a, b, start, end) && b.held == a.held && b.nodes == a.nodes
    requires ClearsEntries(a, b, start, end)
    ensures AreasOk(b, areas)
  {
    hide Walks, ClearsWalks, ClearsEntries, AreasBacked;
    ClearedBacked(a, b, areas, start, end);
    forall k, v | 0 <= k < |areas| && areas[k].start <= v < areas[k].end ensures Walks(b, v) {
      ClearedWalks(a, b, start, end, v);
    }
    forall k | 0 <= k < |areas| ensures Owned(b, areas[k]) {
      assert Owned(a, areas[k]);
    }
  }

  lemma ClearedBacked(a: Snap, b: Snap, areas: seq<MapArea>, start: nat, end: nat)
    requires AreasBacked(a, areas) && ClearsEntries(a, b, start, end)
    ensures AreasBacked(b, areas)
  {
    hide Entry, MappedPte, Key, Backs;
    forall k, v | 0 <= k < |areas| && areas[k].start <= v < areas[k].end && IsMapped(b, v) ensures Backed(b, areas, v) {
      if !Apart(start, end, v) {
        var u :| start <= u < end && Key(u) == Key(v);
        SameKeySameEntry(b, u, v);
      }
      assert IsMapped(a, v);
      var j, u :| 0 <= j < |areas| && u in areas[j].dataFrames && Backs(a, areas[j], u, v);
      SameBacking(a, b, areas[j], u, v);
    }
  }

  /** The pages that stay mapped when area `k` goes are backed by the other areas. */
  lemma RestBacked(a: Snap, b: Snap, areas: seq<MapArea>, k: nat)
    requires AreasBacked(a, areas) && AreasOwned(a, areas) && k < |areas| && Released(a, b, areas[k], areas[k].end)
    ensures AreasBacked(b, areas[..k] + areas[k + 1..])
  {
    hide Entry, MappedPte, Key, Backs, Owned, FrameBelow;
    var rest := areas[..k] + areas[k + 1..];
    assert forall j :: 0 <= j < |rest| ==> rest[j] == areas[if j < k then j else j + 1];
    forall i, v | 0 <= i < |rest| && rest[i].start <= v < rest[i].end && IsMapped(b, v) ensures Backed(b, rest, v) {
      if !Apart(areas[k].start, areas[k].end, v) {
        var u :| areas[k].start <= u < areas[k].end && Key(u) == Key(v);
        SameKeySameEntry(b, u, v);
      }
      assert IsMapped(a, v) && areas[if i < k then i else i + 1] == rest[i];
      var j, u :| 0 <= j < |areas| && u in areas[j].dataFrames && Backs(a, areas[j], u, v);
      BackingPage(a, areas[j], u, v);
      assert j != k;
      SameBacking(a, b, areas[j], u, v);
      assert rest[if j < k then j else j - 1] == areas[j];
    }
  }

  lemma BackingPage(s: Snap, area: MapArea, u: nat, v: nat)
    requires Owned(s, area) && u in area.dataFrames && Backs(s, area, u, v)
    ensures area.start <= u < area.end && Key(u) == Key(v)
  {
  }

  lemma RestWalks(a: Snap, b: Snap, areas: seq<MapArea>, k: nat)
    requires k < |areas| && WalksMore(a, b, 0, 0)
    ensures AreasWalk(a, areas) ==> AreasWalk(b, areas[..k] + areas[k + 1..])
  {
    hide Walks;
    var rest := areas[..k] + areas[k + 1..];
    assert forall j :: 0 <= j < |rest| ==> rest[j] == areas[if j < k then j else j + 1];
  }

  // ----- the frames of areas

  ghost function DataFrames(areas: seq<MapArea>): set<nat> {
    set k, v | 0 <= k < |areas| && v in areas[k].dataFrames :: areas[k].dataFrames[v]
  }

  lemma NoDataFrames()
    ensures DataFrames([]) == {}
  {
  }

  lemma DataFrameOf(areas: seq<MapArea>, k: nat, v: nat)
    requires k < |areas| && v in areas[k].dataFrames
    ensures areas[k].dataFrames[v] in DataFrames(areas)
  {
  }

  lemma NoneBelow(area: MapArea)
    ensures forall x :: !FrameBelow(area, area.start, x)
  {
  }

  lemma NotYetBelow(area: MapArea, vpn: nat)
    requires forall v, w :: v in area.dataFrames && w in area.dataFrames && v != w ==> area.dataFrames[v] != area.dataFrames[w]
    requires vpn in area.dataFrames
    ensures !FrameBelow(area, vpn, area.dataFrames[vpn])
  {
  }

  lemma FramesStillHeld(a: Snap, areas: seq<MapArea>, k: nat)
    requires AreasOwned(a, areas) && k < |areas|
    ensures Owned(a, areas[k])
    ensures forall v :: v in areas[k].dataFrames ==> areas[k].dataFrames[v] in a.held && areas[k].dataFrames[v] !in DataFrames(areas[..k])
  {
    hide Owned;
    assert Owned(a, areas[k]);
    forall v | v in areas[k].dataFrames
      ensures areas[k].dataFrames[v] in a.held && areas[k].dataFrames[v] !in DataFrames(areas[..k])
    {
      OwnedFrame(a, areas[k], v);
    }
  }

  lemma OwnedFrame(a: Snap, area: MapArea, v: nat)
    requires Owned(a, area) && v in area.dataFrames
    ensures area.dataFrames[v] in a.held && area.dataFrames[v] !in a.nodes && area.start <= v < area.end
  {
  }

  lemma OneMoreArea(a: Snap, areas: seq<MapArea>, k: nat, x: nat)
    requires k < |areas| && Owned(a, areas[k])
    ensures x in DataFrames(areas[..k + 1]) <==> x in DataFrames(areas[..k]) || FrameBelow(areas[k], areas[k].end, x)
  {
    var less, more := areas[..k], areas[..k + 1];
    assert forall j :: 0 <= j < k ==> less[j] == areas[j] == more[j];
    assert more[k] == areas[k];
    if x in DataFrames(more) {
      var j, v :| 0 <= j < |more| && v in more[j].dataFrames && more[j].dataFrames[v] == x;
      if j < k {
        DataFrameOf(less, j, v);
      }
    }
    if FrameBelow(areas[k], areas[k].end, x) {
      var v :| v in areas[k].dataFrames && areas[k].dataFrames[v] == x;
      DataFrameOf(more, k, v);
    }
    if x in DataFrames(less) {
      var j, v :| 0 <= j < |less| && v in less[j].dataFrames && less[j].dataFrames[v] == x;
      DataFrameOf(more, j, v);
    }
  }

  lemma OwnedWithoutTable(a: Snap, b: Snap, areas: seq<MapArea>)
    requires AreasOwned(a, areas) && b.nodes == a.nodes && forall x :: x in b.held <==> x in a.held && x !in a.nodes
    ensures AreasOwned(b, areas)
  {
    forall k | 0 <= k < |areas| ensures Owned(b, areas[k]) {
      assert Owned(a, areas[k]);
    }
  }
}
