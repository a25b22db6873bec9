/** All address spaces of the machine at once: whatever one of them does, the others keep
    their translations and their bytes, and every frame in use has exactly one owner. */
module SpaceFamilies {
  import opened Common
  import opened Recycling
  import opened PageTables
  import opened AddressSpaces
  import opened MemorySets
  import opened ForkSpaces

  /** An address space as a value. */
  datatype Space = Space(root: nat, nodes: map<nat, Node>, areas: seq<MapArea>)

  ghost function SnapOf(mem: Mem, held: set<nat>, s: Space): Snap {
    Snap(mem, held, s.nodes, s.root)
  }

  /** The frames an address space has taken: its tables and its areas' pages. */
  ghost predicate Takes(s: Space, x: nat) {
    x in s.nodes || x in DataFrames(s.areas)
  }

  ghost predicate SpaceOk(mem: Mem, held: set<nat>, s: Space) {
    Good(SnapOf(mem, held, s)) && AreasOk(SnapOf(mem, held, s), s.areas)
  }

  /** Each space meets its invariant, and each frame in use is taken by exactly one space
      or belongs to `others`, the rest of the kernel. */
  ghost predicate FamilyOk(mem: Mem, held: set<nat>, fam: seq<Space>, others: set<nat>) {
    && (forall i :: 0 <= i < |fam| ==> SpaceOk(mem, held, fam[i]))
    && (forall i, j, x: nat :: 0 <= i < |fam| && 0 <= j < |fam| && i != j && Takes(fam[i], x) ==> !Takes(fam[j], x))
    && (forall i, x: nat :: 0 <= i < |fam| && Takes(fam[i], x) ==> x !in others && x in held)
    && (forall x: nat :: x in others ==> x in held)
    && (forall x: nat :: x in held ==> x in others || exists i :: 0 <= i < |fam| && Takes(fam[i], x))
  }

  /** What a space has is as before: its frames' bytes and so its translations. */
  ghost predicate SameSpace(mem: Mem, mem': Mem, s: Space) {
    && |mem'| == |mem|
    && (forall x: nat :: Takes(s, x) && x < |mem| ==> mem'[x] == mem[x])
    && (forall v: nat :: Translate(mem', s.root, v) == Translate(mem, s.root, v))
  }

  /** A change that concerns one space: it gives back or takes only frames of its own or
      free ones, and leaves the bytes of all other frames in use alone. */
  ghost predicate OwnChange(mem: Mem, held: set<nat>, s: Space, mem': Mem, held': set<nat>, s': Space) {
    && |mem'| == |mem|
    && (forall x: nat :: x in held' <==> (x in held && !Takes(s, x)) || Takes(s', x))
    && (forall x: nat :: Takes(s', x) && !Takes(s, x) ==> x !in held)
    && (forall x: nat :: x in held && !Takes(s, x) && x < |mem| ==> mem'[x] == mem[x])
  }

  /** A space that owns none of the frames that changed is as before. */
  lemma Bystander(mem: Mem, held: set<nat>, mem': Mem, held': set<nat>, s: Space)
    requires SpaceOk(mem, held, s) && |mem'| == |mem|
    requires forall x: nat :: Takes(s, x) ==> x in held' && (x < |mem| ==> mem'[x] == mem[x])
    ensures SpaceOk(mem', held', s) && SameSpace(mem, mem', s)
  {
    hide TableOk, AreasOk, Entry, Translate, Takes;
    TableTaken(s);
    RootInNodes(mem, s.root, s.nodes);
    TableFrame(mem, mem', s.root, s.nodes);
    forall v: nat ensures Translate(mem', s.root, v) == Translate(mem, s.root, v) && Entry(mem', s.root, v) == Entry(mem, s.root, v) {
      EntryFrame(SnapOf(mem, held, s), mem', v);
    }
    BystanderAreas(mem, held, mem', held', s);
  }

  lemma TableTaken(s: Space)
    ensures forall t :: t in s.nodes ==> Takes(s, t)
  {
    hide DataFrames;
  }

  lemma BystanderAreas(mem: Mem, held: set<nat>, mem': Mem, held': set<nat>, s: Space)
    requires AreasOk(SnapOf(mem, held, s), s.areas) && forall x: nat :: Takes(s, x) ==> x in held'
    requires forall v: nat :: Translate(mem', s.root, v) == Translate(mem, s.root, v) && Entry(mem', s.root, v) == Entry(mem, s.root, v)
    ensures AreasOk(SnapOf(mem', held', s), s.areas)
  {
    hide Entry, Translate, PteValid, Backs, DataFrames;
    var a, b := SnapOf(mem, held, s), SnapOf(mem', held', s);
    forall k | 0 <= k < |s.areas| ensures Owned(b, s.areas[k]) {
      assert Owned(a, s.areas[k]);
      forall v | v in s.areas[k].dataFrames ensures s.areas[k].dataFrames[v] in held' {
        DataFrameOf(s.areas, k, v);
        assert Takes(s, s.areas[k].dataFrames[v]);
      }
    }
    forall k, v | 0 <= k < |s.areas| && s.areas[k].start <= v < s.areas[k].end
      ensures Walks(b, v) && (IsMapped(b, v) ==> Backed(b, s.areas, v))
    {
      assert Walks(a, v) && (IsMapped(a, v) ==> Backed(a, s.areas, v));
      if IsMapped(b, v) {
        var j, u :| 0 <= j < |s.areas| && u in s.areas[j].dataFrames && Backs(a, s.areas[j], u, v);
        SameBacking(a, b, s.areas[j], u, v);
      }
    }
  }

  /** One space changes: the family is in order again and every other space is as it
      was. */
  lemma OneChanges(mem: Mem, held: set<nat>, fam: seq<Space>, others: set<nat>, i: nat, mem': Mem, held': set<nat>, s: Space)
    requires FamilyOk(mem, held, fam, others) && i < |fam|
    requires OwnChange(mem, held, fam[i], mem', held', s) && SpaceOk(mem', held', s)
    ensures FamilyOk(mem', held', fam[i := s], others)
    ensures forall j :: 0 <= j < |fam| && j != i ==> SameSpace(mem, mem', fam[j])
    ensures |mem'| == |mem| && forall x: nat :: x in others && x < |mem| ==> mem'[x] == mem[x]
  {
    hide SpaceOk, SameSpace, Takes;
    var fam' := fam[i := s];
    forall j | 0 <= j < |fam| && j != i ensures SpaceOk(mem', held', fam'[j]) && SameSpace(mem, mem', fam[j]) {
      Bystander(mem, held, mem', held', fam[j]);
    }
    forall x: nat | x in held' ensures x in others || exists j :: 0 <= j < |fam'| && Takes(fam'[j], x) {
      if Takes(s, x) {
        assert Takes(fam'[i], x);
      } else if x !in others {
        var j :| 0 <= j < |fam| && Takes(fam[j], x);
        assert Takes(fam'[j], x);
      }
    }
  }

  /** A new space joins. */
  lemma OneJoins(mem: Mem, held: set<nat>, fam: seq<Space>, others: set<nat>, mem': Mem, held': set<nat>, s: Space)
    requires FamilyOk(mem, held, fam, others) && SpaceOk(mem', held', s) && |mem'| == |mem|
    requires forall x: nat :: Takes(s, x) ==> x !in held
    requires forall x: nat :: x in held' <==> x in held || Takes(s, x)
    requires forall x: nat :: x in held && x < |mem| ==> mem'[x] == mem[x]
    ensures FamilyOk(mem', held', fam + [s], others)
    ensures forall j :: 0 <= j < |fam| ==> SameSpace(mem, mem', fam[j])
    ensures forall x: nat :: x in others && x < |mem| ==> mem'[x] == mem[x]
  {
    hide SpaceOk, SameSpace, Takes;
    var fam' := fam + [s];
    forall j | 0 <= j < |fam| ensures SpaceOk(mem', held', fam'[j]) && SameSpace(mem, mem', fam[j]) {
      Bystander(mem, held, mem', held', fam[j]);
    }
    forall x: nat | x in held' ensures x in others || exists j :: 0 <= j < |fam'| && Takes(fam'[j], x) {
      if Takes(s, x) {
        assert Takes(fam'[|fam|], x);
      } else if x !in others {
        var j :| 0 <= j < |fam| && Takes(fam[j], x);
        assert Takes(fam'[j], x);
      }
    }
  }

  /** A space leaves and gives back its frames. */
  lemma OneLeaves(mem: Mem, held: set<nat>, fam: seq<Space>, others: set<nat>, i: nat, held': set<nat>)
    requires FamilyOk(mem, held, fam, others) && i < |fam|
    requires forall x: nat :: x in held' <==> x in held && !Takes(fam[i], x)
    ensures FamilyOk(mem, held', fam[..i] + fam[i + 1..], others)
  {
    hide SpaceOk, SameSpace, Takes;
    var rest := fam[..i] + fam[i + 1..];
    assert forall j :: 0 <= j < |rest| ==> rest[j] == fam[if j < i then j else j + 1];
    forall j | 0 <= j < |rest| ensures SpaceOk(mem, held', rest[j]) {
      Bystander(mem, held, mem, held', fam[if j < i then j else j + 1]);
    }
    forall x: nat | x in held' ensures x in others || exists j :: 0 <= j < |rest| && Takes(rest[j], x) {
      if x !in others {
        var j :| 0 <= j < |fam| && Takes(fam[j], x);
        assert rest[if j < i then j else j - 1] == fam[j];
      }
    }
  }

  // ----- what each operation is to its space

  lemma MmapIsOwn(a: Snap, b: Snap, areas: seq<MapArea>, area: MapArea)
    requires AreasOwned(a, areas) && Good(a) && Good(b) && TakesFrames(a, b, area.start, area.end, area.dataFrames)
    ensures OwnChange(a.mem, a.held, Space(a.root, a.nodes, areas), b.mem, b.held, Space(b.root, b.nodes, areas + [area]))
  {
    hide IsBlank, TableOk, DataFrames, Owned;
    var s, s' := Space(a.root, a.nodes, areas), Space(b.root, b.nodes, areas + [area]);
    forall x: nat ensures x in DataFrames(areas + [area]) <==> x in DataFrames(areas) || x in area.dataFrames.Values {
      FramesWith(areas, area, x);
    }
    forall x: nat | x in DataFrames(areas) ensures x in a.held && x !in a.nodes {
      FrameOwned(a, areas, x);
    }
    forall x: nat | x in area.dataFrames.Values ensures x in b.held && x !in a.held {
      var v :| v in area.dataFrames && area.dataFrames[v] == x;
    }
  }

  lemma FramesWith(areas: seq<MapArea>, area: MapArea, x: nat)
    ensures x in DataFrames(areas + [area]) <==> x in DataFrames(areas) || x in area.dataFrames.Values
  {
    var all := areas + [area];
    assert all[|areas|] == area;
    if x in DataFrames(all) {
      var k, v :| 0 <= k < |all| && v in all[k].dataFrames && all[k].dataFrames[v] == x;
      if k < |areas| {
        DataFrameOf(areas, k, v);
      }
    }
    if x in DataFrames(areas) {
      FramesOfMore(areas, area, x);
    }
    if x in area.dataFrames.Values {
      var v :| v in area.dataFrames && area.dataFrames[v] == x;
      DataFrameOf(all, |areas|, v);
    }
  }

  lemma FrameOwned(a: Snap, areas: seq<MapArea>, x: nat)
    requires AreasOwned(a, areas) && x in DataFrames(areas)
    ensures x in a.held && x !in a.nodes
  {
    hide Owned;
    var k, v :| 0 <= k < |areas| && v in areas[k].dataFrames && areas[k].dataFrames[v] == x;
    OwnedFrame(a, areas[k], v);
  }

  lemma MunmapIsOwn(a: Snap, b: Snap, areas: seq<MapArea>, start: nat, end: nat)
    requires AreasOwned(a, areas) && Good(a) && ClearsEntries(a, b, start, end) && b.held == a.held && b.nodes == a.nodes
    ensures OwnChange(a.mem, a.held, Space(a.root, a.nodes, areas), b.mem, b.held, Space(b.root, b.nodes, areas))
  {
    hide TableOk, DataFrames, Owned, Entry;
    forall x: nat | x in DataFrames(areas) ensures x in a.held && x !in a.nodes {
      FrameOwned(a, areas, x);
    }
  }

  lemma RemoveIsOwn(a: Snap, b: Snap, areas: seq<MapArea>, k: nat)
    requires AreasOwned(a, areas) && Good(a) && k < |areas| && Released(a, b, areas[k], areas[k].end)
    ensures OwnChange(a.mem, a.held, Space(a.root, a.nodes, areas), b.mem, b.held, Space(b.root, b.nodes, areas[..k] + areas[k + 1..]))
  {
    hide TableOk, DataFrames, Owned, Entry, FrameBelow, AreasOwned;
    var rest := areas[..k] + areas[k + 1..];
    forall x: nat ensures x in DataFrames(rest) <==> x in DataFrames(areas) && !FrameBelow(areas[k], areas[k].end, x) {
      FramesWithout(a, areas, k, x);
    }
    forall x: nat | x in DataFrames(areas) ensures x in a.held && x !in a.nodes {
      FrameOwned(a, areas, x);
    }
    forall x: nat | FrameBelow(areas[k], areas[k].end, x) ensures x in DataFrames(areas) {
      BelowIsFrame(areas, k, x);
    }
  }

  lemma BelowIsFrame(areas: seq<MapArea>, k: nat, x: nat)
    requires k < |areas| && FrameBelow(areas[k], areas[k].end, x)
    ensures x in DataFrames(areas)
  {
    var v :| v in areas[k].dataFrames && areas[k].dataFrames[v] == x;
    DataFrameOf(areas, k, v);
  }

  lemma FramesWithout(a: Snap, areas: seq<MapArea>, k: nat, x: nat)
    requires AreasOwned(a, areas) && k < |areas|
    ensures x in DataFrames(areas[..k] + areas[k + 1..]) <==> x in DataFrames(areas) && !FrameBelow(areas[k], areas[k].end, x)
  {
    hide DataFrames, Owned;
    var rest := areas[..k] + areas[k + 1..];
    assert forall j :: 0 <= j < |rest| ==> rest[j] == areas[if j < k then j else j + 1];
    if x in DataFrames(rest) {
      var j, v := FrameFrom(rest, x);
      var i := if j < k then j else j + 1;
      assert areas[i] == rest[j];
      DataFrameOf(areas, i, v);
    }
    if x in DataFrames(areas) {
      var j, v := FrameFrom(areas, x);
      OwnedFrame(a, areas[j], v);
      if j != k {
        assert rest[if j < k then j else j - 1] == areas[j];
        DataFrameOf(rest, if j < k then j else j - 1, v);
      }
    }
  }

  lemma FrameFrom(areas: seq<MapArea>, x: nat) returns (k: nat, v: nat)
    requires x in DataFrames(areas)
    ensures k < |areas| && v in areas[k].dataFrames && areas[k].dataFrames[v] == x
  {
    k, v :| 0 <= k < |areas| && v in areas[k].dataFrames && areas[k].dataFrames[v] == x;
  }

  /** Exit: the areas go, the table stays until the task is reaped. */
  lemma RecycleIsOwn(a: Snap, held: set<nat>, areas: seq<MapArea>)
    requires AreasOwned(a, areas) && Good(a) && forall x: nat :: x in held <==> x in a.held && x !in DataFrames(areas)
    ensures OwnChange(a.mem, a.held, Space(a.root, a.nodes, areas), a.mem, held, Space(a.root, a.nodes, []))
    ensures SpaceOk(a.mem, held, Space(a.root, a.nodes, []))
  {
    hide TableOk, DataFrames, Owned;
    NoDataFrames();
    NoAreasOk(Snap(a.mem, held, a.nodes, a.root));
    forall x: nat | x in DataFrames(areas) ensures x in a.held && x !in a.nodes {
      FrameOwned(a, areas, x);
    }
  }

  // ----- what each operation does to its space, and when it panics

  /** mmap: refused, or one more area, on frames of its own and with the pages of the range
      mapped to them. */
  ghost predicate MapEffect(a: Snap, areas: seq<MapArea>, b: Snap, areas': seq<MapArea>, start: nat, len: nat, port: nat)
    requires start < ADDR_LIMIT && len < ADDR_LIMIT
  {
    var first, last := FirstPage(start), LastPage(start, len);
    if start % PAGE_SIZE != 0 || port >= 8 || port == 0 || exists v :: first <= v < last && IsMapped(a, v) then
      b == a && areas' == areas
    else
      && |areas'| == |areas| + 1 && areas'[..|areas|] == areas
      && var area := areas'[|areas|];
         && area == MapArea(first, last, area.dataFrames, 2 * port + 16)
         && TakesFrames(a, b, first, last, area.dataFrames) && SetsEntries(a, b, first, last, area.dataFrames, area.perm)
  }

  ghost predicate BadRange(start: nat, len: nat)
    requires start < ADDR_LIMIT && len < ADDR_LIMIT
  {
    LastPage(start, len) < FirstPage(start) || LastPage(start, len) - FirstPage(start) > KEY_LIMIT
  }

  /** munmap: refused, or the entries of the range cleared and nothing else. */
  ghost predicate UnmapEffect(a: Snap, b: Snap, start: nat, len: nat)
    requires start < ADDR_LIMIT && len < ADDR_LIMIT
  {
    var first, last := FirstPage(start), LastPage(start, len);
    if start % PAGE_SIZE != 0 || exists v :: first <= v < last && !IsMapped(a, v) then
      b == a
    else
      b.held == a.held && b.nodes == a.nodes && ClearsEntries(a, b, first, last) && ClearsWalks(a, b, first, last)
  }

  /** Area `k` is the first one that starts at `vpn`. */
  ghost predicate FirstAt(areas: seq<MapArea>, vpn: nat, k: nat) {
    k < |areas| && areas[k].start == vpn && forall j :: 0 <= j < k ==> areas[j].start != vpn
  }

  /** Removal: nothing without such an area, else it goes with its entries and frames. */
  ghost predicate RemoveEffect(a: Snap, areas: seq<MapArea>, b: Snap, areas': seq<MapArea>, vpn: nat) {
    && ((forall k :: 0 <= k < |areas| ==> areas[k].start != vpn) ==> b == a && areas' == areas)
    && (forall k: nat :: FirstAt(areas, vpn, k) ==>
          Released(a, b, areas[k], areas[k].end) && areas' == areas[..k] + areas[k + 1..])
  }

  ghost predicate RemovePanics(a: Snap, areas: seq<MapArea>, vpn: nat) {
    exists k: nat :: FirstAt(areas, vpn, k) && !Removable(a, areas[k])
  }

  /** fork: the child has a copy of every page of every area. */
  ghost predicate ForkEffect(p: Parent, areas: seq<MapArea>, s: Snap, done: seq<MapArea>, trampoline: nat)
    requires trampoline < PPN_LIMIT
  {
    && AreasApart(areas) && Full(p, areas) && SameAreas(done, areas)
    && Progress(p, s, areas, done, trampoline) && Accounted(p, s, done)
  }

  ghost predicate ForkPanics(p: Parent, areas: seq<MapArea>) {
    TooLong(areas) || !AreasApart(areas) || !Full(p, areas)
  }

  /** mmap that is not refused, in bytes of the range it was called for. */
  lemma MapEffectInBytes(a: Snap, areas: seq<MapArea>, b: Snap, areas': seq<MapArea>, start: nat, len: nat, port: nat)
    requires start % PAGE_SIZE == 0 && InSpace(start, len) && 0 < port < 8
    requires MapEffect(a, areas, b, areas', start, len, port)
    ensures if exists v: nat :: HasByte(start, len, v) && IsMapped(a, v) then b == a && areas' == areas
            else |areas'| == |areas| + 1 && MapsBytes(a, b, start, len, areas'[|areas|].dataFrames, 2 * port + 16)
  {
    hide TakesFrames, SetsEntries, FirstPage, LastPage, HasByte, MapsBytes, IsMapped;
    SomePageInBytes(a, start, len);
    if !exists v: nat :: HasByte(start, len, v) && IsMapped(a, v) {
      MapsInBytes(a, b, start, len, areas'[|areas|].dataFrames, 2 * port + 16);
    }
  }

  /** munmap that is not refused, in bytes of the range it was called for. */
  lemma UnmapEffectInBytes(a: Snap, b: Snap, start: nat, len: nat)
    requires start % PAGE_SIZE == 0 && InSpace(start, len) && UnmapEffect(a, b, start, len)
    ensures if exists v: nat :: HasByte(start, len, v) && !IsMapped(a, v) then b == a else UnmapsBytes(a, b, start, len)
  {
    hide ClearsEntries, ClearsWalks, FirstPage, LastPage, HasByte, UnmapsBytes, IsMapped;
    SomePageInBytes(a, start, len);
    if !exists v: nat :: HasByte(start, len, v) && !IsMapped(a, v) {
      UnmapsInBytes(a, b, start, len);
    }
  }

  // ----- the family in the machine

  ghost function ValueOf(s: MemorySet): Space
    reads s, s.pageTable
  {
    Space(s.pageTable.root, s.pageTable.nodes, s.areas)
  }

  ghost predicate Family(spaces: seq<MemorySet>, fam: seq<Space>, others: set<nat>, m: Machine)
    reads spaces, set s | s in spaces :: s.pageTable, m, m.frames
  {
    && m.Valid() && |fam| == |spaces|
    && (forall i, j :: 0 <= i < j < |spaces| ==> spaces[i] != spaces[j] && spaces[i].pageTable != spaces[j].pageTable)
    && (forall i :: 0 <= i < |spaces| ==> spaces[i].Valid(m) && ValueOf(spaces[i]) == fam[i])
    && FamilyOk(m.mem, m.frames.held, fam, others)
  }

  /** Every space of `fam` but number `i` is still there, with its bytes and
      translations, and so are the bytes of the rest of the kernel. */
  ghost predicate Isolated(mem: Mem, mem': Mem, fam: seq<Space>, fam': seq<Space>, others: set<nat>, i: nat) {
    && (forall j :: 0 <= j < |fam| && j != i ==> fam[j] in fam' && SameSpace(mem, mem', fam[j]))
    && |mem'| == |mem| && (forall x: nat :: x in others && x < |mem| ==> mem'[x] == mem[x])
  }

  lemma MemberOk(mem: Mem, held: set<nat>, fam: seq<Space>, others: set<nat>, i: nat)
    requires FamilyOk(mem, held, fam, others) && i < |fam|
    ensures SpaceOk(mem, held, fam[i]) && Good(SnapOf(mem, held, fam[i]))
    ensures AreasOk(SnapOf(mem, held, fam[i]), fam[i].areas) && AreasOwned(SnapOf(mem, held, fam[i]), fam[i].areas)
  {
    hide TableOk, AreasOwned, AreasWalk, AreasBacked;
  }

  lemma ReplacedIn(fam: seq<Space>, i: nat, s: Space)
    requires i < |fam|
    ensures forall j :: 0 <= j < |fam| && j != i ==> fam[j] in fam[i := s]
  {
    forall j | 0 <= j < |fam| && j != i ensures fam[j] in fam[i := s] {
      assert fam[i := s][j] == fam[j];
    }
  }

  /** Any space that meets its invariant starts a family; the rest of the kernel has the
      other frames. */
  lemma OneSpace(s: MemorySet, m: Machine)
    requires s.WellFormed(m)
    ensures Family([s], [ValueOf(s)], (set x: nat | x in m.frames.held && !Takes(ValueOf(s), x)), m)
  {
    hide TableOk, AreasOwned, AreasWalk, AreasBacked, Conserved, DataFrames;
    var fam := [ValueOf(s)];
    forall x: nat | Takes(fam[0], x) ensures x in m.frames.held {
      if x in DataFrames(s.areas) {
        FrameOwned(s.View(m), s.areas, x);
      }
    }
    forall x: nat | x in m.frames.held && Takes(fam[0], x) ensures exists i :: 0 <= i < |fam| && Takes(fam[i], x) {
    }
  }

  /** mmap in one of the spaces. */
  method MmapIn(spaces: seq<MemorySet>, ghost fam: seq<Space>, ghost others: set<nat>, i: nat, start: nat, len: nat, port: nat, m: Machine)
    returns (ok: bool, ghost fam': seq<Space>)
    requires Family(spaces, fam, others, m) && i < |spaces| && start < ADDR_LIMIT && len < ADDR_LIMIT
    modifies spaces, set s | s in spaces :: s.pageTable, m, m.frames
    ensures ok ==> Family(spaces, fam', others, m) && Isolated(old(m.mem), m.mem, fam, fam', others, i)
    ensures ok ==> |fam'| == |fam| && fam' == fam[i := fam'[i]]
    ensures ok ==>
              MapEffect(SnapOf(old(m.mem), old(m.frames.held), fam[i]), fam[i].areas,
                SnapOf(m.mem, m.frames.held, fam'[i]), fam'[i].areas, start, len, port)
    ensures !ok ==> m.Exhausted() || BadRange(start, len)
  {
    hide FamilyOk, SpaceOk, OwnChange, SameSpace, TableOk, AreasOk, AreasOwned, IsMapped, TakesFrames, SetsEntries, Conserved, FirstPage, LastPage;
    fam' := fam;
    ghost var a, areas := spaces[i].View(m), spaces[i].areas;
    MemberOk(m.mem, m.frames.held, fam, others, i);
    var r;
    ok, r := spaces[i].Mmap(start, len, port, m);
    if !ok {
      return;
    }
    if r == -1 {
      SameFamily(m.mem, fam);
      return;
    }
    var area := spaces[i].areas[|areas|];
    assert spaces[i].areas == areas + [area];
    MmapIsOwn(a, spaces[i].View(m), areas, area);
    Owns(spaces[i], m);
    OneChanges(a.mem, a.held, fam, others, i, m.mem, m.frames.held, ValueOf(spaces[i]));
    fam' := fam[i := ValueOf(spaces[i])];
    ReplacedIn(fam, i, ValueOf(spaces[i]));
    AllGood(m.mem, m.frames.held, fam', others);
  }

  lemma AllGood(mem: Mem, held: set<nat>, fam: seq<Space>, others: set<nat>)
    requires FamilyOk(mem, held, fam, others)
    ensures forall i :: 0 <= i < |fam| ==> Good(SnapOf(mem, held, fam[i]))
  {
    hide TableOk, AreasOk;
    forall i | 0 <= i < |fam| ensures Good(SnapOf(mem, held, fam[i])) {
      assert SpaceOk(mem, held, fam[i]);
    }
  }

  lemma SameFamily(mem: Mem, fam: seq<Space>)
    ensures forall j :: 0 <= j < |fam| ==> fam[j] in fam && SameSpace(mem, mem, fam[j])
  {
  }

  lemma Owns(s: MemorySet, m: Machine)
    requires s.WellFormed(m)
    ensures SpaceOk(m.mem, m.frames.held, ValueOf(s))
  {
    hide TableOk, AreasOk;
  }

  /** munmap in one of the spaces. */
  method MunmapIn(spaces: seq<MemorySet>, ghost fam: seq<Space>, ghost others: set<nat>, i: nat, start: nat, len: nat, m: Machine)
    returns (ok: bool, ghost fam': seq<Space>)
    requires Family(spaces, fam, others, m) && i < |spaces| && start < ADDR_LIMIT && len < ADDR_LIMIT
    modifies spaces, set s | s in spaces :: s.pageTable, m, m.frames
    ensures ok ==> Family(spaces, fam', others, m) && Isolated(old(m.mem), m.mem, fam, fam', others, i)
    ensures ok ==> |fam'| == |fam| && fam' == fam[i := fam'[i]]
    ensures ok ==> fam'[i].areas == fam[i].areas
    ensures ok ==>
              UnmapEffect(SnapOf(old(m.mem), old(m.frames.held), fam[i]),
                SnapOf(m.mem, m.frames.held, fam'[i]), start, len)
    ensures !ok ==> BadRange(start, len)
  {
    hide FamilyOk, SpaceOk, OwnChange, SameSpace, TableOk, AreasOk, AreasOwned, IsMapped, ClearsEntries, ClearsWalks, Conserved, FirstPage, LastPage;
    fam' := fam;
    ghost var a, areas := spaces[i].View(m), spaces[i].areas;
    MemberOk(m.mem, m.frames.held, fam, others, i);
    var r;
    ok, r := spaces[i].Munmap(start, len, m);
    if !ok {
      return;
    }
    if r == -1 {
      SameFamily(m.mem, fam);
      return;
    }
    MunmapIsOwn(a, spaces[i].View(m), areas, FirstPage(start), LastPage(start, len));
    Owns(spaces[i], m);
    OneChanges(a.mem, a.held, fam, others, i, m.mem, m.frames.held, ValueOf(spaces[i]));
    fam' := fam[i := ValueOf(spaces[i])];
    ReplacedIn(fam, i, ValueOf(spaces[i]));
    AllGood(m.mem, m.frames.held, fam', others);
  }

  /** Removal of an area in one of the spaces. */
  method RemoveIn(spaces: seq<MemorySet>, ghost fam: seq<Space>, ghost others: set<nat>, i: nat, startVpn: nat, m: Machine)
    returns (ok: bool, ghost fam': seq<Space>)
    requires Family(spaces, fam, others, m) && i < |spaces|
    modifies spaces, set s | s in spaces :: s.pageTable, m, m.frames
    ensures ok ==> Family(spaces, fam', others, m) && Isolated(old(m.mem), m.mem, fam, fam', others, i)
    ensures ok ==> |fam'| == |fam| && fam' == fam[i := fam'[i]]
    ensures ok ==>
              RemoveEffect(SnapOf(old(m.mem), old(m.frames.held), fam[i]), fam[i].areas,
                SnapOf(m.mem, m.frames.held, fam'[i]), fam'[i].areas, startVpn)
    ensures !ok ==> RemovePanics(SnapOf(old(m.mem), old(m.frames.held), fam[i]), fam[i].areas, startVpn)
  {
    hide FamilyOk, SpaceOk, OwnChange, SameSpace, TableOk, AreasOk, AreasOwned, Released, Removable, Conserved;
    fam' := fam;
    ghost var a, areas := spaces[i].View(m), spaces[i].areas;
    MemberOk(m.mem, m.frames.held, fam, others, i);
    var k, n := 0, |spaces[i].areas|;
    ok, k := spaces[i].RemoveArea(startVpn, m);
    if !ok {
      assert FirstAt(areas, startVpn, k);
      return;
    }
    if k == n {
      SameFamily(m.mem, fam);
      return;
    }
    RemoveIsOwn(a, spaces[i].View(m), areas, k);
    Owns(spaces[i], m);
    OneChanges(a.mem, a.held, fam, others, i, m.mem, m.frames.held, ValueOf(spaces[i]));
    fam' := fam[i := ValueOf(spaces[i])];
    ReplacedIn(fam, i, ValueOf(spaces[i]));
    AllGood(m.mem, m.frames.held, fam', others);
  }

  /** The exit of a process: `recycle_data_pages` on its space. */
  method ExitIn(spaces: seq<MemorySet>, ghost fam: seq<Space>, ghost others: set<nat>, i: nat, m: Machine)
    returns (ghost fam': seq<Space>)
    requires Family(spaces, fam, others, m) && i < |spaces|
    modifies spaces, set s | s in spaces :: s.pageTable, m, m.frames
    ensures Family(spaces, fam', others, m) && Isolated(old(m.mem), m.mem, fam, fam', others, i) && fam' == fam[i := fam'[i]]
    ensures fam'[i] == fam[i].(areas := []) && m.mem == old(m.mem)
    ensures forall x: nat :: x in m.frames.held <==> x in old(m.frames.held) && x !in DataFrames(fam[i].areas)
  {
    hide FamilyOk, SpaceOk, OwnChange, SameSpace, TableOk, AreasOk, AreasOwned, DataFrames, Conserved;
    ghost var a, areas := spaces[i].View(m), spaces[i].areas;
    MemberOk(m.mem, m.frames.held, fam, others, i);
    spaces[i].RecycleDataPages(m);
    RecycleIsOwn(a, m.frames.held, areas);
    OneChanges(a.mem, a.held, fam, others, i, m.mem, m.frames.held, ValueOf(spaces[i]));
    fam' := fam[i := ValueOf(spaces[i])];
    ReplacedIn(fam, i, ValueOf(spaces[i]));
    AllGood(m.mem, m.frames.held, fam', others);
  }

  /** The reaping of a process: its space is dropped, and exactly the frames it had taken
      are free again. */
  method ReapIn(spaces: seq<MemorySet>, ghost fam: seq<Space>, ghost others: set<nat>, i: nat, m: Machine)
    returns (rest: seq<MemorySet>, ghost fam': seq<Space>)
    requires Family(spaces, fam, others, m) && i < |spaces|
    modifies spaces, set s | s in spaces :: s.pageTable, m, m.frames
    ensures rest == spaces[..i] + spaces[i + 1..] && fam' == fam[..i] + fam[i + 1..]
    ensures Family(rest, fam', others, m) && Isolated(old(m.mem), m.mem, fam, fam', others, i)
    ensures forall x: nat :: x in m.frames.held <==> x in old(m.frames.held) && !Takes(fam[i], x)
    ensures m.mem == old(m.mem)
  {
    hide FamilyOk, SpaceOk, SameSpace, TableOk, AreasOk, AreasOwned, Takes, Conserved;
    ghost var held := m.frames.held;
    MemberOk(m.mem, held, fam, others, i);
    spaces[i].Drop(m);
    TakesIs(fam[i]);
    OneLeaves(m.mem, held, fam, others, i, m.frames.held);
    rest := spaces[..i] + spaces[i + 1..];
    fam' := fam[..i] + fam[i + 1..];
    SameFamily(m.mem, fam);
    RemainIn(fam, i);
    RestIsFamily(spaces, fam, others, i, m);
  }

  lemma RestIsFamily(spaces: seq<MemorySet>, fam: seq<Space>, others: set<nat>, i: nat, m: Machine)
    requires m.Valid() && |fam| == |spaces| && i < |spaces|
    requires forall j, k :: 0 <= j < k < |spaces| ==> spaces[j] != spaces[k] && spaces[j].pageTable != spaces[k].pageTable
    requires forall j :: 0 <= j < |spaces| && j != i ==> spaces[j].pageTable.Tracks() && ValueOf(spaces[j]) == fam[j]
    requires FamilyOk(m.mem, m.frames.held, fam[..i] + fam[i + 1..], others)
    ensures Family(spaces[..i] + spaces[i + 1..], fam[..i] + fam[i + 1..], others, m)
  {
    hide FamilyOk, TableOk, Conserved;
    var rest, fam' := spaces[..i] + spaces[i + 1..], fam[..i] + fam[i + 1..];
    AllGood(m.mem, m.frames.held, fam', others);
    forall j | 0 <= j < |rest| ensures rest[j].Valid(m) && ValueOf(rest[j]) == fam'[j] {
      var k := if j < i then j else j + 1;
      assert rest[j] == spaces[k] && fam'[j] == fam[k] && Good(SnapOf(m.mem, m.frames.held, fam'[j]));
    }
    forall j, k | 0 <= j < k < |rest| ensures rest[j] != rest[k] && rest[j].pageTable != rest[k].pageTable {
      assert rest[j] == spaces[if j < i then j else j + 1] && rest[k] == spaces[if k < i then k else k + 1];
    }
  }

  lemma TakesIs(s: Space)
    ensures forall x: nat :: Takes(s, x) <==> x in s.nodes || x in DataFrames(s.areas)
  {
    hide DataFrames;
  }

  lemma RemainIn(fam: seq<Space>, i: nat)
    requires i < |fam|
    ensures forall j :: 0 <= j < |fam| && j != i ==> fam[j] in fam[..i] + fam[i + 1..]
  {
    var rest := fam[..i] + fam[i + 1..];
    forall j | 0 <= j < |fam| && j != i ensures fam[j] in rest {
      assert rest[if j < i then j else j - 1] == fam[j];
    }
  }

  /** The frames of a forked space are new, and no others were taken. */
  lemma ForkJoins(p: Parent, s: Snap, areas: seq<MapArea>, done: seq<MapArea>, trampoline: nat)
    requires trampoline < PPN_LIMIT && Progress(p, s, areas, done, trampoline) && Accounted(p, s, done) && AreasOwned(s, done)
    ensures |s.mem| == |p.mem| && forall x: nat :: x in p.held && x < |p.mem| ==> s.mem[x] == p.mem[x]
    ensures var sp := Space(s.root, s.nodes, done);
            && (forall x: nat :: Takes(sp, x) ==> x !in p.held)
            && (forall x: nat :: x in s.held <==> x in p.held || Takes(sp, x))
  {
    hide TableOk, Entry, MappedPte, NothingElse, AreasApart, AreaCopied, Owned, DataFrames;
    forall x: nat | x in DataFrames(done) ensures x !in p.held && x in s.held {
      var k, v := FrameFrom(done, x);
      FrameOwned(s, done, x);
      OwnedFrame(s, done[k], v);
      assert AreaMapped(p, s, done[k]);
    }
  }

  /** fork of one of the spaces. */
  method ForkIn(spaces: seq<MemorySet>, ghost fam: seq<Space>, ghost others: set<nat>, i: nat, trampoline: nat, m: Machine)
    returns (ok: bool, more: seq<MemorySet>, ghost fam': seq<Space>)
    requires Family(spaces, fam, others, m) && i < |spaces| && trampoline < PPN_LIMIT
    modifies m, m.frames
    ensures ok ==> |more| == |spaces| + 1 && more[..|spaces|] == spaces && fam' == fam + [ValueOf(more[|spaces|])]
    ensures ok ==> fresh(more[|spaces|]) && fresh(more[|spaces|].pageTable)
    ensures ok ==> Family(more, fam', others, m) && Isolated(old(m.mem), m.mem, fam, fam', others, |fam|)
    ensures ok ==> forall x: nat :: x in m.frames.held <==> x in old(m.frames.held) || Takes(fam'[|fam|], x)
    ensures ok ==> forall x: nat :: Takes(fam'[|fam|], x) ==> x !in old(m.frames.held)
    ensures ok ==>
              ForkEffect(Parent(old(m.mem), old(m.frames.held), fam[i].root), fam[i].areas,
                SnapOf(m.mem, m.frames.held, fam'[|fam|]), fam'[|fam|].areas, trampoline)
    ensures !ok ==> m.Exhausted() || ForkPanics(Parent(old(m.mem), old(m.frames.held), fam[i].root), fam[i].areas)
  {
    hide FamilyOk, SpaceOk, SameSpace, TableOk, AreasOk, AreasOwned, DataFrames, Conserved, Progress, Accounted, AreasApart, Full, SameAreas, TooLong;
    more, fam' := spaces, fam;
    ghost var p := ParentOf(spaces[i], m);
    MemberOk(m.mem, m.frames.held, fam, others, i);
    var child;
    ok, child := FromExistedUser(spaces[i], trampoline, m);
    if !ok {
      return;
    }
    Owns(child, m);
    OwnedOf(child.View(m), child.areas);
    ForkJoins(p, child.View(m), spaces[i].areas, child.areas, trampoline);
    OneJoins(p.mem, p.held, fam, others, m.mem, m.frames.held, ValueOf(child));
    more, fam' := spaces + [child], fam + [ValueOf(child)];
    AllGood(m.mem, m.frames.held, fam', others);
    forall j | 0 <= j < |more| ensures more[j].Valid(m) && ValueOf(more[j]) == fam'[j] {
      if j < |spaces| {
        assert more[j] == spaces[j] && fam'[j] == fam[j] && Good(SnapOf(m.mem, m.frames.held, fam'[j]));
      }
    }
  }

  /** A fork that exits and is reaped leaves everything as it was: the spaces, all their
      bytes and translations, and the frames in use. */
  method ForkThenReap(spaces: seq<MemorySet>, ghost fam: seq<Space>, ghost others: set<nat>, i: nat, trampoline: nat, m: Machine)
    returns (ok: bool)
    requires Family(spaces, fam, others, m) && i < |spaces| && trampoline < PPN_LIMIT
    modifies spaces, set s | s in spaces :: s.pageTable, m, m.frames
    ensures ok ==> Family(spaces, fam, others, m) && m.frames.held == old(m.frames.held)
    ensures ok ==> forall j :: 0 <= j < |fam| ==> SameSpace(old(m.mem), m.mem, fam[j])
    ensures !ok ==> m.Exhausted() || ForkPanics(Parent(old(m.mem), old(m.frames.held), fam[i].root), fam[i].areas)
  {
    hide Family, SameSpace, Takes, DataFrames, Isolated, ForkEffect, ForkPanics;
    FamilySize(spaces, fam, others, m);
    var n, more, rest := |spaces|, spaces, spaces;
    ghost var fork, gone, left;
    ok, more, fork := ForkIn(spaces, fam, others, i, trampoline, m);
    if !ok {
      return;
    }
    FamilySize(more, fork, others, m);
    ghost var mem1 := m.mem;
    gone := ExitIn(more, fork, others, n, m);
    ghost var mem2 := m.mem;
    rest, left := ReapIn(more, gone, others, n, m);
    assert rest == spaces && left == fam;
    AllTakes(fork[n], gone[n]);
    SameThroughAll(old(m.mem), mem1, mem2, m.mem, fam, fork, gone, others);
  }

  lemma FamilySize(spaces: seq<MemorySet>, fam: seq<Space>, others: set<nat>, m: Machine)
    requires Family(spaces, fam, others, m)
    ensures |fam| == |spaces|
  {
  }

  lemma SameThroughAll(mem: Mem, mem1: Mem, mem2: Mem, mem3: Mem, fam: seq<Space>, fork: seq<Space>, gone: seq<Space>, others: set<nat>)
    requires |fork| == |gone| == |fam| + 1 && fork[..|fam|] == fam == gone[..|fam|]
    requires Isolated(mem, mem1, fam, fork, others, |fam|) && Isolated(mem1, mem2, fork, gone, others, |fam|)
    requires Isolated(mem2, mem3, gone, fam, others, |fam|)
    ensures forall j :: 0 <= j < |fam| ==> SameSpace(mem, mem3, fam[j])
  {
    hide SameSpace;
    forall j | 0 <= j < |fam| ensures SameSpace(mem, mem3, fam[j]) {
      assert fork[j] == fam[j] && gone[j] == fam[j];
      SameThrough(mem, mem1, mem2, fam[j]);
      SameThrough(mem, mem2, mem3, fam[j]);
    }
  }

  lemma AllTakes(s: Space, s': Space)
    requires s' == s.(areas := [])
    ensures forall x: nat :: Takes(s, x) <==> Takes(s', x) || x in DataFrames(s.areas)
  {
    hide DataFrames;
    NoFrames();
  }

  lemma NoFrames()
    ensures DataFrames([]) == {}
  {
  }

  lemma SameThrough(mem: Mem, mem1: Mem, mem2: Mem, s: Space)
    requires SameSpace(mem, mem1, s) && SameSpace(mem1, mem2, s)
    ensures SameSpace(mem, mem2, s)
  {
  }

  // ----- runs

  /** A system call that concerns space number `i`. */
  datatype SpaceOp =
    | MapRange(i: nat, start: nat, len: nat, port: nat)
    | UnmapRange(i: nat, start: nat, len: nat)
    | RemoveAt(i: nat, vpn: nat)
    | Fork(i: nat, trampoline: nat)
    | Exit(i: nat)
    | Reap(i: nat)

  /** Arguments are machine words. */
  predicate OpOk(op: SpaceOp) {
    match op
    case MapRange(_, start, len, _) => start < ADDR_LIMIT && len < ADDR_LIMIT
    case UnmapRange(_, start, len) => start < ADDR_LIMIT && len < ADDR_LIMIT
    case Fork(_, trampoline) => trampoline < PPN_LIMIT
    case _ => true
  }

  /** All address spaces in the memory they share. */
  datatype World = World(mem: Mem, held: set<nat>, fam: seq<Space>)

  ghost function ViewOf(w: World, i: nat): Snap
    requires i < |w.fam|
  {
    SnapOf(w.mem, w.held, w.fam[i])
  }

  ghost predicate OnlyAt(w: World, w': World, i: nat)
    requires i < |w.fam|
  {
    |w'.fam| == |w.fam| && w'.fam == w.fam[i := w'.fam[i]]
  }

  /** What a call that returns does. A call for a space that is not there does nothing. */
  ghost predicate Effect(op: SpaceOp, w: World, w': World)
    requires OpOk(op)
  {
    if op.i >= |w.fam| then w' == w else
    var i, n := op.i, |w.fam|;
    match op
    case MapRange(_, start, len, port) =>
      OnlyAt(w, w', i) && MapEffect(ViewOf(w, i), w.fam[i].areas, ViewOf(w', i), w'.fam[i].areas, start, len, port)
    case UnmapRange(_, start, len) =>
      OnlyAt(w, w', i) && w'.fam[i].areas == w.fam[i].areas && UnmapEffect(ViewOf(w, i), ViewOf(w', i), start, len)
    case RemoveAt(_, vpn) =>
      OnlyAt(w, w', i) && RemoveEffect(ViewOf(w, i), w.fam[i].areas, ViewOf(w', i), w'.fam[i].areas, vpn)
    case Fork(_, trampoline) =>
      && |w'.fam| == n + 1 && w'.fam[..n] == w.fam
      && ForkEffect(Parent(w.mem, w.held, w.fam[i].root), w.fam[i].areas, ViewOf(w', n), w'.fam[n].areas, trampoline)
    case Exit(_) =>
      && w'.mem == w.mem && w'.fam == w.fam[i := w.fam[i].(areas := [])]
      && forall x: nat :: x in w'.held <==> x in w.held && x !in DataFrames(w.fam[i].areas)
    case Reap(_) =>
      && w'.mem == w.mem && w'.fam == w.fam[..i] + w.fam[i + 1..]
      && forall x: nat :: x in w'.held <==> x in w.held && !Takes(w.fam[i], x)
  }

  /** When a call may panic, with `spent` for no frame being left. */
  ghost predicate MayPanic(op: SpaceOp, w: World, spent: bool)
    requires OpOk(op)
  {
    && op.i < |w.fam|
    && match op
       case MapRange(_, start, len, _) => spent || BadRange(start, len)
       case UnmapRange(_, start, len) => BadRange(start, len)
       case RemoveAt(i, vpn) => RemovePanics(ViewOf(w, i), w.fam[i].areas, vpn)
       case Fork(i, _) => spent || ForkPanics(Parent(w.mem, w.held, w.fam[i].root), w.fam[i].areas)
       case _ => false
  }

  /** `trace` is a run of `ops`, or of the first of them, from `w`. */
  ghost predicate RunsAs(w: World, ops: seq<SpaceOp>, trace: seq<World>)
    decreases |trace|
  {
    && |trace| > 0 && trace[0] == w
    && (|trace| > 1 ==> ops != [] && OpOk(ops[0]) && Effect(ops[0], w, trace[1]) && RunsAs(trace[1], ops[1..], trace[1..]))
  }

  ghost predicate AllInOrder(trace: seq<World>, others: set<nat>) {
    forall k :: 0 <= k < |trace| ==> FamilyOk(trace[k].mem, trace[k].held, trace[k].fam, others)
  }

  /** A fork does not touch the forked space. */
  ghost predicate Touches(op: SpaceOp, j: nat) {
    op.i == j && !op.Fork?
  }

  /** The number that space `j` has after the call. */
  ghost function Moved(op: SpaceOp, j: nat): nat {
    if op.Reap? && op.i < j then j - 1 else j
  }

  ghost predicate Untouched(ops: seq<SpaceOp>, j: nat) {
    ops == [] || (!Touches(ops[0], j) && Untouched(ops[1..], Moved(ops[0], j)))
  }

  ghost function MovedBy(ops: seq<SpaceOp>, j: nat): nat {
    if ops == [] then j else MovedBy(ops[1..], Moved(ops[0], j))
  }

  /** Space `j` of `fam` is space `k` of `fam'`, with its bytes and translations. */
  ghost predicate Kept(mem: Mem, mem': Mem, fam: seq<Space>, fam': seq<Space>, j: nat, k: nat)
    requires j < |fam|
  {
    k < |fam'| && fam'[k] == fam[j] && SameSpace(mem, mem', fam[j])
  }

  ghost predicate SameBytes(mem: Mem, mem': Mem, frames: set<nat>) {
    |mem'| == |mem| && forall x: nat :: x in frames && x < |mem| ==> mem'[x] == mem[x]
  }

  lemma NothingDone(mem: Mem, fam: seq<Space>, others: set<nat>)
    ensures SameBytes(mem, mem, others) && forall j :: 0 <= j < |fam| ==> Kept(mem, mem, fam, fam, j, j)
  {
    hide SameSpace;
    SameFamily(mem, fam);
  }

  lemma KeptAll(mem: Mem, mem': Mem, fam: seq<Space>, fam': seq<Space>, others: set<nat>, i: nat)
    requires Isolated(mem, mem', fam, fam', others, i) && |fam| <= |fam'| && forall j :: 0 <= j < |fam| && j != i ==> fam'[j] == fam[j]
    ensures SameBytes(mem, mem', others) && forall j :: 0 <= j < |fam| && j != i ==> Kept(mem, mem', fam, fam', j, j)
  {
    hide SameSpace;
  }

  lemma KeptBut(mem: Mem, mem': Mem, fam: seq<Space>, others: set<nat>, i: nat)
    requires i < |fam| && Isolated(mem, mem', fam, fam[..i] + fam[i + 1..], others, i)
    ensures SameBytes(mem, mem', others)
    ensures forall j :: 0 <= j < |fam| && j != i ==> Kept(mem, mem', fam, fam[..i] + fam[i + 1..], j, Moved(Reap(i), j))
  {
    hide SameSpace;
    var fam' := fam[..i] + fam[i + 1..];
    forall j | 0 <= j < |fam| && j != i ensures Kept(mem, mem', fam, fam', j, Moved(Reap(i), j)) {
      assert fam'[Moved(Reap(i), j)] == fam[j];
    }
  }

  lemma SameBytesThrough(mem: Mem, mem1: Mem, mem2: Mem, frames: set<nat>)
    requires SameBytes(mem, mem1, frames) && SameBytes(mem1, mem2, frames)
    ensures SameBytes(mem, mem2, frames)
  {
  }

  lemma InOrderFrom(spaces: seq<MemorySet>, fam: seq<Space>, others: set<nat>, m: Machine)
    requires Family(spaces, fam, others, m)
    ensures FamilyOk(m.mem, m.frames.held, fam, others)
  {
  }

  /** One call; `ok` is false when the kernel panics. */
  method Perform(spaces: seq<MemorySet>, ghost fam: seq<Space>, ghost others: set<nat>, op: SpaceOp, m: Machine)
    returns (ok: bool, more: seq<MemorySet>, ghost fam': seq<Space>)
    requires Family(spaces, fam, others, m) && OpOk(op)
    modifies spaces, set s | s in spaces :: s.pageTable, m, m.frames
    ensures ok ==> Family(more, fam', others, m) && SameBytes(old(m.mem), m.mem, others)
    ensures ok ==> forall s :: s in more ==> s in spaces || (fresh(s) && fresh(s.pageTable))
    ensures ok ==> forall j :: 0 <= j < |fam| && !Touches(op, j) ==> Kept(old(m.mem), m.mem, fam, fam', j, Moved(op, j))
    ensures ok ==> Effect(op, World(old(m.mem), old(m.frames.held), fam), World(m.mem, m.frames.held, fam'))
    ensures !ok ==> MayPanic(op, World(old(m.mem), old(m.frames.held), fam), m.Exhausted())
  {
    hide Family, Takes, DataFrames, Isolated, Kept, SameBytes;
    hide MapEffect, UnmapEffect, RemoveEffect, ForkEffect, BadRange, RemovePanics, ForkPanics;
    FamilySize(spaces, fam, others, m);
    ok, more, fam' := true, spaces, fam;
    if op.i >= |spaces| {
      NothingDone(m.mem, fam, others);
      return;
    }
    match op {
      case MapRange(i, start, len, port) => ok, fam' := MmapIn(spaces, fam, others, i, start, len, port, m);
      case UnmapRange(i, start, len) => ok, fam' := MunmapIn(spaces, fam, others, i, start, len, m);
      case RemoveAt(i, vpn) => ok, fam' := RemoveIn(spaces, fam, others, i, vpn, m);
      case Fork(i, trampoline) => ok, more, fam' := ForkIn(spaces, fam, others, i, trampoline, m);
      case Exit(i) => fam' := ExitIn(spaces, fam, others, i, m);
      case Reap(i) =>
        more, fam' := ReapIn(spaces, fam, others, i, m);
        KeptBut(old(m.mem), m.mem, fam, others, i);
        return;
    }
    if ok {
      KeptAll(old(m.mem), m.mem, fam, fam', others, if op.Fork? then |fam| else op.i);
    }
  }

  /** Any sequence of calls on any number of spaces: no frame ever gets two owners, the rest
      of the kernel keeps its bytes, and a space that no call touched still has its areas,
      its bytes and all its translations. */
  method Run(spaces: seq<MemorySet>, ghost fam: seq<Space>, ghost others: set<nat>, ops: seq<SpaceOp>, m: Machine)
    returns (ok: bool, rest: seq<MemorySet>, ghost fam': seq<Space>, ghost trace: seq<World>)
    requires Family(spaces, fam, others, m) && forall op :: op in ops ==> OpOk(op)
    modifies spaces, set s | s in spaces :: s.pageTable, m, m.frames
    ensures ok ==> Family(rest, fam', others, m) && SameBytes(old(m.mem), m.mem, others)
    ensures ok ==> forall s :: s in rest ==> s in spaces || (fresh(s) && fresh(s.pageTable))
    ensures ok ==> forall j :: 0 <= j < |fam| && Untouched(ops, j) ==> Kept(old(m.mem), m.mem, fam, fam', j, MovedBy(ops, j))
    ensures RunsAs(World(old(m.mem), old(m.frames.held), fam), ops, trace) && AllInOrder(trace, others)
    ensures if ok then |trace| == |ops| + 1 && trace[|ops|] == World(m.mem, m.frames.held, fam')
            else |trace| <= |ops| && MayPanic(ops[|trace| - 1], trace[|trace| - 1], m.Exhausted())
    decreases |ops|
  {
    hide FamilyOk, SameSpace, Effect, MayPanic, OpOk, Touches, Moved;
    InOrderFrom(spaces, fam, others, m);
    ok, rest, fam', trace := true, spaces, fam, [World(m.mem, m.frames.held, fam)];
    if ops == [] {
      SameFamily(m.mem, fam);
      return;
    }
    ghost var fam1, mem1;
    ok, rest, fam1 := Perform(spaces, fam, others, ops[0], m);
    if !ok {
      return;
    }
    mem1 := m.mem;
    ghost var later;
    ok, rest, fam', later := Run(rest, fam1, others, ops[1..], m);
    trace := trace + later;
    assert trace[1..] == later;
    if !ok {
      return;
    }
    SameBytesThrough(old(m.mem), mem1, m.mem, others);
    forall j | 0 <= j < |fam| && Untouched(ops, j) ensures Kept(old(m.mem), m.mem, fam, fam', j, MovedBy(ops, j)) {
      assert Kept(old(m.mem), mem1, fam, fam1, j, Moved(ops[0], j));
      assert Kept(mem1, m.mem, fam1, fam', Moved(ops[0], j), MovedBy(ops, j));
      SameThrough(old(m.mem), mem1, m.mem, fam[j]);
    }
  }
}
