/** `MemorySet::from_existed_user`: the address space that fork gives to a child. */
module ForkSpaces {
  import opened Common
  import opened Recycling
  import opened PageTables
  import opened AddressSpaces
  import opened MemorySets

  const TRAMPOLINE_PAGE: nat := TRAMPOLINE / PAGE_SIZE

  /** The parent at the time of the fork: memory, frames in use, root of its table. */
  datatype Parent = Parent(mem: Mem, held: set<nat>, root: nat)

  /** The frame that the copy reads for a page: the entry's frame, valid or not. */
  function Source(p: Parent, vpn: nat): nat {
    match Translate(p.mem, p.root, vpn)
    case None => 0
    case Some(e) => PtePpn(e)
  }

  /** The child shares no frame with what was in use, and left all of that alone. */
  ghost predicate Separate(p: Parent, s: Snap) {
    && Good(s) && |s.mem| == |p.mem| <= PPN_LIMIT
    && (forall x :: x in p.held ==> x in s.held && x !in s.nodes)
    && (forall x :: x in p.held && x < |p.mem| ==> s.mem[x] == p.mem[x])
  }

  /** The pages of an area are mapped in the child, each to a frame of its own. */
  ghost predicate AreaMapped(p: Parent, s: Snap, area: MapArea) {
    && area.perm < 256
    && (forall v :: area.start <= v < area.end ==>
          && v in area.dataFrames && area.dataFrames[v] < |s.mem| && area.dataFrames[v] < PPN_LIMIT
          && area.dataFrames[v] !in p.held && area.dataFrames[v] in s.held && area.dataFrames[v] !in s.nodes
          && Entry(s.mem, s.root, v) == MappedPte(area.dataFrames[v], area.perm))
    && (forall v, w :: area.start <= v < w < area.end ==> v in area.dataFrames && w in area.dataFrames && area.dataFrames[v] != area.dataFrames[w])
  }

  /** The pages below `upto` hold the bytes of the parent's frames. */
  ghost predicate AreaCopied(p: Parent, s: Snap, area: MapArea, upto: nat) {
    forall v :: area.start <= v < area.end && v < upto && v in area.dataFrames && area.dataFrames[v] < |s.mem| && Source(p, v) in p.held && Source(p, v) < |p.mem| ==>
      s.mem[area.dataFrames[v]] == p.mem[Source(p, v)]
  }

  /** No two areas have a page in common, and none has the trampoline's page. */
  ghost predicate AreasApart(areas: seq<MapArea>) {
    && (forall k, v :: 0 <= k < |areas| && areas[k].start <= v < areas[k].end ==> Key(v) != Key(TRAMPOLINE_PAGE))
    && (forall j, k, v :: 0 <= j < k < |areas| && areas[k].start <= v < areas[k].end ==> Apart(areas[j].start, areas[j].end, v))
  }

  // ----- frames of earlier areas survive later steps

  /** Mapping further pages keeps a finished area finished. */
  lemma AreaSurvivesMapping(p: Parent, a: Snap, b: Snap, area: MapArea, start: nat, end: nat, fs: map<nat, nat>, perm: nat)
    requires AreaMapped(p, a, area) && AreaCopied(p, a, area, area.end)
    requires TakesFrames(a, b, start, end, fs) && SetsEntries(a, b, start, end, fs, perm)
    requires forall v :: area.start <= v < area.end ==> Apart(start, end, v)
    ensures AreaMapped(p, b, area) && AreaCopied(p, b, area, area.end)
  {
    hide Entry, MappedPte, Source, IsBlank, Apart;
  }

  lemma SeparateSurvivesMapping(p: Parent, a: Snap, b: Snap, start: nat, end: nat, fs: map<nat, nat>)
    requires Separate(p, a) && TakesFrames(a, b, start, end, fs) && Good(b)
    ensures Separate(p, b)
  {
    hide TableOk, IsBlank;
  }

  lemma NewAreaMapped(p: Parent, a: Snap, b: Snap, area: MapArea)
    requires Separate(p, a) && TakesFrames(a, b, area.start, area.end, area.dataFrames)
    requires SetsEntries(a, b, area.start, area.end, area.dataFrames, area.perm)
    ensures AreaMapped(p, b, area) && AreaCopied(p, b, area, area.start)
  {
    hide Entry, MappedPte, Source, IsBlank, Apart, TableOk;
  }

  /** Copying one page: frame `f` outside the table and outside what was in use. */
  lemma CopySeparate(p: Parent, a: Snap, b: Snap, f: nat, c: Frame)
    requires Separate(p, a) && f < |a.mem| && f !in p.held && f !in a.nodes
    requires b == a.(mem := a.mem[f := c])
    ensures Separate(p, b) && forall w: nat :: Entry(b.mem, b.root, w) == Entry(a.mem, a.root, w)
  {
    hide TableOk, Entry;
    RootInNodes(a.mem, a.root, a.nodes);
    TableFrame(a.mem, b.mem, a.root, a.nodes);
    forall w: nat ensures Entry(b.mem, b.root, w) == Entry(a.mem, a.root, w) {
      EntryFrame(a, b.mem, w);
    }
  }

  lemma CopyOtherArea(p: Parent, a: Snap, b: Snap, area: MapArea, f: nat, c: Frame)
    requires AreaMapped(p, a, area) && AreaCopied(p, a, area, area.end) && f < |a.mem|
    requires b == a.(mem := a.mem[f := c]) && forall w: nat :: Entry(b.mem, b.root, w) == Entry(a.mem, a.root, w)
    requires forall v :: area.start <= v < area.end ==> v in area.dataFrames && area.dataFrames[v] != f
    ensures AreaMapped(p, b, area) && AreaCopied(p, b, area, area.end)
  {
    hide Entry, MappedPte, Source;
  }

  lemma CopyThisPage(p: Parent, a: Snap, b: Snap, area: MapArea, v: nat, c: Frame)
    requires AreaMapped(p, a, area) && AreaCopied(p, a, area, v) && area.start <= v < area.end
    requires v in area.dataFrames && area.dataFrames[v] < |a.mem|
    requires b == a.(mem := a.mem[area.dataFrames[v] := c]) && forall w: nat :: Entry(b.mem, b.root, w) == Entry(a.mem, a.root, w)
    requires Source(p, v) in p.held && Source(p, v) < |p.mem| ==> c == p.mem[Source(p, v)]
    ensures AreaMapped(p, b, area) && AreaCopied(p, b, area, v + 1)
  {
    hide Entry, MappedPte, Source;
  }

  // ----- the copy

  /** The parent's table is among the frames in use, so its walks read as before. */
  lemma ParentWalks(p: Parent, nodes: map<nat, Node>, mem: Mem, vpn: nat)
    requires TableOk(p.mem, p.root, nodes) && |mem| == |p.mem|
    requires forall t :: t in nodes ==> t in p.held
    requires forall x :: x in p.held && x < |p.mem| ==> mem[x] == p.mem[x]
    ensures Translate(mem, p.root, vpn) == Translate(p.mem, p.root, vpn) && TableOk(mem, p.root, nodes)
    ensures Entry(mem, p.root, vpn) == Entry(p.mem, p.root, vpn)
  {
    hide TableOk, Walk, Index;
    RootInNodes(p.mem, p.root, nodes);
    TableFrame(p.mem, mem, p.root, nodes);
    WalkFrame(p.mem, mem, p.root, nodes, Index(vpn, 0), Index(vpn, 1), Index(vpn, 2));
  }

  /** A page mapped to `f` translates to `f`. */
  lemma MappedTranslates(mem: Mem, root: nat, vpn: nat, f: nat, perm: nat)
    requires f < PPN_LIMIT && perm < 256 && Entry(mem, root, vpn) == MappedPte(f, perm)
    ensures Translate(mem, root, vpn) == Some(MappedPte(f, perm)) && PtePpn(MappedPte(f, perm)) == f
  {
    MappedIsValid(f, perm);
    PteRoundTrip(f, if perm % 2 == 1 then perm else perm + 1);
    hide Walk, Index, PtePpn, Pte;
  }

  /** The page has a valid entry in the parent. */
  ghost predicate HasPage(p: Parent, v: nat) {
    PteValid(Entry(p.mem, p.root, v))
  }

  /** Every page of the area can be looked up in the parent, as `unwrap` needs: a mapped
      one leads to a frame in use, any other to frame 0. */
  ghost predicate Lookable(p: Parent, area: MapArea) {
    forall v :: area.start <= v < area.end ==>
      Translate(p.mem, p.root, v).Some? && if HasPage(p, v) then Source(p, v) in p.held else Source(p, v) == 0
  }

  /** That is part of the invariant of an address space. */
  lemma AreasAreLookable(p: Parent, s: Snap, areas: seq<MapArea>, k: nat)
    requires AreasOk(s, areas) && k < |areas| && p == Parent(s.mem, s.held, s.root)
    ensures Lookable(p, areas[k]) && areas[k].start <= areas[k].end && areas[k].perm < 256
  {
    hide Translate, PtePpn, Entry, PteValid, Backed;
    assert Owned(s, areas[k]);
    forall v | areas[k].start <= v < areas[k].end
      ensures Translate(p.mem, p.root, v).Some? && if HasPage(p, v) then Source(p, v) in p.held else Source(p, v) == 0
    {
      assert Walks(s, v);
      EntryOfTranslate(p.mem, p.root, v);
      ZeroIsNoEntry();
      if HasPage(p, v) {
        assert IsMapped(s, v);
        BackedSource(p, s, areas, v);
      }
    }
  }

  lemma BackedSource(p: Parent, s: Snap, areas: seq<MapArea>, v: nat)
    requires AreasOwned(s, areas) && Backed(s, areas, v) && p == Parent(s.mem, s.held, s.root)
    ensures Source(p, v) in p.held
  {
    hide Translate, PtePpn, Entry, PteValid, MappedPte, Key;
    var j, u :| 0 <= j < |areas| && u in areas[j].dataFrames && Backs(s, areas[j], u, v);
    assert Owned(s, areas[j]);
    MappedTranslates(p.mem, p.root, v, areas[j].dataFrames[u], areas[j].perm);
  }

  /** All pages of all areas are mapped in the parent. */
  ghost predicate Full(p: Parent, areas: seq<MapArea>) {
    forall k, v :: 0 <= k < |areas| && areas[k].start <= v < areas[k].end ==> HasPage(p, v)
  }

  /** The parent's invariant survives everything that leaves the frames in use alone. */
  lemma ParentStillOk(p: Parent, nodes: map<nat, Node>, areas: seq<MapArea>, s: Snap)
    requires TableOk(p.mem, p.root, nodes) && (forall t :: t in nodes ==> t in p.held) && Separate(p, s)
    requires AreasOk(Snap(p.mem, p.held, nodes, p.root), areas)
    ensures AreasOk(Snap(s.mem, s.held, nodes, p.root), areas)
  {
    hide TableOk, Translate, PteValid, Entry, Backed, Separate, Owned;
    var a, b := Snap(p.mem, p.held, nodes, p.root), Snap(s.mem, s.held, nodes, p.root);
    forall k, v | 0 <= k < |areas| && areas[k].start <= v < areas[k].end
      ensures Walks(b, v) && (IsMapped(b, v) ==> Backed(b, areas, v))
    {
      assert Walks(a, v) && (IsMapped(a, v) ==> Backed(a, areas, v));
      ParentPage(p, nodes, areas, s, v);
    }
    forall k | 0 <= k < |areas| ensures Owned(b, areas[k]) {
      StillOwned(p, nodes, areas[k], s);
    }
  }

  lemma StillOwned(p: Parent, nodes: map<nat, Node>, area: MapArea, s: Snap)
    requires Separate(p, s) && Owned(Snap(p.mem, p.held, nodes, p.root), area)
    ensures Owned(Snap(s.mem, s.held, nodes, p.root), area)
  {
    hide TableOk;
  }

  lemma ParentPage(p: Parent, nodes: map<nat, Node>, areas: seq<MapArea>, s: Snap, v: nat)
    requires TableOk(p.mem, p.root, nodes) && (forall t :: t in nodes ==> t in p.held) && Separate(p, s)
    ensures var a, b := Snap(p.mem, p.held, nodes, p.root), Snap(s.mem, s.held, nodes, p.root);
            && (Walks(a, v) <==> Walks(b, v)) && (IsMapped(a, v) <==> IsMapped(b, v))
            && (Backed(a, areas, v) ==> Backed(b, areas, v))
  {
    hide TableOk, Translate, PteValid, Entry, Backs;
    var a, b := Snap(p.mem, p.held, nodes, p.root), Snap(s.mem, s.held, nodes, p.root);
    ParentWalks(p, nodes, s.mem, v);
    if Backed(a, areas, v) {
      var j, u :| 0 <= j < |areas| && u in areas[j].dataFrames && Backs(a, areas[j], u, v);
      SameBacking(a, b, areas[j], u, v);
    }
  }

  /** Pages that are mapped can be looked up, so the child meets the invariant. */
  lemma ChildOk(p: Parent, s: Snap, done: seq<MapArea>)
    requires AllDone(p, s, done) && AreasOwned(s, done)
    ensures AreasOk(s, done)
  {
    hide Translate, Entry, PteValid, PtePpn, MappedPte, AreaCopied, AreasOwned, Backs;
    forall k | 0 <= k < |done| ensures done[k].perm < 256 {
      assert AreaMapped(p, s, done[k]);
    }
    forall k, v | 0 <= k < |done| && done[k].start <= v < done[k].end ensures Walks(s, v) && Backed(s, done, v) {
      assert AreaMapped(p, s, done[k]);
      MappedTranslates(s.mem, s.root, v, done[k].dataFrames[v], done[k].perm);
      MappedIsValid(done[k].dataFrames[v], done[k].perm);
      OwnBacking(s, done[k], v, v);
    }
  }

  lemma SameAccount(p: Parent, a: Snap, b: Snap, areas: seq<MapArea>)
    requires Accounted(p, a, areas) && b.held == a.held && b.nodes == a.nodes
    ensures Accounted(p, b, areas)
  {
    hide DataFrames;
  }

  lemma SameOwners(a: Snap, b: Snap, areas: seq<MapArea>)
    requires AreasOwned(a, areas) && b.held == a.held && b.nodes == a.nodes
    ensures AreasOwned(b, areas)
  {
    forall k | 0 <= k < |areas| ensures Owned(b, areas[k]) {
      assert Owned(a, areas[k]);
    }
  }

  ghost predicate AllDone(p: Parent, s: Snap, areas: seq<MapArea>) {
    forall k :: 0 <= k < |areas| ==> AreaMapped(p, s, areas[k]) && AreaCopied(p, s, areas[k], areas[k].end)
  }

  /** The frames of the earlier areas are not those of `area`. */
  ghost predicate OtherFrames(areas: seq<MapArea>, area: MapArea) {
    forall k, v, w :: 0 <= k < |areas| && areas[k].start <= v < areas[k].end && area.start <= w < area.end ==>
      v in areas[k].dataFrames && w in area.dataFrames && areas[k].dataFrames[v] != area.dataFrames[w]
  }

  ghost predicate IsParent(p: Parent, user: MemorySet)
    reads user.pageTable
  {
    && p.root == user.pageTable.root && TableOk(p.mem, p.root, user.pageTable.nodes)
    && forall t :: t in user.pageTable.nodes ==> t in p.held
  }

  /** The inner loop: copy each page of an area that is mapped in the child.  It ends in a
      trap exactly when some page is not mapped in the parent. */
  method CopyPages(user: MemorySet, child: MemorySet, area: MapArea, m: Machine, ghost p: Parent, ghost done: seq<MapArea>)
    returns (ok: bool)
    requires user.Valid(m) && child.Valid(m) && IsParent(p, user) && Separate(p, child.View(m)) && area.start <= area.end
    requires AreaMapped(p, child.View(m), area) && AreaCopied(p, child.View(m), area, area.start) && Lookable(p, area)
    requires AllDone(p, child.View(m), done) && OtherFrames(done, area)
    requires forall x :: x in p.held ==> m.Accessible(x)
    modifies m`mem
    ensures m.Valid() && (ok <==> forall v :: area.start <= v < area.end ==> HasPage(p, v))
    ensures ok ==> user.Valid(m) && child.Valid(m) && Separate(p, child.View(m)) && AllDone(p, child.View(m), done + [area])
    ensures ok ==> forall w: nat :: Entry(m.mem, child.pageTable.root, w) == Entry(old(m.mem), child.pageTable.root, w)
  {
    hide TableOk, Entry, Translate, AreaMapped, AreaCopied, Separate, AllDone, OtherFrames, MappedPte, PtePpn, Source, HasPage;
    for vpn := area.start to area.end
      invariant user.Valid(m) && child.Valid(m) && Separate(p, child.View(m))
      invariant AreaMapped(p, child.View(m), area) && AreaCopied(p, child.View(m), area, vpn) && AllDone(p, child.View(m), done)
      invariant forall v :: area.start <= v < vpn ==> HasPage(p, v)
      invariant forall w: nat :: Entry(m.mem, child.pageTable.root, w) == Entry(old(m.mem), child.pageTable.root, w)
    {
      ghost var a := child.View(m);
      var src := user.pageTable.FindPte(vpn, m);
      var dst := child.pageTable.FindPte(vpn, m);
      CopySource(p, a, user.pageTable.nodes, area, vpn);
      CopyTarget(p, a, area, vpn);
      if !m.Accessible(PtePpn(src.value)) {
        return false;
      }
      m.mem := m.mem[PtePpn(dst.value) := m.mem[PtePpn(src.value)]];
      CopyStep(p, a, child.View(m), area, vpn, done, m.mem[PtePpn(dst.value)]);
      StillTables(p, user.pageTable.nodes, child.View(m), vpn);
    }
    LastDone(p, child.View(m), done, area);
    return true;
  }

  lemma CopySource(p: Parent, a: Snap, nodes: map<nat, Node>, area: MapArea, vpn: nat)
    requires TableOk(p.mem, p.root, nodes) && (forall t :: t in nodes ==> t in p.held) && Separate(p, a)
    requires Lookable(p, area) && area.start <= vpn < area.end
    ensures Translate(a.mem, p.root, vpn) == Translate(p.mem, p.root, vpn)
    ensures Translate(p.mem, p.root, vpn).Some? && PtePpn(Translate(p.mem, p.root, vpn).value) == Source(p, vpn)
    ensures if HasPage(p, vpn) then Source(p, vpn) in p.held else Source(p, vpn) == 0
    ensures |a.mem| == |p.mem| && (Source(p, vpn) in p.held && Source(p, vpn) < |p.mem| ==> a.mem[Source(p, vpn)] == p.mem[Source(p, vpn)])
  {
    hide TableOk, Translate, PtePpn, HasPage;
    ParentWalks(p, nodes, a.mem, vpn);
  }

  lemma CopyTarget(p: Parent, a: Snap, area: MapArea, vpn: nat)
    requires AreaMapped(p, a, area) && area.start <= vpn < area.end
    ensures vpn in area.dataFrames && area.dataFrames[vpn] < |a.mem| && area.dataFrames[vpn] !in p.held && area.dataFrames[vpn] !in a.nodes
    ensures Translate(a.mem, a.root, vpn).Some? && PtePpn(Translate(a.mem, a.root, vpn).value) == area.dataFrames[vpn]
  {
    hide Entry, MappedPte, Translate, PtePpn;
    MappedTranslates(a.mem, a.root, vpn, area.dataFrames[vpn], area.perm);
  }

  lemma CopyStep(p: Parent, a: Snap, b: Snap, area: MapArea, vpn: nat, done: seq<MapArea>, c: Frame)
    requires Separate(p, a) && AreaMapped(p, a, area) && AreaCopied(p, a, area, vpn) && area.start <= vpn < area.end
    requires AllDone(p, a, done) && OtherFrames(done, area)
    requires vpn in area.dataFrames && area.dataFrames[vpn] < |a.mem| && area.dataFrames[vpn] !in p.held && area.dataFrames[vpn] !in a.nodes
    requires b == a.(mem := a.mem[area.dataFrames[vpn] := c])
    requires Source(p, vpn) in p.held && Source(p, vpn) < |p.mem| ==> c == p.mem[Source(p, vpn)]
    ensures Separate(p, b) && AreaMapped(p, b, area) && AreaCopied(p, b, area, vpn + 1) && AllDone(p, b, done)
    ensures forall w: nat :: Entry(b.mem, b.root, w) == Entry(a.mem, a.root, w)
  {
    hide Separate, AreaMapped, AreaCopied, Entry, Source;
    CopySeparate(p, a, b, area.dataFrames[vpn], c);
    CopyThisPage(p, a, b, area, vpn, c);
    forall k | 0 <= k < |done| ensures AreaMapped(p, b, done[k]) && AreaCopied(p, b, done[k], done[k].end) {
      CopyOtherArea(p, a, b, done[k], area.dataFrames[vpn], c);
    }
  }

  /** Both tables are still in order in the new memory. */
  lemma StillTables(p: Parent, nodes: map<nat, Node>, b: Snap, vpn: nat)
    requires TableOk(p.mem, p.root, nodes) && (forall t :: t in nodes ==> t in p.held) && Separate(p, b)
    ensures TableOk(b.mem, p.root, nodes) && TableOk(b.mem, b.root, b.nodes)
  {
    hide TableOk, Translate;
    ParentWalks(p, nodes, b.mem, vpn);
  }

  lemma LastDone(p: Parent, s: Snap, done: seq<MapArea>, area: MapArea)
    requires AllDone(p, s, done) && AreaMapped(p, s, area) && AreaCopied(p, s, area, area.end)
    ensures AllDone(p, s, done + [area])
  {
    hide AreaMapped, AreaCopied;
  }

  // ----- the whole space

  /** Pages outside the areas and the trampoline are not mapped. */
  ghost predicate NothingElse(s: Snap, areas: seq<MapArea>) {
    forall w :: Key(w) != Key(TRAMPOLINE_PAGE) && (forall k :: 0 <= k < |areas| ==> Apart(areas[k].start, areas[k].end, w)) ==>
      Entry(s.mem, s.root, w) == 0
  }

  /** The same ranges with the same permissions. */
  ghost predicate SameAreas(xs: seq<MapArea>, ys: seq<MapArea>) {
    && |xs| == |ys|
    && forall k :: 0 <= k < |xs| ==> xs[k].start == ys[k].start && xs[k].end == ys[k].end && xs[k].perm == ys[k].perm
  }

  ghost predicate TooLong(areas: seq<MapArea>) {
    exists k :: 0 <= k < |areas| && areas[k].end - areas[k].start > KEY_LIMIT
  }

  /** Every frame taken since the fork began is the child's. */
  ghost predicate Accounted(p: Parent, s: Snap, areas: seq<MapArea>) {
    forall x :: x in s.held ==> x in p.held || x in s.nodes || x in DataFrames(areas)
  }

  lemma AreaAccounted(p: Parent, a: Snap, b: Snap, done: seq<MapArea>, area: MapArea)
    requires Accounted(p, a, done) && TakesFrames(a, b, area.start, area.end, area.dataFrames)
    ensures Accounted(p, b, done + [area])
  {
    hide DataFrames, IsBlank;
    var all := done + [area];
    forall x | x in b.held ensures x in p.held || x in b.nodes || x in DataFrames(all) {
      if x in DataFrames(done) {
        FramesOfMore(done, area, x);
      } else if x in area.dataFrames.Values {
        var v :| v in area.dataFrames && area.dataFrames[v] == x;
        assert all[|done|] == area;
        DataFrameOf(all, |done|, v);
      }
    }
  }

  lemma FramesOfMore(done: seq<MapArea>, area: MapArea, x: nat)
    requires x in DataFrames(done)
    ensures x in DataFrames(done + [area])
  {
    var k, v :| 0 <= k < |done| && v in done[k].dataFrames && done[k].dataFrames[v] == x;
    assert (done + [area])[k] == done[k];
    DataFrameOf(done + [area], k, v);
  }

  /** The child after `k` areas. */
  ghost predicate Progress(p: Parent, s: Snap, areas: seq<MapArea>, done: seq<MapArea>, trampoline: nat)
    requires trampoline < PPN_LIMIT
  {
    && |done| <= |areas| && SameAreas(done, areas[..|done|]) && AreasApart(done) && Separate(p, s) && AllDone(p, s, done) && NothingElse(s, done)
    && Entry(s.mem, s.root, TRAMPOLINE_PAGE) == MappedPte(trampoline, 10)
  }

  /** Pages that the child has free lie apart from everything it has mapped. */
  lemma FreeIsApart(p: Parent, a: Snap, areas: seq<MapArea>, done: seq<MapArea>, trampoline: nat, start: nat, end: nat)
    requires trampoline < PPN_LIMIT && Progress(p, a, areas, done, trampoline)
    requires forall v :: start <= v < end ==> !IsMapped(a, v)
    ensures Apart(start, end, TRAMPOLINE_PAGE)
    ensures forall k, v :: 0 <= k < |done| && done[k].start <= v < done[k].end ==> Apart(start, end, v)
  {
    hide Separate, AreaCopied, Entry, MappedPte, NothingElse, AreasApart, Key;
    MappedIsValid(trampoline, 10);
    forall w | start <= w < end ensures Key(w) != Key(TRAMPOLINE_PAGE) {
      assert !IsMapped(a, w);
      if Key(w) == Key(TRAMPOLINE_PAGE) {
        SameKeySameEntry(a, w, TRAMPOLINE_PAGE);
      }
    }
    forall k, v | 0 <= k < |done| && done[k].start <= v < done[k].end ensures Apart(start, end, v) {
      assert AreaMapped(p, a, done[k]);
      MappedIsValid(done[k].dataFrames[v], done[k].perm);
      forall w | start <= w < end ensures Key(w) != Key(v) {
        assert !IsMapped(a, w);
        if Key(w) == Key(v) {
          SameKeySameEntry(a, w, v);
        }
      }
    }
  }

  /** A page that the child has mapped belongs to an earlier area or the trampoline, so
      the areas are not apart. */
  lemma TakenIsOverlap(p: Parent, a: Snap, areas: seq<MapArea>, done: seq<MapArea>, trampoline: nat, v: nat)
    requires trampoline < PPN_LIMIT && Progress(p, a, areas, done, trampoline) && |done| < |areas|
    requires areas[|done|].start <= v < areas[|done|].end && IsMapped(a, v)
    ensures !AreasApart(areas)
  {
    hide Separate, AllDone, Entry, MappedPte, Key;
    if AreasApart(areas) {
      forall j | 0 <= j < |done| ensures Apart(done[j].start, done[j].end, v) {
        assert areas[..|done|][j] == areas[j];
      }
      assert Entry(a.mem, a.root, v) == 0;
      ZeroIsNoEntry();
    }
  }

  /** After mapping and copying the next area. */
  lemma AreaAdded(p: Parent, a: Snap, b: Snap, c: Snap, areas: seq<MapArea>, done: seq<MapArea>, area: MapArea, trampoline: nat)
    requires trampoline < PPN_LIMIT && Progress(p, a, areas, done, trampoline) && |done| < |areas|
    requires area.start == areas[|done|].start && area.end == areas[|done|].end && area.perm == areas[|done|].perm
    requires forall v :: area.start <= v < area.end ==> !IsMapped(a, v)
    requires SetsEntries(a, b, area.start, area.end, area.dataFrames, area.perm) && b.root == a.root == c.root
    requires forall w: nat :: Entry(c.mem, c.root, w) == Entry(b.mem, b.root, w)
    requires Separate(p, c) && AllDone(p, c, done + [area])
    ensures Progress(p, c, areas, done + [area], trampoline)
  {
    hide Separate, AllDone, Entry, MappedPte, Apart;
    var done' := done + [area];
    assert areas[..|done'|] == areas[..|done|] + [areas[|done|]];
    FreeIsApart(p, a, areas, done, trampoline, area.start, area.end);
    assert AreasApart(done') by {
      OneMoreApart(done, area);
    }
    forall w | Key(w) != Key(TRAMPOLINE_PAGE) && (forall k :: 0 <= k < |done'| ==> Apart(done'[k].start, done'[k].end, w))
      ensures Entry(c.mem, c.root, w) == 0
    {
      assert Apart(done'[|done|].start, done'[|done|].end, w);
      forall k | 0 <= k < |done| ensures Apart(done[k].start, done[k].end, w) {
        assert done'[k] == done[k];
      }
    }
  }

  lemma OneMoreApart(done: seq<MapArea>, area: MapArea)
    requires AreasApart(done) && Apart(area.start, area.end, TRAMPOLINE_PAGE)
    requires forall k, v :: 0 <= k < |done| && done[k].start <= v < done[k].end ==> Apart(area.start, area.end, v)
    ensures AreasApart(done + [area])
  {
    hide Key;
    var all := done + [area];
    forall j, k, v | 0 <= j < k < |all| && all[k].start <= v < all[k].end ensures Apart(all[j].start, all[j].end, v) {
      if k == |done| {
        forall w | all[j].start <= w < all[j].end ensures Key(w) != Key(v) {
          assert Apart(area.start, area.end, w);
        }
      }
    }
  }

  /** Mapping the next area leaves the finished ones finished and takes new frames. */
  lemma AreaPushed(p: Parent, a: Snap, b: Snap, areas: seq<MapArea>, done: seq<MapArea>, area: MapArea, trampoline: nat)
    requires trampoline < PPN_LIMIT && Progress(p, a, areas, done, trampoline)
    requires forall v :: area.start <= v < area.end ==> !IsMapped(a, v)
    requires TakesFrames(a, b, area.start, area.end, area.dataFrames) && Good(b)
    requires SetsEntries(a, b, area.start, area.end, area.dataFrames, area.perm)
    ensures Separate(p, b) && AllDone(p, b, done) && OtherFrames(done, area)
    ensures AreaMapped(p, b, area) && AreaCopied(p, b, area, area.start)
  {
    hide Separate, Entry, MappedPte, Source, SetsEntries, TableOk, IsBlank, Apart, AreasApart, NothingElse;
    SeparateSurvivesMapping(p, a, b, area.start, area.end, area.dataFrames);
    NewAreaMapped(p, a, b, area);
    FreeIsApart(p, a, areas, done, trampoline, area.start, area.end);
    forall k | 0 <= k < |done| ensures AreaMapped(p, b, done[k]) && AreaCopied(p, b, done[k], done[k].end) {
      AreaSurvivesMapping(p, a, b, done[k], area.start, area.end, area.dataFrames, area.perm);
    }
    forall k, v, w | 0 <= k < |done| && done[k].start <= v < done[k].end && area.start <= w < area.end
      ensures v in done[k].dataFrames && w in area.dataFrames && done[k].dataFrames[v] != area.dataFrames[w]
    {
      assert AreaMapped(p, a, done[k]);
    }
  }

  lemma UserStillValid(p: Parent, nodes: map<nat, Node>, s: Snap)
    requires TableOk(p.mem, p.root, nodes) && (forall t :: t in nodes ==> t in p.held) && Separate(p, s)
    ensures TableOk(s.mem, p.root, nodes) && forall t :: t in nodes ==> t in s.held
  {
    hide TableOk, Translate;
    ParentWalks(p, nodes, s.mem, 0);
  }

  /** One round of the outer loop: map an area in the child, then copy its pages. */
  method ForkArea(user: MemorySet, child: MemorySet, k: nat, m: Machine, ghost p: Parent, trampoline: nat) returns (ok: bool)
    requires user.Valid(m) && child.Valid(m) && user.pageTable != child.pageTable && user != child && IsParent(p, user)
    requires k < |user.areas| && |child.areas| == k && Lookable(p, user.areas[k])
    requires user.areas[k].start <= user.areas[k].end && user.areas[k].perm < 256 && AreasOwned(child.View(m), child.areas)
    requires Accounted(p, child.View(m), child.areas)
    requires trampoline < PPN_LIMIT && Progress(p, child.View(m), user.areas, child.areas, trampoline)
    requires forall x :: x in p.held ==> m.Accessible(x)
    modifies child, child.pageTable`tracked, child.pageTable`nodes, m, m.frames
    ensures m.Valid()
    ensures !ok ==> m.Exhausted() || TooLong(user.areas) || !AreasApart(user.areas) || !Full(p, user.areas)
    ensures ok ==> forall v :: user.areas[k].start <= v < user.areas[k].end ==> HasPage(p, v)
    ensures ok ==> user.Valid(m) && child.Valid(m) && |child.areas| == k + 1 && AreasOwned(child.View(m), child.areas)
    ensures ok ==> Accounted(p, child.View(m), child.areas)
    ensures ok ==> Progress(p, child.View(m), user.areas, child.areas, trampoline)
  {
    hide TakesFrames, SetsEntries, TableOk, Entry, PteValid, Progress, Separate, AllDone, OtherFrames, AreaMapped, AreaCopied, MappedPte, AreasApart, Lookable, IsMapped, AreasOwned, WalksMore, HasPage, Accounted, DataFrames;
    ghost var a, done := child.View(m), child.areas;
    var from := user.areas[k];
    var fs;
    ok, fs := child.MapPages(from.start, from.end, from.perm, m);
    if !ok {
      if v :| from.start <= v < from.end && IsMapped(a, v) {
        TakenIsOverlap(p, a, user.areas, done, trampoline, v);
      }
      return;
    }
    var area := MapArea(from.start, from.end, fs, from.perm);
    ghost var b := child.View(m);
    AreaPushed(p, a, b, user.areas, done, area, trampoline);
    UserStillValid(p, user.pageTable.nodes, b);
    SameLookable(p, from, area);
    PushOwned(a, b, done, area);
    AreaAccounted(p, a, b, done, area);
    ok := CopyPages(user, child, area, m, p, done);
    if !ok {
      return;
    }
    SameRoot(a, b, area.start, area.end, fs);
    AreaAdded(p, a, b, child.View(m), user.areas, done, area, trampoline);
    SameOwners(b, child.View(m), done + [area]);
    SameAccount(p, b, child.View(m), done + [area]);
    child.areas := child.areas + [area];
  }

  lemma SameLookable(p: Parent, x: MapArea, y: MapArea)
    requires Lookable(p, x) && x.start == y.start && x.end == y.end
    ensures Lookable(p, y)
  {
    hide Translate, Source, HasPage;
  }

  lemma BareChild(p: Parent, b: Snap, c: Snap, areas: seq<MapArea>, trampoline: nat)
    requires Good(c) && trampoline < PPN_LIMIT && |b.mem| == |p.mem| <= PPN_LIMIT && c.root == b.root
    requires (forall x :: x in p.held ==> x in b.held && x !in b.nodes) && (forall x :: x in p.held && x < |p.mem| ==> b.mem[x] == p.mem[x])
    requires forall w: nat :: Entry(b.mem, b.root, w) == 0
    requires SetsEntry(b.mem, c.mem, b.root, TRAMPOLINE_PAGE, MappedPte(trampoline, 10))
    requires OnlyTable(b.mem, b.held, b.nodes, c.mem, c.held, c.nodes)
    ensures Progress(p, c, areas, [], trampoline)
  {
    hide Entry, MappedPte, PteValid, TableOk;
    MappedIsValid(trampoline, 10);
  }

  ghost function ParentOf(user: MemorySet, m: Machine): Parent
    reads user.pageTable, m, m.frames
  {
    Parent(m.mem, m.frames.held, user.pageTable.root)
  }

  lemma BareAccount(p: Parent, b: Snap, c: Snap)
    requires OnlyTable(b.mem, b.held, b.nodes, c.mem, c.held, c.nodes)
    requires forall x :: x in b.held ==> x in p.held || x in b.nodes
    ensures Accounted(p, c, [])
  {
    hide DataFrames;
  }

  /** `new_bare` and `map_trampoline`. */
  method BareSpace(user: MemorySet, trampoline: nat, m: Machine) returns (child: MemorySet?)
    requires user.WellFormed(m) && trampoline < PPN_LIMIT
    modifies m, m.frames
    ensures m.Valid() && (child == null ==> m.Exhausted())
    ensures child != null ==> fresh(child) && fresh(child.pageTable) && user.Valid(m) && child.Valid(m) && child.areas == []
    ensures child != null ==> Progress(old(ParentOf(user, m)), child.View(m), user.areas, [], trampoline)
    ensures child != null ==> Accounted(old(ParentOf(user, m)), child.View(m), [])
  {
    hide TableOk, Entry, PteValid, Progress, MappedPte, SetsEntry, OnlyTable, AreasOk, Separate, KeepsWalks, Translate, Accounted, Conserved, Lookup;
    ghost var p := ParentOf(user, m);
    var table := PageTable.New(m);
    if table == null {
      return null;
    }
    child := new MemorySet(table);
    ghost var b := child.View(m);
    BlankEntries(m.mem, table.root);
    var ok := table.Map(TRAMPOLINE_PAGE, trampoline, 10, m);
    if !ok {
      NotMapped(b, TRAMPOLINE_PAGE);
      return null;
    }
    BareChild(p, b, child.View(m), user.areas, trampoline);
    BareAccount(p, b, child.View(m));
    SeparateOf(p, child.View(m), user.areas, [], trampoline);
    UserStillValid(p, user.pageTable.nodes, child.View(m));
  }

  /** `MemorySet::from_existed_user`.  The child gets a table of its own, the trampoline,
      and for every page of every area a new frame with the bytes of the parent's frame;
      nothing that was in use changes.  Unless frames run out it panics exactly when two
      areas share a page or some page of an area is not mapped: the copy then reads frame
      0, which the kernel does not map. */
  method FromExistedUser(user: MemorySet, trampoline: nat, m: Machine) returns (ok: bool, child: MemorySet?)
    requires user.WellFormed(m) && trampoline < PPN_LIMIT
    modifies m, m.frames
    ensures m.Valid()
    ensures !ok ==> m.Exhausted() || TooLong(user.areas) || !AreasApart(user.areas) || !old(Full(ParentOf(user, m), user.areas))
    ensures ok ==> AreasApart(user.areas) && old(Full(ParentOf(user, m), user.areas))
    ensures ok ==> child != null && fresh(child) && fresh(child.pageTable) && user.WellFormed(m) && child.WellFormed(m)
    ensures ok ==> SameAreas(child.areas, user.areas)
    ensures ok ==> Progress(old(ParentOf(user, m)), child.View(m), user.areas, child.areas, trampoline)
    ensures ok ==> Accounted(old(ParentOf(user, m)), child.View(m), child.areas)
  {
    hide Accounted, TableOk, Progress, AreasApart, Lookable, AreasOk, AreasOwned, Separate, AllDone, HasPage, Conserved;
    ghost var p, nodes, areas, view := ParentOf(user, m), user.pageTable.nodes, user.areas, user.View(m);
    HeldAccessible(m);
    child := BareSpace(user, trampoline, m);
    if child == null {
      return false, null;
    }
    ok := true;
    NoAreasOk(child.View(m));
    OwnedOf(child.View(m), []);
    for k := 0 to |user.areas|
      invariant ok && user.Valid(m) && child.Valid(m) && |child.areas| == k && AreasOwned(child.View(m), child.areas)
      invariant Progress(p, child.View(m), user.areas, child.areas, trampoline) && Accounted(p, child.View(m), child.areas)
      invariant forall j, v :: 0 <= j < k && areas[j].start <= v < areas[j].end ==> HasPage(p, v)
    {
      AreasAreLookable(p, view, areas, k);
      ok := ForkArea(user, child, k, m, p, trampoline);
      if !ok {
        return;
      }
    }
    AllAreas(p, child.View(m), user.areas, child.areas, trampoline);
    SeparateOf(p, child.View(m), user.areas, child.areas, trampoline);
    ChildOk(p, child.View(m), child.areas);
    ParentStillOk(p, nodes, areas, child.View(m));
  }

  /** Frames in use are managed ones, all of which the kernel maps. */
  lemma HeldAccessible(m: Machine)
    requires m.Valid()
    ensures forall x :: x in m.frames.held ==> m.Accessible(x)
  {
  }

  lemma OwnedOf(s: Snap, areas: seq<MapArea>)
    requires AreasOk(s, areas)
    ensures AreasOwned(s, areas)
  {
  }

  lemma BlankEntries(mem: Mem, root: nat)
    requires forall a, b, c :: Lookup(mem, root, a, b, c) == 0
    ensures forall w: nat :: Entry(mem, root, w) == 0
  {
    hide Lookup;
  }

  lemma NotMapped(b: Snap, vpn: nat)
    requires Entry(b.mem, b.root, vpn) == 0
    ensures !PteValid(Entry(b.mem, b.root, vpn))
  {
  }

  lemma SeparateOf(p: Parent, s: Snap, areas: seq<MapArea>, done: seq<MapArea>, trampoline: nat)
    requires trampoline < PPN_LIMIT && Progress(p, s, areas, done, trampoline)
    ensures Separate(p, s) && AllDone(p, s, done)
  {
  }

  lemma AllAreas(p: Parent, s: Snap, areas: seq<MapArea>, done: seq<MapArea>, trampoline: nat)
    requires trampoline < PPN_LIMIT && Progress(p, s, areas, done, trampoline) && |done| == |areas|
    ensures SameAreas(done, areas) && AreasApart(areas)
  {
    hide Separate, AllDone, NothingElse, Entry, MappedPte, Key;
    assert areas[..|done|] == areas;
  }

  // ----- what the child sees

  /** In a space whose areas are apart, a mapped page is mapped to its own area's frame. */
  lemma OwnFrame(p: Parent, nodes: map<nat, Node>, s: Snap, areas: seq<MapArea>, done: seq<MapArea>, trampoline: nat, k: nat, v: nat)
    requires trampoline < PPN_LIMIT && Progress(p, s, areas, done, trampoline) && k < |areas| == |done|
    requires AreasOk(Snap(p.mem, p.held, nodes, p.root), areas) && Full(p, areas) && areas[k].start <= v < areas[k].end
    ensures v in areas[k].dataFrames && areas[k].dataFrames[v] in p.held && areas[k].dataFrames[v] < PPN_LIMIT && areas[k].perm < 256
    ensures Entry(p.mem, p.root, v) == MappedPte(areas[k].dataFrames[v], areas[k].perm)
  {
    hide Entry, PteValid, MappedPte, Key, NothingElse, Separate, AreaCopied, AreasOk, Owned, Backs;
    var a := Snap(p.mem, p.held, nodes, p.root);
    assert areas[..|done|] == areas && HasPage(p, v);
    var j, u := BackingOf(a, areas, k, v);
    SameKeySameArea(done, j, k, u, v);
    assert AreaMapped(p, s, done[k]);
    OnePagePerKey(p, s, done[k], u, v);
  }

  /** The area and the page that back a mapped page. */
  lemma BackingOf(s: Snap, areas: seq<MapArea>, k: nat, v: nat) returns (j: nat, u: nat)
    requires AreasOk(s, areas) && k < |areas| && areas[k].start <= v < areas[k].end && IsMapped(s, v)
    ensures j < |areas| && areas[j].start <= u < areas[j].end && Key(u) == Key(v)
    ensures u in areas[j].dataFrames && areas[j].dataFrames[u] in s.held && areas[j].dataFrames[u] < PPN_LIMIT && areas[j].perm < 256
    ensures Entry(s.mem, s.root, v) == MappedPte(areas[j].dataFrames[u], areas[j].perm)
  {
    hide Entry, MappedPte, Key, AreasWalk, PteValid;
    j, u :| 0 <= j < |areas| && u in areas[j].dataFrames && Backs(s, areas[j], u, v);
    assert Owned(s, areas[j]);
  }

  lemma SameKeySameArea(areas: seq<MapArea>, j: nat, k: nat, u: nat, v: nat)
    requires AreasApart(areas) && j < |areas| && k < |areas| && Key(u) == Key(v)
    requires areas[j].start <= u < areas[j].end && areas[k].start <= v < areas[k].end
    ensures j == k
  {
    hide Key;
    assert j < k ==> Apart(areas[j].start, areas[j].end, v);
    assert k < j ==> Apart(areas[k].start, areas[k].end, u);
  }

  lemma OnePagePerKey(p: Parent, s: Snap, area: MapArea, u: nat, v: nat)
    requires AreaMapped(p, s, area) && area.start <= u < area.end && area.start <= v < area.end && Key(u) == Key(v)
    ensures u == v
  {
    hide Entry, MappedPte, Key;
    SameKeySameEntry(s, u, v);
    MappedTranslates(s.mem, s.root, u, area.dataFrames[u], area.perm);
    MappedTranslates(s.mem, s.root, v, area.dataFrames[v], area.perm);
  }

  /** Every page of every area has the parent's flags and bytes in the child, on another
      frame, and the parent's frame keeps its bytes. */
  lemma ForkCopiesPage(p: Parent, nodes: map<nat, Node>, s: Snap, areas: seq<MapArea>, done: seq<MapArea>, trampoline: nat, k: nat, v: nat)
    requires trampoline < PPN_LIMIT && Progress(p, s, areas, done, trampoline) && k < |areas| == |done|
    requires AreasOk(Snap(p.mem, p.held, nodes, p.root), areas) && Full(p, areas) && areas[k].start <= v < areas[k].end
    requires forall x :: x in p.held ==> x < |p.mem|
    ensures v in done[k].dataFrames && v in areas[k].dataFrames
    ensures var f, g := done[k].dataFrames[v], areas[k].dataFrames[v];
            && f < |s.mem| && g < |p.mem| && f != g && f !in p.held && g in p.held
            && PteFlags(Entry(s.mem, s.root, v)) == PteFlags(Entry(p.mem, p.root, v))
            && PtePpn(Entry(s.mem, s.root, v)) == f && PtePpn(Entry(p.mem, p.root, v)) == g
            && s.mem[f] == p.mem[g] && s.mem[g] == p.mem[g]
  {
    hide Entry, TableOk, Translate, Pte, PtePpn, PteFlags, NothingElse, AreasOk, Full;
    assert areas[..|done|] == areas;
    OwnFrame(p, nodes, s, areas, done, trampoline, k, v);
    assert AreaMapped(p, s, done[k]) && AreaCopied(p, s, done[k], done[k].end);
    var f, g, perm := done[k].dataFrames[v], areas[k].dataFrames[v], areas[k].perm;
    MappedTranslates(p.mem, p.root, v, g, perm);
    var flags := if perm % 2 == 1 then perm else perm + 1;
    PteRoundTrip(f, flags);
    PteRoundTrip(g, flags);
  }

  // ----- munmap, mmap again, fork

  lemma MmappedIsMapped(a: Snap, b: Snap, start: nat, end: nat, fs: map<nat, nat>, perm: nat)
    requires SetsEntries(a, b, start, end, fs, perm)
    ensures forall v :: start <= v < end ==> IsMapped(b, v)
  {
    hide Entry, MappedPte;
    forall v | start <= v < end ensures IsMapped(b, v) {
      MappedIsValid(fs[v], perm);
    }
  }

  lemma MunmappedIsFree(a: Snap, b: Snap, start: nat, end: nat)
    requires ClearsEntries(a, b, start, end)
    ensures forall v :: start <= v < end ==> !IsMapped(b, v)
  {
    hide Entry;
  }

  lemma CommonPageOverlaps(areas: seq<MapArea>, j: nat, k: nat, v: nat)
    requires j < k < |areas| && areas[j].start <= v < areas[j].end && areas[k].start <= v < areas[k].end
    ensures !AreasApart(areas)
  {
    NotApartFromItself(areas[j].start, areas[j].end, v);
  }

  lemma NotApartFromItself(start: nat, end: nat, v: nat)
    requires start <= v < end
    ensures !Apart(start, end, v)
  {
    var k := Key(v);
  }

  /** The trampoline of a forked space: the kernel may read and execute it, user programs
      may do nothing. */
  lemma TrampolineInChild(p: Parent, s: Snap, areas: seq<MapArea>, done: seq<MapArea>, trampoline: nat)
    requires trampoline < PPN_LIMIT && Progress(p, s, areas, done, trampoline)
    ensures var e := Entry(s.mem, s.root, TRAMPOLINE / PAGE_SIZE);
            && IsLeaf(e) && PtePpn(e) == trampoline && Readable(e) && Executable(e) && !Writable(e)
            && forall access, updates :: !Grants(e, access, updates)
  {
    hide Entry, Separate, AllDone, NothingElse, AreasApart;
    PteRoundTrip(trampoline, 11);
    LowFlags(4 * trampoline, 11);
  }

  /** The areas of a process as `from_elf` makes them, and mmap may add to: the trap context
      in the page below the trampoline, all others in lower pages, no page in two. */
  ghost predicate ProcessAreas(areas: seq<MapArea>, c: nat) {
    && c < |areas| && areas[c].start == TRAMPOLINE / PAGE_SIZE - 1 && areas[c].end == TRAMPOLINE / PAGE_SIZE
    && (forall k :: 0 <= k < |areas| && k != c ==> areas[k].end <= KEY_LIMIT - 2)
    && (forall j, k :: 0 <= j < k < |areas| ==> Disjoint(areas[j], areas[k]))
  }

  ghost predicate Disjoint(a: MapArea, b: MapArea) {
    a.end <= a.start || b.end <= b.start || a.end <= b.start || b.end <= a.start
  }

  lemma ProcessAreasApart(areas: seq<MapArea>, c: nat)
    requires ProcessAreas(areas, c)
    ensures AreasApart(areas) && !TooLong(areas)
  {
    hide Key;
    forall k, v: nat | 0 <= k < |areas| && areas[k].start <= v < areas[k].end
      ensures Key(v) != Key(TRAMPOLINE_PAGE) && (Key(v) == v || v == TRAMPOLINE_PAGE - 1) && (k == c <==> v == TRAMPOLINE_PAGE - 1)
    {
      LowAndHighKeys(v);
    }
    LowAndHighKeys(TRAMPOLINE_PAGE - 1);
    forall j, k, v: nat | 0 <= j < k < |areas| && areas[k].start <= v < areas[k].end
      ensures Apart(areas[j].start, areas[j].end, v)
    {
      assert Disjoint(areas[j], areas[k]);
      forall w: nat | areas[j].start <= w < areas[j].end ensures Key(w) != Key(v) {
        LowAndHighKeys(v);
        LowAndHighKeys(w);
      }
    }
  }

  lemma LowAndHighKeys(v: nat)
    ensures v < KEY_LIMIT - 2 ==> Key(v) == v
    ensures Key(TRAMPOLINE / PAGE_SIZE) == KEY_LIMIT - 1 && Key(TRAMPOLINE / PAGE_SIZE - 1) == KEY_LIMIT - 2
  {
  }

  /** A process with such areas, all of whose pages are mapped, forks unless frames run
      out. */
  method ForkOfProcess(user: MemorySet, ghost c: nat, trampoline: nat, m: Machine) returns (ok: bool, child: MemorySet?)
    requires user.WellFormed(m) && trampoline < PPN_LIMIT
    requires ProcessAreas(user.areas, c) && Full(ParentOf(user, m), user.areas)
    modifies m, m.frames
    ensures m.Valid() && (!ok ==> m.Exhausted())
    ensures ok ==> child != null && user.WellFormed(m) && child.WellFormed(m) && SameAreas(child.areas, user.areas)
    ensures ok ==> Progress(old(ParentOf(user, m)), child.View(m), user.areas, child.areas, trampoline)
  {
    hide Progress, AreasApart, TooLong, AreasOk, TableOk, Full, ProcessAreas;
    ProcessAreasApart(user.areas, c);
    ok, child := FromExistedUser(user, trampoline, m);
  }

  /** munmap leaves the area in the list.  So after mmap and munmap of any free range, a
      second mmap of it returns 0, the areas overlap, and the next fork panics, unless
      frames have run out before. */
  method RemapThenFork(user: MemorySet, start: nat, len: nat, port: nat, again: nat, trampoline: nat, m: Machine)
    returns (spent: bool, forked: bool)
    requires user.WellFormed(m) && trampoline < PPN_LIMIT && 0 < port < 8 && 0 < again < 8
    requires start < ADDR_LIMIT && len < ADDR_LIMIT && start % PAGE_SIZE == 0
    requires FirstPage(start) < LastPage(start, len) <= FirstPage(start) + KEY_LIMIT
    requires forall v :: FirstPage(start) <= v < LastPage(start, len) ==> !IsMapped(user.View(m), v)
    modifies user, user.pageTable`tracked, user.pageTable`nodes, m, m.frames
    ensures m.Valid() && (spent ==> m.Exhausted())
    ensures !spent ==> !AreasApart(user.areas) && !forked
    ensures !spent ==> |user.areas| == |old(user.areas)| + 2 && user.areas[..|old(user.areas)|] == old(user.areas)
  {
    hide SetsEntries, TakesFrames, ClearsEntries, ClearsWalks, IsMapped, AreasOk, AreasApart, TableOk, Ceil, Progress;
    var first, last := FirstPage(start), LastPage(start, len);
    ghost var a := user.View(m);
    var ok, r := user.Mmap(start, len, port, m);
    if !ok {
      return true, false;
    }
    assert r == 0;
    ghost var b, n := user.View(m), |user.areas|;
    MmappedIsMapped(a, b, first, last, user.areas[n - 1].dataFrames, user.areas[n - 1].perm);
    ok, r := user.Munmap(start, len, m);
    assert ok && r == 0;
    MunmappedIsFree(b, user.View(m), first, last);
    ok, r := user.Mmap(start, len, again, m);
    if !ok {
      return true, false;
    }
    assert r == 0;
    CommonPageOverlaps(user.areas, n - 1, n, first);
    var child;
    forked, child := FromExistedUser(user, trampoline, m);
    return false, forked;
  }

  /** A fork after mmap and munmap of any free range panics, unless frames run out before:
      the area is still listed and its pages are not mapped. */
  method MunmapThenFork(user: MemorySet, start: nat, len: nat, port: nat, trampoline: nat, m: Machine)
    returns (spent: bool, forked: bool)
    requires user.WellFormed(m) && trampoline < PPN_LIMIT && 0 < port < 8
    requires start < ADDR_LIMIT && len < ADDR_LIMIT && start % PAGE_SIZE == 0
    requires FirstPage(start) < LastPage(start, len) <= FirstPage(start) + KEY_LIMIT
    requires forall v :: FirstPage(start) <= v < LastPage(start, len) ==> !IsMapped(user.View(m), v)
    modifies user, user.pageTable`tracked, user.pageTable`nodes, m, m.frames
    ensures m.Valid() && (spent ==> m.Exhausted())
    ensures !spent ==> !forked && |user.areas| == |old(user.areas)| + 1 && user.areas[..|old(user.areas)|] == old(user.areas)
  {
    hide SetsEntries, TakesFrames, ClearsEntries, ClearsWalks, IsMapped, AreasOk, AreasApart, TableOk, Ceil, Progress, Full;
    var first, last := FirstPage(start), LastPage(start, len);
    ghost var a := user.View(m);
    var ok, r := user.Mmap(start, len, port, m);
    if !ok {
      return true, false;
    }
    assert r == 0;
    ghost var b, n := user.View(m), |user.areas|;
    MmappedIsMapped(a, b, first, last, user.areas[n - 1].dataFrames, user.areas[n - 1].perm);
    ok, r := user.Munmap(start, len, m);
    assert ok && r == 0;
    MunmappedIsFree(b, user.View(m), first, last);
    HoleIsNotFull(ParentOf(user, m), user.View(m), user.areas, n - 1, first);
    var child;
    forked, child := FromExistedUser(user, trampoline, m);
    return false, forked;
  }

  lemma HoleIsNotFull(p: Parent, s: Snap, areas: seq<MapArea>, k: nat, v: nat)
    requires p == Parent(s.mem, s.held, s.root) && k < |areas| && areas[k].start <= v < areas[k].end && !IsMapped(s, v)
    ensures !Full(p, areas)
  {
    assert !HasPage(p, v);
  }
}
