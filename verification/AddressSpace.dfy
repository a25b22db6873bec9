/** Page tables and address spaces over one machine's physical memory. */
module AddressSpaces {
  import opened Common
  import opened Recycling
  import opened PageTables

  /** Physical memory and the allocator of its frames.  The kernel's own table maps the
      frames from `first` on to the end of the managed ones identically and no frame
      below, so an access to frame 0 traps. */
  class Machine {
    const frames: StackFrameAllocator
    const first: nat
    var mem: Mem

    ghost predicate Valid()
      reads this, frames
    {
      frames.Valid() && 0 < first <= frames.lo && frames.end <= |mem| <= PPN_LIMIT
    }

    /** The kernel can access the frame through its number. */
    predicate Accessible(f: nat)
      reads frames
    {
      first <= f < frames.end
    }

    /** All managed frames are in use, so `frame_alloc().unwrap()` panics. */
    ghost predicate Exhausted()
      reads frames
    {
      |frames.held| == frames.end - frames.lo
    }

    constructor (mem: Mem, first: nat, l: nat, r: nat)
      requires 0 < first <= l <= r <= |mem| <= PPN_LIMIT
      ensures Valid() && fresh(frames) && this.mem == mem && this.first == first && frames.held == {}
    {
      this.first := first;
      frames := new StackFrameAllocator(l, r);
      this.mem := mem;
    }

    /** `frame_alloc`: a frame nobody holds, cleared. */
    method FrameAlloc() returns (r: Option<nat>)
      requires Valid()
      modifies this, frames
      ensures Valid()
      ensures r.None? <==> old(Exhausted())
      ensures r.None? ==> Exhausted() && mem == old(mem) && frames.held == old(frames.held)
      ensures r.Some? ==> r.value < |mem| && r.value !in old(frames.held) && frames.held == old(frames.held) + {r.value}
      ensures r.Some? ==> |mem| == |old(mem)| && mem == old(mem)[r.value := mem[r.value]] && IsBlank(mem[r.value])
    {
      r := frames.Alloc();
      if r.Some? {
        mem := mem[r.value := BlankFrame()];
      }
    }

    /** Dropping a `FrameTracker`: its check never fails. */
    method FrameDealloc(ppn: nat)
      requires Valid() && ppn in frames.held
      modifies frames
      ensures Valid() && frames.held == old(frames.held) - {ppn}
    {
      var refused := frames.Dealloc(ppn);
    }
  }

  /** What creating tables may do: new table frames that nobody held, every translation
      as before, every frame outside the table as before. */
  ghost predicate Extends(mem: Mem, held: set<nat>, nodes: map<nat, Node>, mem': Mem, held': set<nat>, nodes': map<nat, Node>, root: nat) {
    && |mem'| == |mem|
    && (forall t :: t in nodes ==> t in nodes' && nodes'[t] == nodes[t])
    && (forall t :: t in nodes' && t !in nodes ==> t !in held)
    && (forall t :: t in held' <==> t in held || t in nodes')
    && (forall x :: x in held && x !in nodes && x < |mem| ==> mem'[x] == mem[x])
    && (forall a, b, c :: 0 <= a < 512 && 0 <= b < 512 && 0 <= c < 512 ==> Lookup(mem', root, a, b, c) == Lookup(mem, root, a, b, c))
    && WalksKept(mem, mem', root)
  }

  /** A walk that reached the last level reaches the same entry. */
  ghost predicate WalksKept(mem: Mem, mem': Mem, root: nat) {
    forall a, b, c :: 0 <= a < 512 && 0 <= b < 512 && 0 <= c < 512 && Walk(mem, root, a, b, c).Some? ==>
      Walk(mem', root, a, b, c) == Walk(mem, root, a, b, c)
  }

  lemma ExtendsTrans(m0: Mem, h0: set<nat>, n0: map<nat, Node>, m1: Mem, h1: set<nat>, n1: map<nat, Node>,
                     m2: Mem, h2: set<nat>, n2: map<nat, Node>, root: nat)
    requires Extends(m0, h0, n0, m1, h1, n1, root) && Extends(m1, h1, n1, m2, h2, n2, root)
    ensures Extends(m0, h0, n0, m2, h2, n2, root)
  {
    hide Lookup, Walk;
  }

  lemma ExtendsRefl(mem: Mem, held: set<nat>, nodes: map<nat, Node>, root: nat)
    requires forall t :: t in nodes ==> t in held
    ensures Extends(mem, held, nodes, mem, held, nodes, root)
  {
    hide Lookup, Walk;
  }

  ghost predicate TrackedOnce(tracked: seq<nat>, nodes: map<nat, Node>) {
    && (forall t :: t in tracked <==> t in nodes)
    && (forall i, j :: 0 <= i < j < |tracked| ==> tracked[i] != tracked[j])
  }

  lemma OneMoreTracked(tracked: seq<nat>, nodes: map<nat, Node>, f: nat, child: Node)
    requires TrackedOnce(tracked, nodes) && f !in nodes
    ensures TrackedOnce(tracked + [f], nodes[f := child])
  {
  }

  class PageTable {
    var root: nat
    /** The `FrameTracker`s of the table's own frames. */
    var tracked: seq<nat>
    ghost var nodes: map<nat, Node>

    ghost predicate Valid(m: Machine)
      reads this, m, m.frames
    {
      && m.Valid() && TableOk(m.mem, root, nodes)
      && (forall t :: t in nodes ==> t in m.frames.held)
      && Tracks()
    }

    /** There is one tracker for each frame of the table. */
    ghost predicate Tracks()
      reads this
    {
      TrackedOnce(tracked, nodes)
    }

    /** The drop of `frames`: the table's own frames go back and nothing else. */
    method DropFrames(m: Machine)
      requires Valid(m)
      modifies this`tracked, m.frames
      ensures m.Valid() && tracked == []
      ensures forall x :: x in m.frames.held <==> x in old(m.frames.held) && x !in nodes
    {
      hide TableOk, Conserved;
      for i := 0 to |tracked|
        invariant m.Valid() && tracked == old(tracked)
        invariant forall x :: x in m.frames.held <==> x in old(m.frames.held) && x !in tracked[..i]
      {
        assert tracked[i] !in tracked[..i] && tracked[i] in tracked;
        m.FrameDealloc(tracked[i]);
      }
      assert tracked[..|tracked|] == tracked;
      tracked := [];
    }

    /** `PageTable::new` around an allocated frame. */
    constructor (frame: nat, m: Machine)
      requires m.Valid() && frame < |m.mem| && IsBlank(m.mem[frame]) && frame in m.frames.held
      ensures Valid(m) && root == frame && nodes == map[frame := Root]
      ensures forall a, b, c :: Lookup(m.mem, root, a, b, c) == 0
    {
      root := frame;
      tracked := [frame];
      nodes := map[frame := Root];
      new;
      BlankTable(m.mem, frame);
    }

    /** `PageTable::new`; `null` is the panic when no frame is left. */
    static method New(m: Machine) returns (table: PageTable?)
      requires m.Valid()
      modifies m, m.frames
      ensures m.Valid() && (table == null <==> old(m.Exhausted()))
      ensures table == null ==> m.Exhausted() && m.mem == old(m.mem) && m.frames.held == old(m.frames.held)
      ensures table != null ==>
                && fresh(table) && table.Valid(m) && table.nodes == map[table.root := Root] && table.root !in old(m.frames.held)
                && m.frames.held == old(m.frames.held) + {table.root} && |m.mem| == |old(m.mem)|
                && m.mem == old(m.mem)[table.root := m.mem[table.root]]
                && forall a, b, c :: Lookup(m.mem, table.root, a, b, c) == 0
    {
      hide Lookup, TableOk;
      var frame := m.FrameAlloc();
      if frame.None? {
        return null;
      }
      table := new PageTable(frame.value, m);
    }

    /** One level of `find_pte_create`: the table behind entry `idx` of frame `ppn`,
        created if the entry is not valid. */
    method Descend(ppn: nat, idx: nat, m: Machine, ghost child: Node) returns (ok: bool, next: nat)
      requires Valid(m) && ppn in nodes && idx < 512
      requires (nodes[ppn] == Root && child == Mid(idx)) || (nodes[ppn].Mid? && child == Leaf(nodes[ppn].i, idx))
      modifies this`tracked, this`nodes, m, m.frames
      ensures m.Valid()
      ensures !ok ==> m.Exhausted()
      ensures ok ==> Valid(m) && next in nodes && nodes[next] == child
      ensures ok ==> Extends(old(m.mem), old(m.frames.held), old(nodes), m.mem, m.frames.held, nodes, root)
      ensures old(PteValid(Word(m.mem, ppn, idx))) ==>
                ok && m.mem == old(m.mem) && m.frames.held == old(m.frames.held) && nodes == old(nodes)
    {
      hide TableOk, PteValid, PtePpn, Pte, Extends, TrackedOnce, IsBlank;
      RootInNodes(m.mem, root, nodes);
      var pte := m.mem[ppn][idx];
      if PteValid(pte) {
        TableChild(m.mem, root, nodes, ppn, idx);
        ExtendsRefl(m.mem, m.frames.held, nodes, root);
        return true, PtePpn(pte);
      }
      ghost var mem0, held0, nodes0 := m.mem, m.frames.held, nodes;
      var frame := m.FrameAlloc();
      if frame.None? {
        return false, 0;
      }
      CreateChild(mem0, held0, nodes0, m.mem, root, ppn, idx, frame.value, child);
      OneMoreTracked(tracked, nodes, frame.value, child);
      m.mem := SetWord(m.mem, ppn, idx, Pte(frame.value, 1));
      tracked := tracked + [frame.value];
      nodes := nodes[frame.value := child];
      return true, frame.value;
    }

    /** `find_pte_create`: the frame that holds the last-level entry of the page.
        Tables that are missing are created, and no valid translation changes. */
    method FindPteCreate(vpn: nat, m: Machine) returns (ok: bool, table: nat)
      requires Valid(m)
      modifies this`tracked, this`nodes, m, m.frames
      ensures m.Valid()
      ensures !ok ==> m.Exhausted()
      ensures ok ==> Valid(m) && table in nodes && nodes[table] == Leaf(Index(vpn, 0), Index(vpn, 1))
      ensures ok ==> Extends(old(m.mem), old(m.frames.held), old(nodes), m.mem, m.frames.held, nodes, root)
      ensures old(Translate(m.mem, root, vpn)).Some? ==>
                ok && m.mem == old(m.mem) && m.frames.held == old(m.frames.held) && nodes == old(nodes)
    {
      hide TableOk, PteValid, PtePpn, Pte, Extends, Index;
      ghost var mem0, held0, nodes0 := m.mem, m.frames.held, nodes;
      RootInNodes(mem0, root, nodes0);
      ExtendsRefl(mem0, held0, nodes0, root);
      var idx := Indexes(vpn);
      table := root;
      ok := true;
      var i := 0;
      while i < 2
        invariant 0 <= i <= 2 && ok && idx.Length == 3 && forall l :: 0 <= l < 3 ==> idx[l] == Index(vpn, l)
        invariant Valid(m)
        invariant table in nodes && nodes[table] == NodeOfLevel(vpn, i)
        invariant Extends(mem0, held0, nodes0, m.mem, m.frames.held, nodes, root)
        invariant Translate(mem0, root, vpn).Some? ==> m.mem == mem0 && m.frames.held == held0 && nodes == nodes0
      {
        ghost var mem1, held1, nodes1 := m.mem, m.frames.held, nodes;
        if Translate(mem0, root, vpn).Some? {
          WalkValid(mem0, root, nodes0, vpn, i, table);
        }
        ok, table := Descend(table, idx[i], m, NodeOfLevel(vpn, i + 1));
        if !ok {
          return;
        }
        ExtendsTrans(mem0, held0, nodes0, mem1, held1, nodes1, m.mem, m.frames.held, nodes, root);
        i := i + 1;
      }
    }

    /** `find_pte` and `translate`. */
    method FindPte(vpn: nat, m: Machine) returns (r: Option<Long>)
      requires Valid(m)
      ensures r == Translate(m.mem, root, vpn)
    {
      hide TableOk, PteValid, PtePpn, Index;
      var idx := Indexes(vpn);
      var ppn := root;
      WalkInside(m.mem, root, nodes, idx[0], idx[1]);
      var i := 0;
      while i < 2
        invariant 0 <= i <= 2 && ppn < |m.mem|
        invariant i == 0 ==> ppn == root
        invariant i > 0 ==> PteValid(Word(m.mem, root, idx[0]))
        invariant i == 1 ==> ppn == PtePpn(Word(m.mem, root, idx[0]))
        invariant i == 2 ==> PteValid(Word(m.mem, PtePpn(Word(m.mem, root, idx[0])), idx[1]))
        invariant i == 2 ==> ppn == PtePpn(Word(m.mem, PtePpn(Word(m.mem, root, idx[0])), idx[1]))
      {
        var pte := m.mem[ppn][idx[i]];
        if !PteValid(pte) {
          return None;
        }
        ppn := PtePpn(pte);
        i := i + 1;
      }
      return Some(m.mem[ppn][idx[2]]);
    }

    /** `map`: the page gets its entry and every other page keeps its own.  It panics
        if no frame is left or the page was mapped already. */
    method Map(vpn: nat, ppn: nat, flags: nat, m: Machine) returns (ok: bool)
      requires Valid(m) && ppn < PPN_LIMIT && flags < 256
      modifies this`tracked, this`nodes, m, m.frames
      ensures m.Valid()
      ensures !ok ==> m.Exhausted() || PteValid(Entry(old(m.mem), root, vpn))
      ensures ok ==> !PteValid(Entry(old(m.mem), root, vpn))
      ensures ok ==> Valid(m) && SetsEntry(old(m.mem), m.mem, root, vpn, MappedPte(ppn, flags)) && |m.mem| == |old(m.mem)|
      ensures ok ==> OnlyTable(old(m.mem), old(m.frames.held), old(nodes), m.mem, m.frames.held, nodes)
      ensures ok ==> Translate(m.mem, root, vpn) == Some(MappedPte(ppn, flags)) && KeepsWalks(old(m.mem), m.mem, root, vpn)
    {
      hide TableOk, PteValid, PtePpn, Pte, Index, MappedPte, Lookup, WalksKept, SetsWalk, KeepsWalks;
      ghost var mem0, held0, nodes0 := m.mem, m.frames.held, nodes;
      var table;
      ok, table := FindPteCreate(vpn, m);
      if !ok {
        return;
      }
      LeafEntry(m.mem, root, nodes, vpn, table);
      if PteValid(m.mem[table][Index(vpn, 2)]) {
        return false;
      }
      ghost var mem1 := m.mem;
      WriteEntry(vpn, table, MappedPte(ppn, flags), m, mem0, held0, nodes0);
      WalksThrough(mem0, held0, nodes0, mem1, m.frames.held, nodes, m.mem, root, vpn, MappedPte(ppn, flags));
    }

    /** `unmap`: it panics if the page was not mapped; otherwise all tables exist and
        none is created. */
    method Unmap(vpn: nat, m: Machine) returns (ok: bool)
      requires Valid(m)
      modifies this`tracked, this`nodes, m, m.frames
      ensures m.Valid()
      ensures ok <==> PteValid(Entry(old(m.mem), root, vpn))
      ensures ok ==> Valid(m) && SetsEntry(old(m.mem), m.mem, root, vpn, 0) && |m.mem| == |old(m.mem)|
      ensures ok ==> OnlyTable(old(m.mem), old(m.frames.held), old(nodes), m.mem, m.frames.held, nodes)
      ensures ok ==> m.frames.held == old(m.frames.held) && nodes == old(nodes) && SetsWalk(old(m.mem), m.mem, root, vpn, 0)
    {
      hide TableOk, PteValid, PtePpn, Pte, Index, Lookup, WalksKept, SetsWalk;
      ghost var mem0, held0, nodes0 := m.mem, m.frames.held, nodes;
      EntryNeedsWalk(m.mem, root, vpn);
      var table;
      ok, table := FindPteCreate(vpn, m);
      if !ok {
        return;
      }
      LeafEntry(m.mem, root, nodes, vpn, table);
      if !PteValid(m.mem[table][Index(vpn, 2)]) {
        return false;
      }
      WriteEntry(vpn, table, 0, m, mem0, held0, nodes0);
    }

    /** `*pte = e` in the last-level table. */
    method WriteEntry(vpn: nat, table: nat, e: Long, m: Machine, ghost mem0: Mem, ghost held0: set<nat>, ghost nodes0: map<nat, Node>)
      requires Valid(m) && table in nodes && nodes[table] == Leaf(Index(vpn, 0), Index(vpn, 1))
      requires Extends(mem0, held0, nodes0, m.mem, m.frames.held, nodes, root)
      modifies m`mem
      ensures Valid(m) && SetsEntry(mem0, m.mem, root, vpn, e) && Translate(m.mem, root, vpn) == Some(e)
      ensures OnlyTable(mem0, held0, nodes0, m.mem, m.frames.held, nodes) && SetsWalk(old(m.mem), m.mem, root, vpn, e)
    {
      hide TableOk, PteValid, PtePpn, Lookup, Walk, Word, Index, Extends, SetsWalk;
      RootInNodes(m.mem, root, nodes);
      SetLeaf(m.mem, root, nodes, Index(vpn, 0), Index(vpn, 1), Index(vpn, 2), table, e);
      EntryWritten(mem0, held0, nodes0, m.mem, m.frames.held, nodes, root, vpn, table, e);
      m.mem := SetWord(m.mem, table, Index(vpn, 2), e);
    }
  }

  /** The valid entry of a page, or 0. */
  function Entry(mem: Mem, root: nat, vpn: nat): Long {
    Lookup(mem, root, Index(vpn, 0), Index(vpn, 1), Index(vpn, 2))
  }

  function MappedPte(ppn: nat, flags: nat): Long
    requires ppn < PPN_LIMIT && flags < 256
  {
    Pte(ppn, if flags % 2 == 1 then flags else flags + 1)
  }

  /** What a user program may do to a page that mmap has mapped: with hardware that sets
      the accessed and dirty flags, what `port` says, except that a page to write and not
      to read allows nothing; with other hardware, nothing. */
  lemma MmapGrants(f: nat, port: nat, access: Access, updates: bool)
    requires f < PPN_LIMIT && 0 < port < 8
    ensures Grants(MappedPte(f, 2 * port + 16), access, updates) <==>
            && updates && (port / 2 % 2 == 1 ==> port % 2 == 1)
            && match access case Load => port % 2 == 1 case Store => port / 2 % 2 == 1 case Fetch => port / 4 % 2 == 1
  {
    var flags := 2 * port + 17;
    PteRoundTrip(f, flags);
    LowFlags(4 * f, flags);
    FlagsOfPort(port);
  }

  lemma FlagsOfPort(port: nat)
    requires 0 < port < 8
    ensures var r := 2 * port + 17;
            && (Readable(r) <==> port % 2 == 1) && (Writable(r) <==> port / 2 % 2 == 1) && (Executable(r) <==> port / 4 % 2 == 1)
            && ForUser(r) && !Accessed(r) && r % 2 == 1
  {
  }

  /** The map of pages changes at the key of `vpn` and nowhere else. */
  ghost predicate SetsEntry(mem: Mem, mem': Mem, root: nat, vpn: nat, e: Long) {
    forall w :: Entry(mem', root, w) == if Key(w) == Key(vpn) then (if PteValid(e) then e else 0) else Entry(mem, root, w)
  }

  /** The walk for the key of `vpn` now ends at `e`; every other walk is as before. */
  ghost predicate SetsWalk(mem: Mem, mem': Mem, root: nat, vpn: nat, e: Long) {
    forall w: nat :: Translate(mem', root, w) == if Key(w) == Key(vpn) then Some(e) else Translate(mem, root, w)
  }

  /** Walks for other keys that reached the last level reach the same entry. */
  ghost predicate KeepsWalks(mem: Mem, mem': Mem, root: nat, vpn: nat) {
    forall w: nat :: Key(w) != Key(vpn) && Translate(mem, root, w).Some? ==> Translate(mem', root, w) == Translate(mem, root, w)
  }

  lemma WalksThrough(mem0: Mem, held0: set<nat>, nodes0: map<nat, Node>, mem1: Mem, held1: set<nat>, nodes1: map<nat, Node>,
                     mem2: Mem, root: nat, vpn: nat, e: Long)
    requires Extends(mem0, held0, nodes0, mem1, held1, nodes1, root) && SetsWalk(mem1, mem2, root, vpn, e)
    ensures KeepsWalks(mem0, mem2, root, vpn)
  {
    hide Lookup, Walk, Index;
  }

  /** Frames outside the table keep their contents, and new table frames are new. */
  ghost predicate OnlyTable(mem: Mem, held: set<nat>, nodes: map<nat, Node>, mem': Mem, held': set<nat>, nodes': map<nat, Node>) {
    && |mem'| == |mem|
    && (forall t :: t in nodes ==> t in nodes')
    && (forall t :: t in nodes' && t !in nodes ==> t !in held)
    && (forall t :: t in held' <==> t in held || t in nodes')
    && (forall x :: x in held && x !in nodes && x < |mem| ==> mem'[x] == mem[x])
  }

  lemma EntryWritten(mem0: Mem, held0: set<nat>, nodes0: map<nat, Node>, mem: Mem, held: set<nat>, nodes: map<nat, Node>,
                     root: nat, vpn: nat, table: nat, e: Long)
    requires TableOk(mem, root, nodes) && table in nodes && nodes[table] == Leaf(Index(vpn, 0), Index(vpn, 1))
    requires Extends(mem0, held0, nodes0, mem, held, nodes, root) && table < |mem|
    ensures var mem' := SetWord(mem, table, Index(vpn, 2), e);
            && SetsEntry(mem0, mem', root, vpn, e) && Translate(mem', root, vpn) == Some(e)
            && OnlyTable(mem0, held0, nodes0, mem', held, nodes) && SetsWalk(mem, mem', root, vpn, e)
  {
    hide TableOk, PteValid, PtePpn, Word, Index, Walk;
    var mem' := SetWord(mem, table, Index(vpn, 2), e);
    forall w: nat ensures Translate(mem', root, w) == if Key(w) == Key(vpn) then Some(e) else Translate(mem, root, w) {
      SetLeafLookup(mem, root, nodes, Index(vpn, 0), Index(vpn, 1), Index(vpn, 2), table, e, Index(w, 0), Index(w, 1), Index(w, 2));
      IndexesAreKey(w, vpn);
    }
  }

  lemma EntryNeedsWalk(mem: Mem, root: nat, vpn: nat)
    ensures PteValid(Entry(mem, root, vpn)) ==> Translate(mem, root, vpn).Some?
  {
    hide Walk, Index;
  }

  /** The entry in the last-level table decides whether the page is mapped. */
  lemma LeafEntry(mem: Mem, root: nat, nodes: map<nat, Node>, vpn: nat, table: nat)
    requires TableOk(mem, root, nodes) && table in nodes && nodes[table] == Leaf(Index(vpn, 0), Index(vpn, 1))
    ensures table < |mem| && (PteValid(mem[table][Index(vpn, 2)]) <==> PteValid(Entry(mem, root, vpn)))
  {
    hide Index, PtePpn;
    assert NodeOk(mem, root, nodes, table);
  }

  /** The table frame met at each level of the walk for a page. */
  ghost function NodeOfLevel(vpn: nat, level: nat): Node
    requires level <= 2
  {
    if level == 0 then Root else if level == 1 then Mid(Index(vpn, 0)) else Leaf(Index(vpn, 0), Index(vpn, 1))
  }

  /** On the way of a complete walk both upper entries are valid. */
  lemma WalkValid(mem: Mem, root: nat, nodes: map<nat, Node>, vpn: nat, level: nat, table: nat)
    requires TableOk(mem, root, nodes) && Translate(mem, root, vpn).Some? && level < 2
    requires table in nodes && nodes[table] == NodeOfLevel(vpn, level)
    ensures PteValid(Word(mem, table, Index(vpn, level)))
  {
    hide Index, PteValid, PtePpn;
    assert NodeOk(mem, root, nodes, table);
  }

  lemma BlankTable(mem: Mem, frame: nat)
    requires frame < |mem| <= PPN_LIMIT && IsBlank(mem[frame])
    ensures TableOk(mem, frame, map[frame := Root])
    ensures forall a, b, c :: Lookup(mem, frame, a, b, c) == 0
  {
    forall i ensures Word(mem, frame, i) == 0 {
    }
  }

  /** A valid entry of an upper table leads to the child at that index. */
  lemma TableChild(mem: Mem, root: nat, nodes: map<nat, Node>, ppn: nat, idx: nat)
    requires TableOk(mem, root, nodes) && ppn in nodes && idx < 512
    requires nodes[ppn].Root? || nodes[ppn].Mid?
    requires PteValid(Word(mem, ppn, idx))
    ensures PtePpn(Word(mem, ppn, idx)) in nodes
    ensures nodes[PtePpn(Word(mem, ppn, idx))] == if nodes[ppn].Root? then Mid(idx) else Leaf(nodes[ppn].i, idx)
  {
    hide PteValid, PtePpn, PteFlags;
    assert NodeOk(mem, root, nodes, ppn);
    if nodes[ppn].Root? {
      assert Links(Word(mem, root, idx), nodes, Mid(idx));
    } else {
      assert Links(Word(mem, ppn, idx), nodes, Leaf(nodes[ppn].i, idx));
    }
  }

  lemma CreateChild(mem0: Mem, held0: set<nat>, nodes0: map<nat, Node>, mem: Mem, root: nat, ppn: nat, idx: nat, f: nat, child: Node)
    requires TableOk(mem0, root, nodes0) && ppn in nodes0 && idx < 512 && !PteValid(Word(mem0, ppn, idx))
    requires (nodes0[ppn] == Root && child == Mid(idx)) || (nodes0[ppn].Mid? && child == Leaf(nodes0[ppn].i, idx))
    requires (forall t :: t in nodes0 ==> t in held0) && f !in held0
    requires |mem| == |mem0| && f < |mem| && mem == mem0[f := mem[f]] && IsBlank(mem[f])
    ensures ppn < |mem| && f < PPN_LIMIT
    ensures var mem' := SetWord(mem, ppn, idx, Pte(f, 1));
            && TableOk(mem', root, nodes0[f := child])
            && Extends(mem0, held0, nodes0, mem', held0 + {f}, nodes0[f := child], root)
  {
    hide TableOk, PteValid, PtePpn, Pte, Walk, Lookup, SetWord, IsBlank;
    RootInNodes(mem0, root, nodes0);
    TableFrame(mem0, mem, root, nodes0);
    var mem' := SetWord(mem, ppn, idx, Pte(f, 1));
    SetWordLength(mem, ppn, idx, Pte(f, 1));
    HangChild(mem, root, nodes0, ppn, idx, f, child);
    forall a, b, c | 0 <= a < 512 && 0 <= b < 512 && 0 <= c < 512
      ensures Lookup(mem', root, a, b, c) == Lookup(mem0, root, a, b, c)
      ensures Walk(mem0, root, a, b, c).Some? ==> Walk(mem', root, a, b, c) == Walk(mem0, root, a, b, c)
    {
      ChildWalk(mem0, mem, root, nodes0, ppn, idx, f, child, a, b, c);
    }
    forall x | x in held0 && x !in nodes0 && x < |mem| ensures mem'[x] == mem0[x] {
      SetWordFrame(mem, ppn, idx, Pte(f, 1), x);
    }
  }

  lemma SetWordFrame(mem: Mem, ppn: nat, i: nat, e: Long, x: nat)
    requires ppn < |mem| && i < 512 && x < |mem| && x != ppn
    ensures |SetWord(mem, ppn, i, e)| == |mem| && SetWord(mem, ppn, i, e)[x] == mem[x]
  {
  }

  /** A blank frame hung in at either level leaves the table in order. */
  lemma HangChild(mem: Mem, root: nat, nodes: map<nat, Node>, ppn: nat, idx: nat, f: nat, child: Node)
    requires TableOk(mem, root, nodes) && ppn in nodes && idx < 512 && !PteValid(Word(mem, ppn, idx))
    requires (nodes[ppn] == Root && child == Mid(idx)) || (nodes[ppn].Mid? && child == Leaf(nodes[ppn].i, idx))
    requires f < |mem| && f !in nodes && IsBlank(mem[f])
    ensures ppn < |mem| && f < PPN_LIMIT && TableOk(SetWord(mem, ppn, idx, Pte(f, 1)), root, nodes[f := child])
  {
    hide TableOk, PteValid, PtePpn, Pte, Word, IsBlank, SetWord;
    RootInNodes(mem, root, nodes);
    if nodes[ppn] == Root {
      TableRoot(mem, root, nodes, ppn);
      CreateMid(mem, root, nodes, idx, f);
    } else {
      MidIndex(mem, root, nodes, ppn);
      CreateLeaf(mem, root, nodes, nodes[ppn].i, idx, ppn, f);
    }
  }

  lemma ChildWalk(mem0: Mem, mem: Mem, root: nat, nodes: map<nat, Node>, ppn: nat, idx: nat, f: nat, child: Node, a: nat, b: nat, c: nat)
    requires TableOk(mem0, root, nodes) && |mem| == |mem0| && f < |mem| && f !in nodes && mem == mem0[f := mem[f]] && IsBlank(mem[f])
    requires ppn in nodes && idx < 512 && !PteValid(Word(mem0, ppn, idx)) && a < 512 && b < 512 && c < 512
    requires (nodes[ppn] == Root && child == Mid(idx)) || (nodes[ppn].Mid? && child == Leaf(nodes[ppn].i, idx))
    ensures ppn < |mem| && f < PPN_LIMIT
    ensures var mem' := SetWord(mem, ppn, idx, Pte(f, 1));
            && Lookup(mem', root, a, b, c) == Lookup(mem0, root, a, b, c)
            && (Walk(mem0, root, a, b, c).Some? ==> Walk(mem', root, a, b, c) == Walk(mem0, root, a, b, c))
  {
    hide TableOk, PteValid, PtePpn, Pte, Walk, SetWord, IsBlank;
    RootInNodes(mem0, root, nodes);
    TableFrame(mem0, mem, root, nodes);
    WalkFrame(mem0, mem, root, nodes, a, b, c);
    assert Word(mem, ppn, idx) == Word(mem0, ppn, idx);
    if nodes[ppn] == Root {
      TableRoot(mem0, root, nodes, ppn);
      CreateMidLookup(mem, root, nodes, idx, f, a, b, c);
    } else {
      MidIndex(mem0, root, nodes, ppn);
      CreateLeafLookup(mem, root, nodes, nodes[ppn].i, idx, ppn, f, a, b, c);
    }
  }

  lemma TableRoot(mem: Mem, root: nat, nodes: map<nat, Node>, ppn: nat)
    requires TableOk(mem, root, nodes) && ppn in nodes && nodes[ppn] == Root
    ensures ppn == root
  {
    assert NodeOk(mem, root, nodes, ppn);
  }

  lemma MidIndex(mem: Mem, root: nat, nodes: map<nat, Node>, t: nat)
    requires TableOk(mem, root, nodes) && t in nodes && nodes[t].Mid?
    ensures nodes[t].i < 512
  {
    assert NodeOk(mem, root, nodes, t);
  }

  // ----- kernel stacks in the kernel's table

  /** The pages of a pid's kernel stack, and its guard page below. */
  ghost predicate StackPage(pid: nat, vpn: nat) {
    && pid * 0x15000 + 0x14000 <= TRAMPOLINE
    && KernelStack(pid).0 - PAGE_SIZE <= vpn * PAGE_SIZE < KernelStack(pid).1
  }

  /** While 21 pages for each pid ever issued fit into the 27-bit keys, the stack and
      guard pages of different live pids have different keys. */
  lemma KernelStackKeysApart(p: Pool, held: set<nat>, a: nat, b: nat, v: nat, w: nat)
    requires Conserved(0, p, held) && a in held && b in held && a < b && p.current * 21 <= KEY_LIMIT
    requires StackPage(a, v) && StackPage(b, w)
    ensures Key(v) != Key(w)
  {
    hide Key;
    assert a < p.current && b < p.current;
    var last := 0xF_FFFF_FFFF_FFFF;
    assert last - 21 * a - 21 <= v < last - 21 * a;
    assert last - 21 * b - 21 <= w < last - 21 * b;
    NearKeysDiffer(w, v);
  }

  lemma NearKeysDiffer(v: nat, w: nat)
    requires v < w < v + KEY_LIMIT
    ensures Key(v) != Key(w)
  {
  }
}
