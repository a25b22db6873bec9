/** The Sv39 page table held in physical frames, and the map from virtual pages that it
    refines. */
module PageTables {
  import opened Common
  import opened Recycling

  const PPN_LIMIT: nat := 0x1000_0000_0000
  const ADDR_LIMIT: nat := 0x1_0000_0000_0000_0000
  const KEY_LIMIT: nat := 0x800_0000

  /** A frame as its 512 machine words. */
  type Frame = f: seq<Long> | |f| == 512 witness seq(512, _ => 0)
  type Mem = seq<Frame>

  function BlankFrame(): (f: Frame)
    ensures IsBlank(f)
  {
    seq(512, _ => 0)
  }

  ghost predicate IsBlank(f: Frame) {
    forall i :: 0 <= i < 512 ==> f[i] == 0
  }

  // ----- page table entries

  /** `PageTableEntry::new` */
  function Pte(ppn: nat, flags: nat): Long
    requires ppn < PPN_LIMIT && flags < 256
  {
    ppn * 1024 + flags
  }

  function PtePpn(bits: Long): (r: nat)
    ensures r < PPN_LIMIT
  {
    bits / 1024 % PPN_LIMIT
  }

  function PteFlags(bits: Long): (r: nat)
    ensures r < 256
  {
    bits % 256
  }

  predicate PteValid(bits: Long) { bits % 2 == 1 }

  /** Bits 63 to 54 are reserved. */
  predicate Reserved(bits: Long) { bits >= 0x40_0000_0000_0000 }

  lemma PteRoundTrip(ppn: nat, flags: nat)
    requires ppn < PPN_LIMIT && flags < 256
    ensures PtePpn(Pte(ppn, flags)) == ppn && PteFlags(Pte(ppn, flags)) == flags
    ensures PteValid(Pte(ppn, flags)) <==> flags % 2 == 1
    ensures !Reserved(Pte(ppn, flags))
  {
    LowByte(4 * ppn, flags);
    assert (ppn * 1024 + flags) / 1024 == ppn;
  }

  /** The fields of the word: the frame number from bit 10 on, two bits of 0, eight flags. */
  lemma PteBits(ppn: nat, flags: nat)
    requires ppn < PPN_LIMIT && flags < 256
    ensures Pte(ppn, flags) / 1024 == ppn && Pte(ppn, flags) / 256 % 4 == 0 && Pte(ppn, flags) % 256 == flags
  {
    DivModUnique(256, 4 * ppn, flags);
    DivModUnique(4, ppn, 0);
  }

  lemma LowByte(q: nat, r: nat)
    requires r < 256
    ensures (256 * q + r) % 256 == r && (256 * q + r) % 2 == r % 2
  {
    DivModUnique(256, q, r);
    DivModUnique(2, r / 2, r % 2);
    DivModUnique(2, 128 * q + r / 2, r % 2);
  }

  lemma DivModUnique(d: nat, q: nat, r: nat)
    requires r < d
    ensures (d * q + r) / d == q && (d * q + r) % d == r
  {
    var x := d * q + r;
    assert d * (x / d - q) == r - x % d;
    FarMultiple(d, x / d - q);
  }

  lemma FarMultiple(d: nat, k: int)
    ensures k >= 1 ==> d * k >= d
    ensures k <= -1 ==> d * k <= -(d as int)
  {
  }

  /** `token` and `from_token`: mode 8 in the top bits of satp, the root below. */
  function Token(root: nat): Long
    requires root < PPN_LIMIT
  {
    0x8000_0000_0000_0000 + root
  }

  function FromToken(satp: Long): nat { satp % PPN_LIMIT }

  lemma TokenRoundTrip(root: nat)
    requires root < PPN_LIMIT
    ensures FromToken(Token(root)) == root
    ensures Token(root) / 0x1000_0000_0000_0000 == 8 && Token(root) % 0x1000_0000_0000_0000 == root
  {
    assert Token(root) == PPN_LIMIT * 0x8_0000 + root;
  }

  // ----- indexes

  /** `VirtPageNum::indexes`, top level first. */
  function Index(vpn: nat, level: nat): (r: nat)
    requires level < 3
    ensures r < 512
  {
    if level == 0 then vpn / 0x4_0000 % 512 else if level == 1 then vpn / 512 % 512 else vpn % 512
  }

  /** The loop of `indexes` fills the array from the last level up. */
  method Indexes(vpn: nat) returns (idx: array<nat>)
    ensures fresh(idx) && idx.Length == 3 && forall l :: 0 <= l < 3 ==> idx[l] == Index(vpn, l)
  {
    idx := new nat[3](_ => 0);
    var v := vpn;
    var i := 3;
    while i > 0
      invariant 0 <= i <= 3
      invariant v == if i == 3 then vpn else if i == 2 then vpn / 512 else if i == 1 then vpn / 0x4_0000 else vpn / 0x4_0000 / 512
      invariant forall l :: i <= l < 3 ==> idx[l] == Index(vpn, l)
    {
      i := i - 1;
      idx[i] := v % 512;
      v := v / 512;
    }
  }

  function Key(vpn: nat): nat { vpn % KEY_LIMIT }

  /** Two pages share all three indexes exactly when their low 27 bits agree. */
  lemma IndexesAreKey(v: nat, w: nat)
    ensures Key(v) == Key(w) <==> Index(v, 0) == Index(w, 0) && Index(v, 1) == Index(w, 1) && Index(v, 2) == Index(w, 2)
  {
    KeyDigits(v);
    KeyDigits(w);
  }

  lemma KeyDigits(v: nat)
    ensures Key(v) == Index(v, 0) * 0x4_0000 + Index(v, 1) * 512 + Index(v, 2)
  {
    var a, b := v / 512, v / 0x4_0000;
    assert v == 512 * a + v % 512;
    assert a == 512 * b + a % 512;
    assert b == 512 * (b / 512) + b % 512;
  }

  // ----- the walk

  function Word(mem: Mem, ppn: nat, i: nat): Long {
    if ppn < |mem| && i < 512 then mem[ppn][i] else 0
  }

  /** `find_pte`: the last-level entry, if both upper entries are valid. */
  function Walk(mem: Mem, root: nat, i: nat, j: nat, k: nat): Option<Long> {
    var e0 := Word(mem, root, i);
    if !PteValid(e0) then None
    else
      var e1 := Word(mem, PtePpn(e0), j);
      if !PteValid(e1) then None else Some(Word(mem, PtePpn(e1), k))
  }

  function Translate(mem: Mem, root: nat, vpn: nat): Option<Long> {
    Walk(mem, root, Index(vpn, 0), Index(vpn, 1), Index(vpn, 2))
  }

  /** The abstract map: the valid entry for a page, or 0. */
  function Lookup(mem: Mem, root: nat, i: nat, j: nat, k: nat): Long {
    match Walk(mem, root, i, j, k)
    case None => 0
    case Some(e) => if PteValid(e) then e else 0
  }

  /** Where a table frame hangs in the tree. */
  datatype Node = Root | Mid(i: nat) | Leaf(i: nat, j: nat)

  /** An entry that points to a table has the valid flag and no other. */
  ghost predicate Links(e: Long, nodes: map<nat, Node>, n: Node) {
    PteFlags(e) == 1 && !Reserved(e) && PtePpn(e) in nodes && nodes[PtePpn(e)] == n
  }

  ghost predicate NodeOk(mem: Mem, root: nat, nodes: map<nat, Node>, t: nat)
    requires t in nodes
  {
    && t < |mem|
    && match nodes[t]
       case Root => t == root
       case Mid(i) => i < 512 && PteValid(Word(mem, root, i)) && PtePpn(Word(mem, root, i)) == t
       case Leaf(i, j) =>
         && i < 512 && j < 512 && PteValid(Word(mem, root, i))
         && PteValid(Word(mem, PtePpn(Word(mem, root, i)), j))
         && PtePpn(Word(mem, PtePpn(Word(mem, root, i)), j)) == t
  }

  /** The table frames form an unshared tree of three levels. */
  ghost predicate TableOk(mem: Mem, root: nat, nodes: map<nat, Node>) {
    && |mem| <= PPN_LIMIT
    && root in nodes && nodes[root] == Root
    && (forall t :: t in nodes ==> NodeOk(mem, root, nodes, t))
    && (forall i :: 0 <= i < 512 && PteValid(Word(mem, root, i)) ==> Links(Word(mem, root, i), nodes, Mid(i)))
    && (forall t, j :: t in nodes && nodes[t].Mid? && 0 <= j < 512 && PteValid(Word(mem, t, j)) ==>
          Links(Word(mem, t, j), nodes, Leaf(nodes[t].i, j)))
  }

  /** No two table frames hang at the same place. */
  lemma TableUnshared(mem: Mem, root: nat, nodes: map<nat, Node>, t: nat, u: nat)
    requires TableOk(mem, root, nodes) && t in nodes && u in nodes && nodes[t] == nodes[u]
    ensures t == u
  {
    assert NodeOk(mem, root, nodes, t) && NodeOk(mem, root, nodes, u);
  }

  /** A walk through a well-formed table stays inside its frames. */
  lemma WalkInside(mem: Mem, root: nat, nodes: map<nat, Node>, i: nat, j: nat)
    requires TableOk(mem, root, nodes) && i < 512 && j < 512
    ensures root < |mem|
    ensures PteValid(Word(mem, root, i)) ==>
              var t := PtePpn(Word(mem, root, i));
              && t in nodes && nodes[t] == Mid(i) && t < |mem| && t != root
              && (PteValid(Word(mem, t, j)) ==>
                    var u := PtePpn(Word(mem, t, j));
                    u in nodes && nodes[u] == Leaf(i, j) && u < |mem| && u != root && u != t)
  {
    hide PtePpn, PteValid, PteFlags;
    assert NodeOk(mem, root, nodes, root);
    if PteValid(Word(mem, root, i)) {
      var t := PtePpn(Word(mem, root, i));
      assert Links(Word(mem, root, i), nodes, Mid(i)) && NodeOk(mem, root, nodes, t);
      if PteValid(Word(mem, t, j)) {
        assert Links(Word(mem, t, j), nodes, Leaf(i, j)) && NodeOk(mem, root, nodes, PtePpn(Word(mem, t, j)));
      }
    }
  }

  /** Only the table frames matter to the table. */
  lemma TableFrame(mem: Mem, mem': Mem, root: nat, nodes: map<nat, Node>)
    requires TableOk(mem, root, nodes) && |mem'| == |mem| && forall t :: t in nodes ==> t < |mem| && mem'[t] == mem[t]
    ensures TableOk(mem', root, nodes)
  {
    hide PtePpn, PteValid, PteFlags;
    assert forall t, i :: t in nodes ==> Word(mem', t, i) == Word(mem, t, i);
    forall t | t in nodes ensures NodeOk(mem', root, nodes, t) {
      assert NodeOk(mem, root, nodes, t);
      if nodes[t].Leaf? {
        assert Links(Word(mem, root, nodes[t].i), nodes, Mid(nodes[t].i));
      }
    }
  }

  lemma WalkFrame(mem: Mem, mem': Mem, root: nat, nodes: map<nat, Node>, i: nat, j: nat, k: nat)
    requires TableOk(mem, root, nodes) && |mem'| == |mem| && forall t :: t in nodes ==> t < |mem| && mem'[t] == mem[t]
    requires i < 512 && j < 512
    ensures Walk(mem', root, i, j, k) == Walk(mem, root, i, j, k)
  {
    hide PtePpn, PteValid, TableOk;
    WalkInside(mem, root, nodes, i, j);
    RootInNodes(mem, root, nodes);
  }

  lemma RootInNodes(mem: Mem, root: nat, nodes: map<nat, Node>)
    requires TableOk(mem, root, nodes)
    ensures root in nodes && nodes[root] == Root && root < |mem| <= PPN_LIMIT
    ensures forall t :: t in nodes ==> t < |mem|
  {
    forall t | t in nodes ensures t < |mem| {
      assert NodeOk(mem, root, nodes, t);
    }
  }

  // ----- what `find_pte_create` does to one level

  function SetWord(mem: Mem, ppn: nat, i: nat, e: Long): Mem
    requires ppn < |mem| && i < 512
  {
    mem[ppn := mem[ppn][i := e]]
  }

  lemma SetWordAt(mem: Mem, ppn: nat, i: nat, e: Long, t: nat, j: nat)
    requires ppn < |mem| && i < 512
    ensures Word(SetWord(mem, ppn, i, e), t, j) == if t == ppn && j == i then e else Word(mem, t, j)
  {
  }

  /** Hanging a blank frame under the root changes no translation. */
  lemma CreateMid(mem: Mem, root: nat, nodes: map<nat, Node>, i: nat, f: nat)
    requires TableOk(mem, root, nodes) && i < 512 && !PteValid(Word(mem, root, i))
    requires f < |mem| && f !in nodes && IsBlank(mem[f])
    ensures root < |mem| && f < PPN_LIMIT
    ensures TableOk(SetWord(mem, root, i, Pte(f, 1)), root, nodes[f := Mid(i)])
  {
    RootInNodes(mem, root, nodes);
    PteRoundTrip(f, 1);
    hide PtePpn, PteValid, PteFlags, Pte, SetWord, Word;
    var mem' := SetWord(mem, root, i, Pte(f, 1));
    assert |mem'| == |mem| by { SetWordLength(mem, root, i, Pte(f, 1)); }
    var nodes' := nodes[f := Mid(i)];
    forall t, j ensures Word(mem', t, j) == if t == root && j == i then Pte(f, 1) else Word(mem, t, j) {
      SetWordAt(mem, root, i, Pte(f, 1), t, j);
    }
    forall t | t in nodes' ensures NodeOk(mem', root, nodes', t) {
      if t != f {
        assert NodeOk(mem, root, nodes, t);
        if nodes[t].Leaf? {
          assert Links(Word(mem, root, nodes[t].i), nodes, Mid(nodes[t].i));
        }
      }
    }
    forall t, j | t in nodes' && nodes'[t].Mid? && 0 <= j < 512 && PteValid(Word(mem', t, j))
      ensures Links(Word(mem', t, j), nodes', Leaf(nodes'[t].i, j))
    {
      if t == f {
        BlankWord(mem, f, j);
      } else {
        assert Links(Word(mem, t, j), nodes, Leaf(nodes[t].i, j));
      }
    }
  }

  lemma SetWordLength(mem: Mem, ppn: nat, i: nat, e: Long)
    requires ppn < |mem| && i < 512
    ensures |SetWord(mem, ppn, i, e)| == |mem|
  {
  }

  lemma BlankWord(mem: Mem, f: nat, j: nat)
    requires f < |mem| && IsBlank(mem[f])
    ensures Word(mem, f, j) == 0 && !PteValid(Word(mem, f, j))
  {
  }

  lemma CreateMidLookup(mem: Mem, root: nat, nodes: map<nat, Node>, i: nat, f: nat, a: nat, b: nat, c: nat)
    requires TableOk(mem, root, nodes) && i < 512 && !PteValid(Word(mem, root, i))
    requires f < |mem| && f !in nodes && IsBlank(mem[f]) && a < 512 && b < 512 && c < 512
    ensures root < |mem| && f < PPN_LIMIT
    ensures Walk(SetWord(mem, root, i, Pte(f, 1)), root, a, b, c) == Walk(mem, root, a, b, c)
  {
    RootInNodes(mem, root, nodes);
    PteRoundTrip(f, 1);
    hide PtePpn, PteValid, PteFlags, Pte, SetWord, Word, TableOk, IsBlank;
    WalkInside(mem, root, nodes, a, b);
    SetWordAt(mem, root, i, Pte(f, 1), root, a);
    if a == i {
      SetWordAt(mem, root, i, Pte(f, 1), f, b);
      BlankWord(mem, f, b);
    } else if PteValid(Word(mem, root, a)) {
      var t := PtePpn(Word(mem, root, a));
      SetWordAt(mem, root, i, Pte(f, 1), t, b);
      SetWordAt(mem, root, i, Pte(f, 1), PtePpn(Word(mem, t, b)), c);
    }
  }

  /** Hanging a blank frame under a middle table. */
  lemma CreateLeaf(mem: Mem, root: nat, nodes: map<nat, Node>, i: nat, j: nat, t: nat, f: nat)
    requires TableOk(mem, root, nodes) && i < 512 && j < 512 && t in nodes && nodes[t] == Mid(i)
    requires !PteValid(Word(mem, t, j)) && f < |mem| && f !in nodes && IsBlank(mem[f])
    ensures t < |mem| && f < PPN_LIMIT
    ensures TableOk(SetWord(mem, t, j, Pte(f, 1)), root, nodes[f := Leaf(i, j)])
  {
    RootInNodes(mem, root, nodes);
    PteRoundTrip(f, 1);
    hide PtePpn, PteValid, PteFlags, Pte, SetWord, Word, IsBlank;
    var mem' := SetWord(mem, t, j, Pte(f, 1));
    SetWordLength(mem, t, j, Pte(f, 1));
    var nodes' := nodes[f := Leaf(i, j)];
    assert NodeOk(mem, root, nodes, t);
    forall u, b ensures Word(mem', u, b) == if u == t && b == j then Pte(f, 1) else Word(mem, u, b) {
      SetWordAt(mem, t, j, Pte(f, 1), u, b);
    }
    forall u | u in nodes' ensures NodeOk(mem', root, nodes', u) {
      if u != f {
        assert NodeOk(mem, root, nodes, u);
      }
    }
    forall a | 0 <= a < 512 && PteValid(Word(mem', root, a)) ensures Links(Word(mem', root, a), nodes', Mid(a)) {
      assert Links(Word(mem, root, a), nodes, Mid(a));
    }
    forall u, b | u in nodes' && nodes'[u].Mid? && 0 <= b < 512 && PteValid(Word(mem', u, b))
      ensures Links(Word(mem', u, b), nodes', Leaf(nodes'[u].i, b))
    {
      if !(u == t && b == j) {
        assert Links(Word(mem, u, b), nodes, Leaf(nodes[u].i, b));
      }
    }
  }

  lemma CreateLeafLookup(mem: Mem, root: nat, nodes: map<nat, Node>, i: nat, j: nat, t: nat, f: nat, a: nat, b: nat, c: nat)
    requires TableOk(mem, root, nodes) && i < 512 && j < 512 && t in nodes && nodes[t] == Mid(i)
    requires !PteValid(Word(mem, t, j)) && f < |mem| && f !in nodes && IsBlank(mem[f]) && a < 512 && b < 512 && c < 512
    ensures t < |mem| && f < PPN_LIMIT
    ensures Lookup(SetWord(mem, t, j, Pte(f, 1)), root, a, b, c) == Lookup(mem, root, a, b, c)
    ensures Walk(mem, root, a, b, c).Some? ==> Walk(SetWord(mem, t, j, Pte(f, 1)), root, a, b, c) == Walk(mem, root, a, b, c)
  {
    RootInNodes(mem, root, nodes);
    PteRoundTrip(f, 1);
    hide PtePpn, PteValid, PteFlags, Pte, SetWord, Word, TableOk, IsBlank;
    WalkInside(mem, root, nodes, a, b);
    SetWordAt(mem, t, j, Pte(f, 1), root, a);
    if PteValid(Word(mem, root, a)) {
      var u := PtePpn(Word(mem, root, a));
      SetWordAt(mem, t, j, Pte(f, 1), u, b);
      if u == t && b == j {
        SetWordAt(mem, t, j, Pte(f, 1), f, c);
        BlankWord(mem, f, c);
      } else {
        SetWordAt(mem, t, j, Pte(f, 1), PtePpn(Word(mem, u, b)), c);
      }
    }
  }

  /** Writing a last-level entry changes the translation of its page and no other. */
  lemma SetLeaf(mem: Mem, root: nat, nodes: map<nat, Node>, i: nat, j: nat, k: nat, t: nat, e: Long)
    requires TableOk(mem, root, nodes) && t in nodes && nodes[t] == Leaf(i, j) && k < 512
    ensures t < |mem| && TableOk(SetWord(mem, t, k, e), root, nodes)
  {
    RootInNodes(mem, root, nodes);
    hide PtePpn, PteValid, PteFlags, SetWord, Word;
    var mem' := SetWord(mem, t, k, e);
    SetWordLength(mem, t, k, e);
    forall u, b ensures Word(mem', u, b) == if u == t && b == k then e else Word(mem, u, b) {
      SetWordAt(mem, t, k, e, u, b);
    }
    forall u | u in nodes ensures NodeOk(mem', root, nodes, u) {
      assert NodeOk(mem, root, nodes, u);
      if nodes[u].Leaf? {
        assert Links(Word(mem, root, nodes[u].i), nodes, Mid(nodes[u].i));
      }
    }
  }

  lemma SetLeafLookup(mem: Mem, root: nat, nodes: map<nat, Node>, i: nat, j: nat, k: nat, t: nat, e: Long, a: nat, b: nat, c: nat)
    requires TableOk(mem, root, nodes) && t in nodes && nodes[t] == Leaf(i, j) && k < 512
    requires a < 512 && b < 512 && c < 512
    ensures t < |mem|
    ensures Walk(SetWord(mem, t, k, e), root, a, b, c) == if a == i && b == j && c == k then Some(e) else Walk(mem, root, a, b, c)
  {
    RootInNodes(mem, root, nodes);
    assert NodeOk(mem, root, nodes, t);
    hide PtePpn, PteValid, PteFlags, SetWord, Word, TableOk;
    WalkInside(mem, root, nodes, a, b);
    SetWordAt(mem, t, k, e, root, a);
    if PteValid(Word(mem, root, a)) {
      var u := PtePpn(Word(mem, root, a));
      SetWordAt(mem, t, k, e, u, b);
      if PteValid(Word(mem, u, b)) {
        SetWordAt(mem, t, k, e, PtePpn(Word(mem, u, b)), c);
      }
    }
  }

  // ----- the hardware's view

  predicate Readable(e: Long) { e / 2 % 2 == 1 }
  predicate Writable(e: Long) { e / 4 % 2 == 1 }
  predicate Executable(e: Long) { e / 8 % 2 == 1 }
  predicate ForUser(e: Long) { e / 16 % 2 == 1 }
  predicate Accessed(e: Long) { e / 64 % 2 == 1 }
  predicate Dirty(e: Long) { e / 128 % 2 == 1 }

  /** What a user program does to an address. */
  datatype Access = Load | Store | Fetch

  predicate Permits(e: Long, access: Access) {
    ForUser(e) && match access case Load => Readable(e) case Store => Writable(e) case Fetch => Executable(e)
  }

  /** The accessed and dirty flags that the access needs are set. */
  predicate Marked(e: Long, access: Access) {
    Accessed(e) && (access.Store? ==> Dirty(e))
  }

  /** An entry that the hardware takes as a leaf. */
  predicate IsLeaf(e: Long) {
    PteValid(e) && (Readable(e) || Executable(e)) && (Writable(e) ==> Readable(e)) && !Reserved(e)
  }

  /** The translation walk of section 4.3.2 of the RISC-V privileged architecture for an
      access from user mode, from `level` down: the leaf entry and the level at which it
      is found.  `updates` says whether the hardware sets the accessed and dirty flags
      itself or faults when they are missing, which the section leaves open. */
  function HardwareWalk(mem: Mem, table: nat, vpn: nat, level: nat, access: Access, updates: bool): Option<(Long, nat)>
    requires level < 3
    decreases 3 - level
  {
    var e := Word(mem, table, Index(vpn, level));
    if !PteValid(e) || (!Readable(e) && Writable(e)) || Reserved(e) then None
    else if Readable(e) || Executable(e) then
      if !Permits(e, access) || (level < 2 && PtePpn(e) % (if level == 0 then 0x4_0000 else 512) != 0) then None
      else if updates || Marked(e, access) then Some((e, level)) else None
    else if level == 2 || ForUser(e) || Accessed(e) || Dirty(e) then None
    else HardwareWalk(mem, PtePpn(e), vpn, level + 1, access, updates)
  }

  /** The entry lets the access through. */
  predicate Grants(e: Long, access: Access, updates: bool) {
    IsLeaf(e) && Permits(e, access) && (updates || Marked(e, access))
  }

  /** Section 4.4.1: bits 63 to 39 of an address must equal bit 38. */
  predicate Canonical(va: Long) {
    va / 0x40_0000_0000 == 0 || va / 0x40_0000_0000 == 0x3FF_FFFF
  }

  /** What the hardware finds for an access; `None` is a page fault. */
  function HardwareTranslate(mem: Mem, root: nat, va: Long, access: Access, updates: bool): Option<(Long, nat)> {
    if Canonical(va) then HardwareWalk(mem, root, va / PAGE_SIZE, 0, access, updates) else None
  }

  /** The hardware finds the software's entry for an address, at the last level, if and
      only if the address is canonical and the entry lets the access through. */
  lemma HardwareAgrees(mem: Mem, root: nat, nodes: map<nat, Node>, va: Long, access: Access, updates: bool)
    requires TableOk(mem, root, nodes)
    ensures var vpn := va / PAGE_SIZE;
            var e := Lookup(mem, root, Index(vpn, 0), Index(vpn, 1), Index(vpn, 2));
            && (HardwareTranslate(mem, root, va, access, updates) == Some((e, 2)) <==> Canonical(va) && Grants(e, access, updates))
            && (HardwareTranslate(mem, root, va, access, updates).None? <==> !(Canonical(va) && Grants(e, access, updates)))
  {
    hide Index, Walk, TableOk, Grants;
    WalkAgrees(mem, root, nodes, va / PAGE_SIZE, access, updates);
  }

  /** Below and above the canonical half-spaces an address shares its entry with a
      canonical one, so the software maps it and the hardware faults. */
  lemma CanonicalTwin(va: Long)
    requires !Canonical(va)
    ensures var twin := va % 0x40_0000_0000 + (if va / 0x40_0000_0000 % 2 == 0 then 0 else 0x3FF_FFFF * 0x40_0000_0000);
            twin < 0x1_0000_0000_0000_0000 && Canonical(twin) && twin != va && Key(twin / PAGE_SIZE) == Key(va / PAGE_SIZE)
  {
    var h, l := va / 0x40_0000_0000, va % 0x40_0000_0000;
    var p := l / PAGE_SIZE;
    DivModUnique(0x40_0000_0000, if h % 2 == 0 then 0 else 0x3FF_FFFF, l);
    assert va / PAGE_SIZE == 0x400_0000 * h + p;
    assert h == 2 * (h / 2) + h % 2;
    DivModUnique(KEY_LIMIT, h / 2, 0x400_0000 * (h % 2) + p);
    DivModUnique(KEY_LIMIT, if h % 2 == 0 then 0 else 0x1FF_FFFF, 0x400_0000 * (h % 2) + p);
  }

  lemma WalkAgrees(mem: Mem, root: nat, nodes: map<nat, Node>, vpn: nat, access: Access, updates: bool)
    requires TableOk(mem, root, nodes)
    ensures var e := Lookup(mem, root, Index(vpn, 0), Index(vpn, 1), Index(vpn, 2));
            HardwareWalk(mem, root, vpn, 0, access, updates) == if Grants(e, access, updates) then Some((e, 2)) else None
  {
    hide Index, PtePpn, TableOk, Readable, Writable, Executable, ForUser, Accessed, Dirty, Reserved, PteValid, Permits, Marked;
    var i, j := Index(vpn, 0), Index(vpn, 1);
    ZeroIsNoEntry();
    RootInNodes(mem, root, nodes);
    WalkInside(mem, root, nodes, i, j);
    var e0 := Word(mem, root, i);
    if PteValid(e0) {
      PointerFlags(mem, root, nodes, root, i);
      var t := PtePpn(e0);
      if PteValid(Word(mem, t, j)) {
        PointerFlags(mem, root, nodes, t, j);
      }
    }
  }

  lemma ZeroIsNoEntry()
    ensures !PteValid(0) && PtePpn(0) == 0
  {
  }

  ghost predicate IsPointer(e: Long) {
    && !Readable(e) && !Writable(e) && !Executable(e) && !ForUser(e) && !Accessed(e) && !Dirty(e)
    && !Reserved(e)
  }

  lemma PointerFlags(mem: Mem, root: nat, nodes: map<nat, Node>, t: nat, j: nat)
    requires TableOk(mem, root, nodes) && t in nodes && (nodes[t].Root? || nodes[t].Mid?) && j < 512 && PteValid(Word(mem, t, j))
    ensures IsPointer(Word(mem, t, j))
  {
    hide PteFlags, PteValid, PtePpn, IsPointer;
    var e := Word(mem, t, j);
    assert PteFlags(e) == 1 && !Reserved(e) by {
      assert NodeOk(mem, root, nodes, t);
    }
    FlagBits(e);
  }

  lemma FlagBits(e: Long)
    requires PteFlags(e) == 1 && !Reserved(e)
    ensures IsPointer(e)
  {
    var k := e / 256;
    assert e == 256 * k + 1;
    LowFlags(k, 1);
  }

  /** The flags of an entry are those of its low byte. */
  lemma LowFlags(q: nat, r: nat)
    requires r < 256 && 256 * q + r < 0x1_0000_0000_0000_0000
    ensures var e := 256 * q + r;
            && (Readable(e) <==> Readable(r)) && (Writable(e) <==> Writable(r)) && (Executable(e) <==> Executable(r))
            && (ForUser(e) <==> ForUser(r)) && (Accessed(e) <==> Accessed(r)) && (Dirty(e) <==> Dirty(r))
  {
    LowFlag(q, r, 2, 128);
    LowFlag(q, r, 4, 64);
    LowFlag(q, r, 8, 32);
    LowFlag(q, r, 16, 16);
    LowFlag(q, r, 64, 4);
    LowFlag(q, r, 128, 2);
  }

  lemma LowFlag(q: nat, r: nat, d: nat, c: nat)
    requires d * c == 256 && c % 2 == 0 && r < 256
    ensures (256 * q + r) / d % 2 == r / d % 2
  {
    var h := r / d;
    assert r == d * h + r % d;
    assert 256 * q + r == d * (c * q + h) + r % d;
    DivModUnique(d, c * q + h, r % d);
    assert c == 2 * (c / 2);
    assert c * q + h == 2 * (c / 2 * q + h / 2) + h % 2;
    DivModUnique(2, c / 2 * q + h / 2, h % 2);
  }
}
