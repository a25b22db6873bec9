/** `translated_byte_buffer`: a range of user addresses as slices of physical frames. */
module UserBuffers {
  import opened Common
  import opened Recycling
  import opened PageTables
  import opened AddressSpaces
  import opened MemorySets

  /** A slice of a frame's byte array. */
  datatype Slice = Slice(ppn: nat, from: nat, to: nat)

  /** The physical addresses of a slice's bytes, in order. */
  ghost function Span(s: Slice): (r: seq<nat>)
    requires s.from <= s.to
    ensures |r| == s.to - s.from && forall i :: 0 <= i < |r| ==> r[i] == s.ppn * PAGE_SIZE + s.from + i
  {
    seq(s.to - s.from, i requires 0 <= i => s.ppn * PAGE_SIZE + s.from + i)
  }

  ghost predicate InPage(v: seq<Slice>) {
    forall k :: 0 <= k < |v| ==> v[k].from < v[k].to <= PAGE_SIZE
  }

  /** The physical addresses of all the bytes, slice after slice. */
  ghost function Addresses(v: seq<Slice>): seq<nat>
    requires InPage(v)
  {
    if v == [] then [] else Addresses(v[..|v| - 1]) + Span(v[|v| - 1])
  }

  lemma OneMoreSlice(v: seq<Slice>, s: Slice)
    requires InPage(v) && s.from < s.to <= PAGE_SIZE
    ensures InPage(v + [s]) && Addresses(v + [s]) == Addresses(v) + Span(s)
  {
    assert (v + [s])[..|v|] == v;
  }

  /** `translate_va`: the physical address behind a virtual one. */
  function TranslateVa(mem: Mem, root: nat, va: nat): (r: Option<nat>)
    ensures r.Some? <==> Translate(mem, root, va / PAGE_SIZE).Some?
    ensures r.Some? ==> r.value / PAGE_SIZE == PtePpn(Translate(mem, root, va / PAGE_SIZE).value)
    ensures r.Some? ==> r.value % PAGE_SIZE == va % PAGE_SIZE
  {
    match Translate(mem, root, va / PAGE_SIZE)
    case None => None
    case Some(e) => Some(PtePpn(e) * PAGE_SIZE + va % PAGE_SIZE)
  }

  /** The walk does not look at the valid flag of the last level.  So an address of a page
      that is not mapped translates all the same if and only if the table has a
      last-level frame for it. */
  lemma UnmappedTranslatesIff(mem: Mem, root: nat, nodes: map<nat, Node>, va: nat)
    requires TableOk(mem, root, nodes)
    ensures var vpn := va / PAGE_SIZE;
            TranslateVa(mem, root, va).Some? && !PteValid(Entry(mem, root, vpn)) <==>
            exists t :: HasLeaf(nodes, vpn, t) && !PteValid(Word(mem, t, Index(vpn, 2)))
  {
    hide Index, PtePpn, PteValid;
    var vpn := va / PAGE_SIZE;
    var i, j := Index(vpn, 0), Index(vpn, 1);
    WalkInside(mem, root, nodes, i, j);
    forall t | HasLeaf(nodes, vpn, t) ensures Translate(mem, root, vpn) == Some(Word(mem, t, Index(vpn, 2))) {
      assert NodeOk(mem, root, nodes, t);
    }
    ZeroIsNoEntry();
    if Translate(mem, root, vpn).Some? {
      assert HasLeaf(nodes, vpn, PtePpn(Word(mem, PtePpn(Word(mem, root, i)), j)));
    }
  }

  /** Frame `t` is the last-level table for the page. */
  ghost predicate HasLeaf(nodes: map<nat, Node>, vpn: nat, t: nat) {
    t in nodes && nodes[t] == Leaf(Index(vpn, 0), Index(vpn, 1))
  }

  /** Right after munmap the addresses of the range translate to frame 0. */
  lemma MunmappedIsFrameZero(a: Snap, b: Snap, start: nat, end: nat, va: nat)
    requires ClearsWalks(a, b, start, end) && start <= va / PAGE_SIZE < end
    ensures !IsMapped(b, va / PAGE_SIZE) && TranslateVa(b.mem, b.root, va) == Some(va % PAGE_SIZE)
  {
    hide Translate, Entry;
    EntryOfTranslate(b.mem, b.root, va / PAGE_SIZE);
    ZeroIsNoEntry();
  }

  /** Where the loop continues: the next page boundary in 64-bit arithmetic, or the end. */
  function NextStart(start: nat, end: nat): (r: nat)
    ensures r <= end
  {
    var boundary := (start / PAGE_SIZE + 1) * PAGE_SIZE % ADDR_LIMIT;
    if boundary < end then boundary else end
  }

  /** A round makes progress exactly when it does not start in the last page. */
  lemma ProgressIff(start: nat, end: nat)
    requires start < end < ADDR_LIMIT
    ensures NextStart(start, end) > start <==> start < ADDR_LIMIT - PAGE_SIZE
  {
    var q := start / PAGE_SIZE;
    assert start == PAGE_SIZE * q + start % PAGE_SIZE;
    if q < ADDR_LIMIT / PAGE_SIZE - 1 {
      assert (q + 1) * PAGE_SIZE < ADDR_LIMIT;
    }
  }

  ghost function Rounds(start: nat, end: nat, n: nat): nat {
    if n == 0 then start else NextStart(Rounds(start, end, n - 1), end)
  }

  /** A range that ends inside the last page is never finished: the loop comes back to
      address 0 and the exit test fails after any number of rounds. */
  lemma {:induction false} LastPageNeverEnds(start: nat, end: nat, n: nat)
    requires ADDR_LIMIT - PAGE_SIZE < end < ADDR_LIMIT && start < end
    ensures Rounds(start, end, n) < end
  {
    if n > 0 {
      LastPageNeverEnds(start, end, n - 1);
      var q := Rounds(start, end, n - 1) / PAGE_SIZE;
      assert q <= ADDR_LIMIT / PAGE_SIZE - 1;
    }
  }

  /** The ranges for which the loop returns. */
  ghost predicate Served(mem: Mem, root: nat, start: nat, end: nat) {
    start < end ==> end <= ADDR_LIMIT - PAGE_SIZE && forall va :: start <= va < end ==> TranslateVa(mem, root, va).Some?
  }

  /** The bytes from `start` on, each at its own translation. */
  ghost predicate Translated(mem: Mem, root: nat, start: nat, pas: seq<nat>) {
    forall j :: 0 <= j < |pas| ==> TranslateVa(mem, root, start + j) == Some(pas[j])
  }

  lemma NoSlices(mem: Mem, root: nat, start: nat)
    ensures Addresses([]) == [] && Translated(mem, root, start, [])
  {
  }

  /** One round's slice holds the bytes up to the next start, also when that is a page
      boundary. */
  lemma SliceIsRange(mem: Mem, root: nat, start: nat, end: nat, s: Slice)
    requires start < end < ADDR_LIMIT && start < ADDR_LIMIT - PAGE_SIZE && Translate(mem, root, start / PAGE_SIZE).Some?
    requires s.ppn == PtePpn(Translate(mem, root, start / PAGE_SIZE).value) && s.from == start % PAGE_SIZE
    requires s.to == var next := NextStart(start, end); if next % PAGE_SIZE == 0 then PAGE_SIZE else next % PAGE_SIZE
    ensures NextStart(start, end) <= ADDR_LIMIT - PAGE_SIZE && s.from < s.to <= PAGE_SIZE
    ensures |Span(s)| == NextStart(start, end) - start && Translated(mem, root, start, Span(s))
  {
    hide Translate, PtePpn;
    var next, q := NextStart(start, end), start / PAGE_SIZE;
    assert q + 1 < ADDR_LIMIT / PAGE_SIZE && next <= (q + 1) * PAGE_SIZE;
    assert next == q * PAGE_SIZE + s.to;
    forall j | 0 <= j < |Span(s)| ensures TranslateVa(mem, root, start + j) == Some(Span(s)[j]) {
      assert (start + j) / PAGE_SIZE == q && (start + j) % PAGE_SIZE == s.from + j;
    }
  }

  lemma RangeExtended(mem: Mem, root: nat, start: nat, pas: seq<nat>, more: seq<nat>)
    requires Translated(mem, root, start, pas) && Translated(mem, root, start + |pas|, more)
    ensures Translated(mem, root, start, pas + more)
  {
    hide TranslateVa;
    forall j | 0 <= j < |pas + more| ensures TranslateVa(mem, root, start + j) == Some((pas + more)[j]) {
      if j >= |pas| {
        assert start + j == start + |pas| + (j - |pas|);
      }
    }
  }

  /** Every byte translated is the condition for all of the range. */
  lemma RangeServed(mem: Mem, root: nat, start: nat, end: nat, pas: seq<nat>)
    requires start < end <= ADDR_LIMIT - PAGE_SIZE && |pas| == end - start && Translated(mem, root, start, pas)
    ensures Served(mem, root, start, end)
  {
    hide TranslateVa;
    forall va | start <= va < end ensures TranslateVa(mem, root, va).Some? {
      assert TranslateVa(mem, root, start + (va - start)) == Some(pas[va - start]);
    }
  }

  /** The slices cover the range byte for byte.  `None` when the source panics or does not
      return; a length that wraps around gives no slices. */
  method TranslatedByteBuffer(table: PageTable, ptr: nat, len: nat, m: Machine) returns (r: Option<seq<Slice>>)
    requires table.Valid(m) && ptr < ADDR_LIMIT && len < ADDR_LIMIT
    ensures r.Some? <==> Served(m.mem, table.root, ptr, (ptr + len) % ADDR_LIMIT)
    ensures r.Some? ==> InPage(r.value) && Translated(m.mem, table.root, ptr, Addresses(r.value))
    ensures r.Some? ==> |Addresses(r.value)| == if ptr + len < ADDR_LIMIT then len else 0
  {
    hide TableOk, Translate, PtePpn, Addresses, Translated;
    var start, end := ptr, (ptr + len) % ADDR_LIMIT;
    var v: seq<Slice> := [];
    NoSlices(m.mem, table.root, ptr);
    while start < end
      invariant ptr == start || (ptr < start <= end && start <= ADDR_LIMIT - PAGE_SIZE)
      invariant InPage(v) && |Addresses(v)| == start - ptr && Translated(m.mem, table.root, ptr, Addresses(v))
      decreases end - start
    {
      var pte := table.FindPte(start / PAGE_SIZE, m);
      if pte.None? {
        assert TranslateVa(m.mem, table.root, start).None?;
        return None;
      }
      var next := NextStart(start, end);
      ProgressIff(start, end);
      if next <= start {
        return None;
      }
      var s := Slice(PtePpn(pte.value), start % PAGE_SIZE, if next % PAGE_SIZE == 0 then PAGE_SIZE else next % PAGE_SIZE);
      SliceIsRange(m.mem, table.root, start, end, s);
      RangeExtended(m.mem, table.root, ptr, Addresses(v), Span(s));
      OneMoreSlice(v, s);
      v, start := v + [s], next;
    }
    if ptr < end {
      RangeServed(m.mem, table.root, ptr, end, Addresses(v));
    }
    return Some(v);
  }

  /** A buffer in a range that was just unmapped is served: every byte from frame 0. */
  method BufferAfterMunmap(space: MemorySet, start: nat, len: nat, m: Machine) returns (ok: bool, r: int, v: Option<seq<Slice>>)
    requires space.Valid(m) && start + len <= ADDR_LIMIT - PAGE_SIZE
    modifies space.pageTable`tracked, space.pageTable`nodes, m, m.frames
    ensures m.Valid()
    ensures ok && r == 0 ==> v.Some? && InPage(v.value) && |Addresses(v.value)| == len
    ensures ok && r == 0 ==> forall j :: 0 <= j < len ==> Addresses(v.value)[j] == (start + j) % PAGE_SIZE
  {
    hide TableOk, Translate, Addresses, ClearsEntries, ClearsWalks, IsMapped, TranslateVa;
    ghost var a := space.View(m);
    v := None;
    ok, r := space.Munmap(start, len, m);
    if !ok || r != 0 {
      return;
    }
    forall va | start <= va < start + len ensures TranslateVa(m.mem, space.pageTable.root, va) == Some(va % PAGE_SIZE) {
      assert ByteOf(va, va / PAGE_SIZE);
      PagesOfRange(start, len, va / PAGE_SIZE);
      MunmappedIsFrameZero(a, space.View(m), FirstPage(start), LastPage(start, len), va);
    }
    v := TranslatedByteBuffer(space.pageTable, start, len, m);
  }
}
