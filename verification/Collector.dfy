/** vm/heap.c over an array of cells; each method does to the cells what its function does to the block map. */
module Collector {
  import opened Wrappers
  import opened HeapModel
  import opened HeapInvariant
  import opened HeapScan
  import opened HeapCollect
  import opened HeapRuns
  import opened HeapReserve
  import opened HeapCells
  import opened HeapCompact
  import HashTable

  /** `space_t`. */
  datatype Region = Region(base: Addr, size: nat, pos: Addr, free: nat, blocks: nat)

  predicate InRegion(r: Region, p: Addr) { r.base <= p < r.base + r.size }

  function RegionOf(s: Space): Region { Region(s.base, s.size, s.pos, s.free, |s.hdrs|) }

  lemma VacantAtPos(h: Heap, s: Space, n: nat)
    requires Layout(h) && n <= s.free && n > 0
    requires s == h.future || s == AllocateOld(h).tenured || s == h.nursery
    ensures Vacant(h.mem, s.pos, n)
  {
    hide Tiled;
    forall a | a in h.mem ensures a + BlockWords(h.mem[a]) <= s.pos || s.pos + n <= a {
      Outside(h.mem, h.nursery, a);
      Outside(h.mem, h.survived, a);
      Outside(h.mem, h.future, a);
      Outside(h.mem, h.tenured, a);
    }
  }

  lemma Outside(mem: map<Addr, Block>, s: Space, a: Addr)
    requires Tiled(mem, s) && a in mem
    ensures s.base <= s.pos && s.pos + s.free == s.base + s.size
    ensures a in s.hdrs ==> s.base <= a && a + BlockWords(mem[a]) <= s.pos
  {
  }

  class Memory {
    const cells: array<Cell>
    var nursery: Region
    var survived: Region
    var future: Region
    var tenured: Region
    const oldBase: Addr
    var list: seq<Addr>
    var full: bool
    var roots: seq<Word>

    /** The abstract heap. */
    ghost var heap: Heap

    ghost predicate Fields()
      reads this
    {
      && nursery == RegionOf(heap.nursery) && survived == RegionOf(heap.survived)
      && future == RegionOf(heap.future) && tenured == RegionOf(heap.tenured)
      && oldBase == heap.oldBase && list == heap.list && full == heap.full && roots == heap.roots
    }

    ghost predicate Valid()
      reads this, cells
    {
      Fields() && RegionBounds(heap) && Represents(cells[..], heap.mem)
    }

    /** `heap_init`: three empty spaces in one piece of memory, and no old space yet. */
    constructor (roots: seq<Word>)
      requires forall w | w in roots :: !w.Ptr?
      ensures Valid() && WellFormed(heap) && heap.mem == map[] && heap.roots == roots && !full
      ensures fresh(cells)
    {
      var base := FRESH_WORDS + 2 * SURVIVED_WORDS;
      cells := new Cell[base + OLD_WORDS](_ => Val(Imm(0)));
      nursery := Region(0, FRESH_WORDS, 0, FRESH_WORDS, 0);
      survived := Region(FRESH_WORDS, SURVIVED_WORDS, FRESH_WORDS, SURVIVED_WORDS, 0);
      future := Region(FRESH_WORDS + SURVIVED_WORDS, SURVIVED_WORDS, FRESH_WORDS + SURVIVED_WORDS, SURVIVED_WORDS, 0);
      tenured := Region(base, 0, base, 0, 0);
      oldBase, list, full, this.roots := base, [], false, roots;
      heap := Heap(map[], EmptySpace(0, FRESH_WORDS), EmptySpace(FRESH_WORDS, SURVIVED_WORDS),
                   EmptySpace(FRESH_WORDS + SURVIVED_WORDS, SURVIVED_WORDS), EmptySpace(base, 0), base, [], false, roots);
      new;
      NothingAllocated(heap);
      hide WellFormed;
    }

    lemma NothingAllocated(h: Heap)
      requires h.mem == map[] && Geometry(h) && h.list == [] && !h.full && forall w | w in h.roots :: !w.Ptr?
      requires h.nursery == EmptySpace(h.nursery.base, FRESH_WORDS) && h.survived == EmptySpace(h.survived.base, SURVIVED_WORDS)
      requires h.future == EmptySpace(h.future.base, SURVIVED_WORDS) && h.tenured == EmptySpace(h.oldBase, 0)
      ensures WellFormed(h)
    {
    }

    /** `memcpy` of `n` cells. */
    method CopyCells(t: Addr, a: Addr, n: nat)
      requires 0 <= a && a + n <= cells.Length && 0 <= t && t + n <= cells.Length
      requires a + n <= t || t + n <= a
      modifies cells
      ensures cells[..] == AfterCopy(old(cells[..]), a, t, n)
    {
      hide AfterCopy;
      ghost var was := cells[..];
      CopyNothing(was, a, t);
      for i := 0 to n
        invariant cells[..] == AfterCopy(was, a, t, i)
      {
        CopyOneMore(was, a, t, i);
        cells[t + i] := cells[a + i];
      }
    }
  
    /** Remembering a block in place: the mark bit, and the end of the remembered list. */
    method MarkInPlace(a: Addr)
      requires Valid() && a in heap.mem
      modifies this`list, this`heap, cells
      ensures Valid() && heap == Remember(old(heap), a)
    {
      ghost var b := heap.mem[a];
      assert Stored(cells[..], a, b);
      WriteHeader(a, cells[a].(remembered := true), heap.mem, b.(remembered := true));
      list := list + [a];
      heap := Remember(heap, a);
    }

    /** The copying half of `heap_mark`: the block at `a` goes to `t`, and leaves its new address behind. */
    method Forward(a: Addr, t: Addr, clear: bool)
      requires Represents(cells[..], heap.mem) && a in heap.mem && |heap.mem[a].data| > 0
      requires Vacant(heap.mem, t, BlockWords(heap.mem[a])) && 0 <= t && t + BlockWords(heap.mem[a]) <= cells.Length
      modifies this`heap, cells
      ensures var h, b := old(heap), old(heap).mem[a];
              && heap == h.(mem := h.mem[a := Forwarded(b, t).(remembered := b.remembered && !clear)]
                                        [t := b.(forward := false, gen := (b.gen + 1) % 4)])
              && Represents(cells[..], heap.mem)
    {
      hide Represents, Vacant;
      ghost var m, b := heap.mem, heap.mem[a];
      var hdr := CopyOut(a, t);
      ghost var b2 := b.(forward := true, remembered := b.remembered && !clear);
      WriteHeader(a, hdr.(forward := true, remembered := hdr.remembered && !clear), m[t := b], b2);
      ghost var m2 := m[t := b][a := b2];
      WriteWord(a, 0, Raw(t + 1), m2);
      ghost var b4 := b.(forward := false, gen := (b.gen + 1) % 4);
      WriteHeader(t, hdr.(forward := false, gen := (hdr.gen + 1) % 4), m2[a := b2.(data := b2.data[0 := Raw(t + 1)])], b4);
      heap := heap.(mem := m2[a := b2.(data := b2.data[0 := Raw(t + 1)])][t := b4]);
      assert heap.mem == m[a := Forwarded(b, t).(remembered := b.remembered && !clear)][t := b4];
    }

    /** A copy of the block at `a`; its header. */
    method CopyOut(a: Addr, t: Addr) returns (hdr: Cell)
      requires Represents(cells[..], heap.mem) && a in heap.mem
      requires Vacant(heap.mem, t, BlockWords(heap.mem[a])) && 0 <= t && t + BlockWords(heap.mem[a]) <= cells.Length
      modifies cells
      ensures t !in heap.mem && Represents(cells[..], heap.mem[t := heap.mem[a]]) && hdr == HdrOf(heap.mem[a])
    {
      assert Stored(cells[..], a, heap.mem[a]);
      hdr := cells[a];
      CopyBlock(cells[..], heap.mem, a, t);
      CopyCells(t, a, hdr.size + 1);
    }

    method WriteHeader(a: Addr, hdr: Cell, ghost m: map<Addr, Block>, ghost b: Block)
      requires Represents(cells[..], m) && a in m && hdr == HdrOf(b) && b.data == m[a].data
      modifies cells
      ensures Represents(cells[..], m[a := b])
    {
      SetHdr(cells[..], m, a, b);
      ghost var c := cells[..];
      cells[a] := hdr;
      assert cells[..] == c[a := hdr];
    }

    method WriteWord(a: Addr, i: nat, w: Word, ghost m: map<Addr, Block>)
      requires Represents(cells[..], m) && a in m && i < |m[a].data|
      modifies cells
      ensures Represents(cells[..], m[a := m[a].(data := m[a].data[i := w])])
    {
      SetWord(cells[..], m, a, i, w);
      ghost var c := cells[..];
      cells[a + 1 + i] := Val(w);
      assert cells[..] == c[a + 1 + i := Val(w)];
    }

    method PromoteBlock(a: Addr) returns (r: Option<Word>)
      requires Valid() && Layout(heap) && a in heap.mem && |heap.mem[a].data| > 0
      modifies this`tenured, this`list, this`heap, cells
      ensures r.Some? ==> Valid() && Promote(old(heap), a) == Some(Marked(heap, r.value))
      ensures r.None? ==> Promote(old(heap), a).None?
    {
      hide Layout, Vacant;
      ghost var h := heap;
      assert Stored(cells[..], a, h.mem[a]);
      var need := cells[a].size + 1;
      if tenured.size == 0 {
        tenured := Region(oldBase, OLD_WORDS, oldBase, OLD_WORDS, 0);
      }
      if need > tenured.free {
        return None;
      }
      var t := tenured.pos;
      VacantAtPos(h, AllocateOld(h).tenured, need);
      PosInBounds(h, AllocateOld(h).tenured, need);
      Forward(a, t, true);
      hide Represents;
      tenured := tenured.(pos := t + need, free := tenured.free - need, blocks := tenured.blocks + 1);
      list := list + [t];
      heap := heap.(tenured := Bump(AllocateOld(h).tenured, need), list := list);
      r := Some(Ptr(t));
    }

    method EvacuateBlock(a: Addr) returns (r: Option<Word>)
      requires Valid() && Layout(heap) && a in heap.mem && |heap.mem[a].data| > 0
      modifies this`future, this`heap, cells
      ensures r.Some? ==> Valid() && Evacuate(old(heap), a) == Some(Marked(heap, r.value))
      ensures r.None? ==> Evacuate(old(heap), a).None?
    {
      hide Layout, Vacant;
      ghost var h := heap;
      assert Stored(cells[..], a, h.mem[a]);
      var need := cells[a].size + 1;
      if need > future.free {
        return None;
      }
      var t := future.pos;
      VacantAtPos(h, h.future, need);
      PosInBounds(h, h.future, need);
      Forward(a, t, false);
      hide Represents;
      future := future.(pos := t + need, free := future.free - need, blocks := future.blocks + 1);
      heap := heap.(future := Bump(h.future, need));
      r := Some(Ptr(t));
    }

    /** `heap_mark`; it returns the word to store in the slot, or `None` where the program aborts. */
    method MarkWord(w: Word) returns (r: Option<Word>)
      requires Valid() && Layout(heap) && (w.Ptr? ==> w.a in heap.mem)
      modifies this`future, this`tenured, this`list, this`heap, cells
      ensures r.Some? ==> Valid() && Mark(old(heap), w) == Some(Marked(heap, r.value))
      ensures r.None? ==> Mark(old(heap), w).None?
    {
      hide Represents, Advances, Layout, Promote, Evacuate;
      if !w.Ptr? {
        return Some(w);
      }
      var a := w.a;
      var hdr := Header(a);
      if InRegion(future, a + 1) {
        return Some(w);
      }
      if InRegion(tenured, a + 1) {
        if full && !hdr.remembered {
          MarkInPlace(a);
        }
        return Some(w);
      }
      if hdr.forward {
        var f := Payload(a, 0);
        return Some(Ptr(Forwarding(f)));
      }
      if hdr.gen == PROMOTION_AGE {
        if full {
          if !hdr.remembered {
            MarkInPlace(a);
          }
          return Some(w);
        }
        r := PromoteBlock(a);
      } else {
        r := EvacuateBlock(a);
      }
    }

    /** The header of a block. */
    method Header(a: Addr) returns (hdr: Cell)
      requires Valid() && Layout(heap) && a in heap.mem
      ensures hdr == HdrOf(heap.mem[a]) && |heap.mem[a].data| > 0
    {
      hide Tiled;
      InSpaceIsListed(heap, a);
      assert Stored(cells[..], a, heap.mem[a]);
      hdr := cells[a];
    }

    method Payload(a: Addr, i: nat) returns (w: Word)
      requires Valid() && a in heap.mem && i < |heap.mem[a].data|
      ensures w == heap.mem[a].data[i]
    {
      assert Stored(cells[..], a, heap.mem[a]);
      assert cells[..][a + 1 + i] == Val(heap.mem[a].data[i]);
      w := cells[a + 1 + i].w;
    }

    method StoreWord(a: Addr, i: nat, w: Word)
      requires Valid() && a in heap.mem && i < |heap.mem[a].data|
      modifies this`heap, cells
      ensures Valid() && heap == SetSlot(old(heap), a, i, w)
    {
      WriteWord(a, i, w, heap.mem);
      heap := SetSlot(heap, a, i, w);
    }

    ghost predicate RegionBounds(h: Heap) {
      && 0 <= h.future.base && h.future.base + h.future.size <= cells.Length
      && 0 <= h.survived.base && h.survived.base + h.survived.size <= cells.Length
      && 0 <= h.nursery.base && h.nursery.base + h.nursery.size <= cells.Length
      && 0 <= h.oldBase && h.oldBase + OLD_WORDS <= cells.Length
    }

    lemma PosInBounds(h: Heap, s: Space, n: nat)
      requires Layout(h) && n <= s.free && (s == h.future || s == AllocateOld(h).tenured)
      requires RegionBounds(h)
      ensures 0 <= s.pos && s.pos + n <= cells.Length
    {
      hide Tiled;
      PosNotListed(h.mem, h.future, 0);
      PosNotListed(h.mem, h.tenured, 0);
    }
  
    // ----- visitors and scans, inside a collection that started from `h0`

    /** One slot of a visitor. */
    method VisitSlot(a: Addr, i: nat, ghost h0: Heap) returns (ok: bool)
      requires Valid() && Inv(h0, heap) && Live(heap, a) && SlotAt(heap, a, i)
      modifies this`future, this`tenured, this`list, this`heap, cells
      ensures var m := Mark(old(heap), old(heap).mem[a].data[i]);
              && (ok <==> m.Some?)
              && (ok ==> Valid() && SlotAt(m.value.h, a, i) && heap == SetSlot(m.value.h, a, i, m.value.w))
      ensures ok ==> Inv(h0, heap) && Grows(old(heap), heap) && roots == old(roots)
    {
      hide Mark, Inv, Layout, Represents, RegionBounds;
      LayoutOf(h0, heap);
      SlotResolves(h0, heap, a, i);
      ghost var h := heap;
      var w := Payload(a, i);
      var r := MarkWord(w);
      if r.None? {
        return false;
      }
      SlotStep(h0, h, a, i, Marked(heap, r.value));
      StoreWord(a, i, r.value);
      return true;
    }

    lemma LayoutOf(h0: Heap, h: Heap)
      requires Inv(h0, h)
      ensures Layout(h)
    {
    }

    /** `visit_hdr`: re-base the interior pointer, then the slots in the visitor's order. */
    method VisitHdr(a: Addr, ghost h0: Heap) returns (ok: bool)
      requires Valid() && Inv(h0, heap) && Live(heap, a)
      modifies this`future, this`tenured, this`list, this`heap, cells
      ensures ok <==> Visit(old(heap), a).Some?
      ensures ok ==> Valid() && Visit(old(heap), a) == Some(heap) && Inv(h0, heap) && Grows(old(heap), heap)
      ensures ok ==> roots == old(roots)
    {
      hide Mark, Inv, Layout, Represents, RegionBounds;
      ghost var h := heap;
      LayoutOf(h0, heap);
      var hdr := Header(a);
      RebaseKeeps(h0, heap, a);
      if HasInterior(hdr.kind) && InteriorWord(hdr.kind) < hdr.size {
        StoreWord(a, InteriorWord(hdr.kind), Interior(hdr.kind, a));
      }
      ghost var h1 := heap;
      var offs := Slots(hdr.kind, hdr.size);
      ok := VisitOffsets(a, offs, h0, hdr.kind, hdr.size);
      if ok {
        GrowsTransitive(h, h1, heap);
      }
    }

    method VisitOffsets(a: Addr, offs: seq<nat>, ghost h0: Heap, ghost kind: Kind, ghost n: nat) returns (ok: bool)
      requires Valid() && Inv(h0, heap) && Live(heap, a)
      requires heap.mem[a].kind == kind && |heap.mem[a].data| == n && offs == Slots(kind, n)
      modifies this`future, this`tenured, this`list, this`heap, cells
      ensures ok <==> VisitSlots(old(heap), a, offs).Some?
      ensures ok ==> Valid() && VisitSlots(old(heap), a, offs) == Some(heap) && Inv(h0, heap) && Grows(old(heap), heap)
      ensures ok ==> roots == old(roots)
    {
      hide Mark, Inv, Layout, Represents, RegionBounds;
      GrowsReflexive(heap);
      var k := 0;
      while k < |offs|
        invariant k <= |offs| && Valid() && Inv(h0, heap) && Grows(old(heap), heap) && roots == old(roots)
        invariant Live(heap, a) && heap.mem[a].kind == kind && |heap.mem[a].data| == n
        invariant VisitSlots(old(heap), a, offs) == VisitSlots(heap, a, offs[k..])
      {
        assert offs[k] in offs;
        SlotsAreSlots(kind, n, offs[k]);
        ghost var h := heap;
        assert offs[k..][1..] == offs[k + 1..];
        ok := VisitSlot(a, offs[k], h0);
        if !ok {
          return false;
        }
        GrowsTransitive(old(heap), h, heap);
        k := k + 1;
      }
      return true;
    }
  
    /** `NEXT_HDR`. */
    method NextHdr(a: Addr) returns (b: Addr)
      requires Valid() && Layout(heap) && a in heap.mem
      ensures b == a + BlockWords(heap.mem[a])
    {
      hide Represents, Layout;
      var hdr := Header(a);
      b := a + 1 + hdr.size;
    }

    /** Where the walk over a space stands before block number `i`. */
    ghost predicate At(s: Space, i: nat, a: Addr) { i <= |s.hdrs| && a == if i < |s.hdrs| then s.hdrs[i] else s.pos }

    lemma WalkStep(m: map<Addr, Block>, s: Space, s': Space, m': map<Addr, Block>, i: nat)
      requires Tiled(m, s) && Tiled(m', s') && i < |s.hdrs| && s.hdrs <= s'.hdrs && s.hdrs[i] in m'
      ensures At(s', i + 1, s.hdrs[i] + BlockWords(m'[s.hdrs[i]]))
    {
      assert s'.hdrs[i] == s.hdrs[i];
    }

    /** `heap_scan_references`: the cursor is a block number and a header address. */
    method ScanReferences(i0: nat, hdr0: Addr, ghost h0: Heap) returns (ok: bool, i: nat, hdr: Addr)
      requires Valid() && Inv(h0, heap) && At(heap.future, i0, hdr0)
      modifies this`future, this`tenured, this`list, this`heap, cells
      ensures ok <==> ScanFuture(old(heap), i0).Some?
      ensures ok ==> Valid() && ScanFuture(old(heap), i0) == Some(heap) && Inv(h0, heap) && Grows(old(heap), heap)
      ensures ok ==> i == |heap.future.hdrs| && At(heap.future, i, hdr) && roots == old(roots)
    {
      hide Inv, Layout, Represents, RegionBounds, Visit, Live, Advances, Grows, IsSlot;
      GrowsReflexive(heap);
      i, hdr := i0, hdr0;
      while i < future.blocks
        invariant Valid() && Inv(h0, heap) && Grows(old(heap), heap) && At(heap.future, i, hdr) && roots == old(roots)
        invariant ScanFuture(old(heap), i0) == ScanFuture(heap, i)
        decreases Room(heap), Unmarked(heap), |heap.future.hdrs| - i
      {
        ghost var h := heap;
        QueueLive(h0, heap, hdr);
        ok := VisitHdr(hdr, h0);
        if !ok {
          return;
        }
        GrowsTransitive(old(heap), h, heap);
        LayoutOf(h0, heap);
        LayoutOf(h0, h);
        FutureWalk(h, heap, i);
        VisitAdvances(h, hdr);
        hdr := NextHdr(hdr);
        i := i + 1;
      }
      ok := true;
    }

    lemma FutureWalk(h: Heap, h': Heap, i: nat)
      requires Layout(h) && Layout(h') && i < |h.future.hdrs| && Grows(h, h')
      ensures h.future.hdrs[i] in h'.mem
      ensures At(h'.future, i + 1, h.future.hdrs[i] + BlockWords(h'.mem[h.future.hdrs[i]]))
    {
      hide Tiled;
      assert h'.future.hdrs[i] == h.future.hdrs[i];
      Listed(h'.mem, h'.future, h'.future.hdrs[i]);
      WalkStep(h.mem, h.future, h'.future, h'.mem, i);
    }

    lemma TenuredWalk(h: Heap, h': Heap, i: nat)
      requires Layout(h) && Layout(h') && i < |h.tenured.hdrs| && Grows(h, h')
      ensures h.tenured.hdrs[i] in h'.mem
      ensures At(h'.tenured, i + 1, h.tenured.hdrs[i] + BlockWords(h'.mem[h.tenured.hdrs[i]]))
    {
      hide Tiled;
      assert h'.tenured.hdrs[i] == h.tenured.hdrs[i];
      Listed(h'.mem, h'.tenured, h'.tenured.hdrs[i]);
      WalkStep(h.mem, h.tenured, h'.tenured, h'.mem, i);
    }

    lemma VisitAdvances(h: Heap, a: Addr)
      requires Visit(h, a).Some?
      ensures Advances(h, Visit(h, a).value)
    {
    }
  
    /** `heap_scan_old`; the bound `tenured.blocks` grows while blocks are promoted. */
    method ScanOldSpace(ghost h0: Heap) returns (ok: bool)
      requires Valid() && Inv(h0, heap) && !full
      modifies this`future, this`tenured, this`list, this`heap, cells
      ensures ok <==> ScanOld(old(heap), 0).Some?
      ensures ok ==> Valid() && ScanOld(old(heap), 0) == Some(heap) && Inv(h0, heap) && Grows(old(heap), heap)
      ensures ok ==> roots == old(roots)
    {
      hide Inv, Layout, Represents, RegionBounds, Visit, Live, Advances, Grows, IsSlot;
      GrowsReflexive(heap);
      StartAt(h0, heap);
      var i, hdr := 0, tenured.base;
      while i < tenured.blocks
        invariant Valid() && Inv(h0, heap) && !full && Grows(old(heap), heap) && roots == old(roots)
        invariant At(heap.tenured, i, hdr)
        invariant ScanOld(old(heap), 0) == ScanOld(heap, i)
        decreases Room(heap), Unmarked(heap), |heap.tenured.hdrs| - i
      {
        ghost var h := heap;
        QueueLive(h0, heap, hdr);
        ok := VisitHdr(hdr, h0);
        if !ok {
          return;
        }
        GrowsTransitive(old(heap), h, heap);
        LayoutOf(h0, heap);
        LayoutOf(h0, h);
        TenuredWalk(h, heap, i);
        VisitAdvances(h, hdr);
        hdr := NextHdr(hdr);
        i := i + 1;
      }
      ok := true;
    }

    lemma StartAt(h0: Heap, h: Heap)
      requires Inv(h0, h)
      ensures At(h.tenured, 0, h.tenured.base) && At(h.future, 0, h.future.base)
    {
    }

    /** The walk of `heap_scan_remebered`, which also meets the entries appended meanwhile. */
    method ScanRemembered(ghost h0: Heap) returns (ok: bool)
      requires Valid() && Inv(h0, heap) && ListLive(heap)
      modifies this`future, this`tenured, this`list, this`heap, cells
      ensures ok <==> WalkList(old(heap), 0).Some?
      ensures ok ==> Valid() && WalkList(old(heap), 0) == Some(heap) && Inv(h0, heap) && Grows(old(heap), heap)
      ensures ok ==> roots == old(roots)
    {
      hide Inv, Layout, Represents, RegionBounds, Visit, Live, Advances, Grows, IsSlot;
      GrowsReflexive(heap);
      var k := 0;
      while k < |list|
        invariant Valid() && Inv(h0, heap) && ListLive(heap) && Grows(old(heap), heap) && roots == old(roots)
        invariant WalkList(old(heap), 0) == WalkList(heap, k)
        decreases Room(heap), Unmarked(heap), |heap.list| - k
      {
        ghost var h := heap;
        ok := VisitHdr(list[k], h0);
        if !ok {
          return;
        }
        GrowsTransitive(old(heap), h, heap);
        VisitAdvances(h, h.list[k]);
        k := k + 1;
      }
      ok := true;
    }

    /** `thread_get_roots`. */
    method ScanRoots(ghost h0: Heap) returns (ok: bool)
      requires Valid() && h0 == heap && Collectable(h0)
      modifies this`future, this`tenured, this`list, this`roots, this`heap, cells
      ensures ok <==> MarkRoots(old(heap), 0).Some?
      ensures ok ==> Valid() && MarkRoots(old(heap), 0) == Some(heap) && Inv(h0, heap) && ListLive(heap)
    {
      hide Inv, Layout, Represents, RegionBounds, Mark, Live, Collectable, Reachable;
      InvInit(h0);
      StartCovered(h0);
      var i := 0;
      while i < |roots|
        invariant i <= |roots| == |h0.roots| && Valid() && Inv(h0, heap) && ListLive(heap) && RootsDone(h0, heap, i)
        invariant MarkRoots(old(heap), 0) == MarkRoots(heap, i)
      {
        ghost var h := heap;
        LayoutOf(h0, heap);
        RootResolves(h0, heap, i);
        var r := MarkWord(roots[i]);
        if r.None? {
          return false;
        }
        MarkKeeps(h0, h, h.roots[i], Marked(heap, r.value));
        RootsStay(h0, h, heap, i);
        OtherRoots(h0, heap, heap.roots[i := r.value], heap.list);
        OneMoreRoot(h0, heap, i, r.value);
        StoreRoot(i, r.value);
        i := i + 1;
      }
      return true;
    }

    method StoreRoot(i: nat, w: Word)
      requires Valid() && i < |roots|
      modifies this`roots, this`heap
      ensures Valid() && heap == old(heap).(roots := old(heap).roots[i := w])
    {
      roots := roots[i := w];
      heap := heap.(roots := roots);
    }

    /** `heap_gc_main` with no address map: it aborts, or leaves what the function says. */
    method MainPass() returns (ok: bool)
      requires Valid() && Collectable(heap)
      modifies this`future, this`tenured, this`list, this`roots, this`heap, cells
      ensures ok <==> GcMain(old(heap)).Some?
      ensures ok ==> Valid() && GcMain(old(heap)) == Some(heap) && Inv(old(heap), heap)
    {
      hide Inv, Layout, Represents, RegionBounds, Live, Collectable, MarkRoots, ScanOld, ScanFuture, Drain;
      ghost var h0 := heap;
      ok := ScanRoots(h0);
      if !ok {
        return;
      }
      if !full {
        ok := ScanOldSpace(h0);
        if !ok {
          return;
        }
      }
      StartAt(h0, heap);
      var i, hdr;
      ok, i, hdr := ScanReferences(0, future.base, h0);
      if !ok {
        return;
      }
      ok := DrainQueues(i, hdr, h0);
    }

    method DrainQueues(i0: nat, hdr0: Addr, ghost h0: Heap) returns (ok: bool)
      requires Valid() && Inv(h0, heap) && ListLive(heap) && i0 == |heap.future.hdrs| && At(heap.future, i0, hdr0)
      modifies this`future, this`tenured, this`list, this`heap, cells
      ensures ok <==> Drain(old(heap), i0).Some?
      ensures ok ==> Valid() && Drain(old(heap), i0) == Some(heap) && Inv(h0, heap)
    {
      hide Inv, Layout, Represents, RegionBounds, Live, WalkList, ScanFuture;
      var i, hdr := i0, hdr0;
      while list != []
        invariant Valid() && Inv(h0, heap) && ListLive(heap) && i == |heap.future.hdrs| && At(heap.future, i, hdr)
        invariant Drain(old(heap), i0) == Drain(heap, i)
        decreases Room(heap), Unmarked(heap), |heap.list|
      {
        ghost var h := heap;
        ok := ScanRemembered(h0);
        if !ok {
          return;
        }
        ResumeAt(h0, h, heap);
        ForgetList(h0);
        ok, i, hdr := ScanReferences(i, hdr, h0);
        if !ok {
          return;
        }
      }
      ok := true;
    }

    /** The cursor at the end of the future-survived space is where the next copy goes. */
    lemma ResumeAt(h0: Heap, h: Heap, h': Heap)
      requires Inv(h0, h) && Inv(h0, h') && h.future.hdrs <= h'.future.hdrs && Grows(h, h')
      ensures At(h'.future, |h.future.hdrs|, h.future.pos)
    {
      hide Images, Accounts, OnlyReachable, Collectable;
      FutureContinues(h.mem, h.future, h'.mem, h'.future);
    }

    lemma FutureContinues(m: map<Addr, Block>, s: Space, m': map<Addr, Block>, s': Space)
      requires Tiled(m, s) && Tiled(m', s') && s.hdrs <= s'.hdrs && s'.base == s.base
      requires forall a | a in m :: a in m' && |m'[a].data| == |m[a].data|
      ensures At(s', |s.hdrs|, s.pos)
    {
      if s.hdrs != [] {
        var n := |s.hdrs| - 1;
        assert s'.hdrs[n] == s.hdrs[n];
      }
    }

    method ForgetList(ghost h0: Heap)
      requires Valid() && Inv(h0, heap)
      modifies this`list, this`heap
      ensures Valid() && heap == Forget(old(heap)) && Inv(h0, heap) && ListLive(heap)
    {
      hide Inv;
      OtherRoots(h0, heap, heap.roots, []);
      list := [];
      heap := Forget(heap);
    }
  
    // ----- heap_gc, heap_alloc, heap_require_blocks

    /** The `memset` of `space_reset0`. */
    method ClearCells(t: Addr, n: nat)
      requires 0 <= t && t + n <= cells.Length
      modifies cells
      ensures cells[..] == Cleared(old(cells[..]), t, n)
    {
      for i := 0 to n
        invariant forall k | 0 <= k < cells.Length :: cells[k] == if t <= k < t + i then Val(Imm(0)) else old(cells[k])
      {
        cells[t + i] := Val(Imm(0));
      }
    }

    /** `heap_gc` when no full collection is scheduled. */
    method Collect() returns (ok: bool)
      requires Valid() && WellFormed(heap) && !full
      modifies this, cells
      ensures ok <==> MinorGc(old(heap)).Some?
      ensures ok ==> Valid() && MinorGc(old(heap)) == Some(heap) && WellFormed(heap)
    {
      hide GcMain, Inv, WellFormed, Layout, Represents;
      ghost var h0 := heap;
      IsCollectable(heap);
      ok := MainPass();
      if !ok {
        return;
      }
      ghost var h := heap;
      KeptElsewhere(h0, h);
      Forgotten(cells[..], h.mem, Finish(h).mem);
      ClearVacant(cells[..], Finish(h).mem, nursery.base, nursery.size);
      ClearCells(nursery.base, nursery.size);
      nursery := Region(nursery.base, nursery.size, nursery.base, nursery.size, 0);
      ClearVacant(cells[..], Finish(h).mem, survived.base, survived.size);
      ClearCells(survived.base, survived.size);
      survived, future := future, Region(survived.base, survived.size, survived.base, survived.size, 0);
      if tenured.size != 0 && tenured.free < SURVIVED_WORDS {
        full := true;
      }
      heap := Finish(h);
      MinorGcKeepsWellFormed(h0, heap);
    }

    lemma IsCollectable(h: Heap)
      requires WellFormed(h)
      ensures Collectable(h)
    {
    }

    /** Nothing that is kept lies in the spaces about to be reset. */
    lemma KeptElsewhere(h0: Heap, h: Heap)
      requires Inv(h0, h)
      ensures Vacant(Finish(h).mem, h.nursery.base, h.nursery.size)
      ensures Vacant(Finish(h).mem, h.survived.base, h.survived.size)
    {
      hide Tiled, Images, Accounts, OnlyReachable, Collectable;
      var m := Finish(h).mem;
      forall a | a in m
        ensures a + BlockWords(m[a]) <= h.nursery.base || h.nursery.base + h.nursery.size <= a
        ensures a + BlockWords(m[a]) <= h.survived.base || h.survived.base + h.survived.size <= a
      {
        if a in h.future.hdrs {
          Listed(h.mem, h.future, a);
        } else {
          Listed(h.mem, h.tenured, a);
        }
      }
    }
  
    /** `space_alloc` in the fresh space, and the stores that initialise the block. */
    method SpaceAlloc(bytes: nat, kind: Kind, data: seq<Word>) returns (r: Option<Addr>)
      requires Valid() && Layout(heap) && |data| == WordsFor(bytes)
      modifies this`nursery, this`heap, cells
      ensures Valid()
      ensures r.None? ==> 1 + |data| > heap.nursery.free && heap == old(heap)
      ensures r.Some? ==> && 1 + |data| <= old(heap).nursery.free && r.value == old(heap).nursery.pos
                          && heap == Allocate(old(heap), kind, data)
    {
      hide Layout;
      var size := WordsFor(bytes);
      var need := size + 1;
      if need > nursery.free {
        return None;
      }
      ghost var h := heap;
      ghost var c := cells[..];
      ghost var b := Block(kind, false, 0, false, data);
      var t := nursery.pos;
      VacantAtPos(h, h.nursery, need);
      NurseryInBounds(h, need);
      cells[t] := Hdr(kind, false, 0, false, size);
      for i := 0 to size
        invariant nursery == old(nursery) && heap == h && cells[t] == Hdr(kind, false, 0, false, size)
        invariant forall k | 0 <= k < i :: cells[t + 1 + k] == Val(data[k])
        invariant forall k | 0 <= k < cells.Length && !(t <= k < t + need) :: cells[k] == c[k]
      {
        cells[t + 1 + i] := Val(data[i]);
      }
      WriteBlock(c, cells[..], h.mem, t, b);
      nursery := nursery.(pos := t + need, free := nursery.free - need, blocks := nursery.blocks + 1);
      heap := Allocate(h, kind, data);
      return Some(t);
    }

    lemma NurseryInBounds(h: Heap, n: nat)
      requires Layout(h) && n <= h.nursery.free && RegionBounds(h)
      ensures 0 <= h.nursery.pos && h.nursery.pos + n <= cells.Length
    {
      hide Tiled;
      PosNotListed(h.mem, h.nursery, 0);
    }

    /** `heap_alloc`. The block may be initialised with addresses of the heap after the collection. */
    method Alloc(bytes: nat, kind: Kind, data: seq<Word>) returns (r: Option<Addr>)
      requires Valid() && WellFormed(heap) && !full && |data| == WordsFor(bytes)
      modifies this, cells
      ensures r.None? <==> HeapAlloc(old(heap), kind, data).None?
      ensures r.Some? ==> Valid() && HeapAlloc(old(heap), kind, data) == Some(heap)
      ensures r.Some? ==> r.value in heap.mem && heap.mem[r.value] == Block(kind, false, 0, false, data)
      ensures r.Some? ==> heap.nursery.hdrs != [] && heap.nursery.hdrs[|heap.nursery.hdrs| - 1] == r.value
    {
      hide WellFormed, Layout, MinorGc, Represents, RegionBounds;
      IsCollectable(heap);
      r := SpaceAlloc(bytes, kind, data);
      if r.None? {
        var ok := Collect();
        if ok {
          IsCollectable(heap);
          r := SpaceAlloc(bytes, kind, data);
        }
      }
    }

    /** `heap_require_blocks`. */
    method Require(bytes: nat, count: nat) returns (ok: bool)
      requires Valid() && WellFormed(heap) && !full
      modifies this, cells
      ensures ok <==> RequireBlocks(old(heap), bytes, count).Some?
      ensures ok ==> Valid() && RequireBlocks(old(heap), bytes, count) == Some(heap) && WellFormed(heap)
    {
      hide WellFormed, Layout, MinorGc, Represents, RegionBounds;
      var size := WordsFor(bytes) + 1;
      ok := true;
      if !(nursery.free > size * count + 1) {
        ok := Collect();
      }
    }
  
    // ----- heap_gc_old

    /** `memmove` of `n` cells to a lower address. */
    method MoveCells(t: Addr, a: Addr, n: nat)
      requires 0 <= t <= a && a + n <= cells.Length
      modifies cells
      ensures cells[..] == AfterCopy(old(cells[..]), a, t, n)
    {
      hide AfterCopy;
      ghost var was := cells[..];
      CopyNothing(was, a, t);
      for i := 0 to n
        invariant cells[..] == AfterCopy(was, a, t, i)
      {
        CopyOneMore(was, a, t, i);
        cells[t + i] := cells[a + i];
      }
    }

    /** The first loop: the marked blocks of the old space, found by walking its headers. */
    method CollectLive() returns (live: seq<Addr>)
      requires Valid() && Layout(heap)
      ensures live == LiveHdrs(heap.mem, heap.tenured.hdrs)
    {
      hide Layout, Represents, RegionBounds;
      TenuredStart(heap);
      live := [];
      var i, hdr := 0, tenured.base;
      while i < tenured.blocks
        invariant i <= |heap.tenured.hdrs| && At(heap.tenured, i, hdr)
        invariant live == LiveHdrs(heap.mem, heap.tenured.hdrs[..i])
      {
        TenuredWalk(heap, heap, i);
        var h := Header(hdr);
        if h.remembered {
          live := live + [hdr];
        }
        assert heap.tenured.hdrs[..i + 1][..i] == heap.tenured.hdrs[..i];
        hdr := NextHdr(hdr);
        i := i + 1;
      }
      assert heap.tenured.hdrs[..i] == heap.tenured.hdrs;
    }

    lemma TenuredStart(h: Heap)
      requires Layout(h)
      ensures At(h.tenured, 0, h.tenured.base)
    {
    }

    /** One turn of the second loop, without the address map. */
    method SlideBlock(a: Addr, ghost moved: map<Addr, Addr>, ghost rest: seq<Addr>) returns (t: Addr)
      requires Valid() && Slidable(Compacting(heap, moved), [a] + rest) && 0 <= tenured.base
      modifies this`tenured, this`list, this`heap, cells
      ensures Valid() && t == old(tenured.pos)
      ensures a in old(heap).mem && BlockWords(old(heap).mem[a]) <= old(heap).tenured.free
      ensures Compacting(heap, moved[a := t]) == SlideOne(Compacting(old(heap), moved), a)
    {
      hide Slidable, AfterCopy, Vacant;
      ghost var h := heap;
      SlideRoom(h, moved, a, rest);
      ghost var b := h.mem[a].(remembered := false);
      ghost var m1 := h.mem[a := b];
      assert Stored(cells[..], a, h.mem[a]);
      var need := cells[a].size + 1;
      WriteHeader(a, cells[a].(remembered := false), h.mem, b);
      t := tenured.pos;
      assert m1 - {a} == h.mem - {a};
      MoveBlock(cells[..], m1, a, t);
      MoveCells(t, a, need);
      tenured := tenured.(pos := t + need, free := tenured.free - need, blocks := tenured.blocks + 1);
      list := list + [t];
      heap := SlideOne(Compacting(h, moved), a).h;
    }

    lemma SlideRoom(h: Heap, moved: map<Addr, Addr>, a: Addr, rest: seq<Addr>)
      requires Slidable(Compacting(h, moved), [a] + rest)
      ensures a in h.mem && h.tenured.pos <= a && BlockWords(h.mem[a]) <= h.tenured.free
      ensures h.tenured.base <= h.tenured.pos
      ensures Vacant(h.mem - {a}, h.tenured.pos, BlockWords(h.mem[a]))
    {
      var live := [a] + rest;
      assert live[0] == a;
      forall d | d in h.mem - {a}
        ensures d + BlockWords(h.mem[d]) <= h.tenured.pos || h.tenured.pos + BlockWords(h.mem[a]) <= d
      {
        if d in rest {
          var k :| 0 <= k < |rest| && rest[k] == d;
          assert live[k + 1] == d;
          assert live[0] + BlockWords(h.mem[live[0]]) <= live[k + 1];
        }
      }
    }

    /** One turn of the second loop: the move, and the new entry of the address map. */
    method SlideNext(a: Addr, ghost rest: seq<Addr>, tbl: HashTable.Table<Addr, Addr>)
      requires Valid() && Slidable(Compacting(heap, tbl.contents), [a] + rest) && 0 <= tenured.base
      requires tbl.Valid() && tbl.hash == DirectHash && tbl.equal == DirectEqual
      requires this !in tbl.Repr() && cells !in tbl.Repr()
      modifies this`tenured, this`list, this`heap, cells, tbl.Repr()
      ensures Valid() && tenured.base == old(tenured.base)
      ensures tbl.Valid() && fresh(tbl.Repr() - old(tbl.Repr()))
      ensures var c := Compacting(old(heap), old(tbl.contents));
              && a in c.h.mem && BlockWords(c.h.mem[a]) <= c.h.tenured.free
              && Compacting(heap, tbl.contents) == SlideOne(c, a) && Slidable(SlideOne(c, a), rest)
    {
      hide Represents, Slidable, SlideOne, RegionBounds, HashTable.Table.Heads, HashTable.Table.Links,
           HashTable.Table.Sorted, HashTable.Table.Holds, HashTable.Table.Equivalence, HashTable.Table.Economical,
           HashTable.InsertStep, HashTable.NeedsResize, HashTable.IsClosest;
      ghost var c := Compacting(heap, tbl.contents);
      assert ([a] + rest)[1..] == rest;
      SlideStep(c, [a] + rest);
      ghost var repr := tbl.Repr();
      var t := SlideBlock(a, tbl.contents, rest);
      assert tbl.Repr() == repr && tbl.Valid();
      tbl.Insert(a, t);
      assert tbl.contents == c.moved[a := t];
      SlideBase(c, a);
    }

    lemma SlideBase(c: Compacting, a: Addr)
      requires a in c.h.mem && BlockWords(c.h.mem[a]) <= c.h.tenured.free
      ensures SlideOne(c, a).h.tenured.base == c.h.tenured.base
    {
    }

    /** `heap_gc_old`: slides the marked blocks down and returns the address map. */
    method CompactOld() returns (tbl: HashTable.Table<Addr, Addr>)
      requires Valid() && Layout(heap) && heap.tenured.size != 0
      modifies this`tenured, this`list, this`heap, cells
      ensures fresh(tbl.Repr()) && tbl.Valid()
      ensures Valid() && Compact(old(heap)) == Some(Compacting(heap, tbl.contents))
    {
      hide Layout, Represents, Slidable, SlideOne, RegionBounds;
      ghost var h0 := heap;
      var live := CollectLive();
      ResetOld(live);
      tbl := new HashTable.Table<Addr, Addr>(DirectHash, DirectEqual, false);
      SlideAll(live, tbl);
    }

    method SlideAll(live: seq<Addr>, tbl: HashTable.Table<Addr, Addr>)
      requires Valid() && Slidable(Compacting(heap, tbl.contents), live) && 0 <= tenured.base
      requires tbl.Valid() && tbl.hash == DirectHash && tbl.equal == DirectEqual
      requires this !in tbl.Repr() && cells !in tbl.Repr()
      modifies this`tenured, this`list, this`heap, cells, tbl.Repr()
      ensures Valid() && tbl.Valid() && fresh(tbl.Repr() - old(tbl.Repr()))
      ensures Slide(Compacting(old(heap), old(tbl.contents)), live) == Some(Compacting(heap, tbl.contents))
    {
      hide Represents, Slidable, SlideOne, RegionBounds, HashTable.Table.Heads, HashTable.Table.Links,
           HashTable.Table.Sorted, HashTable.Table.Holds, HashTable.Table.Equivalence;
      ghost var rest := live;
      var k := 0;
      while k < |live|
        invariant k <= |live| && rest == live[k..]
        invariant Valid() && Slidable(Compacting(heap, tbl.contents), rest) && 0 <= tenured.base
        invariant tbl.Valid() && fresh(tbl.Repr() - old(tbl.Repr()))
        invariant Slide(Compacting(old(heap), old(tbl.contents)), live) == Slide(Compacting(heap, tbl.contents), rest)
      {
        FirstAndRest(rest);
        ghost var repr := tbl.Repr();
        SlideNext(live[k], rest[1..], tbl);
        assert forall o | o in tbl.Repr() :: o in repr || o !in old(tbl.Repr());
        rest := rest[1..];
        k := k + 1;
      }
    }

    lemma FirstAndRest(s: seq<Addr>)
      requires s != []
      ensures s == [s[0]] + s[1..]
    {
    }

    /** `space_reset` of the old space. */
    method ResetOld(ghost live: seq<Addr>)
      requires Valid() && Layout(heap) && heap.tenured.size != 0
      requires live == LiveHdrs(heap.mem, heap.tenured.hdrs)
      modifies this`tenured, this`heap
      ensures Valid() && heap == Reset(old(heap)) && 0 <= tenured.base && Slidable(Compacting(heap, map[]), live)
    {
      hide Layout, Represents, Slidable;
      ResetSlidable(heap);
      Forgotten(cells[..], heap.mem, Reset(heap).mem);
      TenuredBase(heap);
      tenured := Region(tenured.base, tenured.size, tenured.base, tenured.size, 0);
      heap := Reset(heap);
    }

    lemma TenuredBase(h: Heap)
      requires Layout(h) && RegionBounds(h) && h.tenured.size != 0
      ensures 0 <= h.tenured.base
    {
    }
  }

  /** `direct_hash`: an address cut to 32 bits. */
  function DirectHash(a: Addr): nat { if a >= 0 then a % 0x1_0000_0000 else 0 }

  predicate DirectEqual(a: Addr, b: Addr) { a == b }
}
