/** `heap_alloc` and `heap_require_blocks`. */
module HeapReserve {
  import opened Wrappers
  import opened HeapModel
  import opened HeapInvariant
  import opened HeapCollect
  import opened HeapTheorems
  import opened HeapBudget
  import opened HeapRuns

  /** `align_up(bytes, 8)` in words. */
  function WordsFor(bytes: nat): nat { (bytes + 7) / 8 }

  /** `heap_gc` while no full collection is scheduled. */
  function Gc(h: Heap): Option<Heap> { if h.full then None else MinorGc(h) }

  function HeapAlloc(h: Heap, kind: Kind, data: seq<Word>): Option<Heap> {
    if 1 + |data| <= h.nursery.free then Some(Allocate(h, kind, data)) else
    var h1 :- Gc(h);
    if 1 + |data| <= h1.nursery.free then Some(Allocate(h1, kind, data)) else None
  }

  /** `heap_require_blocks(heap, bytes, count)`. */
  function RequireBlocks(h: Heap, bytes: nat, count: nat): Option<Heap> {
    var size := WordsFor(bytes) + 1;
    if h.nursery.free > size * count + 1 then Some(h) else Gc(h)
  }

  function AllocAll(h: Heap, kind: Kind, ds: seq<seq<Word>>): Option<Heap>
    decreases |ds|
  {
    if ds == [] then Some(h) else
    var h1 :- HeapAlloc(h, kind, ds[0]);
    AllocAll(h1, kind, ds[1..])
  }

  /** No block moved, died or changed, and nothing but the fresh space was touched. */
  ghost predicate Undisturbed(h: Heap, h': Heap) {
    && h' == h.(mem := h'.mem, nursery := h'.nursery)
    && h.nursery.hdrs <= h'.nursery.hdrs
    && forall a | a in h.mem :: a in h'.mem && h'.mem[a] == h.mem[a]
  }

  /** The words of `count` blocks with `n` words of data each. */
  function Words(count: nat, n: nat): nat { count * (n + 1) }

  lemma OneBlockMore(count: nat, n: nat)
    requires count > 0
    ensures Words(count, n) == Words(count - 1, n) + n + 1
  {
    assert count * (n + 1) == (count - 1) * (n + 1) + (n + 1);
  }

  lemma {:induction false} AllocAllFits(h: Heap, kind: Kind, ds: seq<seq<Word>>, n: nat)
    requires Layout(h) && MinWords(kind) <= n && (forall d | d in ds :: |d| == n) && Words(|ds|, n) <= h.nursery.free
    ensures AllocAll(h, kind, ds).Some? && Undisturbed(h, AllocAll(h, kind, ds).value)
    ensures AllocAll(h, kind, ds).value.nursery.free == h.nursery.free - Words(|ds|, n)
    ensures |AllocAll(h, kind, ds).value.nursery.hdrs| == |h.nursery.hdrs| + |ds|
    decreases |ds|
  {
    hide Layout, Words;
    if ds == [] {
      assert Words(0, n) == 0 by {
        NoWords(n);
      }
    } else {
      OneBlockMore(|ds|, n);
      assert |ds[0]| == n;
      var h1 := Allocate(h, kind, ds[0]);
      NurseryPosUnused(h);
      AllocateKeepsLayout(h, kind, ds[0]);
      assert forall d | d in ds[1..] :: d in ds;
      AllocAllFits(h1, kind, ds[1..], n);
    }
  }

  lemma NoWords(n: nat)
    ensures Words(0, n) == 0
  {
  }

  lemma AllocateKeepsLayout(h: Heap, kind: Kind, data: seq<Word>)
    requires Layout(h) && MinWords(kind) <= |data| && 1 + |data| <= h.nursery.free
    ensures Layout(Allocate(h, kind, data))
  {
    hide Tiled;
    var h' := Allocate(h, kind, data);
    NurseryPosUnused(h);
    TiledBump(h.mem, h'.mem, h.nursery, h.nursery.pos);
    TiledKept(h.mem, h'.mem, h.survived);
    TiledKept(h.mem, h'.mem, h.future);
    TiledKept(h.mem, h'.mem, h.tenured);
    AllocateLayout(h, h', h.nursery.pos);
  }

  /**
   After `heap_require_blocks(bytes, count)`, `count` allocations of that size trigger no collection, so a raw
   pointer into a block stays good; the request has to fit into the fresh space at all.
   */
  lemma Reservation(h: Heap, bytes: nat, count: nat, h1: Heap, kind: Kind, ds: seq<seq<Word>>)
    requires WellFormed(h) && RequireBlocks(h, bytes, count) == Some(h1)
    requires count * (WordsFor(bytes) + 1) <= FRESH_WORDS
    requires |ds| == count && (forall d | d in ds :: |d| == WordsFor(bytes)) && MinWords(kind) <= WordsFor(bytes)
    ensures AllocAll(h1, kind, ds).Some? && Undisturbed(h1, AllocAll(h1, kind, ds).value)
  {
    hide MinorGc, Layout, Undisturbed;
    var size := WordsFor(bytes) + 1;
    assert size * count == count * size;
    if h.nursery.free <= size * count + 1 {
      MinorGcKeepsWellFormed(h, h1);
      EmptyNursery(h, h1);
    }
    AllocAllFits(h1, kind, ds, WordsFor(bytes));
  }

  lemma EmptyNursery(h: Heap, h1: Heap)
    requires MinorGc(h) == Some(h1) && WellFormed(h1)
    ensures h1.nursery.free == FRESH_WORDS
  {
    hide Tiled;
  }

  /** The new block is the last of the fresh space, at an address without a block; all the rest is `h`. */
  ghost predicate PutLast(h: Heap, h': Heap, kind: Kind, data: seq<Word>) {
    var t := h.nursery.pos;
    && t !in h.mem
    && h'.mem.Keys == h.mem.Keys + {t}
    && h'.mem[t] == Block(kind, false, 0, false, data)
    && (forall a | a in h.mem :: h'.mem[a] == h.mem[a])
    && h'.nursery.hdrs == h.nursery.hdrs + [t]
    && h'.nursery.pos == t + 1 + |data| && h'.nursery.free + 1 + |data| == h.nursery.free
    && h'.nursery.base == h.nursery.base && h'.nursery.size == h.nursery.size
    && h'.survived == h.survived && h'.future == h.future && h'.tenured == h.tenured && h'.oldBase == h.oldBase
    && h'.roots == h.roots && h'.list == h.list && h'.full == h.full
  }

  /** The collection in between renamed the reachable graph of `h`, and left nothing else. */
  ghost predicate Collected(h: Heap, h1: Heap) {
    && MinorGc(h) == Some(h1) && WellFormed(h1) && GcMain(h).Some?
    && Isomorphism(h, h1, Renaming(h, GcMain(h).value))
    && Onto(h1, Renaming(h, GcMain(h).value)) && Rebases(h, h1, Renaming(h, GcMain(h).value))
  }

  lemma AllocatePutsLast(h: Heap, kind: Kind, data: seq<Word>)
    requires Layout(h) && 1 + |data| <= h.nursery.free
    ensures PutLast(h, Allocate(h, kind, data), kind, data)
  {
    hide Layout;
    NurseryPosUnused(h);
  }

  /**
   Without room, `heap_alloc` collects and tries again: it fails when the survivors or the block do not fit their space of
   128 kB.
   */
  lemma HeapAllocSucceedsIff(h: Heap, kind: Kind, data: seq<Word>)
    requires WellFormed(h) && !h.full
    ensures HeapAlloc(h, kind, data).Some? <==>
            || 1 + |data| <= h.nursery.free
            || (8 * SurvivorWords(h) <= 128 * 1024 && 8 * (1 + |data|) <= 128 * 1024)
  {
    hide WellFormed, MinorGc, SurvivorWords;
    MinorGcAbortsIff(h);
    if MinorGc(h).Some? {
      MinorGcKeepsWellFormed(h, MinorGc(h).value);
      EmptyNursery(h, MinorGc(h).value);
    }
  }

  /** What a successful `heap_alloc` leaves: the block, and otherwise the old heap or, after a collection, its image. */
  lemma HeapAllocGives(h: Heap, kind: Kind, data: seq<Word>, h': Heap)
    requires WellFormed(h) && HeapAlloc(h, kind, data) == Some(h')
    ensures 1 + |data| <= h.nursery.free ==> PutLast(h, h', kind, data)
    ensures 1 + |data| > h.nursery.free ==> exists h1 :: Collected(h, h1) && PutLast(h1, h', kind, data)
  {
    hide WellFormed, MinorGc, PutLast, Isomorphism, Onto, Rebases, Allocate, GcMain;
    WellFormedLayout(h);
    if 1 + |data| <= h.nursery.free {
      AllocatePutsLast(h, kind, data);
    } else {
      var h1 := MinorGc(h).value;
      CollectedBy(h, h1);
      WellFormedLayout(h1);
      AllocatePutsLast(h1, kind, data);
      assert Collected(h, h1);
    }
  }

  lemma WellFormedLayout(h: Heap)
    requires WellFormed(h)
    ensures Layout(h)
  {
    hide Layout;
  }

  lemma CollectedBy(h: Heap, h1: Heap)
    requires WellFormed(h) && !h.full && MinorGc(h) == Some(h1)
    ensures Collected(h, h1)
  {
    hide WellFormed, Isomorphism, Onto, Rebases, GcMain;
    MinorGcKeepsWellFormed(h, h1);
    MinorGcIsIsomorphism(h, h1);
  }

  /** `heap_require_blocks` leaves a heap with more than enough room alone; otherwise it collects. */
  lemma RequireBlocksCollectsIff(h: Heap, bytes: nat, count: nat)
    requires WellFormed(h) && !h.full
    ensures WordsFor(bytes) * 8 - 8 < bytes <= WordsFor(bytes) * 8
    ensures Words(count, WordsFor(bytes)) + 1 < h.nursery.free ==> RequireBlocks(h, bytes, count) == Some(h)
    ensures Words(count, WordsFor(bytes)) + 1 >= h.nursery.free ==>
              match RequireBlocks(h, bytes, count)
              case Some(h1) => Collected(h, h1) && h1.nursery == EmptySpace(h.nursery.base, FRESH_WORDS)
              case None => SurvivorWords(h) > SURVIVED_WORDS
  {
    hide WellFormed, MinorGc, SurvivorWords, Collected;
    var size := WordsFor(bytes) + 1;
    assert size * count == count * size;
    MinorGcAbortsIff(h);
    if MinorGc(h).Some? {
      CollectedBy(h, MinorGc(h).value);
      NurseryReset(h, MinorGc(h).value);
    }
  }

  lemma NurseryReset(h: Heap, h1: Heap)
    requires WellFormed(h) && Collected(h, h1)
    ensures h1.nursery == EmptySpace(h.nursery.base, FRESH_WORDS)
  {
    hide Tiled, Isomorphism, Onto, Rebases, Renaming, GcMain, Images, Accounts, OnlyReachable;
    GcMainKeeps(h, GcMain(h).value);
    EmptyNursery(h, h1);
  }
}
