/** Whole runs: allocation, mutation and minor collections, one after another. */
module HeapRuns {
  import opened Wrappers
  import opened HeapModel
  import opened HeapInvariant
  import opened HeapScan
  import opened HeapCollect
  import opened HeapTheorems
  import opened HeapBudget

  // ----- between collections

  ghost predicate Ages(h: Heap) {
    && (forall a | a in h.nursery.hdrs :: a in h.mem && h.mem[a].gen == 0)
    && (forall a | a in h.survived.hdrs :: a in h.mem && 1 <= h.mem[a].gen <= PROMOTION_AGE)
    && (forall a | a in h.tenured.hdrs :: a in h.mem && h.mem[a].gen == 0)
  }

  predicate TenuredIsTight(h: Heap) { h.tenured.size != 0 && h.tenured.free < SURVIVED_WORDS }

  ghost predicate WellFormed(h: Heap) {
    && Collectable(h)
    && Ages(h)
    && (forall a | a in h.mem :: Based(h, a))
    && (h.full <==> TenuredIsTight(h))
  }

  // ----- heap_gc when no full collection is due

  function Kept(h: Heap): set<Addr> { set a | a in h.mem && (a in h.future.hdrs || a in h.tenured.hdrs) }

  /** The end of `heap_gc`: the two emptied spaces are reset and the survivor spaces change roles. */
  function Finish(h: Heap): Heap {
    h.(mem := map a | a in Kept(h) :: h.mem[a],
       nursery := EmptySpace(h.nursery.base, h.nursery.size),
       survived := h.future,
       future := EmptySpace(h.survived.base, h.survived.size),
       full := h.full || TenuredIsTight(h))
  }

  function MinorGc(h: Heap): Option<Heap> {
    var h1 :- GcMain(h);
    Some(Finish(h1))
  }

  lemma FinishLayout(h0: Heap, h: Heap)
    requires Inv(h0, h)
    ensures Layout(Finish(h))
  {
    var h' := Finish(h);
    assert forall a | a in h.future.hdrs || a in h.tenured.hdrs :: a in h'.mem && h'.mem[a] == h.mem[a];
    TiledRestrict(h.mem, h'.mem, h.future);
    TiledRestrict(h.mem, h'.mem, h.tenured);
    FinishParts(h, h');
  }

  lemma FinishParts(h: Heap, h': Heap)
    requires Layout(h) && h' == Finish(h) && Tiled(h'.mem, h.future) && Tiled(h'.mem, h.tenured)
    ensures Layout(h')
  {
    hide Tiled;
    EmptyTiled(h'.mem, h.nursery.base, h.nursery.size);
    EmptyTiled(h'.mem, h.survived.base, h.survived.size);
  }

  lemma EmptyTiled(m: map<Addr, Block>, base: Addr, size: nat)
    ensures Tiled(m, EmptySpace(base, size))
  {
  }

  lemma TiledRestrict(m: map<Addr, Block>, m': map<Addr, Block>, s: Space)
    requires Tiled(m, s)
    requires forall a | a in s.hdrs :: a in m' && m'[a] == m[a]
    ensures Tiled(m', s)
  {
  }

  /** The generation of every kept block. */
  lemma KeptAge(h0: Heap, h: Heap, t: Addr)
    requires Inv(h0, h) && Ages(h0) && !h0.full && t in Kept(h)
    ensures !h.mem[t].forward && !h.mem[t].remembered
    ensures t in h.future.hdrs ==> 1 <= h.mem[t].gen <= PROMOTION_AGE
    ensures t in h.tenured.hdrs ==> h.mem[t].gen == 0
  {
    hide Tiled, Accounts, WordImage;
    QueueLive(h0, h, t);
    var a := Origin(h0, h, t);
    InSpaceIsListed(h0, a);
    InSpaceIsListed(h, t);
    NotForwarded(h0, h, t);
  }

  lemma MinorGcKeepsWellFormed(h: Heap, h': Heap)
    requires WellFormed(h) && !h.full && MinorGc(h) == Some(h')
    ensures WellFormed(h')
  {
    hide Inv, Covered, Layout, GcMain, Settled, Reachable;
    var h1 := GcMain(h).value;
    GcMainKeeps(h, h1);
    SameFull(h, h1);
    FinishLayout(h, h1);
    MinorCollectionSettles(h, h1);
    forall t | t in Kept(h1)
      ensures !h1.mem[t].forward && !h1.mem[t].remembered && h1.mem[t].gen <= PROMOTION_AGE && Based(h', t)
      ensures t in h1.future.hdrs ==> 1 <= h1.mem[t].gen <= PROMOTION_AGE
      ensures t in h1.tenured.hdrs ==> h1.mem[t].gen == 0
    {
      KeptAge(h, h1, t);
    }
    FinishAges(h1, h');
    FinishCollectable(h, h1, h');
  }

  lemma FinishAges(h: Heap, h': Heap)
    requires h' == Finish(h)
    requires forall t | t in h.future.hdrs || t in h.tenured.hdrs :: t in h.mem
    requires forall t | t in Kept(h) ::
               && (t in h.future.hdrs ==> 1 <= h.mem[t].gen <= PROMOTION_AGE)
               && (t in h.tenured.hdrs ==> h.mem[t].gen == 0)
    ensures Ages(h')
  {
    assert forall a | a in h.future.hdrs || a in h.tenured.hdrs :: a in Kept(h);
  }

  lemma FinishCollectable(h0: Heap, h: Heap, h': Heap)
    requires Inv(h0, h) && h' == Finish(h) && !h.full && Layout(h') && h.list == []
    requires forall t | t in Kept(h) :: !h.mem[t].forward && !h.mem[t].remembered && h.mem[t].gen <= PROMOTION_AGE
    requires forall j | 0 <= j < |h.roots| :: Settled(h, h.roots[j])
    requires forall t | t in h.future.hdrs || t in h.tenured.hdrs :: t in h.mem &&
              forall i | 0 <= i < |h.mem[t].data| && IsSlot(h.mem[t].kind, |h.mem[t].data|, i) :: Settled(h, h.mem[t].data[i])
    ensures Collectable(h')
  {
    hide Images, OnlyReachable, Accounts, Collectable, Tiled;
    assert h'.future == EmptySpace(h'.future.base, SURVIVED_WORDS);
    assert forall a | a in h.future.hdrs || a in h.tenured.hdrs :: a in Kept(h);
    forall a, b | Edge(h', a, b) ensures b in h'.mem {
      var i :| 0 <= i < |h'.mem[a].data| && IsSlot(h'.mem[a].kind, |h'.mem[a].data|, i) && h'.mem[a].data[i] == Ptr(b);
      assert Settled(h, h.mem[a].data[i]);
    }
    CollectableParts(h');
  }

  lemma CollectableParts(h: Heap)
    requires Layout(h) && h.future == EmptySpace(h.future.base, SURVIVED_WORDS) && h.list == []
    requires forall a | a in h.mem :: !h.mem[a].forward && !h.mem[a].remembered && h.mem[a].gen <= PROMOTION_AGE
    requires forall a, b | Edge(h, a, b) :: b in h.mem
    requires forall i | 0 <= i < |h.roots| && h.roots[i].Ptr? :: h.roots[i].a in h.mem
    ensures Collectable(h)
  {
    hide Layout;
  }

  // ----- when a minor collection aborts

  lemma TiledWeight(m: map<Addr, Block>, s: Space, hs: seq<Addr>, sel: set<Addr>)
    requires Tiled(m, s) && hs <= s.hdrs
    ensures Weight(m, hs, sel) <= if hs == s.hdrs then s.pos - s.base else s.hdrs[|hs|] - s.base
    decreases |hs|
  {
    if hs != [] {
      var n := |hs| - 1;
      assert hs[n] == s.hdrs[n];
      TiledWeight(m, s, hs[..n], sel);
    }
  }

  lemma WeightSplit(m: map<Addr, Block>, hs: seq<Addr>, ks: seq<Addr>, sel: set<Addr>)
    ensures Weight(m, hs + ks, sel) == Weight(m, hs, sel) + Weight(m, ks, sel)
    decreases |ks|
  {
    if ks == [] {
      assert hs + ks == hs;
    } else {
      var n := |ks| - 1;
      assert (hs + ks)[..|hs + ks| - 1] == hs + ks[..n];
      WeightSplit(m, hs, ks[..n], sel);
    }
  }

  lemma WeightDisjoint(m: map<Addr, Block>, hs: seq<Addr>, sel: set<Addr>)
    requires forall a | a in hs :: a !in sel
    ensures Weight(m, hs, sel) == 0
  {
  }

  /** Promotion never exhausts the old space: only the survivor space holds veterans, and it is that large. */
  lemma VeteransFit(h: Heap)
    requires WellFormed(h) && !h.full
    ensures Weight(h.mem, Young(h), Veterans(h)) <= SURVIVED_WORDS <= TenuredFree(h)
  {
    hide Tiled;
    WeightSplit(h.mem, h.nursery.hdrs, h.survived.hdrs, Veterans(h));
    WeightDisjoint(h.mem, h.nursery.hdrs, Veterans(h));
    TiledWeight(h.mem, h.survived, h.survived.hdrs, Veterans(h));
    PosNotListed(h.mem, h.survived, 0);
  }

  /** A full collection is due exactly when the old space might not take a survivor space full of veterans. */
  lemma FullIsDueIff(h: Heap)
    requires WellFormed(h)
    ensures h.full <==> TenuredFree(h) < SURVIVED_WORDS
  {
    hide Tiled;
  }

  /** A minor collection aborts exactly when its survivors overflow the survivor space. */
  lemma MinorGcAbortsIff(h: Heap)
    requires WellFormed(h) && !h.full
    ensures MinorGc(h).None? <==> SurvivorWords(h) > SURVIVED_WORDS
  {
    hide GcMain, Collectable, Reachable;
    VeteransFit(h);
    if SurvivorWords(h) <= SURVIVED_WORDS {
      GcMainTotal(h);
    } else if GcMain(h).Some? {
      SurvivorsFitted(h, GcMain(h).value);
    }
  }

  lemma SurvivorsFitted(h0: Heap, h: Heap)
    requires Collectable(h0) && !h0.full && Ages(h0) && GcMain(h0) == Some(h)
    ensures SurvivorWords(h0) <= SURVIVED_WORDS
  {
    hide GcMain, Tiled, Reachable, Covered;
    GcMainKeeps(h0, h);
    forall a ensures a in Young(h0) && a in Survivors(h0) ==> a in MovedSet(h0, h, false) {
      if a in Young(h0) && a in Survivors(h0) {
        CollectsExactly(h0, h, a);
        YoungIsMoved(h0, h, a);
      }
    }
    WeightOnList(h0.mem, Young(h0), Survivors(h0), MovedSet(h0, h, false));
  }

  lemma WeightOnList(m: map<Addr, Block>, hs: seq<Addr>, sel: set<Addr>, sel': set<Addr>)
    requires forall a | a in hs && a in sel :: a in sel'
    ensures Weight(m, hs, sel) <= Weight(m, hs, sel')
  {
  }

  lemma YoungIsMoved(h0: Heap, h: Heap, a: Addr)
    requires Inv(h0, h) && !h0.full && a in Young(h0) && a in h0.mem && Reached(h0, h, a)
    ensures Moved(h, a)
  {
    hide Tiled, Images, Accounts, OnlyReachable;
    InSpaceIsListed(h, a);
    InSpaceIsListed(h0, a);
  }

  // ----- the program sees no collection

  /** Every block of `h` is the image of a block that `f` renames. */
  ghost predicate Onto(h: Heap, f: map<Addr, Addr>) {
    forall t {:trigger t in h.mem} | t in h.mem :: exists a {:trigger a in f} :: a in f && f[a] == t
  }

  /** Whatever is left after the main pass came from a reachable block. */
  lemma KeptHasSource(h0: Heap, h: Heap, t: Addr) returns (a: Addr)
    requires Inv(h0, h) && !h0.full && GcMain(h0) == Some(h) && t in Kept(h)
    ensures a in Renaming(h0, h) && Renaming(h0, h)[a] == t
  {
    hide GcMain, Reachable, Collectable, Layout, Accounts, WordImage, OldBlock;
    if t in h0.mem {
      a := t;
      StaysInPlace(h0, h, t);
    } else {
      assert HasOrigin(h0, h, t);
      a :| a in h0.mem && Moved(h, a) && Image(h, a) == t;
    }
  }

  lemma StaysInPlace(h0: Heap, h: Heap, t: Addr)
    requires Inv(h0, h) && !h0.full && t in Kept(h) && t in h0.mem
    ensures Live(h, t) && Image(h, t) == t
  {
    hide Tiled, Reachable, Accounts, WordImage;
    assert OldBlock(h0, h, t);
    InSpaceIsListed(h0, t);
    InSpaceIsListed(h, t);
  }

  /**
   A whole minor collection, resets and role swap included, renames the reachable graph, and leaves nothing else. The
   old space counts as roots.
   */
  lemma MinorGcIsIsomorphism(h: Heap, h': Heap)
    requires WellFormed(h) && !h.full && MinorGc(h) == Some(h')
    ensures Isomorphism(h, h', Renaming(h, GcMain(h).value))
    ensures Onto(h', Renaming(h, GcMain(h).value)) && Rebases(h, h', Renaming(h, GcMain(h).value))
  {
    hide GcMain, Collectable, Reachable, Inv, Covered, SameBlock, Based;
    var h1 := GcMain(h).value;
    GcMainKeeps(h, h1);
    CollectionIsIsomorphism(h, h1);
    SameFull(h, h1);
    var f := Renaming(h, h1);
    forall a | a in f ensures f[a] in h'.mem && h'.mem[f[a]] == h1.mem[f[a]] {
      ImageBlack(h, h1, a);
    }
    forall t | t in h'.mem ensures exists a :: a in f && f[a] == t {
      var a := KeptHasSource(h, h1, t);
    }
  }

  /** The block found from root `j` by following the given slots. */
  function Follow(h: Heap, j: nat, path: seq<nat>): Option<Addr>
    decreases |path|
  {
    if path == [] then
      if j < |h.roots| && h.roots[j].Ptr? then Some(h.roots[j].a) else None
    else
      var a :- Follow(h, j, path[..|path| - 1]);
      var i := path[|path| - 1];
      if a in h.mem && i < |h.mem[a].data| && IsSlot(h.mem[a].kind, |h.mem[a].data|, i) && h.mem[a].data[i].Ptr?
      then Some(h.mem[a].data[i].a) else None
  }

  lemma FollowRenamed(h: Heap, h': Heap, f: map<Addr, Addr>, j: nat, path: seq<nat>)
    requires Isomorphism(h, h', f)
    ensures Follow(h, j, path).Some? ==> Follow(h, j, path).value in f
    ensures Follow(h', j, path) ==
            if Follow(h, j, path).Some? then Some(f[Follow(h, j, path).value]) else None
    decreases |path|
  {
    hide Reachable;
    if path == [] {
      if j < |h.roots| && h.roots[j].Ptr? {
        ReachableRoot(h, h.roots[j].a);
      }
    } else {
      var p := path[..|path| - 1];
      FollowRenamed(h, h', f, j, p);
      if Follow(h, j, p).Some? {
        FollowStep(h, h', f, Follow(h, j, p).value, path[|path| - 1]);
      }
    }
  }

  lemma FollowStep(h: Heap, h': Heap, f: map<Addr, Addr>, a: Addr, i: nat)
    requires Isomorphism(h, h', f) && a in f
    ensures a in h.mem && f[a] in h'.mem && SlotAt(h, a, i) == SlotAt(h', f[a], i)
    ensures SlotAt(h, a, i) ==>
              h'.mem[f[a]].data[i].Ptr? == h.mem[a].data[i].Ptr? &&
              (h.mem[a].data[i].Ptr? ==>
                 h.mem[a].data[i].a in f && h'.mem[f[a]].data[i].a == f[h.mem[a].data[i].a])
  {
    hide Reachable;
    assert SameBlock(f, h.mem[a], h'.mem[f[a]], f[a]);
    if SlotAt(h, a, i) && h.mem[a].data[i].Ptr? {
      assert Edge(h, a, h.mem[a].data[i].a);
      ReachableStep(h, a, h.mem[a].data[i].a);
    }
  }

  /** No access path tells the two heaps apart: it leads to the renamed block, or nowhere in both. */
  lemma MinorGcIsTransparent(h: Heap, h': Heap, j: nat, path: seq<nat>)
    requires WellFormed(h) && !h.full && MinorGc(h) == Some(h')
    ensures var f := Renaming(h, GcMain(h).value);
            match Follow(h, j, path)
            case None => Follow(h', j, path) == None
            case Some(a) => a in f && Follow(h', j, path) == Some(f[a]) &&
                            a in h.mem && f[a] in h'.mem && SameBlock(f, h.mem[a], h'.mem[f[a]], f[a])
  {
    hide GcMain, WellFormed, Reachable, SameBlock;
    MinorGcIsIsomorphism(h, h');
    FollowRenamed(h, h', Renaming(h, GcMain(h).value), j, path);
  }

  // ----- runs

  datatype Event =
    | Allocates(kind: Kind, data: seq<Word>)
    | Stores(a: Addr, i: nat, w: Word)
    | SetsRoots(rs: seq<Word>)
    | Collects

  ghost predicate Resolves(h: Heap, w: Word) { w.Ptr? ==> w.a in h.mem }

  /** `space_alloc` in the fresh space, followed by the stores that initialise the block. */
  function Allocate(h: Heap, kind: Kind, data: seq<Word>): Heap
    requires 1 + |data| <= h.nursery.free
  {
    var b := Block(kind, false, 0, false, data);
    h.(mem := h.mem[h.nursery.pos := b], nursery := Bump(h.nursery, BlockWords(b)))
  }

  ghost predicate Legal(h: Heap, e: Event) {
    match e
    case Allocates(kind, data) =>
      && 1 + |data| <= h.nursery.free && MinWords(kind) <= |data|
      && (forall i | 0 <= i < |data| && IsSlot(kind, |data|, i) :: Resolves(h, data[i]))
      && (HasInterior(kind) ==> data[InteriorWord(kind)] == Interior(kind, h.nursery.pos))
    case Stores(a, i, w) => SlotAt(h, a, i) && Resolves(h, w)
    case SetsRoots(rs) => forall w | w in rs :: Resolves(h, w)
    case Collects => !h.full
  }

  function Step(h: Heap, e: Event): Option<Heap> {
    match e
    case Allocates(kind, data) => if 1 + |data| <= h.nursery.free then Some(Allocate(h, kind, data)) else None
    case Stores(a, i, w) => if a in h.mem && i < |h.mem[a].data| then Some(SetSlot(h, a, i, w)) else None
    case SetsRoots(rs) => Some(h.(roots := rs))
    case Collects => MinorGc(h)
  }

  /** The heap after the events, if each is legal when it happens and no collection aborts. */
  ghost function Run(h: Heap, es: seq<Event>): Option<Heap>
    decreases |es|
  {
    if es == [] then Some(h)
    else if !Legal(h, es[0]) then None
    else
      var h1 :- Step(h, es[0]);
      Run(h1, es[1..])
  }

  lemma AllocateKeeps(h: Heap, kind: Kind, data: seq<Word>)
    requires WellFormed(h) && Legal(h, Allocates(kind, data))
    ensures WellFormed(Allocate(h, kind, data))
    ensures h.nursery.pos !in h.mem
  {
    hide Tiled, Reachable;
    var h' := Allocate(h, kind, data);
    var t := h.nursery.pos;
    NurseryPosUnused(h);
    TiledBump(h.mem, h'.mem, h.nursery, t);
    TiledKept(h.mem, h'.mem, h.survived);
    TiledKept(h.mem, h'.mem, h.future);
    TiledKept(h.mem, h'.mem, h.tenured);
    AllocateLayout(h, h', t);
    AllocateRest(h, kind, data);
  }

  lemma NurseryPosUnused(h: Heap)
    requires Layout(h) && h.nursery.free > 0
    ensures h.nursery.pos !in h.mem
    ensures h.nursery.pos !in h.survived.hdrs && h.nursery.pos !in h.tenured.hdrs && h.nursery.pos !in h.future.hdrs
  {
    hide Tiled;
    var a := h.nursery.pos;
    PosNotListed(h.mem, h.nursery, a);
    PosNotListed(h.mem, h.survived, a);
    PosNotListed(h.mem, h.future, a);
    PosNotListed(h.mem, h.tenured, a);
  }

  lemma AllocateLayout(h: Heap, h': Heap, t: Addr)
    requires Layout(h) && t !in h.mem && h'.mem.Keys == h.mem.Keys + {t}
    requires (forall a | a in h.mem :: h'.mem[a] == h.mem[a]) && |h'.mem[t].data| >= MinWords(h'.mem[t].kind)
    requires h' == h.(mem := h'.mem, nursery := h'.nursery)
    requires h'.nursery.size == h.nursery.size && h'.nursery.base == h.nursery.base && h'.nursery.hdrs == h.nursery.hdrs + [t]
    requires Tiled(h'.mem, h'.nursery) && Tiled(h'.mem, h.survived) && Tiled(h'.mem, h.future) && Tiled(h'.mem, h.tenured)
    ensures Layout(h')
  {
    hide Tiled;
  }

  lemma AllocateRest(h: Heap, kind: Kind, data: seq<Word>)
    requires WellFormed(h) && Legal(h, Allocates(kind, data)) && h.nursery.pos !in h.mem
    requires Layout(Allocate(h, kind, data))
    requires h.nursery.pos !in h.survived.hdrs && h.nursery.pos !in h.tenured.hdrs
    ensures WellFormed(Allocate(h, kind, data))
  {
    hide Layout;
    var h' := Allocate(h, kind, data);
    forall a, b | Edge(h', a, b) ensures b in h'.mem {
      assert a != h.nursery.pos ==> Edge(h, a, b);
    }
    CollectableParts(h');
    assert forall a | a in h.mem :: Based(h, a) ==> Based(h', a);
  }

  lemma StoreKeeps(h: Heap, a: Addr, i: nat, w: Word)
    requires WellFormed(h) && Legal(h, Stores(a, i, w))
    ensures WellFormed(SetSlot(h, a, i, w))
  {
    hide Layout;
    var h' := SetSlot(h, a, i, w);
    SameShape(h, h');
    forall c, b | Edge(h', c, b) ensures b in h'.mem {
      var k :| 0 <= k < |h'.mem[c].data| && IsSlot(h'.mem[c].kind, |h'.mem[c].data|, k) && h'.mem[c].data[k] == Ptr(b);
      assert h'.mem[c].data[k] == h.mem[c].data[k] ==> Edge(h, c, b);
    }
    CollectableParts(h');
    forall c | c in h'.mem ensures Based(h', c) {
      assert Based(h, c);
    }
  }

  lemma SetRootsKeeps(h: Heap, rs: seq<Word>)
    requires WellFormed(h) && Legal(h, SetsRoots(rs))
    ensures WellFormed(h.(roots := rs))
  {
    hide Tiled;
    var h' := h.(roots := rs);
    forall a, b | Edge(h', a, b) ensures b in h'.mem {
      assert Edge(h, a, b);
    }
    assert Layout(h');
    assert forall i | 0 <= i < |rs| && rs[i].Ptr? :: Resolves(h, rs[i]);
    CollectableParts(h');
    assert forall c | c in h.mem :: Based(h, c) ==> Based(h', c);
  }

  lemma StepKeepsWellFormed(h: Heap, e: Event, h': Heap)
    requires WellFormed(h) && Legal(h, e) && Step(h, e) == Some(h')
    ensures WellFormed(h')
  {
    hide WellFormed, MinorGc;
    match e
    case Allocates(kind, data) => AllocateKeeps(h, kind, data);
    case Stores(a, i, w) => StoreKeeps(h, a, i, w);
    case SetsRoots(rs) => SetRootsKeeps(h, rs);
    case Collects => MinorGcKeepsWellFormed(h, h');
  }

  /** Every heap that a run reaches is well formed, whatever the program does between collections. */
  lemma {:induction false} RunKeepsWellFormed(h: Heap, es: seq<Event>)
    requires WellFormed(h) && Run(h, es).Some?
    ensures WellFormed(Run(h, es).value)
    decreases |es|
  {
    hide WellFormed, Legal, Step;
    if es != [] {
      StepKeepsWellFormed(h, es[0], Step(h, es[0]).value);
      RunKeepsWellFormed(Step(h, es[0]).value, es[1..]);
    }
  }

  // ----- ages

  /** A block that survived `n` collections: in the fresh space, in the survivor space at age `n`, or old. */
  ghost predicate Aged(h: Heap, a: Addr, n: nat) {
    && a in h.mem
    && (n == 0 ==> a in h.nursery.hdrs && h.mem[a].gen == 0)
    && (1 <= n <= PROMOTION_AGE ==> a in h.survived.hdrs && h.mem[a].gen == n)
    && (n > PROMOTION_AGE ==> a in h.tenured.hdrs)
  }

  lemma CollectionAges(h: Heap, h': Heap, a: Addr, n: nat)
    requires WellFormed(h) && !h.full && MinorGc(h) == Some(h') && Aged(h, a, n) && Reachable(h, a)
    ensures a in Renaming(h, GcMain(h).value) && Aged(h', Renaming(h, GcMain(h).value)[a], n + 1)
  {
    hide GcMain, Collectable, Reachable, Covered, Inv;
    var h1 := GcMain(h).value;
    GcMainKeeps(h, h1);
    CollectsExactly(h, h1, a);
    ImageAge(h, h1, a, n);
  }

  lemma ImageAge(h0: Heap, h: Heap, a: Addr, n: nat)
    requires Inv(h0, h) && !h0.full && Ages(h0) && Reached(h0, h, a) && Aged(h0, a, n)
    ensures a in h.mem && Image(h, a) in h.mem
    ensures n < PROMOTION_AGE ==> Image(h, a) in h.future.hdrs && h.mem[Image(h, a)].gen == n + 1
    ensures n >= PROMOTION_AGE ==> Image(h, a) in h.tenured.hdrs
  {
    hide Tiled, Accounts, WordImage, Reachable;
    assert OldBlock(h0, h, a);
    InSpaceIsListed(h0, a);
    InSpaceIsListed(h, a);
  }

  /** Where the events leave block `a`, provided it is reachable at every collection. */
  ghost function Track(h: Heap, es: seq<Event>, a: Addr): Option<Addr>
    decreases |es|
  {
    if es == [] then Some(a)
    else if !Legal(h, es[0]) || Step(h, es[0]).None? then None
    else if !es[0].Collects? then Track(Step(h, es[0]).value, es[1..], a)
    else if !Reachable(h, a) || GcMain(h).None? || a !in Renaming(h, GcMain(h).value) then None
    else Track(Step(h, es[0]).value, es[1..], Renaming(h, GcMain(h).value)[a])
  }

  function Collections(es: seq<Event>): nat {
    if es == [] then 0 else (if es[0].Collects? then 1 else 0) + Collections(es[1..])
  }

  lemma StepKeepsAge(h: Heap, e: Event, h': Heap, a: Addr, n: nat)
    requires WellFormed(h) && Legal(h, e) && Step(h, e) == Some(h') && !e.Collects? && Aged(h, a, n)
    ensures Aged(h', a, n)
  {
    hide Collectable;
    match e
    case Allocates(kind, data) =>
      AllocateKeeps(h, kind, data);
    case Stores(_, _, _) =>
    case SetsRoots(_) =>
  }

  /** Over any run, the age of a block that stays reachable is the number of collections it survived. */
  lemma {:induction false} AgeCountsCollections(h: Heap, es: seq<Event>, a: Addr, n: nat)
    requires WellFormed(h) && Run(h, es).Some? && Track(h, es, a).Some? && Aged(h, a, n)
    ensures Aged(Run(h, es).value, Track(h, es, a).value, n + Collections(es))
    decreases |es|
  {
    hide WellFormed, Legal, Step, Aged, Reachable, Renaming;
    if es != [] {
      var h1 := Step(h, es[0]).value;
      StepKeepsWellFormed(h, es[0], h1);
      if es[0].Collects? {
        CollectsStep(h);
        CollectionAges(h, h1, a, n);
        AgeCountsCollections(h1, es[1..], Renaming(h, GcMain(h).value)[a], n + 1);
      } else {
        StepKeepsAge(h, es[0], h1, a, n);
        AgeCountsCollections(h1, es[1..], a, n);
      }
    }
  }

  lemma CollectsStep(h: Heap)
    ensures Step(h, Collects) == MinorGc(h) && (Legal(h, Collects) ==> !h.full)
  {
  }
}
