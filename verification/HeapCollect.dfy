/** `heap_gc_main` as a whole, for minor collections and for the marking phase of a full one. */
module HeapCollect {
  import opened Wrappers
  import opened HeapModel
  import opened HeapInvariant
  import opened HeapScan

  // ----- roots

  ghost predicate RootImage(h0: Heap, h: Heap, j: nat) {
    && j < |h0.roots| == |h.roots|
    && Clean(h, h.roots[j])
    && Updated(h, h0.roots[j], h.roots[j])
  }

  /** The first `i` roots are updated, the others are untouched. */
  ghost predicate RootsDone(h0: Heap, h: Heap, i: nat) {
    && |h.roots| == |h0.roots|
    && (forall j {:trigger RootImage(h0, h, j)} | 0 <= j < i && j < |h0.roots| :: RootImage(h0, h, j))
    && (forall j | i <= j < |h0.roots| :: h.roots[j] == h0.roots[j])
  }

  lemma RootsStay(h0: Heap, h: Heap, h': Heap, i: nat)
    requires RootsDone(h0, h, i) && Grows(h, h') && h'.roots == h.roots
    ensures RootsDone(h0, h', i)
  {
    forall j | 0 <= j < i && j < |h0.roots| ensures RootImage(h0, h', j) {
      assert RootImage(h0, h, j);
    }
  }

  lemma OtherRoots(h0: Heap, h: Heap, rs: seq<Word>, l: seq<Addr>)
    requires Inv(h0, h) && |rs| == |h.roots|
    ensures Inv(h0, h.(roots := rs, list := l))
  {
    hide Tiled, Reachable;
    var h' := h.(roots := rs, list := l);
    assert forall a :: Live(h', a) == Live(h, a) && Moved(h', a) == Moved(h, a);
    OtherRootsImages(h0, h, h');
    SameAccounts(h0, h, h');
  }

  lemma OtherRootsImages(h0: Heap, h: Heap, h': Heap)
    requires Images(h0, h) && h' == h.(roots := h'.roots, list := h'.list)
    ensures Images(h0, h')
  {
    forall a | a in h0.mem ensures OldBlock(h0, h', a) {
      assert OldBlock(h0, h, a);
      forall i | 0 <= i < |h0.mem[a].data| ensures WordImage(h0, h', a, Image(h', a), i) {
        assert WordImage(h0, h, a, Image(h, a), i);
      }
    }
    forall t | t in h'.mem && t !in h0.mem ensures HasOrigin(h0, h', t) {
      assert HasOrigin(h0, h, t);
      var a :| a in h0.mem && Moved(h, a) && Image(h, a) == t;
      assert Moved(h', a) && Image(h', a) == t;
    }
  }

  lemma OtherRootsCovered(h: Heap, rs: seq<Word>, g: set<Addr>)
    requires Covered(h, g)
    ensures Covered(h.(roots := rs), g)
    ensures FutureFrom(h.(roots := rs), 0) == FutureFrom(h, 0)
  {
    var h' := h.(roots := rs);
    forall t | Live(h', t) ensures Black(h', t) || t in g {
      assert Live(h, t);
      assert Black(h, t) ==> Black(h', t);
    }
  }

  /** A minor collection starts with the whole old space grey. */
  ghost function OldRoots(h: Heap): set<Addr> {
    if h.full then {} else TenuredFrom(h, 0)
  }

  lemma MarkRootsKeep(h0: Heap, h: Heap, i: nat, h': Heap)
    requires Inv(h0, h) && RootsDone(h0, h, i) && i <= |h0.roots| && MarkRoots(h, i) == Some(h')
    requires ListLive(h)
    requires Covered(h, FutureFrom(h, 0) + ListFrom(h, 0) + OldRoots(h0))
    ensures Inv(h0, h') && RootsDone(h0, h', |h0.roots|) && ListLive(h')
    ensures Covered(h', FutureFrom(h', 0) + ListFrom(h', 0) + OldRoots(h0))
    decreases |h.roots| - i
  {
    hide Inv, Covered, Reachable, Mark, Live;
    if i < |h.roots| {
      var w := h.roots[i];
      var m := Mark(h, w).value;
      RootResolves(h0, h, i);
      var g := FutureFrom(h, 0) + ListFrom(h, 0) + OldRoots(h0);
      MarkCovers(h0, h, w, m, g);
      QueuedIsQueued(h, m.h, 0, 0);
      CoveredWiden(m.h, g + Queued(h, m.h), FutureFrom(m.h, 0) + ListFrom(m.h, 0) + OldRoots(h0));
      var rs := m.h.roots[i := m.w];
      var h1 := m.h.(roots := rs);
      RootsStay(h0, h, m.h, i);
      OtherRoots(h0, m.h, rs, m.h.list);
      OtherRootsCovered(m.h, rs, FutureFrom(m.h, 0) + ListFrom(m.h, 0) + OldRoots(h0));
      OneMoreRoot(h0, m.h, i, m.w);
      MarkRootsKeep(h0, h1, i + 1, h');
    }
  }

  lemma OneMoreRoot(h0: Heap, h: Heap, i: nat, w: Word)
    requires RootsDone(h0, h, i) && i < |h0.roots| && Clean(h, w) && Updated(h, h0.roots[i], w)
    ensures RootsDone(h0, h.(roots := h.roots[i := w]), i + 1)
    ensures ListLive(h) ==> ListLive(h.(roots := h.roots[i := w]))
  {
    var h' := h.(roots := h.roots[i := w]);
    assert forall a :: Live(h', a) == Live(h, a);
    forall j | 0 <= j < i + 1 ensures RootImage(h0, h', j) {
      assert j < i ==> RootImage(h0, h, j);
    }
  }

  lemma RootResolves(h0: Heap, h: Heap, i: nat)
    requires Inv(h0, h) && RootsDone(h0, h, i) && i < |h0.roots|
    ensures var w := h.roots[i]; w.Ptr? ==> w.a in h.mem && Reachable(h0, w.a)
  {
    hide Tiled, Reachable;
    var w := h.roots[i];
    if w.Ptr? {
      assert OldBlock(h0, h, w.a);
      ReachableRoot(h0, w.a);
    }
  }

  // ----- the loop over both queues

  lemma DrainKeeps(h0: Heap, h: Heap, i: nat, h': Heap)
    requires Inv(h0, h) && ListLive(h) && i == |h.future.hdrs| && Drain(h, i) == Some(h')
    requires Covered(h, ListFrom(h, 0))
    requires RootsDone(h0, h, |h0.roots|)
    ensures Inv(h0, h') && Covered(h', {}) && RootsDone(h0, h', |h0.roots|)
    decreases Room(h), Unmarked(h), |h.list|
  {
    hide Inv, Covered, WalkList, ScanFuture, Live;
    if h.list == [] {
      CoveredWiden(h, ListFrom(h, 0), {});
    } else {
      var h1 := WalkList(h, 0).value;
      CoveredWiden(h, ListFrom(h, 0), FutureFrom(h, i) + ListFrom(h, 0));
      WalkListKeeps(h0, h, 0, i, h1);
      RootsStay(h0, h, h1, |h0.roots|);
      var hf := Forget(h1);
      ForgetKeeps(h0, h1, i);
      var h2 := ScanFuture(hf, i).value;
      ScanFutureKeeps(h0, hf, i, h2);
      RootsStay(h0, hf, h2, |h0.roots|);
      DrainKeeps(h0, h2, |h2.future.hdrs|, h');
    }
  }

  lemma ForgetKeeps(h0: Heap, h: Heap, i: nat)
    requires Inv(h0, h) && Covered(h, FutureFrom(h, i)) && RootsDone(h0, h, |h0.roots|)
    ensures var hf := Forget(h);
            Inv(h0, hf) && Covered(hf, FutureFrom(hf, i) + ListFrom(hf, 0)) && RootsDone(h0, hf, |h0.roots|) && ListLive(hf)
  {
    hide Inv;
    var hf := Forget(h);
    OtherRoots(h0, h, h.roots, []);
    assert forall a :: Live(hf, a) == Live(h, a) && (Black(h, a) ==> Black(hf, a));
    forall j | 0 <= j < |h0.roots| ensures RootImage(h0, hf, j) {
      assert RootImage(h0, h, j);
    }
  }

  /** From the roots to the first scan of the future-survived space. */
  lemma AfterOldScan(h0: Heap, h1: Heap, h2: Heap)
    requires Inv(h0, h1) && RootsDone(h0, h1, |h0.roots|) && ListLive(h1)
    requires Covered(h1, FutureFrom(h1, 0) + ListFrom(h1, 0) + OldRoots(h0))
    requires if h1.full then h2 == h1 else ScanOld(h1, 0) == Some(h2)
    ensures Inv(h0, h2) && RootsDone(h0, h2, |h0.roots|) && ListLive(h2)
    ensures Covered(h2, FutureFrom(h2, 0) + ListFrom(h2, 0))
  {
    hide Inv, Covered, Live, ScanOld;
    SameFull(h0, h1);
    if h1.full {
      CoveredWiden(h1, FutureFrom(h1, 0) + ListFrom(h1, 0) + OldRoots(h0), FutureFrom(h1, 0) + ListFrom(h1, 0));
      GrowsReflexive(h1);
    } else {
      TenuredPrefix(h0, h1);
      CoveredWiden(h1, FutureFrom(h1, 0) + ListFrom(h1, 0) + OldRoots(h0),
                   FutureFrom(h1, 0) + ListFrom(h1, 0) + TenuredFrom(h1, 0));
      ScanOldKeeps(h0, h1, 0, h2);
    }
    RootsStay(h0, h1, h2, |h0.roots|);
  }

  /**
   `heap_gc_main`, minor or marking: the invariant relates the result to the initial heap, every reached
   block is black and every root is updated.
   */
  lemma GcMainKeeps(h0: Heap, h: Heap)
    requires Collectable(h0) && GcMain(h0) == Some(h)
    ensures Inv(h0, h) && Covered(h, {}) && RootsDone(h0, h, |h0.roots|) && h.list == []
  {
    hide Inv, Collectable, Covered, Live, MarkRoots, ScanOld, ScanFuture, Drain;
    InvInit(h0);
    StartCovered(h0);
    var h1 := MarkRoots(h0, 0).value;
    MarkRootsKeep(h0, h0, 0, h1);
    SameFull(h0, h1);
    var h2 := if h1.full then h1 else ScanOld(h1, 0).value;
    AfterOldScan(h0, h1, h2);
    var h3 := ScanFuture(h2, 0).value;
    ScanFutureKeeps(h0, h2, 0, h3);
    RootsStay(h0, h2, h3, |h0.roots|);
    DrainKeeps(h0, h3, |h3.future.hdrs|, h);
  }

  lemma SameFull(h0: Heap, h: Heap)
    requires Inv(h0, h)
    ensures h.full == h0.full
  {
  }

  lemma TenuredPrefix(h0: Heap, h: Heap)
    requires Inv(h0, h)
    ensures TenuredFrom(h0, 0) <= TenuredFrom(h, 0)
  {
    hide Tiled;
    QueueExtends(h0.tenured.hdrs, h.tenured.hdrs, 0);
  }

  lemma StartCovered(h0: Heap)
    requires Collectable(h0)
    ensures Covered(h0, FutureFrom(h0, 0) + ListFrom(h0, 0) + OldRoots(h0)) && ListLive(h0)
  {
    hide Tiled;
    assert h0.tenured.hdrs[0..] == h0.tenured.hdrs;
  }
}
