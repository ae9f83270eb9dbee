/** What a collection means for the program that owns the heap. */
module HeapTheorems {
  import opened Wrappers
  import opened HeapModel
  import opened HeapInvariant
  import opened HeapScan
  import opened HeapCollect

  // ----- exactness

  /** Reached by the collection: forwarded, or marked in place. */
  ghost predicate Reached(h0: Heap, h: Heap, a: Addr) {
    a in h0.mem && (Moved(h, a) || Live(h, a))
  }

  lemma RootReached(h0: Heap, h: Heap, a: Addr)
    requires Inv(h0, h) && RootsDone(h0, h, |h0.roots|) && RootOf(h0, a)
    ensures Reached(h0, h, a)
  {
    hide Tiled, Reachable;
    if Ptr(a) in h0.roots {
      var j :| 0 <= j < |h0.roots| && h0.roots[j] == Ptr(a);
      assert RootImage(h0, h, j);
    } else {
      Listed(h0.mem, h0.tenured, a);
      assert OldBlock(h0, h, a);
    }
  }

  lemma EdgeReached(h0: Heap, h: Heap, a: Addr, b: Addr)
    requires Inv(h0, h) && Covered(h, {}) && Reached(h0, h, a) && Edge(h0, a, b)
    ensures Reached(h0, h, b)
  {
    hide Tiled, Reachable, Layout;
    var i :| 0 <= i < |h0.mem[a].data| && IsSlot(h0.mem[a].kind, |h0.mem[a].data|, i) && h0.mem[a].data[i] == Ptr(b);
    ImageBlack(h0, h, a);
    assert WordImage(h0, h, a, Image(h, a), i);
  }

  lemma ImageBlack(h0: Heap, h: Heap, a: Addr)
    requires Inv(h0, h) && Covered(h, {}) && Reached(h0, h, a)
    ensures OldBlock(h0, h, a) && Live(h, Image(h, a)) && Black(h, Image(h, a))
  {
    hide Tiled, Reachable;
    assert OldBlock(h0, h, a);
    if Moved(h, a) {
      ForwardedTarget(h0, h, a);
    }
    assert Black(h, Image(h, a));
  }

  lemma PathReached(h0: Heap, h: Heap, p: seq<Addr>)
    requires Inv(h0, h) && Covered(h, {}) && RootsDone(h0, h, |h0.roots|) && IsPath(h0, p)
    ensures Reached(h0, h, p[|p| - 1])
    decreases |p|
  {
    hide Inv, Covered, Reached;
    if |p| == 1 {
      RootReached(h0, h, p[0]);
    } else {
      var q := p[..|p| - 1];
      assert IsPath(h0, q);
      PathReached(h0, h, q);
      EdgeReached(h0, h, q[|q| - 1], p[|p| - 1]);
    }
  }

  /** A collection reaches exactly the reachable blocks. */
  lemma CollectsExactly(h0: Heap, h: Heap, a: Addr)
    requires Collectable(h0) && GcMain(h0) == Some(h)
    ensures Reached(h0, h, a) <==> Reachable(h0, a)
  {
    hide Inv, Covered, Collectable, GcMain, Reached;
    GcMainKeeps(h0, h);
    if Reachable(h0, a) {
      var p :| IsPath(h0, p) && p[|p| - 1] == a;
      PathReached(h0, h, p);
    }
    ReachedIsReachable(h0, h, a);
  }

  lemma ReachedIsReachable(h0: Heap, h: Heap, a: Addr)
    requires Inv(h0, h)
    ensures Reached(h0, h, a) ==> Reachable(h0, a)
  {
  }

  // ----- the object graph survives

  function MapWord(f: map<Addr, Addr>, w: Word): Word {
    if w.Ptr? && w.a in f then Ptr(f[w.a]) else w
  }

  /** The block at `t` is the block `b` with its references renamed and its interior pointer re-based. */
  ghost predicate SameBlock(f: map<Addr, Addr>, b: Block, b': Block, t: Addr) {
    && b'.kind == b.kind
    && |b'.data| == |b.data|
    && (forall i | 0 <= i < |b.data| ::
          b'.data[i] ==
            if IsSlot(b.kind, |b.data|, i) then MapWord(f, b.data[i])
            else if HasInterior(b.kind) && i == InteriorWord(b.kind) then Interior(b.kind, t)
            else b.data[i])
  }

  /** `f` renames the reachable graph of `h0` to that of `h`, root by root and word by word. */
  ghost predicate Isomorphism(h0: Heap, h: Heap, f: map<Addr, Addr>) {
    && (forall a :: a in f <==> Reachable(h0, a))
    && (forall a, b | a in f && b in f && a != b :: f[a] != f[b])
    && |h.roots| == |h0.roots|
    && (forall j | 0 <= j < |h0.roots| :: h.roots[j] == MapWord(f, h0.roots[j]))
    && (forall a | a in f :: a in h0.mem && f[a] in h.mem && SameBlock(f, h0.mem[a], h.mem[f[a]], f[a]))
  }

  /** A pointer of the block at `a` into the block itself leads to the same place of the block at `t`. */
  ghost predicate Rebased(b: Block, a: Addr, b': Block, t: Addr) {
    forall i {:trigger b.data[i]} | 0 <= i < |b.data| && HasInterior(b.kind) && i == InteriorWord(b.kind) && b.data[i].Raw? ::
      i < |b'.data| && b'.data[i] == Raw(b.data[i].at - a + t)
  }

  ghost predicate Rebases(h0: Heap, h: Heap, f: map<Addr, Addr>) {
    forall a | a in f :: a in h0.mem && f[a] in h.mem && Rebased(h0.mem[a], a, h.mem[f[a]], f[a])
  }

  lemma IsomorphismRebases(h0: Heap, h: Heap, f: map<Addr, Addr>)
    requires Isomorphism(h0, h, f) && (forall a | a in f :: a in h0.mem && Based(h0, a))
    requires forall a | a in h0.mem :: |h0.mem[a].data| >= MinWords(h0.mem[a].kind)
    ensures Rebases(h0, h, f)
  {
    hide Reachable;
    forall a | a in f ensures a in h0.mem && f[a] in h.mem && Rebased(h0.mem[a], a, h.mem[f[a]], f[a]) {
      assert SameBlock(f, h0.mem[a], h.mem[f[a]], f[a]);
      NoSlotInside(h0.mem[a]);
    }
  }

  lemma NoSlotInside(b: Block)
    ensures HasInterior(b.kind) ==> !IsSlot(b.kind, |b.data|, InteriorWord(b.kind))
  {
  }

  ghost function Renaming(h0: Heap, h: Heap): map<Addr, Addr> {
    map a | a in h0.mem && Reached(h0, h, a) && a in h.mem :: Image(h, a)
  }

  lemma RenamedBlock(h0: Heap, h: Heap, a: Addr)
    requires Inv(h0, h) && Covered(h, {}) && a in Renaming(h0, h)
    ensures Image(h, a) in h.mem && SameBlock(Renaming(h0, h), h0.mem[a], h.mem[Image(h, a)], Image(h, a))
  {
    hide Tiled, Reachable, Layout, OnlyReachable, Accounts;
    ImageBlack(h0, h, a);
    var f := Renaming(h0, h);
    var t := Image(h, a);
    var b := h0.mem[a];
    forall i | 0 <= i < |b.data|
      ensures h.mem[t].data[i] ==
        if IsSlot(b.kind, |b.data|, i) then MapWord(f, b.data[i])
        else if HasInterior(b.kind) && i == InteriorWord(b.kind) then Interior(b.kind, t)
        else b.data[i]
    {
      assert WordImage(h0, h, a, t, i);
      if IsSlot(b.kind, |b.data|, i) {
        assert b.data[i].Ptr? ==> Edge(h0, a, b.data[i].a);
        RenamedWord(h0, h, b.data[i], h.mem[t].data[i]);
      }
    }
  }

  /** A clean updated word is the renamed original. */
  lemma RenamedWord(h0: Heap, h: Heap, w0: Word, w: Word)
    requires Inv(h0, h) && Updated(h, w0, w) && Clean(h, w) && (w0.Ptr? ==> w0.a in h0.mem)
    ensures w == MapWord(Renaming(h0, h), w0)
  {
    hide Tiled, Reachable, Layout, OnlyReachable, Accounts;
    if w0.Ptr? {
      assert OldBlock(h0, h, w0.a);
      if w == w0 {
        NotForwarded(h0, h, w0.a);
      }
    }
  }

  lemma RenamingInjective(h0: Heap, h: Heap, a: Addr, b: Addr)
    requires Inv(h0, h) && a in Renaming(h0, h) && b in Renaming(h0, h) && a != b
    ensures Image(h, a) != Image(h, b)
  {
    hide Tiled, Reachable, Layout, OnlyReachable, Accounts, WordImage;
    assert OldBlock(h0, h, a) && OldBlock(h0, h, b);
  }

  /** Minor collections and the marking phase alike keep the reachable object graph. */
  lemma CollectionIsIsomorphism(h0: Heap, h: Heap)
    requires Collectable(h0) && GcMain(h0) == Some(h)
    ensures Isomorphism(h0, h, Renaming(h0, h))
    ensures (forall a | a in h0.mem :: Based(h0, a)) ==> Rebases(h0, h, Renaming(h0, h))
  {
    hide Inv, Covered, GcMain, Reachable, Layout, SameBlock;
    GcMainKeeps(h0, h);
    var f := Renaming(h0, h);
    forall a ensures a in f <==> Reachable(h0, a) {
      CollectsExactly(h0, h, a);
      assert Reached(h0, h, a) ==> a in h.mem;
    }
    forall a, b | a in f && b in f && a != b ensures f[a] != f[b] {
      RenamingInjective(h0, h, a, b);
    }
    forall j | 0 <= j < |h0.roots| ensures h.roots[j] == MapWord(f, h0.roots[j]) {
      assert RootImage(h0, h, j);
      RenamedWord(h0, h, h0.roots[j], h.roots[j]);
    }
    forall a | a in f ensures f[a] in h.mem && SameBlock(f, h0.mem[a], h.mem[f[a]], f[a]) {
      RenamedBlock(h0, h, a);
    }
    if forall a | a in h0.mem :: Based(h0, a) {
      EnoughWords(h0);
      assert Isomorphism(h0, h, f);
      IsomorphismRebases(h0, h, f);
    }
  }

  lemma EnoughWords(h: Heap)
    requires Layout(h)
    ensures forall a | a in h.mem :: |h.mem[a].data| >= MinWords(h.mem[a].kind)
  {
    hide Tiled;
  }

  // ----- tri-colour safety

  ghost predicate Settled(h: Heap, w: Word) {
    w.Ptr? ==> w.a in h.future.hdrs || w.a in h.tenured.hdrs
  }

  /** After a minor collection nothing that is kept refers into the fresh or the old survivor space. */
  lemma MinorCollectionSettles(h0: Heap, h: Heap)
    requires Collectable(h0) && !h0.full && GcMain(h0) == Some(h)
    ensures forall j | 0 <= j < |h.roots| :: Settled(h, h.roots[j])
    ensures forall t | t in h.future.hdrs || t in h.tenured.hdrs ::
              t in h.mem && Black(h, t) &&
              forall i | 0 <= i < |h.mem[t].data| && IsSlot(h.mem[t].kind, |h.mem[t].data|, i) :: Settled(h, h.mem[t].data[i])
  {
    hide GcMain, Collectable, Inv, Covered;
    GcMainKeeps(h0, h);
    SameFull(h0, h);
    forall j | 0 <= j < |h.roots| ensures Settled(h, h.roots[j]) {
      assert RootImage(h0, h, j);
    }
    forall t | t in h.future.hdrs || t in h.tenured.hdrs ensures t in h.mem && Black(h, t) {
      QueueLive(h0, h, t);
      AllBlack(h, t);
    }
  }

  lemma AllBlack(h: Heap, t: Addr)
    requires Covered(h, {}) && Live(h, t)
    ensures Black(h, t)
  {
    assert Black(h, t) || t in {};
  }

  // ----- the marking phase

  ghost predicate StaysPut(h0: Heap, a: Addr) {
    a in h0.mem && (a in h0.tenured.hdrs || h0.mem[a].gen == PROMOTION_AGE)
  }

  /**
   The first pass of a full collection: old and generation-3 blocks are marked exactly when reachable, younger
   ones forwarded exactly when reachable, and references to old and generation-3 blocks are left alone.
   */
  lemma MarkingIsExact(h0: Heap, h: Heap, a: Addr)
    requires Collectable(h0) && h0.full && GcMain(h0) == Some(h) && a in h0.mem
    ensures a in h.mem
    ensures StaysPut(h0, a) ==> (h.mem[a].remembered <==> Reachable(h0, a)) && !h.mem[a].forward
    ensures !StaysPut(h0, a) ==> (h.mem[a].forward <==> Reachable(h0, a))
    ensures Reachable(h0, a) ==> Image(h, a) in h.mem && SlotsToStay(h0, h, a)
  {
    hide GcMain, Collectable, Reachable, Covered, Tiled, Accounts, SlotsToStay;
    GcMainKeeps(h0, h);
    CollectsExactly(h0, h, a);
    assert OldBlock(h0, h, a);
    FutureIsNew(h0, h, a);
    if Reachable(h0, a) {
      ReferencesStay(h0, h, a);
    }
  }

  lemma FutureIsNew(h0: Heap, h: Heap, a: Addr)
    requires Inv(h0, h) && a in h0.mem
    ensures a in h.mem && a !in h.future.hdrs
    ensures a in h0.tenured.hdrs <==> a in h.tenured.hdrs
  {
    hide Tiled, WordImage, Accounts;
    assert OldBlock(h0, h, a);
    InSpaceIsListed(h0, a);
    InSpaceIsListed(h, a);
  }

  ghost predicate SlotsToStay(h0: Heap, h: Heap, a: Addr)
    requires a in h0.mem && a in h.mem && Image(h, a) in h.mem
  {
    forall i | 0 <= i < |h0.mem[a].data| && IsSlot(h0.mem[a].kind, |h0.mem[a].data|, i) ::
      var w0 := h0.mem[a].data[i];
      w0.Ptr? && StaysPut(h0, w0.a) ==> i < |h.mem[Image(h, a)].data| && h.mem[Image(h, a)].data[i] == w0
  }

  lemma ReferencesStay(h0: Heap, h: Heap, a: Addr)
    requires Inv(h0, h) && h0.full && Reached(h0, h, a)
    ensures a in h.mem && Image(h, a) in h.mem && SlotsToStay(h0, h, a)
  {
    hide Tiled, Accounts, Reachable;
    assert OldBlock(h0, h, a);
    forall i | 0 <= i < |h0.mem[a].data| && IsSlot(h0.mem[a].kind, |h0.mem[a].data|, i) &&
               h0.mem[a].data[i].Ptr? && StaysPut(h0, h0.mem[a].data[i].a)
      ensures h.mem[Image(h, a)].data[i] == h0.mem[a].data[i]
    {
      assert WordImage(h0, h, a, Image(h, a), i);
      assert OldBlock(h0, h, h0.mem[a].data[i].a);
    }
  }
}
