/** When a collection runs out of to-space, and that it terminates without an abort otherwise. */
module HeapBudget {
  import opened Wrappers
  import opened HeapModel
  import opened HeapInvariant
  import opened HeapScan
  import opened HeapCollect
  import opened HeapTheorems

  /** The blocks a collection copies to the survivor space. */
  ghost function Survivors(h0: Heap): set<Addr> {
    set a | a in h0.mem && Reachable(h0, a) && h0.mem[a].gen != PROMOTION_AGE
  }

  ghost function Veterans(h0: Heap): set<Addr> {
    set a | a in h0.mem && h0.mem[a].gen == PROMOTION_AGE
  }

  ghost function SurvivorWords(h0: Heap): nat { Weight(h0.mem, Young(h0), Survivors(h0)) }

  ghost predicate Fits(h0: Heap) {
    && SurvivorWords(h0) <= SURVIVED_WORDS
    && (!h0.full ==> Weight(h0.mem, Young(h0), Veterans(h0)) <= TenuredFree(h0))
  }

  // ----- heap_mark does not abort when the survivors fit

  lemma RoomForSurvivor(h0: Heap, h: Heap, a: Addr)
    requires Inv(h0, h) && Fits(h0) && a in Survivors(h0) && !Moved(h, a) && a in Young(h0)
    ensures BlockWords(h0.mem[a]) <= h.future.free
  {
    hide Tiled, Images, Reachable;
    YoungDistinct(h0);
    WeightAdd(h0.mem, Young(h0), MovedSet(h0, h, false), a);
    assert MovedSet(h0, h, false) + {a} <= Survivors(h0);
    WeightMonotone(h0.mem, Young(h0), MovedSet(h0, h, false) + {a}, Survivors(h0));
  }

  lemma RoomForVeteran(h0: Heap, h: Heap, a: Addr)
    requires Inv(h0, h) && Fits(h0) && !h0.full && a in Veterans(h0) && !Moved(h, a) && a in Young(h0)
    ensures BlockWords(h0.mem[a]) <= TenuredFree(h)
  {
    hide Tiled, Images, Reachable;
    YoungDistinct(h0);
    WeightAdd(h0.mem, Young(h0), MovedSet(h0, h, true), a);
    assert MovedSet(h0, h, true) + {a} <= Veterans(h0);
    WeightMonotone(h0.mem, Young(h0), MovedSet(h0, h, true) + {a}, Veterans(h0));
  }

  lemma MarkTotal(h0: Heap, h: Heap, w: Word)
    requires Inv(h0, h) && Fits(h0)
    requires w.Ptr? ==> w.a in h.mem && (w.a in h0.mem ==> Reachable(h0, w.a))
    ensures Mark(h, w).Some?
  {
    hide Tiled, Images, OnlyReachable, Accounts, Reachable;
    if w.Ptr? {
      var a := w.a;
      InSpaceIsListed(h, a);
      if !Live(h, a) && !h.mem[a].forward {
        FromBlock(h0, h, a);
        if a !in h.tenured.hdrs {
          IsYoung(h0, h, a);
          if h.mem[a].gen != PROMOTION_AGE {
            RoomForSurvivor(h0, h, a);
          } else if !h.full {
            RoomForVeteran(h0, h, a);
          }
        }
      }
    }
  }

  lemma IsYoung(h0: Heap, h: Heap, a: Addr)
    requires Inv(h0, h) && a in h0.mem && a !in h.tenured.hdrs && a !in h.future.hdrs
    ensures a in Young(h0)
  {
    hide Tiled;
    YoungDistinct(h0);
  }

  lemma VisitSlotsTotal(h0: Heap, h: Heap, t: Addr, offs: seq<nat>)
    requires Inv(h0, h) && Fits(h0) && Live(h, t) && (forall i | i in offs :: SlotAt(h, t, i))
    ensures VisitSlots(h, t, offs).Some?
    decreases |offs|
  {
    hide Inv, Mark, Fits;
    if offs != [] {
      var i := offs[0];
      SlotResolves(h0, h, t, i);
      MarkTotal(h0, h, h.mem[t].data[i]);
      var m := Mark(h, h.mem[t].data[i]).value;
      SlotStep(h0, h, t, i, m);
      var h1 := SetSlot(m.h, t, i, m.w);
      forall j | j in offs[1..] ensures SlotAt(h1, t, j) {
        assert j in offs && SlotAt(h, t, j);
      }
      VisitSlotsTotal(h0, h1, t, offs[1..]);
    }
  }

  lemma VisitTotal(h0: Heap, h: Heap, t: Addr)
    requires Inv(h0, h) && Fits(h0) && Live(h, t)
    ensures Visit(h, t).Some?
  {
    hide Inv, Grows, VisitSlots, Fits;
    var b := h.mem[t];
    RebaseKeeps(h0, h, t);
    forall i | i in Slots(b.kind, |b.data|) ensures SlotAt(Rebase(h, t), t, i) {
      SlotsAreSlots(b.kind, |b.data|, i);
    }
    VisitSlotsTotal(h0, Rebase(h, t), t, Slots(b.kind, |b.data|));
  }

  lemma ScanFutureTotal(h0: Heap, h: Heap, i: nat)
    requires Inv(h0, h) && Fits(h0)
    ensures ScanFuture(h, i).Some?
    decreases Room(h), Unmarked(h), |h.future.hdrs| - i
  {
    hide Inv, Visit, Live, Fits;
    if i < |h.future.hdrs| {
      QueueLive(h0, h, h.future.hdrs[i]);
      VisitTotal(h0, h, h.future.hdrs[i]);
      VisitKeeps(h0, h, h.future.hdrs[i], Visit(h, h.future.hdrs[i]).value);
      ScanFutureTotal(h0, Visit(h, h.future.hdrs[i]).value, i + 1);
    }
  }

  lemma ScanOldTotal(h0: Heap, h: Heap, i: nat)
    requires Inv(h0, h) && Fits(h0) && !h.full
    ensures ScanOld(h, i).Some?
    decreases Room(h), Unmarked(h), |h.tenured.hdrs| - i
  {
    hide Inv, Visit, Live, Fits;
    if i < |h.tenured.hdrs| {
      QueueLive(h0, h, h.tenured.hdrs[i]);
      VisitTotal(h0, h, h.tenured.hdrs[i]);
      VisitKeeps(h0, h, h.tenured.hdrs[i], Visit(h, h.tenured.hdrs[i]).value);
      ScanOldTotal(h0, Visit(h, h.tenured.hdrs[i]).value, i + 1);
    }
  }

  lemma WalkListTotal(h0: Heap, h: Heap, k: nat)
    requires Inv(h0, h) && Fits(h0) && ListLive(h)
    ensures WalkList(h, k).Some?
    decreases Room(h), Unmarked(h), |h.list| - k
  {
    hide Inv, Visit, Live, Fits;
    if k < |h.list| {
      VisitTotal(h0, h, h.list[k]);
      VisitKeeps(h0, h, h.list[k], Visit(h, h.list[k]).value);
      WalkListTotal(h0, Visit(h, h.list[k]).value, k + 1);
    }
  }

  lemma DrainTotal(h0: Heap, h: Heap, i: nat)
    requires Inv(h0, h) && Fits(h0) && ListLive(h) && i == |h.future.hdrs| && Covered(h, ListFrom(h, 0))
    requires RootsDone(h0, h, |h0.roots|)
    ensures Drain(h, i).Some?
    decreases Room(h), Unmarked(h), |h.list|
  {
    hide Inv, Covered, WalkList, ScanFuture, Live, Fits;
    if h.list != [] {
      WalkListTotal(h0, h, 0);
      var h1 := WalkList(h, 0).value;
      CoveredWiden(h, ListFrom(h, 0), FutureFrom(h, i) + ListFrom(h, 0));
      WalkListKeeps(h0, h, 0, i, h1);
      RootsStay(h0, h, h1, |h0.roots|);
      ForgetKeeps(h0, h1, i);
      ScanFutureTotal(h0, Forget(h1), i);
      var h2 := ScanFuture(Forget(h1), i).value;
      ScanFutureKeeps(h0, Forget(h1), i, h2);
      RootsStay(h0, Forget(h1), h2, |h0.roots|);
      DrainTotal(h0, h2, |h2.future.hdrs|);
    }
  }

  lemma MarkRootsTotal(h0: Heap, h: Heap, i: nat)
    requires Inv(h0, h) && Fits(h0) && RootsDone(h0, h, i) && i <= |h0.roots|
    ensures MarkRoots(h, i).Some?
    decreases |h.roots| - i
  {
    hide Inv, Reachable, Mark, Live, Fits;
    if i < |h.roots| {
      RootResolves(h0, h, i);
      MarkTotal(h0, h, h.roots[i]);
      var m := Mark(h, h.roots[i]).value;
      MarkKeeps(h0, h, h.roots[i], m);
      RootsStay(h0, h, m.h, i);
      OtherRoots(h0, m.h, m.h.roots[i := m.w], m.h.list);
      OneMoreRoot(h0, m.h, i, m.w);
      MarkRootsTotal(h0, m.h.(roots := m.h.roots[i := m.w]), i + 1);
    }
  }

  lemma GcMainTotal(h0: Heap)
    requires Collectable(h0) && Fits(h0)
    ensures GcMain(h0).Some?
  {
    hide Inv, Collectable, Covered, Live, MarkRoots, ScanOld, ScanFuture, Drain, Fits;
    InvInit(h0);
    StartCovered(h0);
    MarkRootsTotal(h0, h0, 0);
    var h1 := MarkRoots(h0, 0).value;
    MarkRootsKeep(h0, h0, 0, h1);
    SameFull(h0, h1);
    if !h1.full {
      ScanOldTotal(h0, h1, 0);
    }
    var h2 := if h1.full then h1 else ScanOld(h1, 0).value;
    AfterOldScan(h0, h1, h2);
    ScanFutureTotal(h0, h2, 0);
    var h3 := ScanFuture(h2, 0).value;
    ScanFutureKeeps(h0, h2, 0, h3);
    RootsStay(h0, h2, h3, |h0.roots|);
    DrainTotal(h0, h3, |h3.future.hdrs|);
  }
}
