/**
 The scans of one collection: two grey queues, the scan cursor in the future-survived space and the
 remembered list, feed each other until every reached block is black.
 */
module HeapScan {
  import opened Wrappers
  import opened HeapModel
  import opened HeapInvariant

  // ----- visit_hdr

  /** Every listed slot of the block at `t` is clean; the other words are untouched. */
  ghost predicate Scanned(h: Heap, h': Heap, t: Addr, offs: seq<nat>) {
    && t in h.mem && t in h'.mem && |h'.mem[t].data| == |h.mem[t].data|
    && forall i | 0 <= i < |h.mem[t].data| ::
         if i in offs then Clean(h', h'.mem[t].data[i]) else h'.mem[t].data[i] == h.mem[t].data[i]
  }

  lemma VisitSlotsKeep(h0: Heap, h: Heap, t: Addr, offs: seq<nat>, h': Heap)
    requires Inv(h0, h) && Live(h, t) && VisitSlots(h, t, offs) == Some(h')
    requires forall i | i in offs :: SlotAt(h, t, i)
    ensures Inv(h0, h') && Grows(h, h') && KeepsData(h, h', {t}) && Scanned(h, h', t, offs)
    decreases |offs|
  {
    hide Inv, Mark;
    if offs != [] {
      var i := offs[0];
      var m := Mark(h, h.mem[t].data[i]).value;
      SlotStep(h0, h, t, i, m);
      var h1 := SetSlot(m.h, t, i, m.w);
      forall j | j in offs[1..] ensures SlotAt(h1, t, j) {
        assert j in offs && SlotAt(h, t, j);
      }
      VisitSlotsKeep(h0, h1, t, offs[1..], h');
      GrowsTransitive(h, h1, h');
    }
  }

  lemma RebaseKeeps(h0: Heap, h: Heap, t: Addr)
    requires Inv(h0, h) && Live(h, t)
    ensures var h' := Rebase(h, t); Inv(h0, h') && Grows(h, h') && KeepsData(h, h', {t}) && Live(h', t) && Based(h', t)
  {
    hide Tiled, Reachable, Layout, Collectable, OnlyReachable;
    var b := h.mem[t];
    if HasInterior(b.kind) && InteriorWord(b.kind) < |b.data| {
      var i := InteriorWord(b.kind);
      NotForwarded(h0, h, t);
      assert SetStep(h0, h, Rebase(h, t), t, i, Interior(b.kind, t));
      SetWordKeeps(h0, h, Rebase(h, t), t, i, Interior(b.kind, t));
    }
  }

  lemma VisitKeeps(h0: Heap, h: Heap, t: Addr, h': Heap)
    requires Inv(h0, h) && Live(h, t) && Visit(h, t) == Some(h')
    ensures Inv(h0, h') && Grows(h, h') && KeepsData(h, h', {t}) && Black(h', t)
  {
    hide Inv, Grows, VisitSlots;
    var b := h.mem[t];
    var h1 := Rebase(h, t);
    var offs := Slots(b.kind, |b.data|);
    RebaseKeeps(h0, h, t);
    forall i | i in offs ensures SlotAt(h1, t, i) {
      SlotsAreSlots(b.kind, |b.data|, i);
    }
    VisitSlotsKeep(h0, h1, t, offs, h');
    GrowsTransitive(h, h1, h');
    assert Black(h', t) by {
      VisitBlackens(h1, h', t);
    }
  }

  lemma VisitBlackens(h: Heap, h': Heap, t: Addr)
    requires t in h.mem && Based(h, t) && Grows(h, h')
    requires Scanned(h, h', t, Slots(h.mem[t].kind, |h.mem[t].data|))
    ensures Black(h', t)
  {
    var b := h.mem[t];
    forall i: nat | i < |b.data| ensures i in Slots(b.kind, |b.data|) <==> IsSlot(b.kind, |b.data|, i) {
      SlotsAreSlots(b.kind, |b.data|, i);
    }
  }

  // ----- tri-colour coverage

  function ToSet(s: seq<Addr>): set<Addr> { set a | a in s }

  /** Every reached block is black or waits in a grey queue. */
  ghost predicate Covered(h: Heap, grey: set<Addr>) {
    forall t {:trigger Black(h, t)} | Live(h, t) :: Black(h, t) || t in grey
  }

  /** Blocks that became live since `h`. */
  ghost function Queued(h: Heap, h': Heap): set<Addr>
    requires Grows(h, h')
  {
    ToSet(h'.future.hdrs[|h.future.hdrs|..]) + ToSet(h'.list[|h.list|..])
  }

  lemma BlackStays(h: Heap, h': Heap, t: Addr)
    requires Grows(h, h') && Black(h, t) && h'.mem[t].data == h.mem[t].data
    ensures Black(h', t)
  {
  }

  lemma VisitCovers(h0: Heap, h: Heap, t: Addr, h': Heap, grey: set<Addr>)
    requires Inv(h0, h) && Live(h, t) && Visit(h, t) == Some(h') && Covered(h, grey)
    ensures Inv(h0, h') && Grows(h, h') && Covered(h', grey - {t} + Queued(h, h'))
  {
    hide Inv, Visit;
    VisitKeeps(h0, h, t, h');
    StepCovers(h, h', {t}, grey);
  }

  lemma StepCovers(h: Heap, h': Heap, except: set<Addr>, grey: set<Addr>)
    requires Grows(h, h') && KeepsData(h, h', except) && Covered(h, grey)
    requires forall t | t in except :: Black(h', t)
    ensures Covered(h', grey - except + Queued(h, h'))
  {
    forall t | Live(h', t) ensures Black(h', t) || t in grey - except + Queued(h, h') {
      if t !in except && Live(h, t) && t !in grey {
        assert Black(h, t);
        BlackStays(h, h', t);
      }
    }
  }

  lemma MarkCovers(h0: Heap, h: Heap, w: Word, m: Marked, grey: set<Addr>)
    requires Inv(h0, h) && Mark(h, w) == Some(m) && Covered(h, grey)
    requires w.Ptr? ==> w.a in h.mem && (w.a in h0.mem ==> Reachable(h0, w.a))
    ensures Inv(h0, m.h) && Grows(h, m.h) && Clean(m.h, m.w) && Updated(m.h, w, m.w)
    ensures Covered(m.h, grey + Queued(h, m.h))
  {
    hide Inv, Mark;
    MarkKeeps(h0, h, w, m);
    StepCovers(h, m.h, {}, grey);
  }

  // ----- the queues drain

  ghost function FutureFrom(h: Heap, i: nat): set<Addr> {
    if i <= |h.future.hdrs| then ToSet(h.future.hdrs[i..]) else {}
  }

  ghost function ListFrom(h: Heap, k: nat): set<Addr> {
    if k <= |h.list| then ToSet(h.list[k..]) else {}
  }

  ghost function TenuredFrom(h: Heap, k: nat): set<Addr> {
    if k <= |h.tenured.hdrs| then ToSet(h.tenured.hdrs[k..]) else {}
  }

  lemma CoveredWiden(h: Heap, g: set<Addr>, g': set<Addr>)
    requires Covered(h, g) && g <= g'
    ensures Covered(h, g')
  {
  }

  /** What is queued during a step is at the end of one of the two queues. */
  lemma QueuedIsQueued(h: Heap, h': Heap, i: nat, k: nat)
    requires Grows(h, h') && i <= |h.future.hdrs| && k <= |h.list|
    ensures FutureFrom(h', i) == FutureFrom(h, i) + ToSet(h'.future.hdrs[|h.future.hdrs|..])
    ensures ListFrom(h', k) == ListFrom(h, k) + ToSet(h'.list[|h.list|..])
  {
    QueueExtends(h.future.hdrs, h'.future.hdrs, i);
    QueueExtends(h.list, h'.list, k);
  }

  lemma QueueExtends(q: seq<Addr>, q': seq<Addr>, i: nat)
    requires q <= q' && i <= |q|
    ensures ToSet(q'[i..]) == ToSet(q[i..]) + ToSet(q'[|q|..])
  {
    assert q'[i..] == q[i..] + q'[|q|..];
  }

  lemma HeadIsGrey(q: seq<Addr>, i: nat)
    requires i < |q|
    ensures ToSet(q[i..]) == {q[i]} + ToSet(q[i + 1..])
  {
    assert q[i..] == [q[i]] + q[i + 1..];
  }

  lemma QueueLive(h0: Heap, h: Heap, t: Addr)
    requires Inv(h0, h) && (t in h.future.hdrs || (!h.full && t in h.tenured.hdrs))
    ensures Live(h, t)
  {
  }

  /** Visiting the grey block `t` takes it off; what it greys is at the ends of the two queues. */
  lemma QueueStep(h0: Heap, h: Heap, t: Addr, h': Heap, i: nat, k: nat, extra: set<Addr>)
    requires Inv(h0, h) && Live(h, t) && Visit(h, t) == Some(h') && i <= |h.future.hdrs| && k <= |h.list|
    requires Covered(h, {t} + FutureFrom(h, i) + ListFrom(h, k) + extra)
    ensures Inv(h0, h') && Grows(h, h') && Covered(h', FutureFrom(h', i) + ListFrom(h', k) + extra)
  {
    hide Inv, Covered, Visit, Grows, Live, FutureFrom, ListFrom;
    var g := {t} + FutureFrom(h, i) + ListFrom(h, k) + extra;
    VisitCovers(h0, h, t, h', g);
    QueuedIsQueued(h, h', i, k);
    CoveredWiden(h', g - {t} + Queued(h, h'), FutureFrom(h', i) + ListFrom(h', k) + extra);
  }

  lemma ScanFutureKeeps(h0: Heap, h: Heap, i: nat, h': Heap)
    requires Inv(h0, h) && i <= |h.future.hdrs| && ScanFuture(h, i) == Some(h')
    requires Covered(h, FutureFrom(h, i) + ListFrom(h, 0))
    ensures Inv(h0, h') && Grows(h, h') && Covered(h', ListFrom(h', 0))
    decreases Room(h), Unmarked(h), |h.future.hdrs| - i
  {
    hide Inv, Covered, Visit, Live;
    if i < |h.future.hdrs| {
      var t := h.future.hdrs[i];
      var h1 := Visit(h, t).value;
      HeadIsGrey(h.future.hdrs, i);
      CoveredWiden(h, FutureFrom(h, i) + ListFrom(h, 0), {t} + FutureFrom(h, i + 1) + ListFrom(h, 0) + {});
      QueueLive(h0, h, t);
      QueueStep(h0, h, t, h1, i + 1, 0, {});
      CoveredWiden(h1, FutureFrom(h1, i + 1) + ListFrom(h1, 0) + {}, FutureFrom(h1, i + 1) + ListFrom(h1, 0));
      ScanFutureKeeps(h0, h1, i + 1, h');
      GrowsTransitive(h, h1, h');
    } else {
      CoveredWiden(h, FutureFrom(h, i) + ListFrom(h, 0), ListFrom(h, 0));
      GrowsReflexive(h);
    }
  }

  lemma GrowsReflexive(h: Heap)
    ensures Grows(h, h)
  {
  }

  lemma ScanOldKeeps(h0: Heap, h: Heap, i: nat, h': Heap)
    requires Inv(h0, h) && !h.full && i <= |h.tenured.hdrs| && ScanOld(h, i) == Some(h')
    requires Covered(h, FutureFrom(h, 0) + ListFrom(h, 0) + TenuredFrom(h, i))
    ensures Inv(h0, h') && Grows(h, h') && Covered(h', FutureFrom(h', 0) + ListFrom(h', 0))
    decreases Room(h), Unmarked(h), |h.tenured.hdrs| - i
  {
    hide Inv, Covered, Visit, Live;
    var g := FutureFrom(h, 0) + ListFrom(h, 0) + TenuredFrom(h, i);
    if i < |h.tenured.hdrs| {
      var t := h.tenured.hdrs[i];
      var h1 := Visit(h, t).value;
      HeadIsGrey(h.tenured.hdrs, i);
      CoveredWiden(h, g, {t} + FutureFrom(h, 0) + ListFrom(h, 0) + TenuredFrom(h, i + 1));
      QueueLive(h0, h, t);
      QueueStep(h0, h, t, h1, 0, 0, TenuredFrom(h, i + 1));
      QueueExtends(h.tenured.hdrs, h1.tenured.hdrs, i + 1);
      CoveredWiden(h1, FutureFrom(h1, 0) + ListFrom(h1, 0) + TenuredFrom(h, i + 1),
                   FutureFrom(h1, 0) + ListFrom(h1, 0) + TenuredFrom(h1, i + 1));
      ScanOldKeeps(h0, h1, i + 1, h');
      GrowsTransitive(h, h1, h');
    } else {
      CoveredWiden(h, g, FutureFrom(h, 0) + ListFrom(h, 0));
      GrowsReflexive(h);
    }
  }

  lemma WalkListKeeps(h0: Heap, h: Heap, k: nat, i: nat, h': Heap)
    requires Inv(h0, h) && ListLive(h) && k <= |h.list| && i <= |h.future.hdrs| && WalkList(h, k) == Some(h')
    requires Covered(h, FutureFrom(h, i) + ListFrom(h, k))
    ensures Inv(h0, h') && Grows(h, h') && Covered(h', FutureFrom(h', i))
    decreases Room(h), Unmarked(h), |h.list| - k
  {
    hide Inv, Covered, Visit, Live;
    var g := FutureFrom(h, i) + ListFrom(h, k);
    if k < |h.list| {
      var t := h.list[k];
      var h1 := Visit(h, t).value;
      HeadIsGrey(h.list, k);
      CoveredWiden(h, g, {t} + FutureFrom(h, i) + ListFrom(h, k + 1) + {});
      QueueStep(h0, h, t, h1, i, k + 1, {});
      CoveredWiden(h1, FutureFrom(h1, i) + ListFrom(h1, k + 1) + {}, FutureFrom(h1, i) + ListFrom(h1, k + 1));
      WalkListKeeps(h0, h1, k + 1, i, h');
      GrowsTransitive(h, h1, h');
    } else {
      CoveredWiden(h, g, FutureFrom(h, i));
      GrowsReflexive(h);
    }
  }
}
