/**
 What one collection keeps at every step. A heap `h` in the middle of a collection is compared with the
 heap `h0` it started from: every block of `h0` is still there, either in place or forwarded to a copy,
 and every word is the original one or its forwarded image.
 */
module HeapInvariant {
  import opened Wrappers
  import opened HeapModel

  // ----- spaces

  /** The bump-space invariant: `pos`, `free` and the header walk agree. */
  ghost predicate Tiled(mem: map<Addr, Block>, s: Space) {
    && s.base <= s.pos
    && s.pos + s.free == s.base + s.size
    && (forall i | 0 <= i < |s.hdrs| :: s.hdrs[i] in mem)
    && (forall i | 0 <= i < |s.hdrs| :: s.base <= s.hdrs[i] < s.hdrs[i] + BlockWords(mem[s.hdrs[i]]) <= s.pos)
    && (forall i, j | 0 <= i < j < |s.hdrs| :: s.hdrs[i] + BlockWords(mem[s.hdrs[i]]) <= s.hdrs[j])
    && (forall i, j | 0 <= i < j < |s.hdrs| && j == i + 1 :: s.hdrs[i] + BlockWords(mem[s.hdrs[i]]) == s.hdrs[j])
    && (s.hdrs != [] ==> s.hdrs[|s.hdrs| - 1] + BlockWords(mem[s.hdrs[|s.hdrs| - 1]]) == s.pos)
    && (if s.hdrs == [] then s.pos == s.base else s.hdrs[0] == s.base)
  }

  predicate Apart(b1: Addr, n1: nat, b2: Addr, n2: nat) { b1 + n1 <= b2 || b2 + n2 <= b1 }

  /** The four spaces are where `heap_init` and the first promotion put them. */
  ghost predicate Geometry(h: Heap) {
    && h.nursery.size == FRESH_WORDS && h.survived.size == SURVIVED_WORDS && h.future.size == SURVIVED_WORDS
    && (h.tenured == Space(h.tenured.base, 0, h.tenured.base, 0, [])
        || (h.tenured.base == h.oldBase && h.tenured.size == OLD_WORDS))
    && Apart(h.nursery.base, FRESH_WORDS, h.survived.base, SURVIVED_WORDS)
    && Apart(h.nursery.base, FRESH_WORDS, h.future.base, SURVIVED_WORDS)
    && Apart(h.survived.base, SURVIVED_WORDS, h.future.base, SURVIVED_WORDS)
    && Apart(h.oldBase, OLD_WORDS, h.nursery.base, FRESH_WORDS)
    && Apart(h.oldBase, OLD_WORDS, h.survived.base, SURVIVED_WORDS)
    && Apart(h.oldBase, OLD_WORDS, h.future.base, SURVIVED_WORDS)
  }

  ghost predicate Layout(h: Heap) {
    && Geometry(h)
    && Tiled(h.mem, h.nursery) && Tiled(h.mem, h.survived) && Tiled(h.mem, h.future) && Tiled(h.mem, h.tenured)
    && (forall a | a in h.mem ::
          a in h.nursery.hdrs || a in h.survived.hdrs || a in h.future.hdrs || a in h.tenured.hdrs)
    && (forall a | a in h.mem :: |h.mem[a].data| >= MinWords(h.mem[a].kind))
  }

  lemma Listed(mem: map<Addr, Block>, s: Space, a: Addr)
    requires Tiled(mem, s) && a in s.hdrs
    ensures a in mem && s.base <= a && a + BlockWords(mem[a]) <= s.pos <= s.base + s.size
  {
  }

  lemma InSpaceIsListed(h: Heap, a: Addr)
    requires Layout(h) && a in h.mem
    ensures InSpace(h.future, a + 1) <==> a in h.future.hdrs
    ensures InSpace(h.tenured, a + 1) <==> a in h.tenured.hdrs
    ensures InSpace(h.survived, a + 1) <==> a in h.survived.hdrs
    ensures InSpace(h.nursery, a + 1) <==> a in h.nursery.hdrs
    ensures |h.mem[a].data| > 0
  {
    hide Tiled;
    ListedIn(h.mem, h.nursery, a);
    ListedIn(h.mem, h.survived, a);
    ListedIn(h.mem, h.future, a);
    ListedIn(h.mem, h.tenured, a);
  }

  lemma ListedIn(mem: map<Addr, Block>, s: Space, a: Addr)
    requires Tiled(mem, s) && a in mem && |mem[a].data| > 0
    ensures a in s.hdrs ==> InSpace(s, a + 1)
  {
  }

  // ----- the state of one block

  ghost predicate Moved(h: Heap, a: Addr) { a in h.mem && h.mem[a].forward }

  ghost predicate Copied(h: Heap, a: Addr) { a in h.mem && (a in h.future.hdrs || (!h.full && a in h.tenured.hdrs)) }

  ghost predicate MarkedInPlace(h: Heap, a: Addr) {
    a in h.mem && h.full && h.mem[a].remembered && !h.mem[a].forward && a !in h.future.hdrs
    && (a in h.tenured.hdrs || h.mem[a].gen == PROMOTION_AGE)
  }

  /** Reached by this collection, at its final address: a reference to such a block needs no update. */
  ghost predicate Live(h: Heap, a: Addr) { Copied(h, a) || MarkedInPlace(h, a) }

  ghost predicate Clean(h: Heap, w: Word) { w.Ptr? ==> Live(h, w.a) }

  /** A scanned block: no slot refers to a block still to be moved or marked. */
  ghost predicate Black(h: Heap, t: Addr) {
    && t in h.mem
    && (forall i | 0 <= i < |h.mem[t].data| && IsSlot(h.mem[t].kind, |h.mem[t].data|, i) :: Clean(h, h.mem[t].data[i]))
    && Based(h, t)
  }

  ghost predicate Based(h: Heap, t: Addr)
    requires t in h.mem
  {
    var b := h.mem[t];
    HasInterior(b.kind) && InteriorWord(b.kind) < |b.data| ==>
      b.data[InteriorWord(b.kind)] == Interior(b.kind, t)
  }

  // ----- reachability in the heap the collection starts from

  ghost predicate Edge(h: Heap, a: Addr, b: Addr) {
    a in h.mem &&
    exists i :: 0 <= i < |h.mem[a].data| && IsSlot(h.mem[a].kind, |h.mem[a].data|, i) && h.mem[a].data[i] == Ptr(b)
  }

  /** A minor collection treats the whole old space as roots. */
  ghost predicate RootOf(h: Heap, a: Addr) {
    Ptr(a) in h.roots || (!h.full && a in h.tenured.hdrs)
  }

  ghost predicate IsPath(h: Heap, p: seq<Addr>) {
    |p| > 0 && RootOf(h, p[0]) && forall j | 0 <= j < |p| - 1 :: Edge(h, p[j], p[j + 1])
  }

  ghost predicate Reachable(h: Heap, a: Addr) {
    exists p :: IsPath(h, p) && p[|p| - 1] == a
  }

  lemma ReachableRoot(h: Heap, a: Addr)
    requires RootOf(h, a)
    ensures Reachable(h, a)
  {
    assert IsPath(h, [a]) && [a][|[a]| - 1] == a;
  }

  lemma ReachableStep(h: Heap, a: Addr, b: Addr)
    requires Reachable(h, a) && Edge(h, a, b)
    ensures Reachable(h, b)
  {
    var p :| IsPath(h, p) && p[|p| - 1] == a;
    var q := p + [b];
    assert IsPath(h, q) && q[|q| - 1] == b;
  }

  // ----- the invariant

  /** `h0` may be collected: nothing forwarded, all references resolve, the copy target is empty. */
  ghost predicate Collectable(h0: Heap) {
    && Layout(h0)
    && h0.future == EmptySpace(h0.future.base, SURVIVED_WORDS)
    && h0.list == []
    && (forall a | a in h0.mem :: !h0.mem[a].forward && !h0.mem[a].remembered && h0.mem[a].gen <= PROMOTION_AGE)
    && (forall a, b | Edge(h0, a, b) :: b in h0.mem)
    && (forall i | 0 <= i < |h0.roots| && h0.roots[i].Ptr? :: h0.roots[i].a in h0.mem)
  }

  /** Word `i` of the block at `t` is that of `h0`'s block `a`, its forwarded image, or the re-based pointer. */
  ghost predicate WordImage(h0: Heap, h: Heap, a: Addr, t: Addr, i: nat)
    requires a in h0.mem && t in h.mem && i < |h0.mem[a].data| == |h.mem[t].data|
  {
    var b := h0.mem[a];
    var w0, w := b.data[i], h.mem[t].data[i];
    || w == w0
    || (IsSlot(b.kind, |b.data|, i) && w0.Ptr? && Moved(h, w0.a) && w == Ptr(Target(h.mem[w0.a])))
    || (HasInterior(b.kind) && i == InteriorWord(b.kind) && w == Interior(b.kind, t))
  }

  ghost predicate BlockImage(h0: Heap, h: Heap, a: Addr, t: Addr) {
    && a in h0.mem && t in h.mem
    && h.mem[t].kind == h0.mem[a].kind
    && |h.mem[t].data| == |h0.mem[a].data|
    && !h.mem[t].forward
    && (forall i {:trigger WordImage(h0, h, a, t, i)} | 0 <= i < |h0.mem[a].data| :: WordImage(h0, h, a, t, i))
  }

  /** Where `h0`'s block `a` is now. */
  ghost function Image(h: Heap, a: Addr): Addr
    requires a in h.mem
  {
    if h.mem[a].forward then Target(h.mem[a]) else a
  }

  ghost predicate OldBlock(h0: Heap, h: Heap, a: Addr)
    requires a in h0.mem
  {
    && a in h.mem
    && h.mem[a].gen == h0.mem[a].gen
    && h.mem[a].kind == h0.mem[a].kind
    && |h.mem[a].data| == |h0.mem[a].data|
    && BlockImage(h0, h, a, Image(h, a))
    && (if h.mem[a].forward then
          && a !in h0.tenured.hdrs
          && Image(h, a) !in h0.mem
          && h.mem[Image(h, a)].gen == (h0.mem[a].gen + 1) % 4
          && (if h0.mem[a].gen == PROMOTION_AGE then !h.full && Image(h, a) in h.tenured.hdrs
              else Image(h, a) in h.future.hdrs)
        else Live(h, a) || h.mem[a] == h0.mem[a])
  }

  ghost predicate Same(h0: Heap, h: Heap) {
    && h.nursery == h0.nursery && h.survived == h0.survived && h.oldBase == h0.oldBase && h.full == h0.full
    && h.future.base == h0.future.base
    && h0.tenured.hdrs <= h.tenured.hdrs
    && (h0.tenured.size != 0 ==> h.tenured.size != 0)
    && |h.roots| == |h0.roots|
  }

  /** The block at `t` is a copy. */
  ghost predicate HasOrigin(h0: Heap, h: Heap, t: Addr) {
    exists a :: a in h0.mem && Moved(h, a) && Image(h, a) == t
  }

  ghost predicate Images(h0: Heap, h: Heap) {
    && (forall a {:trigger OldBlock(h0, h, a)} | a in h0.mem :: OldBlock(h0, h, a))
    && (forall a, b | a in h0.mem && b in h0.mem && Moved(h, a) && Moved(h, b) && a != b :: Image(h, a) != Image(h, b))
    && (forall t {:trigger HasOrigin(h0, h, t)} | t in h.mem && t !in h0.mem :: HasOrigin(h0, h, t))
  }

  ghost predicate OnlyReachable(h0: Heap, h: Heap) {
    forall a | a in h0.mem && (Moved(h, a) || Live(h, a)) :: Reachable(h0, a)
  }

  // ----- space accounting

  /** Words, headers included, of the listed blocks that are selected. */
  ghost function Weight(m: map<Addr, Block>, hs: seq<Addr>, sel: set<Addr>): nat {
    if hs == [] then 0 else
    var a := hs[|hs| - 1];
    Weight(m, hs[..|hs| - 1], sel) + if a in sel && a in m then BlockWords(m[a]) else 0
  }

  lemma WeightAdd(m: map<Addr, Block>, hs: seq<Addr>, sel: set<Addr>, a: Addr)
    requires forall i, j | 0 <= i < j < |hs| :: hs[i] != hs[j]
    requires a !in sel && a in m
    ensures Weight(m, hs, sel + {a}) == Weight(m, hs, sel) + if a in hs then BlockWords(m[a]) else 0
  {
    if hs != [] {
      WeightAdd(m, hs[..|hs| - 1], sel, a);
    }
  }

  lemma WeightMonotone(m: map<Addr, Block>, hs: seq<Addr>, sel: set<Addr>, sel': set<Addr>)
    requires sel <= sel'
    ensures Weight(m, hs, sel) <= Weight(m, hs, sel')
  {
  }

  lemma WeightNone(m: map<Addr, Block>, hs: seq<Addr>)
    ensures Weight(m, hs, {}) == 0
  {
  }

  function Young(h0: Heap): seq<Addr> { h0.nursery.hdrs + h0.survived.hdrs }

  ghost function MovedSet(h0: Heap, h: Heap, aged: bool): set<Addr> {
    set a | a in h0.mem && Moved(h, a) && (h0.mem[a].gen == PROMOTION_AGE) == aged
  }

  function TenuredFree(h: Heap): nat {
    if h.tenured.size == 0 then OLD_WORDS else h.tenured.free
  }

  /** What was copied is exactly what the two target spaces have lost. */
  ghost predicate Accounts(h0: Heap, h: Heap) {
    && h.future.free + Weight(h0.mem, Young(h0), MovedSet(h0, h, false)) == SURVIVED_WORDS
    && TenuredFree(h) + Weight(h0.mem, Young(h0), MovedSet(h0, h, true)) == TenuredFree(h0)
  }

  lemma SameAccounts(h0: Heap, h: Heap, h': Heap)
    requires Accounts(h0, h) && h'.future == h.future && h'.tenured == h.tenured
    requires forall a | a in h0.mem :: Moved(h', a) <==> Moved(h, a)
    ensures Accounts(h0, h')
  {
    assert MovedSet(h0, h', false) == MovedSet(h0, h, false);
    assert MovedSet(h0, h', true) == MovedSet(h0, h, true);
  }

  lemma YoungDistinct(h0: Heap)
    requires Layout(h0)
    ensures forall i, j | 0 <= i < j < |Young(h0)| :: Young(h0)[i] != Young(h0)[j]
    ensures forall a | a in h0.mem && a !in h0.future.hdrs && a !in h0.tenured.hdrs :: a in Young(h0)
  {
    forall i, j | 0 <= i < j < |Young(h0)| ensures Young(h0)[i] != Young(h0)[j] {
      if i < |h0.nursery.hdrs| <= j {
        Listed(h0.mem, h0.nursery, Young(h0)[i]);
        Listed(h0.mem, h0.survived, Young(h0)[j]);
      }
    }
  }

  ghost predicate Inv(h0: Heap, h: Heap) {
    && Collectable(h0)
    && Layout(h)
    && Same(h0, h)
    && Images(h0, h)
    && OnlyReachable(h0, h)
    && Accounts(h0, h)
    && NoMarks(h)
  }

  /** The remembered bit is set by marking only. */
  ghost predicate NoMarks(h: Heap) {
    !h.full ==> forall t | t in h.mem :: !h.mem[t].remembered
  }

  lemma InvInit(h0: Heap)
    requires Collectable(h0)
    ensures Inv(h0, h0)
  {
    hide Tiled;
    forall a | a in h0.mem && Live(h0, a) ensures Reachable(h0, a) {
      ReachableRoot(h0, a);
    }
    assert MovedSet(h0, h0, false) == {} && MovedSet(h0, h0, true) == {};
    WeightNone(h0.mem, Young(h0));
  }

  // ----- one call of heap_mark

  /** What every step keeps of the heap before it. */
  ghost predicate Grows(h: Heap, h': Heap) {
    && h.future.hdrs <= h'.future.hdrs
    && h.tenured.hdrs <= h'.tenured.hdrs
    && h.list <= h'.list
    && h'.full == h.full
    && (ListLive(h) ==> ListLive(h'))
    && (forall a | a in h.mem :: a in h'.mem && h'.mem[a].kind == h.mem[a].kind && |h'.mem[a].data| == |h.mem[a].data|)
    && (forall a | Live(h, a) :: Live(h', a))
    && (forall a | Moved(h, a) :: Moved(h', a) && h'.mem[a].data == h.mem[a].data)
    && (forall t | Live(h', t) && !Live(h, t) ::
          t in h'.future.hdrs[|h.future.hdrs|..] || t in h'.list[|h.list|..])
  }

  ghost predicate ListLive(h: Heap) { forall a | a in h.list :: Live(h, a) }

  ghost predicate KeepsData(h: Heap, h': Heap, except: set<Addr>) {
    forall c | Live(h, c) && c !in except :: c in h.mem && c in h'.mem && h'.mem[c].data == h.mem[c].data
  }

  lemma GrowsTransitive(h1: Heap, h2: Heap, h3: Heap)
    requires Grows(h1, h2) && Grows(h2, h3)
    ensures Grows(h1, h3)
  {
    forall t | Live(h3, t) && !Live(h1, t)
      ensures t in h3.future.hdrs[|h1.future.hdrs|..] || t in h3.list[|h1.list|..]
    {
      if Live(h2, t) {
        if t in h2.future.hdrs[|h1.future.hdrs|..] {
          var k :| |h1.future.hdrs| <= k < |h2.future.hdrs| && h2.future.hdrs[k] == t;
          assert h3.future.hdrs[k] == t;
        } else {
          var k :| |h1.list| <= k < |h2.list| && h2.list[k] == t;
          assert h3.list[k] == t;
        }
      }
    }
  }

  /** Copying block `a` to `t`, in either of the two spaces. */
  ghost predicate CopyStep(h: Heap, h': Heap, a: Addr, t: Addr) {
    && a in h.mem && !h.mem[a].forward && |h.mem[a].data| > 0 && t !in h.mem
    && a !in h.future.hdrs && a !in h.tenured.hdrs
    && !MarkedInPlace(h, a)
    && h'.mem.Keys == h.mem.Keys + {t}
    && (forall c | c in h.mem && c != a :: h'.mem[c] == h.mem[c])
    && h'.mem[a].forward && h'.mem[a].kind == h.mem[a].kind && h'.mem[a].gen == h.mem[a].gen
    && h'.mem[a].data == h.mem[a].data[0 := Raw(t + 1)]
    && (h.mem[a].remembered || !h'.mem[a].remembered)
    && h'.mem[t] == h.mem[a].(forward := false, gen := (h.mem[a].gen + 1) % 4)
    && h'.full == h.full && h'.nursery == h.nursery && h'.survived == h.survived && h'.oldBase == h.oldBase
    && h'.roots == h.roots
    && (if h.mem[a].gen == PROMOTION_AGE then
          && !h.full && h'.future == h.future && h'.list == h.list + [t]
          && h'.tenured.hdrs == h.tenured.hdrs + [t]
          && TenuredFree(h') + BlockWords(h.mem[a]) == TenuredFree(h)
        else
          && h'.future.base == h.future.base && h'.tenured == h.tenured && h'.list == h.list
          && h'.future.hdrs == h.future.hdrs + [t]
          && h'.future.free + BlockWords(h.mem[a]) == h.future.free)
  }

  lemma TiledBump(m: map<Addr, Block>, m': map<Addr, Block>, s: Space, t: Addr)
    requires Tiled(m, s) && t == s.pos && t in m' && BlockWords(m'[t]) <= s.free
    requires forall c | c in m :: c in m' && |m'[c].data| == |m[c].data|
    ensures Tiled(m', Bump(s, BlockWords(m'[t])))
  {
    TiledKept(m, m', s);
    TiledPush(m', s);
  }

  lemma TiledPush(m: map<Addr, Block>, s: Space)
    requires Tiled(m, s) && s.pos in m && BlockWords(m[s.pos]) <= s.free
    ensures Tiled(m, Bump(s, BlockWords(m[s.pos])))
  {
    var n := |s.hdrs|;
    var hs := Bump(s, BlockWords(m[s.pos])).hdrs;
    forall i | 0 <= i <= n ensures hs[i] in m && s.base <= hs[i] && (i < n ==> hs[i] == s.hdrs[i] && hs[i] + BlockWords(m[hs[i]]) <= s.pos) {
    }
  }

  lemma TiledKept(m: map<Addr, Block>, m': map<Addr, Block>, s: Space)
    requires Tiled(m, s)
    requires forall c | c in m :: c in m' && |m'[c].data| == |m[c].data|
    ensures Tiled(m', s)
  {
  }

  lemma PosNotListed(mem: map<Addr, Block>, s: Space, a: Addr)
    requires Tiled(mem, s)
    ensures s.base <= s.pos <= s.base + s.size && s.pos + s.free == s.base + s.size
    ensures a < s.base || s.pos <= a ==> a !in s.hdrs
  {
  }

  lemma PosIsUnused(h: Heap, s: Space)
    requires Layout(h) && s.free > 0
    requires s == h.future || s == AllocateOld(h).tenured
    ensures s.pos !in h.mem
  {
    hide Tiled;
    var a := s.pos;
    PosNotListed(h.mem, h.nursery, a);
    PosNotListed(h.mem, h.survived, a);
    PosNotListed(h.mem, h.future, a);
    PosNotListed(h.mem, h.tenured, a);
  }

  lemma PromoteCopies(h: Heap, a: Addr)
    requires Layout(h) && a in h.mem && a !in h.future.hdrs && a !in h.tenured.hdrs && !h.mem[a].forward
    requires !h.full && h.mem[a].gen == PROMOTION_AGE
    ensures |h.mem[a].data| > 0
    ensures Promote(h, a).Some? ==>
              var m := Promote(h, a).value;
              m.w.Ptr? && CopyStep(h, m.h, a, m.w.a) && Layout(m.h)
  {
    hide Tiled;
    InSpaceIsListed(h, a);
    if Promote(h, a).Some? {
      var m := Promote(h, a).value;
      var h1 := AllocateOld(h);
      PosIsUnused(h, h1.tenured);
      assert CopyStep(h, m.h, a, m.w.a);
      TiledBump(h.mem, m.h.mem, h1.tenured, m.w.a);
      CopyLayout(h, m.h, a, m.w.a);
    }
  }

  lemma EvacuateCopies(h: Heap, a: Addr)
    requires Layout(h) && a in h.mem && a !in h.future.hdrs && a !in h.tenured.hdrs && !h.mem[a].forward
    requires h.mem[a].gen != PROMOTION_AGE
    ensures |h.mem[a].data| > 0
    ensures Evacuate(h, a).Some? ==>
              var m := Evacuate(h, a).value;
              m.w.Ptr? && CopyStep(h, m.h, a, m.w.a) && Layout(m.h)
  {
    hide Tiled;
    InSpaceIsListed(h, a);
    if Evacuate(h, a).Some? {
      var m := Evacuate(h, a).value;
      PosIsUnused(h, h.future);
      assert CopyStep(h, m.h, a, m.w.a);
      TiledBump(h.mem, m.h.mem, h.future, m.w.a);
      CopyLayout(h, m.h, a, m.w.a);
    }
  }

  lemma CopyLayout(h: Heap, h': Heap, a: Addr, t: Addr)
    requires Layout(h) && CopyStep(h, h', a, t) && Geometry(h')
    requires Tiled(h'.mem, if h.mem[a].gen == PROMOTION_AGE then h'.tenured else h'.future)
    ensures Layout(h')
  {
    hide Tiled, Geometry;
    CopySizes(h, h', a, t);
    TiledKept(h.mem, h'.mem, h.nursery);
    TiledKept(h.mem, h'.mem, h.survived);
    TiledKept(h.mem, h'.mem, h.future);
    TiledKept(h.mem, h'.mem, h.tenured);
  }

  lemma CopySizes(h: Heap, h': Heap, a: Addr, t: Addr)
    requires CopyStep(h, h', a, t)
    ensures forall c | c in h.mem :: c in h'.mem && |h'.mem[c].data| == |h.mem[c].data|
  {
  }

  lemma FromBlock(h0: Heap, h: Heap, a: Addr)
    requires Inv(h0, h) && a in h.mem && !h.mem[a].forward && !Live(h, a)
    ensures a in h0.mem && h.mem[a] == h0.mem[a]
    ensures a !in h.future.hdrs
    ensures !h.full ==> a !in h.tenured.hdrs
  {
    hide Tiled;
    assert a in h0.mem ==> OldBlock(h0, h, a);
    assert a !in h0.mem ==> HasOrigin(h0, h, a);
    assert HasOrigin(h0, h, a) ==> exists c :: c in h0.mem && OldBlock(h0, h, c) && Image(h, c) == a;
  }

  lemma OldBlockAfterCopy(h0: Heap, h: Heap, h': Heap, a: Addr, t: Addr, c: Addr)
    requires Inv(h0, h) && CopyStep(h, h', a, t) && a in h0.mem && h.mem[a] == h0.mem[a]
    requires c in h0.mem
    ensures OldBlock(h0, h', c)
  {
    hide Tiled, Layout, Collectable, OnlyReachable;
    assert OldBlock(h0, h, c);
    assert t in h0.mem ==> OldBlock(h0, h, t);
    assert a !in h0.tenured.hdrs;
    if c == a {
      assert Image(h', a) == t;
      assert BlockImage(h0, h', a, t);
    } else {
      var d := Image(h, c);
      assert d != a && h'.mem[d] == h.mem[d] && Image(h', c) == d;
      forall i | 0 <= i < |h0.mem[c].data| ensures WordImage(h0, h', c, d, i) {
        assert WordImage(h0, h, c, d, i);
      }
    }
  }

  lemma CopyKeeps(h0: Heap, h: Heap, h': Heap, a: Addr, t: Addr)
    requires Inv(h0, h) && CopyStep(h, h', a, t) && Layout(h')
    requires a in h0.mem && h.mem[a] == h0.mem[a] && Reachable(h0, a)
    ensures Inv(h0, h') && Grows(h, h') && Live(h', t)
    ensures Moved(h', a) && Target(h'.mem[a]) == t
    ensures KeepsData(h, h', {})
  {
    hide Tiled, Reachable, BlockImage, OldBlock, CopyStep, Grows, KeepsData, Accounts, OnlyReachable;
    forall c | c in h0.mem ensures OldBlock(h0, h', c) {
      OldBlockAfterCopy(h0, h, h', a, t, c);
    }
    CopyImages(h0, h, h', a, t);
    CopyAccounts(h0, h, h', a, t);
    CopyReaches(h0, h, h', a, t);
    CopyGrows(h, h', a, t);
  }

  lemma CopyReaches(h0: Heap, h: Heap, h': Heap, a: Addr, t: Addr)
    requires Inv(h0, h) && CopyStep(h, h', a, t) && Layout(h')
    requires a in h0.mem && h.mem[a] == h0.mem[a] && Reachable(h0, a)
    ensures OnlyReachable(h0, h') && Same(h0, h') && NoMarks(h')
  {
    hide Tiled, Reachable, BlockImage, Accounts;
    forall c | c in h0.mem && (Moved(h', c) || Live(h', c)) ensures Reachable(h0, c) {
      assert OldBlock(h0, h, c);
      assert c == a || Moved(h, c) || Live(h, c);
    }
  }

  lemma CopyGrows(h: Heap, h': Heap, a: Addr, t: Addr)
    requires Layout(h) && CopyStep(h, h', a, t) && Layout(h')
    ensures Grows(h, h') && Live(h', t) && Moved(h', a) && Target(h'.mem[a]) == t && KeepsData(h, h', {})
  {
    hide Tiled, Geometry;
  }

  lemma CopyAccounts(h0: Heap, h: Heap, h': Heap, a: Addr, t: Addr)
    requires Inv(h0, h) && CopyStep(h, h', a, t) && a in h0.mem && h.mem[a] == h0.mem[a]
    ensures Accounts(h0, h')
  {
    hide Tiled, OnlyReachable;
    var aged := h0.mem[a].gen == PROMOTION_AGE;
    assert t in h0.mem ==> OldBlock(h0, h, t);
    assert MovedSet(h0, h', aged) == MovedSet(h0, h, aged) + {a};
    assert MovedSet(h0, h', !aged) == MovedSet(h0, h, !aged);
    YoungDistinct(h0);
    WeightAdd(h0.mem, Young(h0), MovedSet(h0, h, aged), a);
  }

  lemma CopyImages(h0: Heap, h: Heap, h': Heap, a: Addr, t: Addr)
    requires Inv(h0, h) && CopyStep(h, h', a, t)
    requires a in h0.mem && h.mem[a] == h0.mem[a]
    requires forall c | c in h0.mem :: OldBlock(h0, h', c)
    ensures Images(h0, h')
  {
    hide Tiled, Layout, Collectable, OnlyReachable, WordImage;
    forall c, d | c in h0.mem && d in h0.mem && Moved(h', c) && Moved(h', d) && c != d
      ensures Image(h', c) != Image(h', d)
    {
      assert c != a ==> OldBlock(h0, h, c) && Moved(h, c) && Image(h, c) in h.mem;
      assert d != a ==> OldBlock(h0, h, d) && Moved(h, d) && Image(h, d) in h.mem;
    }
    forall u | u in h'.mem && u !in h0.mem ensures HasOrigin(h0, h', u) {
      if u == t {
        assert Moved(h', a) && Image(h', a) == u;
      } else {
        assert HasOrigin(h0, h, u);
      var c :| c in h0.mem && Moved(h, c) && Image(h, c) == u;
        assert Moved(h', c) && Image(h', c) == u;
      }
    }
  }

  lemma SameShape(h: Heap, h': Heap)
    requires Layout(h) && h'.mem.Keys == h.mem.Keys
    requires forall a | a in h.mem :: h'.mem[a].kind == h.mem[a].kind && |h'.mem[a].data| == |h.mem[a].data|
    requires h'.nursery == h.nursery && h'.survived == h.survived && h'.future == h.future && h'.tenured == h.tenured
    requires h'.oldBase == h.oldBase
    ensures Layout(h')
  {
    hide Tiled;
    TiledKept(h.mem, h'.mem, h.nursery);
    TiledKept(h.mem, h'.mem, h.survived);
    TiledKept(h.mem, h'.mem, h.future);
    TiledKept(h.mem, h'.mem, h.tenured);
  }

  lemma RememberImages(h0: Heap, h: Heap, a: Addr)
    requires Inv(h0, h) && h.full && a in h.mem && a !in h.future.hdrs && !h.mem[a].remembered && !h.mem[a].forward
    requires a in h.tenured.hdrs || h.mem[a].gen == PROMOTION_AGE
    ensures Images(h0, Remember(h, a))
  {
    hide Tiled, Reachable, OnlyReachable, Layout, Collectable;
    var h' := Remember(h, a);
    FromBlock(h0, h, a);
    forall c | c in h0.mem ensures OldBlock(h0, h', c) {
      assert OldBlock(h0, h, c);
      forall i | 0 <= i < |h0.mem[c].data| ensures WordImage(h0, h', c, Image(h', c), i) {
        assert WordImage(h0, h, c, Image(h, c), i);
      }
    }
    forall u | u in h'.mem && u !in h0.mem ensures HasOrigin(h0, h', u) {
      assert HasOrigin(h0, h, u);
      var c :| c in h0.mem && Moved(h, c) && Image(h, c) == u;
      assert Moved(h', c) && Image(h', c) == u;
    }
  }

  lemma RememberKeeps(h0: Heap, h: Heap, a: Addr)
    requires Inv(h0, h) && h.full && a in h.mem && a !in h.future.hdrs && !h.mem[a].remembered && !h.mem[a].forward
    requires a in h.tenured.hdrs || h.mem[a].gen == PROMOTION_AGE
    requires Reachable(h0, a)
    ensures Inv(h0, Remember(h, a)) && Grows(h, Remember(h, a)) && Live(Remember(h, a), a)
  {
    hide Tiled, Reachable, Layout, Images, Collectable;
    var h' := Remember(h, a);
    SameShape(h, h');
    RememberImages(h0, h, a);
    SameAccounts(h0, h, h');
    forall c | c in h0.mem && (Moved(h', c) || Live(h', c)) ensures Reachable(h0, c) {
      assert c == a || Moved(h, c) || Live(h, c);
    }
  }

  /** The slot word after `heap_mark`: unchanged, or the forwarded image. */
  ghost predicate Updated(h: Heap, w: Word, w': Word) {
    w' == w || (w.Ptr? && Moved(h, w.a) && w' == Ptr(Target(h.mem[w.a])))
  }

  lemma MarkKeeps(h0: Heap, h: Heap, w: Word, m: Marked)
    requires Inv(h0, h) && Mark(h, w) == Some(m)
    requires w.Ptr? ==> w.a in h.mem && (w.a in h0.mem ==> Reachable(h0, w.a))
    ensures Inv(h0, m.h) && Grows(h, m.h) && Clean(m.h, m.w) && Updated(m.h, w, m.w) && KeepsData(h, m.h, {})
  {
    hide Tiled, Reachable, Images, OnlyReachable, Collectable;
    if w.Ptr? {
      var a := w.a;
      InSpaceIsListed(h, a);
      if Live(h, a) {
      } else if h.mem[a].forward {
        ForwardedTarget(h0, h, a);
      } else {
        FromBlock(h0, h, a);
        if h.full && (a in h.tenured.hdrs || h.mem[a].gen == PROMOTION_AGE) {
          RememberKeeps(h0, h, a);
        } else {
          if h.mem[a].gen == PROMOTION_AGE { PromoteCopies(h, a); } else { EvacuateCopies(h, a); }
          CopyKeeps(h0, h, m.h, a, m.w.a);
        }
      }
    }
  }

  lemma ForwardedTarget(h0: Heap, h: Heap, a: Addr)
    requires Inv(h0, h) && Moved(h, a)
    ensures a in h0.mem && a !in h.future.hdrs && a !in h.tenured.hdrs
    ensures Target(h.mem[a]) in h.mem && Live(h, Target(h.mem[a]))
  {
    hide Tiled;
    assert a in h0.mem ==> OldBlock(h0, h, a);
    assert HasOrigin(h0, h, a) ==> exists c :: c in h0.mem && OldBlock(h0, h, c) && Image(h, c) == a;
    InSpaceIsListed(h, a);
  }

  // ----- one visited block

  /** `h'` is `h` with word `i` of the block at `t` replaced by an image of the word it started as. */
  ghost predicate SetStep(h0: Heap, h: Heap, h': Heap, t: Addr, i: nat, w: Word) {
    && Live(h, t) && i < |h.mem[t].data| && h' == SetSlot(h, t, i, w)
    && (forall a | OldBlockAt(h0, h, a, t) :: WordImage(h0, h', a, t, i))
  }

  ghost predicate OldBlockAt(h0: Heap, h: Heap, a: Addr, t: Addr) {
    a in h0.mem && OldBlock(h0, h, a) && Image(h, a) == t
  }

  lemma SetWordKeeps(h0: Heap, h: Heap, h': Heap, t: Addr, i: nat, w: Word)
    requires Inv(h0, h) && SetStep(h0, h, h', t, i, w)
    ensures Inv(h0, h') && Grows(h, h')
    ensures KeepsData(h, h', {t})
  {
    hide Tiled, Reachable, Layout, Images, Collectable, OnlyReachable, WordImage;
    NotForwarded(h0, h, t);
    SetWordGrows(h, t, i, w);
    SetWordImages(h0, h, h', t, i, w);
    SetWordInv(h0, h, h');
  }

  lemma SetWordInv(h0: Heap, h: Heap, h': Heap)
    requires Inv(h0, h) && Images(h0, h') && h' == h.(mem := h'.mem) && h'.mem.Keys == h.mem.Keys
    requires forall a | a in h.mem :: h'.mem[a].kind == h.mem[a].kind && |h'.mem[a].data| == |h.mem[a].data|
    requires forall a | a in h.mem :: h'.mem[a].remembered == h.mem[a].remembered
    requires forall c :: (Live(h', c) <==> Live(h, c)) && (Moved(h', c) <==> Moved(h, c))
    ensures Inv(h0, h')
  {
    hide Tiled, Reachable, Layout, Images, Collectable, Moved, Live, Accounts;
    SameShape(h, h');
    SameAccounts(h0, h, h');
  }

  lemma SetWordGrows(h: Heap, t: Addr, i: nat, w: Word)
    requires Live(h, t) && !h.mem[t].forward && i < |h.mem[t].data|
    ensures Grows(h, SetSlot(h, t, i, w))
    ensures forall c :: (Live(SetSlot(h, t, i, w), c) <==> Live(h, c)) && (Moved(SetSlot(h, t, i, w), c) <==> Moved(h, c))
  {
  }

  lemma SetWordOldBlock(h0: Heap, h: Heap, h': Heap, t: Addr, i: nat, w: Word, c: Addr)
    requires Inv(h0, h) && SetStep(h0, h, h', t, i, w) && c in h0.mem
    ensures OldBlock(h0, h', c)
  {
    hide Tiled, Reachable, Layout, Collectable, OnlyReachable, Accounts;
    NotForwarded(h0, h, t);
    assert OldBlock(h0, h, c);
    forall j | 0 <= j < |h0.mem[c].data| ensures WordImage(h0, h', c, Image(h', c), j) {
      assert WordImage(h0, h, c, Image(h, c), j);
    }
  }

  lemma SetWordImages(h0: Heap, h: Heap, h': Heap, t: Addr, i: nat, w: Word)
    requires Inv(h0, h) && SetStep(h0, h, h', t, i, w)
    ensures Images(h0, h')
  {
    hide Tiled, Reachable, Layout, Collectable, OnlyReachable, OldBlock, Accounts;
    NotForwarded(h0, h, t);
    forall c | c in h0.mem ensures OldBlock(h0, h', c) {
      SetWordOldBlock(h0, h, h', t, i, w, c);
    }
    forall u | u in h'.mem && u !in h0.mem ensures HasOrigin(h0, h', u) {
      assert HasOrigin(h0, h, u);
      var c :| c in h0.mem && Moved(h, c) && Image(h, c) == u;
      assert Moved(h', c) && Image(h', c) == u;
    }
  }

  lemma NotForwarded(h0: Heap, h: Heap, t: Addr)
    requires Inv(h0, h) && Live(h, t)
    ensures !h.mem[t].forward
  {
    hide Tiled;
    if Moved(h, t) {
      ForwardedTarget(h0, h, t);
    }
  }

  lemma Origin(h0: Heap, h: Heap, t: Addr) returns (a: Addr)
    requires Inv(h0, h) && Live(h, t)
    ensures OldBlockAt(h0, h, a, t) && Reachable(h0, a)
  {
    hide Tiled, Reachable, Layout, Collectable, WordImage;
    if t in h0.mem {
      a := t;
      assert OldBlock(h0, h, a);
      NotForwarded(h0, h, t);
    } else {
      assert HasOrigin(h0, h, t);
      a :| a in h0.mem && Moved(h, a) && Image(h, a) == t;
      assert OldBlock(h0, h, a);
    }
  }

  ghost predicate SlotAt(h: Heap, t: Addr, i: nat) {
    t in h.mem && i < |h.mem[t].data| && IsSlot(h.mem[t].kind, |h.mem[t].data|, i)
  }

  lemma SlotResolves(h0: Heap, h: Heap, t: Addr, i: nat)
    requires Inv(h0, h) && Live(h, t) && SlotAt(h, t, i)
    ensures var w := h.mem[t].data[i]; w.Ptr? ==> w.a in h.mem && (w.a in h0.mem ==> Reachable(h0, w.a))
  {
    hide Tiled, Reachable, Layout;
    var w := h.mem[t].data[i];
    var a := Origin(h0, h, t);
    assert WordImage(h0, h, a, t, i);
    if w.Ptr? {
      if w == h0.mem[a].data[i] {
        assert Edge(h0, a, w.a);
        ReachableStep(h0, a, w.a);
        assert OldBlock(h0, h, w.a);
      } else {
        ForwardedTarget(h0, h, h0.mem[a].data[i].a);
        assert OldBlock(h0, h, h0.mem[a].data[i].a);
      }
    }
  }

  lemma SlotStep(h0: Heap, h: Heap, t: Addr, i: nat, m: Marked)
    requires Inv(h0, h) && SlotAt(h, t, i) && Live(h, t)
    requires Mark(h, h.mem[t].data[i]) == Some(m)
    ensures SlotAt(m.h, t, i)
    ensures var h' := SetSlot(m.h, t, i, m.w);
            Inv(h0, h') && Grows(h, h') && Clean(h', m.w) && KeepsData(h, h', {t}) &&
            h'.mem[t].data == h.mem[t].data[i := m.w]
  {
    hide Tiled, Inv, Mark, SetStep, Updated, Reachable;
    SlotResolves(h0, h, t, i);
    var w := h.mem[t].data[i];
    MarkKeeps(h0, h, w, m);
    var h' := SetSlot(m.h, t, i, m.w);
    SetStepAfterMark(h0, m.h, t, i, w, m.w);
    SetWordKeeps(h0, m.h, h', t, i, m.w);
    GrowsTransitive(h, m.h, h');
  }

  lemma SetStepAfterMark(h0: Heap, h: Heap, t: Addr, i: nat, w: Word, w': Word)
    requires Inv(h0, h) && Live(h, t) && SlotAt(h, t, i) && h.mem[t].data[i] == w
    requires Updated(h, w, w')
    ensures SetStep(h0, h, SetSlot(h, t, i, w'), t, i, w')
  {
    hide Tiled, Reachable, Layout, Collectable, OnlyReachable, Images;
    var h' := SetSlot(h, t, i, w');
    NotForwarded(h0, h, t);
    SetWordGrows(h, t, i, w');
    forall a | OldBlockAt(h0, h, a, t) ensures WordImage(h0, h', a, t, i) {
      assert WordImage(h0, h, a, t, i);
      var w0 := h0.mem[a].data[i];
      if w' == w {
        assert w0.Ptr? && Moved(h, w0.a) ==> h'.mem[w0.a] == h.mem[w0.a];
      } else if w == w0 {
        assert Moved(h', w.a) && h'.mem[w.a] == h.mem[w.a];
      } else {
        ForwardedTarget(h0, h, w0.a);
        NotForwarded(h0, h, w.a);
      }
    }
  }
}
