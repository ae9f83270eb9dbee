/** The compaction of the old space, `heap_gc_old`, on values. */
module HeapCompact {
  import opened Wrappers
  import opened HeapModel
  import opened HeapInvariant

  /** The marked blocks of the old space, in address order. */
  function LiveHdrs(m: map<Addr, Block>, hs: seq<Addr>): seq<Addr> {
    if hs == [] then [] else
    var a := hs[|hs| - 1];
    LiveHdrs(m, hs[..|hs| - 1]) + if a in m && m[a].remembered then [a] else []
  }

  /** A heap and the map from old to new headers. */
  datatype Compacting = Compacting(h: Heap, moved: map<Addr, Addr>)

  /** One turn of the second loop: clear the mark, move the block to `pos`, record and remember the new header. */
  function SlideOne(c: Compacting, a: Addr): Compacting
    requires a in c.h.mem && BlockWords(c.h.mem[a]) <= c.h.tenured.free
  {
    var b := c.h.mem[a].(remembered := false);
    var t := c.h.tenured.pos;
    Compacting(
      c.h.(mem := (c.h.mem - {a})[t := b], tenured := Bump(c.h.tenured, BlockWords(b)), list := c.h.list + [t]),
      c.moved[a := t])
  }

  function Slide(c: Compacting, live: seq<Addr>): Option<Compacting>
    decreases |live|
  {
    if live == [] then Some(c)
    else if live[0] !in c.h.mem || BlockWords(c.h.mem[live[0]]) > c.h.tenured.free then None
    else Slide(SlideOne(c, live[0]), live[1..])
  }

  /** `space_reset` of the old space, dropping what is not marked. */
  function Reset(h: Heap): Heap {
    var live := LiveHdrs(h.mem, h.tenured.hdrs);
    h.(mem := map a | a in h.mem && (a in h.tenured.hdrs ==> a in live) :: h.mem[a],
       tenured := EmptySpace(h.tenured.base, h.tenured.size))
  }

  function Compact(h: Heap): Option<Compacting> {
    Slide(Compacting(Reset(h), map[]), LiveHdrs(h.mem, h.tenured.hdrs))
  }

  // ----- the marked blocks

  lemma LiveIsMarked(m: map<Addr, Block>, hs: seq<Addr>, a: Addr)
    ensures a in LiveHdrs(m, hs) <==> a in hs && a in m && m[a].remembered
  {
  }

  /** `xs` is `hs` with some elements left out; here: both are laid out in the same direction without overlap. */
  ghost predicate Ascending(m: map<Addr, Block>, hs: seq<Addr>) {
    && (forall i | 0 <= i < |hs| :: hs[i] in m)
    && (forall i, j | 0 <= i < j < |hs| :: hs[i] + BlockWords(m[hs[i]]) <= hs[j])
  }

  lemma LiveAscends(m: map<Addr, Block>, hs: seq<Addr>)
    requires Ascending(m, hs)
    ensures Ascending(m, LiveHdrs(m, hs))
  {
    if hs != [] {
      var n := |hs| - 1;
      LiveAscends(m, hs[..n]);
      var front := LiveHdrs(m, hs[..n]);
      forall i | 0 <= i < |front| ensures front[i] + BlockWords(m[front[i]]) <= hs[n] {
        LiveIsMarked(m, hs[..n], front[i]);
        var k :| 0 <= k < n && hs[..n][k] == front[i];
        assert hs[k] + BlockWords(m[hs[k]]) <= hs[n];
      }
    }
  }

  // ----- sliding

  /** Between two turns: `live` is still to be moved, and there is room below it. */
  ghost predicate Slidable(c: Compacting, live: seq<Addr>) {
    var s := c.h.tenured;
    && s.base <= s.pos && s.pos + s.free == s.base + s.size
    && Ascending(c.h.mem, live)
    && (forall i | 0 <= i < |live| :: s.pos <= live[i] && live[i] + BlockWords(c.h.mem[live[i]]) <= s.base + s.size)
    && (forall a | a in c.h.mem ::
          a in live || a + BlockWords(c.h.mem[a]) <= s.pos || s.base + s.size <= a)
  }

  lemma SlideStep(c: Compacting, live: seq<Addr>)
    requires Slidable(c, live) && live != []
    ensures live[0] in c.h.mem && BlockWords(c.h.mem[live[0]]) <= c.h.tenured.free
    ensures Slidable(SlideOne(c, live[0]), live[1..])
    ensures forall k | 1 <= k < |live| :: SlideOne(c, live[0]).h.mem[live[k]] == c.h.mem[live[k]]
    ensures c.h.tenured.pos in c.h.mem ==> c.h.tenured.pos == live[0]
  {
    var a, n := live[0], BlockWords(c.h.mem[live[0]]);
    var c', t := SlideOne(c, a), c.h.tenured.pos;
    SlideOthers(c, live);
    forall d | d in c'.h.mem
      ensures d in live[1..] || d + BlockWords(c'.h.mem[d]) <= t + n || c.h.tenured.base + c.h.tenured.size <= d
    {
      assert d != t ==> d in c.h.mem && d != a;
      assert d in live && d != a ==> d in live[1..];
    }
    RestAscends(c.h.mem, c'.h.mem, live);
    hide Ascending;
    forall i | 0 <= i < |live[1..]| ensures live[1..][i] == live[i + 1] {
    }
  }

  lemma SlideOthers(c: Compacting, live: seq<Addr>)
    requires Slidable(c, live) && live != []
    ensures live[0] in c.h.mem && BlockWords(c.h.mem[live[0]]) <= c.h.tenured.free
    ensures forall k | 1 <= k < |live| ::
              && live[k] in c.h.mem && c.h.tenured.pos + BlockWords(c.h.mem[live[0]]) <= live[k]
              && live[k] in SlideOne(c, live[0]).h.mem && SlideOne(c, live[0]).h.mem[live[k]] == c.h.mem[live[k]]
  {
    forall k | 1 <= k < |live| ensures live[0] + BlockWords(c.h.mem[live[0]]) <= live[k] {
    }
  }

  lemma RestAscends(m: map<Addr, Block>, m': map<Addr, Block>, live: seq<Addr>)
    requires Ascending(m, live) && live != []
    requires forall k | 1 <= k < |live| :: live[k] in m' && m'[live[k]] == m[live[k]]
    ensures Ascending(m', live[1..])
  {
  }

  /** Where the headers go when blocks are packed from `pos` on. */
  function Packed(m: map<Addr, Block>, live: seq<Addr>, pos: Addr): seq<Addr>
    decreases |live|
  {
    if live == [] then [] else
    [pos] + Packed(m, live[1..], pos + if live[0] in m then BlockWords(m[live[0]]) else 0)
  }

  function TotalWords(m: map<Addr, Block>, live: seq<Addr>): nat
    decreases |live|
  {
    if live == [] then 0 else (if live[0] in m then BlockWords(m[live[0]]) else 0) + TotalWords(m, live[1..])
  }

  lemma PackedSame(m: map<Addr, Block>, m': map<Addr, Block>, live: seq<Addr>, pos: Addr)
    requires forall i | 0 <= i < |live| :: live[i] in m && live[i] in m' && |m'[live[i]].data| == |m[live[i]].data|
    ensures Packed(m', live, pos) == Packed(m, live, pos) && TotalWords(m', live) == TotalWords(m, live)
    ensures |Packed(m, live, pos)| == |live|
    decreases |live|
  {
    if live != [] {
      PackedSame(m, m', live[1..], pos + BlockWords(m[live[0]]));
    }
  }

  /** Packed blocks are contiguous, in the order of `live`. */
  lemma PackedIsContiguous(m: map<Addr, Block>, live: seq<Addr>, pos: Addr, k: nat)
    requires (forall i | 0 <= i < |live| :: live[i] in m) && k < |live|
    ensures |Packed(m, live, pos)| == |live|
    ensures Packed(m, live, pos)[0] == pos
    ensures Packed(m, live, pos)[k] + BlockWords(m[live[k]]) ==
            if k + 1 < |live| then Packed(m, live, pos)[k + 1] else pos + TotalWords(m, live)
    decreases |live|
  {
    if |live| > 1 {
      PackedIsContiguous(m, live[1..], pos + BlockWords(m[live[0]]), if k == 0 then 0 else k - 1);
    }
  }

  /** What sliding does to the heap, all turns together: the space, the blocks, the address map. */
  ghost predicate SlidSpace(c: Compacting, c': Compacting, live: seq<Addr>) {
    var news := Packed(c.h.mem, live, c.h.tenured.pos);
    var total := TotalWords(c.h.mem, live);
    && c'.h == c.h.(mem := c'.h.mem, tenured := c'.h.tenured, list := c.h.list + news)
    && c'.h.tenured.base == c.h.tenured.base && c'.h.tenured.size == c.h.tenured.size
    && c'.h.tenured.hdrs == c.h.tenured.hdrs + news
    && c'.h.tenured.pos == c.h.tenured.pos + total
    && c'.h.tenured.free == c.h.tenured.free - total
  }

  ghost predicate SlidBlocks(m: map<Addr, Block>, m': map<Addr, Block>, live: seq<Addr>, news: seq<Addr>) {
    && |news| == |live|
    && (forall k | 0 <= k < |live| :: live[k] in m && news[k] in m' && m'[news[k]] == m[live[k]].(remembered := false))
    && (forall a :: a in m' <==> (a in m && a !in live) || a in news)
    && (forall a | a in m && a !in live && a !in news :: a in m' && m'[a] == m[a])
  }

  ghost predicate SlidMap(f: map<Addr, Addr>, f': map<Addr, Addr>, live: seq<Addr>, news: seq<Addr>) {
    && |news| == |live|
    && (forall k | 0 <= k < |live| :: live[k] in f' && f'[live[k]] == news[k])
    && (forall a :: a in f' <==> a in f || a in live)
    && (forall a | a in f && a !in live :: a in f' && f'[a] == f[a])
  }

  ghost predicate Slid(c: Compacting, c': Compacting, live: seq<Addr>) {
    var news := Packed(c.h.mem, live, c.h.tenured.pos);
    && SlidSpace(c, c', live)
    && SlidBlocks(c.h.mem, c'.h.mem, live, news)
    && SlidMap(c.moved, c'.moved, live, news)
  }

  lemma {:induction false} SlideIsSlid(c: Compacting, live: seq<Addr>)
    requires Slidable(c, live)
    ensures Slide(c, live).Some? && Slid(c, Slide(c, live).value, live)
    decreases |live|
  {
    hide Slidable, SlidBlocks, SlidMap, SlidSpace, SlideOne, Packed;
    if live == [] {
      NothingSlid(c);
    } else {
      SlideStep(c, live);
      var c1 := SlideOne(c, live[0]);
      SlideIsSlid(c1, live[1..]);
      SlidCons(c, live, Slide(c1, live[1..]).value);
    }
  }

  lemma NothingSlid(c: Compacting)
    ensures Slid(c, c, [])
  {
    assert c.h.list + [] == c.h.list && c.h.tenured.hdrs + [] == c.h.tenured.hdrs;
  }

  /** One turn in front of the others. */
  lemma SlidCons(c: Compacting, live: seq<Addr>, c': Compacting)
    requires Slidable(c, live) && live != [] && live[0] in c.h.mem && BlockWords(c.h.mem[live[0]]) <= c.h.tenured.free
    requires Slid(SlideOne(c, live[0]), c', live[1..])
    ensures Slid(c, c', live)
  {
    hide Slidable, SlidBlocks, SlidMap, SlidSpace;
    var c1 := SlideOne(c, live[0]);
    LiveStillThere(c, live);
    PackedSame(c.h.mem, c1.h.mem, live[1..], c1.h.tenured.pos);
    var news := Packed(c.h.mem, live, c.h.tenured.pos);
    assert news[1..] == Packed(c1.h.mem, live[1..], c1.h.tenured.pos);
    SpaceCons(c, live, c');
    BlocksCons(c, live, c', news);
    MapCons(c, live, c'.moved, news);
  }

  lemma SpaceCons(c: Compacting, live: seq<Addr>, c': Compacting)
    requires live != [] && live[0] in c.h.mem && BlockWords(c.h.mem[live[0]]) <= c.h.tenured.free
    requires forall i | 0 <= i < |live[1..]| ::
               live[1..][i] in c.h.mem && live[1..][i] in SlideOne(c, live[0]).h.mem &&
               SlideOne(c, live[0]).h.mem[live[1..][i]] == c.h.mem[live[1..][i]]
    requires SlidSpace(SlideOne(c, live[0]), c', live[1..])
    ensures SlidSpace(c, c', live)
  {
    var c1 := SlideOne(c, live[0]);
    PackedSame(c.h.mem, c1.h.mem, live[1..], c1.h.tenured.pos);
  }

  lemma LiveStillThere(c: Compacting, live: seq<Addr>)
    requires Slidable(c, live) && live != [] && BlockWords(c.h.mem[live[0]]) <= c.h.tenured.free
    ensures forall i | 0 <= i < |live[1..]| ::
              live[1..][i] in c.h.mem && live[1..][i] in SlideOne(c, live[0]).h.mem &&
              SlideOne(c, live[0]).h.mem[live[1..][i]] == c.h.mem[live[1..][i]]
    ensures live[0] !in live[1..] && c.h.tenured.pos !in live[1..]
    ensures c.h.tenured.pos in c.h.mem ==> c.h.tenured.pos == live[0]
  {
    SlideStep(c, live);
    forall i | 0 <= i < |live[1..]|
      ensures live[1..][i] in c.h.mem && live[0] < live[1..][i] && c.h.tenured.pos < live[1..][i]
      ensures live[1..][i] in SlideOne(c, live[0]).h.mem
    {
      assert live[1..][i] == live[i + 1];
      assert live[0] + BlockWords(c.h.mem[live[0]]) <= live[i + 1];
    }
  }

  lemma BlocksCons(c: Compacting, live: seq<Addr>, c': Compacting, news: seq<Addr>)
    requires Slidable(c, live) && live != [] && live[0] in c.h.mem && BlockWords(c.h.mem[live[0]]) <= c.h.tenured.free
    requires news == Packed(c.h.mem, live, c.h.tenured.pos)
    requires SlidBlocks(SlideOne(c, live[0]).h.mem, c'.h.mem, live[1..], news[1..])
    ensures SlidBlocks(c.h.mem, c'.h.mem, live, news)
  {
    hide Slidable, SlidBlocks;
    LiveStillThere(c, live);
    var t, a := c.h.tenured.pos, live[0];
    RestIsAbove(c.h.mem, live[1..], t + BlockWords(c.h.mem[a]));
    assert news == [t] + news[1..] && live == [a] + live[1..];
    hide Packed;
    BlocksOnto(c.h.mem, SlideOne(c, a).h.mem, c'.h.mem, a, t, live[1..], news[1..]);
  }

  /** One block moved to `t`, then the others. */
  lemma BlocksOnto(m: map<Addr, Block>, m1: map<Addr, Block>, m': map<Addr, Block>, a: Addr, t: Addr, rest: seq<Addr>,
                   news: seq<Addr>)
    requires a in m && m1 == (m - {a})[t := m[a].(remembered := false)]
    requires a !in rest && t !in rest && t !in news && (t in m ==> t == a)
    requires forall i | 0 <= i < |rest| :: rest[i] in m && rest[i] in m1 && m1[rest[i]] == m[rest[i]]
    requires SlidBlocks(m1, m', rest, news)
    ensures SlidBlocks(m, m', [a] + rest, [t] + news)
  {
    var live, all := [a] + rest, [t] + news;
    forall k | 0 <= k < |live| ensures live[k] in m && all[k] in m' && m'[all[k]] == m[live[k]].(remembered := false) {
      if k > 0 {
        assert live[k] == rest[k - 1] && all[k] == news[k - 1];
      }
    }
  }

  lemma MapCons(c: Compacting, live: seq<Addr>, f': map<Addr, Addr>, news: seq<Addr>)
    requires Slidable(c, live) && live != [] && live[0] in c.h.mem && BlockWords(c.h.mem[live[0]]) <= c.h.tenured.free
    requires news == Packed(c.h.mem, live, c.h.tenured.pos)
    requires SlidMap(SlideOne(c, live[0]).moved, f', live[1..], news[1..])
    ensures SlidMap(c.moved, f', live, news)
  {
    LiveStillThere(c, live);
    assert news == [c.h.tenured.pos] + news[1..] && live == [live[0]] + live[1..];
    forall k | 0 <= k < |live| ensures live[k] in f' && f'[live[k]] == news[k] {
      if k > 0 {
        assert news[k] == news[1..][k - 1] && live[k] == live[1..][k - 1];
      }
    }
  }

  lemma RestIsAbove(m: map<Addr, Block>, live: seq<Addr>, pos: Addr)
    ensures forall a | a in Packed(m, live, pos) :: a >= pos
    decreases |live|
  {
    if live != [] {
      RestIsAbove(m, live[1..], pos + if live[0] in m then BlockWords(m[live[0]]) else 0);
    }
  }

  // ----- the whole compaction

  lemma ResetSlidable(h: Heap)
    requires Layout(h) && h.tenured.size != 0
    ensures Slidable(Compacting(Reset(h), map[]), LiveHdrs(h.mem, h.tenured.hdrs))
  {
    hide Tiled;
    var live := LiveHdrs(h.mem, h.tenured.hdrs);
    var m := Reset(h).mem;
    TenuredAscends(h.mem, h.tenured);
    LiveAscends(h.mem, h.tenured.hdrs);
    forall i | 0 <= i < |live|
      ensures live[i] in m && m[live[i]] == h.mem[live[i]]
      ensures h.tenured.base <= live[i] && live[i] + BlockWords(m[live[i]]) <= h.tenured.base + h.tenured.size
    {
      LiveIsMarked(h.mem, h.tenured.hdrs, live[i]);
      Listed(h.mem, h.tenured, live[i]);
    }
    forall a | a in m
      ensures a in live || a + BlockWords(m[a]) <= h.tenured.base || h.tenured.base + h.tenured.size <= a
    {
      if a !in live {
        OutsideTenured(h, a);
      }
    }
  }

  lemma TenuredAscends(m: map<Addr, Block>, s: Space)
    requires Tiled(m, s)
    ensures Ascending(m, s.hdrs)
  {
  }

  lemma OutsideTenured(h: Heap, a: Addr)
    requires Layout(h) && h.tenured.size != 0 && a in h.mem && a !in h.tenured.hdrs
    ensures a + BlockWords(h.mem[a]) <= h.tenured.base || h.tenured.base + h.tenured.size <= a
  {
    hide Tiled;
    if a in h.nursery.hdrs {
      Listed(h.mem, h.nursery, a);
    } else if a in h.survived.hdrs {
      Listed(h.mem, h.survived, a);
    } else {
      Listed(h.mem, h.future, a);
    }
    PosNotListed(h.mem, h.tenured, a);
  }

  /** The header that follows header `k`, or the end of the last block. */
  function After(hs: seq<Addr>, k: nat, end: Addr): Addr { if k + 1 < |hs| then hs[k + 1] else end }

  /** Packed headers, block by block from the start of the space. */
  ghost predicate Contiguous(m: map<Addr, Block>, hs: seq<Addr>, base: Addr, end: Addr) {
    && (hs == [] ==> end == base)
    && (hs != [] ==> hs[0] == base)
    && (forall k | 0 <= k < |hs| :: hs[k] in m)
    && (forall k | 0 <= k < |hs| :: hs[k] + BlockWords(m[hs[k]]) == After(hs, k, end))
  }

  /**
   Compaction never runs out of space and leaves exactly the marked blocks, contiguous from the start of the old
   space, in address order, unchanged but for the mark; `moved` takes each old header to its new one; the other
   spaces keep their blocks; and the free space is what the live blocks leave.
   */
  lemma CompactionIsCorrect(h: Heap)
    requires Layout(h) && h.tenured.size != 0
    ensures Compact(h).Some?
    ensures var r, live := Compact(h).value, LiveHdrs(h.mem, h.tenured.hdrs);
            && SlidSpace(Compacting(Reset(h), map[]), r, live)
            && SlidBlocks(Reset(h).mem, r.h.mem, live, r.h.tenured.hdrs)
            && SlidMap(map[], r.moved, live, r.h.tenured.hdrs)
            && Ascending(h.mem, live)
            && Contiguous(r.h.mem, r.h.tenured.hdrs, h.tenured.base, r.h.tenured.pos)
            && r.h.tenured.free == h.tenured.size - TotalWords(h.mem, live)
            && r.h.list == h.list + r.h.tenured.hdrs
            && OthersKept(h, r.h)
  {
    hide Slidable, Slide, Layout, SlidBlocks, SlidMap, Ascending, Contiguous, Packed, TotalWords, LiveHdrs;
    var live := LiveHdrs(h.mem, h.tenured.hdrs);
    var c := Compacting(Reset(h), map[]);
    ResetSlidable(h);
    SlideIsSlid(c, live);
    OldAscends(h);
    LiveKeptByReset(h, live);
    PackedSame(h.mem, c.h.mem, live, h.tenured.base);
    var news := Packed(c.h.mem, live, c.h.tenured.pos);
    assert [] + news == news;
    var r := Compact(h).value;
    NewsContiguous(c.h.mem, r.h.mem, live, news, h.tenured.base);
    ResetKeeps(h);
    OthersUntouched(h, r.h, news);
  }

  /** The blocks of the other spaces are still there, and nothing is besides them and the old space. */
  ghost predicate OthersKept(h: Heap, h': Heap) {
    && h' == h.(mem := h'.mem, tenured := h'.tenured, list := h'.list)
    && (forall a :: a in h'.mem <==> (a in h.mem && a !in h.tenured.hdrs) || a in h'.tenured.hdrs)
    && (forall a | a in h.mem && a !in h.tenured.hdrs :: a !in h'.tenured.hdrs && a in h'.mem && h'.mem[a] == h.mem[a])
  }

  /** What is reset: the old space alone. */
  lemma ResetKeeps(h: Heap)
    ensures var live, m := LiveHdrs(h.mem, h.tenured.hdrs), Reset(h).mem;
            && Reset(h) == h.(mem := m, tenured := EmptySpace(h.tenured.base, h.tenured.size))
            && (forall a :: a in m && a !in live <==> a in h.mem && a !in h.tenured.hdrs)
            && (forall a | a in m :: m[a] == h.mem[a])
  {
    forall a ensures a in LiveHdrs(h.mem, h.tenured.hdrs) ==> a in h.tenured.hdrs {
      LiveIsMarked(h.mem, h.tenured.hdrs, a);
    }
  }

  lemma OthersUntouched(h: Heap, h': Heap, news: seq<Addr>)
    requires Layout(h) && h.tenured.size != 0 && h' == h.(mem := h'.mem, tenured := h'.tenured, list := h'.list)
    requires SlidBlocks(Reset(h).mem, h'.mem, LiveHdrs(h.mem, h.tenured.hdrs), news) && h'.tenured.hdrs == news
    requires Contiguous(h'.mem, news, h.tenured.base, h'.tenured.pos) && h'.tenured.pos <= h.tenured.base + h.tenured.size
    ensures OthersKept(h, h')
  {
    hide Layout, Contiguous, LiveHdrs, Reset;
    ResetKeeps(h);
    forall a | a in h.mem && a !in h.tenured.hdrs ensures a !in news {
      if a in news {
        var k :| 0 <= k < |news| && news[k] == a;
        WithinContiguous(h'.mem, news, h.tenured.base, h'.tenured.pos, k);
        OutsideTenured(h, a);
      }
    }
  }

  lemma WithinContiguous(m: map<Addr, Block>, hs: seq<Addr>, base: Addr, end: Addr, k: nat)
    requires Contiguous(m, hs, base, end) && k < |hs|
    ensures base <= hs[k] < end
  {
    hide Contiguous;
    ContiguousEnds(m, hs, base, end);
    if k > 0 {
      ContiguousAscends(m, hs, base, end, 0, k);
    }
    if k < |hs| - 1 {
      ContiguousAscends(m, hs, base, end, k, |hs| - 1);
    }
  }

  lemma ContiguousEnds(m: map<Addr, Block>, hs: seq<Addr>, base: Addr, end: Addr)
    requires Contiguous(m, hs, base, end) && hs != []
    ensures hs[0] == base && hs[0] in m && hs[|hs| - 1] in m
    ensures hs[|hs| - 1] + BlockWords(m[hs[|hs| - 1]]) == end
  {
    assert After(hs, |hs| - 1, end) == end;
  }

  lemma OldAscends(h: Heap)
    requires Layout(h)
    ensures Ascending(h.mem, LiveHdrs(h.mem, h.tenured.hdrs))
  {
    hide Tiled;
    TenuredAscends(h.mem, h.tenured);
    LiveAscends(h.mem, h.tenured.hdrs);
  }

  lemma LiveKeptByReset(h: Heap, live: seq<Addr>)
    requires live == LiveHdrs(h.mem, h.tenured.hdrs)
    ensures forall i | 0 <= i < |live| :: live[i] in h.mem && live[i] in Reset(h).mem && Reset(h).mem[live[i]] == h.mem[live[i]]
  {
    forall i | 0 <= i < |live| ensures live[i] in h.mem {
      LiveIsMarked(h.mem, h.tenured.hdrs, live[i]);
    }
  }

  lemma NewsContiguous(m: map<Addr, Block>, m': map<Addr, Block>, live: seq<Addr>, news: seq<Addr>, base: Addr)
    requires SlidBlocks(m, m', live, news) && news == Packed(m, live, base)
    ensures Contiguous(m', news, base, base + TotalWords(m, live))
  {
    hide SlidBlocks;
    NewsEnds(m, m', live, news, base);
    forall k | 0 <= k < |news| ensures news[k] in m' {
      NewBlock(m, m', live, news, base, k);
    }
    forall k | 0 <= k < |news|
      ensures news[k] + BlockWords(m'[news[k]]) == After(news, k, base + TotalWords(m, live))
    {
      NewBlock(m, m', live, news, base, k);
    }
  }

  lemma NewsEnds(m: map<Addr, Block>, m': map<Addr, Block>, live: seq<Addr>, news: seq<Addr>, base: Addr)
    requires SlidBlocks(m, m', live, news) && news == Packed(m, live, base)
    ensures if news == [] then TotalWords(m, live) == 0 else news[0] == base
  {
  }

  lemma NewBlock(m: map<Addr, Block>, m': map<Addr, Block>, live: seq<Addr>, news: seq<Addr>, base: Addr, k: nat)
    requires SlidBlocks(m, m', live, news) && news == Packed(m, live, base) && k < |news|
    ensures news[k] in m'
    ensures news[k] + BlockWords(m'[news[k]]) == After(news, k, base + TotalWords(m, live))
  {
    PackedIsContiguous(m, live, base, k);
  }

  lemma OrderOfIndex(m: map<Addr, Block>, hs: seq<Addr>, i: nat, j: nat)
    requires Ascending(m, hs) && i < |hs| && j < |hs| && hs[i] < hs[j]
    ensures i < j
  {
  }

  /** The address map keeps the order of blocks, so it is injective. */
  lemma MovedKeepsOrder(h: Heap, a: Addr, b: Addr)
    requires Layout(h) && h.tenured.size != 0 && Compact(h).Some?
    requires a in Compact(h).value.moved && b in Compact(h).value.moved && a < b
    ensures Compact(h).value.moved[a] < Compact(h).value.moved[b]
  {
    hide Layout, Compact, SlidSpace;
    CompactionIsCorrect(h);
    var r, live := Compact(h).value, LiveHdrs(h.mem, h.tenured.hdrs);
    var i :| 0 <= i < |live| && live[i] == a;
    var j :| 0 <= j < |live| && live[j] == b;
    OrderOfIndex(h.mem, live, i, j);
    ContiguousAscends(r.h.mem, r.h.tenured.hdrs, h.tenured.base, r.h.tenured.pos, i, j);
  }

  lemma {:induction false} ContiguousAscends(m: map<Addr, Block>, hs: seq<Addr>, base: Addr, end: Addr, i: nat, j: nat)
    requires Contiguous(m, hs, base, end) && i < j < |hs|
    ensures hs[i] + BlockWords(m[hs[i]]) <= hs[j]
  {
    hide Contiguous;
    ContiguousAt(m, hs, base, end, i);
    if i + 1 < j {
      ContiguousAscends(m, hs, base, end, i, j - 1);
      ContiguousAt(m, hs, base, end, j - 1);
    }
  }

  lemma ContiguousAt(m: map<Addr, Block>, hs: seq<Addr>, base: Addr, end: Addr, k: nat)
    requires Contiguous(m, hs, base, end) && k + 1 < |hs|
    ensures hs[k] in m && hs[k] + BlockWords(m[hs[k]]) == hs[k + 1]
  {
    assert After(hs, k, end) == hs[k + 1];
  }
}

/** Marking and compaction one after the other: the first half of a full collection. */
module HeapFull {
  import opened Wrappers
  import opened HeapModel
  import opened HeapInvariant
  import opened HeapScan
  import opened HeapCollect
  import opened HeapTheorems
  import opened HeapCompact

  /** The reachable ones of the listed blocks, in order. */
  ghost function ReachableHdrs(h: Heap, hs: seq<Addr>): seq<Addr> {
    if hs == [] then [] else
    var a := hs[|hs| - 1];
    ReachableHdrs(h, hs[..|hs| - 1]) + if Reachable(h, a) then [a] else []
  }

  lemma {:induction false} MarkedAreReachable(h0: Heap, h: Heap, hs: seq<Addr>)
    requires Collectable(h0) && h0.full && GcMain(h0) == Some(h) && hs <= h0.tenured.hdrs
    ensures LiveHdrs(h.mem, hs) == ReachableHdrs(h0, hs)
    decreases |hs|
  {
    hide GcMain, Reachable, Tiled;
    if hs != [] {
      var n := |hs| - 1;
      MarkedAreReachable(h0, h, hs[..n]);
      assert hs[n] == h0.tenured.hdrs[n];
      Listed(h0.mem, h0.tenured, hs[n]);
      MarkingIsExact(h0, h, hs[n]);
    }
  }

  /** Marking promotes nothing: what is in the old space was there. */
  lemma NothingPromoted(h0: Heap, h: Heap, t: Addr)
    requires Inv(h0, h) && h0.full && t in h.tenured.hdrs
    ensures t in h0.tenured.hdrs
  {
    hide Tiled, Reachable, Accounts, WordImage;
    Listed(h.mem, h.tenured, t);
    InSpaceIsListed(h, t);
    if t in h0.mem {
      FutureIsNew(h0, h, t);
    } else {
      assert HasOrigin(h0, h, t);
      var a :| a in h0.mem && Moved(h, a) && Image(h, a) == t;
      assert OldBlock(h0, h, a);
      InSpaceDisjoint(h, t);
    }
  }

  lemma InSpaceDisjoint(h: Heap, t: Addr)
    requires Layout(h) && t in h.mem && t in h.tenured.hdrs
    ensures t !in h.future.hdrs
  {
    hide Tiled;
    InSpaceIsListed(h, t);
  }

  /** The old space keeps its blocks, and in their order. */
  lemma OldSpaceStays(h0: Heap, h: Heap)
    requires Inv(h0, h) && h0.full
    ensures h.tenured.hdrs == h0.tenured.hdrs
  {
    hide Layout, Images, OnlyReachable, Accounts, Collectable;
    if |h.tenured.hdrs| > |h0.tenured.hdrs| {
      var n := |h0.tenured.hdrs|;
      PrefixStays(h0, h);
      NothingPromoted(h0, h, h.tenured.hdrs[n]);
    }
  }

  lemma PrefixStays(h0: Heap, h: Heap)
    requires Inv(h0, h) && |h.tenured.hdrs| > |h0.tenured.hdrs|
    ensures h.tenured.hdrs[|h0.tenured.hdrs|] !in h0.tenured.hdrs
  {
    hide Images, OnlyReachable, Accounts, Collectable, Tiled;
    var n := |h0.tenured.hdrs|;
    assert h.tenured.hdrs[..n] == h0.tenured.hdrs;
    NotTwice(h, n, h.tenured.hdrs[n]);
  }

  lemma NotTwice(h: Heap, n: nat, t: Addr)
    requires Layout(h) && n < |h.tenured.hdrs| && h.tenured.hdrs[n] == t
    ensures t !in h.tenured.hdrs[..n]
  {
  }

  /** The new block at `t` is the block `a` of the heap before, with the references that marking has updated. */
  ghost predicate SameContents(h0: Heap, h: Heap, m: map<Addr, Block>, a: Addr, t: Addr) {
    a in h0.mem && t in m && !m[t].remembered && SameBlock(Renaming(h0, h), h0.mem[a], m[t], a)
  }

  /**
   After marking and compaction the old space holds exactly its reachable blocks, in their order and contiguous from the
   start of the space, with their contents.
   */
  lemma CompactionKeepsReachable(h0: Heap, h: Heap, r: Compacting)
    requires Collectable(h0) && h0.full && h0.tenured.size != 0 && GcMain(h0) == Some(h) && Compact(h) == Some(r)
    ensures var live := ReachableHdrs(h0, h0.tenured.hdrs);
            && |r.h.tenured.hdrs| == |live|
            && (forall k | 0 <= k < |live| :: SameContents(h0, h, r.h.mem, live[k], r.h.tenured.hdrs[k]))
            && Contiguous(r.h.mem, r.h.tenured.hdrs, h0.tenured.base, r.h.tenured.pos)
            && r.h.tenured.free == OLD_WORDS - TotalWords(h0.mem, live)
  {
    hide GcMain, Compact, Reset, Reachable, Layout, Contiguous, SlidMap, SameContents, Packed, TotalWords, ReachableHdrs, LiveHdrs, Inv;
    GcMainKeeps(h0, h);
    OldSpaceStays(h0, h);
    MarkedAreReachable(h0, h, h0.tenured.hdrs);
    var live, news := ReachableHdrs(h0, h0.tenured.hdrs), r.h.tenured.hdrs;
    AfterMarking(h0, h);
    CompactionIsCorrect(h);
    LiveKeptByReset(h, live);
    forall k | 0 <= k < |live|
      ensures live[k] in h0.mem && |h0.mem[live[k]].data| == |h.mem[live[k]].data| && SameContents(h0, h, r.h.mem, live[k], news[k])
    {
      LiveIsMarked(h.mem, h.tenured.hdrs, live[k]);
      MarkedContents(h0, h, live[k], r.h.mem, news[k]);
    }
    PackedSame(h0.mem, h.mem, live, 0);
  }

  lemma AfterMarking(h0: Heap, h: Heap)
    requires Inv(h0, h) && h0.tenured.size != 0
    ensures Layout(h) && h.tenured.size == OLD_WORDS && h.tenured.base == h0.tenured.base
  {
    hide Tiled, Images, OnlyReachable, Accounts;
  }

  lemma MarkedContents(h0: Heap, h: Heap, a: Addr, m: map<Addr, Block>, t: Addr)
    requires Collectable(h0) && h0.full && GcMain(h0) == Some(h) && a in h0.tenured.hdrs && a in h.mem && h.mem[a].remembered
    requires t in m && m[t] == h.mem[a].(remembered := false)
    ensures SameContents(h0, h, m, a, t) && a in h0.mem && |h0.mem[a].data| == |h.mem[a].data|
  {
    hide GcMain, Reachable, Tiled, SameBlock, Covered, Inv;
    Listed(h0.mem, h0.tenured, a);
    GcMainKeeps(h0, h);
    MarkingIsExact(h0, h, a);
    CollectionIsIsomorphism(h0, h);
    assert a in Renaming(h0, h) && Renaming(h0, h)[a] == a;
    SameBlockKeeps(Renaming(h0, h), h0.mem[a], h.mem[a], m[t], a);
  }

  lemma SameBlockKeeps(f: map<Addr, Addr>, b: Block, b1: Block, b2: Block, t: Addr)
    requires SameBlock(f, b, b1, t) && b2.kind == b1.kind && b2.data == b1.data
    ensures SameBlock(f, b, b2, t) && |b1.data| == |b.data|
  {
  }

  // ----- updating references once, and twice

  /** `heap_mark` on a reference into the old space while the address map exists. */
  function Remap(moved: map<Addr, Addr>, a: Addr): Addr { if a in moved then moved[a] else a }

  ghost predicate IsMarked(h: Heap, a: Addr) { a in h.tenured.hdrs && a in h.mem && h.mem[a].remembered }

  /** The block at `t` is the block that was at `a`, but for its mark. */
  ghost predicate Holds(h': Heap, t: Addr, h: Heap, a: Addr) {
    t in h'.mem && a in h.mem && h'.mem[t] == h.mem[a].(remembered := false)
  }

  /** Updated once, a reference to a marked block leads to that block, which is the same but for its mark. */
  lemma RemappedOnce(h: Heap, r: Compacting, a: Addr)
    requires Layout(h) && h.tenured.size != 0 && Compact(h) == Some(r) && IsMarked(h, a)
    ensures Remap(r.moved, a) in r.h.tenured.hdrs && Holds(r.h, Remap(r.moved, a), h, a)
  {
    hide Layout, Compact, Contiguous, Ascending, SlidSpace, LiveHdrs;
    CompactionIsCorrect(h);
    LiveIsMarked(h.mem, h.tenured.hdrs, a);
    LiveKeptByReset(h, LiveHdrs(h.mem, h.tenured.hdrs));
  }

  /** No dead block lies below `a`. */
  ghost predicate AllLiveBelow(h: Heap, a: Addr) { forall c | c in h.tenured.hdrs && c < a :: IsMarked(h, c) }

  /** Between two neighbours among the marked blocks there is nothing exactly when they touch. */
  lemma NextLive(h: Heap, i: nat)
    requires Layout(h)
    requires var live := LiveHdrs(h.mem, h.tenured.hdrs); i + 1 < |live|
    ensures var live := LiveHdrs(h.mem, h.tenured.hdrs);
            && live[i] in h.mem
            && live[i] + BlockWords(h.mem[live[i]]) <= live[i + 1]
            && (live[i] + BlockWords(h.mem[live[i]]) == live[i + 1] && AllLiveBelow(h, live[i]) <==> AllLiveBelow(h, live[i + 1]))
  {
    hide LiveHdrs, Layout;
    var live, hs := LiveHdrs(h.mem, h.tenured.hdrs), h.tenured.hdrs;
    OldAscends(h);
    var x, y := live[i], live[i + 1];
    var k := IndexInSpace(h, i);
    var l := IndexInSpace(h, i + 1);
    SpaceTiled(h);
    if k + 1 < l {
      NotLiveBetween(h, i, hs[k + 1]);
    }
    if AllLiveBelow(h, x) && k + 1 == l {
      forall c | c in hs && c < y ensures IsMarked(h, c) {
        var j :| 0 <= j < |hs| && hs[j] == c;
      }
    }
  }

  lemma SpaceTiled(h: Heap)
    requires Layout(h)
    ensures Tiled(h.mem, h.tenured)
  {
  }

  lemma IndexInSpace(h: Heap, i: nat) returns (k: nat)
    requires i < |LiveHdrs(h.mem, h.tenured.hdrs)|
    ensures k < |h.tenured.hdrs| && h.tenured.hdrs[k] == LiveHdrs(h.mem, h.tenured.hdrs)[i] && IsMarked(h, h.tenured.hdrs[k])
  {
    var a := LiveHdrs(h.mem, h.tenured.hdrs)[i];
    LiveIsMarked(h.mem, h.tenured.hdrs, a);
    k :| 0 <= k < |h.tenured.hdrs| && h.tenured.hdrs[k] == a;
  }

  lemma NotLiveBetween(h: Heap, i: nat, c: Addr)
    requires Ascending(h.mem, LiveHdrs(h.mem, h.tenured.hdrs))
    requires var live := LiveHdrs(h.mem, h.tenured.hdrs); i + 1 < |live| && live[i] < c < live[i + 1]
    ensures !IsMarked(h, c)
  {
    var live := LiveHdrs(h.mem, h.tenured.hdrs);
    LiveIsMarked(h.mem, h.tenured.hdrs, c);
    if c in live {
      var j :| 0 <= j < |live| && live[j] == c;
      OrderOfIndex(h.mem, live, i, j);
      OrderOfIndex(h.mem, live, j, i + 1);
    }
  }

  /** The marked blocks slide down, and stay exactly as long as no dead block lies below. */
  lemma {:induction false} SlidesDown(h: Heap, r: Compacting, i: nat)
    requires Layout(h) && h.tenured.size != 0 && Compact(h) == Some(r) && i < |LiveHdrs(h.mem, h.tenured.hdrs)|
    ensures var live, news := LiveHdrs(h.mem, h.tenured.hdrs), r.h.tenured.hdrs;
            i < |news| && news[i] <= live[i] && (news[i] == live[i] <==> AllLiveBelow(h, live[i]))
    decreases i
  {
    hide Layout, Compact, Contiguous, LiveHdrs, AllLiveBelow, BlockWords;
    if i == 0 {
      NewBlockSize(h, r, 0);
      FirstSlides(h, r);
    } else {
      NewBlockSize(h, r, i - 1);
      SlidesDown(h, r, i - 1);
      NextLive(h, i - 1);
      ContiguousAt(r.h.mem, r.h.tenured.hdrs, h.tenured.base, r.h.tenured.pos, i - 1);
    }
  }

  lemma NewBlockSize(h: Heap, r: Compacting, k: nat)
    requires Layout(h) && h.tenured.size != 0 && Compact(h) == Some(r) && k < |LiveHdrs(h.mem, h.tenured.hdrs)|
    ensures var live, news := LiveHdrs(h.mem, h.tenured.hdrs), r.h.tenured.hdrs;
            && |news| == |live| && news[k] in r.h.mem && live[k] in h.mem && BlockWords(r.h.mem[news[k]]) == BlockWords(h.mem[live[k]])
    ensures Contiguous(r.h.mem, r.h.tenured.hdrs, h.tenured.base, r.h.tenured.pos)
  {
    hide Layout, Compact, Contiguous, Ascending, SlidSpace, SlidMap, LiveHdrs, Reset, OthersKept;
    CompactionIsCorrect(h);
    LiveKeptByReset(h, LiveHdrs(h.mem, h.tenured.hdrs));
  }

  lemma FirstSlides(h: Heap, r: Compacting)
    requires Layout(h) && |LiveHdrs(h.mem, h.tenured.hdrs)| > 0
    requires Contiguous(r.h.mem, r.h.tenured.hdrs, h.tenured.base, r.h.tenured.pos) && r.h.tenured.hdrs != []
    ensures var live, news := LiveHdrs(h.mem, h.tenured.hdrs), r.h.tenured.hdrs;
            news[0] <= live[0] && (news[0] == live[0] <==> AllLiveBelow(h, live[0]))
  {
    hide Layout, LiveHdrs;
    OldAscends(h);
    SpaceTiled(h);
    var live := LiveHdrs(h.mem, h.tenured.hdrs);
    var k := IndexInSpace(h, 0);
    if k > 0 {
      assert h.tenured.hdrs[0] < live[0];
      NotLiveBefore(h, h.tenured.hdrs[0]);
    }
  }

  lemma NotLiveBefore(h: Heap, c: Addr)
    requires Ascending(h.mem, LiveHdrs(h.mem, h.tenured.hdrs))
    requires var live := LiveHdrs(h.mem, h.tenured.hdrs); live != [] && c < live[0]
    ensures !IsMarked(h, c)
  {
    var live := LiveHdrs(h.mem, h.tenured.hdrs);
    LiveIsMarked(h.mem, h.tenured.hdrs, c);
    assert forall j | 0 <= j < |live| :: live[0] <= live[j];
  }

  /**
   The second main pass visits the blocks of the old space twice. Updating a reference twice is right if and only if its
   new address was not that of another marked block that moved: one with a dead block somewhere below.
   */
  lemma RemappedTwiceIff(h: Heap, r: Compacting, a: Addr)
    requires Layout(h) && h.tenured.size != 0 && Compact(h) == Some(r) && IsMarked(h, a)
    ensures var t := Remap(r.moved, a);
            Remap(r.moved, t) == t <==> !IsMarked(h, t) || AllLiveBelow(h, t)
  {
    hide Layout, Compact, Contiguous, Ascending, SlidSpace, LiveHdrs, AllLiveBelow;
    CompactionIsCorrect(h);
    var live, t := LiveHdrs(h.mem, h.tenured.hdrs), Remap(r.moved, a);
    LiveIsMarked(h.mem, h.tenured.hdrs, t);
    if t in live {
      var i :| 0 <= i < |live| && live[i] == t;
      SlidesDown(h, r, i);
    }
  }

  /** Three blocks, two of a size and the first of them dead: a reference to the third, updated twice, leads to the second. */
  lemma RemappedTwiceBreaks(h: Heap, r: Compacting, d: Addr, x: Addr, y: Addr)
    requires Layout(h) && h.tenured.size != 0 && Compact(h) == Some(r)
    requires h.tenured.hdrs == [d, x, y] && !IsMarked(h, d) && IsMarked(h, x) && IsMarked(h, y)
    requires d in h.mem && x in h.mem && |h.mem[d].data| == |h.mem[x].data|
    ensures Holds(r.h, Remap(r.moved, y), h, y)
    ensures Remap(r.moved, Remap(r.moved, y)) != Remap(r.moved, y) && Holds(r.h, Remap(r.moved, Remap(r.moved, y)), h, x)
  {
    hide Compact, Contiguous, SlidSpace, LiveHdrs, Reset, Layout;
    ThreePairs(h, d, x, y);
    CompactionIsCorrect(h);
    RemappedOnce(h, r, x);
    RemappedOnce(h, r, y);
    var news := r.h.tenured.hdrs;
    ContiguousEnds(r.h.mem, news, h.tenured.base, r.h.tenured.pos);
    ContiguousAt(r.h.mem, news, h.tenured.base, r.h.tenured.pos, 0);
    LiveKeptByReset(h, [x, y]);
    assert [x, y][0] == x && [x, y][1] == y;
  }

  lemma ThreePairs(h: Heap, d: Addr, x: Addr, y: Addr)
    requires Layout(h) && h.tenured.hdrs == [d, x, y]
    requires !IsMarked(h, d) && IsMarked(h, x) && IsMarked(h, y)
    ensures LiveHdrs(h.mem, h.tenured.hdrs) == [x, y]
    ensures h.tenured.base == d && d in h.mem && d + BlockWords(h.mem[d]) == x
  {
    var hs := h.tenured.hdrs;
    SpaceTiled(h);
    assert hs[0] == d && hs[1] == x && hs[2] == y;
    assert hs[..2] == [d, x] && hs[..2][..1] == [d] && [d][..0] == [];
    assert LiveHdrs(h.mem, [d]) == [];
    assert LiveHdrs(h.mem, hs[..2]) == [x];
    hide Layout;
  }
}
