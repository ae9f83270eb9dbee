/**
 The generational heap of vm/heap.c on values: typed blocks in four spaces, and the collector as
 functions from heap to heap. Addresses and sizes count 8-byte words, and a header takes one word.
 A pointer to a block is held as the address of its header.
 */
module HeapModel {
  import opened Wrappers

  type Addr = int

  const FRESH_WORDS: nat := 1024 * 128 / 8
  const SURVIVED_WORDS: nat := 1024 * 128 / 8
  const OLD_WORDS: nat := SURVIVED_WORDS * 5
  const PROMOTION_AGE: nat := 3

  /** `Ptr` is a heap pointer (or a raw env pointer that `mark_env` tags before visiting), `Raw` any other
      machine address (a forwarding address, or a pointer into the block itself), `Imm` everything else. */
  datatype Word = Imm(n: int) | Ptr(a: Addr) | Raw(at: Addr)

  /** The types registered in `type_table`; a string is owned when its characters follow the header words. */
  datatype Kind = PairK | EnvK | ClosureK | ContK | StructK | StringK(owned: bool) | BytesK

  datatype Block = Block(kind: Kind, forward: bool, gen: nat, remembered: bool, data: seq<Word>)

  /** A bump-allocated space; `hdrs` lists the headers that the walk from `base` meets. */
  datatype Space = Space(base: Addr, size: nat, pos: Addr, free: nat, hdrs: seq<Addr>)

  datatype Heap = Heap(
    mem: map<Addr, Block>,
    nursery: Space,         // the fresh space
    survived: Space,
    future: Space,          // `future_survived`, the target of copying
    tenured: Space,         // the old space; its size is 0 until the first promotion
    oldBase: Addr,          // where the allocator will put the old space
    list: seq<Addr>,        // the remembered list
    full: bool,
    roots: seq<Word>)

  // ----- layout of blocks

  /** Words that a block of this kind has at least. */
  function MinWords(k: Kind): nat {
    match k
    case PairK => 3
    case EnvK => 3
    case ClosureK => 2
    case ContK => 1
    case StructK => 3
    case StringK(_) => 2
    case BytesK => 2
  }

  /** The payload words that the visitor of the kind passes to `heap_mark`, in its order. */
  function Slots(k: Kind, n: nat): seq<nat> {
    match k
    case PairK => if n < 2 then [] else [0, 1]
    case EnvK => if n < 3 then [] else Upward(n) + [0]
    case ClosureK => if n < 1 then [] else [0]
    case ContK => if n < 1 then [] else [0]
    case StructK => if n < 3 then [] else Upward(n)
    case StringK(_) => []
    case BytesK => []
  }

  /** The offsets 3, 4, .., n - 1 of the objects behind a three-word head. */
  function Upward(n: nat): seq<nat>
    requires 3 <= n
  {
    seq(n - 3, i requires 0 <= i => i + 3)
  }

  lemma SlotsAreSlots(k: Kind, n: nat, i: int)
    ensures i in Slots(k, n) <==> IsSlot(k, n, i)
  {
    if 3 <= n {
      assert 3 <= i < n ==> Upward(n)[i - 3] == i;
    }
  }

  predicate IsSlot(k: Kind, n: nat, i: int) {
    match k
    case PairK => 2 <= n && 0 <= i < 2
    case EnvK => 3 <= n && (i == 0 || 3 <= i < n)
    case ClosureK => 1 <= n && i == 0
    case ContK => 1 <= n && i == 0
    case StructK => 3 <= i < n
    case StringK(_) => false
    case BytesK => false
  }

  predicate HasInterior(k: Kind) {
    k.EnvK? || k.StructK? || k.BytesK? || k == StringK(true)
  }

  /** The word that points into the block itself, and the payload word it points to. */
  function InteriorWord(k: Kind): nat {
    if k.EnvK? || k.StructK? then 2 else 0
  }

  function InteriorTarget(k: Kind): nat {
    if k.EnvK? || k.StructK? then 3 else 2
  }

  /** The address an interior pointer of the block with header `t` must hold. */
  function Interior(k: Kind, t: Addr): Word {
    Raw(t + 1 + InteriorTarget(k))
  }

  // ----- spaces

  function BlockWords(b: Block): nat { 1 + |b.data| }

  predicate InSpace(s: Space, p: Addr) { s.base <= p < s.base + s.size }

  function EmptySpace(base: Addr, size: nat): Space { Space(base, size, base, size, []) }

  /** Accounts for a block of `need` words put at `pos`. */
  function Bump(s: Space, need: nat): Space
    requires need <= s.free
  {
    s.(pos := s.pos + need, free := s.free - need, hdrs := s.hdrs + [s.pos])
  }

  function AllocateOld(h: Heap): Heap {
    if h.tenured.size == 0 then h.(tenured := EmptySpace(h.oldBase, OLD_WORDS)) else h
  }

  // ----- heap_mark

  datatype Marked = Marked(h: Heap, w: Word)

  function Remember(h: Heap, a: Addr): Heap
    requires a in h.mem
  {
    h.(mem := h.mem[a := h.mem[a].(remembered := true)], list := h.list + [a])
  }

  // ----- termination: copying uses up to-space, marking uses up unmarked blocks

  function Room(h: Heap): nat {
    h.future.free + (if h.tenured.size == 0 then OLD_WORDS else h.tenured.free)
  }

  ghost function Unmarked(h: Heap): set<Addr> {
    set a | a in h.mem && !h.mem[a].remembered
  }

  ghost predicate Advances(h: Heap, h': Heap) {
    || Room(h') < Room(h)
    || (Room(h') == Room(h) && Unmarked(h') < Unmarked(h))
    || (Room(h') == Room(h) && Unmarked(h') == Unmarked(h) && h'.future == h.future && h'.tenured == h.tenured && h'.list == h.list)
  }

  lemma RememberShrinks(h: Heap, a: Addr)
    requires a in h.mem && !h.mem[a].remembered
    ensures Unmarked(Remember(h, a)) < Unmarked(h)
  {
    assert a in Unmarked(h) && a !in Unmarked(Remember(h, a));
  }

  /** What the forwarding step leaves behind: the first payload word is the new payload address. */
  function Forwarded(b: Block, t: Addr): Block
    requires |b.data| > 0
  {
    b.(forward := true, data := b.data[0 := Raw(t + 1)])
  }

  /** The header a forwarding word leads to. */
  function Forwarding(w: Word): Addr { if w.Raw? then w.at - 1 else 0 }

  function Target(b: Block): Addr { if |b.data| > 0 then Forwarding(b.data[0]) else 0 }

  /** Copies a block of age 3 into the old space; the 2-bit age wraps to 0. */
  function Promote(h: Heap, a: Addr): Option<Marked>
    requires a in h.mem && |h.mem[a].data| > 0
  {
    var b := h.mem[a];
    var h1 := AllocateOld(h);
    var need := BlockWords(b);
    if need > h1.tenured.free then None else
    var t := h1.tenured.pos;
    var copy := b.(forward := false, gen := (b.gen + 1) % 4);
    var m := h.mem[a := Forwarded(b, t).(remembered := false)][t := copy];
    Some(Marked(h1.(mem := m, tenured := Bump(h1.tenured, need), list := h.list + [t]), Ptr(t)))
  }

  function Evacuate(h: Heap, a: Addr): Option<Marked>
    requires a in h.mem && |h.mem[a].data| > 0
  {
    var b := h.mem[a];
    var need := BlockWords(b);
    if need > h.future.free then None else
    var t := h.future.pos;
    var copy := b.(forward := false, gen := (b.gen + 1) % 4);
    var m := h.mem[a := Forwarded(b, t)][t := copy];
    Some(Marked(h.(mem := m, future := Bump(h.future, need)), Ptr(t)))
  }

  /** `heap_mark` outside the pointer-update pass: the new heap and the word to store in the slot. */
  function Mark(h: Heap, w: Word): (r: Option<Marked>)
    ensures r.Some? ==> Advances(h, r.value.h) && r.value.h.roots == h.roots
  {
    if !w.Ptr? then Some(Marked(h, w)) else
    var a := w.a;
    if a !in h.mem || |h.mem[a].data| == 0 then None else
    if InSpace(h.future, a + 1) then Some(Marked(h, w)) else
    var b := h.mem[a];
    if InSpace(h.tenured, a + 1) then
      if h.full && !b.remembered then RememberShrinks(h, a); Some(Marked(Remember(h, a), w)) else Some(Marked(h, w))
    else if b.forward then Some(Marked(h, Ptr(Target(b))))
    else if b.gen == PROMOTION_AGE then
      if h.full then
        if !b.remembered then RememberShrinks(h, a); Some(Marked(Remember(h, a), w)) else Some(Marked(h, w))
      else Promote(h, a)
    else Evacuate(h, a)
  }

  // ----- visitors and scans

  function SetSlot(h: Heap, a: Addr, i: nat, w: Word): Heap
    requires a in h.mem && i < |h.mem[a].data|
  {
    h.(mem := h.mem[a := h.mem[a].(data := h.mem[a].data[i := w])])
  }

  function VisitSlots(h: Heap, a: Addr, offs: seq<nat>): (r: Option<Heap>)
    ensures r.Some? ==> Advances(h, r.value) && r.value.roots == h.roots
    decreases |offs|
  {
    if offs == [] then Some(h) else
    var i := offs[0];
    if a !in h.mem || i >= |h.mem[a].data| then None else
    var m :- Mark(h, h.mem[a].data[i]);
    if a !in m.h.mem || i >= |m.h.mem[a].data| then None else
    VisitSlots(SetSlot(m.h, a, i, m.w), a, offs[1..])
  }

  function Rebase(h: Heap, a: Addr): Heap
    requires a in h.mem
  {
    var b := h.mem[a];
    if HasInterior(b.kind) && InteriorWord(b.kind) < |b.data|
    then SetSlot(h, a, InteriorWord(b.kind), Interior(b.kind, a))
    else h
  }

  /** `visit_hdr`: the visitor first re-bases the interior pointer, then marks the slots. */
  function Visit(h: Heap, a: Addr): (r: Option<Heap>)
    ensures r.Some? ==> Advances(h, r.value) && r.value.roots == h.roots
  {
    if a !in h.mem then None else
    var b := h.mem[a];
    VisitSlots(Rebase(h, a), a, Slots(b.kind, |b.data|))
  }

  /** `heap_scan_references` from block number `i`; the bound grows while it runs. */
  function ScanFuture(h: Heap, i: nat): (r: Option<Heap>)
    ensures r.Some? ==> Advances(h, r.value) && r.value.roots == h.roots
    decreases Room(h), Unmarked(h), |h.future.hdrs| - i
  {
    if i >= |h.future.hdrs| then Some(h) else
    var h1 :- Visit(h, h.future.hdrs[i]);
    ScanFuture(h1, i + 1)
  }

  /** `heap_scan_old` from block number `i`. */
  function ScanOld(h: Heap, i: nat): (r: Option<Heap>)
    ensures r.Some? ==> Advances(h, r.value) && r.value.roots == h.roots
    decreases Room(h), Unmarked(h), |h.tenured.hdrs| - i
  {
    if i >= |h.tenured.hdrs| then Some(h) else
    var h1 :- Visit(h, h.tenured.hdrs[i]);
    ScanOld(h1, i + 1)
  }

  /** The walk of `heap_scan_remebered` from list position `k`, without the final `forget`. */
  function WalkList(h: Heap, k: nat): (r: Option<Heap>)
    ensures r.Some? ==> Advances(h, r.value) && r.value.roots == h.roots
    decreases Room(h), Unmarked(h), |h.list| - k
  {
    if k >= |h.list| then Some(h) else
    var h1 :- Visit(h, h.list[k]);
    WalkList(h1, k + 1)
  }

  function Forget(h: Heap): Heap { h.(list := []) }

  /** The loop of `heap_gc_main` over the two grey queues, the scan cursor standing at block `i`. */
  function Drain(h: Heap, i: nat): (r: Option<Heap>)
    ensures r.Some? ==> r.value.list == [] && r.value.roots == h.roots
    decreases Room(h), Unmarked(h), |h.list|
  {
    if h.list == [] then Some(h) else
    var h1 :- WalkList(h, 0);
    var h2 :- ScanFuture(Forget(h1), i);
    Drain(h2, |h2.future.hdrs|)
  }

  function MarkRoots(h: Heap, i: nat): (r: Option<Heap>)
    ensures r.Some? ==> |r.value.roots| == |h.roots|
    decreases |h.roots| - i
  {
    if i >= |h.roots| then Some(h) else
    var m :- Mark(h, h.roots[i]);
    MarkRoots(m.h.(roots := m.h.roots[i := m.w]), i + 1)
  }

  /** `heap_gc_main` before any address map exists. */
  function GcMain(h: Heap): Option<Heap> {
    var h1 :- MarkRoots(h, 0);
    var h2 :- if h1.full then Some(h1) else ScanOld(h1, 0);
    var h3 :- ScanFuture(h2, 0);
    Drain(h3, |h3.future.hdrs|)
  }
}
