/** The blocks that the runtime allocates, word by word, and what their visitors do with the words. */
module HeapLayout {
  import opened Wrappers
  import opened HeapModel
  import opened HeapInvariant
  import opened HeapScan
  import opened HeapCollect
  import opened HeapTheorems
  import opened HeapRuns

  // ----- the blocks; `a` is the header's address, so that the payload starts at `a + 1`

  /** `env_t` and its objects: the parent, size and depth in one word, `objects = mem + sizeof(env_t)`. */
  function EnvWords(a: Addr, prev: Word, meta: int, objects: seq<Word>): seq<Word> {
    [prev, Imm(meta), Raw(a + 1 + 3)] + objects
  }

  /** `struct_t` and its fields: the type name, the size, `fields = mem + sizeof(struct_t)`. */
  function StructWords(a: Addr, typeName: Word, size: int, fields: seq<Word>): seq<Word> {
    [typeName, Imm(size), Raw(a + 1 + 3)] + fields
  }

  /** `string_t`, its characters behind it: `str = mem + sizeof(string_t)`, size and the `allocated` bit in one word. */
  function StringWords(a: Addr, meta: int, chars: seq<Word>): seq<Word> { [Raw(a + 1 + 2), Imm(meta)] + chars }

  /** `string_t` with characters somewhere else. */
  function SharedStringWords(str: Addr, meta: int): seq<Word> { [Raw(str), Imm(meta)] }

  /** `bytevector_t` and its bytes: `data = mem + sizeof(bytevector_t)`, the size. */
  function BytesWords(a: Addr, size: int, bytes: seq<Word>): seq<Word> { [Raw(a + 1 + 2), Imm(size)] + bytes }

  /** `pair_t`: both parts, the list mark and length in one word. */
  function PairWords(car: Word, cdr: Word, meta: int): seq<Word> { [car, cdr, Imm(meta)] }

  /** `closure_t`: the environment, the function; `closure_new` asks for unused room for the bindmap. */
  function ClosureWords(env: Word, func: Addr, unused: seq<Word>): seq<Word> { [env, Raw(func)] + unused }

  /** `continuation_t`. */
  function ContWords(func: Word): seq<Word> { [func] }

  // ----- they may be allocated

  ghost predicate ResolvesAll(h: Heap, ws: seq<Word>) { forall i {:trigger ws[i]} | 0 <= i < |ws| :: Resolves(h, ws[i]) }

  ghost predicate MayAllocate(h: Heap, kind: Kind, data: seq<Word>) {
    1 + |data| <= h.nursery.free ==> Legal(h, Allocates(kind, data))
  }

  /** The interior pointers that the constructors store are those that the collector expects. */
  lemma ConstructorsAreLegal(h: Heap, x: Word, y: Word, n: int, p: Addr, ws: seq<Word>)
    requires Resolves(h, x) && Resolves(h, y) && ResolvesAll(h, ws)
    ensures MayAllocate(h, EnvK, EnvWords(h.nursery.pos, x, n, ws))
    ensures MayAllocate(h, StructK, StructWords(h.nursery.pos, x, n, ws))
    ensures MayAllocate(h, StringK(true), StringWords(h.nursery.pos, n, ws))
    ensures MayAllocate(h, StringK(false), SharedStringWords(p, n))
    ensures MayAllocate(h, BytesK, BytesWords(h.nursery.pos, n, ws))
    ensures MayAllocate(h, PairK, PairWords(x, y, n))
    ensures MayAllocate(h, ClosureK, ClosureWords(x, p, ws))
    ensures MayAllocate(h, ContK, ContWords(x))
  {
    hide Resolves;
    BehindHead(h, [x, Imm(n), Raw(h.nursery.pos + 4)], ws);
  }

  lemma BehindHead(h: Heap, head: seq<Word>, ws: seq<Word>)
    requires ResolvesAll(h, ws)
    ensures forall i | |head| <= i < |head + ws| :: Resolves(h, (head + ws)[i])
  {
    hide Resolves;
    forall i | |head| <= i < |head + ws| ensures Resolves(h, (head + ws)[i]) {
      assert (head + ws)[i] == ws[i - |head|];
    }
  }

  // ----- what the visitors do with them

  /** The words that the visitor of a block passes to `heap_mark`, in its order. */
  function Visited(kind: Kind, data: seq<Word>): seq<Word> { Pick(data, Slots(kind, |data|)) }

  function Pick(data: seq<Word>, offs: seq<nat>): seq<Word> {
    if offs == [] then []
    else (if offs[0] < |data| then [data[offs[0]]] else []) + Pick(data, offs[1..])
  }

  lemma {:induction false} PickUpward(head: seq<Word>, ws: seq<Word>, offs: seq<nat>, k: nat)
    requires k <= |ws| && |offs| == |ws| - k && forall i | 0 <= i < |offs| :: offs[i] == |head| + k + i
    ensures Pick(head + ws, offs) == ws[k..]
    decreases |offs|
  {
    if offs != [] {
      PickUpward(head, ws, offs[1..], k + 1);
      assert ws[k..] == [ws[k]] + ws[k + 1..];
    } else {
      assert ws[k..] == [];
    }
  }

  lemma {:induction false} PickLast(data: seq<Word>, offs: seq<nat>, o: nat)
    requires o < |data|
    ensures Pick(data, offs + [o]) == Pick(data, offs) + [data[o]]
    decreases |offs|
  {
    if offs == [] {
      assert offs + [o] == [o] && [o][1..] == [];
    } else {
      assert (offs + [o])[1..] == offs[1..] + [o];
      PickLast(data, offs[1..], o);
    }
  }

  /** The visitors pass on exactly the object words: fields and elements first, then the parent of an environment. */
  lemma VisitorsSeeObjects(a: Addr, x: Word, y: Word, n: int, p: Addr, ws: seq<Word>)
    ensures Visited(EnvK, EnvWords(a, x, n, ws)) == ws + [x]
    ensures Visited(StructK, StructWords(a, x, n, ws)) == ws
    ensures Visited(PairK, PairWords(x, y, n)) == [x, y]
    ensures Visited(ClosureK, ClosureWords(x, p, ws)) == [x]
    ensures Visited(ContK, ContWords(x)) == [x]
    ensures Visited(StringK(true), StringWords(a, n, ws)) == [] && Visited(StringK(false), SharedStringWords(p, n)) == []
    ensures Visited(BytesK, BytesWords(a, n, ws)) == []
  {
    HeadedVisited([x, Imm(n), Raw(a + 1 + 3)], ws);
    PickFew(PairWords(x, y, n));
    PickFew(ClosureWords(x, p, ws));
    PickFew(ContWords(x));
    hide Upward, Pick;
  }

  lemma PickFew(data: seq<Word>)
    requires data != []
    ensures Pick(data, []) == [] && Pick(data, [0]) == [data[0]]
    ensures |data| > 1 ==> Pick(data, [0, 1]) == [data[0], data[1]]
  {
    assert [0][1..] == [] && [1][1..] == [] && [0, 1][1..] == [1];
    assert Pick(data, []) == [];
    if |data| > 1 {
      assert Pick(data, [1]) == [data[1]];
    }
  }

  lemma HeadedVisited(head: seq<Word>, ws: seq<Word>)
    requires |head| == 3
    ensures Pick(head + ws, Upward(|head + ws|)) == ws && Pick(head + ws, Upward(|head + ws|) + [0]) == ws + [head[0]]
  {
    PickUpward(head, ws, Upward(|head + ws|), 0);
    assert ws[0..] == ws;
    PickLast(head + ws, Upward(|head + ws|), 0);
  }

  /** The first object of an environment or record is where its interior pointer leads, and no slot lies between. */
  lemma InteriorIsFirstSlot(kind: Kind, n: nat)
    requires kind.EnvK? || kind.StructK?
    ensures n > 3 ==> IsSlot(kind, n, InteriorTarget(kind))
    ensures forall i: int | IsSlot(kind, n, i) && i > InteriorWord(kind) :: i >= InteriorTarget(kind)
  {
  }

  /** In every heap between collections object `k` of an environment or record is the word at `objects + k`. */
  lemma PointersLead(h: Heap, t: Addr)
    requires WellFormed(h) && t in h.mem
    ensures var b := h.mem[t];
            && (b.kind.EnvK? || b.kind.StructK? ==> |b.data| >= 3 && b.data[2] == Raw(t + 1 + 3))
            && (b.kind == StringK(true) || b.kind.BytesK? ==> |b.data| >= 2 && b.data[0] == Raw(t + 1 + 2))
  {
    hide Tiled;
    assert Based(h, t);
  }
}
