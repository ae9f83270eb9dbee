/** Heap memory as an array of 8-byte cells, and how a map of blocks is laid out in it. */
module HeapCells {
  import opened HeapModel

  /** `block_hdr_t`, or one payload word. */
  datatype Cell =
    | Hdr(kind: Kind, forward: bool, gen: nat, remembered: bool, size: nat)
    | Val(w: Word)

  function HdrOf(b: Block): Cell { Hdr(b.kind, b.forward, b.gen, b.remembered, |b.data|) }

  ghost predicate Stored(c: seq<Cell>, a: Addr, b: Block) {
    && 0 <= a && a + BlockWords(b) <= |c|
    && c[a] == HdrOf(b)
    && (forall i | 0 <= i < |b.data| :: c[a + 1 + i] == Val(b.data[i]))
  }

  /** No two blocks overlap. */
  ghost predicate Separate(m: map<Addr, Block>) {
    forall a, b | a in m && b in m && a < b :: a + BlockWords(m[a]) <= b
  }

  ghost predicate Represents(c: seq<Cell>, m: map<Addr, Block>) {
    && (forall a {:trigger Stored(c, a, m[a])} | a in m :: Stored(c, a, m[a]))
    && Separate(m)
  }

  /** The cells from `t` on are free of blocks. */
  ghost predicate Vacant(m: map<Addr, Block>, t: Addr, n: nat) {
    forall a | a in m :: a + BlockWords(m[a]) <= t || t + n <= a
  }

  lemma StoredElsewhere(c: seq<Cell>, c': seq<Cell>, a: Addr, b: Block)
    requires Stored(c, a, b) && |c'| == |c|
    requires forall i | a <= i < a + BlockWords(b) :: c'[i] == c[i]
    ensures Stored(c', a, b)
  {
    assert c'[a] == c[a];
    forall i | 0 <= i < |b.data| ensures c'[a + 1 + i] == Val(b.data[i]) {
      assert c[a + 1 + i] == Val(b.data[i]);
    }
  }

  /** Rewriting the header of one block. */
  lemma SetHdr(c: seq<Cell>, m: map<Addr, Block>, a: Addr, b: Block)
    requires Represents(c, m) && a in m && b.data == m[a].data
    ensures 0 <= a < |c| && c[a] == HdrOf(m[a])
    ensures Represents(c[a := HdrOf(b)], m[a := b])
  {
    assert Stored(c, a, m[a]);
    var c' := c[a := HdrOf(b)];
    forall d | d in m ensures Stored(c', d, m[a := b][d]) {
      assert Stored(c, d, m[d]);
      if d != a {
        StoredElsewhere(c, c', d, m[d]);
      }
    }
  }

  /** Rewriting one payload word. */
  lemma SetWord(c: seq<Cell>, m: map<Addr, Block>, a: Addr, i: nat, w: Word)
    requires Represents(c, m) && a in m && i < |m[a].data|
    ensures 0 <= a && a + 1 + i < |c| && c[a + 1 + i] == Val(m[a].data[i])
    ensures Represents(c[a + 1 + i := Val(w)], m[a := m[a].(data := m[a].data[i := w])])
  {
    assert Stored(c, a, m[a]);
    var c' := c[a + 1 + i := Val(w)];
    var m' := m[a := m[a].(data := m[a].data[i := w])];
    forall d | d in m ensures Stored(c', d, m'[d]) {
      assert Stored(c, d, m[d]);
      if d != a {
        StoredElsewhere(c, c', d, m[d]);
      }
    }
  }

  /** `c` after copying `n` cells from `a` to `t`. */
  function AfterCopy(c: seq<Cell>, a: Addr, t: Addr, n: nat): seq<Cell>
    requires 0 <= t <= t + n <= |c| && 0 <= a <= a + n <= |c|
  {
    c[..t] + c[a..a + n] + c[t + n..]
  }

  lemma CopyNothing(c: seq<Cell>, a: Addr, t: Addr)
    requires 0 <= t <= |c| && 0 <= a <= |c|
    ensures AfterCopy(c, a, t, 0) == c
  {
  }

  /** Copying cell by cell, downwards or to a place further up: the next cell to copy has not been overwritten. */
  lemma CopyOneMore(c: seq<Cell>, a: Addr, t: Addr, n: nat)
    requires 0 <= a && 0 <= t && a + n < |c| && t + n < |c| && (t <= a || a + n < t)
    ensures |AfterCopy(c, a, t, n)| == |c| && AfterCopy(c, a, t, n)[a + n] == c[a + n]
    ensures AfterCopy(c, a, t, n + 1) == AfterCopy(c, a, t, n)[t + n := c[a + n]]
  {
    var d, e := AfterCopy(c, a, t, n)[t + n := c[a + n]], AfterCopy(c, a, t, n + 1);
    forall k | 0 <= k < |c| ensures d[k] == e[k] {
    }
    assert d == e;
  }

  /** Copying one block to a vacant place. */
  lemma CopyBlock(c: seq<Cell>, m: map<Addr, Block>, a: Addr, t: Addr)
    requires Represents(c, m) && a in m
    requires 0 <= t && t + BlockWords(m[a]) <= |c| && Vacant(m, t, BlockWords(m[a]))
    ensures 0 <= a && a + BlockWords(m[a]) <= |c|
    ensures t !in m && Represents(AfterCopy(c, a, t, BlockWords(m[a])), m[t := m[a]])
  {
    var b := m[a];
    assert Stored(c, a, b);
    var c' := AfterCopy(c, a, t, BlockWords(b));
    var m' := m[t := b];
    forall d | d in m' ensures Stored(c', d, m'[d]) {
      if d == t {
        StoredCopy(c, a, t, b);
      } else {
        assert Stored(c, d, m[d]);
        StoredElsewhere(c, c', d, m[d]);
      }
    }
  }

  lemma StoredCopy(c: seq<Cell>, a: Addr, t: Addr, b: Block)
    requires Stored(c, a, b) && 0 <= t && t + BlockWords(b) <= |c|
    ensures Stored(AfterCopy(c, a, t, BlockWords(b)), t, b)
  {
    var c' := AfterCopy(c, a, t, BlockWords(b));
    forall i | 0 <= i < |b.data| ensures c'[t + 1 + i] == Val(b.data[i]) {
      assert c'[t + 1 + i] == c[a..a + BlockWords(b)][1 + i] == c[a + 1 + i];
    }
  }

  lemma Forgotten(c: seq<Cell>, m: map<Addr, Block>, m': map<Addr, Block>)
    requires Represents(c, m) && forall a | a in m' :: a in m && m'[a] == m[a]
    ensures Represents(c, m')
  {
    forall a | a in m' ensures Stored(c, a, m'[a]) {
      assert Stored(c, a, m[a]);
    }
  }

  /** `c` with `n` cells from `t` on cleared. */
  function Cleared(c: seq<Cell>, t: Addr, n: nat): seq<Cell>
    requires 0 <= t <= t + n <= |c|
  {
    c[..t] + seq(n, _ => Val(Imm(0))) + c[t + n..]
  }

  lemma ClearVacant(c: seq<Cell>, m: map<Addr, Block>, t: Addr, n: nat)
    requires Represents(c, m) && 0 <= t && t + n <= |c| && Vacant(m, t, n)
    ensures Represents(Cleared(c, t, n), m)
  {
    forall a | a in m ensures Stored(Cleared(c, t, n), a, m[a]) {
      assert Stored(c, a, m[a]);
      StoredElsewhere(c, Cleared(c, t, n), a, m[a]);
    }
  }

  /** Writing a new block at a vacant place, header first. */
  lemma WriteBlock(c: seq<Cell>, c': seq<Cell>, m: map<Addr, Block>, t: Addr, b: Block)
    requires Represents(c, m) && 0 <= t && t + BlockWords(b) <= |c| == |c'| && Vacant(m, t, BlockWords(b))
    requires Stored(c', t, b)
    requires forall i | 0 <= i < |c| && !(t <= i < t + BlockWords(b)) :: c'[i] == c[i]
    ensures Represents(c', m[t := b])
  {
    var m' := m[t := b];
    forall d | d in m' ensures Stored(c', d, m'[d]) {
      if d != t {
        assert Stored(c, d, m[d]);
        StoredElsewhere(c, c', d, m[d]);
      }
    }
  }

  /** Moving one block down, possibly onto itself, when all other blocks are out of the way. */
  lemma MoveBlock(c: seq<Cell>, m: map<Addr, Block>, a: Addr, t: Addr)
    requires Represents(c, m) && a in m
    requires 0 <= t <= a && Vacant(m - {a}, t, BlockWords(m[a]))
    ensures 0 <= a && a + BlockWords(m[a]) <= |c|
    ensures Represents(AfterCopy(c, a, t, BlockWords(m[a])), (m - {a})[t := m[a]])
  {
    var b := m[a];
    assert Stored(c, a, b);
    var c' := AfterCopy(c, a, t, BlockWords(b));
    var m' := (m - {a})[t := b];
    forall d | d in m' ensures Stored(c', d, m'[d]) {
      if d == t {
        StoredCopy(c, a, t, b);
      } else {
        assert Stored(c, d, m[d]);
        StoredElsewhere(c, c', d, m[d]);
      }
    }
  }
}
