/** The chained hash table of vm/hash.c. */
module HashTable {
  import opened Wrappers

  const MIN_SIZE: nat := 11
  const MAX_SIZE: nat := 13845163

  const PRIMES: seq<nat> := [
    11, 19, 37, 73, 109, 163, 251, 367, 557, 823, 1237, 1861, 2777, 4177, 6247, 9371, 14057, 21089, 31627, 47431,
    71143, 106721, 160073, 240101, 360163, 540217, 810343, 1215497, 1823231, 2734867, 4102283, 6153409, 9230113, 13845163]

  // ----- sizes

  /** The smallest listed prime above `num`, or the largest prime. */
  ghost predicate IsClosest(num: nat, p: nat) {
    && p in PRIMES
    && (p > num || p == MAX_SIZE)
    && (forall i | 0 <= i < |PRIMES| && PRIMES[i] > num :: p <= PRIMES[i])
  }

  lemma PrimesIncrease(i: nat, j: nat)
    requires i < j < |PRIMES|
    ensures PRIMES[i] < PRIMES[j]
  {
    if i + 1 < j {
      PrimesIncrease(i, j - 1);
    }
  }

  lemma FirstIsClosest(num: nat, i: nat)
    requires i < |PRIMES| && PRIMES[i] > num && forall j | 0 <= j < i :: PRIMES[j] <= num
    ensures IsClosest(num, PRIMES[i])
  {
    forall j | 0 <= j < |PRIMES| && PRIMES[j] > num ensures PRIMES[i] <= PRIMES[j] {
      if i < j {
        PrimesIncrease(i, j);
      }
    }
  }

  method SpacedPrimesClosest(num: nat) returns (p: nat)
    ensures IsClosest(num, p)
  {
    for i := 0 to |PRIMES|
      invariant forall j | 0 <= j < i :: PRIMES[j] <= num
    {
      if PRIMES[i] > num {
        FirstIsClosest(num, i);
        hide IsClosest;
        return PRIMES[i];
      }
    }
    return PRIMES[|PRIMES| - 1];
  }

  predicate NeedsResize(size: nat, nnodes: nat) {
    (size >= 3 * nnodes && size > MIN_SIZE) || (3 * size <= nnodes && size < MAX_SIZE)
  }

  // ----- tables

  function Bucket(keyHash: nat, size: nat): (b: nat)
    requires size > 0
    ensures b < size
  {
    keyHash % size
  }

  class Node<K, V> {
    const key: K
    var val: V
    const keyHash: nat
    var next: Node?<K, V>

    constructor (key: K, val: V, keyHash: nat)
      ensures this.key == key && this.val == val && this.keyHash == keyHash && next == null
    {
      this.key, this.val, this.keyHash, next := key, val, keyHash, null;
    }
  }

  ghost function TotalLen<T>(cs: seq<seq<T>>): nat {
    if cs == [] then 0 else TotalLen(cs[..|cs| - 1]) + |cs[|cs| - 1]|
  }

  lemma TotalLenUpdate<T>(cs: seq<seq<T>>, b: nat, c: seq<T>)
    requires b < |cs|
    ensures TotalLen(cs[b := c]) == TotalLen(cs) - |cs[b]| + |c|
  {
    var n := |cs| - 1;
    if b == n {
      assert cs[b := c][..n] == cs[..n];
    } else {
      assert cs[b := c][..n] == cs[..n][b := c];
      TotalLenUpdate(cs[..n], b, c);
    }
  }

  lemma TotalLenEmpty<T>(cs: seq<seq<T>>)
    requires forall b | 0 <= b < |cs| :: cs[b] == []
    ensures TotalLen(cs) == 0
  {
  }

  class Table<K(==,!new), V> {
    var size: nat
    var nnodes: nat
    var nodes: array<Node?<K, V>>
    const hash: K -> nat
    const equal: (K, K) -> bool
    const destroyVal: bool           // whether `destroy_val` is set
    var destroyed: seq<V>            // what was passed to it, in order
    var relinked: nat                // nodes moved by all resizes so far

    ghost var chains: seq<seq<Node<K, V>>>
    ghost var contents: map<K, V>

    /** Two keys are the same entry when their hashes agree and `equal` holds. */
    ghost predicate Same(a: K, b: K) { hash(a) == hash(b) && equal(a, b) }

    /** What the table demands of the two functions it is given. */
    ghost predicate Equivalence() {
      && (forall a :: equal(a, a))
      && (forall a, b :: equal(a, b) ==> equal(b, a))
      && (forall a, b, c :: equal(a, b) && equal(b, c) ==> equal(a, c))
    }

    ghost function NodeSet(cs: seq<seq<Node<K, V>>>): set<Node<K, V>> {
      set b, j | 0 <= b < |cs| && 0 <= j < |cs[b]| :: cs[b][j]
    }

    ghost function Repr(): set<object>
      reads this
    {
      {this, nodes} + NodeSet(chains)
    }

    ghost function First(c: seq<Node<K, V>>): Node?<K, V> { if c == [] then null else c[0] }

    ghost function NextOf(c: seq<Node<K, V>>, j: nat): Node?<K, V> { if j + 1 < |c| then c[j + 1] else null }

    /** The array starts the chains, and the nodes are linked along them. */
    ghost predicate Heads(a: array<Node?<K, V>>, cs: seq<seq<Node<K, V>>>)
      reads a
    {
      a.Length == |cs| && forall b | 0 <= b < |cs| :: a[b] == First(cs[b])
    }

    ghost predicate Links(cs: seq<seq<Node<K, V>>>)
      reads NodeSet(cs)
    {
      forall b, j {:trigger cs[b][j].next} | 0 <= b < |cs| && 0 <= j < |cs[b]| :: cs[b][j].next == NextOf(cs[b], j)
    }

    /** Each node sits in the bucket of its cached hash, and no two nodes of a bucket are the same entry. */
    ghost predicate Sorted(cs: seq<seq<Node<K, V>>>) {
      && (forall b, j | 0 <= b < |cs| && 0 <= j < |cs[b]| ::
            cs[b][j].keyHash == hash(cs[b][j].key) && Bucket(cs[b][j].keyHash, |cs|) == b)
      && (forall b, i, j | 0 <= b < |cs| && 0 <= i < j < |cs[b]| :: !Same(cs[b][i].key, cs[b][j].key))
    }

    /** The chain of a key is the one of its hash modulo the size. */
    lemma KeyInItsBucket(b: nat, j: nat)
      requires Valid() && b < |chains| && j < |chains[b]|
      ensures hash(chains[b][j].key) % size == b
    {
      assert Bucket(chains[b][j].keyHash, |chains|) == b;
    }

    /** The nodes hold exactly the entries of the map. */
    ghost predicate Holds(ns: set<Node<K, V>>, m: map<K, V>)
      reads ns
    {
      && m.Keys == (set n | n in ns :: n.key)
      && (forall n | n in ns :: n.val == m[n.key])
    }

    ghost predicate Valid()
      reads this, Repr()
    {
      && size > 0 && nodes.Length == |chains| == size
      && Equivalence()
      && Heads(nodes, chains)
      && Links(chains)
      && Sorted(chains)
      && Holds(NodeSet(chains), contents)
      && nnodes == TotalLen(chains)
    }

    ghost function Counts(): Counters
      reads this
    {
      Counters(size, nnodes, relinked)
    }

    /** The bounds on the load and on the cost of all resizes so far. */
    ghost predicate Economical()
      reads this
    {
      exists last: nat :: Amortised(Counts(), last)
    }

    /** `hash_table_init`. */
    constructor (hash: K -> nat, equal: (K, K) -> bool, destroyVal: bool)
      requires forall a :: equal(a, a)
      requires forall a, b :: equal(a, b) ==> equal(b, a)
      requires forall a, b, c :: equal(a, b) && equal(b, c) ==> equal(a, c)
      ensures Valid() && fresh(Repr())
      ensures this.hash == hash && this.equal == equal && this.destroyVal == destroyVal
      ensures contents == map[] && size == MIN_SIZE && nnodes == 0 && relinked == 0 && destroyed == []
      ensures Economical()
    {
      this.hash, this.equal, this.destroyVal := hash, equal, destroyVal;
      size := MIN_SIZE;
      nnodes, relinked, destroyed := 0, 0, [];
      nodes := new Node?<K, V>[MIN_SIZE](_ => null);
      chains := seq(MIN_SIZE, _ => []);
      contents := map[];
      new;
      TotalLenEmpty(chains);
      assert Amortised(Counts(), 0);
    }

    lemma PlaceIsUnique(cs: seq<seq<Node<K, V>>>, b1: nat, j1: nat, b2: nat, j2: nat)
      requires Equivalence() && Sorted(cs)
      requires b1 < |cs| && j1 < |cs[b1]| && b2 < |cs| && j2 < |cs[b2]|
      requires cs[b1][j1] == cs[b2][j2]
      ensures b1 == b2 && j1 == j2
    {
      hide Bucket;
    }

    /** `hash_table_lookup_node`: the link that leads to the node of `key`, or to the end of its chain. */
    method LookupNode(key: K) returns (node: Node?<K, V>, prev: Node?<K, V>, keyHash: nat, ghost j: nat)
      requires Valid()
      ensures keyHash == hash(key)
      ensures var c := chains[Bucket(keyHash, size)];
              && j <= |c|
              && node == (if j < |c| then c[j] else null)
              && prev == (if j == 0 then null else c[j - 1])
              && (forall i | 0 <= i < j :: !Same(c[i].key, key))
              && (j < |c| ==> Same(c[j].key, key))
    {
      hide Bucket;
      keyHash := hash(key);
      var b := Bucket(keyHash, size);
      ghost var c := chains[b];
      node, prev, j := nodes[b], null, 0;
      while node != null
        invariant j <= |c|
        invariant node == (if j < |c| then c[j] else null)
        invariant prev == (if j == 0 then null else c[j - 1])
        invariant forall i | 0 <= i < j :: !Same(c[i].key, key)
        decreases |c| - j
      {
        assert chains[b][j].next == NextOf(c, j);
        if node.keyHash == keyHash && equal(node.key, key) {
          return;
        }
        prev, node, j := node, node.next, j + 1;
      }
    }

    /** `hash_table_lookup`: the value of the entry for `key`, if the table holds one. */
    method Lookup(key: K) returns (r: Option<V>)
      requires Valid()
      ensures r.Some? ==> exists k :: k in contents && Same(k, key) && contents[k] == r.value
      ensures r.None? ==> forall k | k in contents :: !Same(k, key)
    {
      hide Bucket;
      var node, prev, keyHash, j := LookupNode(key);
      if node != null {
        r := Some(node.val);
        assert node in NodeSet(chains) && node.key in contents && Same(node.key, key);
      } else {
        r := None;
        AbsentKey(key, Bucket(keyHash, size));
      }
    }

    lemma SameAsItself(key: K)
      requires Equivalence()
      ensures Same(key, key)
    {
    }

    lemma AbsentKey(key: K, b: nat)
      requires Valid() && b == Bucket(hash(key), size)
      requires forall i | 0 <= i < |chains[b]| :: !Same(chains[b][i].key, key)
      ensures forall k | k in contents :: !Same(k, key)
    {
      hide Bucket;
      forall k | k in contents ensures !Same(k, key) {
        var n :| n in NodeSet(chains) && n.key == k;
        assert hash(k) == hash(key) ==> Bucket(n.keyHash, size) == b;
      }
    }
  
    /**
     `hash_table_insert`: an entry that is there keeps its key and node, its old value going to `destroy_val`;
     otherwise a node is added. Resizing changes nothing of that.
     */
    method Insert(key: K, val: V)
      requires Valid()
      modifies Repr()
      ensures Valid() && fresh(Repr() - old(Repr()))
      ensures destroyVal ==> Stores(Ledger(old(contents), old(destroyed)), Ledger(contents, destroyed), val)
      ensures forall k | k in old(contents) && Same(k, key) ::
                && contents == old(contents)[k := val]
                && nnodes == old(nnodes) && size == old(size) && relinked == old(relinked)
                && destroyed == if destroyVal then old(destroyed) + [old(contents)[k]] else old(destroyed)
      ensures (forall k | k in old(contents) :: !Same(k, key)) ==>
                && contents == old(contents)[key := val]
                && nnodes == old(nnodes) + 1 && destroyed == old(destroyed)
                && if NeedsResize(old(size), nnodes)
                   then IsClosest(nnodes, size) && relinked == old(relinked) + nnodes
                   else size == old(size) && relinked == old(relinked)
      ensures InsertStep(old(Counts()), Counts()) && (old(Economical()) ==> Economical())
    {
      hide Bucket, Sorted, Equivalence, TotalLen, Links, Heads, Holds, IsClosest, NeedsResize, Amortised;
      ghost var before := Counts();
      var node, prev, keyHash, j := LookupNode(key);
      var b := Bucket(keyHash, size);
      ghost var l := Ledger(contents, destroyed);
      if node != null {
        StoredKey(key, b, j);
        Overwrite(node, b, j, val);
        assert contents == l.m[node.key := val];
      } else {
        AbsentKey(key, b);
        assert key !in contents by {
          SameAsItself(key);
        }
        AddEntry(key, val, keyHash, prev);
        assert contents == l.m[key := val];
      }
      if old(Economical()) {
        StaysEconomical(before);
      }
    }

    lemma StaysEconomical(before: Counters)
      requires InsertStep(before, Counts()) && exists last: nat :: Amortised(before, last)
      ensures Economical()
    {
      hide InsertStep, Amortised;
      var last: nat :| Amortised(before, last);
      var last' := InsertStepAmortised(before, Counts(), last);
    }

    method AddEntry(key: K, val: V, keyHash: nat, prev: Node?<K, V>)
      requires Valid() && keyHash == hash(key)
      requires forall k | k in contents :: !Same(k, key)
      requires var c := chains[Bucket(keyHash, size)]; prev == if c == [] then null else c[|c| - 1]
      modifies Repr()
      ensures Valid() && fresh(Repr() - old(Repr()))
      ensures contents == old(contents)[key := val] && nnodes == old(nnodes) + 1 && destroyed == old(destroyed)
      ensures if NeedsResize(old(size), nnodes)
              then IsClosest(nnodes, size) && relinked == old(relinked) + nnodes
              else size == old(size) && relinked == old(relinked)
    {
      hide Bucket, Sorted, Equivalence, TotalLen, Same, IsClosest, NeedsResize, Links, Heads, Holds;
      Append(key, val, keyHash, prev);
      MaybeResize();
    }

    method Overwrite(node: Node<K, V>, ghost b: nat, ghost j: nat, val: V)
      requires Valid() && b < |chains| && j < |chains[b]| && node == chains[b][j]
      requires forall n | n in NodeSet(chains) && n != node :: n.key != node.key
      requires node.key in contents
      modifies this`destroyed, this`contents, node
      ensures Valid() && contents == old(contents)[node.key := val]
      ensures destroyed == if destroyVal then old(destroyed) + [old(contents)[node.key]] else old(destroyed)
    {
      hide Bucket, Sorted, Equivalence, TotalLen, Same;
      assert node in NodeSet(chains);
      if destroyVal {
        destroyed := destroyed + [node.val];
      }
      node.val := val;
      contents := contents[node.key := val];
    }

    lemma StoredKey(key: K, b: nat, j: nat)
      requires Valid() && b == Bucket(hash(key), size) && j < |chains[b]| && Same(chains[b][j].key, key)
      ensures forall k | k in contents && Same(k, key) :: k == chains[b][j].key
      ensures forall n | n in NodeSet(chains) && n != chains[b][j] :: n.key != chains[b][j].key
      ensures chains[b][j].key in contents
    {
      hide Bucket;
      forall k | k in contents && Same(k, key) ensures k == chains[b][j].key {
        var n :| n in NodeSet(chains) && n.key == k;
        assert Bucket(n.keyHash, size) == b;
      }
    }

    /** A new node at the end of the chain whose last node is `prev`. */
    method Append(key: K, val: V, keyHash: nat, prev: Node?<K, V>)
      requires Valid() && keyHash == hash(key)
      requires forall k | k in contents :: !Same(k, key)
      requires var c := chains[Bucket(keyHash, size)]; prev == if c == [] then null else c[|c| - 1]
      modifies Repr()
      ensures Valid() && fresh(Repr() - old(Repr()))
      ensures contents == old(contents)[key := val] && nnodes == old(nnodes) + 1
      ensures size == old(size) && destroyed == old(destroyed) && relinked == old(relinked)
    {
      hide Bucket;
      hide Sorted, Equivalence, TotalLen, Same;
      var node := new Node(key, val, keyHash);
      Attach(Bucket(keyHash, size), node, prev);
    }

    method Attach(b: nat, node: Node<K, V>, prev: Node?<K, V>)
      requires Valid() && b < |chains| && node !in NodeSet(chains) && node.next == null
      requires node.keyHash == hash(node.key) && Bucket(node.keyHash, size) == b
      requires forall k | k in contents :: !Same(k, node.key)
      requires prev == if chains[b] == [] then null else chains[b][|chains[b]| - 1]
      modifies nodes, if prev == null then {} else {prev}, this`chains, this`contents, this`nnodes
      ensures Valid() && contents == old(contents)[node.key := node.val] && nnodes == old(nnodes) + 1
      ensures NodeSet(chains) == old(NodeSet(chains)) + {node} && node.val == old(node.val)
    {
      hide Bucket, Sorted, Equivalence, TotalLen, Same;
      AppendPlan(b, node, prev);
      LinkLast(b, prev, node, chains);
      chains := chains[b := chains[b] + [node]];
      contents := contents[node.key := node.val];
      nnodes := nnodes + 1;
    }

    lemma AppendPlan(b: nat, node: Node<K, V>, prev: Node?<K, V>)
      requires Valid() && b < |chains| && node !in NodeSet(chains)
      requires node.keyHash == hash(node.key) && Bucket(node.keyHash, size) == b
      requires forall k | k in contents :: !Same(k, node.key)
      requires prev == if chains[b] == [] then null else chains[b][|chains[b]| - 1]
      ensures var cs' := chains[b := chains[b] + [node]];
              Sorted(cs') && NodeSet(cs') == NodeSet(chains) + {node} && TotalLen(cs') == TotalLen(chains) + 1
      ensures node.key !in contents
      ensures forall d, i | 0 <= d < |chains| && 0 <= i < |chains[d]| && chains[d][i] == prev :: d == b && i == |chains[b]| - 1
    {
      hide Bucket;
      var c := chains[b];
      assert Same(node.key, node.key);
      assert forall i | 0 <= i < |c| :: chains[b][i] in NodeSet(chains);
      AppendSorted(chains, b, node);
      AppendNode(chains, b, node);
      TotalLenUpdate(chains, b, c + [node]);
      forall d, i | 0 <= d < |chains| && 0 <= i < |chains[d]| && chains[d][i] == prev ensures d == b && i == |c| - 1 {
        PlaceIsUnique(chains, d, i, b, |c| - 1);
      }
    }

    /** The store `*node_ptr = node`. */
    method LinkLast(b: nat, prev: Node?<K, V>, node: Node<K, V>, ghost cs: seq<seq<Node<K, V>>>)
      requires Heads(nodes, cs) && Links(cs) && b < |cs|
      requires prev == if cs[b] == [] then null else cs[b][|cs[b]| - 1]
      requires forall d, i | 0 <= d < |cs| && 0 <= i < |cs[d]| && cs[d][i] == prev :: d == b && i == |cs[b]| - 1
      requires node !in NodeSet(cs) && node.next == null
      modifies nodes, if prev == null then {} else {prev}
      ensures var cs' := cs[b := cs[b] + [node]]; Heads(nodes, cs') && Links(cs')
      ensures forall n | n in NodeSet(cs) :: n.val == old(n.val)
      ensures node.val == old(node.val)
    {
      hide Bucket;
      if prev == null {
        nodes[b] := node;
      } else {
        prev.next := node;
      }
    }

    lemma AppendSorted(cs: seq<seq<Node<K, V>>>, b: nat, node: Node<K, V>)
      requires Sorted(cs) && b < |cs| && node.keyHash == hash(node.key) && Bucket(node.keyHash, |cs|) == b
      requires forall i | 0 <= i < |cs[b]| :: !Same(cs[b][i].key, node.key)
      ensures Sorted(cs[b := cs[b] + [node]])
    {
      hide Bucket;
    }

    lemma AppendNode(cs: seq<seq<Node<K, V>>>, b: nat, node: Node<K, V>)
      requires b < |cs|
      ensures NodeSet(cs[b := cs[b] + [node]]) == NodeSet(cs) + {node}
    {
      var cs' := cs[b := cs[b] + [node]];
      assert cs'[b][|cs[b]|] == node;
      forall d, i | 0 <= d < |cs| && 0 <= i < |cs[d]| ensures cs[d][i] in NodeSet(cs') {
        assert cs'[d][i] == cs[d][i];
      }
    }

    method MaybeResize()
      requires Valid()
      modifies Repr()
      ensures Valid() && fresh(Repr() - old(Repr()))
      ensures contents == old(contents) && nnodes == old(nnodes) && destroyed == old(destroyed)
      ensures if NeedsResize(old(size), nnodes) then IsClosest(nnodes, size) && relinked == old(relinked) + nnodes
              else size == old(size) && relinked == old(relinked)
    {
      hide Bucket;
      if NeedsResize(size, nnodes) {
        Resize();
      }
    }
  
    ghost predicate Before(b: nat, x: nat, i: nat, j: nat) { b < i || (b == i && x < j) }

    /** The nodes that precede position `j` of chain `i`. */
    ghost function Done(cs: seq<seq<Node<K, V>>>, i: nat, j: nat): set<Node<K, V>> {
      set b, x | 0 <= b < |cs| && 0 <= x < |cs[b]| && Before(b, x, i, j) :: cs[b][x]
    }

    /** In the middle of resizing: what precedes position `j` of chain `i` is on the new chains, the rest is as it was. */
    ghost predicate Midway(cs: seq<seq<Node<K, V>>>, i: nat, j: nat,
                           moved: seq<seq<Node<K, V>>>, newNodes: array<Node?<K, V>>)
      reads NodeSet(cs), NodeSet(moved), newNodes
    {
      && |moved| == newNodes.Length > 0
      && i <= |cs| && (if i < |cs| then j <= |cs[i]| else j == 0)
      && Heads(newNodes, moved)
      && Links(moved)
      && Sorted(moved)
      && NodeSet(moved) == Done(cs, i, j)
      && TotalLen(moved) == TotalLen(cs[..i]) + j
      && (forall b, x {:trigger cs[b][x].next} | 0 <= b < |cs| && 0 <= x < |cs[b]| && !Before(b, x, i, j) ::
            cs[b][x].next == NextOf(cs[b], x))
    }

    lemma DoneIsApart(cs: seq<seq<Node<K, V>>>, i: nat, j: nat, n: Node<K, V>)
      requires Equivalence() && Sorted(cs) && i < |cs| && j < |cs[i]| && n in Done(cs, i, j)
      ensures !Same(cs[i][j].key, n.key) && n != cs[i][j]
    {
      hide Bucket;
    }

    /** Pushes node `j` of chain `i` onto its new chain. */
    method Relink(node: Node<K, V>, ghost cs: seq<seq<Node<K, V>>>, ghost i: nat, ghost j: nat,
                  ghost moved: seq<seq<Node<K, V>>>, newNodes: array<Node?<K, V>>)
      returns (ghost moved': seq<seq<Node<K, V>>>)
      requires Equivalence() && Sorted(cs) && Midway(cs, i, j, moved, newNodes)
      requires i < |cs| && j < |cs[i]| && node == cs[i][j]
      modifies node`next, newNodes
      ensures Midway(cs, i, j + 1, moved', newNodes) && |moved'| == |moved|
    {
      hide Bucket, Sorted, Equivalence, TotalLen;
      var h := Bucket(node.keyHash, newNodes.Length);
      RelinkFacts(node, cs, i, j, moved, newNodes, h);
      moved' := moved[h := [node] + moved[h]];
      LinkFirst(h, node, moved, newNodes);
      hide Links, Heads, NodeSet, Done;
    }

    /** What no store decides: the node is new on the new chains, and stands on the old ones in one place. */
    lemma RelinkFacts(node: Node<K, V>, cs: seq<seq<Node<K, V>>>, i: nat, j: nat,
                      moved: seq<seq<Node<K, V>>>, newNodes: array<Node?<K, V>>, h: nat)
      requires Equivalence() && Sorted(cs) && Midway(cs, i, j, moved, newNodes)
      requires i < |cs| && j < |cs[i]| && node == cs[i][j]
      requires h < |moved| && h == Bucket(node.keyHash, |moved|)
      ensures node !in NodeSet(moved)
      ensures forall b, x | 0 <= b < |cs| && 0 <= x < |cs[b]| && cs[b][x] == node :: b == i && x == j
      ensures var moved' := moved[h := [node] + moved[h]];
              && Sorted(moved')
              && NodeSet(moved') == Done(cs, i, j + 1)
              && TotalLen(moved') == TotalLen(cs[..i]) + j + 1
    {
      hide Bucket;
      assert forall g, y | 0 <= g < |moved| && 0 <= y < |moved[g]| :: moved[g][y] in NodeSet(moved);
      forall n | n in Done(cs, i, j) ensures n != node && !Same(node.key, n.key) {
        DoneIsApart(cs, i, j, n);
      }
      forall b, x | 0 <= b < |cs| && 0 <= x < |cs[b]| && cs[b][x] == node ensures b == i && x == j {
        PlaceIsUnique(cs, b, x, i, j);
      }
      PushSorted(moved, h, node);
      NodeSetPush(moved, h, node);
      TotalLenUpdate(moved, h, [node] + moved[h]);
      OneMoreDone(cs, i, j);
    }

    lemma OneMoreDone(cs: seq<seq<Node<K, V>>>, i: nat, j: nat)
      requires i < |cs| && j < |cs[i]|
      ensures Done(cs, i, j + 1) == Done(cs, i, j) + {cs[i][j]}
    {
      assert forall n | n in Done(cs, i, j) :: n in Done(cs, i, j + 1);
    }

    method LinkFirst(h: nat, node: Node<K, V>, ghost moved: seq<seq<Node<K, V>>>, newNodes: array<Node?<K, V>>)
      requires h < |moved| && Heads(newNodes, moved) && Links(moved) && node !in NodeSet(moved)
      modifies node`next, newNodes
      ensures var moved' := moved[h := [node] + moved[h]]; Heads(newNodes, moved') && Links(moved')
    {
      hide Bucket;
      ghost var moved': seq<seq<Node<K, V>>> := moved[h := [node] + moved[h]];
      node.next := newNodes[h];
      newNodes[h] := node;
      forall g, y | 0 <= g < |moved'| && 0 <= y < |moved'[g]| ensures moved'[g][y].next == NextOf(moved'[g], y) {
        if g == h && y > 0 {
          assert moved'[g][y] == moved[g][y - 1];
        }
      }
    }

    lemma PushSorted(moved: seq<seq<Node<K, V>>>, h: nat, node: Node<K, V>)
      requires Sorted(moved) && h < |moved| && node.keyHash == hash(node.key) && Bucket(node.keyHash, |moved|) == h
      requires forall i | 0 <= i < |moved[h]| :: !Same(node.key, moved[h][i].key)
      ensures Sorted(moved[h := [node] + moved[h]])
    {
      hide Bucket;
    }

    lemma NodeSetPush(moved: seq<seq<Node<K, V>>>, h: nat, node: Node<K, V>)
      requires h < |moved|
      ensures NodeSet(moved[h := [node] + moved[h]]) == NodeSet(moved) + {node}
    {
      var m := moved[h := [node] + moved[h]];
      assert m[h][0] == node;
      forall b, j | 0 <= b < |moved| && 0 <= j < |moved[b]| ensures moved[b][j] in NodeSet(m) {
        if b == h {
          assert m[b][j + 1] == moved[b][j];
        } else {
          assert m[b][j] == moved[b][j];
        }
      }
    }

    /** The whole of chain `i`, node by node. */
    method MoveChain(ghost cs: seq<seq<Node<K, V>>>, i: nat, ghost moved: seq<seq<Node<K, V>>>, newNodes: array<Node?<K, V>>)
      returns (ghost moved': seq<seq<Node<K, V>>>)
      requires Equivalence() && Sorted(cs) && Heads(nodes, cs) && i < |cs| && Midway(cs, i, 0, moved, newNodes)
      requires nodes != newNodes
      modifies this`relinked, newNodes, NodeSet(cs)
      ensures Midway(cs, i + 1, 0, moved', newNodes) && |moved'| == |moved|
      ensures relinked == old(relinked) + |cs[i]|
      ensures forall n | n in NodeSet(cs) :: n.val == old(n.val)
    {
      hide Bucket, Sorted, Equivalence, TotalLen, Same;
      var node := nodes[i];
      ghost var j := 0;
      moved' := moved;
      while node != null
        invariant j <= |cs[i]| && node == if j < |cs[i]| then cs[i][j] else null
        invariant Midway(cs, i, j, moved', newNodes) && |moved'| == |moved|
        invariant relinked == old(relinked) + j
        invariant forall n | n in NodeSet(cs) :: n.val == old(n.val)
        decreases |cs[i]| - j
      {
        var next := node.next;
        moved' := Relink(node, cs, i, j, moved', newNodes);
        relinked := relinked + 1;
        node, j := next, j + 1;
      }
      NextChain(cs, i, moved', newNodes);
    }

    lemma NextChain(cs: seq<seq<Node<K, V>>>, i: nat, moved: seq<seq<Node<K, V>>>, newNodes: array<Node?<K, V>>)
      requires i < |cs| && Midway(cs, i, |cs[i]|, moved, newNodes)
      ensures Midway(cs, i + 1, 0, moved, newNodes)
    {
      hide Bucket, Sorted;
      assert cs[..i + 1][..i] == cs[..i];
      assert Done(cs, i + 1, 0) == Done(cs, i, |cs[i]|);
    }

    /** `hash_table_resize`: every node is taken off its chain once and pushed onto a chain of the new array. */
    method Resize()
      requires Valid()
      modifies Repr()
      ensures Valid() && fresh(Repr() - old(Repr()))
      ensures contents == old(contents) && nnodes == old(nnodes) && destroyed == old(destroyed)
      ensures IsClosest(nnodes, size) && relinked == old(relinked) + nnodes
    {
      hide Bucket, Sorted, Equivalence, TotalLen, Same, IsClosest, Links, Heads, Holds;
      var newSize := SpacedPrimesClosest(nnodes);
      ClosestIsPositive(nnodes, newSize);
      var newNodes := new Node?<K, V>[newSize](_ => null);
      ResizeInto(newNodes);
    }

    method ResizeInto(newNodes: array<Node?<K, V>>)
      requires Valid() && newNodes.Length > 0 && newNodes != nodes
      requires forall h | 0 <= h < newNodes.Length :: newNodes[h] == null
      modifies this`relinked, this`nodes, this`size, this`chains, newNodes, NodeSet(chains)
      ensures Valid() && nodes == newNodes && size == newNodes.Length && NodeSet(chains) == old(NodeSet(chains))
      ensures relinked == old(relinked) + nnodes
    {
      hide Bucket, Sorted, Equivalence, TotalLen, Same;
      ghost var moved: seq<seq<Node<K, V>>> := seq(newNodes.Length, _ => []);
      ghost var cs := chains;
      NothingMoved(cs, moved, newNodes);
      hide Links, Heads;
      moved := MoveAll(cs, moved, newNodes);
      Install(cs, moved, newNodes);
    }

    method MoveAll(ghost cs: seq<seq<Node<K, V>>>, ghost moved: seq<seq<Node<K, V>>>, newNodes: array<Node?<K, V>>)
      returns (ghost moved': seq<seq<Node<K, V>>>)
      requires Equivalence() && Sorted(cs) && Heads(nodes, cs) && size == |cs| && Midway(cs, 0, 0, moved, newNodes)
      requires nodes != newNodes
      modifies this`relinked, newNodes, NodeSet(cs)
      ensures Midway(cs, |cs|, 0, moved', newNodes)
      ensures relinked == old(relinked) + TotalLen(cs)
      ensures forall n | n in NodeSet(cs) :: n.val == old(n.val)
    {
      hide Bucket, Sorted, Equivalence, TotalLen, Same;
      moved' := moved;
      TotalLenEmpty(cs[..0]);
      var i := 0;
      while i < size
        invariant i <= size && Heads(nodes, cs)
        invariant Midway(cs, i, 0, moved', newNodes)
        invariant relinked == old(relinked) + TotalLen(cs[..i])
        invariant forall n | n in NodeSet(cs) :: n.val == old(n.val)
      {
        moved' := MoveChain(cs, i, moved', newNodes);
        TotalLenStep(cs, i);
        i := i + 1;
      }
      assert cs[..i] == cs;
    }

    lemma ClosestIsPositive(num: nat, p: nat)
      requires IsClosest(num, p)
      ensures 0 < p <= MAX_SIZE
    {
    }

    lemma TotalLenStep(cs: seq<seq<Node<K, V>>>, i: nat)
      requires i < |cs|
      ensures TotalLen(cs[..i + 1]) == TotalLen(cs[..i]) + |cs[i]|
    {
      assert cs[..i + 1][..i] == cs[..i];
    }

    lemma NothingMoved(cs: seq<seq<Node<K, V>>>, moved: seq<seq<Node<K, V>>>, newNodes: array<Node?<K, V>>)
      requires Links(cs) && |moved| == newNodes.Length > 0
      requires forall h | 0 <= h < |moved| :: moved[h] == [] && newNodes[h] == null
      ensures Midway(cs, 0, 0, moved, newNodes)
    {
      TotalLenEmpty(moved);
    }

    method Install(ghost cs: seq<seq<Node<K, V>>>, ghost moved: seq<seq<Node<K, V>>>, newNodes: array<Node?<K, V>>)
      requires Midway(cs, |cs|, 0, moved, newNodes) && Equivalence() && Holds(NodeSet(cs), contents) && nnodes == TotalLen(cs)
      modifies this`nodes, this`size, this`chains
      ensures Valid() && nodes == newNodes && size == newNodes.Length && NodeSet(chains) == NodeSet(cs)
    {
      hide Bucket, Sorted, Equivalence, TotalLen, Same;
      assert cs[..|cs|] == cs;
      assert Done(cs, |cs|, 0) == NodeSet(cs);
      nodes, size, chains := newNodes, newNodes.Length, moved;
    }
  
    /** `hash_table_destroy`: what it passes to `destroy_val`, each node once and in chain order. */
    method Destroy() returns (passed: seq<V>)
      requires Valid()
      ensures passed == if destroyVal then Values(chains) else []
      ensures destroyVal ==> forall v :: multiset(passed)[v] == Held(contents, v)
    {
      hide Bucket, Sorted, Equivalence, TotalLen, Same, Holds, Values, ChainValues, Held;
      passed := [];
      var i := 0;
      NoValues();
      while i < size
        invariant i <= size
        invariant passed == if destroyVal then Values(chains[..i]) else []
      {
        var node := nodes[i];
        ghost var c := chains[i];
        ghost var j := 0;
        ghost var before := passed;
        while node != null
          invariant j <= |c| && node == if j < |c| then c[j] else null
          invariant passed == if destroyVal then before + ChainValues(c[..j]) else []
          invariant before == if destroyVal then Values(chains[..i]) else []
          decreases |c| - j
        {
          ChainStep(c, j);
          assert chains[i][j].next == NextOf(c, j);
          var next := node.next;
          if destroyVal {
            assert before + ChainValues(c[..j]) + [c[j].val] == before + (ChainValues(c[..j]) + [c[j].val]);
            passed := passed + [node.val];
          }
          node, j := next, j + 1;
        }
        assert c[..j] == c;
        ValuesStep(chains, i);
        i := i + 1;
      }
      assert chains[..i] == chains;
      forall v ensures multiset(Values(chains))[v] == Held(contents, v) {
        PassesEachEntry(v);
      }
    }

    /** The nodes, bucket by bucket. */
    ghost function All(cs: seq<seq<Node<K, V>>>): seq<Node<K, V>> {
      if cs == [] then [] else All(cs[..|cs| - 1]) + cs[|cs| - 1]
    }

    /** The nodes of the first `i` buckets have distinct keys, and their values are what `Destroy` passes on. */
    ghost predicate Listing(i: nat)
      requires i <= |chains|
      reads this, NodeSet(chains)
    {
      var ns := All(chains[..i]);
      && |Values(chains[..i])| == |ns|
      && (forall k | 0 <= k < |ns| :: ns[k] in NodeSet(chains) && Values(chains[..i])[k] == ns[k].val)
      && (forall k | 0 <= k < |ns| :: ns[k].keyHash == hash(ns[k].key) && Bucket(ns[k].keyHash, |chains|) < i)
      && (forall k, l | 0 <= k < l < |ns| :: ns[k].key != ns[l].key)
      && (forall b, j | 0 <= b < i && 0 <= j < |chains[b]| :: chains[b][j] in ns)
    }

    lemma NothingListed()
      requires Valid()
      ensures Listing(0)
    {
    }

    lemma ChainListed(c: seq<Node<K, V>>)
      ensures |ChainValues(c)| == |c| && forall k | 0 <= k < |c| :: ChainValues(c)[k] == c[k].val
      decreases |c|
    {
      if c != [] {
        ChainListed(c[..|c| - 1]);
      }
    }

    lemma NextListed(i: nat)
      requires Valid() && i < |chains| && Listing(i)
      ensures Listing(i + 1)
    {
      hide Bucket, TotalLen, Links, Heads, Holds, ChainValues, Values, All;
      var c := chains[i];
      var before, ns := All(chains[..i]), All(chains[..i + 1]);
      ValuesStep(chains, i);
      AllStep(chains, i);
      ChainListed(c);
      assert ns == before + c;
      forall k | 0 <= k < |ns|
        ensures ns[k] in NodeSet(chains) && Values(chains[..i + 1])[k] == ns[k].val
        ensures ns[k].keyHash == hash(ns[k].key) && Bucket(ns[k].keyHash, |chains|) < i + 1
      {
        if k >= |before| {
          assert ns[k] == c[k - |before|];
        }
      }
      forall k, l | 0 <= k < l < |ns| ensures ns[k].key != ns[l].key {
        if l >= |before| {
          assert ns[l] == c[l - |before|] && Bucket(ns[l].keyHash, |chains|) == i;
          if k >= |before| {
            assert ns[k] == c[k - |before|] && !Same(ns[k].key, ns[l].key);
          }
        }
      }
      forall b, j | 0 <= b < i + 1 && 0 <= j < |chains[b]| ensures chains[b][j] in ns {
        if b == i {
          assert ns[|before| + j] == c[j];
        } else {
          assert chains[b][j] in before;
        }
      }
    }

    lemma AllStep(cs: seq<seq<Node<K, V>>>, i: nat)
      requires i < |cs|
      ensures All(cs[..i + 1]) == All(cs[..i]) + cs[i]
    {
      assert cs[..i + 1][..i] == cs[..i];
    }

    lemma AllListed(i: nat)
      requires Valid() && i <= |chains|
      ensures Listing(i)
      decreases i
    {
      hide Listing, Valid;
      if i == 0 {
        NothingListed();
      } else {
        AllListed(i - 1);
        NextListed(i - 1);
      }
    }

    /** What `Destroy` passes on is each held value, once per entry. */
    lemma PassesEachEntry(v: V)
      requires Valid()
      ensures multiset(Values(chains))[v] == Held(contents, v)
    {
      hide Bucket, TotalLen, Links, Heads, Sorted, Equivalence, Values, All, Held;
      AllListed(|chains|);
      assert chains[..|chains|] == chains;
      var ns := All(chains);
      var ks := seq(|ns|, k requires 0 <= k < |ns| reads ns => ns[k].key);
      forall k ensures k in ks <==> k in contents {
        if k in contents {
          var n :| n in NodeSet(chains) && n.key == k;
          var b, j :| 0 <= b < |chains| && 0 <= j < |chains[b]| && chains[b][j] == n;
          assert n in ns;
          var l :| 0 <= l < |ns| && ns[l] == n;
          assert ks[l] == k;
        }
        if k in ks {
          var l :| 0 <= l < |ks| && ks[l] == k;
          assert ns[l] in NodeSet(chains);
        }
      }
      assert KeySet(ks) == contents.Keys;
      HeldIsCount(contents, ks, Values(chains), v);
    }

    lemma NoValues()
      ensures Values([]) == [] && ChainValues([]) == []
    {
    }

    lemma ChainStep(c: seq<Node<K, V>>, j: nat)
      requires j < |c|
      ensures ChainValues(c[..j + 1]) == ChainValues(c[..j]) + [c[j].val]
    {
      assert c[..j + 1][..j] == c[..j];
    }

    lemma ValuesStep(cs: seq<seq<Node<K, V>>>, i: nat)
      requires i < |cs|
      ensures Values(cs[..i + 1]) == Values(cs[..i]) + ChainValues(cs[i])
    {
      assert cs[..i + 1][..i] == cs[..i];
    }

    ghost function ChainValues(c: seq<Node<K, V>>): seq<V>
      reads c
    {
      if c == [] then [] else ChainValues(c[..|c| - 1]) + [c[|c| - 1].val]
    }

    ghost function Values(cs: seq<seq<Node<K, V>>>): seq<V>
      reads NodeSet(cs)
    {
      if cs == [] then [] else Values(cs[..|cs| - 1]) + ChainValues(cs[|cs| - 1])
    }
  }

  // ----- every value is handed back once

  ghost function KeySet<K>(ks: seq<K>): set<K> { set k | k in ks }

  ghost function Holders<K, V>(m: map<K, V>, v: V): set<K> { set k | k in m && m[k] == v }

  /** How many entries of the map hold `v`. */
  ghost function Held<K, V>(m: map<K, V>, v: V): nat { |Holders(m, v)| }

  lemma HeldNothing<K, V>(v: V)
    ensures Held<K, V>(map[], v) == 0
  {
    assert Holders<K, V>(map[], v) == {};
  }

  lemma HoldersUpdate<K, V>(m: map<K, V>, key: K, val: V, v: V)
    ensures Holders(m[key := val], v) == (Holders(m, v) - {key}) + if val == v then {key} else {}
  {
  }

  lemma HeldUpdate<K, V>(m: map<K, V>, key: K, val: V, v: V)
    ensures Held(m[key := val], v) + (if key in m && m[key] == v then 1 else 0) == Held(m, v) + (if val == v then 1 else 0)
  {
    HoldersUpdate(m, key, val, v);
    assert key in Holders(m, v) <==> key in m && m[key] == v;
    hide Holders;
    CountWithout(Holders(m, v), key);
    CountWith(Holders(m, v) - {key}, key);
  }

  lemma CountWithout<K>(s: set<K>, key: K)
    ensures |s - {key}| + (if key in s then 1 else 0) == |s|
  {
    if key !in s {
      assert s - {key} == s;
    }
  }

  lemma CountWith<K>(s: set<K>, key: K)
    requires key !in s
    ensures |s + {key}| == |s| + 1 && s + {} == s
  {
  }

  /** Distinct keys in any order, with their values: each value occurs as often as the map holds it. */
  lemma {:induction false} HeldIsCount<K, V>(m: map<K, V>, ks: seq<K>, vs: seq<V>, v: V)
    requires |vs| == |ks| && KeySet(ks) == m.Keys
    requires forall i, j | 0 <= i < j < |ks| :: ks[i] != ks[j]
    requires forall i | 0 <= i < |ks| :: ks[i] in m && vs[i] == m[ks[i]]
    ensures multiset(vs)[v] == Held(m, v)
    decreases |ks|
  {
    hide Held;
    if ks == [] {
      assert m == map[];
      HeldNothing<K, V>(v);
    } else {
      var n := |ks| - 1;
      var m' := m - {ks[n]};
      LastKey(m, ks);
      HeldIsCount(m', ks[..n], vs[..n], v);
      HeldUpdate(m', ks[n], vs[n], v);
      assert m'[ks[n] := vs[n]] == m;
      assert vs == vs[..n] + [vs[n]];
    }
  }

  lemma LastKey<K, V>(m: map<K, V>, ks: seq<K>)
    requires ks != [] && KeySet(ks) == m.Keys
    requires forall i, j | 0 <= i < j < |ks| :: ks[i] != ks[j]
    ensures ks[|ks| - 1] in m && KeySet(ks[..|ks| - 1]) == (m - {ks[|ks| - 1]}).Keys
  {
    var n := |ks| - 1;
    assert ks == ks[..n] + [ks[n]];
    assert ks[n] in ks;
    forall k ensures k in ks[..n] <==> k in m && k != ks[n] {
      assert k in ks <==> k in m.Keys;
    }
  }

  /** What a table holds, and what it has handed to `destroy_val`. */
  datatype Ledger<K, V> = Ledger(m: map<K, V>, destroyed: seq<V>)

  /** Storing `val`: an entry is overwritten and its value handed back, or a new one is made. */
  ghost predicate Stores<K(!new), V>(l: Ledger<K, V>, l': Ledger<K, V>, val: V) {
    || (exists k {:trigger l.m[k := val]} :: k in l.m && l' == Ledger(l.m[k := val], l.destroyed + [l.m[k]]))
    || (exists k {:trigger l.m[k := val]} :: k !in l.m && l' == Ledger(l.m[k := val], l.destroyed))
  }

  /**
   Over any run of inserts, each stored value is either still held by one entry or was handed to `destroy_val` once;
   destroying the table hands over the held ones.
   */
  lemma {:induction false} EachValueOnce<K(!new), V>(ls: seq<Ledger<K, V>>, vals: seq<V>, v: V)
    requires |ls| == |vals| + 1 && ls[0] == Ledger(map[], [])
    requires forall i {:trigger vals[i]} | 0 <= i < |vals| :: Stores(ls[i], ls[i + 1], vals[i])
    ensures Held(ls[|vals|].m, v) + multiset(ls[|vals|].destroyed)[v] == multiset(vals)[v]
    decreases |vals|
  {
    var n := |vals| - 1;
    if vals == [] {
      HeldNothing<K, V>(v);
    } else {
      forall i {:trigger vals[..n][i]} | 0 <= i < n ensures Stores(ls[..n + 1][i], ls[..n + 1][i + 1], vals[..n][i]) {
        assert vals[..n][i] == vals[i];
      }
      EachValueOnce(ls[..n + 1], vals[..n], v);
      assert vals == vals[..n] + [vals[n]];
      var l, l' := ls[n], ls[n + 1];
      assert Stores(l, l', vals[n]);
      var k :| l'.m == l.m[k := vals[n]] && (if k in l.m then l'.destroyed == l.destroyed + [l.m[k]] else l'.destroyed == l.destroyed);
      HeldUpdate(l.m, k, vals[n], v);
    }
  }

  // ----- a run of inserts

  /** The three counters of a table. */
  datatype Counters = Counters(size: nat, nnodes: nat, relinked: nat)

  /** What `Table.Insert` does to them: nothing when it overwrites, else it counts a node and may resize. */
  ghost predicate InsertStep(c: Counters, c': Counters) {
    || c' == c
    || (c'.nnodes == c.nnodes + 1
        && if NeedsResize(c.size, c'.nnodes)
           then IsClosest(c'.nnodes, c'.size) && c'.relinked == c.relinked + c'.nnodes
           else c'.size == c.size && c'.relinked == c.relinked)
  }

  ghost predicate InsertRun(cs: seq<Counters>) {
    && |cs| > 0 && cs[0] == Counters(MIN_SIZE, 0, 0)
    && forall i | 0 <= i < |cs| - 1 :: InsertStep(cs[i], cs[i + 1])
  }

  /** `last` is the number of nodes at the latest resize. */
  ghost predicate Amortised(c: Counters, last: nat) {
    && last <= c.nnodes && MIN_SIZE <= c.size <= MAX_SIZE
    && 2 * c.relinked <= 3 * last
    && (if last == 0 then c.size == MIN_SIZE else (last < c.size < 3 * last || (c.size == MAX_SIZE && c.size <= last)))
    && (c.nnodes < 3 * c.size || c.size == MAX_SIZE)
  }

  lemma ClosestBounds(num: nat, p: nat)
    requires IsClosest(num, p) && 3 * MIN_SIZE <= num
    ensures MIN_SIZE < p <= MAX_SIZE && (num < p < 3 * num || (p == MAX_SIZE && p <= num))
  {
    var i :| 0 <= i < |PRIMES| && PRIMES[i] == p;
    if num < p {
      assert i > 0;
      PrimesIncrease(i - 1, i);
      assert PRIMES[i - 1] <= num;
      NextPrime(i);
    }
  }

  /** Neighbouring primes of the list are less than a factor of two apart. */
  lemma NextPrime(i: nat)
    requires 0 < i < |PRIMES|
    ensures PRIMES[i] < 2 * PRIMES[i - 1]
  {
  }

  lemma InsertStepAmortised(c: Counters, c': Counters, last: nat) returns (last': nat)
    requires Amortised(c, last) && InsertStep(c, c')
    ensures Amortised(c', last') && (last' == last || last' == c'.nnodes)
    ensures !(c.size >= 3 * c'.nnodes && c.size > MIN_SIZE)
    ensures c'.size != c.size ==> c'.size > 3 * c.size || c'.size == MAX_SIZE
  {
    last' := last;
    if c' != c && NeedsResize(c.size, c'.nnodes) {
      ClosestBounds(c'.nnodes, c'.size);
      last' := c'.nnodes;
    }
  }

  /**
   Over any run of inserts, of new keys and of keys that are there, the shrinking branch never fires, a resize more than
   triples the size unless it ends at the largest prime, the load stays below three until then, and all resizes together
   relink at most 3/2 of the nodes present. `Table.Insert` makes such a step, so each table that was only inserted into is
   `Economical`.
   */
  lemma {:induction false} InsertsAreAmortised(cs: seq<Counters>, i: nat) returns (last: nat)
    requires InsertRun(cs) && i < |cs|
    ensures Amortised(cs[i], last) && cs[i].nnodes <= i
    ensures 2 * cs[i].relinked <= 3 * cs[i].nnodes
    ensures cs[i].nnodes < 3 * cs[i].size || cs[i].size == MAX_SIZE
    ensures i > 0 ==> !(cs[i - 1].size >= 3 * cs[i].nnodes && cs[i - 1].size > MIN_SIZE)
    ensures i > 0 && cs[i].size != cs[i - 1].size ==> cs[i].size > 3 * cs[i - 1].size || cs[i].size == MAX_SIZE
  {
    if i == 0 {
      last := 0;
    } else {
      var before := InsertsAreAmortised(cs, i - 1);
      assert InsertStep(cs[i - 1], cs[i - 1 + 1]);
      last := InsertStepAmortised(cs[i - 1], cs[i], before);
    }
  }
}
