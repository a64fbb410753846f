/** The statically allocated object pools of the HID parser, and singly linked lists in them.
    A reference is the index of a node in its pool. */
module HidPools {
  import opened Bytes

  const NULL := -1

  /** One pool; `content` maps the acquired nodes to their values. */
  class Pool<T(0)> {
    const nodes: array<T>
    const acquired: array<bool>
    ghost var content: map<int, T>

    ghost predicate Valid()
      reads this, nodes, acquired
    {
      && nodes.Length == acquired.Length && nodes as object != acquired
      && (forall i :: i in content <==> 0 <= i < acquired.Length && acquired[i])
      && (forall i :: i in content ==> content[i] == nodes[i])
    }

    /** No node is left to acquire. */
    ghost predicate Full()
      reads this
    {
      |content| == nodes.Length
    }

    constructor (size: nat)
      ensures Valid() && content == map[]
      ensures fresh(this) && fresh(nodes) && fresh(acquired) && nodes.Length == size
    {
      nodes := new T[size];
      acquired := new bool[size](_ => false);
      content := map[];
    }

    /** No more nodes are acquired than there are. */
    lemma NotOver()
      requires Valid()
      ensures |content| <= nodes.Length
    {
      AtMost(content.Keys, nodes.Length);
    }

    /** The first free node, or NULL when the pool is exhausted. */
    method Acquire() returns (p: int)
      requires Valid()
      modifies this, acquired
      ensures Valid()
      ensures p == NULL ==> content == old(content) && Full()
      ensures p != NULL ==> p >= 0 && p !in old(content) && p in content && content == old(content)[p := content[p]]
    {
      var i := 0;
      while i < acquired.Length
        invariant 0 <= i <= acquired.Length
        invariant forall k :: 0 <= k < i ==> acquired[k]
      {
        if !acquired[i] {
          acquired[i] := true;
          content := content[i := nodes[i]];
          return i;
        }
        i := i + 1;
      }
      FullPool(content, nodes.Length);
      return NULL;
    }

    method Release(p: int)
      requires Valid() && p in content
      modifies this, acquired
      ensures Valid() && content == old(content) - {p}
    {
      acquired[p] := false;
      content := content - {p};
    }

    method Write(p: int, v: T)
      requires Valid() && p in content
      modifies this, nodes
      ensures Valid() && content == old(content)[p := v]
    {
      nodes[p] := v;
      content := content[p := v];
    }

    method Read(p: int) returns (v: T)
      requires Valid() && p in content
      ensures v == content[p]
    {
      v := nodes[p];
    }
  }

  lemma {:induction false} FullPool<T>(m: map<int, T>, n: nat)
    requires forall i :: i in m <==> 0 <= i < n
    ensures |m| == n
    decreases n
  {
    if n == 0 {
      assert forall i :: i !in m;
      assert m.Keys == {};
      assert m == map[];
    } else {
      var m' := m - {n - 1};
      FullPool(m', n - 1);
      assert m.Keys == m'.Keys + {n - 1};
    }
  }

  lemma {:induction false} AtMost(s: set<int>, n: nat)
    requires forall i :: i in s ==> 0 <= i < n
    ensures |s| <= n
    decreases n
  {
    if n == 0 {
      assert forall i :: i !in s;
      assert s == {};
    } else {
      AtMost(s - {n - 1}, n - 1);
      assert n - 1 in s ==> s == (s - {n - 1}) + {n - 1};
      assert n - 1 !in s ==> s == s - {n - 1};
    }
  }

  /** The node a list goes on with after position `i`. */
  function Link(chain: seq<int>, i: nat): int {
    if i + 1 < |chain| then chain[i + 1] else NULL
  }

  function Head(chain: seq<int>): int {
    if chain == [] then NULL else chain[0]
  }

  /** The pool holds the nodes of `base`, unchanged, and exactly the nodes of `chain` beside
      them. */
  ghost predicate Owns<T>(m: map<int, T>, base: map<int, T>, chain: seq<int>) {
    && (forall i :: 0 <= i < |chain| ==> chain[i] in m && chain[i] !in base && chain[i] != NULL)
    && (forall i, j :: 0 <= i < j < |chain| ==> chain[i] != chain[j])
    && (forall k :: k in m ==> k in base || k in chain)
    && (forall k :: k in base ==> k in m && m[k] == base[k])
  }

  lemma OwnsNothing<T>(m: map<int, T>, base: map<int, T>)
    requires Owns(m, base, [])
    ensures m == base
  {
    var none: seq<int> := [];
    assert forall k :: k in m ==> k in base || k in none;
    assert forall k :: k in m ==> k in base;
    assert forall k :: k in base ==> k in m && m[k] == base[k];
    assert m.Keys == base.Keys;
    assert m == base;
  }

  lemma OwnsMore<T>(m: map<int, T>, base: map<int, T>, chain: seq<int>, p: int, v: T)
    requires Owns(m, base, chain) && p !in m && p != NULL
    ensures Owns(m[p := v], base, chain + [p])
  {
  }

  lemma OwnsWritten<T>(m: map<int, T>, base: map<int, T>, chain: seq<int>, p: int, v: T)
    requires Owns(m, base, chain) && p in chain
    ensures Owns(m[p := v], base, chain)
  {
  }

  lemma OwnsLess<T>(m: map<int, T>, base: map<int, T>, chain: seq<int>)
    requires Owns(m, base, chain) && chain != []
    ensures Owns(m - {chain[0]}, base, chain[1..])
  {
  }

  lemma OwnsInit<T>(m: map<int, T>, base: map<int, T>, chain: seq<int>)
    requires Owns(m, base, chain) && chain != []
    ensures Owns(m - {chain[|chain| - 1]}, base, chain[..|chain| - 1])
  {
  }

  lemma {:induction false} OwnsCount<T>(m: map<int, T>, base: map<int, T>, chain: seq<int>)
    requires Owns(m, base, chain)
    ensures |m| == |base| + |chain|
    decreases |chain|
  {
    if chain == [] {
      OwnsNothing(m, base);
    } else {
      OwnsLess(m, base, chain);
      OwnsCount(m - {chain[0]}, base, chain[1..]);
      assert m.Keys == (m - {chain[0]}).Keys + {chain[0]};
    }
  }

  /** The last node and a node to come are none of the others. */
  lemma LastApart<T>(m: map<int, T>, base: map<int, T>, chain: seq<int>, p: int, i: nat)
    requires Owns(m, base, chain) && i < |chain|
    ensures chain[i] in m
    ensures i < |chain| - 1 ==> chain[i] != chain[|chain| - 1]
    ensures p !in m ==> chain[i] != p
  {
  }

  /** The links of a list, whatever else is in its nodes. */
  ghost predicate Linked<T>(m: map<int, T>, chain: seq<int>, next: T -> int) {
    forall i :: 0 <= i < |chain| ==> chain[i] in m && next(m[chain[i]]) == Link(chain, i)
  }

  lemma LinkEnds<T>(m: map<int, T>, base: map<int, T>, chain: seq<int>, k: nat)
    requires Owns(m, base, chain) && k < |chain|
    ensures Link(chain, k) == NULL <==> k + 1 == |chain|
  {
  }

  lemma LinkedTail<T>(m: map<int, T>, base: map<int, T>, chain: seq<int>, next: T -> int)
    requires Owns(m, base, chain) && chain != [] && Linked(m, chain, next)
    ensures chain[0] != NULL && chain[0] in m && next(m[chain[0]]) == Head(chain[1..])
    ensures Linked(m - {chain[0]}, chain[1..], next)
  {
    var rest := chain[1..];
    forall i | 0 <= i < |rest|
      ensures rest[i] in m - {chain[0]} && next(m[rest[i]]) == Link(rest, i)
    {
      assert rest[i] == chain[i + 1];
    }
  }

  /** Releases every node of a list. */
  method FreeList<T(0)>(pool: Pool<T>, first: int, next: T -> int, ghost chain: seq<int>, ghost base: map<int, T>)
    requires pool.Valid() && Owns(pool.content, base, chain) && Linked(pool.content, chain, next)
    requires first == Head(chain)
    modifies pool, pool.acquired
    ensures pool.Valid() && pool.content == base
  {
    hide Pool.Valid, Owns, Linked;
    ghost var rest := chain;
    var it := first;
    HeadNull(pool.content, base, rest);
    while it != NULL
      invariant pool.Valid() && Owns(pool.content, base, rest) && Linked(pool.content, rest, next)
      invariant it == Head(rest) && (it == NULL <==> rest == [])
      decreases |rest|
    {
      LinkedTail(pool.content, base, rest, next);
      OwnsLess(pool.content, base, rest);
      var node := pool.Read(it);
      pool.Release(it);
      rest := rest[1..];
      HeadNull(pool.content, base, rest);
      it := next(node);
    }
    OwnsNothing(pool.content, base);
  }

  lemma HeadNull<T>(m: map<int, T>, base: map<int, T>, chain: seq<int>)
    requires Owns(m, base, chain)
    ensures Head(chain) == NULL <==> chain == []
  {
  }
}
