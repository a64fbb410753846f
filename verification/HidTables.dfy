/** The linked lists the report-descriptor parser builds from nodes of its four static pools. */
module HidTables {
  import opened Bytes
  import opened HidSpec
  import opened HidPools

  datatype SizeNode = SizeNode(id: nat, bits: seq<nat>, next: int)
  datatype PathNode = PathNode(kind: nat, page: nat, usage: nat, parent: int, next: int)
  datatype ItemNode = ItemNode(item: Item, value: nat, previous: nat, next: int)
  datatype InfoNode = InfoNode(
    total: nat, first: int, last: int, deviceReports: nat, largest: nat, usingIds: bool,
    ps3: bool, ps4: bool, ps5: bool)

  /** The list of report sizes. */
  ghost predicate SizeList(m: map<int, SizeNode>, chain: seq<int>, reports: seq<Report>) {
    && |chain| == |reports|
    && forall i :: 0 <= i < |chain| ==>
         chain[i] in m && m[chain[i]] == SizeNode(reports[i].id, reports[i].bits, Link(chain, i))
  }

  /** The node a list comes from before position `i`. */
  function Prev(chain: seq<int>, i: nat): int {
    if 0 < i <= |chain| then chain[i - 1] else NULL
  }

  function PathNodeAt(chain: seq<int>, paths: seq<Path>, i: nat): PathNode
    requires i < |paths|
  {
    PathNode(paths[i].kind, paths[i].page, paths[i].usage, Prev(chain, i), Link(chain, i))
  }

  ghost predicate OpenList(m: map<int, PathNode>, chain: seq<int>, paths: seq<Path>) {
    && |chain| == |paths|
    && forall i :: 0 <= i < |chain| ==> chain[i] in m && m[chain[i]] == PathNodeAt(chain, paths, i)
  }

  /** The collection list is the chain of open collections: each one's parent is its predecessor.
      The outermost node is there even when no collection is open, with the usage it had last. */
  ghost predicate PathList(m: map<int, PathNode>, chain: seq<int>, paths: seq<Path>, rootUsage: nat) {
    if paths == [] then
      && |chain| == 1 && chain[0] in m
      && m[chain[0]] == m[chain[0]].(usage := rootUsage, parent := NULL, next := NULL)
    else OpenList(m, chain, paths) && paths[0].usage == rootUsage
  }

  /** The list of items kept. */
  ghost predicate ItemList(m: map<int, ItemNode>, chain: seq<int>, items: seq<Item>) {
    && |chain| == |items|
    && forall i :: 0 <= i < |chain| ==>
         chain[i] in m && m[chain[i]].item == items[i] && m[chain[i]].next == Link(chain, i)
  }

  function InfoOf(f: Found, chain: seq<int>): InfoNode {
    InfoNode(f.total, Head(chain), if chain == [] then NULL else chain[|chain| - 1],
             f.deviceReports, f.largest, f.usingIds, f.ps3, f.ps4, f.ps5)
  }

  // Reading and changing lists, as facts about the maps

  lemma SizeAt(m: map<int, SizeNode>, base: map<int, SizeNode>, chain: seq<int>, reports: seq<Report>, i: nat)
    requires Owns(m, base, chain) && SizeList(m, chain, reports) && i < |chain|
    ensures |chain| == |reports| && chain[i] in m && chain[i] != NULL
    ensures m[chain[i]] == SizeNode(reports[i].id, reports[i].bits, Link(chain, i))
  {
  }

  lemma SizeSet(m: map<int, SizeNode>, base: map<int, SizeNode>, chain: seq<int>, reports: seq<Report>, i: nat, r: Report)
    requires Owns(m, base, chain) && SizeList(m, chain, reports) && i < |chain|
    ensures var m' := m[chain[i] := SizeNode(r.id, r.bits, Link(chain, i))];
            |chain| == |reports| && Owns(m', base, chain) && SizeList(m', chain, reports[i := r])
  {
    OwnsWritten(m, base, chain, chain[i], SizeNode(r.id, r.bits, Link(chain, i)));
  }

  lemma SizeAppend(m: map<int, SizeNode>, base: map<int, SizeNode>, chain: seq<int>, reports: seq<Report>, p: int, r: Report)
    requires Owns(m, base, chain) && SizeList(m, chain, reports) && chain != [] && p !in m && p != NULL
    ensures var last := |chain| - 1;
            && |chain| == |reports|
            && var m' := m[p := SizeNode(r.id, r.bits, NULL)]
                          [chain[last] := SizeNode(reports[last].id, reports[last].bits, p)];
               Owns(m', base, chain + [p]) && SizeList(m', chain + [p], reports + [r])
  {
    hide Owns;
    var last := |chain| - 1;
    var m1 := m[p := SizeNode(r.id, r.bits, NULL)];
    var m' := m1[chain[last] := SizeNode(reports[last].id, reports[last].bits, p)];
    OwnsMore(m, base, chain, p, SizeNode(r.id, r.bits, NULL));
    assert chain[last] == (chain + [p])[last];
    OwnsWritten(m1, base, chain + [p], chain[last], SizeNode(reports[last].id, reports[last].bits, p));
    SizeAppendList(m, base, chain, reports, p, r);
  }

  lemma SizeAppendList(m: map<int, SizeNode>, base: map<int, SizeNode>, chain: seq<int>, reports: seq<Report>, p: int, r: Report)
    requires Owns(m, base, chain) && SizeList(m, chain, reports) && chain != [] && p !in m
    ensures |chain| == |reports|
    ensures var last := |chain| - 1;
            SizeList(m[p := SizeNode(r.id, r.bits, NULL)][chain[last] := SizeNode(reports[last].id, reports[last].bits, p)],
                     chain + [p], reports + [r])
  {
    hide Owns;
    var last := |chain| - 1;
    var m' := m[p := SizeNode(r.id, r.bits, NULL)][chain[last] := SizeNode(reports[last].id, reports[last].bits, p)];
    var chain', reports' := chain + [p], reports + [r];
    forall i | 0 <= i < |chain'|
      ensures chain'[i] in m' && m'[chain'[i]] == SizeNode(reports'[i].id, reports'[i].bits, Link(chain', i))
    {
      if i < |chain| {
        LastApart(m, base, chain, p, i);
      } else {
        LastApart(m, base, chain, p, last);
      }
    }
  }

  /** The list of report sizes with the current report. */
  class SizeTable {
    const pool: Pool<SizeNode>
    var first: int
    var cur: int
    ghost var base: map<int, SizeNode>
    ghost var chain: seq<int>
    ghost var reports: seq<Report>
    ghost var curIdx: nat

    ghost predicate Valid()
      reads this, pool, pool.nodes, pool.acquired
    {
      && pool.Valid()
      && Owns(pool.content, base, chain) && SizeList(pool.content, chain, reports)
      && curIdx < |chain| == |reports| && first == chain[0] && cur == chain[curIdx]
    }

    constructor (size: nat)
      ensures pool.Valid() && pool.content == map[] && pool.nodes.Length == size
      ensures fresh(pool) && fresh(pool.nodes) && fresh(pool.acquired)
    {
      pool := new Pool<SizeNode>(size);
    }

    /** Starts a list with one report; fails when the pool is exhausted. */
    method Open() returns (ok: bool)
      requires pool.Valid()
      modifies this, pool, pool.nodes, pool.acquired
      ensures pool.Valid()
      ensures ok ==> Valid() && base == old(pool.content) && reports == [NEW_REPORT] && curIdx == 0
      ensures !ok ==> pool.content == old(pool.content) && pool.Full()
    {
      hide Pool.Valid;
      base := pool.content;
      var p := pool.Acquire();
      if p == NULL {
        return false;
      }
      pool.Write(p, SizeNode(0, [0, 0, 0], NULL));
      first, cur := p, p;
      chain, reports, curIdx := [p], [NEW_REPORT], 0;
      return true;
    }

    /** The node with an ID, or the last node when there is none. */
    method Find(id: nat) returns (found: bool, p: int, ghost k: nat)
      requires Valid()
      ensures k == FindReport(reports, id) && found == (FindReport(reports, id) < |reports|)
      ensures |chain| == |reports| > 0 && p == chain[Min(FindReport(reports, id), |chain| - 1)]
    {
      hide Pool.Valid, Owns, SizeList;
      p, k := first, 0;
      while true
        invariant k < |chain| && p == chain[k]
        invariant FindReport(reports, id) == k + FindReport(reports[k..], id)
        decreases |chain| - k
      {
        SizeAt(pool.content, base, chain, reports, k);
        var node := pool.Read(p);
        if node.id == id {
          return true, p, k;
        }
        if node.next == NULL {
          assert reports[k..][1..] == [] by { LinkEnds(pool.content, base, chain, k); }
          return false, p, k + 1;
        }
        assert reports[k..][1..] == reports[k + 1..];
        p, k := node.next, k + 1;
      }
    }

    /** Appends a report behind the last node. */
    method Append(last: int) returns (ok: bool)
      requires Valid() && last == chain[|chain| - 1]
      modifies this, pool, pool.nodes, pool.acquired
      ensures pool.Valid() && base == old(base)
      ensures ok ==> Valid() && reports == old(reports) + [NEW_REPORT] && curIdx == |old(reports)|
      ensures !ok ==> pool.Full() && |base| + |old(reports)| == pool.nodes.Length
    {
      hide Pool.Valid, Owns, SizeList;
      SizeAt(pool.content, base, chain, reports, |chain| - 1);
      var node := pool.Read(last);
      var p := pool.Acquire();
      if p == NULL {
        OwnsCount(pool.content, base, chain);
        return false;
      }
      SizeAppend(old(pool.content), base, chain, reports, p, NEW_REPORT);
      pool.Write(p, SizeNode(0, [0, 0, 0], NULL));
      pool.Write(last, node.(next := p));
      assert pool.content == old(pool.content)[p := SizeNode(0, [0, 0, 0], NULL)][last := node.(next := p)];
      cur := p;
      chain, reports, curIdx := chain + [p], reports + [NEW_REPORT], |reports|;
      return true;
    }

    /** The list has no more nodes than were free. */
    lemma Counted()
      requires Valid()
      ensures |base| + |reports| <= pool.nodes.Length
    {
      OwnsCount(pool.content, base, chain);
      pool.NotOver();
    }

    method SetId(id: nat)
      requires Valid()
      modifies this, pool, pool.nodes
      ensures Valid() && base == old(base) && curIdx == old(curIdx)
      ensures reports == old(reports)[curIdx := old(reports)[curIdx].(id := id)]
    {
      hide Pool.Valid, Owns, SizeList;
      SizeAt(pool.content, base, chain, reports, curIdx);
      SizeSet(pool.content, base, chain, reports, curIdx, reports[curIdx].(id := id));
      var node := pool.Read(cur);
      pool.Write(cur, node.(id := id));
      reports := reports[curIdx := reports[curIdx].(id := id)];
    }

    method Move(p: int, ghost k: nat)
      requires Valid() && k < |chain| && p == chain[k]
      modifies this`cur, this`curIdx
      ensures Valid() && curIdx == k
    {
      hide Pool.Valid, Owns, SizeList;
      cur, curIdx := p, k;
    }

    /** Reserves `size` bits in the current report. */
    method Reserve(kind: nat, size: nat) returns (offset: nat, total: nat)
      requires Valid() && kind < 3 && WfReport(reports[curIdx])
      modifies this, pool, pool.nodes
      ensures Valid() && base == old(base) && curIdx == old(curIdx)
      ensures reports == old(reports)[curIdx := AddBits(old(reports)[curIdx], kind, size)]
      ensures offset == old(reports)[curIdx].bits[kind]
      ensures total == AddBits(old(reports)[curIdx], kind, size).bits[kind]
    {
      hide Pool.Valid, Owns, SizeList;
      SizeAt(pool.content, base, chain, reports, curIdx);
      ghost var r := AddBits(reports[curIdx], kind, size);
      SizeSet(pool.content, base, chain, reports, curIdx, r);
      var node := pool.Read(cur);
      offset, total := node.bits[kind], (node.bits[kind] + size) % W16;
      pool.Write(cur, node.(bits := node.bits[kind := total]));
      reports := reports[curIdx := r];
    }

    /** Gives back every node. */
    method Close()
      requires Valid()
      modifies this, pool, pool.acquired
      ensures pool.Valid() && pool.content == old(base)
    {
      hide Pool.Valid, Owns;
      SizeAt(pool.content, base, chain, reports, 0);
      FreeList(pool, first, (n: SizeNode) => n.next, chain, base);
    }
  }

  function WithUsage(paths: seq<Path>, usage: nat): seq<Path>
    requires paths != []
  {
    paths[|paths| - 1 := paths[|paths| - 1].(usage := usage)]
  }

  lemma PathAt(m: map<int, PathNode>, base: map<int, PathNode>, chain: seq<int>, paths: seq<Path>, root: nat, i: nat)
    requires Owns(m, base, chain) && PathList(m, chain, paths, root) && i < |chain|
    ensures |chain| == Max(|paths|, 1)
    ensures chain[i] in m && chain[i] != NULL && m[chain[i]].next == Link(chain, i)
    ensures m[chain[i]].parent == Prev(chain, i) && (Prev(chain, i) == NULL <==> i == 0)
    ensures i < |paths| ==> m[chain[i]] == PathNodeAt(chain, paths, i)
    ensures i == 0 ==> m[chain[i]].usage == root
  {
  }

  /** The outermost node becomes the first open collection. */
  lemma PathRoot(m: map<int, PathNode>, base: map<int, PathNode>, chain: seq<int>, root: nat, kind: nat, page: nat)
    requires Owns(m, base, chain) && PathList(m, chain, [], root)
    ensures var m' := m[chain[0] := PathNode(kind, page, root, NULL, NULL)];
            Owns(m', base, chain) && PathList(m', chain, [Path(kind, page, root)], root)
  {
    OwnsWritten(m, base, chain, chain[0], PathNode(kind, page, root, NULL, NULL));
  }

  lemma OpenAppend(m: map<int, PathNode>, base: map<int, PathNode>, chain: seq<int>, paths: seq<Path>, p: int, path: Path)
    requires Owns(m, base, chain) && OpenList(m, chain, paths) && paths != [] && p !in m
    ensures var last := |chain| - 1;
            && |chain| == |paths| && chain[last] in m
            && OpenList(m[p := PathNode(path.kind, path.page, path.usage, chain[last], NULL)]
                         [chain[last] := m[chain[last]].(next := p)],
                        chain + [p], paths + [path])
  {
    var last := |chain| - 1;
    var m' := m[p := PathNode(path.kind, path.page, path.usage, chain[last], NULL)][chain[last] := m[chain[last]].(next := p)];
    var chain', paths' := chain + [p], paths + [path];
    assert chain[last] in m && m[chain[last]] == PathNodeAt(chain, paths, last);
    forall i | 0 <= i < |chain'|
      ensures chain'[i] in m' && m'[chain'[i]] == PathNodeAt(chain', paths', i)
    {
      if i < last {
        assert chain[i] != chain[last] && chain[i] != p;
        assert m'[chain[i]] == m[chain[i]] == PathNodeAt(chain, paths, i);
        assert PathNodeAt(chain', paths', i) == PathNodeAt(chain, paths, i);
      }
    }
  }

  lemma PathEnter(m: map<int, PathNode>, base: map<int, PathNode>, chain: seq<int>, paths: seq<Path>, root: nat,
                  p: int, kind: nat, page: nat)
    requires Owns(m, base, chain) && PathList(m, chain, paths, root) && paths != [] && p !in m && p != NULL
    ensures var last := |paths| - 1;
            && |chain| == |paths| && chain[last] in m
            && var m' := m[p := PathNode(kind, page, 0, chain[last], NULL)][chain[last] := m[chain[last]].(next := p)];
               Owns(m', base, chain + [p]) && PathList(m', chain + [p], paths + [Path(kind, page, 0)], root)
  {
    var last := |paths| - 1;
    PathAt(m, base, chain, paths, root, last);
    OpenAppend(m, base, chain, paths, p, Path(kind, page, 0));
    hide OpenList, Owns;
    var m1 := m[p := PathNode(kind, page, 0, chain[last], NULL)];
    OwnsMore(m, base, chain, p, PathNode(kind, page, 0, chain[last], NULL));
    assert chain[last] == (chain + [p])[last];
    OwnsWritten(m1, base, chain + [p], chain[last], m[chain[last]].(next := p));
  }

  lemma OpenDrop(m: map<int, PathNode>, base: map<int, PathNode>, chain: seq<int>, paths: seq<Path>)
    requires Owns(m, base, chain) && OpenList(m, chain, paths) && |paths| > 1
    ensures var last := |chain| - 1;
            && |chain| == |paths| && chain[last] in m && chain[last - 1] in m && chain[last - 1] != chain[last]
            && OpenList((m - {chain[last]})[chain[last - 1] := m[chain[last - 1]].(next := NULL)],
                        chain[..last], paths[..last])
  {
    hide PathNodeAt;
    var last := |chain| - 1;
    assert forall i :: 0 <= i < last ==> chain[i] != chain[last];
    assert forall i :: 0 <= i < last - 1 ==> chain[i] != chain[last - 1];
    hide Owns;
    forall i | 0 <= i < last
      ensures DroppedNode(m, chain, i) == PathNodeAt(chain[..last], paths[..last], i)
    {
      PathNodeBefore(m, chain, paths, i);
    }
  }

  /** A node of the list without its last one. */
  function DroppedNode(m: map<int, PathNode>, chain: seq<int>, i: nat): PathNode
    requires i < |chain| && chain[i] in m
  {
    if i + 2 == |chain| then m[chain[i]].(next := NULL) else m[chain[i]]
  }

  lemma PathNodeBefore(m: map<int, PathNode>, chain: seq<int>, paths: seq<Path>, i: nat)
    requires OpenList(m, chain, paths) && i + 1 < |chain|
    ensures chain[i] in m
    ensures DroppedNode(m, chain, i) == PathNodeAt(chain[..|chain| - 1], paths[..|chain| - 1], i)
  {
  }

  lemma PathLeave(m: map<int, PathNode>, base: map<int, PathNode>, chain: seq<int>, paths: seq<Path>, root: nat)
    requires Owns(m, base, chain) && PathList(m, chain, paths, root) && |paths| > 1
    ensures var last := |paths| - 1;
            && |chain| == |paths| && chain[last] in m && chain[last - 1] in m && chain[last - 1] != chain[last]
            && var m' := (m - {chain[last]})[chain[last - 1] := m[chain[last - 1]].(next := NULL)];
               Owns(m', base, chain[..last]) && PathList(m', chain[..last], paths[..last], root)
  {
    OpenDrop(m, base, chain, paths);
    hide OpenList, Owns;
    var last := |paths| - 1;
    OwnsInit(m, base, chain);
    assert chain[last - 1] == chain[..last][last - 1];
    OwnsWritten(m - {chain[last]}, base, chain[..last], chain[last - 1], m[chain[last - 1]].(next := NULL));
  }

  lemma PathUsage(m: map<int, PathNode>, base: map<int, PathNode>, chain: seq<int>, paths: seq<Path>, root: nat, usage: nat)
    requires Owns(m, base, chain) && PathList(m, chain, paths, root) && paths != []
    ensures var last := |paths| - 1;
            && |chain| == |paths| && chain[last] in m
            && var m' := m[chain[last] := m[chain[last]].(usage := usage)];
               Owns(m', base, chain) && PathList(m', chain, WithUsage(paths, usage), if last == 0 then usage else root)
  {
    hide Owns;
    var last := |paths| - 1;
    PathAt(m, base, chain, paths, root, last);
    OwnsWritten(m, base, chain, chain[last], m[chain[last]].(usage := usage));
    var m' := m[chain[last] := m[chain[last]].(usage := usage)];
    var paths' := WithUsage(paths, usage);
    forall i | 0 <= i < |chain|
      ensures chain[i] in m' && m'[chain[i]] == PathNodeAt(chain, paths', i)
    {
      assert m[chain[i]] == PathNodeAt(chain, paths, i);
      LastApart(m, base, chain, NULL, i);
    }
  }

  /** The list of open collections. `cur` is the innermost one, NULL when none is open. */
  class PathTable {
    const pool: Pool<PathNode>
    var first: int
    var cur: int
    ghost var base: map<int, PathNode>
    ghost var chain: seq<int>
    ghost var paths: seq<Path>
    ghost var rootUsage: nat

    ghost predicate Valid()
      reads this, pool, pool.nodes, pool.acquired
    {
      && pool.Valid()
      && Owns(pool.content, base, chain) && PathList(pool.content, chain, paths, rootUsage)
      && |chain| == Max(|paths|, 1) && first == chain[0]
      && cur == if paths == [] then NULL else chain[|paths| - 1]
    }

    constructor (size: nat)
      ensures pool.Valid() && pool.content == map[] && pool.nodes.Length == size
      ensures fresh(pool) && fresh(pool.nodes) && fresh(pool.acquired)
    {
      pool := new Pool<PathNode>(size);
    }

    /** Starts with no collection open; fails when the pool is exhausted. */
    method Open() returns (ok: bool)
      requires pool.Valid()
      modifies this, pool, pool.nodes, pool.acquired
      ensures pool.Valid()
      ensures ok ==> Valid() && base == old(pool.content) && paths == [] && rootUsage == 0
      ensures !ok ==> pool.content == old(pool.content) && pool.Full()
    {
      hide Pool.Valid;
      base := pool.content;
      var p := pool.Acquire();
      if p == NULL {
        return false;
      }
      pool.Write(p, PathNode(0, 0, 0, NULL, NULL));
      first, cur := p, NULL;
      chain, paths, rootUsage := [p], [], 0;
      return true;
    }

    /** The last node of the list. */
    method Last() returns (p: int)
      requires Valid()
      ensures p == chain[|chain| - 1]
    {
      hide Pool.Valid, Owns, PathList;
      p := first;
      ghost var k := 0;
      PathAt(pool.content, base, chain, paths, rootUsage, k);
      LinkEnds(pool.content, base, chain, k);
      var node := pool.Read(p);
      while node.next != NULL
        invariant k < |chain| && p == chain[k] && p in pool.content && node == pool.content[p]
        invariant node.next == Link(chain, k) && (node.next == NULL <==> k + 1 == |chain|)
        decreases |chain| - k
      {
        p, k := node.next, k + 1;
        PathAt(pool.content, base, chain, paths, rootUsage, k);
        LinkEnds(pool.content, base, chain, k);
        node := pool.Read(p);
      }
    }

    /** COLLECTION, but for its usage. */
    method Enter(kind: nat, page: nat) returns (ok: bool)
      requires Valid()
      modifies this, pool, pool.nodes, pool.acquired
      ensures pool.Valid() && base == old(base)
      ensures ok ==> Valid() && rootUsage == old(rootUsage)
      ensures ok ==> paths == old(paths) + [Path(kind, page, if old(paths) == [] then rootUsage else 0)]
      ensures !ok ==> pool.Full() && |base| + |old(paths)| == pool.nodes.Length
    {
      hide Pool.Valid, Owns, PathList;
      EmptyPaths();
      if cur == NULL {
        ok := true;
        EnterRoot(kind, page);
      } else {
        ok := EnterBehind(kind, page);
      }
    }

    /** The outermost node is there already. */
    method EnterRoot(kind: nat, page: nat)
      requires Valid() && paths == []
      modifies this, pool, pool.nodes, pool.acquired
      ensures Valid() && base == old(base) && rootUsage == old(rootUsage) && paths == [Path(kind, page, rootUsage)]
    {
      hide Pool.Valid, Owns, PathList;
      PathAt(pool.content, base, chain, paths, rootUsage, 0);
      PathRoot(pool.content, base, chain, rootUsage, kind, page);
      cur := first;
      var node := pool.Read(cur);
      pool.Write(cur, node.(kind := kind, page := page));
      paths := [Path(kind, page, rootUsage)];
    }

    method EnterBehind(kind: nat, page: nat) returns (ok: bool)
      requires Valid() && paths != []
      modifies this, pool, pool.nodes, pool.acquired
      ensures pool.Valid() && base == old(base)
      ensures ok ==> Valid() && rootUsage == old(rootUsage) && paths == old(paths) + [Path(kind, page, 0)]
      ensures !ok ==> pool.Full() && |base| + |old(paths)| == pool.nodes.Length
    {
      hide Pool.Valid, Owns, PathList;
      var parent := cur;
      var last := Last();
      PathAt(pool.content, base, chain, paths, rootUsage, |chain| - 1);
      var node := pool.Read(last);
      var p := pool.Acquire();
      if p == NULL {
        OwnsCount(pool.content, base, chain);
        return false;
      }
      PathEnter(old(pool.content), base, chain, paths, rootUsage, p, kind, page);
      pool.Write(p, PathNode(kind, page, 0, parent, NULL));
      pool.Write(last, node.(next := p));
      assert pool.content == old(pool.content)[p := PathNode(kind, page, 0, parent, NULL)][last := node.(next := p)];
      cur := p;
      chain, paths := chain + [p], paths + [Path(kind, page, 0)];
      return true;
    }

    /** The list has no more nodes than were free. */
    lemma Counted()
      requires Valid()
      ensures |base| + Max(|paths|, 1) <= pool.nodes.Length
    {
      OwnsCount(pool.content, base, chain);
      pool.NotOver();
    }

    lemma EmptyPaths()
      requires Valid()
      ensures cur == NULL <==> paths == []
    {
    }

    /** The usage of the collection just entered. */
    method SetUsage(usage: nat)
      requires Valid() && paths != []
      modifies this, pool, pool.nodes
      ensures Valid() && base == old(base)
      ensures paths == WithUsage(old(paths), usage)
      ensures rootUsage == if |paths| == 1 then usage else old(rootUsage)
    {
      hide Pool.Valid, Owns, PathList;
      PathAt(pool.content, base, chain, paths, rootUsage, |paths| - 1);
      PathUsage(pool.content, base, chain, paths, rootUsage, usage);
      var node := pool.Read(cur);
      pool.Write(cur, node.(usage := usage));
      rootUsage := if |paths| == 1 then usage else rootUsage;
      paths := WithUsage(paths, usage);
    }

    /** END COLLECTION; fails when no collection is open. */
    method Leave() returns (ok: bool)
      requires Valid()
      modifies this, pool, pool.nodes, pool.acquired
      ensures Valid() && base == old(base) && rootUsage == old(rootUsage)
      ensures ok == (old(paths) != [])
      ensures paths == if ok then old(paths)[..|old(paths)| - 1] else old(paths)
    {
      hide Pool.Valid, Owns, PathList;
      EmptyPaths();
      if cur == NULL {
        return false;
      }
      ghost var last := |paths| - 1;
      PathAt(pool.content, base, chain, paths, rootUsage, last);
      var node := pool.Read(cur);
      if node.parent != NULL {
        PathAt(pool.content, base, chain, paths, rootUsage, last - 1);
        PathLeave(pool.content, base, chain, paths, rootUsage);
        var parent := pool.Read(node.parent);
        pool.Release(parent.next);
        pool.Write(node.parent, parent.(next := NULL));
        chain := chain[..last];
      } else {
        PathRootLeft(pool.content, chain, paths, rootUsage);
      }
      cur := node.parent;
      paths := paths[..last];
      return true;
    }

    /** Gives back every node. */
    method Close()
      requires Valid()
      modifies this, pool, pool.acquired
      ensures pool.Valid() && pool.content == old(base)
    {
      hide Pool.Valid, Owns, PathList;
      PathLinks(pool.content, base, chain, paths, rootUsage);
      FreeList(pool, first, (n: PathNode) => n.next, chain, base);
    }
  }

  lemma PathLinks(m: map<int, PathNode>, base: map<int, PathNode>, chain: seq<int>, paths: seq<Path>, root: nat)
    requires Owns(m, base, chain) && PathList(m, chain, paths, root)
    ensures Linked(m, chain, (n: PathNode) => n.next) && chain != []
  {
    forall i | 0 <= i < |chain|
      ensures chain[i] in m && m[chain[i]].next == Link(chain, i)
    {
      PathAt(m, base, chain, paths, root, i);
    }
  }

  lemma PathRootLeft(m: map<int, PathNode>, chain: seq<int>, paths: seq<Path>, root: nat)
    requires PathList(m, chain, paths, root) && |paths| == 1
    ensures PathList(m, chain, [], root)
  {
  }

  lemma ItemLinks(m: map<int, ItemNode>, chain: seq<int>, items: seq<Item>)
    requires ItemList(m, chain, items)
    ensures Linked(m, chain, (n: ItemNode) => n.next) && |chain| == |items|
  {
  }

  lemma NoItems(m: map<int, ItemNode>)
    ensures Owns(m, m, []) && ItemList(m, [], [])
  {
  }

  /** The first item kept. */
  lemma ItemFirst(m: map<int, ItemNode>, base: map<int, ItemNode>, p: int, node: ItemNode)
    requires Owns(m, base, []) && p !in m && p != NULL && node.next == NULL
    ensures Owns(m[p := node], base, [p]) && ItemList(m[p := node], [p], [node.item])
  {
    OwnsMore(m, base, [], p, node);
    assert [] + [p] == [p];
  }

  /** Another item behind the last one. */
  lemma ItemAppend(m: map<int, ItemNode>, base: map<int, ItemNode>, chain: seq<int>, items: seq<Item>, p: int, node: ItemNode)
    requires Owns(m, base, chain) && ItemList(m, chain, items) && chain != [] && p !in m && p != NULL && node.next == NULL
    ensures var last := |chain| - 1;
            && chain[last] in m
            && var m' := m[p := node][chain[last] := m[chain[last]].(next := p)];
               Owns(m', base, chain + [p]) && ItemList(m', chain + [p], items + [node.item])
  {
    hide Owns;
    var last := |chain| - 1;
    OwnsMore(m, base, chain, p, node);
    assert chain[last] == (chain + [p])[last];
    OwnsWritten(m[p := node], base, chain + [p], chain[last], m[chain[last]].(next := p));
    ItemAppendList(m, base, chain, items, p, node);
  }

  lemma ItemAppendList(m: map<int, ItemNode>, base: map<int, ItemNode>, chain: seq<int>, items: seq<Item>, p: int, node: ItemNode)
    requires Owns(m, base, chain) && ItemList(m, chain, items) && chain != [] && p !in m && node.next == NULL
    ensures var last := |chain| - 1;
            && chain[last] in m
            && ItemList(m[p := node][chain[last] := m[chain[last]].(next := p)], chain + [p], items + [node.item])
  {
    var last := |chain| - 1;
    var m' := m[p := node][chain[last] := m[chain[last]].(next := p)];
    var chain', items' := chain + [p], items + [node.item];
    forall i | 0 <= i < |chain'|
      ensures chain'[i] in m' && m'[chain'[i]].item == items'[i] && m'[chain'[i]].next == Link(chain', i)
    {
      if i < last {
        assert chain[i] != chain[last] && chain[i] != p;
        assert m'[chain[i]] == m[chain[i]];
      }
    }
  }

  /** A parse result: one node that heads the list of the items kept, beside what was there. */
  ghost predicate Holds(infos: map<int, InfoNode>, items: map<int, ItemNode>, info: int, chain: seq<int>, f: Found,
                        infoBase: map<int, InfoNode>, itemBase: map<int, ItemNode>) {
    && info != NULL && info !in infoBase && infos == infoBase[info := InfoOf(f, chain)]
    && Owns(items, itemBase, chain) && ItemList(items, chain, f.items)
  }

  /** A parse result is one node more in its pool, and one for each item kept, all different. */
  lemma HoldsExactly(infos: map<int, InfoNode>, items: map<int, ItemNode>, info: int, chain: seq<int>, f: Found,
                     infoBase: map<int, InfoNode>, itemBase: map<int, ItemNode>)
    requires Holds(infos, items, info, chain, f, infoBase, itemBase)
    ensures |infos| == |infoBase| + 1 && |items| == |itemBase| + |f.items|
    ensures forall i, j :: 0 <= i < j < |chain| ==> chain[i] != chain[j]
  {
    assert infos.Keys == infoBase.Keys + {info};
    OwnsCount(items, itemBase, chain);
  }

  /** Gives back a parse result: the kept items and the node that heads them. */
  method FreeReportInfo(infos: Pool<InfoNode>, items: Pool<ItemNode>, info: int, ghost f: Found,
                        ghost chain: seq<int>, ghost infoBase: map<int, InfoNode>, ghost itemBase: map<int, ItemNode>)
    requires infos.Valid() && items.Valid() && infos.acquired != items.acquired
    requires info != NULL ==> Holds(infos.content, items.content, info, chain, f, infoBase, itemBase)
    modifies infos, infos.acquired, items, items.acquired
    ensures infos.Valid() && items.Valid()
    ensures if info == NULL then infos.content == old(infos.content) && items.content == old(items.content)
            else infos.content == infoBase && items.content == itemBase
  {
    if info != NULL {
      ItemLinks(items.content, chain, f.items);
      var node := infos.Read(info);
      FreeList(items, node.first, (n: ItemNode) => n.next, chain, itemBase);
      infos.Release(info);
      assert infos.content == infoBase;
    }
  }

  /** The parse result under construction. */
  class ItemTable {
    const infos: Pool<InfoNode>
    const items: Pool<ItemNode>
    var info: int
    ghost var infoBase: map<int, InfoNode>
    ghost var itemBase: map<int, ItemNode>
    ghost var chain: seq<int>
    ghost var found: Found

    ghost predicate Valid()
      reads this, infos, infos.nodes, infos.acquired, items, items.nodes, items.acquired
    {
      && infos.Valid() && items.Valid() && infos.acquired != items.acquired
      && info != NULL && info !in infoBase && infos.content == infoBase[info := InfoOf(found, chain)]
      && Owns(items.content, itemBase, chain) && ItemList(items.content, chain, found.items)
    }

    constructor (infoCount: nat, itemCount: nat)
      ensures infos.Valid() && infos.content == map[] && infos.nodes.Length == infoCount
      ensures items.Valid() && items.content == map[] && items.nodes.Length == itemCount
      ensures infos.acquired != items.acquired
      ensures fresh({infos, infos.nodes, infos.acquired, items, items.nodes, items.acquired})
    {
      infos := new Pool<InfoNode>(infoCount);
      items := new Pool<ItemNode>(itemCount);
    }

    /** Starts an empty result; fails when the pool of results is exhausted. */
    method Open() returns (ok: bool)
      requires infos.Valid() && items.Valid() && infos.acquired != items.acquired
      modifies this, infos, infos.nodes, infos.acquired
      ensures infos.Valid() && items.Valid() && items.content == old(items.content)
      ensures ok ==> Valid() && infoBase == old(infos.content) && itemBase == items.content && found == START.found
      ensures !ok ==> infos.content == old(infos.content) && infos.Full()
    {
      hide Pool.Valid, Owns, ItemList;
      infoBase, itemBase := infos.content, items.content;
      NoItems(items.content);
      var p := infos.Acquire();
      if p == NULL {
        return false;
      }
      infos.Write(p, InfoNode(0, NULL, NULL, 1, 0, false, false, false, false));
      info := p;
      chain, found := [], START.found;
      return true;
    }

    /** Changes what the result says beside its items. */
    method Update(node: InfoNode, ghost f: Found)
      requires Valid() && f.items == found.items && node == InfoOf(f, chain)
      modifies this`found, infos, infos.nodes
      ensures Valid() && infoBase == old(infoBase) && itemBase == old(itemBase) && found == f
    {
      hide Pool.Valid, Owns, ItemList;
      infos.Write(info, node);
      found := f;
    }

    /** A REPORT ID was seen: by the first one, and for a new report. */
    method UseIds(isNew: bool)
      requires Valid()
      modifies this`found, infos, infos.nodes
      ensures Valid() && infoBase == old(infoBase) && itemBase == old(itemBase)
      ensures found == old(found).(usingIds := true,
                                   deviceReports := if isNew then (old(found).deviceReports + 1) % W8 else old(found).deviceReports)
    {
      hide Pool.Valid, Owns, ItemList;
      var node := infos.Read(info);
      var n := if isNew then (node.deviceReports + 1) % W8 else node.deviceReports;
      Update(node.(usingIds := true, deviceReports := n), found.(usingIds := true, deviceReports := n));
    }

    method UsesIds() returns (b: bool)
      requires Valid()
      ensures b == found.usingIds
    {
      hide Pool.Valid, Owns, ItemList;
      var node := infos.Read(info);
      b := node.usingIds;
    }

    method Total() returns (n: nat)
      requires Valid()
      ensures n == found.total
    {
      hide Pool.Valid, Owns, ItemList;
      var node := infos.Read(info);
      n := node.total;
    }

    /** A field ended at bit `end` of its report: the largest size, and the vendor usages looked for. */
    method NoteField(kind: nat, a: Attributes, end: nat)
      requires Valid()
      modifies this`found, infos, infos.nodes
      ensures Valid() && infoBase == old(infoBase) && itemBase == old(itemBase)
      ensures found == NoteVendor(old(found).(largest := Max(old(found).largest, end)), kind, a)
    {
      hide Pool.Valid, Owns, ItemList;
      var node := infos.Read(info);
      node := node.(largest := Max(node.largest, end));
      if kind == FEATURE_TYPE && a.page == PAGE_VENDOR {
        if a.usage == 0x2821 { node := node.(ps5 := true); }
        if a.usage == 0x2721 { node := node.(ps4 := true); }
        if a.usage == 0x2621 { node := node.(ps3 := true); }
      }
      Update(node, NoteVendor(found.(largest := Max(found.largest, end)), kind, a));
    }

    /** Puts an item behind the last node of the list. */
    method Store(item: Item, node: InfoNode) returns (p: int)
      requires Valid() && node == infos.content[info]
      modifies this`chain, items, items.nodes, items.acquired
      ensures infos.Valid() && items.Valid()
      ensures p == NULL ==> items.Full() && |itemBase| + |found.items| == items.nodes.Length
      ensures p != NULL ==> Stored(p, node, item)
    {
      hide Pool.Valid, Owns, ItemList;
      HeadNull(items.content, itemBase, chain);
      p := Insert(item, node.first, node.last);
      assert p != NULL ==> chain[..|chain| - 1] == old(chain);
    }

    /** The list of items with one more node. */
    method Insert(item: Item, first: int, last: int) returns (p: int)
      requires items.Valid() && Owns(items.content, itemBase, chain) && ItemList(items.content, chain, found.items)
      requires first == Head(chain) && (chain != [] ==> last == chain[|chain| - 1])
      modifies this`chain, items, items.nodes, items.acquired
      ensures items.Valid()
      ensures p == NULL ==> items.Full() && |itemBase| + |found.items| == items.nodes.Length
      ensures p != NULL ==> chain == old(chain) + [p]
      ensures p != NULL ==> Owns(items.content, itemBase, chain) && ItemList(items.content, chain, found.items + [item])
    {
      hide Pool.Valid, Owns, ItemList;
      ItemLinks(items.content, chain, found.items);
      OwnsCount(items.content, itemBase, chain);
      HeadNull(items.content, itemBase, chain);
      p := items.Acquire();
      if p == NULL {
        return;
      }
      var value: nat, previous: nat := *, *;
      var added := ItemNode(item, value, previous, NULL);
      if first == NULL {
        ItemFirst(old(items.content), itemBase, p, added);
        items.Write(p, added);
        assert items.content == old(items.content)[p := added];
        assert chain + [p] == [p] && found.items + [item] == [item];
      } else {
        ItemAppend(old(items.content), itemBase, chain, found.items, p, added);
        items.Write(p, added);
        var before := items.Read(last);
        items.Write(last, before.(next := p));
        assert items.content == old(items.content)[p := added][last := before.(next := p)];
      }
      chain := chain + [p];
    }

    /** An item is stored in node `p`, and not yet counted in the result. */
    ghost predicate Stored(p: int, node: InfoNode, item: Item)
      reads this, infos, infos.nodes, infos.acquired, items, items.nodes, items.acquired
    {
      && infos.Valid() && items.Valid() && infos.acquired != items.acquired
      && chain != [] && p == chain[|chain| - 1] != NULL && (|chain| == 1 <==> node.first == NULL)
      && node == InfoOf(found, chain[..|chain| - 1])
      && info != NULL && info !in infoBase && infos.content == infoBase[info := node]
      && Owns(items.content, itemBase, chain) && ItemList(items.content, chain, found.items + [item])
    }

    /** A result and its items take no more nodes than were free. */
    lemma Counted()
      requires Valid()
      ensures |itemBase| + |found.items| <= items.nodes.Length && |infoBase| + 1 <= infos.nodes.Length
    {
      HoldsExactly(infos.content, items.content, info, chain, found, infoBase, itemBase);
      items.NotOver();
      infos.NotOver();
    }

    /** Keeps an item; fails when the pool is exhausted. */
    method Append(item: Item) returns (ok: bool)
      requires Valid()
      modifies this`found, this`chain, infos, infos.nodes, items, items.nodes, items.acquired
      ensures infos.Valid() && items.Valid()
      ensures ok ==> Valid() && infoBase == old(infoBase) && itemBase == old(itemBase)
      ensures ok ==> found == old(found).(items := old(found).items + [item], total := (old(found).total + 1) % W8)
      ensures !ok ==> items.Full() && |itemBase| + |old(found.items)| == items.nodes.Length && itemBase == old(itemBase)
    {
      hide Pool.Valid, Owns, ItemList, InfoOf;
      var node := infos.Read(info);
      hide Valid, Stored;
      var p := Store(item, node);
      if p == NULL {
        return false;
      }
      Attach(p, node, item);
      return true;
    }

    /** Counts the item just stored in node `p`. */
    method Attach(p: int, node: InfoNode, ghost item: Item)
      requires Stored(p, node, item)
      modifies this`found, infos, infos.nodes
      ensures Valid() && infoBase == old(infoBase) && itemBase == old(itemBase)
      ensures found == old(found).(items := old(found).items + [item], total := (old(found).total + 1) % W8)
    {
      hide Pool.Valid, Owns, ItemList;
      var n := node.(first := if node.first == NULL then p else node.first, last := p);
      infos.Write(info, n.(total := (n.total + 1) % W8));
      found := found.(items := found.items + [item], total := (found.total + 1) % W8);
    }

    /** Records the layout of a field; nothing the program keeps. */
    ghost method Lay(f: Field)
      requires Valid()
      modifies this`found
      ensures Valid() && infoBase == old(infoBase) && itemBase == old(itemBase)
      ensures found == old(found).(fields := old(found).fields + [f])
    {
      hide Pool.Valid, Owns, ItemList;
      found := found.(fields := found.fields + [f]);
    }

    /** Gives back the items and the result. */
    method Free()
      requires Valid()
      modifies infos, infos.acquired, items, items.acquired
      ensures infos.Valid() && items.Valid() && infos.content == infoBase && items.content == itemBase
    {
      FreeReportInfo(infos, items, info, found, chain, infoBase, itemBase);
    }
  }
}
