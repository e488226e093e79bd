/** The Kernighan and Ritchie allocator of umalloc.c.  Addresses count in units of
    sizeof(Header).  The fields of the headers in memory are the maps `ptr` and `size`;
    the free list is found by following them, as free and malloc do. */
module Malloc {

  // ---------- the free list ----------

  function Succ(i: nat, n: nat): nat {
    if i + 1 >= n then 0 else i + 1
  }

  /** Steps along a ring of n nodes from node i to node f. */
  function Dist(i: int, f: int, n: int): int {
    if i <= f then f - i else f - i + n
  }

  /** The i-th free block points to the next one, the last one to the first. */
  ghost predicate Link(ptr: map<int, int>, free: seq<int>, i: int)
    requires 0 <= i < |free|
  {
    free[i] in ptr && ptr[free[i]] == free[Succ(i, |free|)]
  }

  /** Following ptr from any node visits the list in order and wraps around. */
  ghost predicate Chain(ptr: map<int, int>, free: seq<int>) {
    forall i | 0 <= i < |free| :: Link(ptr, free, i)
  }

  ghost predicate Sized(size: map<int, int>, free: seq<int>) {
    forall i | 0 <= i < |free| :: free[i] in size && (if i == 0 then size[free[i]] == 0 else size[free[i]] > 0)
  }

  /** Each block ends short of every later one, so none overlap and none touch. */
  ghost predicate Spaced(size: map<int, int>, free: seq<int>)
    requires Sized(size, free)
  {
    forall i, j | 0 <= i < j < |free| :: free[i] + size[free[i]] < free[j]
  }

  /** The list is circular and ascending with one wrap, which ends at `base`, the
      empty block that the allocator owns; no two free blocks touch. */
  ghost predicate List(base: int, ptr: map<int, int>, size: map<int, int>, free: seq<int>) {
    |free| >= 1 && free[0] == base && Chain(ptr, free) && Sized(size, free) && Spaced(size, free)
  }

  ghost function Insert(s: seq<int>, q: nat, x: int): (r: seq<int>)
    requires q <= |s|
  {
    seq(|s| + 1, i requires 0 <= i <= |s| => if i < q then s[i] else if i == q then x else s[i - 1])
  }

  ghost function Remove(s: seq<int>, q: nat): (r: seq<int>)
    requires q < |s|
  {
    seq(|s| - 1, i requires 0 <= i < |s| - 1 => if i < q then s[i] else s[i + 1])
  }

  /** The position in the list after which a block at bp belongs. */
  ghost predicate Precedes(free: seq<int>, q: int, bp: int) {
    0 <= q < |free| && free[q] < bp && (q + 1 < |free| ==> bp < free[q + 1])
  }

  /** free links the block at bp between p = free[q] and the block after it. */
  lemma ListInsert(base: int, ptr: map<int, int>, size: map<int, int>, free: seq<int>, q: nat, bp: int)
    requires List(base, ptr, size, free) && Precedes(free, q, bp) && bp in size && size[bp] > 0
    requires free[q] + size[free[q]] < bp && (q + 1 < |free| ==> bp + size[bp] < free[q + 1])
    ensures Link(ptr, free, q)
    ensures List(base, ptr[bp := ptr[free[q]]][free[q] := bp], size, Insert(free, q + 1, bp))
  {
    InsertChain(ptr, free, q, bp);
    hide Chain, Link;
  }

  lemma InsertChain(ptr: map<int, int>, free: seq<int>, q: nat, bp: int)
    requires Chain(ptr, free) && q < |free| && bp !in free && (forall i, j | 0 <= i < j < |free| :: free[i] != free[j])
    ensures Link(ptr, free, q)
    ensures Chain(ptr[bp := ptr[free[q]]][free[q] := bp], Insert(free, q + 1, bp))
  {
    var r := Insert(free, q + 1, bp);
    assert Link(ptr, free, q);
    var ptr' := ptr[bp := ptr[free[q]]][free[q] := bp];
    forall i | 0 <= i < |r|
      ensures Link(ptr', r, i)
    {
      if i != q + 1 {
        var k := if i <= q then i else i - 1;
        assert r[i] == free[k] && Link(ptr, free, k);
      }
    }
  }

  /** Unlinking the block after free[q]. */
  lemma ListRemove(base: int, ptr: map<int, int>, size: map<int, int>, free: seq<int>, q: nat)
    requires List(base, ptr, size, free) && q + 1 < |free|
    ensures Link(ptr, free, q) && Link(ptr, free, q + 1)
    ensures List(base, ptr[free[q] := ptr[free[q + 1]]], size, Remove(free, q + 1))
  {
    var r := Remove(free, q + 1);
    assert Link(ptr, free, q) && Link(ptr, free, q + 1);
    var ptr' := ptr[free[q] := ptr[free[q + 1]]];
    forall i | 0 <= i < |r|
      ensures Link(ptr', r, i)
    {
      var k := if i <= q then i else i + 1;
      assert r[i] == free[k] && Link(ptr, free, k);
    }
  }

  /** A block may take any size that the next one leaves room for. */
  lemma ListResize(base: int, ptr: map<int, int>, size: map<int, int>, free: seq<int>, q: nat, n: int)
    requires List(base, ptr, size, free) && 0 < q < |free| && n > 0
    requires q + 1 < |free| ==> free[q] + n < free[q + 1]
    ensures List(base, ptr, size[free[q] := n], free)
  {
    forall j | q < j < |free|
      ensures free[q] + n < free[j]
    {
      if j > q + 1 { assert free[q + 1] + size[free[q + 1]] < free[j]; }
    }
  }

  /** The list does not depend on the headers of other blocks. */
  lemma ListAgrees(base: int, ptr: map<int, int>, size: map<int, int>, ptr': map<int, int>, size': map<int, int>,
                   free: seq<int>)
    requires List(base, ptr, size, free)
    requires forall i | 0 <= i < |free| :: free[i] in size' && size'[free[i]] == size[free[i]]
    requires forall i | 0 <= i < |free| && free[i] in ptr :: free[i] in ptr' && ptr'[free[i]] == ptr[free[i]]
    ensures List(base, ptr', size', free)
  {
    forall i | 0 <= i < |free|
      ensures Link(ptr', free, i)
    {
      assert Link(ptr, free, i);
    }
  }

  // ---------- the partition of memory into blocks ----------

  /** The block that a unit of memory belongs to, named by the address of its header. */
  datatype Use = Free(a: int) | Live(a: int)

  /** Unit u lies inside the block it belongs to. */
  ghost predicate Placed(base: int, size: map<int, int>, units: map<int, Use>, u: int)
    requires u in units
  {
    var a := units[u].a;
    && a in size && a <= u < a + size[a] && base < a
    && a in units && units[a] == units[u]
  }

  ghost predicate Full(size: map<int, int>, units: map<int, Use>, a: int)
    requires a in units
  {
    a in size && forall u | a <= u < a + size[a] :: u in units && units[u] == units[a]
  }

  /** Every unit obtained from sbrk belongs to exactly one block, free or live, and
      every block consists of such units; `nodes` are the free blocks. */
  ghost predicate Partition(base: int, size: map<int, int>, nodes: set<int>, units: map<int, Use>) {
    && (forall u | u in units :: Placed(base, size, units, u))
    && (forall a | a in units && units[a].a == a :: Full(size, units, a))
    && (forall a | a in nodes :: a in units && units[a] == Free(a))
    && (forall a | a in units && units[a] == Free(a) :: a in nodes)
  }

  /** Two neighbouring blocks a and b become one block at a. */
  ghost function Merge(units: map<int, Use>, a: int, b: int): (r: map<int, Use>)
    requires a in units
  {
    map u | u in units :: if units[u].a == b then units[a] else units[u]
  }

  lemma MergePartition(base: int, size: map<int, int>, nodes: set<int>, units: map<int, Use>, a: int, b: int)
    requires Partition(base, size, nodes, units)
    requires a in units && units[a].a == a && b in units && units[b].a == b
    requires a in size && b in size && a + size[a] == b
    ensures Partition(base, size[a := size[a] + size[b]], nodes - {b}, Merge(units, a, b))
  {
    var units', size' := Merge(units, a, b), size[a := size[a] + size[b]];
    assert Full(size, units, a) && Full(size, units, b);
    assert Placed(base, size, units, a) && Placed(base, size, units, b);
    forall u | u in units'
      ensures Placed(base, size', units', u)
    {
      assert Placed(base, size, units, u);
    }
    forall x | x in units' && units'[x].a == x
      ensures Full(size', units', x)
    {
      assert Placed(base, size, units, x);
      assert Full(size, units, x);
    }
  }

  /** The whole block at a changes its use. */
  ghost function Reuse(units: map<int, Use>, a: int, use: Use): (r: map<int, Use>) {
    map u | u in units :: if units[u].a == a then use else units[u]
  }

  lemma ReusePartition(base: int, size: map<int, int>, nodes: set<int>, units: map<int, Use>, a: int, use: Use)
    requires Partition(base, size, nodes, units) && a in units && units[a].a == a == use.a
    ensures Partition(base, size, if use.Free? then nodes + {a} else nodes - {a}, Reuse(units, a, use))
  {
    var units' := Reuse(units, a, use);
    forall u | u in units'
      ensures Placed(base, size, units', u)
    {
      assert Placed(base, size, units, u);
      assert Placed(base, size, units, a);
    }
    forall x | x in units' && units'[x].a == x
      ensures Full(size, units', x)
    {
      assert Full(size, units, x);
    }
  }

  predicate Within(lo: int, u: int, n: int) {
    lo <= u < lo + n
  }

  /** The memory with a new live block of n units at a, which lies above all of it. */
  ghost function Extend(units: map<int, Use>, a: int, n: int): (r: map<int, Use>) {
    units + map u | a <= u < a + n && Within(a, u, n) :: Live(a)
  }

  lemma ExtendPartition(base: int, size: map<int, int>, nodes: set<int>, units: map<int, Use>, a: int, n: int)
    requires Partition(base, size, nodes, units) && base < a && n > 0 && forall u | u in units :: u < a
    ensures Partition(base, size[a := n], nodes, Extend(units, a, n))
  {
    var units', size' := Extend(units, a, n), size[a := n];
    forall u | u in units'
      ensures Placed(base, size', units', u)
    {
      if u in units { assert Placed(base, size, units, u); }
    }
    forall x | x in units' && units'[x].a == x
      ensures Full(size', units', x)
    {
      if x in units {
        assert Placed(base, size, units, x);
        assert Full(size, units, x);
      }
    }
  }

  /** The upper part of the free block at p, from address a, becomes a live block. */
  ghost function Split(units: map<int, Use>, p: int, a: int): (r: map<int, Use>) {
    map u | u in units :: if units[u] == Free(p) && u >= a then Live(a) else units[u]
  }

  lemma PartitionAt(base: int, size: map<int, int>, nodes: set<int>, units: map<int, Use>, u: int)
    requires Partition(base, size, nodes, units) && u in units
    ensures Placed(base, size, units, u)
    ensures units[u].a == u ==> Full(size, units, u)
    ensures u in nodes <==> units[u] == Free(u)
  {
  }

  lemma NodeIsFree(base: int, size: map<int, int>, nodes: set<int>, units: map<int, Use>, a: int)
    requires Partition(base, size, nodes, units) && a in nodes
    ensures a in units && units[a] == Free(a) && a in size && size[a] > 0
  {
    assert Placed(base, size, units, a);
  }

  lemma SplitUnit(base: int, size: map<int, int>, nodes: set<int>, units: map<int, Use>, p: int, n: int, u: int)
    requires Partition(base, size, nodes, units) && p in units && units[p] == Free(p) && p in size && 0 < n < size[p] &&
             u in units
    ensures
      var a := p + size[p] - n;
      var units', size' := Split(units, p, a), size[p := size[p] - n][a := n];
      && Placed(base, size', units', u)
      && (units'[u].a == u ==> Full(size', units', u))
      && (units'[u] == Free(u) <==> units[u] == Free(u))
  {
    hide Partition;
    var a := p + size[p] - n;
    PartitionAt(base, size, nodes, units, p);
    assert a in units && units[a] == Free(p);
    PartitionAt(base, size, nodes, units, a);
    PartitionAt(base, size, nodes, units, u);
    PartitionAt(base, size, nodes, units, units[u].a);
  }

  lemma SplitPartition(base: int, size: map<int, int>, nodes: set<int>, units: map<int, Use>, p: int, n: int)
    requires Partition(base, size, nodes, units) && p in nodes && p in size && 0 < n < size[p]
    ensures Partition(base, size[p := size[p] - n][p + size[p] - n := n], nodes, Split(units, p, p + size[p] - n))
  {
    hide Placed, Full;
    forall u | u in units
      ensures
        var a := p + size[p] - n;
        var units', size' := Split(units, p, a), size[p := size[p] - n][a := n];
        && Placed(base, size', units', u)
        && (units'[u].a == u ==> Full(size', units', u))
        && (units'[u] == Free(u) <==> units[u] == Free(u))
    {
      SplitUnit(base, size, nodes, units, p, n, u);
    }
  }

  // ---------- list and partition together ----------

  ghost function Nodes(free: seq<int>): (r: set<int>) {
    set i | 1 <= i < |free| :: free[i]
  }

  lemma NodesInsert(free: seq<int>, q: nat, x: int)
    requires 0 < q <= |free|
    ensures Nodes(Insert(free, q, x)) == Nodes(free) + {x}
  {
    var r := Insert(free, q, x);
    forall y | y in Nodes(r)
      ensures y in Nodes(free) + {x}
    {
      var i :| 1 <= i < |r| && r[i] == y;
      if i != q { assert free[if i < q then i else i - 1] == y; }
    }
    forall y | y in Nodes(free) + {x}
      ensures y in Nodes(r)
    {
      if y == x {
        assert r[q] == x;
      } else {
        var i :| 1 <= i < |free| && free[i] == y;
        assert r[if i < q then i else i + 1] == y;
      }
    }
  }

  lemma NodesRemove(free: seq<int>, q: nat)
    requires 0 < q < |free| && forall i | 0 <= i < |free| && i != q :: free[i] != free[q]
    ensures Nodes(Remove(free, q)) == Nodes(free) - {free[q]}
  {
    var r := Remove(free, q);
    forall y | y in Nodes(r)
      ensures y in Nodes(free) - {free[q]}
    {
      var i :| 1 <= i < |r| && r[i] == y;
      assert free[if i < q then i else i + 1] == y;
    }
    forall y | y in Nodes(free) - {free[q]}
      ensures y in Nodes(r)
    {
      var i :| 1 <= i < |free| && free[i] == y;
      assert r[if i < q then i else i - 1] == y;
    }
  }

  ghost predicate Heaped(base: int, ptr: map<int, int>, size: map<int, int>, free: seq<int>, units: map<int, Use>) {
    List(base, ptr, size, free) && Partition(base, size, Nodes(free), units)
  }

  lemma FindPredecessor(free: seq<int>, bp: int) returns (q: nat)
    requires |free| >= 1 && free[0] < bp && bp !in free
    requires forall i, j | 0 <= i < j < |free| :: free[i] < free[j]
    ensures Precedes(free, q, bp)
  {
    q := 0;
    while q + 1 < |free| && free[q + 1] < bp
      invariant q < |free| && free[q] < bp
    {
      q := q + 1;
    }
  }

  /** A live block lies between the free blocks around it. */
  lemma LiveBetweenFree(base: int, ptr: map<int, int>, size: map<int, int>, free: seq<int>, units: map<int, Use>,
                        bp: int, q: nat)
    requires Heaped(base, ptr, size, free, units)
    requires bp in units && units[bp] == Live(bp) && Precedes(free, q, bp)
    ensures base < bp && bp in size && size[bp] > 0 && bp !in Nodes(free)
    ensures free[q] in size && free[q] + size[free[q]] <= bp
    ensures free[q] in ptr && ptr[free[q]] == if q + 1 < |free| then free[q + 1] else base
    ensures if q == 0 then free[q] == base && size[base] == 0
      else base < free[q] && free[q] in units && units[free[q]] == Free(free[q])
    ensures q + 1 < |free| ==> free[q + 1] in size && free[q + 1] in ptr && bp + size[bp] <= free[q + 1]
    ensures q + 1 < |free| ==> free[q + 1] in units && units[free[q + 1]] == Free(free[q + 1])
  {
    assert Placed(base, size, units, bp);
    assert Link(ptr, free, q) && Link(ptr, free, Succ(q, |free|));
    if q > 0 {
      assert free[q] in Nodes(free);
      assert Full(size, units, free[q]);
    }
    if q + 1 < |free| {
      assert free[q + 1] in Nodes(free);
      assert Full(size, units, bp);
    }
  }

  /** The free block that starts where bp ends becomes part of bp. */
  lemma AbsorbUpper(base: int, ptr: map<int, int>, size: map<int, int>, free: seq<int>, units: map<int, Use>, bp: int,
                    q: nat)
    requires Heaped(base, ptr, size, free, units) && Precedes(free, q, bp) && q + 1 < |free|
    requires bp in units && units[bp] == Live(bp) && bp in size && bp + size[bp] == free[q + 1]
    ensures Link(ptr, free, q) && Link(ptr, free, q + 1)
    ensures Heaped(base, ptr[bp := ptr[free[q + 1]]][free[q] := ptr[free[q + 1]]],
                   size[bp := size[bp] + size[free[q + 1]]],
                   Remove(free, q + 1), Merge(units, bp, free[q + 1]))
    ensures Precedes(Remove(free, q + 1), q, bp) && Remove(free, q + 1)[q] == free[q]
    ensures Merge(units, bp, free[q + 1])[bp] == Live(bp)
    ensures forall u | u in units :: Merge(units, bp, free[q + 1])[u] ==
              if units[u] == Free(free[q + 1]) then Live(bp) else units[u]
    ensures q + 1 < |Remove(free, q + 1)| ==> bp + size[bp] + size[free[q + 1]] < Remove(free, q + 1)[q + 1]
  {
    hide Partition, Chain;
    var up, r := free[q + 1], Remove(free, q + 1);
    LiveBetweenFree(base, ptr, size, free, units, bp, q);
    ListRemove(base, ptr, size, free, q);
    NodesRemove(free, q + 1);
    MergePartition(base, size, Nodes(free), units, bp, up);
    FreeUnits(base, size, free, units, q + 1);
    assert bp !in free;
    ListAgrees(base, ptr[free[q] := ptr[up]], size, ptr[bp := ptr[up]][free[q] := ptr[up]],
               size[bp := size[bp] + size[up]], r);
  }

  lemma FreeUnits(base: int, size: map<int, int>, free: seq<int>, units: map<int, Use>, k: nat)
    requires Partition(base, size, Nodes(free), units) && 0 < k < |free| && free[k] in units &&
             units[free[k]] == Free(free[k])
    ensures forall u | u in units && units[u].a == free[k] :: units[u] == Free(free[k])
  {
    forall u | u in units && units[u].a == free[k]
      ensures units[u] == Free(free[k])
    {
      assert Placed(base, size, units, u);
    }
  }

  /** The header of a live block is not part of the list. */
  lemma Detached(base: int, ptr: map<int, int>, size: map<int, int>, free: seq<int>, units: map<int, Use>, bp: int,
                 x: int)
    requires Heaped(base, ptr, size, free, units) && bp in units && units[bp] == Live(bp)
    ensures Heaped(base, ptr[bp := x], size, free, units)
  {
    FreeNotLive(base, ptr, size, free, units, bp);
    ListAgrees(base, ptr, size, ptr[bp := x], size, free);
  }

  /** The block at bp becomes part of the free block that ends where it starts. */
  lemma AbsorbedByLower(base: int, ptr: map<int, int>, size: map<int, int>, free: seq<int>, units: map<int, Use>,
                        bp: int, q: nat)
    requires Heaped(base, ptr, size, free, units) && Precedes(free, q, bp)
    requires bp in units && units[bp] == Live(bp) && bp in size && free[q] + size[free[q]] == bp
    requires q + 1 < |free| ==> bp + size[bp] < free[q + 1]
    requires base < free[q]
    ensures Heaped(base, ptr, size[free[q] := size[free[q]] + size[bp]], free, Merge(units, free[q], bp))
  {
    LiveBetweenFree(base, ptr, size, free, units, bp, q);
    ListResize(base, ptr, size, free, q, size[free[q]] + size[bp]);
    MergePartition(base, size, Nodes(free), units, free[q], bp);
    assert Nodes(free) - {bp} == Nodes(free);
  }

  /** The block at bp touches no free block and becomes one itself. */
  lemma Inserted(base: int, ptr: map<int, int>, size: map<int, int>, free: seq<int>, units: map<int, Use>, bp: int,
                 q: nat)
    requires Heaped(base, ptr, size, free, units) && Precedes(free, q, bp)
    requires bp in units && units[bp] == Live(bp) && bp in size && free[q] + size[free[q]] < bp
    requires q + 1 < |free| ==> bp + size[bp] < free[q + 1]
    ensures Link(ptr, free, q)
    ensures Heaped(base, ptr[bp := ptr[free[q]]][free[q] := bp], size, Insert(free, q + 1, bp),
                   Reuse(units, bp, Free(bp)))
    ensures Insert(free, q + 1, bp)[q] == free[q]
  {
    LiveBetweenFree(base, ptr, size, free, units, bp, q);
    ListInsert(base, ptr, size, free, q, bp);
    NodesInsert(free, q + 1, bp);
    ReusePartition(base, size, Nodes(free), units, bp, Free(bp));
  }

  lemma Extended(base: int, ptr: map<int, int>, size: map<int, int>, free: seq<int>, units: map<int, Use>, a: int,
                 n: int)
    requires Heaped(base, ptr, size, free, units) && base < a && n > 0 && forall u | u in units :: u < a
    ensures Heaped(base, ptr, size[a := n], free, Extend(units, a, n))
  {
    ExtendPartition(base, size, Nodes(free), units, a, n);
    forall i | 0 <= i < |free|
      ensures free[i] != a
    {
      if i > 0 { assert free[i] in Nodes(free); }
    }
    ListAgrees(base, ptr, size, ptr, size[a := n], free);
  }

  /** malloc takes the whole free block after free[j]. */
  lemma TakenWhole(base: int, ptr: map<int, int>, size: map<int, int>, free: seq<int>, units: map<int, Use>, j: nat)
    requires Heaped(base, ptr, size, free, units) && j + 1 < |free|
    ensures free[j + 1] in units && units[free[j + 1]] == Free(free[j + 1])
    ensures free[j + 1] in ptr && free[j + 1] in size
    ensures Heaped(base, ptr[free[j] := ptr[free[j + 1]]], size, Remove(free, j + 1),
                   Reuse(units, free[j + 1], Live(free[j + 1])))
    ensures Remove(free, j + 1)[j] == free[j]
    ensures forall u | u in units :: units[u].a == free[j + 1] <==> Within(free[j + 1], u, size[free[j + 1]])
    ensures forall u | Within(free[j + 1], u, size[free[j + 1]]) :: u in units && units[u].Free?
  {
    var p := free[j + 1];
    assert p in Nodes(free);
    ListRemove(base, ptr, size, free, j);
    NodesRemove(free, j + 1);
    ReusePartition(base, size, Nodes(free), units, p, Live(p));
    BlockExtent(base, size, Nodes(free), units, p);
  }

  lemma BlockExtent(base: int, size: map<int, int>, nodes: set<int>, units: map<int, Use>, a: int)
    requires Partition(base, size, nodes, units) && a in units && units[a].a == a
    ensures a in size
    ensures forall u | u in units :: units[u].a == a <==> Within(a, u, size[a])
    ensures forall u | u in units && units[u].a == a :: units[u] == units[a]
    ensures forall u | Within(a, u, size[a]) :: u in units
  {
    assert Full(size, units, a);
    assert forall u | u in units :: Placed(base, size, units, u);
  }

  lemma TailExtent(base: int, size: map<int, int>, nodes: set<int>, units: map<int, Use>, p: int, n: int)
    requires Partition(base, size, nodes, units) && p in units && units[p] == Free(p) && p in size && 0 < n < size[p]
    ensures forall u | u in units :: units[u] == Free(p) && u >= p + size[p] - n <==> Within(p + size[p] - n, u, n)
    ensures forall u | Within(p + size[p] - n, u, n) :: u in units && u !in nodes && base < u
  {
    var a := p + size[p] - n;
    BlockExtent(base, size, nodes, units, p);
    assert Placed(base, size, units, p);
    forall u | Within(a, u, n)
      ensures u in units && units[u] == Free(p)
    {
      assert Within(p, u, size[p]);
    }
  }

  lemma ListShrink(base: int, ptr: map<int, int>, size: map<int, int>, free: seq<int>, k: nat, n: int)
    requires List(base, ptr, size, free) && 0 < k < |free| && 0 < n < size[free[k]]
    requires free[k] + size[free[k]] - n !in Nodes(free) && base != free[k] + size[free[k]] - n
    ensures List(base, ptr, size[free[k] := size[free[k]] - n][free[k] + size[free[k]] - n := n], free)
  {
    var p := free[k];
    var a := p + size[p] - n;
    forall i | 0 <= i < |free|
      ensures free[i] != a
    {
      if i > 0 { assert free[i] in Nodes(free); }
    }
    ListResize(base, ptr, size, free, k, size[p] - n);
    ListAgrees(base, ptr, size[p := size[p] - n], ptr, size[p := size[p] - n][a := n], free);
  }

  /** malloc takes the last n units of the free block at free[k]. */
  lemma TakenTail(base: int, ptr: map<int, int>, size: map<int, int>, free: seq<int>, units: map<int, Use>, k: nat,
                  n: int, p: int, a: int)
    requires Heaped(base, ptr, size, free, units) && 0 < k < |free| && p == free[k]
    requires p in size && 0 < n < size[p] && a == p + size[p] - n
    ensures p in units && units[p] == Free(p)
    ensures Heaped(base, ptr, size[p := size[p] - n][a := n], free, Split(units, p, a))
    ensures forall u | u in units :: units[u] == Free(p) && u >= a <==> Within(a, u, n)
    ensures forall u | Within(a, u, n) :: u in units
  {
    hide List, Partition;
    assert p in Nodes(free);
    NodeIsFree(base, size, Nodes(free), units, p);
    TailExtent(base, size, Nodes(free), units, p, n);
    SplitPartition(base, size, Nodes(free), units, p, n);
    assert Within(a, a, n);
    ListShrink(base, ptr, size, free, k, n);
  }

  /** What freeing the block at bp does to a unit: its own units become free, every
      other unit stays free or stays with its live block. */
  predicate Released(before: Use, bp: int, after: Use) {
    if before == Live(bp) || before.Free? then after.Free? else after == before
  }

  /** The blocks from the s-th up to the e-th one, around the ring, have no room for n
      units. */
  ghost predicate TooSmall(size: map<int, int>, free: seq<int>, n: nat, s: nat, e: nat) {
    forall i | 0 <= i < |free| && Dist(s, i, |free|) < Dist(s, e, |free|) :: free[i] in size && size[free[i]] < n
  }

  lemma NoneSeen(size: map<int, int>, free: seq<int>, n: nat, s: nat)
    requires s < |free|
    ensures TooSmall(size, free, n, s, s)
  {
  }

  lemma OneSeen(size: map<int, int>, free: seq<int>, n: nat, s: nat, e: nat, f: nat)
    requires TooSmall(size, free, n, s, e) && s < |free| && e < |free| && f < |free| && s == Succ(f, |free|) && e != f
    requires free[e] in size && size[free[e]] < n
    ensures TooSmall(size, free, n, s, Succ(e, |free|)) && Dist(Succ(e, |free|), f, |free|) < Dist(e, f, |free|) &&
            Dist(e, f, |free|) > 0
  {
  }

  lemma AllSeen(size: map<int, int>, free: seq<int>, n: nat, s: nat, f: nat)
    requires TooSmall(size, free, n, s, f) && f < |free| && s == Succ(f, |free|) && free[f] in size && size[free[f]] < n
    ensures forall i | 0 <= i < |free| :: free[i] in size && size[free[i]] < n
  {
    forall i | 0 <= i < |free| && i != f
      ensures free[i] in size && size[free[i]] < n
    {
      assert Dist(s, i, |free|) < Dist(s, f, |free|);
    }
  }

  class Heap {
    const base: int
    var freep: int                // 0 before the first call of malloc
    var ptr: map<int, int>
    var size: map<int, int>
    var brk: int                  // the end of memory, where sbrk adds to it
    ghost var free: seq<int>      // the free list, from base
    ghost var units: map<int, Use>

    ghost predicate Valid()
      reads this
    {
      && 0 < base < brk
      && (forall u | u in units :: u < brk)
      && (if freep == 0 then units == map[] else freep in free && Heaped(base, ptr, size, free, units))
    }

    constructor (base: int, brk: int)
      requires 0 < base < brk
      ensures Valid() && freep == 0 && units == map[] && this.base == base && this.brk == brk
    {
      this.base, this.brk := base, brk;
      freep, ptr, size, free, units := 0, map[], map[], [], map[];
    }

    /** The search loop of free: the free block after which the block at bp belongs. */
    method Locate(bp: int) returns (p: int, ghost q: nat)
      requires Heaped(base, ptr, size, free, units) && freep in free
      requires base < bp && bp !in free
      ensures Precedes(free, q, bp) && p == free[q] && p >= base
    {
      ghost var n := |free|;
      q := FindPredecessor(free, bp);
      ghost var i: nat :| i < n && free[i] == freep;
      p := freep;
      assert Link(ptr, free, i);
      while !(bp > p && bp < ptr[p])
        invariant 0 <= i < n && p == free[i] && Link(ptr, free, i)
        decreases Dist(i, q, n)
      {
        if p >= ptr[p] && (bp > p || bp < ptr[p]) {
          break;
        }
        p, i := ptr[p], Succ(i, n);
        assert Link(ptr, free, i);
      }
      assert i == q;
    }

    /** The first if of free: join the block at bp to the free block above it.  The list
        is left as if p already pointed past that block. */
    method JoinUpper(bp: int, p: int, ghost q: nat)
      requires Heaped(base, ptr, size, free, units) && bp in units && units[bp] == Live(bp)
      requires Precedes(free, q, bp) && p == free[q]
      modifies this`ptr, this`size, this`free, this`units
      ensures bp in ptr && Heaped(base, ptr[p := ptr[bp]], size, free, units) && bp in units && units[bp] == Live(bp)
      ensures Precedes(free, q, bp) && p == free[q] && bp in size
      ensures q + 1 < |free| ==> bp + size[bp] < free[q + 1]
      ensures units.Keys == old(units).Keys
      ensures forall u | u in units :: units[u] == old(units)[u] || (old(units)[u].Free? && units[u] == Live(bp))
      ensures forall a | a in old(size) && a != bp :: a in size && size[a] == old(size)[a]
    {
      hide Heaped, List, Partition;
      LiveBetweenFree(base, ptr, size, free, units, bp, q);
      if bp + size[bp] == ptr[p] {
        AbsorbUpper(base, ptr, size, free, units, bp, q);
        units, free := Merge(units, bp, ptr[p]), Remove(free, q + 1);
        size := size[bp := size[bp] + size[ptr[p]]];
        ptr := ptr[bp := ptr[ptr[p]]];
      } else {
        ptr := ptr[bp := ptr[p]];
        Detached(base, old(ptr), size, free, units, bp, ptr[bp]);
        assert ptr[p := ptr[bp]] == ptr;
      }
    }

    /** The second if of free: join the block to the free block below it, or link it in. */
    method JoinLower(bp: int, p: int, ghost q: nat)
      requires bp in ptr && Heaped(base, ptr[p := ptr[bp]], size, free, units) && bp in units && units[bp] == Live(bp)
      requires Precedes(free, q, bp) && p == free[q] && bp in size
      requires q + 1 < |free| ==> bp + size[bp] < free[q + 1]
      modifies this`ptr, this`size, this`free, this`units
      ensures Heaped(base, ptr, size, free, units) && q < |free| && free[q] == p
      ensures units.Keys == old(units).Keys
      ensures forall u | u in units :: Released(old(units)[u], bp, units[u])
      ensures forall u | u in units && old(units)[u] == Live(bp) :: units[u] == units[bp]
      ensures forall a | a in old(size) && a != p :: a in size && size[a] == old(size)[a]
    {
      hide Heaped, List, Partition;
      ghost var ptr1 := ptr[p := ptr[bp]];
      LiveBetweenFree(base, ptr1, size, free, units, bp, q);
      if p + size[p] == bp {
        AbsorbedByLower(base, ptr1, size, free, units, bp, q);
        units := Merge(units, p, bp);
        size := size[p := size[p] + size[bp]];
        ptr := ptr[p := ptr[bp]];
      } else {
        Inserted(base, ptr1, size, free, units, bp, q);
        units, free := Reuse(units, bp, Free(bp)), Insert(free, q + 1, bp);
        assert ptr1[bp := ptr1[p]][p := bp] == ptr[p := bp];
        ptr := ptr[p := bp];
      }
    }

    /** free: the block is joined to the free blocks that touch it. */
    method FreeBlock(bp: int)
      requires Valid() && bp in units && units[bp] == Live(bp)
      modifies this`freep, this`ptr, this`size, this`free, this`units
      ensures Valid() && freep != 0
      ensures units.Keys == old(units).Keys
      ensures forall u | u in units :: Released(old(units)[u], bp, units[u])
      ensures forall u | u in units && old(units)[u] == Live(bp) :: units[u] == units[bp]
      ensures forall a | a in units && units[a] == Live(a) :: a in size && a in old(size) && size[a] == old(size)[a]
    {
      hide Heaped, List, Partition;
      FreeNotLive(base, ptr, size, free, units, bp);
      var p, q := Locate(bp);
      HeapedBlocks(base, ptr, size, free, units);
      LiveBetweenFree(base, ptr, size, free, units, bp, q);
      JoinUpper(bp, p, q);
      JoinLower(bp, p, q);
      freep := p;
    }

    /** morecore: obtain at least 4096 units from sbrk and free them.  `granted` says
        whether sbrk succeeds, `gap` how far the program has moved the break itself. */
    method Morecore(nunits: nat, granted: bool, gap: nat) returns (p: int)
      requires Valid() && freep != 0 && nunits > 0
      modifies this`freep, this`ptr, this`size, this`brk, this`free, this`units
      ensures Valid() && freep != 0
      ensures !granted ==> p == 0 && freep == old(freep) && ptr == old(ptr) && size == old(size)
                           && free == old(free) && units == old(units) && brk == old(brk)
      ensures granted ==> p == freep && brk == old(brk) + gap + Max(nunits, 4096)
      ensures granted ==> units.Keys == Extend(old(units), old(brk) + gap, Max(nunits, 4096)).Keys
      ensures granted ==> Fits(units, size, nunits)
      ensures granted ==> LiveKept(old(units), old(size), units, size)
    {
      hide Heaped, List, Partition;
      var nu := if nunits < 4096 then 4096 else nunits;
      if !granted {
        return 0;
      }
      hide LiveKept;
      var hp := Sbrk(nu, gap);
      assert Within(hp, hp, nu) && Within(hp, hp + nu - 1, nu);
      FreeBlock(hp);
      BlockHolds(base, ptr, size, free, units, hp, hp + nu - 1);
      ExtendKeeps(old(units), old(size), hp, nu, units, size);
      return freep;
    }

    /** sbrk succeeds: the new memory starts out as one live block. */
    method Sbrk(nu: nat, gap: nat) returns (hp: int)
      requires Valid() && freep != 0 && nu > 0
      modifies this`size, this`brk, this`units
      ensures Valid() && hp == old(brk) + gap && brk == hp + nu
      ensures units == Extend(old(units), hp, nu) && size == old(size)[hp := nu]
      ensures forall u | u in old(units) :: old(units)[u].a <= u < hp
      ensures forall a | a in old(units) && old(units)[a].a == a :: a in old(size)
    {
      hide Heaped, List, Partition;
      hp := brk + gap;
      HeapedBlocks(base, ptr, size, free, units);
      Extended(base, ptr, size, free, units, hp, nu);
      brk := hp + nu;
      size := size[hp := nu];
      units := Extend(units, hp, nu);
    }

    /** The part of malloc that takes the block: p is the free block after prevp. */
    method Take(prevp: int, p: int, ghost j: nat, nunits: nat) returns (a: int)
      requires Heaped(base, ptr, size, free, units) && j + 1 < |free| && prevp == free[j] && p == free[j + 1]
      requires p in size && size[p] >= nunits > 0
      modifies this`freep, this`ptr, this`size, this`free, this`units
      ensures Heaped(base, ptr, size, free, units) && freep == prevp && freep in free
      ensures base < a && units.Keys == old(units).Keys && a in units && units[a] == Live(a) && a in size &&
              size[a] == nunits
      ensures p in old(size) && a + nunits == p + old(size)[p]
      ensures forall u | Within(a, u, nunits) :: u in units && old(units)[u].Free? && units[u] == Live(a)
      ensures forall u | u in units && !Within(a, u, nunits) :: units[u] == old(units)[u]
      ensures forall b | b in old(units) && old(units)[b] == Live(b) ::
              b in size && b in old(size) && size[b] == old(size)[b]
    {
      hide Heaped, List, Partition;
      HeapedBlocks(base, ptr, size, free, units);
      TakenWhole(base, ptr, size, free, units, j);
      if size[p] == nunits {
        a := p;
        ptr := ptr[prevp := ptr[p]];
        units, free := Reuse(units, p, Live(p)), Remove(free, j + 1);
        assert Within(a, a, nunits);
      } else {
        TakenTail(base, ptr, size, free, units, j + 1, nunits, p, p + size[p] - nunits);
        size := size[p := size[p] - nunits];
        a := p + size[p];
        size := size[a := nunits];
        units := Split(units, p, a);
        assert Within(a, a, nunits);
      }
      freep := prevp;
    }

    /** The first fit, from the block after freep: the position j of its predecessor, or
        that no block fits. */
    method FirstFit(nunits: nat) returns (prevp: int, p: int, ghost j: nat)
      requires base > 0 && Heaped(base, ptr, size, free, units) && freep in free && nunits > 0
      ensures p != 0 ==>
              j + 1 < |free| && base <= prevp == free[j] && p == free[j + 1] && p in size && size[p] >= nunits
      ensures p != 0 ==> exists f: nat :: f < |free| && free[f] == freep &&
                                          TooSmall(size, free, nunits, Succ(f, |free|), j + 1)
      ensures p == 0 ==> forall i | 0 <= i < |free| :: free[i] in size && size[free[i]] < nunits
    {
      hide Partition, Dist, TooSmall;
      ghost var n := |free|;
      ghost var f: nat :| f < n && free[f] == freep;
      ghost var s := Succ(f, n);
      assert Link(ptr, free, f);
      j := f;
      prevp := freep;
      p := ptr[prevp];
      NoneSeen(size, free, nunits, s);
      while true
        invariant 0 <= j < n && prevp == free[j] && p == free[Succ(j, n)]
        invariant TooSmall(size, free, nunits, s, Succ(j, n))
        decreases Dist(Succ(j, n), f, n)
      {
        if size[p] >= nunits {
          return;
        }
        if p == freep {
          assert Succ(j, n) == f;
          AllSeen(size, free, nunits, s, f);
          p := 0;
          return;
        }
        OneSeen(size, free, nunits, s, Succ(j, n), f);
        j := Succ(j, n);
        assert Link(ptr, free, j);
        prevp := p;
        p := ptr[p];
      }
    }

    /** malloc returns the address after the header of a new live block, or 0 only if no
        free block fits and sbrk fails.  After morecore the search starts again at the
        new freep, as the loop of malloc does. */
    method Malloc(nbytes: nat, granted: bool, gap: nat) returns (r: int)
      requires Valid() && Requestable(nbytes)
      modifies this`freep, this`ptr, this`size, this`brk, this`free, this`units
      ensures Valid() && freep != 0
      ensures r == 0 <==> !granted && !Fits(old(units), old(size), Units(nbytes))
      ensures r == 0 || Fits(old(units), old(size), Units(nbytes)) ==> units.Keys == old(units).Keys && brk == old(brk)
      ensures r != 0 && !Fits(old(units), old(size), Units(nbytes)) ==>
                && brk == old(brk) + gap + Max(Units(nbytes), 4096)
                && units.Keys == Extend(old(units), old(brk) + gap, Max(Units(nbytes), 4096)).Keys
      ensures r != 0 ==> r - 1 in units && units[r - 1] == Live(r - 1) && r - 1 in size && size[r - 1] == Units(nbytes)
      ensures r != 0 ==> forall u | Within(r - 1, u, Units(nbytes)) ::
                u in units && units[u] == Live(r - 1) && (u in old(units) ==> old(units)[u].Free?)
      ensures forall u | u in old(units) && old(units)[u].Live? :: u in units && units[u] == old(units)[u]
      ensures forall u | u in units && (r == 0 || !Within(r - 1, u, Units(nbytes))) && units[u].Live? :: u in old(units)
      ensures forall a | a in old(units) && old(units)[a] == Live(a) ::
              a in size && a in old(size) && size[a] == old(size)[a]
    {
      hide Heaped, List, Partition, Fits, Units, Extend;
      UnitsPositive(nbytes);
      var nunits := Units(nbytes);
      Start();
      var prevp, p, j := Find(nunits, granted, gap);
      if p == 0 {
        return 0;
      }
      var a := Take(prevp, p, j, nunits);
      r := a + 1;
      assert r - 1 == a;
    }

    /** The first call of malloc makes the list of one empty block. */
    method Start()
      requires Valid()
      modifies this`freep, this`ptr, this`size, this`free
      ensures Valid() && freep != 0
      ensures forall a | a in units && units[a].a == a :: a in size && a in old(size) && size[a] == old(size)[a]
      ensures forall n :: Fits(units, size, n) == Fits(units, old(size), n)
    {
      hide List, Partition;
      if freep == 0 {
        freep := base;
        ptr := ptr[base := base];
        size := size[base := 0];
        free := [base];
        EmptyHeap(base, ptr, size);
      } else {
        HeapedBlocks(base, ptr, size, free, units);
      }
    }

    /** The search loop of malloc: first fit, and if there is none, first fit again in the
        memory that morecore adds. */
    method Find(nunits: nat, granted: bool, gap: nat) returns (prevp: int, p: int, ghost j: nat)
      requires Valid() && freep != 0 && nunits > 0
      modifies this`freep, this`ptr, this`size, this`brk, this`free, this`units
      ensures Valid() && freep != 0
      ensures p != 0 ==>
              j + 1 < |free| && base <= prevp == free[j] && p == free[j + 1] && p in size && size[p] >= nunits
      ensures p == 0 <==> !granted && !Fits(old(units), old(size), nunits)
      ensures p == 0 || Fits(old(units), old(size), nunits) ==>
              units == old(units) && size == old(size) && brk == old(brk)
      ensures p != 0 && !Fits(old(units), old(size), nunits) ==>
                && brk == old(brk) + gap + Max(nunits, 4096)
                && units.Keys == Extend(old(units), old(brk) + gap, Max(nunits, 4096)).Keys
      ensures LiveKept(old(units), old(size), units, size)
    {
      hide Heaped, List, Partition, LiveKept, Fits;
      NothingLost(base, ptr, size, free, units);
      prevp, p, j := FirstFit(nunits);
      if p == 0 {
        NothingFits(base, ptr, size, free, units, nunits);
        var more := Morecore(nunits, granted, gap);
        if more != 0 {
          prevp, p, j := FirstFit(nunits);
          if p == 0 {
            NothingFits(base, ptr, size, free, units, nunits);
            assert false;
          }
        }
      } else {
        NodeFits(base, ptr, size, free, units, j + 1);
      }
    }
  }

  lemma NothingLost(base: int, ptr: map<int, int>, size: map<int, int>, free: seq<int>, units: map<int, Use>)
    requires Heaped(base, ptr, size, free, units)
    ensures LiveKept(units, size, units, size)
  {
    HeapedBlocks(base, ptr, size, free, units);
    hide Heaped;
  }

  /** Some free block has room for n units. */
  ghost predicate Fits(units: map<int, Use>, size: map<int, int>, n: int) {
    exists a :: a in units && units[a] == Free(a) && a in size && size[a] >= n
  }

  /** Live blocks keep their units and sizes, free memory stays free, and memory that is
      new is free. */
  ghost predicate LiveKept(units: map<int, Use>, size: map<int, int>, units': map<int, Use>, size': map<int, int>) {
    && (forall u | u in units :: u in units' && if units[u].Free? then units'[u].Free? else units'[u] == units[u])
    && (forall u | u in units' && u !in units :: units'[u].Free?)
    && (forall a | a in units && units[a] == Live(a) :: a in size && a in size' && size'[a] == size[a])
  }

  lemma ExtendKeeps(units: map<int, Use>, size: map<int, int>, hp: int, n: nat, units': map<int, Use>,
                    size': map<int, int>)
    requires forall u | u in units :: units[u].a <= u < hp
    requires forall a | a in units && units[a].a == a :: a in size
    requires units'.Keys == Extend(units, hp, n).Keys
    requires forall u | u in units' :: Released(Extend(units, hp, n)[u], hp, units'[u])
    requires forall a | a in units' && units'[a] == Live(a) ::
             a in size' && a in size[hp := n] && size'[a] == size[hp := n][a]
    ensures LiveKept(units, size, units', size')
  {
  }

  /** Arithmetic on uint wraps around here. */
  const WORD: nat := 0x1_0000_0000

  /** The number of units that malloc looks for: whole headers, plus one for its own. */
  function Units(nbytes: nat): (r: nat) {
    (nbytes + 7) % WORD / 8 + 1
  }

  /** The byte count for sbrk, which takes an int, is not negative. */
  predicate Requestable(nbytes: nat) {
    nbytes < WORD && 8 * Units(nbytes) < 0x8000_0000
  }

  lemma UnitsPositive(nbytes: nat)
    ensures Units(nbytes) > 0
  {
  }

  /** A block of that many units has room for the bytes asked for exactly when the
      rounding does not wrap around, which it does for the seven largest sizes. */
  lemma UnitsHoldRequest(nbytes: nat)
    requires nbytes < WORD
    ensures 8 * (Units(nbytes) - 1) >= nbytes <==> nbytes + 7 < WORD
    ensures nbytes + 7 < WORD ==> 8 * (Units(nbytes) - 1) < nbytes + 8
    ensures nbytes + 7 >= WORD ==> Units(nbytes) == 1
  {
    if nbytes + 7 >= WORD {
      assert (nbytes + 7) % WORD == nbytes + 7 - WORD;
    }
  }

  lemma EmptyHeap(base: int, ptr: map<int, int>, size: map<int, int>)
    requires base in ptr && ptr[base] == base && base in size && size[base] == 0
    ensures Heaped(base, ptr, size, [base], map[])
  {
  }

  lemma NothingFits(base: int, ptr: map<int, int>, size: map<int, int>, free: seq<int>, units: map<int, Use>, n: nat)
    requires Heaped(base, ptr, size, free, units)
    requires forall i | 0 <= i < |free| :: free[i] in size && size[free[i]] < n
    ensures !Fits(units, size, n)
  {
    forall a | a in units && units[a] == Free(a)
      ensures a in size && size[a] < n
    {
      assert a in Nodes(free);
    }
  }

  lemma NodeFits(base: int, ptr: map<int, int>, size: map<int, int>, free: seq<int>, units: map<int, Use>, k: nat)
    requires Heaped(base, ptr, size, free, units) && 0 < k < |free|
    ensures free[k] in size && Fits(units, size, size[free[k]])
    ensures forall n | n <= size[free[k]] :: Fits(units, size, n)
  {
    assert free[k] in Nodes(free);
  }

  // ---------- conservation ----------

  ghost function Blocks(units: map<int, Use>): (r: set<int>) {
    set a | a in units && units[a].a == a
  }

  ghost function Total(size: map<int, int>, blocks: set<int>): (r: int)
    requires forall a | a in blocks :: a in size
  {
    if !exists a :: a in blocks then 0 else
      var a :| a in blocks;
      size[a] + Total(size, blocks - {a})
  }

  lemma {:induction false} TotalSplit(size: map<int, int>, blocks: set<int>, a: int)
    requires a in blocks && forall b | b in blocks :: b in size
    ensures Total(size, blocks) == size[a] + Total(size, blocks - {a})
    decreases blocks
  {
    var b :| b in blocks && Total(size, blocks) == size[b] + Total(size, blocks - {b});
    if b != a {
      TotalSplit(size, blocks - {b}, a);
      TotalSplit(size, blocks - {a}, b);
      assert blocks - {b} - {a} == blocks - {a} - {b};
    }
  }

  ghost function Interval(a: int, n: nat): (r: set<int>)
    ensures forall u :: u in r <==> Within(a, u, n)
    ensures |r| == n
  {
    if n == 0 then {} else Interval(a, n - 1) + {a + n - 1}
  }

  /** The units of memory are exactly shared out among the blocks: nothing is lost and
      nothing is counted twice. */
  lemma {:induction false} BlocksCoverUnits(base: int, size: map<int, int>, nodes: set<int>, units: map<int, Use>)
    requires Partition(base, size, nodes, units)
    ensures forall a | a in Blocks(units) :: a in size
    ensures Total(size, Blocks(units)) == |units|
    decreases |units|
  {
    assert forall u | u in units :: Placed(base, size, units, u);
    if u :| u in units {
      var a := units[u].a;
      assert Placed(base, size, units, u);
      BlockExtent(base, size, nodes, units, a);
      var rest := map v | v in units && units[v].a != a :: units[v];
      KeysWithoutBlock(units, rest, a, size[a]);
      WithoutBlock(base, size, nodes, units, a, rest);
      assert Blocks(rest) == Blocks(units) - {a};
      BlocksCoverUnits(base, size, nodes - {a}, rest);
      TotalSplit(size, Blocks(units), a);
    } else {
      assert Blocks(units) == {} && units.Keys == {};
    }
  }

  lemma KeysWithoutBlock(units: map<int, Use>, rest: map<int, Use>, a: int, n: nat)
    requires rest == map v | v in units && units[v].a != a :: units[v]
    requires forall u | u in units :: units[u].a == a <==> Within(a, u, n)
    requires forall u | Within(a, u, n) :: u in units
    ensures |units| == |rest| + n
  {
    hide Interval, Within;
    var block := Interval(a, n);
    forall u
      ensures u in units.Keys - block <==> u in rest.Keys
      ensures u in block ==> u in units.Keys
    {
      assert u in block <==> Within(a, u, n);
    }
    assert units.Keys - block == rest.Keys;
    SubsetSize(units.Keys, block);
  }

  lemma SubsetSize(s: set<int>, t: set<int>)
    requires t <= s
    ensures |s - t| == |s| - |t|
  {
  }

  lemma WithoutBlock(base: int, size: map<int, int>, nodes: set<int>, units: map<int, Use>, a: int, rest: map<int, Use>)
    requires Partition(base, size, nodes, units) && a in units && units[a].a == a
    requires rest == map v | v in units && units[v].a != a :: units[v]
    ensures Partition(base, size, nodes - {a}, rest)
  {
    forall u | u in rest
      ensures Placed(base, size, rest, u)
    {
      assert Placed(base, size, units, u);
    }
    forall x | x in rest && rest[x].a == x
      ensures Full(size, rest, x)
    {
      assert Full(size, units, x);
    }
  }

  function Max(a: int, b: int): int {
    if a < b then b else a
  }

  /** A block that holds units u and v is at least as long as the distance between them. */
  lemma BlockHolds(base: int, ptr: map<int, int>, size: map<int, int>, free: seq<int>, units: map<int, Use>, u: int,
                   v: int)
    requires Heaped(base, ptr, size, free, units) && u in units && v in units && units[u] == units[v] && units[u].Free?
    ensures forall n | n <= v - u + 1 :: Fits(units, size, n)
  {
    var a := units[u].a;
    assert Placed(base, size, units, u) && Placed(base, size, units, v);
  }

  lemma HeapedBlocks(base: int, ptr: map<int, int>, size: map<int, int>, free: seq<int>, units: map<int, Use>)
    requires Heaped(base, ptr, size, free, units)
    ensures base !in units
    ensures forall a | a in units && units[a].a == a :: a in size && size[a] > 0
    ensures forall u | u in units :: base < units[u].a <= u
  {
    assert base in units ==> Placed(base, size, units, base);
    assert forall u | u in units :: Placed(base, size, units, u);
    assert forall a | a in units && units[a].a == a :: Placed(base, size, units, a);
  }

  lemma FreeNotLive(base: int, ptr: map<int, int>, size: map<int, int>, free: seq<int>, units: map<int, Use>, bp: int)
    requires Heaped(base, ptr, size, free, units)
    requires bp in units && units[bp] == Live(bp)
    ensures bp !in free && base < bp
  {
    assert Placed(base, size, units, bp);
    forall i | 0 <= i < |free|
      ensures free[i] != bp
    {
      if i > 0 { assert free[i] in Nodes(free); }
    }
  }
}
