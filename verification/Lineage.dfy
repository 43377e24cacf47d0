/** The lineage graph: breadth-first traversal, its duality and impact analysis. */
module Lineage {
  import opened Basics

  datatype Dataset = Dataset(id: string, owner: Option<string>)

  datatype Job = Job(id: string, owner: Option<string>, inputs: seq<string>, outputs: seq<string>)

  datatype Spec = Spec(datasets: seq<Dataset>, jobs: seq<Job>)

  type Graph = map<string, seq<string>>

  datatype Item = Item(id: string, depth: nat)

  predicate Child(g: Graph, a: string, b: string) {
    a in g && b in g[a]
  }

  // ------------------------------------------------------------------ reachability

  /** There is a path of d edges. */
  ghost predicate ReachIn(g: Graph, a: string, b: string, d: nat)
    decreases d
  {
    if d == 0 then a == b
    else exists m :: ReachIn(g, a, m, d - 1) && Child(g, m, b)
  }

  ghost predicate Shortest(g: Graph, a: string, b: string, d: nat) {
    ReachIn(g, a, b, d) && forall e: nat {:trigger ReachIn(g, a, b, e)} :: e < d ==> !ReachIn(g, a, b, e)
  }

  /** Everything reachable but the start, once, in nondecreasing depth, the depth being the shortest distance. */
  ghost predicate IsWalk(g: Graph, start: string, out: seq<Item>) {
    && (forall i, j :: 0 <= i < j < |out| ==> out[i].id != out[j].id && out[i].depth <= out[j].depth)
    && (forall n, d: nat {:trigger Item(n, d) in out} :: Item(n, d) in out <==> n != start && Shortest(g, start, n, d))
  }

  ghost predicate IsReverse(g: Graph, r: Graph) {
    forall a, b {:trigger Child(g, a, b)} {:trigger Child(r, b, a)} :: Child(r, b, a) <==> Child(g, a, b)
  }

  /** A path can be taken apart at its first edge, too. */
  lemma {:induction false} ReachStep(g: Graph, a: string, m: string, b: string, d: nat)
    requires Child(g, a, m) && ReachIn(g, m, b, d)
    ensures ReachIn(g, a, b, d + 1)
    decreases d
  {
    if d == 0 {
      assert ReachIn(g, a, a, 0);
    } else {
      var k :| ReachIn(g, m, k, d - 1) && Child(g, k, b);
      ReachStep(g, a, m, k, d - 1);
    }
  }

  lemma {:induction false} ReachReversed(g: Graph, r: Graph, a: string, b: string, d: nat)
    requires IsReverse(g, r) && ReachIn(g, a, b, d)
    ensures ReachIn(r, b, a, d)
    decreases d
  {
    if d > 0 {
      var m :| ReachIn(g, a, m, d - 1) && Child(g, m, b);
      ReachReversed(g, r, a, m, d - 1);
      ReachStep(r, b, m, a, d - 1);
    }
  }

  lemma ReverseReversed(g: Graph, r: Graph)
    requires IsReverse(g, r)
    ensures IsReverse(r, g)
  {
  }

  /** x is downstream of y, at some depth, exactly when y is upstream of x at the same depth. */
  lemma Duality(g: Graph, r: Graph, y: string, down: seq<Item>, x: string, up: seq<Item>, d: nat)
    requires IsReverse(g, r) && IsWalk(g, y, down) && IsWalk(r, x, up)
    ensures Item(x, d) in down <==> Item(y, d) in up
  {
    ReverseReversed(g, r);
    forall e: nat ensures ReachIn(g, y, x, e) <==> ReachIn(r, x, y, e) {
      if ReachIn(g, y, x, e) { ReachReversed(g, r, y, x, e); }
      if ReachIn(r, x, y, e) { ReachReversed(r, g, x, y, e); }
    }
    assert Shortest(g, y, x, d) <==> Shortest(r, x, y, d);
  }

  /** A child of the start is in the walk at depth 1. */
  lemma ChildInWalk(g: Graph, start: string, out: seq<Item>, b: string)
    requires IsWalk(g, start, out) && Child(g, start, b) && b != start
    ensures Item(b, 1) in out
  {
    assert ReachIn(g, start, start, 0);
    assert ReachIn(g, start, b, 1) && !ReachIn(g, start, b, 0);
    assert Shortest(g, start, b, 1);
  }

  /** A child of a child, unless it is a child itself, is in the walk at depth 2. */
  lemma GrandchildInWalk(g: Graph, start: string, out: seq<Item>, m: string, b: string)
    requires IsWalk(g, start, out) && Child(g, start, m) && Child(g, m, b) && b != start && !Child(g, start, b)
    ensures Item(b, 2) in out
  {
    assert ReachIn(g, start, start, 0);
    assert ReachIn(g, start, m, 1);
    assert ReachIn(g, start, b, 2) && !ReachIn(g, start, b, 0);
    assert !ReachIn(g, start, b, 1);
    assert Shortest(g, start, b, 2);
  }

  // ------------------------------------------------------------------ the traversal

  function Ids(items: seq<Item>): set<string> {
    set i | i in items :: i.id
  }

  /** Every node an edge leads to. */
  function Targets(g: Graph): set<string> {
    set a, b | a in g && b in g[a] :: b
  }

  /** The visited items, start included: distinct ids, nondecreasing depths, each reached by a path of its depth, none
      more than one edge deeper than `bound`. */
  ghost predicate Visited(g: Graph, start: string, order: seq<Item>, bound: nat) {
    && |order| > 0 && order[0] == Item(start, 0)
    && (forall i, j :: 0 <= i < j < |order| ==> order[i].id != order[j].id && order[i].depth <= order[j].depth)
    && (forall i :: 0 <= i < |order| ==> ReachIn(g, start, order[i].id, order[i].depth) && order[i].depth <= bound + 1)
  }

  /** The children of a processed item have been visited, at most one edge deeper. */
  ghost predicate Explored(g: Graph, order: seq<Item>, item: Item) {
    forall b {:trigger Child(g, item.id, b)} :: Child(g, item.id, b) ==> Found(order, b, item.depth + 1)
  }

  ghost predicate ExploredUpTo(g: Graph, order: seq<Item>, h: nat) {
    h <= |order| && forall i :: 0 <= i < h ==> Explored(g, order, order[i])
  }

  /** The first c children have been visited, at depth `atMost` or less. */
  ghost predicate FoundUpTo(order: seq<Item>, children: seq<string>, c: nat, atMost: nat) {
    c <= |children| && forall k :: 0 <= k < c ==> Found(order, children[k], atMost)
  }

  ghost predicate Found(order: seq<Item>, b: string, atMost: nat) {
    exists i :: 0 <= i < |order| && order[i].id == b && order[i].depth <= atMost
  }

  lemma FoundLater(order: seq<Item>, more: seq<Item>, b: string, atMost: nat)
    requires Found(order, b, atMost)
    ensures Found(order + more, b, atMost)
  {
    var i :| 0 <= i < |order| && order[i].id == b && order[i].depth <= atMost;
    assert (order + more)[i] == order[i];
  }

  lemma VisitOne(g: Graph, start: string, order: seq<Item>, parent: Item, child: string)
    requires Visited(g, start, order, parent.depth) && parent in order
    requires Child(g, parent.id, child) && child !in Ids(order)
    ensures Visited(g, start, order + [Item(child, parent.depth + 1)], parent.depth)
    ensures Found(order + [Item(child, parent.depth + 1)], child, parent.depth + 1)
  {
    var more := order + [Item(child, parent.depth + 1)];
    assert ReachIn(g, start, child, parent.depth + 1);
    forall i | 0 <= i < |order| ensures order[i].id != child {
      assert order[i] in order;
    }
    assert more[|order|] == Item(child, parent.depth + 1);
  }

  /** When everything visited is explored, every path leads to a visited node that is no deeper than the path. */
  lemma {:induction false} AllFound(g: Graph, start: string, order: seq<Item>, bound: nat, n: string, d: nat)
    requires Visited(g, start, order, bound) && ExploredUpTo(g, order, |order|)
    requires ReachIn(g, start, n, d)
    ensures Found(order, n, d)
    decreases d
  {
    if d > 0 {
      var m :| ReachIn(g, start, m, d - 1) && Child(g, m, n);
      AllFound(g, start, order, bound, m, d - 1);
      var i :| 0 <= i < |order| && order[i].id == m && order[i].depth <= d - 1;
      assert Explored(g, order, order[i]);
      var j :| 0 <= j < |order| && order[j].id == n && order[j].depth <= order[i].depth + 1;
    }
  }

  lemma DepthIsShortest(g: Graph, start: string, order: seq<Item>, bound: nat, i: nat)
    requires Visited(g, start, order, bound) && ExploredUpTo(g, order, |order|) && i < |order|
    ensures Shortest(g, start, order[i].id, order[i].depth)
  {
    hide ReachIn, ExploredUpTo;
    forall e: nat | e < order[i].depth ensures !ReachIn(g, start, order[i].id, e) {
      if ReachIn(g, start, order[i].id, e) {
        AllFound(g, start, order, bound, order[i].id, e);
        assert false;
      }
    }
  }

  lemma ReachableIsVisited(g: Graph, start: string, order: seq<Item>, bound: nat, n: string, d: nat)
    requires Visited(g, start, order, bound) && ExploredUpTo(g, order, |order|) && Shortest(g, start, n, d)
    ensures Item(n, d) in order
  {
    hide ReachIn, ExploredUpTo, Visited;
    AllFound(g, start, order, bound, n, d);
    var i :| 0 <= i < |order| && order[i].id == n && order[i].depth <= d;
    DepthIsShortest(g, start, order, bound, i);
    assert order[i] == Item(n, d);
  }

  lemma WalkItem(g: Graph, start: string, out: seq<Item>, bound: nat, n: string, d: nat)
    requires var order := [Item(start, 0)] + out;
             Visited(g, start, order, bound) && ExploredUpTo(g, order, |order|)
    ensures Item(n, d) in out <==> n != start && Shortest(g, start, n, d)
  {
    hide ReachIn, ExploredUpTo, Shortest;
    var order := [Item(start, 0)] + out;
    if Item(n, d) in out {
      var i :| 0 <= i < |out| && out[i] == Item(n, d);
      assert order[i + 1] == out[i] && order[0].id != order[i + 1].id;
      DepthIsShortest(g, start, order, bound, i + 1);
    }
    if n != start && Shortest(g, start, n, d) {
      ReachableIsVisited(g, start, order, bound, n, d);
      assert Item(n, d) in [Item(start, 0)] + out;
    }
  }

  lemma WalkIsComplete(g: Graph, start: string, out: seq<Item>, bound: nat)
    requires var order := [Item(start, 0)] + out;
             Visited(g, start, order, bound) && ExploredUpTo(g, order, |order|)
    ensures IsWalk(g, start, out)
  {
    hide ReachIn, ExploredUpTo, Shortest;
    var order := [Item(start, 0)] + out;
    assert forall i :: 0 <= i < |out| ==> out[i] == order[i + 1];
    forall n, d: nat ensures Item(n, d) in out <==> n != start && Shortest(g, start, n, d) {
      WalkItem(g, start, out, bound, n, d);
    }
  }

  lemma {:induction false} DistinctCount(order: seq<Item>)
    requires forall i, j :: 0 <= i < j < |order| ==> order[i].id != order[j].id
    ensures |Ids(order)| == |order|
  {
    if order != [] {
      var n := |order| - 1;
      assert order == order[..n] + [order[n]];
      DistinctCount(order[..n]);
      assert Ids(order) == Ids(order[..n]) + {order[n].id};
      assert order[n].id !in Ids(order[..n]);
    }
  }

  lemma IdsSnoc(order: seq<Item>, item: Item)
    ensures Ids(order + [item]) == Ids(order) + {item.id}
  {
    assert forall i :: i in order + [item] <==> i in order || i == item;
  }

  lemma SubsetCount(a: set<string>, b: set<string>)
    requires a <= b
    ensures |a| <= |b|
  {
    assert b == a + (b - a);
  }

  lemma ExploredLater(g: Graph, order: seq<Item>, item: Item, h: nat)
    requires ExploredUpTo(g, order, h)
    ensures ExploredUpTo(g, order + [item], h)
  {
    forall i | 0 <= i < h ensures Explored(g, order + [item], (order + [item])[i]) {
      assert Explored(g, order, order[i]);
      forall b | Child(g, order[i].id, b) ensures Found(order + [item], b, order[i].depth + 1) {
        FoundLater(order, [item], b, order[i].depth + 1);
      }
    }
  }

  lemma FoundOneMore(order: seq<Item>, children: seq<string>, c: nat, atMost: nat)
    requires FoundUpTo(order, children, c, atMost) && c < |children| && Found(order, children[c], atMost)
    ensures FoundUpTo(order, children, c + 1, atMost)
  {
  }

  lemma FoundAllLater(order: seq<Item>, item: Item, children: seq<string>, c: nat, atMost: nat)
    requires FoundUpTo(order, children, c, atMost)
    ensures FoundUpTo(order + [item], children, c, atMost)
  {
    forall k | 0 <= k < c ensures Found(order + [item], children[k], atMost) {
      FoundLater(order, [item], children[k], atMost);
    }
  }

  /** A node whose children have all been visited is explored. */
  lemma ChildrenFound(g: Graph, order: seq<Item>, h: nat, children: seq<string>)
    requires ExploredUpTo(g, order, h) && h < |order|
    requires children == if order[h].id in g then g[order[h].id] else []
    requires FoundUpTo(order, children, |children|, order[h].depth + 1)
    ensures ExploredUpTo(g, order, h + 1)
  {
    assert Explored(g, order, order[h]);
  }

  lemma NothingExplored(g: Graph, order: seq<Item>)
    ensures ExploredUpTo(g, order, 0)
  {
  }

  lemma NothingFound(order: seq<Item>, children: seq<string>, atMost: nat)
    ensures FoundUpTo(order, children, 0, atMost)
  {
  }

  lemma VisitStart(g: Graph, start: string)
    ensures Visited(g, start, [Item(start, 0)], 0) && Ids([Item(start, 0)]) == {start}
  {
    assert ReachIn(g, start, start, 0);
  }

  lemma NextInLine(g: Graph, start: string, order: seq<Item>, bound: nat, h: nat)
    requires Visited(g, start, order, bound) && h < |order| && bound <= order[h].depth
    ensures Visited(g, start, order, order[h].depth)
    ensures h + 1 < |order| ==> order[h].depth <= order[h + 1].depth
  {
  }

  /** A child seen before is at most one edge deeper than its parent. */
  lemma SeenIsFound(g: Graph, start: string, order: seq<Item>, bound: nat, child: string)
    requires Visited(g, start, order, bound) && child in Ids(order)
    ensures Found(order, child, bound + 1)
  {
    var i :| 0 <= i < |order| && order[i].id == child;
  }

  lemma ChildIsTarget(g: Graph, node: string, child: string)
    requires node in g && child in g[node]
    ensures Child(g, node, child) && child in Targets(g)
  {
  }

  lemma RoomLeft(g: Graph, start: string, order: seq<Item>, bound: nat, universe: set<string>)
    requires Visited(g, start, order, bound) && Ids(order) <= universe
    ensures |order| <= |universe|
  {
    DistinctCount(order);
    SubsetCount(Ids(order), universe);
  }

  /** Breadth-first search, on any graph, cyclic or not. */
  method Walk(g: Graph, start: string) returns (out: seq<Item>)
    ensures IsWalk(g, start, out)
  {
    hide Visited, ExploredUpTo, FoundUpTo, Found, ReachIn, IsWalk, Ids, Targets;
    var seen := {start};
    var queue := [Item(start, 0)];
    out := [];
    ghost var order: seq<Item>, h: nat, bound: nat := [Item(start, 0)], 0, 0;
    ghost var universe := {start} + Targets(g);
    VisitStart(g, start);
    RoomLeft(g, start, order, bound, universe);
    NothingExplored(g, order);
    while queue != []
      invariant order == [Item(start, 0)] + out && h <= |order| && queue == order[h..]
      invariant seen == Ids(order) && seen <= universe && |order| <= |universe|
      invariant Visited(g, start, order, bound) && (h < |order| ==> bound <= order[h].depth)
      invariant ExploredUpTo(g, order, h)
      decreases |universe| - h
    {
      var node, depth := queue[0].id, queue[0].depth;
      queue := queue[1..];
      NextInLine(g, start, order, bound, h);
      ghost var parent := order[h];
      var children := if node in g then g[node] else [];
      NothingFound(order, children, depth + 1);
      var c := 0;
      while c < |children|
        invariant 0 <= c <= |children|
        invariant order == [Item(start, 0)] + out && h < |order| && queue == order[h + 1..]
        invariant order[h] == parent && seen == Ids(order) && seen <= universe
        invariant Visited(g, start, order, depth)
        invariant ExploredUpTo(g, order, h) && FoundUpTo(order, children, c, depth + 1)
      {
        var child := children[c];
        ChildIsTarget(g, node, child);
        if child !in seen {
          ghost var item := Item(child, depth + 1);
          VisitOne(g, start, order, parent, child);
          ExploredLater(g, order, item, h);
          FoundAllLater(order, item, children, c, depth + 1);
          IdsSnoc(order, item);
          seen := seen + {child};
          out := out + [Item(child, depth + 1)];
          queue := queue + [Item(child, depth + 1)];
          order := order + [item];
        } else {
          SeenIsFound(g, start, order, depth, child);
        }
        FoundOneMore(order, children, c, depth + 1);
        c := c + 1;
      }
      ChildrenFound(g, order, h, children);
      RoomLeft(g, start, order, depth, universe);
      if h + 1 < |order| { NextInLine(g, start, order, depth, h); }
      h, bound := h + 1, depth;
    }
    WalkIsComplete(g, start, out, bound);
  }
}
