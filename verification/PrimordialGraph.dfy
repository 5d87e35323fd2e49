/** What the primordial inventory reads of the object graph: the nodes it visits are exactly
    those the roots reach, and the record of each is what the heap holds there. */
module PrimordialGraph {
  import opened Numbering
  import opened Optional
  import opened PrimordialInventory
  import opened Sorting

  function NodeAt(heap: Heap, r: Ref): Node { if r in heap then heap[r] else Symbol(None) }

  function NodesAt(heap: Heap, refs: seq<Ref>): seq<Node> {
    if refs == [] then [] else NodesAt(heap, refs[..|refs| - 1]) + [NodeAt(heap, refs[|refs| - 1])]
  }

  /** The numbered list after a number of its entries have been printed. */
  function Found(heap: Heap, roots: seq<Root>, steps: nat): seq<Ref> {
    if steps == 0 then AddAll([], RootRefs(roots)) else
      var found := Found(heap, roots, steps - 1);
      if steps - 1 < |found| then AddAll(found, NodeRefs(NodeAt(heap, found[steps - 1]))) else found
  }

  /** The whole numbering. */
  function Order(heap: Heap, roots: seq<Root>): seq<Ref> { Found(heap, roots, |heap|) }

  function Callbacks(heap: Heap, roots: seq<Root>): seq<nat> {
    AddAll([], NodesCallbacks(NodesAt(heap, Order(heap, roots))))
  }

  /** The printed inventory. */
  function Records(heap: Heap, roots: seq<Root>): seq<Record> {
    PrintRoots(Order(heap, roots), roots)
    + PrintNodes(Order(heap, roots), Callbacks(heap, roots), NodesAt(heap, Order(heap, roots)))
  }

  // ------------------------------------------------------------------ numbering

  lemma {:induction false} FoundNext(heap: Heap, roots: seq<Root>, k: nat)
    ensures Found(heap, roots, k) <= Found(heap, roots, k + 1)
  {
    var found := Found(heap, roots, k);
    if k < |found| { AddAllFacts(found, NodeRefs(NodeAt(heap, found[k]))); }
  }

  lemma {:induction false} PrefixOfPrefix(a: seq<Ref>, b: seq<Ref>, c: seq<Ref>)
    requires a <= b && b <= c
    ensures a <= c
  {
  }

  lemma {:induction false} FoundGrows(heap: Heap, roots: seq<Root>, j: nat, k: nat)
    requires j <= k
    ensures Found(heap, roots, j) <= Found(heap, roots, k)
  {
    if j < k {
      FoundGrows(heap, roots, j, k - 1);
      FoundNext(heap, roots, k - 1);
      PrefixOfPrefix(Found(heap, roots, j), Found(heap, roots, k - 1), Found(heap, roots, k));
    }
  }

  lemma {:induction false} FoundStops(heap: Heap, roots: seq<Root>, j: nat, k: nat)
    requires j <= k && |Found(heap, roots, j)| <= j
    ensures Found(heap, roots, k) == Found(heap, roots, j)
  {
    if j < k { FoundStops(heap, roots, j, k - 1); }
  }

  ghost predicate Inside(s: seq<Ref>, heap: Heap) { forall r :: r in s ==> r in heap }

  lemma {:induction false} FoundInside(heap: Heap, roots: seq<Root>, k: nat)
    requires Sound(heap, roots)
    ensures Distinct(Found(heap, roots, k)) && Inside(Found(heap, roots, k), heap)
  {
    if k == 0 {
      AddAllFacts([], RootRefs(roots));
    } else {
      FoundInside(heap, roots, k - 1);
      var found := Found(heap, roots, k - 1);
      if k - 1 < |found| {
        assert found[k - 1] in heap;
        AddAllFacts(found, NodeRefs(NodeAt(heap, found[k - 1])));
      }
    }
  }

  lemma {:induction false} DistinctFits(s: seq<Ref>, all: set<Ref>)
    requires Distinct(s) && forall r :: r in s ==> r in all
    ensures |s| <= |all|
  {
    if s != [] {
      var last := |s| - 1;
      forall r | r in s[..last] ensures r in all - {s[last]} {
      }
      DistinctFits(s[..last], all - {s[last]});
    }
  }

  /** The list stops growing after as many steps as it has entries. */
  lemma {:induction false} OrderAt(heap: Heap, roots: seq<Root>)
    requires Sound(heap, roots)
    ensures Distinct(Order(heap, roots)) && Inside(Order(heap, roots), heap)
    ensures |Order(heap, roots)| <= |heap|
    ensures Found(heap, roots, |Order(heap, roots)|) == Order(heap, roots)
  {
    FoundInside(heap, roots, |heap|);
    var order := Order(heap, roots);
    DistinctFits(order, heap.Keys);
    assert |order| <= |heap.Keys| == |heap|;
    FoundGrows(heap, roots, |order|, |heap|);
    if |Found(heap, roots, |order|)| <= |order| { FoundStops(heap, roots, |order|, |heap|); }
  }

  /** Every number below the total is given before its node is printed. */
  lemma {:induction false} FoundBefore(heap: Heap, roots: seq<Root>, i: nat)
    requires Sound(heap, roots) && i < |Order(heap, roots)|
    ensures i < |Found(heap, roots, i)| && Found(heap, roots, i)[i] == Order(heap, roots)[i]
  {
    OrderAt(heap, roots);
    FoundGrows(heap, roots, i, |heap|);
    if |Found(heap, roots, i)| <= i { FoundStops(heap, roots, i, |heap|); }
  }

  // ---------------------------------------------------------------- reachability

  ghost predicate Link(heap: Heap, from: Ref, to: Ref) { from in heap && to in NodeRefs(heap[from]) }

  /** A chain of references from a root. */
  ghost predicate Path(heap: Heap, roots: seq<Root>, path: seq<Ref>) {
    && |path| > 0
    && if |path| == 1 then path[0] in RootRefs(roots)
       else Path(heap, roots, path[..|path| - 1]) && Link(heap, path[|path| - 2], path[|path| - 1])
  }

  ghost predicate PathTo(heap: Heap, roots: seq<Root>, path: seq<Ref>, r: Ref) {
    Path(heap, roots, path) && path[|path| - 1] == r
  }

  ghost predicate Reachable(heap: Heap, roots: seq<Root>, r: Ref) {
    exists path :: PathTo(heap, roots, path, r)
  }

  lemma {:induction false} ReachableStep(heap: Heap, roots: seq<Root>, from: Ref, to: Ref)
    requires Reachable(heap, roots, from) && Link(heap, from, to)
    ensures Reachable(heap, roots, to)
  {
    var path :| PathTo(heap, roots, path, from);
    var longer := path + [to];
    assert longer[..|longer| - 1] == path && longer[|longer| - 2] == from && longer[|longer| - 1] == to;
    assert Path(heap, roots, longer);
    assert PathTo(heap, roots, longer, to);
  }

  lemma {:induction false} FoundReachable(heap: Heap, roots: seq<Root>, k: nat, r: Ref)
    requires Sound(heap, roots) && r in Found(heap, roots, k)
    ensures Reachable(heap, roots, r)
  {
    if k == 0 {
      AddAllFacts([], RootRefs(roots));
      assert PathTo(heap, roots, [r], r);
    } else {
      var found := Found(heap, roots, k - 1);
      if r in found {
        FoundReachable(heap, roots, k - 1, r);
      } else {
        FoundInside(heap, roots, k - 1);
        var from := found[k - 1];
        assert from in found && from in heap;
        AddAllFacts(found, NodeRefs(heap[from]));
        FoundReachable(heap, roots, k - 1, from);
        ReachableStep(heap, roots, from, r);
      }
    }
  }

  lemma {:induction false} RootsFound(heap: Heap, roots: seq<Root>)
    ensures Known(Order(heap, roots), RootRefs(roots))
  {
    AddAllFacts([], RootRefs(roots));
    FoundGrows(heap, roots, 0, |heap|);
  }

  lemma {:induction false} RefsFound(heap: Heap, roots: seq<Root>, r: Ref)
    requires Sound(heap, roots) && r in Order(heap, roots)
    ensures r in heap && Known(Order(heap, roots), NodeRefs(heap[r]))
  {
    OrderAt(heap, roots);
    RefsFoundAt(heap, roots, IndexOf(Order(heap, roots), r));
  }

  lemma {:induction false} RefsFoundAt(heap: Heap, roots: seq<Root>, i: nat)
    requires Sound(heap, roots) && i < |Order(heap, roots)| <= |heap| && Order(heap, roots)[i] in heap
    ensures Known(Order(heap, roots), NodeRefs(heap[Order(heap, roots)[i]]))
  {
    var refs := NodeRefs(heap[Order(heap, roots)[i]]);
    FoundBefore(heap, roots, i);
    StepInside(heap, roots, i);
    KnownAfter(Found(heap, roots, i), refs);
    FoundGrows(heap, roots, i + 1, |heap|);
    KnownMore(Found(heap, roots, i + 1), Order(heap, roots), refs);
  }

  lemma {:induction false} PathFound(heap: Heap, roots: seq<Root>, path: seq<Ref>)
    requires Sound(heap, roots) && Path(heap, roots, path)
    ensures path[|path| - 1] in Order(heap, roots)
  {
    if |path| == 1 {
      RootsFound(heap, roots);
    } else {
      var shorter := path[..|path| - 1];
      assert Path(heap, roots, shorter);
      PathFound(heap, roots, shorter);
      RefsFound(heap, roots, shorter[|shorter| - 1]);
    }
  }

  /** The inventory numbers each object once, and numbers exactly those the roots reach
      through prototypes, values, accessors and symbol keys. */
  lemma {:induction false} NumbersExactlyTheReachable(heap: Heap, roots: seq<Root>)
    requires Sound(heap, roots)
    ensures Distinct(Order(heap, roots)) && Distinct(Callbacks(heap, roots))
    ensures forall r :: r in Order(heap, roots) <==> Reachable(heap, roots, r)
  {
    OrderAt(heap, roots);
    AddAllFacts([], NodesCallbacks(NodesAt(heap, Order(heap, roots))));
    forall r ensures r in Order(heap, roots) <==> Reachable(heap, roots, r) {
      if r in Order(heap, roots) { FoundReachable(heap, roots, |heap|, r); }
      if Reachable(heap, roots, r) {
        var path :| PathTo(heap, roots, path, r);
        PathFound(heap, roots, path);
      }
    }
  }

  // -------------------------------------------------------------- the main loop

  lemma {:induction false} NodesAtAt(heap: Heap, refs: seq<Ref>)
    ensures |NodesAt(heap, refs)| == |refs|
    ensures forall i :: 0 <= i < |refs| ==> NodesAt(heap, refs)[i] == NodeAt(heap, refs[i])
  {
    if refs != [] { NodesAtAt(heap, refs[..|refs| - 1]); }
  }

  lemma {:induction false} NodesNext(roots: seq<Root>, values: seq<Ref>, after: seq<Ref>,
                  callbacks: seq<nat>, callbacksAfter: seq<nat>, done: seq<Node>, n: Node)
    requires Known(values, RootRefs(roots) + NodesRefs(done)) && after == AddAll(values, NodeRefs(n))
    requires callbacks == AddAll([], NodesCallbacks(done)) && callbacksAfter == AddAll(callbacks, NodeCallbacks(n))
    ensures Known(after, RootRefs(roots) + NodesRefs(done + [n]))
    ensures callbacksAfter == AddAll([], NodesCallbacks(done + [n]))
    ensures PrintRoots(after, roots) == PrintRoots(values, roots)
    ensures PrintNodes(after, callbacksAfter, done + [n])
         == PrintNodes(values, callbacks, done) + PrintNode(after, callbacksAfter, |done|, n)
  {
    assert (done + [n])[..|done|] == done;
    KnownAfter(values, NodeRefs(n));
    RootsStable(values, after, roots);
    Numbered([], NodesCallbacks(done), NodeCallbacks(n));
    NodesStable(values, after, callbacks, callbacksAfter, done);
  }

  method Snapshot(heap: Heap, roots: seq<Root>) returns (output: seq<Record>)
    requires Sound(heap, roots)
    ensures output == Records(heap, roots)
  {
    var inventory := new Inventory();
    inventory.Roots(roots);
    KnownAfter([], RootRefs(roots));
    assert inventory.output == PrintRoots(inventory.values, roots);
    var i := 0;
    assert inventory.values[..0] == [];
    OrderAt(heap, roots);
    FoundInside(heap, roots, 0);
    while i < |inventory.values|
      invariant i <= |inventory.values|
      invariant inventory.values == Found(heap, roots, i) && Inside(inventory.values, heap)
      invariant Known(inventory.values, RootRefs(roots) + NodesRefs(NodesAt(heap, inventory.values[..i])))
      invariant inventory.callbacks == AddAll([], NodesCallbacks(NodesAt(heap, inventory.values[..i])))
      invariant inventory.output == PrintRoots(inventory.values, roots)
                + PrintNodes(inventory.values, inventory.callbacks, NodesAt(heap, inventory.values[..i]))
      decreases |heap| - i
    {
      ghost var values, callbacks := inventory.values, inventory.callbacks;
      ghost var done := NodesAt(heap, values[..i]);
      inventory.Node(heap, i);
      StepInside(heap, roots, i);
      NextPrefix(heap, values, inventory.values, i);
      NodesNext(roots, values, inventory.values, callbacks, inventory.callbacks, done, heap[values[i]]);
      Assoc(PrintRoots(values, roots), PrintNodes(values, callbacks, done),
            PrintNode(inventory.values, inventory.callbacks, i, heap[values[i]]));
      i := i + 1;
    }
    assert inventory.values[..i] == inventory.values;
    Finished(heap, roots, i);
    output := inventory.output;
  }

  lemma {:induction false} StepInside(heap: Heap, roots: seq<Root>, i: nat)
    requires Sound(heap, roots) && i < |Found(heap, roots, i)|
    ensures Found(heap, roots, i + 1) == AddAll(Found(heap, roots, i), NodeRefs(NodeAt(heap, Found(heap, roots, i)[i])))
    ensures Inside(Found(heap, roots, i + 1), heap)
    ensures i < |Found(heap, roots, i + 1)| && i < |heap|
  {
    FoundInside(heap, roots, i + 1);
    FoundGrows(heap, roots, i, i + 1);
    DistinctFits(Found(heap, roots, i + 1), heap.Keys);
    assert |heap.Keys| == |heap|;
  }

  lemma {:induction false} NextPrefix(heap: Heap, values: seq<Ref>, after: seq<Ref>, i: nat)
    requires i < |values| && after == AddAll(values, NodeRefs(NodeAt(heap, values[i])))
    ensures i < |after|
    ensures NodesAt(heap, after[..i + 1]) == NodesAt(heap, values[..i]) + [NodeAt(heap, values[i])]
    ensures |NodesAt(heap, values[..i])| == i
  {
    AddAllFacts(values, NodeRefs(NodeAt(heap, values[i])));
    NodesAtAt(heap, values[..i]);
    assert after[..i + 1][..i] == values[..i];
  }

  lemma {:induction false} Finished(heap: Heap, roots: seq<Root>, i: nat)
    requires Sound(heap, roots) && |Found(heap, roots, i)| == i
    ensures Found(heap, roots, i) == Order(heap, roots)
  {
    FoundInside(heap, roots, i);
    DistinctFits(Found(heap, roots, i), heap.Keys);
    assert |heap.Keys| == |heap|;
    FoundStops(heap, roots, i, |heap|);
  }
}
