/** The printed inventory is a canonical form: addresses do not show in it, and nothing
    else of the reachable graph is lost. */
module PrimordialIsomorphism {
  import opened Numbering
  import opened Optional
  import opened PrimordialGraph
  import opened PrimordialInventory
  import opened Sorting

  type Renaming = map<Ref, Ref>

  function RenameRef(f: Renaming, r: Ref): Ref { if r in f then f[r] else r }

  function RenameRefs(f: Renaming, refs: seq<Ref>): seq<Ref> {
    if refs == [] then [] else RenameRefs(f, refs[..|refs| - 1]) + [RenameRef(f, refs[|refs| - 1])]
  }

  function RenameValue(f: Renaming, v: Value): Value {
    if v.Reference? then Reference(RenameRef(f, v.ref)) else v
  }

  function RenameKey(f: Renaming, k: Key): Key {
    if k.SymbolKey? then SymbolKey(RenameRef(f, k.symbol)) else k
  }

  function RenameDescriptor(f: Renaming, d: Descriptor): Descriptor {
    match d
    case Data(value) => Data(RenameValue(f, value))
    case Accessor(getter, setter) => Accessor(RenameValue(f, getter), RenameValue(f, setter))
  }

  function RenameProperty(f: Renaming, p: Property): Property {
    Property(RenameKey(f, p.key), p.flags, RenameDescriptor(f, p.descriptor))
  }

  function RenameProperties(f: Renaming, ps: seq<Property>): seq<Property> {
    if ps == [] then [] else RenameProperties(f, ps[..|ps| - 1]) + [RenameProperty(f, ps[|ps| - 1])]
  }

  function RenameNode(f: Renaming, n: Node): Node {
    match n
    case Symbol(_) => n
    case Object(locked, prototype, native, properties) =>
      Object(locked, RenameValue(f, prototype), native, RenameProperties(f, properties))
  }

  function RenameRoot(f: Renaming, root: Root): Root { Root(root.name, RenameValue(f, root.value)) }

  function RenameRoots(f: Renaming, roots: seq<Root>): seq<Root> {
    if roots == [] then []
    else RenameRoots(f, roots[..|roots| - 1]) + [RenameRoot(f, roots[|roots| - 1])]
  }

  ghost predicate Injective(f: Renaming) { forall r, s :: r in f && s in f && f[r] == f[s] ==> r == s }

  /** The renaming covers every reference. */
  ghost predicate Covers(f: Renaming, refs: seq<Ref>) { forall r :: r in refs ==> r in f }

  ghost predicate Carries(f: Renaming, left: Heap, right: Heap, r: Ref) {
    && r in f && r in left && f[r] in right
    && Covers(f, NodeRefs(left[r])) && right[f[r]] == RenameNode(f, left[r])
  }

  /** A one-to-one renaming that covers what the left roots reach and carries the left
      roots and nodes to the right ones. */
  ghost predicate Isomorphism(f: Renaming, left: Heap, leftRoots: seq<Root>, right: Heap, rightRoots: seq<Root>) {
    && Injective(f)
    && Covers(f, RootRefs(leftRoots)) && rightRoots == RenameRoots(f, leftRoots)
    && forall r :: r in f ==> Carries(f, left, right, r)
  }

  // ----------------------------------------------------- renaming and references

  lemma {:induction false} RenameAppend(f: Renaming, a: seq<Ref>, b: seq<Ref>)
    ensures RenameRefs(f, a + b) == RenameRefs(f, a) + RenameRefs(f, b)
  {
    if b == [] {
      assert a + b == a;
    } else {
      RenameAppend(f, a, b[..|b| - 1]);
      assert (a + b)[..|a + b| - 1] == a + b[..|b| - 1];
    }
  }

  lemma {:induction false} RenameAt(f: Renaming, a: seq<Ref>)
    ensures |RenameRefs(f, a)| == |a|
    ensures forall i :: 0 <= i < |a| ==> RenameRefs(f, a)[i] == RenameRef(f, a[i])
  {
    if a != [] { RenameAt(f, a[..|a| - 1]); }
  }

  lemma {:induction false} RenameOne(f: Renaming, r: Ref)
    ensures RenameRefs(f, [r]) == [RenameRef(f, r)]
  {
    assert [r][..0] == [];
    assert RenameRefs(f, []) == [];
  }

  lemma {:induction false} ValueRenamed(f: Renaming, v: Value)
    ensures ValueRefs(RenameValue(f, v)) == RenameRefs(f, ValueRefs(v))
  {
    if v.Reference? { RenameOne(f, v.ref); }
  }

  lemma {:induction false} PropertyRenamed(f: Renaming, p: Property)
    ensures PropertyRefs(RenameProperty(f, p)) == RenameRefs(f, PropertyRefs(p))
  {
    if p.key.SymbolKey? { RenameOne(f, p.key.symbol); }
    RenameAppend(f, KeyRefs(p.key), DescriptorRefs(p.descriptor));
    match p.descriptor
    case Data(value) => ValueRenamed(f, value);
    case Accessor(getter, setter) =>
      ValueRenamed(f, getter);
      ValueRenamed(f, setter);
      RenameAppend(f, ValueRefs(getter), ValueRefs(setter));
  }

  lemma {:induction false} PropertiesRenamed(f: Renaming, ps: seq<Property>)
    ensures PropertiesRefs(RenameProperties(f, ps)) == RenameRefs(f, PropertiesRefs(ps))
  {
    if ps != [] {
      var front, last := ps[..|ps| - 1], ps[|ps| - 1];
      PropertiesRenamed(f, front);
      PropertyRenamed(f, last);
      RenameAppend(f, PropertiesRefs(front), PropertyRefs(last));
      var renamed := RenameProperties(f, ps);
      assert renamed[..|renamed| - 1] == RenameProperties(f, front);
    }
  }

  lemma {:induction false} NodeRenamed(f: Renaming, n: Node)
    ensures NodeRefs(RenameNode(f, n)) == RenameRefs(f, NodeRefs(n))
    ensures NodeCallbacks(RenameNode(f, n)) == NodeCallbacks(n)
  {
    if n.Object? {
      ValueRenamed(f, n.prototype);
      PropertiesRenamed(f, n.properties);
      RenameAppend(f, ValueRefs(n.prototype), PropertiesRefs(n.properties));
    }
  }

  lemma {:induction false} RootsRenamed(f: Renaming, roots: seq<Root>)
    ensures RootRefs(RenameRoots(f, roots)) == RenameRefs(f, RootRefs(roots))
  {
    if roots != [] {
      var front, last := roots[..|roots| - 1], roots[|roots| - 1];
      RootsRenamed(f, front);
      ValueRenamed(f, last.value);
      RenameAppend(f, RootRefs(front), ValueRefs(last.value));
      var renamed := RenameRoots(f, roots);
      assert renamed[..|renamed| - 1] == RenameRoots(f, front);
    }
  }

  // ------------------------------------------------- renaming keeps the numbering

  lemma {:induction false} AddRenamed(f: Renaming, s: seq<Ref>, r: Ref)
    requires Injective(f) && Covers(f, s) && r in f
    ensures RenameRefs(f, Add(s, r)) == Add(RenameRefs(f, s), RenameRef(f, r))
    ensures Covers(f, Add(s, r))
  {
    RenameAt(f, s);
    if r in s {
      var i := IndexOf(s, r);
      assert RenameRefs(f, s)[i] == RenameRef(f, r);
    } else {
      RenameAppend(f, s, [r]);
      RenameOne(f, r);
      var renamed := RenameRefs(f, s);
      forall i | 0 <= i < |renamed| ensures renamed[i] != f[r] {
        assert s[i] in s;
      }
    }
  }

  lemma {:induction false} AddAllRenamed(f: Renaming, s: seq<Ref>, xs: seq<Ref>)
    requires Injective(f) && Covers(f, s) && Covers(f, xs)
    ensures RenameRefs(f, AddAll(s, xs)) == AddAll(RenameRefs(f, s), RenameRefs(f, xs))
    ensures Covers(f, AddAll(s, xs))
  {
    if xs != [] {
      var front, last := xs[..|xs| - 1], xs[|xs| - 1];
      AddAllRenamed(f, s, front);
      AddRenamed(f, AddAll(s, front), last);
      var renamed := RenameRefs(f, xs);
      assert renamed[..|renamed| - 1] == RenameRefs(f, front);
    }
  }

  lemma {:induction false} FoundRenamed(
    f: Renaming, left: Heap, leftRoots: seq<Root>, right: Heap, rightRoots: seq<Root>, k: nat)
    requires Isomorphism(f, left, leftRoots, right, rightRoots)
    ensures Covers(f, Found(left, leftRoots, k))
    ensures Found(right, rightRoots, k) == RenameRefs(f, Found(left, leftRoots, k))
  {
    if k == 0 {
      RootsRenamed(f, leftRoots);
      AddAllRenamed(f, [], RootRefs(leftRoots));
    } else {
      FoundRenamed(f, left, leftRoots, right, rightRoots, k - 1);
      var found := Found(left, leftRoots, k - 1);
      RenameAt(f, found);
      if k - 1 < |found| {
        var r := found[k - 1];
        assert r in found;
        assert Carries(f, left, right, r);
        NodeRenamed(f, left[r]);
        AddAllRenamed(f, found, NodeRefs(left[r]));
      }
    }
  }

  lemma {:induction false} OrderRenamed(f: Renaming, left: Heap, leftRoots: seq<Root>, right: Heap,
                                        rightRoots: seq<Root>)
    requires Sound(left, leftRoots) && Sound(right, rightRoots)
    requires Isomorphism(f, left, leftRoots, right, rightRoots)
    ensures Covers(f, Order(left, leftRoots))
    ensures Order(right, rightRoots) == RenameRefs(f, Order(left, leftRoots))
  {
    OrderAt(left, leftRoots);
    var order := Order(left, leftRoots);
    FoundRenamed(f, left, leftRoots, right, rightRoots, |order|);
    RenameAt(f, order);
    Finished(right, rightRoots, |order|);
  }

  // --------------------------------------------------- renaming keeps the records

  lemma {:induction false} IndexRenamed(f: Renaming, s: seq<Ref>, r: Ref)
    requires Injective(f) && Covers(f, s) && r in s
    ensures IndexOf(RenameRefs(f, s), RenameRef(f, r)) == IndexOf(s, r)
  {
    RenameAt(f, s);
    var renamed, i := RenameRefs(f, s), IndexOf(s, r);
    assert renamed[i] == f[r];
    forall j | 0 <= j < i ensures renamed[j] != f[r] {
      assert s[j] in s;
    }
  }

  lemma {:induction false} ValueSame(f: Renaming, s: seq<Ref>, v: Value)
    requires Injective(f) && Covers(f, s) && Known(s, ValueRefs(v))
    ensures PrintValue(RenameRefs(f, s), RenameValue(f, v)) == PrintValue(s, v)
  {
    if v.Reference? {
      assert v.ref in ValueRefs(v);
      IndexRenamed(f, s, v.ref);
    }
  }

  lemma {:induction false} PropertySame(f: Renaming, s: seq<Ref>, owner: nat, p: Property)
    requires Injective(f) && Covers(f, s) && Known(s, PropertyRefs(p))
    ensures PrintProperty(RenameRefs(f, s), owner, RenameProperty(f, p)) == PrintProperty(s, owner, p)
  {
    if p.key.SymbolKey? {
      assert p.key.symbol in KeyRefs(p.key);
      IndexRenamed(f, s, p.key.symbol);
    }
    match p.descriptor
    case Data(value) => ValueSame(f, s, value);
    case Accessor(getter, setter) =>
      ValueSame(f, s, getter);
      ValueSame(f, s, setter);
  }

  lemma {:induction false} PropertiesSame(f: Renaming, s: seq<Ref>, owner: nat, ps: seq<Property>)
    requires Injective(f) && Covers(f, s) && Known(s, PropertiesRefs(ps))
    ensures PrintProperties(RenameRefs(f, s), owner, RenameProperties(f, ps)) == PrintProperties(s, owner, ps)
  {
    if ps != [] {
      var front, last := ps[..|ps| - 1], ps[|ps| - 1];
      PropertiesSame(f, s, owner, front);
      PropertySame(f, s, owner, last);
      var renamed := RenameProperties(f, ps);
      assert renamed[..|renamed| - 1] == RenameProperties(f, front);
    }
  }

  lemma {:induction false} NodeSame(f: Renaming, s: seq<Ref>, callbacks: seq<nat>, id: nat, n: Node)
    requires Injective(f) && Covers(f, s) && Known(s, NodeRefs(n))
    ensures PrintNode(RenameRefs(f, s), callbacks, id, RenameNode(f, n)) == PrintNode(s, callbacks, id, n)
  {
    if n.Object? {
      ValueSame(f, s, n.prototype);
      PropertiesSame(f, s, id, n.properties);
    }
  }

  lemma {:induction false} RootsSame(f: Renaming, s: seq<Ref>, roots: seq<Root>)
    requires Injective(f) && Covers(f, s) && Known(s, RootRefs(roots))
    ensures PrintRoots(RenameRefs(f, s), RenameRoots(f, roots)) == PrintRoots(s, roots)
  {
    if roots != [] {
      var front, last := roots[..|roots| - 1], roots[|roots| - 1];
      RootsSame(f, s, front);
      ValueSame(f, s, last.value);
      var renamed := RenameRoots(f, roots);
      assert renamed[..|renamed| - 1] == RenameRoots(f, front);
    }
  }

  /** Nodes of the right graph are the renamed nodes of the left one. */
  ghost predicate Alike(f: Renaming, s: seq<Ref>, left: seq<Node>, right: seq<Node>) {
    && |left| == |right|
    && forall i :: 0 <= i < |left| ==> Known(s, NodeRefs(left[i])) && right[i] == RenameNode(f, left[i])
  }

  lemma {:induction false} NodesSame(f: Renaming, s: seq<Ref>, callbacks: seq<nat>, left: seq<Node>, right: seq<Node>)
    requires Injective(f) && Covers(f, s) && Alike(f, s, left, right)
    ensures PrintNodes(RenameRefs(f, s), callbacks, right) == PrintNodes(s, callbacks, left)
    ensures NodesCallbacks(right) == NodesCallbacks(left)
  {
    if left != [] {
      var last := |left| - 1;
      NodesSame(f, s, callbacks, left[..last], right[..last]);
      NodeSame(f, s, callbacks, last, left[last]);
      NodeRenamed(f, left[last]);
    }
  }

  lemma {:induction false} NodesAlike(f: Renaming, left: Heap, leftRoots: seq<Root>, right: Heap, rightRoots: seq<Root>)
    requires Sound(left, leftRoots) && Isomorphism(f, left, leftRoots, right, rightRoots)
    requires Covers(f, Order(left, leftRoots))
    requires Order(right, rightRoots) == RenameRefs(f, Order(left, leftRoots))
    ensures Alike(f, Order(left, leftRoots),
                  NodesAt(left, Order(left, leftRoots)), NodesAt(right, Order(right, rightRoots)))
  {
    var order := Order(left, leftRoots);
    NodesAtAt(left, order);
    NodesAtAt(right, Order(right, rightRoots));
    RenameAt(f, order);
    forall i | 0 <= i < |order|
      ensures Known(order, NodeRefs(NodeAt(left, order[i])))
           && NodeAt(right, RenameRef(f, order[i])) == RenameNode(f, NodeAt(left, order[i]))
    {
      assert order[i] in order;
      RefsFound(left, leftRoots, order[i]);
      assert Carries(f, left, right, order[i]);
    }
  }

  lemma {:induction false} IsomorphicPrintAlike(f: Renaming, left: Heap, leftRoots: seq<Root>, right: Heap,
                                                rightRoots: seq<Root>)
    requires Sound(left, leftRoots) && Sound(right, rightRoots)
    requires Isomorphism(f, left, leftRoots, right, rightRoots)
    ensures Records(left, leftRoots) == Records(right, rightRoots)
  {
    var order := Order(left, leftRoots);
    OrderRenamed(f, left, leftRoots, right, rightRoots);
    RootsFound(left, leftRoots);
    RootsSame(f, order, leftRoots);
    NodesAlike(f, left, leftRoots, right, rightRoots);
    NodesSame(f, order, Callbacks(left, leftRoots), NodesAt(left, order), NodesAt(right, Order(right, rightRoots)));
  }

  // --------------------------------------------- the graph read back from records

  /** Takes each entry of one list to the entry of the other with the same number. */
  function Matching(s: seq<Ref>, t: seq<Ref>): Renaming
    requires |s| == |t|
  {
    map r | r in s :: t[IndexOf(s, r)]
  }

  lemma {:induction false} ValueBack(s: seq<Ref>, t: seq<Ref>, v: Value, w: Value)
    requires |s| == |t| && Known(s, ValueRefs(v)) && Known(t, ValueRefs(w))
    requires PrintValue(s, v) == PrintValue(t, w)
    ensures w == RenameValue(Matching(s, t), v)
  {
    if v.Reference? {
      assert v.ref in ValueRefs(v);
      assert w.ref in ValueRefs(w);
    }
  }

  lemma {:induction false} PropertyBack(s: seq<Ref>, t: seq<Ref>, owner: nat, p: Property, q: Property)
    requires |s| == |t| && Known(s, PropertyRefs(p)) && Known(t, PropertyRefs(q))
    requires PrintProperty(s, owner, p) == PrintProperty(t, owner, q)
    ensures q == RenameProperty(Matching(s, t), p)
  {
    if p.key.SymbolKey? {
      assert p.key.symbol in KeyRefs(p.key);
      assert q.key.symbol in KeyRefs(q.key);
    }
    match p.descriptor
    case Data(value) => ValueBack(s, t, value, q.descriptor.value);
    case Accessor(getter, setter) =>
      ValueBack(s, t, getter, q.descriptor.getter);
      ValueBack(s, t, setter, q.descriptor.setter);
  }

  lemma {:induction false} PropertiesBack(s: seq<Ref>, t: seq<Ref>, owner: nat, ps: seq<Property>, qs: seq<Property>)
    requires |s| == |t| && Known(s, PropertiesRefs(ps)) && Known(t, PropertiesRefs(qs))
    requires PrintProperties(s, owner, ps) == PrintProperties(t, owner, qs)
    ensures qs == RenameProperties(Matching(s, t), ps)
  {
    if ps != [] && qs != [] {
      var front, back, p, q := ps[..|ps| - 1], qs[..|qs| - 1], ps[|ps| - 1], qs[|qs| - 1];
      assert qs == back + [q];
      LastEqual(PrintProperties(s, owner, front), PrintProperty(s, owner, p),
                PrintProperties(t, owner, back), PrintProperty(t, owner, q));
      PropertiesBack(s, t, owner, front, back);
      PropertyBack(s, t, owner, p, q);
    }
  }

  lemma {:induction false} LastEqual<T>(a: seq<T>, x: T, b: seq<T>, y: T)
    requires a + [x] == b + [y]
    ensures a == b && x == y
  {
    assert (a + [x])[..|a|] == a && (b + [y])[..|b|] == b;
    assert |a + [x]| == |b + [y]|;
    assert (a + [x])[|a|] == x;
  }

  lemma {:induction false} FirstEqual<T>(x: T, a: seq<T>, y: T, b: seq<T>)
    requires [x] + a == [y] + b
    ensures x == y && a == b
  {
    assert ([x] + a)[0] == x && ([y] + b)[0] == y;
    assert ([x] + a)[1..] == a && ([y] + b)[1..] == b;
  }

  lemma {:induction false} RootsBack(s: seq<Ref>, t: seq<Ref>, roots: seq<Root>, others: seq<Root>)
    requires |s| == |t| && Known(s, RootRefs(roots)) && Known(t, RootRefs(others))
    requires PrintRoots(s, roots) == PrintRoots(t, others)
    ensures others == RenameRoots(Matching(s, t), roots)
  {
    if roots != [] && others != [] {
      var r, o := roots[|roots| - 1], others[|others| - 1];
      LastEqual(PrintRoots(s, roots[..|roots| - 1]), PrintRoot(s, r),
                PrintRoots(t, others[..|others| - 1]), PrintRoot(t, o));
      RootsBack(s, t, roots[..|roots| - 1], others[..|others| - 1]);
      ValueBack(s, t, r.value, o.value);
    }
  }

  lemma {:induction false} NativeBack(c: seq<nat>, d: seq<nat>, n: Option<Native>, m: Option<Native>)
    requires PrintNative(c, n) == PrintNative(d, m)
    ensures n == m
  {
    if n.Some? { assert PrintNative(c, n).value == PrintNative(d, m).value; }
  }

  lemma {:induction false} ObjectBack(s: seq<Ref>, t: seq<Ref>, c: seq<nat>, d: seq<nat>, id: nat, n: Node, m: Node)
    requires |s| == |t| && n.Object? && m.Object? && Known(s, NodeRefs(n)) && Known(t, NodeRefs(m))
    requires PrintNode(s, c, id, n) == PrintNode(t, d, id, m)
    ensures m == RenameNode(Matching(s, t), n)
  {
    var x := ObjectRecord(id, n.locked, PrintValue(s, n.prototype), PrintNative(c, n.native));
    var y := ObjectRecord(id, m.locked, PrintValue(t, m.prototype), PrintNative(d, m.native));
    FirstEqual(x, PrintProperties(s, id, n.properties), y, PrintProperties(t, id, m.properties));
    NativeBack(c, d, n.native, m.native);
    ValueBack(s, t, n.prototype, m.prototype);
    PropertiesBack(s, t, id, n.properties, m.properties);
  }

  lemma {:induction false} NodeBack(s: seq<Ref>, t: seq<Ref>, c: seq<nat>, d: seq<nat>, id: nat, n: Node, m: Node)
    requires |s| == |t| && Known(s, NodeRefs(n)) && Known(t, NodeRefs(m))
    requires PrintNode(s, c, id, n) == PrintNode(t, d, id, m)
    ensures m == RenameNode(Matching(s, t), n)
  {
    assert PrintNode(s, c, id, n)[0] == PrintNode(t, d, id, m)[0];
    if n.Object? { ObjectBack(s, t, c, d, id, n, m); }
  }

  // Reading the records apart.

  predicate Head(r: Record) { r.SymbolRecord? || r.ObjectRecord? }

  predicate HeadAt(rs: seq<Record>, i: int) { 0 <= i < |rs| && Head(rs[i]) }

  predicate RootAt(rs: seq<Record>, i: int) { 0 <= i < |rs| && rs[i].RootRecord? }

  ghost predicate Block(b: seq<Record>) {
    b != [] && Head(b[0]) && forall i :: 0 < i < |b| ==> b[i].DescriptorRecord?
  }

  lemma {:induction false} DescriptorsOnly(values: seq<Ref>, owner: nat, ps: seq<Property>)
    ensures forall i :: 0 <= i < |PrintProperties(values, owner, ps)| ==>
      PrintProperties(values, owner, ps)[i].DescriptorRecord?
  {
    if ps != [] { DescriptorsOnly(values, owner, ps[..|ps| - 1]); }
  }

  lemma {:induction false} NodeBlock(values: seq<Ref>, callbacks: seq<nat>, id: nat, n: Node)
    ensures Block(PrintNode(values, callbacks, id, n))
  {
    if n.Object? { DescriptorsOnly(values, id, n.properties); }
  }

  lemma {:induction false} BlocksSplit(a: seq<Record>, b: seq<Record>, c: seq<Record>, d: seq<Record>)
    requires Block(b) && Block(d) && a + b == c + d
    ensures a == c && b == d
  {
    assert HeadAt(a + b, |a|) && HeadAt(c + d, |c|);
    assert |a| < |c| ==> !HeadAt(a + b, |c|);
    assert |c| < |a| ==> !HeadAt(c + d, |a|);
    assert (a + b)[..|a|] == a && (c + d)[..|c|] == c;
    assert (a + b)[|a|..] == b && (c + d)[|c|..] == d;
  }

  ghost predicate PrintedAlikeAt(s: seq<Ref>, c: seq<nat>, n: Node, t: seq<Ref>, d: seq<nat>, m: Node, id: nat) {
    PrintNode(s, c, id, n) == PrintNode(t, d, id, m)
  }

  /** Equally many nodes, printed alike one by one. */
  ghost predicate PrintedAlike(
    s: seq<Ref>, c: seq<nat>, left: seq<Node>, t: seq<Ref>, d: seq<nat>, right: seq<Node>)
  {
    && |left| == |right|
    && forall i :: 0 <= i < |left| ==> PrintedAlikeAt(s, c, left[i], t, d, right[i], i)
  }

  lemma {:induction false} NodesPrint(values: seq<Ref>, callbacks: seq<nat>, nodes: seq<Node>)
    ensures PrintNodes(values, callbacks, nodes) == [] <==> nodes == []
  {
    if nodes != [] { NodeBlock(values, callbacks, |nodes| - 1, nodes[|nodes| - 1]); }
  }

  lemma {:induction false} NodesApartLast(s: seq<Ref>, c: seq<nat>, left: seq<Node>, t: seq<Ref>, d: seq<nat>,
                                          right: seq<Node>)
    requires left != [] && right != [] && PrintNodes(s, c, left) == PrintNodes(t, d, right)
    ensures PrintNodes(s, c, left[..|left| - 1]) == PrintNodes(t, d, right[..|right| - 1])
    ensures PrintNode(s, c, |left| - 1, left[|left| - 1]) == PrintNode(t, d, |right| - 1, right[|right| - 1])
  {
    var i, j := |left| - 1, |right| - 1;
    NodeBlock(s, c, i, left[i]);
    NodeBlock(t, d, j, right[j]);
    BlocksSplit(PrintNodes(s, c, left[..i]), PrintNode(s, c, i, left[i]),
                PrintNodes(t, d, right[..j]), PrintNode(t, d, j, right[j]));
  }

  lemma {:induction false} AlikeLast(s: seq<Ref>, c: seq<nat>, left: seq<Node>, t: seq<Ref>, d: seq<nat>,
                                     right: seq<Node>)
    requires left != [] && right != []
    requires PrintedAlike(s, c, left[..|left| - 1], t, d, right[..|right| - 1])
    requires PrintNode(s, c, |left| - 1, left[|left| - 1]) == PrintNode(t, d, |right| - 1, right[|right| - 1])
    ensures PrintedAlike(s, c, left, t, d, right)
  {
    var front, back := left[..|left| - 1], right[..|right| - 1];
    forall i | 0 <= i < |left| ensures PrintedAlikeAt(s, c, left[i], t, d, right[i], i) {
      if i < |front| {
        assert PrintedAlikeAt(s, c, front[i], t, d, back[i], i);
      }
    }
  }

  lemma {:induction false} NodesApart(
    s: seq<Ref>, c: seq<nat>, left: seq<Node>, t: seq<Ref>, d: seq<nat>, right: seq<Node>)
    requires PrintNodes(s, c, left) == PrintNodes(t, d, right)
    ensures PrintedAlike(s, c, left, t, d, right)
  {
    NodesPrint(s, c, left);
    NodesPrint(t, d, right);
    if left != [] && right != [] {
      NodesApartLast(s, c, left, t, d, right);
      NodesApart(s, c, left[..|left| - 1], t, d, right[..|right| - 1]);
      AlikeLast(s, c, left, t, d, right);
    }
  }

  lemma {:induction false} RootsOnly(values: seq<Ref>, roots: seq<Root>)
    ensures forall i :: 0 <= i < |PrintRoots(values, roots)| ==> PrintRoots(values, roots)[i].RootRecord?
  {
    if roots != [] { RootsOnly(values, roots[..|roots| - 1]); }
  }

  lemma {:induction false} NodesOnly(values: seq<Ref>, callbacks: seq<nat>, nodes: seq<Node>)
    ensures forall i :: 0 <= i < |PrintNodes(values, callbacks, nodes)| ==>
      !PrintNodes(values, callbacks, nodes)[i].RootRecord?
  {
    if nodes != [] {
      NodesOnly(values, callbacks, nodes[..|nodes| - 1]);
      NodeBlock(values, callbacks, |nodes| - 1, nodes[|nodes| - 1]);
    }
  }

  lemma {:induction false} PartsSplit(a: seq<Record>, b: seq<Record>, c: seq<Record>, d: seq<Record>)
    requires forall i :: 0 <= i < |a| ==> a[i].RootRecord?
    requires forall i :: 0 <= i < |c| ==> c[i].RootRecord?
    requires forall i :: 0 <= i < |b| ==> !b[i].RootRecord?
    requires forall i :: 0 <= i < |d| ==> !d[i].RootRecord?
    requires a + b == c + d
    ensures a == c && b == d
  {
    assert !RootAt(a + b, |a|) && !RootAt(c + d, |c|);
    assert |a| < |c| ==> RootAt(c + d, |a|);
    assert |c| < |a| ==> RootAt(a + b, |c|);
    assert (a + b)[..|a|] == a && (c + d)[..|c|] == c;
    assert (a + b)[|a|..] == b && (c + d)[|c|..] == d;
  }

  lemma {:induction false} RecordsApart(left: Heap, leftRoots: seq<Root>, right: Heap, rightRoots: seq<Root>)
    requires Records(left, leftRoots) == Records(right, rightRoots)
    ensures PrintRoots(Order(left, leftRoots), leftRoots) == PrintRoots(Order(right, rightRoots), rightRoots)
    ensures PrintedAlike(
      Order(left, leftRoots), Callbacks(left, leftRoots), NodesAt(left, Order(left, leftRoots)),
      Order(right, rightRoots), Callbacks(right, rightRoots), NodesAt(right, Order(right, rightRoots)))
  {
    var s, c, t, d :=
      Order(left, leftRoots), Callbacks(left, leftRoots), Order(right, rightRoots), Callbacks(right, rightRoots);
    RootsOnly(s, leftRoots);
    RootsOnly(t, rightRoots);
    NodesOnly(s, c, NodesAt(left, s));
    NodesOnly(t, d, NodesAt(right, t));
    PartsSplit(PrintRoots(s, leftRoots), PrintNodes(s, c, NodesAt(left, s)),
               PrintRoots(t, rightRoots), PrintNodes(t, d, NodesAt(right, t)));
    NodesApart(s, c, NodesAt(left, s), t, d, NodesAt(right, t));
  }

  lemma {:induction false} MatchingInjective(s: seq<Ref>, t: seq<Ref>)
    requires |s| == |t| && Distinct(s) && Distinct(t)
    ensures Injective(Matching(s, t))
    ensures forall i :: 0 <= i < |s| ==> s[i] in Matching(s, t) && Matching(s, t)[s[i]] == t[i]
  {
    forall i | 0 <= i < |s| ensures IndexOf(s, s[i]) == i {
    }
  }

  lemma {:induction false} PrintAlikeIsomorphic(left: Heap, leftRoots: seq<Root>, right: Heap, rightRoots: seq<Root>)
    requires Sound(left, leftRoots) && Sound(right, rightRoots)
    requires Records(left, leftRoots) == Records(right, rightRoots)
    ensures |Order(left, leftRoots)| == |Order(right, rightRoots)|
    ensures Isomorphism(Matching(Order(left, leftRoots), Order(right, rightRoots)), left, leftRoots, right, rightRoots)
  {
    var s, t := Order(left, leftRoots), Order(right, rightRoots);
    RecordsApart(left, leftRoots, right, rightRoots);
    NodesAtAt(left, s);
    NodesAtAt(right, t);
    OrderAt(left, leftRoots);
    OrderAt(right, rightRoots);
    MatchingInjective(s, t);
    RootsFound(left, leftRoots);
    RootsFound(right, rightRoots);
    RootsBack(s, t, leftRoots, rightRoots);
    var f := Matching(s, t);
    forall r | r in f ensures Carries(f, left, right, r) {
      var i := IndexOf(s, r);
      assert t[i] in t;
      RefsFound(left, leftRoots, r);
      RefsFound(right, rightRoots, t[i]);
      assert PrintedAlikeAt(s, Callbacks(left, leftRoots), NodesAt(left, s)[i],
                            t, Callbacks(right, rightRoots), NodesAt(right, t)[i], i);
      NodeBack(s, t, Callbacks(left, leftRoots), Callbacks(right, rightRoots), i, left[r], right[t[i]]);
    }
  }

  /** Two object graphs print the same inventory exactly when some one-to-one renaming of
      identities carries the roots and everything they reach from one to the other. */
  lemma {:induction false} SameInventoryIffIsomorphic(left: Heap, leftRoots: seq<Root>, right: Heap,
                                                      rightRoots: seq<Root>)
    requires Sound(left, leftRoots) && Sound(right, rightRoots)
    ensures Records(left, leftRoots) == Records(right, rightRoots)
       <==> exists f :: Isomorphism(f, left, leftRoots, right, rightRoots)
  {
    if Records(left, leftRoots) == Records(right, rightRoots) {
      PrintAlikeIsomorphic(left, leftRoots, right, rightRoots);
    }
    if f :| Isomorphism(f, left, leftRoots, right, rightRoots) {
      IsomorphicPrintAlike(f, left, leftRoots, right, rightRoots);
    }
  }
}
