/** Every number printed in the inventory is the number of a node printed in it. */
module PrimordialReferences {
  import opened Numbering
  import opened PrimordialGraph
  import opened PrimordialInventory

  /** The numbers of the nodes printed, in order. */
  function Headers(records: seq<Record>): seq<nat> {
    if records == [] then [] else
      var front, r := Headers(records[..|records| - 1]), records[|records| - 1];
      if r.SymbolRecord? || r.ObjectRecord? then front + [r.id] else front
  }

  predicate Below(p: Printed, n: nat) { p.Number? ==> p.id < n }

  /** All numbers a record mentions are below `n`. */
  predicate Refers(r: Record, n: nat) {
    match r
    case RootRecord(_, value) => Below(value, n)
    case SymbolRecord(id, _) => id < n
    case ObjectRecord(id, _, prototype, _) => id < n && Below(prototype, n)
    case DescriptorRecord(owner, key, _, descriptor) =>
      && owner < n && (key.SymbolNumber? ==> key.id < n)
      && match descriptor
         case PrintedData(value) => Below(value, n)
         case PrintedAccessor(getter, setter) => Below(getter, n) && Below(setter, n)
  }

  ghost predicate AllRefer(records: seq<Record>, n: nat) { forall r :: r in records ==> Refers(r, n) }

  function UpTo(n: nat): (s: seq<nat>)
    ensures |s| == n && forall i :: 0 <= i < n ==> s[i] == i
  {
    if n == 0 then [] else UpTo(n - 1) + [n - 1]
  }

  lemma {:induction false} HeadersAppend(a: seq<Record>, b: seq<Record>)
    ensures Headers(a + b) == Headers(a) + Headers(b)
  {
    if b == [] {
      assert a + b == a;
    } else {
      HeadersAppend(a, b[..|b| - 1]);
      assert (a + b)[..|a + b| - 1] == a + b[..|b| - 1];
    }
  }

  lemma {:induction false} ValueBelow(values: seq<Ref>, v: Value)
    requires Known(values, ValueRefs(v))
    ensures Below(PrintValue(values, v), |values|)
  {
    if v.Reference? { assert v.ref in ValueRefs(v); }
  }

  lemma {:induction false} PropertyRefers(values: seq<Ref>, owner: nat, p: Property)
    requires Known(values, PropertyRefs(p)) && owner < |values|
    ensures Refers(PrintProperty(values, owner, p), |values|)
  {
    if p.key.SymbolKey? { assert p.key.symbol in PropertyRefs(p); }
    match p.descriptor
    case Data(value) => ValueBelow(values, value);
    case Accessor(getter, setter) =>
      ValueBelow(values, getter);
      ValueBelow(values, setter);
  }

  lemma {:induction false} PropertiesRefer(values: seq<Ref>, owner: nat, ps: seq<Property>)
    requires Known(values, PropertiesRefs(ps)) && owner < |values|
    ensures AllRefer(PrintProperties(values, owner, ps), |values|)
    ensures Headers(PrintProperties(values, owner, ps)) == []
  {
    if ps != [] {
      var front, p := ps[..|ps| - 1], ps[|ps| - 1];
      PropertiesRefer(values, owner, front);
      PropertyRefers(values, owner, p);
      var printed := PrintProperties(values, owner, front);
      assert (printed + [PrintProperty(values, owner, p)])[..|printed|] == printed;
    }
  }

  lemma {:induction false} RootsRefer(values: seq<Ref>, roots: seq<Root>)
    requires Known(values, RootRefs(roots))
    ensures AllRefer(PrintRoots(values, roots), |values|)
    ensures Headers(PrintRoots(values, roots)) == []
  {
    if roots != [] {
      var front, root := roots[..|roots| - 1], roots[|roots| - 1];
      RootsRefer(values, front);
      ValueBelow(values, root.value);
      var printed := PrintRoots(values, front);
      assert (printed + [PrintRoot(values, root)])[..|printed|] == printed;
    }
  }

  lemma {:induction false} NodeRefers(values: seq<Ref>, callbacks: seq<nat>, id: nat, n: Node)
    requires Known(values, NodeRefs(n)) && id < |values|
    ensures AllRefer(PrintNode(values, callbacks, id, n), |values|)
    ensures Headers(PrintNode(values, callbacks, id, n)) == [id]
  {
    match n
    case Symbol(description) =>
      OneHeader(SymbolRecord(id, description));
    case Object(locked, prototype, native, properties) =>
      var head := ObjectRecord(id, locked, PrintValue(values, prototype), PrintNative(callbacks, native));
      ValueBelow(values, prototype);
      PropertiesRefer(values, id, properties);
      OneHeader(head);
      HeadersAppend([head], PrintProperties(values, id, properties));
  }

  lemma {:induction false} OneHeader(r: Record)
    requires r.SymbolRecord? || r.ObjectRecord?
    ensures Headers([r]) == [r.id]
  {
    assert [r][..0] == [];
    assert Headers([]) == [];
  }

  lemma {:induction false} NodesRefer(values: seq<Ref>, callbacks: seq<nat>, nodes: seq<Node>)
    requires |nodes| <= |values| && forall n :: n in nodes ==> Known(values, NodeRefs(n))
    ensures AllRefer(PrintNodes(values, callbacks, nodes), |values|)
    ensures Headers(PrintNodes(values, callbacks, nodes)) == UpTo(|nodes|)
  {
    if nodes != [] {
      var last := |nodes| - 1;
      assert nodes[last] in nodes;
      NodesRefer(values, callbacks, nodes[..last]);
      NodeRefers(values, callbacks, last, nodes[last]);
      HeadersAppend(PrintNodes(values, callbacks, nodes[..last]), PrintNode(values, callbacks, last, nodes[last]));
    }
  }

  lemma {:induction false} NodesOf(heap: Heap, refs: seq<Ref>)
    ensures |NodesAt(heap, refs)| == |refs|
    ensures forall n :: n in NodesAt(heap, refs) ==> exists r :: r in refs && n == NodeAt(heap, r)
  {
    if refs != [] {
      NodesOf(heap, refs[..|refs| - 1]);
      assert refs[|refs| - 1] in refs;
    }
  }

  /** The nodes printed are numbered 0, 1, 2 and so on, each once, and every root, owner,
      prototype, value, accessor and symbol key printed is one of those numbers. */
  lemma {:induction false} EveryNumberHasItsNode(heap: Heap, roots: seq<Root>)
    requires Sound(heap, roots)
    ensures Headers(Records(heap, roots)) == UpTo(|Order(heap, roots)|)
    ensures AllRefer(Records(heap, roots), |Headers(Records(heap, roots))|)
  {
    var order := Order(heap, roots);
    var nodes := NodesAt(heap, order);
    RootsFound(heap, roots);
    RootsRefer(order, roots);
    NodesOf(heap, order);
    forall n | n in nodes ensures Known(order, NodeRefs(n)) {
      var r :| r in order && n == NodeAt(heap, r);
      RefsFound(heap, roots, r);
    }
    NodesRefer(order, Callbacks(heap, roots), nodes);
    HeadersAppend(PrintRoots(order, roots), PrintNodes(order, Callbacks(heap, roots), nodes));
  }
}
