/** The primordial object inventory (runtime/primordial_inventory_test_main.c): every
    object and symbol reachable from the roots is numbered when first met and printed
    once, with its prototype and property descriptors, by a loop over a list that grows
    while the loop runs. */
module PrimordialInventory {
  import opened Numbering
  import opened Optional

  type Ref = nat

  /** An object or symbol by identity, or a primitive by what is printed for it. */
  datatype Value = Reference(ref: Ref) | Primitive(text: string)
  datatype Key = StringKey(name: string) | SymbolKey(symbol: Ref)
  datatype Descriptor = Data(value: Value) | Accessor(getter: Value, setter: Value)
  datatype Property = Property(key: Key, flags: nat, descriptor: Descriptor)

  /** The implementation of a native function object. */
  datatype Native = Native(callback: nat, constructable: bool, slots: int)

  datatype Node =
    | Symbol(description: Option<string>)
    | Object(locked: bool, prototype: Value, native: Option<Native>, properties: seq<Property>)

  type Heap = map<Ref, Node>

  datatype Root = Root(name: string, value: Value)

  // ------------------------------------------------------------- printed records

  datatype Printed = Number(id: nat) | Text(text: string)
  datatype PrintedKey = Named(name: string) | SymbolNumber(id: nat)
  datatype PrintedDescriptor = PrintedData(value: Printed) | PrintedAccessor(getter: Printed, setter: Printed)
  datatype PrintedNative = PrintedNative(implementation: nat, callback: nat, constructable: bool, slots: int)

  datatype Record =
    | RootRecord(name: string, value: Printed)
    | SymbolRecord(id: nat, description: Option<string>)
    | ObjectRecord(id: nat, locked: bool, prototype: Printed, native: Option<PrintedNative>)
    | DescriptorRecord(owner: nat, key: PrintedKey, flags: nat, descriptor: PrintedDescriptor)

  // -------------------------------------------------------- what a node refers to

  function ValueRefs(v: Value): seq<Ref> { if v.Reference? then [v.ref] else [] }

  function KeyRefs(k: Key): seq<Ref> { if k.SymbolKey? then [k.symbol] else [] }

  function DescriptorRefs(d: Descriptor): seq<Ref> {
    match d
    case Data(value) => ValueRefs(value)
    case Accessor(getter, setter) => ValueRefs(getter) + ValueRefs(setter)
  }

  function PropertyRefs(p: Property): seq<Ref> { KeyRefs(p.key) + DescriptorRefs(p.descriptor) }

  function PropertiesRefs(ps: seq<Property>): seq<Ref> {
    if ps == [] then [] else PropertiesRefs(ps[..|ps| - 1]) + PropertyRefs(ps[|ps| - 1])
  }

  /** In the order they are printed. */
  function NodeRefs(n: Node): seq<Ref> {
    match n
    case Symbol(_) => []
    case Object(_, prototype, _, properties) => ValueRefs(prototype) + PropertiesRefs(properties)
  }

  function NativeCallbacks(n: Option<Native>): seq<nat> {
    if n.Some? then [n.value.callback] else []
  }

  function NodeCallbacks(n: Node): seq<nat> {
    if n.Object? then NativeCallbacks(n.native) else []
  }

  function NodesRefs(nodes: seq<Node>): seq<Ref> {
    if nodes == [] then [] else NodesRefs(nodes[..|nodes| - 1]) + NodeRefs(nodes[|nodes| - 1])
  }

  function NodesCallbacks(nodes: seq<Node>): seq<nat> {
    if nodes == [] then [] else NodesCallbacks(nodes[..|nodes| - 1]) + NodeCallbacks(nodes[|nodes| - 1])
  }

  function RootRefs(roots: seq<Root>): seq<Ref> {
    if roots == [] then [] else RootRefs(roots[..|roots| - 1]) + ValueRefs(roots[|roots| - 1].value)
  }

  /** Every reference leads to a node. */
  ghost predicate Sound(heap: Heap, roots: seq<Root>) {
    && (forall r :: r in RootRefs(roots) ==> r in heap)
    && (forall n, r :: n in heap && r in NodeRefs(heap[n]) ==> r in heap)
  }

  // ------------------------------------------------- printing with given numbers

  function PrintValue(values: seq<Ref>, v: Value): Printed {
    match v
    case Reference(ref) => Number(IndexOf(values, ref))
    case Primitive(text) => Text(text)
  }

  function PrintKey(values: seq<Ref>, k: Key): PrintedKey {
    match k
    case StringKey(name) => Named(name)
    case SymbolKey(symbol) => SymbolNumber(IndexOf(values, symbol))
  }

  function PrintDescriptor(values: seq<Ref>, d: Descriptor): PrintedDescriptor {
    match d
    case Data(value) => PrintedData(PrintValue(values, value))
    case Accessor(getter, setter) => PrintedAccessor(PrintValue(values, getter), PrintValue(values, setter))
  }

  function PrintProperty(values: seq<Ref>, owner: nat, p: Property): Record {
    DescriptorRecord(owner, PrintKey(values, p.key), p.flags, PrintDescriptor(values, p.descriptor))
  }

  function PrintProperties(values: seq<Ref>, owner: nat, ps: seq<Property>): seq<Record> {
    if ps == [] then []
    else PrintProperties(values, owner, ps[..|ps| - 1]) + [PrintProperty(values, owner, ps[|ps| - 1])]
  }

  function PrintNative(callbacks: seq<nat>, n: Option<Native>): Option<PrintedNative> {
    match n
    case None => None
    case Some(f) => Some(PrintedNative(IndexOf(callbacks, f.callback), f.callback, f.constructable, f.slots))
  }

  function PrintNode(values: seq<Ref>, callbacks: seq<nat>, id: nat, n: Node): seq<Record> {
    match n
    case Symbol(description) => [SymbolRecord(id, description)]
    case Object(locked, prototype, native, properties) =>
      [ObjectRecord(id, locked, PrintValue(values, prototype), PrintNative(callbacks, native))]
      + PrintProperties(values, id, properties)
  }

  function PrintRoot(values: seq<Ref>, root: Root): Record {
    RootRecord(root.name, PrintValue(values, root.value))
  }

  function PrintRoots(values: seq<Ref>, roots: seq<Root>): seq<Record> {
    if roots == [] then []
    else PrintRoots(values, roots[..|roots| - 1]) + [PrintRoot(values, roots[|roots| - 1])]
  }

  /** The records of the numbered nodes, the first having number 0. */
  function PrintNodes(values: seq<Ref>, callbacks: seq<nat>, nodes: seq<Node>): seq<Record> {
    if nodes == [] then [] else
      var last := |nodes| - 1;
      PrintNodes(values, callbacks, nodes[..last]) + PrintNode(values, callbacks, last, nodes[last])
  }

  // Numbers, once given, do not change as the lists grow.

  lemma {:induction false} ValueStable(values: seq<Ref>, more: seq<Ref>, v: Value)
    requires values <= more && Known(values, ValueRefs(v))
    ensures PrintValue(more, v) == PrintValue(values, v)
  {
    if v.Reference? {
      assert v.ref in ValueRefs(v);
      IndexInPrefix(values, more, v.ref);
    }
  }

  lemma {:induction false} KeyStable(values: seq<Ref>, more: seq<Ref>, k: Key)
    requires values <= more && Known(values, KeyRefs(k))
    ensures PrintKey(more, k) == PrintKey(values, k)
  {
    if k.SymbolKey? {
      assert k.symbol in KeyRefs(k);
      IndexInPrefix(values, more, k.symbol);
    }
  }

  lemma {:induction false} PropertyStable(values: seq<Ref>, more: seq<Ref>, owner: nat, p: Property)
    requires values <= more && Known(values, PropertyRefs(p))
    ensures PrintProperty(more, owner, p) == PrintProperty(values, owner, p)
  {
    KeyStable(values, more, p.key);
    match p.descriptor
    case Data(value) => ValueStable(values, more, value);
    case Accessor(getter, setter) =>
      ValueStable(values, more, getter);
      ValueStable(values, more, setter);
  }

  lemma {:induction false} PropertiesStable(values: seq<Ref>, more: seq<Ref>, owner: nat, ps: seq<Property>)
    requires values <= more && Known(values, PropertiesRefs(ps))
    ensures PrintProperties(more, owner, ps) == PrintProperties(values, owner, ps)
  {
    if ps != [] {
      PropertiesStable(values, more, owner, ps[..|ps| - 1]);
      PropertyStable(values, more, owner, ps[|ps| - 1]);
    }
  }

  lemma {:induction false} RootsStable(values: seq<Ref>, more: seq<Ref>, roots: seq<Root>)
    requires values <= more && Known(values, RootRefs(roots))
    ensures PrintRoots(more, roots) == PrintRoots(values, roots)
  {
    if roots != [] {
      RootsStable(values, more, roots[..|roots| - 1]);
      ValueStable(values, more, roots[|roots| - 1].value);
    }
  }

  lemma {:induction false} NodeStable(values: seq<Ref>, more: seq<Ref>, callbacks: seq<nat>, moreCallbacks: seq<nat>,
                                      id: nat, n: Node)
    requires values <= more && Known(values, NodeRefs(n))
    requires callbacks <= moreCallbacks && Known(callbacks, NodeCallbacks(n))
    ensures PrintNode(more, moreCallbacks, id, n) == PrintNode(values, callbacks, id, n)
  {
    if n.Object? {
      ValueStable(values, more, n.prototype);
      PropertiesStable(values, more, id, n.properties);
      if n.native.Some? {
        assert n.native.value.callback in NodeCallbacks(n);
        IndexInPrefix(callbacks, moreCallbacks, n.native.value.callback);
      }
    }
  }

  lemma {:induction false} NodesStable(
    values: seq<Ref>, more: seq<Ref>, callbacks: seq<nat>, moreCallbacks: seq<nat>, nodes: seq<Node>)
    requires values <= more && Known(values, NodesRefs(nodes))
    requires callbacks <= moreCallbacks && Known(callbacks, NodesCallbacks(nodes))
    ensures PrintNodes(more, moreCallbacks, nodes) == PrintNodes(values, callbacks, nodes)
  {
    if nodes != [] {
      NodesStable(values, more, callbacks, moreCallbacks, nodes[..|nodes| - 1]);
      NodeStable(values, more, callbacks, moreCallbacks, |nodes| - 1, nodes[|nodes| - 1]);
    }
  }

  // ------------------------------------------------------------------ the program

  lemma {:induction false} PropertiesNext(start: seq<Ref>, before: seq<Ref>, after: seq<Ref>, owner: nat,
                                          done: seq<Property>, p: Property)
    requires before == AddAll(start, PropertiesRefs(done))
    requires after == AddAll(before, PropertyRefs(p))
    ensures after == AddAll(start, PropertiesRefs(done + [p]))
    ensures PrintProperties(after, owner, done + [p])
         == PrintProperties(before, owner, done) + [PrintProperty(after, owner, p)]
  {
    assert (done + [p])[..|done|] == done;
    Numbered(start, PropertiesRefs(done), PropertyRefs(p));
    PropertiesStable(before, after, owner, done);
  }

  lemma {:induction false} RootsNext(start: seq<Ref>, before: seq<Ref>, after: seq<Ref>, done: seq<Root>, root: Root)
    requires before == AddAll(start, RootRefs(done))
    requires after == AddAll(before, ValueRefs(root.value))
    ensures after == AddAll(start, RootRefs(done + [root]))
    ensures PrintRoots(after, done + [root]) == PrintRoots(before, done) + [PrintRoot(after, root)]
  {
    assert (done + [root])[..|done|] == done;
    Numbered(start, RootRefs(done), ValueRefs(root.value));
    RootsStable(before, after, done);
  }

  lemma {:induction false} ObjectNumbered(start: seq<Ref>, before: seq<Ref>, after: seq<Ref>, n: Node)
    requires n.Object?
    requires before == AddAll(start, ValueRefs(n.prototype))
    requires after == AddAll(before, PropertiesRefs(n.properties))
    ensures after == AddAll(start, NodeRefs(n))
    ensures PrintValue(after, n.prototype) == PrintValue(before, n.prototype)
  {
    Numbered(start, ValueRefs(n.prototype), PropertiesRefs(n.properties));
    ValueStable(before, after, n.prototype);
  }

  class Inventory {
    var values: seq<Ref>
    var callbacks: seq<nat>
    var output: seq<Record>

    constructor ()
      ensures values == [] && callbacks == [] && output == []
    {
      values, callbacks, output := [], [], [];
    }

    method Identity(ref: Ref) returns (id: nat)
      modifies `values
      ensures values == Add(old(values), ref)
      ensures id == IndexOf(values, ref) && id < |values|
    {
      id := 0;
      while id < |values|
        invariant id <= |values| && values == old(values)
        invariant ref !in values[..id]
      {
        if values[id] == ref {
          FirstIs(values, id);
          return;
        }
        assert values[..id + 1] == values[..id] + [values[id]];
        id := id + 1;
      }
      assert values[..id] == values;
      values := values + [ref];
      assert values[id] == ref;
      FirstIs(values, id);
    }

    method Value(v: Value) returns (p: Printed)
      modifies `values
      ensures values == AddAll(old(values), ValueRefs(v))
      ensures p == PrintValue(values, v)
    {
      match v
      case Primitive(text) => p := Text(text);
      case Reference(ref) =>
        AddAllOne(values, ref);
        var id := Identity(ref);
        p := Number(id);
    }

    method KeyOf(k: Key) returns (p: PrintedKey)
      modifies `values
      ensures values == AddAll(old(values), KeyRefs(k))
      ensures p == PrintKey(values, k)
    {
      match k
      case StringKey(name) => p := Named(name);
      case SymbolKey(symbol) =>
        AddAllOne(values, symbol);
        var id := Identity(symbol);
        p := SymbolNumber(id);
    }

    method DescriptorOf(d: Descriptor) returns (p: PrintedDescriptor)
      modifies `values
      ensures values == AddAll(old(values), DescriptorRefs(d))
      ensures p == PrintDescriptor(values, d)
    {
      match d
      case Data(value) =>
        var text := Value(value);
        p := PrintedData(text);
      case Accessor(getter, setter) =>
        var get := Value(getter);
        ghost var mid := values;
        KnownAfter(old(values), ValueRefs(getter));
        var set_ := Value(setter);
        KnownAfter(mid, ValueRefs(setter));
        ValueStable(mid, values, getter);
        AddAllAppend(old(values), ValueRefs(getter), ValueRefs(setter));
        p := PrintedAccessor(get, set_);
    }

    method OneProperty(owner: nat, p: Property)
      modifies `values, `output
      ensures values == AddAll(old(values), PropertyRefs(p))
      ensures output == old(output) + [PrintProperty(values, owner, p)]
    {
      var key := KeyOf(p.key);
      ghost var mid := values;
      KnownAfter(old(values), KeyRefs(p.key));
      var descriptor := DescriptorOf(p.descriptor);
      KnownAfter(mid, DescriptorRefs(p.descriptor));
      KeyStable(mid, values, p.key);
      AddAllAppend(old(values), KeyRefs(p.key), DescriptorRefs(p.descriptor));
      output := output + [DescriptorRecord(owner, key, p.flags, descriptor)];
    }

    method Properties(owner: nat, ps: seq<Property>)
      modifies `values, `output
      ensures values == AddAll(old(values), PropertiesRefs(ps))
      ensures output == old(output) + PrintProperties(values, owner, ps)
    {
      var i := 0;
      ghost var done := ps[..0];
      while i < |ps|
        invariant i <= |ps| && done == ps[..i]
        invariant values == AddAll(old(values), PropertiesRefs(done))
        invariant output == old(output) + PrintProperties(values, owner, done)
      {
        ghost var before := values;
        OneProperty(owner, ps[i]);
        PropertiesNext(old(values), before, values, owner, done, ps[i]);
        Assoc(old(output), PrintProperties(before, owner, done), [PrintProperty(values, owner, ps[i])]);
        done := done + [ps[i]];
        i := i + 1;
      }
      assert done == ps;
    }

    method Implementation(native: Option<Native>) returns (p: Option<PrintedNative>)
      modifies `callbacks
      ensures callbacks == AddAll(old(callbacks), NativeCallbacks(native))
      ensures p == PrintNative(callbacks, native)
    {
      if native.None? { return None; }
      var callback := native.value.callback;
      var i := 0;
      while i < |callbacks| && callbacks[i] != callback
        invariant i <= |callbacks| && callback !in callbacks[..i]
      {
        assert callbacks[..i + 1] == callbacks[..i] + [callbacks[i]];
        i := i + 1;
      }
      if i == |callbacks| {
        assert callbacks[..i] == callbacks;
        callbacks := callbacks + [callback];
      }
      FirstIs(callbacks, i);
      AddAllOne(old(callbacks), callback);
      p := Some(PrintedNative(i, callback, native.value.constructable, native.value.slots));
    }

    method Node(heap: Heap, id: nat)
      requires id < |values| && values[id] in heap
      modifies this
      ensures var n := heap[old(values)[id]];
              && values == AddAll(old(values), NodeRefs(n))
              && callbacks == AddAll(old(callbacks), NodeCallbacks(n))
              && output == old(output) + PrintNode(values, callbacks, id, n)
    {
      var n := heap[values[id]];
      if n.Symbol? {
        output := output + [SymbolRecord(id, n.description)];
        return;
      }
      var prototype := Value(n.prototype);
      ghost var mid := values;
      var native := Implementation(n.native);
      output := output + [ObjectRecord(id, n.locked, prototype, native)];
      Properties(id, n.properties);
      ObjectNumbered(old(values), mid, values, n);
      Assoc(old(output), [ObjectRecord(id, n.locked, prototype, native)], PrintProperties(values, id, n.properties));
    }

    method Roots(roots: seq<Root>)
      modifies `values, `output
      ensures values == AddAll(old(values), RootRefs(roots))
      ensures output == old(output) + PrintRoots(values, roots)
    {
      var i := 0;
      assert roots[..0] == [];
      while i < |roots|
        invariant i <= |roots|
        invariant values == AddAll(old(values), RootRefs(roots[..i]))
        invariant output == old(output) + PrintRoots(values, roots[..i])
      {
        ghost var before := values;
        var p := Value(roots[i].value);
        output := output + [RootRecord(roots[i].name, p)];
        assert roots[..i + 1] == roots[..i] + [roots[i]];
        RootsNext(old(values), before, values, roots[..i], roots[i]);
        Assoc(old(output), PrintRoots(before, roots[..i]), [PrintRoot(values, roots[i])]);
        i := i + 1;
      }
      assert roots[..i] == roots;
    }
  }
}
