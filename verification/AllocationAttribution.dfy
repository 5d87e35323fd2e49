/** The sampled-allocation summary of scripts/compiler-profile-summary.ts: a walk over the
    profile tree that charges allocated bytes inside `optimizeCore` to the allocating frame
    and to the nearest repository frame above it. */
module AllocationAttribution {
  import opened Decimals
  import opened Numbering
  import opened Optional
  import opened Sorting

  const OPTIMIZE := "optimizeCore"
  const LISTED := 20
  const NUL := '\0'

  datatype Frame = Frame(functionName: string, url: string, lineNumber: int)
  datatype Node = Node(frame: Frame, selfSize: int, children: seq<Node>)
  datatype Hotspot = Hotspot(name: string, source: string, line: int, weight: int)
  datatype Sums = Sums(bytes: int, optimizeBytes: int, attributedBytes: int)

  /** Bytes charged to a frame. */
  datatype Charge = Charge(frame: Frame, bytes: int)

  // -------------------------------------------------------------------------- keys

  function KeyOf(f: Frame): string {
    f.functionName + [NUL] + f.url + [NUL] + SignedDecimal(f.lineNumber)
  }

  lemma {:induction false} LastNul(a: string, x: string, b: string, y: string)
    requires NUL !in x && NUL !in y && a + [NUL] + x == b + [NUL] + y
    ensures a == b && x == y
  {
    var s := a + [NUL] + x;
    assert s[|a|] == NUL && s[|b|] == NUL;
    assert forall k :: 0 <= k < |x| ==> s[|a| + 1 + k] == x[k];
    assert forall k :: 0 <= k < |y| ==> s[|b| + 1 + k] == y[k];
    assert s[..|a|] == a && s[..|b|] == b && s[|a| + 1..] == x && s[|b| + 1..] == y;
  }

  lemma {:induction false} FirstNul(a: string, x: string, b: string, y: string)
    requires NUL !in a && NUL !in b && a + [NUL] + x == b + [NUL] + y
    ensures |a| == |b|
  {
    var s := a + [NUL] + x;
    assert s[|a|] == NUL && s[|b|] == NUL;
    assert forall k :: 0 <= k < |a| ==> s[k] == a[k];
    assert forall k :: 0 <= k < |b| ==> s[k] == b[k];
  }

  /** Frames with one key are one frame exactly when their function names are equally
      long, as they are when the names hold no NUL. */
  lemma {:induction false} SameKey(f: Frame, g: Frame)
    requires KeyOf(f) == KeyOf(g)
    ensures f == g <==> |f.functionName| == |g.functionName|
    ensures NUL !in f.functionName && NUL !in g.functionName ==> f == g
  {
    SignedDecimalText(f.lineNumber);
    SignedDecimalText(g.lineNumber);
    var p, q := f.functionName + [NUL] + f.url, g.functionName + [NUL] + g.url;
    LastNul(p, SignedDecimal(f.lineNumber), q, SignedDecimal(g.lineNumber));
    SignedDecimalInjective(f.lineNumber, g.lineNumber);
    assert p[..|f.functionName|] == f.functionName && p[|f.functionName| + 1..] == f.url;
    assert q[..|g.functionName|] == g.functionName && q[|g.functionName| + 1..] == g.url;
    if NUL !in f.functionName && NUL !in g.functionName {
      FirstNul(f.functionName, f.url, g.functionName, g.url);
    }
  }

  /** A NUL in a name can make two frames share one weight. */
  lemma {:induction false} KeysCollide()
    ensures exists f, g :: f != g && KeyOf(f) == KeyOf(g)
  {
    var f := Frame(['a', NUL, 'b'], "c", 1);
    var g := Frame("a", ['b', NUL, 'c'], 1);
    assert KeyOf(f) == KeyOf(g) && f != g;
  }

  // ----------------------------------------------------------------------- charges

  function ChargeBytes(c: Charge): int { c.bytes }
  function ChargeKey(c: Charge): string { KeyOf(c.frame) }

  function Keyed(key: string): Charge -> bool { (c: Charge) => KeyOf(c.frame) == key }

  /** What has been charged under a key. */
  function Weight(charges: seq<Charge>, key: string): int { Sum(Filter(charges, Keyed(key)), ChargeBytes) }

  function WeightIn(charges: seq<Charge>): string -> int { (key: string) => Weight(charges, key) }

  /** The keys in the order first charged. */
  function KeysOf(charges: seq<Charge>): seq<string> { AddAll([], Map(charges, ChargeKey)) }

  lemma {:induction false} WeightMore(charges: seq<Charge>, c: Charge, key: string)
    ensures Weight(charges + [c], key) == Weight(charges, key) + if KeyOf(c.frame) == key then c.bytes else 0
  {
    FilterAppend(charges, [c], Keyed(key));
    assert [c][1..] == [] && [c][..0] == [];
    assert Filter([c], Keyed(key)) == if KeyOf(c.frame) == key then [c] else [];
    SumAppend(Filter(charges, Keyed(key)), Filter([c], Keyed(key)), ChargeBytes);
  }

  lemma {:induction false} KeysMore(charges: seq<Charge>, c: Charge)
    ensures KeysOf(charges + [c]) == Add(KeysOf(charges), KeyOf(c.frame))
  {
    var keys := Map(charges + [c], ChargeKey);
    assert keys[..|keys| - 1] == Map(charges, ChargeKey);
  }

  lemma {:induction false} KeysFacts(charges: seq<Charge>)
    ensures Distinct(KeysOf(charges))
    ensures forall c :: c in charges ==> KeyOf(c.frame) in KeysOf(charges)
    ensures forall k :: k in KeysOf(charges) ==> exists c :: c in charges && KeyOf(c.frame) == k
  {
    var keys := Map(charges, ChargeKey);
    AddAllFacts([], keys);
    forall c | c in charges ensures KeyOf(c.frame) in keys {
      var i :| 0 <= i < |charges| && charges[i] == c;
      assert keys[i] == KeyOf(c.frame);
    }
    forall k | k in keys ensures exists c :: c in charges && KeyOf(c.frame) == k {
      var i :| 0 <= i < |keys| && keys[i] == k;
      assert charges[i] in charges;
    }
  }

  /** Raising one key by an amount raises the sum by that amount. */
  lemma {:induction false} SumRaised(keys: seq<string>, f: string -> int, g: string -> int, key: string, extra: int)
    requires Distinct(keys)
    requires forall k :: k in keys ==> g(k) == f(k) + if k == key then extra else 0
    ensures Sum(keys, g) == Sum(keys, f) + if key in keys then extra else 0
  {
    if keys != [] {
      var front, last := keys[..|keys| - 1], keys[|keys| - 1];
      assert keys == front + [last] && last !in front;
      SumRaised(front, f, g, key, extra);
    }
  }

  lemma {:induction false} UnchargedKey(charges: seq<Charge>, key: string)
    requires key !in KeysOf(charges)
    ensures Weight(charges, key) == 0
  {
    KeysFacts(charges);
    FilterNone(charges, Keyed(key));
  }

  /** The weights under the different keys add up to all that was charged. */
  lemma {:induction false} WeightsAddUp(charges: seq<Charge>)
    ensures Sum(KeysOf(charges), WeightIn(charges)) == Sum(charges, ChargeBytes)
  {
    if charges != [] {
      var front, c := charges[..|charges| - 1], charges[|charges| - 1];
      var keys, key := KeysOf(front), KeyOf(c.frame);
      assert charges == front + [c];
      WeightsAddUp(front);
      KeysMore(front, c);
      WeightsRaised(front, c);
      if key !in keys {
        UnchargedKey(front, key);
        WeightMore(front, c, key);
        assert (keys + [key])[..|keys|] == keys;
      }
    }
  }

  lemma {:induction false} WeightsRaised(charges: seq<Charge>, c: Charge)
    ensures var keys := KeysOf(charges);
      Sum(keys, WeightIn(charges + [c])) == Sum(keys, WeightIn(charges)) + if KeyOf(c.frame) in keys then c.bytes else 0
  {
    KeysFacts(charges);
    forall k ensures Weight(charges + [c], k) == Weight(charges, k) + if k == KeyOf(c.frame) then c.bytes else 0 {
      WeightMore(charges, c, k);
    }
    SumRaised(KeysOf(charges), WeightIn(charges), WeightIn(charges + [c]), KeyOf(c.frame), c.bytes);
  }

  // ------------------------------------------------------------------- tallied maps

  /** The two maps a walk fills, with the order in which their keys were inserted. */
  datatype Tally = Tally(order: seq<string>, weights: map<string, int>, frames: map<string, Frame>)

  const EMPTY := Tally([], map[], map[])

  function Recorded(t: Tally, c: Charge): Tally {
    var key := KeyOf(c.frame);
    Tally(Add(t.order, key),
          t.weights[key := (if key in t.weights then t.weights[key] else 0) + c.bytes],
          t.frames[key := c.frame])
  }

  function RecordAll(t: Tally, charges: seq<Charge>): Tally {
    if charges == [] then t else Recorded(RecordAll(t, charges[..|charges| - 1]), charges[|charges| - 1])
  }

  lemma {:induction false} RecordAppend(t: Tally, a: seq<Charge>, b: seq<Charge>)
    ensures RecordAll(t, a + b) == RecordAll(RecordAll(t, a), b)
  {
    if b == [] {
      assert a + b == a;
    } else {
      RecordAppend(t, a, b[..|b| - 1]);
      assert (a + b)[..|a + b| - 1] == a + b[..|b| - 1];
    }
  }

  ghost predicate TallyKeys(t: Tally, charges: seq<Charge>) {
    && t.order == KeysOf(charges)
    && (forall k :: k in t.order <==> k in t.weights)
    && (forall k :: k in t.order <==> k in t.frames)
  }

  ghost predicate TallyWeights(t: Tally, charges: seq<Charge>) {
    forall k :: k in t.weights ==> t.weights[k] == Weight(charges, k)
  }

  ghost predicate TallyFrames(t: Tally, charges: seq<Charge>) {
    forall k :: k in t.frames ==> KeyOf(t.frames[k]) == k && FrameCharged(charges, t.frames[k])
  }

  ghost predicate FrameCharged(charges: seq<Charge>, f: Frame) { exists c :: c in charges && c.frame == f }

  /** A tally holds each charged key once, with everything charged under it and a frame
      charged under it. */
  ghost predicate Tallies(t: Tally, charges: seq<Charge>) {
    TallyKeys(t, charges) && TallyWeights(t, charges) && TallyFrames(t, charges)
  }

  lemma {:induction false} KeysStep(t: Tally, charges: seq<Charge>, c: Charge)
    requires TallyKeys(t, charges)
    ensures TallyKeys(Recorded(t, c), charges + [c])
  {
    KeysMore(charges, c);
  }

  lemma {:induction false} WeightsStep(t: Tally, charges: seq<Charge>, c: Charge)
    requires TallyKeys(t, charges) && TallyWeights(t, charges)
    ensures TallyWeights(Recorded(t, c), charges + [c])
  {
    var after := Recorded(t, c);
    if KeyOf(c.frame) !in t.order { UnchargedKey(charges, KeyOf(c.frame)); }
    forall k | k in after.weights ensures after.weights[k] == Weight(charges + [c], k) {
      WeightMore(charges, c, k);
    }
  }

  lemma {:induction false} FramesStep(t: Tally, charges: seq<Charge>, c: Charge)
    requires TallyFrames(t, charges)
    ensures TallyFrames(Recorded(t, c), charges + [c])
  {
    var after, more := Recorded(t, c), charges + [c];
    forall k | k in after.frames ensures KeyOf(after.frames[k]) == k && FrameCharged(more, after.frames[k]) {
      if k == KeyOf(c.frame) {
        assert c in more;
      } else {
        var d :| d in charges && d.frame == t.frames[k];
        assert d in more;
      }
    }
  }

  lemma {:induction false} TallyFacts(charges: seq<Charge>)
    ensures Tallies(RecordAll(EMPTY, charges), charges)
  {
    if charges != [] {
      var front, c := charges[..|charges| - 1], charges[|charges| - 1];
      assert charges == front + [c];
      TallyFacts(front);
      var t := RecordAll(EMPTY, front);
      KeysStep(t, front, c);
      WeightsStep(t, front, c);
      FramesStep(t, front, c);
    }
  }

  // -------------------------------------------------------------------------- ranking

  function WeightBy(t: Tally): string -> int { (k: string) => if k in t.weights then t.weights[k] else 0 }

  function HeavierBy(t: Tally): (string, string) -> bool {
    (a: string, b: string) => WeightBy(t)(a) >= WeightBy(t)(b)
  }

  function Ranked(t: Tally): seq<string> { Sort(t.order, HeavierBy(t)) }

  function Listed(t: Tally): seq<string> {
    if |Ranked(t)| <= LISTED then Ranked(t) else Ranked(t)[..LISTED]
  }

  function RowOf(t: Tally): string -> Hotspot {
    (k: string) =>
      if k in t.frames then
        var f := t.frames[k];
        Hotspot(if f.functionName == "" then "(anonymous)" else f.functionName, f.url, f.lineNumber + 1, WeightBy(t)(k))
      else Hotspot("", "", 0, 0)
  }

  function TopHotspots(t: Tally): seq<Hotspot> { Map(Listed(t), RowOf(t)) }

  function HasWeight(t: Tally, w: int): string -> bool { (k: string) => WeightBy(t)(k) == w }

  /** The list is the heaviest keys, heaviest first, up to twenty; a key left out is no
      heavier than one listed, and keys of one weight keep the order first charged. */
  lemma {:induction false} ListedIsHeaviest(t: Tally)
    requires Distinct(t.order)
    ensures |Listed(t)| == if |t.order| <= LISTED then |t.order| else LISTED
    ensures Distinct(Ranked(t)) && Listed(t) <= Ranked(t)
    ensures forall k :: k in Ranked(t) <==> k in t.order
    ensures forall a, b :: a in Listed(t) && b in t.order && b !in Listed(t) ==> WeightBy(t)(a) >= WeightBy(t)(b)
    ensures forall i, j :: 0 <= i < j < |Ranked(t)| ==> WeightBy(t)(Ranked(t)[i]) >= WeightBy(t)(Ranked(t)[j])
    ensures forall w :: Filter(Ranked(t), HasWeight(t, w)) == Filter(t.order, HasWeight(t, w))
  {
    var le := HeavierBy(t);
    assert TotalPreorder(le);
    SortContents(t.order, le);
    SortSorted(t.order, le);
    PermutationDistinct(t.order, Ranked(t));
    forall i, j | 0 <= i < j < |Ranked(t)| ensures WeightBy(t)(Ranked(t)[i]) >= WeightBy(t)(Ranked(t)[j]) {
      assert le(Ranked(t)[i], Ranked(t)[j]);
    }
    forall a, b | a in Listed(t) && b in t.order && b !in Listed(t) ensures WeightBy(t)(a) >= WeightBy(t)(b) {
      var i :| 0 <= i < |Listed(t)| && Listed(t)[i] == a;
      var j :| 0 <= j < |Ranked(t)| && Ranked(t)[j] == b;
      assert j >= |Listed(t)| && le(Ranked(t)[i], Ranked(t)[j]);
    }
    forall w ensures Filter(Ranked(t), HasWeight(t, w)) == Filter(t.order, HasWeight(t, w)) {
      FilterSort(t.order, le, HasWeight(t, w));
      var ties := Filter(t.order, HasWeight(t, w));
      forall k | k in ties ensures HasWeight(t, w)(k) { FilterMember(t.order, HasWeight(t, w), k); }
      SortTies(ties, le);
    }
  }

  predicate Shows(row: Hotspot, f: Frame) {
    && row.source == f.url && row.line == f.lineNumber + 1
    && row.name == if f.functionName == "" then "(anonymous)" else f.functionName
  }

  lemma {:induction false} ListedIsKnown(t: Tally, i: nat)
    requires Distinct(t.order) && i < |Listed(t)|
    ensures Listed(t)[i] in t.order
  {
    ListedIsHeaviest(t);
    assert Ranked(t)[i] in Ranked(t);
  }

  /** Each row shows a charged frame and everything charged under that frame's key. */
  lemma {:induction false} RowsAreCharges(charges: seq<Charge>, t: Tally, i: nat)
    requires t == RecordAll(EMPTY, charges) && i < |TopHotspots(t)|
    ensures TopHotspots(t)[i].weight == Weight(charges, Listed(t)[i])
    ensures exists c :: c in charges && KeyOf(c.frame) == Listed(t)[i] && Shows(TopHotspots(t)[i], c.frame)
  {
    TallyFacts(charges);
    KeysFacts(charges);
    ListedIsKnown(t, i);
    RowOfKey(t, charges, Listed(t)[i]);
  }

  lemma {:induction false} RowOfKey(t: Tally, charges: seq<Charge>, key: string)
    requires Tallies(t, charges) && key in t.order
    ensures RowOf(t)(key).weight == Weight(charges, key)
    ensures exists c :: c in charges && KeyOf(c.frame) == key && Shows(RowOf(t)(key), c.frame)
  {
    assert key in t.weights && key in t.frames;
    assert WeightBy(t)(key) == t.weights[key];
    assert RowOf(t)(key).weight == WeightBy(t)(key);
    assert FrameCharged(charges, t.frames[key]);
    var c :| c in charges && c.frame == t.frames[key];
    assert KeyOf(c.frame) == key && Shows(RowOf(t)(key), c.frame);
  }

  // --------------------------------------------------------------------------- visits

  /** A node of the tree: the frames from the root down to it, and its own bytes. */
  datatype Visit = Visit(path: seq<Frame>, size: int)

  function Visits(node: Node, above: seq<Frame>): seq<Visit>
    decreases node
  {
    var path := above + [node.frame];
    [Visit(path, node.selfSize)] + VisitsAll(node.children, path)
  }

  function VisitsAll(nodes: seq<Node>, above: seq<Frame>): seq<Visit>
    decreases nodes
  {
    if nodes == [] then [] else
      VisitsAll(nodes[..|nodes| - 1], above) + Visits(nodes[|nodes| - 1], above)
  }

  /** Some frame on the path is `optimizeCore`. */
  predicate Inside(path: seq<Frame>) {
    exists i :: 0 <= i < |path| && path[i].functionName == OPTIMIZE
  }

  /** The nearest repository frame at or below `optimizeCore`. */
  ghost predicate NearestOwner(path: seq<Frame>, prefix: string, i: int) {
    && 0 <= i < |path| && Inside(path[..i + 1]) && prefix <= path[i].url
    && forall j :: i < j < |path| ==> !(prefix <= path[j].url)
  }

  function Owner(path: seq<Frame>, prefix: string): Option<Frame> {
    if path == [] then None
    else if Inside(path) && prefix <= path[|path| - 1].url then Some(path[|path| - 1])
    else Owner(path[..|path| - 1], prefix)
  }

  lemma {:induction false} InsideMore(path: seq<Frame>, f: Frame)
    ensures Inside(path + [f]) <==> Inside(path) || f.functionName == OPTIMIZE
  {
    var more := path + [f];
    if Inside(path) {
      var i :| 0 <= i < |path| && path[i].functionName == OPTIMIZE;
      assert more[i].functionName == OPTIMIZE;
    }
    if f.functionName == OPTIMIZE { assert more[|path|].functionName == OPTIMIZE; }
  }

  /** A charge goes to the nearest repository frame inside `optimizeCore`, if any. */
  lemma {:induction false} OwnerIsNearest(path: seq<Frame>, prefix: string, i: int)
    ensures NearestOwner(path, prefix, i) ==> Owner(path, prefix) == Some(path[i])
    ensures Owner(path, prefix).Some? ==> exists k :: NearestOwner(path, prefix, k)
  {
    if path != [] {
      var last := |path| - 1;
      var front := path[..last];
      assert path == front + [path[last]] && path[..last + 1] == path;
      if Inside(path) && prefix <= path[last].url {
        assert NearestOwner(path, prefix, last);
      } else {
        OwnerIsNearest(front, prefix, i);
        if Owner(front, prefix).Some? {
          var k :| NearestOwner(front, prefix, k);
          NearestInFront(path, prefix, k);
          assert NearestOwner(path, prefix, k);
        }
        NearestInFront(path, prefix, i);
      }
    }
  }

  lemma {:induction false} NearestInFront(path: seq<Frame>, prefix: string, i: int)
    requires path != [] && !(Inside(path) && prefix <= path[|path| - 1].url)
    ensures NearestOwner(path, prefix, i) <==> NearestOwner(path[..|path| - 1], prefix, i)
  {
    var last := |path| - 1;
    var front := path[..last];
    assert path[..last + 1] == path;
    if 0 <= i < last {
      assert path[..i + 1] == front[..i + 1];
      if Inside(front[..i + 1]) {
        var k :| 0 <= k < i + 1 && front[..i + 1][k].functionName == OPTIMIZE;
        assert path[k].functionName == OPTIMIZE;
      }
    }
  }

  // ------------------------------------------------------------------- what is charged

  predicate Charged(v: Visit) { v.path != [] && Inside(v.path) && v.size > 0 }

  function DirectOf(v: Visit): seq<Charge> {
    if Charged(v) then [Charge(v.path[|v.path| - 1], v.size)] else []
  }

  function OwnedOf(v: Visit, prefix: string): seq<Charge> {
    if Charged(v) && Owner(v.path, prefix).Some? then [Charge(Owner(v.path, prefix).value, v.size)] else []
  }

  function Direct(visits: seq<Visit>): seq<Charge> {
    if visits == [] then [] else Direct(visits[..|visits| - 1]) + DirectOf(visits[|visits| - 1])
  }

  function Owned(visits: seq<Visit>, prefix: string): seq<Charge> {
    if visits == [] then [] else Owned(visits[..|visits| - 1], prefix) + OwnedOf(visits[|visits| - 1], prefix)
  }

  function SizeOf(v: Visit): int { v.size }
  function InsideSize(v: Visit): int { if Inside(v.path) then v.size else 0 }
  function AttributedSize(prefix: string): Visit -> int {
    (v: Visit) => if Charged(v) && Owner(v.path, prefix).Some? then v.size else 0
  }

  function SumsOf(visits: seq<Visit>, prefix: string): Sums {
    Sums(Sum(visits, SizeOf), Sum(visits, InsideSize), Sum(visits, AttributedSize(prefix)))
  }

  lemma {:induction false} DirectAppend(a: seq<Visit>, b: seq<Visit>)
    ensures Direct(a + b) == Direct(a) + Direct(b)
  {
    if b == [] {
      assert a + b == a;
    } else {
      var front, last := b[..|b| - 1], DirectOf(b[|b| - 1]);
      DirectAppend(a, front);
      assert (a + b)[..|a + b| - 1] == a + front;
      Assoc(Direct(a), Direct(front), last);
    }
  }

  lemma {:induction false} OwnedAppend(a: seq<Visit>, b: seq<Visit>, prefix: string)
    ensures Owned(a + b, prefix) == Owned(a, prefix) + Owned(b, prefix)
  {
    if b == [] {
      assert a + b == a;
    } else {
      var front, last := b[..|b| - 1], OwnedOf(b[|b| - 1], prefix);
      OwnedAppend(a, front, prefix);
      assert (a + b)[..|a + b| - 1] == a + front;
      Assoc(Owned(a, prefix), Owned(front, prefix), last);
    }
  }

  // -------------------------------------------------------------------------- the walk

  class Hotspots {
    var order: seq<string>
    var weights: map<string, int>
    var frames: map<string, Frame>

    function Value(): Tally
      reads this
    {
      Tally(order, weights, frames)
    }

    constructor ()
      ensures Value() == EMPTY
    {
      order, weights, frames := [], map[], map[];
    }

    method Record(frame: Frame, weight: int)
      modifies this
      ensures Value() == Recorded(old(Value()), Charge(frame, weight))
    {
      var key := KeyOf(frame);
      if key !in order { order := order + [key]; }
      weights := weights[key := (if key in weights then weights[key] else 0) + weight];
      frames := frames[key := frame];
    }
  }

  /** What a walk over the given nodes does to its two tallies and returns. */
  datatype Walk = Walk(direct: Tally, owners: Tally, sums: Sums)

  function WalkOver(visits: seq<Visit>, prefix: string, direct: Tally, owners: Tally): Walk {
    Walk(RecordAll(direct, Direct(visits)), RecordAll(owners, Owned(visits, prefix)), SumsOf(visits, prefix))
  }

  function Plus(a: Sums, b: Sums): Sums {
    Sums(a.bytes + b.bytes, a.optimizeBytes + b.optimizeBytes, a.attributedBytes + b.attributedBytes)
  }

  lemma {:induction false} SumsAppend(a: seq<Visit>, b: seq<Visit>, prefix: string)
    ensures SumsOf(a + b, prefix) == Plus(SumsOf(a, prefix), SumsOf(b, prefix))
  {
    SumAppend(a, b, SizeOf);
    SumAppend(a, b, InsideSize);
    SumAppend(a, b, AttributedSize(prefix));
  }

  lemma {:induction false} WalkAppend(a: seq<Visit>, b: seq<Visit>, prefix: string, direct: Tally, owners: Tally,
                                      first: Walk)
    requires first == WalkOver(a, prefix, direct, owners)
    ensures var second := WalkOver(b, prefix, first.direct, first.owners);
      WalkOver(a + b, prefix, direct, owners) == second.(sums := Plus(first.sums, second.sums))
  {
    DirectAppend(a, b);
    OwnedAppend(a, b, prefix);
    RecordAppend(direct, Direct(a), Direct(b));
    RecordAppend(owners, Owned(a, prefix), Owned(b, prefix));
    SumsAppend(a, b, prefix);
  }

  lemma {:induction false} RecordOne(t: Tally, c: Charge)
    ensures RecordAll(t, [c]) == Recorded(t, c)
  {
    assert [c][..0] == [];
    assert RecordAll(t, []) == t;
  }

  lemma {:induction false} WalkOne(v: Visit, prefix: string, direct: Tally, owners: Tally)
    requires v.path != []
    ensures var w := WalkOver([v], prefix, direct, owners);
      && w.direct == (if Charged(v) then Recorded(direct, Charge(v.path[|v.path| - 1], v.size)) else direct)
      && w.owners == (if Charged(v) && Owner(v.path, prefix).Some?
                      then Recorded(owners, Charge(Owner(v.path, prefix).value, v.size)) else owners)
      && w.sums == Sums(v.size, InsideSize(v), AttributedSize(prefix)(v))
  {
    ChargesOne(v, prefix);
    SumOne(v, SizeOf);
    SumOne(v, InsideSize);
    SumOne(v, AttributedSize(prefix));
    if Charged(v) { RecordOne(direct, DirectOf(v)[0]); }
    if Charged(v) && Owner(v.path, prefix).Some? { RecordOne(owners, OwnedOf(v, prefix)[0]); }
  }

  lemma {:induction false} ChargesOne(v: Visit, prefix: string)
    ensures Direct([v]) == DirectOf(v) && Owned([v], prefix) == OwnedOf(v, prefix)
  {
    assert [v][..0] == [];
    assert Direct([]) == [] && Owned([], prefix) == [];
  }

  /** The node and what is below its first `i` children. */
  function Visited(node: Node, path: seq<Frame>, i: nat): seq<Visit>
    requires i <= |node.children|
  {
    [Visit(path, node.selfSize)] + VisitsAll(node.children[..i], path)
  }

  lemma {:induction false} VisitedMore(node: Node, path: seq<Frame>, i: nat)
    requires i < |node.children|
    ensures Visited(node, path, i + 1) == Visited(node, path, i) + Visits(node.children[i], path)
  {
    assert node.children[..i + 1][..i] == node.children[..i];
    Assoc([Visit(path, node.selfSize)], VisitsAll(node.children[..i], path), Visits(node.children[i], path));
  }

  lemma {:induction false} VisitedEnds(node: Node, path: seq<Frame>)
    requires path != []
    ensures Visited(node, path, 0) == [Visit(path, node.selfSize)]
    ensures path[|path| - 1] == node.frame ==> Visited(node, path, |node.children|) == Visits(node, path[..|path| - 1])
  {
    assert node.children[..0] == [] && node.children[..|node.children|] == node.children;
    assert path == path[..|path| - 1] + [path[|path| - 1]];
  }

  /** One more child adds its own walk. */
  lemma {:induction false} ChildWalked(node: Node, path: seq<Frame>, i: nat, prefix: string, direct: Tally,
                                       owners: Tally, before: Walk, child: Walk)
    requires i < |node.children| && before == WalkOver(Visited(node, path, i), prefix, direct, owners)
    requires child == WalkOver(Visits(node.children[i], path), prefix, before.direct, before.owners)
    ensures WalkOver(Visited(node, path, i + 1), prefix, direct, owners)
         == Walk(child.direct, child.owners, Plus(before.sums, child.sums))
  {
    VisitedMore(node, path, i);
    WalkAppend(Visited(node, path, i), Visits(node.children[i], path), prefix, direct, owners, before);
  }

  /** A node's own bytes, and the owner its children inherit. */
  method ChargeNode(node: Node, prefix: string, insideOptimizeCore: bool, owner: Option<Frame>,
                    direct: Hotspots, owners: Hotspots, ghost path: seq<Frame>)
    returns (s: Sums, inside: bool, currentOwner: Option<Frame>)
    requires direct != owners && path != [] && path[|path| - 1] == node.frame
    requires insideOptimizeCore == Inside(path[..|path| - 1]) && owner == Owner(path[..|path| - 1], prefix)
    modifies direct, owners
    ensures inside == Inside(path) && currentOwner == Owner(path, prefix)
    ensures Walk(direct.Value(), owners.Value(), s)
         == WalkOver([Visit(path, node.selfSize)], prefix, old(direct.Value()), old(owners.Value()))
  {
    assert path == path[..|path| - 1] + [node.frame];
    InsideMore(path[..|path| - 1], node.frame);
    WalkOne(Visit(path, node.selfSize), prefix, direct.Value(), owners.Value());
    inside := insideOptimizeCore || node.frame.functionName == OPTIMIZE;
    currentOwner := if inside && prefix <= node.frame.url then Some(node.frame) else owner;
    s := Sums(node.selfSize, if inside then node.selfSize else 0, 0);
    if inside && node.selfSize > 0 {
      direct.Record(node.frame, node.selfSize);
      if currentOwner.Some? {
        owners.Record(currentOwner.value, node.selfSize);
        s := s.(attributedBytes := node.selfSize);
      }
    }
  }

  method Collect(node: Node, prefix: string, insideOptimizeCore: bool, owner: Option<Frame>,
                 direct: Hotspots, owners: Hotspots, ghost above: seq<Frame>) returns (s: Sums)
    requires direct != owners
    requires insideOptimizeCore == Inside(above) && owner == Owner(above, prefix)
    modifies direct, owners
    ensures Walk(direct.Value(), owners.Value(), s)
         == WalkOver(Visits(node, above), prefix, old(direct.Value()), old(owners.Value()))
    decreases node
  {
    ghost var path := above + [node.frame];
    assert path[..|path| - 1] == above;
    var inside, currentOwner;
    s, inside, currentOwner := ChargeNode(node, prefix, insideOptimizeCore, owner, direct, owners, path);
    ghost var d, o := old(direct.Value()), old(owners.Value());
    var i := 0;
    VisitedEnds(node, path);
    while i < |node.children|
      invariant i <= |node.children|
      invariant Walk(direct.Value(), owners.Value(), s) == WalkOver(Visited(node, path, i), prefix, d, o)
    {
      ghost var before := Walk(direct.Value(), owners.Value(), s);
      var child := Collect(node.children[i], prefix, inside, currentOwner, direct, owners, path);
      ChildWalked(node, path, i, prefix, d, o, before, Walk(direct.Value(), owners.Value(), child));
      s := Plus(s, child);
      i := i + 1;
    }
  }

  /** The whole summary of a profile. */
  datatype Summary = Summary(sums: Sums, hotspots: seq<Hotspot>, ownerHotspots: seq<Hotspot>)

  method Summarize(root: Node, prefix: string) returns (r: Summary)
    ensures var w := WalkOver(Visits(root, []), prefix, EMPTY, EMPTY);
      r == Summary(w.sums, TopHotspots(w.direct), TopHotspots(w.owners))
  {
    var direct := new Hotspots();
    var owners := new Hotspots();
    var s := Collect(root, prefix, false, None, direct, owners, []);
    r := Summary(s, TopHotspots(direct.Value()), TopHotspots(owners.Value()));
  }

  // --------------------------------------------------------------------- conservation

  ghost predicate NoneNegative(visits: seq<Visit>) { forall v :: v in visits ==> v.size >= 0 && v.path != [] }

  lemma {:induction false} DirectBytes(visits: seq<Visit>)
    requires NoneNegative(visits)
    ensures Sum(Direct(visits), ChargeBytes) == Sum(visits, InsideSize)
  {
    if visits != [] {
      var front, v := visits[..|visits| - 1], visits[|visits| - 1];
      assert v in visits;
      DirectBytes(front);
      SumAppend(Direct(front), DirectOf(v), ChargeBytes);
      if Charged(v) { SumOne(DirectOf(v)[0], ChargeBytes); }
    }
  }

  lemma {:induction false} OwnedBytes(visits: seq<Visit>, prefix: string)
    ensures Sum(Owned(visits, prefix), ChargeBytes) == Sum(visits, AttributedSize(prefix))
  {
    if visits != [] {
      var front, v := visits[..|visits| - 1], visits[|visits| - 1];
      OwnedBytes(front, prefix);
      SumAppend(Owned(front, prefix), OwnedOf(v, prefix), ChargeBytes);
      if OwnedOf(v, prefix) != [] { SumOne(OwnedOf(v, prefix)[0], ChargeBytes); }
    }
  }

  lemma {:induction false} SumsNested(visits: seq<Visit>, prefix: string)
    requires NoneNegative(visits)
    ensures 0 <= Sum(visits, AttributedSize(prefix)) <= Sum(visits, InsideSize) <= Sum(visits, SizeOf)
  {
    if visits != [] {
      assert visits[|visits| - 1] in visits;
      SumsNested(visits[..|visits| - 1], prefix);
    }
  }

  /** Every byte inside `optimizeCore` is charged once to its frame and at most once to an
      owner: the weights of each table add up to the bytes it accounts for. */
  lemma {:induction false} Conservation(root: Node, prefix: string)
    requires NoneNegative(Visits(root, []))
    ensures var w := WalkOver(Visits(root, []), prefix, EMPTY, EMPTY);
      && Sum(w.direct.order, WeightBy(w.direct)) == w.sums.optimizeBytes
      && Sum(w.owners.order, WeightBy(w.owners)) == w.sums.attributedBytes
      && w.sums.bytes == Sum(Visits(root, []), SizeOf)
      && 0 <= w.sums.attributedBytes <= w.sums.optimizeBytes <= w.sums.bytes
  {
    var visits := Visits(root, []);
    DirectBytes(visits);
    OwnedBytes(visits, prefix);
    SumsNested(visits, prefix);
    TallyAddsUp(Direct(visits));
    TallyAddsUp(Owned(visits, prefix));
  }

  lemma {:induction false} TallyAddsUp(charges: seq<Charge>)
    ensures var t := RecordAll(EMPTY, charges);
      Sum(t.order, WeightBy(t)) == Sum(charges, ChargeBytes)
  {
    var t := RecordAll(EMPTY, charges);
    TallyFacts(charges);
    KeysFacts(charges);
    WeightsAddUp(charges);
    SumRaised(t.order, WeightIn(charges), WeightBy(t), "", 0);
  }
}
