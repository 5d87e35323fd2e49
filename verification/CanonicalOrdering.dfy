/** Canonical ordering of combining marks, as runtime/src/unicode.c does it in place: an
    insertion sort for short runs of marks and stable class buckets for long ones. `ccc`
    gives the combining class of a code point. */
module CanonicalOrdering {
  type Class = nat -> nat

  // -------------------------------------------------------------------- the ordering

  /** Puts a code point at the end, moving it left past the marks of a higher class. */
  function Place(ccc: Class, s: seq<nat>, x: nat): (r: seq<nat>)
    ensures |r| == |s| + 1
  {
    if s == [] || ccc(x) == 0 || ccc(s[|s| - 1]) <= ccc(x) then s + [x]
    else Place(ccc, s[..|s| - 1], x) + [s[|s| - 1]]
  }

  function OrderFrom(ccc: Class, s: seq<nat>, p: seq<nat>): seq<nat> {
    if p == [] then s else Place(ccc, OrderFrom(ccc, s, p[..|p| - 1]), p[|p| - 1])
  }

  function Order(ccc: Class, p: seq<nat>): seq<nat> { OrderFrom(ccc, [], p) }

  /** No mark stands right after one of a higher class. */
  ghost predicate Ordered(ccc: Class, p: seq<nat>) {
    forall i :: 0 < i < |p| ==> ccc(p[i]) == 0 || ccc(p[i - 1]) <= ccc(p[i])
  }

  lemma {:induction false} OrderAppend(ccc: Class, s: seq<nat>, p: seq<nat>, q: seq<nat>)
    ensures OrderFrom(ccc, s, p + q) == OrderFrom(ccc, OrderFrom(ccc, s, p), q)
  {
    if q == [] {
      assert p + q == p;
    } else {
      OrderAppend(ccc, s, p, q[..|q| - 1]);
      assert (p + q)[..|p + q| - 1] == p + q[..|q| - 1];
    }
  }

  lemma {:induction false} PlaceContents(ccc: Class, s: seq<nat>, x: nat)
    ensures multiset(Place(ccc, s, x)) == multiset(s) + multiset{x}
  {
    if s != [] {
      PlaceContents(ccc, s[..|s| - 1], x);
      assert s == s[..|s| - 1] + [s[|s| - 1]];
    }
  }

  lemma {:induction false} OrderContents(ccc: Class, p: seq<nat>)
    ensures multiset(Order(ccc, p)) == multiset(p) && |Order(ccc, p)| == |p|
  {
    if p != [] {
      OrderContents(ccc, p[..|p| - 1]);
      PlaceContents(ccc, Order(ccc, p[..|p| - 1]), p[|p| - 1]);
      assert p == p[..|p| - 1] + [p[|p| - 1]];
    }
  }

  lemma {:induction false} PlaceOrdered(ccc: Class, s: seq<nat>, x: nat)
    requires Ordered(ccc, s)
    ensures Ordered(ccc, Place(ccc, s, x))
    ensures var last := Place(ccc, s, x)[|s|]; last == x || (s != [] && last == s[|s| - 1])
  {
    if s != [] && ccc(x) != 0 && ccc(s[|s| - 1]) > ccc(x) {
      var front, last := s[..|s| - 1], s[|s| - 1];
      PlaceOrdered(ccc, front, x);
    }
  }

  lemma {:induction false} OrderOrdered(ccc: Class, p: seq<nat>)
    ensures Ordered(ccc, Order(ccc, p))
  {
    if p != [] {
      OrderOrdered(ccc, p[..|p| - 1]);
      PlaceOrdered(ccc, Order(ccc, p[..|p| - 1]), p[|p| - 1]);
    }
  }

  lemma {:induction false} OrderedFixed(ccc: Class, p: seq<nat>)
    requires Ordered(ccc, p)
    ensures Order(ccc, p) == p
  {
    if p != [] {
      OrderedFixed(ccc, p[..|p| - 1]);
      assert p == p[..|p| - 1] + [p[|p| - 1]];
    }
  }

  /** Ordering part of a text first makes no difference. */
  lemma {:induction false} OrderTwice(ccc: Class, p: seq<nat>, q: seq<nat>)
    ensures Order(ccc, Order(ccc, p) + q) == Order(ccc, p + q)
  {
    OrderOrdered(ccc, p);
    OrderedFixed(ccc, Order(ccc, p));
    OrderAppend(ccc, [], Order(ccc, p), q);
    OrderAppend(ccc, [], p, q);
  }

  // ----------------------------------------------------------- canonical equivalence

  lemma {:induction false} PlaceCommutes(ccc: Class, s: seq<nat>, a: nat, b: nat)
    requires ccc(a) > ccc(b) > 0
    ensures Place(ccc, Place(ccc, s, a), b) == Place(ccc, Place(ccc, s, b), a)
  {
    assert (s + [a])[..|s|] == s && (s + [b])[..|s|] == s;
    if s != [] && ccc(s[|s| - 1]) > ccc(b) {
      var front, last := s[..|s| - 1], s[|s| - 1];
      var fa, fb := Place(ccc, front, a), Place(ccc, front, b);
      assert (fb + [last])[..|fb|] == fb && (fa + [last])[..|fa|] == fa;
      if ccc(last) > ccc(a) { PlaceCommutes(ccc, front, a, b); }
    }
  }

  /** Exchanging neighbouring marks of different classes does not change the ordering. */
  lemma {:induction false} ExchangeKeepsOrder(ccc: Class, x: seq<nat>, a: nat, b: nat, y: seq<nat>)
    requires ccc(a) != 0 && ccc(b) != 0 && ccc(a) != ccc(b)
    ensures Order(ccc, x + [a, b] + y) == Order(ccc, x + [b, a] + y)
  {
    OrderAppend(ccc, [], x + [a, b], y);
    OrderAppend(ccc, [], x + [b, a], y);
    OrderTwo(ccc, x, a, b);
    OrderTwo(ccc, x, b, a);
    if ccc(a) > ccc(b) { PlaceCommutes(ccc, Order(ccc, x), a, b); }
    else { PlaceCommutes(ccc, Order(ccc, x), b, a); }
  }

  lemma {:induction false} OrderTwo(ccc: Class, x: seq<nat>, a: nat, b: nat)
    ensures Order(ccc, x + [a, b]) == Place(ccc, Place(ccc, Order(ccc, x), a), b)
  {
    var p := x + [a, b];
    assert p[..|p| - 1] == x + [a] && p[|p| - 1] == b && (x + [a])[..|x|] == x;
    assert Order(ccc, x + [a]) == Place(ccc, Order(ccc, x), a);
  }

  /** One exchange of neighbouring marks of different classes. */
  ghost predicate Exchanged(ccc: Class, p: seq<nat>, q: seq<nat>) {
    exists x: seq<nat>, a, b, y: seq<nat> ::
      ccc(a) != 0 && ccc(b) != 0 && ccc(a) != ccc(b) && Exchange(p, q, x, a, b, y)
  }

  predicate Exchange(p: seq<nat>, q: seq<nat>, x: seq<nat>, a: nat, b: nat, y: seq<nat>) {
    p == x + [a, b] + y && q == x + [b, a] + y
  }

  /** A chain of exchanges from the first text to the last. */
  ghost predicate Chain(ccc: Class, steps: seq<seq<nat>>) {
    steps != [] && forall i :: 0 < i < |steps| ==> Exchanged(ccc, steps[i - 1], steps[i])
  }

  ghost predicate Equivalent(ccc: Class, p: seq<nat>, q: seq<nat>) {
    exists steps :: Chain(ccc, steps) && steps[0] == p && steps[|steps| - 1] == q
  }

  lemma {:induction false} ChainKeepsOrder(ccc: Class, steps: seq<seq<nat>>)
    requires Chain(ccc, steps)
    ensures Order(ccc, steps[0]) == Order(ccc, steps[|steps| - 1])
  {
    if |steps| > 1 {
      var front := steps[..|steps| - 1];
      ChainKeepsOrder(ccc, front);
      var p, q := steps[|steps| - 2], steps[|steps| - 1];
      assert Exchanged(ccc, p, q);
      var x: seq<nat>, a, b, y: seq<nat> :|
        ccc(a) != 0 && ccc(b) != 0 && ccc(a) != ccc(b) && Exchange(p, q, x, a, b, y);
      ExchangeKeepsOrder(ccc, x, a, b, y);
    }
  }

  lemma {:induction false} EquivalentSelf(ccc: Class, p: seq<nat>)
    ensures Equivalent(ccc, p, p)
  {
    assert Chain(ccc, [p]);
  }

  lemma {:induction false} EquivalentJoin(ccc: Class, p: seq<nat>, q: seq<nat>, r: seq<nat>)
    requires Equivalent(ccc, p, q) && Equivalent(ccc, q, r)
    ensures Equivalent(ccc, p, r)
  {
    var a :| Chain(ccc, a) && a[0] == p && a[|a| - 1] == q;
    var b :| Chain(ccc, b) && b[0] == q && b[|b| - 1] == r;
    var steps := a + b[1..];
    forall i | 0 < i < |steps| ensures Exchanged(ccc, steps[i - 1], steps[i]) {
      if i >= |a| { assert steps[i] == b[i - |a| + 1] && steps[i - 1] == b[i - |a|]; }
    }
    assert Chain(ccc, steps) && steps[0] == p && steps[|steps| - 1] == r;
  }

  lemma {:induction false} ExchangedBack(ccc: Class, p: seq<nat>, q: seq<nat>)
    requires Exchanged(ccc, p, q)
    ensures Exchanged(ccc, q, p)
  {
    var x: seq<nat>, a, b, y: seq<nat> :|
      ccc(a) != 0 && ccc(b) != 0 && ccc(a) != ccc(b) && Exchange(p, q, x, a, b, y);
    assert Exchange(q, p, x, b, a, y);
  }

  lemma {:induction false} EquivalentBack(ccc: Class, p: seq<nat>, q: seq<nat>)
    requires Equivalent(ccc, p, q)
    ensures Equivalent(ccc, q, p)
  {
    var a :| Chain(ccc, a) && a[0] == p && a[|a| - 1] == q;
    var n := |a|;
    var b := seq(n, i requires 0 <= i < n => a[n - 1 - i]);
    forall i | 0 < i < n ensures Exchanged(ccc, b[i - 1], b[i]) {
      ExchangedBack(ccc, a[n - 1 - i], a[n - i]);
    }
    assert Chain(ccc, b) && b[0] == q && b[n - 1] == p;
  }

  lemma {:induction false} ExchangedMore(ccc: Class, p: seq<nat>, q: seq<nat>, z: seq<nat>)
    requires Exchanged(ccc, p, q)
    ensures Exchanged(ccc, p + z, q + z)
  {
    var x: seq<nat>, a, b, y: seq<nat> :|
      ccc(a) != 0 && ccc(b) != 0 && ccc(a) != ccc(b) && Exchange(p, q, x, a, b, y);
    assert x + [a, b] + y + z == x + [a, b] + (y + z);
    assert x + [b, a] + y + z == x + [b, a] + (y + z);
    assert Exchange(p + z, q + z, x, a, b, y + z);
  }

  function Lifted(steps: seq<seq<nat>>, z: seq<nat>): (r: seq<seq<nat>>)
    ensures |r| == |steps| && forall i :: 0 <= i < |r| ==> r[i] == steps[i] + z
  {
    if steps == [] then [] else Lifted(steps[..|steps| - 1], z) + [steps[|steps| - 1] + z]
  }

  lemma {:induction false} ChainMore(ccc: Class, steps: seq<seq<nat>>, z: seq<nat>)
    requires Chain(ccc, steps)
    ensures Chain(ccc, Lifted(steps, z))
  {
    forall i | 0 < i < |steps| ensures Exchanged(ccc, Lifted(steps, z)[i - 1], Lifted(steps, z)[i]) {
      ExchangedMore(ccc, steps[i - 1], steps[i], z);
    }
  }

  lemma {:induction false} EquivalentMore(ccc: Class, p: seq<nat>, q: seq<nat>, z: seq<nat>)
    requires Equivalent(ccc, p, q)
    ensures Equivalent(ccc, p + z, q + z)
  {
    var a :| Chain(ccc, a) && a[0] == p && a[|a| - 1] == q;
    ChainMore(ccc, a, z);
    var b := Lifted(a, z);
    assert b[0] == p + z && b[|b| - 1] == q + z;
  }

  lemma {:induction false} PlaceEquivalent(ccc: Class, s: seq<nat>, x: nat)
    ensures Equivalent(ccc, s + [x], Place(ccc, s, x))
  {
    if s != [] && ccc(x) != 0 && ccc(s[|s| - 1]) > ccc(x) {
      var front, last := s[..|s| - 1], s[|s| - 1];
      PlaceEquivalent(ccc, front, x);
      EquivalentMore(ccc, front + [x], Place(ccc, front, x), [last]);
      assert s + [x] == front + [last, x] + [];
      assert front + [x] + [last] == front + [x, last] + [];
      assert Exchange(s + [x], front + [x] + [last], front, last, x, []);
      assert Exchanged(ccc, s + [x], front + [x] + [last]);
      assert Chain(ccc, [s + [x], front + [x] + [last]]);
      assert Equivalent(ccc, s + [x], front + [x] + [last]);
      EquivalentJoin(ccc, s + [x], front + [x] + [last], Place(ccc, s, x));
    } else {
      EquivalentSelf(ccc, s + [x]);
    }
  }

  lemma {:induction false} OrderEquivalent(ccc: Class, p: seq<nat>)
    ensures Equivalent(ccc, p, Order(ccc, p))
  {
    if p == [] {
      EquivalentSelf(ccc, p);
    } else {
      var front, x := p[..|p| - 1], p[|p| - 1];
      assert p == front + [x];
      OrderEquivalent(ccc, front);
      EquivalentMore(ccc, front, Order(ccc, front), [x]);
      PlaceEquivalent(ccc, Order(ccc, front), x);
      EquivalentJoin(ccc, p, Order(ccc, front) + [x], Order(ccc, p));
    }
  }

  /** Two texts have the same ordering exactly when exchanges of neighbouring marks of
      different classes lead from one to the other. */
  lemma {:induction false} SameOrderIffEquivalent(ccc: Class, p: seq<nat>, q: seq<nat>)
    ensures Order(ccc, p) == Order(ccc, q) <==> Equivalent(ccc, p, q)
  {
    if Order(ccc, p) == Order(ccc, q) {
      OrderEquivalent(ccc, p);
      OrderEquivalent(ccc, q);
      EquivalentBack(ccc, q, Order(ccc, q));
      EquivalentJoin(ccc, p, Order(ccc, p), q);
    }
    if Equivalent(ccc, p, q) {
      var steps :| Chain(ccc, steps) && steps[0] == p && steps[|steps| - 1] == q;
      ChainKeepsOrder(ccc, steps);
    }
  }
}
