/** What the decomposed form decides: which texts can be turned into each other by single
    decompositions, taken either way, and exchanges of neighbouring marks. */
module CanonicalEquivalence {
  import opened CanonicalOrdering
  import opened Optional
  import opened UnicodeComposition
  import opened UnicodeNormalization
  import opened UnicodeTables

  type Text = seq<nat>

  /** One decomposition of a code point, by the table or by the arithmetic of syllables. */
  function Single(u: Ucd, k: bool, cp: nat): Option<Text> {
    if cp < 0x80 then None
    else if IsSyllable(cp) then Some(Jamo(cp))
    else
      match DecompositionOf(u.decompositions, cp)
      case None => None
      case Some(d) => if !k && d.compatibility then None else Some(d.values)
  }

  ghost predicate DecomposedAt(u: Ucd, k: bool, s: Text, t: Text, a: Text, cp: nat, b: Text) {
    Single(u, k, cp).Some? && s == a + [cp] + b && t == a + Single(u, k, cp).value + b
  }

  ghost predicate Decomposed(u: Ucd, k: bool, s: Text, t: Text) {
    exists a: Text, cp, b: Text :: DecomposedAt(u, k, s, t, a, cp, b)
  }

  /** Marks of different classes that decompose no further. */
  ghost predicate Free(u: Ucd, k: bool, x: nat, y: nat) {
    && ClassIn(u)(x) != 0 && ClassIn(u)(y) != 0 && ClassIn(u)(x) != ClassIn(u)(y)
    && Single(u, k, x).None? && Single(u, k, y).None?
  }

  ghost predicate Swapped(u: Ucd, k: bool, s: Text, t: Text) {
    exists a: Text, x, y, b: Text :: Free(u, k, x, y) && Exchange(s, t, a, x, y, b)
  }

  ghost predicate Link(u: Ucd, k: bool, s: Text, t: Text) {
    Decomposed(u, k, s, t) || Decomposed(u, k, t, s) || Swapped(u, k, s, t)
  }

  ghost predicate Path(u: Ucd, k: bool, path: seq<Text>) {
    path != [] && forall i :: 0 < i < |path| ==> Link(u, k, path[i - 1], path[i])
  }

  ghost predicate Linked(u: Ucd, k: bool, s: Text, t: Text) {
    exists path :: Path(u, k, path) && path[0] == s && path[|path| - 1] == t
  }

  // ---------------------------------------------------------------- links keep the form

  lemma {:induction false} SingleFull(u: Ucd, rank: Rank, k: bool, cp: nat)
    requires Sound(u, rank)
    ensures Single(u, k, cp).None? ==> Full(u, rank, k, cp) == [cp]
    ensures Single(u, k, cp).Some? ==> Full(u, rank, k, cp) == FullAll(u, rank, k, Single(u, k, cp).value)
  {
    if cp >= 0x80 && IsSyllable(cp) {
      JamoFinal(u, rank, k, cp);
      FinalFixed(u, rank, k, Jamo(cp));
    }
  }

  lemma {:induction false} FullAround(u: Ucd, rank: Rank, k: bool, a: Text, m: Text, b: Text)
    requires Acyclic(u, rank)
    ensures FullAll(u, rank, k, a + m + b)
         == FullAll(u, rank, k, a) + FullAll(u, rank, k, m) + FullAll(u, rank, k, b)
  {
    FullAppend(u, rank, k, a + m, b);
    FullAppend(u, rank, k, a, m);
  }

  lemma {:induction false} DecomposedKeeps(u: Ucd, rank: Rank, k: bool, s: Text, t: Text)
    requires Sound(u, rank) && Decomposed(u, k, s, t)
    ensures Nfd(u, rank, k, s) == Nfd(u, rank, k, t)
  {
    var a: Text, cp, b: Text :| DecomposedAt(u, k, s, t, a, cp, b);
    FullAround(u, rank, k, a, [cp], b);
    FullAround(u, rank, k, a, Single(u, k, cp).value, b);
    FullOne(u, rank, k, cp);
    SingleFull(u, rank, k, cp);
  }

  lemma {:induction false} SwappedKeeps(u: Ucd, rank: Rank, k: bool, s: Text, t: Text)
    requires Sound(u, rank) && Swapped(u, k, s, t)
    ensures Nfd(u, rank, k, s) == Nfd(u, rank, k, t)
  {
    var a: Text, x, y, b: Text :| Free(u, k, x, y) && Exchange(s, t, a, x, y, b);
    FullAround(u, rank, k, a, [x, y], b);
    FullAround(u, rank, k, a, [y, x], b);
    PairFull(u, rank, k, x, y);
    PairFull(u, rank, k, y, x);
    ExchangeKeepsOrder(ClassIn(u), FullAll(u, rank, k, a), x, y, FullAll(u, rank, k, b));
  }

  lemma {:induction false} PairFull(u: Ucd, rank: Rank, k: bool, x: nat, y: nat)
    requires Sound(u, rank) && Single(u, k, x).None? && Single(u, k, y).None?
    ensures FullAll(u, rank, k, [x, y]) == [x, y]
  {
    SingleFull(u, rank, k, x);
    SingleFull(u, rank, k, y);
    FullOne(u, rank, k, x);
    assert [x, y][..1] == [x];
  }

  lemma {:induction false} PathKeeps(u: Ucd, rank: Rank, k: bool, path: seq<Text>)
    requires Sound(u, rank) && Path(u, k, path)
    ensures Nfd(u, rank, k, path[0]) == Nfd(u, rank, k, path[|path| - 1])
  {
    if |path| > 1 {
      var s, t := path[|path| - 2], path[|path| - 1];
      PathKeeps(u, rank, k, path[..|path| - 1]);
      assert Link(u, k, s, t);
      if Decomposed(u, k, s, t) {
        DecomposedKeeps(u, rank, k, s, t);
      } else if Decomposed(u, k, t, s) {
        DecomposedKeeps(u, rank, k, t, s);
      } else {
        SwappedKeeps(u, rank, k, s, t);
      }
    }
  }

  // ---------------------------------------------------------------------- linked texts

  lemma {:induction false} LinkedSelf(u: Ucd, k: bool, s: Text)
    ensures Linked(u, k, s, s)
  {
    assert Path(u, k, [s]);
  }

  lemma {:induction false} LinkedOnce(u: Ucd, k: bool, s: Text, t: Text)
    requires Link(u, k, s, t)
    ensures Linked(u, k, s, t)
  {
    assert Path(u, k, [s, t]);
  }

  lemma {:induction false} LinkedJoin(u: Ucd, k: bool, r: Text, s: Text, t: Text)
    requires Linked(u, k, r, s) && Linked(u, k, s, t)
    ensures Linked(u, k, r, t)
  {
    var a :| Path(u, k, a) && a[0] == r && a[|a| - 1] == s;
    var b :| Path(u, k, b) && b[0] == s && b[|b| - 1] == t;
    var path := a + b[1..];
    forall i | 0 < i < |path| ensures Link(u, k, path[i - 1], path[i]) {
      if i >= |a| { assert path[i] == b[i - |a| + 1] && path[i - 1] == b[i - |a|]; }
    }
    assert Path(u, k, path) && path[0] == r && path[|path| - 1] == t;
  }

  lemma {:induction false} LinkBack(u: Ucd, k: bool, s: Text, t: Text)
    requires Link(u, k, s, t)
    ensures Link(u, k, t, s)
  {
    if Swapped(u, k, s, t) {
      var a: Text, x, y, b: Text :| Free(u, k, x, y) && Exchange(s, t, a, x, y, b);
      assert Free(u, k, y, x) && Exchange(t, s, a, y, x, b);
    }
  }

  lemma {:induction false} LinkedBack(u: Ucd, k: bool, s: Text, t: Text)
    requires Linked(u, k, s, t)
    ensures Linked(u, k, t, s)
  {
    var a :| Path(u, k, a) && a[0] == s && a[|a| - 1] == t;
    var n := |a|;
    var b := seq(n, i requires 0 <= i < n => a[n - 1 - i]);
    forall i | 0 < i < n ensures Link(u, k, b[i - 1], b[i]) { LinkBack(u, k, a[n - 1 - i], a[n - i]); }
    assert Path(u, k, b) && b[0] == t && b[n - 1] == s;
  }

  lemma {:induction false} DecomposedAround(u: Ucd, k: bool, s: Text, t: Text, x: Text, z: Text)
    requires Decomposed(u, k, s, t)
    ensures Decomposed(u, k, x + s + z, x + t + z)
  {
    var a: Text, cp, b: Text :| DecomposedAt(u, k, s, t, a, cp, b);
    var m := Single(u, k, cp).value;
    assert x + (a + [cp] + b) + z == (x + a) + [cp] + (b + z);
    assert x + (a + m + b) + z == (x + a) + m + (b + z);
    assert DecomposedAt(u, k, x + s + z, x + t + z, x + a, cp, b + z);
  }

  lemma {:induction false} LinkAround(u: Ucd, k: bool, s: Text, t: Text, x: Text, z: Text)
    requires Link(u, k, s, t)
    ensures Link(u, k, x + s + z, x + t + z)
  {
    if Decomposed(u, k, s, t) {
      DecomposedAround(u, k, s, t, x, z);
    } else if Decomposed(u, k, t, s) {
      DecomposedAround(u, k, t, s, x, z);
    } else {
      var a: Text, p, q, b: Text :| Free(u, k, p, q) && Exchange(s, t, a, p, q, b);
      assert x + (a + [p, q] + b) + z == (x + a) + [p, q] + (b + z);
      assert x + (a + [q, p] + b) + z == (x + a) + [q, p] + (b + z);
      assert Exchange(x + s + z, x + t + z, x + a, p, q, b + z);
    }
  }

  lemma {:induction false} LinkedAround(u: Ucd, k: bool, s: Text, t: Text, x: Text, z: Text)
    requires Linked(u, k, s, t)
    ensures Linked(u, k, x + s + z, x + t + z)
  {
    var a :| Path(u, k, a) && a[0] == s && a[|a| - 1] == t;
    var b := seq(|a|, i requires 0 <= i < |a| => x + a[i] + z);
    forall i | 0 < i < |b| ensures Link(u, k, b[i - 1], b[i]) { LinkAround(u, k, a[i - 1], a[i], x, z); }
    assert Path(u, k, b) && b[0] == x + s + z && b[|b| - 1] == x + t + z;
  }

  // ------------------------------------------------------------- to the decomposed form

  /** A code point is linked to its full decomposition. */
  lemma {:induction false} LinkedToFull(u: Ucd, rank: Rank, k: bool, cp: nat)
    requires Sound(u, rank)
    ensures Linked(u, k, [cp], Full(u, rank, k, cp))
    decreases rank(cp) + 1, 0, 0
  {
    SingleFull(u, rank, k, cp);
    if Single(u, k, cp).None? {
      LinkedSelf(u, k, [cp]);
    } else {
      var values := Single(u, k, cp).value;
      assert [] + [cp] + [] == [cp] && [] + values + [] == values;
      assert DecomposedAt(u, k, [cp], values, [], cp, []);
      LinkedOnce(u, k, [cp], values);
      if IsSyllable(cp) {
        JamoFinal(u, rank, k, cp);
      } else {
        EntryHeight(u, rank, cp);
        LinkedToFullAll(u, rank, k, values);
        LinkedJoin(u, k, [cp], values, FullAll(u, rank, k, values));
      }
    }
  }

  lemma {:induction false} LinkedToFullAll(u: Ucd, rank: Rank, k: bool, s: Text)
    requires Sound(u, rank)
    ensures Linked(u, k, s, FullAll(u, rank, k, s))
    decreases Height(rank, s), 1, |s|
  {
    if s == [] {
      LinkedSelf(u, k, s);
    } else {
      var front, cp := s[..|s| - 1], s[|s| - 1];
      var done := FullAll(u, rank, k, front);
      LinkedToFullAll(u, rank, k, front);
      LinkedAround(u, k, front, done, [], [cp]);
      LinkedToFull(u, rank, k, cp);
      LinkedAround(u, k, [cp], Full(u, rank, k, cp), done, []);
      assert [] + front + [cp] == s && [] + done + [cp] == done + [cp] + [];
      assert done + Full(u, rank, k, cp) + [] == FullAll(u, rank, k, s);
      LinkedJoin(u, k, s, done + [cp], FullAll(u, rank, k, s));
    }
  }

  ghost predicate NoneSingle(u: Ucd, k: bool, s: Text) { forall x :: x in s ==> Single(u, k, x).None? }

  lemma {:induction false} FullHasNoSingle(u: Ucd, rank: Rank, k: bool, cp: nat)
    requires Sound(u, rank)
    ensures NoneSingle(u, k, Full(u, rank, k, cp))
    decreases rank(cp) + 1, 0, 0
  {
    SingleFull(u, rank, k, cp);
    if Single(u, k, cp).Some? {
      if IsSyllable(cp) {
        JamoNoSingle(u, rank, k, cp);
      } else {
        EntryHeight(u, rank, cp);
        FullAllHasNoSingle(u, rank, k, Single(u, k, cp).value);
      }
    }
  }

  lemma {:induction false} JamoNoSingle(u: Ucd, rank: Rank, k: bool, cp: nat)
    requires Sound(u, rank) && IsSyllable(cp)
    ensures NoneSingle(u, k, Jamo(cp)) && Full(u, rank, k, cp) == Jamo(cp)
  {
    var s := cp - S;
    assert s / 588 < 19 && s % 588 / 28 < 21 && s % 28 < 28;
    forall x | x in Jamo(cp) ensures Single(u, k, x).None? { DecompositionEntry(u.decompositions, x); }
  }

  lemma {:induction false} FullAllHasNoSingle(u: Ucd, rank: Rank, k: bool, s: Text)
    requires Sound(u, rank)
    ensures NoneSingle(u, k, FullAll(u, rank, k, s))
    decreases Height(rank, s), 1, |s|
  {
    if s != [] {
      FullAllHasNoSingle(u, rank, k, s[..|s| - 1]);
      FullHasNoSingle(u, rank, k, s[|s| - 1]);
    }
  }

  /** Exchanges among marks that decompose no further are links. */
  lemma {:induction false} ChainLinked(u: Ucd, k: bool, steps: seq<Text>)
    requires Chain(ClassIn(u), steps) && NoneSingle(u, k, steps[0])
    ensures Linked(u, k, steps[0], steps[|steps| - 1]) && NoneSingle(u, k, steps[|steps| - 1])
  {
    if |steps| == 1 {
      LinkedSelf(u, k, steps[0]);
    } else {
      var p, q := steps[|steps| - 2], steps[|steps| - 1];
      ChainLinked(u, k, steps[..|steps| - 1]);
      assert Exchanged(ClassIn(u), p, q);
      ExchangeLinked(u, k, p, q);
      LinkedJoin(u, k, steps[0], p, q);
    }
  }

  lemma {:induction false} ExchangeLinked(u: Ucd, k: bool, p: Text, q: Text)
    requires Exchanged(ClassIn(u), p, q) && NoneSingle(u, k, p)
    ensures Linked(u, k, p, q) && NoneSingle(u, k, q)
  {
    var ccc := ClassIn(u);
    var a: Text, x, y, b: Text :| ccc(x) != 0 && ccc(y) != 0 && ccc(x) != ccc(y) && Exchange(p, q, a, x, y, b);
    assert p[|a|] == x && p[|a| + 1] == y;
    assert x in p && y in p;
    assert Free(u, k, x, y);
    LinkedOnce(u, k, p, q);
    forall z | z in q ensures z in p { }
  }

  // -------------------------------------------------------------------------- the theorem

  /** Two texts have the same decomposed form exactly when single decompositions, taken
      either way, and exchanges of neighbouring marks link them; canonical decompositions
      alone without `k`, compatibility ones too with it. */
  lemma {:induction false} SameFormIffLinked(u: Ucd, rank: Rank, k: bool, s: Text, t: Text)
    requires Sound(u, rank)
    ensures Nfd(u, rank, k, s) == Nfd(u, rank, k, t) <==> Linked(u, k, s, t)
  {
    if Linked(u, k, s, t) {
      var path :| Path(u, k, path) && path[0] == s && path[|path| - 1] == t;
      PathKeeps(u, rank, k, path);
    }
    if Nfd(u, rank, k, s) == Nfd(u, rank, k, t) {
      var p, q := FullAll(u, rank, k, s), FullAll(u, rank, k, t);
      SameOrderIffEquivalent(ClassIn(u), p, q);
      var steps :| Chain(ClassIn(u), steps) && steps[0] == p && steps[|steps| - 1] == q;
      FullAllHasNoSingle(u, rank, k, s);
      ChainLinked(u, k, steps);
      LinkedToFullAll(u, rank, k, s);
      LinkedToFullAll(u, rank, k, t);
      LinkedBack(u, k, t, q);
      LinkedJoin(u, k, s, p, q);
      LinkedJoin(u, k, s, q, t);
    }
  }

  /** The composed form decides the same. */
  lemma {:induction false} SameComposedIffLinked(u: Ucd, rank: Rank, k: bool, s: Text, t: Text)
    requires Sound(u, rank)
    ensures Nfc(u, rank, k, s) == Nfc(u, rank, k, t) <==> Linked(u, k, s, t)
  {
    FormsAgree(u, rank, k, s, t);
    SameFormIffLinked(u, rank, k, s, t);
  }
}
