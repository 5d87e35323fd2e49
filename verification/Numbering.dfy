/** Numbering things in the order they are first met: an append-only list in which each
    thing appears once, its number being its place. */
module Numbering {
  import opened Sorting

  /** The first place of an element, or the length if it is not there. */
  function IndexOf<T(==)>(s: seq<T>, x: T): (i: nat)
    ensures i <= |s|
    ensures i < |s| ==> s[i] == x
    ensures x in s <==> i < |s|
    ensures forall j :: 0 <= j < i ==> s[j] != x
  {
    if s == [] then 0 else if s[0] == x then 0 else 1 + IndexOf(s[1..], x)
  }

  lemma {:induction false} FirstIs<T>(s: seq<T>, i: nat)
    requires i < |s| && s[i] !in s[..i]
    ensures IndexOf(s, s[i]) == i
  {
    assert forall j :: 0 <= j < i ==> s[..i][j] == s[j];
  }

  /** Appends an element unless it is there. */
  function Add<T(==)>(s: seq<T>, x: T): seq<T> { if x in s then s else s + [x] }

  function AddAll<T(==)>(s: seq<T>, xs: seq<T>): seq<T> {
    if xs == [] then s else Add(AddAll(s, xs[..|xs| - 1]), xs[|xs| - 1])
  }

  lemma {:induction false} AddAllAppend<T>(s: seq<T>, xs: seq<T>, ys: seq<T>)
    ensures AddAll(AddAll(s, xs), ys) == AddAll(s, xs + ys)
  {
    if ys == [] {
      assert xs + ys == xs;
    } else {
      AddAllAppend(s, xs, ys[..|ys| - 1]);
      assert (xs + ys)[..|xs + ys| - 1] == xs + ys[..|ys| - 1];
    }
  }

  lemma {:induction false} AddAllFacts<T(!new)>(s: seq<T>, xs: seq<T>)
    ensures s <= AddAll(s, xs)
    ensures Distinct(s) ==> Distinct(AddAll(s, xs))
    ensures forall x :: x in AddAll(s, xs) <==> x in s || x in xs
  {
    if xs != [] {
      AddAllFacts(s, xs[..|xs| - 1]);
      assert xs == xs[..|xs| - 1] + [xs[|xs| - 1]];
    }
  }

  lemma {:induction false} IndexInPrefix<T>(s: seq<T>, t: seq<T>, x: T)
    requires s <= t && x in s
    ensures IndexOf(t, x) == IndexOf(s, x)
  {
    if s[0] != x { IndexInPrefix(s[1..], t[1..], x); }
  }

  ghost predicate Known<T(!new)>(s: seq<T>, xs: seq<T>) { forall x :: x in xs ==> x in s }

  lemma {:induction false} AddAllOne<T>(s: seq<T>, x: T)
    ensures AddAll(s, [x]) == Add(s, x)
  {
    assert [x][..0] == [];
    assert AddAll(s, []) == s;
  }

  lemma {:induction false} KnownAfter<T(!new)>(s: seq<T>, xs: seq<T>)
    ensures Known(AddAll(s, xs), xs) && s <= AddAll(s, xs)
  {
    AddAllFacts(s, xs);
  }

  lemma {:induction false} KnownMore<T(!new)>(s: seq<T>, more: seq<T>, xs: seq<T>)
    requires Known(s, xs) && s <= more
    ensures Known(more, xs)
  {
  }

  lemma {:induction false} Assoc<T>(a: seq<T>, b: seq<T>, c: seq<T>)
    ensures a + b + c == a + (b + c)
  {
  }

  /** Numbering in two steps: the numbers of the first step still hold after the second. */
  lemma {:induction false} Numbered<T(!new)>(start: seq<T>, xs: seq<T>, ys: seq<T>)
    ensures AddAll(AddAll(start, xs), ys) == AddAll(start, xs + ys)
    ensures AddAll(start, xs) <= AddAll(start, xs + ys)
    ensures Known(AddAll(start, xs), xs)
  {
    AddAllAppend(start, xs, ys);
    KnownAfter(start, xs);
    KnownAfter(AddAll(start, xs), ys);
  }
}
