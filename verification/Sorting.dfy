/** Stable sorting of sequences by a comparison, and filtering: the `sort` and
    `filter` of JavaScript arrays, as used by every script modelled here. */
module Sorting {

  /** A comparison that is reflexive, transitive and connected. */
  ghost predicate TotalPreorder<T(!new)>(le: (T, T) -> bool) {
    && (forall a, b :: le(a, b) || le(b, a))
    && (forall a, b, c :: le(a, b) && le(b, c) ==> le(a, c))
  }

  ghost predicate SortedBy<T(!new)>(s: seq<T>, le: (T, T) -> bool) {
    forall i, j :: 0 <= i < j < |s| ==> le(s[i], s[j])
  }

  ghost predicate NoTies<T(!new)>(s: seq<T>, le: (T, T) -> bool) {
    forall a, b :: a in s && b in s && le(a, b) && le(b, a) ==> a == b
  }

  function Insert<T>(x: T, s: seq<T>, le: (T, T) -> bool): seq<T> {
    if s == [] then [x]
    else if le(x, s[0]) then [x] + s
    else [s[0]] + Insert(x, s[1..], le)
  }

  /** Stable: an element stays ahead of the later ones it compares equal to. */
  function Sort<T>(s: seq<T>, le: (T, T) -> bool): seq<T> {
    if s == [] then [] else Insert(s[0], Sort(s[1..], le), le)
  }

  function Filter<T>(s: seq<T>, keep: T -> bool): seq<T> {
    if s == [] then []
    else if keep(s[0]) then [s[0]] + Filter(s[1..], keep)
    else Filter(s[1..], keep)
  }

  function Map<T, U>(s: seq<T>, f: T -> U): (r: seq<U>)
    ensures |r| == |s|
    ensures forall i :: 0 <= i < |s| ==> r[i] == f(s[i])
  {
    seq(|s|, i requires 0 <= i < |s| => f(s[i]))
  }

  ghost predicate Distinct<T>(s: seq<T>) {
    forall i, j :: 0 <= i < j < |s| ==> s[i] != s[j]
  }

  /** Sum of `size` over the elements. */
  function Sum<T>(s: seq<T>, size: T -> int): int {
    if s == [] then 0 else Sum(s[..|s| - 1], size) + size(s[|s| - 1])
  }

  lemma {:induction false} SumAppend<T>(s: seq<T>, t: seq<T>, size: T -> int)
    ensures Sum(s + t, size) == Sum(s, size) + Sum(t, size)
  {
    if t == [] {
      assert s + t == s;
    } else {
      SumAppend(s, t[..|t| - 1], size);
      assert (s + t)[..|s + t| - 1] == s + t[..|t| - 1];
    }
  }

  lemma {:induction false} SumOne<T>(x: T, size: T -> int)
    ensures Sum([x], size) == size(x)
  {
    assert [x][..0] == [];
    assert Sum([], size) == 0;
  }

  lemma {:induction false} SumRemove<T>(s: seq<T>, i: nat, size: T -> int)
    requires i < |s|
    ensures Sum(s, size) == Sum(s[..i] + s[i + 1..], size) + size(s[i])
    ensures multiset(s) == multiset(s[..i] + s[i + 1..]) + multiset{s[i]}
  {
    assert s == s[..i] + ([s[i]] + s[i + 1..]);
    SumAppend(s[..i], [s[i]] + s[i + 1..], size);
    SumAppend([s[i]], s[i + 1..], size);
    SumAppend(s[..i], s[i + 1..], size);
    assert [s[i]][..0] == [];
  }

  lemma {:induction false} SumPermutation<T>(s: seq<T>, t: seq<T>, size: T -> int)
    requires multiset(s) == multiset(t)
    ensures Sum(s, size) == Sum(t, size)
    decreases |s|
  {
    if s == [] {
      assert |multiset(t)| == 0;
    } else {
      assert s[0] in multiset(t);
      var i :| 0 <= i < |t| && t[i] == s[0];
      SumRemove(s, 0, size);
      SumRemove(t, i, size);
      var s', t' := s[..0] + s[0 + 1..], t[..i] + t[i + 1..];
      assert multiset(s') == multiset(s) - multiset{s[0]};
      assert multiset(t') == multiset(t) - multiset{s[0]};
      SumPermutation(s', t', size);
    }
  }

  function Not<T>(keep: T -> bool): T -> bool { x => !keep(x) }

  lemma {:induction false} SumFilter<T>(s: seq<T>, keep: T -> bool, drop: T -> bool, size: T -> int)
    requires forall x :: x in s ==> keep(x) != drop(x)
    ensures Sum(Filter(s, keep), size) + Sum(Filter(s, drop), size) == Sum(s, size)
  {
    if s != [] {
      SumFilter(s[1..], keep, drop, size);
      assert s == [s[0]] + s[1..];
      SumAppend([s[0]], s[1..], size);
      SumAppend([s[0]], Filter(s[1..], keep), size);
      SumAppend([s[0]], Filter(s[1..], drop), size);
    }
  }

  lemma {:induction false} SumNonNegative<T>(s: seq<T>, size: T -> int)
    requires forall x :: x in s ==> size(x) >= 0
    ensures Sum(s, size) >= 0
  {
    if s != [] { SumNonNegative(s[..|s| - 1], size); }
  }

  lemma {:induction false} DistinctPermutation<T>(s: seq<T>, t: seq<T>)
    requires Distinct(s) && Distinct(t)
    requires forall x :: x in s <==> x in t
    ensures multiset(s) == multiset(t)
  {
    forall x ensures multiset(s)[x] == multiset(t)[x] {
      DistinctCount(s, x);
      DistinctCount(t, x);
    }
  }

  lemma {:induction false} DistinctCount<T>(s: seq<T>, x: T)
    requires Distinct(s)
    ensures multiset(s)[x] == if x in s then 1 else 0
  {
    if s != [] {
      assert s == [s[0]] + s[1..];
      DistinctCount(s[1..], x);
    }
  }

  lemma {:induction false} PermutationDistinct<T>(s: seq<T>, t: seq<T>)
    requires Distinct(s) && multiset(s) == multiset(t)
    ensures Distinct(t)
    ensures forall x :: x in s <==> x in t
  {
    forall x ensures x in s <==> x in t {
      assert x in s <==> x in multiset(s);
      assert x in t <==> x in multiset(t);
    }
    if !Distinct(t) {
      var i, j :| 0 <= i < j < |t| && t[i] == t[j];
      assert t == t[..i] + [t[i]] + t[i + 1..j] + [t[j]] + t[j + 1..];
      assert multiset(t)[t[i]] >= 2;
      DistinctCount(s, t[i]);
    }
  }

  lemma {:induction false} InsertContents<T>(x: T, s: seq<T>, le: (T, T) -> bool)
    ensures multiset(Insert(x, s, le)) == multiset(s) + multiset{x}
  {
    if s != [] && !le(x, s[0]) {
      InsertContents(x, s[1..], le);
      assert s == [s[0]] + s[1..];
    }
  }

  lemma {:induction false} SortContents<T>(s: seq<T>, le: (T, T) -> bool)
    ensures multiset(Sort(s, le)) == multiset(s)
    ensures |Sort(s, le)| == |s|
  {
    if s != [] {
      SortContents(s[1..], le);
      InsertContents(s[0], Sort(s[1..], le), le);
      assert s == [s[0]] + s[1..];
      assert |multiset(Sort(s, le))| == |multiset(s)|;
    }
  }

  lemma {:induction false} InsertSorted<T(!new)>(x: T, s: seq<T>, le: (T, T) -> bool)
    requires TotalPreorder(le) && SortedBy(s, le)
    ensures SortedBy(Insert(x, s, le), le)
  {
    if s != [] && !le(x, s[0]) {
      InsertSorted(x, s[1..], le);
      InsertContents(x, s[1..], le);
      var rest := Insert(x, s[1..], le);
      forall k | 0 <= k < |rest| ensures le(s[0], rest[k]) {
        assert rest[k] in multiset(rest);
        assert rest[k] in multiset(s[1..]) || rest[k] == x;
      }
    }
  }

  lemma {:induction false} SortSorted<T(!new)>(s: seq<T>, le: (T, T) -> bool)
    requires TotalPreorder(le)
    ensures SortedBy(Sort(s, le), le)
  {
    if s != [] {
      SortSorted(s[1..], le);
      InsertSorted(s[0], Sort(s[1..], le), le);
    }
  }

  lemma {:induction false} FilterMember<T>(s: seq<T>, keep: T -> bool, x: T)
    ensures x in Filter(s, keep) <==> x in s && keep(x)
  {
    if s != [] {
      FilterMember(s[1..], keep, x);
      assert s == [s[0]] + s[1..];
    }
  }

  lemma {:induction false} FilterAll<T>(s: seq<T>, keep: T -> bool)
    requires forall x :: x in s ==> keep(x)
    ensures Filter(s, keep) == s
  {
    if s != [] { FilterAll(s[1..], keep); }
  }

  lemma {:induction false} FilterNone<T>(s: seq<T>, keep: T -> bool)
    requires forall x :: x in s ==> !keep(x)
    ensures Filter(s, keep) == []
  {
    if s != [] { FilterNone(s[1..], keep); }
  }

  lemma {:induction false} FilterAppend<T>(s: seq<T>, t: seq<T>, keep: T -> bool)
    ensures Filter(s + t, keep) == Filter(s, keep) + Filter(t, keep)
  {
    if s == [] {
      assert s + t == t;
    } else {
      FilterAppend(s[1..], t, keep);
      assert (s + t)[1..] == s[1..] + t;
      assert (s + t)[0] == s[0];
    }
  }

  lemma {:induction false} FilterInsert<T(!new)>(x: T, s: seq<T>, le: (T, T) -> bool, keep: T -> bool)
    requires TotalPreorder(le) && SortedBy(s, le)
    ensures Filter(Insert(x, s, le), keep)
         == if keep(x) then Insert(x, Filter(s, keep), le) else Filter(s, keep)
  {
    if s != [] {
      if le(x, s[0]) {
        assert ([x] + s)[1..] == s;
        var kept := Filter(s, keep);
        if kept != [] {
          FilterMember(s, keep, kept[0]);
          assert kept[0] in kept;
        }
      } else {
        FilterInsert(x, s[1..], le, keep);
        var rest := Filter(s[1..], keep);
        assert ([s[0]] + Insert(x, s[1..], le))[1..] == Insert(x, s[1..], le);
        if keep(s[0]) {
          assert ([s[0]] + rest)[1..] == rest;
          assert keep(x) ==> Insert(x, Filter(s, keep), le) == [s[0]] + Insert(x, rest, le);
        }
      }
    }
  }

  /** Sorting is stable, so it commutes with filtering. */
  lemma {:induction false} FilterSort<T(!new)>(s: seq<T>, le: (T, T) -> bool, keep: T -> bool)
    requires TotalPreorder(le)
    ensures Filter(Sort(s, le), keep) == Sort(Filter(s, keep), le)
  {
    if s != [] {
      FilterSort(s[1..], le, keep);
      SortSorted(s[1..], le);
      FilterInsert(s[0], Sort(s[1..], le), le, keep);
      if keep(s[0]) {
        assert ([s[0]] + Filter(s[1..], keep))[1..] == Filter(s[1..], keep);
      }
    }
  }

  lemma {:induction false} FilterDistinct<T>(s: seq<T>, keep: T -> bool)
    requires Distinct(s)
    ensures Distinct(Filter(s, keep))
  {
    if s != [] {
      FilterDistinct(s[1..], keep);
      var r := Filter(s[1..], keep);
      forall k | 0 <= k < |r| ensures r[k] != s[0] {
        assert r[k] in r;
        FilterMember(s[1..], keep, r[k]);
      }
    }
  }

  lemma {:induction false} SortDistinct<T>(s: seq<T>, le: (T, T) -> bool)
    requires Distinct(s)
    ensures Distinct(Sort(s, le))
    ensures forall x :: x in Sort(s, le) <==> x in s
  {
    SortContents(s, le);
    PermutationDistinct(s, Sort(s, le));
  }

  lemma {:induction false} MapMember<T, U>(s: seq<T>, f: T -> U, y: U) returns (x: T)
    requires y in Map(s, f)
    ensures x in s && f(x) == y
  {
    var i :| 0 <= i < |s| && Map(s, f)[i] == y;
    x := s[i];
  }

  /** What compares equal throughout stays as it is. */
  lemma {:induction false} SortTies<T(!new)>(s: seq<T>, le: (T, T) -> bool)
    requires forall a, b :: a in s && b in s ==> le(a, b)
    ensures Sort(s, le) == s
  {
    if s != [] {
      SortTies(s[1..], le);
      assert s == [s[0]] + s[1..] && s[0] in s;
      assert s[1..] != [] ==> s[1] in s;
    }
  }

  /** Without ties there is one way to arrange given contents. */
  lemma {:induction false} SortedUnique<T(!new)>(s: seq<T>, t: seq<T>, le: (T, T) -> bool)
    requires TotalPreorder(le)
    requires NoTies(s, le)
    requires SortedBy(s, le) && SortedBy(t, le) && multiset(s) == multiset(t)
    ensures s == t
  {
    assert |multiset(s)| == |multiset(t)|;
    if s != [] {
      assert s[0] in multiset(t) && t[0] in multiset(s);
      HeadBelow(s, t[0], le);
      HeadBelow(t, s[0], le);
      assert s[0] == t[0];
      TailPermutation(s, t);
      NoTiesInTail(s, le);
      SortedUnique(s[1..], t[1..], le);
      assert s == [s[0]] + s[1..] && t == [t[0]] + t[1..];
    }
  }

  lemma {:induction false} NoTiesInTail<T(!new)>(s: seq<T>, le: (T, T) -> bool)
    requires s != [] && NoTies(s, le)
    ensures NoTies(s[1..], le)
  {
    assert forall a :: a in s[1..] ==> a in s;
  }

  lemma {:induction false} TailPermutation<T>(s: seq<T>, t: seq<T>)
    requires s != [] && t != [] && s[0] == t[0] && multiset(s) == multiset(t)
    ensures multiset(s[1..]) == multiset(t[1..])
  {
    assert s == [s[0]] + s[1..] && t == [t[0]] + t[1..];
    assert multiset(s[1..]) == multiset(s) - multiset{s[0]};
    assert multiset(t[1..]) == multiset(t) - multiset{s[0]};
  }

  lemma {:induction false} HeadBelow<T(!new)>(s: seq<T>, x: T, le: (T, T) -> bool)
    requires TotalPreorder(le) && SortedBy(s, le) && x in s
    ensures le(s[0], x)
  {
    var i :| 0 <= i < |s| && s[i] == x;
  }
}
