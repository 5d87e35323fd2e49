/** Canonical composition: the table that scripts/generate-unicode-data.ts derives from the
    decompositions (the exclusions are those of section 5 of UAX #15) and the search of
    runtime/src/unicode.c, with the arithmetic for Hangul syllables. */
module UnicodeComposition {
  import opened Optional
  import opened Sorting
  import opened UnicodeTables
  import CombiningClassPages

  /** The parts of the character database used here. */
  datatype Ucd = Ucd(decompositions: seq<Decomposition>, classes: seq<CombiningClassPages.Class>, excluded: set<nat>)

  predicate HasClass(u: Ucd, cp: nat) { exists i :: 0 <= i < |u.classes| && u.classes[i].cp == cp }

  // ------------------------------------------------------------------------ the table

  datatype Pair = Pair(first: nat, second: nat, cp: nat)

  /** Two values, not a compatibility mapping, not excluded, and a first value that has no
      combining class. */
  function Eligible(u: Ucd): Decomposition -> bool {
    (d: Decomposition) =>
      !d.compatibility && |d.values| == 2 && d.cp !in u.excluded && !HasClass(u, d.values[0])
  }

  function AsPair(d: Decomposition): Pair {
    if |d.values| == 2 then Pair(d.values[0], d.values[1], d.cp) else Pair(0, 0, d.cp)
  }

  predicate Before(first: nat, second: nat, p: Pair) {
    p.first < first || (p.first == first && p.second < second)
  }

  predicate ByPair(a: Pair, b: Pair) { !Before(a.first, a.second, b) }

  function Pairs(u: Ucd): seq<Pair> {
    Sort(Map(Filter(u.decompositions, Eligible(u)), AsPair), ByPair)
  }

  function Flat(pairs: seq<Pair>): seq<nat> {
    if pairs == [] then [] else
      var p := pairs[|pairs| - 1];
      Flat(pairs[..|pairs| - 1]) + [p.first, p.second, p.cp]
  }

  lemma {:induction false} FlatAt(pairs: seq<Pair>, i: nat)
    ensures |Flat(pairs)| == 3 * |pairs|
    ensures i < |pairs| ==> Flat(pairs)[3 * i..3 * i + 3] == [pairs[i].first, pairs[i].second, pairs[i].cp]
  {
    if pairs != [] { FlatAt(pairs[..|pairs| - 1], i); }
  }

  // ------------------------------------------------------------------- what composes

  const L := 0x1100
  const V := 0x1161
  const T := 0x11a7
  const S := 0xac00

  predicate IsL(cp: nat) { L <= cp < L + 19 }
  predicate IsV(cp: nat) { V <= cp < V + 21 }
  predicate IsT(cp: nat) { T < cp < T + 28 }
  predicate IsSyllable(cp: nat) { S <= cp < S + 11172 }
  predicate IsLV(cp: nat) { IsSyllable(cp) && (cp - S) % 28 == 0 }

  function Composes(u: Ucd, first: nat, second: nat): Decomposition -> bool {
    (d: Decomposition) => Eligible(u)(d) && d.values == [first, second]
  }

  function Found(u: Ucd, first: nat, second: nat): seq<Decomposition> {
    Filter(u.decompositions, Composes(u, first, second))
  }

  /** The composite of two code points, 0 if there is none: a Hangul syllable, or the first
      eligible code point that decomposes into them. */
  function Composite(u: Ucd, first: nat, second: nat): nat {
    if IsL(first) && IsV(second) then S + ((first - L) * 21 + second - V) * 28
    else if IsLV(first) && IsT(second) then first + second - T
    else
      var found := Found(u, first, second);
      if found == [] then 0 else found[0].cp
  }

  // ----------------------------------------------------------------------- the search

  function IsPair(first: nat, second: nat): Pair -> bool { (p: Pair) => p.first == first && p.second == second }

  /** In the sorted table a pair's compositions stay in the order of the database. */
  lemma {:induction false} PairsOf(u: Ucd, first: nat, second: nat)
    ensures Filter(Pairs(u), IsPair(first, second))
         == Map(Found(u, first, second), AsPair)
    ensures SortedBy(Pairs(u), ByPair)
  {
    var eligible := Filter(u.decompositions, Eligible(u));
    var pairs, mine := Map(eligible, AsPair), IsPair(first, second);
    FilterSort(pairs, ByPair, mine);
    SortSorted(pairs, ByPair);
    var ties := Filter(pairs, mine);
    forall a, b | a in ties && b in ties ensures ByPair(a, b) {
      FilterMember(pairs, mine, a);
      FilterMember(pairs, mine, b);
    }
    SortTies(ties, ByPair);
    EligiblePairs(u, u.decompositions, first, second);
  }

  lemma {:induction false} EligiblePairs(u: Ucd, ds: seq<Decomposition>, first: nat, second: nat)
    ensures Filter(Map(Filter(ds, Eligible(u)), AsPair), IsPair(first, second))
         == Map(Filter(ds, Composes(u, first, second)), AsPair)
  {
    if ds != [] {
      var d, rest := ds[0], Filter(ds[1..], Eligible(u));
      EligiblePairs(u, ds[1..], first, second);
      if Eligible(u)(d) {
        assert Map([d] + rest, AsPair) == [AsPair(d)] + Map(rest, AsPair);
        assert Composes(u, first, second)(d) <==> IsPair(first, second)(AsPair(d));
        var kept := Filter(ds[1..], Composes(u, first, second));
        assert Map([d] + kept, AsPair) == [AsPair(d)] + Map(kept, AsPair);
      }
    }
  }

  /** The first element kept by a filter, found by its place. */
  lemma {:induction false} FilterFirst(pairs: seq<Pair>, keep: Pair -> bool, low: nat)
    requires low <= |pairs| && forall i :: 0 <= i < low ==> !keep(pairs[i])
    requires low < |pairs| ==> keep(pairs[low])
    ensures low < |pairs| ==> Filter(pairs, keep) != [] && Filter(pairs, keep)[0] == pairs[low]
    ensures low == |pairs| ==> Filter(pairs, keep) == []
  {
    if low > 0 { FilterFirst(pairs[1..], keep, low - 1); }
  }

  /** The cells of the table are the pairs. */
  ghost predicate Tabled(table: seq<nat>, pairs: seq<Pair>) {
    && |table| == 3 * |pairs|
    && forall i :: 0 <= i < |pairs| ==>
         table[3 * i] == pairs[i].first && table[3 * i + 1] == pairs[i].second && table[3 * i + 2] == pairs[i].cp
  }

  lemma {:induction false} FlatTabled(pairs: seq<Pair>)
    ensures Tabled(Flat(pairs), pairs)
  {
    var table := Flat(pairs);
    FlatAt(pairs, 0);
    forall i | 0 <= i < |pairs|
      ensures table[3 * i] == pairs[i].first && table[3 * i + 1] == pairs[i].second && table[3 * i + 2] == pairs[i].cp
    {
      FlatAt(pairs, i);
      var row := table[3 * i..3 * i + 3];
      assert row[0] == table[3 * i] && row[1] == table[3 * i + 1] && row[2] == table[3 * i + 2];
    }
  }

  method SearchPairs(table: seq<nat>, ghost pairs: seq<Pair>, first: nat, second: nat) returns (c: nat)
    requires Tabled(table, pairs) && SortedBy(pairs, ByPair)
    ensures var mine := Filter(pairs, IsPair(first, second));
      c == if mine == [] then 0 else mine[0].cp
  {
    var low, high := 0, |table| / 3;
    while low < high
      invariant 0 <= low <= high <= |pairs|
      invariant forall i :: 0 <= i < low ==> Before(first, second, pairs[i])
      invariant forall i :: high <= i < |pairs| ==> !Before(first, second, pairs[i])
    {
      var middle := low + (high - low) / 2;
      var index := middle * 3;
      ByPairAround(pairs, first, second, middle);
      if table[index] < first || (table[index] == first && table[index + 1] < second) {
        low := middle + 1;
      } else {
        high := middle;
      }
    }
    var index := low * 3;
    SearchEnds(pairs, first, second, low);
    if index < |table| && table[index] == first && table[index + 1] == second {
      c := table[index + 2];
    } else {
      c := 0;
    }
  }

  lemma {:induction false} ByPairAround(pairs: seq<Pair>, first: nat, second: nat, middle: nat)
    requires SortedBy(pairs, ByPair) && middle < |pairs|
    ensures Before(first, second, pairs[middle]) ==> forall i :: 0 <= i <= middle ==> Before(first, second, pairs[i])
    ensures !Before(first, second, pairs[middle]) ==>
      forall i :: middle <= i < |pairs| ==> !Before(first, second, pairs[i])
  {
    assert forall i :: 0 <= i < middle ==> ByPair(pairs[i], pairs[middle]);
    assert forall i :: middle < i < |pairs| ==> ByPair(pairs[middle], pairs[i]);
  }

  lemma {:induction false} SearchEnds(pairs: seq<Pair>, first: nat, second: nat, low: nat)
    requires low <= |pairs| && SortedBy(pairs, ByPair)
    requires forall i :: 0 <= i < low ==> Before(first, second, pairs[i])
    requires forall i :: low <= i < |pairs| ==> !Before(first, second, pairs[i])
    ensures var mine := Filter(pairs, IsPair(first, second));
      if low < |pairs| && IsPair(first, second)(pairs[low]) then mine != [] && mine[0] == pairs[low] else mine == []
  {
    var keep := IsPair(first, second);
    if low < |pairs| && keep(pairs[low]) {
      FilterFirst(pairs, keep, low);
    } else {
      forall i | 0 <= i < |pairs| ensures !keep(pairs[i]) {
        if i > low { assert ByPair(pairs[low], pairs[i]); }
      }
      FilterNone(pairs, keep);
    }
  }

  method FindComposite(ghost u: Ucd, table: seq<nat>, first: nat, second: nat) returns (c: nat)
    requires table == Flat(Pairs(u))
    ensures c == Composite(u, first, second)
  {
    if first >= 0x1100 && first < 0x1113 && second >= 0x1161 && second < 0x1176 {
      return 0xac00 + ((first - 0x1100) * 21 + second - 0x1161) * 28;
    }
    if first >= 0xac00 && first < 0xd7a4 && (first - 0xac00) % 28 == 0 && second > 0x11a7 && second < 0x11c3 {
      return first + second - 0x11a7;
    }
    PairsOf(u, first, second);
    FlatTabled(Pairs(u));
    c := SearchPairs(table, Pairs(u), first, second);
  }

  // ------------------------------------------------------------------------- undoing

  /** Every row of the composition table is undone by the canonical decomposition of its
      code point. */
  lemma {:induction false} EveryRowUndone(u: Ucd, p: Pair)
    requires DistinctDecompositions(u.decompositions) && p in Pairs(u)
    ensures DecompositionOf(u.decompositions, p.cp) == Some(Decomposition(p.cp, [p.first, p.second], false))
  {
    var eligible := Filter(u.decompositions, Eligible(u));
    SortContents(Map(eligible, AsPair), ByPair);
    assert p in multiset(Pairs(u)) && p in multiset(Map(eligible, AsPair));
    var d := MapMember(eligible, AsPair, p);
    FilterMember(u.decompositions, Eligible(u), d);
    assert d == Decomposition(p.cp, [p.first, p.second], false);
    DecompositionEntry(u.decompositions, d.cp);
  }

  /** A composite found in the table is undone by the decomposition lookup. */
  lemma {:induction false} CompositionUndone(u: Ucd, first: nat, second: nat)
    requires DistinctDecompositions(u.decompositions) && Found(u, first, second) != []
    ensures var c := Found(u, first, second)[0].cp;
      DecompositionOf(u.decompositions, c) == Some(Decomposition(c, [first, second], false))
  {
    var keep := Composes(u, first, second);
    var d := Found(u, first, second)[0];
    assert d in Found(u, first, second);
    FilterMember(u.decompositions, keep, d);
    assert keep(d) && Eligible(u)(d);
    assert d == Decomposition(d.cp, [first, second], false);
    DecompositionEntry(u.decompositions, d.cp);
  }
}
