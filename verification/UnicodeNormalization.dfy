/** Unicode normalization as runtime/src/unicode.c performs it over the generated tables:
    full decomposition, canonical ordering and canonical composition. Texts are sequences
    of code points; `k` asks for compatibility decompositions as well. */
module UnicodeNormalization {
  import opened CanonicalOrdering
  import opened CanonicalOrderingInPlace
  import opened Numbering
  import opened Sorting
  import opened UnicodeComposition
  import opened UnicodeTables
  import CombiningClassPages

  /** The class the runtime reads; below 0x80 and past the last code point it is 0. */
  function ClassIn(u: Ucd): Class {
    (cp: nat) =>
      var c := CombiningClassPages.ClassIn(u.classes, |u.classes|, cp);
      if cp < 0x80 || cp >= CombiningClassPages.CODE_POINTS || !(0 <= c <= 255) then 0 else c
  }

  type Pages = CombiningClassPages.Tables

  /** The two-level table generated from the classes. */
  ghost predicate PagesOf(u: Ucd, t: Pages) {
    CombiningClassPages.Bytes(u.classes) && exists flat: seq<nat> :: FlatOf(u, t, flat)
  }

  ghost predicate FlatOf(u: Ucd, t: Pages, flat: seq<nat>) {
    && |flat| == CombiningClassPages.CODE_POINTS && CombiningClassPages.Holds(t, flat)
    && forall x :: 0 <= x < |flat| ==> flat[x] == CombiningClassPages.ClassIn(u.classes, |u.classes|, x)
  }

  predicate Indexed(t: Pages) {
    && |t.pages| == CombiningClassPages.CODE_POINTS / 256
    && forall i :: 0 <= i < |t.pages| ==> 256 * t.pages[i] + 256 <= |t.values|
  }

  /** The class the runtime reads from the pages. */
  function PageClass(t: Pages): Class
    requires Indexed(t)
  {
    (cp: nat) => CombiningClassPages.ClassOf(t, cp)
  }

  /** It is the class of the database. */
  lemma {:induction false} RuntimeClass(u: Ucd, t: Pages)
    requires PagesOf(u, t)
    ensures Indexed(t) && forall cp :: PageClass(t)(cp) == ClassIn(u)(cp) < 256
  {
    var flat: seq<nat> :| FlatOf(u, t, flat);
    CombiningClassPages.ReadsFlatTable(t, flat);
    forall cp ensures PageClass(t)(cp) == ClassIn(u)(cp) < 256 { ClassIsByte(u.classes, |u.classes|, cp); }
  }

  lemma {:induction false} PlaceSame(ccc: Class, ccc': Class, s: seq<nat>, x: nat)
    requires forall y :: ccc(y) == ccc'(y)
    ensures Place(ccc, s, x) == Place(ccc', s, x)
  {
    if s != [] { PlaceSame(ccc, ccc', s[..|s| - 1], x); }
  }

  lemma {:induction false} OrderSame(ccc: Class, ccc': Class, p: seq<nat>)
    requires forall y :: ccc(y) == ccc'(y)
    ensures Order(ccc, p) == Order(ccc', p)
  {
    if p != [] {
      OrderSame(ccc, ccc', p[..|p| - 1]);
      PlaceSame(ccc, ccc', Order(ccc, p[..|p| - 1]), p[|p| - 1]);
    }
  }

  lemma {:induction false} ClassIsByte(classes: seq<CombiningClassPages.Class>, n: nat, cp: nat)
    requires CombiningClassPages.Bytes(classes) && n <= |classes|
    ensures 0 <= CombiningClassPages.ClassIn(classes, n, cp) <= 255
  {
    if n > 0 { ClassIsByte(classes, n - 1, cp); }
  }

  // ------------------------------------------------------------- full decomposition

  type Rank = nat -> nat

  /** Decompositions lead to lower ranks, so a chain of them ends. */
  ghost predicate Acyclic(u: Ucd, rank: Rank) {
    forall d, v :: d in u.decompositions && v in d.values ==> rank(v) < rank(d.cp)
  }

  /** One entry a code point, and none for those the code treats by itself: below 0x80,
      Hangul syllables, and the jamo they are made of. */
  ghost predicate Regular(u: Ucd) {
    && DistinctDecompositions(u.decompositions)
    && forall d :: d in u.decompositions ==>
         d.cp >= 0x80 && !IsSyllable(d.cp) && !IsL(d.cp) && !IsV(d.cp) && !IsT(d.cp)
  }

  ghost predicate Sound(u: Ucd, rank: Rank) { Acyclic(u, rank) && Regular(u) }

  function Jamo(cp: nat): seq<nat>
    requires IsSyllable(cp)
  {
    var s := cp - S;
    [L + s / 588, V + (s % 588) / 28] + if s % 28 == 0 then [] else [T + s % 28]
  }

  ghost function Height(rank: Rank, points: seq<nat>): nat {
    if points == [] then 0 else
      var h, r := Height(rank, points[..|points| - 1]), rank(points[|points| - 1]) + 1;
      if r > h then r else h
  }

  lemma {:induction false} HeightBelow(rank: Rank, points: seq<nat>, limit: nat)
    requires forall v :: v in points ==> rank(v) < limit
    ensures Height(rank, points) <= limit
  {
    if points != [] { HeightBelow(rank, points[..|points| - 1], limit); }
  }

  lemma {:induction false} EntryHeight(u: Ucd, rank: Rank, cp: nat)
    requires Acyclic(u, rank) && DecompositionOf(u.decompositions, cp).Some?
    ensures Height(rank, DecompositionOf(u.decompositions, cp).value.values) <= rank(cp)
  {
    DecompositionEntry(u.decompositions, cp);
    HeightBelow(rank, DecompositionOf(u.decompositions, cp).value.values, rank(cp));
  }

  ghost function Full(u: Ucd, rank: Rank, k: bool, cp: nat): seq<nat>
    requires Acyclic(u, rank)
    decreases rank(cp) + 1, 0, 0
  {
    if cp < 0x80 then [cp]
    else if IsSyllable(cp) then Jamo(cp)
    else match DecompositionOf(u.decompositions, cp)
      case None => [cp]
      case Some(d) =>
        if !k && d.compatibility then [cp]
        else
          EntryHeight(u, rank, cp);
          FullAll(u, rank, k, d.values)
  }

  ghost function FullAll(u: Ucd, rank: Rank, k: bool, points: seq<nat>): seq<nat>
    requires Acyclic(u, rank)
    decreases Height(rank, points), 1, |points|
  {
    if points == [] then []
    else FullAll(u, rank, k, points[..|points| - 1]) + Full(u, rank, k, points[|points| - 1])
  }

  lemma {:induction false} FullAppend(u: Ucd, rank: Rank, k: bool, p: seq<nat>, q: seq<nat>)
    requires Acyclic(u, rank)
    ensures FullAll(u, rank, k, p + q) == FullAll(u, rank, k, p) + FullAll(u, rank, k, q)
  {
    if q == [] {
      assert p + q == p;
    } else {
      FullAppend(u, rank, k, p, q[..|q| - 1]);
      assert (p + q)[..|p + q| - 1] == p + q[..|q| - 1];
    }
  }

  lemma {:induction false} FullNext(u: Ucd, rank: Rank, k: bool, p: seq<nat>, i: nat)
    requires Acyclic(u, rank) && i < |p|
    ensures FullAll(u, rank, k, p[..i + 1]) == FullAll(u, rank, k, p[..i]) + Full(u, rank, k, p[i])
  {
    assert p[..i + 1][..i] == p[..i];
  }

  lemma {:induction false} FullOne(u: Ucd, rank: Rank, k: bool, cp: nat)
    requires Acyclic(u, rank)
    ensures FullAll(u, rank, k, [cp]) == Full(u, rank, k, cp)
  {
    assert [cp][..0] == [];
    assert FullAll(u, rank, k, []) == [];
  }

  /** Nothing in it decomposes any further. */
  ghost predicate Final(u: Ucd, rank: Rank, k: bool, p: seq<nat>)
    requires Acyclic(u, rank)
  {
    forall x :: x in p ==> Full(u, rank, k, x) == [x]
  }

  lemma {:induction false} PlainPoint(u: Ucd, rank: Rank, k: bool, cp: nat)
    requires Sound(u, rank) && (IsL(cp) || IsV(cp) || IsT(cp))
    ensures Full(u, rank, k, cp) == [cp]
  {
    DecompositionEntry(u.decompositions, cp);
  }

  lemma {:induction false} JamoFinal(u: Ucd, rank: Rank, k: bool, cp: nat)
    requires Sound(u, rank) && IsSyllable(cp)
    ensures Final(u, rank, k, Jamo(cp))
  {
    var s := cp - S;
    assert s / 588 < 19 && s % 588 / 28 < 21 && s % 28 < 28;
    PlainPoint(u, rank, k, L + s / 588);
    PlainPoint(u, rank, k, V + s % 588 / 28);
    if s % 28 != 0 { PlainPoint(u, rank, k, T + s % 28); }
  }

  /** A full decomposition is full. */
  lemma {:induction false} FullFinal(u: Ucd, rank: Rank, k: bool, cp: nat)
    requires Sound(u, rank)
    ensures Final(u, rank, k, Full(u, rank, k, cp))
    decreases rank(cp) + 1, 0, 0
  {
    if cp >= 0x80 && IsSyllable(cp) {
      JamoFinal(u, rank, k, cp);
    } else if cp >= 0x80 && DecompositionOf(u.decompositions, cp).Some? {
      var d := DecompositionOf(u.decompositions, cp).value;
      if k || !d.compatibility {
        EntryHeight(u, rank, cp);
        FullAllFinal(u, rank, k, d.values);
      }
    }
  }

  lemma {:induction false} FullAllFinal(u: Ucd, rank: Rank, k: bool, points: seq<nat>)
    requires Sound(u, rank)
    ensures Final(u, rank, k, FullAll(u, rank, k, points))
    decreases Height(rank, points), 1, |points|
  {
    if points != [] {
      FullAllFinal(u, rank, k, points[..|points| - 1]);
      FullFinal(u, rank, k, points[|points| - 1]);
    }
  }

  lemma {:induction false} FinalFixed(u: Ucd, rank: Rank, k: bool, p: seq<nat>)
    requires Acyclic(u, rank) && Final(u, rank, k, p)
    ensures FullAll(u, rank, k, p) == p
  {
    if p != [] {
      assert p == p[..|p| - 1] + [p[|p| - 1]];
      FinalFixed(u, rank, k, p[..|p| - 1]);
    }
  }

  // -------------------------------------------------- composites decompose to their parts

  lemma {:induction false} SyllableParts(l: nat, v: nat)
    requires IsL(l) && IsV(v)
    ensures var c := S + ((l - L) * 21 + v - V) * 28;
      IsLV(c) && Jamo(c) == [l, v]
  {
    var x, y := l - L, v - V;
    var s := (x * 21 + y) * 28;
    assert s == x * 588 + y * 28 && 0 <= y * 28 < 588;
    assert s / 588 == x && s % 588 == y * 28 && s % 28 == 0;
  }

  lemma {:induction false} SyllableWithTail(lv: nat, t: nat)
    requires IsLV(lv) && IsT(t)
    ensures var c := lv + t - T;
      IsSyllable(c) && Jamo(c) == Jamo(lv) + [t]
  {
    var s, x := lv - S, t - T;
    var q := s / 28;
    assert s == 28 * q && 0 < x < 28 && q < 399;
    assert (s + x) % 28 == x && (s + x) / 588 == s / 588 && (s + x) % 588 / 28 == s % 588 / 28;
  }

  /** Composing two code points does not change what they decompose into. */
  lemma {:induction false} CompositeKeepsFull(u: Ucd, rank: Rank, k: bool, a: nat, b: nat)
    requires Sound(u, rank) && Composite(u, a, b) != 0
    ensures Full(u, rank, k, Composite(u, a, b)) == Full(u, rank, k, a) + Full(u, rank, k, b)
  {
    var c := Composite(u, a, b);
    if IsL(a) && IsV(b) {
      SyllableParts(a, b);
      PlainPoint(u, rank, k, a);
      PlainPoint(u, rank, k, b);
    } else if IsLV(a) && IsT(b) {
      SyllableWithTail(a, b);
      PlainPoint(u, rank, k, b);
    } else {
      CompositionUndone(u, a, b);
      DecompositionEntry(u.decompositions, c);
      assert [a, b] == [a] + [b];
      FullAppend(u, rank, k, [a], [b]);
      FullOne(u, rank, k, a);
      FullOne(u, rank, k, b);
    }
  }

  // -------------------------------------------------------------------- composition

  /** What has been written, where the last starter is (-1 for none) and the class of the
      last code point kept. */
  datatype Composing = Composing(out: seq<nat>, starter: int, previous: nat)

  function ComposeStep(u: Ucd, st: Composing, cp: nat): Composing {
    var ccc := ClassIn(u)(cp);
    var composite :=
      if 0 <= st.starter < |st.out| && (st.previous == 0 || st.previous < ccc)
      then Composite(u, st.out[st.starter], cp) else 0;
    if composite != 0 && 0 <= st.starter < |st.out| then st.(out := st.out[st.starter := composite])
    else Keep(st, cp, ccc)
  }

  function Composed(u: Ucd, p: seq<nat>): Composing {
    if p == [] then Composing([], -1, 0) else ComposeStep(u, Composed(u, p[..|p| - 1]), p[|p| - 1])
  }

  function Compose(u: Ucd, p: seq<nat>): seq<nat> { Composed(u, p).out }

  /** The marks kept since the last starter. */
  function Open(st: Composing): seq<nat> {
    if -1 <= st.starter < |st.out| then st.out[st.starter + 1..] else []
  }

  /** Marks that do not decompose, with classes up to the last one kept. */
  ghost predicate OpenMarks(u: Ucd, rank: Rank, k: bool, open: seq<nat>, previous: nat)
    requires Acyclic(u, rank)
  {
    Final(u, rank, k, open) && forall r :: r in open ==> 0 < ClassIn(u)(r) <= previous
  }

  /** The last code point kept has no higher class than the last one read. */
  ghost predicate Tidy(u: Ucd, rank: Rank, k: bool, p: seq<nat>, st: Composing)
    requires Acyclic(u, rank)
  {
    && -1 <= st.starter < |st.out| && OpenMarks(u, rank, k, Open(st), st.previous)
    && (Open(st) == [] ==> st.previous == 0)
    && (Open(st) != [] ==> p != [] && 0 < st.previous <= ClassIn(u)(p[|p| - 1]))
  }

  /** Decomposing and ordering what has been written gives back what has been read. */
  ghost predicate Restores(u: Ucd, rank: Rank, k: bool, p: seq<nat>, out: seq<nat>)
    requires Acyclic(u, rank)
  {
    Order(ClassIn(u), FullAll(u, rank, k, out)) == p
  }

  /** A mark may move right past marks of lower classes. */
  lemma {:induction false} MoveMark(ccc: Class, s: seq<nat>, x: nat, r: seq<nat>)
    requires forall y :: y in r ==> 0 < ccc(y) < ccc(x)
    ensures Order(ccc, s + [x] + r) == Order(ccc, s + r + [x])
    decreases |r|
  {
    if r == [] {
      assert s + [x] + r == s + r + [x];
    } else {
      assert r[0] in r;
      ExchangeKeepsOrder(ccc, s, x, r[0], r[1..]);
      assert s + [x] + r == s + [x, r[0]] + r[1..];
      MoveMark(ccc, s + [r[0]], x, r[1..]);
      assert s + [r[0]] + [x] + r[1..] == s + [r[0], x] + r[1..];
      assert s + [r[0]] + r[1..] + [x] == s + r + [x];
    }
  }

  /** Reading one more code point of an ordered text. */
  lemma {:induction false} OneMore(ccc: Class, x: seq<nat>, p: seq<nat>, cp: nat)
    requires Order(ccc, x) == p && Ordered(ccc, p + [cp])
    ensures Order(ccc, x + [cp]) == p + [cp]
  {
    OrderTwice(ccc, x, [cp]);
    OrderedFixed(ccc, p + [cp]);
  }

  lemma {:induction false} KeepRestores(u: Ucd, rank: Rank, k: bool, p: seq<nat>, out: seq<nat>, cp: nat)
    requires Acyclic(u, rank) && Full(u, rank, k, cp) == [cp] && Ordered(ClassIn(u), p + [cp])
    requires Restores(u, rank, k, p, out)
    ensures Restores(u, rank, k, p + [cp], out + [cp])
  {
    FullAppend(u, rank, k, out, [cp]);
    FullOne(u, rank, k, cp);
    OneMore(ClassIn(u), FullAll(u, rank, k, out), p, cp);
  }

  function Keep(st: Composing, cp: nat, ccc: nat): Composing {
    Composing(st.out + [cp], if ccc == 0 then |st.out| else st.starter, ccc)
  }

  lemma {:induction false} KeepTidy(u: Ucd, rank: Rank, k: bool, p: seq<nat>, st: Composing, cp: nat)
    requires Acyclic(u, rank) && Full(u, rank, k, cp) == [cp] && Ordered(ClassIn(u), p + [cp])
    requires Tidy(u, rank, k, p, st)
    ensures Tidy(u, rank, k, p + [cp], Keep(st, cp, ClassIn(u)(cp)))
  {
    var ccc := ClassIn(u);
    var after := Keep(st, cp, ccc(cp));
    if ccc(cp) == 0 {
      assert Open(after) == [];
    } else {
      assert Open(after) == Open(st) + [cp];
      if Open(st) != [] { NextClass(ccc, p, cp); }
    }
  }

  lemma {:induction false} NextClass(ccc: Class, p: seq<nat>, cp: nat)
    requires Ordered(ccc, p + [cp]) && p != [] && ccc(cp) != 0
    ensures ccc(p[|p| - 1]) <= ccc(cp)
  {
    var q := p + [cp];
    assert q[|p|] == cp && q[|p| - 1] == p[|p| - 1];
  }

  lemma {:induction false} MergeRestores(u: Ucd, rank: Rank, k: bool, p: seq<nat>, head: seq<nat>, a: nat,
                                         open: seq<nat>, cp: nat)
    requires Sound(u, rank) && Full(u, rank, k, cp) == [cp] && Ordered(ClassIn(u), p + [cp])
    requires Restores(u, rank, k, p, head + [a] + open) && Final(u, rank, k, open)
    requires Composite(u, a, cp) != 0 && forall r :: r in open ==> 0 < ClassIn(u)(r) < ClassIn(u)(cp)
    ensures Restores(u, rank, k, p + [cp], head + [Composite(u, a, cp)] + open)
  {
    var c, before := Composite(u, a, cp), FullAll(u, rank, k, head);
    var y := before + Full(u, rank, k, a);
    FinalFixed(u, rank, k, open);
    CompositeKeepsFull(u, rank, k, a, cp);
    FullAround(u, rank, k, head, a, open);
    FullAround(u, rank, k, head, c, open);
    Regroup(before, Full(u, rank, k, a), [cp], open);
    MoveMark(ClassIn(u), y, cp, open);
    OneMore(ClassIn(u), y + open, p, cp);
  }

  lemma {:induction false} Regroup(a: seq<nat>, b: seq<nat>, c: seq<nat>, d: seq<nat>)
    ensures a + (b + c) + d == a + b + c + d
  {
  }

  lemma {:induction false} MergeStep(u: Ucd, rank: Rank, k: bool, p: seq<nat>, st: Composing, cp: nat, c: nat)
    requires Sound(u, rank) && Full(u, rank, k, cp) == [cp] && Ordered(ClassIn(u), p + [cp])
    requires Tidy(u, rank, k, p, st) && Restores(u, rank, k, p, st.out)
    requires st.starter >= 0 && (st.previous == 0 || st.previous < ClassIn(u)(cp))
    requires c == Composite(u, st.out[st.starter], cp) != 0
    ensures Restores(u, rank, k, p + [cp], st.out[st.starter := c])
    ensures Tidy(u, rank, k, p + [cp], st.(out := st.out[st.starter := c]))
  {
    var open, i := Open(st), st.starter;
    var head, a, after := st.out[..i], st.out[i], st.(out := st.out[i := c]);
    assert st.out == head + [a] + open && after.out == head + [c] + open;
    MergeRestores(u, rank, k, p, head, a, open, cp);
    assert Open(after) == open;
    assert (p + [cp])[|p + [cp]| - 1] == cp;
  }

  lemma {:induction false} FullAround(u: Ucd, rank: Rank, k: bool, head: seq<nat>, a: nat, tail: seq<nat>)
    requires Acyclic(u, rank)
    ensures FullAll(u, rank, k, head + [a] + tail)
         == FullAll(u, rank, k, head) + Full(u, rank, k, a) + FullAll(u, rank, k, tail)
  {
    FullAppend(u, rank, k, head + [a], tail);
    FullAppend(u, rank, k, head, [a]);
    FullOne(u, rank, k, a);
  }

  lemma {:induction false} ComposeRestores(u: Ucd, rank: Rank, k: bool, p: seq<nat>)
    requires Sound(u, rank) && Ordered(ClassIn(u), p) && Final(u, rank, k, p)
    ensures Restores(u, rank, k, p, Compose(u, p)) && Tidy(u, rank, k, p, Composed(u, p))
  {
    if p != [] {
      var front, cp := p[..|p| - 1], p[|p| - 1];
      var st := Composed(u, front);
      assert p == front + [cp] && cp in p;
      ComposeRestores(u, rank, k, front);
      var ccc := ClassIn(u)(cp);
      if st.starter >= 0 && (st.previous == 0 || st.previous < ccc) && Composite(u, st.out[st.starter], cp) != 0 {
        MergeStep(u, rank, k, front, st, cp, Composite(u, st.out[st.starter], cp));
      } else {
        KeepRestores(u, rank, k, front, st.out, cp);
        KeepTidy(u, rank, k, front, st, cp);
      }
    }
  }

  // ----------------------------------------------------------------- normalization

  /** The decomposed form: NFD, or NFKD with `k`. */
  ghost function Nfd(u: Ucd, rank: Rank, k: bool, s: seq<nat>): seq<nat>
    requires Acyclic(u, rank)
  {
    Order(ClassIn(u), FullAll(u, rank, k, s))
  }

  /** The composed form: NFC, or NFKC with `k`. */
  ghost function Nfc(u: Ucd, rank: Rank, k: bool, s: seq<nat>): seq<nat>
    requires Acyclic(u, rank)
  {
    Compose(u, Nfd(u, rank, k, s))
  }

  lemma {:induction false} NfdIsDecomposed(u: Ucd, rank: Rank, k: bool, s: seq<nat>)
    requires Sound(u, rank)
    ensures Ordered(ClassIn(u), Nfd(u, rank, k, s)) && Final(u, rank, k, Nfd(u, rank, k, s))
  {
    var full := FullAll(u, rank, k, s);
    OrderOrdered(ClassIn(u), full);
    OrderContents(ClassIn(u), full);
    FullAllFinal(u, rank, k, s);
    forall x | x in Nfd(u, rank, k, s) ensures x in full {
      assert x in multiset(Nfd(u, rank, k, s));
    }
  }

  /** Composing loses nothing: decomposing the composed form gives the decomposed form. */
  lemma {:induction false} NfdOfNfc(u: Ucd, rank: Rank, k: bool, s: seq<nat>)
    requires Sound(u, rank)
    ensures Nfd(u, rank, k, Nfc(u, rank, k, s)) == Nfd(u, rank, k, s)
  {
    NfdIsDecomposed(u, rank, k, s);
    ComposeRestores(u, rank, k, Nfd(u, rank, k, s));
  }

  /** Both forms are fixed points. */
  lemma {:induction false} FormsAreFixed(u: Ucd, rank: Rank, k: bool, s: seq<nat>)
    requires Sound(u, rank)
    ensures Nfd(u, rank, k, Nfd(u, rank, k, s)) == Nfd(u, rank, k, s)
    ensures Nfc(u, rank, k, Nfc(u, rank, k, s)) == Nfc(u, rank, k, s)
  {
    NfdIsDecomposed(u, rank, k, s);
    FinalFixed(u, rank, k, Nfd(u, rank, k, s));
    OrderedFixed(ClassIn(u), Nfd(u, rank, k, s));
    NfdOfNfc(u, rank, k, s);
  }

  /** The two forms tell the same texts apart. */
  lemma {:induction false} FormsAgree(u: Ucd, rank: Rank, k: bool, s: seq<nat>, t: seq<nat>)
    requires Sound(u, rank)
    ensures Nfc(u, rank, k, s) == Nfc(u, rank, k, t) <==> Nfd(u, rank, k, s) == Nfd(u, rank, k, t)
  {
    NfdOfNfc(u, rank, k, s);
    NfdOfNfc(u, rank, k, t);
  }

  // ------------------------------------------------------------------- the runtime

  datatype Tables = Tables(decomposition: seq<nat>, composition: seq<nat>, pool: seq<nat>, classes: Pages)

  /** Tables as the generator writes them, whatever else is in the pool. */
  ghost predicate Generated(u: Ucd, t: Tables) {
    && t.composition == Flat(Pairs(u)) && PagesOf(u, t.classes)
    && exists pool: seq<nat> :: StoredAfter(u, t, pool)
  }

  ghost predicate StoredAfter(u: Ucd, t: Tables, pool: seq<nat>) {
    var rows := DecompositionRows(u.decompositions);
    t.decomposition == TableOf(rows, |pool|) && pool + PoolOf(rows) <= t.pool
  }

  lemma {:induction false} TableReady(u: Ucd, t: Tables)
    requires Generated(u, t) && Regular(u)
    ensures Keyed(t.decomposition, 4)
  {
    var pool: seq<nat> :| StoredAfter(u, t, pool);
    DecompositionRowsAre(u.decompositions);
    SortedReady(Map(u.decompositions, DecompositionRow), 4);
    SortedKeys(DecompositionRows(u.decompositions), |pool|, 4);
  }

  lemma {:induction false} TableRead(u: Ucd, t: Tables, cp: nat, row: int)
    requires Generated(u, t) && Regular(u) && IsRow(t.decomposition, 4, cp, row)
    ensures EntryAt(t.decomposition, t.pool, cp, row) == DecompositionOf(u.decompositions, cp)
  {
    var pool: seq<nat> :| StoredAfter(u, t, pool);
    DecompositionsRead(u.decompositions, t.decomposition, pool, t.pool, cp, row);
  }

  class Points {
    var data: seq<nat>

    constructor ()
      ensures data == []
    {
      data := [];
    }

    method Push(cp: nat)
      modifies this
      ensures data == old(data) + [cp]
    {
      data := data + [cp];
    }

    method Decompose(ghost u: Ucd, ghost rank: Rank, t: Tables, cp: nat, k: bool)
      requires Sound(u, rank) && Generated(u, t)
      modifies this
      ensures data == old(data) + Full(u, rank, k, cp)
      decreases rank(cp)
    {
      if cp < 0x80 { Push(cp); return; }
      if cp >= 0xac00 && cp < 0xd7a4 {
        var syllable := cp - 0xac00;
        Push(0x1100 + syllable / 588);
        Push(0x1161 + (syllable % 588) / 28);
        if syllable % 28 != 0 { Push(0x11a7 + syllable % 28); }
        return;
      }
      TableReady(u, t);
      var row := FindRow(t.decomposition, 4, cp);
      TableRead(u, t, cp, row);
      DecompositionEntry(u.decompositions, cp);
      var entry := EntryAt(t.decomposition, t.pool, cp, row);
      if entry.None? || (!k && entry.value.compatibility) { Push(cp); return; }
      var values := entry.value.values;
      EntryHeight(u, rank, cp);
      DecomposeAll(u, rank, t, values, k, cp);
    }

    /** The loop over the values of an entry. */
    method DecomposeAll(ghost u: Ucd, ghost rank: Rank, t: Tables, values: seq<nat>, k: bool, ghost above: nat)
      requires Sound(u, rank) && Generated(u, t) && forall v :: v in values ==> rank(v) < rank(above)
      modifies this
      ensures data == old(data) + FullAll(u, rank, k, values)
      decreases rank(above), |values|
    {
      var index := 0;
      while index < |values|
        invariant index <= |values| && data == old(data) + FullAll(u, rank, k, values[..index])
      {
        ghost var done := FullAll(u, rank, k, values[..index]);
        FullNext(u, rank, k, values, index);
        Decompose(u, rank, t, values[index], k);
        Assoc(old(data), done, Full(u, rank, k, values[index]));
        index := index + 1;
      }
      assert values[..index] == values;
    }
  }

  method DecomposeText(ghost u: Ucd, ghost rank: Rank, t: Tables, s: seq<nat>, k: bool) returns (points: array<nat>)
    requires Sound(u, rank) && Generated(u, t)
    ensures fresh(points) && points[..] == FullAll(u, rank, k, s)
  {
    var buffer := new Points();
    var index := 0;
    while index < |s|
      invariant index <= |s| && buffer.data == FullAll(u, rank, k, s[..index])
    {
      FullNext(u, rank, k, s, index);
      buffer.Decompose(u, rank, t, s[index], k);
      index := index + 1;
    }
    assert s[..index] == s;
    var data := buffer.data;
    points := new nat[|data|](i requires 0 <= i < |data| => data[i]);
  }

  /** The first `count` places hold what composing the first `index` code points wrote, and
      the code points not read yet are still in theirs. */
  ghost predicate ComposedTo(u: Ucd, p: seq<nat>, now: seq<nat>, index: nat, count: nat, starter: int, previous: nat) {
    && count <= index <= |p| == |now| && -1 <= starter < count && now[index..] == p[index..]
    && Composed(u, p[..index]) == Composing(now[..count], starter, previous)
  }

  lemma {:induction false} NextComposed(u: Ucd, p: seq<nat>, now: seq<nat>, index: nat, count: nat, starter: int,
                                        previous: nat)
    requires ComposedTo(u, p, now, index, count, starter, previous) && index < |p|
    ensures now[index] == p[index] && now[index + 1..] == p[index + 1..]
    ensures Composed(u, p[..index + 1]) == ComposeStep(u, Composing(now[..count], starter, previous), now[index])
  {
    assert now[index] == now[index..][0] && p[index] == p[index..][0];
    assert p[..index + 1][..index] == p[..index];
    assert now[index + 1..] == now[index..][1..] && p[index + 1..] == p[index..][1..];
  }

  lemma {:induction false} MergedInPlace(now: seq<nat>, index: nat, count: nat, starter: nat, c: nat)
    requires starter < count <= index < |now|
    ensures now[starter := c][..count] == now[..count][starter := c]
    ensures now[starter := c][index + 1..] == now[index + 1..]
  {
  }

  lemma {:induction false} KeptInPlace(now: seq<nat>, index: nat, count: nat, cp: nat)
    requires count <= index < |now|
    ensures now[count := cp][..count + 1] == now[..count] + [cp] && now[count := cp][index + 1..] == now[index + 1..]
  {
  }

  /** A class from the pages is the class of the database. */
  method ReadClass(ghost u: Ucd, t: Pages, cp: nat) returns (c: nat)
    requires PagesOf(u, t)
    ensures c == ClassIn(u)(cp)
  {
    RuntimeClass(u, t);
    c := PageClass(t)(cp);
  }

  /** Composes in place and says how many code points are left. */
  method ComposePoints(ghost u: Ucd, t: Tables, points: array<nat>) returns (count: nat)
    requires Generated(u, t)
    modifies points
    ensures count <= points.Length && points[..count] == Compose(u, old(points[..]))
  {
    ghost var p := points[..];
    count := 0;
    var starter, previous, index := -1, 0, 0;
    while index < points.Length
      invariant ComposedTo(u, p, points[..], index, count, starter, previous)
    {
      ghost var now := points[..];
      NextComposed(u, p, now, index, count, starter, previous);
      var cp := points[index];
      var ccc := ReadClass(u, t.classes, cp);
      var composite := 0;
      if starter != -1 && (previous == 0 || previous < ccc) {
        composite := FindComposite(u, t.composition, points[starter], cp);
      }
      if composite != 0 {
        MergedInPlace(now, index, count, starter, composite);
        points[starter] := composite;
        assert points[..] == now[starter := composite];
      } else {
        KeptInPlace(now, index, count, cp);
        if ccc == 0 { starter := count; }
        points[count] := cp;
        assert points[..] == now[count := cp];
        count := count + 1;
        previous := ccc;
      }
      index := index + 1;
    }
    assert p[..index] == p && points[..][..count] == points[..count];
  }

  /** The whole of normalization over generated tables. */
  method Normalize(ghost u: Ucd, ghost rank: Rank, t: Tables, s: seq<nat>, k: bool, compose: bool) returns (r: seq<nat>)
    requires Sound(u, rank) && Generated(u, t)
    ensures r == if compose then Nfc(u, rank, k, s) else Nfd(u, rank, k, s)
  {
    var points := DecomposeText(u, rank, t, s, k);
    RuntimeClass(u, t.classes);
    OrderSame(PageClass(t.classes), ClassIn(u), points[..]);
    OrderPoints(PageClass(t.classes), points);
    if compose {
      var count := ComposePoints(u, t, points);
      r := points[..count];
    } else {
      r := points[..];
    }
  }
}
