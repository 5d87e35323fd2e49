/** The combining-class table of scripts/generate-unicode-data.ts: the flat table over all
    code points is cut into pages of 256, equal pages are stored once, and the reader in
    runtime/src/unicode.c goes through a page index. */
module CombiningClassPages {
  import opened Decimals
  import opened Numbering
  import opened Sorting

  const CODE_POINTS := 0x110000

  datatype Result<T> = Ok(value: T) | Err(message: string)

  /** The two generated byte arrays. */
  datatype Tables = Tables(pages: seq<nat>, values: seq<nat>)

  /** One row of the class map: a code point and its class. */
  datatype Class = Class(cp: nat, value: int)

  // ------------------------------------------------------- numbers joined by commas

  /** Numbers joined by commas, as the key of a page. */
  function Join(page: seq<nat>): string {
    if page == [] then "" else
      var rest, last := page[..|page| - 1], Decimal(page[|page| - 1]);
      if rest == [] then last else Join(rest) + "," + last
  }

  lemma {:induction false} LastComma(a: string, x: string, b: string, y: string)
    requires ',' !in x && ',' !in y && a + "," + x == b + "," + y
    ensures a == b && x == y
  {
    assert CommaAt(a + "," + x, |a|) && CommaAt(b + "," + y, |b|);
    assert |a| < |b| ==> !CommaAt(a + "," + x, |b|);
    assert |b| < |a| ==> !CommaAt(b + "," + y, |a|);
    assert (a + "," + x)[..|a|] == a && (b + "," + y)[..|b|] == b;
    assert (a + "," + x)[|a| + 1..] == x && (b + "," + y)[|b| + 1..] == y;
  }

  predicate CommaAt(s: string, i: int) { 0 <= i < |s| && s[i] == ',' }

  /** Different pages of the same length have different keys. */
  lemma {:induction false} JoinInjective(p: seq<nat>, q: seq<nat>)
    requires |p| == |q| && Join(p) == Join(q)
    ensures p == q
  {
    if p != [] {
      var last := |p| - 1;
      DecimalNumber(p[last]);
      DecimalNumber(q[last]);
      assert !IsDigit(',');
      assert p == p[..last] + [p[last]] && q == q[..last] + [q[last]];
      if last > 0 {
        LastComma(Join(p[..last]), Decimal(p[last]), Join(q[..last]), Decimal(q[last]));
        JoinInjective(p[..last], q[..last]);
      }
    }
  }

  // ------------------------------------------------------------------ the flat table

  /** The class of a code point in the first `n` rows, 0 where there is none. */
  function ClassIn(classes: seq<Class>, n: nat, cp: nat): int
    requires n <= |classes|
  {
    if n == 0 then 0
    else if classes[n - 1].cp == cp then classes[n - 1].value
    else ClassIn(classes, n - 1, cp)
  }

  ghost predicate Bytes(classes: seq<Class>) {
    forall i :: 0 <= i < |classes| ==> 0 <= classes[i].value <= 255
  }

  method FillClasses(classes: seq<Class>) returns (r: Result<seq<nat>>)
    ensures r.Ok? <==> Bytes(classes)
    ensures r.Ok? ==> |r.value| == CODE_POINTS
    ensures r.Ok? ==> forall cp :: 0 <= cp < CODE_POINTS ==> r.value[cp] == ClassIn(classes, |classes|, cp) <= 255
  {
    var flat := new nat[CODE_POINTS](_ => 0);
    var i := 0;
    while i < |classes|
      invariant i <= |classes| && Bytes(classes[..i])
      invariant forall cp :: 0 <= cp < CODE_POINTS ==> flat[cp] == ClassIn(classes, i, cp) <= 255
    {
      var row := classes[i];
      if row.value < 0 || row.value > 255 { return Err("Combining class exceeds u8"); }
      if row.cp < CODE_POINTS { flat[row.cp] := row.value; }
      assert classes[..i + 1] == classes[..i] + [row];
      i := i + 1;
    }
    assert classes[..i] == classes;
    r := Ok(flat[..]);
  }

  // ----------------------------------------------------------------------- the pages

  function Page(flat: seq<nat>, i: nat): (page: seq<nat>)
    requires 256 * i + 256 <= |flat|
    ensures |page| == 256
  {
    flat[256 * i..256 * i + 256]
  }

  /** The first `n` pages. */
  function PagesOf(flat: seq<nat>, n: nat): (pages: seq<seq<nat>>)
    requires 256 * n <= |flat|
    ensures |pages| == n && forall i :: 0 <= i < n ==> pages[i] == Page(flat, i)
  {
    if n == 0 then [] else PagesOf(flat, n - 1) + [Page(flat, n - 1)]
  }

  /** The different pages, in the order first met. */
  function Different(flat: seq<nat>, n: nat): seq<seq<nat>>
    requires 256 * n <= |flat|
  {
    AddAll([], PagesOf(flat, n))
  }

  function Concat(pages: seq<seq<nat>>): seq<nat> {
    if pages == [] then [] else Concat(pages[..|pages| - 1]) + pages[|pages| - 1]
  }

  lemma {:induction false} ConcatAt(pages: seq<seq<nat>>, i: nat, k: nat)
    requires forall p :: p in pages ==> |p| == 256
    requires i < |pages| && k < 256
    ensures |Concat(pages)| == 256 * |pages|
    ensures Concat(pages)[256 * i + k] == pages[i][k]
  {
    var last := |pages| - 1;
    var front := pages[..last];
    assert pages[last] in pages && forall p :: p in front ==> p in pages;
    if i < last {
      ConcatAt(front, i, k);
    } else if last > 0 {
      ConcatAt(front, 0, 0);
    }
  }

  lemma {:induction false} DifferentNext(flat: seq<nat>, n: nat)
    requires 256 * (n + 1) <= |flat|
    ensures Different(flat, n + 1) == Add(Different(flat, n), Page(flat, n))
    ensures Distinct(Different(flat, n))
    ensures forall p :: p in Different(flat, n) ==> |p| == 256
  {
    assert PagesOf(flat, n + 1)[..n] == PagesOf(flat, n);
    AddAllFacts([], PagesOf(flat, n));
  }

  function Keys(pages: seq<seq<nat>>): (keys: seq<string>)
    ensures |keys| == |pages| && forall i :: 0 <= i < |pages| ==> keys[i] == Join(pages[i])
  {
    if pages == [] then [] else Keys(pages[..|pages| - 1]) + [Join(pages[|pages| - 1])]
  }

  /** The map gives each key of the list its place. */
  ghost predicate Keyed(ids: map<string, nat>, keys: seq<string>) {
    && |ids| == |keys|
    && (forall i :: 0 <= i < |keys| ==> keys[i] in ids && ids[keys[i]] == i)
    && (forall key :: key in ids ==> ids[key] < |keys| && keys[ids[key]] == key)
  }

  lemma {:induction false} KeyFound(ids: map<string, nat>, different: seq<seq<nat>>, page: seq<nat>)
    requires Keyed(ids, Keys(different)) && (forall p :: p in different ==> |p| == 256) && |page| == 256
    ensures Join(page) in ids <==> page in different
    ensures page in different ==> ids[Join(page)] == IndexOf(different, page)
  {
    var keys := Keys(different);
    if Join(page) in ids {
      var i := ids[Join(page)];
      assert different[i] in different && keys[i] == Join(page);
      JoinInjective(page, different[i]);
    }
    if page in different {
      assert keys[IndexOf(different, page)] == Join(page);
    }
  }

  lemma {:induction false} KeyAdded(ids: map<string, nat>, keys: seq<string>, key: string)
    requires Keyed(ids, keys) && key !in ids
    ensures Keyed(ids[key := |keys|], keys + [key])
  {
    var added := ids[key := |keys|];
    assert added.Keys == ids.Keys + {key};
    assert |added| == |added.Keys| && |ids| == |ids.Keys|;
  }

  /** The page index: every page's number among the different ones. */
  ghost predicate Indexed(flat: seq<nat>, pages: seq<nat>, different: seq<seq<nat>>)
    requires 256 * |pages| <= |flat|
  {
    forall i :: 0 <= i < |pages| ==>
      Page(flat, i) in different && pages[i] == IndexOf(different, Page(flat, i)) && pages[i] < 256
  }

  lemma {:induction false} IndexedMore(flat: seq<nat>, pages: seq<nat>, different: seq<seq<nat>>, more: seq<seq<nat>>)
    requires 256 * |pages| <= |flat| && Indexed(flat, pages, different) && different <= more
    ensures Indexed(flat, pages, more)
  {
    forall i | 0 <= i < |pages|
      ensures Page(flat, i) in more && pages[i] == IndexOf(more, Page(flat, i))
    {
      IndexInPrefix(different, more, Page(flat, i));
    }
  }

  lemma {:induction false} PageAdded(flat: seq<nat>, pages: seq<nat>, different: seq<seq<nat>>, page: seq<nat>)
    requires 256 * |pages| <= |flat| && Indexed(flat, pages, different) && page !in different
    ensures Indexed(flat, pages, different + [page])
    ensures IndexOf(different + [page], page) == |different|
    ensures Keys(different + [page]) == Keys(different) + [Join(page)]
    ensures Concat(different + [page]) == Concat(different) + page
  {
    var more := different + [page];
    assert more[..|different|] == different;
    IndexedMore(flat, pages, different, more);
    FirstIs(more, |different|);
  }

  lemma {:induction false} DifferentGrows(flat: seq<nat>, m: nat, n: nat)
    requires m <= n && 256 * n <= |flat|
    ensures |Different(flat, m)| <= |Different(flat, n)|
  {
    var a, b := PagesOf(flat, m), PagesOf(flat, n);
    assert b == a + b[m..];
    AddAllAppend([], a, b[m..]);
    AddAllFacts(AddAll([], a), b[m..]);
  }

  /** The two-level table holds the flat one, in byte-sized entries: reading through the
      index gives the flat value at every code point, and two pages share a number
      exactly when they are equal. */
  ghost predicate Holds(t: Tables, flat: seq<nat>) {
    && |flat| % 256 == 0 && |t.pages| == |flat| / 256
    && (forall i :: 0 <= i < |t.pages| ==> t.pages[i] < 256 && 256 * t.pages[i] + 256 <= |t.values|)
    && (forall cp :: 0 <= cp < |flat| ==> t.values[256 * t.pages[cp / 256] + cp % 256] == flat[cp])
    && (forall i, j :: 0 <= i < |t.pages| && 0 <= j < |t.pages| ==>
          (t.pages[i] == t.pages[j] <==> Page(flat, i) == Page(flat, j)))
  }

  lemma {:induction false} DifferentLengths(flat: seq<nat>, n: nat)
    requires 256 * n <= |flat|
    ensures forall p :: p in Different(flat, n) ==> |p| == 256
    ensures |Concat(Different(flat, n))| == 256 * |Different(flat, n)|
  {
    AddAllFacts([], PagesOf(flat, n));
    if |Different(flat, n)| > 0 { ConcatAt(Different(flat, n), 0, 0); }
  }

  lemma {:induction false} PageRead(flat: seq<nat>, t: Tables, different: seq<seq<nat>>, i: nat, k: nat)
    requires 256 * |t.pages| <= |flat| && i < |t.pages| && k < 256
    requires t.values == Concat(different) && forall p :: p in different ==> |p| == 256
    requires Indexed(flat, t.pages, different)
    ensures 256 * t.pages[i] + 256 <= |t.values|
    ensures t.values[256 * t.pages[i] + k] == flat[256 * i + k]
  {
    ConcatAt(different, t.pages[i], k);
    assert Page(flat, i)[k] == flat[256 * i + k];
  }

  lemma {:induction false} PagesHold(flat: seq<nat>, t: Tables, different: seq<seq<nat>>)
    requires |flat| % 256 == 0 && |t.pages| == |flat| / 256
    requires t.values == Concat(different) && forall p :: p in different ==> |p| == 256
    requires Indexed(flat, t.pages, different)
    ensures Holds(t, flat)
  {
    forall i | 0 <= i < |t.pages| ensures 256 * t.pages[i] + 256 <= |t.values| {
      PageRead(flat, t, different, i, 0);
    }
    forall cp | 0 <= cp < |flat| ensures t.values[256 * t.pages[cp / 256] + cp % 256] == flat[cp] {
      PageRead(flat, t, different, cp / 256, cp % 256);
    }
  }

  /** What the generator holds after the first `i` pages. */
  ghost predicate Built(flat: seq<nat>, i: nat, pages: seq<nat>, values: seq<nat>, ids: map<string, nat>) {
    && 256 * i <= |flat| && |pages| == i
    && var different := Different(flat, i);
       Keyed(ids, Keys(different)) && values == Concat(different) && Indexed(flat, pages, different)
  }

  lemma {:induction false} BuiltAgain(flat: seq<nat>, i: nat, pages: seq<nat>, values: seq<nat>, ids: map<string, nat>)
    requires Built(flat, i, pages, values, ids) && 256 * (i + 1) <= |flat| && |ids| <= 256
    requires Join(Page(flat, i)) in ids
    ensures Built(flat, i + 1, pages + [ids[Join(Page(flat, i))]], values, ids)
  {
    DifferentNext(flat, i);
    KeyFound(ids, Different(flat, i), Page(flat, i));
  }

  lemma {:induction false} BuiltNew(flat: seq<nat>, i: nat, pages: seq<nat>, values: seq<nat>, ids: map<string, nat>)
    requires Built(flat, i, pages, values, ids) && 256 * (i + 1) <= |flat|
    requires Join(Page(flat, i)) !in ids
    ensures |Different(flat, i + 1)| == |ids| + 1
    ensures |ids| <= 255 ==>
      Built(flat, i + 1, pages + [|ids|], values + Page(flat, i), ids[Join(Page(flat, i)) := |ids|])
  {
    var different, page := Different(flat, i), Page(flat, i);
    DifferentNext(flat, i);
    KeyFound(ids, different, page);
    KeyAdded(ids, Keys(different), Join(page));
    PageAdded(flat, pages, different, page);
    assert page in different + [page];
  }

  method BuildPages(flat: seq<nat>) returns (r: Result<Tables>)
    requires |flat| % 256 == 0
    ensures r.Ok? <==> |Different(flat, |flat| / 256)| <= 256
    ensures r.Ok? ==> Holds(r.value, flat) && |r.value.values| == 256 * |Different(flat, |flat| / 256)|
  {
    var pages: seq<nat>, values: seq<nat>, ids: map<string, nat> := [], [], map[];
    var i := 0;
    while i < |flat| / 256
      invariant i <= |flat| / 256 && |ids| <= 256
      invariant Built(flat, i, pages, values, ids)
    {
      var page := Page(flat, i);
      var key := Join(page);
      if key in ids {
        BuiltAgain(flat, i, pages, values, ids);
        pages := pages + [ids[key]];
      } else {
        var id := |ids|;
        BuiltNew(flat, i, pages, values, ids);
        if id > 255 {
          DifferentGrows(flat, i + 1, |flat| / 256);
          return Err("Combining class page index exceeds u8");
        }
        ids := ids[key := id];
        values := values + page;
        pages := pages + [id];
      }
      i := i + 1;
    }
    r := Ok(Tables(pages, values));
    DifferentLengths(flat, i);
    PagesHold(flat, r.value, Different(flat, i));
  }

  // ------------------------------------------------------------------------ the reader

  /** The class the runtime reads for a code point. */
  function ClassOf(t: Tables, cp: nat): nat
    requires |t.pages| == CODE_POINTS / 256
    requires forall i :: 0 <= i < |t.pages| ==> 256 * t.pages[i] + 256 <= |t.values|
  {
    if cp < 0x80 || cp >= CODE_POINTS then 0
    else t.values[256 * t.pages[cp / 256] + cp % 256]
  }

  /** The generator as a whole. */
  method Generate(classes: seq<Class>) returns (r: Result<Tables>, ghost flat: seq<nat>)
    ensures r.Ok? ==> |flat| == CODE_POINTS && Holds(r.value, flat)
    ensures r.Ok? ==> forall cp :: 0 <= cp < CODE_POINTS ==> flat[cp] == ClassIn(classes, |classes|, cp)
    ensures Bytes(classes) ==> |flat| == CODE_POINTS && (r.Ok? <==> |Different(flat, CODE_POINTS / 256)| <= 256)
    ensures !Bytes(classes) ==> r.Err?
  {
    flat := [];
    var filled := FillClasses(classes);
    if filled.Err? { return Err(filled.message), flat; }
    flat := filled.value;
    r := BuildPages(filled.value);
  }

  /** The runtime reads the flat table at every code point exactly when no code point
      below 0x80 has a class: for those it answers 0 without looking. */
  lemma {:induction false} ReadsFlatTable(t: Tables, flat: seq<nat>)
    requires |flat| == CODE_POINTS && Holds(t, flat)
    ensures (forall cp :: 0 <= cp < CODE_POINTS ==> ClassOf(t, cp) == flat[cp])
       <==> forall cp :: 0 <= cp < 0x80 ==> flat[cp] == 0
    ensures forall cp :: 0x80 <= cp < CODE_POINTS ==> ClassOf(t, cp) == flat[cp]
  {
    forall cp | 0x80 <= cp < CODE_POINTS ensures ClassOf(t, cp) == flat[cp] {
    }
    if forall cp :: 0 <= cp < CODE_POINTS ==> ClassOf(t, cp) == flat[cp] {
      forall cp | 0 <= cp < 0x80 ensures flat[cp] == 0 {
        assert ClassOf(t, cp) == flat[cp];
      }
    }
  }
}
