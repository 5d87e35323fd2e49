/** Exporting, importing into an empty cache and exporting again with the same options:
    when, and exactly when, the second snapshot is the first; and what a copy cut short by
    a crash does to it. */
module NativeCacheFixedPoint {
  import opened NativeCache
  import opened NativeCacheBudget
  import opened NativeCacheExport
  import opened NativeCacheImport
  import opened NativeCacheRestore
  import opened NativeCacheRoundTrip
  import opened Optional
  import opened Sorting

  // ------------------------------------------------------------ sequences

  /** When all that is eligible fits, greedy admission is just filtering. */
  lemma {:induction false} GreedyIsFilter<T>(items: seq<T>, ok: T -> bool, size: T -> int, bytes: int, max: int)
    requires forall x :: x in items ==> size(x) >= 0
    requires Filter(items, ok) == [] || bytes + Sum(Filter(items, ok), size) <= max
    ensures Greedy(items, ok, size, bytes, max) == Filter(items, ok)
  {
    if items != [] {
      var before, x := items[..|items| - 1], items[|items| - 1];
      assert items == before + [x];
      FilterAppend(before, [x], ok);
      assert Filter([x], ok) == if ok(x) then [x] else [];
      assert x in items;
      var kept := Filter(before, ok);
      if ok(x) { assert (kept + [x])[..|kept|] == kept; } else { assert kept + [] == kept; }
      GreedyIsFilter(before, ok, size, bytes, max);
    }
  }

  lemma {:induction false} SumMap<T>(s: seq<T>, f: T -> T, size: T -> int)
    requires forall x :: x in s ==> size(f(x)) == size(x)
    ensures Sum(Map(s, f), size) == Sum(s, size)
  {
    if s != [] {
      var before := s[..|s| - 1];
      assert Map(s, f)[..|s| - 1] == Map(before, f);
      SumMap(before, f, size);
    }
  }

  lemma {:induction false} RelistsLength<T(!new)>(s: seq<T>, f: T -> T, t: seq<T>)
    requires Relists(s, f, t)
    ensures |t| == |s|
  {
    DistinctPermutation(Map(s, f), t);
    assert |multiset(t)| == |multiset(Map(s, f))|;
  }

  lemma {:induction false} SumRelists<T(!new)>(s: seq<T>, f: T -> T, t: seq<T>, size: T -> int)
    requires Relists(s, f, t) && forall x :: x in s ==> size(f(x)) == size(x)
    ensures Sum(t, size) == Sum(s, size)
  {
    DistinctPermutation(Map(s, f), t);
    SumPermutation(Map(s, f), t, size);
    SumMap(s, f, size);
  }

  /** Nothing planned, or all of it within the budget. */
  lemma {:induction false} PlanEmptyOrFits(root: Cache, o: Options, allBakes: seq<BakeSource>, entries: seq<Entry>,
                                           allThin: seq<ThinSource>)
    ensures var plan := PlanFrom(root, o, allBakes, entries, allThin);
      plan == Plan([], [], [], []) || plan.Total() <= o.maxBytes
  {
    var plan := PlanFrom(root, o, allBakes, entries, allThin);
    var ok := Exportable(root, Newest(entries) - RETENTION_MS);
    GreedyFits(allBakes, WantedBake(o, BakeCutoff(allBakes)), BakeBytes, 0, o.maxBytes);
    GreedyFits(Filter(entries, UsedEntry(o)), ok, EntryBytes, Spent(plan.bakes, [], []), o.maxBytes);
    GreedyFits(allThin, RecentThin(ThinCutoff(allThin)), ThinBytes, Spent(plan.bakes, plan.used, []), o.maxBytes);
    GreedyFits(Filter(entries, UnusedEntry(o)), ok, EntryBytes, Spent(plan.bakes, plan.used, plan.thin), o.maxBytes);
  }

  // --------------------------------------------------------- the second plan

  lemma {:induction false} FloorMonotone(a: real, b: real)
    requires a <= b
    ensures a.Floor <= b.Floor
  {
    var i, j := a.Floor, b.Floor;
    assert i as real <= a && b < (j + 1) as real;
    assert (i as real) < (j + 1) as real;
  }

  lemma {:induction false} FloorShift(a: real, n: int)
    ensures (a - n as real).Floor == a.Floor - n
  {
    var i := a.Floor - n;
    assert i as real == a.Floor as real - n as real;
    assert (i + 1) as real == a.Floor as real - n as real + 1.0;
  }

  lemma {:induction false} TruncateMonotone(a: real, b: real)
    requires a <= b
    ensures Truncate(a) <= Truncate(b)
  {
    if a >= 0.0 {
      FloorMonotone(a, b);
      assert a.Floor as real <= b.Floor as real;
    } else if b < 0.0 {
      FloorMonotone(-b, -a);
      assert (-b).Floor as real <= (-a).Floor as real;
    } else {
      FloorMonotone(0.0, -a);
      FloorMonotone(0.0, b);
      assert 0 as real <= (-a).Floor as real;
    }
  }

  lemma {:induction false} TruncateShift(a: real, n: nat)
    ensures Truncate(a - n as real) >= Truncate(a) - n as real
  {
    var d := a - n as real;
    if a < 0.0 {
      FloorShift(-a, 0 - n);
      assert -a - (0 - n) as real == -d;
    } else {
      FloorShift(a, n);
      if d < 0.0 { assert (-d).Floor as real <= -d; }
    }
  }

  /** Dropping the fraction of a millisecond keeps an entry inside the retention window. */
  lemma {:induction false} StaysRecent(t: real, newest: real, newest': real)
    requires t >= newest - RETENTION_MS && newest' <= Truncate(newest)
    ensures Truncate(t) >= newest' - RETENTION_MS
  {
    TruncateMonotone(newest - RETENTION_MS, t);
    assert RETENTION_MS == 1209600000 as real;
    TruncateShift(newest, 1209600000);
  }

  lemma {:induction false} ReadAgain(ls: Lister, root: Cache, o: Options, e: Entry, c: Cache, all: seq<Entry>)
    requires FixedOrder(ls) && ActionsOver(all, EMPTY_CACHE, c) && e in all && e in Candidates(ls, root, o)
    ensures Stamped(e) in Candidates(ls, c, o)
  {
    CandidateReadable(ls, root, o, e);
    CandidateFacts(ls, c, o);
    ReadEntriesFacts(ls, c.actions);
  }

  lemma {:induction false} ReadFrom(ls: Lister, o: Options, e': Entry, c: Cache, all: seq<Entry>) returns (e: Entry)
    requires FixedOrder(ls) && ActionsOver(all, EMPTY_CACHE, c) && e' in Candidates(ls, c, o)
    ensures e in all && Stamped(e) == e'
  {
    CandidateFacts(ls, c, o);
    ReadEntriesFacts(ls, c.actions);
    assert !NotNamed(all, e'.manifest);
    e :| e in all && e.manifest == e'.manifest;
  }

  lemma {:induction false} SecondEntries(ls: Lister, root: Cache, o: Options, all: seq<Entry>, c: Cache)
    requires FixedOrder(ls) && ActionsOver(all, EMPTY_CACHE, c) && ManifestsDistinct(all)
    requires forall e :: e in all ==> e in Candidates(ls, root, o)
    ensures Relists(all, Stamped, Candidates(ls, c, o))
  {
    var again := Candidates(ls, c, o);
    CandidateFacts(ls, c, o);
    forall e | e in all ensures Stamped(e) in again { ReadAgain(ls, root, o, e, c, all); }
    forall e' | e' in again ensures exists e :: e in all && Stamped(e) == e' {
      var e := ReadFrom(ls, o, e', c, all);
    }
    StampedRelists(all, again);
  }

  lemma {:induction false} SecondComplete(all: seq<Entry>, again: seq<Entry>, c: Cache)
    requires Relists(all, Stamped, again) && forall e :: e in all ==> Complete(c.blobs, e)
    ensures forall e :: e in again ==> Complete(c.blobs, e)
  {
    forall e' | e' in again ensures Complete(c.blobs, e') { var e := MapMember(all, Stamped, e'); }
  }

  lemma {:induction false} SecondEntriesRecent(ls: Lister, root: Cache, o: Options, plan: Plan, again: seq<Entry>)
    requires Planned(ls, root, o, plan) && Relists(plan.Entries(), Stamped, again)
    ensures forall e :: e in again ==> e.mtime >= Newest(again) - RETENTION_MS
  {
    var newest := Newest(Candidates(ls, root, o));
    NewestIs(Candidates(ls, root, o));
    forall e | e in plan.Entries() ensures e.mtime <= newest && e.mtime >= newest - RETENTION_MS { }
    StampedRecent(plan.Entries(), again, newest);
  }

  lemma {:induction false} StampedRecent(all: seq<Entry>, again: seq<Entry>, newest: real)
    requires Relists(all, Stamped, again) && newest >= 0.0
    requires forall e :: e in all ==> e.mtime <= newest && e.mtime >= newest - RETENTION_MS
    ensures forall e :: e in again ==> e.mtime >= Newest(again) - RETENTION_MS
  {
    NewestIs(again);
    forall e' | e' in again ensures e'.mtime <= Truncate(newest) {
      var e := MapMember(all, Stamped, e');
      TruncateMonotone(e.mtime, newest);
    }
    TruncateMonotone(0.0, newest);
    assert Newest(again) <= Truncate(newest);
    forall e' | e' in again ensures e'.mtime >= Newest(again) - RETENTION_MS {
      var e := MapMember(all, Stamped, e');
      StaysRecent(e.mtime, newest, Newest(again));
    }
  }

  lemma {:induction false} FilterCongruent<T>(s: seq<T>, p: T -> bool, q: T -> bool)
    requires forall x :: x in s ==> p(x) == q(x)
    ensures Filter(s, p) == Filter(s, q)
  {
    if s != [] { FilterCongruent(s[1..], p, q); }
  }

  /** A restored bake directory lists the names it was exported with, in the same order. */
  lemma {:induction false} SameBakeNames(ls: Lister, dir: BakeDir, copy: BakeDir)
    requires FixedOrder(ls) && copy.files == CopyFiles(dir.files, BakeNames(ls, dir))
    ensures BakeNames(ls, copy) == BakeNames(ls, dir)
  {
    BakeNamesFacts(ls, dir);
    var kept := copy.files.Keys;
    FilterCongruent(ls(dir.files.Keys), Visible, In(kept));
    assert Filter(ls(dir.files.Keys), In(kept)) == ls(kept);
    FilterAll(ls(kept), Visible);
  }

  lemma {:induction false} SumCongruent<T>(s: seq<T>, f: T -> int, g: T -> int)
    requires forall x :: x in s ==> f(x) == g(x)
    ensures Sum(s, f) == Sum(s, g)
  {
    if s != [] { SumCongruent(s[..|s| - 1], f, g); }
  }

  lemma {:induction false} SameBake(ls: Lister, root: Cache, c: Cache, b: BakeSource)
    requires FixedOrder(ls)
    requires CompleteBake(root.bakes)(b.directory) && b == BakeSourceOf(ls, root.bakes, b.directory)
    requires b.directory in c.bakes
    requires c.bakes[b.directory] == BakeDir(CopyFiles(BakeFilesIn(root, b.directory), b.names), Truncate(b.mtime))
    ensures BakeSourceOf(ls, c.bakes, b.directory) == StampedBake(b)
    ensures CompleteBake(c.bakes)(b.directory)
  {
    var dir, copy := root.bakes[b.directory], c.bakes[b.directory];
    SameBakeNames(ls, dir, copy);
    BakeNamesFacts(ls, dir);
    SumCongruent(b.names, FileSize(dir.files), FileSize(copy.files));
  }

  lemma {:induction false} SecondBakes(ls: Lister, root: Cache, bakes: seq<BakeSource>, c: Cache)
    requires FixedOrder(ls) && BakesOver(root, bakes, EMPTY_CACHE, c) && DirectoriesDistinct(bakes)
    requires forall b :: b in bakes ==>
      CompleteBake(root.bakes)(b.directory) && b == BakeSourceOf(ls, root.bakes, b.directory)
    ensures Relists(bakes, StampedBake, ReadBakes(ls, c.bakes))
  {
    var again, images := ReadBakes(ls, c.bakes), Map(bakes, StampedBake);
    ReadBakesFacts(ls, c.bakes);
    forall i, j | 0 <= i < j < |images| ensures images[i] != images[j] {
      assert images[i].directory == bakes[i].directory && images[j].directory == bakes[j].directory;
    }
    forall b' | b' in again ensures b' in images {
      var b :| b in bakes && b.directory == b'.directory;
      SameBake(ls, root, c, b);
      var i :| 0 <= i < |bakes| && bakes[i] == b;
      assert images[i] == b';
    }
    forall b' | b' in images ensures b' in again {
      var b := MapMember(bakes, StampedBake, b');
      SameBake(ls, root, c, b);
    }
  }

  lemma {:induction false} SecondThin(ls: Lister, root: Cache, thin: seq<ThinSource>, c: Cache)
    requires FixedOrder(ls) && ThinOver(root, thin, EMPTY_CACHE, c) && FilesDistinct(thin)
    requires forall t :: t in thin ==> ThinListed(t.file) && t == AsThinSource(root.thinLto)(t.file)
    ensures Relists(thin, StampedThin, ReadThin(ls, c.thinLto))
  {
    var again, images := ReadThin(ls, c.thinLto), Map(thin, StampedThin);
    ReadThinFacts(ls, c.thinLto);
    forall i, j | 0 <= i < j < |images| ensures images[i] != images[j] {
      assert images[i].file == thin[i].file && images[j].file == thin[j].file;
    }
    forall t' | t' in again ensures t' in images {
      var t :| t in thin && t.file == t'.file;
      var i :| 0 <= i < |thin| && thin[i] == t;
      assert images[i] == t';
    }
    forall t' | t' in images ensures t' in again { var t := MapMember(thin, StampedThin, t'); }
  }

  lemma {:induction false} SecondThinRecent(all: seq<ThinSource>, thin: seq<ThinSource>, again: seq<ThinSource>)
    requires SortedBy(all, NewerThin) && SortedBy(again, NewerThin) && Relists(thin, StampedThin, again)
    requires forall t :: t in thin ==> t in all && t.mtime >= ThinCutoff(all)
    ensures forall t :: t in again ==> t.mtime >= ThinCutoff(again)
  {
    if again != [] {
      var newest' := again[0].mtime;
      assert again[0] in again;
      var first := MapMember(thin, StampedThin, again[0]);
      var newest := all[0].mtime;
      forall t | t in all ensures t.mtime <= newest { }
      TruncateMonotone(first.mtime, newest);
      forall t' | t' in again ensures t'.mtime >= newest' - RETENTION_MS {
        var t := MapMember(thin, StampedThin, t');
        StaysRecent(t.mtime, newest, newest');
      }
    }
  }

  /** A re-read bake is wanted again, except that a line wants only bakes still used. */
  lemma {:induction false} SecondBakesWanted(o: Options, all: seq<BakeSource>, bakes: seq<BakeSource>,
                                             again: seq<BakeSource>)
    requires SortedBy(all, NewerBake) && SortedBy(again, NewerBake) && Relists(bakes, StampedBake, again)
    requires forall b :: b in bakes ==> b in all && WantedBake(o, BakeCutoff(all))(b)
    ensures forall b :: b in again ==>
      (WantedBake(o, BakeCutoff(again))(b) <==> o.part.SharedPart? || Used(o, b.mtime))
  {
    if again != [] {
      var newest' := again[0].mtime;
      assert again[0] in again;
      var first := MapMember(bakes, StampedBake, again[0]);
      var newest := all[0].mtime;
      forall b | b in all ensures b.mtime <= newest { }
      TruncateMonotone(first.mtime, newest);
      forall b' | b' in again
        ensures WantedBake(o, BakeCutoff(again))(b') <==> o.part.SharedPart? || Used(o, b'.mtime)
      {
        var b := MapMember(bakes, StampedBake, b');
        if o.part.SharedPart? { StaysRecent(b.mtime, newest, newest'); }
      }
    }
  }

  lemma {:induction false} ReadsSorted(ls: Lister, c: Cache, o: Options)
    ensures SortedBy(ReadBakes(ls, c.bakes), NewerBake)
    ensures SortedBy(ThinCandidates(ls, c, o), NewerThin)
  {
    SortSorted(Map(Filter(ls(c.bakes.Keys), CompleteBake(c.bakes)), AsBakeSource(ls, c.bakes)), NewerBake);
    SortSorted(Map(Filter(ls(c.thinLto.Keys), ThinListed), AsThinSource(c.thinLto)), NewerThin);
  }

  lemma {:induction false} FilterSumAtMost<T>(s: seq<T>, keep: T -> bool, size: T -> int)
    requires forall x :: x in s ==> size(x) >= 0
    ensures Sum(Filter(s, keep), size) <= Sum(s, size)
  {
    SumFilter(s, keep, Not(keep), size);
    forall x | x in Filter(s, Not(keep)) ensures size(x) >= 0 { FilterMember(s, Not(keep), x); }
    SumNonNegative(Filter(s, Not(keep)), size);
  }

  /** When everything fits, the plan is everything that is wanted. */
  lemma {:induction false} PlanTakesAll(c: Cache, o: Options, allBakes: seq<BakeSource>, entries: seq<Entry>,
                                        allThin: seq<ThinSource>)
    requires forall b :: b in allBakes ==> b.size >= 0
    requires forall t :: t in allThin ==> t.size >= 0 && t.mtime >= ThinCutoff(allThin)
    requires forall e :: e in entries ==> e.mtime >= Newest(entries) - RETENTION_MS && Complete(c.blobs, e)
    requires (allBakes == [] && entries == [] && allThin == [])
          || Sum(allBakes, BakeBytes) + Sum(entries, EntryBytes) + Sum(allThin, ThinBytes) <= o.maxBytes
    ensures PlanFrom(c, o, allBakes, entries, allThin)
         == Plan(Filter(allBakes, WantedBake(o, BakeCutoff(allBakes))), Filter(entries, UsedEntry(o)), allThin,
                 Filter(entries, UnusedEntry(o)))
  {
    var plan := PlanFrom(c, o, allBakes, entries, allThin);
    var ok := Exportable(c, Newest(entries) - RETENTION_MS);
    var wanted := Filter(allBakes, WantedBake(o, BakeCutoff(allBakes)));
    var used, older := Filter(entries, UsedEntry(o)), Filter(entries, UnusedEntry(o));
    FilterSumAtMost(allBakes, WantedBake(o, BakeCutoff(allBakes)), BakeBytes);
    SumFilter(entries, UsedEntry(o), UnusedEntry(o), EntryBytes);
    EntriesKept(c, o, entries);
    SumNonNegative(used, EntryBytes);
    SumNonNegative(older, EntryBytes);
    SumNonNegative(allThin, ThinBytes);
    GreedyIsFilter(allBakes, WantedBake(o, BakeCutoff(allBakes)), BakeBytes, 0, o.maxBytes);
    GreedyTakes(used, ok, EntryBytes, Spent(wanted, [], []), o.maxBytes);
    GreedyTakes(allThin, RecentThin(ThinCutoff(allThin)), ThinBytes, Spent(wanted, used, []), o.maxBytes);
    GreedyTakes(older, ok, EntryBytes, Spent(wanted, used, allThin), o.maxBytes);
  }

  lemma {:induction false} EntriesKept(c: Cache, o: Options, entries: seq<Entry>)
    requires forall e :: e in entries ==> Complete(c.blobs, e)
    ensures forall e :: e in Filter(entries, UsedEntry(o)) ==> e in entries && EntryBytes(e) >= 0
    ensures forall e :: e in Filter(entries, UnusedEntry(o)) ==> e in entries && EntryBytes(e) >= 0
  {
    forall e | e in entries ensures EntryBytes(e) >= 0 { SumNonNegative(e.outputs, OutputSize); }
    forall e ensures (e in Filter(entries, UsedEntry(o)) ==> e in entries)
                  && (e in Filter(entries, UnusedEntry(o)) ==> e in entries) {
      FilterMember(entries, UsedEntry(o), e);
      FilterMember(entries, UnusedEntry(o), e);
    }
  }

  lemma {:induction false} GreedyTakes<T>(items: seq<T>, ok: T -> bool, size: T -> int, bytes: int, max: int)
    requires forall x :: x in items ==> ok(x) && size(x) >= 0
    requires items == [] || bytes + Sum(items, size) <= max
    ensures Greedy(items, ok, size, bytes, max) == items
  {
    FilterAll(items, ok);
    GreedyIsFilter(items, ok, size, bytes, max);
  }

  // ----------------------------------------------------------------- digests

  lemma {:induction false} LexTotal(a: string, b: string)
    ensures LexLe(a, b) || LexLe(b, a)
    ensures LexLe(a, b) && LexLe(b, a) ==> a == b
  {
    if a != "" && b != "" && a[0] == b[0] {
      LexTotal(a[1..], b[1..]);
      assert a == [a[0]] + a[1..] && b == [b[0]] + b[1..];
    }
  }

  lemma {:induction false} LexTransitive(a: string, b: string, c: string)
    requires LexLe(a, b) && LexLe(b, c)
    ensures LexLe(a, c)
  {
    if a != "" && a[0] == b[0] && b[0] == c[0] { LexTransitive(a[1..], b[1..], c[1..]); }
  }

  lemma {:induction false} RowsOrdered()
    ensures TotalPreorder(RowLe)
  {
    forall a: Row, b: Row ensures RowLe(a, b) || RowLe(b, a) { LexTotal(a.key, b.key); }
    forall a: Row, b: Row, c: Row | RowLe(a, b) && RowLe(b, c)
      ensures RowLe(a, c)
    {
      LexTransitive(a.key, b.key, c.key);
    }
  }

  ghost predicate KeysDistinct(rows: seq<Row>) {
    forall i, j :: 0 <= i < j < |rows| ==> rows[i].key != rows[j].key
  }

  /** Sorted by distinct keys, the same rows are the same sequence. */
  lemma {:induction false} SameSortedRows(rows: seq<Row>, rows': seq<Row>)
    requires KeysDistinct(rows) && KeysDistinct(rows') && forall r :: r in rows <==> r in rows'
    ensures Sort(rows, RowLe) == Sort(rows', RowLe)
  {
    RowsOrdered();
    var s, s' := Sort(rows, RowLe), Sort(rows', RowLe);
    SortSorted(rows, RowLe);
    SortSorted(rows', RowLe);
    SortContents(rows, RowLe);
    SortContents(rows', RowLe);
    DistinctPermutation(rows, rows');
    forall a, b | a in s && b in s && RowLe(a, b) && RowLe(b, a) ensures a == b {
      assert a in multiset(s) && b in multiset(s);
      assert a in rows && b in rows;
      LexTotal(a.key, b.key);
      var i :| 0 <= i < |rows| && rows[i] == a;
      var j :| 0 <= j < |rows| && rows[j] == b;
    }
    SortedUnique(s, s', RowLe);
  }

  /** Rows that do not depend on times are the same before and after. */
  lemma {:induction false} SameRows<T(!new)>(s: seq<T>, f: T -> T, t: seq<T>, row: T -> Row, row': T -> Row)
    requires Relists(s, f, t)
    requires forall x :: x in s ==> row'(f(x)) == row(x)
    requires forall i, j :: 0 <= i < j < |s| ==> row(s[i]).key != row(s[j]).key
    ensures Sort(Map(s, row), RowLe) == Sort(Map(t, row'), RowLe)
  {
    var rows, rows' := Map(s, row), Map(t, row');
    forall r | r in rows ensures r in rows' {
      var x := MapMember(s, row, r);
      var i :| 0 <= i < |s| && s[i] == x;
      assert Map(s, f)[i] in Map(s, f);
      var j :| 0 <= j < |t| && t[j] == f(x);
      assert rows'[j] == r;
    }
    forall r | r in rows' ensures r in rows {
      var y := MapMember(t, row', r);
      var x := MapMember(s, f, y);
      var i :| 0 <= i < |s| && s[i] == x;
      assert rows[i] == r;
    }
    forall i, j | 0 <= i < j < |rows'| ensures rows'[i].key != rows'[j].key {
      assert t[i] in t && t[j] in t;
      var x := MapMember(s, f, t[i]);
      var x' := MapMember(s, f, t[j]);
      var k :| 0 <= k < |s| && s[k] == x;
      var k' :| 0 <= k' < |s| && s[k'] == x';
      assert k != k';
    }
    SameSortedRows(rows, rows');
  }

  function ThinRowOf(sha: Bytes -> string, root: Cache): ThinSource -> Row {
    (t: ThinSource) => ThinRow(ExportedThin(sha, root, t))
  }

  function BakeRowOf(sha: Bytes -> string, root: Cache): BakeSource -> Row {
    (b: BakeSource) => BakeRow(ExportedBake(sha, root, b))
  }

  /** The digest an export reports is a hash of these rows. */
  function ExportRows(sha: Bytes -> string, root: Cache, plan: Plan): seq<Row> {
    DigestRows(plan.Entries(), Map(plan.thin, ThinOf(sha, root)), Map(plan.bakes, BakeOf(sha, root)))
  }

  lemma {:induction false} ExportRowsFlat(sha: Bytes -> string, root: Cache, plan: Plan)
    ensures ExportRows(sha, root, plan)
         == Sort(Map(plan.Entries(), EntryRow), RowLe) + Sort(Map(plan.thin, ThinRowOf(sha, root)), RowLe)
            + Sort(Map(plan.bakes, BakeRowOf(sha, root)), RowLe)
    ensures |ExportRows(sha, root, plan)| == |plan.Entries()| + |plan.thin| + |plan.bakes|
  {
    assert Map(Map(plan.thin, ThinOf(sha, root)), ThinRow) == Map(plan.thin, ThinRowOf(sha, root));
    assert Map(Map(plan.bakes, BakeOf(sha, root)), BakeRow) == Map(plan.bakes, BakeRowOf(sha, root));
    SortContents(Map(plan.Entries(), EntryRow), RowLe);
    SortContents(Map(plan.thin, ThinRowOf(sha, root)), RowLe);
    SortContents(Map(plan.bakes, BakeRowOf(sha, root)), RowLe);
  }

  lemma {:induction false} SameBakeRow(sha: Bytes -> string, root: Cache, c: Cache, b: BakeSource)
    requires b.directory in c.bakes
    requires c.bakes[b.directory].files == CopyFiles(BakeFilesIn(root, b.directory), b.names)
    ensures BakeRowOf(sha, c)(StampedBake(b)) == BakeRowOf(sha, root)(b)
  {
    var files, files' := BakeFilesIn(root, b.directory), BakeFilesIn(c, b.directory);
    assert Map(b.names, BakeFileOf(sha, files')) == Map(b.names, BakeFileOf(sha, files));
    assert ExportedBake(sha, c, StampedBake(b)).files == ExportedBake(sha, root, b).files;
  }

  /** The plan of the restored cache: all its actions and ThinLTO files, and its bakes
      that are still wanted. */
  ghost predicate PlannedAgain(o: Options, plan: Plan, again: Plan, bakes: seq<BakeSource>) {
    && Relists(plan.Entries(), Stamped, again.Entries())
    && Relists(plan.thin, StampedThin, again.thin)
    && Relists(plan.bakes, StampedBake, bakes)
    && again.bakes == Filter(bakes, StillWanted(o))
  }

  function StillWanted(o: Options): BakeSource -> bool {
    (b: BakeSource) => o.part.SharedPart? || Used(o, b.mtime)
  }

  lemma {:induction false} HalvesRelist(all: seq<Entry>, o: Options, again: seq<Entry>)
    requires Relists(all, Stamped, again)
    ensures Relists(all, Stamped, Filter(again, UsedEntry(o)) + Filter(again, UnusedEntry(o)))
  {
    FilterDistinct(again, UsedEntry(o));
    FilterDistinct(again, UnusedEntry(o));
    var used, older := Filter(again, UsedEntry(o)), Filter(again, UnusedEntry(o));
    TakenHalves(again, o, used, older);
    forall e | e in again ensures e in used + older {
      FilterMember(again, UsedEntry(o), e);
      FilterMember(again, UnusedEntry(o), e);
    }
  }

  lemma {:induction false} SumsRelisted(plan: Plan, bakes: seq<BakeSource>, entries: seq<Entry>, thin: seq<ThinSource>)
    requires Relists(plan.bakes, StampedBake, bakes) && Relists(plan.Entries(), Stamped, entries)
    requires Relists(plan.thin, StampedThin, thin)
    ensures Sum(bakes, BakeBytes) + Sum(entries, EntryBytes) + Sum(thin, ThinBytes) == plan.Total()
    ensures plan == Plan([], [], [], []) ==> bakes == [] && entries == [] && thin == []
  {
    SumRelists(plan.bakes, StampedBake, bakes, BakeBytes);
    SumRelists(plan.Entries(), Stamped, entries, EntryBytes);
    SumRelists(plan.thin, StampedThin, thin, ThinBytes);
    SumAppend(plan.used, plan.older, EntryBytes);
    RelistsLength(plan.bakes, StampedBake, bakes);
    RelistsLength(plan.Entries(), Stamped, entries);
    RelistsLength(plan.thin, StampedThin, thin);
  }

  // What the second export reads.

  ghost predicate BakesAgain(o: Options, bakes: seq<BakeSource>, again: seq<BakeSource>) {
    && Relists(bakes, StampedBake, again)
    && (forall b :: b in again ==> (WantedBake(o, BakeCutoff(again))(b) <==> StillWanted(o)(b)))
  }

  ghost predicate EntriesAgain(c: Cache, entries: seq<Entry>, again: seq<Entry>) {
    && Relists(entries, Stamped, again)
    && (forall e :: e in again ==> e.mtime >= Newest(again) - RETENTION_MS && Complete(c.blobs, e))
  }

  ghost predicate ThinAgain(thin: seq<ThinSource>, again: seq<ThinSource>) {
    && Relists(thin, StampedThin, again)
    && (forall t :: t in again ==> t.mtime >= ThinCutoff(again))
  }

  lemma {:induction false} ReadsBakesAgain(ls: Lister, root: Cache, o: Options, plan: Plan, c: Cache)
    requires FixedOrder(ls) && Planned(ls, root, o, plan) && BakesOver(root, plan.bakes, EMPTY_CACHE, c)
    ensures BakesAgain(o, plan.bakes, ReadBakes(ls, c.bakes))
  {
    SecondBakes(ls, root, plan.bakes, c);
    ReadsSorted(ls, root, o);
    ReadsSorted(ls, c, o);
    SecondBakesWanted(o, ReadBakes(ls, root.bakes), plan.bakes, ReadBakes(ls, c.bakes));
  }

  lemma {:induction false} ReadsEntriesAgain(ls: Lister, root: Cache, o: Options, plan: Plan, c: Cache)
    requires FixedOrder(ls) && Planned(ls, root, o, plan) && ActionsOver(plan.Entries(), EMPTY_CACHE, c)
    ensures EntriesAgain(c, plan.Entries(), Candidates(ls, c, o))
  {
    SecondEntries(ls, root, o, plan.Entries(), c);
    SecondComplete(plan.Entries(), Candidates(ls, c, o), c);
    SecondEntriesRecent(ls, root, o, plan, Candidates(ls, c, o));
  }

  lemma {:induction false} ReadsThinAgain(ls: Lister, root: Cache, o: Options, plan: Plan, c: Cache)
    requires FixedOrder(ls) && Planned(ls, root, o, plan) && ThinOver(root, plan.thin, EMPTY_CACHE, c)
    ensures ThinAgain(plan.thin, ThinCandidates(ls, c, o))
  {
    if o.part.LinePart? {
      SecondThin(ls, root, plan.thin, c);
      ReadsSorted(ls, root, o);
      ReadsSorted(ls, c, o);
      SecondThinRecent(ThinCandidates(ls, root, o), plan.thin, ThinCandidates(ls, c, o));
    }
  }

  lemma {:induction false} TakenAgain(c: Cache, o: Options, plan: Plan, bakes: seq<BakeSource>, entries: seq<Entry>,
                                      thin: seq<ThinSource>)
    requires BakesAgain(o, plan.bakes, bakes) && EntriesAgain(c, plan.Entries(), entries) && ThinAgain(plan.thin, thin)
    requires plan == Plan([], [], [], []) || plan.Total() <= o.maxBytes
    requires forall b :: b in plan.bakes ==> b.size >= 0
    requires forall t :: t in plan.thin ==> t.size >= 0
    ensures PlannedAgain(o, plan, PlanFrom(c, o, bakes, entries, thin), bakes)
  {
    FilterCongruent(bakes, WantedBake(o, BakeCutoff(bakes)), StillWanted(o));
    SumsRelisted(plan, bakes, entries, thin);
    SizesRelisted(plan, bakes, thin);
    PlanTakesAll(c, o, bakes, entries, thin);
    HalvesRelist(plan.Entries(), o, entries);
  }

  lemma {:induction false} FileSizesNonNegative(names: seq<string>, files: map<string, Bytes>)
    ensures Sum(names, FileSize(files)) >= 0
  {
    SumNonNegative(names, FileSize(files));
  }

  lemma {:induction false} PlannedSizes(ls: Lister, root: Cache, o: Options, plan: Plan)
    requires Planned(ls, root, o, plan)
    ensures forall b :: b in plan.bakes ==> b.size >= 0
    ensures forall t :: t in plan.thin ==> t.size >= 0
  {
    forall b | b in plan.bakes ensures b.size >= 0 { FileSizesNonNegative(b.names, root.bakes[b.directory].files); }
  }

  /** Exporting the restored cache takes back everything but bakes no longer wanted. */
  lemma {:induction false} ReExport(ls: Lister, root: Cache, o: Options, plan: Plan, c: Cache)
    requires FixedOrder(ls) && Planned(ls, root, o, plan) && Restored(root, plan, c)
    requires plan == Plan([], [], [], []) || plan.Total() <= o.maxBytes
    ensures PlannedAgain(o, plan, PlanExport(ls, c, o), ReadBakes(ls, c.bakes))
  {
    ReadsBakesAgain(ls, root, o, plan, c);
    ReadsEntriesAgain(ls, root, o, plan, c);
    ReadsThinAgain(ls, root, o, plan, c);
    PlannedSizes(ls, root, o, plan);
    TakenAgain(c, o, plan, ReadBakes(ls, c.bakes), Candidates(ls, c, o), ThinCandidates(ls, c, o));
  }

  lemma {:induction false} SizesRelisted(plan: Plan, bakes: seq<BakeSource>, thin: seq<ThinSource>)
    requires Relists(plan.bakes, StampedBake, bakes) && Relists(plan.thin, StampedThin, thin)
    requires forall b :: b in plan.bakes ==> b.size >= 0
    requires forall t :: t in plan.thin ==> t.size >= 0
    ensures forall b :: b in bakes ==> b.size >= 0
    ensures forall t :: t in thin ==> t.size >= 0
  {
    forall b' | b' in bakes ensures b'.size >= 0 { var b := MapMember(plan.bakes, StampedBake, b'); }
    forall t' | t' in thin ensures t'.size >= 0 { var t := MapMember(plan.thin, StampedThin, t'); }
  }

  lemma {:induction false} FilterShorter<T>(s: seq<T>, keep: T -> bool, x: T)
    requires x in s && !keep(x)
    ensures |Filter(s, keep)| < |s|
  {
    if s[0] == x {
      FilterLength(s[1..], keep);
    } else {
      FilterShorter(s[1..], keep, x);
    }
  }

  lemma {:induction false} FilterLength<T>(s: seq<T>, keep: T -> bool)
    ensures |Filter(s, keep)| <= |s|
  {
    if s != [] { FilterLength(s[1..], keep); }
  }

  lemma {:induction false} RowsSame(sha: Bytes -> string, root: Cache, c: Cache, o: Options, plan: Plan, again: Plan,
                                    bakes: seq<BakeSource>)
    requires PlanOf(root, plan) && Restored(root, plan, c) && PlannedAgain(o, plan, again, bakes)
    requires forall b :: b in plan.bakes ==> StillWanted(o)(StampedBake(b))
    ensures ExportRows(sha, c, again) == ExportRows(sha, root, plan)
  {
    ExportRowsFlat(sha, root, plan);
    ExportRowsFlat(sha, c, again);
    forall b' | b' in bakes ensures StillWanted(o)(b') { var b := MapMember(plan.bakes, StampedBake, b'); }
    FilterAll(bakes, StillWanted(o));
    SameActionRows(plan, again);
    SameThinRows(sha, root, c, plan.thin, again.thin);
    SameBakeRows(sha, root, c, plan.bakes, bakes);
  }

  lemma {:induction false} FewerRows(sha: Bytes -> string, root: Cache, c: Cache, o: Options, plan: Plan, again: Plan,
                                     bakes: seq<BakeSource>, b: BakeSource)
    requires PlannedAgain(o, plan, again, bakes)
    requires b in plan.bakes && !StillWanted(o)(StampedBake(b))
    ensures |ExportRows(sha, c, again)| < |ExportRows(sha, root, plan)|
  {
    ExportRowsFlat(sha, root, plan);
    ExportRowsFlat(sha, c, again);
    RelistsLength(plan.Entries(), Stamped, again.Entries());
    RelistsLength(plan.thin, StampedThin, again.thin);
    RelistsLength(plan.bakes, StampedBake, bakes);
    var i :| 0 <= i < |plan.bakes| && plan.bakes[i] == b;
    assert Map(plan.bakes, StampedBake)[i] in Map(plan.bakes, StampedBake);
    FilterShorter(bakes, StillWanted(o), StampedBake(b));
  }

  /** The rows of the two exports agree exactly when every exported bake is still wanted. */
  lemma {:induction false} RowsAgree(sha: Bytes -> string, root: Cache, c: Cache, o: Options, plan: Plan, again: Plan,
                                     bakes: seq<BakeSource>)
    requires PlanOf(root, plan) && Restored(root, plan, c) && PlannedAgain(o, plan, again, bakes)
    ensures ExportRows(sha, c, again) == ExportRows(sha, root, plan)
       <==> forall b :: b in plan.bakes ==> StillWanted(o)(StampedBake(b))
  {
    if b :| b in plan.bakes && !StillWanted(o)(StampedBake(b)) {
      FewerRows(sha, root, c, o, plan, again, bakes, b);
    } else {
      RowsSame(sha, root, c, o, plan, again, bakes);
    }
  }

  lemma {:induction false} SameActionRows(plan: Plan, again: Plan)
    requires ManifestsDistinct(plan.Entries()) && Relists(plan.Entries(), Stamped, again.Entries())
    ensures Sort(Map(plan.Entries(), EntryRow), RowLe) == Sort(Map(again.Entries(), EntryRow), RowLe)
  {
    SameRows(plan.Entries(), Stamped, again.Entries(), EntryRow, EntryRow);
  }

  lemma {:induction false} SameThinRows(sha: Bytes -> string, root: Cache, c: Cache, thin: seq<ThinSource>,
                                        again: seq<ThinSource>)
    requires FilesDistinct(thin) && Relists(thin, StampedThin, again) && ThinOver(root, thin, EMPTY_CACHE, c)
    ensures Sort(Map(thin, ThinRowOf(sha, root)), RowLe) == Sort(Map(again, ThinRowOf(sha, c)), RowLe)
  {
    forall t | t in thin
      ensures ThinRowOf(sha, c)(StampedThin(t)) == ThinRowOf(sha, root)(t) && ThinRowOf(sha, root)(t).key == t.file
    {
    }
    assert forall i :: 0 <= i < |thin| ==> thin[i] in thin;
    SameRows(thin, StampedThin, again, ThinRowOf(sha, root), ThinRowOf(sha, c));
  }

  lemma {:induction false} SameBakeRows(sha: Bytes -> string, root: Cache, c: Cache, bakes: seq<BakeSource>,
                                        again: seq<BakeSource>)
    requires DirectoriesDistinct(bakes) && Relists(bakes, StampedBake, again) && BakesOver(root, bakes, EMPTY_CACHE, c)
    ensures Sort(Map(bakes, BakeRowOf(sha, root)), RowLe) == Sort(Map(again, BakeRowOf(sha, c)), RowLe)
  {
    forall b | b in bakes ensures BakeRowOf(sha, c)(StampedBake(b)) == BakeRowOf(sha, root)(b) {
      SameBakeRow(sha, root, c, b);
    }
    forall b: BakeSource ensures BakeRowOf(sha, root)(b).key == b.directory { }
    SameRows(bakes, StampedBake, again, BakeRowOf(sha, root), BakeRowOf(sha, c));
  }

  // ------------------------------------------------------- what was not accepted

  lemma {:induction false} EntrySizes(root: Cache, entries: seq<Entry>)
    requires forall e :: e in entries ==> Complete(root.blobs, e)
    ensures forall e :: e in entries ==> EntryBytes(e) >= 0
  {
    forall e | e in entries ensures EntryBytes(e) >= 0 { SumNonNegative(e.outputs, OutputSize); }
  }

  /** What is accepted fits where all of it did. */
  lemma {:induction false} KeptFits(sha: Bytes -> string, ls: Lister, root: Cache, o: Options, plan: Plan)
    requires Planned(ls, root, o, plan) && (plan == Plan([], [], [], []) || plan.Total() <= o.maxBytes)
    ensures var kept := Kept(sha, root, plan); kept == Plan([], [], [], []) || kept.Total() <= o.maxBytes
  {
    var all := plan.Entries();
    assert forall e :: e in plan.used || e in plan.older ==> e in all;
    EntrySizes(root, plan.used);
    EntrySizes(root, plan.older);
    PlannedSizes(ls, root, o, plan);
    FilterSumAtMost(plan.bakes, AcceptsBake(sha, root), BakeBytes);
    FilterSumAtMost(plan.used, AcceptsEntry(sha, root), EntryBytes);
    FilterSumAtMost(plan.thin, AcceptsThin(sha, root), ThinBytes);
    FilterSumAtMost(plan.older, AcceptsEntry(sha, root), EntryBytes);
  }

  lemma {:induction false} KeptIsAll(sha: Bytes -> string, root: Cache, plan: Plan)
    requires Importable(sha, root, plan)
    ensures Kept(sha, root, plan) == plan
  {
    assert forall e :: e in plan.used || e in plan.older ==> e in plan.Entries();
    FilterAll(plan.bakes, AcceptsBake(sha, root));
    FilterAll(plan.used, AcceptsEntry(sha, root));
    FilterAll(plan.thin, AcceptsThin(sha, root));
    FilterAll(plan.older, AcceptsEntry(sha, root));
  }

  function Parts(plan: Plan): nat { |plan.Entries()| + |plan.thin| + |plan.bakes| }

  lemma {:induction false} KeptIsLess(sha: Bytes -> string, root: Cache, plan: Plan)
    ensures Parts(Kept(sha, root, plan)) <= Parts(plan)
    ensures !Importable(sha, root, plan) ==> Parts(Kept(sha, root, plan)) < Parts(plan)
  {
    KeptMembers(sha, root, plan);
    FilterLength(plan.Entries(), AcceptsEntry(sha, root));
    FilterLength(plan.thin, AcceptsThin(sha, root));
    FilterLength(plan.bakes, AcceptsBake(sha, root));
    if e :| e in plan.Entries() && !EntryAccepted(sha, root, e) {
      FilterShorter(plan.Entries(), AcceptsEntry(sha, root), e);
    } else if t :| t in plan.thin && !ThinAccepted(sha, root, t) {
      FilterShorter(plan.thin, AcceptsThin(sha, root), t);
    } else if b :| b in plan.bakes && !BakeAccepted(sha, root, b) {
      FilterShorter(plan.bakes, AcceptsBake(sha, root), b);
    }
  }

  lemma {:induction false} AgainAtMost(o: Options, plan: Plan, again: Plan, bakes: seq<BakeSource>)
    requires PlannedAgain(o, plan, again, bakes)
    ensures Parts(again) <= Parts(plan)
  {
    RelistsLength(plan.Entries(), Stamped, again.Entries());
    RelistsLength(plan.thin, StampedThin, again.thin);
    RelistsLength(plan.bakes, StampedBake, bakes);
    FilterLength(bakes, StillWanted(o));
  }

  // -------------------------------------------------------------- the theorem

  /** Every exported bake still counts as used once its time is in whole milliseconds; a
      shared snapshot does not ask. */
  ghost predicate BakesStayUsed(o: Options, plan: Plan) {
    forall b :: b in plan.bakes ==> o.part.SharedPart? || Used(o, Truncate(b.mtime))
  }

  lemma {:induction false} RowsAgreeExactly(sha: Bytes -> string, root: Cache, c: Cache, o: Options, plan: Plan,
                                            again: Plan, bakes: seq<BakeSource>)
    requires PlanOf(root, plan) && Restored(root, Kept(sha, root, plan), c)
    requires PlannedAgain(o, Kept(sha, root, plan), again, bakes)
    ensures ExportRows(sha, c, again) == ExportRows(sha, root, plan)
       <==> Importable(sha, root, plan) && BakesStayUsed(o, plan)
  {
    if Importable(sha, root, plan) {
      KeptIsAll(sha, root, plan);
      RowsAgree(sha, root, c, o, plan, again, bakes);
      assert forall b: BakeSource ::
        StillWanted(o)(StampedBake(b)) <==> o.part.SharedPart? || Used(o, Truncate(b.mtime));
    } else {
      RowsMissing(sha, root, c, o, plan, again, bakes);
    }
  }

  lemma {:induction false} RowsMissing(sha: Bytes -> string, root: Cache, c: Cache, o: Options, plan: Plan, again: Plan,
                                       bakes: seq<BakeSource>)
    requires !Importable(sha, root, plan) && PlannedAgain(o, Kept(sha, root, plan), again, bakes)
    ensures |ExportRows(sha, c, again)| < |ExportRows(sha, root, plan)|
  {
    KeptIsLess(sha, root, plan);
    AgainAtMost(o, Kept(sha, root, plan), again, bakes);
    ExportRowsFlat(sha, root, plan);
    ExportRowsFlat(sha, c, again);
  }

  /** Export, import into an empty cache, export again: for every cache, the digest stays
      the same if and only if the import accepts everything exported and every exported
      bake still counts as used. What was accepted comes back either way, except for bakes
      of a line that no longer count. */
  lemma {:induction false} ReExportFixedPoint(sha: Bytes -> string, ls: Lister, root: Cache, o: Options)
    requires FixedOrder(ls)
    ensures var plan := PlanExport(ls, root, o);
      var kept := Kept(sha, root, plan);
      var restored := Import(sha, ls, SnapshotOf(sha, root, plan), EMPTY_CACHE);
      var again := PlanExport(ls, restored, o);
      && (ExportRows(sha, restored, again) == ExportRows(sha, root, plan)
          <==> Importable(sha, root, plan) && BakesStayUsed(o, plan))
      && Relists(kept.Entries(), Stamped, again.Entries())
      && Relists(kept.thin, StampedThin, again.thin)
  {
    var plan := PlanExport(ls, root, o);
    PlanIsPlanned(ls, root, o);
    PlanEmptyOrFits(root, o, ReadBakes(ls, root.bakes), Candidates(ls, root, o), ThinCandidates(ls, root, o));
    KeptPlanned(sha, ls, root, o, plan);
    KeptFits(sha, ls, root, o, plan);
    var s := SnapshotOf(sha, root, plan);
    ImportRestores(sha, ls, root, o, plan, s);
    var restored := Import(sha, ls, s, EMPTY_CACHE);
    ReExport(ls, root, o, Kept(sha, root, plan), restored);
    RowsAgreeExactly(sha, root, restored, o, plan, PlanExport(ls, restored, o), ReadBakes(ls, restored.bakes));
  }

  /** With a whole number of milliseconds as used-since time, or none, only what the import
      rejects can break the fixed point. */
  lemma {:induction false} WholeMillisecondsFixedPoint(sha: Bytes -> string, ls: Lister, root: Cache, o: Options)
    requires FixedOrder(ls)
    requires o.usedSince.None? || Truncate(o.usedSince.value) == o.usedSince.value
    ensures var plan := PlanExport(ls, root, o);
      var restored := Import(sha, ls, SnapshotOf(sha, root, plan), EMPTY_CACHE);
      ExportRows(sha, restored, PlanExport(ls, restored, o)) == ExportRows(sha, root, plan)
      <==> Importable(sha, root, plan)
  {
    var plan := PlanExport(ls, root, o);
    ReExportFixedPoint(sha, ls, root, o);
    PlanIsPlanned(ls, root, o);
    forall b | b in plan.bakes ensures o.part.SharedPart? || Used(o, Truncate(b.mtime)) {
      if o.part.LinePart? && o.usedSince.Some? { TruncateMonotone(o.usedSince.value, b.mtime); }
    }
  }

  /** The rows whose digest an import reports: those of what it took. */
  function ImportRows(sha: Bytes -> string, ls: Lister, s: Snapshot): seq<Row> {
    DigestRows(Filter(ReadEntries(ls, s.actions), EntryTaken(sha, s)), Filter(s.thinLto, ThinTaken(sha, s)),
               Filter(s.bakes, BakeTaken(sha, s)))
  }

  /** The digest an import reports is the one the export reported exactly when the import
      took everything. */
  lemma {:induction false} ImportReportsExportDigest(sha: Bytes -> string, ls: Lister, root: Cache, o: Options)
    requires FixedOrder(ls)
    ensures var plan := PlanExport(ls, root, o);
      ImportRows(sha, ls, SnapshotOf(sha, root, plan)) == ExportRows(sha, root, plan) <==> Importable(sha, root, plan)
  {
    var plan := PlanExport(ls, root, o);
    var s, kept := SnapshotOf(sha, root, plan), Kept(sha, root, plan);
    PlanIsPlanned(ls, root, o);
    RowsTaken(sha, ls, root, o, plan, s);
    SnapshotEntriesTaken(sha, ls, root, o, plan, s);
    KeptDistinct(sha, root, plan);
    SameRows(kept.Entries(), Stamped, Filter(ReadEntries(ls, s.actions), EntryTaken(sha, s)), EntryRow, EntryRow);
    assert ImportRows(sha, ls, s) == ExportRows(sha, root, kept);
    if Importable(sha, root, plan) {
      KeptIsAll(sha, root, plan);
    } else {
      KeptIsLess(sha, root, plan);
      ExportRowsFlat(sha, root, plan);
      ExportRowsFlat(sha, root, kept);
    }
  }

  // A cache holding one bake, last used at 1000.7.

  function OneBake(d: string): Cache {
    EMPTY_CACHE.(bakes := map[d := BakeDir(map[BAKE_RECORD := []], 1000.7)])
  }

  const SINCE_1000_5 := Options(LinePart, 1000, Some(1000.5), Nothing)

  lemma {:induction false} OneBakeRead(ls: Lister, d: string)
    requires FixedOrder(ls) && IsDigest(d)
    ensures ReadBakes(ls, OneBake(d).bakes) == [BakeSource(d, [BAKE_RECORD], 1000.7, 0)]
  {
    var bakes := OneBake(d).bakes;
    var b := BakeSource(d, [BAKE_RECORD], 1000.7, 0);
    ReadBakesFacts(ls, bakes);
    BakeNamesFacts(ls, bakes[d]);
    var names := BakeNames(ls, bakes[d]);
    DistinctPermutation(names, [BAKE_RECORD]);
    assert |multiset(names)| == 1;
    assert names == [BAKE_RECORD] && names[..0] == [];
    assert Sum([BAKE_RECORD], FileSize(bakes[d].files)) == 0 by { assert [BAKE_RECORD][..0] == []; }
    assert BakeSourceOf(ls, bakes, d) == b;
    var all := ReadBakes(ls, bakes);
    DistinctPermutation(all, [b]);
    assert |multiset(all)| == 1;
  }

  lemma {:induction false} NothingElseRead(ls: Lister, d: string)
    requires FixedOrder(ls)
    ensures Candidates(ls, OneBake(d), SINCE_1000_5) == [] && ThinCandidates(ls, OneBake(d), SINCE_1000_5) == []
  {
    var none: set<string> := {};
    DistinctPermutation(ls(none), []);
    assert |multiset(ls(none))| == 0;
    assert OneBake(d).actions.Keys == none && OneBake(d).thinLto.Keys == none;
  }

  lemma {:induction false} PlanOfOneBake(root: Cache, b: BakeSource)
    requires b.size == 0 && b.mtime == 1000.7
    ensures PlanFrom(root, SINCE_1000_5, [b], [], []) == Plan([b], [], [], [])
  {
    var ok := WantedBake(SINCE_1000_5, BakeCutoff([b]));
    assert [b][..0] == [];
    assert Greedy([b][..0], ok, BakeBytes, 0, 1000) == [];
    assert ok(b);
    assert TakeBakes(SINCE_1000_5, [b], 0) == [b];
  }

  lemma {:induction false} OneBakePlan(ls: Lister, d: string)
    requires FixedOrder(ls) && IsDigest(d)
    ensures PlanExport(ls, OneBake(d), SINCE_1000_5) == Plan([BakeSource(d, [BAKE_RECORD], 1000.7, 0)], [], [], [])
  {
    OneBakeRead(ls, d);
    NothingElseRead(ls, d);
    PlanOfOneBake(OneBake(d), BakeSource(d, [BAKE_RECORD], 1000.7, 0));
  }

  lemma {:induction false} OneBakeImportable(sha: Bytes -> string, d: string, plan: Plan)
    requires IsDigest(d) && IsDigest(sha([])) && plan == Plan([BakeSource(d, [BAKE_RECORD], 1000.7, 0)], [], [], [])
    ensures Importable(sha, OneBake(d), plan)
  {
    assert plan.Entries() == [];
  }

  /** A used-since time with a fraction can lose a bake: used at 1000.7, it is restored as
      used at 1000, before the limit 1000.5. */
  lemma {:induction false} FractionalUsedSinceLosesBake(sha: Bytes -> string, ls: Lister, d: string)
    requires FixedOrder(ls) && IsDigest(d) && IsDigest(sha([]))
    ensures var root, o := OneBake(d), SINCE_1000_5;
      var plan := PlanExport(ls, root, o);
      var restored := Import(sha, ls, SnapshotOf(sha, root, plan), EMPTY_CACHE);
      && Importable(sha, root, plan)
      && ExportRows(sha, restored, PlanExport(ls, restored, o)) != ExportRows(sha, root, plan)
  {
    var plan := PlanExport(ls, OneBake(d), SINCE_1000_5);
    OneBakePlan(ls, d);
    OneBakeImportable(sha, d, plan);
    ReExportFixedPoint(sha, ls, OneBake(d), SINCE_1000_5);
    var b := plan.bakes[0];
    assert b in plan.bakes;
    assert !Used(SINCE_1000_5, Truncate(b.mtime)) by { assert 1000.7.Floor == 1000; }
  }

  // ------------------------------------------------- what a crash leaves behind

  /** A leftover of a ThinLTO copy is listed for export, but no import accepts its name. */
  lemma {:induction false} LeftoverListed(file: string, tag: string)
    requires ThinListed(file) && IsTag(tag)
    ensures ThinListed(TemporaryName(file, tag)) && !IsThinName(TemporaryName(file, tag))
  {
    var name := TemporaryName(file, tag);
    var k :| 0 < k < |file| && ListedAt(file, k);
    assert name[k + 1..] == file[k + 1..] + ("." + tag);
    assert ListedAt(name, k);
    assert name[|file|..] == "." + tag;
    NotTaken(name, tag);
  }

  /** An export that takes such a leftover is no fixed point. */
  lemma {:induction false} LeftoverBreaksFixedPoint(sha: Bytes -> string, ls: Lister, root: Cache, o: Options,
                                                    t: ThinSource, file: string, tag: string)
    requires FixedOrder(ls) && ThinListed(file) && IsTag(tag)
    requires t in PlanExport(ls, root, o).thin && t.file == TemporaryName(file, tag)
    ensures var plan := PlanExport(ls, root, o);
      var restored := Import(sha, ls, SnapshotOf(sha, root, plan), EMPTY_CACHE);
      ExportRows(sha, restored, PlanExport(ls, restored, o)) != ExportRows(sha, root, plan)
  {
    LeftoverListed(file, tag);
    ReExportFixedPoint(sha, ls, root, o);
    assert !ThinAccepted(sha, root, t);
  }

  const WHOLE_LINE := Options(LinePart, 1000, None, Nothing)

  /** An empty cache after a crash in the middle of the first ThinLTO copy. */
  function CrashedCopy(file: string, tag: string): Cache {
    Apply(EMPTY_CACHE, WriteTemporary(Aside(ThinLto(file, ThinFile([], 1000.0)), tag)))
  }

  lemma {:induction false} LeftoverRead(ls: Lister, file: string, tag: string)
    requires FixedOrder(ls) && ThinListed(file) && IsTag(tag)
    ensures var c := CrashedCopy(file, tag);
      && ReadThin(ls, c.thinLto) == [ThinSource(TemporaryName(file, tag), 0, 1000.0)]
      && ReadBakes(ls, c.bakes) == [] && Candidates(ls, c, WHOLE_LINE) == []
  {
    var c := CrashedCopy(file, tag);
    var none: set<string> := {};
    LeftoverListed(file, tag);
    ReadThinFacts(ls, c.thinLto);
    var only := [ThinSource(TemporaryName(file, tag), 0, 1000.0)];
    DistinctPermutation(ReadThin(ls, c.thinLto), only);
    assert |multiset(ReadThin(ls, c.thinLto))| == 1;
    DistinctPermutation(ls(none), []);
    assert |multiset(ls(none))| == 0;
    assert c.actions.Keys == none && c.bakes.Keys == none;
  }

  lemma {:induction false} PlanOfLeftover(root: Cache, t: ThinSource)
    requires t.size == 0 && t.mtime == 1000.0
    ensures PlanFrom(root, WHOLE_LINE, [], [], [t]).thin == [t]
  {
    var ok := RecentThin(ThinCutoff([t]));
    assert [t][..0] == [] && ok(t);
    assert Greedy([t][..0], ok, ThinBytes, 0, 1000) == [];
  }

  /** One interrupted import into an empty cache is enough. */
  lemma {:induction false} CrashBreaksFixedPoint(sha: Bytes -> string, ls: Lister, file: string, tag: string)
    requires FixedOrder(ls) && ThinListed(file) && IsTag(tag)
    ensures var root := CrashedCopy(file, tag);
      var plan := PlanExport(ls, root, WHOLE_LINE);
      var restored := Import(sha, ls, SnapshotOf(sha, root, plan), EMPTY_CACHE);
      ExportRows(sha, restored, PlanExport(ls, restored, WHOLE_LINE)) != ExportRows(sha, root, plan)
  {
    var root, t := CrashedCopy(file, tag), ThinSource(TemporaryName(file, tag), 0, 1000.0);
    LeftoverRead(ls, file, tag);
    PlanOfLeftover(root, t);
    assert t in PlanExport(ls, root, WHOLE_LINE).thin;
    LeftoverBreaksFixedPoint(sha, ls, root, WHOLE_LINE, t, file, tag);
  }

  /** A leftover in a bake directory is listed as one of its files, under a name the import
      accepts, so it travels with the bake from then on. */
  lemma {:induction false} BakeLeftoverListed(ls: Lister, dir: BakeDir, name: string, tag: string)
    requires FixedOrder(ls) && IsBakeFileName(name) && IsTag(tag) && TemporaryName(name, tag) in dir.files
    ensures TemporaryName(name, tag) in BakeNames(ls, dir) && IsBakeFileName(TemporaryName(name, tag))
  {
    var left := TemporaryName(name, tag);
    BakeNamesFacts(ls, dir);
    forall i | 0 <= i < |left| ensures IsWordChar(left[i]) || left[i] in ".-" {
      if i > |name| { assert left[i] == tag[i - |name| - 1]; }
    }
  }
}
