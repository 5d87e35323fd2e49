/** The mapping tables of scripts/generate-unicode-data.ts and the searches of
    runtime/src/unicode.c that read them. Mappings become sorted rows that point into one
    shared pool of values, which every table appends to; canonical pairs become a sorted
    table of compositions. A JavaScript Map is the list of its entries in insertion order. */
module UnicodeTables {
  import opened Optional
  import opened Sorting

  datatype Mapping = Mapping(cp: nat, values: seq<nat>)
  datatype Decomposition = Decomposition(cp: nat, values: seq<nat>, compatibility: bool)

  /** What is stored of one code point: its values, and columns after the slice. */
  datatype Row = Row(cp: nat, values: seq<nat>, flags: seq<nat>)

  // ----------------------------------------------------------------- rows and the pool

  function PoolOf(rows: seq<Row>): seq<nat> {
    if rows == [] then [] else PoolOf(rows[..|rows| - 1]) + rows[|rows| - 1].values
  }

  /** Where the pool ends once these rows are in it. */
  function StartAfter(rows: seq<Row>, start: nat): nat { start + |PoolOf(rows)| }

  function TableRow(row: Row, start: nat): seq<nat> { [row.cp, start, |row.values|] + row.flags }

  /** The flat table of rows whose values start at `start` in the pool. */
  function TableOf(rows: seq<Row>, start: nat): seq<nat> {
    if rows == [] then [] else
      var front, last := rows[..|rows| - 1], rows[|rows| - 1];
      TableOf(front, start) + TableRow(last, StartAfter(front, start))
  }

  /** Where row `i` starts in a table of `w` columns. */
  function Pos(w: nat, i: int): int
    requires w == 3 || w == 4
  {
    if w == 3 then 3 * i else 4 * i
  }

  ghost predicate Stride(rows: seq<Row>, w: nat) {
    (w == 3 || w == 4) && forall r :: r in rows ==> |r.flags| == w - 3
  }

  lemma {:induction false} TableLength(rows: seq<Row>, start: nat, w: nat)
    requires Stride(rows, w)
    ensures |TableOf(rows, start)| == Pos(w, |rows|)
  {
    if rows != [] {
      assert rows[|rows| - 1] in rows;
      TableLength(rows[..|rows| - 1], start, w);
    }
  }

  lemma {:induction false} AppendAt(a: seq<nat>, b: seq<nat>, i: nat)
    ensures i < |a| ==> (a + b)[i] == a[i]
    ensures i < |b| ==> (a + b)[|a| + i] == b[i]
  {
  }

  lemma {:induction false} TableAt(rows: seq<Row>, start: nat, w: nat, k: nat, j: nat)
    requires Stride(rows, w) && k < |rows| && j < w
    ensures |TableOf(rows, start)| == Pos(w, |rows|)
    ensures TableOf(rows, start)[Pos(w, k) + j] == TableRow(rows[k], StartAfter(rows[..k], start))[j]
  {
    var last := |rows| - 1;
    var front := rows[..last];
    var head, tail := TableOf(front, start), TableRow(rows[last], StartAfter(front, start));
    TableLength(rows, start, w);
    TableLength(front, start, w);
    assert rows[last] in rows && rows[k] in rows;
    if k < last {
      TableAt(front, start, w, k, j);
      AppendAt(head, tail, Pos(w, k) + j);
      assert front[..k] == rows[..k];
    } else {
      AppendAt(head, tail, j);
    }
  }

  /** A slice of the pool is what was put there, whatever is appended later. */
  lemma {:induction false} PoolSlice(pool: seq<nat>, rows: seq<Row>, more: seq<nat>, k: nat)
    requires k < |rows| && pool + PoolOf(rows) <= more
    ensures var start := StartAfter(rows[..k], |pool|);
      start + |rows[k].values| <= |more| && more[start..start + |rows[k].values|] == rows[k].values
  {
    var last := |rows| - 1;
    var front := rows[..last];
    assert pool + PoolOf(rows) == pool + PoolOf(front) + rows[last].values;
    if k < last {
      PoolSlice(pool, front, more, k);
      assert front[..k] == rows[..k];
    }
  }

  // ------------------------------------------------------------------- the generator

  predicate ByCodePoint(a: Row, b: Row) { a.cp <= b.cp }

  predicate Changed(m: Mapping) { m.values != [m.cp] }

  function MappingRow(m: Mapping): Row { Row(m.cp, m.values, []) }

  function DecompositionRow(d: Decomposition): Row {
    Row(d.cp, d.values, [if d.compatibility then 1 else 0])
  }

  function MappingRows(entries: seq<Mapping>): seq<Row> {
    Sort(Map(Filter(entries, Changed), MappingRow), ByCodePoint)
  }

  function DecompositionRows(entries: seq<Decomposition>): seq<Row> {
    Sort(Map(entries, DecompositionRow), ByCodePoint)
  }

  class Generator {
    var pool: seq<nat>

    constructor ()
      ensures pool == []
    {
      pool := [];
    }

    method Store(rows: seq<Row>) returns (table: seq<nat>)
      modifies this
      ensures pool == old(pool) + PoolOf(rows) && table == TableOf(rows, |old(pool)|)
    {
      table := [];
      var i := 0;
      while i < |rows|
        invariant i <= |rows| && pool == old(pool) + PoolOf(rows[..i])
        invariant table == TableOf(rows[..i], |old(pool)|)
      {
        assert rows[..i + 1][..i] == rows[..i];
        var start := |pool|;
        pool := pool + rows[i].values;
        table := table + TableRow(rows[i], start);
        i := i + 1;
      }
      assert rows[..i] == rows;
    }

    method Mappings(entries: seq<Mapping>) returns (table: seq<nat>)
      modifies this
      ensures pool == old(pool) + PoolOf(MappingRows(entries))
      ensures table == TableOf(MappingRows(entries), |old(pool)|)
    {
      table := Store(MappingRows(entries));
    }

    method Decompositions(entries: seq<Decomposition>) returns (table: seq<nat>)
      modifies this
      ensures pool == old(pool) + PoolOf(DecompositionRows(entries))
      ensures table == TableOf(DecompositionRows(entries), |old(pool)|)
    {
      table := Store(DecompositionRows(entries));
    }
  }

  // ----------------------------------------------------------------------- row search

  function Count(table: seq<nat>, w: nat): nat
    requires w == 3 || w == 4
  {
    if w == 3 then |table| / 3 else |table| / 4
  }

  function Key(table: seq<nat>, w: nat, i: nat): nat
    requires w == 3 || w == 4
  {
    if Pos(w, i) < |table| then table[Pos(w, i)] else 0
  }

  ghost predicate Keyed(table: seq<nat>, w: nat) {
    && (w == 3 || w == 4) && |table| == Pos(w, Count(table, w))
    && forall i, j :: 0 <= i < j < Count(table, w) ==> Key(table, w, i) < Key(table, w, j)
  }

  /** The place of the row of a code point, or -1 if it has none. */
  ghost predicate IsRow(table: seq<nat>, w: nat, cp: nat, row: int)
    requires w == 3 || w == 4
  {
    || (row == -1 && forall i :: 0 <= i < Count(table, w) ==> Key(table, w, i) != cp)
    || exists i :: 0 <= i < Count(table, w) && row == Pos(w, i) && Key(table, w, i) == cp
  }

  method FindRow(table: seq<nat>, w: nat, cp: nat) returns (row: int)
    requires Keyed(table, w)
    ensures IsRow(table, w, cp, row)
  {
    var low, high := 0, Count(table, w);
    while low < high
      invariant 0 <= low <= high <= Count(table, w)
      invariant forall i :: 0 <= i < low ==> Key(table, w, i) < cp
      invariant forall i :: high <= i < Count(table, w) ==> Key(table, w, i) >= cp
    {
      var middle := low + (high - low) / 2;
      if Key(table, w, middle) < cp { low := middle + 1; } else { high := middle; }
    }
    if Pos(w, low) < |table| && Key(table, w, low) == cp { row := Pos(w, low); } else { row := -1; }
  }

  // --------------------------------------------------------- tables mean what they hold

  ghost predicate DistinctKeys(rows: seq<Row>) {
    forall i, j :: 0 <= i < j < |rows| ==> rows[i].cp != rows[j].cp
  }

  lemma {:induction false} SortedKeys(rows: seq<Row>, start: nat, w: nat)
    requires Stride(rows, w) && DistinctKeys(rows) && SortedBy(rows, ByCodePoint)
    ensures Count(TableOf(rows, start), w) == |rows| && Keyed(TableOf(rows, start), w)
    ensures forall i :: 0 <= i < |rows| ==> Key(TableOf(rows, start), w, i) == rows[i].cp
  {
    var table := TableOf(rows, start);
    TableLength(rows, start, w);
    forall i | 0 <= i < |rows| ensures Key(table, w, i) == rows[i].cp {
      TableAt(rows, start, w, i, 0);
    }
    forall i, j | 0 <= i < j < |rows| ensures Key(table, w, i) < Key(table, w, j) {
      assert ByCodePoint(rows[i], rows[j]);
    }
  }

  /** What is read at a row: the pool slice it points to. */
  function SliceAt(table: seq<nat>, pool: seq<nat>, row: int): seq<nat> {
    if 0 <= row && row + 2 < |table| && table[row + 1] + table[row + 2] <= |pool|
    then pool[table[row + 1]..table[row + 1] + table[row + 2]] else []
  }

  /** A row that was found holds a stored row: its slice and its flag column. */
  ghost predicate Holds(table: seq<nat>, w: nat, pool: seq<nat>, row: int, r: Row) {
    && 0 <= row && row + w <= |table|
    && SliceAt(table, pool, row) == r.values
    && (w == 4 ==> r.flags == [table[row + 3]])
  }

  lemma {:induction false} Columns(rows: seq<Row>, w: nat, start: nat, k: nat)
    requires Stride(rows, w) && k < |rows|
    ensures var table, p := TableOf(rows, start), Pos(w, k);
      && p + w <= |table|
      && table[p + 1] == StartAfter(rows[..k], start) && table[p + 2] == |rows[k].values|
      && (w == 4 ==> rows[k].flags == [table[p + 3]])
  {
    TableAt(rows, start, w, k, 1);
    TableAt(rows, start, w, k, 2);
    assert rows[k] in rows;
    if w == 4 { TableAt(rows, start, w, k, 3); }
  }

  lemma {:induction false} RowHolds(rows: seq<Row>, w: nat, pool: seq<nat>, more: seq<nat>, k: nat)
    requires Stride(rows, w) && k < |rows| && pool + PoolOf(rows) <= more
    ensures Holds(TableOf(rows, |pool|), w, more, Pos(w, k), rows[k])
  {
    PoolSlice(pool, rows, more, k);
    Columns(rows, w, |pool|, k);
  }

  /** A search in the table finds what was stored for a code point, or that nothing was. */
  lemma {:induction false} RowRead(rows: seq<Row>, w: nat, pool: seq<nat>, more: seq<nat>, cp: nat, row: int)
    requires Stride(rows, w) && DistinctKeys(rows) && SortedBy(rows, ByCodePoint)
    requires pool + PoolOf(rows) <= more && IsRow(TableOf(rows, |pool|), w, cp, row)
    ensures row < 0 ==> forall r :: r in rows ==> r.cp != cp
    ensures row >= 0 ==> exists r :: r in rows && r.cp == cp && Holds(TableOf(rows, |pool|), w, more, row, r)
  {
    var table := TableOf(rows, |pool|);
    SortedKeys(rows, |pool|, w);
    if row < 0 {
      forall r | r in rows ensures r.cp != cp {
        var i :| 0 <= i < |rows| && rows[i] == r;
        assert Key(table, w, i) == r.cp;
      }
    } else {
      var i :| 0 <= i < |rows| && row == Pos(w, i) && Key(table, w, i) == cp;
      RowHolds(rows, w, pool, more, i);
      assert rows[i] in rows && rows[i].cp == cp;
    }
  }

  ghost predicate DistinctEntries(rows: seq<Row>) {
    Distinct(rows) && forall a, b :: a in rows && b in rows && a.cp == b.cp ==> a == b
  }

  /** Rows of different code points, once sorted, make a table that can be searched. */
  lemma {:induction false} SortedReady(rows: seq<Row>, w: nat)
    requires DistinctEntries(rows) && Stride(rows, w)
    ensures var sorted := Sort(rows, ByCodePoint);
      && Stride(sorted, w) && DistinctKeys(sorted) && SortedBy(sorted, ByCodePoint)
      && forall r :: r in sorted <==> r in rows
  {
    SortSorted(rows, ByCodePoint);
    SortDistinct(rows, ByCodePoint);
  }

  // ------------------------------------------------------------------- case mappings

  ghost predicate DistinctMappings(entries: seq<Mapping>) {
    forall i, j :: 0 <= i < j < |entries| ==> entries[i].cp != entries[j].cp
  }

  /** What a map says of a code point; one it does not mention stands for itself. */
  function MapsTo(entries: seq<Mapping>, cp: nat): seq<nat> {
    if entries == [] then [cp]
    else if entries[0].cp == cp then entries[0].values
    else MapsTo(entries[1..], cp)
  }

  lemma {:induction false} MapsToEntry(entries: seq<Mapping>, cp: nat)
    ensures DistinctMappings(entries) ==>
      forall m :: m in entries && m.cp == cp ==> MapsTo(entries, cp) == m.values
    ensures (forall m :: m in entries ==> m.cp != cp) ==> MapsTo(entries, cp) == [cp]
  {
    if entries != [] {
      assert entries == [entries[0]] + entries[1..];
      MapsToEntry(entries[1..], cp);
    }
  }

  lemma {:induction false} MappingRowsAre(entries: seq<Mapping>)
    requires DistinctMappings(entries)
    ensures var rows := Map(Filter(entries, Changed), MappingRow);
      && DistinctEntries(rows) && Stride(rows, 3)
      && (forall r :: r in rows ==> exists m :: m in entries && Changed(m) && r == MappingRow(m))
      && (forall m :: m in entries && Changed(m) ==> MappingRow(m) in rows)
  {
    var kept := Filter(entries, Changed);
    var rows := Map(kept, MappingRow);
    FilterDistinct(entries, Changed);
    forall r | r in rows ensures exists m :: m in entries && Changed(m) && r == MappingRow(m) {
      var m := MapMember(kept, MappingRow, r);
      FilterMember(entries, Changed, m);
    }
    forall m | m in entries && Changed(m) ensures MappingRow(m) in rows {
      FilterMember(entries, Changed, m);
      var i :| 0 <= i < |kept| && kept[i] == m;
      assert rows[i] == MappingRow(m);
    }
  }

  /** Looking a code point up in a case table and taking its slice of the pool gives what
      the map says, and the code point itself where no row was stored. */
  lemma {:induction false} MappingsRead(entries: seq<Mapping>, pool: seq<nat>, more: seq<nat>, cp: nat, row: int)
    requires DistinctMappings(entries) && pool + PoolOf(MappingRows(entries)) <= more
    requires IsRow(TableOf(MappingRows(entries), |pool|), 3, cp, row)
    ensures MapsTo(entries, cp)
         == if row < 0 then [cp] else SliceAt(TableOf(MappingRows(entries), |pool|), more, row)
  {
    var rows := Map(Filter(entries, Changed), MappingRow);
    MappingRowsAre(entries);
    SortedReady(rows, 3);
    RowRead(MappingRows(entries), 3, pool, more, cp, row);
    MapsToEntry(entries, cp);
    if row < 0 {
      forall m | m in entries && Changed(m) ensures m.cp != cp { assert MappingRow(m) in rows; }
    } else {
      var r :| r in MappingRows(entries) && r.cp == cp
        && Holds(TableOf(MappingRows(entries), |pool|), 3, more, row, r);
      assert r in rows;
    }
  }

  // ------------------------------------------------------------------ decompositions

  ghost predicate DistinctDecompositions(entries: seq<Decomposition>) {
    forall i, j :: 0 <= i < j < |entries| ==> entries[i].cp != entries[j].cp
  }

  function DecompositionOf(entries: seq<Decomposition>, cp: nat): Option<Decomposition> {
    if entries == [] then None
    else if entries[0].cp == cp then Some(entries[0])
    else DecompositionOf(entries[1..], cp)
  }

  lemma {:induction false} DecompositionEntry(entries: seq<Decomposition>, cp: nat)
    ensures DecompositionOf(entries, cp).None? <==> forall d :: d in entries ==> d.cp != cp
    ensures DecompositionOf(entries, cp).Some? ==>
      DecompositionOf(entries, cp).value in entries && DecompositionOf(entries, cp).value.cp == cp
    ensures DistinctDecompositions(entries) ==>
      forall d :: d in entries && d.cp == cp ==> DecompositionOf(entries, cp) == Some(d)
  {
    if entries != [] {
      assert entries == [entries[0]] + entries[1..];
      DecompositionEntry(entries[1..], cp);
    }
  }

  /** The entry a row of the decomposition table stands for. */
  function EntryAt(table: seq<nat>, pool: seq<nat>, cp: nat, row: int): Option<Decomposition> {
    if 0 <= row && row + 3 < |table|
    then Some(Decomposition(cp, SliceAt(table, pool, row), table[row + 3] != 0)) else None
  }

  lemma {:induction false} EntryHeld(table: seq<nat>, pool: seq<nat>, row: int, d: Decomposition)
    requires Holds(table, 4, pool, row, DecompositionRow(d))
    ensures EntryAt(table, pool, d.cp, row) == Some(d)
  {
    assert DecompositionRow(d).flags[0] == table[row + 3];
  }

  /** Looking a code point up in the decomposition table gives its entry: the slice of the
      pool is its values and the last column its compatibility flag. */
  lemma {:induction false} DecompositionsRead(entries: seq<Decomposition>, table: seq<nat>, pool: seq<nat>,
                                              more: seq<nat>, cp: nat, row: int)
    requires DistinctDecompositions(entries) && pool + PoolOf(DecompositionRows(entries)) <= more
    requires table == TableOf(DecompositionRows(entries), |pool|) && IsRow(table, 4, cp, row)
    ensures EntryAt(table, more, cp, row) == DecompositionOf(entries, cp)
  {
    var rows := Map(entries, DecompositionRow);
    DecompositionRowsAre(entries);
    SortedReady(rows, 4);
    RowRead(DecompositionRows(entries), 4, pool, more, cp, row);
    DecompositionEntry(entries, cp);
    if row < 0 {
      forall d | d in entries ensures d.cp != cp { assert DecompositionRow(d) in rows; }
    } else {
      var r :| r in DecompositionRows(entries) && r.cp == cp && Holds(table, 4, more, row, r);
      var d := MapMember(entries, DecompositionRow, r);
      EntryHeld(table, more, row, d);
    }
  }

  lemma {:induction false} DecompositionRowsAre(entries: seq<Decomposition>)
    requires DistinctDecompositions(entries)
    ensures var rows := Map(entries, DecompositionRow);
      && DistinctEntries(rows) && Stride(rows, 4)
      && (forall d :: d in entries ==> DecompositionRow(d) in rows)
  {
    var rows := Map(entries, DecompositionRow);
    forall d | d in entries ensures DecompositionRow(d) in rows {
      var i :| 0 <= i < |entries| && entries[i] == d;
      assert rows[i] == DecompositionRow(d);
    }
  }
}
