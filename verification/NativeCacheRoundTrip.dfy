/** Export, import into an empty cache: what is restored. */
module NativeCacheRoundTrip {
  import opened Sorting
  import opened NativeCache
  import opened NativeCacheExport
  import opened NativeCacheImport

  ghost predicate ManifestsDistinct(entries: seq<Entry>) {
    forall i, j :: 0 <= i < j < |entries| ==> entries[i].manifest != entries[j].manifest
  }

  function RestoredAction(e: Entry): ActionFile { ActionFile(e.stage, Outputs(e.outputs), Truncate(e.mtime)) }

  lemma {:induction false} TruncateTwice(t: real)
    ensures Truncate(Truncate(t)) == Truncate(t)
  { }

  // ------------------------------------------------ the exported snapshot

  ghost predicate BlobsFrom(blobs: map<string, Bytes>, root: Cache) {
    forall d :: d in blobs ==> d in root.blobs && blobs[d] == root.blobs[d]
  }

  lemma {:induction false} PutBlobsFacts(blobs: map<string, Bytes>, root: Cache, outputs: seq<Output>)
    requires BlobsFrom(blobs, root)
    ensures BlobsFrom(PutBlobs(blobs, root, outputs), root)
    ensures forall d :: d in blobs ==> d in PutBlobs(blobs, root, outputs)
    ensures forall o :: o in outputs && o.digest in root.blobs ==> o.digest in PutBlobs(blobs, root, outputs)
  {
    if outputs != [] {
      PutBlobsFacts(blobs, root, outputs[..|outputs| - 1]);
      assert outputs == outputs[..|outputs| - 1] + [outputs[|outputs| - 1]];
    }
  }

  lemma {:induction false} PutEntriesBlobs(s: Snapshot, root: Cache, entries: seq<Entry>)
    requires BlobsFrom(s.blobs, root)
    ensures BlobsFrom(PutEntries(s, root, entries).blobs, root)
    ensures forall d :: d in s.blobs ==> d in PutEntries(s, root, entries).blobs
    ensures forall e, o :: e in entries && o in e.outputs && o.digest in root.blobs ==>
              o.digest in PutEntries(s, root, entries).blobs
  {
    if entries != [] {
      var before, e := entries[..|entries| - 1], entries[|entries| - 1];
      PutEntriesBlobs(s, root, before);
      PutBlobsFacts(PutEntries(s, root, before).blobs, root, e.outputs);
      assert entries == before + [e];
    }
  }

  lemma {:induction false} PutEntriesFrame(s: Snapshot, root: Cache, entries: seq<Entry>)
    ensures var r := PutEntries(s, root, entries);
      r.bakes == s.bakes && r.bakeFiles == s.bakeFiles && r.thinFiles == s.thinFiles && r.thinLto == s.thinLto
  {
    if entries != [] { PutEntriesFrame(s, root, entries[..|entries| - 1]); }
  }

  /** Every manifest ends as the one entry that names it, or as it was. */
  lemma {:induction false} PutEntriesActions(s: Snapshot, root: Cache, entries: seq<Entry>, m: string)
    requires ManifestsDistinct(entries)
    ensures var r := PutEntries(s, root, entries);
      && (forall e :: e in entries && e.manifest == m ==> m in r.actions && r.actions[m] == RestoredAction(e))
      && (NotNamed(entries, m) ==> (m in r.actions <==> m in s.actions))
      && (NotNamed(entries, m) && m in s.actions ==> r.actions[m] == s.actions[m])
  {
    if entries != [] {
      var before, e := entries[..|entries| - 1], entries[|entries| - 1];
      assert entries == before + [e];
      PutEntriesActions(s, root, before, m);
    }
  }

  ghost predicate NotNamed(entries: seq<Entry>, m: string) {
    forall e :: e in entries ==> e.manifest != m
  }

  ghost predicate DirectoriesDistinct(bakes: seq<BakeSource>) {
    forall i, j :: 0 <= i < j < |bakes| ==> bakes[i].directory != bakes[j].directory
  }

  ghost predicate FilesDistinct(thin: seq<ThinSource>) {
    forall i, j :: 0 <= i < j < |thin| ==> thin[i].file != thin[j].file
  }

  lemma {:induction false} PutBakesRows(s: Snapshot, sha: Bytes -> string, root: Cache, bakes: seq<BakeSource>)
    ensures var r := PutBakes(s, sha, root, bakes);
      && r.actions == s.actions && r.blobs == s.blobs && r.thinFiles == s.thinFiles && r.thinLto == s.thinLto
      && r.bakes == s.bakes + Map(bakes, BakeOf(sha, root))
  {
    if bakes != [] {
      var before, b := bakes[..|bakes| - 1], bakes[|bakes| - 1];
      PutBakesRows(s, sha, root, before);
      assert Map(bakes, BakeOf(sha, root)) == Map(before, BakeOf(sha, root)) + [BakeOf(sha, root)(b)];
    }
  }

  lemma {:induction false} PutBakesFiles(s: Snapshot, sha: Bytes -> string, root: Cache, bakes: seq<BakeSource>,
                                         b: BakeSource)
    requires DirectoriesDistinct(bakes) && b in bakes
    ensures var r := PutBakes(s, sha, root, bakes);
      b.directory in r.bakeFiles && r.bakeFiles[b.directory] == CopyFiles(BakeFilesIn(root, b.directory), b.names)
  {
    var before, last := bakes[..|bakes| - 1], bakes[|bakes| - 1];
    if b != last {
      assert bakes == before + [last];
      PutBakesFiles(s, sha, root, before, b);
    }
  }

  lemma {:induction false} PutThinsFacts(s: Snapshot, sha: Bytes -> string, root: Cache, thin: seq<ThinSource>)
    requires forall t :: t in thin ==> t.file in root.thinLto
    ensures var r := PutThins(s, sha, root, thin);
      && r.actions == s.actions && r.blobs == s.blobs && r.bakes == s.bakes && r.bakeFiles == s.bakeFiles
      && r.thinLto == s.thinLto + Map(thin, ThinOf(sha, root))
      && (forall t :: t in thin ==> t.file in r.thinFiles && r.thinFiles[t.file] == root.thinLto[t.file].content)
  {
    if thin != [] {
      var before, t := thin[..|thin| - 1], thin[|thin| - 1];
      PutThinsFacts(s, sha, root, before);
      assert thin == before + [t];
      assert Map(thin, ThinOf(sha, root)) == Map(before, ThinOf(sha, root)) + [ThinOf(sha, root)(t)];
    }
  }

  /** A plan names each thing once and takes it from the cache. */
  ghost predicate PlanOf(root: Cache, plan: Plan) {
    && ManifestsDistinct(plan.Entries())
    && (forall e :: e in plan.Entries() ==> Complete(root.blobs, e))
    && DirectoriesDistinct(plan.bakes)
    && (forall t :: t in plan.thin ==> t.file in root.thinLto)
    && FilesDistinct(plan.thin)
  }

  lemma {:induction false} SnapshotActions(sha: Bytes -> string, root: Cache, plan: Plan, m: string)
    requires PlanOf(root, plan)
    ensures var s := SnapshotOf(sha, root, plan);
      && (forall e :: e in plan.Entries() && e.manifest == m ==> m in s.actions && s.actions[m] == RestoredAction(e))
      && (NotNamed(plan.Entries(), m) ==> m !in s.actions)
  {
    var s1 := PutBakes(EMPTY_SNAPSHOT, sha, root, plan.bakes);
    var s2 := PutEntries(s1, root, plan.used);
    var s3 := PutThins(s2, sha, root, plan.thin);
    var all := plan.Entries();
    assert all[..|plan.used|] == plan.used && all[|plan.used|..] == plan.older;
    PutBakesRows(EMPTY_SNAPSHOT, sha, root, plan.bakes);
    PutEntriesActions(s1, root, plan.used, m);
    PutThinsFacts(s2, sha, root, plan.thin);
    PutEntriesActions(s3, root, plan.older, m);
    forall e | e in plan.used && e.manifest == m ensures NotNamed(plan.older, m) {
      var i :| 0 <= i < |plan.used| && plan.used[i] == e;
      forall j | 0 <= j < |plan.older| ensures plan.older[j].manifest != m {
        assert all[i] == e && all[|plan.used| + j] == plan.older[j];
      }
    }
  }

  lemma {:induction false} SnapshotRows(sha: Bytes -> string, root: Cache, plan: Plan)
    requires PlanOf(root, plan)
    ensures var s := SnapshotOf(sha, root, plan);
      && s.bakes == Map(plan.bakes, BakeOf(sha, root))
      && (forall b :: b in plan.bakes ==>
          && b.directory in s.bakeFiles
          && s.bakeFiles[b.directory] == CopyFiles(BakeFilesIn(root, b.directory), b.names))
      && s.thinLto == Map(plan.thin, ThinOf(sha, root))
      && (forall t :: t in plan.thin ==> t.file in s.thinFiles && s.thinFiles[t.file] == root.thinLto[t.file].content)
  {
    var s1 := PutBakes(EMPTY_SNAPSHOT, sha, root, plan.bakes);
    var s2 := PutEntries(s1, root, plan.used);
    var s3 := PutThins(s2, sha, root, plan.thin);
    PutBakesRows(EMPTY_SNAPSHOT, sha, root, plan.bakes);
    PutEntriesFrame(s1, root, plan.used);
    PutThinsFacts(s2, sha, root, plan.thin);
    PutEntriesFrame(s3, root, plan.older);
    forall b | b in plan.bakes
      ensures b.directory in s1.bakeFiles
      ensures s1.bakeFiles[b.directory] == CopyFiles(BakeFilesIn(root, b.directory), b.names)
    {
      PutBakesFiles(EMPTY_SNAPSHOT, sha, root, plan.bakes, b);
    }
  }

  lemma {:induction false} SnapshotBlobs(sha: Bytes -> string, root: Cache, plan: Plan)
    requires PlanOf(root, plan)
    ensures var s := SnapshotOf(sha, root, plan);
      && BlobsFrom(s.blobs, root)
      && (forall e :: e in plan.Entries() ==> Complete(s.blobs, e))
  {
    var s1 := PutBakes(EMPTY_SNAPSHOT, sha, root, plan.bakes);
    var s2 := PutEntries(s1, root, plan.used);
    var s3 := PutThins(s2, sha, root, plan.thin);
    PutBakesRows(EMPTY_SNAPSHOT, sha, root, plan.bakes);
    PutEntriesBlobs(s1, root, plan.used);
    PutThinsFacts(s2, sha, root, plan.thin);
    PutEntriesBlobs(s3, root, plan.older);
  }

  // ------------------------------------------------------- the restored cache

  function EntryTaken(sha: Bytes -> string, s: Snapshot): Entry -> bool {
    (e: Entry) => AllValid(sha, s.blobs, e.outputs)
  }

  function ThinTaken(sha: Bytes -> string, s: Snapshot): ThinEntry -> bool {
    (t: ThinEntry) => ThinRowOk(t) && ValidBlob(sha, s.thinFiles, t.file, t.digest, t.size)
  }

  function BakeTaken(sha: Bytes -> string, s: Snapshot): Bake -> bool {
    (b: Bake) => BakeRowOk(b) && BakeValid(sha, s, b)
  }

  lemma {:induction false} FilterLast<T>(s: seq<T>, keep: T -> bool)
    requires s != []
    ensures var before, x := s[..|s| - 1], s[|s| - 1];
      Filter(s, keep) == Filter(before, keep) + if keep(x) then [x] else []
  {
    var before, x := s[..|s| - 1], s[|s| - 1];
    assert s == before + [x];
    FilterAppend(before, [x], keep);
  }

  /** An import passes over whatever does not verify. */
  lemma {:induction false} SkipsEntries(sha: Bytes -> string, s: Snapshot, c: Cache, entries: seq<Entry>)
    ensures ImportEntries(sha, s, c, entries) == ImportEntries(sha, s, c, Filter(entries, EntryTaken(sha, s)))
  {
    if entries != [] {
      SkipsEntries(sha, s, c, entries[..|entries| - 1]);
      FilterLast(entries, EntryTaken(sha, s));
      var kept, e := Filter(entries[..|entries| - 1], EntryTaken(sha, s)), entries[|entries| - 1];
      if EntryTaken(sha, s)(e) { assert (kept + [e])[..|kept|] == kept; } else { assert kept + [] == kept; }
    }
  }

  lemma {:induction false} SkipsThin(sha: Bytes -> string, s: Snapshot, c: Cache, thin: seq<ThinEntry>)
    ensures ImportThins(sha, s, c, thin) == ImportThins(sha, s, c, Filter(thin, ThinTaken(sha, s)))
  {
    if thin != [] {
      SkipsThin(sha, s, c, thin[..|thin| - 1]);
      FilterLast(thin, ThinTaken(sha, s));
      var kept, t := Filter(thin[..|thin| - 1], ThinTaken(sha, s)), thin[|thin| - 1];
      if ThinTaken(sha, s)(t) { assert (kept + [t])[..|kept|] == kept; } else { assert kept + [] == kept; }
    }
  }

  lemma {:induction false} SkipsBakes(sha: Bytes -> string, s: Snapshot, c: Cache, bakes: seq<Bake>)
    ensures ImportBakes(sha, s, c, bakes) == ImportBakes(sha, s, c, Filter(bakes, BakeTaken(sha, s)))
  {
    if bakes != [] {
      SkipsBakes(sha, s, c, bakes[..|bakes| - 1]);
      FilterLast(bakes, BakeTaken(sha, s));
      var kept, b := Filter(bakes[..|bakes| - 1], BakeTaken(sha, s)), bakes[|bakes| - 1];
      if BakeTaken(sha, s)(b) { assert (kept + [b])[..|kept|] == kept; } else { assert kept + [] == kept; }
    }
  }

  lemma {:induction false} FetchBlobsFacts(sha: Bytes -> string, s: Snapshot, root: Cache, blobs: map<string, Bytes>,
                                           outputs: seq<Output>)
    requires BlobsFrom(blobs, root) && BlobsFrom(s.blobs, root) && AllValid(sha, s.blobs, outputs)
    ensures var r := FetchBlobs(sha, s, blobs, outputs);
      && BlobsFrom(r, root)
      && (forall d :: d in blobs ==> d in r)
      && (forall o :: o in outputs ==> o.digest in r)
  {
    if outputs != [] {
      var before, o := outputs[..|outputs| - 1], outputs[|outputs| - 1];
      assert outputs == before + [o];
      assert o in outputs;
      FetchBlobsFacts(sha, s, root, blobs, before);
    }
  }

  lemma {:induction false} ImportEntriesBlobs(sha: Bytes -> string, s: Snapshot, root: Cache, c: Cache,
                                              entries: seq<Entry>)
    requires BlobsFrom(c.blobs, root) && BlobsFrom(s.blobs, root)
    requires forall e :: e in entries ==> AllValid(sha, s.blobs, e.outputs)
    ensures var r := ImportEntries(sha, s, c, entries);
      && BlobsFrom(r.blobs, root) && r.bakes == c.bakes && r.thinLto == c.thinLto
      && (forall d :: d in c.blobs ==> d in r.blobs)
      && (forall e, o :: e in entries && o in e.outputs ==> o.digest in r.blobs)
  {
    if entries != [] {
      var before, e := entries[..|entries| - 1], entries[|entries| - 1];
      assert entries == before + [e];
      assert e in entries;
      ImportEntriesBlobs(sha, s, root, c, before);
      FetchBlobsFacts(sha, s, root, ImportEntries(sha, s, c, before).blobs, e.outputs);
    }
  }

  ghost predicate IsOutput(outputs: seq<Output>, d: string) { exists o :: o in outputs && o.digest == d }

  /** Some of these actions has the blob as an output. */
  ghost predicate AnOutput(entries: seq<Entry>, d: string) { exists e :: e in entries && IsOutput(e.outputs, d) }

  lemma {:induction false} FetchesOutputs(sha: Bytes -> string, s: Snapshot, blobs: map<string, Bytes>,
                                          outputs: seq<Output>, d: string)
    requires d in FetchBlobs(sha, s, blobs, outputs) && d !in blobs
    ensures IsOutput(outputs, d)
  {
    var before, o := outputs[..|outputs| - 1], outputs[|outputs| - 1];
    assert outputs == before + [o];
    if d in FetchBlobs(sha, s, blobs, before) {
      FetchesOutputs(sha, s, blobs, before, d);
      var o' :| o' in before && o'.digest == d;
      assert o' in outputs;
    } else {
      assert o in outputs && o.digest == d;
    }
  }

  /** A blob that was not there came as an output of an imported action. */
  lemma {:induction false} ImportsOutputs(sha: Bytes -> string, s: Snapshot, c: Cache, entries: seq<Entry>, d: string)
    requires d in ImportEntries(sha, s, c, entries).blobs && d !in c.blobs
    ensures AnOutput(entries, d)
  {
    var before, e := entries[..|entries| - 1], entries[|entries| - 1];
    assert entries == before + [e];
    var c' := ImportEntries(sha, s, c, before);
    if d in c'.blobs {
      ImportsOutputs(sha, s, c, before, d);
      var e' :| e' in before && IsOutput(e'.outputs, d);
      assert e' in entries;
    } else {
      FetchesOutputs(sha, s, c'.blobs, e.outputs, d);
      assert e in entries;
    }
  }

  lemma {:induction false} ImportEntriesActions(sha: Bytes -> string, s: Snapshot, c: Cache, entries: seq<Entry>,
                                                m: string)
    requires ManifestsDistinct(entries)
    requires forall e :: e in entries ==> AllValid(sha, s.blobs, e.outputs)
    ensures var r := ImportEntries(sha, s, c, entries);
      && (forall e :: e in entries && e.manifest == m ==> m in r.actions && r.actions[m] == RestoredAction(e))
      && (NotNamed(entries, m) ==> (m in r.actions <==> m in c.actions))
      && (NotNamed(entries, m) && m in c.actions ==> r.actions[m] == c.actions[m])
  {
    if entries != [] {
      var before, e := entries[..|entries| - 1], entries[|entries| - 1];
      assert entries == before + [e];
      assert e in entries;
      ImportEntriesActions(sha, s, c, before, m);
      assert ImportEntries(sha, s, c, entries) == ImportEntry(sha, s, ImportEntries(sha, s, c, before), e);
      assert e.manifest == m ==> NotNamed(before, m);
    }
  }

  lemma {:induction false} CopyNamedFacts(source: map<string, Bytes>, files: map<string, Bytes>, rows: seq<BakeFile>,
                                          n: string)
    requires forall f :: f in rows ==> f.name in source
    ensures var r := CopyNamed(source, files, rows);
      && (n in r <==> n in files || exists f :: f in rows && f.name == n)
      && ((exists f :: f in rows && f.name == n) ==> r[n] == source[n])
  {
    if rows != [] {
      var before, f := rows[..|rows| - 1], rows[|rows| - 1];
      assert rows == before + [f];
      CopyNamedFacts(source, files, before, n);
      assert f in rows;
      if g :| g in rows && g.name == n { assert g in before || g == f; }
      if g :| g in before && g.name == n { assert g in rows; }
    }
  }

  ghost predicate RowsDistinct(bakes: seq<Bake>) {
    forall i, j :: 0 <= i < j < |bakes| ==> bakes[i].directory != bakes[j].directory
  }

  ghost predicate NoRow(bakes: seq<Bake>, d: string) { forall b :: b in bakes ==> b.directory != d }

  function RestoredBake(s: Snapshot, b: Bake): BakeDir {
    BakeDir(CopyNamed(SnapshotBakeFiles(s, b.directory), map[], RecordLast(b.files)), Truncate(b.mtime))
  }

  lemma {:induction false} ImportBakesFrame(sha: Bytes -> string, s: Snapshot, c: Cache, bakes: seq<Bake>)
    ensures var r := ImportBakes(sha, s, c, bakes);
      r.actions == c.actions && r.blobs == c.blobs && r.thinLto == c.thinLto
  {
    if bakes != [] { ImportBakesFrame(sha, s, c, bakes[..|bakes| - 1]); }
  }

  /** Into a cache without these directories, each valid row restores its own. */
  lemma {:induction false} ImportBakesFacts(sha: Bytes -> string, s: Snapshot, c: Cache, bakes: seq<Bake>, d: string)
    requires RowsDistinct(bakes) && forall b :: b in bakes ==> b.directory !in c.bakes
    requires forall b :: b in bakes ==> BakeRowOk(b) && BakeValid(sha, s, b)
    ensures var r := ImportBakes(sha, s, c, bakes);
      && (NoRow(bakes, d) ==> (d in r.bakes <==> d in c.bakes))
      && (NoRow(bakes, d) && d in c.bakes ==> r.bakes[d] == c.bakes[d])
      && (forall b :: b in bakes && b.directory == d ==> d in r.bakes && r.bakes[d] == RestoredBake(s, b))
  {
    if bakes != [] {
      var before, b := bakes[..|bakes| - 1], bakes[|bakes| - 1];
      assert bakes == before + [b];
      assert b in bakes;
      ImportBakesFacts(sha, s, c, before, d);
      var c' := ImportBakes(sha, s, c, before);
      assert ImportBakes(sha, s, c, bakes) == ImportBake(sha, s, c', b);
      if b.directory == d {
        assert NoRow(before, d);
        assert BakeFilesIn(c', d) == map[];
      }
    }
  }

  ghost predicate ThinRowsDistinct(thin: seq<ThinEntry>) {
    forall i, j :: 0 <= i < j < |thin| ==> thin[i].file != thin[j].file
  }

  ghost predicate NoThinRow(thin: seq<ThinEntry>, f: string) { forall t :: t in thin ==> t.file != f }

  lemma {:induction false} ImportThinsFacts(sha: Bytes -> string, s: Snapshot, c: Cache, thin: seq<ThinEntry>,
                                            f: string)
    requires ThinRowsDistinct(thin)
    requires forall t :: t in thin ==> ThinRowOk(t) && ValidBlob(sha, s.thinFiles, t.file, t.digest, t.size)
    ensures var r := ImportThins(sha, s, c, thin);
      && r.actions == c.actions && r.blobs == c.blobs && r.bakes == c.bakes
      && (NoThinRow(thin, f) ==> (f in r.thinLto <==> f in c.thinLto))
      && (NoThinRow(thin, f) && f in c.thinLto ==> r.thinLto[f] == c.thinLto[f])
      && (forall t :: t in thin && t.file == f ==>
          f in s.thinFiles && f in r.thinLto && r.thinLto[f] == ThinFile(s.thinFiles[f], Truncate(t.mtime)))
  {
    if thin != [] {
      var before, t := thin[..|thin| - 1], thin[|thin| - 1];
      assert thin == before + [t];
      assert t in thin;
      ImportThinsFacts(sha, s, c, before, f);
    }
  }
}
