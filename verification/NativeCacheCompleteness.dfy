/** When a bake reads as complete while an import is under way. */
module NativeCacheCompleteness {
  import opened NativeCache
  import opened NativeCacheImport
  import opened Sorting

  /** After every operation a bake reads as complete exactly when it had a record before
      the import or one of the rows the import accepts is in place. */
  lemma {:induction false} CompleteExactly(job: Job, c: Cache, d: string)
    requires Safe(job, c)
    ensures CompleteBake(c.bakes)(d) <==>
      IsDigest(d) && (CompleteBake(job.start.bakes)(d) || SomeRowInPlace(job, d, FilesOf(c.bakes, d)))
  {
    if SomeRowInPlace(job, d, FilesOf(c.bakes, d)) {
      var b :| b in job.s.bakes && b.directory == d && BakeRowOk(b) && InPlace(job, FilesOf(c.bakes, d), b);
      var f :| f in b.files && f.name == BAKE_RECORD;
    }
    if d in c.bakes { assert SafeBake(job, d, c.bakes[d].files); }
    if d in job.start.bakes { assert d in c.bakes; }
  }

  /** So while none of the accepted rows is in place, only an earlier record makes a bake
      read as complete. */
  lemma {:induction false} PartlyCopiedReadsComplete(job: Job, c: Cache, d: string)
    requires Safe(job, c) && IsDigest(d) && !SomeRowInPlace(job, d, FilesOf(c.bakes, d))
    ensures CompleteBake(c.bakes)(d) <==> BAKE_RECORD in FilesOf(job.start.bakes, d)
  {
    CompleteExactly(job, c, d);
  }

  // A bake of two files in the cache, and a later version of both in the snapshot.

  function OldBake(d: string): Cache {
    EMPTY_CACHE.(bakes := map[d := BakeDir(map["code" := [0], BAKE_RECORD := [0]], 1000.0)])
  }

  function NewRow(sha: Bytes -> string, d: string): Bake {
    Bake(d, 2000.0, [BakeFile("code", sha([1]), 1), BakeFile(BAKE_RECORD, sha([1]), 1)])
  }

  function NewBake(sha: Bytes -> string, d: string): Snapshot {
    EMPTY_SNAPSHOT.(bakes := [NewRow(sha, d)], bakeFiles := map[d := map["code" := [1], BAKE_RECORD := [1]]])
  }

  function Renewal(sha: Bytes -> string, tags: nat -> string, d: string): Job {
    Job(sha, NewBake(sha, d), tags, OldBake(d))
  }

  lemma {:induction false} NoDotInCode(tag: string)
    ensures !EndsIn("code", tag)
  {
    if |tag| < 4 {
      var dot := 3 - |tag|;
      assert "code"[dot..][0] == "code"[dot] != '.';
      assert ("." + tag)[0] == '.';
    }
  }

  lemma {:induction false} RenewalFresh(sha: Bytes -> string, tags: nat -> string, d: string)
    requires forall k :: IsTag(tags(k))
    ensures Fresh(Renewal(sha, tags, d))
  {
    forall k ensures !EndsIn("code", tags(k)) && !EndsIn(BAKE_RECORD, tags(k)) {
      if EndsIn(BAKE_RECORD, tags(k)) { NotTaken(BAKE_RECORD, tags(k)); }
      NoDotInCode(tags(k));
    }
  }

  lemma {:induction false} NewRowValid(sha: Bytes -> string, d: string)
    requires IsDigest(d) && IsDigest(sha([1]))
    ensures BakeRowOk(NewRow(sha, d)) && BakeValid(sha, NewBake(sha, d), NewRow(sha, d))
  {
    var row := NewRow(sha, d);
    assert row.files[1] in row.files && row.files[1].name == BAKE_RECORD;
    assert IsBakeFileName("code") && IsBakeFileName(BAKE_RECORD);
  }

  lemma {:induction false} CodeFirst(sha: Bytes -> string, d: string)
    ensures |RecordLast(NewRow(sha, d).files)| == 2 && RecordLast(NewRow(sha, d).files)[0].name == "code"
  {
    var code, record := BakeFile("code", sha([1]), 1), BakeFile(BAKE_RECORD, sha([1]), 1);
    assert [code, record][1..] == [record] && [record][1..] == [];
    assert "code" != BAKE_RECORD && IsRecord(record) && NotRecord(code);
    FilterOne(record, IsRecord);
    FilterOne(record, NotRecord);
    assert Filter([code, record], NotRecord) == [code] + [];
  }

  lemma {:induction false} FilterOne(f: BakeFile, keep: BakeFile -> bool)
    ensures Filter([f], keep) == if keep(f) then [f] else []
  {
    assert [f][1..] == [];
    assert Filter([], keep) == [];
  }

  lemma {:induction false} FirstFileSafe(sha: Bytes -> string, tags: nat -> string, d: string, f: File)
    requires (forall k :: IsTag(tags(k))) && IsDigest(d) && IsDigest(sha([1]))
    requires f.InBake? && f.name == "code" && f.directory == d && f.content == [1]
    ensures var job := Renewal(sha, tags, d); AtRest(job, job.start) && AtRest(job, Put(job.start, f))
  {
    var job, row := Renewal(sha, tags, d), NewRow(sha, d);
    RenewalFresh(sha, tags, d);
    StartSafe(job);
    NewRowValid(sha, d);
    CopyingStarts(job, row, FilesOf(job.start.bakes, d));
    CodeFirst(sha, d);
    BakeWriteSafe(job, job.start, row, RecordLast(row.files), 0, f);
  }

  lemma {:induction false} NeitherOldNorNew(sha: Bytes -> string, tags: nat -> string, d: string)
    ensures !SomeRowInPlace(Renewal(sha, tags, d), d, map["code" := [1], BAKE_RECORD := [0]])
  {
    var job, row, files := Renewal(sha, tags, d), NewRow(sha, d), map["code" := [1], BAKE_RECORD := [0 as bv8]];
    assert row.files[1] in row.files;
    assert !InPlace(job, files, row);
  }

  lemma {:induction false} CodeRenewed(d: string, f: File)
    requires f.InBake? && f.name == "code" && f.directory == d && f.content == [1]
    ensures d in Put(OldBake(d), f).bakes
    ensures Put(OldBake(d), f).bakes[d].files == map["code" := [1], BAKE_RECORD := [0]]
  {
    var files := map["code" := [0 as bv8], BAKE_RECORD := [0 as bv8]];
    assert files["code" := [1]] == map["code" := [1], BAKE_RECORD := [0]];
  }

  /** A crash after the first file leaves the new code under the old record: the bake reads
      as complete, and it is neither the old bake nor the new one. */
  lemma {:induction false} OldRecordOverNewCode(sha: Bytes -> string, tags: nat -> string, d: string, now: real)
    requires (forall k :: IsTag(tags(k))) && IsDigest(d) && IsDigest(sha([1]))
    ensures var job, f := Renewal(sha, tags, d), InBake("code", d, [1], now);
      var aside := Aside(f, tags(0));
      var written := Apply(job.start, WriteTemporary(aside));
      var c := Apply(written, Rename(aside, f));
      && Allowed(tags, job.start, WriteTemporary(aside)) && Allowed(tags, written, Rename(aside, f))
      && Safe(job, c) && CompleteBake(c.bakes)(d)
      && c.bakes[d].files == map["code" := [1], BAKE_RECORD := [0]]
      && !SomeRowInPlace(job, d, c.bakes[d].files)
  {
    var job, f := Renewal(sha, tags, d), InBake("code", d, [1], now);
    var aside := Aside(f, tags(0));
    RenewalFresh(sha, tags, d);
    FirstFileSafe(sha, tags, d, f);
    TemporaryEnds(tags, "code", 0);
    BesideSafe(job, job.start, aside, 0);
    RenamedAside(job, job.start, f, aside);
    NeitherOldNorNew(sha, tags, d);
    CodeRenewed(d, f);
  }
}
