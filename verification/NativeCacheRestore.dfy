/** What an import restores of an exported snapshot: everything exported that it accepts,
    into any cache that came from the same place. */
module NativeCacheRestore {
  import opened Sorting
  import opened NativeCache
  import opened NativeCacheBudget
  import opened NativeCacheExport
  import opened NativeCacheImport
  import opened NativeCacheRoundTrip

  // ------------------------------------------------------------ sequences

  lemma {:induction false} FilterMap<T, U>(s: seq<T>, f: T -> U, keep: T -> bool, keep': U -> bool)
    requires forall x :: x in s ==> keep'(f(x)) == keep(x)
    ensures Filter(Map(s, f), keep') == Map(Filter(s, keep), f)
  {
    if s != [] {
      assert Map(s, f)[0] == f(s[0]) && Map(s, f)[1..] == Map(s[1..], f);
      FilterMap(s[1..], f, keep, keep');
      assert s[0] in s;
      var kept := Filter(s[1..], keep);
      if keep(s[0]) { assert Map([s[0]] + kept, f) == [f(s[0])] + Map(kept, f); }
    }
  }

  ghost predicate KeysApart<T>(s: seq<T>, key: T -> string) {
    forall i, j :: 0 <= i < j < |s| ==> key(s[i]) != key(s[j])
  }

  lemma {:induction false} FilterKeysApart<T>(s: seq<T>, keep: T -> bool, key: T -> string)
    requires KeysApart(s, key)
    ensures KeysApart(Filter(s, keep), key)
  {
    if s != [] {
      var rest := Filter(s[1..], keep);
      FilterKeysApart(s[1..], keep, key);
      forall j | 0 <= j < |rest| ensures key(s[0]) != key(rest[j]) {
        assert rest[j] in rest;
        FilterMember(s[1..], keep, rest[j]);
        var k :| 0 <= k < |s[1..]| && s[1..][k] == rest[j];
        assert s[k + 1] == rest[j];
      }
      assert Filter(s, keep) == if keep(s[0]) then [s[0]] + rest else rest;
    }
  }

  /** `t` lists the images of `s`, each once, in any order. */
  ghost predicate Relists<T(!new)>(s: seq<T>, f: T -> T, t: seq<T>) {
    && Distinct(t) && Distinct(Map(s, f))
    && (forall x :: x in Map(s, f) <==> x in t)
  }

  // ---------------------------------------------------------- the first plan

  /** Bakes read are the complete directories of the cache, each once. */
  lemma {:induction false} ReadBakesFacts(ls: Lister, bakes: map<string, BakeDir>)
    requires FixedOrder(ls)
    ensures Distinct(ReadBakes(ls, bakes))
    ensures forall b :: b in ReadBakes(ls, bakes) <==>
      CompleteBake(bakes)(b.directory) && b == BakeSourceOf(ls, bakes, b.directory)
  {
    var names := Filter(ls(bakes.Keys), CompleteBake(bakes));
    var read := Map(names, AsBakeSource(ls, bakes));
    FilterDistinct(ls(bakes.Keys), CompleteBake(bakes));
    forall n ensures n in names <==> CompleteBake(bakes)(n) { FilterMember(ls(bakes.Keys), CompleteBake(bakes), n); }
    forall i, j | 0 <= i < j < |read| ensures read[i] != read[j] {
      assert read[i].directory == names[i] && read[j].directory == names[j];
    }
    SortDistinct(read, NewerBake);
    forall b | b in read ensures CompleteBake(bakes)(b.directory) && b == BakeSourceOf(ls, bakes, b.directory) {
      var n := MapMember(names, AsBakeSource(ls, bakes), b);
    }
    forall n | n in names ensures BakeSourceOf(ls, bakes, n) in read {
      var i :| 0 <= i < |names| && names[i] == n;
      assert read[i] == BakeSourceOf(ls, bakes, n);
    }
  }

  lemma {:induction false} ReadThinFacts(ls: Lister, thin: map<string, ThinFile>)
    requires FixedOrder(ls)
    ensures Distinct(ReadThin(ls, thin))
    ensures forall t :: t in ReadThin(ls, thin) <==>
      t.file in thin && ThinListed(t.file) && t == AsThinSource(thin)(t.file)
  {
    var names := Filter(ls(thin.Keys), ThinListed);
    var read := Map(names, AsThinSource(thin));
    FilterDistinct(ls(thin.Keys), ThinListed);
    forall n ensures n in names <==> n in thin && ThinListed(n) { FilterMember(ls(thin.Keys), ThinListed, n); }
    forall i, j | 0 <= i < j < |read| ensures read[i] != read[j] {
      assert read[i].file == names[i] && read[j].file == names[j];
    }
    SortDistinct(read, NewerThin);
    forall t | t in read ensures t.file in thin && ThinListed(t.file) && t == AsThinSource(thin)(t.file) {
      var n := MapMember(names, AsThinSource(thin), t);
    }
    forall n | n in names ensures AsThinSource(thin)(n) in read {
      var i :| 0 <= i < |names| && names[i] == n;
      assert read[i] == AsThinSource(thin)(n);
    }
  }

  lemma {:induction false} GreedyFacts<T(!new)>(items: seq<T>, ok: T -> bool, size: T -> int, bytes: int, max: int)
    requires Distinct(items)
    ensures var r := Greedy(items, ok, size, bytes, max);
      Distinct(r) && forall x :: x in r ==> x in items && ok(x)
  {
    GreedyDistinct(items, ok, size, bytes, max);
    forall x | x in Greedy(items, ok, size, bytes, max) ensures x in items && ok(x) {
      GreedyMembers(items, ok, size, bytes, max, x);
    }
  }

  /** Everything planned is in the cache, named once. */
  ghost predicate Planned(ls: Lister, root: Cache, o: Options, plan: Plan) {
    && PlanOf(root, plan)
    && (forall e :: e in plan.Entries() ==>
        && e in Candidates(ls, root, o)
        && e.mtime >= Newest(Candidates(ls, root, o)) - RETENTION_MS)
    && (forall b :: b in plan.bakes ==>
        && CompleteBake(root.bakes)(b.directory) && b == BakeSourceOf(ls, root.bakes, b.directory)
        && b in ReadBakes(ls, root.bakes)
        && WantedBake(o, BakeCutoff(ReadBakes(ls, root.bakes)))(b))
    && (forall t :: t in plan.thin ==>
        && t.file in root.thinLto && ThinListed(t.file) && t == AsThinSource(root.thinLto)(t.file)
        && t in ThinCandidates(ls, root, o)
        && t.mtime >= ThinCutoff(ThinCandidates(ls, root, o)))
    && (o.part.SharedPart? ==> plan.thin == [])
  }

  lemma {:induction false} PlannedBakes(ls: Lister, root: Cache, o: Options)
    requires FixedOrder(ls)
    ensures var plan := PlanExport(ls, root, o);
      && DirectoriesDistinct(plan.bakes)
      && (forall b :: b in plan.bakes ==>
          && CompleteBake(root.bakes)(b.directory) && b == BakeSourceOf(ls, root.bakes, b.directory)
          && b in ReadBakes(ls, root.bakes)
          && WantedBake(o, BakeCutoff(ReadBakes(ls, root.bakes)))(b))
  {
    ReadBakesFacts(ls, root.bakes);
    TakenBakes(o, ReadBakes(ls, root.bakes));
    assert PlanExport(ls, root, o).bakes == TakeBakes(o, ReadBakes(ls, root.bakes), 0);
  }

  lemma {:induction false} TakenBakes(o: Options, all: seq<BakeSource>)
    requires Distinct(all) && forall a, b :: a in all && b in all && a.directory == b.directory ==> a == b
    ensures DirectoriesDistinct(TakeBakes(o, all, 0))
    ensures forall b :: b in TakeBakes(o, all, 0) ==> b in all && WantedBake(o, BakeCutoff(all))(b)
  {
    var taken := TakeBakes(o, all, 0);
    GreedyFacts(all, WantedBake(o, BakeCutoff(all)), BakeBytes, 0, o.maxBytes);
    assert forall i :: 0 <= i < |taken| ==> taken[i] in taken;
  }

  lemma {:induction false} PlannedThin(ls: Lister, root: Cache, o: Options)
    requires FixedOrder(ls)
    ensures var plan := PlanExport(ls, root, o);
      && FilesDistinct(plan.thin)
      && (o.part.SharedPart? ==> plan.thin == [])
      && (forall t :: t in plan.thin ==>
          && t.file in root.thinLto && ThinListed(t.file) && t == AsThinSource(root.thinLto)(t.file)
          && t in ThinCandidates(ls, root, o)
          && t.mtime >= ThinCutoff(ThinCandidates(ls, root, o)))
  {
    var plan := PlanExport(ls, root, o);
    var all := ThinCandidates(ls, root, o);
    ReadThinFacts(ls, root.thinLto);
    GreedyFacts(all, RecentThin(ThinCutoff(all)), ThinBytes, Spent(plan.bakes, plan.used, []), o.maxBytes);
    assert forall i :: 0 <= i < |plan.thin| ==> plan.thin[i] in plan.thin;
  }

  lemma {:induction false} PlanIsPlanned(ls: Lister, root: Cache, o: Options)
    requires FixedOrder(ls)
    ensures Planned(ls, root, o, PlanExport(ls, root, o))
  {
    PlannedBakes(ls, root, o);
    PlannedThin(ls, root, o);
    ExportsEachActionOnce(ls, root, o);
    CandidateFacts(ls, root, o);
    ExportedActions(ls, root, o);
  }

  // -------------------------------------------------------- what is accepted

  function Stamped(e: Entry): Entry { e.(mtime := Truncate(e.mtime)) }
  function StampedBake(b: BakeSource): BakeSource { b.(mtime := Truncate(b.mtime)) }
  function StampedThin(t: ThinSource): ThinSource { t.(mtime := Truncate(t.mtime)) }

  /** The listed names of a bake are its visible files. */
  lemma {:induction false} BakeNamesFacts(ls: Lister, dir: BakeDir)
    requires FixedOrder(ls)
    ensures Distinct(BakeNames(ls, dir))
    ensures forall n :: n in BakeNames(ls, dir) <==> n in dir.files && Visible(n)
  {
    FilterDistinct(ls(dir.files.Keys), Visible);
    forall n ensures n in BakeNames(ls, dir) <==> n in dir.files && Visible(n) {
      FilterMember(ls(dir.files.Keys), Visible, n);
    }
  }

  lemma {:induction false} BakeRowFiles(sha: Bytes -> string, root: Cache, b: BakeSource, n: string)
    requires forall n :: n in b.names ==> n in BakeFilesIn(root, b.directory)
    ensures var row := BakeOf(sha, root)(b);
      && (n in b.names <==> exists f :: f in row.files && f.name == n)
      && (forall f :: f in row.files && f.name == n ==>
          f == BakeFile(n, sha(BakeFilesIn(root, b.directory)[n]), |BakeFilesIn(root, b.directory)[n]|))
  {
    var row, files := BakeOf(sha, root)(b), BakeFilesIn(root, b.directory);
    if n in b.names {
      var i :| 0 <= i < |b.names| && b.names[i] == n;
      assert row.files[i] == BakeFileOf(sha, files)(n) && row.files[i] in row.files;
    }
    forall f | f in row.files && f.name == n ensures n in b.names && f == BakeFile(n, sha(files[n]), |files[n]|) {
      var m := MapMember(b.names, BakeFileOf(sha, files), f);
    }
  }

  /** What an exported bake needs to pass the import's filters. */
  ghost predicate BakeAccepted(sha: Bytes -> string, root: Cache, b: BakeSource) {
    && IsDigest(b.directory) && BAKE_RECORD in b.names
    && forall n :: n in b.names ==>
        && n in BakeFilesIn(root, b.directory) && IsBakeFileName(n)
        && IsDigest(sha(BakeFilesIn(root, b.directory)[n]))
  }

  ghost predicate ThinAccepted(sha: Bytes -> string, root: Cache, t: ThinSource) {
    && t.file in root.thinLto && t.size == |root.thinLto[t.file].content|
    && IsThinName(t.file) && IsDigest(sha(root.thinLto[t.file].content))
  }

  ghost predicate ThinStored(root: Cache, s: Snapshot, t: ThinSource) {
    && t.file in root.thinLto && t.file in s.thinFiles
    && s.thinFiles[t.file] == root.thinLto[t.file].content
  }

  ghost predicate EntryAccepted(sha: Bytes -> string, root: Cache, e: Entry) { AllValid(sha, root.blobs, e.outputs) }

  ghost function AcceptsEntry(sha: Bytes -> string, root: Cache): Entry -> bool {
    (e: Entry) => EntryAccepted(sha, root, e)
  }

  ghost function AcceptsBake(sha: Bytes -> string, root: Cache): BakeSource -> bool {
    (b: BakeSource) => BakeAccepted(sha, root, b)
  }

  ghost function AcceptsThin(sha: Bytes -> string, root: Cache): ThinSource -> bool {
    (t: ThinSource) => ThinAccepted(sha, root, t)
  }

  /** The blobs of the exported actions match their digests, and the names and digests
      of bakes and ThinLTO files are ones the import accepts. */
  ghost predicate Importable(sha: Bytes -> string, root: Cache, plan: Plan) {
    && (forall e :: e in plan.Entries() ==> EntryAccepted(sha, root, e))
    && (forall b :: b in plan.bakes ==> BakeAccepted(sha, root, b))
    && (forall t :: t in plan.thin ==> ThinAccepted(sha, root, t))
  }

  /** The part of a plan that the import accepts. */
  ghost function Kept(sha: Bytes -> string, root: Cache, plan: Plan): Plan {
    Plan(Filter(plan.bakes, AcceptsBake(sha, root)), Filter(plan.used, AcceptsEntry(sha, root)),
         Filter(plan.thin, AcceptsThin(sha, root)), Filter(plan.older, AcceptsEntry(sha, root)))
  }

  lemma {:induction false} KeptMembers(sha: Bytes -> string, root: Cache, plan: Plan)
    ensures var kept := Kept(sha, root, plan);
      && kept.Entries() == Filter(plan.Entries(), AcceptsEntry(sha, root))
      && (forall e :: e in kept.Entries() <==> e in plan.Entries() && EntryAccepted(sha, root, e))
      && (forall b :: b in kept.bakes <==> b in plan.bakes && BakeAccepted(sha, root, b))
      && (forall t :: t in kept.thin <==> t in plan.thin && ThinAccepted(sha, root, t))
  {
    FilterAppend(plan.used, plan.older, AcceptsEntry(sha, root));
    forall e
      ensures e in Filter(plan.Entries(), AcceptsEntry(sha, root))
         <==> e in plan.Entries() && EntryAccepted(sha, root, e)
    {
      FilterMember(plan.Entries(), AcceptsEntry(sha, root), e);
    }
    forall b
      ensures b in Filter(plan.bakes, AcceptsBake(sha, root)) <==> b in plan.bakes && BakeAccepted(sha, root, b)
    {
      FilterMember(plan.bakes, AcceptsBake(sha, root), b);
    }
    forall t ensures t in Filter(plan.thin, AcceptsThin(sha, root)) <==> t in plan.thin && ThinAccepted(sha, root, t) {
      FilterMember(plan.thin, AcceptsThin(sha, root), t);
    }
  }

  function ManifestOf(e: Entry): string { e.manifest }
  function DirectoryOf(b: BakeSource): string { b.directory }
  function NameOf(t: ThinSource): string { t.file }

  lemma {:induction false} KeptDistinct(sha: Bytes -> string, root: Cache, plan: Plan)
    requires PlanOf(root, plan)
    ensures PlanOf(root, Kept(sha, root, plan))
  {
    KeptMembers(sha, root, plan);
    assert KeysApart(plan.Entries(), ManifestOf) && KeysApart(plan.bakes, DirectoryOf) && KeysApart(plan.thin, NameOf);
    FilterKeysApart(plan.Entries(), AcceptsEntry(sha, root), ManifestOf);
    FilterKeysApart(plan.bakes, AcceptsBake(sha, root), DirectoryOf);
    FilterKeysApart(plan.thin, AcceptsThin(sha, root), NameOf);
    KeysApartPlain(Kept(sha, root, plan));
  }

  lemma {:induction false} KeysApartPlain(plan: Plan)
    requires KeysApart(plan.Entries(), ManifestOf) && KeysApart(plan.bakes, DirectoryOf) && KeysApart(plan.thin, NameOf)
    ensures ManifestsDistinct(plan.Entries()) && DirectoriesDistinct(plan.bakes) && FilesDistinct(plan.thin)
  {
    forall i, j | 0 <= i < j < |plan.Entries()| ensures plan.Entries()[i].manifest != plan.Entries()[j].manifest {
      assert ManifestOf(plan.Entries()[i]) != ManifestOf(plan.Entries()[j]);
    }
    forall i, j | 0 <= i < j < |plan.bakes| ensures plan.bakes[i].directory != plan.bakes[j].directory {
      assert DirectoryOf(plan.bakes[i]) != DirectoryOf(plan.bakes[j]);
    }
    forall i, j | 0 <= i < j < |plan.thin| ensures plan.thin[i].file != plan.thin[j].file {
      assert NameOf(plan.thin[i]) != NameOf(plan.thin[j]);
    }
  }

  lemma {:induction false} KeptPlanned(sha: Bytes -> string, ls: Lister, root: Cache, o: Options, plan: Plan)
    requires Planned(ls, root, o, plan)
    ensures Planned(ls, root, o, Kept(sha, root, plan))
  {
    KeptDistinct(sha, root, plan);
    KeptMembers(sha, root, plan);
  }

  // -------------------------------------------------- restoring what was planned

  ghost predicate ActionsOver(entries: seq<Entry>, before: Cache, c: Cache) {
    && (forall m :: NotNamed(entries, m) ==>
        (m in c.actions <==> m in before.actions) && (m in c.actions ==> c.actions[m] == before.actions[m]))
    && (forall e :: e in entries ==> e.manifest in c.actions && c.actions[e.manifest] == RestoredAction(e))
    && (forall e :: e in entries ==> Complete(c.blobs, e))
  }

  ghost predicate BlobsOver(root: Cache, entries: seq<Entry>, before: Cache, c: Cache) {
    && BlobsFrom(c.blobs, root)
    && (forall d :: d in before.blobs ==> d in c.blobs)
    && (forall d :: d in c.blobs ==> d in before.blobs || AnOutput(entries, d))
  }

  ghost predicate BakesOver(root: Cache, bakes: seq<BakeSource>, before: Cache, c: Cache) {
    && (forall d :: d in c.bakes ==>
        || (d in before.bakes && c.bakes[d] == before.bakes[d])
        || exists b :: b in bakes && b.directory == d)
    && (forall d :: d in before.bakes ==> d in c.bakes)
    && (forall b :: b in bakes ==>
        && b.directory in c.bakes
        && c.bakes[b.directory] == BakeDir(CopyFiles(BakeFilesIn(root, b.directory), b.names), Truncate(b.mtime)))
  }

  ghost predicate NamesThin(thin: seq<ThinSource>, f: string) { exists t :: t in thin && t.file == f }

  ghost predicate ThinOver(root: Cache, thin: seq<ThinSource>, before: Cache, c: Cache) {
    && (forall f :: f in c.thinLto ==> f in before.thinLto || NamesThin(thin, f))
    && (forall f :: f in before.thinLto && !NamesThin(thin, f) ==>
        f in c.thinLto && c.thinLto[f] == before.thinLto[f])
    && (forall t :: t in thin ==>
        && t.file in root.thinLto && t.file in c.thinLto
        && c.thinLto[t.file] == ThinFile(root.thinLto[t.file].content, Truncate(t.mtime)))
  }

  /** The cache `before` with everything `plan` names restored from a snapshot of `root`,
      and nothing else changed. */
  ghost predicate RestoredOver(root: Cache, plan: Plan, before: Cache, c: Cache) {
    && ActionsOver(plan.Entries(), before, c) && BlobsOver(root, plan.Entries(), before, c)
    && BakesOver(root, plan.bakes, before, c) && ThinOver(root, plan.thin, before, c)
  }

  lemma {:induction false} CandidateReadable(ls: Lister, root: Cache, o: Options, e: Entry)
    requires FixedOrder(ls) && e in Candidates(ls, root, o)
    ensures Readable(RestoredAction(e)) && Wanted(o)(e) && e.manifest in root.actions && IsManifest(e.manifest)
  {
    CandidateFacts(ls, root, o);
    ReadEntriesFacts(ls, root.actions);
  }

  /** The snapshot's manifests are those exported, with whole milliseconds. */
  lemma {:induction false} SnapshotEntries(sha: Bytes -> string, ls: Lister, root: Cache, o: Options, plan: Plan)
    requires FixedOrder(ls) && Planned(ls, root, o, plan)
    ensures var s := SnapshotOf(sha, root, plan);
      && Relists(plan.Entries(), Stamped, ReadEntries(ls, s.actions))
      && ManifestsDistinct(ReadEntries(ls, s.actions))
      && (forall e :: e in plan.Entries() ==> Stamped(e) in ReadEntries(ls, s.actions))
  {
    var s, all := SnapshotOf(sha, root, plan), plan.Entries();
    var read := ReadEntries(ls, s.actions);
    ReadEntriesFacts(ls, s.actions);
    forall e | e in all ensures Stamped(e) in read {
      SnapshotActions(sha, root, plan, e.manifest);
      CandidateReadable(ls, root, o, e);
    }
    forall e' | e' in read ensures exists e :: e in all && Stamped(e) == e' {
      SnapshotActions(sha, root, plan, e'.manifest);
      var e :| e in all && e.manifest == e'.manifest;
      assert Stamped(e) == e';
    }
    StampedRelists(all, read);
  }

  lemma {:induction false} StampedRelists(all: seq<Entry>, read: seq<Entry>)
    requires ManifestsDistinct(all) && Distinct(read)
    requires forall e :: e in all ==> Stamped(e) in read
    requires forall e' :: e' in read ==> exists e :: e in all && Stamped(e) == e'
    ensures Relists(all, Stamped, read)
    ensures ManifestsDistinct(read)
  {
    var images := Map(all, Stamped);
    forall i, j | 0 <= i < j < |images| ensures images[i] != images[j] {
      assert images[i].manifest == all[i].manifest && images[j].manifest == all[j].manifest;
    }
    forall x | x in images ensures x in read { var e := MapMember(all, Stamped, x); }
    forall x | x in read ensures x in images {
      var e :| e in all && Stamped(e) == x;
      var i :| 0 <= i < |all| && all[i] == e;
      assert images[i] == x;
    }
    forall i, j | 0 <= i < j < |read| ensures read[i].manifest != read[j].manifest {
      assert read[i] in read && read[j] in read;
      var e :| e in all && Stamped(e) == read[i];
      var e' :| e' in all && Stamped(e') == read[j];
      var k :| 0 <= k < |all| && all[k] == e;
      var k' :| 0 <= k' < |all| && all[k'] == e';
      assert k != k';
    }
  }

  /** The actions of the snapshot that verify are those accepted. */
  lemma {:induction false} SnapshotEntriesTaken(sha: Bytes -> string, ls: Lister, root: Cache, o: Options, plan: Plan,
                                                s: Snapshot)
    requires FixedOrder(ls) && Planned(ls, root, o, plan) && s == SnapshotOf(sha, root, plan)
    ensures var kept, taken := Kept(sha, root, plan).Entries(), Filter(ReadEntries(ls, s.actions), EntryTaken(sha, s));
      && Relists(kept, Stamped, taken) && ManifestsDistinct(taken)
      && (forall e :: e in kept ==> Stamped(e) in taken)
  {
    var all, read := plan.Entries(), ReadEntries(ls, s.actions);
    var kept, taken := Kept(sha, root, plan).Entries(), Filter(read, EntryTaken(sha, s));
    SnapshotEntries(sha, ls, root, o, plan);
    KeptMembers(sha, root, plan);
    KeptDistinct(sha, root, plan);
    FilterDistinct(read, EntryTaken(sha, s));
    forall e | e in all ensures EntryTaken(sha, s)(Stamped(e)) <==> EntryAccepted(sha, root, e) {
      SameVerdict(sha, root, plan, s, e);
    }
    forall e'
      ensures e' in taken <==> e' in read && EntryTaken(sha, s)(e')
    {
      FilterMember(read, EntryTaken(sha, s), e');
    }
    forall e' | e' in taken ensures exists e :: e in kept && Stamped(e) == e' {
      var e := MapMember(all, Stamped, e');
    }
    StampedRelists(kept, taken);
  }

  lemma {:induction false} SameVerdict(sha: Bytes -> string, root: Cache, plan: Plan, s: Snapshot, e: Entry)
    requires PlanOf(root, plan) && s == SnapshotOf(sha, root, plan) && e in plan.Entries()
    ensures AllValid(sha, s.blobs, e.outputs) <==> EntryAccepted(sha, root, e)
  {
    SnapshotBlobs(sha, root, plan);
    assert Complete(s.blobs, e) && Complete(root.blobs, e);
  }

  lemma {:induction false} RestoresActions(sha: Bytes -> string, ls: Lister, root: Cache, o: Options, plan: Plan,
                                           s: Snapshot, before: Cache, c: Cache)
    requires FixedOrder(ls) && Planned(ls, root, o, plan) && s == SnapshotOf(sha, root, plan)
    requires BlobsFrom(before.blobs, root) && c == ImportEntries(sha, s, before, ReadEntries(ls, s.actions))
    ensures c.bakes == before.bakes && c.thinLto == before.thinLto
    ensures ActionsOver(Kept(sha, root, plan).Entries(), before, c)
    ensures BlobsOver(root, Kept(sha, root, plan).Entries(), before, c)
  {
    var kept, read := Kept(sha, root, plan).Entries(), ReadEntries(ls, s.actions);
    var taken := Filter(read, EntryTaken(sha, s));
    SkipsEntries(sha, s, before, read);
    SnapshotEntriesTaken(sha, ls, root, o, plan, s);
    forall e | e in taken ensures AllValid(sha, s.blobs, e.outputs) { FilterMember(read, EntryTaken(sha, s), e); }
    SnapshotBlobs(sha, root, plan);
    ImportEntriesBlobs(sha, s, root, before, taken);
    forall e | e in kept ensures e.manifest in c.actions && c.actions[e.manifest] == RestoredAction(e) {
      ImportEntriesActions(sha, s, before, taken, e.manifest);
      assert Stamped(e) in taken;
      TruncateTwice(e.mtime);
    }
    OutputsOnly(sha, s, before, kept, taken, c);
    forall e | e in kept ensures Complete(c.blobs, e) { KeptComplete(sha, root, plan, e, taken, c); }
    forall m | NotNamed(kept, m)
      ensures (m in c.actions <==> m in before.actions) && (m in c.actions ==> c.actions[m] == before.actions[m])
    {
      forall e' | e' in taken ensures e'.manifest != m { var e := MapMember(kept, Stamped, e'); }
      ImportEntriesActions(sha, s, before, taken, m);
    }
  }

  lemma {:induction false} OutputsOnly(sha: Bytes -> string, s: Snapshot, before: Cache, kept: seq<Entry>,
                                       taken: seq<Entry>, c: Cache)
    requires Relists(kept, Stamped, taken) && c == ImportEntries(sha, s, before, taken)
    ensures forall d :: d in c.blobs ==> d in before.blobs || AnOutput(kept, d)
  {
    forall d | d in c.blobs && d !in before.blobs ensures AnOutput(kept, d) {
      ImportsOutputs(sha, s, before, taken, d);
      StampedOutput(kept, taken, d);
    }
  }

  lemma {:induction false} StampedOutput(all: seq<Entry>, read: seq<Entry>, d: string)
    requires Relists(all, Stamped, read) && AnOutput(read, d)
    ensures AnOutput(all, d)
  {
    var e' :| e' in read && IsOutput(e'.outputs, d);
    var e := MapMember(all, Stamped, e');
    assert e in all && IsOutput(e.outputs, d);
  }

  lemma {:induction false} KeptComplete(sha: Bytes -> string, root: Cache, plan: Plan, e: Entry, taken: seq<Entry>,
                                        c: Cache)
    requires PlanOf(root, plan) && e in Kept(sha, root, plan).Entries()
    requires Stamped(e) in taken && BlobsFrom(c.blobs, root)
    requires forall e, o :: e in taken && o in e.outputs ==> o.digest in c.blobs
    ensures Complete(c.blobs, e)
  {
    KeptMembers(sha, root, plan);
    assert Complete(root.blobs, e) && Stamped(e).outputs == e.outputs;
    forall o | o in e.outputs ensures o.digest in c.blobs { assert o in Stamped(e).outputs; }
  }

  /** An accepted bake verifies, and copying its files restores them. */
  lemma {:induction false} BakeRowImports(sha: Bytes -> string, s: Snapshot, root: Cache, b: BakeSource)
    requires BakeAccepted(sha, root, b)
    requires SnapshotBakeFiles(s, b.directory) == CopyFiles(BakeFilesIn(root, b.directory), b.names)
    ensures var row := BakeOf(sha, root)(b);
      && BakeRowOk(row) && BakeValid(sha, s, row)
      && RestoredBake(s, row) == BakeDir(CopyFiles(BakeFilesIn(root, b.directory), b.names), Truncate(b.mtime))
  {
    var row, files := BakeOf(sha, root)(b), BakeFilesIn(root, b.directory);
    var source := CopyFiles(files, b.names);
    forall f | f in row.files
      ensures f.name in b.names && f.digest == sha(files[f.name]) && f.size == |files[f.name]|
    {
      BakeRowFiles(sha, root, b, f.name);
    }
    BakeRowFiles(sha, root, b, BAKE_RECORD);
    forall n ensures n in b.names <==> exists f :: f in row.files && f.name == n { BakeRowFiles(sha, root, b, n); }
    CopiesAll(source, row.files, b.names);
  }

  lemma {:induction false} CopiesAll(source: map<string, Bytes>, rows: seq<BakeFile>, names: seq<string>)
    requires forall n :: n in source <==> n in names
    requires forall n :: n in names <==> exists f :: f in rows && f.name == n
    ensures CopyNamed(source, map[], RecordLast(rows)) == source
  {
    var copied := CopyNamed(source, map[], RecordLast(rows));
    RecordLastOrder(rows);
    forall n ensures (n in copied <==> n in source) && (n in source ==> copied[n] == source[n]) {
      CopyNamedFacts(source, map[], RecordLast(rows), n);
    }
  }

  ghost predicate BakeStored(root: Cache, s: Snapshot, b: BakeSource) {
    && (forall n :: n in b.names ==> n in BakeFilesIn(root, b.directory))
    && SnapshotBakeFiles(s, b.directory) == CopyFiles(BakeFilesIn(root, b.directory), b.names)
  }

  /** The rows that verify are those of the accepted bakes. */
  lemma {:induction false} BakeVerdict(sha: Bytes -> string, root: Cache, s: Snapshot, b: BakeSource)
    requires BakeStored(root, s, b)
    ensures BakeTaken(sha, s)(BakeOf(sha, root)(b)) <==> BakeAccepted(sha, root, b)
    ensures BakeRowOk(BakeOf(sha, root)(b)) <==> BakeAccepted(sha, root, b)
  {
    var row, files := BakeOf(sha, root)(b), BakeFilesIn(root, b.directory);
    if BakeAccepted(sha, root, b) {
      BakeRowImports(sha, s, root, b);
    } else if BakeRowOk(row) {
      var r :| r in row.files && r.name == BAKE_RECORD;
      BakeRowFiles(sha, root, b, BAKE_RECORD);
      forall n | n in b.names ensures IsBakeFileName(n) && IsDigest(sha(files[n])) {
        BakeRowFiles(sha, root, b, n);
        var f :| f in row.files && f.name == n;
      }
    }
  }

  lemma {:induction false} BakeRowsTaken(sha: Bytes -> string, root: Cache, s: Snapshot, bakes: seq<BakeSource>,
                                         rows: seq<Bake>)
    requires DirectoriesDistinct(bakes) && rows == Map(bakes, BakeOf(sha, root))
    requires forall b :: b in bakes ==> BakeAccepted(sha, root, b) && BakeStored(root, s, b)
    ensures RowsDistinct(rows)
    ensures forall row :: row in rows ==>
      && BakeRowOk(row) && BakeValid(sha, s, row)
      && exists b :: b in bakes && b.directory == row.directory
  {
    forall row | row in rows ensures
      && BakeRowOk(row) && BakeValid(sha, s, row)
      && exists b :: b in bakes && b.directory == row.directory
    {
      var b := MapMember(bakes, BakeOf(sha, root), row);
      BakeRowImports(sha, s, root, b);
    }
  }

  lemma {:induction false} RestoresBakes(sha: Bytes -> string, root: Cache, s: Snapshot, bakes: seq<BakeSource>,
                                         rows: seq<Bake>, before: Cache, c: Cache)
    requires DirectoriesDistinct(bakes) && rows == Map(bakes, BakeOf(sha, root))
    requires forall b :: b in bakes ==>
      BakeAccepted(sha, root, b) && BakeStored(root, s, b) && b.directory !in before.bakes
    requires c == ImportBakes(sha, s, before, rows)
    ensures c.actions == before.actions && c.blobs == before.blobs && c.thinLto == before.thinLto
    ensures BakesOver(root, bakes, before, c)
  {
    BakeRowsTaken(sha, root, s, bakes, rows);
    ImportBakesFrame(sha, s, before, rows);
    forall i | 0 <= i < |bakes| ensures bakes[i].directory in c.bakes
      && c.bakes[bakes[i].directory] ==
         BakeDir(CopyFiles(BakeFilesIn(root, bakes[i].directory), bakes[i].names), Truncate(bakes[i].mtime))
    {
      assert bakes[i] in bakes && rows[i] in rows;
      ImportBakesFacts(sha, s, before, rows, bakes[i].directory);
      BakeRowImports(sha, s, root, bakes[i]);
    }
    forall d | d in c.bakes || d in before.bakes
      ensures d in before.bakes ==> d in c.bakes
      ensures (d in before.bakes && c.bakes[d] == before.bakes[d]) || exists b :: b in bakes && b.directory == d
    {
      ImportBakesFacts(sha, s, before, rows, d);
    }
  }

  lemma {:induction false} ThinVerdict(sha: Bytes -> string, root: Cache, s: Snapshot, t: ThinSource)
    requires ThinStored(root, s, t) && t == AsThinSource(root.thinLto)(t.file)
    ensures ThinTaken(sha, s)(ThinOf(sha, root)(t)) <==> ThinAccepted(sha, root, t)
  {
  }

  lemma {:induction false} RestoresThin(sha: Bytes -> string, root: Cache, s: Snapshot, thin: seq<ThinSource>,
                                        rows: seq<ThinEntry>, before: Cache, c: Cache)
    requires FilesDistinct(thin) && rows == Map(thin, ThinOf(sha, root))
    requires forall t :: t in thin ==> ThinAccepted(sha, root, t) && ThinStored(root, s, t)
    requires c == ImportThins(sha, s, before, rows)
    ensures c.actions == before.actions && c.blobs == before.blobs && c.bakes == before.bakes
    ensures ThinOver(root, thin, before, c)
  {
    forall row | row in rows ensures ThinTaken(sha, s)(row) && exists t :: t in thin && t.file == row.file {
      var t := MapMember(thin, ThinOf(sha, root), row);
    }
    ImportThinsFacts(sha, s, before, rows, "");
    forall i | 0 <= i < |thin| ensures thin[i].file in c.thinLto
      && c.thinLto[thin[i].file] == ThinFile(root.thinLto[thin[i].file].content, Truncate(thin[i].mtime))
    {
      assert thin[i] in thin && rows[i] in rows;
      ImportThinsFacts(sha, s, before, rows, thin[i].file);
      assert rows[i].file == thin[i].file && rows[i].mtime == thin[i].mtime;
    }
    forall f ensures (f in c.thinLto ==> f in before.thinLto || NamesThin(thin, f))
                  && (f in before.thinLto && !NamesThin(thin, f) ==>
                      f in c.thinLto && c.thinLto[f] == before.thinLto[f]) {
      ImportThinsFacts(sha, s, before, rows, f);
    }
  }

  lemma {:induction false} PlanStored(sha: Bytes -> string, ls: Lister, root: Cache, o: Options, plan: Plan,
                                      s: Snapshot)
    requires FixedOrder(ls) && Planned(ls, root, o, plan) && s == SnapshotOf(sha, root, plan)
    ensures s.bakes == Map(plan.bakes, BakeOf(sha, root)) && s.thinLto == Map(plan.thin, ThinOf(sha, root))
    ensures forall t :: t in plan.thin ==> ThinStored(root, s, t)
    ensures forall b :: b in plan.bakes ==> BakeStored(root, s, b)
  {
    SnapshotRows(sha, root, plan);
    forall b | b in plan.bakes ensures BakeStored(root, s, b) { NamesStored(ls, root, s, b); }
  }

  lemma {:induction false} NamesStored(ls: Lister, root: Cache, s: Snapshot, b: BakeSource)
    requires FixedOrder(ls) && b.directory in root.bakes && b == BakeSourceOf(ls, root.bakes, b.directory)
    requires b.directory in s.bakeFiles
    requires s.bakeFiles[b.directory] == CopyFiles(BakeFilesIn(root, b.directory), b.names)
    ensures BakeStored(root, s, b)
  {
    BakeNamesFacts(ls, root.bakes[b.directory]);
  }

  /** The rows of the snapshot that the import takes. */
  lemma {:induction false} RowsTaken(sha: Bytes -> string, ls: Lister, root: Cache, o: Options, plan: Plan, s: Snapshot)
    requires FixedOrder(ls) && Planned(ls, root, o, plan) && s == SnapshotOf(sha, root, plan)
    ensures var kept := Kept(sha, root, plan);
      && Filter(s.bakes, BakeTaken(sha, s)) == Map(kept.bakes, BakeOf(sha, root))
      && Filter(s.thinLto, ThinTaken(sha, s)) == Map(kept.thin, ThinOf(sha, root))
  {
    PlanStored(sha, ls, root, o, plan, s);
    forall b | b in plan.bakes ensures BakeTaken(sha, s)(BakeOf(sha, root)(b)) == AcceptsBake(sha, root)(b) {
      BakeVerdict(sha, root, s, b);
    }
    forall t | t in plan.thin ensures ThinTaken(sha, s)(ThinOf(sha, root)(t)) == AcceptsThin(sha, root)(t) {
      ThinVerdict(sha, root, s, t);
    }
    FilterMap(plan.bakes, BakeOf(sha, root), AcceptsBake(sha, root), BakeTaken(sha, s));
    FilterMap(plan.thin, ThinOf(sha, root), AcceptsThin(sha, root), ThinTaken(sha, s));
  }

  lemma {:induction false} RestoresKeptThin(sha: Bytes -> string, ls: Lister, root: Cache, o: Options, plan: Plan,
                                            s: Snapshot, before: Cache, c: Cache)
    requires FixedOrder(ls) && Planned(ls, root, o, plan) && s == SnapshotOf(sha, root, plan)
    requires c == ImportThins(sha, s, before, s.thinLto)
    ensures c.actions == before.actions && c.blobs == before.blobs && c.bakes == before.bakes
    ensures ThinOver(root, Kept(sha, root, plan).thin, before, c)
  {
    KeptMembers(sha, root, plan);
    KeptDistinct(sha, root, plan);
    PlanStored(sha, ls, root, o, plan, s);
    RowsTaken(sha, ls, root, o, plan, s);
    SkipsThin(sha, s, before, s.thinLto);
    RestoresThin(sha, root, s, Kept(sha, root, plan).thin, Filter(s.thinLto, ThinTaken(sha, s)), before, c);
  }

  lemma {:induction false} RestoresKeptBakes(sha: Bytes -> string, ls: Lister, root: Cache, o: Options, plan: Plan,
                                             s: Snapshot, before: Cache, c: Cache)
    requires FixedOrder(ls) && Planned(ls, root, o, plan) && s == SnapshotOf(sha, root, plan)
    requires forall b :: b in plan.bakes ==> b.directory !in before.bakes
    requires c == ImportBakes(sha, s, before, s.bakes)
    ensures c.actions == before.actions && c.blobs == before.blobs && c.thinLto == before.thinLto
    ensures BakesOver(root, Kept(sha, root, plan).bakes, before, c)
  {
    KeptMembers(sha, root, plan);
    KeptDistinct(sha, root, plan);
    PlanStored(sha, ls, root, o, plan, s);
    RowsTaken(sha, ls, root, o, plan, s);
    SkipsBakes(sha, s, before, s.bakes);
    RestoresBakes(sha, root, s, Kept(sha, root, plan).bakes, Filter(s.bakes, BakeTaken(sha, s)), before, c);
  }

  /** Over a cache whose blobs are also those of `root` and which lacks the exported bakes,
      an import restores what the export planned and the import accepts, no more. */
  lemma {:induction false} ImportsOver(sha: Bytes -> string, ls: Lister, root: Cache, o: Options, plan: Plan,
                                       s: Snapshot, before: Cache)
    requires FixedOrder(ls) && Planned(ls, root, o, plan) && s == SnapshotOf(sha, root, plan)
    requires BlobsFrom(before.blobs, root) && forall b :: b in plan.bakes ==> b.directory !in before.bakes
    ensures RestoredOver(root, Kept(sha, root, plan), before, Import(sha, ls, s, before))
  {
    var c1 := ImportEntries(sha, s, before, ReadEntries(ls, s.actions));
    var c2 := ImportThins(sha, s, c1, s.thinLto);
    var c3 := ImportBakes(sha, s, c2, s.bakes);
    RestoresActions(sha, ls, root, o, plan, s, before, c1);
    RestoresKeptThin(sha, ls, root, o, plan, s, c1, c2);
    RestoresKeptBakes(sha, ls, root, o, plan, s, c2, c3);
    OverFrames(root, Kept(sha, root, plan), before, c1, c2, c3);
  }

  lemma {:induction false} OverFrames(root: Cache, plan: Plan, before: Cache, c1: Cache, c2: Cache, c3: Cache)
    requires ActionsOver(plan.Entries(), before, c1) && BlobsOver(root, plan.Entries(), before, c1)
    requires c1.bakes == before.bakes && c1.thinLto == before.thinLto
    requires c2.actions == c1.actions && c2.blobs == c1.blobs
    requires c2.bakes == c1.bakes && ThinOver(root, plan.thin, c1, c2)
    requires c3.actions == c2.actions && c3.blobs == c2.blobs
    requires c3.thinLto == c2.thinLto && BakesOver(root, plan.bakes, c2, c3)
    ensures RestoredOver(root, plan, before, c3)
  {
  }

  ghost predicate Restored(root: Cache, plan: Plan, c: Cache) { RestoredOver(root, plan, EMPTY_CACHE, c) }

  /** Into an empty cache. */
  lemma {:induction false} ImportRestores(sha: Bytes -> string, ls: Lister, root: Cache, o: Options, plan: Plan,
                                          s: Snapshot)
    requires FixedOrder(ls) && Planned(ls, root, o, plan) && s == SnapshotOf(sha, root, plan)
    ensures Restored(root, Kept(sha, root, plan), Import(sha, ls, s, EMPTY_CACHE))
  {
    ImportsOver(sha, ls, root, o, plan, s, EMPTY_CACHE);
  }
}
