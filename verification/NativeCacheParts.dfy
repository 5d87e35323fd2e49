/** The two snapshots of a job: the shared one of its lane and its own line, exported
    without what the shared one holds. */
module NativeCacheParts {
  import opened Sorting
  import opened NativeCache
  import opened NativeCacheBudget
  import opened NativeCacheExport
  import opened NativeCacheImport
  import opened NativeCacheRestore
  import opened NativeCacheRoundTrip

  /** The keys by which a line recognises what was restored from a snapshot: its manifests,
      and the bakes the import accepts. */
  function SnapshotContents(ls: Lister, s: Snapshot): set<string> {
    (set e | e in ReadEntries(ls, s.actions) :: e.manifest)
    + (set b | b in s.bakes && BakeRowOk(b) :: BakeKey(b.directory))
  }

  /** A line exported without the keys of the shared snapshot, or without shared stages. */
  ghost predicate Complements(ls: Lister, s: Snapshot, shared: Options, line: Options) {
    && shared.part.SharedPart? && line.part.LinePart?
    && (line.without == AllShared || line.without == Keys(SnapshotContents(ls, s)))
  }

  lemma {:induction false} BakeKeyApart(d: string, d': string, m: string)
    requires IsDigest(d)
    ensures BakeKey(d) == BakeKey(d') ==> d == d'
    ensures IsManifest(m) ==> m != BakeKey(d)
  {
    assert BakeKey(d)[|BAKES| + 1..] == d && BakeKey(d')[|BAKES| + 1..] == d';
    var key := BakeKey(d);
    assert key[|key| - 1] == d[63];
    if IsManifest(m) { assert m[|m| - 5..][4] == 'n'; }
  }

  lemma {:induction false} ManifestContents(ls: Lister, s: Snapshot, m: string)
    requires IsManifest(m)
    ensures m in SnapshotContents(ls, s) <==> !NotNamed(ReadEntries(ls, s.actions), m)
  {
    forall b | b in s.bakes && BakeRowOk(b) ensures BakeKey(b.directory) != m { BakeKeyApart(b.directory, "", m); }
  }

  lemma {:induction false} StampedNames(all: seq<Entry>, read: seq<Entry>, m: string)
    requires Relists(all, Stamped, read)
    ensures NotNamed(all, m) <==> NotNamed(read, m)
  {
    var images := Map(all, Stamped);
    if e :| e in all && e.manifest == m {
      var i :| 0 <= i < |all| && all[i] == e;
      assert images[i] in images && images[i].manifest == m;
    }
    if e' :| e' in read && e'.manifest == m { var e := MapMember(all, Stamped, e'); }
  }

  /** The manifests among the contents are those exported. */
  lemma {:induction false} ContentsManifests(sha: Bytes -> string, ls: Lister, root: Cache, o: Options, plan: Plan,
                                             s: Snapshot, m: string)
    requires FixedOrder(ls) && Planned(ls, root, o, plan) && s == SnapshotOf(sha, root, plan) && IsManifest(m)
    ensures m in SnapshotContents(ls, s) <==> !NotNamed(plan.Entries(), m)
  {
    SnapshotEntries(sha, ls, root, o, plan);
    StampedNames(plan.Entries(), ReadEntries(ls, s.actions), m);
    ManifestContents(ls, s, m);
  }

  /** The contents name every bake that can be restored. */
  lemma {:induction false} ContentsBakes(sha: Bytes -> string, ls: Lister, root: Cache, o: Options, plan: Plan,
                                         s: Snapshot, b: BakeSource)
    requires FixedOrder(ls) && Planned(ls, root, o, plan)
    requires s == SnapshotOf(sha, root, plan) && b in Kept(sha, root, plan).bakes
    ensures BakeKey(b.directory) in SnapshotContents(ls, s)
  {
    KeptMembers(sha, root, plan);
    PlanStored(sha, ls, root, o, plan, s);
    BakeVerdict(sha, root, s, b);
    var i :| 0 <= i < |plan.bakes| && plan.bakes[i] == b;
    assert s.bakes[i] == BakeOf(sha, root)(b) && s.bakes[i] in s.bakes;
  }

  /** They name no other bake of the cache. */
  lemma {:induction false} ContentsOnlyBakes(sha: Bytes -> string, ls: Lister, root: Cache, o: Options, plan: Plan,
                                             s: Snapshot, b: BakeSource)
    requires FixedOrder(ls) && Planned(ls, root, o, plan) && s == SnapshotOf(sha, root, plan)
    requires IsDigest(b.directory) && b == BakeSourceOf(ls, root.bakes, b.directory)
    requires BakeKey(b.directory) in SnapshotContents(ls, s)
    ensures b in Kept(sha, root, plan).bakes
  {
    ReadEntriesFacts(ls, s.actions);
    forall e | e in ReadEntries(ls, s.actions) ensures e.manifest != BakeKey(b.directory) {
      BakeKeyApart(b.directory, "", e.manifest);
    }
    var row :| row in s.bakes && BakeRowOk(row) && BakeKey(row.directory) == BakeKey(b.directory);
    BakeKeyApart(b.directory, row.directory, "");
    PlanStored(sha, ls, root, o, plan, s);
    var b' := MapMember(plan.bakes, BakeOf(sha, root), row);
    BakeVerdict(sha, root, s, b');
    KeptMembers(sha, root, plan);
  }

  /** A line takes up exactly the bakes used since that it does not leave to the shared
      snapshot: none under `AllShared`, otherwise those not restorable from it. */
  lemma {:induction false} LineBakes(sha: Bytes -> string, ls: Lister, root: Cache, shared: Options, line: Options,
                                     p: Plan, b: BakeSource)
    requires FixedOrder(ls) && Planned(ls, root, shared, p) && b in ReadBakes(ls, root.bakes)
    requires Complements(ls, SnapshotOf(sha, root, p), shared, line)
    ensures WantedBake(line, BakeCutoff(ReadBakes(ls, root.bakes)))(b) <==>
      Used(line, b.mtime) && line.without.Keys? && b !in Kept(sha, root, p).bakes
  {
    var s := SnapshotOf(sha, root, p);
    ReadBakesFacts(ls, root.bakes);
    if line.without.Keys? {
      if b in Kept(sha, root, p).bakes { ContentsBakes(sha, ls, root, shared, p, s, b); }
      if BakeKey(b.directory) in SnapshotContents(ls, s) { ContentsOnlyBakes(sha, ls, root, shared, p, s, b); }
    }
  }

  lemma {:induction false} LineWants(ls: Lister, root: Cache, o: Options, e: Entry)
    requires FixedOrder(ls) && e in Candidates(ls, root, o)
    ensures Wanted(o)(e) && ReadableIn(root.actions)(e.manifest) && e == EntryOf(root.actions, e.manifest)
  {
    CandidateFacts(ls, root, o);
    ReadEntriesFacts(ls, root.actions);
  }

  /** No action is in both snapshots. */
  lemma {:induction false} NoActionTwice(sha: Bytes -> string, ls: Lister, root: Cache, shared: Options, line: Options,
                                         p: Plan, q: Plan, e: Entry, e': Entry)
    requires FixedOrder(ls) && Planned(ls, root, shared, p) && Planned(ls, root, line, q)
    requires Complements(ls, SnapshotOf(sha, root, p), shared, line) && e in p.Entries() && e' in q.Entries()
    ensures e.manifest != e'.manifest
  {
    LineWants(ls, root, shared, e);
    LineWants(ls, root, line, e');
    if line.without.Keys? {
      ContentsManifests(sha, ls, root, shared, p, SnapshotOf(sha, root, p), e.manifest);
      assert !NotNamed(p.Entries(), e.manifest);
    }
  }

  /** No bake that can be restored is in both snapshots. */
  lemma {:induction false} NoBakeTwice(sha: Bytes -> string, ls: Lister, root: Cache, shared: Options, line: Options,
                                       p: Plan, q: Plan, b: BakeSource, b': BakeSource)
    requires FixedOrder(ls) && Planned(ls, root, shared, p) && Planned(ls, root, line, q)
    requires Complements(ls, SnapshotOf(sha, root, p), shared, line)
    requires b in Kept(sha, root, p).bakes && b' in q.bakes
    ensures b.directory != b'.directory
  {
    LineWantsBake(ls, root, line, q, b');
    if line.without.Keys? { ContentsBakes(sha, ls, root, shared, p, SnapshotOf(sha, root, p), b); }
  }

  lemma {:induction false} LineWantsBake(ls: Lister, root: Cache, o: Options, plan: Plan, b: BakeSource)
    requires Planned(ls, root, o, plan) && b in plan.bakes
    ensures !LeftToShared(o, BakeKey(b.directory), true)
  {
  }

  /** What the line leaves out is in the shared snapshot, or belongs to a shared stage. */
  lemma {:induction false} NothingForgotten(sha: Bytes -> string, ls: Lister, root: Cache, shared: Options,
                                            line: Options, p: Plan, e: Entry)
    requires FixedOrder(ls) && Planned(ls, root, shared, p) && Complements(ls, SnapshotOf(sha, root, p), shared, line)
    requires e in ReadEntries(ls, root.actions)
    ensures e in Candidates(ls, root, line) || e in p.Entries()
         || (line.without.AllShared? && e in Candidates(ls, root, shared))
  {
    CandidateFacts(ls, root, line);
    CandidateFacts(ls, root, shared);
    ReadEntriesFacts(ls, root.actions);
    if line.without.Keys? && e !in Candidates(ls, root, line) {
      ContentsManifests(sha, ls, root, shared, p, SnapshotOf(sha, root, p), e.manifest);
      var e' :| e' in p.Entries() && e'.manifest == e.manifest;
      LineWants(ls, root, shared, e');
    }
  }

  /** What two plans name together. */
  function Both(p: Plan, q: Plan): Plan { Plan(p.bakes + q.bakes, p.Entries(), p.thin + q.thin, q.Entries()) }

  lemma {:induction false} BothActions(p: Plan, q: Plan, c: Cache, c': Cache, root: Cache)
    requires ActionsOver(p.Entries(), EMPTY_CACHE, c) && BlobsOver(root, p.Entries(), EMPTY_CACHE, c)
    requires ActionsOver(q.Entries(), c, c') && BlobsOver(root, q.Entries(), c, c')
    requires forall e, e' :: e in p.Entries() && e' in q.Entries() ==> e.manifest != e'.manifest
    ensures ActionsOver(Both(p, q).Entries(), EMPTY_CACHE, c') && BlobsOver(root, Both(p, q).Entries(), EMPTY_CACHE, c')
  {
    var all := Both(p, q).Entries();
    forall d | d in c'.blobs ensures AnOutput(all, d) {
      if d in c.blobs {
        var e :| e in p.Entries() && IsOutput(e.outputs, d);
        assert e in all;
      } else {
        var e :| e in q.Entries() && IsOutput(e.outputs, d);
        assert e in all;
      }
    }
    forall e | e in p.Entries()
      ensures e.manifest in c'.actions && c'.actions[e.manifest] == RestoredAction(e) && Complete(c'.blobs, e)
    {
      assert NotNamed(q.Entries(), e.manifest);
      assert Complete(c.blobs, e);
    }
    forall m | NotNamed(all, m) ensures m !in c'.actions {
      assert NotNamed(p.Entries(), m) && NotNamed(q.Entries(), m);
    }
  }

  lemma {:induction false} BothBakes(root: Cache, p: Plan, q: Plan, c: Cache, c': Cache)
    requires BakesOver(root, p.bakes, EMPTY_CACHE, c) && BakesOver(root, q.bakes, c, c')
    requires forall b, b' :: b in p.bakes && b' in q.bakes ==> b.directory != b'.directory
    ensures BakesOver(root, Both(p, q).bakes, EMPTY_CACHE, c')
  {
    forall b | b in p.bakes ensures b.directory in c'.bakes && c'.bakes[b.directory] == c.bakes[b.directory] { }
    forall d | d in c'.bakes ensures exists b :: b in Both(p, q).bakes && b.directory == d {
      if b :| b in q.bakes && b.directory == d {
        assert b in Both(p, q).bakes;
      } else {
        var b :| b in p.bakes && b.directory == d;
        assert b in Both(p, q).bakes;
      }
    }
  }

  /** Importing the shared snapshot and then the line restores what the two plans name
      together and the imports accept, and nothing else; no action, and no bake that can be
      restored, is carried twice; no action of the cache is left out by both but for shared
      stages under `AllShared`; and the line takes up exactly the bakes used since that are
      not restorable from the shared snapshot, or none under `AllShared`. */
  lemma {:induction false} SharedAndLine(sha: Bytes -> string, ls: Lister, root: Cache, shared: Options, line: Options)
    requires FixedOrder(ls)
    requires Complements(ls, SnapshotOf(sha, root, PlanExport(ls, root, shared)), shared, line)
    ensures var p, q := PlanExport(ls, root, shared), PlanExport(ls, root, line);
      var s, s' := SnapshotOf(sha, root, p), SnapshotOf(sha, root, q);
      && Restored(root, Both(Kept(sha, root, p), Kept(sha, root, q)),
                  Import(sha, ls, s', Import(sha, ls, s, EMPTY_CACHE)))
      && (forall e, e' :: e in p.Entries() && e' in q.Entries() ==> e.manifest != e'.manifest)
      && (forall b, b' :: b in Kept(sha, root, p).bakes && b' in q.bakes ==> b.directory != b'.directory)
      && (forall e :: e in ReadEntries(ls, root.actions) ==>
          || e in Candidates(ls, root, line) || e in p.Entries()
          || (line.without.AllShared? && e in Candidates(ls, root, shared)))
      && (forall b :: b in ReadBakes(ls, root.bakes) ==>
          (WantedBake(line, BakeCutoff(ReadBakes(ls, root.bakes)))(b)
           <==> Used(line, b.mtime) && line.without.Keys? && b !in Kept(sha, root, p).bakes))
  {
    var p, q := PlanExport(ls, root, shared), PlanExport(ls, root, line);
    PlanIsPlanned(ls, root, shared);
    PlanIsPlanned(ls, root, line);
    forall e, e' | e in p.Entries() && e' in q.Entries() ensures e.manifest != e'.manifest {
      NoActionTwice(sha, ls, root, shared, line, p, q, e, e');
    }
    forall b, b' | b in Kept(sha, root, p).bakes && b' in q.bakes ensures b.directory != b'.directory {
      NoBakeTwice(sha, ls, root, shared, line, p, q, b, b');
    }
    forall e | e in ReadEntries(ls, root.actions)
      ensures || e in Candidates(ls, root, line) || e in p.Entries()
              || (line.without.AllShared? && e in Candidates(ls, root, shared))
    {
      NothingForgotten(sha, ls, root, shared, line, p, e);
    }
    forall b | b in ReadBakes(ls, root.bakes)
      ensures WantedBake(line, BakeCutoff(ReadBakes(ls, root.bakes)))(b)
         <==> Used(line, b.mtime) && line.without.Keys? && b !in Kept(sha, root, p).bakes
    {
      LineBakes(sha, ls, root, shared, line, p, b);
    }
    BothRestored(sha, ls, root, shared, line, p, q);
  }

  lemma {:induction false} BothRestored(sha: Bytes -> string, ls: Lister, root: Cache, shared: Options, line: Options,
                                        p: Plan, q: Plan)
    requires FixedOrder(ls) && Planned(ls, root, shared, p) && Planned(ls, root, line, q) && shared.part.SharedPart?
    requires forall e, e' :: e in p.Entries() && e' in q.Entries() ==> e.manifest != e'.manifest
    requires forall b, b' :: b in Kept(sha, root, p).bakes && b' in q.bakes ==> b.directory != b'.directory
    ensures Restored(root, Both(Kept(sha, root, p), Kept(sha, root, q)),
                     Import(sha, ls, SnapshotOf(sha, root, q), Import(sha, ls, SnapshotOf(sha, root, p), EMPTY_CACHE)))
  {
    var s, s' := SnapshotOf(sha, root, p), SnapshotOf(sha, root, q);
    var kp, kq := Kept(sha, root, p), Kept(sha, root, q);
    var c := Import(sha, ls, s, EMPTY_CACHE);
    var c' := Import(sha, ls, s', c);
    ImportRestores(sha, ls, root, shared, p, s);
    LacksBakes(root, kp.bakes, q.bakes, c);
    ImportsOver(sha, ls, root, line, q, s', c);
    KeptMembers(sha, root, p);
    KeptMembers(sha, root, q);
    OneOverTheOther(root, kp, kq, c, c');
  }

  lemma {:induction false} LacksBakes(root: Cache, bakes: seq<BakeSource>, others: seq<BakeSource>, c: Cache)
    requires BakesOver(root, bakes, EMPTY_CACHE, c)
    requires forall b, b' :: b in bakes && b' in others ==> b.directory != b'.directory
    ensures forall b :: b in others ==> b.directory !in c.bakes
  {
  }

  lemma {:induction false} OneOverTheOther(root: Cache, p: Plan, q: Plan, c: Cache, c': Cache)
    requires Restored(root, p, c) && RestoredOver(root, q, c, c') && p.thin == []
    requires forall e, e' :: e in p.Entries() && e' in q.Entries() ==> e.manifest != e'.manifest
    requires forall b, b' :: b in p.bakes && b' in q.bakes ==> b.directory != b'.directory
    ensures Restored(root, Both(p, q), c')
  {
    BothActions(p, q, c, c', root);
    BothBakes(root, p, q, c, c');
    assert Both(p, q).thin == q.thin;
  }
}
