/** `exportSnapshot` (scripts/ci-native-cache.ts): the loops that fill a snapshot,
    proved to take exactly what the plan of module NativeCache takes. */
module NativeCacheExport {
  import opened Sorting
  import opened NativeCache

  // What the copies of a sequence of items leave in the snapshot directory.

  function PutBlobs(blobs: map<string, Bytes>, root: Cache, outputs: seq<Output>): map<string, Bytes> {
    if outputs == [] then blobs
    else
      var o := outputs[|outputs| - 1];
      var m := PutBlobs(blobs, root, outputs[..|outputs| - 1]);
      if o.digest in root.blobs then m[o.digest := root.blobs[o.digest]] else m
  }

  /** One exported action: its blobs, then its manifest with its last-use time. */
  function PutEntry(s: Snapshot, root: Cache, e: Entry): Snapshot {
    s.(blobs := PutBlobs(s.blobs, root, e.outputs),
       actions := s.actions[e.manifest := ActionFile(e.stage, Outputs(e.outputs), Truncate(e.mtime))])
  }

  function PutEntries(s: Snapshot, root: Cache, entries: seq<Entry>): Snapshot {
    if entries == [] then s
    else PutEntry(PutEntries(s, root, entries[..|entries| - 1]), root, entries[|entries| - 1])
  }

  function CopyFiles(files: map<string, Bytes>, names: seq<string>): map<string, Bytes> {
    map n | n in names && n in files :: files[n]
  }

  function BakeFileOf(sha: Bytes -> string, files: map<string, Bytes>): string -> BakeFile {
    (n: string) => if n in files then BakeFile(n, sha(files[n]), |files[n]|) else BakeFile(n, "", 0)
  }

  function ExportedBake(sha: Bytes -> string, root: Cache, b: BakeSource): Bake {
    Bake(b.directory, b.mtime, Map(b.names, BakeFileOf(sha, BakeFilesIn(root, b.directory))))
  }

  function BakeOf(sha: Bytes -> string, root: Cache): BakeSource -> Bake {
    (b: BakeSource) => ExportedBake(sha, root, b)
  }

  function ExportedThin(sha: Bytes -> string, root: Cache, t: ThinSource): ThinEntry {
    if t.file in root.thinLto then ThinEntry(t.file, sha(root.thinLto[t.file].content), t.size, t.mtime)
    else ThinEntry(t.file, "", t.size, t.mtime)
  }

  function ThinOf(sha: Bytes -> string, root: Cache): ThinSource -> ThinEntry {
    (t: ThinSource) => ExportedThin(sha, root, t)
  }

  function PutBake(s: Snapshot, sha: Bytes -> string, root: Cache, b: BakeSource): Snapshot {
    s.(bakeFiles := s.bakeFiles[b.directory := CopyFiles(BakeFilesIn(root, b.directory), b.names)],
       bakes := s.bakes + [BakeOf(sha, root)(b)])
  }

  function PutBakes(s: Snapshot, sha: Bytes -> string, root: Cache, bakes: seq<BakeSource>): Snapshot {
    if bakes == [] then s
    else PutBake(PutBakes(s, sha, root, bakes[..|bakes| - 1]), sha, root, bakes[|bakes| - 1])
  }

  function PutThin(s: Snapshot, sha: Bytes -> string, root: Cache, t: ThinSource): Snapshot {
    s.(thinFiles := if t.file in root.thinLto then s.thinFiles[t.file := root.thinLto[t.file].content]
                    else s.thinFiles,
       thinLto := s.thinLto + [ThinOf(sha, root)(t)])
  }

  function PutThins(s: Snapshot, sha: Bytes -> string, root: Cache, thin: seq<ThinSource>): Snapshot {
    if thin == [] then s
    else PutThin(PutThins(s, sha, root, thin[..|thin| - 1]), sha, root, thin[|thin| - 1])
  }

  /** The snapshot directory an export of `plan` leaves behind. */
  function SnapshotOf(sha: Bytes -> string, root: Cache, plan: Plan): Snapshot {
    var s1 := PutBakes(EMPTY_SNAPSHOT, sha, root, plan.bakes);
    var s2 := PutEntries(s1, root, plan.used);
    var s3 := PutThins(s2, sha, root, plan.thin);
    PutEntries(s3, root, plan.older)
  }

  lemma {:induction false} SumMore<T>(s: seq<T>, x: T, size: T -> int)
    ensures Sum(s + [x], size) == Sum(s, size) + size(x)
  {
    assert (s + [x])[..|s|] == s;
  }

  lemma {:induction false} PutMore(s: Snapshot, root: Cache, entries: seq<Entry>, e: Entry)
    ensures PutEntries(s, root, entries + [e]) == PutEntry(PutEntries(s, root, entries), root, e)
  {
    assert (entries + [e])[..|entries|] == entries;
  }

  lemma {:induction false} PutMoreBakes(s: Snapshot, sha: Bytes -> string, root: Cache, bakes: seq<BakeSource>,
                                        b: BakeSource)
    ensures PutBakes(s, sha, root, bakes + [b]) == PutBake(PutBakes(s, sha, root, bakes), sha, root, b)
  {
    assert (bakes + [b])[..|bakes|] == bakes;
  }

  lemma {:induction false} PutMoreThin(s: Snapshot, sha: Bytes -> string, root: Cache, thin: seq<ThinSource>,
                                       t: ThinSource)
    ensures PutThins(s, sha, root, thin + [t]) == PutThin(PutThins(s, sha, root, thin), sha, root, t)
  {
    assert (thin + [t])[..|thin|] == thin;
  }

  /** What an export has so far. */
  datatype Totals = Totals(snapshot: Snapshot, exported: seq<Entry>, bytes: int, usedBytes: int, olderBytes: int,
                           bakeBytes: int, thinLtoBytes: int)
  {
    /** One more action, in its category. */
    function Plus(root: Cache, e: Entry, used: bool): Totals {
      var size := EntryBytes(e);
      this.(snapshot := PutEntry(snapshot, root, e), exported := exported + [e], bytes := bytes + size,
            usedBytes := if used then usedBytes + size else usedBytes,
            olderBytes := if used then olderBytes else olderBytes + size)
    }

    /** The given actions more. */
    function With(root: Cache, taken: seq<Entry>, used: bool): Totals {
      var size := Sum(taken, EntryBytes);
      this.(snapshot := PutEntries(snapshot, root, taken), exported := exported + taken, bytes := bytes + size,
            usedBytes := if used then usedBytes + size else usedBytes,
            olderBytes := if used then olderBytes else olderBytes + size)
    }
  }

  lemma {:induction false} WithNone(t: Totals, root: Cache, used: bool)
    ensures t.With(root, [], used) == t
  {
    assert t.exported + [] == t.exported;
  }

  lemma {:induction false} WithMore(t: Totals, root: Cache, taken: seq<Entry>, e: Entry, used: bool)
    ensures t.With(root, taken + [e], used) == t.With(root, taken, used).Plus(root, e, used)
    ensures t.With(root, taken, used).bytes == t.bytes + Sum(taken, EntryBytes)
  {
    SumMore(taken, e, EntryBytes);
    PutMore(t.snapshot, root, taken, e);
    assert t.exported + (taken + [e]) == (t.exported + taken) + [e];
  }

  /** The mutable state of one export. */
  class SnapshotExport {
    var snapshot: Snapshot
    var exported: seq<Entry>
    var bytes: int
    var usedBytes: int
    var olderBytes: int
    var bakeBytes: int
    var thinLtoBytes: int

    constructor ()
      ensures snapshot == EMPTY_SNAPSHOT && exported == [] && bytes == 0
      ensures usedBytes == olderBytes == bakeBytes == thinLtoBytes == 0
    {
      snapshot, exported, bytes := EMPTY_SNAPSHOT, [], 0;
      usedBytes, olderBytes, bakeBytes, thinLtoBytes := 0, 0, 0, 0;
    }

    ghost function Now(): Totals
      reads this
    {
      Totals(snapshot, exported, bytes, usedBytes, olderBytes, bakeBytes, thinLtoBytes)
    }

    method ExportActions(root: Cache, o: Options, selected: seq<Entry>, cutoff: real, used: bool)
      modifies this
      ensures Now() == old(Now()).With(root, TakeActions(root, o, selected, cutoff, old(bytes)), used)
    {
      ghost var was, taken := Now(), [];
      WithNone(was, root, used);
      for i := 0 to |selected|
        invariant taken == Greedy(selected[..i], Exportable(root, cutoff), EntryBytes, was.bytes, o.maxBytes)
        invariant Now() == was.With(root, taken, used)
      {
        GreedyStep(selected, i, Exportable(root, cutoff), EntryBytes, was.bytes, o.maxBytes);
        WithMore(was, root, taken, selected[i], used);
        var admitted := ExportAction(root, selected[i], cutoff, o.maxBytes, used);
        if admitted { taken := taken + [selected[i]]; }
      }
      assert selected[..|selected|] == selected;
    }

    method ExportAction(root: Cache, entry: Entry, cutoff: real, maxBytes: int, used: bool) returns (admitted: bool)
      modifies this
      ensures admitted <==> Exportable(root, cutoff)(entry) && old(bytes) + EntryBytes(entry) <= maxBytes
      ensures Now() == if admitted then old(Now()).Plus(root, entry, used) else old(Now())
    {
      if entry.mtime < cutoff || bytes + EntryBytes(entry) > maxBytes { return false; }
      var present := BlobsPresent(root, entry.outputs);
      if !present { return false; }
      CopyEntry(root, entry);
      exported := exported + [entry];
      bytes := bytes + EntryBytes(entry);
      if used { usedBytes := usedBytes + EntryBytes(entry); }
      else { olderBytes := olderBytes + EntryBytes(entry); }
      return true;
    }

    method BlobsPresent(root: Cache, outputs: seq<Output>) returns (present: bool)
      ensures present <==> forall o :: o in outputs ==>
                o.digest in root.blobs && |root.blobs[o.digest]| == o.size
    {
      for i := 0 to |outputs|
        invariant forall o :: o in outputs[..i] ==>
                    o.digest in root.blobs && |root.blobs[o.digest]| == o.size
      {
        var o := outputs[i];
        if o.digest !in root.blobs || |root.blobs[o.digest]| != o.size { return false; }
      }
      return true;
    }

    method CopyEntry(root: Cache, entry: Entry)
      modifies `snapshot
      ensures snapshot == PutEntry(old(snapshot), root, entry)
    {
      var outputs := entry.outputs;
      for i := 0 to |outputs|
        invariant snapshot == old(snapshot).(blobs := PutBlobs(old(snapshot).blobs, root, outputs[..i]))
      {
        assert outputs[..i + 1][..i] == outputs[..i];
        var d := outputs[i].digest;
        if d in root.blobs { snapshot := snapshot.(blobs := snapshot.blobs[d := root.blobs[d]]); }
      }
      assert outputs[..|outputs|] == outputs;
      snapshot := snapshot.(actions := snapshot.actions
        [entry.manifest := ActionFile(entry.stage, Outputs(outputs), Truncate(entry.mtime))]);
    }

    method ExportBakes(sha: Bytes -> string, root: Cache, all: seq<BakeSource>, o: Options)
      modifies this
      ensures var taken := TakeBakes(o, all, old(bytes));
        && bytes == old(bytes) + Sum(taken, BakeBytes)
        && bakeBytes == old(bakeBytes) + Sum(taken, BakeBytes)
        && snapshot == PutBakes(old(snapshot), sha, root, taken)
      ensures unchanged(`exported) && unchanged(`usedBytes) && unchanged(`olderBytes) && unchanged(`thinLtoBytes)
    {
      var cutoff := BakeCutoff(all);
      ghost var taken := [];
      for i := 0 to |all|
        invariant taken == Greedy(all[..i], WantedBake(o, cutoff), BakeBytes, old(bytes), o.maxBytes)
        invariant bytes == old(bytes) + Sum(taken, BakeBytes)
        invariant bakeBytes == old(bakeBytes) + Sum(taken, BakeBytes)
        invariant snapshot == PutBakes(old(snapshot), sha, root, taken)
        invariant unchanged(`exported) && unchanged(`usedBytes) && unchanged(`olderBytes) && unchanged(`thinLtoBytes)
      {
        var bake := all[i];
        GreedyStep(all, i, WantedBake(o, cutoff), BakeBytes, old(bytes), o.maxBytes);
        if LeftToShared(o, BakeKey(bake.directory), true) { continue; }
        if o.part.LinePart? && !Used(o, bake.mtime) { continue; }
        if o.part.SharedPart? && bake.mtime < cutoff { continue; }
        if bytes + bake.size > o.maxBytes { continue; }
        SumMore(taken, bake, BakeBytes);
        PutMoreBakes(old(snapshot), sha, root, taken, bake);
        taken := taken + [bake];
        snapshot := PutBake(snapshot, sha, root, bake);
        bytes := bytes + bake.size;
        bakeBytes := bakeBytes + bake.size;
      }
      assert all[..|all|] == all;
    }

    method ExportThinLto(sha: Bytes -> string, root: Cache, o: Options, all: seq<ThinSource>)
      modifies this
      ensures var taken := TakeThin(o, all, old(bytes));
        && bytes == old(bytes) + Sum(taken, ThinBytes)
        && thinLtoBytes == old(thinLtoBytes) + Sum(taken, ThinBytes)
        && snapshot == PutThins(old(snapshot), sha, root, taken)
      ensures unchanged(`exported) && unchanged(`usedBytes) && unchanged(`olderBytes) && unchanged(`bakeBytes)
    {
      var cutoff := ThinCutoff(all);
      ghost var taken := [];
      for i := 0 to |all|
        invariant taken == Greedy(all[..i], RecentThin(cutoff), ThinBytes, old(bytes), o.maxBytes)
        invariant bytes == old(bytes) + Sum(taken, ThinBytes)
        invariant thinLtoBytes == old(thinLtoBytes) + Sum(taken, ThinBytes)
        invariant snapshot == PutThins(old(snapshot), sha, root, taken)
        invariant unchanged(`exported) && unchanged(`usedBytes) && unchanged(`olderBytes) && unchanged(`bakeBytes)
      {
        var file := all[i];
        GreedyStep(all, i, RecentThin(cutoff), ThinBytes, old(bytes), o.maxBytes);
        if file.mtime < cutoff || bytes + file.size > o.maxBytes { continue; }
        SumMore(taken, file, ThinBytes);
        PutMoreThin(old(snapshot), sha, root, taken, file);
        taken := taken + [file];
        snapshot := PutThin(snapshot, sha, root, file);
        bytes := bytes + file.size;
        thinLtoBytes := thinLtoBytes + file.size;
      }
      assert all[..|all|] == all;
    }

    method Fill(sha: Bytes -> string, root: Cache, o: Options, allBakes: seq<BakeSource>,
                entries: seq<Entry>, allThin: seq<ThinSource>)
      requires snapshot == EMPTY_SNAPSHOT && exported == [] && bytes == 0
      requires usedBytes == olderBytes == bakeBytes == thinLtoBytes == 0
      modifies this
      ensures var plan := PlanFrom(root, o, allBakes, entries, allThin);
        && snapshot == SnapshotOf(sha, root, plan)
        && exported == plan.Entries()
        && bytes == plan.Total()
        && usedBytes == plan.UsedTotal() && olderBytes == plan.OlderTotal()
        && bakeBytes == plan.BakeTotal() && thinLtoBytes == plan.ThinTotal()
    {
      var cutoff := Newest(entries) - RETENTION_MS;
      ghost var plan := PlanFrom(root, o, allBakes, entries, allThin);
      ExportBakes(sha, root, allBakes, o);
      assert bytes == Spent(plan.bakes, [], []);
      ExportActions(root, o, Filter(entries, UsedEntry(o)), cutoff, true);
      assert exported == plan.used && bytes == Spent(plan.bakes, plan.used, []);
      ExportThinLto(sha, root, o, allThin);
      assert bytes == Spent(plan.bakes, plan.used, plan.thin);
      ExportActions(root, o, Filter(entries, UnusedEntry(o)), cutoff, false);
    }

    /** The export of `root`, from an empty snapshot directory. */
    method Run(sha: Bytes -> string, ls: Lister, root: Cache, o: Options)
      requires snapshot == EMPTY_SNAPSHOT && exported == [] && bytes == 0
      requires usedBytes == olderBytes == bakeBytes == thinLtoBytes == 0
      modifies this
      ensures var plan := PlanExport(ls, root, o);
        && snapshot == SnapshotOf(sha, root, plan)
        && exported == plan.Entries()
        && bytes == plan.Total()
        && usedBytes == plan.UsedTotal() && olderBytes == plan.OlderTotal()
        && bakeBytes == plan.BakeTotal() && thinLtoBytes == plan.ThinTotal()
    {
      Fill(sha, root, o, ReadBakes(ls, root.bakes), Candidates(ls, root, o), ThinCandidates(ls, root, o));
    }
  }
}
