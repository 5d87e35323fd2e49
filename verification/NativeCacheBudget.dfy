/** What every export respects: the byte budget, the accounting by category, each
    action at most once, and the priority of what the job used. */
module NativeCacheBudget {
  import opened Sorting
  import opened NativeCache

  lemma {:induction false} GreedyMembers<T>(items: seq<T>, ok: T -> bool, size: T -> int, bytes: int, max: int, x: T)
    requires x in Greedy(items, ok, size, bytes, max)
    ensures x in items && ok(x)
  {
    var r := Greedy(items[..|items| - 1], ok, size, bytes, max);
    if x in r { GreedyMembers(items[..|items| - 1], ok, size, bytes, max, x); }
  }

  /** Whatever the sizes, admission never pushes the running total past the budget. */
  lemma {:induction false} GreedyFits<T>(items: seq<T>, ok: T -> bool, size: T -> int, bytes: int, max: int)
    ensures Greedy(items, ok, size, bytes, max) == []
         || bytes + Sum(Greedy(items, ok, size, bytes, max), size) <= max
  {
    if items != [] {
      var r := Greedy(items[..|items| - 1], ok, size, bytes, max);
      var x := items[|items| - 1];
      GreedyFits(items[..|items| - 1], ok, size, bytes, max);
      assert (r + [x])[..|r|] == r;
    }
  }

  lemma {:induction false} GreedyDistinct<T>(items: seq<T>, ok: T -> bool, size: T -> int, bytes: int, max: int)
    requires Distinct(items)
    ensures Distinct(Greedy(items, ok, size, bytes, max))
  {
    if items != [] {
      var r := Greedy(items[..|items| - 1], ok, size, bytes, max);
      GreedyDistinct(items[..|items| - 1], ok, size, bytes, max);
      forall i | 0 <= i < |r| ensures r[i] in items[..|items| - 1] {
        GreedyMembers(items[..|items| - 1], ok, size, bytes, max, r[i]);
      }
    }
  }

  lemma {:induction false} GreedySame<T>(items: seq<T>, ok: T -> bool, ok': T -> bool, size: T -> int, bytes: int,
                                         max: int)
    requires forall x :: x in items ==> ok(x) == ok'(x)
    ensures Greedy(items, ok, size, bytes, max) == Greedy(items, ok', size, bytes, max)
  {
    if items != [] { GreedySame(items[..|items| - 1], ok, ok', size, bytes, max); }
  }

  // ------------------------------------------------------- what is read

  /** Entries come from distinct manifests of the cache. */
  lemma {:induction false} ReadEntriesFacts(ls: Lister, actions: map<string, ActionFile>)
    requires FixedOrder(ls)
    ensures Distinct(ReadEntries(ls, actions))
    ensures forall e :: e in ReadEntries(ls, actions) <==>
              ReadableIn(actions)(e.manifest) && e == EntryOf(actions, e.manifest)
  {
    var names := Filter(ls(actions.Keys), ReadableIn(actions));
    var entries := ReadEntries(ls, actions);
    FilterDistinct(ls(actions.Keys), ReadableIn(actions));
    forall n ensures n in names <==> ReadableIn(actions)(n) {
      FilterMember(ls(actions.Keys), ReadableIn(actions), n);
    }
    forall i, j | 0 <= i < j < |entries| ensures entries[i] != entries[j] {
      assert entries[i].manifest == names[i] && entries[j].manifest == names[j];
    }
    forall e | e in entries
      ensures ReadableIn(actions)(e.manifest) && e == EntryOf(actions, e.manifest)
    {
      var n := MapMember(names, AsEntry(actions), e);
    }
    forall n | n in names ensures EntryOf(actions, n) in entries {
      var i :| 0 <= i < |names| && names[i] == n;
      assert entries[i] == EntryOf(actions, n);
    }
  }

  lemma {:induction false} CandidateFacts(ls: Lister, root: Cache, o: Options)
    requires FixedOrder(ls)
    ensures Distinct(Candidates(ls, root, o))
    ensures forall e :: e in Candidates(ls, root, o) <==> e in ReadEntries(ls, root.actions) && Wanted(o)(e)
  {
    ReadEntriesFacts(ls, root.actions);
    var wanted := Filter(ReadEntries(ls, root.actions), Wanted(o));
    FilterDistinct(ReadEntries(ls, root.actions), Wanted(o));
    SortDistinct(wanted, StageThenNewest);
    forall e ensures e in wanted <==> e in ReadEntries(ls, root.actions) && Wanted(o)(e) {
      FilterMember(ReadEntries(ls, root.actions), Wanted(o), e);
    }
  }

  lemma {:induction false} TakenActions(root: Cache, o: Options, selected: seq<Entry>, cutoff: real, bytes: int)
    ensures var taken := TakeActions(root, o, selected, cutoff, bytes);
      && (forall e :: e in taken ==> e in selected && e.mtime >= cutoff && Complete(root.blobs, e))
      && (Distinct(selected) ==> Distinct(taken))
  {
    var ok := Exportable(root, cutoff);
    forall e | e in TakeActions(root, o, selected, cutoff, bytes)
      ensures e in selected && e.mtime >= cutoff && Complete(root.blobs, e)
    {
      GreedyMembers(selected, ok, EntryBytes, bytes, o.maxBytes, e);
    }
    if Distinct(selected) { GreedyDistinct(selected, ok, EntryBytes, bytes, o.maxBytes); }
  }

  /** Taken from the two halves of a split, nothing is taken twice. */
  lemma {:induction false} TakenHalves(entries: seq<Entry>, o: Options, used: seq<Entry>, older: seq<Entry>)
    requires Distinct(used) && Distinct(older)
    requires forall e :: e in used ==> e in Filter(entries, UsedEntry(o))
    requires forall e :: e in older ==> e in Filter(entries, UnusedEntry(o))
    ensures Distinct(used + older)
    ensures forall e :: e in used + older ==> e in entries
  {
    forall e ensures (e in used ==> e in entries && Used(o, e.mtime))
                  && (e in older ==> e in entries && !Used(o, e.mtime)) {
      FilterMember(entries, UsedEntry(o), e);
      FilterMember(entries, UnusedEntry(o), e);
    }
    forall i, j | 0 <= i < |used| && 0 <= j < |older| ensures used[i] != older[j] {
      assert used[i] in used && older[j] in older;
    }
  }

  lemma {:induction false} BothHalves(root: Cache, o: Options, entries: seq<Entry>, cutoff: real, first: int,
                                      second: int)
    requires Distinct(entries)
    ensures var all := TakeActions(root, o, Filter(entries, UsedEntry(o)), cutoff, first)
                     + TakeActions(root, o, Filter(entries, UnusedEntry(o)), cutoff, second);
      && Distinct(all)
      && forall e :: e in all ==> e in entries && e.mtime >= cutoff && Complete(root.blobs, e)
  {
    var used := TakeActions(root, o, Filter(entries, UsedEntry(o)), cutoff, first);
    var older := TakeActions(root, o, Filter(entries, UnusedEntry(o)), cutoff, second);
    FilterDistinct(entries, UsedEntry(o));
    FilterDistinct(entries, UnusedEntry(o));
    TakenActions(root, o, Filter(entries, UsedEntry(o)), cutoff, first);
    TakenActions(root, o, Filter(entries, UnusedEntry(o)), cutoff, second);
    TakenHalves(entries, o, used, older);
  }

  lemma {:induction false} PlannedActions(root: Cache, o: Options, bakes: seq<BakeSource>, entries: seq<Entry>,
                                          thin: seq<ThinSource>)
    requires Distinct(entries)
    ensures var all := PlanFrom(root, o, bakes, entries, thin).Entries();
      && Distinct(all)
      && forall e :: e in all ==> e in entries && e.mtime >= Newest(entries) - RETENTION_MS && Complete(root.blobs, e)
  {
    var plan := PlanFrom(root, o, bakes, entries, thin);
    BothHalves(root, o, entries, Newest(entries) - RETENTION_MS,
               Spent(plan.bakes, [], []), Spent(plan.bakes, plan.used, plan.thin));
  }

  /** Exported actions were candidates, recent and complete in the cache. */
  lemma {:induction false} ExportedActions(ls: Lister, root: Cache, o: Options)
    requires Distinct(Candidates(ls, root, o))
    ensures var all := PlanExport(ls, root, o).Entries();
      && Distinct(all)
      && (forall e :: e in all ==>
          && e in Candidates(ls, root, o)
          && e.mtime >= Newest(Candidates(ls, root, o)) - RETENTION_MS
          && Complete(root.blobs, e))
  {
    PlannedActions(root, o, ReadBakes(ls, root.bakes), Candidates(ls, root, o), ThinCandidates(ls, root, o));
  }

  /** No action is exported twice. */
  lemma {:induction false} ExportsEachActionOnce(ls: Lister, root: Cache, o: Options)
    requires FixedOrder(ls)
    ensures var all := PlanExport(ls, root, o).Entries();
      forall i, j :: 0 <= i < j < |all| ==> all[i].manifest != all[j].manifest
  {
    CandidateFacts(ls, root, o);
    ExportedActions(ls, root, o);
    ReadEntriesFacts(ls, root.actions);
    var all := PlanExport(ls, root, o).Entries();
    forall i, j | 0 <= i < j < |all| ensures all[i].manifest != all[j].manifest {
      assert all[i] in all && all[j] in all;
    }
  }

  lemma {:induction false} PlanFits(root: Cache, o: Options, allBakes: seq<BakeSource>, entries: seq<Entry>,
                                    allThin: seq<ThinSource>)
    ensures PlanFrom(root, o, allBakes, entries, allThin).Total() <= (if o.maxBytes >= 0 then o.maxBytes else 0)
  {
    var plan := PlanFrom(root, o, allBakes, entries, allThin);
    var ok := Exportable(root, Newest(entries) - RETENTION_MS);
    GreedyFits(allBakes, WantedBake(o, BakeCutoff(allBakes)), BakeBytes, 0, o.maxBytes);
    GreedyFits(Filter(entries, UsedEntry(o)), ok, EntryBytes, Spent(plan.bakes, [], []), o.maxBytes);
    GreedyFits(allThin, RecentThin(ThinCutoff(allThin)), ThinBytes, Spent(plan.bakes, plan.used, []), o.maxBytes);
    GreedyFits(Filter(entries, UnusedEntry(o)), ok, EntryBytes, Spent(plan.bakes, plan.used, plan.thin), o.maxBytes);
  }

  /** The bytes admitted never exceed the budget. */
  lemma {:induction false} ExportWithinBudget(ls: Lister, root: Cache, o: Options)
    ensures PlanExport(ls, root, o).Total() <= (if o.maxBytes >= 0 then o.maxBytes else 0)
  {
    PlanFits(root, o, ReadBakes(ls, root.bakes), Candidates(ls, root, o), ThinCandidates(ls, root, o));
  }

  // ------------------------------------------------- priority of used work

  lemma {:induction false} NewestIs(entries: seq<Entry>)
    ensures Newest(entries) >= 0.0
    ensures forall e :: e in entries ==> e.mtime <= Newest(entries)
    ensures Newest(entries) == 0.0 || exists e :: e in entries && e.mtime == Newest(entries)
  {
    if entries != [] {
      NewestIs(entries[..|entries| - 1]);
      assert entries[|entries| - 1] in entries;
      if Newest(entries) != 0.0 && Newest(entries) != entries[|entries| - 1].mtime {
        var e :| e in entries[..|entries| - 1] && e.mtime == Newest(entries);
        assert e in entries;
      }
    }
  }

  /** If anything was used, the newest action is a used one. */
  lemma {:induction false} NewestIsUsed(entries: seq<Entry>, o: Options)
    requires Filter(entries, UsedEntry(o)) != []
    ensures Newest(entries) == Newest(Filter(entries, UsedEntry(o)))
  {
    var used := Filter(entries, UsedEntry(o));
    NewestIs(entries);
    NewestIs(used);
    forall e ensures e in used <==> e in entries && Used(o, e.mtime) { FilterMember(entries, UsedEntry(o), e); }
    assert used[0] in used;
    if e :| e in entries && e.mtime == Newest(entries) { assert Used(o, e.mtime); }
  }

  /** The two blob stores have the outputs of these actions with the same sizes. */
  ghost predicate SameSizes(root: Cache, root': Cache, entries: seq<Entry>) {
    forall e, o :: e in entries && o in e.outputs ==>
      && (o.digest in root.blobs <==> o.digest in root'.blobs)
      && (o.digest in root.blobs ==> |root.blobs[o.digest]| == |root'.blobs[o.digest]|)
  }

  lemma {:induction false} SameUsedPlan(root: Cache, root': Cache, o: Options, allBakes: seq<BakeSource>,
                                        entries: seq<Entry>, entries': seq<Entry>, allThin: seq<ThinSource>,
                                        allThin': seq<ThinSource>)
    requires Filter(entries, UsedEntry(o)) == Filter(entries', UsedEntry(o))
    requires SameSizes(root, root', Filter(entries, UsedEntry(o)))
    ensures PlanFrom(root, o, allBakes, entries, allThin).bakes
         == PlanFrom(root', o, allBakes, entries', allThin').bakes
    ensures PlanFrom(root, o, allBakes, entries, allThin).used == PlanFrom(root', o, allBakes, entries', allThin').used
  {
    var plan := PlanFrom(root, o, allBakes, entries, allThin);
    var used := Filter(entries, UsedEntry(o));
    if used != [] {
      NewestIsUsed(entries, o);
      NewestIsUsed(entries', o);
      var cutoff := Newest(used) - RETENTION_MS;
      GreedySame(used, Exportable(root, cutoff), Exportable(root', cutoff), EntryBytes,
                 Spent(plan.bakes, [], []), o.maxBytes);
    }
  }

  lemma {:induction false} SortedSameSizes(root: Cache, root': Cache, entries: seq<Entry>)
    requires SameSizes(root, root', entries)
    ensures SameSizes(root, root', Sort(entries, StageThenNewest))
  {
    SortContents(entries, StageThenNewest);
    forall e | e in Sort(entries, StageThenNewest) ensures e in entries {
      assert e in multiset(Sort(entries, StageThenNewest));
    }
  }

  /** Two caches that agree on bakes, on the actions the job used and on the sizes of their
      outputs export the same bakes and the same used actions, whatever older actions,
      other blobs and ThinLTO files they hold. */
  lemma {:induction false} UsedWorkComesFirst(ls: Lister, root: Cache, root': Cache, o: Options)
    requires root.bakes == root'.bakes
    requires Filter(Filter(ReadEntries(ls, root.actions), Wanted(o)), UsedEntry(o))
          == Filter(Filter(ReadEntries(ls, root'.actions), Wanted(o)), UsedEntry(o))
    requires SameSizes(root, root', Filter(Filter(ReadEntries(ls, root.actions), Wanted(o)), UsedEntry(o)))
    ensures PlanExport(ls, root, o).bakes == PlanExport(ls, root', o).bakes
    ensures PlanExport(ls, root, o).used == PlanExport(ls, root', o).used
  {
    FilterSort(Filter(ReadEntries(ls, root.actions), Wanted(o)), StageThenNewest, UsedEntry(o));
    FilterSort(Filter(ReadEntries(ls, root'.actions), Wanted(o)), StageThenNewest, UsedEntry(o));
    SortedSameSizes(root, root', Filter(Filter(ReadEntries(ls, root.actions), Wanted(o)), UsedEntry(o)));
    SameUsedPlan(root, root', o, ReadBakes(ls, root.bakes), Candidates(ls, root, o), Candidates(ls, root', o),
                 ThinCandidates(ls, root, o), ThinCandidates(ls, root', o));
  }
}
