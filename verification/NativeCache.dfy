/** What a native build cache and its snapshots hold, and which entries an export
    admits (scripts/ci-native-cache.ts).

    SHA-256 is a parameter `sha`, and the order in which the file system lists names
    is a parameter `ls`. Byte counts are unbounded integers and times are reals. */
module NativeCache {
  import opened Optional
  import opened Sorting

  type Bytes = seq<bv8>
  type Lister = set<string> -> seq<string>

  const STAGES: seq<string> := [
    "rust-library", "wasm-rust", "compiler-overlay-object", "runtime-object",
    "runtime-archive", "wasm-object", "wasm-archive", "generated-unit-slice",
    "generated-object", "wasm-link", "test262-input-index"]
  const SHARED_STAGES: set<string> :=
    {"rust-library", "compiler-overlay-object", "runtime-object", "runtime-archive"}
  const BAKES := "compiler-wire"
  const BAKE_RECORD := "artifact.json"
  const RETENTION_MS: real := 1209600000.0

  type Stage = n: nat | n < 11

  datatype Output = Output(digest: string, size: int)

  /** A manifest file: what its JSON says, or that it does not parse to outputs whose
      digests are strings and whose sizes are safe integers. */
  datatype Json = Malformed | Outputs(outputs: seq<Output>)
  datatype ActionFile = ActionFile(stage: Stage, json: Json, mtime: real)

  /** A bake directory; `mtime` is the time of its record. */
  datatype BakeDir = BakeDir(files: map<string, Bytes>, mtime: real)
  datatype ThinFile = ThinFile(content: Bytes, mtime: real)

  datatype Cache = Cache(
    actions: map<string, ActionFile>,
    blobs: map<string, Bytes>,
    bakes: map<string, BakeDir>,
    thinLto: map<string, ThinFile>)

  const EMPTY_CACHE := Cache(map[], map[], map[], map[])

  datatype BakeFile = BakeFile(name: string, digest: string, size: int)
  datatype Bake = Bake(directory: string, mtime: real, files: seq<BakeFile>)
  datatype ThinEntry = ThinEntry(file: string, digest: string, size: int, mtime: real)

  datatype Snapshot = Snapshot(
    actions: map<string, ActionFile>,
    blobs: map<string, Bytes>,
    bakeFiles: map<string, map<string, Bytes>>,
    bakes: seq<Bake>,
    thinFiles: map<string, Bytes>,
    thinLto: seq<ThinEntry>)

  const EMPTY_SNAPSHOT := Snapshot(map[], map[], map[], [], map[], [])

  datatype Entry = Entry(manifest: string, stage: Stage, outputs: seq<Output>, mtime: real)
  datatype BakeSource = BakeSource(directory: string, names: seq<string>, mtime: real, size: int)
  datatype ThinSource = ThinSource(file: string, size: int, mtime: real)

  datatype Part = SharedPart | LinePart
  datatype Without = Nothing | AllShared | Keys(keys: set<string>)
  datatype Options = Options(part: Part, maxBytes: int, usedSince: Option<real>, without: Without)

  // ---------------------------------------------------------------- listing

  /** The file system lists names in one fixed order. */
  ghost predicate FixedOrder(ls: Lister) {
    && (forall s :: Distinct(ls(s)))
    && (forall s, x :: x in ls(s) <==> x in s)
    && (forall s, t {:trigger Filter(ls(s), In(t))} :: t <= s ==> Filter(ls(s), In(t)) == ls(t))
  }

  function In(t: set<string>): string -> bool { (x: string) => x in t }

  predicate IsHex(s: string) {
    forall i :: 0 <= i < |s| ==> s[i] in "0123456789abcdef"
  }

  predicate IsDigest(s: string) { |s| == 64 && IsHex(s) }

  predicate IsWordChar(c: char) {
    'a' <= c <= 'z' || 'A' <= c <= 'Z' || '0' <= c <= '9' || c == '_'
  }

  predicate Visible(name: string) { name == "" || name[0] != '.' }

  predicate IsBakeFileName(name: string) {
    && name != "" && Visible(name)
    && forall i :: 0 <= i < |name| ==> IsWordChar(name[i]) || name[i] in ".-"
  }

  /** Hexadecimal directory, a separator, `llvmcache-`, then word characters and dashes. */
  predicate IsThinName(file: string) {
    exists k :: 0 < k < |file| && ThinSplit(file, k)
  }

  predicate ThinSplit(file: string, k: nat)
    requires k < |file|
  {
    && IsHex(file[..k])
    && file[k] in "/\\"
    && k + 11 < |file|
    && file[k + 1..k + 11] == "llvmcache-"
    && forall i :: k + 11 <= i < |file| ==> IsWordChar(file[i]) || file[i] == '-'
  }

  /** Listed for export: in some directory, a name that starts with `llvmcache-`. */
  predicate ThinListed(file: string) {
    exists k :: 0 < k < |file| && ListedAt(file, k)
  }

  predicate ListedAt(file: string, k: nat)
    requires k < |file|
  {
    file[k] in "/\\" && "llvmcache-" <= file[k + 1..]
  }

  predicate IsManifest(name: string) { |name| >= 5 && name[|name| - 5..] == ".json" }

  predicate Readable(file: ActionFile) {
    && file.json.Outputs?
    && file.json.outputs != []
    && forall o :: o in file.json.outputs ==> IsDigest(o.digest)
  }

  function EntryOf(actions: map<string, ActionFile>, name: string): Entry {
    if name in actions && actions[name].json.Outputs?
    then Entry(name, actions[name].stage, actions[name].json.outputs, actions[name].mtime)
    else Entry(name, 0, [], 0.0)
  }

  function ReadableIn(actions: map<string, ActionFile>): string -> bool {
    (n: string) => n in actions && IsManifest(n) && Readable(actions[n])
  }

  function AsEntry(actions: map<string, ActionFile>): string -> Entry {
    (n: string) => EntryOf(actions, n)
  }

  function ReadEntries(ls: Lister, actions: map<string, ActionFile>): seq<Entry> {
    Map(Filter(ls(actions.Keys), ReadableIn(actions)), AsEntry(actions))
  }

  function OutputSize(o: Output): int { o.size }

  function EntryBytes(e: Entry): int { Sum(e.outputs, OutputSize) }

  predicate SharedEntry(e: Entry) { STAGES[e.stage] in SHARED_STAGES }

  // ------------------------------------------------------------------ bakes

  function FileSize(files: map<string, Bytes>): string -> int {
    (n: string) => if n in files then |files[n]| else 0
  }

  function FilesOf(bakes: map<string, BakeDir>, d: string): map<string, Bytes> {
    if d in bakes then bakes[d].files else map[]
  }

  function BakeFilesIn(c: Cache, d: string): map<string, Bytes> { FilesOf(c.bakes, d) }

  function BakeNames(ls: Lister, dir: BakeDir): seq<string> {
    Filter(ls(dir.files.Keys), Visible)
  }

  function BakeSourceOf(ls: Lister, bakes: map<string, BakeDir>, d: string): BakeSource {
    if d in bakes then
      var names := BakeNames(ls, bakes[d]);
      BakeSource(d, names, bakes[d].mtime, Sum(names, FileSize(bakes[d].files)))
    else BakeSource(d, [], 0.0, 0)
  }

  function CompleteBake(bakes: map<string, BakeDir>): string -> bool {
    (d: string) => IsDigest(d) && d in bakes && BAKE_RECORD in bakes[d].files
  }

  function AsBakeSource(ls: Lister, bakes: map<string, BakeDir>): string -> BakeSource {
    (d: string) => BakeSourceOf(ls, bakes, d)
  }

  predicate NewerBake(a: BakeSource, b: BakeSource) { a.mtime >= b.mtime }

  /** The bakes an export can take: directories that have their record, sorted by falling
      time of that record. */
  function ReadBakes(ls: Lister, bakes: map<string, BakeDir>): seq<BakeSource> {
    Sort(Map(Filter(ls(bakes.Keys), CompleteBake(bakes)), AsBakeSource(ls, bakes)), NewerBake)
  }

  // ---------------------------------------------------------------- ThinLTO

  function AsThinSource(thin: map<string, ThinFile>): string -> ThinSource {
    (f: string) => if f in thin then ThinSource(f, |thin[f].content|, thin[f].mtime)
                   else ThinSource(f, 0, 0.0)
  }

  predicate NewerThin(a: ThinSource, b: ThinSource) { a.mtime >= b.mtime }

  function ReadThin(ls: Lister, thin: map<string, ThinFile>): seq<ThinSource> {
    Sort(Map(Filter(ls(thin.Keys), ThinListed), AsThinSource(thin)), NewerThin)
  }

  // -------------------------------------------------------------- admission

  /** First come, first served within a byte budget: every eligible item that still
      fits is taken, one that does not is passed over. */
  function Greedy<T>(items: seq<T>, ok: T -> bool, size: T -> int, bytes: int, max: int): (r: seq<T>) {
    if items == [] then []
    else
      var x := items[|items| - 1];
      var r := Greedy(items[..|items| - 1], ok, size, bytes, max);
      if ok(x) && bytes + Sum(r, size) + size(x) <= max then r + [x] else r
  }

  lemma {:induction false} GreedyStep<T>(items: seq<T>, i: nat, ok: T -> bool, size: T -> int, bytes: int, max: int)
    requires i < |items|
    ensures var r := Greedy(items[..i], ok, size, bytes, max);
      Greedy(items[..i + 1], ok, size, bytes, max) ==
      if ok(items[i]) && bytes + Sum(r, size) + size(items[i]) <= max then r + [items[i]] else r
  {
    assert items[..i + 1][..i] == items[..i];
  }

  predicate LeftToShared(o: Options, key: string, shared: bool) {
    && o.part.LinePart?
    && match o.without
       case Nothing => false
       case AllShared => shared
       case Keys(keys) => key in keys
  }

  predicate Used(o: Options, mtime: real) { o.usedSince.None? || mtime >= o.usedSince.value }

  function Wanted(o: Options): Entry -> bool {
    (e: Entry) => if o.part.SharedPart? then SharedEntry(e)
                  else !LeftToShared(o, e.manifest, SharedEntry(e))
  }

  predicate StageThenNewest(a: Entry, b: Entry) {
    a.stage < b.stage || (a.stage == b.stage && a.mtime >= b.mtime)
  }

  function Candidates(ls: Lister, root: Cache, o: Options): seq<Entry> {
    Sort(Filter(ReadEntries(ls, root.actions), Wanted(o)), StageThenNewest)
  }

  function Newest(entries: seq<Entry>): real {
    if entries == [] then 0.0
    else
      var m := Newest(entries[..|entries| - 1]);
      var x := entries[|entries| - 1].mtime;
      if x > m then x else m
  }

  /** Every output is in the blob store with the size it should have. */
  predicate Complete(blobs: map<string, Bytes>, e: Entry) {
    forall o :: o in e.outputs ==> o.digest in blobs && |blobs[o.digest]| == o.size
  }

  function Exportable(root: Cache, cutoff: real): Entry -> bool {
    (e: Entry) => e.mtime >= cutoff && Complete(root.blobs, e)
  }

  function UsedEntry(o: Options): Entry -> bool { (e: Entry) => Used(o, e.mtime) }
  function UnusedEntry(o: Options): Entry -> bool { (e: Entry) => !UsedEntry(o)(e) }

  function BakeKey(d: string): string { BAKES + "/" + d }

  function BakeCutoff(bakes: seq<BakeSource>): real {
    (if bakes == [] then 0.0 else bakes[0].mtime) - RETENTION_MS
  }

  function ThinCutoff(files: seq<ThinSource>): real {
    (if files == [] then 0.0 else files[0].mtime) - RETENTION_MS
  }

  function WantedBake(o: Options, cutoff: real): BakeSource -> bool {
    (b: BakeSource) =>
      && !LeftToShared(o, BakeKey(b.directory), true)
      && if o.part.LinePart? then Used(o, b.mtime) else b.mtime >= cutoff
  }

  function RecentThin(cutoff: real): ThinSource -> bool {
    (f: ThinSource) => f.mtime >= cutoff
  }

  function BakeBytes(b: BakeSource): int { b.size }
  function ThinBytes(f: ThinSource): int { f.size }

  /** What an export takes, in the order it takes it. */
  datatype Plan = Plan(bakes: seq<BakeSource>, used: seq<Entry>, thin: seq<ThinSource>, older: seq<Entry>)
  {
    function BakeTotal(): int { Sum(bakes, BakeBytes) }
    function UsedTotal(): int { Sum(used, EntryBytes) }
    function ThinTotal(): int { Sum(thin, ThinBytes) }
    function OlderTotal(): int { Sum(older, EntryBytes) }
    function Total(): int { BakeTotal() + UsedTotal() + ThinTotal() + OlderTotal() }
    function Entries(): seq<Entry> { used + older }
  }

  function TakeBakes(o: Options, all: seq<BakeSource>, bytes: int): seq<BakeSource> {
    Greedy(all, WantedBake(o, BakeCutoff(all)), BakeBytes, bytes, o.maxBytes)
  }

  function TakeActions(root: Cache, o: Options, selected: seq<Entry>, cutoff: real, bytes: int): seq<Entry> {
    Greedy(selected, Exportable(root, cutoff), EntryBytes, bytes, o.maxBytes)
  }

  function TakeThin(o: Options, all: seq<ThinSource>, bytes: int): seq<ThinSource> {
    Greedy(all, RecentThin(ThinCutoff(all)), ThinBytes, bytes, o.maxBytes)
  }

  function Spent(bakes: seq<BakeSource>, used: seq<Entry>, thin: seq<ThinSource>): int {
    Sum(bakes, BakeBytes) + Sum(used, EntryBytes) + Sum(thin, ThinBytes)
  }

  /** The plan, given what was read from the cache. */
  function PlanFrom(root: Cache, o: Options, allBakes: seq<BakeSource>, entries: seq<Entry>,
                    allThin: seq<ThinSource>): Plan
  {
    var cutoff := Newest(entries) - RETENTION_MS;
    var bakes := TakeBakes(o, allBakes, 0);
    var used := TakeActions(root, o, Filter(entries, UsedEntry(o)), cutoff, Spent(bakes, [], []));
    var thin := TakeThin(o, allThin, Spent(bakes, used, []));
    var older := TakeActions(root, o, Filter(entries, UnusedEntry(o)), cutoff, Spent(bakes, used, thin));
    Plan(bakes, used, thin, older)
  }

  /** A shared snapshot carries no ThinLTO entries. */
  function ThinCandidates(ls: Lister, root: Cache, o: Options): seq<ThinSource> {
    if o.part.LinePart? then ReadThin(ls, root.thinLto) else []
  }

  function PlanExport(ls: Lister, root: Cache, o: Options): Plan {
    PlanFrom(root, o, ReadBakes(ls, root.bakes), Candidates(ls, root, o), ThinCandidates(ls, root, o))
  }

  /** Milliseconds of `new Date(t)`: the fraction is dropped toward zero. */
  function Truncate(t: real): real {
    if t >= 0.0 then t.Floor as real else -((-t).Floor as real)
  }

  // ----------------------------------------------------------------- digest

  datatype Row = Row(key: string, rest: seq<string>)

  /** Order of strings by code units. */
  predicate LexLe(a: string, b: string) {
    a == "" || (b != "" && (a[0] < b[0] || (a[0] == b[0] && LexLe(a[1..], b[1..]))))
  }

  predicate RowLe(a: Row, b: Row) { LexLe(a.key, b.key) }

  function OutputDigest(o: Output): string { o.digest }
  function BakeFileDigest(f: BakeFile): string { f.digest }
  function EntryRow(e: Entry): Row { Row(e.manifest, Map(e.outputs, OutputDigest)) }
  function ThinRow(t: ThinEntry): Row { Row(t.file, [t.digest]) }
  function BakeRow(b: Bake): Row { Row(b.directory, Map(b.files, BakeFileDigest)) }

  /** The rows whose JSON is hashed into the snapshot digest. */
  function DigestRows(entries: seq<Entry>, thin: seq<ThinEntry>, bakes: seq<Bake>): seq<Row> {
    Sort(Map(entries, EntryRow), RowLe)
    + Sort(Map(thin, ThinRow), RowLe)
    + Sort(Map(bakes, BakeRow), RowLe)
  }
}
