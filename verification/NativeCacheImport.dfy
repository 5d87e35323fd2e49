/** `importSnapshot` (scripts/ci-native-cache.ts): publishing a snapshot into a cache,
    one file operation at a time, with a crash possible after each. */
module NativeCacheImport {
  import opened Sorting
  import opened NativeCache

  // ----------------------------------------------------------- verification

  predicate ValidBlob(sha: Bytes -> string, files: map<string, Bytes>, name: string, digest: string, size: int) {
    name in files && |files[name]| == size && sha(files[name]) == digest
  }

  predicate AllValid(sha: Bytes -> string, blobs: map<string, Bytes>, outputs: seq<Output>) {
    forall o :: o in outputs ==> ValidBlob(sha, blobs, o.digest, o.digest, o.size)
  }

  predicate BakeRowOk(b: Bake) {
    && IsDigest(b.directory)
    && (exists f :: f in b.files && f.name == BAKE_RECORD)
    && (forall f :: f in b.files ==> IsBakeFileName(f.name) && IsDigest(f.digest))
  }

  predicate ThinRowOk(t: ThinEntry) { IsThinName(t.file) && IsDigest(t.digest) }

  function SnapshotBakeFiles(s: Snapshot, d: string): map<string, Bytes> {
    if d in s.bakeFiles then s.bakeFiles[d] else map[]
  }

  predicate BakeValid(sha: Bytes -> string, s: Snapshot, b: Bake) {
    forall f :: f in b.files ==> ValidBlob(sha, SnapshotBakeFiles(s, b.directory), f.name, f.digest, f.size)
  }

  // ----------------------------------------------------------- the result

  function Fetched(sha: Bytes -> string, s: Snapshot, blobs: map<string, Bytes>, o: Output): map<string, Bytes> {
    if !ValidBlob(sha, blobs, o.digest, o.digest, o.size) && o.digest in s.blobs
    then blobs[o.digest := s.blobs[o.digest]] else blobs
  }

  function FetchBlobs(sha: Bytes -> string, s: Snapshot, blobs: map<string, Bytes>,
                      outputs: seq<Output>): map<string, Bytes>
  {
    if outputs == [] then blobs
    else Fetched(sha, s, FetchBlobs(sha, s, blobs, outputs[..|outputs| - 1]), outputs[|outputs| - 1])
  }

  function ImportEntry(sha: Bytes -> string, s: Snapshot, c: Cache, e: Entry): Cache {
    if AllValid(sha, s.blobs, e.outputs) then
      c.(blobs := FetchBlobs(sha, s, c.blobs, e.outputs),
         actions := c.actions[e.manifest := ActionFile(e.stage, Outputs(e.outputs), Truncate(e.mtime))])
    else c
  }

  function ImportEntries(sha: Bytes -> string, s: Snapshot, c: Cache, entries: seq<Entry>): Cache {
    if entries == [] then c
    else ImportEntry(sha, s, ImportEntries(sha, s, c, entries[..|entries| - 1]), entries[|entries| - 1])
  }

  function ImportThin(sha: Bytes -> string, s: Snapshot, c: Cache, t: ThinEntry): Cache {
    if ThinRowOk(t) && ValidBlob(sha, s.thinFiles, t.file, t.digest, t.size)
    then c.(thinLto := c.thinLto[t.file := ThinFile(s.thinFiles[t.file], Truncate(t.mtime))])
    else c
  }

  function ImportThins(sha: Bytes -> string, s: Snapshot, c: Cache, thin: seq<ThinEntry>): Cache {
    if thin == [] then c
    else ImportThin(sha, s, ImportThins(sha, s, c, thin[..|thin| - 1]), thin[|thin| - 1])
  }

  function CopyNamed(source: map<string, Bytes>, files: map<string, Bytes>, rows: seq<BakeFile>): map<string, Bytes> {
    if rows == [] then files
    else
      var f := rows[|rows| - 1];
      var m := CopyNamed(source, files, rows[..|rows| - 1]);
      if f.name in source then m[f.name := source[f.name]] else m
  }

  predicate IsRecord(f: BakeFile) { f.name == BAKE_RECORD }
  predicate NotRecord(f: BakeFile) { !IsRecord(f) }

  /** A bake counts as complete once it has its record, so the record is copied after
      everything else. */
  function RecordLast(files: seq<BakeFile>): seq<BakeFile> {
    Filter(files, NotRecord) + Filter(files, IsRecord)
  }

  function PutBakeDir(c: Cache, d: string, dir: BakeDir): Cache { c.(bakes := c.bakes[d := dir]) }

  predicate Copied(source: map<string, Bytes>, files: map<string, Bytes>, rows: seq<BakeFile>) {
    forall f :: f in rows ==> f.name in source && f.name in files && files[f.name] == source[f.name]
  }

  function ImportBake(sha: Bytes -> string, s: Snapshot, c: Cache, b: Bake): Cache {
    if BakeRowOk(b) && BakeValid(sha, s, b) then
      PutBakeDir(c, b.directory, BakeDir(
        CopyNamed(SnapshotBakeFiles(s, b.directory), BakeFilesIn(c, b.directory), RecordLast(b.files)),
        Truncate(b.mtime)))
    else c
  }

  function ImportBakes(sha: Bytes -> string, s: Snapshot, c: Cache, bakes: seq<Bake>): Cache {
    if bakes == [] then c
    else ImportBake(sha, s, ImportBakes(sha, s, c, bakes[..|bakes| - 1]), bakes[|bakes| - 1])
  }

  /** The cache after a whole import. */
  function Import(sha: Bytes -> string, ls: Lister, s: Snapshot, c: Cache): Cache {
    ImportBakes(sha, s, ImportThins(sha, s, ImportEntries(sha, s, c, ReadEntries(ls, s.actions)), s.thinLto), s.bakes)
  }

  // ------------------------------------------------- files and their temporaries

  /** One file of a cache: where it is and what it holds. */
  datatype File =
    | BlobFile(name: string, content: Bytes)
    | Manifest(name: string, action: ActionFile)
    | ThinLto(name: string, thin: ThinFile)
    | InBake(name: string, directory: string, content: Bytes, time: real)

  /** Whatever is at a place while a copy is under way. */
  predicate SamePlace(f: File, g: File) {
    && f.name == g.name
    && match f
       case BlobFile(_, _) => g.BlobFile?
       case Manifest(_, _) => g.Manifest?
       case ThinLto(_, _) => g.ThinLto?
       case InBake(_, d, _, _) => g.InBake? && g.directory == d
  }

  function BakeTime(bakes: map<string, BakeDir>, f: File): real
    requires f.InBake?
  {
    if f.name == BAKE_RECORD || f.directory !in bakes then f.time else bakes[f.directory].mtime
  }

  function Put(c: Cache, f: File): Cache {
    match f
    case BlobFile(name, content) => c.(blobs := c.blobs[name := content])
    case Manifest(name, action) => c.(actions := c.actions[name := action])
    case ThinLto(name, thin) => c.(thinLto := c.thinLto[name := thin])
    case InBake(name, d, content, _) =>
      PutBakeDir(c, d, BakeDir(FilesOf(c.bakes, d)[name := content], BakeTime(c.bakes, f)))
  }

  /** The cache without the file at the place of `f`. */
  function Remove(c: Cache, f: File): Cache {
    match f
    case BlobFile(name, _) => c.(blobs := c.blobs - {name})
    case Manifest(name, _) => c.(actions := c.actions - {name})
    case ThinLto(name, _) => c.(thinLto := c.thinLto - {name})
    case InBake(name, d, _, _) =>
      if d in c.bakes then PutBakeDir(c, d, c.bakes[d].(files := c.bakes[d].files - {name})) else c
  }

  /** The directory of a bake is made with its first file. */
  function Made(c: Cache, f: File): Cache {
    if f.InBake? && f.directory !in c.bakes then PutBakeDir(c, f.directory, BakeDir(map[], f.time)) else c
  }

  predicate Ready(c: Cache, f: File) { f.InBake? ==> f.directory in c.bakes }

  /** `<pid>-<uuid>`. */
  predicate IsTag(tag: string) {
    '-' in tag && forall i :: 0 <= i < |tag| ==> tag[i] in "0123456789abcdef-"
  }

  function TemporaryName(name: string, tag: string): string { name + "." + tag }

  /** The temporary file a copy to the place of `f` goes through. */
  function Aside(f: File, tag: string): File { f.(name := TemporaryName(f.name, tag)) }

  predicate EndsIn(name: string, tag: string) {
    |name| > |tag| && name[|name| - |tag| - 1..] == "." + tag
  }

  /** A temporary of this run, whose copies have the tags `tags(0)`, `tags(1)`, … */
  ghost predicate Temporary(tags: nat -> string, name: string) { exists k :: EndsIn(name, tags(k)) }

  ghost predicate NoneTemporary(tags: nat -> string, names: set<string>) {
    forall n :: n in names ==> !Temporary(tags, n)
  }

  /** No temporary of this run in the cache. */
  ghost predicate Clean(tags: nat -> string, c: Cache) {
    && NoneTemporary(tags, c.actions.Keys) && NoneTemporary(tags, c.blobs.Keys) && NoneTemporary(tags, c.thinLto.Keys)
    && CleanBakes(tags, c.bakes)
  }

  ghost predicate CleanBakes(tags: nat -> string, bakes: map<string, BakeDir>) {
    forall d :: d in bakes ==> NoneTemporary(tags, bakes[d].files.Keys)
  }

  /** At most one temporary of this run in the cache. */
  ghost predicate OneTemporary(tags: nat -> string, c: Cache) {
    Clean(tags, c) || exists f :: Clean(tags, Remove(c, f))
  }

  /** An import: the hash, the snapshot, the tags of its temporaries and the cache it
      starts from. */
  datatype Job = Job(sha: Bytes -> string, s: Snapshot, tags: nat -> string, start: Cache)

  /** The tags are new: no file of the cache or of a bake in the snapshot ends in one. */
  ghost predicate Fresh(job: Job) {
    && (forall k :: IsTag(job.tags(k)))
    && Clean(job.tags, job.start)
    && forall b, f :: b in job.s.bakes && f in b.files ==> !Temporary(job.tags, f.name)
  }

  lemma {:induction false} TemporaryEnds(tags: nat -> string, name: string, k: nat)
    ensures EndsIn(TemporaryName(name, tags(k)), tags(k)) && Temporary(tags, TemporaryName(name, tags(k)))
  {
    var t := TemporaryName(name, tags(k));
    assert t[|name|..] == "." + tags(k);
  }

  lemma {:induction false} ThinNameHasNoDot(name: string, i: nat)
    requires IsThinName(name) && i < |name|
    ensures name[i] != '.'
  {
    var k :| 0 < k < |name| && ThinSplit(name, k);
    if i < k {
      assert name[..k][i] == name[i];
    } else if k < i < k + 11 {
      assert name[k + 1..k + 11][i - k - 1] == name[i];
    }
  }

  /** A temporary is never listed as a manifest, never looked up as a blob and never the
      record of a bake, and no import accepts its name for a ThinLTO entry. The listing of
      ThinLTO files for an export does take it. */
  lemma {:induction false} NotTaken(name: string, tag: string)
    requires EndsIn(name, tag) && IsTag(tag)
    ensures !IsManifest(name) && !IsDigest(name) && !IsThinName(name) && name != BAKE_RECORD
  {
    var dot := |name| - |tag| - 1;
    var end := name[dot..];
    assert name[dot] == end[0] == '.';
    var k :| 0 <= k < |tag| && tag[k] == '-';
    assert name[dot + 1 + k] == end[1 + k] == '-';
    assert name[|name| - 1] == end[|tag|] == tag[|tag| - 1];
    if IsThinName(name) { ThinNameHasNoDot(name, dot); }
  }

  lemma {:induction false} NamesClean(tags: nat -> string, n: string)
    requires (forall k :: IsTag(tags(k))) && (IsDigest(n) || IsThinName(n) || IsManifest(n))
    ensures !Temporary(tags, n)
  {
    if k :| EndsIn(n, tags(k)) {
      NotTaken(n, tags(k));
      assert false;
    }
  }

  // ------------------------------------------------------------ file operations

  datatype Operation =
    | MakeDirectory(file: File)
    | WriteTemporary(file: File)
    | Rename(from: File, file: File)
    | RemoveTemporary(file: File)
    | SetTime(file: File)

  function Apply(c: Cache, op: Operation): Cache {
    match op
    case MakeDirectory(f) => Made(c, f)
    case WriteTemporary(f) => Put(c, f)
    case Rename(from, f) => Put(Remove(c, from), f)
    case RemoveTemporary(f) => Remove(c, f)
    case SetTime(f) => if f.InBake? then Touched(c, f.directory, f.time) else Put(c, f)
  }

  function Touched(c: Cache, d: string, mtime: real): Cache { PutBakeDir(c, d, BakeDir(FilesOf(c.bakes, d), mtime)) }

  /** The file is there, whatever its time. */
  predicate Holds(c: Cache, f: File) {
    match f
    case BlobFile(name, content) => name in c.blobs && c.blobs[name] == content
    case Manifest(name, action) => name in c.actions && c.actions[name] == action.(mtime := c.actions[name].mtime)
    case ThinLto(name, thin) => name in c.thinLto && c.thinLto[name].content == thin.content
    case InBake(name, d, content, _) => name in FilesOf(c.bakes, d) && FilesOf(c.bakes, d)[name] == content
  }

  /** Only temporaries are ever written or removed; a published name changes by having a
      temporary renamed to it, and its time by itself. */
  ghost predicate Allowed(tags: nat -> string, c: Cache, op: Operation) {
    match op
    case MakeDirectory(_) => true
    case WriteTemporary(f) => Temporary(tags, f.name) && Ready(c, f)
    case Rename(from, f) => Temporary(tags, from.name) && Holds(c, from) && f == from.(name := f.name)
    case RemoveTemporary(f) => Temporary(tags, f.name)
    case SetTime(f) => Holds(c, f)
  }

  ghost predicate Operated(tags: nat -> string, c: Cache, c': Cache) {
    exists op :: Allowed(tags, c, op) && c' == Apply(c, op)
  }

  // --------------------------------------------------- safety of every step

  /** A manifest is as it was before the import, or it is the snapshot's and every
      output it names is in the blob store, verified. */
  ghost predicate SafeActions(job: Job, actions: map<string, ActionFile>, blobs: map<string, Bytes>) {
    forall m :: m in actions && IsManifest(m) ==>
      || (m in job.start.actions && actions[m] == job.start.actions[m])
      || (m in job.s.actions && actions[m].json == job.s.actions[m].json && Published(job, blobs, actions[m]))
  }

  ghost predicate Published(job: Job, blobs: map<string, Bytes>, action: ActionFile) {
    && Readable(action)
    && AllValid(job.sha, job.s.blobs, action.json.outputs)
    && AllValid(job.sha, blobs, action.json.outputs)
  }

  /** A blob is as it was or matches its digest, and one that matched before still does. */
  ghost predicate SafeBlobs(job: Job, blobs: map<string, Bytes>) {
    && (forall d :: d in blobs && IsDigest(d) ==>
          (d in job.start.blobs && blobs[d] == job.start.blobs[d]) || job.sha(blobs[d]) == d)
    && (forall d :: d in job.start.blobs && IsDigest(d) && job.sha(job.start.blobs[d]) == d ==>
          d in blobs && job.sha(blobs[d]) == d)
  }

  ghost predicate InPlace(job: Job, files: map<string, Bytes>, b: Bake) {
    forall f :: f in b.files ==>
      && ValidBlob(job.sha, files, f.name, f.digest, f.size)
      && f.name in SnapshotBakeFiles(job.s, b.directory)
      && files[f.name] == SnapshotBakeFiles(job.s, b.directory)[f.name]
  }

  ghost predicate SomeRowInPlace(job: Job, d: string, files: map<string, Bytes>) {
    exists b :: b in job.s.bakes && b.directory == d && BakeRowOk(b) && InPlace(job, files, b)
  }

  /** The content of a file in some row for directory `d`. */
  ghost predicate InSomeRow(job: Job, d: string, n: string, content: Bytes) {
    exists b, f :: b in job.s.bakes && b.directory == d && f in b.files
      && f.name == n && f.size == |content| && f.digest == job.sha(content)
  }

  /** A bake directory without a record before the import has one only when every file of
      one of its rows is in place, verified; no file disappears; and apart from temporaries
      every file is as it was or verified against a row. */
  ghost predicate SafeBake(job: Job, d: string, files: map<string, Bytes>) {
    && (BAKE_RECORD !in FilesOf(job.start.bakes, d) && BAKE_RECORD in files ==> SomeRowInPlace(job, d, files))
    && (forall n :: n in FilesOf(job.start.bakes, d) ==> n in files)
    && forall n :: n in files && !Temporary(job.tags, n) ==>
        || (n in FilesOf(job.start.bakes, d) && files[n] == FilesOf(job.start.bakes, d)[n])
        || InSomeRow(job, d, n, files[n])
  }

  ghost predicate SafeBakes(job: Job, bakes: map<string, BakeDir>) {
    && (forall d :: d in bakes ==> SafeBake(job, d, bakes[d].files))
    && (forall d :: d in job.start.bakes ==> d in bakes)
  }

  /** Apart from temporaries every ThinLTO file is as it was, or verified against a row of
      the snapshot. */
  ghost predicate SafeThin(job: Job, thin: map<string, ThinFile>) {
    forall f :: f in thin && !Temporary(job.tags, f) ==>
      || (f in job.start.thinLto && thin[f] == job.start.thinLto[f])
      || exists t ::
           t in job.s.thinLto && t.file == f && |thin[f].content| == t.size && job.sha(thin[f].content) == t.digest
  }

  /** What the readers of the cache find is as it was or verified. */
  ghost predicate Safe(job: Job, c: Cache) {
    && SafeActions(job, c.actions, c.blobs) && SafeBlobs(job, c.blobs)
    && SafeBakes(job, c.bakes) && SafeThin(job, c.thinLto)
  }

  /** Safe, and no copy is under way. */
  ghost predicate AtRest(job: Job, c: Cache) { Safe(job, c) && Clean(job.tags, c) }

  /** Safe, whatever copy is under way. */
  ghost predicate Crashed(job: Job, c: Cache) { Safe(job, c) && OneTemporary(job.tags, c) }

  // ----------------------------------------------------------- one copy

  predicate Free(c: Cache, f: File) {
    match f
    case BlobFile(name, _) => name !in c.blobs
    case Manifest(name, _) => name !in c.actions
    case ThinLto(name, _) => name !in c.thinLto
    case InBake(name, d, _, _) => name !in FilesOf(c.bakes, d)
  }

  lemma {:induction false} PutThenRemove(c: Cache, f: File)
    requires Ready(c, f) && Free(c, f) && f.name != BAKE_RECORD
    ensures Remove(Put(c, f), f) == c
  {
    if f.InBake? { assert c.bakes[f.directory].files[f.name := f.content] - {f.name} == c.bakes[f.directory].files; }
  }

  lemma {:induction false} RemoveFree(c: Cache, f: File)
    requires Free(c, f)
    ensures Remove(c, f) == c
  {
    if f.InBake? && f.directory in c.bakes {
      assert c.bakes[f.directory].files - {f.name} == c.bakes[f.directory].files;
    }
  }

  lemma {:induction false} PutTwice(c: Cache, f: File, g: File)
    requires SamePlace(f, g) && !g.InBake?
    ensures Put(Put(c, f), g) == Put(c, g)
  {
  }

  /** Writing a temporary again. */
  lemma {:induction false} PutOver(c: Cache, f: File, g: File)
    requires SamePlace(f, g) && f.name == g.name && f.name != BAKE_RECORD && Ready(c, f) && Ready(c, g)
    ensures Put(Put(c, f), g) == Put(c, g) && Ready(Put(c, f), g)
  {
    if g.InBake? {
      var dir := c.bakes[g.directory];
      assert Put(c, f).bakes[g.directory] == dir.(files := dir.files[f.name := f.content]);
      assert dir.files[f.name := f.content][g.name := g.content] == dir.files[g.name := g.content];
    } else {
      PutTwice(c, f, g);
    }
  }

  lemma {:induction false} TemporaryFree(tags: nat -> string, c: Cache, f: File)
    requires Clean(tags, c) && Temporary(tags, f.name)
    ensures Free(c, f)
  {
    match f {
      case BlobFile(name, _) => assert name in c.blobs <==> name in c.blobs.Keys;
      case Manifest(name, _) => assert name in c.actions <==> name in c.actions.Keys;
      case ThinLto(name, _) => assert name in c.thinLto <==> name in c.thinLto.Keys;
      case InBake(_, d, _, _) => assert d in c.bakes ==> NoneTemporary(tags, c.bakes[d].files.Keys);
    }
  }

  lemma {:induction false} MadeAtRest(job: Job, c: Cache, f: File)
    requires AtRest(job, c)
    ensures AtRest(job, Made(c, f))
  {
    if f.InBake? && f.directory !in c.bakes {
      var bakes := c.bakes[f.directory := BakeDir(map[], f.time)];
      forall d | d in bakes ensures SafeBake(job, d, bakes[d].files) { }
      forall d | d in bakes ensures NoneTemporary(job.tags, bakes[d].files.Keys) { }
    }
  }

  lemma {:induction false} MadeThenPut(c: Cache, f: File)
    ensures Ready(Made(c, f), f) && Put(Made(c, f), f) == Put(c, f)
  {
  }

  /** A temporary beside the files of a bake leaves it as safe as it was. */
  lemma {:induction false} BesideInBake(job: Job, d: string, files: map<string, Bytes>, n: string, content: Bytes)
    requires SafeBake(job, d, files) && Temporary(job.tags, n) && n != BAKE_RECORD && n !in files
    ensures SafeBake(job, d, files[n := content])
  {
    if SomeRowInPlace(job, d, files) {
      var b :| b in job.s.bakes && b.directory == d && BakeRowOk(b) && InPlace(job, files, b);
      assert InPlace(job, files[n := content], b);
    }
  }

  lemma {:induction false} BesideBlobs(job: Job, c: Cache, n: string, content: Bytes)
    requires SafeActions(job, c.actions, c.blobs) && SafeBlobs(job, c.blobs) && !IsDigest(n)
    ensures SafeActions(job, c.actions, c.blobs[n := content]) && SafeBlobs(job, c.blobs[n := content])
  {
    forall action | Published(job, c.blobs, action) ensures Published(job, c.blobs[n := content], action) {
      forall o | o in action.json.outputs
        ensures ValidBlob(job.sha, c.blobs[n := content], o.digest, o.digest, o.size)
      {
        assert ValidBlob(job.sha, c.blobs, o.digest, o.digest, o.size) && IsDigest(o.digest);
      }
    }
  }

  /** Whatever a temporary holds, the cache beside it is as safe as it was. */
  lemma {:induction false} BesideSafe(job: Job, c: Cache, f: File, k: nat)
    requires AtRest(job, c) && Ready(c, f) && IsTag(job.tags(k)) && EndsIn(f.name, job.tags(k))
    ensures Crashed(job, Put(c, f)) && Remove(Put(c, f), f) == c
    ensures Allowed(job.tags, c, WriteTemporary(f)) && f.name != BAKE_RECORD
  {
    NotTaken(f.name, job.tags(k));
    assert Temporary(job.tags, f.name);
    TemporaryFree(job.tags, c, f);
    PutThenRemove(c, f);
    match f {
      case BlobFile(n, content) => BesideBlobs(job, c, n, content);
      case InBake(n, d, content, _) => BesideInBake(job, d, c.bakes[d].files, n, content);
      case _ =>
    }
  }

  /** A temporary that holds something, then the whole file. */
  lemma {:induction false} FilledAside(job: Job, c: Cache, partial: File, aside: File, k: nat)
    requires Fresh(job) && AtRest(job, c) && SamePlace(partial, aside) && partial.name == aside.name
    requires Ready(c, partial) && Ready(c, aside) && EndsIn(aside.name, job.tags(k))
    ensures Allowed(job.tags, c, WriteTemporary(partial)) && Crashed(job, Put(c, partial))
    ensures var c' := Put(c, partial);
      Allowed(job.tags, c', WriteTemporary(aside)) && Put(c', aside) == Put(c, aside)
    ensures Crashed(job, Put(c, aside)) && Remove(Put(c, aside), aside) == c
  {
    BesideSafe(job, c, partial, k);
    BesideSafe(job, c, aside, k);
    PutOver(c, partial, aside);
  }

  /** The temporary takes the name of the file and is gone. */
  lemma {:induction false} RenamedAside(job: Job, c: Cache, f: File, aside: File)
    requires AtRest(job, c) && AtRest(job, Put(c, f)) && Ready(c, f)
    requires aside == f.(name := aside.name) && Temporary(job.tags, aside.name)
    requires Remove(Put(c, aside), aside) == c
    ensures Allowed(job.tags, Put(c, aside), Rename(aside, f)) && Apply(Put(c, aside), Rename(aside, f)) == Put(c, f)
    ensures Allowed(job.tags, Put(c, f), RemoveTemporary(aside))
    ensures Apply(Put(c, f), RemoveTemporary(aside)) == Put(c, f)
  {
    TemporaryFree(job.tags, Put(c, f), aside);
    RemoveFree(Put(c, f), aside);
  }

  ghost function Latest(job: Job, steps: seq<Cache>): Cache {
    if steps == [] then job.start else steps[|steps| - 1]
  }

  /** One operation after the other from the start, and every state a crash could have left
      is safe and holds at most one temporary. */
  ghost predicate Trace(job: Job, steps: seq<Cache>) {
    steps == [] ||
      var before, c := steps[..|steps| - 1], steps[|steps| - 1];
      Trace(job, before) && Operated(job.tags, Latest(job, before), c) && Crashed(job, c)
  }

  lemma {:induction false} TraceMore(job: Job, steps: seq<Cache>, c: Cache, op: Operation)
    requires Trace(job, steps) && Crashed(job, c)
    requires Allowed(job.tags, Latest(job, steps), op) && c == Apply(Latest(job, steps), op)
    ensures Trace(job, steps + [c]) && Latest(job, steps + [c]) == c
  {
    assert (steps + [c])[..|steps|] == steps;
  }

  lemma {:induction false} TraceAt(job: Job, steps: seq<Cache>, i: nat)
    requires Trace(job, steps) && i < |steps|
    ensures Operated(job.tags, Latest(job, steps[..i]), steps[i]) && Safe(job, steps[i])
    ensures OneTemporary(job.tags, steps[i])
  {
    if i < |steps| - 1 {
      TraceAt(job, steps[..|steps| - 1], i);
      assert steps[..|steps| - 1][..i] == steps[..i];
    }
  }

  /** What a copy of `f` leaves after each of its operations: the directory is made, the
      temporary holds something and then the whole file, it is renamed, it is gone. */
  ghost function CopyStates(c: Cache, f: File, partial: File, tag: string): seq<Cache> {
    var made := Made(c, f);
    [made, Put(made, partial), Put(made, Aside(f, tag)), Put(c, f), Put(c, f)]
  }

  lemma {:induction false} StatesInOrder(steps: seq<Cache>, c: Cache, f: File, partial: File, tag: string)
    ensures var made, done := Made(c, f), Put(c, f);
      steps + [made] + [Put(made, partial), Put(made, Aside(f, tag))] + [done, done]
      == steps + CopyStates(c, f, partial, tag)
  {
  }

  /** A cache directory; `steps` records its contents after every file operation. */
  class CacheDirectory {
    var cache: Cache
    var copies: nat
    ghost var steps: seq<Cache>

    ghost predicate StepsSafe(job: Job)
      reads this
    {
      Trace(job, steps) && cache == Latest(job, steps)
    }

    ghost predicate AllSafe(job: Job)
      reads this
    {
      Fresh(job) && StepsSafe(job) && AtRest(job, cache)
    }

    constructor (initial: Cache)
      ensures cache == initial && steps == []
    {
      cache, copies, steps := initial, 0, [];
    }

    method Perform(op: Operation, ghost job: Job)
      requires StepsSafe(job) && Allowed(job.tags, cache, op) && Crashed(job, Apply(cache, op))
      modifies this`cache, this`steps
      ensures StepsSafe(job) && cache == Apply(old(cache), op) && steps == old(steps) + [cache]
    {
      TraceMore(job, steps, Apply(cache, op), op);
      cache := Apply(cache, op);
      steps := steps + [cache];
    }

    /** The copy into the temporary: it holds anything before it holds the whole file. */
    method CopyAside(aside: File, ghost job: Job) returns (partial: File)
      requires AllSafe(job) && Ready(cache, aside) && EndsIn(aside.name, job.tags(copies))
      modifies this`cache, this`steps
      ensures StepsSafe(job) && cache == Put(old(cache), aside) && Remove(cache, aside) == old(cache)
      ensures SamePlace(partial, aside) && steps == old(steps) + [Put(old(cache), partial), Put(old(cache), aside)]
    {
      assert SamePlace(aside, aside);
      var torn: File :| SamePlace(torn, aside) && torn.name == aside.name && Ready(cache, torn);
      partial := torn;
      FilledAside(job, cache, partial, aside, copies);
      Perform(WriteTemporary(partial), job);
      Perform(WriteTemporary(aside), job);
    }

    /** A copy by way of a temporary: filled, renamed, and removed if it is still there. */
    method CopyAtomically(f: File, job: Job) returns (ghost partial: File)
      requires AllSafe(job) && AtRest(job, Put(cache, f))
      modifies this
      ensures AllSafe(job) && cache == Put(old(cache), f)
      ensures SamePlace(partial, Aside(f, job.tags(old(copies))))
      ensures steps == old(steps) + CopyStates(old(cache), f, partial, job.tags(old(copies)))
    {
      var aside := Aside(f, job.tags(copies));
      TemporaryEnds(job.tags, f.name, copies);
      MadeAtRest(job, cache, f);
      MadeThenPut(cache, f);
      Perform(MakeDirectory(f), job);
      ghost var made := cache;
      partial := CopyAside(aside, job);
      RenameAside(made, f, aside, job);
      StatesInOrder(old(steps), old(cache), f, partial, job.tags(copies));
      copies := copies + 1;
    }

    /** The temporary becomes the file; removing it then finds nothing. */
    method RenameAside(ghost made: Cache, f: File, aside: File, ghost job: Job)
      requires StepsSafe(job) && Fresh(job) && AtRest(job, made) && AtRest(job, Put(made, f)) && Ready(made, f)
      requires aside == f.(name := aside.name) && Temporary(job.tags, aside.name)
      requires cache == Put(made, aside) && Remove(cache, aside) == made
      modifies this`cache, this`steps
      ensures AllSafe(job) && cache == Put(made, f) && steps == old(steps) + [cache, cache]
    {
      RenamedAside(job, made, f, aside);
      Perform(Rename(aside, f), job);
      Perform(RemoveTemporary(aside), job);
    }

    method CopyFile(f: File, job: Job)
      requires AllSafe(job) && AtRest(job, Put(cache, f))
      modifies this
      ensures AllSafe(job) && old(steps) <= steps && cache == Put(old(cache), f)
    {
      ghost var partial := CopyAtomically(f, job);
    }

    /** A copy, then the file's time is set. */
    method Publish(f: File, touched: File, job: Job)
      requires AllSafe(job) && AtRest(job, Put(cache, f)) && AtRest(job, Put(cache, touched))
      requires SamePlace(f, touched) && !f.InBake? && Holds(Put(cache, f), touched)
      modifies this
      ensures AllSafe(job) && old(steps) <= steps && cache == Put(old(cache), touched)
    {
      PutTwice(cache, f, touched);
      CopyFile(f, job);
      Perform(SetTime(touched), job);
    }

    method CopyOutput(job: Job, o: Output, ghost done: seq<Output>)
      requires AllSafe(job) && IsDigest(o.digest) && ValidBlob(job.sha, job.s.blobs, o.digest, o.digest, o.size)
      requires AllValid(job.sha, job.s.blobs, done) && AllValid(job.sha, cache.blobs, done)
      modifies this
      ensures AllSafe(job) && old(steps) <= steps
      ensures cache == old(cache).(blobs := Fetched(job.sha, job.s, old(cache).blobs, o))
      ensures AllValid(job.sha, cache.blobs, done + [o])
    {
      if !ValidBlob(job.sha, cache.blobs, o.digest, o.digest, o.size) {
        BlobWriteSafe(job, cache, o, done);
        CopyFile(BlobFile(o.digest, job.s.blobs[o.digest]), job);
      }
    }

    method CopyOutputs(job: Job, outputs: seq<Output>)
      requires AllSafe(job) && AllValid(job.sha, job.s.blobs, outputs)
      requires forall o :: o in outputs ==> IsDigest(o.digest)
      modifies this
      ensures AllSafe(job) && old(steps) <= steps
      ensures cache == old(cache).(blobs := FetchBlobs(job.sha, job.s, old(cache).blobs, outputs))
      ensures AllValid(job.sha, cache.blobs, outputs)
    {
      for i := 0 to |outputs|
        invariant AllSafe(job) && old(steps) <= steps
        invariant cache == old(cache).(blobs := FetchBlobs(job.sha, job.s, old(cache).blobs, outputs[..i]))
        invariant AllValid(job.sha, cache.blobs, outputs[..i])
      {
        assert outputs[..i + 1] == outputs[..i] + [outputs[i]] && outputs[i] in outputs;
        FetchOne(job, old(cache).blobs, outputs, i);
        CopyOutput(job, outputs[i], outputs[..i]);
      }
      assert outputs[..|outputs|] == outputs;
    }

    method ImportAction(job: Job, e: Entry, now: real)
      requires AllSafe(job) && FromSnapshot(job.s, e)
      modifies this
      ensures AllSafe(job) && old(steps) <= steps
      ensures cache == ImportEntry(job.sha, job.s, old(cache), e)
    {
      if !AllValid(job.sha, job.s.blobs, e.outputs) { return; }
      CopyOutputs(job, e.outputs);
      var copied := ActionFile(e.stage, Outputs(e.outputs), now);
      var touched := ActionFile(e.stage, Outputs(e.outputs), Truncate(e.mtime));
      ManifestWriteSafe(job, cache, e.manifest, copied);
      ManifestWriteSafe(job, cache, e.manifest, touched);
      Publish(Manifest(e.manifest, copied), Manifest(e.manifest, touched), job);
    }

    method ImportThinLto(job: Job, t: ThinEntry, now: real)
      requires AllSafe(job) && t in job.s.thinLto
      modifies this
      ensures AllSafe(job) && old(steps) <= steps
      ensures cache == ImportThin(job.sha, job.s, old(cache), t)
    {
      if !ThinRowOk(t) || !ValidBlob(job.sha, job.s.thinFiles, t.file, t.digest, t.size) { return; }
      var content := job.s.thinFiles[t.file];
      ThinWriteSafe(job, cache, t, ThinFile(content, now));
      ThinWriteSafe(job, cache, t, ThinFile(content, Truncate(t.mtime)));
      Publish(ThinLto(t.file, ThinFile(content, now)), ThinLto(t.file, ThinFile(content, Truncate(t.mtime))), job);
    }

    method CopyBakeFile(job: Job, b: Bake, ordered: seq<BakeFile>, i: nat, now: real)
      requires AllSafe(job) && i < |ordered| && Copying(job, b, ordered, i, FilesOf(cache.bakes, b.directory))
      modifies this
      ensures AllSafe(job) && old(steps) <= steps
      ensures OnlyBake(old(cache), cache, b.directory)
      ensures ordered[i].name in SnapshotBakeFiles(job.s, b.directory)
      ensures FilesOf(cache.bakes, b.directory)
           == WithFile(job.s, b.directory, FilesOf(old(cache).bakes, b.directory), ordered[i])
      ensures Copying(job, b, ordered, i + 1, FilesOf(cache.bakes, b.directory))
    {
      CopyingMore(job, b, ordered, i, FilesOf(cache.bakes, b.directory));
      var name := ordered[i].name;
      var f := InBake(name, b.directory, SnapshotBakeFiles(job.s, b.directory)[name], now);
      BakeWriteSafe(job, cache, b, ordered, i, f);
      CopyFile(f, job);
    }

    /** The files after the first, which has made the directory. */
    method CopyOtherFiles(job: Job, b: Bake, ordered: seq<BakeFile>, now: real)
      requires AllSafe(job) && |ordered| > 0 && b.directory in cache.bakes
      requires Copying(job, b, ordered, 1, FilesOf(cache.bakes, b.directory))
      modifies this
      ensures AllSafe(job) && old(steps) <= steps
      ensures OnlyBake(old(cache), cache, b.directory)
      ensures FilesOf(cache.bakes, b.directory)
           == WithFiles(job.s, b.directory, FilesOf(old(cache).bakes, b.directory), ordered[1..])
    {
      for i := 1 to |ordered|
        invariant AllSafe(job) && old(steps) <= steps
        invariant OnlyBake(old(cache), cache, b.directory)
        invariant Copying(job, b, ordered, i, FilesOf(cache.bakes, b.directory))
        invariant WithFiles(job.s, b.directory, FilesOf(cache.bakes, b.directory), ordered[i..])
               == WithFiles(job.s, b.directory, FilesOf(old(cache).bakes, b.directory), ordered[1..])
      {
        assert ordered[i..][0] == ordered[i] && ordered[i..][1..] == ordered[i + 1..];
        ghost var before := cache;
        CopyBakeFile(job, b, ordered, i, now);
        OnlyBakeTwice(old(cache), before, cache, b.directory);
      }
    }

    method CopyBakeFiles(job: Job, b: Bake, now: real)
      requires AllSafe(job) && b in job.s.bakes && BakeRowOk(b) && BakeValid(job.sha, job.s, b)
      modifies this
      ensures AllSafe(job) && old(steps) <= steps
      ensures OnlyBake(old(cache), cache, b.directory)
      ensures FilesOf(cache.bakes, b.directory)
           == CopyNamed(SnapshotBakeFiles(job.s, b.directory), FilesOf(old(cache).bakes, b.directory),
                        RecordLast(b.files))
    {
      var ordered := RecordLast(b.files);
      CopyingStarts(job, b, FilesOf(cache.bakes, b.directory));
      CopyBakeFile(job, b, ordered, 0, now);
      ghost var first := cache;
      CopyOtherFiles(job, b, ordered, now);
      OnlyBakeTwice(old(cache), first, cache, b.directory);
      NamedAll(job, b, FilesOf(old(cache).bakes, b.directory), ordered);
    }

    method TouchRecord(job: Job, d: string, mtime: real)
      requires AllSafe(job) && d in cache.bakes && BAKE_RECORD in cache.bakes[d].files
      modifies this
      ensures AllSafe(job) && old(steps) <= steps
      ensures cache == PutBakeDir(old(cache), d, BakeDir(old(cache).bakes[d].files, mtime))
    {
      BakeTouchSafe(job, cache, d, mtime);
      Perform(SetTime(InBake(BAKE_RECORD, d, cache.bakes[d].files[BAKE_RECORD], mtime)), job);
    }

    method ImportCompilerBake(job: Job, b: Bake, now: real)
      requires AllSafe(job) && b in job.s.bakes
      modifies this
      ensures AllSafe(job) && old(steps) <= steps
      ensures cache == ImportBake(job.sha, job.s, old(cache), b)
    {
      if !BakeRowOk(b) || !BakeValid(job.sha, job.s, b) { return; }
      CopyBakeFiles(job, b, now);
      RecordThere(job, b, FilesOf(old(cache).bakes, b.directory));
      BakeImported(job, old(cache), cache, b);
      TouchRecord(job, b.directory, Truncate(b.mtime));
    }

    method ImportActions(job: Job, entries: seq<Entry>, now: real)
      requires AllSafe(job)
      requires forall e :: e in entries ==> FromSnapshot(job.s, e)
      modifies this
      ensures AllSafe(job) && old(steps) <= steps
      ensures cache == ImportEntries(job.sha, job.s, old(cache), entries)
    {
      for i := 0 to |entries|
        invariant AllSafe(job) && old(steps) <= steps
        invariant cache == ImportEntries(job.sha, job.s, old(cache), entries[..i])
      {
        assert entries[..i + 1][..i] == entries[..i];
        ImportAction(job, entries[i], now);
      }
      assert entries[..|entries|] == entries;
    }

    method ImportThinLtos(job: Job, now: real)
      requires AllSafe(job)
      modifies this
      ensures AllSafe(job) && old(steps) <= steps
      ensures cache == ImportThins(job.sha, job.s, old(cache), job.s.thinLto)
    {
      var rows := job.s.thinLto;
      for i := 0 to |rows|
        invariant AllSafe(job) && old(steps) <= steps
        invariant cache == ImportThins(job.sha, job.s, old(cache), rows[..i])
      {
        assert rows[..i + 1][..i] == rows[..i];
        ImportThinLto(job, rows[i], now);
      }
      assert rows[..|rows|] == rows;
    }

    method ImportCompilerBakes(job: Job, now: real)
      requires AllSafe(job)
      modifies this
      ensures AllSafe(job) && old(steps) <= steps
      ensures cache == ImportBakes(job.sha, job.s, old(cache), job.s.bakes)
    {
      var rows := job.s.bakes;
      for i := 0 to |rows|
        invariant AllSafe(job) && old(steps) <= steps
        invariant cache == ImportBakes(job.sha, job.s, old(cache), rows[..i])
      {
        assert rows[..i + 1][..i] == rows[..i];
        ImportCompilerBake(job, rows[i], now);
      }
      assert rows[..|rows|] == rows;
    }

    /** Whatever the snapshot holds, a crash after any file operation leaves a cache that
        is safe to read, with at most one temporary file in it; an import that is not
        interrupted leaves none. */
    method ImportSnapshot(ls: Lister, job: Job, now: real)
      requires steps == [] && Fresh(job) && cache == job.start
      modifies this
      ensures cache == Import(job.sha, ls, job.s, old(cache)) && Clean(job.tags, cache)
      ensures forall i :: 0 <= i < |steps| ==>
        && Operated(job.tags, Latest(job, steps[..i]), steps[i])
        && Safe(job, steps[i]) && OneTemporary(job.tags, steps[i])
      ensures cache == Latest(job, steps)
    {
      var entries := ReadEntries(ls, job.s.actions);
      forall e | e in entries ensures FromSnapshot(job.s, e) { EntryFromSnapshot(ls, job.s, e); }
      StartSafe(job);
      ImportActions(job, entries, now);
      ImportThinLtos(job, now);
      ImportCompilerBakes(job, now);
      forall i | 0 <= i < |steps|
        ensures Operated(job.tags, Latest(job, steps[..i]), steps[i]) && Safe(job, steps[i])
        ensures OneTemporary(job.tags, steps[i])
      {
        TraceAt(job, steps, i);
      }
    }
  }

  lemma {:induction false} StartSafe(job: Job)
    ensures Safe(job, job.start)
  {
  }

  /** A readable manifest of the snapshot. */
  ghost predicate FromSnapshot(s: Snapshot, e: Entry) {
    && e.manifest in s.actions && s.actions[e.manifest].json == Outputs(e.outputs)
    && IsManifest(e.manifest) && Readable(s.actions[e.manifest])
  }

  lemma {:induction false} EntryFromSnapshot(ls: Lister, s: Snapshot, e: Entry)
    requires e in ReadEntries(ls, s.actions)
    ensures FromSnapshot(s, e)
  {
    var names := Filter(ls(s.actions.Keys), ReadableIn(s.actions));
    var i :| 0 <= i < |names| && ReadEntries(ls, s.actions)[i] == e;
    assert names[i] in names;
    FilterMember(ls(s.actions.Keys), ReadableIn(s.actions), names[i]);
  }

  lemma {:induction false} FetchOne(job: Job, blobs: map<string, Bytes>, outputs: seq<Output>, i: nat)
    requires i < |outputs|
    ensures FetchBlobs(job.sha, job.s, blobs, outputs[..i + 1])
         == Fetched(job.sha, job.s, FetchBlobs(job.sha, job.s, blobs, outputs[..i]), outputs[i])
  {
    assert outputs[..i + 1][..i] == outputs[..i];
  }

  /** Replacing a blob that does not verify by the snapshot's disturbs no manifest
      already published, because they agree with the same snapshot blob. */
  lemma {:induction false} BlobWriteSafe(job: Job, c: Cache, o: Output, done: seq<Output>)
    requires Fresh(job) && AtRest(job, c) && IsDigest(o.digest)
    requires ValidBlob(job.sha, job.s.blobs, o.digest, o.digest, o.size)
    requires !ValidBlob(job.sha, c.blobs, o.digest, o.digest, o.size)
    requires AllValid(job.sha, job.s.blobs, done) && AllValid(job.sha, c.blobs, done)
    ensures var c' := Put(c, BlobFile(o.digest, job.s.blobs[o.digest]));
      AtRest(job, c') && AllValid(job.sha, c'.blobs, done + [o])
  {
    var blobs := c.blobs[o.digest := job.s.blobs[o.digest]];
    NamesClean(job.tags, o.digest);
    forall outputs | AllValid(job.sha, job.s.blobs, outputs) && AllValid(job.sha, c.blobs, outputs)
      ensures AllValid(job.sha, blobs, outputs) { }
    forall action | Published(job, c.blobs, action) ensures Published(job, blobs, action) { }
  }

  lemma {:induction false} ManifestWriteSafe(job: Job, c: Cache, m: string, file: ActionFile)
    requires Fresh(job) && AtRest(job, c)
    requires m in job.s.actions && file.json == job.s.actions[m].json && IsManifest(m) && Published(job, c.blobs, file)
    ensures AtRest(job, Put(c, Manifest(m, file)))
  {
    NamesClean(job.tags, m);
  }

  lemma {:induction false} ThinWriteSafe(job: Job, c: Cache, t: ThinEntry, file: ThinFile)
    requires Fresh(job) && AtRest(job, c)
    requires t in job.s.thinLto && IsThinName(t.file) && |file.content| == t.size && job.sha(file.content) == t.digest
    ensures AtRest(job, Put(c, ThinLto(t.file, file)))
  {
    NamesClean(job.tags, t.file);
  }

  lemma {:induction false} BakeTouchSafe(job: Job, c: Cache, dir: string, mtime: real)
    requires AtRest(job, c) && dir in c.bakes
    ensures AtRest(job, Touched(c, dir, mtime))
  {
    var bakes := Touched(c, dir, mtime).bakes;
    forall d | d in bakes ensures bakes[d].files == c.bakes[d].files { }
  }

  /** Nothing but the bake directory `d` differs. */
  ghost predicate OnlyBake(c: Cache, c': Cache, d: string) {
    d in c'.bakes && c' == PutBakeDir(c, d, c'.bakes[d])
  }

  function WithFile(s: Snapshot, d: string, files: map<string, Bytes>, f: BakeFile): map<string, Bytes>
    requires f.name in SnapshotBakeFiles(s, d)
  {
    files[f.name := SnapshotBakeFiles(s, d)[f.name]]
  }

  lemma {:induction false} BakeImported(job: Job, c: Cache, c': Cache, b: Bake)
    requires BakeRowOk(b) && BakeValid(job.sha, job.s, b) && OnlyBake(c, c', b.directory)
    requires FilesOf(c'.bakes, b.directory)
          == CopyNamed(SnapshotBakeFiles(job.s, b.directory), FilesOf(c.bakes, b.directory), RecordLast(b.files))
    ensures PutBakeDir(c', b.directory, BakeDir(c'.bakes[b.directory].files, Truncate(b.mtime)))
         == ImportBake(job.sha, job.s, c, b)
  {
  }

  /** The given files of the snapshot, copied one after the other. */
  function WithFiles(s: Snapshot, d: string, files: map<string, Bytes>, rows: seq<BakeFile>): map<string, Bytes>
    decreases |rows|
  {
    if rows == [] then files
    else if rows[0].name in SnapshotBakeFiles(s, d) then WithFiles(s, d, WithFile(s, d, files, rows[0]), rows[1..])
    else WithFiles(s, d, files, rows[1..])
  }

  lemma {:induction false} WithFilesLast(s: Snapshot, d: string, files: map<string, Bytes>, rows: seq<BakeFile>,
                                         f: BakeFile)
    ensures WithFiles(s, d, files, rows + [f])
         == WithFiles(s, d, WithFiles(s, d, files, rows), [f])
    decreases |rows|
  {
    if rows != [] {
      assert (rows + [f])[0] == rows[0] && (rows + [f])[1..] == rows[1..] + [f];
      var next := if rows[0].name in SnapshotBakeFiles(s, d) then WithFile(s, d, files, rows[0]) else files;
      WithFilesLast(s, d, next, rows[1..], f);
    }
  }

  /** Copied front to back, the files are those of `CopyNamed`. */
  lemma {:induction false} WithFilesNamed(s: Snapshot, d: string, files: map<string, Bytes>, rows: seq<BakeFile>)
    ensures WithFiles(s, d, files, rows) == CopyNamed(SnapshotBakeFiles(s, d), files, rows)
  {
    if rows != [] {
      var before, f := rows[..|rows| - 1], rows[|rows| - 1];
      WithFilesNamed(s, d, files, before);
      WithFilesLast(s, d, files, before, f);
      assert rows == before + [f] && [f][1..] == [];
    }
  }

  /** A copied row has its record. */
  lemma {:induction false} RecordThere(job: Job, b: Bake, files: map<string, Bytes>)
    requires BakeRowOk(b) && BakeValid(job.sha, job.s, b)
    ensures BAKE_RECORD in CopyNamed(SnapshotBakeFiles(job.s, b.directory), files, RecordLast(b.files))
  {
    RecordLastOrder(b.files);
    var f :| f in b.files && f.name == BAKE_RECORD;
    assert f in RecordLast(b.files);
    NamedThere(SnapshotBakeFiles(job.s, b.directory), files, RecordLast(b.files), f);
  }

  lemma {:induction false} NamedThere(source: map<string, Bytes>, files: map<string, Bytes>, rows: seq<BakeFile>,
                                      f: BakeFile)
    requires f in rows && f.name in source
    ensures f.name in CopyNamed(source, files, rows)
  {
    if f != rows[|rows| - 1] { NamedThere(source, files, rows[..|rows| - 1], f); }
  }

  lemma {:induction false} NamedAll(job: Job, b: Bake, files: map<string, Bytes>, ordered: seq<BakeFile>)
    requires ordered != [] && ordered[0].name in SnapshotBakeFiles(job.s, b.directory)
    ensures WithFiles(job.s, b.directory, WithFile(job.s, b.directory, files, ordered[0]), ordered[1..])
         == CopyNamed(SnapshotBakeFiles(job.s, b.directory), files, ordered)
  {
    WithFilesNamed(job.s, b.directory, files, ordered);
  }

  lemma {:induction false} OnlyBakeTwice(c: Cache, c': Cache, c'': Cache, d: string)
    requires OnlyBake(c, c', d) && OnlyBake(c', c'', d)
    ensures OnlyBake(c, c'', d)
  {
  }

  /** The record comes after every other file of its bake. */
  lemma {:induction false} RecordLastOrder(files: seq<BakeFile>)
    ensures forall f :: f in RecordLast(files) <==> f in files
    ensures forall i, j :: 0 <= i < j < |RecordLast(files)| && RecordLast(files)[i].name == BAKE_RECORD ==>
              RecordLast(files)[j].name == BAKE_RECORD
  {
    forall f ensures (f in Filter(files, NotRecord) <==> f in files && f.name != BAKE_RECORD)
                  && (f in Filter(files, IsRecord) <==> f in files && f.name == BAKE_RECORD) {
      FilterMember(files, NotRecord, f);
      FilterMember(files, IsRecord, f);
    }
    var others, records := Filter(files, NotRecord), Filter(files, IsRecord);
    assert forall i :: 0 <= i < |others| ==> others[i] in others;
    assert forall i :: 0 <= i < |records| ==> records[i] in records;
  }

  /** The first `i` files of a bake have been copied. */
  ghost predicate Copying(job: Job, b: Bake, ordered: seq<BakeFile>, i: nat, files: map<string, Bytes>) {
    && b in job.s.bakes && BakeRowOk(b) && BakeValid(job.sha, job.s, b) && i <= |ordered|
    && (forall f :: f in ordered <==> f in b.files)
    && (forall k :: 0 <= k < |ordered| ==> ordered[k].name in SnapshotBakeFiles(job.s, b.directory))
    && (forall i, j :: 0 <= i < j < |ordered| && ordered[i].name == BAKE_RECORD ==> ordered[j].name == BAKE_RECORD)
    && Copied(SnapshotBakeFiles(job.s, b.directory), files, ordered[..i])
  }

  lemma {:induction false} CopyingStarts(job: Job, b: Bake, files: map<string, Bytes>)
    requires b in job.s.bakes && BakeRowOk(b) && BakeValid(job.sha, job.s, b)
    ensures Copying(job, b, RecordLast(b.files), 0, files) && |RecordLast(b.files)| > 0
  {
    var ordered := RecordLast(b.files);
    RecordLastOrder(b.files);
    var f :| f in b.files && f.name == BAKE_RECORD;
    assert f in ordered;
    forall k | 0 <= k < |ordered| ensures ordered[k].name in SnapshotBakeFiles(job.s, b.directory) {
      assert ordered[k] in ordered;
    }
  }

  lemma {:induction false} CopyingMore(job: Job, b: Bake, ordered: seq<BakeFile>, i: nat, files: map<string, Bytes>)
    requires Copying(job, b, ordered, i, files) && i < |ordered|
    ensures Copying(job, b, ordered, i + 1, WithFile(job.s, b.directory, files, ordered[i]))
  {
    assert ordered[..i + 1] == ordered[..i] + [ordered[i]];
  }

  /** With its record, a row is in place. */
  lemma {:induction false} RecordCompletes(job: Job, b: Bake, ordered: seq<BakeFile>, i: nat, files: map<string, Bytes>)
    requires Copying(job, b, ordered, i, files) && 0 < i && ordered[i - 1].name == BAKE_RECORD
    ensures InPlace(job, files, b)
  {
    var source := SnapshotBakeFiles(job.s, b.directory);
    forall f | f in b.files ensures f.name in files && f.name in source && files[f.name] == source[f.name] {
      var k :| 0 <= k < |ordered| && ordered[k] == f;
      if k < i {
        assert ordered[..i][k] == f;
      } else {
        assert f.name == BAKE_RECORD;
        assert ordered[..i][i - 1] in ordered[..i];
      }
    }
  }

  /** Rows for one directory copy from the same files. */
  lemma {:induction false} OverwriteInPlace(job: Job, files: map<string, Bytes>, b: Bake, f: BakeFile)
    requires InPlace(job, files, b) && f.name in SnapshotBakeFiles(job.s, b.directory)
    ensures InPlace(job, WithFile(job.s, b.directory, files, f), b)
  {
  }

  lemma {:induction false} RowFileSafe(job: Job, b: Bake, ordered: seq<BakeFile>, i: nat, files: map<string, Bytes>)
    requires SafeBake(job, b.directory, files) && Copying(job, b, ordered, i, files) && i < |ordered|
    ensures SafeBake(job, b.directory, WithFile(job.s, b.directory, files, ordered[i]))
  {
    var d, f := b.directory, ordered[i];
    var files' := WithFile(job.s, d, files, f);
    assert f in ordered;
    assert InSomeRow(job, d, f.name, files'[f.name]);
    if BAKE_RECORD !in FilesOf(job.start.bakes, d) && BAKE_RECORD in files' {
      if BAKE_RECORD in files {
        var b' :| b' in job.s.bakes && b'.directory == d && BakeRowOk(b') && InPlace(job, files, b');
        OverwriteInPlace(job, files, b', f);
      } else {
        CopyingMore(job, b, ordered, i, files);
        RecordCompletes(job, b, ordered, i + 1, files');
      }
    }
  }

  lemma {:induction false} BakeWriteSafe(job: Job, c: Cache, b: Bake, ordered: seq<BakeFile>, i: nat, f: File)
    requires Fresh(job) && AtRest(job, c)
    requires Copying(job, b, ordered, i, FilesOf(c.bakes, b.directory)) && i < |ordered|
    requires f.InBake? && f.directory == b.directory && f.name == ordered[i].name
    requires f.content == SnapshotBakeFiles(job.s, b.directory)[f.name]
    ensures AtRest(job, Put(c, f))
  {
    var files := FilesOf(c.bakes, b.directory);
    assert ordered[i] in ordered;
    RowFileSafe(job, b, ordered, i, files);
    assert !Temporary(job.tags, f.name);
    BakePutAtRest(job, c, f);
  }

  lemma {:induction false} BakePutAtRest(job: Job, c: Cache, f: File)
    requires AtRest(job, c) && f.InBake? && !Temporary(job.tags, f.name)
    requires SafeBake(job, f.directory, FilesOf(c.bakes, f.directory)[f.name := f.content])
    ensures AtRest(job, Put(c, f))
  {
    var bakes := Put(c, f).bakes;
    forall d | d in bakes ensures SafeBake(job, d, bakes[d].files) { }
    forall d | d in bakes ensures NoneTemporary(job.tags, bakes[d].files.Keys) { }
  }
}
