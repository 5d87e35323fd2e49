/** `isolatedToolsDirectory` (scripts/isolated-tools.ts) run by any number of processes
    at once: each fills a staging directory of its own and publishes it by renaming it.

    A step is one file system call. Any process may crash between steps and leave its
    staging directory behind; a later process may get the same pid. Renaming a directory
    onto an existing one succeeds only when that one is empty. */
module IsolatedTools {
  import opened Optional

  type Pid = nat
  type Directory = map<string, string>

  datatype Link = Link(name: string, source: string)

  /** Where a call is. `Returned(created)` tells whether it got past the first check. */
  datatype Call =
    | Check
    | Clean
    | Make
    | Fill(done: nat)
    | Rename
    | Discard
    | Recheck
    | Returned(created: bool)
    | Threw

  /** `staging` holds the staging directories; `abandoned` the pids whose directory was
      left by a crash or an uncaught error. */
  datatype State = State(
    published: Option<Directory>,
    staging: map<Pid, Directory>,
    calls: map<Pid, Call>,
    abandoned: set<Pid>)

  datatype Move = Begin(pid: Pid) | Act(pid: Pid) | Crash(pid: Pid)

  const INIT := State(None, map[], map[], {})

  /** The directory that holds the given links. */
  function Filled(links: seq<Link>): Directory {
    if links == [] then map[]
    else
      var l := links[|links| - 1];
      Filled(links[..|links| - 1])[l.name := l.source]
  }

  predicate Running(c: Call) { !c.Returned? && !c.Threw? }

  predicate Enabled(s: State, m: Move) {
    match m
    case Begin(p) => p !in s.calls || !Running(s.calls[p])
    case Act(p) => p in s.calls && Running(s.calls[p])
    case Crash(p) => p in s.calls && Running(s.calls[p])
  }

  function SetCall(s: State, p: Pid, c: Call): State { s.(calls := s.calls[p := c]) }

  /** One file system call of process `p`. */
  function ActStep(links: seq<Link>, s: State, p: Pid): State
    requires Enabled(s, Act(p))
  {
    match s.calls[p]
    case Check => SetCall(s, p, if s.published.Some? then Returned(false) else Clean)
    case Clean => SetCall(s.(staging := s.staging - {p}, abandoned := s.abandoned - {p}), p, Make)
    case Make => SetCall(s.(staging := s.staging[p := map[]]), p, Fill(0))
    case Fill(k) =>
      if k >= |links| then SetCall(s, p, Rename)
      else if p !in s.staging || links[k].name in s.staging[p] then
        SetCall(s.(abandoned := s.abandoned + {p}), p, Threw)
      else SetCall(s.(staging := s.staging[p := s.staging[p][links[k].name := links[k].source]]), p, Fill(k + 1))
    case Rename =>
      if p in s.staging && (s.published.None? || s.published.value == map[]) then
        SetCall(s.(published := Some(s.staging[p]), staging := s.staging - {p}), p, Returned(true))
      else SetCall(s, p, Discard)
    case Discard => SetCall(s.(staging := s.staging - {p}), p, Recheck)
    case Recheck => SetCall(s, p, if s.published.Some? then Returned(true) else Threw)
  }

  function Step(links: seq<Link>, s: State, m: Move): State
    requires Enabled(s, m)
  {
    match m
    case Begin(p) => SetCall(s, p, Check)
    case Act(p) => ActStep(links, s, p)
    case Crash(p) =>
      s.(calls := s.calls - {p}, abandoned := if p in s.staging then s.abandoned + {p} else s.abandoned)
  }

  predicate Runs(links: seq<Link>, s: State, moves: seq<Move>)
    decreases |moves|
  {
    moves == [] || (Enabled(s, moves[0]) && Runs(links, Step(links, s, moves[0]), moves[1..]))
  }

  function After(links: seq<Link>, s: State, moves: seq<Move>): State
    requires Runs(links, s, moves)
    decreases |moves|
  {
    if moves == [] then s else After(links, Step(links, s, moves[0]), moves[1..])
  }

  ghost predicate NamesDistinct(links: seq<Link>) {
    forall i, j :: 0 <= i < j < |links| ==> links[i].name != links[j].name
  }

  /** What holds of process `p` where it stands. */
  ghost predicate CallInv(links: seq<Link>, s: State, p: Pid) {
    p in s.calls ==>
      match s.calls[p]
      case Check => p in s.staging ==> p in s.abandoned
      case Clean => p in s.staging ==> p in s.abandoned
      case Make => p !in s.staging
      case Fill(k) => k <= |links| && p in s.staging && s.staging[p] == Filled(links[..k]) && NamesDistinct(links[..k])
      case Rename => p in s.staging && s.staging[p] == Filled(links) && NamesDistinct(links)
      case Discard => s.published.Some?
      case Recheck => s.published.Some? && p !in s.staging
      case Returned(created) =>
        && s.published.Some?
        && (created ==> p !in s.staging)
        && (p in s.staging ==> p in s.abandoned)
      case Threw => !NamesDistinct(links) && (p in s.staging ==> p in s.abandoned)
  }

  ghost predicate Inv(links: seq<Link>, s: State) {
    && (s.published.Some? ==> s.published.value == Filled(links) && NamesDistinct(links))
    && (forall p :: CallInv(links, s, p))
    && (forall p :: p in s.staging && p !in s.calls ==> p in s.abandoned)
  }

  lemma {:induction false} FilledNames(links: seq<Link>)
    ensures forall n :: n in Filled(links) <==> exists i :: 0 <= i < |links| && links[i].name == n
  {
    if links != [] {
      var before, l := links[..|links| - 1], links[|links| - 1];
      FilledNames(before);
      forall n ensures n in Filled(links) <==> exists i :: 0 <= i < |links| && links[i].name == n {
        if n in Filled(before) {
          var i :| 0 <= i < |before| && before[i].name == n;
          assert links[i].name == n;
        }
        if i :| 0 <= i < |links| && links[i].name == n {
          assert i < |before| ==> before[i].name == n;
        }
        assert l.name == n ==> links[|links| - 1].name == n;
      }
    }
  }

  /** Creating one more link, or finding its name taken. */
  lemma {:induction false} FillStep(links: seq<Link>, k: nat)
    requires k < |links| && NamesDistinct(links[..k])
    ensures links[k].name !in Filled(links[..k]) ==>
      NamesDistinct(links[..k + 1]) && Filled(links[..k + 1]) == Filled(links[..k])[links[k].name := links[k].source]
    ensures links[k].name in Filled(links[..k]) ==> !NamesDistinct(links)
  {
    FilledNames(links[..k]);
    assert links[..k + 1][..k] == links[..k];
    if links[k].name in Filled(links[..k]) {
      var i :| 0 <= i < k && links[..k][i].name == links[k].name;
      assert links[i].name == links[k].name;
    } else {
      forall i | 0 <= i < k ensures links[i].name != links[k].name { assert links[..k][i] == links[i]; }
    }
  }

  lemma {:induction false} ActKeepsInv(links: seq<Link>, s: State, p: Pid)
    requires Inv(links, s) && Enabled(s, Act(p))
    ensures Inv(links, ActStep(links, s, p))
    ensures s.published.Some? ==> ActStep(links, s, p).published == s.published
  {
    assert CallInv(links, s, p);
    var s' := ActStep(links, s, p);
    match s.calls[p] {
      case Fill(k) =>
        assert links[..|links|] == links;
        if k < |links| { FillStep(links, k); }
      case _ =>
    }
    forall q ensures CallInv(links, s', q) {
      assert CallInv(links, s, q);
    }
  }

  lemma {:induction false} StepKeepsInv(links: seq<Link>, s: State, m: Move)
    requires Inv(links, s) && Enabled(s, m)
    ensures Inv(links, Step(links, s, m))
    ensures s.published.Some? ==> Step(links, s, m).published == s.published
  {
    var s' := Step(links, s, m);
    match m {
      case Act(p) => ActKeepsInv(links, s, p);
      case _ =>
        forall q ensures CallInv(links, s', q) { assert CallInv(links, s, q); }
        assert CallInv(links, s, m.pid);
    }
  }

  lemma {:induction false} RunKeepsInv(links: seq<Link>, s: State, moves: seq<Move>)
    requires Inv(links, s) && Runs(links, s, moves)
    ensures Inv(links, After(links, s, moves))
    ensures s.published.Some? ==> After(links, s, moves).published == s.published
    decreases |moves|
  {
    if moves != [] {
      StepKeepsInv(links, s, moves[0]);
      RunKeepsInv(links, Step(links, s, moves[0]), moves[1..]);
    }
  }

  /** In every interleaving with crashes: the published directory is absent or has all the
      links and never changes again; a call that returned left it in place and no staging
      directory of its own making; a call throws only if two links share a name. */
  lemma {:induction false} PublishesWholeOrNothing(links: seq<Link>, moves: seq<Move>, later: seq<Move>)
    requires Runs(links, INIT, moves) && Runs(links, After(links, INIT, moves), later)
    ensures var s := After(links, INIT, moves);
      && (s.published.Some? ==> s.published.value == Filled(links))
      && (s.published.Some? ==> After(links, s, later).published == s.published)
      && (forall p :: p in s.calls && s.calls[p].Returned? ==>
          && s.published == Some(Filled(links))
          && (s.calls[p].created || p !in s.abandoned ==> p !in s.staging))
      && (NamesDistinct(links) ==> forall p :: p in s.calls ==> !s.calls[p].Threw?)
  {
    RunKeepsInv(links, INIT, moves);
    var s := After(links, INIT, moves);
    RunKeepsInv(links, s, later);
    forall p | p in s.calls ensures CallInv(links, s, p) { }
  }

  // ----------------------------------------------------------------- progress

  /** Steps a call still needs at most, whatever the others do. */
  function StepsLeft(links: seq<Link>, c: Call): int {
    match c
    case Check => |links| + 7
    case Clean => |links| + 6
    case Make => |links| + 5
    case Fill(k) => |links| - k + 4
    case Rename => 3
    case Discard => 2
    case Recheck => 1
    case Returned(_) => 0
    case Threw => 0
  }

  /** No call ever waits: each of its own steps brings it nearer the end, and nothing
      another process does sets it back. */
  lemma {:induction false} CallsNeverWait(links: seq<Link>, moves: seq<Move>, p: Pid, m: Move)
    requires Runs(links, INIT, moves)
    requires var s := After(links, INIT, moves); Enabled(s, m) && p in s.calls && Running(s.calls[p])
    ensures var s := After(links, INIT, moves);
      var s' := Step(links, s, m);
      && Enabled(s, Act(p))
      && StepsLeft(links, s.calls[p]) > 0
      && (m == Act(p) ==> p in s'.calls && StepsLeft(links, s'.calls[p]) < StepsLeft(links, s.calls[p]))
      && (m.pid != p ==> p in s'.calls && s'.calls[p] == s.calls[p])
  {
    RunKeepsInv(links, INIT, moves);
    assert CallInv(links, After(links, INIT, moves), p);
  }
}
