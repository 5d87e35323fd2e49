/** The self-compile benchmark as a resumable machine: one stage per process, advanced
    through a checkpoint file (scripts/bench.ts), driven by the retry loop of a snapshot
    (scripts/bench-compare.ts).

    What a stage measures, and whether it succeeds, is an input. A process can be killed
    between any two of its effects on the file system. */
module SelfCompileCheckpoint {
  import opened Optional

  /** What one compiler run reported; only a summarized run carries the emitted C. */
  datatype Sample = Sample(units: int, codeUnits: int, digest: string, wallMs: real, emittedC: bool)
  datatype Pair = Pair(node: Sample, maligator: Sample)

  datatype Checkpoint = Checkpoint(
    runs: nat,
    root: nat,
    coldNode: seq<Sample>, coldMaligator: seq<Sample>,
    warmup: Option<Pair>,
    warmNode: seq<Sample>, warmMaligator: seq<Sample>,
    phases: Option<Pair>, counters: Option<Pair>, owner: Option<Pair>, runtime: Option<Pair>,
    complete: bool)

  /** The checkpoint file, and the working directories that still have their binary. */
  datatype Disk = Disk(file: Option<Checkpoint>, roots: set<nat>)

  datatype Stage =
    | NativeBuild | Cold(index: nat) | Warmup | Measured(index: nat)
    | PhasePair | CounterPair | OwnerPair | ResourcePair | Finished

  /** The stages in the order the comparison announces them. */
  function Stages(runs: nat): seq<Stage> {
    [NativeBuild, Cold(0), Cold(1), Cold(2), Warmup]
    + seq(runs, i requires i >= 0 => Measured(i))
    + [PhasePair, CounterPair, OwnerPair, ResourcePair]
  }

  /** What a measurement yields: an error, or a comparable pair of runs. */
  datatype Outcome = Fails | Yields(pair: Pair)

  /** Where a process is killed, if it is: before its effects, while it removes the working
      directory (before or after the binary is gone), after that, or after the checkpoint
      is written. */
  datatype Kill = Never | BeforeEffects | InRemoval(binaryGone: bool) | BetweenEffects | AfterWrite

  datatype Result = Pending | Metrics | Error | Killed

  datatype Invocation = Invocation(disk: Disk, result: Result)

  function NewCheckpoint(runs: nat, root: nat): Checkpoint {
    Checkpoint(runs, root, [], [], None, [], [], None, None, None, None, false)
  }

  /** Which stage a checkpoint asks for next. */
  function NextStage(file: Option<Checkpoint>, runs: nat): Stage {
    if file.None? then NativeBuild
    else
      var c := file.value;
      if c.complete then Finished
      else if |c.coldNode| < 3 then Cold(|c.coldNode|)
      else if c.warmup.None? then Warmup
      else if |c.warmNode| < runs then Measured(|c.warmNode|)
      else if c.phases.None? then PhasePair
      else if c.counters.None? then CounterPair
      else if c.owner.None? then OwnerPair
      else if c.runtime.None? then ResourcePair
      else Finished
  }

  predicate SameOutput(reference: Sample, actual: Sample) {
    actual.units == reference.units && actual.codeUnits == reference.codeUnits && actual.digest == reference.digest
  }

  /** A repeated sample must compile to the same output as the first. */
  predicate Consistent(c: Checkpoint, p: Pair) {
    && (c.warmNode != [] ==> SameOutput(c.warmNode[0], p.node))
    && (c.warmMaligator != [] ==> SameOutput(c.warmMaligator[0], p.maligator))
  }

  function Plain(s: Sample): Sample { s.(emittedC := false) }
  function PlainPair(p: Pair): Pair { Pair(Plain(p.node), Plain(p.maligator)) }

  /** Records the stage's measurement; `None` is an error. */
  function Record(c: Checkpoint, runs: nat, p: Pair): Option<Checkpoint> {
    match NextStage(Some(c), runs)
    case Cold(_) =>
      Some(c.(coldNode := c.coldNode + [Plain(p.node)], coldMaligator := c.coldMaligator + [Plain(p.maligator)]))
    case Warmup => Some(c.(warmup := Some(Pair(Plain(p.node), p.maligator.(emittedC := true)))))
    case Measured(_) =>
      if Consistent(c, p)
      then Some(c.(warmNode := c.warmNode + [Plain(p.node)], warmMaligator := c.warmMaligator + [Plain(p.maligator)]))
      else None
    case PhasePair => Some(c.(phases := Some(PlainPair(p))))
    case CounterPair => Some(c.(counters := Some(PlainPair(p))))
    case OwnerPair => Some(c.(owner := Some(PlainPair(p))))
    case ResourcePair => Some(c.(runtime := Some(PlainPair(p))))
    case _ => Some(c)
  }

  predicate AllMeasured(c: Checkpoint, runs: nat) {
    && c.runtime.Some? && c.phases.Some? && c.counters.Some? && c.owner.Some?
    && |c.coldNode| == 3 && |c.coldMaligator| == 3
    && |c.warmNode| == runs && |c.warmMaligator| == runs
  }

  /** Whether the metrics of a checkpoint can be assembled. */
  predicate Assembles(c: Checkpoint) {
    && |c.coldNode| == 3 && |c.coldMaligator| == 3
    && c.phases.Some? && c.counters.Some? && c.owner.Some? && c.runtime.Some?
    && c.warmup.Some? && c.warmup.value.maligator.emittedC
    && |c.warmNode| == c.runs && |c.warmMaligator| == c.runs
    && c.warmNode != [] && c.warmMaligator != []
  }

  function Report(c: Checkpoint): Result { if Assembles(c) then Metrics else Error }

  /** One process. `temporary` is the working directory a native build would make. */
  function Invoke(d: Disk, runs: nat, o: Outcome, kill: Kill, temporary: nat): Invocation {
    if d.file.None? then
      if o.Fails? || kill.BeforeEffects? || kill.InRemoval? then Invocation(d, if kill.Never? then Error else Killed)
      else if kill.BetweenEffects? then Invocation(d.(roots := d.roots + {temporary}), Killed)
      else Invocation(Disk(Some(NewCheckpoint(runs, temporary)), d.roots + {temporary}),
                      if kill.Never? then Pending else Killed)
    else
      var c := d.file.value;
      if c.runs != runs then Invocation(d, Error)
      else if c.complete then Invocation(d, if kill.Never? then Report(c) else Killed)
      else if c.root !in d.roots then Invocation(d, Error)
      else if o.Fails? || kill.BeforeEffects? then Invocation(d, if kill.Never? then Error else Killed)
      else
        var recorded := Record(c, runs, o.pair);
        if recorded.None? then Invocation(d, Error)
        else Finish(d, recorded.value, runs, kill)
  }

  /** Completing removes the working directory, then writes the checkpoint. */
  function Finish(d: Disk, c: Checkpoint, runs: nat, kill: Kill): Invocation {
    if AllMeasured(c, runs) then
      var done := c.(complete := true);
      if kill == InRemoval(false) then Invocation(d, Killed)
      else if kill.BetweenEffects? || kill.InRemoval? then Invocation(d.(roots := d.roots - {c.root}), Killed)
      else Invocation(Disk(Some(done), d.roots - {c.root}), if kill.Never? then Report(done) else Killed)
    else if kill.BetweenEffects? || kill.InRemoval? then Invocation(d, Killed)
    else Invocation(d.(file := Some(c)), if kill.Never? then Pending else Killed)
  }

  // ------------------------------------------------------------- whole runs

  /** Stages done. */
  function Progress(file: Option<Checkpoint>): nat {
    if file.None? then 0
    else
      var c := file.value;
      1 + |c.coldNode| + Count(c.warmup) + |c.warmNode|
      + Count(c.phases) + Count(c.counters) + Count(c.owner) + Count(c.runtime)
  }

  function Count<T>(o: Option<T>): nat { if o.Some? then 1 else 0 }

  /** What every checkpoint written by these processes satisfies. */
  ghost predicate Valid(d: Disk, runs: nat) {
    d.file.Some? ==>
      var c := d.file.value;
      && c.runs == runs
      && |c.coldNode| == |c.coldMaligator| <= 3 && |c.warmNode| == |c.warmMaligator| <= runs
      && (c.warmup.Some? ==> |c.coldNode| == 3 && c.warmup.value.maligator.emittedC)
      && (|c.warmNode| > 0 ==> c.warmup.Some?)
      && (c.phases.Some? ==> c.warmup.Some? && |c.warmNode| == runs)
      && (c.counters.Some? ==> c.phases.Some?)
      && (c.owner.Some? ==> c.counters.Some?)
      && (c.runtime.Some? ==> c.owner.Some?)
      && (c.complete <==> c.runtime.Some?)
  }

  /** An unfinished checkpoint whose binary is gone. */
  predicate Wedged(d: Disk) { d.file.Some? && !d.file.value.complete && d.file.value.root !in d.roots }

  /** The next stage is the one the announced list gives for the progress made. */
  lemma {:induction false} NextStageInOrder(d: Disk, runs: nat)
    requires Valid(d, runs)
    ensures Progress(d.file) <= runs + 9 == |Stages(runs)|
    ensures Progress(d.file) < runs + 9 ==> NextStage(d.file, runs) == Stages(runs)[Progress(d.file)]
    ensures Progress(d.file) == runs + 9 <==> d.file.Some? && d.file.value.complete
  {
  }

  /** A recorded stage is exactly one step further and leaves a valid checkpoint. */
  lemma {:induction false} RecordAdvances(c: Checkpoint, runs: nat, p: Pair)
    requires Valid(Disk(Some(c), {}), runs) && !c.complete && Record(c, runs, p).Some?
    ensures var r := Record(c, runs, p).value;
      && Progress(Some(r)) == Progress(Some(c)) + 1
      && r.root == c.root && !r.complete
      && (AllMeasured(r, runs) <==> r.runtime.Some?)
      && Valid(Disk(Some(if AllMeasured(r, runs) then r.(complete := true) else r), {}), runs)
  {
  }

  predicate Succeeds(r: Result) { r.Pending? || r.Metrics? }

  /** Whether this process is killed after deleting the binary and before recording that
      the run is complete. */
  predicate LosesRun(d: Disk, runs: nat, o: Outcome, kill: Kill) {
    && (kill.BetweenEffects? || kill == InRemoval(true)) && o.Yields?
    && d.file.Some? && !d.file.value.complete && d.file.value.runs == runs && d.file.value.root in d.roots
    && NextStage(d.file, runs).ResourcePair?
  }

  lemma {:induction false} FinishEffect(d: Disk, c: Checkpoint, runs: nat, kill: Kill)
    requires !c.complete && Progress(Some(c)) == Progress(d.file) + 1 && Valid(d, runs)
    requires Valid(Disk(Some(if AllMeasured(c, runs) then c.(complete := true) else c), {}), runs)
    ensures var i := Finish(d, c, runs, kill);
      && Valid(i.disk, runs)
      && (i.disk.file == d.file || Progress(i.disk.file) == Progress(d.file) + 1)
      && (i.result.Error? ==> runs == 0)
  {
    if AllMeasured(c, runs) {
      assert Progress(Some(c.(complete := true))) == Progress(Some(c));
      assert runs > 0 ==> Assembles(c.(complete := true));
    }
  }

  /** What one process does to the checkpoint, whatever happens to it. */
  lemma {:induction false} InvocationEffect(d: Disk, runs: nat, o: Outcome, kill: Kill, temporary: nat)
    requires Valid(d, runs)
    ensures var i := Invoke(d, runs, o, kill, temporary);
      && Valid(i.disk, runs)
      && Progress(d.file) <= Progress(i.disk.file) <= Progress(d.file) + 1
      && (Progress(i.disk.file) == Progress(d.file) ==> i.disk.file == d.file)
      && (i.result.Error? ==> i.disk == d || runs == 0)
  {
    var i := Invoke(d, runs, o, kill, temporary);
    if d.file.None? {
      NewEffect(runs, temporary, d.roots);
    } else if Recorded(d, runs, o, kill) {
      var c := Record(d.file.value, runs, o.pair).value;
      RecordAdvances(d.file.value, runs, o.pair);
      FinishEffect(d, c, runs, kill);
      assert i == Finish(d, c, runs, kill);
    } else {
      UnrecordedEffect(d, runs, o, kill, temporary);
    }
  }

  lemma {:induction false} NewEffect(runs: nat, temporary: nat, roots: set<nat>)
    ensures Valid(Disk(Some(NewCheckpoint(runs, temporary)), roots + {temporary}), runs)
    ensures Progress(Some(NewCheckpoint(runs, temporary))) == 1
  {
  }

  /** Whether this process gets as far as recording a stage. */
  predicate Recorded(d: Disk, runs: nat, o: Outcome, kill: Kill) {
    && d.file.Some? && d.file.value.runs == runs && !d.file.value.complete && d.file.value.root in d.roots
    && o.Yields? && !kill.BeforeEffects? && Record(d.file.value, runs, o.pair).Some?
  }

  lemma {:induction false} UnrecordedEffect(d: Disk, runs: nat, o: Outcome, kill: Kill, temporary: nat)
    requires Valid(d, runs) && d.file.Some? && !Recorded(d, runs, o, kill)
    ensures Invoke(d, runs, o, kill, temporary).disk == d
  {
  }

  /** What it does to the working directory. */
  lemma {:induction false} InvocationLoss(d: Disk, runs: nat, o: Outcome, kill: Kill, temporary: nat)
    requires Valid(d, runs)
    ensures var i := Invoke(d, runs, o, kill, temporary);
      && (Wedged(i.disk) <==> Wedged(d) || LosesRun(d, runs, o, kill))
      && (Wedged(d) ==> i.disk == d && !Succeeds(i.result))
  {
    if d.file.Some? && o.Yields? && !d.file.value.complete && Record(d.file.value, runs, o.pair).Some? {
      RecordAdvances(d.file.value, runs, o.pair);
    }
  }

  /** A successful process makes exactly one step of progress, or reports a complete run. */
  lemma {:induction false} SuccessAdvances(d: Disk, runs: nat, o: Outcome, kill: Kill, temporary: nat)
    requires Valid(d, runs) && Succeeds(Invoke(d, runs, o, kill, temporary).result)
    ensures var i := Invoke(d, runs, o, kill, temporary);
      && (Progress(d.file) < runs + 9 ==> Progress(i.disk.file) == Progress(d.file) + 1 && i.disk.file != d.file)
      && (Progress(d.file) == runs + 9 ==> i.disk == d)
      && (i.result.Metrics? <==> Progress(i.disk.file) == runs + 9)
  {
    NextStageInOrder(d, runs);
    if d.file.Some? && !d.file.value.complete {
      assert Valid(Disk(Some(d.file.value), {}), runs);
      RecordAdvances(d.file.value, runs, o.pair);
    }
  }

  datatype Attempt = Attempt(outcome: Outcome, kill: Kill, temporary: nat)

  function InvokeWith(d: Disk, runs: nat, a: Attempt): Invocation {
    Invoke(d, runs, a.outcome, a.kill, a.temporary)
  }

  /** The disk after processes run one after another. */
  function AfterAttempts(d: Disk, runs: nat, attempts: seq<Attempt>): Disk
    decreases |attempts|
  {
    if attempts == [] then d else AfterAttempts(InvokeWith(d, runs, attempts[0]).disk, runs, attempts[1..])
  }

  predicate AllSucceed(d: Disk, runs: nat, attempts: seq<Attempt>)
    decreases |attempts|
  {
    attempts == [] ||
    (Succeeds(InvokeWith(d, runs, attempts[0]).result)
     && AllSucceed(InvokeWith(d, runs, attempts[0]).disk, runs, attempts[1..]))
  }

  /** The stage each process works on. */
  function StagesWorked(d: Disk, runs: nat, attempts: seq<Attempt>): seq<Stage>
    decreases |attempts|
  {
    if attempts == [] then []
    else [NextStage(d.file, runs)] + StagesWorked(InvokeWith(d, runs, attempts[0]).disk, runs, attempts[1..])
  }

  lemma {:induction false} FirstAdvances(d: Disk, runs: nat, a: Attempt)
    requires Valid(d, runs) && Succeeds(InvokeWith(d, runs, a).result) && Progress(d.file) < runs + 9
    ensures Valid(InvokeWith(d, runs, a).disk, runs)
    ensures Progress(InvokeWith(d, runs, a).disk.file) == Progress(d.file) + 1
    ensures NextStage(d.file, runs) == StageAt(runs, Progress(d.file))
  {
    NextStageInOrder(d, runs);
    InvocationEffect(d, runs, a.outcome, a.kill, a.temporary);
    SuccessAdvances(d, runs, a.outcome, a.kill, a.temporary);
  }

  lemma {:induction false} ProgressMade(d: Disk, runs: nat, attempts: seq<Attempt>)
    requires Valid(d, runs) && AllSucceed(d, runs, attempts) && Progress(d.file) + |attempts| <= runs + 9
    ensures Valid(AfterAttempts(d, runs, attempts), runs)
    ensures Progress(AfterAttempts(d, runs, attempts).file) == Progress(d.file) + |attempts|
    decreases |attempts|
  {
    if attempts != [] {
      FirstAdvances(d, runs, attempts[0]);
      ProgressMade(InvokeWith(d, runs, attempts[0]).disk, runs, attempts[1..]);
    }
  }

  lemma {:induction false} StageWorked(d: Disk, runs: nat, attempts: seq<Attempt>, i: nat)
    requires Valid(d, runs) && AllSucceed(d, runs, attempts) && Progress(d.file) + |attempts| <= runs + 9
    ensures |StagesWorked(d, runs, attempts)| == |attempts|
    ensures i < |attempts| ==> StagesWorked(d, runs, attempts)[i] == StageAt(runs, Progress(d.file) + i)
    decreases |attempts|
  {
    if attempts != [] {
      FirstAdvances(d, runs, attempts[0]);
      StageWorked(InvokeWith(d, runs, attempts[0]).disk, runs, attempts[1..], if i == 0 then 0 else i - 1);
    }
  }

  lemma {:induction false} SuccessesAdvance(d: Disk, runs: nat, attempts: seq<Attempt>)
    requires Valid(d, runs) && AllSucceed(d, runs, attempts) && Progress(d.file) + |attempts| <= runs + 9
    ensures Valid(AfterAttempts(d, runs, attempts), runs)
    ensures Progress(AfterAttempts(d, runs, attempts).file) == Progress(d.file) + |attempts|
    ensures |StagesWorked(d, runs, attempts)| == |attempts|
    ensures forall i :: 0 <= i < |attempts| ==>
      StagesWorked(d, runs, attempts)[i] == StageAt(runs, Progress(d.file) + i)
  {
    ProgressMade(d, runs, attempts);
    StageWorked(d, runs, attempts, 0);
    forall i | 0 <= i < |attempts| ensures StagesWorked(d, runs, attempts)[i] == StageAt(runs, Progress(d.file) + i) {
      StageWorked(d, runs, attempts, i);
    }
  }

  function StageAt(runs: nat, k: nat): Stage { if k < |Stages(runs)| then Stages(runs)[k] else Finished }

  /** From nothing, runs + 9 successful processes work through the announced stages in
      order; the checkpoint is complete after the last and not before, and its metrics
      assemble. */
  lemma {:induction false} CompletesInRunsPlusNine(runs: nat, roots: set<nat>, attempts: seq<Attempt>)
    requires runs >= 1 && |attempts| <= runs + 9 && AllSucceed(Disk(None, roots), runs, attempts)
    ensures var d := AfterAttempts(Disk(None, roots), runs, attempts);
      && Progress(d.file) == |attempts|
      && |Stages(runs)| == runs + 9
      && StagesWorked(Disk(None, roots), runs, attempts) == Stages(runs)[..|attempts|]
      && (|attempts| == runs + 9 <==> d.file.Some? && d.file.value.complete)
      && (|attempts| == runs + 9 ==> Assembles(d.file.value))
  {
    var d := Disk(None, roots);
    SuccessesAdvance(d, runs, attempts);
    forall i | 0 <= i < |attempts| ensures StagesWorked(d, runs, attempts)[i] == Stages(runs)[i] {
      assert StageAt(runs, i) == Stages(runs)[i];
    }
    NextStageInOrder(AfterAttempts(d, runs, attempts), runs);
  }

  // ------------------------------------------------------- kills and recovery

  /** Whether some process of the list loses the run. */
  predicate LosesSomewhere(d: Disk, runs: nat, attempts: seq<Attempt>)
    decreases |attempts|
  {
    attempts != [] &&
    (LosesRun(d, runs, attempts[0].outcome, attempts[0].kill)
     || LosesSomewhere(InvokeWith(d, runs, attempts[0]).disk, runs, attempts[1..]))
  }

  lemma {:induction false} WedgedExactlyWhenLost(d: Disk, runs: nat, attempts: seq<Attempt>)
    requires Valid(d, runs)
    ensures Valid(AfterAttempts(d, runs, attempts), runs)
    ensures Progress(AfterAttempts(d, runs, attempts).file) >= Progress(d.file)
    ensures Wedged(AfterAttempts(d, runs, attempts)) <==> Wedged(d) || LosesSomewhere(d, runs, attempts)
    decreases |attempts|
  {
    if attempts != [] {
      var a := attempts[0];
      InvocationEffect(d, runs, a.outcome, a.kill, a.temporary);
      InvocationLoss(d, runs, a.outcome, a.kill, a.temporary);
      WedgedExactlyWhenLost(InvokeWith(d, runs, a).disk, runs, attempts[1..]);
    }
  }

  /** A pair the next stage accepts. */
  function AcceptedPair(file: Option<Checkpoint>): Pair {
    var any := Sample(0, 0, "", 0.0, false);
    if file.Some? && file.value.warmNode != [] && file.value.warmMaligator != []
    then Pair(file.value.warmNode[0], file.value.warmMaligator[0])
    else Pair(any, any)
  }

  /** A run that is not lost can be completed. */
  lemma {:induction false} CanComplete(d: Disk, runs: nat) returns (attempts: seq<Attempt>)
    requires runs >= 1 && Valid(d, runs) && !Wedged(d)
    ensures AllSucceed(d, runs, attempts)
    ensures Progress(AfterAttempts(d, runs, attempts).file) == runs + 9
    decreases runs + 9 - Progress(d.file)
  {
    NextStageInOrder(d, runs);
    attempts := [];
    if Progress(d.file) < runs + 9 {
      var a := Attempt(Yields(AcceptedPair(d.file)), Never, 0);
      InvocationEffect(d, runs, a.outcome, a.kill, a.temporary);
      InvocationLoss(d, runs, a.outcome, a.kill, a.temporary);
      if d.file.Some? { RecordAdvances(d.file.value, runs, a.outcome.pair); }
      assert Succeeds(InvokeWith(d, runs, a).result);
      SuccessAdvances(d, runs, a.outcome, a.kill, a.temporary);
      var rest := CanComplete(InvokeWith(d, runs, a).disk, runs);
      attempts := [a] + rest;
      assert attempts[1..] == rest;
    }
  }

  lemma {:induction false} LostForever(d: Disk, runs: nat, attempts: seq<Attempt>)
    requires Valid(d, runs) && Wedged(d)
    ensures AfterAttempts(d, runs, attempts) == d
    ensures attempts != [] ==> !AllSucceed(d, runs, attempts)
    decreases |attempts|
  {
    if attempts != [] {
      var a := attempts[0];
      InvocationLoss(d, runs, a.outcome, a.kill, a.temporary);
      LostForever(d, runs, attempts[1..]);
    }
  }

  /** After any processes, killed anywhere or failing: the run can still be completed if
      and only if none was killed between deleting the binary and recording completion. */
  lemma {:induction false} ResumableExactlyWhenNotLost(runs: nat, roots: set<nat>, attempts: seq<Attempt>)
    requires runs >= 1
    ensures var d := AfterAttempts(Disk(None, roots), runs, attempts);
      (exists more :: Progress(AfterAttempts(d, runs, more).file) == runs + 9)
      <==> !LosesSomewhere(Disk(None, roots), runs, attempts)
  {
    var d := AfterAttempts(Disk(None, roots), runs, attempts);
    WedgedExactlyWhenLost(Disk(None, roots), runs, attempts);
    if Wedged(d) {
      forall more ensures Progress(AfterAttempts(d, runs, more).file) != runs + 9 {
        LostForever(d, runs, more);
        NextStageInOrder(d, runs);
      }
    } else {
      var more := CanComplete(d, runs);
    }
  }

  /** The loss can happen: a kill in the last stage of any run. */
  lemma {:induction false} LossIsReachable(runs: nat, roots: set<nat>) returns (attempts: seq<Attempt>)
    requires runs >= 1
    ensures LosesSomewhere(Disk(None, roots), runs, attempts)
  {
    var d := Disk(None, roots);
    attempts := ReachLastStage(d, runs);
    var last := AfterAttempts(d, runs, attempts);
    LoseAfter(d, runs, attempts);
    attempts := attempts + [Attempt(Yields(AcceptedPair(None)), BetweenEffects, 0)];
  }

  lemma {:induction false} ReachLastStage(d: Disk, runs: nat) returns (attempts: seq<Attempt>)
    requires runs >= 1 && Valid(d, runs) && !Wedged(d) && Progress(d.file) <= runs + 8
    ensures var last := AfterAttempts(d, runs, attempts);
      Valid(last, runs) && !Wedged(last) && Progress(last.file) == runs + 8
    decreases runs + 8 - Progress(d.file)
  {
    NextStageInOrder(d, runs);
    attempts := [];
    if Progress(d.file) < runs + 8 {
      var a := Attempt(Yields(AcceptedPair(d.file)), Never, 0);
      InvocationEffect(d, runs, a.outcome, a.kill, a.temporary);
      InvocationLoss(d, runs, a.outcome, a.kill, a.temporary);
      if d.file.Some? { RecordAdvances(d.file.value, runs, a.outcome.pair); }
      assert Succeeds(InvokeWith(d, runs, a).result);
      SuccessAdvances(d, runs, a.outcome, a.kill, a.temporary);
      var rest := ReachLastStage(InvokeWith(d, runs, a).disk, runs);
      attempts := [a] + rest;
      assert attempts[1..] == rest;
    }
  }

  lemma {:induction false} LoseAfter(d: Disk, runs: nat, attempts: seq<Attempt>)
    requires var last := AfterAttempts(d, runs, attempts);
      Valid(last, runs) && !Wedged(last) && Progress(last.file) == runs + 8
    ensures LosesSomewhere(d, runs, attempts + [Attempt(Yields(AcceptedPair(None)), BetweenEffects, 0)])
    decreases |attempts|
  {
    var a := Attempt(Yields(AcceptedPair(None)), BetweenEffects, 0);
    if attempts == [] {
      NextStageInOrder(d, runs);
      assert [] + [a] == [a];
    } else {
      LoseAfter(InvokeWith(d, runs, attempts[0]).disk, runs, attempts[1..]);
      assert (attempts + [a])[1..] == attempts[1..] + [a];
    }
  }

  // ------------------------------------------------------------- the retry loop

  datatype Ending = Output | Failed | Interrupted | NoProgress | OutOfAttempts

  /** What the loop sees of one process. */
  lemma {:induction false} AttemptStep(d: Disk, runs: nat, a: Attempt)
    requires runs >= 1 && Valid(d, runs)
    ensures var process := InvokeWith(d, runs, a);
      && Valid(process.disk, runs)
      && (process.result.Metrics? ==> Progress(process.disk.file) == runs + 9)
      && (process.result.Pending? ==> process.disk.file.Some? && process.disk.file != d.file)
      && (process.result.Pending? ==> Progress(process.disk.file) < runs + 9)
      && (Succeeds(process.result) && Progress(d.file) < runs + 9 ==>
          Progress(process.disk.file) == Progress(d.file) + 1)
  {
    var process := InvokeWith(d, runs, a);
    InvocationEffect(d, runs, a.outcome, a.kill, a.temporary);
    NextStageInOrder(d, runs);
    NextStageInOrder(process.disk, runs);
    if Succeeds(process.result) { SuccessAdvances(d, runs, a.outcome, a.kill, a.temporary); }
  }

  /** After `used` processes from `start`, all so far short of the end. */
  ghost predicate Underway(start: Disk, runs: nat, attempts: seq<Attempt>, used: nat, d: Disk) {
    && used <= |attempts| && d == AfterAttempts(start, runs, attempts[..used]) && Valid(d, runs)
    && (AllSucceed(start, runs, attempts) ==> AllSucceed(d, runs, attempts[used..]))
    && (AllSucceed(start, runs, attempts) && Progress(start.file) < runs + 9 ==>
        Progress(d.file) == Progress(start.file) + used)
  }

  lemma {:induction false} UnderwayStep(start: Disk, runs: nat, attempts: seq<Attempt>, used: nat, d: Disk)
    requires runs >= 1 && Underway(start, runs, attempts, used, d) && used < |attempts|
    requires AllSucceed(start, runs, attempts) && Progress(start.file) < runs + 9 ==> Progress(d.file) < runs + 9
    ensures Underway(start, runs, attempts, used + 1, InvokeWith(d, runs, attempts[used]).disk)
  {
    AttemptStep(d, runs, attempts[used]);
    AfterOneMore(start, runs, attempts, used);
    assert attempts[used..][0] == attempts[used] && attempts[used..][1..] == attempts[used + 1..];
  }

  /** Runs processes until the snapshot is written. The loop's own "no checkpoint
      progress" error never happens; successes alone end with the snapshot after exactly
      the stages that were missing. */
  method RunSnapshot(start: Disk, runs: nat, attempts: seq<Attempt>) returns (d: Disk, used: nat, ending: Ending)
    requires runs >= 1 && Valid(start, runs)
    ensures used <= |attempts| && d == AfterAttempts(start, runs, attempts[..used])
    ensures Valid(d, runs) && !ending.NoProgress?
    ensures ending.Output? ==> Progress(d.file) == runs + 9
    ensures AllSucceed(start, runs, attempts) && Progress(start.file) < runs + 9 ==>
      |attempts| >= runs + 9 - Progress(start.file) ==>
        ending.Output? && used == runs + 9 - Progress(start.file)
  {
    d, used, ending := start, 0, OutOfAttempts;
    assert attempts[0..] == attempts;
    while used < |attempts|
      invariant Underway(start, runs, attempts, used, d) && ending.OutOfAttempts?
      invariant AllSucceed(start, runs, attempts) && Progress(start.file) < runs + 9 ==> Progress(d.file) < runs + 9
      decreases |attempts| - used
    {
      var previous := d.file;
      var process := InvokeWith(d, runs, attempts[used]);
      AttemptStep(d, runs, attempts[used]);
      UnderwayStep(start, runs, attempts, used, d);
      assert AllSucceed(start, runs, attempts) ==> Succeeds(process.result);
      d, used := process.disk, used + 1;
      match process.result {
        case Killed => ending := Interrupted; return;
        case Error => ending := Failed; return;
        case Metrics => ending := Output; return;
        case Pending =>
          if d.file.None? || d.file == previous { ending := NoProgress; return; }
      }
    }
    assert attempts[..used] == attempts;
  }

  lemma {:induction false} AfterOneMore(d: Disk, runs: nat, attempts: seq<Attempt>, k: nat)
    requires k < |attempts|
    ensures AfterAttempts(d, runs, attempts[..k + 1])
         == InvokeWith(AfterAttempts(d, runs, attempts[..k]), runs, attempts[k]).disk
    decreases k
  {
    if k > 0 {
      AfterOneMore(InvokeWith(d, runs, attempts[0]).disk, runs, attempts[1..], k - 1);
      assert attempts[1..][..k] == attempts[..k + 1][1..] && attempts[1..][..k - 1] == attempts[..k][1..];
    } else {
      assert attempts[..1][1..] == [];
    }
  }
}
