/** The gate of the Argon2 worker-pool test (runtime/argon2_test_main.c): a driver that
    re-arms, starts, releases and waits, and one worker that runs one derivation per
    accepted start. A step is one stretch of code under the gate's mutex, from taking
    the mutex (or waking with it) to giving it up (or going to sleep on the condition);
    steps interleave in every order, and sleepers may wake for no reason. */
module Argon2Gate {

  /** The gate's fields. */
  datatype Gate = Gate(block: bool, entered: bool, exited: bool, calls: nat)

  function Rearmed(g: Gate): Gate { g.(block := true, entered := false, exited := false) }
  function Released(g: Gate): Gate { g.(block := false) }
  function Entered(g: Gate): Gate { g.(calls := g.calls + 1, entered := true) }
  function Exited(g: Gate): Gate { g.(exited := true) }

  /** Where the driver is in its round; `awake` is false while it sleeps on the condition. */
  datatype Driver = Rearm | Start | WaitEntered(awake: bool) | Cancel | Release | WaitExited(awake: bool) | Done

  /** `Parked` is inside the gate's loop on `block`. */
  datatype Worker = Idle | Entering | Parked(awake: bool)

  /** `waits` is false for the protocol without the wait for the derivation to leave. */
  datatype Config = Config(rounds: nat, waits: bool)

  datatype State = State(gate: Gate, driver: Driver, worker: Worker, queued: nat, round: nat)

  datatype Move = DriverMove | WorkerMove | WakeDriver | WakeWorker

  function NextRound(cfg: Config, round: nat): Driver { if round < cfg.rounds then Rearm else Done }

  function Init(cfg: Config): State {
    State(Gate(true, false, false, 0), NextRound(cfg, 0), Idle, 0, 0)
  }

  function WokenDriver(d: Driver): Driver {
    match d
    case WaitEntered(_) => WaitEntered(true)
    case WaitExited(_) => WaitExited(true)
    case _ => d
  }

  function WokenWorker(w: Worker): Worker { if w.Parked? then Parked(true) else w }

  predicate DriverAsleep(d: Driver) { (d.WaitEntered? || d.WaitExited?) && !d.awake }

  predicate WorkerAsleep(w: Worker) { w.Parked? && !w.awake }

  predicate Enabled(s: State, m: Move) {
    match m
    case DriverMove => !s.driver.Done? && !DriverAsleep(s.driver)
    case WorkerMove => (s.worker.Idle? && s.queued > 0) || s.worker.Entering? || (s.worker.Parked? && s.worker.awake)
    case WakeDriver => DriverAsleep(s.driver)
    case WakeWorker => WorkerAsleep(s.worker)
  }

  function DriverStep(cfg: Config, s: State): State
    requires Enabled(s, DriverMove)
  {
    match s.driver
    case Rearm => s.(gate := Rearmed(s.gate), driver := Start)
    case Start => s.(queued := s.queued + 1, driver := WaitEntered(true))
    case WaitEntered(_) => s.(driver := if s.gate.entered then Cancel else WaitEntered(false))
    case Cancel => s.(driver := Release)
    case Release =>
      var released := s.(gate := Released(s.gate), worker := WokenWorker(s.worker));
      if cfg.waits then released.(driver := WaitExited(true))
      else released.(round := s.round + 1, driver := NextRound(cfg, s.round + 1))
    case WaitExited(_) =>
      if s.gate.exited then s.(round := s.round + 1, driver := NextRound(cfg, s.round + 1))
      else s.(driver := WaitExited(false))
  }

  /** Leaving the gate wakes the driver. */
  function Leave(s: State): State {
    s.(gate := Exited(s.gate), worker := Idle, driver := WokenDriver(s.driver))
  }

  function WorkerStep(s: State): State
    requires Enabled(s, WorkerMove)
  {
    match s.worker
    case Idle => s.(queued := s.queued - 1, worker := Entering)
    case Entering =>
      var inside := s.(gate := Entered(s.gate), driver := WokenDriver(s.driver));
      if s.gate.block then inside.(worker := Parked(false)) else Leave(inside)
    case Parked(_) => if s.gate.block then s.(worker := Parked(false)) else Leave(s)
  }

  function Step(cfg: Config, s: State, m: Move): State
    requires Enabled(s, m)
  {
    match m
    case DriverMove => DriverStep(cfg, s)
    case WorkerMove => WorkerStep(s)
    case WakeDriver => s.(driver := WokenDriver(s.driver))
    case WakeWorker => s.(worker := WokenWorker(s.worker))
  }

  /** A schedule that only ever picks enabled moves. */
  predicate Runs(cfg: Config, s: State, moves: seq<Move>)
    decreases |moves|
  {
    moves == [] || (Enabled(s, moves[0]) && Runs(cfg, Step(cfg, s, moves[0]), moves[1..]))
  }

  function After(cfg: Config, s: State, moves: seq<Move>): State
    requires Runs(cfg, s, moves)
    decreases |moves|
  {
    if moves == [] then s else After(cfg, Step(cfg, s, moves[0]), moves[1..])
  }

  /** Nobody can move, short of waking for no reason. */
  predicate Quiet(s: State) { !Enabled(s, DriverMove) && !Enabled(s, WorkerMove) }

  predicate Stuck(s: State) { Quiet(s) && !s.driver.Done? }

  // ------------------------------------------------------- the protocol as written

  ghost predicate Inv(cfg: Config, s: State) {
    var g := s.gate;
    && s.round <= cfg.rounds
    && (s.driver.Done? <==> s.round == cfg.rounds)
    && match s.driver
       case Rearm => s.worker.Idle? && s.queued == 0 && g.calls == s.round
       case Done => s.worker.Idle? && s.queued == 0 && g.calls == s.round
       case Start => s.worker.Idle? && s.queued == 0 && g == Gate(true, false, false, s.round)
       case WaitEntered(awake) =>
         || (s.queued == 1 && s.worker.Idle? && g == Gate(true, false, false, s.round))
         || (s.queued == 0 && s.worker.Entering? && g == Gate(true, false, false, s.round))
         || (s.queued == 0 && s.worker.Parked? && awake && g == Gate(true, true, false, s.round + 1))
       case Cancel => s.queued == 0 && s.worker.Parked? && g == Gate(true, true, false, s.round + 1)
       case Release => s.queued == 0 && s.worker.Parked? && g == Gate(true, true, false, s.round + 1)
       case WaitExited(awake) =>
         || (s.queued == 0 && s.worker == Parked(true) && g == Gate(false, true, false, s.round + 1))
         || (s.queued == 0 && s.worker.Idle? && awake && g == Gate(false, true, true, s.round + 1))
  }

  /** Work left; every move that is not a spurious wake-up uses some of it. */
  function Rank(cfg: Config, s: State): int {
    (cfg.rounds - s.round) * 11 + DriverRank(s.driver) + WorkerRank(s.worker) + s.queued * 4
  }

  function DriverRank(d: Driver): int {
    match d
    case Rearm => 0
    case Start => -1
    case WaitEntered(awake) => if awake then -6 else -7
    case Cancel => -7
    case Release => -8
    case WaitExited(awake) => if awake then -10 else -11
    case Done => 0
  }

  function WorkerRank(w: Worker): int {
    match w
    case Idle => 0
    case Entering => 3
    case Parked(awake) => if awake then 2 else 1
  }

  lemma {:induction false} StepKeepsInv(cfg: Config, s: State, m: Move)
    requires cfg.waits && Inv(cfg, s) && Enabled(s, m)
    ensures Inv(cfg, Step(cfg, s, m))
    ensures Rank(cfg, Step(cfg, s, m)) <= Rank(cfg, s) + (if m.DriverMove? || m.WorkerMove? then -1 else 1)
  { }

  predicate Spurious(m: Move) { m.WakeDriver? || m.WakeWorker? }

  function SpuriousCount(moves: seq<Move>): nat {
    if moves == [] then 0 else (if Spurious(moves[0]) then 1 else 0) + SpuriousCount(moves[1..])
  }

  lemma {:induction false} RunKeepsInv(cfg: Config, s: State, moves: seq<Move>)
    requires cfg.waits && Inv(cfg, s) && Runs(cfg, s, moves)
    ensures Inv(cfg, After(cfg, s, moves))
    ensures |moves| <= Rank(cfg, s) - Rank(cfg, After(cfg, s, moves)) + 2 * SpuriousCount(moves)
    decreases |moves|
  {
    if moves != [] {
      StepKeepsInv(cfg, s, moves[0]);
      RunKeepsInv(cfg, Step(cfg, s, moves[0]), moves[1..]);
    }
  }

  /** Under every schedule: the two never wait for each other, the derivations entered
      are the rounds completed or one more, the schedule is at most 11 moves a round
      (and two for each spurious wake-up), and when nobody can move every round is done. */
  lemma {:induction false} EveryRoundFinishes(cfg: Config, moves: seq<Move>)
    requires cfg.waits && Runs(cfg, Init(cfg), moves)
    ensures var s := After(cfg, Init(cfg), moves);
      && !Stuck(s)
      && s.round <= s.gate.calls <= s.round + 1 && s.gate.calls <= cfg.rounds
      && |moves| <= 11 * cfg.rounds + 2 * SpuriousCount(moves)
      && (Quiet(s) ==> s == State(s.gate, Done, Idle, 0, cfg.rounds) && s.gate.calls == cfg.rounds)
  {
    RunKeepsInv(cfg, Init(cfg), moves);
  }

  // --------------------------------------------- the C functions, in place

  /** The gate and the two threads that share it. Each method is the code of one step. */
  class PoolTest {
    const cfg: Config
    var block: bool
    var entered: bool
    var exited: bool
    var calls: nat
    var driver: Driver
    var worker: Worker
    var queued: nat
    var round: nat

    ghost function Now(): State
      reads this
    {
      State(Gate(block, entered, exited, calls), driver, worker, queued, round)
    }

    constructor (cfg: Config)
      ensures this.cfg == cfg && Now() == Init(cfg)
    {
      this.cfg := cfg;
      block, entered, exited, calls := true, false, false, 0;
      driver, worker, queued, round := NextRound(cfg, 0), Idle, 0, 0;
    }

    method FinishRound()
      modifies this`round, this`driver
      ensures round == old(round) + 1 && driver == NextRound(cfg, round)
    {
      round := round + 1;
      driver := if round < cfg.rounds then Rearm else Done;
    }

    method DriverTurn()
      requires Enabled(Now(), DriverMove)
      modifies this
      ensures Now() == DriverStep(cfg, old(Now()))
    {
      match driver {
        case Rearm =>
          block := true;
          entered := false;
          exited := false;
          driver := Start;
        case Start =>
          queued := queued + 1;
          driver := WaitEntered(true);
        case WaitEntered(_) =>
          driver := if entered then Cancel else WaitEntered(false);
        case Cancel =>
          driver := Release;
        case Release =>
          block := false;
          worker := WokenWorker(worker);
          if cfg.waits { driver := WaitExited(true); } else { FinishRound(); }
        case WaitExited(_) =>
          if exited { FinishRound(); } else { driver := WaitExited(false); }
      }
    }

    /** The loop on `block`: sleep, or leave and wake the driver. */
    method Linger()
      modifies this`exited, this`worker, this`driver
      ensures block ==> Now() == old(Now()).(worker := Parked(false))
      ensures !block ==> Now() == Leave(old(Now()))
    {
      if block {
        worker := Parked(false);
      } else {
        exited := true;
        driver := WokenDriver(driver);
        worker := Idle;
      }
    }

    method WorkerTurn()
      requires Enabled(Now(), WorkerMove)
      modifies this
      ensures Now() == WorkerStep(old(Now()))
    {
      match worker {
        case Idle =>
          queued := queued - 1;
          worker := Entering;
        case Entering =>
          calls := calls + 1;
          entered := true;
          driver := WokenDriver(driver);
          Linger();
        case Parked(_) =>
          Linger();
      }
    }

    /** Plays a schedule on the shared fields. Whatever the schedule, the test is not stuck
        at its end, has entered a derivation for every round completed and at most one more,
        and where nobody can move all the rounds are done. */
    method Play(schedule: seq<Move>)
      requires Now() == Init(cfg) && Runs(cfg, Init(cfg), schedule)
      modifies this
      ensures Now() == After(cfg, Init(cfg), schedule)
      ensures cfg.waits ==> !Stuck(Now()) && round <= calls <= round + 1 && calls <= cfg.rounds
      ensures cfg.waits && Quiet(Now()) ==>
        driver == Done && worker == Idle && queued == 0 && round == calls == cfg.rounds
    {
      for k := 0 to |schedule|
        invariant Runs(cfg, Now(), schedule[k..])
        invariant After(cfg, Now(), schedule[k..]) == After(cfg, Init(cfg), schedule)
      {
        assert schedule[k..][0] == schedule[k] && schedule[k..][1..] == schedule[k + 1..];
        match schedule[k] {
          case DriverMove => DriverTurn();
          case WorkerMove => WorkerTurn();
          case WakeDriver => driver := WokenDriver(driver);
          case WakeWorker => worker := WokenWorker(worker);
        }
      }
      if cfg.waits { EveryRoundFinishes(cfg, schedule); }
    }
  }

  lemma {:induction false} RunsAppend(cfg: Config, s: State, moves: seq<Move>, m: Move)
    requires Runs(cfg, s, moves) && Enabled(After(cfg, s, moves), m)
    ensures Runs(cfg, s, moves + [m])
    ensures After(cfg, s, moves + [m]) == Step(cfg, After(cfg, s, moves), m)
    decreases |moves|
  {
    if moves == [] {
      assert ([] + [m])[1..] == [];
    } else {
      RunsAppend(cfg, Step(cfg, s, moves[0]), moves[1..], m);
      assert (moves + [m])[1..] == moves[1..] + [m];
    }
  }

  // -------------------------------------------- without the wait for the exit

  const LOSING_SCHEDULE: seq<Move> := [
    DriverMove, DriverMove,              // re-arm, start
    WorkerMove, WorkerMove,              // take the job, park
    DriverMove, DriverMove, DriverMove,  // entered; cancel; release
    DriverMove, DriverMove, DriverMove,  // re-arm and start again before the worker leaves; sleep
    WorkerMove]                          // the worker finds the gate blocked again

  /** The driver waits for the second derivation to enter and the worker, still in the
      first, waits for a release. */
  function Deadlock(): State { State(Gate(true, false, false, 1), WaitEntered(false), Parked(false), 1, 1) }

  lemma {:induction false} Play(cfg: Config, k: nat, s: State)
    requires k < |LOSING_SCHEDULE| && Enabled(s, LOSING_SCHEDULE[k])
    requires Runs(cfg, Init(cfg), LOSING_SCHEDULE[..k]) && After(cfg, Init(cfg), LOSING_SCHEDULE[..k]) == s
    ensures Runs(cfg, Init(cfg), LOSING_SCHEDULE[..k + 1])
    ensures After(cfg, Init(cfg), LOSING_SCHEDULE[..k + 1]) == Step(cfg, s, LOSING_SCHEDULE[k])
  {
    RunsAppend(cfg, Init(cfg), LOSING_SCHEDULE[..k], LOSING_SCHEDULE[k]);
    assert LOSING_SCHEDULE[..k + 1] == LOSING_SCHEDULE[..k] + [LOSING_SCHEDULE[k]];
  }

  lemma {:induction false} LosingSchedule(cfg: Config)
    requires !cfg.waits && cfg.rounds >= 2
    ensures Runs(cfg, Init(cfg), LOSING_SCHEDULE) && After(cfg, Init(cfg), LOSING_SCHEDULE) == Deadlock()
  {
    var s := Init(cfg);
    for k := 0 to 11
      invariant Runs(cfg, Init(cfg), LOSING_SCHEDULE[..k]) && After(cfg, Init(cfg), LOSING_SCHEDULE[..k]) == s
      invariant s == Losing(cfg, k)
    {
      Play(cfg, k, s);
      s := Step(cfg, s, LOSING_SCHEDULE[k]);
    }
    assert LOSING_SCHEDULE[..11] == LOSING_SCHEDULE;
  }

  /** The states of the losing schedule. */
  function Losing(cfg: Config, k: nat): State
    requires k <= 11
  {
    match k
    case 0 => Init(cfg)
    case 1 => State(Gate(true, false, false, 0), Start, Idle, 0, 0)
    case 2 => State(Gate(true, false, false, 0), WaitEntered(true), Idle, 1, 0)
    case 3 => State(Gate(true, false, false, 0), WaitEntered(true), Entering, 0, 0)
    case 4 => State(Gate(true, true, false, 1), WaitEntered(true), Parked(false), 0, 0)
    case 5 => State(Gate(true, true, false, 1), Cancel, Parked(false), 0, 0)
    case 6 => State(Gate(true, true, false, 1), Release, Parked(false), 0, 0)
    case 7 => State(Gate(false, true, false, 1), Rearm, Parked(true), 0, 1)
    case 8 => State(Gate(true, false, false, 1), Start, Parked(true), 0, 1)
    case 9 => State(Gate(true, false, false, 1), WaitEntered(true), Parked(true), 1, 1)
    case 10 => State(Gate(true, false, false, 1), WaitEntered(false), Parked(true), 1, 1)
    case 11 => Deadlock()
  }

  /** Each waits for the other. */
  predicate Wedged(s: State) {
    s.driver.WaitEntered? && !s.gate.entered && s.worker.Parked? && s.gate.block
  }

  /** Nothing gets the two out again, whoever wakes up. */
  lemma {:induction false} WedgedForever(cfg: Config, s: State, moves: seq<Move>)
    requires Wedged(s) && Runs(cfg, s, moves)
    ensures Wedged(After(cfg, s, moves))
    decreases |moves|
  {
    if moves != [] { WedgedForever(cfg, Step(cfg, s, moves[0]), moves[1..]); }
  }

  ghost predicate OneRoundInv(cfg: Config, s: State) {
    s.driver.Done? || (Inv(cfg, s) && s.round == 0 && !s.driver.WaitExited?)
  }

  lemma {:induction false} OneRoundNeverSticks(cfg: Config, s: State, moves: seq<Move>)
    requires !cfg.waits && cfg.rounds <= 1 && OneRoundInv(cfg, s) && Runs(cfg, s, moves)
    ensures OneRoundInv(cfg, After(cfg, s, moves))
    decreases |moves|
  {
    if moves != [] { OneRoundNeverSticks(cfg, Step(cfg, s, moves[0]), moves[1..]); }
  }

  /** Without the wait for the exit, a schedule that sticks exists exactly when the test
      has a second round, and then nothing gets it going again. */
  lemma {:induction false} ExitWaitIsNeeded(cfg: Config)
    requires !cfg.waits
    ensures (exists moves :: Runs(cfg, Init(cfg), moves) && Stuck(After(cfg, Init(cfg), moves))) <==> cfg.rounds >= 2
    ensures cfg.rounds >= 2 ==>
      forall more :: Runs(cfg, Deadlock(), more) ==> !After(cfg, Deadlock(), more).driver.Done?
  {
    if cfg.rounds >= 2 {
      LosingSchedule(cfg);
      assert Stuck(After(cfg, Init(cfg), LOSING_SCHEDULE));
    } else {
      forall moves | Runs(cfg, Init(cfg), moves) ensures !Stuck(After(cfg, Init(cfg), moves)) {
        OneRoundNeverSticks(cfg, Init(cfg), moves);
      }
    }
    forall more | Runs(cfg, Deadlock(), more) ensures !After(cfg, Deadlock(), more).driver.Done? {
      WedgedForever(cfg, Deadlock(), more);
    }
  }
}
