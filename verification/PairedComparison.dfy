/** The base/head comparison (scripts/bench-compare.ts): snapshots are measured once,
    stored under a label, and paired; an interrupted comparison starts over in memory
    and reads what is stored.

    A snapshot is the map from metric path to number that flattening its JSON gives.
    Which metrics count, which snapshots are comparable and when the evidence is decided
    are parameters. Measuring is an input: each attempt yields values or ends the run. */
module PairedComparison {

  type Values = map<string, real>

  datatype Sample = Sample(base: real, head: real)
  type Samples = map<string, seq<Sample>>

  /** `Other` names the file of the lanes besides HTTP, which are measured first. */
  datatype Label = WarmBase | WarmHead | PairBase(index: nat) | PairHead(index: nat) | Other(name: Label)
  type Store = map<Label, Values>

  datatype PairValues = PairValues(base: Values, head: Values)

  /** Which metrics count, which snapshots compare, and when the evidence is decided. */
  datatype Rules = Rules(
    pairs: nat,
    policy: string -> bool,
    comparable: (Values, Values) -> bool,
    decided: Samples -> bool)

  /** `judge` rules on the pairs so far, after each pair; `split` tells that HTTP is
      compared together with other lanes. */
  datatype Config = Config(maxPairs: nat, judge: seq<PairValues> -> Judgement, split: bool)
  datatype Judgement = Give(outcome: Outcome) | Continue

  datatype Event = Measured(values: Values) | Interrupted | Failed

  /** How an invocation ends; a stopped one can be resumed. */
  datatype Outcome =
    | Complete(pairs: seq<PairValues>)
    | Stopped(at: Label)
    | Incomparable(pair: nat)
    | NoPairedMetrics(pair: nat)

  // ------------------------------------------------------------ paired samples

  /** Metrics present in both snapshots of every pair. */
  ghost predicate InAll(pairs: seq<PairValues>, m: string) {
    forall i :: 0 <= i < |pairs| ==> m in pairs[i].base && m in pairs[i].head
  }

  function KeptUpTo(policy: string -> bool, pairs: seq<PairValues>): set<string> {
    if pairs == [] then {}
    else if |pairs| == 1 then set m | m in pairs[0].base && policy(m) && m in pairs[0].head
    else
      var p := pairs[|pairs| - 1];
      set m | m in KeptUpTo(policy, pairs[..|pairs| - 1]) && m in p.base && m in p.head
  }

  /** Metrics seen anywhere, whether kept or not. */
  function SeenUpTo(policy: string -> bool, pairs: seq<PairValues>): set<string> {
    if pairs == [] then {}
    else
      var p := pairs[|pairs| - 1];
      SeenUpTo(policy, pairs[..|pairs| - 1]) + (set m | m in p.base && policy(m)) + (set m | m in p.head && policy(m))
  }

  function SampleOf(pairs: seq<PairValues>, m: string): seq<Sample>
    requires InAll(pairs, m)
  {
    seq(|pairs|, i requires 0 <= i < |pairs| => Sample(pairs[i].base[m], pairs[i].head[m]))
  }

  lemma {:induction false} KeptMeans(policy: string -> bool, pairs: seq<PairValues>, m: string)
    ensures m in KeptUpTo(policy, pairs) <==> pairs != [] && policy(m) && InAll(pairs, m)
  {
    if |pairs| > 1 {
      var before := pairs[..|pairs| - 1];
      KeptMeans(policy, before, m);
      if InAll(before, m) && m in pairs[|pairs| - 1].base && m in pairs[|pairs| - 1].head {
        forall i | 0 <= i < |pairs| ensures m in pairs[i].base && m in pairs[i].head {
          assert i < |before| ==> before[i] == pairs[i];
        }
      }
      if InAll(pairs, m) { assert forall i :: 0 <= i < |before| ==> before[i] == pairs[i]; }
    }
  }

  lemma {:induction false} SeenMeans(policy: string -> bool, pairs: seq<PairValues>, m: string)
    ensures m in SeenUpTo(policy, pairs) <==>
      policy(m) && exists i :: 0 <= i < |pairs| && (m in pairs[i].base || m in pairs[i].head)
  {
    if pairs != [] {
      var before, last := pairs[..|pairs| - 1], pairs[|pairs| - 1];
      SeenMeans(policy, before, m);
      if m in SeenUpTo(policy, before) {
        var i :| 0 <= i < |before| && (m in before[i].base || m in before[i].head);
        assert pairs[i] == before[i];
      }
      if i :| 0 <= i < |pairs| && (m in pairs[i].base || m in pairs[i].head) {
        assert i < |before| ==> before[i] == pairs[i];
      }
      assert pairs[|pairs| - 1] == last;
    }
  }

  /** The samples a completed list of pairs gives. */
  function SamplesOf(policy: string -> bool, pairs: seq<PairValues>): Samples {
    map m | m in KeptUpTo(policy, pairs) :: (KeptMeans(policy, pairs, m); SampleOf(pairs, m))
  }

  function UnpairedOf(policy: string -> bool, pairs: seq<PairValues>): set<string> {
    SeenUpTo(policy, pairs) - KeptUpTo(policy, pairs)
  }

  /** A metric has a sample for every pair, or is unpaired, never both; it keeps its
      samples exactly while both snapshots of every pair have it. */
  lemma {:induction false} SamplesMean(policy: string -> bool, pairs: seq<PairValues>, m: string)
    ensures m in SamplesOf(policy, pairs) <==> pairs != [] && policy(m) && InAll(pairs, m)
    ensures m in SamplesOf(policy, pairs) ==>
      && |SamplesOf(policy, pairs)[m]| == |pairs| && InAll(pairs, m)
      && forall i :: 0 <= i < |pairs| ==> SamplesOf(policy, pairs)[m][i] == Sample(pairs[i].base[m], pairs[i].head[m])
    ensures m in UnpairedOf(policy, pairs) <==>
      && policy(m) && m !in SamplesOf(policy, pairs)
      && exists i :: 0 <= i < |pairs| && (m in pairs[i].base || m in pairs[i].head)
  {
    KeptMeans(policy, pairs, m);
    SeenMeans(policy, pairs, m);
  }

  /** An unpaired metric never returns, whatever pairs follow. */
  lemma {:induction false} UnpairedForever(policy: string -> bool, pairs: seq<PairValues>, more: seq<PairValues>,
                                           m: string)
    requires m in UnpairedOf(policy, pairs)
    ensures m in UnpairedOf(policy, pairs + more) && m !in SamplesOf(policy, pairs + more)
  {
    var all := pairs + more;
    SamplesMean(policy, pairs, m);
    SamplesMean(policy, all, m);
    assert forall i :: 0 <= i < |pairs| ==> all[i] == pairs[i];
    var i :| 0 <= i < |pairs| && (m in pairs[i].base || m in pairs[i].head);
    assert all[i] == pairs[i];
  }

  /** Metrics of a pair that cannot stay paired. */
  function Dropped(all: set<string>, base: Values, head: Values, samples: Samples, first: bool): set<string> {
    set m | m in all && (m !in base || m !in head || (!first && m !in samples))
  }

  function Previous(samples: Samples, m: string): seq<Sample> { if m in samples then samples[m] else [] }

  /** One more sample for each metric of `paths` that is not unpaired. */
  function Pushed(samples: Samples, paths: set<string>, base: Values, head: Values): Samples {
    map m | m in samples.Keys + paths ::
      Previous(samples, m) + if m in paths && m in base && m in head then [Sample(base[m], head[m])] else []
  }

  lemma {:induction false} PushedNone(samples: Samples, base: Values, head: Values)
    ensures Pushed(samples, {}, base, head) == samples
  {
    assert samples.Keys + {} == samples.Keys;
    forall m | m in samples ensures Pushed(samples, {}, base, head)[m] == samples[m] {
      assert samples[m] + [] == samples[m];
    }
  }

  lemma {:induction false} PushedStep(samples: Samples, done: set<string>, m: string, base: Values, head: Values)
    requires m !in done && m in base && m in head
    ensures Pushed(samples, done + {m}, base, head)
         == Pushed(samples, done, base, head)[m := Previous(samples, m) + [Sample(base[m], head[m])]]
    ensures Previous(Pushed(samples, done, base, head), m) == Previous(samples, m)
  {
    assert samples.Keys + (done + {m}) == samples.Keys + done + {m};
  }

  function PolicyPaths(policy: string -> bool, v: Values): set<string> { set m | m in v && policy(m) }

  /** What one more pair does to one metric. */
  lemma {:induction false} NextPairAt(policy: string -> bool, pairs: seq<PairValues>, base: Values, head: Values,
                                      m: string)
    ensures var next := pairs + [PairValues(base, head)];
      && (m in KeptUpTo(policy, next) <==>
          policy(m) && m in base && m in head && (pairs == [] || m in KeptUpTo(policy, pairs)))
      && (m in SeenUpTo(policy, next) <==> m in SeenUpTo(policy, pairs) || (policy(m) && (m in base || m in head)))
    ensures m in KeptUpTo(policy, pairs) ==> m in SeenUpTo(policy, pairs)
    ensures m in SeenUpTo(policy, pairs) ==> policy(m)
    ensures pairs == [] ==> m !in SeenUpTo(policy, pairs)
  {
    var next := pairs + [PairValues(base, head)];
    assert next[..|pairs|] == pairs;
    KeptMeans(policy, pairs, m);
    SeenMeans(policy, pairs, m);
    if m in KeptUpTo(policy, pairs) { assert m in pairs[0].base; }
    KeptMeans(policy, next, m);
  }

  /** Dropping leaves as unpaired exactly what is seen and not kept. */
  lemma {:induction false} NextPair(policy: string -> bool, pairs: seq<PairValues>, base: Values, head: Values)
    ensures var kept, seen := KeptUpTo(policy, pairs), SeenUpTo(policy, pairs);
      var paths := PolicyPaths(policy, base);
      var all := paths + PolicyPaths(policy, head) + kept;
      var bad := Dropped(all, base, head, SamplesOf(policy, pairs), pairs == []);
      var next := pairs + [PairValues(base, head)];
      && (seen - kept) + bad == SeenUpTo(policy, next) - KeptUpTo(policy, next)
      && paths - ((seen - kept) + bad) == KeptUpTo(policy, next)
      && kept - bad <= KeptUpTo(policy, next)
  {
    var kept, seen := KeptUpTo(policy, pairs), SeenUpTo(policy, pairs);
    var paths := PolicyPaths(policy, base);
    var all := paths + PolicyPaths(policy, head) + kept;
    var bad := Dropped(all, base, head, SamplesOf(policy, pairs), pairs == []);
    var next := pairs + [PairValues(base, head)];
    assert SamplesOf(policy, pairs).Keys == kept;
    forall m ensures (m in (seen - kept) + bad <==> m in SeenUpTo(policy, next) - KeptUpTo(policy, next))
                  && (m in paths - ((seen - kept) + bad) <==> m in KeptUpTo(policy, next))
                  && (m in kept - bad ==> m in KeptUpTo(policy, next)) {
      NextPairAt(policy, pairs, base, head, m);
    }
  }

  lemma {:induction false} NextSamples(policy: string -> bool, pairs: seq<PairValues>, base: Values, head: Values)
    ensures var samples, next := SamplesOf(policy, pairs), pairs + [PairValues(base, head)];
      var bad := samples.Keys - KeptUpTo(policy, next);
      Pushed(samples - bad, KeptUpTo(policy, next), base, head) == SamplesOf(policy, next)
  {
    var samples, next := SamplesOf(policy, pairs), pairs + [PairValues(base, head)];
    var kept := KeptUpTo(policy, next);
    var left := samples - (samples.Keys - kept);
    var pushed := Pushed(left, kept, base, head);
    assert left.Keys + kept == kept;
    forall m | m in kept ensures pushed[m] == SamplesOf(policy, next)[m] {
      NextPairAt(policy, pairs, base, head, m);
      KeptMeans(policy, next, m);
      KeptMeans(policy, pairs, m);
      SampleAppend(pairs, base, head, m);
    }
  }

  lemma {:induction false} SampleAppend(pairs: seq<PairValues>, base: Values, head: Values, m: string)
    requires InAll(pairs + [PairValues(base, head)], m)
    ensures InAll(pairs, m) && m in base && m in head
    ensures SampleOf(pairs + [PairValues(base, head)], m) == SampleOf(pairs, m) + [Sample(base[m], head[m])]
  {
    var next := pairs + [PairValues(base, head)];
    assert next[|pairs|] == PairValues(base, head);
    assert forall i :: 0 <= i < |pairs| ==> next[i] == pairs[i];
  }

  /** The comparison's memory: what one invocation accumulates. */
  class Pairing {
    var samples: Samples
    var unpaired: set<string>
    var pairCount: nat
    const policy: string -> bool

    constructor (policy: string -> bool)
      ensures this.policy == policy && Holds([])
    {
      this.policy := policy;
      samples, unpaired, pairCount := map[], {}, 0;
    }

    /** After the given pairs: one sample per pair for each metric kept, every other
        metric seen is unpaired, and none is both. */
    ghost predicate Holds(pairs: seq<PairValues>)
      reads this
    {
      && pairCount == |pairs|
      && samples == SamplesOf(policy, pairs)
      && unpaired == UnpairedOf(policy, pairs)
    }

    /** Adds a pair; `kept` tells whether any metric is still paired. If not, the
        comparison fails before anything is sampled. */
    method AddPair(base: Values, head: Values, ghost pairs: seq<PairValues>) returns (kept: bool)
      requires Holds(pairs)
      modifies this
      ensures kept <==> KeptUpTo(policy, pairs + [PairValues(base, head)]) != {}
      ensures kept ==> Holds(pairs + [PairValues(base, head)])
    {
      var paths := PolicyPaths(policy, base);
      ghost var next := pairs + [PairValues(base, head)];
      NextPair(policy, pairs, base, head);
      NextSamples(policy, pairs, base, head);
      DropUnpaired(base, head, paths + PolicyPaths(policy, head) + samples.Keys);
      ghost var before := SamplesOf(policy, pairs);
      assert paths - unpaired == KeptUpTo(policy, next);
      assert samples == before - (before.Keys - KeptUpTo(policy, next));
      kept := paths - unpaired != {};
      if kept {
        PushSamples(base, head, paths - unpaired);
        pairCount := pairCount + 1;
      }
    }

    method DropUnpaired(base: Values, head: Values, all: set<string>)
      modifies this
      ensures pairCount == old(pairCount)
      ensures var bad := Dropped(all, base, head, old(samples), pairCount == 0);
        unpaired == old(unpaired) + bad && samples == old(samples) - bad
    {
      ghost var bad := Dropped(all, base, head, samples, pairCount == 0);
      var todo := all;
      while todo != {}
        invariant todo <= all && pairCount == old(pairCount)
        invariant unpaired == old(unpaired) + bad * (all - todo)
        invariant samples == old(samples) - bad * (all - todo)
        decreases todo
      {
        var m :| m in todo;
        assert m in samples <==> m in old(samples);
        assert all - (todo - {m}) == (all - todo) + {m};
        todo := todo - {m};
        if m !in base || m !in head || (pairCount > 0 && m !in samples) {
          unpaired := unpaired + {m};
          samples := samples - {m};
        }
      }
      assert bad * (all - todo) == bad;
    }

    method PushSamples(base: Values, head: Values, paths: set<string>)
      requires forall m :: m in paths ==> m in base && m in head
      modifies `samples
      ensures samples == Pushed(old(samples), paths, base, head)
    {
      var todo := paths;
      PushedNone(samples, base, head);
      assert paths - todo == {};
      while todo != {}
        invariant todo <= paths
        invariant samples == Pushed(old(samples), paths - todo, base, head)
        decreases todo
      {
        var m :| m in todo;
        PushedStep(old(samples), paths - todo, m, base, head);
        assert paths - (todo - {m}) == (paths - todo) + {m};
        todo := todo - {m};
        var values := if m in samples then samples[m] else [];
        samples := samples[m := values + [Sample(base[m], head[m])]];
      }
      assert paths - todo == paths;
    }
  }

  // ------------------------------------------------- interruption and resumption

  /** A successful measurement and the label it was made for. */
  datatype Taken = Taken(name: Label, values: Values)

  /** What reading or measuring one snapshot leads to. */
  datatype Reading =
    | Reading(values: Values, store: Store, events: seq<Event>, taken: seq<Taken>)
    | NoReading(store: Store, taken: seq<Taken>)

  /** A stored file is read back; otherwise it is measured and stored. */
  function Measure(store: Store, name: Label, events: seq<Event>): Reading {
    if name in store then Reading(store[name], store, events, [])
    else if events != [] && events[0].Measured? then
      Reading(events[0].values, store[name := events[0].values], events[1..], [Taken(name, events[0].values)])
    else NoReading(store, [])
  }

  /** With HTTP among several lanes, the other lanes have a file of their own, and the
      snapshot stored is theirs with the HTTP values added. */
  function Obtain(split: bool, store: Store, name: Label, events: seq<Event>): Reading {
    if !split || name in store then Measure(store, name, events)
    else AddHttp(name, Measure(store, Other(name), events))
  }

  function AddHttp(name: Label, other: Reading): Reading {
    if other.NoReading? then other
    else if other.events != [] && other.events[0].Measured? then
      var merged := other.values + other.events[0].values;
      Reading(merged, other.store[name := merged], other.events[1..],
              other.taken + [Taken(name, other.events[0].values)])
    else NoReading(other.store, other.taken)
  }

  /** What an invocation has in memory: the warm-up snapshots seen, the pairs, and the
      first snapshot of the pair being taken. */
  datatype Memory = Memory(warm: nat, pairs: seq<PairValues>, first: seq<Values>)

  const START := Memory(0, [], [])

  predicate WellFormed(cfg: Config, mem: Memory) {
    && mem.warm <= 2 && |mem.first| <= 1
    && (mem.warm < 2 ==> mem.pairs == [] && mem.first == [])
    && (mem.first != [] ==> |mem.pairs| < cfg.maxPairs)
  }

  predicate AtEnd(cfg: Config, mem: Memory) { mem.warm == 2 && mem.first == [] && |mem.pairs| >= cfg.maxPairs }

  /** The snapshot taken next; base and head take turns at going first. */
  function NextLabel(mem: Memory): Label {
    var k := |mem.pairs|;
    if mem.warm == 0 then WarmBase
    else if mem.warm == 1 then WarmHead
    else if (mem.first == []) == (k % 2 == 0) then PairBase(k)
    else PairHead(k)
  }

  datatype Verdict = End(outcome: Outcome) | More(mem: Memory)

  /** What a snapshot does to the memory: a second one completes a pair, which is judged. */
  function Absorb(cfg: Config, mem: Memory, v: Values): Verdict {
    var k := |mem.pairs|;
    if mem.warm < 2 then More(mem.(warm := mem.warm + 1))
    else if mem.first == [] then More(mem.(first := [v]))
    else
      var pair := if k % 2 == 0 then PairValues(mem.first[0], v) else PairValues(v, mem.first[0]);
      match cfg.judge(mem.pairs + [pair])
      case Give(outcome) => End(outcome)
      case Continue => More(mem.(pairs := mem.pairs + [pair], first := []))
  }

  /** The rules as they are applied to the pairs so far. */
  function Judge(rules: Rules): seq<PairValues> -> Judgement {
    (pairs: seq<PairValues>) =>
      if pairs == [] then Continue
      else
        var last := pairs[|pairs| - 1];
        if !rules.comparable(last.base, last.head) then Give(Incomparable(|pairs| - 1))
        else if KeptUpTo(rules.policy, pairs) == {} then Give(NoPairedMetrics(|pairs| - 1))
        else if |pairs| >= rules.pairs && rules.decided(SamplesOf(rules.policy, pairs)) then Give(Complete(pairs))
        else Continue
  }

  /** Snapshots that can still be asked for. */
  function Remaining(cfg: Config, mem: Memory): int {
    (if mem.warm < 2 then 2 - mem.warm else 0)
    + 2 * (if |mem.pairs| < cfg.maxPairs then cfg.maxPairs - |mem.pairs| else 0)
    + 1 - (if |mem.first| <= 1 then |mem.first| else 1)
  }

  /** An invocation: the store it leaves, how it ends, and what it measured. */
  datatype Invocation = Invocation(store: Store, outcome: Outcome, taken: seq<Taken>)

  function Run(cfg: Config, store: Store, mem: Memory, events: seq<Event>): Invocation
    requires WellFormed(cfg, mem)
    decreases Remaining(cfg, mem)
  {
    if AtEnd(cfg, mem) then Invocation(store, Complete(mem.pairs), [])
    else
      var r := Obtain(cfg.split, store, NextLabel(mem), events);
      if r.NoReading? then Invocation(r.store, Stopped(NextLabel(mem)), r.taken)
      else
        match Absorb(cfg, mem, r.values)
        case End(outcome) => Invocation(r.store, outcome, r.taken)
        case More(mem') =>
          After(r.taken, Run(cfg, r.store, mem', r.events))
  }

  /** The same invocation, with measurements before it. */
  function After(taken: seq<Taken>, i: Invocation): Invocation { i.(taken := taken + i.taken) }

  lemma {:induction false} AfterLaws(a: seq<Taken>, b: seq<Taken>, i: Invocation)
    ensures After([], i) == i
    ensures After(a, After(b, i)) == After(a + b, i)
  {
    assert a + (b + i.taken) == (a + b) + i.taken;
  }

  ghost predicate Extends(store: Store, larger: Store) {
    forall l :: l in store ==> l in larger && larger[l] == store[l]
  }

  function Labels(taken: seq<Taken>): set<Label> { set t | t in taken :: t.name }

  ghost predicate LabelsDistinct(taken: seq<Taken>) {
    forall i, j :: 0 <= i < j < |taken| ==> taken[i].name != taken[j].name
  }

  /** What was stored stays, and what was measured is what is new, each label once. */
  ghost predicate Grows(store: Store, taken: seq<Taken>, larger: Store) {
    && Extends(store, larger) && LabelsDistinct(taken)
    && Labels(taken) !! store.Keys && larger.Keys == store.Keys + Labels(taken)
  }

  lemma {:induction false} GrowsMore(a: Store, t: seq<Taken>, b: Store, u: seq<Taken>, c: Store)
    requires Grows(a, t, b) && Grows(b, u, c)
    ensures Grows(a, t + u, c)
  {
    assert Labels(t + u) == Labels(t) + Labels(u);
    forall i, j | 0 <= i < |t| && 0 <= j < |u| ensures t[i].name != u[j].name {
      assert t[i].name in Labels(t) && u[j].name in Labels(u);
    }
  }

  lemma {:induction false} MeasureGrows(store: Store, name: Label, events: seq<Event>)
    ensures var r := Measure(store, name, events); Grows(store, r.taken, r.store)
  {
    var r := Measure(store, name, events);
    assert Labels([]) == {};
    if r.taken != [] { assert Labels(r.taken) == {name}; }
  }

  lemma {:induction false} ObtainGrows(split: bool, store: Store, name: Label, events: seq<Event>)
    ensures var r := Obtain(split, store, name, events); Grows(store, r.taken, r.store)
  {
    if !split || name in store {
      MeasureGrows(store, name, events);
    } else {
      var other := Measure(store, Other(name), events);
      var r := AddHttp(name, other);
      MeasureGrows(store, Other(name), events);
      if r.Reading? {
        var last := r.taken[|other.taken|];
        assert Labels([last]) == {name};
        assert name !in other.store;
        assert Grows(other.store, [last], r.store);
        GrowsMore(store, other.taken, other.store, [last], r.store);
      }
    }
  }

  function Successes(taken: seq<Taken>): seq<Event> {
    seq(|taken|, i requires 0 <= i < |taken| => Measured(taken[i].values))
  }

  /** A stored snapshot is never measured again or replaced. */
  lemma {:induction false} RunGrows(cfg: Config, store: Store, mem: Memory, events: seq<Event>)
    requires WellFormed(cfg, mem)
    ensures var r := Run(cfg, store, mem, events); Grows(store, r.taken, r.store)
    decreases Remaining(cfg, mem)
  {
    if AtEnd(cfg, mem) {
      assert Labels([]) == {};
    } else {
      var r := Obtain(cfg.split, store, NextLabel(mem), events);
      ObtainGrows(cfg.split, store, NextLabel(mem), events);
      if r.Reading? {
        match Absorb(cfg, mem, r.values)
        case End(_) =>
        case More(mem') =>
          RunGrows(cfg, r.store, mem', r.events);
          var rest := Run(cfg, r.store, mem', r.events);
          GrowsMore(store, r.taken, r.store, rest.taken, rest.store);
      }
    }
  }

  /** Measuring again from the start: the earlier successes, then other events. */
  lemma {:induction false} MeasureAgain(store: Store, name: Label, events: seq<Event>, more: seq<Event>)
    requires Measure(store, name, events).Reading?
    ensures var r := Measure(store, name, events);
      Measure(store, name, Successes(r.taken) + more) == Reading(r.values, r.store, more, r.taken)
  {
    var r := Measure(store, name, events);
    if name in store {
      assert Successes([]) + more == more;
    } else {
      var all := Successes(r.taken) + more;
      assert all[0] == Measured(r.values) && all[1..] == more;
    }
  }

  lemma {:induction false} SuccessesSplit(a: seq<Taken>, b: seq<Taken>, last: seq<Event>)
    ensures Successes(a + b) + last == Successes(a) + (Successes(b) + last)
  { }

  /** A snapshot obtained once is obtained again: read from any later store, or measured
      from the same successes. */
  lemma {:induction false} ObtainAgain(split: bool, store: Store, larger: Store, name: Label, events: seq<Event>,
                                       taken: seq<Taken>, later: seq<Event>)
    requires Obtain(split, store, name, events).Reading? && Extends(Obtain(split, store, name, events).store, larger)
    ensures var r := Obtain(split, store, name, events);
      && Obtain(split, larger, name, later) == Reading(r.values, larger, later, [])
      && Obtain(split, store, name, Successes(r.taken + taken) + later)
         == Reading(r.values, r.store, Successes(taken) + later, r.taken)
  {
    var r := Obtain(split, store, name, events);
    assert name in r.store && r.store[name] == r.values;
    SuccessesSplit(r.taken, taken, later);
    if !split || name in store {
      MeasureAgain(store, name, events, Successes(taken) + later);
    } else {
      var other := Measure(store, Other(name), events);
      var http := [Taken(name, other.events[0].values)];
      var more := Successes(http) + (Successes(taken) + later);
      SuccessesSplit(other.taken, http, Successes(taken) + later);
      MeasureAgain(store, Other(name), events, more);
      assert more[0] == Measured(http[0].values) && more[1..] == Successes(taken) + later;
    }
  }

  function Prefixed(taken: seq<Taken>, r: Reading): Reading { r.(taken := taken + r.taken) }

  /** A snapshot that was not obtained: trying again later goes on from what was stored. */
  lemma {:induction false} ObtainLater(split: bool, store: Store, name: Label, events: seq<Event>, later: seq<Event>)
    requires Obtain(split, store, name, events).NoReading?
    ensures var r := Obtain(split, store, name, events);
      Obtain(split, store, name, Successes(r.taken) + later) == Prefixed(r.taken, Obtain(split, r.store, name, later))
  {
    var r := Obtain(split, store, name, events);
    assert Successes([]) + later == later;
    if split && name !in store {
      var other := Measure(store, Other(name), events);
      if other.Reading? {
        MeasureAgain(store, Other(name), events, later);
        assert name !in other.store && Other(name) in other.store && other.store[Other(name)] == other.values;
        assert Measure(other.store, Other(name), later) == Reading(other.values, other.store, later, []);
        HttpLater(name, other, later);
      } else {
        PrefixedNone(Obtain(split, store, name, later));
      }
    } else {
      PrefixedNone(Obtain(split, store, name, later));
    }
  }

  lemma {:induction false} PrefixedNone(r: Reading)
    ensures Prefixed([], r) == r
  {
    assert [] + r.taken == r.taken;
  }

  lemma {:induction false} HttpLater(name: Label, other: Reading, later: seq<Event>)
    requires other.Reading?
    ensures AddHttp(name, other.(events := later))
         == Prefixed(other.taken, AddHttp(name, Reading(other.values, other.store, later, [])))
  {
    assert other.taken + [] == other.taken;
    if later != [] && later[0].Measured? {
      var http := [Taken(name, later[0].values)];
      assert [] + http == http;
    }
  }

  lemma {:induction false} RunStep(cfg: Config, store: Store, mem: Memory, events: seq<Event>, r: Reading, mem': Memory)
    requires WellFormed(cfg, mem) && !AtEnd(cfg, mem)
    requires r == Obtain(cfg.split, store, NextLabel(mem), events) && r.Reading?
    requires Absorb(cfg, mem, r.values) == More(mem')
    ensures WellFormed(cfg, mem') && Run(cfg, store, mem, events) == After(r.taken, Run(cfg, r.store, mem', r.events))
  { }

  /** Two runs whose next snapshot differs only in the measurements before it. */
  lemma {:induction false} RunPrefixed(cfg: Config, store: Store, earlier: Store, mem: Memory, events: seq<Event>,
                                       all: seq<Event>, taken: seq<Taken>)
    requires WellFormed(cfg, mem) && !AtEnd(cfg, mem)
    requires Obtain(cfg.split, earlier, NextLabel(mem), all)
          == Prefixed(taken, Obtain(cfg.split, store, NextLabel(mem), events))
    ensures Run(cfg, earlier, mem, all) == After(taken, Run(cfg, store, mem, events))
  {
    var r := Obtain(cfg.split, store, NextLabel(mem), events);
    if r.Reading? {
      match Absorb(cfg, mem, r.values)
      case End(_) =>
      case More(mem') => AfterLaws(taken, r.taken, Run(cfg, r.store, mem', r.events));
    }
  }

  /** Resuming equals never having stopped: one run that makes the first invocation's
      successful measurements and then sees the later events. */
  lemma {:induction false} ResumeIsContinuation(cfg: Config, store: Store, mem: Memory, events: seq<Event>,
                                                later: seq<Event>)
    requires WellFormed(cfg, mem)
    ensures var once := Run(cfg, store, mem, events);
      Run(cfg, store, mem, Successes(once.taken) + later) == After(once.taken, Run(cfg, once.store, mem, later))
    decreases Remaining(cfg, mem)
  {
    var once := Run(cfg, store, mem, events);
    if AtEnd(cfg, mem) { return; }
    var r := Obtain(cfg.split, store, NextLabel(mem), events);
    if r.NoReading? {
      ObtainLater(cfg.split, store, NextLabel(mem), events, later);
      RunPrefixed(cfg, once.store, store, mem, later, Successes(once.taken) + later, once.taken);
      return;
    }
    match Absorb(cfg, mem, r.values)
    case End(_) =>
      assert r.taken + [] == r.taken;
      ObtainAgain(cfg.split, store, once.store, NextLabel(mem), events, [], later);
    case More(mem') =>
      RunStep(cfg, store, mem, events, r, mem');
      var rest := Run(cfg, r.store, mem', r.events);
      RunGrows(cfg, r.store, mem', r.events);
      ObtainAgain(cfg.split, store, once.store, NextLabel(mem), events, rest.taken, later);
      ResumeIsContinuation(cfg, r.store, mem', r.events, later);
      var again := Obtain(cfg.split, once.store, NextLabel(mem), later);
      RunStep(cfg, once.store, mem, later, again, mem');
      var whole := Obtain(cfg.split, store, NextLabel(mem), Successes(once.taken) + later);
      RunStep(cfg, store, mem, Successes(once.taken) + later, whole, mem');
      var resumed := Run(cfg, once.store, mem', later);
      AfterLaws(r.taken, rest.taken, resumed);
      AfterLaws([], [], resumed);
  }

  // --------------------------------------------------------------- many invocations

  /** Invocations one after another, each resuming from the store of the last. */
  function Resumed(cfg: Config, store: Store, invocations: seq<seq<Event>>): Store
    decreases |invocations|
  {
    if invocations == [] then store
    else Resumed(cfg, Run(cfg, store, START, invocations[0]).store, invocations[1..])
  }

  function AllTaken(cfg: Config, store: Store, invocations: seq<seq<Event>>): seq<Taken>
    decreases |invocations|
  {
    if invocations == [] then []
    else
      var first := Run(cfg, store, START, invocations[0]);
      first.taken + AllTaken(cfg, first.store, invocations[1..])
  }

  /** Whatever the interruptions, the last invocation ends as one uninterrupted run that
      makes the same successful measurements. */
  lemma {:induction false} InterruptionsDoNotMatter(cfg: Config, store: Store, invocations: seq<seq<Event>>,
                                                    last: seq<Event>)
    ensures var taken := AllTaken(cfg, store, invocations);
      Run(cfg, store, START, Successes(taken) + last)
      == After(taken, Run(cfg, Resumed(cfg, store, invocations), START, last))
    decreases |invocations|
  {
    if invocations == [] {
      assert Successes([]) + last == last;
      AfterLaws([], [], Run(cfg, store, START, last));
    } else {
      var first := Run(cfg, store, START, invocations[0]);
      var rest := AllTaken(cfg, first.store, invocations[1..]);
      InterruptionsDoNotMatter(cfg, first.store, invocations[1..], last);
      ResumeIsContinuation(cfg, store, START, invocations[0], Successes(rest) + last);
      SuccessesSplit(first.taken, rest, last);
      AfterLaws(first.taken, rest, Run(cfg, Resumed(cfg, first.store, invocations[1..]), START, last));
    }
  }

  /** What the invocations stored is what they measured to success, each label once and
      none that was stored before; nothing stored is replaced. */
  lemma {:induction false} MeasuredOnce(cfg: Config, store: Store, invocations: seq<seq<Event>>)
    ensures var kept, taken := Resumed(cfg, store, invocations), AllTaken(cfg, store, invocations);
      && Extends(store, kept)
      && (forall i, j :: 0 <= i < j < |taken| ==> taken[i].name != taken[j].name)
      && (forall i :: 0 <= i < |taken| ==> taken[i].name !in store && taken[i].name in kept)
      && (forall l :: l in kept ==> l in store || exists i :: 0 <= i < |taken| && taken[i].name == l)
  {
    var kept, taken := Resumed(cfg, store, invocations), AllTaken(cfg, store, invocations);
    InvocationsGrow(cfg, store, invocations);
    forall i | 0 <= i < |taken| ensures taken[i].name !in store && taken[i].name in kept {
      assert taken[i].name in Labels(taken);
    }
    forall l | l in kept && l !in store ensures exists i :: 0 <= i < |taken| && taken[i].name == l {
      assert l in Labels(taken);
      var t :| t in taken && t.name == l;
      var i :| 0 <= i < |taken| && taken[i] == t;
    }
  }

  lemma {:induction false} InvocationsGrow(cfg: Config, store: Store, invocations: seq<seq<Event>>)
    ensures Grows(store, AllTaken(cfg, store, invocations), Resumed(cfg, store, invocations))
    decreases |invocations|
  {
    if invocations == [] {
      assert Labels([]) == {};
    } else {
      var first := Run(cfg, store, START, invocations[0]);
      RunGrows(cfg, store, START, invocations[0]);
      InvocationsGrow(cfg, first.store, invocations[1..]);
      GrowsMore(store, first.taken, first.store, AllTaken(cfg, first.store, invocations[1..]),
                Resumed(cfg, first.store, invocations[1..]));
    }
  }

  /** Resuming with nothing left to measure gives back the same result. */
  lemma {:induction false} ReplayGivesSameResult(cfg: Config, store: Store, events: seq<Event>)
    requires !Run(cfg, store, START, events).outcome.Stopped?
    ensures var once := Run(cfg, store, START, events);
      Run(cfg, once.store, START, []) == Invocation(once.store, once.outcome, [])
  {
    Replays(cfg, store, START, events);
  }

  lemma {:induction false} Replays(cfg: Config, store: Store, mem: Memory, events: seq<Event>)
    requires WellFormed(cfg, mem) && !Run(cfg, store, mem, events).outcome.Stopped?
    ensures var once := Run(cfg, store, mem, events);
      Run(cfg, once.store, mem, []) == Invocation(once.store, once.outcome, [])
    decreases Remaining(cfg, mem)
  {
    if AtEnd(cfg, mem) { return; }
    var once := Run(cfg, store, mem, events);
    var r := Obtain(cfg.split, store, NextLabel(mem), events);
    match Absorb(cfg, mem, r.values)
    case End(_) => ObtainAgain(cfg.split, store, once.store, NextLabel(mem), events, [], []);
    case More(mem') =>
      var rest := Run(cfg, r.store, mem', r.events);
      RunGrows(cfg, r.store, mem', r.events);
      ObtainAgain(cfg.split, store, once.store, NextLabel(mem), events, rest.taken, []);
      Replays(cfg, r.store, mem', r.events);
  }

  // ----------------------------------------------------------- the loop as written

  function Settings(rules: Rules, maxPairs: nat, split: bool): Config { Config(maxPairs, Judge(rules), split) }

  ghost predicate SameEnd(a: Invocation, b: Invocation) { a.store == b.store && a.outcome == b.outcome }

  function PairInOrder(k: nat, first: Values, second: Values): PairValues {
    if k % 2 == 0 then PairValues(first, second) else PairValues(second, first)
  }

  /** One pair of snapshots, whichever goes first; `None` values mean the run stopped. */
  method TakePair(cfg: Config, store: Store, events: seq<Event>, k: nat, ghost pairs: seq<PairValues>)
    returns (r: Reading, pair: PairValues, stoppedAt: Label, stoppedStore: Store)
    requires k == |pairs| < cfg.maxPairs
    ensures r.Reading? ==>
      SameEnd(Run(cfg, store, Memory(2, pairs, []), events),
              match cfg.judge(pairs + [pair])
              case Give(outcome) => Invocation(r.store, outcome, [])
              case Continue => Run(cfg, r.store, Memory(2, pairs + [pair], []), r.events))
    ensures r.NoReading? ==>
      SameEnd(Run(cfg, store, Memory(2, pairs, []), events), Invocation(stoppedStore, Stopped(stoppedAt), []))
  {
    var baseFirst := k % 2 == 0;
    var firstLabel := if baseFirst then PairBase(k) else PairHead(k);
    var secondLabel := if baseFirst then PairHead(k) else PairBase(k);
    pair := PairValues(map[], map[]);
    stoppedAt, stoppedStore := firstLabel, store;
    ghost var mem := Memory(2, pairs, []);
    var first := Obtain(cfg.split, store, firstLabel, events);
    if first.NoReading? { r, stoppedStore := first, first.store; return; }
    ghost var half := Memory(2, pairs, [first.values]);
    RunStep(cfg, store, mem, events, first, half);
    var second := Obtain(cfg.split, first.store, secondLabel, first.events);
    stoppedAt, stoppedStore := secondLabel, second.store;
    r := second;
    if second.NoReading? { return; }
    pair := PairInOrder(k, first.values, second.values);
  }

  /** A whole invocation. It ends as the model does, and when it completes the memory
      holds exactly the samples of the pairs it completed. */
  method RunComparison(rules: Rules, maxPairs: nat, split: bool, stored: Store, events: seq<Event>)
    returns (store: Store, outcome: Outcome, memory: Pairing)
    ensures SameEnd(Invocation(store, outcome, []), Run(Settings(rules, maxPairs, split), stored, START, events))
    ensures memory.policy == rules.policy && (outcome.Complete? ==> memory.Holds(outcome.pairs))
  {
    ghost var cfg := Settings(rules, maxPairs, split);
    memory := new Pairing(rules.policy);
    store := stored;
    var base := Obtain(split, store, WarmBase, events);
    if base.NoReading? { store, outcome := base.store, Stopped(WarmBase); return; }
    RunStep(cfg, stored, START, events, base, Memory(1, [], []));
    store := base.store;
    var head := Obtain(split, store, WarmHead, base.events);
    if head.NoReading? { store, outcome := head.store, Stopped(WarmHead); return; }
    RunStep(cfg, store, Memory(1, [], []), base.events, head, Memory(2, [], []));
    store := head.store;
    var rest := head.events;
    var pairs := [];
    while memory.pairCount < maxPairs
      invariant fresh(memory) && memory.policy == rules.policy && memory.Holds(pairs)
      invariant SameEnd(Run(cfg, stored, START, events), Run(cfg, store, Memory(2, pairs, []), rest))
      decreases maxPairs - |pairs|
    {
      var k := memory.pairCount;
      var r, pair, at, left := TakePair(Settings(rules, maxPairs, split), store, rest, k, pairs);
      if r.NoReading? { store, outcome := left, Stopped(at); return; }
      store, rest := r.store, r.events;
      if !rules.comparable(pair.base, pair.head) { outcome := Incomparable(k); return; }
      var kept := memory.AddPair(pair.base, pair.head, pairs);
      if !kept { outcome := NoPairedMetrics(k); return; }
      pairs := pairs + [pair];
      if memory.pairCount >= rules.pairs && rules.decided(memory.samples) {
        outcome := Complete(pairs);
        return;
      }
    }
    outcome := Complete(pairs);
  }
}
