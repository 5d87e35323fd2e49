/** The statistics that decide whether a benchmark metric regressed
    (scripts/bench-compare.ts): medians, a bootstrap interval from a fixed generator, and
    the classification. Doubles are idealised as reals. */
module RegressionStatistics {
  import opened Optional
  import opened Sorting

  datatype Sample = Sample(base: real, head: real)
  datatype Direction = Higher | Lower
  datatype Policy = Policy(direction: Direction, threshold: real, minimumAbsolute: Option<real>)
  datatype Status = Improvement | Regression | Unchanged | Inconclusive

  predicate Le(a: real, b: real) { a <= b }

  function Median(values: seq<real>): real
    requires values != []
  {
    SortContents(values, Le);
    Middle(Sort(values, Le))
  }

  function Middle(sorted: seq<real>): real
    requires sorted != []
  {
    var middle := |sorted| / 2;
    if |sorted| % 2 == 0 then (sorted[middle - 1] + sorted[middle]) / 2.0 else sorted[middle]
  }

  function Abs(x: real): real { if x < 0.0 then -x else x }

  /** How much worse the head is, in percent of the base. */
  function RegressionPercent(direction: Direction): Sample -> real {
    (s: Sample) =>
      if s.base == 0.0 then 0.0
      else if direction.Lower? then (s.head - s.base) / Abs(s.base) * 100.0
      else (s.base - s.head) / Abs(s.base) * 100.0
  }

  function AbsoluteChange(s: Sample): real { Abs(s.head - s.base) }

  // --------------------------------------------------------------- bootstrap

  const SEED: nat := 0x9e3779b9
  const MODULUS: nat := 0x1_0000_0000
  const ITERATIONS: nat := 2000

  function NextState(state: nat): nat { (state * 1664525 + 1013904223) % MODULUS }

  /** The generator after a number of draws. */
  function StateAfter(draws: nat): nat {
    if draws == 0 then SEED else NextState(StateAfter(draws - 1))
  }

  function IndexOf(state: nat, n: nat): nat { state * n / MODULUS }

  lemma {:induction false} IndexInRange(state: nat, n: nat)
    requires state < MODULUS && n > 0
    ensures IndexOf(state, n) < n
  {
    ProductBelow(state, n);
    QuotientBelow(state * n, n);
  }

  lemma {:induction false} ProductBelow(state: nat, n: nat)
    requires state < MODULUS && n > 0
    ensures state * n < MODULUS * n
  {
    assert (MODULUS - state) * n > 0;
  }

  lemma {:induction false} QuotientBelow(x: nat, n: nat)
    requires x < MODULUS * n
    ensures x / MODULUS < n
  {
  }

  lemma {:induction false} StateBelow(draws: nat)
    ensures StateAfter(draws) < MODULUS
  { }

  /** The element drawn at a position of a resample. */
  function Drawn(values: seq<real>, iteration: nat, position: nat): real
    requires values != []
  {
    var state := StateAfter(iteration * |values| + position + 1);
    StateBelow(iteration * |values| + position + 1);
    IndexInRange(state, |values|);
    values[IndexOf(state, |values|)]
  }

  function Resample(values: seq<real>, iteration: nat): seq<real>
    requires values != []
  {
    seq(|values|, j requires 0 <= j < |values| => Drawn(values, iteration, j))
  }

  function ResampledMedians(values: seq<real>, iterations: nat): seq<real>
    requires values != []
  {
    seq(iterations, i requires 0 <= i < iterations => Median(Resample(values, i)))
  }

  function SortedMedians(values: seq<real>, iterations: nat): (r: seq<real>)
    requires values != []
    ensures |r| == iterations
  {
    SortContents(ResampledMedians(values, iterations), Le);
    Sort(ResampledMedians(values, iterations), Le)
  }

  /** The bootstrap interval, computed as the source does: one generator, 2000 resamples. */
  method BootstrapInterval(values: seq<real>) returns (low: real, high: real)
    requires values != []
    ensures low == SortedMedians(values, ITERATIONS)[50] && high == SortedMedians(values, ITERATIONS)[1950]
  {
    var state := SEED;
    var medians := [];
    for iteration := 0 to ITERATIONS
      invariant state == StateAfter(iteration * |values|)
      invariant medians == ResampledMedians(values, iteration)
    {
      var sample := [];
      for index := 0 to |values|
        invariant state == StateAfter(iteration * |values| + index)
        invariant sample == Resample(values, iteration)[..index]
      {
        state := NextState(state);
        assert state == StateAfter(iteration * |values| + index + 1);
        StateBelow(iteration * |values| + index + 1);
        IndexInRange(state, |values|);
        sample := sample + [values[IndexOf(state, |values|)]];
      }
      assert sample == Resample(values, iteration);
      medians := medians + [Median(sample)];
      assert (iteration + 1) * |values| == iteration * |values| + |values|;
    }
    var sorted := Sort(medians, Le);
    SortContents(medians, Le);
    low, high := sorted[50], sorted[1950];
  }

  // ------------------------------------------------------------- classification

  datatype Evidence = Evidence(median: real, low: real, high: real, absolute: real)

  function Changes(direction: Direction, samples: seq<Sample>): seq<real> {
    Map(samples, RegressionPercent(direction))
  }

  function EvidenceOf(changes: seq<real>, absolutes: seq<real>, iterations: nat): Evidence
    requires changes != [] && absolutes != [] && iterations == ITERATIONS
  {
    var medians := SortedMedians(changes, iterations);
    Evidence(Median(changes), medians[50], medians[1950], Median(absolutes))
  }

  predicate BelowFloor(policy: Policy, e: Evidence) {
    policy.minimumAbsolute.Some? && e.absolute < policy.minimumAbsolute.value
  }

  function Decide(policy: Policy, e: Evidence): Status {
    if BelowFloor(policy, e) then Unchanged
    else if e.median > policy.threshold && e.low > 0.0
         && (policy.minimumAbsolute.None? || e.absolute >= policy.minimumAbsolute.value) then Regression
    else if e.median < -policy.threshold && e.high < 0.0 then Improvement
    else if e.low >= -policy.threshold && e.high <= policy.threshold then Unchanged
    else Inconclusive
  }

  function StatusOf(policy: Policy, samples: seq<Sample>, iterations: nat): Status
    requires samples != [] && iterations == ITERATIONS
  {
    Decide(policy, EvidenceOf(Changes(policy.direction, samples), Map(samples, AbsoluteChange), iterations))
  }

  /** Classification of a metric with at least one sample. */
  method Classify(policy: Policy, samples: seq<Sample>) returns (status: Status)
    requires samples != []
    ensures status == StatusOf(policy, samples, ITERATIONS)
  {
    var changes := Changes(policy.direction, samples);
    var low, high := BootstrapInterval(changes);
    var absolute := Median(Map(samples, AbsoluteChange));
    status := Decide(policy, Evidence(Median(changes), low, high, absolute));
  }

  // ------------------------------------------------------------ order statistics

  lemma {:induction false} LeOrders()
    ensures TotalPreorder(Le)
  { }

  function AtMost(t: real): real -> int { (x: real) => if x <= t then 1 else 0 }

  lemma {:induction false} CountBounds(s: seq<real>, t: real)
    ensures 0 <= Sum(s, AtMost(t)) <= |s|
  {
    if s != [] { CountBounds(s[..|s| - 1], t); }
  }

  lemma {:induction false} CountAll(s: seq<real>, t: real)
    requires forall i :: 0 <= i < |s| ==> s[i] <= t
    ensures Sum(s, AtMost(t)) == |s|
  {
    if s != [] { CountAll(s[..|s| - 1], t); }
  }

  lemma {:induction false} CountNone(s: seq<real>, t: real)
    requires forall i :: 0 <= i < |s| ==> s[i] > t
    ensures Sum(s, AtMost(t)) == 0
  {
    if s != [] { CountNone(s[..|s| - 1], t); }
  }

  /** In a sorted sequence, the k-th element is at most t exactly when more than k are. */
  lemma {:induction false} SortedCount(r: seq<real>, k: nat, t: real)
    requires k < |r| && forall i, j :: 0 <= i < j < |r| ==> r[i] <= r[j]
    ensures r[k] <= t <==> Sum(r, AtMost(t)) > k
  {
    var cut := if r[k] <= t then k + 1 else k;
    assert |r[..cut]| == cut && |r[cut..]| == |r| - cut;
    assert r == r[..cut] + r[cut..];
    SumAppend(r[..cut], r[cut..], AtMost(t));
    CountBounds(r[..cut], t);
    CountBounds(r[cut..], t);
    if r[k] <= t { CountAll(r[..cut], t); } else { CountNone(r[cut..], t); }
  }

  lemma {:induction false} SortedReals(s: seq<real>)
    ensures |Sort(s, Le)| == |s|
    ensures forall i, j :: 0 <= i < j < |s| ==> Sort(s, Le)[i] <= Sort(s, Le)[j]
  {
    LeOrders();
    SortContents(s, Le);
    SortSorted(s, Le);
    forall i, j | 0 <= i < j < |s| ensures Sort(s, Le)[i] <= Sort(s, Le)[j] {
      assert Le(Sort(s, Le)[i], Sort(s, Le)[j]);
    }
  }

  /** The k-th smallest is at most t exactly when more than k elements are. */
  lemma {:induction false} CountDecides(s: seq<real>, k: nat, t: real)
    requires k < |s|
    ensures |Sort(s, Le)| == |s| && (Sort(s, Le)[k] <= t <==> Sum(s, AtMost(t)) > k)
  {
    SortedReals(s);
    SortContents(s, Le);
    SumPermutation(s, Sort(s, Le), AtMost(t));
    SortedCount(Sort(s, Le), k, t);
  }

  ghost predicate Pointwise(xs: seq<real>, ys: seq<real>) {
    |xs| == |ys| && forall i :: 0 <= i < |xs| ==> xs[i] <= ys[i]
  }

  lemma {:induction false} CountPointwise(xs: seq<real>, ys: seq<real>, t: real)
    requires Pointwise(xs, ys)
    ensures Sum(xs, AtMost(t)) >= Sum(ys, AtMost(t))
  {
    if xs != [] { CountPointwise(xs[..|xs| - 1], ys[..|ys| - 1], t); }
  }

  /** Raising elements raises every order statistic. */
  lemma {:induction false} SortPointwise(xs: seq<real>, ys: seq<real>)
    requires Pointwise(xs, ys)
    ensures Pointwise(Sort(xs, Le), Sort(ys, Le))
  {
    SortContents(xs, Le);
    SortContents(ys, Le);
    forall k | 0 <= k < |xs| ensures Sort(xs, Le)[k] <= Sort(ys, Le)[k] {
      var t := Sort(ys, Le)[k];
      CountDecides(ys, k, t);
      CountPointwise(xs, ys, t);
      CountDecides(xs, k, t);
    }
  }

  lemma {:induction false} MedianPointwise(xs: seq<real>, ys: seq<real>)
    requires Pointwise(xs, ys) && xs != []
    ensures Median(xs) <= Median(ys)
  {
    SortContents(xs, Le);
    SortContents(ys, Le);
    SortPointwise(xs, ys);
  }

  lemma {:induction false} ResamplePointwise(xs: seq<real>, ys: seq<real>, iteration: nat)
    requires Pointwise(xs, ys) && xs != []
    ensures Pointwise(Resample(xs, iteration), Resample(ys, iteration))
  {
    var n := |xs|;
    forall j | 0 <= j < n ensures Drawn(xs, iteration, j) <= Drawn(ys, iteration, j) {
      var state := StateAfter(iteration * n + j + 1);
      StateBelow(iteration * n + j + 1);
      IndexInRange(state, n);
    }
  }

  /** Worse changes give worse medians and a worse interval. */
  lemma {:induction false} EvidencePointwise(xs: seq<real>, ys: seq<real>, iterations: nat)
    requires Pointwise(xs, ys) && xs != []
    ensures Pointwise(SortedMedians(xs, iterations), SortedMedians(ys, iterations))
  {
    var ms, ns := ResampledMedians(xs, iterations), ResampledMedians(ys, iterations);
    forall i | 0 <= i < iterations ensures ms[i] <= ns[i] {
      ResamplePointwise(xs, ys, i);
      MedianPointwise(Resample(xs, i), Resample(ys, i));
    }
    SortPointwise(ms, ns);
  }

  function Constant(n: nat, t: real): seq<real> { seq(n, i => t) }

  lemma {:induction false} SortConstant(n: nat, t: real)
    ensures Sort(Constant(n, t), Le) == Constant(n, t)
  {
    if n > 0 {
      assert Constant(n, t)[1..] == Constant(n - 1, t);
      SortConstant(n - 1, t);
      if n > 1 { assert Constant(n - 1, t)[0] == t; }
      assert [t] + Constant(n - 1, t) == Constant(n, t);
    }
  }

  lemma {:induction false} MedianConstant(n: nat, t: real)
    requires n > 0
    ensures Median(Constant(n, t)) == t
  {
    SortConstant(n, t);
  }

  lemma {:induction false} ResampleConstant(n: nat, t: real, iteration: nat)
    requires n > 0
    ensures Resample(Constant(n, t), iteration) == Constant(n, t)
  {
    forall j | 0 <= j < n ensures Drawn(Constant(n, t), iteration, j) == t {
      StateBelow(iteration * n + j + 1);
      IndexInRange(StateAfter(iteration * n + j + 1), n);
    }
  }

  lemma {:induction false} SortedMediansConstant(n: nat, t: real, iterations: nat)
    requires n > 0
    ensures SortedMedians(Constant(n, t), iterations) == Constant(iterations, t)
  {
    var ms := ResampledMedians(Constant(n, t), iterations);
    forall i | 0 <= i < iterations ensures ms[i] == t {
      ResampleConstant(n, t, i);
      MedianConstant(n, t);
    }
    assert ms == Constant(iterations, t);
    SortConstant(iterations, t);
  }

  /** The median and every resampled median are at least what all values are. */
  lemma {:induction false} EvidenceAtLeast(values: seq<real>, low: real, iterations: nat)
    requires values != [] && forall i :: 0 <= i < |values| ==> values[i] >= low
    ensures Median(values) >= low
    ensures forall i :: 0 <= i < iterations ==> SortedMedians(values, iterations)[i] >= low
  {
    var n := |values|;
    MedianPointwise(Constant(n, low), values);
    MedianConstant(n, low);
    EvidencePointwise(Constant(n, low), values, iterations);
    SortedMediansConstant(n, low, iterations);
  }

  lemma {:induction false} EvidenceAtMost(values: seq<real>, high: real, iterations: nat)
    requires values != [] && forall i :: 0 <= i < |values| ==> values[i] <= high
    ensures Median(values) <= high
    ensures forall i :: 0 <= i < iterations ==> SortedMedians(values, iterations)[i] <= high
  {
    var n := |values|;
    MedianPointwise(values, Constant(n, high));
    MedianConstant(n, high);
    EvidencePointwise(values, Constant(n, high), iterations);
    SortedMediansConstant(n, high, iterations);
  }

  /** The interval's ends are in order and inside the range of the values. */
  lemma {:induction false} IntervalBetween(values: seq<real>, low: real, high: real, iterations: nat)
    requires values != [] && iterations == ITERATIONS
    requires forall i :: 0 <= i < |values| ==> low <= values[i] <= high
    ensures low <= SortedMedians(values, iterations)[50] <= SortedMedians(values, iterations)[1950] <= high
  {
    EvidenceAtLeast(values, low, iterations);
    EvidenceAtMost(values, high, iterations);
    SortedReals(ResampledMedians(values, iterations));
  }

  // -------------------------------------------------------------- unanimous evidence

  lemma {:induction false} Least(values: seq<real>) returns (low: real)
    requires values != []
    ensures low in values && forall i :: 0 <= i < |values| ==> values[i] >= low
  {
    low := values[0];
    if |values| > 1 {
      var rest := Least(values[1..]);
      if rest < low { low := rest; }
      forall i | 0 <= i < |values| ensures values[i] >= low {
        if i > 0 { assert values[1..][i - 1] >= rest; }
      }
    }
  }

  lemma {:induction false} Greatest(values: seq<real>) returns (high: real)
    requires values != []
    ensures high in values && forall i :: 0 <= i < |values| ==> values[i] <= high
  {
    high := values[0];
    if |values| > 1 {
      var rest := Greatest(values[1..]);
      if rest > high { high := rest; }
      forall i | 0 <= i < |values| ensures values[i] <= high {
        if i > 0 { assert values[1..][i - 1] <= rest; }
      }
    }
  }

  function SampleEvidence(policy: Policy, samples: seq<Sample>, iterations: nat): Evidence
    requires samples != [] && iterations == ITERATIONS
  {
    EvidenceOf(Changes(policy.direction, samples), Map(samples, AbsoluteChange), iterations)
  }

  /** If every pair is worse by more than the threshold the metric regressed, unless the
      change stays under the absolute floor. */
  lemma {:induction false} UnanimousRegression(policy: Policy, samples: seq<Sample>, iterations: nat)
    requires samples != [] && iterations == ITERATIONS && policy.threshold >= 0.0
    requires forall s :: s in samples ==> RegressionPercent(policy.direction)(s) > policy.threshold
    ensures StatusOf(policy, samples, iterations)
         == if BelowFloor(policy, SampleEvidence(policy, samples, iterations)) then Unchanged else Regression
  {
    var changes := Changes(policy.direction, samples);
    var low := Least(changes);
    var i :| 0 <= i < |samples| && changes[i] == low;
    assert samples[i] in samples;
    EvidenceAtLeast(changes, low, iterations);
  }

  /** If every pair is better by more than the threshold the metric improved, unless the
      change stays under the absolute floor. */
  lemma {:induction false} UnanimousImprovement(policy: Policy, samples: seq<Sample>, iterations: nat)
    requires samples != [] && iterations == ITERATIONS && policy.threshold >= 0.0
    requires forall s :: s in samples ==> RegressionPercent(policy.direction)(s) < -policy.threshold
    ensures StatusOf(policy, samples, iterations)
         == if BelowFloor(policy, SampleEvidence(policy, samples, iterations)) then Unchanged else Improvement
  {
    var changes := Changes(policy.direction, samples);
    var high := Greatest(changes);
    var i :| 0 <= i < |samples| && changes[i] == high;
    assert samples[i] in samples;
    EvidenceAtMost(changes, high, iterations);
  }

  /** Identical base and head are unchanged under every policy. */
  lemma {:induction false} EqualIsUnchanged(policy: Policy, samples: seq<Sample>, iterations: nat)
    requires samples != [] && iterations == ITERATIONS && policy.threshold >= 0.0
    requires forall s :: s in samples ==> s.base == s.head
    ensures StatusOf(policy, samples, iterations) == Unchanged
  {
    var changes := Changes(policy.direction, samples);
    forall i | 0 <= i < |changes| ensures changes[i] == 0.0 { assert samples[i] in samples; }
    EvidenceAtLeast(changes, 0.0, iterations);
    EvidenceAtMost(changes, 0.0, iterations);
  }

  // ------------------------------------------------------------------ monotonicity

  lemma {:induction false} DivideDifference(a: real, b: real, d: real)
    requires d > 0.0
    ensures b / d - a / d == (b - a) / d
  { }

  lemma {:induction false} DivideMonotone(a: real, b: real, d: real)
    requires a <= b && d > 0.0
    ensures a / d <= b / d
  {
    DivideDifference(a, b, d);
    assert (b - a) / d >= 0.0;
  }

  /** A head that takes longer (or does less) is a larger regression. */
  lemma {:induction false} WorseHead(direction: Direction, s: Sample, s': Sample)
    requires s'.base == s.base
    requires if direction.Lower? then s'.head >= s.head else s'.head <= s.head
    ensures RegressionPercent(direction)(s') >= RegressionPercent(direction)(s)
  {
    if s.base != 0.0 {
      if direction.Lower? { DivideMonotone(s.head - s.base, s'.head - s.base, Abs(s.base)); }
      else { DivideMonotone(s.base - s.head, s.base - s'.head, Abs(s.base)); }
    }
  }

  /** Making the head worse in any pairs never softens a regression, and making it better
      never softens an improvement, as long as the floor is met. */
  lemma {:induction false} WorseIsNeverMilder(policy: Policy, samples: seq<Sample>, worse: seq<Sample>, iterations: nat)
    requires samples != [] && |worse| == |samples| && iterations == ITERATIONS
    requires forall i :: 0 <= i < |samples| ==> worse[i].base == samples[i].base
    requires forall i :: 0 <= i < |samples| ==>
      if policy.direction.Lower? then worse[i].head >= samples[i].head else worse[i].head <= samples[i].head
    ensures StatusOf(policy, samples, iterations) == Regression ==>
      StatusOf(policy, worse, iterations) == Regression || BelowFloor(policy, SampleEvidence(policy, worse, iterations))
    ensures policy.threshold >= 0.0 && StatusOf(policy, worse, iterations) == Improvement ==>
      StatusOf(policy, samples, iterations) == Improvement
      || BelowFloor(policy, SampleEvidence(policy, samples, iterations))
  {
    var xs, ys := Changes(policy.direction, samples), Changes(policy.direction, worse);
    forall i | 0 <= i < |xs| ensures xs[i] <= ys[i] { WorseHead(policy.direction, samples[i], worse[i]); }
    MedianPointwise(xs, ys);
    EvidencePointwise(xs, ys, iterations);
  }

  // --------------------------------------------------------------------- mirroring

  function Neg(x: real): real { -x }

  function Mirrored(s: seq<real>): seq<real> { seq(|s|, i requires 0 <= i < |s| => -s[|s| - 1 - i]) }

  lemma {:induction false} MirrorAppend(s: seq<real>, x: real)
    ensures Mirrored([x] + s) == Mirrored(s) + [-x]
  {
  }

  lemma {:induction false} MirrorInsert(x: real, s: seq<real>)
    ensures multiset(Mirrored(Insert(x, s, Le))) == multiset(Mirrored(s)) + multiset{-x}
  {
    if s == [] || Le(x, s[0]) {
      MirrorAppend(s, x);
    } else {
      var head, rest := s[0], s[1..];
      assert s == [head] + rest;
      MirrorInsert(x, rest);
      MirrorAppend(Insert(x, rest, Le), head);
      MirrorAppend(rest, head);
      assert multiset(Mirrored(s)) == multiset(Mirrored(rest)) + multiset{-head};
    }
  }

  lemma {:induction false} MirrorContents(s: seq<real>)
    ensures multiset(Mirrored(Sort(s, Le))) == multiset(Map(s, Neg))
  {
    if s != [] {
      MirrorContents(s[1..]);
      MirrorInsert(s[0], Sort(s[1..], Le));
      assert Map(s, Neg) == [-s[0]] + Map(s[1..], Neg);
    }
  }

  /** Sorting the negated values reverses the sorted values and negates them. */
  lemma {:induction false} SortMirrors(s: seq<real>)
    ensures Sort(Map(s, Neg), Le) == Mirrored(Sort(s, Le))
  {
    LeOrders();
    SortedReals(s);
    SortSorted(Map(s, Neg), Le);
    SortContents(Map(s, Neg), Le);
    MirrorContents(s);
    var m := Mirrored(Sort(s, Le));
    forall i, j | 0 <= i < j < |m| ensures Le(m[i], m[j]) { }
    SortedUnique(m, Sort(Map(s, Neg), Le), Le);
  }

  lemma {:induction false} MedianMirrors(s: seq<real>)
    requires s != []
    ensures Median(Map(s, Neg)) == -Median(s)
  {
    SortMirrors(s);
    SortContents(s, Le);
    SortContents(Map(s, Neg), Le);
    MiddleMirrors(Sort(s, Le));
  }

  lemma {:induction false} MiddleMirrors(sorted: seq<real>)
    requires sorted != []
    ensures Middle(Mirrored(sorted)) == -Middle(sorted)
  {
    var n, middle := |sorted|, |sorted| / 2;
    if n % 2 == 0 {
      assert n - 1 - (middle - 1) == middle && n - 1 - middle == middle - 1;
    } else {
      assert n - 1 - middle == middle;
    }
  }

  lemma {:induction false} ResampleMirrors(values: seq<real>, iteration: nat)
    requires values != []
    ensures Resample(Map(values, Neg), iteration) == Map(Resample(values, iteration), Neg)
  {
    var n := |values|;
    forall j | 0 <= j < n ensures Drawn(Map(values, Neg), iteration, j) == -Drawn(values, iteration, j) {
      StateBelow(iteration * n + j + 1);
      IndexInRange(StateAfter(iteration * n + j + 1), n);
    }
  }

  lemma {:induction false} OppositePercent(d: Direction, s: Sample)
    ensures RegressionPercent(Opposite(d))(s) == -RegressionPercent(d)(s)
  {
    if s.base != 0.0 {
      DivideDifference(s.head - s.base, 0.0, Abs(s.base));
    }
  }

  lemma {:induction false} SortedMediansMirror(values: seq<real>, iterations: nat)
    requires values != []
    ensures SortedMedians(Map(values, Neg), iterations) == Mirrored(SortedMedians(values, iterations))
  {
    var ms := ResampledMedians(values, iterations);
    var ns := ResampledMedians(Map(values, Neg), iterations);
    forall i | 0 <= i < iterations ensures ns[i] == -ms[i] {
      ResampleMirrors(values, i);
      MedianMirrors(Resample(values, i));
    }
    assert ns == Map(ms, Neg);
    SortMirrors(ms);
  }

  function Opposite(d: Direction): Direction { if d.Lower? then Higher else Lower }

  /** Reading a metric in the other direction mirrors the resampled medians, but the two
      ends of the interval are not mirror images: the 51st median from below becomes the
      51st from above, one place inside the upper end. So an improvement is a regression
      in the other direction, and a regression is an improvement in the other direction
      exactly when the next median inward is negative as well. */
  lemma {:induction false} DirectionsAreNotMirrored(policy: Policy, samples: seq<Sample>, iterations: nat)
    requires samples != [] && iterations == ITERATIONS && policy.threshold >= 0.0 && policy.minimumAbsolute.None?
    ensures var other := policy.(direction := Opposite(policy.direction));
      var medians := SortedMedians(Changes(policy.direction, samples), iterations);
      && (StatusOf(policy, samples, iterations) == Improvement ==> StatusOf(other, samples, iterations) == Regression)
      && (StatusOf(other, samples, iterations) == Regression <==>
          Median(Changes(policy.direction, samples)) < -policy.threshold && medians[1949] < 0.0)
      && (StatusOf(policy, samples, iterations) == Improvement <==>
          Median(Changes(policy.direction, samples)) < -policy.threshold && medians[1950] < 0.0)
  {
    var other := policy.(direction := Opposite(policy.direction));
    var changes := Changes(policy.direction, samples);
    forall i | 0 <= i < |samples| ensures Changes(other.direction, samples)[i] == -changes[i] {
      OppositePercent(policy.direction, samples[i]);
    }
    assert Changes(other.direction, samples) == Map(changes, Neg);
    MedianMirrors(changes);
    SortedMediansMirror(changes, iterations);
    var medians := SortedMedians(changes, iterations);
    SortedReals(ResampledMedians(changes, iterations));
    assert SortedMedians(Map(changes, Neg), iterations)[50] == -medians[1949];
  }
}
