/** Extraction of preprocessor guards (scripts/generate-known-native-entries.ts): the
    conditions under which a definition is compiled, collected from the directives before
    it, and written as one `#if` line around a generated wrapper.

    Lines come with their directive recognised and conditions come as tokens. */
module NativeGuards {
  import opened GuardExpressions
  import opened GuardParentheses

  // ------------------------------------------------------------------- directives

  datatype Line =
    | If(condition: Tokens) | Ifdef(name: string) | Ifndef(name: string)
    | Elif(condition: Tokens) | Elifdef(name: string) | Elifndef(name: string)
    | Else | Endif | Text

  function DefinedTokens(name: string): Tokens { [Atom("defined(" + name + ")")] }

  function ConditionOf(line: Line): Tokens {
    match line
    case If(condition) => condition
    case Elif(condition) => condition
    case Ifdef(name) => DefinedTokens(name)
    case Elifdef(name) => DefinedTokens(name)
    case Ifndef(name) => [Bang] + DefinedTokens(name)
    case Elifndef(name) => [Bang] + DefinedTokens(name)
    case _ => []
  }

  predicate Opens(line: Line) { line.If? || line.Ifdef? || line.Ifndef? }

  /** What the script keeps for each group still open. */
  datatype Frame = Frame(branches: seq<Tokens>, current: Tokens)
  datatype Scan = Threw | Frames(frames: seq<Frame>)

  /** The script's treatment of one line. It does not know `#elifdef` and `#elifndef`. */
  function ScanLine(frames: seq<Frame>, line: Line): Scan {
    if Opens(line) then Frames(frames + [Frame([ConditionOf(line)], ConditionOf(line))])
    else
      match line
      case Endif => Frames(if frames == [] then [] else frames[..|frames| - 1])
      case Elif(condition) =>
        if frames == [] then Threw
        else
          var top := frames[|frames| - 1];
          Frames(frames[..|frames| - 1] + [Frame(top.branches + [condition], ElifGuard(top.branches, condition))])
      case Else =>
        if frames == [] then Threw
        else
          var top := frames[|frames| - 1];
          Frames(frames[..|frames| - 1] + [Frame(top.branches, NoneOf(top.branches))])
      case _ => Frames(frames)
  }

  function ScanLines(lines: seq<Line>): Scan {
    if lines == [] then Frames([])
    else
      match ScanLines(lines[..|lines| - 1])
      case Threw => Threw
      case Frames(frames) => ScanLine(frames, lines[|lines| - 1])
  }

  function Guards(frames: seq<Frame>): seq<Tokens> { seq(|frames|, i requires 0 <= i < |frames| => frames[i].current) }

  /** The loop over the lines before the definition. */
  method Conditions(lines: seq<Line>) returns (threw: bool, guards: seq<Tokens>)
    ensures threw <==> ScanLines(lines).Threw?
    ensures !threw ==> guards == Guards(ScanLines(lines).frames)
  {
    var stack: seq<Frame> := [];
    for i := 0 to |lines|
      invariant ScanLines(lines[..i]) == Frames(stack)
    {
      var line := lines[i];
      assert lines[..i + 1][..i] == lines[..i];
      assert ScanLines(lines[..i + 1]) == ScanLine(stack, line);
      if line.Endif? {
        if stack != [] { stack := stack[..|stack| - 1]; }
      } else if line.Elif? || line.Else? {
        if stack == [] {
          ThrowsEver(lines, i + 1);
          return true, [];
        }
        var top := stack[|stack| - 1];
        var current := if line.Elif? then ElifGuard(top.branches, line.condition) else NoneOf(top.branches);
        var branches := if line.Elif? then top.branches + [line.condition] else top.branches;
        stack := stack[..|stack| - 1] + [Frame(branches, current)];
      } else if Opens(line) {
        stack := stack + [Frame([ConditionOf(line)], ConditionOf(line))];
      }
    }
    assert lines[..|lines|] == lines;
    return false, Guards(stack);
  }

  lemma {:induction false} ThrowsEver(lines: seq<Line>, k: nat)
    requires k <= |lines| && ScanLines(lines[..k]).Threw?
    ensures ScanLines(lines).Threw?
    decreases |lines| - k
  {
    if k < |lines| {
      assert lines[..k + 1][..k] == lines[..k];
      ThrowsEver(lines, k + 1);
    } else {
      assert lines[..k] == lines;
    }
  }

  // ------------------------------------------- conditional inclusion, as C defines it

  /** A group: whether the text around it is compiled, whether one of its branches has
      been chosen, and whether the present branch is compiled. */
  datatype Group = Group(outer: bool, taken: bool, active: bool)

  predicate Compiled(groups: seq<Group>) { groups == [] || groups[|groups| - 1].active }

  /** Section 6.10.2 of ISO/IEC 9899:2024: in order, the first branch whose condition is
      true is compiled, `#else` if none was; inside skipped text nothing is. */
  function Include(v: Valuation, groups: seq<Group>, line: Line): seq<Group> {
    var c := Value(v, ConditionOf(line));
    if Opens(line) then
      var outer := Compiled(groups);
      groups + [Group(outer, outer && c, outer && c)]
    else if line.Text? || groups == [] then groups
    else
      var below, top := groups[..|groups| - 1], groups[|groups| - 1];
      match line
      case Endif => below
      case Else => below + [Group(top.outer, true, top.outer && !top.taken)]
      case _ => below + [Group(top.outer, top.taken || (top.outer && c), top.outer && !top.taken && c)]
  }

  function Included(v: Valuation, lines: seq<Line>): seq<Group> {
    if lines == [] then [] else Include(v, Included(v, lines[..|lines| - 1]), lines[|lines| - 1])
  }

  // ---------------------------------------------------------------- well-nestedness

  /** A branch of a group; the script knows those not made by `#elifdef` or `#elifndef`. */
  datatype Branch = Branch(condition: Tokens, known: bool)

  /** A group still open: its branches so far, and whether `#else` was reached. */
  datatype Tier = Tier(branches: seq<Branch>, inElse: bool)
  datatype Shape = IllNested | Nested(tiers: seq<Tier>)

  predicate Unknown(line: Line) { line.Elifdef? || line.Elifndef? }

  /** A further branch of the innermost group. */
  function NextTier(tier: Tier, line: Line): Tier {
    if line.Else? then Tier(tier.branches, true)
    else Tier(tier.branches + [Branch(ConditionOf(line), !Unknown(line))], false)
  }

  function ShapeLine(tiers: seq<Tier>, line: Line): Shape {
    if Opens(line) then Nested(tiers + [Tier([Branch(ConditionOf(line), true)], false)])
    else if line.Text? then Nested(tiers)
    else if tiers == [] then IllNested
    else
      var below, top := tiers[..|tiers| - 1], tiers[|tiers| - 1];
      if line.Endif? then Nested(below)
      else if top.inElse then IllNested
      else Nested(below + [NextTier(top, line)])
  }

  function ShapeOf(lines: seq<Line>): Shape {
    if lines == [] then Nested([])
    else
      match ShapeOf(lines[..|lines| - 1])
      case IllNested => IllNested
      case Nested(tiers) => ShapeLine(tiers, lines[|lines| - 1])
  }

  /** The conditions of a group in order. */
  function AllOf(branches: seq<Branch>): seq<Tokens> {
    if branches == [] then [] else AllOf(branches[..|branches| - 1]) + [branches[|branches| - 1].condition]
  }

  /** The conditions the script knows of. */
  function KnownOf(branches: seq<Branch>): seq<Tokens> {
    if branches == [] then []
    else
      var last := branches[|branches| - 1];
      KnownOf(branches[..|branches| - 1]) + if last.known then [last.condition] else []
  }

  /** Of branches with these conditions the last, or `#else`, is the first that is true. */
  predicate Chosen(v: Valuation, conditions: seq<Tokens>, inElse: bool) {
    if inElse then !AnyTrue(v, conditions)
    else conditions != [] && Value(v, conditions[|conditions| - 1]) && !AnyTrue(v, conditions[..|conditions| - 1])
  }

  /** C chose the present branch of the group. */
  predicate IsChosen(v: Valuation, tier: Tier) { Chosen(v, AllOf(tier.branches), tier.inElse) }

  /** The branch the script believes current is the first true one it knows of. */
  predicate IsBelieved(v: Valuation, tier: Tier) { Chosen(v, KnownOf(tier.branches), tier.inElse) }

  predicate AllChosen(v: Valuation, tiers: seq<Tier>) { forall i :: 0 <= i < |tiers| ==> IsChosen(v, tiers[i]) }
  predicate AllBelieved(v: Valuation, tiers: seq<Tier>) { forall i :: 0 <= i < |tiers| ==> IsBelieved(v, tiers[i]) }

  lemma {:induction false} AnyTrueMore(v: Valuation, conditions: seq<Tokens>, condition: Tokens)
    ensures AnyTrue(v, conditions + [condition]) <==> AnyTrue(v, conditions) || Value(v, condition)
  {
    var all := conditions + [condition];
    assert all[|conditions|] == condition;
    if i :| 0 <= i < |conditions| && Value(v, conditions[i]) { assert all[i] == conditions[i]; }
  }

  lemma {:induction false} BranchMore(branches: seq<Branch>, b: Branch)
    ensures AllOf(branches + [b]) == AllOf(branches) + [b.condition]
    ensures KnownOf(branches + [b]) == KnownOf(branches) + if b.known then [b.condition] else []
  {
    assert (branches + [b])[..|branches|] == branches;
  }

  // --------------------------------------------------------------- what C compiles

  ghost predicate Follows(v: Valuation, tier: Tier, group: Group) {
    && (group.active <==> group.outer && IsChosen(v, tier))
    && (group.outer && !tier.inElse ==> (group.taken <==> AnyTrue(v, AllOf(tier.branches))))
  }

  /** The text around a group is compiled when the branch around it is. */
  ghost predicate OuterIs(groups: seq<Group>, i: nat)
    requires i < |groups|
  {
    groups[i].outer == (i == 0 || groups[i - 1].active)
  }

  ghost predicate InStep(v: Valuation, tiers: seq<Tier>, groups: seq<Group>) {
    && |tiers| == |groups|
    && (forall i :: 0 <= i < |tiers| ==> Follows(v, tiers[i], groups[i]))
    && (forall i :: 0 <= i < |groups| ==> OuterIs(groups, i))
  }

  function NextGroup(v: Valuation, group: Group, line: Line): Group {
    if line.Else? then Group(group.outer, true, group.outer && !group.taken)
    else
      var c := Value(v, ConditionOf(line));
      Group(group.outer, group.taken || (group.outer && c), group.outer && !group.taken && c)
  }

  lemma {:induction false} BranchFollows(v: Valuation, tier: Tier, group: Group, line: Line)
    requires Follows(v, tier, group) && !tier.inElse
    ensures Follows(v, NextTier(tier, line), NextGroup(v, group, line))
  {
    if !line.Else? {
      BranchMore(tier.branches, Branch(ConditionOf(line), !Unknown(line)));
      AnyTrueMore(v, AllOf(tier.branches), ConditionOf(line));
      var all := AllOf(tier.branches) + [ConditionOf(line)];
      assert all[..|all| - 1] == AllOf(tier.branches);
    }
  }

  lemma {:induction false} OpenedFollows(v: Valuation, condition: Tokens, outer: bool)
    ensures var c := Value(v, condition);
      Follows(v, Tier([Branch(condition, true)], false), Group(outer, outer && c, outer && c))
  {
    BranchMore([], Branch(condition, true));
    assert [] + [Branch(condition, true)] == [Branch(condition, true)];
    AnyTrueMore(v, [], condition);
    assert [] + [condition] == [condition] && [condition][..0] == [];
  }

  lemma {:induction false} PopInStep(v: Valuation, tiers: seq<Tier>, groups: seq<Group>)
    requires InStep(v, tiers, groups) && tiers != []
    ensures InStep(v, tiers[..|tiers| - 1], groups[..|groups| - 1])
  {
    var n := |tiers| - 1;
    forall i | 0 <= i < n ensures OuterIs(groups[..n], i) { assert OuterIs(groups, i); }
  }

  lemma {:induction false} PushInStep(v: Valuation, tiers: seq<Tier>, groups: seq<Group>, tier: Tier, group: Group)
    requires InStep(v, tiers, groups) && Follows(v, tier, group) && group.outer == Compiled(groups)
    ensures InStep(v, tiers + [tier], groups + [group])
  {
    var n, more := |tiers|, groups + [group];
    forall i | 0 <= i <= n ensures OuterIs(more, i) {
      if i < n { assert OuterIs(groups, i); }
    }
  }

  /** One line keeps the open groups and C in step. */
  lemma {:induction false} LineInStep(v: Valuation, tiers: seq<Tier>, groups: seq<Group>, line: Line)
    requires InStep(v, tiers, groups) && ShapeLine(tiers, line).Nested?
    ensures InStep(v, ShapeLine(tiers, line).tiers, Include(v, groups, line))
  {
    if Opens(line) {
      var c := Value(v, ConditionOf(line));
      OpenedFollows(v, ConditionOf(line), Compiled(groups));
      PushInStep(v, tiers, groups, Tier([Branch(ConditionOf(line), true)], false),
                 Group(Compiled(groups), Compiled(groups) && c, Compiled(groups) && c));
    } else if !line.Text? {
      PopInStep(v, tiers, groups);
      if !line.Endif? { BranchInStep(v, tiers, groups, line); }
    }
  }

  lemma {:induction false} BranchInStep(v: Valuation, tiers: seq<Tier>, groups: seq<Group>, line: Line)
    requires InStep(v, tiers, groups) && tiers != [] && !tiers[|tiers| - 1].inElse
    requires InStep(v, tiers[..|tiers| - 1], groups[..|groups| - 1])
    ensures var n := |tiers| - 1;
      InStep(v, tiers[..n] + [NextTier(tiers[n], line)], groups[..n] + [NextGroup(v, groups[n], line)])
  {
    var n := |tiers| - 1;
    BranchFollows(v, tiers[n], groups[n], line);
    assert OuterIs(groups, n);
    PushInStep(v, tiers[..n], groups[..n], NextTier(tiers[n], line), NextGroup(v, groups[n], line));
  }

  lemma {:induction false} TextInStep(v: Valuation, lines: seq<Line>)
    requires ShapeOf(lines).Nested?
    ensures InStep(v, ShapeOf(lines).tiers, Included(v, lines))
  {
    if lines != [] {
      var before := lines[..|lines| - 1];
      TextInStep(v, before);
      LineInStep(v, ShapeOf(before).tiers, Included(v, before), lines[|lines| - 1]);
    }
  }

  lemma {:induction false} ActiveInStep(v: Valuation, tiers: seq<Tier>, groups: seq<Group>)
    requires InStep(v, tiers, groups)
    ensures Compiled(groups) <==> AllChosen(v, tiers)
    decreases |tiers|
  {
    if tiers != [] {
      var n := |tiers| - 1;
      PopInStep(v, tiers, groups);
      ActiveInStep(v, tiers[..n], groups[..n]);
      assert OuterIs(groups, n) && Follows(v, tiers[n], groups[n]);
      if AllChosen(v, tiers) { assert forall i :: 0 <= i < n ==> tiers[..n][i] == tiers[i]; }
      if AllChosen(v, tiers[..n]) && IsChosen(v, tiers[n]) {
        forall i | 0 <= i <= n ensures IsChosen(v, tiers[i]) { assert i < n ==> tiers[..n][i] == tiers[i]; }
      }
    }
  }

  /** C compiles the text exactly when it chose the present branch of every open group. */
  lemma {:induction false} CompiledWhenChosen(v: Valuation, lines: seq<Line>)
    requires ShapeOf(lines).Nested?
    ensures Compiled(Included(v, lines)) <==> AllChosen(v, ShapeOf(lines).tiers)
  {
    TextInStep(v, lines);
    ActiveInStep(v, ShapeOf(lines).tiers, Included(v, lines));
  }

  // ------------------------------------------------------------- what the guards say

  /** The guard of a group with the given known conditions. */
  function GuardOf(known: seq<Tokens>, inElse: bool): Tokens {
    if known == [] then []
    else if inElse then NoneOf(known)
    else if |known| == 1 then known[0]
    else ElifGuard(known[..|known| - 1], known[|known| - 1])
  }

  function FrameOf(tier: Tier): Frame {
    Frame(KnownOf(tier.branches), GuardOf(KnownOf(tier.branches), tier.inElse))
  }

  function FramesOf(tiers: seq<Tier>): seq<Frame> {
    seq(|tiers|, i requires 0 <= i < |tiers| => FrameOf(tiers[i]))
  }

  ghost predicate AnyKnown(tiers: seq<Tier>) { forall i :: 0 <= i < |tiers| ==> KnownOf(tiers[i].branches) != [] }

  /** The script's treatment of a further branch. */
  function NextFrame(frame: Frame, line: Line): Frame {
    if line.Elif? then Frame(frame.branches + [line.condition], ElifGuard(frame.branches, line.condition))
    else if line.Else? then Frame(frame.branches, NoneOf(frame.branches))
    else frame
  }

  lemma {:induction false} GuardOfMore(known: seq<Tokens>, condition: Tokens)
    requires known != []
    ensures GuardOf(known + [condition], false) == ElifGuard(known, condition)
  {
    var all := known + [condition];
    assert all[..|all| - 1] == known && all[|all| - 1] == condition;
  }

  lemma {:induction false} BranchScanned(tier: Tier, line: Line)
    requires KnownOf(tier.branches) != [] && !tier.inElse && (line.Elif? || line.Else? || Unknown(line))
    ensures KnownOf(NextTier(tier, line).branches) != []
    ensures FrameOf(NextTier(tier, line)) == NextFrame(FrameOf(tier), line)
  {
    if line.Elif? {
      BranchMore(tier.branches, Branch(line.condition, true));
      GuardOfMore(KnownOf(tier.branches), line.condition);
    } else if !line.Else? {
      BranchMore(tier.branches, Branch(ConditionOf(line), false));
      assert KnownOf(tier.branches) + [] == KnownOf(tier.branches);
    }
  }

  lemma {:induction false} TopScanned(frames: seq<Frame>, line: Line)
    requires frames != [] && (line.Elif? || line.Else? || Unknown(line))
    ensures ScanLine(frames, line) == Frames(frames[..|frames| - 1] + [NextFrame(frames[|frames| - 1], line)])
  {
    assert frames == frames[..|frames| - 1] + [frames[|frames| - 1]];
  }

  lemma {:induction false} FramesOfMore(tiers: seq<Tier>, tier: Tier)
    ensures FramesOf(tiers + [tier]) == FramesOf(tiers) + [FrameOf(tier)]
  {
  }

  lemma {:induction false} OpenedFrame(condition: Tokens)
    ensures FrameOf(Tier([Branch(condition, true)], false)) == Frame([condition], condition)
    ensures KnownOf([Branch(condition, true)]) != []
  {
    BranchMore([], Branch(condition, true));
    assert [] + [Branch(condition, true)] == [Branch(condition, true)] && [] + [condition] == [condition];
  }

  lemma {:induction false} OpenScanned(tiers: seq<Tier>, line: Line)
    requires AnyKnown(tiers) && Opens(line)
    ensures ShapeLine(tiers, line).Nested? && AnyKnown(ShapeLine(tiers, line).tiers)
    ensures ScanLine(FramesOf(tiers), line) == Frames(FramesOf(ShapeLine(tiers, line).tiers))
  {
    OpenedFrame(ConditionOf(line));
    FramesOfMore(tiers, Tier([Branch(ConditionOf(line), true)], false));
  }

  lemma {:induction false} FramesOfTop(tiers: seq<Tier>)
    requires tiers != []
    ensures var n, frames := |tiers| - 1, FramesOf(tiers);
      |frames| == n + 1 && frames[n] == FrameOf(tiers[n]) && frames[..n] == FramesOf(tiers[..n])
  {
  }

  lemma {:induction false} TierScanned(tiers: seq<Tier>, line: Line)
    requires AnyKnown(tiers) && tiers != [] && !tiers[|tiers| - 1].inElse && (line.Elif? || line.Else? || Unknown(line))
    ensures var n := |tiers| - 1;
      var next := tiers[..n] + [NextTier(tiers[n], line)];
      AnyKnown(next) && ScanLine(FramesOf(tiers), line) == Frames(FramesOf(next))
  {
    var n := |tiers| - 1;
    FramesOfTop(tiers);
    TopScanned(FramesOf(tiers), line);
    BranchScanned(tiers[n], line);
    FramesOfMore(tiers[..n], NextTier(tiers[n], line));
  }

  lemma {:induction false} LineScanned(tiers: seq<Tier>, line: Line)
    requires AnyKnown(tiers) && ShapeLine(tiers, line).Nested?
    ensures AnyKnown(ShapeLine(tiers, line).tiers)
    ensures ScanLine(FramesOf(tiers), line) == Frames(FramesOf(ShapeLine(tiers, line).tiers))
  {
    if Opens(line) {
      OpenScanned(tiers, line);
    } else if line.Endif? {
      FramesOfTop(tiers);
    } else if !line.Text? {
      TierScanned(tiers, line);
    }
  }

  /** The script never throws on a well-nested text, and keeps what it knows of each open
      group. */
  lemma {:induction false} TextScanned(lines: seq<Line>)
    requires ShapeOf(lines).Nested?
    ensures AnyKnown(ShapeOf(lines).tiers) && ScanLines(lines) == Frames(FramesOf(ShapeOf(lines).tiers))
  {
    if lines == [] {
      assert FramesOf([]) == [];
    } else {
      TextScanned(lines[..|lines| - 1]);
      LineScanned(ShapeOf(lines[..|lines| - 1]).tiers, lines[|lines| - 1]);
    }
  }

  lemma {:induction false} GuardEvaluates(v: Valuation, known: seq<Tokens>, inElse: bool)
    requires known != [] && AllExpressions(v, known)
    ensures Evaluates(v, GuardOf(known, inElse), Chosen(v, known, inElse))
  {
    var n := |known| - 1;
    if inElse {
      GuardsEvaluate(v, known, known[0]);
    } else if n == 0 {
      assert known[..0] == [];
    } else {
      GuardsEvaluate(v, known[..n], known[n]);
    }
  }

  /** The conditions the script took from the groups still open are expressions. */
  ghost predicate OpenParse(v: Valuation, tiers: seq<Tier>) {
    forall i :: 0 <= i < |tiers| ==> AllExpressions(v, KnownOf(tiers[i].branches))
  }

  /** The guard line of the script. */
  function GuardsAt(lines: seq<Line>): seq<Tokens> {
    match ScanLines(lines)
    case Threw => []
    case Frames(frames) => Guards(frames)
  }

  ghost predicate GuardsSay(v: Valuation, guards: seq<Tokens>, value: bool) {
    if guards == [] then value else Evaluates(v, Joined(guards, And), value)
  }

  /** The guard line is an expression that is true exactly when the script believes in the
      present branch of every open group. */
  lemma {:induction false} GuardsSayBelieved(v: Valuation, lines: seq<Line>)
    requires ShapeOf(lines).Nested? && OpenParse(v, ShapeOf(lines).tiers)
    ensures ScanLines(lines).Frames? && GuardsSay(v, GuardsAt(lines), AllBelieved(v, ShapeOf(lines).tiers))
  {
    var tiers := ShapeOf(lines).tiers;
    TextScanned(lines);
    var guards := GuardsAt(lines);
    forall i | 0 <= i < |tiers| ensures Evaluates(v, guards[i], IsBelieved(v, tiers[i])) {
      GuardEvaluates(v, KnownOf(tiers[i].branches), tiers[i].inElse);
    }
    if guards != [] {
      JoinedAnd(v, guards);
      assert AllTrue(v, guards) <==> AllBelieved(v, tiers) by {
        forall i | 0 <= i < |tiers| ensures Value(v, guards[i]) <==> IsBelieved(v, tiers[i]) { }
      }
    }
  }

  // --------------------------------------------------- when the guard line can be read

  /** The guard line is an expression. */
  ghost predicate LineReads(v: Valuation, guards: seq<Tokens>) { guards == [] || IsExpression(v, Joined(guards, And)) }

  /** No condition copied from an open group closes a parenthesis it did not open. */
  ghost predicate NoStrayOpen(tiers: seq<Tier>) {
    forall i :: 0 <= i < |tiers| ==> AllNoStray(KnownOf(tiers[i].branches))
  }

  lemma {:induction false} GuardParts(v: Valuation, known: seq<Tokens>, inElse: bool)
    requires known != [] && AllNoStray(known)
    ensures NoStray(GuardOf(known, inElse))
    ensures IsExpression(v, GuardOf(known, inElse)) ==> AllExpressions(v, known)
  {
    var n, guard := |known| - 1, GuardOf(known, inElse);
    if inElse {
      NoStrayNoneOf(known);
      if IsExpression(v, guard) {
        ExpressionBalanced(v, guard);
        ExpressionStarts(v, guard);
        assert guard + [] == guard;
        NoneOfParts(v, known, []);
      }
    } else if n > 0 {
      ElifNoStray(known[..n], known[n]);
      if IsExpression(v, guard) {
        ElifGuardParts(v, known[..n], known[n]);
        forall i | 0 <= i <= n ensures IsExpression(v, known[i]) { assert i < n ==> known[i] == known[..n][i]; }
      }
    }
  }

  lemma {:induction false} ElifNoStray(branches: seq<Tokens>, condition: Tokens)
    requires AllNoStray(branches) && NoStray(condition)
    ensures NoStray(ElifGuard(branches, condition))
  {
    NoStrayNoneOf(branches);
    NoStrayParen(condition);
    NoStrayOne(And);
    NoStrayAppend(NoneOf(branches), [And]);
    NoStrayAppend(NoneOf(branches) + [And], Paren(condition));
  }

  /** Unless a copied condition closes a parenthesis it did not open, the guard line is an
      expression exactly when every condition copied from an open group is one. */
  lemma {:induction false} GuardLineReads(v: Valuation, lines: seq<Line>)
    requires ShapeOf(lines).Nested? && NoStrayOpen(ShapeOf(lines).tiers)
    ensures LineReads(v, GuardsAt(lines)) <==> OpenParse(v, ShapeOf(lines).tiers)
  {
    var tiers, guards := ShapeOf(lines).tiers, GuardsAt(lines);
    TextScanned(lines);
    if OpenParse(v, tiers) { GuardsSayBelieved(v, lines); }
    forall i | 0 <= i < |tiers|
      ensures NoStray(guards[i])
      ensures IsExpression(v, guards[i]) ==> AllExpressions(v, KnownOf(tiers[i].branches))
    {
      GuardParts(v, KnownOf(tiers[i].branches), tiers[i].inElse);
    }
    if guards != [] && LineReads(v, guards) { JoinedParts(v, guards, And); }
  }

  // ------------------------------------------------------ the conditions C evaluates

  /** C evaluates the condition of this line. */
  predicate Evaluated(groups: seq<Group>, line: Line) {
    || (Opens(line) && Compiled(groups))
    || (!Opens(line) && !line.Text? && !line.Else? && !line.Endif? && groups != []
        && groups[|groups| - 1].outer && !groups[|groups| - 1].taken)
  }

  /** C accepts the text: every condition it evaluates is an expression. */
  ghost predicate Accepts(v: Valuation, lines: seq<Line>) {
    lines == [] ||
      var before, last := lines[..|lines| - 1], lines[|lines| - 1];
      Accepts(v, before) && (Evaluated(Included(v, before), last) ==> IsExpression(v, ConditionOf(last)))
  }

  /** The conditions up to the first true one are expressions. */
  ghost predicate Reached(v: Valuation, branches: seq<Branch>) {
    branches == [] ||
      var before, last := branches[..|branches| - 1], branches[|branches| - 1];
      Reached(v, before) && (!AnyTrue(v, AllOf(before)) ==> IsExpression(v, last.condition))
  }

  ghost predicate ReachedAll(v: Valuation, tiers: seq<Tier>, groups: seq<Group>) {
    && |tiers| == |groups|
    && forall i :: 0 <= i < |tiers| && groups[i].outer ==> Reached(v, tiers[i].branches)
  }

  lemma {:induction false} ReachedMore(v: Valuation, branches: seq<Branch>, b: Branch)
    requires Reached(v, branches) && (!AnyTrue(v, AllOf(branches)) ==> IsExpression(v, b.condition))
    ensures Reached(v, branches + [b])
  {
    assert (branches + [b])[..|branches|] == branches;
  }

  lemma {:induction false} ReachedOne(v: Valuation, b: Branch)
    requires IsExpression(v, b.condition)
    ensures Reached(v, [b])
  {
    ReachedMore(v, [], b);
    assert [] + [b] == [b];
  }

  lemma {:induction false} LineReached(v: Valuation, tiers: seq<Tier>, groups: seq<Group>, line: Line)
    requires InStep(v, tiers, groups) && ReachedAll(v, tiers, groups) && ShapeLine(tiers, line).Nested?
    requires Evaluated(groups, line) ==> IsExpression(v, ConditionOf(line))
    ensures ReachedAll(v, ShapeLine(tiers, line).tiers, Include(v, groups, line))
  {
    if Opens(line) {
      if Compiled(groups) { ReachedOne(v, Branch(ConditionOf(line), true)); }
    } else if !line.Text? && !line.Endif? && !line.Else? {
      var tier, group := tiers[|tiers| - 1], groups[|groups| - 1];
      assert Follows(v, tier, group);
      if group.outer { ReachedMore(v, tier.branches, Branch(ConditionOf(line), !Unknown(line))); }
    }
  }

  lemma {:induction false} TextReached(v: Valuation, lines: seq<Line>)
    requires ShapeOf(lines).Nested? && Accepts(v, lines)
    ensures ReachedAll(v, ShapeOf(lines).tiers, Included(v, lines))
  {
    if lines != [] {
      var before := lines[..|lines| - 1];
      TextReached(v, before);
      TextInStep(v, before);
      LineReached(v, ShapeOf(before).tiers, Included(v, before), lines[|lines| - 1]);
    }
  }

  lemma {:induction false} ReachedParse(v: Valuation, branches: seq<Branch>)
    requires Reached(v, branches) && branches != [] && !AnyTrue(v, AllOf(branches[..|branches| - 1]))
    ensures AllExpressions(v, KnownOf(branches))
  {
    var before, last := branches[..|branches| - 1], branches[|branches| - 1];
    if before != [] {
      AnyTrueMore(v, AllOf(before[..|before| - 1]), before[|before| - 1].condition);
      ReachedParse(v, before);
    }
  }

  lemma {:induction false} ChosenParses(v: Valuation, tier: Tier)
    requires Reached(v, tier.branches) && IsChosen(v, tier)
    ensures AllExpressions(v, KnownOf(tier.branches))
  {
    var branches := tier.branches;
    if branches != [] {
      var before, last := branches[..|branches| - 1], branches[|branches| - 1];
      AnyTrueMore(v, AllOf(before), last.condition);
      var all := AllOf(before) + [last.condition];
      assert all[..|all| - 1] == AllOf(before);
      ReachedParse(v, branches);
    }
  }

  lemma {:induction false} ActiveParses(v: Valuation, tiers: seq<Tier>, groups: seq<Group>)
    requires InStep(v, tiers, groups) && ReachedAll(v, tiers, groups) && Compiled(groups)
    ensures OpenParse(v, tiers)
    decreases |tiers|
  {
    if tiers != [] {
      var n := |tiers| - 1;
      assert Follows(v, tiers[n], groups[n]) && OuterIs(groups, n);
      ChosenParses(v, tiers[n]);
      PopInStep(v, tiers, groups);
      ActiveParses(v, tiers[..n], groups[..n]);
      forall i | 0 <= i <= n ensures AllExpressions(v, KnownOf(tiers[i].branches)) {
        assert i < n ==> tiers[..n][i] == tiers[i];
      }
    }
  }

  /** Where C accepts a text and compiles it, every condition the script copied for it is
      one C evaluated, hence an expression. */
  lemma {:induction false} CompiledConditionsParse(v: Valuation, lines: seq<Line>)
    requires ShapeOf(lines).Nested? && Accepts(v, lines) && Compiled(Included(v, lines))
    ensures OpenParse(v, ShapeOf(lines).tiers)
  {
    TextInStep(v, lines);
    TextReached(v, lines);
    ActiveParses(v, ShapeOf(lines).tiers, Included(v, lines));
  }

  // ---------------------------------------------------------- guards against inclusion

  /** The guard line is true exactly when C compiles the text. */
  ghost predicate GuardsRight(v: Valuation, lines: seq<Line>) {
    GuardsSay(v, GuardsAt(lines), Compiled(Included(v, lines)))
  }

  /** For every well-nested text whose copied conditions are expressions: the guards are
      right exactly when C and the script agree on whether the present branch of every open
      group was chosen. Where they are not expressions and close no parenthesis they did not
      open, the guards are never right. */
  lemma {:induction false} GuardsRightExactly(v: Valuation, lines: seq<Line>)
    requires ShapeOf(lines).Nested?
    ensures var tiers := ShapeOf(lines).tiers;
      OpenParse(v, tiers) ==> (GuardsRight(v, lines) <==> (AllChosen(v, tiers) <==> AllBelieved(v, tiers)))
    ensures var tiers := ShapeOf(lines).tiers;
      NoStrayOpen(tiers) && !OpenParse(v, tiers) ==> !GuardsRight(v, lines)
  {
    var tiers := ShapeOf(lines).tiers;
    if OpenParse(v, tiers) { GuardsSayBelieved(v, lines); }
    if NoStrayOpen(tiers) { GuardLineReads(v, lines); }
    CompiledWhenChosen(v, lines);
  }

  ghost predicate AllKnown(tiers: seq<Tier>) {
    forall i, j :: 0 <= i < |tiers| && 0 <= j < |tiers[i].branches| ==> tiers[i].branches[j].known
  }

  lemma {:induction false} KnownIsAll(branches: seq<Branch>)
    requires forall j :: 0 <= j < |branches| ==> branches[j].known
    ensures KnownOf(branches) == AllOf(branches)
  {
    if branches != [] { KnownIsAll(branches[..|branches| - 1]); }
  }

  /** Where no group still open has an `#elifdef` or `#elifndef`, and the conditions copied
      from the open groups are expressions, the guard line is one that is true exactly when
      C compiles the text. Where C accepts the text and compiles it, they always are. And
      unless a copied condition closes a parenthesis it did not open, the line is an
      expression only if they are. */
  lemma {:induction false} GuardsMeanInclusion(v: Valuation, lines: seq<Line>)
    requires ShapeOf(lines).Nested? && AllKnown(ShapeOf(lines).tiers)
    ensures ScanLines(lines).Frames?
    ensures OpenParse(v, ShapeOf(lines).tiers) ==> GuardsRight(v, lines)
    ensures Accepts(v, lines) && Compiled(Included(v, lines)) ==> GuardsSay(v, GuardsAt(lines), true)
    ensures NoStrayOpen(ShapeOf(lines).tiers) ==> (GuardsRight(v, lines) <==> OpenParse(v, ShapeOf(lines).tiers))
  {
    var tiers := ShapeOf(lines).tiers;
    forall i | 0 <= i < |tiers|
      ensures IsChosen(v, tiers[i]) == IsBelieved(v, tiers[i])
    {
      KnownIsAll(tiers[i].branches);
    }
    TextScanned(lines);
    GuardsRightExactly(v, lines);
    if Accepts(v, lines) && Compiled(Included(v, lines)) { CompiledConditionsParse(v, lines); }
  }

  // ------------------------------------------------- the directives the script skips

  /** The present branch of the group is one the script does not know of. */
  predicate Overlooked(tier: Tier) {
    !tier.inElse && tier.branches != [] && !tier.branches[|tier.branches| - 1].known
  }

  /** Some branch the script does not know of has a true condition. */
  predicate HiddenTrue(v: Valuation, branches: seq<Branch>) {
    exists j :: 0 <= j < |branches| && !branches[j].known && Value(v, branches[j].condition)
  }

  lemma {:induction false} HiddenSplit(v: Valuation, branches: seq<Branch>)
    ensures AnyTrue(v, AllOf(branches)) <==> AnyTrue(v, KnownOf(branches)) || HiddenTrue(v, branches)
  {
    if branches != [] {
      var before, last := branches[..|branches| - 1], branches[|branches| - 1];
      HiddenSplit(v, before);
      AnyTrueMore(v, AllOf(before), last.condition);
      AnyTrueMore(v, KnownOf(before), last.condition);
      assert KnownOf(before) + [] == KnownOf(before);
      if j :| 0 <= j < |before| && !before[j].known && Value(v, before[j].condition) {
        assert branches[j] == before[j];
      }
      if j :| 0 <= j < |branches| && !branches[j].known && Value(v, branches[j].condition) {
        assert j < |before| ==> before[j] == branches[j];
      }
    }
  }

  /** In an overlooked branch C and the script never agree on a choice; elsewhere what C
      chose is believed, and what is believed was not chosen only for a hidden branch. */
  lemma {:induction false} ChosenOrBelieved(v: Valuation, tier: Tier)
    requires KnownOf(tier.branches) != []
    ensures Overlooked(tier) ==> !(IsChosen(v, tier) && IsBelieved(v, tier))
    ensures !Overlooked(tier) ==> (IsChosen(v, tier) <==> IsBelieved(v, tier) && !HiddenTrue(v, tier.branches))
  {
    var branches := tier.branches;
    HiddenSplit(v, branches);
    if !tier.inElse {
      var before, last := branches[..|branches| - 1], branches[|branches| - 1];
      HiddenSplit(v, before);
      BranchMore(before, last);
      assert branches == before + [last];
      if last.known {
        var all, known := AllOf(before) + [last.condition], KnownOf(before) + [last.condition];
        assert all[..|all| - 1] == AllOf(before) && known[..|known| - 1] == KnownOf(before);
        SameHidden(v, before, last);
      } else {
        OverlookedApart(v, before, last);
      }
    }
  }

  lemma {:induction false} SameHidden(v: Valuation, before: seq<Branch>, last: Branch)
    requires last.known
    ensures HiddenTrue(v, before + [last]) <==> HiddenTrue(v, before)
  {
    var branches := before + [last];
    if j :| 0 <= j < |before| && !before[j].known && Value(v, before[j].condition) { assert branches[j] == before[j]; }
    if j :| 0 <= j < |branches| && !branches[j].known && Value(v, branches[j].condition) {
      assert branches[j] == before[j];
    }
  }

  lemma {:induction false} OverlookedApart(v: Valuation, before: seq<Branch>, last: Branch)
    requires !last.known && KnownOf(before) != []
    ensures !(Chosen(v, AllOf(before) + [last.condition], false) && Chosen(v, KnownOf(before), false))
  {
    var all, known := AllOf(before) + [last.condition], KnownOf(before);
    assert all[..|all| - 1] == AllOf(before);
    HiddenSplit(v, before);
    if Value(v, known[|known| - 1]) { assert AnyTrue(v, known); }
  }

  /** At every position of every well-nested text whose copied conditions are expressions
      (GuardsRightExactly says what holds of the others, and CompiledConditionsParse that C
      accepts and compiles none of them). Inside an overlooked branch the guards
      are right exactly in the configurations that choose neither that text nor the one the
      script takes it for. Elsewhere they are wrong exactly where the script believes in
      every open group and one of them has a hidden branch whose condition is true. */
  lemma {:induction false} ElifdefMisjudged(v: Valuation, lines: seq<Line>)
    requires ShapeOf(lines).Nested?
    ensures var tiers := ShapeOf(lines).tiers;
      NoStrayOpen(tiers) && !OpenParse(v, tiers) ==> !GuardsRight(v, lines)
    ensures var tiers, right := ShapeOf(lines).tiers, GuardsRight(v, lines);
      OpenParse(v, tiers) ==>
        if exists i :: 0 <= i < |tiers| && Overlooked(tiers[i])
        then right <==> !AllChosen(v, tiers) && !AllBelieved(v, tiers)
        else right <==>
          !(AllBelieved(v, tiers) && exists i :: 0 <= i < |tiers| && HiddenTrue(v, tiers[i].branches))
  {
    var tiers := ShapeOf(lines).tiers;
    GuardsRightExactly(v, lines);
    TextScanned(lines);
    forall i | 0 <= i < |tiers|
      ensures Overlooked(tiers[i]) ==> !(IsChosen(v, tiers[i]) && IsBelieved(v, tiers[i]))
      ensures !Overlooked(tiers[i]) ==>
        (IsChosen(v, tiers[i]) <==> IsBelieved(v, tiers[i]) && !HiddenTrue(v, tiers[i].branches))
    {
      ChosenOrBelieved(v, tiers[i]);
    }
  }

  /** `B` is defined and nothing else is true. */
  function OnlyB(): Valuation { (text: string) => text == "defined(B)" }

  function OneGroup(last: Line): seq<Line> { [If([Atom("A")]), Elifdef("B"), last] }

  lemma {:induction false} ShapeMore(lines: seq<Line>, line: Line)
    requires ShapeOf(lines).Nested?
    ensures ShapeOf(lines + [line]) == ShapeLine(ShapeOf(lines).tiers, line)
  {
    assert (lines + [line])[..|lines|] == lines;
  }

  function TwoBranches(): seq<Branch> { [Branch([Atom("A")], true), Branch(DefinedTokens("B"), false)] }

  lemma {:induction false} OneGroupShape(last: Line)
    requires last.Text? || last.Else?
    ensures ShapeOf(OneGroup(last)) == Nested([Tier(TwoBranches(), last.Else?)])
  {
    var one, two := [If([Atom("A")])], [If([Atom("A")]), Elifdef("B")];
    assert [] + one == one && one + [Elifdef("B")] == two && two + [last] == OneGroup(last);
    ShapeMore([], one[0]);
    assert [] + [FirstTier()] == [FirstTier()];
    ShapeMore(one, Elifdef("B"));
    TwoBranchesStep(last);
    ShapeMore(two, last);
  }

  function FirstTier(): Tier { Tier([TwoBranches()[0]], false) }

  lemma {:induction false} TwoBranchesStep(last: Line)
    requires last.Text? || last.Else?
    ensures ShapeLine([FirstTier()], Elifdef("B")) == Nested([Tier(TwoBranches(), false)])
    ensures ShapeLine([Tier(TwoBranches(), false)], last) == Nested([Tier(TwoBranches(), last.Else?)])
  {
    var both := Tier(TwoBranches(), false);
    assert [FirstTier()][..0] == [] && [both][..0] == [];
    assert NextTier(FirstTier(), Elifdef("B")) == both;
    assert [] + [both] == [both] && [] + [Tier(TwoBranches(), true)] == [Tier(TwoBranches(), true)];
  }

  lemma {:induction false} TwoConditions()
    ensures AllOf(TwoBranches()) == [[Atom("A")], DefinedTokens("B")] && KnownOf(TwoBranches()) == [[Atom("A")]]
  {
    var a, b := TwoBranches()[0], TwoBranches()[1];
    BranchMore([], a);
    BranchMore([a], b);
    assert [] + [a] == [a] && [a] + [b] == TwoBranches();
  }

  lemma {:induction false} AtomValue(v: Valuation, text: string)
    ensures Evaluates(v, [Atom(text)], v(text)) && Value(v, [Atom(text)]) == v(text)
  {
    var ts := [Atom(text)];
    assert ts[1..] == [];
    assert ParseUnary(v, ts) == Ok(v(text), []);
    assert ParseAnd(v, ts) == Ok(v(text), []);
  }

  lemma {:induction false} FirstOfTwo(v: Valuation, a: Tokens, b: Tokens)
    requires !Value(v, a) && Value(v, b)
    ensures Chosen(v, [a, b], false) && !Chosen(v, [a], false)
    ensures !Chosen(v, [a, b], true) && Chosen(v, [a], true)
  {
    assert [a, b][..1] == [a] && [a, b][1] == b;
  }

  lemma {:induction false} OneGroupJudged(v: Valuation, last: Line)
    requires last.Text? || last.Else?
    ensures Compiled(Included(v, OneGroup(last))) <==> Chosen(v, [[Atom("A")], DefinedTokens("B")], last.Else?)
    ensures GuardsSay(v, GuardsAt(OneGroup(last)), Chosen(v, [[Atom("A")]], last.Else?))
  {
    TwoConditions();
    OneGroupShape(last);
    var tiers := ShapeOf(OneGroup(last)).tiers;
    assert AllChosen(v, tiers) <==> IsChosen(v, tiers[0]);
    assert AllBelieved(v, tiers) <==> IsBelieved(v, tiers[0]);
    AtomValue(v, "A");
    CompiledWhenChosen(v, OneGroup(last));
    GuardsSayBelieved(v, OneGroup(last));
  }

  /** With `B` defined and `A` false, the text after `#elifdef B` is compiled and the guard
      says it is not; after a following `#else` it is the other way round. */
  lemma {:induction false} ElifdefWrong()
    ensures Compiled(Included(OnlyB(), OneGroup(Text))) && GuardsSay(OnlyB(), GuardsAt(OneGroup(Text)), false)
    ensures !Compiled(Included(OnlyB(), OneGroup(Else))) && GuardsSay(OnlyB(), GuardsAt(OneGroup(Else)), true)
  {
    var name := "defined(" + "B" + ")";
    assert name == "defined(B)";
    AtomValue(OnlyB(), "A");
    AtomValue(OnlyB(), name);
    FirstOfTwo(OnlyB(), [Atom("A")], DefinedTokens("B"));
    OneGroupJudged(OnlyB(), Text);
    OneGroupJudged(OnlyB(), Else);
  }

  // Deleting the directives the script skips.

  /** The lines with `#elifdef` and `#elifndef` deleted. */
  function Without(lines: seq<Line>): seq<Line> {
    if lines == [] then []
    else
      var before, last := Without(lines[..|lines| - 1]), lines[|lines| - 1];
      if Unknown(last) then before else before + [last]
  }

  /** The second text's groups are the first's with only the branches the script knows. */
  ghost predicate KnownPart(tiers: seq<Tier>, plain: seq<Tier>) {
    |tiers| == |plain| && forall i :: 0 <= i < |tiers| ==> KnownTier(tiers[i], plain[i])
  }

  ghost predicate KnownTier(tier: Tier, plain: Tier) {
    AllOf(plain.branches) == KnownOf(tier.branches) && plain.inElse == tier.inElse
  }

  lemma {:induction false} KnownTierStep(tier: Tier, plain: Tier, line: Line)
    requires KnownTier(tier, plain) && !tier.inElse && !Opens(line)
    ensures if Unknown(line) then KnownTier(NextTier(tier, line), plain)
            else KnownTier(NextTier(tier, line), NextTier(plain, line))
  {
    if !line.Else? {
      var b := Branch(ConditionOf(line), !Unknown(line));
      BranchMore(tier.branches, b);
      BranchMore(plain.branches, b);
    }
  }

  lemma {:induction false} KnownPush(tiers: seq<Tier>, plain: seq<Tier>, tier: Tier, tier': Tier)
    requires KnownPart(tiers, plain) && KnownTier(tier, tier')
    ensures KnownPart(tiers + [tier], plain + [tier'])
  {
  }

  lemma {:induction false} KnownPop(tiers: seq<Tier>, plain: seq<Tier>)
    requires KnownPart(tiers, plain) && tiers != []
    ensures KnownPart(tiers[..|tiers| - 1], plain[..|plain| - 1]) && KnownTier(tiers[|tiers| - 1], plain[|plain| - 1])
  {
  }

  lemma {:induction false} KnownOpened(condition: Tokens)
    ensures KnownTier(Tier([Branch(condition, true)], false), Tier([Branch(condition, true)], false))
  {
    BranchMore([], Branch(condition, true));
    assert [] + [Branch(condition, true)] == [Branch(condition, true)];
  }

  lemma {:induction false} KnownPartStep(tiers: seq<Tier>, plain: seq<Tier>, line: Line)
    requires KnownPart(tiers, plain) && ShapeLine(tiers, line).Nested?
    ensures if Unknown(line) then KnownPart(ShapeLine(tiers, line).tiers, plain)
            else ShapeLine(plain, line).Nested? && KnownPart(ShapeLine(tiers, line).tiers, ShapeLine(plain, line).tiers)
  {
    if Opens(line) {
      KnownOpened(ConditionOf(line));
      var tier := Tier([Branch(ConditionOf(line), true)], false);
      KnownPush(tiers, plain, tier, tier);
    } else if !line.Text? {
      var n := |tiers| - 1;
      KnownPop(tiers, plain);
      if !line.Endif? {
        KnownTierStep(tiers[n], plain[n], line);
        var next := if Unknown(line) then plain[n] else NextTier(plain[n], line);
        KnownPush(tiers[..n], plain[..n], NextTier(tiers[n], line), next);
        assert plain[..n] + [plain[n]] == plain;
      }
    }
  }

  lemma {:induction false} WithoutShape(lines: seq<Line>)
    requires ShapeOf(lines).Nested?
    ensures ShapeOf(Without(lines)).Nested? && KnownPart(ShapeOf(lines).tiers, ShapeOf(Without(lines)).tiers)
  {
    if lines != [] {
      var before, last := lines[..|lines| - 1], lines[|lines| - 1];
      WithoutShape(before);
      KnownPartStep(ShapeOf(before).tiers, ShapeOf(Without(before)).tiers, last);
      ShapeMore(Without(before), last);
    }
  }

  /** What the guards mean for every well-nested text: what C compiles once the directives
      the script does not know are deleted, where the copied conditions are expressions, and
      nowhere else unless a copied condition closes a parenthesis it did not open. */
  lemma {:induction false} GuardsMeanInclusionWithout(v: Valuation, lines: seq<Line>)
    requires ShapeOf(lines).Nested?
    ensures ScanLines(lines).Frames?
    ensures OpenParse(v, ShapeOf(lines).tiers) ==>
      GuardsSay(v, GuardsAt(lines), Compiled(Included(v, Without(lines))))
    ensures NoStrayOpen(ShapeOf(lines).tiers) ==>
      (GuardsSay(v, GuardsAt(lines), Compiled(Included(v, Without(lines)))) <==> OpenParse(v, ShapeOf(lines).tiers))
  {
    WithoutShape(lines);
    TextScanned(lines);
    if OpenParse(v, ShapeOf(lines).tiers) { GuardsSayBelieved(v, lines); }
    if NoStrayOpen(ShapeOf(lines).tiers) { GuardLineReads(v, lines); }
    CompiledWhenChosen(v, Without(lines));
    var tiers, plain := ShapeOf(lines).tiers, ShapeOf(Without(lines)).tiers;
    forall i | 0 <= i < |tiers| ensures IsChosen(v, plain[i]) <==> IsBelieved(v, tiers[i]) {
      assert KnownTier(tiers[i], plain[i]);
    }
  }

  // ------------------------------------------------- conditions C does not evaluate

  /** A condition inside skipped text need not be an expression for C, and the script copies
      it. Here the copied condition is empty, and the guard line is no expression. */
  lemma {:induction false} SkippedConditionCopied(v: Valuation, outer: Tokens)
    requires IsExpression(v, outer) && !Value(v, outer)
    ensures var lines := [If(outer), If([])];
      && !Compiled(Included(v, lines))
      && ScanLines(lines).Frames? && GuardsAt(lines) == [outer, []]
      && !IsExpression(v, Joined(GuardsAt(lines), And))
  {
    var lines := [If(outer), If([])];
    assert lines[..1] == [If(outer)] && lines[..1][..0] == [];
    assert ScanLines(lines[..1]) == Frames([Frame([outer], outer)]);
    assert ScanLines(lines) == Frames([Frame([outer], outer), Frame([[]], [])]);
    assert GuardsAt(lines) == [outer, []];
    assert Included(v, lines[..1]) == [Group(true, false, false)];
    var rest := [And] + Joined([[]], And);
    assert [outer, []][1..] == [[]];
    assert Joined([outer, []], And) == Paren(outer) + rest;
    ParenIsOperand(v, outer, rest);
    var inner := Paren([]);
    assert Joined([[]], And) == inner && rest[1..] == inner && inner[1..] == [Close];
    assert ParseUnary(v, [Close]) == Fail && ParseAnd(v, [Close]) == Fail && ParseOr(v, [Close]) == Fail;
    assert ParseUnary(v, inner) == Fail && ParseAnd(v, inner) == Fail;
    assert ParseAnd(v, Paren(outer) + rest) == Fail;
  }

  /** A skipped group inside a group whose condition is false. */
  function SkippedGroup(condition: Tokens): seq<Line> { [If([Atom("O")]), If(condition)] }

  /** A condition that closes a parenthesis it did not open, around an operator. */
  function Stray(op: Token): Tokens { [Atom("A"), Close, op, Open, Atom("B")] }

  /** Everything is true but `O`. */
  function AllButO(): Valuation { (text: string) => text != "O" }

  lemma {:induction false} SkippedGroupScan(v: Valuation, condition: Tokens)
    requires !v("O")
    ensures ShapeOf(SkippedGroup(condition)).Nested?
    ensures GuardsAt(SkippedGroup(condition)) == [[Atom("O")], condition]
    ensures Accepts(v, SkippedGroup(condition)) && !Compiled(Included(v, SkippedGroup(condition)))
  {
    var outer := [Atom("O")];
    var one, lines := [If(outer)], SkippedGroup(condition);
    assert lines[..1] == one && one[..0] == [];
    AtomValue(v, "O");
    assert ScanLines(one) == Frames([Frame([outer], outer)]) && ShapeOf(one).Nested?;
    assert ScanLines(lines) == Frames([Frame([outer], outer), Frame([condition], condition)]);
    assert Included(v, one) == [Group(true, false, false)];
    assert Accepts(v, one[..0]) && ConditionOf(one[0]) == outer;
    assert Accepts(v, one);
  }

  lemma {:induction false} StrayLine(v: Valuation, op: Token)
    requires op.And? || op.Or?
    ensures var line := Joined([[Atom("O")], Stray(op)], And);
      Evaluates(v, line, if op.And? then v("O") && v("A") && v("B") else (v("O") && v("A")) || v("B"))
  {
    var o, a, b := [Atom("O")], [Atom("A")], [Atom("B")];
    var line := Joined([o, Stray(op)], And);
    assert [o, Stray(op)][1..] == [Stray(op)] && Joined([Stray(op)], And) == Paren(Stray(op));
    assert Paren(Stray(op)) == Paren(a) + ([op] + Paren(b));
    assert line == Paren(o) + ([And] + (Paren(a) + ([op] + Paren(b))));
    AtomValue(v, "O");
    AtomValue(v, "A");
    AtomValue(v, "B");
    ParenBuilt(v, o, v("O"));
    ParenBuilt(v, a, v("A"));
    ParenBuilt(v, b, v("B"));
    assert ParseAnd(v, Paren(a)) == Ok(v("A"), []) && ParseAnd(v, Paren(b)) == Ok(v("B"), []);
    if op.And? {
      AndBuilt(v, Paren(a), Paren(b), v("A"), v("B"));
      AndBuilt(v, Paren(o), Paren(a) + ([And] + Paren(b)), v("O"), v("A") && v("B"));
    } else {
      AndBuilt(v, Paren(o), Paren(a), v("O"), v("A"));
      assert ParseOr(v, Paren(b)) == Ok(v("B"), []);
      OrBuilt(v, Paren(o) + ([And] + Paren(a)), Paren(b), v("O") && v("A"), v("B"));
      assert line == Paren(o) + ([And] + Paren(a)) + ([Or] + Paren(b));
    }
  }

  /** With such a condition the line may be an expression although the condition is none,
      and then it may be right or wrong: `A) && (B` under a false `O` is right, `A) || (B`
      is wrong. C accepts both texts and compiles neither. */
  lemma {:induction false} StrayParentheses(op: Token)
    requires op.And? || op.Or?
    ensures var v, lines := AllButO(), SkippedGroup(Stray(op));
      && Accepts(v, lines) && !Compiled(Included(v, lines))
      && !IsExpression(v, Stray(op)) && !NoStray(Stray(op))
      && (GuardsRight(v, lines) <==> op.And?)
  {
    var v, ts := AllButO(), Stray(op);
    SkippedGroupScan(v, ts);
    StrayLine(v, op);
    assert ts[..2] == [Atom("A"), Close] && ts[..2][..1] == [Atom("A")] && ts[..1][..0] == [];
    assert Depth([Atom("A")]) == 0 && Depth(ts[..2]) == -1;
    if IsExpression(v, ts) { ExpressionBalanced(v, ts); }
  }

  // -------------------------------------------------------------- the emitted wrapper

  /** The lines of a wrapper before its call of the native symbol. */
  function BeforeCall(guards: seq<Tokens>): seq<Line> {
    if guards == [] then [Text] else [Text, If(Joined(guards, And))]
  }

  /** The lines before its fallback, which only a guarded wrapper has. */
  function BeforeFallback(guards: seq<Tokens>): seq<Line> { BeforeCall(guards) + [Text, Else] }

  lemma {:induction false} WrapperBranches(v: Valuation, guards: seq<Tokens>)
    ensures guards == [] ==> Compiled(Included(v, BeforeCall(guards)))
    ensures guards != [] ==> (Compiled(Included(v, BeforeCall(guards))) <==> Value(v, Joined(guards, And)))
    ensures guards != [] ==> (Compiled(Included(v, BeforeFallback(guards))) <==> !Value(v, Joined(guards, And)))
  {
    IncludedMore(v, [], Text);
    assert [] + [Text] == [Text];
    if guards != [] {
      CallIncluded(v, Joined(guards, And));
      FallbackIncluded(v, Joined(guards, And));
      assert BeforeFallback(guards) == [Text, If(Joined(guards, And)), Text] + [Else];
    }
  }

  lemma {:induction false} CallIncluded(v: Valuation, guard: Tokens)
    ensures Included(v, [Text, If(guard)]) == [Group(true, Value(v, guard), Value(v, guard))]
  {
    IncludedMore(v, [], Text);
    IncludedMore(v, [Text], If(guard));
    assert [] + [Text] == [Text] && [Text] + [If(guard)] == [Text, If(guard)];
  }

  lemma {:induction false} FallbackIncluded(v: Valuation, guard: Tokens)
    ensures Included(v, [Text, If(guard), Text] + [Else]) == [Group(true, true, !Value(v, guard))]
  {
    var call := [Text, If(guard)];
    CallIncluded(v, guard);
    IncludedMore(v, call, Text);
    assert call + [Text] == [Text, If(guard), Text];
    IncludedMore(v, [Text, If(guard), Text], Else);
    assert Included(v, call)[..0] == [];
  }

  lemma {:induction false} IncludedMore(v: Valuation, lines: seq<Line>, line: Line)
    ensures Included(v, lines + [line]) == Include(v, Included(v, lines), line)
  {
    assert (lines + [line])[..|lines|] == lines;
  }

  /** In every configuration in which the conditions copied from the open groups are
      expressions the wrapper calls the native symbol exactly when its definition is
      compiled, and otherwise takes its fallback; and wherever C accepts and compiles the
      definition, the wrapper calls it. */
  lemma {:induction false} WrapperCallsWhatIsCompiled(v: Valuation, lines: seq<Line>)
    requires ShapeOf(lines).Nested? && AllKnown(ShapeOf(lines).tiers)
    ensures ScanLines(lines).Frames?
    ensures OpenParse(v, ShapeOf(lines).tiers) ==>
      var guards := GuardsAt(lines);
      && (Compiled(Included(v, BeforeCall(guards))) <==> Compiled(Included(v, lines)))
      && (guards != [] ==> (Compiled(Included(v, BeforeFallback(guards))) <==> !Compiled(Included(v, lines))))
    ensures Accepts(v, lines) && Compiled(Included(v, lines)) ==> Compiled(Included(v, BeforeCall(GuardsAt(lines))))
  {
    GuardsMeanInclusion(v, lines);
    WrapperBranches(v, GuardsAt(lines));
  }
}
