/** The wire plan of the test262 runner: src/test262/runtime.ts writes it, and
    runtime/test262_wire.c cuts the file into C strings in place. Bytes are numbers,
    a pointer is an offset into the buffer, and NULL_POINTER marks one never set. */
module WirePlan {
  import opened Numbering
  import opened Sorting
  import opened TextLines

  const NUL: nat := 0
  /** The bytes of `#can-block=false`. */
  const DIRECTIVE: Codes := [35, 99, 97, 110, 45, 98, 108, 111, 99, 107, 61, 102, 97, 108, 115, 101]
  const NULL_POINTER := -1

  // ------------------------------------------------------------------ what a plan says

  /** What a C reader sees of a buffer. */
  function CString(s: Codes): Codes { s[..IndexOf(s, NUL)] }

  /** The lines of a plan. A newline ends a line and takes one carriage return with it. */
  function Lines(plan: Codes): seq<Codes>
    decreases |plan|
  {
    if plan == [] then []
    else if NEWLINE in plan then [First(plan)] + Lines(After(plan))
    else [plan]
  }

  datatype Plan = Plan(canBlock: bool, wires: seq<Codes>)

  function Texts(plan: Codes): seq<Codes> { Map(Lines(plan), CString) }

  /** A first line holding the directive is taken off when another line follows. */
  function PlanOf(texts: seq<Codes>): Plan {
    if |texts| > 1 && texts[0] == DIRECTIVE then Plan(false, texts[1..]) else Plan(true, texts)
  }

  // ------------------------------------------------------------------------ the writer

  function Terminated(lines: seq<Codes>): Codes {
    if lines == [] then [] else lines[0] + [NEWLINE] + Terminated(lines[1..])
  }

  function Directives(canBlock: bool): seq<Codes> { if canBlock then [] else [DIRECTIVE] }

  /** The lines joined by newlines, with a newline at the end. */
  function Write(p: Plan): Codes
    requires p.wires != []
  {
    Terminated(Directives(p.canBlock) + p.wires)
  }

  // ---------------------------------------------------------------------- the splitter

  /** Where the line after position `i` starts. */
  function Next(plan: Codes, i: nat): (n: nat)
    requires i <= |plan|
    ensures i < n <= |plan| + 1
  {
    i + Newline(plan[i..]) + 1
  }

  /** The starts of the lines from `s` on. */
  function Starts(plan: Codes, s: nat): seq<nat>
    decreases |plan| - s
  {
    if s >= |plan| then [] else [s] + Starts(plan, Next(plan, s))
  }

  lemma {:induction false} NextInLine(plan: Codes, i: nat)
    requires i < |plan|
    ensures plan[i] == NEWLINE ==> Next(plan, i) == i + 1
    ensures plan[i] != NEWLINE ==> Next(plan, i) == Next(plan, i + 1)
  {
    assert plan[i..][0] == plan[i] && plan[i..][1..] == plan[i + 1..];
  }

  lemma {:induction false} CountSplit(line: Codes, rest: Codes, plan: Codes)
    requires NEWLINE !in line && plan == line + [NEWLINE] + rest
    ensures multiset(plan)[NEWLINE] == 1 + multiset(rest)[NEWLINE]
    ensures plan[|plan| - 1] == if rest == [] then NEWLINE else rest[|rest| - 1]
  {
    assert NEWLINE !in multiset(line);
  }

  lemma {:induction false} LineCount(plan: Codes)
    ensures |Lines(plan)| == multiset(plan)[NEWLINE] + (if plan != [] && plan[|plan| - 1] != NEWLINE then 1 else 0)
    decreases |plan|
  {
    if NEWLINE in plan {
      var i := Newline(plan);
      CountSplit(plan[..i], After(plan), plan);
      LineCount(After(plan));
    } else {
      assert NEWLINE !in multiset(plan);
    }
  }

  /** The buffer after the newlines before `i` have been dealt with. */
  function Cut(plan: Codes, i: nat, k: nat): nat
    requires i <= |plan| && k < |plan|
  {
    if k < i && (plan[k] == NEWLINE || (plan[k] == RETURN && k + 1 < i && plan[k + 1] == NEWLINE)) then NUL else plan[k]
  }

  /** The zero-terminated plan with its newlines before `i` cut. */
  ghost predicate CutTo(buffer: seq<nat>, plan: Codes, i: nat) {
    && |buffer| == |plan| + 1 && buffer[|plan|] == NUL && i <= |plan|
    && forall k :: 0 <= k < |plan| ==> buffer[k] == Cut(plan, i, k)
  }

  ghost predicate IsCut(buffer: seq<nat>, plan: Codes) { CutTo(buffer, plan, |plan|) }

  lemma {:induction false} CStringOfPrefix(s: Codes, n: nat)
    requires n < |s| && s[n] == NUL
    ensures CString(s) == CString(s[..n])
  {
    assert s[..n] + s[n..] == s;
    var i, j := IndexOf(s, NUL), IndexOf(s[..n], NUL);
    assert i <= n;
    assert forall k :: 0 <= k < n ==> s[..n][k] == s[k];
  }

  /** The line that starts at `s`. */
  function LineFrom(plan: Codes, s: nat): Codes
    requires s < |plan|
  {
    if NEWLINE in plan[s..] then First(plan[s..]) else plan[s..]
  }

  lemma {:induction false} LinesStep(plan: Codes, s: nat)
    requires s < |plan|
    ensures Lines(plan[s..]) == [LineFrom(plan, s)]
      + if Next(plan, s) > |plan| then [] else Lines(plan[Next(plan, s)..])
  {
    NextLine(plan, s);
  }

  lemma {:induction false} NextLine(plan: Codes, s: nat)
    requires s <= |plan|
    ensures NEWLINE in plan[s..] ==> Next(plan, s) <= |plan| && After(plan[s..]) == plan[Next(plan, s)..]
    ensures NEWLINE !in plan[s..] ==> Next(plan, s) == |plan| + 1
  {
  }

  /** From the start of a line the cut buffer reads as that line. */
  lemma {:induction false} LineRead(buffer: seq<nat>, plan: Codes, s: nat)
    requires IsCut(buffer, plan) && s < |plan|
    ensures CString(buffer[s..]) == CString(LineFrom(plan, s))
  {
    var rest, line := plan[s..], LineFrom(plan, s);
    var n := |line|;
    assert line == rest[..n];
    forall k | 0 <= k < n ensures buffer[s..][k] == line[k] {
      assert rest[k] == plan[s + k] && rest[k] != NEWLINE;
      assert k + 1 < |rest| ==> rest[k + 1] == plan[s + k + 1];
    }
    assert buffer[s..][n] == NUL;
    assert buffer[s..][..n] == line;
    CStringOfPrefix(buffer[s..], n);
  }

  ghost predicate ReadsAs(buffer: seq<nat>, starts: seq<nat>, lines: seq<Codes>, limit: nat) {
    && |starts| == |lines|
    && forall k :: 0 <= k < |starts| ==>
         starts[k] < limit <= |buffer| && CString(buffer[starts[k]..]) == CString(lines[k])
  }

  lemma {:induction false} StartsRead(buffer: seq<nat>, plan: Codes, s: nat)
    requires IsCut(buffer, plan) && s <= |plan|
    ensures ReadsAs(buffer, Starts(plan, s), Lines(plan[s..]), |plan|)
    decreases |plan| - s
  {
    if s < |plan| {
      LineRead(buffer, plan, s);
      LinesStep(plan, s);
      var next := Next(plan, s);
      if next <= |plan| {
        StartsRead(buffer, plan, next);
        ReadsMore(buffer, s, Starts(plan, next), LineFrom(plan, s), Lines(plan[next..]), |plan|);
      } else {
        ReadsMore(buffer, s, [], LineFrom(plan, s), [], |plan|);
      }
    }
  }

  lemma {:induction false} ReadsMore(buffer: seq<nat>, s: nat, starts: seq<nat>, line: Codes, lines: seq<Codes>,
                                     limit: nat)
    requires s < limit <= |buffer| && ReadsAs(buffer, starts, lines, limit)
    requires CString(buffer[s..]) == CString(line)
    ensures ReadsAs(buffer, [s] + starts, [line] + lines, limit)
  {
  }

  method CountLines(buffer: array<nat>, length: nat) returns (count: nat)
    requires length < buffer.Length
    ensures count == |Lines(buffer[..length])|
  {
    count := 0;
    var i := 0;
    while i < length
      invariant i <= length && count == multiset(buffer[..i])[NEWLINE]
    {
      assert buffer[..i + 1] == buffer[..i] + [buffer[i]];
      if buffer[i] == NEWLINE { count := count + 1; }
      i := i + 1;
    }
    if length > 0 && buffer[length - 1] != NEWLINE { count := count + 1; }
    LineCount(buffer[..length]);
  }

  /** The line starts after position `i`. */
  function Later(plan: Codes, i: nat): seq<int>
    requires i <= |plan|
  {
    Starts(plan, Next(plan, i))
  }

  lemma {:induction false} LaterStep(plan: Codes, i: nat)
    requires i < |plan|
    ensures plan[i] == NEWLINE && i + 1 < |plan| ==> Later(plan, i) == [i + 1] + Later(plan, i + 1)
    ensures !(plan[i] == NEWLINE && i + 1 < |plan|) ==> Later(plan, i) == Later(plan, i + 1)
  {
    NextInLine(plan, i);
  }

  function CutAt(buffer: seq<nat>, i: nat): seq<nat>
    requires i < |buffer|
  {
    if i > 0 && buffer[i - 1] == RETURN then buffer[i := NUL][i - 1 := NUL] else buffer[i := NUL]
  }

  lemma {:induction false} CutStep(buffer: seq<nat>, plan: Codes, i: nat)
    requires i < |plan| && CutTo(buffer, plan, i)
    ensures buffer[i] == plan[i]
    ensures CutTo(if plan[i] == NEWLINE then CutAt(buffer, i) else buffer, plan, i + 1)
  {
  }

  /** The first `index` pointers are the line starts met before position `i`. */
  ghost predicate Pointed(paths: seq<int>, index: nat, plan: Codes, i: nat) {
    && i <= |plan| && index <= |paths| == |Starts(plan, 0)|
    && paths[..index] + Later(plan, i) == Starts(plan, 0)
  }

  lemma {:induction false} PointedStep(paths: seq<int>, index: nat, plan: Codes, i: nat)
    requires i < |plan| && Pointed(paths, index, plan, i)
    ensures plan[i] == NEWLINE && i + 1 < |plan| ==>
      index < |paths| && Pointed(paths[index := i + 1], index + 1, plan, i + 1)
    ensures !(plan[i] == NEWLINE && i + 1 < |plan|) ==> Pointed(paths, index, plan, i + 1)
  {
    LaterStep(plan, i);
    var later := Later(plan, i + 1);
    if plan[i] == NEWLINE && i + 1 < |plan| {
      assert |paths[..index] + ([i + 1] + later)| == |Starts(plan, 0)|;
      assert paths[index := i + 1][..index + 1] + later == paths[..index] + ([i + 1] + later);
    }
  }

  /** One newline: cuts it off and points at the line after it, if there is one. */
  method CutLine(buffer: array<nat>, paths: array<int>, i: nat, length: nat, index: nat) returns (next: nat)
    requires i < length < buffer.Length && index <= paths.Length
    modifies buffer, paths
    ensures buffer[..] == CutAt(old(buffer[..]), i)
    ensures if i + 1 < length && index < paths.Length
      then next == index + 1 && paths[..] == old(paths[..])[index := i + 1]
      else next == index && paths[..] == old(paths[..])
  {
    next := index;
    buffer[i] := NUL;
    if i > 0 && buffer[i - 1] == RETURN { buffer[i - 1] := NUL; }
    if i + 1 < length && index < paths.Length {
      paths[index] := i + 1;
      next := index + 1;
    }
  }

  lemma {:induction false} FirstPointed(paths: seq<int>, plan: Codes)
    requires plan != [] && |paths| == |Starts(plan, 0)| && paths[0] == 0
    ensures Pointed(paths, 1, plan, 0)
  {
    assert paths[..1] == [0];
  }

  lemma {:induction false} LastPointed(paths: seq<int>, index: nat, plan: Codes)
    requires Pointed(paths, index, plan, |plan|)
    ensures paths == Starts(plan, 0)
  {
    assert Later(plan, |plan|) == [];
    assert paths[..index] + [] == paths[..index];
  }

  method ScanLines(buffer: array<nat>, paths: array<int>, length: nat, ghost plan: Codes)
    requires |plan| == length > 0 && buffer.Length == length + 1
    requires Pointed(paths[..], 1, plan, 0) && CutTo(buffer[..], plan, 0)
    modifies buffer, paths
    ensures IsCut(buffer[..], plan) && paths[..] == Starts(plan, 0)
  {
    var index, i := 1, 0;
    while i < length
      invariant i <= length && Pointed(paths[..], index, plan, i) && CutTo(buffer[..], plan, i)
    {
      PointedStep(paths[..], index, plan, i);
      CutStep(buffer[..], plan, i);
      if buffer[i] == NEWLINE { index := CutLine(buffer, paths, i, length, index); }
      i := i + 1;
    }
    LastPointed(paths[..], index, plan);
  }

  /** Cuts the buffer and collects the line pointers. */
  method SplitLines(buffer: array<nat>, length: nat, count: nat) returns (paths: array<int>)
    requires 0 < length && buffer.Length == length + 1 && buffer[length] == NUL
    requires count == |Starts(buffer[..length], 0)|
    modifies buffer
    ensures fresh(paths) && IsCut(buffer[..], old(buffer[..length]))
    ensures paths[..] == Starts(old(buffer[..length]), 0)
  {
    ghost var plan := buffer[..length];
    paths := new int[count](_ => NULL_POINTER);
    paths[0] := 0;
    FirstPointed(paths[..], plan);
    ScanLines(buffer, paths, length, plan);
  }

  /** Reads a plan of `length` bytes followed by the zero byte the file reader adds:
      nothing for an empty plan, otherwise the pointers to the wires, each inside the
      plan and reading as its line. */
  method ReadPlan(buffer: array<nat>, length: nat) returns (ok: bool, canBlock: bool, wires: seq<int>)
    requires buffer.Length == length + 1 && buffer[length] == NUL
    modifies buffer
    ensures ok <==> length > 0
    ensures ok ==> canBlock == PlanOf(Texts(old(buffer[..length]))).canBlock
    ensures ok ==> PointTo(buffer[..], wires, PlanOf(Texts(old(buffer[..length]))).wires)
    ensures !ok ==> buffer[..] == old(buffer[..])
  {
    ghost var plan := buffer[..length];
    ghost var texts := Texts(plan);
    var count := CountLines(buffer, length);
    LineCount(plan);
    if count < 1 { return false, true, []; }
    SomeStarts(plan);
    var paths := SplitLines(buffer, length, count);
    StartsPoint(buffer[..], plan);
    ok, canBlock, wires := true, true, paths[..];
    assert PointTo(buffer[..], wires, texts);
    assert buffer[..][wires[0]..] == buffer[wires[0]..];
    if count > 1 && CString(buffer[wires[0]..]) == DIRECTIVE {
      canBlock, wires := false, wires[1..];
    }
  }

  /** Non-null pointers inside the plan, each reading as its text. */
  ghost predicate PointTo(buffer: seq<nat>, pointers: seq<int>, texts: seq<Codes>) {
    && |pointers| == |texts|
    && forall k :: 0 <= k < |pointers| ==>
         0 <= pointers[k] < |buffer| - 1 && CString(buffer[pointers[k]..]) == texts[k]
  }

  lemma {:induction false} SomeStarts(plan: Codes)
    ensures |Starts(plan, 0)| == |Lines(plan)|
  {
    var buffer := seq(|plan| + 1, k => if 0 <= k < |plan| then Cut(plan, |plan|, k) else NUL);
    StartsRead(buffer, plan, 0);
    assert plan[0..] == plan;
  }

  lemma {:induction false} StartsPoint(buffer: seq<nat>, plan: Codes)
    requires IsCut(buffer, plan)
    ensures PointTo(buffer, Starts(plan, 0), Texts(plan))
  {
    StartsRead(buffer, plan, 0);
    assert plan[0..] == plan;
  }

  // ------------------------------------------------------------------------ round trip

  /** A path that survives being one line of a C string table. */
  predicate Plain(path: Codes) {
    NEWLINE !in path && NUL !in path && !(path != [] && path[|path| - 1] == RETURN)
  }

  lemma {:induction false} LinesOfTerminated(lines: seq<Codes>)
    requires forall l :: l in lines ==> NEWLINE !in l
    ensures Lines(Terminated(lines)) == Map(lines, DropReturn)
  {
    if lines != [] {
      LinesOfTerminated(lines[1..]);
      FirstOfLine(lines[0], Terminated(lines[1..]));
    }
  }

  lemma {:induction false} CStringPlain(s: Codes)
    ensures CString(DropReturn(s)) == s <==> NUL !in s && !(s != [] && s[|s| - 1] == RETURN)
  {
    if NUL !in s && DropReturn(s) == s {
      assert IndexOf(s, NUL) == |s|;
    }
  }

  lemma {:induction false} TerminatedNewlines(lines: seq<Codes>)
    ensures multiset(Terminated(lines))[NEWLINE] >= |lines|
    ensures (exists l :: l in lines && NEWLINE in l) ==> multiset(Terminated(lines))[NEWLINE] > |lines|
    ensures lines != [] ==> Terminated(lines) != [] && Terminated(lines)[|Terminated(lines)| - 1] == NEWLINE
  {
    if lines != [] {
      TerminatedNewlines(lines[1..]);
      assert lines == [lines[0]] + lines[1..];
      assert NEWLINE in lines[0] ==> NEWLINE in multiset(lines[0]);
    }
  }

  /** A line with a newline inside makes more lines than were written. */
  lemma {:induction false} BrokenLines(lines: seq<Codes>)
    requires lines != []
    ensures |Texts(Terminated(lines))| >= |lines|
    ensures (exists l :: l in lines && NEWLINE in l) ==> |Texts(Terminated(lines))| > |lines|
  {
    LineCount(Terminated(lines));
    TerminatedNewlines(lines);
  }

  lemma {:induction false} TextsOfLines(lines: seq<Codes>)
    requires forall l :: l in lines ==> NEWLINE !in l
    ensures |Texts(Terminated(lines))| == |lines|
    ensures forall k :: 0 <= k < |lines| ==> (Texts(Terminated(lines))[k] == lines[k] <==> Plain(lines[k]))
  {
    LinesOfTerminated(lines);
    forall k | 0 <= k < |lines| ensures Texts(Terminated(lines))[k] == lines[k] <==> Plain(lines[k]) {
      CStringPlain(lines[k]);
      assert lines[k] in lines;
    }
  }

  /** Every path survives, and no path in front of others passes for the directive. */
  ghost predicate Survives(p: Plan) {
    && (forall w :: w in p.wires ==> Plain(w))
    && !(p.canBlock && |p.wires| > 1 && p.wires[0] == DIRECTIVE)
  }

  function Written(p: Plan): seq<Codes> { Directives(p.canBlock) + p.wires }

  /** Which plans the runner reads back as they were written. */
  lemma {:induction false} RoundTrip(p: Plan)
    requires p.wires != []
    ensures PlanOf(Texts(Write(p))) == p <==> Survives(p)
  {
    if w :| w in p.wires && NEWLINE in w {
      BrokenPlan(p, w);
    } else {
      LinesWhole(p);
      TextsOfLines(Written(p));
      ReadBack(p, Texts(Write(p)));
    }
  }

  lemma {:induction false} BrokenPlan(p: Plan, w: Codes)
    requires w in p.wires && NEWLINE in w
    ensures PlanOf(Texts(Write(p))) != p && !Survives(p)
  {
    assert w in Written(p) && !Plain(w);
    BrokenLines(Written(p));
    LongerPlan(p, Texts(Write(p)));
  }

  lemma {:induction false} LinesWhole(p: Plan)
    requires forall w :: w in p.wires ==> NEWLINE !in w
    ensures forall l :: l in Written(p) ==> NEWLINE !in l
  {
    assert forall l :: l in Written(p) ==> l in p.wires || l == DIRECTIVE;
  }

  lemma {:induction false} LongerPlan(p: Plan, texts: seq<Codes>)
    requires |texts| > |Written(p)|
    ensures PlanOf(texts) != p
  {
  }

  lemma {:induction false} ReadBack(p: Plan, texts: seq<Codes>)
    requires p.wires != [] && |texts| == |Written(p)|
    requires forall k :: 0 <= k < |texts| ==> (texts[k] == Written(p)[k] <==> Plain(Written(p)[k]))
    ensures PlanOf(texts) == p <==> Survives(p)
  {
    var lines := Written(p);
    if p.canBlock {
      assert lines == p.wires;
      SamePlan(texts, p.wires);
      assert Plain(p.wires[0]) ==> texts[0] == p.wires[0];
      assert p.wires[0] in p.wires;
    } else {
      assert Plain(DIRECTIVE);
      assert lines[0] == DIRECTIVE && lines[1..] == p.wires && texts[0] == DIRECTIVE;
      SamePlan(texts[1..], p.wires);
    }
  }

  lemma {:induction false} SamePlan(texts: seq<Codes>, wires: seq<Codes>)
    requires |texts| == |wires|
    requires forall k :: 0 <= k < |wires| ==> (texts[k] == wires[k] <==> Plain(wires[k]))
    ensures texts == wires <==> forall w :: w in wires ==> Plain(w)
  {
    if forall w :: w in wires ==> Plain(w) {
      forall k | 0 <= k < |wires| ensures texts[k] == wires[k] {
        assert wires[k] in wires;
      }
    }
  }
}
