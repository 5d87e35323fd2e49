/** The child-process stream of scripts/bench-http-ordinary.ts: chunks of stderr are decoded
    one by one, kept as a bounded tail, cut into lines across chunk borders, and each GC
    statistics line is handed to whoever is waiting. Text is a sequence of UTF-16 code units. */
module StatsStream {
  import opened AsciiLines
  import opened Numbering
  import opened Sorting
  import opened TextLines
  import opened Utf8Chunks

  const KEPT := 8192

  /** The code units of `[gc-stats] `. */
  const MARK: Codes := [91, 103, 99, 45, 115, 116, 97, 116, 115, 93, 32]

  // ----------------------------------------------------------------- text and its lines

  /** `slice(-8192)`. */
  function Tail(text: Codes): Codes {
    if |text| <= KEPT then text else text[|text| - KEPT..]
  }

  /** The complete lines of a text, without their line ends. */
  function Lines(text: Codes): seq<Codes>
    decreases |text|
  {
    if NEWLINE in text then [First(text)] + Lines(After(text)) else []
  }

  /** What follows the last newline. */
  function Rest(text: Codes): Codes
    decreases |text|
  {
    if NEWLINE in text then Rest(After(text)) else text
  }

  predicate IsStats(line: Codes) { MARK <= line }

  /** The statistics lines of a text. */
  function Stats(text: Codes): seq<Codes> { Filter(Lines(text), IsStats) }

  /** Text that arrives later only continues the unfinished line. */
  lemma {:induction false} LinesAppend(t: Codes, u: Codes)
    ensures Lines(t + u) == Lines(t) + Lines(Rest(t) + u)
    ensures Rest(t + u) == Rest(Rest(t) + u)
    decreases |t|
  {
    if NEWLINE in t {
      FirstAppend(t, u);
      LinesAppend(After(t), u);
      assert NEWLINE in t + u;
    }
  }

  lemma {:induction false} TailOfTail(t: Codes, i: nat, n: nat)
    requires i <= |t| && n <= |t| - i
    ensures t[i..][|t[i..]| - n..] == t[|t| - n..]
  {
  }

  /** The unfinished line is the end of the text and has no newline. */
  lemma {:induction false} RestIsTail(t: Codes)
    ensures NEWLINE !in Rest(t) && |Rest(t)| <= |t| && Rest(t) == t[|t| - |Rest(t)|..]
    decreases |t|
  {
    if NEWLINE in t {
      RestIsTail(After(t));
      TailOfTail(t, Newline(t) + 1, |Rest(t)|);
    }
  }

  lemma {:induction false} StatsAppend(t: Codes, u: Codes)
    ensures Stats(t + u) == Stats(t) + Stats(Rest(t) + u)
  {
    LinesAppend(t, u);
    FilterAppend(Lines(t), Lines(Rest(t) + u), IsStats);
  }

  lemma {:induction false} TailAppend(t: Codes, u: Codes)
    ensures Tail(Tail(t) + u) == Tail(t + u)
  {
  }

  // ----------------------------------------------------------------------- the process

  /** Waiters are the callbacks registered and not yet called or withdrawn. */
  datatype State = State(stderr: Codes, raw: Codes, pending: Codes,
                         waiting: set<nat>, received: map<nat, Codes>)

  const START := State([], [], [], {}, map[])

  /** A statistics line goes to every waiter, and each leaves on being called. */
  function Deliver(s: State, line: Codes): State {
    if IsStats(line)
    then s.(waiting := {}, received := s.received + map w | w in s.waiting :: line)
    else s
  }

  function DeliverAll(s: State, lines: seq<Codes>): State
    decreases |lines|
  {
    if lines == [] then s else DeliverAll(Deliver(s, lines[0]), lines[1..])
  }

  function Grown(s: State, text: Codes): State {
    s.(stderr := Tail(s.stderr + text), raw := s.raw + text, pending := Rest(s.pending + text))
  }

  datatype Event = Data(chunk: Bytes) | Listen(id: nat) | Withdraw(id: nat)

  function Step(s: State, e: Event): State {
    match e
    case Data(chunk) => DeliverAll(Grown(s, Decode(chunk)), Lines(s.pending + Decode(chunk)))
    case Listen(id) => s.(waiting := s.waiting + {id})
    case Withdraw(id) => s.(waiting := s.waiting - {id})
  }

  function Run(events: seq<Event>): State {
    if events == [] then START else Step(Run(events[..|events| - 1]), events[|events| - 1])
  }

  class ServerProcess {
    var stdout: Codes
    var stderr: Codes
    var rawStderr: Codes
    var statsPending: Codes
    var statsWaiters: set<nat>
    var received: map<nat, Codes>

    ghost function Now(): State
      reads this
    {
      State(stderr, rawStderr, statsPending, statsWaiters, received)
    }

    constructor ()
      ensures Now() == START && stdout == []
    {
      stdout, stderr, rawStderr, statsPending := [], [], [], [];
      statsWaiters, received := {}, map[];
    }

    method OnStdout(chunk: Bytes)
      modifies this`stdout
      ensures stdout == Tail(old(stdout) + Decode(chunk))
    {
      stdout := Tail(stdout + Decode(chunk));
    }

    method OnStderr(chunk: Bytes, captureStats: bool)
      modifies this`stderr, this`rawStderr, this`statsPending, this`statsWaiters, this`received
      ensures captureStats ==> Now() == Step(old(Now()), Data(chunk))
      ensures !captureStats ==> Now() == old(Now()).(stderr := Tail(old(stderr) + Decode(chunk)))
    {
      var text := Decode(chunk);
      stderr := Tail(stderr + text);
      if !captureStats { return; }
      rawStderr := rawStderr + text;
      statsPending := statsPending + text;
      ghost var goal := Step(old(Now()), Data(chunk));
      var newline := Newline(statsPending);
      while newline < |statsPending|
        invariant newline == Newline(statsPending)
        invariant DeliverAll(Now().(pending := Rest(statsPending)), Lines(statsPending)) == goal
        decreases |statsPending|
      {
        ghost var before := Now().(pending := Rest(statsPending));
        ghost var lines := Lines(statsPending);
        var line := DropReturn(statsPending[..newline]);
        assert lines[0] == line && lines[1..] == Lines(statsPending[newline + 1..]);
        statsPending := statsPending[newline + 1..];
        if IsStats(line) {
          received := received + map w | w in statsWaiters :: line;
          statsWaiters := {};
        }
        assert Now().(pending := Rest(statsPending)) == Deliver(before, line);
        newline := Newline(statsPending);
      }
    }

    method Wait(id: nat)
      modifies this`statsWaiters
      ensures Now() == Step(old(Now()), Listen(id))
    {
      statsWaiters := statsWaiters + {id};
    }

    /** The cleanup of a wait that timed out, saw the child exit or was cancelled. */
    method Cancel(id: nat)
      modifies this`statsWaiters
      ensures Now() == Step(old(Now()), Withdraw(id))
    {
      statsWaiters := statsWaiters - {id};
    }
  }

  // ------------------------------------------------------------------------ whole runs

  function Chunks(events: seq<Event>): seq<Bytes> {
    if events == [] then [] else
      var e := events[|events| - 1];
      Chunks(events[..|events| - 1]) + if e.Data? then [e.chunk] else []
  }

  /** All the text that has arrived, decoded as it arrived. */
  function Text(events: seq<Event>): Codes { Pieces(Chunks(events)) }

  /** All the bytes that have arrived. */
  function Received(events: seq<Event>): Bytes { Joined(Chunks(events)) }

  lemma {:induction false} PiecesAppend(chunks: seq<Bytes>, chunk: Bytes)
    ensures Pieces(chunks + [chunk]) == Pieces(chunks) + Decode(chunk)
  {
    var longer := chunks + [chunk];
    if chunks == [] {
      assert longer[0] == chunk && longer[1..] == [];
    } else {
      assert longer[0] == chunks[0] && longer[1..] == chunks[1..] + [chunk];
      PiecesAppend(chunks[1..], chunk);
      Assoc(Decode(chunks[0]), Pieces(chunks[1..]), Decode(chunk));
    }
  }

  lemma {:induction false} TextStep(events: seq<Event>)
    requires events != []
    ensures var before, e := events[..|events| - 1], events[|events| - 1];
      Text(events) == if e.Data? then Text(before) + Decode(e.chunk) else Text(before)
  {
    var before, e := events[..|events| - 1], events[|events| - 1];
    if e.Data? {
      PiecesAppend(Chunks(before), e.chunk);
    } else {
      assert Chunks(before) + [] == Chunks(before);
    }
  }

  lemma {:induction false} Delivered(s: State, lines: seq<Codes>)
    ensures var t := DeliverAll(s, lines);
      var stats := Filter(lines, IsStats);
      && t.stderr == s.stderr && t.raw == s.raw && t.pending == s.pending
      && t.waiting == (if stats == [] then s.waiting else {})
      && t.received == if stats == [] then s.received else s.received + map w | w in s.waiting :: stats[0]
    decreases |lines|
  {
    if lines != [] { Delivered(Deliver(s, lines[0]), lines[1..]); }
  }

  /** What is kept is a function of the decoded text: its last 8192 units, all of it, and
      its unfinished line. */
  lemma {:induction false} KeepsText(events: seq<Event>)
    ensures var s, text := Run(events), Text(events);
      s.stderr == Tail(text) && s.raw == text && s.pending == Rest(text)
  {
    if events != [] {
      var before, e := events[..|events| - 1], events[|events| - 1];
      KeepsText(before);
      TextStep(events);
      if e.Data? {
        var s, text := Run(before), Decode(e.chunk);
        TailAppend(Text(before), text);
        LinesAppend(Text(before), text);
        Delivered(Grown(s, text), Lines(s.pending + text));
      }
    }
  }

  /** The text kept is the text sent exactly when no border between chunks falls inside a
      character; then the tail and the unfinished line are those of the text sent. */
  lemma {:induction false} KeepsTextSent(events: seq<Event>)
    ensures Run(events).raw == Decode(Received(events)) <==> CutsBetween(Chunks(events))
    ensures CutsBetween(Chunks(events)) ==>
      Run(events).stderr == Tail(Decode(Received(events))) && Run(events).pending == Rest(Decode(Received(events)))
  {
    KeepsText(events);
    ChunkwiseExactly(Chunks(events));
  }

  // ---------------------------------------------------------------- the lines, by bytes

  lemma {:induction false} LinesAlike(s: Codes, t: Codes)
    requires Alike(s, t)
    ensures AllAlike(Lines(s), Lines(t))
    decreases |s|
  {
    AlikeLines(s, t);
    if NEWLINE in s { LinesAlike(After(s), After(t)); }
  }

  ghost predicate AllAlike(a: seq<Codes>, b: seq<Codes>) {
    |a| == |b| && forall k :: 0 <= k < |a| ==> Alike(a[k], b[k])
  }

  lemma {:induction false} AlikeStats(s: Codes, t: Codes)
    requires Alike(s, t)
    ensures IsStats(s) <==> IsStats(t)
  {
    if IsStats(s) { AlikePrefix(s, t, MARK); }
    if IsStats(t) { AlikePrefix(t, s, MARK); }
  }

  lemma {:induction false} FilterAlike(a: seq<Codes>, b: seq<Codes>)
    requires AllAlike(a, b)
    ensures AllAlike(Filter(a, IsStats), Filter(b, IsStats))
    decreases |a|
  {
    if a != [] {
      assert Alike(a[0], b[0]);
      AlikeStats(a[0], b[0]);
      FilterAlike(a[1..], b[1..]);
    }
  }

  /** Under every cutting the statistics lines are those of the bytes, one for one, and one
      that is ASCII is delivered as it was sent. */
  lemma {:induction false} AsciiStatsUnchanged(events: seq<Event>)
    ensures var told, sent := Stats(Text(events)), Stats(Received(events));
      |told| == |sent| && forall k :: 0 <= k < |sent| && IsAscii(sent[k]) ==> told[k] == sent[k]
  {
    var told, sent := Stats(Text(events)), Stats(Received(events));
    PiecesAlike(Chunks(events));
    LinesAlike(Text(events), Received(events));
    FilterAlike(Lines(Text(events)), Lines(Received(events)));
    forall k | 0 <= k < |sent| && IsAscii(sent[k]) ensures told[k] == sent[k] {
      assert Alike(told[k], sent[k]);
      AlikeAscii(told[k], sent[k]);
    }
  }

  // ------------------------------------------------------------------------- the waiters

  ghost predicate ListensOnceAt(events: seq<Event>, i: nat, id: nat) {
    && i < |events| && events[i] == Listen(id)
    && forall k :: 0 <= k < |events| && k != i ==> events[k] != Listen(id)
  }

  /** When a waiter is withdrawn after event `i`, or the end if it never is. */
  function WithdrawnAt(events: seq<Event>, i: nat, id: nat): (j: nat)
    requires i <= |events|
    ensures i <= j <= |events| && (j < |events| ==> events[j] == Withdraw(id))
    ensures forall k :: i <= k < j ==> events[k] != Withdraw(id)
    decreases |events| - i
  {
    if i == |events| || events[i] == Withdraw(id) then i else WithdrawnAt(events, i + 1, id)
  }

  lemma {:induction false} StrangerHearsNothing(events: seq<Event>, id: nat)
    requires forall k :: 0 <= k < |events| ==> events[k] != Listen(id)
    ensures id !in Run(events).waiting && id !in Run(events).received
  {
    if events != [] {
      var before, e := events[..|events| - 1], events[|events| - 1];
      StrangerHearsNothing(before, id);
      if e.Data? {
        var s, text := Run(before), Decode(e.chunk);
        Delivered(Grown(s, text), Lines(s.pending + text));
      }
    }
  }

  /** What a waiter has when `since` were the statistics lines before it registered and
      `now` those before it was withdrawn, or so far while it is `there`: the first line
      between them, or nothing. */
  ghost predicate Heard(s: State, id: nat, since: seq<Codes>, now: seq<Codes>, there: bool) {
    && since <= now
    && (id in s.waiting <==> there && |now| == |since|)
    && (id in s.received <==> |now| > |since|)
    && (|now| > |since| ==> s.received[id] == now[|since|])
  }

  lemma {:induction false} HeardMore(s: State, t: State, id: nat, since: seq<Codes>, now: seq<Codes>, more: seq<Codes>)
    requires Heard(s, id, since, now, true)
    requires t.waiting == if more == [] then s.waiting else {}
    requires t.received == if more == [] then s.received else s.received + map w | w in s.waiting :: more[0]
    ensures Heard(t, id, since, now + more, true)
  {
  }

  /** After one more chunk, for a waiter still there. */
  lemma {:induction false} HeardChunk(events: seq<Event>, i: nat, id: nat)
    requires events != [] && events[|events| - 1].Data?
    requires var before := events[..|events| - 1];
      i <= |before| && Heard(Run(before), id, Stats(Text(events[..i])), Stats(Text(before)), true)
    ensures Heard(Run(events), id, Stats(Text(events[..i])), Stats(Text(events)), true)
  {
    var before, text := events[..|events| - 1], Decode(events[|events| - 1].chunk);
    var s := Run(before);
    KeepsText(before);
    TextStep(events);
    StatsAppend(Text(before), text);
    Delivered(Grown(s, text), Lines(s.pending + text));
    HeardMore(s, Run(events), id, Stats(Text(events[..i])), Stats(Text(before)), Stats(s.pending + text));
  }

  /** A waiter that is gone keeps what it has. */
  lemma {:induction false} GoneHearsNothing(events: seq<Event>, id: nat)
    requires events != [] && events[|events| - 1] != Listen(id)
    requires id !in Run(events[..|events| - 1]).waiting
    ensures var s, t := Run(events[..|events| - 1]), Run(events);
      && id !in t.waiting
      && (id in t.received <==> id in s.received)
      && (id in s.received ==> t.received[id] == s.received[id])
  {
    var before, e := events[..|events| - 1], events[|events| - 1];
    if e.Data? {
      var s, text := Run(before), Decode(e.chunk);
      Delivered(Grown(s, text), Lines(s.pending + text));
    }
  }

  lemma {:induction false} WithdrawnEarlier(events: seq<Event>, i: nat, id: nat)
    requires events != [] && i < |events|
    ensures var last := |events| - 1;
      var j, k := WithdrawnAt(events[..last], i, id), WithdrawnAt(events, i, id);
      if j < last then k == j else k == if events[last] == Withdraw(id) then last else |events|
    decreases |events| - i
  {
    var last := |events| - 1;
    if i < last {
      assert events[..last][i] == events[i];
      if events[i] != Withdraw(id) { WithdrawnEarlier(events, i + 1, id); }
    }
  }

  /** A waiter gets exactly the first statistics line completed after it registered and
      before it was withdrawn, or nothing if there is none, in every order of events. */
  lemma {:induction false} WaiterHearsNextLine(events: seq<Event>, i: nat, id: nat)
    requires ListensOnceAt(events, i, id)
    ensures var j := WithdrawnAt(events, i, id);
      Heard(Run(events), id, Stats(Text(events[..i])), Stats(Text(events[..j])), j == |events|)
  {
    var last := |events| - 1;
    var before, e := events[..last], events[last];
    WithdrawnEarlier(events, i, id);
    var j, k := WithdrawnAt(before, i, id), WithdrawnAt(events, i, id);
    assert before[..i] == events[..i] && before[..j] == events[..j];
    assert events[..last] == before && events[..|events|] == events && before[..last] == before;
    TextStep(events);
    if i == last {
      StrangerHearsNothing(before, id);
    } else {
      WaiterHearsNextLine(before, i, id);
      if j < last {
        GoneHearsNothing(events, id);
      } else if e.Data? {
        HeardChunk(events, i, id);
      }
    }
  }

  /** From being called or withdrawn on, what a waiter has never changes. */
  lemma {:induction false} HeardForGood(events: seq<Event>, more: seq<Event>, i: nat, id: nat)
    requires ListensOnceAt(events + more, i, id) && i < |events|
    requires id !in Run(events).waiting
    ensures var s, t := Run(events), Run(events + more);
      && id !in t.waiting
      && (id in t.received <==> id in s.received)
      && (id in s.received ==> t.received[id] == s.received[id])
  {
    if more == [] {
      assert events + more == events;
    } else {
      var all, fewer := events + more, more[..|more| - 1];
      assert all[..|all| - 1] == events + fewer;
      assert ListensOnceAt(events + fewer, i, id) by {
        assert forall k :: 0 <= k < |events + fewer| ==> (events + fewer)[k] == all[k];
      }
      HeardForGood(events, fewer, i, id);
      GoneHearsNothing(all, id);
    }
  }

  /** In terms of the bytes sent, whatever their cutting: a waiter hears something exactly
      when a statistics line was completed while it was registered, and an ASCII line
      reaches it as it was sent. */
  lemma {:induction false} WaiterHearsBytes(events: seq<Event>, i: nat, id: nat)
    requires ListensOnceAt(events, i, id)
    ensures var j, s := WithdrawnAt(events, i, id), Run(events);
      var since, now := Stats(Received(events[..i])), Stats(Received(events[..j]));
      && |since| <= |now|
      && (id in s.received <==> |now| > |since|)
      && (|now| > |since| && IsAscii(now[|since|]) ==> s.received[id] == now[|since|])
  {
    WaiterHearsNextLine(events, i, id);
    AsciiStatsUnchanged(events[..i]);
    AsciiStatsUnchanged(events[..WithdrawnAt(events, i, id)]);
  }
}
