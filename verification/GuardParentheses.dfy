/** What parentheses do to a guard line: a condition that never closes a parenthesis it did
    not open is an expression of its own wherever the line around it is one. */
module GuardParentheses {
  import opened GuardExpressions

  function Weight(t: Token): int { if t.Open? then 1 else if t.Close? then -1 else 0 }

  /** Parentheses opened and not closed. */
  function Depth(ts: Tokens): int {
    if ts == [] then 0 else Depth(ts[..|ts| - 1]) + Weight(ts[|ts| - 1])
  }

  /** No parenthesis is closed that was not opened. */
  ghost predicate NoStray(ts: Tokens) { forall k :: 0 <= k <= |ts| ==> Depth(ts[..k]) >= 0 }

  ghost predicate Balanced(ts: Tokens) { NoStray(ts) && Depth(ts) == 0 }

  lemma {:induction false} DepthAppend(a: Tokens, b: Tokens)
    ensures Depth(a + b) == Depth(a) + Depth(b)
  {
    if b == [] {
      assert a + b == a;
    } else {
      DepthAppend(a, b[..|b| - 1]);
      assert (a + b)[..|a + b| - 1] == a + b[..|b| - 1];
    }
  }

  lemma {:induction false} DepthOne(t: Token)
    ensures Depth([t]) == Weight(t)
  {
    assert [t][..0] == [];
  }

  lemma {:induction false} NoStrayDepth(ts: Tokens)
    requires NoStray(ts)
    ensures Depth(ts) >= 0
  {
    assert ts[..|ts|] == ts;
  }

  lemma {:induction false} NoStrayAppend(a: Tokens, b: Tokens)
    requires NoStray(a) && NoStray(b)
    ensures NoStray(a + b)
  {
    NoStrayDepth(a);
    forall k | 0 <= k <= |a + b| ensures Depth((a + b)[..k]) >= 0 {
      if k <= |a| {
        assert (a + b)[..k] == a[..k];
      } else {
        assert (a + b)[..k] == a + b[..k - |a|];
        DepthAppend(a, b[..k - |a|]);
      }
    }
  }

  lemma {:induction false} NoStrayOne(t: Token)
    requires !t.Close?
    ensures NoStray([t])
  {
    DepthOne(t);
    forall k | 0 <= k <= 1 ensures Depth([t][..k]) >= 0 { assert [t][..0] == [] && [t][..1] == [t]; }
  }

  lemma {:induction false} NoStrayParen(ts: Tokens)
    requires NoStray(ts)
    ensures NoStray(Paren(ts)) && Depth(Paren(ts)) == Depth(ts)
  {
    var open := [Open] + ts;
    NoStrayOne(Open);
    NoStrayAppend([Open], ts);
    NoStrayDepth(ts);
    DepthOne(Open);
    DepthOne(Close);
    DepthAppend([Open], ts);
    DepthAppend(open, [Close]);
    forall k | 0 <= k <= |Paren(ts)| ensures Depth(Paren(ts)[..k]) >= 0 {
      if k <= |open| { assert Paren(ts)[..k] == open[..k]; } else { assert Paren(ts)[..k] == Paren(ts); }
    }
  }

  ghost predicate AllNoStray(parts: seq<Tokens>) { forall i :: 0 <= i < |parts| ==> NoStray(parts[i]) }

  lemma {:induction false} NoStrayJoined(parts: seq<Tokens>, op: Token)
    requires AllNoStray(parts) && !op.Close?
    ensures NoStray(Joined(parts, op))
  {
    if parts != [] {
      NoStrayParen(parts[0]);
      if |parts| > 1 {
        NoStrayJoined(parts[1..], op);
        NoStrayOne(op);
        NoStrayAppend(Paren(parts[0]), [op]);
        NoStrayAppend(Paren(parts[0]) + [op], Joined(parts[1..], op));
      }
    }
  }

  lemma {:induction false} NoStrayNoneOf(branches: seq<Tokens>)
    requires AllNoStray(branches)
    ensures NoStray(NoneOf(branches)) && Depth(NoneOf(branches)) == Depth(Joined(branches, Or))
  {
    NoStrayJoined(branches, Or);
    NoStrayParen(Joined(branches, Or));
    NoStrayOne(Bang);
    NoStrayAppend([Bang], Paren(Joined(branches, Or)));
    DepthOne(Bang);
    DepthAppend([Bang], Paren(Joined(branches, Or)));
  }

  // ------------------------------------------------------ what a parse has consumed

  /** A successful parse leaves an end of its input, and what it consumed is balanced and
      parses alone to the same value. */
  ghost predicate Consumed(ts: Tokens, rest: Tokens, used: Tokens) { ts == used + rest && Balanced(used) }

  lemma {:induction false} BalancedAppend(a: Tokens, b: Tokens)
    requires Balanced(a) && Balanced(b)
    ensures Balanced(a + b)
  {
    NoStrayAppend(a, b);
    DepthAppend(a, b);
  }

  lemma {:induction false} BalancedOne(t: Token)
    requires !t.Open? && !t.Close?
    ensures Balanced([t])
  {
    NoStrayOne(t);
    DepthOne(t);
  }

  lemma {:induction false} OrStep(v: Valuation, ts: Tokens)
    requires ParseOr(v, ts).Ok?
    ensures var left := ParseAnd(v, ts);
      && left.Ok?
      && if left.rest != [] && left.rest[0].Or?
         then ParseOr(v, left.rest[1..]).Ok? && ParseOr(v, ts)
           == Ok(left.value || ParseOr(v, left.rest[1..]).value, ParseOr(v, left.rest[1..]).rest)
         else ParseOr(v, ts) == left
  {
  }

  lemma {:induction false} AndStep(v: Valuation, ts: Tokens)
    requires ParseAnd(v, ts).Ok?
    ensures var left := ParseUnary(v, ts);
      && left.Ok?
      && if left.rest != [] && left.rest[0].And?
         then ParseAnd(v, left.rest[1..]).Ok? && ParseAnd(v, ts)
           == Ok(left.value && ParseAnd(v, left.rest[1..]).value, ParseAnd(v, left.rest[1..]).rest)
         else ParseAnd(v, ts) == left
  {
  }

  lemma {:induction false} OrBuilt(v: Valuation, front: Tokens, right: Tokens, x: bool, y: bool)
    requires ParseAnd(v, front) == Ok(x, []) && ParseOr(v, right) == Ok(y, [])
    ensures ParseOr(v, front + ([Or] + right)) == Ok(x || y, [])
  {
    var more := [Or] + right;
    ParseAndLocal(v, front, more);
    assert more[0] == Or && more[1..] == right && [] + more == more;
  }

  lemma {:induction false} AndBuilt(v: Valuation, front: Tokens, right: Tokens, x: bool, y: bool)
    requires ParseUnary(v, front) == Ok(x, []) && ParseAnd(v, right) == Ok(y, [])
    ensures ParseAnd(v, front + ([And] + right)) == Ok(x && y, [])
  {
    var more := [And] + right;
    ParseUnaryLocal(v, front, more);
    assert more[0] == And && more[1..] == right && [] + more == more;
  }

  lemma {:induction false} BangBuilt(v: Valuation, inner: Tokens, x: bool)
    requires ParseUnary(v, inner) == Ok(x, [])
    ensures ParseUnary(v, [Bang] + inner) == Ok(!x, [])
  {
    assert ([Bang] + inner)[1..] == inner;
  }

  lemma {:induction false} ParenBuilt(v: Valuation, inner: Tokens, x: bool)
    requires ParseOr(v, inner) == Ok(x, [])
    ensures ParseUnary(v, Paren(inner)) == Ok(x, [])
  {
    ParenIsOperand(v, inner, []);
    assert Paren(inner) + [] == Paren(inner);
  }

  /** An operator between two consumed parts. */
  lemma {:induction false} ConsumedBoth(ts: Tokens, middle: Tokens, rest: Tokens, front: Tokens, op: Token,
                                        right: Tokens)
    requires Consumed(ts, middle, front) && middle != [] && middle[0] == op && !op.Open? && !op.Close?
    requires Consumed(middle[1..], rest, right)
    ensures Consumed(ts, rest, front + ([op] + right))
  {
    BalancedOne(op);
    BalancedAppend([op], right);
    BalancedAppend(front, [op] + right);
    assert middle == [op] + middle[1..];
  }

  lemma {:induction false} OrConsumes(v: Valuation, ts: Tokens) returns (used: Tokens)
    requires ParseOr(v, ts).Ok?
    ensures Consumed(ts, ParseOr(v, ts).rest, used) && ParseOr(v, used) == Ok(ParseOr(v, ts).value, [])
    decreases |ts|, 2
  {
    OrStep(v, ts);
    var left := ParseAnd(v, ts);
    used := AndConsumes(v, ts);
    if left.rest != [] && left.rest[0].Or? {
      var front, p := used, ParseOr(v, left.rest[1..]);
      var right := OrConsumes(v, left.rest[1..]);
      OrBuilt(v, front, right, left.value, p.value);
      ConsumedBoth(ts, left.rest, p.rest, front, Or, right);
      used := front + ([Or] + right);
    }
  }

  lemma {:induction false} AndConsumes(v: Valuation, ts: Tokens) returns (used: Tokens)
    requires ParseAnd(v, ts).Ok?
    ensures Consumed(ts, ParseAnd(v, ts).rest, used) && ParseAnd(v, used) == Ok(ParseAnd(v, ts).value, [])
    decreases |ts|, 1
  {
    AndStep(v, ts);
    var left := ParseUnary(v, ts);
    used := UnaryConsumes(v, ts);
    if left.rest != [] && left.rest[0].And? {
      var front, p := used, ParseAnd(v, left.rest[1..]);
      var right := AndConsumes(v, left.rest[1..]);
      AndBuilt(v, front, right, left.value, p.value);
      ConsumedBoth(ts, left.rest, p.rest, front, And, right);
      used := front + ([And] + right);
    }
  }

  lemma {:induction false} UnaryConsumes(v: Valuation, ts: Tokens) returns (used: Tokens)
    requires ParseUnary(v, ts).Ok?
    ensures Consumed(ts, ParseUnary(v, ts).rest, used) && ParseUnary(v, used) == Ok(ParseUnary(v, ts).value, [])
    decreases |ts|, 0
  {
    match ts[0]
    case Bang =>
      var inner := UnaryConsumes(v, ts[1..]);
      BangBuilt(v, inner, ParseUnary(v, ts[1..]).value);
      BangConsumed(ts, ParseUnary(v, ts[1..]).rest, inner);
      used := [Bang] + inner;
    case Open =>
      var inner := OrConsumes(v, ts[1..]);
      ParenBuilt(v, inner, ParseOr(v, ts[1..]).value);
      ParenConsumed(ts, ParseOr(v, ts[1..]).rest, inner);
      used := Paren(inner);
    case Atom(text) =>
      AtomConsumed(v, ts);
      used := [ts[0]];
  }

  lemma {:induction false} BangConsumed(ts: Tokens, rest: Tokens, inner: Tokens)
    requires ts != [] && ts[0].Bang? && Consumed(ts[1..], rest, inner)
    ensures Consumed(ts, rest, [Bang] + inner)
  {
    BalancedOne(Bang);
    BalancedAppend([Bang], inner);
    assert ts == [Bang] + ts[1..];
  }

  lemma {:induction false} ParenConsumed(ts: Tokens, rest: Tokens, inner: Tokens)
    requires ts != [] && ts[0].Open? && rest != [] && rest[0].Close? && Consumed(ts[1..], rest, inner)
    ensures Consumed(ts, rest[1..], Paren(inner))
  {
    NoStrayParen(inner);
    assert ts == [Open] + (inner + ([Close] + rest[1..]));
  }

  lemma {:induction false} AtomConsumed(v: Valuation, ts: Tokens)
    requires ts != [] && ts[0].Atom?
    ensures Consumed(ts, ts[1..], [ts[0]]) && ParseUnary(v, [ts[0]]) == Ok(v(ts[0].text), [])
  {
    BalancedOne(ts[0]);
    assert [ts[0]][1..] == [];
  }

  lemma {:induction false} ExpressionBalanced(v: Valuation, ts: Tokens)
    requires IsExpression(v, ts)
    ensures Balanced(ts)
  {
    var used := OrConsumes(v, ts);
    assert used + [] == used;
  }

  /** Two balanced beginnings that are both followed by a closing parenthesis. */
  lemma {:induction false} SameBalanced(a: Tokens, b: Tokens, x: Tokens, y: Tokens)
    requires Balanced(a) && Balanced(b) && a + [Close] + x == b + [Close] + y
    ensures a == b && x == y
  {
    var whole, same := a + [Close] + x, b + [Close] + y;
    DepthOne(Close);
    if |a| < |b| {
      StrayAfter(a, b, x, y);
    } else if |b| < |a| {
      StrayAfter(b, a, y, x);
    }
    assert whole[..|a|] == a && same[..|b|] == b;
    assert whole[|a| + 1..] == x && same[|b| + 1..] == y;
  }

  lemma {:induction false} StrayAfter(a: Tokens, b: Tokens, x: Tokens, y: Tokens)
    requires Balanced(a) && a + [Close] + x == b + [Close] + y && |a| < |b|
    ensures !NoStray(b)
  {
    var k := |a| + 1;
    assert (a + [Close] + x)[..k] == a + [Close] && (b + [Close] + y)[..k] == b[..k];
    DepthAppend(a, [Close]);
    DepthOne(Close);
  }

  /** A parenthesised balanced text that starts an operand is the operand. */
  lemma {:induction false} ParenExactly(v: Valuation, ts: Tokens, more: Tokens)
    requires Balanced(ts) && ParseUnary(v, Paren(ts) + more).Ok?
    ensures IsExpression(v, ts) && ParseUnary(v, Paren(ts) + more).rest == more
  {
    var all := Paren(ts) + more;
    assert all[0] == Open && all[1..] == ts + [Close] + more;
    var used := OrConsumes(v, all[1..]);
    var rest := ParseOr(v, all[1..]).rest;
    assert used + [Close] + rest[1..] == used + rest;
    SameBalanced(used, ts, rest[1..], more);
  }

  // --------------------------------------------------------------- the written lines

  lemma {:induction false} FirstPart(parts: seq<Tokens>, op: Token) returns (rest: Tokens)
    requires parts != [] && AllNoStray(parts) && !op.Close? && Balanced(Joined(parts, op))
    ensures Joined(parts, op) == Paren(parts[0]) + rest && Balanced(parts[0])
    ensures |parts| == 1 ==> rest == []
    ensures |parts| > 1 ==> rest == [op] + Joined(parts[1..], op)
  {
    rest := if |parts| == 1 then [] else [op] + Joined(parts[1..], op);
    assert Joined(parts, op) == Paren(parts[0]) + rest;
    NoStrayParen(parts[0]);
    NoStrayDepth(parts[0]);
    DepthAppend(Paren(parts[0]), rest);
    if |parts| > 1 {
      NoStrayJoined(parts[1..], op);
      NoStrayOne(op);
      NoStrayAppend([op], Joined(parts[1..], op));
      NoStrayDepth(rest);
    }
  }

  lemma {:induction false} ExpressionStarts(v: Valuation, ts: Tokens)
    requires IsExpression(v, ts)
    ensures ParseAnd(v, ts).Ok? && ParseUnary(v, ts).Ok?
  {
    OrStep(v, ts);
    AndStep(v, ts);
  }

  /** What follows an operand and an operator at the start of an expression is one too. */
  lemma {:induction false} ExpressionGoesOn(v: Valuation, ts: Tokens, rest: Tokens)
    requires IsExpression(v, ts) && ParseUnary(v, ts).Ok? && ParseUnary(v, ts).rest == rest
    requires rest != [] && (rest[0].And? || rest[0].Or?)
    ensures IsExpression(v, rest[1..])
  {
    OrStep(v, ts);
    AndStep(v, ts);
  }

  /** A joined line is an expression only if its parts are. */
  lemma {:induction false} JoinedParts(v: Valuation, parts: seq<Tokens>, op: Token)
    requires AllNoStray(parts) && (op.And? || op.Or?) && IsExpression(v, Joined(parts, op))
    ensures AllExpressions(v, parts)
  {
    if parts != [] {
      var line := Joined(parts, op);
      ExpressionBalanced(v, line);
      ExpressionStarts(v, line);
      var rest := FirstPart(parts, op);
      ParenExactly(v, parts[0], rest);
      if |parts| > 1 {
        ExpressionGoesOn(v, line, rest);
        assert rest[1..] == Joined(parts[1..], op);
        JoinedParts(v, parts[1..], op);
        forall i | 0 <= i < |parts|
          ensures IsExpression(v, parts[i])
        {
          assert i > 0 ==> parts[i] == parts[1..][i - 1];
        }
      }
    }
  }

  lemma {:induction false} NoneOfParts(v: Valuation, branches: seq<Tokens>, more: Tokens)
    requires AllNoStray(branches) && Depth(NoneOf(branches)) == 0 && ParseUnary(v, NoneOf(branches) + more).Ok?
    ensures AllExpressions(v, branches) && ParseUnary(v, NoneOf(branches) + more).rest == more
  {
    var all, inside := NoneOf(branches) + more, Joined(branches, Or);
    NoStrayNoneOf(branches);
    NoStrayJoined(branches, Or);
    assert all[0] == Bang && all[1..] == Paren(inside) + more;
    ParenExactly(v, inside, more);
    JoinedParts(v, branches, Or);
  }

  lemma {:induction false} ElifGuardParts(v: Valuation, branches: seq<Tokens>, condition: Tokens)
    requires AllNoStray(branches) && NoStray(condition) && IsExpression(v, ElifGuard(branches, condition))
    ensures AllExpressions(v, branches) && IsExpression(v, condition)
  {
    var line, tail := ElifGuard(branches, condition), [And] + Paren(condition);
    assert line == NoneOf(branches) + tail;
    ExpressionBalanced(v, line);
    NoStrayNoneOf(branches);
    NoStrayParen(condition);
    NoStrayDepth(NoneOf(branches));
    NoStrayDepth(condition);
    DepthAppend(NoneOf(branches), tail);
    DepthAppend([And], Paren(condition));
    DepthOne(And);
    ExpressionStarts(v, line);
    NoneOfParts(v, branches, tail);
    ExpressionGoesOn(v, line, tail);
    assert tail[1..] == Paren(condition) && Paren(condition) + [] == Paren(condition);
    ExpressionStarts(v, Paren(condition));
    ParenExactly(v, condition, []);
  }
}
