/** Guard expressions as C reads them, on tokens: the tokens other than `!`, `&&`, `||` and
    parentheses are grouped into atoms, whose truth is given by the configuration. And the
    expressions scripts/generate-known-native-entries.ts writes. */
module GuardExpressions {

  datatype Token = Open | Close | Bang | And | Or | Atom(text: string)
  type Tokens = seq<Token>

  /** Which atoms are true in a configuration. */
  type Valuation = string -> bool

  // ------------------------------------------------------- C expressions on tokens

  datatype Parse = Fail | Ok(value: bool, rest: Tokens)

  /** `||` below `&&` below `!`, with parentheses, as in C. */
  function ParseOr(v: Valuation, ts: Tokens): (p: Parse)
    ensures p.Ok? ==> |p.rest| < |ts|
    decreases |ts|, 2
  {
    match ParseAnd(v, ts)
    case Fail => Fail
    case Ok(a, rest) =>
      if rest != [] && rest[0].Or? then
        match ParseOr(v, rest[1..])
        case Fail => Fail
        case Ok(b, rest') => Ok(a || b, rest')
      else Ok(a, rest)
  }

  function ParseAnd(v: Valuation, ts: Tokens): (p: Parse)
    ensures p.Ok? ==> |p.rest| < |ts|
    decreases |ts|, 1
  {
    match ParseUnary(v, ts)
    case Fail => Fail
    case Ok(a, rest) =>
      if rest != [] && rest[0].And? then
        match ParseAnd(v, rest[1..])
        case Fail => Fail
        case Ok(b, rest') => Ok(a && b, rest')
      else Ok(a, rest)
  }

  function ParseUnary(v: Valuation, ts: Tokens): (p: Parse)
    ensures p.Ok? ==> |p.rest| < |ts|
    decreases |ts|, 0
  {
    if ts == [] then Fail
    else
      match ts[0]
      case Bang =>
        (match ParseUnary(v, ts[1..])
         case Fail => Fail
         case Ok(a, rest) => Ok(!a, rest))
      case Open =>
        (match ParseOr(v, ts[1..])
         case Fail => Fail
         case Ok(a, rest) => if rest != [] && rest[0].Close? then Ok(a, rest[1..]) else Fail)
      case Atom(text) => Ok(v(text), ts[1..])
      case _ => Fail
  }

  /** The value of a whole token sequence, if it is one expression. */
  predicate Evaluates(v: Valuation, ts: Tokens, value: bool) { ParseOr(v, ts) == Ok(value, []) }

  predicate IsExpression(v: Valuation, ts: Tokens) { ParseOr(v, ts).Ok? && ParseOr(v, ts).rest == [] }

  predicate Value(v: Valuation, ts: Tokens) { ParseOr(v, ts).Ok? && ParseOr(v, ts).value }

  // --------------------------------------------------------------- what is written

  function Paren(ts: Tokens): Tokens { [Open] + ts + [Close] }

  /** `(a) op (b) op ...` */
  function Joined(parts: seq<Tokens>, op: Token): Tokens {
    if parts == [] then []
    else if |parts| == 1 then Paren(parts[0])
    else Paren(parts[0]) + [op] + Joined(parts[1..], op)
  }

  function NoneOf(branches: seq<Tokens>): Tokens { [Bang] + Paren(Joined(branches, Or)) }

  function ElifGuard(branches: seq<Tokens>, condition: Tokens): Tokens {
    NoneOf(branches) + [And] + Paren(condition)
  }

  // ------------------------------------------------------- parsing what is written

  /** A parse does not depend on what follows, if nothing follows that could extend it. */
  ghost predicate Closed(rest: Tokens, more: Tokens) { rest != [] || more == [] || more[0].Close? }

  lemma {:induction false} ParseOrLocal(v: Valuation, ts: Tokens, more: Tokens)
    requires ParseOr(v, ts).Ok? && Closed(ParseOr(v, ts).rest, more)
    ensures ParseOr(v, ts + more) == Ok(ParseOr(v, ts).value, ParseOr(v, ts).rest + more)
    decreases |ts|, 2
  {
    var p := ParseAnd(v, ts);
    ParseAndLocal(v, ts, more);
    if p.rest != [] && p.rest[0].Or? {
      assert (p.rest + more)[1..] == p.rest[1..] + more;
      ParseOrLocal(v, p.rest[1..], more);
    } else if p.rest == [] && more != [] {
      assert (p.rest + more)[0] == more[0];
    }
  }

  lemma {:induction false} ParseAndLocal(v: Valuation, ts: Tokens, more: Tokens)
    requires ParseAnd(v, ts).Ok? && (ParseAnd(v, ts).rest != [] || more == [] || !more[0].And?)
    ensures ParseAnd(v, ts + more) == Ok(ParseAnd(v, ts).value, ParseAnd(v, ts).rest + more)
    decreases |ts|, 1
  {
    var p := ParseUnary(v, ts);
    ParseUnaryLocal(v, ts, more);
    if p.rest != [] && p.rest[0].And? {
      assert (p.rest + more)[1..] == p.rest[1..] + more;
      ParseAndLocal(v, p.rest[1..], more);
    } else if p.rest == [] && more != [] {
      assert (p.rest + more)[0] == more[0];
    }
  }

  lemma {:induction false} ParseUnaryLocal(v: Valuation, ts: Tokens, more: Tokens)
    requires ParseUnary(v, ts).Ok?
    ensures ParseUnary(v, ts + more) == Ok(ParseUnary(v, ts).value, ParseUnary(v, ts).rest + more)
    decreases |ts|, 0
  {
    assert (ts + more)[0] == ts[0] && (ts + more)[1..] == ts[1..] + more;
    match ts[0]
    case Bang => ParseUnaryLocal(v, ts[1..], more);
    case Open =>
      var p := ParseOr(v, ts[1..]);
      ParseOrLocal(v, ts[1..], more);
      assert (p.rest + more)[1..] == p.rest[1..] + more;
    case Atom(text) =>
  }

  /** A parenthesised expression is an operand wherever it stands. */
  lemma {:induction false} ParenIsOperand(v: Valuation, ts: Tokens, more: Tokens)
    requires IsExpression(v, ts)
    ensures ParseUnary(v, Paren(ts) + more) == Ok(Value(v, ts), more)
  {
    var all := Paren(ts) + more;
    assert all[0] == Open && all[1..] == ts + ([Close] + more);
    ParseOrLocal(v, ts, [Close] + more);
    assert [] + ([Close] + more) == [Close] + more;
    assert ([Close] + more)[1..] == more;
  }

  predicate AnyTrue(v: Valuation, parts: seq<Tokens>) { exists i :: 0 <= i < |parts| && Value(v, parts[i]) }
  predicate AllTrue(v: Valuation, parts: seq<Tokens>) { forall i :: 0 <= i < |parts| ==> Value(v, parts[i]) }

  ghost predicate AllExpressions(v: Valuation, parts: seq<Tokens>) {
    forall i :: 0 <= i < |parts| ==> IsExpression(v, parts[i])
  }

  lemma {:induction false} JoinedOr(v: Valuation, parts: seq<Tokens>)
    requires parts != [] && AllExpressions(v, parts)
    ensures Evaluates(v, Joined(parts, Or), AnyTrue(v, parts))
  {
    var rest := if |parts| == 1 then [] else [Or] + Joined(parts[1..], Or);
    assert Joined(parts, Or) == Paren(parts[0]) + rest;
    ParenIsOperand(v, parts[0], rest);
    if |parts| > 1 {
      JoinedOr(v, parts[1..]);
      assert rest[1..] == Joined(parts[1..], Or);
      if AnyTrue(v, parts) && !Value(v, parts[0]) {
        var i :| 0 <= i < |parts| && Value(v, parts[i]);
        assert parts[1..][i - 1] == parts[i];
      }
    }
  }

  lemma {:induction false} JoinedAnd(v: Valuation, parts: seq<Tokens>)
    requires parts != [] && AllExpressions(v, parts)
    ensures ParseAnd(v, Joined(parts, And)) == Ok(AllTrue(v, parts), [])
    ensures Evaluates(v, Joined(parts, And), AllTrue(v, parts))
  {
    var rest := if |parts| == 1 then [] else [And] + Joined(parts[1..], And);
    assert Joined(parts, And) == Paren(parts[0]) + rest;
    ParenIsOperand(v, parts[0], rest);
    if |parts| > 1 {
      JoinedAnd(v, parts[1..]);
      assert rest[1..] == Joined(parts[1..], And);
      assert AllTrue(v, parts) <==> Value(v, parts[0]) && AllTrue(v, parts[1..]) by {
        if AllTrue(v, parts[1..]) && Value(v, parts[0]) {
          forall i | 0 <= i < |parts| ensures Value(v, parts[i]) { assert i > 0 ==> parts[1..][i - 1] == parts[i]; }
        }
      }
    }
  }

  lemma {:induction false} NoneOfEvaluates(v: Valuation, branches: seq<Tokens>, more: Tokens)
    requires branches != [] && AllExpressions(v, branches)
    ensures ParseUnary(v, NoneOf(branches) + more) == Ok(!AnyTrue(v, branches), more)
  {
    JoinedOr(v, branches);
    var all := NoneOf(branches) + more;
    assert all[0] == Bang && all[1..] == Paren(Joined(branches, Or)) + more;
    ParenIsOperand(v, Joined(branches, Or), more);
  }

  lemma {:induction false} GuardsEvaluate(v: Valuation, branches: seq<Tokens>, condition: Tokens)
    requires branches != [] && AllExpressions(v, branches) && IsExpression(v, condition)
    ensures Evaluates(v, NoneOf(branches), !AnyTrue(v, branches))
    ensures Evaluates(v, ElifGuard(branches, condition), !AnyTrue(v, branches) && Value(v, condition))
  {
    NoneOfEvaluates(v, branches, []);
    assert NoneOf(branches) + [] == NoneOf(branches);
    var tail := [And] + Paren(condition);
    NoneOfEvaluates(v, branches, tail);
    assert ElifGuard(branches, condition) == NoneOf(branches) + tail;
    ParenIsOperand(v, condition, []);
    assert Paren(condition) + [] == Paren(condition) == tail[1..];
    assert ParseAnd(v, tail[1..]) == Ok(Value(v, condition), []);
    assert ParseAnd(v, ElifGuard(branches, condition)) == Ok(!AnyTrue(v, branches) && Value(v, condition), []);
  }
}
