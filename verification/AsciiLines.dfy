/** What every cutting of a byte stream leaves alone: its ASCII characters stay where they
    are between the rest, so lines, and the ASCII text in them, come out the same. */
module AsciiLines {
  import opened Numbering
  import opened TextLines
  import opened Utf8Chunks

  predicate IsAscii(s: Codes) { forall i :: 0 <= i < |s| ==> s[i] < 0x80 }

  predicate NoAscii(s: Codes) { forall i :: 0 <= i < |s| ==> s[i] >= 0x80 }

  /** An ASCII character, or a run of anything else. */
  datatype Token = Ascii(code: nat) | Other

  function Push(ts: seq<Token>, t: Token): seq<Token> {
    if t == Other && ts != [] && ts[|ts| - 1] == Other then ts else ts + [t]
  }

  function TokenOf(c: nat): Token { if c < 0x80 then Ascii(c) else Other }

  /** The ASCII characters of a text and the runs between them. */
  function Outline(s: Codes): seq<Token> {
    if s == [] then [] else Push(Outline(s[..|s| - 1]), TokenOf(s[|s| - 1]))
  }

  function PushAll(ts: seq<Token>, us: seq<Token>): seq<Token> {
    if us == [] then ts else Push(PushAll(ts, us[..|us| - 1]), us[|us| - 1])
  }

  lemma {:induction false} PushAllPush(ts: seq<Token>, us: seq<Token>, t: Token)
    ensures PushAll(ts, Push(us, t)) == Push(PushAll(ts, us), t)
  {
    assert (us + [t])[..|us|] == us;
  }

  lemma {:induction false} OutlineAppend(x: Codes, y: Codes)
    ensures Outline(x + y) == PushAll(Outline(x), Outline(y))
  {
    if y == [] {
      assert x + y == x;
    } else {
      var z, c := y[..|y| - 1], y[|y| - 1];
      assert (x + y)[..|x + y| - 1] == x + z;
      OutlineAppend(x, z);
      PushAllPush(Outline(x), Outline(z), TokenOf(c));
    }
  }

  ghost predicate Alike(s: Codes, t: Codes) { Outline(s) == Outline(t) }

  lemma {:induction false} AlikeAppend(x: Codes, y: Codes, s: Codes, t: Codes)
    requires Alike(x, s) && Alike(y, t)
    ensures Alike(x + y, s + t)
  {
    OutlineAppend(x, y);
    OutlineAppend(s, t);
  }

  lemma {:induction false} OutlineOfOthers(s: Codes)
    requires s != [] && NoAscii(s)
    ensures Outline(s) == [Other]
  {
    if |s| > 1 { OutlineOfOthers(s[..|s| - 1]); }
  }

  lemma {:induction false} UnitOutline(s: Bytes)
    requires s != []
    ensures Alike(UnitCodes(s), s[..UnitLength(s)])
  {
    var n := UnitLength(s);
    UnitTail(s);
    if s[0] < 0x80 {
      assert s[..n] == [s[0]] == UnitCodes(s);
    } else {
      assert NoAscii(s[..n]) && NoAscii(UnitCodes(s));
      OutlineOfOthers(UnitCodes(s));
      OutlineOfOthers(s[..n]);
    }
  }

  lemma {:induction false} DecodeAlike(s: Bytes)
    ensures Alike(Decode(s), s)
    decreases |s|
  {
    if s != [] {
      var n := UnitLength(s);
      DecodeAlike(s[n..]);
      UnitOutline(s);
      AlikeAppend(UnitCodes(s), Decode(s[n..]), s[..n], s[n..]);
      assert s[..n] + s[n..] == s;
    }
  }

  /** However the bytes are cut, the decoded chunks have their outline. */
  lemma {:induction false} PiecesAlike(chunks: seq<Bytes>)
    ensures Alike(Pieces(chunks), Joined(chunks))
  {
    if chunks != [] {
      DecodeAlike(chunks[0]);
      PiecesAlike(chunks[1..]);
      AlikeAppend(Decode(chunks[0]), Pieces(chunks[1..]), chunks[0], Joined(chunks[1..]));
    }
  }

  // ----------------------------------------------------------- what an outline tells

  /** An ASCII character splits the outline. */
  lemma {:induction false} OutlineSplit(x: Codes, c: nat, y: Codes)
    requires c < 0x80
    ensures Outline(x + [c] + y) == Outline(x) + [Ascii(c)] + Outline(y)
  {
    if y == [] {
      assert x + [c] + y == x + [c] && (x + [c])[..|x|] == x;
    } else {
      var z := y[..|y| - 1];
      assert (x + [c] + y)[..|x + [c] + y| - 1] == x + [c] + z;
      OutlineSplit(x, c, z);
      var before := Outline(x) + [Ascii(c)];
      assert Push(before + Outline(z), TokenOf(y[|y| - 1])) == before + Push(Outline(z), TokenOf(y[|y| - 1]));
    }
  }

  lemma {:induction false} OutlineMembers(s: Codes, c: nat)
    requires c < 0x80
    ensures Ascii(c) in Outline(s) <==> c in s
  {
    if s != [] {
      OutlineMembers(s[..|s| - 1], c);
      assert s == s[..|s| - 1] + [s[|s| - 1]];
    }
  }

  lemma {:induction false} SameSplit(a: seq<Token>, b: seq<Token>, x: seq<Token>, y: seq<Token>, t: Token)
    requires a + [t] + b == x + [t] + y && t !in a && t !in x
    ensures a == x && b == y
  {
    var whole, same := a + [t] + b, x + [t] + y;
    assert whole[|a|] == t && whole[..|a|] == a && whole[|a| + 1..] == b;
    assert same[|x|] == t && same[..|x|] == x && same[|x| + 1..] == y;
    FirstIs(whole, |a|);
    FirstIs(same, |x|);
  }

  lemma {:induction false} SplitAtNewline(s: Codes)
    requires NEWLINE in s
    ensures Outline(s) == Outline(s[..Newline(s)]) + [Ascii(NEWLINE)] + Outline(After(s))
    ensures Ascii(NEWLINE) !in Outline(s[..Newline(s)])
  {
    var i := Newline(s);
    assert s == s[..i] + [NEWLINE] + After(s);
    OutlineSplit(s[..i], NEWLINE, After(s));
    OutlineMembers(s[..i], NEWLINE);
  }

  /** Texts with the same outline have a first line alike and the rest alike. */
  lemma {:induction false} AlikeLines(s: Codes, t: Codes)
    requires Alike(s, t)
    ensures NEWLINE in s <==> NEWLINE in t
    ensures NEWLINE in s ==> Alike(First(s), First(t)) && Alike(After(s), After(t))
  {
    OutlineMembers(s, NEWLINE);
    OutlineMembers(t, NEWLINE);
    if NEWLINE in s {
      SplitAtNewline(s);
      SplitAtNewline(t);
      var a, b := s[..Newline(s)], t[..Newline(t)];
      SameSplit(Outline(a), Outline(After(s)), Outline(b), Outline(After(t)), Ascii(NEWLINE));
      AlikeReturns(a, b);
    }
  }

  /** The last token, and what stands before an ASCII character at the end. */
  lemma {:induction false} OutlineLast(s: Codes)
    requires s != []
    ensures var o := Outline(s);
      && o != [] && o[|o| - 1] == TokenOf(s[|s| - 1])
      && (s[|s| - 1] < 0x80 ==> Outline(s[..|s| - 1]) == o[..|o| - 1])
  {
    var before, t := Outline(s[..|s| - 1]), TokenOf(s[|s| - 1]);
    assert (before + [t])[..|before|] == before;
  }

  lemma {:induction false} AlikeReturns(s: Codes, t: Codes)
    requires Alike(s, t)
    ensures Alike(DropReturn(s), DropReturn(t))
  {
    if s != [] { OutlineLast(s); }
    if t != [] { OutlineLast(t); }
  }

  lemma {:induction false} AlikeAscii(s: Codes, t: Codes)
    requires Alike(s, t) && IsAscii(t)
    ensures s == t
  {
    if s != [] { OutlineLast(s); }
    if t != [] {
      OutlineLast(t);
      AlikeAscii(s[..|s| - 1], t[..|t| - 1]);
      assert s == s[..|s| - 1] + [s[|s| - 1]] && t == t[..|t| - 1] + [t[|t| - 1]];
    }
  }

  lemma {:induction false} OutlineFirst(s: Codes)
    requires s != []
    ensures Outline(s) != [] && Outline(s)[0] == TokenOf(s[0])
  {
    if |s| > 1 { OutlineFirst(s[..|s| - 1]); }
  }

  /** An ASCII character in front is in front of everything alike. */
  lemma {:induction false} AlikeFirst(s: Codes, t: Codes)
    requires Alike(s, t) && s != [] && s[0] < 0x80
    ensures t != [] && t[0] == s[0] && Alike(s[1..], t[1..])
  {
    OutlineFirst(s);
    if t != [] { OutlineFirst(t); }
    assert s == [] + [s[0]] + s[1..] && t == [] + [t[0]] + t[1..];
    OutlineSplit([], s[0], s[1..]);
    OutlineSplit([], t[0], t[1..]);
    assert Outline(s)[1..] == Outline(s[1..]) && Outline(t)[1..] == Outline(t[1..]);
  }

  lemma {:induction false} AlikePrefix(s: Codes, t: Codes, ascii: Codes)
    requires Alike(s, t) && IsAscii(ascii) && ascii <= s
    ensures ascii <= t
    decreases |ascii|
  {
    if ascii != [] {
      AlikeFirst(s, t);
      AlikePrefix(s[1..], t[1..], ascii[1..]);
      assert ascii == [s[0]] + ascii[1..] && t == [s[0]] + t[1..];
    }
  }
}
