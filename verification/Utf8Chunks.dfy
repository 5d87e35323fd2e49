/** Decoding UTF-8 chunk by chunk, as `chunk.toString()` does on each piece of a stream:
    bytes to UTF-16 code units, with U+FFFD for each ill-formed piece. A piece that ends
    too early or goes wrong is replaced up to the byte that cannot continue it. */
module Utf8Chunks {
  import opened TextLines

  type Byte = n: nat | n < 256
  type Bytes = seq<Byte>

  const REPLACEMENT: nat := 0xFFFD

  // ------------------------------------------------------------------------- one unit

  /** How many bytes a character with this first byte has; none start with the others. */
  function CharLength(lead: Byte): nat {
    if lead < 0x80 then 1
    else if 0xC2 <= lead <= 0xDF then 2
    else if 0xE0 <= lead <= 0xEF then 3
    else if 0xF0 <= lead <= 0xF4 then 4
    else 0
  }

  predicate Continues(b: Byte) { 0x80 <= b <= 0xBF }

  /** The second bytes that rule out overlong forms, surrogates and codes past U+10FFFF. */
  predicate Second(lead: Byte, b: Byte) {
    && Continues(b)
    && (lead == 0xE0 ==> b >= 0xA0) && (lead == 0xED ==> b <= 0x9F)
    && (lead == 0xF0 ==> b >= 0x90) && (lead == 0xF4 ==> b <= 0x8F)
  }

  /** The length of what is decoded as one: a character, or as much of one as there is. */
  function UnitLength(s: Bytes): (n: nat)
    requires s != []
    ensures 1 <= n <= |s|
  {
    var n := CharLength(s[0]);
    if n < 2 || |s| < 2 || !Second(s[0], s[1]) then 1
    else if n < 3 || |s| < 3 || !Continues(s[2]) then 2
    else if n < 4 || |s| < 4 || !Continues(s[3]) then 3
    else 4
  }

  predicate Whole(s: Bytes)
    requires s != []
  {
    UnitLength(s) == CharLength(s[0])
  }

  /** What a byte adds to the code point. */
  function Bits(b: Byte, mark: nat): int { b as int - mark }

  /** The code point of a whole character. */
  function CodePoint(s: Bytes): nat
    requires s != [] && Whole(s)
  {
    match UnitLength(s)
    case 1 => s[0]
    case 2 => Bits(s[0], 0xC0) * 0x40 + Bits(s[1], 0x80)
    case 3 => Bits(s[0], 0xE0) * 0x1000 + Bits(s[1], 0x80) * 0x40 + Bits(s[2], 0x80)
    case _ => Bits(s[0], 0xF0) * 0x40000 + Bits(s[1], 0x80) * 0x1000 + Bits(s[2], 0x80) * 0x40 + Bits(s[3], 0x80)
  }

  function Utf16(c: nat): Codes {
    if c < 0x10000 then [c] else [0xD800 + (c - 0x10000) / 0x400, 0xDC00 + (c - 0x10000) % 0x400]
  }

  function UnitCodes(s: Bytes): Codes
    requires s != []
  {
    if Whole(s) then Utf16(CodePoint(s)) else [REPLACEMENT]
  }

  // ------------------------------------------------------------------- a whole string

  function Decode(s: Bytes): Codes {
    if s == [] then [] else UnitCodes(s) + Decode(s[UnitLength(s)..])
  }

  /** Position `k` lies between two units. */
  predicate Between(s: Bytes, k: nat) {
    k == 0 || (s != [] && UnitLength(s) <= k && Between(s[UnitLength(s)..], k - UnitLength(s)))
  }

  /** A prefix sees the same first unit, or what there is of it. */
  lemma {:induction false} FirstUnit(a: Bytes, b: Bytes)
    requires a != []
    ensures UnitLength(a) == if UnitLength(a + b) <= |a| then UnitLength(a + b) else |a|
    ensures UnitLength(a + b) <= |a| ==> UnitCodes(a) == UnitCodes(a + b)
    ensures UnitLength(a + b) > |a| ==> UnitCodes(a) == [REPLACEMENT]
  {
    assert forall k :: 0 <= k < |a| ==> (a + b)[k] == a[k];
  }

  lemma {:induction false} CutBetween(a: Bytes, b: Bytes)
    requires Between(a + b, |a|)
    ensures Decode(a + b) == Decode(a) + Decode(b)
    decreases |a|
  {
    if a == [] {
      assert a + b == b;
    } else {
      FirstUnit(a, b);
      var n := UnitLength(a);
      assert (a + b)[n..] == a[n..] + b;
      CutBetween(a[n..], b);
    }
  }

  /** Bytes that can only continue a character stand for one replacement each. */
  lemma {:induction false} LoneContinuations(s: Bytes, k: nat)
    requires k <= |s| && forall i :: 0 <= i < k ==> Continues(s[i])
    ensures |Decode(s)| == k + |Decode(s[k..])|
    decreases k
  {
    if k > 0 {
      LoneContinuations(s[1..], k - 1);
      assert s[1..][k - 1..] == s[k..];
    }
  }

  lemma {:induction false} UnitTail(s: Bytes)
    requires s != []
    ensures forall i :: 1 <= i < UnitLength(s) ==> Continues(s[i])
    ensures |UnitCodes(s)| == 1 || (|UnitCodes(s)| == 2 && UnitLength(s) == 4 && UnitCodes(s)[0] < REPLACEMENT)
  {
  }

  /** Two texts in which `a` alone already differs, or which cannot have the same length. */
  predicate Spoiled(a: Codes, rest: nat, whole: Codes) {
    || |a| + rest > |whole|
    || (|a| + rest == |whole| && a != [] && a[|a| - 1] != whole[|a| - 1])
  }

  /** The border falls inside the first unit. */
  lemma {:induction false} CutFirst(a: Bytes, b: Bytes)
    requires a != [] && UnitLength(a + b) > |a|
    ensures Spoiled(Decode(a), |Decode(b)|, Decode(a + b))
  {
    var n := UnitLength(a + b);
    FirstUnit(a, b);
    assert a[UnitLength(a)..] == [];
    assert Decode(a) == [REPLACEMENT];
    UnitTail(a + b);
    assert (a + b)[n..] == b[n - |a|..];
    assert forall i :: 0 <= i < n - |a| ==> b[i] == (a + b)[|a| + i];
    LoneContinuations(b, n - |a|);
  }

  lemma {:induction false} CutInside(a: Bytes, b: Bytes)
    requires !Between(a + b, |a|)
    ensures Spoiled(Decode(a), |Decode(b)|, Decode(a + b))
    decreases |a|
  {
    FirstUnit(a, b);
    var n := UnitLength(a + b);
    if n <= |a| {
      assert (a + b)[n..] == a[n..] + b;
      CutInside(a[n..], b);
    } else {
      CutFirst(a, b);
    }
  }

  /** Past a place between two units, the places are those of the rest. */
  lemma {:induction false} BetweenInRest(a: Bytes, b: Bytes, k: nat)
    requires Between(a + b, |a|)
    ensures Between(a + b, |a| + k) <==> Between(b, k)
    decreases |a|
  {
    if a == [] {
      assert a + b == b;
    } else {
      FirstUnit(a, b);
      var n := UnitLength(a);
      assert (a + b)[n..] == a[n..] + b;
      BetweenInRest(a[n..], b, k);
    }
  }

  // ---------------------------------------------------------------------- many chunks

  function Joined(chunks: seq<Bytes>): Bytes {
    if chunks == [] then [] else chunks[0] + Joined(chunks[1..])
  }

  /** Each chunk decoded alone. */
  function Pieces(chunks: seq<Bytes>): Codes {
    if chunks == [] then [] else Decode(chunks[0]) + Pieces(chunks[1..])
  }

  /** Where the chunk after the first `i` begins. */
  function Border(chunks: seq<Bytes>, i: nat): nat
    requires i <= |chunks|
  {
    |Joined(chunks[..i])|
  }

  /** No border between chunks falls inside a character, or inside the beginning of one
      that is decoded as a single replacement. */
  ghost predicate CutsBetween(chunks: seq<Bytes>) {
    forall i :: 0 <= i <= |chunks| ==> Between(Joined(chunks), Border(chunks, i))
  }

  lemma {:induction false} BorderStep(chunks: seq<Bytes>, i: nat)
    requires chunks != [] && i < |chunks|
    ensures Border(chunks, i + 1) == |chunks[0]| + Border(chunks[1..], i)
  {
    assert chunks[..i + 1][0] == chunks[0] && chunks[..i + 1][1..] == chunks[1..][..i];
  }

  lemma {:induction false} CutsStep(chunks: seq<Bytes>)
    requires chunks != []
    ensures CutsBetween(chunks) <==> Between(Joined(chunks), |chunks[0]|) && CutsBetween(chunks[1..])
  {
    var first, rest := chunks[0], chunks[1..];
    BorderStep(chunks, 0);
    assert rest[..0] == [];
    assert Border(chunks, 1) == |first|;
    if Between(Joined(chunks), |first|) {
      forall i | 0 <= i <= |rest|
        ensures Between(Joined(chunks), Border(chunks, i + 1)) <==> Between(Joined(rest), Border(rest, i))
      {
        BorderStep(chunks, i);
        BetweenInRest(first, Joined(rest), Border(rest, i));
      }
      if CutsBetween(rest) {
        forall i | 0 <= i <= |chunks| ensures Between(Joined(chunks), Border(chunks, i)) {
          if i == 0 {
            assert chunks[..0] == [];
          } else {
            assert Between(Joined(rest), Border(rest, i - 1));
          }
        }
      }
      if CutsBetween(chunks) {
        forall i | 0 <= i <= |rest| ensures Between(Joined(rest), Border(rest, i)) {
          assert Between(Joined(chunks), Border(chunks, i + 1));
        }
      }
    }
  }

  /** Chunk by chunk there is at least as much text as at once. */
  lemma {:induction false} PiecesAreLonger(chunks: seq<Bytes>)
    ensures |Pieces(chunks)| >= |Decode(Joined(chunks))|
  {
    if chunks != [] {
      var first, rest := chunks[0], Joined(chunks[1..]);
      PiecesAreLonger(chunks[1..]);
      if Between(first + rest, |first|) { CutBetween(first, rest); } else { CutInside(first, rest); }
    }
  }

  /** Decoding chunk by chunk gives the text of the whole stream exactly when no border
      falls inside a character. */
  lemma {:induction false} ChunkwiseExactly(chunks: seq<Bytes>)
    ensures Pieces(chunks) == Decode(Joined(chunks)) <==> CutsBetween(chunks)
  {
    if chunks == [] {
      assert CutsBetween(chunks);
    } else {
      var first, rest := chunks[0], Joined(chunks[1..]);
      CutsStep(chunks);
      ChunkwiseExactly(chunks[1..]);
      if Between(first + rest, |first|) {
        CutBetween(first, rest);
        assert |Decode(first)| <= |Pieces(chunks)|;
        assert Pieces(chunks)[|Decode(first)|..] == Pieces(chunks[1..]);
        assert (Decode(first) + Decode(rest))[|Decode(first)|..] == Decode(rest);
      } else {
        CutInside(first, rest);
        PiecesAreLonger(chunks[1..]);
        NotTheSame(Decode(first), Pieces(chunks[1..]), |Decode(rest)|, Decode(first + rest));
      }
    }
  }

  lemma {:induction false} NotTheSame(a: Codes, pieces: Codes, rest: nat, whole: Codes)
    requires Spoiled(a, rest, whole) && |pieces| >= rest
    ensures a + pieces != whole
  {
    assert a != [] ==> (a + pieces)[|a| - 1] == a[|a| - 1];
  }

  /** The letter é cut in two: two replacements where the stream has one letter. */
  lemma {:induction false} CutLetter()
    ensures Decode([0xC3, 0xA9]) == [0xE9]
    ensures Pieces([[0xC3], [0xA9]]) == [REPLACEMENT, REPLACEMENT]
    ensures !CutsBetween([[0xC3], [0xA9]])
  {
    var chunks: seq<Bytes> := [[0xC3], [0xA9]];
    var whole: Bytes := [0xC3, 0xA9];
    assert whole[2..] == [];
    assert chunks[1..] == [[0xA9]] && chunks[1..][1..] == [];
    assert chunks[0][1..] == [] && chunks[1][1..] == [];
    assert Joined(chunks) == whole;
    ChunkwiseExactly(chunks);
  }

  // ---------------------------------------------------------------- well-formed text

  /** A Unicode scalar value: a code point that is no surrogate. */
  type Scalar = c: nat | c < 0x110000 && !(0xD800 <= c < 0xE000)

  function TailByte(c: nat): Byte { 0x80 + c % 0x40 }

  /** The UTF-8 form of a character. */
  function Encode(c: Scalar): Bytes {
    if c < 0x80 then [c]
    else if c < 0x800 then [0xC0 + c / 0x40, TailByte(c)]
    else if c < 0x10000 then [0xE0 + c / 0x40 / 0x40, TailByte(c / 0x40), TailByte(c)]
    else [0xF0 + c / 0x40 / 0x40 / 0x40, TailByte(c / 0x40 / 0x40), TailByte(c / 0x40), TailByte(c)]
  }

  function EncodeAll(text: seq<Scalar>): Bytes {
    if text == [] then [] else Encode(text[0]) + EncodeAll(text[1..])
  }

  function Utf16All(text: seq<Scalar>): Codes {
    if text == [] then [] else Utf16(text[0]) + Utf16All(text[1..])
  }

  lemma {:induction false} ShortUnit(c: Scalar, s: Bytes)
    requires c < 0x800 && Encode(c) <= s
    ensures UnitLength(s) == |Encode(c)| && UnitCodes(s) == Utf16(c)
  {
    assert forall k :: 0 <= k < |Encode(c)| ==> s[k] == Encode(c)[k];
  }

  lemma {:induction false} LongUnit(c: Scalar, s: Bytes, q: nat, p: nat)
    requires 0x800 <= c < 0x10000 && q == c / 0x40 && p == q / 0x40
    requires 3 <= |s| && s[0] == 0xE0 + p && s[1] == TailByte(q) && s[2] == TailByte(c)
    ensures UnitLength(s) == 3 && UnitCodes(s) == Utf16(c)
  {
    assert c == 0x40 * q + c % 0x40 && q == 0x40 * p + q % 0x40;
    assert Second(s[0], s[1]);
  }

  lemma {:induction false} PairUnit(c: Scalar, s: Bytes, q: nat, p: nat, o: nat)
    requires 0x10000 <= c && q == c / 0x40 && p == q / 0x40 && o == p / 0x40
    requires 4 <= |s| && s[0] == 0xF0 + o && s[1] == TailByte(p) && s[2] == TailByte(q) && s[3] == TailByte(c)
    ensures UnitLength(s) == 4 && UnitCodes(s) == Utf16(c)
  {
    assert c == 0x40 * q + c % 0x40 && q == 0x40 * p + q % 0x40 && p == 0x40 * o + p % 0x40;
    assert Second(s[0], s[1]);
    assert CodePoint(s) == c;
  }

  lemma {:induction false} EncodedUnit(c: Scalar, rest: Bytes)
    ensures UnitLength(Encode(c) + rest) == |Encode(c)|
    ensures UnitCodes(Encode(c) + rest) == Utf16(c)
  {
    var s := Encode(c) + rest;
    if c < 0x800 {
      ShortUnit(c, s);
    } else if c < 0x10000 {
      LongUnit(c, s, c / 0x40, c / 0x40 / 0x40);
    } else {
      PairUnit(c, s, c / 0x40, c / 0x40 / 0x40, c / 0x40 / 0x40 / 0x40);
    }
  }

  /** The decoder gives back every well-formed text. */
  lemma {:induction false} DecodeEncoded(text: seq<Scalar>)
    ensures Decode(EncodeAll(text)) == Utf16All(text)
  {
    if text != [] {
      EncodedUnit(text[0], EncodeAll(text[1..]));
      assert EncodeAll(text)[|Encode(text[0])|..] == EncodeAll(text[1..]);
      DecodeEncoded(text[1..]);
    }
  }

  /** Position `k` lies between two characters. */
  ghost predicate CharacterBorder(text: seq<Scalar>, k: nat) {
    exists i :: 0 <= i <= |text| && k == |EncodeAll(text[..i])|
  }

  lemma {:induction false} BorderAtStart(text: seq<Scalar>)
    ensures CharacterBorder(text, 0)
  {
    assert text[..0] == [];
  }

  lemma {:induction false} BorderFurther(text: seq<Scalar>, k: nat)
    requires text != [] && k > 0
    ensures var n := |Encode(text[0])|;
      CharacterBorder(text, k) <==> n <= k && CharacterBorder(text[1..], k - n)
  {
    var n := |Encode(text[0])|;
    assert text[..0] == [];
    if i :| 0 <= i <= |text| && k == |EncodeAll(text[..i])| {
      EncodeStep(text, i - 1);
    }
    if n <= k && CharacterBorder(text[1..], k - n) {
      var i :| 0 <= i <= |text[1..]| && k - n == |EncodeAll(text[1..][..i])|;
      EncodeStep(text, i);
    }
  }

  /** In well-formed text the places between units are those between characters. */
  lemma {:induction false} BetweenCharacters(text: seq<Scalar>, k: nat)
    ensures Between(EncodeAll(text), k) <==> CharacterBorder(text, k)
  {
    if k == 0 {
      BorderAtStart(text);
    } else if text != [] {
      var n := |Encode(text[0])|;
      BorderFurther(text, k);
      EncodedUnit(text[0], EncodeAll(text[1..]));
      assert EncodeAll(text)[n..] == EncodeAll(text[1..]);
      if n <= k { BetweenCharacters(text[1..], k - n); }
    }
  }

  lemma {:induction false} EncodeStep(text: seq<Scalar>, i: nat)
    requires i < |text|
    ensures |EncodeAll(text[..i + 1])| == |Encode(text[0])| + |EncodeAll(text[1..][..i])|
  {
    assert text[..i + 1][0] == text[0] && text[..i + 1][1..] == text[1..][..i];
  }

  /** Well-formed text, cut anywhere: chunk by chunk it is decoded as it was written exactly
      when every border lies between two characters. */
  lemma {:induction false} WellFormedChunkwise(text: seq<Scalar>, chunks: seq<Bytes>)
    requires Joined(chunks) == EncodeAll(text)
    ensures Pieces(chunks) == Utf16All(text) <==>
      forall i :: 0 <= i <= |chunks| ==> CharacterBorder(text, Border(chunks, i))
  {
    DecodeEncoded(text);
    ChunkwiseExactly(chunks);
    forall i | 0 <= i <= |chunks|
      ensures Between(Joined(chunks), Border(chunks, i)) <==> CharacterBorder(text, Border(chunks, i))
    {
      BetweenCharacters(text, Border(chunks, i));
    }
  }
}
