/** Lines of text: where the first newline is, and the carriage return before it. Text is
    a sequence of codes, be they bytes or UTF-16 code units. */
module TextLines {
  import opened Numbering

  type Codes = seq<nat>

  const NEWLINE: nat := 10
  const RETURN: nat := 13

  /** Takes one carriage return off the end. */
  function DropReturn(line: Codes): Codes {
    if line != [] && line[|line| - 1] == RETURN then line[..|line| - 1] else line
  }

  function Newline(text: Codes): (i: nat)
    ensures i <= |text|
  {
    IndexOf(text, NEWLINE)
  }

  /** The first line of a text that has a newline. */
  function First(text: Codes): Codes { DropReturn(text[..Newline(text)]) }

  /** What follows the first newline. */
  function After(text: Codes): (rest: Codes)
    ensures NEWLINE in text ==> |rest| < |text|
  {
    if Newline(text) < |text| then text[Newline(text) + 1..] else []
  }

  /** More text at the end does not move the first newline. */
  lemma {:induction false} FirstAppend(t: Codes, u: Codes)
    requires NEWLINE in t
    ensures First(t + u) == First(t) && After(t + u) == After(t) + u
  {
    IndexInPrefix(t, t + u, NEWLINE);
    var i := Newline(t);
    assert (t + u)[..i] == t[..i] && (t + u)[i + 1..] == t[i + 1..] + u;
  }

  lemma {:induction false} FirstOfLine(line: Codes, rest: Codes)
    requires NEWLINE !in line
    ensures First(line + [NEWLINE] + rest) == DropReturn(line) && After(line + [NEWLINE] + rest) == rest
    ensures NEWLINE in line + [NEWLINE] + rest
  {
    var text := line + [NEWLINE] + rest;
    assert text[..|line|] == line && text[|line|] == NEWLINE && text[|line| + 1..] == rest;
    FirstIs(text, |line|);
  }
}
