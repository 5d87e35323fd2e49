/** The wire-buffer digest of scripts/eval-selfhost-check.ts: the two running sums of
    Adler-32 (section 2.2 of RFC 1950) with the length and the two end bytes. */
module AdlerDigest {
  import opened Optional
  import opened Sorting

  const BASE := 65521

  type Byte = n: int | 0 <= n < 256

  /** The five fields printed; the end bytes of an empty buffer are `undefined`. */
  datatype Digest = Digest(length: nat, a: nat, b: nat, first: Option<Byte>, last: Option<Byte>)

  // ------------------------------------------------------------------ closed form

  function Value(b: Byte): int { b }

  function Total(buf: seq<Byte>): int { Sum(buf, Value) }

  /** Every byte weighted by its distance from the end, counting from one. */
  function Weighted(buf: seq<Byte>): int {
    if buf == [] then 0 else Weighted(buf[..|buf| - 1]) + Total(buf)
  }

  function A(buf: seq<Byte>): nat { (1 + Total(buf)) % BASE }
  function B(buf: seq<Byte>): nat { (|buf| + Weighted(buf)) % BASE }

  function End(buf: seq<Byte>, i: int): Option<Byte> {
    if 0 <= i < |buf| then Some(buf[i]) else None
  }

  function DigestOf(buf: seq<Byte>): Digest {
    Digest(|buf|, A(buf), B(buf), End(buf, 0), End(buf, |buf| - 1))
  }

  lemma {:induction false} ModAdd(x: int, y: int)
    ensures (x % BASE + y) % BASE == (x + y) % BASE
  {
  }

  method Compute(buf: seq<Byte>) returns (d: Digest)
    ensures d == DigestOf(buf)
  {
    var a, b, i := 1, 0, 0;
    while i < |buf|
      invariant 0 <= i <= |buf| && a == A(buf[..i]) && b == B(buf[..i])
    {
      assert buf[..i + 1][..i] == buf[..i];
      ModAdd(1 + Total(buf[..i]), buf[i]);
      a := (a + buf[i]) % BASE;
      ModAdd(i + Weighted(buf[..i]), a);
      ModAdd(1 + Total(buf[..i + 1]), i + Weighted(buf[..i]));
      b := (b + a) % BASE;
      i := i + 1;
    }
    assert buf[..|buf|] == buf;
    d := Digest(|buf|, a, b, End(buf, 0), End(buf, |buf| - 1));
  }

  /** The sum the weights stand for: byte `i` of `n` counts `n - i` times. */
  function Moments(buf: seq<Byte>, k: nat): int
    requires k <= |buf|
  {
    if k == 0 then 0 else Moments(buf, k - 1) + (|buf| - (k - 1)) * buf[k - 1]
  }

  lemma {:induction false} MomentsOneMore(buf: seq<Byte>, x: Byte, k: nat)
    requires k <= |buf|
    ensures Moments(buf + [x], k) == Moments(buf, k) + Total(buf[..k])
  {
    if k > 0 {
      MomentsOneMore(buf, x, k - 1);
      assert buf[..k][..k - 1] == buf[..k - 1];
      var w := |buf| - (k - 1);
      assert (w + 1) * buf[k - 1] == w * buf[k - 1] + buf[k - 1];
    }
  }

  /** The running double sum of the loop is the weighted sum. */
  lemma {:induction false} WeightedIsMoments(buf: seq<Byte>)
    ensures Weighted(buf) == Moments(buf, |buf|)
  {
    if buf != [] {
      var front, x := buf[..|buf| - 1], buf[|buf| - 1];
      assert buf == front + [x];
      WeightedIsMoments(front);
      MomentsOneMore(front, x, |front|);
      assert front[..|front|] == front;
    }
  }

  // ---------------------------------------------------------------- concatenation

  lemma {:induction false} SumsAppend(x: seq<Byte>, y: seq<Byte>)
    ensures Total(x + y) == Total(x) + Total(y)
    ensures Weighted(x + y) == Weighted(x) + Weighted(y) + |y| * Total(x)
  {
    if y == [] {
      assert x + y == x;
    } else {
      var front := y[..|y| - 1];
      SumsAppend(x, front);
      assert (x + y)[..|x + y| - 1] == x + front;
      assert |y| * Total(x) == |front| * Total(x) + Total(x);
    }
  }

  lemma {:induction false} Multiple(x: int, q: int)
    ensures (x + BASE * q) % BASE == x % BASE
  {
  }

  /** The sums of a concatenation from those of its parts. */
  lemma {:induction false} Concatenation(x: seq<Byte>, y: seq<Byte>)
    ensures A(x + y) == (A(x) + A(y) - 1) % BASE
    ensures B(x + y) == (B(x) + B(y) + |y| * (A(x) - 1)) % BASE
  {
    SumsAppend(x, y);
    var a, p, q := (1 + Total(x)) / BASE, (|x| + Weighted(x)) / BASE, (|y| + Weighted(y)) / BASE;
    var c := (1 + Total(y)) / BASE;
    assert A(x) == 1 + Total(x) - BASE * a && A(y) == 1 + Total(y) - BASE * c;
    assert B(x) == |x| + Weighted(x) - BASE * p && B(y) == |y| + Weighted(y) - BASE * q;
    SumOfParts(x, y, a, c);
    WeightOfParts(x, y, a, p, q);
  }

  lemma {:induction false} SumOfParts(x: seq<Byte>, y: seq<Byte>, a: int, c: int)
    requires A(x) == 1 + Total(x) - BASE * a && A(y) == 1 + Total(y) - BASE * c
    requires Total(x + y) == Total(x) + Total(y)
    ensures A(x + y) == (A(x) + A(y) - 1) % BASE
  {
    Multiple(1 + Total(x + y), -(a + c));
  }

  lemma {:induction false} WeightOfParts(x: seq<Byte>, y: seq<Byte>, a: int, p: int, q: int)
    requires A(x) == 1 + Total(x) - BASE * a
    requires B(x) == |x| + Weighted(x) - BASE * p && B(y) == |y| + Weighted(y) - BASE * q
    requires Weighted(x + y) == Weighted(x) + Weighted(y) + |y| * Total(x)
    ensures B(x + y) == (B(x) + B(y) + |y| * (A(x) - 1)) % BASE
  {
    Shifted(|y|, A(x), Total(x), a);
    ShiftedSum(|x + y| + Weighted(x + y), B(x) + B(y) + |y| * (A(x) - 1), p + q + |y| * a);
  }

  lemma {:induction false} Shifted(n: int, a: int, sum: int, q: int)
    requires a == 1 + sum - BASE * q
    ensures n * (a - 1) == n * sum - BASE * (n * q)
  {
  }

  lemma {:induction false} ShiftedSum(x: int, y: int, q: int)
    requires y == x - BASE * q
    ensures x % BASE == y % BASE
  {
    Multiple(x, -q);
  }

  // -------------------------------------------------------------------- detection

  ghost predicate SameExcept(x: seq<Byte>, y: seq<Byte>, i: nat, j: nat) {
    && |x| == |y| && i < j < |x|
    && forall k :: 0 <= k < |x| && k != i && k != j ==> x[k] == y[k]
  }

  /** How much byte `p` grows. */
  function Growth(x: seq<Byte>, y: seq<Byte>, p: nat): int
    requires |x| == |y| && p < |x|
  {
    y[p] as int - x[p] as int
  }

  function Change(x: seq<Byte>, y: seq<Byte>, k: int, p: nat): int
    requires |x| == |y| && p < |x|
  {
    if p < k then Growth(x, y, p) else 0
  }

  /** How the sums of the first `k` bytes move when two bytes change. */
  lemma {:induction false} SumsChange(x: seq<Byte>, y: seq<Byte>, i: nat, j: nat, k: nat)
    requires SameExcept(x, y, i, j) && k <= |x|
    ensures Total(y[..k]) - Total(x[..k]) == Change(x, y, k, i) + Change(x, y, k, j)
    ensures Moments(y, k) - Moments(x, k)
         == (|x| - i) * Change(x, y, k, i) + (|x| - j) * Change(x, y, k, j)
  {
    if k > 0 {
      SumsChange(x, y, i, j, k - 1);
      assert x[..k][..k - 1] == x[..k - 1] && y[..k][..k - 1] == y[..k - 1];
      var w := |x| - (k - 1);
      assert w * y[k - 1] - w * x[k - 1] == w * Growth(x, y, k - 1);
    }
  }

  lemma {:induction false} NoSmallDivisor(d: nat)
    requires 2 <= d <= 255
    ensures BASE % d != 0
  {
  }

  /** A byte-sized factor cannot hide a multiple of the base. */
  lemma {:induction false} CancelSmall(d: int, e: nat)
    requires 1 <= e <= 255 && (d * e) % BASE == 0
    ensures d % BASE == 0
    decreases e
  {
    if e > 1 {
      NoSmallDivisor(e);
      var q, r := BASE / e, BASE % e;
      assert BASE == q * e + r;
      var m := (d * e) / BASE;
      assert d * e == BASE * m;
      assert d * r == d * BASE - q * (d * e) == BASE * (d - q * m);
      Multiple(0, d - q * m);
      CancelSmall(d, r);
    } else {
      assert d * e == d;
    }
  }

  lemma {:induction false} SameResidue(x: int, y: int)
    ensures x % BASE == y % BASE <==> (y - x) % BASE == 0
  {
  }

  /** Which changes of two bytes the two sums miss. */
  lemma {:induction false} TwoBytesUndetected(x: seq<Byte>, y: seq<Byte>, i: nat, j: nat)
    requires SameExcept(x, y, i, j) && x[i] != y[i]
    ensures (A(x) == A(y) && B(x) == B(y))
       <==> (Growth(x, y, i) + Growth(x, y, j) == 0 && (j - i) % BASE == 0)
  {
    var n := |x|;
    SumsChange(x, y, i, j, n);
    assert x[..n] == x && y[..n] == y;
    WeightedIsMoments(x);
    WeightedIsMoments(y);
    SameResidue(1 + Total(x), 1 + Total(y));
    SameResidue(n + Weighted(x), n + Weighted(y));
    BothResidues(n, i, j, Growth(x, y, i), Growth(x, y, j));
  }

  lemma {:induction false} BothResidues(n: int, i: int, j: int, e: int, f: int)
    requires e != 0 && -255 <= e <= 255 && -255 <= f <= 255
    ensures ((e + f) % BASE == 0 && ((n - i) * e + (n - j) * f) % BASE == 0)
       <==> (e + f == 0 && (j - i) % BASE == 0)
  {
    assert (e + f) % BASE == 0 <==> e + f == 0;
    if e + f == 0 {
      assert (n - i) * e + (n - j) * f == (j - i) * e;
      Cancels(j - i, e);
    }
  }

  lemma {:induction false} Cancels(d: int, e: int)
    requires e != 0 && -255 <= e <= 255
    ensures (d * e) % BASE == 0 <==> d % BASE == 0
  {
    if d % BASE == 0 {
      var q := d / BASE;
      assert d * e == BASE * (q * e);
      Multiple(0, q * e);
    }
    if (d * e) % BASE == 0 {
      if e > 0 {
        CancelSmall(d, e);
      } else {
        assert d * -e == -(d * e);
        CancelSmall(d, -e);
      }
    }
  }

  /** The whole digest misses a change of two bytes exactly when neither is an end byte,
      one gains what the other loses, and they are a multiple of the base apart. */
  lemma {:induction false} ChangeOfTwoBytes(x: seq<Byte>, y: seq<Byte>, i: nat, j: nat)
    requires SameExcept(x, y, i, j) && x[i] != y[i] && x[j] != y[j]
    ensures DigestOf(x) == DigestOf(y)
       <==> (0 < i && j < |x| - 1 && Growth(x, y, i) + Growth(x, y, j) == 0 && (j - i) % BASE == 0)
  {
    TwoBytesUndetected(x, y, i, j);
  }

  /** A change of one byte is always seen. */
  lemma {:induction false} ChangeOfOneByte(x: seq<Byte>, y: seq<Byte>, i: nat)
    requires |x| == |y| && i < |x| && x[i] != y[i]
    requires forall k :: 0 <= k < |x| && k != i ==> x[k] == y[k]
    ensures DigestOf(x) != DigestOf(y)
  {
    if |x| > 1 {
      if i + 1 < |x| { TwoBytesUndetected(x, y, i, i + 1); } else { LastByteChanged(x, y); }
    }
  }

  lemma {:induction false} LastByteChanged(x: seq<Byte>, y: seq<Byte>)
    requires |x| == |y| && x != [] && x[|x| - 1] != y[|x| - 1]
    ensures DigestOf(x) != DigestOf(y)
  {
  }

  /** Swapping two unequal bytes is seen unless they lie a multiple of the base apart;
      neighbours are always told apart. */
  lemma {:induction false} SwapOfTwoBytes(x: seq<Byte>, i: nat, j: nat)
    requires i < j < |x| && x[i] != x[j]
    ensures DigestOf(x) == DigestOf(x[i := x[j]][j := x[i]])
       <==> (0 < i && j < |x| - 1 && (j - i) % BASE == 0)
    ensures j == i + 1 ==> DigestOf(x) != DigestOf(x[i := x[j]][j := x[i]])
  {
    ChangeOfTwoBytes(x, x[i := x[j]][j := x[i]], i, j);
  }
}
