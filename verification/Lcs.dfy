/** Scoring a plan against the expected one: longest common subsequence and F1. */
module Lcs {

  /** s can be read off a from left to right, leaving elements out. */
  predicate Subsequence<T(==)>(s: seq<T>, a: seq<T>) {
    s == []
    || (a != []
        && ((s[|s| - 1] == a[|a| - 1] && Subsequence(s[..|s| - 1], a[..|a| - 1]))
            || Subsequence(s, a[..|a| - 1])))
  }

  predicate Common<T(==)>(s: seq<T>, a: seq<T>, b: seq<T>) {
    Subsequence(s, a) && Subsequence(s, b)
  }

  function Max(m: nat, n: nat): nat {
    if m >= n then m else n
  }

  /** The recurrence the table follows. */
  function Length<T(==)>(a: seq<T>, b: seq<T>): nat
    decreases |a| + |b|
  {
    if a == [] || b == [] then 0
    else if a[|a| - 1] == b[|b| - 1] then Length(a[..|a| - 1], b[..|b| - 1]) + 1
    else Max(Length(a[..|a| - 1], b), Length(a, b[..|b| - 1]))
  }

  /** lcs: the table is filled row by row. */
  method Table<T(==)>(a: seq<T>, b: seq<T>) returns (length: nat)
    ensures length == Length(a, b)
  {
    var t := new nat[|a| + 1, |b| + 1]((i, j) => 0);
    for i := 0 to |a|
      invariant forall x, y :: 0 <= x <= i && 0 <= y <= |b| ==> t[x, y] == Length(a[..x], b[..y])
      invariant forall x :: i < x <= |a| ==> t[x, 0] == 0
    {
      for j := 0 to |b|
        invariant forall x, y :: 0 <= x <= i && 0 <= y <= |b| ==> t[x, y] == Length(a[..x], b[..y])
        invariant forall x :: i < x <= |a| ==> t[x, 0] == 0
        invariant forall y :: 0 <= y <= j ==> t[i + 1, y] == Length(a[..i + 1], b[..y])
      {
        assert a[..i + 1][..i] == a[..i] && b[..j + 1][..j] == b[..j];
        t[i + 1, j + 1] := if a[i] == b[j] then t[i, j] + 1 else Max(t[i, j + 1], t[i + 1, j]);
      }
    }
    assert a[..|a|] == a && b[..|b|] == b;
    length := t[|a|, |b|];
  }

  lemma {:induction false} Longer<T>(s: seq<T>, a: seq<T>)
    requires a != [] && Subsequence(s, a[..|a| - 1])
    ensures Subsequence(s, a)
  {
  }

  lemma {:induction false} Extended<T>(s: seq<T>, a: seq<T>)
    requires a != [] && Subsequence(s, a[..|a| - 1])
    ensures Subsequence(s + [a[|a| - 1]], a)
  {
    assert (s + [a[|a| - 1]])[..|s|] == s;
  }

  /** A common subsequence of that length exists. */
  lemma {:induction false} Attained<T>(a: seq<T>, b: seq<T>) returns (s: seq<T>)
    ensures Common(s, a, b) && |s| == Length(a, b)
    decreases |a| + |b|
  {
    if a == [] || b == [] {
      s := [];
    } else if a[|a| - 1] == b[|b| - 1] {
      var shorter := Attained(a[..|a| - 1], b[..|b| - 1]);
      Extended(shorter, a);
      Extended(shorter, b);
      s := shorter + [a[|a| - 1]];
    } else if Length(a[..|a| - 1], b) >= Length(a, b[..|b| - 1]) {
      s := Attained(a[..|a| - 1], b);
      Longer(s, a);
    } else {
      s := Attained(a, b[..|b| - 1]);
      Longer(s, b);
    }
  }

  lemma {:induction false} DropLast<T>(s: seq<T>, a: seq<T>)
    requires s != [] && Subsequence(s, a)
    ensures a != [] && Subsequence(s[..|s| - 1], a[..|a| - 1])
    decreases |a|
  {
    if !(s[|s| - 1] == a[|a| - 1] && Subsequence(s[..|s| - 1], a[..|a| - 1])) {
      DropLast(s, a[..|a| - 1]);
      Longer(s[..|s| - 1], a[..|a| - 1]);
    }
  }

  /** No common subsequence is longer. */
  lemma {:induction false} NoneLonger<T>(s: seq<T>, a: seq<T>, b: seq<T>)
    requires Common(s, a, b)
    ensures |s| <= Length(a, b)
    decreases |a| + |b|
  {
    if s != [] {
      if a[|a| - 1] == b[|b| - 1] {
        DropLast(s, a);
        DropLast(s, b);
        NoneLonger(s[..|s| - 1], a[..|a| - 1], b[..|b| - 1]);
      } else if Subsequence(s, a[..|a| - 1]) {
        NoneLonger(s, a[..|a| - 1], b);
      } else {
        NoneLonger(s, a, b[..|b| - 1]);
      }
    }
  }

  /** lcs computes the length of a longest common subsequence. */
  lemma LengthIsLongest<T>(a: seq<T>, b: seq<T>)
    ensures (exists s :: Common(s, a, b) && |s| == Length(a, b)) && forall s :: Common(s, a, b) ==> |s| <= Length(a, b)
  {
    var s := Attained(a, b);
    forall s | Common(s, a, b) ensures |s| <= Length(a, b) {
      NoneLonger(s, a, b);
    }
  }

  // ---- F1 --------------------------------------------------------------------------------

  datatype Score = Score(value: real) | DivisionByZero

  function Mean(p: real, r: real): real
    requires p + r != 0.0
  {
    2.0 * p * r / (p + r)
  }

  function F1<T(==)>(expected: seq<T>, got: seq<T>): Score {
    if got == [] then Score(0.0)
    else if expected == [] then DivisionByZero
    else
      var l := Length(expected, got) as real;
      var p, r := l / |got| as real, l / |expected| as real;
      if l == 0.0 then Score(0.0) else Score(Mean(p, r))
  }

  lemma {:induction false} AtMostShorter<T>(a: seq<T>, b: seq<T>)
    ensures Length(a, b) <= |a| && Length(a, b) <= |b|
    decreases |a| + |b|
  {
    if a != [] && b != [] {
      AtMostShorter(a[..|a| - 1], b[..|b| - 1]);
      AtMostShorter(a[..|a| - 1], b);
      AtMostShorter(a, b[..|b| - 1]);
    }
  }

  lemma {:induction false} FullLengthIsEqual<T>(a: seq<T>, b: seq<T>)
    ensures Length(a, b) == |a| == |b| <==> a == b
    decreases |a| + |b|
  {
    if a != [] && b != [] && |a| == |b| {
      FullLengthIsEqual(a[..|a| - 1], b[..|b| - 1]);
      AtMostShorter(a[..|a| - 1], b);
      AtMostShorter(a, b[..|b| - 1]);
      assert a == a[..|a| - 1] + [a[|a| - 1]] && b == b[..|b| - 1] + [b[|b| - 1]];
    }
  }

  /** The harmonic mean of l/g and l/e is 2l / (g + e). */
  lemma HarmonicMean(l: real, g: real, e: real)
    requires l > 0.0 && g > 0.0 && e > 0.0
    ensures l / g + l / e > 0.0
    ensures Mean(l / g, l / e) == 2.0 * l / (g + e)
  {
    var p, r := l / g, l / e;
    assert p * g == l && r * e == l;
    assert p > 0.0 && r > 0.0 by { Positive(p, g, l); Positive(r, e, l); }
    // (p + r) * 2l == 2pr * (g + e), since p g == r e == l
    assert 2.0 * p * r * (g + e) == 2.0 * (p * g) * r + 2.0 * p * (r * e);
    Quotients(2.0 * p * r, p + r, 2.0 * l, g + e);
  }

  lemma Positive(q: real, d: real, n: real)
    requires q * d == n && n > 0.0 && d > 0.0
    ensures q > 0.0
  {
  }

  lemma Quotients(a: real, b: real, c: real, d: real)
    requires b > 0.0 && d > 0.0 && a * d == c * b
    ensures a / b == c / d
  {
    var x, y := a / b, c / d;
    assert x * b == a && y * d == c;
    assert (x - y) * (b * d) == (x * b) * d - (y * d) * b;
    NoZeroDivisors(x - y, b * d);
  }

  lemma NoZeroDivisors(x: real, y: real)
    requires x * y == 0.0 && y > 0.0
    ensures x == 0.0
  {
  }

  lemma ClosedForm(l: real, g: real, e: real)
    requires l >= 0.0 && g > 0.0 && e > 0.0
    ensures l > 0.0 ==> l / g + l / e > 0.0 && Mean(l / g, l / e) == 2.0 * l / (g + e)
    ensures l == 0.0 ==> 2.0 * l / (g + e) == 0.0
  {
    if l > 0.0 {
      HarmonicMean(l, g, e);
    }
  }

  /** The score in closed form: twice the common length over the sum of the lengths; nothing for an empty
      answer, and a division by zero for an answer to an empty expectation. */
  lemma ScoreIs<T>(expected: seq<T>, got: seq<T>)
    ensures F1(expected, got) ==
      if |got| == 0 then Score(0.0)
      else if |expected| == 0 then DivisionByZero
      else Score(2.0 * Length(expected, got) as real / (|got| as real + |expected| as real))
  {
    if got != [] && expected != [] {
      ClosedForm(Length(expected, got) as real, |got| as real, |expected| as real);
    }
  }

  /** The score lies between 0 and 1, and is 1 exactly when the two sequences are equal. */
  lemma F1Range<T>(expected: seq<T>, got: seq<T>)
    requires expected != [] && got != []
    ensures var score := F1(expected, got);
      score.Score? && 0.0 <= score.value <= 1.0 && (score.value == 1.0 <==> expected == got)
  {
    AtMostShorter(expected, got);
    FullLengthIsEqual(expected, got);
    ScoreIs(expected, got);
    var l := Length(expected, got);
    Fraction(2.0 * l as real, |got| as real + |expected| as real);
    assert 2.0 * l as real == |got| as real + |expected| as real <==> l == |got| == |expected|;
  }

  lemma Fraction(n: real, d: real)
    requires 0.0 <= n <= d && d > 0.0
    ensures 0.0 <= n / d <= 1.0 && (n / d == 1.0 <==> n == d)
  {
  }
}
