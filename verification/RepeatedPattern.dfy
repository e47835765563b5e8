/** The doubling trick of RepeatedSubstringPatternController.swift: a string is a
    repeated shorter word iff it occurs inside its own double with the first and
    the last character removed. */
module RepeatedPattern {

  /** The standard library's `contains` on strings. */
  predicate Contains(text: string, word: string) {
    exists k :: 0 <= k <= |text| - |word| && OccursAt(text, word, k)
  }

  predicate OccursAt(text: string, word: string, k: int) {
    0 <= k <= |text| - |word| && text[k..k + |word|] == word
  }

  /** The source's test. */
  predicate RepeatedSubstringPattern(s: string) {
    if |s| <= 1 then
      false
    else
      var doubled := s + s;
      var result := doubled[1..|doubled| - 1];
      Contains(result, s)
  }

  ghost function Repeat(w: string, k: nat): string {
    if k == 0 then [] else w + Repeat(w, k - 1)
  }

  /** The index i of a string of length n, counted round the end. */
  ghost function Wrap(i: nat, n: nat): nat {
    if i < n then i else i - n
  }

  /** Rotating s by p places leaves it unchanged. */
  ghost predicate RotationFixes(s: string, p: nat)
    requires p <= |s|
  {
    forall i :: 0 <= i < |s| ==> s[Wrap(i + p, |s|)] == s[i]
  }

  ghost function Gcd(a: nat, b: nat): (g: nat)
    requires a > 0 && b > 0
    ensures 0 < g <= a && g <= b
    decreases a + b
  {
    if a == b then a else if a > b then Gcd(a - b, b) else Gcd(a, b - a)
  }

  ghost predicate Divides(g: nat, a: nat) {
    exists k: nat :: a == k * g
  }

  lemma DividesSum(g: nat, a: nat, b: nat)
    requires Divides(g, a) && Divides(g, b)
    ensures Divides(g, a + b)
  {
    var k: nat :| a == k * g;
    var l: nat :| b == l * g;
    assert a + b == (k + l) * g;
  }

  lemma {:induction false} GcdDivides(a: nat, b: nat)
    requires a > 0 && b > 0
    ensures Divides(Gcd(a, b), a) && Divides(Gcd(a, b), b)
    decreases a + b
  {
    if a == b {
      assert a == 1 * Gcd(a, b);
    } else if a > b {
      GcdDivides(a - b, b);
      DividesSum(Gcd(a, b), a - b, b);
    } else {
      GcdDivides(a, b - a);
      DividesSum(Gcd(a, b), b - a, a);
    }
  }

  /** Rotations that fix s are closed under difference. */
  lemma RotationDifference(s: string, a: nat, b: nat)
    requires b <= a <= |s|
    requires RotationFixes(s, a) && RotationFixes(s, b)
    ensures RotationFixes(s, a - b)
  {
    var n := |s|;
    forall i | 0 <= i < n ensures s[Wrap(i + (a - b), n)] == s[i] {
      var j := Wrap(i + (a - b), n);
      assert s[Wrap(j + b, n)] == s[j];
      assert Wrap(j + b, n) == Wrap(i + a, n);
    }
  }

  /** Euclid on rotations. */
  lemma {:induction false} RotationGcd(s: string, a: nat, b: nat)
    requires 0 < a <= |s| && 0 < b <= |s|
    requires RotationFixes(s, a) && RotationFixes(s, b)
    ensures RotationFixes(s, Gcd(a, b))
    decreases a + b
  {
    if a > b {
      RotationDifference(s, a, b);
      RotationGcd(s, a - b, b);
    } else if a < b {
      RotationDifference(s, b, a);
      RotationGcd(s, a, b - a);
    }
  }

  /** An occurrence of s inside its double is a rotation that fixes s. */
  lemma OccurrenceIsRotation(s: string, p: nat)
    requires p < |s| && OccursAt(s + s, s, p)
    ensures RotationFixes(s, p)
  {
    forall i | 0 <= i < |s| ensures s[Wrap(i + p, |s|)] == s[i] {
      assert (s + s)[p..p + |s|][i] == (s + s)[p + i];
    }
  }

  /** A string with period g whose length is m times g is its first g characters
      repeated m times. */
  lemma {:induction false} PeriodIsRepeat(s: string, g: nat, m: nat)
    requires g > 0 && |s| == m * g
    requires forall i :: g <= i < |s| ==> s[i] == s[i - g]
    ensures m > 0 ==> g <= |s| && s == Repeat(s[..g], m)
    decreases m
  {
    if m > 0 {
      assert m * g == (m - 1) * g + g;
      var t := s[g..];
      forall i | g <= i < |t| ensures t[i] == t[i - g] {
        assert s[g + i] == s[g + i - g];
      }
      PeriodIsRepeat(t, g, m - 1);
      assert s == s[..g] + t;
      if m > 1 {
        assert (m - 1) * g == (m - 2) * g + g;
        assert t[..g] == s[..g];
      }
    }
  }

  lemma {:induction false} RepeatCommutes(w: string, k: nat)
    ensures w + Repeat(w, k) == Repeat(w, k) + w
  {
    if k > 0 {
      RepeatCommutes(w, k - 1);
      assert w + (w + Repeat(w, k - 1)) == w + (Repeat(w, k - 1) + w);
      assert w + (Repeat(w, k - 1) + w) == (w + Repeat(w, k - 1)) + w;
    }
  }

  /** An inner occurrence in the double is one in the trimmed double, and back:
      removing the first character moves it one place. */
  lemma TrimShifts(s: string, p: nat)
    requires 1 <= p < |s|
    ensures OccursAt((s + s)[1..|s + s| - 1], s, p - 1) <==> OccursAt(s + s, s, p)
  {
    var text := s + s;
    var trimmed := text[1..|text| - 1];
    assert trimmed[p - 1..p - 1 + |s|] == text[p..p + |s|];
  }

  lemma MiddleSlice(a: string, b: string, c: string)
    ensures (a + b + c)[|a|..|a| + |b|] == b
  {
  }

  lemma DoubleOfRepeat(w: string, rest: string, s: string)
    requires s == w + rest == rest + w
    ensures s + s == w + s + rest
  {
    assert (w + rest) + (w + rest) == w + (rest + w) + rest;
  }

  /** A repeated word occurs in its double, shifted by one copy of the word. */
  lemma RepeatOccurs(w: string, k: nat)
    requires k >= 2 && w != []
    ensures RepeatedSubstringPattern(Repeat(w, k))
  {
    var s := Repeat(w, k);
    var rest := Repeat(w, k - 1);
    assert rest == w + Repeat(w, k - 2);
    assert s == w + rest;
    RepeatCommutes(w, k - 1);
    DoubleOfRepeat(w, rest, s);
    MiddleSlice(w, s, rest);
    TrimShifts(s, |w|);
  }

  /** A string that occurs in its trimmed double is a shorter word repeated at
      least twice. */
  lemma OccurrenceIsRepeat(s: string)
    requires RepeatedSubstringPattern(s)
    ensures exists w: string, k: nat :: k >= 2 && w != [] && s == Repeat(w, k)
  {
    var n := |s|;
    var doubled := s + s;
    var result := doubled[1..|doubled| - 1];
    var q :| 0 <= q <= |result| - n && OccursAt(result, s, q);
    var p := q + 1;
    TrimShifts(s, p);
    OccurrenceIsRotation(s, p);
    RotationGcd(s, n, p);
    GcdDivides(n, p);
    var g := Gcd(n, p);
    var m: nat :| n == m * g;
    forall i | g <= i < n ensures s[i] == s[i - g] {
      assert s[Wrap(i - g + g, n)] == s[i - g];
    }
    PeriodIsRepeat(s, g, m);
    assert m == 0 ==> m * g == 0;
    assert m == 1 ==> m * g == g;
  }

  /** The promise of the source, for every string. */
  lemma DoublingTrick(s: string)
    ensures RepeatedSubstringPattern(s) <==>
            exists w: string, k: nat :: k >= 2 && w != [] && s == Repeat(w, k)
  {
    if RepeatedSubstringPattern(s) {
      OccurrenceIsRepeat(s);
    }
    if w: string, k: nat :| k >= 2 && w != [] && s == Repeat(w, k) {
      RepeatOccurs(w, k);
    }
  }
}
