/** Powers of two, unique division, and masks as rounding down. */
module Powers {

  function Pow2(n: nat): (p: nat)
    ensures p > 0
  {
    if n == 0 then 1 else 2 * Pow2(n - 1)
  }

  lemma {:induction false} Pow2Add(a: nat, b: nat)
    ensures Pow2(a + b) == Pow2(a) * Pow2(b)
  {
    if a == 0 {
      assert 1 * Pow2(b) == Pow2(b);
    } else {
      Pow2Add(a - 1, b);
      TimesAssociative(2, Pow2(a - 1), Pow2(b));
    }
  }

  /** Division with remainder is unique. */
  lemma DivideUnique(x: nat, n: nat, q: nat, r: nat)
    requires r < n && x == q * n + r
    ensures x / n == q && x % n == r
  {
    var p := x / n;
    assert x == p * n + x % n;
    if p < q {
      TimesMonotone(p + 1, q, n);
    } else if q < p {
      TimesMonotone(q + 1, p, n);
    }
  }

  function Quotient(x: nat, n: nat): nat
    requires n > 0
  {
    x / n
  }

  lemma Divide(x: nat, n: nat) returns (q: nat, r: nat)
    requires n > 0
    ensures x == q * n + r && r < n && q == x / n && r == x % n
  {
    q, r := x / n, x % n;
  }

  lemma TimesMonotone(a: nat, b: nat, n: nat)
    requires a <= b
    ensures a * n <= b * n
  {
  }

  lemma TimesCancel(a: nat, b: nat, n: nat)
    requires n > 0 && a * n <= b * n
    ensures a <= b
  {
    if b < a {
      TimesMonotone(b + 1, a, n);
      Distribute(b, 1, n);
    }
  }

  lemma TimesAssociative(a: nat, b: nat, n: nat)
    ensures a * b * n == a * (b * n)
  {
  }

  lemma Distribute(a: int, b: int, n: nat)
    ensures (a + b) * n == a * n + b * n && (a - b) * n == a * n - b * n
  {
  }

  /** Rounding down and up to a multiple of n. */
  function Down(x: nat, n: nat): nat
    requires n > 0
  {
    x - x % n
  }

  function Up(x: nat, n: nat): nat
    requires n > 0
  {
    Down(x + (n - 1), n)
  }

  predicate Multiple(x: nat, n: nat)
    requires n > 0
  {
    x % n == 0
  }

  lemma MultipleOf(q: nat, n: nat)
    requires n > 0
    ensures Multiple(q * n, n) && q * n / n == q
  {
    DivideUnique(q * n, n, q, 0);
  }

  lemma QuotientOf(x: nat, n: nat)
    requires n > 0 && Multiple(x, n)
    ensures x == x / n * n
  {
  }

  lemma DownIsMultiple(x: nat, n: nat)
    requires n > 0
    ensures Down(x, n) == x / n * n && Multiple(Down(x, n), n) && Down(x, n) <= x < Down(x, n) + n
  {
    assert x == x / n * n + x % n;
    MultipleOf(x / n, n);
  }

  lemma UpIsMultiple(x: nat, n: nat)
    requires n > 0
    ensures Multiple(Up(x, n), n) && x <= Up(x, n) < x + n
  {
    DownIsMultiple(x + (n - 1), n);
  }

  /** The multiple of n at or below x is unique. */
  lemma DownUnique(x: nat, n: nat, m: nat)
    requires n > 0 && Multiple(m, n) && m <= x < m + n
    ensures Down(x, n) == m
  {
    QuotientOf(m, n);
    DivideUnique(x, n, m / n, x - m);
  }

  lemma MultipleSum(x: nat, y: nat, n: nat)
    requires n > 0 && Multiple(x, n) && Multiple(y, n)
    ensures Multiple(x + y, n)
  {
    QuotientOf(x, n);
    QuotientOf(y, n);
    Distribute(x / n, y / n, n);
    MultipleOf(x / n + y / n, n);
  }

  /** A total of whole groups contains the whole group of each of its members. */
  lemma PageInside(n: nat, per: nat, total: nat)
    requires per > 0 && Multiple(total, per) && n < total
    ensures Multiple(Down(n, per), per) && Down(n, per) <= n < Down(n, per) + per <= total
  {
    hide Multiple, Down;
    DownIsMultiple(n, per);
    var q, r := Divide(n, per);
    QuotientOf(total, per);
    var t := total / per;
    if q >= t {
      TimesMonotone(t, q, per);
    }
    TimesMonotone(q + 1, t, per);
    Distribute(q, 1, per);
  }

  /** x & y. */
  function BitAnd(x: nat, y: nat): nat {
    if x == 0 || y == 0 then 0 else 2 * BitAnd(x / 2, y / 2) + (x % 2) * (y % 2)
  }

  lemma {:induction false} AndOnes(x: nat, w: nat)
    requires x < Pow2(w)
    ensures BitAnd(x, Pow2(w) - 1) == x
  {
    if w > 0 && x > 0 {
      var ones := Pow2(w) - 1;
      assert ones / 2 == Pow2(w - 1) - 1 && ones % 2 == 1;
      AndOnes(x / 2, w - 1);
      assert x == 2 * (x / 2) + x % 2;
    }
  }

  /** x & ~(2^k - 1), in a word of w bits, rounds x down to a multiple of 2^k. */
  lemma {:induction false} MaskRoundsDown(x: nat, k: nat, w: nat)
    requires k <= w && x < Pow2(w)
    ensures Pow2(k) <= Pow2(w) && BitAnd(x, Pow2(w) - Pow2(k)) == Down(x, Pow2(k))
  {
    if k == 0 {
      AndOnes(x, w);
    } else {
      MaskRoundsDown(x / 2, k - 1, w - 1);
      DownHalf(x, Pow2(k - 1));
      assert (Pow2(w) - Pow2(k)) / 2 == Pow2(w - 1) - Pow2(k - 1);
      assert (Pow2(w) - Pow2(k)) % 2 == 0;
    }
  }

  lemma DownHalf(x: nat, n: nat)
    requires n > 0
    ensures Down(x, 2 * n) == 2 * Down(x / 2, n)
  {
    var h := x / 2;
    DownIsMultiple(h, n);
    var q := h / n;
    assert Down(h, n) == q * n;
    TimesAssociative(q, 2, n);
    assert x == q * (2 * n) + (x - 2 * Down(h, n)) by {
      assert 2 * (q * n) == q * (2 * n);
    }
    DivideUnique(x, 2 * n, q, x - 2 * Down(h, n));
  }
}
