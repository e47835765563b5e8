/** Totals of a weight over the threads of a protocol. */
module Totals {

  ghost function Total<T>(f: T -> nat, s: seq<T>): nat {
    if s == [] then 0 else f(s[0]) + Total(f, s[1..])
  }

  /** One thread moves: the total changes by the difference of its weights. */
  lemma {:induction false} TotalUpdate<T>(f: T -> nat, s: seq<T>, t: nat, x: T)
    requires t < |s|
    ensures Total(f, s[t := x]) + f(s[t]) == Total(f, s) + f(x)
    ensures f(s[t]) <= Total(f, s)
  {
    if t == 0 {
      assert s[t := x][1..] == s[1..];
    } else {
      TotalUpdate(f, s[1..], t - 1, x);
      assert s[t := x][1..] == s[1..][t - 1 := x];
    }
  }

  lemma {:induction false} TotalPositive<T>(f: T -> nat, s: seq<T>) returns (t: nat)
    requires Total(f, s) > 0
    ensures t < |s| && f(s[t]) > 0
  {
    if f(s[0]) > 0 {
      t := 0;
    } else {
      var u := TotalPositive(f, s[1..]);
      t := u + 1;
    }
  }

  lemma {:induction false} TotalUniform<T>(f: T -> nat, s: seq<T>, w: nat)
    requires forall t :: 0 <= t < |s| ==> f(s[t]) == w
    ensures Total(f, s) == |s| * w
  {
    if s != [] {
      TotalUniform(f, s[1..], w);
      assert |s| * w == w + |s[1..]| * w;
    }
  }

  lemma {:induction false} TotalAtMost<T>(f: T -> nat, s: seq<T>)
    requires forall t :: 0 <= t < |s| ==> f(s[t]) <= 1
    ensures Total(f, s) <= |s|
  {
    if s != [] {
      TotalAtMost(f, s[1..]);
    }
  }
}
