/** Counting facts about finite sets and sequences of numbers. */
module Counting {

  /** {0, ..., n - 1} */
  function Below(n: nat): (r: set<nat>)
    ensures forall i: nat :: i in r <==> i < n
    ensures |r| == n
  {
    if n == 0 then {} else Below(n - 1) + {n - 1}
  }

  lemma {:induction false} SubsetSize<T>(a: set<T>, b: set<T>)
    requires a <= b
    ensures |a| <= |b|
  {
    if a != {} {
      var x :| x in a;
      SubsetSize(a - {x}, b - {x});
    }
  }

  ghost predicate Distinct<T>(s: seq<T>) {
    forall i, j | 0 <= i < j < |s| :: s[i] != s[j]
  }

  ghost function Elements<T>(s: seq<T>): set<T> {
    set x | x in s
  }

  lemma DistinctSnoc<T>(s: seq<T>, x: T)
    ensures Distinct(s + [x]) <==> Distinct(s) && x !in s
  {
    var r := s + [x];
    assert forall i | 0 <= i < |s| :: r[i] == s[i];
    assert r[|s|] == x;
  }

  lemma {:induction false} DistinctSize<T>(s: seq<T>)
    requires Distinct(s)
    ensures |Elements(s)| == |s|
  {
    if s != [] {
      var t := s[..|s| - 1];
      DistinctSize(t);
      assert s == t + [s[|s| - 1]];
      assert Elements(s) == Elements(t) + {s[|s| - 1]};
    }
  }

  /** Distinct numbers below `n` are at most `n` in number. */
  lemma Pigeonhole(s: seq<nat>, n: nat)
    requires Distinct(s) && forall x <- s :: x < n
    ensures |s| <= n
  {
    DistinctSize(s);
    SubsetSize(Elements(s), Below(n));
  }

  /** [a, a + 1, ..., b - 1] */
  function Range(a: nat, b: nat): (r: seq<nat>)
    requires a <= b
    ensures |r| == b - a && forall i | 0 <= i < b - a :: r[i] == a + i
    ensures forall x: nat :: x in r <==> a <= x < b
  {
    var r := seq(b - a, i requires 0 <= i < b - a => a + i);
    assert forall x: nat :: a <= x < b ==> x in r by {
      forall x: nat | a <= x < b ensures x in r {
        assert r[x - a] == x;
      }
    }
    r
  }

  lemma RangeSnoc(s: seq<nat>, a: nat, b: nat)
    requires a <= b
    ensures s + Range(a, b) + [b] == s + Range(a, b + 1)
  {
  }

  lemma RangeConcat(s: seq<nat>, a: nat, b: nat, c: nat)
    requires a <= b <= c
    ensures s + Range(a, b) + Range(b, c) == s + Range(a, c)
    ensures Range(a, b) + Range(b, c) == Range(a, c)
  {
  }

  lemma AppendRangeDistinct(s: seq<nat>, a: nat, b: nat)
    requires Distinct(s) && (forall x <- s :: x < a) && a <= b
    ensures Distinct(s + Range(a, b)) && forall x <- s + Range(a, b) :: x < b
  {
    assert forall i | 0 <= i < |s| :: (s + Range(a, b))[i] in s;
  }

  /** How often `a` occurs in `s`. */
  ghost function Occurrences(s: seq<nat>, a: nat): nat {
    if s == [] then 0
    else Occurrences(s[..|s| - 1], a) + if s[|s| - 1] == a then 1 else 0
  }

  lemma OccurrencesSnoc(s: seq<nat>, k: nat, a: nat)
    requires k < |s|
    ensures Occurrences(s[..k + 1], a) == Occurrences(s[..k], a) + if s[k] == a then 1 else 0
  {
    assert s[..k + 1][..k] == s[..k];
  }

  lemma OccurrencesAppend(s: seq<nat>, x: nat, a: nat)
    ensures Occurrences(s + [x], a) == Occurrences(s, a) + if x == a then 1 else 0
  {
    assert (s + [x])[..|s|] == s;
  }

  lemma {:induction false} OccurrencesMonotone(s: seq<nat>, j: nat, k: nat, a: nat)
    requires j <= k <= |s|
    ensures Occurrences(s[..j], a) <= Occurrences(s[..k], a)
    decreases k - j
  {
    if j < k {
      OccurrencesMonotone(s, j, k - 1, a);
      OccurrencesSnoc(s, k - 1, a);
    }
  }

  lemma {:induction false} OccursOnlyIfElement(s: seq<nat>, a: nat)
    ensures Occurrences(s, a) > 0 <==> a in s
  {
    if s != [] {
      OccursOnlyIfElement(s[..|s| - 1], a);
      assert s == s[..|s| - 1] + [s[|s| - 1]];
    }
  }

  ghost function Sum(s: seq<nat>): nat {
    if s == [] then 0 else Sum(s[..|s| - 1]) + s[|s| - 1]
  }

  lemma SumSnoc(s: seq<nat>, x: nat)
    ensures Sum(s + [x]) == Sum(s) + x
  {
    assert (s + [x])[..|s|] == s;
  }

  lemma {:induction false} SumUpdate(s: seq<nat>, i: nat, x: nat)
    requires i < |s|
    ensures Sum(s[i := x]) == Sum(s) - s[i] + x
  {
    if i == |s| - 1 {
      assert s[i := x][..|s| - 1] == s[..|s| - 1];
    } else {
      SumUpdate(s[..|s| - 1], i, x);
      assert s[i := x][..|s| - 1] == s[..|s| - 1][i := x];
    }
  }

  lemma {:induction false} SumPrefix(s: seq<nat>, i: nat)
    requires i <= |s|
    ensures Sum(s[..i]) <= Sum(s)
  {
    if i == |s| {
      assert s[..i] == s;
    } else {
      SumPrefix(s[..|s| - 1], i);
      assert s[..|s| - 1][..i] == s[..i];
    }
  }

  lemma {:induction false} SumBound(s: seq<nat>, k: nat)
    requires forall i | 0 <= i < |s| :: s[i] <= k
    ensures Sum(s) <= |s| * k
  {
    if s != [] {
      SumBound(s[..|s| - 1], k);
      assert |s| * k == (|s| - 1) * k + k;
    }
  }

  function Pow2(k: nat): nat {
    if k == 0 then 1 else 2 * Pow2(k - 1)
  }

  lemma {:induction false} Pow2Monotone(j: nat, k: nat)
    requires j <= k
    ensures Pow2(j) <= Pow2(k)
    decreases k - j
  {
    if j < k { Pow2Monotone(j, k - 1); }
  }

  /** The binary logarithm, rounded down */
  function Log2(n: nat): (k: nat)
    requires n > 0
    ensures Pow2(k) <= n < Pow2(k + 1)
  {
    if n == 1 then 0 else Log2(n / 2) + 1
  }

  lemma AtMostLog2(k: nat, n: nat)
    requires n > 0 && Pow2(k) <= n
    ensures k <= Log2(n)
  {
    if k > Log2(n) { Pow2Monotone(Log2(n) + 1, k); }
  }

  /** Every counter with an index in `M` incremented by one. */
  ghost function Bump(counters: seq<nat>, M: set<nat>): seq<nat> {
    seq(|counters|, i requires 0 <= i < |counters| => counters[i] + if i in M then 1 else 0)
  }

  /** The sequence backwards */
  function Reversed<T>(w: seq<T>): (r: seq<T>)
    ensures |r| == |w|
  {
    if w == [] then [] else [w[|w| - 1]] + Reversed(w[..|w| - 1])
  }

  lemma {:induction false} ReversedCons<T>(a: T, w: seq<T>)
    ensures Reversed([a] + w) == Reversed(w) + [a]
  {
    if w != [] {
      assert ([a] + w)[..|w|] == [a] + w[..|w| - 1];
      ReversedCons(a, w[..|w| - 1]);
    }
  }

  lemma {:induction false} ReversedTwice<T>(w: seq<T>)
    ensures Reversed(Reversed(w)) == w
  {
    if w != [] {
      ReversedCons(w[|w| - 1], Reversed(w[..|w| - 1]));
      ReversedTwice(w[..|w| - 1]);
    }
  }

  lemma {:induction false} ReversedConcat<T>(u: seq<T>, v: seq<T>)
    ensures Reversed(u + v) == Reversed(v) + Reversed(u)
  {
    if v == [] {
      assert u + v == u;
    } else {
      assert (u + v)[..|u + v| - 1] == u + v[..|v| - 1];
      ReversedConcat(u, v[..|v| - 1]);
    }
  }
}
