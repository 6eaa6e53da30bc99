/** Why a deterministic automaton whose states are useful and pairwise distinguishable is minimal. */
module Minimality {
  import opened Automata
  import opened Counting

  /** No two states have the same right language. */
  ghost predicate Reduced(A: Nfa) {
    forall p, q | 0 <= p < q < A.size :: !SameRightLanguage(A, p, A, q)
  }

  lemma {:induction false} DeterministicRuns(A: Nfa, p1: seq<State>, p2: seq<State>, w: Word)
    requires A.Valid() && Deterministic(A) && IsRun(A, p1, w) && IsRun(A, p2, w) && p1[0] == p2[0]
    ensures p1 == p2
    decreases |w|
  {
    if w != [] {
      DeterministicStep(A, p1[0], w[0], p1[1], p2[1]);
      DeterministicRuns(A, p1[1..], p2[1..], w[1..]);
      assert p1 == [p1[0]] + p1[1..] && p2 == [p2[0]] + p2[1..];
    }
  }

  lemma OneInitial(A: Nfa, p: State, q: State)
    requires |A.initial| == 1 && p in A.initial && q in A.initial
    ensures p == q
  {
    SubsetSize({p, q}, A.initial);
    assert p != q ==> |{p, q}| == 2;
  }

  lemma SplitRun(A: Nfa, path: seq<State>, u: Word, v: Word)
    requires IsRun(A, path, u + v)
    ensures IsRun(A, path[..|u| + 1], u) && IsRun(A, path[|u|..], v)
  {
    forall i | 0 <= i < |u| ensures Step(A, path[i], u[i], path[i + 1]) {
      assert (u + v)[i] == u[i];
    }
    forall i | 0 <= i < |v| ensures Step(A, path[|u|..][i], v[i], path[|u|..][i + 1]) {
      assert Step(A, path[|u| + i], (u + v)[|u| + i], path[|u| + i + 1]);
    }
  }

  lemma {:induction false} FinalRunAccepts(A: Nfa, path: seq<State>, w: Word)
    requires IsRun(A, path, w) && path[|w|] in A.final
    ensures AcceptsFrom(A, path[0], w)
  {
    RunAccepts(A, path, w, []);
    assert w + [] == w;
  }

  /** In a deterministic automaton a state reached by `u` decides the words extending `u`. */
  lemma ReachedStateDecides(A: Nfa, q0: State, u: Word, p: State, v: Word)
    requires A.Valid() && Deterministic(A) && q0 in A.initial && ReadsTo(A, q0, u, p)
    ensures Accepts(A, u + v) <==> AcceptsFrom(A, p, v)
  {
    var path :| IsRun(A, path, u) && path[0] == q0 && path[|u|] == p;
    if AcceptsFrom(A, p, v) {
      RunAccepts(A, path, u, v);
    }
    if Accepts(A, u + v) {
      var q :| q in A.initial && AcceptsFrom(A, q, u + v);
      OneInitial(A, q, q0);
      var long := AcceptingRun(A, q, u + v);
      SplitRun(A, long, u, v);
      DeterministicRuns(A, path, long[..|u| + 1], u);
      FinalRunAccepts(A, long[|u|..], v);
    }
  }

  lemma SameDecisions(A: Nfa, q0: State, b: State, D: Nfa, d0: State, d: State, u: Word)
    requires A.Valid() && Deterministic(A) && D.Valid() && Deterministic(D) && SameLanguage(A, D)
    requires q0 in A.initial && ReadsTo(A, q0, u, b) && d0 in D.initial && ReadsTo(D, d0, u, d)
    ensures SameRightLanguage(A, b, D, d)
  {
    forall x: Word ensures AcceptsFrom(A, b, x) <==> AcceptsFrom(D, d, x) {
      ReachedStateDecides(A, q0, u, b, x);
      ReachedStateDecides(D, d0, u, d, x);
      assert Accepts(A, u + x) <==> Accepts(D, u + x);
    }
  }

  /** A word whose extension is accepted can be read. */
  lemma ReachAlong(D: Nfa, u: Word, v: Word) returns (d0: State, d: State)
    requires Accepts(D, u + v)
    ensures d0 in D.initial && ReadsTo(D, d0, u, d)
  {
    d0 :| d0 in D.initial && AcceptsFrom(D, d0, u + v);
    var path := AcceptingRun(D, d0, u + v);
    SplitRun(D, path, u, v);
    d := path[|u|];
    var toD := path[..|u| + 1];
    assert IsRun(D, toD, u) && toD[0] == d0 && toD[|u|] == d;
  }

  /** If `A` and `D` have the same language, the state of `D` reached by a word that leads `A` to
      `b` has the right language of `b`. */
  lemma Counterpart(A: Nfa, D: Nfa, b: State) returns (d: State)
    requires A.Valid() && Deterministic(A) && D.Valid() && Deterministic(D) && SameLanguage(A, D)
    requires Useful(A, b)
    ensures d < D.size && SameRightLanguage(A, b, D, d)
  {
    var q0, u :| q0 in A.initial && ReadsTo(A, q0, u, b);
    var v :| AcceptsFrom(A, b, v);
    ReachedStateDecides(A, q0, u, b, v);
    var d0;
    d0, d := ReachAlong(D, u, v);
    assert Reachable(D, d);
    ReachableIsState(D, d);
    SameDecisions(A, q0, b, D, d0, d, u);
  }

  /** The first `k` states of `A` have pairwise different counterparts in `D`. */
  lemma {:induction false} Counterparts(A: Nfa, D: Nfa, k: nat) returns (ds: seq<State>)
    requires A.Valid() && Deterministic(A) && D.Valid() && Deterministic(D) && SameLanguage(A, D)
    requires Trimmed(A) && Reduced(A) && k <= A.size
    ensures |ds| == k && Distinct(ds)
    ensures forall b | 0 <= b < k :: ds[b] < D.size && SameRightLanguage(A, b, D, ds[b])
  {
    ds := [];
    if k > 0 {
      var rest := Counterparts(A, D, k - 1);
      var d := Counterpart(A, D, k - 1);
      forall b | 0 <= b < k - 1 ensures rest[b] != d {
        assert !SameRightLanguage(A, b, A, k - 1);
        var w: Word :| !(AcceptsFrom(A, b, w) <==> AcceptsFrom(A, k - 1, w));
        assert AcceptsFrom(D, rest[b], w) <==> !AcceptsFrom(D, d, w);
      }
      ds := rest + [d];
    }
  }

  /** No deterministic automaton for the same language has fewer states. */
  lemma ReducedIsMinimal(A: Nfa, D: Nfa)
    requires A.Valid() && Deterministic(A) && Trimmed(A) && Reduced(A)
    requires D.Valid() && Deterministic(D) && SameLanguage(A, D)
    ensures A.size <= D.size
  {
    var ds := Counterparts(A, D, A.size);
    Pigeonhole(ds, D.size);
  }
}
