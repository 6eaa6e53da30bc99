/** Minimisation by reversing and determinizing twice (minimize_brzozowski of src/nfa/operations.cc). */
module Brzozowski {
  import opened Automata
  import opened Counting
  import opened DeltaRelation
  import opened Macrostates
  import opened Distances
  import opened Minimality
  import opened Determinization

  /** The reverse automaton accepts the words read backwards. */
  lemma ReversedLanguage(A: Nfa, R: Nfa, w: Word)
    requires IsReverse(A, R)
    ensures Accepts(R, w) <==> Accepts(A, Reversed(w))
  {
    hide AcceptsFrom, ReachedBy, Step;
    if Accepts(R, w) {
      var q := AcceptsReachesFinal(R, w);
      ReverseReached(A, R, w, q);
    }
    if Accepts(A, Reversed(w)) {
      var q :| q in A.initial && AcceptsFrom(A, q, Reversed(w));
      ReverseReached(A, R, w, q);
      ReachedFinalAccepts(R, w, q);
    }
  }

  /** In a deterministic automaton a word leads to one state only. */
  lemma ReachedUnique(A: Nfa, w: Word, p: State, q: State)
    requires A.Valid() && Deterministic(A) && ReachedBy(A, w, p) && ReachedBy(A, w, q)
    ensures p == q
  {
    var p0 :| p0 in A.initial && ReadsTo(A, p0, w, p);
    var q0 :| q0 in A.initial && ReadsTo(A, q0, w, q);
    OneInitial(A, p0, q0);
    var path1 :| IsRun(A, path1, w) && path1[0] == p0 && path1[|w|] == p;
    var path2 :| IsRun(A, path2, w) && path2[0] == q0 && path2[|w|] == q;
    DeterministicRuns(A, path1, path2, w);
  }

  /** In the reverse of a deterministic automaton, states have disjoint right languages. */
  lemma ReverseDisjoint(D: Nfa, E: Nfa, p: State, q: State, v: Word)
    requires D.Valid() && Deterministic(D) && IsReverse(D, E) && E.Valid()
    requires AcceptsFrom(E, p, v) && AcceptsFrom(E, q, v)
    ensures p == q
  {
    ReverseAccepted(D, E, p, v);
    ReverseAccepted(D, E, q, v);
    ReachedUnique(D, Reversed(v), p, q);
  }

  lemma ReverseAccepted(D: Nfa, E: Nfa, p: State, v: Word)
    requires IsReverse(D, E)
    ensures AcceptsFrom(E, p, v) <==> ReachedBy(D, Reversed(v), p)
  {
    assert IsReverse(E, D);
    ReverseReached(E, D, Reversed(v), p);
    ReversedTwice(v);
  }

  /** Distinct macrostates over states with disjoint, non-empty right languages differ. */
  lemma MacrostatesDiffer(D: Nfa, E: Nfa, S: StateSet, T: StateSet, q: State, v: Word)
    requires D.Valid() && Deterministic(D) && IsReverse(D, E) && E.Valid()
    requires q in S && q !in T && AcceptsFrom(E, q, v)
    ensures SetAccepts(E, S, v) && !SetAccepts(E, T, v)
  {
    if SetAccepts(E, T, v) {
      var p :| p in T && AcceptsFrom(E, p, v);
      ReverseDisjoint(D, E, p, q, v);
    }
  }

  lemma MacrostateAccepts(E: Nfa, S: StateSet, v: Word)
    requires E.Valid()
    ensures SetAccepts(E, S, v) <==> !(PostWord(E, S, v) !! E.final)
  {
    MacrostateDecides(E, S, v, []);
    assert v + [] == v;
    FinalMacrostate(E, PostWord(E, S, v));
  }

  /** A word of `E` that tells two numbered macrostates apart. */
  lemma NamesDiffer(A: Nfa, D: Nfa, names1: seq<StateSet>, E: Nfa, M: Nfa, names: seq<StateSet>, r: State, s: State)
    requires D.Valid() && Deterministic(D) && IsSubsetAutomaton(A, D, names1) && IsReverse(D, E) && E.Valid()
    requires IsSubsetAutomaton(E, M, names) && r < |names| && s < |names|
    requires (forall q <- names[r] :: q < D.size) && !(names[r] <= names[s])
    ensures !SameRightLanguage(M, r, M, s)
  {
    var q: State :| q in names[r] && q !in names[s];
    var u := SubsetReached(A, D, names1, q);
    var v := Reversed(u);
    ReversedTwice(u);
    ReverseAccepted(D, E, q, v);
    hide *;
    MacrostatesDiffer(D, E, names[r], names[s], q, v);
    MacrostateAccepts(E, names[r], v);
    MacrostateAccepts(E, names[s], v);
    SubsetRightLanguage(E, M, names, r, v);
    SubsetRightLanguage(E, M, names, s, v);
    NotSame(M, r, s, v);
  }

  lemma NotSame(M: Nfa, r: State, s: State, v: Word)
    requires AcceptsFrom(M, r, v) && !AcceptsFrom(M, s, v)
    ensures !SameRightLanguage(M, r, M, s) && !SameRightLanguage(M, s, M, r)
  {
  }

  lemma {:induction false} NamedStates(E: Nfa, names: seq<StateSet>, r: State)
    requires E.Valid() && Named(E, names) && r < |names|
    ensures forall q <- names[r] :: q < E.size
  {
    if r > 0 {
      assert HasParent(E, names, r);
      var p: State, a :| p < r && SubsetMove(E, names, p, a, r);
      PostSetSteps(E, names[p], a);
    }
  }

  /** No two states of the result have the same right language. */
  lemma SecondIsReduced(A: Nfa, D: Nfa, names1: seq<StateSet>, E: Nfa, M: Nfa, names: seq<StateSet>)
    requires D.Valid() && Deterministic(D) && IsSubsetAutomaton(A, D, names1) && IsReverse(D, E) && E.Valid()
    requires IsSubsetAutomaton(E, M, names)
    ensures Reduced(M)
  {
    hide SubsetMove, SuccessorsNamed, HasParent, Step, SameRightLanguage;
    forall r: State, s: State | r < s < M.size ensures !SameRightLanguage(M, r, M, s) {
      assert names[r] != names[s];
      NamedStates(E, names, r);
      NamedStates(E, names, s);
      if !(names[r] <= names[s]) {
        NamesDiffer(A, D, names1, E, M, names, r, s);
      } else {
        assert !(names[s] <= names[r]);
        NamesDiffer(A, D, names1, E, M, names, s, r);
        SameSymmetric(M, r, s);
      }
    }
  }

  lemma SameSymmetric(M: Nfa, r: State, s: State)
    ensures SameRightLanguage(M, r, M, s) ==> SameRightLanguage(M, s, M, r)
  {
  }

  /** Every state of the result is useful, unless it is the only one. */
  lemma SecondIsTrimmed(A: Nfa, D: Nfa, names1: seq<StateSet>, E: Nfa, M: Nfa, names: seq<StateSet>)
    requires D.Valid() && Deterministic(D) && IsSubsetAutomaton(A, D, names1) && IsReverse(D, E) && E.Valid()
    requires IsSubsetAutomaton(E, M, names) && E.initial != {}
    ensures Trimmed(M)
  {
    forall r: State | r < M.size ensures Useful(M, r) {
      hide SuccessorsNamed, Step, Nfa.Valid, AcceptsFrom;
      var w := SubsetReached(E, M, names, r);
      assert Reachable(M, r);
      assert names[r] != {} by {
        if r > 0 { LaterNonEmpty(E, names, r); }
      }
      var q :| q in names[r];
      NamedStates(E, names, r);
      var u := SubsetReached(A, D, names1, q);
      var v := Reversed(u);
      ReversedTwice(u);
      ReverseAccepted(D, E, q, v);
      assert SetAccepts(E, names[r], v);
      MacrostateAccepts(E, names[r], v);
      SubsetRightLanguage(E, M, names, r, v);
    }
  }

  /** No deterministic automaton for the language is smaller. */
  lemma SecondIsMinimal(A: Nfa, D: Nfa, names1: seq<StateSet>, E: Nfa, M: Nfa, names: seq<StateSet>, B: Nfa)
    requires D.Valid() && Deterministic(D) && IsSubsetAutomaton(A, D, names1) && IsReverse(D, E) && E.Valid()
    requires IsSubsetAutomaton(E, M, names) && M.Valid() && Deterministic(M)
    requires B.Valid() && Deterministic(B) && SameLanguage(M, B)
    ensures M.size <= B.size
  {
    if E.initial == {} {
      assert |names| == 1 by {
        if |names| > 1 { FirstNonEmpty(E, names); }
      }
      var q :| q in B.initial;
    } else {
      SecondIsTrimmed(A, D, names1, E, M, names);
      SecondIsReduced(A, D, names1, E, M, names);
      ReducedIsMinimal(M, B);
    }
  }

  lemma LanguageOfSecond(A: Nfa, R: Nfa, D: Nfa, E: Nfa, M: Nfa)
    requires A.Valid() && R.Valid() && D.Valid() && E.Valid()
    requires IsReverse(A, R) && SameLanguage(R, D) && IsReverse(D, E) && SameLanguage(E, M)
    ensures SameLanguage(A, M)
  {
    forall w: Word ensures Accepts(A, w) <==> Accepts(M, w) {
      ReversedTwice(w);
      ReversedLanguage(A, R, Reversed(w));
      ReversedLanguage(D, E, w);
    }
  }

  /** `minimize_brzozowski`: for every automaton, a smallest deterministic automaton with its language. */
  method MinimizeBrzozowski(A: Nfa) returns (M: Nfa)
    requires A.Valid()
    ensures M.Valid() && Deterministic(M) && SameLanguage(A, M)
    ensures Reduced(M)
    ensures forall B: Nfa | B.Valid() && Deterministic(B) && SameLanguage(M, B) :: M.size <= B.size
    ensures forall r: State | r < M.size :: Reachable(M, r)
    ensures forall a | Occurs(M, a) :: Occurs(A, a)
  {
    hide *;
    ghost var names1, names;
    var R := Revert(A);
    var D;
    D, names1 := Determinize(R);
    var E := Revert(D);
    M, names := Determinize(E);
    LanguageOfSecond(A, R, D, E, M);
    SecondIsReduced(R, D, names1, E, M, names);
    forall B: Nfa | B.Valid() && Deterministic(B) && SameLanguage(M, B) ensures M.size <= B.size {
      SecondIsMinimal(R, D, names1, E, M, names, B);
    }
    AllReachable(E, M, names);
    forall a | Occurs(M, a) ensures Occurs(A, a) {
      SubsetSymbols(E, M, names, a);
      ReverseSymbols(D, E, a);
      SubsetSymbols(R, D, names1, a);
      ReverseSymbols(A, R, a);
    }
  }

  lemma ReverseSymbols(A: Nfa, R: Nfa, a: Symbol)
    requires IsReverse(A, R) && Occurs(R, a)
    ensures Occurs(A, a)
  {
    hide Step;
    var q: State, p: State :| Step(R, q, a, p);
    assert Step(A, p, a, q);
  }

  lemma AllReachable(A: Nfa, D: Nfa, names: seq<StateSet>)
    requires IsSubsetAutomaton(A, D, names)
    ensures forall r: State | r < D.size :: Reachable(D, r)
  {
    forall r: State | r < D.size ensures Reachable(D, r) {
      var w := SubsetReached(A, D, names, r);
    }
  }
}
