/** Sets of states: the subset construction as a function on words. */
module Macrostates {
  import opened Automata

  /** `StatePost::get_successors(symbol)` */
  function Targets(post: StatePost, a: Symbol): seq<State> {
    if post == [] then []
    else if post[0].symbol == a then post[0].targets
    else Targets(post[1..], a)
  }

  lemma {:induction false} TargetsAreSteps(post: StatePost, a: Symbol, p: State)
    requires forall i, j | 0 <= i < j < |post| :: post[i].symbol < post[j].symbol
    ensures p in Targets(post, a) <==> InPost(post, a, p)
  {
    if post != [] {
      TargetsAreSteps(post[1..], a, p);
      if InPost(post[1..], a, p) {
        var i :| 0 <= i < |post[1..]| && post[1..][i].symbol == a && p in post[1..][i].targets;
        assert post[i + 1] == post[1..][i];
      }
      if InPost(post, a, p) && post[0].symbol != a {
        var i :| 0 <= i < |post| && post[i].symbol == a && p in post[i].targets;
        assert post[1..][i - 1] == post[i];
      }
    }
  }

  /** The union of the targets of the states of `S` over `a`: what the synchronized existential
      iterator, stopped at `a`, unifies (the empty set when no state of `S` moves over `a`). */
  function PostSet(A: Nfa, S: StateSet, a: Symbol): StateSet {
    set q, p | q in S && p in Targets(A.At(q), a) :: p
  }

  lemma PostSetSteps(A: Nfa, S: StateSet, a: Symbol)
    requires A.Valid()
    ensures forall p :: p in PostSet(A, S, a) <==> exists q :: q in S && Step(A, q, a, p)
    ensures forall p <- PostSet(A, S, a) :: p < A.size
  {
    forall q: State, p: State ensures p in Targets(A.At(q), a) <==> Step(A, q, a, p) {
      assert q < |A.delta| ==> ValidPost(A.delta[q], A.size);
      TargetsAreSteps(A.At(q), a, p);
    }
    forall p | p in PostSet(A, S, a) ensures p < A.size {
      var q :| q in S && p in Targets(A.At(q), a);
      StepIsState(A, q, a, p);
    }
  }

  lemma PostSetMonotone(A: Nfa, S: StateSet, T: StateSet, a: Symbol)
    requires S <= T
    ensures PostSet(A, S, a) <= PostSet(A, T, a)
  {
  }

  /** The states reached from `S` by reading `w`. */
  function PostWord(A: Nfa, S: StateSet, w: Word): StateSet
    decreases |w|
  {
    if w == [] then S else PostWord(A, PostSet(A, S, w[0]), w[1..])
  }

  lemma {:induction false} PostWordConcat(A: Nfa, S: StateSet, u: Word, v: Word)
    ensures PostWord(A, S, u + v) == PostWord(A, PostWord(A, S, u), v)
    decreases |u|
  {
    if u == [] {
      assert u + v == v;
    } else {
      assert (u + v)[1..] == u[1..] + v;
      PostWordConcat(A, PostSet(A, S, u[0]), u[1..], v);
    }
  }

  lemma PostWordSnoc(A: Nfa, S: StateSet, u: Word, a: Symbol)
    ensures PostWord(A, S, u + [a]) == PostSet(A, PostWord(A, S, u), a)
  {
    PostWordConcat(A, S, u, [a]);
    assert PostWord(A, PostWord(A, S, u), [a]) == PostWord(A, PostSet(A, PostWord(A, S, u), a), []);
  }

  lemma {:induction false} PostWordStates(A: Nfa, S: StateSet, w: Word)
    requires A.Valid() && forall q <- S :: q < A.size
    ensures forall q <- PostWord(A, S, w) :: q < A.size
    decreases |w|
  {
    if w != [] {
      PostSetSteps(A, S, w[0]);
      PostWordStates(A, PostSet(A, S, w[0]), w[1..]);
    }
  }

  /** Some state of `S` accepts `w`. */
  ghost predicate SetAccepts(A: Nfa, S: StateSet, w: Word) {
    exists q :: q in S && AcceptsFrom(A, q, w)
  }

  lemma SetAcceptsStep(A: Nfa, S: StateSet, w: Word)
    requires A.Valid() && w != []
    ensures SetAccepts(A, S, w) <==> SetAccepts(A, PostSet(A, S, w[0]), w[1..])
  {
    PostSetSteps(A, S, w[0]);
    if SetAccepts(A, S, w) {
      var q :| q in S && AcceptsFrom(A, q, w);
      var p :| Step(A, q, w[0], p) && AcceptsFrom(A, p, w[1..]);
      assert p in PostSet(A, S, w[0]);
    }
    if SetAccepts(A, PostSet(A, S, w[0]), w[1..]) {
      var p :| p in PostSet(A, S, w[0]) && AcceptsFrom(A, p, w[1..]);
      var q :| q in S && Step(A, q, w[0], p);
      assert AcceptsFrom(A, q, w);
    }
  }

  /** The subset construction: `S` accepts `u + v` just if the macrostate reached by `u` accepts `v`. */
  lemma {:induction false} MacrostateDecides(A: Nfa, S: StateSet, u: Word, v: Word)
    requires A.Valid()
    ensures SetAccepts(A, S, u + v) <==> SetAccepts(A, PostWord(A, S, u), v)
    decreases |u|
  {
    if u == [] {
      assert u + v == v;
    } else {
      assert (u + v)[1..] == u[1..] + v;
      SetAcceptsStep(A, S, u + v);
      MacrostateDecides(A, PostSet(A, S, u[0]), u[1..], v);
    }
  }

  lemma FinalMacrostate(A: Nfa, S: StateSet)
    ensures SetAccepts(A, S, []) <==> !(S !! A.final)
  {
    if !(S !! A.final) {
      var q :| q in S && q in A.final;
      assert AcceptsFrom(A, q, []);
    }
  }

  /** A word is accepted just if it leads the initial macrostate to one with a final state. */
  lemma AcceptsByMacrostate(A: Nfa, w: Word)
    requires A.Valid()
    ensures Accepts(A, w) <==> !(PostWord(A, A.initial, w) !! A.final)
  {
    MacrostateDecides(A, A.initial, w, []);
    assert w + [] == w;
    FinalMacrostate(A, PostWord(A, A.initial, w));
    assert Accepts(A, w) <==> SetAccepts(A, A.initial, w);
  }
}
