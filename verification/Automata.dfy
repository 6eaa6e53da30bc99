/** The automaton model shared by every algorithm: sorted per-state posts, initial and final
    sets, and the language read off them.  A `StateSet` (an ordered vector in the library) and
    a `SparseSet` are modelled by the mathematical set they represent; the posts stay sequences
    because the algorithms iterate over them in order. */
module Automata {
  import opened Counting

  type State = nat
  type Symbol = nat
  type Word = seq<Symbol>
  type StateSet = set<State>

  /** The largest symbol; a symbol like others unless an algorithm is told otherwise */
  const EPSILON: Symbol := 0xFFFF_FFFF

  datatype SymbolPost = SymbolPost(symbol: Symbol, targets: seq<State>)
  type StatePost = seq<SymbolPost>
  datatype Move = Move(symbol: Symbol, target: State)
  datatype Run = Run(word: Word, path: seq<State>)

  /** `size` is the number of states; `delta` may be shorter, the missing posts being empty. */
  datatype Nfa = Nfa(size: nat, delta: seq<StatePost>, initial: StateSet, final: StateSet) {
    function At(q: State): StatePost {
      if q < |delta| then delta[q] else []
    }

    ghost predicate Valid() {
      && |delta| <= size
      && (forall q <- initial :: q < size)
      && (forall q <- final :: q < size)
      && (forall q | 0 <= q < |delta| :: ValidPost(delta[q], size))
    }
  }

  ghost predicate StrictlySorted(s: seq<nat>) {
    forall i, j | 0 <= i < j < |s| :: s[i] < s[j]
  }

  /** Symbols strictly increase; every symbol post has targets, all of them states. */
  ghost predicate ValidPost(post: StatePost, size: nat) {
    && (forall i, j | 0 <= i < j < |post| :: post[i].symbol < post[j].symbol)
    && (forall i | 0 <= i < |post| ::
          && post[i].targets != []
          && StrictlySorted(post[i].targets)
          && (forall k | 0 <= k < |post[i].targets| :: post[i].targets[k] < size))
  }

  ghost predicate InPost(post: StatePost, a: Symbol, p: State) {
    exists i :: 0 <= i < |post| && post[i].symbol == a && p in post[i].targets
  }

  /** There is a transition q --a--> p. */
  ghost predicate Step(A: Nfa, q: State, a: Symbol, p: State) {
    InPost(A.At(q), a, p)
  }

  /** Some transition is over `a`. */
  ghost predicate Occurs(A: Nfa, a: Symbol) {
    exists q: State, p: State :: Step(A, q, a, p)
  }

  // ---------- Language ----------

  ghost predicate AcceptsFrom(A: Nfa, q: State, w: Word)
    decreases |w|
  {
    if w == [] then q in A.final
    else exists p :: Step(A, q, w[0], p) && AcceptsFrom(A, p, w[1..])
  }

  ghost predicate Accepts(A: Nfa, w: Word) {
    exists q :: q in A.initial && AcceptsFrom(A, q, w)
  }

  ghost predicate SameLanguage(A: Nfa, B: Nfa) {
    forall w: Word :: Accepts(A, w) <==> Accepts(B, w)
  }

  /** The right languages of `p` in `A` and of `q` in `B` coincide. */
  ghost predicate SameRightLanguage(A: Nfa, p: State, B: Nfa, q: State) {
    forall w: Word :: AcceptsFrom(A, p, w) <==> AcceptsFrom(B, q, w)
  }

  // ---------- Runs ----------

  ghost predicate IsRun(A: Nfa, path: seq<State>, w: Word) {
    && |path| == |w| + 1
    && (forall i | 0 <= i < |w| :: Step(A, path[i], w[i], path[i + 1]))
  }

  ghost predicate ReadsTo(A: Nfa, q: State, w: Word, p: State) {
    exists path :: IsRun(A, path, w) && path[0] == q && path[|w|] == p
  }

  ghost predicate Reachable(A: Nfa, p: State) {
    exists q, w :: q in A.initial && ReadsTo(A, q, w, p)
  }

  ghost predicate CoReachable(A: Nfa, q: State) {
    exists w :: AcceptsFrom(A, q, w)
  }

  ghost predicate Useful(A: Nfa, q: State) {
    Reachable(A, q) && CoReachable(A, q)
  }

  ghost predicate Trimmed(A: Nfa) {
    forall q | 0 <= q < A.size :: Useful(A, q)
  }

  /** One initial state and one target in every symbol post, as `is_deterministic` tests. */
  ghost predicate Deterministic(A: Nfa) {
    && |A.initial| == 1
    && (forall q, i | 0 <= q < |A.delta| && 0 <= i < |A.delta[q]| :: |A.delta[q][i].targets| == 1)
  }

  // ---------- Enumerating transitions ----------

  datatype Transition = Transition(source: State, symbol: Symbol, target: State)

  /** The moves of a single symbol post. */
  function TargetMoves(last: SymbolPost): (r: seq<Move>)
    ensures forall m :: m in r <==> m.symbol == last.symbol && m.target in last.targets
    ensures StrictlySorted(last.targets) ==> Distinct(r)
  {
    var r := seq(|last.targets|, i requires 0 <= i < |last.targets| => Move(last.symbol, last.targets[i]));
    assert forall m: Move | m.symbol == last.symbol && m.target in last.targets :: m in r by {
      forall m: Move | m.symbol == last.symbol && m.target in last.targets ensures m in r {
        var i :| 0 <= i < |last.targets| && last.targets[i] == m.target;
        assert r[i] == m;
      }
    }
    r
  }

  /** The moves of a state post in iteration order: by symbol, then by target. */
  function Moves(post: StatePost): seq<Move> {
    if post == [] then [] else Moves(post[..|post| - 1]) + TargetMoves(post[|post| - 1])
  }

  lemma InPostSnoc(post: StatePost, a: Symbol, p: State)
    requires post != []
    ensures InPost(post, a, p) <==>
            InPost(post[..|post| - 1], a, p) || (post[|post| - 1].symbol == a && p in post[|post| - 1].targets)
  {
    var init := post[..|post| - 1];
    if InPost(init, a, p) {
      var i :| 0 <= i < |init| && init[i].symbol == a && p in init[i].targets;
      assert post[i] == init[i];
    }
    if InPost(post, a, p) {
      var i :| 0 <= i < |post| && post[i].symbol == a && p in post[i].targets;
      assert i < |init| ==> post[i] == init[i];
    }
  }

  lemma {:induction false} MovesEnumeratePost(post: StatePost, size: nat)
    requires ValidPost(post, size)
    ensures forall m :: m in Moves(post) <==> InPost(post, m.symbol, m.target)
    ensures Distinct(Moves(post))
  {
    if post != [] {
      var init, last := post[..|post| - 1], post[|post| - 1];
      MovesEnumeratePost(init, size);
      forall m ensures m in Moves(post) <==> InPost(post, m.symbol, m.target) {
        InPostSnoc(post, m.symbol, m.target);
      }
      forall m | m in Moves(init) ensures m.symbol != last.symbol {
        assert InPost(init, m.symbol, m.target);
      }
    }
  }

  /** The transitions of a single source state. */
  function SourceTransitions(q: State, moves: seq<Move>): (r: seq<Transition>)
    ensures |r| == |moves|
    ensures forall x: Transition :: x in r <==> x.source == q && Move(x.symbol, x.target) in moves
    ensures Distinct(moves) ==> Distinct(r)
  {
    var r := seq(|moves|, i requires 0 <= i < |moves| => Transition(q, moves[i].symbol, moves[i].target));
    assert forall x: Transition | x.source == q && Move(x.symbol, x.target) in moves :: x in r by {
      forall x: Transition | x.source == q && Move(x.symbol, x.target) in moves ensures x in r {
        var i :| 0 <= i < |moves| && moves[i] == Move(x.symbol, x.target);
        assert r[i] == x;
      }
    }
    r
  }

  /** All transitions in the order of `Delta::transitions()`: by source, symbol and target. */
  function Transitions(delta: seq<StatePost>): seq<Transition> {
    if delta == [] then []
    else Transitions(delta[..|delta| - 1]) + SourceTransitions(|delta| - 1, Moves(delta[|delta| - 1]))
  }

  lemma {:induction false} TransitionsEnumerateDelta(delta: seq<StatePost>, size: nat)
    requires forall q | 0 <= q < |delta| :: ValidPost(delta[q], size)
    ensures forall x: Transition :: x in Transitions(delta) <==> x.source < |delta| && InPost(delta[x.source], x.symbol, x.target)
    ensures Distinct(Transitions(delta))
  {
    if delta != [] {
      var q := |delta| - 1;
      TransitionsEnumerateDelta(delta[..q], size);
      MovesEnumeratePost(delta[q], size);
      forall x ensures x in Transitions(delta) <==> x.source < |delta| && InPost(delta[x.source], x.symbol, x.target) {
        assert x.source < q ==> delta[..q][x.source] == delta[x.source];
        assert x.source == q ==> (Move(x.symbol, x.target) in Moves(delta[q]) <==> InPost(delta[q], x.symbol, x.target));
      }
    }
  }

  lemma TransitionsAreSteps(A: Nfa)
    requires A.Valid()
    ensures forall x :: x in Transitions(A.delta) <==> Step(A, x.source, x.symbol, x.target)
    ensures Distinct(Transitions(A.delta))
  {
    TransitionsEnumerateDelta(A.delta, A.size);
  }

  // ---------- Basic facts ----------

  lemma AcceptsFromStep(A: Nfa, q: State, w: Word)
    requires w != []
    ensures AcceptsFrom(A, q, w) <==> exists p: State :: Step(A, q, w[0], p) && AcceptsFrom(A, p, w[1..])
  {
  }

  lemma AcceptingStep(A: Nfa, q: State, w: Word) returns (p: State)
    requires w != [] && AcceptsFrom(A, q, w)
    ensures Step(A, q, w[0], p) && AcceptsFrom(A, p, w[1..])
  {
    p :| Step(A, q, w[0], p) && AcceptsFrom(A, p, w[1..]);
  }

  lemma StepAccepts(A: Nfa, q: State, w: Word, p: State)
    requires w != [] && Step(A, q, w[0], p) && AcceptsFrom(A, p, w[1..])
    ensures AcceptsFrom(A, q, w)
  {
  }

  lemma StepIsState(A: Nfa, q: State, a: Symbol, p: State)
    requires A.Valid() && Step(A, q, a, p)
    ensures q < |A.delta| && q < A.size && p < A.size
  {
    assert ValidPost(A.delta[q], A.size);
  }

  lemma DeterministicStep(A: Nfa, q: State, a: Symbol, p: State, r: State)
    requires A.Valid() && Deterministic(A)
    requires Step(A, q, a, p) && Step(A, q, a, r)
    ensures p == r
  {
    assert ValidPost(A.delta[q], A.size);
    var i :| 0 <= i < |A.At(q)| && A.At(q)[i].symbol == a && p in A.At(q)[i].targets;
    var j :| 0 <= j < |A.At(q)| && A.At(q)[j].symbol == a && r in A.At(q)[j].targets;
    assert i == j;
    assert |A.delta[q][i].targets| == 1;
  }

  lemma {:induction false} AcceptingRun(A: Nfa, q: State, w: Word) returns (path: seq<State>)
    requires AcceptsFrom(A, q, w)
    ensures |path| == |w| + 1 && IsRun(A, path, w) && path[0] == q && path[|w|] in A.final
    decreases |w|
  {
    if w == [] {
      path := [q];
    } else {
      var p :| Step(A, q, w[0], p) && AcceptsFrom(A, p, w[1..]);
      var rest := AcceptingRun(A, p, w[1..]);
      path := [q] + rest;
    }
  }

  lemma {:induction false} RunAccepts(A: Nfa, path: seq<State>, u: Word, v: Word)
    requires IsRun(A, path, u) && AcceptsFrom(A, path[|u|], v)
    ensures AcceptsFrom(A, path[0], u + v)
    decreases |u|
  {
    if u == [] {
      assert u + v == v;
    } else {
      RunAccepts(A, path[1..], u[1..], v);
      assert (u + v)[1..] == u[1..] + v;
      assert Step(A, path[0], (u + v)[0], path[1]);
    }
  }

  lemma RunAppend(A: Nfa, path: seq<State>, w: Word, a: Symbol, p: State)
    requires IsRun(A, path, w) && Step(A, path[|w|], a, p)
    ensures IsRun(A, path + [p], w + [a])
  {
  }

  lemma RunConcat(A: Nfa, p1: seq<State>, w1: Word, p2: seq<State>, w2: Word)
    requires IsRun(A, p1, w1) && IsRun(A, p2, w2) && p1[|w1|] == p2[0]
    ensures IsRun(A, p1 + p2[1..], w1 + w2)
    ensures (p1 + p2[1..])[|w1 + w2|] == p2[|w2|]
  {
    var path, w := p1 + p2[1..], w1 + w2;
    forall i | 0 <= i < |w| ensures Step(A, path[i], w[i], path[i + 1]) {
      if i >= |w1| {
        var k := i - |w1|;
        assert Step(A, p2[k], w2[k], p2[k + 1]);
      } else {
        assert Step(A, p1[i], w1[i], p1[i + 1]);
      }
    }
  }

  lemma ReachableIsState(A: Nfa, p: State)
    requires A.Valid() && Reachable(A, p)
    ensures p < A.size
  {
    var q, w :| q in A.initial && ReadsTo(A, q, w, p);
    var path :| IsRun(A, path, w) && path[0] == q && path[|w|] == p;
    if w != [] {
      assert Step(A, path[|w| - 1], w[|w| - 1], path[|w| - 1 + 1]);
      StepIsState(A, path[|w| - 1], w[|w| - 1], p);
    }
  }
}
