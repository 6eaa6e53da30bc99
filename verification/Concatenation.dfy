/** Concatenation in place, also of an automaton with itself, and powers by repeated squaring
    (src/nfa/concatenation.cc). */
module Concatenation {
  import opened Automata
  import opened DeltaRelation
  import opened Languages

  /** There is a transition of `B` from `q` to `p`, all states of `B` being moved up by `n`. */
  ghost predicate MovedStep(B: Nfa, n: nat, q: State, a: Symbol, p: State) {
    q >= n && p >= n && Step(B, q - n, a, p - n)
  }

  /** A transition of `B` from an initial state */
  ghost predicate InitialStep(B: Nfa, n: nat, a: Symbol, p: State) {
    exists i: State :: i in B.initial && p >= n && Step(B, i, a, p - n)
  }

  ghost predicate AcceptsEmpty(B: Nfa) {
    exists i: State :: i in B.initial && i in B.final
  }

  /** `C` is `A` followed by `B`, whose states are moved up: final states of `A` get the transitions
      of the initial states of `B`. */
  ghost predicate IsConcatenation(A: Nfa, B: Nfa, C: Nfa) {
    && C.size == A.size + B.size && C.initial == A.initial
    && (forall q: State :: q in C.final <==> (q >= A.size && q - A.size in B.final) || (q in A.final && AcceptsEmpty(B)))
    && (forall q: State, a, p: State :: Step(C, q, a, p) <==>
          Step(A, q, a, p) || MovedStep(B, A.size, q, a, p) || (q in A.final && InitialStep(B, A.size, a, p)))
  }

  /** The moved copy of `B` keeps its right languages. */
  lemma {:induction false} MovedRightLanguage(A: Nfa, B: Nfa, C: Nfa, q: State, w: Word)
    requires A.Valid() && B.Valid() && IsConcatenation(A, B, C) && q >= A.size
    ensures AcceptsFrom(C, q, w) <==> AcceptsFrom(B, q - A.size, w)
    decreases |w|
  {
    hide Step, Nfa.Valid, IsConcatenation;
    if w == [] {
      MovedFinal(A, B, C, q);
    } else {
      hide AcceptsFrom;
      MovedSteps(A, B, C, q, w[0]);
      if AcceptsFrom(B, q - A.size, w) {
        var p := AcceptingStep(B, q - A.size, w);
        var r := p + A.size;
        assert r - A.size == p && MovedStep(B, A.size, q, w[0], r);
        MovedRightLanguage(A, B, C, r, w[1..]);
        StepAccepts(C, q, w, r);
      }
      if AcceptsFrom(C, q, w) {
        var p := AcceptingStep(C, q, w);
        assert MovedStep(B, A.size, q, w[0], p);
        MovedRightLanguage(A, B, C, p, w[1..]);
        StepAccepts(B, q - A.size, w, p - A.size);
      }
    }
  }

  lemma MovedFinal(A: Nfa, B: Nfa, C: Nfa, q: State)
    requires A.Valid() && IsConcatenation(A, B, C) && q >= A.size
    ensures q in C.final <==> q - A.size in B.final
  {
    hide Step, MovedStep, InitialStep;
    assert q !in A.final;
  }

  lemma MovedSteps(A: Nfa, B: Nfa, C: Nfa, q: State, a: Symbol)
    requires A.Valid() && IsConcatenation(A, B, C) && q >= A.size
    ensures forall p: State :: Step(C, q, a, p) <==> MovedStep(B, A.size, q, a, p)
  {
    forall p: State ensures !Step(A, q, a, p) {
      if Step(A, q, a, p) { StepIsState(A, q, a, p); }
    }
    assert q !in A.final;
    hide Step, MovedStep, InitialStep, ValidPost;
  }

  /** A word accepted from a state of the first part is split where the second begins. */
  ghost predicate SplitAccepted(A: Nfa, B: Nfa, q: State, w: Word) {
    exists u: Word, v: Word :: Splits(w, u, v) && AcceptsFrom(A, q, u) && Accepts(B, v)
  }

  lemma SplitEmpty(A: Nfa, B: Nfa, q: State)
    ensures SplitAccepted(A, B, q, []) <==> q in A.final && AcceptsEmpty(B)
  {
    if q in A.final && AcceptsEmpty(B) {
      assert Splits([], [], []) && AcceptsFrom(A, q, []) && Accepts(B, []);
    }
    if SplitAccepted(A, B, q, []) {
      var u: Word, v: Word :| Splits([], u, v) && AcceptsFrom(A, q, u) && Accepts(B, v);
      assert u == [] && v == [];
    }
  }

  lemma SplitStep(A: Nfa, B: Nfa, q: State, w: Word)
    requires w != []
    ensures SplitAccepted(A, B, q, w) <==>
            (q in A.final && Accepts(B, w)) || exists p: State :: Step(A, q, w[0], p) && SplitAccepted(A, B, p, w[1..])
  {
    hide Step;
    if SplitAccepted(A, B, q, w) {
      var u: Word, v: Word :| Splits(w, u, v) && AcceptsFrom(A, q, u) && Accepts(B, v);
      if u == [] {
        assert w == v;
      } else {
        var p: State :| Step(A, q, u[0], p) && AcceptsFrom(A, p, u[1..]);
        assert w[0] == u[0] && w[1..] == u[1..] + v && Splits(w[1..], u[1..], v);
      }
    }
    if q in A.final && Accepts(B, w) {
      assert [] + w == w && Splits(w, [], w) && AcceptsFrom(A, q, []);
    }
    forall p: State | Step(A, q, w[0], p) && SplitAccepted(A, B, p, w[1..]) ensures SplitAccepted(A, B, q, w) {
      var u: Word, v: Word :| Splits(w[1..], u, v) && AcceptsFrom(A, p, u) && Accepts(B, v);
      var u' := [w[0]] + u;
      assert u'[1..] == u && AcceptsFrom(A, q, u');
      assert w == u' + v && Splits(w, u', v);
    }
  }

  /** Leaving a final state of the first part over `w` is beginning `w` in the second. */
  lemma InitialStepAccepts(A: Nfa, B: Nfa, C: Nfa, w: Word)
    requires A.Valid() && B.Valid() && IsConcatenation(A, B, C) && w != []
    ensures Accepts(B, w) <==> exists p: State :: InitialStep(B, A.size, w[0], p) && AcceptsFrom(C, p, w[1..])
  {
    hide Step, Nfa.Valid, IsConcatenation, AcceptsFrom;
    if Accepts(B, w) {
      var i: State :| i in B.initial && AcceptsFrom(B, i, w);
      var p := AcceptingStep(B, i, w);
      var r := p + A.size;
      MovedRightLanguage(A, B, C, r, w[1..]);
      assert r - A.size == p && InitialStep(B, A.size, w[0], r) && AcceptsFrom(C, r, w[1..]);
    }
    if exists p: State :: InitialStep(B, A.size, w[0], p) && AcceptsFrom(C, p, w[1..]) {
      var p: State :| InitialStep(B, A.size, w[0], p) && AcceptsFrom(C, p, w[1..]);
      var i: State :| i in B.initial && p >= A.size && Step(B, i, w[0], p - A.size);
      MovedRightLanguage(A, B, C, p, w[1..]);
      StepAccepts(B, i, w, p - A.size);
    }
  }

  lemma {:induction false} FirstRightLanguage(A: Nfa, B: Nfa, C: Nfa, q: State, w: Word)
    requires A.Valid() && B.Valid() && IsConcatenation(A, B, C) && q < A.size
    ensures AcceptsFrom(C, q, w) <==> SplitAccepted(A, B, q, w)
    decreases |w|
  {
    if w == [] {
      SplitEmpty(A, B, q);
    } else {
      forall p: State | Step(A, q, w[0], p) ensures AcceptsFrom(C, p, w[1..]) <==> SplitAccepted(A, B, p, w[1..]) {
        StepIsState(A, q, w[0], p);
        FirstRightLanguage(A, B, C, p, w[1..]);
      }
      SplitStep(A, B, q, w);
      InitialStepAccepts(A, B, C, w);
      FirstSteps(A, B, C, q, w[0]);
      hide Step, Nfa.Valid, InitialStep, SplitAccepted, IsConcatenation, Accepts;
    }
  }

  lemma FirstSteps(A: Nfa, B: Nfa, C: Nfa, q: State, a: Symbol)
    requires IsConcatenation(A, B, C) && q < A.size
    ensures forall p: State :: Step(C, q, a, p) <==> Step(A, q, a, p) || (q in A.final && InitialStep(B, A.size, a, p))
  {
    hide Step, InitialStep;
  }

  /** The language of a concatenation is the product of the languages. */
  lemma ConcatenationLanguage(A: Nfa, B: Nfa, C: Nfa)
    requires A.Valid() && B.Valid() && IsConcatenation(A, B, C)
    ensures LanguageOf(C) == Product(LanguageOf(A), LanguageOf(B))
  {
    forall w: Word ensures w in LanguageOf(C) <==> w in Product(LanguageOf(A), LanguageOf(B)) {
      ConcatenationAccepts(A, B, C, w);
      hide Accepts;
      if w in Product(LanguageOf(A), LanguageOf(B)) {
        var u: Word, v: Word :| Splits(w, u, v) && u in LanguageOf(A) && v in LanguageOf(B);
        assert Splits(w, u, v) && Accepts(A, u) && Accepts(B, v);
      }
    }
  }

  lemma ConcatenationAccepts(A: Nfa, B: Nfa, C: Nfa, w: Word)
    requires A.Valid() && B.Valid() && IsConcatenation(A, B, C)
    ensures Accepts(C, w) <==> exists u: Word, v: Word :: Splits(w, u, v) && Accepts(A, u) && Accepts(B, v)
  {
    forall q: State | q in A.initial ensures AcceptsFrom(C, q, w) <==> SplitAccepted(A, B, q, w) {
      FirstRightLanguage(A, B, C, q, w);
    }
    assert C.initial == A.initial;
    hide IsConcatenation, AcceptsFrom, Nfa.Valid;
    if Accepts(C, w) {
      var q: State :| q in C.initial && AcceptsFrom(C, q, w);
      var u: Word, v: Word :| Splits(w, u, v) && AcceptsFrom(A, q, u) && Accepts(B, v);
      assert Accepts(A, u);
    }
    if exists u: Word, v: Word :: Splits(w, u, v) && Accepts(A, u) && Accepts(B, v) {
      var u: Word, v: Word :| Splits(w, u, v) && Accepts(A, u) && Accepts(B, v);
      var q: State :| q in A.initial && AcceptsFrom(A, q, u);
      assert SplitAccepted(A, B, q, w);
    }
  }

  // ---------- In place ----------

  /** `renumber_targets` by `st + n` on one symbol post and on a state post */
  function MovedTargets(targets: seq<State>, n: nat): (r: seq<State>)
    ensures |r| == |targets| && forall i | 0 <= i < |r| :: r[i] == targets[i] + n
  {
    seq(|targets|, i requires 0 <= i < |targets| => targets[i] + n)
  }

  function MovedPost(post: StatePost, n: nat): (r: StatePost)
    ensures |r| == |post| && forall i | 0 <= i < |r| :: r[i] == SymbolPost(post[i].symbol, MovedTargets(post[i].targets, n))
  {
    seq(|post|, i requires 0 <= i < |post| => SymbolPost(post[i].symbol, MovedTargets(post[i].targets, n)))
  }

  function MovedDelta(delta: seq<StatePost>, n: nat): (r: seq<StatePost>)
    ensures |r| == |delta| && forall q | 0 <= q < |r| :: r[q] == MovedPost(delta[q], n)
  {
    seq(|delta|, q requires 0 <= q < |delta| => MovedPost(delta[q], n))
  }

  lemma MovedTargetsElements(targets: seq<State>, n: nat, p: State)
    ensures p in MovedTargets(targets, n) <==> p >= n && p - n in targets
    ensures StrictlySorted(targets) ==> StrictlySorted(MovedTargets(targets, n))
  {
    if p >= n && p - n in targets {
      var i :| 0 <= i < |targets| && targets[i] == p - n;
      assert MovedTargets(targets, n)[i] == p;
    }
  }

  lemma MovedPostMoves(post: StatePost, n: nat, a: Symbol, p: State)
    ensures InPost(MovedPost(post, n), a, p) <==> p >= n && InPost(post, a, p - n)
  {
    forall i | 0 <= i < |post| ensures p in MovedPost(post, n)[i].targets <==> p >= n && p - n in post[i].targets {
      MovedTargetsElements(post[i].targets, n, p);
    }
  }

  lemma MovedPostSorted(post: StatePost, n: nat)
    requires SortedPost(post)
    ensures SortedPost(MovedPost(post, n))
  {
    forall i | 0 <= i < |post| ensures StrictlySorted(MovedTargets(post[i].targets, n)) {
      MovedTargetsElements(post[i].targets, n, 0);
    }
    hide StrictlySorted;
  }

  /** The transitions once the moved posts have been appended. */
  lemma AppendedSteps(A: Nfa, B: Nfa, delta: seq<StatePost>)
    requires A.Valid() && B.Valid() && delta == Allocated(A.delta, A.size) + MovedDelta(B.delta, A.size)
    ensures SortedDelta(delta) && |delta| <= A.size + B.size
    ensures forall q: State, a, p: State :: HasTransition(delta, q, a, p) <==> Step(A, q, a, p) || MovedStep(B, A.size, q, a, p)
  {
    var n := A.size;
    forall q | 0 <= q < |delta| ensures SortedPost(delta[q]) {
      AppendedPost(A, B, delta, q);
    }
    forall q: State, a, p: State ensures HasTransition(delta, q, a, p) <==> Step(A, q, a, p) || MovedStep(B, n, q, a, p) {
      AppendedStep(A, B, delta, q, a, p);
    }
  }

  lemma AppendedPost(A: Nfa, B: Nfa, delta: seq<StatePost>, q: nat)
    requires A.Valid() && B.Valid() && delta == Allocated(A.delta, A.size) + MovedDelta(B.delta, A.size) && q < |delta|
    ensures SortedPost(delta[q])
  {
    if q < |A.delta| {
      assert ValidPost(A.delta[q], A.size);
    } else if q >= A.size {
      assert ValidPost(B.delta[q - A.size], B.size);
      MovedPostSorted(B.delta[q - A.size], A.size);
    }
  }

  lemma AppendedStep(A: Nfa, B: Nfa, delta: seq<StatePost>, q: State, a: Symbol, p: State)
    requires A.Valid() && B.Valid() && delta == Allocated(A.delta, A.size) + MovedDelta(B.delta, A.size)
    ensures HasTransition(delta, q, a, p) <==> Step(A, q, a, p) || MovedStep(B, A.size, q, a, p)
  {
    var n := A.size;
    if q < n {
      assert q < |A.delta| ==> delta[q] == A.delta[q];
      assert q >= |A.delta| ==> delta[q] == [];
    } else {
      if Step(A, q, a, p) { StepIsState(A, q, a, p); }
      if q - n < |B.delta| {
        assert delta[q] == MovedPost(B.delta[q - n], n);
        MovedPostMoves(B.delta[q - n], n, a, p);
      }
    }
  }

  /** An automaton that is changed in place. */
  class Automaton {
    const delta: Delta
    var size: nat
    var initial: StateSet
    var final: StateSet

    ghost function View(): Nfa
      reads this, delta
    {
      Nfa(size, delta.statePosts, initial, final)
    }

    ghost predicate Valid()
      reads this, delta
    {
      View().Valid()
    }

    /** `builder::create_empty_string_nfa` */
    constructor EmptyWord()
      ensures fresh(delta) && Valid() && LanguageOf(View()) == iset{[]}
    {
      delta := new Delta(1);
      size, initial, final := 1, {0}, {0};
      new;
      EmptyWordLanguage(View());
    }

    constructor Copy(A: Nfa)
      requires A.Valid()
      ensures fresh(delta) && View() == A
    {
      delta := new Delta(0);
      size, initial, final := A.size, A.initial, A.final;
      new;
      delta.statePosts := A.delta;
    }

    /** `Nfa::concatenate(aut)`; `aut` may be this automaton. */
    method Concatenate(aut: Automaton)
      requires Valid() && aut.Valid() && (aut == this || aut.delta != delta)
      modifies this, delta
      ensures Valid() && IsConcatenation(old(View()), old(aut.View()), View())
      ensures LanguageOf(View()) == Product(old(LanguageOf(View())), old(LanguageOf(aut.View())))
    {
      ghost var A, B := View(), aut.View();
      var n, autN := size, aut.size;
      var autInitial, autFinal := aut.initial, aut.final;
      assert |delta.statePosts| <= n && |aut.delta.statePosts| <= autN;
      delta.statePosts := Allocated(delta.statePosts, n);
      ghost var other := aut.delta.statePosts;
      delta.statePosts := delta.statePosts + MovedDelta(aut.delta.statePosts, n);
      AppendedAlias(A, B, other, delta.statePosts);
      var newFinal := set f: State | f in autFinal :: f + n;
      newFinal := Connect(A, B, n, autInitial, autFinal, newFinal);
      final, size := newFinal, n + autN;
      ConnectedIsConcatenation(A, B, View());
      ConcatenationLanguage(A, B, View());
    }

    /** Connect the two parts: final states get the transitions of the moved initial states. */
    method Connect(ghost A: Nfa, ghost B: Nfa, n: nat, autInitial: StateSet, autFinal: StateSet, newFinal0: StateSet) returns (newFinal: StateSet)
      requires A.Valid() && B.Valid() && n == A.size && autInitial == B.initial && autFinal == B.final && final == A.final
      requires delta.Valid() && |delta.statePosts| <= A.size + B.size && Connected(A, B, delta.statePosts, {})
      requires newFinal0 == set f: State | f in B.final :: f + n
      modifies delta
      ensures delta.Valid() && |delta.statePosts| <= A.size + B.size && Connected(A, B, delta.statePosts, B.initial)
      ensures forall q: State :: q in newFinal <==> q in newFinal0 || (q in A.final && AcceptsEmpty(B))
    {
      hide Connected, ValidPost;
      newFinal := newFinal0;
      var todo := autInitial;
      assert autInitial - todo == {};
      while todo != {}
        invariant todo <= autInitial && delta.Valid() && |delta.statePosts| <= A.size + B.size
        invariant Connected(A, B, delta.statePosts, autInitial - todo)
        invariant forall q: State :: q in newFinal <==> q in newFinal0 || (q in A.final && !((autInitial - todo) !! autFinal))
      {
        var ini: State :| ini in todo;
        var post := if ini + n < |delta.statePosts| then delta.statePosts[ini + n] else [];
        MovedInitialPost(A, B, delta.statePosts, autInitial - todo, ini, post);
        ConnectInitial(A, B, autInitial - todo, ini, post);
        if ini in autFinal { newFinal := newFinal + final; }
        assert autInitial - (todo - {ini}) == (autInitial - todo) + {ini};
        todo := todo - {ini};
      }
      assert autInitial - todo == autInitial;
    }

    /** All final states get the transitions in `post`, those of the initial state `ini`. */
    method ConnectInitial(ghost A: Nfa, ghost B: Nfa, ghost done: StateSet, ghost ini: State, post: StatePost)
      requires A.Valid() && B.Valid() && final == A.final && ini in B.initial
      requires delta.Valid() && |delta.statePosts| <= A.size + B.size && Connected(A, B, delta.statePosts, done)
      requires SortedPost(post) && forall a, p: State :: InPost(post, a, p) <==> p >= A.size && Step(B, ini, a, p - A.size)
      modifies delta
      ensures delta.Valid() && |delta.statePosts| <= A.size + B.size && Connected(A, B, delta.statePosts, done + {ini})
    {
      hide Connected, HasTransition, SortedPost, SortedDelta, ValidPost, InPost, Step;
      ghost var before := delta.statePosts;
      var todo := final;
      while todo != {}
        invariant todo <= final && delta.Valid() && |delta.statePosts| <= A.size + B.size
        invariant forall q: State, a, p: State :: HasTransition(delta.statePosts, q, a, p) <==>
                    HasTransition(before, q, a, p) || (q in final - todo && InPost(post, a, p))
      {
        var fin: State :| fin in todo;
        PostTargetsBelow(A, B, ini, post);
        CopyPost(fin, post, A.size + B.size);
        todo := todo - {fin};
      }
      ConnectedMore(A, B, before, delta.statePosts, done, ini, post);
    }

    /** Add the moves of `post` to the state `fin`. */
    method CopyPost(fin: State, post: StatePost, ghost bound: nat)
      requires delta.Valid() && SortedPost(post) && fin < bound && |delta.statePosts| <= bound
      requires forall a, p: State | InPost(post, a, p) :: p < bound
      modifies delta
      ensures delta.Valid() && |delta.statePosts| <= bound
      ensures forall q: State, a, p: State :: HasTransition(delta.statePosts, q, a, p) <==>
                old(HasTransition(delta.statePosts, q, a, p)) || (q == fin && InPost(post, a, p))
    {
      var moves := Moves(post);
      MovesOfPost(post, bound);
      hide HasTransition, SortedPost, InPost, SortedDelta, Moves;
      for k := 0 to |moves|
        invariant delta.Valid() && |delta.statePosts| <= bound
        invariant forall q: State, a, p: State :: HasTransition(delta.statePosts, q, a, p) <==>
                    old(HasTransition(delta.statePosts, q, a, p)) || (q == fin && Move(a, p) in moves[..k])
      {
        assert moves[k] in moves && moves[..k + 1] == moves[..k] + [moves[k]];
        delta.Add(fin, moves[k].symbol, moves[k].target);
      }
      assert moves[..|moves|] == moves;
    }
  }

  lemma MovesOfPost(post: StatePost, bound: nat)
    requires SortedPost(post) && forall a, p: State | InPost(post, a, p) :: p < bound
    ensures forall m :: m in Moves(post) <==> InPost(post, m.symbol, m.target)
    ensures forall m | m in Moves(post) :: m.target < bound
  {
    forall i, k | 0 <= i < |post| && 0 <= k < |post[i].targets| ensures post[i].targets[k] < bound {
      assert InPost(post, post[i].symbol, post[i].targets[k]);
    }
    MovesEnumeratePost(post, bound);
  }

  /** The final states have the transitions of the initial states in `done`. */
  ghost predicate Connected(A: Nfa, B: Nfa, delta: seq<StatePost>, done: StateSet) {
    forall q: State, a, p: State :: HasTransition(delta, q, a, p) <==>
      Step(A, q, a, p) || MovedStep(B, A.size, q, a, p) || (q in A.final && StepFromOne(B, A.size, done, a, p))
  }

  ghost predicate StepFromOne(B: Nfa, n: nat, done: StateSet, a: Symbol, p: State) {
    exists i: State :: i in done && p >= n && Step(B, i, a, p - n)
  }

  lemma PostTargetsBelow(A: Nfa, B: Nfa, ini: State, post: StatePost)
    requires B.Valid() && forall a, p: State :: InPost(post, a, p) <==> p >= A.size && Step(B, ini, a, p - A.size)
    ensures forall a, p: State | InPost(post, a, p) :: p < A.size + B.size
  {
    forall a, p: State | InPost(post, a, p) ensures p < A.size + B.size {
      StepIsState(B, ini, a, p - A.size);
    }
  }

  lemma ConnectedMore(A: Nfa, B: Nfa, before: seq<StatePost>, delta: seq<StatePost>, done: StateSet, ini: State, post: StatePost)
    requires Connected(A, B, before, done)
    requires forall a, p: State :: InPost(post, a, p) <==> p >= A.size && Step(B, ini, a, p - A.size)
    requires forall q: State, a, p: State :: HasTransition(delta, q, a, p) <==> HasTransition(before, q, a, p) || (q in A.final && InPost(post, a, p))
    ensures Connected(A, B, delta, done + {ini})
  {
    hide HasTransition, Step, MovedStep, InPost;
    forall a, p: State ensures StepFromOne(B, A.size, done + {ini}, a, p) <==> StepFromOne(B, A.size, done, a, p) || InPost(post, a, p) {
      if InPost(post, a, p) { assert ini in done + {ini}; }
    }
    hide StepFromOne;
  }

  /** The moved post of an initial state is not changed by the connection. */
  lemma MovedInitialPost(A: Nfa, B: Nfa, delta: seq<StatePost>, done: StateSet, ini: State, post: StatePost)
    requires A.Valid() && Connected(A, B, delta, done) && SortedDelta(delta)
    requires post == if ini + A.size < |delta| then delta[ini + A.size] else []
    ensures SortedPost(post) && forall a, p: State :: InPost(post, a, p) <==> p >= A.size && Step(B, ini, a, p - A.size)
  {
    var q := ini + A.size;
    assert q - A.size == ini && q !in A.final;
    forall a, p: State ensures InPost(post, a, p) <==> p >= A.size && Step(B, ini, a, p - A.size) {
      assert InPost(post, a, p) <==> HasTransition(delta, q, a, p);
      if Step(A, q, a, p) { StepIsState(A, q, a, p); }
      assert MovedStep(B, A.size, q, a, p) <==> p >= A.size && Step(B, ini, a, p - A.size);
    }
  }

  /** The posts appended are those of the second automaton, even if the first has been padded and is
      the same object. */
  lemma AppendedAlias(A: Nfa, B: Nfa, other: seq<StatePost>, delta: seq<StatePost>)
    requires A.Valid() && B.Valid() && (other == B.delta || (A == B && other == Allocated(B.delta, A.size)))
    requires delta == Allocated(A.delta, A.size) + MovedDelta(other, A.size)
    ensures SortedDelta(delta) && |delta| <= A.size + B.size && Connected(A, B, delta, {})
  {
    var B' := B.(delta := other);
    assert forall q: State, a, p: State :: Step(B', q, a, p) <==> Step(B, q, a, p);
    assert B'.Valid();
    AppendedSteps(A, B', delta);
    assert forall q: State, a, p: State :: MovedStep(B', A.size, q, a, p) <==> MovedStep(B, A.size, q, a, p);
    hide HasTransition, Step, MovedStep, SortedDelta;
  }

  lemma ConnectedIsConcatenation(A: Nfa, B: Nfa, C: Nfa)
    requires A.Valid() && B.Valid() && C.size == A.size + B.size && C.initial == A.initial
    requires Connected(A, B, C.delta, B.initial) && SortedDelta(C.delta) && |C.delta| <= C.size
    requires forall q: State :: q in C.final <==> (q >= A.size && q - A.size in B.final) || (q in A.final && AcceptsEmpty(B))
    ensures C.Valid() && IsConcatenation(A, B, C)
  {
    forall q: State, a, p: State ensures Step(C, q, a, p) <==>
      Step(A, q, a, p) || MovedStep(B, A.size, q, a, p) || (q in A.final && InitialStep(B, A.size, a, p))
    {
      assert Step(C, q, a, p) <==> HasTransition(C.delta, q, a, p);
      assert StepFromOne(B, A.size, B.initial, a, p) <==> InitialStep(B, A.size, a, p);
    }
    forall q: State, a, p: State | HasTransition(C.delta, q, a, p) ensures p < C.size {
      ConnectedTarget(A, B, q, a, p);
    }
    SortedPostIsValid(C.delta, C.size);
  }

  lemma ConnectedTarget(A: Nfa, B: Nfa, q: State, a: Symbol, p: State)
    requires A.Valid() && B.Valid() && (Step(A, q, a, p) || MovedStep(B, A.size, q, a, p) || StepFromOne(B, A.size, B.initial, a, p))
    ensures p < A.size + B.size
  {
    if Step(A, q, a, p) {
      StepIsState(A, q, a, p);
    } else if MovedStep(B, A.size, q, a, p) {
      StepIsState(B, q - A.size, a, p - A.size);
    } else {
      var i: State :| i in B.initial && p >= A.size && Step(B, i, a, p - A.size);
      StepIsState(B, i, a, p - A.size);
    }
  }

  lemma EmptyWordLanguage(A: Nfa)
    requires A == Nfa(1, Allocated([], 1), {0}, {0})
    ensures A.Valid() && LanguageOf(A) == iset{[]}
  {
    assert forall q: State, a, p: State :: !Step(A, q, a, p);
    forall w: Word ensures Accepts(A, w) <==> w == [] {
      if w == [] { assert 0 in A.initial && AcceptsFrom(A, 0, w); }
    }
  }

  /** `concatenate_nth_power` by repeated squaring: the product of `result`'s language and the
      remaining power of `base`'s is the power asked for. */
  method ConcatenateNthPower(A: Nfa, power0: nat) returns (result: Automaton)
    requires A.Valid()
    ensures fresh(result) && fresh(result.delta) && result.Valid() && LanguageOf(result.View()) == Power(LanguageOf(A), power0)
  {
    hide LanguageOf, Product, IsConcatenation, Nfa.Valid;
    result := new Automaton.EmptyWord();
    if power0 == 0 { return; }
    var power := power0;
    var base := new Automaton.Copy(A);
    ghost var L := LanguageOf(A);
    ProductUnit(Power(L, power0));
    while power > 0
      invariant fresh(result) && fresh(result.delta) && fresh(base) && fresh(base.delta) && result != base && result.delta != base.delta
      invariant result.Valid() && base.Valid()
      invariant Product(LanguageOf(result.View()), Power(LanguageOf(base.View()), power)) == Power(L, power0)
      decreases power
    {
      ghost var R, K, k := LanguageOf(result.View()), LanguageOf(base.View()), power;
      PowerStep(R, K, k);
      if power % 2 == 1 { result.Concatenate(base); }
      power := power / 2;
      if power > 0 { base.Concatenate(base); }
    }
    ProductUnit(LanguageOf(result.View()));
  }

  /** One turn of the loop: the lowest bit goes to the result, the base is squared. */
  lemma PowerStep(R: Language, K: Language, k: nat)
    requires k > 0
    ensures var R' := if k % 2 == 1 then Product(R, K) else R;
            && Product(R', Power(Product(K, K), k / 2)) == Product(R, Power(K, k))
            && (k / 2 == 0 ==> Product(R', Power(K, 0)) == Product(R, Power(K, k)))
  {
    PowerOfSquare(K, k / 2);
    ProductAssociative(R, K, Power(K, 2 * (k / 2)));
    hide Product;
    if k % 2 == 1 { assert k == 2 * (k / 2) + 1; } else { assert k == 2 * (k / 2); }
  }
}
