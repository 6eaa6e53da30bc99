/** Complementation (make_complete, complement_deterministic, complement_classical and
    complement_brzozowski of src/nfa). */
module Complementation {
  import opened Automata
  import opened Counting
  import opened Options
  import opened DeltaRelation
  import opened Macrostates
  import opened Distances
  import opened Minimality
  import opened Trimming
  import opened Determinization
  import opened Brzozowski

  /** A word over `symbols` */
  ghost predicate Over(w: Word, symbols: seq<Symbol>) {
    forall a <- w :: a in symbols
  }

  /** At most one initial state and one target in every symbol post. */
  ghost predicate PartialDfa(A: Nfa) {
    && (forall p, q | p in A.initial && q in A.initial :: p == q)
    && (forall q: State, a, p: State, r: State | Step(A, q, a, p) && Step(A, q, a, r) :: p == r)
  }

  ghost predicate Missing(A: Nfa, symbols: seq<Symbol>, q: State, a: Symbol) {
    a in symbols && forall p: State :: !Step(A, q, a, p)
  }

  ghost predicate SomeMissing(A: Nfa, symbols: seq<Symbol>, q: State) {
    exists a :: Missing(A, symbols, q, a)
  }

  /** The transitions into the sink: missing ones, and loops on a new sink. */
  ghost predicate IntoSink(A: Nfa, symbols: seq<Symbol>, sink: State, added: bool, q: State, a: Symbol, p: State) {
    && p == sink
    && ((q < A.size && Missing(A, symbols, q, a)) || (added && q == sink && A.size <= sink && a in symbols))
  }

  /** `M` is `A` completed over `symbols` with `sink`. */
  ghost predicate IsCompletion(A: Nfa, M: Nfa, symbols: seq<Symbol>, sink: State, added: bool) {
    && M.initial == A.initial && M.final == A.final
    && M.size == (if added && A.size <= sink then sink + 1 else A.size)
    && (added <==> exists q: State :: q < A.size && SomeMissing(A, symbols, q))
    && (forall q: State, a, p: State :: Step(M, q, a, p) <==> Step(A, q, a, p) || IntoSink(A, symbols, sink, added, q, a, p))
  }

  /** Symbols of `symbols` over which `q` has no move lead to the sink. */
  method FillState(A: Nfa, symbols: seq<Symbol>, sink: State, q: State, delta: Delta) returns (added: bool)
    requires A.Valid() && delta.Valid()
    modifies delta
    ensures delta.Valid()
    ensures forall x, b, y :: HasTransition(delta.statePosts, x, b, y) <==>
              old(HasTransition(delta.statePosts, x, b, y)) || (x == q && y == sink && Missing(A, symbols, q, b))
    ensures added <==> SomeMissing(A, symbols, q)
    ensures added || delta.statePosts == old(delta.statePosts)
    ensures old(|delta.statePosts|) <= |delta.statePosts|
    ensures |delta.statePosts| <= old(|delta.statePosts|) || |delta.statePosts| <= if added then (if q < sink then sink + 1 else q + 1) else 0
  {
    added := false;
    assert symbols[..0] == [];
    for k := 0 to |symbols|
      invariant delta.Valid()
      invariant forall x, b, y :: HasTransition(delta.statePosts, x, b, y) <==>
                  old(HasTransition(delta.statePosts, x, b, y)) || (x == q && y == sink && Missing(A, symbols[..k], q, b))
      invariant added <==> SomeMissing(A, symbols[..k], q)
      invariant added || delta.statePosts == old(delta.statePosts)
      invariant old(|delta.statePosts|) <= |delta.statePosts|
      invariant |delta.statePosts| <= old(|delta.statePosts|) || |delta.statePosts| <= if added then (if q < sink then sink + 1 else q + 1) else 0
    {
      MissingSnoc(A, symbols, k, q);
      hide Missing, HasTransition, SomeMissing;
      if Targets(A.At(q), symbols[k]) == [] {
        delta.Add(q, symbols[k], sink);
        added := true;
      }
    }
    assert symbols[..|symbols|] == symbols;
  }

  lemma MissingSnoc(A: Nfa, symbols: seq<Symbol>, k: nat, q: State)
    requires A.Valid() && k < |symbols|
    ensures forall b :: Missing(A, symbols[..k + 1], q, b) <==>
              Missing(A, symbols[..k], q, b) || (b == symbols[k] && Targets(A.At(q), symbols[k]) == [])
    ensures Targets(A.At(q), symbols[k]) == [] ==> Missing(A, symbols[..k + 1], q, symbols[k])
    ensures SomeMissing(A, symbols[..k + 1], q) <==> SomeMissing(A, symbols[..k], q) || Targets(A.At(q), symbols[k]) == []
  {
    assert symbols[..k + 1] == symbols[..k] + [symbols[k]];
    assert q < |A.delta| ==> ValidPost(A.delta[q], A.size);
    forall p: State ensures p in Targets(A.At(q), symbols[k]) <==> Step(A, q, symbols[k], p) {
      TargetsAreSteps(A.At(q), symbols[k], p);
    }
    assert Targets(A.At(q), symbols[k]) == [] <==> forall p: State :: !Step(A, q, symbols[k], p) by {
      if Targets(A.At(q), symbols[k]) != [] {
        assert Targets(A.At(q), symbols[k])[0] in Targets(A.At(q), symbols[k]);
      }
    }
    if SomeMissing(A, symbols[..k], q) {
      var b :| Missing(A, symbols[..k], q, b);
      assert Missing(A, symbols[..k + 1], q, b);
    }
    if SomeMissing(A, symbols[..k + 1], q) {
      var b :| Missing(A, symbols[..k + 1], q, b);
      assert Missing(A, symbols[..k], q, b) || Targets(A.At(q), symbols[k]) == [];
    }
    hide Step;
    assert Targets(A.At(q), symbols[k]) == [] ==> Missing(A, symbols[..k + 1], q, symbols[k]);
  }

  /** `make_complete` for the states of `A`; an initial sink beyond them is dealt with by the caller. */
  method MakeComplete(A: Nfa, symbols: seq<Symbol>, sink: State) returns (M: Nfa, added: bool)
    requires A.Valid()
    ensures M.Valid() && IsCompletion(A, M, symbols, sink, added) && (added || M == A)
  {
    var delta := new Delta(0);
    delta.statePosts := A.delta;
    added := false;
    FillStart(A);
    hide HasTransition, Missing, SomeMissing, Step, ValidPost;
    for q := 0 to A.size
      invariant delta.Valid() && fresh(delta)
      invariant forall x: State, b, y: State :: HasTransition(delta.statePosts, x, b, y) <==>
                  Step(A, x, b, y) || (x < q && y == sink && Missing(A, symbols, x, b))
      invariant added <==> exists x: State :: x < q && SomeMissing(A, symbols, x)
      invariant added || delta.statePosts == A.delta
      invariant |delta.statePosts| <= if added then (if A.size <= sink then sink + 1 else A.size) else A.size
    {
      var more := FillState(A, symbols, sink, q, delta);
      added := added || more;
    }
    ghost var filled := delta.statePosts;
    if added && A.size <= sink {
      for k := 0 to |symbols|
        invariant delta.Valid() && |delta.statePosts| <= sink + 1
        invariant forall x: State, b, y: State :: HasTransition(delta.statePosts, x, b, y) <==>
                    HasTransition(filled, x, b, y) || (x == sink && b in symbols[..k] && y == sink)
      {
        assert symbols[..k + 1] == symbols[..k] + [symbols[k]];
        delta.Add(sink, symbols[k], sink);
      }
      assert symbols[..|symbols|] == symbols;
    }
    M := Nfa(if added && A.size <= sink then sink + 1 else A.size, delta.statePosts, A.initial, A.final);
    FillEnd(A, M, symbols, sink, added);
  }

  lemma FillStart(A: Nfa)
    requires A.Valid()
    ensures SortedDelta(A.delta) && forall x: State, b, y: State :: HasTransition(A.delta, x, b, y) <==> Step(A, x, b, y)
  {
    ValidDelta(A);
  }

  lemma MissingIsSome(A: Nfa, symbols: seq<Symbol>, q: State, a: Symbol)
    requires Missing(A, symbols, q, a)
    ensures SomeMissing(A, symbols, q)
  {
  }

  lemma FillEnd(A: Nfa, M: Nfa, symbols: seq<Symbol>, sink: State, added: bool)
    requires A.Valid() && M.initial == A.initial && M.final == A.final
    requires M.size == (if added && A.size <= sink then sink + 1 else A.size) && |M.delta| <= M.size && SortedDelta(M.delta)
    requires added <==> exists x: State :: x < A.size && SomeMissing(A, symbols, x)
    requires forall x: State, b, y: State :: HasTransition(M.delta, x, b, y) <==>
               || Step(A, x, b, y) || (x < A.size && y == sink && Missing(A, symbols, x, b))
               || (added && A.size <= sink && x == sink && b in symbols && y == sink)
    ensures M.Valid() && IsCompletion(A, M, symbols, sink, added)
  {
    hide Missing, SomeMissing;
    forall x: State, b, y: State | HasTransition(M.delta, x, b, y) ensures y < M.size {
      if Step(A, x, b, y) { StepIsState(A, x, b, y); }
      if Missing(A, symbols, x, b) { MissingIsSome(A, symbols, x, b); }
    }
    SortedPostIsValid(M.delta, M.size);
    forall x: State, b, y: State ensures Step(M, x, b, y) <==> HasTransition(M.delta, x, b, y) {
    }
    hide Step, HasTransition;
  }

  // ---------- Language of the completion and of its complement ----------

  /** Over the given symbols no word leads from the sink to a final state. */
  ghost predicate Dead(A: Nfa, symbols: seq<Symbol>, sink: State) {
    forall w: Word | Over(w, symbols) :: !AcceptsFrom(A, sink, w)
  }

  /** Completion keeps the right languages over the symbols, if the sink is dead. */
  lemma {:induction false} CompletionRightLanguage(A: Nfa, M: Nfa, symbols: seq<Symbol>, sink: State, added: bool, q: State, w: Word)
    requires IsCompletion(A, M, symbols, sink, added) && Dead(A, symbols, sink) && Over(w, symbols)
    ensures AcceptsFrom(M, q, w) <==> AcceptsFrom(A, q, w)
    decreases |w|
  {
    hide Step, Missing, SomeMissing, Dead;
    if w != [] {
      forall p: State ensures AcceptsFrom(M, p, w[1..]) <==> AcceptsFrom(A, p, w[1..]) {
        CompletionRightLanguage(A, M, symbols, sink, added, p, w[1..]);
      }
      DeadTail(A, symbols, sink, w);
      hide AcceptsFrom;
      AcceptsFromStep(A, q, w);
      AcceptsFromStep(M, q, w);
    }
  }

  lemma DeadTail(A: Nfa, symbols: seq<Symbol>, sink: State, w: Word)
    requires Dead(A, symbols, sink) && Over(w, symbols) && w != []
    ensures !AcceptsFrom(A, sink, w[1..])
  {
    assert Over(w[1..], symbols);
  }

  ghost predicate HasMove(A: Nfa, q: State, a: Symbol) {
    exists p: State :: Step(A, q, a, p)
  }

  /** Over the symbols there is a move from every state of `Q`, and it stays in `Q`. */
  ghost predicate Complete(A: Nfa, symbols: seq<Symbol>, Q: set<State>) {
    forall q: State, a | q in Q && a in symbols :: HasMove(A, q, a) && forall p: State | Step(A, q, a, p) :: p in Q
  }

  /** The states of `A`, and the sink if it is used; a sink with a larger number leaves states unused. */
  function Filled(A: Nfa, sink: State, added: bool): set<State> {
    Below(A.size) + if added then {sink} else {}
  }

  lemma CompletionComplete(A: Nfa, M: Nfa, symbols: seq<Symbol>, sink: State, added: bool)
    requires A.Valid() && IsCompletion(A, M, symbols, sink, added)
    ensures Complete(M, symbols, Filled(A, sink, added))
  {
    var Q := Filled(A, sink, added);
    forall q: State, a | q in Q && a in symbols ensures HasMove(M, q, a) {
      if q < A.size && HasMove(A, q, a) {
        var p: State :| Step(A, q, a, p);
        assert Step(M, q, a, p);
      } else {
        assert q < A.size ==> Missing(A, symbols, q, a);
        assert IntoSink(A, symbols, sink, added, q, a, sink);
        assert Step(M, q, a, sink);
      }
    }
    forall q: State, a, p: State | q in Q && a in symbols && Step(M, q, a, p) ensures p in Q {
      if Step(A, q, a, p) {
        StepIsState(A, q, a, p);
      } else {
        assert IntoSink(A, symbols, sink, added, q, a, p);
        if Missing(A, symbols, q, a) { MissingIsSome(A, symbols, q, a); }
      }
    }
  }

  lemma CompletionPartialDfa(A: Nfa, M: Nfa, symbols: seq<Symbol>, sink: State, added: bool)
    requires A.Valid() && PartialDfa(A) && IsCompletion(A, M, symbols, sink, added)
    ensures PartialDfa(M)
  {
    forall q: State, a, p: State, r: State | Step(M, q, a, p) && Step(M, q, a, r) ensures p == r {
      if Step(A, q, a, p) { StepIsState(A, q, a, p); }
      if Step(A, q, a, r) { StepIsState(A, q, a, r); }
      hide Step, SomeMissing, Nfa.Valid;
    }
  }

  /** Swapping final and non-final states of a complete deterministic automaton. */
  lemma {:induction false} SwappedRightLanguage(M: Nfa, C: Nfa, symbols: seq<Symbol>, Q: set<State>, q: State, w: Word)
    requires M.Valid() && PartialDfa(M) && Complete(M, symbols, Q) && C == M.(final := Below(M.size) - M.final)
    requires q in Q && Q <= Below(M.size) && Over(w, symbols)
    ensures AcceptsFrom(C, q, w) <==> !AcceptsFrom(M, q, w)
    decreases |w|
  {
    if w != [] {
      assert w[0] in symbols && HasMove(M, q, w[0]);
      var p: State :| Step(M, q, w[0], p);
      SwappedRightLanguage(M, C, symbols, Q, p, w[1..]);
      assert forall r: State :: Step(C, q, w[0], r) <==> Step(M, q, w[0], r);
      assert forall r: State | Step(M, q, w[0], r) :: r == p;
      hide Complete, Over, Nfa.Valid, Step, PartialDfa, HasMove;
    }
  }

  lemma SwappedLanguage(M: Nfa, C: Nfa, symbols: seq<Symbol>, Q: set<State>, w: Word)
    requires M.Valid() && PartialDfa(M) && Complete(M, symbols, Q) && C == M.(final := Below(M.size) - M.final)
    requires M.initial != {} && M.initial <= Q <= Below(M.size) && Over(w, symbols)
    ensures Accepts(C, w) <==> !Accepts(M, w)
  {
    hide AcceptsFrom, Complete, Over, Step, ValidPost;
    var q :| q in M.initial;
    SwappedRightLanguage(M, C, symbols, Q, q, w);
  }

  lemma NewSinkDead(A: Nfa, symbols: seq<Symbol>, sink: State)
    requires |A.delta| <= sink && sink !in A.final
    ensures Dead(A, symbols, sink)
  {
    forall w: Word | Over(w, symbols) ensures !AcceptsFrom(A, sink, w) {
      assert forall a, p: State :: !Step(A, sink, a, p);
    }
  }

  /** An automaton without initial states gets the sink as its only one. */
  function WithInitial(A: Nfa, sink: State): Nfa {
    if A.initial == {} then A.(initial := {sink}, size := if A.size <= sink then sink + 1 else A.size) else A
  }

  /** A state reached over the symbols lacks one of them. */
  ghost predicate LacksReachable(A: Nfa, symbols: seq<Symbol>) {
    exists u: Word, q: State :: Over(u, symbols) && ReachedBy(A, u, q) && SomeMissing(A, symbols, q)
  }

  /** The sink accepts nothing over the symbols, or no word over them gets there. */
  ghost predicate Harmless(A: Nfa, symbols: seq<Symbol>, sink: State) {
    Dead(A, symbols, sink) || (A.initial != {} && !LacksReachable(A, symbols))
  }

  lemma CompletionLanguage(I: Nfa, M: Nfa, symbols: seq<Symbol>, sink: State, added: bool, w: Word)
    requires I.Valid() && IsCompletion(I, M, symbols, sink, added) && Over(w, symbols)
    requires Dead(I, symbols, sink) || !LacksReachable(I, symbols)
    ensures Accepts(M, w) <==> Accepts(I, w)
  {
    hide AcceptsFrom, Dead, IntoSink, Step, ReachedBy, LacksReachable, Missing, SomeMissing, Over, ValidPost;
    forall q: State | q in I.initial ensures AcceptsFrom(M, q, w) <==> AcceptsFrom(I, q, w) {
      if Dead(I, symbols, sink) {
        CompletionRightLanguage(I, M, symbols, sink, added, q, w);
      } else {
        ReachedByEmpty(I, q);
        assert Over([], symbols) by { NothingOver(symbols); }
        ReachedRightLanguage(I, M, symbols, sink, added, [], q, w);
      }
    }
  }

  lemma NothingOver(symbols: seq<Symbol>)
    ensures Over([], symbols)
  {
  }

  /** If no reachable state lacks a symbol, nothing changes for reachable states. */
  lemma {:induction false} ReachedRightLanguage(I: Nfa, M: Nfa, symbols: seq<Symbol>, sink: State, added: bool, u: Word, q: State, w: Word)
    requires I.Valid() && IsCompletion(I, M, symbols, sink, added) && !LacksReachable(I, symbols)
    requires Over(u, symbols) && ReachedBy(I, u, q) && Over(w, symbols)
    ensures AcceptsFrom(M, q, w) <==> AcceptsFrom(I, q, w)
    decreases |w|
  {
    if w != [] {
      ReachedMoves(I, M, symbols, sink, added, u, q, w[0]);
      OverParts(u, w, symbols);
      forall p: State | Step(I, q, w[0], p) ensures AcceptsFrom(M, p, w[1..]) <==> AcceptsFrom(I, p, w[1..]) {
        ReachedByStep(I, u, q, w[0], p);
        ReachedRightLanguage(I, M, symbols, sink, added, u + [w[0]], p, w[1..]);
      }
      hide AcceptsFrom, Step, ReachedBy, LacksReachable, IsCompletion, Nfa.Valid;
      AcceptsFromStep(I, q, w);
      AcceptsFromStep(M, q, w);
    }
  }

  lemma OverParts(u: Word, w: Word, symbols: seq<Symbol>)
    requires Over(u, symbols) && Over(w, symbols) && w != []
    ensures Over(u + [w[0]], symbols) && Over(w[1..], symbols) && w[0] in symbols
  {
  }

  lemma ReachedMoves(I: Nfa, M: Nfa, symbols: seq<Symbol>, sink: State, added: bool, u: Word, q: State, a: Symbol)
    requires I.Valid() && IsCompletion(I, M, symbols, sink, added) && !LacksReachable(I, symbols)
    requires Over(u, symbols) && ReachedBy(I, u, q)
    ensures forall p: State :: Step(M, q, a, p) <==> Step(I, q, a, p)
  {
    ReachedIsState(I, u, q);
    hide Step, ReachedBy, SomeMissing, ValidPost;
    if Missing(I, symbols, q, a) { MissingIsSome(I, symbols, q, a); }
  }

  lemma ReachedIsState(A: Nfa, u: Word, q: State)
    requires A.Valid() && ReachedBy(A, u, q)
    ensures q < A.size
  {
    if u != [] {
      var p := ReachedByLast(A, u, q);
      StepIsState(A, p, u[|u| - 1], q);
    } else {
      assert q in A.initial;
    }
  }

  /** In a deterministic automaton a state reached by `u` decides about the words that go on from it. */
  lemma {:induction false} ReachedDecides(A: Nfa, q0: State, path: seq<State>, u: Word, v: Word)
    requires PartialDfa(A) && IsRun(A, path, u) && path[0] == q0
    ensures AcceptsFrom(A, q0, u + v) <==> AcceptsFrom(A, path[|u|], v)
    decreases |u|
  {
    if u == [] {
      assert u + v == v;
    } else {
      assert (u + v)[1..] == u[1..] + v && (u + v)[0] == u[0];
      assert Step(A, path[0], u[0], path[0 + 1]);
      TailRun(A, path, u);
      ReachedDecides(A, path[1], path[1..], u[1..], v);
      hide Step;
      AcceptsFromStep(A, q0, u + v);
    }
  }

  lemma ReachedAccepts(A: Nfa, u: Word, q: State, v: Word)
    requires PartialDfa(A) && ReachedBy(A, u, q)
    ensures Accepts(A, u + v) <==> AcceptsFrom(A, q, v)
  {
    var q0 :| q0 in A.initial && ReadsTo(A, q0, u, q);
    var path :| IsRun(A, path, u) && path[0] == q0 && path[|u|] == q;
    ReachedDecides(A, q0, path, u, v);
    hide AcceptsFrom, Step;
  }

  /** Completion only adds. */
  lemma {:induction false} CompletionMore(I: Nfa, M: Nfa, symbols: seq<Symbol>, sink: State, added: bool, q: State, w: Word)
    requires IsCompletion(I, M, symbols, sink, added) && AcceptsFrom(I, q, w)
    ensures AcceptsFrom(M, q, w)
    decreases |w|
  {
    if w != [] {
      var p := AcceptingStep(I, q, w);
      CompletionMore(I, M, symbols, sink, added, p, w[1..]);
      StepAccepts(M, q, w, p);
    }
  }

  lemma ReachedMore(I: Nfa, M: Nfa, symbols: seq<Symbol>, sink: State, added: bool, u: Word, q: State)
    requires IsCompletion(I, M, symbols, sink, added) && ReachedBy(I, u, q)
    ensures ReachedBy(M, u, q)
  {
    var q0 :| q0 in I.initial && ReadsTo(I, q0, u, q);
    var path :| IsRun(I, path, u) && path[0] == q0 && path[|u|] == q;
    hide Step, IntoSink, SomeMissing;
    assert IsRun(M, path, u);
    assert ReadsTo(M, q0, u, q);
  }

  /** A sink that accepts something and is led to makes the completion accept a word too much. */
  lemma HarmfulSink(I: Nfa, M: Nfa, symbols: seq<Symbol>, sink: State, added: bool) returns (w: Word)
    requires I.Valid() && PartialDfa(I) && PartialDfa(M) && IsCompletion(I, M, symbols, sink, added)
    requires !Dead(I, symbols, sink) && LacksReachable(I, symbols)
    ensures Over(w, symbols) && Accepts(M, w) && !Accepts(I, w)
  {
    hide PartialDfa, ReachedBy, Step, AcceptsFrom, Accepts, Over, ValidPost;
    var u: Word, q: State :| Over(u, symbols) && ReachedBy(I, u, q) && SomeMissing(I, symbols, q);
    var v: Word :| Over(v, symbols) && AcceptsFrom(I, sink, v);
    var a :| Missing(I, symbols, q, a);
    ReachedIsState(I, u, q);
    assert Step(M, q, a, sink) by { assert IntoSink(I, symbols, sink, added, q, a, sink); }
    w := u + ([a] + v);
    OverJoin(u, a, v, symbols);
    ReachedMore(I, M, symbols, sink, added, u, q);
    ReachedByStep(M, u, q, a, sink);
    CompletionMore(I, M, symbols, sink, added, sink, v);
    ReachedAccepts(M, u + [a], sink, v);
    assert u + [a] + v == w;
    ReachedAccepts(I, u, q, [a] + v);
    AcceptsFromStep(I, q, [a] + v);
  }

  lemma OverJoin(u: Word, a: Symbol, v: Word, symbols: seq<Symbol>)
    requires Over(u, symbols) && a in symbols && Over(v, symbols)
    ensures Over(u + ([a] + v), symbols)
  {
  }

  ghost predicate IsComplement(A: Nfa, C: Nfa, symbols: seq<Symbol>) {
    forall w: Word | Over(w, symbols) :: Accepts(C, w) <==> !Accepts(A, w)
  }

  /** Transitions of `C` are over the symbols or over symbols of `A`. */
  ghost predicate NoOtherSymbols(A: Nfa, C: Nfa, symbols: seq<Symbol>) {
    forall a | Occurs(C, a) :: a in symbols || Occurs(A, a)
  }

  /** If `A` has no other symbols, `C` accepts the words over the symbols that `A` rejects, and none besides. */
  ghost predicate IsExactComplement(A: Nfa, C: Nfa, symbols: seq<Symbol>) {
    (forall a | Occurs(A, a) :: a in symbols) ==> forall w: Word :: Accepts(C, w) <==> Over(w, symbols) && !Accepts(A, w)
  }

  lemma {:induction false} AcceptedSymbols(A: Nfa, q: State, w: Word)
    requires AcceptsFrom(A, q, w)
    ensures forall a <- w :: Occurs(A, a)
    decreases |w|
  {
    if w != [] {
      var p := AcceptingStep(A, q, w);
      AcceptedSymbols(A, p, w[1..]);
      assert w == [w[0]] + w[1..] && Occurs(A, w[0]);
    }
  }

  lemma ExactComplement(A: Nfa, C: Nfa, symbols: seq<Symbol>)
    requires IsComplement(A, C, symbols) && NoOtherSymbols(A, C, symbols)
    ensures IsExactComplement(A, C, symbols)
  {
    hide AcceptsFrom, Occurs;
    forall w: Word | Accepts(C, w) && forall a | Occurs(A, a) :: a in symbols ensures Over(w, symbols) {
      var q :| q in C.initial && AcceptsFrom(C, q, w);
      AcceptedSymbols(C, q, w);
    }
    hide Accepts, Over;
  }

  /** `C` is `A` with a sink, final and other states swapped. */
  ghost predicate IsSwappedCompletion(A: Nfa, C: Nfa, symbols: seq<Symbol>, sink: State) {
    exists M: Nfa, added: bool :: IsCompletion(WithInitial(A, sink), M, symbols, sink, added) && C == M.(final := Below(M.size) - M.final)
  }

  lemma SwappedSymbols(A: Nfa, C: Nfa, symbols: seq<Symbol>, sink: State)
    requires IsSwappedCompletion(A, C, symbols, sink)
    ensures NoOtherSymbols(A, C, symbols)
  {
    var I := WithInitial(A, sink);
    var M: Nfa, added: bool :| IsCompletion(I, M, symbols, sink, added) && C == M.(final := Below(M.size) - M.final);
    forall a | Occurs(C, a) ensures a in symbols || Occurs(A, a) {
      var q: State, p: State :| Step(C, q, a, p);
      assert Step(M, q, a, p);
      assert Step(I, q, a, p) ==> Step(A, q, a, p);
    }
  }

  /** `complement_deterministic`. A sink that is passed yields the complement just if it is harmless. */
  method ComplementDeterministic(A: Nfa, symbols: seq<Symbol>, sinkState: Option<State>) returns (C: Nfa)
    requires A.Valid() && PartialDfa(A)
    ensures C.Valid()
    ensures sinkState.None? ==> IsComplement(A, C, symbols)
    ensures sinkState.Some? ==> (IsComplement(A, C, symbols) <==> Harmless(A, symbols, sinkState.value))
    ensures IsSwappedCompletion(A, C, symbols, if sinkState.Some? then sinkState.value else A.size)
    ensures NoOtherSymbols(A, C, symbols) && (IsComplement(A, C, symbols) ==> IsExactComplement(A, C, symbols))
  {
    var sink := if sinkState.Some? then sinkState.value else A.size;
    var I := WithInitial(A, sink);
    InitialAdded(A, symbols, sink);
    hide *;
    var M, added := MakeComplete(I, symbols, sink);
    C := M.(final := Below(M.size) - M.final);
    CompletionComplete(I, M, symbols, sink, added);
    CompletionPartialDfa(I, M, symbols, sink, added);
    SwappedValid(I, M, C, symbols, sink, added);
    forall w: Word | Over(w, symbols) ensures Accepts(C, w) <==> !Accepts(M, w) {
      SwappedLanguage(M, C, symbols, Filled(I, sink, added), w);
    }
    ComplementJustIfHarmless(A, I, M, C, symbols, sink, added);
    if sinkState.None? {
      HarmlessNewSink(A, symbols, sink);
    }
    SwappedIs(A, I, M, C, symbols, sink, added);
    SwappedSymbols(A, C, symbols, sink);
    if IsComplement(A, C, symbols) {
      ExactComplement(A, C, symbols);
    }
  }

  lemma SwappedIs(A: Nfa, I: Nfa, M: Nfa, C: Nfa, symbols: seq<Symbol>, sink: State, added: bool)
    requires I == WithInitial(A, sink) && IsCompletion(I, M, symbols, sink, added) && C == M.(final := Below(M.size) - M.final)
    ensures IsSwappedCompletion(A, C, symbols, sink)
  {
  }

  lemma SwappedValid(I: Nfa, M: Nfa, C: Nfa, symbols: seq<Symbol>, sink: State, added: bool)
    requires M.Valid() && I.Valid() && IsCompletion(I, M, symbols, sink, added) && I.initial != {} && C == M.(final := Below(M.size) - M.final)
    ensures C.Valid() && M.initial != {} && M.initial <= Filled(I, sink, added) <= Below(M.size)
  {
  }

  lemma InitialAdded(A: Nfa, symbols: seq<Symbol>, sink: State)
    requires A.Valid() && PartialDfa(A)
    ensures var I := WithInitial(A, sink); I.Valid() && PartialDfa(I) && I.initial != {}
  {
    assert forall q: State, a, p: State :: Step(WithInitial(A, sink), q, a, p) <==> Step(A, q, a, p);
  }

  lemma HarmlessNewSink(A: Nfa, symbols: seq<Symbol>, sink: State)
    requires A.Valid() && sink == A.size
    ensures Harmless(A, symbols, sink)
  {
    NewSinkDead(A, symbols, sink);
  }

  lemma DeadWithInitial(A: Nfa, symbols: seq<Symbol>, sink: State)
    ensures Dead(WithInitial(A, sink), symbols, sink) <==> Dead(A, symbols, sink)
  {
    forall w: Word ensures AcceptsFrom(A, sink, w) <==> AcceptsFrom(WithInitial(A, sink), sink, w) {
      SameDelta(A, WithInitial(A, sink), sink, w);
    }
    hide AcceptsFrom;
  }

  lemma ComplementJustIfHarmless(A: Nfa, I: Nfa, M: Nfa, C: Nfa, symbols: seq<Symbol>, sink: State, added: bool)
    requires I == WithInitial(A, sink) && I.Valid() && PartialDfa(I) && PartialDfa(M) && IsCompletion(I, M, symbols, sink, added)
    requires forall w: Word | Over(w, symbols) :: Accepts(C, w) <==> !Accepts(M, w)
    ensures IsComplement(A, C, symbols) <==> Harmless(A, symbols, sink)
  {
    hide LacksReachable, PartialDfa, AcceptsFrom, Over, Step, IsCompletion, Nfa.Valid;
    DeadWithInitial(A, symbols, sink);
    if Harmless(A, symbols, sink) {
      forall w: Word | Over(w, symbols) ensures Accepts(M, w) <==> Accepts(A, w) {
        CompletionLanguage(I, M, symbols, sink, added, w);
        if A.initial == {} { assert !AcceptsFrom(I, sink, w); }
      }
    } else if A.initial != {} {
      var w := HarmfulSink(I, M, symbols, sink, added);
    } else {
      var v: Word :| Over(v, symbols) && AcceptsFrom(I, sink, v);
      SinkAccepts(I, M, symbols, sink, added, v);
      assert !Accepts(A, v);
    }
  }

  lemma SinkAccepts(I: Nfa, M: Nfa, symbols: seq<Symbol>, sink: State, added: bool, v: Word)
    requires IsCompletion(I, M, symbols, sink, added) && sink in I.initial && AcceptsFrom(I, sink, v)
    ensures Accepts(M, v)
  {
    CompletionMore(I, M, symbols, sink, added, sink, v);
    hide AcceptsFrom, Step;
  }

  lemma {:induction false} SameDelta(A: Nfa, I: Nfa, q: State, w: Word)
    requires I.delta == A.delta && I.final == A.final
    ensures AcceptsFrom(A, q, w) <==> AcceptsFrom(I, q, w)
    decreases |w|
  {
    if w != [] {
      forall p: State ensures AcceptsFrom(A, p, w[1..]) <==> AcceptsFrom(I, p, w[1..]) { SameDelta(A, I, p, w[1..]); }
      assert forall p: State :: Step(A, q, w[0], p) <==> Step(I, q, w[0], p);
    }
  }

  lemma DeterministicIsPartial(A: Nfa)
    requires A.Valid() && Deterministic(A)
    ensures PartialDfa(A)
  {
    forall p, q | p in A.initial && q in A.initial ensures p == q { OneInitial(A, p, q); }
    forall q: State, a, p: State, r: State | Step(A, q, a, p) && Step(A, q, a, r) ensures p == r {
      DeterministicStep(A, q, a, p, r);
    }
  }

  /** Trimming keeps determinism, except that the initial state may be lost. */
  lemma RestrictionPartialDfa(A: Nfa, B: Nfa, staying: seq<bool>, renaming: seq<State>)
    requires B.Valid() && PartialDfa(A) && IsRestriction(A, B, staying, renaming)
    ensures PartialDfa(B)
  {
    hide Step;
    forall r: State, s: State | r in B.initial && s in B.initial ensures r == s {
      assert HasOriginal(staying, renaming, r) && HasOriginal(staying, renaming, s);
      var p: State :| NumberOf(staying, renaming, p, r);
      var q: State :| NumberOf(staying, renaming, q, s);
    }
    forall r: State, a, s: State, t: State | Step(B, r, a, s) && Step(B, r, a, t) ensures s == t {
      StepIsState(B, r, a, s);
      assert HasOriginal(staying, renaming, r);
      var q: State :| NumberOf(staying, renaming, q, r);
      assert StepsTo(A, staying, renaming, q, a, s) && StepsTo(A, staying, renaming, q, a, t);
    }
  }

  /** `C` comes from a trimmed deterministic automaton for the language, with a new sink. */
  ghost predicate FromTrimmed(A: Nfa, C: Nfa, symbols: seq<Symbol>) {
    exists T: Nfa :: PartialDfa(T) && Trimmed(T) && SameLanguage(A, T) && IsSwappedCompletion(T, C, symbols, T.size)
  }

  /** `C` comes from the minimal automaton for the language; if it accepts nothing its initial state is the sink. */
  ghost predicate FromMinimal(A: Nfa, C: Nfa, symbols: seq<Symbol>) {
    exists M: Nfa, sink: State :: Deterministic(M) && Reduced(M) && SameLanguage(A, M) && IsSwappedCompletion(M, C, symbols, sink)
      && (if M.final == {} then sink in M.initial else sink == M.size)
  }

  /** `complement_classical`: exactly the words over the symbols that the input rejects. */
  method ComplementClassical(A: Nfa, symbols: seq<Symbol>) returns (C: Nfa)
    requires A.Valid()
    ensures C.Valid() && IsComplement(A, C, symbols) && FromTrimmed(A, C, symbols)
    ensures NoOtherSymbols(A, C, symbols) && IsExactComplement(A, C, symbols)
  {
    hide IsSubsetAutomaton, IsRestriction, PartialDfa, UsefulStay, Accepts, Over, Deterministic, Trimmed, Nfa.Valid, IsSwappedCompletion;
    ghost var names;
    var D;
    D, names := Determinize(A);
    DeterministicIsPartial(D);
    var T, useful, renaming := Trim(D);
    RestrictionPartialDfa(D, T, useful, renaming);
    C := ComplementDeterministic(T, symbols, None);
    assert SameLanguage(A, T);
    forall a | Occurs(T, a) ensures Occurs(A, a) {
      RestrictionSymbols(D, T, useful, renaming, a);
      SubsetSymbols(A, D, names, a);
    }
    hide Occurs;
    ExactComplement(A, C, symbols);
  }

  lemma RestrictionSymbols(A: Nfa, B: Nfa, staying: seq<bool>, renaming: seq<State>, a: Symbol)
    requires B.Valid() && IsRestriction(A, B, staying, renaming) && Occurs(B, a)
    ensures Occurs(A, a)
  {
    hide Step, ValidPost;
    var r: State, s: State :| Step(B, r, a, s);
    StepIsState(B, r, a, s);
    assert HasOriginal(staying, renaming, r);
    var q: State :| NumberOf(staying, renaming, q, r);
    assert StepsTo(A, staying, renaming, q, a, s);
  }

  lemma NoFinalDead(A: Nfa, symbols: seq<Symbol>, q: State)
    requires A.final == {}
    ensures Dead(A, symbols, q)
  {
    forall w: Word | Over(w, symbols) ensures !AcceptsFrom(A, q, w) {
      if AcceptsFrom(A, q, w) {
        var path := AcceptingRun(A, q, w);
      }
    }
  }

  /** `complement_brzozowski`; if nothing is accepted the initial state serves as the sink. */
  method ComplementBrzozowski(A: Nfa, symbols: seq<Symbol>) returns (C: Nfa)
    requires A.Valid()
    ensures C.Valid() && IsComplement(A, C, symbols) && FromMinimal(A, C, symbols)
    ensures NoOtherSymbols(A, C, symbols) && IsExactComplement(A, C, symbols)
  {
    hide Reduced, Reachable, PartialDfa, Accepts, Over, ValidPost, Dead, Occurs, IsSwappedCompletion, IsExactComplement;
    var M := MinimizeBrzozowski(A);
    DeterministicIsPartial(M);
    if M.final == {} && M.initial != {} {
      var q: State :| q in M.initial;
      NoFinalDead(M, symbols, q);
      assert Harmless(M, symbols, q);
      C := ComplementDeterministic(M, symbols, Some(q));
    } else {
      C := ComplementDeterministic(M, symbols, None);
    }
    assert Deterministic(M) && |M.initial| == 1;
    ExactComplement(A, C, symbols);
  }
}
