/** Epsilon removal by a fixpoint of epsilon closures (remove_epsilon of src/nfa/operations.cc). */
module EpsilonRemoval {
  import opened Automata
  import opened Counting
  import opened DeltaRelation
  import opened Macrostates
  import opened Graphs

  // ---------- What the result means ----------

  /** The word without its epsilons */
  ghost function Erased(w: Word, epsilon: Symbol): Word {
    if w == [] then [] else (if w[0] == epsilon then [] else [w[0]]) + Erased(w[1..], epsilon)
  }

  /** `c` is reached from `q` by epsilon transitions. */
  ghost predicate InClosure(A: Nfa, epsilon: Symbol, q: State, c: State) {
    Reach(SymbolGraph(A, epsilon), q, c)
  }

  ghost predicate StepsFromClosure(A: Nfa, epsilon: Symbol, q: State, a: Symbol, p: State) {
    a != epsilon && exists c: State :: InClosure(A, epsilon, q, c) && Step(A, c, a, p)
  }

  ghost predicate FinalInClosure(A: Nfa, epsilon: Symbol, q: State) {
    exists c: State :: InClosure(A, epsilon, q, c) && c in A.final
  }

  /** `R` moves and accepts from a state as `A` does from the states of its epsilon closure. */
  ghost predicate IsEpsilonFree(A: Nfa, R: Nfa, epsilon: Symbol) {
    && R.size == A.size && R.initial == A.initial
    && (forall q: State, a, p: State :: Step(R, q, a, p) <==> StepsFromClosure(A, epsilon, q, a, p))
    && (forall q: State :: q in R.final <==> FinalInClosure(A, epsilon, q))
  }

  lemma ClosureStep(A: Nfa, epsilon: Symbol, q: State, p: State, c: State)
    requires A.Valid() && Step(A, q, epsilon, p) && InClosure(A, epsilon, p, c)
    ensures InClosure(A, epsilon, q, c)
  {
    SymbolEdges(A, epsilon, q, p);
    ReachEdge(SymbolGraph(A, epsilon), q, p);
    ReachTrans(SymbolGraph(A, epsilon), q, p, c);
  }

  /** Before an epsilon transition no less is accepted than after it. */
  lemma EpsilonAccepts(A: Nfa, R: Nfa, epsilon: Symbol, q: State, p: State, w: Word)
    requires A.Valid() && IsEpsilonFree(A, R, epsilon) && Step(A, q, epsilon, p) && AcceptsFrom(R, p, w)
    ensures AcceptsFrom(R, q, w)
  {
    forall c: State | InClosure(A, epsilon, p, c) ensures InClosure(A, epsilon, q, c) { ClosureStep(A, epsilon, q, p, c); }
    hide InClosure, Nfa.Valid, Step;
    if w == [] {
      assert FinalInClosure(A, epsilon, p);
    } else {
      var r := AcceptingStep(R, p, w);
      assert StepsFromClosure(A, epsilon, p, w[0], r);
      assert StepsFromClosure(A, epsilon, q, w[0], r);
      StepAccepts(R, q, w, r);
    }
  }

  /** What `A` accepts is accepted by `R` without its epsilons, ... */
  lemma {:induction false} ErasedAccepted(A: Nfa, R: Nfa, epsilon: Symbol, q: State, w: Word)
    requires A.Valid() && IsEpsilonFree(A, R, epsilon) && AcceptsFrom(A, q, w)
    ensures AcceptsFrom(R, q, Erased(w, epsilon))
    decreases |w|
  {
    SelfInClosure(A, epsilon, q);
    if w == [] {
      assert FinalInClosure(A, epsilon, q);
    } else {
      hide InClosure, Nfa.Valid, Step;
      var p := AcceptingStep(A, q, w);
      ErasedAccepted(A, R, epsilon, p, w[1..]);
      if w[0] == epsilon {
        EpsilonAccepts(A, R, epsilon, q, p, Erased(w[1..], epsilon));
        assert Erased(w, epsilon) == Erased(w[1..], epsilon);
      } else {
        assert StepsFromClosure(A, epsilon, q, w[0], p);
        assert Erased(w, epsilon)[1..] == Erased(w[1..], epsilon);
        StepAccepts(R, q, Erased(w, epsilon), p);
      }
    }
  }

  lemma SelfInClosure(A: Nfa, epsilon: Symbol, q: State)
    ensures InClosure(A, epsilon, q, q)
  {
    ReachSelf(SymbolGraph(A, epsilon), q);
  }

  /** A word accepted from the closure can be preceded by epsilons. */
  lemma {:induction false} PrecededByEpsilons(A: Nfa, epsilon: Symbol, p: seq<State>, w: Word) returns (w': Word)
    requires A.Valid() && IsPath(SymbolGraph(A, epsilon), p) && AcceptsFrom(A, p[|p| - 1], w)
    ensures AcceptsFrom(A, p[0], w') && Erased(w', epsilon) == Erased(w, epsilon)
    decreases |p|
  {
    if |p| == 1 {
      w' := w;
    } else {
      assert Edge(SymbolGraph(A, epsilon), p[0], p[0 + 1]);
      SymbolEdges(A, epsilon, p[0], p[1]);
      TailPath(SymbolGraph(A, epsilon), p);
      hide Step, Nfa.Valid, SymbolGraph, Edge, IsPath;
      var u := PrecededByEpsilons(A, epsilon, p[1..], w);
      w' := [epsilon] + u;
      assert w'[1..] == u;
      StepAccepts(A, p[0], w', p[1]);
    }
  }

  lemma FromClosure(A: Nfa, epsilon: Symbol, q: State, c: State, w: Word) returns (w': Word)
    requires A.Valid() && InClosure(A, epsilon, q, c) && AcceptsFrom(A, c, w)
    ensures AcceptsFrom(A, q, w') && Erased(w', epsilon) == Erased(w, epsilon)
  {
    hide AcceptsFrom, Nfa.Valid, Edge;
    var p :| IsPath(SymbolGraph(A, epsilon), p) && p[0] == q && p[|p| - 1] == c;
    w' := PrecededByEpsilons(A, epsilon, p, w);
  }

  /** ... and what `R` accepts is what is left of some word accepted by `A`. */
  lemma {:induction false} AcceptedErased(A: Nfa, R: Nfa, epsilon: Symbol, q: State, w: Word) returns (w': Word)
    requires A.Valid() && IsEpsilonFree(A, R, epsilon) && AcceptsFrom(R, q, w)
    ensures AcceptsFrom(A, q, w') && Erased(w', epsilon) == w
    decreases |w|
  {
    hide InClosure, Nfa.Valid, Step;
    if w == [] {
      var c: State :| InClosure(A, epsilon, q, c) && c in A.final;
      w' := FromClosure(A, epsilon, q, c, []);
    } else {
      var p := AcceptingStep(R, q, w);
      assert StepsFromClosure(A, epsilon, q, w[0], p);
      var c: State :| InClosure(A, epsilon, q, c) && Step(A, c, w[0], p);
      var u := AcceptedErased(A, R, epsilon, p, w[1..]);
      var v := [w[0]] + u;
      assert v[1..] == u;
      StepAccepts(A, c, v, p);
      assert Erased(v, epsilon) == [w[0]] + Erased(u, epsilon);
      w' := FromClosure(A, epsilon, q, c, v);
      assert [w[0]] + w[1..] == w;
    }
  }

  /** `w` is what is left of a word accepted by `A`. */
  ghost predicate AcceptsErased(A: Nfa, epsilon: Symbol, w: Word) {
    exists w': Word :: Accepts(A, w') && Erased(w', epsilon) == w
  }

  lemma EpsilonFreeLanguage(A: Nfa, R: Nfa, epsilon: Symbol, w: Word)
    requires A.Valid() && IsEpsilonFree(A, R, epsilon)
    ensures Accepts(R, w) <==> AcceptsErased(A, epsilon, w)
  {
    assert R.initial == A.initial;
    if Accepts(R, w) {
      var q: State :| q in R.initial && AcceptsFrom(R, q, w);
      var w' := AcceptedErased(A, R, epsilon, q, w);
      assert Accepts(A, w');
    }
    if AcceptsErased(A, epsilon, w) {
      var w': Word :| Accepts(A, w') && Erased(w', epsilon) == w;
      var q: State :| q in A.initial && AcceptsFrom(A, q, w');
      ErasedAccepted(A, R, epsilon, q, w');
    }
  }

  // ---------- Closures ----------

  type Closures = map<State, StateSet>

  function Lookup(closures: Closures, q: State): StateSet {
    if q in closures then closures[q] else {}
  }

  /** Closures hold only states that are reached by epsilon transitions, ... */
  ghost predicate Sound(A: Nfa, epsilon: Symbol, closures: Closures) {
    && (forall q <- closures :: q < A.size)
    && (forall q: State, c | c in Lookup(closures, q) :: c < A.size && InClosure(A, epsilon, q, c))
  }

  /** ... and for every state with transitions, itself and its epsilon successors. */
  ghost predicate Started(A: Nfa, epsilon: Symbol, closures: Closures) {
    forall q: State | A.At(q) != [] :: q in Lookup(closures, q) && forall t <- Targets(A.At(q), epsilon) :: t in Lookup(closures, q)
  }

  /** The closures of the epsilon successors are part of the closure. */
  ghost predicate ClosedAt(A: Nfa, epsilon: Symbol, closures: Closures, q: State) {
    forall t <- Targets(A.At(q), epsilon) :: Lookup(closures, t) <= Lookup(closures, q)
  }

  lemma PathLeaves(A: Nfa, epsilon: Symbol, p: seq<State>)
    requires IsPath(SymbolGraph(A, epsilon), p) && |p| > 1
    ensures A.At(p[0]) != []
  {
    assert Edge(SymbolGraph(A, epsilon), p[0], p[0 + 1]);
  }

  lemma {:induction false} ClosureComplete(A: Nfa, epsilon: Symbol, closures: Closures, p: seq<State>)
    requires A.Valid() && Started(A, epsilon, closures) && (forall q: State :: ClosedAt(A, epsilon, closures, q))
    requires IsPath(SymbolGraph(A, epsilon), p) && A.At(p[0]) != []
    ensures p[|p| - 1] in Lookup(closures, p[0])
    decreases |p|
  {
    if |p| > 1 {
      assert Edge(SymbolGraph(A, epsilon), p[0], p[0 + 1]);
      TailPath(SymbolGraph(A, epsilon), p);
      var t := p[1];
      assert t in Targets(A.At(p[0]), epsilon);
      assert ClosedAt(A, epsilon, closures, p[0]);
      if A.At(t) != [] {
        ClosureComplete(A, epsilon, closures, p[1..]);
      } else if |p| > 2 {
        PathLeaves(A, epsilon, p[1..]);
      }
    }
  }

  /** At the fixpoint the closure of a state with transitions is exact. */
  lemma ClosureExact(A: Nfa, epsilon: Symbol, closures: Closures, q: State, c: State)
    requires A.Valid() && Sound(A, epsilon, closures) && Started(A, epsilon, closures)
    requires (forall r: State :: ClosedAt(A, epsilon, closures, r)) && A.At(q) != []
    ensures c in Lookup(closures, q) <==> InClosure(A, epsilon, q, c)
  {
    if InClosure(A, epsilon, q, c) {
      var p :| IsPath(SymbolGraph(A, epsilon), p) && p[0] == q && p[|p| - 1] == c;
      ClosureComplete(A, epsilon, closures, p);
    }
  }

  /** A state without transitions has itself as its closure. */
  lemma ClosureOfDeadEnd(A: Nfa, epsilon: Symbol, q: State, c: State)
    requires A.Valid() && A.At(q) == []
    ensures InClosure(A, epsilon, q, c) <==> q == c
  {
    SelfInClosure(A, epsilon, q);
    if InClosure(A, epsilon, q, c) {
      var p :| IsPath(SymbolGraph(A, epsilon), p) && p[0] == q && p[|p| - 1] == c;
      if |p| > 1 { PathLeaves(A, epsilon, p); }
    }
  }

  // ---------- The fixpoint ----------

  /** The first loop: every state with transitions gets itself and its epsilon successors. */
  method StartClosures(A: Nfa, epsilon: Symbol) returns (closures: Closures)
    requires A.Valid()
    ensures Sound(A, epsilon, closures) && Started(A, epsilon, closures)
    ensures forall q: State :: q in closures <==> A.At(q) != []
  {
    closures := map[];
    for i := 0 to A.size
      invariant forall q: State :: q in closures <==> q < i && A.At(q) != []
      invariant forall q <- closures :: closures[q] == {q} + set t | t in Targets(A.At(q), epsilon)
    {
      if A.At(i) != [] {
        closures := closures[i := {i} + set t | t in Targets(A.At(i), epsilon)];
      }
    }
    forall q: State | A.At(q) != [] ensures q < A.size { }
    forall q: State, c | c in Lookup(closures, q) ensures c < A.size && InClosure(A, epsilon, q, c) {
      SelfInClosure(A, epsilon, q);
      if c in Targets(A.At(q), epsilon) {
        assert Edge(SymbolGraph(A, epsilon), q, c);
        SymbolEdges(A, epsilon, q, c);
        ReachEdge(SymbolGraph(A, epsilon), q, c);
      }
    }
  }

  /** What can still be added to the closures */
  ghost function Missing(A: Nfa, closures: Closures): set<(State, State)> {
    set q: State, c: State | q in Below(A.size) && c in Below(A.size) && c !in Lookup(closures, q) :: (q, c)
  }

  ghost predicate Grows(closures: Closures, closures': Closures) {
    forall q: State :: Lookup(closures, q) <= Lookup(closures', q)
  }

  lemma GrowingShrinksMissing(A: Nfa, closures: Closures, closures': Closures, q: State, c: State)
    requires Grows(closures, closures') && q < A.size && c < A.size && c !in Lookup(closures, q) && c in Lookup(closures', q)
    ensures Missing(A, closures') < Missing(A, closures)
  {
    assert (q, c) in Missing(A, closures) && (q, c) !in Missing(A, closures');
  }

  /** Add the closure of the epsilon successor `t` to that of `i`; the look-up inserts an empty
      closure for a `t` without transitions. */
  function AddClosure(closures: Closures, i: State, t: State): Closures
    requires i in closures
  {
    var known := if t in closures then closures else closures[t := {}];
    known[i := known[i] + known[t]]
  }

  lemma AddClosureEffect(A: Nfa, epsilon: Symbol, closures: Closures, i: State, t: State)
    requires A.Valid() && Sound(A, epsilon, closures) && Started(A, epsilon, closures) && i in closures && t in Targets(A.At(i), epsilon)
    ensures var closures' := AddClosure(closures, i, t);
            && Sound(A, epsilon, closures') && Started(A, epsilon, closures') && Grows(closures, closures')
            && (forall q: State :: Lookup(closures', q) == if q == i then Lookup(closures, i) + Lookup(closures, t) else Lookup(closures, q))
            && i in closures' && (forall q <- closures :: q in closures')
  {
    hide InClosure, Nfa.Valid, Targets, Step;
    var closures' := AddClosure(closures, i, t);
    AddClosureLookup(closures, i, t);
    assert i < A.size && Edge(SymbolGraph(A, epsilon), i, t);
    SymbolEdges(A, epsilon, i, t);
    hide Lookup, AddClosure, Edge;
    forall c | c in Lookup(closures, t) ensures InClosure(A, epsilon, i, c) {
      ClosureStep(A, epsilon, i, t, c);
    }
  }

  lemma AddClosureLookup(closures: Closures, i: State, t: State)
    requires i in closures
    ensures var closures' := AddClosure(closures, i, t);
            && (forall q: State :: Lookup(closures', q) == if q == i then Lookup(closures, i) + Lookup(closures, t) else Lookup(closures, q))
            && (forall q: State :: q in closures' <==> q in closures || q == t)
  {
  }

  /** One state's turn in a pass of the fixpoint. */
  method PassState(A: Nfa, epsilon: Symbol, closures0: Closures, i: State) returns (closures: Closures, changed: bool)
    requires A.Valid() && Sound(A, epsilon, closures0) && Started(A, epsilon, closures0) && i in closures0
    ensures Sound(A, epsilon, closures) && Started(A, epsilon, closures) && Grows(closures0, closures)
    ensures forall q <- closures0 :: q in closures
    ensures changed ==> Missing(A, closures) < Missing(A, closures0)
    ensures !changed ==> (forall q: State :: Lookup(closures, q) == Lookup(closures0, q)) && ClosedAt(A, epsilon, closures, i)
  {
    hide Sound, Started, Missing, AddClosure;
    closures, changed := closures0, false;
    var targets := Targets(A.At(i), epsilon);
    for k := 0 to |targets|
      invariant Sound(A, epsilon, closures) && Started(A, epsilon, closures) && Grows(closures0, closures) && i in closures
      invariant forall q <- closures0 :: q in closures
      invariant Missing(A, closures) <= Missing(A, closures0) && (changed ==> Missing(A, closures) < Missing(A, closures0))
      invariant !changed ==> forall q: State :: Lookup(closures, q) == Lookup(closures0, q)
      invariant !changed ==> forall t <- targets[..k] :: Lookup(closures0, t) <= Lookup(closures0, i)
    {
      var t := targets[k];
      assert t in targets && targets[..k + 1] == targets[..k] + [t];
      ghost var before := closures;
      AddClosureEffect(A, epsilon, closures, i, t);
      if !(Lookup(closures, t) <= Lookup(closures, i)) {
        changed := true;
        ghost var c :| c in Lookup(closures, t) && c !in Lookup(closures, i);
        SoundBound(A, epsilon, closures, t, c);
        SoundBound(A, epsilon, closures, i, i);
        GrowingShrinksMissing(A, closures, AddClosure(closures, i, t), i, c);
      }
      MissingMonotone(A, before, AddClosure(closures, i, t));
      closures := AddClosure(closures, i, t);
    }
    assert targets[..|targets|] == targets;
  }

  lemma SoundBound(A: Nfa, epsilon: Symbol, closures: Closures, q: State, c: State)
    requires Sound(A, epsilon, closures)
    ensures c in Lookup(closures, q) ==> c < A.size
    ensures q in closures ==> q < A.size
  {
  }

  lemma MissingMonotone(A: Nfa, closures: Closures, closures': Closures)
    requires Grows(closures, closures')
    ensures Missing(A, closures') <= Missing(A, closures)
  {
  }

  ghost predicate ClosedBelow(A: Nfa, epsilon: Symbol, closures: Closures, n: nat) {
    forall q: State | q < n :: ClosedAt(A, epsilon, closures, q)
  }

  lemma ClosedSame(A: Nfa, epsilon: Symbol, closures: Closures, closures': Closures, n: nat)
    requires ClosedBelow(A, epsilon, closures, n) && forall q: State :: Lookup(closures', q) == Lookup(closures, q)
    ensures ClosedBelow(A, epsilon, closures', n)
  {
    hide Lookup;
    forall q: State | q < n ensures ClosedAt(A, epsilon, closures', q) {
      assert ClosedAt(A, epsilon, closures, q);
    }
  }

  /** One pass over all states with epsilon transitions. */
  method Pass(A: Nfa, epsilon: Symbol, closures0: Closures) returns (closures: Closures, changed: bool)
    requires A.Valid() && Sound(A, epsilon, closures0) && Started(A, epsilon, closures0)
    requires forall q: State | A.At(q) != [] :: q in closures0
    ensures Sound(A, epsilon, closures) && Started(A, epsilon, closures) && forall q: State | A.At(q) != [] :: q in closures
    ensures Missing(A, closures) <= Missing(A, closures0) && (changed ==> Missing(A, closures) < Missing(A, closures0))
    ensures !changed ==> ClosedBelow(A, epsilon, closures, A.size)
  {
    hide Sound, Started, Missing, ClosedBelow, Lookup, Nfa.Valid, Grows;
    closures, changed := closures0, false;
    assert ClosedBelow(A, epsilon, closures, 0) by { NoneClosed(A, epsilon, closures); }
    for i := 0 to A.size
      invariant Sound(A, epsilon, closures) && Started(A, epsilon, closures) && forall q: State | A.At(q) != [] :: q in closures
      invariant Missing(A, closures) <= Missing(A, closures0) && (changed ==> Missing(A, closures) < Missing(A, closures0))
      invariant !changed ==> ClosedBelow(A, epsilon, closures, i)
    {
      if Targets(A.At(i), epsilon) != [] {
        ghost var before := closures;
        var more;
        closures, more := PassState(A, epsilon, closures, i);
        changed := changed || more;
        MissingMonotone(A, before, closures);
        if !changed {
          ClosedSame(A, epsilon, before, closures, i);
          OneMoreClosed(A, epsilon, closures, i);
        }
      } else if !changed {
        NothingToClose(A, epsilon, closures, i);
      }
    }
  }

  lemma NoneClosed(A: Nfa, epsilon: Symbol, closures: Closures)
    ensures ClosedBelow(A, epsilon, closures, 0)
  {
  }

  lemma OneMoreClosed(A: Nfa, epsilon: Symbol, closures: Closures, i: nat)
    requires ClosedBelow(A, epsilon, closures, i) && ClosedAt(A, epsilon, closures, i)
    ensures ClosedBelow(A, epsilon, closures, i + 1)
  {
  }

  lemma NothingToClose(A: Nfa, epsilon: Symbol, closures: Closures, i: nat)
    requires ClosedBelow(A, epsilon, closures, i) && Targets(A.At(i), epsilon) == []
    ensures ClosedBelow(A, epsilon, closures, i + 1)
  {
  }

  /** Every state with transitions has its epsilon closure; no other closure holds too much. */
  ghost predicate Exact(A: Nfa, epsilon: Symbol, closures: Closures) {
    && (forall q <- closures :: q < A.size)
    && (forall q: State | A.At(q) != [] :: q in closures)
    && (forall q: State, c: State | q in closures && c in closures[q] :: InClosure(A, epsilon, q, c))
    && (forall q: State, c: State | A.At(q) != [] && q in closures && InClosure(A, epsilon, q, c) :: c in closures[q])
  }

  /** The epsilon closures of all states with transitions. */
  method ComputeClosures(A: Nfa, epsilon: Symbol) returns (closures: Closures)
    requires A.Valid()
    ensures Exact(A, epsilon, closures)
  {
    hide Exact, Sound, Started, Missing, ClosedBelow, InClosure, ValidPost;
    closures := StartClosures(A, epsilon);
    var changed := true;
    while changed
      invariant Sound(A, epsilon, closures) && Started(A, epsilon, closures) && forall q: State | A.At(q) != [] :: q in closures
      invariant !changed ==> ClosedBelow(A, epsilon, closures, A.size)
      decreases Missing(A, closures), if changed then 1 else 0
    {
      closures, changed := Pass(A, epsilon, closures);
    }
    ClosuresExact(A, epsilon, closures);
  }

  lemma ClosuresExact(A: Nfa, epsilon: Symbol, closures: Closures)
    requires A.Valid() && Sound(A, epsilon, closures) && Started(A, epsilon, closures) && ClosedBelow(A, epsilon, closures, A.size)
    requires forall q: State | A.At(q) != [] :: q in closures
    ensures Exact(A, epsilon, closures)
  {
    forall q: State ensures ClosedAt(A, epsilon, closures, q) {
      if q >= A.size { assert A.At(q) == []; }
    }
    forall q: State, c: State | A.At(q) != [] && q in closures && InClosure(A, epsilon, q, c) ensures c in closures[q] {
      ClosureExact(A, epsilon, closures, q, c);
    }
    forall q: State, c: State | q in closures && c in closures[q] ensures InClosure(A, epsilon, q, c) {
      assert c in Lookup(closures, q);
    }
    hide InClosure, Started, ClosedAt;
  }

  // ---------- The result ----------

  /** Copy the non-epsilon transitions of `c` to `q`. */
  method CopyMoves(A: Nfa, epsilon: Symbol, delta: Delta, q: State, c: State)
    requires A.Valid() && delta.Valid() && q < A.size && |delta.statePosts| <= A.size
    modifies delta
    ensures delta.Valid() && |delta.statePosts| <= A.size
    ensures forall x: State, a, p: State :: HasTransition(delta.statePosts, x, a, p) <==>
              old(HasTransition(delta.statePosts, x, a, p)) || (x == q && a != epsilon && Step(A, c, a, p))
  {
    var moves := Moves(A.At(c));
    assert c < |A.delta| ==> ValidPost(A.delta[c], A.size);
    MovesEnumeratePost(A.At(c), A.size);
    hide HasTransition, SortedDelta;
    for k := 0 to |moves|
      invariant delta.Valid() && |delta.statePosts| <= A.size
      invariant forall x: State, a, p: State :: HasTransition(delta.statePosts, x, a, p) <==>
                  old(HasTransition(delta.statePosts, x, a, p)) || (x == q && a != epsilon && Move(a, p) in moves[..k])
    {
      var m := moves[k];
      assert m in moves && moves[..k + 1] == moves[..k] + [m];
      StepIsState(A, c, m.symbol, m.target);
      if m.symbol != epsilon { delta.Add(q, m.symbol, m.target); }
    }
    assert moves[..|moves|] == moves;
  }

  ghost predicate CopiedFrom(A: Nfa, epsilon: Symbol, cs: StateSet, a: Symbol, p: State) {
    a != epsilon && exists c: State :: c in cs && Step(A, c, a, p)
  }

  /** Give `q` the transitions of its closure. */
  method CopyClosure(A: Nfa, epsilon: Symbol, delta: Delta, q: State, cs: StateSet)
    requires A.Valid() && delta.Valid() && q < A.size && |delta.statePosts| <= A.size
    modifies delta
    ensures delta.Valid() && |delta.statePosts| <= A.size
    ensures forall x: State, a, p: State :: HasTransition(delta.statePosts, x, a, p) <==>
              old(HasTransition(delta.statePosts, x, a, p)) || (x == q && CopiedFrom(A, epsilon, cs, a, p))
  {
    hide HasTransition, Step, SortedDelta, ValidPost;
    var todo := cs;
    while todo != {}
      invariant todo <= cs && delta.Valid() && |delta.statePosts| <= A.size
      invariant forall x: State, a, p: State :: HasTransition(delta.statePosts, x, a, p) <==>
                  old(HasTransition(delta.statePosts, x, a, p)) || (x == q && CopiedFrom(A, epsilon, cs - todo, a, p))
    {
      var c: State :| c in todo;
      CopyMoves(A, epsilon, delta, q, c);
      assert cs - (todo - {c}) == (cs - todo) + {c};
      todo := todo - {c};
    }
    assert cs - todo == cs;
  }

  ghost predicate CopiedFor(A: Nfa, epsilon: Symbol, closures: Closures, done: StateSet, q: State, a: Symbol, p: State) {
    q in done && q in closures && CopiedFrom(A, epsilon, closures[q], a, p)
  }

  /** `remove_epsilon`: exactly the words of the input with the epsilons erased. */
  method RemoveEpsilon(A: Nfa, epsilon: Symbol) returns (R: Nfa)
    requires A.Valid()
    ensures R.Valid() && IsEpsilonFree(A, R, epsilon)
    ensures forall w: Word :: Accepts(R, w) <==> AcceptsErased(A, epsilon, w)
  {
    var closures := ComputeClosures(A, epsilon);
    assert forall q <- closures :: q < A.size by { ExactBound(A, epsilon, closures); }
    hide Exact;
    var delta := new Delta(0);
    var final := A.final;
    var todo := closures.Keys;
    NothingCopied(A, epsilon, closures, delta.statePosts);
    hide HasTransition, Step, SortedDelta, ValidPost, InClosure, CopiedFor, CopiedFrom, Targets;
    while todo != {}
      invariant todo <= closures.Keys && delta.Valid() && fresh(delta) && |delta.statePosts| <= A.size
      invariant forall q: State, a, p: State :: HasTransition(delta.statePosts, q, a, p) <==> CopiedFor(A, epsilon, closures, closures.Keys - todo, q, a, p)
      invariant forall q: State :: q in final <==> q in A.final || (q in closures && q !in todo && !(closures[q] !! A.final))
    {
      var q: State :| q in todo;
      if !(closures[q] !! A.final) { final := final + {q}; }
      CopyClosure(A, epsilon, delta, q, closures[q]);
      OneMoreCopied(A, epsilon, closures, closures.Keys - todo, q);
      assert closures.Keys - (todo - {q}) == (closures.Keys - todo) + {q};
      todo := todo - {q};
    }
    R := Nfa(A.size, delta.statePosts, A.initial, final);
    assert closures.Keys - todo == closures.Keys;
    CopiedIsEpsilonFree(A, R, epsilon, closures);
    forall w: Word ensures Accepts(R, w) <==> AcceptsErased(A, epsilon, w) { EpsilonFreeLanguage(A, R, epsilon, w); }
  }

  lemma ExactBound(A: Nfa, epsilon: Symbol, closures: Closures)
    requires Exact(A, epsilon, closures)
    ensures forall q <- closures :: q < A.size
  {
  }

  lemma NothingCopied(A: Nfa, epsilon: Symbol, closures: Closures, delta: seq<StatePost>)
    requires delta == []
    ensures forall q: State, a, p: State :: HasTransition(delta, q, a, p) <==> CopiedFor(A, epsilon, closures, closures.Keys - closures.Keys, q, a, p)
  {
  }

  lemma OneMoreCopied(A: Nfa, epsilon: Symbol, closures: Closures, done: StateSet, q: State)
    requires q in closures
    ensures forall x: State, a, p: State :: CopiedFor(A, epsilon, closures, done + {q}, x, a, p) <==>
              CopiedFor(A, epsilon, closures, done, x, a, p) || (x == q && CopiedFrom(A, epsilon, closures[q], a, p))
  {
    hide CopiedFrom;
  }

  lemma CopiedIsEpsilonFree(A: Nfa, R: Nfa, epsilon: Symbol, closures: Closures)
    requires A.Valid() && SortedDelta(R.delta) && |R.delta| <= R.size && R.size == A.size && R.initial == A.initial
    requires Exact(A, epsilon, closures)
    requires forall q: State, a, p: State :: HasTransition(R.delta, q, a, p) <==> CopiedFor(A, epsilon, closures, closures.Keys, q, a, p)
    requires forall q: State :: q in R.final <==> q in A.final || (q in closures && !(closures[q] !! A.final))
    ensures R.Valid() && IsEpsilonFree(A, R, epsilon)
  {
    forall q: State, a, p: State ensures Step(R, q, a, p) <==> StepsFromClosure(A, epsilon, q, a, p) {
      assert Step(R, q, a, p) <==> HasTransition(R.delta, q, a, p);
      CopiedIsStep(A, epsilon, closures, q, a, p);
    }
    forall q: State ensures q in R.final <==> FinalInClosure(A, epsilon, q) {
      CopiedIsFinal(A, epsilon, closures, q);
    }
    forall q: State, a, p: State | HasTransition(R.delta, q, a, p) ensures p < R.size {
      var c: State :| c in closures[q] && Step(A, c, a, p);
      StepIsState(A, c, a, p);
    }
    SortedPostIsValid(R.delta, R.size);
  }

  lemma CopiedIsStep(A: Nfa, epsilon: Symbol, closures: Closures, q: State, a: Symbol, p: State)
    requires A.Valid() && Exact(A, epsilon, closures)
    ensures CopiedFor(A, epsilon, closures, closures.Keys, q, a, p) <==> StepsFromClosure(A, epsilon, q, a, p)
  {
    if StepsFromClosure(A, epsilon, q, a, p) {
      var c: State :| InClosure(A, epsilon, q, c) && Step(A, c, a, p);
      if A.At(q) == [] {
        ClosureOfDeadEnd(A, epsilon, q, c);
      }
      hide InClosure, Step;
    }
  }

  lemma CopiedIsFinal(A: Nfa, epsilon: Symbol, closures: Closures, q: State)
    requires A.Valid() && Exact(A, epsilon, closures)
    ensures q in A.final || (q in closures && !(closures[q] !! A.final)) <==> FinalInClosure(A, epsilon, q)
  {
    SelfInClosure(A, epsilon, q);
    if FinalInClosure(A, epsilon, q) {
      var c: State :| InClosure(A, epsilon, q, c) && c in A.final;
      if A.At(q) == [] { ClosureOfDeadEnd(A, epsilon, q, c); }
    }
    hide InClosure;
  }
}
