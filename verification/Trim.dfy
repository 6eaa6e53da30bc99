/** Useful states and trimming (get_useful_states and trim of src/nfa/nfa.cc). */
module Trimming {
  import opened Automata
  import opened Counting
  import opened Options
  import opened DeltaRelation
  import opened Distances
  import opened Graphs
  import opened TarjanComponents
  import opened TarjanUseful
  import opened TarjanSearch

  // ---------- Useful states ----------

  /** The targets of the moves of `q`, in iteration order. */
  function MoveTargets(A: Nfa, q: State): (r: seq<State>)
    ensures forall p :: p in r <==> exists a :: Move(a, p) in Moves(A.At(q))
  {
    var moves := Moves(A.At(q));
    var r := seq(|moves|, i requires 0 <= i < |moves| => moves[i].target);
    assert forall i | 0 <= i < |r| :: moves[i] == Move(moves[i].symbol, r[i]) && moves[i] in moves;
    assert forall m | m in moves :: m.target in r by {
      forall m | m in moves ensures m.target in r {
        var i :| 0 <= i < |moves| && moves[i] == m;
        assert r[i] == m.target;
      }
    }
    r
  }

  function MoveGraph(A: Nfa): (G: Graph)
    ensures |G| == A.size && forall q | 0 <= q < A.size :: G[q] == MoveTargets(A, q)
  {
    seq(A.size, q requires 0 <= q => MoveTargets(A, q))
  }

  lemma EdgeIsStep(A: Nfa, q: State, p: State)
    requires A.Valid()
    ensures Edge(MoveGraph(A), q, p) <==> exists a :: Step(A, q, a, p)
  {
    MovesFrom(A, q);
    forall a | Step(A, q, a, p) ensures q < A.size && Move(a, p) in Moves(A.At(q)) {
      StepIsState(A, q, a, p);
    }
    hide Step, Moves;
  }

  lemma MoveGraphValid(A: Nfa)
    requires A.Valid()
    ensures ValidGraph(MoveGraph(A))
  {
    var G := MoveGraph(A);
    forall v: State, w: State | v < |G| && w in G[v] ensures w < |G| {
      MovesFrom(A, v);
    }
  }

  lemma {:induction false} PathHasRun(A: Nfa, p: seq<State>) returns (w: Word)
    requires A.Valid() && IsPath(MoveGraph(A), p)
    ensures IsRun(A, p, w)
    decreases |p|
  {
    w := [];
    if |p| > 1 {
      assert Edge(MoveGraph(A), p[0], p[0 + 1]);
      EdgeIsStep(A, p[0], p[1]);
      TailPath(MoveGraph(A), p);
      hide MoveGraph, Step, IsPath, Nfa.Valid, Edge;
      var a :| Step(A, p[0], a, p[1]);
      var rest := PathHasRun(A, p[1..]);
      w := [a] + rest;
    }
  }

  lemma RunIsPath(A: Nfa, p: seq<State>, w: Word)
    requires A.Valid() && IsRun(A, p, w)
    ensures IsPath(MoveGraph(A), p)
  {
    hide Step, Nfa.Valid, Edge, MoveGraph;
    forall i | 0 <= i < |p| - 1 ensures Edge(MoveGraph(A), p[i], p[i + 1]) {
      assert Step(A, p[i], w[i], p[i + 1]);
      EdgeIsStep(A, p[i], p[i + 1]);
    }
  }

  lemma ReachIsReading(A: Nfa, q: State, p: State)
    requires A.Valid()
    ensures Reach(MoveGraph(A), q, p) <==> exists w :: ReadsTo(A, q, w, p)
  {
    if Reach(MoveGraph(A), q, p) {
      var path :| IsPath(MoveGraph(A), path) && path[0] == q && path[|path| - 1] == p;
      var w := PathHasRun(A, path);
      assert ReadsTo(A, q, w, p);
    }
    forall w | ReadsTo(A, q, w, p) ensures Reach(MoveGraph(A), q, p) {
      var path :| IsRun(A, path, w) && path[0] == q && path[|w|] == p;
      RunIsPath(A, path, w);
      assert path[|path| - 1] == p;
    }
  }

  /** Some word leads from a state of `I` to `q`. */
  ghost predicate LeadsFrom(A: Nfa, I: StateSet, q: State) {
    exists q0, w :: q0 in I && ReadsTo(A, q0, w, q)
  }

  /** Some word leads from `q` to a state of `F`. */
  ghost predicate LeadsInto(A: Nfa, q: State, F: StateSet) {
    exists f, w :: f in F && ReadsTo(A, q, w, f)
  }

  lemma ReachedIsLed(A: Nfa, I: StateSet, q: State)
    requires A.Valid()
    ensures ReachedFrom(MoveGraph(A), I, q) <==> LeadsFrom(A, I, q)
  {
    forall q0 ensures Reach(MoveGraph(A), q0, q) <==> exists w :: ReadsTo(A, q0, w, q) {
      ReachIsReading(A, q0, q);
    }
    hide Reach, ReadsTo, MoveGraph;
  }

  lemma ReachingIsLed(A: Nfa, q: State, F: StateSet)
    requires A.Valid()
    ensures ReachesSet(MoveGraph(A), F, q) <==> LeadsInto(A, q, F)
  {
    forall f ensures Reach(MoveGraph(A), q, f) <==> exists w :: ReadsTo(A, q, w, f) {
      ReachIsReading(A, q, f);
    }
    hide Reach, ReadsTo, MoveGraph;
  }

  /** Between the automaton's own ends these are the useful states. */
  lemma UsefulIsLed(A: Nfa, q: State)
    ensures Reachable(A, q) <==> LeadsFrom(A, A.initial, q)
    ensures CoReachable(A, q) <==> LeadsInto(A, q, A.final)
  {
    if LeadsInto(A, q, A.final) {
      var f, w :| f in A.final && ReadsTo(A, q, w, f);
      ReadsToFinal(A, q, w, f);
    }
    if CoReachable(A, q) {
      var w :| AcceptsFrom(A, q, w);
      var path := AcceptingRun(A, q, w);
      assert ReadsTo(A, q, w, path[|w|]);
    }
    hide ReadsTo, AcceptsFrom;
  }

  lemma ReadsToFinal(A: Nfa, q: State, w: Word, f: State)
    requires ReadsTo(A, q, w, f) && f in A.final
    ensures AcceptsFrom(A, q, w)
  {
    var path :| IsRun(A, path, w) && path[0] == q && path[|w|] == f;
    RunAccepts(A, path, w, []);
    assert w + [] == w;
  }

  /** A listing of a finite set */
  method Listing(S: StateSet) returns (r: seq<State>)
    ensures Elements(r) == S && Distinct(r)
  {
    r := [];
    var todo := S;
    while todo != {}
      invariant todo <= S && Elements(r) == S - todo && Distinct(r)
    {
      var q :| q in todo;
      assert q !in Elements(r);
      DistinctSnoc(r, q);
      assert Elements(r + [q]) == Elements(r) + {q};
      r := r + [q];
      todo := todo - {q};
    }
  }

  /** `get_useful_states`: exactly the states on some accepting run between the given initial and final
      states, those of the automaton unless others are given; and the components found on the way are
      maximal, in reverse topological order, and cover the reachable states. */
  method GetUsefulStates(A: Nfa, initialStates: Option<StateSet>, finalStates: Option<StateSet>)
    returns (useful: seq<bool>, sccs: seq<seq<State>>)
    requires A.Valid() && (initialStates.Some? ==> forall q <- initialStates.value :: q < A.size)
    ensures |useful| == A.size && Topological(MoveGraph(A), sccs)
    ensures forall q: State | q < A.size :: useful[q] <==>
              && LeadsFrom(A, if initialStates.Some? then initialStates.value else A.initial, q)
              && LeadsInto(A, q, if finalStates.Some? then finalStates.value else A.final)
    ensures forall q: State :: q in Emitted(sccs) <==> LeadsFrom(A, if initialStates.Some? then initialStates.value else A.initial, q)
  {
    hide Topological, Emitted, LeadsFrom, LeadsInto, ReachedFrom, ReachesSet, MoveGraph;
    var usedInitial := if initialStates.Some? then initialStates.value else A.initial;
    var usedFinal := if finalStates.Some? then finalStates.value else A.final;
    var initial := Listing(usedInitial);
    MoveGraphValid(A);
    forall q | q in initial ensures q < A.size {
      assert q in Elements(initial) && q in usedInitial;
    }
    useful, sccs := DiscoverComponents(MoveGraph(A), initial, usedFinal);
    forall q: State ensures ReachedFrom(MoveGraph(A), usedInitial, q) <==> LeadsFrom(A, usedInitial, q) {
      ReachedIsLed(A, usedInitial, q);
    }
    forall q: State | q < A.size ensures useful[q] <==> LeadsFrom(A, usedInitial, q) && LeadsInto(A, q, usedFinal) {
      ReachingIsLed(A, q, usedFinal);
      assert Flag(useful, q) <==> useful[q];
    }
  }

  // ---------- Trimming ----------

  /** `B` is `A` restricted to the staying states, which `renaming` numbers. */
  ghost predicate IsRestriction(A: Nfa, B: Nfa, staying: seq<bool>, renaming: seq<State>) {
    && |staying| == |renaming| == A.size
    && (forall q: State | q < A.size && staying[q] :: renaming[q] < B.size)
    && (forall p: State, q: State | p < q < A.size && staying[p] && staying[q] :: renaming[p] < renaming[q])
    && (forall r: State | r < B.size :: HasOriginal(staying, renaming, r))
    && (forall q: State, r: State, a | q < A.size && staying[q] :: Step(B, renaming[q], a, r) <==> StepsTo(A, staying, renaming, q, a, r))
    && (forall q: State | q < A.size && staying[q] :: (renaming[q] in B.initial <==> q in A.initial) && (renaming[q] in B.final <==> q in A.final))
  }

  ghost predicate NumberOf(staying: seq<bool>, renaming: seq<State>, q: State, r: State)
    requires |staying| == |renaming|
  {
    Stays(staying, q) && renaming[q] == r
  }

  ghost predicate HasOriginal(staying: seq<bool>, renaming: seq<State>, r: State)
    requires |staying| == |renaming|
  {
    exists q: State :: NumberOf(staying, renaming, q, r)
  }

  /** Some staying state renamed to `r` is a successor of `q`. */
  ghost predicate StepsTo(A: Nfa, staying: seq<bool>, renaming: seq<State>, q: State, a: Symbol, r: State)
    requires |staying| == |renaming|
  {
    exists p: State :: Step(A, q, a, p) && Stays(staying, p) && renaming[p] == r
  }

  ghost predicate UsefulStay(A: Nfa, staying: seq<bool>) {
    |staying| == A.size && forall q: State | q < A.size :: staying[q] <==> Useful(A, q)
  }

  lemma UsefulSuccessor(A: Nfa, q: State, a: Symbol, p: State, w: Word)
    requires A.Valid() && Useful(A, q) && Step(A, q, a, p) && AcceptsFrom(A, p, w)
    ensures Useful(A, p) && p < A.size
  {
    StepIsState(A, q, a, p);
    var q0, u :| q0 in A.initial && ReadsTo(A, q0, u, q);
    assert ReachedBy(A, u, q);
    ReachedByStep(A, u, q, a, p);
  }

  /** Useful states keep their right languages. */
  lemma {:induction false} RestrictionRightLanguage(A: Nfa, B: Nfa, staying: seq<bool>, renaming: seq<State>, q: State, w: Word)
    requires A.Valid() && IsRestriction(A, B, staying, renaming) && UsefulStay(A, staying) && q < A.size && staying[q]
    ensures AcceptsFrom(B, renaming[q], w) <==> AcceptsFrom(A, q, w)
    decreases |w|
  {
    hide Step, Nfa.Valid, Useful;
    if w != [] {
      if AcceptsFrom(A, q, w) {
        var p: State :| Step(A, q, w[0], p) && AcceptsFrom(A, p, w[1..]);
        UsefulSuccessor(A, q, w[0], p, w[1..]);
        RestrictionRightLanguage(A, B, staying, renaming, p, w[1..]);
        assert Stays(staying, p) && StepsTo(A, staying, renaming, q, w[0], renaming[p]);
      }
      if AcceptsFrom(B, renaming[q], w) {
        var r: State :| Step(B, renaming[q], w[0], r) && AcceptsFrom(B, r, w[1..]);
        assert StepsTo(A, staying, renaming, q, w[0], r);
        var p: State :| Step(A, q, w[0], p) && Stays(staying, p) && renaming[p] == r;
        RestrictionRightLanguage(A, B, staying, renaming, p, w[1..]);
      }
    }
  }

  lemma RestrictionLanguage(A: Nfa, B: Nfa, staying: seq<bool>, renaming: seq<State>)
    requires A.Valid() && B.Valid() && IsRestriction(A, B, staying, renaming) && UsefulStay(A, staying)
    ensures SameLanguage(A, B)
  {
    hide IsRestriction, Nfa.Valid, AcceptsFrom, UsefulStay;
    forall w: Word ensures Accepts(A, w) <==> Accepts(B, w) {
      if Accepts(A, w) {
        var q :| q in A.initial && AcceptsFrom(A, q, w);
        RestrictionAccepts(A, B, staying, renaming, q, w);
      }
      if Accepts(B, w) {
        var r :| r in B.initial && AcceptsFrom(B, r, w);
        RestrictionAccepted(A, B, staying, renaming, r, w);
      }
    }
  }

  lemma RestrictionAccepts(A: Nfa, B: Nfa, staying: seq<bool>, renaming: seq<State>, q: State, w: Word)
    requires A.Valid() && IsRestriction(A, B, staying, renaming) && UsefulStay(A, staying)
    requires q in A.initial && AcceptsFrom(A, q, w)
    ensures Accepts(B, w)
  {
    assert q < A.size;
    InitialUseful(A, q, w);
    hide Step, AcceptsFrom, Useful, ValidPost;
    RestrictionRightLanguage(A, B, staying, renaming, q, w);
  }

  lemma RestrictionAccepted(A: Nfa, B: Nfa, staying: seq<bool>, renaming: seq<State>, r: State, w: Word)
    requires A.Valid() && B.Valid() && IsRestriction(A, B, staying, renaming) && UsefulStay(A, staying)
    requires r in B.initial && AcceptsFrom(B, r, w)
    ensures Accepts(A, w)
  {
    assert r < B.size;
    hide Step, AcceptsFrom, Useful, ValidPost;
    assert HasOriginal(staying, renaming, r);
    var q: State :| NumberOf(staying, renaming, q, r);
    RestrictionRightLanguage(A, B, staying, renaming, q, w);
  }

  lemma InitialUseful(A: Nfa, q: State, w: Word)
    requires A.Valid() && q in A.initial && AcceptsFrom(A, q, w)
    ensures Useful(A, q)
  {
    ReachedByEmpty(A, q);
  }

  /** A word that leads `A` to a staying state leads `B` to its new number. */
  lemma {:induction false} RestrictionReached(A: Nfa, B: Nfa, staying: seq<bool>, renaming: seq<State>, u: Word, q: State)
    requires A.Valid() && IsRestriction(A, B, staying, renaming) && UsefulStay(A, staying) && q < A.size && staying[q]
    requires ReachedBy(A, u, q)
    ensures ReachedBy(B, u, renaming[q])
    decreases |u|
  {
    hide Step, Nfa.Valid;
    if u == [] {
      var q0 :| q0 in A.initial && ReadsTo(A, q0, u, q);
      ReachedByEmpty(B, renaming[q]);
    } else {
      var n := |u| - 1;
      var p := ReachedByLast(A, u, q);
      PredecessorUseful(A, u[..n], p, u[n], q);
      RestrictionReached(A, B, staying, renaming, u[..n], p);
      assert Stays(staying, q) && StepsTo(A, staying, renaming, p, u[n], renaming[q]);
      ReachedByStep(B, u[..n], renaming[p], u[n], renaming[q]);
      assert u[..n] + [u[n]] == u;
    }
  }

  lemma PredecessorUseful(A: Nfa, u: Word, p: State, a: Symbol, q: State)
    requires A.Valid() && ReachedBy(A, u, p) && Step(A, p, a, q) && Useful(A, q)
    ensures Useful(A, p) && p < A.size
  {
    StepIsState(A, p, a, q);
    var v :| AcceptsFrom(A, q, v);
    AcceptsFromCons(A, p, a, q, v);
    var q0 :| q0 in A.initial && ReadsTo(A, q0, u, p);
  }

  lemma RestrictionTrimmed(A: Nfa, B: Nfa, staying: seq<bool>, renaming: seq<State>)
    requires A.Valid() && IsRestriction(A, B, staying, renaming) && UsefulStay(A, staying)
    ensures Trimmed(B)
  {
    forall r: State | r < B.size ensures Useful(B, r) {
      assert HasOriginal(staying, renaming, r);
      var q: State :| NumberOf(staying, renaming, q, r);
      assert Useful(A, q);
      var q0, u :| q0 in A.initial && ReadsTo(A, q0, u, q);
      assert ReachedBy(A, u, q);
      RestrictionReached(A, B, staying, renaming, u, q);
      var v :| AcceptsFrom(A, q, v);
      RestrictionRightLanguage(A, B, staying, renaming, q, v);
      var r0 :| r0 in B.initial && ReadsTo(B, r0, u, r);
      assert Reachable(B, r);
    }
  }

  // ---------- The method ----------

  lemma {:induction false} KeptDeltaAt(delta: seq<StatePost>, staying: seq<bool>, renaming: seq<State>, n: nat, q: State)
    requires n <= |delta| <= |staying| == |renaming| && q < n && staying[q]
    ensures Staying(staying, q) < Staying(staying, n)
    ensures KeptDelta(delta, staying, renaming, n)[Staying(staying, q)] == KeptPost(delta[q], staying, renaming)
  {
    StayingMonotone(staying, q, n);
    if q < n - 1 { KeptDeltaAt(delta, staying, renaming, n - 1, q); }
  }

  lemma {:induction false} EveryNumberUsed(staying: seq<bool>, n: nat, r: State) returns (q: State)
    requires n <= |staying| && r < Staying(staying, n)
    ensures q < n && staying[q] && Staying(staying, q) == r
  {
    if staying[n - 1] && r == Staying(staying, n - 1) {
      q := n - 1;
    } else {
      q := EveryNumberUsed(staying, n - 1, r);
    }
  }

  /** The posts of the restricted automaton. */
  lemma RestrictedPost(A: Nfa, B: Nfa, staying: seq<bool>, renaming: seq<State>, q: State)
    requires A.Valid() && |staying| == A.size && NumbersStaying(staying, renaming) && Stays(staying, q)
    requires B.delta == KeptDelta(A.delta, staying, renaming, |A.delta|)
    ensures B.At(renaming[q]) == KeptPost(A.At(q), staying, renaming)
  {
    hide ValidPost, KeptPost;
    if q < |A.delta| {
      KeptDeltaAt(A.delta, staying, renaming, |A.delta|, q);
    } else {
      StayingMonotone(staying, |A.delta|, q);
      assert KeptPost([], staying, renaming) == [] by { KeptNothing(staying, renaming); }
    }
  }

  lemma KeptNothing(staying: seq<bool>, renaming: seq<State>)
    requires |renaming| == |staying|
    ensures KeptPost([], staying, renaming) == []
  {
  }

  lemma {:induction false} KeptDeltaElements(delta: seq<StatePost>, staying: seq<bool>, renaming: seq<State>, n: nat)
    requires n <= |delta| <= |staying| && NumbersStaying(staying, renaming) && SortedDelta(delta)
    ensures SortedDelta(KeptDelta(delta, staying, renaming, n))
  {
    if n > 0 {
      KeptDeltaElements(delta, staying, renaming, n - 1);
      KeptPostSorted(delta[n - 1], staying, renaming);
      hide SortedPost, KeptPost;
    }
  }

  lemma RestrictedSteps(A: Nfa, B: Nfa, staying: seq<bool>, renaming: seq<State>, q: State, a: Symbol, r: State)
    requires A.Valid() && |staying| == A.size && NumbersStaying(staying, renaming) && Stays(staying, q)
    requires B.delta == KeptDelta(A.delta, staying, renaming, |A.delta|)
    ensures Step(B, renaming[q], a, r) <==> StepsTo(A, staying, renaming, q, a, r)
  {
    RestrictedPost(A, B, staying, renaming, q);
    KeptPostMoves(A.At(q), staying, renaming, a, r);
    hide KeptPost, KeptDelta, NumbersStaying, Nfa.Valid, InPost;
  }

  lemma RestrictedValid(A: Nfa, B: Nfa, staying: seq<bool>, renaming: seq<State>)
    requires A.Valid() && |staying| == A.size && NumbersStaying(staying, renaming)
    requires B.size == Staying(staying, A.size) && B.delta == KeptDelta(A.delta, staying, renaming, |A.delta|)
    requires (forall r <- B.initial :: r < B.size) && forall r <- B.final :: r < B.size
    ensures B.Valid()
  {
    assert SortedDelta(A.delta) by {
      forall q | 0 <= q < |A.delta| ensures SortedPost(A.delta[q]) { assert ValidPost(A.delta[q], A.size); }
    }
    KeptDeltaElements(A.delta, staying, renaming, |A.delta|);
    StayingMonotone(staying, |A.delta|, A.size);
    forall r: State, a, s: State | HasTransition(B.delta, r, a, s) ensures s < B.size {
      var q := EveryNumberUsed(staying, |A.delta|, r);
      RestrictedSteps(A, B, staying, renaming, q, a, s);
      assert StepsTo(A, staying, renaming, q, a, s);
      var p: State :| Step(A, q, a, p) && Stays(staying, p) && renaming[p] == s;
      StayingMonotone(staying, p, A.size);
    }
    SortedPostIsValid(B.delta, B.size);
  }

  lemma RestrictedIs(A: Nfa, B: Nfa, staying: seq<bool>, renaming: seq<State>)
    requires A.Valid() && |staying| == A.size && NumbersStaying(staying, renaming)
    requires B.size == Staying(staying, A.size) && B.delta == KeptDelta(A.delta, staying, renaming, |A.delta|)
    requires B.initial == Renamed(A.initial, staying, renaming) && B.final == Renamed(A.final, staying, renaming)
    ensures B.Valid() && IsRestriction(A, B, staying, renaming)
  {
    RenamingMonotone(staying, renaming);
    forall q: State | Stays(staying, q) ensures renaming[q] < B.size { StayingMonotone(staying, q, A.size); }
    hide Nfa.Valid, KeptDelta;
    RestrictedValid(A, B, staying, renaming);
    forall r: State | r < B.size ensures HasOriginal(staying, renaming, r) {
      var q := EveryNumberUsed(staying, A.size, r);
      assert NumberOf(staying, renaming, q, r);
    }
    forall q: State, r: State, a | q < A.size && staying[q]
      ensures Step(B, renaming[q], a, r) <==> StepsTo(A, staying, renaming, q, a, r)
    {
      RestrictedSteps(A, B, staying, renaming, q, a, r);
    }
    hide StepsTo, HasOriginal, Step;
  }

  /** `filter` and `rename` of a set of states */
  function Renamed(S: StateSet, staying: seq<bool>, renaming: seq<State>): StateSet
    requires |renaming| == |staying|
  {
    set q | q in S && Stays(staying, q) :: renaming[q]
  }

  /** The numbering loop of `trim` */
  method NumberStaying(staying: seq<bool>) returns (renaming: seq<State>)
    ensures NumbersStaying(staying, renaming)
  {
    renaming := seq(|staying|, _ => 0);
    var new' := 0;
    for orig := 0 to |staying|
      invariant |renaming| == |staying| && new' == Staying(staying, orig)
      invariant forall q: State | q < orig && staying[q] :: renaming[q] == Staying(staying, q)
    {
      if staying[orig] {
        renaming := renaming[orig := new'];
        new' := new' + 1;
      }
    }
  }

  /** `Nfa::trim`: only useful states are left, and the language is kept. */
  method Trim(A: Nfa) returns (B: Nfa, useful: seq<bool>, renaming: seq<State>)
    requires A.Valid()
    ensures B.Valid() && SameLanguage(A, B) && Trimmed(B)
    ensures UsefulStay(A, useful) && IsRestriction(A, B, useful, renaming)
  {
    hide *;
    var sccs;
    useful, sccs := GetUsefulStates(A, None, None);
    forall q: State | q < A.size ensures useful[q] <==> Useful(A, q) { LedIsUseful(A, q); }
    renaming := NumberStaying(useful);
    assert |renaming| == |useful| && UsefulStay(A, useful) by { UsefulSizes(A, useful, renaming); }
    assert SortedDelta(A.delta) && |A.delta| <= A.size by { ValidDelta(A); }
    var delta := new Delta(0);
    delta.statePosts := A.delta;
    assert delta.Valid() by { DeltaValid(delta); }
    delta.Defragment(useful, renaming);
    B := Nfa(Staying(useful, A.size), delta.statePosts, Renamed(A.initial, useful, renaming), Renamed(A.final, useful, renaming));
    RestrictedIs(A, B, useful, renaming);
    RestrictionLanguage(A, B, useful, renaming);
    RestrictionTrimmed(A, B, useful, renaming);
  }

  lemma LedIsUseful(A: Nfa, q: State)
    ensures Useful(A, q) <==> LeadsFrom(A, A.initial, q) && LeadsInto(A, q, A.final)
  {
    UsefulIsLed(A, q);
  }

  lemma DeltaValid(delta: Delta)
    requires SortedDelta(delta.statePosts)
    ensures delta.Valid()
  {
  }

  lemma UsefulSizes(A: Nfa, useful: seq<bool>, renaming: seq<State>)
    requires NumbersStaying(useful, renaming) && |useful| == A.size && forall q | 0 <= q < A.size :: useful[q] <==> Useful(A, q)
    ensures |renaming| == |useful| && UsefulStay(A, useful)
  {
    hide Useful;
  }

  lemma ValidDelta(A: Nfa)
    requires A.Valid()
    ensures SortedDelta(A.delta) && |A.delta| <= A.size
  {
    forall q | 0 <= q < |A.delta| ensures SortedPost(A.delta[q]) { assert ValidPost(A.delta[q], A.size); }
  }
}
