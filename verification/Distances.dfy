/** Breadth-first distances (distances_from_initial, distances_to_final and
    get_shortest_accepting_run_from_state of src/nfa/nfa.cc). */
module Distances {
  import opened Automata
  import opened Counting
  import opened DeltaRelation

  /** `Limits::max_state`, the distance of an unreachable state */
  const MAX_STATE: nat := 0xFFFF_FFFF_FFFF_FFFF

  ghost predicate Bounded(distances: seq<nat>) {
    forall q: State | q < |distances| :: distances[q] <= MAX_STATE
  }

  ghost predicate ReachedBy(A: Nfa, w: Word, q: State) {
    exists q0 :: q0 in A.initial && ReadsTo(A, q0, w, q)
  }

  /** `d` is the length of a shortest word leading to `q`, or MAX_STATE if there is none. */
  ghost predicate IsDistance(A: Nfa, q: State, d: nat) {
    if d == MAX_STATE then forall w :: !ReachedBy(A, w, q)
    else (exists w :: |w| == d && ReachedBy(A, w, q)) && forall w :: ReachedBy(A, w, q) ==> d <= |w|
  }

  lemma ReachedByStep(A: Nfa, w: Word, q: State, a: Symbol, p: State)
    requires ReachedBy(A, w, q) && Step(A, q, a, p)
    ensures ReachedBy(A, w + [a], p)
  {
    var q0 :| q0 in A.initial && ReadsTo(A, q0, w, q);
    var path :| IsRun(A, path, w) && path[0] == q0 && path[|w|] == q;
    RunAppend(A, path, w, a, p);
    assert (path + [p])[0] == q0 && (path + [p])[|w + [a]|] == p;
    assert ReadsTo(A, q0, w + [a], p);
  }

  lemma ReachedByEmpty(A: Nfa, q: State)
    requires q in A.initial
    ensures ReachedBy(A, [], q)
  {
    assert IsRun(A, [q], []) && ReadsTo(A, q, [], q);
  }

  lemma ReachedFinalAccepts(A: Nfa, w: Word, q: State)
    ensures ReachedBy(A, w, q) && q in A.final ==> Accepts(A, w)
  {
    if ReachedBy(A, w, q) && q in A.final {
      var q0 :| q0 in A.initial && ReadsTo(A, q0, w, q);
      var path :| IsRun(A, path, w) && path[0] == q0 && path[|w|] == q;
      RunAccepts(A, path, w, []);
      assert w + [] == w;
    }
  }

  lemma AcceptsReachesFinal(A: Nfa, w: Word) returns (q: State)
    requires Accepts(A, w)
    ensures q in A.final && ReachedBy(A, w, q)
  {
    var q0 :| q0 in A.initial && AcceptsFrom(A, q0, w);
    var path := AcceptingRun(A, q0, w);
    q := path[|w|];
    assert ReadsTo(A, q0, w, q);
  }

  /** Some word of length `n` leads to `q`. */
  ghost predicate ReachedIn(A: Nfa, q: State, n: nat) {
    exists w :: |w| == n && ReachedBy(A, w, q)
  }

  lemma ReachedInStep(A: Nfa, q: State, n: nat, a: Symbol, p: State)
    requires ReachedIn(A, q, n) && Step(A, q, a, p)
    ensures ReachedIn(A, p, n + 1)
  {
    var w :| |w| == n && ReachedBy(A, w, q);
    ReachedByStep(A, w, q, a, p);
    assert |w + [a]| == n + 1;
  }

  /** Every visited state has a word of the length of its distance. */
  ghost predicate Witnessed(A: Nfa, dist: seq<nat>, V: set<State>) {
    && (forall v <- V :: v < |dist| && v < A.size && dist[v] < |V| && ReachedIn(A, v, dist[v]))
    && (forall v: nat | v < |dist| && v !in V :: dist[v] == MAX_STATE)
    && (forall v <- A.initial :: v in V && v < |dist| && dist[v] == 0)
  }

  /** The queue holds visited states by increasing distance, which spans at most two levels. */
  ghost predicate Layered(dist: seq<nat>, V: set<State>, que: seq<State>, d: nat) {
    && (forall v <- V :: v < |dist| && dist[v] <= d + 1)
    && (forall i | 0 <= i < |que| :: que[i] in V && d <= dist[que[i]])
    && (forall i, j | 0 <= i < j < |que| :: dist[que[i]] <= dist[que[j]])
  }

  /** The moves of `q` in `done` lead to visited states at most one further. */
  ghost predicate Relaxed(dist: seq<nat>, V: set<State>, q: State, done: seq<Move>) {
    forall m <- done :: m.target in V && m.target < |dist| && q < |dist| && dist[m.target] <= dist[q] + 1
  }

  ghost predicate Expanded(A: Nfa, dist: seq<nat>, V: set<State>, que: seq<State>, except: set<State>) {
    forall v <- V | v !in que && v !in except :: Relaxed(dist, V, v, Moves(A.At(v)))
  }

  lemma MovesFrom(A: Nfa, q: State)
    requires A.Valid()
    ensures forall m :: m in Moves(A.At(q)) <==> Step(A, q, m.symbol, m.target)
    ensures forall m <- Moves(A.At(q)) :: m.target < A.size
  {
    assert ValidPost(A.At(q), A.size) by {
      assert q < |A.delta| ==> ValidPost(A.delta[q], A.size);
    }
    MovesEnumeratePost(A.At(q), A.size);
    forall m | m in Moves(A.At(q)) ensures m.target < A.size {
      StepIsState(A, q, m.symbol, m.target);
    }
  }

  lemma VisitWitnessed(A: Nfa, dist: seq<nat>, V: set<State>, src: State, p: State)
    requires Witnessed(A, dist, V) && src in V && p !in V && p < A.size && p < |dist| && ReachedIn(A, p, dist[src] + 1)
    ensures Witnessed(A, dist[p := dist[src] + 1], V + {p})
  {
    hide ReachedIn;
    var dist', V' := dist[p := dist[src] + 1], V + {p};
    assert |V'| == |V| + 1;
    forall v | v in V' ensures v < |dist'| && v < A.size && dist'[v] < |V'| && ReachedIn(A, v, dist'[v]) {
      assert v != p ==> v in V;
    }
  }

  lemma VisitLayered(dist: seq<nat>, V: set<State>, que: seq<State>, src: State, p: State)
    requires src in V && src < |dist| && p !in V && p < |dist| && Layered(dist, V, que, dist[src])
    ensures Layered(dist[p := dist[src] + 1], V + {p}, que + [p], dist[src])
  {
  }

  lemma VisitRelaxed(dist: seq<nat>, V: set<State>, v: State, done: seq<Move>, p: State, d: nat)
    requires Relaxed(dist, V, v, done) && v in V && p !in V && p < |dist|
    ensures Relaxed(dist[p := d], V + {p}, v, done)
  {
  }

  lemma RelaxedSnoc(dist: seq<nat>, V: set<State>, v: State, done: seq<Move>, m: Move)
    requires Relaxed(dist, V, v, done)
    requires m.target in V && m.target < |dist| && v < |dist| && dist[m.target] <= dist[v] + 1
    ensures Relaxed(dist, V, v, done + [m])
  {
  }

  lemma VisitExpanded(A: Nfa, dist: seq<nat>, V: set<State>, que: seq<State>, except: set<State>, p: State, d: nat)
    requires Expanded(A, dist, V, que, except) && p !in V && p < |dist|
    ensures Expanded(A, dist[p := d], V + {p}, que + [p], except)
  {
    forall v <- V + {p} | v !in que + [p] && v !in except
      ensures Relaxed(dist[p := d], V + {p}, v, Moves(A.At(v)))
    {
      assert p in que + [p];
      VisitRelaxed(dist, V, v, Moves(A.At(v)), p, d);
    }
  }

  ghost predicate Flags(visited: seq<bool>, V: set<State>) {
    forall v: nat | v < |visited| :: visited[v] <==> v in V
  }

  /** The state of the search while `src`, taken off the queue, has its moves in `done` gone through. */
  ghost predicate Searching(A: Nfa, dist: seq<nat>, visited: seq<bool>, que: seq<State>, V: set<State>, src: State, done: seq<Move>) {
    && A.Valid() && |dist| == |visited| == A.size + 1 && src in V && src < A.size
    && Flags(visited, V) && Witnessed(A, dist, V)
    && Layered(dist, V, que, dist[src]) && Expanded(A, dist, V, que, {src}) && Relaxed(dist, V, src, done)
  }

  lemma SearchingVisit(A: Nfa, dist: seq<nat>, visited: seq<bool>, que: seq<State>, V: set<State>, src: State, done: seq<Move>, m: Move)
    requires Searching(A, dist, visited, que, V, src, done) && m in Moves(A.At(src)) && m.target < |visited| && !visited[m.target]
    ensures Searching(A, dist[m.target := dist[src] + 1], visited[m.target := true], que + [m.target], V + {m.target}, src, done + [m])
    ensures m.target !in V
  {
    hide Layered, Expanded, Step, Relaxed, ReachedIn, Nfa.Valid;
    var p, d := m.target, dist[src] + 1;
    assert p !in V;
    assert p < A.size && Step(A, src, m.symbol, p) by { MovesFrom(A, src); }
    assert Witnessed(A, dist[p := d], V + {p}) by {
      ReachedInStep(A, src, dist[src], m.symbol, p);
      VisitWitnessed(A, dist, V, src, p);
    }
    VisitLayered(dist, V, que, src, p);
    VisitExpanded(A, dist, V, que, {src}, p, d);
    assert Relaxed(dist[p := d], V + {p}, src, done + [m]) by {
      VisitRelaxed(dist, V, src, done, p, d);
      RelaxedSnoc(dist[p := d], V + {p}, src, done, m);
    }
  }

  lemma SearchingSkip(A: Nfa, dist: seq<nat>, visited: seq<bool>, que: seq<State>, V: set<State>, src: State, done: seq<Move>, m: Move)
    requires Searching(A, dist, visited, que, V, src, done) && m.target < |visited| && visited[m.target]
    ensures Searching(A, dist, visited, que, V, src, done + [m])
  {
    hide Expanded, Witnessed;
    assert m.target in V && dist[m.target] <= dist[src] + 1;
  }

  /** Go through the moves of `src`, which has been taken off the queue. */
  method VisitSuccessors(A: Nfa, src: State, dist0: seq<nat>, visited0: seq<bool>, que0: seq<State>, ghost V0: set<State>)
    returns (dist: seq<nat>, visited: seq<bool>, que: seq<State>, ghost V: set<State>)
    requires A.Valid() && Searching(A, dist0, visited0, que0, V0, src, []) && |dist0| == |visited0| == A.size + 1 && src < A.size
    ensures Searching(A, dist, visited, que, V, src, Moves(A.At(src)))
    ensures (que == que0 && V == V0) || V0 < V
  {
    hide *;
    dist, visited, que, V := dist0, visited0, que0, V0;
    var moves := Moves(A.At(src));
    assert forall m <- moves :: m.target < A.size by { MovesFrom(A, src); }
    assert moves[..0] == [];
    for k := 0 to |moves|
      invariant Searching(A, dist, visited, que, V, src, moves[..k]) && |visited| == |dist| == A.size + 1 && src < A.size
      invariant (que == que0 && V == V0) || V0 < V
    {
      var target := moves[k].target;
      assert moves[k] in moves && moves[..k + 1] == moves[..k] + [moves[k]];
      if !visited[target] {
        SearchingVisit(A, dist, visited, que, V, src, moves[..k], moves[k]);
        visited := visited[target := true];
        dist := dist[target := dist[src] + 1];
        que := que + [target];
        V := V + {target};
      } else {
        SearchingSkip(A, dist, visited, que, V, src, moves[..k], moves[k]);
      }
    }
    assert moves[..|moves|] == moves;
  }

  /** The state of the search between two turns of the loop. */
  ghost predicate Searched(A: Nfa, dist: seq<nat>, visited: seq<bool>, que: seq<State>, V: set<State>) {
    && A.Valid() && |dist| == |visited| == A.size + 1
    && Flags(visited, V) && Witnessed(A, dist, V) && Expanded(A, dist, V, que, {})
    && (que != [] ==> que[0] in V && que[0] < |dist| && Layered(dist, V, que, dist[que[0]]))
  }

  lemma LayeredPop(dist: seq<nat>, V: set<State>, que: seq<State>, d: nat)
    requires Layered(dist, V, que, d) && que != []
    ensures Layered(dist, V, que[1..], d)
  {
    assert forall i | 0 <= i < |que[1..]| :: que[1..][i] == que[i + 1];
  }

  lemma ExpandedPop(A: Nfa, dist: seq<nat>, V: set<State>, que: seq<State>)
    requires Expanded(A, dist, V, que, {}) && que != []
    ensures Expanded(A, dist, V, que[1..], {que[0]})
  {
    hide Relaxed;
    assert que == [que[0]] + que[1..];
  }

  lemma SearchedPop(A: Nfa, dist: seq<nat>, visited: seq<bool>, que: seq<State>, V: set<State>)
    requires Searched(A, dist, visited, que, V) && que != []
    ensures Searching(A, dist, visited, que[1..], V, que[0], [])
  {
    assert Relaxed(dist, V, que[0], []);
    LayeredPop(dist, V, que, dist[que[0]]);
    ExpandedPop(A, dist, V, que);
    hide ReachedIn, Flags, Relaxed, Layered, Expanded, Witnessed;
  }

  lemma SearchedAgain(A: Nfa, dist: seq<nat>, visited: seq<bool>, que: seq<State>, V: set<State>, src: State)
    requires Searching(A, dist, visited, que, V, src, Moves(A.At(src)))
    ensures Searched(A, dist, visited, que, V) && V <= Below(A.size)
  {
    hide ReachedIn, Flags, Relaxed;
    if que != [] {
      var d := dist[que[0]];
      assert que[0] in V && dist[src] <= d;
      assert Layered(dist, V, que, d) by {
        assert forall v <- V :: dist[v] <= dist[src] + 1;
      }
    }
  }

  /** Once the queue is empty, no path is shorter than the distance of its end. */
  lemma {:induction false} DistancesMinimal(A: Nfa, dist: seq<nat>, V: set<State>, path: seq<State>, w: Word)
    requires A.Valid() && Expanded(A, dist, V, [], {}) && (forall v <- V :: v < |dist|)
    requires IsRun(A, path, w) && path[0] in V
    ensures path[|w|] in V && dist[path[|w|]] <= dist[path[0]] + |w|
    decreases |w|
  {
    if w != [] {
      assert Step(A, path[0], w[0], path[0 + 1]);
      MovesFrom(A, path[0]);
      var m := Move(w[0], path[1]);
      assert m in Moves(A.At(path[0]));
      assert Relaxed(dist, V, path[0], Moves(A.At(path[0])));
      TailRun(A, path, w);
      hide *;
      DistancesMinimal(A, dist, V, path[1..], w[1..]);
    }
  }

  lemma TailRun(A: Nfa, path: seq<State>, w: Word)
    requires IsRun(A, path, w) && w != []
    ensures IsRun(A, path[1..], w[1..])
  {
    hide Step;
    forall i | 0 <= i < |w[1..]| ensures Step(A, path[1..][i], w[1..][i], path[1..][i + 1]) {
      assert Step(A, path[i + 1], w[i + 1], path[i + 1 + 1]);
    }
  }

  lemma DistancesCorrect(A: Nfa, dist: seq<nat>, V: set<State>, q: State)
    requires A.Valid() && A.size <= MAX_STATE && |dist| == A.size + 1 && q < A.size
    requires Witnessed(A, dist, V) && Expanded(A, dist, V, [], {})
    ensures IsDistance(A, q, dist[q])
  {
    SubsetSize(V, Below(A.size));
    forall w | ReachedBy(A, w, q) ensures q in V && dist[q] <= |w| {
      var q0 :| q0 in A.initial && ReadsTo(A, q0, w, q);
      var path :| IsRun(A, path, w) && path[0] == q0 && path[|w|] == q;
      DistancesMinimal(A, dist, V, path, w);
    }
  }

  method EnqueueInitial(A: Nfa) returns (distances: seq<nat>, visited: seq<bool>, que: seq<State>)
    requires A.Valid()
    ensures |distances| == |visited| == A.size + 1
    ensures Flags(visited, A.initial)
    ensures forall v: nat | v <= A.size :: distances[v] == if v in A.initial then 0 else MAX_STATE
    ensures forall v :: v in que <==> v in A.initial
  {
    distances, visited, que := seq(A.size + 1, _ => MAX_STATE), seq(A.size + 1, _ => false), [];
    var todo := A.initial;
    while todo != {}
      invariant todo <= A.initial && |distances| == |visited| == A.size + 1
      invariant forall v: nat | v <= A.size :: visited[v] == (v in A.initial && v !in todo)
      invariant forall v: nat | v <= A.size :: distances[v] == if v in A.initial && v !in todo then 0 else MAX_STATE
      invariant forall v :: v in que <==> v in A.initial && v !in todo
    {
      var q :| q in todo;
      visited := visited[q := true];
      distances := distances[q := 0];
      que := que + [q];
      todo := todo - {q};
    }
  }

  lemma InitialSearched(A: Nfa, dist: seq<nat>, visited: seq<bool>, que: seq<State>)
    requires A.Valid() && |dist| == |visited| == A.size + 1 && Flags(visited, A.initial)
    requires forall v: nat | v <= A.size :: dist[v] == if v in A.initial then 0 else MAX_STATE
    requires forall v :: v in que <==> v in A.initial
    ensures Searched(A, dist, visited, que, A.initial)
  {
    forall v | v in A.initial ensures ReachedIn(A, v, 0) {
      ReachedByEmpty(A, v);
    }
    hide ReachedIn, Flags;
    assert forall i | 0 <= i < |que| :: que[i] in que;
    assert forall v <- A.initial :: 0 < |A.initial|;
  }

  /** `distances_from_initial`: breadth-first search from all initial states. */
  method DistancesFromInitial(A: Nfa) returns (distances: seq<nat>)
    requires A.Valid() && A.size <= MAX_STATE
    ensures |distances| == A.size + 1 && Bounded(distances)
    ensures forall q: nat | q < A.size :: IsDistance(A, q, distances[q])
  {
    var visited, que;
    distances, visited, que := EnqueueInitial(A);
    ghost var V := A.initial;
    InitialSearched(A, distances, visited, que);
    hide Layered, Expanded, Witnessed, Step, Relaxed, Flags, Searching, IsDistance;
    while que != []
      invariant Searched(A, distances, visited, que, V) && V <= Below(A.size)
      decreases Below(A.size) - V, |que|
    {
      ghost var U := V;
      SearchedPop(A, distances, visited, que, V);
      var src := que[0];
      distances, visited, que, V := VisitSuccessors(A, src, distances, visited, que[1..], V);
      SearchedAgain(A, distances, visited, que, V, src);
    }
    forall q: nat | q < A.size ensures IsDistance(A, q, distances[q]) {
      DistancesCorrect(A, distances, V, q);
    }
    DistancesBounded(A, distances, visited, V);
  }

  lemma DistancesBounded(A: Nfa, dist: seq<nat>, visited: seq<bool>, V: set<State>)
    requires Searched(A, dist, visited, [], V) && A.size <= MAX_STATE
    ensures Bounded(dist)
  {
    assert V <= Below(A.size);
    SubsetSize(V, Below(A.size));
    hide ReachedIn, Expanded, Layered;
  }

  // ---------- Distances to final states ----------

  lemma ReachedByLast(A: Nfa, w: Word, p: State) returns (q: State)
    requires ReachedBy(A, w, p) && w != []
    ensures ReachedBy(A, w[..|w| - 1], q) && Step(A, q, w[|w| - 1], p)
  {
    var q0 :| q0 in A.initial && ReadsTo(A, q0, w, p);
    var path :| IsRun(A, path, w) && path[0] == q0 && path[|w|] == p;
    var n := |w| - 1;
    assert IsRun(A, path[..n + 1], w[..n]);
    assert ReadsTo(A, q0, w[..n], path[n]);
    q := path[n];
    assert Step(A, path[n], w[n], path[n + 1]);
  }

  lemma AcceptsFromCons(A: Nfa, q: State, a: Symbol, p: State, v: Word)
    requires Step(A, q, a, p) && AcceptsFrom(A, p, v)
    ensures AcceptsFrom(A, q, [a] + v)
  {
    assert ([a] + v)[1..] == v;
  }

  /** A word leads the reverse automaton to `q` just if `q` accepts the word read backwards. */
  lemma {:induction false} ReverseReached(A: Nfa, R: Nfa, w: Word, q: State)
    requires IsReverse(A, R)
    ensures ReachedBy(R, w, q) <==> AcceptsFrom(A, q, Reversed(w))
    decreases |w|
  {
    if w == [] {
      if ReachedBy(R, w, q) {
        var q0 :| q0 in R.initial && ReadsTo(R, q0, w, q);
      }
      if q in R.initial { ReachedByEmpty(R, q); }
    } else {
      var u, a := w[..|w| - 1], w[|w| - 1];
      assert u + [a] == w;
      assert Reversed(w)[1..] == Reversed(u);
      hide Step, IsRun, ReadsTo, ReachedBy;
      if ReachedBy(R, w, q) {
        var p := ReachedByLast(R, w, q);
        ReverseReached(A, R, u, p);
        AcceptsFromCons(A, q, a, p, Reversed(u));
      }
      if AcceptsFrom(A, q, Reversed(w)) {
        var p :| Step(A, q, a, p) && AcceptsFrom(A, p, Reversed(u));
        ReverseReached(A, R, u, p);
        assert Step(R, p, a, q);
        ReachedByStep(R, u, p, a, q);
      }
    }
  }

  /** `d` is the length of a shortest word accepted from `q`, or MAX_STATE if there is none. */
  ghost predicate IsDistanceToFinal(A: Nfa, q: State, d: nat) {
    if d == MAX_STATE then forall w :: !AcceptsFrom(A, q, w)
    else (exists w :: |w| == d && AcceptsFrom(A, q, w)) && forall w :: AcceptsFrom(A, q, w) ==> d <= |w|
  }

  lemma ReverseDistance(A: Nfa, R: Nfa, q: State, d: nat)
    requires IsReverse(A, R) && IsDistance(R, q, d)
    ensures IsDistanceToFinal(A, q, d)
  {
    if d != MAX_STATE {
      var w :| |w| == d && ReachedBy(R, w, q);
      ReverseReached(A, R, w, q);
    }
    forall w: Word | AcceptsFrom(A, q, w) ensures d != MAX_STATE && d <= |w| {
      ReverseReached(A, R, Reversed(w), q);
      ReversedTwice(w);
    }
  }

  ghost predicate DistancesKnown(A: Nfa, distances: seq<nat>) {
    |distances| >= A.size && forall q: nat | q < A.size :: IsDistanceToFinal(A, q, distances[q])
  }

  /** `distances_to_final` */
  method DistancesToFinal(A: Nfa) returns (distances: seq<nat>)
    requires A.Valid() && A.size <= MAX_STATE
    ensures DistancesKnown(A, distances) && Bounded(distances)
  {
    var R := Revert(A);
    distances := DistancesFromInitial(R);
    forall q: nat | q < A.size ensures IsDistanceToFinal(A, q, distances[q]) {
      ReverseDistance(A, R, q, distances[q]);
    }
  }

  /** Distances drop by at most one along a transition, ... */
  lemma DistanceDrop(A: Nfa, distances: seq<nat>, q: State, a: Symbol, p: State)
    requires DistancesKnown(A, distances) && q < A.size && distances[q] < MAX_STATE && p < A.size && Step(A, q, a, p)
    ensures distances[q] <= distances[p] + 1
  {
    assert IsDistanceToFinal(A, p, distances[p]) && IsDistanceToFinal(A, q, distances[q]);
    if distances[p] != MAX_STATE {
      var v :| |v| == distances[p] && AcceptsFrom(A, p, v);
      AcceptsFromCons(A, q, a, p, v);
    }
  }

  /** ... and some transition lets them drop. */
  lemma DistanceDrops(A: Nfa, distances: seq<nat>, q: State) returns (a: Symbol, p: State)
    requires A.Valid() && DistancesKnown(A, distances) && q < A.size && distances[q] < MAX_STATE && q !in A.final
    ensures p < A.size && Step(A, q, a, p) && distances[p] < distances[q]
  {
    assert IsDistanceToFinal(A, q, distances[q]);
    var w :| |w| == distances[q] && AcceptsFrom(A, q, w);
    a := w[0];
    p :| Step(A, q, a, p) && AcceptsFrom(A, p, w[1..]);
    StepIsState(A, q, a, p);
    assert IsDistanceToFinal(A, p, distances[p]);
  }

  /** The first move of `q` to a state closer to a final one. */
  method CloserMove(A: Nfa, q: State, distances: seq<nat>) returns (m: Move)
    requires A.Valid() && DistancesKnown(A, distances) && q < A.size && distances[q] < MAX_STATE && q !in A.final
    ensures m.target < A.size && Step(A, q, m.symbol, m.target) && distances[q] == distances[m.target] + 1
  {
    hide Step, IsDistanceToFinal, Nfa.Valid;
    var moves := Moves(A.At(q));
    MovesFrom(A, q);
    ghost var a, p := DistanceDrops(A, distances, q);
    assert Move(a, p) in moves && moves[0..] == moves;
    var k := 0;
    while !(distances[moves[k].target] < distances[q])
      invariant k < |moves| && Move(a, p) in moves[k..]
      decreases |moves| - k
    {
      assert moves[k..] == [moves[k]] + moves[k + 1..];
      k := k + 1;
    }
    m := moves[k];
    assert m in moves;
    DistanceDrop(A, distances, q, m.symbol, m.target);
  }

  /** `get_shortest_accepting_run_from_state`; the state must reach a final one. */
  method ShortestAcceptingRun(A: Nfa, q0: State, distances: seq<nat>) returns (run: Run)
    requires A.Valid() && DistancesKnown(A, distances) && q0 < A.size && distances[q0] < MAX_STATE
    ensures IsRun(A, run.path, run.word) && run.path[0] == q0 && run.path[|run.word|] in A.final
    ensures |run.word| == distances[q0]
  {
    hide Step, IsDistanceToFinal, Nfa.Valid;
    var q: State := q0;
    run := Run([], [q0]);
    while q !in A.final
      invariant q < A.size <= |distances| && distances[q] < MAX_STATE
      invariant IsRun(A, run.path, run.word) && run.path[0] == q0 && run.path[|run.word|] == q
      invariant |run.word| + distances[q] == distances[q0]
      decreases distances[q]
    {
      var m := CloserMove(A, q, distances);
      RunAppend(A, run.path, run.word, m.symbol, m.target);
      run := Run(run.word + [m.symbol], run.path + [m.target]);
      q := m.target;
    }
    FinalHasDistanceZero(A, q, distances);
  }

  lemma FinalHasDistanceZero(A: Nfa, q: State, distances: seq<nat>)
    requires DistancesKnown(A, distances) && q < A.size && q in A.final
    ensures distances[q] == 0
  {
    assert IsDistanceToFinal(A, q, distances[q]);
    assert AcceptsFrom(A, q, []);
  }
}
