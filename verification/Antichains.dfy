/** The antichain of product states explored by language inclusion (src/nfa/inclusion.cc). */
module Antichains {
  import opened Automata
  import opened Counting
  import opened Macrostates
  import opened Distances

  /** A state of the smaller automaton, a macrostate of the bigger one, and the least distance of
      the macrostate to a final state. */
  datatype Pair = Pair(state: State, macro: StateSet, dist: nat)

  /** `subsumes`: a run of the left pair that fails shows one of the right pair that fails. */
  predicate Subsumes(x: Pair, y: Pair) {
    x.state == y.state && x.macro <= y.macro
  }

  /** `std::erase_if(ds, subsumes(x, _))` */
  function Pruned(ds: seq<Pair>, x: Pair): (r: seq<Pair>)
    ensures forall y :: y in r <==> y in ds && !Subsumes(x, y)
  {
    if ds == [] then []
    else
      var init, y := ds[..|ds| - 1], ds[|ds| - 1];
      assert ds == init + [y];
      Pruned(init, x) + if Subsumes(x, y) then [] else [y]
  }

  type Processed = seq<seq<Pair>>

  predicate InProcessed(P: Processed, x: Pair) {
    x.state < |P| && x in P[x.state]
  }

  /** Every pair is kept in the bucket of its own state. */
  ghost predicate Bucketed(P: Processed) {
    forall q: State, x | q < |P| && x in P[q] :: x.state == q
  }

  /** The upward closure of the processed pairs. */
  ghost predicate Covered(P: Processed, q: State, S: StateSet) {
    exists x :: InProcessed(P, x) && x.state == q && x.macro <= S
  }

  /** The pairs outside the upward closure; each insertion makes this set smaller. */
  ghost function Uncovered(P: Processed, n: nat, m: nat): set<(State, StateSet)> {
    set q: State, S: StateSet | q in Below(n) && S <= Below(m) && !Covered(P, q, S) :: (q, S)
  }

  /** Pruning with `x` and inserting it, as done for `processed[x.state]`. */
  function Inserted(P: Processed, x: Pair): Processed
    requires x.state < |P|
  {
    P[x.state := Pruned(P[x.state], x) + [x]]
  }

  lemma InsertedElements(P: Processed, x: Pair)
    requires x.state < |P| && Bucketed(P)
    ensures Bucketed(Inserted(P, x))
    ensures forall y :: InProcessed(Inserted(P, x), y) <==> y == x || (InProcessed(P, y) && !Subsumes(x, y))
  {
    var ds := Pruned(P[x.state], x) + [x];
    assert forall y :: y in ds <==> y == x || (y in P[x.state] && !Subsumes(x, y));
    hide Pruned;
    assert Inserted(P, x)[x.state] == ds;
  }

  /** Pruning loses no coverage: what covered a pair is itself covered by what pruned it. */
  lemma CoverageGrows(P: Processed, x: Pair)
    requires x.state < |P| && Bucketed(P)
    ensures forall q, S :: Covered(Inserted(P, x), q, S) <==> Covered(P, q, S) || (q == x.state && x.macro <= S)
  {
    InsertedElements(P, x);
    hide Inserted, InProcessed;
    var P' := Inserted(P, x);
    assert InProcessed(P', x);
    forall q, S ensures Covered(P', q, S) <==> Covered(P, q, S) || (q == x.state && x.macro <= S) {
      if Covered(P, q, S) {
        var y :| InProcessed(P, y) && y.state == q && y.macro <= S;
        assert InProcessed(P', y) || Subsumes(x, y);
      }
    }
  }

  lemma UncoveredShrinks(P: Processed, x: Pair, n: nat, m: nat)
    requires x.state < |P| && x.state < n && Bucketed(P) && x.macro <= Below(m) && !Covered(P, x.state, x.macro)
    ensures Uncovered(Inserted(P, x), n, m) < Uncovered(P, n, m)
  {
    CoverageGrows(P, x);
    hide Inserted, Covered, Bucketed;
    assert (x.state, x.macro) in Uncovered(P, n, m);
    assert (x.state, x.macro) !in Uncovered(Inserted(P, x), n, m);
  }

  // ---------- How pairs are accessed ----------

  /** `d` is the least distance of the states of `S`, MAX_STATE for the empty set. */
  ghost predicate IsMinDistance(distances: seq<nat>, S: StateSet, d: nat) {
    && d <= MAX_STATE
    && (forall s <- S :: s < |distances| && d <= distances[s])
    && (S == {} ==> d == MAX_STATE)
    && (S != {} ==> exists s :: s in S && s < |distances| && distances[s] == d)
  }

  /** `run` leads the smaller automaton to the state of `x`, the bigger one to its macrostate. */
  ghost predicate AccessedBy(A: Nfa, B: Nfa, x: Pair, run: Run) {
    && x.state < A.size
    && IsRun(A, run.path, run.word) && run.path[0] in A.initial && run.path[|run.word|] == x.state
    && x.macro == PostWord(B, B.initial, run.word)
  }

  /** The bigger automaton accepts here if the smaller one does. */
  predicate Safe(A: Nfa, B: Nfa, x: Pair) {
    x.state in A.final ==> !(B.final !! x.macro)
  }

  type Accesses = map<Pair, Run>
  type Paths = map<Pair, (Pair, Symbol)>

  /** `run` extended by one transition */
  function Extended(run: Run, a: Symbol, q: State): Run {
    Run(run.word + [a], run.path + [q])
  }

  /** `paths` leads every pair back to an initial one, along the run by which it was accessed. */
  ghost predicate Recorded(paths: Paths, acc: Accesses) {
    forall x <- acc :: x in paths && RecordedAs(paths[x], acc, x)
  }

  ghost predicate RecordedAs(from: (Pair, Symbol), acc: Accesses, x: Pair)
    requires x in acc
  {
    && from.0 in acc
    && (if from.0 == x then acc[x] == Run([], [x.state])
        else acc[x] == Extended(acc[from.0], from.1, x.state))
  }

  lemma RecordedInsert(paths: Paths, acc: Accesses, x: Pair, y: Pair, a: Symbol)
    requires Recorded(paths, acc) && y in acc && x !in acc
    ensures Recorded(paths[x := (y, a)], acc[x := Extended(acc[y], a, x.state)])
  {
    hide Extended;
    var paths', acc' := paths[x := (y, a)], acc[x := Extended(acc[y], a, x.state)];
    forall z | z in acc' ensures z in paths' && RecordedAs(paths'[z], acc', z) {
      if z != x {
        assert RecordedAs(paths[z], acc, z);
      }
    }
  }

  lemma RecordedInitial(paths: Paths, acc: Accesses, x: Pair)
    requires Recorded(paths, acc) && x !in acc
    ensures Recorded(paths[x := (x, 0)], acc[x := Run([], [x.state])])
  {
    hide Extended;
    var paths', acc' := paths[x := (x, 0)], acc[x := Run([], [x.state])];
    forall z | z in acc' ensures z in paths' && RecordedAs(paths'[z], acc', z) {
      if z != x {
        assert RecordedAs(paths[z], acc, z);
      }
    }
  }

  lemma AccessedStep(A: Nfa, B: Nfa, x: Pair, run: Run, a: Symbol, y: Pair)
    requires A.Valid() && AccessedBy(A, B, x, run) && Step(A, x.state, a, y.state) && y.macro == PostSet(B, x.macro, a)
    ensures AccessedBy(A, B, y, Extended(run, a, y.state))
  {
    StepIsState(A, x.state, a, y.state);
    RunAppend(A, run.path, run.word, a, y.state);
    PostWordSnoc(B, B.initial, run.word, a);
  }

  // ---------- The exploration ----------

  /** The variables of the search. */
  datatype Search = Search(worklist: seq<Pair>, processed: Processed, paths: Paths)

  ghost predicate AllAccessed(A: Nfa, B: Nfa, acc: Accesses) {
    forall x <- acc :: AccessedBy(A, B, x, acc[x])
  }

  ghost predicate AllCovered(P: Processed, acc: Accesses) {
    forall x <- acc :: Covered(P, x.state, x.macro)
  }

  ghost predicate AllSafe(A: Nfa, B: Nfa, P: Processed, acc: Accesses) {
    forall x | InProcessed(P, x) :: x in acc && Safe(A, B, x)
  }

  /** What holds of the variables at every point of the search, `seen` being the initial states
      dealt with. */
  ghost predicate ExploringFrom(A: Nfa, B: Nfa, K: Search, acc: Accesses, wantCex: bool, seen: StateSet) {
    && |K.processed| == A.size && Bucketed(K.processed)
    && AllAccessed(A, B, acc) && AllCovered(K.processed, acc) && AllSafe(A, B, K.processed, acc)
    && (forall x <- K.worklist :: InProcessed(K.processed, x))
    && (forall q <- seen :: Covered(K.processed, q, B.initial))
    && (wantCex ==> Recorded(K.paths, acc))
  }

  ghost predicate Exploring(A: Nfa, B: Nfa, K: Search, acc: Accesses, wantCex: bool) {
    ExploringFrom(A, B, K, acc, wantCex, A.initial)
  }

  /** All successors of `x` over moves in `done` are covered. */
  ghost predicate Closed(B: Nfa, P: Processed, x: Pair, done: set<Move>) {
    forall m <- done :: Covered(P, m.target, PostSet(B, x.macro, m.symbol))
  }

  /** All processed pairs that are not waiting, except `current`, have their successors covered. */
  ghost predicate AllClosed(A: Nfa, B: Nfa, K: Search, current: set<Pair>) {
    forall x | InProcessed(K.processed, x) && x !in K.worklist && x !in current ::
      Closed(B, K.processed, x, set m | m in Moves(A.At(x.state)))
  }

  /** Push the uncovered successor `x` of `from`. */
  function Pushed(K: Search, x: Pair, from: Pair, a: Symbol, wantCex: bool): Search
    requires x.state < |K.processed|
  {
    Search(Pruned(K.worklist, x) + [x], Inserted(K.processed, x), if wantCex then K.paths[x := (from, a)] else K.paths)
  }

  lemma ClosedGrows(B: Nfa, P: Processed, x: Pair, y: Pair, done: set<Move>)
    requires y.state < |P| && Bucketed(P) && Closed(B, P, x, done)
    ensures Closed(B, Inserted(P, y), x, done)
  {
    CoverageGrows(P, y);
    hide Inserted, Covered, PostSet, Bucketed;
  }

  lemma PushedElements(K: Search, x: Pair, from: Pair, a: Symbol, wantCex: bool)
    requires x.state < |K.processed|
    ensures forall y :: y in Pushed(K, x, from, a, wantCex).worklist <==> y == x || (y in K.worklist && !Subsumes(x, y))
  {
    hide Inserted;
    assert forall y :: y in Pruned(K.worklist, x) <==> y in K.worklist && !Subsumes(x, y);
    hide Pruned;
  }

  lemma PushKeepsClosed(A: Nfa, B: Nfa, K: Search, x: Pair, from: Pair, a: Symbol, wantCex: bool, current: set<Pair>)
    requires x.state < |K.processed| && Bucketed(K.processed) && AllClosed(A, B, K, current)
    ensures AllClosed(A, B, Pushed(K, x, from, a, wantCex), current)
  {
    var K' := Pushed(K, x, from, a, wantCex);
    InsertedElements(K.processed, x);
    PushedElements(K, x, from, a, wantCex);
    assert K'.processed == Inserted(K.processed, x);
    hide Pushed, Inserted, Closed, InProcessed, Bucketed;
    forall y | InProcessed(K'.processed, y) && y !in K'.worklist && y !in current
      ensures Closed(B, K'.processed, y, set m | m in Moves(A.At(y.state)))
    {
      ClosedGrows(B, K.processed, y, x, set m | m in Moves(A.At(y.state)));
    }
  }

  /** An uncovered pair has never been accessed, so `paths` is never overwritten. */
  lemma UncoveredIsNew(P: Processed, acc: Accesses, x: Pair)
    requires AllCovered(P, acc) && !Covered(P, x.state, x.macro)
    ensures x !in acc
  {
  }

  lemma PushKeepsCovered(P: Processed, acc: Accesses, x: Pair, run: Run)
    requires x.state < |P| && Bucketed(P) && AllCovered(P, acc)
    ensures AllCovered(Inserted(P, x), acc[x := run])
  {
    CoverageGrows(P, x);
    hide Inserted, Covered, Bucketed;
  }

  lemma PushKeepsSafe(A: Nfa, B: Nfa, P: Processed, acc: Accesses, x: Pair, run: Run)
    requires x.state < |P| && Bucketed(P) && AllSafe(A, B, P, acc) && Safe(A, B, x)
    ensures AllSafe(A, B, Inserted(P, x), acc[x := run])
  {
    InsertedElements(P, x);
    hide Inserted, InProcessed, Safe, Bucketed;
  }

  lemma AccessKept(A: Nfa, B: Nfa, acc: Accesses, from: Pair, a: Symbol, x: Pair)
    requires A.Valid() && AllAccessed(A, B, acc) && from in acc && x !in acc
    requires Step(A, from.state, a, x.state) && x.macro == PostSet(B, from.macro, a)
    ensures AllAccessed(A, B, acc[x := Extended(acc[from], a, x.state)])
  {
    AccessedStep(A, B, from, acc[from], a, x);
    hide AccessedBy, Extended;
  }

  lemma PushKeepsBuckets(A: Nfa, B: Nfa, P: Processed, x: Pair)
    requires x.state < |P| && Bucketed(P) && forall q <- A.initial :: Covered(P, q, B.initial)
    ensures |Inserted(P, x)| == |P| && Bucketed(Inserted(P, x)) && forall q <- A.initial :: Covered(Inserted(P, x), q, B.initial)
  {
    assert |Inserted(P, x)| == |P|;
    InsertedElements(P, x);
    CoverageGrows(P, x);
    hide Inserted, Covered, Bucketed, InProcessed;
  }

  lemma PushKeepsWaiting(K: Search, x: Pair, from: Pair, a: Symbol, wantCex: bool)
    requires x.state < |K.processed| && Bucketed(K.processed) && forall y <- K.worklist :: InProcessed(K.processed, y)
    ensures forall y <- Pushed(K, x, from, a, wantCex).worklist :: InProcessed(Inserted(K.processed, x), y)
  {
    PushedElements(K, x, from, a, wantCex);
    InsertedElements(K.processed, x);
    hide Pushed, Inserted, InProcessed, Bucketed;
  }

  lemma PushKeepsExploring(A: Nfa, B: Nfa, K: Search, acc: Accesses, wantCex: bool, x: Pair, from: Pair, a: Symbol)
    requires A.Valid() && Exploring(A, B, K, acc, wantCex) && from in acc && x.state < A.size
    requires Step(A, from.state, a, x.state) && x.macro == PostSet(B, from.macro, a)
    requires Safe(A, B, x) && !Covered(K.processed, x.state, x.macro)
    ensures Exploring(A, B, Pushed(K, x, from, a, wantCex), acc[x := Extended(acc[from], a, x.state)], wantCex)
    ensures x !in acc
  {
    hide Inserted, Covered, Safe, AllSafe, AllCovered, AllAccessed, Recorded, InProcessed, Bucketed, Step, Extended, Pruned, Nfa.Valid;
    var P, run := K.processed, Extended(acc[from], a, x.state);
    UncoveredIsNew(P, acc, x);
    AccessKept(A, B, acc, from, a, x);
    PushKeepsCovered(P, acc, x, run);
    PushKeepsSafe(A, B, P, acc, x, run);
    if wantCex { RecordedInsert(K.paths, acc, x, from, a); }
    PushKeepsBuckets(A, B, P, x);
    PushKeepsWaiting(K, x, from, a, wantCex);
  }

  // ---------- Initial pairs ----------

  /** The pair of an initial state is pushed without any test. */
  function Started(K: Search, x: Pair, wantCex: bool): Search
    requires x.state < |K.processed|
  {
    Search(K.worklist + [x], K.processed[x.state := K.processed[x.state] + [x]],
           if wantCex then K.paths[x := (x, 0)] else K.paths)
  }

  /** Before the main loop every processed pair is waiting. */
  ghost predicate AllWaiting(K: Search, acc: Accesses, seen: StateSet) {
    && (forall x | InProcessed(K.processed, x) :: x in K.worklist)
    && (forall x <- acc :: x.state in seen)
  }

  lemma StartedElements(K: Search, x: Pair, wantCex: bool)
    requires x.state < |K.processed|
    ensures forall y :: InProcessed(Started(K, x, wantCex).processed, y) <==> InProcessed(K.processed, y) || y == x
    ensures forall y :: y in Started(K, x, wantCex).worklist <==> y in K.worklist || y == x
    ensures forall q, S :: Covered(Started(K, x, wantCex).processed, q, S) <==> Covered(K.processed, q, S) || (q == x.state && x.macro <= S)
    ensures Bucketed(K.processed) ==> Bucketed(Started(K, x, wantCex).processed)
  {
    var P, P' := K.processed, Started(K, x, wantCex).processed;
    forall q, S ensures Covered(P', q, S) <==> Covered(P, q, S) || (q == x.state && x.macro <= S) {
      assert InProcessed(P', x);
      if Covered(P, q, S) {
        var y :| InProcessed(P, y) && y.state == q && y.macro <= S;
        assert InProcessed(P', y);
      }
    }
  }

  lemma StartKeepsWaiting(A: Nfa, B: Nfa, K: Search, acc: Accesses, wantCex: bool, seen: StateSet, x: Pair, run: Run)
    requires x.state < |K.processed| && AllWaiting(K, acc, seen) && AllSafe(A, B, K.processed, acc) && Safe(A, B, x)
    requires forall y <- K.worklist :: InProcessed(K.processed, y)
    ensures AllWaiting(Started(K, x, wantCex), acc[x := run], seen + {x.state})
    ensures AllSafe(A, B, Started(K, x, wantCex).processed, acc[x := run])
    ensures var K' := Started(K, x, wantCex); forall y <- K'.worklist :: InProcessed(K'.processed, y)
  {
    StartedElements(K, x, wantCex);
    hide Started, InProcessed, Safe;
  }

  lemma StartKeepsCovered(K: Search, acc: Accesses, wantCex: bool, seen: StateSet, x: Pair, run: Run)
    requires x.state < |K.processed| && AllCovered(K.processed, acc) && forall q <- seen :: Covered(K.processed, q, x.macro)
    ensures AllCovered(Started(K, x, wantCex).processed, acc[x := run])
    ensures forall q <- seen + {x.state} :: Covered(Started(K, x, wantCex).processed, q, x.macro)
  {
    StartedElements(K, x, wantCex);
    hide Started, Covered;
  }

  lemma StartKeepsExploring(A: Nfa, B: Nfa, K: Search, acc: Accesses, wantCex: bool, seen: StateSet, x: Pair)
    requires A.Valid() && ExploringFrom(A, B, K, acc, wantCex, seen) && AllWaiting(K, acc, seen)
    requires x.state in A.initial && x.state !in seen && x.state < A.size && x.macro == B.initial && Safe(A, B, x)
    ensures ExploringFrom(A, B, Started(K, x, wantCex), acc[x := Run([], [x.state])], wantCex, seen + {x.state})
    ensures AllWaiting(Started(K, x, wantCex), acc[x := Run([], [x.state])], seen + {x.state})
  {
    hide Safe, AllSafe, AllCovered, Covered, Recorded, InProcessed, Bucketed, Nfa.Valid;
    var run := Run([], [x.state]);
    assert x !in acc;
    assert AccessedBy(A, B, x, run);
    hide AccessedBy;
    assert AllAccessed(A, B, acc[x := run]);
    hide AllAccessed;
    assert Bucketed(Started(K, x, wantCex).processed) by { StartedElements(K, x, wantCex); }
    if wantCex { RecordedInitial(K.paths, acc, x); }
    StartKeepsWaiting(A, B, K, acc, wantCex, seen, x, run);
    StartKeepsCovered(K, acc, wantCex, seen, x, run);
  }

  // ---------- Nothing left to explore ----------

  lemma StepCovered(A: Nfa, B: Nfa, K: Search, q: State, a: Symbol, p: State, S: StateSet)
    requires A.Valid() && AllClosed(A, B, K, {}) && K.worklist == []
    requires Covered(K.processed, q, S) && Step(A, q, a, p)
    ensures Covered(K.processed, p, PostSet(B, S, a))
  {
    hide Step, InProcessed;
    var x :| InProcessed(K.processed, x) && x.state == q && x.macro <= S;
    MovesFrom(A, q);
    assert Move(a, p) in Moves(A.At(x.state));
    assert Closed(B, K.processed, x, set m | m in Moves(A.At(x.state)));
    hide AllClosed;
    PostSetMonotone(B, x.macro, S, a);
  }

  /** Every combination reached by some word lies above a processed pair. */
  lemma {:induction false} EverythingCovered(A: Nfa, B: Nfa, K: Search, path: seq<State>, v: Word, S: StateSet)
    requires A.Valid() && AllClosed(A, B, K, {}) && K.worklist == []
    requires IsRun(A, path, v) && Covered(K.processed, path[0], S)
    ensures Covered(K.processed, path[|v|], PostWord(B, S, v))
    decreases |v|
  {
    if v != [] {
      assert Step(A, path[0], v[0], path[0 + 1]);
      TailRun(A, path, v);
      hide Step, Covered, IsRun, AllClosed;
      StepCovered(A, B, K, path[0], v[0], path[1], S);
      EverythingCovered(A, B, K, path[1..], v[1..], PostSet(B, S, v[0]));
    }
  }

  lemma CoveredSafe(A: Nfa, B: Nfa, P: Processed, acc: Accesses, q: State, S: StateSet)
    requires AllSafe(A, B, P, acc) && Covered(P, q, S) && q in A.final
    ensures !(S !! B.final)
  {
    hide InProcessed;
    var x :| InProcessed(P, x) && x.state == q && x.macro <= S;
    assert Safe(A, B, x);
  }

  /** `A`'s language is included in `B`'s. */
  ghost predicate Included(A: Nfa, B: Nfa) {
    forall w: Word :: Accepts(A, w) ==> Accepts(B, w)
  }

  lemma ExploredAccepts(A: Nfa, B: Nfa, K: Search, acc: Accesses, q: State, w: Word)
    requires A.Valid() && B.Valid() && AllSafe(A, B, K.processed, acc) && AllClosed(A, B, K, {}) && K.worklist == []
    requires Covered(K.processed, q, B.initial) && AcceptsFrom(A, q, w)
    ensures Accepts(B, w)
  {
    hide *;
    var path := AcceptingRun(A, q, w);
    EverythingCovered(A, B, K, path, w, B.initial);
    CoveredSafe(A, B, K.processed, acc, path[|w|], PostWord(B, B.initial, w));
    AcceptsByMacrostate(B, w);
  }

  lemma ExploredIncluded(A: Nfa, B: Nfa, K: Search, acc: Accesses, wantCex: bool)
    requires A.Valid() && B.Valid() && Exploring(A, B, K, acc, wantCex) && AllClosed(A, B, K, {}) && K.worklist == []
    ensures Included(A, B)
  {
    hide AllAccessed, AllCovered, Recorded, Bucketed, InProcessed, Covered, AllClosed, AllSafe, Nfa.Valid, AcceptsFrom;
    forall w: Word | Accepts(A, w) ensures Accepts(B, w) {
      var q :| q in A.initial && AcceptsFrom(A, q, w);
      ExploredAccepts(A, B, K, acc, q, w);
    }
  }
}
