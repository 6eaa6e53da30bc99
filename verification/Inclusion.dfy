/** Language inclusion by antichains with a counterexample (is_included_antichains of
    src/nfa/inclusion.cc). */
module Inclusion {
  import opened Automata
  import opened Counting
  import opened Options
  import opened Macrostates
  import opened Distances
  import opened Antichains

  // ---------- Why a bad pair refutes inclusion ----------

  /** An accepting run of `A` whose word `B` rejects. */
  ghost predicate IsCounterexample(A: Nfa, B: Nfa, run: Run) {
    && IsRun(A, run.path, run.word)
    && run.path[0] in A.initial && run.path[|run.word|] in A.final
    && !Accepts(B, run.word)
  }

  lemma CounterexampleRefutes(A: Nfa, B: Nfa, run: Run)
    requires IsCounterexample(A, B, run)
    ensures !Included(A, B)
  {
    RunAccepts(A, run.path, run.word, []);
    assert run.word + [] == run.word;
    assert Accepts(A, run.word);
  }

  /** The tests on which the search gives up: too long a way for the bigger automaton, or the
      smaller one accepts and the bigger one does not. */
  predicate Bad(A: Nfa, B: Nfa, distances: seq<nat>, x: Pair)
    requires x.state < |distances|
  {
    distances[x.state] < x.dist || !Safe(A, B, x)
  }

  lemma BadDistance(A: Nfa, B: Nfa, dA: seq<nat>, x: Pair)
    requires x.state < A.size && DistancesKnown(A, dA) && x.dist <= MAX_STATE && Bad(A, B, dA, x)
    ensures dA[x.state] < MAX_STATE
  {
    if x.state in A.final { FinalHasDistanceZero(A, x.state, dA); }
  }

  /** A bad pair accepts its shortest word on the left only. */
  lemma BadRejects(A: Nfa, B: Nfa, dA: seq<nat>, dB: seq<nat>, x: Pair, v: Word)
    requires x.state < A.size && DistancesKnown(A, dA) && DistancesKnown(B, dB) && Bad(A, B, dA, x)
    requires IsMinDistance(dB, x.macro, x.dist) && (forall s <- x.macro :: s < B.size) && |v| == dA[x.state]
    ensures !SetAccepts(B, x.macro, v)
  {
    if SetAccepts(B, x.macro, v) {
      var s :| s in x.macro && AcceptsFrom(B, s, v);
      assert IsDistanceToFinal(B, s, dB[s]);
      assert x.dist <= dB[s];
      if !Safe(A, B, x) {
        FinalHasDistanceZero(A, x.state, dA);
      }
    }
  }

  /** The access run, the move and an accepting run from the bad pair make up a counterexample. */
  lemma Refutation(A: Nfa, B: Nfa, from: Pair, access: Run, a: Symbol, x: Pair, rest: Run)
    requires A.Valid() && B.Valid() && AccessedBy(A, B, from, access)
    requires Step(A, from.state, a, x.state) && x.macro == PostSet(B, from.macro, a)
    requires IsRun(A, rest.path, rest.word) && rest.path[0] == x.state && rest.path[|rest.word|] in A.final
    requires !SetAccepts(B, x.macro, rest.word)
    ensures IsCounterexample(A, B, Run(access.word + [a] + rest.word, access.path + rest.path))
  {
    AccessedStep(A, B, from, access, a, x);
    var whole := Extended(access, a, x.state);
    RunConcat(A, whole.path, whole.word, rest.path, rest.word);
    assert whole.path + rest.path[1..] == access.path + rest.path by {
      assert rest.path == [x.state] + rest.path[1..];
    }
    MacrostateDecides(B, B.initial, whole.word, rest.word);
    assert Accepts(B, whole.word + rest.word) <==> SetAccepts(B, B.initial, whole.word + rest.word);
  }

  // ---------- Walking `paths` back ----------

  lemma BackOneStep(base: seq<nat>, rest: seq<nat>, x: nat)
    ensures base + Reversed(rest) + [x] == base + Reversed([x] + rest)
  {
    ReversedCons(x, rest);
  }

  lemma ReversedBack(base: seq<nat>, s: seq<nat>)
    ensures Reversed(base + Reversed(s)) == s + Reversed(base)
  {
    ReversedConcat(base, Reversed(s));
    ReversedTwice(s);
  }

  /** `out` is `start` followed by the part of `whole` after `left`, backwards; `x` ends `left`. */
  ghost predicate WayBack(start: Run, whole: Run, left: Run, x: State, passed: Run, out: Run) {
    && whole.word == left.word + passed.word && whole.path == left.path + passed.path
    && out.word == start.word + Reversed(passed.word)
    && out.path == start.path + Reversed(passed.path) + [x]
  }

  lemma WayBackStep(start: Run, whole: Run, left: Run, b: Symbol, x: State, y: State, passed: Run, out: Run)
    requires WayBack(start, whole, Extended(left, b, x), x, passed, out)
    ensures WayBack(start, whole, left, y, Run([b] + passed.word, [x] + passed.path), Run(out.word + [b], out.path + [y]))
  {
    BackOneStep(start.word, passed.word, b);
    BackOneStep(start.path, passed.path, x);
  }

  lemma WayBackDone(cex: Run, a: Symbol, whole: Run, x: State, passed: Run, out: Run)
    requires WayBack(Run(cex.word + [a], cex.path), whole, Run([], [x]), x, passed, out)
    ensures Reversed(out.word) == whole.word + [a] + Reversed(cex.word)
    ensures Reversed(out.path) == whole.path + Reversed(cex.path)
  {
    assert whole.word == passed.word && whole.path == [x] + passed.path;
    BackOneStep(cex.path, passed.path, x);
    ReversedBack(cex.word + [a], whole.word);
    ReversedBack(cex.path, whole.path);
    ReversedConcat(cex.word, [a]);
    assert Reversed([a]) == [a];
    assert whole.word + ([a] + Reversed(cex.word)) == whole.word + [a] + Reversed(cex.word);
  }

  /** Append the way back from `from` to its initial pair to `cex`, then reverse the whole. */
  method WalkBack(paths: Paths, ghost acc: Accesses, from: Pair, a: Symbol, cex: Run) returns (run: Run)
    requires Recorded(paths, acc) && from in acc
    ensures run.word == acc[from].word + [a] + Reversed(cex.word)
    ensures run.path == acc[from].path + Reversed(cex.path)
  {
    var word, path := cex.word + [a], cex.path + [from.state];
    var cur := from;
    ghost var start, passed := Run(cex.word + [a], cex.path), Run([], []);
    assert WayBack(start, acc[from], acc[cur], cur.state, passed, Run(word, path));
    hide WayBack, Reversed;
    while paths[cur].0 != cur
      invariant cur in acc && WayBack(start, acc[from], acc[cur], cur.state, passed, Run(word, path))
      decreases |acc[cur].word|
    {
      var (next, b) := paths[cur];
      assert RecordedAs(paths[cur], acc, cur);
      WayBackStep(start, acc[from], acc[next], b, cur.state, next.state, passed, Run(word, path));
      word, path := word + [b], path + [next.state];
      passed := Run([b] + passed.word, [cur.state] + passed.path);
      cur := next;
    }
    assert RecordedAs(paths[cur], acc, cur);
    WayBackDone(cex, a, acc[from], cur.state, passed, Run(word, path));
    run := Run(Reversed(word), Reversed(path));
  }

  /** `run` with the reversed contents of `cex` left in it between its two parts. */
  ghost predicate Spliced(good: Run, cex: Run, out: Run) {
    exists i, j :: 0 <= i <= |good.word| && 0 <= j <= |good.path|
      && out.word == good.word[..i] + Reversed(cex.word) + good.word[i..]
      && out.path == good.path[..j] + Reversed(cex.path) + good.path[j..]
  }

  lemma SplicedParts(u: Run, v: Run, cex: Run)
    ensures Spliced(Run(u.word + v.word, u.path + v.path), cex,
                    Run(u.word + Reversed(cex.word) + v.word, u.path + Reversed(cex.path) + v.path))
  {
    var good := Run(u.word + v.word, u.path + v.path);
    assert good.word[..|u.word|] == u.word && good.word[|u.word|..] == v.word;
    assert good.path[..|u.path|] == u.path && good.path[|u.path|..] == v.path;
  }

  // ---------- The search ----------

  /** `min_dst` */
  method MinDistance(distances: seq<nat>, S: StateSet) returns (d: nat)
    requires forall s <- S :: s < |distances| && distances[s] <= MAX_STATE
    ensures IsMinDistance(distances, S, d)
  {
    d := MAX_STATE;
    var todo := S;
    while todo != {}
      invariant todo <= S && d <= MAX_STATE
      invariant forall s <- S - todo :: d <= distances[s]
      invariant if S - todo == {} then d == MAX_STATE else exists s :: s in S - todo && distances[s] == d
    {
      var s :| s in todo;
      if todo == S || distances[s] < d {
        d := distances[s];
        assert S - (todo - {s}) == (S - todo) + {s};
      }
      todo := todo - {s};
    }
  }

  /** The invariant while `from`, taken off the worklist, has its moves in `done` processed. */
  ghost predicate Processing(A: Nfa, B: Nfa, K: Search, acc: Accesses, wantCex: bool, from: Pair, done: set<Move>) {
    && Exploring(A, B, K, acc, wantCex) && from in acc
    && AllClosed(A, B, K, {from}) && Closed(B, K.processed, from, done)
  }

  /** Is there a processed pair below `x`? */
  method IsSubsumed(P: Processed, x: Pair) returns (b: bool)
    requires x.state < |P| && Bucketed(P)
    ensures b <==> Covered(P, x.state, x.macro)
  {
    var bucket := P[x.state];
    b := false;
    for i := 0 to |bucket|
      invariant !b && forall k | 0 <= k < i :: !Subsumes(bucket[k], x)
    {
      if Subsumes(bucket[i], x) {
        assert InProcessed(P, bucket[i]);
        return true;
      }
    }
  }

  lemma PushMakesProgress(A: Nfa, B: Nfa, K: Search, acc: Accesses, wantCex: bool, x: Pair, from: Pair, a: Symbol, done: set<Move>)
    requires A.Valid() && B.Valid() && Processing(A, B, K, acc, wantCex, from, done) && x.state < A.size
    requires Step(A, from.state, a, x.state) && x.macro == PostSet(B, from.macro, a) && x.macro <= Below(B.size)
    requires Safe(A, B, x) && !Covered(K.processed, x.state, x.macro)
    ensures Processing(A, B, Pushed(K, x, from, a, wantCex), acc[x := Extended(acc[from], a, x.state)], wantCex, from, done + {Move(a, x.state)})
    ensures Uncovered(Pushed(K, x, from, a, wantCex).processed, A.size, B.size) < Uncovered(K.processed, A.size, B.size)
  {
    hide AllAccessed, AllCovered, AllSafe, Recorded, InProcessed, Bucketed, Covered, AllClosed, Closed, Inserted, Safe, Uncovered;
    hide Step, Pruned, PostSet, Extended, Nfa.Valid, Moves;
    PushKeepsExploring(A, B, K, acc, wantCex, x, from, a);
    PushKeepsClosed(A, B, K, x, from, a, wantCex, {from});
    PushCloses(B, K.processed, from, x, a, done);
    UncoveredShrinks(K.processed, x, A.size, B.size);
  }

  lemma PushCloses(B: Nfa, P: Processed, from: Pair, x: Pair, a: Symbol, done: set<Move>)
    requires x.state < |P| && Bucketed(P) && Closed(B, P, from, done) && x.macro == PostSet(B, from.macro, a)
    ensures Closed(B, Inserted(P, x), from, done + {Move(a, x.state)})
  {
    ClosedGrows(B, P, from, x, done);
    CoverageGrows(P, x);
    hide Covered, Inserted, PostSet, Bucketed;
  }

  lemma SkipMakesProgress(A: Nfa, B: Nfa, K: Search, acc: Accesses, wantCex: bool, x: Pair, from: Pair, a: Symbol, done: set<Move>)
    requires Processing(A, B, K, acc, wantCex, from, done)
    requires x.macro == PostSet(B, from.macro, a) && Covered(K.processed, x.state, x.macro)
    ensures Processing(A, B, K, acc, wantCex, from, done + {Move(a, x.state)})
  {
    hide Exploring, AllClosed, Covered, PostSet;
  }

  lemma PostSetBelow(A: Nfa, B: Nfa, acc: Accesses, from: Pair, a: Symbol)
    requires B.Valid() && AllAccessed(A, B, acc) && from in acc
    ensures PostSet(B, from.macro, a) <= Below(B.size)
  {
    assert AccessedBy(A, B, from, acc[from]);
    PostSetSteps(B, from.macro, a);
    hide PostSet;
  }

  /** Process the successor of `from` over `a` into `q`; `macro` is the other half of the successor. */
  method ProcessSuccessor(A: Nfa, B: Nfa, dA: seq<nat>, dB: seq<nat>, K: Search, ghost acc: Accesses, wantCex: bool,
                          from: Pair, a: Symbol, macro: StateSet, q: State, ghost done: set<Move>)
    returns (x: Pair, bad: bool, K': Search, ghost acc': Accesses)
    requires A.Valid() && B.Valid() && DistancesKnown(A, dA) && DistancesKnown(B, dB) && Bounded(dB)
    requires Processing(A, B, K, acc, wantCex, from, done)
    requires q < A.size && Step(A, from.state, a, q) && macro == PostSet(B, from.macro, a) && macro <= Below(B.size)
    ensures x.state == q && x.macro == macro && IsMinDistance(dB, macro, x.dist)
    ensures bad <==> Bad(A, B, dA, x)
    ensures bad ==> K' == K && acc' == acc
    ensures !bad ==> Processing(A, B, K', acc', wantCex, from, done + {Move(a, q)})
    ensures (K' == K && acc' == acc) || Uncovered(K'.processed, A.size, B.size) < Uncovered(K.processed, A.size, B.size)
  {
    hide AllAccessed, AllCovered, AllSafe, Recorded, InProcessed, Covered, AllClosed, Closed, Inserted, Safe, Uncovered;
    hide Step, Pruned, PostSet, Extended, Nfa.Valid, Moves, Bucketed, IsDistanceToFinal, IsMinDistance, Pushed;
    K', acc' := K, acc;
    var d := MinDistance(dB, macro);
    x := Pair(q, macro, d);
    bad := Bad(A, B, dA, x);
    if !bad {
      var subsumed := IsSubsumed(K.processed, x);
      if !subsumed {
        PushMakesProgress(A, B, K, acc, wantCex, x, from, a, done);
        K' := Pushed(K, x, from, a, wantCex);
        acc' := acc[x := Extended(acc[from], a, q)];
      } else {
        SkipMakesProgress(A, B, K, acc, wantCex, x, from, a, done);
      }
    }
  }

  /** `run` is accepting from `q`. */
  ghost predicate IsAcceptingRun(A: Nfa, q: State, run: Run) {
    IsRun(A, run.path, run.word) && run.path[0] == q && run.path[|run.word|] in A.final
  }

  /** A bad successor, completed by a shortest accepting run, yields a counterexample. */
  lemma BadCompleted(A: Nfa, B: Nfa, dA: seq<nat>, dB: seq<nat>, acc: Accesses, from: Pair, a: Symbol, x: Pair, rest: Run)
    requires A.Valid() && B.Valid() && AllAccessed(A, B, acc) && from in acc
    requires x.state < A.size && Step(A, from.state, a, x.state) && x.macro == PostSet(B, from.macro, a)
    requires DistancesKnown(A, dA) && DistancesKnown(B, dB) && IsMinDistance(dB, x.macro, x.dist) && Bad(A, B, dA, x)
    requires IsAcceptingRun(A, x.state, rest) && |rest.word| == dA[x.state]
    ensures IsCounterexample(A, B, Run(acc[from].word + [a] + rest.word, acc[from].path + rest.path))
  {
    assert AccessedBy(A, B, from, acc[from]);
    PostSetBelow(A, B, acc, from, a);
    hide AllAccessed, AccessedBy, DistancesKnown, IsMinDistance, Bad, PostSet, IsCounterexample, Nfa.Valid, Step;
    BadRejects(A, B, dA, dB, x, rest.word);
    Refutation(A, B, from, acc[from], a, x, rest);
  }

  lemma BadRefutes(A: Nfa, B: Nfa, dA: seq<nat>, dB: seq<nat>, acc: Accesses, from: Pair, a: Symbol, x: Pair)
    requires A.Valid() && B.Valid() && AllAccessed(A, B, acc) && from in acc
    requires x.state < A.size && Step(A, from.state, a, x.state) && x.macro == PostSet(B, from.macro, a)
    requires DistancesKnown(A, dA) && DistancesKnown(B, dB) && IsMinDistance(dB, x.macro, x.dist) && Bad(A, B, dA, x)
    ensures dA[x.state] < MAX_STATE && !Included(A, B)
  {
    hide AllAccessed, PostSet, IsCounterexample, Nfa.Valid, Step, Included, AcceptsFrom;
    BadDistance(A, B, dA, x);
    assert IsDistanceToFinal(A, x.state, dA[x.state]);
    var w :| |w| == dA[x.state] && AcceptsFrom(A, x.state, w);
    var path := AcceptingRun(A, x.state, w);
    var rest := Run(w, path);
    BadCompleted(A, B, dA, dB, acc, from, a, x, rest);
    CounterexampleRefutes(A, B, Run(acc[from].word + [a] + rest.word, acc[from].path + rest.path));
  }

  /** What is written to `cex` when the search gives up: a counterexample, with whatever `cex`
      held before reversed into it. */
  ghost predicate Answer(A: Nfa, B: Nfa, cex: Option<Run>, out: Option<Run>) {
    if cex.None? then out.None?
    else out.Some? && exists good :: IsCounterexample(A, B, good) && Spliced(good, cex.value, out.value)
  }

  /** Write the counterexample for the bad successor `x` of `from`. */
  method WriteCounterexample(A: Nfa, B: Nfa, dA: seq<nat>, ghost dB: seq<nat>, paths: Paths, ghost acc: Accesses,
                             from: Pair, a: Symbol, x: Pair, cex: Option<Run>)
    returns (out: Option<Run>)
    requires A.Valid() && B.Valid() && AllAccessed(A, B, acc) && from in acc && (cex.Some? ==> Recorded(paths, acc))
    requires x.state < A.size && Step(A, from.state, a, x.state) && x.macro == PostSet(B, from.macro, a)
    requires DistancesKnown(A, dA) && DistancesKnown(B, dB) && IsMinDistance(dB, x.macro, x.dist) && Bad(A, B, dA, x)
    ensures !Included(A, B) && Answer(A, B, cex, out)
  {
    hide AllAccessed, PostSet, IsCounterexample, Nfa.Valid, Step, Included, Bad, Spliced, IsRun, IsMinDistance, Recorded;
    BadRefutes(A, B, dA, dB, acc, from, a, x);
    out := None;
    if cex.Some? {
      var run := WalkBack(paths, acc, from, a, cex.value);
      var rest := ShortestAcceptingRun(A, x.state, dA);
      BadCompleted(A, B, dA, dB, acc, from, a, x, rest);
      SplicedParts(Run(acc[from].word + [a], acc[from].path), rest, cex.value);
      out := Some(Run(run.word + rest.word, run.path + rest.path));
    }
  }

  ghost predicate DoneTargets(done: set<Move>, a: Symbol, targets: seq<State>) {
    forall q <- targets :: Move(a, q) in done
  }

  /** Process all successors over one symbol post. */
  method ProcessTargets(A: Nfa, B: Nfa, dA: seq<nat>, dB: seq<nat>, K0: Search, ghost acc0: Accesses, cex: Option<Run>,
                        from: Pair, post: SymbolPost, ghost done0: set<Move>)
    returns (bad: bool, K: Search, out: Option<Run>, ghost acc: Accesses, ghost done: set<Move>)
    requires A.Valid() && B.Valid() && DistancesKnown(A, dA) && DistancesKnown(B, dB) && Bounded(dB)
    requires Processing(A, B, K0, acc0, cex.Some?, from, done0)
    requires forall q <- post.targets :: q < A.size && Step(A, from.state, post.symbol, q)
    ensures bad ==> !Included(A, B) && Answer(A, B, cex, out)
    ensures !bad ==> out == cex && Processing(A, B, K, acc, cex.Some?, from, done)
    ensures done0 <= done && (!bad ==> DoneTargets(done, post.symbol, post.targets))
    ensures !bad ==> K == K0 || Uncovered(K.processed, A.size, B.size) < Uncovered(K0.processed, A.size, B.size)
  {
    hide AllAccessed, PostSet, IsCounterexample, Nfa.Valid, Step, Included, Bad, Spliced, IsRun, IsMinDistance, Recorded;
    hide Answer, AllSafe, AllCovered, AllClosed, Closed, Bucketed, InProcessed, Covered, DistancesKnown, Bounded, Uncovered;
    K, acc, done, out, bad := K0, acc0, done0, cex, false;
    var macro := PostSet(B, from.macro, post.symbol);
    PostSetBelow(A, B, acc, from, post.symbol);
    for k := 0 to |post.targets|
      invariant Processing(A, B, K, acc, cex.Some?, from, done)
      invariant done0 <= done && DoneTargets(done, post.symbol, post.targets[..k])
      invariant K == K0 || Uncovered(K.processed, A.size, B.size) < Uncovered(K0.processed, A.size, B.size)
    {
      assert post.targets[k] in post.targets && post.targets[..k + 1] == post.targets[..k] + [post.targets[k]];
      var x;
      x, bad, K, acc := ProcessSuccessor(A, B, dA, dB, K, acc, cex.Some?, from, post.symbol, macro, post.targets[k], done);
      if bad {
        out := WriteCounterexample(A, B, dA, dB, K.paths, acc, from, post.symbol, x, cex);
        return;
      }
      done := done + {Move(post.symbol, post.targets[k])};
    }
    assert post.targets[..|post.targets|] == post.targets;
  }

  ghost predicate DonePosts(done: set<Move>, posts: seq<SymbolPost>) {
    forall post <- posts :: DoneTargets(done, post.symbol, post.targets)
  }

  lemma DonePostsSnoc(done: set<Move>, done': set<Move>, posts: StatePost, i: nat)
    requires i < |posts| && DonePosts(done, posts[..i]) && done <= done' && DoneTargets(done', posts[i].symbol, posts[i].targets)
    ensures DonePosts(done', posts[..i + 1])
  {
    assert posts[..i + 1] == posts[..i] + [posts[i]];
  }

  lemma MovesDone(A: Nfa, q: State, done: set<Move>)
    requires A.Valid() && DonePosts(done, A.At(q))
    ensures forall m <- Moves(A.At(q)) :: m in done
  {
    MovesFrom(A, q);
    forall m | m in Moves(A.At(q)) ensures m in done {
      assert InPost(A.At(q), m.symbol, m.target);
      assert Move(m.symbol, m.target) == m;
    }
  }

  lemma AllDone(A: Nfa, B: Nfa, K: Search, acc: Accesses, wantCex: bool, from: Pair, done: set<Move>)
    requires A.Valid() && Processing(A, B, K, acc, wantCex, from, done) && DonePosts(done, A.At(from.state))
    ensures Exploring(A, B, K, acc, wantCex) && AllClosed(A, B, K, {})
  {
    hide Exploring, InProcessed, Nfa.Valid, Moves, PostSet, Covered;
    MovesDone(A, from.state, done);
    assert Closed(B, K.processed, from, set m | m in Moves(A.At(from.state)));
    hide Closed;
  }

  lemma PostIsSteps(A: Nfa, q: State, i: nat)
    requires A.Valid() && i < |A.At(q)|
    ensures forall p <- A.At(q)[i].targets :: p < A.size && Step(A, q, A.At(q)[i].symbol, p)
  {
    forall p | p in A.At(q)[i].targets ensures p < A.size && Step(A, q, A.At(q)[i].symbol, p) {
      StepIsState(A, q, A.At(q)[i].symbol, p);
    }
  }

  /** Process all transitions leaving the state of `from`, which has been taken off the worklist. */
  method ProcessPair(A: Nfa, B: Nfa, dA: seq<nat>, dB: seq<nat>, K0: Search, ghost acc0: Accesses, cex: Option<Run>, from: Pair)
    returns (bad: bool, K: Search, out: Option<Run>, ghost acc: Accesses)
    requires A.Valid() && B.Valid() && DistancesKnown(A, dA) && DistancesKnown(B, dB) && Bounded(dB)
    requires Processing(A, B, K0, acc0, cex.Some?, from, {})
    ensures bad ==> !Included(A, B) && Answer(A, B, cex, out)
    ensures !bad ==> out == cex && Exploring(A, B, K, acc, cex.Some?) && AllClosed(A, B, K, {})
    ensures !bad ==> K == K0 || Uncovered(K.processed, A.size, B.size) < Uncovered(K0.processed, A.size, B.size)
  {
    hide *;
    K, acc, out, bad := K0, acc0, cex, false;
    ghost var done := {};
    var posts := A.At(from.state);
    assert DonePosts(done, posts[..0]) by { NothingDone(done, posts); }
    for i := 0 to |posts|
      invariant out == cex && Processing(A, B, K, acc, cex.Some?, from, done)
      invariant DonePosts(done, posts[..i])
      invariant K == K0 || Uncovered(K.processed, A.size, B.size) < Uncovered(K0.processed, A.size, B.size)
    {
      PostIsSteps(A, from.state, i);
      ghost var before := done;
      bad, K, out, acc, done := ProcessTargets(A, B, dA, dB, K, acc, cex, from, posts[i], done);
      if bad { return; }
      DonePostsSnoc(before, done, posts, i);
    }
    assert posts[..|posts|] == posts;
    AllDone(A, B, K, acc, cex.Some?, from, done);
  }

  lemma NothingDone(done: set<Move>, posts: StatePost)
    ensures DonePosts(done, posts[..0])
  {
  }

  // ---------- The main loop ----------

  /** An initial state is final although the bigger automaton rejects the empty word. */
  predicate InitialConflict(A: Nfa, B: Nfa) {
    !(A.initial !! A.final) && B.initial !! B.final
  }

  /** The initial pairs; the search ends at once if one of them is bad. */
  method InitialPairs(A: Nfa, B: Nfa, dB: seq<nat>, cex: Option<Run>)
    returns (bad: bool, K: Search, out: Option<Run>, ghost acc: Accesses)
    requires A.Valid() && B.Valid() && DistancesKnown(B, dB) && Bounded(dB)
    ensures bad <==> InitialConflict(A, B)
    ensures bad ==> !Included(A, B) && (if cex.None? then out.None? else out.Some? && IsCounterexample(A, B, out.value))
    ensures !bad ==> out == cex && Exploring(A, B, K, acc, cex.Some?) && AllClosed(A, B, K, {})
  {
    hide ExploringFrom, Exploring, AllClosed, AllWaiting, Started, IsDistanceToFinal, IsMinDistance, Included, IsCounterexample, ValidPost;
    K, out, bad, acc := Search([], seq(A.size, _ => []), map[]), cex, false, map[];
    var todo := A.initial;
    NothingStarted(A, B, K, acc, cex.Some?);
    assert A.initial - todo == {};
    while todo != {}
      invariant B.initial !! B.final ==> (A.initial - todo) !! A.final
      invariant todo <= A.initial && out == cex && |K.processed| == A.size
      invariant ExploringFrom(A, B, K, acc, cex.Some?, A.initial - todo) && AllWaiting(K, acc, A.initial - todo)
    {
      var q :| q in todo;
      if q in A.final && B.initial !! B.final {
        InitialRefutes(A, B, q);
        bad, out := true, if cex.Some? then Some(Run([], [q])) else None;
        return;
      }
      var d := MinDistance(dB, B.initial);
      var x := Pair(q, B.initial, d);
      StartKeepsExploring(A, B, K, acc, cex.Some?, A.initial - todo, x);
      StartedSize(K, x, cex.Some?);
      K := Started(K, x, cex.Some?);
      acc := acc[x := Run([], [q])];
      assert A.initial - (todo - {q}) == (A.initial - todo) + {q};
      todo := todo - {q};
    }
    assert A.initial - todo == A.initial;
    AllStarted(A, B, K, acc, cex.Some?);
  }

  lemma StartedSize(K: Search, x: Pair, wantCex: bool)
    requires x.state < |K.processed|
    ensures |Started(K, x, wantCex).processed| == |K.processed|
  {
  }

  lemma NothingStarted(A: Nfa, B: Nfa, K: Search, acc: Accesses, wantCex: bool)
    requires K.worklist == [] && |K.processed| == A.size && (forall q | 0 <= q < A.size :: K.processed[q] == []) && acc == map[]
    ensures ExploringFrom(A, B, K, acc, wantCex, {}) && AllWaiting(K, acc, {})
  {
  }

  lemma AllStarted(A: Nfa, B: Nfa, K: Search, acc: Accesses, wantCex: bool)
    requires ExploringFrom(A, B, K, acc, wantCex, A.initial) && AllWaiting(K, acc, A.initial)
    ensures Exploring(A, B, K, acc, wantCex) && AllClosed(A, B, K, {})
  {
    hide ExploringFrom;
  }

  lemma InitialRefutes(A: Nfa, B: Nfa, q: State)
    requires B.Valid() && q in A.initial && q in A.final && B.initial !! B.final
    ensures IsCounterexample(A, B, Run([], [q])) && !Included(A, B)
  {
    AcceptsByMacrostate(B, []);
    CounterexampleRefutes(A, B, Run([], [q]));
  }

  lemma PopKeepsClosed(A: Nfa, B: Nfa, K: Search, worklist: seq<Pair>, x: Pair)
    requires AllClosed(A, B, K, {}) && K.worklist == worklist + [x]
    ensures AllClosed(A, B, Search(worklist, K.processed, K.paths), {x})
  {
    hide Closed, InProcessed;
  }

  lemma PopKeepsExploring(A: Nfa, B: Nfa, K: Search, acc: Accesses, wantCex: bool, worklist: seq<Pair>, x: Pair)
    requires Exploring(A, B, K, acc, wantCex) && K.worklist == worklist + [x]
    ensures Exploring(A, B, Search(worklist, K.processed, K.paths), acc, wantCex) && x in acc
  {
    hide AllAccessed, AllCovered, Recorded, InProcessed, Bucketed, Covered, Safe;
    assert InProcessed(K.processed, x);
  }

  lemma PopKeepsProcessing(A: Nfa, B: Nfa, K: Search, acc: Accesses, wantCex: bool)
    requires Exploring(A, B, K, acc, wantCex) && AllClosed(A, B, K, {}) && K.worklist != []
    ensures Processing(A, B, Search(K.worklist[..|K.worklist| - 1], K.processed, K.paths), acc, wantCex, K.worklist[|K.worklist| - 1], {})
  {
    hide Exploring, AllClosed;
    var n := |K.worklist| - 1;
    assert K.worklist == K.worklist[..n] + [K.worklist[n]];
    PopKeepsExploring(A, B, K, acc, wantCex, K.worklist[..n], K.worklist[n]);
    PopKeepsClosed(A, B, K, K.worklist[..n], K.worklist[n]);
  }

  /** `is_included_antichains`; a null `cex` is modelled by None. */
  method IsIncludedAntichains(smaller: Nfa, bigger: Nfa, cex: Option<Run>) returns (included: bool, out: Option<Run>)
    requires smaller.Valid() && bigger.Valid() && smaller.size <= MAX_STATE && bigger.size <= MAX_STATE
    ensures included <==> Included(smaller, bigger)
    ensures included || cex.None? ==> out == cex
    ensures !included && cex.Some? && InitialConflict(smaller, bigger) ==>
              out.Some? && IsCounterexample(smaller, bigger, out.value)
    ensures !included && cex.Some? && !InitialConflict(smaller, bigger) ==>
              out.Some? && exists good :: IsCounterexample(smaller, bigger, good) && Spliced(good, cex.value, out.value)
  {
    hide *;
    var dA := DistancesToFinal(smaller);
    var dB := DistancesToFinal(bigger);
    var bad, K;
    ghost var acc;
    bad, K, out, acc := InitialPairs(smaller, bigger, dB, cex);
    if bad { return false, out; }
    while K.worklist != []
      invariant out == cex && Exploring(smaller, bigger, K, acc, cex.Some?) && AllClosed(smaller, bigger, K, {})
      decreases Uncovered(K.processed, smaller.size, bigger.size), |K.worklist|
    {
      var from := K.worklist[|K.worklist| - 1];
      PopKeepsProcessing(smaller, bigger, K, acc, cex.Some?);
      K := Search(K.worklist[..|K.worklist| - 1], K.processed, K.paths);
      bad, K, out, acc := ProcessPair(smaller, bigger, dA, dB, K, acc, cex, from);
      if bad {
        AnswerMeans(smaller, bigger, cex, out);
        return false, out;
      }
    }
    ExploredIncluded(smaller, bigger, K, acc, cex.Some?);
    included := true;
  }

  lemma AnswerMeans(A: Nfa, B: Nfa, cex: Option<Run>, out: Option<Run>)
    requires Answer(A, B, cex, out)
    ensures cex.None? ==> out == cex
    ensures cex.Some? ==> out.Some? && exists good :: IsCounterexample(A, B, good) && Spliced(good, cex.value, out.value)
  {
    hide IsCounterexample, Spliced;
  }

  // ---------- When the counterexample can be trusted ----------

  /** With an empty `cex` the result is a counterexample, whichever way the search ended. */
  lemma EmptyCexIsClean(good: Run, out: Run)
    requires Spliced(good, Run([], []), out)
    ensures out == good
  {
    var i, j :| 0 <= i <= |good.word| && 0 <= j <= |good.path|
      && out.word == good.word[..i] + Reversed([]) + good.word[i..]
      && out.path == good.path[..j] + Reversed([]) + good.path[j..];
    assert good.word[..i] + [] + good.word[i..] == good.word;
    assert good.path[..j] + [] + good.path[j..] == good.path;
  }

  /** With the run of an earlier call left in `cex` the main loop never writes a run: its path is
      too long for its word. So it is with anything whose path and word are not of equal length. */
  lemma StaleCexIsNoRun(A: Nfa, B: Nfa, good: Run, cex: Run, out: Run)
    requires IsCounterexample(A, B, good) && |cex.path| != |cex.word| && Spliced(good, cex, out)
    ensures !IsCounterexample(A, B, out)
  {
    hide Step, Accepts;
    assert |out.path| == |good.path| + |cex.path| && |out.word| == |good.word| + |cex.word|;
  }

  /** Hence, for a `cex` that holds a run, or anything with a path and a word of different lengths, a failing
      inclusion is answered by a counterexample just if the test of the initial states fails. */
  method InclusionReusingCex(smaller: Nfa, bigger: Nfa, cex: Run) returns (included: bool, out: Run)
    requires smaller.Valid() && bigger.Valid() && smaller.size <= MAX_STATE && bigger.size <= MAX_STATE
    ensures included <==> Included(smaller, bigger)
    ensures !included && (cex == Run([], []) || |cex.path| != |cex.word|) ==>
              (IsCounterexample(smaller, bigger, out) <==> cex == Run([], []) || InitialConflict(smaller, bigger))
  {
    hide Included, IsCounterexample, Spliced, InitialConflict;
    var r;
    included, r := IsIncludedAntichains(smaller, bigger, Some(cex));
    out := r.value;
    if !included && !InitialConflict(smaller, bigger) {
      ghost var good :| IsCounterexample(smaller, bigger, good) && Spliced(good, cex, out);
      if cex == Run([], []) {
        EmptyCexIsClean(good, out);
      } else if |cex.path| != |cex.word| {
        StaleCexIsNoRun(smaller, bigger, good, cex, out);
      }
    }
  }

  /** A failing family member: {a} against the empty language, with the run of the empty word left in `cex`. */
  lemma StaleCexExample()
    ensures var A := Nfa(2, [[SymbolPost(0, [1])]], {0}, {1});
            var B := Nfa(0, [], {}, {});
            && A.Valid() && B.Valid() && !Included(A, B) && !InitialConflict(A, B)
            && (forall good, out | IsCounterexample(A, B, good) && Spliced(good, Run([], [0]), out) :: !IsCounterexample(A, B, out))
  {
    var A := Nfa(2, [[SymbolPost(0, [1])]], {0}, {1});
    var B := Nfa(0, [], {}, {});
    assert A.At(0)[0] == SymbolPost(0, [1]);
    assert Step(A, 0, 0, 1) && AcceptsFrom(A, 1, []);
    AcceptsFromCons(A, 0, 0, 1, []);
    assert Accepts(A, [0] + []) && !Accepts(B, [0] + []);
    forall good, out | IsCounterexample(A, B, good) && Spliced(good, Run([], [0]), out)
      ensures !IsCounterexample(A, B, out)
    {
      StaleCexIsNoRun(A, B, good, Run([], [0]), out);
    }
  }
}
