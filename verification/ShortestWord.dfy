/** Breadth-first search for a shortest word (Nfa::get_shortest_word of src/nfa/operations.cc). */
module ShortestWords {
  import opened Automata
  import opened Counting
  import opened Options
  import opened Distances
  import opened Languages

  /** The state and the symbol by which a state was first reached */
  datatype Predecessor = Predecessor(prev: State, sym: Symbol)

  /** The distances of the states, -1 for those not reached yet, and their predecessors */
  datatype Search = Search(dist: seq<int>, pred: seq<Predecessor>, worklist: seq<State>)

  ghost predicate Found(K: Search, q: State) {
    q < |K.dist| && K.dist[q] >= 0
  }

  function Dist(K: Search, q: State): int {
    if q < |K.dist| then K.dist[q] else -1
  }

  /** `words[q]` is the word along the predecessors, whose length is the distance. */
  ghost predicate Traced(A: Nfa, K: Search, words: seq<Word>, q: State) {
    && q < |K.dist| == |K.pred| == |words| && |words[q]| == K.dist[q] && ReachedBy(A, words[q], q)
    && (K.dist[q] > 0 ==> Found(K, K.pred[q].prev) && K.pred[q].prev < |words|
                          && words[q] == words[K.pred[q].prev] + [K.pred[q].sym])
  }

  ghost predicate AllTraced(A: Nfa, K: Search, words: seq<Word>) {
    && |K.dist| == |K.pred| == |words| == A.size && (forall q: State | q < |K.dist| :: K.dist[q] >= -1)
    && (forall q: State {:trigger Traced(A, K, words, q)} | Found(K, q) :: Traced(A, K, words, q))
    && (forall q <- A.initial :: Found(K, q) && Dist(K, q) == 0)
  }

  /** The moves of `q` in `done` lead to states at most one further. */
  ghost predicate Relaxed(K: Search, q: State, done: seq<Move>) {
    forall m <- done :: Found(K, m.target) && Dist(K, m.target) <= Dist(K, q) + 1
  }

  /** All states found but those waiting and `src` have had their moves gone through. */
  ghost predicate Expanded(A: Nfa, K: Search, src: set<State>) {
    forall q: State | Found(K, q) && q !in K.worklist && q !in src :: Relaxed(K, q, Moves(A.At(q)))
  }

  /** States wait by increasing distance, which is `d` or one more. */
  ghost predicate Layered(K: Search, d: nat) {
    && (forall q: State | Found(K, q) :: Dist(K, q) <= d + 1)
    && (forall i | 0 <= i < |K.worklist| :: Found(K, K.worklist[i]) && d <= Dist(K, K.worklist[i]))
    && (forall i, j | 0 <= i < j < |K.worklist| :: Dist(K, K.worklist[i]) <= Dist(K, K.worklist[j]))
  }

  ghost predicate NoneFinal(A: Nfa, K: Search) {
    forall q: State | Found(K, q) :: q !in A.final
  }

  /** The state of the search while `src`, taken off the worklist, has its moves in `done` gone through. */
  ghost predicate Searching(A: Nfa, K: Search, words: seq<Word>, src: State, done: seq<Move>) {
    && AllTraced(A, K, words) && NoneFinal(A, K) && Expanded(A, K, {src})
    && Found(K, src) && Layered(K, Dist(K, src)) && Relaxed(K, src, done)
  }

  /** The state of the search between two turns of the loop */
  ghost predicate Between(A: Nfa, K: Search, words: seq<Word>) {
    && AllTraced(A, K, words) && NoneFinal(A, K) && Expanded(A, K, {})
    && (K.worklist != [] ==> Found(K, K.worklist[0]) && Layered(K, Dist(K, K.worklist[0])))
  }

  /** The state `q` is found by `m`, from `src`. */
  function Visit(K: Search, src: State, m: Move): Search
    requires m.target < |K.dist| == |K.pred| && src < |K.dist|
  {
    Search(K.dist[m.target := K.dist[src] + 1], K.pred[m.target := Predecessor(src, m.symbol)], K.worklist + [m.target])
  }

  lemma VisitDist(K: Search, src: State, m: Move)
    requires m.target < |K.dist| == |K.pred| && Found(K, src) && !Found(K, m.target)
    ensures var N := Visit(K, src, m);
            && (forall q: State :: Found(N, q) <==> Found(K, q) || q == m.target)
            && (forall q: State :: Dist(N, q) == if q == m.target then Dist(K, src) + 1 else Dist(K, q))
            && m.target != src && N.worklist == K.worklist + [m.target]
  {
  }

  lemma VisitTraced(A: Nfa, K: Search, words: seq<Word>, src: State, m: Move)
    requires AllTraced(A, K, words) && Found(K, src) && m.target < A.size && !Found(K, m.target) && Step(A, src, m.symbol, m.target)
    ensures AllTraced(A, Visit(K, src, m), words[m.target := words[src] + [m.symbol]])
  {
    hide ReachedBy, Visit, Step;
    VisitDist(K, src, m);
    VisitedTraced(A, K, words, src, m);
    var N, words' := Visit(K, src, m), words[m.target := words[src] + [m.symbol]];
    forall q: State | Found(N, q) ensures Traced(A, N, words', q) {
      if q != m.target { TracedKept(A, K, words, src, m, q); }
    }
    hide Traced;
  }

  lemma TracedKept(A: Nfa, K: Search, words: seq<Word>, src: State, m: Move, q: State)
    requires AllTraced(A, K, words) && Found(K, src) && m.target < A.size && !Found(K, m.target) && Found(K, q)
    ensures Traced(A, Visit(K, src, m), words[m.target := words[src] + [m.symbol]], q)
  {
    hide ReachedBy;
    assert Traced(A, K, words, q);
  }

  lemma VisitedTraced(A: Nfa, K: Search, words: seq<Word>, src: State, m: Move)
    requires AllTraced(A, K, words) && Found(K, src) && m.target < A.size && !Found(K, m.target) && Step(A, src, m.symbol, m.target)
    ensures Traced(A, Visit(K, src, m), words[m.target := words[src] + [m.symbol]], m.target)
    ensures var N := Visit(K, src, m); |N.dist| == |N.pred| == A.size && forall q: State | q < |N.dist| :: N.dist[q] >= -1
  {
    assert Traced(A, K, words, src);
    ReachedByStep(A, words[src], src, m.symbol, m.target);
    hide ReachedBy, Step;
  }

  lemma VisitSearching(A: Nfa, K: Search, words: seq<Word>, src: State, done: seq<Move>, m: Move)
    requires Searching(A, K, words, src, done) && m.target < A.size && !Found(K, m.target) && Step(A, src, m.symbol, m.target)
    requires m.target !in A.final
    ensures |words| == A.size && Searching(A, Visit(K, src, m), words[m.target := words[src] + [m.symbol]], src, done + [m])
  {
    VisitTraced(A, K, words, src, m);
    VisitDist(K, src, m);
    hide AllTraced, Found, Dist, Visit, Step;
    var N := Visit(K, src, m);
    assert forall q: State :: q in N.worklist <==> q in K.worklist || q == m.target;
    forall q: State | Found(N, q) && q !in N.worklist && q != src ensures Relaxed(N, q, Moves(A.At(q))) {
      assert Relaxed(K, q, Moves(A.At(q)));
    }
  }

  lemma SkipSearching(A: Nfa, K: Search, words: seq<Word>, src: State, done: seq<Move>, m: Move)
    requires Searching(A, K, words, src, done) && Found(K, m.target)
    ensures Searching(A, K, words, src, done + [m])
  {
    hide AllTraced, NoneFinal, Expanded, Found, Dist;
  }

  lemma Pop(A: Nfa, K: Search, words: seq<Word>)
    requires Between(A, K, words) && K.worklist != []
    ensures Searching(A, K.(worklist := K.worklist[1..]), words, K.worklist[0], [])
  {
    var rest := K.worklist[1..];
    var N, src := K.(worklist := rest), K.worklist[0];
    assert K.worklist == [src] + rest;
    WorklistApart(A, K, words, rest);
    hide AllTraced, Found, Dist;
    forall q: State | Found(N, q) && q !in rest && q != src ensures Relaxed(N, q, Moves(A.At(q))) {
      assert Relaxed(K, q, Moves(A.At(q)));
    }
  }

  lemma WorklistApart(A: Nfa, K: Search, words: seq<Word>, rest: seq<State>)
    ensures var N := K.(worklist := rest);
            && (forall q: State :: (Found(N, q) <==> Found(K, q)) && Dist(N, q) == Dist(K, q))
            && (AllTraced(A, K, words) ==> AllTraced(A, N, words))
  {
    hide ReachedBy;
    var N := K.(worklist := rest);
    assert forall q: State :: Traced(A, K, words, q) ==> Traced(A, N, words, q);
  }

  lemma Done(A: Nfa, K: Search, words: seq<Word>, src: State)
    requires Searching(A, K, words, src, Moves(A.At(src)))
    ensures Between(A, K, words)
  {
    hide AllTraced, NoneFinal, Found, Dist, Relaxed;
  }

  // ---------- Shortest ----------

  /** A word no longer than the distance of the state at work leads only to states found. */
  lemma {:induction false} ShortWordsFound(A: Nfa, K: Search, words: seq<Word>, src: State, w: Word, p: State)
    requires A.Valid() && Searching(A, K, words, src, []) && ReachedBy(A, w, p) && |w| <= Dist(K, src)
    ensures Found(K, p) && Dist(K, p) <= |w|
    decreases |w|
  {
    if w != [] {
      var q := ReachedByLast(A, w, p);
      ShortWordsFound(A, K, words, src, w[..|w| - 1], q);
      Behind(K, Dist(K, src), q);
      MovesFrom(A, q);
      assert Move(w[|w| - 1], p) in Moves(A.At(q));
      hide AllTraced, Layered, NoneFinal, ReachedBy, Found, Dist, Step;
      assert Relaxed(K, q, Moves(A.At(q)));
    } else {
      StartsInitial(A, p);
    }
  }

  lemma StartsInitial(A: Nfa, p: State)
    requires ReachedBy(A, [], p)
    ensures p in A.initial
  {
  }

  lemma Behind(K: Search, d: nat, q: State)
    requires Layered(K, d) && Dist(K, q) < d
    ensures q !in K.worklist
  {
  }

  /** When nothing waits, everything reached has been found. */
  lemma {:induction false} AllFound(A: Nfa, K: Search, words: seq<Word>, w: Word, p: State)
    requires A.Valid() && Between(A, K, words) && K.worklist == [] && ReachedBy(A, w, p)
    ensures Found(K, p)
    decreases |w|
  {
    if w != [] {
      var q := ReachedByLast(A, w, p);
      AllFound(A, K, words, w[..|w| - 1], q);
      MovesFrom(A, q);
      assert Move(w[|w| - 1], p) in Moves(A.At(q));
      assert Relaxed(K, q, Moves(A.At(q)));
    } else {
      StartsInitial(A, p);
    }
  }

  /** `w` is accepted, and no accepted word is shorter. */
  ghost predicate IsShortest(A: Nfa, w: Word) {
    Accepts(A, w) && forall v: Word | Accepts(A, v) :: |w| <= |v|
  }

  /** The first final state met is at the end of a shortest word. */
  lemma FirstFinal(A: Nfa, K: Search, words: seq<Word>, src: State, done: seq<Move>, m: Move)
    requires A.Valid() && Searching(A, K, words, src, done) && Step(A, src, m.symbol, m.target) && m.target in A.final
    ensures src < |words| && IsShortest(A, words[src] + [m.symbol])
  {
    assert Traced(A, K, words, src);
    ReachedByStep(A, words[src], src, m.symbol, m.target);
    ReachedFinalAccepts(A, words[src] + [m.symbol], m.target);
    assert Searching(A, K, words, src, []);
    hide Step, ReachedBy, Accepts;
    forall v: Word | Accepts(A, v) ensures |words[src]| + 1 <= |v| {
      var p := AcceptsReachesFinal(A, v);
      if |v| <= |words[src]| { ShortWordsFound(A, K, words, src, v, p); }
    }
  }

  lemma NothingFound(A: Nfa, K: Search, words: seq<Word>)
    requires A.Valid() && Between(A, K, words) && K.worklist == []
    ensures forall w: Word :: !Accepts(A, w)
  {
    forall w: Word ensures !Accepts(A, w) {
      if Accepts(A, w) {
        var p := AcceptsReachesFinal(A, w);
        AllFound(A, K, words, w, p);
      }
    }
  }

  // ---------- The methods ----------

  /** What is left of a word when symbols from `firstEpsilon` on are dropped */
  function Kept(w: Word, firstEpsilon: Option<Symbol>): Word {
    if firstEpsilon.None? then w else Visible(w, firstEpsilon.value)
  }

  lemma KeptSnoc(w: Word, a: Symbol, firstEpsilon: Option<Symbol>)
    ensures Kept(w + [a], firstEpsilon) == Kept(w, firstEpsilon) + if firstEpsilon.None? || a < firstEpsilon.value then [a] else []
  {
    if firstEpsilon.Some? { VisibleSnoc(w, a, firstEpsilon.value); }
  }

  /** Go back along the predecessors, then reverse the symbols collected. */
  method Backtrack(A: Nfa, K: Search, ghost words: seq<Word>, target: State, firstEpsilon: Option<Symbol>) returns (word: Word)
    requires AllTraced(A, K, words) && Found(K, target)
    ensures target < |words| && word == Kept(words[target], firstEpsilon)
  {
    hide AllTraced, Kept, Found;
    TracedBack(A, K, words, target);
    var collected: Word, state := [], target;
    assert Kept(words[target], firstEpsilon) == Kept(words[state], firstEpsilon) + Reversed(collected);
    while K.dist[state] > 0
      invariant state < |K.dist| == |words| && Found(K, state)
      invariant Kept(words[target], firstEpsilon) == Kept(words[state], firstEpsilon) + Reversed(collected)
      decreases K.dist[state]
    {
      TracedBack(A, K, words, state);
      var prev, symbol := K.pred[state].prev, K.pred[state].sym;
      KeptSnoc(words[prev], symbol, firstEpsilon);
      if firstEpsilon.None? || symbol < firstEpsilon.value {
        ReversedSnoc(collected, symbol);
        collected := collected + [symbol];
      }
      state := prev;
    }
    TracedBack(A, K, words, state);
    KeptEmpty(firstEpsilon);
    word := Reversed(collected);
  }

  lemma TracedBack(A: Nfa, K: Search, words: seq<Word>, q: State)
    requires AllTraced(A, K, words) && Found(K, q)
    ensures q < |K.dist| == |K.pred| == |words| && |words[q]| == K.dist[q]
    ensures K.dist[q] > 0 ==> var p := K.pred[q]; Found(K, p.prev) && p.prev < |words| && words[q] == words[p.prev] + [p.sym]
                                                  && K.dist[p.prev] == K.dist[q] - 1
  {
    hide ReachedBy;
    assert Traced(A, K, words, q);
    if K.dist[q] > 0 { assert Traced(A, K, words, K.pred[q].prev); }
  }

  lemma KeptEmpty(firstEpsilon: Option<Symbol>)
    ensures Kept([], firstEpsilon) == []
  {
  }

  lemma ReversedSnoc(w: Word, a: Symbol)
    ensures Reversed(w + [a]) == [a] + Reversed(w)
  {
    assert (w + [a])[..|w|] == w;
  }

  /** The initial states are found; None if one of them is final. */
  method Start(A: Nfa) returns (K: Option<Search>, ghost words: seq<Word>)
    requires A.Valid()
    ensures K.None? <==> !(A.initial !! A.final)
    ensures K.Some? ==> Between(A, K.value, words)
  {
    var N := Search(seq(A.size, _ => -1), seq(A.size, _ => Predecessor(0, 0)), []);
    words := seq(A.size, _ => []);
    var todo := A.initial;
    while todo != {}
      invariant todo <= A.initial && |N.dist| == |N.pred| == A.size
      invariant forall q: State | q < A.size :: N.dist[q] == if q in A.initial - todo then 0 else -1
      invariant forall q: State :: q in N.worklist <==> q in A.initial - todo
      invariant (A.initial - todo) !! A.final
      decreases todo
    {
      var q :| q in todo;
      ghost var before := N.worklist;
      todo := todo - {q};
      N := Search(N.dist[q := 0], N.pred, N.worklist + [q]);
      assert forall p: State :: p in N.worklist <==> p in before || p == q;
      if q in A.final {
        return None, words;
      }
    }
    StartBetween(A, N, words);
    K := Some(N);
  }

  lemma StartBetween(A: Nfa, K: Search, words: seq<Word>)
    requires A.Valid() && A.initial !! A.final && |K.dist| == |K.pred| == A.size && words == seq(A.size, _ => [])
    requires forall q: State | q < A.size :: K.dist[q] == if q in A.initial then 0 else -1
    requires forall q: State :: q in K.worklist <==> q in A.initial
    ensures Between(A, K, words)
  {
    forall q: State | q in A.initial ensures ReachedBy(A, [], q) { ReachedByEmpty(A, q); }
    hide ReachedBy;
    assert forall q: State :: (Found(K, q) <==> q in A.initial) && Dist(K, q) == if q in A.initial then 0 else -1;
    assert forall q: State | q in A.initial :: Traced(A, K, words, q);
    assert AllTraced(A, K, words);
    assert forall i | 0 <= i < |K.worklist| :: K.worklist[i] in K.worklist;
    hide AllTraced, Found, Dist, Traced;
  }

  /** The states without a distance */
  ghost function Unfound(K: Search): set<State> {
    set q: State | q in Below(|K.dist|) && K.dist[q] < 0
  }

  lemma VisitUnfound(K: Search, src: State, m: Move)
    requires m.target < |K.dist| == |K.pred| && Found(K, src) && !Found(K, m.target)
    ensures Unfound(Visit(K, src, m)) < Unfound(K)
  {
    assert m.target in Unfound(K) && m.target !in Unfound(Visit(K, src, m));
  }

  /** Go through the moves of `src` up to one into a final state. */
  method Expand(A: Nfa, K0: Search, ghost words0: seq<Word>, src: State) returns (K: Search, ghost words: seq<Word>, found: Option<State>)
    requires A.Valid() && Searching(A, K0, words0, src, [])
    ensures found.None? ==> Between(A, K, words)
    ensures found.None? ==> Unfound(K) < Unfound(K0) || K == K0
    ensures found.Some? ==> AllTraced(A, K, words) && Found(K, found.value) && found.value < |words| && IsShortest(A, words[found.value])
  {
    hide Searching, Between, Step, IsShortest;
    K, words := K0, words0;
    var moves := Moves(A.At(src));
    MovesFrom(A, src);
    assert moves[..0] == [];
    for i := 0 to |moves|
      invariant Searching(A, K, words, src, moves[..i])
      invariant Unfound(K) < Unfound(K0) || K == K0
    {
      var m := moves[i];
      assert m in moves && moves[..i + 1] == moves[..i] + [m];
      SearchingParts(A, K, words, src, moves[..i]);
      if K.dist[m.target] == -1 {
        VisitUnfound(K, src, m);
        if m.target in A.final {
          FirstFinal(A, K, words, src, moves[..i], m);
          VisitTraced(A, K, words, src, m);
          VisitDist(K, src, m);
          return Visit(K, src, m), words[m.target := words[src] + [m.symbol]], Some(m.target);
        }
        VisitSearching(A, K, words, src, moves[..i], m);
        K, words := Visit(K, src, m), words[m.target := words[src] + [m.symbol]];
      } else {
        SkipSearching(A, K, words, src, moves[..i], m);
      }
    }
    assert moves[..|moves|] == moves;
    Done(A, K, words, src);
    found := None;
  }

  lemma SearchingParts(A: Nfa, K: Search, words: seq<Word>, src: State, done: seq<Move>)
    requires Searching(A, K, words, src, done)
    ensures AllTraced(A, K, words) && Found(K, src) && forall q: State | q < |K.dist| :: K.dist[q] == -1 || Found(K, q)
  {
  }

  /** `get_shortest_word`: the visible part of a shortest accepted word, or none just if the language is empty. */
  method GetShortestWord(A: Nfa, firstEpsilon: Option<Symbol>) returns (r: Option<Word>)
    requires A.Valid()
    ensures r.None? <==> forall w: Word :: !Accepts(A, w)
    ensures r.Some? ==> exists w: Word :: IsShortest(A, w) && r.value == Kept(w, firstEpsilon)
  {
    if A.initial == {} || A.final == {} {
      NoWord(A);
      return None;
    }
    var start, words := Start(A);
    if start.None? {
      EmptyIsShortest(A);
      return Some([]);
    }
    var K := start.value;
    hide Between, IsShortest, Accepts;
    while K.worklist != []
      invariant Between(A, K, words)
      decreases Unfound(K), |K.worklist|
    {
      var src := K.worklist[0];
      Pop(A, K, words);
      var found;
      K, words, found := Expand(A, K.(worklist := K.worklist[1..]), words, src);
      if found.Some? {
        var word := Backtrack(A, K, words, found.value, firstEpsilon);
        ShortestAccepted(A, words[found.value]);
        return Some(word);
      }
    }
    NothingFound(A, K, words);
    r := None;
  }

  lemma ShortestAccepted(A: Nfa, w: Word)
    requires IsShortest(A, w)
    ensures Accepts(A, w)
  {
  }

  lemma EmptyIsShortest(A: Nfa)
    requires !(A.initial !! A.final)
    ensures IsShortest(A, []) && forall e :: Kept([], e) == []
  {
    var q :| q in A.initial && q in A.final;
    assert AcceptsFrom(A, q, []);
  }

  // ---------- Shortest by visible symbols ----------

  /** `r` is what is left of an accepted word, and of none less is left. */
  ghost predicate IsShortestVisible(A: Nfa, firstEpsilon: Symbol, r: Word) {
    && (exists w: Word :: Accepts(A, w) && r == Visible(w, firstEpsilon))
    && (forall v: Word | Accepts(A, v) :: |r| <= |Visible(v, firstEpsilon)|)
  }

  /** Every answer the search may give is a shortest one up to epsilons. */
  ghost predicate AlwaysShortestVisible(symbols: set<Symbol>, firstEpsilon: Symbol) {
    forall A: Nfa, w: Word | A.Valid() && StepsOver(A, symbols) && IsShortest(A, w) ::
      IsShortestVisible(A, firstEpsilon, Visible(w, firstEpsilon))
  }

  /** A search that counts epsilons finds a shortest word up to epsilons, whatever the automaton over the
      given symbols, just if there are no epsilons among them, or nothing else. */
  lemma EpsilonsAreCounted(symbols: set<Symbol>, firstEpsilon: Symbol)
    ensures AlwaysShortestVisible(symbols, firstEpsilon) <==>
            (forall a <- symbols :: a < firstEpsilon) || (forall a <- symbols :: a >= firstEpsilon)
  {
    hide IsShortest, StepsOver, IsShortestVisible;
    if (forall a <- symbols :: a < firstEpsilon) || (forall a <- symbols :: a >= firstEpsilon) {
      forall A: Nfa, w: Word | A.Valid() && StepsOver(A, symbols) && IsShortest(A, w)
        ensures IsShortestVisible(A, firstEpsilon, Visible(w, firstEpsilon))
      {
        OneKindIsShortest(A, symbols, firstEpsilon, w);
      }
    } else {
      var a, e :| a in symbols && a < firstEpsilon && e in symbols && e >= firstEpsilon;
      Detour(a, e, firstEpsilon);
      var A := DetourNfa(a, e);
      assert A.Valid() && StepsOver(A, symbols) by { DetourOver(a, e, symbols); }
      assert IsShortest(A, [a]) && !IsShortestVisible(A, firstEpsilon, Visible([a], firstEpsilon));
    }
  }

  lemma OneKindIsShortest(A: Nfa, symbols: set<Symbol>, firstEpsilon: Symbol, w: Word)
    requires StepsOver(A, symbols) && IsShortest(A, w)
    requires (forall a <- symbols :: a < firstEpsilon) || (forall a <- symbols :: a >= firstEpsilon)
    ensures IsShortestVisible(A, firstEpsilon, Visible(w, firstEpsilon))
  {
    hide AcceptsFrom, StepsOver, Visible;
    forall v: Word | Accepts(A, v)
      ensures Visible(v, firstEpsilon) == if forall a <- symbols :: a < firstEpsilon then v else []
    {
      var q :| q in A.initial && AcceptsFrom(A, q, v);
      OneKindVisible(A, symbols, firstEpsilon, q, v);
    }
  }

  /** From 0 to 1 by `a`, or by twice `e` over 2 */
  function DetourNfa(a: Symbol, e: Symbol): Nfa {
    Nfa(3, [[SymbolPost(a, [1]), SymbolPost(e, [2])], [], [SymbolPost(e, [1])]], {0}, {1})
  }

  lemma DetourSteps(a: Symbol, e: Symbol, q: State, b: Symbol, p: State)
    requires a < e
    ensures Step(DetourNfa(a, e), q, b, p) <==> (q, b, p) in {(0, a, 1), (0, e, 2), (2, e, 1)}
  {
    var A := DetourNfa(a, e);
    assert A.At(0)[0] == SymbolPost(a, [1]) && A.At(0)[1] == SymbolPost(e, [2]) && A.At(2)[0] == SymbolPost(e, [1]);
    if (q, b, p) == (0, a, 1) { assert InPost(A.At(0), a, 1); }
    if (q, b, p) == (0, e, 2) { assert InPost(A.At(0), e, 2); }
    if (q, b, p) == (2, e, 1) { assert InPost(A.At(2), e, 1); }
  }

  lemma DetourOver(a: Symbol, e: Symbol, symbols: set<Symbol>)
    requires a < e && a in symbols && e in symbols
    ensures DetourNfa(a, e).Valid() && StepsOver(DetourNfa(a, e), symbols)
  {
    forall q: State, b, p: State | Step(DetourNfa(a, e), q, b, p) ensures b in symbols { DetourSteps(a, e, q, b, p); }
    hide Step;
  }

  lemma DetourWords(a: Symbol, e: Symbol)
    requires a < e
    ensures Accepts(DetourNfa(a, e), [a]) && Accepts(DetourNfa(a, e), [e, e]) && !Accepts(DetourNfa(a, e), [])
  {
    hide Step;
    var A := DetourNfa(a, e);
    assert [a][1..] == [] && [e, e][1..] == [e] && [e][1..] == [];
    DetourSteps(a, e, 0, a, 1);
    DetourSteps(a, e, 0, e, 2);
    DetourSteps(a, e, 2, e, 1);
    assert AcceptsFrom(A, 1, []);
    StepAccepts(A, 0, [a], 1);
    StepAccepts(A, 2, [e], 1);
    StepAccepts(A, 0, [e, e], 2);
  }

  lemma Detour(a: Symbol, e: Symbol, firstEpsilon: Symbol)
    requires a < firstEpsilon <= e
    ensures IsShortest(DetourNfa(a, e), [a])
    ensures !IsShortestVisible(DetourNfa(a, e), firstEpsilon, Visible([a], firstEpsilon))
  {
    hide Accepts, DetourNfa;
    DetourWords(a, e);
    assert Visible([], firstEpsilon) == [] && Visible([a], firstEpsilon) == [a] + [];
    assert Visible([e], firstEpsilon) == [] && Visible([e, e], firstEpsilon) == [];
  }
}
