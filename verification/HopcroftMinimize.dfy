/** minimize_hopcroft of src/nfa/operations.cc from beginning to end. */
module HopcroftMinimize {
  import opened Automata
  import opened Counting
  import opened Minimality
  import opened RefinablePartitions
  import opened HopcroftInvariants
  import opened HopcroftSplitting
  import opened HopcroftLoop
  import opened HopcroftQuotient
  import opened Hopcroft

  /** The sources of the transitions, and for every state the transitions leading into it. */
  method IndexTransitions(tr: seq<Transition>, n: nat) returns (sources: seq<State>, incoming: seq<seq<nat>>)
    requires forall t | 0 <= t < |tr| :: tr[t].target < n
    ensures |sources| == |tr| && |incoming| == n && IncomingOf(tr, incoming)
    ensures forall t | 0 <= t < |tr| :: sources[t] == tr[t].source
  {
    sources, incoming := [], seq(n, _ => []);
    for t := 0 to |tr|
      invariant |sources| == t && |incoming| == n
      invariant forall u | 0 <= u < t :: sources[u] == tr[u].source
      invariant forall q | 0 <= q < n :: forall u: nat :: u in incoming[q] <==> u < t && tr[u].target == q
    {
      sources := sources + [tr[t].source];
      incoming := incoming[tr[t].target := incoming[tr[t].target] + [t]];
    }
  }

  method MarkStates(brp: RefinablePartition, states: StateSet)
    requires brp.Valid() && brp.View().Marked() == {} && forall q <- states :: q < brp.Size()
    modifies brp.elems, brp.location, brp.mid
    ensures brp.Valid() && brp.View().idx == old(brp.View().idx) && brp.View().num == old(brp.View().num)
    ensures brp.View().Marked() == states
  {
    var todo := states;
    while todo != {}
      invariant todo <= states
      invariant brp.Valid() && brp.View().idx == old(brp.View().idx) && brp.View().num == old(brp.View().num)
      invariant brp.View().Marked() == states - todo
    {
      var q :| q in todo;
      brp.Mark(q);
      todo := todo - {q};
    }
  }

  /** All splitters are unready at first. */
  method AllSplitters(n: nat) returns (unready: seq<nat>)
    ensures unready == Range(0, n)
  {
    unready := [];
    for s := 0 to n
      invariant unready == Range(0, s)
    {
      unready := unready + [s];
    }
  }

  function SymbolsOf(tr: seq<Transition>): seq<Symbol> {
    seq(|tr|, t requires 0 <= t < |tr| => tr[t].symbol)
  }

  /** The first refinement, by the final states, establishes the loop invariant. */
  lemma InitialRefinement(A: Nfa, tr: seq<Transition>, B: Layout, K: Layout, small: set<State>,
                          T: Layout, unready: seq<nat>, N: Layout, unready': seq<nat>)
    requires B.Valid() && K.Valid() && T.Valid() && N.Valid()
    requires B.Marked() == A.final && forall q | 0 <= q < |B.idx| :: B.idx[q] == 0
    requires BlockHalved(B, 0, K, small) && SplittersFollow(tr, T, unready, small, N, unready')
    requires Indexed(tr, B.idx, T.idx) && forall t | 0 <= t < |tr| :: T.idx[t] in unready
    requires GroupedBy(T.idx, SymbolsOf(tr))
    ensures K.Marked() == {} && N.Marked() == {} && Refining(A, tr, K.idx, N.idx, unready', {})
  {
    FinalSeparates(A, |B.idx|);
    InitialMatch(tr, B.idx, T.idx, unready);
    UniformAfter(B.idx, B.Marked(), K.idx);
    hide GroupedBy, SplittersMatch, StableExcept;
    RefineStepStable(tr, B, 0, K, small, T, unready, N, unready', {});
    SplitKeepsCoarse(A, B.idx, 0, B.Marked(), K.idx);
  }

  lemma InitialMatch(tr: seq<Transition>, bIdx: seq<nat>, tIdx: seq<nat>, unready: seq<nat>)
    requires Indexed(tr, bIdx, tIdx) && GroupedBy(tIdx, SymbolsOf(tr))
    requires (forall q | 0 <= q < |bIdx| :: bIdx[q] == 0) && forall t | 0 <= t < |tr| :: tIdx[t] in unready
    ensures SplittersMatch(tr, bIdx, tIdx) && StableExcept(tr, bIdx, tIdx, unready, {})
  {
    var symbols := SymbolsOf(tr);
    assert forall t | 0 <= t < |tr| :: symbols[t] == tr[t].symbol;
  }

  lemma UniformAfter(bIdx: seq<nat>, M: set<State>, bIdx': seq<nat>)
    requires BlockSplit(bIdx, 0, M, bIdx') && forall q | 0 <= q < |bIdx| :: bIdx[q] == 0
    ensures Uniform(bIdx', M)
  {
  }

  lemma InitialAccount(tr: seq<Transition>, bIdx: seq<nat>, tIdx: seq<nat>, unready: seq<nat>)
    requires Indexed(tr, bIdx, tIdx)
    ensures Accounted(tr, bIdx, tIdx, unready, seq(|bIdx|, _ => 0), seq(|tr|, _ => 0))
  {
    forall q | 0 <= q < |bIdx| ensures |BlockOf(bIdx, bIdx[q])| <= |bIdx| {
      SubsetSize(BlockOf(bIdx, bIdx[q]), Below(|bIdx|));
    }
  }

  lemma TransitionsOfDfa(A: Nfa)
    requires A.Valid() && Deterministic(A)
    ensures TransitionsOf(A, Transitions(A.delta))
    ensures forall t <- Transitions(A.delta) :: t.source < A.size && t.target < A.size
  {
    var tr := Transitions(A.delta);
    TransitionsAreSteps(A);
    forall t, u | 0 <= t < |tr| && 0 <= u < |tr| && tr[t].source == tr[u].source && tr[t].symbol == tr[u].symbol
      ensures t == u
    {
      assert tr[t] in tr && tr[u] in tr;
      DeterministicStep(A, tr[t].source, tr[t].symbol, tr[t].target, tr[u].target);
      assert tr[t] == tr[u];
    }
    forall x | x in tr ensures x.source < A.size && x.target < A.size {
      StepIsState(A, x.source, x.symbol, x.target);
    }
  }

  /** The initial partitions: all states together, transitions grouped by symbol. */
  method NewPartitions(n: nat, symbols: seq<Symbol>) returns (brp: RefinablePartition, trp: RefinablePartition)
    requires n > 0 && symbols != []
    ensures brp.Valid() && trp.Valid() && brp.Repr() !! trp.Repr() && fresh(brp.Repr() + trp.Repr())
    ensures brp.View().num == 1 && brp.View().idx == seq(n, _ => 0) && brp.View().Marked() == {}
    ensures GroupedBy(trp.View().idx, symbols) && trp.View().Marked() == {}
  {
    hide GroupedBy, Layout.Marked;
    trp := new RefinablePartition.ByLabel(symbols);
    ghost var T := trp.View();
    brp := new RefinablePartition.OneSet(n);
    assert trp.View() == T;
  }

  /** Mark the final states in the initial partition of the states. */
  method SetUp(n: nat, final: StateSet, symbols: seq<Symbol>)
    returns (brp: RefinablePartition, trp: RefinablePartition, unready: seq<nat>)
    requires n > 0 && symbols != [] && forall q <- final :: q < n
    ensures brp.Valid() && trp.Valid() && brp.Repr() !! trp.Repr() && fresh(brp.Repr() + trp.Repr())
    ensures brp.View().num == 1 && brp.View().idx == seq(n, _ => 0) && brp.View().Marked() == final
    ensures GroupedBy(trp.View().idx, symbols) && trp.View().Marked() == {}
    ensures unready == Range(0, trp.View().num)
  {
    hide GroupedBy, Layout.Marked;
    brp, trp := NewPartitions(n, symbols);
    ghost var T := trp.View();
    unready := AllSplitters(trp.numOfSets);
    MarkStates(brp, final);
    assert trp.View() == T;
  }

  lemma AllUnready(T: Layout, unready: seq<nat>)
    requires T.Valid() && unready == Range(0, T.num)
    ensures forall t | 0 <= t < |T.idx| :: T.idx[t] in unready
  {
  }

  /** The initial partitions, split by the final states. */
  method InitialPartitions(A: Nfa, tr: seq<Transition>, sources: seq<State>, incoming: seq<seq<nat>>)
    returns (brp: RefinablePartition, trp: RefinablePartition, unready: seq<nat>, ghost scans: seq<nat>, ghost visits: seq<nat>)
    requires A.Valid() && A.size > 0 && tr != []
    requires forall t | 0 <= t < |tr| :: tr[t].source < A.size && tr[t].target < A.size
    requires |sources| == |tr| && |incoming| == A.size && IncomingOf(tr, incoming)
    requires forall t | 0 <= t < |tr| :: sources[t] == tr[t].source
    ensures Linked(brp, trp, tr, sources, incoming) && fresh(brp.Repr() + trp.Repr())
    ensures BetweenRounds(A, tr, brp.View(), trp.View(), unready, scans, visits)
    ensures unready == Range(0, trp.View().num)
  {
    var unready0;
    brp, trp, unready0 := SetUp(A.size, A.final, SymbolsOf(tr));
    ghost var B, T := brp.View(), trp.View();
    hide GroupedBy, BetweenRounds, IncomingOf, SplittersFollow, BlockHalved, Layout.Marked;
    ghost var small;
    visits := seq(|tr|, _ => 0);
    unready, small, scans := SplitBlock(brp, trp, tr, incoming, 0, unready0, seq(|B.idx|, _ => 0));
    InitialRound(A, tr, B, brp.View(), small, T, unready0, trp.View(), unready);
  }

  lemma InitialRound(A: Nfa, tr: seq<Transition>, B: Layout, K: Layout, small: set<State>,
                     T: Layout, unready: seq<nat>, N: Layout, unready': seq<nat>)
    requires B.Valid() && K.Valid() && T.Valid() && N.Valid()
    requires B.num == 1 && B.Marked() == A.final && B.idx == seq(|B.idx|, _ => 0)
    requires BlockHalved(B, 0, K, small) && SplittersFollow(tr, T, unready, small, N, unready')
    requires Indexed(tr, B.idx, T.idx) && unready == Range(0, T.num)
    requires GroupedBy(T.idx, SymbolsOf(tr))
    ensures BetweenRounds(A, tr, K, N, unready', Bump(seq(|B.idx|, _ => 0), small), seq(|tr|, _ => 0))
    ensures unready' == Range(0, N.num)
  {
    AllUnready(T, unready);
    InitialRefinement(A, tr, B, K, small, T, unready, N, unready');
    InitialAccount(tr, B.idx, T.idx, unready);
    AccountSplit(tr, B, 0, K, small, T, unready, N, unready', seq(|B.idx|, _ => 0), seq(|tr|, _ => 0));
    FollowedBy(tr, T, unready, small, N, unready');
    RangeConcat([], 0, T.num, N.num);
  }

  /** Refine until no splitter is unready.  The number of rounds is bounded by the number of
      transitions, since every splitter is pushed once. */
  method RefineAll(ghost A: Nfa, brp: RefinablePartition, trp: RefinablePartition, ghost tr: seq<Transition>,
                   sources: seq<State>, incoming: seq<seq<nat>>, unready0: seq<nat>,
                   ghost scans0: seq<nat>, ghost visits0: seq<nat>)
    returns (ghost scans: seq<nat>, ghost visits: seq<nat>, ghost rounds: nat)
    requires Linked(brp, trp, tr, sources, incoming)
    requires TransitionsOf(A, tr) && forall q | 0 <= q < brp.Size() :: CoReachable(A, q)
    requires BetweenRounds(A, tr, brp.View(), trp.View(), unready0, scans0, visits0)
    requires unready0 == Range(0, trp.View().num)
    modifies brp.Repr(), trp.Repr()
    ensures brp.Valid() && trp.Valid() && rounds == trp.View().num <= |tr|
    ensures BetweenRounds(A, tr, brp.View(), trp.View(), [], scans, visits)
  {
    hide BetweenRounds, IncomingOf, TransitionsOf;
    var unready: seq<nat> := unready0;
    scans, visits, rounds := scans0, visits0, 0;
    while unready != []
      invariant Linked(brp, trp, tr, sources, incoming)
      invariant BetweenRounds(A, tr, brp.View(), trp.View(), unready, scans, visits)
      invariant Distinct(unready) && forall s <- unready :: s < trp.View().num
      invariant rounds + |unready| == trp.View().num
      decreases |tr| - rounds
    {
      ghost var num, whole := trp.View().num, unready;
      var s := unready[|unready| - 1];
      unready := unready[..|unready| - 1];
      ghost var rest := unready;
      DistinctSnoc(rest, s);
      assert whole == rest + [s] && s in whole && forall x <- rest :: x in whole;
      unready, scans, visits := ProcessSplitter(A, brp, trp, tr, sources, incoming, s, unready, scans, visits);
      AppendRangeDistinct(rest, num, trp.View().num);
      rounds := rounds + 1;
    }
  }

  lemma FollowedBy(tr: seq<Transition>, T: Layout, unready: seq<nat>, small: set<State>, N: Layout, unready': seq<nat>)
    requires SplittersFollow(tr, T, unready, small, N, unready')
    ensures N.num >= T.num && unready' == unready + Range(T.num, N.num)
  {
  }

  // ---------- Reading off the result ----------

  method BlockPost(brp: RefinablePartition, post: StatePost) returns (r: StatePost)
    requires brp.Valid() && PostInto(post, brp.Size())
    ensures r == QuotientPost(post, brp.View().idx)
  {
    r := [];
    for i := 0 to |post|
      invariant r == QuotientPost(post, brp.View().idx)[..i]
    {
      r := r + [SymbolPost(post[i].symbol, [brp.setIdx[post[i].targets[0]]])];
    }
  }

  lemma DfaPostInto(A: Nfa, q: State)
    requires A.Valid()
    ensures PostInto(A.At(q), A.size)
  {
    assert q < |A.delta| ==> ValidPost(A.delta[q], A.size);
  }

  /** The first `|reps|` blocks have been read off. */
  ghost predicate ReadOff(A: Nfa, bIdx: seq<nat>, reps: seq<State>, delta: seq<StatePost>, final: StateSet) {
    && |bIdx| == A.size && |delta| == |reps|
    && (forall c | 0 <= c < |reps| :: reps[c] < A.size && bIdx[reps[c]] == c && PostInto(A.At(reps[c]), A.size))
    && (forall c | 0 <= c < |reps| :: delta[c] == QuotientPost(A.At(reps[c]), bIdx))
    && (forall c: nat :: c in final <==> c < |reps| && reps[c] in A.final)
  }

  lemma ReadOffNext(A: Nfa, bIdx: seq<nat>, reps: seq<State>, delta: seq<StatePost>, final: StateSet, q: State)
    requires A.Valid() && ReadOff(A, bIdx, reps, delta, final) && q < A.size && bIdx[q] == |reps|
    ensures PostInto(A.At(q), |bIdx|)
    ensures ReadOff(A, bIdx, reps + [q], delta + [QuotientPost(A.At(q), bIdx)],
                    if q in A.final then final + {|reps|} else final)
  {
    DfaPostInto(A, q);
  }

  lemma ReadOffIsQuotient(A: Nfa, B: Layout, reps: seq<State>, delta: seq<StatePost>, final: StateSet, q0: State)
    requires A.Valid() && B.Valid() && ReadOff(A, B.idx, reps, delta, final) && |reps| == B.num && q0 in A.initial
    ensures q0 < |B.idx| && IsQuotient(A, B.idx, reps, Nfa(B.num, delta, {B.idx[q0]}, final))
  {
  }

  lemma FirstOfBlock(B: Layout, b: nat)
    requires B.Valid() && b < B.num
    ensures B.Order(b) != [] && B.Order(b)[0] < |B.idx| && B.idx[B.Order(b)[0]] == b
  {
    OrderEnumeratesBlock(B, b);
    assert B.Order(b)[0] in B.Order(b);
  }

  /** The first element of every block, which represents it */
  ghost function Representatives(B: Layout): (reps: seq<State>)
    ensures |reps| == B.num
  {
    seq(B.num, b requires 0 <= b => if B.Order(b) == [] then 0 else B.Order(b)[0])
  }

  lemma RepresentativesSnoc(B: Layout, b: nat)
    requires B.Valid() && b < B.num
    ensures B.Order(b) != [] && Representatives(B)[..b] + [B.Order(b)[0]] == Representatives(B)[..b + 1]
  {
    FirstOfBlock(B, b);
  }

  /** The representative of block `b` and the post of the new state */
  method ReadBlock(A: Nfa, brp: RefinablePartition, b: nat) returns (q: State, post: StatePost)
    requires A.Valid() && brp.Valid() && brp.Size() == A.size && b < brp.numOfSets
    ensures q < A.size && brp.View().idx[q] == b && Representatives(brp.View())[..b] + [q] == Representatives(brp.View())[..b + 1]
    ensures PostInto(A.At(q), brp.Size()) && post == QuotientPost(A.At(q), brp.View().idx)
  {
    FirstOfBlock(brp.View(), b);
    RepresentativesSnoc(brp.View(), b);
    q := brp.GetFirst(b);
    DfaPostInto(A, q);
    hide QuotientPost, PostInto, Layout.Order, Representatives, Layout.Valid, Nfa.Valid;
    post := BlockPost(brp, A.At(q));
  }

  method BuildQuotient(A: Nfa, brp: RefinablePartition) returns (R: Nfa)
    requires A.Valid() && Deterministic(A) && brp.Valid() && brp.Size() == A.size > 0
    ensures IsQuotient(A, brp.View().idx, Representatives(brp.View()), R)
  {
    ghost var B := brp.View();
    var delta: seq<StatePost>, final: StateSet := [], {};
    ghost var reps: seq<State> := [];
    assert ReadOff(A, B.idx, reps, delta, final);
    hide ReadOff, IsQuotient, QuotientPost, PostInto, Layout.Order, Layout.Valid, Representatives;
    for b := 0 to brp.numOfSets
      invariant |reps| == b && reps == Representatives(B)[..b] && ReadOff(A, B.idx, reps, delta, final)
    {
      var q, post := ReadBlock(A, brp, b);
      ReadOffNext(A, B.idx, reps, delta, final, q);
      if q in A.final {
        final := final + {b as State};
      }
      delta, reps := delta + [post], reps + [q];
    }
    assert reps == Representatives(B);
    var q0 :| q0 in A.initial;
    R := Nfa(brp.numOfSets, delta, {brp.setIdx[q0]}, final);
    ReadOffIsQuotient(A, B, reps, delta, final, q0);
  }

  // ---------- The theorem ----------

  lemma ResultIsMinimal(A: Nfa, tr: seq<Transition>, B: Layout, T: Layout, reps: seq<State>, R: Nfa,
                        scans: seq<nat>, visits: seq<nat>)
    requires A.Valid() && Deterministic(A) && Trimmed(A) && TransitionsOf(A, tr)
    requires BetweenRounds(A, tr, B, T, [], scans, visits) && IsQuotient(A, B.idx, reps, R)
    ensures R.Valid() && SameLanguage(A, R) && Deterministic(R) && Trimmed(R) && Reduced(R)
  {
    StableIsCongruent(A, tr, B.idx, T.idx);
    QuotientValid(A, B.idx, reps, R);
    QuotientLanguage(A, B.idx, reps, R);
    QuotientReduced(A, B.idx, reps, R);
    QuotientTrimmed(A, B.idx, reps, R);
  }

  lemma ReachableByStep(A: Nfa, q: State)
    requires Reachable(A, q)
    ensures q in A.initial || exists p, a, r :: Step(A, p, a, r)
  {
    var p, w :| p in A.initial && ReadsTo(A, p, w, q);
    var path :| IsRun(A, path, w) && path[0] == p && path[|w|] == q;
    if w != [] {
      assert Step(A, path[0], w[0], path[0 + 1]);
    }
  }

  /** A trimmed deterministic automaton without transitions has at most one state. */
  lemma NoTransitionsReduced(A: Nfa)
    requires A.Valid() && Deterministic(A) && Trimmed(A) && Transitions(A.delta) == []
    ensures Reduced(A)
  {
    TransitionsAreSteps(A);
    forall p, a, r ensures !Step(A, p, a, r) {
      assert Transition(p, a, r) !in Transitions(A.delta);
    }
    hide Reachable, CoReachable;
    forall q: State | q in Below(A.size) ensures q in A.initial {
      assert Useful(A, q);
      ReachableByStep(A, q);
    }
    SubsetSize(Below(A.size), A.initial);
  }

  /** How often each transition is marked because its target is rescanned */
  ghost function Rescans(tr: seq<Transition>, scans: seq<nat>): seq<nat>
    requires forall t | 0 <= t < |tr| :: tr[t].target < |scans|
  {
    seq(|tr|, t requires 0 <= t < |tr| => scans[tr[t].target])
  }

  /** The work of the algorithm: `rounds` splitters are processed, the transitions into state `q`
      are rescanned `scans[q]` times and transition `t` is fired back `visits[t]` times; in all the
      transitions are visited O(m log n) times. */
  ghost predicate WorkBounded(A: Nfa, tr: seq<Transition>, rounds: nat, scans: seq<nat>, visits: seq<nat>) {
    && rounds <= |tr| == |visits| && |scans| == A.size > 0
    && (forall q | 0 <= q < |scans| :: scans[q] <= Log2(A.size))
    && (forall t | 0 <= t < |tr| :: tr[t].target < A.size && visits[t] <= Log2(A.size) + 1)
    && Sum(Rescans(tr, scans)) <= |tr| * Log2(A.size)
    && Sum(visits) <= |tr| * (Log2(A.size) + 1)
  }

  lemma ScansBounded(bIdx: seq<nat>, scans: seq<nat>, q: State)
    requires |scans| == |bIdx| && q < |bIdx| && Pow2(scans[q]) * |BlockOf(bIdx, bIdx[q])| <= |bIdx|
    ensures Pow2(scans[q]) <= |bIdx|
  {
    var block := BlockOf(bIdx, bIdx[q]);
    assert q in block;
    FactorBound(Pow2(scans[q]), |block|);
  }

  lemma FactorBound(a: nat, b: nat)
    requires b > 0
    ensures a <= a * b
  {
  }

  lemma AccountedIsBounded(A: Nfa, tr: seq<Transition>, bIdx: seq<nat>, tIdx: seq<nat>, rounds: nat,
                           scans: seq<nat>, visits: seq<nat>)
    requires |bIdx| == A.size > 0 && rounds <= |tr| && Accounted(tr, bIdx, tIdx, [], scans, visits)
    ensures WorkBounded(A, tr, rounds, scans, visits)
  {
    forall q | 0 <= q < A.size ensures scans[q] <= Log2(A.size) {
      ScansBounded(bIdx, scans, q);
      AtMostLog2(scans[q], A.size);
    }
    hide BlockOf, Log2, Pow2;
    SumBound(Rescans(tr, scans), Log2(A.size));
    SumBound(visits, Log2(A.size) + 1);
  }

  lemma DfaReady(A: Nfa, tr: seq<Transition>)
    requires A.Valid() && Deterministic(A) && Trimmed(A) && tr == Transitions(A.delta) != []
    ensures A.size > 0 && TransitionsOf(A, tr)
    ensures forall t | 0 <= t < |tr| :: tr[t].source < A.size && tr[t].target < A.size
    ensures forall q | 0 <= q < A.size :: CoReachable(A, q)
  {
    TransitionsOfDfa(A);
    assert tr[0] in tr && forall t | 0 <= t < |tr| :: tr[t] in tr;
    hide CoReachable, Reachable;
    forall q | 0 <= q < A.size ensures CoReachable(A, q) {
      assert Useful(A, q);
    }
  }

  /** The final partition of the states. */
  method RefineDfa(A: Nfa, tr: seq<Transition>)
    returns (brp: RefinablePartition, ghost T: Layout, ghost rounds: nat, ghost scans: seq<nat>, ghost visits: seq<nat>)
    requires A.Valid() && A.size > 0 && tr != [] && TransitionsOf(A, tr)
    requires forall t | 0 <= t < |tr| :: tr[t].source < A.size && tr[t].target < A.size
    requires forall q | 0 <= q < A.size :: CoReachable(A, q)
    ensures brp.Valid() && brp.Size() == A.size && rounds <= |tr|
    ensures BetweenRounds(A, tr, brp.View(), T, [], scans, visits)
  {
    hide TransitionsOf, IncomingOf, BetweenRounds, CoReachable;
    var sources, incoming := IndexTransitions(tr, A.size);
    var trp, unready;
    brp, trp, unready, scans, visits := InitialPartitions(A, tr, sources, incoming);
    scans, visits, rounds := RefineAll(A, brp, trp, tr, sources, incoming, unready, scans, visits);
    T := trp.View();
  }

  /** The main part: there are transitions. */
  method MinimizeDfa(A: Nfa, tr: seq<Transition>)
    returns (R: Nfa, ghost rounds: nat, ghost scans: seq<nat>, ghost visits: seq<nat>)
    requires A.Valid() && Deterministic(A) && Trimmed(A) && tr == Transitions(A.delta) != []
    ensures R.Valid() && SameLanguage(A, R)
    ensures Deterministic(R) && Trimmed(R) && Reduced(R)
    ensures WorkBounded(A, tr, rounds, scans, visits)
  {
    DfaReady(A, tr);
    hide TransitionsOf, IsQuotient, WorkBounded, Deterministic, Trimmed, Reduced, SameLanguage, Refining, Accounted;
    ghost var T;
    var brp;
    brp, T, rounds, scans, visits := RefineDfa(A, tr);
    AccountedIsBounded(A, tr, brp.View().idx, T.idx, rounds, scans, visits);
    R := BuildQuotient(A, brp);
    ResultIsMinimal(A, tr, brp.View(), T, Representatives(brp.View()), R, scans, visits);
  }

  /** Hopcroft minimisation.  The source asserts determinism and trimness only when there are
      transitions; without any it returns the automaton as it is. */
  method MinimizeHopcroft(A: Nfa) returns (R: Nfa, ghost rounds: nat, ghost scans: seq<nat>, ghost visits: seq<nat>)
    requires A.Valid()
    requires Transitions(A.delta) != [] ==> Deterministic(A) && Trimmed(A)
    ensures R.Valid() && SameLanguage(A, R)
    ensures Transitions(A.delta) == [] ==> R == A
    ensures Deterministic(A) && Trimmed(A) ==> Deterministic(R) && Trimmed(R) && Reduced(R)
    ensures Deterministic(A) && Trimmed(A) ==>
              forall D: Nfa | D.Valid() && Deterministic(D) && SameLanguage(R, D) :: R.size <= D.size
    ensures Transitions(A.delta) != [] ==> WorkBounded(A, Transitions(A.delta), rounds, scans, visits)
  {
    var tr := Transitions(A.delta);
    if tr == [] {
      R, rounds, scans, visits := A, 0, [], [];
      if Deterministic(A) && Trimmed(A) {
        NoTransitionsReduced(A);
      }
    } else {
      R, rounds, scans, visits := MinimizeDfa(A, tr);
    }
    hide Reduced, Trimmed, Deterministic, SameLanguage, Nfa.Valid, WorkBounded;
    forall D: Nfa | Deterministic(R) && Trimmed(R) && Reduced(R) && D.Valid() && Deterministic(D) && SameLanguage(R, D)
      ensures R.size <= D.size
    {
      ReducedIsMinimal(R, D);
    }
  }
}
