/** Hopcroft minimisation of trimmed partial DFAs (minimize_hopcroft of src/nfa/operations.cc). */
module Hopcroft {
  import opened Automata
  import opened Counting
  import opened Options
  import opened RefinablePartitions
  import opened HopcroftInvariants
  import opened HopcroftSplitting
  import opened HopcroftLoop

  /** Fire the transitions of splitter `s` back: mark their sources. */
  method FireSplitter(brp: RefinablePartition, trp: RefinablePartition, ghost tr: seq<Transition>,
                      sources: seq<State>, s: nat) returns (touched: seq<nat>, ghost fired: seq<nat>)
    requires brp.Valid() && trp.Valid() && brp.Repr() !! trp.Repr() && s < trp.numOfSets
    requires |tr| == |sources| == trp.Size() && forall t | 0 <= t < |tr| :: sources[t] == tr[t].source < brp.Size()
    requires brp.View().Marked() == {}
    modifies brp.elems, brp.location, brp.mid
    ensures brp.Valid() && brp.View().idx == old(brp.View().idx) && brp.View().num == old(brp.View().num)
    ensures brp.View().Marked() == Sources(tr, trp.View().Block(s)) && Touched(brp.View(), touched)
    ensures Distinct(fired) && Elements(fired) == trp.View().Block(s)
  {
    ghost var T := trp.View();
    ghost var order := T.Order(s);
    OrderEnumeratesBlock(T, s);
    ElementsAre(order, T.Block(s));
    ghost var i := 0;
    touched, fired := [], order[..i];
    NothingTouched(brp.View(), tr);
    assert Sources(tr, Elements(fired)) == {};
    hide Touched, Elements, Sources, Layout.Inverse, Layout.SetsFilled, Layout.ElementsPlaced, Layout.Block, Layout.Marked;
    var cur := Some(trp.GetFirst(s));
    while cur.Some?
      invariant trp.View() == T
      invariant i <= |order| && fired == order[..i]
      invariant if cur.Some? then i < |order| && cur.value == order[i] else i == |order|
      invariant brp.Valid() && brp.View().idx == old(brp.View().idx) && brp.View().num == old(brp.View().num)
      invariant brp.View().Marked() == Sources(tr, Elements(fired)) && Touched(brp.View(), touched)
      decreases |order| - i
    {
      var t := cur.value;
      assert t in order;
      SourcesSnoc(tr, order, i);
      touched := Touch(brp, sources[t], touched);
      assert trp.View() == T;
      trp.GetNextFollowsOrder(s, i);
      cur := trp.GetNext(t);
      i := i + 1;
      fired := order[..i];
    }
    assert order[..i] == order;
  }

  lemma SourcesSnoc(tr: seq<Transition>, order: seq<nat>, i: nat)
    requires i < |order| && order[i] < |tr|
    ensures Sources(tr, Elements(order[..i + 1])) == Sources(tr, Elements(order[..i])) + {tr[order[i]].source}
  {
    assert order[..i + 1] == order[..i] + [order[i]];
    assert Elements(order[..i + 1]) == Elements(order[..i]) + {order[i]};
  }

  /** The two partitions and the index vectors belong together. */
  ghost predicate Linked(brp: RefinablePartition, trp: RefinablePartition, tr: seq<Transition>,
                         sources: seq<State>, incoming: seq<seq<nat>>)
    reads brp.Repr(), trp.Repr()
  {
    && brp.Valid() && trp.Valid() && brp.Repr() !! trp.Repr()
    && |incoming| == brp.Size() && |tr| == |sources| == trp.Size() && IncomingOf(tr, incoming)
    && (forall t | 0 <= t < |tr| :: sources[t] == tr[t].source)
  }

  /** Nothing is left of a processed splitter: `StableExcept` holds without it. */
  lemma RoundEnd(A: Nfa, tr: seq<Transition>, bIdx: seq<nat>, tIdx: seq<nat>, unready: seq<nat>, S: set<nat>)
    requires Refining(A, tr, bIdx, tIdx, unready, S) && Functional(tr) && Uniform(bIdx, Sources(tr, S))
    requires forall t <- S :: t < |tr|
    requires forall t <- S, u <- S :: tr[t].symbol == tr[u].symbol
    ensures Refining(A, tr, bIdx, tIdx, unready, {})
  {
    UniformMakesStable(tr, bIdx, tIdx, unready, S);
  }

  lemma RoundStart(A: Nfa, tr: seq<Transition>, bIdx: seq<nat>, tIdx: seq<nat>, unready: seq<nat>, s: nat, S: set<nat>)
    requires Refining(A, tr, bIdx, tIdx, unready + [s], {}) && TransitionsOf(A, tr)
    requires S == set t | 0 <= t < |tr| && tIdx[t] == s
    requires forall q | 0 <= q < |bIdx| :: CoReachable(A, q)
    ensures Refining(A, tr, bIdx, tIdx, unready, S)
    ensures Separates(A, |bIdx|, Sources(tr, S))
    ensures forall t <- S, u <- S :: tr[t].symbol == tr[u].symbol
  {
    PopKeepsStable(tr, bIdx, tIdx, unready, s, S);
    SplitterSeparates(A, tr, bIdx, tIdx, s, S);
  }

  /** What holds while the touched blocks of a round are split, `Q` being the fired-back sources. */
  ghost predicate InRound(A: Nfa, tr: seq<Transition>, B: Layout, T: Layout, unready: seq<nat>, S: set<nat>, Q: set<State>,
                          touched: seq<nat>, scans: seq<nat>, visits: seq<nat>) {
    && B.Valid() && T.Valid() && T.Marked() == {}
    && Refining(A, tr, B.idx, T.idx, unready, S)
    && Accounted(tr, B.idx, T.idx, unready, scans, visits)
    && BackPropagated(B, Q, touched)
    && Separates(A, |B.idx|, Q)
  }

  lemma InRoundStep(A: Nfa, tr: seq<Transition>, B: Layout, b: nat, K: Layout, small: set<State>,
                    T: Layout, unready: seq<nat>, N: Layout, unready': seq<nat>, S: set<nat>, Q: set<State>,
                    rest: seq<nat>, scans: seq<nat>, visits: seq<nat>)
    requires K.Valid() && N.Valid() && BlockHalved(B, b, K, small) && SplittersFollow(tr, T, unready, small, N, unready')
    requires InRound(A, tr, B, T, unready, S, Q, rest + [b], scans, visits)
    ensures InRound(A, tr, K, N, unready', S, Q, rest, Bump(scans, small), visits)
    ensures N.num >= T.num && unready' == unready + Range(T.num, N.num)
  {
    BackTop(B, Q, rest, b);
    BackStep(B, Q, rest, b, K, small);
    RefineStep(A, tr, B, b, K, small, T, unready, N, unready', S, Q);
    AccountSplit(tr, B, b, K, small, T, unready, N, unready', scans, visits);
    assert |K.idx| == |B.idx|;
  }

  /** Split the touched blocks one after another. */
  method SplitTouchedBlocks(ghost A: Nfa, brp: RefinablePartition, trp: RefinablePartition, ghost tr: seq<Transition>,
                            incoming: seq<seq<nat>>, touched0: seq<nat>, unready0: seq<nat>,
                            ghost S: set<nat>, ghost Q: set<State>, ghost scans0: seq<nat>, ghost visits: seq<nat>)
    returns (unready: seq<nat>, ghost scans: seq<nat>)
    requires brp.Valid() && trp.Valid() && brp.Repr() !! trp.Repr()
    requires |incoming| == brp.Size() && |tr| == trp.Size() && IncomingOf(tr, incoming)
    requires InRound(A, tr, brp.View(), trp.View(), unready0, S, Q, touched0, scans0, visits)
    modifies brp.Repr(), trp.Repr()
    ensures brp.Valid() && trp.Valid() && InRound(A, tr, brp.View(), trp.View(), unready, S, Q, [], scans, visits)
    ensures trp.View().num >= old(trp.View().num)
    ensures unready == unready0 + Range(old(trp.View().num), trp.View().num)
  {
    hide InRound, IncomingOf, BlockHalved, SplittersFollow;
    ghost var num0 := trp.View().num;
    unready, scans := unready0, scans0;
    var touched := touched0;
    while touched != []
      invariant brp.Valid() && trp.Valid() && trp.View().num >= num0
      invariant InRound(A, tr, brp.View(), trp.View(), unready, S, Q, touched, scans, visits)
      invariant unready == unready0 + Range(num0, trp.View().num)
    {
      ghost var B, T, unready1, scans1 := brp.View(), trp.View(), unready, scans;
      var b := touched[|touched| - 1];
      assert touched == touched[..|touched| - 1] + [b];
      touched := touched[..|touched| - 1];
      InRoundTop(A, tr, B, T, unready, S, Q, touched, b, scans, visits);
      ghost var small;
      unready, small, scans := SplitBlock(brp, trp, tr, incoming, b, unready, scans);
      InRoundStep(A, tr, B, b, brp.View(), small, T, unready1, trp.View(), unready, S, Q, touched, scans1, visits);
      RangeConcat(unready0, num0, T.num, trp.View().num);
    }
  }

  lemma InRoundTop(A: Nfa, tr: seq<Transition>, B: Layout, T: Layout, unready: seq<nat>, S: set<nat>, Q: set<State>,
                   rest: seq<nat>, b: nat, scans: seq<nat>, visits: seq<nat>)
    requires InRound(A, tr, B, T, unready, S, Q, rest + [b], scans, visits)
    ensures b < B.num && |scans| == |B.idx| && T.Marked() == {}
  {
    BackTop(B, Q, rest, b);
  }

  /** One round: splitter `s` has been taken off the stack. */
  method ProcessSplitter(ghost A: Nfa, brp: RefinablePartition, trp: RefinablePartition, ghost tr: seq<Transition>,
                         sources: seq<State>, incoming: seq<seq<nat>>, s: nat, unready0: seq<nat>,
                         ghost scans0: seq<nat>, ghost visits0: seq<nat>)
    returns (unready: seq<nat>, ghost scans: seq<nat>, ghost visits: seq<nat>)
    requires Linked(brp, trp, tr, sources, incoming) && s < trp.numOfSets && s !in unready0
    requires TransitionsOf(A, tr) && forall q | 0 <= q < brp.Size() :: CoReachable(A, q)
    requires BetweenRounds(A, tr, brp.View(), trp.View(), unready0 + [s], scans0, visits0)
    modifies brp.Repr(), trp.Repr()
    ensures Linked(brp, trp, tr, sources, incoming)
    ensures BetweenRounds(A, tr, brp.View(), trp.View(), unready, scans, visits)
    ensures trp.View().num >= old(trp.View().num)
    ensures unready == unready0 + Range(old(trp.View().num), trp.View().num)
  {
    ghost var B, T := brp.View(), trp.View();
    ghost var S := T.Block(s);
    ghost var Q := Sources(tr, S);
    ghost var fired;
    var touched;
    touched, fired := FireSplitter(brp, trp, tr, sources, s);
    assert trp.View() == T;
    visits := Bump(visits0, Elements(fired));
    EnterRound(A, tr, B, T, unready0, s, brp.View(), touched, scans0, visits0);
    hide InRound, BetweenRounds;
    unready, scans := SplitTouchedBlocks(A, brp, trp, tr, incoming, touched, unready0, S, Q, scans0, visits);
    LeaveRound(A, tr, B, T, s, brp.View(), trp.View(), unready, scans, visits);
  }

  /** What holds whenever no splitter is being processed. */
  ghost predicate BetweenRounds(A: Nfa, tr: seq<Transition>, B: Layout, T: Layout, unready: seq<nat>,
                                scans: seq<nat>, visits: seq<nat>) {
    && B.Valid() && T.Valid() && B.Marked() == {} && T.Marked() == {}
    && Refining(A, tr, B.idx, T.idx, unready, {})
    && Accounted(tr, B.idx, T.idx, unready, scans, visits)
  }

  lemma EnterRound(A: Nfa, tr: seq<Transition>, B: Layout, T: Layout, unready: seq<nat>, s: nat,
                   K: Layout, touched: seq<nat>, scans: seq<nat>, visits: seq<nat>)
    requires BetweenRounds(A, tr, B, T, unready + [s], scans, visits) && s !in unready
    requires TransitionsOf(A, tr) && forall q | 0 <= q < |B.idx| :: CoReachable(A, q)
    requires K.Valid() && K.idx == B.idx && K.num == B.num && K.Marked() == Sources(tr, T.Block(s)) && Touched(K, touched)
    ensures InRound(A, tr, K, T, unready, T.Block(s), Sources(tr, T.Block(s)), touched, scans, Bump(visits, T.Block(s)))
  {
    var S := T.Block(s);
    RoundStart(A, tr, B.idx, T.idx, unready, s, S);
    AccountFire(tr, B.idx, T.idx, unready, s, scans, visits, S);
    BackStart(K, touched);
  }

  lemma LeaveRound(A: Nfa, tr: seq<Transition>, B0: Layout, T0: Layout, s: nat, B: Layout, T: Layout, unready: seq<nat>,
                   scans: seq<nat>, visits: seq<nat>)
    requires InRound(A, tr, B, T, unready, T0.Block(s), Sources(tr, T0.Block(s)), [], scans, visits)
    requires TransitionsOf(A, tr) && Indexed(tr, B0.idx, T0.idx) && SplittersMatch(tr, B0.idx, T0.idx)
    ensures BetweenRounds(A, tr, B, T, unready, scans, visits)
  {
    var S := T0.Block(s);
    BackEnd(B, Sources(tr, S));
    RoundEnd(A, tr, B.idx, T.idx, unready, S);
  }
}
