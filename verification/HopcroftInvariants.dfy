/** What the Hopcroft loop maintains, on snapshots of the two partitions: `bIdx` gives the block of
    every state and `tIdx` the splitter of every transition of `tr`. */
module HopcroftInvariants {
  import opened Automata

  ghost predicate Indexed(tr: seq<Transition>, bIdx: seq<nat>, tIdx: seq<nat>) {
    && |tIdx| == |tr|
    && forall t | 0 <= t < |tr| :: tr[t].source < |bIdx| && tr[t].target < |bIdx|
  }

  /** A transition is determined by its source and symbol. */
  ghost predicate Functional(tr: seq<Transition>) {
    forall t, u | 0 <= t < |tr| && 0 <= u < |tr| :: tr[t].source == tr[u].source && tr[t].symbol == tr[u].symbol ==> t == u
  }

  ghost predicate HasMove(tr: seq<Transition>, q: State, a: Symbol) {
    exists t :: 0 <= t < |tr| && tr[t].source == q && tr[t].symbol == a
  }

  ghost function Sources(tr: seq<Transition>, S: set<nat>): set<State> {
    set t | t in S && t < |tr| :: tr[t].source
  }

  /** The transitions leading into `Q`. */
  ghost function Into(tr: seq<Transition>, Q: set<State>): set<nat> {
    set t | 0 <= t < |tr| && tr[t].target in Q
  }

  /** Splitters are exactly the sets of transitions over one symbol into one block. */
  ghost predicate SplittersMatch(tr: seq<Transition>, bIdx: seq<nat>, tIdx: seq<nat>)
    requires Indexed(tr, bIdx, tIdx)
  {
    forall t, u | 0 <= t < |tr| && 0 <= u < |tr| ::
      tIdx[t] == tIdx[u] <==> tr[t].symbol == tr[u].symbol && bIdx[tr[t].target] == bIdx[tr[u].target]
  }

  /** If two states of a block disagree on a splitter, because their transitions over a symbol
      belong to different splitters or because one of them has none, then one of the splitters is
      still unready, or is being processed and contains `S`. */
  ghost predicate StableExcept(tr: seq<Transition>, bIdx: seq<nat>, tIdx: seq<nat>, unready: seq<nat>, S: set<nat>)
    requires Indexed(tr, bIdx, tIdx)
  {
    && (forall t, u | 0 <= t < |tr| && 0 <= u < |tr| && tr[t].symbol == tr[u].symbol && bIdx[tr[t].source] == bIdx[tr[u].source] ::
          tIdx[t] == tIdx[u] || tIdx[t] in unready || tIdx[u] in unready || (t in S) != (u in S))
    && (forall t, q | 0 <= t < |tr| && 0 <= q < |bIdx| && bIdx[tr[t].source] == bIdx[q] && !HasMove(tr, q, tr[t].symbol) ::
          tIdx[t] in unready || t in S)
  }

  /** No block has been split needlessly: states with the same right language are together. */
  ghost predicate Coarse(A: Nfa, bIdx: seq<nat>) {
    forall p, q | 0 <= p < |bIdx| && 0 <= q < |bIdx| && SameRightLanguage(A, p, A, q) :: bIdx[p] == bIdx[q]
  }

  /** Membership in `M` distinguishes only states with different right languages. */
  ghost predicate Separates(A: Nfa, n: nat, M: set<State>) {
    forall p, q | 0 <= p < n && 0 <= q < n && SameRightLanguage(A, p, A, q) :: p in M <==> q in M
  }

  ghost predicate Uniform(bIdx: seq<nat>, M: set<State>) {
    forall p, q | 0 <= p < |bIdx| && 0 <= q < |bIdx| && bIdx[p] == bIdx[q] :: p in M <==> q in M
  }

  /** `bIdx'` splits block `b` into its members inside and outside `M` (or leaves it alone when it
      lies on one side). */
  ghost predicate BlockSplit(bIdx: seq<nat>, b: nat, M: set<State>, bIdx': seq<nat>) {
    && |bIdx'| == |bIdx|
    && forall p, q | 0 <= p < |bIdx| && 0 <= q < |bIdx| ::
         bIdx'[p] == bIdx'[q] <==> bIdx[p] == bIdx[q] && (bIdx[p] == b ==> (p in M <==> q in M))
  }

  /** Splitters were only split, and every split-off part is unready. */
  ghost predicate SplittersSplit(tIdx: seq<nat>, unready: seq<nat>, tIdx': seq<nat>, unready': seq<nat>) {
    && |tIdx'| == |tIdx|
    && (forall s <- unready :: s in unready')
    && (forall t | 0 <= t < |tIdx| && tIdx'[t] != tIdx[t] :: tIdx'[t] in unready')
  }

  // ---------- Preservation ----------

  lemma SplitKeepsStable(tr: seq<Transition>, bIdx: seq<nat>, tIdx: seq<nat>, unready: seq<nat>, S: set<nat>,
                         b: nat, M: set<State>, bIdx': seq<nat>, tIdx': seq<nat>, unready': seq<nat>)
    requires Indexed(tr, bIdx, tIdx) && Indexed(tr, bIdx', tIdx')
    requires StableExcept(tr, bIdx, tIdx, unready, S)
    requires BlockSplit(bIdx, b, M, bIdx') && SplittersSplit(tIdx, unready, tIdx', unready')
    ensures StableExcept(tr, bIdx', tIdx', unready', S)
  {
    forall t | 0 <= t < |tr| && tIdx[t] in unready ensures tIdx'[t] in unready' {
    }
  }

  lemma SplitKeepsCoarse(A: Nfa, bIdx: seq<nat>, b: nat, M: set<State>, bIdx': seq<nat>)
    requires Coarse(A, bIdx) && BlockSplit(bIdx, b, M, bIdx')
    requires forall p, q | 0 <= p < |bIdx| && 0 <= q < |bIdx| && SameRightLanguage(A, p, A, q) && bIdx[p] == b :: p in M <==> q in M
    ensures Coarse(A, bIdx')
  {
  }

  lemma SplitKeepsUniform(bIdx: seq<nat>, b: nat, M: set<State>, bIdx': seq<nat>, N: set<State>)
    requires Uniform(bIdx, N) && BlockSplit(bIdx, b, M, bIdx')
    ensures Uniform(bIdx', N)
  {
  }

  /** Splitting a block and, accordingly, the splitters with transitions into the part `small`. */
  lemma SplitKeepsMatch(tr: seq<Transition>, bIdx: seq<nat>, tIdx: seq<nat>, b: nat, small: set<State>,
                        bIdx': seq<nat>, tIdx': seq<nat>)
    requires Indexed(tr, bIdx, tIdx) && Indexed(tr, bIdx', tIdx') && SplittersMatch(tr, bIdx, tIdx)
    requires BlockSplit(bIdx, b, small, bIdx') && forall q <- small :: q < |bIdx| && bIdx[q] == b
    requires forall t, u | 0 <= t < |tr| && 0 <= u < |tr| ::
               tIdx'[t] == tIdx'[u] <==> tIdx[t] == tIdx[u] && (t in Into(tr, small) <==> u in Into(tr, small))
    ensures SplittersMatch(tr, bIdx', tIdx')
  {
  }

  /** Taking splitter `s` off the stack: its transitions become the set being processed. */
  lemma PopKeepsStable(tr: seq<Transition>, bIdx: seq<nat>, tIdx: seq<nat>, unready: seq<nat>, s: nat, S: set<nat>)
    requires Indexed(tr, bIdx, tIdx) && StableExcept(tr, bIdx, tIdx, unready + [s], {})
    requires forall t | 0 <= t < |tr| :: t in S <==> tIdx[t] == s
    ensures StableExcept(tr, bIdx, tIdx, unready, S)
  {
  }

  /** Once every block is uniform with respect to its sources, a processed set is no excuse. */
  lemma UniformMakesStable(tr: seq<Transition>, bIdx: seq<nat>, tIdx: seq<nat>, unready: seq<nat>, S: set<nat>)
    requires Indexed(tr, bIdx, tIdx) && Functional(tr) && StableExcept(tr, bIdx, tIdx, unready, S)
    requires forall t <- S :: t < |tr|
    requires forall t <- S, u <- S :: tr[t].symbol == tr[u].symbol
    requires Uniform(bIdx, Sources(tr, S))
    ensures StableExcept(tr, bIdx, tIdx, unready, {})
  {
    forall t, q | t in S && 0 <= q < |bIdx| && bIdx[tr[t].source] == bIdx[q]
      ensures exists u :: u in S && tr[u].source == q && tr[u].symbol == tr[t].symbol
    {
      assert tr[t].source in Sources(tr, S);
      assert q in Sources(tr, S);
    }
    forall t, u | t in S && 0 <= u < |tr| && tr[t].symbol == tr[u].symbol && bIdx[tr[t].source] == bIdx[tr[u].source] ensures u in S {
      var v :| v in S && tr[v].source == tr[u].source && tr[v].symbol == tr[t].symbol;
    }
    forall t, q | t in S && 0 <= q < |bIdx| && bIdx[tr[t].source] == bIdx[q] ensures HasMove(tr, q, tr[t].symbol) {
    }
  }

  // ---------- Right languages ----------

  ghost predicate TransitionsOf(A: Nfa, tr: seq<Transition>) {
    && (forall x :: x in tr <==> Step(A, x.source, x.symbol, x.target))
    && Functional(tr)
  }

  lemma FunctionalStep(A: Nfa, tr: seq<Transition>, q: State, a: Symbol, p: State, r: State)
    requires TransitionsOf(A, tr) && Step(A, q, a, p) && Step(A, q, a, r)
    ensures p == r
  {
    assert Transition(q, a, p) in tr && Transition(q, a, r) in tr;
    var t :| 0 <= t < |tr| && tr[t] == Transition(q, a, p);
    var u :| 0 <= u < |tr| && tr[u] == Transition(q, a, r);
  }

  /** States with the same right language move, over any symbol, to states with the same right
      language; this needs the target to be co-reachable. */
  lemma SameRightLanguageStep(A: Nfa, tr: seq<Transition>, p: State, q: State, a: Symbol, p': State) returns (q': State)
    requires TransitionsOf(A, tr) && SameRightLanguage(A, p, A, q) && Step(A, p, a, p') && CoReachable(A, p')
    ensures Step(A, q, a, q') && SameRightLanguage(A, p', A, q')
  {
    var w :| AcceptsFrom(A, p', w);
    assert ([a] + w)[1..] == w;
    assert AcceptsFrom(A, p, [a] + w);
    assert AcceptsFrom(A, q, [a] + w);
    q' :| Step(A, q, a, q') && AcceptsFrom(A, q', w);
    forall v: Word ensures AcceptsFrom(A, p', v) <==> AcceptsFrom(A, q', v) {
      assert ([a] + v)[1..] == v;
      assert AcceptsFrom(A, p, [a] + v) <==> AcceptsFrom(A, p', v) by {
        if AcceptsFrom(A, p, [a] + v) {
          var r :| Step(A, p, a, r) && AcceptsFrom(A, r, v);
          FunctionalStep(A, tr, p, a, p', r);
        }
      }
      assert AcceptsFrom(A, q, [a] + v) <==> AcceptsFrom(A, q', v) by {
        if AcceptsFrom(A, q, [a] + v) {
          var r :| Step(A, q, a, r) && AcceptsFrom(A, r, v);
          FunctionalStep(A, tr, q, a, q', r);
        }
      }
    }
  }

  /** The sources of a splitter separate only states with different right languages. */
  lemma SplitterSeparates(A: Nfa, tr: seq<Transition>, bIdx: seq<nat>, tIdx: seq<nat>, s: nat, S: set<nat>)
    requires TransitionsOf(A, tr) && Indexed(tr, bIdx, tIdx) && SplittersMatch(tr, bIdx, tIdx) && Coarse(A, bIdx)
    requires forall q | 0 <= q < |bIdx| :: CoReachable(A, q)
    requires S == set t | 0 <= t < |tr| && tIdx[t] == s
    ensures Separates(A, |bIdx|, Sources(tr, S))
  {
    forall p, q | 0 <= p < |bIdx| && 0 <= q < |bIdx| && SameRightLanguage(A, p, A, q) && p in Sources(tr, S)
      ensures q in Sources(tr, S)
    {
      var t :| t in S && tr[t].source == p;
      assert tr[t] in tr;
      var q' := SameRightLanguageStep(A, tr, p, q, tr[t].symbol, tr[t].target);
      assert Transition(q, tr[t].symbol, q') in tr;
      var u :| 0 <= u < |tr| && tr[u] == Transition(q, tr[t].symbol, q');
      assert tIdx[u] == tIdx[t];
    }
    forall p, q | 0 <= p < |bIdx| && 0 <= q < |bIdx| && SameRightLanguage(A, p, A, q) ensures SameRightLanguage(A, q, A, p) {
    }
  }

  lemma FinalSeparates(A: Nfa, n: nat)
    ensures Separates(A, n, A.final)
  {
    forall p, q | SameRightLanguage(A, p, A, q) ensures p in A.final <==> q in A.final {
      assert AcceptsFrom(A, p, []) <==> AcceptsFrom(A, q, []);
    }
  }
}
