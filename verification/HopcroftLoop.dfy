/** One round of the main loop of minimize_hopcroft (src/nfa/operations.cc): a splitter is fired
    back and the touched blocks are split. */
module HopcroftLoop {
  import opened Automata
  import opened Counting
  import opened RefinablePartitions
  import opened HopcroftInvariants
  import opened HopcroftSplitting

  /** The loop invariant; `S` is the splitter being processed, empty between rounds. */
  ghost predicate Refining(A: Nfa, tr: seq<Transition>, bIdx: seq<nat>, tIdx: seq<nat>, unready: seq<nat>, S: set<nat>) {
    && Indexed(tr, bIdx, tIdx)
    && SplittersMatch(tr, bIdx, tIdx)
    && StableExcept(tr, bIdx, tIdx, unready, S)
    && Coarse(A, bIdx)
    && Uniform(bIdx, A.final)
  }

  // ---------- Work ----------

  ghost function BlockOf(bIdx: seq<nat>, b: nat): set<State> {
    set q | 0 <= q < |bIdx| && bIdx[q] == b
  }

  /** `scans[q]` rescans of state `q` have shrunk its block by that power of two, and transition `t`
      has been fired `visits[t]` times, at most once more than its target has been rescanned. */
  ghost predicate Accounted(tr: seq<Transition>, bIdx: seq<nat>, tIdx: seq<nat>, unready: seq<nat>,
                            scans: seq<nat>, visits: seq<nat>) {
    && Indexed(tr, bIdx, tIdx) && |scans| == |bIdx| && |visits| == |tr|
    && (forall q | 0 <= q < |bIdx| :: Pow2(scans[q]) * |BlockOf(bIdx, bIdx[q])| <= |bIdx|)
    && (forall t | 0 <= t < |tr| :: visits[t] <= scans[tr[t].target] + if tIdx[t] in unready then 0 else 1)
  }

  lemma BlocksShrink(B: Layout, b: nat, K: Layout, small: set<State>, q: State)
    requires B.Valid() && K.Valid() && b < B.num && BlockHalved(B, b, K, small) && q < |B.idx|
    ensures |BlockOf(K.idx, K.idx[q])| <= |BlockOf(B.idx, B.idx[q])|
    ensures q in small ==> 2 * |BlockOf(K.idx, K.idx[q])| <= |BlockOf(B.idx, B.idx[q])|
  {
    SubsetSize(BlockOf(K.idx, K.idx[q]), BlockOf(B.idx, B.idx[q]));
    if q in small {
      assert K.Block(K.idx[q]) == BlockOf(K.idx, K.idx[q]) && B.Block(b) == BlockOf(B.idx, B.idx[q]);
    }
  }

  lemma HalvingBound(scans: nat, before: nat, after: nat, n: nat)
    requires Pow2(scans) * before <= n
    ensures after <= before ==> Pow2(scans) * after <= n
    ensures 2 * after <= before ==> Pow2(scans + 1) * after <= n
  {
    if after <= before {
      assert Pow2(scans) * after <= Pow2(scans) * before;
    }
    if 2 * after <= before {
      assert Pow2(scans) * (2 * after) <= Pow2(scans) * before;
      assert Pow2(scans + 1) * after == Pow2(scans) * (2 * after);
    }
  }

  lemma AccountVisits(tr: seq<Transition>, T: Layout, N: Layout, unready: seq<nat>, unready': seq<nat>,
                      small: set<State>, scans: seq<nat>, visits: seq<nat>, t: nat)
    requires T.Valid() && N.Valid() && SplittersFollow(tr, T, unready, small, N, unready')
    requires |tr| == |T.idx| == |N.idx| == |visits| && t < |tr| && tr[t].target < |scans|
    requires visits[t] <= scans[tr[t].target] + if T.idx[t] in unready then 0 else 1
    ensures visits[t] <= Bump(scans, small)[tr[t].target] + if N.idx[t] in unready' then 0 else 1
  {
    if N.idx[t] == T.idx[t] && T.idx[t] in unready' {
      assert T.idx[t] in unready;
    }
  }

  lemma AccountSplit(tr: seq<Transition>, B: Layout, b: nat, K: Layout, small: set<State>,
                     T: Layout, unready: seq<nat>, N: Layout, unready': seq<nat>, scans: seq<nat>, visits: seq<nat>)
    requires B.Valid() && K.Valid() && T.Valid() && N.Valid() && b < B.num
    requires BlockHalved(B, b, K, small) && SplittersFollow(tr, T, unready, small, N, unready')
    requires Accounted(tr, B.idx, T.idx, unready, scans, visits)
    ensures Accounted(tr, K.idx, N.idx, unready', Bump(scans, small), visits)
  {
    forall q | 0 <= q < |B.idx| ensures Pow2(Bump(scans, small)[q]) * |BlockOf(K.idx, K.idx[q])| <= |K.idx| {
      BlocksShrink(B, b, K, small, q);
      HalvingBound(scans[q], |BlockOf(B.idx, B.idx[q])|, |BlockOf(K.idx, K.idx[q])|, |B.idx|);
    }
    forall t | 0 <= t < |tr|
      ensures visits[t] <= Bump(scans, small)[tr[t].target] + if N.idx[t] in unready' then 0 else 1
    {
      AccountVisits(tr, T, N, unready, unready', small, scans, visits, t);
    }
  }

  lemma AccountFire(tr: seq<Transition>, bIdx: seq<nat>, tIdx: seq<nat>, unready: seq<nat>, s: nat,
                    scans: seq<nat>, visits: seq<nat>, S: set<nat>)
    requires Accounted(tr, bIdx, tIdx, unready + [s], scans, visits) && s !in unready
    requires S == set t | 0 <= t < |tr| && tIdx[t] == s
    ensures Accounted(tr, bIdx, tIdx, unready, scans, Bump(visits, S))
  {
  }

  // ---------- Back-propagation ----------

  /** The blocks still in `touched` carry the marks of the sources `Q`; the others are uniform. */
  ghost predicate BackPropagated(B: Layout, Q: set<State>, touched: seq<nat>) {
    && Distinct(touched) && (forall s <- touched :: s < B.num)
    && B.Marked() == (set q | q in Q && q < |B.idx| && B.idx[q] in touched)
    && (forall p, q | 0 <= p < |B.idx| && 0 <= q < |B.idx| && B.idx[p] == B.idx[q] && B.idx[p] !in touched ::
          p in Q <==> q in Q)
  }

  lemma BackStart(B: Layout, touched: seq<nat>)
    requires B.Valid() && Touched(B, touched)
    ensures BackPropagated(B, B.Marked(), touched)
  {
  }

  lemma BackTop(B: Layout, Q: set<State>, rest: seq<nat>, b: nat)
    requires B.Valid() && BackPropagated(B, Q, rest + [b])
    ensures b < B.num && forall q | 0 <= q < |B.idx| && B.idx[q] == b :: q in B.Marked() <==> q in Q
  {
    assert b in rest + [b];
  }

  lemma BackStep(B: Layout, Q: set<State>, rest: seq<nat>, b: nat, K: Layout, small: set<State>)
    requires B.Valid() && K.Valid() && BackPropagated(B, Q, rest + [b]) && BlockHalved(B, b, K, small)
    ensures BackPropagated(K, Q, rest)
  {
    DistinctSnoc(rest, b);
    BackTop(B, Q, rest, b);
    forall s | s in rest ensures s in rest + [b] && s != b {
    }
    assert forall q | 0 <= q < |B.idx| :: B.idx[q] in rest + [b] <==> B.idx[q] in rest || B.idx[q] == b;
    assert forall q | 0 <= q < |B.idx| :: K.idx[q] in rest <==> B.idx[q] in rest;
    assert forall q | 0 <= q < |B.idx| :: q in B.Block(b) <==> B.idx[q] == b;
  }

  lemma BackEnd(B: Layout, Q: set<State>)
    requires B.Valid() && BackPropagated(B, Q, [])
    ensures Uniform(B.idx, Q) && B.Marked() == {}
  {
  }

  /** Splitting a block by marks that separate only inequivalent states keeps the invariant. */
  lemma RefineStep(A: Nfa, tr: seq<Transition>, B: Layout, b: nat, K: Layout, small: set<State>,
                   T: Layout, unready: seq<nat>, N: Layout, unready': seq<nat>, S: set<nat>, Q: set<State>)
    requires B.Valid() && K.Valid() && T.Valid() && N.Valid()
    requires BlockHalved(B, b, K, small) && SplittersFollow(tr, T, unready, small, N, unready')
    requires Refining(A, tr, B.idx, T.idx, unready, S)
    requires Separates(A, |B.idx|, Q) && forall q | 0 <= q < |B.idx| && B.idx[q] == b :: q in B.Marked() <==> q in Q
    ensures Refining(A, tr, K.idx, N.idx, unready', S)
  {
    assert Indexed(tr, K.idx, N.idx);
    RefineStepStable(tr, B, b, K, small, T, unready, N, unready', S);
    SplitKeepsCoarse(A, B.idx, b, B.Marked(), K.idx);
    SplitKeepsUniform(B.idx, b, B.Marked(), K.idx, A.final);
  }

  lemma RefineStepStable(tr: seq<Transition>, B: Layout, b: nat, K: Layout, small: set<State>,
                         T: Layout, unready: seq<nat>, N: Layout, unready': seq<nat>, S: set<nat>)
    requires B.Valid() && K.Valid() && T.Valid() && N.Valid()
    requires BlockHalved(B, b, K, small) && SplittersFollow(tr, T, unready, small, N, unready')
    requires Indexed(tr, B.idx, T.idx) && SplittersMatch(tr, B.idx, T.idx) && StableExcept(tr, B.idx, T.idx, unready, S)
    ensures Indexed(tr, K.idx, N.idx) && SplittersMatch(tr, K.idx, N.idx) && StableExcept(tr, K.idx, N.idx, unready', S)
  {
    SplitKeepsStable(tr, B.idx, T.idx, unready, S, b, small, K.idx, N.idx, unready');
    SplitKeepsMatch(tr, B.idx, T.idx, b, small, K.idx, N.idx);
  }
}
