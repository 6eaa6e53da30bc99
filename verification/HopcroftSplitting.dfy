/** Splitting one block and, accordingly, the splitters with transitions into it: the local functions of
    minimize_hopcroft (src/nfa/operations.cc). */
module HopcroftSplitting {
  import opened Automata
  import opened Counting
  import opened Options
  import opened RefinablePartitions
  import opened HopcroftInvariants

  /** `touched` lists, without repetition, the sets with marked elements. */
  ghost predicate Touched(L: Layout, touched: seq<nat>) {
    && Distinct(touched)
    && (forall s <- touched :: s < L.num)
    && (forall e <- L.Marked() :: L.idx[e] in touched)
    && (forall s <- touched :: exists e :: e in L.Marked() && L.idx[e] == s)
  }

  /** Remember the set of `e` if nothing in it is marked yet, then mark `e`. */
  method Touch(P: RefinablePartition, e: nat, touched: seq<nat>) returns (r: seq<nat>)
    requires P.Valid() && e < P.Size() && Touched(P.View(), touched)
    modifies P.elems, P.location, P.mid
    ensures P.Valid() && P.View().idx == old(P.View().idx) && P.View().num == old(P.View().num)
    ensures P.View().Marked() == old(P.View().Marked()) + {e} && Touched(P.View(), r)
  {
    ghost var before := P.View();
    var s := P.setIdx[e];
    r := if P.HasNoMarks(s) then touched + [s] else touched;
    P.Mark(e);
    TouchedAfterMark(before, P.View(), e, touched, r);
  }

  lemma TouchedAfterMark(L: Layout, N: Layout, e: nat, touched: seq<nat>, r: seq<nat>)
    requires L.Valid() && N.Valid() && N.idx == L.idx && N.num == L.num && e < |L.idx|
    requires Touched(L, touched) && N.Marked() == L.Marked() + {e}
    requires r == if L.Block(L.idx[e]) !! L.Marked() then touched + [L.idx[e]] else touched
    ensures Touched(N, r)
  {
    var s := L.idx[e];
    assert e in L.Block(s);
    if L.Block(s) !! L.Marked() {
      forall t <- touched ensures t != s {
        var d :| d in L.Marked() && L.idx[d] == t;
        assert d !in L.Block(s);
      }
      DistinctSnoc(touched, s);
    } else {
      var d :| d in L.Block(s) && d in L.Marked();
    }
    forall t | t in r ensures exists d :: d in N.Marked() && N.idx[d] == t {
      if t in touched {
        var d :| d in L.Marked() && L.idx[d] == t;
        assert d in N.Marked() && N.idx[d] == t;
      } else {
        assert e in N.Marked() && N.idx[e] == t;
      }
    }
  }

  /** `incoming[q]` lists the transitions into state `q`. */
  ghost predicate IncomingOf(tr: seq<Transition>, incoming: seq<seq<nat>>) {
    forall q | 0 <= q < |incoming| :: forall t: nat :: t in incoming[q] <==> t < |tr| && tr[t].target == q
  }

  /** Mark the transitions into block `b`; `scanned` lists the states whose incoming transitions
      were gone through. */
  method MarkIncoming(brp: RefinablePartition, trp: RefinablePartition, ghost tr: seq<Transition>,
                      incoming: seq<seq<nat>>, b: nat) returns (touched: seq<nat>, ghost scanned: seq<State>)
    requires brp.Valid() && trp.Valid() && brp.Repr() !! trp.Repr() && b < brp.numOfSets
    requires |incoming| == brp.Size() && |tr| == trp.Size() && IncomingOf(tr, incoming)
    requires trp.View().Marked() == {}
    modifies trp.elems, trp.location, trp.mid
    ensures trp.Valid() && trp.View().idx == old(trp.View().idx) && trp.View().num == old(trp.View().num)
    ensures trp.View().Marked() == Into(tr, brp.View().Block(b)) && Touched(trp.View(), touched)
    ensures Distinct(scanned) && Elements(scanned) == brp.View().Block(b)
  {
    ghost var B := brp.View();
    ghost var order := B.Order(b);
    OrderEnumeratesBlock(B, b);
    ElementsAre(order, B.Block(b));
    ghost var i := 0;
    touched, scanned := [], order[..i];
    NothingTouched(trp.View(), tr);
    assert scanned == [];
    hide Touched, Into, Elements;
    var cur := Some(brp.GetFirst(b));
    while cur.Some?
      invariant brp.View() == B
      invariant i <= |order| && scanned == order[..i]
      invariant if cur.Some? then i < |order| && cur.value == order[i] else i == |order|
      invariant trp.Valid() && trp.View().idx == old(trp.View().idx) && trp.View().num == old(trp.View().num)
      invariant trp.View().Marked() == Into(tr, Elements(scanned)) && Touched(trp.View(), touched)
      decreases |order| - i
    {
      var q := cur.value;
      assert q in order;
      IntoSnoc(tr, order, i, incoming[q]);
      touched := MarkAll(trp, incoming[q], touched);
      assert brp.View() == B;
      brp.GetNextFollowsOrder(b, i);
      cur := brp.GetNext(q);
      i := i + 1;
      scanned := order[..i];
    }
    assert order[..i] == order;
  }

  lemma NothingTouched(L: Layout, tr: seq<Transition>)
    requires L.Valid() && L.Marked() == {}
    ensures Touched(L, []) && Into(tr, Elements([])) == {}
  {
  }

  lemma IntoSnoc(tr: seq<Transition>, order: seq<State>, i: nat, into: seq<nat>)
    requires i < |order| && forall t: nat :: t in into <==> t < |tr| && tr[t].target == order[i]
    ensures Into(tr, Elements(order[..i + 1])) == Into(tr, Elements(order[..i])) + Elements(into)
  {
    assert order[..i + 1] == order[..i] + [order[i]];
  }

  lemma ElementsAre(s: seq<nat>, M: set<nat>)
    requires forall x :: x in s <==> x in M
    ensures Elements(s) == M
  {
  }

  method MarkAll(trp: RefinablePartition, ts: seq<nat>, touched0: seq<nat>) returns (touched: seq<nat>)
    requires trp.Valid() && Touched(trp.View(), touched0) && forall t <- ts :: t < trp.Size()
    modifies trp.elems, trp.location, trp.mid
    ensures trp.Valid() && trp.View().idx == old(trp.View().idx) && trp.View().num == old(trp.View().num)
    ensures trp.View().Marked() == old(trp.View().Marked()) + Elements(ts) && Touched(trp.View(), touched)
  {
    hide Touched, Layout.Inverse, Layout.SetsFilled, Layout.ElementsPlaced;
    touched := touched0;
    for k := 0 to |ts|
      invariant trp.Valid() && trp.View().idx == old(trp.View().idx) && trp.View().num == old(trp.View().num)
      invariant trp.View().Marked() == old(trp.View().Marked()) + Elements(ts[..k]) && Touched(trp.View(), touched)
    {
      assert ts[k] in ts;
      touched := Touch(trp, ts[k], touched);
      assert ts[..k + 1] == ts[..k] + [ts[k]];
    }
    assert ts[..|ts|] == ts;
  }

  /** While splitting the touched splitters: those no longer in `touched` are split by the original
      marks `M`, the split-off parts being numbered from `L.num` on. */
  ghost predicate PartlySplit(L: Layout, M: set<nat>, touched: seq<nat>, N: Layout) {
    && |N.idx| == |L.idx| && N.num >= L.num
    && Distinct(touched) && (forall s <- touched :: s < L.num)
    && N.Marked() == (set t | t in M && t < |L.idx| && L.idx[t] in touched)
    && (forall t | 0 <= t < |L.idx| :: N.idx[t] != L.idx[t] ==> N.idx[t] >= L.num && t in M && L.idx[t] !in touched)
    && (forall t, u | 0 <= t < |L.idx| && 0 <= u < |L.idx| ::
          N.idx[t] == N.idx[u] <==> L.idx[t] == L.idx[u] && (L.idx[t] in touched || (t in M <==> u in M)))
  }

  lemma PartlySplitStep(L: Layout, M: set<nat>, rest: seq<nat>, s: nat, N: Layout, K: Layout, r: Option<nat>)
    requires L.Valid() && N.Valid() && K.Valid()
    requires PartlySplit(L, M, rest + [s], N) && IsSplit(N, s, K, r)
    ensures PartlySplit(L, M, rest, K)
  {
    var touched := rest + [s];
    DistinctSnoc(rest, s);
    assert s in touched && forall t <- rest :: t in touched;
    assert forall t | 0 <= t < |L.idx| :: L.idx[t] in touched <==> L.idx[t] in rest || L.idx[t] == s;
    assert forall t | 0 <= t < |L.idx| :: t in N.Block(s) <==> L.idx[t] == s;
    assert N.Block(s) * N.Marked() == N.Block(s) * M;
  }

  lemma PartlySplitPush(L: Layout, M: set<nat>, rest: seq<nat>, s: nat, N: Layout, K: Layout, r: Option<nat>)
    requires PartlySplit(L, M, rest + [s], N) && IsSplit(N, s, K, r)
    ensures L.num <= N.num && if r == None then K.num == N.num else r == Some(N.num) && K.num == N.num + 1
  {
  }

  lemma PartlySplitStart(L: Layout, touched: seq<nat>)
    requires L.Valid() && Touched(L, touched)
    ensures PartlySplit(L, L.Marked(), touched, L)
  {
  }

  lemma PartlySplitTop(L: Layout, M: set<nat>, rest: seq<nat>, s: nat, N: Layout)
    requires L.Valid() && N.Valid() && PartlySplit(L, M, rest + [s], N)
    ensures s < L.num <= N.num
  {
    assert s in rest + [s];
  }

  /** Split every touched splitter by its marked transitions; the new ones become unready. */
  method SplitTouched(trp: RefinablePartition, touched0: seq<nat>, unready0: seq<nat>) returns (unready: seq<nat>)
    requires trp.Valid() && Touched(trp.View(), touched0)
    modifies trp, trp.setIdx, trp.first, trp.end, trp.mid
    ensures trp.Valid() && PartlySplit(old(trp.View()), old(trp.View().Marked()), [], trp.View())
    ensures unready == unready0 + Range(old(trp.numOfSets), trp.numOfSets)
  {
    hide PartlySplit, IsSplit;
    ghost var L, M := trp.View(), trp.View().Marked();
    unready := unready0;
    var touched := touched0;
    PartlySplitStart(L, touched);
    while touched != []
      invariant trp.Valid() && trp.View().num >= L.num && PartlySplit(L, M, touched, trp.View())
      invariant unready == unready0 + Range(L.num, trp.View().num)
    {
      ghost var N := trp.View();
      var s := touched[|touched| - 1];
      assert touched == touched[..|touched| - 1] + [s];
      touched := touched[..|touched| - 1];
      PartlySplitTop(L, M, touched, s, N);
      var r := trp.Split(s);
      PartlySplitStep(L, M, touched, s, N, trp.View(), r);
      PartlySplitPush(L, M, touched, s, N, trp.View(), r);
      if r.Some? {
        RangeSnoc(unready0, L.num, N.num);
        unready := unready + [r.value];
      }
    }
  }

  // ---------- Splitting one block ----------

  /** What `brp.split(b)` does to the blocks: `small` is the smaller half if there are two. */
  ghost predicate BlockHalved(B: Layout, b: nat, K: Layout, small: set<State>) {
    && BlockSplit(B.idx, b, B.Marked(), K.idx)
    && K.num >= B.num && K.Marked() == B.Marked() - B.Block(b)
    && (forall q | 0 <= q < |B.idx| && K.idx[q] != B.idx[q] :: B.idx[q] == b && K.idx[q] >= B.num)
    && small <= B.Block(b) && 2 * |small| <= |B.Block(b)|
    && (forall q <- small :: q < |K.idx| && K.Block(K.idx[q]) == small)
    && (small == {} ==> K.idx == B.idx)
    && BlockSplit(B.idx, b, small, K.idx)
  }

  lemma SplitSizes(B: Layout, b: nat, K: Layout, r: Option<nat>)
    requires B.Valid() && K.Valid() && b < B.num && IsSplit(B, b, K, r) && r.Some?
    ensures K.Block(r.value) == B.Block(b) * B.Marked() != {} && K.Block(b) == B.Block(b) - B.Marked() != {}
    ensures |B.Block(b)| == |K.Block(r.value)| + |K.Block(b)|
  {
    var marked, unmarked := K.Block(r.value), K.Block(b);
    assert marked == B.Block(b) * B.Marked();
    assert unmarked == B.Block(b) - B.Marked();
    assert B.Block(b) == marked + unmarked && marked !! unmarked;
  }

  lemma SplitIsBlockSplit(B: Layout, b: nat, K: Layout, r: Option<nat>)
    requires B.Valid() && K.Valid() && b < B.num && IsSplit(B, b, K, r) && r.Some?
    ensures BlockSplit(B.idx, b, B.Marked(), K.idx)
    ensures BlockSplit(B.idx, b, K.Block(r.value), K.idx) && BlockSplit(B.idx, b, K.Block(b), K.idx)
  {
    forall q | 0 <= q < |B.idx| ensures K.idx[q] == if B.idx[q] == b && q in B.Marked() then B.num else B.idx[q] {
      assert q in B.Block(b) <==> B.idx[q] == b;
    }
    forall q | 0 <= q < |B.idx| && B.idx[q] == b
      ensures q in K.Block(r.value) <==> q in B.Marked()
      ensures q in K.Block(b) <==> q !in B.Marked()
    {
    }
  }

  lemma SplitRenumbers(B: Layout, b: nat, K: Layout, r: Option<nat>)
    requires B.Valid() && K.Valid() && b < B.num && IsSplit(B, b, K, r) && r.Some?
    ensures K.num >= B.num && K.Marked() == B.Marked() - B.Block(b) && |K.idx| == |B.idx|
    ensures forall q | 0 <= q < |B.idx| && K.idx[q] != B.idx[q] :: B.idx[q] == b && K.idx[q] >= B.num
  {
    assert forall q | 0 <= q < |B.idx| && K.idx[q] != B.idx[q] :: q in B.Block(b) && K.idx[q] == B.num;
  }

  lemma SplitHalves(B: Layout, b: nat, K: Layout, r: Option<nat>, half: nat)
    requires B.Valid() && K.Valid() && b < B.num && IsSplit(B, b, K, r)
    requires r.Some? && half == if |K.Block(b)| < |K.Block(r.value)| then b else r.value
    ensures BlockHalved(B, b, K, K.Block(half))
  {
    hide BlockSplit, Layout.Valid, IsSplit, Layout.Marked;
    SplitSizes(B, b, K, r);
    SplitIsBlockSplit(B, b, K, r);
    SplitRenumbers(B, b, K, r);
    assert forall q <- K.Block(half) :: q < |K.idx| && K.idx[q] == half;
  }

  lemma NoSplitHalves(B: Layout, b: nat, K: Layout)
    requires B.Valid() && K.Valid() && b < B.num && IsSplit(B, b, K, None)
    ensures BlockHalved(B, b, K, {})
  {
    if B.Block(b) !! B.Marked() {
      assert forall q | 0 <= q < |B.idx| && B.idx[q] == b :: q in B.Block(b) && q !in B.Marked();
    } else {
      assert forall q | 0 <= q < |B.idx| && B.idx[q] == b :: q in B.Block(b) && q in B.Marked();
    }
  }

  /** The effect on the splitters: those with transitions into `small` are split accordingly. */
  ghost predicate SplittersFollow(tr: seq<Transition>, T: Layout, unready: seq<nat>, small: set<State>,
                                  K: Layout, unready': seq<nat>) {
    && K.num >= T.num && K.Marked() == {}
    && unready' == unready + Range(T.num, K.num)
    && SplittersSplit(T.idx, unready, K.idx, unready')
    && (forall t | 0 <= t < |T.idx| && K.idx[t] != T.idx[t] :: K.idx[t] >= T.num && t in Into(tr, small))
    && (forall t, u | 0 <= t < |T.idx| && 0 <= u < |T.idx| ::
          K.idx[t] == K.idx[u] <==> T.idx[t] == T.idx[u] && (t in Into(tr, small) <==> u in Into(tr, small)))
  }

  lemma SplittersFollowSplit(tr: seq<Transition>, T: Layout, unready: seq<nat>, small: set<State>, L: Layout, K: Layout, unready': seq<nat>)
    requires T.Valid() && L.Valid() && K.Valid() && L.idx == T.idx && L.num == T.num
    requires PartlySplit(L, Into(tr, small), [], K)
    requires unready' == unready + Range(T.num, K.num)
    ensures SplittersFollow(tr, T, unready, small, K, unready')
  {
    assert forall t | 0 <= t < |T.idx| && K.idx[t] != T.idx[t] :: K.idx[t] in Range(T.num, K.num);
    assert K.Marked() == {};
  }

  lemma NothingFollows(tr: seq<Transition>, T: Layout, unready: seq<nat>)
    requires T.Valid() && T.Marked() == {}
    ensures SplittersFollow(tr, T, unready, {}, T, unready)
  {
    assert unready == unready + Range(T.num, T.num);
  }

  /** `split_block`: split block `b` by its marks and let the splitters follow; `small` is the half
      whose incoming transitions are scanned. */
  method SplitBlock(brp: RefinablePartition, trp: RefinablePartition, ghost tr: seq<Transition>,
                    incoming: seq<seq<nat>>, b: nat, unready0: seq<nat>, ghost scans0: seq<nat>)
    returns (unready: seq<nat>, ghost small: set<State>, ghost scans: seq<nat>)
    requires |scans0| == brp.Size()
    requires brp.Valid() && trp.Valid() && brp.Repr() !! trp.Repr() && b < brp.numOfSets
    requires |incoming| == brp.Size() && |tr| == trp.Size() && IncomingOf(tr, incoming)
    requires trp.View().Marked() == {}
    modifies brp, brp.setIdx, brp.first, brp.end, brp.mid
    modifies trp, trp.setIdx, trp.elems, trp.location, trp.first, trp.end, trp.mid
    ensures brp.Valid() && trp.Valid()
    ensures BlockHalved(old(brp.View()), b, brp.View(), small)
    ensures SplittersFollow(tr, old(trp.View()), unready0, small, trp.View(), unready)
    ensures scans == Bump(scans0, small)
  {
    hide BlockHalved, SplittersFollow, PartlySplit, IsSplit, Touched, IncomingOf;
    hide Layout.Inverse, Layout.SetsFilled, Layout.ElementsPlaced, Layout.Block, Layout.Marked;
    ghost var B, T := brp.View(), trp.View();
    var r := brp.Split(b);
    assert trp.Valid() && trp.View() == T;
    ghost var K := brp.View();
    if r == None {
      NoSplitHalves(B, b, K);
      NothingFollows(tr, T, unready0);
      assert scans0 == Bump(scans0, {});
      return unready0, {}, scans0;
    }
    SplitNumbers(B, b, K, r);
    var half := r.value;
    if brp.SizeOfSet(b) < brp.SizeOfSet(half) {
      half := b;
    }
    small := K.Block(half);
    SplitHalves(B, b, K, r, half);
    var touched;
    ghost var scanned;
    touched, scanned := MarkIncoming(brp, trp, tr, incoming, half);
    scans := Bump(scans0, Elements(scanned));
    assert brp.Valid() && brp.View() == K;
    ghost var L := trp.View();
    unready := SplitTouched(trp, touched, unready0);
    assert brp.Valid() && brp.View() == K;
    SplittersFollowSplit(tr, T, unready0, small, L, trp.View(), unready);
  }

  lemma SplitNumbers(B: Layout, b: nat, K: Layout, r: Option<nat>)
    requires B.Valid() && K.Valid() && IsSplit(B, b, K, r) && r.Some?
    ensures r.value == B.num && K.num == B.num + 1 && |K.idx| == |B.idx|
  {
  }
}
