/** Partitionable sets (class RefinablePartition of src/nfa/operations.cc).  All elements live in
    one array, the elements of a set being contiguous; the marked elements of a set come first,
    before its `mid`.  `mark` and `split` are specified by what they do to the partition
    (`setIdx`) and to the set of marked elements. */
module RefinablePartitions {
  import opened Counting
  import opened Options

  /** A snapshot of all the fields. */
  datatype Layout = Layout(num: nat, idx: seq<nat>, elems: seq<nat>, loc: seq<nat>,
                           first: seq<nat>, end: seq<nat>, mid: seq<nat>) {
    ghost predicate Shape() {
      |idx| == |elems| == |loc| == |first| == |end| == |mid| && num <= |idx|
    }

    /** Every element sits in the range of its set. */
    ghost predicate ElementsPlaced()
      requires Shape()
    {
      forall e | 0 <= e < |idx| :: idx[e] < num && first[idx[e]] <= loc[e] < end[idx[e]] <= |idx|
    }

    /** Sets are non-empty and hold their own elements only. */
    ghost predicate SetsFilled()
      requires Shape()
    {
      && (forall s | 0 <= s < num :: first[s] <= mid[s] <= end[s] <= |idx| && first[s] < end[s])
      && (forall s, l | 0 <= s < num && first[s] <= l < end[s] :: elems[l] < |idx| && idx[elems[l]] == s)
    }

    /** `elems` and `loc` are inverse to each other. */
    ghost predicate Inverse()
      requires Shape() && ElementsPlaced()
    {
      forall e, l | 0 <= e < |idx| && first[idx[e]] <= l < end[idx[e]] :: elems[l] == e <==> loc[e] == l
    }

    ghost predicate Valid() {
      Shape() && ElementsPlaced() && SetsFilled() && Inverse()
    }

    ghost function Block(s: nat): set<nat> {
      set e | 0 <= e < |idx| && idx[e] == s
    }

    /** The elements placed before the `mid` of their set. */
    ghost function Marked(): set<nat> {
      set e | 0 <= e < |idx| && e < |loc| && idx[e] < |mid| && loc[e] < mid[idx[e]]
    }

    /** The elements of a set in the order in which they are iterated. */
    ghost function Order(s: nat): seq<nat> {
      if s < |first| && s < |end| && first[s] <= end[s] <= |elems| then elems[first[s]..end[s]] else []
    }
  }

  lemma OrderEnumeratesBlock(L: Layout, s: nat)
    requires L.Valid() && s < L.num
    ensures forall e :: e in L.Order(s) <==> e in L.Block(s)
    ensures Distinct(L.Order(s))
    ensures |L.Order(s)| == |L.Block(s)| > 0
  {
    var order := L.Order(s);
    forall e | e in L.Block(s) ensures e in order {
      assert order[L.loc[e] - L.first[s]] == e;
    }
    forall i | 0 <= i < |order| ensures order[i] in L.Block(s) && L.loc[order[i]] == L.first[s] + i {
      assert order[i] == L.elems[L.first[s] + i];
    }
    DistinctSize(order);
    assert L.Block(s) == Elements(order);
  }

  /** Sets are never more numerous than elements: a set that can be split leaves room for one more. */
  lemma RoomForAnotherSet(L: Layout, s: nat)
    requires L.Valid() && s < L.num && L.first[s] < L.mid[s] < L.end[s]
    ensures L.num < |L.idx|
  {
    var firsts := seq(L.num, i requires 0 <= i < L.num => L.elems[L.first[i]]);
    assert forall i | 0 <= i < L.num :: L.idx[firsts[i]] == i && L.loc[firsts[i]] == L.first[i];
    var another := L.elems[L.mid[s]];
    assert L.idx[another] == s && L.loc[another] == L.mid[s];
    Pigeonhole(firsts + [another], |L.idx|);
  }

  /** The state after `mark(e)` has moved an unmarked `e` to the middle. */
  function MarkLayout(L: Layout, e: nat): Layout
    requires L.Valid() && e < |L.idx| && L.loc[e] >= L.mid[L.idx[e]]
  {
    var s, l, m := L.idx[e], L.loc[e], L.mid[L.idx[e]];
    var other := L.elems[m];
    L.(elems := L.elems[l := other][m := e], loc := L.loc[other := l][e := m], mid := L.mid[s := m + 1])
  }

  lemma MarkLayoutMoves(L: Layout, e: nat)
    requires L.Valid() && e < |L.idx| && L.loc[e] >= L.mid[L.idx[e]]
    ensures var N, m, other := MarkLayout(L, e), L.mid[L.idx[e]], L.elems[L.mid[L.idx[e]]];
            && L.first[L.idx[e]] <= m < L.end[L.idx[e]]
            && other < |L.idx| && L.idx[other] == L.idx[e] && L.loc[other] == m
            && N.loc[e] == m && N.elems[m] == e
            && (other != e ==> N.loc[other] == L.loc[e] && N.elems[L.loc[e]] == other)
            && (forall d | 0 <= d < |L.idx| && d != e && d != other ::
                  N.loc[d] == L.loc[d] && L.loc[d] != m && L.loc[d] != L.loc[e])
  {
    var m, other := L.mid[L.idx[e]], L.elems[L.mid[L.idx[e]]];
    forall d | 0 <= d < |L.idx| && d != e && d != other ensures L.loc[d] != m && L.loc[d] != L.loc[e] {
      assert L.elems[L.loc[d]] == d && L.elems[L.loc[e]] == e;
    }
  }

  lemma MarkKeepsPlaces(L: Layout, e: nat)
    requires L.Valid() && e < |L.idx| && L.loc[e] >= L.mid[L.idx[e]]
    ensures MarkLayout(L, e).Shape() && MarkLayout(L, e).ElementsPlaced()
  {
    MarkLayoutMoves(L, e);
  }

  lemma MarkKeepsElements(L: Layout, e: nat, s: nat, l: nat)
    requires L.Valid() && e < |L.idx| && L.loc[e] >= L.mid[L.idx[e]] && s < L.num && L.first[s] <= l < L.end[s]
    ensures var N := MarkLayout(L, e); N.elems[l] < |N.idx| && N.idx[N.elems[l]] == s && N.loc[N.elems[l]] == l
  {
    MarkLayoutMoves(L, e);
    assert L.idx[L.elems[l]] == s && L.loc[L.elems[l]] == l;
  }

  lemma MarkKeepsLocation(L: Layout, e: nat, d: nat)
    requires L.Valid() && e < |L.idx| && L.loc[e] >= L.mid[L.idx[e]] && d < |L.idx|
    ensures var N := MarkLayout(L, e); N.loc[d] < |N.elems| && N.elems[N.loc[d]] == d
  {
    MarkLayoutMoves(L, e);
    assert L.elems[L.loc[d]] == d;
  }

  lemma MarkLayoutValid(L: Layout, e: nat)
    requires L.Valid() && e < |L.idx| && L.loc[e] >= L.mid[L.idx[e]]
    ensures MarkLayout(L, e).Valid()
  {
    var N := MarkLayout(L, e);
    MarkKeepsPlaces(L, e);
    assert N.num == L.num && N.idx == L.idx && N.first == L.first && N.end == L.end;
    assert forall s | 0 <= s < N.num :: N.first[s] <= N.mid[s] <= N.end[s] <= |N.idx| && N.first[s] < N.end[s] by {
      MarkLayoutMoves(L, e);
    }
    forall s, l | 0 <= s < N.num && N.first[s] <= l < N.end[s]
      ensures N.elems[l] < |N.idx| && N.idx[N.elems[l]] == s && N.loc[N.elems[l]] == l
    {
      MarkKeepsElements(L, e, s, l);
    }
    forall d | 0 <= d < |N.idx| ensures N.elems[N.loc[d]] == d {
      MarkKeepsLocation(L, e, d);
    }
    FilledIsInverse(N);
  }

  /** Elements and locations that undo each other are inverse. */
  lemma FilledIsInverse(N: Layout)
    requires N.Shape() && N.ElementsPlaced() && N.SetsFilled()
    requires forall s, l | 0 <= s < N.num && N.first[s] <= l < N.end[s] :: N.loc[N.elems[l]] == l
    requires forall e | 0 <= e < |N.idx| :: N.elems[N.loc[e]] == e
    ensures N.Inverse()
  {
  }

  lemma MarkLayoutMarks(L: Layout, e: nat)
    requires L.Valid() && e < |L.idx| && L.loc[e] >= L.mid[L.idx[e]]
    ensures MarkLayout(L, e).Valid() && MarkLayout(L, e).Marked() == L.Marked() + {e}
  {
    MarkLayoutValid(L, e);
    MarkLayoutMoves(L, e);
    var N := MarkLayout(L, e);
    forall d | 0 <= d < |L.idx| ensures N.loc[d] < N.mid[N.idx[d]] <==> d == e || L.loc[d] < L.mid[L.idx[d]] {
    }
  }

  /** The state after `split(s)` has separated the marked elements of a partly marked set. */
  ghost function SplitLayout(L: Layout, s: nat): Layout
    requires L.Valid() && s < L.num < |L.idx|
  {
    L.(num := L.num + 1,
       idx := seq(|L.idx|, e requires 0 <= e < |L.idx| =>
                    if L.idx[e] == s && L.loc[e] < L.mid[s] then L.num else L.idx[e]),
       first := L.first[L.num := L.first[s]][s := L.mid[s]],
       end := L.end[L.num := L.mid[s]],
       mid := L.mid[L.num := L.first[s]])
  }

  /** `N` is `L` after `split(s)` returned `r`: if set `s` has both marked and unmarked elements,
      the marked ones become the new set `r` and the others keep the name; the marks of `s` are
      cleared in any case. */
  ghost predicate IsSplit(L: Layout, s: nat, N: Layout, r: Option<nat>) {
    && |N.idx| == |L.idx|
    && N.Marked() == L.Marked() - L.Block(s)
    && (if L.Block(s) !! L.Marked() || L.Block(s) <= L.Marked() then
          r == None && N.num == L.num && N.idx == L.idx
        else
          && r == Some(L.num) && N.num == L.num + 1
          && forall e | 0 <= e < |L.idx| ::
               N.idx[e] == if e in L.Block(s) && e in L.Marked() then L.num else L.idx[e])
  }

  lemma MarksDecideSplit(L: Layout, s: nat)
    requires L.Valid() && s < L.num
    ensures L.mid[s] == L.first[s] <==> L.Block(s) !! L.Marked()
    ensures L.mid[s] == L.end[s] <==> L.Block(s) <= L.Marked()
  {
    var lowest, highest := L.elems[L.first[s]], L.elems[L.end[s] - 1];
    assert lowest in L.Block(s) && highest in L.Block(s);
    assert L.loc[lowest] == L.first[s] && L.loc[highest] == L.end[s] - 1;
  }

  lemma ClearMarks(L: Layout, s: nat)
    requires L.Valid() && s < L.num && (L.mid[s] == L.first[s] || L.mid[s] == L.end[s])
    ensures var N := L.(mid := L.mid[s := L.first[s]]);
            N.Valid() && IsSplit(L, s, N, None)
  {
    MarksDecideSplit(L, s);
    assert L.(mid := L.mid[s := L.first[s]]).SetsFilled();
  }

  lemma SplitLayoutFilled(L: Layout, s: nat)
    requires L.Valid() && s < L.num < |L.idx| && L.first[s] < L.mid[s] < L.end[s]
    ensures SplitLayout(L, s).ElementsPlaced() && SplitLayout(L, s).SetsFilled()
  {
    var N := SplitLayout(L, s);
    forall t, l | 0 <= t < N.num && N.first[t] <= l < N.end[t] ensures N.elems[l] < |L.idx| && N.idx[N.elems[l]] == t {
      var u := if t == L.num then s else t;
      assert L.first[u] <= l < L.end[u];
      assert L.idx[L.elems[l]] == u;
    }
  }

  lemma SplitLayoutValid(L: Layout, s: nat)
    requires L.Valid() && s < L.num < |L.idx| && L.first[s] < L.mid[s] < L.end[s]
    ensures SplitLayout(L, s).Valid()
  {
    SplitLayoutFilled(L, s);
    var N := SplitLayout(L, s);
    forall e, l | 0 <= e < |N.idx| && N.first[N.idx[e]] <= l < N.end[N.idx[e]] ensures N.elems[l] == e <==> N.loc[e] == l {
      assert L.first[L.idx[e]] <= l < L.end[L.idx[e]];
    }
  }

  lemma SplitLayoutSplits(L: Layout, s: nat)
    requires L.Valid() && s < L.num < |L.idx| && L.first[s] < L.mid[s] < L.end[s]
    ensures SplitLayout(L, s).Valid() && IsSplit(L, s, SplitLayout(L, s), Some(L.num))
  {
    SplitLayoutValid(L, s);
    MarksDecideSplit(L, s);
    var N := SplitLayout(L, s);
    forall e | 0 <= e < |L.idx| ensures N.loc[e] < N.mid[N.idx[e]] <==> L.loc[e] < L.mid[L.idx[e]] && L.idx[e] != s {
    }
  }

  // ---------- Counting sort ----------

  /** Two elements are in the same set just if they have the same label. */
  ghost predicate GroupedBy(idx: seq<nat>, labels: seq<nat>) {
    && |idx| == |labels|
    && (forall t, u | 0 <= t < |labels| && 0 <= u < |labels| :: idx[t] == idx[u] <==> labels[t] == labels[u])
  }

  /** `cls[t]` is the number given to the label of element `t`; `counts` says how often each occurs. */
  ghost predicate Counted(labels: seq<nat>, labelMap: map<nat, nat>, cls: seq<nat>, counts: seq<nat>) {
    && |cls| == |labels| == Sum(counts)
    && (forall a :: a in labelMap <==> a in labels)
    && (forall t | 0 <= t < |labels| :: labelMap[labels[t]] == cls[t] < |counts|)
    && (forall t, u | 0 <= t < |labels| && 0 <= u < |labels| :: cls[t] == cls[u] ==> labels[t] == labels[u])
    && (forall s | 0 <= s < |counts| :: counts[s] == Occurrences(cls, s) > 0)
  }

  lemma CountKnownLabel(labels: seq<nat>, labelMap: map<nat, nat>, cls: seq<nat>, counts: seq<nat>, a: nat)
    requires Counted(labels, labelMap, cls, counts) && a in labelMap
    ensures labelMap[a] < |counts|
    ensures Counted(labels + [a], labelMap, cls + [labelMap[a]], counts[labelMap[a] := counts[labelMap[a]] + 1])
  {
    var t :| 0 <= t < |labels| && labels[t] == a;
    SumUpdate(counts, labelMap[a], counts[labelMap[a]] + 1);
    forall s | 0 <= s < |counts|
      ensures Occurrences(cls + [labelMap[a]], s) == Occurrences(cls, s) + if s == labelMap[a] then 1 else 0
    {
      OccurrencesAppend(cls, labelMap[a], s);
    }
  }

  lemma CountNewLabel(labels: seq<nat>, labelMap: map<nat, nat>, cls: seq<nat>, counts: seq<nat>, a: nat)
    requires Counted(labels, labelMap, cls, counts) && a !in labelMap
    ensures Counted(labels + [a], labelMap[a := |counts|], cls + [|counts|], counts + [1])
  {
    SumSnoc(counts, 1);
    OccursOnlyIfElement(cls, |counts|);
    forall s | 0 <= s <= |counts|
      ensures Occurrences(cls + [|counts|], s) == Occurrences(cls, s) + if s == |counts| then 1 else 0
    {
      OccurrencesAppend(cls, |counts|, s);
    }
  }

  /** The sets have disjoint ranges. */
  ghost predicate LaidOut(L: Layout, cls: seq<nat>) {
    && L.Shape() && |cls| == |L.idx|
    && (forall u | 0 <= u < |cls| :: cls[u] < L.num)
    && (forall s | 0 <= s < L.num :: L.first[s] <= L.end[s] <= |L.idx|)
    && (forall s, r | 0 <= s < r < L.num :: L.end[s] <= L.first[r])
  }

  /** The ranges are just large enough for the elements. */
  ghost predicate Sized(L: Layout, cls: seq<nat>)
    requires L.Shape()
  {
    forall s | 0 <= s < L.num :: L.first[s] + Occurrences(cls, s) == L.end[s]
  }

  /** `mid` leaves room for exactly the elements from `t` on. */
  ghost predicate MidsAt(L: Layout, cls: seq<nat>, t: nat)
    requires L.Shape() && t <= |cls|
  {
    forall s | 0 <= s < L.num :: L.mid[s] + Occurrences(cls[..t], s) == L.end[s]
  }

  /** The first `t` elements are in place, and the ranges [mid, end) hold nothing else. */
  ghost predicate FilledUpTo(L: Layout, cls: seq<nat>, t: nat)
    requires LaidOut(L, cls) && t <= |cls|
  {
    && (forall u | 0 <= u < t :: L.idx[u] == cls[u] && L.mid[cls[u]] <= L.loc[u] < L.end[cls[u]])
    && (forall s, l | 0 <= s < L.num && L.mid[s] <= l < L.end[s] :: L.elems[l] < t && cls[L.elems[l]] == s)
    && (forall u, l | 0 <= u < t && L.mid[cls[u]] <= l < L.end[cls[u]] :: L.elems[l] == u <==> L.loc[u] == l)
  }

  ghost predicate PartlyFilled(L: Layout, cls: seq<nat>, t: nat) {
    LaidOut(L, cls) && Sized(L, cls) && t <= |cls| && MidsAt(L, cls, t) && FilledUpTo(L, cls, t)
  }

  ghost function FillLayout(L: Layout, s: nat, t: nat): Layout
    requires L.Shape() && t < |L.idx| && s < L.num && 0 < L.mid[s] <= |L.idx|
  {
    var l := L.mid[s] - 1;
    L.(mid := L.mid[s := l], elems := L.elems[l := t], loc := L.loc[t := l], idx := L.idx[t := s])
  }

  /** There is room left in the set of the next element, outside all filled ranges. */
  lemma RoomToFill(L: Layout, cls: seq<nat>, t: nat)
    requires LaidOut(L, cls) && Sized(L, cls) && t < |cls| && MidsAt(L, cls, t)
    ensures L.first[cls[t]] < L.mid[cls[t]] <= L.end[cls[t]]
    ensures forall s | 0 <= s < L.num && s != cls[t] :: L.end[s] < L.mid[cls[t]] || L.mid[cls[t]] <= L.mid[s]
    ensures MidsAt(FillLayout(L, cls[t], t), cls, t + 1)
  {
    assert cls[..|cls|] == cls;
    OccurrencesSnoc(cls, t, cls[t]);
    OccurrencesMonotone(cls, t + 1, |cls|, cls[t]);
    forall s | 0 <= s < L.num
      ensures Occurrences(cls[..t + 1], s) == Occurrences(cls[..t], s) + if s == cls[t] then 1 else 0
      ensures L.first[s] <= L.mid[s]
    {
      OccurrencesSnoc(cls, t, s);
      OccurrencesMonotone(cls, t, |cls|, s);
    }
    forall s | 0 <= s < L.num && s != cls[t] ensures L.end[s] < L.mid[cls[t]] || L.mid[cls[t]] <= L.mid[s] {
      if s < cls[t] {
        assert L.end[s] <= L.first[cls[t]];
      } else {
        assert L.end[cls[t]] <= L.first[s];
      }
    }
  }

  lemma FillStep(L: Layout, cls: seq<nat>, t: nat)
    requires PartlyFilled(L, cls, t) && t < |cls|
    ensures 0 < L.mid[cls[t]] <= |L.idx| && PartlyFilled(FillLayout(L, cls[t], t), cls, t + 1)
  {
    RoomToFill(L, cls, t);
    var N, l := FillLayout(L, cls[t], t), L.mid[cls[t]] - 1;
    assert LaidOut(N, cls);
    FillStepPlaced(L, cls, t);
    FillStepRanges(L, cls, t);
  }

  lemma FillStepPlaced(L: Layout, cls: seq<nat>, t: nat)
    requires LaidOut(L, cls) && t < |cls| && FilledUpTo(L, cls, t)
    requires 0 < L.mid[cls[t]] <= L.end[cls[t]]
    requires forall s | 0 <= s < L.num && s != cls[t] :: L.end[s] < L.mid[cls[t]] || L.mid[cls[t]] <= L.mid[s]
    ensures var N := FillLayout(L, cls[t], t);
      && (forall u | 0 <= u < t + 1 :: N.idx[u] == cls[u] && N.mid[cls[u]] <= N.loc[u] < N.end[cls[u]])
      && (forall u | 0 <= u < t + 1 :: N.elems[N.loc[u]] == u)
  {
    var N, l := FillLayout(L, cls[t], t), L.mid[cls[t]] - 1;
    forall u | 0 <= u < t ensures L.loc[u] != l && N.elems[N.loc[u]] == u {
      assert L.mid[cls[u]] <= L.loc[u] < L.end[cls[u]];
    }
  }

  lemma FillStepRanges(L: Layout, cls: seq<nat>, t: nat)
    requires LaidOut(L, cls) && t < |cls| && FilledUpTo(L, cls, t)
    requires 0 < L.mid[cls[t]] <= L.end[cls[t]]
    requires forall s | 0 <= s < L.num && s != cls[t] :: L.end[s] < L.mid[cls[t]] || L.mid[cls[t]] <= L.mid[s]
    ensures var N := FillLayout(L, cls[t], t);
      forall s, k | 0 <= s < N.num && N.mid[s] <= k < N.end[s] ::
        N.elems[k] < t + 1 && cls[N.elems[k]] == s && N.loc[N.elems[k]] == k
  {
    var N, l := FillLayout(L, cls[t], t), L.mid[cls[t]] - 1;
    forall s, k | 0 <= s < L.num && N.mid[s] <= k < N.end[s]
      ensures N.elems[k] < t + 1 && cls[N.elems[k]] == s && N.loc[N.elems[k]] == k
    {
      if s == cls[t] && k == l {
      } else {
        assert L.mid[s] <= k < L.end[s];
        assert k != l;
      }
    }
  }

  /** `starts[s]` is where the range of set `s` starts when each set has `counts[s]` elements. */
  ghost predicate IsStarts(starts: seq<nat>, counts: seq<nat>) {
    && |starts| == |counts| > 0 && starts[0] == 0
    && forall s | 0 < s < |counts| :: starts[s] == starts[s - 1] + counts[s - 1]
  }

  lemma {:induction false} MakeStarts(counts: seq<nat>) returns (starts: seq<nat>)
    requires counts != []
    ensures IsStarts(starts, counts) && starts[|counts| - 1] + counts[|counts| - 1] == Sum(counts)
  {
    var n := |counts|;
    if n == 1 {
      starts := [0];
      assert counts[..0] == [];
    } else {
      var rest := MakeStarts(counts[..n - 1]);
      starts := rest + [rest[n - 2] + counts[n - 2]];
    }
  }

  lemma {:induction false} StartsIncrease(starts: seq<nat>, counts: seq<nat>, s: nat, r: nat)
    requires IsStarts(starts, counts) && s < r < |starts|
    ensures starts[s] + counts[s] <= starts[r]
  {
    if s < r - 1 {
      StartsIncrease(starts, counts, s, r - 1);
    }
  }

  /** The empty layout with which filling starts. */
  lemma FillStart(L: Layout, cls: seq<nat>, starts: seq<nat>, counts: seq<nat>)
    requires L.Shape() && L.num == |counts| && |cls| == |L.idx|
    requires IsStarts(starts, counts) && starts[|counts| - 1] + counts[|counts| - 1] == |cls|
    requires forall t | 0 <= t < |cls| :: cls[t] < |counts|
    requires forall s | 0 <= s < |counts| :: counts[s] == Occurrences(cls, s)
    requires forall s | 0 <= s < |counts| :: L.first[s] == starts[s] && L.end[s] == L.mid[s] == starts[s] + counts[s]
    ensures PartlyFilled(L, cls, 0)
  {
    assert cls[..0] == [];
    forall s, r | 0 <= s < r < |counts| ensures L.end[s] <= L.first[r] {
      StartsIncrease(starts, counts, s, r);
    }
    assert LaidOut(L, cls);
  }

  lemma MidsAtBeginning(L: Layout, cls: seq<nat>)
    requires L.Shape() && Sized(L, cls) && MidsAt(L, cls, |cls|)
    requires forall s | 0 <= s < L.num :: Occurrences(cls, s) > 0
    ensures forall s | 0 <= s < L.num :: L.mid[s] == L.first[s] < L.end[s]
  {
    assert cls[..|cls|] == cls;
  }

  lemma FilledIsValid(L: Layout, cls: seq<nat>)
    requires LaidOut(L, cls) && FilledUpTo(L, cls, |cls|)
    requires forall s | 0 <= s < L.num :: L.mid[s] == L.first[s] < L.end[s]
    ensures L.Valid() && L.Marked() == {} && L.idx == cls
  {
    assert L.idx == cls;
  }

  lemma OneSetIsValid(L: Layout)
    requires L.Shape() && L.num == 1 && L.first[0] == L.mid[0] == 0 && L.end[0] == |L.idx|
    requires forall e | 0 <= e < |L.idx| :: L.idx[e] == 0 && L.elems[e] == L.loc[e] == e
    ensures L.Valid() && L.Marked() == {}
  {
  }

  class RefinablePartition {
    var numOfSets: nat
    const setIdx: array<nat>
    const elems: array<nat>
    const location: array<nat>
    const first: array<nat>
    const end: array<nat>
    const mid: array<nat>

    ghost function Repr(): set<object> {
      {this, setIdx, elems, location, first, end, mid}
    }

    ghost function View(): Layout
      reads Repr()
    {
      Layout(numOfSets, setIdx[..], elems[..], location[..], first[..], end[..], mid[..])
    }

    ghost predicate Separate() {
      && setIdx != elems && setIdx != location && setIdx != first && setIdx != end && setIdx != mid
      && elems != location && elems != first && elems != end && elems != mid
      && location != first && location != end && location != mid
      && first != end && first != mid && end != mid
    }

    ghost predicate Valid()
      reads Repr()
    {
      Separate() && View().Valid()
    }

    function Size(): nat {
      elems.Length
    }

    /** All `n` elements in one set. */
    constructor OneSet(n: nat)
      requires n > 0
      ensures Valid() && fresh(Repr())
      ensures View().num == 1 && View().idx == seq(n, _ => 0) && View().Marked() == {}
    {
      var idx, els, loc, fst, nd, md := SingleRange(n);
      numOfSets := 1;
      setIdx, elems, location, first, end, mid := idx, els, loc, fst, nd, md;
    }

    static method SingleRange(n: nat)
      returns (idx: array<nat>, els: array<nat>, loc: array<nat>, fst: array<nat>, nd: array<nat>, md: array<nat>)
      requires n > 0
      ensures idx != els && idx != loc && idx != fst && idx != nd && idx != md
      ensures els != loc && els != fst && els != nd && els != md
      ensures loc != fst && loc != nd && loc != md && fst != nd && fst != md && nd != md
      ensures fresh({idx, els, loc, fst, nd, md})
      ensures var L := Layout(1, idx[..], els[..], loc[..], fst[..], nd[..], md[..]);
              L.Valid() && L.Marked() == {} && L.idx == seq(n, _ => 0)
    {
      idx, els, loc, fst, nd, md := new nat[n], new nat[n], new nat[n], new nat[n], new nat[n], new nat[n];
      fst[0], md[0], nd[0] := 0, 0, n;
      for e := 0 to n
        invariant forall i | 0 <= i < e :: idx[i] == 0 && els[i] == loc[i] == i
        invariant fst[0] == md[0] == 0 && nd[0] == n
      {
        els[e], loc[e], idx[e] := e, e, 0;
      }
      OneSetIsValid(Layout(1, idx[..], els[..], loc[..], fst[..], nd[..], md[..]));
    }

    /** Elements grouped by label; element `t` is labelled `labels[t]`. */
    constructor ByLabel(labels: seq<nat>)
      requires labels != []
      ensures Valid() && fresh(Repr())
      ensures GroupedBy(View().idx, labels) && View().Marked() == {}
    {
      var k, idx, els, loc, fst, nd, md := CountingSort(labels);
      numOfSets := k;
      setIdx, elems, location, first, end, mid := idx, els, loc, fst, nd, md;
    }

    /** The transitions are grouped in linear time: count, lay out, fill. */
    static method CountingSort(labels: seq<nat>)
      returns (k: nat, idx: array<nat>, els: array<nat>, loc: array<nat>, fst: array<nat>, nd: array<nat>, md: array<nat>)
      requires labels != []
      ensures idx != els && idx != loc && idx != fst && idx != nd && idx != md
      ensures els != loc && els != fst && els != nd && els != md
      ensures loc != fst && loc != nd && loc != md && fst != nd && fst != md && nd != md
      ensures fresh({idx, els, loc, fst, nd, md}) && idx.Length == |labels|
      ensures var L := Layout(k, idx[..], els[..], loc[..], fst[..], nd[..], md[..]);
        L.Valid() && L.Marked() == {} && GroupedBy(L.idx, labels)
    {
      var m := |labels|;
      var labelMap, counts, cls := CountLabels(labels);
      k := |counts|;
      idx, els, loc, fst, nd, md := new nat[m], new nat[m], new nat[m], new nat[m], new nat[m], new nat[m];
      ghost var starts := MakeStarts(counts);
      LayOutSets(counts, starts, fst, nd, md);
      FillStart(Layout(k, idx[..], els[..], loc[..], fst[..], nd[..], md[..]), cls, starts, counts);
      FillSets(labels, labelMap, k, cls, idx, els, loc, fst, nd, md);
      ghost var L := Layout(k, idx[..], els[..], loc[..], fst[..], nd[..], md[..]);
      MidsAtBeginning(L, cls);
      FilledIsValid(L, cls);
    }

    /** First phase of the counting sort: number the labels and count their elements. */
    static method CountLabels(labels: seq<nat>)
      returns (labelMap: map<nat, nat>, counts: seq<nat>, ghost cls: seq<nat>)
      requires labels != []
      ensures 0 < |counts| <= |labels| && Counted(labels, labelMap, cls, counts)
    {
      labelMap, counts, cls := map[], [], [];
      for t := 0 to |labels|
        invariant |counts| <= t && (t > 0 ==> counts != []) && Counted(labels[..t], labelMap, cls, counts)
      {
        var a := labels[t];
        assert labels[..t + 1] == labels[..t] + [a];
        if a !in labelMap {
          CountNewLabel(labels[..t], labelMap, cls, counts, a);
          labelMap := labelMap[a := |counts|];
          counts := counts + [1];
        } else {
          CountKnownLabel(labels[..t], labelMap, cls, counts, a);
          counts := counts[labelMap[a] := counts[labelMap[a]] + 1];
        }
        cls := cls + [labelMap[a]];
      }
      assert labels[..|labels|] == labels;
    }

    /** Second phase: consecutive ranges for the sets, all insertion points at the end. */
    static method LayOutSets(counts: seq<nat>, ghost starts: seq<nat>, fst: array<nat>, nd: array<nat>, md: array<nat>)
      requires fst != nd && fst != md && nd != md
      requires IsStarts(starts, counts) && |counts| <= fst.Length == nd.Length == md.Length
      modifies fst, nd, md
      ensures forall s | 0 <= s < |counts| :: fst[s] == starts[s]
      ensures forall s | 0 <= s < |counts| :: nd[s] == md[s] == starts[s] + counts[s]
    {
      fst[0], nd[0], md[0] := 0, counts[0], counts[0];
      for i := 1 to |counts|
        invariant forall s | 0 <= s < i :: fst[s] == starts[s]
        invariant forall s | 0 <= s < i :: nd[s] == md[s] == starts[s] + counts[s]
      {
        fst[i] := nd[i - 1];
        nd[i] := fst[i] + counts[i];
        md[i] := nd[i];
      }
    }

    /** Third phase: the sets are filled from the back, `md`, decremented before use, ending up at
        the beginning of each set. */
    static method FillSets(labels: seq<nat>, labelMap: map<nat, nat>, k: nat, ghost cls: seq<nat>,
                           idx: array<nat>, els: array<nat>, loc: array<nat>,
                           fst: array<nat>, nd: array<nat>, md: array<nat>)
      requires idx != els && idx != loc && idx != fst && idx != nd && idx != md
      requires els != loc && els != fst && els != nd && els != md
      requires loc != fst && loc != nd && loc != md && fst != md && nd != md
      requires |cls| == |labels| && forall t | 0 <= t < |labels| :: labels[t] in labelMap && labelMap[labels[t]] == cls[t]
      requires PartlyFilled(Layout(k, idx[..], els[..], loc[..], fst[..], nd[..], md[..]), cls, 0)
      modifies idx, els, loc, md
      ensures PartlyFilled(Layout(k, idx[..], els[..], loc[..], fst[..], nd[..], md[..]), cls, |cls|)
    {
      hide *;
      for t := 0 to |labels|
        invariant PartlyFilled(Layout(k, idx[..], els[..], loc[..], fst[..], nd[..], md[..]), cls, t)
      {
        PlaceElement(t, labelMap[labels[t]], k, cls, idx, els, loc, fst, nd, md);
      }
    }

    static method PlaceElement(t: nat, aIdx: nat, k: nat, ghost cls: seq<nat>,
                               idx: array<nat>, els: array<nat>, loc: array<nat>,
                               fst: array<nat>, nd: array<nat>, md: array<nat>)
      requires idx != els && idx != loc && idx != fst && idx != nd && idx != md
      requires els != loc && els != fst && els != nd && els != md
      requires loc != fst && loc != nd && loc != md && fst != md && nd != md
      requires t < |cls| && aIdx == cls[t]
      requires PartlyFilled(Layout(k, idx[..], els[..], loc[..], fst[..], nd[..], md[..]), cls, t)
      modifies idx, els, loc, md
      ensures PartlyFilled(Layout(k, idx[..], els[..], loc[..], fst[..], nd[..], md[..]), cls, t + 1)
    {
      ghost var L := Layout(k, idx[..], els[..], loc[..], fst[..], nd[..], md[..]);
      FillStep(L, cls, t);
      var transLoc := md[aIdx] - 1;
      md[aIdx] := transLoc;
      els[transLoc] := t;
      loc[t] := transLoc;
      idx[t] := aIdx;
      assert Layout(k, idx[..], els[..], loc[..], fst[..], nd[..], md[..]) == FillLayout(L, aIdx, t) by {
        assert idx[..] == L.idx[t := aIdx] && loc[..] == L.loc[t := transLoc];
        assert els[..] == L.elems[transLoc := t] && md[..] == L.mid[aIdx := transLoc];
      }
    }

    function GetFirst(s: nat): (e: nat)
      requires Valid() && s < numOfSets
      reads Repr()
      ensures View().Order(s) != [] && e == View().Order(s)[0]
    {
      elems[first[s]]
    }

    /** The element after `e` in its set; `no_more_elements` is None. */
    function GetNext(e: nat): (r: Option<nat>)
      requires Valid() && e < Size()
      reads Repr()
    {
      if location[e] + 1 >= end[setIdx[e]] then None else Some(elems[location[e] + 1])
    }

    lemma GetNextFollowsOrder(s: nat, i: nat)
      requires Valid() && s < numOfSets && i < |View().Order(s)|
      ensures View().Order(s)[i] < Size()
      ensures GetNext(View().Order(s)[i]) == if i + 1 < |View().Order(s)| then Some(View().Order(s)[i + 1]) else None
    {
      var e := View().Order(s)[i];
      OrderEnumeratesBlock(View(), s);
      assert e in View().Order(s);
      assert View().loc[View().elems[first[s] + i]] == first[s] + i;
    }

    function SizeOfSet(s: nat): (n: nat)
      requires Valid() && s < numOfSets
      reads Repr()
      ensures n == |View().Block(s)|
    {
      OrderEnumeratesBlock(View(), s);
      end[s] - first[s]
    }

    predicate HasNoMarks(s: nat)
      requires Valid() && s < numOfSets
      reads Repr()
      ensures HasNoMarks(s) <==> View().Block(s) !! View().Marked()
    {
      MarksDecideSplit(View(), s);
      mid[s] == first[s]
    }

    /** Marks `e`; the partition and the other marks stay as they are. */
    method Mark(e: nat)
      requires Valid() && e < Size()
      modifies elems, location, mid
      ensures Valid() && View().idx == old(View().idx) && View().num == old(View().num)
      ensures View().Marked() == old(View().Marked()) + {e}
    {
      ghost var before := View();
      var eSet, eLoc := setIdx[e], location[e];
      var eSetMid := mid[eSet];
      if eLoc >= eSetMid {
        MarkLayoutMarks(before, e);
        elems[eLoc] := elems[eSetMid];
        location[elems[eLoc]] := eLoc;
        elems[eSetMid] := e;
        location[e] := eSetMid;
        mid[eSet] := eSetMid + 1;
        assert View() == MarkLayout(before, e);
      }
    }

    /** Splits set `s` into its marked and unmarked elements, if there are both. */
    method Split(s: nat) returns (r: Option<nat>)
      requires Valid() && s < numOfSets
      modifies this, setIdx, first, end, mid
      ensures Valid() && IsSplit(old(View()), s, View(), r)
    {
      ghost var before := View();
      if mid[s] == end[s] {
        mid[s] := first[s];
      }
      if mid[s] == first[s] {
        assert View() == before.(mid := before.mid[s := before.first[s]]) by {
          assert mid[..] == before.mid[s := before.first[s]];
        }
        ClearMarks(before, s);
        return None;
      }
      RoomForAnotherSet(before, s);
      SplitLayoutSplits(before, s);
      SplitOff(s);
      return Some(numOfSets - 1);
    }

    /** The marked elements of `s` become the set numbered `numOfSets`. */
    method SplitOff(s: nat)
      requires Valid() && s < numOfSets < Size() && first[s] < mid[s] < end[s]
      modifies this, setIdx, first, end, mid
      ensures View() == SplitLayout(old(View()), s)
    {
      ghost var before := View();
      first[numOfSets] := first[s];
      mid[numOfSets] := first[s];
      end[numOfSets] := mid[s];
      first[s] := mid[s];
      Relabel(first[numOfSets], end[numOfSets], numOfSets);
      numOfSets := numOfSets + 1;
      assert first[..] == SplitLayout(before, s).first;
      assert end[..] == SplitLayout(before, s).end;
      assert mid[..] == SplitLayout(before, s).mid;
      assert setIdx[..] == SplitLayout(before, s).idx;
    }

    /** The elements at locations `from` to `to` become set `t`. */
    method Relabel(from: nat, to: nat, t: nat)
      requires setIdx != elems && setIdx != location
      requires from <= to <= elems.Length == setIdx.Length == location.Length
      requires forall l | from <= l < to :: elems[l] < elems.Length && location[elems[l]] == l
      modifies setIdx
      ensures forall e | 0 <= e < setIdx.Length ::
                setIdx[e] == if from <= location[e] < to && elems[location[e]] == e then t else old(setIdx[e])
    {
      var l := from;
      while l < to
        invariant from <= l <= to
        invariant forall e | 0 <= e < setIdx.Length ::
                    setIdx[e] == if from <= location[e] < l && elems[location[e]] == e then t else old(setIdx[e])
      {
        setIdx[elems[l]] := t;
        l := l + 1;
      }
    }
  }
}
