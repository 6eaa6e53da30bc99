/** Search for an accepted word by depth-first search with saved iterators (Nfa::get_word of
    src/nfa/operations.cc). */
module WordSearch {
  import opened Automata
  import opened Counting
  import opened Options
  import opened Languages

  /** A level of the search: iterators into the post of a state; `post` counts symbol posts, `target`
      targets in that symbol post. */
  datatype Frame = Frame(state: State, post: nat, target: nat)

  /** The iterators of the frame stand at a move. */
  predicate AtMove(A: Nfa, f: Frame) {
    f.post < |A.At(f.state)| && f.target < |A.At(f.state)[f.post].targets|
  }

  function TargetOf(A: Nfa, f: Frame): State
    requires AtMove(A, f)
  {
    A.At(f.state)[f.post].targets[f.target]
  }

  function SymbolOf(A: Nfa, f: Frame): Symbol
    requires AtMove(A, f)
  {
    A.At(f.state)[f.post].symbol
  }

  /** The move at position (i, k) of the post lies behind the frame's iterators. */
  predicate Behind(f: Frame, i: nat, k: nat) {
    i < f.post || (i == f.post && k < f.target)
  }

  predicate Marked(searched: seq<bool>, q: State) {
    q < |searched| && searched[q]
  }

  /** All moves behind the frame lead to searched states. */
  ghost predicate BehindSearched(A: Nfa, searched: seq<bool>, f: Frame) {
    forall i, k | 0 <= i < |A.At(f.state)| && 0 <= k < |A.At(f.state)[i].targets| && Behind(f, i, k) ::
      Marked(searched, A.At(f.state)[i].targets[k])
  }

  /** All successors of `q` have been searched. */
  ghost predicate Closed(A: Nfa, searched: seq<bool>, q: State) {
    forall a, p: State | Step(A, q, a, p) :: Marked(searched, p)
  }

  ghost predicate OnStack(work: seq<Frame>, q: State) {
    exists i :: 0 <= i < |work| && work[i].state == q
  }

  /** Every frame but the last stands at a move into the state of the next. */
  ghost predicate Chained(A: Nfa, work: seq<Frame>) {
    forall i | 0 <= i < |work| - 1 :: AtMove(A, work[i]) && TargetOf(A, work[i]) == work[i + 1].state
  }

  /** The state of the search. */
  ghost predicate Searching(A: Nfa, searched: seq<bool>, work: seq<Frame>) {
    && |searched| == A.size && Chained(A, work)
    && (forall f <- work :: Marked(searched, f.state) && BehindSearched(A, searched, f) && f.post <= |A.At(f.state)|)
    && (forall q: State | Marked(searched, q) :: q !in A.final)
    && (forall q: State | Marked(searched, q) && !OnStack(work, q) :: Closed(A, searched, q))
  }

  // ---------- Termination ----------

  /** How often the iterators of a frame can still advance */
  ghost function Left(A: Nfa, q: State, i: nat): nat
    decreases |A.At(q)| - i
  {
    if i < |A.At(q)| then |A.At(q)[i].targets| + 1 + Left(A, q, i + 1) else 1
  }

  ghost function FrameLeft(A: Nfa, f: Frame): nat {
    if f.post < |A.At(f.state)| && f.target <= |A.At(f.state)[f.post].targets| then Left(A, f.state, f.post) - f.target else 1
  }

  ghost function TotalLeft(A: Nfa, work: seq<Frame>): nat {
    if work == [] then 0 else TotalLeft(A, work[..|work| - 1]) + FrameLeft(A, work[|work| - 1])
  }

  ghost function Unsearched(searched: seq<bool>): set<State> {
    set q: State | q in Below(|searched|) && !searched[q]
  }

  lemma MarkShrinks(searched: seq<bool>, q: State)
    requires q < |searched| && !searched[q]
    ensures Unsearched(searched[q := true]) < Unsearched(searched)
  {
    assert q in Unsearched(searched) && q !in Unsearched(searched[q := true]);
  }

  lemma TotalSnoc(A: Nfa, work: seq<Frame>, f: Frame)
    ensures TotalLeft(A, work + [f]) == TotalLeft(A, work) + FrameLeft(A, f)
  {
    assert (work + [f])[..|work|] == work;
  }

  // ---------- Steps ----------

  /** The iterators of a frame past its current move */
  function NextTarget(f: Frame): Frame {
    f.(target := f.target + 1)
  }

  lemma MarkMore(A: Nfa, searched: seq<bool>, q: State, f: Frame)
    requires q < |searched| && BehindSearched(A, searched, f)
    ensures BehindSearched(A, searched[q := true], f)
  {
  }

  lemma AdvanceBehind(A: Nfa, searched: seq<bool>, f: Frame)
    requires AtMove(A, f) && BehindSearched(A, searched, f) && Marked(searched, TargetOf(A, f))
    ensures BehindSearched(A, searched, NextTarget(f))
  {
    forall i, k | 0 <= i < |A.At(f.state)| && 0 <= k < |A.At(f.state)[i].targets| && Behind(NextTarget(f), i, k)
      ensures Marked(searched, A.At(f.state)[i].targets[k])
    {
      assert Behind(f, i, k) || (i == f.post && k == f.target);
    }
  }

  lemma SamePlaceOnStack(work: seq<Frame>, f: Frame, g: Frame, q: State)
    requires f.state == g.state
    ensures OnStack(work + [f], q) <==> OnStack(work + [g], q)
  {
    forall i | 0 <= i <= |work| ensures (work + [f])[i].state == (work + [g])[i].state { }
  }

  /** Replacing the topmost frame by one further along the same post. */
  lemma ReplaceTop(A: Nfa, searched: seq<bool>, work: seq<Frame>, f: Frame, g: Frame)
    requires Searching(A, searched, work + [f]) && f.state == g.state && g.post <= |A.At(g.state)| && BehindSearched(A, searched, g)
    ensures Searching(A, searched, work + [g])
  {
    var w, v := work + [f], work + [g];
    assert w[|work|] == f && v[|work|] == g && forall i | 0 <= i < |work| :: w[i] == work[i] && v[i] == work[i];
    forall i | 0 <= i < |v| - 1 ensures AtMove(A, v[i]) && TargetOf(A, v[i]) == v[i + 1].state {
      assert AtMove(A, w[i]) && TargetOf(A, w[i]) == w[i + 1].state;
    }
    forall h | h in v ensures Marked(searched, h.state) && BehindSearched(A, searched, h) && h.post <= |A.At(h.state)| {
      assert f in w && (h in work ==> h in w);
    }
    forall q: State ensures OnStack(v, q) <==> OnStack(w, q) { SamePlaceOnStack(work, f, g, q); }
    hide Closed, BehindSearched, AtMove, OnStack;
  }

  /** A frame whose post is exhausted has only searched successors. */
  lemma ExhaustedClosed(A: Nfa, searched: seq<bool>, f: Frame)
    requires BehindSearched(A, searched, f) && f.post == |A.At(f.state)|
    ensures Closed(A, searched, f.state)
  {
    forall a, p: State | Step(A, f.state, a, p) ensures Marked(searched, p) {
      var i :| 0 <= i < |A.At(f.state)| && A.At(f.state)[i].symbol == a && p in A.At(f.state)[i].targets;
      var k :| 0 <= k < |A.At(f.state)[i].targets| && A.At(f.state)[i].targets[k] == p;
      assert Behind(f, i, k);
    }
  }

  lemma OnStackSnoc(work: seq<Frame>, f: Frame, q: State)
    ensures OnStack(work + [f], q) <==> OnStack(work, q) || q == f.state
  {
    var w := work + [f];
    assert w[|work|] == f && forall i | 0 <= i < |work| :: w[i] == work[i];
  }

  /** Taking an exhausted frame off the stack. */
  lemma PopFrame(A: Nfa, searched: seq<bool>, work: seq<Frame>, f: Frame)
    requires Searching(A, searched, work + [f]) && f.post == |A.At(f.state)|
    ensures Searching(A, searched, work)
    ensures work != [] ==> AtMove(A, work[|work| - 1]) && TargetOf(A, work[|work| - 1]) == f.state
  {
    var w := work + [f];
    assert w[|work|] == f && f in w && forall i | 0 <= i < |work| :: w[i] == work[i];
    ExhaustedClosed(A, searched, f);
    forall q: State | Marked(searched, q) && !OnStack(work, q) ensures Closed(A, searched, q) { OnStackSnoc(work, f, q); }
    assert forall h | h in work :: h in w;
    hide Closed, BehindSearched, OnStack, Marked;
    forall i | 0 <= i < |work| - 1 ensures AtMove(A, work[i]) && TargetOf(A, work[i]) == work[i + 1].state {
      assert AtMove(A, w[i]) && TargetOf(A, w[i]) == w[i + 1].state;
    }
    if work != [] {
      var j := |work| - 1;
      assert AtMove(A, w[j]) && TargetOf(A, w[j]) == w[j + 1].state;
    }
  }

  lemma ClosedMore(A: Nfa, searched: seq<bool>, t: State, q: State)
    requires t < |searched| && Closed(A, searched, q)
    ensures Closed(A, searched[t := true], q)
  {
    hide Step;
  }

  /** Marking a state that has no moves. */
  lemma MarkDeadEnd(A: Nfa, searched: seq<bool>, work: seq<Frame>, t: State)
    requires Searching(A, searched, work) && t < |searched| && t !in A.final && A.At(t) == []
    ensures Searching(A, searched[t := true], work)
  {
    assert Closed(A, searched[t := true], t);
    forall q: State | Marked(searched, q) && Closed(A, searched, q) ensures Closed(A, searched[t := true], q) { ClosedMore(A, searched, t, q); }
    forall f | f in work ensures BehindSearched(A, searched[t := true], f) { MarkMore(A, searched, t, f); }
    hide Closed, BehindSearched, OnStack, Chained;
  }

  /** Marking a state and beginning to search from it. */
  lemma PushFrame(A: Nfa, searched: seq<bool>, work: seq<Frame>, t: State)
    requires Searching(A, searched, work) && t < |searched| && t !in A.final
    requires work != [] ==> AtMove(A, work[|work| - 1]) && TargetOf(A, work[|work| - 1]) == t
    ensures Searching(A, searched[t := true], work + [Frame(t, 0, 0)])
  {
    var f := Frame(t, 0, 0);
    var w, searched' := work + [f], searched[t := true];
    assert w[|work|] == f && forall i | 0 <= i < |work| :: w[i] == work[i];
    forall q: State | Marked(searched, q) && Closed(A, searched, q) ensures Closed(A, searched', q) { ClosedMore(A, searched, t, q); }
    forall q: State ensures OnStack(w, q) <==> OnStack(work, q) || q == t { OnStackSnoc(work, f, q); }
    forall h | h in work ensures BehindSearched(A, searched', h) { MarkMore(A, searched, t, h); }
    assert BehindSearched(A, searched', f);
    hide Closed, BehindSearched, OnStack;
  }

  // ---------- Results ----------

  /** The symbols of the moves at which the frames stand */
  function Symbols(A: Nfa, work: seq<Frame>): Word
    requires forall f <- work :: AtMove(A, f)
  {
    if work == [] then [] else Symbols(A, work[..|work| - 1]) + [SymbolOf(A, work[|work| - 1])]
  }

  lemma {:induction false} FramesRun(A: Nfa, work: seq<Frame>) returns (path: seq<State>)
    requires Chained(A, work) && work != [] && forall f <- work :: AtMove(A, f)
    ensures IsRun(A, path, Symbols(A, work)) && path[0] == work[0].state && path[|Symbols(A, work)|] == TargetOf(A, work[|work| - 1])
    decreases |work|
  {
    var n := |work| - 1;
    var f := work[n];
    assert f in work;
    assert Step(A, f.state, SymbolOf(A, f), TargetOf(A, f));
    if n == 0 {
      path := [f.state, TargetOf(A, f)];
      assert Symbols(A, work[..0]) == [];
    } else {
      var init := work[..n];
      forall i | 0 <= i < |init| - 1 ensures AtMove(A, init[i]) && TargetOf(A, init[i]) == init[i + 1].state {
        assert AtMove(A, work[i]) && TargetOf(A, work[i]) == work[i + 1].state;
      }
      assert forall g | g in init :: g in work;
      hide Step, AtMove, TargetOf;
      var rest := FramesRun(A, init);
      assert TargetOf(A, work[n - 1]) == work[n - 1 + 1].state;
      RunAppend(A, rest, Symbols(A, init), SymbolOf(A, f), TargetOf(A, f));
      path := rest + [TargetOf(A, f)];
    }
  }

  /** All symbols of an accepting run have been collected when a final target is met. */
  lemma FoundAccepts(A: Nfa, work: seq<Frame>)
    requires Chained(A, work) && work != [] && (forall f <- work :: AtMove(A, f)) && work[0].state in A.initial
    requires TargetOf(A, work[|work| - 1]) in A.final
    ensures Accepts(A, Symbols(A, work))
  {
    var path := FramesRun(A, work);
    var w := Symbols(A, work);
    RunAccepts(A, path, w, []);
    assert w + [] == w;
  }

  lemma {:induction false} NothingFrom(A: Nfa, searched: seq<bool>, q: State, w: Word)
    requires Searching(A, searched, []) && Marked(searched, q)
    ensures !AcceptsFrom(A, q, w)
    decreases |w|
  {
    assert !OnStack([], q) && Closed(A, searched, q);
    if w != [] && AcceptsFrom(A, q, w) {
      var p := AcceptingStep(A, q, w);
      NothingFrom(A, searched, p, w[1..]);
    }
  }

  // ---------- The methods ----------

  /** The first move of an initial state to a state that has not been searched, if any. */
  method FirstMove(A: Nfa, searched: seq<bool>, q: State) returns (f: Frame)
    requires A.Valid() && |searched| == A.size
    ensures f.state == q && f.post <= |A.At(q)| && BehindSearched(A, searched, f)
    ensures f.post < |A.At(q)| ==> AtMove(A, f) && !Marked(searched, TargetOf(A, f))
  {
    f := Frame(q, 0, 0);
    while f.post < |A.At(q)|
      invariant f.state == q && f.post <= |A.At(q)| && f.target == 0 && BehindSearched(A, searched, f)
      decreases |A.At(q)| - f.post
    {
      var targets := A.At(q)[f.post].targets;
      ghost var i := f.post;
      while f.target < |targets|
        invariant f.state == q && f.post == i < |A.At(q)| && targets == A.At(q)[f.post].targets && f.target <= |targets| && BehindSearched(A, searched, f)
        decreases |targets| - f.target
      {
        var t := targets[f.target];
        TargetInRange(A, q, f.post, f.target);
        if !searched[t] { return; }
        AdvanceBehind(A, searched, f);
        f := NextTarget(f);
      }
      PostBehind(A, searched, f);
      f := Frame(q, f.post + 1, 0);
    }
  }

  lemma TargetInRange(A: Nfa, q: State, i: nat, k: nat)
    requires A.Valid() && i < |A.At(q)| && k < |A.At(q)[i].targets|
    ensures A.At(q)[i].targets[k] < A.size
  {
    StepIsState(A, q, A.At(q)[i].symbol, A.At(q)[i].targets[k]);
  }

  /** A symbol post has been gone through: on to the next. */
  lemma PostBehind(A: Nfa, searched: seq<bool>, f: Frame)
    requires BehindSearched(A, searched, f) && f.post < |A.At(f.state)| && f.target == |A.At(f.state)[f.post].targets|
    ensures BehindSearched(A, searched, Frame(f.state, f.post + 1, 0))
  {
    var g := Frame(f.state, f.post + 1, 0);
    forall i, k | 0 <= i < |A.At(f.state)| && 0 <= k < |A.At(f.state)[i].targets| && Behind(g, i, k)
      ensures Marked(searched, A.At(f.state)[i].targets[k])
    {
      assert Behind(f, i, k);
    }
  }

  /** No iterator stands beyond the end of its symbol post. */
  ghost predicate Placed(A: Nfa, f: Frame) {
    f.post <= |A.At(f.state)| && (f.post < |A.At(f.state)| ==> f.target <= |A.At(f.state)[f.post].targets|)
  }

  lemma LeftDrops(A: Nfa, f: Frame)
    requires Placed(A, f)
    ensures FrameLeft(A, f) > 0
    ensures AtMove(A, f) ==> FrameLeft(A, NextTarget(f)) < FrameLeft(A, f) && Placed(A, NextTarget(f))
    ensures f.post < |A.At(f.state)| && f.target == |A.At(f.state)[f.post].targets| ==>
              FrameLeft(A, Frame(f.state, f.post + 1, 0)) < FrameLeft(A, f) && Placed(A, Frame(f.state, f.post + 1, 0))
  {
    assert Left(A, f.state, |A.At(f.state)|) == 1;
  }

  /** The topmost frame of a search */
  lemma TopFrame(A: Nfa, searched: seq<bool>, work: seq<Frame>, f: Frame)
    requires Searching(A, searched, work + [f])
    ensures Marked(searched, f.state) && BehindSearched(A, searched, f) && f.post <= |A.At(f.state)| && |searched| == A.size
  {
    assert f in work + [f];
  }

  /** All frames below the topmost stand at moves. */
  lemma LowerFrames(A: Nfa, searched: seq<bool>, work: seq<Frame>, f: Frame)
    requires Searching(A, searched, work + [f]) && AtMove(A, f)
    ensures forall g <- work + [f] :: AtMove(A, g)
    ensures Chained(A, work + [f])
  {
    var w := work + [f];
    assert w[|work|] == f;
    forall g | g in w ensures AtMove(A, g) {
      var i :| 0 <= i < |w| && w[i] == g;
      if i < |w| - 1 { assert AtMove(A, w[i]) && TargetOf(A, w[i]) == w[i + 1].state; }
    }
  }

  /** One step of the search leads on: nothing is unmarked, and either a state has been marked or the
      iterators have moved. */
  ghost predicate Progress(A: Nfa, searched0: seq<bool>, work0: seq<Frame>, searched: seq<bool>, work: seq<Frame>) {
    && Searching(A, searched, work) && |searched| == |searched0|
    && (work != [] ==> Placed(A, work[|work| - 1]) && forall g <- work[..|work| - 1] :: AtMove(A, g))
    && (forall q | Marked(searched0, q) :: Marked(searched, q))
    && (work != [] && work0 != [] ==> work[0].state == work0[0].state)
    && (Unsearched(searched) < Unsearched(searched0)
        || (Unsearched(searched) == Unsearched(searched0) && TotalLeft(A, work) < TotalLeft(A, work0)))
  }

  /** The target `t` of the topmost frame is searched for the first time. */
  method Descend(A: Nfa, searched0: seq<bool>, rest: seq<Frame>, f: Frame, t: State) returns (searched: seq<bool>, work: seq<Frame>)
    requires Searching(A, searched0, rest + [f]) && AtMove(A, f) && TargetOf(A, f) == t && forall g <- rest :: AtMove(A, g)
    requires t < |searched0| && !searched0[t] && t !in A.final
    ensures Progress(A, searched0, rest + [f], searched, work)
  {
    hide Searching, Unsearched, TotalLeft, AtMove;
    MarkShrinks(searched0, t);
    searched := searched0[t := true];
    assert forall q | Marked(searched0, q) :: Marked(searched, q);
    assert Marked(searched, t);
    if A.At(t) != [] {
      assert (rest + [f])[|rest|] == f;
      PushFrame(A, searched0, rest + [f], t);
      work := rest + [f] + [Frame(t, 0, 0)];
      assert work[..|work| - 1] == rest + [f];
    } else {
      MarkDeadEnd(A, searched0, rest + [f], t);
      work := MoveOn(A, searched, rest, f);
    }
  }

  /** The current symbol post of the topmost frame is exhausted. */
  method NextPost(A: Nfa, searched: seq<bool>, rest: seq<Frame>, f: Frame) returns (work: seq<Frame>)
    requires Searching(A, searched, rest + [f]) && f.post < |A.At(f.state)| && f.target == |A.At(f.state)[f.post].targets|
    requires forall g <- rest :: AtMove(A, g)
    ensures Progress(A, searched, rest + [f], searched, work)
  {
    TopFrame(A, searched, rest, f);
    LeftDrops(A, f);
    hide Searching, Unsearched, TotalLeft, AtMove, FrameLeft, BehindSearched;
    TotalSnoc(A, rest, f);
    PostBehind(A, searched, f);
    var g := Frame(f.state, f.post + 1, 0);
    ReplaceTop(A, searched, rest, f, g);
    TotalSnoc(A, rest, g);
    work := rest + [g];
    assert work[..|work| - 1] == rest;
  }

  /** The topmost frame is exhausted: the frame below moves on. */
  method Ascend(A: Nfa, searched: seq<bool>, rest: seq<Frame>, f: Frame) returns (work: seq<Frame>)
    requires Searching(A, searched, rest + [f]) && f.post == |A.At(f.state)| && forall g <- rest :: AtMove(A, g)
    ensures Progress(A, searched, rest + [f], searched, work)
  {
    hide *;
    FrameWeight(A, searched, rest, f);
    PopFrame(A, searched, rest, f);
    if rest == [] {
      work := rest;
      assert rest + [f] == [f];
      LastPopped(A, searched, f);
    } else {
      var below, parent := rest[..|rest| - 1], rest[|rest| - 1];
      assert rest == below + [parent] && parent in rest;
      assert forall g | g in below :: g in rest;
      work := MoveOn(A, searched, below, parent);
      PoppedProgress(A, searched, below, parent, f, work);
    }
  }

  lemma FrameWeight(A: Nfa, searched: seq<bool>, rest: seq<Frame>, f: Frame)
    requires Searching(A, searched, rest + [f]) && f.post == |A.At(f.state)|
    ensures TotalLeft(A, rest) < TotalLeft(A, rest + [f]) && Marked(searched, f.state)
  {
    TopFrame(A, searched, rest, f);
    LeftDrops(A, f);
    TotalSnoc(A, rest, f);
  }

  lemma LastPopped(A: Nfa, searched: seq<bool>, f: Frame)
    requires Searching(A, searched, []) && TotalLeft(A, []) < TotalLeft(A, [f])
    ensures Progress(A, searched, [f], searched, [])
  {
    hide Searching, TotalLeft;
  }

  lemma PoppedProgress(A: Nfa, searched: seq<bool>, below: seq<Frame>, parent: Frame, f: Frame, work: seq<Frame>)
    requires work == below + [NextTarget(parent)] && Searching(A, searched, work) && forall g <- below :: AtMove(A, g)
    requires Placed(A, NextTarget(parent)) && TotalLeft(A, work) < TotalLeft(A, below + [parent]) < TotalLeft(A, below + [parent] + [f])
    requires work[..|work| - 1] == below && work[0].state == (below + [parent])[0].state
    ensures Progress(A, searched, below + [parent] + [f], searched, work)
  {
    hide Searching, TotalLeft, AtMove, Unsearched, Placed;
    assert (below + [parent] + [f])[0] == (below + [parent])[0];
  }

  /** One step of the search: the topmost frame `f` lies on `rest`. */
  method Advance(A: Nfa, searched0: seq<bool>, rest: seq<Frame>, f: Frame) returns (searched: seq<bool>, work: seq<Frame>)
    requires A.Valid() && Searching(A, searched0, rest + [f]) && Placed(A, f) && forall g <- rest :: AtMove(A, g)
    requires AtMove(A, f) ==> Marked(searched0, TargetOf(A, f)) || TargetOf(A, f) !in A.final
    ensures Progress(A, searched0, rest + [f], searched, work)
  {
    TopFrame(A, searched0, rest, f);
    hide Searching, BehindSearched, Nfa.Valid, Progress;
    searched := searched0;
    var post := A.At(f.state);
    if f.post < |post| {
      if f.target < |post[f.post].targets| {
        var t := TargetOf(A, f);
        TargetInRange(A, f.state, f.post, f.target);
        if searched[t] {
          work := MoveOn(A, searched, rest, f);
          MoveOnProgress(A, searched, rest, f, work);
        } else {
          searched, work := Descend(A, searched, rest, f, t);
        }
      } else {
        work := NextPost(A, searched, rest, f);
      }
    } else {
      work := Ascend(A, searched, rest, f);
    }
  }

  lemma MoveOnProgress(A: Nfa, searched: seq<bool>, rest: seq<Frame>, f: Frame, work: seq<Frame>)
    requires work == rest + [NextTarget(f)] && Searching(A, searched, work) && forall g <- rest :: AtMove(A, g)
    requires Placed(A, NextTarget(f)) && TotalLeft(A, work) < TotalLeft(A, rest + [f]) && work[..|work| - 1] == rest
    ensures Progress(A, searched, rest + [f], searched, work)
  {
    hide Searching, TotalLeft, AtMove, Unsearched;
  }

  /** The topmost frame moves past a searched target. */
  method MoveOn(A: Nfa, searched: seq<bool>, rest: seq<Frame>, f: Frame) returns (work: seq<Frame>)
    requires Searching(A, searched, rest + [f]) && AtMove(A, f) && Marked(searched, TargetOf(A, f))
    ensures work == rest + [NextTarget(f)] && Searching(A, searched, work)
    ensures Placed(A, NextTarget(f)) && TotalLeft(A, work) < TotalLeft(A, rest + [f]) && work[..|work| - 1] == rest
    ensures work[0].state == (rest + [f])[0].state
  {
    TopFrame(A, searched, rest, f);
    AdvanceBehind(A, searched, f);
    ReplaceTop(A, searched, rest, f, NextTarget(f));
    LeftDrops(A, f);
    TotalSnoc(A, rest, f);
    TotalSnoc(A, rest, NextTarget(f));
    work := rest + [NextTarget(f)];
  }

  /** Walk through the automaton from an initial state until a final target is met. */
  method SearchFrom(A: Nfa, searched0: seq<bool>, work0: seq<Frame>) returns (found: bool, searched: seq<bool>, work: seq<Frame>)
    requires A.Valid() && Searching(A, searched0, work0) && |work0| <= 1 && forall f <- work0 :: AtMove(A, f) && f.state in A.initial
    ensures forall q | Marked(searched0, q) :: Marked(searched, q)
    ensures found ==> (forall f <- work :: AtMove(A, f)) && Accepts(A, Symbols(A, work))
    ensures !found ==> work == [] && Searching(A, searched, [])
  {
    hide Searching, Marked, Unsearched, TotalLeft, AtMove, Nfa.Valid, Placed, Accepts;
    found, searched, work := false, searched0, work0;
    assert work != [] ==> Placed(A, work[0]) && work[..|work| - 1] == [] by { FirstPlaced(A, work); }
    while work != []
      invariant Searching(A, searched, work) && forall q | Marked(searched0, q) :: Marked(searched, q)
      invariant work != [] ==> Placed(A, work[|work| - 1]) && (forall g <- work[..|work| - 1] :: AtMove(A, g)) && work[0].state in A.initial
      decreases Unsearched(searched), TotalLeft(A, work)
    {
      var f, rest := work[|work| - 1], work[..|work| - 1];
      assert work == rest + [f];
      if AtMove(A, f) && !Marked(searched, TargetOf(A, f)) && TargetOf(A, f) in A.final {
        Found(A, searched, rest, f);
        return true, searched, work;
      }
      searched, work := Advance(A, searched, rest, f);
    }
  }

  lemma FirstPlaced(A: Nfa, work: seq<Frame>)
    requires |work| <= 1 && forall f <- work :: AtMove(A, f)
    ensures work != [] ==> Placed(A, work[0]) && work[..|work| - 1] == []
  {
    if work != [] { assert work[0] in work; }
  }

  lemma Found(A: Nfa, searched: seq<bool>, rest: seq<Frame>, f: Frame)
    requires Searching(A, searched, rest + [f]) && AtMove(A, f) && TargetOf(A, f) in A.final
    requires (rest + [f])[0].state in A.initial
    ensures (forall g <- rest + [f] :: AtMove(A, g)) && Accepts(A, Symbols(A, rest + [f]))
  {
    LowerFrames(A, searched, rest, f);
    FoundAccepts(A, rest + [f]);
  }

  /** `get_word`: a word of the automaton without its epsilons, or none just if the language is empty. */
  method GetWord(A: Nfa, firstEpsilon: Option<Symbol>) returns (r: Option<Word>)
    requires A.Valid()
    ensures r.None? <==> forall w: Word :: !Accepts(A, w)
    ensures r.Some? ==> exists w: Word :: Accepts(A, w) && r.value == if firstEpsilon.None? then w else Visible(w, firstEpsilon.value)
  {
    if A.initial == {} || A.final == {} {
      NoWord(A);
      return None;
    }
    if !(A.initial !! A.final) {
      EmptyWordAccepted(A);
      return Some([]);
    }
    var searched, work, found := seq(A.size, _ => false), [], false;
    var todo := A.initial;
    assert Searching(A, searched, []) by { NothingSearched(A, searched); }
    hide Searching, Accepts, AtMove;
    while todo != {}
      invariant todo <= A.initial && Searching(A, searched, []) && |searched| == A.size
      invariant forall q <- A.initial - todo :: Marked(searched, q)
    {
      var q: State :| q in todo;
      todo := todo - {q};
      if !searched[q] {
        searched, work := BeginAt(A, searched, q);
        found, searched, work := SearchFrom(A, searched, work);
        if found {
          var word := CollectWord(A, work, firstEpsilon);
          return Some(word);
        }
      }
      SearchingSize(A, searched);
    }
    forall w: Word ensures !Accepts(A, w) { NothingAccepted(A, searched, w); }
    r := None;
  }

  lemma SearchingSize(A: Nfa, searched: seq<bool>)
    requires Searching(A, searched, [])
    ensures |searched| == A.size
  {
  }

  lemma NothingSearched(A: Nfa, searched: seq<bool>)
    requires searched == seq(A.size, _ => false)
    ensures Searching(A, searched, [])
  {
  }

  lemma NothingAccepted(A: Nfa, searched: seq<bool>, w: Word)
    requires Searching(A, searched, []) && forall q <- A.initial :: Marked(searched, q)
    ensures !Accepts(A, w)
  {
    if Accepts(A, w) {
      var q :| q in A.initial && AcceptsFrom(A, q, w);
      NothingFrom(A, searched, q, w);
    }
  }

  lemma EmptyWordAccepted(A: Nfa)
    requires !(A.initial !! A.final)
    ensures Accepts(A, []) && forall e :: Visible([], e) == []
  {
    var q :| q in A.initial && q in A.final;
    assert AcceptsFrom(A, q, []);
  }

  /** Mark an initial state, which is not final, and put its first useful move on the stack. */
  method BeginAt(A: Nfa, searched0: seq<bool>, q: State) returns (searched: seq<bool>, work: seq<Frame>)
    requires A.Valid() && Searching(A, searched0, []) && q < |searched0| && !searched0[q] && q in A.initial && A.initial !! A.final
    ensures Searching(A, searched, work) && |work| <= 1 && forall f <- work :: AtMove(A, f) && f.state in A.initial
    ensures Marked(searched, q) && forall p | Marked(searched0, p) :: Marked(searched, p)
  {
    PushFrame(A, searched0, [], q);
    searched := searched0[q := true];
    assert [] + [Frame(q, 0, 0)] == [Frame(q, 0, 0)];
    SearchingFrameSize(A, searched, Frame(q, 0, 0));
    var f := FirstMove(A, searched, q);
    ReplaceTop(A, searched, [], Frame(q, 0, 0), f);
    assert [] + [f] == [f];
    if f.post < |A.At(q)| {
      work := [f];
    } else {
      PopFrame(A, searched, [], f);
      work := [];
    }
  }

  lemma SearchingFrameSize(A: Nfa, searched: seq<bool>, f: Frame)
    requires Searching(A, searched, [f])
    ensures |searched| == A.size
  {
  }

  /** The symbols on the stack that are not epsilons */
  method CollectWord(A: Nfa, work: seq<Frame>, firstEpsilon: Option<Symbol>) returns (word: Word)
    requires forall f <- work :: AtMove(A, f)
    ensures var w := Symbols(A, work); word == if firstEpsilon.None? then w else Visible(w, firstEpsilon.value)
  {
    hide AtMove, Symbols, SymbolOf, Visible;
    word := [];
    assert work[..0] == [];
    NothingCollected(A, firstEpsilon);
    for i := 0 to |work|
      invariant (forall f <- work[..i] :: AtMove(A, f)) && Collected(A, work[..i], firstEpsilon, word)
    {
      var f := work[i];
      assert f in work && work[..i + 1] == work[..i] + [f];
      CollectMore(A, work[..i], f, firstEpsilon, word);
      if firstEpsilon.None? || SymbolOf(A, f) < firstEpsilon.value {
        word := word + [SymbolOf(A, f)];
      }
    }
    assert work[..|work|] == work;
  }

  ghost predicate Collected(A: Nfa, work: seq<Frame>, firstEpsilon: Option<Symbol>, word: Word)
    requires forall f <- work :: AtMove(A, f)
  {
    word == if firstEpsilon.None? then Symbols(A, work) else Visible(Symbols(A, work), firstEpsilon.value)
  }

  lemma NothingCollected(A: Nfa, firstEpsilon: Option<Symbol>)
    ensures Collected(A, [], firstEpsilon, [])
  {
  }

  lemma CollectMore(A: Nfa, work: seq<Frame>, f: Frame, firstEpsilon: Option<Symbol>, word: Word)
    requires (forall g <- work + [f] :: AtMove(A, g)) && (forall g <- work :: AtMove(A, g)) && AtMove(A, f)
    requires Collected(A, work, firstEpsilon, word)
    ensures Collected(A, work + [f], firstEpsilon,
                      if firstEpsilon.None? || SymbolOf(A, f) < firstEpsilon.value then word + [SymbolOf(A, f)] else word)
  {
    assert (work + [f])[..|work|] == work;
    if firstEpsilon.Some? { VisibleSnoc(Symbols(A, work), SymbolOf(A, f), firstEpsilon.value); }
    hide AtMove, SymbolOf, Visible;
    assert word + [] == word;
  }
}
