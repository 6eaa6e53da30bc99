/** The iterative search for strongly connected components with the usefulness callbacks
    (tarjan_scc_discover and get_useful_states of src/nfa/nfa.cc). */
module TarjanSearch {
  import opened Automata
  import opened Counting
  import opened Graphs
  import opened Tarjan
  import opened TarjanComponents
  import opened TarjanUseful

  /** The variables of the search; the program stack is kept apart. */
  datatype Search = Search(nodes: Nodes, stack: seq<State>, count: nat, useful: seq<bool>, sccs: seq<seq<State>>)

  ghost predicate ReachedFrom(G: Graph, I: set<State>, v: State) {
    exists q :: q in I && Reach(G, q, v)
  }

  ghost predicate AllReached(G: Graph, I: set<State>, N: Nodes) {
    forall v: State | Seen(N, v) :: ReachedFrom(G, I, v)
  }

  /** What holds whenever the end of the path `D` is at work. */
  ghost predicate Running(G: Graph, I: set<State>, F: set<State>, K: Search, D: seq<State>) {
    && Searching(G, K.nodes, K.stack, K.count, D)
    && Flagged(G, F, K.nodes, K.useful)
    && HandedOut(G, K.nodes, K.sccs)
    && AllReached(G, I, K.nodes)
  }

  // ---------- Progress ----------

  ghost function White(N: Nodes): set<State> {
    set v: State | v in Below(|N|) && !Seen(N, v)
  }

  /** The moves that iterators have not passed. */
  ghost function Ahead(G: Graph, N: Nodes): set<(State, nat)> {
    set v: State, j: nat | v in Below(|G|) && j in Below(|G[v]|) && Pos(N, v) <= j :: (v, j)
  }

  lemma DiscoverShrinksWhite(N: Nodes, w: State, count: nat)
    requires w < |N| && !N[w].seen
    ensures White(Discovered(N, w, count)) < White(N)
  {
    assert w in White(N) && w !in White(Discovered(N, w, count));
  }

  lemma AdvanceShrinksAhead(G: Graph, N: Nodes, x: State, l: nat)
    requires |N| == |G| && x < |N| && N[x].pos < |G[x]|
    ensures White(Advanced(N, x, l)) == White(N) && Ahead(G, Advanced(N, x, l)) < Ahead(G, N)
  {
    var M := Advanced(N, x, l);
    assert forall v: State :: Seen(M, v) <==> Seen(N, v);
    assert forall v: State :: Pos(N, v) <= Pos(M, v);
    assert Pos(M, x) == Pos(N, x) + 1;
    hide Pos, Seen;
    assert (x, Pos(N, x)) in Ahead(G, N) && (x, Pos(N, x)) !in Ahead(G, M);
  }

  lemma CloseKeepsMeasure(G: Graph, N: Nodes, M: Nodes, V: set<State>)
    requires Closes(N, M, V)
    ensures White(M) == White(N) && Ahead(G, M) == Ahead(G, N)
  {
    hide Pos, Seen, Open, Closed, Index, Low;
  }

  // ---------- Steps ----------

  /** The beginning of the work on `w`: `state_discover` flags final states. */
  function Entered(K: Search, F: set<State>, w: State): Search
    requires w < |K.nodes| && w < |K.useful|
  {
    Search(Discovered(K.nodes, w, K.count), K.stack + [w], K.count + 1,
           if w in F then K.useful[w := true] else K.useful, K.sccs)
  }

  /** Passing an edge to a state seen before: `succ_state_discover` hands a flag back. */
  function Passed(K: Search, x: State, next: State): Search
    requires x < |K.nodes| && x < |K.useful| && next < |K.useful|
  {
    K.(nodes := Advanced(K.nodes, x, PassedLow(K.nodes, x, next)),
       useful := if K.useful[next] then K.useful[x := true] else K.useful)
  }

  /** Resuming `x` after the call for `c`. */
  function Returned(K: Search, x: State, c: State): Search
    requires x < |K.nodes|
  {
    K.(nodes := Advanced(K.nodes, x, ReturnedLow(K.nodes, x, c)))
  }

  lemma HandedOutKept(G: Graph, N: Nodes, M: Nodes, sccs: seq<seq<State>>)
    requires HandedOut(G, N, sccs) && forall v: State :: Closed(M, v) <==> Closed(N, v)
    ensures HandedOut(G, M, sccs)
  {
    hide Closed, Topological, Emitted;
  }

  lemma EnterReached(G: Graph, I: set<State>, N: Nodes, M: Nodes, D: seq<State>, w: State, count: nat)
    requires AllReached(G, I, N) && Discovers(G, N, M, w, count) && (forall d <- D :: Seen(N, d))
    requires if D == [] then w in I else CallsAt(G, N, D[|D| - 1], w)
    ensures AllReached(G, I, M)
  {
    if D == [] {
      ReachSelf(G, w);
      assert ReachedFrom(G, I, w);
    } else {
      var x := D[|D| - 1];
      assert ReachedFrom(G, I, x);
      var q :| q in I && Reach(G, q, x);
      ReachEdge(G, x, w);
      ReachTrans(G, q, x, w);
      assert ReachedFrom(G, I, w);
    }
    hide ReachedFrom, Open, Closed, Seen, Index, Low, Pos, Done, CallsAt;
  }

  lemma PathSeen(G: Graph, N: Nodes, T: seq<State>, count: nat, D: seq<State>)
    requires Searching(G, N, T, count, D)
    ensures |N| == |G| && forall d <- D :: Seen(N, d) && Open(N, d) && d < |N|
  {
    hide Finished, Scanned, ClosedKept, LeftReachDown, PathReachesUp, LowWitnessed, LowBounds, ValidGraph;
    forall d | d in D ensures Seen(N, d) && Open(N, d) && d < |N| {
      var i :| 0 <= i < |D| && D[i] == d;
      assert Open(N, D[i]);
    }
  }

  lemma Enter(G: Graph, I: set<State>, F: set<State>, K: Search, D: seq<State>, w: State)
    requires Running(G, I, F, K, D) && w < |K.nodes| && !K.nodes[w].seen
    requires if D == [] then w in I else CallsAt(G, K.nodes, D[|D| - 1], w)
    ensures w < |K.useful| && Running(G, I, F, Entered(K, F, w), D + [w])
    ensures White(Entered(K, F, w).nodes) < White(K.nodes)
  {
    hide Flagged, CallsAt, HandedOut, AllReached, Discovers, Searching, White;
    var N, M := K.nodes, Discovered(K.nodes, w, K.count);
    PathSeen(G, N, K.stack, K.count, D);
    DiscoverShrinksWhite(N, w, K.count);
    Discover(G, N, K.stack, K.count, D, w);
    DiscoverEffectOf(G, N, K.stack, K.count, D, w);
    assert |K.useful| == |N| by { FlagSize(G, F, N, K.useful); }
    DiscoverFlags(G, F, N, M, K.useful, w, K.count);
    assert forall v: State :: Closed(M, v) <==> Closed(N, v) by { DiscoverMarks(G, N, M, w, K.count); }
    HandedOutKept(G, N, M, K.sccs);
    EnterReached(G, I, N, M, D, w, K.count);
  }

  lemma DiscoverEffectOf(G: Graph, N: Nodes, T: seq<State>, count: nat, D: seq<State>, w: State)
    requires Searching(G, N, T, count, D) && w < |N| && !N[w].seen
    ensures Discovers(G, N, Discovered(N, w, count), w, count)
  {
    DiscoverEffect(G, N, T, D, count, w);
  }

  lemma DiscoverMarks(G: Graph, N: Nodes, M: Nodes, w: State, count: nat)
    requires Discovers(G, N, M, w, count)
    ensures forall v: State :: Closed(M, v) <==> Closed(N, v)
  {
  }

  lemma FlagSize(G: Graph, F: set<State>, N: Nodes, U: seq<bool>)
    requires Flagged(G, F, N, U)
    ensures |U| == |N|
  {
  }

  /** Whatever lowlink is set, advancing keeps the flags, components and origins right. */
  lemma Advance(G: Graph, I: set<State>, F: set<State>, K: Search, D: seq<State>, x: State, next: State, l: nat, raise: bool)
    requires |K.nodes| == |G| && x < |G| && Open(K.nodes, x) && Seen(K.nodes, x) && CallsAt(G, K.nodes, x, next)
    requires Flagged(G, F, K.nodes, K.useful) && HandedOut(G, K.nodes, K.sccs) && AllReached(G, I, K.nodes)
    requires raise ==> ReachesSet(G, F, x)
    requires Closed(K.nodes, next) && ReachesSet(G, F, next) ==> raise || exists z :: FlagAbove(K.nodes, K.useful, x, z)
    ensures |K.useful| == |G| && Flagged(G, F, Advanced(K.nodes, x, l), if raise then K.useful[x := true] else K.useful)
    ensures HandedOut(G, Advanced(K.nodes, x, l), K.sccs) && AllReached(G, I, Advanced(K.nodes, x, l))
    ensures White(Advanced(K.nodes, x, l)) == White(K.nodes) && Ahead(G, Advanced(K.nodes, x, l)) < Ahead(G, K.nodes)
  {
    var N, M := K.nodes, Advanced(K.nodes, x, l);
    AdvanceShrinksAhead(G, N, x, l);
    AdvanceEffect(G, N, x, next, l);
    hide Flagged, Advances, ReachesSet, Done, CallsAt, Topological;
    AdvanceFlags(G, F, N, M, K.useful, raise, x, next, l);
    assert |K.useful| == |G| by { FlagSize(G, F, N, K.useful); }
    assert forall v: State :: (Closed(M, v) <==> Closed(N, v)) && (Seen(M, v) <==> Seen(N, v));
    hide Advanced, Closed, Seen, Open, ReachedFrom;
    HandedOutKept(G, N, M, K.sccs);
  }

  /** Passing an edge to a seen state. */
  lemma PassEdge(G: Graph, I: set<State>, F: set<State>, K: Search, D: seq<State>, x: State, next: State)
    requires Running(G, I, F, K, D + [x]) && CallsAt(G, K.nodes, x, next) && Seen(K.nodes, next)
    ensures x < |K.nodes| && x < |K.useful| && next < |K.useful|
    ensures Running(G, I, F, Passed(K, x, next), D + [x])
    ensures White(Passed(K, x, next).nodes) == White(K.nodes) && Ahead(G, Passed(K, x, next).nodes) < Ahead(G, K.nodes)
  {
    hide Flagged, HandedOut, AllReached, ReachesSet, White, Ahead, CallsAt, Searching, Advanced, PassedLow;
    PathSeen(G, K.nodes, K.stack, K.count, D + [x]);
    assert x in D + [x];
    Pass(G, K.nodes, K.stack, K.count, D, x, next);
    PassRaises(G, F, K.nodes, K.useful, x, next);
    Advance(G, I, F, K, D, x, next, PassedLow(K.nodes, x, next), K.useful[next]);
  }

  lemma PassRaises(G: Graph, F: set<State>, N: Nodes, U: seq<bool>, x: State, next: State)
    requires Flagged(G, F, N, U) && CallsAt(G, N, x, next) && Seen(N, next)
    ensures next < |U| && (U[next] ==> ReachesSet(G, F, x))
    ensures Closed(N, next) && ReachesSet(G, F, next) ==> U[next]
  {
    hide ReachesSet;
    assert Edge(G, x, next);
    if Flag(U, next) { ReachesSetEdge(G, F, x, next); }
  }

  /** Leaving `c`, which is not the root of its component, for `x`. */
  lemma LeaveCall(G: Graph, I: set<State>, F: set<State>, K: Search, D: seq<State>, x: State, c: State)
    requires Running(G, I, F, K, D + [x] + [c]) && AtEnd(G, K.nodes, c) && Low(K.nodes, c) < Index(K.nodes, c)
    ensures x < |K.nodes| && CallsAt(G, K.nodes, x, c) && Running(G, I, F, Returned(K, x, c), D + [x])
    ensures White(Returned(K, x, c).nodes) == White(K.nodes) && Ahead(G, Returned(K, x, c).nodes) < Ahead(G, K.nodes)
  {
    hide Flagged, HandedOut, AllReached, ReachesSet, White, Ahead, CallsAt, Searching, Advanced, ReturnedLow, AtEnd;
    PathSeen(G, K.nodes, K.stack, K.count, D + [x] + [c]);
    assert x in D + [x] + [c] && c in D + [x] + [c];
    Leave(G, K.nodes, K.stack, K.count, D, x, c);
    Advance(G, I, F, K, D, x, c, ReturnedLow(K.nodes, x, c), false);
  }

  /** Handing out the component of `c` leaves the path `E`. */
  lemma CloseRun(G: Graph, I: set<State>, F: set<State>, K: Search, M: Nodes, T: seq<State>, S: seq<State>,
                 E: seq<State>, c: State, scc: seq<State>, U: seq<bool>)
    requires Running(G, I, F, K, E + [c]) && K.stack == T + [c] + S
    requires AtEnd(G, K.nodes, c) && Low(K.nodes, c) == Index(K.nodes, c) && Closes(K.nodes, M, Component(K.nodes, c))
    requires Distinct(scc) && Elements(scc) == Component(K.nodes, c)
    requires Spread(G, F, K.useful, U, Component(K.nodes, c), T)
    ensures Running(G, I, F, Search(M, T, K.count, U, K.sccs + [scc]), E)
    ensures White(M) == White(K.nodes) && Ahead(G, M) == Ahead(G, K.nodes)
    ensures ReachesSet(G, F, c) && T != [] ==> Flag(U, T[|T| - 1])
  {
    hide Searching, Flagged, HandedOut, Component, ReachesSet, Spread, AtEnd, Index, Low, White, Ahead, Distinct, Elements, Flag;
    Close(G, K.nodes, M, T, S, K.count, E, c);
    CloseFlags(G, F, K.nodes, M, T, S, K.count, E, c, K.useful, U);
    HandOut(G, K.nodes, M, K.stack, K.count, E, c, K.sccs, scc);
    CloseKeepsMeasure(G, K.nodes, M, Component(K.nodes, c));
    hide ReachedFrom, Seen, Open, Closed, Pos;
  }

  /** The root handed out keeps its lowlink, which is above that of the state that called it. */
  lemma RootIsHigher(G: Graph, I: set<State>, F: set<State>, K: Search, M: Nodes, E: seq<State>, x: State, c: State)
    requires Running(G, I, F, K, E + [x] + [c]) && Low(K.nodes, c) == Index(K.nodes, c)
    requires Closes(K.nodes, M, Component(K.nodes, c))
    ensures Low(M, x) <= Low(M, c) && Closed(M, c) && CallsAt(G, M, x, c)
  {
    hide Flagged, HandedOut, AllReached;
    hide Stacked, Finished, Scanned, ClosedKept, LeftReachDown, PathReachesUp, LowBounds, ValidGraph, LowWitnessed;
    var D := E + [x] + [c];
    assert D[|E|] == x && D[|E| + 1] == c && CallsAt(G, K.nodes, D[|E|], D[|E| + 1]);
    assert Open(K.nodes, D[|E|]) && Open(K.nodes, D[|E| + 1]);
    assert Index(K.nodes, x) < Index(K.nodes, c);
    hide OnPath;
    var y := LowWitness(G, K.nodes, x);
    CloseDone(G, K.nodes, M, Component(K.nodes, c));
    hide Open, Seen, Closed, Pos, Index, Low, CallsAt, LeadsTo;
  }

  /** Resuming `x` after its call for `c` has handed out `c`'s component. */
  lemma ReturnFromClosed(G: Graph, I: set<State>, F: set<State>, K: Search, E: seq<State>, x: State, c: State)
    requires Running(G, I, F, K, E + [x]) && CallsAt(G, K.nodes, x, c) && Closed(K.nodes, c) && Low(K.nodes, x) <= Low(K.nodes, c)
    requires ReachesSet(G, F, c) && K.stack != [] ==> Flag(K.useful, K.stack[|K.stack| - 1])
    ensures x < |K.nodes| && Running(G, I, F, Returned(K, x, c), E + [x])
    ensures White(Returned(K, x, c).nodes) == White(K.nodes) && Ahead(G, Returned(K, x, c).nodes) < Ahead(G, K.nodes)
  {
    hide Flagged, HandedOut, AllReached, ReachesSet, White, Ahead, CallsAt, Searching, Advanced, Stacked, Low, Index, Flag;
    assert PassedLow(K.nodes, x, c) == ReturnedLow(K.nodes, x, c);
    hide PassedLow, ReturnedLow;
    PathSeen(G, K.nodes, K.stack, K.count, E + [x]);
    assert x in E + [x];
    SearchingStacked(G, K.nodes, K.stack, K.count, E + [x]);
    TopIsHighest(K.nodes, K.stack, K.count, x);
    assert ReachesSet(G, F, c) ==> FlagAbove(K.nodes, K.useful, x, K.stack[|K.stack| - 1]);
    Pass(G, K.nodes, K.stack, K.count, E, x, c);
    Advance(G, I, F, K, E, x, c, ReturnedLow(K.nodes, x, c), false);
  }

  // ---------- The inner loops ----------

  /** Go through the moves of `x` up to one that leads to an undiscovered state. */
  method ScanMoves(G: Graph, ghost I: set<State>, ghost F: set<State>, K0: Search, ghost D: seq<State>, x: State)
    returns (K: Search, call: bool, next: State)
    requires Running(G, I, F, K0, D + [x])
    ensures Running(G, I, F, K, D + [x])
    ensures White(K.nodes) == White(K0.nodes) && Ahead(G, K.nodes) <= Ahead(G, K0.nodes)
    ensures call ==> next < |K.nodes| && !K.nodes[next].seen && CallsAt(G, K.nodes, x, next)
    ensures !call ==> AtEnd(G, K.nodes, x)
  {
    hide Running, White, Ahead, CallsAt, Passed;
    K, call, next := K0, false, 0;
    ScanBounds(G, I, F, K, D, x);
    while K.nodes[x].pos != |G[x]|
      invariant |K.nodes| == |G| && x < |G| && K.nodes[x].pos <= |G[x]|
      invariant Running(G, I, F, K, D + [x])
      invariant White(K.nodes) == White(K0.nodes) && Ahead(G, K.nodes) <= Ahead(G, K0.nodes)
      decreases Ahead(G, K.nodes)
    {
      next := G[x][K.nodes[x].pos];
      NextIsVertex(G, I, F, K, D, x);
      if !K.nodes[next].seen {
        call := true;
        return;
      }
      PassEdge(G, I, F, K, D, x, next);
      K := Passed(K, x, next);
      ScanBounds(G, I, F, K, D, x);
    }
  }

  lemma ScanBounds(G: Graph, I: set<State>, F: set<State>, K: Search, D: seq<State>, x: State)
    requires Running(G, I, F, K, D + [x])
    ensures |K.nodes| == |G| == |K.useful| && x < |G| && K.nodes[x].pos <= |G[x]|
  {
    PathSeen(G, K.nodes, K.stack, K.count, D + [x]);
    assert x in D + [x];
    FlagSize(G, F, K.nodes, K.useful);
    hide Stacked, OnPath, Scanned, ClosedKept, LeftReachDown, PathReachesUp, LowBounds, LowWitnessed, Flagged, HandedOut, AllReached;
  }

  lemma NextIsVertex(G: Graph, I: set<State>, F: set<State>, K: Search, D: seq<State>, x: State)
    requires Running(G, I, F, K, D + [x]) && x < |K.nodes| && x < |G| && K.nodes[x].pos < |G[x]|
    ensures CallsAt(G, K.nodes, x, G[x][K.nodes[x].pos]) && G[x][K.nodes[x].pos] < |K.nodes|
  {
    hide Stacked, OnPath, Finished, Scanned, ClosedKept, LeftReachDown, PathReachesUp, LowBounds, LowWitnessed, Flagged, HandedOut, AllReached;
    assert G[x][K.nodes[x].pos] in G[x];
  }

  lemma StackSplit(N: Nodes, T: seq<State>, S: seq<State>, count: nat, c: State)
    requires Stacked(N, T + [c] + S, count)
    ensures Elements([c] + S) == Component(N, c) && Distinct(T + [c] + S)
    ensures forall v <- T + [c] + S :: Open(N, v) && Seen(N, v)
  {
    hide Open, Seen, Index;
    forall v: State ensures v in [c] + S <==> Open(N, v) && Index(N, c) <= Index(N, v) {
      StackPlace(N, T, S, count, c, v);
    }
  }

  /** On the stack, from the root on, are the open states discovered no earlier. */
  lemma StackPlace(N: Nodes, T: seq<State>, S: seq<State>, count: nat, c: State, v: State)
    requires Stacked(N, T + [c] + S, count)
    ensures v in [c] + S <==> Open(N, v) && Index(N, c) <= Index(N, v)
  {
    hide Open, Seen, Index;
    var R := T + [c] + S;
    assert R[|T|] == c && R == T + ([c] + S);
    if v in T {
      var i :| 0 <= i < |T| && T[i] == v;
      assert R[i] == v;
    }
    if v in S {
      var i :| 0 <= i < |S| && S[i] == v;
      assert R[|T| + 1 + i] == v;
    }
  }

  lemma ClosesSnoc(N: Nodes, M: Nodes, R: seq<State>, v: State)
    requires Closes(N, M, Elements(R)) && v < |N| && Seen(N, v)
    ensures v < |M| && Closes(N, M[v := M[v].(open := false)], Elements([v] + R))
  {
    assert forall u: State :: u in Elements([v] + R) <==> u == v || u in Elements(R);
    hide Elements;
  }

  lemma NothingCloses(N: Nodes)
    ensures Closes(N, N, Elements([]))
  {
  }

  /** Take states off the Tarjan stack until `c` has been taken off. */
  method PopComponent(N: Nodes, stack0: seq<State>, U: seq<bool>, c: State, ghost T: seq<State>, ghost S: seq<State>, ghost count: nat)
    returns (M: Nodes, stack: seq<State>, scc: seq<State>, finalScc: bool)
    requires Stacked(N, stack0, count) && stack0 == T + [c] + S && |U| == |N|
    ensures stack == T && Closes(N, M, Component(N, c))
    ensures Distinct(scc) && Elements(scc) == Component(N, c)
    ensures finalScc <==> exists v :: v in Component(N, c) && Flag(U, v)
  {
    hide Stacked, Closes, Component, Open, Seen;
    M, stack, scc, finalScc := N, stack0, [], false;
    StackSplit(N, T, S, count, c);
    NothingCloses(N);
    assert stack0[|T|] == c;
    ghost var R: seq<State> := [];
    var more := true;
    while more
      invariant stack0 == stack + R && |stack| >= |T| && (more <==> |stack| > |T|)
      invariant |M| == |N| && Closes(N, M, Elements(R))
      invariant Distinct(scc) && Elements(scc) == Elements(R)
      invariant finalScc <==> exists v :: v in Elements(R) && Flag(U, v)
      decreases |stack|
    {
      var st := stack[|stack| - 1];
      assert st == stack0[|stack| - 1] && stack == stack[..|stack| - 1] + [st];
      assert Open(N, st) && Seen(N, st) && st < |N| by { OpenIsNode(N, stack0, st); }
      ClosesSnoc(N, M, R, st);
      assert st !in R by { NotAbove(stack0, stack, R); }
      stack := stack[..|stack| - 1];
      M := M[st := M[st].(open := false)];
      if U[st] { finalScc := true; }
      DistinctSnoc(scc, st);
      assert st !in Elements(R);
      ElementsSplit(scc, R, st);
      assert Flag(U, st) <==> U[st];
      hide Elements, Flag;
      scc := scc + [st];
      R := [st] + R;
      more := st != c;
    }
    assert stack == stack0[..|T|] && stack0[..|T|] == T;
    assert R == stack0[|T|..] && stack0[|T|..] == [c] + S;
  }

  lemma ElementsSplit(s: seq<State>, R: seq<State>, x: State)
    ensures Elements(s + [x]) == Elements(s) + {x} && Elements([x] + R) == Elements(R) + {x}
  {
  }

  lemma NotAbove(s: seq<State>, stack: seq<State>, R: seq<State>)
    requires Distinct(s) && s == stack + R && stack != []
    ensures stack[|stack| - 1] !in R
  {
    var i := |stack| - 1;
    assert s[i] == stack[i];
    forall j | 0 <= j < |R| ensures R[j] != stack[i] {
      assert s[|stack| + j] == R[j];
    }
  }

  lemma OpenIsNode(N: Nodes, s: seq<State>, v: State)
    requires (forall u <- s :: Open(N, u) && Seen(N, u)) && v in s
    ensures Open(N, v) && Seen(N, v) && v < |N|
  {
  }

  /** The callback `scc_discover`: flag the component and the stack down to the first flagged state. */
  method SpreadFlags(ghost G: Graph, ghost F: set<State>, U0: seq<bool>, scc: seq<State>, finalScc: bool, T: seq<State>)
    returns (U: seq<bool>)
    requires (forall v <- scc :: v < |U0|) && (forall v <- T :: v < |U0|)
    requires finalScc <==> exists v :: v in Elements(scc) && Flag(U0, v)
    ensures Spread(G, F, U0, U, Elements(scc), T)
  {
    U := U0;
    if finalScc {
      for i := 0 to |scc|
        invariant |U| == |U0|
        invariant forall v: State :: Flag(U, v) <==> Flag(U0, v) || v in scc[..i]
      {
        assert scc[i] in scc && scc[..i + 1] == scc[..i] + [scc[i]];
        U := U[scc[i] := true];
      }
      assert scc[..|scc|] == scc;
      ghost var U1 := U;
      var k := |T|;
      assert forall i | 0 <= i < |T| :: T[i] in T;
      while k > 0 && !U[T[k - 1]]
        invariant 0 <= k <= |T| && |U| == |U0|
        invariant forall v: State | Flag(U1, v) :: Flag(U, v)
        invariant forall v: State | Flag(U, v) :: Flag(U1, v) || v in T
        invariant k < |T| ==> Flag(U, T[|T| - 1])
        invariant forall i | 0 <= i < |T| :: T[i] < |U|
      {
        assert T[k - 1] in T;
        U := U[T[k - 1] := true];
        k := k - 1;
      }
    }
  }

  // ---------- The main loop ----------

  /** The end of the path `D` waits for its call for `c`, which has ended. */
  ghost predicate AwaitsReturn(G: Graph, I: set<State>, F: set<State>, K: Search, D: seq<State>, c: State) {
    && D != [] && Open(K.nodes, D[|D| - 1]) && CallsAt(G, K.nodes, D[|D| - 1], c)
    && Running(G, I, F, Returned(K, D[|D| - 1], c), D)
    && White(Returned(K, D[|D| - 1], c).nodes) == White(K.nodes)
    && Ahead(G, Returned(K, D[|D| - 1], c).nodes) < Ahead(G, K.nodes)
  }

  /** The first state of a path is the root of its component. */
  lemma FirstIsRoot(G: Graph, I: set<State>, F: set<State>, K: Search, c: State)
    requires Running(G, I, F, K, [c])
    ensures Low(K.nodes, c) == Index(K.nodes, c)
  {
    PathSeen(G, K.nodes, K.stack, K.count, [c]);
    hide Flagged, HandedOut, AllReached, Stacked, Finished, Scanned, ClosedKept, PathReachesUp, LowBounds, ValidGraph, OnPath;
    assert c in [c];
    hide LeftReachDown;
    var y := LowWitness(G, K.nodes, c);
    hide LowWitnessed;
    var d := ReachesPath(G, K.nodes, [c], y);
  }

  lemma RootOrLower(G: Graph, I: set<State>, F: set<State>, K: Search, D: seq<State>, c: State)
    requires Running(G, I, F, K, D + [c])
    ensures Low(K.nodes, c) <= Index(K.nodes, c) && Stacked(K.nodes, K.stack, K.count) && c in K.stack && |K.useful| == |K.nodes|
    ensures c < |K.nodes|
  {
    PathSeen(G, K.nodes, K.stack, K.count, D + [c]);
    assert c in D + [c];
    FlagSize(G, F, K.nodes, K.useful);
    hide Flagged, HandedOut, AllReached, Finished, Scanned, ClosedKept, PathReachesUp, LowBounds, ValidGraph, OnPath, LeftReachDown;
    var y := LowWitness(G, K.nodes, c);
  }

  /** All successors of `c` have been processed: hand out its component if it is the root. */
  method FinishState(G: Graph, ghost I: set<State>, ghost F: set<State>, K0: Search, ghost E: seq<State>, c: State) returns (K: Search)
    requires Running(G, I, F, K0, E + [c]) && AtEnd(G, K0.nodes, c) && c < |K0.nodes|
    ensures E == [] ==> Running(G, I, F, K, [])
    ensures E != [] ==> AwaitsReturn(G, I, F, K, E, c)
    ensures White(K.nodes) == White(K0.nodes) && Ahead(G, K.nodes) == Ahead(G, K0.nodes)
    ensures forall v: State :: Seen(K.nodes, v) <==> Seen(K0.nodes, v)
  {
    hide Running, White, Ahead, Returned, CallsAt, AwaitsReturn, AtEnd, Stacked, Seen;
    K := K0;
    RootOrLower(G, I, F, K, E, c);
    if E == [] {
      assert E + [c] == [c];
      FirstIsRoot(G, I, F, K, c);
    }
    if K.nodes[c].low == K.nodes[c].index {
      K := HandOutComponent(G, I, F, K, E, c);
    } else {
      assert E == E[..|E| - 1] + [E[|E| - 1]];
      FinishLower(G, I, F, K, E[..|E| - 1], E[|E| - 1], c);
    }
  }

  lemma RunPathSeen(G: Graph, I: set<State>, F: set<State>, K: Search, D: seq<State>)
    requires Running(G, I, F, K, D)
    ensures |K.nodes| == |G| && forall d <- D :: Seen(K.nodes, d) && Open(K.nodes, d) && d < |K.nodes|
  {
    hide Searching, Flagged, HandedOut, AllReached;
    PathSeen(G, K.nodes, K.stack, K.count, D);
  }

  lemma FinishLower(G: Graph, I: set<State>, F: set<State>, K: Search, E: seq<State>, x: State, c: State)
    requires Running(G, I, F, K, E + [x] + [c]) && AtEnd(G, K.nodes, c) && Low(K.nodes, c) < Index(K.nodes, c)
    ensures AwaitsReturn(G, I, F, K, E + [x], c)
  {
    hide Running, White, Ahead, Returned, CallsAt, AtEnd, Low, Index;
    LeaveCall(G, I, F, K, E, x, c);
    RunPathSeen(G, I, F, K, E + [x] + [c]);
    assert x in E + [x] + [c];
  }

  lemma FinishRoot(G: Graph, I: set<State>, F: set<State>, K0: Search, K: Search, E: seq<State>, x: State, c: State)
    requires Running(G, I, F, K0, E + [x] + [c]) && Low(K0.nodes, c) == Index(K0.nodes, c)
    requires Closes(K0.nodes, K.nodes, Component(K0.nodes, c)) && Running(G, I, F, K, E + [x])
    requires ReachesSet(G, F, c) && K.stack != [] ==> Flag(K.useful, K.stack[|K.stack| - 1])
    ensures AwaitsReturn(G, I, F, K, E + [x], c)
  {
    hide Running, White, Ahead, Returned, CallsAt, Low, Index, Closes, Component, Flag, ReachesSet;
    RootIsHigher(G, I, F, K0, K.nodes, E, x, c);
    ReturnFromClosed(G, I, F, K, E, x, c);
    RunPathSeen(G, I, F, K, E + [x]);
    assert x in E + [x];
  }

  method HandOutComponent(G: Graph, ghost I: set<State>, ghost F: set<State>, K0: Search, ghost E: seq<State>, c: State) returns (K: Search)
    requires Running(G, I, F, K0, E + [c]) && AtEnd(G, K0.nodes, c) && Low(K0.nodes, c) == Index(K0.nodes, c)
    requires c < |K0.nodes| && Stacked(K0.nodes, K0.stack, K0.count) && c in K0.stack && |K0.useful| == |K0.nodes|
    ensures E == [] ==> Running(G, I, F, K, [])
    ensures E != [] ==> AwaitsReturn(G, I, F, K, E, c)
    ensures White(K.nodes) == White(K0.nodes) && Ahead(G, K.nodes) == Ahead(G, K0.nodes)
    ensures forall v: State :: Seen(K.nodes, v) <==> Seen(K0.nodes, v)
  {
    hide *;
    ghost var T, S := SplitAt(K0.stack, c);
    StackSplit(K0.nodes, T, S, K0.count, c);
    var nodes, stack, scc, finalScc := PopComponent(K0.nodes, K0.stack, K0.useful, c, T, S, K0.count);
    StackInRange(K0.nodes, T, S, c, scc);
    var useful := SpreadFlags(G, F, K0.useful, scc, finalScc, stack);
    CloseRun(G, I, F, K0, nodes, T, S, E, c, scc, useful);
    K := Search(nodes, stack, K0.count, useful, K0.sccs + [scc]);
    assert forall v: State :: Seen(K.nodes, v) <==> Seen(K0.nodes, v) by { ClosesSeen(K0.nodes, nodes, Component(K0.nodes, c)); }
    if E != [] {
      assert E == E[..|E| - 1] + [E[|E| - 1]];
      FinishRoot(G, I, F, K0, K, E[..|E| - 1], E[|E| - 1], c);
    }
  }

  lemma ClosesSeen(N: Nodes, M: Nodes, V: set<State>)
    requires Closes(N, M, V)
    ensures forall v: State :: Seen(M, v) <==> Seen(N, v)
  {
  }

  lemma SplitAt(s: seq<State>, c: State) returns (T: seq<State>, S: seq<State>)
    requires c in s
    ensures s == T + [c] + S
  {
    var i :| 0 <= i < |s| && s[i] == c;
    T, S := s[..i], s[i + 1..];
  }

  lemma StackInRange(N: Nodes, T: seq<State>, S: seq<State>, c: State, scc: seq<State>)
    requires (forall v <- T + [c] + S :: Open(N, v) && Seen(N, v)) && Elements(scc) == Elements([c] + S)
    ensures (forall v <- scc :: v < |N|) && (forall v <- T :: v < |N|)
  {
    forall v | v in scc ensures v < |N| {
      assert v in Elements(scc) && v in Elements([c] + S);
      assert v in T + [c] + S;
    }
    forall v | v in T ensures v < |N| {
      assert v in T + [c] + S;
    }
  }

  datatype Phase = Idle | Called | Returning

  /** The program stack at the head of the main loop: initial states still to be looked at, the
      path, and the state called for, if any. */
  ghost predicate AtHead(G: Graph, I: set<State>, F: set<State>, K: Search, program: seq<State>,
                         base: seq<State>, D: seq<State>, phase: Phase) {
    && |K.nodes| == |G|
    && (forall q <- base :: q in I) && (forall q <- I :: q in base || Seen(K.nodes, q))
    && match phase
       case Idle => D == [] && program == base && Running(G, I, F, K, [])
       case Called =>
         && D != [] && program != [] && program == base + D + [program[|program| - 1]] && Running(G, I, F, K, D)
         && CallsAt(G, K.nodes, D[|D| - 1], program[|program| - 1]) && !Seen(K.nodes, program[|program| - 1])
         && program[|program| - 1] < |G|
       case Returning =>
         && D != [] && program == base + D && D[|D| - 1] < |G| && K.nodes[D[|D| - 1]].pos < |G[D[|D| - 1]]|
         && AwaitsReturn(G, I, F, K, D, G[D[|D| - 1]][K.nodes[D[|D| - 1]].pos])
  }

  /** No state is open while no path is searched. */
  lemma IdleNoneOpen(G: Graph, I: set<State>, F: set<State>, K: Search, v: State)
    requires Running(G, I, F, K, [])
    ensures !Open(K.nodes, v)
  {
    hide Flagged, HandedOut, AllReached, Stacked, Finished, Scanned, ClosedKept, PathReachesUp, LowBounds, ValidGraph, OnPath, LeftReachDown, LowWitnessed;
    if Open(K.nodes, v) {
      var d := ReachesPath(G, K.nodes, [], v);
    }
  }

  /** What the node of the topmost state tells about the phase. */
  lemma HeadTop(G: Graph, I: set<State>, F: set<State>, K: Search, program: seq<State>, base: seq<State>, D: seq<State>, phase: Phase)
    requires AtHead(G, I, F, K, program, base, D, phase) && program != []
    ensures phase.Returning? ==> Open(K.nodes, program[|program| - 1]) && Seen(K.nodes, program[|program| - 1])
    ensures phase.Called? ==> !Seen(K.nodes, program[|program| - 1])
    ensures phase.Idle? ==> !Open(K.nodes, program[|program| - 1])
  {
    hide Running, CallsAt, AwaitsReturn;
    if phase.Returning? {
      assert program[|program| - 1] == D[|D| - 1];
      AwaitsSeen(G, I, F, K, D, G[D[|D| - 1]][K.nodes[D[|D| - 1]].pos]);
    }
    if phase.Idle? { IdleNoneOpen(G, I, F, K, program[|program| - 1]); }
  }

  /** An initial state that has been dealt with is skipped. */
  lemma HeadSkip(G: Graph, I: set<State>, F: set<State>, K: Search, program: seq<State>, base: seq<State>, D: seq<State>, phase: Phase)
    requires AtHead(G, I, F, K, program, base, D, phase) && program != [] && Closed(K.nodes, program[|program| - 1])
    ensures base != [] && AtHead(G, I, F, K, program[..|program| - 1], base[..|base| - 1], D, phase)
  {
    hide Running, CallsAt, AwaitsReturn;
    var n := |program| - 1;
    HeadTop(G, I, F, K, program, base, D, phase);
    assert phase.Idle?;
    assert base == base[..n] + [base[n]];
  }

  /** The state on top of the program stack is new: its work begins. */
  lemma HeadEnter(G: Graph, I: set<State>, F: set<State>, K: Search, program: seq<State>, base: seq<State>, D: seq<State>, phase: Phase)
    returns (base': seq<State>, D': seq<State>)
    requires AtHead(G, I, F, K, program, base, D, phase) && program != [] && program[|program| - 1] < |G| && !Seen(K.nodes, program[|program| - 1])
    ensures var act := program[|program| - 1];
            && act < |K.nodes| && act < |K.useful| && program == base' + D' + [act] && Running(G, I, F, Entered(K, F, act), D' + [act])
            && White(Entered(K, F, act).nodes) < White(K.nodes)
            && (forall q <- base' :: q in I) && (forall q <- I :: q in base' || Seen(Entered(K, F, act).nodes, q))
  {
    hide Running, CallsAt, AwaitsReturn, White;
    var n := |program| - 1;
    var act := program[n];
    HeadTop(G, I, F, K, program, base, D, phase);
    assert program == program[..n] + [act];
    if phase.Idle? {
      base', D' := base[..n], [];
    } else {
      base', D' := base, D;
    }
    Enter(G, I, F, K, D', act);
    var M := Entered(K, F, act).nodes;
    assert forall v: State :: Seen(M, v) <==> Seen(K.nodes, v) || v == act;
    hide Entered;
  }

  lemma AwaitsSeen(G: Graph, I: set<State>, F: set<State>, K: Search, D: seq<State>, c: State)
    requires AwaitsReturn(G, I, F, K, D, c)
    ensures D != [] && Seen(K.nodes, D[|D| - 1]) && Open(K.nodes, D[|D| - 1])
  {
    hide Running, CallsAt, White, Ahead;
    RunPathSeen(G, I, F, Returned(K, D[|D| - 1], c), D);
    assert D[|D| - 1] in D;
  }

  /** The state on top of the program stack is open: its call has ended. */
  lemma HeadReturn(G: Graph, I: set<State>, F: set<State>, K: Search, program: seq<State>, base: seq<State>, D: seq<State>, phase: Phase)
    requires AtHead(G, I, F, K, program, base, D, phase) && program != [] && Open(K.nodes, program[|program| - 1]) && Seen(K.nodes, program[|program| - 1])
    ensures var act := program[|program| - 1];
            && act < |G| && act < |K.nodes| && K.nodes[act].pos < |G[act]| && D != [] && D == D[..|D| - 1] + [act] && program == base + D
            && Running(G, I, F, Returned(K, act, G[act][K.nodes[act].pos]), D)
            && White(Returned(K, act, G[act][K.nodes[act].pos]).nodes) == White(K.nodes)
            && Ahead(G, Returned(K, act, G[act][K.nodes[act].pos]).nodes) < Ahead(G, K.nodes)
            && (forall q <- base :: q in I) && (forall q <- I :: q in base || Seen(Returned(K, act, G[act][K.nodes[act].pos]).nodes, q))
  {
    hide Running, CallsAt, White, Ahead;
    var n := |program| - 1;
    var act := program[n];
    HeadTop(G, I, F, K, program, base, D, phase);
    assert act == D[|D| - 1];
    var M := Returned(K, act, G[act][K.nodes[act].pos]).nodes;
    assert forall v: State :: Seen(M, v) <==> Seen(K.nodes, v);
    hide Returned, AtHead;
  }

  lemma ScanKeepsSeen(G: Graph, N: Nodes, M: Nodes)
    requires White(M) == White(N) && |M| == |N|
    ensures forall v: State :: Seen(M, v) <==> Seen(N, v)
  {
    forall v: State ensures Seen(M, v) <==> Seen(N, v) {
      assert v in White(M) <==> v in White(N);
    }
  }

  /** The path has been scanned up to a call, or to its end: the next turn of the main loop. */
  lemma HeadCall(G: Graph, I: set<State>, F: set<State>, K: Search, base: seq<State>, D: seq<State>, next: State)
    requires Running(G, I, F, K, D) && D != [] && (forall q <- base :: q in I) && (forall q <- I :: q in base || Seen(K.nodes, q))
    requires CallsAt(G, K.nodes, D[|D| - 1], next) && next < |K.nodes| && !K.nodes[next].seen
    ensures AtHead(G, I, F, K, base + D + [next], base, D, Called)
  {
    hide Running, CallsAt;
    RunPathSeen(G, I, F, K, D);
    assert (base + D + [next])[|base + D|] == next;
  }

  lemma HeadFinish(G: Graph, I: set<State>, F: set<State>, K: Search, base: seq<State>, E: seq<State>, c: State)
    requires |K.nodes| == |G| && (forall q <- base :: q in I) && (forall q <- I :: q in base || Seen(K.nodes, q))
    requires if E == [] then Running(G, I, F, K, []) else AwaitsReturn(G, I, F, K, E, c)
    ensures AtHead(G, I, F, K, base + E, base, E, if E == [] then Idle else Returning)
  {
    hide Running, White, Ahead;
    assert E == [] ==> base + E == base;
  }

  lemma HeadStart(G: Graph, initial: seq<State>, F: set<State>, K: Search)
    requires ValidGraph(G) && |K.nodes| == |K.useful| == |G| && K.stack == [] && K.sccs == []
    requires (forall v | 0 <= v < |G| :: K.nodes[v] == Node(0, 0, 0, false, false)) && (forall v | 0 <= v < |G| :: !K.useful[v])
    ensures AtHead(G, Elements(initial), F, K, initial, initial, [], Idle)
  {
    hide Edge, Reach, ReachesSet, ReachedFrom;
    assert forall v: State :: !Open(K.nodes, v) && !Seen(K.nodes, v) && !Closed(K.nodes, v) && Pos(K.nodes, v) == 0 && !Flag(K.useful, v);
    hide Open, Seen, Closed, Pos, Flag;
  }

  lemma ClosedAtEnd(G: Graph, I: set<State>, N: Nodes)
    requires |N| == |G| && ClosedKept(G, N) && AllReached(G, I, N) && (forall v: State :: !Open(N, v)) && forall q <- I :: Seen(N, q)
    ensures forall v: State :: Closed(N, v) <==> ReachedFrom(G, I, v)
    ensures forall v: State :: Closed(N, v) <==> Seen(N, v)
  {
    forall v: State ensures Closed(N, v) <==> Seen(N, v) { assert !Open(N, v); }
    var C := set v: State | v in Below(|G|) && Closed(N, v);
    assert forall v: State :: v in C <==> Closed(N, v);
    hide Closed, Seen, Open, Edge, Reach;
    assert ClosedUnder(G, C);
    hide ClosedUnder;
    forall v: State | ReachedFrom(G, I, v) ensures Closed(N, v) {
      var q :| q in I && Reach(G, q, v);
      ReachStays(G, C, q, v);
    }
  }

  /** Everything reachable has been handed out when the program stack is empty. */
  lemma SearchEnds(G: Graph, I: set<State>, F: set<State>, K: Search, base: seq<State>, D: seq<State>, phase: Phase)
    requires AtHead(G, I, F, K, [], base, D, phase)
    ensures forall v: State :: Closed(K.nodes, v) <==> ReachedFrom(G, I, v)
    ensures forall v: State :: Flag(K.useful, v) <==> ReachedFrom(G, I, v) && ReachesSet(G, F, v)
    ensures HandedOut(G, K.nodes, K.sccs) && |K.useful| == |G|
  {
    hide Searching, HandedOut, FlagsSound, FlagsComplete, FlagsWitnessed, AwaitsReturn, CallsAt, ReachedFrom, ReachesSet, AllReached, Open, Closed, Seen, Flag;
    assert phase.Idle? && base == [] && Running(G, I, F, K, []);
    forall v: State ensures !Open(K.nodes, v) { IdleNoneOpen(G, I, F, K, v); }
    assert ClosedKept(G, K.nodes) by { SearchingClosedKept(G, K.nodes, K.stack, K.count, []); }
    ClosedAtEnd(G, I, K.nodes);
    FlagsAtEnd(G, F, K.nodes, K.useful);
  }

  lemma FlagsAtEnd(G: Graph, F: set<State>, N: Nodes, U: seq<bool>)
    requires Flagged(G, F, N, U) && forall v: State :: Closed(N, v) <==> Seen(N, v)
    ensures forall v: State :: Flag(U, v) <==> Closed(N, v) && ReachesSet(G, F, v)
    ensures |U| == |N|
  {
    hide Closed, Seen, Open, Flag, ReachesSet, FlagsWitnessed;
  }

  lemma SearchingClosedKept(G: Graph, N: Nodes, T: seq<State>, count: nat, D: seq<State>)
    requires Searching(G, N, T, count, D)
    ensures ClosedKept(G, N)
  {
  }

  lemma PrefixInRange(program: seq<State>, k: nat, n: nat)
    requires k <= |program| && forall q <- program :: q < n
    ensures forall q <- program[..k] :: q < n
  {
    forall q | q in program[..k] ensures q < n {
      assert q in program;
    }
  }

  /** Begin the work on the topmost state, or resume it after a call. */
  method Resume(G: Graph, ghost I: set<State>, F: set<State>, K0: Search, program: seq<State>,
                ghost base0: seq<State>, ghost D: seq<State>, ghost phase: Phase)
    returns (K: Search, ghost base: seq<State>, ghost D0: seq<State>)
    requires AtHead(G, I, F, K0, program, base0, D, phase) && |K0.nodes| == |G|
    requires program != [] && program[|program| - 1] < |G|
    requires !Closed(K0.nodes, program[|program| - 1])
    ensures program == base + D0 + [program[|program| - 1]]
    ensures Running(G, I, F, K, D0 + [program[|program| - 1]])
    ensures (forall q <- base :: q in I) && forall q <- I :: q in base || Seen(K.nodes, q)
    ensures White(K.nodes) < White(K0.nodes) || (White(K.nodes) == White(K0.nodes) && Ahead(G, K.nodes) < Ahead(G, K0.nodes))
  {
    hide *;
    var act := program[|program| - 1];
    NodeMarks(K0.nodes, act);
    if !K0.nodes[act].seen {
      base, D0 := HeadEnter(G, I, F, K0, program, base0, D, phase);
      K := Entered(K0, F, act);
    } else {
      HeadReturn(G, I, F, K0, program, base0, D, phase);
      base, D0 := base0, D[..|D| - 1];
      K := Returned(K0, act, G[act][K0.nodes[act].pos]);
      assert program == base + D0 + [act];
    }
  }

  /** Scan the moves of the topmost state; call for a successor or finish the state. */
  method Work(G: Graph, ghost I: set<State>, ghost F: set<State>, K0: Search, program0: seq<State>, ghost base: seq<State>, ghost D0: seq<State>, act: State)
    returns (K: Search, program: seq<State>, ghost D: seq<State>, ghost phase: Phase)
    requires Running(G, I, F, K0, D0 + [act]) && program0 == base + D0 + [act] && forall q <- program0 :: q < |G|
    requires (forall q <- base :: q in I) && forall q <- I :: q in base || Seen(K0.nodes, q)
    ensures AtHead(G, I, F, K, program, base, D, phase) && |K.nodes| == |G|
    ensures forall q <- program :: q < |G|
    ensures White(K.nodes) == White(K0.nodes) && Ahead(G, K.nodes) <= Ahead(G, K0.nodes)
  {
    hide *;
    var call, next;
    RunPathSeen(G, I, F, K0, D0 + [act]);
    K, call, next := ScanMoves(G, I, F, K0, D0, act);
    RunPathSeen(G, I, F, K, D0 + [act]);
    ScanKeepsSeen(G, K0.nodes, K.nodes);
    assert act in D0 + [act];
    if call {
      D, phase := D0 + [act], Called;
      HeadCall(G, I, F, K, base, D, next);
      assert base + D + [next] == program0 + [next];
      program := program0 + [next];
    } else {
      K := FinishState(G, I, F, K, D0, act);
      D, phase := D0, if D0 == [] then Idle else Returning;
      FinishedSize(G, I, F, K, D0, act);
      HeadFinish(G, I, F, K, base, D0, act);
      PrefixInRange(program0, |program0| - 1, |G|);
      program := program0[..|program0| - 1];
      assert program == base + D0;
    }
  }

  /** `tarjan_scc_discover` with the callbacks of `get_useful_states`, which also collects the
      components handed out. */
  method DiscoverComponents(G: Graph, initial: seq<State>, F: set<State>) returns (useful: seq<bool>, sccs: seq<seq<State>>)
    requires ValidGraph(G) && forall q <- initial :: q < |G|
    ensures |useful| == |G|
    ensures forall v: State :: Flag(useful, v) <==> ReachedFrom(G, Elements(initial), v) && ReachesSet(G, F, v)
    ensures Topological(G, sccs)
    ensures forall v: State :: v in Emitted(sccs) <==> ReachedFrom(G, Elements(initial), v)
  {
    hide *;
    ghost var I := Elements(initial);
    var K := Search(seq(|G|, _ => Node(0, 0, 0, false, false)), [], 0, seq(|G|, _ => false), []);
    var program: seq<State> := initial;
    ghost var base: seq<State>, D: seq<State>, phase := initial, [], Idle;
    HeadStart(G, initial, F, K);
    while program != []
      invariant AtHead(G, I, F, K, program, base, D, phase) && |K.nodes| == |G|
      invariant forall q <- program :: q < |G|
      decreases White(K.nodes), Ahead(G, K.nodes), |program|
    {
      var act := program[|program| - 1];
      assert act in program && program == program[..|program| - 1] + [act];
      NodeMarks(K.nodes, act);
      if K.nodes[act].seen && !K.nodes[act].open {
        HeadSkip(G, I, F, K, program, base, D, phase);
        base := base[..|base| - 1];
        PrefixInRange(program, |program| - 1, |G|);
        program := program[..|program| - 1];
      } else {
        ghost var D0: seq<State>;
        K, base, D0 := Resume(G, I, F, K, program, base, D, phase);
        K, program, D, phase := Work(G, I, F, K, program, base, D0, act);
      }
    }
    SearchEnds(G, I, F, K, base, D, phase);
    useful, sccs := K.useful, K.sccs;
    HandedOutMeans(G, K.nodes, sccs);
  }

  lemma NodeMarks(N: Nodes, v: State)
    requires v < |N|
    ensures (Seen(N, v) <==> N[v].seen) && (Open(N, v) <==> N[v].open) && (Closed(N, v) <==> N[v].seen && !N[v].open)
  {
  }

  lemma FinishedSize(G: Graph, I: set<State>, F: set<State>, K: Search, E: seq<State>, c: State)
    requires if E == [] then Running(G, I, F, K, []) else AwaitsReturn(G, I, F, K, E, c)
    ensures |K.nodes| == |G|
  {
    hide Running, White, Ahead;
    if E == [] {
      RunPathSeen(G, I, F, K, E);
    } else {
      RunPathSeen(G, I, F, Returned(K, E[|E| - 1], c), E);
    }
  }

  lemma HandedOutMeans(G: Graph, N: Nodes, sccs: seq<seq<State>>)
    requires HandedOut(G, N, sccs)
    ensures Topological(G, sccs) && forall v: State :: v in Emitted(sccs) <==> Closed(N, v)
  {
    hide Topological, Emitted, Closed;
  }
}
