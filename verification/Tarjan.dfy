/** Invariants of the iterative search for strongly connected components
    (tarjan_scc_discover of src/nfa/nfa.cc). */
module Tarjan {
  import opened Automata
  import opened Graphs

  /** `TarjanNodeData`; `pos` is how many moves lie before `current_move`. */
  datatype Node = Node(pos: nat, index: nat, low: nat, seen: bool, open: bool)
  type Nodes = seq<Node>

  predicate Seen(N: Nodes, v: State) {
    v < |N| && N[v].seen
  }

  /** On the Tarjan stack */
  predicate Open(N: Nodes, v: State) {
    v < |N| && N[v].open
  }

  /** In a component that has been handed out */
  predicate Closed(N: Nodes, v: State) {
    v < |N| && N[v].seen && !N[v].open
  }

  function Pos(N: Nodes, v: State): nat {
    if v < |N| then N[v].pos else 0
  }

  function Index(N: Nodes, v: State): nat {
    if v < |N| then N[v].index else 0
  }

  function Low(N: Nodes, v: State): nat {
    if v < |N| then N[v].low else 0
  }

  /** The edge from `v` to `w` lies behind `v`'s iterator. */
  ghost predicate Done(G: Graph, N: Nodes, v: State, w: State) {
    v < |G| && exists j :: 0 <= j < Pos(N, v) && j < |G[v]| && G[v][j] == w
  }

  /** The iterator of `v` stands at an edge to `w`. */
  ghost predicate CallsAt(G: Graph, N: Nodes, v: State, w: State) {
    v < |G| && Pos(N, v) < |G[v]| && G[v][Pos(N, v)] == w
  }

  /** All moves of `v` have been gone through. */
  predicate AtEnd(G: Graph, N: Nodes, v: State) {
    v < |G| && Pos(N, v) == |G[v]|
  }

  // ---------- Invariants ----------

  /** The Tarjan stack holds the open states in the order of their indices. */
  ghost predicate Stacked(N: Nodes, T: seq<State>, count: nat) {
    && (forall v: State :: v in T <==> Open(N, v))
    && (forall i, j | 0 <= i < j < |T| :: Index(N, T[i]) < Index(N, T[j]))
    && (forall v: State | Open(N, v) :: Seen(N, v) && Index(N, v) < count)
  }

  /** `D` is the path of the search: the states whose processing has begun and not ended. */
  ghost predicate OnPath(G: Graph, N: Nodes, D: seq<State>) {
    && (forall i | 0 <= i < |D| :: Open(N, D[i]))
    && (forall i, j | 0 <= i < j < |D| :: Index(N, D[i]) < Index(N, D[j]))
    && (forall i | 0 <= i < |D| - 1 :: CallsAt(G, N, D[i], D[i + 1]))
  }

  /** Away from the path, states are untouched or finished. */
  ghost predicate Finished(G: Graph, N: Nodes, D: seq<State>) {
    && (forall v: State | v < |G| && v !in D :: Pos(N, v) == if Seen(N, v) then |G[v]| else 0)
    && (forall v: State | v < |G| :: Pos(N, v) <= |G[v]|)
  }

  ghost predicate Scanned(G: Graph, N: Nodes) {
    forall v: State, w: State | Done(G, N, v, w) :: Seen(N, w)
  }

  ghost predicate ClosedKept(G: Graph, N: Nodes) {
    forall v: State, w: State | Closed(N, v) && Edge(G, v, w) :: Closed(N, w)
  }

  ghost predicate LeadsBelow(G: Graph, N: Nodes, v: State, y: State) {
    Open(N, y) && Index(N, y) < Index(N, v) && Reach(G, v, y)
  }

  /** An open state that has been left reaches an open state discovered earlier. */
  ghost predicate LeftReachDown(G: Graph, N: Nodes, D: seq<State>) {
    forall v: State | Open(N, v) && v !in D :: exists y :: LeadsBelow(G, N, v, y)
  }

  /** A state of the path reaches all open states discovered later. */
  ghost predicate PathReachesUp(G: Graph, N: Nodes, D: seq<State>) {
    forall d: State, v: State | d in D && Open(N, v) && Index(N, d) <= Index(N, v) :: Reach(G, d, v)
  }

  ghost predicate LeadsTo(G: Graph, N: Nodes, v: State, l: nat, y: State) {
    Open(N, y) && Index(N, y) == l && Reach(G, v, y)
  }

  /** A lowlink is the index of an open state that is reached. */
  ghost predicate LowWitnessed(G: Graph, N: Nodes) {
    forall v: State | Open(N, v) :: Low(N, v) <= Index(N, v) && exists y :: LeadsTo(G, N, v, Low(N, v), y)
  }

  /** `v` was discovered after the `i`-th state of the path, but before the next one. */
  ghost predicate InSegment(N: Nodes, D: seq<State>, i: nat, v: State) {
    && i < |D| && Open(N, v) && Index(N, D[i]) <= Index(N, v)
    && (i + 1 < |D| ==> Index(N, v) < Index(N, D[i + 1]))
  }

  /** The lowlink of a state of the path bounds the indices its segment leads to. */
  ghost predicate LowBounds(G: Graph, N: Nodes, D: seq<State>) {
    forall i: nat, v: State, w: State | InSegment(N, D, i, v) && Done(G, N, v, w) && Open(N, w) :: Low(N, D[i]) <= Index(N, w)
  }

  ghost predicate Searching(G: Graph, N: Nodes, T: seq<State>, count: nat, D: seq<State>) {
    && ValidGraph(G) && |N| == |G|
    && Stacked(N, T, count) && OnPath(G, N, D) && Finished(G, N, D) && Scanned(G, N) && ClosedKept(G, N)
    && LeftReachDown(G, N, D) && PathReachesUp(G, N, D) && LowWitnessed(G, N) && LowBounds(G, N, D)
  }

  // ---------- Discovering a state ----------

  function Discovered(N: Nodes, w: State, count: nat): Nodes
    requires w < |N|
  {
    N[w := Node(0, count, count, true, true)]
  }

  /** How `M` arises from `N` by discovering `w`, read off the node data. */
  ghost predicate Discovers(G: Graph, N: Nodes, M: Nodes, w: State, count: nat) {
    && !Seen(N, w) && !Open(N, w) && Seen(M, w) && Open(M, w) && Index(M, w) == Low(M, w) == count
    && (forall v: State :: Open(M, v) <==> Open(N, v) || v == w)
    && (forall v: State :: Seen(M, v) <==> Seen(N, v) || v == w)
    && (forall v: State :: Closed(M, v) <==> Closed(N, v))
    && (forall v: State | v != w :: Index(M, v) == Index(N, v) && Low(M, v) == Low(N, v))
    && (forall v: State :: Pos(M, v) == Pos(N, v)) && Pos(N, w) == 0
    && (forall v: State, u: State :: Done(G, M, v, u) <==> Done(G, N, v, u))
    && (forall v: State, u: State :: CallsAt(G, M, v, u) <==> CallsAt(G, N, v, u))
    && (forall v: State | Open(N, v) :: Index(N, v) < count)
  }

  lemma DiscoverEffect(G: Graph, N: Nodes, T: seq<State>, D: seq<State>, count: nat, w: State)
    requires |N| == |G| && w < |N| && !N[w].seen && Stacked(N, T, count) && OnPath(G, N, D) && Finished(G, N, D)
    ensures Discovers(G, N, Discovered(N, w, count), w, count)
  {
    assert !Open(N, w);
    assert w !in D;
    hide Stacked, OnPath, Finished;
    assert forall v: State :: Pos(Discovered(N, w, count), v) == Pos(N, v);
  }

  lemma DiscoverStacked(G: Graph, N: Nodes, M: Nodes, T: seq<State>, count: nat, w: State)
    requires Stacked(N, T, count) && Discovers(G, N, M, w, count)
    ensures Stacked(M, T + [w], count + 1)
  {
    hide Open, Seen, Closed, Index, Low, Pos, Done, CallsAt;
    assert forall i | 0 <= i < |T| :: T[i] in T && T[i] != w;
  }

  lemma DiscoverOnPath(G: Graph, N: Nodes, M: Nodes, D: seq<State>, count: nat, w: State)
    requires OnPath(G, N, D) && Finished(G, N, D) && Discovers(G, N, M, w, count)
    requires D == [] || CallsAt(G, N, D[|D| - 1], w)
    ensures OnPath(G, M, D + [w]) && Finished(G, M, D + [w])
  {
    hide Open, Seen, Closed, Index, Low, Pos, Done, CallsAt;
    assert forall i | 0 <= i < |D| :: Open(N, D[i]) && D[i] != w;
  }

  lemma DiscoverClosed(G: Graph, N: Nodes, M: Nodes, count: nat, w: State)
    requires Scanned(G, N) && ClosedKept(G, N) && Discovers(G, N, M, w, count)
    ensures Scanned(G, M) && ClosedKept(G, M)
  {
    hide Open, Seen, Closed, Index, Low, Pos, Done, CallsAt;
  }

  lemma DiscoverReachDown(G: Graph, N: Nodes, M: Nodes, D: seq<State>, count: nat, w: State)
    requires LeftReachDown(G, N, D) && Discovers(G, N, M, w, count)
    ensures LeftReachDown(G, M, D + [w])
  {
    hide Open, Seen, Closed, Index, Low, Pos, Done, CallsAt, Reach;
    forall v: State | Open(M, v) && v !in D + [w] ensures exists y :: LeadsBelow(G, M, v, y) {
      assert w in D + [w];
      assert v != w && v !in D;
      var y :| LeadsBelow(G, N, v, y);
      assert LeadsBelow(G, M, v, y);
    }
  }

  lemma DiscoverReachUp(G: Graph, N: Nodes, M: Nodes, D: seq<State>, count: nat, w: State)
    requires PathReachesUp(G, N, D) && OnPath(G, N, D) && Discovers(G, N, M, w, count)
    requires D == [] || CallsAt(G, N, D[|D| - 1], w)
    ensures PathReachesUp(G, M, D + [w])
  {
    ReachSelf(G, w);
    forall d: State | d in D ensures d != w && Reach(G, d, w) {
      var x := D[|D| - 1];
      var i :| 0 <= i < |D| && D[i] == d;
      assert Open(N, x) && Open(N, d);
      assert i < |D| - 1 ==> Index(N, d) < Index(N, x);
      assert Reach(G, d, x);
      ReachEdge(G, x, w);
      ReachTrans(G, d, x, w);
    }
    hide Open, Seen, Closed, Index, Low, Pos, Done, CallsAt, Reach;
  }

  lemma DiscoverLowWitnessed(G: Graph, N: Nodes, M: Nodes, count: nat, w: State)
    requires LowWitnessed(G, N) && Discovers(G, N, M, w, count)
    ensures LowWitnessed(G, M)
  {
    ReachSelf(G, w);
    hide Open, Seen, Closed, Index, Low, Pos, Done, CallsAt, Reach;
    forall v: State | Open(M, v) ensures Low(M, v) <= Index(M, v) && exists y :: LeadsTo(G, M, v, Low(M, v), y) {
      if v == w {
        assert LeadsTo(G, M, w, count, w);
      } else {
        var y :| LeadsTo(G, N, v, Low(N, v), y);
        assert LeadsTo(G, M, v, Low(N, v), y);
      }
    }
  }

  lemma DiscoverLowBounds(G: Graph, N: Nodes, M: Nodes, D: seq<State>, count: nat, w: State)
    requires Scanned(G, N) && LowBounds(G, N, D) && OnPath(G, N, D) && Discovers(G, N, M, w, count)
    ensures LowBounds(G, M, D + [w])
  {
    assert forall u: State :: !Done(G, N, w, u);
    assert forall i | 0 <= i < |D| :: Open(N, D[i]) && D[i] != w;
    hide Open, Seen, Closed, Index, Low, Pos, Done, CallsAt, OnPath;
    var D' := D + [w];
    forall i: nat, v: State, u: State | InSegment(M, D', i, v) && Done(G, M, v, u) && Open(M, u)
      ensures Low(M, D'[i]) <= Index(M, u)
    {
      assert Done(G, N, v, u) && Seen(N, u) && u != w && v != w;
      assert i < |D| && D'[i] == D[i];
      assert InSegment(N, D, i, v);
    }
  }

  lemma Discover(G: Graph, N: Nodes, T: seq<State>, count: nat, D: seq<State>, w: State)
    requires Searching(G, N, T, count, D) && w < |N| && !N[w].seen && (D == [] || CallsAt(G, N, D[|D| - 1], w))
    ensures Searching(G, Discovered(N, w, count), T + [w], count + 1, D + [w])
  {
    hide Stacked, OnPath, Finished, Scanned, ClosedKept, LeftReachDown, PathReachesUp, LowWitnessed, LowBounds, Discovers, CallsAt, ValidGraph;
    var M := Discovered(N, w, count);
    DiscoverEffect(G, N, T, D, count, w);
    DiscoverStacked(G, N, M, T, count, w);
    DiscoverOnPath(G, N, M, D, count, w);
    DiscoverClosed(G, N, M, count, w);
    DiscoverReachDown(G, N, M, D, count, w);
    DiscoverReachUp(G, N, M, D, count, w);
    DiscoverLowWitnessed(G, N, M, count, w);
    DiscoverLowBounds(G, N, M, D, count, w);
  }

  // ---------- Passing an edge ----------

  /** The iterator of `x` moves on, its lowlink becoming `l`. */
  function Advanced(N: Nodes, x: State, l: nat): Nodes
    requires x < |N|
  {
    N[x := N[x].(pos := N[x].pos + 1, low := l)]
  }

  ghost predicate Advances(G: Graph, N: Nodes, M: Nodes, x: State, next: State, l: nat) {
    && Open(N, x) && CallsAt(G, N, x, next) && Low(M, x) == l && x < |G| && Pos(M, x) <= |G[x]|
    && (forall v: State :: Open(M, v) <==> Open(N, v))
    && (forall v: State :: Seen(M, v) <==> Seen(N, v))
    && (forall v: State :: Closed(M, v) <==> Closed(N, v))
    && (forall v: State :: Index(M, v) == Index(N, v))
    && (forall v: State | v != x :: Low(M, v) == Low(N, v) && Pos(M, v) == Pos(N, v))
    && (forall v: State, u: State :: Done(G, M, v, u) <==> Done(G, N, v, u) || (v == x && u == next))
    && (forall v: State, u: State | v != x :: CallsAt(G, M, v, u) <==> CallsAt(G, N, v, u))
  }

  lemma AdvanceEffect(G: Graph, N: Nodes, x: State, next: State, l: nat)
    requires |N| == |G| && x < |N| && N[x].open && CallsAt(G, N, x, next)
    ensures Advances(G, N, Advanced(N, x, l), x, next, l)
  {
    var M := Advanced(N, x, l);
    assert Pos(M, x) == Pos(N, x) + 1 && G[x][Pos(N, x)] == next;
    forall u: State ensures Done(G, M, x, u) <==> Done(G, N, x, u) || u == next {
      if Done(G, N, x, u) {
        var j :| 0 <= j < Pos(N, x) && j < |G[x]| && G[x][j] == u;
        assert j < Pos(M, x);
      }
    }
  }

  lemma AdvanceStacked(G: Graph, N: Nodes, M: Nodes, T: seq<State>, count: nat, x: State, next: State, l: nat)
    requires Stacked(N, T, count) && Advances(G, N, M, x, next, l)
    ensures Stacked(M, T, count)
  {
    hide Open, Seen, Closed, Index, Low, Pos, Done, CallsAt;
  }

  lemma AdvanceOnPath(G: Graph, N: Nodes, M: Nodes, D: seq<State>, x: State, next: State, l: nat)
    requires OnPath(G, N, D + [x]) && Finished(G, N, D + [x]) && Advances(G, N, M, x, next, l)
    ensures OnPath(G, M, D + [x]) && Finished(G, M, D + [x])
  {
    hide Open, Seen, Closed, Index, Low, Pos, Done, CallsAt;
    var D' := D + [x];
    assert D'[|D|] == x && forall i | 0 <= i < |D| :: D'[i] != x;
  }

  lemma AdvanceClosed(G: Graph, N: Nodes, M: Nodes, x: State, next: State, l: nat)
    requires Scanned(G, N) && ClosedKept(G, N) && Advances(G, N, M, x, next, l) && Seen(N, next)
    ensures Scanned(G, M) && ClosedKept(G, M)
  {
    hide Open, Seen, Closed, Index, Low, Pos, Done, CallsAt;
  }

  lemma AdvanceReach(G: Graph, N: Nodes, M: Nodes, D: seq<State>, x: State, next: State, l: nat)
    requires LeftReachDown(G, N, D) && PathReachesUp(G, N, D) && Advances(G, N, M, x, next, l)
    ensures LeftReachDown(G, M, D) && PathReachesUp(G, M, D)
  {
    hide Open, Seen, Closed, Index, Low, Pos, Done, CallsAt, Reach;
    forall v: State | Open(M, v) && v !in D ensures exists y :: LeadsBelow(G, M, v, y) {
      var y :| LeadsBelow(G, N, v, y);
      assert LeadsBelow(G, M, v, y);
    }
  }

  lemma AdvanceLowWitnessed(G: Graph, N: Nodes, M: Nodes, x: State, next: State, l: nat, z: State)
    requires LowWitnessed(G, N) && Advances(G, N, M, x, next, l)
    requires l <= Low(N, x) && LeadsTo(G, N, x, l, z)
    ensures LowWitnessed(G, M)
  {
    hide LeadsTo, Open, Seen, Closed, Index, Low, Pos, Done, CallsAt;
    forall v: State | Open(M, v) ensures Low(M, v) <= Index(M, v) && exists y :: LeadsTo(G, M, v, Low(M, v), y) {
      var y := LowWitness(G, N, v);
      AdvanceLeadsTo(G, N, M, x, next, l, v, Low(N, v), y);
      AdvanceLeadsTo(G, N, M, x, next, l, x, l, z);
    }
  }

  lemma AdvanceLeadsTo(G: Graph, N: Nodes, M: Nodes, x: State, next: State, l: nat, v: State, k: nat, y: State)
    requires Advances(G, N, M, x, next, l) && LeadsTo(G, N, v, k, y)
    ensures LeadsTo(G, M, v, k, y)
  {
  }

  lemma AdvanceLowBounds(G: Graph, N: Nodes, M: Nodes, D: seq<State>, x: State, next: State, l: nat)
    requires OnPath(G, N, D + [x]) && LowBounds(G, N, D + [x]) && Advances(G, N, M, x, next, l)
    requires l <= Low(N, x) && (Open(N, next) ==> l <= Index(N, next))
    ensures LowBounds(G, M, D + [x])
  {
    var D' := D + [x];
    assert D'[|D|] == x && forall i | 0 <= i < |D| :: D'[i] != x && Index(N, D'[i]) < Index(N, x) && D'[i] == D[i];
    assert forall j | 0 <= j <= |D| :: Index(N, D'[j]) <= Index(N, x);
    hide Open, Seen, Closed, Index, Low, Pos, Done, CallsAt, OnPath;
    forall i: nat, v: State, u: State | InSegment(M, D', i, v) && Done(G, M, v, u) && Open(M, u)
      ensures Low(M, D'[i]) <= Index(M, u)
    {
      assert InSegment(N, D', i, v);
      assert v == x ==> i == |D|;
      assert Done(G, N, v, u) ==> Low(N, D'[i]) <= Index(N, u);
    }
  }

  /** The lowlink of `x` after its iterator has passed `next`. */
  function PassedLow(N: Nodes, x: State, next: State): nat {
    if Open(N, next) && Index(N, next) < Low(N, x) then Index(N, next) else Low(N, x)
  }

  /** Passing an edge to a state that has been seen. */
  lemma Pass(G: Graph, N: Nodes, T: seq<State>, count: nat, D: seq<State>, x: State, next: State)
    requires Searching(G, N, T, count, D + [x]) && CallsAt(G, N, x, next) && Seen(N, next)
    ensures x < |N| && Searching(G, Advanced(N, x, PassedLow(N, x, next)), T, count, D + [x])
  {
    hide Stacked, Finished, Scanned, ClosedKept, LeftReachDown, PathReachesUp, LowWitnessed, LowBounds, Advances, CallsAt, ValidGraph;
    assert Open(N, (D + [x])[|D|]);
    hide OnPath;
    var l := PassedLow(N, x, next);
    var z := PassedWitness(G, N, x, next);
    var M := Advanced(N, x, l);
    AdvanceEffect(G, N, x, next, l);
    AdvanceStacked(G, N, M, T, count, x, next, l);
    AdvanceOnPath(G, N, M, D, x, next, l);
    AdvanceClosed(G, N, M, x, next, l);
    AdvanceReach(G, N, M, D + [x], x, next, l);
    AdvanceLowWitnessed(G, N, M, x, next, l, z);
    AdvanceLowBounds(G, N, M, D, x, next, l);
  }

  lemma LowWitness(G: Graph, N: Nodes, v: State) returns (y: State)
    requires LowWitnessed(G, N) && Open(N, v)
    ensures LeadsTo(G, N, v, Low(N, v), y) && Low(N, v) <= Index(N, v)
  {
    hide LeadsTo, Open;
    y :| LeadsTo(G, N, v, Low(N, v), y);
  }

  lemma PassedWitness(G: Graph, N: Nodes, x: State, next: State) returns (z: State)
    requires LowWitnessed(G, N) && CallsAt(G, N, x, next) && Open(N, x)
    ensures LeadsTo(G, N, x, PassedLow(N, x, next), z)
  {
    ReachEdge(G, x, next);
    z := LowWitness(G, N, x);
    hide LowWitnessed, Reach;
    if Open(N, next) && Index(N, next) < Low(N, x) {
      z := next;
    }
  }

  // ---------- Leaving a state that is not the root of its component ----------

  /** `min(x.lowlink, c.lowlink)`, as set when the call for `c` returns to `x` */
  function ReturnedLow(N: Nodes, x: State, c: State): nat {
    if Low(N, c) < Low(N, x) then Low(N, c) else Low(N, x)
  }

  lemma LeaveOnPath(G: Graph, N: Nodes, D: seq<State>, x: State, c: State)
    requires |N| == |G| && OnPath(G, N, D + [x] + [c]) && Finished(G, N, D + [x] + [c]) && AtEnd(G, N, c) && Seen(N, c)
    ensures OnPath(G, N, D + [x]) && Finished(G, N, D + [x])
  {
    var E, F := D + [x] + [c], D + [x];
    assert forall i | 0 <= i < |F| :: F[i] == E[i];
    assert E == F + [c];
    hide Open, Closed, Index, Low, Done, CallsAt;
  }

  lemma LeaveReach(G: Graph, N: Nodes, D: seq<State>, x: State, c: State)
    requires LeftReachDown(G, N, D + [x] + [c]) && PathReachesUp(G, N, D + [x] + [c]) && LowWitnessed(G, N)
    requires Low(N, c) < Index(N, c) && Open(N, c)
    ensures LeftReachDown(G, N, D + [x]) && PathReachesUp(G, N, D + [x])
  {
    hide Open, Closed, Index, Low, Done, CallsAt, Reach;
    var y :| LeadsTo(G, N, c, Low(N, c), y);
    assert LeadsBelow(G, N, c, y);
    assert forall v: State :: v in D + [x] + [c] <==> v in D + [x] || v == c;
  }

  /** Where `c` stands on the path, and where its segment goes when it is left. */
  lemma LeaveSegments(G: Graph, N: Nodes, D: seq<State>, x: State, c: State)
    requires OnPath(G, N, D + [x] + [c])
    ensures forall i: nat, v: State | InSegment(N, D + [x], i, v) ::
              InSegment(N, D + [x] + [c], i, v) || (i == |D| && InSegment(N, D + [x] + [c], i + 1, v))
    ensures forall i: nat | InSegment(N, D + [x], i, x) :: i == |D|
  {
    var E, F := D + [x] + [c], D + [x];
    assert E[|D|] == x && E[|D| + 1] == c && forall i | 0 <= i < |F| :: F[i] == E[i];
    assert forall j | 0 <= j < |D| :: Index(N, E[j]) < Index(N, x);
    assert forall j | 0 <= j < |F| :: Index(N, F[j]) <= Index(N, x);
    hide Open, Index, CallsAt, OnPath;
  }

  /** Bounds for the path without `c`, the last state `x` being bounded by both lowlinks. */
  lemma LeaveLowBounds(G: Graph, N: Nodes, M: Nodes, D: seq<State>, x: State, c: State)
    requires OnPath(G, N, D + [x] + [c]) && LowBounds(G, N, D + [x] + [c]) && Low(N, c) <= Index(N, c)
    requires Advances(G, N, M, x, c, ReturnedLow(N, x, c))
    ensures LowBounds(G, M, D + [x])
  {
    var E, F := D + [x] + [c], D + [x];
    LeaveSegments(G, N, D, x, c);
    assert E[|D|] == x && E[|D| + 1] == c && forall i | 0 <= i < |F| :: F[i] == E[i];
    assert forall i | 0 <= i < |D| :: F[i] != x;
    hide Open, Seen, Closed, Index, Low, Pos, Done, CallsAt, OnPath;
    forall i: nat, v: State, u: State | InSegment(M, F, i, v) && Done(G, M, v, u) && Open(M, u)
      ensures Low(M, F[i]) <= Index(M, u)
    {
      assert InSegment(N, F, i, v);
      if Done(G, N, v, u) {
        LeaveBound(G, N, D, x, c, i, v, u);
      }
    }
  }

  lemma LeaveBound(G: Graph, N: Nodes, D: seq<State>, x: State, c: State, i: nat, v: State, u: State)
    requires OnPath(G, N, D + [x] + [c]) && LowBounds(G, N, D + [x] + [c])
    requires InSegment(N, D + [x], i, v) && Done(G, N, v, u) && Open(N, u)
    ensures (if i == |D| then ReturnedLow(N, x, c) else Low(N, (D + [x])[i])) <= Index(N, u)
  {
    var E := D + [x] + [c];
    LeaveSegments(G, N, D, x, c);
    assert E[|D|] == x && E[|D| + 1] == c && forall i | 0 <= i < |D + [x]| :: (D + [x])[i] == E[i];
    hide Open, Seen, Closed, Index, Low, Pos, Done, CallsAt, OnPath, InSegment;
  }

  /** Leaving `c`, whose lowlink is below its index, and returning to `x`. */
  lemma Leave(G: Graph, N: Nodes, T: seq<State>, count: nat, D: seq<State>, x: State, c: State)
    requires Searching(G, N, T, count, D + [x] + [c]) && AtEnd(G, N, c) && Low(N, c) < Index(N, c)
    ensures x < |N| && CallsAt(G, N, x, c)
    ensures Searching(G, Advanced(N, x, ReturnedLow(N, x, c)), T, count, D + [x])
  {
    hide Finished, Scanned, ClosedKept, LeftReachDown, PathReachesUp, LowBounds, LowWitnessed, Advances, CallsAt, ValidGraph;
    var E := D + [x] + [c];
    assert Open(N, E[|D|]) && Open(N, E[|D| + 1]) && CallsAt(G, N, E[|D|], E[|D| + 1]);
    assert Seen(N, c);
    hide OnPath, Stacked;
    var l := ReturnedLow(N, x, c);
    var M := Advanced(N, x, l);
    AdvanceEffect(G, N, x, c, l);
    AdvanceStacked(G, N, M, T, count, x, c, l);
    LeaveOnPath(G, N, D, x, c);
    AdvanceOnPath(G, N, M, D, x, c, l);
    AdvanceClosed(G, N, M, x, c, l);
    LeaveReach(G, N, D, x, c);
    AdvanceReach(G, N, M, D + [x], x, c, l);
    var z := ReturnedWitness(G, N, x, c);
    AdvanceLowWitnessed(G, N, M, x, c, l, z);
    var y := LowWitness(G, N, c);
    LeaveLowBounds(G, N, M, D, x, c);
  }

  lemma ReturnedWitness(G: Graph, N: Nodes, x: State, c: State) returns (z: State)
    requires LowWitnessed(G, N) && CallsAt(G, N, x, c) && Open(N, x) && Open(N, c)
    ensures LeadsTo(G, N, x, ReturnedLow(N, x, c), z)
  {
    ReachEdge(G, x, c);
    z := LowWitness(G, N, x);
    var y := LowWitness(G, N, c);
    hide LowWitnessed, Reach;
    ReachTrans(G, x, c, y);
    if Low(N, c) < Low(N, x) {
      z := y;
    }
  }
}
