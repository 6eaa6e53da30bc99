/** Closing a component of the iterative search: it is strongly connected and maximal, all it can
    reach has been handed out before, and the search goes on without it. */
module TarjanComponents {
  import opened Automata
  import opened Counting
  import opened Graphs
  import opened Tarjan

  /** The open states discovered no earlier than `c`. */
  ghost function Component(N: Nodes, c: State): (r: set<State>)
    ensures forall v: State :: v in r <==> Open(N, v) && Index(N, c) <= Index(N, v)
  {
    set v: State | v in Below(|N|) && Open(N, v) && Index(N, c) <= Index(N, v)
  }

  lemma DownWitness(G: Graph, N: Nodes, D: seq<State>, v: State) returns (y: State)
    requires LeftReachDown(G, N, D) && Open(N, v) && v !in D
    ensures LeadsBelow(G, N, v, y)
  {
    hide LeadsBelow, Open;
    y :| LeadsBelow(G, N, v, y);
  }

  /** Every open state reaches a state of the path discovered no later. */
  lemma {:induction false} ReachesPath(G: Graph, N: Nodes, D: seq<State>, v: State) returns (d: State)
    requires LeftReachDown(G, N, D) && Open(N, v)
    ensures d in D && Index(N, d) <= Index(N, v) && Reach(G, v, d)
    decreases Index(N, v)
  {
    if v in D {
      d := v;
      ReachSelf(G, v);
    } else {
      var y := DownWitness(G, N, D, v);
      hide LeftReachDown, Open, Reach, Index;
      d := ReachesPath(G, N, D, y);
      ReachTrans(G, v, y, d);
    }
  }

  lemma LastOnPath(G: Graph, N: Nodes, E: seq<State>, c: State)
    requires OnPath(G, N, E + [c])
    ensures Open(N, c) && forall d | d in E :: Index(N, d) < Index(N, c) && Open(N, d)
  {
    var D := E + [c];
    assert D[|E|] == c && forall i | 0 <= i < |E| :: D[i] == E[i] && Index(N, D[i]) < Index(N, D[|E|]);
    assert Open(N, D[|E|]) && forall i | 0 <= i < |E| :: Open(N, D[i]);
  }

  /** The states above the end of the path and that end reach each other. */
  lemma TopMutual(G: Graph, N: Nodes, E: seq<State>, c: State, v: State)
    requires OnPath(G, N, E + [c]) && LeftReachDown(G, N, E + [c]) && PathReachesUp(G, N, E + [c])
    requires v in Component(N, c)
    ensures Reach(G, c, v) && Reach(G, v, c)
  {
    LastOnPath(G, N, E, c);
    var d := ReachesPath(G, N, E + [c], v);
    hide Reach, LeftReachDown, OnPath, Index, Open;
    assert Reach(G, d, c);
    ReachTrans(G, v, d, c);
  }

  /** When `c` is left as the root of a component, the component's edges stay inside or lead to
      components handed out before. */
  lemma ComponentEdge(G: Graph, N: Nodes, E: seq<State>, c: State, v: State, w: State)
    requires |N| == |G| && OnPath(G, N, E + [c]) && Finished(G, N, E + [c]) && Scanned(G, N) && LowBounds(G, N, E + [c])
    requires AtEnd(G, N, c) && Low(N, c) == Index(N, c)
    requires v in Component(N, c) && Seen(N, v) && Edge(G, v, w)
    ensures Done(G, N, v, w) && (w in Component(N, c) || Closed(N, w))
  {
    LastOnPath(G, N, E, c);
    assert v in E + [c] ==> v == c;
    assert Done(G, N, v, w);
    assert InSegment(N, E + [c], |E|, v);
    hide Done, InSegment, OnPath;
  }

  /** The nodes once `V` has been taken off the Tarjan stack. */
  ghost predicate Closes(N: Nodes, M: Nodes, V: set<State>) {
    && |M| == |N|
    && (forall v: State :: Open(M, v) <==> Open(N, v) && v !in V)
    && (forall v: State :: Closed(M, v) <==> Closed(N, v) || v in V)
    && (forall v: State :: Seen(M, v) <==> Seen(N, v))
    && (forall v: State :: Index(M, v) == Index(N, v) && Low(M, v) == Low(N, v) && Pos(M, v) == Pos(N, v))
  }

  lemma CloseDone(G: Graph, N: Nodes, M: Nodes, V: set<State>)
    requires Closes(N, M, V)
    ensures forall v: State, w: State :: Done(G, M, v, w) <==> Done(G, N, v, w)
    ensures forall v: State, w: State :: CallsAt(G, M, v, w) <==> CallsAt(G, N, v, w)
  {
    hide Pos, Open, Closed, Seen, Index, Low;
  }

  lemma CloseStacked(N: Nodes, M: Nodes, T: seq<State>, S: seq<State>, count: nat, c: State)
    requires Stacked(N, T + [c] + S, count) && Closes(N, M, Component(N, c))
    ensures Stacked(M, T, count)
    ensures forall v: State :: v in Component(N, c) <==> v in [c] + S
  {
    hide Pos, Open, Closed, Seen, Index, Low;
    var R := T + [c] + S;
    assert R[|T|] == c;
    assert forall i | 0 <= i < |T| :: R[i] == T[i] && Index(N, R[i]) < Index(N, R[|T|]);
    assert forall i | 0 <= i < |S| :: R[|T| + 1 + i] == S[i] && Index(N, R[|T|]) < Index(N, R[|T| + 1 + i]);
    assert R == T + ([c] + S);
  }

  lemma CloseOnPath(G: Graph, N: Nodes, M: Nodes, E: seq<State>, c: State)
    requires |N| == |G| && OnPath(G, N, E + [c]) && Finished(G, N, E + [c]) && AtEnd(G, N, c) && Seen(N, c)
    requires Closes(N, M, Component(N, c))
    ensures OnPath(G, M, E) && Finished(G, M, E)
  {
    LastOnPath(G, N, E, c);
    CloseDone(G, N, M, Component(N, c));
    var D := E + [c];
    assert forall i | 0 <= i < |E| :: D[i] == E[i] && E[i] in E;
    hide Pos, Open, Closed, Seen, Index, Low, CallsAt;
  }

  lemma CloseScanned(G: Graph, N: Nodes, M: Nodes, E: seq<State>, c: State)
    requires |N| == |G| && OnPath(G, N, E + [c]) && Finished(G, N, E + [c]) && Scanned(G, N) && LowBounds(G, N, E + [c])
    requires AtEnd(G, N, c) && Low(N, c) == Index(N, c) && (forall v: State | Open(N, v) :: Seen(N, v))
    requires ClosedKept(G, N) && Closes(N, M, Component(N, c))
    ensures Scanned(G, M) && ClosedKept(G, M)
  {
    CloseDone(G, N, M, Component(N, c));
    hide OnPath, Finished, LowBounds, Done, CallsAt, AtEnd, Index, Low, Pos, Open, Seen, Closed;
    forall v: State, w: State | Closed(M, v) && Edge(G, v, w) ensures Closed(M, w) {
      if v in Component(N, c) {
        ComponentEdge(G, N, E, c, v, w);
      }
    }
  }

  lemma CloseReach(G: Graph, N: Nodes, M: Nodes, E: seq<State>, c: State)
    requires OnPath(G, N, E + [c]) && LeftReachDown(G, N, E + [c]) && PathReachesUp(G, N, E + [c])
    requires Closes(N, M, Component(N, c))
    ensures LeftReachDown(G, M, E) && PathReachesUp(G, M, E)
  {
    LastOnPath(G, N, E, c);
    hide OnPath, Reach, Index, Open, Closed, Seen, Low, Pos;
    forall v: State | Open(M, v) && v !in E ensures exists y :: LeadsBelow(G, M, v, y) {
      assert v !in E + [c];
      var y := DownWitness(G, N, E + [c], v);
      assert LeadsBelow(G, M, v, y);
    }
  }

  lemma CloseLeadsTo(G: Graph, N: Nodes, M: Nodes, c: State, v: State, y: State)
    requires Closes(N, M, Component(N, c)) && Open(M, v) && LeadsTo(G, N, v, Low(N, v), y) && Low(N, v) <= Index(N, v)
    ensures LeadsTo(G, M, v, Low(M, v), y) && Low(M, v) <= Index(M, v)
  {
    hide Reach, Index, Open, Closed, Seen, Low, Pos;
  }

  lemma CloseLowWitnessed(G: Graph, N: Nodes, M: Nodes, c: State)
    requires LowWitnessed(G, N) && Closes(N, M, Component(N, c))
    ensures LowWitnessed(G, M)
  {
    hide LeadsTo, Index, Open, Closed, Seen, Low, Pos;
    forall v: State | Open(M, v) ensures Low(M, v) <= Index(M, v) && exists y :: LeadsTo(G, M, v, Low(M, v), y) {
      var y := LowWitness(G, N, v);
      CloseLeadsTo(G, N, M, c, v, y);
    }
  }

  lemma CloseLowBounds(G: Graph, N: Nodes, M: Nodes, E: seq<State>, c: State)
    requires LowBounds(G, N, E + [c]) && Closes(N, M, Component(N, c))
    ensures LowBounds(G, M, E)
  {
    CloseDone(G, N, M, Component(N, c));
    hide Reach, Index, Open, Closed, Seen, Low, Pos, Done;
    var D := E + [c];
    assert D[|E|] == c && forall i | 0 <= i < |E| :: D[i] == E[i];
    forall i: nat, v: State, w: State | InSegment(M, E, i, v) && Done(G, M, v, w) && Open(M, w)
      ensures Low(M, E[i]) <= Index(M, w)
    {
      assert InSegment(N, D, i, v);
    }
  }

  /** Closing the component of `c`: the search goes on with the path `E`. */
  lemma Close(G: Graph, N: Nodes, M: Nodes, T: seq<State>, S: seq<State>, count: nat, E: seq<State>, c: State)
    requires Searching(G, N, T + [c] + S, count, E + [c]) && AtEnd(G, N, c) && Low(N, c) == Index(N, c)
    requires Closes(N, M, Component(N, c))
    ensures Searching(G, M, T, count, E)
    ensures forall v: State :: v in Component(N, c) <==> v in [c] + S
  {
    assert Seen(N, c) && forall v: State | Open(N, v) :: Seen(N, v) by {
      LastOnPath(G, N, E, c);
      hide OnPath, Finished, Scanned, ClosedKept, LeftReachDown, PathReachesUp, LowWitnessed, LowBounds, Closes;
    }
    hide Stacked, OnPath, Finished, Scanned, ClosedKept, LeftReachDown, PathReachesUp, LowWitnessed, LowBounds, Closes, ValidGraph;
    assert |M| == |N| by { CloseSize(N, M, Component(N, c)); }
    CloseStacked(N, M, T, S, count, c);
    CloseOnPath(G, N, M, E, c);
    CloseScanned(G, N, M, E, c);
    CloseReach(G, N, M, E, c);
    CloseLowWitnessed(G, N, M, c);
    CloseLowBounds(G, N, M, E, c);
  }

  lemma CloseSize(N: Nodes, M: Nodes, V: set<State>)
    requires Closes(N, M, V)
    ensures |M| == |N|
  {
  }

  // ---------- What has been handed out ----------

  ghost function Emitted(sccs: seq<seq<State>>): set<State> {
    if sccs == [] then {} else Emitted(sccs[..|sccs| - 1]) + Elements(sccs[|sccs| - 1])
  }

  /** Each list is a maximal strongly connected component, listed without repetition, and all
      states it reaches are in it or in an earlier list. */
  ghost predicate Topological(G: Graph, sccs: seq<seq<State>>) {
    sccs == [] ||
    var scc := sccs[|sccs| - 1];
    && Topological(G, sccs[..|sccs| - 1])
    && Distinct(scc) && IsScc(G, Elements(scc)) && Elements(scc) !! Emitted(sccs[..|sccs| - 1])
    && (forall v: State, w: State | v in scc && Reach(G, v, w) :: w in Emitted(sccs))
  }

  ghost predicate HandedOut(G: Graph, N: Nodes, sccs: seq<seq<State>>) {
    Topological(G, sccs) && forall v: State :: Closed(N, v) <==> v in Emitted(sccs)
  }

  lemma EmittedSnoc(sccs: seq<seq<State>>, scc: seq<State>)
    ensures Emitted(sccs + [scc]) == Emitted(sccs) + Elements(scc)
  {
    assert (sccs + [scc])[..|sccs|] == sccs;
  }

  /** A set whose states reach each other and whose edges lead inside or into a closed set that
      avoids it is a maximal component. */
  lemma ComponentIsScc(G: Graph, V: set<State>, K: set<State>, c: State)
    requires c in V && V !! K && ClosedUnder(G, K) && ClosedUnder(G, V + K)
    requires forall v <- V :: Reach(G, c, v) && Reach(G, v, c)
    ensures IsScc(G, V)
  {
    hide ClosedUnder, Reach;
    forall u, v | u in V ensures v in V <==> Reach(G, u, v) && Reach(G, v, u) {
      if v in V {
        ReachTrans(G, u, c, v);
        ReachTrans(G, v, c, u);
      }
      if Reach(G, u, v) && Reach(G, v, u) {
        ReachStays(G, V + K, u, v);
        if v in K { ReachStays(G, K, v, u); }
      }
    }
  }

  lemma ComponentOfTop(G: Graph, N: Nodes, T: seq<State>, count: nat, E: seq<State>, c: State, sccs: seq<seq<State>>)
    requires Searching(G, N, T, count, E + [c]) && AtEnd(G, N, c) && Low(N, c) == Index(N, c) && HandedOut(G, N, sccs)
    ensures IsScc(G, Component(N, c)) && Component(N, c) !! Emitted(sccs)
  {
    HandOutClosed(G, N, T, count, E, c, sccs);
    hide ClosedUnder, Reach, IsScc, AtEnd;
    hide Finished, Scanned, LowWitnessed, LowBounds, Topological, Emitted;
    LastOnPath(G, N, E, c);
    hide OnPath, LeftReachDown, PathReachesUp;
    var V, K := Component(N, c), Emitted(sccs);
    forall v | v in V ensures Reach(G, c, v) && Reach(G, v, c) { TopMutual(G, N, E, c, v); }
    ComponentIsScc(G, V, K, c);
  }

  lemma TopologicalSnoc(G: Graph, sccs: seq<seq<State>>, scc: seq<State>)
    requires Topological(G, sccs) && Distinct(scc) && IsScc(G, Elements(scc)) && Elements(scc) !! Emitted(sccs)
    requires ClosedUnder(G, Elements(scc) + Emitted(sccs))
    ensures Topological(G, sccs + [scc])
  {
    EmittedSnoc(sccs, scc);
    assert (sccs + [scc])[..|sccs|] == sccs;
    hide Emitted, IsScc, Distinct, Reach, ClosedUnder;
    forall v: State, w: State | v in scc && Reach(G, v, w) ensures w in Emitted(sccs + [scc]) {
      assert v in Elements(scc);
      ReachStays(G, Elements(scc) + Emitted(sccs), v, w);
    }
  }

  /** The component of `c`, as it is popped, is handed out in its place. */
  lemma HandOut(G: Graph, N: Nodes, M: Nodes, T: seq<State>, count: nat, E: seq<State>, c: State,
                sccs: seq<seq<State>>, scc: seq<State>)
    requires Searching(G, N, T, count, E + [c]) && AtEnd(G, N, c) && Low(N, c) == Index(N, c)
    requires Closes(N, M, Component(N, c)) && HandedOut(G, N, sccs)
    requires Distinct(scc) && Elements(scc) == Component(N, c)
    ensures HandedOut(G, M, sccs + [scc])
  {
    hide Searching, Reach, ClosedUnder, Distinct, IsScc, Emitted, Open, Closed, Index, Low, AtEnd, Seen, Elements, Topological;
    ComponentOfTop(G, N, T, count, E, c, sccs);
    HandOutClosed(G, N, T, count, E, c, sccs);
    TopologicalSnoc(G, sccs, scc);
    EmittedSnoc(sccs, scc);
  }

  lemma HandOutClosed(G: Graph, N: Nodes, T: seq<State>, count: nat, E: seq<State>, c: State, sccs: seq<seq<State>>)
    requires Searching(G, N, T, count, E + [c]) && AtEnd(G, N, c) && Low(N, c) == Index(N, c) && HandedOut(G, N, sccs)
    ensures ClosedUnder(G, Emitted(sccs)) && ClosedUnder(G, Component(N, c) + Emitted(sccs))
  {
    hide OnPath, Finished, Scanned, LeftReachDown, PathReachesUp, LowWitnessed, LowBounds, Topological, Emitted, Edge, Open, Seen, Index, Low, Closed, AtEnd;
    forall v: State, w: State | v in Component(N, c) + Emitted(sccs) && Edge(G, v, w) ensures w in Component(N, c) + Emitted(sccs) {
      if v in Component(N, c) {
        ComponentEdge(G, N, E, c, v, w);
      }
    }
  }
}
