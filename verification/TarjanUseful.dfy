/** The usefulness flags kept up during the search for components (the callbacks of
    get_useful_states in src/nfa/nfa.cc). */
module TarjanUseful {
  import opened Automata
  import opened Graphs
  import opened Tarjan
  import opened TarjanComponents

  predicate Flag(U: seq<bool>, v: State) {
    v < |U| && U[v]
  }

  /** Only discovered states that reach a final state are flagged. */
  ghost predicate FlagsSound(G: Graph, F: set<State>, N: Nodes, U: seq<bool>) {
    forall v: State | Flag(U, v) :: Seen(N, v) && ReachesSet(G, F, v)
  }

  /** In components handed out, all such states are flagged. */
  ghost predicate FlagsComplete(G: Graph, F: set<State>, N: Nodes, U: seq<bool>) {
    && (forall v: State | Closed(N, v) && ReachesSet(G, F, v) :: Flag(U, v))
    && (forall v: State | Seen(N, v) && v in F :: Flag(U, v))
  }

  ghost predicate FlagAbove(N: Nodes, U: seq<bool>, v: State, z: State) {
    Open(N, z) && Index(N, v) <= Index(N, z) && Flag(U, z)
  }

  /** An open state with an edge behind it into a component that reaches a final state has a
      flagged state on the stack, at its place or above. */
  ghost predicate FlagsWitnessed(G: Graph, F: set<State>, N: Nodes, U: seq<bool>) {
    forall v: State, w: State | Open(N, v) && Done(G, N, v, w) && Closed(N, w) && ReachesSet(G, F, w) ::
      exists z :: FlagAbove(N, U, v, z)
  }

  ghost predicate Flagged(G: Graph, F: set<State>, N: Nodes, U: seq<bool>) {
    |U| == |N| && FlagsSound(G, F, N, U) && FlagsComplete(G, F, N, U) && FlagsWitnessed(G, F, N, U)
  }

  lemma FlagWitness(G: Graph, F: set<State>, N: Nodes, U: seq<bool>, v: State, w: State) returns (z: State)
    requires FlagsWitnessed(G, F, N, U) && Open(N, v) && Done(G, N, v, w) && Closed(N, w) && ReachesSet(G, F, w)
    ensures FlagAbove(N, U, v, z)
  {
    hide FlagAbove;
    z :| FlagAbove(N, U, v, z);
  }

  lemma DiscoverFlags(G: Graph, F: set<State>, N: Nodes, M: Nodes, U: seq<bool>, w: State, count: nat)
    requires Flagged(G, F, N, U) && Discovers(G, N, M, w, count) && |M| == |N| && w < |N|
    ensures Flagged(G, F, M, if w in F then U[w := true] else U)
  {
    var U' := if w in F then U[w := true] else U;
    ReachSelf(G, w);
    assert forall v: State :: Flag(U', v) <==> Flag(U, v) || (v == w && w in F);
    assert !Done(G, M, w, w) && forall u: State :: !Done(G, N, w, u);
    assert w in F ==> ReachesSet(G, F, w);
    hide Open, Seen, Closed, Index, Low, Pos, Done, CallsAt, Reach, ReachesSet, Flag;
    forall v: State, u: State | Open(M, v) && Done(G, M, v, u) && Closed(M, u) && ReachesSet(G, F, u)
      ensures exists z :: FlagAbove(M, U', v, z)
    {
      var z := FlagWitness(G, F, N, U, v, u);
      assert FlagAbove(M, U', v, z);
    }
  }

  /** Passing an edge from `x`; the flag of `x` may be raised if it is justified. */
  lemma AdvanceFlags(G: Graph, F: set<State>, N: Nodes, M: Nodes, U: seq<bool>, raise: bool, x: State, next: State, l: nat)
    requires Flagged(G, F, N, U) && Advances(G, N, M, x, next, l) && |M| == |N| && x < |N| && Seen(N, x)
    requires raise ==> ReachesSet(G, F, x)
    requires Closed(N, next) && ReachesSet(G, F, next) ==> raise || exists z :: FlagAbove(N, U, x, z)
    ensures Flagged(G, F, M, if raise then U[x := true] else U)
  {
    var U' := if raise then U[x := true] else U;
    assert forall v: State :: Flag(U', v) <==> Flag(U, v) || (v == x && raise);
    hide Open, Seen, Closed, Index, Low, Pos, Done, CallsAt, ReachesSet, Flag;
    forall v: State, u: State | Open(M, v) && Done(G, M, v, u) && Closed(M, u) && ReachesSet(G, F, u)
      ensures exists z :: FlagAbove(M, U', v, z)
    {
      var z: State;
      if Done(G, N, v, u) {
        z := FlagWitness(G, F, N, U, v, u);
      } else if raise {
        z := x;
      } else {
        z :| FlagAbove(N, U, x, z);
      }
      assert FlagAbove(M, U', v, z);
    }
  }

  /** Flags that have been spread over the component just closed and down the stack. */
  ghost predicate Spread(G: Graph, F: set<State>, U: seq<bool>, U': seq<bool>, V: set<State>, T: seq<State>) {
    && |U'| == |U|
    && if exists v :: v in V && Flag(U, v) then
         && (forall v: State :: (Flag(U, v) || v in V ==> Flag(U', v)) && (Flag(U', v) ==> Flag(U, v) || v in V || v in T))
         && (T != [] ==> Flag(U', T[|T| - 1]))
       else U' == U
  }

  /** The component of `c` reaches a final state just if one of its states is flagged. */
  lemma ComponentFlagged(G: Graph, F: set<State>, N: Nodes, T: seq<State>, count: nat, E: seq<State>, c: State, U: seq<bool>)
    requires Searching(G, N, T, count, E + [c]) && AtEnd(G, N, c) && Low(N, c) == Index(N, c) && Flagged(G, F, N, U)
    ensures ReachesSet(G, F, c) <==> exists v :: v in Component(N, c) && Flag(U, v)
    ensures forall v | v in Component(N, c) :: ReachesSet(G, F, v) <==> ReachesSet(G, F, c)
  {
    hide ClosedKept, LowWitnessed, LowBounds, Finished, Scanned;
    assert Open(N, c) by { LastOnPath(G, N, E, c); }
    forall v | v in Component(N, c) ensures ReachesSet(G, F, v) <==> ReachesSet(G, F, c) {
      TopMutual(G, N, E, c, v);
      if ReachesSet(G, F, v) { ReachesSetBack(G, F, c, v); }
      if ReachesSet(G, F, c) { ReachesSetBack(G, F, v, c); }
    }
    if ReachesSet(G, F, c) {
      FlagInComponent(G, F, N, T, count, E, c, U);
    }
  }

  lemma FlagInComponent(G: Graph, F: set<State>, N: Nodes, T: seq<State>, count: nat, E: seq<State>, c: State, U: seq<bool>)
    requires Searching(G, N, T, count, E + [c]) && AtEnd(G, N, c) && Low(N, c) == Index(N, c) && Flagged(G, F, N, U)
    requires ReachesSet(G, F, c) && Open(N, c)
    ensures exists v :: v in Component(N, c) && Flag(U, v)
  {
    hide ClosedKept, LowWitnessed, LowBounds, LeftReachDown, PathReachesUp, OnPath, Finished, Scanned, ValidGraph, Done, Flag;
    var f :| f in F && Reach(G, c, f);
    var p :| IsPath(G, p) && p[0] == c && p[|p| - 1] == f;
    var v, w := LeaveSet(G, F, Component(N, c), p);
    assert Seen(N, v);
    hide IsPath, Reach, ReachesSet;
    if v !in F {
      ComponentEdge(G, N, E, c, v, w);
      var z := FlagWitness(G, F, N, U, v, w);
      assert z in Component(N, c) && Flag(U, z);
    }
  }

  /** A state still on the stack reaches the component that is being closed. */
  lemma StackReachesTop(G: Graph, N: Nodes, T: seq<State>, count: nat, E: seq<State>, c: State, v: State)
    requires Searching(G, N, T, count, E + [c]) && Open(N, v) && Index(N, v) <= Index(N, c)
    ensures Reach(G, v, c)
  {
    hide ClosedKept, LowWitnessed, LowBounds, Finished, Scanned, Stacked, ValidGraph;
    LastOnPath(G, N, E, c);
    hide OnPath, Reach;
    var d := ReachesPath(G, N, E + [c], v);
    assert d in E + [c] && Index(N, d) <= Index(N, c);
    ReachTrans(G, v, d, c);
  }

  /** Below the root on the stack lie open states discovered earlier. */
  lemma BelowRoot(N: Nodes, T: seq<State>, S: seq<State>, count: nat, c: State, v: State)
    requires Stacked(N, T + [c] + S, count) && v in T
    ensures Open(N, v) && Seen(N, v) && Index(N, v) <= Index(N, c)
  {
    hide Open, Seen, Index;
    var R := T + [c] + S;
    var i :| 0 <= i < |T| && T[i] == v;
    assert R[i] == v && R[|T|] == c && v in R;
  }

  lemma CloseFlagsSound(G: Graph, F: set<State>, N: Nodes, M: Nodes, T: seq<State>, S: seq<State>, count: nat,
                        E: seq<State>, c: State, U: seq<bool>, U': seq<bool>)
    requires Searching(G, N, T + [c] + S, count, E + [c]) && AtEnd(G, N, c) && Low(N, c) == Index(N, c) && Flagged(G, F, N, U)
    requires Closes(N, M, Component(N, c)) && Spread(G, F, U, U', Component(N, c), T) && Searching(G, M, T, count, E)
    ensures FlagsSound(G, F, M, U')
  {
    hide Stacked, OnPath, Finished, Scanned, ClosedKept, LeftReachDown, PathReachesUp, LowWitnessed, LowBounds, FlagsComplete, FlagsWitnessed;
    hide Reach, ReachesSet, Flag, AtEnd, Open, Seen, Closed, Index, Low, Pos, ValidGraph;
    ComponentFlagged(G, F, N, T + [c] + S, count, E, c, U);
    forall v: State | Flag(U', v) ensures Seen(M, v) && ReachesSet(G, F, v) {
      if !Flag(U, v) && v !in Component(N, c) {
        BelowRoot(N, T, S, count, c, v);
        StackReachesTop(G, N, T + [c] + S, count, E, c, v);
        ReachesSetBack(G, F, v, c);
      } else if v in Component(N, c) {
        OpenSeen(N, T + [c] + S, count, v);
      }
    }
  }

  lemma OpenSeen(N: Nodes, T: seq<State>, count: nat, v: State)
    requires Stacked(N, T, count) && Open(N, v)
    ensures Seen(N, v)
  {
  }

  lemma CloseFlagsComplete(G: Graph, F: set<State>, N: Nodes, M: Nodes, T: seq<State>, S: seq<State>, count: nat,
                           E: seq<State>, c: State, U: seq<bool>, U': seq<bool>)
    requires Searching(G, N, T + [c] + S, count, E + [c]) && AtEnd(G, N, c) && Low(N, c) == Index(N, c) && Flagged(G, F, N, U)
    requires Closes(N, M, Component(N, c)) && Spread(G, F, U, U', Component(N, c), T)
    ensures FlagsComplete(G, F, M, U')
  {
    ComponentFlagged(G, F, N, T + [c] + S, count, E, c, U);
    hide Searching, FlagsSound, FlagsWitnessed;
    hide Reach, ReachesSet, Flag, AtEnd, Open, Seen, Closed, Index, Low;
  }

  lemma TopIsHighest(N: Nodes, T: seq<State>, count: nat, v: State)
    requires Stacked(N, T, count) && Open(N, v)
    ensures T != [] && Open(N, T[|T| - 1]) && Index(N, v) <= Index(N, T[|T| - 1])
  {
    hide Open, Index, Seen;
    var i :| 0 <= i < |T| && T[i] == v;
    assert i < |T| - 1 ==> Index(N, T[i]) < Index(N, T[|T| - 1]);
  }

  lemma CloseFlagsWitnessed(G: Graph, F: set<State>, N: Nodes, M: Nodes, T: seq<State>, S: seq<State>, count: nat,
                            E: seq<State>, c: State, U: seq<bool>, U': seq<bool>)
    requires Searching(G, N, T + [c] + S, count, E + [c]) && AtEnd(G, N, c) && Low(N, c) == Index(N, c) && Flagged(G, F, N, U)
    requires Closes(N, M, Component(N, c)) && Spread(G, F, U, U', Component(N, c), T) && Stacked(M, T, count)
    ensures FlagsWitnessed(G, F, M, U')
  {
    hide Searching, FlagsSound, FlagsComplete, Stacked;
    hide Reach, ReachesSet, Flag, AtEnd, Open, Seen, Closed, Index, Low, Done, CallsAt;
    CloseDone(G, N, M, Component(N, c));
    if ReachesSet(G, F, c) {
      ComponentFlagged(G, F, N, T + [c] + S, count, E, c, U);
      forall v: State | Open(M, v) ensures exists z :: FlagAbove(M, U', v, z) {
        TopIsHighest(M, T, count, v);
        assert FlagAbove(M, U', v, T[|T| - 1]);
      }
    } else {
      ComponentFlagged(G, F, N, T + [c] + S, count, E, c, U);
      CloseKeepsWitnesses(G, F, N, M, c, U);
    }
  }

  lemma CloseKeepsWitnesses(G: Graph, F: set<State>, N: Nodes, M: Nodes, c: State, U: seq<bool>)
    requires FlagsWitnessed(G, F, N, U) && Closes(N, M, Component(N, c))
    requires forall v | v in Component(N, c) :: !ReachesSet(G, F, v) && !Flag(U, v)
    ensures FlagsWitnessed(G, F, M, U)
  {
    CloseDone(G, N, M, Component(N, c));
    hide Reach, ReachesSet, Flag, Open, Seen, Closed, Index, Low, Done, CallsAt;
    forall v: State, w: State | Open(M, v) && Done(G, M, v, w) && Closed(M, w) && ReachesSet(G, F, w)
      ensures exists z :: FlagAbove(M, U, v, z)
    {
      assert w !in Component(N, c);
      var z := FlagWitness(G, F, N, U, v, w);
      assert FlagAbove(M, U, v, z);
    }
  }

  lemma CloseFlags(G: Graph, F: set<State>, N: Nodes, M: Nodes, T: seq<State>, S: seq<State>, count: nat,
                   E: seq<State>, c: State, U: seq<bool>, U': seq<bool>)
    requires Searching(G, N, T + [c] + S, count, E + [c]) && AtEnd(G, N, c) && Low(N, c) == Index(N, c) && Flagged(G, F, N, U)
    requires Closes(N, M, Component(N, c)) && Spread(G, F, U, U', Component(N, c), T) && Searching(G, M, T, count, E)
    ensures Flagged(G, F, M, U')
    ensures ReachesSet(G, F, c) && T != [] ==> Flag(U', T[|T| - 1])
  {
    assert Stacked(M, T, count) by { SearchingStacked(G, M, T, count, E); }
    hide Searching, FlagsSound, FlagsComplete, FlagsWitnessed, Component, ReachesSet, Flag, AtEnd, Index, Low, Stacked;
    CloseFlagsSound(G, F, N, M, T, S, count, E, c, U, U');
    CloseFlagsComplete(G, F, N, M, T, S, count, E, c, U, U');
    CloseFlagsWitnessed(G, F, N, M, T, S, count, E, c, U, U');
    ComponentFlagged(G, F, N, T + [c] + S, count, E, c, U);
  }

  lemma SearchingStacked(G: Graph, N: Nodes, T: seq<State>, count: nat, D: seq<State>)
    requires Searching(G, N, T, count, D)
    ensures Stacked(N, T, count)
  {
  }
}
