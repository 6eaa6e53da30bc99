/** Directed graphs given by successor lists; what the transition graph of an automaton is to
    the search for strongly connected components. */
module Graphs {
  import opened Automata
  import opened Macrostates

  type Graph = seq<seq<State>>

  ghost predicate ValidGraph(G: Graph) {
    forall v: State, w | v < |G| && w in G[v] :: w < |G|
  }

  ghost predicate Edge(G: Graph, v: State, w: State) {
    v < |G| && w in G[v]
  }

  ghost predicate IsPath(G: Graph, p: seq<State>) {
    p != [] && forall i | 0 <= i < |p| - 1 :: Edge(G, p[i], p[i + 1])
  }

  ghost predicate Reach(G: Graph, u: State, v: State) {
    exists p :: IsPath(G, p) && p[0] == u && p[|p| - 1] == v
  }

  lemma ReachSelf(G: Graph, v: State)
    ensures Reach(G, v, v)
  {
    assert IsPath(G, [v]) && [v][0] == v && [v][|[v]| - 1] == v;
  }

  lemma ReachTrans(G: Graph, u: State, v: State, w: State)
    requires Reach(G, u, v) && Reach(G, v, w)
    ensures Reach(G, u, w)
  {
    var p :| IsPath(G, p) && p[0] == u && p[|p| - 1] == v;
    var r :| IsPath(G, r) && r[0] == v && r[|r| - 1] == w;
    var s := p + r[1..];
    forall i | 0 <= i < |s| - 1 ensures Edge(G, s[i], s[i + 1]) {
      if i < |p| - 1 {
        assert Edge(G, p[i], p[i + 1]);
      } else {
        var j := i - (|p| - 1);
        assert s[i] == r[j] && s[i + 1] == r[j + 1];
        assert Edge(G, r[j], r[j + 1]);
      }
    }
    assert s[0] == u && s[|s| - 1] == w;
  }

  lemma ReachEdge(G: Graph, u: State, v: State)
    requires Edge(G, u, v)
    ensures Reach(G, u, v)
  {
    var p := [u, v];
    assert IsPath(G, p) && p[0] == u && p[|p| - 1] == v;
  }

  /** All edges from `C` stay in `C`. */
  ghost predicate ClosedUnder(G: Graph, C: set<State>) {
    forall v, w | v in C && Edge(G, v, w) :: w in C
  }

  lemma {:induction false} PathStays(G: Graph, C: set<State>, p: seq<State>)
    requires ClosedUnder(G, C) && IsPath(G, p) && p[0] in C
    ensures p[|p| - 1] in C
  {
    if |p| > 1 {
      assert Edge(G, p[0], p[0 + 1]);
      TailPath(G, p);
      PathStays(G, C, p[1..]);
    }
  }

  lemma TailPath(G: Graph, p: seq<State>)
    requires IsPath(G, p) && |p| > 1
    ensures IsPath(G, p[1..])
  {
    forall i | 0 <= i < |p[1..]| - 1 ensures Edge(G, p[1..][i], p[1..][i + 1]) {
      assert Edge(G, p[i + 1], p[i + 1 + 1]);
    }
  }

  lemma ReachStays(G: Graph, C: set<State>, u: State, v: State)
    requires ClosedUnder(G, C) && u in C && Reach(G, u, v)
    ensures v in C
  {
    var p :| IsPath(G, p) && p[0] == u && p[|p| - 1] == v;
    PathStays(G, C, p);
  }

  /** `v` reaches `F`. */
  ghost predicate ReachesSet(G: Graph, F: set<State>, v: State) {
    exists f :: f in F && Reach(G, v, f)
  }

  lemma ReachesSetBack(G: Graph, F: set<State>, u: State, v: State)
    requires Reach(G, u, v) && ReachesSet(G, F, v)
    ensures ReachesSet(G, F, u)
  {
    var f :| f in F && Reach(G, v, f);
    ReachTrans(G, u, v, f);
  }

  lemma ReachesSetEdge(G: Graph, F: set<State>, u: State, v: State)
    requires Edge(G, u, v) && ReachesSet(G, F, v)
    ensures ReachesSet(G, F, u)
  {
    ReachEdge(G, u, v);
    ReachesSetBack(G, F, u, v);
  }

  /** A path to `F` from `V` ends in `V` or leaves `V` by an edge whose target reaches `F`. */
  lemma {:induction false} LeaveSet(G: Graph, F: set<State>, V: set<State>, p: seq<State>) returns (v: State, w: State)
    requires IsPath(G, p) && p[0] in V && p[|p| - 1] in F
    ensures v in V && (v in F || (Edge(G, v, w) && w !in V && ReachesSet(G, F, w)))
  {
    v, w := p[0], p[0];
    if |p| > 1 {
      assert Edge(G, p[0], p[0 + 1]);
      TailPath(G, p);
      if p[1] in V {
        v, w := LeaveSet(G, F, V, p[1..]);
      } else {
        w := p[1];
        assert Reach(G, p[1..][0], p[1..][|p[1..]| - 1]);
      }
    }
  }

  /** `C` is a maximal set of mutually reachable vertices. */
  ghost predicate IsScc(G: Graph, C: set<State>) {
    && C != {}
    && (forall u, v | u in C :: v in C <==> Reach(G, u, v) && Reach(G, v, u))
  }

  /** The transitions over one symbol as a graph */
  function SymbolGraph(A: Nfa, a: Symbol): (G: Graph)
    ensures |G| == A.size && forall q: State | q < |G| :: G[q] == Targets(A.At(q), a)
  {
    seq(A.size, q requires 0 <= q => Targets(A.At(q), a))
  }

  lemma SymbolEdges(A: Nfa, a: Symbol, q: State, p: State)
    requires A.Valid()
    ensures Edge(SymbolGraph(A, a), q, p) <==> Step(A, q, a, p)
    ensures Edge(SymbolGraph(A, a), q, p) ==> p < A.size
  {
    assert q < |A.delta| ==> ValidPost(A.delta[q], A.size);
    TargetsAreSteps(A.At(q), a, p);
    if Step(A, q, a, p) { StepIsState(A, q, a, p); }
  }
}
