/** The test for epsilon cycles by peeling (has_epsilon_cycle of src/nft/operations.cc). */
module EpsilonCycles {
  import opened Automata
  import opened Counting
  import opened Graphs
  import opened Macrostates
  import opened Transducers

  /** The sources in `S` of edges into `v` */
  ghost function Sources(G: Graph, S: set<State>, v: State): set<State> {
    set u | u in S && Edge(G, u, v)
  }

  ghost predicate CountsSources(G: Graph, S: set<State>, counts: seq<nat>) {
    |counts| == |G| && forall v: State | v < |G| :: counts[v] == |Sources(G, S, v)|
  }

  lemma OneMoreSource(G: Graph, S: set<State>, s: State, v: State)
    requires s !in S
    ensures |Sources(G, S + {s}, v)| == |Sources(G, S, v)| + if Edge(G, s, v) then 1 else 0
  {
    if Edge(G, s, v) {
      assert Sources(G, S + {s}, v) == Sources(G, S, v) + {s};
    } else {
      assert Sources(G, S + {s}, v) == Sources(G, S, v);
    }
  }

  /** Vertices with an edge. */
  ghost predicate HasEdge(G: Graph, v: State) {
    exists w: State :: Edge(G, v, w) || Edge(G, w, v)
  }

  /** `++num_of_epsilon_predecessors[target]` for all targets of `source` */
  method CountTargets(G: Graph, source: State, counts0: seq<nat>) returns (counts: seq<nat>)
    requires ValidGraph(G) && source < |G| && Distinct(G[source]) && CountsSources(G, Below(source), counts0)
    ensures CountsSources(G, Below(source + 1), counts)
  {
    counts := counts0;
    var targets := G[source];
    for k := 0 to |targets|
      invariant |counts| == |G|
      invariant forall v: State | v < |G| :: counts[v] == counts0[v] + if v in targets[..k] then 1 else 0
    {
      assert targets[k] in targets && targets[..k + 1] == targets[..k] + [targets[k]];
      counts := counts[targets[k] := counts[targets[k]] + 1];
    }
    assert targets[..|targets|] == targets;
    forall v: State | v < |G| ensures counts[v] == |Sources(G, Below(source + 1), v)| {
      assert Below(source + 1) == Below(source) + {source};
      OneMoreSource(G, Below(source), source, v);
    }
  }

  // ---------- Peeling ----------

  /** `rank` orders the peeled vertices; all sources of edges into them come before them. */
  ghost predicate Ranked(G: Graph, rank: map<State, nat>) {
    && (forall v <- rank :: v < |G| && rank[v] < |rank|)
    && (forall u: State, v: State | v in rank && Edge(G, u, v) :: u in rank && rank[u] < rank[v])
  }

  /** The state of the peeling: what is not peeled, what can be peeled next. */
  ghost predicate Peeling(G: Graph, counts: seq<nat>, peelable: seq<State>, rank: map<State, nat>) {
    && Ranked(G, rank) && CountsSources(G, Below(|G|) - rank.Keys, counts) && Distinct(peelable)
    && Waiting(G, counts, peelable, rank) && |counts| == |G|
    && (forall v <- rank :: HasEdge(G, v) && v < |G| && counts[v] == 0)
  }

  /** The unpeeled vertices with no unpeeled source can be peeled. */
  ghost predicate Waiting(G: Graph, counts: seq<nat>, peelable: seq<State>, rank: map<State, nat>) {
    |counts| == |G| && forall v: State :: v in peelable <==> v < |G| && v !in rank && counts[v] == 0 && HasEdge(G, v)
  }

  /** What can be peeled has only peeled sources. */
  lemma SourcesPeeled(G: Graph, counts: seq<nat>, rank: map<State, nat>, s: State, u: State)
    requires CountsSources(G, Below(|G|) - rank.Keys, counts) && s < |G| && counts[s] == 0 && Edge(G, u, s)
    ensures u in rank
  {
    var S := Below(|G|) - rank.Keys;
    assert u in S ==> u in Sources(G, S, s);
  }

  lemma PeelRanked(G: Graph, counts: seq<nat>, rank: map<State, nat>, s: State)
    requires Ranked(G, rank) && CountsSources(G, Below(|G|) - rank.Keys, counts) && s < |G| && counts[s] == 0 && s !in rank
    ensures Ranked(G, rank[s := |rank|]) && |rank[s := |rank|]| == |rank| + 1
  {
    hide Edge, CountsSources;
    var rank' := rank[s := |rank|];
    assert rank'.Keys == rank.Keys + {s};
    forall u: State, v: State | v in rank' && Edge(G, u, v) ensures u in rank' && rank'[u] < rank'[v] {
      if v == s { SourcesPeeled(G, counts, rank, s, u); }
    }
  }

  lemma TargetsCounted(G: Graph, S: set<State>, counts: seq<nat>, s: State)
    requires CountsSources(G, S, counts) && s in S
    ensures forall v: State | v < |G| :: |Sources(G, S - {s}, v)| + (if Edge(G, s, v) then 1 else 0) == counts[v]
    ensures forall v: State | v < |G| && Edge(G, s, v) :: counts[v] > 0
  {
    assert (S - {s}) + {s} == S;
    forall v: State | v < |G| ensures |Sources(G, S - {s}, v)| + (if Edge(G, s, v) then 1 else 0) == counts[v] {
      OneMoreSource(G, S - {s}, s, v);
    }
  }

  /** `--num_of_epsilon_predecessors[target]` for all targets of the peeled `s`; the targets left
      without sources can be peeled. */
  method PeelTargets(G: Graph, s: State, counts0: seq<nat>, peelable0: seq<State>, ghost S: set<State>)
    returns (counts: seq<nat>, peelable: seq<State>)
    requires ValidGraph(G) && s < |G| && s in S && Distinct(G[s]) && CountsSources(G, S, counts0)
    requires Distinct(peelable0) && forall v <- peelable0 :: v < |G| && counts0[v] == 0
    ensures CountsSources(G, S - {s}, counts)
    ensures Distinct(peelable)
    ensures forall v: State :: v in peelable <==> v in peelable0 || (v < |G| && counts0[v] > 0 && counts[v] == 0)
    ensures forall v: State | v < |G| && counts0[v] == 0 :: counts[v] == 0
    ensures forall v: State | v < |G| && counts0[v] > counts[v] :: Edge(G, s, v)
  {
    counts, peelable := counts0, peelable0;
    var targets := G[s];
    TargetsCounted(G, S, counts0, s);
    for k := 0 to |targets|
      invariant |counts| == |G|
      invariant forall v: State | v < |G| :: v in targets[k..] ==> counts[v] > 0
      invariant forall v: State | v < |G| :: counts0[v] == counts[v] + if v in targets[..k] then 1 else 0
      invariant Distinct(peelable)
      invariant forall v: State :: v in peelable <==> v in peelable0 || (v < |G| && counts0[v] > 0 && counts[v] == 0)
    {
      var t := targets[k];
      assert t in targets && targets[..k + 1] == targets[..k] + [t] && targets[k..] == [t] + targets[k + 1..];
      assert t !in targets[..k] && t !in targets[k + 1..];
      counts := counts[t := counts[t] - 1];
      if counts[t] == 0 {
        DistinctSnoc(peelable, t);
        peelable := peelable + [t];
      }
    }
    assert targets[..|targets|] == targets;
  }

  // ---------- What the peeled vertices say about cycles ----------

  /** Along a path into a peeled vertex ranks increase. */
  lemma {:induction false} RanksIncrease(G: Graph, rank: map<State, nat>, p: seq<State>)
    requires Ranked(G, rank) && IsPath(G, p) && p[|p| - 1] in rank
    ensures p[0] in rank && (|p| > 1 ==> rank[p[0]] < rank[p[|p| - 1]])
  {
    if |p| > 1 {
      assert Edge(G, p[0], p[0 + 1]);
      TailPath(G, p);
      RanksIncrease(G, rank, p[1..]);
    }
  }

  lemma PeeledAcyclic(G: Graph, rank: map<State, nat>)
    requires Ranked(G, rank) && forall v: State :: v in rank <==> HasEdge(G, v)
    ensures Acyclic(G)
  {
    forall v: State ensures !ReachPlus(G, v, v) {
      if ReachPlus(G, v, v) {
        var x :| Edge(G, v, x) && Reach(G, x, v);
        assert HasEdge(G, v);
        var p :| IsPath(G, p) && p[0] == x && p[|p| - 1] == v;
        RanksIncrease(G, rank, p);
      }
    }
  }

  lemma HeightBounded(G: Graph, v: State)
    ensures Height(G, v) <= |G|
  {
    var above := set x: State | x in Below(|G|) && ReachPlus(G, v, x);
    SubsetSize(above, Below(|G|));
  }

  /** Some edge into `x` comes from `U`. */
  ghost predicate Entered(G: Graph, U: set<State>, x: State) {
    exists y: State :: y in U && Edge(G, y, x)
  }

  lemma EnteredFrom(G: Graph, U: set<State>, x: State) returns (y: State)
    requires Entered(G, U, x)
    ensures y in U && Edge(G, y, x)
  {
    y :| y in U && Edge(G, y, x);
  }

  /** In an acyclic graph no non-empty set of vertices has all its vertices entered from inside:
      it would have vertices of any height. */
  lemma {:induction false} AlwaysHigher(G: Graph, U: set<State>, v: State, k: nat) returns (u: State)
    requires Acyclic(G) && v in U
    requires forall x <- U :: x < |G| && Entered(G, U, x)
    ensures u in U && Height(G, u) >= k
  {
    hide *;
    u := v;
    if k > 0 {
      var x := AlwaysHigher(G, U, v, k - 1);
      u := EnteredFrom(G, U, x);
      EdgeDescends(G, u, x);
    }
  }

  lemma UnpeeledCyclic(G: Graph, counts: seq<nat>, rank: map<State, nat>, v: State)
    requires ValidGraph(G) && Peeling(G, counts, [], rank) && HasEdge(G, v) && v !in rank
    ensures !Acyclic(G)
  {
    hide Peeling, HasEdge, Acyclic, Entered, Height, Edge;
    var U := set x: State | x in Below(|G|) && HasEdge(G, x) && x !in rank;
    HasEdgeIsVertex(G, v);
    forall x | x in U ensures Entered(G, U, x) {
      var y := UnpeeledSource(G, counts, rank, x);
      EnteredBy(G, U, y, x);
    }
    if Acyclic(G) {
      var u := AlwaysHigher(G, U, v, |G| + 1);
      HeightBounded(G, u);
    }
  }

  lemma EnteredBy(G: Graph, U: set<State>, y: State, x: State)
    requires y in U && Edge(G, y, x)
    ensures Entered(G, U, x)
  {
  }

  lemma HasEdgeIsVertex(G: Graph, v: State)
    requires ValidGraph(G) && HasEdge(G, v)
    ensures v < |G|
  {
  }

  lemma UnpeeledSource(G: Graph, counts: seq<nat>, rank: map<State, nat>, x: State) returns (y: State)
    requires Peeling(G, counts, [], rank) && HasEdge(G, x) && x !in rank && x < |G|
    ensures y < |G| && HasEdge(G, y) && y !in rank && Edge(G, y, x)
  {
    var S := Below(|G|) - rank.Keys;
    assert counts[x] > 0 by { assert x !in []; }
    assert Sources(G, S, x) != {};
    y :| y in Sources(G, S, x);
    assert HasEdge(G, y);
  }

  /** One vertex more is peeled. */
  lemma PeelStep(G: Graph, counts: seq<nat>, counts': seq<nat>, peelable: seq<State>, peelable': seq<State>,
                 rank: map<State, nat>, s: State)
    requires ValidGraph(G) && Peeling(G, counts, peelable + [s], rank)
    requires |counts'| == |G| && CountsSources(G, Below(|G|) - rank.Keys - {s}, counts') && Distinct(peelable')
    requires forall v: State :: v in peelable' <==> v in peelable || (v < |G| && counts[v] > 0 && counts'[v] == 0)
    requires forall v: State | v < |G| && counts[v] == 0 :: counts'[v] == 0
    requires forall v: State | v < |G| && counts[v] > counts'[v] :: Edge(G, s, v)
    ensures Peeling(G, counts', peelable', rank[s := |rank|]) && |rank[s := |rank|]| == |rank| + 1
  {
    hide CountsSources, Ranked, Distinct, HasEdge, Edge, ValidGraph;
    DistinctSnoc(peelable, s);
    assert s in peelable + [s];
    assert s < |G| && counts[s] == 0 && s !in rank && HasEdge(G, s);
    hide Waiting;
    PeelRanked(G, counts, rank, s);
    assert Below(|G|) - rank.Keys - {s} == Below(|G|) - rank[s := |rank|].Keys;
    PeelWaiting(G, counts, counts', peelable, peelable', rank, s);
  }

  lemma PeelWaiting(G: Graph, counts: seq<nat>, counts': seq<nat>, peelable: seq<State>, peelable': seq<State>,
                    rank: map<State, nat>, s: State)
    requires Waiting(G, counts, peelable + [s], rank) && s !in peelable && |counts'| == |G|
    requires forall v: State | v < |G| && v in rank :: counts[v] == 0
    requires forall v: State :: v in peelable' <==> v in peelable || (v < |G| && counts[v] > 0 && counts'[v] == 0)
    requires forall v: State | v < |G| && counts[v] == 0 :: counts'[v] == 0
    requires forall v: State | v < |G| && counts[v] > counts'[v] :: Edge(G, s, v)
    ensures Waiting(G, counts', peelable', rank[s := |rank|])
  {
    hide HasEdge, Edge;
    forall v: State ensures v in peelable' <==> v < |G| && v !in rank[s := |rank|] && counts'[v] == 0 && HasEdge(G, v) {
      assert v in peelable + [s] <==> v in peelable || v == s;
      if v < |G| && counts[v] > counts'[v] { EdgeGives(G, s, v); }
    }
  }

  lemma EdgeGives(G: Graph, s: State, v: State)
    requires Edge(G, s, v)
    ensures HasEdge(G, v) && HasEdge(G, s)
  {
  }

  // ---------- The method ----------

  /** Peel vertices without unpeeled sources for as long as there are any. */
  method Peel(G: Graph, counts0: seq<nat>, peelable0: seq<State>) returns (peeled: nat, ghost rank: map<State, nat>, ghost counts: seq<nat>)
    requires ValidGraph(G) && (forall v: State | v < |G| :: Distinct(G[v]))
    requires Peeling(G, counts0, peelable0, map[])
    ensures Peeling(G, counts, [], rank) && peeled == |rank|
  {
    hide *;
    rank, peeled := map[], 0;
    var cs, peelable := counts0, peelable0;
    while peelable != []
      invariant Peeling(G, cs, peelable, rank) && peeled == |rank|
      decreases Below(|G|) - rank.Keys
    {
      var s := peelable[|peelable| - 1];
      assert peelable == peelable[..|peelable| - 1] + [s];
      ghost var before, rest := cs, peelable[..|peelable| - 1];
      PeelTop(G, cs, rest, rank, s);
      assert s in Below(|G|) - rank.Keys;
      peeled := peeled + 1;
      cs, peelable := PeelTargets(G, s, cs, peelable[..|peelable| - 1], Below(|G|) - rank.Keys);
      PeelStep(G, before, cs, rest, peelable, rank, s);
      rank := rank[s := |rank|];
    }
    counts := cs;
  }

  lemma PeelTop(G: Graph, counts: seq<nat>, rest: seq<State>, rank: map<State, nat>, s: State)
    requires Peeling(G, counts, rest + [s], rank)
    ensures s < |G| && s !in rank && |counts| == |G| && CountsSources(G, Below(|G|) - rank.Keys, counts)
    ensures Distinct(rest) && forall v <- rest :: v < |G| && counts[v] == 0
  {
    DistinctSnoc(rest, s);
    assert s in rest + [s];
    forall v | v in rest ensures v < |G| && counts[v] == 0 { assert v in rest + [s]; }
  }

  /** Count the vertices entered by an edge. */
  method CountEntered(counts: seq<nat>) returns (touched: nat, ghost E: set<State>)
    ensures |E| == touched && forall u: State :: u in E <==> u < |counts| && counts[u] != 0
  {
    touched, E := 0, {};
    for v := 0 to |counts|
      invariant |E| == touched && forall u: State :: u in E <==> u < v && counts[u] != 0
    {
      if counts[v] != 0 {
        touched := touched + 1;
        E := E + {v};
      }
    }
  }

  /** Count the vertices that are only left by an edge too; those can be peeled first. */
  method FirstPeelable(G: Graph, sources: seq<State>, counts: seq<nat>) returns (touched: nat, peelable: seq<State>, ghost E: set<State>)
    requires |counts| == |G| && CountsSources(G, Below(|G|), counts) && Distinct(sources)
    requires forall v: State :: v in sources <==> v < |G| && G[v] != []
    ensures |E| == touched && forall v: State :: v in E <==> v < |G| && HasEdge(G, v)
    ensures Peeling(G, counts, peelable, map[])
  {
    hide CountsSources, HasEdge, Edge, Peeling, Distinct;
    touched, E := CountEntered(counts);
    peelable := [];
    assert Distinct(peelable) by { NoneDistinct(); }
    for k := 0 to |sources|
      invariant |E| == touched && Distinct(peelable)
      invariant forall u: State :: u in E <==> (u < |G| && counts[u] != 0) || u in peelable
      invariant forall u: State :: u in peelable <==> u in sources[..k] && u < |G| && counts[u] == 0
    {
      var s := sources[k];
      assert s in sources && sources[..k + 1] == sources[..k] + [s];
      assert s !in sources[..k] by { NewElement(sources, k); }
      if counts[s] == 0 {
        DistinctSnoc(peelable, s);
        touched, peelable, E := touched + 1, peelable + [s], E + {s};
      }
    }
    assert sources[..|sources|] == sources;
    FirstWaiting(G, sources, counts, peelable, E);
  }

  lemma NoneDistinct()
    ensures Distinct<State>([])
  {
  }

  lemma NewElement(s: seq<State>, k: nat)
    requires Distinct(s) && k < |s|
    ensures s[k] !in s[..k]
  {
  }

  lemma FirstWaiting(G: Graph, sources: seq<State>, counts: seq<nat>, peelable: seq<State>, E: set<State>)
    requires |counts| == |G| && CountsSources(G, Below(|G|), counts) && Distinct(peelable)
    requires forall v: State :: v in sources <==> v < |G| && G[v] != []
    requires forall u: State :: u in E <==> (u < |G| && counts[u] != 0) || u in peelable
    requires forall u: State :: u in peelable <==> u in sources && u < |G| && counts[u] == 0
    ensures forall v: State :: v in E <==> v < |G| && HasEdge(G, v)
    ensures Peeling(G, counts, peelable, map[])
  {
    hide Edge, HasEdge, CountsSources, Distinct;
    var none: map<State, nat> := map[];
    assert Below(|G|) - none.Keys == Below(|G|);
    forall v: State | v < |G| ensures HasEdge(G, v) <==> counts[v] != 0 || v in sources {
      VertexHasEdge(G, counts, v);
    }
  }

  lemma CountedHasEdge(G: Graph, S: set<State>, v: State)
    requires S == Sources(G, Below(|G|), v) && |S| != 0
    ensures HasEdge(G, v)
  {
    var u :| u in S;
    assert Edge(G, u, v);
  }

  lemma EdgeIsCounted(G: Graph, S: set<State>, u: State, v: State)
    requires S == Sources(G, Below(|G|), v) && Edge(G, u, v)
    ensures |S| != 0
  {
    assert u in S;
  }

  lemma VertexHasEdge(G: Graph, counts: seq<nat>, v: State)
    requires CountsSources(G, Below(|G|), counts) && v < |G|
    ensures HasEdge(G, v) <==> counts[v] != 0 || G[v] != []
  {
    var S := Sources(G, Below(|G|), v);
    assert |S| == counts[v];
    hide CountsSources, Sources;
    if counts[v] != 0 { CountedHasEdge(G, S, v); }
    if G[v] != [] { assert Edge(G, v, G[v][0]); }
    if HasEdge(G, v) && G[v] == [] {
      var u: State :| Edge(G, v, u) || Edge(G, u, v);
      EdgeIsCounted(G, S, u, v);
    }
  }

  ghost predicate SourcesBefore(G: Graph, sources: seq<State>, n: nat) {
    Distinct(sources) && forall u: State :: u in sources <==> u < n && u < |G| && G[u] != []
  }

  lemma SourcesSnoc(G: Graph, sources: seq<State>, v: State)
    requires SourcesBefore(G, sources, v) && v < |G|
    ensures SourcesBefore(G, if G[v] != [] then sources + [v] else sources, v + 1)
  {
    DistinctSnoc(sources, v);
    hide Distinct;
  }

  lemma SourcesAll(G: Graph, sources: seq<State>)
    requires SourcesBefore(G, sources, |G|)
    ensures Distinct(sources) && forall u: State :: u in sources <==> u < |G| && G[u] != []
  {
  }

  /** The sources of edges, and how many edges enter every vertex. */
  method CountEdges(G: Graph) returns (sources: seq<State>, counts: seq<nat>)
    requires ValidGraph(G) && forall v: State | v < |G| :: Distinct(G[v])
    ensures |counts| == |G| && CountsSources(G, Below(|G|), counts)
    ensures Distinct(sources) && forall u: State :: u in sources <==> u < |G| && G[u] != []
  {
    hide CountsSources, Distinct, ValidGraph, SourcesBefore;
    sources, counts := [], seq(|G|, _ => 0);
    NoSources(G, counts);
    for v := 0 to |G|
      invariant CountsSources(G, Below(v), counts) && SourcesBefore(G, sources, v)
    {
      SourcesSnoc(G, sources, v);
      if G[v] != [] { sources := sources + [v]; }
      counts := CountTargets(G, v, counts);
    }
    CountsSize(G, Below(|G|), counts);
    SourcesAll(G, sources);
  }

  /** `has_epsilon_cycle` on the graph of epsilon transitions */
  method HasCycle(G: Graph) returns (cyclic: bool)
    requires ValidGraph(G) && forall v: State | v < |G| :: Distinct(G[v])
    ensures cyclic <==> !Acyclic(G)
  {
    hide CountsSources, Distinct, ValidGraph, Acyclic, Peeling, HasEdge;
    var sources, counts := CountEdges(G);
    if sources == [] {
      forall v: State | v < |G| ensures G[v] == [] { assert v !in sources; }
      NoEdgesAcyclic(G);
      return false;
    }
    var touched, peelable, peeled;
    ghost var E, rank, rest;
    touched, peelable, E := FirstPeelable(G, sources, counts);
    peeled, rank, rest := Peel(G, counts, peelable);
    PeelingDecides(G, rest, rank, E);
    cyclic := peeled != touched;
  }

  lemma NoEdgesAcyclic(G: Graph)
    requires forall v: State | v < |G| :: G[v] == []
    ensures Acyclic(G)
  {
    assert forall v: State, w: State :: !Edge(G, v, w);
  }

  lemma CountsSize(G: Graph, S: set<State>, counts: seq<nat>)
    requires CountsSources(G, S, counts)
    ensures |counts| == |G|
  {
  }

  lemma NoSources(G: Graph, counts: seq<nat>)
    requires |counts| == |G| && forall v | 0 <= v < |G| :: counts[v] == 0
    ensures CountsSources(G, Below(0), counts) && SourcesBefore(G, [], 0)
  {
    forall v: State | v < |G| ensures counts[v] == |Sources(G, Below(0), v)| {
      assert Sources(G, Below(0), v) == {};
    }
  }

  /** All vertices with edges have been peeled just if there is no cycle. */
  lemma PeelingDecides(G: Graph, counts: seq<nat>, rank: map<State, nat>, E: set<State>)
    requires ValidGraph(G) && Peeling(G, counts, [], rank)
    requires forall v: State :: v in E <==> v < |G| && HasEdge(G, v)
    ensures |rank| != |E| <==> !Acyclic(G)
  {
    assert rank.Keys <= E && |rank.Keys| == |rank|;
    hide Edge, HasEdge, Acyclic;
    if rank.Keys == E {
      forall v: State ensures v in rank <==> HasEdge(G, v) {
        if HasEdge(G, v) { HasEdgeIsVertex(G, v); }
        assert v in rank.Keys <==> v in E;
      }
      PeeledAcyclic(G, rank);
    } else {
      var v :| v in E && v !in rank.Keys;
      SubsetSize(rank.Keys + {v}, E);
      UnpeeledCyclic(G, counts, rank, v);
    }
  }

  /** `has_epsilon_cycle` */
  method HasEpsilonCycle(T: Nft) returns (cyclic: bool)
    requires T.Valid()
    ensures cyclic <==> !NoEpsilonCycle(T)
  {
    var G := EpsilonGraph(T);
    forall v: State | v < |G| ensures Distinct(G[v]) && forall w <- G[v] :: w < |G| {
      EpsilonTargetsSorted(T, v);
    }
    cyclic := HasCycle(G);
  }

  lemma EpsilonTargetsSorted(T: Nft, v: State)
    requires T.Valid()
    ensures Distinct(Targets(T.aut.At(v), EPSILON)) && forall w <- Targets(T.aut.At(v), EPSILON) :: w < T.aut.size
  {
    assert ValidPost(T.aut.At(v), T.aut.size) by {
      assert v < |T.aut.delta| ==> ValidPost(T.aut.delta[v], T.aut.size);
    }
    TargetsSorted(T.aut.At(v), T.aut.size, EPSILON);
  }

  lemma {:induction false} TargetsSorted(post: StatePost, size: nat, a: Symbol)
    requires ValidPost(post, size)
    ensures Distinct(Targets(post, a)) && forall w <- Targets(post, a) :: w < size
  {
    if post != [] && post[0].symbol != a { TargetsSorted(post[1..], size, a); }
  }
}
