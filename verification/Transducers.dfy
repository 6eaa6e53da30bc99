/** Multi-tape transducers and what it means that a run reads its tapes (src/nft). */
module Transducers {
  import opened Automata
  import opened Counting
  import opened Graphs
  import opened Macrostates

  const DONT_CARE: Symbol := EPSILON - 1

  /** `symbols_match` */
  predicate SymbolsMatch(a: Symbol, b: Symbol) {
    if a == EPSILON || b == EPSILON then a == EPSILON && b == EPSILON
    else a == b || a == DONT_CARE || b == DONT_CARE
  }

  datatype JumpMode = RepeatSymbol | AppendDontCares | NoJump

  /** A transducer is an automaton whose states carry levels, one per tape.  Transitions lead to a
      higher level or back to level 0; one that skips levels is a jump. */
  datatype Nft = Nft(aut: Nfa, levels: seq<nat>, numOfLevels: nat) {
    ghost predicate Valid() {
      && aut.Valid() && numOfLevels >= 1
      && |levels| == aut.size && (forall q: State | q < |levels| :: levels[q] < numOfLevels)
      && (forall q <- aut.initial :: q < |levels| && levels[q] == 0)
      && (forall q: State, a: Symbol, p: State | Step(aut, q, a, p) :: LevelsFit(q, p) && a <= EPSILON)
    }

    predicate LevelsFit(q: State, p: State) {
      q < |levels| && p < |levels| && (levels[p] == 0 || levels[q] < levels[p])
    }
  }

  /** A state and the position of the reading head on every tape. */
  datatype Config = Config(state: State, heads: seq<nat>)

  predicate HeadsIn(words: seq<Word>, heads: seq<nat>) {
    |heads| == |words| && forall l | 0 <= l < |words| :: heads[l] <= |words[l]|
  }

  predicate HasLevel(T: Nft, q: State) {
    q < |T.levels| && T.levels[q] < T.numOfLevels
  }

  function LevelOf(T: Nft, q: State): nat {
    if q < |T.levels| then T.levels[q] else 0
  }

  predicate ConfigOf(T: Nft, words: seq<Word>, c: Config) {
    |words| == T.numOfLevels && HasLevel(T, c.state) && HeadsIn(words, c.heads)
  }

  /** Where the tapes read by a transition into `p` end. */
  function SpanEnd(T: Nft, p: State): nat {
    if LevelOf(T, p) == 0 then T.numOfLevels else LevelOf(T, p)
  }

  /** The symbol a transition over `t` that starts at level `lo` reads on level `l`. */
  function Expected(mode: JumpMode, t: Symbol, lo: nat, l: nat): Symbol {
    if l == lo || mode != AppendDontCares then t else DONT_CARE
  }

  /** A symbol matching `t` can be read on each tape of `lo..hi`. */
  predicate CanRead(words: seq<Word>, mode: JumpMode, heads: seq<nat>, t: Symbol, lo: nat, hi: nat)
    requires HeadsIn(words, heads) && hi <= |words|
  {
    forall l | lo <= l < hi :: heads[l] < |words[l]| && SymbolsMatch(Expected(mode, t, lo, l), words[l][heads[l]])
  }

  function Moved(heads: seq<nat>, lo: nat, hi: nat): seq<nat> {
    seq(|heads|, l requires 0 <= l < |heads| => if lo <= l < hi then heads[l] + 1 else heads[l])
  }

  /** The transition over `t` from `c` to `p` reads a symbol on every tape it spans. */
  predicate Reads(T: Nft, words: seq<Word>, mode: JumpMode, c: Config, t: Symbol, p: State) {
    ConfigOf(T, words, c) && HasLevel(T, p) && CanRead(words, mode, c.heads, t, LevelOf(T, c.state), SpanEnd(T, p))
  }

  function AfterReading(T: Nft, c: Config, p: State): Config {
    Config(p, Moved(c.heads, LevelOf(T, c.state), SpanEnd(T, p)))
  }

  /** One transition: an epsilon transition may be taken without reading; any transition may be taken
      by reading the tapes it spans (an epsilon then reads literal epsilons). */
  ghost predicate ConfStep(T: Nft, words: seq<Word>, mode: JumpMode, c: Config, d: Config) {
    && ConfigOf(T, words, c) && HasLevel(T, d.state)
    && ((Step(T.aut, c.state, EPSILON, d.state) && d.heads == c.heads)
        || exists t :: Step(T.aut, c.state, t, d.state) && Reads(T, words, mode, c, t, d.state) && d == AfterReading(T, c, d.state))
  }

  ghost predicate ConfPath(T: Nft, words: seq<Word>, mode: JumpMode, p: seq<Config>) {
    p != [] && forall i | 0 <= i < |p| - 1 :: ConfStep(T, words, mode, p[i], p[i + 1])
  }

  function StartHeads(words: seq<Word>): seq<nat> {
    seq(|words|, _ => 0)
  }

  predicate AllRead(words: seq<Word>, heads: seq<nat>) {
    |heads| == |words| && forall l | 0 <= l < |words| :: heads[l] == |words[l]|
  }

  /** A final state of level 0, with all tapes read unless prefixes count. */
  predicate Accepting(T: Nft, words: seq<Word>, prefix: bool, c: Config) {
    LevelOf(T, c.state) == 0 && c.state in T.aut.final && (prefix || AllRead(words, c.heads))
  }

  ghost predicate LeadsToAccept(T: Nft, words: seq<Word>, mode: JumpMode, prefix: bool, c: Config) {
    exists p :: ConfPath(T, words, mode, p) && p[0] == c && Accepting(T, words, prefix, p[|p| - 1])
  }

  /** Some run from an initial state reads the tapes. */
  ghost predicate InLanguage(T: Nft, words: seq<Word>, mode: JumpMode, prefix: bool) {
    exists q :: q in T.aut.initial && LeadsToAccept(T, words, mode, prefix, Config(q, StartHeads(words)))
  }

  // ---------- Facts ----------

  lemma AcceptingLeads(T: Nft, words: seq<Word>, mode: JumpMode, prefix: bool, c: Config)
    requires Accepting(T, words, prefix, c)
    ensures LeadsToAccept(T, words, mode, prefix, c)
  {
    var p := [c];
    assert ConfPath(T, words, mode, p) && p[0] == c && p[|p| - 1] == c;
  }

  lemma StepLeads(T: Nft, words: seq<Word>, mode: JumpMode, prefix: bool, c: Config, d: Config)
    requires ConfStep(T, words, mode, c, d) && LeadsToAccept(T, words, mode, prefix, d)
    ensures LeadsToAccept(T, words, mode, prefix, c)
  {
    hide ConfStep, Accepting;
    var p :| ConfPath(T, words, mode, p) && p[0] == d && Accepting(T, words, prefix, p[|p| - 1]);
    var r := [c] + p;
    forall i | 0 <= i < |r| - 1 ensures ConfStep(T, words, mode, r[i], r[i + 1]) {
      if i > 0 { assert ConfStep(T, words, mode, p[i - 1], p[i - 1 + 1]); }
    }
    assert r[0] == c && r[|r| - 1] == p[|p| - 1];
  }

  lemma LeadsBySteps(T: Nft, words: seq<Word>, mode: JumpMode, prefix: bool, c: Config) returns (d: Config)
    requires LeadsToAccept(T, words, mode, prefix, c) && !Accepting(T, words, prefix, c)
    ensures ConfStep(T, words, mode, c, d) && LeadsToAccept(T, words, mode, prefix, d)
  {
    hide ConfStep, Accepting;
    var p :| ConfPath(T, words, mode, p) && p[0] == c && Accepting(T, words, prefix, p[|p| - 1]);
    d := p[1];
    assert ConfStep(T, words, mode, p[0], p[0 + 1]);
    var r := p[1..];
    forall i | 0 <= i < |r| - 1 ensures ConfStep(T, words, mode, r[i], r[i + 1]) {
      assert ConfStep(T, words, mode, p[i + 1], p[i + 1 + 1]);
    }
    assert r[0] == d && r[|r| - 1] == p[|p| - 1];
  }

  lemma ConfStepOf(T: Nft, words: seq<Word>, mode: JumpMode, c: Config, d: Config)
    requires T.Valid() && ConfStep(T, words, mode, c, d)
    ensures ConfigOf(T, words, d)
  {
    hide Step, SymbolsMatch;
    if !(d.heads == c.heads) {
      assert HeadsIn(words, Moved(c.heads, LevelOf(T, c.state), SpanEnd(T, d.state)));
    }
  }

  // ---------- Epsilon cycles ----------

  /** The graph of epsilon transitions */
  function EpsilonGraph(T: Nft): (G: Graph)
    ensures |G| == T.aut.size && forall q: State | q < |G| :: G[q] == Targets(T.aut.At(q), EPSILON)
  {
    SymbolGraph(T.aut, EPSILON)
  }

  lemma EpsilonEdges(T: Nft, q: State, p: State)
    requires T.Valid()
    ensures Edge(EpsilonGraph(T), q, p) <==> Step(T.aut, q, EPSILON, p)
    ensures Edge(EpsilonGraph(T), q, p) ==> p < T.aut.size
  {
    SymbolEdges(T.aut, EPSILON, q, p);
  }

  /** `v` is reached from `u` by at least one edge. */
  ghost predicate ReachPlus(G: Graph, u: State, v: State) {
    exists x :: Edge(G, u, x) && Reach(G, x, v)
  }

  ghost predicate Acyclic(G: Graph) {
    forall v: State :: !ReachPlus(G, v, v)
  }

  ghost predicate NoEpsilonCycle(T: Nft) {
    Acyclic(EpsilonGraph(T))
  }

  /** How many vertices can be reached by at least one edge */
  ghost function Height(G: Graph, v: State): nat {
    |set x: State | x in Below(|G|) && ReachPlus(G, v, x)|
  }

  lemma ReachPlusTrans(G: Graph, u: State, v: State, w: State)
    requires Edge(G, u, v) && ReachPlus(G, v, w)
    ensures ReachPlus(G, u, w)
  {
    var x :| Edge(G, v, x) && Reach(G, x, w);
    ReachEdge(G, v, x);
    ReachTrans(G, v, x, w);
  }

  /** In an acyclic graph every edge leads to a lower vertex. */
  lemma EdgeDescends(G: Graph, u: State, v: State)
    requires Acyclic(G) && Edge(G, u, v) && v < |G|
    ensures Height(G, v) < Height(G, u)
  {
    var below, above := (set x: State | x in Below(|G|) && ReachPlus(G, v, x)), (set x: State | x in Below(|G|) && ReachPlus(G, u, x));
    forall x: State | x in below ensures x in above { ReachPlusTrans(G, u, v, x); }
    ReachSelf(G, v);
    assert v in above && v !in below;
    SubsetSize(below + {v}, above);
  }
}
