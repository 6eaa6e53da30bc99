/** Transducer membership by a search over configurations without repetition (the tape search of
    Nft::post with the stop condition of Nft::is_in_lang_by_levels, src/nft/nft.cc), and the choice
    between it and the fast search. */
module Membership {
  import opened Automata
  import opened Counting
  import opened Macrostates
  import opened Transducers
  import opened FastMembership

  /** What the search has seen: visited configurations, those still to be expanded, and whether the
      stop condition has fired. */
  datatype Explored = Explored(visited: set<Config>, queue: seq<Config>, hit: bool)

  /** Some run from an initial state leads to `c`. */
  ghost predicate Reached(T: Nft, words: seq<Word>, mode: JumpMode, c: Config) {
    exists p :: ConfPath(T, words, mode, p) && IsStart(T, words, p[0]) && p[|p| - 1] == c
  }

  ghost predicate IsStart(T: Nft, words: seq<Word>, c: Config) {
    c.state in T.aut.initial && c.heads == StartHeads(words)
  }

  lemma StartReached(T: Nft, words: seq<Word>, mode: JumpMode, c: Config)
    requires IsStart(T, words, c)
    ensures Reached(T, words, mode, c)
  {
    var p := [c];
    assert ConfPath(T, words, mode, p) && p[0] == c && p[|p| - 1] == c;
  }

  lemma StepReached(T: Nft, words: seq<Word>, mode: JumpMode, c: Config, d: Config)
    requires Reached(T, words, mode, c) && ConfStep(T, words, mode, c, d)
    ensures Reached(T, words, mode, d)
  {
    hide ConfStep, IsStart;
    var p: seq<Config> :| ConfPath(T, words, mode, p) && IsStart(T, words, p[0]) && p[|p| - 1] == c;
    var r := p + [d];
    forall i | 0 <= i < |r| - 1 ensures ConfStep(T, words, mode, r[i], r[i + 1]) {
      if i < |p| - 1 { assert ConfStep(T, words, mode, p[i], p[i + 1]); }
    }
    assert r[0] == p[0] && r[|r| - 1] == d;
  }

  lemma ReachedAccepts(T: Nft, words: seq<Word>, mode: JumpMode, prefix: bool, c: Config)
    requires Reached(T, words, mode, c) && Accepting(T, words, prefix, c)
    ensures InLanguage(T, words, mode, prefix)
  {
    hide ConfStep, Accepting;
    var p: seq<Config> :| ConfPath(T, words, mode, p) && IsStart(T, words, p[0]) && p[|p| - 1] == c;
    assert p[0] == Config(p[0].state, StartHeads(words));
    assert LeadsToAccept(T, words, mode, prefix, p[0]);
  }

  // ---------- Invariants ----------

  /** All visited configurations are reached; none accepts before the stop condition fires. */
  ghost predicate Sound(T: Nft, words: seq<Word>, mode: JumpMode, prefix: bool, K: Explored) {
    && (forall v <- K.visited :: ConfigOf(T, words, v) && Reached(T, words, mode, v))
    && (!K.hit ==> forall v <- K.visited :: !Accepting(T, words, prefix, v))
    && (forall c <- K.queue :: c in K.visited)
    && (K.hit ==> InLanguage(T, words, mode, prefix))
  }

  /** All successors of `c` have been visited. */
  ghost predicate Expanded(T: Nft, words: seq<Word>, mode: JumpMode, K: Explored, c: Config) {
    forall d | ConfStep(T, words, mode, c, d) :: d in K.visited
  }

  ghost predicate AllExpanded(T: Nft, words: seq<Word>, mode: JumpMode, K: Explored, current: set<Config>) {
    forall v <- K.visited | v !in K.queue && v !in current :: Expanded(T, words, mode, K, v)
  }

  /** `discover`: visit a configuration unless it has been visited. */
  function Discovered(T: Nft, words: seq<Word>, prefix: bool, K: Explored, d: Config): Explored {
    if K.hit || d in K.visited then K
    else if Accepting(T, words, prefix, d) then K.(visited := K.visited + {d}, hit := true)
    else K.(visited := K.visited + {d}, queue := K.queue + [d])
  }

  lemma DiscoverSound(T: Nft, words: seq<Word>, mode: JumpMode, prefix: bool, K: Explored, d: Config)
    requires Sound(T, words, mode, prefix, K) && ConfigOf(T, words, d) && Reached(T, words, mode, d)
    ensures Sound(T, words, mode, prefix, Discovered(T, words, prefix, K, d))
  {
    if Accepting(T, words, prefix, d) { ReachedAccepts(T, words, mode, prefix, d); }
    hide ConfigOf, Reached, Accepting, InLanguage;
  }

  lemma DiscoverExpanded(T: Nft, words: seq<Word>, mode: JumpMode, prefix: bool, K: Explored, d: Config, current: set<Config>)
    requires AllExpanded(T, words, mode, K, current)
    ensures var K' := Discovered(T, words, prefix, K, d);
            !K'.hit ==> AllExpanded(T, words, mode, K', current) && d in K'.visited
    ensures var K' := Discovered(T, words, prefix, K, d); K.visited <= K'.visited && (K.hit ==> K' == K)
    ensures var K' := Discovered(T, words, prefix, K, d); K' == K || (d !in K.visited && d in K'.visited)
  {
    hide ConfStep, Accepting;
    var K' := Discovered(T, words, prefix, K, d);
    assert forall c | c in K.queue :: c in K'.queue;
  }

  /** What holds while `c` is expanded, nothing having been accepted. */
  ghost predicate Expanding(T: Nft, words: seq<Word>, mode: JumpMode, prefix: bool, K: Explored, c: Config) {
    && Sound(T, words, mode, prefix, K) && c in K.visited && ConfigOf(T, words, c)
    && (!K.hit ==> AllExpanded(T, words, mode, K, {c}))
  }

  lemma DiscoverStep(T: Nft, words: seq<Word>, mode: JumpMode, prefix: bool, K: Explored, c: Config, d: Config)
    requires T.Valid() && Expanding(T, words, mode, prefix, K, c) && ConfStep(T, words, mode, c, d)
    ensures Expanding(T, words, mode, prefix, Discovered(T, words, prefix, K, d), c)
    ensures var K' := Discovered(T, words, prefix, K, d); !K'.hit ==> d in K'.visited
    ensures var K' := Discovered(T, words, prefix, K, d); Grows(T, words, K, K')
  {
    assert Reached(T, words, mode, c);
    ConfStepOf(T, words, mode, c, d);
    StepReached(T, words, mode, c, d);
    hide ConfigOf, Reached, Accepting, ConfStep, Nft.Valid, Expanded, InLanguage;
    DiscoverSound(T, words, mode, prefix, K, d);
    hide Sound;
    if !K.hit { DiscoverExpanded(T, words, mode, prefix, K, d, {c}); }
  }

  /** Nothing is forgotten, and every change visits a new configuration. */
  ghost predicate Grows(T: Nft, words: seq<Word>, K: Explored, K': Explored) {
    && K.visited <= K'.visited && (K.hit ==> K'.hit)
    && (K' == K || exists d :: d in K'.visited && d !in K.visited && ConfigOf(T, words, d))
  }

  lemma GrowsTrans(T: Nft, words: seq<Word>, K: Explored, L: Explored, M: Explored)
    requires Grows(T, words, K, L) && Grows(T, words, L, M)
    ensures Grows(T, words, K, M)
  {
    hide ConfigOf;
    if L == K {
    } else {
      var d :| d in L.visited && d !in K.visited && ConfigOf(T, words, d);
      assert d in M.visited;
    }
  }

  lemma GrowsSame(T: Nft, words: seq<Word>, K: Explored)
    ensures Grows(T, words, K, K)
  {
  }

  // ---------- Expansion ----------

  /** The transitions of `c` over `a` into `targets` have been followed in both ways. */
  ghost predicate Followed(T: Nft, words: seq<Word>, mode: JumpMode, K: Explored, c: Config, a: Symbol, targets: seq<State>) {
    forall p <- targets ::
      && (Reads(T, words, mode, c, a, p) ==> AfterReading(T, c, p) in K.visited)
      && (a == EPSILON ==> Config(p, c.heads) in K.visited)
  }

  lemma FollowedLater(T: Nft, words: seq<Word>, mode: JumpMode, K: Explored, K': Explored, c: Config, a: Symbol, targets: seq<State>)
    requires Followed(T, words, mode, K, c, a, targets) && K.visited <= K'.visited
    ensures Followed(T, words, mode, K', c, a, targets)
  {
    hide Reads, AfterReading;
  }

  /** Is one symbol readable on every tape the transition spans? */
  method SpanReadable(T: Nft, words: seq<Word>, mode: JumpMode, c: Config, a: Symbol, p: State) returns (ok: bool)
    requires ConfigOf(T, words, c) && HasLevel(T, p)
    ensures ok <==> Reads(T, words, mode, c, a, p)
  {
    var lo, hi := T.levels[c.state], SpanEnd(T, p);
    for l := lo to (if lo <= hi then hi else lo)
      invariant forall k | lo <= k < l :: c.heads[k] < |words[k]| && SymbolsMatch(Expected(mode, a, lo, k), words[k][c.heads[k]])
    {
      if c.heads[l] >= |words[l]| || !SymbolsMatch(Expected(mode, a, lo, l), words[l][c.heads[l]]) {
        return false;
      }
    }
    ok := true;
  }

  /** `expand` for one target */
  method FollowTarget(T: Nft, words: seq<Word>, mode: JumpMode, prefix: bool, K0: Explored, c: Config, a: Symbol, p: State)
    returns (K: Explored)
    requires T.Valid() && Expanding(T, words, mode, prefix, K0, c) && Step(T.aut, c.state, a, p) && HasLevel(T, p)
    ensures Expanding(T, words, mode, prefix, K, c) && Grows(T, words, K0, K)
    ensures !K.hit ==> (Reads(T, words, mode, c, a, p) ==> AfterReading(T, c, p) in K.visited)
                       && (a == EPSILON ==> Config(p, c.heads) in K.visited)
  {
    hide Sound, AllExpanded, Accepting, Nft.Valid, Step, HasLevel, Reads, AfterReading, Grows, Discovered, InLanguage;
    K := K0;
    GrowsSame(T, words, K);
    var ok := SpanReadable(T, words, mode, c, a, p);
    if ok {
      ReadingIsStep(T, words, mode, c, a, p);
      DiscoverStep(T, words, mode, prefix, K, c, AfterReading(T, c, p));
      K := Discovered(T, words, prefix, K, AfterReading(T, c, p));
      if K.hit { return; }
    }
    if a == EPSILON {
      ghost var L := K;
      EpsilonIsStep(T, words, mode, c, p);
      DiscoverStep(T, words, mode, prefix, K, c, Config(p, c.heads));
      K := Discovered(T, words, prefix, K, Config(p, c.heads));
      GrowsTrans(T, words, K0, L, K);
      GrowsKeeps(T, words, L, K);
    }
  }

  lemma GrowsKeeps(T: Nft, words: seq<Word>, K: Explored, K': Explored)
    requires Grows(T, words, K, K')
    ensures K.visited <= K'.visited && (K.hit ==> K'.hit)
  {
  }

  lemma ReadingIsStep(T: Nft, words: seq<Word>, mode: JumpMode, c: Config, a: Symbol, p: State)
    requires Step(T.aut, c.state, a, p) && Reads(T, words, mode, c, a, p)
    ensures ConfStep(T, words, mode, c, AfterReading(T, c, p))
  {
    assert AfterReading(T, c, p).state == p;
  }

  lemma EpsilonIsStep(T: Nft, words: seq<Word>, mode: JumpMode, c: Config, p: State)
    requires ConfigOf(T, words, c) && Step(T.aut, c.state, EPSILON, p) && HasLevel(T, p)
    ensures ConfStep(T, words, mode, c, Config(p, c.heads))
  {
  }

  /** `expand` */
  method FollowPost(T: Nft, words: seq<Word>, mode: JumpMode, prefix: bool, K0: Explored, c: Config, a: Symbol, targets: seq<State>)
    returns (K: Explored)
    requires T.Valid() && Expanding(T, words, mode, prefix, K0, c) && forall p <- targets :: Step(T.aut, c.state, a, p) && HasLevel(T, p)
    ensures Expanding(T, words, mode, prefix, K, c) && Grows(T, words, K0, K)
    ensures !K.hit ==> Followed(T, words, mode, K, c, a, targets)
  {
    hide *;
    K := K0;
    GrowsSame(T, words, K);
    FollowedNone(T, words, mode, K, c, a);
    assert targets[..0] == [];
    for k := 0 to |targets|
      invariant Expanding(T, words, mode, prefix, K, c) && Grows(T, words, K0, K)
      invariant !K.hit ==> Followed(T, words, mode, K, c, a, targets[..k])
    {
      assert targets[k] in targets;
      ghost var L := K;
      K := FollowTarget(T, words, mode, prefix, K, c, a, targets[k]);
      GrowsTrans(T, words, K0, L, K);
      if K.hit { return; }
      GrowsKeeps(T, words, L, K);
      FollowedLater(T, words, mode, L, K, c, a, targets[..k]);
      FollowedSnoc(T, words, mode, K, c, a, targets, k);
    }
    assert targets[..|targets|] == targets;
  }

  lemma FollowedNone(T: Nft, words: seq<Word>, mode: JumpMode, K: Explored, c: Config, a: Symbol)
    ensures Followed(T, words, mode, K, c, a, [])
  {
  }

  lemma FollowedSnoc(T: Nft, words: seq<Word>, mode: JumpMode, K: Explored, c: Config, a: Symbol, targets: seq<State>, k: nat)
    requires k < |targets| && Followed(T, words, mode, K, c, a, targets[..k])
    requires (Reads(T, words, mode, c, a, targets[k]) ==> AfterReading(T, c, targets[k]) in K.visited)
             && (a == EPSILON ==> Config(targets[k], c.heads) in K.visited)
    ensures Followed(T, words, mode, K, c, a, targets[..k + 1])
  {
    hide Reads, AfterReading;
    assert targets[..k + 1] == targets[..k] + [targets[k]];
  }

  // ---------- Which transitions are followed ----------

  /** Following all symbol posts expands the configuration. */
  lemma AllFollowed(T: Nft, words: seq<Word>, mode: JumpMode, K: Explored, c: Config)
    requires T.Valid() && ConfigOf(T, words, c)
    requires forall i | 0 <= i < |T.aut.At(c.state)| ::
               Followed(T, words, mode, K, c, T.aut.At(c.state)[i].symbol, T.aut.At(c.state)[i].targets)
    ensures Expanded(T, words, mode, K, c)
  {
    hide Reads, AfterReading, Nft.Valid, ConfigOf;
    forall d | ConfStep(T, words, mode, c, d) ensures d in K.visited {
      if Step(T.aut, c.state, EPSILON, d.state) && d.heads == c.heads {
        assert d == Config(d.state, c.heads);
      }
    }
  }

  /** The transitions followed at a symbol other than DONT_CARE, or at the end of the tape. */
  ghost predicate SomeFollowed(T: Nft, words: seq<Word>, mode: JumpMode, K: Explored, c: Config)
    requires ConfigOf(T, words, c)
  {
    var post, l := T.aut.At(c.state), LevelOf(T, c.state);
    && Followed(T, words, mode, K, c, EPSILON, Targets(post, EPSILON))
    && (c.heads[l] < |words[l]| ==>
          var s := words[l][c.heads[l]];
          && s != DONT_CARE
          && (s != EPSILON ==> Followed(T, words, mode, K, c, s, Targets(post, s)) && Followed(T, words, mode, K, c, DONT_CARE, Targets(post, DONT_CARE))))
  }

  lemma FollowedStep(T: Nft, words: seq<Word>, mode: JumpMode, K: Explored, c: Config, t: Symbol, d: Config)
    requires T.Valid() && Followed(T, words, mode, K, c, t, Targets(T.aut.At(c.state), t)) && Step(T.aut, c.state, t, d.state)
    ensures Reads(T, words, mode, c, t, d.state) && d == AfterReading(T, c, d.state) ==> d in K.visited
    ensures t == EPSILON && d.heads == c.heads ==> d in K.visited
  {
    TargetsKnown(T, c.state, t);
    hide Reads, AfterReading, Step, Nft.Valid;
    assert d == Config(d.state, d.heads);
  }

  /** Following the selected symbol posts expands the configuration. */
  lemma SelectionExpands(T: Nft, words: seq<Word>, mode: JumpMode, K: Explored, c: Config)
    requires T.Valid() && ConfigOf(T, words, c) && SomeFollowed(T, words, mode, K, c)
    ensures Expanded(T, words, mode, K, c)
  {
    hide Reads, AfterReading, Nft.Valid, ConfigOf, Followed, Step, Targets;
    forall d | ConfStep(T, words, mode, c, d) ensures d in K.visited {
      if Step(T.aut, c.state, EPSILON, d.state) && d.heads == c.heads {
        FollowedStep(T, words, mode, K, c, EPSILON, d);
      } else {
        var t :| Step(T.aut, c.state, t, d.state) && Reads(T, words, mode, c, t, d.state) && d == AfterReading(T, c, d.state);
        FirstTapeRead(T, words, mode, c, t, d.state);
        FollowedStep(T, words, mode, K, c, t, d);
      }
    }
  }

  /** Expand a configuration taken off the queue. */
  method ExpandConfig(T: Nft, words: seq<Word>, mode: JumpMode, prefix: bool, K0: Explored, c: Config) returns (K: Explored)
    requires T.Valid() && Expanding(T, words, mode, prefix, K0, c) && ConfigOf(T, words, c) && !K0.hit
    ensures Expanding(T, words, mode, prefix, K, c) && Grows(T, words, K0, K)
    ensures !K.hit ==> Expanded(T, words, mode, K, c)
  {
    var post, l := T.aut.At(c.state), LevelOf(T, c.state);
    hide Expanding, Nft.Valid, Grows, Followed, Expanded, Targets, Step;
    K := K0;
    GrowsSame(T, words, K);
    var hasSymbol := c.heads[l] < |words[l]|;
    var symbol := if hasSymbol then words[l][c.heads[l]] else EPSILON;
    if symbol == DONT_CARE {
      for i := 0 to |post|
        invariant Expanding(T, words, mode, prefix, K, c) && Grows(T, words, K0, K) && !K.hit
        invariant forall k | 0 <= k < i :: Followed(T, words, mode, K, c, post[k].symbol, post[k].targets)
      {
        PostTargetsKnown(T, c.state, i);
        ghost var L := K;
        K := FollowPost(T, words, mode, prefix, K, c, post[i].symbol, post[i].targets);
        GrowsTrans(T, words, K0, L, K);
        if K.hit { return; }
        GrowsKeeps(T, words, L, K);
        forall k | 0 <= k < i ensures Followed(T, words, mode, K, c, post[k].symbol, post[k].targets) {
          FollowedLater(T, words, mode, L, K, c, post[k].symbol, post[k].targets);
        }
      }
      AllFollowed(T, words, mode, K, c);
    } else {
      K := ExpandSelected(T, words, mode, prefix, K0, c, hasSymbol, symbol);
    }
  }

  method ExpandSelected(T: Nft, words: seq<Word>, mode: JumpMode, prefix: bool, K0: Explored, c: Config, hasSymbol: bool, symbol: Symbol)
    returns (K: Explored)
    requires T.Valid() && Expanding(T, words, mode, prefix, K0, c) && ConfigOf(T, words, c) && !K0.hit
    requires hasSymbol <==> c.heads[LevelOf(T, c.state)] < |words[LevelOf(T, c.state)]|
    requires symbol == (if hasSymbol then words[LevelOf(T, c.state)][c.heads[LevelOf(T, c.state)]] else EPSILON) && symbol != DONT_CARE
    ensures Expanding(T, words, mode, prefix, K, c) && Grows(T, words, K0, K)
    ensures !K.hit ==> Expanded(T, words, mode, K, c)
  {
    var post := T.aut.At(c.state);
    hide Expanding, Nft.Valid, Grows, Followed, Expanded, Targets, HasLevel, Step;
    TargetsKnown(T, c.state, EPSILON);
    K := FollowPost(T, words, mode, prefix, K0, c, EPSILON, Targets(post, EPSILON));
    if !K.hit && hasSymbol && symbol != EPSILON {
      ghost var L := K;
      TargetsKnown(T, c.state, symbol);
      K := FollowPost(T, words, mode, prefix, K, c, symbol, Targets(post, symbol));
      GrowsTrans(T, words, K0, L, K);
      GrowsKeeps(T, words, L, K);
      FollowedLater(T, words, mode, L, K, c, EPSILON, Targets(post, EPSILON));
      if !K.hit {
        ghost var M := K;
        TargetsKnown(T, c.state, DONT_CARE);
        K := FollowPost(T, words, mode, prefix, K, c, DONT_CARE, Targets(post, DONT_CARE));
        GrowsTrans(T, words, K0, M, K);
        GrowsKeeps(T, words, M, K);
        FollowedLater(T, words, mode, M, K, c, EPSILON, Targets(post, EPSILON));
        FollowedLater(T, words, mode, M, K, c, symbol, Targets(post, symbol));
      }
    }
    if !K.hit { SelectionExpands(T, words, mode, K, c); }
  }

  // ---------- Termination: configurations are finitely many ----------

  /** All positions of the heads */
  ghost function AllHeads(words: seq<Word>): (r: set<seq<nat>>)
    ensures forall h :: h in r ==> |h| == |words|
  {
    if words == [] then {[]}
    else
      var init, last := words[..|words| - 1], words[|words| - 1];
      set h, k | h in AllHeads(init) && k in Below(|last| + 1) :: h + [k]
  }

  lemma {:induction false} HeadsListed(words: seq<Word>, heads: seq<nat>)
    requires HeadsIn(words, heads)
    ensures heads in AllHeads(words)
  {
    if words != [] {
      var n := |words| - 1;
      HeadsListed(words[..n], heads[..n]);
      assert heads == heads[..n] + [heads[n]] && heads[n] in Below(|words[n]| + 1);
    }
  }

  ghost function Universe(T: Nft, words: seq<Word>): set<Config> {
    set q, h | q in Below(|T.levels|) && h in AllHeads(words) :: Config(q, h)
  }

  lemma ConfigListed(T: Nft, words: seq<Word>, c: Config)
    requires ConfigOf(T, words, c)
    ensures c in Universe(T, words)
  {
    HeadsListed(words, c.heads);
    assert c.state in Below(|T.levels|) && c == Config(c.state, c.heads);
  }

  ghost function Unvisited(T: Nft, words: seq<Word>, K: Explored): set<Config> {
    Universe(T, words) - K.visited
  }

  lemma GrowsShrinks(T: Nft, words: seq<Word>, K: Explored, K': Explored)
    requires Grows(T, words, K, K')
    ensures K' == K || Unvisited(T, words, K') < Unvisited(T, words, K)
  {
    hide ConfigOf, Universe;
    if K' != K {
      var d :| d in K'.visited && d !in K.visited && ConfigOf(T, words, d);
      ConfigListed(T, words, d);
    }
  }

  // ---------- The search ----------

  function Consumed(heads: seq<nat>): nat {
    if heads == [] then 0 else Consumed(heads[..|heads| - 1]) + heads[|heads| - 1]
  }

  /** Take a configuration with the most symbols read off the queue. */
  method PopBest(K0: Explored) returns (c: Config, K: Explored)
    requires K0.queue != []
    ensures K == K0.(queue := K.queue) && |K.queue| == |K0.queue| - 1
    ensures forall d :: d in K0.queue <==> d == c || d in K.queue
    ensures forall d <- K.queue :: Consumed(d.heads) <= Consumed(c.heads)
  {
    var best := 0;
    for i := 1 to |K0.queue|
      invariant best < |K0.queue| && forall k | 0 <= k < i :: Consumed(K0.queue[k].heads) <= Consumed(K0.queue[best].heads)
    {
      if Consumed(K0.queue[i].heads) > Consumed(K0.queue[best].heads) { best := i; }
    }
    c := K0.queue[best];
    var rest := K0.queue[..best] + K0.queue[best + 1..];
    assert K0.queue == K0.queue[..best] + [c] + K0.queue[best + 1..];
    K := K0.(queue := rest);
  }

  lemma PopExpanding(T: Nft, words: seq<Word>, mode: JumpMode, prefix: bool, K0: Explored, K: Explored, c: Config)
    requires Sound(T, words, mode, prefix, K0) && !K0.hit && AllExpanded(T, words, mode, K0, {})
    requires K == K0.(queue := K.queue) && forall d :: d in K0.queue <==> d == c || d in K.queue
    ensures Expanding(T, words, mode, prefix, K, c)
  {
    hide ConfigOf, Reached, Accepting, ConfStep, InLanguage;
    assert c in K0.queue;
  }

  lemma ExpandedAll(T: Nft, words: seq<Word>, mode: JumpMode, prefix: bool, K: Explored, c: Config)
    requires Expanding(T, words, mode, prefix, K, c) && (!K.hit ==> Expanded(T, words, mode, K, c))
    ensures Sound(T, words, mode, prefix, K) && (!K.hit ==> AllExpanded(T, words, mode, K, {}))
  {
    hide ConfigOf, Reached, Accepting, Expanded, InLanguage, Sound;
  }

  /** Discover the initial configurations. */
  method DiscoverInitial(T: Nft, words: seq<Word>, mode: JumpMode, prefix: bool) returns (K: Explored)
    requires T.Valid() && |words| == T.numOfLevels
    ensures Sound(T, words, mode, prefix, K)
    ensures !K.hit ==> AllExpanded(T, words, mode, K, {}) && forall q <- T.aut.initial :: Config(q, StartHeads(words)) in K.visited
  {
    K := Explored({}, [], false);
    NothingExplored(T, words, mode, prefix, K);
    hide Sound, AllExpanded, Discovered, Accepting;
    var todo := T.aut.initial;
    while todo != {}
      invariant todo <= T.aut.initial && Sound(T, words, mode, prefix, K)
      invariant !K.hit ==> AllExpanded(T, words, mode, K, {})
      invariant !K.hit ==> forall q <- T.aut.initial - todo :: Config(q, StartHeads(words)) in K.visited
    {
      var q: State :| q in todo;
      var c := Config(q, StartHeads(words));
      assert ConfigOf(T, words, c) && IsStart(T, words, c);
      StartReached(T, words, mode, c);
      DiscoverSound(T, words, mode, prefix, K, c);
      if !K.hit { DiscoverExpanded(T, words, mode, prefix, K, c, {}); } else { HitStays(T, words, prefix, K, c); }
      K := Discovered(T, words, prefix, K, c);
      todo := todo - {q};
    }
  }

  lemma HitStays(T: Nft, words: seq<Word>, prefix: bool, K: Explored, c: Config)
    requires K.hit
    ensures Discovered(T, words, prefix, K, c) == K
  {
  }

  lemma NothingExplored(T: Nft, words: seq<Word>, mode: JumpMode, prefix: bool, K: Explored)
    requires K == Explored({}, [], false)
    ensures Sound(T, words, mode, prefix, K) && AllExpanded(T, words, mode, K, {})
  {
  }

  /** When the queue is empty, everything reached has been visited. */
  lemma {:induction false} VisitedAlong(T: Nft, words: seq<Word>, mode: JumpMode, K: Explored, p: seq<Config>)
    requires AllExpanded(T, words, mode, K, {}) && K.queue == [] && ConfPath(T, words, mode, p) && p[0] in K.visited
    ensures p[|p| - 1] in K.visited
    decreases |p|
  {
    hide ConfStep;
    if |p| > 1 {
      assert ConfStep(T, words, mode, p[0], p[0 + 1]);
      assert Expanded(T, words, mode, K, p[0]);
      forall i | 0 <= i < |p[1..]| - 1 ensures ConfStep(T, words, mode, p[1..][i], p[1..][i + 1]) {
        assert ConfStep(T, words, mode, p[i + 1], p[i + 1 + 1]);
      }
      VisitedAlong(T, words, mode, K, p[1..]);
    }
  }

  lemma NothingAccepts(T: Nft, words: seq<Word>, mode: JumpMode, prefix: bool, K: Explored)
    requires Sound(T, words, mode, prefix, K) && !K.hit && AllExpanded(T, words, mode, K, {}) && K.queue == []
    requires forall q <- T.aut.initial :: Config(q, StartHeads(words)) in K.visited
    ensures !InLanguage(T, words, mode, prefix)
  {
    if InLanguage(T, words, mode, prefix) {
      var q: State :| q in T.aut.initial && LeadsToAccept(T, words, mode, prefix, Config(q, StartHeads(words)));
      var c := Config(q, StartHeads(words));
      var p: seq<Config> :| ConfPath(T, words, mode, p) && p[0] == c && Accepting(T, words, prefix, p[|p| - 1]);
      VisitedAlong(T, words, mode, K, p);
    }
  }

  /** The tape search stopped at the first accepting configuration: it works for every jump mode,
      with or without epsilon cycles. */
  method GeneralSearch(T: Nft, words: seq<Word>, mode: JumpMode, prefix: bool) returns (b: bool)
    requires T.Valid() && |words| == T.numOfLevels
    ensures b <==> InLanguage(T, words, mode, prefix)
  {
    hide *;
    var K := DiscoverInitial(T, words, mode, prefix);
    while !K.hit && K.queue != []
      invariant Sound(T, words, mode, prefix, K)
      invariant !K.hit ==> AllExpanded(T, words, mode, K, {}) && forall q <- T.aut.initial :: Config(q, StartHeads(words)) in K.visited
      decreases Unvisited(T, words, K), |K.queue|
    {
      ghost var K0 := K;
      var c;
      c, K := PopBest(K);
      PopExpanding(T, words, mode, prefix, K0, K, c);
      assert ConfigOf(T, words, c) by { ExpandingConfig(T, words, mode, prefix, K, c); }
      ghost var L := K;
      K := ExpandConfig(T, words, mode, prefix, K, c);
      GrowsShrinks(T, words, L, K);
      GrowsKeeps(T, words, L, K);
      ExpandedAll(T, words, mode, prefix, K, c);
      assert Unvisited(T, words, L) == Unvisited(T, words, K0) by { SameVisited(T, words, K0, L); }
    }
    if !K.hit {
      NothingAccepts(T, words, mode, prefix, K);
    } else {
      HitIsSound(T, words, mode, prefix, K);
    }
    b := K.hit;
  }

  lemma ExpandingConfig(T: Nft, words: seq<Word>, mode: JumpMode, prefix: bool, K: Explored, c: Config)
    requires Expanding(T, words, mode, prefix, K, c)
    ensures ConfigOf(T, words, c)
  {
  }

  lemma SameVisited(T: Nft, words: seq<Word>, K: Explored, L: Explored)
    requires L.visited == K.visited
    ensures Unvisited(T, words, L) == Unvisited(T, words, K)
  {
  }

  lemma HitIsSound(T: Nft, words: seq<Word>, mode: JumpMode, prefix: bool, K: Explored)
    requires Sound(T, words, mode, prefix, K) && K.hit
    ensures InLanguage(T, words, mode, prefix)
  {
  }

  // ---------- The choice ----------

  /** A jump is read alike unless the symbols beyond the first are padded. */
  lemma StepModes(T: Nft, words: seq<Word>, c: Config, d: Config)
    ensures ConfStep(T, words, NoJump, c, d) <==> ConfStep(T, words, RepeatSymbol, c, d)
  {
    forall t ensures Reads(T, words, NoJump, c, t, d.state) <==> Reads(T, words, RepeatSymbol, c, t, d.state) {
      ReadModes(T, words, c, t, d.state);
    }
    hide Reads, Step, AfterReading;
  }

  lemma ReadModes(T: Nft, words: seq<Word>, c: Config, t: Symbol, p: State)
    ensures Reads(T, words, NoJump, c, t, p) <==> Reads(T, words, RepeatSymbol, c, t, p)
  {
    hide SymbolsMatch, SpanEnd, LevelOf, HasLevel;
    assert forall lo: nat, l: nat :: Expected(NoJump, t, lo, l) == Expected(RepeatSymbol, t, lo, l) == t;
  }

  lemma ModesAgree(T: Nft, words: seq<Word>, prefix: bool)
    ensures InLanguage(T, words, NoJump, prefix) <==> InLanguage(T, words, RepeatSymbol, prefix)
  {
    forall c, d ensures ConfStep(T, words, NoJump, c, d) <==> ConfStep(T, words, RepeatSymbol, c, d) { StepModes(T, words, c, d); }
    hide ConfStep, Accepting;
    assert forall p :: ConfPath(T, words, NoJump, p) <==> ConfPath(T, words, RepeatSymbol, p);
    hide ConfPath;
    forall c ensures LeadsToAccept(T, words, NoJump, prefix, c) <==> LeadsToAccept(T, words, RepeatSymbol, prefix, c) {
      LeadsModes(T, words, prefix, c);
    }
    hide LeadsToAccept;
  }

  lemma LeadsModes(T: Nft, words: seq<Word>, prefix: bool, c: Config)
    requires forall p :: ConfPath(T, words, NoJump, p) <==> ConfPath(T, words, RepeatSymbol, p)
    ensures LeadsToAccept(T, words, NoJump, prefix, c) <==> LeadsToAccept(T, words, RepeatSymbol, prefix, c)
  {
    hide ConfStep, Accepting;
  }

  datatype Answer = WrongNumberOfTracks | Member(value: bool)

  /** `Nft::is_in_lang_by_levels`; the caller vouches for the absence of epsilon cycles. */
  method IsInLangByLevels(T: Nft, words: seq<Word>, prefix: bool, mode: JumpMode, hasEpsilonCycles: bool) returns (r: Answer)
    requires T.Valid() && (!hasEpsilonCycles ==> NoEpsilonCycle(T))
    ensures |words| != T.numOfLevels ==> r == WrongNumberOfTracks
    ensures |words| == T.numOfLevels ==> r == Member(InLanguage(T, words, mode, prefix))
  {
    hide InLanguage, NoEpsilonCycle, Nft.Valid;
    if |words| != T.numOfLevels { return WrongNumberOfTracks; }
    var b;
    if (mode == RepeatSymbol || mode == NoJump) && !hasEpsilonCycles {
      b := FastSearch(T, words, prefix);
      ModesAgree(T, words, prefix);
    } else {
      b := GeneralSearch(T, words, mode, prefix);
    }
    r := Member(b);
  }
}
