/** Transducer membership without a visited set (is_in_lang_by_levels_repeat_symbol of
    src/nft/operations.cc). */
module FastMembership {
  import opened Automata
  import opened Graphs
  import opened Macrostates
  import opened Transducers

  // ---------- What is pushed for a configuration ----------

  /** Epsilon transitions change the state only. */
  function EpsilonPushes(c: Config, targets: seq<State>): (r: seq<Config>)
    ensures forall d :: d in r <==> d.state in targets && d.heads == c.heads
  {
    if targets == [] then []
    else
      var init, last := targets[..|targets| - 1], targets[|targets| - 1];
      assert targets == init + [last];
      EpsilonPushes(c, init) + [Config(last, c.heads)]
  }

  /** The targets whose tapes can be read, the heads moved. */
  function ReadPushes(T: Nft, words: seq<Word>, c: Config, a: Symbol, targets: seq<State>): (r: seq<Config>)
  {
    if targets == [] then []
    else
      var init, last := targets[..|targets| - 1], targets[|targets| - 1];
      ReadPushes(T, words, c, a, init) + if Reads(T, words, RepeatSymbol, c, a, last) then [AfterReading(T, c, last)] else []
  }

  ghost predicate ReadTo(T: Nft, words: seq<Word>, c: Config, a: Symbol, targets: seq<State>, d: Config)
  {
    d.state in targets && Reads(T, words, RepeatSymbol, c, a, d.state) && d == AfterReading(T, c, d.state)
  }

  lemma {:induction false} ReadPushesElements(T: Nft, words: seq<Word>, c: Config, a: Symbol, targets: seq<State>, d: Config)
    ensures d in ReadPushes(T, words, c, a, targets) <==> ReadTo(T, words, c, a, targets, d)
  {
    if targets != [] {
      var init, last := targets[..|targets| - 1], targets[|targets| - 1];
      assert targets == init + [last];
      ReadPushesElements(T, words, c, a, init, d);
      hide Reads;
      assert AfterReading(T, c, last).state == last;
    }
  }

  /** Reading over every symbol but epsilon, as is done at a DONT_CARE. */
  function AllReadPushes(T: Nft, words: seq<Word>, c: Config, post: StatePost): (r: seq<Config>)
  {
    if post == [] then []
    else
      var last := post[|post| - 1];
      AllReadPushes(T, words, c, post[..|post| - 1])
      + if last.symbol == EPSILON then [] else ReadPushes(T, words, c, last.symbol, last.targets)
  }

  ghost predicate ReadOverSome(T: Nft, words: seq<Word>, c: Config, post: StatePost, d: Config)
  {
    exists i :: 0 <= i < |post| && post[i].symbol != EPSILON && ReadTo(T, words, c, post[i].symbol, post[i].targets, d)
  }

  lemma ReadOverSomeSnoc(T: Nft, words: seq<Word>, c: Config, post: StatePost, d: Config)
    requires post != []
    ensures var last := post[|post| - 1];
            ReadOverSome(T, words, c, post, d) <==>
              ReadOverSome(T, words, c, post[..|post| - 1], d) || (last.symbol != EPSILON && ReadTo(T, words, c, last.symbol, last.targets, d))
  {
    var init := post[..|post| - 1];
    hide ReadTo;
    if ReadOverSome(T, words, c, init, d) {
      var i :| 0 <= i < |init| && init[i].symbol != EPSILON && ReadTo(T, words, c, init[i].symbol, init[i].targets, d);
      assert post[i] == init[i];
    }
    if ReadOverSome(T, words, c, post, d) {
      var i :| 0 <= i < |post| && post[i].symbol != EPSILON && ReadTo(T, words, c, post[i].symbol, post[i].targets, d);
      assert i < |init| ==> post[i] == init[i];
    }
  }

  lemma {:induction false} AllReadPushesElements(T: Nft, words: seq<Word>, c: Config, post: StatePost, d: Config)
    ensures d in AllReadPushes(T, words, c, post) <==> ReadOverSome(T, words, c, post, d)
  {
    if post != [] {
      var init, last := post[..|post| - 1], post[|post| - 1];
      AllReadPushesElements(T, words, c, init, d);
      hide ReadTo, ReadPushes, ReadOverSome;
      ReadPushesElements(T, words, c, last.symbol, last.targets, d);
      ReadOverSomeSnoc(T, words, c, post, d);
    }
  }

  /** All that is pushed for `c`, in order; configurations may be pushed twice. */
  function Pushes(T: Nft, words: seq<Word>, c: Config): seq<Config>
    requires ConfigOf(T, words, c)
  {
    var post, l := T.aut.At(c.state), LevelOf(T, c.state);
    var epsilons := EpsilonPushes(c, Targets(post, EPSILON));
    if c.heads[l] == |words[l]| then epsilons
    else
      var s := words[l][c.heads[l]];
      epsilons
      + (if s == DONT_CARE then AllReadPushes(T, words, c, post) else [])
      + (if s != EPSILON then ReadPushes(T, words, c, DONT_CARE, Targets(post, DONT_CARE)) else [])
      + ReadPushes(T, words, c, s, Targets(post, s))
  }

  lemma TargetsKnown(T: Nft, q: State, a: Symbol)
    requires T.Valid()
    ensures forall p: State :: p in Targets(T.aut.At(q), a) <==> Step(T.aut, q, a, p)
    ensures forall p <- Targets(T.aut.At(q), a) :: HasLevel(T, p)
  {
    assert q < |T.aut.delta| ==> ValidPost(T.aut.delta[q], T.aut.size);
    forall p: State ensures p in Targets(T.aut.At(q), a) <==> Step(T.aut, q, a, p) {
      TargetsAreSteps(T.aut.At(q), a, p);
    }
    forall p | p in Targets(T.aut.At(q), a) ensures HasLevel(T, p) {
      StepIsState(T.aut, q, a, p);
    }
  }

  /** A transition that reads reads the tape of the source's level. */
  lemma FirstTapeRead(T: Nft, words: seq<Word>, mode: JumpMode, c: Config, t: Symbol, p: State)
    requires T.Valid() && Step(T.aut, c.state, t, p) && Reads(T, words, mode, c, t, p)
    ensures var l := LevelOf(T, c.state); l < SpanEnd(T, p) && c.heads[l] < |words[l]| && SymbolsMatch(t, words[l][c.heads[l]])
  {
    assert T.LevelsFit(c.state, p);
    var l := LevelOf(T, c.state);
    assert Expected(mode, t, l, l) == t;
    hide Step, SymbolsMatch;
  }

  ghost predicate ReadStep(T: Nft, words: seq<Word>, c: Config, t: Symbol, d: Config) {
    Step(T.aut, c.state, t, d.state) && Reads(T, words, RepeatSymbol, c, t, d.state) && d == AfterReading(T, c, d.state)
  }

  lemma ReadToIsStep(T: Nft, words: seq<Word>, c: Config, t: Symbol, d: Config)
    requires T.Valid()
    ensures ReadTo(T, words, c, t, Targets(T.aut.At(c.state), t), d) <==> ReadStep(T, words, c, t, d)
  {
    TargetsKnown(T, c.state, t);
    hide Reads, AfterReading, Step;
  }

  lemma ReadOverSomeIsStep(T: Nft, words: seq<Word>, c: Config, d: Config)
    ensures ReadOverSome(T, words, c, T.aut.At(c.state), d) <==> exists t :: t != EPSILON && ReadStep(T, words, c, t, d)
  {
    hide Reads, AfterReading;
    var post := T.aut.At(c.state);
    if ReadOverSome(T, words, c, post, d) {
      var i :| 0 <= i < |post| && post[i].symbol != EPSILON && ReadTo(T, words, c, post[i].symbol, post[i].targets, d);
      assert ReadStep(T, words, c, post[i].symbol, d);
    }
    forall t | t != EPSILON && ReadStep(T, words, c, t, d) ensures ReadOverSome(T, words, c, post, d) {
      var i :| 0 <= i < |post| && post[i].symbol == t && d.state in post[i].targets;
      assert ReadTo(T, words, c, post[i].symbol, post[i].targets, d);
    }
  }

  /** The cases in which `d` is pushed for `c`. */
  ghost predicate PushedFor(T: Nft, words: seq<Word>, c: Config, d: Config)
    requires ConfigOf(T, words, c)
  {
    || (Step(T.aut, c.state, EPSILON, d.state) && d.heads == c.heads)
    || (var l := LevelOf(T, c.state);
        && c.heads[l] != |words[l]|
        && (var s := words[l][c.heads[l]];
            || (s == DONT_CARE && exists t :: t != EPSILON && ReadStep(T, words, c, t, d))
            || (s != EPSILON && ReadStep(T, words, c, DONT_CARE, d))
            || ReadStep(T, words, c, s, d)))
  }

  lemma PushesElements(T: Nft, words: seq<Word>, c: Config, d: Config)
    requires T.Valid() && ConfigOf(T, words, c)
    ensures d in Pushes(T, words, c) <==> PushedFor(T, words, c, d)
  {
    var post, l := T.aut.At(c.state), LevelOf(T, c.state);
    TargetsKnown(T, c.state, EPSILON);
    hide ReadStep, ReadTo, ReadOverSome, EpsilonPushes, ReadPushes, AllReadPushes, Targets, Step, Nft.Valid;
    assert d in EpsilonPushes(c, Targets(post, EPSILON)) <==> Step(T.aut, c.state, EPSILON, d.state) && d.heads == c.heads;
    if c.heads[l] != |words[l]| {
      var s := words[l][c.heads[l]];
      AllReadPushesElements(T, words, c, post, d);
      ReadOverSomeIsStep(T, words, c, d);
      ReadPushesElements(T, words, c, DONT_CARE, Targets(post, DONT_CARE), d);
      ReadToIsStep(T, words, c, DONT_CARE, d);
      ReadPushesElements(T, words, c, s, Targets(post, s), d);
      ReadToIsStep(T, words, c, s, d);
    }
  }

  lemma ConfStepCases(T: Nft, words: seq<Word>, c: Config, d: Config)
    requires T.Valid() && ConfigOf(T, words, c)
    ensures ConfStep(T, words, RepeatSymbol, c, d) <==>
            (Step(T.aut, c.state, EPSILON, d.state) && d.heads == c.heads) || exists t :: ReadStep(T, words, c, t, d)
  {
    TargetsKnown(T, c.state, EPSILON);
    assert Step(T.aut, c.state, EPSILON, d.state) ==> HasLevel(T, d.state);
    hide Step, Nft.Valid;
    forall t | Step(T.aut, c.state, t, d.state) && Reads(T, words, RepeatSymbol, c, t, d.state) && d == AfterReading(T, c, d.state)
      ensures ReadStep(T, words, c, t, d) { }
    forall t | ReadStep(T, words, c, t, d)
      ensures Step(T.aut, c.state, t, d.state) && Reads(T, words, RepeatSymbol, c, t, d.state) && d == AfterReading(T, c, d.state) { }
    hide Reads, AfterReading;
  }

  /** The selection of symbol posts by the symbol under the head misses no transition. */
  lemma PushedIsStep(T: Nft, words: seq<Word>, c: Config, d: Config)
    requires T.Valid() && ConfigOf(T, words, c)
    ensures PushedFor(T, words, c, d) <==> ConfStep(T, words, RepeatSymbol, c, d)
  {
    forall t | ReadStep(T, words, c, t, d)
      ensures HasLevel(T, d.state)
      ensures var l := LevelOf(T, c.state); c.heads[l] < |words[l]| && SymbolsMatch(t, words[l][c.heads[l]])
    {
      FirstTapeRead(T, words, RepeatSymbol, c, t, d.state);
    }
    ConfStepCases(T, words, c, d);
    hide ReadStep, Reads, AfterReading, Step, Nft.Valid, ConfStep, HasLevel, Targets;
  }

  /** What is pushed is what can be reached in one step. */
  lemma PushesAreSteps(T: Nft, words: seq<Word>, c: Config, d: Config)
    requires T.Valid() && ConfigOf(T, words, c)
    ensures d in Pushes(T, words, c) <==> ConfStep(T, words, RepeatSymbol, c, d)
  {
    PushesElements(T, words, c, d);
    PushedIsStep(T, words, c, d);
  }

  // ---------- Termination ----------

  /** How many symbols are left on the tapes from `l` on */
  ghost function Remaining(words: seq<Word>, heads: seq<nat>, l: nat): nat
    requires HeadsIn(words, heads) && l <= |words|
    decreases |words| - l
  {
    if l == |words| then 0 else |words[l]| - heads[l] + Remaining(words, heads, l + 1)
  }

  lemma {:induction false} RemainingMoved(words: seq<Word>, heads: seq<nat>, lo: nat, hi: nat, l: nat)
    requires HeadsIn(words, heads) && hi <= |words| && l <= |words|
    requires forall k | lo <= k < hi :: heads[k] < |words[k]|
    ensures HeadsIn(words, Moved(heads, lo, hi))
    ensures Remaining(words, Moved(heads, lo, hi), l) <= Remaining(words, heads, l)
    ensures l <= lo < hi ==> Remaining(words, Moved(heads, lo, hi), l) < Remaining(words, heads, l)
    decreases |words| - l
  {
    if l < |words| { RemainingMoved(words, heads, lo, hi, l + 1); }
  }

  /** A step reads or, in the absence of epsilon cycles, descends. */
  lemma StepDescends(T: Nft, words: seq<Word>, mode: JumpMode, c: Config, d: Config)
    requires T.Valid() && ConfStep(T, words, mode, c, d)
    ensures ConfigOf(T, words, d)
    ensures || Remaining(words, d.heads, 0) < Remaining(words, c.heads, 0)
            || (d.heads == c.heads && Edge(EpsilonGraph(T), c.state, d.state) && d.state < T.aut.size)
  {
    ConfStepOf(T, words, mode, c, d);
    EpsilonEdges(T, c.state, d.state);
    if !(Step(T.aut, c.state, EPSILON, d.state) && d.heads == c.heads) {
      var t :| Step(T.aut, c.state, t, d.state) && Reads(T, words, mode, c, t, d.state) && d == AfterReading(T, c, d.state);
      FirstTapeRead(T, words, mode, c, t, d.state);
      hide Step, Nft.Valid, SymbolsMatch;
      RemainingMoved(words, c.heads, LevelOf(T, c.state), SpanEnd(T, d.state), 0);
    }
  }

  lemma PushDescends(T: Nft, words: seq<Word>, c: Config, d: Config)
    requires T.Valid() && NoEpsilonCycle(T) && ConfigOf(T, words, c) && d in Pushes(T, words, c)
    ensures ConfigOf(T, words, d)
    ensures || Remaining(words, d.heads, 0) < Remaining(words, c.heads, 0)
            || (d.heads == c.heads && Height(EpsilonGraph(T), d.state) < Height(EpsilonGraph(T), c.state))
  {
    PushesAreSteps(T, words, c, d);
    hide ConfStep, Pushes, Edge, Height, Acyclic, Remaining, EpsilonGraph;
    StepDescends(T, words, RepeatSymbol, c, d);
    if d.heads == c.heads && Edge(EpsilonGraph(T), c.state, d.state) && d.state < T.aut.size {
      EdgeDescends(EpsilonGraph(T), c.state, d.state);
    }
  }

  /** How many configurations are taken off the worklist because of `c` */
  ghost function Work(T: Nft, words: seq<Word>, c: Config): nat
    requires T.Valid() && NoEpsilonCycle(T) && ConfigOf(T, words, c)
    decreases Remaining(words, c.heads, 0), Height(EpsilonGraph(T), c.state), 1
  {
    var pushes := Pushes(T, words, c);
    assert forall d | d in pushes :: PushedBelow(T, words, c, d) by {
      forall d | d in pushes ensures PushedBelow(T, words, c, d) { PushDescends(T, words, c, d); }
    }
    1 + WorkBelow(T, words, c, pushes)
  }

  ghost predicate PushedBelow(T: Nft, words: seq<Word>, c: Config, d: Config)
    requires ConfigOf(T, words, c)
  {
    && ConfigOf(T, words, d)
    && (|| Remaining(words, d.heads, 0) < Remaining(words, c.heads, 0)
        || (d.heads == c.heads && Height(EpsilonGraph(T), d.state) < Height(EpsilonGraph(T), c.state)))
  }

  ghost function WorkBelow(T: Nft, words: seq<Word>, c: Config, pushes: seq<Config>): nat
    requires T.Valid() && NoEpsilonCycle(T) && ConfigOf(T, words, c) && forall d | d in pushes :: PushedBelow(T, words, c, d)
    decreases Remaining(words, c.heads, 0), Height(EpsilonGraph(T), c.state), 0, |pushes|
  {
    if pushes == [] then 0
    else
      assert PushedBelow(T, words, c, pushes[0]);
      Work(T, words, pushes[0]) + WorkBelow(T, words, c, pushes[1..])
  }

  ghost function TotalWork(T: Nft, words: seq<Word>, work: seq<Config>): nat
    requires T.Valid() && NoEpsilonCycle(T) && forall c <- work :: ConfigOf(T, words, c)
  {
    if work == [] then 0 else Work(T, words, work[0]) + TotalWork(T, words, work[1..])
  }

  lemma {:induction false} WorkBelowIsTotal(T: Nft, words: seq<Word>, c: Config, pushes: seq<Config>)
    requires T.Valid() && NoEpsilonCycle(T) && ConfigOf(T, words, c) && forall d | d in pushes :: PushedBelow(T, words, c, d)
    ensures forall d <- pushes :: ConfigOf(T, words, d)
    ensures WorkBelow(T, words, c, pushes) == TotalWork(T, words, pushes)
  {
    hide Work, NoEpsilonCycle, Nft.Valid, ConfigOf;
    if pushes != [] {
      WorkBelowIsTotal(T, words, c, pushes[1..]);
      assert pushes[0] in pushes;
    }
  }

  lemma {:induction false} TotalWorkAppend(T: Nft, words: seq<Word>, a: seq<Config>, b: seq<Config>)
    requires T.Valid() && NoEpsilonCycle(T) && (forall c <- a :: ConfigOf(T, words, c)) && (forall c <- b :: ConfigOf(T, words, c))
    ensures TotalWork(T, words, a + b) == TotalWork(T, words, a) + TotalWork(T, words, b)
  {
    hide Work, NoEpsilonCycle, Nft.Valid, ConfigOf;
    if a == [] {
      assert a + b == b;
    } else {
      assert (a + b)[1..] == a[1..] + b;
      TotalWorkAppend(T, words, a[1..], b);
    }
  }

  /** Taking a configuration off the worklist and pushing its successors leaves less work. */
  lemma PopReducesWork(T: Nft, words: seq<Word>, work: seq<Config>)
    requires T.Valid() && NoEpsilonCycle(T) && (forall c <- work :: ConfigOf(T, words, c)) && work != []
    ensures var rest := work[1..] + Pushes(T, words, work[0]);
            (forall c <- rest :: ConfigOf(T, words, c)) && TotalWork(T, words, rest) < TotalWork(T, words, work)
  {
    var c := work[0];
    var pushes := Pushes(T, words, c);
    forall d | d in pushes ensures PushedBelow(T, words, c, d) { PushDescends(T, words, c, d); }
    assert Work(T, words, c) == 1 + WorkBelow(T, words, c, pushes);
    WorkBelowIsTotal(T, words, c, pushes);
    TotalWorkAppend(T, words, work[1..], pushes);
  }

  // ---------- The search ----------

  /** Can the symbol under the head of tape `l` be read over `a`? */
  predicate CanReadOn(words: seq<Word>, heads: seq<nat>, a: Symbol, l: nat) {
    l < |words| && l < |heads| && heads[l] < |words[l]| && SymbolsMatch(a, words[l][heads[l]])
  }

  /** The tapes from `lo` to `k` have been read. */
  ghost predicate ReadUpTo(words: seq<Word>, heads0: seq<nat>, a: Symbol, lo: nat, k: nat, heads: seq<nat>) {
    heads == Moved(heads0, lo, k) && forall l | lo <= l < k :: CanReadOn(words, heads0, a, l)
  }

  lemma ReadNone(words: seq<Word>, heads: seq<nat>, a: Symbol, lo: nat)
    ensures ReadUpTo(words, heads, a, lo, lo, heads)
  {
    assert Moved(heads, lo, lo) == heads;
  }

  lemma ReadOneMore(words: seq<Word>, heads0: seq<nat>, a: Symbol, lo: nat, k: nat, heads: seq<nat>)
    requires ReadUpTo(words, heads0, a, lo, k, heads) && lo <= k < |heads0|
    ensures k < |heads| && (CanReadOn(words, heads, a, k) <==> CanReadOn(words, heads0, a, k))
    ensures CanReadOn(words, heads, a, k) ==> ReadUpTo(words, heads0, a, lo, k + 1, heads[k := heads[k] + 1])
  {
    assert heads[k := heads[k] + 1] == Moved(heads0, lo, k + 1);
  }

  lemma ReadAll(T: Nft, words: seq<Word>, c: Config, a: Symbol, p: State, heads: seq<nat>)
    requires ConfigOf(T, words, c) && HasLevel(T, p)
    ensures ReadUpTo(words, c.heads, a, LevelOf(T, c.state), SpanEnd(T, p), heads) ==>
              Reads(T, words, RepeatSymbol, c, a, p) && Config(p, heads) == AfterReading(T, c, p)
    ensures forall l | LevelOf(T, c.state) <= l < SpanEnd(T, p) && !CanReadOn(words, c.heads, a, l) :: !Reads(T, words, RepeatSymbol, c, a, p)
  {
    var lo, hi := LevelOf(T, c.state), SpanEnd(T, p);
    if ReadUpTo(words, c.heads, a, lo, hi, heads) {
      forall l | lo <= l < hi
        ensures c.heads[l] < |words[l]| && SymbolsMatch(Expected(RepeatSymbol, a, lo, l), words[l][c.heads[l]])
      {
        assert CanReadOn(words, c.heads, a, l);
      }
    }
  }

  /** Read the tapes of all levels, for a transition from level 0 to level 0. */
  method ReadLevels(T: Nft, words: seq<Word>, c: Config, a: Symbol, p: State) returns (ok: bool, heads: seq<nat>)
    requires ConfigOf(T, words, c) && HasLevel(T, p) && LevelOf(T, c.state) == LevelOf(T, p) == 0
    ensures if ok then ReadUpTo(words, c.heads, a, 0, SpanEnd(T, p), heads) else !Reads(T, words, RepeatSymbol, c, a, p)
  {
    hide ReadUpTo, CanReadOn, Reads, AfterReading;
    heads := c.heads;
    ReadNone(words, heads, a, 0);
    var l := 0;
    while l < T.numOfLevels
      invariant l <= T.numOfLevels && ReadUpTo(words, c.heads, a, 0, l, heads)
    {
      ReadOneMore(words, c.heads, a, 0, l, heads);
      if !CanReadOn(words, heads, a, l) {
        ReadAll(T, words, c, a, p, heads);
        return false, heads;
      }
      heads := heads[l := heads[l] + 1];
      l := l + 1;
    }
    ok := true;
  }

  lemma NextLevel(k: nat, n: nat)
    requires k < n
    ensures (k + 1) % n == if k + 1 == n then 0 else k + 1
  {
  }

  /** Read level after level until the target's, the levels wrapping around. */
  method ReadJump(T: Nft, words: seq<Word>, c: Config, a: Symbol, p: State) returns (ok: bool, heads: seq<nat>)
    requires ConfigOf(T, words, c) && HasLevel(T, p) && LevelOf(T, c.state) < SpanEnd(T, p)
    requires LevelOf(T, c.state) != 0 || LevelOf(T, p) != 0
    ensures if ok then ReadUpTo(words, c.heads, a, LevelOf(T, c.state), SpanEnd(T, p), heads) else !Reads(T, words, RepeatSymbol, c, a, p)
  {
    hide ReadUpTo, CanReadOn, Reads, AfterReading;
    var level, target, n := T.levels[c.state], T.levels[p], T.numOfLevels;
    heads := c.heads;
    ReadNone(words, heads, a, level);
    var l := level;
    ghost var k := level;
    while l != target
      invariant level <= k <= SpanEnd(T, p) && l == (if k == n then 0 else k) && ReadUpTo(words, c.heads, a, level, k, heads)
      invariant l == target ==> k == SpanEnd(T, p)
      decreases n - k
    {
      ReadOneMore(words, c.heads, a, level, k, heads);
      if !CanReadOn(words, heads, a, l) {
        ReadAll(T, words, c, a, p, heads);
        return false, heads;
      }
      heads := heads[l := heads[l] + 1];
      NextLevel(k, n);
      l := (l + 1) % n;
      k := k + 1;
    }
    ok := true;
  }

  /** Move over the transition from `c` to `p`: symbols are read level after level until the target's
      level, the levels wrapping around; from level 0 to level 0 all levels are read. */
  method ReadSpan(T: Nft, words: seq<Word>, c: Config, a: Symbol, p: State) returns (ok: bool, heads: seq<nat>)
    requires ConfigOf(T, words, c) && HasLevel(T, p) && T.LevelsFit(c.state, p)
    ensures ok <==> Reads(T, words, RepeatSymbol, c, a, p)
    ensures ok ==> Config(p, heads) == AfterReading(T, c, p)
  {
    hide ReadUpTo, CanReadOn, Reads, AfterReading;
    if T.levels[c.state] == 0 && T.levels[p] == 0 {
      ok, heads := ReadLevels(T, words, c, a, p);
    } else {
      ok, heads := ReadJump(T, words, c, a, p);
    }
    ReadAll(T, words, c, a, p, heads);
  }

  lemma ReadPushesSnoc(T: Nft, words: seq<Word>, c: Config, a: Symbol, targets: seq<State>, k: nat)
    requires k < |targets|
    ensures ReadPushes(T, words, c, a, targets[..k + 1]) == ReadPushes(T, words, c, a, targets[..k])
              + if Reads(T, words, RepeatSymbol, c, a, targets[k]) then [AfterReading(T, c, targets[k])] else []
  {
    assert targets[..k + 1][..k] == targets[..k];
  }

  /** Try the transitions of `c` over `a` by reading. */
  method HandlePost(T: Nft, words: seq<Word>, prefix: bool, c: Config, a: Symbol, targets: seq<State>)
    returns (found: bool, pushed: seq<Config>, ghost hit: Config)
    requires T.Valid() && ConfigOf(T, words, c) && forall p <- targets :: Step(T.aut, c.state, a, p) && HasLevel(T, p)
    ensures !found ==> pushed == ReadPushes(T, words, c, a, targets) && forall d <- pushed :: !Accepting(T, words, prefix, d)
    ensures found ==> ConfStep(T, words, RepeatSymbol, c, hit) && Accepting(T, words, prefix, hit)
  {
    hide Reads, AfterReading, ReadPushes, Accepting, ConfStep, Step, ValidPost, SymbolsMatch, ConfigOf;
    pushed, hit, found := [], c, false;
    assert targets[..0] == [] && ReadPushes(T, words, c, a, []) == [] by { NoReadPushes(T, words, c, a); }
    for k := 0 to |targets|
      invariant pushed == ReadPushes(T, words, c, a, targets[..k])
      invariant forall d <- pushed :: !Accepting(T, words, prefix, d)
    {
      var p := targets[k];
      assert p in targets;
      var ok, heads := ReadSpan(T, words, c, a, p);
      ReadPushesSnoc(T, words, c, a, targets, k);
      if ok {
        var d := Config(p, heads);
        if Accepting(T, words, prefix, d) {
          ReadIsConfStep(T, words, c, a, p);
          return true, pushed, d;
        }
        pushed := pushed + [d];
      }
    }
    assert targets[..|targets|] == targets;
  }

  lemma NoReadPushes(T: Nft, words: seq<Word>, c: Config, a: Symbol)
    ensures ReadPushes(T, words, c, a, []) == []
  {
  }

  lemma ReadIsConfStep(T: Nft, words: seq<Word>, c: Config, a: Symbol, p: State)
    requires ConfigOf(T, words, c) && Step(T.aut, c.state, a, p) && Reads(T, words, RepeatSymbol, c, a, p)
    ensures ConfStep(T, words, RepeatSymbol, c, AfterReading(T, c, p))
  {
    assert AfterReading(T, c, p).state == p;
  }

  lemma AllReadPushesSnoc(T: Nft, words: seq<Word>, c: Config, post: StatePost, k: nat)
    requires k < |post|
    ensures AllReadPushes(T, words, c, post[..k + 1]) == AllReadPushes(T, words, c, post[..k])
              + if post[k].symbol == EPSILON then [] else ReadPushes(T, words, c, post[k].symbol, post[k].targets)
  {
    assert post[..k + 1][..k] == post[..k];
  }

  lemma PostTargetsKnown(T: Nft, q: State, k: nat)
    requires T.Valid() && k < |T.aut.At(q)|
    ensures forall p <- T.aut.At(q)[k].targets :: Step(T.aut, q, T.aut.At(q)[k].symbol, p) && HasLevel(T, p)
  {
    forall p | p in T.aut.At(q)[k].targets ensures Step(T.aut, q, T.aut.At(q)[k].symbol, p) && HasLevel(T, p) {
      StepIsState(T.aut, q, T.aut.At(q)[k].symbol, p);
    }
  }

  /** At a DONT_CARE all symbols but epsilon are tried. */
  method HandleAllPosts(T: Nft, words: seq<Word>, prefix: bool, c: Config) returns (found: bool, pushed: seq<Config>, ghost hit: Config)
    requires T.Valid() && ConfigOf(T, words, c)
    ensures !found ==> pushed == AllReadPushes(T, words, c, T.aut.At(c.state)) && forall d <- pushed :: !Accepting(T, words, prefix, d)
    ensures found ==> ConfStep(T, words, RepeatSymbol, c, hit) && Accepting(T, words, prefix, hit)
  {
    hide Accepting, ConfStep, Step, Nft.Valid, ReadPushes, AllReadPushes, HasLevel;
    pushed, hit, found := [], c, false;
    var post := T.aut.At(c.state);
    assert post[..0] == [] && AllReadPushes(T, words, c, []) == [] by { NoAllReadPushes(T, words, c); }
    for k := 0 to |post|
      invariant pushed == AllReadPushes(T, words, c, post[..k])
      invariant forall d <- pushed :: !Accepting(T, words, prefix, d)
    {
      AllReadPushesSnoc(T, words, c, post, k);
      if post[k].symbol != EPSILON {
        PostTargetsKnown(T, c.state, k);
        var more;
        found, more, hit := HandlePost(T, words, prefix, c, post[k].symbol, post[k].targets);
        if found { return; }
        pushed := pushed + more;
      }
    }
    assert post[..|post|] == post;
  }

  lemma NoAllReadPushes(T: Nft, words: seq<Word>, c: Config)
    ensures AllReadPushes(T, words, c, []) == []
  {
  }

  /** Epsilon transitions without reading. */
  method HandleEpsilon(T: Nft, words: seq<Word>, prefix: bool, c: Config) returns (found: bool, pushed: seq<Config>, ghost hit: Config)
    requires T.Valid() && ConfigOf(T, words, c)
    ensures !found ==> pushed == EpsilonPushes(c, Targets(T.aut.At(c.state), EPSILON)) && forall d <- pushed :: !Accepting(T, words, prefix, d)
    ensures found ==> ConfStep(T, words, RepeatSymbol, c, hit) && Accepting(T, words, prefix, hit)
  {
    TargetsKnown(T, c.state, EPSILON);
    hide Accepting, Step, Nft.Valid, HasLevel, Reads, Targets;
    pushed, hit, found := [], c, false;
    var targets := Targets(T.aut.At(c.state), EPSILON);
    assert targets[..0] == [];
    for k := 0 to |targets|
      invariant pushed == EpsilonPushes(c, targets[..k])
      invariant forall d <- pushed :: !Accepting(T, words, prefix, d)
    {
      assert targets[..k + 1][..k] == targets[..k] && targets[k] in targets;
      var d := Config(targets[k], c.heads);
      if Accepting(T, words, prefix, d) {
        return true, pushed, d;
      }
      pushed := pushed + [d];
    }
    assert targets[..|targets|] == targets;
  }

  /** Process one configuration taken off the worklist. */
  method Expand(T: Nft, words: seq<Word>, prefix: bool, c: Config) returns (found: bool, pushed: seq<Config>, ghost hit: Config)
    requires T.Valid() && ConfigOf(T, words, c)
    ensures !found ==> pushed == Pushes(T, words, c) && forall d <- pushed :: !Accepting(T, words, prefix, d)
    ensures found ==> ConfStep(T, words, RepeatSymbol, c, hit) && Accepting(T, words, prefix, hit)
  {
    hide Accepting, ConfStep, Step, Nft.Valid, ReadPushes, AllReadPushes, EpsilonPushes, Targets;
    var more;
    var post, l := T.aut.At(c.state), T.levels[c.state];
    found, pushed, hit := HandleEpsilon(T, words, prefix, c);
    if found || c.heads[l] == |words[l]| { return; }
    var s := words[l][c.heads[l]];
    if s == DONT_CARE {
      found, more, hit := HandleAllPosts(T, words, prefix, c);
      if found { return; }
      pushed := pushed + more;
    }
    if s != EPSILON {
      TargetsKnown(T, c.state, DONT_CARE);
      found, more, hit := HandlePost(T, words, prefix, c, DONT_CARE, Targets(post, DONT_CARE));
      if found { return; }
      pushed := pushed + more;
    }
    TargetsKnown(T, c.state, s);
    found, more, hit := HandlePost(T, words, prefix, c, s, Targets(post, s));
    pushed := pushed + more;
  }

  /** Some configuration on the worklist leads to acceptance. */
  ghost predicate Alive(T: Nft, words: seq<Word>, prefix: bool, work: seq<Config>) {
    exists c :: c in work && LeadsToAccept(T, words, RepeatSymbol, prefix, c)
  }

  ghost predicate Waiting(T: Nft, words: seq<Word>, prefix: bool, work: seq<Config>) {
    forall c <- work :: ConfigOf(T, words, c) && !Accepting(T, words, prefix, c)
  }

  lemma PopKeepsAlive(T: Nft, words: seq<Word>, prefix: bool, work: seq<Config>)
    requires T.Valid() && Waiting(T, words, prefix, work) && work != []
    ensures Alive(T, words, prefix, work) <==> Alive(T, words, prefix, work[1..] + Pushes(T, words, work[0]))
  {
    var c, rest := work[0], work[1..] + Pushes(T, words, work[0]);
    hide Accepting, Pushes, ConfigOf, LeadsToAccept, Nft.Valid;
    assert work == [c] + work[1..];
    assert c in work;
    if LeadsToAccept(T, words, RepeatSymbol, prefix, c) {
      var d := LeadsBySteps(T, words, RepeatSymbol, prefix, c);
      PushesAreSteps(T, words, c, d);
      assert d in rest;
    }
    forall d | d in Pushes(T, words, c) && LeadsToAccept(T, words, RepeatSymbol, prefix, d)
      ensures LeadsToAccept(T, words, RepeatSymbol, prefix, c)
    {
      PushesAreSteps(T, words, c, d);
      StepLeads(T, words, RepeatSymbol, prefix, c, d);
    }
  }

  /** The initial configurations, none of which accepts. */
  method InitialConfigs(T: Nft, words: seq<Word>, prefix: bool) returns (work: seq<Config>)
    requires T.Valid() && |words| == T.numOfLevels
    requires forall q <- T.aut.initial :: !Accepting(T, words, prefix, Config(q, StartHeads(words)))
    ensures Waiting(T, words, prefix, work)
    ensures Alive(T, words, prefix, work) <==> InLanguage(T, words, RepeatSymbol, prefix)
  {
    hide Accepting, LeadsToAccept;
    work := [];
    var todo := T.aut.initial;
    while todo != {}
      invariant todo <= T.aut.initial
      invariant forall d :: d in work <==> d.state in T.aut.initial - todo && d.heads == StartHeads(words)
    {
      var q: State :| q in todo;
      work := work + [Config(q, StartHeads(words))];
      todo := todo - {q};
    }
    forall d | d in work ensures ConfigOf(T, words, d) && !Accepting(T, words, prefix, d) {
      assert d == Config(d.state, StartHeads(words));
    }
    if InLanguage(T, words, RepeatSymbol, prefix) {
      var q: State :| q in T.aut.initial && LeadsToAccept(T, words, RepeatSymbol, prefix, Config(q, StartHeads(words)));
      assert Config(q, StartHeads(words)) in work;
    }
    if Alive(T, words, prefix, work) {
      var d :| d in work && LeadsToAccept(T, words, RepeatSymbol, prefix, d);
      assert d == Config(d.state, StartHeads(words));
    }
  }

  /** Is some initial state final, with nothing to read if the tapes must be read? */
  method AcceptsAtOnce(T: Nft, words: seq<Word>, prefix: bool) returns (b: bool)
    requires T.Valid()
    ensures b ==> InLanguage(T, words, RepeatSymbol, prefix)
    ensures !b ==> forall q <- T.aut.initial :: !Accepting(T, words, prefix, Config(q, StartHeads(words)))
  {
    hide LeadsToAccept, Step;
    b := !(T.aut.final !! T.aut.initial) && (prefix || AllRead(words, StartHeads(words)));
    if b {
      ghost var q: State :| q in T.aut.final && q in T.aut.initial;
      AcceptingLeads(T, words, RepeatSymbol, prefix, Config(q, StartHeads(words)));
    }
  }

  /** The search keeps no visited set: it ends because there are no epsilon cycles. */
  method FastSearch(T: Nft, words: seq<Word>, prefix: bool) returns (b: bool)
    requires T.Valid() && |words| == T.numOfLevels && NoEpsilonCycle(T)
    ensures b <==> InLanguage(T, words, RepeatSymbol, prefix)
  {
    hide *;
    b := AcceptsAtOnce(T, words, prefix);
    if b { return; }
    var work := InitialConfigs(T, words, prefix);
    assert forall c <- work :: ConfigOf(T, words, c) by { WaitingConfigs(T, words, prefix, work); }
    while work != []
      invariant Waiting(T, words, prefix, work) && forall c <- work :: ConfigOf(T, words, c)
      invariant Alive(T, words, prefix, work) <==> InLanguage(T, words, RepeatSymbol, prefix)
      decreases TotalWork(T, words, work)
    {
      var c := work[0];
      assert c in work;
      PopKeepsAlive(T, words, prefix, work);
      PopReducesWork(T, words, work);
      var found, pushed;
      ghost var hit;
      found, pushed, hit := Expand(T, words, prefix, c);
      if found {
        AcceptingLeads(T, words, RepeatSymbol, prefix, hit);
        StepLeads(T, words, RepeatSymbol, prefix, c, hit);
        AliveBy(T, words, prefix, work, c);
        return true;
      }
      PopKeepsWaiting(T, words, prefix, work, pushed);
      work := work[1..] + pushed;
    }
    NothingAlive(T, words, prefix);
    b := false;
  }

  lemma WaitingConfigs(T: Nft, words: seq<Word>, prefix: bool, work: seq<Config>)
    requires Waiting(T, words, prefix, work)
    ensures forall c <- work :: ConfigOf(T, words, c)
  {
  }

  lemma AliveBy(T: Nft, words: seq<Word>, prefix: bool, work: seq<Config>, c: Config)
    requires c in work && LeadsToAccept(T, words, RepeatSymbol, prefix, c)
    ensures Alive(T, words, prefix, work)
  {
  }

  lemma NothingAlive(T: Nft, words: seq<Word>, prefix: bool)
    ensures !Alive(T, words, prefix, [])
  {
  }

  lemma PopKeepsWaiting(T: Nft, words: seq<Word>, prefix: bool, work: seq<Config>, pushed: seq<Config>)
    requires Waiting(T, words, prefix, work) && work != [] && forall d <- work[1..] + pushed :: ConfigOf(T, words, d)
    requires forall d <- pushed :: !Accepting(T, words, prefix, d)
    ensures Waiting(T, words, prefix, work[1..] + pushed)
  {
    hide Accepting, ConfigOf;
    assert work == [work[0]] + work[1..];
  }
}
