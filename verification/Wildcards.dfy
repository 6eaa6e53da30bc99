/** What DONT_CARE and jumps mean for membership in a transducer (symbols_match of src/nft/operations.cc and the
    searches that use it), said with equality of symbols only. */
module Wildcards {
  import opened Automata
  import opened Transducers

  // ---------- Symbols ----------

  /** DONT_CARE stands for every symbol but epsilon, any other symbol for itself. */
  predicate Denotes(s: Symbol, x: Symbol) {
    if s == DONT_CARE then x != EPSILON else x == s
  }

  /** Two symbols match just if they stand for a common one. */
  lemma MatchIffCommon(a: Symbol, b: Symbol)
    ensures SymbolsMatch(a, b) <==> exists x: Symbol :: Denotes(a, x) && Denotes(b, x)
  {
    if SymbolsMatch(a, b) {
      var x := if a == DONT_CARE then b else a;
      assert Denotes(a, x) && Denotes(b, x);
    }
  }

  /** On a tape without wildcards a symbol is read by what stands for it. */
  lemma MatchConcrete(a: Symbol, x: Symbol)
    requires x != DONT_CARE
    ensures SymbolsMatch(a, x) <==> Denotes(a, x)
  {
  }

  /** A DONT_CARE transition reads no epsilon, on none of the tapes it spans. */
  lemma DontCareReadsNoEpsilon(T: Nft, words: seq<Word>, mode: JumpMode, c: Config, p: State, l: nat)
    requires Reads(T, words, mode, c, DONT_CARE, p) && LevelOf(T, c.state) <= l < SpanEnd(T, p)
    ensures c.heads[l] < |words[l]| && words[l][c.heads[l]] != EPSILON
  {
  }

  // ---------- Jumps ----------

  /** What a jump over `t` reads after its first level */
  function Rest(mode: JumpMode, t: Symbol): Symbol {
    if mode == AppendDontCares then DONT_CARE else t
  }

  /** A jump is its first level, read into a state of the next level, and the rest of it from there. */
  lemma JumpSplits(T: Nft, words: seq<Word>, mode: JumpMode, c: Config, t: Symbol, m: State, p: State)
    requires ConfigOf(T, words, c) && HasLevel(T, m) && HasLevel(T, p)
    requires LevelOf(T, m) == LevelOf(T, c.state) + 1 < SpanEnd(T, p)
    ensures Reads(T, words, mode, c, t, p) <==>
            Reads(T, words, mode, c, t, m) && Reads(T, words, mode, AfterReading(T, c, m), Rest(mode, t), p)
    ensures AfterReading(T, AfterReading(T, c, m), p) == AfterReading(T, c, p)
  {
    hide SymbolsMatch;
    var lo, hi := LevelOf(T, c.state), SpanEnd(T, p);
    var d := AfterReading(T, c, m);
    assert SpanEnd(T, m) == lo + 1 && (forall l | 0 <= l < |c.heads| :: d.heads[l] == if l == lo then c.heads[l] + 1 else c.heads[l]);
    if Reads(T, words, mode, c, t, p) {
      assert c.heads[lo] < |words[lo]|;
      assert HeadsIn(words, d.heads);
      forall l | lo + 1 <= l < hi
        ensures d.heads[l] < |words[l]| && SymbolsMatch(Expected(mode, Rest(mode, t), lo + 1, l), words[l][d.heads[l]])
      {
        assert SymbolsMatch(Expected(mode, t, lo, l), words[l][c.heads[l]]);
      }
    }
    if Reads(T, words, mode, c, t, m) && Reads(T, words, mode, d, Rest(mode, t), p) {
      assert SymbolsMatch(Expected(mode, t, lo, lo), words[lo][c.heads[lo]]);
      forall l | lo <= l < hi ensures c.heads[l] < |words[l]| && SymbolsMatch(Expected(mode, t, lo, l), words[l][c.heads[l]]) {
        assert l > lo ==> SymbolsMatch(Expected(mode, Rest(mode, t), lo + 1, l), words[l][d.heads[l]]);
      }
    }
    assert Moved(d.heads, lo + 1, hi) == Moved(c.heads, lo, hi);
  }

  /** On a single level the symbol of the transition is read, in every mode. */
  lemma LevelReads(T: Nft, words: seq<Word>, mode: JumpMode, c: Config, t: Symbol, p: State)
    requires ConfigOf(T, words, c) && HasLevel(T, p) && SpanEnd(T, p) == LevelOf(T, c.state) + 1
    ensures var l := LevelOf(T, c.state);
            Reads(T, words, mode, c, t, p) <==>
            c.heads[l] < |words[l]| && exists x: Symbol :: Denotes(t, x) && Denotes(words[l][c.heads[l]], x)
  {
    var l := LevelOf(T, c.state);
    if c.heads[l] < |words[l]| { MatchIffCommon(t, words[l][c.heads[l]]); }
    hide SymbolsMatch, Denotes;
  }

  // ---------- Wildcards on the tapes ----------

  /** `y` is `s`, or a symbol other than a wildcard or an epsilon if `s` is a wildcard. */
  predicate InstanceOf(s: Symbol, y: Symbol) {
    if s == DONT_CARE then y != DONT_CARE && y != EPSILON else y == s
  }

  predicate SameLengths(words: seq<Word>, ys: seq<Word>) {
    |ys| == |words| && forall l | 0 <= l < |words| :: |ys[l]| == |words[l]|
  }

  /** `ys` are the tapes with symbols in place of the wildcards. */
  predicate Instances(words: seq<Word>, ys: seq<Word>) {
    && SameLengths(words, ys)
    && (forall l, i | 0 <= l < |words| && 0 <= i < |words[l]| :: InstanceOf(words[l][i], ys[l][i]))
  }

  lemma MatchInstance(e: Symbol, s: Symbol, y: Symbol)
    requires InstanceOf(s, y) && SymbolsMatch(e, y)
    ensures SymbolsMatch(e, s)
  {
  }

  /** A run on an instance is a run. */
  lemma StepOnTapes(T: Nft, words: seq<Word>, ys: seq<Word>, mode: JumpMode, c: Config, d: Config)
    requires Instances(words, ys) && ConfStep(T, ys, mode, c, d)
    ensures ConfStep(T, words, mode, c, d)
  {
    hide SymbolsMatch, InstanceOf, Step;
    assert HeadsIn(words, c.heads) <==> HeadsIn(ys, c.heads);
    forall t | Step(T.aut, c.state, t, d.state) && Reads(T, ys, mode, c, t, d.state) ensures Reads(T, words, mode, c, t, d.state) {
      ReadOnTapes(T, words, ys, mode, c, t, d.state);
    }
    hide Reads, Instances;
  }

  lemma ReadOnTapes(T: Nft, words: seq<Word>, ys: seq<Word>, mode: JumpMode, c: Config, t: Symbol, p: State)
    requires Instances(words, ys) && Reads(T, ys, mode, c, t, p)
    ensures Reads(T, words, mode, c, t, p)
  {
    hide SymbolsMatch, InstanceOf;
    var lo, hi := LevelOf(T, c.state), SpanEnd(T, p);
    assert HeadsIn(words, c.heads);
    forall l | lo <= l < hi ensures c.heads[l] < |words[l]| && SymbolsMatch(Expected(mode, t, lo, l), words[l][c.heads[l]]) {
      assert c.heads[l] < |ys[l]| && SymbolsMatch(Expected(mode, t, lo, l), ys[l][c.heads[l]]);
      MatchInstance(Expected(mode, t, lo, l), words[l][c.heads[l]], ys[l][c.heads[l]]);
    }
  }

  /** The tapes agree from the heads on. */
  predicate AgreeFrom(ys: seq<Word>, zs: seq<Word>, heads: seq<nat>) {
    && SameLengths(ys, zs) && |heads| == |ys|
    && (forall l, i | 0 <= l < |ys| && heads[l] <= i < |ys[l]| :: ys[l][i] == zs[l][i])
  }

  /** Steps depend on what lies at the heads or behind them only. */
  lemma StepAgrees(T: Nft, ys: seq<Word>, zs: seq<Word>, mode: JumpMode, c: Config, d: Config)
    requires AgreeFrom(ys, zs, c.heads) && ConfStep(T, ys, mode, c, d)
    ensures ConfStep(T, zs, mode, c, d) && AgreeFrom(ys, zs, d.heads)
  {
    hide SymbolsMatch, Step;
    assert HeadsIn(zs, c.heads) <==> HeadsIn(ys, c.heads);
    forall t | Step(T.aut, c.state, t, d.state) && Reads(T, ys, mode, c, t, d.state) ensures Reads(T, zs, mode, c, t, d.state) {
      ReadAgrees(T, ys, zs, mode, c, t, d.state);
    }
    assert d.heads == c.heads || d == AfterReading(T, c, d.state);
    hide Reads;
  }

  lemma ReadAgrees(T: Nft, ys: seq<Word>, zs: seq<Word>, mode: JumpMode, c: Config, t: Symbol, p: State)
    requires AgreeFrom(ys, zs, c.heads) && Reads(T, ys, mode, c, t, p)
    ensures Reads(T, zs, mode, c, t, p)
  {
    hide SymbolsMatch;
    var lo, hi := LevelOf(T, c.state), SpanEnd(T, p);
    assert HeadsIn(zs, c.heads);
    forall l | lo <= l < hi ensures c.heads[l] < |zs[l]| && SymbolsMatch(Expected(mode, t, lo, l), zs[l][c.heads[l]]) {
      assert c.heads[l] < |ys[l]| && SymbolsMatch(Expected(mode, t, lo, l), ys[l][c.heads[l]]);
      assert ys[l][c.heads[l]] == zs[l][c.heads[l]];
    }
  }

  lemma {:induction false} PathAgrees(T: Nft, ys: seq<Word>, zs: seq<Word>, mode: JumpMode, p: seq<Config>)
    requires ConfPath(T, ys, mode, p) && AgreeFrom(ys, zs, p[0].heads)
    ensures ConfPath(T, zs, mode, p)
    decreases |p|
  {
    hide ConfStep, AgreeFrom;
    if |p| > 1 {
      assert ConfStep(T, ys, mode, p[0], p[0 + 1]);
      StepAgrees(T, ys, zs, mode, p[0], p[1]);
      TailPath(T, ys, mode, p);
      PathAgrees(T, ys, zs, mode, p[1..]);
      ConsPath(T, zs, mode, p);
    }
  }

  lemma TailPath(T: Nft, words: seq<Word>, mode: JumpMode, p: seq<Config>)
    requires ConfPath(T, words, mode, p) && |p| > 1
    ensures ConfPath(T, words, mode, p[1..])
  {
    hide ConfStep;
    forall i | 0 <= i < |p[1..]| - 1 ensures ConfStep(T, words, mode, p[1..][i], p[1..][i + 1]) {
      assert ConfStep(T, words, mode, p[i + 1], p[i + 1 + 1]);
    }
  }

  lemma ConsPath(T: Nft, words: seq<Word>, mode: JumpMode, p: seq<Config>)
    requires |p| > 1 && ConfStep(T, words, mode, p[0], p[1]) && ConfPath(T, words, mode, p[1..])
    ensures ConfPath(T, words, mode, p)
  {
    hide ConfStep;
    forall i | 0 <= i < |p| - 1 ensures ConfStep(T, words, mode, p[i], p[i + 1]) {
      if i > 0 { assert ConfStep(T, words, mode, p[1..][i - 1], p[1..][i - 1 + 1]); }
    }
  }

  /** A symbol in place of `s` that `e` reads too */
  function Choice(e: Symbol, s: Symbol): (y: Symbol)
    ensures SymbolsMatch(e, s) ==> InstanceOf(s, y) && SymbolsMatch(e, y)
  {
    if s != DONT_CARE then s else if e == DONT_CARE then 0 else e
  }

  /** `ys` with chosen symbols at the heads of the tapes that a transition over `t` reads */
  function Chosen(words: seq<Word>, ys: seq<Word>, mode: JumpMode, heads: seq<nat>, t: Symbol, lo: nat, hi: nat): (zs: seq<Word>)
    requires SameLengths(words, ys) && |heads| == |words|
    ensures SameLengths(words, zs)
  {
    seq(|ys|, l requires 0 <= l < |ys| =>
      if lo <= l < hi && heads[l] < |ys[l]| then ys[l][heads[l] := Choice(Expected(mode, t, lo, l), words[l][heads[l]])] else ys[l])
  }

  lemma ChosenReads(T: Nft, words: seq<Word>, ys: seq<Word>, mode: JumpMode, c: Config, t: Symbol, p: State)
    requires Instances(words, ys) && Reads(T, words, mode, c, t, p)
    ensures var zs := Chosen(words, ys, mode, c.heads, t, LevelOf(T, c.state), SpanEnd(T, p));
            Instances(words, zs) && Reads(T, zs, mode, c, t, p) && AgreeFrom(ys, zs, AfterReading(T, c, p).heads)
  {
    hide SymbolsMatch, InstanceOf, Expected, Choice;
    var lo, hi := LevelOf(T, c.state), SpanEnd(T, p);
    var zs := Chosen(words, ys, mode, c.heads, t, lo, hi);
    forall l | lo <= l < hi
      ensures c.heads[l] < |zs[l]| && SymbolsMatch(Expected(mode, t, lo, l), zs[l][c.heads[l]]) && InstanceOf(words[l][c.heads[l]], zs[l][c.heads[l]])
    {
      assert c.heads[l] < |words[l]| && SymbolsMatch(Expected(mode, t, lo, l), words[l][c.heads[l]]);
    }
    forall l, i | 0 <= l < |words| && 0 <= i < |words[l]| ensures InstanceOf(words[l][i], zs[l][i]) {
      assert InstanceOf(words[l][i], ys[l][i]);
    }
  }

  /** The tapes with 0 in place of every wildcard */
  function Plain(words: seq<Word>): (ys: seq<Word>)
    ensures Instances(words, ys)
  {
    seq(|words|, l requires 0 <= l < |words| =>
      seq(|words[l]|, i requires 0 <= i < |words[l]| => if words[l][i] == DONT_CARE then 0 else words[l][i]))
  }

  /** A run is a run on some instance. */
  lemma {:induction false} PathInstance(T: Nft, words: seq<Word>, mode: JumpMode, p: seq<Config>) returns (ys: seq<Word>)
    requires ConfPath(T, words, mode, p)
    ensures Instances(words, ys) && ConfPath(T, ys, mode, p)
    decreases |p|
  {
    hide Instances, ConfStep;
    if |p| == 1 {
      ys := Plain(words);
    } else {
      assert ConfStep(T, words, mode, p[0], p[0 + 1]);
      TailPath(T, words, mode, p);
      var rest := PathInstance(T, words, mode, p[1..]);
      ys := StepInstance(T, words, rest, mode, p[0], p[1]);
      PathAgrees(T, rest, ys, mode, p[1..]);
      ConsPath(T, ys, mode, p);
    }
  }

  lemma StepInstance(T: Nft, words: seq<Word>, ys: seq<Word>, mode: JumpMode, c: Config, d: Config) returns (zs: seq<Word>)
    requires Instances(words, ys) && ConfStep(T, words, mode, c, d)
    ensures Instances(words, zs) && ConfStep(T, zs, mode, c, d) && AgreeFrom(ys, zs, d.heads)
  {
    hide SymbolsMatch, InstanceOf, Step;
    if Step(T.aut, c.state, EPSILON, d.state) && d.heads == c.heads {
      zs := ys;
      assert HeadsIn(zs, c.heads);
      hide Reads;
    } else {
      var t :| Step(T.aut, c.state, t, d.state) && Reads(T, words, mode, c, t, d.state) && d == AfterReading(T, c, d.state);
      zs := Chosen(words, ys, mode, c.heads, t, LevelOf(T, c.state), SpanEnd(T, d.state));
      ChosenReads(T, words, ys, mode, c, t, d.state);
      hide AfterReading, CanRead, Chosen, AgreeFrom, Instances;
    }
  }

  lemma SameAcceptance(T: Nft, words: seq<Word>, ys: seq<Word>, prefix: bool, c: Config)
    requires SameLengths(words, ys)
    ensures Accepting(T, words, prefix, c) <==> Accepting(T, ys, prefix, c)
    ensures StartHeads(words) == StartHeads(ys)
  {
  }

  /** Tapes with wildcards are in the language just if some instance of them is. */
  lemma InstancesDecide(T: Nft, words: seq<Word>, mode: JumpMode, prefix: bool)
    ensures InLanguage(T, words, mode, prefix) <==> exists ys :: Instances(words, ys) && InLanguage(T, ys, mode, prefix)
  {
    hide Accepting, ConfStep, StartHeads, Instances;
    if InLanguage(T, words, mode, prefix) {
      var q :| q in T.aut.initial && LeadsToAccept(T, words, mode, prefix, Config(q, StartHeads(words)));
      var p :| ConfPath(T, words, mode, p) && p[0] == Config(q, StartHeads(words)) && Accepting(T, words, prefix, p[|p| - 1]);
      var ys := PathInstance(T, words, mode, p);
      InstancesLengths(words, ys);
      SameAcceptance(T, words, ys, prefix, p[|p| - 1]);
      assert LeadsToAccept(T, ys, mode, prefix, p[0]);
    }
    forall ys | Instances(words, ys) && InLanguage(T, ys, mode, prefix) ensures InLanguage(T, words, mode, prefix) {
      var q :| q in T.aut.initial && LeadsToAccept(T, ys, mode, prefix, Config(q, StartHeads(ys)));
      var p :| ConfPath(T, ys, mode, p) && p[0] == Config(q, StartHeads(ys)) && Accepting(T, ys, prefix, p[|p| - 1]);
      InstancesLengths(words, ys);
      SameAcceptance(T, words, ys, prefix, p[|p| - 1]);
      PathOnTapes(T, words, ys, mode, p);
      assert LeadsToAccept(T, words, mode, prefix, p[0]);
    }
  }

  lemma PathOnTapes(T: Nft, words: seq<Word>, ys: seq<Word>, mode: JumpMode, p: seq<Config>)
    requires Instances(words, ys) && ConfPath(T, ys, mode, p)
    ensures ConfPath(T, words, mode, p)
  {
    hide ConfStep, Instances;
    forall i | 0 <= i < |p| - 1 ensures ConfStep(T, words, mode, p[i], p[i + 1]) {
      StepOnTapes(T, words, ys, mode, p[i], p[i + 1]);
    }
  }

  lemma InstancesLengths(words: seq<Word>, ys: seq<Word>)
    requires Instances(words, ys)
    ensures SameLengths(words, ys)
  {
  }

  // ---------- Wildcards on transitions ----------

  /** `S` holds the symbols on the tapes, but no epsilon. */
  predicate OnTapes(words: seq<Word>, S: set<Symbol>) {
    EPSILON !in S && forall l, i | 0 <= l < |words| && 0 <= i < |words[l]| && words[l][i] != EPSILON :: words[l][i] in S
  }

  /** `T'` is `T` with every DONT_CARE transition replaced by one for each symbol of `S`. */
  ghost predicate Replaces(T: Nft, T': Nft, S: set<Symbol>) {
    && T'.levels == T.levels && T'.numOfLevels == T.numOfLevels
    && T'.aut.size == T.aut.size && T'.aut.initial == T.aut.initial && T'.aut.final == T.aut.final
    && (forall q: State, a, p: State :: Step(T'.aut, q, a, p) <==> (a != DONT_CARE && Step(T.aut, q, a, p)) || (a in S && Step(T.aut, q, DONT_CARE, p)))
  }

  /** After its first level a DONT_CARE transition reads DONT_CARE in any case, or it has one level only. */
  ghost predicate DontCaresSplit(T: Nft, mode: JumpMode) {
    mode == AppendDontCares || forall q: State, p: State | Step(T.aut, q, DONT_CARE, p) :: SpanEnd(T, p) == LevelOf(T, q) + 1
  }

  /** Reading over DONT_CARE is reading over some symbol of the tapes. */
  lemma DontCareReads(T: Nft, words: seq<Word>, mode: JumpMode, S: set<Symbol>, c: Config, p: State)
    requires OnTapes(words, S) && LevelOf(T, c.state) < SpanEnd(T, p)
    requires mode == AppendDontCares || SpanEnd(T, p) == LevelOf(T, c.state) + 1
    ensures Reads(T, words, mode, c, DONT_CARE, p) <==> exists a :: a in S && Reads(T, words, mode, c, a, p)
  {
    var lo, hi := LevelOf(T, c.state), SpanEnd(T, p);
    if Reads(T, words, mode, c, DONT_CARE, p) {
      DontCareReadsNoEpsilon(T, words, mode, c, p, lo);
      var a := words[lo][c.heads[lo]];
      forall l | lo <= l < hi ensures c.heads[l] < |words[l]| && SymbolsMatch(Expected(mode, a, lo, l), words[l][c.heads[l]]) {
        assert SymbolsMatch(Expected(mode, DONT_CARE, lo, l), words[l][c.heads[l]]);
      }
      assert Reads(T, words, mode, c, a, p);
    }
    forall a | a in S && Reads(T, words, mode, c, a, p) ensures Reads(T, words, mode, c, DONT_CARE, p) {
      forall l | lo <= l < hi ensures c.heads[l] < |words[l]| && SymbolsMatch(Expected(mode, DONT_CARE, lo, l), words[l][c.heads[l]]) {
        assert SymbolsMatch(Expected(mode, a, lo, l), words[l][c.heads[l]]);
      }
    }
  }

  lemma SameReads(T: Nft, T': Nft, words: seq<Word>, mode: JumpMode, c: Config, t: Symbol, p: State)
    requires T'.levels == T.levels && T'.numOfLevels == T.numOfLevels
    ensures Reads(T', words, mode, c, t, p) <==> Reads(T, words, mode, c, t, p)
    ensures AfterReading(T', c, p) == AfterReading(T, c, p)
  {
    hide SymbolsMatch;
  }

  /** A step by reading over some symbol that is not a wildcard, or over DONT_CARE */
  ghost predicate ReadStep(T: Nft, words: seq<Word>, mode: JumpMode, c: Config, t: Symbol, d: Config) {
    Step(T.aut, c.state, t, d.state) && Reads(T, words, mode, c, t, d.state) && d == AfterReading(T, c, d.state)
  }

  lemma StepReplaced(T: Nft, T': Nft, S: set<Symbol>, words: seq<Word>, mode: JumpMode, c: Config, d: Config)
    requires T.Valid() && Replaces(T, T', S) && OnTapes(words, S) && DontCaresSplit(T, mode)
    ensures ConfStep(T, words, mode, c, d) <==> ConfStep(T', words, mode, c, d)
  {
    forall t ensures Reads(T', words, mode, c, t, d.state) <==> Reads(T, words, mode, c, t, d.state) {
      SameReads(T, T', words, mode, c, t, d.state);
    }
    SameReads(T, T', words, mode, c, EPSILON, d.state);
    if Step(T.aut, c.state, DONT_CARE, d.state) {
      StepSpan(T, c.state, DONT_CARE, d.state);
      DontCareReads(T, words, mode, S, c, d.state);
    }
    hide Reads, AfterReading, Step, Nft.Valid, OnTapes;
    if exists t :: ReadStep(T, words, mode, c, t, d) {
      var t :| ReadStep(T, words, mode, c, t, d);
      if t == DONT_CARE {
        var a :| a in S && Reads(T, words, mode, c, a, d.state);
        assert ReadStep(T', words, mode, c, a, d);
      } else {
        assert ReadStep(T', words, mode, c, t, d);
      }
    }
    if exists t :: ReadStep(T', words, mode, c, t, d) {
      var t :| ReadStep(T', words, mode, c, t, d);
      assert ReadStep(T, words, mode, c, t, d) || ReadStep(T, words, mode, c, DONT_CARE, d);
    }
    ByReadStep(T, words, mode, c, d);
    ByReadStep(T', words, mode, c, d);
    assert ConfigOf(T, words, c) <==> ConfigOf(T', words, c);
  }

  lemma ByReadStep(T: Nft, words: seq<Word>, mode: JumpMode, c: Config, d: Config)
    ensures ConfStep(T, words, mode, c, d) <==>
            && ConfigOf(T, words, c) && HasLevel(T, d.state)
            && ((Step(T.aut, c.state, EPSILON, d.state) && d.heads == c.heads) || exists t :: ReadStep(T, words, mode, c, t, d))
  {
    hide Reads, AfterReading, Step;
    forall t | ReadStep(T, words, mode, c, t, d)
      ensures Step(T.aut, c.state, t, d.state) && Reads(T, words, mode, c, t, d.state) && d == AfterReading(T, c, d.state)
    {
    }
    if t :| Step(T.aut, c.state, t, d.state) && Reads(T, words, mode, c, t, d.state) && d == AfterReading(T, c, d.state) {
      assert ReadStep(T, words, mode, c, t, d);
    }
  }

  lemma StepSpan(T: Nft, q: State, t: Symbol, p: State)
    requires T.Valid() && Step(T.aut, q, t, p)
    ensures LevelOf(T, q) < SpanEnd(T, p)
  {
    StepIsState(T.aut, q, t, p);
  }

  /** DONT_CARE transitions of one level may be replaced by transitions over the symbols on the tapes, and
      in the mode that appends DONT_CAREs all of them may. */
  lemma DontCaresReplaced(T: Nft, T': Nft, S: set<Symbol>, words: seq<Word>, mode: JumpMode, prefix: bool)
    requires T.Valid() && Replaces(T, T', S) && OnTapes(words, S) && DontCaresSplit(T, mode)
    ensures InLanguage(T, words, mode, prefix) <==> InLanguage(T', words, mode, prefix)
  {
    hide ConfStep, OnTapes, Nft.Valid, DontCaresSplit;
    forall c, d ensures ConfStep(T, words, mode, c, d) <==> ConfStep(T', words, mode, c, d) {
      StepReplaced(T, T', S, words, mode, c, d);
    }
    assert forall p :: ConfPath(T, words, mode, p) <==> ConfPath(T', words, mode, p);
    assert forall c :: Accepting(T, words, prefix, c) <==> Accepting(T', words, prefix, c);
    hide ConfPath, Accepting, Replaces;
    forall c ensures LeadsToAccept(T, words, mode, prefix, c) <==> LeadsToAccept(T', words, mode, prefix, c) {
      SameLeads(T, T', words, mode, prefix, c);
    }
    hide LeadsToAccept;
    assert T'.aut.initial == T.aut.initial by { ReplacesInitial(T, T', S); }
  }

  lemma ReplacesInitial(T: Nft, T': Nft, S: set<Symbol>)
    requires Replaces(T, T', S)
    ensures T'.aut.initial == T.aut.initial
  {
  }

  lemma SameLeads(T: Nft, T': Nft, words: seq<Word>, mode: JumpMode, prefix: bool, c: Config)
    requires forall p :: ConfPath(T, words, mode, p) <==> ConfPath(T', words, mode, p)
    requires forall d :: Accepting(T, words, prefix, d) <==> Accepting(T', words, prefix, d)
    ensures LeadsToAccept(T, words, mode, prefix, c) <==> LeadsToAccept(T', words, mode, prefix, c)
  {
    hide ConfStep, Accepting;
  }

  // ---------- Wildcards on jumps ----------

  /** Whatever the tapes, reading over DONT_CARE is reading over some symbol that is no wildcard. */
  ghost predicate AlwaysOneSymbol(T: Nft, mode: JumpMode, q: State, p: State) {
    forall words: seq<Word>, heads: seq<nat> | Reads(T, words, mode, Config(q, heads), DONT_CARE, p) ::
      exists a :: a != EPSILON && a != DONT_CARE && Reads(T, words, mode, Config(q, heads), a, p)
  }

  /** That is so just if the transition has one level only, or a jump appends DONT_CAREs: a jump that repeats
      DONT_CARE reads different symbols on different levels. */
  lemma DontCareJumps(T: Nft, mode: JumpMode, q: State, p: State)
    requires HasLevel(T, q) && HasLevel(T, p) && LevelOf(T, q) < SpanEnd(T, p)
    ensures AlwaysOneSymbol(T, mode, q, p) <==> mode == AppendDontCares || SpanEnd(T, p) == LevelOf(T, q) + 1
  {
    var lo, hi := LevelOf(T, q), SpanEnd(T, p);
    if mode == AppendDontCares || hi == lo + 1 {
      forall words: seq<Word>, heads: seq<nat> | Reads(T, words, mode, Config(q, heads), DONT_CARE, p)
        ensures exists a :: a != EPSILON && a != DONT_CARE && Reads(T, words, mode, Config(q, heads), a, p)
      {
        var x := words[lo][heads[lo]];
        var a := if x == DONT_CARE then 0 else x;
        forall l | lo <= l < hi ensures heads[l] < |words[l]| && SymbolsMatch(Expected(mode, a, lo, l), words[l][heads[l]]) {
          assert SymbolsMatch(Expected(mode, DONT_CARE, lo, l), words[l][heads[l]]);
        }
        assert a != EPSILON && a != DONT_CARE && Reads(T, words, mode, Config(q, heads), a, p);
      }
    } else {
      TwoSymbols(T, mode, q, p);
    }
  }

  lemma TwoSymbols(T: Nft, mode: JumpMode, q: State, p: State)
    requires HasLevel(T, q) && HasLevel(T, p) && LevelOf(T, q) + 1 < SpanEnd(T, p) && mode != AppendDontCares
    ensures !AlwaysOneSymbol(T, mode, q, p)
  {
    var lo := LevelOf(T, q);
    var words: seq<Word> := seq(T.numOfLevels, l => if l == lo then [0] else [1]);
    var heads: seq<nat> := seq(T.numOfLevels, _ => 0);
    assert Reads(T, words, mode, Config(q, heads), DONT_CARE, p);
    forall a | Reads(T, words, mode, Config(q, heads), a, p) ensures a == EPSILON || a == DONT_CARE {
      assert SymbolsMatch(Expected(mode, a, lo, lo), words[lo][heads[lo]]);
      assert SymbolsMatch(Expected(mode, a, lo, lo + 1), words[lo + 1][heads[lo + 1]]);
    }
  }

  /** From 0 to 1 over the symbols of `post`, jumping over both levels */
  function Jump(post: StatePost): Nft {
    Nft(Nfa(2, [post], {0}, {1}), [0, 0], 2)
  }

  lemma JumpSteps(post: StatePost, q: State, a: Symbol, p: State)
    ensures Step(Jump(post).aut, q, a, p) <==> q == 0 && InPost(post, a, p)
  {
    assert q > 0 ==> Jump(post).aut.At(q) == [];
  }

  lemma JumpReads(post: StatePost, words: seq<Word>, a: Symbol)
    requires words == [[0], [1]]
    ensures Reads(Jump(post), words, RepeatSymbol, Config(0, [0, 0]), a, 1) <==> SymbolsMatch(a, 0) && SymbolsMatch(a, 1)
    ensures AfterReading(Jump(post), Config(0, [0, 0]), 1) == Config(1, [1, 1])
  {
    var T, c := Jump(post), Config(0, [0, 0]);
    assert LevelOf(T, 0) == 0 && SpanEnd(T, 1) == 2;
    if Reads(T, words, RepeatSymbol, c, a, 1) {
      assert SymbolsMatch(Expected(RepeatSymbol, a, 0, 0), words[0][c.heads[0]]);
      assert SymbolsMatch(Expected(RepeatSymbol, a, 0, 1), words[1][c.heads[1]]);
    }
  }

  /** Both tapes are read at once, if the symbol matches both. */
  lemma JumpLanguage(post: StatePost, words: seq<Word>)
    requires words == [[0], [1]] && forall a, p: State | InPost(post, a, p) :: a != EPSILON && p == 1
    ensures InLanguage(Jump(post), words, RepeatSymbol, false) <==> exists a :: InPost(post, a, 1) && SymbolsMatch(a, 0) && SymbolsMatch(a, 1)
  {
    hide InPost, SymbolsMatch, Step, Reads, AfterReading, ConfStep;
    var T, c, d := Jump(post), Config(0, [0, 0]), Config(1, [1, 1]);
    assert StartHeads(words) == [0, 0] && Accepting(T, words, false, d) && !Accepting(T, words, false, c);
    forall e: Config ensures ConfStep(T, words, RepeatSymbol, c, e) <==> e == d && exists a :: InPost(post, a, 1) && SymbolsMatch(a, 0) && SymbolsMatch(a, 1) {
      JumpStep(post, words, e);
    }
    if exists a :: InPost(post, a, 1) && SymbolsMatch(a, 0) && SymbolsMatch(a, 1) {
      AcceptingLeads(T, words, RepeatSymbol, false, d);
      StepLeads(T, words, RepeatSymbol, false, c, d);
    }
    if LeadsToAccept(T, words, RepeatSymbol, false, c) {
      var e := LeadsBySteps(T, words, RepeatSymbol, false, c);
    }
    hide LeadsToAccept, Accepting;
  }

  lemma JumpStep(post: StatePost, words: seq<Word>, e: Config)
    requires words == [[0], [1]] && forall a, p: State | InPost(post, a, p) :: a != EPSILON && p == 1
    ensures ConfStep(Jump(post), words, RepeatSymbol, Config(0, [0, 0]), e) <==>
            e == Config(1, [1, 1]) && exists a :: InPost(post, a, 1) && SymbolsMatch(a, 0) && SymbolsMatch(a, 1)
  {
    var T, c := Jump(post), Config(0, [0, 0]);
    assert ConfigOf(T, words, c) && HasLevel(T, 1);
    forall a, p: State ensures Step(T.aut, 0, a, p) <==> InPost(post, a, p) { JumpSteps(post, 0, a, p); }
    forall a ensures Reads(T, words, RepeatSymbol, c, a, 1) <==> SymbolsMatch(a, 0) && SymbolsMatch(a, 1)
      ensures AfterReading(T, c, 1) == Config(1, [1, 1])
    {
      JumpReads(post, words, a);
    }
    hide InPost, SymbolsMatch, Step, Reads, AfterReading;
  }

  /** An instance: over two levels DONT_CARE reads 0 and 1, which neither 0 nor 1 does. */
  lemma JumpNotReplaced()
    ensures var T, T', words := Jump([SymbolPost(DONT_CARE, [1])]), Jump([SymbolPost(0, [1]), SymbolPost(1, [1])]), [[0], [1]];
            && Replaces(T, T', {0, 1}) && OnTapes(words, {0, 1})
            && InLanguage(T, words, RepeatSymbol, false) && !InLanguage(T', words, RepeatSymbol, false)
  {
    hide InPost, Step, InLanguage, Replaces, OnTapes, Jump;
    var post, post' := [SymbolPost(DONT_CARE, [1])], [SymbolPost(0, [1]), SymbolPost(1, [1])];
    OverPost(post, post');
    JumpReplaced(post, post');
    JumpLanguage(post, [[0], [1]]);
    JumpLanguage(post', [[0], [1]]);
    assert SymbolsMatch(DONT_CARE, 0) && SymbolsMatch(DONT_CARE, 1) && !SymbolsMatch(0, 1) && !SymbolsMatch(1, 0);
  }

  lemma JumpReplaced(post: StatePost, post': StatePost)
    requires forall a, p: State :: InPost(post, a, p) <==> a == DONT_CARE && p == 1
    requires forall a, p: State :: InPost(post', a, p) <==> a in {0, 1} && p == 1
    ensures Replaces(Jump(post), Jump(post'), {0, 1}) && OnTapes([[0], [1]], {0, 1})
  {
    hide InPost, Step;
    forall q: State, a, p: State
      ensures Step(Jump(post).aut, q, a, p) <==> q == 0 && InPost(post, a, p)
      ensures Step(Jump(post').aut, q, a, p) <==> q == 0 && InPost(post', a, p)
    {
      JumpSteps(post, q, a, p);
      JumpSteps(post', q, a, p);
    }
  }

  lemma OverPost(post: StatePost, post': StatePost)
    requires post == [SymbolPost(DONT_CARE, [1])] && post' == [SymbolPost(0, [1]), SymbolPost(1, [1])]
    ensures forall a, p: State :: InPost(post, a, p) <==> a == DONT_CARE && p == 1
    ensures forall a, p: State :: InPost(post', a, p) <==> a in {0, 1} && p == 1
  {
    assert post[0] == SymbolPost(DONT_CARE, [1]) && post'[0] == SymbolPost(0, [1]) && post'[1] == SymbolPost(1, [1]);
    assert InPost(post, DONT_CARE, 1) && InPost(post', 0, 1) && InPost(post', 1, 1);
  }
}
