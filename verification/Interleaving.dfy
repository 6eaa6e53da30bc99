/** A transducer that goes level by level reads the symbols of all tapes in turn: membership in it is acceptance of
    the interleaved word by its automaton. */
module Interleaving {
  import opened Automata
  import opened Transducers
  import opened Wildcards

  /** Without epsilons and jumps */
  ghost predicate LevelByLevel(T: Nft) {
    T.Valid() && forall q: State, t, p: State | Step(T.aut, q, t, p) :: t != EPSILON && SpanEnd(T, p) == LevelOf(T, q) + 1
  }

  predicate NoWildcards(words: seq<Word>) {
    forall l | 0 <= l < |words| :: DONT_CARE !in words[l]
  }

  /** `m` symbols of every tape are read, all of them unless prefixes count. */
  predicate Rounds(words: seq<Word>, m: nat, prefix: bool) {
    forall l | 0 <= l < |words| :: m <= |words[l]| && (prefix || m == |words[l]|)
  }

  /** Before level `j` in round `k` of `m` */
  predicate InTime(words: seq<Word>, m: nat, k: nat, j: nat) {
    j < |words| && k <= m && (k == m ==> j == 0) && forall l | 0 <= l < |words| :: m <= |words[l]|
  }

  function NextRound(n: nat, k: nat, j: nat): nat {
    if j + 1 < n then k else k + 1
  }

  function NextLevel(n: nat, j: nat): nat {
    if j + 1 < n then j + 1 else 0
  }

  /** What is left to read: the symbols of the levels from `j` on, then those of the next round, and so on */
  function LevelWord(words: seq<Word>, m: nat, k: nat, j: nat): Word
    requires InTime(words, m, k, j)
    decreases m - k, |words| - j
  {
    if k == m then [] else [words[j][k]] + LevelWord(words, m, NextRound(|words|, k, j), NextLevel(|words|, j))
  }

  function HeadsAt(n: nat, k: nat, j: nat): seq<nat> {
    seq(n, l => if l < j then k + 1 else k)
  }

  predicate DenotesAll(v: Word, w: Word) {
    |v| == |w| && forall i | 0 <= i < |v| :: Denotes(v[i], w[i])
  }

  lemma DenotesCons(v: Word, w: Word)
    requires v != [] && w != []
    ensures DenotesAll(v, w) <==> Denotes(v[0], w[0]) && DenotesAll(v[1..], w[1..])
  {
    if DenotesAll(v[1..], w[1..]) && Denotes(v[0], w[0]) {
      forall i | 0 <= i < |v| ensures Denotes(v[i], w[i]) {
        if i > 0 { assert Denotes(v[1..][i - 1], w[1..][i - 1]); }
      }
    }
  }

  lemma LevelsFollow(T: Nft, q: State, t: Symbol, p: State)
    requires LevelByLevel(T) && Step(T.aut, q, t, p)
    ensures q < |T.levels| && p < |T.levels| && t != EPSILON && SpanEnd(T, p) == LevelOf(T, q) + 1
    ensures LevelOf(T, p) == NextLevel(T.numOfLevels, LevelOf(T, q))
  {
    StepIsState(T.aut, q, t, p);
  }

  /** The symbol under the head of the state's level is read. */
  lemma LevelStep(T: Nft, words: seq<Word>, mode: JumpMode, q: State, k: nat, d: Config)
    requires LevelByLevel(T) && NoWildcards(words) && |words| == T.numOfLevels && q < |T.levels|
    requires HeadsIn(words, HeadsAt(|words|, k, LevelOf(T, q)))
    ensures var n, j := |words|, LevelOf(T, q);
            ConfStep(T, words, mode, Config(q, HeadsAt(n, k, j)), d) <==>
            && j < n && k < |words[j]| && d.heads == HeadsAt(n, NextRound(n, k, j), NextLevel(n, j))
            && exists t :: Step(T.aut, q, t, d.state) && Denotes(t, words[j][k])
  {
    var n, j := |words|, LevelOf(T, q);
    var c := Config(q, HeadsAt(n, k, j));
    assert ConfigOf(T, words, c) && c.heads[j] == k;
    forall t | Step(T.aut, q, t, d.state)
      ensures HasLevel(T, d.state)
      ensures Reads(T, words, mode, c, t, d.state) <==> k < |words[j]| && Denotes(t, words[j][k])
      ensures AfterReading(T, c, d.state) == Config(d.state, HeadsAt(n, NextRound(n, k, j), NextLevel(n, j)))
    {
      LevelsFollow(T, q, t, d.state);
      LevelRead(T, words, mode, c, t, d.state);
      assert Moved(c.heads, j, j + 1) == HeadsAt(n, NextRound(n, k, j), NextLevel(n, j));
    }
    assert !Step(T.aut, q, EPSILON, d.state);
    hide Reads, AfterReading, Denotes, Step, LevelByLevel, HeadsAt, NoWildcards;
  }

  lemma LevelRead(T: Nft, words: seq<Word>, mode: JumpMode, c: Config, t: Symbol, p: State)
    requires ConfigOf(T, words, c) && HasLevel(T, p) && SpanEnd(T, p) == LevelOf(T, c.state) + 1 && NoWildcards(words)
    ensures var l := LevelOf(T, c.state); Reads(T, words, mode, c, t, p) <==> c.heads[l] < |words[l]| && Denotes(t, words[l][c.heads[l]])
  {
    var l := LevelOf(T, c.state);
    if c.heads[l] < |words[l]| { MatchConcrete(t, words[l][c.heads[l]]); }
    hide SymbolsMatch, Denotes;
    if Reads(T, words, mode, c, t, p) {
      assert SymbolsMatch(Expected(mode, t, l, l), words[l][c.heads[l]]);
    }
  }

  lemma LevelAccepting(T: Nft, words: seq<Word>, prefix: bool, q: State, k: nat)
    requires |words| == T.numOfLevels > 0 && q < |T.levels| && LevelOf(T, q) == 0
    ensures Accepting(T, words, prefix, Config(q, HeadsAt(|words|, k, 0))) <==>
            q in T.aut.final && (prefix || forall l | 0 <= l < |words| :: k == |words[l]|)
  {
    assert forall l | 0 <= l < |words| :: HeadsAt(|words|, k, 0)[l] == k;
  }

  /** From `q` the automaton accepts a word for the symbols that are left. */
  ghost predicate AcceptsLeft(T: Nft, words: seq<Word>, prefix: bool, q: State, k: nat, j: nat, m: nat) {
    InTime(words, m, k, j) && Rounds(words, m, prefix) && exists v: Word :: AcceptsFrom(T.aut, q, v) && DenotesAll(v, LevelWord(words, m, k, j))
  }

  lemma AcceptsLeftStep(T: Nft, words: seq<Word>, prefix: bool, q: State, k: nat, j: nat, m: nat, t: Symbol, p: State)
    requires j < |words| && k < |words[j]| && Step(T.aut, q, t, p) && Denotes(t, words[j][k])
    requires AcceptsLeft(T, words, prefix, p, NextRound(|words|, k, j), NextLevel(|words|, j), m)
    ensures AcceptsLeft(T, words, prefix, q, k, j, m)
  {
    hide Denotes, Step;
    var k', j' := NextRound(|words|, k, j), NextLevel(|words|, j);
    var v: Word :| AcceptsFrom(T.aut, p, v) && DenotesAll(v, LevelWord(words, m, k', j'));
    assert k < m && InTime(words, m, k, j);
    assert ([t] + v)[1..] == v && ([words[j][k]] + LevelWord(words, m, k', j'))[1..] == LevelWord(words, m, k', j');
    StepAccepts(T.aut, q, [t] + v, p);
    DenotesCons([t] + v, [words[j][k]] + LevelWord(words, m, k', j'));
    assert LevelWord(words, m, k, j) == [words[j][k]] + LevelWord(words, m, k', j');
  }

  lemma {:induction false} RunInterleaves(T: Nft, words: seq<Word>, mode: JumpMode, prefix: bool, q: State, k: nat, p: seq<Config>) returns (m: nat)
    requires LevelByLevel(T) && NoWildcards(words) && |words| == T.numOfLevels && q < |T.levels|
    requires HeadsIn(words, HeadsAt(|words|, k, LevelOf(T, q))) && ConfPath(T, words, mode, p)
    requires p[0] == Config(q, HeadsAt(|words|, k, LevelOf(T, q))) && Accepting(T, words, prefix, p[|p| - 1])
    ensures AcceptsLeft(T, words, prefix, q, k, LevelOf(T, q), m)
    decreases |p|
  {
    var j := LevelOf(T, q);
    if |p| == 1 {
      m := k;
      LevelAccepting(T, words, prefix, q, k);
      RoundDone(T, words, prefix, q, k);
    } else {
      var d := p[1];
      assert ConfStep(T, words, mode, p[0], p[0 + 1]);
      LevelStep(T, words, mode, q, k, d);
      TailPath(T, words, mode, p);
      hide Accepting, Denotes, Step, HeadsAt, NoWildcards, AcceptsLeft;
      var t :| Step(T.aut, q, t, d.state) && Denotes(t, words[j][k]);
      LevelsFollow(T, q, t, d.state);
      StepHeads(T, words, mode, p[0], d);
      hide ConfStep, LevelByLevel;
      m := RunInterleaves(T, words, mode, prefix, d.state, NextRound(|words|, k, j), p[1..]);
      AcceptsLeftStep(T, words, prefix, q, k, j, m, t, d.state);
    }
  }

  lemma StepHeads(T: Nft, words: seq<Word>, mode: JumpMode, c: Config, d: Config)
    requires LevelByLevel(T) && ConfStep(T, words, mode, c, d)
    ensures HeadsIn(words, d.heads)
  {
    ConfStepOf(T, words, mode, c, d);
  }

  lemma RoundDone(T: Nft, words: seq<Word>, prefix: bool, q: State, k: nat)
    requires words != [] && q in T.aut.final && (prefix || forall l | 0 <= l < |words| :: k == |words[l]|)
    requires HeadsIn(words, HeadsAt(|words|, k, 0))
    ensures AcceptsLeft(T, words, prefix, q, k, 0, k)
  {
    assert forall l | 0 <= l < |words| :: HeadsAt(|words|, k, 0)[l] == k;
    assert AcceptsFrom(T.aut, q, []) && DenotesAll([], LevelWord(words, k, k, 0));
  }

  lemma {:induction false} InterleavedRuns(T: Nft, words: seq<Word>, mode: JumpMode, prefix: bool, q: State, k: nat, m: nat, v: Word)
    requires LevelByLevel(T) && NoWildcards(words) && |words| == T.numOfLevels && q < |T.levels|
    requires InTime(words, m, k, LevelOf(T, q)) && Rounds(words, m, prefix)
    requires AcceptsFrom(T.aut, q, v) && DenotesAll(v, LevelWord(words, m, k, LevelOf(T, q)))
    ensures LeadsToAccept(T, words, mode, prefix, Config(q, HeadsAt(|words|, k, LevelOf(T, q))))
    decreases |v|
  {
    var n, j := |words|, LevelOf(T, q);
    var c := Config(q, HeadsAt(n, k, j));
    if v == [] {
      assert k == m;
      hide LeadsToAccept, Accepting, Denotes, Step, HeadsAt;
      LevelAccepting(T, words, prefix, q, k);
      AcceptingLeads(T, words, mode, prefix, c);
    } else {
      var p := AcceptingStep(T.aut, q, v);
      var k', j' := NextRound(n, k, j), NextLevel(n, j);
      assert k < m;
      assert LevelWord(words, m, k, j) == [words[j][k]] + LevelWord(words, m, k', j');
      assert LevelWord(words, m, k, j)[1..] == LevelWord(words, m, k', j');
      DenotesCons(v, LevelWord(words, m, k, j));
      HeadsInTime(words, m, k, j);
      LevelsFollow(T, q, v[0], p);
      hide LeadsToAccept, Accepting, ConfStep, Denotes, Step, HeadsAt, LevelWord, DenotesAll, AcceptsFrom;
      InterleavedRuns(T, words, mode, prefix, p, k', m, v[1..]);
      var d := Config(p, HeadsAt(n, k', j'));
      LevelStep(T, words, mode, q, k, d);
      hide LevelByLevel;
      StepLeads(T, words, mode, prefix, c, d);
    }
  }

  lemma HeadsInTime(words: seq<Word>, m: nat, k: nat, j: nat)
    requires InTime(words, m, k, j)
    ensures HeadsIn(words, HeadsAt(|words|, k, j))
  {
  }

  /** The automaton accepts a word for the symbols of all tapes in turn. */
  ghost predicate AcceptsInTurn(T: Nft, words: seq<Word>, prefix: bool) {
    exists m: nat, v: Word :: Rounds(words, m, prefix) && words != [] && Accepts(T.aut, v) && DenotesAll(v, LevelWord(words, m, 0, 0))
  }

  lemma InitialLevel(T: Nft, words: seq<Word>, q: State)
    requires T.Valid() && |words| == T.numOfLevels && q in T.aut.initial
    ensures q < |T.levels| && LevelOf(T, q) == 0
    ensures StartHeads(words) == HeadsAt(|words|, 0, 0) && HeadsIn(words, HeadsAt(|words|, 0, 0)) && words != []
  {
  }

  lemma LanguageInTurn(T: Nft, words: seq<Word>, mode: JumpMode, prefix: bool)
    requires LevelByLevel(T) && |words| == T.numOfLevels && NoWildcards(words) && InLanguage(T, words, mode, prefix)
    ensures AcceptsInTurn(T, words, prefix)
  {
    hide AcceptsFrom, ConfStep, DenotesAll, LevelWord, Accepting, HeadsAt, StartHeads, NoWildcards, Step, HeadsIn, Rounds;
    var q :| q in T.aut.initial && LeadsToAccept(T, words, mode, prefix, Config(q, StartHeads(words)));
    var p :| ConfPath(T, words, mode, p) && p[0] == Config(q, StartHeads(words)) && Accepting(T, words, prefix, p[|p| - 1]);
    InitialLevel(T, words, q);
    hide LevelByLevel, ConfPath;
    var m := RunInterleaves(T, words, mode, prefix, q, 0, p);
    var v: Word :| AcceptsFrom(T.aut, q, v) && DenotesAll(v, LevelWord(words, m, 0, 0));
    assert Accepts(T.aut, v);
  }

  /** The tapes, cut to one length if prefixes count, are in the language just if the automaton accepts a word for
      the symbols of all tapes in turn. */
  lemma LevelByLevelLanguage(T: Nft, words: seq<Word>, mode: JumpMode, prefix: bool)
    requires LevelByLevel(T) && |words| == T.numOfLevels && NoWildcards(words)
    ensures InLanguage(T, words, mode, prefix) <==> AcceptsInTurn(T, words, prefix)
  {
    hide AcceptsFrom, ConfStep, DenotesAll, LevelWord, HeadsAt, StartHeads, NoWildcards, Step, LeadsToAccept;
    if InLanguage(T, words, mode, prefix) { LanguageInTurn(T, words, mode, prefix); }
    if AcceptsInTurn(T, words, prefix) {
      var m: nat, v: Word :| Rounds(words, m, prefix) && words != [] && Accepts(T.aut, v) && DenotesAll(v, LevelWord(words, m, 0, 0));
      var q :| q in T.aut.initial && AcceptsFrom(T.aut, q, v);
      InitialLevel(T, words, q);
      InterleavedRuns(T, words, mode, prefix, q, 0, m, v);
    }
  }
}
