/** A transducer with one tape is an automaton with epsilon transitions: what membership in it means is said with
    the language of the automaton alone. */
module OneTape {
  import opened Automata
  import opened Transducers
  import opened Wildcards

  /** `w` is what is left of `v` when any epsilons are dropped, with a symbol for each wildcard. */
  ghost predicate Yields(v: Word, w: Word)
    decreases |v|
  {
    if v == [] then w == []
    else (v[0] == EPSILON && Yields(v[1..], w)) || (w != [] && Denotes(v[0], w[0]) && Yields(v[1..], w[1..]))
  }

  /** `v` yields `w`, or a prefix of it if prefixes count. */
  ghost predicate YieldsPart(v: Word, w: Word, prefix: bool) {
    exists n: nat :: n <= |w| && (prefix || n == |w|) && Yields(v, w[..n])
  }

  /** From `q` the automaton accepts a word that yields `w`. */
  ghost predicate AcceptsYielding(T: Nft, q: State, w: Word, prefix: bool) {
    exists v: Word :: AcceptsFrom(T.aut, q, v) && YieldsPart(v, w, prefix)
  }

  ghost predicate SingleTape(T: Nft) {
    T.Valid() && T.numOfLevels == 1
  }

  lemma SingleAccepting(T: Nft, w: Word, prefix: bool, q: State, h: nat)
    requires SingleTape(T) && h <= |w| && q < |T.levels|
    ensures Accepting(T, [w], prefix, Config(q, [h])) <==> q in T.aut.final && (prefix || h == |w|)
  {
    assert [h][0] == h && [w][0] == w;
  }

  /** The empty word yields what the accepting configuration leaves. */
  lemma NothingYields(w: Word, h: nat, prefix: bool)
    requires h <= |w|
    ensures YieldsPart([], w[h..], prefix) <==> prefix || h == |w|
  {
    assert Yields([], w[h..][..0]);
  }

  lemma SingleReads(T: Nft, w: Word, mode: JumpMode, q: State, h: nat, t: Symbol, p: State)
    requires SingleTape(T) && DONT_CARE !in w && h <= |w| && q < |T.levels| && p < |T.levels|
    ensures Reads(T, [w], mode, Config(q, [h]), t, p) <==> h < |w| && Denotes(t, w[h])
    ensures AfterReading(T, Config(q, [h]), p) == Config(p, [h + 1])
  {
    var c := Config(q, [h]);
    assert LevelOf(T, q) == 0 && SpanEnd(T, p) == 1;
    if h < |w| { MatchConcrete(t, w[h]); }
    hide SymbolsMatch, Denotes;
    if Reads(T, [w], mode, c, t, p) {
      assert SymbolsMatch(Expected(mode, t, 0, 0), [w][0][c.heads[0]]);
    }
  }

  lemma SingleStep(T: Nft, w: Word, mode: JumpMode, q: State, h: nat, d: Config)
    requires SingleTape(T) && DONT_CARE !in w && h <= |w| && q < |T.levels| && d.state < |T.levels|
    ensures ConfStep(T, [w], mode, Config(q, [h]), d) <==>
            || (Step(T.aut, q, EPSILON, d.state) && d.heads == [h])
            || (h < |w| && d.heads == [h + 1] && exists t :: Step(T.aut, q, t, d.state) && Denotes(t, w[h]))
  {
    forall t ensures Reads(T, [w], mode, Config(q, [h]), t, d.state) <==> h < |w| && Denotes(t, w[h])
      ensures AfterReading(T, Config(q, [h]), d.state) == Config(d.state, [h + 1])
    {
      SingleReads(T, w, mode, q, h, t, d.state);
    }
    hide Reads, AfterReading, Denotes, Step;
  }

  lemma PartCons(v: Word, a: Symbol, w: Word, prefix: bool)
    ensures a == EPSILON && YieldsPart(v, w, prefix) ==> YieldsPart([a] + v, w, prefix)
    ensures w != [] && Denotes(a, w[0]) && YieldsPart(v, w[1..], prefix) ==> YieldsPart([a] + v, w, prefix)
  {
    assert ([a] + v)[1..] == v;
    if a == EPSILON && YieldsPart(v, w, prefix) {
      var n: nat :| n <= |w| && (prefix || n == |w|) && Yields(v, w[..n]);
      assert Yields([a] + v, w[..n]);
    }
    if w != [] && Denotes(a, w[0]) && YieldsPart(v, w[1..], prefix) {
      var n: nat :| n <= |w[1..]| && (prefix || n == |w[1..]|) && Yields(v, w[1..][..n]);
      assert w[..n + 1][1..] == w[1..][..n];
      assert Yields([a] + v, w[..n + 1]);
    }
  }

  lemma PartFirst(v: Word, w: Word, prefix: bool)
    requires v != [] && YieldsPart(v, w, prefix)
    ensures (v[0] == EPSILON && YieldsPart(v[1..], w, prefix)) || (w != [] && Denotes(v[0], w[0]) && YieldsPart(v[1..], w[1..], prefix))
  {
    var n: nat :| n <= |w| && (prefix || n == |w|) && Yields(v, w[..n]);
    if !(v[0] == EPSILON && Yields(v[1..], w[..n])) {
      assert w[..n][1..] == w[1..][..n - 1];
    }
  }

  /** A run of the transducer reads a word that the automaton accepts. */
  lemma {:induction false} RunYields(T: Nft, w: Word, mode: JumpMode, prefix: bool, h: nat, p: seq<Config>)
    requires SingleTape(T) && DONT_CARE !in w && h <= |w| && ConfPath(T, [w], mode, p) && p[0].heads == [h]
    requires p[0].state < |T.levels| && Accepting(T, [w], prefix, p[|p| - 1])
    ensures AcceptsYielding(T, p[0].state, w[h..], prefix)
    decreases |p|
  {
    var q := p[0].state;
    if |p| == 1 {
      assert p[0] == Config(q, [h]);
      SingleAccepting(T, w, prefix, q, h);
      NothingYields(w, h, prefix);
      assert AcceptsFrom(T.aut, q, []);
    } else {
      assert ConfStep(T, [w], mode, p[0], p[0 + 1]);
      TailPath(T, [w], mode, p);
      var d := p[1];
      assert HasLevel(T, d.state) && p[0] == Config(q, [h]);
      SingleStep(T, w, mode, q, h, d);
      hide ConfStep, Accepting, Denotes, Step, YieldsPart;
      if Step(T.aut, q, EPSILON, d.state) && d.heads == [h] {
        RunYields(T, w, mode, prefix, h, p[1..]);
        YieldsMore(T, q, EPSILON, d.state, w[h..], w[h..], prefix);
      } else {
        RunYields(T, w, mode, prefix, h + 1, p[1..]);
        var t :| Step(T.aut, q, t, d.state) && Denotes(t, w[h]);
        assert w[h..][1..] == w[h + 1..];
        YieldsMore(T, q, t, d.state, w[h..], w[h + 1..], prefix);
      }
    }
  }

  lemma YieldsMore(T: Nft, q: State, t: Symbol, p: State, w: Word, rest: Word, prefix: bool)
    requires Step(T.aut, q, t, p) && AcceptsYielding(T, p, rest, prefix)
    requires (t == EPSILON && rest == w) || (w != [] && Denotes(t, w[0]) && rest == w[1..])
    ensures AcceptsYielding(T, q, w, prefix)
  {
    hide YieldsPart, Step, Denotes;
    var v: Word :| AcceptsFrom(T.aut, p, v) && YieldsPart(v, rest, prefix);
    assert ([t] + v)[1..] == v;
    StepAccepts(T.aut, q, [t] + v, p);
    PartCons(v, t, w, prefix);
  }

  /** A word that the automaton accepts is read by a run of the transducer. */
  lemma {:induction false} YieldsRun(T: Nft, w: Word, mode: JumpMode, prefix: bool, q: State, h: nat, v: Word)
    requires SingleTape(T) && DONT_CARE !in w && h <= |w| && q < |T.levels|
    requires AcceptsFrom(T.aut, q, v) && YieldsPart(v, w[h..], prefix)
    ensures LeadsToAccept(T, [w], mode, prefix, Config(q, [h]))
    decreases |v|
  {
    hide YieldsPart, Denotes, Step, ConfStep, LeadsToAccept, Accepting, Nfa.Valid;
    var c := Config(q, [h]);
    if v == [] {
      NothingYields(w, h, prefix);
      SingleAccepting(T, w, prefix, q, h);
      AcceptingLeads(T, [w], mode, prefix, c);
    } else {
      var p := AcceptingStep(T.aut, q, v);
      StepIsState(T.aut, q, v[0], p);
      PartFirst(v, w[h..], prefix);
      assert p < |T.levels|;
      if v[0] == EPSILON && YieldsPart(v[1..], w[h..], prefix) {
        YieldsRun(T, w, mode, prefix, p, h, v[1..]);
        SingleStep(T, w, mode, q, h, Config(p, [h]));
        StepLeads(T, [w], mode, prefix, c, Config(p, [h]));
      } else {
        assert w[h..][1..] == w[h + 1..] && w[h..][0] == w[h];
        YieldsRun(T, w, mode, prefix, p, h + 1, v[1..]);
        SingleStep(T, w, mode, q, h, Config(p, [h + 1]));
        StepLeads(T, [w], mode, prefix, c, Config(p, [h + 1]));
      }
    }
  }

  /** A tape without wildcards is in the language of a transducer with one tape just if its automaton accepts a
      word that yields the tape, or a prefix of it. */
  lemma OneTapeLanguage(T: Nft, w: Word, mode: JumpMode, prefix: bool)
    requires T.Valid() && T.numOfLevels == 1 && DONT_CARE !in w
    ensures InLanguage(T, [w], mode, prefix) <==> exists v: Word :: Accepts(T.aut, v) && YieldsPart(v, w, prefix)
  {
    hide AcceptsFrom, YieldsPart, ConfStep;
    assert StartHeads([w]) == [0] && w[0..] == w;
    if InLanguage(T, [w], mode, prefix) {
      var q :| q in T.aut.initial && LeadsToAccept(T, [w], mode, prefix, Config(q, [0]));
      var p :| ConfPath(T, [w], mode, p) && p[0] == Config(q, [0]) && Accepting(T, [w], prefix, p[|p| - 1]);
      RunYields(T, w, mode, prefix, 0, p);
    }
    forall v: Word | Accepts(T.aut, v) && YieldsPart(v, w, prefix) ensures InLanguage(T, [w], mode, prefix) {
      var q :| q in T.aut.initial && AcceptsFrom(T.aut, q, v);
      YieldsRun(T, w, mode, prefix, q, 0, v);
    }
  }
}
