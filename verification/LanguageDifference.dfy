/** Language difference on pairs of macrostates, with early stop (lang_difference and
    get_word_from_lang_difference of src/nfa/operations.cc). */
module LanguageDifference {
  import opened Automata
  import opened Counting
  import opened Options
  import opened DeltaRelation
  import opened Macrostates
  import opened Distances
  import opened Languages
  import opened Determinization
  import opened WordSearch

  /** A macrostate of the included and one of the excluded automaton */
  type Pair = (StateSet, StateSet)

  function PairPost(A: Nfa, B: Nfa, x: Pair, a: Symbol): Pair {
    (PostSet(A, x.0, a), PostSet(B, x.1, a))
  }

  /** The included automaton accepts here and the excluded one does not; the empty macrostate is the
      sink of the excluded automaton's complement. */
  predicate IsFinalPair(A: Nfa, B: Nfa, x: Pair) {
    !(A.final !! x.0) && (x.1 == {} || B.final !! x.1)
  }

  /** State `s` stands for the pair reached from that of `r` over `a`. */
  ghost predicate PairMove(A: Nfa, B: Nfa, names: seq<Pair>, r: State, a: Symbol, s: State) {
    r < |names| && s < |names| && PostSet(A, names[r].0, a) != {} && names[s] == PairPost(A, B, names[r], a)
  }

  ghost predicate PairSuccessorsNamed(A: Nfa, B: Nfa, names: seq<Pair>, r: State) {
    r < |names| && forall a :: PostSet(A, names[r].0, a) != {} ==> PairPost(A, B, names[r], a) in names
  }

  ghost predicate PairsNamed(A: Nfa, B: Nfa, names: seq<Pair>) {
    && names != [] && names[0] == (A.initial, B.initial) && Distinct(names)
    && (forall x <- names :: x.0 <= Below(A.size) && x.1 <= Below(B.size))
  }

  /** Every state but the first is entered from an earlier one. */
  ghost predicate Linked(delta: seq<StatePost>, n: nat) {
    forall s: State | 0 < s < n :: EnteredFromEarlier(delta, s)
  }

  ghost predicate EnteredFromEarlier(delta: seq<StatePost>, s: State) {
    exists p: State, a :: p < s && HasTransition(delta, p, a, s)
  }

  /** `D` has only transitions of the pair automaton, and all its states are reachable; it may have
      been left before all transitions were added. */
  ghost predicate IsPartOfDifference(A: Nfa, B: Nfa, D: Nfa, names: seq<Pair>) {
    && PairsNamed(A, B, names) && D.size == |names| && D.initial == {0} && Linked(D.delta, |names|)
    && (forall r: State :: r in D.final <==> r < |names| && IsFinalPair(A, B, names[r]))
    && (forall r: State, a, s: State | Step(D, r, a, s) :: PairMove(A, B, names, r, a, s))
  }

  /** `D` has them all. */
  ghost predicate IsDifference(A: Nfa, B: Nfa, D: Nfa, names: seq<Pair>) {
    && IsPartOfDifference(A, B, D, names)
    && (forall r: State | r < |names| :: PairSuccessorsNamed(A, B, names, r))
    && (forall r: State, a, s: State | PairMove(A, B, names, r, a, s) :: Step(D, r, a, s))
  }

  // ---------- Language ----------

  /** Reading `w` from the pair ends in a final pair. */
  ghost predicate PairAccepts(A: Nfa, B: Nfa, x: Pair, w: Word) {
    IsFinalPair(A, B, (PostWord(A, x.0, w), PostWord(B, x.1, w)))
  }

  lemma PairAcceptsStep(A: Nfa, B: Nfa, x: Pair, w: Word)
    requires w != []
    ensures PairAccepts(A, B, x, w) <==> PostSet(A, x.0, w[0]) != {} && PairAccepts(A, B, PairPost(A, B, x, w[0]), w[1..])
  {
    if PostSet(A, x.0, w[0]) == {} { PostWordEmpty(A, w[1..]); }
    hide PostSet;
  }

  lemma {:induction false} PartAcceptsOnly(A: Nfa, B: Nfa, D: Nfa, names: seq<Pair>, r: State, w: Word)
    requires IsPartOfDifference(A, B, D, names) && r < |names| && AcceptsFrom(D, r, w)
    ensures PairAccepts(A, B, names[r], w)
    decreases |w|
  {
    hide PairsNamed, Linked, PostSet, Step;
    if w != [] {
      var s := AcceptingStep(D, r, w);
      assert PairMove(A, B, names, r, w[0], s);
      PartAcceptsOnly(A, B, D, names, s, w[1..]);
      hide PairAccepts;
      PairAcceptsStep(A, B, names[r], w);
    }
  }

  lemma {:induction false} DifferenceAcceptsAll(A: Nfa, B: Nfa, D: Nfa, names: seq<Pair>, r: State, w: Word)
    requires IsDifference(A, B, D, names) && r < |names| && PairAccepts(A, B, names[r], w)
    ensures AcceptsFrom(D, r, w)
    decreases |w|
  {
    hide PairsNamed, Linked, PostSet, Step;
    if w != [] {
      PairAcceptsStep(A, B, names[r], w);
      hide PairAccepts;
      assert PairSuccessorsNamed(A, B, names, r);
      assert PairPost(A, B, names[r], w[0]) in names;
      var s :| 0 <= s < |names| && names[s] == PairPost(A, B, names[r], w[0]);
      assert PairMove(A, B, names, r, w[0], s);
      DifferenceAcceptsAll(A, B, D, names, s, w[1..]);
      StepAccepts(D, r, w, s);
    }
  }

  ghost predicate InDifference(A: Nfa, B: Nfa, w: Word) {
    Accepts(A, w) && !Accepts(B, w)
  }

  lemma InitialPairAccepts(A: Nfa, B: Nfa, w: Word)
    requires A.Valid() && B.Valid()
    ensures PairAccepts(A, B, (A.initial, B.initial), w) <==> InDifference(A, B, w)
  {
    AcceptsByMacrostate(A, w);
    AcceptsByMacrostate(B, w);
    hide PostWord, Accepts;
  }

  lemma PartLanguage(A: Nfa, B: Nfa, D: Nfa, names: seq<Pair>, w: Word)
    requires A.Valid() && B.Valid() && IsPartOfDifference(A, B, D, names)
    ensures Accepts(D, w) ==> InDifference(A, B, w)
  {
    hide PairMove, Linked, Step, AcceptsFrom, PairAccepts, InDifference;
    InitialPairAccepts(A, B, w);
    if Accepts(D, w) { PartAcceptsOnly(A, B, D, names, 0, w); }
  }

  /** The difference automaton accepts exactly the words of the one and not of the other. */
  lemma DifferenceLanguage(A: Nfa, B: Nfa, D: Nfa, names: seq<Pair>, w: Word)
    requires A.Valid() && B.Valid() && IsDifference(A, B, D, names)
    ensures Accepts(D, w) <==> InDifference(A, B, w)
  {
    PartLanguage(A, B, D, names, w);
    hide PairMove, Linked, Step, AcceptsFrom, PairAccepts, InDifference;
    InitialPairAccepts(A, B, w);
    if InDifference(A, B, w) {
      DifferenceAcceptsAll(A, B, D, names, 0, w);
      assert 0 in D.initial;
    }
  }

  /** Every state of a partial difference automaton is reachable. */
  lemma {:induction false} PartReached(A: Nfa, B: Nfa, D: Nfa, names: seq<Pair>, r: State) returns (w: Word)
    requires IsPartOfDifference(A, B, D, names) && r < |names|
    ensures ReachedBy(D, w, r)
    decreases r
  {
    hide PairMove, PairsNamed;
    if r == 0 {
      w := [];
      ReachedByEmpty(D, 0);
    } else {
      assert EnteredFromEarlier(D.delta, r);
      var p: State, a :| p < r && HasTransition(D.delta, p, a, r);
      assert Step(D, p, a, r);
      var u := PartReached(A, B, D, names, p);
      ReachedByStep(D, u, p, a, r);
      w := u + [a];
    }
  }

  /** A final state makes the language non-empty. */
  lemma FinalAccepts(A: Nfa, B: Nfa, D: Nfa, names: seq<Pair>, r: State) returns (w: Word)
    requires IsPartOfDifference(A, B, D, names) && r in D.final
    ensures Accepts(D, w)
  {
    w := PartReached(A, B, D, names, r);
    var q0 :| q0 in D.initial && ReadsTo(D, q0, w, r);
    var path :| IsRun(D, path, w) && path[0] == q0 && path[|w|] == r;
    RunAccepts(D, path, w, []);
    assert w + [] == w;
  }

  // ---------- The construction ----------

  /** `subset_macrostate_map` */
  ghost predicate PairNumbers(numbers: map<Pair, State>, names: seq<Pair>) {
    && (forall x :: x in numbers <==> x in names)
    && (forall x <- numbers :: numbers[x] < |names| && names[numbers[x]] == x)
  }

  ghost predicate PairBuilt(A: Nfa, B: Nfa, names: seq<Pair>, delta: seq<StatePost>, r: State) {
    && PairSuccessorsNamed(A, B, names, r)
    && (forall a, s: State :: HasTransition(delta, r, a, s) <==> PairMove(A, B, names, r, a, s))
  }

  ghost predicate PairBuiltOver(A: Nfa, B: Nfa, names: seq<Pair>, delta: seq<StatePost>, r: State, symbols: seq<Symbol>) {
    && r < |names|
    && (forall a, s: State :: HasTransition(delta, r, a, s) <==> a in symbols && PairMove(A, B, names, r, a, s))
    && (forall a <- symbols :: PostSet(A, names[r].0, a) != {} ==> PairPost(A, B, names[r], a) in names)
  }

  ghost predicate OtherPairsBuilt(A: Nfa, B: Nfa, names: seq<Pair>, delta: seq<StatePost>, open: set<State>, r: State) {
    && (forall q: State | q < |names| && q !in open && q != r :: PairBuilt(A, B, names, delta, q))
    && (forall q: State, a, s: State | q in open || q >= |names| :: !HasTransition(delta, q, a, s))
  }

  ghost predicate AllPairsBuilt(A: Nfa, B: Nfa, names: seq<Pair>, delta: seq<StatePost>, open: set<State>) {
    && (forall q: State | q < |names| && q !in open :: PairBuilt(A, B, names, delta, q))
    && (forall q: State, a, s: State | q in open || q >= |names| :: !HasTransition(delta, q, a, s))
  }

  ghost predicate PairFinals(A: Nfa, B: Nfa, names: seq<Pair>, final: StateSet) {
    forall r: State :: r in final <==> r < |names| && IsFinalPair(A, B, names[r])
  }

  ghost predicate PairWork(work: seq<(Pair, State)>, names: seq<Pair>, open: set<State>) {
    && (forall r: State :: r in open <==> r < |names| && (names[r], r) in work)
    && (forall x <- work :: x.1 in open && names[x.1] == x.0)
    && Distinct(work)
  }

  /** What holds while the successors of `r` over `done` have been added. */
  ghost predicate AddingPairs(A: Nfa, B: Nfa, names: seq<Pair>, numbers: map<Pair, State>, delta: seq<StatePost>,
                              final: StateSet, open: set<State>, r: State, done: seq<Symbol>) {
    && PairsNamed(A, B, names) && PairNumbers(numbers, names) && PairFinals(A, B, names, final)
    && OtherPairsBuilt(A, B, names, delta, open, r) && PairBuiltOver(A, B, names, delta, r, done) && r !in open
  }

  ghost predicate BetweenPairs(A: Nfa, B: Nfa, names: seq<Pair>, numbers: map<Pair, State>, delta: seq<StatePost>,
                               final: StateSet, open: set<State>) {
    && PairsNamed(A, B, names) && PairNumbers(numbers, names) && PairFinals(A, B, names, final)
    && AllPairsBuilt(A, B, names, delta, open)
  }

  lemma SnocNames(names: seq<Pair>, y: Pair)
    ensures |names + [y]| == |names| + 1 && (names + [y])[|names|] == y && forall i | 0 <= i < |names| :: (names + [y])[i] == names[i]
    ensures forall x :: x in names + [y] <==> x in names || x == y
  {
  }

  lemma NewPairNamed(A: Nfa, B: Nfa, names: seq<Pair>, numbers: map<Pair, State>, y: Pair)
    requires PairsNamed(A, B, names) && PairNumbers(numbers, names) && y !in numbers
    requires y.0 <= Below(A.size) && y.1 <= Below(B.size)
    ensures PairsNamed(A, B, names + [y]) && PairNumbers(numbers[y := |names|], names + [y]) && y !in names
  {
    DistinctSnoc(names, y);
    SnocNames(names, y);
    hide Distinct;
  }

  lemma NewPairBuilt(A: Nfa, B: Nfa, names: seq<Pair>, delta: seq<StatePost>, q: State, y: Pair)
    requires PairBuilt(A, B, names, delta, q) && y !in names
    ensures PairBuilt(A, B, names + [y], delta, q)
  {
    SnocNames(names, y);
    hide PostSet, HasTransition;
  }

  lemma NewPairOthers(A: Nfa, B: Nfa, names: seq<Pair>, delta: seq<StatePost>, open: set<State>, r: State, done: seq<Symbol>, y: Pair)
    requires OtherPairsBuilt(A, B, names, delta, open, r) && PairBuiltOver(A, B, names, delta, r, done) && y !in names
    ensures OtherPairsBuilt(A, B, names + [y], delta, open + {|names|}, r) && PairBuiltOver(A, B, names + [y], delta, r, done)
  {
    forall q: State | q < |names| && q !in open && q != r ensures PairBuilt(A, B, names + [y], delta, q) {
      NewPairBuilt(A, B, names, delta, q, y);
    }
    SnocNames(names, y);
    hide PairBuilt, HasTransition, PostSet;
  }

  lemma NewPairFinals(A: Nfa, B: Nfa, names: seq<Pair>, final: StateSet, y: Pair)
    requires PairFinals(A, B, names, final)
    ensures PairFinals(A, B, names + [y], if IsFinalPair(A, B, y) then final + {|names|} else final)
  {
    SnocNames(names, y);
    hide IsFinalPair;
  }

  lemma PairPostBelow(A: Nfa, B: Nfa, x: Pair, a: Symbol)
    requires A.Valid() && B.Valid()
    ensures PairPost(A, B, x, a).0 <= Below(A.size) && PairPost(A, B, x, a).1 <= Below(B.size)
  {
    PostSetBelow(A, x.0, a);
    PostSetBelow(B, x.1, a);
  }

  /** A new pair gets the next number. */
  lemma CreatePair(A: Nfa, B: Nfa, names: seq<Pair>, numbers: map<Pair, State>, delta: seq<StatePost>, final: StateSet,
                   open: set<State>, r: State, done: seq<Symbol>, a: Symbol, y: Pair)
    requires A.Valid() && B.Valid() && AddingPairs(A, B, names, numbers, delta, final, open, r, done)
    requires FollowsOver(A, B, names, r, a, y) && y !in numbers
    ensures AddingPairs(A, B, names + [y], numbers[y := |names|], delta,
                        if IsFinalPair(A, B, y) then final + {|names|} else final, open + {|names|}, r, done)
    ensures PairMove(A, B, names + [y], r, a, |names|) && y !in names && y.0 <= Below(A.size) && y.1 <= Below(B.size)
  {
    hide PairsNamed, PairNumbers, PairFinals, OtherPairsBuilt, PairBuiltOver, IsFinalPair, Nfa.Valid, PostSet, PairPost;
    PairPostBelow(A, B, names[r], a);
    NewPairNamed(A, B, names, numbers, y);
    NewPairOthers(A, B, names, delta, open, r, done, y);
    NewPairFinals(A, B, names, final, y);
    SnocNames(names, y);
  }

  /** The pair `r` leads to `y` over `a`. */
  ghost predicate FollowsOver(A: Nfa, B: Nfa, names: seq<Pair>, r: State, a: Symbol, y: Pair) {
    r < |names| && PostSet(A, names[r].0, a) != {} && y == PairPost(A, B, names[r], a)
  }

  lemma PairMoveUnique(A: Nfa, B: Nfa, names: seq<Pair>, r: State, a: Symbol, s: State, t: State)
    requires Distinct(names) && PairMove(A, B, names, r, a, s) && PairMove(A, B, names, r, a, t)
    ensures s == t
  {
  }

  lemma AddPair(A: Nfa, B: Nfa, names: seq<Pair>, numbers: map<Pair, State>, delta: seq<StatePost>, delta': seq<StatePost>,
                final: StateSet, open: set<State>, r: State, done: seq<Symbol>, a: Symbol, s: State)
    requires AddingPairs(A, B, names, numbers, delta, final, open, r, done) && PairMove(A, B, names, r, a, s)
    requires forall x, b, y :: HasTransition(delta', x, b, y) <==> HasTransition(delta, x, b, y) || (x == r && b == a && y == s)
    ensures AddingPairs(A, B, names, numbers, delta', final, open, r, done + [a])
  {
    assert Distinct(names);
    forall y: State | PairMove(A, B, names, r, a, y) ensures y == s { PairMoveUnique(A, B, names, r, a, y, s); }
    assert names[s] in names && names[s] == PairPost(A, B, names[r], a);
    hide HasTransition, PairMove, PairPost, PostSet, PairsNamed, PairNumbers, PairFinals, PairSuccessorsNamed, Distinct;
  }

  lemma StartPairs(A: Nfa, B: Nfa, names: seq<Pair>, numbers: map<Pair, State>, delta: seq<StatePost>, final: StateSet, open: set<State>, r: State)
    requires BetweenPairs(A, B, names, numbers, delta, final, open) && r in open && r < |names|
    ensures AddingPairs(A, B, names, numbers, delta, final, open - {r}, r, [])
  {
    hide HasTransition, PairsNamed, PairNumbers, PairFinals, PairBuilt, PostSet;
  }

  lemma RBuiltPairs(A: Nfa, B: Nfa, names: seq<Pair>, delta: seq<StatePost>, r: State, symbols: seq<Symbol>)
    requires PairBuiltOver(A, B, names, delta, r, symbols) && SymbolsOf(A, names[r].0, symbols)
    ensures PairBuilt(A, B, names, delta, r)
  {
    hide HasTransition, PostSet;
  }

  lemma EndPairs(A: Nfa, B: Nfa, names: seq<Pair>, numbers: map<Pair, State>, delta: seq<StatePost>, final: StateSet,
                 open: set<State>, r: State, symbols: seq<Symbol>)
    requires r < |names| && AddingPairs(A, B, names, numbers, delta, final, open, r, symbols) && SymbolsOf(A, names[r].0, symbols)
    ensures BetweenPairs(A, B, names, numbers, delta, final, open)
  {
    hide HasTransition, PairsNamed, PairNumbers, PairFinals, PairBuilt, PairBuiltOver, SymbolsOf;
    RBuiltPairs(A, B, names, delta, r, symbols);
  }

  ghost function UnnamedPairs(A: Nfa, B: Nfa, names: seq<Pair>): set<Pair> {
    set S: StateSet, T: StateSet | S <= Below(A.size) && T <= Below(B.size) && (S, T) !in names :: (S, T)
  }

  lemma NamingPairShrinks(A: Nfa, B: Nfa, names: seq<Pair>, y: Pair)
    requires y.0 <= Below(A.size) && y.1 <= Below(B.size) && y !in names
    ensures UnnamedPairs(A, B, names + [y]) < UnnamedPairs(A, B, names)
  {
    assert y == (y.0, y.1) && y in UnnamedPairs(A, B, names) && y !in UnnamedPairs(A, B, names + [y]);
  }

  lemma PushPair(work: seq<(Pair, State)>, names: seq<Pair>, open: set<State>, y: Pair)
    requires PairWork(work, names, open)
    ensures PairWork(work + [(y, |names|)], names + [y], open + {|names|})
  {
    SnocNames(names, y);
    assert (y, |names|) !in work;
    DistinctSnoc(work, (y, |names|));
    hide Distinct;
  }

  lemma PopPair(work: seq<(Pair, State)>, names: seq<Pair>, open: set<State>)
    requires PairWork(work, names, open) && work != []
    ensures var (x, r) := work[|work| - 1];
            r in open && r < |names| && names[r] == x && PairWork(work[..|work| - 1], names, open - {r})
  {
    var n := |work| - 1;
    var x := work[n];
    assert work == work[..n] + [x];
    DistinctSnoc(work[..n], x);
    assert x in work;
    forall y | y in work[..n] ensures y.1 != x.1 { assert y in work; }
  }

  /** Transitions are only added; a new state is entered by the transition for which it was created. */
  lemma LinkedMore(delta: seq<StatePost>, delta': seq<StatePost>, n: nat, r: State, a: Symbol, s: State)
    requires Linked(delta, n) && r < n && s <= n
    requires forall x, b, y :: HasTransition(delta', x, b, y) <==> HasTransition(delta, x, b, y) || (x == r && b == a && y == s)
    ensures Linked(delta', n) && (s == n ==> Linked(delta', n + 1))
  {
    hide HasTransition;
    forall t: State | 0 < t < n ensures EnteredFromEarlier(delta', t) {
      assert EnteredFromEarlier(delta, t);
      var p: State, b :| p < t && HasTransition(delta, p, b, t);
      assert HasTransition(delta', p, b, t);
    }
    if s == n { assert HasTransition(delta', r, a, n); }
  }

  lemma KnownPair(A: Nfa, B: Nfa, names: seq<Pair>, numbers: map<Pair, State>, delta: seq<StatePost>, final: StateSet,
                  open: set<State>, r: State, done: seq<Symbol>, symbols: seq<Symbol>, a: Symbol)
    requires AddingPairs(A, B, names, numbers, delta, final, open, r, done) && r < |names|
    requires SymbolsOf(A, names[r].0, symbols) && a in symbols
    ensures FollowsOver(A, B, names, r, a, PairPost(A, B, names[r], a))
    ensures var y := PairPost(A, B, names[r], a); y in numbers ==> PairMove(A, B, names, r, a, numbers[y]) && numbers[y] < |names|
  {
    hide HasTransition, PairsNamed, PairFinals, OtherPairsBuilt, PairBuiltOver, PostSet;
  }

  /** Add the successors of one pair; with `stop`, return as soon as there is a final state. */
  method AddPairSuccessors(A: Nfa, B: Nfa, stop: bool, delta: Delta, r: State, x: Pair, ghost names0: seq<Pair>, numbers0: map<Pair, State>,
                           count0: nat, final0: StateSet, work0: seq<(Pair, State)>, ghost open0: set<State>)
    returns (ghost names: seq<Pair>, numbers: map<Pair, State>, count: nat, final: StateSet, work: seq<(Pair, State)>, ghost open: set<State>,
             stopped: bool, ghost done: seq<Symbol>)
    requires A.Valid() && B.Valid() && delta.Valid() && |delta.statePosts| <= count0 == |names0| && r < |names0| && names0[r] == x
    requires AddingPairs(A, B, names0, numbers0, delta.statePosts, final0, open0, r, []) && PairWork(work0, names0, open0)
    requires Linked(delta.statePosts, |names0|) && (stop ==> final0 == {})
    modifies delta
    ensures delta.Valid() && |delta.statePosts| <= count == |names| && Linked(delta.statePosts, |names|)
    ensures stopped ==> AddingPairs(A, B, names, numbers, delta.statePosts, final, open, r, done) && final != {} && stop
    ensures !stopped ==> BetweenPairs(A, B, names, numbers, delta.statePosts, final, open) && PairWork(work, names, open) && (stop ==> final == {})
    ensures !stopped ==> (names == names0 && work == work0) || UnnamedPairs(A, B, names) < UnnamedPairs(A, B, names0)
  {
    hide *;
    names, numbers, count, final, work, open, stopped := names0, numbers0, count0, final0, work0, open0, false;
    var symbols := MergeSymbols(A, x.0);
    assert symbols[..0] == [];
    for k := 0 to |symbols|
      invariant delta.Valid() && |delta.statePosts| <= count == |names| && r < |names| && names[r] == x && Linked(delta.statePosts, |names|)
      invariant AddingPairs(A, B, names, numbers, delta.statePosts, final, open, r, symbols[..k]) && PairWork(work, names, open) && (stop ==> final == {})
      invariant (names == names0 && work == work0) || UnnamedPairs(A, B, names) < UnnamedPairs(A, B, names0)
    {
      var a := symbols[k];
      var y := PairPost(A, B, x, a);
      done := symbols[..k];
      ghost var before, count1 := delta.statePosts, count;
      KnownPair(A, B, names, numbers, before, final, open, r, done, symbols, a);
      var target: State;
      if y in numbers {
        target := numbers[y];
      } else {
        target := count;
        CreatePair(A, B, names, numbers, before, final, open, r, done, a, y);
        PushPair(work, names, open, y);
        NamingPairShrinks(A, B, names, y);
        numbers, count := numbers[y := target], count + 1;
        if IsFinalPair(A, B, y) { final := final + {target}; }
        work := work + [(y, target)];
        names, open := names + [y], open + {target};
      }
      delta.Add(r, a, target);
      AddPair(A, B, names, numbers, before, delta.statePosts, final, open, r, done, a, target);
      LinkedMore(before, delta.statePosts, count1, r, a, target);
      assert symbols[..k + 1] == done + [a];
      if stop && final != {} {
        done := done + [a];
        return names, numbers, count, final, work, open, true, done;
      }
    }
    assert symbols[..|symbols|] == symbols;
    EndPairs(A, B, names, numbers, delta.statePosts, final, open, r, symbols);
    done := symbols;
  }

  lemma FirstPair(A: Nfa, B: Nfa, delta: seq<StatePost>)
    requires A.Valid() && B.Valid() && delta == []
    ensures var x := (A.initial, B.initial);
            && BetweenPairs(A, B, [x], map[x := 0], delta, if IsFinalPair(A, B, x) then {0} else {}, {0})
            && PairWork([(x, 0)], [x], {0}) && Linked(delta, 1)
  {
  }

  /** What has been built when the search stops at a final state. */
  lemma StoppedPart(A: Nfa, B: Nfa, D: Nfa, names: seq<Pair>, numbers: map<Pair, State>, open: set<State>, r: State, done: seq<Symbol>)
    requires AddingPairs(A, B, names, numbers, D.delta, D.final, open, r, done) && Linked(D.delta, |names|)
    requires SortedDelta(D.delta) && |D.delta| <= D.size == |names| && D.initial == {0}
    ensures D.Valid() && IsPartOfDifference(A, B, D, names)
  {
    hide PairNumbers, SortedDelta, Linked;
    forall q: State, a, s: State | HasTransition(D.delta, q, a, s) ensures PairMove(A, B, names, q, a, s) {
      assert q in open || q >= |names| || q == r || PairBuilt(A, B, names, D.delta, q);
    }
    PartBuilt(A, B, D, names);
  }

  lemma PartBuilt(A: Nfa, B: Nfa, D: Nfa, names: seq<Pair>)
    requires PairsNamed(A, B, names) && PairFinals(A, B, names, D.final) && Linked(D.delta, |names|)
    requires forall q: State, a, s: State | HasTransition(D.delta, q, a, s) :: PairMove(A, B, names, q, a, s)
    requires SortedDelta(D.delta) && |D.delta| <= D.size == |names| && D.initial == {0}
    ensures D.Valid() && IsPartOfDifference(A, B, D, names)
  {
    forall q: State, a, s: State ensures Step(D, q, a, s) <==> HasTransition(D.delta, q, a, s) { }
    hide HasTransition, Step, SortedDelta, Linked, IsFinalPair, PostSet, PairPost;
    SortedPostIsValid(D.delta, D.size);
  }

  lemma CompleteDifference(A: Nfa, B: Nfa, D: Nfa, names: seq<Pair>, numbers: map<Pair, State>)
    requires BetweenPairs(A, B, names, numbers, D.delta, D.final, {}) && Linked(D.delta, |names|)
    requires SortedDelta(D.delta) && |D.delta| <= D.size == |names| && D.initial == {0}
    ensures D.Valid() && IsDifference(A, B, D, names)
  {
    hide PairNumbers, SortedDelta, Linked, PairsNamed, PairFinals, PairMove;
    forall q: State | q < |names| ensures PairSuccessorsNamed(A, B, names, q) {
      assert PairBuilt(A, B, names, D.delta, q);
    }
    forall q: State, a, s: State | HasTransition(D.delta, q, a, s) ensures PairMove(A, B, names, q, a, s) {
      assert q >= |names| || PairBuilt(A, B, names, D.delta, q);
    }
    PartBuilt(A, B, D, names);
    forall q: State, a, s: State | PairMove(A, B, names, q, a, s) ensures Step(D, q, a, s) {
      MoveFromNamed(A, B, names, q, a, s);
      assert PairBuilt(A, B, names, D.delta, q);
      assert HasTransition(D.delta, q, a, s);
    }
    hide HasTransition, Step, IsPartOfDifference, PairSuccessorsNamed;
  }

  lemma MoveFromNamed(A: Nfa, B: Nfa, names: seq<Pair>, r: State, a: Symbol, s: State)
    requires PairMove(A, B, names, r, a, s)
    ensures r < |names|
  {
  }

  /** `lang_difference`; with `stop` it may return early, but only if the difference is not empty. */
  method LangDifference(A: Nfa, B: Nfa, stop: bool) returns (D: Nfa, ghost names: seq<Pair>)
    requires A.Valid() && B.Valid()
    ensures D.Valid() && IsPartOfDifference(A, B, D, names)
    ensures forall w: Word :: Accepts(D, w) ==> InDifference(A, B, w)
    ensures IsDifference(A, B, D, names) || (stop && exists w: Word :: Accepts(D, w))
    ensures !stop ==> forall w: Word :: Accepts(D, w) <==> InDifference(A, B, w)
  {
    hide *;
    var x := (A.initial, B.initial);
    var delta := new Delta(0);
    var numbers, count := map[x := 0], 1;
    var final := if IsFinalPair(A, B, x) then {0} else {};
    var work, stopped := [(x, 0)], false;
    ghost var open: set<State> := {0};
    names := [x];
    FirstPair(A, B, delta.statePosts);
    ghost var last: State, done: seq<Symbol> := 0, [];
    if stop && final != {} {
      stopped := true;
      StartPairs(A, B, names, numbers, delta.statePosts, final, open, 0);
      open := open - {0};
    }
    while !stopped && work != []
      invariant delta.Valid() && fresh(delta) && |delta.statePosts| <= count == |names| && Linked(delta.statePosts, |names|)
      invariant stopped ==> AddingPairs(A, B, names, numbers, delta.statePosts, final, open, last, done) && final != {} && stop
      invariant !stopped ==> BetweenPairs(A, B, names, numbers, delta.statePosts, final, open) && PairWork(work, names, open) && (stop ==> final == {})
      decreases !stopped, UnnamedPairs(A, B, names), |work|
    {
      var (y, r) := work[|work| - 1];
      PopPair(work, names, open);
      work := work[..|work| - 1];
      StartPairs(A, B, names, numbers, delta.statePosts, final, open, r);
      last := r;
      names, numbers, count, final, work, open, stopped, done := AddPairSuccessors(A, B, stop, delta, r, y, names, numbers, count, final, work, open - {r});
    }
    D := Nfa(count, delta.statePosts, {0}, final);
    assert SortedDelta(D.delta) by { ValidIsSorted(delta); }
    if stopped {
      StoppedPart(A, B, D, names, numbers, open, last, done);
      ghost var r :| r in final;
      ghost var w := FinalAccepts(A, B, D, names, r);
    } else {
      assert open == {} by { NoPairsOpen(work, names, open); }
      CompleteDifference(A, B, D, names, numbers);
      CompleteIsPart(A, B, D, names);
      forall w: Word ensures Accepts(D, w) <==> InDifference(A, B, w) { DifferenceLanguage(A, B, D, names, w); }
    }
    forall w: Word ensures Accepts(D, w) ==> InDifference(A, B, w) { PartLanguage(A, B, D, names, w); }
  }

  lemma NoPairsOpen(work: seq<(Pair, State)>, names: seq<Pair>, open: set<State>)
    requires work == [] && PairWork(work, names, open)
    ensures open == {}
  {
  }

  lemma CompleteIsPart(A: Nfa, B: Nfa, D: Nfa, names: seq<Pair>)
    requires IsDifference(A, B, D, names)
    ensures IsPartOfDifference(A, B, D, names)
  {
  }

  /** `get_word_from_lang_difference`: what is left, without epsilons, of a word of the one automaton that
      the other rejects, or none just if there is no such word. */
  method GetWordFromLangDifference(A: Nfa, B: Nfa) returns (r: Option<Word>)
    requires A.Valid() && B.Valid()
    ensures r.Some? ==> exists w: Word :: InDifference(A, B, w) && r.value == Visible(w, EPSILON)
    ensures r.None? <==> forall w: Word :: Accepts(A, w) ==> Accepts(B, w)
  {
    hide IsPartOfDifference, IsDifference, Accepts;
    ghost var names;
    var D;
    D, names := LangDifference(A, B, true);
    r := GetWord(D, Some(EPSILON));
    if r.None? {
      forall w: Word | Accepts(A, w) ensures Accepts(B, w) {
        DifferenceLanguage(A, B, D, names, w);
      }
    }
  }

  // ---------- Words without epsilons ----------

  /** Every answer that may be given is itself a word of the difference. */
  ghost predicate AnswersInDifference(symbols: set<Symbol>) {
    forall A: Nfa, B: Nfa, w: Word | A.Valid() && B.Valid() && StepsOver(A, symbols) && InDifference(A, B, w) ::
      InDifference(A, B, Visible(w, EPSILON))
  }

  /** The answers are words of the difference, whatever the automata over the given symbols, just if no
      epsilons are among them. */
  lemma AnswersNeedNoEpsilons(symbols: set<Symbol>)
    ensures AnswersInDifference(symbols) <==> forall a <- symbols :: a < EPSILON
  {
    hide StepsOver, InDifference, Visible, Nfa.Valid;
    if forall a <- symbols :: a < EPSILON {
      forall A: Nfa, B: Nfa, w: Word | A.Valid() && B.Valid() && StepsOver(A, symbols) && InDifference(A, B, w)
        ensures InDifference(A, B, Visible(w, EPSILON))
      {
        AllVisible(A, B, symbols, w);
      }
    } else {
      var e :| e in symbols && e >= EPSILON;
      OnlyEpsilon(e);
      OnlyEpsilonOver(e, symbols);
      assert InDifference(OneStep(e), NoStates(), [e]);
    }
  }

  lemma AllVisible(A: Nfa, B: Nfa, symbols: set<Symbol>, w: Word)
    requires StepsOver(A, symbols) && (forall a <- symbols :: a < EPSILON) && InDifference(A, B, w)
    ensures Visible(w, EPSILON) == w
  {
    hide StepsOver, AcceptsFrom;
    var q :| q in A.initial && AcceptsFrom(A, q, w);
    OneKindVisible(A, symbols, EPSILON, q, w);
  }

  /** From 0 to 1 by `a` */
  function OneStep(a: Symbol): Nfa {
    Nfa(2, [[SymbolPost(a, [1])]], {0}, {1})
  }

  /** The automaton without states */
  function NoStates(): Nfa {
    Nfa(0, [], {}, {})
  }

  lemma OnlyStep(a: Symbol, q: State, b: Symbol, p: State)
    ensures Step(OneStep(a), q, b, p) <==> q == 0 && b == a && p == 1
  {
    assert OneStep(a).At(0)[0] == SymbolPost(a, [1]);
    assert q > 0 ==> OneStep(a).At(q) == [];
  }

  lemma OnlyEpsilonOver(e: Symbol, symbols: set<Symbol>)
    requires e in symbols
    ensures StepsOver(OneStep(e), symbols)
  {
    forall q: State, b, p: State | Step(OneStep(e), q, b, p) ensures b in symbols { OnlyStep(e, q, b, p); }
    hide Step;
  }

  /** With an epsilon alone the answer is the empty word, which is not in the difference. */
  lemma OnlyEpsilon(e: Symbol)
    requires e >= EPSILON
    ensures OneStep(e).Valid() && NoStates().Valid()
    ensures forall w: Word :: InDifference(OneStep(e), NoStates(), w) <==> w == [e]
    ensures Visible([e], EPSILON) == [] && !InDifference(OneStep(e), NoStates(), Visible([e], EPSILON))
  {
    hide Step;
    forall w: Word ensures AcceptsFrom(OneStep(e), 0, w) <==> w == [e] {
      OnlyStep(e, 0, e, 1);
      if w == [e] { StepAccepts(OneStep(e), 0, w, 1); }
      if w != [] && AcceptsFrom(OneStep(e), 0, w) {
        var p := AcceptingStep(OneStep(e), 0, w);
        OnlyStep(e, 0, w[0], p);
        if w[1..] != [] {
          var r := AcceptingStep(OneStep(e), 1, w[1..]);
          OnlyStep(e, 1, w[1], r);
        }
      }
    }
  }
}
