/** The subset construction (determinize of src/nfa/operations.cc). */
module Determinization {
  import opened Automata
  import opened Counting
  import opened DeltaRelation
  import opened Macrostates
  import opened Distances

  // ---------- What the construction builds ----------

  /** State `s` stands for the macrostate reached from that of `r` over `a`. */
  ghost predicate SubsetMove(A: Nfa, names: seq<StateSet>, r: State, a: Symbol, s: State) {
    r < |names| && s < |names| && PostSet(A, names[r], a) != {} && names[s] == PostSet(A, names[r], a)
  }

  /** The macrostate `r` is reached from an earlier one. */
  ghost predicate HasParent(A: Nfa, names: seq<StateSet>, r: State) {
    exists p: State, a :: p < r && SubsetMove(A, names, p, a, r)
  }

  /** All successors of the macrostate `r` have numbers. */
  ghost predicate SuccessorsNamed(A: Nfa, names: seq<StateSet>, r: State)
    requires r < |names|
  {
    forall a :: PostSet(A, names[r], a) != {} ==> PostSet(A, names[r], a) in names
  }

  /** Macrostates are numbered without repetition from the initial one, each after one leading to it. */
  ghost predicate Named(A: Nfa, names: seq<StateSet>) {
    && names != [] && names[0] == A.initial && Distinct(names)
    && (forall r | 0 < r < |names| :: HasParent(A, names, r))
  }

  /** `D` is the subset automaton of `A` whose state `r` is the macrostate `names[r]`. */
  ghost predicate IsSubsetAutomaton(A: Nfa, D: Nfa, names: seq<StateSet>) {
    && Named(A, names) && D.size == |names| && D.initial == {0}
    && (forall r: State :: r in D.final <==> r < |names| && !(names[r] !! A.final))
    && (forall r: State | r < |names| :: SuccessorsNamed(A, names, r))
    && (forall r: State, a, s: State :: Step(D, r, a, s) <==> SubsetMove(A, names, r, a, s))
  }

  /** The subset automaton has no symbols of its own. */
  lemma SubsetSymbols(A: Nfa, D: Nfa, names: seq<StateSet>, a: Symbol)
    requires A.Valid() && IsSubsetAutomaton(A, D, names) && Occurs(D, a)
    ensures Occurs(A, a)
  {
    var r: State, s: State :| Step(D, r, a, s);
    assert SubsetMove(A, names, r, a, s);
    PostSetSteps(A, names[r], a);
    hide PostSet, Step;
    var p :| p in PostSet(A, names[r], a);
    var q :| q in names[r] && Step(A, q, a, p);
  }

  lemma SubsetMoveUnique(A: Nfa, names: seq<StateSet>, r: State, a: Symbol, s: State, t: State)
    requires Distinct(names) && SubsetMove(A, names, r, a, s) && SubsetMove(A, names, r, a, t)
    ensures s == t
  {
  }

  lemma SubsetDeterministic(A: Nfa, D: Nfa, names: seq<StateSet>)
    requires D.Valid() && IsSubsetAutomaton(A, D, names)
    ensures Deterministic(D)
  {
    hide SubsetMove, SuccessorsNamed, HasParent;
    forall q, i | 0 <= q < |D.delta| && 0 <= i < |D.delta[q]| ensures |D.delta[q][i].targets| == 1 {
      assert ValidPost(D.delta[q], D.size);
      var post := D.delta[q][i];
      assert post.targets != [];
      if |post.targets| > 1 {
        assert post.targets[0] < post.targets[1];
        assert Step(D, q, post.symbol, post.targets[0]) && Step(D, q, post.symbol, post.targets[1]);
        SubsetMoveUnique(A, names, q, post.symbol, post.targets[0], post.targets[1]);
      }
    }
  }

  lemma {:induction false} PostWordEmpty(A: Nfa, w: Word)
    ensures PostWord(A, {}, w) == {}
    decreases |w|
  {
    if w != [] {
      assert PostSet(A, {}, w[0]) == {};
      PostWordEmpty(A, w[1..]);
    }
  }

  /** A state of the subset automaton accepts what leads its macrostate to one with a final state. */
  lemma {:induction false} SubsetRightLanguage(A: Nfa, D: Nfa, names: seq<StateSet>, r: State, w: Word)
    requires IsSubsetAutomaton(A, D, names) && r < |names|
    ensures AcceptsFrom(D, r, w) <==> !(PostWord(A, names[r], w) !! A.final)
    decreases |w|
  {
    hide Step, PostSet, Named;
    if w != [] {
      var T := PostSet(A, names[r], w[0]);
      if AcceptsFrom(D, r, w) {
        var s :| Step(D, r, w[0], s) && AcceptsFrom(D, s, w[1..]);
        assert SubsetMove(A, names, r, w[0], s);
        SubsetRightLanguage(A, D, names, s, w[1..]);
      }
      if T == {} {
        PostWordEmpty(A, w[1..]);
      } else if !(PostWord(A, names[r], w) !! A.final) {
        assert SuccessorsNamed(A, names, r);
        var s :| 0 <= s < |names| && names[s] == T;
        assert SubsetMove(A, names, r, w[0], s);
        SubsetRightLanguage(A, D, names, s, w[1..]);
      }
    }
  }

  lemma SubsetLanguage(A: Nfa, D: Nfa, names: seq<StateSet>)
    requires A.Valid() && IsSubsetAutomaton(A, D, names)
    ensures SameLanguage(A, D)
  {
    forall w: Word ensures Accepts(A, w) <==> Accepts(D, w) {
      hide PostSet, Step, SuccessorsNamed, HasParent, AcceptsFrom;
      SubsetRightLanguage(A, D, names, 0, w);
      AcceptsByMacrostate(A, w);
      assert 0 in D.initial;
    }
  }

  /** All states of the subset automaton are reachable. */
  lemma {:induction false} SubsetReached(A: Nfa, D: Nfa, names: seq<StateSet>, r: State) returns (w: Word)
    requires IsSubsetAutomaton(A, D, names) && r < |names|
    ensures ReachedBy(D, w, r)
    decreases r
  {
    if r == 0 {
      w := [];
      ReachedByEmpty(D, 0);
    } else {
      assert HasParent(A, names, r);
      hide SubsetMove, SuccessorsNamed;
      var p: State, a :| p < r && SubsetMove(A, names, p, a, r);
      var u := SubsetReached(A, D, names, p);
      ReachedByStep(D, u, p, a, r);
      w := u + [a];
    }
  }

  // ---------- Symbols in order ----------

  ghost predicate SymbolsOf(A: Nfa, S: StateSet, symbols: seq<Symbol>) {
    StrictlySorted(symbols) && forall a: Symbol :: a in symbols <==> PostSet(A, S, a) != {}
  }

  ghost predicate InSomePost(A: Nfa, S: StateSet, a: Symbol) {
    exists q :: q in S && Targets(A.At(q), a) != []
  }

  lemma PostSetNonEmpty(A: Nfa, S: StateSet, a: Symbol)
    ensures PostSet(A, S, a) != {} <==> InSomePost(A, S, a)
  {
    if PostSet(A, S, a) != {} {
      var p :| p in PostSet(A, S, a);
    }
    if InSomePost(A, S, a) {
      var q: State :| q in S && Targets(A.At(q), a) != [];
      var p := Targets(A.At(q), a)[0];
      assert q in S && p in Targets(A.At(q), a);
      assert p in PostSet(A, S, a);
    }
  }

  /** The symbols of a post occur in it. */
  lemma {:induction false} TargetsPresent(post: StatePost, a: Symbol)
    requires forall i | 0 <= i < |post| :: post[i].targets != []
    ensures Targets(post, a) != [] <==> exists i :: 0 <= i < |post| && post[i].symbol == a
  {
    if post != [] {
      TargetsPresent(post[1..], a);
      if post[0].symbol != a {
        forall i | 0 <= i < |post| && post[i].symbol == a ensures 0 <= i - 1 < |post[1..]| && post[1..][i - 1].symbol == a {
        }
      }
    }
  }

  /** The symbols over which the synchronized existential iterator stops, in order. */
  method MergeSymbols(A: Nfa, S: StateSet) returns (symbols: seq<Symbol>)
    requires A.Valid()
    ensures SymbolsOf(A, S, symbols)
  {
    symbols := [];
    var todo := S;
    while todo != {}
      invariant todo <= S && StrictlySorted(symbols)
      invariant forall a: Symbol :: a in symbols <==> InSomePost(A, S - todo, a)
    {
      var q: State :| q in todo;
      ghost var before := symbols;
      symbols := AddSymbols(symbols, A.At(q));
      assert forall i | 0 <= i < |A.At(q)| :: A.At(q)[i].targets != [] by {
        assert q < |A.delta| ==> ValidPost(A.delta[q], A.size);
      }
      forall a: Symbol ensures a in symbols <==> InSomePost(A, S - (todo - {q}), a) {
        TargetsPresent(A.At(q), a);
        OneMorePost(A, S, todo, q, a);
      }
      todo := todo - {q};
    }
    assert S - todo == S;
    forall a: Symbol ensures a in symbols <==> PostSet(A, S, a) != {} { PostSetNonEmpty(A, S, a); }
  }

  lemma OneMorePost(A: Nfa, S: StateSet, todo: StateSet, q: State, a: Symbol)
    requires q in todo && todo <= S
    ensures InSomePost(A, S - (todo - {q}), a) <==> InSomePost(A, S - todo, a) || Targets(A.At(q), a) != []
  {
    assert S - (todo - {q}) == (S - todo) + {q};
  }

  method AddSymbols(symbols0: seq<Symbol>, post: StatePost) returns (symbols: seq<Symbol>)
    requires StrictlySorted(symbols0)
    ensures StrictlySorted(symbols)
    ensures forall a: Symbol :: a in symbols <==> a in symbols0 || exists i :: 0 <= i < |post| && post[i].symbol == a
  {
    symbols := symbols0;
    for k := 0 to |post|
      invariant StrictlySorted(symbols)
      invariant forall a: Symbol :: a in symbols <==> a in symbols0 || exists i :: 0 <= i < k && post[i].symbol == a
    {
      symbols := InsertTarget(symbols, post[k].symbol);
    }
  }

  // ---------- The construction ----------

  /** `subset_map` numbers the macrostates. */
  ghost predicate Numbers(subsets: map<StateSet, State>, names: seq<StateSet>) {
    && (forall S :: S in subsets <==> S in names)
    && (forall S <- subsets :: subsets[S] < |names| && names[subsets[S]] == S)
  }

  /** The transitions of `r` over `symbols` have been added, and no others. */
  ghost predicate BuiltOver(A: Nfa, names: seq<StateSet>, delta: seq<StatePost>, r: State, symbols: seq<Symbol>) {
    && r < |names|
    && (forall a, s: State :: HasTransition(delta, r, a, s) <==> a in symbols && SubsetMove(A, names, r, a, s))
    && (forall a <- symbols :: PostSet(A, names[r], a) != {} ==> PostSet(A, names[r], a) in names)
  }

  ghost predicate Built(A: Nfa, names: seq<StateSet>, delta: seq<StatePost>, r: State) {
    && r < |names| && SuccessorsNamed(A, names, r)
    && (forall a, s: State :: HasTransition(delta, r, a, s) <==> SubsetMove(A, names, r, a, s))
  }

  /** Everything but the macrostates in `open` and `r` has been built; those in `open` have no
      transitions yet. */
  ghost predicate OthersBuilt(A: Nfa, names: seq<StateSet>, delta: seq<StatePost>, open: set<State>, r: State) {
    && (forall q: State | q < |names| && q !in open && q != r :: Built(A, names, delta, q))
    && (forall q: State, a, s: State | q in open || q >= |names| :: !HasTransition(delta, q, a, s))
  }

  ghost predicate Finals(A: Nfa, names: seq<StateSet>, final: StateSet) {
    forall r: State :: r in final <==> r < |names| && !(names[r] !! A.final)
  }

  ghost predicate OnWorklist(work: seq<(State, StateSet)>, names: seq<StateSet>, open: set<State>) {
    && (forall r: State :: r in open <==> r < |names| && (r, names[r]) in work)
    && (forall x <- work :: x.0 in open && names[x.0] == x.1)
    && Distinct(work)
  }

  /** What holds while the successors of `r` over `done` have been added. */
  ghost predicate Constructing(A: Nfa, names: seq<StateSet>, subsets: map<StateSet, State>, delta: seq<StatePost>,
                               final: StateSet, open: set<State>, r: State, done: seq<Symbol>) {
    && Named(A, names) && Numbers(subsets, names) && Finals(A, names, final)
    && OthersBuilt(A, names, delta, open, r) && BuiltOver(A, names, delta, r, done)
    && r !in open && (forall q <- open :: q < |names|)
    && (forall S <- names :: S <= Below(A.size))
  }

  /** A new macrostate gets the next number. */
  lemma NewName(A: Nfa, names: seq<StateSet>, subsets: map<StateSet, State>, r: State, a: Symbol, T: StateSet)
    requires Named(A, names) && Numbers(subsets, names) && r < |names|
    requires T == PostSet(A, names[r], a) && T != {} && T !in subsets
    ensures Named(A, names + [T]) && Numbers(subsets[T := |names|], names + [T])
  {
    var names' := names + [T];
    DistinctSnoc(names, T);
    assert forall i | 0 <= i < |names| :: names'[i] == names[i];
    hide PostSet, Distinct;
    assert SubsetMove(A, names', r, a, |names|);
    forall q | 0 < q < |names'| ensures HasParent(A, names', q) {
      if q < |names| {
        assert HasParent(A, names, q);
        var p: State, b :| p < q && SubsetMove(A, names, p, b, q);
        assert SubsetMove(A, names', p, b, q);
      }
    }
  }

  /** Numbering another macrostate does not disturb what has been built. */
  lemma NewNameBuilt(A: Nfa, names: seq<StateSet>, delta: seq<StatePost>, q: State, T: StateSet)
    requires Built(A, names, delta, q) && T !in names
    ensures Built(A, names + [T], delta, q)
  {
    hide PostSet, HasTransition;
    var names' := names + [T];
    assert forall i | 0 <= i < |names| :: names'[i] == names[i];
    assert names'[|names|] == T;
  }

  lemma NewNameBuiltOver(A: Nfa, names: seq<StateSet>, delta: seq<StatePost>, r: State, symbols: seq<Symbol>, T: StateSet)
    requires BuiltOver(A, names, delta, r, symbols) && T !in names
    ensures BuiltOver(A, names + [T], delta, r, symbols)
  {
    hide PostSet, HasTransition;
    var names' := names + [T];
    assert forall i | 0 <= i < |names| :: names'[i] == names[i];
    assert names'[|names|] == T;
  }

  /** Adding the transition of `r` over one more symbol. */
  lemma AddedBuiltOver(A: Nfa, names: seq<StateSet>, delta: seq<StatePost>, delta': seq<StatePost>, r: State,
                       symbols: seq<Symbol>, a: Symbol, s: State)
    requires Distinct(names) && BuiltOver(A, names, delta, r, symbols) && SubsetMove(A, names, r, a, s)
    requires forall x, b, y :: HasTransition(delta', x, b, y) <==> HasTransition(delta, x, b, y) || (x == r && b == a && y == s)
    ensures BuiltOver(A, names, delta', r, symbols + [a])
  {
    hide HasTransition, PostSet;
    forall y: State | SubsetMove(A, names, r, a, y) ensures y == s {
      SubsetMoveUnique(A, names, r, a, y, s);
    }
    hide Distinct;
  }

  lemma NewNameOthers(A: Nfa, names: seq<StateSet>, delta: seq<StatePost>, open: set<State>, r: State, T: StateSet)
    requires OthersBuilt(A, names, delta, open, r) && T !in names && r < |names|
    ensures OthersBuilt(A, names + [T], delta, open + {|names|}, r)
  {
    forall q: State | q < |names| && q !in open && q != r ensures Built(A, names + [T], delta, q) {
      NewNameBuilt(A, names, delta, q, T);
    }
    hide Built, HasTransition;
  }

  lemma NewNameFinals(A: Nfa, names: seq<StateSet>, final: StateSet, T: StateSet)
    requires Finals(A, names, final)
    ensures Finals(A, names + [T], if T !! A.final then final else final + {|names|})
  {
    assert forall i | 0 <= i < |names| :: (names + [T])[i] == names[i];
  }

  lemma PostSetBelow(A: Nfa, S: StateSet, a: Symbol)
    requires A.Valid()
    ensures PostSet(A, S, a) <= Below(A.size)
  {
    PostSetSteps(A, S, a);
  }

  lemma NewMove(A: Nfa, names: seq<StateSet>, r: State, a: Symbol, T: StateSet)
    requires r < |names| && T == PostSet(A, names[r], a) && T != {}
    ensures SubsetMove(A, names + [T], r, a, |names|)
  {
  }

  lemma ConstructNew(A: Nfa, names: seq<StateSet>, subsets: map<StateSet, State>, delta: seq<StatePost>, final: StateSet,
                     open: set<State>, r: State, done: seq<Symbol>, a: Symbol, T: StateSet)
    requires A.Valid() && Constructing(A, names, subsets, delta, final, open, r, done)
    requires r < |names| && T == PostSet(A, names[r], a) && T != {} && T !in subsets
    ensures Constructing(A, names + [T], subsets[T := |names|], delta, if T !! A.final then final else final + {|names|},
                         open + {|names|}, r, done)
    ensures SubsetMove(A, names + [T], r, a, |names|) && T !in names && T <= Below(A.size)
  {
    hide PostSet, BuiltOver, OthersBuilt, Named, Finals, Nfa.Valid, Step, HasTransition, SubsetMove, SuccessorsNamed;
    PostSetBelow(A, names[r], a);
    assert SubsetMove(A, names + [T], r, a, |names|) by { NewMove(A, names, r, a, T); }
    NewName(A, names, subsets, r, a, T);
    NewNameOthers(A, names, delta, open, r, T);
    NewNameBuiltOver(A, names, delta, r, done, T);
    NewNameFinals(A, names, final, T);
  }

  lemma BuiltOverRange(A: Nfa, names: seq<StateSet>, delta: seq<StatePost>, r: State, done: seq<Symbol>)
    requires BuiltOver(A, names, delta, r, done)
    ensures r < |names|
  {
  }

  lemma AddedOthers(A: Nfa, names: seq<StateSet>, delta: seq<StatePost>, delta': seq<StatePost>, open: set<State>, r: State, a: Symbol, s: State)
    requires OthersBuilt(A, names, delta, open, r) && r !in open && r < |names|
    requires forall x, b, y :: HasTransition(delta', x, b, y) <==> HasTransition(delta, x, b, y) || (x == r && b == a && y == s)
    ensures OthersBuilt(A, names, delta', open, r)
  {
    hide HasTransition, SubsetMove, SuccessorsNamed;
  }

  lemma ConstructAdd(A: Nfa, names: seq<StateSet>, subsets: map<StateSet, State>, delta: seq<StatePost>, delta': seq<StatePost>,
                     final: StateSet, open: set<State>, r: State, done: seq<Symbol>, a: Symbol, s: State)
    requires Constructing(A, names, subsets, delta, final, open, r, done) && SubsetMove(A, names, r, a, s)
    requires forall x, b, y :: HasTransition(delta', x, b, y) <==> HasTransition(delta, x, b, y) || (x == r && b == a && y == s)
    ensures Constructing(A, names, subsets, delta', final, open, r, done + [a])
  {
    hide HasTransition, BuiltOver, OthersBuilt, Finals, SubsetMove, Numbers, HasParent, Distinct;
    assert r < |names| by { BuiltOverRange(A, names, delta, r, done); }
    AddedBuiltOver(A, names, delta, delta', r, done, a, s);
    AddedOthers(A, names, delta, delta', open, r, a, s);
  }

  /** What holds between two macrostates, those in `open` being on the worklist. */
  ghost predicate Between(A: Nfa, names: seq<StateSet>, subsets: map<StateSet, State>, delta: seq<StatePost>,
                          final: StateSet, open: set<State>) {
    && Named(A, names) && Numbers(subsets, names) && Finals(A, names, final)
    && (forall q: State | q < |names| && q !in open :: Built(A, names, delta, q))
    && (forall q: State, a, s: State | q in open || q >= |names| :: !HasTransition(delta, q, a, s))
    && (forall q <- open :: q < |names|) && (forall S <- names :: S <= Below(A.size))
  }

  lemma ConstructStart(A: Nfa, names: seq<StateSet>, subsets: map<StateSet, State>, delta: seq<StatePost>, final: StateSet,
                       open: set<State>, r: State)
    requires Between(A, names, subsets, delta, final, open) && r in open
    ensures Constructing(A, names, subsets, delta, final, open - {r}, r, [])
  {
    hide HasTransition, Named, Numbers, Finals, Built, PostSet;
  }

  lemma RBuilt(A: Nfa, names: seq<StateSet>, delta: seq<StatePost>, r: State, symbols: seq<Symbol>)
    requires BuiltOver(A, names, delta, r, symbols) && SymbolsOf(A, names[r], symbols)
    ensures Built(A, names, delta, r)
  {
    hide HasTransition, PostSet;
  }

  /** All successors of `r` have been added: `r` is built. */
  lemma ConstructDone(A: Nfa, names: seq<StateSet>, subsets: map<StateSet, State>, delta: seq<StatePost>, final: StateSet,
                      open: set<State>, r: State, symbols: seq<Symbol>)
    requires r < |names| && Constructing(A, names, subsets, delta, final, open, r, symbols) && SymbolsOf(A, names[r], symbols)
    ensures Between(A, names, subsets, delta, final, open)
  {
    hide HasTransition, Named, Numbers, Finals, Built, PostSet, BuiltOver, SymbolsOf;
    RBuilt(A, names, delta, r, symbols);
  }

  /** A target that is known already */
  lemma KnownTarget(A: Nfa, names: seq<StateSet>, subsets: map<StateSet, State>, delta: seq<StatePost>, final: StateSet,
                    open: set<State>, r: State, done: seq<Symbol>, symbols: seq<Symbol>, a: Symbol)
    requires Constructing(A, names, subsets, delta, final, open, r, done) && r < |names|
    requires SymbolsOf(A, names[r], symbols) && a in symbols
    ensures PostSet(A, names[r], a) != {}
    ensures var T := PostSet(A, names[r], a); T in subsets ==> SubsetMove(A, names, r, a, subsets[T])
  {
    hide HasTransition, Named, Finals, OthersBuilt, BuiltOver, PostSet;
  }

  /** The macrostates without a number */
  ghost function Unnamed(names: seq<StateSet>, n: nat): set<StateSet> {
    set S: StateSet | S <= Below(n) && S !in names
  }

  lemma NamingShrinksUnnamed(names: seq<StateSet>, n: nat, T: StateSet)
    requires T <= Below(n) && T !in names
    ensures Unnamed(names + [T], n) < Unnamed(names, n)
  {
    assert T in Unnamed(names, n) && T !in Unnamed(names + [T], n);
  }

  lemma WorklistPush(work: seq<(State, StateSet)>, names: seq<StateSet>, open: set<State>, T: StateSet)
    requires OnWorklist(work, names, open)
    ensures OnWorklist(work + [(|names|, T)], names + [T], open + {|names|})
  {
    var names' := names + [T];
    assert forall i | 0 <= i < |names| :: names'[i] == names[i];
    assert (|names|, T) !in work;
    DistinctSnoc(work, (|names|, T));
    hide Distinct;
  }

  lemma WorklistPop(work: seq<(State, StateSet)>, names: seq<StateSet>, open: set<State>)
    requires OnWorklist(work, names, open) && work != []
    ensures var (r, S) := work[|work| - 1];
            r in open && r < |names| && names[r] == S && OnWorklist(work[..|work| - 1], names, open - {r})
  {
    var n := |work| - 1;
    var x := work[n];
    assert work == work[..n] + [x];
    DistinctSnoc(work[..n], x);
    assert x in work;
    forall y | y in work[..n] ensures y.0 != x.0 {
      assert y in work;
    }
  }

  lemma MoveInRange(A: Nfa, names: seq<StateSet>, r: State, a: Symbol, s: State)
    requires SubsetMove(A, names, r, a, s)
    ensures s < |names|
  {
  }

  /** Add the successors of the macrostate `r`. */
  method AddSuccessors(A: Nfa, delta: Delta, r: State, ghost names0: seq<StateSet>, S: StateSet, subsets0: map<StateSet, State>, count0: nat,
                       final0: StateSet, work0: seq<(State, StateSet)>, ghost open0: set<State>)
    returns (ghost names: seq<StateSet>, subsets: map<StateSet, State>, count: nat, final: StateSet,
             work: seq<(State, StateSet)>, ghost open: set<State>)
    requires A.Valid() && delta.Valid() && |delta.statePosts| <= count0 == |names0| && r < |names0| && names0[r] == S
    requires Constructing(A, names0, subsets0, delta.statePosts, final0, open0, r, []) && OnWorklist(work0, names0, open0)
    modifies delta
    ensures delta.Valid() && |delta.statePosts| <= count == |names|
    ensures Between(A, names, subsets, delta.statePosts, final, open) && OnWorklist(work, names, open)
    ensures (names == names0 && work == work0) || Unnamed(names, A.size) < Unnamed(names0, A.size)
  {
    hide *;
    names, subsets, count, final, work, open := names0, subsets0, count0, final0, work0, open0;
    var symbols := MergeSymbols(A, S);
    assert symbols[..0] == [];
    for k := 0 to |symbols|
      invariant delta.Valid() && |delta.statePosts| <= count == |names| && r < |names| && names[r] == S
      invariant Constructing(A, names, subsets, delta.statePosts, final, open, r, symbols[..k])
      invariant OnWorklist(work, names, open)
      invariant (names == names0 && work == work0) || Unnamed(names, A.size) < Unnamed(names0, A.size)
    {
      var a := symbols[k];
      var T := PostSet(A, S, a);
      ghost var before, done := delta.statePosts, symbols[..k];
      KnownTarget(A, names, subsets, before, final, open, r, done, symbols, a);
      var target: State;
      if T in subsets {
        target := subsets[T];
      } else {
        target := count;
        ConstructNew(A, names, subsets, before, final, open, r, done, a, T);
        WorklistPush(work, names, open, T);
        NamingShrinksUnnamed(names, A.size, T);
        subsets, count := subsets[T := target], count + 1;
        final := if T !! A.final then final else final + {target};
        work := work + [(target, T)];
        names, open := names + [T], open + {target};
      }
      assert target < count by { MoveInRange(A, names, r, a, target); }
      delta.Add(r, a, target);
      ConstructAdd(A, names, subsets, before, delta.statePosts, final, open, r, done, a, target);
      assert symbols[..k + 1] == done + [a];
    }
    assert symbols[..|symbols|] == symbols;
    ConstructDone(A, names, subsets, delta.statePosts, final, open, r, symbols);
  }

  lemma ConstructFirst(A: Nfa, delta: seq<StatePost>)
    requires A.Valid() && delta == []
    ensures Between(A, [A.initial], map[A.initial := 0], delta, if A.initial !! A.final then {} else {0}, {0})
    ensures OnWorklist([(0, A.initial)], [A.initial], {0})
  {
  }

  lemma LaterNonEmpty(A: Nfa, names: seq<StateSet>, r: State)
    requires Named(A, names) && 0 < r < |names|
    ensures names[r] != {}
  {
    assert HasParent(A, names, r);
  }

  lemma FirstNonEmpty(A: Nfa, names: seq<StateSet>)
    requires Named(A, names) && |names| > 1
    ensures names[0] != {}
  {
    assert HasParent(A, names, 1);
    var p: State, a :| p < 1 && SubsetMove(A, names, p, a, 1);
    var q :| q in PostSet(A, names[p], a);
  }

  /** An empty macrostate, which can only be the initial one, ends the construction. */
  lemma EmptyMacrostate(A: Nfa, names: seq<StateSet>, subsets: map<StateSet, State>, delta: seq<StatePost>, final: StateSet,
                        open: set<State>, r: State)
    requires Between(A, names, subsets, delta, final, open) && r in open && names[r] == {}
    ensures |names| == 1 && open == {0} && Between(A, names, subsets, delta, final, {})
  {
    hide HasTransition, Finals, Numbers;
    if r > 0 { LaterNonEmpty(A, names, r); }
    if |names| > 1 { FirstNonEmpty(A, names); }
    assert forall a :: PostSet(A, {}, a) == {};
    assert Built(A, names, delta, 0);
  }

  lemma ConstructedIsSubset(A: Nfa, D: Nfa, names: seq<StateSet>, subsets: map<StateSet, State>)
    requires A.Valid() && Between(A, names, subsets, D.delta, D.final, {}) && SortedDelta(D.delta) && |D.delta| <= |names|
    requires D.size == |names| && D.initial == {0}
    ensures D.Valid() && IsSubsetAutomaton(A, D, names)
  {
    hide Named, Numbers, SuccessorsNamed;
    forall r: State, a, s: State ensures Step(D, r, a, s) <==> SubsetMove(A, names, r, a, s) {
      assert Step(D, r, a, s) <==> HasTransition(D.delta, r, a, s);
      assert r < |names| ==> Built(A, names, D.delta, r);
    }
    forall r: State | r < |names| ensures SuccessorsNamed(A, names, r) {
      assert Built(A, names, D.delta, r);
    }
    assert names != [] by { NamedNonEmpty(A, names); }
    hide Built;
    SortedPostIsValid(D.delta, D.size);
  }

  lemma NamedNonEmpty(A: Nfa, names: seq<StateSet>)
    requires Named(A, names)
    ensures names != []
  {
  }

  /** `determinize` */
  method Determinize(A: Nfa) returns (D: Nfa, ghost names: seq<StateSet>)
    requires A.Valid()
    ensures D.Valid() && IsSubsetAutomaton(A, D, names)
    ensures Deterministic(D) && SameLanguage(A, D)
  {
    hide *;
    var delta := new Delta(0);
    var subsets, count := map[A.initial := 0], 1;
    var final := if A.initial !! A.final then {} else {0};
    var work := [(0, A.initial)];
    ghost var open: set<State> := {0};
    names := [A.initial];
    ConstructFirst(A, delta.statePosts);
    while work != []
      invariant delta.Valid() && fresh(delta) && |delta.statePosts| <= count == |names|
      invariant Between(A, names, subsets, delta.statePosts, final, open) && OnWorklist(work, names, open)
      decreases Unnamed(names, A.size), |work|
    {
      var (r, S) := work[|work| - 1];
      WorklistPop(work, names, open);
      work := work[..|work| - 1];
      if S == {} {
        EmptyMacrostate(A, names, subsets, delta.statePosts, final, open, r);
        WorkIsOpen(work, names, open - {r});
        assert open - {r} == {};
        open := {};
        break;
      }
      ConstructStart(A, names, subsets, delta.statePosts, final, open, r);
      names, subsets, count, final, work, open := AddSuccessors(A, delta, r, names, S, subsets, count, final, work, open - {r});
    }
    D := Nfa(count, delta.statePosts, {0}, final);
    assert open == {} by { NothingOpen(work, names, open); }
    assert SortedDelta(D.delta) by { ValidIsSorted(delta); }
    ConstructedIsSubset(A, D, names, subsets);
    SubsetDeterministic(A, D, names);
    SubsetLanguage(A, D, names);
  }

  lemma WorkIsOpen(work: seq<(State, StateSet)>, names: seq<StateSet>, open: set<State>)
    requires OnWorklist(work, names, open)
    ensures work != [] ==> open != {}
  {
    if work != [] { assert work[0] in work; }
  }

  lemma NothingOpen(work: seq<(State, StateSet)>, names: seq<StateSet>, open: set<State>)
    requires work == [] && OnWorklist(work, names, open)
    ensures open == {}
  {
  }
}
