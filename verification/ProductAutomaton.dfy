/** The product with interleaved epsilons (algorithms::product of src/nfa/product.cc). */
module ProductAutomaton {
  import opened Automata
  import opened Counting
  import opened DeltaRelation
  import opened Macrostates
  import opened Distances
  import opened Languages

  type Pair = (State, State)

  /** Symbols below `firstEpsilon` are read by both; from `firstEpsilon` on one operand moves alone. */
  ghost predicate PairStep(A: Nfa, B: Nfa, firstEpsilon: Symbol, x: Pair, a: Symbol, y: Pair) {
    if a < firstEpsilon then Step(A, x.0, a, y.0) && Step(B, x.1, a, y.1)
    else (Step(A, x.0, a, y.0) && y.1 == x.1) || (Step(B, x.1, a, y.1) && y.0 == x.0)
  }

  ghost predicate IsInitialPair(A: Nfa, B: Nfa, x: Pair) {
    x.0 in A.initial && x.1 in B.initial
  }

  /** Product states are numbered without repetition; each is initial or follows an earlier one. */
  ghost predicate Numbered(A: Nfa, B: Nfa, firstEpsilon: Symbol, names: seq<Pair>) {
    && Distinct(names)
    && (forall x: Pair | IsInitialPair(A, B, x) :: x in names)
    && (forall r: State | r < |names| :: IsInitialPair(A, B, names[r]) || HasParent(A, B, firstEpsilon, names, r))
  }

  ghost predicate HasParent(A: Nfa, B: Nfa, firstEpsilon: Symbol, names: seq<Pair>, r: State) {
    r < |names| && exists p: State, a :: p < r && PairStep(A, B, firstEpsilon, names[p], a, names[r])
  }

  ghost predicate NumberedStep(A: Nfa, B: Nfa, firstEpsilon: Symbol, names: seq<Pair>, r: State, a: Symbol, s: State) {
    r < |names| && s < |names| && PairStep(A, B, firstEpsilon, names[r], a, names[s])
  }

  ghost predicate SuccessorsNumbered(A: Nfa, B: Nfa, firstEpsilon: Symbol, names: seq<Pair>, x: Pair) {
    forall a: Symbol, y: Pair | PairStep(A, B, firstEpsilon, x, a, y) :: y in names
  }

  /** `P` is the product whose state `r` is the pair `names[r]`: exactly the reachable pairs. */
  ghost predicate IsProduct(A: Nfa, B: Nfa, firstEpsilon: Symbol, finalCondition: (State, State) -> bool, P: Nfa, names: seq<Pair>) {
    && Numbered(A, B, firstEpsilon, names) && P.size == |names|
    && (forall r: State :: r in P.initial <==> r < |names| && IsInitialPair(A, B, names[r]))
    && (forall r: State :: r in P.final <==> r < |names| && finalCondition(names[r].0, names[r].1))
    && (forall r: State | r < |names| :: SuccessorsNumbered(A, B, firstEpsilon, names, names[r]))
    && (forall r: State, a, s: State :: Step(P, r, a, s) <==> NumberedStep(A, B, firstEpsilon, names, r, a, s))
  }

  // ---------- Language ----------

  lemma ConsAccepts(A: Nfa, q: State, a: Symbol, p: State, v: Word)
    requires Step(A, q, a, p) && AcceptsFrom(A, p, v)
    ensures AcceptsFrom(A, q, [a] + v) && ([a] + v)[1..] == v && ([a] + v)[0] == a
  {
    assert ([a] + v)[1..] == v;
  }

  ghost predicate IsAnd(A: Nfa, B: Nfa, finalCondition: (State, State) -> bool) {
    forall p: State, q: State :: finalCondition(p, q) <==> p in A.final && q in B.final
  }

  /** A word accepted from a product state splits into words accepted from its components. */
  lemma {:induction false} ProductSplits(A: Nfa, B: Nfa, firstEpsilon: Symbol, cond: (State, State) -> bool, P: Nfa, names: seq<Pair>, r: State, w: Word)
    returns (u: Word, v: Word)
    requires IsProduct(A, B, firstEpsilon, cond, P, names) && IsAnd(A, B, cond) && r < |names| && AcceptsFrom(P, r, w)
    ensures AcceptsFrom(A, names[r].0, u) && AcceptsFrom(B, names[r].1, v)
    ensures Visible(u, firstEpsilon) == Visible(w, firstEpsilon) == Visible(v, firstEpsilon)
    decreases |w|
  {
    if w == [] {
      u, v := [], [];
    } else {
      var s := AcceptingStep(P, r, w);
      assert NumberedStep(A, B, firstEpsilon, names, r, w[0], s);
      hide Step, Numbered, SuccessorsNumbered, IsAnd;
      u, v := ProductSplits(A, B, firstEpsilon, cond, P, names, s, w[1..]);
      VisibleFirst(w, firstEpsilon);
      u, v := PrependStep(A, B, firstEpsilon, names[r], w[0], names[s], u, v);
    }
  }

  lemma PrependStep(A: Nfa, B: Nfa, firstEpsilon: Symbol, x: Pair, a: Symbol, y: Pair, u0: Word, v0: Word) returns (u: Word, v: Word)
    requires PairStep(A, B, firstEpsilon, x, a, y) && AcceptsFrom(A, y.0, u0) && AcceptsFrom(B, y.1, v0)
    requires Visible(u0, firstEpsilon) == Visible(v0, firstEpsilon)
    ensures AcceptsFrom(A, x.0, u) && AcceptsFrom(B, x.1, v)
    ensures Visible(u, firstEpsilon) == Visible(v, firstEpsilon) == (if a < firstEpsilon then [a] else []) + Visible(u0, firstEpsilon)
  {
    hide Step;
    u, v := u0, v0;
    if Step(A, x.0, a, y.0) && (a < firstEpsilon || y.1 == x.1) {
      ConsAccepts(A, x.0, a, y.0, u0);
      u := [a] + u0;
    }
    if a < firstEpsilon || u == u0 {
      ConsAccepts(B, x.1, a, y.1, v0);
      v := [a] + v0;
    }
  }

  /** A move of one component over an epsilon, or of both over a symbol, is a move of the product. */
  lemma FollowPair(A: Nfa, B: Nfa, firstEpsilon: Symbol, cond: (State, State) -> bool, P: Nfa, names: seq<Pair>, r: State, a: Symbol, y: Pair) returns (s: State)
    requires IsProduct(A, B, firstEpsilon, cond, P, names) && r < |names| && PairStep(A, B, firstEpsilon, names[r], a, y)
    ensures s < |names| && names[s] == y && Step(P, r, a, s)
  {
    hide Step, PairStep;
    assert SuccessorsNumbered(A, B, firstEpsilon, names, names[r]);
    assert y in names;
    s :| 0 <= s < |names| && names[s] == y;
    assert NumberedStep(A, B, firstEpsilon, names, r, a, s);
  }

  /** Words accepted from the components that agree when epsilons are erased are interleaved. */
  lemma {:induction false} ProductInterleaves(A: Nfa, B: Nfa, firstEpsilon: Symbol, cond: (State, State) -> bool, P: Nfa, names: seq<Pair>, r: State, u: Word, v: Word)
    returns (w: Word)
    requires IsProduct(A, B, firstEpsilon, cond, P, names) && IsAnd(A, B, cond) && r < |names|
    requires AcceptsFrom(A, names[r].0, u) && AcceptsFrom(B, names[r].1, v) && Visible(u, firstEpsilon) == Visible(v, firstEpsilon)
    ensures AcceptsFrom(P, r, w) && Visible(w, firstEpsilon) == Visible(u, firstEpsilon)
    decreases |u| + |v|
  {
    w := [];
    if u != [] { VisibleFirst(u, firstEpsilon); }
    if v != [] { VisibleFirst(v, firstEpsilon); }
    if u != [] && u[0] >= firstEpsilon {
      hide Step, IsProduct, IsAnd;
      var p := AcceptingStep(A, names[r].0, u);
      var s := FollowPair(A, B, firstEpsilon, cond, P, names, r, u[0], (p, names[r].1));
      w := ProductInterleaves(A, B, firstEpsilon, cond, P, names, s, u[1..], v);
      ConsAccepts(P, r, u[0], s, w);
      w := [u[0]] + w;
    } else if v != [] && v[0] >= firstEpsilon {
      hide Step, IsProduct, IsAnd;
      var q := AcceptingStep(B, names[r].1, v);
      var s := FollowPair(A, B, firstEpsilon, cond, P, names, r, v[0], (names[r].0, q));
      w := ProductInterleaves(A, B, firstEpsilon, cond, P, names, s, u, v[1..]);
      ConsAccepts(P, r, v[0], s, w);
      w := [v[0]] + w;
    } else if u != [] {
      hide Step, IsProduct, IsAnd;
      var p := AcceptingStep(A, names[r].0, u);
      var q := AcceptingStep(B, names[r].1, v);
      var s := FollowPair(A, B, firstEpsilon, cond, P, names, r, u[0], (p, q));
      w := ProductInterleaves(A, B, firstEpsilon, cond, P, names, s, u[1..], v[1..]);
      ConsAccepts(P, r, u[0], s, w);
      w := [u[0]] + w;
    }
  }

  /** `w` is what is left of an accepted word when its epsilons are erased. */
  ghost predicate AcceptsVisible(A: Nfa, firstEpsilon: Symbol, w: Word) {
    exists u: Word :: Accepts(A, u) && Visible(u, firstEpsilon) == w
  }

  /** Up to epsilons the product accepts the intersection. */
  lemma ProductLanguage(A: Nfa, B: Nfa, firstEpsilon: Symbol, cond: (State, State) -> bool, P: Nfa, names: seq<Pair>, w: Word)
    requires IsProduct(A, B, firstEpsilon, cond, P, names) && IsAnd(A, B, cond)
    ensures AcceptsVisible(P, firstEpsilon, w) <==> AcceptsVisible(A, firstEpsilon, w) && AcceptsVisible(B, firstEpsilon, w)
  {
    hide Step, AcceptsFrom, Visible, SuccessorsNumbered;
    if AcceptsVisible(P, firstEpsilon, w) {
      var x: Word :| Accepts(P, x) && Visible(x, firstEpsilon) == w;
      var r: State :| r in P.initial && AcceptsFrom(P, r, x);
      var u, v := ProductSplits(A, B, firstEpsilon, cond, P, names, r, x);
      assert Accepts(A, u) && Accepts(B, v);
    }
    if AcceptsVisible(A, firstEpsilon, w) && AcceptsVisible(B, firstEpsilon, w) {
      var u: Word :| Accepts(A, u) && Visible(u, firstEpsilon) == w;
      var v: Word :| Accepts(B, v) && Visible(v, firstEpsilon) == w;
      var p: State :| p in A.initial && AcceptsFrom(A, p, u);
      var q: State :| q in B.initial && AcceptsFrom(B, q, v);
      assert IsInitialPair(A, B, (p, q));
      var r :| 0 <= r < |names| && names[r] == (p, q);
      var x := ProductInterleaves(A, B, firstEpsilon, cond, P, names, r, u, v);
      assert Accepts(P, x);
    }
  }

  /** Every product state is reachable. */
  lemma {:induction false} ProductReached(A: Nfa, B: Nfa, firstEpsilon: Symbol, cond: (State, State) -> bool, P: Nfa, names: seq<Pair>, r: State) returns (w: Word)
    requires IsProduct(A, B, firstEpsilon, cond, P, names) && r < |names|
    ensures ReachedBy(P, w, r)
    decreases r
  {
    hide Step, PairStep, SuccessorsNumbered;
    if IsInitialPair(A, B, names[r]) {
      w := [];
      ReachedByEmpty(P, r);
    } else {
      assert HasParent(A, B, firstEpsilon, names, r);
      var p: State, a :| p < r && PairStep(A, B, firstEpsilon, names[p], a, names[r]);
      assert NumberedStep(A, B, firstEpsilon, names, p, a, r);
      var u := ProductReached(A, B, firstEpsilon, cond, P, names, p);
      ReachedByStep(P, u, p, a, r);
      w := u + [a];
    }
  }

  // ---------- The construction ----------

  type Successors = seq<(Symbol, Pair)>

  /** The successors of a pair over symbols that both components read, in the order of the loops. */
  method SynchronizedSuccessors(A: Nfa, B: Nfa, firstEpsilon: Symbol, x: Pair) returns (r: Successors)
    requires A.Valid() && B.Valid()
    ensures forall a: Symbol, y: Pair :: (a, y) in r <==> a < firstEpsilon && Step(A, x.0, a, y.0) && Step(B, x.1, a, y.1)
  {
    MovesFrom(A, x.0);
    r := [];
    var moves := Moves(A.At(x.0));
    hide Moves, Nfa.Valid;
    for i := 0 to |moves|
      invariant forall a: Symbol, y: Pair :: (a, y) in r <==> a < firstEpsilon && Move(a, y.0) in moves[..i] && Step(B, x.1, a, y.1)
    {
      var m := moves[i];
      assert moves[..i + 1] == moves[..i] + [m];
      if m.symbol < firstEpsilon {
        ghost var before := r;
        var targets := Targets(B.At(x.1), m.symbol);
        TargetsOf(B, x.1, m.symbol);
        for k := 0 to |targets|
          invariant forall a: Symbol, y: Pair :: (a, y) in r <==> (a, y) in before || (a == m.symbol && y.0 == m.target && y.1 in targets[..k])
        {
          assert targets[..k + 1] == targets[..k] + [targets[k]];
          r := r + [(m.symbol, (m.target, targets[k]))];
        }
        assert targets[..|targets|] == targets;
      }
    }
    assert moves[..|moves|] == moves;
    assert forall a, p: State :: Move(a, p) in moves <==> Step(A, x.0, a, p);
  }

  lemma TargetsOf(A: Nfa, q: State, a: Symbol)
    requires A.Valid()
    ensures forall p: State :: p in Targets(A.At(q), a) <==> Step(A, q, a, p)
  {
    assert q < |A.delta| ==> ValidPost(A.delta[q], A.size);
    forall p: State ensures p in Targets(A.At(q), a) <==> Step(A, q, a, p) { TargetsAreSteps(A.At(q), a, p); }
  }

  /** The moves of one component over epsilons */
  method EpsilonMoves(A: Nfa, firstEpsilon: Symbol, q: State) returns (r: seq<Move>)
    requires A.Valid()
    ensures forall m :: m in r <==> m.symbol >= firstEpsilon && Step(A, q, m.symbol, m.target)
  {
    MovesFrom(A, q);
    r := [];
    var moves := Moves(A.At(q));
    hide Moves, Step;
    for i := 0 to |moves|
      invariant forall m :: m in r <==> m.symbol >= firstEpsilon && m in moves[..i]
    {
      assert moves[..i + 1] == moves[..i] + [moves[i]];
      if moves[i].symbol >= firstEpsilon { r := r + [moves[i]]; }
    }
    assert moves[..|moves|] == moves;
  }

  /** All successors of a pair: synchronized ones, then the epsilons of the left and of the right. */
  method PairSuccessors(A: Nfa, B: Nfa, firstEpsilon: Symbol, x: Pair) returns (r: Successors)
    requires A.Valid() && B.Valid()
    ensures forall a: Symbol, y: Pair :: (a, y) in r <==> PairStep(A, B, firstEpsilon, x, a, y)
  {
    hide Step, Nfa.Valid;
    r := SynchronizedSuccessors(A, B, firstEpsilon, x);
    ghost var both := r;
    var left := EpsilonMoves(A, firstEpsilon, x.0);
    for i := 0 to |left|
      invariant forall a: Symbol, y: Pair :: (a, y) in r <==> (a, y) in both || (y.1 == x.1 && Move(a, y.0) in left[..i])
    {
      assert left[..i + 1] == left[..i] + [left[i]];
      r := r + [(left[i].symbol, (left[i].target, x.1))];
    }
    assert left[..|left|] == left;
    ghost var first := r;
    var right := EpsilonMoves(B, firstEpsilon, x.1);
    for i := 0 to |right|
      invariant forall a: Symbol, y: Pair :: (a, y) in r <==> (a, y) in first || (y.0 == x.0 && Move(a, y.1) in right[..i])
    {
      assert right[..i + 1] == right[..i] + [right[i]];
      r := r + [(right[i].symbol, (x.0, right[i].target))];
    }
    assert right[..|right|] == right;
  }

  /** `product_storage`: numbers of pairs, in both directions */
  ghost predicate Stores(storage: map<Pair, State>, names: seq<Pair>) {
    && (forall x :: x in storage <==> x in names)
    && (forall x <- storage :: storage[x] < |names| && names[storage[x]] == x)
  }

  /** The transitions of `r` for the successors in `done` have been added, and no others. */
  ghost predicate BuiltFor(names: seq<Pair>, delta: seq<StatePost>, r: State, done: Successors) {
    && r < |names|
    && (forall a: Symbol, s: State :: HasTransition(delta, r, a, s) <==> s < |names| && (a, names[s]) in done)
    && (forall x <- done :: x.1 in names)
  }

  ghost predicate Built(A: Nfa, B: Nfa, firstEpsilon: Symbol, names: seq<Pair>, delta: seq<StatePost>, r: State) {
    && r < |names| && SuccessorsNumbered(A, B, firstEpsilon, names, names[r])
    && (forall a, s: State :: HasTransition(delta, r, a, s) <==> NumberedStep(A, B, firstEpsilon, names, r, a, s))
  }

  /** States outside `open` are built; those in `open` have no transitions. */
  ghost predicate AllBuilt(A: Nfa, B: Nfa, firstEpsilon: Symbol, names: seq<Pair>, delta: seq<StatePost>, open: set<State>) {
    && (forall q: State | q < |names| && q !in open :: Built(A, B, firstEpsilon, names, delta, q))
    && (forall q: State, a, s: State | q in open || q >= |names| :: !HasTransition(delta, q, a, s))
  }

  ghost predicate OthersBuilt(A: Nfa, B: Nfa, firstEpsilon: Symbol, names: seq<Pair>, delta: seq<StatePost>, open: set<State>, r: State) {
    && (forall q: State | q < |names| && q !in open && q != r :: Built(A, B, firstEpsilon, names, delta, q))
    && (forall q: State, a, s: State | q in open || q >= |names| :: !HasTransition(delta, q, a, s))
  }

  ghost predicate PairsOfStates(A: Nfa, B: Nfa, names: seq<Pair>) {
    forall x <- names :: x.0 < A.size && x.1 < B.size
  }

  ghost predicate InWork(work: seq<State>, names: seq<Pair>, open: set<State>) {
    (forall r: State :: r in work <==> r in open) && (forall r <- open :: r < |names|) && Distinct(work)
  }

  ghost predicate FinalsFound(finalCondition: (State, State) -> bool, names: seq<Pair>, final: StateSet) {
    forall r: State :: r in final <==> r < |names| && finalCondition(names[r].0, names[r].1)
  }

  /** What holds between two product states. */
  ghost predicate Between(A: Nfa, B: Nfa, firstEpsilon: Symbol, finalCondition: (State, State) -> bool, names: seq<Pair>,
                          storage: map<Pair, State>, delta: seq<StatePost>, final: StateSet, open: set<State>) {
    && Numbered(A, B, firstEpsilon, names) && Stores(storage, names) && FinalsFound(finalCondition, names, final)
    && AllBuilt(A, B, firstEpsilon, names, delta, open) && PairsOfStates(A, B, names)
  }

  /** What holds while successors of `r` are added. */
  ghost predicate Adding(A: Nfa, B: Nfa, firstEpsilon: Symbol, finalCondition: (State, State) -> bool, names: seq<Pair>,
                         storage: map<Pair, State>, delta: seq<StatePost>, final: StateSet, open: set<State>, r: State, done: Successors) {
    && Numbered(A, B, firstEpsilon, names) && Stores(storage, names) && FinalsFound(finalCondition, names, final)
    && OthersBuilt(A, B, firstEpsilon, names, delta, open, r) && BuiltFor(names, delta, r, done)
    && r !in open && PairsOfStates(A, B, names)
  }

  lemma SnocNames(names: seq<Pair>, y: Pair)
    ensures |names + [y]| == |names| + 1 && (names + [y])[|names|] == y && forall i | 0 <= i < |names| :: (names + [y])[i] == names[i]
  {
  }

  /** A new pair gets the next number. */
  lemma NewNumber(A: Nfa, B: Nfa, firstEpsilon: Symbol, names: seq<Pair>, storage: map<Pair, State>, r: State, a: Symbol, y: Pair)
    requires Numbered(A, B, firstEpsilon, names) && Stores(storage, names) && r < |names|
    requires PairStep(A, B, firstEpsilon, names[r], a, y) && y !in storage
    ensures Numbered(A, B, firstEpsilon, names + [y]) && Stores(storage[y := |names|], names + [y])
  {
    var names' := names + [y];
    DistinctSnoc(names, y);
    SnocNames(names, y);
    hide PairStep, Distinct;
    forall q: State | q < |names'| ensures IsInitialPair(A, B, names'[q]) || HasParent(A, B, firstEpsilon, names', q) {
      if q < |names| {
        if HasParent(A, B, firstEpsilon, names, q) {
          var p: State, b :| p < q && PairStep(A, B, firstEpsilon, names[p], b, names[q]);
          assert PairStep(A, B, firstEpsilon, names'[p], b, names'[q]);
        }
      } else {
        assert PairStep(A, B, firstEpsilon, names'[r], a, names'[q]);
      }
    }
  }

  lemma NewNumberBuilt(A: Nfa, B: Nfa, firstEpsilon: Symbol, names: seq<Pair>, delta: seq<StatePost>, q: State, y: Pair)
    requires Built(A, B, firstEpsilon, names, delta, q) && y !in names
    ensures Built(A, B, firstEpsilon, names + [y], delta, q)
  {
    SnocNames(names, y);
    hide PairStep, HasTransition;
    assert forall x :: x in names ==> x in names + [y];
  }

  lemma NewNumberOthers(A: Nfa, B: Nfa, firstEpsilon: Symbol, names: seq<Pair>, delta: seq<StatePost>, open: set<State>, r: State, done: Successors, y: Pair)
    requires OthersBuilt(A, B, firstEpsilon, names, delta, open, r) && BuiltFor(names, delta, r, done) && y !in names
    ensures OthersBuilt(A, B, firstEpsilon, names + [y], delta, open + {|names|}, r) && BuiltFor(names + [y], delta, r, done)
  {
    SnocNames(names, y);
    forall q: State | q < |names| && q !in open && q != r ensures Built(A, B, firstEpsilon, names + [y], delta, q) {
      NewNumberBuilt(A, B, firstEpsilon, names, delta, q, y);
    }
    hide Built, HasTransition;
    assert forall x :: x in names ==> x in names + [y];
  }

  lemma NewNumberFinals(finalCondition: (State, State) -> bool, names: seq<Pair>, final: StateSet, y: Pair)
    requires FinalsFound(finalCondition, names, final)
    ensures FinalsFound(finalCondition, names + [y], if finalCondition(y.0, y.1) then final + {|names|} else final)
  {
    SnocNames(names, y);
  }

  /** Adding the transition of `r` for one more successor. */
  lemma AddedFor(A: Nfa, B: Nfa, firstEpsilon: Symbol, names: seq<Pair>, delta: seq<StatePost>, delta': seq<StatePost>, open: set<State>,
                 r: State, done: Successors, a: Symbol, s: State)
    requires Distinct(names) && BuiltFor(names, delta, r, done) && OthersBuilt(A, B, firstEpsilon, names, delta, open, r) && r !in open
    requires s < |names|
    requires forall x, b, y :: HasTransition(delta', x, b, y) <==> HasTransition(delta, x, b, y) || (x == r && b == a && y == s)
    ensures BuiltFor(names, delta', r, done + [(a, names[s])]) && OthersBuilt(A, B, firstEpsilon, names, delta', open, r)
  {
    hide HasTransition, NumberedStep, SuccessorsNumbered;
  }

  /** All successors of `r` have been added: `r` is built. */
  lemma AddedAll(A: Nfa, B: Nfa, firstEpsilon: Symbol, names: seq<Pair>, delta: seq<StatePost>, open: set<State>, r: State, done: Successors)
    requires BuiltFor(names, delta, r, done) && OthersBuilt(A, B, firstEpsilon, names, delta, open, r)
    requires forall a: Symbol, y: Pair :: (a, y) in done <==> PairStep(A, B, firstEpsilon, names[r], a, y)
    ensures AllBuilt(A, B, firstEpsilon, names, delta, open)
  {
    hide HasTransition, PairStep;
    assert SuccessorsNumbered(A, B, firstEpsilon, names, names[r]) by {
      forall a: Symbol, y: Pair | PairStep(A, B, firstEpsilon, names[r], a, y) ensures y in names {
        assert (a, y) in done;
      }
    }
    assert Built(A, B, firstEpsilon, names, delta, r);
    hide Built;
  }

  /** The pairs without a number */
  ghost function Unnumbered(A: Nfa, B: Nfa, names: seq<Pair>): set<Pair> {
    set p: State, q: State | p in Below(A.size) && q in Below(B.size) && (p, q) !in names :: (p, q)
  }

  lemma NumberingShrinks(A: Nfa, B: Nfa, names: seq<Pair>, y: Pair)
    requires y.0 < A.size && y.1 < B.size && y !in names
    ensures Unnumbered(A, B, names + [y]) < Unnumbered(A, B, names)
  {
    assert y == (y.0, y.1) && y in Unnumbered(A, B, names) && y !in Unnumbered(A, B, names + [y]);
  }

  lemma WorkPush(work: seq<State>, names: seq<Pair>, open: set<State>, y: Pair)
    requires InWork(work, names, open)
    ensures InWork(work + [|names|], names + [y], open + {|names|})
  {
    assert |names| !in work;
    DistinctSnoc(work, |names|);
    hide Distinct;
  }

  lemma WorkPop(work: seq<State>, names: seq<Pair>, open: set<State>)
    requires InWork(work, names, open) && work != []
    ensures var r := work[|work| - 1]; r in open && r < |names| && InWork(work[..|work| - 1], names, open - {r})
  {
    var n := |work| - 1;
    assert work == work[..n] + [work[n]];
    DistinctSnoc(work[..n], work[n]);
    assert work[n] in work;
    hide Distinct;
  }

  lemma StepPairStates(A: Nfa, B: Nfa, firstEpsilon: Symbol, x: Pair, a: Symbol, y: Pair)
    requires A.Valid() && B.Valid() && PairStep(A, B, firstEpsilon, x, a, y) && x.0 < A.size && x.1 < B.size
    ensures y.0 < A.size && y.1 < B.size
  {
    if Step(A, x.0, a, y.0) { StepIsState(A, x.0, a, y.0); }
    if Step(B, x.1, a, y.1) { StepIsState(B, x.1, a, y.1); }
  }

  lemma NotStored(storage: map<Pair, State>, names: seq<Pair>, y: Pair)
    requires Stores(storage, names) && y !in storage
    ensures y !in names
  {
  }

  lemma PairsKept(A: Nfa, B: Nfa, firstEpsilon: Symbol, names: seq<Pair>, r: State, a: Symbol, y: Pair)
    requires A.Valid() && B.Valid() && PairsOfStates(A, B, names) && r < |names| && PairStep(A, B, firstEpsilon, names[r], a, y)
    ensures PairsOfStates(A, B, names + [y]) && y.0 < A.size && y.1 < B.size
  {
    assert names[r] in names;
    StepPairStates(A, B, firstEpsilon, names[r], a, y);
  }

  /** The initial states of the product are the numbers of the pairs of initial states. */
  ghost predicate InitialIs(A: Nfa, B: Nfa, names: seq<Pair>, initial: StateSet) {
    forall r: State :: r in initial <==> r < |names| && IsInitialPair(A, B, names[r])
  }

  lemma NewIsNotInitial(A: Nfa, B: Nfa, firstEpsilon: Symbol, names: seq<Pair>, initial: StateSet, y: Pair)
    requires Numbered(A, B, firstEpsilon, names) && InitialIs(A, B, names, initial) && y !in names
    ensures InitialIs(A, B, names + [y], initial)
  {
    SnocNames(names, y);
    hide HasParent;
  }

  lemma AddingNumbered(A: Nfa, B: Nfa, firstEpsilon: Symbol, cond: (State, State) -> bool, names: seq<Pair>, storage: map<Pair, State>,
                       delta: seq<StatePost>, final: StateSet, open: set<State>, r: State, done: Successors)
    requires Adding(A, B, firstEpsilon, cond, names, storage, delta, final, open, r, done)
    ensures Numbered(A, B, firstEpsilon, names)
  {
  }

  /** The effect of creating the product state of `y`, a successor of `r`. */
  lemma CreateState(A: Nfa, B: Nfa, firstEpsilon: Symbol, cond: (State, State) -> bool, names: seq<Pair>, storage: map<Pair, State>,
                    delta: seq<StatePost>, final: StateSet, open: set<State>, r: State, done: Successors, a: Symbol, y: Pair)
    requires A.Valid() && B.Valid() && Adding(A, B, firstEpsilon, cond, names, storage, delta, final, open, r, done)
    requires r < |names| && PairStep(A, B, firstEpsilon, names[r], a, y) && y !in storage
    ensures Adding(A, B, firstEpsilon, cond, names + [y], storage[y := |names|], delta,
                   if cond(y.0, y.1) then final + {|names|} else final, open + {|names|}, r, done)
    ensures Unnumbered(A, B, names + [y]) < Unnumbered(A, B, names) && y.0 < A.size && y.1 < B.size && y !in names
  {
    hide PairStep, Numbered, Stores, FinalsFound, OthersBuilt, BuiltFor, Nfa.Valid, Unnumbered, PairsOfStates;
    NotStored(storage, names, y);
    PairsKept(A, B, firstEpsilon, names, r, a, y);
    NewNumber(A, B, firstEpsilon, names, storage, r, a, y);
    NewNumberOthers(A, B, firstEpsilon, names, delta, open, r, done, y);
    NewNumberFinals(cond, names, final, y);
    NumberingShrinks(A, B, names, y);
  }

  lemma AddTransition(A: Nfa, B: Nfa, firstEpsilon: Symbol, cond: (State, State) -> bool, names: seq<Pair>, storage: map<Pair, State>,
                      delta: seq<StatePost>, delta': seq<StatePost>, final: StateSet, open: set<State>, r: State, done: Successors, a: Symbol, y: Pair)
    requires Adding(A, B, firstEpsilon, cond, names, storage, delta, final, open, r, done) && y in storage
    requires forall x, b, z :: HasTransition(delta', x, b, z) <==> HasTransition(delta, x, b, z) || (x == r && b == a && z == storage[y])
    ensures Adding(A, B, firstEpsilon, cond, names, storage, delta', final, open, r, done + [(a, y)])
  {
    assert Distinct(names) && storage[y] < |names| && names[storage[y]] == y;
    hide Numbered, Stores, FinalsFound, OthersBuilt, BuiltFor, HasTransition, Distinct;
    AddedFor(A, B, firstEpsilon, names, delta, delta', open, r, done, a, storage[y]);
  }

  lemma StartAdding(A: Nfa, B: Nfa, firstEpsilon: Symbol, cond: (State, State) -> bool, names: seq<Pair>, storage: map<Pair, State>,
                    delta: seq<StatePost>, final: StateSet, open: set<State>, r: State)
    requires Between(A, B, firstEpsilon, cond, names, storage, delta, final, open) && r in open && r < |names|
    ensures Adding(A, B, firstEpsilon, cond, names, storage, delta, final, open - {r}, r, [])
  {
    hide Numbered, Stores, FinalsFound, Built, HasTransition;
  }

  lemma EndAdding(A: Nfa, B: Nfa, firstEpsilon: Symbol, cond: (State, State) -> bool, names: seq<Pair>, storage: map<Pair, State>,
                  delta: seq<StatePost>, final: StateSet, open: set<State>, r: State, done: Successors)
    requires Adding(A, B, firstEpsilon, cond, names, storage, delta, final, open, r, done) && r < |names|
    requires forall a: Symbol, y: Pair :: (a, y) in done <==> PairStep(A, B, firstEpsilon, names[r], a, y)
    ensures Between(A, B, firstEpsilon, cond, names, storage, delta, final, open)
  {
    hide Numbered, Stores, FinalsFound, OthersBuilt, BuiltFor, HasTransition, PairStep;
    AddedAll(A, B, firstEpsilon, names, delta, open, r, done);
  }

  /** Process one product state. */
  method AddSuccessors(A: Nfa, B: Nfa, firstEpsilon: Symbol, cond: (State, State) -> bool, delta: Delta, r: State, x: Pair,
                       storage0: map<Pair, State>, pairs0: seq<Pair>, final0: StateSet, work0: seq<State>, ghost open0: set<State>, ghost initial: StateSet)
    returns (storage: map<Pair, State>, pairs: seq<Pair>, final: StateSet, work: seq<State>, ghost open: set<State>)
    requires A.Valid() && B.Valid() && delta.Valid() && |delta.statePosts| <= |pairs0| && r < |pairs0| && pairs0[r] == x && InitialIs(A, B, pairs0, initial)
    requires Adding(A, B, firstEpsilon, cond, pairs0, storage0, delta.statePosts, final0, open0, r, []) && InWork(work0, pairs0, open0)
    modifies delta
    ensures delta.Valid() && |delta.statePosts| <= |pairs| && InitialIs(A, B, pairs, initial)
    ensures Between(A, B, firstEpsilon, cond, pairs, storage, delta.statePosts, final, open) && InWork(work, pairs, open)
    ensures (pairs == pairs0 && work == work0) || Unnumbered(A, B, pairs) < Unnumbered(A, B, pairs0)
  {
    hide *;
    storage, pairs, final, work, open := storage0, pairs0, final0, work0, open0;
    var successors := PairSuccessors(A, B, firstEpsilon, x);
    assert successors[..0] == [];
    for k := 0 to |successors|
      invariant delta.Valid() && |delta.statePosts| <= |pairs| && r < |pairs| && pairs[r] == x && InitialIs(A, B, pairs, initial)
      invariant Adding(A, B, firstEpsilon, cond, pairs, storage, delta.statePosts, final, open, r, successors[..k]) && InWork(work, pairs, open)
      invariant (pairs == pairs0 && work == work0) || Unnumbered(A, B, pairs) < Unnumbered(A, B, pairs0)
    {
      var (a, y) := successors[k];
      assert (a, y) in successors;
      ghost var before, done := delta.statePosts, successors[..k];
      if y !in storage {
        CreateState(A, B, firstEpsilon, cond, pairs, storage, before, final, open, r, done, a, y);
        WorkPush(work, pairs, open, y);
        AddingNumbered(A, B, firstEpsilon, cond, pairs, storage, before, final, open, r, done);
        NewIsNotInitial(A, B, firstEpsilon, pairs, initial, y);
        var target := |pairs|;
        storage := storage[y := target];
        work := work + [target];
        if cond(y.0, y.1) { final := final + {target}; }
        pairs, open := pairs + [y], open + {target};
      }
      assert storage[y] < |pairs| by { AddingStored(A, B, firstEpsilon, cond, pairs, storage, before, final, open, r, done, y); }
      delta.Add(r, a, storage[y]);
      AddTransition(A, B, firstEpsilon, cond, pairs, storage, before, delta.statePosts, final, open, r, done, a, y);
      assert successors[..k + 1] == done + [(a, y)];
    }
    assert successors[..|successors|] == successors;
    EndAdding(A, B, firstEpsilon, cond, pairs, storage, delta.statePosts, final, open, r, successors);
  }

  lemma AddingStored(A: Nfa, B: Nfa, firstEpsilon: Symbol, cond: (State, State) -> bool, names: seq<Pair>, storage: map<Pair, State>,
                     delta: seq<StatePost>, final: StateSet, open: set<State>, r: State, done: Successors, y: Pair)
    requires Adding(A, B, firstEpsilon, cond, names, storage, delta, final, open, r, done) && y in storage
    ensures storage[y] < |names|
  {
  }

  /** The initial product states: all pairs of initial states. */
  ghost predicate InitialFound(A: Nfa, B: Nfa, names: seq<Pair>, initial: StateSet, todo: set<Pair>) {
    && (forall x <- names :: IsInitialPair(A, B, x) && x !in todo)
    && (forall x: Pair | IsInitialPair(A, B, x) :: x in names || x in todo)
    && (forall r: State :: r in initial <==> r < |names|)
  }

  method AddInitial(A: Nfa, B: Nfa, cond: (State, State) -> bool, ghost firstEpsilon: Symbol)
    returns (storage: map<Pair, State>, pairs: seq<Pair>, initial: StateSet, final: StateSet, work: seq<State>)
    requires A.Valid() && B.Valid()
    ensures Between(A, B, firstEpsilon, cond, pairs, storage, [], final, initial) && InWork(work, pairs, initial)
    ensures InitialFound(A, B, pairs, initial, {})
  {
    storage, pairs, initial, final, work := map[], [], {}, {}, [];
    var todo := set p: State, q: State | p in A.initial && q in B.initial :: (p, q);
    while todo != {}
      invariant forall x <- todo :: IsInitialPair(A, B, x)
      invariant InitialFound(A, B, pairs, initial, todo)
      invariant Distinct(pairs) && Stores(storage, pairs) && FinalsFound(cond, pairs, final) && InWork(work, pairs, initial)
    {
      var y :| y in todo;
      DistinctSnoc(pairs, y);
      SnocNames(pairs, y);
      NewNumberFinals(cond, pairs, final, y);
      WorkPush(work, pairs, initial, y);
      assert y !in pairs;
      assert Stores(storage[y := |pairs|], pairs + [y]);
      hide Distinct, Stores, FinalsFound, InWork, IsInitialPair, Nfa.Valid;
      storage := storage[y := |pairs|];
      work := work + [|pairs|];
      if cond(y.0, y.1) { final := final + {|pairs|}; }
      initial := initial + {|pairs|};
      pairs := pairs + [y];
      todo := todo - {y};
    }
    InitialBetween(A, B, firstEpsilon, cond, pairs, storage, initial, final);
  }

  lemma InitialBetween(A: Nfa, B: Nfa, firstEpsilon: Symbol, cond: (State, State) -> bool, names: seq<Pair>, storage: map<Pair, State>, initial: StateSet, final: StateSet)
    requires A.Valid() && B.Valid() && InitialFound(A, B, names, initial, {})
    requires Distinct(names) && Stores(storage, names) && FinalsFound(cond, names, final)
    ensures Between(A, B, firstEpsilon, cond, names, storage, [], final, initial)
  {
    assert forall q: State, a, s: State :: !HasTransition([], q, a, s);
    forall r: State | r < |names| ensures IsInitialPair(A, B, names[r]) { assert names[r] in names; }
    hide HasTransition, Stores, FinalsFound, PairStep;
  }

  /** `algorithms::product` for any final condition */
  method Product(A: Nfa, B: Nfa, finalCondition: (State, State) -> bool, firstEpsilon: Symbol) returns (P: Nfa, names: seq<Pair>)
    requires A.Valid() && B.Valid()
    ensures P.Valid() && IsProduct(A, B, firstEpsilon, finalCondition, P, names)
  {
    hide *;
    var storage, pairs, initial, final, work := AddInitial(A, B, finalCondition, firstEpsilon);
    InitialFoundIs(A, B, pairs, initial);
    ghost var open := initial;
    var delta := new Delta(0);
    assert delta.statePosts == [];
    while work != []
      invariant delta.Valid() && fresh(delta) && |delta.statePosts| <= |pairs| && InitialIs(A, B, pairs, initial)
      invariant Between(A, B, firstEpsilon, finalCondition, pairs, storage, delta.statePosts, final, open) && InWork(work, pairs, open)
      decreases Unnumbered(A, B, pairs), |work|
    {
      var r := work[|work| - 1];
      WorkPop(work, pairs, open);
      work := work[..|work| - 1];
      StartAdding(A, B, firstEpsilon, finalCondition, pairs, storage, delta.statePosts, final, open, r);
      storage, pairs, final, work, open := AddSuccessors(A, B, firstEpsilon, finalCondition, delta, r, pairs[r], storage, pairs, final, work, open - {r}, initial);
    }
    NothingOpen(work, pairs, open);
    P, names := Nfa(|pairs|, delta.statePosts, initial, final), pairs;
    ValidIsSorted(delta);
    ProductBuilt(A, B, firstEpsilon, finalCondition, P, names, storage);
  }

  /** Intersection: up to epsilons, exactly the common words. */
  method Intersection(A: Nfa, B: Nfa, firstEpsilon: Symbol) returns (P: Nfa)
    requires A.Valid() && B.Valid()
    ensures P.Valid()
    ensures forall w: Word :: AcceptsVisible(P, firstEpsilon, w) <==> AcceptsVisible(A, firstEpsilon, w) && AcceptsVisible(B, firstEpsilon, w)
  {
    var cond := (p: State, q: State) => p in A.final && q in B.final;
    var names;
    P, names := Product(A, B, cond, firstEpsilon);
    assert IsAnd(A, B, cond);
    hide *;
    forall w: Word ensures AcceptsVisible(P, firstEpsilon, w) <==> AcceptsVisible(A, firstEpsilon, w) && AcceptsVisible(B, firstEpsilon, w) {
      ProductLanguage(A, B, firstEpsilon, cond, P, names, w);
    }
  }

  lemma InitialFoundIs(A: Nfa, B: Nfa, names: seq<Pair>, initial: StateSet)
    requires InitialFound(A, B, names, initial, {})
    ensures InitialIs(A, B, names, initial)
  {
    forall r: State | r < |names| ensures IsInitialPair(A, B, names[r]) { assert names[r] in names; }
    hide IsInitialPair;
  }

  lemma NothingOpen(work: seq<State>, names: seq<Pair>, open: set<State>)
    requires work == [] && InWork(work, names, open)
    ensures open == {}
  {
  }

  lemma ProductBuilt(A: Nfa, B: Nfa, firstEpsilon: Symbol, cond: (State, State) -> bool, P: Nfa, names: seq<Pair>, storage: map<Pair, State>)
    requires Between(A, B, firstEpsilon, cond, names, storage, P.delta, P.final, {}) && SortedDelta(P.delta) && |P.delta| <= P.size
    requires P.size == |names| && InitialIs(A, B, names, P.initial)
    ensures P.Valid() && IsProduct(A, B, firstEpsilon, cond, P, names)
  {
    hide Numbered, Stores, SuccessorsNumbered, PairStep, PairsOfStates, SortedDelta;
    forall r: State, a, s: State ensures Step(P, r, a, s) <==> NumberedStep(A, B, firstEpsilon, names, r, a, s) {
      assert Step(P, r, a, s) <==> HasTransition(P.delta, r, a, s);
      assert r < |names| ==> Built(A, B, firstEpsilon, names, P.delta, r);
    }
    forall r: State | r < |names| ensures SuccessorsNumbered(A, B, firstEpsilon, names, names[r]) {
      assert Built(A, B, firstEpsilon, names, P.delta, r);
    }
    hide Built;
    SortedPostIsValid(P.delta, P.size);
  }
}
