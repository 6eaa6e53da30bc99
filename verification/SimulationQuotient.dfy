/** Quotient by simulation equivalence (reduce_simulation of src/nfa/operations.cc).  The relation
    and the projection to representatives come from a library outside this model; any forward
    simulation preorder that respects final states will do. */
module SimulationQuotient {
  import opened Automata
  import opened Counting
  import opened DeltaRelation

  /** `(p, q)`: the state `p` is simulated by `q` */
  type Relation = set<(State, State)>

  ghost predicate Answers(A: Nfa, sim: Relation, a: Symbol, p': State, q: State) {
    exists q': State :: Step(A, q, a, q') && (p', q') in sim
  }

  ghost predicate IsSimulation(A: Nfa, sim: Relation) {
    && (forall q: State | q < A.size :: (q, q) in sim)
    && (forall p: State, q: State, r: State | (p, q) in sim && (q, r) in sim :: (p, r) in sim)
    && (forall p: State, q: State | (p, q) in sim && p in A.final :: q in A.final)
    && (forall p: State, q: State, a, p': State | (p, q) in sim && Step(A, p, a, p') :: Answers(A, sim, a, p', q))
  }

  /** Every state is projected to a representative equivalent to it, equivalent states to the same. */
  ghost predicate IsProjection(A: Nfa, sim: Relation, quot: seq<State>) {
    && |quot| == A.size
    && (forall q: State | q < A.size :: quot[q] < A.size && (q, quot[q]) in sim && (quot[q], q) in sim)
    && (forall p: State, q: State | p < A.size && q < A.size && (p, q) in sim && (q, p) in sim :: quot[p] == quot[q])
  }

  /** A representative of a target of `r` over `a` */
  ghost predicate Target(A: Nfa, quot: seq<State>, r: State, a: Symbol, m: State) {
    exists s: State :: Step(A, r, a, s) && s < |quot| && quot[s] == m
  }

  /** No other representative of a target simulates `m`. */
  ghost predicate Important(A: Nfa, sim: Relation, quot: seq<State>, r: State, a: Symbol, m: State) {
    Target(A, quot, r, a, m) && forall p: State | p != m && Target(A, quot, r, a, p) :: (m, p) !in sim
  }

  predicate IsRepresentative(quot: seq<State>, r: State) {
    r < |quot| && quot[r] == r
  }

  ghost predicate StepsToClass(A: Nfa, sim: Relation, quot: seq<State>, ren: seq<State>, r: State, a: Symbol, c: State) {
    exists m: State :: Important(A, sim, quot, r, a, m) && m < |ren| && ren[m] == c
  }

  /** `R` is the quotient: states are classes, transitions are the representatives' important ones. */
  ghost predicate IsQuotient(A: Nfa, R: Nfa, sim: Relation, quot: seq<State>, ren: seq<State>) {
    && |ren| == |quot| == A.size && (forall q: State | q < A.size :: ren[q] < R.size)
    && (forall p: State, q: State | p < A.size && q < A.size :: ren[p] == ren[q] <==> quot[p] == quot[q])
    && (forall c: State | c in R.initial :: exists q: State :: q in A.initial && q < A.size && ren[q] == c)
    && (forall q: State | q in A.initial && q < A.size :: ren[q] in R.initial)
    && (forall r: State | IsRepresentative(quot, r) && r < A.size :: ren[r] in R.final <==> r in A.final)
    && (forall r: State, a, c: State | IsRepresentative(quot, r) && r < A.size ::
          Step(R, ren[r], a, c) <==> StepsToClass(A, sim, quot, ren, r, a, c))
  }

  // ---------- Pruned targets are covered ----------

  /** The targets other than `m` that simulate it */
  ghost function Above(A: Nfa, sim: Relation, quot: seq<State>, r: State, a: Symbol, m: State): set<State> {
    set p: State | p in Below(A.size) && p != m && Target(A, quot, r, a, p) && (m, p) in sim
  }

  lemma TargetIsRepresentative(A: Nfa, sim: Relation, quot: seq<State>, r: State, a: Symbol, m: State)
    requires A.Valid() && IsSimulation(A, sim) && IsProjection(A, sim, quot) && Target(A, quot, r, a, m)
    ensures m < A.size && IsRepresentative(quot, m)
  {
    hide Step, Answers, Nfa.Valid;
    var s: State :| Step(A, r, a, s) && s < |quot| && quot[s] == m;
    assert (s, quot[s]) in sim && (quot[s], s) in sim;
  }

  /** Two different representatives do not simulate each other. */
  lemma RepresentativesDiffer(A: Nfa, sim: Relation, quot: seq<State>, m: State, p: State)
    requires IsProjection(A, sim, quot) && IsRepresentative(quot, m) && IsRepresentative(quot, p) && m != p
    ensures !((m, p) in sim && (p, m) in sim)
  {
  }

  lemma AboveShrinks(A: Nfa, sim: Relation, quot: seq<State>, r: State, a: Symbol, m: State, p: State)
    requires A.Valid() && IsSimulation(A, sim) && IsProjection(A, sim, quot)
    requires Target(A, quot, r, a, m) && p in Above(A, sim, quot, r, a, m)
    ensures Above(A, sim, quot, r, a, p) < Above(A, sim, quot, r, a, m)
  {
    TargetIsRepresentative(A, sim, quot, r, a, m);
    TargetIsRepresentative(A, sim, quot, r, a, p);
    RepresentativesDiffer(A, sim, quot, m, p);
    hide Target, Step, Answers, IsProjection;
    assert p !in Above(A, sim, quot, r, a, p);
    forall x | x in Above(A, sim, quot, r, a, p) ensures x in Above(A, sim, quot, r, a, m) {
      assert (m, x) in sim;
      assert x != m;
    }
  }

  /** Every representative of a target is simulated by an important one. */
  lemma {:induction false} ImportantAbove(A: Nfa, sim: Relation, quot: seq<State>, r: State, a: Symbol, m: State) returns (p: State)
    requires A.Valid() && IsSimulation(A, sim) && IsProjection(A, sim, quot) && Target(A, quot, r, a, m)
    ensures Important(A, sim, quot, r, a, p) && (m, p) in sim
    decreases Above(A, sim, quot, r, a, m)
  {
    TargetIsRepresentative(A, sim, quot, r, a, m);
    if Above(A, sim, quot, r, a, m) == {} {
      p := m;
      forall x: State | x != m && Target(A, quot, r, a, x) ensures (m, x) !in sim {
        TargetIsRepresentative(A, sim, quot, r, a, x);
        assert x !in Above(A, sim, quot, r, a, m);
      }
    } else {
      var x :| x in Above(A, sim, quot, r, a, m);
      AboveShrinks(A, sim, quot, r, a, m, x);
      hide Step, Answers, IsProjection, Important, Nfa.Valid;
      p := ImportantAbove(A, sim, quot, r, a, x);
    }
  }

  /** Of the targets of a class over a symbol none is simulated by another. */
  ghost predicate NoneSimulated(A: Nfa, R: Nfa, sim: Relation, ren: seq<State>) {
    forall c: State, a, p: State, q: State | p < |ren| && q < |ren| && ren[p] != ren[q] && Step(R, c, a, ren[p]) && Step(R, c, a, ren[q]) ::
      (p, q) !in sim
  }

  lemma TargetsPruned(A: Nfa, R: Nfa, sim: Relation, quot: seq<State>, ren: seq<State>)
    requires A.Valid() && R.Valid() && IsSimulation(A, sim) && IsProjection(A, sim, quot) && IsQuotient(A, R, sim, quot, ren)
    requires forall c: State | c < R.size :: c in ren
    ensures NoneSimulated(A, R, sim, ren)
  {
    hide Answers, Step, ValidPost, IsQuotient, IsSimulation, IsProjection;
    forall c: State, a, p: State, q: State
      | p < |ren| && q < |ren| && ren[p] != ren[q] && Step(R, c, a, ren[p]) && Step(R, c, a, ren[q])
      ensures (p, q) !in sim
    {
      StepIsState(R, c, a, ren[p]);
      assert c in ren;
      var s :| 0 <= s < |ren| && ren[s] == c;
      TargetsApart(A, R, sim, quot, ren, s, a, p, q);
    }
  }

  lemma TargetsApart(A: Nfa, R: Nfa, sim: Relation, quot: seq<State>, ren: seq<State>, s: State, a: Symbol, p: State, q: State)
    requires A.Valid() && IsSimulation(A, sim) && IsProjection(A, sim, quot) && IsQuotient(A, R, sim, quot, ren)
    requires s < |ren| && p < |ren| && q < |ren| && ren[p] != ren[q] && Step(R, ren[s], a, ren[p]) && Step(R, ren[s], a, ren[q])
    ensures (p, q) !in sim
  {
    hide Answers, Step, Target, Nfa.Valid;
    var r := quot[s];
    SameClass(A, sim, quot, s, r);
    assert IsRepresentative(quot, r) && ren[r] == ren[s];
    var m: State :| Important(A, sim, quot, r, a, m) && m < |ren| && ren[m] == ren[p];
    var n: State :| Important(A, sim, quot, r, a, n) && n < |ren| && ren[n] == ren[q];
    SameClass(A, sim, quot, m, p);
    SameClass(A, sim, quot, q, n);
    NotBetween(A, sim, m, p, q, n);
  }

  lemma NotBetween(A: Nfa, sim: Relation, m: State, p: State, q: State, n: State)
    requires IsSimulation(A, sim) && (m, p) in sim && (q, n) in sim && (m, n) !in sim
    ensures (p, q) !in sim
  {
    assert (p, q) in sim ==> (m, q) in sim;
  }

  lemma SameClass(A: Nfa, sim: Relation, quot: seq<State>, p: State, q: State)
    requires IsSimulation(A, sim) && IsProjection(A, sim, quot) && p < A.size && q < A.size
    ensures quot[quot[p]] == quot[p] < A.size
    ensures quot[p] == quot[q] ==> (p, q) in sim
  {
    hide Answers;
    if quot[p] == quot[q] { assert (p, quot[p]) in sim && (quot[q], q) in sim; }
  }

  // ---------- Language ----------

  /** Following a step of a simulated state in the quotient */
  lemma QuotientFollows(A: Nfa, R: Nfa, sim: Relation, quot: seq<State>, ren: seq<State>, q: State, a: Symbol, p: State, r: State) returns (m: State)
    requires A.Valid() && IsSimulation(A, sim) && IsProjection(A, sim, quot) && IsQuotient(A, R, sim, quot, ren)
    requires Step(A, q, a, p) && (q, r) in sim && IsRepresentative(quot, r)
    ensures IsRepresentative(quot, m) && (p, m) in sim && m < |ren| && Step(R, ren[r], a, ren[m])
  {
    assert Answers(A, sim, a, p, r);
    var s: State :| Step(A, r, a, s) && (p, s) in sim;
    StepIsState(A, r, a, s);
    hide Step, Answers, Nfa.Valid;
    assert Target(A, quot, r, a, quot[s]);
    m := ImportantAbove(A, sim, quot, r, a, quot[s]);
    TargetIsRepresentative(A, sim, quot, r, a, m);
    assert (s, quot[s]) in sim;
    assert StepsToClass(A, sim, quot, ren, r, a, ren[m]);
  }

  /** A representative's class accepts all that the states below the representative accept. */
  lemma {:induction false} QuotientAcceptsMore(A: Nfa, R: Nfa, sim: Relation, quot: seq<State>, ren: seq<State>, q: State, r: State, w: Word)
    requires A.Valid() && IsSimulation(A, sim) && IsProjection(A, sim, quot) && IsQuotient(A, R, sim, quot, ren)
    requires (q, r) in sim && IsRepresentative(quot, r) && r < |ren| && AcceptsFrom(A, q, w)
    ensures AcceptsFrom(R, ren[r], w)
    decreases |w|
  {
    hide Step, Nfa.Valid, Answers, Target, StepsToClass;
    if w != [] {
      var p: State :| Step(A, q, w[0], p) && AcceptsFrom(A, p, w[1..]);
      var m := QuotientFollows(A, R, sim, quot, ren, q, w[0], p, r);
      QuotientAcceptsMore(A, R, sim, quot, ren, p, m, w[1..]);
    }
  }

  /** Following a step of the quotient in a state above the representative */
  lemma StateFollows(A: Nfa, R: Nfa, sim: Relation, quot: seq<State>, ren: seq<State>, r: State, a: Symbol, c: State, p: State)
    returns (m: State, p': State)
    requires A.Valid() && IsSimulation(A, sim) && IsProjection(A, sim, quot) && IsQuotient(A, R, sim, quot, ren)
    requires IsRepresentative(quot, r) && r < |ren| && (r, p) in sim && Step(R, ren[r], a, c)
    ensures IsRepresentative(quot, m) && m < |ren| && ren[m] == c && (m, p') in sim && Step(A, p, a, p')
  {
    assert StepsToClass(A, sim, quot, ren, r, a, c);
    m :| Important(A, sim, quot, r, a, m) && m < |ren| && ren[m] == c;
    TargetIsRepresentative(A, sim, quot, r, a, m);
    var s: State :| Step(A, r, a, s) && s < |quot| && quot[s] == m;
    assert (quot[s], s) in sim;
    assert Answers(A, sim, a, s, p);
    p' :| Step(A, p, a, p') && (s, p') in sim;
  }

  /** The class of a representative accepts only what every state above the representative accepts. */
  lemma {:induction false} QuotientAcceptsLess(A: Nfa, R: Nfa, sim: Relation, quot: seq<State>, ren: seq<State>, r: State, p: State, w: Word)
    requires A.Valid() && IsSimulation(A, sim) && IsProjection(A, sim, quot) && IsQuotient(A, R, sim, quot, ren)
    requires IsRepresentative(quot, r) && r < |ren| && (r, p) in sim && AcceptsFrom(R, ren[r], w)
    ensures AcceptsFrom(A, p, w)
    decreases |w|
  {
    hide Step, Nfa.Valid, Answers, Target, StepsToClass;
    if w != [] {
      var c: State :| Step(R, ren[r], w[0], c) && AcceptsFrom(R, c, w[1..]);
      var m, p' := StateFollows(A, R, sim, quot, ren, r, w[0], c, p);
      QuotientAcceptsLess(A, R, sim, quot, ren, m, p', w[1..]);
    }
  }

  /** The quotient accepts the same language. */
  lemma QuotientLanguage(A: Nfa, R: Nfa, sim: Relation, quot: seq<State>, ren: seq<State>)
    requires A.Valid() && IsSimulation(A, sim) && IsProjection(A, sim, quot) && IsQuotient(A, R, sim, quot, ren)
    ensures SameLanguage(A, R)
  {
    forall w: Word ensures Accepts(A, w) <==> Accepts(R, w) {
      if Accepts(A, w) {
        var q: State :| q in A.initial && AcceptsFrom(A, q, w);
        InitialClass(A, R, sim, quot, ren, q);
        QuotientAcceptsMore(A, R, sim, quot, ren, q, quot[q], w);
      }
      if Accepts(R, w) {
        var c: State :| c in R.initial && AcceptsFrom(R, c, w);
        var q: State :| q in A.initial && q < A.size && ren[q] == c;
        InitialClass(A, R, sim, quot, ren, q);
        QuotientAcceptsLess(A, R, sim, quot, ren, quot[q], q, w);
      }
    }
  }

  lemma InitialClass(A: Nfa, R: Nfa, sim: Relation, quot: seq<State>, ren: seq<State>, q: State)
    requires A.Valid() && IsSimulation(A, sim) && IsProjection(A, sim, quot) && IsQuotient(A, R, sim, quot, ren) && q in A.initial
    ensures q < A.size && IsRepresentative(quot, quot[q]) && quot[q] < |ren| && ren[quot[q]] == ren[q] && ren[q] in R.initial
    ensures (q, quot[q]) in sim && (quot[q], q) in sim
  {
    hide Step;
    assert q < A.size;
    assert (q, quot[q]) in sim && (quot[q], q) in sim;
  }

  // ---------- The construction ----------

  /** Classes are numbered in the order in which their first state is met. */
  ghost predicate NumbersClasses(quot: seq<State>, ren: map<State, State>, n: nat, count: nat) {
    && (forall q: State | q < n && q < |quot| :: q in ren && quot[q] in ren)
    && (forall p <- ren :: p < |quot| && ren[p] < count)
    && (forall p, q | p in ren && q in ren :: ren[p] == ren[q] <==> quot[p] == quot[q])
    && (forall c: State | c < count :: Met(ren, n, c))
    && (forall q: State, c: State | q < n && q in ren && c < ren[q] :: Met(ren, q, c))
  }

  /** Some state before `n` has got the number `c`. */
  ghost predicate Met(ren: map<State, State>, n: nat, c: State) {
    exists q: State :: q < n && q in ren && ren[q] == c
  }

  lemma MetKept(ren: map<State, State>, ren': map<State, State>, n: nat, c: State)
    requires Met(ren, n, c) && forall q <- ren :: q in ren' && ren'[q] == ren[q]
    ensures Met(ren', n, c) && Met(ren', n + 1, c)
  {
    var q: State :| q < n && q in ren && ren[q] == c;
    assert q in ren' && ren'[q] == c;
  }

  lemma MetNow(ren: map<State, State>, q: State)
    requires q in ren
    ensures Met(ren, q + 1, ren[q])
  {
  }

  /** What was met stays met when state `n` gets a number, of which all smaller ones have been met. */
  lemma MetOnwards(ren: map<State, State>, ren': map<State, State>, n: nat, n': nat, count: nat, count': nat)
    requires (forall c: State | c < count :: Met(ren, n, c)) && (forall q: State, c: State | q < n && q in ren && c < ren[q] :: Met(ren, q, c))
    requires (forall q <- ren :: q in ren' && ren'[q] == ren[q]) && (forall q: State | q < n :: q in ren)
    requires n' == n + 1 && n in ren' && ren'[n] <= count && count' == if ren'[n] == count then count + 1 else count
    ensures forall c: State | c < count' :: Met(ren', n', c)
    ensures forall q: State, c: State | q < n' && q in ren' && c < ren'[q] :: Met(ren', q, c)
  {
    MetNow(ren', n);
    hide Met;
    forall c: State | c < count ensures Met(ren', n, c) && Met(ren', n', c) { MetKept(ren, ren', n, c); }
    forall q: State, c: State | q < n' && q in ren' && c < ren'[q] ensures Met(ren', q, c) {
      if q < n { MetKept(ren, ren', q, c); }
    }
  }

  lemma NumberKnown(quot: seq<State>, ren: map<State, State>, n: nat, count: nat, q: State)
    requires NumbersClasses(quot, ren, n, count) && q == n < |quot| && quot[q] in ren && quot[quot[q]] == quot[q]
    requires quot[q] < |quot| && forall p <- ren :: p < n || quot[p] == p
    ensures NumbersClasses(quot, ren[q := ren[quot[q]]], n + 1, count)
  {
    MetOnwards(ren, ren[q := ren[quot[q]]], n, n + 1, count, count);
    hide Met;
  }

  lemma NumberNew(quot: seq<State>, ren: map<State, State>, n: nat, count: nat, q: State)
    requires NumbersClasses(quot, ren, n, count) && q == n < |quot| && quot[q] !in ren && quot[q] < |quot| && quot[quot[q]] == quot[q]
    requires forall p <- ren :: p < |quot| && quot[p] in ren
    ensures NumbersClasses(quot, ren[quot[q] := count][q := count], n + 1, count + 1)
  {
    MetOnwards(ren, ren[quot[q] := count][q := count], n, n + 1, count, count + 1);
    hide Met;
  }

  /** The loop that maps every state to the number of its class. */
  method NumberClasses(quot: seq<State>) returns (ren: map<State, State>, count: nat)
    requires forall q: State | q < |quot| :: quot[q] < |quot| && quot[quot[q]] == quot[q]
    ensures NumbersClasses(quot, ren, |quot|, count)
  {
    hide NumbersClasses;
    ren, count := map[], 0;
    assert NumbersClasses(quot, ren, 0, 0) by { NothingNumbered(quot); }
    for q := 0 to |quot|
      invariant NumbersClasses(quot, ren, q, count)
      invariant forall p <- ren :: p < |quot| && quot[p] in ren && (p < q || quot[p] == p)
    {
      if quot[q] !in ren {
        NumberNew(quot, ren, q, count, q);
        ren := ren[quot[q] := count][q := count];
        count := count + 1;
      } else {
        NumberKnown(quot, ren, q, count, q);
        ren := ren[q := ren[quot[q]]];
      }
    }
  }

  lemma NothingNumbered(quot: seq<State>)
    ensures NumbersClasses(quot, map[], 0, 0)
  {
  }

  /** The representatives of the targets in one symbol post */
  function Representatives(quot: seq<State>, targets: seq<State>): StateSet {
    set s | s in targets && s < |quot| :: quot[s]
  }

  predicate Kept(sim: Relation, representatives: StateSet, m: State) {
    m in representatives && forall p | p in representatives && p != m :: (m, p) !in sim
  }

  ghost predicate KeptClass(sim: Relation, quot: seq<State>, ren: seq<State>, targets: seq<State>, c: State) {
    exists m: State :: Kept(sim, Representatives(quot, targets), m) && m < |ren| && ren[m] == c
  }

  /** Add the transitions of one symbol post of a representative of the class `class'`. */
  method AddPost(delta: Delta, sim: Relation, quot: seq<State>, ren: seq<State>, class': State, post: SymbolPost)
    requires delta.Valid() && forall m <- Representatives(quot, post.targets) :: m < |ren|
    requires class' < |delta.statePosts| && forall m: State | m < |ren| :: ren[m] < |delta.statePosts|
    modifies delta
    ensures delta.Valid() && |delta.statePosts| == |old(delta.statePosts)|
    ensures forall x: State, b, y: State :: HasTransition(delta.statePosts, x, b, y) <==>
              old(HasTransition(delta.statePosts, x, b, y)) || (x == class' && b == post.symbol && KeptClass(sim, quot, ren, post.targets, y))
  {
    var representatives := Representatives(quot, post.targets);
    var todo := representatives;
    hide HasTransition, Representatives;
    while todo != {}
      invariant todo <= representatives && delta.Valid() && |delta.statePosts| == |old(delta.statePosts)|
      invariant forall x: State, b, y: State :: HasTransition(delta.statePosts, x, b, y) <==>
                  || old(HasTransition(delta.statePosts, x, b, y))
                  || (x == class' && b == post.symbol && exists m: State :: Kept(sim, representatives, m) && m !in todo && m < |ren| && ren[m] == y)
    {
      var m: State :| m in todo;
      if Kept(sim, representatives, m) {
        delta.Add(class', post.symbol, ren[m]);
      }
      todo := todo - {m};
    }
  }

  /** The targets over `a` are those of the one symbol post with that symbol. */
  lemma TargetsOfPost(A: Nfa, quot: seq<State>, r: State, i: nat, m: State)
    requires A.Valid() && r < |A.delta| && i < |A.delta[r]|
    ensures Target(A, quot, r, A.delta[r][i].symbol, m) <==> m in Representatives(quot, A.delta[r][i].targets)
  {
    var post := A.delta[r];
    assert ValidPost(post, A.size);
    if Target(A, quot, r, post[i].symbol, m) {
      var s: State :| Step(A, r, post[i].symbol, s) && s < |quot| && quot[s] == m;
      var j :| 0 <= j < |post| && post[j].symbol == post[i].symbol && s in post[j].targets;
      assert j == i;
    }
    if m in Representatives(quot, post[i].targets) {
      var s: State :| s in post[i].targets && s < |quot| && quot[s] == m;
      assert Step(A, r, post[i].symbol, s);
    }
  }

  lemma KeptIsImportant(A: Nfa, sim: Relation, quot: seq<State>, r: State, i: nat, m: State)
    requires A.Valid() && r < |A.delta| && i < |A.delta[r]|
    ensures Kept(sim, Representatives(quot, A.delta[r][i].targets), m) <==> Important(A, sim, quot, r, A.delta[r][i].symbol, m)
  {
    forall p: State ensures Target(A, quot, r, A.delta[r][i].symbol, p) <==> p in Representatives(quot, A.delta[r][i].targets) {
      TargetsOfPost(A, quot, r, i, p);
    }
    hide Target, Representatives, Nfa.Valid;
  }

  ghost predicate KeptBySome(A: Nfa, sim: Relation, quot: seq<State>, ren: seq<State>, r: State, k: nat, a: Symbol, c: State) {
    exists i :: 0 <= i < k && i < |A.At(r)| && A.At(r)[i].symbol == a && KeptClass(sim, quot, ren, A.At(r)[i].targets, c)
  }

  lemma KeptBySomeIsStep(A: Nfa, sim: Relation, quot: seq<State>, ren: seq<State>, r: State, a: Symbol, c: State)
    requires A.Valid()
    ensures KeptBySome(A, sim, quot, ren, r, |A.At(r)|, a, c) <==> StepsToClass(A, sim, quot, ren, r, a, c)
  {
    hide Important, Kept, Representatives, Nfa.Valid, Target;
    if KeptBySome(A, sim, quot, ren, r, |A.At(r)|, a, c) {
      var i :| 0 <= i < |A.At(r)| && A.At(r)[i].symbol == a && KeptClass(sim, quot, ren, A.At(r)[i].targets, c);
      var m: State :| Kept(sim, Representatives(quot, A.At(r)[i].targets), m) && m < |ren| && ren[m] == c;
      KeptIsImportant(A, sim, quot, r, i, m);
    }
    if StepsToClass(A, sim, quot, ren, r, a, c) {
      var m: State :| Important(A, sim, quot, r, a, m) && m < |ren| && ren[m] == c;
      var i := ImportantPost(A, sim, quot, r, a, m);
      KeptIsImportant(A, sim, quot, r, i, m);
    }
  }

  lemma ImportantPost(A: Nfa, sim: Relation, quot: seq<State>, r: State, a: Symbol, m: State) returns (i: nat)
    requires Important(A, sim, quot, r, a, m)
    ensures r < |A.delta| && i < |A.delta[r]| && A.delta[r][i].symbol == a
  {
    var s: State :| Step(A, r, a, s) && s < |quot| && quot[s] == m;
    var j :| 0 <= j < |A.At(r)| && A.At(r)[j].symbol == a && s in A.At(r)[j].targets;
    i := j;
  }

  /** Add the transitions of the representative `r`. */
  method AddRepresentative(A: Nfa, delta: Delta, sim: Relation, quot: seq<State>, ren: seq<State>, r: State)
    requires A.Valid() && delta.Valid() && |ren| == |quot| == A.size && r < A.size && forall q: State | q < A.size :: quot[q] < A.size
    requires forall m: State | m < |ren| :: ren[m] < |delta.statePosts|
    modifies delta
    ensures delta.Valid() && |delta.statePosts| == |old(delta.statePosts)|
    ensures forall x: State, b, y: State :: HasTransition(delta.statePosts, x, b, y) <==>
              old(HasTransition(delta.statePosts, x, b, y)) || (x == ren[r] && StepsToClass(A, sim, quot, ren, r, b, y))
  {
    hide HasTransition, KeptClass, StepsToClass, Nfa.Valid;
    var post := A.At(r);
    for k := 0 to |post|
      invariant delta.Valid() && |delta.statePosts| == |old(delta.statePosts)|
      invariant forall x: State, b, y: State :: HasTransition(delta.statePosts, x, b, y) <==>
                  old(HasTransition(delta.statePosts, x, b, y)) || (x == ren[r] && KeptBySome(A, sim, quot, ren, r, k, b, y))
    {
      AddPost(delta, sim, quot, ren, ren[r], post[k]);
      forall b, y: State ensures KeptBySome(A, sim, quot, ren, r, k + 1, b, y) <==>
        KeptBySome(A, sim, quot, ren, r, k, b, y) || (b == post[k].symbol && KeptClass(sim, quot, ren, post[k].targets, y))
      {
        KeptBySomeSnoc(A, sim, quot, ren, r, k, b, y);
      }
    }
    forall b, y: State ensures KeptBySome(A, sim, quot, ren, r, |post|, b, y) <==> StepsToClass(A, sim, quot, ren, r, b, y) {
      KeptBySomeIsStep(A, sim, quot, ren, r, b, y);
    }
  }

  lemma KeptBySomeSnoc(A: Nfa, sim: Relation, quot: seq<State>, ren: seq<State>, r: State, k: nat, a: Symbol, c: State)
    requires k < |A.At(r)|
    ensures KeptBySome(A, sim, quot, ren, r, k + 1, a, c) <==>
            KeptBySome(A, sim, quot, ren, r, k, a, c) || (a == A.At(r)[k].symbol && KeptClass(sim, quot, ren, A.At(r)[k].targets, c))
  {
    hide KeptClass;
  }

  ghost predicate SomeStepsToClass(A: Nfa, sim: Relation, quot: seq<State>, ren: seq<State>, n: nat, x: State, a: Symbol, c: State)
    requires |ren| == |quot|
  {
    exists r: State :: IsRepresentative(quot, r) && r < n && ren[r] == x && StepsToClass(A, sim, quot, ren, r, a, c)
  }

  lemma OneRepresentative(A: Nfa, sim: Relation, quot: seq<State>, ren: seq<State>, r: State, a: Symbol, c: State)
    requires |ren| == |quot| == A.size && IsRepresentative(quot, r)
    requires forall p: State, q: State | p < A.size && q < A.size :: ren[p] == ren[q] <==> quot[p] == quot[q]
    ensures SomeStepsToClass(A, sim, quot, ren, A.size, ren[r], a, c) <==> StepsToClass(A, sim, quot, ren, r, a, c)
  {
    hide StepsToClass;
  }

  lemma SomeStepsSnoc(A: Nfa, sim: Relation, quot: seq<State>, ren: seq<State>, n: nat, x: State, a: Symbol, c: State)
    requires |ren| == |quot| && n < |quot|
    ensures SomeStepsToClass(A, sim, quot, ren, n + 1, x, a, c) <==>
            SomeStepsToClass(A, sim, quot, ren, n, x, a, c) || (quot[n] == n && ren[n] == x && StepsToClass(A, sim, quot, ren, n, a, c))
  {
    hide StepsToClass;
  }

  /** Classes as numbers: equal just for states with the same representative. */
  ghost predicate Numbering(A: Nfa, quot: seq<State>, ren: seq<State>, count: nat) {
    && |quot| == |ren| == A.size && (forall q: State | q < A.size :: quot[q] < A.size && ren[q] < count)
    && (forall p: State, q: State | p < A.size && q < A.size :: ren[p] == ren[q] <==> quot[p] == quot[q])
  }

  /** Every number below `count` is given, and first to a later state than all smaller ones. */
  ghost predicate MetInOrder(ren: seq<State>, count: nat) {
    && (forall q: State | q < |ren| :: ren[q] < count)
    && (forall c: State | c < count :: c in ren)
    && (forall q: State, c: State | q < |ren| && c < ren[q] :: c in ren[..q])
  }

  /** The representatives of all classes */
  ghost function ClassesOf(quot: seq<State>): StateSet {
    set q | q in quot
  }

  /** So there are as many numbers as classes. */
  lemma NumbersAreClasses(quot: seq<State>, ren: seq<State>, count: nat)
    requires |ren| == |quot| && MetInOrder(ren, count)
    requires forall p: State, q: State | p < |quot| && q < |quot| :: ren[p] == ren[q] <==> quot[p] == quot[q]
    ensures count == |ClassesOf(quot)| <= |quot|
  {
    var firsts := seq(count, c requires 0 <= c < count && forall d: State | d < count :: d in ren => FirstOf(ren, c));
    var classes := seq(count, c requires 0 <= c < |firsts| && firsts[c] < |quot| => quot[firsts[c]]);
    assert forall c, d | 0 <= c < d < count :: ren[firsts[c]] == c != d == ren[firsts[d]];
    assert Distinct(firsts) && Distinct(classes);
    forall r | r in quot ensures r in classes {
      var q :| 0 <= q < |quot| && quot[q] == r;
      assert ren[firsts[ren[q]]] == ren[q];
      assert classes[ren[q]] == r;
    }
    forall r | r in classes ensures r in quot {
      var c :| 0 <= c < count && classes[c] == r;
      assert quot[firsts[c]] == r;
    }
    assert Elements(classes) == ClassesOf(quot);
    DistinctSize(classes);
    Pigeonhole(firsts, |quot|);
  }

  ghost function FirstOf(ren: seq<State>, c: State): (q: State)
    requires c in ren
    ensures q < |ren| && ren[q] == c
  {
    var q :| 0 <= q < |ren| && ren[q] == c;
    q
  }

  method NumberStates(A: Nfa, sim: Relation, quot: seq<State>) returns (ren: seq<State>, count: nat)
    requires IsProjection(A, sim, quot)
    ensures Numbering(A, quot, ren, count) && MetInOrder(ren, count)
  {
    ProjectionIdempotent(A, sim, quot);
    var renaming;
    renaming, count := NumberClasses(quot);
    ren := seq(A.size, q requires 0 <= q < |quot| && forall p: State | p < |quot| :: p in renaming => renaming[q]);
    ListedInOrder(quot, renaming, ren, count);
  }

  lemma ListedInOrder(quot: seq<State>, renaming: map<State, State>, ren: seq<State>, count: nat)
    requires NumbersClasses(quot, renaming, |quot|, count) && |ren| == |quot|
    requires forall q: State | q < |quot| :: q in renaming && ren[q] == renaming[q]
    ensures MetInOrder(ren, count)
  {
    forall c: State | c < count ensures c in ren {
      assert Met(renaming, |quot|, c);
      var q: State :| q < |quot| && q in renaming && renaming[q] == c;
      assert ren[q] == c;
    }
    forall q: State, c: State | q < |ren| && c < ren[q] ensures c in ren[..q] {
      assert Met(renaming, q, c);
      var p: State :| p < q && p in renaming && renaming[p] == c;
      assert ren[..q][p] == c;
    }
  }

  /** The initial and final classes found among the first `n` states */
  ghost predicate EndsFound(A: Nfa, quot: seq<State>, ren: seq<State>, n: nat, initial: StateSet, final: StateSet)
    requires |quot| == |ren| && n <= |quot|
  {
    && (forall c :: c in initial <==> exists p: State :: p < n && p in A.initial && ren[p] == c)
    && (forall c :: c in final <==> exists p: State :: p < n && quot[p] == p && p in A.final && ren[p] == c)
  }

  lemma EndsSnoc(A: Nfa, quot: seq<State>, ren: seq<State>, n: nat, initial: StateSet, final: StateSet)
    requires |quot| == |ren| && n < |quot| && EndsFound(A, quot, ren, n, initial, final)
    ensures EndsFound(A, quot, ren, n + 1, if n in A.initial then initial + {ren[n]} else initial,
                      if quot[n] == n && n in A.final then final + {ren[n]} else final)
  {
  }

  ghost predicate StepsFound(A: Nfa, sim: Relation, quot: seq<State>, ren: seq<State>, n: nat, delta: seq<StatePost>)
    requires |quot| == |ren|
  {
    forall x: State, b, y: State :: HasTransition(delta, x, b, y) <==> SomeStepsToClass(A, sim, quot, ren, n, x, b, y)
  }

  lemma StepsSnoc(A: Nfa, sim: Relation, quot: seq<State>, ren: seq<State>, n: nat, delta: seq<StatePost>, delta': seq<StatePost>)
    requires |quot| == |ren| && n < |quot| && StepsFound(A, sim, quot, ren, n, delta)
    requires forall x: State, b, y: State :: HasTransition(delta', x, b, y) <==>
               HasTransition(delta, x, b, y) || (quot[n] == n && x == ren[n] && StepsToClass(A, sim, quot, ren, n, b, y))
    ensures StepsFound(A, sim, quot, ren, n + 1, delta')
  {
    hide HasTransition, StepsToClass, SomeStepsToClass;
    forall x: State, b, y: State ensures HasTransition(delta', x, b, y) <==> SomeStepsToClass(A, sim, quot, ren, n + 1, x, b, y) {
      SomeStepsSnoc(A, sim, quot, ren, n, x, b, y);
    }
  }

  /** Add the transitions of state `q` if it is a representative. */
  method AddState(A: Nfa, delta: Delta, sim: Relation, quot: seq<State>, ren: seq<State>, q: State, ghost count: nat)
    requires A.Valid() && delta.Valid() && Numbering(A, quot, ren, count) && |delta.statePosts| == count && q < A.size
    requires StepsFound(A, sim, quot, ren, q, delta.statePosts)
    modifies delta
    ensures delta.Valid() && |delta.statePosts| == count && StepsFound(A, sim, quot, ren, q + 1, delta.statePosts)
  {
    hide HasTransition, StepsToClass, SomeStepsToClass, SortedDelta, StepsFound, Nfa.Valid;
    ghost var before := delta.statePosts;
    if quot[q] == q {
      AddRepresentative(A, delta, sim, quot, ren, q);
    }
    StepsSnoc(A, sim, quot, ren, q, before, delta.statePosts);
  }

  /** `reduce_simulation` for a given simulation and its projection to representatives */
  method ReduceSimulation(A: Nfa, sim: Relation, quot: seq<State>) returns (R: Nfa, ren: seq<State>)
    requires A.Valid() && IsSimulation(A, sim) && IsProjection(A, sim, quot)
    ensures R.Valid() && IsQuotient(A, R, sim, quot, ren) && SameLanguage(A, R)
    ensures MetInOrder(ren, R.size) && R.size == |ClassesOf(quot)| <= A.size
    ensures NoneSimulated(A, R, sim, ren)
  {
    hide *;
    var count;
    ren, count := NumberStates(A, sim, quot);
    NumberingSizes(A, quot, ren, count);
    var delta := new Delta(count);
    var initial: StateSet, final: StateSet := {}, {};
    NothingFound(A, sim, quot, ren, delta.statePosts, count);
    for q := 0 to A.size
      invariant delta.Valid() && fresh(delta) && |delta.statePosts| == count
      invariant StepsFound(A, sim, quot, ren, q, delta.statePosts) && EndsFound(A, quot, ren, q, initial, final)
    {
      EndsSnoc(A, quot, ren, q, initial, final);
      if q in A.initial { initial := initial + {ren[q]}; }
      AddState(A, delta, sim, quot, ren, q, count);
      if quot[q] == q && q in A.final { final := final + {ren[q]}; }
    }
    R := Nfa(count, delta.statePosts, initial, final);
    assert SortedDelta(R.delta) by { ValidIsSorted(delta); }
    QuotientBuilt(A, R, sim, quot, ren);
    QuotientLanguage(A, R, sim, quot, ren);
    AsManyAsClasses(A, quot, ren, count);
    assert forall c: State | c < R.size :: c in ren by { AllMet(ren, count); }
    TargetsPruned(A, R, sim, quot, ren);
  }

  lemma AllMet(ren: seq<State>, count: nat)
    requires MetInOrder(ren, count)
    ensures forall c: State | c < count :: c in ren
  {
  }

  lemma AsManyAsClasses(A: Nfa, quot: seq<State>, ren: seq<State>, count: nat)
    requires Numbering(A, quot, ren, count) && MetInOrder(ren, count)
    ensures count == |ClassesOf(quot)| <= A.size
  {
    NumbersAreClasses(quot, ren, count);
  }

  lemma NumberingSizes(A: Nfa, quot: seq<State>, ren: seq<State>, count: nat)
    requires Numbering(A, quot, ren, count)
    ensures |quot| == |ren| == A.size
  {
  }

  lemma NothingFound(A: Nfa, sim: Relation, quot: seq<State>, ren: seq<State>, delta: seq<StatePost>, count: nat)
    requires |quot| == |ren| && delta == Allocated([], count)
    ensures StepsFound(A, sim, quot, ren, 0, delta) && EndsFound(A, quot, ren, 0, {}, {})
  {
  }

  lemma ProjectionIdempotent(A: Nfa, sim: Relation, quot: seq<State>)
    requires IsProjection(A, sim, quot)
    ensures |quot| == A.size && forall q: State | q < |quot| :: quot[q] < |quot| && quot[quot[q]] == quot[q]
  {
  }

  lemma QuotientBuilt(A: Nfa, R: Nfa, sim: Relation, quot: seq<State>, ren: seq<State>)
    requires A.Valid() && Numbering(A, quot, ren, R.size) && |R.delta| == R.size && SortedDelta(R.delta)
    requires StepsFound(A, sim, quot, ren, A.size, R.delta) && EndsFound(A, quot, ren, A.size, R.initial, R.final)
    ensures R.Valid() && IsQuotient(A, R, sim, quot, ren)
  {
    forall x: State, b, y: State | HasTransition(R.delta, x, b, y) ensures y < R.size {
      assert SomeStepsToClass(A, sim, quot, ren, A.size, x, b, y);
      var r: State :| IsRepresentative(quot, r) && r < A.size && ren[r] == x && StepsToClass(A, sim, quot, ren, r, b, y);
      var m: State :| Important(A, sim, quot, r, b, m) && m < |ren| && ren[m] == y;
    }
    SortedPostIsValid(R.delta, R.size);
    forall x: State, b, y: State ensures HasTransition(R.delta, x, b, y) <==> Step(R, x, b, y) { }
    hide StepsToClass, SomeStepsToClass, HasTransition, Step, ValidPost, SortedDelta;
    forall r: State, a, c: State | IsRepresentative(quot, r) && r < A.size
      ensures Step(R, ren[r], a, c) <==> StepsToClass(A, sim, quot, ren, r, a, c)
    {
      OneRepresentative(A, sim, quot, ren, r, a, c);
    }
  }
}
