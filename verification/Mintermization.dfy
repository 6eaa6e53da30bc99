/** Minterms: from an automaton with formulae on its transitions to one with explicit symbols
    (src/mintermization.cc).  A BDD is modelled by the set of valuations it stands for. */
module Mintermization {
  import opened Automata
  import opened Counting
  import opened FormulaParser

  /** The names that are true */
  type Valuation = set<string>
  type Bdd = set<Valuation>

  function One(vars: set<string>): Bdd {
    set v: Valuation | v <= vars
  }

  function Negation(vars: set<string>, b: Bdd): Bdd {
    One(vars) - b
  }

  const TRUE: string := "\\true"
  const FALSE: string := "\\false"

  /** The truth values of operands under `v` */
  function Environment(v: Valuation): string -> bool {
    (name: string) => name == TRUE || (name != FALSE && name in v)
  }

  predicate Satisfies(v: Valuation, g: Graph) {
    GraphValue(g, Environment(v))
  }

  function Names(g: Graph): set<string> {
    match g
    case NoGraph => {}
    case Leaf(name) => {name}
    case NegNode(child) => Names(child)
    case BinaryNode(_, first, second) => Names(first) + Names(second)
  }

  /** The valuations that satisfy `g` */
  function Meaning(vars: set<string>, g: Graph): Bdd {
    set v: Valuation | v <= vars && Satisfies(v, g)
  }

  /** A formula tree, as the parser yields it. */
  predicate Proper(g: Graph) {
    match g
    case NoGraph => false
    case Leaf(_) => true
    case NegNode(child) => Proper(child)
    case BinaryNode(op, first, second) => op != Neg && Proper(first) && Proper(second)
  }

  type Memo = map<string, Bdd>

  ghost predicate Remembers(vars: set<string>, memo: Memo) {
    forall name <- memo :: memo[name] == Meaning(vars, Leaf(name))
  }

  /** `graph_to_bdd_nfa`; `memo` is `symbol_to_bddvar_`, shared by all formulae. */
  method GraphToBdd(vars: set<string>, g: Graph, memo0: Memo) returns (b: Bdd, memo: Memo)
    requires Proper(g) && Names(g) <= vars && Remembers(vars, memo0)
    ensures b == Meaning(vars, g) && Remembers(vars, memo)
    decreases g
  {
    match g
    case Leaf(name) =>
      if name in memo0 {
        b, memo := memo0[name], memo0;
      } else {
        b := if name == TRUE then One(vars) else if name == FALSE then {} else set v: Valuation | v <= vars && name in v;
        memo := memo0[name := b];
      }
    case NegNode(child) =>
      b, memo := GraphToBdd(vars, child, memo0);
      b := Negation(vars, b);
    case BinaryNode(op, first, second) =>
      var b1, b2;
      b1, memo := GraphToBdd(vars, first, memo0);
      b2, memo := GraphToBdd(vars, second, memo);
      b := if op == And then b1 * b2 else b1 + b2;
  }

  // ---------- Parsed formulae ----------

  lemma {:induction false} NamesAreLeaves(g: Graph)
    ensures forall name :: name in Names(g) <==> name in Leaves(g)
  {
    match g
    case NoGraph =>
    case Leaf(_) =>
    case NegNode(child) => NamesAreLeaves(child);
    case BinaryNode(_, first, second) =>
      NamesAreLeaves(first);
      NamesAreLeaves(second);
  }

  lemma {:induction false} LiteralProper(l: Literal)
    ensures Proper(LiteralGraph(l))
  {
    match l
    case Atom(_) =>
    case Negate(arg) => LiteralProper(arg);
    case Parens(d) => DisjunctionProper(d);
  }

  lemma {:induction false} ConjunctionProper(c: Conjunction)
    ensures Proper(ConjunctionGraph(c))
  {
    match c
    case OneLiteral(l) => LiteralProper(l);
    case Conjoin(first, rest) =>
      LiteralProper(first);
      ConjunctionProper(rest);
  }

  lemma {:induction false} DisjunctionProper(d: Disjunction)
    ensures Proper(DisjunctionGraph(d))
  {
    match d
    case OneConjunction(c) => ConjunctionProper(c);
    case Disjoin(left, right) =>
      DisjunctionProper(left);
      ConjunctionProper(right);
  }

  lemma EnvironmentValues(v: Valuation)
    ensures Environment(v)(TRUE) && !Environment(v)(FALSE)
    ensures forall name | name != TRUE && name != FALSE :: Environment(v)(name) <==> name in v
  {
  }

  /** From the tokens of a formula to its BDD: the valuations under which the grammar makes it true. */
  method FormulaToBdd(vars: set<string>, tokens: seq<Token>, ghost d: Disjunction, memo0: Memo) returns (b: Bdd, memo: Memo)
    requires tokens == DisjunctionTokens(d) && (forall name <- OperandNames(tokens) :: name in vars) && Remembers(vars, memo0)
    ensures Remembers(vars, memo)
    ensures forall v: Valuation :: v in b <==> v <= vars && DisjunctionValue(d, Environment(v))
  {
    DisjunctionProper(d);
    var g := ParseFormula(tokens, d);
    NamesAreLeaves(g);
    b, memo := GraphToBdd(vars, g, memo0);
  }

  // ---------- Minterms ----------

  /** Non-empty, pairwise disjoint, and covering all valuations */
  ghost predicate IsPartition(vars: set<string>, minterms: set<Bdd>) {
    && (forall m <- minterms :: m != {} && m <= One(vars))
    && (forall m, n | m in minterms && n in minterms && m != n :: m !! n)
    && (forall v: Valuation | v <= vars :: Covers(minterms, v))
  }

  ghost predicate Covers(minterms: set<Bdd>, v: Valuation) {
    exists m :: m in minterms && v in m
  }

  /** Every minterm lies inside `b` or outside it: `b` is a union of minterms. */
  ghost predicate Respects(minterms: set<Bdd>, b: Bdd) {
    forall m <- minterms :: m <= b || m !! b
  }

  ghost predicate Together(minterms: set<Bdd>, v: Valuation, w: Valuation) {
    exists m :: m in minterms && v in m && w in m
  }

  ghost predicate Agree(sources: set<Bdd>, v: Valuation, w: Valuation) {
    forall b <- sources :: v in b <==> w in b
  }

  /** Two valuations are in one minterm just if no source tells them apart. */
  ghost predicate Separated(vars: set<string>, minterms: set<Bdd>, sources: set<Bdd>) {
    forall v: Valuation, w: Valuation | v <= vars && w <= vars :: Together(minterms, v, w) <==> Agree(sources, v, w)
  }

  lemma SameMinterm(vars: set<string>, minterms: set<Bdd>, m: Bdd, v: Valuation, w: Valuation)
    requires IsPartition(vars, minterms) && m in minterms && v in m
    ensures w in m <==> Together(minterms, v, w)
  {
  }

  /** So the sources determine the minterms. */
  lemma MintermsUnique(vars: set<string>, ms: set<Bdd>, ns: set<Bdd>, sources: set<Bdd>)
    requires IsPartition(vars, ms) && IsPartition(vars, ns) && Separated(vars, ms, sources) && Separated(vars, ns, sources)
    ensures ms == ns
  {
    forall m | m in ms ensures m in ns { MintermIn(vars, ms, ns, sources, m); }
    forall n | n in ns ensures n in ms { MintermIn(vars, ns, ms, sources, n); }
    hide IsPartition, Separated;
  }

  lemma MintermIn(vars: set<string>, ms: set<Bdd>, ns: set<Bdd>, sources: set<Bdd>, m: Bdd)
    requires IsPartition(vars, ms) && IsPartition(vars, ns) && Separated(vars, ms, sources) && Separated(vars, ns, sources) && m in ms
    ensures m in ns
  {
    hide IsPartition, Separated, Together;
    MintermValuations(vars, ms, m);
    var v :| v in m;
    var n := MintermOf(vars, ns, v);
    MintermValuations(vars, ns, n);
    forall w: Valuation | w <= vars ensures w in m <==> w in n {
      SameMinterm(vars, ms, m, v, w);
      SameMinterm(vars, ns, n, v, w);
      BothTogether(vars, ms, ns, sources, v, w);
    }
    SameElements(vars, m, n);
  }

  lemma BothTogether(vars: set<string>, ms: set<Bdd>, ns: set<Bdd>, sources: set<Bdd>, v: Valuation, w: Valuation)
    requires Separated(vars, ms, sources) && Separated(vars, ns, sources) && v <= vars && w <= vars
    ensures Together(ms, v, w) <==> Together(ns, v, w)
  {
    hide Together, Agree;
  }

  lemma SameElements(vars: set<string>, m: Bdd, n: Bdd)
    requires (forall v <- m :: v <= vars) && (forall v <- n :: v <= vars)
    requires forall v: Valuation | v <= vars :: v in m <==> v in n
    ensures m == n
  {
  }

  lemma MintermValuations(vars: set<string>, ms: set<Bdd>, m: Bdd)
    requires IsPartition(vars, ms) && m in ms
    ensures m != {} && forall v <- m :: v <= vars
  {
    assert m <= One(vars);
    forall v | v in m ensures v <= vars { assert v in One(vars); }
  }

  lemma MintermOf(vars: set<string>, ms: set<Bdd>, v: Valuation) returns (m: Bdd)
    requires IsPartition(vars, ms) && v <= vars
    ensures m in ms && v in m
  {
    assert Covers(ms, v);
    m :| m in ms && v in m;
  }

  /** Split all minterms by `b`. */
  method SplitBy(vars: set<string>, stack: set<Bdd>, b: Bdd) returns (next: set<Bdd>)
    requires IsPartition(vars, stack) && b <= One(vars)
    ensures forall x :: x in next <==> IsPart(vars, stack, b, x)
  {
    next := {};
    var todo := stack;
    while todo != {}
      invariant todo <= stack
      invariant forall x :: x in next <==> IsPart(vars, stack - todo, b, x)
    {
      var minterm :| minterm in todo;
      var b1 := minterm * b;
      if b1 != {} { next := next + {b1}; }
      var b0 := minterm * Negation(vars, b);
      if b0 != {} { next := next + {b0}; }
      assert stack - (todo - {minterm}) == (stack - todo) + {minterm};
      todo := todo - {minterm};
    }
    assert stack - todo == stack;
  }

  ghost predicate IsPart(vars: set<string>, stack: set<Bdd>, b: Bdd, x: Bdd) {
    x != {} && exists m :: m in stack && (x == m * b || x == m * Negation(vars, b))
  }

  lemma SplitPartition(vars: set<string>, stack: set<Bdd>, b: Bdd, next: set<Bdd>)
    requires IsPartition(vars, stack) && b <= One(vars) && forall x :: x in next <==> IsPart(vars, stack, b, x)
    ensures IsPartition(vars, next) && Respects(next, b)
  {
    forall v: Valuation | v <= vars ensures Covers(next, v) {
      assert Covers(stack, v);
      var m :| m in stack && v in m;
      var x := if v in b then m * b else m * Negation(vars, b);
      assert v in x && IsPart(vars, stack, b, x);
    }
    forall x, y | x in next && y in next && x != y ensures x !! y {
      assert IsPart(vars, stack, b, x) && IsPart(vars, stack, b, y);
      PartsDisjoint(vars, stack, b, x, y);
    }
    forall x | x in next ensures x <= b || x !! b {
      assert IsPart(vars, stack, b, x);
    }
    forall x | x in next ensures x != {} && x <= One(vars) {
      assert IsPart(vars, stack, b, x);
    }
  }

  lemma PartsDisjoint(vars: set<string>, stack: set<Bdd>, b: Bdd, x: Bdd, y: Bdd)
    requires IsPartition(vars, stack) && IsPart(vars, stack, b, x) && IsPart(vars, stack, b, y) && x != y
    ensures x !! y
  {
    var m :| m in stack && (x == m * b || x == m * Negation(vars, b));
    var n :| n in stack && (y == n * b || y == n * Negation(vars, b));
    assert m != n ==> m !! n;
    assert b !! Negation(vars, b);
  }

  /** Splitting keeps what was respected. */
  lemma SplitRespects(vars: set<string>, stack: set<Bdd>, b: Bdd, next: set<Bdd>, c: Bdd)
    requires (forall x :: x in next <==> IsPart(vars, stack, b, x)) && Respects(stack, c)
    ensures Respects(next, c)
  {
    forall x | x in next ensures x <= c || x !! c {
      assert IsPart(vars, stack, b, x);
      var m :| m in stack && (x == m * b || x == m * Negation(vars, b));
      assert x <= m;
    }
  }

  /** Splitting by `b` separates what `b` tells apart, and nothing else. */
  lemma SplitSeparates(vars: set<string>, stack: set<Bdd>, b: Bdd, next: set<Bdd>, sources: set<Bdd>)
    requires IsPartition(vars, stack) && b <= One(vars) && (forall x :: x in next <==> IsPart(vars, stack, b, x))
    requires Separated(vars, stack, sources)
    ensures Separated(vars, next, sources + {b})
  {
    forall v: Valuation, w: Valuation | v <= vars && w <= vars
      ensures Together(next, v, w) <==> Agree(sources + {b}, v, w)
    {
      if Together(next, v, w) { PartTogether(vars, stack, b, next, v, w); }
      if Together(stack, v, w) && (v in b <==> w in b) { TogetherPart(vars, stack, b, next, v, w); }
      AgreeMore(sources, b, v, w);
      hide Together, Agree, IsPart, IsPartition;
    }
  }

  lemma AgreeMore(sources: set<Bdd>, b: Bdd, v: Valuation, w: Valuation)
    ensures Agree(sources + {b}, v, w) <==> Agree(sources, v, w) && (v in b <==> w in b)
  {
    assert b in sources + {b};
  }

  lemma PartTogether(vars: set<string>, stack: set<Bdd>, b: Bdd, next: set<Bdd>, v: Valuation, w: Valuation)
    requires (forall x :: x in next <==> IsPart(vars, stack, b, x)) && Together(next, v, w)
    ensures Together(stack, v, w) && (v in b <==> w in b)
  {
    var x :| x in next && v in x && w in x;
    assert IsPart(vars, stack, b, x);
    var m :| m in stack && (x == m * b || x == m * Negation(vars, b));
    assert v in m && w in m;
  }

  lemma TogetherPart(vars: set<string>, stack: set<Bdd>, b: Bdd, next: set<Bdd>, v: Valuation, w: Valuation)
    requires (forall x :: x in next <==> IsPart(vars, stack, b, x)) && Together(stack, v, w) && (v in b <==> w in b)
    requires v <= vars && w <= vars
    ensures Together(next, v, w)
  {
    var m :| m in stack && v in m && w in m;
    var x := if v in b then m * b else m * Negation(vars, b);
    assert v in x && w in x && IsPart(vars, stack, b, x);
  }

  /** `compute_minterms` */
  method ComputeMinterms(vars: set<string>, sources: set<Bdd>) returns (minterms: set<Bdd>)
    requires forall b <- sources :: b <= One(vars)
    ensures IsPartition(vars, minterms)
    ensures forall b <- sources :: Respects(minterms, b)
    ensures Separated(vars, minterms, sources)
  {
    minterms := {One(vars)};
    OneIsPartition(vars);
    hide IsPartition, Respects, IsPart, One, Separated;
    var todo := sources;
    assert sources - todo == {};
    while todo != {}
      invariant todo <= sources && IsPartition(vars, minterms)
      invariant forall b <- sources - todo :: Respects(minterms, b)
      invariant Separated(vars, minterms, sources - todo)
    {
      var b :| b in todo;
      var next := SplitBy(vars, minterms, b);
      SplitPartition(vars, minterms, b, next);
      forall c | c in sources - todo ensures Respects(next, c) { SplitRespects(vars, minterms, b, next, c); }
      SplitSeparates(vars, minterms, b, next, sources - todo);
      assert sources - todo + {b} == sources - (todo - {b});
      minterms := next;
      todo := todo - {b};
    }
    assert sources - todo == sources;
  }

  lemma OneIsPartition(vars: set<string>)
    ensures IsPartition(vars, {One(vars)}) && Separated(vars, {One(vars)}, {})
  {
    assert {} in One(vars);
    assert One(vars) in {One(vars)};
    forall v: Valuation | v <= vars ensures Covers({One(vars)}, v) {
      assert One(vars) in {One(vars)} && v in One(vars);
    }
  }

  // ---------- Automata ----------

  datatype LabelledTransition = LabelledTransition(source: State, formula: Graph, target: State)

  /** An automaton over valuations: formulae on the transitions */
  datatype Symbolic = Symbolic(initial: StateSet, final: StateSet, transitions: seq<LabelledTransition>)

  /** An automaton over the numbers of minterms */
  datatype Explicit = Explicit(initial: StateSet, final: StateSet, transitions: seq<Transition>)

  ghost predicate SymbolicStep(S: Symbolic, q: State, v: Valuation, p: State) {
    exists i :: 0 <= i < |S.transitions| && S.transitions[i].source == q && S.transitions[i].target == p && Satisfies(v, S.transitions[i].formula)
  }

  ghost predicate SymbolicFrom(S: Symbolic, q: State, vs: seq<Valuation>)
    decreases |vs|
  {
    if vs == [] then q in S.final
    else exists p: State :: SymbolicStep(S, q, vs[0], p) && SymbolicFrom(S, p, vs[1..])
  }

  ghost predicate SymbolicAccepts(S: Symbolic, vs: seq<Valuation>) {
    exists q: State :: q in S.initial && SymbolicFrom(S, q, vs)
  }

  ghost predicate ExplicitStep(E: Explicit, q: State, k: Symbol, p: State) {
    Transition(q, k, p) in E.transitions
  }

  ghost predicate ExplicitFrom(E: Explicit, q: State, ids: Word)
    decreases |ids|
  {
    if ids == [] then q in E.final
    else exists p: State :: ExplicitStep(E, q, ids[0], p) && ExplicitFrom(E, p, ids[1..])
  }

  ghost predicate ExplicitAccepts(E: Explicit, ids: Word) {
    exists q: State :: q in E.initial && ExplicitFrom(E, q, ids)
  }

  ghost predicate FormulaeOver(vars: set<string>, S: Symbolic) {
    forall i | 0 <= i < |S.transitions| :: Proper(S.transitions[i].formula) && Names(S.transitions[i].formula) <= vars
  }

  /** The minterms, in the order of their numbers */
  ghost predicate Numbered(vars: set<string>, ms: seq<Bdd>) {
    IsPartition(vars, Elements(ms)) && Distinct(ms)
  }

  /** Some transition from `q` to `p` has a formula that meets the minterm `m`. */
  ghost predicate Meets(vars: set<string>, S: Symbolic, q: State, m: Bdd, p: State) {
    exists i :: 0 <= i < |S.transitions| && S.transitions[i].source == q && S.transitions[i].target == p
      && Meaning(vars, S.transitions[i].formula) * m != {}
  }

  /** `E` is `S` with every transition replaced by one for each minterm its formula meets. */
  ghost predicate IsMintermized(vars: set<string>, S: Symbolic, ms: seq<Bdd>, E: Explicit) {
    && E.initial == S.initial && E.final == S.final
    && (forall q: State, k: Symbol, p: State :: ExplicitStep(E, q, k, p) <==> k < |ms| && Meets(vars, S, q, ms[k], p))
  }

  ghost predicate RespectsAll(vars: set<string>, S: Symbolic, ms: seq<Bdd>) {
    forall i, k | 0 <= i < |S.transitions| && 0 <= k < |ms| ::
      var b := Meaning(vars, S.transitions[i].formula); ms[k] <= b || ms[k] !! b
  }

  /** The word of minterm numbers of a word of valuations */
  ghost predicate NumbersOf(ms: seq<Bdd>, vs: seq<Valuation>, ids: Word) {
    |vs| == |ids| && forall i | 0 <= i < |vs| :: ids[i] < |ms| && vs[i] in ms[ids[i]]
  }

  lemma StepsCorrespond(vars: set<string>, S: Symbolic, ms: seq<Bdd>, E: Explicit, q: State, v: Valuation, k: Symbol, p: State)
    requires IsMintermized(vars, S, ms, E) && RespectsAll(vars, S, ms) && v <= vars && k < |ms| && v in ms[k]
    ensures SymbolicStep(S, q, v, p) <==> ExplicitStep(E, q, k, p)
  {
    forall i | 0 <= i < |S.transitions| ensures Satisfies(v, S.transitions[i].formula) <==> Meaning(vars, S.transitions[i].formula) * ms[k] != {} {
      var b := Meaning(vars, S.transitions[i].formula);
      assert v in b <==> Satisfies(v, S.transitions[i].formula);
      assert ms[k] <= b || ms[k] !! b;
      assert v in b ==> v in b * ms[k];
    }
    hide Satisfies, Meaning;
  }

  /** A word of valuations is accepted just if its word of minterm numbers is. */
  lemma {:induction false} MintermizedFrom(vars: set<string>, S: Symbolic, ms: seq<Bdd>, E: Explicit, q: State, vs: seq<Valuation>, ids: Word)
    requires IsMintermized(vars, S, ms, E) && RespectsAll(vars, S, ms)
    requires (forall v <- vs :: v <= vars) && NumbersOf(ms, vs, ids)
    ensures SymbolicFrom(S, q, vs) <==> ExplicitFrom(E, q, ids)
    decreases |vs|
  {
    if vs != [] {
      assert NumbersOf(ms, vs[1..], ids[1..]);
      forall p: State ensures SymbolicStep(S, q, vs[0], p) <==> ExplicitStep(E, q, ids[0], p) {
        StepsCorrespond(vars, S, ms, E, q, vs[0], ids[0], p);
      }
      forall p: State ensures SymbolicFrom(S, p, vs[1..]) <==> ExplicitFrom(E, p, ids[1..]) {
        MintermizedFrom(vars, S, ms, E, p, vs[1..], ids[1..]);
      }
      hide IsMintermized, RespectsAll, SymbolicStep, ExplicitStep;
    }
  }

  lemma MintermizedAccepts(vars: set<string>, S: Symbolic, ms: seq<Bdd>, E: Explicit, vs: seq<Valuation>, ids: Word)
    requires IsMintermized(vars, S, ms, E) && RespectsAll(vars, S, ms)
    requires (forall v <- vs :: v <= vars) && NumbersOf(ms, vs, ids)
    ensures SymbolicAccepts(S, vs) <==> ExplicitAccepts(E, ids)
  {
    forall q: State ensures SymbolicFrom(S, q, vs) <==> ExplicitFrom(E, q, ids) {
      MintermizedFrom(vars, S, ms, E, q, vs, ids);
    }
    hide SymbolicFrom, ExplicitFrom, RespectsAll;
  }

  lemma {:induction false} NumberWord(vars: set<string>, ms: seq<Bdd>, vs: seq<Valuation>) returns (ids: Word)
    requires Numbered(vars, ms) && forall v <- vs :: v <= vars
    ensures NumbersOf(ms, vs, ids)
  {
    ids := [];
    if vs != [] {
      assert Covers(Elements(ms), vs[0]);
      var m :| m in ms && vs[0] in m;
      var k :| 0 <= k < |ms| && ms[k] == m;
      var rest := NumberWord(vars, ms, vs[1..]);
      ids := [k] + rest;
    }
  }

  lemma {:induction false} WordOfNumbers(vars: set<string>, ms: seq<Bdd>, ids: Word) returns (vs: seq<Valuation>)
    requires Numbered(vars, ms) && forall k <- ids :: k < |ms|
    ensures NumbersOf(ms, vs, ids) && forall v <- vs :: v <= vars
  {
    vs := [];
    if ids != [] {
      assert ids[0] in ids;
      forall k | k in ids[1..] ensures k < |ms| { assert k in ids; }
      assert ms[ids[0]] in Elements(ms);
      var v :| v in ms[ids[0]];
      var rest := WordOfNumbers(vars, ms, ids[1..]);
      vs := [v] + rest;
    }
  }

  lemma {:induction false} ExplicitNumbers(vars: set<string>, S: Symbolic, ms: seq<Bdd>, E: Explicit, q: State, ids: Word)
    requires IsMintermized(vars, S, ms, E) && ExplicitFrom(E, q, ids)
    ensures forall k <- ids :: k < |ms|
    decreases |ids|
  {
    if ids != [] {
      var p: State :| ExplicitStep(E, q, ids[0], p) && ExplicitFrom(E, p, ids[1..]);
      ExplicitNumbers(vars, S, ms, E, p, ids[1..]);
      assert ids == [ids[0]] + ids[1..];
    }
  }

  ghost predicate SymbolicIncluded(vars: set<string>, S: Symbolic, S': Symbolic) {
    forall vs: seq<Valuation> | OverVars(vars, vs) :: SymbolicAccepts(S, vs) ==> SymbolicAccepts(S', vs)
  }

  ghost predicate OverVars(vars: set<string>, vs: seq<Valuation>) {
    forall v <- vs :: v <= vars
  }

  ghost predicate ExplicitIncluded(E: Explicit, E': Explicit) {
    forall ids: Word :: ExplicitAccepts(E, ids) ==> ExplicitAccepts(E', ids)
  }

  /** Automata mintermized together are included just if the originals are. */
  lemma InclusionPreserved(vars: set<string>, S: Symbolic, S': Symbolic, ms: seq<Bdd>, E: Explicit, E': Explicit)
    requires Numbered(vars, ms) && IsMintermized(vars, S, ms, E) && IsMintermized(vars, S', ms, E')
    requires RespectsAll(vars, S, ms) && RespectsAll(vars, S', ms)
    ensures SymbolicIncluded(vars, S, S') <==> ExplicitIncluded(E, E')
  {
    hide IsPartition, IsMintermized, RespectsAll, SymbolicFrom, ExplicitFrom, Numbered;
    if SymbolicIncluded(vars, S, S') {
      forall ids: Word | ExplicitAccepts(E, ids) ensures ExplicitAccepts(E', ids) {
        var q: State :| q in E.initial && ExplicitFrom(E, q, ids);
        ExplicitNumbers(vars, S, ms, E, q, ids);
        var vs := WordOfNumbers(vars, ms, ids);
        MintermizedAccepts(vars, S, ms, E, vs, ids);
        MintermizedAccepts(vars, S', ms, E', vs, ids);
        assert OverVars(vars, vs);
      }
    }
    if ExplicitIncluded(E, E') {
      forall vs: seq<Valuation> | OverVars(vars, vs) && SymbolicAccepts(S, vs) ensures SymbolicAccepts(S', vs) {
        var ids := NumberWord(vars, ms, vs);
        MintermizedAccepts(vars, S, ms, E, vs, ids);
        MintermizedAccepts(vars, S', ms, E', vs, ids);
      }
    }
  }

  // ---------- The construction ----------

  /** `trans_to_bddvar_` of one automaton: the meanings of its satisfiable formulae */
  type Labels = map<nat, Bdd>

  ghost predicate LabelsOf(vars: set<string>, S: Symbolic, n: nat, labels: Labels) {
    && (forall i: nat | i < n && i < |S.transitions| && Meaning(vars, S.transitions[i].formula) != {} :: i in labels)
    && (forall i <- labels :: i < n && i < |S.transitions| && labels[i] == Meaning(vars, S.transitions[i].formula))
  }

  /** `trans_to_bdd_nfa` */
  method TransToBdd(vars: set<string>, S: Symbolic, memo0: Memo, bdds0: set<Bdd>) returns (memo: Memo, bdds: set<Bdd>, labels: Labels)
    requires FormulaeOver(vars, S) && Remembers(vars, memo0)
    ensures Remembers(vars, memo) && LabelsOf(vars, S, |S.transitions|, labels)
    ensures bdds == bdds0 + labels.Values
  {
    hide Meaning, Proper, Names;
    memo, bdds, labels := memo0, bdds0, map[];
    for i := 0 to |S.transitions|
      invariant Remembers(vars, memo) && LabelsOf(vars, S, i, labels) && bdds == bdds0 + labels.Values
    {
      var bdd;
      bdd, memo := GraphToBdd(vars, S.transitions[i].formula, memo);
      if bdd != {} {
        assert i !in labels;
        AddValue(labels, i, bdd);
        bdds := bdds + {bdd};
        labels := labels[i := bdd];
      }
    }
  }

  lemma AddValue(labels: Labels, i: nat, b: Bdd)
    requires i !in labels
    ensures labels[i := b].Values == labels.Values + {b}
  {
    var labels' := labels[i := b];
    forall x | x in labels.Values ensures x in labels'.Values {
      var j :| j in labels && labels[j] == x;
      assert labels'[j] == x;
    }
    assert labels'[i] == b;
  }

  /** `minterms_to_aut_nfa`: the minterms are numbered in the order in which they are gone through. */
  method MintermsToAut(vars: set<string>, S: Symbolic, labels: Labels, ms: seq<Bdd>) returns (E: Explicit)
    requires LabelsOf(vars, S, |S.transitions|, labels)
    ensures IsMintermized(vars, S, ms, E)
  {
    hide Meaning;
    var transitions: seq<Transition> := [];
    for i := 0 to |S.transitions|
      invariant forall q: State, k: Symbol, p: State :: Transition(q, k, p) in transitions <==> k < |ms| && MeetsBefore(vars, S, i, q, ms[k], p)
    {
      var t := S.transitions[i];
      if i in labels {
        ghost var before := transitions;
        for symbol := 0 to |ms|
          invariant forall q: State, k: Symbol, p: State :: Transition(q, k, p) in transitions <==>
                      Transition(q, k, p) in before || (q == t.source && p == t.target && k < symbol && labels[i] * ms[k] != {})
        {
          if labels[i] * ms[symbol] != {} {
            transitions := transitions + [Transition(t.source, symbol, t.target)];
          }
        }
      }
    }
    E := Explicit(S.initial, S.final, transitions);
  }

  ghost predicate MeetsBefore(vars: set<string>, S: Symbolic, n: nat, q: State, m: Bdd, p: State) {
    exists i :: 0 <= i < n && i < |S.transitions| && S.transitions[i].source == q && S.transitions[i].target == p
      && Meaning(vars, S.transitions[i].formula) * m != {}
  }

  /** The minterms in some order, which all automata share */
  method ListMinterms(minterms: set<Bdd>) returns (ms: seq<Bdd>)
    ensures Elements(ms) == minterms && Distinct(ms)
  {
    ms := [];
    var todo := minterms;
    while todo != {}
      invariant todo <= minterms && Elements(ms) == minterms - todo && Distinct(ms)
    {
      var m :| m in todo;
      assert m !in Elements(ms);
      DistinctSnoc(ms, m);
      assert Elements(ms + [m]) == Elements(ms) + {m};
      ms := ms + [m];
      todo := todo - {m};
    }
  }

  /** All formulae of the automata have the same value under both valuations. */
  ghost predicate SameValues(auts: seq<Symbolic>, v: Valuation, w: Valuation) {
    forall k | 0 <= k < |auts| :: SameValuesIn(auts[k], v, w)
  }

  ghost predicate SameValuesIn(S: Symbolic, v: Valuation, w: Valuation) {
    forall i | 0 <= i < |S.transitions| :: Satisfies(v, S.transitions[i].formula) <==> Satisfies(w, S.transitions[i].formula)
  }

  lemma LabelsTell(vars: set<string>, S: Symbolic, labels: Labels, v: Valuation, w: Valuation)
    requires LabelsOf(vars, S, |S.transitions|, labels) && v <= vars && w <= vars
    ensures Agree(labels.Values, v, w) <==> SameValuesIn(S, v, w)
  {
    if Agree(labels.Values, v, w) {
      forall i: nat | i < |S.transitions| ensures Satisfies(v, S.transitions[i].formula) <==> Satisfies(w, S.transitions[i].formula) {
        var b := Meaning(vars, S.transitions[i].formula);
        assert i in labels ==> labels[i] in labels.Values;
        assert (v in b <==> Satisfies(v, S.transitions[i].formula)) && (w in b <==> Satisfies(w, S.transitions[i].formula));
      }
    }
    if SameValuesIn(S, v, w) {
      forall b | b in labels.Values ensures v in b <==> w in b {
        var i :| i in labels && labels[i] == b;
      }
    }
    hide Satisfies;
  }

  ghost predicate OfLabels(b: Bdd, allLabels: seq<Labels>) {
    exists k :: 0 <= k < |allLabels| && b in allLabels[k].Values
  }

  lemma NothingLabelled()
    ensures forall b :: !OfLabels(b, [])
  {
  }

  lemma OfLabelsSnoc(b: Bdd, allLabels: seq<Labels>, labels: Labels)
    ensures OfLabels(b, allLabels + [labels]) <==> OfLabels(b, allLabels) || b in labels.Values
  {
    var more := allLabels + [labels];
    if OfLabels(b, allLabels) {
      var k :| 0 <= k < |allLabels| && b in allLabels[k].Values;
      assert more[k] == allLabels[k];
    }
    assert more[|allLabels|] == labels;
  }

  lemma AllLabelsTell(vars: set<string>, auts: seq<Symbolic>, allLabels: seq<Labels>, bdds: set<Bdd>, v: Valuation, w: Valuation)
    requires |allLabels| == |auts| && (forall k | 0 <= k < |auts| :: LabelsOf(vars, auts[k], |auts[k].transitions|, allLabels[k]))
    requires (forall b :: b in bdds <==> OfLabels(b, allLabels)) && v <= vars && w <= vars
    ensures Agree(bdds, v, w) <==> SameValues(auts, v, w)
  {
    forall k | 0 <= k < |auts| ensures Agree(allLabels[k].Values, v, w) <==> SameValuesIn(auts[k], v, w) {
      LabelsTell(vars, auts[k], allLabels[k], v, w);
    }
    hide SameValuesIn, LabelsOf;
    if Agree(bdds, v, w) {
      forall k | 0 <= k < |auts| ensures Agree(allLabels[k].Values, v, w) {
        forall b | b in allLabels[k].Values ensures v in b <==> w in b { assert OfLabels(b, allLabels); }
      }
    }
    if SameValues(auts, v, w) {
      forall b | b in bdds ensures v in b <==> w in b {
        var k :| 0 <= k < |allLabels| && b in allLabels[k].Values;
        assert Agree(allLabels[k].Values, v, w);
      }
    }
  }

  /** `mintermize`: all automata get the same minterms, as coarse as their formulae allow. */
  method Mintermize(vars: set<string>, auts: seq<Symbolic>) returns (res: seq<Explicit>, ghost ms: seq<Bdd>)
    requires forall S <- auts :: FormulaeOver(vars, S)
    ensures Numbered(vars, ms) && |res| == |auts|
    ensures forall k | 0 <= k < |auts| :: IsMintermized(vars, auts[k], ms, res[k]) && RespectsAll(vars, auts[k], ms)
    ensures forall j, k | 0 <= j < |auts| && 0 <= k < |auts| ::
              SymbolicIncluded(vars, auts[j], auts[k]) <==> ExplicitIncluded(res[j], res[k])
    ensures forall v: Valuation, w: Valuation | v <= vars && w <= vars :: Together(Elements(ms), v, w) <==> SameValues(auts, v, w)
  {
    hide IsMintermized, RespectsAll, IsPartition, Respects, LabelsOf, FormulaeOver, Remembers, SymbolicIncluded, ExplicitIncluded, One,
      Together, Agree, SameValues, OfLabels;
    var memo: Memo := map[];
    assert Remembers(vars, memo) by { NothingRemembered(vars); }
    var bdds: set<Bdd> := {};
    var allLabels: seq<Labels> := [];
    NothingLabelled();
    for k := 0 to |auts|
      invariant Remembers(vars, memo) && |allLabels| == k
      invariant forall j | 0 <= j < k :: LabelsOf(vars, auts[j], |auts[j].transitions|, allLabels[j]) && allLabels[j].Values <= bdds
      invariant forall b <- bdds :: b <= One(vars)
      invariant forall b :: b in bdds <==> OfLabels(b, allLabels)
    {
      var labels;
      memo, bdds, labels := TransToBdd(vars, auts[k], memo, bdds);
      LabelsInOne(vars, auts[k], labels);
      forall b ensures OfLabels(b, allLabels + [labels]) <==> OfLabels(b, allLabels) || b in labels.Values {
        OfLabelsSnoc(b, allLabels, labels);
      }
      allLabels := allLabels + [labels];
    }
    var minterms := ComputeMinterms(vars, bdds);
    var list := ListMinterms(minterms);
    ms := list;
    res := [];
    for k := 0 to |auts|
      invariant |res| == k
      invariant forall j | 0 <= j < k :: IsMintermized(vars, auts[j], ms, res[j]) && RespectsAll(vars, auts[j], ms)
    {
      var E := MintermsToAut(vars, auts[k], allLabels[k], list);
      LabelsRespected(vars, auts[k], allLabels[k], minterms, ms);
      res := res + [E];
    }
    forall j, k | 0 <= j < |auts| && 0 <= k < |auts|
      ensures SymbolicIncluded(vars, auts[j], auts[k]) <==> ExplicitIncluded(res[j], res[k])
    {
      InclusionPreserved(vars, auts[j], auts[k], ms, res[j], res[k]);
    }
    forall v: Valuation, w: Valuation | v <= vars && w <= vars ensures Together(Elements(ms), v, w) <==> SameValues(auts, v, w) {
      AllLabelsTell(vars, auts, allLabels, bdds, v, w);
    }
  }

  lemma NothingRemembered(vars: set<string>)
    ensures Remembers(vars, map[])
  {
  }

  lemma LabelsInOne(vars: set<string>, S: Symbolic, labels: Labels)
    requires LabelsOf(vars, S, |S.transitions|, labels)
    ensures forall b <- labels.Values :: b <= One(vars)
  {
    forall b | b in labels.Values ensures b <= One(vars) {
      var i :| i in labels && labels[i] == b;
    }
  }

  lemma LabelsRespected(vars: set<string>, S: Symbolic, labels: Labels, minterms: set<Bdd>, ms: seq<Bdd>)
    requires LabelsOf(vars, S, |S.transitions|, labels) && Elements(ms) == minterms
    requires forall b <- labels.Values :: Respects(minterms, b)
    ensures RespectsAll(vars, S, ms)
  {
    forall i, k | 0 <= i < |S.transitions| && 0 <= k < |ms|
      ensures var b := Meaning(vars, S.transitions[i].formula); ms[k] <= b || ms[k] !! b
    {
      var b := Meaning(vars, S.transitions[i].formula);
      assert ms[k] in minterms;
      if b != {} {
        assert labels[i] == b && b in labels.Values;
        assert Respects(minterms, b);
      }
    }
  }
}
