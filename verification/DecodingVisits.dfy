/** The symbol posts that Nfa::decode_utf8 of src/nfa/nfa.cc meets, in the order of its loops, and what is left
    of them when of those with the same code point only the first is kept. */
module DecodingVisits {
  import opened Automata
  import opened Utf8
  import opened ByteAutomata

  // ---------- Order ----------

  /** What the loops meet from `q` on while `k` continuation bytes are left; `high` holds the bits read before,
      and code points below `lo` are skipped. */
  function Visits(A: Nfa, q: State, k: nat, high: nat, lo: nat): StatePost
    requires k > 0
    decreases k, 2, 0
  {
    VisitsOfPosts(A, A.At(q), k, high, lo)
  }

  function VisitsOfPosts(A: Nfa, posts: StatePost, k: nat, high: nat, lo: nat): StatePost
    requires k > 0
    decreases k, 1, |posts|
  {
    if posts == [] then []
    else VisitsOfPosts(A, posts[..|posts| - 1], k, high, lo) + VisitsOfPost(A, posts[|posts| - 1], k, high, lo)
  }

  function VisitsOfPost(A: Nfa, sp: SymbolPost, k: nat, high: nat, lo: nat): StatePost
    requires k > 0
    decreases k, 0, 0
  {
    var symbol := high * 64 + sp.symbol % 64;
    if k > 1 then VisitsOfTargets(A, sp.targets, k - 1, symbol, lo)
    else if lo <= symbol < 0x11_0000 then [SymbolPost(symbol, sp.targets)] else []
  }

  function VisitsOfTargets(A: Nfa, targets: seq<State>, k: nat, high: nat, lo: nat): StatePost
    requires k > 0
    decreases k, 3, |targets|
  {
    if targets == [] then []
    else VisitsOfTargets(A, targets[..|targets| - 1], k, high, lo) + Visits(A, targets[|targets| - 1], k, high, lo)
  }

  /** What they meet for a first byte, and for the posts of a state in which code points begin */
  function VisitsOfFirst(A: Nfa, sp: SymbolPost): StatePost {
    if Marks1(sp.symbol) then [sp]
    else VisitsOfTargets(A, sp.targets, Follow(sp.symbol), HighBits(sp.symbol), Lowest(Follow(sp.symbol)))
  }

  function VisitsOfFirsts(A: Nfa, posts: StatePost): StatePost {
    if posts == [] then [] else VisitsOfFirsts(A, posts[..|posts| - 1]) + VisitsOfFirst(A, posts[|posts| - 1])
  }

  function StateVisits(A: Nfa, q: State): StatePost {
    VisitsOfFirsts(A, A.At(q))
  }

  lemma PostsSnoc(A: Nfa, posts: StatePost, i: nat, k: nat, high: nat, lo: nat)
    requires k > 0 && i < |posts|
    ensures VisitsOfPosts(A, posts[..i + 1], k, high, lo) == VisitsOfPosts(A, posts[..i], k, high, lo) + VisitsOfPost(A, posts[i], k, high, lo)
  {
    assert posts[..i + 1][..i] == posts[..i];
  }

  lemma TargetsSnoc(A: Nfa, targets: seq<State>, i: nat, k: nat, high: nat, lo: nat)
    requires k > 0 && i < |targets|
    ensures VisitsOfTargets(A, targets[..i + 1], k, high, lo) == VisitsOfTargets(A, targets[..i], k, high, lo) + Visits(A, targets[i], k, high, lo)
  {
    assert targets[..i + 1][..i] == targets[..i];
  }

  lemma FirstsSnoc(A: Nfa, posts: StatePost, i: nat)
    requires i < |posts|
    ensures VisitsOfFirsts(A, posts[..i + 1]) == VisitsOfFirsts(A, posts[..i]) + VisitsOfFirst(A, posts[i])
  {
    assert posts[..i + 1][..i] == posts[..i];
  }

  // ---------- Where a visit comes from ----------

  lemma {:induction false} VisitOfPosts(A: Nfa, posts: StatePost, k: nat, high: nat, lo: nat, x: SymbolPost)
    requires k > 0
    ensures x in VisitsOfPosts(A, posts, k, high, lo) <==> exists sp :: sp in posts && x in VisitsOfPost(A, sp, k, high, lo)
    decreases |posts|
  {
    if posts != [] {
      var init, last := posts[..|posts| - 1], posts[|posts| - 1];
      VisitOfPosts(A, init, k, high, lo, x);
      assert VisitsOfPosts(A, posts, k, high, lo) == VisitsOfPosts(A, init, k, high, lo) + VisitsOfPost(A, last, k, high, lo);
      hide VisitsOfPost, VisitsOfPosts;
      assert posts == init + [last];
    }
  }

  lemma {:induction false} VisitOfTargets(A: Nfa, targets: seq<State>, k: nat, high: nat, lo: nat, x: SymbolPost)
    requires k > 0
    ensures x in VisitsOfTargets(A, targets, k, high, lo) <==> exists t: State :: t in targets && x in Visits(A, t, k, high, lo)
    decreases |targets|
  {
    if targets != [] {
      var init, last := targets[..|targets| - 1], targets[|targets| - 1];
      VisitOfTargets(A, init, k, high, lo, x);
      assert VisitsOfTargets(A, targets, k, high, lo) == VisitsOfTargets(A, init, k, high, lo) + Visits(A, last, k, high, lo);
      hide Visits, VisitsOfTargets;
      assert targets == init + [last];
    }
  }

  lemma {:induction false} VisitOfFirsts(A: Nfa, posts: StatePost, x: SymbolPost)
    ensures x in VisitsOfFirsts(A, posts) <==> exists sp :: sp in posts && x in VisitsOfFirst(A, sp)
    decreases |posts|
  {
    hide VisitsOfFirst;
    if posts != [] {
      VisitOfFirsts(A, posts[..|posts| - 1], x);
      assert posts == posts[..|posts| - 1] + [posts[|posts| - 1]];
    }
  }

  // ---------- What the visits decode ----------

  /** Code points in the checked range that the bytes from `q` on give */
  ghost predicate InTail(A: Nfa, q: State, k: nat, high: nat, lo: nat, c: Symbol, p: State) {
    lo <= c < 0x11_0000 && Decodes(A, q, k, high, c, p)
  }

  lemma StepByPost(A: Nfa, q: State, sp: SymbolPost, p: State)
    requires sp in A.At(q) && p in sp.targets
    ensures Step(A, q, sp.symbol, p)
  {
  }

  lemma PostOfStep(A: Nfa, q: State, b: Symbol, p: State) returns (sp: SymbolPost)
    requires Step(A, q, b, p)
    ensures sp in A.At(q) && sp.symbol == b && p in sp.targets
  {
    var i :| 0 <= i < |A.At(q)| && A.At(q)[i].symbol == b && p in A.At(q)[i].targets;
    sp := A.At(q)[i];
  }

  lemma InPostElement(post: StatePost, c: Symbol, p: State) returns (x: SymbolPost)
    requires InPost(post, c, p)
    ensures x in post && x.symbol == c && p in x.targets
  {
    var i :| 0 <= i < |post| && post[i].symbol == c && p in post[i].targets;
    x := post[i];
  }

  lemma ElementInPost(post: StatePost, x: SymbolPost, p: State)
    requires x in post && p in x.targets
    ensures InPost(post, x.symbol, p)
  {
  }

  lemma DecodesStep(A: Nfa, q: State, k: nat, high: nat, c: Symbol, p: State, b: Symbol, r: State)
    requires k > 0 && Step(A, q, b, r) && Decodes(A, r, k - 1, high * 64 + b % 64, c, p)
    ensures Decodes(A, q, k, high, c, p)
  {
  }

  /** A visit from `q` comes by a post of `q`. */
  lemma VisitByPost(A: Nfa, q: State, k: nat, high: nat, lo: nat, x: SymbolPost) returns (sp: SymbolPost)
    requires k > 0 && x in Visits(A, q, k, high, lo)
    ensures sp in A.At(q) && x in VisitsOfPost(A, sp, k, high, lo)
  {
    VisitOfPosts(A, A.At(q), k, high, lo, x);
    sp :| sp in A.At(q) && x in VisitsOfPost(A, sp, k, high, lo);
  }

  /** ... and, before the last byte, by a target of that post. */
  lemma VisitByTarget(A: Nfa, sp: SymbolPost, k: nat, high: nat, lo: nat, x: SymbolPost) returns (t: State)
    requires k > 1 && x in VisitsOfPost(A, sp, k, high, lo)
    ensures t in sp.targets && x in Visits(A, t, k - 1, high * 64 + sp.symbol % 64, lo)
  {
    var symbol := high * 64 + sp.symbol % 64;
    VisitOfTargets(A, sp.targets, k - 1, symbol, lo, x);
    t :| t in sp.targets && x in Visits(A, t, k - 1, symbol, lo);
  }

  lemma VisitOfLast(A: Nfa, sp: SymbolPost, high: nat, lo: nat, x: SymbolPost)
    requires x in VisitsOfPost(A, sp, 1, high, lo)
    ensures x == SymbolPost(high * 64 + sp.symbol % 64, sp.targets) && lo <= x.symbol < 0x11_0000
  {
  }

  lemma {:induction false} VisitDecodes(A: Nfa, q: State, k: nat, high: nat, lo: nat, x: SymbolPost, p: State)
    requires k > 0 && x in Visits(A, q, k, high, lo) && p in x.targets
    ensures InTail(A, q, k, high, lo, x.symbol, p)
    decreases k
  {
    hide Visits, VisitsOfPost, VisitsOfPosts, VisitsOfTargets, Step;
    var sp := VisitByPost(A, q, k, high, lo, x);
    var symbol := high * 64 + sp.symbol % 64;
    if k > 1 {
      var t := VisitByTarget(A, sp, k, high, lo, x);
      VisitDecodes(A, t, k - 1, symbol, lo, x, p);
      StepByPost(A, q, sp, t);
      DecodesStep(A, q, k, high, x.symbol, p, sp.symbol, t);
    } else {
      VisitOfLast(A, sp, high, lo, x);
      StepByPost(A, q, sp, p);
      assert Decodes(A, p, 0, symbol, x.symbol, p);
      DecodesStep(A, q, k, high, x.symbol, p, sp.symbol, p);
    }
  }

  lemma {:induction false} DecodedVisited(A: Nfa, q: State, k: nat, high: nat, lo: nat, c: Symbol, p: State) returns (x: SymbolPost)
    requires k > 0 && InTail(A, q, k, high, lo, c, p)
    ensures x in Visits(A, q, k, high, lo) && x.symbol == c && p in x.targets
    decreases k
  {
    var b: Symbol, r: State :| Step(A, q, b, r) && Decodes(A, r, k - 1, high * 64 + b % 64, c, p);
    var sp := PostOfStep(A, q, b, r);
    var symbol := high * 64 + b % 64;
    if k > 1 {
      hide Step;
      x := DecodedVisited(A, r, k - 1, symbol, lo, c, p);
      VisitOfTargets(A, sp.targets, k - 1, symbol, lo, x);
      assert x in VisitsOfPost(A, sp, k, high, lo);
    } else {
      x := SymbolPost(symbol, sp.targets);
      assert x in VisitsOfPost(A, sp, k, high, lo);
    }
    VisitOfPosts(A, A.At(q), k, high, lo, x);
  }

  /** The visits from a state decode what `DecodedBy` says. */
  lemma StateVisitsDecode(A: Nfa, q: State, c: Symbol, p: State)
    ensures InPost(StateVisits(A, q), c, p) <==> DecodedBy(A, q, c, p)
  {
    hide Visits, VisitsOfPost, VisitsOfPosts, VisitsOfTargets, Step, FromFirst, InPost;
    if InPost(StateVisits(A, q), c, p) {
      var x := InPostElement(StateVisits(A, q), c, p);
      VisitOfFirsts(A, A.At(q), x);
      var sp :| sp in A.At(q) && x in VisitsOfFirst(A, sp);
      var r := VisitFromFirst(A, sp, x, p);
      StepByPost(A, q, sp, r);
    }
    if DecodedBy(A, q, c, p) {
      var b: Symbol, r: State :| Step(A, q, b, r) && FromFirst(A, b, r, c, p);
      var sp := PostOfStep(A, q, b, r);
      var x := FirstVisited(A, sp, r, c, p);
      VisitOfFirsts(A, A.At(q), x);
      ElementInPost(StateVisits(A, q), x, p);
    }
  }

  lemma VisitFromFirst(A: Nfa, sp: SymbolPost, x: SymbolPost, p: State) returns (r: State)
    requires x in VisitsOfFirst(A, sp) && p in x.targets
    ensures r in sp.targets && FromFirst(A, sp.symbol, r, x.symbol, p)
    ensures !Marks1(sp.symbol) ==> x in Visits(A, r, Follow(sp.symbol), HighBits(sp.symbol), Lowest(Follow(sp.symbol)))
    ensures Marks1(sp.symbol) ==> x == sp
  {
    hide Visits, VisitsOfPost, VisitsOfPosts, VisitsOfTargets, Decodes, HighBits, Lowest;
    var b := sp.symbol;
    if Marks1(b) {
      r := p;
    } else {
      VisitOfTargets(A, sp.targets, Follow(b), HighBits(b), Lowest(Follow(b)), x);
      r :| r in sp.targets && x in Visits(A, r, Follow(b), HighBits(b), Lowest(Follow(b)));
      VisitDecodes(A, r, Follow(b), HighBits(b), Lowest(Follow(b)), x, p);
    }
  }

  lemma FirstVisited(A: Nfa, sp: SymbolPost, r: State, c: Symbol, p: State) returns (x: SymbolPost)
    requires r in sp.targets && FromFirst(A, sp.symbol, r, c, p)
    ensures x in VisitsOfFirst(A, sp) && x.symbol == c && p in x.targets
  {
    hide Visits, VisitsOfPost, VisitsOfPosts, VisitsOfTargets, Decodes, HighBits, Lowest;
    var b := sp.symbol;
    if Marks1(b) {
      x := sp;
    } else {
      x := DecodedVisited(A, r, Follow(b), HighBits(b), Lowest(Follow(b)), c, p);
      VisitOfTargets(A, sp.targets, Follow(b), HighBits(b), Lowest(Follow(b)), x);
    }
  }

  /** From a state in which code points begin, the visits are of what the bytes spell. */
  lemma VisitsAreSpelled(A: Nfa, S: StateSet, q: State, c: Symbol, p: State)
    requires WellFormed(A, S) && q in S
    ensures InPost(StateVisits(A, q), c, p) <==> SpellsSymbol(A, q, c, p)
  {
    hide InPost, StateVisits, DecodedBy, SpellsSymbol, WellFormed;
    StateVisitsDecode(A, q, c, p);
    DecodedIsSpelled(A, S, q, c, p);
  }

  // ---------- The first visit of each code point ----------

  /** The targets of the first visit of `c` */
  function FirstTargets(visits: StatePost, c: Symbol): seq<State> {
    if visits == [] then [] else if visits[0].symbol == c then visits[0].targets else FirstTargets(visits[1..], c)
  }

  ghost predicate Targeted(visits: StatePost) {
    forall i | 0 <= i < |visits| :: visits[i].targets != []
  }

  lemma {:induction false} FirstTargetsSnoc(visits: StatePost, x: SymbolPost, c: Symbol)
    requires Targeted(visits)
    ensures FirstTargets(visits + [x], c) == if FirstTargets(visits, c) != [] then FirstTargets(visits, c) else if x.symbol == c then x.targets else []
    decreases |visits|
  {
    if visits != [] {
      assert (visits + [x])[1..] == visits[1..] + [x];
      FirstTargetsSnoc(visits[1..], x, c);
    }
  }

  lemma {:induction false} FirstTargetsVisited(visits: StatePost, c: Symbol) returns (x: SymbolPost)
    requires FirstTargets(visits, c) != []
    ensures x in visits && x.symbol == c && x.targets == FirstTargets(visits, c)
    decreases |visits|
  {
    if visits[0].symbol == c { x := visits[0]; } else { x := FirstTargetsVisited(visits[1..], c); }
  }

  lemma {:induction false} VisitedHasFirst(visits: StatePost, x: SymbolPost)
    requires x in visits && Targeted(visits)
    ensures FirstTargets(visits, x.symbol) != []
    decreases |visits|
  {
    if visits[0].symbol != x.symbol { VisitedHasFirst(visits[1..], x); }
  }

  // ---------- What is lost ----------

  /** Every visit of a code point leads only where the first one does. */
  ghost predicate NothingLostAt(visits: StatePost) {
    forall x: SymbolPost, p: State | x in visits && p in x.targets :: p in FirstTargets(visits, x.symbol)
  }

  /** ... from all states of `U` in which code points begin. */
  ghost predicate NothingLost(A: Nfa, U: StateSet) {
    forall q: State | q in U :: NothingLostAt(StateVisits(A, q))
  }

  lemma NothingLostIff(visits: StatePost)
    ensures NothingLostAt(visits) <==> forall c, p: State :: InPost(visits, c, p) <==> p in FirstTargets(visits, c)
  {
    forall c, p: State | p in FirstTargets(visits, c) ensures InPost(visits, c, p) {
      var x := FirstTargetsVisited(visits, c);
      ElementInPost(visits, x, p);
    }
    if NothingLostAt(visits) {
      forall c, p: State | InPost(visits, c, p) ensures p in FirstTargets(visits, c) {
        var x := InPostElement(visits, c, p);
      }
    }
    if forall c, p: State :: InPost(visits, c, p) <==> p in FirstTargets(visits, c) {
      forall x: SymbolPost, p: State | x in visits && p in x.targets ensures p in FirstTargets(visits, x.symbol) {
        ElementInPost(visits, x, p);
      }
    }
  }

  // ---------- One target per byte ----------

  /** The byte `b` leads from `q` to one state at most. */
  ghost predicate OneTarget(A: Nfa, q: State, b: Symbol) {
    forall p: State, r: State | Step(A, q, b, p) && Step(A, q, b, r) :: p == r
  }

  /** Of `k` bytes from `q` on only the last may have several targets. */
  ghost predicate OneWay(A: Nfa, q: State, k: nat)
    decreases k
  {
    k > 1 ==> forall b: Symbol, p: State | Step(A, q, b, p) :: OneTarget(A, q, b) && OneWay(A, p, k - 1)
  }

  /** Of the bytes of a code point only the last may have several targets. */
  ghost predicate OneWayFrom(A: Nfa, U: StateSet) {
    forall q: State, b: Symbol, p: State | q in U && Step(A, q, b, p) && !Marks1(b) :: OneTarget(A, q, b) && OneWay(A, p, Follow(b))
  }

  lemma OnePost(A: Nfa, q: State, x: SymbolPost, y: SymbolPost)
    requires A.Valid() && x in A.At(q) && y in A.At(q) && x.symbol == y.symbol
    ensures x == y
  {
    assert ValidPost(A.delta[q], A.size);
  }

  lemma HighIsPrefix(A: Nfa, S: StateSet, q: State, k: nat, high: nat, lo: nat, c: Symbol, p: State)
    requires k <= 3 && Continues(A, S, q, k) && InTail(A, q, k, high, lo, c, p)
    ensures high == c / Pow64(k)
  {
    DecodesContinuations(A, S, q, k, high, c, p);
  }

  lemma SameByte(high: nat, b: Symbol, d: Symbol)
    requires IsContinuation(b) && IsContinuation(d) && high * 64 + b % 64 == high * 64 + d % 64
    ensures b == d
  {
  }

  /** With one way to read its bytes, all that a code point leads to are targets of each visit of it. */
  lemma {:induction false} OneWayVisit(A: Nfa, S: StateSet, q: State, k: nat, high: nat, lo: nat, x: SymbolPost, p: State)
    requires A.Valid() && 0 < k <= 3 && Continues(A, S, q, k) && OneWay(A, q, k)
    requires x in Visits(A, q, k, high, lo) && x.targets != [] && InTail(A, q, k, high, lo, x.symbol, p)
    ensures p in x.targets
    decreases k
  {
    hide Visits, VisitsOfPost, VisitsOfPosts, VisitsOfTargets, Step, Nfa.Valid;
    var y := DecodedVisited(A, q, k, high, lo, x.symbol, p);
    var sp := VisitByPost(A, q, k, high, lo, x);
    var tp := VisitByPost(A, q, k, high, lo, y);
    if k == 1 {
      VisitOfLast(A, sp, high, lo, x);
      VisitOfLast(A, tp, high, lo, y);
      LastBytesAgree(A, S, q, high, sp, tp, x, y);
    } else {
      var s := MiddleVisit(A, S, q, k, high, lo, sp, x, x.targets[0]);
      var t := MiddleVisit(A, S, q, k, high, lo, tp, y, p);
      SameByte(high, sp.symbol, tp.symbol);
      StepByPost(A, q, sp, s);
      StepByPost(A, q, tp, t);
      OneWayStep(A, q, k, sp.symbol, s, t);
      OneWayVisit(A, S, s, k - 1, high * 64 + sp.symbol % 64, lo, x, p);
    }
  }

  lemma OneWayStep(A: Nfa, q: State, k: nat, b: Symbol, s: State, t: State)
    requires k > 1 && OneWay(A, q, k) && Step(A, q, b, s) && Step(A, q, b, t)
    ensures s == t && OneWay(A, s, k - 1)
  {
    assert OneTarget(A, q, b);
  }

  lemma LastBytesAgree(A: Nfa, S: StateSet, q: State, high: nat, sp: SymbolPost, tp: SymbolPost, x: SymbolPost, y: SymbolPost)
    requires A.Valid() && Continues(A, S, q, 1) && sp in A.At(q) && tp in A.At(q) && sp.targets != [] && tp.targets != []
    requires x == SymbolPost(high * 64 + sp.symbol % 64, sp.targets) && y == SymbolPost(high * 64 + tp.symbol % 64, tp.targets)
    requires x.symbol == y.symbol
    ensures x == y
  {
    StepByPost(A, q, sp, sp.targets[0]);
    StepByPost(A, q, tp, tp.targets[0]);
    hide Step;
    SameByte(high, sp.symbol, tp.symbol);
    OnePost(A, q, sp, tp);
  }

  /** A visit through the post `sp`, a byte before the last one, comes by a target of `sp`. */
  lemma MiddleVisit(A: Nfa, S: StateSet, q: State, k: nat, high: nat, lo: nat, sp: SymbolPost, x: SymbolPost, p: State) returns (t: State)
    requires 1 < k <= 3 && Continues(A, S, q, k) && sp in A.At(q) && x in VisitsOfPost(A, sp, k, high, lo) && p in x.targets
    ensures var symbol := high * 64 + sp.symbol % 64;
            && t in sp.targets && x in Visits(A, t, k - 1, symbol, lo) && InTail(A, t, k - 1, symbol, lo, x.symbol, p)
            && symbol == x.symbol / Pow64(k - 1) && IsContinuation(sp.symbol) && Continues(A, S, t, k - 1)
  {
    hide Visits, VisitsOfPost, VisitsOfPosts, VisitsOfTargets, Step;
    var symbol := high * 64 + sp.symbol % 64;
    t := VisitByTarget(A, sp, k, high, lo, x);
    StepByPost(A, q, sp, t);
    VisitDecodes(A, t, k - 1, symbol, lo, x, p);
    HighIsPrefix(A, S, t, k - 1, symbol, lo, x.symbol, p);
  }

  /** The same from the first byte on */
  lemma OneWayFirst(A: Nfa, S: StateSet, q: State, x: SymbolPost, p: State)
    requires A.Valid() && WellFormed(A, S) && q in S && OneWayFrom(A, {q})
    requires x in StateVisits(A, q) && x.targets != [] && SpellsSymbol(A, q, x.symbol, p)
    ensures p in x.targets
  {
    hide Visits, VisitsOfTargets, VisitsOfFirst, StateVisits, Step, SpellsSymbol, DecodedBy, FromFirst, Nfa.Valid, WellFormed, OneWayFrom;
    DecodedIsSpelled(A, S, q, x.symbol, p);
    var b, r := FirstOfDecoded(A, q, x.symbol, p);
    var sp, s := FirstOfVisit(A, q, x, x.targets[0]);
    StepByPost(A, q, sp, s);
    FirstByteDetermined(A, S, q, sp.symbol, s, x.symbol, x.targets[0]);
    FirstByteDetermined(A, S, q, b, r, x.symbol, p);
    OneFirst(A, S, q, sp, s, r, x, p);
  }

  lemma FirstOfDecoded(A: Nfa, q: State, c: Symbol, p: State) returns (b: Symbol, r: State)
    requires DecodedBy(A, q, c, p)
    ensures Step(A, q, b, r) && FromFirst(A, b, r, c, p)
  {
    b, r :| Step(A, q, b, r) && FromFirst(A, b, r, c, p);
  }

  lemma FirstOfVisit(A: Nfa, q: State, x: SymbolPost, p: State) returns (sp: SymbolPost, s: State)
    requires x in StateVisits(A, q) && p in x.targets
    ensures sp in A.At(q) && x in VisitsOfFirst(A, sp) && s in sp.targets && FromFirst(A, sp.symbol, s, x.symbol, p)
    ensures !Marks1(sp.symbol) ==> x in Visits(A, s, Follow(sp.symbol), HighBits(sp.symbol), Lowest(Follow(sp.symbol)))
    ensures Marks1(sp.symbol) ==> x == sp
  {
    hide Visits, VisitsOfTargets, FromFirst, HighBits, Lowest;
    VisitOfFirsts(A, A.At(q), x);
    sp :| sp in A.At(q) && x in VisitsOfFirst(A, sp);
    s := VisitFromFirst(A, sp, x, p);
  }

  /** The first byte is that of the code point. */
  lemma FirstByteDetermined(A: Nfa, S: StateSet, q: State, b: Symbol, r: State, c: Symbol, p: State)
    requires WellFormed(A, S) && q in S && Step(A, q, b, r) && FromFirst(A, b, r, c, p)
    ensures EncodeSymbol(c).Some? && EncodeSymbol(c).value != [] && EncodeSymbol(c).value[0] == b
    ensures Continues(A, S, r, Follow(b)) && Follow(b) <= 3
  {
    FirstIsWellFormed(A, S, q, b, r);
    FollowBound(b);
    hide WellFormed, Step, Marks1, Marks2, Marks3, Marks4, HighBits, Decodes, Continues, Pow64;
    if Follow(b) > 0 {
      DecodesContinuations(A, S, r, Follow(b), HighBits(b), c, p);
      RangeDeterminesBytes(b, c);
    }
  }

  lemma OneFirst(A: Nfa, S: StateSet, q: State, sp: SymbolPost, s: State, r: State, x: SymbolPost, p: State)
    requires A.Valid() && OneWayFrom(A, {q}) && sp in A.At(q) && Step(A, q, sp.symbol, s) && Step(A, q, sp.symbol, r)
    requires Continues(A, S, s, Follow(sp.symbol)) && Follow(sp.symbol) <= 3 && FromFirst(A, sp.symbol, r, x.symbol, p) && x.targets != []
    requires !Marks1(sp.symbol) ==> x in Visits(A, s, Follow(sp.symbol), HighBits(sp.symbol), Lowest(Follow(sp.symbol)))
    requires Marks1(sp.symbol) ==> x == sp
    ensures p in x.targets
  {
    hide Visits, VisitsOfTargets, Decodes, HighBits, Lowest, Nfa.Valid, Continues;
    if Marks1(sp.symbol) {
      var tp := PostOfStep(A, q, sp.symbol, r);
      OnePost(A, q, sp, tp);
    } else {
      assert OneTarget(A, q, sp.symbol);
      hide Step;
      OneWayVisit(A, S, s, Follow(sp.symbol), HighBits(sp.symbol), Lowest(Follow(sp.symbol)), x, p);
    }
  }

  /** If only last bytes have several targets, nothing is lost. */
  lemma OneWayLosesNothing(A: Nfa, S: StateSet, U: StateSet)
    requires A.Valid() && WellFormed(A, S) && U <= S && OneWayFrom(A, U)
    ensures NothingLost(A, U)
  {
    hide StateVisits, SpellsSymbol, WellFormed, InPost, Step;
    forall q: State, x: SymbolPost, p: State | q in U && x in StateVisits(A, q) && p in x.targets
      ensures p in FirstTargets(StateVisits(A, q), x.symbol)
    {
      assert OneWayFrom(A, {q});
      VisitsTargeted(A, q);
      VisitedHasFirst(StateVisits(A, q), x);
      var y := FirstTargetsVisited(StateVisits(A, q), x.symbol);
      ElementInPost(StateVisits(A, q), x, p);
      VisitsAreSpelled(A, S, q, x.symbol, p);
      OneWayFirst(A, S, q, y, p);
    }
  }

  // ---------- Targets ----------

  lemma PostTargets(A: Nfa, q: State, sp: SymbolPost)
    requires A.Valid() && sp in A.At(q)
    ensures sp.targets != [] && StrictlySorted(sp.targets) && forall p <- sp.targets :: p < A.size
  {
    assert ValidPost(A.delta[q], A.size);
  }

  lemma {:induction false} TailTargeted(A: Nfa, q: State, k: nat, high: nat, lo: nat, x: SymbolPost)
    requires A.Valid() && k > 0 && x in Visits(A, q, k, high, lo)
    ensures x.targets != []
    decreases k
  {
    hide Visits, VisitsOfPost, VisitsOfTargets;
    var sp := VisitByPost(A, q, k, high, lo, x);
    if k > 1 {
      var t := VisitByTarget(A, sp, k, high, lo, x);
      TailTargeted(A, t, k - 1, high * 64 + sp.symbol % 64, lo, x);
    } else {
      VisitOfLast(A, sp, high, lo, x);
      PostTargets(A, q, sp);
    }
  }

  lemma VisitsTargeted(A: Nfa, q: State)
    requires A.Valid()
    ensures Targeted(StateVisits(A, q))
  {
    hide Visits, VisitsOfTargets, HighBits, Lowest, Nfa.Valid;
    forall x: SymbolPost | x in StateVisits(A, q) ensures x.targets != [] {
      VisitOfFirsts(A, A.At(q), x);
      var sp :| sp in A.At(q) && x in VisitsOfFirst(A, sp);
      PostTargets(A, q, sp);
      if !Marks1(sp.symbol) {
        VisitOfTargets(A, sp.targets, Follow(sp.symbol), HighBits(sp.symbol), Lowest(Follow(sp.symbol)), x);
        var t: State :| t in sp.targets && x in Visits(A, t, Follow(sp.symbol), HighBits(sp.symbol), Lowest(Follow(sp.symbol)));
        TailTargeted(A, t, Follow(sp.symbol), HighBits(sp.symbol), Lowest(Follow(sp.symbol)), x);
      }
    }
  }
}
