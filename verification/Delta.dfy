/** The transition relation as it is built up (src/nfa/delta.cc): `Delta::add` and its helpers. */
module DeltaRelation {
  import opened Automata

  /** The position of the first target not below `s`. */
  function LowerBound(targets: seq<State>, s: State): (i: nat)
    requires StrictlySorted(targets)
    ensures i <= |targets| && (forall k | 0 <= k < i :: targets[k] < s) && (forall k | i <= k < |targets| :: s <= targets[k])
  {
    if targets == [] then 0
    else if targets[|targets| - 1] < s then |targets|
    else LowerBound(targets[..|targets| - 1], s)
  }

  /** `x` inserted before position `i` */
  function InsertedAt<T>(s: seq<T>, i: nat, x: T): (r: seq<T>)
    requires i <= |s|
    ensures |r| == |s| + 1 && r[i] == x
    ensures (forall k | 0 <= k < i :: r[k] == s[k]) && (forall k | i < k < |r| :: r[k] == s[k - 1])
  {
    s[..i] + [x] + s[i..]
  }

  lemma InsertedAtElements<T>(s: seq<T>, i: nat, x: T)
    requires i <= |s|
    ensures forall y :: y in InsertedAt(s, i, x) <==> y in s || y == x
  {
    assert s == s[..i] + s[i..];
  }

  lemma InsertSorted(s: seq<State>, i: nat, x: State)
    requires StrictlySorted(s) && i <= |s|
    requires (forall k | 0 <= k < i :: s[k] < x) && (forall k | i <= k < |s| :: x < s[k])
    ensures StrictlySorted(InsertedAt(s, i, x))
  {
    hide InsertedAt;
    var r := InsertedAt(s, i, x);
    forall j, k | 0 <= j < k < |r| ensures r[j] < r[k] {
      if k < i { assert s[j] < s[k]; }
      if j > i { assert s[j - 1] < s[k - 1]; }
      if j < i < k { assert s[j] < x < s[k - 1]; }
    }
  }

  /** `SymbolPost::insert(State)` */
  function InsertTarget(targets: seq<State>, s: State): (r: seq<State>)
    requires StrictlySorted(targets)
    ensures StrictlySorted(r) && forall x :: x in r <==> x in targets || x == s
  {
    var i := LowerBound(targets, s);
    if targets == [] || targets[|targets| - 1] < s then
      InsertSorted(targets, |targets|, s);
      assert InsertedAt(targets, |targets|, s) == targets + [s];
      targets + [s]
    else if i == |targets| || targets[i] != s then
      InsertSorted(targets, i, s);
      InsertedAtElements(targets, i, s);
      InsertedAt(targets, i, s)
    else
      targets
  }

  ghost predicate SortedPost(post: StatePost) {
    && (forall i, j | 0 <= i < j < |post| :: post[i].symbol < post[j].symbol)
    && (forall i | 0 <= i < |post| :: post[i].targets != [] && StrictlySorted(post[i].targets))
  }

  /** The position of the first symbol post not below `a`. */
  function LowerBoundSymbol(post: StatePost, a: Symbol): (i: nat)
    requires SortedPost(post)
    ensures i <= |post| && (forall k | 0 <= k < i :: post[k].symbol < a) && (forall k | i <= k < |post| :: a <= post[k].symbol)
  {
    if post == [] then 0
    else if post[|post| - 1].symbol < a then |post|
    else LowerBoundSymbol(post[..|post| - 1], a)
  }

  /** What `Delta::add` does to the post of the source state. */
  function AddToPost(post: StatePost, a: Symbol, p: State): (r: StatePost)
    requires SortedPost(post)
  {
    if post == [] then [SymbolPost(a, [p])]
    else if post[|post| - 1].symbol < a then post + [SymbolPost(a, [p])]
    else
      var i := LowerBoundSymbol(post, a);
      if i < |post| && post[i].symbol == a then post[i := SymbolPost(a, InsertTarget(post[i].targets, p))]
      else InsertedAt(post, i, SymbolPost(a, [p]))
  }

  lemma AddToPostShape(post: StatePost, a: Symbol, p: State)
    requires SortedPost(post)
    ensures var i := LowerBoundSymbol(post, a);
            AddToPost(post, a, p) == if i < |post| && post[i].symbol == a
                                     then post[i := SymbolPost(a, InsertTarget(post[i].targets, p))]
                                     else InsertedAt(post, i, SymbolPost(a, [p]))
  {
    var i := LowerBoundSymbol(post, a);
    assert post != [] && post[|post| - 1].symbol < a ==> i == |post|;
    assert InsertedAt(post, |post|, SymbolPost(a, [p])) == post + [SymbolPost(a, [p])];
  }

  lemma InsertedPost(post: StatePost, i: nat, new': SymbolPost)
    requires SortedPost(post) && i <= |post| && new'.targets != [] && StrictlySorted(new'.targets)
    requires (forall k | 0 <= k < i :: post[k].symbol < new'.symbol) && forall k | i <= k < |post| :: new'.symbol < post[k].symbol
    ensures SortedPost(InsertedAt(post, i, new'))
    ensures forall b, x :: InPost(InsertedAt(post, i, new'), b, x) <==>
              InPost(post, b, x) || (b == new'.symbol && x in new'.targets)
  {
    hide InsertedAt, StrictlySorted;
    var r := InsertedAt(post, i, new');
    forall j, k | 0 <= j < k < |r| ensures r[j].symbol < r[k].symbol {
      if k < i { assert post[j].symbol < post[k].symbol; }
      if j > i { assert post[j - 1].symbol < post[k - 1].symbol; }
    }
    forall b, x ensures InPost(r, b, x) <==> InPost(post, b, x) || (b == new'.symbol && x in new'.targets) {
      if InPost(post, b, x) {
        var k :| 0 <= k < |post| && post[k].symbol == b && x in post[k].targets;
        assert r[if k < i then k else k + 1] == post[k];
      }
    }
  }

  lemma WidenedPost(post: StatePost, i: nat, p: State)
    requires SortedPost(post) && i < |post|
    ensures var r := post[i := SymbolPost(post[i].symbol, InsertTarget(post[i].targets, p))];
            && SortedPost(r)
            && forall b, x :: InPost(r, b, x) <==> InPost(post, b, x) || (b == post[i].symbol && x == p)
  {
    var r := post[i := SymbolPost(post[i].symbol, InsertTarget(post[i].targets, p))];
    forall b, x ensures InPost(r, b, x) <==> InPost(post, b, x) || (b == post[i].symbol && x == p) {
      if InPost(post, b, x) {
        var k :| 0 <= k < |post| && post[k].symbol == b && x in post[k].targets;
        assert r[k].symbol == b && x in r[k].targets;
      }
      if b == post[i].symbol && x == p {
        assert r[i].symbol == b && x in r[i].targets;
      }
    }
  }

  lemma AddToPostMoves(post: StatePost, a: Symbol, p: State)
    requires SortedPost(post)
    ensures SortedPost(AddToPost(post, a, p))
    ensures forall b, x :: InPost(AddToPost(post, a, p), b, x) <==> InPost(post, b, x) || (b == a && x == p)
  {
    AddToPostShape(post, a, p);
    var i := LowerBoundSymbol(post, a);
    if i < |post| && post[i].symbol == a {
      WidenedPost(post, i, p);
    } else {
      InsertedPost(post, i, SymbolPost(a, [p]));
    }
  }

  /** There is a transition `q --a--> p` in `delta`. */
  ghost predicate HasTransition(delta: seq<StatePost>, q: State, a: Symbol, p: State) {
    q < |delta| && InPost(delta[q], a, p)
  }

  /** `Delta` with posts for at least `n` states. */
  function Allocated(delta: seq<StatePost>, n: nat): (r: seq<StatePost>)
    ensures |r| == if |delta| < n then n else |delta|
    ensures forall q | 0 <= q < |r| :: r[q] == if q < |delta| then delta[q] else []
  {
    if |delta| < n then delta + seq(n - |delta|, _ => []) else delta
  }

  ghost predicate SortedDelta(delta: seq<StatePost>) {
    forall q | 0 <= q < |delta| :: SortedPost(delta[q])
  }

  // ---------- Keeping some states and renaming them ----------

  /** How many of the first `n` states stay. */
  function Staying(staying: seq<bool>, n: nat): (r: nat)
    requires n <= |staying|
    ensures r <= n
  {
    if n == 0 then 0 else Staying(staying, n - 1) + if staying[n - 1] then 1 else 0
  }

  lemma {:induction false} StayingMonotone(staying: seq<bool>, m: nat, n: nat)
    requires m <= n <= |staying|
    ensures Staying(staying, m) <= Staying(staying, n)
    ensures m < n && staying[m] ==> Staying(staying, m) < Staying(staying, n)
  {
    if m < n { StayingMonotone(staying, m, n - 1); }
  }

  /** `renaming` numbers the staying states consecutively, in their order. */
  ghost predicate NumbersStaying(staying: seq<bool>, renaming: seq<State>) {
    |renaming| == |staying| && forall q: State | q < |staying| && staying[q] :: renaming[q] == Staying(staying, q)
  }

  predicate Stays(staying: seq<bool>, q: State) {
    q < |staying| && staying[q]
  }

  lemma RenamingMonotone(staying: seq<bool>, renaming: seq<State>)
    requires NumbersStaying(staying, renaming)
    ensures forall p: State, q: State | p < q && Stays(staying, p) && Stays(staying, q) :: renaming[p] < renaming[q]
  {
    forall p: State, q: State | p < q && Stays(staying, p) && Stays(staying, q) ensures renaming[p] < renaming[q] {
      StayingMonotone(staying, p, q);
    }
  }

  /** The staying targets, renamed. */
  function KeptTargets(targets: seq<State>, staying: seq<bool>, renaming: seq<State>): (r: seq<State>)
    requires |renaming| == |staying|
  {
    if targets == [] then []
    else
      var last := targets[|targets| - 1];
      KeptTargets(targets[..|targets| - 1], staying, renaming) + if Stays(staying, last) then [renaming[last]] else []
  }

  /** The symbol posts that keep a target. */
  function KeptPost(post: StatePost, staying: seq<bool>, renaming: seq<State>): StatePost
    requires |renaming| == |staying|
  {
    if post == [] then []
    else
      var last := post[|post| - 1];
      var targets := KeptTargets(last.targets, staying, renaming);
      KeptPost(post[..|post| - 1], staying, renaming) + if targets == [] then [] else [SymbolPost(last.symbol, targets)]
  }

  lemma {:induction false} KeptTargetsElements(targets: seq<State>, staying: seq<bool>, renaming: seq<State>)
    requires |renaming| == |staying|
    ensures forall r :: r in KeptTargets(targets, staying, renaming) <==> exists p :: p in targets && Stays(staying, p) && renaming[p] == r
  {
    if targets != [] {
      var init, last := targets[..|targets| - 1], targets[|targets| - 1];
      KeptTargetsElements(init, staying, renaming);
      assert targets == init + [last];
      assert forall p :: p in targets <==> p in init || p == last;
      assert Stays(staying, last) ==> last in targets;
      hide Stays;
    }
  }

  lemma SnocSorted(s: seq<nat>, x: nat)
    requires StrictlySorted(s) && forall y <- s :: y < x
    ensures StrictlySorted(s + [x])
  {
    assert forall i | 0 <= i < |s| :: s[i] in s && (s + [x])[i] == s[i];
  }

  lemma {:induction false} KeptTargetsSorted(targets: seq<State>, staying: seq<bool>, renaming: seq<State>)
    requires NumbersStaying(staying, renaming) && StrictlySorted(targets)
    ensures StrictlySorted(KeptTargets(targets, staying, renaming))
  {
    if targets != [] {
      var init, last := targets[..|targets| - 1], targets[|targets| - 1];
      KeptTargetsSorted(init, staying, renaming);
      KeptTargetsElements(init, staying, renaming);
      if Stays(staying, last) {
        RenamingMonotone(staying, renaming);
        assert forall p | p in init :: p < last;
        hide NumbersStaying, Stays, StrictlySorted;
        SnocSorted(KeptTargets(init, staying, renaming), renaming[last]);
      }
    }
  }

  /** Some move of the post over `a` leads to a staying state renamed to `r`. */
  ghost predicate KeptInPost(post: StatePost, staying: seq<bool>, renaming: seq<State>, a: Symbol, r: State)
    requires |renaming| == |staying|
  {
    exists p: State :: InPost(post, a, p) && Stays(staying, p) && renaming[p] == r
  }

  lemma PostSnocSorted(post: StatePost, last: SymbolPost)
    requires SortedPost(post) && last.targets != [] && StrictlySorted(last.targets)
    requires forall i | 0 <= i < |post| :: post[i].symbol < last.symbol
    ensures SortedPost(post + [last])
  {
    hide StrictlySorted;
  }

  lemma PostInitSorted(post: StatePost)
    requires SortedPost(post) && post != []
    ensures SortedPost(post[..|post| - 1]) && StrictlySorted(post[|post| - 1].targets)
  {
    hide StrictlySorted;
  }

  lemma {:induction false} KeptPostSorted(post: StatePost, staying: seq<bool>, renaming: seq<State>)
    requires NumbersStaying(staying, renaming) && SortedPost(post)
    ensures SortedPost(KeptPost(post, staying, renaming))
    ensures forall i | 0 <= i < |KeptPost(post, staying, renaming)| ::
              post != [] && KeptPost(post, staying, renaming)[i].symbol <= post[|post| - 1].symbol
  {
    if post != [] {
      var init, last := post[..|post| - 1], post[|post| - 1];
      PostInitSorted(post);
      assert init != [] ==> init[|init| - 1].symbol < last.symbol;
      hide SortedPost, NumbersStaying, StrictlySorted;
      KeptPostSorted(init, staying, renaming);
      var targets := KeptTargets(last.targets, staying, renaming);
      KeptTargetsSorted(last.targets, staying, renaming);
      if targets != [] { PostSnocSorted(KeptPost(init, staying, renaming), SymbolPost(last.symbol, targets)); }
    }
  }

  lemma KeptInPostSnoc(post: StatePost, staying: seq<bool>, renaming: seq<State>, a: Symbol, r: State)
    requires |renaming| == |staying| && post != []
    ensures KeptInPost(post, staying, renaming, a, r) <==>
            || KeptInPost(post[..|post| - 1], staying, renaming, a, r)
            || (post[|post| - 1].symbol == a && r in KeptTargets(post[|post| - 1].targets, staying, renaming))
  {
    var init, last := post[..|post| - 1], post[|post| - 1];
    forall p: State ensures InPost(post, a, p) <==> InPost(init, a, p) || (last.symbol == a && p in last.targets) {
      InPostSnoc(post, a, p);
    }
    KeptTargetsElements(last.targets, staying, renaming);
    hide InPost, Stays;
  }

  lemma InPostAppend(post: StatePost, last: SymbolPost, a: Symbol, r: State)
    ensures InPost(post + [last], a, r) <==> InPost(post, a, r) || (last.symbol == a && r in last.targets)
  {
    InPostSnoc(post + [last], a, r);
    assert (post + [last])[..|post|] == post;
  }

  lemma {:induction false} KeptPostMoves(post: StatePost, staying: seq<bool>, renaming: seq<State>, a: Symbol, r: State)
    requires |renaming| == |staying|
    ensures InPost(KeptPost(post, staying, renaming), a, r) <==> KeptInPost(post, staying, renaming, a, r)
  {
    if post != [] {
      var init, last := post[..|post| - 1], post[|post| - 1];
      KeptPostMoves(init, staying, renaming, a, r);
      KeptInPostSnoc(post, staying, renaming, a, r);
      var targets := KeptTargets(last.targets, staying, renaming);
      hide InPost, KeptInPost;
      var kept := KeptPost(init, staying, renaming);
      InPostAppend(kept, SymbolPost(last.symbol, targets), a, r);
      assert kept + [] == kept;
    }
  }

  class Delta {
    var statePosts: seq<StatePost>

    ghost predicate Valid()
      reads this
    {
      SortedDelta(statePosts)
    }

    constructor (n: nat)
      ensures statePosts == Allocated([], n) && Valid()
    {
      statePosts := seq(n, _ => []);
      new;
      assert statePosts == Allocated([], n);
    }

    /** `Delta::add(source, symbol, target)`: exactly one transition is added; posts are allocated
        for source and target. */
    method Add(q: State, a: Symbol, p: State)
      requires Valid()
      modifies this
      ensures Valid()
      ensures forall x, b, y :: HasTransition(statePosts, x, b, y) <==>
                old(HasTransition(statePosts, x, b, y)) || (x == q && b == a && y == p)
      ensures |statePosts| == |Allocated(old(statePosts), if q < p then p + 1 else q + 1)|
    {
      ghost var before := statePosts;
      statePosts := Allocated(statePosts, if q < p then p + 1 else q + 1);
      var post := AddToPost(statePosts[q], a, p);
      AddToPostMoves(statePosts[q], a, p);
      assert forall x, b, y :: HasTransition(statePosts, x, b, y) <==> HasTransition(before, x, b, y);
      statePosts := statePosts[q := post];
    }

    /** `Delta::defragment(is_staying, renaming)`, in place: posts move down over those removed. */
    method Defragment(staying: seq<bool>, renaming: seq<State>)
      requires Valid() && |statePosts| <= |staying| == |renaming|
      modifies this
      ensures statePosts == KeptDelta(old(statePosts), staying, renaming, |old(statePosts)|)
    {
      ghost var before := statePosts;
      var n := |statePosts|;
      var new' := 0;
      for orig := 0 to n
        invariant |statePosts| == n && new' == Staying(staying, orig) <= orig
        invariant statePosts[..new'] == KeptDelta(before, staying, renaming, orig)
        invariant statePosts[orig..] == before[orig..]
      {
        assert statePosts[orig] == statePosts[orig..][0] == before[orig..][0] == before[orig];
        assert before[orig..][1..] == before[orig + 1..] && statePosts[orig..][1..] == statePosts[orig + 1..];
        if staying[orig] {
          ghost var was := statePosts;
          statePosts := statePosts[new' := KeptPost(statePosts[orig], staying, renaming)];
          assert statePosts[orig + 1..] == was[orig + 1..];
          assert statePosts[..new' + 1] == was[..new'] + [statePosts[new']];
          new' := new' + 1;
        }
      }
      statePosts := statePosts[..new'];
    }
  }

  /** The posts of the staying states among the first `n`, in order. */
  function KeptDelta(delta: seq<StatePost>, staying: seq<bool>, renaming: seq<State>, n: nat): (r: seq<StatePost>)
    requires n <= |delta| <= |staying| == |renaming|
    ensures |r| == Staying(staying, n)
  {
    if n == 0 then []
    else KeptDelta(delta, staying, renaming, n - 1) + if staying[n - 1] then [KeptPost(delta[n - 1], staying, renaming)] else []
  }

  lemma SortedPostIsValid(delta: seq<StatePost>, size: nat)
    requires SortedDelta(delta)
    requires forall q: State, a, p: State :: HasTransition(delta, q, a, p) ==> p < size
    ensures forall q | 0 <= q < |delta| :: ValidPost(delta[q], size)
  {
    forall q, i, k | 0 <= q < |delta| && 0 <= i < |delta[q]| && 0 <= k < |delta[q][i].targets|
      ensures delta[q][i].targets[k] < size
    {
      assert HasTransition(delta, q, delta[q][i].symbol, delta[q][i].targets[k]);
    }
  }

  /** `R` has the transitions of `A` turned around and initial and final states exchanged. */
  ghost predicate IsReverse(A: Nfa, R: Nfa) {
    && R.size == A.size && R.initial == A.final && R.final == A.initial
    && (forall q, a, p :: Step(R, q, a, p) <==> Step(A, p, a, q))
  }

  lemma ValidIsSorted(delta: Delta)
    requires delta.Valid()
    ensures SortedDelta(delta.statePosts)
  {
  }

  /** `simple_revert` (src/nfa/operations.cc) */
  method Revert(A: Nfa) returns (R: Nfa)
    requires A.Valid()
    ensures R.Valid() && IsReverse(A, R)
  {
    var delta := new Delta(A.size);
    for q := 0 to A.size
      invariant delta.Valid() && |delta.statePosts| == A.size
      invariant forall x: State, b, y: State :: HasTransition(delta.statePosts, x, b, y) <==> y < q && Step(A, y, b, x)
    {
      RevertState(A, q, delta);
    }
    R := Nfa(A.size, delta.statePosts, A.final, A.initial);
    forall x, b, y ensures Step(R, x, b, y) <==> Step(A, y, b, x) {
      assert Step(R, x, b, y) <==> HasTransition(R.delta, x, b, y);
      if Step(A, y, b, x) { StepIsState(A, y, b, x); }
    }
    SortedPostIsValid(R.delta, R.size);
  }

  /** Turn the transitions of state `q` around. */
  method RevertState(A: Nfa, q: State, delta: Delta)
    requires A.Valid() && q < A.size && delta.Valid() && |delta.statePosts| == A.size
    modifies delta
    ensures delta.Valid() && |delta.statePosts| == A.size
    ensures forall x, b, y :: HasTransition(delta.statePosts, x, b, y) <==>
              old(HasTransition(delta.statePosts, x, b, y)) || (y == q && Step(A, q, b, x))
  {
    var post := A.At(q);
    assert q < |A.delta| ==> ValidPost(A.delta[q], A.size);
    var moves := Moves(post);
    MovesEnumeratePost(post, A.size);
    for k := 0 to |moves|
      invariant delta.Valid() && |delta.statePosts| == A.size
      invariant forall x, b, y :: HasTransition(delta.statePosts, x, b, y) <==>
                  old(HasTransition(delta.statePosts, x, b, y)) || (y == q && Move(b, x) in moves[..k])
    {
      var m := moves[k];
      assert m in moves && InPost(post, m.symbol, m.target);
      assert moves[..k + 1] == moves[..k] + [m];
      StepIsState(A, q, m.symbol, m.target);
      delta.Add(m.target, m.symbol, q);
    }
    assert moves[..|moves|] == moves;
  }
}
