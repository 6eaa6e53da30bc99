/** From an automaton over UTF-8 bytes to one over code points (Nfa::decode_utf8 of src/nfa/nfa.cc). */
module DecodeUtf8 {
  import opened Automata
  import opened Counting
  import opened DeltaRelation
  import opened Utf8
  import opened ByteAutomata
  import opened DecodingVisits

  /** The post being built, and the states that have been put on the worklist */
  datatype Decoder = Decoder(post: StatePost, used: seq<bool>, work: seq<State>)

  predicate Used(used: seq<bool>, q: State) {
    q < |used| && used[q]
  }

  ghost predicate Leads(visits: StatePost, p: State) {
    exists i :: 0 <= i < |visits| && p in visits[i].targets
  }

  ghost predicate AllBelow(visits: StatePost, n: nat) {
    forall i | 0 <= i < |visits| :: visits[i].symbol < n
  }

  function Max(a: nat, b: nat): nat {
    if a < b then b else a
  }

  // ---------- Adding a symbol post ----------

  /** `OrdVector::insert` of a symbol post: one with the symbol of a present one is dropped. */
  function InsertSymbolPost(post: StatePost, new': SymbolPost): StatePost
    requires SortedPost(post)
  {
    var i := LowerBoundSymbol(post, new'.symbol);
    if i < |post| && post[i].symbol == new'.symbol then post else InsertedAt(post, i, new')
  }

  /** `post` holds the first visit of each code point. */
  ghost predicate Gathers(visits: StatePost, post: StatePost) {
    && SortedPost(post) && Targeted(visits)
    && (forall c, p: State :: InPost(post, c, p) <==> p in FirstTargets(visits, c))
  }

  lemma AppendGathers(visits: StatePost, post: StatePost, x: SymbolPost)
    requires Gathers(visits, post) && AllBelow(visits, x.symbol) && x.targets != [] && StrictlySorted(x.targets)
    ensures Gathers(visits + [x], post + [x])
  {
    hide StrictlySorted;
    forall i | 0 <= i < |post| ensures post[i].symbol < x.symbol {
      assert InPost(post, post[i].symbol, post[i].targets[0]);
      var y := FirstTargetsVisited(visits, post[i].symbol);
    }
    PostSnocSorted(post, x);
    forall c, p: State ensures InPost(post + [x], c, p) <==> p in FirstTargets(visits + [x], c) {
      InPostAppend(post, x, c, p);
      FirstTargetsSnoc(visits, x, c);
      if c == x.symbol && FirstTargets(visits, c) != [] { var y := FirstTargetsVisited(visits, c); }
    }
  }

  lemma InsertGathers(visits: StatePost, post: StatePost, x: SymbolPost)
    requires Gathers(visits, post) && x.targets != [] && StrictlySorted(x.targets)
    ensures Gathers(visits + [x], InsertSymbolPost(post, x))
  {
    hide StrictlySorted, FirstTargets;
    var i := LowerBoundSymbol(post, x.symbol);
    if i < |post| && post[i].symbol == x.symbol {
      assert InPost(post, x.symbol, post[i].targets[0]);
      hide InPost, SortedPost;
      forall c ensures FirstTargets(visits + [x], c) == FirstTargets(visits, c) { FirstTargetsSnoc(visits, x, c); }
    } else {
      InsertedPost(post, i, x);
      SymbolAbsent(post, i, x.symbol);
      hide InPost, SortedPost, InsertedAt;
      NoFirst(FirstTargets(visits, x.symbol));
      forall c, p: State ensures InPost(InsertedAt(post, i, x), c, p) <==> p in FirstTargets(visits + [x], c) {
        FirstTargetsSnoc(visits, x, c);
      }
    }
  }

  lemma NoFirst(targets: seq<State>)
    ensures targets == [] || exists p: State :: p in targets
  {
    assert targets != [] ==> targets[0] in targets;
  }

  lemma SymbolAbsent(post: StatePost, i: nat, a: Symbol)
    requires i <= |post| && SortedPost(post) && (forall k | 0 <= k < i :: post[k].symbol < a) && (forall k | i <= k < |post| :: a <= post[k].symbol)
    requires i < |post| ==> post[i].symbol != a
    ensures forall p: State :: !InPost(post, a, p)
  {
  }

  /** What has become of `used0` and `work0` and an empty post after `visits` */
  ghost predicate Gathered(used0: seq<bool>, work0: seq<State>, visits: StatePost, K: Decoder) {
    && Gathers(visits, K.post) && |K.used| == |used0| && Distinct(K.work)
    && (forall p <- work0 :: Used(used0, p))
    && (forall p: State :: Used(K.used, p) <==> Used(used0, p) || Leads(visits, p))
    && (forall p: State :: p in K.work <==> p in work0 || (!Used(used0, p) && Leads(visits, p)))
  }

  lemma LeadsSnoc(visits: StatePost, x: SymbolPost, p: State)
    ensures Leads(visits + [x], p) <==> Leads(visits, p) || p in x.targets
  {
    var more := visits + [x];
    if Leads(visits, p) {
      var i :| 0 <= i < |visits| && p in visits[i].targets;
      assert more[i] == visits[i];
    }
    if p in x.targets { assert more[|visits|] == x; }
  }

  /** `push_state_set` */
  method PushTargets(used0: seq<bool>, work0: seq<State>, targets: seq<State>) returns (used: seq<bool>, work: seq<State>)
    requires (forall q <- targets :: q < |used0|) && (forall q <- work0 :: Used(used0, q)) && Distinct(work0)
    ensures |used| == |used0| && Distinct(work)
    ensures forall q: State :: Used(used, q) <==> Used(used0, q) || q in targets
    ensures forall q: State :: q in work <==> q in work0 || (q in targets && !Used(used0, q))
  {
    used, work := used0, work0;
    for i := 0 to |targets|
      invariant |used| == |used0| && Distinct(work)
      invariant forall q: State :: Used(used, q) <==> Used(used0, q) || q in targets[..i]
      invariant forall q: State :: q in work <==> q in work0 || (q in targets[..i] && !Used(used0, q))
    {
      var q := targets[i];
      assert q in targets && targets[..i + 1] == targets[..i] + [q];
      if !used[q] {
        assert !Used(used, q) && q !in work;
        DistinctSnoc(work, q);
        work, used := work + [q], used[q := true];
      }
    }
    assert targets[..|targets|] == targets;
  }

  /** `add_to_state_post`, after which the targets are pushed, whether or not the symbol post was dropped. */
  method AddVisit(K0: Decoder, x: SymbolPost, isNondet: bool, ghost used0: seq<bool>, ghost work0: seq<State>, ghost visits: StatePost)
    returns (K: Decoder)
    requires Gathered(used0, work0, visits, K0) && x.targets != [] && StrictlySorted(x.targets) && forall p <- x.targets :: p < |used0|
    requires !isNondet ==> AllBelow(visits, x.symbol)
    ensures Gathered(used0, work0, visits + [x], K)
  {
    hide Gathers, Distinct, StrictlySorted, Leads, AllBelow, Used;
    assert SortedPost(K0.post) by { GathersSorted(visits, K0.post); }
    var post;
    if isNondet {
      post := InsertSymbolPost(K0.post, x);
      InsertGathers(visits, K0.post, x);
    } else {
      post := K0.post + [x];
      AppendGathers(visits, K0.post, x);
    }
    hide InsertSymbolPost;
    var used, work := PushTargets(K0.used, K0.work, x.targets);
    K := Decoder(post, used, work);
    forall p: State ensures Leads(visits + [x], p) <==> Leads(visits, p) || p in x.targets { LeadsSnoc(visits, x, p); }
  }

  lemma GathersSorted(visits: StatePost, post: StatePost)
    requires Gathers(visits, post)
    ensures SortedPost(post)
  {
  }

  // ---------- Code points in order ----------

  lemma AllBelowMore(visits: StatePost, m: nat, n: nat)
    requires AllBelow(visits, m) && m <= n
    ensures AllBelow(visits, n)
  {
  }

  lemma AllBelowConcat(u: StatePost, v: StatePost, n: nat)
    requires AllBelow(u, n) && AllBelow(v, n)
    ensures AllBelow(u + v, n)
  {
  }

  /** One more than the low bits of the byte before position `i` */
  function NextDigit(post: StatePost, i: nat): nat
    requires i <= |post| && (i > 0 ==> IsContinuation(post[i - 1].symbol))
  {
    if i == 0 then 0 else post[i - 1].symbol - 0x80 + 1
  }

  /** The ranges of code points by their high bits follow each other. */
  lemma Ranges(k: nat, high: nat, d: nat, b: Symbol)
    requires 1 <= k <= 3 && IsContinuation(b) && d <= b - 0x80
    ensures b % 64 == b - 0x80
    ensures (high * 64 + d) * Pow64(k - 1) <= (high * 64 + b % 64) * Pow64(k - 1)
    ensures (high * 64) * Pow64(k - 1) == high * Pow64(k)
  {
    assert Pow64(0) == 1 && Pow64(1) == 64 && Pow64(2) == 4096 && Pow64(3) == 262144;
  }

  lemma QuotientBelow(c: nat, high: nat, k: nat)
    requires high == c / Pow64(k) && k <= 3
    ensures c < (high + 1) * Pow64(k)
  {
    assert Pow64(0) == 1 && Pow64(1) == 64 && Pow64(2) == 4096 && Pow64(3) == 262144;
  }

  /** Visits from `q` on have the high bits read before. */
  lemma VisitsBelow(A: Nfa, S: StateSet, q: State, k: nat, high: nat, lo: nat)
    requires A.Valid() && 0 < k <= 3 && Continues(A, S, q, k)
    ensures AllBelow(Visits(A, q, k, high, lo), (high + 1) * Pow64(k))
  {
    hide Visits, Pow64, Continues, InTail, Nfa.Valid;
    forall x: SymbolPost | x in Visits(A, q, k, high, lo) ensures x.symbol < (high + 1) * Pow64(k) {
      TailTargeted(A, q, k, high, lo, x);
      VisitDecodes(A, q, k, high, lo, x, x.targets[0]);
      HighIsPrefix(A, S, q, k, high, lo, x.symbol, x.targets[0]);
      QuotientBelow(x.symbol, high, k);
    }
  }

  lemma {:induction false} TargetsBelow(A: Nfa, S: StateSet, targets: seq<State>, k: nat, high: nat, lo: nat)
    requires A.Valid() && 0 < k <= 3 && forall t <- targets :: Continues(A, S, t, k)
    ensures AllBelow(VisitsOfTargets(A, targets, k, high, lo), (high + 1) * Pow64(k))
    decreases |targets|
  {
    hide Continues, Nfa.Valid, Visits, Pow64;
    if targets != [] {
      var init, last := targets[..|targets| - 1], targets[|targets| - 1];
      assert last in targets && forall t <- init :: t in targets;
      TargetsBelow(A, S, init, k, high, lo);
      VisitsBelow(A, S, last, k, high, lo);
      AllBelowConcat(VisitsOfTargets(A, init, k, high, lo), Visits(A, last, k, high, lo), (high + 1) * Pow64(k));
      hide AllBelow;
    }
  }

  /** So have those after one more byte. */
  lemma ByteBelow(A: Nfa, S: StateSet, q: State, k: nat, high: nat, lo: nat, sp: SymbolPost)
    requires A.Valid() && 0 < k <= 3 && Continues(A, S, q, k) && sp in A.At(q)
    ensures AllBelow(VisitsOfPost(A, sp, k, high, lo), (high * 64 + sp.symbol % 64 + 1) * Pow64(k - 1))
  {
    hide VisitsOfTargets, Continues, Nfa.Valid, Pow64, AllBelow, StrictlySorted;
    ContinuationPost(A, S, q, k, sp);
    var symbol := high * 64 + sp.symbol % 64;
    if k > 1 {
      TargetsBelow(A, S, sp.targets, k - 1, symbol, lo);
    } else {
      LastBelow(symbol, sp.targets);
    }
  }

  lemma LastBelow(symbol: Symbol, targets: seq<State>)
    ensures AllBelow([SymbolPost(symbol, targets)], (symbol + 1) * Pow64(0)) && AllBelow([], (symbol + 1) * Pow64(0))
  {
    assert Pow64(0) == 1;
  }

  lemma ContinuationPost(A: Nfa, S: StateSet, q: State, k: nat, sp: SymbolPost)
    requires A.Valid() && k > 0 && Continues(A, S, q, k) && sp in A.At(q)
    ensures IsContinuation(sp.symbol) && forall t <- sp.targets :: Continues(A, S, t, k - 1)
    ensures sp.targets != [] && StrictlySorted(sp.targets) && forall p <- sp.targets :: p < A.size
  {
    PostTargets(A, q, sp);
    assert Step(A, q, sp.symbol, sp.targets[0]);
    forall t: State | t in sp.targets ensures Continues(A, S, t, k - 1) { StepByPost(A, q, sp, t); }
  }

  lemma PostsAscend(A: Nfa, q: State, i: nat)
    requires A.Valid() && 0 < i < |A.At(q)|
    ensures A.At(q)[i - 1].symbol < A.At(q)[i].symbol
  {
    assert ValidPost(A.delta[q], A.size);
  }

  // ---------- The loops over continuation bytes ----------

  /** Before the post number `i`, if every byte so far had one target: all visits have lower digits. */
  ghost predicate Before(visits: StatePost, posts: StatePost, i: nat, k: nat, high: nat, lo: nat)
    requires k > 0 && i <= |posts| && (i > 0 ==> IsContinuation(posts[i - 1].symbol))
  {
    AllBelow(visits, Max(lo, (high * 64 + NextDigit(posts, i)) * Pow64(k - 1)))
  }

  lemma BeforeStart(visits: StatePost, posts: StatePost, k: nat, high: nat, lo: nat)
    requires 1 <= k <= 3 && AllBelow(visits, Max(lo, high * Pow64(k)))
    ensures Before(visits, posts, 0, k, high, lo)
  {
    Ranges(k, high, 0, 0x80);
  }

  lemma BeforeByte(visits: StatePost, posts: StatePost, i: nat, k: nat, high: nat, lo: nat, b: Symbol)
    requires 1 <= k <= 3 && i < |posts| && posts[i].symbol == b && IsContinuation(b)
    requires i > 0 ==> IsContinuation(posts[i - 1].symbol) && posts[i - 1].symbol < b
    requires Before(visits, posts, i, k, high, lo)
    ensures AllBelow(visits, Max(lo, (high * 64 + b % 64) * Pow64(k - 1)))
  {
    var d := NextDigit(posts, i);
    Ranges(k, high, d, b);
    hide Pow64, AllBelow;
    AllBelowMore(visits, Max(lo, (high * 64 + d) * Pow64(k - 1)), Max(lo, (high * 64 + b % 64) * Pow64(k - 1)));
  }

  lemma BeforeNext(A: Nfa, S: StateSet, q: State, visits: StatePost, i: nat, k: nat, high: nat, lo: nat)
    requires A.Valid() && 1 <= k <= 3 && Continues(A, S, q, k) && i < |A.At(q)| && IsContinuation(A.At(q)[i].symbol)
    requires AllBelow(visits, Max(lo, (high * 64 + A.At(q)[i].symbol % 64) * Pow64(k - 1)))
    ensures Before(visits + VisitsOfPost(A, A.At(q)[i], k, high, lo), A.At(q), i + 1, k, high, lo)
  {
    hide Pow64, AllBelow, Nfa.Valid, VisitsOfPost, Continues;
    var sp := A.At(q)[i];
    ByteBelow(A, S, q, k, high, lo, sp);
    LowBits(sp.symbol);
    Widen(visits, VisitsOfPost(A, sp, k, high, lo), lo, high * 64 + sp.symbol % 64, Pow64(k - 1));
  }

  lemma LowBits(b: Symbol)
    requires IsContinuation(b)
    ensures b % 64 == b - 0x80
  {
  }

  lemma Widen(u: StatePost, v: StatePost, lo: nat, d: nat, m: nat)
    requires AllBelow(u, Max(lo, d * m)) && AllBelow(v, (d + 1) * m)
    ensures AllBelow(u + v, Max(lo, (d + 1) * m))
  {
    MoreIsMore(d, m);
  }

  lemma MoreIsMore(d: nat, m: nat)
    ensures d * m <= (d + 1) * m
  {
  }

  /** The loop over the symbol posts of a state in which `k` continuation bytes are left. Unless some byte before
      had several targets, code points are met in ascending order, so that symbol posts can be appended. */
  method DecodeTail(A: Nfa, ghost S: StateSet, q: State, k: nat, high: nat, lo: nat, isNondet: bool, K0: Decoder,
                    ghost used0: seq<bool>, ghost work0: seq<State>, ghost visits: StatePost) returns (K: Decoder)
    requires A.Valid() && 1 <= k <= 3 && Continues(A, S, q, k) && |used0| == A.size
    requires Gathered(used0, work0, visits, K0) && (!isNondet ==> AllBelow(visits, Max(lo, high * Pow64(k))))
    ensures Gathered(used0, work0, visits + Visits(A, q, k, high, lo), K)
    decreases k, 1
  {
    hide Gathered, Continues, Nfa.Valid, AllBelow, Before, VisitsOfPost, VisitsOfPosts, Pow64;
    K := K0;
    var posts := A.At(q);
    ghost var all := visits;
    if !isNondet { BeforeStart(visits, posts, k, high, lo); }
    StartOfPosts(A, visits, posts, k, high, lo);
    for i := 0 to |posts|
      invariant i > 0 ==> IsContinuation(posts[i - 1].symbol)
      invariant all == visits + VisitsOfPosts(A, posts[..i], k, high, lo) && Gathered(used0, work0, all, K)
      invariant !isNondet ==> Before(all, posts, i, k, high, lo)
    {
      var sp := posts[i];
      ContinuationPost(A, S, q, k, sp);
      if !isNondet {
        if i > 0 { PostsAscend(A, q, i); }
        BeforeByte(all, posts, i, k, high, lo, sp.symbol);
        BeforeNext(A, S, q, all, i, k, high, lo);
      }
      K := DecodeByte(A, S, q, k, high, lo, sp, isNondet, K, used0, work0, all);
      MorePosts(A, visits, posts, i, k, high, lo);
      all := all + VisitsOfPost(A, sp, k, high, lo);
    }
    assert posts[..|posts|] == posts;
  }

  lemma StartOfPosts(A: Nfa, visits: StatePost, posts: StatePost, k: nat, high: nat, lo: nat)
    requires k > 0
    ensures visits == visits + VisitsOfPosts(A, posts[..0], k, high, lo)
  {
  }

  lemma MorePosts(A: Nfa, visits: StatePost, posts: StatePost, i: nat, k: nat, high: nat, lo: nat)
    requires k > 0 && i < |posts|
    ensures visits + VisitsOfPosts(A, posts[..i], k, high, lo) + VisitsOfPost(A, posts[i], k, high, lo)
         == visits + VisitsOfPosts(A, posts[..i + 1], k, high, lo)
  {
    PostsSnoc(A, posts, i, k, high, lo);
  }

  /** One byte: the code point is complete, or the next byte follows. */
  method DecodeByte(A: Nfa, ghost S: StateSet, ghost q: State, k: nat, high: nat, lo: nat, sp: SymbolPost, isNondet: bool, K0: Decoder,
                    ghost used0: seq<bool>, ghost work0: seq<State>, ghost visits: StatePost) returns (K: Decoder)
    requires A.Valid() && 1 <= k <= 3 && Continues(A, S, q, k) && sp in A.At(q) && |used0| == A.size
    requires Gathered(used0, work0, visits, K0)
    requires !isNondet ==> AllBelow(visits, Max(lo, (high * 64 + sp.symbol % 64) * Pow64(k - 1)))
    ensures Gathered(used0, work0, visits + VisitsOfPost(A, sp, k, high, lo), K)
    decreases k, 0
  {
    hide Gathered, Continues, Nfa.Valid, AllBelow, VisitsOfTargets, StrictlySorted;
    ContinuationPost(A, S, q, k, sp);
    var symbol := high * 64 + sp.symbol % 64;
    if k == 1 {
      if lo <= symbol < 0x11_0000 {
        assert Pow64(0) == 1;
        K := AddVisit(K0, SymbolPost(symbol, sp.targets), isNondet, used0, work0, visits);
      } else {
        assert visits + [] == visits;
        K := K0;
      }
    } else {
      hide Pow64;
      K := DecodeTargets(A, S, sp.targets, k - 1, symbol, lo, isNondet, K0, used0, work0, visits);
    }
  }

  /** The loop over the targets of a byte before the last one; several targets make what follows nondeterministic. */
  method DecodeTargets(A: Nfa, ghost S: StateSet, targets: seq<State>, k: nat, high: nat, lo: nat, isNondet0: bool, K0: Decoder,
                       ghost used0: seq<bool>, ghost work0: seq<State>, ghost visits: StatePost) returns (K: Decoder)
    requires A.Valid() && 1 <= k <= 3 && (forall t <- targets :: Continues(A, S, t, k)) && |used0| == A.size
    requires Gathered(used0, work0, visits, K0) && (!isNondet0 ==> AllBelow(visits, Max(lo, high * Pow64(k))))
    ensures Gathered(used0, work0, visits + VisitsOfTargets(A, targets, k, high, lo), K)
    decreases k, 2
  {
    hide Gathered, Continues, Nfa.Valid, AllBelow, Visits, VisitsOfTargets, Pow64;
    var isNondet := isNondet0 || |targets| > 1;
    K := K0;
    ghost var all := visits;
    StartOfTargets(A, visits, targets, k, high, lo);
    for i := 0 to |targets|
      invariant all == visits + VisitsOfTargets(A, targets[..i], k, high, lo) && Gathered(used0, work0, all, K)
      invariant i == 0 ==> all == visits
    {
      assert targets[i] in targets;
      K := DecodeTail(A, S, targets[i], k, high, lo, isNondet, K, used0, work0, all);
      MoreTargets(A, visits, targets, i, k, high, lo);
      all := all + Visits(A, targets[i], k, high, lo);
    }
    assert targets[..|targets|] == targets;
  }

  lemma StartOfTargets(A: Nfa, visits: StatePost, targets: seq<State>, k: nat, high: nat, lo: nat)
    requires k > 0
    ensures visits == visits + VisitsOfTargets(A, targets[..0], k, high, lo)
  {
  }

  lemma MoreTargets(A: Nfa, visits: StatePost, targets: seq<State>, i: nat, k: nat, high: nat, lo: nat)
    requires k > 0 && i < |targets|
    ensures visits + VisitsOfTargets(A, targets[..i], k, high, lo) + Visits(A, targets[i], k, high, lo)
         == visits + VisitsOfTargets(A, targets[..i + 1], k, high, lo)
  {
    TargetsSnoc(A, targets, i, k, high, lo);
  }

  // ---------- First bytes ----------

  /** A lower bound of the code points that begin with the byte `b` or a greater one */
  function Bound(b: Symbol): nat {
    if b < 0x80 then b
    else if b < 0xE0 then Max(0x80, (if b < 0xC0 then 0 else b - 0xC0) * 64)
    else if b < 0xF0 then Max(0x800, (b - 0xE0) * 4096)
    else Max(0x1_0000, (b - 0xF0) * 262144)
  }

  lemma BoundMonotone(b: Symbol, c: Symbol)
    requires b <= c < 0x101
    ensures Bound(b) <= Bound(c)
  {
  }

  /** The bounds of a first byte in terms of its bits and those of the next */
  lemma BoundOfFirst(b: Symbol)
    requires b < 0x100 && (Marks1(b) || Marks2(b) || Marks3(b) || Marks4(b)) && Follow(b) > 0
    ensures Bound(b) == Max(Lowest(Follow(b)), HighBits(b) * Pow64(Follow(b)))
    ensures Max(Lowest(Follow(b)), (HighBits(b) + 1) * Pow64(Follow(b))) <= Bound(b + 1)
  {
    FollowBound(b);
    assert Pow64(1) == 64 && Pow64(2) == 4096 && Pow64(3) == 262144;
    hide Marks1, Marks2, Marks3, Marks4, HighBits, Follow, Pow64;
  }

  lemma AsciiBound(b: Symbol)
    requires b < 0x100 && Marks1(b)
    ensures b < 0x80 && Bound(b) == b && Bound(b + 1) >= b + 1
  {
  }

  lemma FirstPost(A: Nfa, S: StateSet, q: State, sp: SymbolPost)
    requires A.Valid() && WellFormed(A, S) && q in S && sp in A.At(q)
    ensures sp.targets != [] && StrictlySorted(sp.targets) && forall p <- sp.targets :: p < A.size
    ensures var b := sp.symbol;
            b < 0x100 && (Marks1(b) || Marks2(b) || Marks3(b) || Marks4(b)) && forall t <- sp.targets :: Continues(A, S, t, Follow(b))
  {
    PostTargets(A, q, sp);
    StepByPost(A, q, sp, sp.targets[0]);
    FirstIsWellFormed(A, S, q, sp.symbol, sp.targets[0]);
    forall t: State | t in sp.targets ensures Continues(A, S, t, Follow(sp.symbol)) {
      StepByPost(A, q, sp, t);
      FirstIsWellFormed(A, S, q, sp.symbol, t);
    }
    hide WellFormed, Nfa.Valid, Step, Marks1, Marks2, Marks3, Marks4;
  }

  /** The visits of a first byte keep below those of the next. */
  lemma FirstBelow(A: Nfa, S: StateSet, q: State, sp: SymbolPost, visits: StatePost)
    requires A.Valid() && WellFormed(A, S) && q in S && sp in A.At(q) && AllBelow(visits, Bound(sp.symbol))
    ensures AllBelow(visits + VisitsOfFirst(A, sp), Bound(sp.symbol + 1))
  {
    hide VisitsOfTargets, WellFormed, Nfa.Valid, Continues, Pow64, HighBits, Bound, Lowest, StrictlySorted, Marks2, Marks3, Marks4;
    FirstPost(A, S, q, sp);
    var b := sp.symbol;
    BoundMonotone(b, b + 1);
    AllBelowMore(visits, Bound(b), Bound(b + 1));
    if Marks1(b) {
      AsciiBound(b);
    } else {
      hide AllBelow;
      BoundOfFirst(b);
      FollowBound(b);
      TargetsBelow(A, S, sp.targets, Follow(b), HighBits(b), Lowest(Follow(b)));
      AllBelowMore(VisitsOfFirst(A, sp), (HighBits(b) + 1) * Pow64(Follow(b)), Bound(b + 1));
      AllBelowConcat(visits, VisitsOfFirst(A, sp), Bound(b + 1));
    }
  }

  /** One first byte: ASCII symbol posts are copied. */
  method DecodeFirst(A: Nfa, ghost S: StateSet, ghost q: State, sp: SymbolPost, K0: Decoder,
                     ghost used0: seq<bool>, ghost work0: seq<State>, ghost visits: StatePost) returns (K: Decoder)
    requires A.Valid() && WellFormed(A, S) && q in S && sp in A.At(q) && |used0| == A.size
    requires Gathered(used0, work0, visits, K0) && AllBelow(visits, Bound(sp.symbol))
    ensures Gathered(used0, work0, visits + VisitsOfFirst(A, sp), K)
  {
    FirstPost(A, S, q, sp);
    var b := sp.symbol;
    hide Gathered, WellFormed, Nfa.Valid, Continues, AllBelow, VisitsOfTargets, StrictlySorted, Bound, HighBits, Pow64;
    if Marks1(b) {
      AsciiBound(b);
      K := AddVisit(K0, sp, false, used0, work0, visits);
    } else {
      BoundOfFirst(b);
      FollowBound(b);
      K := DecodeTargets(A, S, sp.targets, Follow(b), HighBits(b), Lowest(Follow(b)), false, K0, used0, work0, visits);
    }
  }

  /** The next byte that could follow position `i` */
  function NextByte(post: StatePost, i: nat): nat
    requires i <= |post|
  {
    if i == 0 then 0 else post[i - 1].symbol + 1
  }

  /** All posts of a state in which code points begin; its post in the result holds the first visit of each. */
  method DecodeState(A: Nfa, ghost S: StateSet, q: State, used0: seq<bool>, work0: seq<State>) returns (K: Decoder)
    requires A.Valid() && WellFormed(A, S) && q in S && |used0| == A.size
    requires (forall p <- work0 :: Used(used0, p)) && Distinct(work0)
    ensures Gathered(used0, work0, StateVisits(A, q), K)
  {
    K := Decoder([], used0, work0);
    ghost var all: StatePost := [];
    assert Gathered(used0, work0, [], K) by { NothingGathered(used0, work0); }
    hide Gathered, WellFormed, Nfa.Valid, AllBelow, VisitsOfFirst, VisitsOfFirsts, Bound, Used, Distinct;
    var posts := A.At(q);
    AllBelowNothing();
    StartOfFirsts(A, posts);
    for i := 0 to |posts|
      invariant all == VisitsOfFirsts(A, posts[..i]) && Gathered(used0, work0, all, K)
      invariant NextByte(posts, i) <= 0x100 && AllBelow(all, Bound(NextByte(posts, i)))
    {
      var sp := posts[i];
      FirstPost(A, S, q, sp);
      if i > 0 { PostsAscend(A, q, i); }
      BoundMonotone(NextByte(posts, i), sp.symbol);
      AllBelowMore(all, Bound(NextByte(posts, i)), Bound(sp.symbol));
      FirstBelow(A, S, q, sp, all);
      K := DecodeFirst(A, S, q, sp, K, used0, work0, all);
      FirstsSnoc(A, posts, i);
      all := all + VisitsOfFirst(A, sp);
    }
    assert posts[..|posts|] == posts;
  }

  lemma StartOfFirsts(A: Nfa, posts: StatePost)
    ensures VisitsOfFirsts(A, posts[..0]) == []
  {
  }

  lemma AllBelowNothing()
    ensures forall n :: AllBelow([], n)
  {
  }

  lemma NothingGathered(used0: seq<bool>, work0: seq<State>)
    requires (forall p <- work0 :: Used(used0, p)) && Distinct(work0)
    ensures Gathered(used0, work0, [], Decoder([], used0, work0))
  {
  }

  // ---------- The search ----------

  /** `q` has got its post, and all that its visits lead to has been put on the worklist. */
  ghost predicate Decoded(A: Nfa, delta: seq<StatePost>, used: seq<bool>, q: State) {
    && q < |delta| && Gathers(StateVisits(A, q), delta[q])
    && (forall p: State | Leads(StateVisits(A, q), p) :: Used(used, p))
  }

  /** A state is reached from an initial one by code points. */
  ghost predicate BeginsAfter(A: Nfa, u: Word, q: State)
    decreases |u|
  {
    if u == [] then q in A.initial
    else
      var init, c := u[..|u| - 1], u[|u| - 1];
      exists p: State :: BeginsAfter(A, init, p) && SpellsSymbol(A, p, c, q)
  }

  ghost predicate Begins(A: Nfa, q: State) {
    exists u: Word :: BeginsAfter(A, u, q)
  }

  lemma BeginsMore(A: Nfa, q: State, c: Symbol, p: State)
    requires Begins(A, q) && SpellsSymbol(A, q, c, p)
    ensures Begins(A, p)
  {
    hide SpellsSymbol;
    var u: Word :| BeginsAfter(A, u, q);
    assert (u + [c])[..|u| + 1 - 1] == u;
    assert BeginsAfter(A, u + [c], p);
  }

  ghost predicate Exploring(A: Nfa, S: StateSet, delta: seq<StatePost>, used: seq<bool>, work: seq<State>) {
    && |delta| == |used| == A.size
    && (forall q: State | Used(used, q) :: q in S && Begins(A, q))
    && (forall q <- A.initial :: Used(used, q))
    && (forall q <- work :: Used(used, q))
    && (forall q: State | Used(used, q) && q !in work :: Decoded(A, delta, used, q))
    && (forall q: State | q < A.size && (!Used(used, q) || q in work) :: delta[q] == [])
    && Distinct(work)
  }

  ghost function Unused(used: seq<bool>): set<State> {
    set q: State | q in Below(|used|) && !used[q]
  }

  lemma SpellsStates(A: Nfa, S: StateSet, q: State, c: Symbol, p: State)
    requires A.Valid() && WellFormed(A, S) && q in S && SpellsSymbol(A, q, c, p)
    ensures p in S && p < A.size
  {
    SymbolLeads(A, S, q, c, p);
    SymbolRoundTrip(c);
    SpellsIntoState(A, q, EncodeSymbol(c).value, p);
  }

  lemma {:induction false} SpellsIntoState(A: Nfa, q: State, w: Word, p: State)
    requires A.Valid() && w != [] && Spells(A, q, w, p)
    ensures p < A.size
    decreases |w|
  {
    var r: State :| Step(A, q, w[0], r) && Spells(A, r, w[1..], p);
    StepIsState(A, q, w[0], r);
    if |w| > 1 { SpellsIntoState(A, r, w[1..], p); }
  }

  /** Visits lead where code points lead. */
  lemma LeadsSpelled(A: Nfa, S: StateSet, q: State, p: State)
    requires WellFormed(A, S) && q in S
    ensures Leads(StateVisits(A, q), p) <==> exists c :: SpellsSymbol(A, q, c, p)
  {
    hide StateVisits, SpellsSymbol, WellFormed;
    var visits := StateVisits(A, q);
    if Leads(visits, p) {
      var i :| 0 <= i < |visits| && p in visits[i].targets;
      assert InPost(visits, visits[i].symbol, p);
      VisitsAreSpelled(A, S, q, visits[i].symbol, p);
    }
    if c :| SpellsSymbol(A, q, c, p) {
      VisitsAreSpelled(A, S, q, c, p);
      var x := InPostElement(visits, c, p);
    }
  }

  lemma LeadsOn(A: Nfa, S: StateSet, q: State, p: State)
    requires A.Valid() && WellFormed(A, S) && q in S && Begins(A, q) && Leads(StateVisits(A, q), p)
    ensures p in S && Begins(A, p) && p < A.size
  {
    hide StateVisits, SpellsSymbol, WellFormed, Begins, Leads;
    LeadsSpelled(A, S, q, p);
    var c :| SpellsSymbol(A, q, c, p);
    SpellsStates(A, S, q, c, p);
    BeginsMore(A, q, c, p);
  }

  lemma PushedUsed(A: Nfa, S: StateSet, q: State, K: Decoder, used: seq<bool>, rest: seq<State>)
    requires A.Valid() && WellFormed(A, S) && q in S && Begins(A, q) && Gathered(used, rest, StateVisits(A, q), K)
    requires forall p: State | Used(used, p) :: p in S && Begins(A, p)
    ensures forall p: State | Used(K.used, p) :: p in S && Begins(A, p)
    ensures forall p <- K.work :: Used(K.used, p)
    ensures forall p: State | Used(used, p) :: Used(K.used, p)
    ensures forall p: State | Used(K.used, p) && p !in K.work :: Used(used, p) && p !in rest
    ensures forall p: State | !Used(K.used, p) || p in K.work :: !Used(used, p) || p in rest
    ensures forall p: State | Leads(StateVisits(A, q), p) :: Used(K.used, p)
  {
    hide Gathers, StateVisits, Leads, WellFormed, Nfa.Valid, Used, Distinct, Begins;
    forall p: State | Leads(StateVisits(A, q), p) ensures p in S && Begins(A, p) { LeadsOn(A, S, q, p); }
  }

  lemma DecodedKept(A: Nfa, delta: seq<StatePost>, used: seq<bool>, q: State, post: StatePost, used': seq<bool>, p: State)
    requires Decoded(A, delta, used, p) && p != q && q < |delta|
    requires forall r: State | Used(used, r) :: Used(used', r)
    ensures Decoded(A, delta[q := post], used', p)
  {
    hide StateVisits, Gathers, Leads, Used;
  }

  /** One state more has got its post. */
  lemma ExploreStep(A: Nfa, S: StateSet, delta: seq<StatePost>, used: seq<bool>, rest: seq<State>, q: State, K: Decoder)
    requires A.Valid() && WellFormed(A, S) && Exploring(A, S, delta, used, rest + [q]) && Gathered(used, rest, StateVisits(A, q), K)
    ensures q < |delta| && Exploring(A, S, delta[q := K.post], K.used, K.work)
  {
    hide Gathers, StateVisits, Leads, WellFormed, Nfa.Valid, Begins;
    var work := rest + [q];
    assert q in work && (forall p: State :: p in work <==> p in rest || p == q);
    DistinctSnoc(rest, q);
    PushedUsed(A, S, q, K, used, rest);
    forall p: State | Used(K.used, p) && p !in K.work ensures Decoded(A, delta[q := K.post], K.used, p) {
      if p != q { DecodedKept(A, delta, used, q, K.post, K.used, p); }
    }
    hide Decoded;
  }

  /** Either fewer states are unused, or the worklist is what it was without the popped state. */
  lemma ExploreProgress(visits: StatePost, K: Decoder, used: seq<bool>, rest: seq<State>)
    requires Gathered(used, rest, visits, K) && Distinct(rest)
    ensures Unused(K.used) < Unused(used) || (Unused(K.used) == Unused(used) && |K.work| == |rest|)
  {
    hide Gathers, Leads;
    assert forall p: State :: (p in Unused(used) <==> p < |used| && !Used(used, p)) && (p in Unused(K.used) <==> p < |used| && !Used(K.used, p));
    hide Unused;
    if p: State :| Used(K.used, p) && !Used(used, p) {
      assert p in Unused(used) && p !in Unused(K.used);
    } else {
      assert Elements(K.work) == Elements(rest);
      DistinctSize(K.work);
      DistinctSize(rest);
    }
  }

  /** The exploration before any state is popped: every initial state is on the worklist. */
  method PushInitial(A: Nfa) returns (used: seq<bool>, work: seq<State>)
    requires A.Valid()
    ensures |used| == A.size && Distinct(work)
    ensures forall q: State :: Used(used, q) <==> q in A.initial
    ensures forall q: State :: q in work <==> q in A.initial
  {
    used, work := seq(A.size, _ => false), [];
    var todo := A.initial;
    while todo != {}
      invariant todo <= A.initial && |used| == A.size && Distinct(work)
      invariant forall q: State :: Used(used, q) <==> q in A.initial - todo
      invariant forall q: State :: q in work <==> q in A.initial - todo
      decreases todo
    {
      var q :| q in todo;
      DistinctSnoc(work, q);
      ghost var used0, todo0 := used, todo;
      todo, used, work := todo - {q}, used[q := true], work + [q];
      forall p: State ensures Used(used, p) <==> p in A.initial - todo {
        assert Used(used0, p) <==> p in A.initial - todo0;
      }
    }
  }

  lemma ExploringStart(A: Nfa, S: StateSet, used: seq<bool>, work: seq<State>)
    requires WellFormed(A, S) && |used| == A.size && Distinct(work)
    requires forall q: State :: Used(used, q) <==> q in A.initial
    requires forall q: State :: q in work <==> q in A.initial
    ensures Exploring(A, S, seq(A.size, _ => []), used, work)
  {
    assert A.initial <= S;
    forall q: State | q in A.initial ensures Begins(A, q) { assert BeginsAfter(A, [], q); }
    hide WellFormed, Decoded, Begins;
  }

  lemma ExploringPopped(A: Nfa, S: StateSet, delta: seq<StatePost>, used: seq<bool>, rest: seq<State>, q: State)
    requires Exploring(A, S, delta, used, rest + [q])
    ensures q in S && Begins(A, q) && q < |delta| == |used| == A.size && Distinct(rest) && forall p <- rest :: Used(used, p)
  {
    hide Decoded, Begins;
    assert q in rest + [q] && (forall p <- rest :: p in rest + [q]);
    DistinctSnoc(rest, q);
  }

  // ---------- The result ----------

  /** From the states of `U`, all in which code points begin, `R` moves over a code point to the targets of its first visit. */
  ghost predicate KeepsFirst(A: Nfa, R: Nfa, U: StateSet) {
    && R.initial == A.initial && R.final == A.final
    && (forall q: State :: q in U <==> Begins(A, q))
    && (forall q: State, c, p: State | q in U :: Step(R, q, c, p) <==> p in FirstTargets(StateVisits(A, q), c))
  }

  /** The states that have been on the worklist */
  ghost function UsedStates(used: seq<bool>): StateSet {
    set q: State | q in Below(|used|) && used[q]
  }

  /** All states in which code points begin have been on the worklist. */
  lemma {:induction false} BeginsUsed(A: Nfa, S: StateSet, delta: seq<StatePost>, used: seq<bool>, u: Word, q: State)
    requires WellFormed(A, S) && Exploring(A, S, delta, used, []) && BeginsAfter(A, u, q)
    ensures Used(used, q)
    decreases |u|
  {
    if u != [] {
      hide SpellsSymbol, WellFormed, StateVisits, Gathers, Used;
      var p: State :| BeginsAfter(A, u[..|u| - 1], p) && SpellsSymbol(A, p, u[|u| - 1], q);
      BeginsUsed(A, S, delta, used, u[..|u| - 1], p);
      LeadsSpelled(A, S, p, q);
      assert Decoded(A, delta, used, p);
    }
  }

  lemma ExploredKeepsFirst(A: Nfa, S: StateSet, delta: seq<StatePost>, used: seq<bool>)
    requires A.Valid() && WellFormed(A, S) && Exploring(A, S, delta, used, [])
    ensures KeepsFirst(A, Nfa(A.size, delta, A.initial, A.final), UsedStates(used))
  {
    var R := Nfa(A.size, delta, A.initial, A.final);
    hide InPost, WellFormed, Nfa.Valid, StateVisits, BeginsAfter, FirstTargets;
    forall q: State | Begins(A, q) ensures Used(used, q) {
      var u: Word :| BeginsAfter(A, u, q);
      BeginsUsed(A, S, delta, used, u, q);
    }
    assert forall q: State :: q in UsedStates(used) <==> Used(used, q);
    forall q: State | Used(used, q) ensures forall c, p: State :: Step(R, q, c, p) <==> p in FirstTargets(StateVisits(A, q), c) {
      assert Decoded(A, delta, used, q) && R.At(q) == delta[q];
    }
    hide Step, Used, UsedStates, Decoded, Begins;
  }

  lemma PostIsValid(visits: StatePost, post: StatePost, n: nat)
    requires Gathers(visits, post) && forall p: State | Leads(visits, p) :: p < n
    ensures ValidPost(post, n)
  {
    forall i, k | 0 <= i < |post| && 0 <= k < |post[i].targets| ensures post[i].targets[k] < n {
      assert InPost(post, post[i].symbol, post[i].targets[k]);
      var x := FirstTargetsVisited(visits, post[i].symbol);
      assert Leads(visits, post[i].targets[k]);
    }
  }

  lemma ExploredIsValid(A: Nfa, S: StateSet, delta: seq<StatePost>, used: seq<bool>)
    requires A.Valid() && WellFormed(A, S) && Exploring(A, S, delta, used, [])
    ensures Nfa(A.size, delta, A.initial, A.final).Valid()
  {
    hide WellFormed, Gathers, StateVisits, Leads, Begins;
    forall q: State | q < A.size ensures ValidPost(delta[q], A.size) {
      assert Used(used, q) || delta[q] == [];
      if Used(used, q) {
        assert Decoded(A, delta, used, q);
        forall p: State | Leads(StateVisits(A, q), p) ensures p < A.size { LeadsOn(A, S, q, p); }
        PostIsValid(StateVisits(A, q), delta[q], A.size);
      }
    }
    hide ValidPost, Decoded, Used;
  }

  // ---------- What the result accepts ----------

  lemma BeginsWellFormed(A: Nfa, S: StateSet, q: State)
    requires WellFormed(A, S) && Begins(A, q)
    ensures q in S
  {
    var u: Word :| BeginsAfter(A, u, q);
    BeginsAfterWellFormed(A, S, u, q);
  }

  lemma {:induction false} BeginsAfterWellFormed(A: Nfa, S: StateSet, u: Word, q: State)
    requires WellFormed(A, S) && BeginsAfter(A, u, q)
    ensures q in S
    decreases |u|
  {
    if u != [] {
      var p: State :| BeginsAfter(A, u[..|u| - 1], p) && SpellsSymbol(A, p, u[|u| - 1], q);
      BeginsAfterWellFormed(A, S, u[..|u| - 1], p);
      SymbolLeads(A, S, p, u[|u| - 1], q);
    }
  }

  /** The result moves only where the bytes lead ... */
  lemma FirstIsPartial(A: Nfa, S: StateSet, R: Nfa, U: StateSet)
    requires WellFormed(A, S) && KeepsFirst(A, R, U)
    ensures IsPartialDecoding(A, R, U) && U <= S
  {
    hide WellFormed, StateVisits, SpellsSymbol, InPost, BeginsAfter, Step, FirstTargets;
    forall q: State | q in U ensures q in S { BeginsWellFormed(A, S, q); }
    forall q: State | q in A.initial ensures q in U { assert BeginsAfter(A, [], q) by { InitialBegins(A, q); } }
    forall q: State, c, p: State | q in U && Step(R, q, c, p) ensures SpellsSymbol(A, q, c, p) {
      var x := FirstTargetsVisited(StateVisits(A, q), c);
      ElementInPost(StateVisits(A, q), x, p);
      VisitsAreSpelled(A, S, q, c, p);
    }
    forall q: State, c, p: State | q in U && SpellsSymbol(A, q, c, p) ensures p in U { BeginsMore(A, q, c, p); }
    hide Begins;
  }

  lemma InitialBegins(A: Nfa, q: State)
    requires q in A.initial
    ensures BeginsAfter(A, [], q)
  {
  }

  /** ... and wherever they lead just if nothing is lost. */
  lemma DecodesJustIfNothingLost(A: Nfa, S: StateSet, R: Nfa, U: StateSet)
    requires WellFormed(A, S) && KeepsFirst(A, R, U)
    ensures IsDecoding(A, R, U) <==> NothingLost(A, U)
  {
    FirstIsPartial(A, S, R, U);
    hide WellFormed, StateVisits, SpellsSymbol, InPost, Begins, Step, IsPartialDecoding, NothingLostAt;
    forall q: State | q in U
      ensures NothingLostAt(StateVisits(A, q)) <==> forall c, p: State | SpellsSymbol(A, q, c, p) :: Step(R, q, c, p)
    {
      NothingLostIff(StateVisits(A, q));
      forall c, p: State ensures InPost(StateVisits(A, q), c, p) <==> SpellsSymbol(A, q, c, p) { VisitsAreSpelled(A, S, q, c, p); }
      FirstSpelled(A, S, R, U, q);
    }
  }

  lemma FirstSpelled(A: Nfa, S: StateSet, R: Nfa, U: StateSet, q: State)
    requires WellFormed(A, S) && KeepsFirst(A, R, U) && q in U
    ensures forall c, p: State | Step(R, q, c, p) :: SpellsSymbol(A, q, c, p)
    ensures forall c, p: State :: Step(R, q, c, p) <==> p in FirstTargets(StateVisits(A, q), c)
  {
    hide WellFormed, StateVisits, SpellsSymbol, InPost, Begins, Step;
    FirstIsPartial(A, S, R, U);
  }

  /** `decode_utf8`. `U` is the set of states in which code points begin. On code points the result accepts only
      what the byte automaton does; it moves exactly as the bytes do just if nothing is lost. */
  method DecodeUtf8(A: Nfa, ghost S: StateSet) returns (R: Nfa, ghost U: StateSet)
    requires A.Valid() && WellFormed(A, S)
    ensures R.Valid() && R.size == A.size && KeepsFirst(A, R, U)
    ensures forall w: Word | CodePoints(w) :: EncodeAll(w).Some? && (Accepts(R, w) ==> Accepts(A, EncodeAll(w).value))
    ensures IsDecoding(A, R, U) <==> NothingLost(A, U)
    ensures NothingLost(A, U) ==> forall w: Word | CodePoints(w) :: Accepts(A, EncodeAll(w).value) ==> Accepts(R, w)
  {
    hide WellFormed, Nfa.Valid, StateVisits, IsDecoding, IsPartialDecoding, Decoded, KeepsFirst, NothingLost, Accepts, Gathered, CodePoints;
    var used, work := PushInitial(A);
    var delta: seq<StatePost> := seq(A.size, _ => []);
    ExploringStart(A, S, used, work);
    while work != []
      invariant Exploring(A, S, delta, used, work)
      decreases Unused(used), |work|
    {
      hide Exploring;
      var q, rest := work[|work| - 1], work[..|work| - 1];
      assert work == rest + [q];
      ExploringPopped(A, S, delta, used, rest, q);
      var K := DecodeState(A, S, q, used, rest);
      ExploreStep(A, S, delta, used, rest, q, K);
      ExploreProgress(StateVisits(A, q), K, used, rest);
      delta, used, work := delta[q := K.post], K.used, K.work;
    }
    R, U := Nfa(A.size, delta, A.initial, A.final), UsedStates(used);
    ExploredKeepsFirst(A, S, delta, used);
    ExploredIsValid(A, S, delta, used);
    FirstIsPartial(A, S, R, U);
    DecodesJustIfNothingLost(A, S, R, U);
    forall w: Word | CodePoints(w) ensures EncodeAll(w).Some? && (Accepts(R, w) ==> Accepts(A, EncodeAll(w).value)) {
      PartialLanguage(A, R, U, w);
    }
    forall w: Word | NothingLost(A, U) && CodePoints(w) ensures Accepts(A, EncodeAll(w).value) ==> Accepts(R, w) {
      DecodingLanguage(A, R, U, w);
    }
  }

  /** If only the last bytes of code points have several targets, nothing is lost, and the languages agree. */
  lemma OneWayDecodes(A: Nfa, S: StateSet, R: Nfa, U: StateSet)
    requires A.Valid() && WellFormed(A, S) && KeepsFirst(A, R, U) && OneWayFrom(A, U)
    ensures IsDecoding(A, R, U)
    ensures forall w: Word | CodePoints(w) :: EncodeAll(w).Some? && (Accepts(R, w) <==> Accepts(A, EncodeAll(w).value))
  {
    hide WellFormed, Nfa.Valid, IsDecoding, IsPartialDecoding, KeepsFirst, OneWayFrom, NothingLost, Accepts, CodePoints;
    FirstIsPartial(A, S, R, U);
    OneWayLosesNothing(A, S, U);
    DecodesJustIfNothingLost(A, S, R, U);
    forall w: Word | CodePoints(w) ensures EncodeAll(w).Some? && (Accepts(R, w) <==> Accepts(A, EncodeAll(w).value)) {
      DecodingLanguage(A, R, U, w);
    }
  }
}
