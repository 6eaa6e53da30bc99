/** The automaton read off the final partition of minimize_hopcroft (src/nfa/operations.cc). */
module HopcroftQuotient {
  import opened Automata
  import opened Minimality
  import opened HopcroftInvariants

  function QuotientPost(post: StatePost, bIdx: seq<nat>): StatePost
    requires forall i | 0 <= i < |post| :: post[i].targets != [] && post[i].targets[0] < |bIdx|
  {
    seq(|post|, i requires 0 <= i < |post| => SymbolPost(post[i].symbol, [bIdx[post[i].targets[0]]]))
  }

  /** One state per block, with the moves and the finality of its representative `reps[b]`. */
  ghost predicate IsQuotient(A: Nfa, bIdx: seq<nat>, reps: seq<State>, R: Nfa)
    requires A.Valid()
  {
    && |bIdx| == A.size && R.size == |R.delta| == |reps|
    && (forall b | 0 <= b < |reps| :: reps[b] < A.size && bIdx[reps[b]] == b)
    && (forall q | 0 <= q < |bIdx| :: bIdx[q] < |reps|)
    && (forall b | 0 <= b < |reps| :: PostInto(A.At(reps[b]), A.size) && R.delta[b] == QuotientPost(A.At(reps[b]), bIdx))
    && (forall b | 0 <= b < |reps| :: b in R.final <==> reps[b] in A.final)
    && (forall b :: b in R.final ==> b < |reps|)
    && (exists q :: q in A.initial && R.initial == {bIdx[q]})
  }

  ghost predicate PostInto(post: StatePost, n: nat) {
    forall i | 0 <= i < |post| :: post[i].targets != [] && post[i].targets[0] < n
  }

  /** State `q` has an a-transition into block `c`. */
  ghost predicate MovesInto(A: Nfa, bIdx: seq<nat>, q: State, a: Symbol, c: nat) {
    exists p: State :: Step(A, q, a, p) && p < |bIdx| && bIdx[p] == c
  }

  /** The transition structure respects the blocks. */
  ghost predicate Congruent(A: Nfa, bIdx: seq<nat>) {
    forall p: State, q: State, a, c | p < |bIdx| && q < |bIdx| && bIdx[p] == bIdx[q] && MovesInto(A, bIdx, p, a, c) ::
      MovesInto(A, bIdx, q, a, c)
  }

  /** With no splitter left unready the partition is a congruence. */
  lemma StableIsCongruent(A: Nfa, tr: seq<Transition>, bIdx: seq<nat>, tIdx: seq<nat>)
    requires TransitionsOf(A, tr) && Indexed(tr, bIdx, tIdx)
    requires SplittersMatch(tr, bIdx, tIdx) && StableExcept(tr, bIdx, tIdx, [], {})
    ensures Congruent(A, bIdx)
  {
    forall p: State, q: State, a, c | p < |bIdx| && q < |bIdx| && bIdx[p] == bIdx[q] && MovesInto(A, bIdx, p, a, c)
      ensures MovesInto(A, bIdx, q, a, c)
    {
      var p': State :| Step(A, p, a, p') && p' < |bIdx| && bIdx[p'] == c;
      assert Transition(p, a, p') in tr;
      var t :| 0 <= t < |tr| && tr[t] == Transition(p, a, p');
      var u := StableMove(tr, bIdx, tIdx, t, q);
      assert tr[u] in tr && Step(A, q, a, tr[u].target);
    }
  }

  lemma StableMove(tr: seq<Transition>, bIdx: seq<nat>, tIdx: seq<nat>, t: nat, q: State) returns (u: nat)
    requires Indexed(tr, bIdx, tIdx) && SplittersMatch(tr, bIdx, tIdx) && StableExcept(tr, bIdx, tIdx, [], {})
    requires t < |tr| && q < |bIdx| && bIdx[tr[t].source] == bIdx[q]
    ensures u < |tr| && tr[u].source == q && tr[u].symbol == tr[t].symbol && bIdx[tr[u].target] == bIdx[tr[t].target]
  {
    assert HasMove(tr, q, tr[t].symbol);
    u :| 0 <= u < |tr| && tr[u].source == q && tr[u].symbol == tr[t].symbol;
    assert tIdx[t] == tIdx[u];
  }

  lemma QuotientValid(A: Nfa, bIdx: seq<nat>, reps: seq<State>, R: Nfa)
    requires A.Valid() && IsQuotient(A, bIdx, reps, R)
    ensures R.Valid() && Deterministic(R)
  {
    forall b | 0 <= b < |R.delta| ensures ValidPost(R.delta[b], R.size) {
      var post := A.At(reps[b]);
      assert reps[b] < |A.delta| ==> ValidPost(A.delta[reps[b]], A.size);
    }
  }

  /** The moves of a quotient state are those of its representative. */
  lemma QuotientStep(A: Nfa, bIdx: seq<nat>, reps: seq<State>, R: Nfa, b: nat, a: Symbol, c: nat)
    requires A.Valid() && Deterministic(A) && IsQuotient(A, bIdx, reps, R) && b < |reps|
    ensures Step(R, b, a, c) <==> MovesInto(A, bIdx, reps[b], a, c)
  {
    var post := A.At(reps[b]);
    assert PostInto(post, A.size);
    if Step(R, b, a, c) {
      var i :| 0 <= i < |R.delta[b]| && R.delta[b][i].symbol == a && c in R.delta[b][i].targets;
      assert post[i].targets[0] in post[i].targets;
      assert Step(A, reps[b], a, post[i].targets[0]);
    }
    if MovesInto(A, bIdx, reps[b], a, c) {
      var p: State :| Step(A, reps[b], a, p) && p < |bIdx| && bIdx[p] == c;
      var i :| 0 <= i < |post| && post[i].symbol == a && p in post[i].targets;
      assert |A.delta[reps[b]][i].targets| == 1;
      assert R.delta[b][i] == SymbolPost(a, [c]);
    }
  }

  /** Hence they are the moves of any state of the block. */
  lemma QuotientSteps(A: Nfa, bIdx: seq<nat>, reps: seq<State>, R: Nfa, q: State, a: Symbol, c: nat)
    requires A.Valid() && Deterministic(A) && IsQuotient(A, bIdx, reps, R) && Congruent(A, bIdx) && q < A.size
    ensures Step(R, bIdx[q], a, c) <==> MovesInto(A, bIdx, q, a, c)
  {
    QuotientStep(A, bIdx, reps, R, bIdx[q], a, c);
    assert bIdx[reps[bIdx[q]]] == bIdx[q];
  }

  lemma QuotientStepDown(A: Nfa, bIdx: seq<nat>, reps: seq<State>, R: Nfa, q: State, a: Symbol, p: State)
    requires A.Valid() && Deterministic(A) && IsQuotient(A, bIdx, reps, R) && Congruent(A, bIdx) && q < A.size
    requires Step(A, q, a, p)
    ensures p < |bIdx| == A.size && Step(R, bIdx[q], a, bIdx[p])
  {
    StepIsState(A, q, a, p);
    QuotientSteps(A, bIdx, reps, R, q, a, bIdx[p]);
  }

  lemma QuotientStepUp(A: Nfa, bIdx: seq<nat>, reps: seq<State>, R: Nfa, q: State, a: Symbol, c: nat) returns (p: State)
    requires A.Valid() && Deterministic(A) && IsQuotient(A, bIdx, reps, R) && Congruent(A, bIdx) && q < A.size
    requires Step(R, bIdx[q], a, c)
    ensures Step(A, q, a, p) && p < |bIdx| == A.size && bIdx[p] == c
  {
    QuotientSteps(A, bIdx, reps, R, q, a, c);
    p :| Step(A, q, a, p) && p < |bIdx| && bIdx[p] == c;
  }

  lemma {:induction false} QuotientRightLanguage(A: Nfa, bIdx: seq<nat>, reps: seq<State>, R: Nfa, q: State, w: Word)
    requires A.Valid() && Deterministic(A) && IsQuotient(A, bIdx, reps, R)
    requires Congruent(A, bIdx) && Uniform(bIdx, A.final) && q < A.size
    ensures AcceptsFrom(A, q, w) <==> AcceptsFrom(R, bIdx[q], w)
    decreases |w|
  {
    assert |bIdx| == A.size;
    if w == [] {
      assert bIdx[reps[bIdx[q]]] == bIdx[q];
    } else {
      hide IsQuotient, Congruent, Uniform;
      if AcceptsFrom(A, q, w) {
        var p: State :| Step(A, q, w[0], p) && AcceptsFrom(A, p, w[1..]);
        QuotientStepDown(A, bIdx, reps, R, q, w[0], p);
        QuotientRightLanguage(A, bIdx, reps, R, p, w[1..]);
      }
      if AcceptsFrom(R, bIdx[q], w) {
        var c: nat :| Step(R, bIdx[q], w[0], c) && AcceptsFrom(R, c, w[1..]);
        var p := QuotientStepUp(A, bIdx, reps, R, q, w[0], c);
        QuotientRightLanguage(A, bIdx, reps, R, p, w[1..]);
      }
    }
  }

  lemma QuotientLanguage(A: Nfa, bIdx: seq<nat>, reps: seq<State>, R: Nfa)
    requires A.Valid() && Deterministic(A) && IsQuotient(A, bIdx, reps, R)
    requires Congruent(A, bIdx) && Uniform(bIdx, A.final)
    ensures SameLanguage(A, R)
  {
    var q0 :| q0 in A.initial && R.initial == {bIdx[q0]};
    forall w: Word ensures Accepts(A, w) <==> Accepts(R, w) {
      QuotientRightLanguage(A, bIdx, reps, R, q0, w);
      forall q | q in A.initial ensures q == q0 {
        OneInitial(A, q, q0);
      }
      assert bIdx[q0] in R.initial;
    }
  }

  lemma QuotientReduced(A: Nfa, bIdx: seq<nat>, reps: seq<State>, R: Nfa)
    requires A.Valid() && Deterministic(A) && IsQuotient(A, bIdx, reps, R)
    requires Congruent(A, bIdx) && Uniform(bIdx, A.final) && Coarse(A, bIdx)
    ensures Reduced(R)
  {
    forall b, c | 0 <= b < c < R.size ensures !SameRightLanguage(R, b, R, c) {
      assert !SameRightLanguage(A, reps[b], A, reps[c]);
      var w: Word :| !(AcceptsFrom(A, reps[b], w) <==> AcceptsFrom(A, reps[c], w));
      QuotientRightLanguage(A, bIdx, reps, R, reps[b], w);
      QuotientRightLanguage(A, bIdx, reps, R, reps[c], w);
    }
  }

  lemma QuotientRun(A: Nfa, bIdx: seq<nat>, reps: seq<State>, R: Nfa, path: seq<State>, w: Word) returns (image: seq<State>)
    requires A.Valid() && Deterministic(A) && IsQuotient(A, bIdx, reps, R) && Congruent(A, bIdx)
    requires IsRun(A, path, w) && path[0] < A.size
    ensures IsRun(R, image, w) && image[0] == bIdx[path[0]]
    ensures path[|w|] < A.size && image[|w|] == bIdx[path[|w|]]
  {
    forall i | 0 <= i <= |w| ensures path[i] < A.size {
      if i > 0 {
        assert Step(A, path[i - 1], w[i - 1], path[i - 1 + 1]);
        StepIsState(A, path[i - 1], w[i - 1], path[i]);
      }
    }
    image := seq(|path|, i requires 0 <= i < |path| => bIdx[path[i]]);
    forall i | 0 <= i < |w| ensures Step(R, image[i], w[i], image[i + 1]) {
      QuotientStepDown(A, bIdx, reps, R, path[i], w[i], path[i + 1]);
    }
  }

  lemma QuotientTrimmed(A: Nfa, bIdx: seq<nat>, reps: seq<State>, R: Nfa)
    requires A.Valid() && Deterministic(A) && IsQuotient(A, bIdx, reps, R)
    requires Congruent(A, bIdx) && Uniform(bIdx, A.final) && Trimmed(A)
    ensures Trimmed(R)
  {
    forall b | 0 <= b < R.size ensures Useful(R, b) {
      var r := reps[b];
      assert Useful(A, r);
      var v :| AcceptsFrom(A, r, v);
      QuotientRightLanguage(A, bIdx, reps, R, r, v);
      var q, w :| q in A.initial && ReadsTo(A, q, w, r);
      var path :| IsRun(A, path, w) && path[0] == q && path[|w|] == r;
      var image := QuotientRun(A, bIdx, reps, R, path, w);
      QuotientStart(A, bIdx, reps, R, q);
      assert ReadsTo(R, bIdx[q], w, b);
    }
  }

  lemma QuotientStart(A: Nfa, bIdx: seq<nat>, reps: seq<State>, R: Nfa, q: State)
    requires A.Valid() && Deterministic(A) && IsQuotient(A, bIdx, reps, R) && q in A.initial
    ensures bIdx[q] in R.initial
  {
    var q0 :| q0 in A.initial && R.initial == {bIdx[q0]};
    OneInitial(A, q, q0);
  }
}
