/** Products and powers of languages, and words without their epsilons. */
module Languages {
  import opened Automata

  type Language = iset<Word>

  ghost function LanguageOf(A: Nfa): Language {
    iset w: Word | Accepts(A, w)
  }

  ghost function Product(L: Language, K: Language): Language {
    iset w: Word | IsProduct(L, K, w)
  }

  ghost predicate IsProduct(L: Language, K: Language, w: Word) {
    exists u: Word, v: Word :: Splits(w, u, v) && u in L && v in K
  }

  predicate Splits(w: Word, u: Word, v: Word) {
    w == u + v
  }

  ghost function Power(L: Language, k: nat): Language {
    if k == 0 then iset{[]} else Product(L, Power(L, k - 1))
  }

  lemma InProduct(L: Language, K: Language, u: Word, v: Word)
    requires u in L && v in K
    ensures u + v in Product(L, K)
  {
    assert Splits(u + v, u, v);
  }

  lemma ProductAssociative(L: Language, K: Language, M: Language)
    ensures Product(Product(L, K), M) == Product(L, Product(K, M))
  {
    forall w | w in Product(Product(L, K), M) ensures w in Product(L, Product(K, M)) {
      var x: Word, z: Word :| Splits(w, x, z) && x in Product(L, K) && z in M;
      var u: Word, v: Word :| Splits(x, u, v) && u in L && v in K;
      InProduct(K, M, v, z);
      InProduct(L, Product(K, M), u, v + z);
      assert u + v + z == u + (v + z);
    }
    forall w | w in Product(L, Product(K, M)) ensures w in Product(Product(L, K), M) {
      var u: Word, x: Word :| Splits(w, u, x) && u in L && x in Product(K, M);
      var v: Word, z: Word :| Splits(x, v, z) && v in K && z in M;
      InProduct(L, K, u, v);
      InProduct(Product(L, K), M, u + v, z);
      assert u + v + z == u + (v + z);
    }
  }

  lemma ProductUnit(L: Language)
    ensures Product(iset{[]}, L) == L && Product(L, iset{[]}) == L
  {
    hide Product;
    forall w: Word ensures w in Product(iset{[]}, L) <==> w in L { UnitLeft(L, w); }
    forall w: Word ensures w in Product(L, iset{[]}) <==> w in L { UnitRight(L, w); }
  }

  lemma UnitLeft(L: Language, w: Word)
    ensures w in Product(iset{[]}, L) <==> w in L
  {
    if w in L {
      assert [] + w == w;
      InProduct(iset{[]}, L, [], w);
    }
    if w in Product(iset{[]}, L) {
      var u: Word, v: Word :| Splits(w, u, v) && u in iset{[]} && v in L;
      assert u + v == v;
    }
  }

  lemma UnitRight(L: Language, w: Word)
    ensures w in Product(L, iset{[]}) <==> w in L
  {
    if w in L {
      assert w + [] == w;
      InProduct(L, iset{[]}, w, []);
    }
    if w in Product(L, iset{[]}) {
      var u: Word, v: Word :| Splits(w, u, v) && u in L && v in iset{[]};
      assert u + v == u;
    }
  }

  /** Squaring the base halves the exponent. */
  lemma {:induction false} PowerOfSquare(L: Language, k: nat)
    ensures Power(Product(L, L), k) == Power(L, 2 * k)
  {
    if k > 0 {
      PowerOfSquare(L, k - 1);
      ProductAssociative(L, L, Power(L, 2 * (k - 1)));
      hide Product;
      assert Power(L, 2 * k) == Product(L, Power(L, 2 * k - 1));
    }
  }

  lemma NoWord(A: Nfa)
    requires A.initial == {} || A.final == {}
    ensures forall w: Word :: !Accepts(A, w)
  {
    forall w: Word ensures !Accepts(A, w) {
      if Accepts(A, w) {
        var q :| q in A.initial && AcceptsFrom(A, q, w);
        var path := AcceptingRun(A, q, w);
      }
    }
  }

  /** The word without the symbols from `firstEpsilon` on */
  function Visible(w: Word, firstEpsilon: Symbol): Word {
    if w == [] then [] else (if w[0] >= firstEpsilon then [] else [w[0]]) + Visible(w[1..], firstEpsilon)
  }

  lemma VisibleFirst(w: Word, firstEpsilon: Symbol)
    requires w != []
    ensures w[0] >= firstEpsilon ==> Visible(w, firstEpsilon) == Visible(w[1..], firstEpsilon)
    ensures w[0] < firstEpsilon ==> Visible(w, firstEpsilon) != [] && Visible(w, firstEpsilon)[0] == w[0]
                                    && Visible(w, firstEpsilon)[1..] == Visible(w[1..], firstEpsilon)
  {
  }

  lemma {:induction false} VisibleSnoc(w: Word, a: Symbol, firstEpsilon: Symbol)
    ensures Visible(w + [a], firstEpsilon) == Visible(w, firstEpsilon) + if a >= firstEpsilon then [] else [a]
    decreases |w|
  {
    if w == [] {
      assert [a][1..] == [] && Visible([a][1..], firstEpsilon) == [];
    } else {
      assert (w + [a])[1..] == w[1..] + [a];
      VisibleSnoc(w[1..], a, firstEpsilon);
    }
  }

  /** All transitions are over the given symbols. */
  ghost predicate StepsOver(A: Nfa, symbols: set<Symbol>) {
    forall q: State, a, p: State | Step(A, q, a, p) :: a in symbols
  }

  /** Over epsilons only, or none, a word keeps nothing or everything. */
  lemma {:induction false} OneKindVisible(A: Nfa, symbols: set<Symbol>, firstEpsilon: Symbol, q: State, w: Word)
    requires StepsOver(A, symbols) && AcceptsFrom(A, q, w)
    requires (forall a <- symbols :: a < firstEpsilon) || (forall a <- symbols :: a >= firstEpsilon)
    ensures Visible(w, firstEpsilon) == if forall a <- symbols :: a < firstEpsilon then w else []
    decreases |w|
  {
    if w != [] {
      var p := AcceptingStep(A, q, w);
      assert w[0] in symbols;
      OneKindVisible(A, symbols, firstEpsilon, p, w[1..]);
      assert w == [w[0]] + w[1..];
    }
  }
}
