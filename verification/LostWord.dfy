/** A word that Nfa::decode_utf8 of src/nfa/nfa.cc loses. */
module LostWord {
  import opened Automata
  import opened Options
  import opened Utf8
  import opened ByteAutomata
  import opened DecodingVisits
  import opened DecodeUtf8

  /** The byte 0xC2 leads from 0 to 1 and to 2, and 0x80 on to 3 and to the final state 4. */
  function Fork(): Nfa {
    Nfa(5, [[SymbolPost(0xC2, [1, 2])], [SymbolPost(0x80, [3])], [SymbolPost(0x80, [4])], [], []], {0}, {4})
  }

  lemma ForkValid()
    ensures Fork().Valid()
  {
    ForkPosts();
    var A := Fork();
    assert |A.delta| == 5 && A.size == 5;
    forall q | 0 <= q < |A.delta| ensures ValidPost(A.delta[q], A.size) { ValidAsPost(A.At(q)); }
    hide ValidPost;
  }

  lemma ValidAsPost(post: StatePost)
    requires post in [[], [SymbolPost(0xC2, [1, 2])], [SymbolPost(0x80, [3])], [SymbolPost(0x80, [4])]]
    ensures ValidPost(post, 5)
  {
  }

  lemma ForkPosts()
    ensures Fork().initial == {0} && Fork().final == {4}
    ensures Fork().At(0) == [SymbolPost(0xC2, [1, 2])] && Fork().At(1) == [SymbolPost(0x80, [3])] && Fork().At(2) == [SymbolPost(0x80, [4])]
    ensures forall q: State | q > 2 :: Fork().At(q) == []
  {
  }

  lemma OnePostSteps(A: Nfa, q: State, sp: SymbolPost, b: Symbol, p: State)
    requires A.At(q) == [sp]
    ensures Step(A, q, b, p) <==> b == sp.symbol && p in sp.targets
  {
    assert A.At(q)[0] == sp;
  }

  lemma ForkSteps(q: State, b: Symbol, p: State)
    ensures Step(Fork(), q, b, p) <==> (q == 0 && b == 0xC2 && p in [1, 2]) || (q == 1 && b == 0x80 && p == 3) || (q == 2 && b == 0x80 && p == 4)
  {
    ForkPosts();
    if q <= 2 { OnePostSteps(Fork(), q, Fork().At(q)[0], b, p); }
    hide Fork, Nfa.Valid;
  }

  lemma ForkContinues(p: State)
    requires p in [1, 2]
    ensures Continues(Fork(), {0, 3, 4}, p, 1)
  {
    hide Step, Fork;
    forall d: Symbol, r: State | Step(Fork(), p, d, r) ensures IsContinuation(d) && Continues(Fork(), {0, 3, 4}, r, 0) { ForkSteps(p, d, r); }
  }

  lemma ForkWellFormed()
    ensures WellFormed(Fork(), {0, 3, 4})
  {
    hide Step, Continues;
    ForkPosts();
    forall q: State, b: Symbol, p: State | q in {0, 3, 4} && Step(Fork(), q, b, p)
      ensures b == 0xC2 && Continues(Fork(), {0, 3, 4}, p, Follow(b))
    {
      ForkSteps(q, b, p);
      ForkContinues(p);
    }
    hide Fork, Nfa.Valid;
  }

  lemma ForkAccepts()
    ensures EncodeAll([0x80]) == Some([0xC2, 0x80]) && Accepts(Fork(), [0xC2, 0x80])
  {
    hide Step, Fork;
    ForkPosts();
    assert [0x80][1..] == [] && [0xC2, 0x80][1..] == [0x80];
    assert EncodeAll([]) == Some([]) && EncodeSymbol(0x80) == Some([0xC2, 0x80]);
    assert [0xC2, 0x80] + [] == [0xC2, 0x80];
    ForkSteps(0, 0xC2, 2);
    ForkSteps(2, 0x80, 4);
    assert AcceptsFrom(Fork(), 4, []);
    StepAccepts(Fork(), 2, [0x80], 4);
    StepAccepts(Fork(), 0, [0xC2, 0x80], 2);
  }

  // ---------- What is visited ----------

  lemma VisitsOfOneFirst(A: Nfa, q: State, sp: SymbolPost)
    requires A.At(q) == [sp]
    ensures StateVisits(A, q) == VisitsOfFirst(A, sp)
  {
    hide VisitsOfFirst;
    assert [sp][..0] == [] && VisitsOfFirsts(A, []) == [];
  }

  lemma VisitsOfTwoTargets(A: Nfa, s: State, t: State, high: nat, lo: nat)
    ensures VisitsOfTargets(A, [s, t], 1, high, lo) == Visits(A, s, 1, high, lo) + Visits(A, t, 1, high, lo)
  {
    hide Visits;
    assert [s, t][..1] == [s] && [s][..0] == [] && VisitsOfTargets(A, [], 1, high, lo) == [];
    assert VisitsOfTargets(A, [s], 1, high, lo) == Visits(A, s, 1, high, lo);
  }

  lemma VisitsOfOneLast(A: Nfa, q: State, sp: SymbolPost, high: nat, lo: nat)
    requires A.At(q) == [sp] && lo <= high * 64 + sp.symbol % 64 < 0x11_0000
    ensures Visits(A, q, 1, high, lo) == [SymbolPost(high * 64 + sp.symbol % 64, sp.targets)]
  {
    assert [sp][..0] == [] && VisitsOfPosts(A, [], 1, high, lo) == [];
    assert VisitsOfPosts(A, [sp], 1, high, lo) == VisitsOfPost(A, sp, 1, high, lo);
  }

  lemma ForkVisits()
    ensures StateVisits(Fork(), 0) == [SymbolPost(0x80, [3]), SymbolPost(0x80, [4])]
  {
    hide StateVisits, VisitsOfTargets, Visits, Fork, Nfa.Valid;
    ForkPosts();
    VisitsOfOneFirst(Fork(), 0, SymbolPost(0xC2, [1, 2]));
    assert Follow(0xC2) == 1 && HighBits(0xC2) == 2 && Lowest(1) == 0x80;
    VisitsOfTwoTargets(Fork(), 1, 2, 2, 0x80);
    VisitsOfOneLast(Fork(), 1, SymbolPost(0x80, [3]), 2, 0x80);
    VisitsOfOneLast(Fork(), 2, SymbolPost(0x80, [4]), 2, 0x80);
  }

  /** The second of the two symbol posts is dropped, and with it U+0080. */
  lemma ForkLosesWord(R: Nfa, U: StateSet)
    requires KeepsFirst(Fork(), R, U)
    ensures Fork().Valid() && WellFormed(Fork(), {0, 3, 4}) && CodePoints([0x80]) && EncodeAll([0x80]).Some?
    ensures Accepts(Fork(), EncodeAll([0x80]).value) && !Accepts(R, [0x80])
  {
    hide StateVisits, Step, WellFormed, Nfa.Valid, EncodeAll, Fork, BeginsAfter;
    ForkPosts();
    ForkValid();
    ForkWellFormed();
    ForkAccepts();
    ForkVisits();
    InitialBegins(Fork(), 0);
    assert 0 in U;
    if Accepts(R, [0x80]) {
      var p := AcceptingStep(R, 0, [0x80]);
      FirstOfTwo(p);
    }
  }

  lemma FirstOfTwo(p: State)
    ensures p in FirstTargets([SymbolPost(0x80, [3]), SymbolPost(0x80, [4])], 0x80) <==> p == 3
  {
  }
}
