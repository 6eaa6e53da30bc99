/** The code points that an automaton over UTF-8 bytes spells: what Nfa::decode_utf8 of src/nfa/nfa.cc is to find. */
module ByteAutomata {
  import opened Automata
  import opened Utf8

  predicate IsContinuation(b: Symbol) {
    0x80 <= b < 0xC0
  }

  /** From `q` lead only words of `k` continuation bytes, into states where code points begin. */
  ghost predicate Continues(A: Nfa, S: StateSet, q: State, k: nat)
    decreases k
  {
    if k == 0 then q in S
    else forall b: Symbol, p: State | Step(A, q, b, p) :: IsContinuation(b) && Continues(A, S, p, k - 1)
  }

  /** How many continuation bytes follow the first byte */
  function Follow(b: Symbol): nat {
    if Marks1(b) then 0 else if Marks2(b) then 1 else if Marks3(b) then 2 else 3
  }

  /** In the states of `S` code points begin. */
  ghost predicate WellFormed(A: Nfa, S: StateSet) {
    && A.initial <= S
    && (forall q: State, b: Symbol, p: State | q in S && Step(A, q, b, p) ::
          b < 0x100 && (Marks1(b) || Marks2(b) || Marks3(b) || Marks4(b)) && Continues(A, S, p, Follow(b)))
  }

  /** Reading `w` from `q` leads to `p`. */
  ghost predicate Spells(A: Nfa, q: State, w: Word, p: State)
    decreases |w|
  {
    if w == [] then q == p else exists r: State :: Step(A, q, w[0], r) && Spells(A, r, w[1..], p)
  }

  /** `q` leads to `p` by the bytes of the code point `c`. */
  ghost predicate SpellsSymbol(A: Nfa, q: State, c: Symbol, p: State) {
    EncodeSymbol(c).Some? && Spells(A, q, EncodeSymbol(c).value, p)
  }

  /** From the states of `U`, which code points do not leave, `R` moves over a code point only where `A`
      moves over its bytes. */
  ghost predicate IsPartialDecoding(A: Nfa, R: Nfa, U: StateSet) {
    && R.initial == A.initial && R.final == A.final && A.initial <= U
    && (forall q: State, c, p: State | q in U && Step(R, q, c, p) :: SpellsSymbol(A, q, c, p))
    && (forall q: State, c, p: State | q in U && SpellsSymbol(A, q, c, p) :: p in U)
  }

  /** ... and everywhere it does. */
  ghost predicate IsDecoding(A: Nfa, R: Nfa, U: StateSet) {
    && IsPartialDecoding(A, R, U)
    && (forall q: State, c, p: State | q in U && SpellsSymbol(A, q, c, p) :: Step(R, q, c, p))
  }

  // ---------- Language ----------

  lemma {:induction false} SpellsThenAccepts(A: Nfa, q: State, u: Word, v: Word)
    ensures AcceptsFrom(A, q, u + v) <==> exists p: State :: Spells(A, q, u, p) && AcceptsFrom(A, p, v)
    decreases |u|
  {
    if u == [] {
      assert u + v == v;
      assert Spells(A, q, [], q);
    } else {
      assert (u + v)[1..] == u[1..] + v && (u + v)[0] == u[0];
      forall r: State ensures AcceptsFrom(A, r, u[1..] + v) <==> exists p: State :: Spells(A, r, u[1..], p) && AcceptsFrom(A, p, v) {
        SpellsThenAccepts(A, r, u[1..], v);
      }
      hide Step;
      if AcceptsFrom(A, q, u + v) {
        var r := AcceptingStep(A, q, u + v);
        var p: State :| Spells(A, r, u[1..], p) && AcceptsFrom(A, p, v);
        assert Spells(A, q, u, p);
      }
      if exists p: State :: Spells(A, q, u, p) && AcceptsFrom(A, p, v) {
        var p: State :| Spells(A, q, u, p) && AcceptsFrom(A, p, v);
        var r: State :| Step(A, q, u[0], r) && Spells(A, r, u[1..], p);
        StepAccepts(A, q, u + v, r);
      }
    }
  }

  /** Code points lead from state to state in which code points begin. */
  lemma {:induction false} ContinuationsLead(A: Nfa, S: StateSet, q: State, w: Word, p: State)
    requires Continues(A, S, q, |w|) && Spells(A, q, w, p)
    ensures p in S
    decreases |w|
  {
    if w != [] {
      var r: State :| Step(A, q, w[0], r) && Spells(A, r, w[1..], p);
      ContinuationsLead(A, S, r, w[1..], p);
    }
  }

  lemma SymbolLeads(A: Nfa, S: StateSet, q: State, c: Symbol, p: State)
    requires WellFormed(A, S) && q in S && SpellsSymbol(A, q, c, p)
    ensures p in S
  {
    SymbolRoundTrip(c);
    var bytes := EncodeSymbol(c).value;
    var r: State :| Step(A, q, bytes[0], r) && Spells(A, r, bytes[1..], p);
    assert Follow(bytes[0]) == |bytes| - 1;
    ContinuationsLead(A, S, r, bytes[1..], p);
  }

  lemma SpelledBytes(A: Nfa, q: State, c: Symbol, p: State)
    requires EncodeSymbol(c).Some?
    ensures SpellsSymbol(A, q, c, p) <==> Spells(A, q, EncodeSymbol(c).value, p)
  {
  }

  /** A partial decoding accepts only words whose encoding the byte automaton accepts. */
  lemma {:induction false} PartialRightLanguage(A: Nfa, R: Nfa, U: StateSet, q: State, w: Word)
    requires IsPartialDecoding(A, R, U) && q in U && CodePoints(w)
    ensures EncodeAll(w).Some? && (AcceptsFrom(R, q, w) ==> AcceptsFrom(A, q, EncodeAll(w).value))
    decreases |w|
  {
    EncodesCodePoints(w);
    if w != [] && AcceptsFrom(R, q, w) {
      CodePointsFirst(w);
      hide EncodeSymbol, CodePoints, Step, Spells, SpellsSymbol;
      var p := AcceptingStep(R, q, w);
      PartialRightLanguage(A, R, U, p, w[1..]);
      SpelledBytes(A, q, w[0], p);
      SpellsThenAccepts(A, q, EncodeSymbol(w[0]).value, EncodeAll(w[1..]).value);
    }
  }

  /** A decoding accepts all of them. */
  lemma {:induction false} DecodingRightLanguage(A: Nfa, R: Nfa, U: StateSet, q: State, w: Word)
    requires IsDecoding(A, R, U) && q in U && CodePoints(w)
    ensures EncodeAll(w).Some? && (AcceptsFrom(A, q, EncodeAll(w).value) ==> AcceptsFrom(R, q, w))
    decreases |w|
  {
    EncodesCodePoints(w);
    if w != [] {
      CodePointsFirst(w);
      hide EncodeSymbol, CodePoints, Step, Spells, SpellsSymbol;
      var bytes, rest := EncodeSymbol(w[0]).value, EncodeAll(w[1..]).value;
      SpellsThenAccepts(A, q, bytes, rest);
      if AcceptsFrom(A, q, bytes + rest) {
        var p: State :| Spells(A, q, bytes, p) && AcceptsFrom(A, p, rest);
        SpelledBytes(A, q, w[0], p);
        DecodingRightLanguage(A, R, U, p, w[1..]);
        StepAccepts(R, q, w, p);
      }
    }
  }

  lemma PartialLanguage(A: Nfa, R: Nfa, U: StateSet, w: Word)
    requires IsPartialDecoding(A, R, U) && CodePoints(w)
    ensures EncodeAll(w).Some? && (Accepts(R, w) ==> Accepts(A, EncodeAll(w).value))
  {
    EncodesCodePoints(w);
    if Accepts(R, w) {
      var q :| q in R.initial && AcceptsFrom(R, q, w);
      PartialRightLanguage(A, R, U, q, w);
    }
  }

  lemma DecodingLanguage(A: Nfa, R: Nfa, U: StateSet, w: Word)
    requires IsDecoding(A, R, U) && CodePoints(w)
    ensures EncodeAll(w).Some? && (Accepts(R, w) <==> Accepts(A, EncodeAll(w).value))
  {
    PartialLanguage(A, R, U, w);
    if Accepts(A, EncodeAll(w).value) {
      var q :| q in A.initial && AcceptsFrom(A, q, EncodeAll(w).value);
      DecodingRightLanguage(A, R, U, q, w);
    }
  }

  // ---------- Continuation bytes ----------

  function Pow64(k: nat): (r: nat)
    ensures r > 0
  {
    if k == 0 then 1 else 64 * Pow64(k - 1)
  }

  /** The last `k` bytes of a code point */
  function Continuations(c: Symbol, k: nat): Word
  {
    if k == 0 then [] else [0x80 + c / Pow64(k - 1) % 64] + Continuations(c, k - 1)
  }

  /** Reading `k` bytes from `q` to `p`, their low bits appended to those of `high`, gives `c`. */
  ghost predicate Decodes(A: Nfa, q: State, k: nat, high: nat, c: Symbol, p: State)
    decreases k
  {
    if k == 0 then c == high && p == q
    else exists b: Symbol, r: State :: Step(A, q, b, r) && Decodes(A, r, k - 1, high * 64 + b % 64, c, p)
  }

  lemma DivideByPowers(c: Symbol, k: nat)
    requires 0 < k <= 3
    ensures c / Pow64(k) == c / Pow64(k - 1) / 64
  {
    assert Pow64(1) == 64 && Pow64(2) == 4096 && Pow64(3) == 262144;
  }

  lemma OneDigit(x: nat, high: nat, b: Symbol)
    requires IsContinuation(b)
    ensures high * 64 + b % 64 == x <==> high == x / 64 && b == 0x80 + x % 64
  {
  }

  /** Decoding reads exactly the continuation bytes of `c`. */
  lemma {:induction false} DecodesContinuations(A: Nfa, S: StateSet, q: State, k: nat, high: nat, c: Symbol, p: State)
    requires k <= 3 && Continues(A, S, q, k)
    ensures Decodes(A, q, k, high, c, p) <==> high == c / Pow64(k) && Spells(A, q, Continuations(c, k), p)
    decreases k
  {
    if k > 0 {
      var w := Continuations(c, k);
      assert w[1..] == Continuations(c, k - 1);
      DivideByPowers(c, k);
      forall b: Symbol, r: State | Step(A, q, b, r)
        ensures Decodes(A, r, k - 1, high * 64 + b % 64, c, p) <==>
                high == c / Pow64(k) && b == w[0] && Spells(A, r, w[1..], p)
      {
        DecodesContinuations(A, S, r, k - 1, high * 64 + b % 64, c, p);
        OneDigit(c / Pow64(k - 1), high, b);
      }
      hide Continuations, Continues, Step, Pow64;
    }
  }

  // ---------- First bytes ----------

  /** The bits of the code point in the first byte */
  function HighBits(b: Symbol): nat {
    if Marks2(b) then b % 32 else if Marks3(b) then b % 16 else b % 8
  }

  /** The least code point with `k` continuation bytes */
  function Lowest(k: nat): nat {
    if k == 0 then 0 else if k == 1 then 0x80 else if k == 2 then 0x800 else 0x1_0000
  }

  /** The bytes of a code point: the first, then the continuations. */
  lemma SymbolBytes(c: Symbol)
    requires c < 0x11_0000
    ensures var k := if c < 0x80 then 0 else if c < 0x800 then 1 else if c < 0x1_0000 then 2 else 3;
            && EncodeSymbol(c).Some? && Lowest(k) <= c
            && EncodeSymbol(c).value[1..] == Continuations(c, k) && |EncodeSymbol(c).value| == k + 1
            && Follow(EncodeSymbol(c).value[0]) == k && EncodeSymbol(c).value[0] < 0x100
            && (k > 0 ==> HighBits(EncodeSymbol(c).value[0]) == c / Pow64(k))
            && (k == 0 ==> EncodeSymbol(c).value[0] == c)
  {
    assert Pow64(0) == 1 && Pow64(1) == 64 && Pow64(2) == 4096 && Pow64(3) == 262144;
    assert Continuations(c, 0) == [] && Continuations(c, 1) == [Low(c)] && Continuations(c, 2) == [Middle(c), Low(c)];
    assert Continuations(c, 3) == [High(c), Middle(c), Low(c)];
    FirstByte(c);
    hide Low, Middle, High, Continuations, Pow64, First2, First3, First4, HighBits, Follow;
  }

  lemma FirstByte(c: Symbol)
    ensures c < 0x80 ==> Follow(c) == 0
    ensures c < 0x800 ==> Follow(First2(c)) == 1 && HighBits(First2(c)) == c / 64 && First2(c) < 0x100
    ensures c < 0x1_0000 ==> Follow(First3(c)) == 2 && HighBits(First3(c)) == c / 4096 && First3(c) < 0x100
    ensures c < 0x11_0000 ==> Follow(First4(c)) == 3 && HighBits(First4(c)) == c / 262144 && First4(c) < 0x100
  {
    FirstByteBits(c / 64, c / 4096, c / 262144);
  }

  lemma FirstByteBits(x: nat, y: nat, z: nat)
    ensures x < 32 ==> Follow(0xC0 + x) == 1 && HighBits(0xC0 + x) == x
    ensures y < 16 ==> Follow(0xE0 + y) == 2 && HighBits(0xE0 + y) == y
    ensures z < 8 ==> Follow(0xF0 + z) == 3 && HighBits(0xF0 + z) == z
  {
  }

  /** Reading the first byte `b`, the one into `r`, and what follows gives `c`. */
  ghost predicate FromFirst(A: Nfa, b: Symbol, r: State, c: Symbol, p: State) {
    if Follow(b) == 0 then c == b && p == r
    else Lowest(Follow(b)) <= c < 0x11_0000 && Decodes(A, r, Follow(b), HighBits(b), c, p)
  }

  ghost predicate DecodedBy(A: Nfa, q: State, c: Symbol, p: State) {
    exists b: Symbol, r: State :: Step(A, q, b, r) && FromFirst(A, b, r, c, p)
  }

  lemma FollowBound(b: Symbol)
    requires b < 0x100 && (Marks1(b) || Marks2(b) || Marks3(b) || Marks4(b))
    ensures Follow(b) == 0 ==> b < 0x80
    ensures Follow(b) == 1 ==> b == 0xC0 + HighBits(b) && HighBits(b) < 32
    ensures Follow(b) == 2 ==> b == 0xE0 + HighBits(b) && HighBits(b) < 16
    ensures Follow(b) == 3 ==> b == 0xF0 + HighBits(b) && HighBits(b) < 8
  {
  }

  /** The first byte and the checked range determine the bytes of the code point. */
  lemma RangeDeterminesBytes(b: Symbol, c: Symbol)
    requires b < 0x100 && (Marks1(b) || Marks2(b) || Marks3(b) || Marks4(b))
    requires Follow(b) > 0 && Lowest(Follow(b)) <= c < 0x11_0000 && HighBits(b) == c / Pow64(Follow(b))
    ensures EncodeSymbol(c).Some? && EncodeSymbol(c).value == [b] + Continuations(c, Follow(b))
  {
    FollowBound(b);
    assert Pow64(1) == 64 && Pow64(2) == 4096 && Pow64(3) == 262144;
    SymbolBytes(c);
    FirstByte(c);
    hide Continuations, Follow, HighBits, Marks1, Marks2, Marks3, Marks4, Pow64;
    var bytes := EncodeSymbol(c).value;
    assert bytes == [bytes[0]] + bytes[1..];
  }

  lemma FirstIsWellFormed(A: Nfa, S: StateSet, q: State, b: Symbol, r: State)
    requires WellFormed(A, S) && q in S && Step(A, q, b, r)
    ensures b < 0x100 && (Marks1(b) || Marks2(b) || Marks3(b) || Marks4(b)) && Continues(A, S, r, Follow(b))
  {
  }

  lemma DecodedSpells(A: Nfa, S: StateSet, q: State, b: Symbol, r: State, c: Symbol, p: State)
    requires WellFormed(A, S) && q in S && Step(A, q, b, r) && FromFirst(A, b, r, c, p)
    ensures SpellsSymbol(A, q, c, p)
  {
    FirstIsWellFormed(A, S, q, b, r);
    hide WellFormed, Step, Marks1, Marks2, Marks3, Marks4, HighBits, Decodes, Continuations, Continues;
    if Follow(b) == 0 {
      FollowBound(b);
      assert Spells(A, r, [], r);
      SpellsCons(A, q, b, r, [], r);
      assert [b] + [] == [b];
    } else {
      hide EncodeSymbol, Spells;
      DecodesContinuations(A, S, r, Follow(b), HighBits(b), c, p);
      RangeDeterminesBytes(b, c);
      SpellsCons(A, q, b, r, Continuations(c, Follow(b)), p);
    }
  }

  lemma SpelledDecodes(A: Nfa, S: StateSet, q: State, c: Symbol, p: State)
    requires WellFormed(A, S) && q in S && SpellsSymbol(A, q, c, p)
    ensures DecodedBy(A, q, c, p)
  {
    assert c < 0x11_0000;
    SymbolBytes(c);
    var bytes := EncodeSymbol(c).value;
    var b := bytes[0];
    var r: State :| Step(A, q, b, r) && Spells(A, r, bytes[1..], p);
    FirstIsWellFormed(A, S, q, b, r);
    hide WellFormed, Step, Marks1, Marks2, Marks3, Marks4, HighBits, Decodes, Continuations, Continues, EncodeSymbol, Pow64, Follow;
    if Follow(b) > 0 { DecodesContinuations(A, S, r, Follow(b), HighBits(b), c, p); }
    assert FromFirst(A, b, r, c, p);
  }

  /** Decoding byte by byte finds the code points that the bytes spell. */
  lemma DecodedIsSpelled(A: Nfa, S: StateSet, q: State, c: Symbol, p: State)
    requires WellFormed(A, S) && q in S
    ensures DecodedBy(A, q, c, p) <==> SpellsSymbol(A, q, c, p)
  {
    hide WellFormed, Step, FromFirst, SpellsSymbol;
    if DecodedBy(A, q, c, p) {
      var b: Symbol, r: State :| Step(A, q, b, r) && FromFirst(A, b, r, c, p);
      DecodedSpells(A, S, q, b, r, c, p);
    }
    if SpellsSymbol(A, q, c, p) { SpelledDecodes(A, S, q, c, p); }
  }

  lemma SpellsCons(A: Nfa, q: State, b: Symbol, r: State, w: Word, p: State)
    requires Step(A, q, b, r) && Spells(A, r, w, p)
    ensures Spells(A, q, [b] + w, p)
  {
    assert ([b] + w)[1..] == w;
  }
}
