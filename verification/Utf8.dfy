/** UTF-8 on words (encode_word_utf8 and decode_word_utf8 of src/alphabet.cc).  The bit operations
    of the source are written as arithmetic, which for these operands is the same: `x & 0x3F` is
    `x % 64`, `x >> 6` is `x / 64`, and `|` of disjoint bits is `+`. */
module Utf8 {
  import opened Automata
  import opened Options

  type CodeWord = Word

  /** The first byte of two, three or four: the marker and the highest bits */
  function First2(s: Symbol): Symbol { 0xC0 + s / 64 }
  function First3(s: Symbol): Symbol { 0xE0 + s / 4096 }
  function First4(s: Symbol): Symbol { 0xF0 + s / 262144 }

  /** The continuation bytes for bits 0 to 5, 6 to 11 and 12 to 17 */
  function Low(s: Symbol): Symbol { 0x80 + s % 64 }
  function Middle(s: Symbol): Symbol { 0x80 + (s / 64) % 64 }
  function High(s: Symbol): Symbol { 0x80 + (s / 4096) % 64 }

  /** The bytes of one code point, the layout of section 3 of RFC 3629 */
  function EncodeSymbol(symbol: Symbol): Option<CodeWord> {
    if symbol < 0x80 then Some([symbol])
    else if symbol < 0x800 then Some([First2(symbol), Low(symbol)])
    else if symbol < 0x1_0000 then Some([First3(symbol), Middle(symbol), Low(symbol)])
    else if symbol < 0x11_0000 then Some([First4(symbol), High(symbol), Middle(symbol), Low(symbol)])
    else None
  }

  /** `bytes` before what follows, if that is defined */
  function Prepend(bytes: CodeWord, rest: Option<CodeWord>): Option<CodeWord> {
    match rest
    case Some(w) => Some(bytes + w)
    case None => None
  }

  lemma PrependTwice(a: CodeWord, b: CodeWord, rest: Option<CodeWord>)
    ensures Prepend(a, Prepend(b, rest)) == Prepend(a + b, rest)
    ensures Prepend([], rest) == rest
  {
    if rest.Some? { assert a + (b + rest.value) == a + b + rest.value && [] + rest.value == rest.value; }
  }

  function EncodeAll(word: CodeWord): Option<CodeWord>
    decreases |word|
  {
    if word == [] then Some([])
    else
      match EncodeSymbol(word[0])
      case Some(bytes) => Prepend(bytes, EncodeAll(word[1..]))
      case None => None
  }

  ghost predicate CodePoints(word: CodeWord) {
    forall i | 0 <= i < |word| :: word[i] < 0x11_0000
  }

  lemma CodePointsFirst(word: CodeWord)
    requires word != []
    ensures CodePoints(word) <==> EncodeSymbol(word[0]).Some? && CodePoints(word[1..])
  {
    assert forall i | 0 <= i < |word| - 1 :: word[1..][i] == word[i + 1];
    assert word == [word[0]] + word[1..];
  }

  lemma {:induction false} EncodesCodePoints(word: CodeWord)
    ensures EncodeAll(word).Some? <==> CodePoints(word)
    decreases |word|
  {
    if word != [] {
      EncodesCodePoints(word[1..]);
      CodePointsFirst(word);
    }
  }

  /** `encode_word_utf8`; None is the exception. */
  method EncodeWord(word: CodeWord) returns (r: Option<CodeWord>)
    ensures r == EncodeAll(word)
    ensures r.Some? <==> CodePoints(word)
  {
    EncodesCodePoints(word);
    hide CodePoints, EncodeSymbol, Prepend;
    var encoded: CodeWord := [];
    assert word[0..] == word;
    PrependTwice([], [], EncodeAll(word));
    for i := 0 to |word|
      invariant EncodeAll(word) == Prepend(encoded, EncodeAll(word[i..]))
    {
      assert word[i..][0] == word[i] && word[i..][1..] == word[i + 1..];
      match EncodeSymbol(word[i])
      case Some(bytes) =>
        PrependTwice(encoded, bytes, EncodeAll(word[i + 1..]));
        encoded := encoded + bytes;
      case None =>
        PrependNone(encoded);
        return None;
    }
    assert word[|word|..] == [];
    r := Some(encoded);
    PrependEnd(encoded);
  }

  lemma PrependNone(a: CodeWord)
    ensures Prepend(a, None) == None
  {
  }

  lemma PrependEnd(a: CodeWord)
    ensures Prepend(a, Some([])) == Some(a)
  {
    assert a + [] == a;
  }

  /** The markers of first bytes: 0xxxxxxx, 110xxxxx, 1110xxxx and 11110xxx */
  predicate Marks1(b: Symbol) { b / 128 % 2 == 0 }
  predicate Marks2(b: Symbol) { b / 32 % 8 == 6 }
  predicate Marks3(b: Symbol) { b / 16 % 16 == 14 }
  predicate Marks4(b: Symbol) { b / 8 % 32 == 30 }

  /** How many bytes the first byte announces; 0 if it cannot begin a code point */
  function ByteCount(b: Symbol): nat {
    if Marks1(b) then 1
    else if Marks2(b) then 2
    else if Marks3(b) then 3
    else if Marks4(b) && b < 0xF5 then 4
    else 0
  }

  function Join2(b0: Symbol, b1: Symbol): Symbol { b0 % 32 * 64 + b1 % 64 }
  function Join3(b0: Symbol, b1: Symbol, b2: Symbol): Symbol { b0 % 16 * 4096 + b1 % 64 * 64 + b2 % 64 }
  function Join4(b0: Symbol, b1: Symbol, b2: Symbol, b3: Symbol): Symbol {
    b0 % 8 * 262144 + b1 % 64 * 4096 + b2 % 64 * 64 + b3 % 64
  }

  /** The code point in the first `n` bytes */
  function DecodeBytes(bytes: CodeWord, n: nat): Symbol
    requires 1 <= n <= 4 && n <= |bytes|
  {
    if n == 1 then bytes[0]
    else if n == 2 then Join2(bytes[0], bytes[1])
    else if n == 3 then Join3(bytes[0], bytes[1], bytes[2])
    else Join4(bytes[0], bytes[1], bytes[2], bytes[3])
  }

  /** None is the exception, or a code point cut off by the end of the word. */
  function DecodeAll(word: CodeWord): Option<CodeWord>
    decreases |word|
  {
    if word == [] then Some([])
    else
      var n := ByteCount(word[0]);
      if n == 0 || |word| < n then None else Prepend([DecodeBytes(word, n)], DecodeAll(word[n..]))
  }

  /** `decode_word_utf8` */
  method DecodeWord(word: CodeWord) returns (r: Option<CodeWord>)
    ensures r == DecodeAll(word)
    ensures r.Some? <==> exists chunks :: Chunks(chunks) && Joined(chunks) == word
  {
    DecodesJustIfChunked(word);
    hide Prepend, DecodeBytes;
    var decoded: CodeWord := [];
    var i := 0;
    assert word[0..] == word;
    PrependTwice([], [], DecodeAll(word));
    while i < |word|
      invariant 0 <= i <= |word|
      invariant DecodeAll(word) == Prepend(decoded, DecodeAll(word[i..]))
      decreases |word| - i
    {
      var n := ByteCount(word[i]);
      assert word[i..][0] == word[i];
      if n == 0 || |word| - i < n {
        PrependNone(decoded);
        return None;
      }
      assert word[i..][n..] == word[i + n..];
      var symbol := DecodeBytes(word[i..], n);
      PrependTwice(decoded, [symbol], DecodeAll(word[i + n..]));
      decoded := decoded + [symbol];
      i := i + n;
    }
    assert word[i..] == [];
    r := Some(decoded);
    PrependEnd(decoded);
  }

  // ---------- What can be decoded ----------

  /** `b` is the first of `n` bytes, told by its range; only the lowest eight bits count, except for four bytes. */
  predicate Announces(b: Symbol, n: nat) {
    || (n == 1 && b % 256 < 0x80)
    || (n == 2 && 0xC0 <= b % 256 < 0xE0)
    || (n == 3 && 0xE0 <= b % 256 < 0xF0)
    || (n == 4 && 0xF0 <= b < 0xF5)
  }

  function Joined(chunks: seq<CodeWord>): CodeWord {
    if chunks == [] then [] else chunks[0] + Joined(chunks[1..])
  }

  /** Every chunk is as long as its first byte announces. */
  predicate Chunks(chunks: seq<CodeWord>) {
    forall i | 0 <= i < |chunks| :: chunks[i] != [] && Announces(chunks[i][0], |chunks[i]|)
  }

  lemma AnnouncesCount(b: Symbol, n: nat)
    ensures Announces(b, n) <==> n > 0 && ByteCount(b) == n
  {
    LowByte(b);
  }

  lemma LowByte(b: Symbol)
    ensures Marks1(b) <==> b % 256 < 0x80
    ensures Marks2(b) <==> 0xC0 <= b % 256 < 0xE0
    ensures Marks3(b) <==> 0xE0 <= b % 256 < 0xF0
    ensures Marks4(b) <==> 0xF0 <= b % 256 < 0xF8
  {
    ByteBits(b / 256, b % 256);
    assert b == b / 256 * 256 + b % 256;
  }

  lemma ByteBits(h: nat, x: nat)
    requires x < 256
    ensures (h * 256 + x) / 128 % 2 == x / 128 && (h * 256 + x) / 32 % 8 == x / 32
    ensures (h * 256 + x) / 16 % 16 == x / 16 && (h * 256 + x) / 8 % 32 == x / 8
  {
    assert (h * 256 + x) / 128 == h * 2 + x / 128;
    assert (h * 256 + x) / 32 == h * 8 + x / 32;
    assert (h * 256 + x) / 16 == h * 16 + x / 16;
    assert (h * 256 + x) / 8 == h * 32 + x / 8;
  }

  /** Decoding succeeds just if the word splits into such chunks; every chunk is one code point. */
  lemma {:induction false} ChunksDecode(chunks: seq<CodeWord>)
    requires Chunks(chunks)
    ensures DecodeAll(Joined(chunks)).Some? && |DecodeAll(Joined(chunks)).value| == |chunks|
    decreases |chunks|
  {
    if chunks != [] {
      var word, n := Joined(chunks), |chunks[0]|;
      ChunksDecode(chunks[1..]);
      AnnouncesCount(chunks[0][0], n);
      assert word[0] == chunks[0][0] && word[n..] == Joined(chunks[1..]);
      hide ByteCount, DecodeBytes;
    }
  }

  lemma {:induction false} DecodedChunks(word: CodeWord) returns (chunks: seq<CodeWord>)
    requires DecodeAll(word).Some?
    ensures Chunks(chunks) && Joined(chunks) == word
    decreases |word|
  {
    chunks := [];
    if word != [] {
      var n := ByteCount(word[0]);
      AnnouncesCount(word[0], n);
      hide ByteCount, DecodeBytes, Announces;
      var rest := DecodedChunks(word[n..]);
      chunks := [word[..n]] + rest;
      assert chunks[1..] == rest && word[..n] + word[n..] == word;
    }
  }

  lemma DecodesJustIfChunked(word: CodeWord)
    ensures DecodeAll(word).Some? <==> exists chunks :: Chunks(chunks) && Joined(chunks) == word
  {
    if DecodeAll(word).Some? { var chunks := DecodedChunks(word); }
    if chunks :| Chunks(chunks) && Joined(chunks) == word { ChunksDecode(chunks); }
  }

  // ---------- Round trip ----------

  /** The bytes of `s` announce their number and decode to `s`. */
  ghost predicate DecodesTo(bytes: CodeWord, s: Symbol) {
    1 <= |bytes| <= 4 && ByteCount(bytes[0]) == |bytes| && DecodeBytes(bytes, |bytes|) == s
  }

  /** The groups of six bits */
  lemma Digits(s: Symbol)
    ensures s == s / 64 * 64 + s % 64
    ensures s / 64 == s / 4096 * 64 + (s / 64) % 64
    ensures s / 4096 == s / 262144 * 64 + (s / 4096) % 64
  {
    assert s / 64 / 64 == s / 4096 && s / 4096 / 64 == s / 262144;
  }

  lemma FirstOfThree(h: nat)
    requires h < 16
    ensures ByteCount(0xE0 + h) == 3 && (0xE0 + h) % 16 == h
  {
  }

  lemma FirstOfFour(h: nat)
    requires h < 5
    ensures ByteCount(0xF0 + h) == 4 && (0xF0 + h) % 8 == h
  {
  }

  lemma OneByte(s: Symbol)
    requires s < 0x80
    ensures ByteCount(s) == 1
  {
  }

  lemma TwoBytes(s: Symbol)
    requires 0x80 <= s < 0x800
    ensures ByteCount(First2(s)) == 2 && Join2(First2(s), Low(s)) == s
  {
  }

  lemma ThreeBytes(s: Symbol)
    requires 0x800 <= s < 0x1_0000
    ensures ByteCount(First3(s)) == 3 && Join3(First3(s), Middle(s), Low(s)) == s
  {
    Digits(s);
    FirstOfThree(s / 4096);
    hide ByteCount;
  }

  /** A continuation byte holds its six bits. */
  lemma SixBits(x: nat)
    requires x < 64
    ensures (0x80 + x) % 64 == x
  {
  }

  lemma FromDigits(s: nat, s1: nat, s2: nat, s3: nat, x0: nat, x1: nat, x2: nat)
    requires s == s1 * 64 + x0 && s1 == s2 * 64 + x1 && s2 == s3 * 64 + x2
    ensures s == s3 * 262144 + x2 * 4096 + x1 * 64 + x0
  {
  }

  lemma FourBytes(s: Symbol)
    requires 0x1_0000 <= s < 0x11_0000
    ensures ByteCount(First4(s)) == 4 && Join4(First4(s), High(s), Middle(s), Low(s)) == s
  {
    hide ByteCount;
    Digits(s);
    FirstOfFour(s / 262144);
    SixBits(s % 64);
    SixBits(s / 64 % 64);
    SixBits(s / 4096 % 64);
    FromDigits(s, s / 64, s / 4096, s / 262144, s % 64, s / 64 % 64, s / 4096 % 64);
  }

  /** The first byte announces the right number of bytes, and they decode to the code point. */
  lemma SymbolRoundTrip(s: Symbol)
    requires EncodeSymbol(s).Some?
    ensures DecodesTo(EncodeSymbol(s).value, s)
  {
    hide ByteCount, First2, First3, First4, Low, Middle, High, Join2, Join3, Join4;
    if s < 0x80 { OneByte(s); }
    else if s < 0x800 { TwoBytes(s); }
    else if s < 0x1_0000 { ThreeBytes(s); }
    else { FourBytes(s); }
  }

  lemma DecodeBefore(bytes: CodeWord, rest: CodeWord, s: Symbol)
    requires DecodesTo(bytes, s)
    ensures ByteCount((bytes + rest)[0]) == |bytes| && DecodeBytes(bytes + rest, |bytes|) == s && (bytes + rest)[|bytes|..] == rest
  {
    hide ByteCount;
    assert forall i | 0 <= i < |bytes| :: (bytes + rest)[i] == bytes[i];
  }

  lemma DecodePrefixed(s: Symbol, rest: CodeWord)
    requires EncodeSymbol(s).Some?
    ensures DecodeAll(EncodeSymbol(s).value + rest) == Prepend([s], DecodeAll(rest))
  {
    SymbolRoundTrip(s);
    DecodeBefore(EncodeSymbol(s).value, rest, s);
    assert 1 <= |EncodeSymbol(s).value|;
    hide EncodeSymbol, ByteCount, DecodeBytes, Prepend;
  }

  /** Decoding inverts encoding. */
  lemma {:induction false} RoundTrip(word: CodeWord)
    requires CodePoints(word)
    ensures EncodeAll(word).Some? && DecodeAll(EncodeAll(word).value) == Some(word)
    decreases |word|
  {
    if word != [] {
      CodePointsFirst(word);
      RoundTrip(word[1..]);
      DecodePrefixed(word[0], EncodeAll(word[1..]).value);
      hide EncodeSymbol, DecodeBytes, ByteCount, CodePoints;
      assert word == [word[0]] + word[1..];
    }
  }

  /** Hence distinct words of code points have distinct encodings. */
  lemma EncodingInjective(u: CodeWord, v: CodeWord)
    requires CodePoints(u) && CodePoints(v) && EncodeAll(u) == EncodeAll(v)
    ensures u == v
  {
    RoundTrip(u);
    RoundTrip(v);
  }

  // ---------- Order and examples ----------

  /** Where `u` and `v` first differ, `u` has the smaller byte. */
  predicate DiffersBelow(u: CodeWord, v: CodeWord, i: nat) {
    i < |u| && i < |v| && u[..i] == v[..i] && u[i] < v[i]
  }

  lemma QuotientOrder(s: nat, t: nat)
    requires s < t
    ensures s / 64 < t / 64 || (s / 64 == t / 64 && s % 64 < t % 64)
  {
  }

  lemma Quotients(s: nat)
    ensures s / 64 / 64 == s / 4096 && s / 4096 / 64 == s / 262144
  {
  }

  /** In the order of their groups of six bits */
  lemma DigitOrder(s: Symbol, t: Symbol)
    requires s < t
    ensures s / 64 < t / 64 || (s / 64 == t / 64 && s % 64 < t % 64)
    ensures s / 4096 < t / 4096 || (s / 4096 == t / 4096 && (s / 64 == t / 64 || s / 64 % 64 < t / 64 % 64))
    ensures s / 262144 < t / 262144 || (s / 262144 == t / 262144 && (s / 4096 == t / 4096 || s / 4096 % 64 < t / 4096 % 64))
  {
    Quotients(s);
    Quotients(t);
    QuotientOrder(s, t);
    if s / 64 < t / 64 { QuotientOrder(s / 64, t / 64); }
    if s / 4096 < t / 4096 { QuotientOrder(s / 4096, t / 4096); }
  }

  ghost predicate LexBelow(u: CodeWord, v: CodeWord) {
    exists i: nat :: DiffersBelow(u, v, i)
  }

  lemma BelowAt(u: CodeWord, v: CodeWord, i: nat)
    requires i < |u| && i < |v| && u[i] < v[i] && forall j | 0 <= j < i :: u[j] == v[j]
    ensures LexBelow(u, v)
  {
    assert u[..i] == v[..i];
    assert DiffersBelow(u, v, i);
  }

  /** Encodings are ordered like their code points, byte by byte (section 1 of RFC 3629). */
  lemma ByteOrder(s: Symbol, t: Symbol)
    requires s < t < 0x11_0000
    ensures EncodeSymbol(s).Some? && EncodeSymbol(t).Some? && LexBelow(EncodeSymbol(s).value, EncodeSymbol(t).value)
  {
    hide LexBelow, DiffersBelow;
    var u, v := EncodeSymbol(s).value, EncodeSymbol(t).value;
    FirstBytes(s);
    FirstBytes(t);
    DigitOrder(s, t);
    if u[0] < v[0] {
      BelowAt(u, v, 0);
    } else {
      SameFirst(s, t);
      var n := |u|;
      if u[1] < v[1] {
        BelowAt(u, v, 1);
      } else if n > 2 && u[2] < v[2] {
        BelowAt(u, v, 2);
      } else {
        BelowAt(u, v, 3);
      }
    }
  }

  /** With the same first byte the bytes differ later, in the order of their groups. */
  lemma SameFirst(s: Symbol, t: Symbol)
    requires s < t < 0x11_0000 && EncodeSymbol(s).value[0] >= EncodeSymbol(t).value[0]
    ensures var u, v := EncodeSymbol(s).value, EncodeSymbol(t).value;
            && |u| == |v| >= 2 && u[0] == v[0]
            && (u[1] < v[1] || (u[1] == v[1] && |u| > 2 && (u[2] < v[2] || (u[2] == v[2] && |u| > 3 && u[3] < v[3]))))
  {
    FirstBytes(s);
    FirstBytes(t);
    DigitOrder(s, t);
    if |EncodeSymbol(s).value| == 4 {
      SameFirst4(s, t);
    } else if |EncodeSymbol(s).value| == 3 {
      SameFirst3(s, t);
    }
  }

  lemma SameFirst3(s: Symbol, t: Symbol)
    requires s < t && s / 4096 == t / 4096
    ensures Middle(s) < Middle(t) || (Middle(s) == Middle(t) && Low(s) < Low(t))
  {
    DigitOrder(s, t);
  }

  lemma SameFirst4(s: Symbol, t: Symbol)
    requires s < t && s / 262144 == t / 262144
    ensures High(s) < High(t) || (High(s) == High(t) && (Middle(s) < Middle(t) || (Middle(s) == Middle(t) && Low(s) < Low(t))))
  {
    DigitOrder(s, t);
  }

  /** The ranges of the first bytes of encodings by length */
  lemma FirstBytes(s: Symbol)
    requires s < 0x11_0000
    ensures var u := EncodeSymbol(s).value;
            && (|u| == 1 ==> u == [s] && s < 0x80) && (|u| == 2 ==> 0xC2 <= u[0] < 0xE0)
            && (|u| == 3 ==> 0xE0 <= u[0] < 0xF0) && (|u| == 4 ==> 0xF0 <= u[0] < 0xF5)
            && (|u| == 1 || |u| == 2 || |u| == 3 || |u| == 4)
            && (|u| == 1 <==> s < 0x80) && (|u| <= 2 <==> s < 0x800) && (|u| <= 3 <==> s < 0x1_0000)
  {
  }

  /** The examples of section 7 of RFC 3629 */
  lemma Examples()
    ensures EncodeSymbol(0x41) == Some([0x41]) && EncodeSymbol(0x391) == Some([0xCE, 0x91])
    ensures EncodeSymbol(0x2262) == Some([0xE2, 0x89, 0xA2]) && EncodeSymbol(0xD55C) == Some([0xED, 0x95, 0x9C])
    ensures EncodeSymbol(0x2_33B4) == Some([0xF0, 0xA3, 0x8E, 0xB4])
  {
  }
}
