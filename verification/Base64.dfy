/** The scalar base64 codec (src/base64.cpp), RFC 4648 section 4. */
module Base64 {
  import opened Bytes

  const PAD: Byte := 0x3D

  // ----- The alphabet.

  type Six = v: int | 0 <= v < 64

  /** A to Z, a to z, 0 to 9, plus and slash. */
  function Symbol(v: Six): Byte {
    if v < 26 then 0x41 + v else if v < 52 then 0x61 + (v - 26) else if v < 62 then 0x30 + (v - 52) else if v == 62 then 0x2B else 0x2F
  }

  /** The decoding table: a symbol's value, none for any other byte. */
  function Value(b: Byte): Option<Six> {
    if 0x41 <= b <= 0x5A then Some(b - 0x41)
    else if 0x61 <= b <= 0x7A then Some(b - 0x61 + 26)
    else if 0x30 <= b <= 0x39 then Some(b - 0x30 + 52)
    else if b == 0x2B then Some(62)
    else if b == 0x2F then Some(63)
    else None
  }

  lemma TableInverts(v: Six, b: Byte)
    ensures Value(Symbol(v)) == Some(v) && Symbol(v) != PAD
    ensures Value(b).Some? ==> Symbol(Value(b).value) == b
    ensures Value(PAD).None?
  {
  }

  function Strip(s: Text): Text {
    if s == [] then [] else (if IsBlank(s[0]) then [] else [s[0]]) + Strip(s[1..])
  }

  // ----- One quad and one triple.

  predicate QuadReads(q: Text, last: bool)
    requires |q| == 4
  {
    && Value(q[0]).Some? && Value(q[1]).Some?
    && (q[2] == PAD || Value(q[2]).Some?) && (q[3] == PAD || Value(q[3]).Some?)
    && !(q[2] == PAD && q[3] != PAD)
    && ((q[2] == PAD || q[3] == PAD) ==> last)
  }

  function Bits(b: Byte): Six { if Value(b).Some? then Value(b).value else 0 }

  // Six bits and eight: how four of the one and three of the other share their bits.

  function ByteA(a: Six, b: Six): Byte { a * 4 + b / 16 }

  function ByteB(b: Six, c: Six): Byte { b % 16 * 16 + c / 4 }

  function ByteC(c: Six, d: Six): Byte { c % 4 * 64 + d }

  function SixA(x: Byte): Six { x / 4 }

  function SixB(x: Byte, y: Byte): Six { x % 4 * 16 + y / 16 }

  function SixC(y: Byte, z: Byte): Six { y % 16 * 4 + z / 64 }

  function SixD(z: Byte): Six { z % 64 }

  lemma BytesBack(x: Byte, y: Byte, z: Byte)
    ensures ByteA(SixA(x), SixB(x, y)) == x && ByteB(SixB(x, y), SixC(y, z)) == y && ByteC(SixC(y, z), SixD(z)) == z
  {
  }

  lemma SixesBack(a: Six, b: Six, c: Six, d: Six)
    ensures SixA(ByteA(a, b)) == a && SixB(ByteA(a, b), ByteB(b, c)) == b
    ensures SixC(ByteB(b, c), ByteC(c, d)) == c && SixD(ByteC(c, d)) == d
    ensures SixB(ByteA(a, b), 0) == b <==> b % 16 == 0
    ensures SixC(ByteB(b, c), 0) == c <==> c % 4 == 0
  {
  }

  /** Four symbols of six bits make three bytes, fewer by one for each pad. */
  function QuadBytes(q: Text): Text
    requires |q| == 4
  {
    [ByteA(Bits(q[0]), Bits(q[1]))]
    + (if q[2] == PAD then [] else [ByteB(Bits(q[1]), Bits(q[2]))])
    + (if q[3] == PAD then [] else [ByteC(Bits(q[2]), Bits(q[3]))])
  }

  /** Byte k, zero past the end. */
  function At(t: Text, k: nat): Byte { if k < |t| then t[k] else 0 }

  /** Three bytes as one number of 24 bits, and its four windows of six bits. */
  function Chunk(x: Byte, y: Byte, z: Byte): nat {
    var a: int, b: int, c: int := x, y, z;
    a * 65536 + b * 256 + c
  }

  function Window(chunk: nat, k: nat): Six {
    (if k == 0 then chunk / 262144 else if k == 1 then chunk / 4096 else if k == 2 then chunk / 64 else chunk) % 64
  }

  /** One, two or three bytes as a quad: six bits to a symbol, missing bytes as zeros, missing symbols as pads. */
  function TripleQuad(t: Text): (q: Text)
    requires 1 <= |t| <= 3
    ensures |q| == 4
  {
    var x, y, z := At(t, 0), At(t, 1), At(t, 2);
    [Symbol(SixA(x)), Symbol(SixB(x, y)), if |t| > 1 then Symbol(SixC(y, z)) else PAD, if |t| > 2 then Symbol(SixD(z)) else PAD]
  }

  // ----- Whole texts.

  function Encode(data: Text): Text {
    if data == [] then []
    else if |data| <= 3 then TripleQuad(data)
    else TripleQuad(data[..3]) + Encode(data[3..])
  }

  function DecodeQuads(c: Text): Option<Text>
    requires |c| % 4 == 0
  {
    if c == [] then Some([])
    else if !QuadReads(c[..4], |c| == 4) then None
    else match DecodeQuads(c[4..])
      case None => None
      case Some(rest) => Some(QuadBytes(c[..4]) + rest)
  }

  /** The decoded bytes; none where the program throws. */
  function Decode(s: Text): Option<Text> {
    var c := Strip(s);
    if c == [] || |c| % 4 != 0 then None else DecodeQuads(c)
  }

  // ----- Round trip.

  lemma TopWindow(a: int, b: int, c: int)
    requires 0 <= a < 256 && 0 <= b < 256 && 0 <= c < 256
    ensures (a * 65536 + b * 256 + c) / 262144 == a / 4
  {
  }

  lemma HighWindow(a: int, b: int, c: int)
    requires 0 <= a < 256 && 0 <= b < 256 && 0 <= c < 256
    ensures (a * 65536 + b * 256 + c) / 4096 % 64 == a % 4 * 16 + b / 16
  {
    assert (a * 65536 + b * 256 + c) / 4096 == a * 16 + b / 16;
  }

  lemma Shifted64(q: int, r: int)
    requires 0 <= r < 64
    ensures (q * 64 + r) / 64 == q && (q * 64 + r) % 64 == r
  {
  }

  lemma LowWindow(a: int, b: int, c: int)
    requires 0 <= a < 256 && 0 <= b < 256 && 0 <= c < 256
    ensures (a * 65536 + b * 256 + c) / 64 % 64 == b % 16 * 4 + c / 64
  {
    var high, low := a * 16 + b / 16, b % 16 * 4 + c / 64;
    assert a * 65536 + b * 256 + c == (high * 64 + low) * 64 + c % 64;
    Shifted64(high * 64 + low, c % 64);
    Shifted64(high, low);
  }

  lemma TopSix(x: Byte, y: Byte, z: Byte)
    ensures Window(Chunk(x, y, z), 0) == SixA(x)
  {
    TopWindow(x, y, z);
  }

  lemma HighSix(x: Byte, y: Byte, z: Byte)
    ensures Window(Chunk(x, y, z), 1) == SixB(x, y)
  {
    HighWindow(x, y, z);
  }

  lemma LowSix(x: Byte, y: Byte, z: Byte)
    ensures Window(Chunk(x, y, z), 2) == SixC(y, z)
  {
    LowWindow(x, y, z);
  }

  lemma LastSix(x: Byte, y: Byte, z: Byte)
    ensures Window(Chunk(x, y, z), 3) == SixD(z)
  {
  }

  lemma SplitChunk(x: Byte, y: Byte, z: Byte)
    ensures
      var chunk := Chunk(x, y, z);
      Window(chunk, 0) == SixA(x) && Window(chunk, 1) == SixB(x, y) && Window(chunk, 2) == SixC(y, z) && Window(chunk, 3) == SixD(z)
  {
    hide Window, Chunk, SixA, SixB, SixC, SixD;
    TopSix(x, y, z);
    HighSix(x, y, z);
    LowSix(x, y, z);
    LastSix(x, y, z);
  }

  lemma SymbolReads(v: Six)
    ensures Value(Symbol(v)) == Some(v) && Bits(Symbol(v)) == v && Symbol(v) != PAD && !IsBlank(Symbol(v)) && !IsBlank(PAD)
  {
  }

  ghost predicate Dense(s: Text) {
    forall k :: 0 <= k < |s| ==> !IsBlank(s[k])
  }

  lemma TripleSymbols(t: Text, last: bool)
    requires 1 <= |t| <= 3 && (|t| < 3 ==> last)
    ensures |TripleQuad(t)| == 4 && QuadReads(TripleQuad(t), last) && Dense(TripleQuad(t))
  {
    var x, y, z := At(t, 0), At(t, 1), At(t, 2);
    SymbolReads(SixA(x));
    SymbolReads(SixB(x, y));
    SymbolReads(SixC(y, z));
    SymbolReads(SixD(z));
    hide TripleQuad, Symbol, Value, IsBlank, SixA, SixB, SixC, SixD, Bits, Dense, QuadReads, At;
    QuadSymbols(TripleQuad(t), last);
  }

  lemma QuadSymbols(q: Text, last: bool)
    requires |q| == 4 && Value(q[0]).Some? && Value(q[1]).Some?
    requires q[2] == PAD ==> q[3] == PAD
    requires q[2] == PAD || Value(q[2]).Some?
    requires q[3] == PAD || Value(q[3]).Some?
    requires q[3] == PAD ==> last
    ensures QuadReads(q, last) && Dense(q)
  {
  }

  lemma TripleBack(t: Text)
    requires 1 <= |t| <= 3
    ensures |TripleQuad(t)| == 4 && QuadBytes(TripleQuad(t)) == t
  {
    hide Symbol, Value, IsBlank, SixA, SixB, SixC, SixD, ByteA, ByteB, ByteC, Bits, QuadBytes;
    var x, y, z := At(t, 0), At(t, 1), At(t, 2);
    SymbolReads(SixA(x));
    SymbolReads(SixB(x, y));
    SymbolReads(SixC(y, z));
    SymbolReads(SixD(z));
    BytesBack(x, y, z);
    QuadOf(t, TripleQuad(t));
  }

  /** The quad of one to three bytes reads as a last quad, as any quad when the bytes are three, and back. */
  lemma TripleReads(t: Text, last: bool)
    requires 1 <= |t| <= 3 && (|t| < 3 ==> last)
    ensures |TripleQuad(t)| == 4 && QuadReads(TripleQuad(t), last) && QuadBytes(TripleQuad(t)) == t && Dense(TripleQuad(t))
  {
    TripleSymbols(t, last);
    TripleBack(t);
  }

  lemma QuadOf(t: Text, q: Text)
    requires 1 <= |t| <= 3 && |q| == 4
    requires ByteA(Bits(q[0]), Bits(q[1])) == t[0]
    requires q[2] == PAD <==> |t| < 2
    requires q[3] == PAD <==> |t| < 3
    requires |t| > 1 ==> ByteB(Bits(q[1]), Bits(q[2])) == t[1]
    requires |t| > 2 ==> ByteC(Bits(q[2]), Bits(q[3])) == t[2]
    ensures QuadBytes(q) == t
  {
    hide ByteA, ByteB, ByteC, Bits;
  }

  lemma EncodeStep(data: Text)
    requires data != []
    ensures
      var t := if |data| <= 3 then data else data[..3];
      && |TripleQuad(t)| == 4 && Encode(data) == TripleQuad(t) + Encode(data[|t|..])
      && Encode(data)[..4] == TripleQuad(t) && Encode(data)[4..] == Encode(data[|t|..])
  {
    var t := if |data| <= 3 then data else data[..3];
    TripleReads(t, true);
    hide TripleQuad, QuadReads;
    if |data| <= 3 { assert data[|t|..] == []; }
  }

  lemma DenseConcat(a: Text, b: Text)
    requires Dense(a) && Dense(b)
    ensures Dense(a + b)
  {
    hide IsBlank;
  }

  lemma NothingEncoded()
    ensures Encode([]) == [] && Dense([])
  {
  }

  lemma MoreQuads(n: nat)
    requires n % 4 == 0
    ensures (4 + n) % 4 == 0
  {
  }

  lemma {:induction false} EncodeDense(data: Text)
    ensures Dense(Encode(data))
  {
    hide TripleQuad, Encode, IsBlank, QuadReads, Dense;
    NothingEncoded();
    if data != [] {
      var t := if |data| <= 3 then data else data[..3];
      EncodeStep(data);
      TripleSymbols(t, true);
      EncodeDense(data[|t|..]);
      DenseConcat(TripleQuad(t), Encode(data[|t|..]));
    }
  }

  lemma {:induction false} EncodeQuads(data: Text)
    ensures |Encode(data)| % 4 == 0 && (data != [] ==> Encode(data) != [])
  {
    hide TripleQuad, Encode;
    NothingEncoded();
    if data != [] {
      EncodeStep(data);
      var rest := data[if |data| <= 3 then |data| else 3..];
      EncodeQuads(rest);
      MoreQuads(|Encode(rest)|);
    }
  }

  lemma EncodeShape(data: Text)
    ensures |Encode(data)| % 4 == 0 && (data != [] ==> Encode(data) != []) && Dense(Encode(data))
  {
    EncodeQuads(data);
    EncodeDense(data);
  }

  lemma {:induction false} StripsNothing(s: Text)
    requires Dense(s)
    ensures Strip(s) == s
  {
    if s != [] { StripsNothing(s[1..]); }
  }

  function Prepend(bytes: Text, rest: Option<Text>): Option<Text> {
    if rest.Some? then Some(bytes + rest.value) else None
  }

  lemma PrependNothing(rest: Option<Text>)
    ensures Prepend([], rest) == rest
  {
    if rest.Some? { assert [] + rest.value == rest.value; }
  }

  lemma PrependTwice(first: Text, second: Text, rest: Option<Text>)
    ensures Prepend(first, Prepend(second, rest)) == Prepend(first + second, rest)
    ensures Prepend(first, None).None?
  {
    if rest.Some? { assert first + (second + rest.value) == (first + second) + rest.value; }
  }

  lemma NoQuads()
    ensures DecodeQuads([]) == Some([])
  {
  }

  lemma DecodeStep(c: Text, q: Text, rest: Text)
    requires |q| == 4 && |rest| % 4 == 0 && c == q + rest
    ensures |c| % 4 == 0
    ensures !QuadReads(q, rest == []) ==> DecodeQuads(c).None?
    ensures QuadReads(q, rest == []) ==> DecodeQuads(c) == Prepend(QuadBytes(q), DecodeQuads(rest))
  {
    hide QuadReads, QuadBytes;
    MoreQuads(|rest|);
    assert c[..4] == q && c[4..] == rest;
  }

  lemma {:induction false} QuadsRoundTrip(data: Text)
    ensures |Encode(data)| % 4 == 0 && DecodeQuads(Encode(data)) == Some(data)
  {
    hide TripleQuad, Encode, IsBlank, QuadReads, QuadBytes, DecodeQuads;
    NothingEncoded();
    if data == [] {
      NoQuads();
    } else {
      var t := if |data| <= 3 then data else data[..3];
      assert |data| <= 3 ==> data[|t|..] == [];
      EncodeShape(data);
      EncodeStep(data);
      EncodeShape(data[|t|..]);
      TripleReads(t, |Encode(data)| == 4);
      QuadsRoundTrip(data[|t|..]);
      DecodeStep(Encode(data), TripleQuad(t), Encode(data[|t|..]));
      assert t + data[|t|..] == data;
    }
  }

  /** Decoding an encoding gives the bytes back; only the empty one is refused. */
  lemma RoundTrip(data: Text)
    ensures Decode(Encode(data)) == if data == [] then None else Some(data)
  {
    EncodeShape(data);
    StripsNothing(Encode(data));
    QuadsRoundTrip(data);
  }

  // ----- White space.

  lemma {:induction false} StripConcat(s: Text, t: Text)
    ensures Strip(s + t) == Strip(s) + Strip(t)
  {
    if s == [] {
      assert s + t == t;
    } else {
      assert (s + t)[1..] == s[1..] + t;
      StripConcat(s[1..], t);
    }
  }

  lemma {:induction false} BlanksStrip(s: Text)
    requires forall k :: 0 <= k < |s| ==> IsBlank(s[k])
    ensures Strip(s) == []
  {
    if s != [] { BlanksStrip(s[1..]); }
  }

  /** White space put in anywhere changes no decode and no refusal. */
  lemma BlanksIgnored(s: Text, i: nat, blanks: Text)
    requires i <= |s| && forall k :: 0 <= k < |blanks| ==> IsBlank(blanks[k])
    ensures Decode(s[..i] + blanks + s[i..]) == Decode(s)
  {
    StripConcat(s[..i] + blanks, s[i..]);
    StripConcat(s[..i], blanks);
    StripConcat(s[..i], s[i..]);
    BlanksStrip(blanks);
    assert s[..i] + s[i..] == s;
    assert Strip(s[..i]) + [] == Strip(s[..i]);
  }

  // ----- What decodes.

  /** Complete quads of symbols, of which only the last two places of all may be pads, the last one first. */
  ghost predicate WellFormed(c: Text) {
    && c != [] && |c| % 4 == 0
    && (forall k :: 0 <= k < |c| - 2 ==> Value(c[k]).Some?)
    && (c[|c| - 1] == PAD || Value(c[|c| - 1]).Some?)
    && (if c[|c| - 2] == PAD then c[|c| - 1] == PAD else Value(c[|c| - 2]).Some?)
  }

  function Pads(c: Text): nat {
    if |c| < 2 || c[|c| - 1] != PAD then 0 else if c[|c| - 2] != PAD then 1 else 2
  }

  lemma {:induction false} QuadsDecodeIff(c: Text)
    requires c != [] && |c| % 4 == 0
    ensures DecodeQuads(c).Some? <==> WellFormed(c)
    ensures DecodeQuads(c).Some? ==> |DecodeQuads(c).value| + Pads(c) == |c| / 4 * 3
  {
    hide DecodeQuads, QuadReads, QuadBytes, WellFormed, Pads, Value;
    var q, rest := c[..4], c[4..];
    DecodeStep(c, q, rest);
    if rest == [] {
      NoQuads();
      assert q == c;
      LastQuad(c);
    } else {
      QuadsDecodeIff(rest);
      EarlierQuad(c, q, rest);
    }
  }

  lemma LastQuad(q: Text)
    requires |q| == 4
    ensures QuadReads(q, true) <==> WellFormed(q)
    ensures QuadReads(q, true) ==> |QuadBytes(q)| + Pads(q) == 3
  {
    TableInverts(0, PAD);
    hide Value, Symbol, ByteA, ByteB, ByteC, Bits;
  }

  lemma EarlierQuad(c: Text, q: Text, rest: Text)
    requires |q| == 4 && rest != [] && |rest| % 4 == 0 && c == q + rest
    ensures WellFormed(c) <==> QuadReads(q, false) && WellFormed(rest)
    ensures QuadReads(q, false) ==> |QuadBytes(q)| == 3
    ensures Pads(c) == Pads(rest)
  {
    hide Value, QuadReads, QuadBytes;
    PlainQuad(q);
    MoreQuads(|rest|);
    assert |rest| >= 4 && c[|c| - 1] == rest[|rest| - 1] && c[|c| - 2] == rest[|rest| - 2];
    if WellFormed(c) {
      assert c[0] == q[0] && c[1] == q[1] && c[2] == q[2] && c[3] == q[3];
      forall k | 0 <= k < |rest| - 2 ensures Value(rest[k]).Some? { assert rest[k] == c[k + 4]; }
    }
    if QuadReads(q, false) && WellFormed(rest) {
      forall k | 0 <= k < |c| - 2 ensures Value(c[k]).Some? {
        if k < 4 { assert c[k] == q[k]; } else { assert c[k] == rest[k - 4]; }
      }
    }
  }

  lemma PlainQuad(q: Text)
    requires |q| == 4
    ensures QuadReads(q, false) <==> Value(q[0]).Some? && Value(q[1]).Some? && Value(q[2]).Some? && Value(q[3]).Some?
    ensures QuadReads(q, false) ==> |QuadBytes(q)| == 3
  {
    TableInverts(0, PAD);
    hide Value, Symbol, ByteA, ByteB, ByteC, Bits;
  }

  /** Decoding succeeds exactly on well-formed quads, and gives three bytes a quad less the pads. */
  lemma DecodesIff(s: Text)
    ensures Decode(s).Some? <==> WellFormed(Strip(s))
    ensures Decode(s).Some? ==> |Decode(s).value| + Pads(Strip(s)) == |Strip(s)| / 4 * 3
  {
    var c := Strip(s);
    if c != [] && |c| % 4 == 0 { QuadsDecodeIff(c); }
  }

  // ----- What encodes back.

  /** The bits of the last symbol that no byte takes are zero. */
  predicate Canonical(c: Text)
    requires |c| >= 4
  {
    var n := |c|;
    if c[n - 2] == PAD then Bits(c[n - 3]) % 16 == 0 else if c[n - 1] == PAD then Bits(c[n - 2]) % 4 == 0 else true
  }

  lemma QuadBack(q: Text, last: bool)
    requires |q| == 4 && QuadReads(q, last)
    ensures 1 <= |QuadBytes(q)| <= 3
    ensures TripleQuad(QuadBytes(q)) == q <==> Canonical(q)
  {
    hide TripleQuad, Symbol, Value, SixA, SixB, SixC, SixD, ByteA, ByteB, ByteC, Bits;
    var t := QuadBytes(q);
    var a, b, c := Bits(q[0]), Bits(q[1]), Bits(q[2]);
    SymbolsOfQuad(q, last);
    SixesBack(a, b, c, Bits(q[3]));
    QuadHolds(t, At(t, 0), At(t, 1), At(t, 2));
    SymbolsDiffer(SixB(At(t, 0), At(t, 1)), b);
    SymbolsDiffer(SixC(At(t, 1), At(t, 2)), c);
    SameFour(TripleQuad(t), q);
  }

  lemma SameFour(p: Text, q: Text)
    requires |p| == |q| == 4
    ensures p == q <==> p[0] == q[0] && p[1] == q[1] && p[2] == q[2] && p[3] == q[3]
  {
  }

  lemma QuadHolds(t: Text, x: Byte, y: Byte, z: Byte)
    requires 1 <= |t| <= 3 && x == At(t, 0) && y == At(t, 1) && z == At(t, 2)
    ensures
      var q := TripleQuad(t);
      && q[0] == Symbol(SixA(x)) && q[1] == Symbol(SixB(x, y))
      && q[2] == (if |t| > 1 then Symbol(SixC(y, z)) else PAD) && q[3] == (if |t| > 2 then Symbol(SixD(z)) else PAD)
  {
  }

  /** What a quad that reads holds: symbols, and pads at its end. */
  lemma SymbolsOfQuad(q: Text, last: bool)
    requires |q| == 4 && QuadReads(q, last)
    ensures q[0] == Symbol(Bits(q[0])) && q[1] == Symbol(Bits(q[1]))
    ensures q[2] == PAD || q[2] == Symbol(Bits(q[2]))
    ensures q[3] == PAD || q[3] == Symbol(Bits(q[3]))
    ensures q[2] == PAD ==> q[3] == PAD
    ensures forall v: Six :: Symbol(v) != PAD
  {
    hide Value, Symbol, Bits;
    SymbolOf(q[0]);
    SymbolOf(q[1]);
    SymbolOf(q[2]);
    SymbolOf(q[3]);
    forall v: Six ensures Symbol(v) != PAD { TableInverts(v, PAD); }
  }

  lemma SymbolOf(b: Byte)
    ensures Value(b).Some? ==> Symbol(Bits(b)) == b
  {
  }

  lemma SymbolsDiffer(v: Six, w: Six)
    ensures Symbol(v) == Symbol(w) <==> v == w
  {
  }

  lemma OneQuadBack(q: Text)
    requires |q| == 4 && QuadReads(q, true)
    ensures DecodeQuads(q) == Some(QuadBytes(q)) && QuadBytes(q) != []
    ensures Encode(QuadBytes(q)) == q <==> Canonical(q)
  {
    assert q[..4] == q && q[4..] == [];
    QuadBack(q, true);
    hide QuadReads, QuadBytes, TripleQuad, Canonical;
    assert QuadBytes(q) + [] == QuadBytes(q);
  }

  lemma FirstQuadBack(q: Text, rest: Text, tail: Text)
    requires |q| == 4 && QuadReads(q, false) && tail != []
    ensures Encode(QuadBytes(q) + tail) == q + rest <==> Encode(tail) == rest
  {
    QuadBack(q, false);
    InnerQuad(q);
    hide QuadReads, QuadBytes, TripleQuad, Canonical, Encode;
    EncodeFront(QuadBytes(q), tail);
    SameTail(q, Encode(tail), rest);
  }

  lemma {:induction false} QuadsEncodeBack(c: Text)
    requires c != [] && |c| % 4 == 0 && DecodeQuads(c).Some?
    ensures DecodeQuads(c).value != [] && (Encode(DecodeQuads(c).value) == c <==> Canonical(c))
  {
    var q, rest := c[..4], c[4..];
    hide QuadReads, QuadBytes, Canonical, Encode, DecodeQuads;
    assert c == q + rest;
    DecodeStep(c, q, rest);
    if |c| == 4 {
      assert q == c;
      OneQuadBack(c);
    } else {
      QuadsEncodeBack(rest);
      CanonicalTail(c);
      FirstQuadBack(q, rest, DecodeQuads(rest).value);
    }
  }

  lemma EncodeFront(t: Text, rest: Text)
    requires |t| == 3 && rest != []
    ensures Encode(t + rest) == TripleQuad(t) + Encode(rest)
  {
    hide TripleQuad;
    assert (t + rest)[..3] == t && (t + rest)[3..] == rest;
  }

  lemma SameTail(q: Text, a: Text, b: Text)
    ensures q + a == q + b <==> a == b
  {
    assert (q + a)[|q|..] == a && (q + b)[|q|..] == b;
  }

  lemma InnerQuad(q: Text)
    requires |q| == 4 && QuadReads(q, false)
    ensures |QuadBytes(q)| == 3 && Canonical(q)
  {
  }

  lemma CanonicalTail(c: Text)
    requires |c| >= 8
    ensures Canonical(c) <==> Canonical(c[4..])
  {
    var d := c[4..];
    assert d[|d| - 1] == c[|c| - 1] && d[|d| - 2] == c[|c| - 2] && d[|d| - 3] == c[|c| - 3];
  }

  /** What decodes encodes back to its own symbols if and only if the unused bits of its last symbol are zero. */
  lemma EncodesBackIff(s: Text)
    requires Decode(s).Some?
    ensures |Strip(s)| >= 4
    ensures Encode(Decode(s).value) == Strip(s) <==> Canonical(Strip(s))
  {
    hide Strip, DecodeQuads, Encode, Canonical;
    QuadsEncodeBack(Strip(s));
  }

  /** "QR==": its last four bits are not zero; it decodes to "A", and that encodes to "QQ==". */
  lemma UnusedBitsAreLost()
    ensures Decode([0x51, 0x52, PAD, PAD]) == Some([0x41])
    ensures Encode([0x41]) == [0x51, 0x51, PAD, PAD]
  {
    var q: Text := [0x51, 0x52, PAD, PAD];
    assert Strip(q[4..]) == [] && Strip(q[3..]) == [PAD] && Strip(q[2..]) == [PAD, PAD];
    assert Strip(q[1..]) == [0x52, PAD, PAD] by { assert q[1..][1..] == q[2..]; }
    assert Strip(q) == q;
    OneQuadBack(q);
    assert QuadBytes(q) == [0x41];
  }

  // ----- The program.

  method ScalarDecode(value: Text) returns (decoded: Option<Text>)
    ensures decoded == Decode(value)
  {
    var compact := Compact(value);
    if compact == [] || |compact| % 4 != 0 { return None; }
    decoded := DecodeCompact(compact);
  }

  method Compact(value: Text) returns (compact: Text)
    ensures compact == Strip(value)
  {
    hide IsBlank;
    compact := [];
    for k := 0 to |value|
      invariant compact == Strip(value[..k])
    {
      assert value[..k + 1] == value[..k] + [value[k]];
      StripConcat(value[..k], [value[k]]);
      assert [value[k]][1..] == [];
      if !IsBlank(value[k]) { compact := compact + [value[k]]; }
    }
    assert value[..|value|] == value;
  }

  method DecodeCompact(compact: Text) returns (decoded: Option<Text>)
    requires compact != [] && |compact| % 4 == 0
    ensures decoded == DecodeQuads(compact)
  {
    hide DecodeQuads, QuadReads, ByteA, ByteB, ByteC, Bits;
    var bytes: Text := [];
    var offset := 0;
    assert compact[0..] == compact;
    PrependNothing(DecodeQuads(compact));
    while offset < |compact|
      invariant offset <= |compact| && offset % 4 == 0
      invariant DecodeQuads(compact) == Prepend(bytes, DecodeQuads(compact[offset..]))
    {
      var quad := compact[offset..offset + 4];
      assert compact[offset..] == quad + compact[offset + 4..];
      PrependQuad(bytes, compact[offset..], quad, compact[offset + 4..]);
      ghost var before := bytes;
      if !QuadReads(quad, offset + 4 == |compact|) { return None; }
      bytes := bytes + [ByteA(Bits(quad[0]), Bits(quad[1]))];
      if quad[2] != PAD { bytes := bytes + [ByteB(Bits(quad[1]), Bits(quad[2]))]; }
      if quad[3] != PAD { bytes := bytes + [ByteC(Bits(quad[2]), Bits(quad[3]))]; }
      assert bytes == before + QuadBytes(quad);
      offset := offset + 4;
    }
    assert compact[offset..] == [];
    NoQuads();
    assert bytes + [] == bytes;
    return Some(bytes);
  }

  lemma PrependQuad(bytes: Text, c: Text, q: Text, rest: Text)
    requires |q| == 4 && |rest| % 4 == 0 && c == q + rest
    ensures |c| % 4 == 0
    ensures !QuadReads(q, rest == []) ==> Prepend(bytes, DecodeQuads(c)).None?
    ensures QuadReads(q, rest == []) ==> Prepend(bytes, DecodeQuads(c)) == Prepend(bytes + QuadBytes(q), DecodeQuads(rest))
  {
    hide QuadReads, QuadBytes, DecodeQuads, Prepend;
    DecodeStep(c, q, rest);
    PrependTwice(bytes, QuadBytes(q), DecodeQuads(rest));
  }

  /** Three bytes in front of the rest. */
  lemma EncodeThree(rest: Text)
    requires |rest| >= 3
    ensures Encode(rest) == TripleQuad(rest[..3]) + Encode(rest[3..])
  {
    hide TripleQuad, Encode;
    EncodeStep(rest);
    if |rest| == 3 { assert rest[..3] == rest; }
  }

  method ScalarEncode(bytes: Text) returns (encoded: Text)
    ensures encoded == Encode(bytes)
  {
    hide Symbol, Window, Chunk, Encode, SixA, SixB, SixC, SixD;
    encoded := [];
    var offset := 0;
    while offset + 3 <= |bytes|
      invariant offset <= |bytes| && encoded + Encode(bytes[offset..]) == Encode(bytes)
    {
      EncodeThree(bytes[offset..]);
      assert bytes[offset..][..3] == [bytes[offset], bytes[offset + 1], bytes[offset + 2]];
      assert bytes[offset..][3..] == bytes[offset + 3..];
      SplitChunk(bytes[offset], bytes[offset + 1], bytes[offset + 2]);
      var chunk := Chunk(bytes[offset], bytes[offset + 1], bytes[offset + 2]);
      encoded := encoded + [Symbol(Window(chunk, 0)), Symbol(Window(chunk, 1)), Symbol(Window(chunk, 2)), Symbol(Window(chunk, 3))];
      offset := offset + 3;
    }
    ShortEncode(bytes[offset..]);
    if |bytes| - offset == 1 {
      SplitChunk(bytes[offset], 0, 0);
      var chunk := Chunk(bytes[offset], 0, 0);
      encoded := encoded + [Symbol(Window(chunk, 0)), Symbol(Window(chunk, 1)), PAD, PAD];
    } else if |bytes| - offset == 2 {
      SplitChunk(bytes[offset], bytes[offset + 1], 0);
      var chunk := Chunk(bytes[offset], bytes[offset + 1], 0);
      encoded := encoded + [Symbol(Window(chunk, 0)), Symbol(Window(chunk, 1)), Symbol(Window(chunk, 2)), PAD];
    }
  }

  lemma ShortEncode(rest: Text)
    requires |rest| < 3
    ensures Encode(rest) == if rest == [] then [] else TripleQuad(rest)
  {
    hide TripleQuad;
  }
}
