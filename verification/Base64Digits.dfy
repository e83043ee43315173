/** Base64 as numbers (src/base64.cpp; RFC 4648 section 4): three bytes and four symbols are the same number of 24
    bits, written in base 256 and in base 64. */
module Base64Digits {
  import opened Bytes
  import opened Base64

  /** The value of a symbol, by the alphabet of RFC 4648, table 1. */
  ghost function Digit(b: Byte): int {
    if 'A' as int <= b <= 'Z' as int then b - 'A' as int
    else if 'a' as int <= b <= 'z' as int then 26 + b - 'a' as int
    else if '0' as int <= b <= '9' as int then 52 + b - '0' as int
    else if b == '+' as int then 62
    else if b == '/' as int then 63
    else -1
  }

  lemma SymbolIs(v: Six)
    ensures Digit(Symbol(v)) == v
  {
  }

  /** The quad writes the bytes' number, zero bits filling its last symbol, pads its places. */
  ghost predicate Writes(q: Text, t: Text)
    requires |q| == 4 && 1 <= |t| <= 3
  {
    var a, b, c, d := Digit(q[0]), Digit(q[1]), Digit(q[2]), Digit(q[3]);
    match |t|
    case 1 => q[2] == '=' as int && q[3] == '=' as int && a >= 0 && b >= 0 && 64 * a + b == 16 * (t[0] as int)
    case 2 => q[3] == '=' as int && a >= 0 && b >= 0 && c >= 0 && 4096 * a + 64 * b + c == 4 * (256 * (t[0] as int) + t[1] as int)
    case _ => a >= 0 && b >= 0 && c >= 0 && d >= 0 && 262144 * a + 4096 * b + 64 * c + d == 65536 * (t[0] as int) + 256 * (t[1] as int) + t[2] as int
  }

  lemma SixesNumber(x: Byte, y: Byte, z: Byte)
    ensures 262144 * SixA(x) + 4096 * SixB(x, y) + 64 * SixC(y, z) + SixD(z) == 65536 * (x as int) + 256 * (y as int) + z
    ensures 4096 * SixA(x) + 64 * SixB(x, y) + SixC(y, 0) == 4 * (256 * (x as int) + y)
    ensures 64 * SixA(x) + SixB(x, 0) == 16 * (x as int)
  {
  }

  lemma TripleWrites(t: Text)
    requires 1 <= |t| <= 3
    ensures Writes(TripleQuad(t), t)
  {
    var x, y, z := At(t, 0), At(t, 1), At(t, 2);
    SymbolIs(SixA(x));
    SymbolIs(SixB(x, y));
    SymbolIs(SixC(y, z));
    SymbolIs(SixD(z));
    hide Symbol, Digit;
    SixesNumber(x, y, z);
  }

  /** Quad i writes the bytes from 3i on, three of them or what is left. */
  lemma {:induction false} EncodeWrites(data: Text, i: nat)
    requires 3 * i < |data|
    ensures 4 * i + 4 <= |Encode(data)|
    ensures Writes(Encode(data)[4 * i..4 * i + 4], data[3 * i..Min(3 * i + 3, |data|)])
    decreases i
  {
    hide Writes, TripleQuad;
    if i == 0 {
      TripleWrites(data[..Min(3, |data|)]);
      FirstQuad(data);
    } else {
      EncodeWrites(data[3..], i - 1);
      assert Encode(data) == TripleQuad(data[..3]) + Encode(data[3..]);
      hide Encode;
      SliceBehind(TripleQuad(data[..3]), Encode(data[3..]), 4 * (i - 1));
      ThreeOn(data, 3 * (i - 1));
    }
  }

  lemma FirstQuad(data: Text)
    requires data != []
    ensures |Encode(data)| >= 4 && Encode(data)[..4] == TripleQuad(data[..Min(3, |data|)])
  {
    hide TripleQuad;
    assert |data| <= 3 ==> data[..|data|] == data;
  }

  lemma ThreeOn(data: Text, n: nat)
    requires 3 + n <= |data|
    ensures data[3..][n..Min(n + 3, |data[3..]|)] == data[3 + n..Min(3 + n + 3, |data|)]
  {
  }

  lemma SliceBehind(quad: Text, rest: Text, n: nat)
    requires |quad| == 4 && n + 4 <= |rest|
    ensures (quad + rest)[4 + n..4 + n + 4] == rest[n..n + 4]
  {
  }

  lemma {:induction false} EncodeLength(data: Text)
    ensures |Encode(data)| == (|data| + 2) / 3 * 4
  {
    hide TripleQuad;
    if |data| > 3 { EncodeLength(data[3..]); }
  }

  // ----- And back.

  /** The bytes are the quad's number, the bits past the last byte dropped. */
  ghost predicate ReadsBack(q: Text, t: Text)
    requires |q| == 4
  {
    var a, b, c, d := Digit(q[0]), Digit(q[1]), Digit(q[2]), Digit(q[3]);
    match |t|
    case 1 => q[2] == '=' as int && q[3] == '=' as int && a >= 0 && b >= 0 && t[0] as int == (64 * a + b) / 16
    case 2 => q[3] == '=' as int && a >= 0 && b >= 0 && c >= 0 && 256 * (t[0] as int) + t[1] as int == (4096 * a + 64 * b + c) / 4
    case 3 => a >= 0 && b >= 0 && c >= 0 && d >= 0
              && 65536 * (t[0] as int) + 256 * (t[1] as int) + t[2] as int == 262144 * a + 4096 * b + 64 * c + d
    case _ => false
  }

  /** Quad i of the symbols reads back as the bytes from 3i on. */
  ghost predicate ReadsAt(c: Text, bytes: Text, i: nat) {
    4 * i + 4 <= |c| && 3 * i <= |bytes| && ReadsBack(c[4 * i..4 * i + 4], bytes[3 * i..Min(3 * i + 3, |bytes|)])
  }

  lemma ValueIs(b: Byte)
    ensures Value(b).Some? <==> Digit(b) >= 0
    ensures Value(b).Some? ==> Digit(b) == Value(b).value
  {
  }

  lemma BytesNumber(a: Six, b: Six, c: Six, d: Six)
    ensures 65536 * (ByteA(a, b) as int) + 256 * (ByteB(b, c) as int) + ByteC(c, d) as int == 262144 * a + 4096 * b + 64 * c + d
    ensures 256 * (ByteA(a, b) as int) + ByteB(b, c) as int == (4096 * a + 64 * b + c) / 4
    ensures ByteA(a, b) as int == (64 * a + b) / 16
  {
  }

  lemma QuadReadsBack(q: Text, last: bool)
    requires |q| == 4 && QuadReads(q, last)
    ensures ReadsBack(q, QuadBytes(q))
  {
    ValueIs(q[0]);
    ValueIs(q[1]);
    ValueIs(q[2]);
    ValueIs(q[3]);
    TableInverts(0, q[0]);
    hide Value, Digit, ByteA, ByteB, ByteC;
    BytesNumber(Bits(q[0]), Bits(q[1]), Bits(q[2]), Bits(q[3]));
  }

  lemma {:induction false} QuadsReadBack(c: Text, i: nat)
    requires |c| % 4 == 0 && 4 * i < |c| && DecodeQuads(c).Some?
    ensures ReadsAt(c, DecodeQuads(c).value, i)
    decreases i
  {
    hide ReadsBack, QuadReads, QuadBytes;
    var q, rest := c[..4], c[4..];
    QuadReadsBack(q, |c| == 4);
    var bytes, more := QuadBytes(q), DecodeQuads(rest).value;
    assert DecodeQuads(c).value == bytes + more;
    if i == 0 {
      QuadShort(q);
      if |c| == 4 { LastAlone(c); } else { QuadFull(c); }
      BytesInFront(bytes, more);
    } else {
      QuadFull(c);
      QuadsReadBack(rest, i - 1);
      assert rest[4 * (i - 1)..4 * (i - 1) + 4] == c[4 * i..4 * i + 4];
      BytesBehind(bytes, more, 3 * (i - 1));
    }
  }

  /** A quad before others has no pad. */
  lemma QuadFull(c: Text)
    requires |c| % 4 == 0 && |c| > 4 && DecodeQuads(c).Some?
    ensures |QuadBytes(c[..4])| == 3
  {
    hide Value;
  }

  lemma BytesInFront(bytes: Text, more: Text)
    requires |bytes| <= 3 && (more != [] ==> |bytes| == 3)
    ensures (bytes + more)[..Min(3, |bytes + more|)] == bytes
  {
    if more == [] { assert bytes + more == bytes; }
  }

  lemma LastAlone(c: Text)
    requires |c| == 4
    ensures DecodeQuads(c[4..]) == Some([])
  {
    assert c[4..] == [];
  }

  lemma QuadShort(q: Text)
    requires |q| == 4
    ensures |QuadBytes(q)| <= 3
  {
  }

  lemma BytesBehind(bytes: Text, more: Text, n: nat)
    requires |bytes| == 3 && n <= |more|
    ensures (bytes + more)[3 + n..Min(3 + n + 3, |bytes + more|)] == more[n..Min(n + 3, |more|)]
  {
  }

  /** Each quad of what is left of the text without its white space reads back as its bytes. */
  lemma DecodeReads(s: Text, i: nat)
    requires Decode(s).Some? && 4 * i < |Strip(s)|
    ensures ReadsAt(Strip(s), Decode(s).value, i)
  {
    hide DecodeQuads, Strip, ReadsAt;
    QuadsReadBack(Strip(s), i);
  }
}
