/** The strict UTF-8 reader of the list-marker rules (src/list_marker.cpp), against RFC 3629 section 3. */
module Utf8 {
  import opened Bytes
  import opened LeadBytes

  datatype CodePoint = CodePoint(value: nat, length: nat)

  const MALFORMED: CodePoint := CodePoint(0xFFFD, 1)

  /** A code point that UTF-8 encodes: up to U+10FFFF, and no surrogate. */
  predicate IsScalar(v: nat) {
    v <= 0x10FFFF && !(0xD800 <= v <= 0xDFFF)
  }

  /** The encoding of RFC 3629 section 3: six bits to each byte but the first. */
  function Encode(v: nat): Text
    requires IsScalar(v)
  {
    var u, w := v / 64, v / 64 / 64;
    if v < 0x80 then [v]
    else if v < 0x800 then [0xC0 + u, 0x80 + v % 64]
    else if v < 0x10000 then [0xE0 + w, 0x80 + u % 64, 0x80 + v % 64]
    else [0xF0 + w / 64, 0x80 + w % 64, 0x80 + u % 64, 0x80 + v % 64]
  }

  // ----- The reader.

  function LengthOf(lead: Byte): nat {
    if lead < 0x80 then 1
    else if 0xC0 <= lead < 0xE0 then 2
    else if 0xE0 <= lead < 0xF0 then 3
    else if 0xF0 <= lead < 0xF8 then 4
    else 0
  }

  /** The bits of the lead byte that count. */
  function LeadBits(lead: Byte): nat {
    if lead < 0x80 then lead
    else if 0xC0 <= lead < 0xE0 then lead - 0xC0
    else if 0xE0 <= lead < 0xF0 then lead - 0xE0
    else if 0xF0 <= lead < 0xF8 then lead - 0xF0
    else 0
  }

  /** Below this a sequence of that length is overlong. */
  function Smallest(length: nat): nat {
    if length == 2 then 0x80 else if length == 3 then 0x800 else if length == 4 then 0x10000 else 0
  }

  /** The value after n bytes, the lead among them; none once a byte is no continuation. */
  function Accumulated(s: Text, at: nat, n: nat): Option<nat>
    requires n > 0 && at + n <= |s|
  {
    if n == 1 then Some(LeadBits(s[at]))
    else match Accumulated(s, at, n - 1)
      case None => None
      case Some(v) => if !IsLead(s[at + n - 1]) then Some(v * 64 + (s[at + n - 1] - 0x80)) else None
  }

  function DecodeAt(s: Text, at: nat): (c: CodePoint)
    requires at < |s|
    ensures 1 <= c.length <= 4 && at + c.length <= |s|
  {
    var length := LengthOf(s[at]);
    if length == 0 || at + length > |s| then MALFORMED
    else match Accumulated(s, at, length)
      case None => MALFORMED
      case Some(v) => if v < Smallest(length) || !IsScalar(v) then MALFORMED else CodePoint(v, length)
  }

  method ReadAt(s: Text, at: nat) returns (c: CodePoint)
    requires at < |s|
    ensures c == DecodeAt(s, at)
  {
    var lead := s[at];
    if lead < 0x80 {
      assert Accumulated(s, at, 1) == Some(lead);
      return CodePoint(lead, 1);
    }
    var length: nat, value: nat, smallest: nat := 0, 0, 0;
    if 0xC0 <= lead < 0xE0 {
      length, value, smallest := 2, lead - 0xC0, 0x80;
    } else if 0xE0 <= lead < 0xF0 {
      length, value, smallest := 3, lead - 0xE0, 0x800;
    } else if 0xF0 <= lead < 0xF8 {
      length, value, smallest := 4, lead - 0xF0, 0x10000;
    } else {
      return MALFORMED;
    }
    if at + length > |s| { return MALFORMED; }
    for i := 1 to length
      invariant Accumulated(s, at, i) == Some(value)
    {
      if IsLead(s[at + i]) {
        AccumulatedStops(s, at, i + 1, length);
        return MALFORMED;
      }
      value := value * 64 + (s[at + i] - 0x80);
    }
    if value < smallest || value > 0x10FFFF || 0xD800 <= value <= 0xDFFF { return MALFORMED; }
    c := CodePoint(value, length);
  }

  lemma {:induction false} AccumulatedStops(s: Text, at: nat, n: nat, m: nat)
    requires 0 < n <= m && at + m <= |s| && Accumulated(s, at, n).None?
    ensures Accumulated(s, at, m).None?
  {
    if n < m { AccumulatedStops(s, at, n, m - 1); }
  }

  // ----- The reader reads exactly the encodings.

  ghost predicate EncodedAt(s: Text, at: nat, v: nat)
    requires IsScalar(v)
  {
    at + |Encode(v)| <= |s| && forall k :: 0 <= k < |Encode(v)| ==> s[at + k] == Encode(v)[k]
  }

  lemma SixBits(q: nat, r: nat)
    requires r < 64
    ensures (q * 64 + r) / 64 == q && (q * 64 + r) % 64 == r
  {
  }

  lemma Regroup(v: nat)
    ensures v / 64 * 64 + v % 64 == v && v % 64 < 64
  {
  }

  /** The value each sequence of bytes stands for, one case a length. */
  lemma AccumulatesTwo(s: Text, at: nat)
    requires at + 2 <= |s|
    ensures Accumulated(s, at, 1) == Some(LeadBits(s[at]))
    ensures Accumulated(s, at, 2) == if !IsLead(s[at + 1]) then Some(LeadBits(s[at]) * 64 + (s[at + 1] - 0x80)) else None
  {
  }

  lemma AccumulatesThree(s: Text, at: nat)
    requires at + 3 <= |s|
    ensures Accumulated(s, at, 3) == if !IsLead(s[at + 1]) && !IsLead(s[at + 2])
      then Some((LeadBits(s[at]) * 64 + (s[at + 1] - 0x80)) * 64 + (s[at + 2] - 0x80)) else None
  {
    AccumulatesTwo(s, at);
  }

  lemma AccumulatesFour(s: Text, at: nat)
    requires at + 4 <= |s|
    ensures Accumulated(s, at, 4) == if !IsLead(s[at + 1]) && !IsLead(s[at + 2]) && !IsLead(s[at + 3])
      then Some(((LeadBits(s[at]) * 64 + (s[at + 1] - 0x80)) * 64 + (s[at + 2] - 0x80)) * 64 + (s[at + 3] - 0x80)) else None
  {
    AccumulatesThree(s, at);
  }

  /** Every encoding reads back as its code point. */
  lemma DecodesEncoding(s: Text, at: nat, v: nat)
    requires at < |s| && IsScalar(v) && EncodedAt(s, at, v)
    ensures DecodeAt(s, at) == CodePoint(v, |Encode(v)|)
  {
    var u, w, n := v / 64, v / 64 / 64, |Encode(v)|;
    Regroup(v);
    Regroup(u);
    Regroup(w);
    assert s[at] == Encode(v)[0];
    if n >= 2 { assert s[at + 1] == Encode(v)[1]; }
    if n >= 3 { assert s[at + 2] == Encode(v)[2]; }
    if n == 4 { assert s[at + 3] == Encode(v)[3]; }
    hide EncodedAt;
    if n == 1 {
      assert Accumulated(s, at, 1) == Some(v);
    } else if n == 2 {
      AccumulatesTwo(s, at);
    } else if n == 3 {
      AccumulatesThree(s, at);
    } else {
      AccumulatesFour(s, at);
    }
    hide Accumulated;
  }

  lemma EncodesTwo(a: nat, b: nat)
    requires a < 32 && b < 64 && a * 64 + b >= 0x80
    ensures Encode(a * 64 + b) == [0xC0 + a, 0x80 + b]
  {
    SixBits(a, b);
  }

  lemma EncodesThree(a: nat, b: nat, c: nat)
    requires a < 16 && b < 64 && c < 64 && (a * 64 + b) * 64 + c >= 0x800 && IsScalar((a * 64 + b) * 64 + c)
    ensures Encode((a * 64 + b) * 64 + c) == [0xE0 + a, 0x80 + b, 0x80 + c]
  {
    SixBits(a, b);
    SixBits(a * 64 + b, c);
  }

  lemma EncodesFour(a: nat, b: nat, c: nat, d: nat)
    requires a < 8 && b < 64 && c < 64 && d < 64 && ((a * 64 + b) * 64 + c) * 64 + d >= 0x10000
    requires IsScalar(((a * 64 + b) * 64 + c) * 64 + d)
    ensures Encode(((a * 64 + b) * 64 + c) * 64 + d) == [0xF0 + a, 0x80 + b, 0x80 + c, 0x80 + d]
  {
    SixBits(a, b);
    SixBits(a * 64 + b, c);
    SixBits((a * 64 + b) * 64 + c, d);
  }

  lemma DecodedOne(s: Text, at: nat)
    requires at < |s| && DecodeAt(s, at) != MALFORMED && DecodeAt(s, at).length == 1
    ensures IsScalar(DecodeAt(s, at).value) && Encode(DecodeAt(s, at).value) == [s[at]]
  {
    assert Accumulated(s, at, 1) == Some(LeadBits(s[at]));
    hide Accumulated;
  }

  lemma DecodedTwo(s: Text, at: nat)
    requires at < |s| && DecodeAt(s, at) != MALFORMED && DecodeAt(s, at).length == 2
    ensures at + 2 <= |s| && IsScalar(DecodeAt(s, at).value) && Encode(DecodeAt(s, at).value) == [s[at], s[at + 1]]
  {
    hide Accumulated, Encode;
    AccumulatesTwo(s, at);
    EncodesTwo(s[at] - 0xC0, s[at + 1] - 0x80);
  }

  lemma DecodedThree(s: Text, at: nat)
    requires at < |s| && DecodeAt(s, at) != MALFORMED && DecodeAt(s, at).length == 3
    ensures at + 3 <= |s| && IsScalar(DecodeAt(s, at).value) && Encode(DecodeAt(s, at).value) == [s[at], s[at + 1], s[at + 2]]
  {
    hide Accumulated, Encode;
    AccumulatesThree(s, at);
    EncodesThree(s[at] - 0xE0, s[at + 1] - 0x80, s[at + 2] - 0x80);
  }

  lemma DecodedFour(s: Text, at: nat)
    requires at < |s| && DecodeAt(s, at) != MALFORMED && DecodeAt(s, at).length == 4
    ensures at + 4 <= |s| && IsScalar(DecodeAt(s, at).value)
    ensures Encode(DecodeAt(s, at).value) == [s[at], s[at + 1], s[at + 2], s[at + 3]]
  {
    hide Accumulated, Encode;
    AccumulatesFour(s, at);
    EncodesFour(s[at] - 0xF0, s[at + 1] - 0x80, s[at + 2] - 0x80, s[at + 3] - 0x80);
  }

  lemma DecodedLength(s: Text, at: nat)
    requires at < |s|
    ensures 1 <= DecodeAt(s, at).length <= 4
  {
    hide Accumulated;
  }

  /** What reads as well-formed is the encoding of its value. */
  lemma DecodedIsEncoded(s: Text, at: nat)
    requires at < |s|
    requires DecodeAt(s, at) != MALFORMED
    ensures
      var c := DecodeAt(s, at);
      IsScalar(c.value) && EncodedAt(s, at, c.value) && |Encode(c.value)| == c.length
  {
    DecodedLength(s, at);
    hide DecodeAt, Encode, IsScalar;
    var c := DecodeAt(s, at);
    if c.length == 1 {
      DecodedOne(s, at);
    } else if c.length == 2 {
      DecodedTwo(s, at);
    } else if c.length == 3 {
      DecodedThree(s, at);
    } else {
      DecodedFour(s, at);
    }
  }

  /** A byte reads as the one-byte U+FFFD exactly where no code point's encoding stands. */
  lemma MalformedIff(s: Text, at: nat)
    requires at < |s|
    ensures DecodeAt(s, at) == MALFORMED <==> forall v: nat :: IsScalar(v) ==> !EncodedAt(s, at, v)
  {
    forall v: nat | IsScalar(v) && EncodedAt(s, at, v) ensures DecodeAt(s, at) != MALFORMED {
      DecodesEncoding(s, at, v);
      assert v == 0xFFFD ==> |Encode(v)| == 3;
    }
    if DecodeAt(s, at) != MALFORMED { DecodedIsEncoded(s, at); }
  }

  // ----- Walking a text by code points.

  ghost predicate Steps(s: Text, i: nat, j: nat)
    requires i <= |s|
    decreases |s| - i
  {
    i == j || (i < |s| && i + DecodeAt(s, i).length <= j && Steps(s, i + DecodeAt(s, i).length, j))
  }

  function CountFrom(s: Text, at: nat): nat
    requires at <= |s|
    decreases |s| - at
  {
    if at == |s| then 0 else 1 + CountFrom(s, at + DecodeAt(s, at).length)
  }

  function CodePoints(s: Text): nat { CountFrom(s, 0) }

  method CountCodePoints(s: Text) returns (count: nat)
    ensures count == CodePoints(s)
  {
    count := 0;
    var at := 0;
    while at < |s|
      invariant at <= |s| && count + CountFrom(s, at) == CodePoints(s)
    {
      var c := ReadAt(s, at);
      count, at := count + 1, at + c.length;
    }
  }

  lemma PrefixDecode(s: Text, m: nat, at: nat)
    requires at < m <= |s| && at + DecodeAt(s, at).length <= m
    ensures DecodeAt(s[..m], at) == DecodeAt(s, at)
  {
    hide DecodeAt, Encode;
    if DecodeAt(s, at) != MALFORMED {
      DecodedIsEncoded(s, at);
      DecodesEncoding(s[..m], at, DecodeAt(s, at).value);
    } else {
      MalformedIff(s, at);
      MalformedIff(s[..m], at);
      assert forall v: nat :: IsScalar(v) && EncodedAt(s[..m], at, v) ==> EncodedAt(s, at, v);
    }
  }

  lemma SuffixDecode(s: Text, m: nat, at: nat)
    requires m <= at < |s|
    ensures DecodeAt(s[m..], at - m) == DecodeAt(s, at)
  {
    hide DecodeAt, Encode;
    forall v: nat | IsScalar(v) ensures EncodedAt(s[m..], at - m, v) <==> EncodedAt(s, at, v) {
      SuffixEncoded(s, m, at, v);
    }
    MalformedIff(s, at);
    MalformedIff(s[m..], at - m);
    if DecodeAt(s, at) != MALFORMED {
      DecodedIsEncoded(s, at);
      DecodesEncoding(s[m..], at - m, DecodeAt(s, at).value);
    }
  }

  lemma SuffixEncoded(s: Text, m: nat, at: nat, v: nat)
    requires m <= at < |s| && IsScalar(v)
    ensures EncodedAt(s[m..], at - m, v) <==> EncodedAt(s, at, v)
  {
    var e := Encode(v);
    hide Encode;
    if at + |e| <= |s| {
      assert s[m..][at - m..at - m + |e|] == s[at..at + |e|];
    }
  }

  lemma {:induction false} PrefixSteps(s: Text, m: nat, i: nat)
    requires i <= m <= |s| && Steps(s, i, m)
    ensures CountFrom(s, i) == CountFrom(s[..m], i) + CountFrom(s, m)
    decreases |s| - i
  {
    hide DecodeAt;
    if i < m {
      PrefixDecode(s, m, i);
      PrefixSteps(s, m, i + DecodeAt(s, i).length);
    }
  }

  lemma {:induction false} SuffixSteps(s: Text, m: nat, i: nat)
    requires m <= i <= |s|
    ensures CountFrom(s, i) == CountFrom(s[m..], i - m)
    decreases |s| - i
  {
    hide DecodeAt;
    if i < |s| {
      SuffixDecode(s, m, i);
      SuffixSteps(s, m, i + DecodeAt(s, i).length);
    }
  }

  /** Cut where a code point ends, a text's code points are those of its two parts. */
  lemma CodePointsSplit(s: Text, m: nat)
    requires m <= |s| && Steps(s, 0, m)
    ensures CodePoints(s) == CodePoints(s[..m]) + CodePoints(s[m..])
  {
    PrefixSteps(s, m, 0);
    SuffixSteps(s, m, m);
  }

  // ----- Where everything is well-formed, code points are lead bytes.

  ghost predicate Clean(s: Text, i: nat, j: nat)
    requires i <= |s|
    decreases |s| - i
  {
    i == j || (i < |s| && DecodeAt(s, i) != MALFORMED && i + DecodeAt(s, i).length <= j && Clean(s, i + DecodeAt(s, i).length, j))
  }

  lemma {:induction false} CleanOn(s: Text, i: nat, j: nat, k: nat)
    requires i <= |s| && j <= k <= |s| && Clean(s, i, j) && Clean(s, j, k)
    ensures Clean(s, i, k)
    decreases |s| - i
  {
    hide DecodeAt;
    if i != j { CleanOn(s, i + DecodeAt(s, i).length, j, k); }
  }

  lemma {:induction false} CleanSteps(s: Text, i: nat, j: nat)
    requires i <= |s| && Clean(s, i, j)
    ensures Steps(s, i, j)
    decreases |s| - i
  {
    hide DecodeAt;
    if i != j { CleanSteps(s, i + DecodeAt(s, i).length, j); }
  }

  lemma OneLead(s: Text, i: nat)
    requires i < |s| && DecodeAt(s, i) != MALFORMED
    ensures Leads(s, i + DecodeAt(s, i).length) == Leads(s, i) + 1
  {
    DecodedIsEncoded(s, i);
    var e := Encode(DecodeAt(s, i).value);
    assert s[i] == e[0] && IsLead(e[0]);
    assert forall k :: 1 <= k < |e| ==> !IsLead(e[k]);
    hide Encode, DecodeAt;
    forall k | i < k < i + |e| ensures !IsLead(s[k]) {
      assert s[i + (k - i)] == e[k - i];
    }
    TrailingBytes(s, i, |e|);
  }

  lemma {:induction false} TrailingBytes(s: Text, i: nat, n: nat)
    requires 1 <= n && i + n <= |s| && IsLead(s[i])
    requires forall k :: i < k < i + n ==> !IsLead(s[k])
    ensures Leads(s, i + n) == Leads(s, i) + 1
  {
    if n > 1 { TrailingBytes(s, i, n - 1); }
  }

  lemma {:induction false} CleanLeads(s: Text, m: nat, i: nat)
    requires i <= m <= |s| && Clean(s, i, m)
    ensures CountFrom(s[..m], i) + Leads(s, i) == Leads(s, m)
    decreases |s| - i
  {
    hide DecodeAt, Leads;
    if i < m {
      PrefixDecode(s, m, i);
      OneLead(s, i);
      CleanLeads(s, m, i + DecodeAt(s, i).length);
    }
  }
}
