/** The UTF-8 check in front of the crypto routines, against section 3 and 4 of RFC 3629. */
module Utf8 {

  type Byte = b: int | 0 <= b < 256
  type Bytes = seq<Byte>

  // ---------------------------------------------------------------- the check

  predicate Continuation(c: Byte) { 0x80 <= c <= 0xBF }

  /** How many continuation bytes a lead byte announces, or -1 for a byte that cannot lead. */
  function Announced(c: Byte): int {
    if c <= 0x7F then 0
    else if 0xC0 <= c <= 0xDF then 1
    else if 0xE0 <= c <= 0xEF then 2
    else if 0xF0 <= c <= 0xF7 then 3
    else -1
  }

  /** One lead byte and exactly the continuation bytes it announces. */
  predicate Segment(s: Bytes) {
    s != [] && |s| == Announced(s[0]) + 1 && forall i :: 1 <= i < |s| ==> Continuation(s[i])
  }

  /** The byte string splits into segments, from the left. */
  predicate Splits(s: Bytes)
    decreases |s|
  {
    s == [] ||
    var n := Announced(s[0]) + 1;
    0 < n <= |s| && Segment(s[..n]) && Splits(s[n..])
  }

  /** The inner loop: no byte beyond the terminator is read, and the terminator is no continuation. */
  method Follows(data: array<Byte>, length: nat, i: nat, needed: nat) returns (ok: bool)
    requires i < length < data.Length && data[length] == 0
    ensures ok <==> i + needed < length && forall k :: i < k <= i + needed ==> Continuation(data[k])
  {
    var j := 0;
    while j < needed
      invariant 0 <= j <= needed && i + j < length
      invariant forall k :: i < k <= i + j ==> Continuation(data[k])
    {
      if i + j + 1 > length { return false; }
      var follow := data[i + j + 1];
      if follow < 0x80 || follow > 0xBF { return false; }
      j := j + 1;
    }
    ok := true;
  }

  lemma SplitFirst(s: Bytes, i: nat)
    requires i < |s|
    ensures var n := Announced(s[i]) + 1;
      Splits(s[i..]) <==>
        0 < n && i + n <= |s| && (forall k :: i < k < i + n ==> Continuation(s[k])) && Splits(s[i + n..])
  {
    var rest, n := s[i..], Announced(s[i]) + 1;
    if 0 < n && i + n <= |s| {
      assert rest[n..] == s[i + n..];
      assert forall k :: 1 <= k < n ==> rest[..n][k] == s[i + k];
      assert forall k :: i < k < i + n ==> s[k] == rest[..n][k - i];
    }
  }

  /** What is still to be decided when the index stands at `i`; past the terminator nothing is. */
  predicate SplitsFrom(s: Bytes, i: nat) {
    i > |s| || Splits(s[i..])
  }

  /** The turns of the loop: at the terminator, on an ASCII byte, on a byte that cannot lead, and on a
      lead byte. */
  lemma AtTerminator(s: Bytes)
    ensures SplitsFrom(s, |s|) && SplitsFrom(s, |s| + 1)
  {
    assert s[|s|..] == [];
  }

  lemma AtAscii(s: Bytes, i: nat)
    requires i < |s| && s[i] <= 0x7F
    ensures SplitsFrom(s, i) <==> SplitsFrom(s, i + 1)
  {
    SplitFirst(s, i);
  }

  lemma AtLead(s: Bytes, i: nat, needed: nat)
    requires i < |s| && needed == Announced(s[i])
    ensures SplitsFrom(s, i) <==>
      i + needed < |s| && (forall k :: i < k <= i + needed ==> Continuation(s[k])) && SplitsFrom(s, i + needed + 1)
  {
    SplitFirst(s, i);
  }

  lemma AtNoLead(s: Bytes, i: nat)
    requires i < |s| && Announced(s[i]) < 0
    ensures !SplitsFrom(s, i)
  {
    SplitFirst(s, i);
  }

  /** The loop: it terminates, reads no byte beyond the terminator and decides `Splits`. */
  method IsValidUtf8(data: array<Byte>, length: nat) returns (valid: bool)
    requires length < data.Length && data[length] == 0
    ensures valid <==> Splits(data[..length])
  {
    ghost var s := data[..length];
    assert s[0..] == s;
    AtTerminator(s);
    var i := 0;
    while i <= length
      invariant 0 <= i <= length + 1
      invariant Splits(s) <==> SplitsFrom(s, i)
      decreases length + 1 - i
    {
      var c := data[i];
      if c <= 0x7F {
        if i < length { AtAscii(s, i); }
        i := i + 1;
        continue;
      }
      assert c == s[i];
      var needed := Announced(c);
      if needed < 0 {
        AtNoLead(s, i);
        return false;
      }
      AtLead(s, i, needed);
      var ok := Follows(data, length, i, needed);
      if !ok { return false; }
      i := i + needed + 1;
    }
    valid := true;
  }

  // ---------------------------------------------------------------- what it decides

  function Flatten(segments: seq<Bytes>): Bytes {
    if segments == [] then [] else segments[0] + Flatten(segments[1..])
  }

  ghost predicate AllSegments(segments: seq<Bytes>) {
    forall i :: 0 <= i < |segments| ==> Segment(segments[i])
  }

  lemma {:induction false} FlattenedSplits(segments: seq<Bytes>)
    requires AllSegments(segments)
    ensures Splits(Flatten(segments))
    decreases |segments|
  {
    if segments != [] {
      FlattenedSplits(segments[1..]);
      var s := Flatten(segments);
      assert s[..|segments[0]|] == segments[0] && s[|segments[0]|..] == Flatten(segments[1..]);
    }
  }

  lemma FlattenCons(first: Bytes, rest: seq<Bytes>) returns (segments: seq<Bytes>)
    requires Segment(first) && AllSegments(rest)
    ensures Flatten(segments) == first + Flatten(rest) && AllSegments(segments)
  {
    segments := [first] + rest;
    assert segments[1..] == rest;
  }

  lemma {:induction false} SplitsFlattened(s: Bytes) returns (segments: seq<Bytes>)
    requires Splits(s)
    ensures Flatten(segments) == s && AllSegments(segments)
    decreases |s|
  {
    if s == [] {
      segments := [];
    } else {
      var n := Announced(s[0]) + 1;
      var first, tail := s[..n], s[n..];
      assert s == first + tail;
      var rest := SplitsFlattened(tail);
      segments := FlattenCons(first, rest);
    }
  }

  /** Splitting from the left is splitting in any way at all. */
  lemma SplitsExactly(s: Bytes)
    ensures Splits(s) <==> exists segments: seq<Bytes> :: Flatten(segments) == s && AllSegments(segments)
  {
    if Splits(s) {
      var segments := SplitsFlattened(s);
    }
    if segments: seq<Bytes> :| Flatten(segments) == s && AllSegments(segments) {
      FlattenedSplits(segments);
    }
  }

  /** The segments, byte by byte: ASCII, and leads of two, three and four bytes. */
  lemma SegmentExactly(s: Bytes)
    ensures Segment(s) <==>
              || (|s| == 1 && s[0] < 0x80)
              || (|s| == 2 && 0xC0 <= s[0] < 0xE0 && 0x80 <= s[1] < 0xC0)
              || (|s| == 3 && 0xE0 <= s[0] < 0xF0 && 0x80 <= s[1] < 0xC0 && 0x80 <= s[2] < 0xC0)
              || (|s| == 4 && 0xF0 <= s[0] < 0xF8 && 0x80 <= s[1] < 0xC0 && 0x80 <= s[2] < 0xC0 && 0x80 <= s[3] < 0xC0)
  {
    if |s| == 2 { assert Continuation(s[1]) <==> 0x80 <= s[1] < 0xC0; }
    if |s| == 3 { assert Continuation(s[1]) && Continuation(s[2]) <==> 0x80 <= s[1] < 0xC0 && 0x80 <= s[2] < 0xC0; }
    if |s| == 4 {
      assert Continuation(s[1]) && Continuation(s[2]) && Continuation(s[3]) <==>
             0x80 <= s[1] < 0xC0 && 0x80 <= s[2] < 0xC0 && 0x80 <= s[3] < 0xC0;
    }
  }

  // ---------------------------------------------------------------- the standard

  predicate Scalar(cp: int) {
    0 <= cp <= 0x10FFFF && !(0xD800 <= cp <= 0xDFFF)
  }

  /** The octet sequence of a scalar value, by the table of section 3. */
  function EncodeScalar(cp: int): Bytes
    requires Scalar(cp)
  {
    if cp < 0x80 then [cp]
    else if cp < 0x800 then [0xC0 + cp / 64, 0x80 + cp % 64]
    else if cp < 0x10000 then [0xE0 + cp / 4096, 0x80 + cp / 64 % 64, 0x80 + cp % 64]
    else [0xF0 + cp / 262144, 0x80 + cp / 4096 % 64, 0x80 + cp / 64 % 64, 0x80 + cp % 64]
  }

  /** The syntax of section 4: the segments above, less the overlong forms, the surrogates and what
      lies beyond 10FFFF. Only the first two bytes matter. */
  predicate Canonical(s: Bytes)
    requires Segment(s)
  {
    && s[0] != 0xC0 && s[0] != 0xC1
    && (s[0] == 0xE0 ==> s[1] >= 0xA0)
    && (s[0] == 0xED ==> s[1] <= 0x9F)
    && (s[0] == 0xF0 ==> s[1] >= 0x90)
    && (s[0] == 0xF4 ==> s[1] <= 0x8F)
    && s[0] <= 0xF4
  }

  /** The scalar value of a segment. */
  function DecodeSegment(s: Bytes): int
    requires Segment(s)
  {
    if |s| == 1 then s[0]
    else if |s| == 2 then Two(s[0] - 0xC0, s[1] - 0x80)
    else if |s| == 3 then Three(s[0] - 0xE0, s[1] - 0x80, s[2] - 0x80)
    else Four(s[0] - 0xF0, s[1] - 0x80, s[2] - 0x80, s[3] - 0x80)
  }

  function Two(a: int, b: int): int { a * 64 + b }

  function Three(a: int, b: int, c: int): int { a * 4096 + b * 64 + c }

  function Four(a: int, b: int, c: int, d: int): int { a * 262144 + b * 4096 + c * 64 + d }

  lemma ThreeDigits(a: int, b: int, c: int)
    requires 0 <= a && 0 <= b < 64 && 0 <= c < 64
    ensures var n := Three(a, b, c); n / 4096 == a && n / 64 % 64 == b && n % 64 == c
  {
    assert Three(a, b, c) / 64 == a * 64 + b;
  }

  lemma FourDigits(a: int, b: int, c: int, d: int)
    requires 0 <= a && 0 <= b < 64 && 0 <= c < 64 && 0 <= d < 64
    ensures var n := Four(a, b, c, d); n / 262144 == a && n / 4096 % 64 == b && n / 64 % 64 == c && n % 64 == d
  {
    assert Four(a, b, c, d) / 64 == Three(a, b, c);
    assert Four(a, b, c, d) / 4096 == a * 64 + b;
    ThreeDigits(a, b, c);
  }

  lemma ScalarIsSegment(cp: int)
    requires Scalar(cp)
    ensures Segment(EncodeScalar(cp)) && Canonical(EncodeScalar(cp))
  {
    if cp < 0x80 {
    } else if cp < 0x800 {
      TwoByteForm(cp / 64, cp % 64);
    } else if cp < 0x10000 {
      ThreeByteBounds(cp, cp / 4096, cp / 64 % 64);
      ThreeByteForm(cp / 4096, cp / 64 % 64, cp % 64);
    } else {
      FourByteBounds(cp, cp / 262144, cp / 4096 % 64);
      FourByteForm(cp / 262144, cp / 4096 % 64, cp / 64 % 64, cp % 64);
    }
  }

  lemma TwoByteForm(a: int, b: int)
    requires 2 <= a < 32 && 0 <= b < 64
    ensures var s: Bytes := [0xC0 + a, 0x80 + b]; Segment(s) && Canonical(s)
  {
  }

  lemma ThreeByteBounds(cp: int, a: int, b: int)
    requires 0x800 <= cp < 0x10000 && Scalar(cp) && a == cp / 4096 && b == cp / 64 % 64
    ensures 0 <= a < 16 && (a == 0 ==> b >= 0x20) && (a == 0xD ==> b < 0x20)
  {
    assert cp / 64 == a * 64 + b;
  }

  lemma ThreeByteForm(a: int, b: int, c: int)
    requires 0 <= a < 16 && 0 <= b < 64 && 0 <= c < 64
    requires (a == 0 ==> b >= 0x20) && (a == 0xD ==> b < 0x20)
    ensures var s: Bytes := [0xE0 + a, 0x80 + b, 0x80 + c]; Segment(s) && Canonical(s)
  {
  }

  lemma FourByteBounds(cp: int, a: int, b: int)
    requires 0x10000 <= cp <= 0x10FFFF && a == cp / 262144 && b == cp / 4096 % 64
    ensures 0 <= a <= 4 && (a == 0 ==> b >= 0x10) && (a == 4 ==> b < 0x10)
  {
    assert cp / 4096 == a * 64 + b;
  }

  lemma FourByteForm(a: int, b: int, c: int, d: int)
    requires 0 <= a <= 4 && 0 <= b < 64 && 0 <= c < 64 && 0 <= d < 64
    requires (a == 0 ==> b >= 0x10) && (a == 4 ==> b < 0x10)
    ensures var s: Bytes := [0xF0 + a, 0x80 + b, 0x80 + c, 0x80 + d]; Segment(s) && Canonical(s)
  {
  }

  lemma ThreeByteScalar(a: int, b: int, c: int)
    requires 0 <= a < 16 && 0 <= b < 64 && 0 <= c < 64
    requires (a == 0 ==> b >= 0x20) && (a == 0xD ==> b < 0x20)
    ensures 0x800 <= Three(a, b, c) < 0x10000 && Scalar(Three(a, b, c))
    ensures EncodeScalar(Three(a, b, c)) == [0xE0 + a, 0x80 + b, 0x80 + c]
  {
    ThreeDigits(a, b, c);
    if a < 0xD {
      assert Three(a, b, c) <= 0xC * 4096 + 4095;
    } else if a == 0xD {
      assert Three(a, b, c) <= 0xD * 4096 + 0x1F * 64 + 63;
    }
  }

  lemma FourByteScalar(a: int, b: int, c: int, d: int)
    requires 0 <= a <= 4 && 0 <= b < 64 && 0 <= c < 64 && 0 <= d < 64
    requires (a == 0 ==> b >= 0x10) && (a == 4 ==> b < 0x10)
    ensures 0x10000 <= Four(a, b, c, d) <= 0x10FFFF && Scalar(Four(a, b, c, d))
    ensures EncodeScalar(Four(a, b, c, d)) == [0xF0 + a, 0x80 + b, 0x80 + c, 0x80 + d]
  {
    FourDigits(a, b, c, d);
  }

  /** A canonical segment encodes exactly one scalar value. */
  lemma SegmentIsScalar(s: Bytes)
    requires Segment(s) && Canonical(s)
    ensures Scalar(DecodeSegment(s)) && EncodeScalar(DecodeSegment(s)) == s
  {
    if |s| == 3 {
      assert Continuation(s[1]) && Continuation(s[2]);
      ThreeByteScalar(s[0] - 0xE0, s[1] - 0x80, s[2] - 0x80);
    } else if |s| == 4 {
      assert Continuation(s[1]) && Continuation(s[2]) && Continuation(s[3]);
      FourByteScalar(s[0] - 0xF0, s[1] - 0x80, s[2] - 0x80, s[3] - 0x80);
    } else if |s| == 2 {
      assert Continuation(s[1]);
    }
  }

  function EncodeAll(cps: seq<int>): Bytes
    requires forall i :: 0 <= i < |cps| ==> Scalar(cps[i])
  {
    if cps == [] then [] else EncodeScalar(cps[0]) + EncodeAll(cps[1..])
  }

  /** Well-formed UTF-8, from the left. */
  predicate WellFormed(s: Bytes)
    decreases |s|
  {
    s == [] ||
    var n := Announced(s[0]) + 1;
    0 < n <= |s| && Segment(s[..n]) && Canonical(s[..n]) && WellFormed(s[n..])
  }

  lemma {:induction false} EncodedIsWellFormed(cps: seq<int>)
    requires forall i :: 0 <= i < |cps| ==> Scalar(cps[i])
    ensures WellFormed(EncodeAll(cps)) && Splits(EncodeAll(cps))
    decreases |cps|
  {
    if cps != [] {
      EncodedIsWellFormed(cps[1..]);
      var first, s := EncodeScalar(cps[0]), EncodeAll(cps);
      ScalarIsSegment(cps[0]);
      assert s[..|first|] == first && s[|first|..] == EncodeAll(cps[1..]);
    }
  }

  lemma EncodeCons(segment: Bytes, rest: seq<int>) returns (cps: seq<int>)
    requires Segment(segment) && Canonical(segment) && forall i :: 0 <= i < |rest| ==> Scalar(rest[i])
    ensures (forall i :: 0 <= i < |cps| ==> Scalar(cps[i])) && EncodeAll(cps) == segment + EncodeAll(rest)
  {
    SegmentIsScalar(segment);
    cps := [DecodeSegment(segment)] + rest;
    assert cps[1..] == rest;
  }

  lemma {:induction false} WellFormedIsEncoded(s: Bytes) returns (cps: seq<int>)
    requires WellFormed(s)
    ensures (forall i :: 0 <= i < |cps| ==> Scalar(cps[i])) && EncodeAll(cps) == s
    decreases |s|
  {
    if s == [] {
      cps := [];
    } else {
      var n := Announced(s[0]) + 1;
      var segment, tail := s[..n], s[n..];
      assert s == segment + tail;
      var rest := WellFormedIsEncoded(tail);
      cps := EncodeCons(segment, rest);
    }
  }

  ghost predicate IsUtf8(s: Bytes) {
    exists cps: seq<int> :: (forall i :: 0 <= i < |cps| ==> Scalar(cps[i])) && EncodeAll(cps) == s
  }

  /** The check accepts every encoding of scalar values; an accepted string is one exactly when each
      of its segments is canonical. */
  lemma AcceptedIsUtf8Exactly(s: Bytes)
    ensures IsUtf8(s) ==> Splits(s)
    ensures IsUtf8(s) <==> WellFormed(s)
  {
    if cps: seq<int> :| (forall i :: 0 <= i < |cps| ==> Scalar(cps[i])) && EncodeAll(cps) == s {
      EncodedIsWellFormed(cps);
    }
    if WellFormed(s) {
      var cps := WellFormedIsEncoded(s);
    }
  }

  /** Every segment outside the syntax of section 4 passes the check and is not UTF-8. */
  lemma NonCanonicalPasses(s: Bytes)
    requires Segment(s) && !Canonical(s)
    ensures Splits(s) && !IsUtf8(s)
  {
    assert s[..|s|] == s && s[|s|..] == [];
    AcceptedIsUtf8Exactly(s);
  }

  /** For instance the overlong form of NUL, an encoded surrogate, and a value beyond 10FFFF. */
  lemma OverlongPasses()
    ensures Splits([0xC0, 0x80]) && !IsUtf8([0xC0, 0x80])
  {
    NonCanonicalPasses([0xC0, 0x80]);
  }

  lemma SurrogatePasses()
    ensures Splits([0xED, 0xA0, 0x80]) && !IsUtf8([0xED, 0xA0, 0x80])
  {
    NonCanonicalPasses([0xED, 0xA0, 0x80]);
  }

  lemma BeyondRangePasses()
    ensures Splits([0xF4, 0x90, 0x80, 0x80]) && !IsUtf8([0xF4, 0x90, 0x80, 0x80])
  {
    NonCanonicalPasses([0xF4, 0x90, 0x80, 0x80]);
  }
}
