/** Percent-encoding of URLs (section 2.1 of RFC 3986) as the network modules do it, on bytes. */
module PercentEncoding {

  type Byte = b: int | 0 <= b < 256
  type Bytes = seq<Byte>

  const PERCENT: Byte := 37

  predicate IsDigit(c: Byte) { 48 <= c <= 57 }
  predicate IsUpper(c: Byte) { 65 <= c <= 90 }
  predicate IsLower(c: Byte) { 97 <= c <= 122 }

  /** The characters of the reserved table, in its order. */
  const RESERVED: string := ";,/?:@&=+$-_.!~*'()#"

  predicate IsReserved(c: Byte) {
    exists i :: 0 <= i < |RESERVED| && RESERVED[i] as int == c
  }

  predicate IsSafe(c: Byte) {
    IsDigit(c) || IsUpper(c) || IsLower(c) || IsReserved(c)
  }

  function Hex(n: int): Byte
    requires 0 <= n < 16
  {
    if n < 10 then 48 + n else 55 + n
  }

  /** from_hex, on any byte: what is no digit is taken for a letter, in 8-bit arithmetic. */
  function FromHex(c: Byte): Byte {
    if IsDigit(c) then c - 48
    else if IsLower(c) then c - 87
    else (c - 55) % 256
  }

  /** The byte written for two hex characters: the low byte of `hi << 4 | lo`. For nibbles it is
      their sum; a wider `lo` reaches into the high half. */
  function Join(hi: Byte, lo: Byte): Byte {
    var h := (hi * 16) % 256;
    if lo < 16 then h + lo else ((h as bv8) | (lo as bv8)) as int
  }

  predicate NulFree(s: Bytes) {
    forall i :: 0 <= i < |s| ==> s[i] != 0
  }

  function EncodeByte(c: Byte): Bytes {
    if IsSafe(c) then [c] else [PERCENT, Hex(c / 16), Hex(c % 16)]
  }

  function Encode(s: Bytes): Bytes {
    if s == [] then [] else EncodeByte(s[0]) + Encode(s[1..])
  }

  /** A percent sign with fewer than two characters after it is dropped; whatever follows it
      otherwise is taken as two hex characters. */
  function Decode(s: Bytes): Bytes {
    if s == [] then []
    else if s[0] != PERCENT then [s[0]] + Decode(s[1..])
    else if |s| >= 3 then [Join(FromHex(s[1]), FromHex(s[2]))] + Decode(s[3..])
    else Decode(s[1..])
  }

  /** What a C reader sees of a buffer: the bytes before the first NUL. */
  function CString(s: Bytes): Bytes {
    if s == [] || s[0] == 0 then [] else [s[0]] + CString(s[1..])
  }

  // ---------------------------------------------------------------- the standard

  /** The characters of section 2.3 of RFC 3986. */
  predicate Unreserved(c: Byte) {
    48 <= c <= 57 || 65 <= c <= 90 || 97 <= c <= 122 || c == 45 || c == 46 || c == 95 || c == 126
  }

  /** The characters of section 2.2: the general delimiters `:/?#[]@` and the others `!$&'()*+,;=`. */
  predicate Delimiter(c: Byte) {
    || c == 58 || c == 47 || c == 63 || c == 35 || c == 91 || c == 93 || c == 64
    || c == 33 || c == 36 || c == 38 || c == 39 || c == 40 || c == 41 || c == 42 || c == 43 || c == 44
    || c == 59 || c == 61
  }

  /** What is left alone is what the standard lets stand, except the square brackets, which are escaped. */
  lemma SafeExactly(c: Byte)
    ensures IsSafe(c) <==> (Unreserved(c) || Delimiter(c)) && c != 91 && c != 93
    ensures Encode([c]) == [c] <==> IsSafe(c)
  {
    var codes := [59, 44, 47, 63, 58, 64, 38, 61, 43, 36, 45, 95, 46, 33, 126, 42, 39, 40, 41, 35];
    assert |RESERVED| == |codes| && forall i :: 0 <= i < |codes| ==> RESERVED[i] as int == codes[i];
    assert IsReserved(c) <==> c in codes;
    assert Encode([c]) == EncodeByte(c) + Encode([]);
  }

  /** The value of a hex digit of either case, as in section 2.1. */
  function HexValue(c: Byte): int {
    if 48 <= c <= 57 then c - 48 else if 65 <= c <= 70 then c - 65 + 10 else if 97 <= c <= 102 then c - 97 + 10 else -1
  }

  lemma DecodeTriple(a: Byte, b: Byte, rest: Bytes)
    ensures Decode([PERCENT, a, b] + rest) == [Join(FromHex(a), FromHex(b))] + Decode(rest)
  {
    var u := [PERCENT, a, b] + rest;
    assert u[0] == PERCENT && u[1] == a && u[2] == b && u[3..] == rest;
  }

  lemma JoinNibbles(hi: Byte, lo: Byte)
    requires hi < 16 && lo < 16
    ensures Join(hi, lo) == 16 * hi + lo
  {
  }

  /** An escape decodes to the byte of its two digits, in either case. */
  lemma EscapeDecodes(a: Byte, b: Byte, rest: Bytes)
    requires HexValue(a) >= 0 && HexValue(b) >= 0
    ensures Decode([PERCENT, a, b] + rest) == [16 * HexValue(a) + HexValue(b)] + Decode(rest)
  {
    DecodeTriple(a, b, rest);
    assert FromHex(a) == HexValue(a) && FromHex(b) == HexValue(b);
    JoinNibbles(FromHex(a), FromHex(b));
  }

  /** Any other byte is taken for a letter: adding the offset of its kind gives it back. */
  lemma FromHexUndone(c: Byte)
    ensures (FromHex(c) + (if 48 <= c <= 57 then 48 else if 97 <= c <= 122 then 87 else 55)) % 256 == c
  {
  }

  /** A percent sign with fewer than two bytes after it disappears, and they stay. */
  lemma TruncatedEscapes(c: Byte)
    ensures Decode([PERCENT]) == []
    ensures c != PERCENT ==> Decode([PERCENT, c]) == [c]
  {
    assert [PERCENT][1..] == [] && [PERCENT, c][1..] == [c];
    if c != PERCENT { assert [c][1..] == []; }
  }

  // ---------------------------------------------------------------- the laws

  lemma HexRoundTrip(n: int)
    requires 0 <= n < 16
    ensures FromHex(Hex(n)) == n && Hex(n) != PERCENT && Hex(n) != 0
  {
  }

  lemma SafeBytes(c: Byte)
    requires IsSafe(c)
    ensures c != PERCENT && c != 0
  {
    if IsReserved(c) {
      var i :| 0 <= i < |RESERVED| && RESERVED[i] as int == c;
      assert RESERVED[i] in RESERVED;
    }
  }

  lemma DecodeEncodedByte(c: Byte, rest: Bytes)
    ensures Decode(EncodeByte(c) + rest) == [c] + Decode(rest)
  {
    if IsSafe(c) {
      SafeBytes(c);
      assert ([c] + rest)[1..] == rest;
    } else {
      HexRoundTrip(c / 16);
      HexRoundTrip(c % 16);
      DecodeTriple(Hex(c / 16), Hex(c % 16), rest);
      JoinNibbles(c / 16, c % 16);
    }
  }

  /** Decoding what was encoded gives back every byte string. */
  lemma {:induction false} DecodeEncode(s: Bytes)
    ensures Decode(Encode(s)) == s
    decreases |s|
  {
    if s != [] {
      DecodeEncodedByte(s[0], Encode(s[1..]));
      DecodeEncode(s[1..]);
    }
  }

  predicate IsHexDigit(c: Byte) {
    IsDigit(c) || 65 <= c <= 70
  }

  /** Every percent sign starts an escape of two upper-case hex digits, and every other byte is a
      safe one or belongs to an escape. */
  predicate WellEscaped(u: Bytes) {
    if u == [] then true
    else if u[0] == PERCENT then |u| >= 3 && IsHexDigit(u[1]) && IsHexDigit(u[2]) && WellEscaped(u[3..])
    else IsSafe(u[0]) && WellEscaped(u[1..])
  }

  lemma {:induction false} EncodeShape(s: Bytes)
    ensures WellEscaped(Encode(s)) && |s| <= |Encode(s)| <= 3 * |s| && NulFree(Encode(s))
    decreases |s|
  {
    if s != [] {
      var rest := Encode(s[1..]);
      EncodeShape(s[1..]);
      if IsSafe(s[0]) {
        SafeBytes(s[0]);
        assert Encode(s)[1..] == rest;
      } else {
        HexRoundTrip(s[0] / 16);
        HexRoundTrip(s[0] % 16);
        assert Encode(s)[3..] == rest;
      }
    }
  }

  /** Decoding never grows the string, and shrinks it as soon as there is a percent sign. */
  lemma {:induction false} DecodeShrinks(u: Bytes)
    ensures |CString(Decode(u))| <= |Decode(u)| <= |u|
    ensures PERCENT in u ==> |Decode(u)| < |u|
    decreases |u|
  {
    CStringShrinks(Decode(u));
    if u != [] {
      if u[0] != PERCENT {
        DecodeShrinks(u[1..]);
      } else if |u| >= 3 {
        DecodeShrinks(u[3..]);
      } else {
        DecodeShrinks(u[1..]);
      }
    }
  }

  lemma {:induction false} CStringShrinks(u: Bytes)
    ensures |CString(u)| <= |u|
    ensures NulFree(u) ==> CString(u) == u
    decreases |u|
  {
    if u != [] {
      CStringShrinks(u[1..]);
      assert NulFree(u) ==> NulFree(u[1..]);
    }
  }

  lemma {:induction false} DecodePlain(u: Bytes)
    requires PERCENT !in u
    ensures Decode(u) == u
    decreases |u|
  {
    if u != [] { DecodePlain(u[1..]); }
  }

  /** A URL is unchanged by decoding, as its C readers see it, exactly when it has no percent sign. */
  lemma DecodeFixedExactly(u: Bytes)
    requires NulFree(u)
    ensures CString(Decode(u)) == u <==> PERCENT !in u
  {
    DecodeShrinks(u);
    if PERCENT !in u {
      DecodePlain(u);
      CStringShrinks(u);
    }
  }

  /** The rule of the fetch module: encode only what decoding leaves alone. */
  function FetchUrl(u: Bytes): Bytes {
    if CString(Decode(u)) == u then Encode(u) else u
  }

  lemma {:induction false} EncodedWithoutPercent(u: Bytes)
    requires PERCENT !in Encode(u)
    ensures Encode(u) == u
    decreases |u|
  {
    if u != [] {
      assert Encode(u) == EncodeByte(u[0]) + Encode(u[1..]);
      assert Encode(u)[0] == EncodeByte(u[0])[0] && Encode(u)[0] in Encode(u);
      EncodedWithoutPercent(u[1..]);
    }
  }

  /** Applying the rule twice is applying it once. */
  lemma FetchUrlIdempotent(u: Bytes)
    requires NulFree(u)
    ensures FetchUrl(FetchUrl(u)) == FetchUrl(u)
  {
    DecodeFixedExactly(u);
    if PERCENT !in u {
      EncodeShape(u);
      DecodeFixedExactly(Encode(u));
      if PERCENT !in Encode(u) { EncodedWithoutPercent(u); }
    }
  }

  // ---------------------------------------------------------------- the buffer loops

  /** A NUL-terminated C string of the given length. */
  ghost predicate Terminated(str: array<Byte>, len: nat)
    reads str
  {
    len < str.Length && str[len] == 0 && NulFree(str[..len])
  }

  lemma AtEnd(str: array<Byte>, len: nat, p: nat)
    requires Terminated(str, len) && p <= len
    ensures str[p] == 0 <==> p == len
  {
    if p < len { assert str[..len][p] == str[p]; }
  }

  method StrLen(str: array<Byte>, ghost len: nat) returns (n: nat)
    requires Terminated(str, len)
    ensures n == len
  {
    n := 0;
    while str[n] != 0
      invariant 0 <= n <= len
      decreases len - n
    {
      AtEnd(str, len, n);
      n := n + 1;
    }
    AtEnd(str, len, n);
  }

  method WriteEncoded(buf: array<Byte>, n: nat, c: Byte) returns (m: nat)
    requires n + 3 <= buf.Length
    modifies buf
    ensures n <= m <= n + 3 && buf[..m] == old(buf[..n]) + EncodeByte(c)
  {
    if IsSafe(c) {
      buf[n] := c;
      m := n + 1;
    } else {
      buf[n], buf[n + 1], buf[n + 2] := PERCENT, Hex(c / 16), Hex(c % 16);
      m := n + 3;
    }
  }

  lemma Regroup(a: Bytes, b: Bytes, c: Bytes)
    ensures a + (b + c) == a + b + c
  {
  }

  /** Encodes into a buffer of three bytes per input byte and a terminator, which is never exceeded. */
  method UrlEncode(str: array<Byte>, ghost len: nat) returns (buf: array<Byte>, n: nat)
    requires Terminated(str, len)
    ensures fresh(buf) && n < buf.Length && buf[..n] == Encode(str[..len]) && buf[n] == 0
  {
    var size := StrLen(str, len);
    buf := new Byte[size * 3 + 1](_ => 0);
    n := 0;
    var p := 0;
    while str[p] != 0
      invariant 0 <= p <= len && n <= 3 * p
      invariant buf[..n] + Encode(str[p..len]) == Encode(str[..len])
      decreases len - p
    {
      AtEnd(str, len, p);
      ghost var rest, done := str[p..len], buf[..n];
      Regroup(done, EncodeByte(rest[0]), Encode(rest[1..]));
      assert rest[0] == str[p] && rest[1..] == str[p + 1..len];
      n := WriteEncoded(buf, n, str[p]);
      assert buf[..n] == done + EncodeByte(rest[0]);
      p := p + 1;
    }
    AtEnd(str, len, p);
    buf[n] := 0;
  }

  /** What the first turn of the decoder does: how far it reads and what it writes. */
  function Turn(s: Bytes): (nat, Bytes)
    requires s != []
  {
    if s[0] != PERCENT then (1, [s[0]])
    else if |s| >= 3 then (3, [Join(FromHex(s[1]), FromHex(s[2]))])
    else (1, [])
  }

  lemma DecodeNext(rest: Bytes)
    requires rest != []
    ensures var (k, out) := Turn(rest); k <= |rest| && |out| <= k && Decode(rest) == out + Decode(rest[k..])
  {
    if rest[0] == PERCENT && |rest| < 3 { assert [] + Decode(rest[1..]) == Decode(rest[1..]); }
  }

  /** One turn of the decoding loop. A look at the two bytes after a percent sign stays inside the
      string, because the second is read only if the first is not the end. */
  method DecodeTurn(str: array<Byte>, ghost len: nat, buf: array<Byte>, n: nat, p: nat) returns (n': nat, p': nat)
    requires Terminated(str, len) && p < len && n < buf.Length && buf != str
    modifies buf
    ensures var (k, out) := Turn(str[p..len]); p' == p + k && n' == n + |out| && buf[..n'] == old(buf[..n]) + out
  {
    ghost var rest := str[p..len];
    AtEnd(str, len, p + 1);
    if p + 1 < len { AtEnd(str, len, p + 2); }
    n', p' := n, p;
    if str[p] == PERCENT {
      if str[p + 1] != 0 && str[p + 2] != 0 {
        buf[n] := Join(FromHex(str[p + 1]), FromHex(str[p + 2]));
        n' := n + 1;
        p' := p' + 2;
      }
    } else {
      buf[n] := str[p];
      n' := n + 1;
    }
    p' := p' + 1;
  }

  /** Decodes into a buffer of the size of the input. */
  method UrlDecode(str: array<Byte>, ghost len: nat) returns (buf: array<Byte>, n: nat)
    requires Terminated(str, len)
    ensures fresh(buf) && n < buf.Length && buf[..n] == Decode(str[..len]) && buf[n] == 0
  {
    var size := StrLen(str, len);
    buf := new Byte[size + 1](_ => 0);
    n := 0;
    var p := 0;
    while str[p] != 0
      invariant 0 <= p <= len && n <= p
      invariant buf[..n] + Decode(str[p..len]) == Decode(str[..len])
      decreases len - p
    {
      AtEnd(str, len, p);
      ghost var rest := str[p..len];
      DecodeNext(rest);
      Regroup(buf[..n], Turn(rest).1, Decode(rest[Turn(rest).0..]));
      n, p := DecodeTurn(str, len, buf, n, p);
      assert rest[Turn(rest).0..] == str[p..len];
    }
    AtEnd(str, len, p);
    buf[n] := 0;
  }
}
