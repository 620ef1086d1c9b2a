/**
 * UTF-8 (RFC 3629, section 3) and the byte-limited cut `_truncate_utf8` of
 * src/agentic_lab/tools/snapshot.py.
 */
module Utf8 {
  import opened Wrappers

  type Byte = b: int | 0 <= b < 0x100
  type Bytes = seq<Byte>

  function EncodeChar(c: char): (bytes: Bytes)
    ensures 1 <= |bytes| <= 4
  {
    var n := c as int;
    if n < 0x80 then [n]
    else if n < 0x800 then [0xC0 + n / 0x40, 0x80 + n % 0x40]
    else if n < 0x1_0000 then [0xE0 + n / 0x1000, 0x80 + n / 0x40 % 0x40, 0x80 + n % 0x40]
    else [0xF0 + n / 0x4_0000, 0x80 + n / 0x1000 % 0x40, 0x80 + n / 0x40 % 0x40, 0x80 + n % 0x40]
  }

  function Encode(s: string): Bytes {
    if s == "" then [] else EncodeChar(s[0]) + Encode(s[1..])
  }

  predicate IsContinuation(b: Byte) { 0x80 <= b < 0xC0 }

  /** The six bits a continuation byte carries. */
  function Payload(b: Byte): int { b - 0x80 }

  predicate IsScalar(n: int) { 0 <= n < 0xD800 || 0xE000 <= n < 0x11_0000 }

  /** The character encoded at the front of `b` and its length, if a valid sequence is there. */
  function DecodeFirst(b: Bytes): (r: Option<(char, nat)>)
    requires b != []
    ensures r.Some? ==> 1 <= r.value.1 <= |b|
  {
    var lead: int := b[0];
    if lead < 0x80 then Some((lead as char, 1))
    else if 0xC0 <= lead < 0xE0 && |b| >= 2 && IsContinuation(b[1]) then
      var n: int := (lead - 0xC0) * 0x40 + Payload(b[1]);
      if 0x80 <= n then Some((n as char, 2)) else None
    else if 0xE0 <= lead < 0xF0 && |b| >= 3 && IsContinuation(b[1]) && IsContinuation(b[2]) then
      var n: int := (lead - 0xE0) * 0x1000 + Payload(b[1]) * 0x40 + Payload(b[2]);
      if 0x800 <= n && IsScalar(n) then Some((n as char, 3)) else None
    else if 0xF0 <= lead < 0xF8 && |b| >= 4 && IsContinuation(b[1]) && IsContinuation(b[2]) && IsContinuation(b[3]) then
      var n: int := (lead - 0xF0) * 0x4_0000 + Payload(b[1]) * 0x1000 + Payload(b[2]) * 0x40 + Payload(b[3]);
      if 0x1_0000 <= n && IsScalar(n) then Some((n as char, 4)) else None
    else None
  }

  /** `b.decode(errors="ignore")`: bytes that start no valid sequence are dropped. */
  function DecodeIgnore(b: Bytes): string
    decreases |b|
  {
    if b == [] then ""
    else
      match DecodeFirst(b)
      case Some((c, n)) => [c] + DecodeIgnore(b[n..])
      case None => DecodeIgnore(b[1..])
  }

  /** `b.decode("utf-8")`, with `None` for `UnicodeDecodeError`. */
  function Decode(b: Bytes): Option<string> {
    var s := DecodeIgnore(b);
    if Encode(s) == b then Some(s) else None
  }

  lemma DecodeFirstEncoded(c: char, rest: Bytes)
    ensures DecodeFirst(EncodeChar(c) + rest) == Some((c, |EncodeChar(c)|))
  {
    var n, b := c as int, EncodeChar(c) + rest;
    assert IsScalar(n);
    SixBitDigits(n);
    if n < 0x80 {
      assert b[0] == n;
    } else if n < 0x800 {
      assert b[0] == 0xC0 + n / 0x40 && b[1] == 0x80 + n % 0x40;
    } else if n < 0x1_0000 {
      assert b[0] == 0xE0 + n / 0x1000 && b[1] == 0x80 + n / 0x40 % 0x40 && b[2] == 0x80 + n % 0x40;
    } else {
      assert b[0] == 0xF0 + n / 0x4_0000 && b[1] == 0x80 + n / 0x1000 % 0x40;
      assert b[2] == 0x80 + n / 0x40 % 0x40 && b[3] == 0x80 + n % 0x40;
    }
  }

  /** A code point is rebuilt from its six-bit groups. */
  lemma SixBitDigits(n: nat)
    ensures n == n / 0x40 * 0x40 + n % 0x40
    ensures n == n / 0x1000 * 0x1000 + n / 0x40 % 0x40 * 0x40 + n % 0x40
    ensures n == n / 0x4_0000 * 0x4_0000 + n / 0x1000 % 0x40 * 0x1000 + n / 0x40 % 0x40 * 0x40 + n % 0x40
  {
    assert n / 0x1000 == n / 0x40 / 0x40 && n / 0x4_0000 == n / 0x1000 / 0x40;
  }

  /** A cut inside one encoded character leaves nothing. */
  lemma DecodeCutChar(c: char, k: nat)
    requires k < |EncodeChar(c)|
    ensures DecodeIgnore(EncodeChar(c)[..k]) == ""
  {
    var b := EncodeChar(c)[..k];
    if k >= 1 {
      assert DecodeFirst(b).None?;
      if k >= 2 {
        LoneContinuations(b[1..]);
      }
    }
  }

  lemma {:induction false} LoneContinuations(b: Bytes)
    requires forall i | 0 <= i < |b| :: IsContinuation(b[i])
    ensures DecodeIgnore(b) == ""
  {
    if b != [] {
      assert DecodeFirst(b).None?;
      LoneContinuations(b[1..]);
    }
  }

  /** The longest prefix of `s` whose encoding has at most `limit` bytes. */
  function Fitting(s: string, limit: nat): string {
    if s == "" || |EncodeChar(s[0])| > limit then ""
    else [s[0]] + Fitting(s[1..], limit - |EncodeChar(s[0])|)
  }

  lemma {:induction false} DecodeCut(s: string, k: nat)
    requires k <= |Encode(s)|
    ensures DecodeIgnore(Encode(s)[..k]) == Fitting(s, k)
  {
    if s != "" {
      var first, rest := EncodeChar(s[0]), Encode(s[1..]);
      if |first| > k {
        assert Encode(s)[..k] == first[..k];
        DecodeCutChar(s[0], k);
      } else {
        var b := Encode(s)[..k];
        assert b == first + rest[..k - |first|];
        DecodeFirstEncoded(s[0], rest[..k - |first|]);
        assert b[|first|..] == rest[..k - |first|];
        DecodeCut(s[1..], k - |first|);
      }
    }
  }

  lemma {:induction false} EncodeConcat(a: string, b: string)
    ensures Encode(a + b) == Encode(a) + Encode(b)
  {
    hide EncodeChar;
    if a == "" {
      assert a + b == b;
    } else {
      EncodeConcat(a[1..], b);
      assert (a + b)[1..] == a[1..] + b;
    }
  }

  lemma {:induction false} FittingIsLongest(s: string, limit: nat)
    ensures Fitting(s, limit) <= s && |Encode(Fitting(s, limit))| <= limit
    ensures forall p | p <= s && |Encode(p)| <= limit :: p <= Fitting(s, limit)
    ensures |Encode(s)| <= limit ==> Fitting(s, limit) == s
  {
    var f := Fitting(s, limit);
    if s != "" && |EncodeChar(s[0])| <= limit {
      var left := limit - |EncodeChar(s[0])|;
      FittingIsLongest(s[1..], left);
      assert f[1..] == Fitting(s[1..], left);
      forall p | p <= s && |Encode(p)| <= limit
        ensures p <= f
      {
        if p != "" {
          assert p[0] == s[0] && p[1..] <= s[1..];
          assert Encode(p) == EncodeChar(p[0]) + Encode(p[1..]);
          assert p[1..] <= f[1..];
          assert p == [p[0]] + p[1..] && f == [f[0]] + f[1..];
        }
      }
      if |Encode(s)| <= limit {
        assert s == [s[0]] + s[1..];
      }
    } else if s != "" {
      forall p | p <= s && p != ""
        ensures |Encode(p)| > limit
      {
        assert p[0] == s[0];
      }
    }
  }

  /** Encoding is injective and `Decode` inverts it: `Decode(b)` is `Some(s)` exactly for `b == Encode(s)`. */
  lemma DecodeInvertsEncode(b: Bytes, s: string)
    ensures Decode(b) == Some(s) <==> b == Encode(s)
  {
    if b == Encode(s) {
      assert Encode(s)[..|Encode(s)|] == Encode(s);
      DecodeCut(s, |Encode(s)|);
      FittingIsLongest(s, |Encode(s)|);
    }
  }

  /** The examples of section 7 of RFC 3629, and the ends of the ranges of its section 3. */
  lemma EncodingExamples()
    ensures EncodeChar('A') == [0x41] && EncodeChar('\U{391}') == [0xCE, 0x91] && EncodeChar('\U{2262}') == [0xE2, 0x89, 0xA2]
    ensures EncodeChar('\U{65E5}') == [0xE6, 0x97, 0xA5] && EncodeChar('\U{233B4}') == [0xF0, 0xA3, 0x8E, 0xB4]
    ensures EncodeChar('\U{7F}') == [0x7F] && EncodeChar('\U{80}') == [0xC2, 0x80] && EncodeChar('\U{7FF}') == [0xDF, 0xBF]
    ensures EncodeChar('\U{800}') == [0xE0, 0xA0, 0x80] && EncodeChar('\U{FFFF}') == [0xEF, 0xBF, 0xBF]
    ensures EncodeChar('\U{10000}') == [0xF0, 0x90, 0x80, 0x80] && EncodeChar('\U{10FFFF}') == [0xF4, 0x8F, 0xBF, 0xBF]
  {
  }

  /** `_truncate_utf8`: the longest prefix that fits, whatever character the cut falls into. */
  function Truncate(value: string, maxBytes: nat): (text: string)
    ensures text <= value && |Encode(text)| <= maxBytes
    ensures forall p | p <= value && |Encode(p)| <= maxBytes :: p <= text
  {
    var encoded := Encode(value);
    FittingIsLongest(value, maxBytes);
    if |encoded| <= maxBytes then value
    else
      DecodeCut(value, maxBytes);
      DecodeIgnore(encoded[..maxBytes])
  }

  /** Cutting anything between the cut text and the whole text gives the same cut text. */
  lemma TruncateBetween(full: string, middle: string, maxBytes: nat)
    requires Truncate(full, maxBytes) <= middle <= full
    ensures Truncate(middle, maxBytes) == Truncate(full, maxBytes)
  {
    var outer, inner := Truncate(full, maxBytes), Truncate(middle, maxBytes);
    assert outer <= inner;
    assert inner <= full;
    assert inner <= outer;
  }
}
