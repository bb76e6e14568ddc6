/** UTF-8 as Foundation uses it: the byte width of a Unicode scalar, the encoder
    behind `String.utf8`, and the validating decoder behind
    `String(data:encoding: .utf8)` / `String(_: Substring.UTF8View)`.
    Dafny's `char` is a Unicode scalar value, so a `string` is a sequence of scalars. */
module Utf8 {
  import opened Wrappers

  type Byte = b: int | 0 <= b < 256

  /** Number of UTF-8 bytes used by one scalar. */
  function Width(c: char): (w: nat)
    ensures 1 <= w <= 4
  {
    var cp := c as int;
    if cp < 0x80 then 1 else if cp < 0x800 then 2 else if cp < 0x1_0000 then 3 else 4
  }

  /** Number of UTF-8 bytes of a whole string (`s.utf8.count`). */
  function Length(s: string): nat
  {
    if |s| == 0 then 0 else Width(s[0]) + Length(s[1..])
  }

  predicate IsContinuation(b: Byte)
  {
    0x80 <= b < 0xC0
  }

  function EncodeScalar(c: char): (bs: seq<Byte>)
    ensures |bs| == Width(c)
  {
    var cp := c as int;
    if cp < 0x80 then [cp]
    else if cp < 0x800 then [0xC0 + cp / 64, 0x80 + cp % 64]
    else if cp < 0x1_0000 then [0xE0 + cp / 64 / 64, 0x80 + cp / 64 % 64, 0x80 + cp % 64]
    else [0xF0 + cp / 64 / 64 / 64, 0x80 + cp / 64 / 64 % 64, 0x80 + cp / 64 % 64, 0x80 + cp % 64]
  }

  /** The UTF-8 encoding of a string, scalar by scalar. */
  function Encode(s: string): (bs: seq<Byte>)
    ensures |bs| == Length(s)
  {
    if |s| == 0 then [] else EncodeScalar(s[0]) + Encode(s[1..])
  }

  predicate IsScalarValue(cp: int)
  {
    (0 <= cp < 0xD800) || (0xE000 <= cp < 0x11_0000)
  }

  /** The byte at index i as an integer, or 0 past the end. */
  function ByteAt(bs: seq<Byte>, i: nat): int
  {
    if i < |bs| then bs[i] as int else 0
  }

  /** Decodes the first scalar of a non-empty byte sequence: the scalar and the
      number of bytes it used, or None when the bytes are not well-formed UTF-8
      (bad lead byte, missing or bad continuation byte, overlong form, surrogate,
      or a value beyond U+10FFFF). */
  function DecodeScalar(bs: seq<Byte>): (r: Option<(char, nat)>)
    requires |bs| > 0
    ensures r.Some? ==> 1 <= r.value.1 <= |bs| && r.value.1 == Width(r.value.0)
  {
    var b0, b1, b2, b3 := bs[0] as int, ByteAt(bs, 1), ByteAt(bs, 2), ByteAt(bs, 3);
    if b0 < 0x80 then Some((b0 as char, 1))
    else if 0xC0 <= b0 < 0xE0 then
      if |bs| < 2 || !IsContinuation(bs[1]) then None
      else
        var cp := (b0 - 0xC0) * 64 + (b1 - 0x80);
        if cp < 0x80 then None else Some((cp as char, 2))
    else if 0xE0 <= b0 < 0xF0 then
      if |bs| < 3 || !IsContinuation(bs[1]) || !IsContinuation(bs[2]) then None
      else
        var cp := ((b0 - 0xE0) * 64 + (b1 - 0x80)) * 64 + (b2 - 0x80);
        if cp < 0x800 || !IsScalarValue(cp) then None else Some((cp as char, 3))
    else if 0xF0 <= b0 < 0xF8 then
      if |bs| < 4 || !IsContinuation(bs[1]) || !IsContinuation(bs[2]) || !IsContinuation(bs[3]) then None
      else
        var cp := (((b0 - 0xF0) * 64 + (b1 - 0x80)) * 64 + (b2 - 0x80)) * 64 + (b3 - 0x80);
        if cp < 0x1_0000 || !IsScalarValue(cp) then None else Some((cp as char, 4))
    else None
  }

  /** Validating decoder: the string whose encoding is `bs`, or None. */
  function Decode(bs: seq<Byte>): (r: Option<string>)
    ensures r.Some? ==> Length(r.value) == |bs|
    decreases |bs|
  {
    if |bs| == 0 then Some("")
    else match DecodeScalar(bs)
      case None => None
      case Some((c, n)) =>
        match Decode(bs[n..])
        case None => None
        case Some(rest) => Some([c] + rest)
  }

  lemma DecodeScalarOfEncoding(c: char, rest: seq<Byte>)
    ensures DecodeScalar(EncodeScalar(c) + rest) == Some((c, Width(c)))
  {
    var cp := c as int;
    var bs := EncodeScalar(c) + rest;
    if cp < 0x80 {
    } else if cp < 0x800 {
      assert cp == (cp / 64) * 64 + cp % 64;
    } else if cp < 0x1_0000 {
      var q1 := cp / 64;
      assert cp == q1 * 64 + cp % 64;
      assert q1 == (q1 / 64) * 64 + q1 % 64;
      assert bs[0] - 0xE0 == q1 / 64;
    } else {
      var q1 := cp / 64;
      var q2 := q1 / 64;
      assert cp == q1 * 64 + cp % 64;
      assert q1 == q2 * 64 + q1 % 64;
      assert q2 == (q2 / 64) * 64 + q2 % 64;
      assert bs[0] - 0xF0 == q2 / 64;
    }
  }

  /** Decoding inverts encoding: every string survives a UTF-8 round trip. */
  lemma {:induction false} DecodeEncode(s: string)
    ensures Decode(Encode(s)) == Some(s)
  {
    if |s| > 0 {
      var tail := Encode(s[1..]);
      DecodeScalarOfEncoding(s[0], tail);
      assert (EncodeScalar(s[0]) + tail)[Width(s[0])..] == tail;
      DecodeEncode(s[1..]);
      assert [s[0]] + s[1..] == s;
    }
  }

  /** Encoding is injective, so equal bytes mean equal strings. */
  lemma EncodeInjective(s: string, t: string)
    requires Encode(s) == Encode(t)
    ensures s == t
  {
    DecodeEncode(s);
    DecodeEncode(t);
  }

  lemma {:induction false} LengthAppend(a: string, b: string)
    ensures Length(a + b) == Length(a) + Length(b)
  {
    if |a| > 0 {
      assert (a + b)[0] == a[0];
      assert (a + b)[1..] == a[1..] + b;
      LengthAppend(a[1..], b);
    } else {
      assert a + b == b;
    }
  }

  lemma {:induction false} EncodeAppend(a: string, b: string)
    ensures Encode(a + b) == Encode(a) + Encode(b)
  {
    if |a| > 0 {
      assert (a + b)[0] == a[0];
      assert (a + b)[1..] == a[1..] + b;
      EncodeAppend(a[1..], b);
    } else {
      assert a + b == b;
    }
  }

  /** The byte length of a scalar prefix grows by the width of the next scalar. */
  lemma LengthOfLongerPrefix(s: string, k: nat)
    requires k < |s|
    ensures Length(s[..k + 1]) == Length(s[..k]) + Width(s[k])
  {
    assert s[..k + 1] == s[..k] + [s[k]];
    LengthAppend(s[..k], [s[k]]);
  }

  /** Longer scalar prefixes have strictly more bytes. */
  lemma {:induction false} LengthOfPrefixesIncreases(s: string, j: nat, k: nat)
    requires j < k <= |s|
    ensures Length(s[..j]) < Length(s[..k])
    decreases k - j
  {
    LengthOfLongerPrefix(s, j);
    if j + 1 < k {
      LengthOfPrefixesIncreases(s, j + 1, k);
    }
  }

  /** The bytes of a scalar prefix are a prefix of the bytes of the string. */
  lemma EncodeOfPrefix(s: string, k: nat)
    requires k <= |s|
    ensures Length(s[..k]) <= Length(s)
    ensures Encode(s)[..Length(s[..k])] == Encode(s[..k])
  {
    assert s == s[..k] + s[k..];
    LengthAppend(s[..k], s[k..]);
    EncodeAppend(s[..k], s[k..]);
  }

  /** A byte prefix that cuts the string at a scalar boundary decodes to that
      scalar prefix. */
  lemma DecodeBoundaryPrefix(s: string, k: nat)
    requires k <= |s|
    ensures Length(s[..k]) <= Length(s)
    ensures Decode(Encode(s)[..Length(s[..k])]) == Some(s[..k])
  {
    EncodeOfPrefix(s, k);
    DecodeEncode(s[..k]);
  }

  /** A byte prefix that ends inside the encoding of some scalar is not valid UTF-8. */
  lemma {:induction false} DecodeCutPrefix(s: string, m: nat)
    requires m <= Length(s)
    requires forall k :: 0 <= k <= |s| ==> Length(s[..k]) != m
    ensures Decode(Encode(s)[..m]) == None
    decreases |s|
  {
    assert Length(s[..0]) == 0;
    assert s[..|s|] == s;
    var w := Width(s[0]);
    var head := EncodeScalar(s[0]);
    var tail := Encode(s[1..]);
    assert Encode(s) == head + tail;
    var bs := Encode(s)[..m];
    if m < w {
      // the lead byte announces w bytes but only m < w are present
      assert bs == head[..m];
      assert DecodeScalar(bs) == None;
    } else {
      assert bs == head + tail[..m - w];
      DecodeScalarOfEncoding(s[0], tail[..m - w]);
      assert bs[w..] == tail[..m - w];
      forall k | 0 <= k <= |s[1..]|
        ensures Length(s[1..][..k]) != m - w
      {
        assert s[..k + 1] == [s[0]] + s[1..][..k];
        LengthAppend([s[0]], s[1..][..k]);
        assert Length([s[0]]) == w;
      }
      DecodeCutPrefix(s[1..], m - w);
    }
  }
}
