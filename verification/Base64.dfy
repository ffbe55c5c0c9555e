/** Base64 as in util-src/encodings.c (section 4 of RFC 4648). */
module Base64 {
  import opened Wrappers
  import opened ByteStrings

  type Digit = d: int | 0 <= d < 64

  const PAD: Byte := '=' as int

  /** The alphabet: A-Z, a-z, 0-9, + and /. */
  function Code(d: Digit): Byte {
    if d < 26 then 'A' as int + d
    else if d < 52 then 'a' as int + (d - 26)
    else if d < 62 then '0' as int + (d - 52)
    else if d == 62 then '+' as int
    else '/' as int
  }

  /** strchr in the alphabet */
  function Index(c: Byte): Option<Digit> {
    if 'A' as int <= c <= 'Z' as int then Some(c - 'A' as int)
    else if 'a' as int <= c <= 'z' as int then Some(c - 'a' as int + 26)
    else if '0' as int <= c <= '9' as int then Some(c - '0' as int + 52)
    else if c == '+' as int then Some(62)
    else if c == '/' as int then Some(63)
    else None
  }

  const UPPER := "ABCDEFGHIJKLMNOPQRSTUVWXYZ"
  const LOWER := "abcdefghijklmnopqrstuvwxyz"
  const DIGITS := "0123456789+/"

  /** The digits are those of table 1 of RFC 4648, in its order. */
  lemma CodeIsAlphabet(d: Digit)
    ensures |UPPER| == 26 && |LOWER| == 26 && |DIGITS| == 12
    ensures Code(d) == (if d < 26 then UPPER[d] else if d < 52 then LOWER[d - 26] else DIGITS[d - 52]) as int
  {
  }

  /** A character is read as the place it has there, if any. */
  lemma IndexIsPlace(c: Byte)
    ensures Index(c).Some? ==> Code(Index(c).value) == c
    ensures Index(c).None? ==> forall d: Digit :: Code(d) != c
  {
  }

  /** Skipped between digits: newline, carriage return, tab, space, form feed, backspace. */
  predicate IsSpace(c: Byte) {
    c == 10 || c == 13 || c == 9 || c == 32 || c == 12 || c == 8
  }

  /** Every digit can be read back, and no digit is skipped or ends the input. */
  lemma CodeIsInvertible(d: Digit)
    ensures Index(Code(d)) == Some(d) && !IsSpace(Code(d)) && Code(d) != PAD && Code(d) != 0
  {
  }

  /** Exactly six characters are skipped. */
  lemma SkippedCharacters(c: Byte)
    ensures IsSpace(c) <==> c in {'\n' as int, '\r' as int, '\t' as int, ' ' as int, 0x0C, 0x08}
  {
  }

  // ---- What the encoder produces ----

  /** Three bytes as a 24-bit number. */
  function Tuple(c1: int, c2: int, c3: int): int {
    c3 + 256 * (c2 + 256 * c1)
  }

  /** A number without its `k` lowest base-64 digits. */
  function Shifted(t: int, k: nat): int {
    if k == 0 then t else Shifted(t, k - 1) / 64
  }

  /** The i-th of the four base-64 digits of a 24-bit number, the highest first. */
  function DigitOf(t: int, i: nat): Digit
    requires i < 4
  {
    Shifted(t, 3 - i) % 64
  }

  /** Three bytes as four digits, the last `3 - n` of them replaced by padding. */
  function Block(c1: Byte, c2: Byte, c3: Byte, n: nat): (r: Bytes)
    requires 1 <= n <= 3
    ensures |r| == 4
  {
    var t := Tuple(c1, c2, c3);
    [ Code(DigitOf(t, 0)),
      Code(DigitOf(t, 1)),
      if n >= 2 then Code(DigitOf(t, 2)) else PAD,
      if n >= 3 then Code(DigitOf(t, 3)) else PAD ]
  }

  function Encoded(s: Bytes): Bytes {
    if |s| == 0 then []
    else if |s| == 1 then Block(s[0], 0, 0, 1)
    else if |s| == 2 then Block(s[0], s[1], 0, 2)
    else Block(s[0], s[1], s[2], 3) + Encoded(s[3..])
  }

  // ---- What the decoder makes of its input ----

  /** Four digits as a 24-bit number. */
  function Quad(d1: int, d2: int, d3: int, d4: int): int {
    d4 + 64 * (d3 + 64 * (d2 + 64 * d1))
  }

  /** The first `|t| - 1` bytes of the 24 bits that up to four digits stand for. */
  function Bits(t: seq<Digit>): (r: Bytes)
    requires 1 <= |t| <= 4
    ensures |r| == |t| - 1
  {
    var v := Quad(t[0], if |t| >= 2 then t[1] else 0, if |t| >= 3 then t[2] else 0, if |t| == 4 then t[3] else 0);
    [v / 65536 % 256, v / 256 % 256, v % 256][..|t| - 1]
  }

  /** Digits are collected four at a time; padding flushes what there is, a NUL byte or the end of the
      input drops it. Anything else fails. */
  function Decoded(s: Bytes, t: seq<Digit>): Option<Bytes>
    requires |t| < 4
    decreases s
  {
    if s == [] || s[0] == 0 then Some([])
    else if IsSpace(s[0]) then Decoded(s[1..], t)
    else if s[0] == PAD then Prepend(if t == [] then [] else Bits(t), Decoded(s[1..], []))
    else
      var d := Index(s[0]);
      if d.None? then None
      else if |t| == 3 then Prepend(Bits(t + [d.value]), Decoded(s[1..], []))
      else Decoded(s[1..], t + [d.value])
  }

  function Prepend(a: Bytes, r: Option<Bytes>): Option<Bytes> {
    if r.None? then None else Some(a + r.value)
  }

  // ---- Round trip ----

  lemma DecodeDigit(d: Digit, w: Bytes, t: seq<Digit>)
    requires |t| < 4
    ensures Decoded([Code(d)] + w, t) ==
      if |t| == 3 then Prepend(Bits(t + [d]), Decoded(w, [])) else Decoded(w, t + [d])
  {
    CodeIsInvertible(d);
  }

  lemma DecodePad(w: Bytes, t: seq<Digit>)
    requires |t| < 4
    ensures Decoded([PAD] + w, t) == Prepend(if t == [] then [] else Bits(t), Decoded(w, []))
  {
  }

  /** A 24-bit number is made of its digits. */
  lemma QuadOfDigits(t: int)
    requires 0 <= t < 16777216
    ensures Quad(DigitOf(t, 0), DigitOf(t, 1), DigitOf(t, 2), DigitOf(t, 3)) == t
  {
  }

  /** The bytes of a 24-bit number made of three bytes are those bytes. */
  lemma BytesOfTuple(c1: Byte, c2: Byte, c3: Byte)
    ensures var t := Tuple(c1, c2, c3);
      0 <= t < 16777216 && t / 65536 % 256 == c1 && t / 256 % 256 == c2 && t % 256 == c3
  {
  }

  /** Low digits of numbers whose low bytes are zero. */
  lemma LowDigits(c1: Byte, c2: Byte, c3: Byte)
    ensures c3 == 0 ==> DigitOf(Tuple(c1, c2, c3), 3) == 0
    ensures c2 == 0 && c3 == 0 ==> DigitOf(Tuple(c1, c2, c3), 2) == 0
  {
  }

  /** The digits of three bytes, and what they stand for. */
  lemma BlockDigits(c1: Byte, c2: Byte, c3: Byte, n: nat) returns (d1: Digit, d2: Digit, d3: Digit, d4: Digit)
    requires 1 <= n <= 3
    ensures Quad(d1, d2, d3, d4) == Tuple(c1, c2, c3)
    ensures Block(c1, c2, c3, n) == [Code(d1), Code(d2), if n >= 2 then Code(d3) else PAD, if n >= 3 then Code(d4) else PAD]
    ensures c3 == 0 ==> d4 == 0
    ensures c2 == 0 && c3 == 0 ==> d3 == 0
  {
    var t := Tuple(c1, c2, c3);
    d1, d2, d3, d4 := DigitOf(t, 0), DigitOf(t, 1), DigitOf(t, 2), DigitOf(t, 3);
    BytesOfTuple(c1, c2, c3);
    QuadOfDigits(t);
    LowDigits(c1, c2, c3);
  }

  /** Digits that make up the number of three bytes stand for those bytes. */
  lemma BitsOfQuad(c1: Byte, c2: Byte, c3: Byte, d1: Digit, d2: Digit, d3: Digit, d4: Digit)
    requires Quad(d1, d2, d3, d4) == Tuple(c1, c2, c3)
    ensures Bits([d1, d2, d3, d4]) == [c1, c2, c3]
    ensures d4 == 0 ==> Bits([d1, d2, d3]) == [c1, c2]
    ensures d3 == 0 && d4 == 0 ==> Bits([d1, d2]) == [c1]
  {
    BytesOfTuple(c1, c2, c3);
  }

  /** Fewer than four digits stand for their whole bytes, and the bits left over are dropped. */
  lemma BitsOfFew(d1: Digit, d2: Digit, d3: Digit)
    ensures Bits([d1]) == []
    ensures Bits([d1, d2]) == [4 * d1 + d2 / 16]
    ensures Bits([d1, d2, d3]) == [4 * d1 + d2 / 16, d2 % 16 * 16 + d3 / 4]
  {
    var q, r, t, u := d2 / 16, d2 % 16, d3 / 4, d3 % 4;
    var a := 4 * d1 + q;
    assert Quad(d1, d2, d3, 0) == Tuple(a, r * 16 + t, u * 64);
    BitsOfQuad(a, r * 16 + t, u * 64, d1, d2, d3, 0);
    assert Quad(d1, d2, 0, 0) == Tuple(a, r * 16, 0);
    BitsOfQuad(a, r * 16, 0, d1, d2, 0, 0);
  }

  lemma PrependTwice(a: Bytes, b: Bytes, r: Option<Bytes>)
    ensures Prepend(a, Prepend(b, r)) == Prepend(a + b, r)
  {
    if r.Some? {
      assert a + (b + r.value) == a + b + r.value;
    }
  }

  lemma PrependNothing(r: Option<Bytes>)
    ensures Prepend([], r) == r
  {
    if r.Some? {
      assert [] + r.value == r.value;
    }
  }

  lemma DecodeTwo(d1: Digit, d2: Digit, w: Bytes)
    ensures Decoded([Code(d1), Code(d2)] + w, []) == Decoded(w, [d1, d2])
  {
    assert [Code(d1), Code(d2)] + w == [Code(d1)] + ([Code(d2)] + w);
    DecodeDigit(d1, [Code(d2)] + w, []);
    assert [] + [d1] == [d1] && [d1] + [d2] == [d1, d2];
    DecodeDigit(d2, w, [d1]);
  }

  lemma DecodeOneByte(d1: Digit, d2: Digit, w: Bytes)
    ensures Decoded([Code(d1), Code(d2), PAD, PAD] + w, []) == Prepend(Bits([d1, d2]), Decoded(w, []))
  {
    assert [Code(d1), Code(d2), PAD, PAD] + w == [Code(d1), Code(d2)] + ([PAD] + ([PAD] + w));
    DecodeTwo(d1, d2, [PAD] + ([PAD] + w));
    DecodePad([PAD] + w, [d1, d2]);
    DecodePad(w, []);
    PrependNothing(Decoded(w, []));
  }

  lemma DecodeTwoBytes(d1: Digit, d2: Digit, d3: Digit, w: Bytes)
    ensures Decoded([Code(d1), Code(d2), Code(d3), PAD] + w, []) == Prepend(Bits([d1, d2, d3]), Decoded(w, []))
  {
    assert [Code(d1), Code(d2), Code(d3), PAD] + w == [Code(d1), Code(d2)] + ([Code(d3)] + ([PAD] + w));
    DecodeTwo(d1, d2, [Code(d3)] + ([PAD] + w));
    DecodeDigit(d3, [PAD] + w, [d1, d2]);
    assert [d1, d2] + [d3] == [d1, d2, d3];
    DecodePad(w, [d1, d2, d3]);
  }

  lemma DecodeThreeBytes(d1: Digit, d2: Digit, d3: Digit, d4: Digit, w: Bytes)
    ensures Decoded([Code(d1), Code(d2), Code(d3), Code(d4)] + w, []) == Prepend(Bits([d1, d2, d3, d4]), Decoded(w, []))
  {
    assert [Code(d1), Code(d2), Code(d3), Code(d4)] + w == [Code(d1), Code(d2)] + ([Code(d3)] + ([Code(d4)] + w));
    DecodeTwo(d1, d2, [Code(d3)] + ([Code(d4)] + w));
    DecodeDigit(d3, [Code(d4)] + w, [d1, d2]);
    assert [d1, d2] + [d3] == [d1, d2, d3] && [d1, d2, d3] + [d4] == [d1, d2, d3, d4];
    DecodeDigit(d4, w, [d1, d2, d3]);
  }

  lemma DigitsDecode(d1: Digit, d2: Digit, d3: Digit, d4: Digit, n: nat, b: Bytes, w: Bytes)
    requires 1 <= n <= 3
    requires b == [Code(d1), Code(d2), if n >= 2 then Code(d3) else PAD, if n >= 3 then Code(d4) else PAD]
    ensures Decoded(b + w, []) ==
      Prepend(if n == 1 then Bits([d1, d2]) else if n == 2 then Bits([d1, d2, d3]) else Bits([d1, d2, d3, d4]), Decoded(w, []))
  {
    if n == 1 {
      DecodeOneByte(d1, d2, w);
    } else if n == 2 {
      DecodeTwoBytes(d1, d2, d3, w);
    } else {
      DecodeThreeBytes(d1, d2, d3, d4, w);
    }
  }

  /** A block decodes to the bytes it was made of, whatever follows it. */
  lemma BlockDecodes(c1: Byte, c2: Byte, c3: Byte, n: nat, w: Bytes)
    requires 1 <= n <= 3 && (n < 3 ==> c3 == 0) && (n < 2 ==> c2 == 0)
    ensures Decoded(Block(c1, c2, c3, n) + w, []) == Prepend([c1, c2, c3][..n], Decoded(w, []))
  {
    var d1, d2, d3, d4 := BlockDigits(c1, c2, c3, n);
    BitsOfQuad(c1, c2, c3, d1, d2, d3, d4);
    DigitsDecode(d1, d2, d3, d4, n, Block(c1, c2, c3, n), w);
    assert [c1, c2, c3][..n] == if n == 1 then [c1] else if n == 2 then [c1, c2] else [c1, c2, c3];
  }

  /** A full block before what decodes to `rest`. */
  lemma BlockThen(c1: Byte, c2: Byte, c3: Byte, v: Bytes, rest: Bytes, r: Option<Bytes>)
    requires Decoded(v, []) == Prepend(rest, r)
    ensures Decoded(Block(c1, c2, c3, 3) + v, []) == Prepend([c1, c2, c3] + rest, r)
  {
    BlockDecodes(c1, c2, c3, 3, v);
    assert [c1, c2, c3][..3] == [c1, c2, c3];
    PrependTwice([c1, c2, c3], rest, r);
  }

  lemma EncodedThree(s: Bytes, w: Bytes)
    requires |s| >= 3
    ensures Encoded(s) + w == Block(s[0], s[1], s[2], 3) + (Encoded(s[3..]) + w)
  {
    assert Encoded(s) == Block(s[0], s[1], s[2], 3) + Encoded(s[3..]);
    Associative(Block(s[0], s[1], s[2], 3), Encoded(s[3..]), w);
  }

  lemma Associative(a: Bytes, b: Bytes, c: Bytes)
    ensures (a + b) + c == a + (b + c)
  {
  }

  /** Encoded bytes decode to themselves, and decoding goes on with what follows. */
  lemma {:induction false} EncodedDecodes(s: Bytes, w: Bytes)
    ensures Decoded(Encoded(s) + w, []) == Prepend(s, Decoded(w, []))
  {
    if |s| == 0 {
      assert Encoded(s) + w == w;
      PrependNothing(Decoded(w, []));
    } else if |s| == 1 {
      BlockDecodes(s[0], 0, 0, 1, w);
      assert [s[0], 0, 0][..1] == s;
    } else if |s| == 2 {
      BlockDecodes(s[0], s[1], 0, 2, w);
      assert [s[0], s[1], 0][..2] == s;
    } else {
      EncodedThree(s, w);
      assert [s[0], s[1], s[2]] + s[3..] == s;
      EncodedDecodes(s[3..], w);
      BlockThen(s[0], s[1], s[2], Encoded(s[3..]) + w, s[3..], Decoded(w, []));
    }
  }

  /** The input without the characters that are skipped. */
  function Compact(w: Bytes): Bytes {
    if w == [] then [] else (if IsSpace(w[0]) then [] else [w[0]]) + Compact(w[1..])
  }

  lemma {:induction false} SpacesAreSkipped(w: Bytes, t: seq<Digit>)
    requires |t| < 4
    ensures Decoded(w, t) == Decoded(Compact(w), t)
    decreases w
  {
    if w != [] {
      if IsSpace(w[0]) {
        assert Compact(w) == Compact(w[1..]);
        SpacesAreSkipped(w[1..], t);
      } else {
        assert Compact(w)[1..] == Compact(w[1..]);
        SpacesAreSkipped(w[1..], []);
        if w[0] != 0 && w[0] != PAD && Index(w[0]).Some? && |t| < 3 {
          SpacesAreSkipped(w[1..], t + [Index(w[0]).value]);
        }
      }
    }
  }

  /** Decoding undoes encoding for all byte strings, also for encodings that follow each other
      and with skipped characters anywhere in between. */
  lemma RoundTrip(a: Bytes, b: Bytes, w: Bytes)
    requires Compact(w) == Encoded(a) + Encoded(b)
    ensures Decoded(w, []) == Some(a + b)
  {
    SpacesAreSkipped(w, []);
    EncodedDecodes(a, Encoded(b));
    assert Encoded(b) + [] == Encoded(b);
    EncodedDecodes(b, []);
    PrependTwice(a, b, Some([]));
    assert a + b + [] == a + b;
  }

  // ---- The programs ----

  /** base64_encode */
  method EncodeBlock(c1: Byte, c2: Byte, c3: Byte, n: nat) returns (b: Bytes)
    requires 1 <= n <= 3
    ensures b == Block(c1, c2, c3, n)
  {
    var tuple := c3 + 256 * (c2 + 256 * c1 as int);
    ghost var t := tuple;
    assert t == Tuple(c1, c2, c3);
    var s := new Byte[4](_ => 0);
    for i := 0 to 4
      invariant tuple == Shifted(t, i)
      invariant forall k :: 4 - i <= k < 4 ==> s[k] == Code(DigitOf(t, k))
    {
      s[3 - i] := Code(tuple % 64);
      tuple := tuple / 64;
    }
    for i := n + 1 to 4
      invariant forall k :: 0 <= k < 4 ==> s[k] == if n + 1 <= k < i then PAD else Code(DigitOf(t, k))
    {
      s[i] := PAD;
    }
    b := s[..];
  }

  /** encode */
  method Encode(s: Bytes) returns (out: Bytes)
    ensures out == Encoded(s)
  {
    out := [];
    var i := 0;
    while i + 3 <= |s|
      invariant 0 <= i <= |s|
      invariant Encoded(s) == out + Encoded(s[i..])
    {
      var b := EncodeBlock(s[i], s[i + 1], s[i + 2], 3);
      assert s[i..][3..] == s[i + 3..];
      out := out + b;
      i := i + 3;
    }
    if |s| - i == 1 {
      var b := EncodeBlock(s[i], 0, 0, 1);
      out := out + b;
    } else if |s| - i == 2 {
      var b := EncodeBlock(s[i], s[i + 1], 0, 2);
      out := out + b;
    }
  }

  /** decode */
  method Decode(s: Bytes) returns (result: Option<Bytes>)
    ensures result == Decoded(s, [])
  {
    var out: Bytes, t: seq<Digit>, i := [], [], 0;
    PrependNothing(Decoded(s, []));
    assert s[0..] == s;
    while i < |s| && s[i] != 0
      invariant 0 <= i <= |s| && |t| < 4
      invariant Decoded(s, []) == Prepend(out, Decoded(s[i..], t))
    {
      var c := s[i];
      assert s[i..][1..] == s[i + 1..];
      if c == PAD {
        var bits := if t == [] then [] else Bits(t);
        PrependTwice(out, bits, Decoded(s[i + 1..], []));
        out, t := out + bits, [];
      } else if !IsSpace(c) {
        var d := Index(c);
        if d.None? {
          return None;
        }
        t := t + [d.value];
        if |t| == 4 {
          PrependTwice(out, Bits(t), Decoded(s[i + 1..], []));
          out, t := out + Bits(t), [];
        }
      }
      i := i + 1;
    }
    assert out + [] == out;
    result := Some(out);
  }
}
