/** UTF-8 validation (util-src/encodings.c, section 4 of RFC 3629).

    A string of `n` bytes is followed by a NUL byte at position `n`, which may be read; no later
    position may.
 */
module Utf8 {
  import opened Wrappers
  import opened ByteStrings

  /** The byte at a position, the terminator included. */
  function At(s: Bytes, i: nat): Byte
    requires i <= |s|
  {
    if i < |s| then s[i] else 0
  }

  // ---- The grammar of section 4 of RFC 3629 ----

  predicate Tail(b: Byte) {
    0x80 <= b <= 0xBF
  }

  /** The byte sequences of one character. */
  predicate IsCharacter(b: Bytes) {
    match |b|
    case 1 => b[0] <= 0x7F
    case 2 => 0xC2 <= b[0] <= 0xDF && Tail(b[1])
    case 3 =>
      && Tail(b[2])
      && (|| (b[0] == 0xE0 && 0xA0 <= b[1] <= 0xBF)
          || (0xE1 <= b[0] <= 0xEC && Tail(b[1]))
          || (b[0] == 0xED && 0x80 <= b[1] <= 0x9F)
          || (0xEE <= b[0] <= 0xEF && Tail(b[1])))
    case 4 =>
      && Tail(b[2]) && Tail(b[3])
      && (|| (b[0] == 0xF0 && 0x90 <= b[1] <= 0xBF)
          || (0xF1 <= b[0] <= 0xF3 && Tail(b[1]))
          || (b[0] == 0xF4 && 0x80 <= b[1] <= 0x8F))
    case _ => false
  }

  /** One more continuation byte adds six bits. */
  function Next(high: int, tail: int): int {
    high * 0x40 + (tail - 0x80)
  }

  /** The code point of a character, by the table of section 3 of RFC 3629. */
  function CodePoint(b: Bytes): int
    requires IsCharacter(b)
  {
    match |b|
    case 1 => b[0]
    case 2 => Next(b[0] - 0xC0, b[1])
    case 3 => Next(Next(b[0] - 0xE0, b[1]), b[2])
    case _ => Next(Next(Next(b[0] - 0xF0, b[1]), b[2]), b[3])
  }

  /** The `n` bytes at `pos` are one character. */
  predicate CharacterAt(s: Bytes, pos: nat, n: nat) {
    pos + n <= |s| && IsCharacter(s[pos..pos + n])
  }

  ghost predicate NoCharacter(s: Bytes, pos: nat) {
    forall n: nat :: !CharacterAt(s, pos, n)
  }

  /** A text is a sequence of characters. */
  ghost predicate IsText(s: Bytes) {
    s == [] || exists n: nat :: 1 <= n && CharacterAt(s, 0, n) && IsText(s[n..])
  }

  /** The Unicode scalar values. */
  predicate IsScalar(v: int) {
    0 <= v <= 0x10FFFF && !(0xD800 <= v <= 0xDFFF)
  }

  /** The encoder of section 3 of RFC 3629. */
  function CharacterOf(v: int): Bytes
    requires IsScalar(v)
  {
    if v <= 0x7F then [v]
    else if v <= 0x7FF then [0xC0 + v / 0x40, 0x80 + v % 0x40]
    else if v <= 0xFFFF then [0xE0 + v / 0x1000, 0x80 + v / 0x40 % 0x40, 0x80 + v % 0x40]
    else [0xF0 + v / 0x40000, 0x80 + v / 0x1000 % 0x40, 0x80 + v / 0x40 % 0x40, 0x80 + v % 0x40]
  }

  /** The grammar holds one sequence for each scalar value, the one that the encoder makes. */
  lemma ScalarRoundTrip(v: int)
    requires IsScalar(v)
    ensures IsCharacter(CharacterOf(v)) && CodePoint(CharacterOf(v)) == v
  {
    var b := CharacterOf(v);
    assert |b| == 3 ==> v / 0x40 / 0x40 == v / 0x1000;
    assert |b| == 4 ==> v / 0x40 / 0x40 == v / 0x1000 && v / 0x1000 / 0x40 == v / 0x40000;
  }

  lemma NextParts(high: int, tail: Byte)
    requires Tail(tail)
    ensures Next(high, tail) / 0x40 == high && 0x80 + Next(high, tail) % 0x40 == tail
  {
  }

  /** The four bytes of a value with more than 16 bits. */
  lemma FourBytes(b: Bytes)
    requires |b| == 4 && IsCharacter(b)
    ensures 0xFFFF < CodePoint(b) <= 0x10FFFF && CharacterOf(CodePoint(b)) == b
  {
    var v1: int := Next(b[0] - 0xF0, b[1]);
    var v2 := Next(v1, b[2]);
    NextParts(b[0] - 0xF0, b[1]);
    NextParts(v1, b[2]);
    NextParts(v2, b[3]);
    var v := CodePoint(b);
    assert v / 0x1000 == v1 && v / 0x40000 == v1 / 0x40;
  }

  /** And no other sequence. */
  lemma CharacterRoundTrip(b: Bytes)
    requires IsCharacter(b)
    ensures IsScalar(CodePoint(b)) && CharacterOf(CodePoint(b)) == b
  {
    if |b| == 3 {
      var v1: int := Next(b[0] - 0xE0, b[1]);
      NextParts(b[0] - 0xE0, b[1]);
      NextParts(v1, b[2]);
      assert CodePoint(b) / 0x1000 == v1 / 0x40;
    } else if |b| == 4 {
      FourBytes(b);
    }
  }

  // ---- The decoder ----

  /** The least lead byte whose `k + 1` highest bits are ones. */
  function Lead(k: nat): int {
    if k == 0 then 0x80 else if k == 1 then 0xC0 else if k == 2 then 0xE0 else if k == 3 then 0xF0
    else if k == 4 then 0xF8 else if k == 5 then 0xFC else if k == 6 then 0xFE else if k == 7 then 0xFF else 0x100
  }

  /** Shifting a lead byte left brings its next length bit to position 6. */
  lemma LengthBit(b: Byte, k: nat)
    requires k <= 7 && b >= Lead(k)
    ensures (b * Power(k)) / 0x40 % 2 == 1 <==> k < 7 && b >= Lead(k + 1)
  {
    assert Power(0) == 1 && Power(1) == 2 && Power(2) == 4 && Power(3) == 8;
    assert Power(4) == 16 && Power(5) == 32 && Power(6) == 64 && Power(7) == 128;
  }

  /** What is left of a lead byte when its length bits are gone. */
  lemma LeadBits(b: Byte, k: nat)
    requires k <= 3 && Lead(k) <= b < Lead(k + 1)
    ensures (b * Power(k)) % 0x80 == (b - Lead(k)) * Power(k)
  {
  }

  /** The lead byte fixes the length, so no character is the beginning of another. */
  lemma CharacterUnique(s: Bytes, m: nat, n: nat)
    requires CharacterAt(s, 0, m) && CharacterAt(s, 0, n)
    ensures m == n
  {
  }

  const MAX_UNICODE := 0x10FFFF

  /** The largest value that a shorter sequence could hold. */
  function Limit(count: nat): int {
    if count == 0 then 0xFF else if count == 1 then 0x7F else if count == 2 then 0x7FF else 0xFFFF
  }

  ghost predicate AllTails(b: Bytes) {
    forall k :: 0 <= k < |b| ==> Tail(b[k])
  }

  /** The value of the continuation bytes alone. */
  function Tails(b: Bytes): int {
    if b == [] then 0 else Next(Tails(b[..|b| - 1]), b[|b| - 1])
  }

  /** Bitwise or of numbers without common bits: `b` has only bits of `m` and above, `a` only bits below. */
  function Or(a: int, b: int, m: int): int
    requires 0 <= a < m && b % m == 0
  {
    a + b
  }

  /** The value of up to three continuation bytes. */
  lemma TailsOf(t: Bytes)
    requires |t| <= 3 && AllTails(t)
    ensures Tails(t) ==
      (if t == [] then 0
       else if |t| == 1 then t[0] - 0x80
       else if |t| == 2 then Next(t[0] - 0x80, t[1])
       else Next(Next(t[0] - 0x80, t[1]), t[2]))
  {
  }

  predicate Disjoint(res: int, c: int, count: nat) {
    0 <= res < Power(6 * count) && (c % 0x80) * Power(5 * count) % Power(6 * count) == 0
  }

  /** The lead bits added to the value of the continuation bytes. */
  function WithLead(res: int, c: int, count: nat): int
    requires Disjoint(res, c, count)
  {
    Or(res, (c % 0x80) * Power(5 * count), Power(6 * count))
  }

  /** The lead bits go right above those of the continuation bytes, and together they make the value. */
  lemma Compose(b: Bytes)
    requires 1 <= |b| <= 4 && Lead(|b| - 1) <= b[0] < Lead(|b|) && AllTails(b[1..])
    ensures var k := |b| - 1;
      && Disjoint(Tails(b[1..]), b[0] * Power(k), k)
      && WithLead(Tails(b[1..]), b[0] * Power(k), k) == Value(b)
  {
    LeadBits(b[0], |b| - 1);
    Powers();
    var t := b[1..];
    TailsOf(t);
    var lead: int := b[0];
    if |b| == 2 {
      assert Tail(t[0]);
      assert (lead * Power(1)) % 0x80 == (lead - 0xC0) * 2;
    } else if |b| == 3 {
      assert Tail(t[0]) && Tail(t[1]);
      assert (lead * Power(2)) % 0x80 == (lead - 0xE0) * 4;
    } else if |b| == 4 {
      assert Tail(t[0]) && Tail(t[1]) && Tail(t[2]);
      assert (lead * Power(3)) % 0x80 == (lead - 0xF0) * 8;
    }
  }

  lemma Powers()
    ensures Power(0) == 1 && Power(1) == 2 && Power(2) == 4 && Power(3) == 8 && Power(5) == 32 && Power(6) == 0x40
    ensures Power(10) == 1024 && Power(12) == 0x1000 && Power(15) == 32768 && Power(18) == 0x40000
  {
  }

  /** The value of a lead byte and its continuation bytes. */
  function Value(b: Bytes): int
    requires 1 <= |b| <= 4
  {
    var lead: int := b[0];
    if |b| == 1 then lead - 0x80
    else if |b| == 2 then Next(lead - 0xC0, b[1])
    else if |b| == 3 then Next(Next(lead - 0xE0, b[1]), b[2])
    else Next(Next(Next(lead - 0xF0, b[1]), b[2]), b[3])
  }

  /** The final test: with lead byte and continuation bytes in place, the value is neither too large, nor too
      small for its length, nor a surrogate, exactly if the grammar allows the bytes. */
  lemma ValueTest(b: Bytes)
    requires 1 <= |b| <= 4 && Lead(|b| - 1) <= b[0] < Lead(|b|) && AllTails(b[1..])
    ensures IsCharacter(b) <==> Limit(|b| - 1) < Value(b) <= MAX_UNICODE && !(0xD800 <= Value(b) <= 0xDFFF)
    ensures IsCharacter(b) ==> Value(b) == CodePoint(b)
  {
  }

  /** The loop of utf8_decode: the number of continuation bytes that the length bits of the lead byte ask for,
      the lead byte shifted as often, and the value of the continuation bytes. */
  method Continuation(s: Bytes, pos: nat) returns (r: Option<(nat, int, int)>)
    requires pos < |s| && s[pos] >= 0x80
    ensures r.None? ==> NoCharacter(s, pos)
    ensures r.Some? ==> var (count, c, res) := r.value;
      && count <= 7 && pos + count < |s| && Lead(count) <= s[pos] < Lead(count + 1) && c == s[pos] * Power(count)
      && AllTails(s[pos + 1..pos + 1 + count]) && res == Tails(s[pos + 1..pos + 1 + count])
  {
    var first := s[pos];
    var c: int, count, res := first, 0, 0;
    while c / 0x40 % 2 == 1
      invariant 0 <= count <= 7 && c == first * Power(count) && first >= Lead(count)
      invariant pos + count < |s| && AllTails(s[pos + 1..pos + 1 + count])
      invariant res == Tails(s[pos + 1..pos + 1 + count])
      decreases 8 - count
    {
      LengthBit(first, count);
      count := count + 1;
      var cc := At(s, pos + count);
      if !(0x80 <= cc <= 0xBF) {
        NotContinued(s, pos, count);
        return None;
      }
      assert s[pos + 1..pos + 1 + count] == s[pos + 1..pos + count] + [cc];
      res := Or(cc % 0x40, res * 0x40, 0x40);
      c := c * 2;
    }
    LengthBit(first, count);
    r := Some((count, c, res));
  }

  /** utf8_decode: the code point at `pos` and the number of its bytes. More than three continuation
      bytes are refused before the lead byte is added, where the source adds it first: with the lead byte 0xFF and seven
      continuation bytes it shifts a 32-bit operand by 35 places, which C leaves undefined, and then refuses. */
  method Decode(s: Bytes, pos: nat) returns (r: Option<(int, nat)>)
    requires pos <= |s|
    ensures pos == |s| ==> r == Some((0, 1))
    ensures pos < |s| && r.Some? ==>
      CharacterAt(s, pos, r.value.1) && r.value.0 == CodePoint(s[pos..pos + r.value.1])
    ensures pos < |s| && r.None? ==> NoCharacter(s, pos)
  {
    var first := At(s, pos);
    if first < 0x80 {
      return Some((first, 1));
    }
    var cont := Continuation(s, pos);
    if cont.None? {
      return None;
    }
    var (count, c, res) := cont.value;
    var b := s[pos..pos + 1 + count];
    assert b[1..] == s[pos + 1..pos + 1 + count];
    if count > 3 {
      WrongLength(s, pos, count);
      return None;
    }
    Compose(b);
    ValueTest(b);
    res := WithLead(res, c, count);
    if res > MAX_UNICODE || res <= Limit(count) || 0xD800 <= res <= 0xDFFF {
      OnlyLength(s, pos, count);
      return None;
    }
    r := Some((res, count + 1));
  }

  /** A byte that is not a continuation byte where the lead byte asks for one. */
  lemma NotContinued(s: Bytes, pos: nat, count: nat)
    requires 1 <= count && pos + count <= |s| && s[pos] >= Lead(count) && s[pos] >= 0x80
    requires !Tail(At(s, pos + count))
    ensures NoCharacter(s, pos)
  {
  }

  /** A lead byte that starts no character. */
  lemma WrongLength(s: Bytes, pos: nat, count: nat)
    requires pos < |s| && 3 < count <= 7 && Lead(count) <= s[pos] < Lead(count + 1)
    ensures NoCharacter(s, pos)
  {
  }

  /** A lead byte allows one length only. */
  lemma OnlyLength(s: Bytes, pos: nat, count: nat)
    requires pos + count < |s| && count <= 3 && Lead(count) <= s[pos] < Lead(count + 1)
    requires !IsCharacter(s[pos..pos + count + 1])
    ensures NoCharacter(s, pos)
  {
  }

  /** check_utf8: the string is valid exactly if it is a sequence of characters. The terminator is
      decoded too, so a valid string ends at position `|s| + 1`. */
  method Check(s: Bytes) returns (valid: bool, end: nat)
    ensures valid <==> IsText(s)
    ensures valid ==> end == |s| + 1
  {
    end := 0;
    assert s[0..] == s;
    while end <= |s|
      invariant 0 <= end <= |s| + 1
      invariant end <= |s| ==> (IsText(s) <==> IsText(s[end..]))
      invariant end == |s| + 1 ==> IsText(s)
    {
      var r := Decode(s, end);
      if r.None? {
        NoText(s, end);
        return false, end;
      }
      if end < |s| {
        TextStep(s, end, r.value.1);
      }
      end := end + r.value.1;
    }
    valid := true;
  }

  lemma NoText(s: Bytes, pos: nat)
    requires pos < |s| && NoCharacter(s, pos)
    ensures !IsText(s[pos..])
  {
    var t := s[pos..];
    forall n: nat ensures !CharacterAt(t, 0, n) {
      if n <= |t| {
        assert t[0..n] == s[pos..pos + n];
        assert !CharacterAt(s, pos, n);
      }
    }
  }

  lemma TextStep(s: Bytes, pos: nat, n: nat)
    requires CharacterAt(s, pos, n)
    ensures IsText(s[pos..]) <==> IsText(s[pos + n..])
  {
    var t := s[pos..];
    assert t[0..n] == s[pos..pos + n] && t[n..] == s[pos + n..];
    assert CharacterAt(t, 0, n);
    if IsText(t) {
      var m: nat :| 1 <= m && CharacterAt(t, 0, m) && IsText(t[m..]);
      CharacterUnique(t, m, n);
    }
  }
}
