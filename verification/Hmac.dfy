/** HMAC and the Hi function of SCRAM (util-src/hashes.c).

    The hash is any streaming hash; the order of the bytes in a machine word is a parameter.
 */
module Hmac {
  import opened ByteStrings

  // ---- Exclusive or ----

  /** Exclusive or, bit by bit. */
  function XorBits(a: nat, b: nat): nat {
    if a == 0 && b == 0 then 0 else 2 * XorBits(a / 2, b / 2) + (a + b) % 2
  }

  lemma {:induction false} XorBound(k: nat, a: nat, b: nat)
    requires a < Power(k) && b < Power(k)
    ensures XorBits(a, b) < Power(k)
    decreases k
  {
    if k > 0 {
      XorBound(k - 1, a / 2, b / 2);
    }
  }

  lemma BytePower()
    ensures Power(8) == 0x100
  {
  }

  function XorByte(a: Byte, b: Byte): Byte {
    BytePower();
    XorBound(8, a, b);
    XorBits(a, b)
  }

  // ---- Streaming hashes ----

  datatype Hash<!S(!new)> = Hash(init: S, update: (S, Bytes) -> S, final: S -> Bytes, length: nat) {
    /** Updating twice is updating with both strings at once, and every digest has the same length. */
    ghost predicate IsStreaming() {
      && (forall c: S, a: Bytes, b: Bytes {:trigger update(update(c, a), b)} ::
            update(update(c, a), b) == update(c, a + b))
      && (forall c: S {:trigger final(c)} :: |final(c)| == length)
    }

    /** The digest of a message. */
    function Digest(m: Bytes): Bytes {
      final(update(init, m))
    }
  }

  // ---- RFC 2104 and RFC 5802 ----

  function Xor(a: Bytes, b: Bytes): (c: Bytes)
    requires |a| == |b|
    ensures |c| == |a|
  {
    seq(|a|, k requires 0 <= k < |a| => XorByte(a[k], b[k]))
  }

  function Repeat(b: Byte, n: nat): (c: Bytes)
    ensures |c| == n
  {
    seq(n, _ => b)
  }

  /** The key, hashed if it is longer than a block, and zeros to the length of the block. */
  function BlockKey<S(!new)>(h: Hash<S>, block: nat, key: Bytes): (k: Bytes)
    requires h.IsStreaming() && h.length <= block
    ensures |k| == block
  {
    var short := if |key| > block then h.Digest(key) else key;
    short + Repeat(0, block - |short|)
  }

  /** What the outer hash of section 2 of RFC 2104 is given, for a hash with blocks of `block` bytes. */
  function OuterInput<S(!new)>(h: Hash<S>, block: nat, key: Bytes, msg: Bytes): Bytes
    requires h.IsStreaming() && h.length <= block
  {
    var k := BlockKey(h, block, key);
    Xor(k, Repeat(0x5C, block)) + h.Digest(Xor(k, Repeat(0x36, block)) + msg)
  }

  /** Section 2 of RFC 2104. */
  function HmacOf<S(!new)>(h: Hash<S>, block: nat, key: Bytes, msg: Bytes): Bytes
    requires h.IsStreaming() && h.length <= block
  {
    h.Digest(OuterInput(h, block, key, msg))
  }

  /** Two different messages with the same digest. */
  ghost predicate Collision<S(!new)>(h: Hash<S>, x: Bytes, y: Bytes) {
    x != y && h.Digest(x) == h.Digest(y)
  }

  /** The program uses 64 for every hash. For a hash with blocks of another size, such as SHA-512 with its 128 bytes,
      it gives the code of RFC 2104 for a key and a message if and only if the two outer inputs collide. */
  lemma BlockSizeMatters<S(!new)>(h: Hash<S>, block: nat, key: Bytes, msg: Bytes)
    requires h.IsStreaming() && h.length <= BLOCK && h.length <= block && block != BLOCK
    ensures HmacOf(h, BLOCK, key, msg) == HmacOf(h, block, key, msg) <==>
      Collision(h, OuterInput(h, BLOCK, key, msg), OuterInput(h, block, key, msg))
  {
    assert |OuterInput(h, BLOCK, key, msg)| == BLOCK + h.length;
    assert |OuterInput(h, block, key, msg)| == block + h.length;
  }

  /** A hash that tells only whether it was given 65 bytes. */
  function CountHash(): Hash<int> {
    Hash(0, (c: int, m: Bytes) => c + |m|, (c: int) => if c == 65 then [1] else [0], 1)
  }

  /** For this hash the outer inputs never collide. */
  lemma CountHashDiffers(block: nat, key: Bytes, msg: Bytes)
    requires block >= 1 && block != BLOCK
    ensures CountHash().IsStreaming()
    ensures HmacOf(CountHash(), BLOCK, key, msg) != HmacOf(CountHash(), block, key, msg)
  {
    var h := CountHash();
    assert |OuterInput(h, BLOCK, key, msg)| == BLOCK + 1;
    assert |OuterInput(h, block, key, msg)| == block + 1;
  }

  /** HMAC with a fixed key. */
  ghost function Keyed<S(!new)>(h: Hash<S>, key: Bytes): Bytes -> Bytes
    requires h.IsStreaming() && h.length <= BLOCK
  {
    m => HmacOf(h, BLOCK, key, m)
  }

  ghost predicate Sized(mac: Bytes -> Bytes, n: nat) {
    forall m {:trigger mac(m)} :: |mac(m)| == n
  }

  /** The sequence U1, U2, ... of section 2.2 of RFC 5802; U1 is made from the salt and INT(1). */
  ghost function U(mac: Bytes -> Bytes, salt: Bytes, i: nat): Bytes
    requires i >= 1
  {
    mac(if i == 1 then salt + [0, 0, 0, 1] else U(mac, salt, i - 1))
  }

  /** Hi(str, salt, i), `mac` being keyed with `str`: all of U1 to Ui combined. */
  ghost function Hi(mac: Bytes -> Bytes, n: nat, salt: Bytes, i: nat): (r: Bytes)
    requires Sized(mac, n) && i >= 1
    ensures |r| == n
  {
    if i == 1 then U(mac, salt, 1) else Xor(Hi(mac, n, salt, i - 1), U(mac, salt, i))
  }

  // ---- Words ----

  const BLOCK: nat := 64
  const SHA_DIGEST_LENGTH: nat := 20
  const HMAC_IPAD := 0x36363636
  const HMAC_OPAD := 0x5C5C5C5C

  /** Four bytes of memory as a word, in either byte order. */
  function Word(big: bool, b0: Byte, b1: Byte, b2: Byte, b3: Byte): nat {
    if big then ((b0 * 0x100 + b1) * 0x100 + b2) * 0x100 + b3 else ((b3 * 0x100 + b2) * 0x100 + b1) * 0x100 + b0
  }

  /** Byte `k` of a word in memory. */
  function Part(big: bool, w: nat, k: nat): Byte
    requires k < 4
  {
    var place := if big then 3 - k else k;
    if place == 0 then w % 0x100
    else if place == 1 then w / 0x100 % 0x100
    else if place == 2 then w / 0x10000 % 0x100
    else w / 0x1000000 % 0x100
  }

  lemma WordParts(big: bool, b0: Byte, b1: Byte, b2: Byte, b3: Byte)
    ensures var w := Word(big, b0, b1, b2, b3);
      Part(big, w, 0) == b0 && Part(big, w, 1) == b1 && Part(big, w, 2) == b2 && Part(big, w, 3) == b3
  {
    if big {
      Digits(b0, b1, b2, b3);
    } else {
      Digits(b3, b2, b1, b0);
    }
  }

  lemma Digits(b0: Byte, b1: Byte, b2: Byte, b3: Byte)
    ensures var w := ((b0 * 0x100 + b1) * 0x100 + b2) * 0x100 + b3;
      w % 0x100 == b3 && w / 0x100 % 0x100 == b2 && w / 0x10000 % 0x100 == b1 && w / 0x1000000 % 0x100 == b0
  {
  }

  /** One step of an operation that works bit by bit. */
  ghost predicate BitwiseAt(f: (nat, nat) -> nat, a: nat, b: nat) {
    f(a, b) == 2 * f(a / 2, b / 2) + (a + b) % 2
  }

  ghost predicate Bitwise(f: (nat, nat) -> nat) {
    f(0, 0) == 0 && forall a: nat, b: nat :: BitwiseAt(f, a, b)
  }

  lemma LowBit(f: (nat, nat) -> nat, a: nat, u: nat, b: nat, v: nat)
    requires Bitwise(f) && u < 2 && v < 2
    ensures f(2 * a + u, 2 * b + v) == 2 * f(a, b) + (u + v) % 2
  {
    assert BitwiseAt(f, 2 * a + u, 2 * b + v);
    assert (2 * a + u) / 2 == a && (2 * b + v) / 2 == b;
  }

  /** One more low bit on both sides. */
  lemma MoreBits(f: (nat, nat) -> nat, a: nat, b: nat, x: nat, m: nat, n: nat, k: nat, l: nat)
    requires Bitwise(f) && f(a + m, b + n) == x + f(m, n) && m == k / 2 && n == l / 2
    ensures f(2 * a + k, 2 * b + l) == 2 * x + f(k, l)
  {
    LowBit(f, a + m, k % 2, b + n, l % 2);
    LowBit(f, m, k % 2, n, l % 2);
    assert 2 * (a + m) + k % 2 == 2 * a + k && 2 * (b + n) + l % 2 == 2 * b + l;
    assert 2 * m + k % 2 == k && 2 * n + l % 2 == l;
  }

  /** The lowest four bits and the rest. */
  lemma LowNibble(f: (nat, nat) -> nat, h1: nat, l1: nat, h2: nat, l2: nat)
    requires Bitwise(f) && l1 < 16 && l2 < 16
    ensures f(16 * h1 + l1, 16 * h2 + l2) == 16 * f(h1, h2) + f(l1, l2)
  {
    var x := f(h1, h2);
    MoreBits(f, h1, h2, x, 0, 0, l1 / 8, l2 / 8);
    MoreBits(f, 2 * h1, 2 * h2, 2 * x, l1 / 8, l2 / 8, l1 / 4, l2 / 4);
    MoreBits(f, 4 * h1, 4 * h2, 4 * x, l1 / 4, l2 / 4, l1 / 2, l2 / 2);
    MoreBits(f, 8 * h1, 8 * h2, 8 * x, l1 / 2, l2 / 2, l1, l2);
  }

  /** The lowest byte and the rest. */
  lemma LowByte(f: (nat, nat) -> nat, h1: nat, b1: Byte, h2: nat, b2: Byte)
    requires Bitwise(f)
    ensures f(h1 * 0x100 + b1, h2 * 0x100 + b2) == f(h1, h2) * 0x100 + f(b1, b2)
  {
    var n1, m1, n2, m2 := b1 / 16, b1 % 16, b2 / 16, b2 % 16;
    LowNibble(f, h1, n1, h2, n2);
    LowNibble(f, 16 * h1 + n1, m1, 16 * h2 + n2, m2);
    LowNibble(f, n1, m1, n2, m2);
    assert 16 * (16 * h1 + n1) + m1 == h1 * 0x100 + b1 && 16 * (16 * h2 + n2) + m2 == h2 * 0x100 + b2;
  }

  lemma FourBytes(f: (nat, nat) -> nat, b0: Byte, b1: Byte, b2: Byte, b3: Byte, c0: Byte, c1: Byte, c2: Byte, c3: Byte)
    requires Bitwise(f)
    ensures f(((b0 * 0x100 + b1) * 0x100 + b2) * 0x100 + b3, ((c0 * 0x100 + c1) * 0x100 + c2) * 0x100 + c3) ==
      ((f(b0, c0) * 0x100 + f(b1, c1)) * 0x100 + f(b2, c2)) * 0x100 + f(b3, c3)
  {
    var h1: nat, h2: nat := b0 * 0x100 + b1, c0 * 0x100 + c1;
    var g1: nat, g2: nat := h1 * 0x100 + b2, h2 * 0x100 + c2;
    LowByte(f, b0, b1, c0, c1);
    LowByte(f, h1, b2, h2, c2);
    LowByte(f, g1, b3, g2, c3);
  }

  lemma XorIsBitwise(f: (nat, nat) -> nat)
    requires forall a: nat, b: nat :: f(a, b) == XorBits(a, b)
    ensures Bitwise(f)
  {
  }

  lemma BytesOfWords(f: (nat, nat) -> nat, big: bool, b0: Byte, b1: Byte, b2: Byte, b3: Byte,
                     c0: Byte, c1: Byte, c2: Byte, c3: Byte, x0: Byte, x1: Byte, x2: Byte, x3: Byte)
    requires Bitwise(f) && x0 == f(b0, c0) && x1 == f(b1, c1) && x2 == f(b2, c2) && x3 == f(b3, c3)
    ensures f(Word(big, b0, b1, b2, b3), Word(big, c0, c1, c2, c3)) == Word(big, x0, x1, x2, x3)
  {
    if big {
      FourBytes(f, b0, b1, b2, b3, c0, c1, c2, c3);
    } else {
      FourBytes(f, b3, b2, b1, b0, c3, c2, c1, c0);
    }
  }

  /** Combining words combines their bytes, in either byte order. */
  lemma WordXor(big: bool, b0: Byte, b1: Byte, b2: Byte, b3: Byte, c0: Byte, c1: Byte, c2: Byte, c3: Byte)
    ensures XorBits(Word(big, b0, b1, b2, b3), Word(big, c0, c1, c2, c3)) ==
      Word(big, XorByte(b0, c0), XorByte(b1, c1), XorByte(b2, c2), XorByte(b3, c3))
  {
    var f := (a: nat, b: nat) => XorBits(a, b);
    XorIsBitwise(f);
    BytesOfWords(f, big, b0, b1, b2, b3, c0, c1, c2, c3, XorByte(b0, c0), XorByte(b1, c1), XorByte(b2, c2), XorByte(b3, c3));
  }

  /** The constants of the program repeat the pad bytes of RFC 2104. */
  lemma PadWords(big: bool)
    ensures Word(big, 0x36, 0x36, 0x36, 0x36) == HMAC_IPAD && Word(big, 0x5C, 0x5C, 0x5C, 0x5C) == HMAC_OPAD
  {
  }

  /** `quadbytes[i] ^= w` on a union of bytes and words, `w` being the word of four bytes `c`. */
  method XorWord(a: array<Byte>, i: nat, w: nat, big: bool, ghost c: Bytes)
    requires 4 * i + 4 <= a.Length && |c| == 4 && w == Word(big, c[0], c[1], c[2], c[3])
    modifies a
    ensures forall k :: 0 <= k < a.Length ==>
      a[k] == if 4 * i <= k < 4 * i + 4 then XorByte(old(a[k]), c[k - 4 * i]) else old(a[k])
  {
    var p := 4 * i;
    var x := XorBits(Word(big, a[p], a[p + 1], a[p + 2], a[p + 3]), w);
    WordXor(big, a[p], a[p + 1], a[p + 2], a[p + 3], c[0], c[1], c[2], c[3]);
    WordParts(big, XorByte(a[p], c[0]), XorByte(a[p + 1], c[1]), XorByte(a[p + 2], c[2]), XorByte(a[p + 3], c[3]));
    a[p], a[p + 1], a[p + 2], a[p + 3] := Part(big, x, 0), Part(big, x, 1), Part(big, x, 2), Part(big, x, 3);
  }

  // ---- The program ----

  method Mac<S(!new)>(h: Hash<S>, key: Bytes, msg: Bytes, big: bool) returns (result: Bytes)
    requires h.IsStreaming() && h.length <= BLOCK
    ensures result == HmacOf(h, BLOCK, key, msg)
  {
    var short := key;
    if |key| > BLOCK {
      short := h.final(h.update(h.init, key));
    }
    ghost var k := BlockKey(h, BLOCK, key);
    var ipad := new Byte[BLOCK](j => if 0 <= j < |short| then short[j] else 0);
    var opad := new Byte[BLOCK](j requires 0 <= j < BLOCK reads ipad => ipad[j]);
    PadWords(big);
    assert k == short + Repeat(0, BLOCK - |short|);
    var i := 0;
    while i < 16
      invariant 0 <= i <= 16
      invariant forall j :: 0 <= j < 4 * i ==> ipad[j] == XorByte(k[j], 0x36) && opad[j] == XorByte(k[j], 0x5C)
      invariant forall j :: 4 * i <= j < BLOCK ==> ipad[j] == k[j] && opad[j] == k[j]
    {
      XorWord(ipad, i, HMAC_IPAD, big, Repeat(0x36, 4));
      XorWord(opad, i, HMAC_OPAD, big, Repeat(0x5C, 4));
      i := i + 1;
    }
    assert ipad[..] == Xor(k, Repeat(0x36, BLOCK)) && opad[..] == Xor(k, Repeat(0x5C, BLOCK));
    var ctx := h.update(h.init, ipad[..]);
    var ctxo := h.update(h.init, opad[..]);
    ctx := h.update(ctx, msg);
    result := h.final(ctx);
    ctxo := h.update(ctxo, result);
    result := h.final(ctxo);
  }

  const INTS := 0x1_0000_0000

  /** A Lua integer kept in an `int` of 32 bits. */
  function AsInt(x: int): int {
    var y := x % INTS;
    if y < INTS / 2 then y else y - INTS
  }

  lemma AsIntIsModular(x: int)
    ensures -(INTS / 2) <= AsInt(x) < INTS / 2 && (x - AsInt(x)) % INTS == 0
  {
  }

  /** The number of rounds: fewer than one count as one. */
  function RoundsFor(iter: int): (n: nat)
    ensures n >= 1
  {
    if AsInt(iter) < 1 then 1 else AsInt(iter)
  }

  /** The count asked for is the count used if and only if it is positive and fits. */
  lemma RoundsAsAsked(iter: int)
    ensures RoundsFor(iter) == iter <==> 1 <= iter < INTS / 2
  {
  }

  /** LscramHi */
  method ScramHi<S(!new)>(h: Hash<S>, str: Bytes, salt: Bytes, iter: int, big: bool) returns (result: Bytes)
    requires h.IsStreaming() && h.length == SHA_DIGEST_LENGTH
    ensures Sized(Keyed(h, str), SHA_DIGEST_LENGTH)
    ensures result == Hi(Keyed(h, str), SHA_DIGEST_LENGTH, salt, RoundsFor(iter))
  {
    ghost var mac := Keyed(h, str);
    assert forall m :: KeyedAt(h, str, mac, m);
    var ust := MacKeyed(h, str, salt + [0, 0, 0, 1], mac, big);
    result := Rounds(h, str, salt, ust, AsInt(iter), mac, big);
  }

  ghost predicate KeyedAt<S(!new)>(h: Hash<S>, key: Bytes, mac: Bytes -> Bytes, m: Bytes)
    requires h.IsStreaming() && h.length <= BLOCK
  {
    mac(m) == HmacOf(h, BLOCK, key, m)
  }

  method MacKeyed<S(!new)>(h: Hash<S>, str: Bytes, m: Bytes, ghost mac: Bytes -> Bytes, big: bool) returns (r: Bytes)
    requires h.IsStreaming() && h.length <= BLOCK && forall m :: KeyedAt(h, str, mac, m)
    ensures r == mac(m)
  {
    r := Mac(h, str, m, big);
    assert KeyedAt(h, str, mac, m);
  }

  lemma HiStep(mac: Bytes -> Bytes, salt: Bytes, i: nat)
    requires Sized(mac, SHA_DIGEST_LENGTH) && i >= 1
    ensures U(mac, salt, i + 1) == mac(U(mac, salt, i))
    ensures Hi(mac, SHA_DIGEST_LENGTH, salt, i + 1) == Xor(Hi(mac, SHA_DIGEST_LENGTH, salt, i), mac(U(mac, salt, i)))
  {
  }

  /** One round of the loop of LscramHi. */
  method Round<S(!new)>(h: Hash<S>, str: Bytes, ust: Bytes, res: array<Byte>, ghost mac: Bytes -> Bytes, big: bool) returns (und: Bytes)
    requires h.IsStreaming() && h.length <= BLOCK && forall m :: KeyedAt(h, str, mac, m)
    requires Sized(mac, SHA_DIGEST_LENGTH) && res.Length == SHA_DIGEST_LENGTH
    modifies res
    ensures und == mac(ust) && res[..] == Xor(old(res[..]), mac(ust))
  {
    und := MacKeyed(h, str, ust, mac, big);
    XorInto(res, und, big);
  }

  /** The loop of LscramHi. */
  method Rounds<S(!new)>(h: Hash<S>, str: Bytes, ghost salt: Bytes, first: Bytes, iter: int,
                         ghost mac: Bytes -> Bytes, big: bool) returns (result: Bytes)
    requires h.IsStreaming() && h.length <= BLOCK && forall m :: KeyedAt(h, str, mac, m)
    requires Sized(mac, SHA_DIGEST_LENGTH) && first == U(mac, salt, 1)
    ensures result == Hi(mac, SHA_DIGEST_LENGTH, salt, if iter < 1 then 1 else iter)
  {
    var ust := first;
    var res := new Byte[SHA_DIGEST_LENGTH](j requires 0 <= j < SHA_DIGEST_LENGTH => first[j]);
    assert res[..] == first;
    var i := 1;
    while i < iter
      invariant 1 <= i && (i <= iter || i == 1)
      invariant ust == U(mac, salt, i) && res[..] == Hi(mac, SHA_DIGEST_LENGTH, salt, i)
    {
      HiStep(mac, salt, i);
      ust := Round(h, str, ust, res, mac, big);
      i := i + 1;
    }
    result := res[..];
  }

  /** Combine a digest into another one word by word. */
  method XorInto(res: array<Byte>, und: Bytes, big: bool)
    requires res.Length == |und| == SHA_DIGEST_LENGTH
    modifies res
    ensures res[..] == Xor(old(res[..]), und)
  {
    ghost var was := res[..];
    var j := 0;
    while j < SHA_DIGEST_LENGTH / 4
      invariant 0 <= j <= SHA_DIGEST_LENGTH / 4
      invariant forall k :: 0 <= k < 4 * j ==> res[k] == XorByte(was[k], und[k])
      invariant forall k :: 4 * j <= k < |und| ==> res[k] == was[k]
    {
      var p := 4 * j;
      XorWord(res, j, Word(big, und[p], und[p + 1], und[p + 2], und[p + 3]), big, und[p..p + 4]);
      j := j + 1;
    }
  }
}
