/** The ring buffer of util-src/ringbuffer.c: a bounded queue of bytes kept in a fixed allocation.

    Sizes and offsets are `size_t` (64 bits), the result of the search is an `int` (32 bits), and Lua integers
    turn into sizes modulo 2^64, so that a negative count is a very large one.
 */
module RingBuffers {
  import opened Wrappers
  import opened ByteStrings

  const SIZES := 0x1_0000_0000_0000_0000
  const INTS := 0x1_0000_0000

  /** No object is as large as a quarter of the address space. */
  const LIMIT := SIZES / 4

  /** A number as a `size_t`: modulo 2^64. */
  function AsSize(x: int): nat {
    if 0 <= x < SIZES then x else x % SIZES
  }

  /** A size that went through an `int`. */
  function ThroughInt(x: nat): nat {
    var y := x % INTS;
    if y < INTS / 2 then y else y + (SIZES - INTS)
  }

  /** A size is the one number below 2^64 that differs by a multiple of 2^64. */
  lemma SizeIsModular(x: int)
    ensures 0 <= AsSize(x) < SIZES && (x - AsSize(x)) % SIZES == 0
  {
  }

  /** An `int` keeps the low 32 bits, and a negative one turns into a size near 2^64. */
  lemma IntIsModular(x: nat)
    ensures ThroughInt(x) % INTS == x % INTS
    ensures ThroughInt(x) < INTS / 2 || SIZES - INTS / 2 <= ThroughInt(x) < SIZES
  {
  }

  // ---- The abstract queue ----

  datatype Operation = Write(s: Bytes) | Read(count: int) | Peek(count: int) | Discard(count: int)

  /** The bytes that leave the front of the queue, if the operation succeeds. */
  function Taken(q: Bytes, op: Operation): Bytes {
    if (op.Read? || op.Discard?) && AsSize(op.count) <= |q| then q[..AsSize(op.count)] else []
  }

  function Accepted(capacity: nat, q: Bytes, op: Operation): Bytes {
    if op.Write? && |q| + |op.s| <= capacity then op.s else []
  }

  function Step(capacity: nat, q: Bytes, op: Operation): Bytes {
    q[|Taken(q, op)|..] + Accepted(capacity, q, op)
  }

  /** The queue, all bytes taken and all bytes accepted, after a run from an empty queue. */
  ghost function Run(capacity: nat, ops: seq<Operation>): (r: (Bytes, Bytes, Bytes))
    ensures |r.0| <= capacity
  {
    if ops == [] then ([], [], []) else
      var (q, taken, accepted) := Run(capacity, ops[..|ops| - 1]);
      var op := ops[|ops| - 1];
      (Step(capacity, q, op), taken + Taken(q, op), accepted + Accepted(capacity, q, op))
  }

  /** Every byte accepted is taken or still in the queue, in order and once. */
  lemma {:induction false} RunConserves(capacity: nat, ops: seq<Operation>)
    ensures var (q, taken, accepted) := Run(capacity, ops); accepted == taken + q
  {
    if ops != [] {
      var op := ops[|ops| - 1];
      RunConserves(capacity, ops[..|ops| - 1]);
      var (q, taken, accepted) := Run(capacity, ops[..|ops| - 1]);
      Regroup(taken, Taken(q, op), q[|Taken(q, op)|..], Accepted(capacity, q, op));
      assert q == Taken(q, op) + q[|Taken(q, op)|..];
    }
  }

  lemma Regroup(a: Bytes, b: Bytes, c: Bytes, d: Bytes)
    ensures (a + (b + c)) + d == (a + b) + (c + d)
  {
  }

  function BytesOf(r: Option<Bytes>): Bytes {
    if r.Some? then r.value else []
  }

  /** What a read returns is cut off the front of the queue. */
  lemma ReadSplits(capacity: nat, q: Bytes, m: nat, r: Option<Bytes>)
    requires |q| < SIZES && r == if AsSize(m) <= |q| then Some(q[..AsSize(m)]) else None
    ensures BytesOf(r) + Step(capacity, q, Read(m)) == q
    ensures Step(capacity, q, Read(|BytesOf(r)|)) == Step(capacity, q, Read(m))
    ensures m <= |q| ==> r.Some? && |r.value| == m
  {
  }

  // ---- Positions ----

  /** A position less than two turns from the start, reduced to the allocation. */
  function Place(p: nat, n: nat): nat
    requires p < 2 * n
  {
    if p < n then p else p - n
  }

  lemma PlaceIsRemainder(p: nat, n: nat)
    requires p < 2 * n
    ensures p % n == Place(p, n)
  {
  }

  // ---- Occurrences ----

  predicate OccursAt(t: Bytes, s: Bytes, i: nat) {
    i + |s| <= |t| && t[i..i + |s|] == s
  }

  ghost predicate NotBefore(t: Bytes, s: Bytes, i: nat) {
    forall k: nat :: k < i ==> !OccursAt(t, s, k)
  }

  ghost predicate FirstAt(t: Bytes, s: Bytes, i: nat) {
    OccursAt(t, s, i) && NotBefore(t, s, i)
  }

  /** `r` is the end of the first occurrence, or 0 if there is none. */
  ghost predicate EndOfFirst(t: Bytes, s: Bytes, r: nat) {
    if r == 0 then forall i: nat :: !OccursAt(t, s, i) else |s| <= r <= |t| && FirstAt(t, s, r - |s|)
  }

  /** The byte at a position of a C string, the terminator included. */
  function CharAt(s: Bytes, j: nat): Byte
    requires j <= |s|
  {
    if j < |s| then s[j] else 0
  }

  /** The bytes at and after the read position, going round the allocation. */
  ghost function Around(buffer: Bytes, rpos: nat): nat -> Byte
    requires |buffer| > 0
  {
    i => buffer[AsSize(rpos + i) % |buffer|]
  }

  /** What the search compares: the first byte (of an empty string the terminator), then all others. */
  ghost predicate MatchAt(around: nat -> Byte, s: Bytes, i: nat) {
    around(i) == CharAt(s, 0) && forall j: nat :: 1 <= j < |s| ==> around(i + j) == s[j]
  }

  datatype Outcome<T> = Returns(value: T) | NeverReturns

  /** The end of the first match that starts from `i` to `last`, as an `int`; or 0. The counter of the search is a
      `size_t`, which never exceeds a `last` of 2^64 - 1. */
  ghost function FirstMatch(around: nat -> Byte, s: Bytes, i: nat, last: nat): Outcome<nat>
    decreases last + 1 - i
  {
    if i > last then (if last == SIZES - 1 then NeverReturns else Returns(0))
    else if MatchAt(around, s, i) then Returns(ThroughInt(AsSize(i + |s|)))
    else FirstMatch(around, s, i + 1, last)
  }

  /** The loop of the search, one turn at a time. */
  datatype Loop = At(i: nat) | Done(value: nat)

  ghost function Turn(around: nat -> Byte, s: Bytes, last: nat, l: Loop): Loop {
    if l.Done? then l
    else if l.i > last then Done(0)
    else if MatchAt(around, s, l.i) then Done(ThroughInt(AsSize(l.i + |s|)))
    else At(AsSize(l.i + 1))
  }

  ghost function Turned(around: nat -> Byte, s: Bytes, last: nat, k: nat): Loop {
    if k == 0 then At(0) else Turn(around, s, last, Turned(around, s, last, k - 1))
  }

  /** Before the first match the counter only advances. */
  lemma {:induction false} CounterAdvances(around: nat -> Byte, s: Bytes, last: nat, m: nat, k: nat)
    requires k <= m <= last + 1 && m < SIZES && forall i: nat :: i < m ==> !MatchAt(around, s, i)
    ensures Turned(around, s, last, k) == At(k)
  {
    if k > 0 {
      CounterAdvances(around, s, last, m, k - 1);
    }
  }

  /** Without a match it starts anew after 2^64 turns, and so never passes 2^64 - 1. */
  lemma {:induction false} CounterStartsAnew(around: nat -> Byte, s: Bytes, last: nat, k: nat)
    requires last == SIZES - 1 && forall i: nat :: i < SIZES ==> !MatchAt(around, s, i)
    ensures Turned(around, s, last, k).At? && Turned(around, s, last, k).i < SIZES
  {
    if k > 0 {
      CounterStartsAnew(around, s, last, k - 1);
    }
  }

  /** The recursion says what the loop does: it stops with the result, or goes on for ever. */
  lemma LoopMeaning(around: nat -> Byte, s: Bytes, last: nat)
    requires last < SIZES
    ensures var r := FirstMatch(around, s, 0, last);
      if r.Returns? then exists k :: Turned(around, s, last, k) == Done(r.value)
      else forall k :: Turned(around, s, last, k).At?
  {
    var m := FirstMatchIs(around, s, 0, last);
    if m == SIZES {
      forall k ensures Turned(around, s, last, k).At? {
        CounterStartsAnew(around, s, last, k);
      }
    } else {
      CounterAdvances(around, s, last, m, m);
      assert Turned(around, s, last, m + 1).Done?;
    }
  }

  /** The bytes in the buffer. */
  function Window(buffer: Bytes, rpos: nat, n: nat): (t: Bytes)
    requires rpos < |buffer| && n <= |buffer|
    ensures |t| == n
    ensures forall k :: 0 <= k < n ==> t[k] == buffer[Place(rpos + k, |buffer|)]
  {
    seq(n, k requires 0 <= k < n => buffer[Place(rpos + k, |buffer|)])
  }

  /** `t` is the beginning of what `around` shows. */
  ghost predicate Shows(around: nat -> Byte, t: Bytes) {
    forall k: nat :: k < |t| ==> around(k) == t[k]
  }

  lemma WindowIsAround(buffer: Bytes, rpos: nat, n: nat)
    requires rpos < |buffer| < LIMIT && n <= |buffer|
    ensures Shows(Around(buffer, rpos), Window(buffer, rpos, n))
  {
    forall k: nat | k < n ensures Around(buffer, rpos)(k) == Window(buffer, rpos, n)[k] {
      assert AsSize(rpos + k) == rpos + k;
      PlaceIsRemainder(rpos + k, |buffer|);
    }
  }

  /** Within the contents a match of the search is an occurrence. */
  lemma MatchIsOccurrence(around: nat -> Byte, t: Bytes, s: Bytes, i: nat)
    requires 1 <= |s| && i + |s| <= |t| && Shows(around, t)
    ensures MatchAt(around, s, i) <==> OccursAt(t, s, i)
  {
  }

  /** 2^32 divides 2^64. */
  lemma SizeModInt(x: nat)
    ensures AsSize(x) % INTS == x % INTS
  {
    if x >= SIZES {
      var a, y := x / SIZES, x % SIZES;
      var b, c := y / INTS, y % INTS;
      DivisionUnique(x, INTS, INTS * a + b, c);
    }
  }

  /** Only small numbers survive both conversions, and only multiples of 2^32 turn into 0. */
  lemma Converted(x: nat)
    ensures ThroughInt(AsSize(x)) == 0 <==> x % INTS == 0
    ensures x < LIMIT ==> (ThroughInt(AsSize(x)) == x <==> x < INTS / 2)
    ensures INTS / 2 <= x < INTS ==> ThroughInt(AsSize(x)) >= LIMIT
  {
    SizeModInt(x);
  }

  /** The start of the first match, or `last + 1`. */
  lemma {:induction false} FirstMatchIs(around: nat -> Byte, s: Bytes, i: nat, last: nat) returns (m: nat)
    requires i <= last + 1
    ensures i <= m <= last + 1 && (m <= last ==> MatchAt(around, s, m))
    ensures forall k: nat :: i <= k < m ==> !MatchAt(around, s, k)
    ensures FirstMatch(around, s, i, last) ==
      if m <= last then Returns(ThroughInt(AsSize(m + |s|))) else if m == SIZES then NeverReturns else Returns(0)
    decreases last + 1 - i
  {
    m := i;
    if i <= last && !MatchAt(around, s, i) {
      m := FirstMatchIs(around, s, i + 1, last);
    }
  }

  /** The search among the contents finds the end of the first occurrence, as an `int`. */
  lemma SearchIsExact(around: nat -> Byte, t: Bytes, s: Bytes, last: nat) returns (e: nat)
    requires 1 <= |s| <= |t| < LIMIT && last == |t| - |s| && Shows(around, t)
    ensures EndOfFirst(t, s, e) && e <= |t| && FirstMatch(around, s, 0, last) == Returns(ThroughInt(AsSize(e)))
  {
    var m := FirstMatchIs(around, s, 0, last);
    e := if m <= last then m + |s| else 0;
    forall k: nat | k < m ensures !OccursAt(t, s, k) {
      MatchIsOccurrence(around, t, s, k);
    }
    if m <= last {
      MatchIsOccurrence(around, t, s, m);
    }
  }

  /** The last start position that the search tries: `blen - l` in `size_t` arithmetic. */
  function LastStart(blen: nat, l: nat): nat {
    AsSize(blen - l)
  }

  /** The result of find. */
  ghost function FindResult(buffer: Bytes, rpos: nat, wpos: nat, blen: nat, s: Bytes): Outcome<nat>
    requires |buffer| > 0
  {
    if rpos == wpos then Returns(0) else FirstMatch(Around(buffer, rpos), s, 0, LastStart(blen, |s|))
  }

  ghost predicate ValidAt(rpos: nat, wpos: nat, blen: nat, alen: nat) {
    0 < alen < LIMIT && rpos < alen && blen <= alen && wpos == Place(rpos + blen, alen)
  }

  /** The positions are equal both for an empty and for a full buffer. */
  lemma PositionsMeet(rpos: nat, wpos: nat, blen: nat, alen: nat)
    requires ValidAt(rpos, wpos, blen, alen)
    ensures rpos == wpos <==> blen == 0 || blen == alen
  {
  }

  /** The search returns what it should. */
  ghost predicate Right(t: Bytes, s: Bytes, r: Outcome<nat>) {
    r.Returns? && EndOfFirst(t, s, r.value)
  }

  lemma EndIsUnique(t: Bytes, s: Bytes, e: nat, r: nat)
    requires 1 <= |s| && EndOfFirst(t, s, e) && EndOfFirst(t, s, r)
    ensures e == r
  {
  }

  /** In a buffer that is not full, every string of 1 to `blen` bytes is found: the result is the end `e` of its first
      occurrence as an `int`, or 0 if there is none, and so it is right if and only if `e` fits. */
  lemma FindIsExact(buffer: Bytes, rpos: nat, wpos: nat, blen: nat, s: Bytes) returns (e: nat)
    requires ValidAt(rpos, wpos, blen, |buffer|) && 1 <= |s| <= blen < |buffer|
    ensures EndOfFirst(Window(buffer, rpos, blen), s, e) && e <= blen
    ensures FindResult(buffer, rpos, wpos, blen, s) == Returns(ThroughInt(AsSize(e)))
    ensures Right(Window(buffer, rpos, blen), s, FindResult(buffer, rpos, wpos, blen, s)) <==> e < INTS / 2
  {
    PositionsMeet(rpos, wpos, blen, |buffer|);
    WindowIsAround(buffer, rpos, blen);
    var t := Window(buffer, rpos, blen);
    e := SearchIsExact(Around(buffer, rpos), t, s, LastStart(blen, |s|));
    Converted(e);
    if EndOfFirst(t, s, ThroughInt(AsSize(e))) {
      EndIsUnique(t, s, e, ThroughInt(AsSize(e)));
    }
  }

  // ---- Strings longer than the contents ----

  /** A comparison from start `m` in which `rpos + m + j` passes 2^64: the positions jump. */
  predicate Wraps(rpos: nat, l: nat, m: nat) {
    rpos + m < SIZES < rpos + m + l
  }

  /** The starts that have to be looked at: one turn round the allocation, and those where the positions jump. */
  predicate Candidate(n: nat, rpos: nat, blen: nat, l: nat, m: nat) {
    m <= LastStart(blen, l) && (m < n || Wraps(rpos, l, m))
  }

  ghost predicate FirstCandidate(buffer: Bytes, rpos: nat, blen: nat, s: Bytes, m: nat)
    requires |buffer| > 0
  {
    && Candidate(|buffer|, rpos, blen, |s|, m) && MatchAt(Around(buffer, rpos), s, m)
    && forall k: nat :: k < m && Candidate(|buffer|, rpos, blen, |s|, k) ==> !MatchAt(Around(buffer, rpos), s, k)
  }

  /** The string lies somewhere round the allocation, stale bytes included, and its end does not vanish in an `int`. */
  ghost predicate StaleMatch(buffer: Bytes, rpos: nat, blen: nat, s: Bytes)
    requires |buffer| > 0
  {
    exists m: nat :: FirstCandidate(buffer, rpos, blen, s, m) && (m + |s|) % INTS != 0
  }

  /** Quotient and remainder are unique. */
  lemma DivisionUnique(x: nat, n: nat, q: nat, r: nat)
    requires x == n * q + r && r < n
    ensures x % n == r
  {
    var q', r' := x / n, x % n;
    assert x == n * q' + r';
    Multiples(n, q, q');
    Multiples(n, q', q);
  }

  lemma {:induction false} Multiples(n: nat, a: nat, b: nat)
    ensures a < b ==> n * a + n <= n * b
    decreases b
  {
    if a < b {
      Multiples(n, a, b - 1);
      assert n * b == n * (b - 1) + n;
    }
  }

  lemma WholeTurns(x: nat, q: nat, n: nat)
    requires n > 0
    ensures (x + n * q) % n == x % n
  {
    var p := x / n;
    assert x + n * q == n * (p + q) + x % n;
    DivisionUnique(x + n * q, n, p + q, x % n);
  }

  /** Two starts from which the same positions are read. */
  lemma SameMatch(buffer: Bytes, rpos: nat, s: Bytes, i: nat, m: nat)
    requires |buffer| > 0 && 1 <= |s|
    requires forall j: nat {:trigger SamePlace(|buffer|, rpos, i, m, j)} :: j < |s| ==> SamePlace(|buffer|, rpos, i, m, j)
    requires MatchAt(Around(buffer, rpos), s, i)
    ensures MatchAt(Around(buffer, rpos), s, m)
  {
    var around := Around(buffer, rpos);
    assert SamePlace(|buffer|, rpos, i, m, 0);
    forall j: nat | 1 <= j < |s| ensures around(m + j) == s[j] {
      assert SamePlace(|buffer|, rpos, i, m, j);
      assert around(i + j) == s[j];
    }
  }

  predicate SamePlace(n: nat, rpos: nat, i: nat, m: nat, j: nat)
    requires n > 0
  {
    AsSize(rpos + (i + j)) % n == AsSize(rpos + (m + j)) % n
  }

  /** Before 2^64 every turn reads the same. */
  lemma TurnsBefore(n: nat, rpos: nat, i: nat, j: nat)
    requires n > 0 && rpos + (i + j) < SIZES
    ensures SamePlace(n, rpos, i, i % n, j)
  {
    var m, q := i % n, i / n;
    var t := n * q;
    assert i == m + t;
    var x := rpos + (m + j);
    WholeTurns(x, q, n);
    assert AsSize(rpos + (i + j)) == x + t && AsSize(x) == x;
  }

  /** Past 2^64 the positions start anew. */
  lemma TurnsPast(n: nat, rpos: nat, i: nat, j: nat)
    requires rpos < n < LIMIT && j < LIMIT && SIZES <= rpos + i < SIZES + rpos
    ensures SamePlace(n, rpos, i, i + n - SIZES, j)
  {
    var p := rpos + i - SIZES;
    WholeTurns(p + j, 1, n);
    assert AsSize(rpos + (i + j)) == p + j && AsSize(rpos + (i + n - SIZES + j)) == p + j + n;
  }

  /** A match that does not wrap is found within the first turn. */
  lemma MatchInFirstTurn(buffer: Bytes, rpos: nat, blen: nat, s: Bytes, i: nat) returns (m: nat)
    requires rpos < |buffer| < LIMIT && blen < |s| < LIMIT
    requires i <= LastStart(blen, |s|) && !Wraps(rpos, |s|, i) && MatchAt(Around(buffer, rpos), s, i)
    ensures m < |buffer| && MatchAt(Around(buffer, rpos), s, m)
  {
    var n := |buffer|;
    if rpos + i < SIZES {
      m := i % n;
      forall j: nat | j < |s| ensures SamePlace(n, rpos, i, m, j) {
        TurnsBefore(n, rpos, i, j);
      }
    } else {
      m := i + n - SIZES;
      forall j: nat | j < |s| ensures SamePlace(n, rpos, i, m, j) {
        TurnsPast(n, rpos, i, j);
      }
    }
    SameMatch(buffer, rpos, s, i, m);
  }

  /** No candidate start matches. */
  ghost predicate NoMatch(buffer: Bytes, rpos: nat, blen: nat, s: Bytes)
    requires |buffer| > 0
  {
    forall m: nat :: Candidate(|buffer|, rpos, blen, |s|, m) ==> !MatchAt(Around(buffer, rpos), s, m)
  }

  /** The first match is a candidate. */
  lemma FirstIsCandidate(buffer: Bytes, rpos: nat, blen: nat, s: Bytes) returns (m: nat)
    requires rpos < |buffer| < LIMIT && blen < |s| < LIMIT
    ensures var r := FirstMatch(Around(buffer, rpos), s, 0, LastStart(blen, |s|));
      if m <= LastStart(blen, |s|) then
        FirstCandidate(buffer, rpos, blen, s, m) && r.Returns? && (r.value == 0 <==> (m + |s|) % INTS == 0)
      else
        NoMatch(buffer, rpos, blen, s) && r == if |s| == blen + 1 then NeverReturns else Returns(0)
  {
    m := FirstMatchIs(Around(buffer, rpos), s, 0, LastStart(blen, |s|));
    Converted(m + |s|);
    if m <= LastStart(blen, |s|) && !Candidate(|buffer|, rpos, blen, |s|, m) {
      var k := MatchInFirstTurn(buffer, rpos, blen, s, m);
      assert false;
    }
  }

  lemma FirstCandidateUnique(buffer: Bytes, rpos: nat, blen: nat, s: Bytes, m: nat, k: nat)
    requires |buffer| > 0 && FirstCandidate(buffer, rpos, blen, s, m) && FirstCandidate(buffer, rpos, blen, s, k)
    ensures m == k
  {
  }

  lemma StaleMatchFirst(buffer: Bytes, rpos: nat, blen: nat, s: Bytes, m: nat)
    requires |buffer| > 0 && FirstCandidate(buffer, rpos, blen, s, m)
    ensures StaleMatch(buffer, rpos, blen, s) <==> (m + |s|) % INTS != 0
    ensures !NoMatch(buffer, rpos, blen, s)
  {
    if k: nat :| FirstCandidate(buffer, rpos, blen, s, k) && (k + |s|) % INTS != 0 {
      FirstCandidateUnique(buffer, rpos, blen, s, m, k);
    }
  }

  /** A string longer than the contents cannot occur in them. It is found nonetheless if and only if it lies somewhere
      round the allocation; and if it does not, the search for a string that is longer by one byte never returns. */
  lemma LongFind(buffer: Bytes, rpos: nat, wpos: nat, blen: nat, s: Bytes)
    requires ValidAt(rpos, wpos, blen, |buffer|) && 0 < blen < |buffer| && blen < |s| < LIMIT
    ensures forall i: nat :: !OccursAt(Window(buffer, rpos, blen), s, i)
    ensures var r := FindResult(buffer, rpos, wpos, blen, s);
      && (r.Returns? && r.value != 0 <==> StaleMatch(buffer, rpos, blen, s))
      && (r.NeverReturns? <==> |s| == blen + 1 && NoMatch(buffer, rpos, blen, s))
  {
    PositionsMeet(rpos, wpos, blen, |buffer|);
    var m := FirstIsCandidate(buffer, rpos, blen, s);
    if m <= LastStart(blen, |s|) {
      StaleMatchFirst(buffer, rpos, blen, s, m);
    }
  }

  /** The search returns if and only if the positions are equal, the string is not longer than the contents by exactly
      one byte, or a candidate start matches. */
  lemma FindReturns(buffer: Bytes, rpos: nat, wpos: nat, blen: nat, s: Bytes)
    requires ValidAt(rpos, wpos, blen, |buffer|) && |s| < LIMIT
    ensures FindResult(buffer, rpos, wpos, blen, s).Returns? <==>
      rpos == wpos || |s| != blen + 1 || !NoMatch(buffer, rpos, blen, s)
  {
    PositionsMeet(rpos, wpos, blen, |buffer|);
    if rpos != wpos {
      if blen < |s| {
        LongFind(buffer, rpos, wpos, blen, s);
      } else {
        var m := FirstMatchIs(Around(buffer, rpos), s, 0, LastStart(blen, |s|));
      }
    }
  }

  /** For buffers and strings below 2 GiB one turn decides, if the size of the allocation divides 2^64 as a page does;
      and what is found then always ends past the contents. */
  lemma PagedFind(buffer: Bytes, rpos: nat, wpos: nat, blen: nat, s: Bytes)
    requires ValidAt(rpos, wpos, blen, |buffer|) && 0 < blen < |buffer| < INTS / 2 && blen < |s| < INTS / 2
    ensures var r := FindResult(buffer, rpos, wpos, blen, s);
      && (InOneTurn(buffer, rpos, s) ==> r.Returns? && r.value > blen)
      && (SIZES % |buffer| == 0 && !InOneTurn(buffer, rpos, s) ==>
            r == if |s| == blen + 1 then NeverReturns else Returns(0))
  {
    PositionsMeet(rpos, wpos, blen, |buffer|);
    var around := Around(buffer, rpos);
    var m := FirstMatchIs(around, s, 0, LastStart(blen, |s|));
    Converted(m + |s|);
    if SIZES % |buffer| == 0 && m <= LastStart(blen, |s|) && |buffer| <= m {
      DividingTurns(buffer, rpos, s, m);
    }
  }

  ghost predicate InOneTurn(buffer: Bytes, rpos: nat, s: Bytes)
    requires |buffer| > 0
  {
    exists m: nat :: m < |buffer| && MatchAt(Around(buffer, rpos), s, m)
  }

  /** If the allocation divides 2^64, positions do not jump. */
  lemma DividingTurns(buffer: Bytes, rpos: nat, s: Bytes, i: nat)
    requires |buffer| > 0 && SIZES % |buffer| == 0 && 1 <= |s| && MatchAt(Around(buffer, rpos), s, i)
    ensures MatchAt(Around(buffer, rpos), s, i % |buffer|)
  {
    var n := |buffer|;
    var m, q := i % n, i / n;
    forall j: nat | j < |s| ensures SamePlace(n, rpos, i, m, j) {
      assert rpos + (i + j) == (rpos + (m + j)) + n * q;
      WholeTurns(rpos + (m + j), q, n);
      SizeRemainder(rpos + (i + j), n);
      SizeRemainder(rpos + (m + j), n);
    }
    SameMatch(buffer, rpos, s, i, m);
  }

  lemma SizeRemainder(x: nat, n: nat)
    requires n > 0 && SIZES % n == 0
    ensures AsSize(x) % n == x % n
  {
    var k := SIZES / n;
    var t := x / SIZES;
    assert x == AsSize(x) + (n * k) * t;
    assert (n * k) * t == n * (k * t);
    WholeTurns(AsSize(x), k * t, n);
  }

  // ---- When the search is right ----

  /** What the search gets wrong: a string that occurs in a full buffer, one longer than the contents that lies round
      the allocation, one longer by one byte that does not, and one whose first occurrence ends past 2 GiB. */
  ghost predicate Misjudged(buffer: Bytes, rpos: nat, blen: nat, s: Bytes)
    requires rpos < |buffer| && blen <= |buffer|
  {
    var t := Window(buffer, rpos, blen);
    if blen == |buffer| then exists i: nat :: OccursAt(t, s, i)
    else if blen == 0 then false
    else if blen < |s| then StaleMatch(buffer, rpos, blen, s) || (|s| == blen + 1 && NoMatch(buffer, rpos, blen, s))
    else exists i: nat :: FirstAt(t, s, i) && i + |s| >= INTS / 2
  }

  /** For every valid buffer and every string that is not empty, find returns the end of the first occurrence, or 0 if
      there is none, exactly outside these four cases. */
  lemma FindIsRight(buffer: Bytes, rpos: nat, wpos: nat, blen: nat, s: Bytes)
    requires ValidAt(rpos, wpos, blen, |buffer|) && 1 <= |s| < LIMIT
    ensures Right(Window(buffer, rpos, blen), s, FindResult(buffer, rpos, wpos, blen, s)) <==>
      !Misjudged(buffer, rpos, blen, s)
  {
    PositionsMeet(rpos, wpos, blen, |buffer|);
    var t := Window(buffer, rpos, blen);
    if 0 < blen < |buffer| {
      if blen < |s| {
        LongFind(buffer, rpos, wpos, blen, s);
      } else {
        var e := FindIsExact(buffer, rpos, wpos, blen, s);
        ShortMisjudged(t, s, e);
      }
    }
  }

  lemma ShortMisjudged(t: Bytes, s: Bytes, e: nat)
    requires 1 <= |s| && EndOfFirst(t, s, e)
    ensures (exists i: nat :: FirstAt(t, s, i) && i + |s| >= INTS / 2) <==> e >= INTS / 2
  {
    if i: nat :| FirstAt(t, s, i) && i + |s| >= INTS / 2 {
      EndIsUnique(t, s, e, i + |s|);
    }
    if e >= INTS / 2 {
      assert FirstAt(t, s, e - |s|);
    }
  }

  /** A string that occurs is found if and only if the buffer is not full and its end fits an `int`; a full buffer is
      searched like an empty one. */
  lemma FindMisses(buffer: Bytes, rpos: nat, wpos: nat, blen: nat, s: Bytes, i: nat)
    requires ValidAt(rpos, wpos, blen, |buffer|) && 1 <= |s|
    requires FirstAt(Window(buffer, rpos, blen), s, i)
    ensures var r := FindResult(buffer, rpos, wpos, blen, s);
      && (r == Returns(i + |s|) <==> blen < |buffer| && i + |s| < INTS / 2)
      && (blen == |buffer| ==> r == Returns(0))
  {
    PositionsMeet(rpos, wpos, blen, |buffer|);
    if blen < |buffer| {
      var e := FindIsExact(buffer, rpos, wpos, blen, s);
      EndIsUnique(Window(buffer, rpos, blen), s, e, i + |s|);
      Converted(e);
    }
  }

  /** With one byte "a" in the buffer and a stale "b" behind it, "ab" is found. */
  lemma StaleBytesFound()
    ensures ValidAt(0, 1, 1, 3) && FindResult([97, 98, 99], 0, 1, 1, [97, 98]) == Returns(2)
    ensures Misjudged([97, 98, 99], 0, 1, [97, 98])
  {
    var buffer: Bytes := [97, 98, 99];
    var s: Bytes := [97, 98];
    var around := Around(buffer, 0);
    assert AsSize(0) % 3 == 0 && AsSize(1) % 3 == 1;
    assert around(0) == buffer[0] && around(1) == buffer[1];
    assert MatchAt(around, s, 0);
    assert FirstCandidate(buffer, 0, 1, s, 0);
  }

  /** With one byte "a" in the buffer and no "x" anywhere, the search for "xx" never returns. */
  lemma EndlessSearch()
    ensures ValidAt(0, 1, 1, 3) && FindResult([97, 98, 99], 0, 1, 1, [120, 120]) == NeverReturns
    ensures Misjudged([97, 98, 99], 0, 1, [120, 120])
  {
    var buffer: Bytes := [97, 98, 99];
    var s: Bytes := [120, 120];
    forall m: nat ensures !MatchAt(Around(buffer, 0), s, m) {
      assert Around(buffer, 0)(m) in buffer;
    }
    LongFind(buffer, 0, 1, 1, s);
  }

  /** In the full buffer "ab", "b" is not found. */
  lemma FullBufferMissed()
    ensures ValidAt(0, 0, 2, 2) && FindResult([97, 98], 0, 0, 2, [98]) == Returns(0)
    ensures OccursAt(Window([97, 98], 0, 2), [98], 1) && Misjudged([97, 98], 0, 2, [98])
  {
    var t := Window([97, 98], 0, 2);
    assert t[1..2] == [98];
    assert OccursAt(t, [98], 1);
  }

  // ---- The buffer ----

  class RingBuffer {
    var rpos: nat
    var wpos: nat
    var blen: nat
    const alen: nat
    const buffer: array<Byte>

    ghost predicate Valid()
      reads this
    {
      buffer.Length == alen && ValidAt(rpos, wpos, blen, alen)
    }

    ghost function Contents(): Bytes
      requires Valid()
      reads this, buffer
    {
      Window(buffer[..], rpos, blen)
    }

    constructor (size: nat)
      requires size < LIMIT
      ensures fresh(buffer) && alen == size && blen == 0
      // a buffer of size 0 cannot be used: reducing a position would divide by zero
      ensures size > 0 ==> Valid() && Contents() == []
    {
      rpos, wpos, alen, blen := 0, 0, size, 0;
      buffer := new Byte[size](_ => 0);
    }

    /** Store one byte at the write position, which ModPos has yet to reduce. */
    method WriteChar(c: Byte)
      requires buffer.Length == alen && rpos < alen && blen < alen && wpos < 2 * alen
      requires Place(wpos, alen) == Place(rpos + blen, alen)
      modifies this`wpos, this`blen, buffer
      ensures blen == old(blen) + 1 && wpos == old(wpos) + 1
      ensures Window(buffer[..], rpos, blen) == old(Window(buffer[..], rpos, blen)) + [c]
    {
      blen := blen + 1;
      PlaceIsRemainder(wpos, alen);
      buffer[wpos % alen] := c;
      wpos := wpos + 1;
    }

    method Write(s: Bytes) returns (w: Option<nat>)
      requires Valid()
      modifies this, buffer
      ensures Valid()
      ensures rpos == old(rpos)
      ensures w == if old(blen) + |s| <= alen then Some(|s|) else None
      ensures Contents() == Step(alen, old(Contents()), Operation.Write(s))
    {
      if |s| + blen > alen {
        return None;
      }
      ghost var was := Contents();
      var n := 0;
      while n < |s|
        modifies this`wpos, this`blen, buffer
        invariant 0 <= n <= |s| && blen == |was| + n && wpos == Place(rpos + |was|, alen) + n
        invariant Window(buffer[..], rpos, blen) == was + s[..n]
      {
        PlaceIsRemainder(wpos, alen);
        WriteChar(s[n]);
        n := n + 1;
      }
      PlaceIsRemainder(rpos, alen);
      PlaceIsRemainder(wpos, alen);
      ModPos();
      w := Some(n);
    }

    /** Take the positions back into the allocation. */
    method ModPos()
      requires alen > 0
      modifies this`rpos, this`wpos
      ensures rpos == old(rpos) % alen && wpos == old(wpos) % alen
    {
      rpos := rpos % alen;
      wpos := wpos % alen;
    }

    /** Move the read position past `r` bytes. */
    method Advance(r: nat)
      requires Valid() && r <= blen
      modifies this`rpos, this`wpos, this`blen
      ensures Valid() && Contents() == old(Contents())[r..]
    {
      blen := blen - r;
      rpos := rpos + r;
      PlaceIsRemainder(rpos, alen);
      PlaceIsRemainder(wpos, alen);
      ModPos();
    }

    method Discard(count: int) returns (ok: bool)
      requires Valid()
      modifies this`rpos, this`wpos, this`blen
      ensures Valid()
      ensures ok <==> AsSize(count) <= |old(Contents())|
      ensures Contents() == Step(alen, old(Contents()), Operation.Discard(count))
    {
      var r := AsSize(count);
      if r > blen {
        return false;
      }
      Advance(r);
      ok := true;
    }

    /** Read `count` bytes; with `peek` leave them in the buffer. */
    method Read(count: int, peek: bool) returns (r: Option<Bytes>)
      requires Valid()
      modifies this`rpos, this`wpos, this`blen
      ensures Valid()
      ensures r == if AsSize(count) <= |old(Contents())| then Some(old(Contents())[..AsSize(count)]) else None
      ensures Contents() == Step(alen, old(Contents()), if peek then Operation.Peek(count) else Operation.Read(count))
    {
      var n := AsSize(count);
      if n > blen {
        return None;
      }
      ghost var before := Contents();
      var bytes: Bytes;
      if rpos + n > alen {
        bytes := buffer[rpos..alen] + buffer[..n - (alen - rpos)];
      } else {
        bytes := buffer[rpos..rpos + n];
      }
      assert bytes == before[..n];
      if !peek {
        Advance(n);
      }
      r := Some(bytes);
    }

    /** The comparison at one start position. */
    method Compare(s: Bytes, i: nat) returns (m: bool)
      requires Valid()
      ensures m <==> MatchAt(Around(buffer[..], rpos), s, i)
    {
      ghost var around := Around(buffer[..], rpos);
      if buffer[AsSize(rpos + i) % alen] != CharAt(s, 0) {
        return false;
      }
      var j: nat := 1;
      while j < |s|
        invariant 1 <= j
        invariant forall k: nat :: 1 <= k < j && k < |s| ==> around(i + k) == s[k]
      {
        if buffer[AsSize(rpos + (i + j)) % alen] != s[j] {
          assert around(i + j) != s[j];
          return false;
        }
        j := j + 1;
      }
      m := true;
    }

    /** find: every start position up to `blen - l`. A counter that is back at its start finds everything as it was,
        so the loop never ends. */
    method Search(s: Bytes) returns (r: Outcome<nat>)
      requires Valid()
      ensures r == FindResult(buffer[..], rpos, wpos, blen, s)
    {
      if rpos == wpos {
        return Returns(0);
      }
      ghost var around := Around(buffer[..], rpos);
      var i: nat := 0;
      while i <= LastStart(blen, |s|)
        invariant i < SIZES
        invariant FirstMatch(around, s, 0, LastStart(blen, |s|)) == FirstMatch(around, s, i, LastStart(blen, |s|))
        decreases SIZES - i
      {
        var m := Compare(s, i);
        if m {
          return Returns(ThroughInt(AsSize(i + |s|)));
        }
        i := AsSize(i + 1);
        if i == 0 {
          return NeverReturns;
        }
      }
      r := Returns(0);
    }

    /** find: the end of the first occurrence, except in the cases of `Misjudged`. */
    method Find(s: Bytes) returns (r: Outcome<nat>)
      requires Valid()
      ensures 1 <= |s| < LIMIT ==> (Right(Contents(), s, r) <==> !Misjudged(buffer[..], rpos, blen, s))
      ensures |s| < LIMIT ==>
        (r.NeverReturns? <==> rpos != wpos && |s| == blen + 1 && NoMatch(buffer[..], rpos, blen, s))
      ensures blen == 0 || blen == alen ==> r == Returns(0)
    {
      PositionsMeet(rpos, wpos, blen, alen);
      r := Search(s);
      if |s| < LIMIT {
        FindReturns(buffer[..], rpos, wpos, blen, s);
        if 1 <= |s| {
          FindIsRight(buffer[..], rpos, wpos, blen, s);
        }
      }
    }

    /** Read as many bytes as were found. */
    method ReadFront(m: nat) returns (r: Option<Bytes>)
      requires Valid()
      modifies this`rpos, this`wpos, this`blen
      ensures Valid()
      ensures Contents() == Step(alen, old(Contents()), Operation.Read(|BytesOf(r)|))
      ensures old(Contents()) == BytesOf(r) + Contents()
      ensures m <= old(blen) ==> r.Some? && |r.value| == m
    {
      ghost var before := Contents();
      r := Read(m, false);
      ReadSplits(alen, before, m, r);
    }

    /** Read up to and including the first occurrence of a string. Whatever the string, the bytes returned are
        the ones that leave the front of the queue. */
    method ReadUntil(s: Bytes) returns (r: Outcome<Option<Bytes>>)
      requires Valid()
      modifies this`rpos, this`wpos, this`blen
      ensures Valid()
      ensures Contents() == Step(alen, old(Contents()), Operation.Read(|BytesRead(r)|))
      ensures old(Contents()) == BytesRead(r) + Contents()
      ensures 1 <= |s| < LIMIT && !Misjudged(old(buffer[..]), old(rpos), old(blen), s) ==>
        r.Returns? && EndOfFirst(old(Contents()), s, |BytesRead(r)|)
      ensures |s| < LIMIT ==> (r.NeverReturns? <==>
        old(rpos) != old(wpos) && |s| == old(blen) + 1 && NoMatch(old(buffer[..]), old(rpos), old(blen), s))
      ensures old(blen) == 0 || old(blen) == alen ==> r == Returns(None)
    {
      var m := Find(s);
      if m.Returns? && m.value > 0 {
        var bytes := ReadFront(m.value);
        r := Returns(bytes);
      } else {
        r := if m.Returns? then Returns(None) else NeverReturns;
        assert Contents() == BytesRead(r) + Contents();
      }
    }
  }

  function BytesRead(r: Outcome<Option<Bytes>>): Bytes {
    if r.Returns? then BytesOf(r.value) else []
  }

  // ---- Allocation ----

  /** The size of the four counters before the bytes. */
  const HEADER := 32

  datatype NewOutcome = Created(b: RingBuffer) | NoMemory | TooSmall(alen: nat, granted: nat)

  /** rb_new takes any integer for the size, and adds the header to it as a `size_t`. The allocation covers `alen`
      except for sizes from -32 to -1, where the sum wraps: positions then leave the allocation. */
  method New(size: int) returns (r: NewOutcome)
    requires -(SIZES / 2) <= size < SIZES / 2
    ensures r.TooSmall? <==> -HEADER <= size < 0
    ensures r.TooSmall? ==> r.alen == AsSize(size) > r.granted == AsSize(HEADER + r.alen)
    ensures r.NoMemory? <==> size < -HEADER || HEADER + size >= LIMIT
    ensures r.Created? ==> fresh(r.b) && r.b.alen == size && (size > 0 ==> r.b.Valid() && r.b.Contents() == [])
  {
    var alen := AsSize(size);
    var granted := AsSize(HEADER + alen);
    if granted >= LIMIT {
      return NoMemory;
    }
    if granted < HEADER + alen {
      return TooSmall(alen, granted);
    }
    var b := new RingBuffer(alen);
    r := Created(b);
  }
}
