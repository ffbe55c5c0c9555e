/** The request-id window of a BOSH session (section 14 of XEP-0124, plugins/mod_bosh.lua):
    which of the arriving requests have their stanzas dispatched, and in which order.
 */
module BoshWindow {
  /** `rid` is the last request id accepted; `deferred` says that request
      `rid + 2` has arrived early and waits. */
  datatype Window = Window(rid: int, deferred: bool)

  datatype Verdict = Process | Defer | Ignore

  function Classify(w: Window, rid: int): Verdict {
    if rid - w.rid == 1 then Process else if rid - w.rid == 2 then Defer else Ignore
  }

  /** An ignored request that closes while another waits releases the waiting one. */
  predicate EarlyRelease(w: Window, rid: int) {
    w.deferred && Classify(w, rid) == Ignore
  }

  function Next(w: Window, rid: int): Window {
    match Classify(w, rid)
    case Process => Window(if w.deferred then rid + 1 else rid, false)
    case Defer => w.(deferred := true)
    case Ignore => if w.deferred then Window(w.rid + 2, false) else w
  }

  /** The request ids whose stanzas are dispatched when `rid` arrives, in order. */
  function Released(w: Window, rid: int): seq<int> {
    match Classify(w, rid)
    case Process => if w.deferred then [rid, rid + 1] else [rid]
    case Defer => []
    case Ignore => if w.deferred then [w.rid + 2] else []
  }

  /** The window after a session that started with `start` as its previous id has seen `arrivals`. */
  ghost function After(start: int, arrivals: seq<int>): Window {
    if arrivals == [] then Window(start, false)
    else Next(After(start, arrivals[..|arrivals| - 1]), arrivals[|arrivals| - 1])
  }

  ghost function Dispatched(start: int, arrivals: seq<int>): seq<int> {
    if arrivals == [] then [] else
    var pre := arrivals[..|arrivals| - 1];
    Dispatched(start, pre) + Released(After(start, pre), arrivals[|arrivals| - 1])
  }

  /** How often an ignored request released a waiting one. */
  ghost function EarlyReleases(start: int, arrivals: seq<int>): nat {
    if arrivals == [] then 0 else
    var pre := arrivals[..|arrivals| - 1];
    EarlyReleases(start, pre) + if EarlyRelease(After(start, pre), arrivals[|arrivals| - 1]) then 1 else 0
  }

  ghost predicate StrictlyIncreasing(s: seq<int>) {
    forall i, j :: 0 <= i < j < |s| ==> s[i] < s[j]
  }

  /** The ids first, first + 1, ... of a run without gaps. */
  function Consecutive(first: int, n: nat): (s: seq<int>)
    ensures |s| == n && forall i :: 0 <= i < n ==> s[i] == first + i
  {
    seq(n, i => first + i)
  }

  lemma ReleasedFacts(w: Window, rid: int)
    ensures w.rid <= Next(w, rid).rid
    ensures StrictlyIncreasing(Released(w, rid))
    ensures forall r :: r in Released(w, rid) ==> w.rid < r <= Next(w, rid).rid
    ensures forall r :: r in Released(w, rid) ==> r == rid || (w.deferred && r == w.rid + 2)
    ensures Next(w, rid).deferred ==> Next(w, rid).rid == w.rid && (rid == w.rid + 2 || w.deferred)
  {
  }

  lemma IncreasingAppend(a: seq<int>, m: int, b: seq<int>)
    requires StrictlyIncreasing(a) && StrictlyIncreasing(b)
    requires forall r :: r in a ==> r <= m
    requires forall r :: r in b ==> m < r
    ensures StrictlyIncreasing(a + b)
  {
    forall i, j | 0 <= i < j < |a + b| ensures (a + b)[i] < (a + b)[j] {
      assert i < |a| ==> (a + b)[i] in a;
      assert j >= |a| ==> (a + b)[j] in b;
    }
  }

  /** For every order of arrival, repeated and stray requests included, dispatched ids only
      grow, so no request is dispatched twice or after a later one. */
  lemma {:induction false} DispatchIsOrdered(start: int, arrivals: seq<int>)
    ensures start <= After(start, arrivals).rid
    ensures StrictlyIncreasing(Dispatched(start, arrivals))
    ensures forall r :: r in Dispatched(start, arrivals) ==> start < r <= After(start, arrivals).rid
    ensures var d := Dispatched(start, arrivals);
      After(start, arrivals).rid == if d == [] then start else d[|d| - 1]
  {
    if arrivals != [] {
      var pre, rid := arrivals[..|arrivals| - 1], arrivals[|arrivals| - 1];
      DispatchIsOrdered(start, pre);
      ReleasedFacts(After(start, pre), rid);
      IncreasingAppend(Dispatched(start, pre), After(start, pre).rid, Released(After(start, pre), rid));
    }
  }

  /** Only requests that arrived are dispatched. */
  lemma {:induction false} DispatchHasArrived(start: int, arrivals: seq<int>)
    ensures forall r :: r in Dispatched(start, arrivals) ==> r in arrivals
    ensures After(start, arrivals).deferred ==> After(start, arrivals).rid + 2 in arrivals
  {
    if arrivals != [] {
      var pre, rid := arrivals[..|arrivals| - 1], arrivals[|arrivals| - 1];
      DispatchHasArrived(start, pre);
      ReleasedFacts(After(start, pre), rid);
      assert arrivals == pre + [rid];
    }
  }

  /** Every id up to the window's is accounted for: dispatched, or skipped by exactly one early release. */
  lemma {:induction false} GapCount(start: int, arrivals: seq<int>)
    ensures After(start, arrivals).rid - start == |Dispatched(start, arrivals)| + EarlyReleases(start, arrivals)
  {
    if arrivals != [] {
      GapCount(start, arrivals[..|arrivals| - 1]);
    }
  }

  /** Dispatch is free of gaps exactly when no ignored request arrived while another was waiting. */
  lemma GapFree(start: int, arrivals: seq<int>)
    ensures EarlyReleases(start, arrivals) == 0 <==>
      Dispatched(start, arrivals) == Consecutive(start + 1, |Dispatched(start, arrivals)|)
  {
    GapCount(start, arrivals);
    DispatchIsOrdered(start, arrivals);
    var d := Dispatched(start, arrivals);
    if EarlyReleases(start, arrivals) == 0 {
      IncreasingIsDense(start, d);
    }
  }

  /** The request after the next comes early, and then the last one again: the next one is passed over. */
  lemma GapExample(start: int)
    ensures Dispatched(start, [start + 2, start]) == [start + 2] && EarlyReleases(start, [start + 2, start]) == 1
  {
    var one, two := [start + 2], [start + 2, start];
    assert one[..0] == [] && two[..1] == one;
    assert After(start, []) == Window(start, false);
    assert After(start, one) == Window(start, true) && Dispatched(start, one) == [] && EarlyReleases(start, one) == 0;
  }

  /** Increasing ids that end at their own number leave none out. */
  lemma {:induction false} IncreasingIsDense(start: int, d: seq<int>)
    requires StrictlyIncreasing(d) && forall r :: r in d ==> start < r
    requires d != [] ==> d[|d| - 1] <= start + |d|
    ensures d == Consecutive(start + 1, |d|)
  {
    if d != [] {
      var n := |d| - 1;
      assert forall i :: 0 <= i < n ==> d[i] in d;
      if n > 0 {
        assert d[n - 1] < d[n];
      }
      IncreasingIsDense(start, d[..n]);
      assert d[n] in d;
      assert n > 0 ==> d[n - 1] == start + n;
    }
  }

  /** Requests of which neighbours may have been swapped in transit. */
  function Swapped(first: int, swaps: seq<bool>): seq<int>
    decreases swaps
  {
    if swaps == [] then []
    else if swaps[0] then [first + 1, first] + Swapped(first + 2, swaps[1..])
    else [first] + Swapped(first + 1, swaps[1..])
  }

  /** How many requests `Swapped` lists. */
  function Sent(swaps: seq<bool>): nat {
    if swaps == [] then 0 else (if swaps[0] then 2 else 1) + Sent(swaps[1..])
  }

  lemma {:induction false} AfterConcat(start: int, a: seq<int>, b: seq<int>)
    requires !After(start, a).deferred
    ensures After(start, a + b) == After(After(start, a).rid, b)
  {
    if b == [] {
      assert a + b == a;
    } else {
      AfterConcat(start, a, b[..|b| - 1]);
      assert (a + b)[..|a + b| - 1] == a + b[..|b| - 1];
    }
  }

  lemma {:induction false} DispatchedConcat(start: int, a: seq<int>, b: seq<int>)
    requires !After(start, a).deferred
    ensures Dispatched(start, a + b) == Dispatched(start, a) + Dispatched(After(start, a).rid, b)
  {
    if b == [] {
      assert a + b == a;
    } else {
      var pre, rid := b[..|b| - 1], b[|b| - 1];
      DispatchedConcat(start, a, pre);
      AfterConcat(start, a, pre);
      assert (a + b)[..|a + b| - 1] == a + pre;
      var more := Released(After(start, a + pre), rid);
      assert Dispatched(start, a + b) == Dispatched(start, a + pre) + more;
      assert Dispatched(After(start, a).rid, b) == Dispatched(After(start, a).rid, pre) + more;
      Associative(Dispatched(start, a), Dispatched(After(start, a).rid, pre), more);
    }
  }

  lemma Associative(a: seq<int>, b: seq<int>, c: seq<int>)
    ensures (a + b) + c == a + (b + c)
  {
  }

  lemma ConsecutiveConcat(first: int, m: nat, n: nat)
    ensures Consecutive(first, m) + Consecutive(first + m, n) == Consecutive(first, m + n)
  {
  }

  lemma HeadIsRepaired(start: int, swap: bool)
    ensures var head := if swap then [start + 2, start + 1] else [start + 1];
      && After(start, head) == Window(start + |head|, false)
      && Dispatched(start, head) == Consecutive(start + 1, |head|)
  {
    var w := Window(start, false);
    assert After(start, []) == w && Dispatched(start, []) == [];
    var one := [if swap then start + 2 else start + 1];
    assert one[..0] == [];
    assert After(start, one) == Next(w, one[0]) && Dispatched(start, one) == Released(w, one[0]);
    if swap {
      var two := [start + 2, start + 1];
      assert two[..1] == one;
      assert After(start, two) == Next(Next(w, start + 2), start + 1);
      assert Dispatched(start, two) == [start + 1, start + 2];
    }
  }

  /** Every request that travelled at most one place out of order is dispatched, in the order of the ids. */
  lemma {:induction false} SwapsAreRepaired(start: int, swaps: seq<bool>)
    ensures After(start, Swapped(start + 1, swaps)) == Window(start + Sent(swaps), false)
    ensures Dispatched(start, Swapped(start + 1, swaps)) == Consecutive(start + 1, Sent(swaps))
    decreases swaps
  {
    if swaps != [] {
      var head := if swaps[0] then [start + 2, start + 1] else [start + 1];
      HeadIsRepaired(start, swaps[0]);
      var rest := Swapped(start + |head| + 1, swaps[1..]);
      SwapsAreRepaired(start + |head|, swaps[1..]);
      AfterConcat(start, head, rest);
      DispatchedConcat(start, head, rest);
      ConsecutiveConcat(start + 1, |head|, Sent(swaps[1..]));
      assert Swapped(start + 1, swaps) == head + rest;
    }
  }
}
