/** The timer scheduler of the epoll event loop (net/server_epoll.lua).

    The clock and the callbacks are inputs: `clock(k)` is the k-th reading of the time during a
    call, and `callback(k)` says what the callback of the k-th timer run does. A callback may add timers, re-arm
    or close any timer, and ask to be called again.
 */
module Timers {
  import opened Wrappers

  /** A closed timer stays in the list with time zero and an empty callback. */
  datatype Timer = Timer(id: nat, time: real, live: bool)

  datatype Op = Add(time: real) | Rearm(id: nat, time: real) | Close(id: nat)

  /** What a callback does, and the timeout it returns if it wants to be called again. */
  datatype Callback = Callback(ops: seq<Op>, again: Option<real>)

  /** One entry of the list that was taken up when its time had come. */
  datatype Firing = Firing(id: nat, due: real, now: real, live: bool)

  // ---- Sorting, earliest last ----

  ghost predicate Sorted(ts: seq<Timer>) {
    forall i, j :: 0 <= i < j < |ts| ==> ts[i].time >= ts[j].time
  }

  /** No live timer comes after a later one; a timer closed since the last sort has time zero. */
  ghost predicate Ordered(ts: seq<Timer>) {
    forall i, j :: 0 <= i < j < |ts| && ts[i].live ==> ts[i].time >= ts[j].time || ts[j].time <= 0.0
  }

  function Insert(ts: seq<Timer>, t: Timer): seq<Timer> {
    if ts == [] then [t]
    else if t.time >= ts[0].time then [t] + ts
    else [ts[0]] + Insert(ts[1..], t)
  }

  function Sort(ts: seq<Timer>): seq<Timer> {
    if ts == [] then [] else Insert(Sort(ts[1..]), ts[0])
  }

  lemma {:induction false} InsertContents(ts: seq<Timer>, t: Timer)
    ensures multiset(Insert(ts, t)) == multiset(ts) + multiset{t}
  {
    if ts != [] {
      assert ts == [ts[0]] + ts[1..];
      if t.time < ts[0].time {
        InsertContents(ts[1..], t);
      }
    }
  }

  /** Nothing in the result is later than the latest of its parts. */
  lemma {:induction false} InsertBounded(ts: seq<Timer>, t: Timer, bound: real)
    requires t.time <= bound && forall i :: 0 <= i < |ts| ==> ts[i].time <= bound
    ensures forall i :: 0 <= i < |Insert(ts, t)| ==> Insert(ts, t)[i].time <= bound
  {
    if ts != [] && t.time < ts[0].time {
      InsertBounded(ts[1..], t, bound);
    }
  }

  lemma {:induction false} InsertSorted(ts: seq<Timer>, t: Timer)
    requires Sorted(ts)
    ensures Sorted(Insert(ts, t))
  {
    if ts != [] && t.time < ts[0].time {
      InsertSorted(ts[1..], t);
      InsertBounded(ts[1..], t, ts[0].time);
    }
  }

  /** `order` may be what sorting makes of the list. */
  ghost predicate SortOf(order: seq<Timer>, ts: seq<Timer>) {
    Sorted(order) && multiset(order) == multiset(ts)
  }

  /** Every list can be sorted. */
  lemma {:induction false} SortSorted(ts: seq<Timer>)
    ensures SortOf(Sort(ts), ts)
  {
    if ts != [] {
      SortSorted(ts[1..]);
      InsertSorted(Sort(ts[1..]), ts[0]);
      InsertContents(Sort(ts[1..]), ts[0]);
      assert ts == [ts[0]] + ts[1..];
    }
  }

  // ---- Re-arming ----

  /** The next due time of a timer that was due at `t`, ran at `now` and asked for `again`. */
  function Rescheduled(t: real, now: real, again: real): real {
    if t + again > now - again then t + again else now + again
  }

  /** The due time after a timer with period `p`, first due at `t`, has run at each of `nows`. */
  function DueAfter(t: real, p: real, nows: seq<real>): real {
    if nows == [] then t
    else Rescheduled(DueAfter(t, p, nows[..|nows| - 1]), nows[|nows| - 1], p)
  }

  /** The k-th run was less than two periods late. */
  ghost predicate InTime(t: real, p: real, nows: seq<real>, k: nat)
    requires k < |nows|
  {
    nows[k] - DueAfter(t, p, nows[..k]) < p + p
  }

  /** `n` periods after `t`. */
  function Phase(t: real, p: real, n: nat): (r: real)
    ensures r == t + n as real * p
  {
    if n == 0 then t else
    assert n as real * p == (n - 1) as real * p + p;
    Phase(t, p, n - 1) + p
  }

  /** A run on time moves the due time by one period, a run two periods late to one period from now, which is later. */
  lemma RescheduledFacts(t: real, now: real, p: real)
    requires p > 0.0
    ensures Rescheduled(t, now, p) >= t + p
    ensures now - t >= p + p ==> Rescheduled(t, now, p) == now + p
    ensures Rescheduled(t, now, p) == t + p <==> now - t < p + p
  {
  }

  /** A repeating timer keeps its original phase exactly as long as it never runs two or more
      periods late; otherwise it has moved to a later one for good. */
  lemma {:induction false} PhaseIsKept(t: real, p: real, nows: seq<real>)
    requires p > 0.0
    ensures DueAfter(t, p, nows) >= Phase(t, p, |nows|)
    ensures DueAfter(t, p, nows) == Phase(t, p, |nows|) <==> forall k :: 0 <= k < |nows| ==> InTime(t, p, nows, k)
  {
    if nows != [] {
      var n := |nows| - 1;
      var pre := nows[..n];
      PhaseIsKept(t, p, pre);
      RescheduledFacts(DueAfter(t, p, pre), nows[n], p);
      forall k | 0 <= k < n ensures InTime(t, p, nows, k) == InTime(t, p, pre, k) {
        assert pre[..k] == nows[..k];
      }
      assert InTime(t, p, nows, n) <==> nows[n] - DueAfter(t, p, pre) < p + p;
      assert Phase(t, p, |nows|) == Phase(t, p, n) + p;
    }
  }

  // ---- The scheduler ----

  function WithTime(ts: seq<Timer>, id: nat, time: real): (r: seq<Timer>)
    ensures |r| == |ts| && forall k :: 0 <= k < |ts| ==> r[k].id == ts[k].id
  {
    seq(|ts|, k requires 0 <= k < |ts| => if ts[k].id == id then ts[k].(time := time) else ts[k])
  }

  function Closed(ts: seq<Timer>, id: nat): (r: seq<Timer>)
    ensures |r| == |ts| && forall k :: 0 <= k < |ts| ==> r[k].id == ts[k].id
  {
    seq(|ts|, k requires 0 <= k < |ts| => if ts[k].id == id then ts[k].(time := 0.0, live := false) else ts[k])
  }

  /** The list and the next id after some operations. */
  datatype State = State(timers: seq<Timer>, nextId: nat)

  function Applied(s: State, ops: seq<Op>): State {
    if ops == [] then s else
    var s' := Applied(s, ops[..|ops| - 1]);
    match ops[|ops| - 1]
    case Add(time) => State(s'.timers + [Timer(s'.nextId, time, true)], s'.nextId + 1)
    case Rearm(id, time) => s'.(timers := WithTime(s'.timers, id, time))
    case Close(id) => s'.(timers := Closed(s'.timers, id))
  }

  /** Operations leave every entry at its place; new ones go to the end. */
  lemma {:induction false} AppliedKeeps(s: State, ops: seq<Op>)
    ensures SameIds(Applied(s, ops).timers, s.timers, |s.timers|)
  {
    if ops != [] {
      AppliedKeeps(s, ops[..|ops| - 1]);
    }
  }

  /** The state after the timer at index `i` was run at `now`: what its callback did, then the
      timer moved to its next time or taken out. */
  function AfterRun(s: State, i: nat, now: real, c: Callback): State
    requires i < |s.timers|
  {
    if !s.timers[i].live then s.(timers := s.timers[..i] + s.timers[i + 1..]) else
    AppliedKeeps(s, c.ops);
    var s' := Applied(s, c.ops);
    s'.(timers :=
      if c.again.None? then s'.timers[..i] + s'.timers[i + 1..]
      else s'.timers[i := s'.timers[i].(time := Rescheduled(s.timers[i].time, now, c.again.value))])
  }

  /** Earlier entries keep their places. */
  lemma AfterRunKeeps(s: State, i: nat, now: real, c: Callback)
    requires i < |s.timers|
    ensures SameIds(AfterRun(s, i, now, c).timers, s.timers, i)
  {
    AppliedKeeps(s, c.ops);
  }

  // ---- Working off the list ----

  /** `run(k)` is the state after the last `k` entries of the list of `s` were taken up, from its end on: the k-th at
      the k-th reading of the clock and with the k-th callback. Earlier entries have kept their places. */
  ghost predicate StepAt(run: nat -> State, s: State, clock: nat -> real, callback: nat -> Callback, k: nat) {
    && (k <= |s.timers| ==> SameIds(run(k).timers, s.timers, |s.timers| - k))
    && (k < |s.timers| ==> run(k + 1) == AfterRun(run(k), |s.timers| - 1 - k, clock(k), callback(k)))
  }

  ghost predicate IsRun(run: nat -> State, s: State, clock: nat -> real, callback: nat -> Callback) {
    run(0) == s && forall k: nat :: StepAt(run, s, clock, callback, k)
  }

  ghost function Worked(s: State, clock: nat -> real, callback: nat -> Callback, k: nat): (r: State)
    requires k <= |s.timers|
    ensures SameIds(r.timers, s.timers, |s.timers| - k)
  {
    if k == 0 then s else
    var r := Worked(s, clock, callback, k - 1);
    var i := |s.timers| - k;
    AfterRunKeeps(r, i, clock(k - 1), callback(k - 1));
    AfterRun(r, i, clock(k - 1), callback(k - 1))
  }

  /** The one run from `s`. */
  ghost function RunFrom(s: State, clock: nat -> real, callback: nat -> Callback): nat -> State {
    (k: nat) => if k <= |s.timers| then Worked(s, clock, callback, k) else s
  }

  lemma RunFromIsRun(s: State, clock: nat -> real, callback: nat -> Callback)
    ensures IsRun(RunFrom(s, clock, callback), s, clock, callback)
  {
    var run := RunFrom(s, clock, callback);
    forall k: nat ensures StepAt(run, s, clock, callback, k) {
      if k < |s.timers| {
        assert Worked(s, clock, callback, k + 1) == AfterRun(Worked(s, clock, callback, k), |s.timers| - 1 - k, clock(k), callback(k));
      }
    }
  }

  /** The entry that is taken up as the k-th, as it is then. */
  ghost function NextUp(run: nat -> State, n: nat, k: nat): Timer
    requires k < n <= k + |run(k).timers|
  {
    run(k).timers[n - 1 - k]
  }

  /** The entries of `s` were taken up from the end of its list, one after the other, each as it was then
      and none before its time. */
  ghost predicate WorkedOff(fired: seq<Firing>, run: nat -> State, s: State, clock: nat -> real) {
    var n := |s.timers|;
    && |fired| <= n
    && forall k :: 0 <= k < |fired| ==> FiredAt(fired[k], run, s, clock, k)
  }

  ghost predicate FiredAt(f: Firing, run: nat -> State, s: State, clock: nat -> real, k: nat)
    requires k < |s.timers|
  {
    var n := |s.timers|;
    && n <= k + |run(k).timers|
    && var t := NextUp(run, n, k);
    f == Firing(s.timers[n - 1 - k].id, t.time, clock(k), t.live) && t.time <= clock(k)
  }

  /** All `n` entries were taken up, or the next one is not due. */
  ghost predicate StoppedRight(run: nat -> State, n: nat, clock: nat -> real, k: nat) {
    k == n || (k < n <= k + |run(k).timers| && NextUp(run, n, k).time > clock(k))
  }

  ghost predicate SameIds(ts: seq<Timer>, list: seq<Timer>, n: nat) {
    n <= |ts| && n <= |list| && forall k :: 0 <= k < n ==> ts[k].id == list[k].id
  }

  /** No live timer is due before `delay` has passed. */
  ghost predicate SafeDelay(ts: seq<Timer>, delay: real, now: real) {
    forall k :: 0 <= k < |ts| && ts[k].live ==> delay <= ts[k].time - now
  }

  /** When the last timer of the list is not due yet, no live timer is. */
  lemma EarliestLast(ts: seq<Timer>, delay: real, now: real)
    requires Ordered(ts) && ts != [] && now >= 0.0
    requires ts[|ts| - 1].time > now && delay <= ts[|ts| - 1].time - now
    ensures SafeDelay(ts, delay, now)
  {
  }

  class Scheduler {
    var timers: seq<Timer>
    var resort: bool
    var nextId: nat

    /** The list is in order unless a sort is due. */
    ghost predicate Valid()
      reads this
    {
      !resort ==> Ordered(timers)
    }

    constructor ()
      ensures Valid() && timers == []
    {
      timers, resort, nextId := [], false, 0;
    }

    /** at, and addtimer with the current time added */
    method At(time: real) returns (id: nat)
      modifies this
      ensures Valid() && resort
      ensures timers == old(timers) + [Timer(id, time, true)] && id == old(nextId) && nextId == id + 1
    {
      id := nextId;
      nextId := nextId + 1;
      timers := timers + [Timer(id, time, true)];
      resort := true;
    }

    /** What setreadtimeout and setwritetimeout do to a running timer. */
    method Rearm(id: nat, time: real)
      modifies this`timers, this`resort
      ensures Valid() && resort && timers == WithTime(old(timers), id, time)
      ensures |timers| == |old(timers)| && forall k :: 0 <= k < |timers| ==>
        timers[k] == if old(timers)[k].id == id then Timer(id, time, old(timers)[k].live) else old(timers)[k]
    {
      timers := WithTime(timers, id, time);
      resort := true;
    }

    /** closetimer */
    method CloseTimer(id: nat)
      requires Valid()
      modifies this`timers
      ensures Valid() && timers == Closed(old(timers), id)
      ensures |timers| == |old(timers)| && forall k :: 0 <= k < |timers| ==>
        timers[k] == if old(timers)[k].id == id then Timer(id, 0.0, false) else old(timers)[k]
    {
      timers := Closed(timers, id);
    }

    /** The effects of one callback: the list may grow at its end, and only if a sort is asked for. */
    method Perform(ops: seq<Op>)
      requires Valid()
      modifies this
      ensures Valid() && (old(resort) ==> resort)
      ensures State(timers, nextId) == Applied(State(old(timers), old(nextId)), ops)
      ensures SameIds(timers, old(timers), |old(timers)|) && (!resort ==> |timers| == |old(timers)|)
    {
      for n := 0 to |ops|
        invariant Valid() && (old(resort) ==> resort)
        invariant State(timers, nextId) == Applied(State(old(timers), old(nextId)), ops[..n])
        invariant SameIds(timers, old(timers), |old(timers)|) && (!resort ==> |timers| == |old(timers)|)
      {
        match ops[n] {
          case Add(time) => var _ := At(time);
          case Rearm(id, time) => Rearm(id, time);
          case Close(id) => CloseTimer(id);
        }
        assert ops[..n + 1][..n] == ops[..n];
      }
      assert ops[..|ops|] == ops;
    }

    /** Sorts the list if that was asked for. `order` is what the sort makes of it. */
    method SortTimers(order: seq<Timer>)
      requires Valid() && (resort ==> SortOf(order, timers))
      modifies this`timers, this`resort
      ensures Valid() && !resort
      ensures timers == (if old(resort) then order else old(timers))
      ensures old(timers) != [] ==> timers != []
    {
      if resort {
        assert old(timers) != [] ==> old(timers)[0] in multiset(order);
        timers := order;
        resort := false;
      }
    }

    /** Runs the timer at index `i` and re-arms or removes it. */
    method RunTimer(i: nat, now: real, c: Callback)
      requires Valid() && i < |timers| && (!resort ==> |timers| == i + 1)
      modifies this
      ensures Valid() && (!resort ==> |timers| == i)
      ensures State(timers, nextId) == AfterRun(State(old(timers), old(nextId)), i, now, c)
    {
      AppliedKeeps(State(timers, nextId), c.ops);
      var timer := timers[i];
      var again := None;
      if timer.live {
        Perform(c.ops);
        again := c.again;
      }
      if again.Some? {
        timers := timers[i := timers[i].(time := Rescheduled(timer.time, now, again.value))];
        resort := true;
      } else {
        timers := timers[..i] + timers[i + 1..];
        assert !resort ==> timers == timers[..i];
      }
    }

    /** Takes up the entry at index `i`, the k-th from the end of the list of `s`. */
    method TakeUp(ghost s: State, ghost run: nat -> State, i: nat, k: nat, now: real, clock: nat -> real, callback: nat -> Callback)
      returns (f: Firing)
      requires Valid() && k < |s.timers| && i == |s.timers| - 1 - k && now == clock(k)
      requires IsRun(run, s, clock, callback) && State(timers, nextId) == run(k)
      requires i < |timers| && timers[i].time <= now && (!resort ==> |timers| == i + 1)
      modifies this
      ensures Valid() && (!resort ==> |timers| == i)
      ensures State(timers, nextId) == run(k + 1) && FiredAt(f, run, s, clock, k)
    {
      assert StepAt(run, s, clock, callback, k);
      var timer := timers[i];
      f := Firing(timer.id, timer.time, now, timer.live);
      RunTimer(i, now, callback(k));
    }

    /** The loop of runtimers, over a list in order. */
    method WorkOff(nextDelay: real, clock: nat -> real, callback: nat -> Callback, ghost run: nat -> State)
      returns (delay: real, now: real, fired: seq<Firing>)
      requires Valid() && !resort && timers != []
      requires forall k :: clock(k) >= 0.0
      requires IsRun(run, State(timers, nextId), clock, callback)
      modifies this
      ensures Valid() && delay <= nextDelay && (!resort ==> SafeDelay(timers, delay, now))
      ensures WorkedOff(fired, run, State(old(timers), old(nextId)), clock)
      ensures State(timers, nextId) == run(|fired|)
      ensures StoppedRight(run, |old(timers)|, clock, |fired|)
    {
      ghost var start := State(timers, nextId);
      delay, now, fired := nextDelay, 0.0, [];
      var i := |timers|;
      while i > 0
        invariant 0 <= i && |fired| == |start.timers| - i
        invariant Valid() && (!resort ==> |timers| == i)
        invariant State(timers, nextId) == run(|fired|)
        invariant WorkedOff(fired, run, start, clock)
      {
        assert StepAt(run, start, clock, callback, |fired|);
        now := clock(|fired|);
        var timer := timers[i - 1];
        if timer.time > now {
          if timer.time - now < delay {
            delay := timer.time - now;
          }
          if !resort {
            EarliestLast(timers, delay, now);
          }
          return;
        }
        var f := TakeUp(start, run, i - 1, |fired|, now, clock, callback);
        fired := fired + [f];
        i := i - 1;
      }
    }

    /** The list as it is when its entries are taken up. */
    ghost function Start(order: seq<Timer>): State
      reads this
    {
      State(if resort then order else timers, nextId)
    }

    /** runtimers. `now` is the last time read. `order` is any order that the sort may leave, which puts timers of the
        same time in no particular order. The list left is the one that the entries taken up and their
        callbacks make of the sorted list, and taking up stops only at an entry that is not due. */
    method RunTimers(nextDelay: real, minWait: real, order: seq<Timer>, clock: nat -> real, callback: nat -> Callback)
      returns (delay: real, now: real, fired: seq<Firing>)
      requires Valid() && (resort ==> SortOf(order, timers))
      requires forall k :: clock(k) >= 0.0
      modifies this
      ensures Valid()
      ensures var s := old(Start(order));
        var run := RunFrom(s, clock, callback);
        && WorkedOff(fired, run, s, clock) && StoppedRight(run, |s.timers|, clock, |fired|)
        && State(timers, nextId) == run(|fired|)
      ensures delay == minWait || (delay <= nextDelay && SafeDelay(timers, delay, now))
      ensures old(timers) != [] ==> delay >= minWait
    {
      delay, now, fired := nextDelay, 0.0, [];
      if timers == [] {
        return;
      }
      ghost var run := RunFrom(Start(order), clock, callback);
      RunFromIsRun(Start(order), clock, callback);
      SortTimers(order);
      delay, now, fired := WorkOff(nextDelay, clock, callback, run);
      if resort || delay < minWait {
        delay := minWait;
      }
    }
  }
}
