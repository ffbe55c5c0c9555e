/** What a connection of the select loop goes through when its queue has drained (net/server_select.lua): the
    listener's callback may write, and may close the connection, which sends again and may call back again.

    Only what decides about the connection is kept here: the bytes themselves are the matter of `ByteStream`.
 */
module DrainCallbacks {
  /** What a socket answers to a send: everything taken, or the number of bytes taken and why no more. */
  datatype SendResult = AllSent | Partial(taken: nat, error: SendError)
  datatype SendError = WantWrite | Timeout | WantRead | Fatal

  /** A callback in its steps. A close is given with the answer to the send that it tries, and with the
      callback that follows if all is sent. */
  datatype Callback =
    | End
    | Write(data: string, rest: Callback)
    | Close(result: SendResult, drain: Callback, rest: Callback)

  /** `queued` tells that the queue is not empty and `length` counts its bytes; `bufferLen` counts those of refused
      writes too. `lost` tells that a queue was discarded, and `dropped` counts its bytes. */
  datatype Control =
    Control(open: bool, toClose: bool, queued: bool, length: nat, bufferLen: nat, lost: bool, dropped: nat)

  predicate Sound(c: Control) {
    c.length <= c.bufferLen && (!c.queued ==> c.length == 0) && (!c.open ==> !c.queued)
  }

  /** A connection that waits to be closed has something queued. */
  predicate Settled(c: Control) {
    c.open && c.toClose ==> c.queued
  }

  /** How many of `length` bytes a send takes. */
  function Portion(result: SendResult, length: nat): (n: nat)
    ensures n <= length
  {
    match result
    case AllSent => length
    case Partial(taken, _) => if taken <= length then taken else length
  }

  /** Exactly as many as the socket says. */
  lemma PortionIsTaken(length: nat, taken: nat, error: SendError)
    requires taken <= length
    ensures Portion(AllSent, length) == length && Portion(Partial(taken, error), length) == taken
  {
  }

  // ---- The steps ----

  function Wrote(c: Control, max: nat, n: nat): (r: Control)
    requires Sound(c)
    ensures Sound(r)
  {
    if !c.open then c
    else if c.bufferLen + n > max then c.(bufferLen := c.bufferLen + n)
    else c.(bufferLen := c.bufferLen + n, queued := true, length := c.length + n)
  }

  function Transmitted(c: Control, result: SendResult): (r: Control)
    requires Sound(c) && c.open && c.queued
    ensures Sound(r) && r.open
  {
    if result == AllSent then c.(queued := false, length := 0, bufferLen := 0)
    else
      var n := Portion(result, c.length);
      c.(length := c.length - n, bufferLen := c.bufferLen - n)
  }

  /** Closed by force: what is queued is discarded. */
  function Forced(c: Control): (r: Control)
    requires Sound(c)
    ensures Sound(r) && !r.open
  {
    if c.open then c.(open := false, lost := c.queued, dropped := c.length, queued := false, length := 0) else c
  }

  function Failed(c: Control): (r: Control)
    requires Sound(c)
    ensures Sound(r) && !r.open
  {
    c.(open := false, lost := true, dropped := c.length, queued := false, length := 0)
  }

  predicate IsFatal(result: SendResult) {
    result.Partial? && (result.error == WantRead || result.error == Fatal)
  }

  /** How a call ends: normally, with a socket error, or with an error raised in the program. */
  datatype Ending = Normal | Broken | Raised

  /** The end of a full send, after the callback. A connection that waits to be closed is closed by force, and if
      the callback has closed it already, there is no handler left to call. */
  function Finished(c: Control): (r: (Control, Ending))
    requires Sound(c)
    ensures Sound(r.0)
  {
    if !c.toClose then (c, Normal) else if !c.open then (c, Raised) else (Forced(c), Normal)
  }

  /** _sendbuffer */
  function SentBuffer(c: Control, max: nat, result: SendResult, drain: Callback): (r: (Control, Ending))
    requires Sound(c) && c.open && c.queued
    ensures Sound(r.0) && (r.1 != Raised ==> Settled(r.0))
    decreases drain, 1
  {
    var t := Transmitted(c, result);
    if result == AllSent then
      var (d, raised) := Performed(t, max, drain);
      if raised then (d, Raised) else Finished(d)
    else if IsFatal(result) then (Failed(t), Broken)
    else (t, Normal)
  }

  /** A callback: the connection after it, and whether it raised an error. */
  function Performed(c: Control, max: nat, calls: Callback): (r: (Control, bool))
    requires Sound(c)
    ensures Sound(r.0)
    decreases calls, 0
  {
    match calls
    case End => (c, false)
    case Write(data, rest) => Performed(Wrote(c, max, |data|), max, rest)
    case Close(result, drain, rest) =>
      var (d, ending) := ClosedBy(c, max, result, drain);
      if ending == Raised then (d, true) else Performed(d, max, rest)
  }

  /** close */
  function ClosedBy(c: Control, max: nat, result: SendResult, drain: Callback): (r: (Control, Ending))
    requires Sound(c)
    ensures Sound(r.0) && (r.1 != Raised ==> Settled(r.0))
    decreases drain, 2
  {
    if !c.open then (c, Normal)
    else if !c.queued then (c.(open := false), Normal)
    else
      var (d, ending) := SentBuffer(c, max, result, drain);
      if ending == Raised then (d, Raised)
      else if d.queued then (d.(toClose := true), Normal)
      else (d.(open := false), Normal)
  }

  // ---- When data is discarded ----

  /** After a full send data is discarded without a socket error if and only if the connection waits to be closed
      after the callback and something is queued then; and an error is raised if and only if the callback raised one
      or has closed a connection that waited to be closed. */
  lemma FullSendLoss(c: Control, max: nat, drain: Callback)
    requires Sound(c) && c.open && c.queued
    ensures var (d, raised) := Performed(Transmitted(c, AllSent), max, drain);
      var (r, ending) := SentBuffer(c, max, AllSent, drain);
      && (r.lost <==> if !raised && d.open && d.toClose then d.queued else d.lost)
      && (ending == Raised <==> raised || (d.toClose && !d.open))
  {
  }

  /** The callback does not close. */
  predicate Quiet(calls: Callback) {
    match calls
    case End => true
    case Write(_, rest) => Quiet(rest)
    case Close(_, _, _) => false
  }

  /** One of the callback's writes fits the send limit. */
  predicate Accepts(bufferLen: nat, max: nat, calls: Callback)
    requires Quiet(calls)
    decreases calls
  {
    calls.Write? && (bufferLen + |calls.data| <= max || Accepts(bufferLen + |calls.data|, max, calls.rest))
  }

  lemma {:induction false} QuietCallback(c: Control, max: nat, calls: Callback)
    requires Sound(c) && c.open && Quiet(calls)
    ensures var (d, raised) := Performed(c, max, calls);
      && !raised && d.open && d.toClose == c.toClose && d.lost == c.lost
      && (d.queued <==> c.queued || Accepts(c.bufferLen, max, calls))
    decreases calls
  {
    if calls.Write? {
      QuietCallback(Wrote(c, max, |calls.data|), max, calls.rest);
    }
  }

  /** With a callback that does not close, a full send releases the connection if and only if it waits to be closed, and
      discards data if and only if the callback has written something nonetheless. */
  lemma QuietSend(c: Control, max: nat, drain: Callback)
    requires Sound(c) && c.open && c.queued && !c.lost && Quiet(drain)
    ensures var (r, ending) := SentBuffer(c, max, AllSent, drain);
      && ending == Normal
      && (r.open <==> !c.toClose)
      && (r.lost <==> c.toClose && Accepts(0, max, drain))
  {
    QuietCallback(Transmitted(c, AllSent), max, drain);
  }

  /** A graceful close with such a callback loses data only by a socket error, and waits for what could not be sent or
      was written meanwhile. */
  lemma QuietClose(c: Control, max: nat, result: SendResult, drain: Callback)
    requires Sound(c) && c.open && !c.toClose && !c.lost && Quiet(drain)
    ensures var (r, ending) := ClosedBy(c, max, result, drain);
      && ending != Raised
      && (r.lost <==> c.queued && result.Partial? && result.error != WantWrite && result.error != Timeout)
      && (r.open <==>
            (c.queued && if result == AllSent then Accepts(0, max, drain) else result.error == WantWrite || result.error == Timeout))
      && (r.open ==> r.toClose)
  {
    if c.queued {
      QuietCallback(Transmitted(c, AllSent), max, drain);
    }
  }

  /** A callback that writes something that fits and then closes: the rest of it is discarded if and only if the socket
      does not take all of it at once. */
  lemma WriteThenClose(c: Control, max: nat, data: string, nested: SendResult)
    requires Sound(c) && c.open && c.queued && !c.toClose && !c.lost && |data| <= max
    ensures var (r, ending) := SentBuffer(c, max, AllSent, Write(data, Close(nested, End, End)));
      && ending == Normal && !r.open && (r.lost <==> nested.Partial?)
      && (nested.Partial? ==> r.dropped == |data| - Portion(nested, |data|))
  {
    var t := Transmitted(c, AllSent);
    var w := Wrote(t, max, |data|);
    assert Performed(t, max, Write(data, Close(nested, End, End))) == Performed(w, max, Close(nested, End, End));
    var (d, ending) := ClosedBy(w, max, nested, End);
    assert Performed(d, max, End) == (d, false);
  }

  /** A callback that closes a connection which waits to be closed makes the send raise an error. */
  lemma CloseTwice(c: Control, max: nat, nested: SendResult)
    requires Sound(c) && c.open && c.queued && c.toClose
    ensures SentBuffer(c, max, AllSent, Close(nested, End, End)).1 == Raised
  {
    var t := Transmitted(c, AllSent);
    assert ClosedBy(t, max, nested, End) == (t.(open := false), Normal);
    assert Performed(t.(open := false), max, End) == (t.(open := false), false);
  }
}
