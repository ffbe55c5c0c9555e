/** A BOSH session (plugins/mod_bosh.lua): requests of an HTTP client carry stanzas in,
    and the responses to held requests carry stanzas out.

    XML parsing, timers and the HTTP server are outside the model. A request is well formed;
    the stanzas it carries are given with the texts the server passes to `session.send` while
    it handles them.
 */
module Bosh {
  import opened Wrappers
  import opened Logs
  import BoshWindow
  import opened BoshHeld

  /** A stanza of a request body, with what the server sends while handling it. */
  datatype Stanza = Stanza(content: string, replies: seq<string>)

  /** A response body to request `rid`; `first` marks the one that carries the session parameters. */
  datatype Response = Response(rid: int, first: bool, terminate: bool, text: string)

  datatype Deferred = Deferred(rid: int, stanzas: seq<Stanza>, terminate: bool)

  /** The stanzas of one request, as they were handed to the server. */
  datatype Dispatch = Dispatch(rid: int, stanzas: seq<Stanza>)

  /** The texts of some responses, in the order they were sent. */
  function Text(responses: Log<Response>): string {
    match responses
    case Empty => ""
    case Then(before, last) => Text(before) + last.text
  }

  /** Everything said so far: what was sent, then what is still in the buffer. */
  function Said(responses: Log<Response>, buffer: Log<string>): string {
    Text(responses) + Concat(buffer)
  }

  lemma SaidMore(responses: Log<Response>, buffer: Log<string>, s: string)
    ensures Said(responses, Then(buffer, s)) == Said(responses, buffer) + s
  {
  }

  lemma SaidNothing(responses: Log<Response>, buffer: Log<string>)
    ensures Said(responses, buffer) + "" == Said(responses, buffer)
  {
  }

  lemma SaidOut(responses: Log<Response>, r: Response, buffer: Log<string>)
    requires r.text == Concat(buffer)
    ensures Said(Then(responses, r), Empty) == Said(responses, buffer)
  {
  }

  lemma SaidAsOne(responses: Log<Response>, buffer: Log<string>)
    ensures Said(responses, Empty) + Concat(buffer) == Said(responses, buffer)
  {
  }

  /** The request ids of a log of dispatches. */
  ghost function Rids(log: Log<Dispatch>): seq<int> {
    match log
    case Empty => []
    case Then(before, last) => Rids(before) + [last.rid]
  }

  /** Everything the server sends while handling some stanzas. */
  function Replies(log: Log<string>, stanzas: seq<Stanza>): Log<string> {
    if stanzas == [] then log
    else Extend(Replies(log, stanzas[..|stanzas| - 1]), stanzas[|stanzas| - 1].replies)
  }

  /** How many texts the server sends while handling some stanzas. */
  function Count(stanzas: seq<Stanza>): nat {
    if stanzas == [] then 0 else Count(stanzas[..|stanzas| - 1]) + |stanzas[|stanzas| - 1].replies|
  }

  lemma OneMoreStanza(log: Log<string>, stanzas: seq<Stanza>, i: nat)
    requires i < |stanzas|
    ensures Replies(log, stanzas[..i + 1]) == Extend(Replies(log, stanzas[..i]), stanzas[i].replies)
    ensures Count(stanzas[..i + 1]) == Count(stanzas[..i]) + |stanzas[i].replies|
  {
    assert stanzas[..i + 1][..i] == stanzas[..i];
  }

  /** The response cache: the most recent response first, at most one more than the requests held. */
  datatype Cache = Cache(recent: Option<Response>, older: Option<Response>)

  function Remember(c: Cache, r: Response): Cache {
    if c.recent.Some? && c.recent.value.rid != r.rid then Cache(Some(r), c.recent)
    else c.(recent := Some(r))
  }

  function Lookup(c: Cache, rid: int): Option<Response> {
    if c.recent.Some? && c.recent.value.rid == rid then c.recent
    else if c.older.Some? && c.older.value.rid == rid then c.older
    else None
  }

  /** The requests that some responses were sent for. */
  function Recipients(answers: Log<Response>): Log<int> {
    match answers
    case Empty => Empty
    case Then(before, last) => Then(Recipients(before), last.rid)
  }

  /** The last response sent. */
  function Latest(answers: Log<Response>): Option<Response> {
    if answers.Empty? then None else Some(answers.last)
  }

  /** The last response sent for a request other than `rid`. */
  function LatestBut(answers: Log<Response>, rid: int): Option<Response> {
    if answers.Empty? then None
    else if answers.last.rid != rid then Some(answers.last)
    else LatestBut(answers.before, rid)
  }

  /** The last two requests answered are cached, each with its latest response. */
  ghost predicate Cached(c: Cache, answers: Log<Response>) {
    && c.recent == Latest(answers)
    && c.older == if answers.Empty? then None else LatestBut(answers, answers.last.rid)
  }

  /** The cache and the list of requests answered follow from the responses sent. */
  ghost predicate Kept(c: Cache, answers: Log<Response>, answered: Log<int>) {
    Cached(c, answers) && Recipients(answers) == answered
  }

  lemma {:induction false} LatestButSent(answers: Log<Response>, rid: int)
    ensures var r := LatestBut(answers, rid); r.Some? ==> r.value.rid != rid && Has(answers, r.value)
  {
    if answers.Then? {
      LatestButSent(answers.before, rid);
    }
  }

  lemma RememberKeeps(c: Cache, answers: Log<Response>, answered: Log<int>, r: Response)
    requires Kept(c, answers, answered)
    ensures Kept(Remember(c, r), Then(answers, r), Then(answered, r.rid))
  {
  }

  /** What becomes of a request, told from the last id accepted and the responses sent so far: the next one is
      processed and the one after it deferred; any other is replayed if it is one of the last two answered, held
      again if it is the last one accepted, and refused otherwise. */
  function OutcomeFor(rid: int, answers: Log<Response>, requestRid: int): Outcome {
    if requestRid == rid + 1 then Processed
    else if requestRid == rid + 2 then Postponed
    else if answers.Then? && answers.last.rid == requestRid then Replayed(answers.last)
    else if answers.Then? && IsFor(LatestBut(answers, answers.last.rid), requestRid) then
      Replayed(LatestBut(answers, answers.last.rid).value)
    else if requestRid == rid then HeldAgain
    else OutOfRange
  }

  predicate IsFor(r: Option<Response>, rid: int) {
    r.Some? && r.value.rid == rid
  }

  /** The cache decides as the responses sent do. */
  lemma JudgeIsExact(rid: int, cache: Cache, requestRid: int, answers: Log<Response>)
    requires Cached(cache, answers)
    ensures Judge(rid, cache, requestRid) == OutcomeFor(rid, answers, requestRid)
  {
  }

  /** Every other element, from the first. */
  function Evens(s: seq<int>): seq<int> {
    seq((|s| + 1) / 2, i requires 0 <= i < (|s| + 1) / 2 => s[i + i])
  }

  /** Every other element, from the second. */
  function Odds(s: seq<int>): seq<int> {
    seq(|s| / 2, i requires 0 <= i < |s| / 2 => s[i + i + 1])
  }

  datatype Outcome = Processed | Postponed | Replayed(response: Response) | HeldAgain | OutOfRange

  /** What streamopened decides from the distance to the last id and the response cache. */
  function Judge(rid: int, cache: Cache, requestRid: int): Outcome {
    if requestRid - rid == 1 then Processed
    else if requestRid - rid == 2 then Postponed
    else if Lookup(cache, requestRid).Some? then Replayed(Lookup(cache, requestRid).value)
    else if requestRid == rid then HeldAgain
    else OutOfRange
  }

  /** What is dispatched when a request closes: its own stanzas if it was in sequence,
      then those of the waiting request unless the closing one has just taken its place. */
  function LogAfter(log: Log<Dispatch>, deferred: Option<Deferred>, outcome: Outcome, rid: int, stanzas: seq<Stanza>): Log<Dispatch> {
    var own := if outcome == Processed then Then(log, Dispatch(rid, stanzas)) else log;
    if outcome != Postponed && deferred.Some? then Then(own, Dispatch(deferred.value.rid, deferred.value.stanzas)) else own
  }

  /** What the server sends meanwhile, in the same order. */
  function AcceptedAfter(log: Log<string>, deferred: Option<Deferred>, outcome: Outcome, opening: seq<string>, stanzas: seq<Stanza>): Log<string> {
    var own := if outcome == Processed then Replies(Extend(log, opening), stanzas) else log;
    if outcome != Postponed && deferred.Some? then Replies(own, deferred.value.stanzas) else own
  }

  /** The ids dispatched are those that the window releases. */
  lemma LogIsReleased(log: Log<Dispatch>, rid: int, deferred: Option<Deferred>, cache: Cache, requestRid: int, stanzas: seq<Stanza>)
    requires deferred.Some? ==> deferred.value.rid == rid + 2
    ensures Rids(LogAfter(log, deferred, Judge(rid, cache, requestRid), requestRid, stanzas)) ==
      Rids(log) + BoshWindow.Released(BoshWindow.Window(rid, deferred.Some?), requestRid)
  {
  }

  /** The closing request, or the waiting one it releases, ends the session. */
  predicate Ends(deferred: Option<Deferred>, outcome: Outcome, terminating: bool) {
    (outcome == Processed && terminating) || (outcome != Postponed && deferred.Some? && deferred.value.terminate)
  }

  function OpenedAs(o: Output, outcome: Outcome, rid: int, opening: seq<string>, stanzas: seq<Stanza>): Output {
    Opened(o, if outcome == Processed || outcome == HeldAgain then Some(rid) else None,
           outcome == Processed, |opening| + Count(stanzas))
  }

  function ClosedAs(o: Output, outcome: Outcome, deferred: Option<Deferred>): Output {
    if outcome == Postponed || deferred.None? then Closed(o, None, outcome == Processed, 0)
    else Closed(o, Some(deferred.value.rid), outcome == Processed, Count(deferred.value.stanzas))
  }

  /** Which requests are held after a request, and whether texts wait. */
  function HeldAfter(o: Output, deferred: Option<Deferred>, outcome: Outcome, rid: int,
                     opening: seq<string>, stanzas: seq<Stanza>): Output {
    Trim(ClosedAs(OpenedAs(o, outcome, rid, opening, stanzas), outcome, deferred))
  }

  lemma HeldAfterBounded(o: Output, deferred: Option<Deferred>, outcome: Outcome, rid: int,
                         opening: seq<string>, stanzas: seq<Stanza>)
    requires Within(o, deferred.Some?)
    ensures Within(HeldAfter(o, deferred, outcome, rid, opening, stanzas), outcome == Postponed)
  {
    var releases := outcome != Postponed && deferred.Some?;
    BodyKeepsBound(o, deferred.Some?, if outcome == Processed || outcome == HeldAgain then Some(rid) else None,
                   outcome == Processed, |opening| + Count(stanzas),
                   if releases then Some(deferred.value.rid) else None,
                   if releases then Count(deferred.value.stanzas) else 0, outcome == Postponed);
  }

  // ---- One request body ----

  /** What a request body changes in a session. */
  datatype Core = Core(rid: int, deferred: Option<Deferred>, terminate: bool, dispatched: Log<Dispatch>,
                       accepted: Log<string>, output: Output)

  /** The request in sequence is accepted, and its stanzas are handled. */
  function ProcessedCore(c: Core, rid: int, stanzas: seq<Stanza>, terminating: bool, opening: seq<string>): Core {
    Core(rid, c.deferred, c.terminate || terminating, Then(c.dispatched, Dispatch(rid, stanzas)),
         Replies(Extend(c.accepted, opening), stanzas),
         Sent(Hold(c.output, rid), true, |opening| + Count(stanzas)))
  }

  function OpenedCore(c: Core, outcome: Outcome, rid: int, stanzas: seq<Stanza>, terminating: bool, opening: seq<string>): Core {
    match outcome
    case Processed => ProcessedCore(c, rid, stanzas, terminating, opening)
    case Postponed => c.(deferred := Some(Deferred(rid, stanzas, terminating)))
    case HeldAgain => c.(output := Hold(c.output, rid))
    case _ => c
  }

  /** The waiting request is processed as if it had come now. */
  function ReleasedCore(c: Core, processing: bool): Core
    requires c.deferred.Some?
  {
    var d := c.deferred.value;
    Core(d.rid, None, c.terminate || d.terminate, Then(c.dispatched, Dispatch(d.rid, d.stanzas)),
         Replies(c.accepted, d.stanzas), Sent(Hold(c.output, d.rid), processing, Count(d.stanzas)))
  }

  function ClosedCore(c: Core, isDeferred: bool, processing: bool): Core {
    var d := if isDeferred || c.deferred.None? then c else ReleasedCore(c, processing);
    d.(output := Flush(d.output))
  }

  function FedCore(c: Core, outcome: Outcome, rid: int, stanzas: seq<Stanza>, terminating: bool, opening: seq<string>): Core {
    var d := ClosedCore(OpenedCore(c, outcome, rid, stanzas, terminating, opening), outcome == Postponed, outcome == Processed);
    d.(output := Trim(d.output))
  }

  /** A request body seen from its parts. */
  lemma FedFacts(c: Core, outcome: Outcome, rid: int, stanzas: seq<Stanza>, terminating: bool, opening: seq<string>)
    ensures var d := FedCore(c, outcome, rid, stanzas, terminating, opening);
      && d.dispatched == LogAfter(c.dispatched, c.deferred, outcome, rid, stanzas)
      && d.accepted == AcceptedAfter(c.accepted, c.deferred, outcome, opening, stanzas)
      && d.deferred == (if outcome == Postponed then Some(Deferred(rid, stanzas, terminating)) else None)
      && d.terminate == (c.terminate || Ends(c.deferred, outcome, terminating))
      && d.output == HeldAfter(c.output, c.deferred, outcome, rid, opening, stanzas)
  {
  }

  /** It moves the window, and what it dispatches is what the window releases. */
  lemma FedWindow(c: Core, cache: Cache, rid: int, stanzas: seq<Stanza>, terminating: bool, opening: seq<string>)
    requires c.deferred.Some? ==> c.deferred.value.rid == c.rid + 2
    ensures var d := FedCore(c, Judge(c.rid, cache, rid), rid, stanzas, terminating, opening);
      && (d.deferred.Some? ==> d.deferred.value.rid == d.rid + 2)
      && WindowIn(d) == BoshWindow.Next(WindowIn(c), rid)
      && Rids(d.dispatched) == Rids(c.dispatched) + BoshWindow.Released(WindowIn(c), rid)
  {
    var outcome := Judge(c.rid, cache, rid);
    FedFacts(c, outcome, rid, stanzas, terminating, opening);
    LogIsReleased(c.dispatched, c.rid, c.deferred, cache, rid, stanzas);
  }

  /** It keeps the session in step with its arrivals, and the held requests within their bound. */
  ghost predicate CoreValid(start: int, arrivals: Log<int>, c: Core) {
    Tracks(start, arrivals, c.rid, c.deferred, c.dispatched) && Within(c.output, c.deferred.Some?)
  }

  lemma FedKeepsValid(start: int, arrivals: Log<int>, c: Core, cache: Cache,
                      rid: int, stanzas: seq<Stanza>, terminating: bool, opening: seq<string>)
    requires CoreValid(start, arrivals, c)
    ensures CoreValid(start, Then(arrivals, rid), FedCore(c, Judge(c.rid, cache, rid), rid, stanzas, terminating, opening))
  {
    var outcome := Judge(c.rid, cache, rid);
    FedFacts(c, outcome, rid, stanzas, terminating, opening);
    FedWindow(c, cache, rid, stanzas, terminating, opening);
    HeldAfterBounded(c.output, c.deferred, outcome, rid, opening, stanzas);
    var d := FedCore(c, outcome, rid, stanzas, terminating, opening);
    TracksNext(start, arrivals, c.rid, c.deferred, c.dispatched, rid, d.rid, d.deferred, d.dispatched);
  }

  function WindowIn(c: Core): BoshWindow.Window {
    BoshWindow.Window(c.rid, c.deferred.Some?)
  }

  /** Closing leaves every other held request open. */
  function AfterClose(o: Output, closed: bool): Output {
    if closed then o.(held := Odds(o.held)) else o
  }

  /** A replayed response answers the id asked for and is one of those sent. */
  lemma ReplayIsReal(rid: int, cache: Cache, requestRid: int, answers: Log<Response>)
    requires Cached(cache, answers)
    ensures var outcome := Judge(rid, cache, requestRid);
      outcome.Replayed? ==> outcome.response.rid == requestRid && Has(answers, outcome.response)
  {
    if answers.Then? {
      LatestButSent(answers, answers.last.rid);
    }
  }

  /** The window and the log of a session are those of its arrivals. */
  ghost predicate Tracks(start: int, arrivals: Log<int>, rid: int, deferred: Option<Deferred>, log: Log<Dispatch>) {
    && (deferred.Some? ==> deferred.value.rid == rid + 2)
    && BoshWindow.After(start, Elements(arrivals)) == BoshWindow.Window(rid, deferred.Some?)
    && BoshWindow.Dispatched(start, Elements(arrivals)) == Rids(log)
  }

  lemma TracksNext(start: int, arrivals: Log<int>, rid: int, deferred: Option<Deferred>, log: Log<Dispatch>,
                   requestRid: int, rid': int, deferred': Option<Deferred>, log': Log<Dispatch>)
    requires Tracks(start, arrivals, rid, deferred, log)
    requires deferred'.Some? ==> deferred'.value.rid == rid' + 2
    requires BoshWindow.Window(rid', deferred'.Some?) == BoshWindow.Next(BoshWindow.Window(rid, deferred.Some?), requestRid)
    requires Rids(log') == Rids(log) + BoshWindow.Released(BoshWindow.Window(rid, deferred.Some?), requestRid)
    ensures Tracks(start, Then(arrivals, requestRid), rid', deferred', log')
  {
  }

  class Session {
    var rid: int
    var deferred: Option<Deferred>
    var requests: seq<int>
    var sendBuffer: Log<string>
    var processing: bool
    var terminate: bool
    var responses: Cache
    var creating: bool
    var closed: bool

    // What has happened so far
    ghost const start: int
    ghost var arrivals: Log<int>
    ghost var dispatched: Log<Dispatch>
    ghost var accepted: Log<string>
    ghost var answers: Log<Response>
    ghost var answered: Log<int>

    /** Nothing is lost, repeated or reordered on the way out, and only real responses are replayed. */
    ghost predicate OutputValid()
      reads this`answers, this`answered, this`sendBuffer, this`accepted, this`responses
    {
      Said(answers, sendBuffer) == Concat(accepted) && Kept(responses, answers, answered)
    }

    ghost function CoreOf(): Core
      reads this`rid, this`deferred, this`terminate, this`dispatched, this`accepted, this`requests, this`sendBuffer, this`answered
    {
      Core(rid, deferred, terminate, dispatched, accepted, OutputOf())
    }

    ghost function OutputOf(): Output
      reads this`requests, this`sendBuffer, this`answered
    {
      Output(requests, sendBuffer != Empty, answered)
    }

    /** A held request is never kept open while there is something to say. */
    ghost predicate Flushed()
      reads this`processing, this`requests, this`sendBuffer
    {
      !processing && (requests == [] || sendBuffer == Empty)
    }

    /** At most one request more than the limit is held, and none more while one is deferred. */
    ghost predicate Valid()
      reads this
    {
      CoreValid(start, arrivals, CoreOf()) && OutputValid() && !processing
    }

    /** A new session; `rid` is the id of the request that creates it. */
    constructor (rid: int)
      ensures Valid() && !closed && !terminate
      ensures WindowOf() == BoshWindow.Window(rid - 1, false) && OutputOf() == Output([], false, Empty)
      ensures start == rid - 1 && arrivals == Empty && accepted == Empty && answers == Empty
    {
      this.rid, start := rid - 1, rid - 1;
      deferred, requests, sendBuffer, responses := None, [], Empty, Cache(None, None);
      processing, terminate, creating, closed := false, false, true, false;
      arrivals, dispatched, accepted, answers, answered := Empty, Empty, Empty, Empty, Empty;
    }

    /** session.send: buffer the text, and answer the oldest open request with the whole
        buffer unless a request is being processed. */
    method Send(s: string)
      requires Kept(responses, answers, answered)
      modifies this`requests, this`sendBuffer, this`responses, this`creating, this`answers, this`answered
      ensures Kept(responses, answers, answered)
      ensures Said(answers, sendBuffer) == old(Said(answers, sendBuffer)) + s
      ensures OutputOf() == Sent(old(OutputOf()), processing, 1)
      ensures if old(requests) != [] && !processing
        then sendBuffer == Empty && requests == old(requests)[1..] && !creating &&
             answers == Then(old(answers), Response(old(requests)[0], old(creating), terminate, Concat(Then(old(sendBuffer), s))))
        else sendBuffer == Then(old(sendBuffer), s) && requests == old(requests) && answers == old(answers)
    {
      SaidMore(answers, sendBuffer, s);
      sendBuffer := Then(sendBuffer, s);
      if requests != [] && !processing {
        var response := Response(requests[0], creating, terminate, Concat(sendBuffer));
        creating := false;
        RememberKeeps(responses, answers, answered, response);
        responses := Remember(responses, response);
        SaidOut(answers, response, sendBuffer);
        answers, answered := Then(answers, response), Then(answered, response.rid);
        requests := requests[1..];
        sendBuffer := Empty;
      }
    }

    /** session.send(""): only a chance to answer the oldest request. */
    method SendNothing()
      requires OutputValid()
      modifies this`requests, this`sendBuffer, this`responses, this`creating, this`answers, this`answered
      ensures OutputValid()
      ensures OutputOf() == Sent(old(OutputOf()), processing, 1)
    {
      SaidNothing(answers, sendBuffer);
      Send("");
    }

    /** Takes the buffer out and passes it to session.send as one text. */
    method SendAgain()
      requires OutputValid() && requests == [] && !processing
      modifies this`requests, this`sendBuffer, this`responses, this`creating, this`answers, this`answered
      ensures OutputValid() && OutputOf() == old(OutputOf()).(buffered := true)
      ensures sendBuffer == Then(Empty, Concat(old(sendBuffer)))
    {
      var text := Concat(sendBuffer);
      SaidAsOne(answers, sendBuffer);
      sendBuffer := Empty;
      Send(text);
    }

    /** The server has something for the client, at any time. */
    method Deliver(s: string)
      requires OutputValid()
      modifies this`requests, this`sendBuffer, this`responses, this`creating, this`answers, this`answered, this`accepted
      ensures OutputValid()
      ensures accepted == Then(old(accepted), s)
      ensures OutputOf() == Sent(old(OutputOf()), processing, 1)
    {
      accepted := Then(accepted, s);
      Send(s);
    }

    method DeliverAll(texts: seq<string>)
      requires OutputValid()
      modifies this`requests, this`sendBuffer, this`responses, this`creating, this`answers, this`answered, this`accepted
      ensures OutputValid()
      ensures accepted == Extend(old(accepted), texts)
      ensures OutputOf() == Sent(old(OutputOf()), processing, |texts|)
    {
      var i := 0;
      while i < |texts|
        invariant 0 <= i <= |texts|
        invariant OutputValid()
        invariant accepted == Extend(old(accepted), texts[..i])
        invariant OutputOf() == Sent(old(OutputOf()), processing, i)
      {
        Deliver(texts[i]);
        SentMore(old(OutputOf()), processing, i, 1);
        assert texts[..i + 1][..i] == texts[..i];
        i := i + 1;
      }
      assert texts[..i] == texts;
    }

    /** Hands the stanzas of one request to the server. */
    method Handle(rid: int, stanzas: seq<Stanza>)
      requires OutputValid()
      modifies this`requests, this`sendBuffer, this`responses, this`creating, this`answers, this`answered, this`accepted,
               this`dispatched
      ensures OutputValid()
      ensures accepted == Replies(old(accepted), stanzas)
      ensures dispatched == Then(old(dispatched), Dispatch(rid, stanzas))
      ensures OutputOf() == Sent(old(OutputOf()), processing, Count(stanzas))
    {
      dispatched := Then(dispatched, Dispatch(rid, stanzas));
      var i := 0;
      while i < |stanzas|
        invariant 0 <= i <= |stanzas|
        invariant OutputValid()
        invariant dispatched == Then(old(dispatched), Dispatch(rid, stanzas))
        invariant accepted == Replies(old(accepted), stanzas[..i])
        invariant OutputOf() == Sent(old(OutputOf()), processing, Count(stanzas[..i]))
      {
        DeliverAll(stanzas[i].replies);
        SentMore(old(OutputOf()), processing, Count(stanzas[..i]), |stanzas[i].replies|);
        OneMoreStanza(old(accepted), stanzas, i);
        i := i + 1;
      }
      assert stanzas[..i] == stanzas;
    }

    /** streamopened and handlestanza for a request in sequence: its stanzas are handled
        with replies held back. `opening` is what the server sends when the stream (re)starts. */
    method Process(requestRid: int, stanzas: seq<Stanza>, terminating: bool, opening: seq<string>)
      requires OutputValid()
      modifies this`rid, this`terminate, this`processing, this`requests, this`sendBuffer, this`responses,
               this`creating, this`answers, this`answered, this`accepted, this`dispatched
      ensures OutputValid() && processing
      ensures CoreOf() == ProcessedCore(old(CoreOf()), requestRid, stanzas, terminating, opening)
    {
      rid := requestRid;
      if terminating {
        terminate := true;
      }
      requests := requests + [requestRid];
      processing := true;
      DeliverAll(opening);
      Handle(requestRid, stanzas);
      SentMore(Hold(old(OutputOf()), requestRid), true, |opening|, Count(stanzas));
    }

    /** The waiting request is processed as if it had come now. */
    method ReleaseDeferred()
      requires OutputValid() && deferred.Some?
      modifies this`rid, this`deferred, this`terminate, this`requests, this`sendBuffer, this`responses,
               this`creating, this`answers, this`answered, this`accepted, this`dispatched
      ensures OutputValid() && CoreOf() == ReleasedCore(old(CoreOf()), processing)
    {
      var d := deferred.value;
      deferred := None;
      rid := d.rid;
      requests := requests + [d.rid];
      Handle(d.rid, d.stanzas);
      if d.terminate {
        terminate := true;
      }
    }

    /** streamclosed: a waiting request is released unless the closing one is itself deferred;
        then everything said so far goes out. */
    method StreamClosed(isDeferred: bool)
      requires OutputValid()
      modifies this`rid, this`deferred, this`terminate, this`processing, this`requests, this`sendBuffer,
               this`responses, this`creating, this`answers, this`answered, this`accepted, this`dispatched
      ensures OutputValid() && Flushed()
      ensures CoreOf() == ClosedCore(old(CoreOf()), isDeferred, old(processing))
    {
      if !isDeferred && deferred.Some? {
        ReleaseDeferred();
      }
      FlushOut();
    }

    /** The request is done: what was said meanwhile goes out. */
    method FlushOut()
      requires OutputValid()
      modifies this`processing, this`requests, this`sendBuffer, this`responses, this`creating, this`answers, this`answered
      ensures OutputValid() && Flushed() && OutputOf() == Flush(old(OutputOf()))
    {
      processing := false;
      if sendBuffer != Empty {
        SendNothing();
      }
    }

    /** The end of handle_POST: answer the oldest request if too many are held. Nothing can be left
        in the buffer then, so the branch that would send the buffer a second time is never taken. */
    method Respond()
      requires OutputValid() && Flushed()
      modifies this`requests, this`sendBuffer, this`responses, this`creating, this`answers, this`answered
      ensures OutputValid() && Flushed()
      ensures OutputOf() == Trim(old(OutputOf()))
      ensures old(requests) == [] && old(sendBuffer) != Empty ==> sendBuffer == Then(Empty, Concat(old(sendBuffer)))
    {
      if |requests| > BOSH_HOLD {
        assert sendBuffer == Empty;
        SendNothing();
      } else if sendBuffer != Empty {
        SendAgain();
      }
    }

    ghost function WindowOf(): BoshWindow.Window
      reads this
    {
      BoshWindow.Window(rid, deferred.Some?)
    }

    /** streamopened with the stanzas that follow: what the distance of the ids decides. */
    method StreamOpened(requestRid: int, stanzas: seq<Stanza>, terminating: bool, opening: seq<string>) returns (outcome: Outcome)
      requires OutputValid() && !processing
      modifies this`rid, this`deferred, this`terminate, this`processing, this`requests, this`sendBuffer,
               this`responses, this`creating, this`answers, this`answered, this`accepted, this`dispatched
      ensures OutputValid() && outcome == Judge(old(rid), old(responses), requestRid)
      ensures processing == (outcome == Processed)
      ensures CoreOf() == OpenedCore(old(CoreOf()), outcome, requestRid, stanzas, terminating, opening)
    {
      outcome := Judge(rid, responses, requestRid);
      match outcome {
        case Processed =>
          Process(requestRid, stanzas, terminating, opening);
        case Postponed =>
          deferred := Some(Deferred(requestRid, stanzas, terminating));
        case Replayed(_) =>
        case HeldAgain =>
          requests := requests + [requestRid];
        case OutOfRange =>
      }
    }

    /** What a request body does: streamopened, handlestanza and streamclosed, then the response. */
    method Feed(requestRid: int, stanzas: seq<Stanza>, terminating: bool, opening: seq<string>) returns (outcome: Outcome)
      requires OutputValid() && !processing
      modifies this`rid, this`deferred, this`terminate, this`processing, this`requests, this`sendBuffer,
               this`responses, this`creating, this`answers, this`answered, this`accepted, this`dispatched
      ensures OutputValid() && Flushed() && outcome == Judge(old(rid), old(responses), requestRid)
      ensures CoreOf() == FedCore(old(CoreOf()), outcome, requestRid, stanzas, terminating, opening)
    {
      outcome := StreamOpened(requestRid, stanzas, terminating, opening);
      StreamClosed(outcome == Postponed);
      Respond();
    }

    /** bosh_close_stream: every other held request is left without an answer,
        unless at most one was held. */
    method Close() returns (answered: seq<int>)
      modifies this`requests, this`closed
      ensures closed
      ensures answered == Evens(old(requests)) && requests == Odds(old(requests))
      ensures requests == [] <==> |old(requests)| <= BOSH_HOLD
      ensures |requests| == |old(requests)| / 2
    {
      answered, requests := AnswerEach(requests);
      closed := true;
    }

    /** Takes one request of the client, up to the response or the decision to hold it. */
    method Exchange(requestRid: int, stanzas: seq<Stanza>, terminating: bool, opening: seq<string>) returns (outcome: Outcome)
      requires Valid()
      modifies this`rid, this`deferred, this`terminate, this`processing, this`requests, this`sendBuffer,
               this`responses, this`creating, this`answers, this`answered, this`accepted, this`dispatched, this`arrivals
      ensures Valid() && arrivals == Then(old(arrivals), requestRid)
      ensures outcome == Judge(old(rid), old(responses), requestRid)
      ensures CoreOf() == FedCore(old(CoreOf()), outcome, requestRid, stanzas, terminating, opening)
    {
      ghost var next := FedCore(CoreOf(), Judge(rid, responses, requestRid), requestRid, stanzas, terminating, opening);
      FedKeepsValid(start, arrivals, CoreOf(), responses, requestRid, stanzas, terminating, opening);
      outcome := Feed(requestRid, stanzas, terminating, opening);
      arrivals := Then(arrivals, requestRid);
      assert CoreOf() == next && CoreValid(start, arrivals, next);
    }

    /** A whole request, up to the close of a session that was terminated. */
    method Receive(requestRid: int, stanzas: seq<Stanza>, terminating: bool, opening: seq<string>) returns (outcome: Outcome)
      requires Valid() && !closed
      modifies this
      ensures Valid() && closed == terminate && arrivals == Then(old(arrivals), requestRid)
      ensures outcome == Judge(old(rid), old(responses), requestRid)
      ensures var c := FedCore(old(CoreOf()), outcome, requestRid, stanzas, terminating, opening);
        CoreOf() == c.(output := AfterClose(c.output, closed))
      ensures closed ==> |requests| <= 1
    {
      outcome := Exchange(requestRid, stanzas, terminating, opening);
      Conclude();
    }

    /** handle_POST for a well-formed request of this session. */
    method Post(requestRid: int, stanzas: seq<Stanza>, terminating: bool, opening: seq<string>) returns (outcome: Outcome)
      requires Valid() && !closed
      modifies this
      ensures Valid() && closed == terminate
      ensures terminate == (old(terminate) || Ends(old(deferred), outcome, terminating))
      ensures arrivals == Then(old(arrivals), requestRid)
      ensures dispatched == LogAfter(old(dispatched), old(deferred), outcome, requestRid, stanzas)
      ensures accepted == AcceptedAfter(old(accepted), old(deferred), outcome, opening, stanzas)
      ensures WindowOf() == BoshWindow.Next(old(WindowOf()), requestRid)
      ensures deferred == if outcome == Postponed then Some(Deferred(requestRid, stanzas, terminating)) else None
      ensures OutputOf() == AfterClose(HeldAfter(old(OutputOf()), old(deferred), outcome, requestRid, opening, stanzas), closed)
      ensures closed ==> |requests| <= 1
      ensures outcome == OutcomeFor(old(rid), old(answers), requestRid)
      ensures outcome.Replayed? ==> outcome.response.rid == requestRid && Has(old(answers), outcome.response)
    {
      ReplayIsReal(rid, responses, requestRid, answers);
      ghost var c, cache := CoreOf(), responses;
      JudgeIsExact(rid, responses, requestRid, answers);
      outcome := Receive(requestRid, stanzas, terminating, opening);
      FedFacts(c, outcome, requestRid, stanzas, terminating, opening);
      FedWindow(c, cache, requestRid, stanzas, terminating, opening);
    }

    /** The end of handle_POST: a session that was terminated is closed. */
    method Conclude()
      requires Valid() && !closed
      modifies this`requests, this`closed
      ensures Valid() && closed == terminate
      ensures OutputOf() == AfterClose(old(OutputOf()), closed) && (closed ==> |requests| <= 1)
    {
      if terminate {
        var _ := Close();
      }
    }

    /** session.send called by the server between requests. */
    method ServerSend(s: string)
      requires Valid()
      modifies this`requests, this`sendBuffer, this`responses, this`creating, this`answers, this`answered, this`accepted
      ensures Valid()
      ensures accepted == Then(old(accepted), s)
    {
      Deliver(s);
    }

    /** The HTTP connection of the open request at index `i` has gone. */
    method ConnectionLost(i: nat)
      requires Valid() && i < |requests|
      modifies this`requests
      ensures Valid()
      ensures requests == old(requests)[..i] + old(requests)[i + 1..]
    {
      requests := requests[..i] + requests[i + 1..];
    }

    /** The wait timer has run out for a held request. */
    method WaitExpired()
      requires Valid()
      modifies this`requests, this`sendBuffer, this`responses, this`creating, this`answers, this`answered
      ensures Valid()
      ensures old(requests) != [] ==> requests == old(requests)[1..]
    {
      SendNothing();
    }

    /** What every session guarantees, whatever has arrived and whatever was sent. */
    lemma Guarantees()
      requires Valid()
      ensures BoshWindow.StrictlyIncreasing(Rids(dispatched))
      ensures BoshWindow.EarlyReleases(start, Elements(arrivals)) == 0 <==>
        Rids(dispatched) == BoshWindow.Consecutive(start + 1, |Rids(dispatched)|)
      ensures requests != [] ==> Text(answers) == Concat(accepted)
      ensures |requests| <= BOSH_HOLD + 1 && (deferred.Some? ==> |requests| <= BOSH_HOLD)
    {
      BoshWindow.DispatchIsOrdered(start, Elements(arrivals));
      BoshWindow.GapFree(start, Elements(arrivals));
    }
  }

  const ONE := Then(Empty, 1)

  /** What is held after each of four requests without stanzas. */
  lemma HeldInTurn(features: string)
    ensures HeldAfter(Output([], false, Empty), None, Processed, 1, [features], []) == Output([], false, ONE)
    ensures HeldAfter(Output([], false, ONE), None, Processed, 2, [], []) == Output([2], false, ONE)
    ensures HeldAfter(Output([2], false, ONE), None, Postponed, 4, [], []) == Output([2], false, ONE)
    ensures HeldAfter(Output([2], false, ONE), Some(Deferred(4, [], false)), Processed, 3, [], []) ==
      Output([3, 4], false, Then(ONE, 2))
    ensures Odds([3, 4]) == [4]
  {
    assert [] + [1] == [1] && [] + [2] == [2] && [2] + [3] == [2, 3] && [2, 3] + [4] == [2, 3, 4];
  }

  /** A session in which the second request is held. */
  method HoldSecond(features: string) returns (s: Session)
    ensures fresh(s) && s.Valid() && !s.closed && !s.terminate
    ensures s.rid == 2 && s.deferred == None && s.OutputOf() == Output([2], false, ONE)
  {
    s := new Session(1);
    HeldInTurn(features);
    var _ := s.Post(1, [], false, [features]);
    var _ := s.Post(2, [], false, []);
  }

  /** A client that has lost the response to its first request and repeats the request gets it again. */
  method RepeatFirst(features: string) returns (outcome: Outcome)
    ensures outcome.Replayed? && outcome.response.rid == 1 && outcome.response.text == features
  {
    var s := new Session(1);
    HeldInTurn(features);
    var _ := s.Post(1, [], false, [features]);
    OneText(features);
    OneAnswer(s.answers, s.sendBuffer, features);
    outcome := s.Post(1, [], false, []);
  }

  lemma OneAnswer(answers: Log<Response>, buffer: Log<string>, text: string)
    requires Recipients(answers) == ONE && buffer == Empty && Said(answers, buffer) == text
    ensures answers.Then? && answers.last.rid == 1 && answers.last.text == text
  {
    assert answers.before == Empty && Text(answers) == "" + answers.last.text;
    assert "" + answers.last.text == answers.last.text && answers.last.text + "" == answers.last.text;
  }

  lemma OneText(text: string)
    ensures Concat(Replies(Extend(Empty, [text]), [])) == text
  {
    assert [text][..0] == [];
    assert Extend(Empty, [text]) == Then(Empty, text);
    assert "" + text == text;
  }

  /** A session that ends with a request left open: the second request is held, the fourth comes before the third,
      and the third ends the session. */
  method LeaveUnanswered(features: string) returns (s: Session)
    ensures s.closed && s.requests == [4]
  {
    s := HoldSecond(features);
    HeldInTurn(features);
    var _ := s.Post(4, [], false, []);
    var _ := s.Post(3, [], true, []);
  }

  /** Walks a list of held requests and answers the one at hand, which takes it out of the list. */
  method AnswerEach(held: seq<int>) returns (answered: seq<int>, left: seq<int>)
    ensures answered == Evens(held) && left == Odds(held)
  {
    answered, left := [], held;
    var i := 0;
    while i < |left|
      invariant Walked(held, i, answered, left)
      decreases |left| - i
    {
      WalkOne(held, i, answered, left);
      answered := answered + [left[i]];
      left := left[..i] + left[i + 1..];
      i := i + 1;
    }
  }

  /** `i` requests have been answered, and as many skipped. */
  ghost predicate Walked(held: seq<int>, i: int, answered: seq<int>, left: seq<int>) {
    && 0 <= i <= |left| + 1 && |answered| == i && |left| == |held| - i
    && (forall k :: 0 <= k < i ==> answered[k] == held[k + k])
    && (forall k :: 0 <= k < i && k < |left| ==> left[k] == held[k + k + 1])
    && (forall k :: i <= k < |left| ==> left[k] == held[k + i])
  }

  lemma WalkOne(held: seq<int>, i: int, answered: seq<int>, left: seq<int>)
    requires Walked(held, i, answered, left) && i < |left|
    ensures Walked(held, i + 1, answered + [left[i]], left[..i] + left[i + 1..])
  {
  }
}
