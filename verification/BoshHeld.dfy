/** Which requests of a BOSH session are held open, which were answered, and whether texts wait in its buffer
    (plugins/mod_bosh.lua).
 */
module BoshHeld {
  import opened Wrappers
  import opened Logs

  const BOSH_HOLD := 1

  /** `answered` lists the requests answered so far. */
  datatype Output = Output(held: seq<int>, buffered: bool, answered: Log<int>)

  function Hold(o: Output, rid: int): Output {
    o.(held := o.held + [rid])
  }

  /** One text sent while no request is processed: the oldest held request takes all that waits. */
  function Answered(o: Output): Output {
    if o.held != [] then Output(o.held[1..], false, Then(o.answered, o.held[0])) else o.(buffered := true)
  }

  /** Some texts sent. While a request is processed they only wait. */
  function Sent(o: Output, processing: bool, texts: nat): Output {
    if texts == 0 then o
    else if processing then o.(buffered := true)
    else Answered(Sent(o, processing, texts - 1))
  }

  lemma {:induction false} SentMore(o: Output, processing: bool, m: nat, n: nat)
    ensures Sent(Sent(o, processing, m), processing, n) == Sent(o, processing, m + n)
  {
    if n > 0 && !processing {
      SentMore(o, processing, m, n - 1);
    }
  }

  /** The end of a request body. */
  function Flush(o: Output): Output {
    if o.buffered then Answered(o) else o
  }

  /** The oldest request is answered if too many are held. */
  function Trim(o: Output): Output {
    if |o.held| > BOSH_HOLD then Answered(o) else o
  }

  /** The request body opens: `own` is its id if the request is held; `texts` are sent while it is processed. */
  function Opened(o: Output, own: Option<int>, processed: bool, texts: nat): Output {
    var a := if own.Some? then Hold(o, own.value) else o;
    if processed then Sent(a, true, texts) else a
  }

  /** The request body ends: `released` is the id of the waiting request that it releases, `more` the texts sent
      meanwhile. */
  function Closed(o: Output, released: Option<int>, processed: bool, more: nat): Output {
    Flush(if released.Some? then Sent(Hold(o, released.value), processed, more) else o)
  }

  /** No more requests are held than one above the limit, and not even that many while another one waits;
      nothing waits in the buffer while a request is held. */
  predicate Within(o: Output, deferred: bool) {
    && |o.held| <= BOSH_HOLD + 1 && (deferred ==> |o.held| <= BOSH_HOLD)
    && (o.held == [] || !o.buffered)
  }

  lemma {:induction false} SentHeld(o: Output, processing: bool, texts: nat)
    ensures |Sent(o, processing, texts).held| <= |o.held|
    ensures processing ==> Sent(o, processing, texts).held == o.held
  {
    if texts > 0 && !processing {
      SentHeld(o, processing, texts - 1);
    }
  }

  /** Every request body keeps the bound. */
  lemma BodyKeepsBound(o: Output, deferred: bool, own: Option<int>, processed: bool, texts: nat,
                       released: Option<int>, more: nat, postponed: bool)
    requires Within(o, deferred)
    requires released.Some? ==> deferred
    requires deferred && released.None? ==> postponed
    requires postponed ==> own.None? && released.None?
    ensures Within(Trim(Closed(Opened(o, own, processed, texts), released, processed, more)), postponed)
  {
    SentHeld(if own.Some? then Hold(o, own.value) else o, true, texts);
    if released.Some? {
      SentHeld(Hold(Opened(o, own, processed, texts), released.value), processed, more);
    }
  }
}
