/** What a roster entry says about the past: over every sequence of subscription
    stanzas and client roster edits, starting from nothing. The contact may be
    remote and send anything at any time.
 */
module SubscriptionHistory {
  import opened Wrappers
  import opened RosterEntry
  import RosterManager

  datatype Event =
    | Sub(stanza: Stanza)
    | SetItem(name: Option<string>, groups: set<string>)
    | Remove

  function NextEntry(ev: Event, e: Entry): (r: Entry)
    requires WellFormed(e)
    ensures WellFormed(r)
  {
    match ev
    case Sub(z) => Apply(z, e)
    case SetItem(name, groups) => WithItem(e, if name == Some("") then None else name, groups)
    case Remove => WithoutItem(e)
  }

  ghost function Run(tr: seq<Event>): (e: Entry)
    ensures WellFormed(e)
  {
    if tr == [] then NOTHING else NextEntry(tr[|tr| - 1], Run(tr[..|tr| - 1]))
  }

  // ---- The user watches the contact ----

  /** Events that end the user's request for, or view of, the contact's presence. */
  predicate EndsWatch(ev: Event) {
    ev == Sub(OutUnsubscribe) || ev == Sub(InUnsubscribed) || ev == Remove
  }

  /** None of the events from index `from` on ends the watch. */
  ghost predicate WatchKept(tr: seq<Event>, from: int) {
    forall k :: 0 <= from <= k < |tr| ==> !EndsWatch(tr[k])
  }

  /** The request at `i` still stands. */
  ghost predicate RequestedAt(tr: seq<Event>, i: int) {
    0 <= i < |tr| && tr[i] == Sub(OutSubscribe) && WatchKept(tr, i)
  }

  /** The request at `i` was approved at `j`, and nothing has ended it since it was made. */
  ghost predicate WatchedSince(tr: seq<Event>, i: int, j: int) {
    RequestedAt(tr, i) && i < j < |tr| && tr[j] == Sub(InSubscribed)
  }

  lemma NextFacts(ev: Event, e: Entry)
    requires WellFormed(e)
    ensures var r := NextEntry(ev, e);
      && (Watches(r) <==> !EndsWatch(ev) && (Watches(e) || (Asks(e) && ev == Sub(InSubscribed))))
      && (Asks(r) || Watches(r) <==> ev == Sub(OutSubscribe) || (!EndsWatch(ev) && (Asks(e) || Watches(e))))
      && (Grants(r) <==> !EndsGrant(ev) && ev != Remove && (Grants(e) || (e.pending && ev == Sub(OutSubscribed))))
      && (r.pending <==> !EndsGrant(ev) && ev != Sub(OutSubscribed) && (e.pending || (ev == Sub(InSubscribe) && !Grants(e))))
  {
    if ev.Sub? {
      ApplyFacts(ev.stanza, e);
    }
  }

  /** The user asks for or sees the contact's presence exactly when an own request still stands. */
  lemma {:induction false} RequestHistory(tr: seq<Event>)
    ensures Asks(Run(tr)) || Watches(Run(tr)) <==> exists i :: RequestedAt(tr, i)
  {
    if tr != [] {
      var n := |tr| - 1;
      var pre := tr[..n];
      RequestHistory(pre);
      NextFacts(tr[n], Run(pre));
      if tr[n] == Sub(OutSubscribe) {
        assert RequestedAt(tr, n);
      } else if !EndsWatch(tr[n]) {
        if i :| RequestedAt(pre, i) { assert RequestedAt(tr, i); }
        if i :| RequestedAt(tr, i) { assert RequestedAt(pre, i); }
      } else {
        forall i ensures !RequestedAt(tr, i) {
          assert 0 <= i < n ==> EndsWatch(tr[n]);
        }
      }
    }
  }

  /** An entry is `to` or `both` exactly when the user sent a request which the contact
      later approved, with no unsubscribe, cancellation or removal since the request. */
  lemma {:induction false} WatchHistory(tr: seq<Event>)
    ensures Watches(Run(tr)) <==> exists i, j :: WatchedSince(tr, i, j)
  {
    if tr != [] {
      var n := |tr| - 1;
      var pre := tr[..n];
      WatchHistory(pre);
      RequestHistory(pre);
      NextFacts(tr[n], Run(pre));
      if EndsWatch(tr[n]) {
        forall i, j ensures !WatchedSince(tr, i, j) {
          assert 0 <= i < n ==> EndsWatch(tr[n]);
        }
      } else {
        if i, j :| WatchedSince(pre, i, j) { assert WatchedSince(tr, i, j); }
        if i :| RequestedAt(pre, i) { assert tr[n] == Sub(InSubscribed) ==> WatchedSince(tr, i, n); }
        if i, j :| WatchedSince(tr, i, j) {
          assert RequestedAt(pre, i);
          assert j < n ==> WatchedSince(pre, i, j);
        }
      }
    }
  }

  // ---- The contact watches the user ----

  /** Events that withdraw the contact's request or the grant it led to. */
  predicate EndsGrant(ev: Event) {
    ev == Sub(OutUnsubscribed) || ev == Sub(InUnsubscribe)
  }

  ghost predicate GrantKept(tr: seq<Event>, from: int) {
    forall k :: 0 <= from <= k < |tr| ==> !EndsGrant(tr[k])
  }

  /** The contact's request at `i` was news to the roster and still waits for an answer. */
  ghost predicate WaitingSince(tr: seq<Event>, i: int) {
    && 0 <= i < |tr| && tr[i] == Sub(InSubscribe) && !Grants(Run(tr[..i]))
    && GrantKept(tr, i)
    && forall k :: i <= k < |tr| ==> tr[k] != Sub(OutSubscribed)
  }

  /** The contact's request at `i` was answered by the user's own approval at `j`,
      it was not withdrawn since, nor was the item removed since the approval. */
  ghost predicate GrantedSince(tr: seq<Event>, i: int, j: int) {
    && 0 <= i < j < |tr| && tr[i] == Sub(InSubscribe) && tr[j] == Sub(OutSubscribed) && !Grants(Run(tr[..i]))
    && GrantKept(tr, i)
    && (forall k :: i < k < j ==> tr[k] != Sub(OutSubscribed))
    && (forall k :: j < k < |tr| ==> tr[k] != Remove)
  }

  /** How one more event `ev` bears on a request that waits. */
  lemma WaitingStep(pre: seq<Event>, ev: Event, i: int)
    requires i < |pre|
    ensures WaitingSince(pre + [ev], i) <==> WaitingSince(pre, i) && !EndsGrant(ev) && ev != Sub(OutSubscribed)
  {
    var tr, n := pre + [ev], |pre|;
    assert tr[n] == ev && forall k :: 0 <= k < n ==> tr[k] == pre[k];
    if 0 <= i < n {
      assert pre[..i] == tr[..i];
    }
  }

  /** A request is pending exactly when it arrived, was new, and nothing has answered or withdrawn
      it since; removing the roster item does not. */
  lemma {:induction false} PendingHistory(tr: seq<Event>)
    ensures Run(tr).pending <==> exists i :: WaitingSince(tr, i)
  {
    if tr != [] {
      var n := |tr| - 1;
      var pre := tr[..n];
      assert tr == pre + [tr[n]];
      PendingHistory(pre);
      NextFacts(tr[n], Run(pre));
      if tr[n] == Sub(InSubscribe) && !Grants(Run(pre)) {
        assert WaitingSince(tr, n);
      } else if i :| WaitingSince(tr, i) {
        WaitingStep(pre, tr[n], i);
      } else if i :| WaitingSince(pre, i) {
        WaitingStep(pre, tr[n], i);
      }
    }
  }

  /** How one more event `ev` bears on a grant. */
  lemma GrantStep(pre: seq<Event>, ev: Event, i: int, j: int)
    requires j < |pre|
    ensures GrantedSince(pre + [ev], i, j) <==> GrantedSince(pre, i, j) && !EndsGrant(ev) && ev != Remove
  {
    var tr, n := pre + [ev], |pre|;
    assert tr[n] == ev && forall k :: 0 <= k < n ==> tr[k] == pre[k];
    if 0 <= i < n {
      assert pre[..i] == tr[..i];
    }
  }

  lemma AnswerStep(pre: seq<Event>, ev: Event, i: int)
    ensures GrantedSince(pre + [ev], i, |pre|) <==> WaitingSince(pre, i) && ev == Sub(OutSubscribed)
  {
    var tr, n := pre + [ev], |pre|;
    assert tr[n] == ev && forall k :: 0 <= k < n ==> tr[k] == pre[k];
    if 0 <= i < n {
      assert pre[..i] == tr[..i];
    }
  }

  /** An entry is `from` or `both` exactly when the contact sent a new request which the
      user's own `subscribed` answered, with no withdrawal since the request and no
      removal of the item since the answer. */
  lemma {:induction false} GrantHistory(tr: seq<Event>)
    ensures Grants(Run(tr)) <==> exists i, j :: GrantedSince(tr, i, j)
  {
    if tr != [] {
      var n := |tr| - 1;
      var pre := tr[..n];
      assert tr == pre + [tr[n]];
      GrantHistory(pre);
      PendingHistory(pre);
      NextFacts(tr[n], Run(pre));
      if i, j :| GrantedSince(tr, i, j) {
        if j < n { GrantStep(pre, tr[n], i, j); } else { AnswerStep(pre, tr[n], i); }
      } else if Grants(Run(tr)) {
        if i, j :| GrantedSince(pre, i, j) { GrantStep(pre, tr[n], i, j); }
        if i :| WaitingSince(pre, i) { AnswerStep(pre, tr[n], i); }
      }
    }
  }

  /** A client's roster sets never grant or obtain anything. */
  lemma ClientSetsAreInert(tr: seq<Event>, name: Option<string>, groups: set<string>)
    ensures var e, e' := Run(tr), Run(tr + [SetItem(name, groups)]);
      StateOf(e') == StateOf(e)
  {
  }

  // ---- The version a client compares ----

  /** Whether handling the event saves the roster, as the handlers of `Roster` report. */
  predicate Saves(ev: Event, e: Entry)
    requires WellFormed(e)
  {
    match ev
    case Sub(z) => if z == InSubscribe then !Grants(e) else Table(z, StateOf(e)) != StateOf(e)
    case SetItem(_, _) => true
    case Remove => e.item.Some?
  }

  /** The handlers of a roster do to the entry of a contact what an event says, and save when it says so. */
  method HandleEvent(r: RosterManager.Roster, jid: Jid, ev: Event)
    requires r.Valid() && jid != r.owner
    modifies r
    ensures r.Valid() && r.Becomes(jid, NextEntry(ev, old(r.EntryOf(jid))), Saves(ev, old(r.EntryOf(jid))))
  {
    assert WellFormed(r.EntryOf(jid));
    match ev {
      case Sub(z) => HandleStanza(r, jid, z);
      case SetItem(name, groups) => var _ := r.SetItem(jid, name, groups);
      case Remove => var _ := r.RemoveItem(jid);
    }
  }

  method HandleStanza(r: RosterManager.Roster, jid: Jid, z: Stanza)
    requires r.Valid()
    modifies r
    ensures r.Valid() && r.Becomes(jid, Apply(z, old(r.EntryOf(jid))), Saves(Sub(z), old(r.EntryOf(jid))))
  {
    assert WellFormed(r.EntryOf(jid));
    match z {
      case OutSubscribe => var _ := r.SetContactPendingOut(jid);
      case OutUnsubscribe => var _ := r.Unsubscribe(jid);
      case OutSubscribed => var _ := r.Subscribed(jid);
      case OutUnsubscribed => var _, _, _ := r.Unsubscribed(jid);
      case InSubscribe => var _ := r.SetContactPendingIn(jid);
      case InUnsubscribe => var _ := r.ProcessInboundUnsubscribe(jid);
      case InSubscribed => var _ := r.ProcessInboundSubscriptionApproval(jid);
      case InUnsubscribed => var _ := r.ProcessInboundSubscriptionCancellation(jid);
    }
  }

  /** An event of the whole roster concerns one contact. */
  datatype Edit = Edit(jid: Jid, event: Event)

  ghost function EntryAfter(tr: seq<Edit>, jid: Jid): (e: Entry)
    ensures WellFormed(e)
  {
    if tr == [] then NOTHING else
    var e := EntryAfter(tr[..|tr| - 1], jid);
    var last := tr[|tr| - 1];
    if last.jid == jid then NextEntry(last.event, e) else e
  }

  /** The events that concern one contact. */
  ghost function Of(tr: seq<Edit>, jid: Jid): seq<Event> {
    if tr == [] then [] else
    var last := tr[|tr| - 1];
    Of(tr[..|tr| - 1], jid) + if last.jid == jid then [last.event] else []
  }

  /** Contacts do not influence each other: the histories above hold for each of them. */
  lemma {:induction false} ContactsAreSeparate(tr: seq<Edit>, jid: Jid)
    ensures EntryAfter(tr, jid) == Run(Of(tr, jid))
  {
    if tr != [] {
      var pre, last := tr[..|tr| - 1], tr[|tr| - 1];
      ContactsAreSeparate(pre, jid);
      if last.jid == jid {
        assert Of(tr, jid)[..|Of(pre, jid)|] == Of(pre, jid);
      } else {
        assert Of(tr, jid) == Of(pre, jid);
      }
    }
  }

  /** The version counts the saves of the whole roster. */
  ghost function Version(tr: seq<Edit>): nat {
    if tr == [] then 0 else
    var pre, last := tr[..|tr| - 1], tr[|tr| - 1];
    Version(pre) + if Saves(last.event, EntryAfter(pre, last.jid)) then 1 else 0
  }

  /** An event that does not save leaves the entry as it was. */
  lemma UnsavedIsUnchanged(ev: Event, e: Entry)
    requires WellFormed(e) && !Saves(ev, e)
    ensures NextEntry(ev, e) == e
  {
  }

  /** Two moments with the same version have the same roster, so a client that
      presents the current version needs no items. */
  lemma {:induction false} VersionIdentifies(tr: seq<Edit>, m: nat, jid: Jid)
    requires m <= |tr|
    ensures Version(tr[..m]) <= Version(tr)
    ensures Version(tr[..m]) == Version(tr) ==> EntryAfter(tr[..m], jid) == EntryAfter(tr, jid)
  {
    if m == |tr| {
      assert tr[..m] == tr;
    } else {
      var n := |tr| - 1;
      VersionIdentifies(tr[..n], m, jid);
      assert tr[..n][..m] == tr[..m];
      var last, e := tr[n], EntryAfter(tr[..n], tr[n].jid);
      if !Saves(last.event, e) {
        UnsavedIsUnchanged(last.event, e);
      }
    }
  }
}
