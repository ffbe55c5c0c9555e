/** What one user's roster knows about one contact, and the presence-subscription
    state machine of RFC 6121 that governs it.

    The tables below are those of Appendix A.2 (stanzas the user sends) and
    A.3 (stanzas the user receives) of RFC 6121, written out state by state. They
    are the reference against which the handlers of `Roster` are verified.
 */
module RosterEntry {
  import opened Wrappers

  type Jid = string

  datatype Subscription = SubNone | SubTo | SubFrom | SubBoth

  /** A roster item: subscription direction, the outstanding `ask`, and what the client chose. */
  datatype Item = Item(subscription: Subscription, ask: bool, name: Option<string>, groups: set<string>)

  /** Everything a roster holds about one contact: its item, if any, and the pending-in flag. */
  datatype Entry = Entry(item: Option<Item>, pending: bool)

  const NOTHING := Entry(None, false)

  /** The contact sees the user's presence. */
  predicate Grants(e: Entry) {
    e.item.Some? && (e.item.value.subscription == SubFrom || e.item.value.subscription == SubBoth)
  }

  /** The user sees the contact's presence. */
  predicate Watches(e: Entry) {
    e.item.Some? && (e.item.value.subscription == SubTo || e.item.value.subscription == SubBoth)
  }

  /** The user has asked to see the contact's presence. */
  predicate Asks(e: Entry) {
    e.item.Some? && e.item.value.ask
  }

  /** The invariant that makes the handlers' catch-all branches right. */
  predicate WellFormed(e: Entry) {
    && !(Asks(e) && Watches(e))
    && !(e.pending && Grants(e))
  }

  /** The nine states of Appendix A.1. */
  datatype State =
    | NoneState
    | NonePendingOut
    | NonePendingIn
    | NonePendingOutIn
    | ToState
    | ToPendingIn
    | FromState
    | FromPendingOut
    | BothState

  function StateOf(e: Entry): (s: State)
    requires WellFormed(e)
  {
    if Watches(e) then
      (if Grants(e) then BothState else if e.pending then ToPendingIn else ToState)
    else if Grants(e) then
      (if Asks(e) then FromPendingOut else FromState)
    else if Asks(e) then
      (if e.pending then NonePendingOutIn else NonePendingOut)
    else
      (if e.pending then NonePendingIn else NoneState)
  }

  /** The eight subscription stanzas, as seen from one roster. */
  datatype Stanza =
    | OutSubscribe | OutUnsubscribe | OutSubscribed | OutUnsubscribed
    | InSubscribe | InUnsubscribe | InSubscribed | InUnsubscribed

  /** The new state each table prescribes. */
  function Table(z: Stanza, s: State): State {
    match z
    case OutSubscribe => (
      match s
      case NoneState => NonePendingOut
      case NonePendingIn => NonePendingOutIn
      case FromState => FromPendingOut
      case _ => s)
    case OutUnsubscribe => (
      match s
      case NonePendingOut => NoneState
      case NonePendingOutIn => NonePendingIn
      case ToState => NoneState
      case ToPendingIn => NonePendingIn
      case FromPendingOut => FromState
      case BothState => FromState
      case _ => s)
    case OutSubscribed => (
      match s
      case NonePendingIn => FromState
      case NonePendingOutIn => FromPendingOut
      case ToPendingIn => BothState
      case _ => s)
    case OutUnsubscribed => (
      match s
      case NonePendingIn => NoneState
      case NonePendingOutIn => NonePendingOut
      case ToPendingIn => ToState
      case FromState => NoneState
      case FromPendingOut => NonePendingOut
      case BothState => ToState
      case _ => s)
    case InSubscribe => (
      match s
      case NoneState => NonePendingIn
      case NonePendingOut => NonePendingOutIn
      case ToState => ToPendingIn
      case _ => s)
    case InUnsubscribe => (
      match s
      case NonePendingIn => NoneState
      case NonePendingOutIn => NonePendingOut
      case ToPendingIn => ToState
      case FromState => NoneState
      case FromPendingOut => NonePendingOut
      case BothState => ToState
      case _ => s)
    case InSubscribed => (
      match s
      case NonePendingOut => ToState
      case NonePendingOutIn => ToPendingIn
      case FromPendingOut => BothState
      case _ => s)
    case InUnsubscribed => (
      match s
      case NonePendingOut => NoneState
      case NonePendingOutIn => NonePendingIn
      case ToState => NoneState
      case ToPendingIn => NonePendingIn
      case FromPendingOut => FromState
      case BothState => FromState
      case _ => s)
  }

  function SubscriptionIn(s: State): Subscription {
    match s
    case ToState | ToPendingIn => SubTo
    case FromState | FromPendingOut => SubFrom
    case BothState => SubBoth
    case _ => SubNone
  }

  predicate AskIn(s: State) {
    s.NonePendingOut? || s.NonePendingOutIn? || s.FromPendingOut?
  }

  predicate PendingIn(s: State) {
    s.NonePendingIn? || s.NonePendingOutIn? || s.ToPendingIn?
  }

  /** Moves an entry to a state: an existing item keeps its name and groups,
      and an item is created only when the state cannot be held without one. */
  function InState(e: Entry, s: State): (r: Entry)
    ensures WellFormed(r) && StateOf(r) == s
    ensures e.item.Some? ==> r.item.Some? && r.item.value.name == e.item.value.name && r.item.value.groups == e.item.value.groups
    // a created item has no name and no groups, and none is created unless the user watches, asks or grants
    ensures e.item.None? ==> (r.item.Some? <==> Watches(r) || Asks(r) || Grants(r))
    ensures e.item.None? && r.item.Some? ==> r.item.value.name == None && r.item.value.groups == {}
  {
    var item :=
      if e.item.Some? then Some(e.item.value.(subscription := SubscriptionIn(s), ask := AskIn(s)))
      else if SubscriptionIn(s) == SubNone && !AskIn(s) then None
      else Some(Item(SubscriptionIn(s), AskIn(s), None, {}));
    Entry(item, PendingIn(s))
  }

  /** The effect of one stanza on one entry. */
  function Apply(z: Stanza, e: Entry): (r: Entry)
    requires WellFormed(e)
    ensures WellFormed(r)
  {
    InState(e, Table(z, StateOf(e)))
  }

  /** A client's roster set: new name and groups, same subscription state. */
  function WithItem(e: Entry, name: Option<string>, groups: set<string>): (r: Entry)
    ensures Grants(r) == Grants(e) && Watches(r) == Watches(e) && Asks(r) == Asks(e) && r.pending == e.pending
    ensures r.item.Some? && r.item.value.name == name && r.item.value.groups == groups
  {
    if e.item.Some? then e.(item := Some(e.item.value.(name := name, groups := groups)))
    else e.(item := Some(Item(SubNone, false, name, groups)))
  }

  /** A client's roster remove drops the item; a pending inbound request survives it. */
  function WithoutItem(e: Entry): (r: Entry)
    ensures !Grants(r) && !Watches(r) && !Asks(r) && r.pending == e.pending
  {
    e.(item := None)
  }

  /** The tables read as effects on the four facts a roster keeps about a contact. */
  lemma ApplyFacts(z: Stanza, e: Entry)
    requires WellFormed(e)
    ensures var r := Apply(z, e);
      match z
      case OutSubscribe =>
        Watches(r) == Watches(e) && Asks(r) == (Asks(e) || !Watches(e)) && Grants(r) == Grants(e) && r.pending == e.pending
      case OutUnsubscribe =>
        !Watches(r) && !Asks(r) && Grants(r) == Grants(e) && r.pending == e.pending
      case OutSubscribed =>
        Watches(r) == Watches(e) && Asks(r) == Asks(e) && Grants(r) == (Grants(e) || e.pending) && !r.pending
      case OutUnsubscribed =>
        Watches(r) == Watches(e) && Asks(r) == Asks(e) && !Grants(r) && !r.pending
      case InSubscribe =>
        Watches(r) == Watches(e) && Asks(r) == Asks(e) && Grants(r) == Grants(e) && r.pending == (e.pending || !Grants(e))
      case InUnsubscribe =>
        Watches(r) == Watches(e) && Asks(r) == Asks(e) && !Grants(r) && !r.pending
      case InSubscribed =>
        Watches(r) == (Watches(e) || Asks(e)) && !Asks(r) && Grants(r) == Grants(e) && r.pending == e.pending
      case InUnsubscribed =>
        !Watches(r) && !Asks(r) && Grants(r) == Grants(e) && r.pending == e.pending
  {
  }

  /** The nine states are exactly the combinations of the four facts that can occur. */
  lemma StateIsFacts(e: Entry, e': Entry)
    requires WellFormed(e) && WellFormed(e')
    ensures StateOf(e) == StateOf(e') <==>
      Watches(e) == Watches(e') && Asks(e) == Asks(e') && Grants(e) == Grants(e') && e.pending == e'.pending
  {
  }
}
