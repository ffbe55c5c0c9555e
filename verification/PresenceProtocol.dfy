/** Subscription stanzas between two users of the same host (plugins/mod_presence.lua).

    Delivery between local users is synchronous: the handler of an outbound stanza runs the
    contact's inbound handler before it returns, and the automatic replies the inbound handler
    sends pass through the outbound handler of the contact in turn. A step of the protocol is
    therefore one whole cascade over the two rosters.

    The functions of this module say what such a cascade does to the pair of entries; the
    methods of `PresenceHandlers` run it on roster objects.
 */
module PresenceProtocol {
  import opened Wrappers
  import opened RosterEntry

  /** The user's entry for the contact, the contact's entry for the user, and
      which of the two has a session (and so a loaded roster). */
  datatype Pair = Pair(user: Entry, contact: Entry, userOnline: bool, contactOnline: bool)

  /** The same pair as the contact's handlers see it. */
  function Flip(p: Pair): Pair {
    Pair(p.contact, p.user, p.contactOnline, p.userOnline)
  }

  predicate Sound(p: Pair) {
    WellFormed(p.user) && WellFormed(p.contact)
  }

  /** is_contact_subscribed for the owner of `p.user`: an online user answers from the own roster,
      an offline one from the contact's roster when the contact is online. */
  predicate ContactSubscribed(p: Pair) {
    if !p.userOnline && p.contactOnline then Watches(p.contact) else Grants(p.user)
  }

  /** is_user_subscribed, with the same shortcut. */
  predicate UserSubscribed(p: Pair) {
    if !p.userOnline && p.contactOnline then Grants(p.contact) else Watches(p.user)
  }

  function UserApplies(z: Stanza, p: Pair): (r: Pair)
    requires Sound(p)
    ensures Sound(r)
  {
    p.(user := Apply(z, p.user))
  }

  /** The contact's inbound handler, for the stanzas it only records. */
  function ContactApplies(z: Stanza, p: Pair): (r: Pair)
    requires Sound(p)
    ensures Sound(r)
  {
    p.(contact := Apply(z, p.contact))
  }

  /** The user's outbound unsubscribed: routed to the contact only when it changed something. */
  function SendUnsubscribed(p: Pair): (r: Pair)
    requires Sound(p)
    ensures Sound(r)
  {
    var q := UserApplies(OutUnsubscribed, p);
    if StateOf(q.user) == StateOf(p.user) then q else ContactApplies(InUnsubscribed, q)
  }

  /** The user's probe: a contact who does not grant presence answers with unsubscribed. */
  function SendProbe(p: Pair): (r: Pair)
    requires Sound(p)
    ensures Sound(r)
  {
    if ContactSubscribed(Flip(p)) then p else Flip(SendUnsubscribed(Flip(p)))
  }

  /** The user's outbound subscribed: routed in any case, followed by a probe of a contact the user watches. */
  function SendSubscribed(p: Pair): (r: Pair)
    requires Sound(p)
    ensures Sound(r)
  {
    var q := ContactApplies(InSubscribed, UserApplies(OutSubscribed, p));
    if UserSubscribed(q) then SendProbe(q) else q
  }

  /** The contact's inbound handler of subscribe: an approved user gets an automatic subscribed,
      any other request becomes pending. */
  function ReceiveSubscribe(p: Pair): (r: Pair)
    requires Sound(p)
    ensures Sound(r)
  {
    if ContactSubscribed(Flip(p)) then Flip(SendSubscribed(Flip(p)))
    else if p.contact.pending then p
    else ContactApplies(InSubscribe, p)
  }

  function SendSubscribe(p: Pair): (r: Pair)
    requires Sound(p)
    ensures Sound(r)
  {
    ReceiveSubscribe(UserApplies(OutSubscribe, p))
  }

  function SendUnsubscribe(p: Pair): (r: Pair)
    requires Sound(p)
    ensures Sound(r)
  {
    ContactApplies(InUnsubscribe, UserApplies(OutUnsubscribe, p))
  }

  /** A user's first available presence: probe the watched contact, then repeat an unanswered request. */
  function SendInitialPresence(p: Pair): (r: Pair)
    requires Sound(p)
    ensures Sound(r)
  {
    var q := if Watches(p.user) then SendProbe(p) else p;
    if Asks(q.user) then SendSubscribe(q) else q
  }

  /** Removing the roster item cancels both directions at the contact. */
  function RemoveItem(p: Pair): (r: Pair)
    requires Sound(p)
    ensures Sound(r)
  {
    if p.user.item.None? then p else
    var q := if Grants(p.user) || p.user.pending then ContactApplies(InUnsubscribed, p) else p;
    var q' := if Watches(p.user) || Asks(p.user) then ContactApplies(InUnsubscribe, q) else q;
    q'.(user := WithoutItem(p.user))
  }

  datatype Action =
    | Subscribe | Unsubscribe | Subscribed | Unsubscribed | Probe | InitialPresence
    | SetItem(name: Option<string>, groups: set<string>)
    | Remove
    | SetOnline(online: bool)

  /** One action of the user of `p`. */
  function Act(a: Action, p: Pair): (r: Pair)
    requires Sound(p)
    ensures Sound(r)
  {
    match a
    case Subscribe => SendSubscribe(p)
    case Unsubscribe => SendUnsubscribe(p)
    case Subscribed => SendSubscribed(p)
    case Unsubscribed => SendUnsubscribed(p)
    case Probe => SendProbe(p)
    case InitialPresence => SendInitialPresence(p)
    case SetItem(name, groups) => p.(user := WithItem(p.user, name, groups))
    case Remove => RemoveItem(p)
    case SetOnline(online) => p.(userOnline := online)
  }

  // ---- What a cascade does to the facts of the two entries ----

  /** `e'` is `e` with its outbound half (watching, asking) replaced. */
  predicate Outbound(e': Entry, e: Entry, watches: bool, asks: bool) {
    Watches(e') == watches && Asks(e') == asks && Grants(e') == Grants(e) && e'.pending == e.pending
  }

  /** `e'` is `e` with its inbound half (granting, pending) replaced. */
  predicate Inbound(e': Entry, e: Entry, grants: bool, pending: bool) {
    Watches(e') == Watches(e) && Asks(e') == Asks(e) && Grants(e') == grants && e'.pending == pending
  }

  lemma UnsubscribedFacts(p: Pair)
    requires Sound(p)
    ensures var r := SendUnsubscribed(p);
      && Inbound(r.user, p.user, false, false)
      && (if Grants(p.user) || p.user.pending then Outbound(r.contact, p.contact, false, false) else r.contact == p.contact)
      && r.userOnline == p.userOnline && r.contactOnline == p.contactOnline
  {
    ApplyFacts(OutUnsubscribed, p.user);
    StateIsFacts(Apply(OutUnsubscribed, p.user), p.user);
    ApplyFacts(InUnsubscribed, p.contact);
  }

  /** A refused probe ends the prober's own request and watch, if the contact had anything to cancel. */
  lemma ProbeFacts(p: Pair)
    requires Sound(p)
    ensures var r := SendProbe(p);
      && r.userOnline == p.userOnline && r.contactOnline == p.contactOnline
      && if ContactSubscribed(Flip(p)) then r == p else
         && Inbound(r.contact, p.contact, false, false)
         && (if Grants(p.contact) || p.contact.pending then Outbound(r.user, p.user, false, false) else r.user == p.user)
  {
    UnsubscribedFacts(Flip(p));
  }

  lemma UnsubscribeFacts(p: Pair)
    requires Sound(p)
    ensures var r := SendUnsubscribe(p);
      && Outbound(r.user, p.user, false, false)
      && Inbound(r.contact, p.contact, false, false)
      && r.userOnline == p.userOnline && r.contactOnline == p.contactOnline
  {
    ApplyFacts(OutUnsubscribe, p.user);
    ApplyFacts(InUnsubscribe, p.contact);
  }

  /** The two rosters right after an approval, before the probe that may follow it. */
  lemma ApprovalFacts(p: Pair)
    requires Sound(p)
    ensures var q := ContactApplies(InSubscribed, UserApplies(OutSubscribed, p));
      && Inbound(q.user, p.user, Grants(p.user) || p.user.pending, false)
      && Outbound(q.contact, p.contact, Watches(p.contact) || Asks(p.contact), false)
      && q.userOnline == p.userOnline && q.contactOnline == p.contactOnline
  {
    ApplyFacts(OutSubscribed, p.user);
    ApplyFacts(InSubscribed, p.contact);
  }

  // ---- Every run, item removal included ----

  /** No one watches without being granted, and no request is unknown to its recipient. */
  predicate Linked(p: Pair) {
    && Sound(p)
    && (Watches(p.user) ==> Grants(p.contact))
    && (Watches(p.contact) ==> Grants(p.user))
    && (Asks(p.user) ==> p.contact.pending || Grants(p.contact))
    && (Asks(p.contact) ==> p.user.pending || Grants(p.user))
  }

  lemma ProbeKeepsLinked(p: Pair)
    requires Linked(p)
    ensures Linked(SendProbe(p))
  {
    ProbeFacts(p);
  }

  lemma SubscribedKeepsLinked(p: Pair)
    requires Linked(p)
    ensures Linked(SendSubscribed(p))
  {
    ApprovalFacts(p);
    ProbeKeepsLinked(ContactApplies(InSubscribed, UserApplies(OutSubscribed, p)));
  }

  /** A request may reach the contact's handler before the contact's roster knows of it. */
  lemma SubscribeKeepsLinked(p: Pair)
    requires Linked(p)
    ensures Linked(SendSubscribe(p))
  {
    var q := UserApplies(OutSubscribe, p);
    ApplyFacts(OutSubscribe, p.user);
    if ContactSubscribed(Flip(q)) {
      assert Grants(q.contact);
      SubscribedKeepsLinked(Flip(q));
    } else {
      ApplyFacts(InSubscribe, q.contact);
    }
  }

  lemma RemoveKeepsLinked(p: Pair)
    requires Linked(p)
    ensures Linked(RemoveItem(p))
  {
    ApplyFacts(InUnsubscribed, p.contact);
    ApplyFacts(InUnsubscribe, p.contact);
    ApplyFacts(InUnsubscribe, Apply(InUnsubscribed, p.contact));
  }

  /** One action, whatever the two users' online status. */
  lemma ActKeepsLinked(a: Action, p: Pair)
    requires Linked(p)
    ensures Linked(Act(a, p))
  {
    match a
    case Subscribe => SubscribeKeepsLinked(p);
    case Unsubscribe => UnsubscribeFacts(p);
    case Subscribed => SubscribedKeepsLinked(p);
    case Unsubscribed => UnsubscribedFacts(p);
    case Probe => ProbeKeepsLinked(p);
    case InitialPresence =>
      ProbeKeepsLinked(p);
      SubscribeKeepsLinked(if Watches(p.user) then SendProbe(p) else p);
    case SetItem(name, groups) =>
    case Remove => RemoveKeepsLinked(p);
    case SetOnline(_) =>
  }

  // ---- Every run whose item removals are harmless ----

  /** The two rosters agree on both directions. */
  predicate Agreed(p: Pair) {
    && Sound(p)
    && (Watches(p.user) <==> Grants(p.contact))
    && (Watches(p.contact) <==> Grants(p.user))
    && (Asks(p.user) <==> p.contact.pending)
    && (Asks(p.contact) <==> p.user.pending)
  }

  /** One direction between two users. */
  datatype Link = Off | Requested | On

  function LinkOf(e: Entry): Link {
    if Watches(e) then On else if Asks(e) then Requested else Off
  }

  /** Two independent directions: the user watching the contact, and the contact watching the user. */
  datatype Links = Links(user: Link, contact: Link)

  function LinksOf(p: Pair): Links {
    Links(LinkOf(p.user), LinkOf(p.contact))
  }

  /** What an action does to the links: each one moves a single link and never looks at the other.
      A probe is refused unless the link is on, and the refusal also cancels a waiting request. Removing
      an item ends both links; a contact's request that still waits has no item and so stays. */
  function Intended(a: Action, l: Links): Links {
    match a
    case Subscribe => if l.user == Off then l.(user := Requested) else l
    case Unsubscribe => l.(user := Off)
    case Subscribed => if l.contact == Requested then l.(contact := On) else l
    case Unsubscribed => l.(contact := Off)
    case Probe => if l.user == On then l else l.(user := Off)
    case Remove => Links(Off, if l.contact == Requested then Requested else Off)
    case _ => l
  }

  /** There is no item to remove, or no pending request that would outlive it. */
  predicate Harmless(p: Pair) {
    p.user.item.None? || !p.user.pending
  }

  /** The online shortcut gives the answer of the own roster exactly when the rosters
      agree on that direction, or when it is not taken. */
  lemma ShortcutIsExact(p: Pair)
    ensures ContactSubscribed(p) == Grants(p.user) <==>
      p.userOnline || !p.contactOnline || Watches(p.contact) == Grants(p.user)
    ensures UserSubscribed(p) == Watches(p.user) <==>
      p.userOnline || !p.contactOnline || Grants(p.contact) == Watches(p.user)
    ensures Agreed(p) ==> ContactSubscribed(p) == Grants(p.user) && UserSubscribed(p) == Watches(p.user)
  {
  }

  lemma ProbeRefines(p: Pair)
    requires Agreed(p)
    ensures Agreed(SendProbe(p)) && LinksOf(SendProbe(p)) == Intended(Probe, LinksOf(p))
    ensures Watches(p.user) ==> SendProbe(p) == p
  {
    ProbeFacts(p);
  }

  lemma SubscribedRefines(p: Pair)
    requires Agreed(p)
    ensures Agreed(SendSubscribed(p)) && LinksOf(SendSubscribed(p)) == Intended(Subscribed, LinksOf(p))
  {
    ApprovalFacts(p);
    var q := ContactApplies(InSubscribed, UserApplies(OutSubscribed, p));
    assert Agreed(q);
    ProbeRefines(q);
  }

  lemma SubscribeRefines(p: Pair)
    requires Agreed(p)
    ensures Agreed(SendSubscribe(p)) && LinksOf(SendSubscribe(p)) == Intended(Subscribe, LinksOf(p))
  {
    var q := UserApplies(OutSubscribe, p);
    ApplyFacts(OutSubscribe, p.user);
    if ContactSubscribed(Flip(q)) {
      assert Agreed(Flip(q));
      SubscribedRefines(Flip(q));
    } else {
      ApplyFacts(InSubscribe, q.contact);
    }
  }

  lemma RemoveRefines(p: Pair)
    requires Agreed(p) && Harmless(p)
    ensures Agreed(RemoveItem(p)) && LinksOf(RemoveItem(p)) == Intended(Remove, LinksOf(p))
  {
    ApplyFacts(InUnsubscribed, p.contact);
    ApplyFacts(InUnsubscribe, p.contact);
    ApplyFacts(InUnsubscribe, Apply(InUnsubscribed, p.contact));
  }

  /** The cascade over two rosters, with its automatic replies and its roster shortcut,
      is one move of the links, and both rosters record it. */
  lemma ActRefinesLinks(a: Action, p: Pair)
    requires Agreed(p) && (a.Remove? ==> Harmless(p))
    ensures Agreed(Act(a, p))
    ensures LinksOf(Act(a, p)) == Intended(a, LinksOf(p))
  {
    match a
    case Subscribe => SubscribeRefines(p);
    case Unsubscribe => UnsubscribeFacts(p);
    case Subscribed => SubscribedRefines(p);
    case Unsubscribed => UnsubscribedFacts(p);
    case Probe => ProbeRefines(p);
    case InitialPresence =>
      ProbeRefines(p);
      SubscribeRefines(p);
    case SetItem(name, groups) =>
    case Remove => RemoveRefines(p);
    case SetOnline(_) =>
  }

  /** Item removal withdraws both links at both ends, but a pending inbound request outlives the
      item: the rosters still agree exactly when there was no such request, or no item to remove. */
  lemma RemoveAgreement(p: Pair)
    requires Agreed(p)
    ensures p.user.item.Some? ==> LinksOf(Act(Remove, p)) == Links(Off, Off)
    ensures Agreed(Act(Remove, p)) <==> Harmless(p)
  {
    ApplyFacts(InUnsubscribed, p.contact);
    ApplyFacts(InUnsubscribe, p.contact);
    ApplyFacts(InUnsubscribe, Apply(InUnsubscribed, p.contact));
  }
}
