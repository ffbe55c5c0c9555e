/** The two stanza handlers of plugins/mod_presence.lua, and its hook on
    removed roster items, run on the roster objects of two users of one host.
 */
module PresenceHandlers {
  import opened RosterEntry
  import opened RosterManager
  import P = PresenceProtocol

  datatype Kind = Probe | Subscribe | Unsubscribe | Subscribed | Unsubscribed

  /** How many automatic replies a stanza can still set off. */
  function Rank(k: Kind): nat {
    match k
    case Subscribe => 3
    case Subscribed => 2
    case Probe => 1
    case _ => 0
  }

  /** The effect of a stanza the user of the pair sends. */
  ghost function Sent(k: Kind, p: P.Pair): P.Pair
    requires P.Sound(p)
  {
    match k
    case Probe => P.SendProbe(p)
    case Subscribe => P.SendSubscribe(p)
    case Unsubscribe => P.SendUnsubscribe(p)
    case Subscribed => P.SendSubscribed(p)
    case Unsubscribed => P.SendUnsubscribed(p)
  }

  /** The effect of a stanza once it has reached the contact of the pair. */
  ghost function Received(k: Kind, p: P.Pair): P.Pair
    requires P.Sound(p)
  {
    match k
    case Probe => P.SendProbe(p)
    case Subscribe => P.ReceiveSubscribe(p)
    case Unsubscribe => P.ContactApplies(InUnsubscribe, p)
    case Subscribed => P.ContactApplies(InSubscribed, p)
    case Unsubscribed => P.ContactApplies(InUnsubscribed, p)
  }

  /** Who is online does not change while a stanza is handled. */
  datatype Online = Online(user: bool, contact: bool)

  ghost function PairFor(user: Roster, contact: Roster, on: Online): P.Pair
    reads user, contact
  {
    P.Pair(user.EntryOf(contact.owner), contact.EntryOf(user.owner), on.user, on.contact)
  }

  ghost predicate Ready(user: Roster, contact: Roster)
    reads user, contact
  {
    user.Valid() && contact.Valid() && user.owner != contact.owner
  }

  /** Entries for third parties are left alone. */
  twostate predicate OthersKept(user: Roster, contact: Roster)
    reads user, contact
  {
    && (forall j: Jid :: j != contact.owner ==> user.EntryOf(j) == old(user.EntryOf(j)))
    && (forall j: Jid :: j != user.owner ==> contact.EntryOf(j) == old(contact.EntryOf(j)))
  }

  /** is_contact_subscribed, asked for the owner of `own` about the owner of `peer`. */
  method IsContactSubscribed(own: Roster, peer: Roster, ownOnline: bool, peerOnline: bool) returns (result: bool)
    ensures result == P.ContactSubscribed(PairFor(own, peer, Online(ownOnline, peerOnline)))
  {
    if ownOnline {
      result := peer.owner in own.items &&
                (own.items[peer.owner].subscription == SubBoth || own.items[peer.owner].subscription == SubFrom);
    } else if peerOnline {
      result := own.owner in peer.items &&
                (peer.items[own.owner].subscription == SubBoth || peer.items[own.owner].subscription == SubTo);
    } else {
      result := peer.owner in own.items &&
                (own.items[peer.owner].subscription == SubFrom || own.items[peer.owner].subscription == SubBoth);
    }
  }

  /** is_user_subscribed */
  method IsUserSubscribed(own: Roster, peer: Roster, ownOnline: bool, peerOnline: bool) returns (result: bool)
    ensures result == P.UserSubscribed(PairFor(own, peer, Online(ownOnline, peerOnline)))
  {
    if ownOnline {
      result := peer.owner in own.items &&
                (own.items[peer.owner].subscription == SubBoth || own.items[peer.owner].subscription == SubTo);
    } else if peerOnline {
      result := own.owner in peer.items &&
                (peer.items[own.owner].subscription == SubBoth || peer.items[own.owner].subscription == SubFrom);
    } else {
      result := peer.owner in own.items &&
                (own.items[peer.owner].subscription == SubTo || own.items[peer.owner].subscription == SubBoth);
    }
  }

  /** handle_outbound_presence_subscriptions_and_probes */
  method HandleOutbound(k: Kind, user: Roster, contact: Roster, on: Online)
    requires Ready(user, contact)
    modifies user, contact
    ensures Ready(user, contact) && OthersKept(user, contact)
    ensures PairFor(user, contact, on) == Sent(k, old(PairFor(user, contact, on)))
    decreases Rank(k), 1
  {
    assert P.Sound(PairFor(user, contact, on));
    match k {
      case Probe =>
        HandleInbound(k, user, contact, on);
      case Subscribe =>
        var _ := user.SetContactPendingOut(contact.owner);
        HandleInbound(k, user, contact, on);
      case Unsubscribe =>
        var _ := user.Unsubscribe(contact.owner);
        HandleInbound(k, user, contact, on);
      case Subscribed =>
        var _ := user.Subscribed(contact.owner);
        HandleInbound(k, user, contact, on);
        var subscribed := IsUserSubscribed(user, contact, on.user, on.contact);
        if subscribed {
          HandleInbound(Probe, user, contact, on);
        }
      case Unsubscribed =>
        var success, _, _ := user.Unsubscribed(contact.owner);
        if success {
          HandleInbound(k, user, contact, on);
        }
    }
  }

  /** handle_inbound_presence_subscriptions_and_probes */
  method HandleInbound(k: Kind, user: Roster, contact: Roster, on: Online)
    requires Ready(user, contact)
    modifies user, contact
    ensures Ready(user, contact) && OthersKept(user, contact)
    ensures PairFor(user, contact, on) == Received(k, old(PairFor(user, contact, on)))
    decreases Rank(k), 0
  {
    assert P.Sound(PairFor(user, contact, on));
    match k {
      case Probe =>
        var granted := IsContactSubscribed(contact, user, on.contact, on.user);
        if !granted {
          HandleOutbound(Unsubscribed, contact, user, Online(on.contact, on.user));
        }
      case Subscribe =>
        var granted := IsContactSubscribed(contact, user, on.contact, on.user);
        if granted {
          HandleOutbound(Subscribed, contact, user, Online(on.contact, on.user));
        } else if user.owner !in contact.pending {
          var _ := contact.SetContactPendingIn(user.owner);
        }
      case Unsubscribe =>
        var _ := contact.ProcessInboundUnsubscribe(user.owner);
      case Subscribed =>
        var _ := contact.ProcessInboundSubscriptionApproval(user.owner);
      case Unsubscribed =>
        var _ := contact.ProcessInboundSubscriptionCancellation(user.owner);
    }
  }

  /** The part of a user's first available presence that concerns one contact: a probe of a contact whom the user
      watches, then a request that was not answered yet. */
  method HandleInitialPresence(user: Roster, contact: Roster, on: Online)
    requires Ready(user, contact)
    modifies user, contact
    ensures Ready(user, contact) && OthersKept(user, contact)
    ensures PairFor(user, contact, on) == P.SendInitialPresence(old(PairFor(user, contact, on)))
  {
    assert P.Sound(PairFor(user, contact, on));
    if contact.owner in user.items &&
       (user.items[contact.owner].subscription == SubBoth || user.items[contact.owner].subscription == SubTo) {
      HandleOutbound(Probe, user, contact, on);
    }
    if contact.owner in user.items && user.items[contact.owner].ask {
      HandleOutbound(Subscribe, user, contact, on);
    }
  }

  /** A roster remove with its `roster-item-removed` hook: the hook sees the item before it goes. */
  method RemoveItem(user: Roster, contact: Roster, on: Online) returns (outcome: RemoveOutcome)
    requires Ready(user, contact)
    modifies user, contact
    ensures Ready(user, contact) && OthersKept(user, contact)
    ensures PairFor(user, contact, on) == P.RemoveItem(old(PairFor(user, contact, on)))
    ensures outcome.Removed? <==> old(PairFor(user, contact, on)).user.item.Some?
  {
    assert P.Sound(PairFor(user, contact, on));
    if contact.owner in user.items {
      var item, waiting := user.items[contact.owner], contact.owner in user.pending;
      if item.subscription == SubBoth || item.subscription == SubFrom || waiting {
        HandleInbound(Unsubscribed, user, contact, on);
      }
      if item.subscription == SubBoth || item.subscription == SubTo || item.ask {
        HandleInbound(Unsubscribe, user, contact, on);
      }
    }
    outcome := user.RemoveItem(contact.owner);
  }
}
