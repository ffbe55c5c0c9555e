/** One user's roster: core/rostermanager.lua with the client-facing
    edits of plugins/mod_roster.lua.

    Stored rosters are loaded and saved without failure. `version` is the
    counter that every save increments and that a client compares before
    asking for the items again.
 */
module RosterManager {
  import opened Wrappers
  import opened RosterEntry

  datatype SetOutcome = Stored | NotAllowed
  datatype RemoveOutcome = Removed(event: Entry) | ItemNotFound | SelfNotAllowed

  class Roster {
    const owner: Jid
    var items: map<Jid, Item>
    var pending: set<Jid>
    var version: nat

    function EntryOf(jid: Jid): (e: Entry)
      reads this
    {
      Entry(if jid in items then Some(items[jid]) else None, jid in pending)
    }

    /** Every contact is in one of the nine states. */
    ghost predicate Valid()
      reads this
    {
      forall jid: Jid :: WellFormed(EntryOf(jid))
    }

    /** Only the entry of `jid` may have changed, to `e`, and the version grew exactly when it was saved. */
    twostate predicate Becomes(jid: Jid, e: Entry, saved: bool)
      reads this
    {
      && EntryOf(jid) == e
      && (forall j: Jid :: j != jid ==> EntryOf(j) == old(EntryOf(j)))
      && version == old(version) + if saved then 1 else 0
    }

    constructor (owner: Jid)
      ensures Valid() && this.owner == owner
      ensures forall jid: Jid :: EntryOf(jid) == NOTHING
      ensures version == 0
    {
      this.owner := owner;
      items, pending, version := map[], {}, 0;
    }

    method Save()
      modifies this`version
      ensures version == old(version) + 1
    {
      version := version + 1;
    }

    /** process_inbound_subscription_approval */
    method ProcessInboundSubscriptionApproval(jid: Jid) returns (changed: bool)
      requires Valid()
      modifies this
      ensures Valid()
      ensures Becomes(jid, Apply(InSubscribed, old(EntryOf(jid))), changed)
      ensures changed <==> Table(InSubscribed, StateOf(old(EntryOf(jid)))) != StateOf(old(EntryOf(jid)))
    {
      assert WellFormed(EntryOf(jid));
      changed := false;
      if jid in items && items[jid].ask {
        var item := items[jid];
        if item.subscription == SubNone {
          item := item.(subscription := SubTo);
        } else {
          item := item.(subscription := SubBoth);
        }
        items := items[jid := item.(ask := false)];
        Save();
        changed := true;
      }
      assert forall j: Jid :: j != jid ==> EntryOf(j) == old(EntryOf(j));
    }

    /** process_inbound_subscription_cancellation */
    method ProcessInboundSubscriptionCancellation(jid: Jid) returns (changed: bool)
      requires Valid()
      modifies this
      ensures Valid()
      ensures Becomes(jid, Apply(InUnsubscribed, old(EntryOf(jid))), changed)
      ensures changed <==> Table(InUnsubscribed, StateOf(old(EntryOf(jid)))) != StateOf(old(EntryOf(jid)))
    {
      assert WellFormed(EntryOf(jid));
      changed := false;
      if jid in items && items[jid].ask {
        items := items[jid := items[jid].(ask := false)];
        changed := true;
      }
      if jid in items {
        if items[jid].subscription == SubTo {
          items := items[jid := items[jid].(subscription := SubNone)];
          changed := true;
        } else if items[jid].subscription == SubBoth {
          items := items[jid := items[jid].(subscription := SubFrom)];
          changed := true;
        }
      }
      if changed {
        Save();
      }
      assert forall j: Jid :: j != jid ==> EntryOf(j) == old(EntryOf(j));
    }

    /** process_inbound_unsubscribe */
    method ProcessInboundUnsubscribe(jid: Jid) returns (changed: bool)
      requires Valid()
      modifies this
      ensures Valid()
      ensures Becomes(jid, Apply(InUnsubscribe, old(EntryOf(jid))), changed)
      ensures changed <==> Table(InUnsubscribe, StateOf(old(EntryOf(jid)))) != StateOf(old(EntryOf(jid)))
    {
      assert WellFormed(EntryOf(jid));
      changed := false;
      if jid in pending {
        pending := pending - {jid};
        changed := true;
      }
      if jid in items {
        if items[jid].subscription == SubFrom {
          items := items[jid := items[jid].(subscription := SubNone)];
          changed := true;
        } else if items[jid].subscription == SubBoth {
          items := items[jid := items[jid].(subscription := SubTo)];
          changed := true;
        }
      }
      if changed {
        Save();
      }
      assert forall j: Jid :: j != jid ==> EntryOf(j) == old(EntryOf(j));
    }

    /** set_contact_pending_in, the roster change of an inbound subscribe. A request that is
        already pending is saved again, so `saved` is not the same as a change of state. */
    method SetContactPendingIn(jid: Jid) returns (saved: bool)
      requires Valid()
      modifies this
      ensures Valid()
      ensures Becomes(jid, Apply(InSubscribe, old(EntryOf(jid))), saved)
      ensures saved <==> !Grants(old(EntryOf(jid)))
    {
      assert WellFormed(EntryOf(jid));
      if jid in items && (items[jid].subscription == SubFrom || items[jid].subscription == SubBoth) {
        return false;
      }
      pending := pending + {jid};
      Save();
      saved := true;
      assert forall j: Jid :: j != jid ==> EntryOf(j) == old(EntryOf(j));
    }

    /** set_contact_pending_out, the roster change of an outbound subscribe. It always
        reports success, so the item is pushed even when nothing changed. */
    method SetContactPendingOut(jid: Jid) returns (push: bool)
      requires Valid()
      modifies this
      ensures Valid() && push
      ensures Becomes(jid, Apply(OutSubscribe, old(EntryOf(jid))),
                      Table(OutSubscribe, StateOf(old(EntryOf(jid)))) != StateOf(old(EntryOf(jid))))
    {
      assert WellFormed(EntryOf(jid));
      if jid in items && (items[jid].ask || items[jid].subscription == SubTo || items[jid].subscription == SubBoth) {
        return true;
      }
      if jid !in items {
        items := items[jid := Item(SubNone, false, None, {})];
      }
      items := items[jid := items[jid].(ask := true)];
      Save();
      push := true;
      assert forall j: Jid :: j != jid ==> EntryOf(j) == old(EntryOf(j));
    }

    /** unsubscribe */
    method Unsubscribe(jid: Jid) returns (push: bool)
      requires Valid()
      modifies this
      ensures Valid()
      ensures push <==> old(EntryOf(jid)).item.Some?
      ensures Becomes(jid, Apply(OutUnsubscribe, old(EntryOf(jid))),
                      Table(OutUnsubscribe, StateOf(old(EntryOf(jid)))) != StateOf(old(EntryOf(jid))))
    {
      assert WellFormed(EntryOf(jid));
      if jid !in items {
        return false;
      }
      var item := items[jid];
      if (item.subscription == SubFrom || item.subscription == SubNone) && !item.ask {
        return true;
      }
      item := item.(ask := false);
      if item.subscription == SubBoth {
        item := item.(subscription := SubFrom);
      } else if item.subscription == SubTo {
        item := item.(subscription := SubNone);
      }
      items := items[jid := item];
      Save();
      push := true;
      assert forall j: Jid :: j != jid ==> EntryOf(j) == old(EntryOf(j));
    }

    /** subscribed */
    method Subscribed(jid: Jid) returns (changed: bool)
      requires Valid()
      modifies this
      ensures Valid()
      ensures Becomes(jid, Apply(OutSubscribed, old(EntryOf(jid))), changed)
      ensures changed <==> Table(OutSubscribed, StateOf(old(EntryOf(jid)))) != StateOf(old(EntryOf(jid)))
    {
      assert WellFormed(EntryOf(jid));
      changed := false;
      if jid in pending {
        if jid !in items {
          items := items[jid := Item(SubNone, false, None, {})];
        }
        if items[jid].subscription == SubNone {
          items := items[jid := items[jid].(subscription := SubFrom)];
        } else {
          items := items[jid := items[jid].(subscription := SubBoth)];
        }
        pending := pending - {jid};
        Save();
        changed := true;
      }
      assert forall j: Jid :: j != jid ==> EntryOf(j) == old(EntryOf(j));
    }

    /** unsubscribed */
    method Unsubscribed(jid: Jid) returns (success: bool, wasPending: bool, wasSubscribed: bool)
      requires Valid()
      modifies this
      ensures Valid()
      ensures wasPending == old(EntryOf(jid)).pending && wasSubscribed == Grants(old(EntryOf(jid)))
      ensures Becomes(jid, Apply(OutUnsubscribed, old(EntryOf(jid))), success)
      ensures success <==> Table(OutUnsubscribed, StateOf(old(EntryOf(jid)))) != StateOf(old(EntryOf(jid)))
    {
      assert WellFormed(EntryOf(jid));
      wasPending, wasSubscribed := jid in pending, false;
      if wasPending {
        pending := pending - {jid};
      }
      if jid in items {
        if items[jid].subscription == SubFrom {
          items := items[jid := items[jid].(subscription := SubNone)];
          wasSubscribed := true;
        } else if items[jid].subscription == SubBoth {
          items := items[jid := items[jid].(subscription := SubTo)];
          wasSubscribed := true;
        }
      }
      success := wasPending || wasSubscribed;
      if success {
        Save();
      }
      assert forall j: Jid :: j != jid ==> EntryOf(j) == old(EntryOf(j));
    }

    /** A client's roster set: the client chooses name and groups and nothing else. */
    method SetItem(jid: Jid, name: Option<string>, groups: set<string>) returns (outcome: SetOutcome)
      requires Valid()
      modifies this
      ensures Valid()
      ensures outcome == if jid == owner then NotAllowed else Stored
      ensures outcome == NotAllowed ==> Becomes(jid, old(EntryOf(jid)), false)
      ensures outcome == Stored ==>
        Becomes(jid, WithItem(old(EntryOf(jid)), if name == Some("") then None else name, groups), true)
    {
      assert WellFormed(EntryOf(jid));
      if jid == owner {
        return NotAllowed;
      }
      var item := Item(SubNone, false, if name == Some("") then None else name, groups);
      if jid in items {
        item := item.(subscription := items[jid].subscription, ask := items[jid].ask);
      }
      items := items[jid := item];
      Save();
      outcome := Stored;
      assert forall j: Jid :: j != jid ==> EntryOf(j) == old(EntryOf(j));
    }

    /** A client's roster remove. The entry as it was before is handed to the
        `roster-item-removed` hooks. */
    method RemoveItem(jid: Jid) returns (outcome: RemoveOutcome)
      requires Valid()
      modifies this
      ensures Valid()
      ensures outcome ==
        if jid == owner then SelfNotAllowed
        else if old(EntryOf(jid)).item.None? then ItemNotFound
        else Removed(old(EntryOf(jid)))
      ensures outcome.Removed? ==> Becomes(jid, WithoutItem(old(EntryOf(jid))), true)
      ensures !outcome.Removed? ==> Becomes(jid, old(EntryOf(jid)), false)
    {
      assert WellFormed(EntryOf(jid));
      if jid == owner {
        return SelfNotAllowed;
      }
      if jid !in items {
        return ItemNotFound;
      }
      outcome := Removed(EntryOf(jid));
      items := items - {jid};
      Save();
      assert forall j: Jid :: j != jid ==> EntryOf(j) == old(EntryOf(j));
    }
  }
}
