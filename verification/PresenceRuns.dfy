/** Runs of the subscription protocol over any number of users of one host. */
module PresenceRuns {
  import opened Wrappers
  import opened RosterEntry
  import opened PresenceProtocol

  /** Every user's roster entry for every contact, and who has a session. */
  datatype World = World(entries: map<(Jid, Jid), Entry>, online: set<Jid>)

  const EMPTY := World(map[], {})

  function EntryFor(w: World, user: Jid, contact: Jid): Entry {
    if (user, contact) in w.entries then w.entries[(user, contact)] else NOTHING
  }

  function PairOf(w: World, user: Jid, contact: Jid): Pair {
    Pair(EntryFor(w, user, contact), EntryFor(w, contact, user), user in w.online, contact in w.online)
  }

  datatype Step = Step(user: Jid, contact: Jid, action: Action)

  ghost predicate AllSound(w: World) {
    forall u, c :: Sound(PairOf(w, u, c))
  }

  /** One action of one user towards one contact; users are never their own contacts. */
  function Next(w: World, s: Step): World
    requires AllSound(w)
  {
    if s.user == s.contact then w else
    var r := Act(s.action, PairOf(w, s.user, s.contact));
    World(w.entries[(s.user, s.contact) := r.user][(s.contact, s.user) := r.contact],
          if r.userOnline then w.online + {s.user} else w.online - {s.user})
  }

  /** A step leaves every entry outside its own pair alone. */
  lemma NextPair(w: World, s: Step, u: Jid, c: Jid)
    requires AllSound(w)
    requires u != c && s.user != s.contact
    ensures var p, p' := PairOf(w, u, c), PairOf(Next(w, s), u, c);
      if (u, c) == (s.user, s.contact) then p'.user == Act(s.action, p).user && p'.contact == Act(s.action, p).contact
      else if (c, u) == (s.user, s.contact) then
        p'.contact == Act(s.action, Flip(p)).user && p'.user == Act(s.action, Flip(p)).contact
      else p'.user == p.user && p'.contact == p.contact
  {
  }

  ghost function Run(steps: seq<Step>): (w: World)
    ensures AllSound(w)
  {
    if steps == [] then EMPTY else
    var w := Run(steps[..|steps| - 1]);
    var w' := Next(w, steps[|steps| - 1]);
    assert AllSound(w') by {
      forall u, c ensures Sound(PairOf(w', u, c)) {
        var s := steps[|steps| - 1];
        assert Sound(PairOf(w, u, c)) && Sound(PairOf(w, s.user, s.contact));
      }
    }
    w'
  }

  /** For every two users, after every run: a watched user grants presence to the
      watcher, and a request is pending or already granted at its recipient. */
  lemma {:induction false} EveryRunIsLinked(steps: seq<Step>, u: Jid, c: Jid)
    requires u != c
    ensures Linked(PairOf(Run(steps), u, c))
  {
    if steps != [] {
      var w, s := Run(steps[..|steps| - 1]), steps[|steps| - 1];
      EveryRunIsLinked(steps[..|steps| - 1], u, c);
      if s.user != s.contact {
        NextPair(w, s, u, c);
        if (u, c) == (s.user, s.contact) {
          ActKeepsLinked(s.action, PairOf(w, u, c));
        } else if (c, u) == (s.user, s.contact) {
          ActKeepsLinked(s.action, PairOf(w, c, u));
        }
      }
    }
  }

  /** Whenever one of the two users removed the other, there was no item or no pending request. */
  ghost predicate HarmlessRemovals(steps: seq<Step>, u: Jid, c: Jid) {
    forall i :: 0 <= i < |steps| && Between(steps[i], u, c) && steps[i].action.Remove? ==>
      Harmless(PairOf(Run(steps[..i]), steps[i].user, steps[i].contact))
  }

  /** The step is one of `u` towards `c` or the other way round. */
  predicate Between(s: Step, u: Jid, c: Jid) {
    (s.user == u && s.contact == c) || (s.user == c && s.contact == u)
  }

  /** How a step moves the link from `u` to `c`: the watcher subscribes, unsubscribes
      or probes, the watched user approves or cancels, either removes the item, and no one else matters. */
  function LinkNext(s: Step, u: Jid, c: Jid, l: Link): Link {
    if (s.user, s.contact) == (u, c) then
      (match s.action
       case Subscribe => if l == Off then Requested else l
       case Unsubscribe => Off
       case Probe => if l == On then On else Off
       case Remove => Off
       case _ => l)
    else if (s.user, s.contact) == (c, u) then
      (match s.action
       case Subscribed => if l == Requested then On else l
       case Unsubscribed => Off
       case Remove => if l == Requested then Requested else Off
       case _ => l)
    else l
  }

  /** The link from `u` to `c` after a run, computed without any roster. */
  ghost function LinkAfter(steps: seq<Step>, u: Jid, c: Jid): Link {
    if steps == [] then Off
    else LinkNext(steps[|steps| - 1], u, c, LinkAfter(steps[..|steps| - 1], u, c))
  }

  lemma IntendedIsNext(s: Step, l: Links)
    requires s.user != s.contact
    ensures Intended(s.action, l) == Links(LinkNext(s, s.user, s.contact, l.user), LinkNext(s, s.contact, s.user, l.contact))
  {
  }

  /** The step's own pair moves as its action intends. */
  lemma OwnPairRefines(w: World, s: Step)
    requires AllSound(w) && s.user != s.contact && Agreed(PairOf(w, s.user, s.contact))
    requires s.action.Remove? ==> Harmless(PairOf(w, s.user, s.contact))
    ensures Agreed(PairOf(Next(w, s), s.user, s.contact))
    ensures LinksOf(PairOf(Next(w, s), s.user, s.contact)) == Intended(s.action, LinksOf(PairOf(w, s.user, s.contact)))
  {
    NextPair(w, s, s.user, s.contact);
    ActRefinesLinks(s.action, PairOf(w, s.user, s.contact));
  }

  lemma NextRefinesLinks(w: World, s: Step, u: Jid, c: Jid)
    requires u != c && AllSound(w) && Agreed(PairOf(w, u, c))
    requires Between(s, u, c) && s.action.Remove? ==> Harmless(PairOf(w, s.user, s.contact))
    ensures Agreed(PairOf(Next(w, s), u, c))
    ensures LinkOf(EntryFor(Next(w, s), u, c)) == LinkNext(s, u, c, LinkOf(EntryFor(w, u, c)))
    ensures LinkOf(EntryFor(Next(w, s), c, u)) == LinkNext(s, c, u, LinkOf(EntryFor(w, c, u)))
  {
    if s.user != s.contact {
      if Between(s, u, c) {
        OwnPairRefines(w, s);
        IntendedIsNext(s, LinksOf(PairOf(w, s.user, s.contact)));
      } else {
        NextPair(w, s, u, c);
      }
    }
  }

  lemma HarmlessBefore(steps: seq<Step>, u: Jid, c: Jid)
    requires steps != [] && HarmlessRemovals(steps, u, c)
    ensures HarmlessRemovals(steps[..|steps| - 1], u, c)
  {
    var pre := steps[..|steps| - 1];
    forall i | 0 <= i < |pre| && Between(pre[i], u, c) && pre[i].action.Remove?
      ensures Harmless(PairOf(Run(pre[..i]), pre[i].user, pre[i].contact))
    {
      assert pre[..i] == steps[..i] && pre[i] == steps[i];
    }
  }

  /** As long as no removal is harmful, both rosters of every two users agree at all times, and what they
      record is the link computed from the two users' own actions: no other user's action, no
      automatic reply and no online status makes a difference. */
  lemma {:induction false} RunRefinesLinks(steps: seq<Step>, u: Jid, c: Jid)
    requires u != c && HarmlessRemovals(steps, u, c)
    ensures Agreed(PairOf(Run(steps), u, c))
    ensures LinkOf(EntryFor(Run(steps), u, c)) == LinkAfter(steps, u, c)
    ensures LinkOf(EntryFor(Run(steps), c, u)) == LinkAfter(steps, c, u)
  {
    if steps != [] {
      HarmlessBefore(steps, u, c);
      RunRefinesLinks(steps[..|steps| - 1], u, c);
      NextRefinesLinks(Run(steps[..|steps| - 1]), steps[|steps| - 1], u, c);
    }
  }

  /** So in such a run every query of a roster is answered as the user's own roster would. */
  lemma ShortcutAgrees(steps: seq<Step>, u: Jid, c: Jid)
    requires u != c && HarmlessRemovals(steps, u, c)
    ensures ContactSubscribed(PairOf(Run(steps), u, c)) <==> LinkAfter(steps, c, u) == On
    ensures UserSubscribed(PairOf(Run(steps), u, c)) <==> LinkAfter(steps, u, c) == On
  {
    RunRefinesLinks(steps, u, c);
  }

  /** The first harmful removal ends the agreement. */
  lemma HarmfulRemoval(steps: seq<Step>, u: Jid, c: Jid)
    requires u != c && HarmlessRemovals(steps, u, c) && !Harmless(PairOf(Run(steps), u, c))
    ensures !Agreed(PairOf(Run(steps + [Step(u, c, Remove)]), u, c))
  {
    var s := Step(u, c, Remove);
    assert (steps + [s])[..|steps|] == steps;
    RunRefinesLinks(steps, u, c);
    RemoveAgreement(PairOf(Run(steps), u, c));
    NextPair(Run(steps), s, u, c);
  }

  /** `c` asks for the presence of `u`, and `u` names `c` in the roster. */
  function RequestThenItem(u: Jid, c: Jid): seq<Step> {
    [Step(c, u, Subscribe), Step(u, c, SetItem(None, {}))]
  }

  /** When `u` removes the item again, `c` still waits in the roster of `u`, but no longer asks. */
  lemma DisagreementReached(u: Jid, c: Jid)
    requires u != c
    ensures !Agreed(PairOf(Run(RequestThenItem(u, c) + [Step(u, c, Remove)]), u, c))
  {
    var steps := RequestThenItem(u, c);
    var one := [steps[0]];
    assert one[..0] == [] && steps[..1] == one;
    assert Run([]) == EMPTY;
    NextPair(EMPTY, steps[0], u, c);
    RunRefinesLinks(one, u, c);
    assert EntryFor(Run(one), u, c).pending;
    NextPair(Run(one), steps[1], u, c);
    HarmfulRemoval(steps, u, c);
  }
}
