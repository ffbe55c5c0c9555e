/** The registry of client sessions (core/sessionmanager.lua).

    Three tables describe the bound sessions: `full_sessions` by full JID, `bare_sessions` by bare
    JID, and `hosts[h].sessions` by username. The last two hold the same record per user, a table
    of that user's sessions by resource, so records are modelled by reference.

    JIDs are kept in their parts. No hook vetoes a bind or an unbind, and `session:close`
    with a reason destroys the session before it returns.
 */
module SessionRegistry {
  import opened Wrappers

  datatype BareJid = BareJid(user: string, host: string)
  datatype FullJid = FullJid(bare: BareJid, resource: string)

  type SessionId = int
  type RecordId = int

  /** The tables: the index by full JID, the two indexes of records, the records,
      and for whom each record was made. */
  datatype Tables = Tables(
    full: map<FullJid, SessionId>,
    bare: map<BareJid, RecordId>,
    byHost: map<(string, string), RecordId>,
    records: map<RecordId, map<string, SessionId>>,
    owners: map<RecordId, BareJid>)

  /** The three indexes describe the same sessions, and a user is known exactly while it has one.
      While a resource is being bound or dropped, the record of `spare` may be empty. */
  ghost predicate Agree(t: Tables, spare: Option<BareJid>) {
    && (forall b: BareJid :: b in t.bare <==> (b.host, b.user) in t.byHost)
    && (forall b: BareJid :: b in t.bare ==> t.byHost[(b.host, b.user)] == t.bare[b])
    && (forall b: BareJid :: b in t.bare ==> t.bare[b] in t.records)
    && (forall b: BareJid :: b in t.bare ==> t.records[t.bare[b]] != map[] || spare == Some(b))
    && (forall b: BareJid :: b in t.bare ==> t.bare[b] in t.owners && t.owners[t.bare[b]] == b)
    && (forall f: FullJid :: f in t.full <==> f.bare in t.bare && f.resource in t.records[t.bare[f.bare]])
    && (forall f: FullJid :: f in t.full ==> t.full[f] == t.records[t.bare[f.bare]][f.resource])
  }

  function AddUser(t: Tables, b: BareJid, u: RecordId): Tables {
    Tables(t.full, t.bare[b := u], t.byHost[(b.host, b.user) := u], t.records[u := map[]], t.owners[u := b])
  }

  function Put(t: Tables, f: FullJid, s: SessionId): Tables
    requires f.bare in t.bare && t.bare[f.bare] in t.records
  {
    var u := t.bare[f.bare];
    t.(full := t.full[f := s], records := t.records[u := t.records[u][f.resource := s]])
  }

  function Take(t: Tables, f: FullJid): Tables
    requires f.bare in t.bare && t.bare[f.bare] in t.records
  {
    var u := t.bare[f.bare];
    t.(full := t.full - {f}, records := t.records[u := t.records[u] - {f.resource}])
  }

  function DropUser(t: Tables, b: BareJid): Tables {
    t.(bare := t.bare - {b}, byHost := t.byHost - {(b.host, b.user)})
  }

  lemma AddUserAgrees(t: Tables, b: BareJid, u: RecordId)
    requires Agree(t, None) && b !in t.bare && u !in t.records
    ensures Agree(AddUser(t, b, u), Some(b))
  {
  }

  lemma PutAgrees(t: Tables, f: FullJid, s: SessionId, next: RecordId)
    requires Agree(t, Some(f.bare)) && f.bare in t.bare && Numbered(t, next)
    ensures Agree(Put(t, f, s), None) && Numbered(Put(t, f, s), next)
  {
    var t' := Put(t, f, s);
    assert f.resource in t'.records[t'.bare[f.bare]];
  }

  lemma TakeAgrees(t: Tables, f: FullJid)
    requires Agree(t, None) && f in t.full
    ensures Agree(Take(t, f), Some(f.bare))
  {
  }

  lemma DropUserAgrees(t: Tables, b: BareJid)
    requires Agree(t, Some(b)) && b in t.bare && t.records[t.bare[b]] == map[]
    ensures Agree(DropUser(t, b), None)
  {
  }

  lemma SpareUnused(t: Tables, b: BareJid)
    requires Agree(t, Some(b)) && (b in t.bare ==> t.records[t.bare[b]] != map[])
    ensures Agree(t, None)
  {
  }

  /** Record ids are below the next one to be given out. */
  ghost predicate Numbered(t: Tables, next: RecordId) {
    forall u :: u in t.records ==> u < next
  }

  /** The tables without one session, and without its user if that was the last one. */
  function Removed(t: Tables, f: FullJid): Tables
    requires f.bare in t.bare && t.bare[f.bare] in t.records
  {
    var t' := Take(t, f);
    if t'.records[t'.bare[f.bare]] == map[] then DropUser(t', f.bare) else t'
  }

  lemma RemovedAgrees(t: Tables, f: FullJid, next: RecordId)
    requires Agree(t, None) && f in t.full && Numbered(t, next)
    ensures Agree(Removed(t, f), None) && Numbered(Removed(t, f), next)
    ensures Removed(t, f).full == t.full - {f}
  {
    TakeAgrees(t, f);
    var t' := Take(t, f);
    if t'.records[t'.bare[f.bare]] == map[] {
      DropUserAgrees(t', f.bare);
    } else {
      SpareUnused(t', f.bare);
    }
  }

  /** A user's record lists the resources under which the user is known. */
  lemma ResourcesOf(t: Tables, b: BareJid)
    requires Agree(t, None) && b in t.bare
    ensures t.records[t.bare[b]].Keys == Resources(t.full, b)
  {
    forall r | r in t.records[t.bare[b]] ensures r in Resources(t.full, b) {
      assert FullJid(b, r) in t.full;
    }
  }

  // ---- Sessions ----

  datatype Kind = Unauthed | Unbound | Bound | Destroyed

  datatype Session = Session(kind: Kind, host: string, username: Option<string>, resource: Option<string>)

  /** Exactly the bound sessions are listed, each under its own full JID. */
  ghost predicate Owned(full: map<FullJid, SessionId>, sessions: map<SessionId, Session>) {
    && (forall f: FullJid :: f in full ==> full[f] in sessions && sessions[full[f]] == BoundAt(f))
    && (forall s :: s in sessions && sessions[s].kind == Bound ==>
          && sessions[s].username.Some? && sessions[s].resource.Some?
          && JidOf(sessions[s]) in full && full[JidOf(sessions[s])] == s)
    && (forall s :: s in sessions && sessions[s].kind != Bound ==> sessions[s].resource == None)
    && (forall s :: s in sessions && sessions[s].kind != Bound ==> (sessions[s].username.Some? <==> sessions[s].kind == Unbound))
  }

  lemma PutOwned(full: map<FullJid, SessionId>, sessions: map<SessionId, Session>, f: FullJid, s: SessionId)
    requires Owned(full, sessions) && f !in full
    requires s in sessions && sessions[s].kind != Bound
    ensures Owned(full[f := s], sessions[s := BoundAt(f)])
  {
  }

  lemma TakeOwned(full: map<FullJid, SessionId>, sessions: map<SessionId, Session>, f: FullJid, after: Session)
    requires Owned(full, sessions) && f in full
    requires after.kind != Bound && after.resource == None && (after.kind == Unbound <==> after.username.Some?)
    ensures Owned(full - {f}, sessions[full[f] := after])
  {
  }

  function Authenticated(session: Session, username: Option<string>): Session {
    session.(username := username, kind := if session.kind == Unauthed then Unbound else session.kind)
  }

  predicate MayAuthenticate(session: Session, username: Option<string>) {
    session.kind != Destroyed && (session.kind == Bound ==> session.username == username)
  }

  /** A bound session that is given another username is listed under the wrong JID. */
  lemma AuthenticatedOwned(full: map<FullJid, SessionId>, sessions: map<SessionId, Session>, s: SessionId, username: Option<string>)
    requires Owned(full, sessions) && s in sessions && username.Some?
    ensures Owned(full, sessions[s := Authenticated(sessions[s], username)]) <==> MayAuthenticate(sessions[s], username)
  {
    var session := sessions[s];
    var after := Authenticated(session, username);
    var sessions' := sessions[s := after];
    if session.kind == Bound {
      var f := JidOf(session);
      assert full[f] == s;
      assert sessions'[full[f]] == BoundAt(f) <==> session.username == username;
      if session.username == username {
        assert sessions' == sessions;
      }
    } else {
      assert forall f: FullJid :: f in full ==> full[f] != s;
      assert sessions'[s] == after;
    }
  }

  lemma PutThenTaken(full: map<FullJid, SessionId>, f: FullJid, s: SessionId)
    requires f !in full
    ensures full[f := s] - {f} == full
  {
  }

  lemma PutBack(sessions: map<SessionId, Session>, s: SessionId, other: Session)
    requires s in sessions
    ensures sessions[s := other][s := sessions[s]] == sessions
  {
  }

  // ---- The search for a free resource ----

  function Digit(d: nat): char
    requires d < 10
  {
    '0' + d as char
  }

  function Decimal(n: nat): string {
    if n < 10 then [Digit(n)] else Decimal(n / 10) + [Digit(n % 10)]
  }

  function Value(s: string): int {
    if s == [] then 0 else 10 * Value(s[..|s| - 1]) + (s[|s| - 1] as int - '0' as int)
  }

  /** A number can be read back from its decimal form, so different numbers look different. */
  lemma {:induction false} DecimalValue(n: nat)
    ensures Value(Decimal(n)) == n
  {
    if n >= 10 {
      DecimalValue(n / 10);
      assert Decimal(n)[..|Decimal(n)| - 1] == Decimal(n / 10);
    } else {
      assert Decimal(n)[..0] == [];
    }
  }

  /** The name tried at the n-th attempt. */
  function Name(resource: string, n: nat): string {
    resource + "#" + Decimal(n)
  }

  ghost predicate IsDigits(s: string) {
    s != "" && forall i :: 0 <= i < |s| ==> '0' <= s[i] <= '9'
  }

  lemma {:induction false} DecimalDigits(n: nat)
    ensures IsDigits(Decimal(n)) && (n > 0 ==> Decimal(n)[0] != '0')
  {
    if n >= 10 {
      DecimalDigits(n / 10);
    }
  }

  /** Such a name is the resource, a hash sign and the number of the attempt in decimal digits. */
  lemma NameShape(resource: string, n: nat)
    requires n >= 1
    ensures var name := Name(resource, n);
      var k := |resource|;
      && |name| > k + 1 && name[..k] == resource && name[k] == '#'
      && IsDigits(name[k + 1..]) && name[k + 1] != '0' && Value(name[k + 1..]) == n
  {
    var k := |resource|;
    assert Name(resource, n)[k + 1..] == Decimal(n);
    DecimalDigits(n);
    DecimalValue(n);
  }

  lemma NameInjective(resource: string, m: nat, n: nat)
    requires Name(resource, m) == Name(resource, n)
    ensures m == n
  {
    var k := |resource| + 1;
    assert Name(resource, m)[k..] == Decimal(m) && Name(resource, n)[k..] == Decimal(n);
    DecimalValue(m);
    DecimalValue(n);
  }

  ghost function Names(resource: string, n: nat): (s: set<string>)
    ensures forall x :: x in s <==> exists k :: 1 <= k <= n && x == Name(resource, k)
  {
    if n == 0 then {} else Names(resource, n - 1) + {Name(resource, n)}
  }

  lemma {:induction false} NamesCount(resource: string, n: nat)
    ensures |Names(resource, n)| == n
  {
    if n > 0 {
      NamesCount(resource, n - 1);
      forall k | 1 <= k <= n - 1 ensures Name(resource, k) != Name(resource, n) {
        if Name(resource, k) == Name(resource, n) {
          NameInjective(resource, k, n);
        }
      }
    }
  }

  /** Names taken at every attempt so far are as many different keys of the table. */
  lemma AttemptsBounded(taken: map<string, SessionId>, resource: string, n: nat)
    requires forall k :: 1 <= k <= n ==> Name(resource, k) in taken
    ensures n <= |taken|
  {
    NamesCount(resource, n);
    SubsetCount(Names(resource, n), taken.Keys);
  }

  lemma SubsetCount(a: set<string>, b: set<string>)
    requires a <= b
    ensures |a| <= |b|
  {
    assert b == a + (b - a);
  }

  /** `name` is the first of the names derived from `resource` that is not taken. */
  ghost predicate FirstFree(taken: set<string>, resource: string, name: string) {
    && name !in taken
    && exists n :: 1 <= n && name == Name(resource, n) && forall k :: 1 <= k < n ==> Name(resource, k) in taken
  }

  /** The "#count" loop: it ends, after at most one attempt more than there are names taken. */
  method FreeResource(taken: map<string, SessionId>, resource: string) returns (name: string)
    ensures FirstFree(taken.Keys, resource, name)
  {
    var count := 1;
    while Name(resource, count) in taken
      invariant 1 <= count <= |taken| + 1
      invariant forall k :: 1 <= k < count ==> Name(resource, k) in taken
      decreases |taken| + 1 - count
    {
      AttemptsBounded(taken, resource, count);
      count := count + 1;
    }
    name := Name(resource, count);
  }

  // ---- The registry ----

  datatype Policy = Random | Increment | KickNew | KickOld

  datatype BindOutcome = BoundAs(resource: string) | NotAuthorized | NotAllowed | Conflict | RosterError

  class Registry {
    var tables: Tables
    var nextRecord: RecordId
    var sessions: map<SessionId, Session>

    ghost predicate Valid()
      reads this
    {
      Agree(tables, None) && Numbered(tables, nextRecord) && Owned(tables.full, sessions)
    }

    constructor ()
      ensures Valid() && tables.full == map[] && sessions == map[]
    {
      tables, nextRecord, sessions := Tables(map[], map[], map[], map[], map[]), 0, map[];
    }

    /** A connection that is not authenticated yet. */
    method Connect(s: SessionId, host: string)
      requires Valid() && s !in sessions
      modifies this`sessions
      ensures Valid() && sessions == old(sessions)[s := Session(Unauthed, host, None, None)]
    {
      sessions := sessions[s := Session(Unauthed, host, None, None)];
    }

    /** make_authenticated, given the prepared username. The tables stay in agreement if and only if the session is
        neither destroyed nor bound under another username. */
    method MakeAuthenticated(s: SessionId, username: Option<string>) returns (ok: bool)
      requires Valid() && s in sessions
      modifies this`sessions
      ensures ok <==> username.Some? && username.value != ""
      ensures sessions == if ok then old(sessions)[s := Authenticated(old(sessions)[s], username)] else old(sessions)
      ensures Valid() <==> !ok || MayAuthenticate(old(sessions)[s], username)
    {
      if username.None? || username.value == "" {
        return false;
      }
      AuthenticatedOwned(tables.full, sessions, s, username);
      var session := sessions[s].(username := username);
      if session.kind == Unauthed {
        session := session.(kind := Unbound);
      }
      sessions := sessions[s := session];
      ok := true;
    }

    /** Drops a session from the tables, and its user too if it was the last one. */
    method Remove(f: FullJid)
      requires Agree(tables, None) && f in tables.full
      modifies this`tables
      ensures tables == Removed(old(tables), f)
    {
      var u := tables.byHost[(f.bare.host, f.bare.user)];
      tables := tables.(records := tables.records[u := tables.records[u] - {f.resource}]);
      tables := tables.(full := tables.full - {f});
      if tables.records[u] == map[] {
        tables := tables.(byHost := tables.byHost - {(f.bare.host, f.bare.user)});
        tables := tables.(bare := tables.bare - {f.bare});
      }
    }

    /** destroy_session */
    method DestroySession(s: SessionId)
      requires Valid() && s in sessions
      modifies this`tables, this`sessions
      ensures Valid()
      ensures old(sessions)[s].kind == Bound ==> tables == Removed(old(tables), JidOf(old(sessions)[s]))
      ensures old(sessions)[s].kind != Bound ==> tables == old(tables)
      ensures sessions == if old(sessions)[s].kind == Destroyed then old(sessions) else old(sessions)[s := RETIRED]
    {
      if sessions[s].kind == Destroyed {
        return;
      }
      if sessions[s].kind == Bound {
        TakeOwned(tables.full, sessions, JidOf(sessions[s]), RETIRED);
        RemovedAgrees(tables, JidOf(sessions[s]), nextRecord);
        Remove(JidOf(sessions[s]));
      }
      sessions := sessions[s := RETIRED];
    }

    /** A fresh record for a user, known under both indexes. */
    method Enlist(b: BareJid)
      requires Agree(tables, None) && Numbered(tables, nextRecord) && b !in tables.bare
      modifies this`tables, this`nextRecord
      ensures Agree(tables, Some(b)) && Numbered(tables, nextRecord)
      ensures b in tables.bare && tables.full == old(tables).full
    {
      AddUserAgrees(tables, b, nextRecord);
      tables := AddUser(tables, b, nextRecord);
      nextRecord := nextRecord + 1;
    }

    /** The wanted resource is taken: `kick_old` closes its holder. */
    method Kick(f: FullJid)
      requires Valid() && f in tables.full
      modifies this`tables, this`nextRecord, this`sessions
      ensures Agree(tables, Some(f.bare)) && Numbered(tables, nextRecord) && f.bare in tables.bare
      ensures tables.full == old(tables).full - {f}
      ensures sessions == old(sessions)[old(tables).full[f] := RETIRED] && Owned(tables.full, sessions)
    {
      RemovedAgrees(tables, f, nextRecord);
      var u := tables.byHost[(f.bare.host, f.bare.user)];
      DestroySession(tables.records[u][f.resource]);
      if tables.records[u] == map[] {
        Enlist(f.bare);
      }
    }

    /** Settles a resource conflict by the policy of the host, and makes sure the user has a record. */
    method MakeRoom(wanted: FullJid, regenerated: string, policy: Policy) returns (choice: Option<FullJid>)
      requires Valid()
      modifies this`tables, this`nextRecord, this`sessions
      ensures Numbered(tables, nextRecord) && Owned(tables.full, sessions)
      ensures choice.None? <==> policy == KickNew && wanted in old(tables).full
      ensures choice.None? ==> tables == old(tables) && sessions == old(sessions)
      ensures choice.Some? ==>
        && Agree(tables, Some(wanted.bare)) && choice.value.bare == wanted.bare && wanted.bare in tables.bare
        && choice.value !in tables.full
        && Settled(old(tables).full, wanted, regenerated, policy, choice.value.resource)
        && if policy == KickOld && wanted in old(tables).full
           then tables.full == old(tables).full - {wanted} && sessions == old(sessions)[old(tables).full[wanted] := RETIRED]
           else tables.full == old(tables).full && sessions == old(sessions)
    {
      var b := wanted.bare;
      if (b.host, b.user) !in tables.byHost {
        Enlist(b);
        return Some(wanted);
      }
      assert b in tables.bare;
      var taken := tables.records[tables.byHost[(b.host, b.user)]];
      if wanted.resource !in taken {
        return Some(wanted);
      }
      assert taken.Keys == Resources(tables.full, b) by { ResourcesOf(tables, b); }
      match policy {
        case Random =>
          var name := regenerated;
          if name in taken {
            name := FreeResource(taken, regenerated);
          }
          return Some(FullJid(b, name));
        case Increment =>
          var name := FreeResource(taken, wanted.resource);
          return Some(FullJid(b, name));
        case KickNew =>
          return None;
        case KickOld =>
          Kick(wanted);
          return Some(wanted);
      }
    }

    /** Enters the session under the settled resource. */
    method Enter(s: SessionId, f: FullJid)
      requires Agree(tables, Some(f.bare)) && Numbered(tables, nextRecord) && Owned(tables.full, sessions)
      requires f.bare in tables.bare && f !in tables.full
      requires s in sessions && sessions[s] == UnboundAt(f.bare)
      modifies this`tables, this`sessions
      ensures Valid()
      ensures tables.full == old(tables).full[f := s] && sessions == old(sessions)[s := BoundAt(f)]
    {
      PutAgrees(tables, f, s, nextRecord);
      PutOwned(tables.full, sessions, f, s);
      sessions := sessions[s := BoundAt(f)];
      tables := Put(tables, f, s);
    }

    /** Undoes `Enter` when the roster cannot be loaded. */
    method Rollback(s: SessionId, f: FullJid)
      requires Valid() && f in tables.full && tables.full[f] == s
      modifies this`tables, this`sessions
      ensures Valid()
      ensures tables.full == old(tables).full - {f} && sessions == old(sessions)[s := UnboundAt(f.bare)]
    {
      TakeOwned(tables.full, sessions, f, UnboundAt(f.bare));
      RemovedAgrees(tables, f, nextRecord);
      Remove(f);
      sessions := sessions[s := UnboundAt(f.bare)];
    }

    /** Enters the session, and takes it out again if its roster cannot be loaded. */
    method Admit(s: SessionId, f: FullJid, rosterLoads: bool)
      requires Agree(tables, Some(f.bare)) && Numbered(tables, nextRecord) && Owned(tables.full, sessions)
      requires f.bare in tables.bare && f !in tables.full
      requires s in sessions && sessions[s] == UnboundAt(f.bare)
      modifies this`tables, this`sessions
      ensures Valid()
      ensures tables.full == if rosterLoads then old(tables).full[f := s] else old(tables).full
      ensures sessions == if rosterLoads then old(sessions)[s := BoundAt(f)] else old(sessions)
    {
      ghost var full, known := tables.full, sessions;
      Enter(s, f);
      if !rosterLoads {
        Rollback(s, f);
        PutThenTaken(full, f, s);
        PutBack(known, s, BoundAt(f));
      }
    }

    /** bind_resource. `prepared` is the wanted resource after preparation, `generated` and `regenerated`
        the random identifiers used in its place, and `rosterLoads` tells whether the roster could be loaded. */
    method BindResource(s: SessionId, prepared: Option<string>, generated: string, regenerated: string,
                        policy: Policy, rosterLoads: bool) returns (outcome: BindOutcome)
      requires Valid() && s in sessions
      modifies this
      ensures Valid()
      ensures outcome == NotAuthorized <==> old(sessions)[s].username.None?
      ensures outcome == NotAllowed <==> old(sessions)[s].kind == Bound
      ensures old(sessions)[s].kind != Unbound ==> tables == old(tables) && sessions == old(sessions)
      ensures old(sessions)[s].kind == Unbound ==>
        var b := BareJid(old(sessions)[s].username.value, old(sessions)[s].host);
        BindEffect(old(tables).full, old(sessions), s, FullJid(b, Wanted(prepared, generated)), regenerated, policy, rosterLoads,
                   outcome, tables.full, sessions)
      // a usable resource is bound as it was asked for, and otherwise the generated one
      ensures old(sessions)[s].kind == Unbound && rosterLoads ==>
        var b := BareJid(old(sessions)[s].username.value, old(sessions)[s].host);
        && (prepared.Some? && prepared.value != "" ==>
              BoundAsAsked(old(tables).full, s, FullJid(b, prepared.value), policy, outcome, tables.full, sessions))
        && (prepared.None? || prepared.value == "" ==>
              BoundAsAsked(old(tables).full, s, FullJid(b, generated), policy, outcome, tables.full, sessions))
    {
      if sessions[s].username.None? {
        return NotAuthorized;
      }
      if sessions[s].resource.Some? {
        return NotAllowed;
      }
      var resource := generated;
      if prepared.Some? && prepared.value != "" {
        resource := prepared.value;
      }
      var wanted := FullJid(BareJid(sessions[s].username.value, sessions[s].host), resource);
      ghost var full, known := tables.full, sessions;
      outcome := BindAs(s, wanted, regenerated, policy, rosterLoads);
      if rosterLoads {
        EffectAsAsked(full, known, s, wanted, regenerated, policy, outcome, tables.full, sessions);
      }
    }

    /** Binds an unbound session, once it is settled what it wants. */
    method BindAs(s: SessionId, wanted: FullJid, regenerated: string, policy: Policy, rosterLoads: bool) returns (outcome: BindOutcome)
      requires Valid() && s in sessions && sessions[s] == UnboundAt(wanted.bare)
      modifies this
      ensures Valid()
      ensures BindEffect(old(tables).full, old(sessions), s, wanted, regenerated, policy, rosterLoads, outcome, tables.full, sessions)
    {
      var choice := MakeRoom(wanted, regenerated, policy);
      if choice.None? {
        return Conflict;
      }
      Admit(s, choice.value, rosterLoads);
      outcome := if rosterLoads then BoundAs(choice.value.resource) else RosterError;
    }
  }

  function UnboundAt(b: BareJid): Session {
    Session(Unbound, b.host, Some(b.user), None)
  }

  function BoundAt(f: FullJid): Session {
    Session(Bound, f.bare.host, Some(f.bare.user), Some(f.resource))
  }

  const RETIRED := Session(Destroyed, "", None, None)

  /** The resources a user has bound. */
  ghost function Resources(full: map<FullJid, SessionId>, b: BareJid): set<string> {
    set f | f in full && f.bare == b :: f.resource
  }

  /** How a conflict over `wanted` is settled without displacing anyone. */
  ghost predicate Settled(full: map<FullJid, SessionId>, wanted: FullJid, regenerated: string, policy: Policy, resource: string) {
    var taken := Resources(full, wanted.bare);
    if wanted !in full || policy == KickOld then resource == wanted.resource
    else if policy == Random && regenerated !in taken then resource == regenerated
    else FirstFree(taken, if policy == Random then regenerated else wanted.resource, resource)
  }

  /** What a bind does to the bound sessions: only `kick_old` costs another session its place,
      and only the one that held the wanted JID; a failed bind leaves everything else as it was. */
  ghost predicate BindEffect(full: map<FullJid, SessionId>, sessions: map<SessionId, Session>, s: SessionId, wanted: FullJid,
                             regenerated: string, policy: Policy, rosterLoads: bool, outcome: BindOutcome,
                             full': map<FullJid, SessionId>, sessions': map<SessionId, Session>) {
    if wanted in full && policy == KickNew then
      outcome == Conflict && full' == full && sessions' == sessions
    else
      var kicks := wanted in full && policy == KickOld;
      var kept := if kicks then full - {wanted} else full;
      var others := if kicks then sessions[full[wanted] := RETIRED] else sessions;
      if !rosterLoads then
        outcome == RosterError && full' == kept && sessions' == others
      else
        && outcome.BoundAs?
        && var f := FullJid(wanted.bare, outcome.resource);
        && f !in kept && Settled(full, wanted, regenerated, policy, outcome.resource)
        && full' == kept[f := s]
        && sessions' == others[s := BoundAt(f)]
  }

  /** A JID that is free is bound as it is, and so is one in use if its holder is closed. */
  ghost predicate BoundAsAsked(full: map<FullJid, SessionId>, s: SessionId, f: FullJid, policy: Policy, outcome: BindOutcome,
                               full': map<FullJid, SessionId>, sessions': map<SessionId, Session>) {
    && (f !in full ==> outcome == BoundAs(f.resource) && full' == full[f := s])
    && (f in full && policy == KickOld ==>
          && outcome == BoundAs(f.resource) && full' == full[f := s]
          && full[f] in sessions' && (full[f] != s ==> sessions'[full[f]].kind == Destroyed))
  }

  lemma EffectAsAsked(full: map<FullJid, SessionId>, sessions: map<SessionId, Session>, s: SessionId, f: FullJid,
                      regenerated: string, policy: Policy, outcome: BindOutcome,
                      full': map<FullJid, SessionId>, sessions': map<SessionId, Session>)
    requires BindEffect(full, sessions, s, f, regenerated, policy, true, outcome, full', sessions')
    ensures BoundAsAsked(full, s, f, policy, outcome, full', sessions')
  {
    if f in full && policy == KickOld {
      assert (full - {f})[f := s] == full[f := s];
    }
  }

  /** An empty or unusable resource is replaced by a generated one. */
  function Wanted(prepared: Option<string>, generated: string): string {
    if prepared.None? || prepared.value == "" then generated else prepared.value
  }

  function JidOf(s: Session): FullJid
    requires s.username.Some? && s.resource.Some?
  {
    FullJid(BareJid(s.username.value, s.host), s.resource.value)
  }
}
