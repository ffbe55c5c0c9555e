# Verified models of Prosody's core state machines

Prosody is an XMPP server written in Lua with some C. This project models the parts of it that carry the
hardest state, in Dafny, and proves what they are for:

- **Presence subscriptions** (`RosterEntry`, `RosterManager`, `PresenceProtocol`, `PresenceRuns`,
  `PresenceHandlers`, `SubscriptionHistory`). A roster keeps `subscription`, `ask` and a pending flag per contact.
  The eight stanza handlers are verified against the tables of Appendix A of RFC 6121, written out state by state.
  Two users of one host are composed with synchronous delivery, automatic replies and the online shortcut; every run
  over any number of users is shown to keep the two rosters of each pair in step.
- **BOSH** (`BoshWindow`, `BoshHeld`, `Bosh`). Request ids may arrive in any order; dispatch is ordered, and free of
  gaps exactly under a condition on the arrivals. Everything passed to `session.send` goes out once and in order, and
  the number of requests held open is bounded.
- **Session registry** (`SessionRegistry`). Three tables describe the same bound sessions through binding, all
  conflict policies, rollback and destruction.
- **Event loops** (`Timers`, `ByteStream`, `DrainCallbacks`). The timer list of the epoll loop, and the output queues of both loops
  against one abstract byte stream.
- **DNS** (`DnsName`, `DnsRetry`). The name codec with compression pointers, records, and the retry engine.
- **XML tokenizer** (`XmlTokenizer`). Events and state do not depend on how the input is cut into pieces.
- **Archive paging** (`ArchivePaging`). Pages forwards and backwards through a growing archive.
- **Byte algorithms** (`Base64`, `Utf8`, `RingBuffers`, `Hmac`).

Code that changes things in place is modelled by classes and methods with loops; each such method is verified against
a function or relation over the old and new state, and the main results are lemmas about those. `Wrappers`, `Logs`
and `ByteStrings` hold shared types.

`dafny verify dfyconfig.toml` checks the whole project.

## What the code does where one might expect otherwise

- Removing a roster item keeps the contact's pending request, so the two rosters stop agreeing exactly then
  (`PresenceProtocol.RemoveAgreement`, reached in `PresenceRuns.DisagreementReached`).
- A probe of a contact who has not granted presence yet cancels the waiting request
  (`PresenceProtocol.ProbeFacts`, `Intended` for `Probe`).
- An inbound request that comes while the contact is already granted leaves no trace, so a grant is explained by a
  request that was new when it came (`SubscriptionHistory.GrantHistory`).
- BOSH: an ignored request that closes while another one is deferred releases the deferred one early and so skips
  exactly one request id (`BoshWindow.GapCount`, `BoshWindow.GapExample`). A request id out of range does not destroy the session, although a
  comment in the source says so (plugins/mod_bosh.lua:401-404). Closing a session answers every other held request
  only, which leaves at most one open (`Bosh.Session.Post`, `Bosh.LeaveUnanswered`).
- DNS: a name survives encoding and decoding if and only if its labels have at most 191 bytes, while RFC 1035 allows
  63; labels of 192 to 255 bytes are encoded without an error (`DnsName.NameRoundTrip`, `DnsName.LongLabelLost`). The root reached through a
  pointer is the empty string and not a dot. Record data may be cut off at the end of a packet without an error.
- Archive: a cursor that is not among the matching items starts from the beginning. Appending under an existing key
  moves the item to the end, and a client whose cursor it is then gets nothing more (`ArchivePaging.GoneCursorRestarts`,
  `ArchivePaging.MovedCursorEnds`, `ArchivePaging.LoseItem`).
- Ring buffer: a full buffer is searched as if it were empty; a string longer than the contents is looked for in bytes
  that were already read; if it is longer by exactly one byte and lies nowhere round the allocation, the search never
  returns, because its counter cannot exceed 2^64 - 1; and a result past 2 GiB is cut off. `RingBuffers.FindIsRight`
  says that there is no other case; `RingBuffers.FullBufferMissed`, `RingBuffers.StaleBytesFound` and
  `RingBuffers.EndlessSearch` show the first three. A new buffer of size -32 to -1 gets less memory than it
  believes to have (`RingBuffers.New`).
- Select loop: a callback that writes and closes when the queue has drained loses what the socket does not take at once,
  although the close is graceful (`DrainCallbacks.FullSendLoss`, `ByteStream.LoseTheEnd`); one that closes a connection
  which already waits to be closed makes `_sendbuffer` raise an error (`DrainCallbacks.CloseTwice`).
- HMAC: the block size is 64 bytes for every hash. With SHA-512, whose blocks have 128 bytes, the result is the code of
  RFC 2104 for a key and a message only where SHA-512 collides (`Hmac.BlockSizeMatters`).

## Model

| member | source | states |
|---|---|---|
| `RosterEntry.StateIsFacts` | core/rostermanager.lua:172-347 | the nine states of Appendix A.1 of RFC 6121 are exactly the combinations of watching, asking, granting and pending that can occur |
| `RosterEntry.ApplyFacts` | core/rostermanager.lua:172-347 | the tables of Appendix A.2 and A.3 read as effects on the four facts: each stanza touches one direction only |
| `RosterEntry.InState` | core/rostermanager.lua:282-347 | an entry can be moved to each of the nine states, keeping a present item's name and groups; an item is created only if the user watches, asks or grants, and without name and groups |
| `RosterEntry.WithItem` | plugins/mod_roster.lua:90-98 | a client's roster set keeps watching, asking, granting and pending, and stores name and groups |
| `RosterEntry.WithoutItem` | core/rostermanager.lua:47-60 | a removed item loses both directions and its request; a pending inbound request survives |
| `RosterManager.Roster.constructor` | core/rostermanager.lua:102-138 | a new roster is valid and knows nothing of any contact |
| `RosterManager.Roster.Save` | core/rostermanager.lua:140-170 | each save raises the version by one |
| `RosterManager.Roster.ProcessInboundSubscriptionApproval` | core/rostermanager.lua:172-184 | the entry moves as the table for inbound subscribed says, all other entries stay, and the result tells whether the state changed |
| `RosterManager.Roster.ProcessInboundSubscriptionCancellation` | core/rostermanager.lua:188-208 | the same for inbound unsubscribed |
| `RosterManager.Roster.ProcessInboundUnsubscribe` | core/rostermanager.lua:212-232 | the same for inbound unsubscribe |
| `RosterManager.Roster.SetContactPendingIn` | core/rostermanager.lua:268-276 | the same for inbound subscribe; saved exactly when the contact is not granted yet |
| `RosterManager.Roster.SetContactPendingOut` | core/rostermanager.lua:282-295 | the same for outbound subscribe; saved exactly when the state changes |
| `RosterManager.Roster.Unsubscribe` | core/rostermanager.lua:296-310 | the same for outbound unsubscribe; reports whether there is an item |
| `RosterManager.Roster.Subscribed` | core/rostermanager.lua:311-327 | the same for outbound subscribed |
| `RosterManager.Roster.Unsubscribed` | core/rostermanager.lua:328-347 | the same for outbound unsubscribed, with the two reasons reported |
| `RosterManager.Roster.SetItem` | plugins/mod_roster.lua:90-113 | a client sets name and groups of any contact but itself and can change neither subscription nor ask |
| `RosterManager.Roster.RemoveItem` | plugins/mod_roster.lua:72-88 | the item goes and nothing else; errors for oneself and for a contact without item |
| `PresenceProtocol.UnsubscribedFacts` | plugins/mod_presence.lua:182-195 | the cascade of an outbound unsubscribed: both ends lose that direction if there was one, else nothing is routed |
| `PresenceProtocol.ProbeFacts` | plugins/mod_presence.lua:209-217 | the cascade of a probe: nothing if the contact grants presence, else the contact's unsubscribed |
| `PresenceProtocol.UnsubscribeFacts` | plugins/mod_presence.lua:163-169 | both ends lose the user's watch and request |
| `PresenceProtocol.ApprovalFacts` | plugins/mod_presence.lua:170-181 | the rosters right after an approval has been delivered |
| `PresenceProtocol.SubscribeKeepsLinked` | plugins/mod_presence.lua:218-232 | a subscribe with its automatic reply keeps the two rosters linked, even though the request reaches the contact's handler before the contact's roster knows of it |
| `PresenceProtocol.RemoveKeepsLinked` | plugins/mod_presence.lua:362-383 | removing an item keeps the two rosters linked |
| `PresenceProtocol.ActKeepsLinked` | plugins/mod_presence.lua:147-253 | every action keeps "watching implies granted" and "asking implies pending or granted", in both directions, whoever is online |
| `PresenceProtocol.ShortcutIsExact` | core/rostermanager.lua:234-262 | the online shortcut answers as the own roster does, if and only if it is not taken or the rosters agree on that direction |
| `PresenceProtocol.ActRefinesLinks` | plugins/mod_presence.lua:147-253 | each cascade over two agreeing rosters, a harmless item removal included, is one move of the links, and both rosters record it |
| `PresenceProtocol.RemoveAgreement` | plugins/mod_presence.lua:362-383 | after item removal the rosters agree if and only if there was no item or no pending request |
| `PresenceRuns.NextPair` | plugins/mod_presence.lua:147-253 | an action changes no entry outside its own pair of users |
| `PresenceRuns.EveryRunIsLinked` | plugins/mod_presence.lua:147-253 | after every run over any users, item removal included: a watched user grants presence to the watcher, and a request is pending or granted at its recipient |
| `PresenceRuns.NextRefinesLinks` | plugins/mod_presence.lua:147-253 | one step moves the links of every two users as their own actions say |
| `PresenceRuns.RunRefinesLinks` | plugins/mod_presence.lua:147-253 | after every run in which the two users' item removals met no pending request or no item, their rosters agree, and what they record is a function of their own actions |
| `PresenceRuns.ShortcutAgrees` | core/rostermanager.lua:234-262 | in such runs both subscription queries give the true link, whoever is online |
| `PresenceRuns.HarmfulRemoval` | plugins/mod_presence.lua:362-383 | the first other removal ends the agreement |
| `PresenceRuns.DisagreementReached` | plugins/mod_presence.lua:362-383 | such a run: a request, a roster set, a removal |
| `PresenceHandlers.IsContactSubscribed` | core/rostermanager.lua:239-250 | the query of the protocol model, on roster objects |
| `PresenceHandlers.IsUserSubscribed` | core/rostermanager.lua:251-262 | the query of the protocol model, on roster objects |
| `PresenceHandlers.HandleOutbound` | plugins/mod_presence.lua:147-201 | the handler with all that it sets off ends, leaves entries of third parties alone, and does to the two rosters what the protocol model says |
| `PresenceHandlers.HandleInbound` | plugins/mod_presence.lua:203-253 | the same for the inbound handler |
| `PresenceHandlers.HandleInitialPresence` | plugins/mod_presence.lua:66-92 | the same for the probe and the repeated request of a first presence |
| `PresenceHandlers.RemoveItem` | plugins/mod_presence.lua:362-383 | the same for a roster remove with its hook |
| `SubscriptionHistory.RequestHistory` | core/rostermanager.lua:172-347 | over every sequence of stanzas and edits, whatever a remote contact sends: asking or watching if and only if an own request still stands |
| `SubscriptionHistory.WatchHistory` | core/rostermanager.lua:172-310 | an entry is to/both if and only if an own request was later approved, with no unsubscribe, cancellation or removal since the request |
| `SubscriptionHistory.PendingHistory` | core/rostermanager.lua:212-347 | a request is pending if and only if it came, was new, and was neither answered nor withdrawn since |
| `SubscriptionHistory.GrantHistory` | core/rostermanager.lua:212-347 | an entry is from/both if and only if a new inbound request was answered by the user's own subscribed, with no withdrawal since the request and no removal since the answer |
| `SubscriptionHistory.HandleEvent` | core/rostermanager.lua:172-347 | the handlers of a roster change and save an entry as the events of these histories say |
| `SubscriptionHistory.ClientSetsAreInert` | plugins/mod_roster.lua:90-98 | after every history a client's roster set leaves the subscription state as it is |
| `SubscriptionHistory.VersionIdentifies` | core/rostermanager.lua:140-170 | two moments of a roster with the same version, counted over all contacts, have the same entries |
| `SubscriptionHistory.ContactsAreSeparate` | core/rostermanager.lua:172-347 | in a roster of many contacts each entry has the history of its own events |
| `SubscriptionHistory.UnsavedIsUnchanged` | core/rostermanager.lua:172-347 | an event that is not saved changes nothing |
| `BoshWindow.DispatchIsOrdered` | plugins/mod_bosh.lua:373-407 | for every order of arrival the dispatched request ids are strictly increasing and end at the window's id |
| `BoshWindow.DispatchHasArrived` | plugins/mod_bosh.lua:434-477 | only ids that arrived are dispatched, and a waiting one has arrived |
| `BoshWindow.GapCount` | plugins/mod_bosh.lua:454-477 | the ids passed over are exactly as many as ignored requests that closed while another was waiting |
| `BoshWindow.GapFree` | plugins/mod_bosh.lua:454-477 | dispatch is consecutive if and only if no ignored request closed while another was waiting |
| `BoshWindow.GapExample` | plugins/mod_bosh.lua:454-477 | a request after the next, followed by a repeated one, loses the next one |
| `BoshWindow.SwapsAreRepaired` | plugins/mod_bosh.lua:373-407 | if requests travel at most one place out of order, all are dispatched, in the order of the ids |
| `BoshHeld.BodyKeepsBound` | plugins/mod_bosh.lua:158-178 | at most one request above the limit is held after every request body, none above it while one is deferred, and none while texts wait |
| `Bosh.HeldAfterBounded` | plugins/mod_bosh.lua:158-178 | the same in the terms of a session |
| `Bosh.LogIsReleased` | plugins/mod_bosh.lua:454-477 | the ids dispatched are those that the window releases |
| `Bosh.ReplayIsReal` | plugins/mod_bosh.lua:390-394 | a replayed response was sent for that request id |
| `Bosh.RememberKeeps` | plugins/mod_bosh.lua:353-353 | the cache holds the latest responses of the last two requests answered |
| `Bosh.JudgeIsExact` | plugins/mod_bosh.lua:373-404 | what becomes of a request, told from the ids and the responses sent: the last two requests answered are replayed, the last one accepted is held again, and all others out of sequence are refused |
| `Bosh.FedFacts` | plugins/mod_bosh.lua:373-477 | dispatches, texts, deferred request, termination and held requests after a request body |
| `Bosh.FedWindow` | plugins/mod_bosh.lua:373-477 | a request body moves the window as `BoshWindow` says and dispatches what it releases |
| `Bosh.FedKeepsValid` | plugins/mod_bosh.lua:373-477 | every request body keeps the session in step with its arrivals and the held requests within their bound |
| `Bosh.TracksNext` | plugins/mod_bosh.lua:373-425 | the session's window and dispatch log stay those of its arrivals |
| `Bosh.Session.constructor` | plugins/mod_bosh.lua:290-316 | a new session expects the id that created it |
| `Bosh.Session.Send` | plugins/mod_bosh.lua:319-358 | the text joins the buffer; the oldest held request gets the whole buffer unless a request is being processed; nothing said is lost or repeated |
| `Bosh.Session.Deliver` | plugins/mod_bosh.lua:319-358 | responses so far followed by the buffer remain exactly the texts sent |
| `Bosh.Session.Handle` | plugins/mod_bosh.lua:434-452 | the stanzas of one request are dispatched in order, with all their replies accounted for |
| `Bosh.Session.Process` | plugins/mod_bosh.lua:406-425 | a request in sequence advances the id, is held, and has its stanzas dispatched with replies held back |
| `Bosh.Session.StreamClosed` | plugins/mod_bosh.lua:454-477 | a waiting request is released unless the closing one is deferred; afterwards an open held request implies an empty buffer |
| `Bosh.Session.Respond` | plugins/mod_bosh.lua:158-178 | with too many requests held the oldest is answered; the branch that would send the buffer twice is unreachable |
| `Bosh.Session.StreamOpened` | plugins/mod_bosh.lua:373-425 | what each distance of the ids does to the session |
| `Bosh.Session.Feed` | plugins/mod_bosh.lua:373-477 | streamopened, handlestanza, streamclosed and the response together make the step of `FedFacts` and `FedWindow` |
| `Bosh.Session.Exchange` | plugins/mod_bosh.lua:110-178 | the same, keeping the whole invariant of the session with its bound on held requests |
| `Bosh.Session.Close` | plugins/mod_bosh.lua:222-257 | every other held request is answered; all are if and only if at most one was held |
| `Bosh.Session.Post` | plugins/mod_bosh.lua:110-195 | a whole request: outcome in terms of the responses sent, window, dispatches, texts sent, requests answered and still held, and whether the session is closed, with at most one request left open then |
| `Bosh.Session.ServerSend` | plugins/mod_bosh.lua:319-358 | a text sent between requests keeps the invariant |
| `Bosh.Session.ConnectionLost` | plugins/mod_bosh.lua:58-85 | exactly the lost request is no longer held |
| `Bosh.Session.WaitExpired` | plugins/mod_bosh.lua:213-217 | the oldest held request is answered |
| `Bosh.Session.Guarantees` | plugins/mod_bosh.lua:319-477 | in every valid session dispatch is ordered and exactly conditionally gap-free, while a request is held everything sent is out, and the number of held requests is bounded |
| `Bosh.LeaveUnanswered` | plugins/mod_bosh.lua:222-257 | a session that ends with a request left open |
| `Bosh.RepeatFirst` | plugins/mod_bosh.lua:390-394 | a client that repeats its first request gets the response again |
| `Bosh.AnswerEach` | plugins/mod_bosh.lua:222-257 | removing from a list while walking it reaches every other element |
| `SessionRegistry.AddUserAgrees` | core/sessionmanager.lua:145-148 | a new record keeps the three tables in agreement |
| `SessionRegistry.PutAgrees` | core/sessionmanager.lua:182-188 | entering a session keeps them in agreement |
| `SessionRegistry.TakeAgrees` | core/sessionmanager.lua:98-99 | taking a session out keeps them in agreement but for a possibly empty record |
| `SessionRegistry.DropUserAgrees` | core/sessionmanager.lua:101-105 | dropping the empty record restores full agreement |
| `SessionRegistry.RemovedAgrees` | core/sessionmanager.lua:98-105 | removing a session, and its user with the last one, keeps all tables in agreement and removes nothing else |
| `SessionRegistry.ResourcesOf` | core/sessionmanager.lua:150-180 | a user's record lists exactly the resources by which the user is known |
| `SessionRegistry.DecimalValue` | core/sessionmanager.lua:172-178 | numbers can be read back from their decimal form |
| `SessionRegistry.AttemptsBounded` | core/sessionmanager.lua:172-178 | each failed attempt of the search accounts for another resource in use |
| `SessionRegistry.NameShape` | core/sessionmanager.lua:172-178 | a name tried is the resource, a hash sign and the number in decimal |
| `SessionRegistry.FreeResource` | core/sessionmanager.lua:172-178 | the search for a free "#count" ends with the first that is free |
| `SessionRegistry.Registry.constructor` | core/sessionmanager.lua:9-29 | an empty registry is consistent |
| `SessionRegistry.Registry.Connect` | core/sessionmanager.lua:31-58 | a new connection is listed nowhere |
| `SessionRegistry.Registry.MakeAuthenticated` | core/sessionmanager.lua:113-122 | succeeds for a usable username only, and then only that session changes; the tables stay in agreement if and only if the session is neither destroyed nor bound under another username |
| `SessionRegistry.AuthenticatedOwned` | core/sessionmanager.lua:113-122 | the same for the list of bound sessions |
| `SessionRegistry.Registry.DestroySession` | core/sessionmanager.lua:82-111 | a bound session leaves all three tables, any other none, and a destroyed session stays as it is |
| `SessionRegistry.Registry.Kick` | core/sessionmanager.lua:162-170 | the holder of the wanted JID is destroyed and the user keeps a record |
| `SessionRegistry.Registry.MakeRoom` | core/sessionmanager.lua:145-180 | the resource chosen by each policy is free, is the wanted one if that was free, and displaces nobody unless the policy is kick_old |
| `SessionRegistry.Registry.Enter` | core/sessionmanager.lua:182-188 | the session is bound under its JID in all tables |
| `SessionRegistry.Registry.Rollback` | core/sessionmanager.lua:190-207 | the session is taken out of all tables again |
| `SessionRegistry.Registry.Admit` | core/sessionmanager.lua:182-207 | a failed roster load leaves the bound sessions as they were |
| `SessionRegistry.Registry.BindResource` | core/sessionmanager.lua:126-212 | the invariant holds after every bind, each outcome occurs exactly under its condition, a usable resource is bound as asked and otherwise a generated one, and only kick_old costs another session its place |
| `SessionRegistry.EffectAsAsked` | core/sessionmanager.lua:141-185 | a free JID is bound as it is, and one in use too if its holder is closed |
| `Timers.SortSorted` | net/server_epoll.lua:87-91 | every list can be sorted: the same timers, earliest last |
| `Timers.RescheduledFacts` | net/server_epoll.lua:107-116 | a re-armed timer moves by one period if and only if it ran less than two periods late, and otherwise to one period from now |
| `Timers.PhaseIsKept` | net/server_epoll.lua:107-116 | a repeating timer is on its original phase if and only if it never ran two or more periods late |
| `Timers.EarliestLast` | net/server_epoll.lua:94-106 | if the last timer of the list is not due, no live timer is |
| `Timers.Scheduler.At` | net/server_epoll.lua:67-72 | the timer is added and a sort is asked for |
| `Timers.Scheduler.Rearm` | net/server_epoll.lua:226-269 | exactly that timer gets the new time, all others stay, and a sort is asked for |
| `Timers.Scheduler.CloseTimer` | net/server_epoll.lua:58-61 | exactly that timer is disabled, all others stay, and the list stays in order |
| `Timers.Scheduler.Perform` | net/server_epoll.lua:67-77 | what a callback does to the list: entries keep their places and new ones go to the end |
| `Timers.RunFromIsRun` | net/server_epoll.lua:94-120 | the states that the entries taken up one after the other lead through, earlier entries keeping their places |
| `Timers.Scheduler.TakeUp` | net/server_epoll.lua:95-119 | one turn of the loop leads to the next of these states |
| `Timers.Scheduler.WorkOff` | net/server_epoll.lua:94-120 | the loop over a list in order |
| `Timers.Scheduler.RunTimer` | net/server_epoll.lua:107-119 | the list after one timer was run and re-armed or removed |
| `Timers.Scheduler.RunTimers` | net/server_epoll.lua:81-132 | for every order that sorting may leave: timers are taken up from the earliest on and none before its time, whatever callbacks do, until one is not due; the list left is what those timers and their callbacks make of it; the delay returned is min_wait or safe for every live timer |
| `ByteStream.EpollConnection.Write` | net/server_epoll.lua:409-421 | data is accepted unless the connection is closing, or even then through a function kept from before, and joins the queue |
| `ByteStream.EpollConnection.Close` | net/server_epoll.lua:425-438 | the socket is released at once if and only if nothing is queued; otherwise writing is asked for, even if it was paused |
| `ByteStream.EpollConnection.Transmit` | net/server_epoll.lua:372-392 | the socket takes the first bytes of the queue and the rest stays queued |
| `ByteStream.EpollConnection.OnWritable` | net/server_epoll.lua:372-406 | bytes sent followed by bytes queued are all bytes accepted, across partial sends and writes of the drain callback; a closing connection is released when drained, lost only on a fatal error |
| `ByteStream.EpollConnection.Fail` | net/server_epoll.lua:251-269 | a failed connection is released and marked as lost |
| `ByteStream.EpollConnection.PauseWrites` | net/server_epoll.lua:599-603 | writing stops without harm to the queue |
| `ByteStream.EpollConnection.ResumeWrites` | net/server_epoll.lua:605-611 | writing is asked for again if there is something queued |
| `ByteStream.SelectConnection.Write` | net/server_select.lua:422-437 | data is accepted if and only if the connection is open and it fits the send limit, also while a close waits; a refused write dooms the connection |
| `ByteStream.SelectConnection.Transmit` | net/server_select.lua:530-561 | the socket takes the first bytes of the queue and the byte count stays exact |
| `ByteStream.SelectConnection.SendBuffer` | net/server_select.lua:530-568 | bytes sent followed by bytes queued are all bytes accepted, across partial sends and callbacks that write and close; a partial send keeps the connection if and only if the socket could take no more now; the connection ends up as `DrainCallbacks` says |
| `ByteStream.SelectConnection.Close` | net/server_select.lua:370-408 | the same for a close, which sends what is queued and waits for the rest |
| `ByteStream.SelectConnection.Perform` | net/server_select.lua:550-552 | the steps of a drain callback, nested closes and errors included |
| `ByteStream.SelectConnection.Drain` | net/server_select.lua:548-555 | a full send ends with the callback and then the close that waits |
| `ByteStream.LoseTheEnd` | net/server_select.lua:548-554 | a connection whose callback writes and closes, and which is released with accepted bytes unsent |
| `DrainCallbacks.FullSendLoss` | net/server_select.lua:545-555 | for every callback: after a full send data is discarded if and only if the connection waits to be closed after the callback with something queued; an error is raised if and only if the callback raised one or closed a connection that waited |
| `DrainCallbacks.PortionIsTaken` | net/server_select.lua:556-560 | a send takes exactly as many bytes as the socket says |
| `DrainCallbacks.QuietSend` | net/server_select.lua:545-555 | with a callback that does not close, a full send discards data if and only if a close waited and the callback wrote something that fits |
| `DrainCallbacks.QuietClose` | net/server_select.lua:370-408 | with such a callback a graceful close loses data only by an error other than wantwrite and timeout, and waits exactly for what is unsent |
| `DrainCallbacks.WriteThenClose` | net/server_select.lua:548-554 | a callback that writes and closes loses the rest of its data if and only if the socket does not take all at once |
| `DrainCallbacks.CloseTwice` | net/server_select.lua:554-554 | a callback that closes a connection which waits to be closed raises an error |
| `ByteStream.SelectConnection.ForceClose` | net/server_select.lua:363-369 | released at once; data is lost exactly if some was queued |
| `DnsName.Walk` | net/dns.lua:448-467 | decoding ends on every packet, cyclic pointers included, and a decoded name ends within the packet |
| `DnsName.Resolver.ReadByte` | net/dns.lua:385-394 | one byte, or an error at the end of the packet |
| `DnsName.Resolver.Sub` | net/dns.lua:410-415 | up to `len` bytes, always advancing by `len` |
| `DnsName.Resolver.Name` | net/dns.lua:448-467 | the loop over labels and pointers computes the recursive meaning of a name, and leaves the offset behind it |
| `DnsName.Resolver.ReadWord` | net/dns.lua:397-400 | two bytes, the high one first |
| `DnsName.WordBytes` | net/dns.lua:397-400 | the high byte comes first |
| `DnsName.SliceBytes` | net/dns.lua:410-415 | the bytes read are those of the packet, fewer only at its end |
| `DnsName.Resolver.ReadRecord` | net/dns.lua:609-626 | every record ends exactly `rdlength` bytes past the start of its data, wherever the parser of its type stopped |
| `DnsName.EncodedDecodes` | net/dns.lua:448-467 | an encoded name anywhere in a packet is decoded to its labels, with the offset just past it |
| `DnsName.LabelsOfDotted` | net/dns.lua:366-374 | splitting a dotted name gives its labels back |
| `DnsName.NameRoundTrip` | net/dns.lua:366-374 | name() undoes encodeName, wherever the encoded name stands, if and only if no label has 192 bytes or more |
| `DnsName.LongLabelStops` | net/dns.lua:448-467 | with such a label decoding fails or stops before the end of the encoded name |
| `DnsName.LongLabelLost` | net/dns.lua:366-374 | a name of one label of 192 bytes is encoded and does not come back |
| `DnsName.CanonicalIsFixed` | net/dns.lua:366-374 | a dotted name without empty labels comes back unchanged |
| `DnsName.EncodeName` | net/dns.lua:366-374 | the encoding of section 3.1 of RFC 1035, or an error if and only if a label has 256 bytes or more |
| `DnsName.WalkFewer` | net/dns.lua:448-467 | spending one pointer more makes a name fail only by the limit on pointers |
| `DnsName.NameThroughPointer` | net/dns.lua:448-467 | a name that begins with a pointer is the name it points to and ends right after the pointer; it fails in addition only by the limit on pointers |
| `DnsName.PointerLeads` | net/dns.lua:455-459 | a pointer made for a position below 2^14 leads there |
| `DnsName.WalkBody` | net/dns.lua:448-467 | labels come before what follows them |
| `DnsName.CompressedName` | net/dns.lua:448-467 | labels followed by a pointer to an encoded name anywhere before are decoded to all labels, with the offset right after the pointer |
| `DnsName.PointerExample` | net/dns.lua:448-467 | the name "foo" through a pointer |
| `DnsRetry.RankBounded` | net/dns.lua:896-937 | the retries a query in progress has left are bounded |
| `DnsRetry.RankDecreases` | net/dns.lua:896-937 | both kinds of retry lower that number and keep server and delay within their lists, until the query is dropped |
| `DnsRetry.FailureProgress` | net/dns.lua:896-937 | failing over one query lowers the retries left of all queries together |
| `DnsRetry.TimeoutProgress` | net/dns.lua:1042-1075 | a timeout of one query does so too |
| `DnsRetry.Resolver.Ask` | net/dns.lua:832-893 | a new query starts at the best server with the first delay |
| `DnsRetry.Resolver.Answered` | net/dns.lua:955-971 | a response retires exactly its query |
| `DnsRetry.Resolver.FailOver` | net/dns.lua:896-937 | one query moves on or is dropped, and if the next server cannot be reached all its queries fail over in turn |
| `DnsRetry.Resolver.ServFail` | net/dns.lua:896-937 | ends for every pattern of unreachable servers; every query of the failed server goes to the next one, or from the last to the first, or is dropped, and no query is touched otherwise; server indexes stay within the list |
| `DnsRetry.Resolver.TimeOut` | net/dns.lua:1042-1075 | one query that is due moves to the next server, with the next delay after the last server, or is dropped |
| `DnsRetry.Resolver.Pulse` | net/dns.lua:1042-1075 | exactly the queries that are due move on, to the next server or to the first with the next delay and a new time, or are dropped, each using up retries |
| `XmlTokenizer.Push` | fallbacks/lxp.lua:77-97 | the frame of an element carries the resolved name that its start event has |
| `XmlTokenizer.DeclaredInside` | fallbacks/lxp.lua:77-85 | an element binds exactly the prefixes that its attributes declare |
| `XmlTokenizer.PrefixedTag` | fallbacks/lxp.lua:67-76 | a tag with a prefix is announced under the innermost namespace bound to it |
| `XmlTokenizer.DefaultTag` | fallbacks/lxp.lua:67-76 | a tag without a prefix, or with one that is not bound, is announced under the innermost default namespace |
| `XmlTokenizer.PlainTag` | fallbacks/lxp.lua:67-76 | without a default namespace it stays as it is |
| `XmlTokenizer.AttributesAnnounced` | fallbacks/lxp.lua:86-92 | attributes keep their names, or get the namespace of their prefix, and never the default one |
| `XmlTokenizer.DeclarationsDropped` | fallbacks/lxp.lua:79-92 | namespace declarations are not announced |
| `XmlTokenizer.TokenAppend` | fallbacks/lxp.lua:40-63 | a complete token stays the same when more input follows |
| `XmlTokenizer.DrainAppend` | fallbacks/lxp.lua:104-129 | taking up tokens before or after more input arrives makes no difference |
| `XmlTokenizer.ChunkingIsInvisible` | fallbacks/lxp.lua:39-147 | for every way of cutting the input, events and state are those of the input in one piece |
| `XmlTokenizer.DocumentEvents` | fallbacks/lxp.lua:104-129 | every document of texts, elements, empty elements and comments gives exactly its events |
| `XmlTokenizer.DocumentInPieces` | fallbacks/lxp.lua:39-147 | so does a document fed to a new parser in pieces of any size |
| `XmlTokenizer.ActMatches` | fallbacks/lxp.lua:98-129 | the events of one token keep the open elements in step with the namespace frames |
| `XmlTokenizer.EventsMatch` | fallbacks/lxp.lua:98-129 | every end event carries the resolved name of the start event it belongs to |
| `XmlTokenizer.Parser.Parse` | fallbacks/lxp.lua:131-147 | the resumable loop emits the events and leaves the state of the recursive definition |
| `ArchivePaging.TestsCombine` | plugins/mod_storage_internal.lua:95-114 | the filters of a query one after the other select the matching items in archive order |
| `ArchivePaging.Locate` | plugins/mod_storage_internal.lua:116-133 | the position a cursor leads to |
| `ArchivePaging.Find` | plugins/mod_storage_internal.lua:82-151 | the count of matching items, and the window of them after the cursor in the direction of the query |
| `ArchivePaging.TakePage` | plugins/mod_muc_mam.lua:182-222 | the handler's loop: at most a page, its first and last key, complete if and only if nothing was left over |
| `ArchivePaging.HandleQuery` | plugins/mod_muc_mam.lua:157-238 | the reply is the page after or before the cursor, with its results in archive order and `complete` exactly when nothing matching remains |
| `ArchivePaging.NextPage` | plugins/mod_muc_mam.lua:157-238 | a page continues what was collected before it |
| `ArchivePaging.MatchingGrows` | plugins/mod_storage_internal.lua:46-80 | the matching items of a growing archive only grow at their end, under unique keys |
| `ArchivePaging.PagingForward` | plugins/mod_muc_mam.lua:157-238 | page after page a client gets every matching item once and in order while the archive grows; `complete` exactly when nothing remains |
| `ArchivePaging.PreviousPage` | plugins/mod_muc_mam.lua:157-238 | a page before a cursor holds the items right before it |
| `ArchivePaging.OnePageBack` | plugins/mod_muc_mam.lua:157-238 | a further page of a reverse query extends what was collected towards the beginning |
| `ArchivePaging.PagingBackward` | plugins/mod_muc_mam.lua:157-238 | the reverse form pages the items of the first query backwards, each once, whatever is added meanwhile |
| `ArchivePaging.PageContinues` | plugins/mod_storage_internal.lua:116-136 | in an archive changed in any way, pages of every size hold the next items not collected yet if and only if the items up to the cursor were collected and none after it was |
| `ArchivePaging.GoneCursorRestarts` | plugins/mod_storage_internal.lua:126-133 | a cursor that is not among the matching items gets the first page again |
| `ArchivePaging.MovedCursorEnds` | plugins/mod_storage_internal.lua:126-136 | a cursor whose item was added again gets an empty page marked complete |
| `ArchivePaging.LoseItem` | plugins/mod_muc_mam.lua:157-238 | so a client loses an item that lies between |
| `ArchivePaging.Append` | plugins/mod_storage_internal.lua:46-80 | keys stay unique, an item of the same key is dropped, all others stay in order and the new item goes to the end |
| `Base64.CodeIsInvertible` | util-src/encodings.c:33-48 | digits can be read back and are neither skipped nor padding |
| `Base64.CodeIsAlphabet` | util-src/encodings.c:30-31 | the digits are those of table 1 of RFC 4648 |
| `Base64.IndexIsPlace` | util-src/encodings.c:109-116 | a character is read as its place in the alphabet, if it has one |
| `Base64.SkippedCharacters` | util-src/encodings.c:148-154 | exactly six characters are skipped |
| `Base64.QuadOfDigits` | util-src/encodings.c:33-48 | a 24-bit number is made of its four digits |
| `Base64.BlockDecodes` | util-src/encodings.c:75-93 | a padded or full block decodes to the bytes it was made of, whatever follows |
| `Base64.BitsOfFew` | util-src/encodings.c:125-142 | fewer than four digits give their whole bytes |
| `Base64.EncodedDecodes` | util-src/encodings.c:95-157 | an encoding decodes to its bytes and decoding goes on with what follows |
| `Base64.SpacesAreSkipped` | util-src/encodings.c:95-157 | skipped characters make no difference anywhere |
| `Base64.RoundTrip` | util-src/encodings.c:33-157 | decoding undoes encoding for all byte strings, for encodings that follow each other and with skipped characters anywhere |
| `Base64.EncodeBlock` | util-src/encodings.c:33-48 | the in-place loops produce the block |
| `Base64.Encode` | util-src/encodings.c:50-73 | the loop produces the encoding |
| `Base64.Decode` | util-src/encodings.c:95-157 | the loop computes the decoding, errors included |
| `Utf8.ScalarRoundTrip` | util-src/encodings.c:177-213 | every Unicode scalar value has a sequence in the grammar of section 4 of RFC 3629, with that code point |
| `Utf8.CharacterRoundTrip` | util-src/encodings.c:177-213 | every sequence of the grammar is the encoding of its code point |
| `Utf8.CharacterUnique` | util-src/encodings.c:177-213 | no sequence of the grammar is the beginning of another |
| `Utf8.Compose` | util-src/encodings.c:198-204 | the shifted lead byte and the continuation bytes share no bits and make up the value |
| `Utf8.ValueTest` | util-src/encodings.c:200-204 | the final test on the value accepts exactly what the grammar allows |
| `Utf8.Continuation` | util-src/encodings.c:177-198 | the loop reads the continuation bytes the lead byte asks for, never past the terminator, or there is no character |
| `Utf8.Decode` | util-src/encodings.c:177-213 | accepts exactly the sequences of the grammar and returns their code point and length |
| `Utf8.Check` | util-src/encodings.c:219-239 | a string is accepted if and only if it is a concatenation of such sequences, and then decoding ends at its length plus one |
| `RingBuffers.RunConserves` | util-src/ringbuffer.c:85-178 | over every run all bytes accepted are those taken followed by those still queued |
| `RingBuffers.PlaceIsRemainder` | util-src/ringbuffer.c:18-32 | positions are reduced modulo the allocation |
| `RingBuffers.SizeIsModular` | util-src/ringbuffer.c:43-43 | sizes are counted modulo 2^64 |
| `RingBuffers.IntIsModular` | util-src/ringbuffer.c:34-61 | a result keeps its low 32 bits |
| `RingBuffers.SearchIsExact` | util-src/ringbuffer.c:42-60 | the search among the contents finds the end of the first occurrence, as a 32-bit integer, or nothing |
| `RingBuffers.FindIsExact` | util-src/ringbuffer.c:34-61 | for every string of 1 to blen bytes in a buffer that is not full: the end of the first occurrence as a 32-bit integer, right if and only if it fits |
| `RingBuffers.MatchInFirstTurn` | util-src/ringbuffer.c:43-58 | a match whose positions do not pass 2^64 is found within one turn round the allocation |
| `RingBuffers.LongFind` | util-src/ringbuffer.c:34-61 | for every string longer than the contents: found, although it does not occur, if and only if it lies round the allocation within one turn or where positions pass 2^64, and its end is no multiple of 2^32; the search never returns if and only if it is longer by one byte and lies nowhere |
| `RingBuffers.LoopMeaning` | util-src/ringbuffer.c:43-60 | taken one turn at a time with a counter modulo 2^64, the loop ends with that result, or never |
| `RingBuffers.FindReturns` | util-src/ringbuffer.c:34-61 | find returns if and only if the positions are equal, the string is not longer than the contents by exactly one byte, or a candidate start matches |
| `RingBuffers.PagedFind` | util-src/ringbuffer.c:34-61 | below 2 GiB: what lies round the allocation is found to end past the contents; if the size divides 2^64 nothing else is found, and the search returns 0 or, for one byte more, never |
| `RingBuffers.FindIsRight` | util-src/ringbuffer.c:34-61 | for every valid buffer and every string but the empty one: find returns, with the end of the first occurrence or 0, if and only if the case is none of the four of `Misjudged` |
| `RingBuffers.FindMisses` | util-src/ringbuffer.c:34-61 | a string that occurs is found if and only if the buffer is not full and the end fits a 32-bit integer |
| `RingBuffers.StaleBytesFound` | util-src/ringbuffer.c:43-58 | a buffer in which a string longer than the contents is found |
| `RingBuffers.EndlessSearch` | util-src/ringbuffer.c:43-58 | a buffer in which the search for a two-byte string never returns |
| `RingBuffers.FullBufferMissed` | util-src/ringbuffer.c:38-40 | a full buffer in which a string that occurs is not found |
| `RingBuffers.RingBuffer.constructor` | util-src/ringbuffer.c:204-217 | a new buffer is empty, and valid unless its size is 0 |
| `RingBuffers.New` | util-src/ringbuffer.c:204-217 | for every Lua integer: the allocation covers the size unless it is from -32 to -1, or memory does not suffice |
| `RingBuffers.RingBuffer.WriteChar` | util-src/ringbuffer.c:23-26 | one byte is added at the end of the contents, across wraparound |
| `RingBuffers.RingBuffer.Write` | util-src/ringbuffer.c:157-178 | all bytes are added if they fit, else none |
| `RingBuffers.RingBuffer.Discard` | util-src/ringbuffer.c:85-100 | that many bytes leave the front if there are as many, else none |
| `RingBuffers.RingBuffer.Read` | util-src/ringbuffer.c:106-132 | the first bytes of the contents, across wraparound, taken out unless peeking |
| `RingBuffers.RingBuffer.Compare` | util-src/ringbuffer.c:43-57 | the comparison at one start position |
| `RingBuffers.RingBuffer.Search` | util-src/ringbuffer.c:34-61 | the first match up to `blen - l` in 64-bit arithmetic, returned through a 32-bit integer, or no return when the counter starts anew |
| `RingBuffers.RingBuffer.Find` | util-src/ringbuffer.c:34-61 | the end of the first occurrence in the contents if and only if the case is none of `Misjudged`; the exact condition of not returning; nothing in an empty or full buffer |
| `RingBuffers.RingBuffer.ReadUntil` | util-src/ringbuffer.c:138-151 | returns the contents through the first occurrence outside the cases of `Misjudged`, and returns at all exactly when find does; whatever the string, it is a read of the queue and what is returned is what left it |
| `Hmac.WordXor` | util-src/hashes.c:100-103 | combining words combines their bytes, in either byte order |
| `Hmac.PadWords` | util-src/hashes.c:33-34 | the pad constants repeat the pad bytes of RFC 2104 |
| `Hmac.BlockSizeMatters` | util-src/hashes.c:77-113 | for every hash with another block size, every key and message: the result is that of RFC 2104 if and only if the two outer inputs are a collision of the hash |
| `Hmac.CountHashDiffers` | util-src/hashes.c:77-113 | a hash for which they never collide |
| `Hmac.XorWord` | util-src/hashes.c:100-103 | a word updated in place changes its four bytes |
| `Hmac.XorInto` | util-src/hashes.c:186-188 | a digest is combined byte by byte |
| `Hmac.Mac` | util-src/hashes.c:77-113 | for every streaming hash: H((K xor opad) + H((K xor ipad) + message)) of section 2 of RFC 2104 with 64-byte blocks, long keys hashed |
| `Hmac.Rounds` | util-src/hashes.c:180-191 | the loop combines U1 to Ui |
| `Hmac.ScramHi` | util-src/hashes.c:145-196 | Hi of section 2.2 of RFC 5802 for the iteration count as a 32-bit integer; less than one counts as one |
| `Hmac.RoundsAsAsked` | util-src/hashes.c:160-160 | the count asked for is used if and only if it is positive and below 2^31 |
| `Hmac.AsIntIsModular` | util-src/hashes.c:160-160 | the count is kept in 32 bits |

## Left out

- Storage failures of rosters, users that do not exist, mod_groups and mod_blocklist; the latter two bypass the subscription handlers.
- Presence broadcasts, roster pushes and the stanzas themselves; a user as its own contact.
- BOSH session creation errors, XML parse errors, inactivity timers, stanza filters and the coroutine that may handle stanzas later than they arrive; stanza handling that closes the session.
- Vetoing hooks of the session registry, and `session:close` that does not destroy the session before it returns; random identifiers are inputs.
- Timer callbacks and clock readings are inputs; the clock never goes below zero.
- TLS, reading from sockets, connection setup, and the socket lists of the select loop with their reverse index.
- Pausing writes in the select loop.
- The DNS header, questions, the parsers of record data, the cache (`prune`, `peek`, `remember`), the timer that `query` starts for itself, and a response with a known id but another question, which drops the queries of that id.
- `parse_tag` and `xml_unescape` of the XML tokenizer: the results hold for all such functions. Attributes of a start event form a set; a prefix named `__index` is not treated as special.
- Decode: the lead byte 0xFF with seven continuation bytes is refused; the source refuses it after a shift by 35 places, which C leaves undefined.
- Save: what is stored, the refusal to store a broken roster, and a version that is `true` instead of a number.
- Ask: the cache, the list of waiting callers and the timer of the query.
- Answered: remembering the records and waking the waiting callers.
- Archives with items that have no key, `archive:delete` and `archive:dates`, and the storage in memory.
- Stringprep, IDNA, and `utf8.length`, which returns the number of bytes.
- Ring buffers of size zero, where reducing a position divides by zero, and objects of 2^62 bytes or more, for which there is no memory.
- Hash compression functions (the hash is any streaming hash), hexadecimal output, and running out of memory.
