# Verified model of the lobby, the match bookkeeping and the sonar client

This project models, in Dafny, the parts of the game that keep state and must not lose track of it, and
proves what they are for. `dafny verify dfyconfig.toml` checks all of it.

| files | what they model |
|---|---|
| `LobbyTypes`, `LobbyRules`, `LobbyInvariants`, `LobbyTheorems`, `LobbyConsent`, `LobbyAnswers` | the lobby registry as a value: every command, what all of them keep, who may change what, when each is granted or refused and what it then changes, and what follows over whole runs |
| `LobbyServer` | the registry as the server holds it: three maps and mutable lobbies, each method proved to take the step of `LobbyRules` |
| `LobbyProtocol`, `LobbyProtocolLayer` | who is told what: a state machine over requests, attaches, detaches and fleet lookups in flight, and the handler over real connections that takes its steps |
| `LobbyMirror`, `LobbyRequests`, `LobbyPrivacy` | what a member is shown against what is there, what each message off the wire does, and what others see of a player's fleet |
| `RateLimit`, `RateLimitLog` | the login rate limiter, against the full log of failures, key by key and as a table |
| `Credit`, `CreditEarned` | damage and kills, from the detonations of a tick to the tallies, and told from hit points and hits alone |
| `Objectives`, `ObjectiveScores` | the objective board and its ledger, and to whom each capture is scored |
| `ChartDelivery`, `SonarChart`, `ChartOnScreen` | a team's chart: packed, sent by watermark, unpacked, encoded into runs, drained and drawn in chunks, and the whole way from discovery to screen |
| `PerfWindow`, `PerfFigures` | the statistics ring, against the full log of ticks, and the figures shown |
| `ChatBucket`, `ChatLog` | the chat limiter and the chat log, against full histories |
| `DashPaths`, `Threats`, `Alerts`, `Cues` | dashing a trail, closest approach, alerts that sound once, noises that play once |
| `Options`, `Measures`, `MatchTypes`, `StableSort`, `Division` | optional values, points and counting in a window, shared names, a stable sort, rows and columns of a packed square |

Code that works step by step in the source is a class or a loop here, proved equal to a function; the
functions are where the lasting properties are proved. Identifiers and join codes are integers, metres,
milliseconds and damage are reals, and a random draw or a new identifier is an input.

## What the proofs turned up

- Square 0 cannot be delivered. The encoder writes it as a leading gap of zero, and the decoder reads a
  gap of zero as the end of the list, so every square of that frame is lost while the watermark moves past
  them. Incremental delivery equals full transfer if and only if square 0 is not among the squares sent
  (`ChartDelivery.ClientHoldsThePrefix`, `ChartDelivery.NothingSurvivesSquareZero`).
- The limiter lets through up to 2 * maxFailures - 2 failures in a window, not maxFailures: a burst just
  short of the limit may lapse and be followed by another. The bound is exact.
- Who gets a kill can depend on the order of the detonations, though the comment at
  packages/server/src/match/runtime.ts:1684-1687 says it does not. It does not if and only if nobody did
  the hull any harm or one attacker did it strictly more than any other (`Credit.OrderDecidesExactlyTies`).
- The third test of `firstOpenPosition`, the `rate <= 0` test of `approachOf` and the `col > 0` test of
  `chart` never decide anything.
- `runs` and `peak` in the statistics are those of single runs, as packages/shared/src/match/perf.ts
  documents them, if and only if no tick of the window measured the phase twice (for `peak`: if and only if
  no tick spent more than the longest measurement). The runtime measures each phase at most once a tick
  (runtime.ts:605, 627 or 633, 1867, 1873, 1953 and handler.ts:307 in packages/server/src/match, and
  packages/shared/src/sim/acoustics/solve.ts:488-685), so there they agree.
- A measurement made before the first tick after arming would be counted in a stale slot; the runtime never
  makes one.
- A `lobby.leave` that arrives on a connection already replaced sends the exit to the old socket, and the
  new one is left believing it is in the lobby. The transport delivers nothing from a replaced socket, so
  this is a condition on the transport, and leaving is the only request that needs it.
- The window the chat limiter judges a line by is the true one if and only if no line still in it was a whole
  window behind the clock at an earlier line of that account; so always when the clock never runs back
  (`ChatBucket.WindowIsTrueExactlyWhenNoneForgotten`, `ChatBucket.BucketIsExact`).

## Model

| member | source | states |
|---|---|---|
| LobbyTheorems.ReachableIsConsistent | packages/server/src/lobby/service.ts:147-154 | From any consistent registry, the empty one included, any run of calls, accepted or refused, keeps the whole invariant: the three maps agree, no lobby is empty, the host is seated, cap, budget and readiness hold in every lobby |
| LobbyTheorems.ApplyKeeps | packages/server/src/lobby/service.ts:244-625 | Each of the commands keeps that invariant, and a refused one leaves every map exactly as it was |
| LobbyTheorems.DirectoryIsExact | packages/server/src/lobby/service.ts:148-154 | After any run: an account maps to a lobby if and only if that lobby is live and lists it, exactly once; a join code names a lobby if and only if that lobby carries it; no lobby is empty and its host is a member |
| LobbyTheorems.StartIsFair | packages/server/src/lobby/service.ts:445-458 | After any run, a start is authorized if and only if the host asks and everyone is ready; then someone is seated, each team is within half the cap, and every seated player goes on the roster with a fleet inside the current budget, whatever was edited before |
| LobbyTheorems.HostSuccession | packages/server/src/lobby/service.ts:639-664 | Across any command a surviving lobby keeps its host, unless that host left or dropped; then it is led by the longest-seated player left, or by a spectator only if no player is left |
| LobbyTheorems.HeirIsLongestSeated | packages/server/src/lobby/service.ts:653-660 | The first of the stable sort that picks the heir: a player ahead of any spectator, then the earliest to join, then the earliest listed |
| LobbyTheorems.JoinSelfBalances | packages/server/src/lobby/service.ts:667-678 | A joiner spectates only when both teams are full, goes to a team no larger than the other, and leaves the imbalance at most the larger of one and what it was |
| LobbyTheorems.ThirdTestIsDead | packages/server/src/lobby/service.ts:667-678 | Where the third test of the seating chain is reached, team 1 is full already, so that test never decides anything |
| LobbyTheorems.FullExactlyWhenNoSeatIsFree | packages/server/src/lobby/service.ts:329-359 | For an account in no lobby, a join is refused as full if and only if every team seat and every spectator place is taken |
| LobbyTheorems.LeaveUndoesJoin | packages/server/src/lobby/service.ts:329-359 | Joining and leaving again gives back the whole registry as it was |
| LobbyTheorems.OtherLobbiesUntouched | packages/server/src/lobby/service.ts:244-664 | A command leaves every lobby alone but the caller's own and the one it asks to join |
| LobbyTheorems.RosterOnlyGrows | packages/server/src/lobby/service.ts:639-664 | No command but a removal closes a lobby, changes its host or takes its host off the roster |
| LobbyAnswers.OnlyTheHostTakesOthersOut | packages/server/src/lobby/service.ts:496-518 | Whatever the command, an account in a lobby is out of it afterwards only if it left or dropped out itself, or was kicked by its own lobby's host |
| LobbyAnswers.HostsKickTakesOutExactlyOne | packages/server/src/lobby/service.ts:502-518 | The host's kick of another member takes out that member and nobody else |
| LobbyAnswers.KickIsAnswered | packages/server/src/lobby/service.ts:502-518 | A kick is refused as not the host's, as of the host itself, or as of someone not there, each exactly when that is the first of these to apply; otherwise exactly the one named is gone, and the lobby stays for the rest |
| LobbyAnswers.DepartureIsAnswered | packages/server/src/lobby/service.ts:496-500 | Leaving or dropping out takes out exactly the one who does, and closes the lobby and frees its code exactly when nobody else was in it |
| LobbyAnswers.CreateIsAnswered | packages/server/src/lobby/service.ts:244-301 | Each refusal of a create exactly when it applies: in a lobby already, within 10 s of the last, a name that is not 3 to 32 plain characters, no free code in the first hundred draws |
| LobbyAnswers.CreatedAsAsked | packages/server/src/lobby/service.ts:244-301 | What is created is a fresh public lobby of that name with the default settings and its opener on team 1 as host; no other lobby, account or code changes |
| LobbyAnswers.JoinByCodeIsAnswered | packages/server/src/lobby/service.ts:303-311 | A code no lobby carries is refused, and otherwise exactly those already in a lobby and joins of a full one; who joins is added at the end of that lobby's roster with nothing chosen |
| LobbyAnswers.JoinByIdIsAnswered | packages/server/src/lobby/service.ts:321-327 | The same by id, for public lobbies alone |
| LobbyAnswers.SetPositionIsAnswered | packages/server/src/lobby/service.ts:361-389 | A seat is refused exactly when it is not the member's own and half the cap, or sixteen spectators, sit there; otherwise only that entry changes, and readiness goes with a spectator's seat |
| LobbyAnswers.SelectFleetIsAnswered | packages/server/src/lobby/service.ts:391-413 | A fleet is refused exactly when over the budget; otherwise only that entry changes, and readiness is dropped |
| LobbyAnswers.SetReadyIsAnswered | packages/server/src/lobby/service.ts:415-443 | Readying is refused exactly to a spectator and to someone without a fleet, each with its own refusal; otherwise only that entry's readiness changes |
| LobbyAnswers.StartIsAnswered | packages/server/src/lobby/service.ts:445-458 | A start is refused to all but the host, and to the host exactly while nobody is on a team or someone on one is not ready; nothing changes |
| LobbyAnswers.ResyncIsAnswered | packages/server/src/lobby/service.ts:470-494 | A fleet read again changes only its owner's entry, and only if it is the fleet chosen and differs from it: it is taken if within the budget and dropped if not or if gone, and readiness with it |
| LobbyAnswers.ModifyIsAnswered | packages/server/src/lobby/service.ts:520-616 | A patch is refused exactly when not the host's, badly formed, or too small a cap for those on teams, with the refusal of the first that applies; otherwise exactly what it asks for is set, and exactly the fleets over the new budget are struck |
| LobbyAnswers.OutsidersAreRefused | packages/server/src/lobby/service.ts:361-525 | Whoever is in no lobby gets that as an answer to everything but creating and joining, and changes nothing |
| LobbyConsent.ReadyMeansAgreed | packages/server/src/lobby/service.ts:391-443 | After any run, a member shown as ready is ready with exactly the fleet it had when it last said so, and has not taken it back since |
| LobbyConsent.NobodyElseChangesYou | packages/server/src/lobby/service.ts:361-616 | Whatever anyone does, every roster entry is a newcomer with nothing chosen or one that was there, its seat changed only by its owner, its fleet only by its owner or by a budget below it, its readiness granted only by its owner and withdrawn only by its owner or with its fleet |
| LobbyConsent.OnlyTheHostChangesSettings | packages/server/src/lobby/service.ts:520-616 | A lobby keeps its id, code and age for life, and its settings change only as its host asked: what was asked for is set and the rest stays |
| LobbyConsent.SeatIsGivenExactlyWhenThereIsRoom | packages/server/src/lobby/service.ts:361-389 | A member gets the seat it asks for if and only if it has it already or there is room, and then it has it |
| LobbyConsent.FleetIsTakenExactlyWithinBudget | packages/server/src/lobby/service.ts:391-413 | A member gets the fleet it chooses if and only if the budget allows it, and then it must ready up again |
| LobbyConsent.ReadyIsGrantedExactlyToTheSeated | packages/server/src/lobby/service.ts:415-443 | Anyone may say it is not ready; a member may say it is if and only if it is seated with a fleet |
| LobbyInvariants.MintIsFresh | packages/server/src/lobby/service.ts:701-710 | The code minted is the first of the draws not in use, within the attempts allowed, and there is none exactly when all those draws are taken |
| LobbyInvariants.RemainingMembers | packages/server/src/lobby/service.ts:639-641 | A departure takes out the one who left and keeps everyone else, in order |
| LobbyInvariants.CreateKeeps | packages/server/src/lobby/service.ts:244-301 | Creating keeps the registry invariant, refused or not |
| LobbyInvariants.JoinKeeps | packages/server/src/lobby/service.ts:329-359 | Joining keeps it, caps included |
| LobbyInvariants.SetPositionKeeps | packages/server/src/lobby/service.ts:361-389 | Moving seat keeps it, caps and readiness included |
| LobbyInvariants.SelectFleetKeeps | packages/server/src/lobby/service.ts:391-413 | Choosing a fleet keeps it, budget included |
| LobbyInvariants.SetReadyKeeps | packages/server/src/lobby/service.ts:415-443 | Readying keeps it: nobody is ready without a seat and a fleet |
| LobbyInvariants.ResyncFleetKeeps | packages/server/src/lobby/service.ts:470-494 | Re-reading a saved fleet keeps it, budget included |
| LobbyInvariants.ModifyKeeps | packages/server/src/lobby/service.ts:520-616 | Editing the settings keeps it, under the new cap and the new budget |
| LobbyInvariants.RemoveKeeps | packages/server/src/lobby/service.ts:639-664 | A removal keeps it, whether it closes the lobby or hands it on |
| LobbyInvariants.KickKeeps | packages/server/src/lobby/service.ts:502-518 | A kick keeps it |
| LobbyInvariants.DepartureKeeps | packages/server/src/lobby/service.ts:496-500 | Leaving and disconnecting keep it |
| LobbyServer.LobbyService.Create | packages/server/src/lobby/service.ts:244-301 | The method over the maps does what the registry step says, caps, cooldown and code drawing included |
| LobbyServer.LobbyService.Join | packages/server/src/lobby/service.ts:329-359 | As above, for a join |
| LobbyServer.LobbyService.JoinByCode | packages/server/src/lobby/service.ts:303-311 | As above, for a join by code |
| LobbyServer.LobbyService.JoinById | packages/server/src/lobby/service.ts:321-327 | As above: only a public lobby can be joined by id, and an unlisted one is refused like an unknown one |
| LobbyServer.LobbyService.SetPosition | packages/server/src/lobby/service.ts:361-389 | As above, for a seat |
| LobbyServer.LobbyService.SelectFleet | packages/server/src/lobby/service.ts:391-413 | As above, for a fleet |
| LobbyServer.LobbyService.SetReady | packages/server/src/lobby/service.ts:415-443 | As above, for readiness |
| LobbyServer.LobbyService.Start | packages/server/src/lobby/service.ts:445-458 | Changes nothing; authorizes exactly when the registry step does |
| LobbyServer.LobbyService.ResyncFleet | packages/server/src/lobby/service.ts:470-494 | As above, for a fleet read again |
| LobbyServer.LobbyService.Leave | packages/server/src/lobby/service.ts:496-500 | As above, for leaving |
| LobbyServer.LobbyService.Kick | packages/server/src/lobby/service.ts:502-518 | As above, for a kick |
| LobbyServer.LobbyService.Modify | packages/server/src/lobby/service.ts:520-616 | As above, for the settings |
| LobbyServer.LobbyService.ReadPatch | packages/server/src/lobby/service.ts:527-601 | The chain of setting checks gives the patched settings or the first complaint, in the order of the source |
| LobbyServer.LobbyService.StrikeStranded | packages/server/src/lobby/service.ts:605-613 | The loop over members drops exactly the fleets the new budget forbids |
| LobbyServer.LobbyService.Disconnect | packages/server/src/lobby/service.ts:619-625 | As above, for a dropped socket |
| LobbyServer.LobbyService.Remove | packages/server/src/lobby/service.ts:639-664 | The in-place removal, closing or succession does what the registry step says |
| LobbyServer.LobbyService.MintCode | packages/server/src/lobby/service.ts:701-710 | The drawing loop gives the first free code within its attempts |
| LobbyServer.LobbyService.LobbyFor | packages/server/src/lobby/service.ts:169-174 | The snapshot of the caller's lobby, if any |
| LobbyServer.LobbyService.ViewFor | packages/server/src/lobby/service.ts:182-188 | The caller's own fleet, if any |
| LobbyServer.LobbyService.Roster | packages/server/src/lobby/service.ts:197-209 | The seats and private fleets of a lobby, in order |
| LobbyProtocol.EveryClientIsInStep | packages/server/src/lobby/handler.ts:160-199 | After any run from start-up in which requests come from connected accounts and no leave is granted on a replaced connection, whatever the interleaving of commands and fleet lookups: each connected account was last told exactly the current state of its lobby with its own fleet, or nothing or an exit when it is in none; and every member is connected |
| LobbyMirror.MembersSeeTheirLobby | packages/server/src/lobby/handler.ts:480-497 | After any deliverable run, the last message told to a member shows, field by field, its lobby as it is: host, code, settings, and of every entry the account, name, seat, age, whether it has a fleet and whether it is ready; and beside it the member's own fleet |
| LobbyMirror.StartIsAuthorizedExactlyAsShown | packages/server/src/lobby/service.ts:445-458 | A start is authorized if and only if the state last told to who asks names it host and shows someone on a team and everyone on a team ready |
| LobbyMirror.RosterIsAsShown | packages/server/src/lobby/service.ts:197-209 | The roster handed to a match seats everyone where the host was shown them, each with the fleet that member itself was last told it has |
| LobbyProtocol.HandleReplicates | packages/server/src/lobby/handler.ts:203-307 | Replication is kept by every request of a connected account, on whichever connection it comes, except a leave that would be granted on a connection already replaced |
| LobbyRequests.ReadyRequest | packages/server/src/lobby/handler.ts:203-307 | A ready request leaves its sender ready or not as asked, exactly if it may be, and changes nothing else |
| LobbyRequests.SeatRequest | packages/server/src/lobby/handler.ts:203-307 | A seat request leaves its sender in the seat asked for exactly if it had it or one was free |
| LobbyRequests.FleetRequest | packages/server/src/lobby/handler.ts:354-400 | Naming no fleet clears the choice at once; naming one only asks for that fleet |
| LobbyRequests.FleetFound | packages/server/src/lobby/handler.ts:354-400 | The fleet found is then the one chosen, exactly if within the budget |
| LobbyRequests.FleetReadAgain | packages/server/src/lobby/handler.ts:354-400 | A chosen fleet saved again is taken as it now is, or dropped if gone or over the budget; a failed read changes nothing |
| LobbyRequests.SettingsRequest | packages/server/src/lobby/handler.ts:203-307 | A settings request sets exactly what it asks for, where its sender hosts and it is well formed |
| LobbyRequests.CreateRequestOpens | packages/server/src/lobby/handler.ts:203-307 | A create request opens a lobby of the name asked for, led by its sender under its own name |
| LobbyRequests.JoinCodeRequestAdds | packages/server/src/lobby/handler.ts:203-307 | A join request adds its sender to the lobby of that code, if it is in none and there is a place |
| LobbyRequests.JoinIdRequestAdds | packages/server/src/lobby/handler.ts:203-307 | The same by id, if that lobby is public |
| LobbyRequests.LeaveRequestTakesOut | packages/server/src/lobby/handler.ts:195-237 | A leave and a dropped socket take out their own account and no other |
| LobbyRequests.KickRequestTakesOut | packages/server/src/lobby/handler.ts:239-253 | A kick takes out the one it names if the host sends it, and nobody otherwise; a start takes out nobody |
| LobbyRequests.WhoeverGoesIsTold | packages/server/src/lobby/handler.ts:411-423 | Whoever leaves is told it has left, on the connection it left from, and whoever is kicked is told so; a dropped account is told nothing more |
| LobbyProtocol.PlayReplicates | packages/server/src/lobby/handler.ts:160-424 | Replication is kept by every run of deliverable events from any replicated state |
| LobbyProtocol.NextReplicates | packages/server/src/lobby/handler.ts:203-307 | Replication is kept by every single event: a request, an attach, a detach, or a lookup coming back |
| LobbyProtocol.SettleReplicates | packages/server/src/lobby/handler.ts:402-409 | Broadcasting after an accepted command restores replication for everyone in the lobby and disturbs nobody else |
| LobbyProtocol.RemovalReplicates | packages/server/src/lobby/handler.ts:411-423 | After a removal and its broadcast, replication holds if and only if the one removed is disconnected or was last told nothing or an exit |
| LobbyProtocol.LeaveReplicatesExactlyWhenCurrent | packages/server/src/lobby/handler.ts:232-237 | A leave keeps replication if and only if it comes on the account's current connection or the account is in no lobby |
| LobbyProtocol.AttachReplicates | packages/server/src/lobby/handler.ts:160-168 | A fresh connection is told its lobby at once |
| LobbyProtocol.LookupReplicates | packages/server/src/lobby/handler.ts:354-400 | A fleet read that completes late, after anything else has happened, keeps replication |
| LobbyProtocol.KickReplicates | packages/server/src/lobby/handler.ts:239-253 | A kick keeps replication for the kicked and the rest, refused or not |
| LobbyProtocol.Audience | packages/server/src/lobby/handler.ts:491-497 | When a command changes one lobby, everyone listed there expects exactly its new state, and what everyone else expects is unchanged |
| LobbyPrivacy.FleetsStayPrivate | packages/server/src/lobby/handler.ts:480-497 | Two runs from start-up alike in every event, except which fleets one player asks for, saves and gets back from its lookups: every other account is told the same, at every moment, as long as each budget involved judges the fleets alike |
| LobbyPrivacy.NextAlike | packages/server/src/lobby/handler.ts:203-307 | Each event, a request, a connection, a lookup coming back, keeps two such servers alike and tells all others the same |
| LobbyPrivacy.CommandsHideFleets | packages/server/src/lobby/service.ts:244-664 | Every command is answered the same in two registries that differ only in the fleets one player has chosen, and leaves two such registries |
| LobbyPrivacy.ChoiceShowsOnlyTheVerdict | packages/server/src/lobby/service.ts:391-413 | Two fleets chosen by the same player get the same answer if and only if the budget allows both or neither |
| LobbyPrivacy.BudgetShowsOnlyTheVerdict | packages/server/src/lobby/service.ts:602-616 | A new budget for a lobby where a player holds one fleet or another gets the same answer if and only if it strands both or neither |
| LobbyProtocolLayer.LobbyHandler.Handle | packages/server/src/lobby/handler.ts:203-307 | The handler over real connections takes the protocol step for each request, and sends the one who asked the refusal it gets, once, and no other |
| LobbyProtocolLayer.LobbyHandler.HandleStart | packages/server/src/lobby/handler.ts:318-323 | A start that is authorized hands on the roster as it stands; one that is not answers the caller and changes nothing |
| LobbyProtocolLayer.LobbyHandler.HandleSelectFleet | packages/server/src/lobby/handler.ts:354-400 | Naming a fleet only starts a lookup; clearing it settles at once |
| LobbyProtocolLayer.LobbyHandler.LookupAnswered | packages/server/src/lobby/handler.ts:354-400 | Any lookup in flight may complete, takes the protocol step when it does, and answers a fleet that is missing, cannot be read or is over the budget with that refusal, once, on the connection that asked |
| LobbyProtocolLayer.LobbyHandler.FleetChanged | packages/server/src/lobby/handler.ts:176-187 | A saved fleet starts a re-read only for an account in a lobby |
| LobbyProtocolLayer.LobbyHandler.Attach | packages/server/src/lobby/handler.ts:160-168 | Takes the protocol step, and the connection is then the current one |
| LobbyProtocolLayer.LobbyHandler.Detach | packages/server/src/lobby/handler.ts:195-199 | Takes the protocol step |
| LobbyProtocolLayer.LobbyHandler.Settle | packages/server/src/lobby/handler.ts:402-409 | A refusal goes to the caller alone; an accepted state goes to everyone listed |
| LobbyProtocolLayer.LobbyHandler.Exit | packages/server/src/lobby/handler.ts:411-423 | The exit goes to the connection that asked, the new state to those left |
| LobbyProtocolLayer.LobbyHandler.Broadcast | packages/server/src/lobby/handler.ts:491-497 | Everyone listed and connected is sent one message, with their own fleet; nobody else is sent any |
| LobbyProtocolLayer.ConnectionRegistry.Add | packages/server/src/realtime/connections.ts:30-32 | The newest connection of an account is the registered one |
| LobbyProtocolLayer.ConnectionRegistry.Remove | packages/server/src/realtime/connections.ts:41-45 | A replaced connection cannot evict its successor |
| LobbyProtocolLayer.ConnectionRegistry.RemoveById | packages/server/src/realtime/connections.ts:54-56 | The account is no longer connected, others are unaffected |
| LobbyProtocolLayer.ConnectionRegistry.Tell | packages/server/src/realtime/connections.ts:63-65 | Reaches the registered connection and no other; nothing when there is none |
| RateLimit.FailuresAreBounded | packages/server/src/auth/rate-limit.ts:40-71 | Attempts on a key one at a time under a clock that never runs back: no half-open window of `windowMs` without a clear holds more than 2 * maxFailures - 2 recorded failures, when the lockout is no shorter than the window |
| RateLimit.LimitsInUse | packages/server/src/auth/rate-limit.ts:92-103 | With the limits in use, a window holds at most 18 recorded failures of one name and 58 of one address |
| RateLimitLog.LimiterIsItsLog | packages/server/src/auth/rate-limit.ts:40-71 | After any run of attempts, successes and sweeps of a key: exactly the failures not locked out are recorded, and the next attempt is refused if and only if the latest burst of them is full and its lockout still runs, bursts being told from the log alone |
| RateLimitLog.KeyFollowsItsOwnCalls | packages/server/src/auth/rate-limit.ts:36-84 | After any run of calls on any keys, the table holds of each key what the calls about that key led to, whatever the others did |
| RateLimitLog.SweepLeavesExactlyTheLive | packages/server/src/auth/rate-limit.ts:78-84 | A sweep leaves an entry, unchanged, if and only if it is locked still or began within the last window |
| RateLimit.BoundIsReached | packages/server/src/auth/rate-limit.ts:40-71 | That bound is attained, for every such limit |
| RateLimit.SweepIsUnobservable | packages/server/src/auth/rate-limit.ts:78-84 | A limiter swept at any moments and one never swept give the same decision to every check of every run |
| RateLimit.SweepsPreserveDecisions | packages/server/src/auth/rate-limit.ts:78-84 | The two tables agree up to entries that no longer matter, and stay so |
| RateLimit.RateLimiter.Check | packages/server/src/auth/rate-limit.ts:40-56 | Decides by the entry, and drops an entry that is over |
| RateLimit.RateLimiter.RecordFailure | packages/server/src/auth/rate-limit.ts:58-71 | Starts or extends a burst, and locks at the limit |
| RateLimit.RateLimiter.Sweep | packages/server/src/auth/rate-limit.ts:78-84 | Removes exactly the entries that are both unlocked and stale |
| RateLimit.RateLimiter.Attempt | packages/server/src/auth/service.ts:150-164 | A check, and a recorded failure only when the check allowed it |
| Credit.TickCreditIsConserved | packages/server/src/match/runtime.ts:1690-1737 | The damage credited in a tick, over all attackers, is the sum over victims of the smaller of the damage their attackers' warheads did and the hit points actually lost |
| CreditEarned.CreditIsTheHitPointsLost | packages/server/src/match/runtime.ts:1711-1722 | Told from the fleet before and after and the detonations alone: the damage on all cards grows, boat by boat, by the smaller of the damage done to it by warheads somebody fired and the fall in its hit points, and by nothing for a boat nobody harmed |
| CreditEarned.CreditIsWithinTheFall | packages/server/src/match/runtime.ts:1711-1722 | So it grows by no more than the hit points of the whole fleet fell |
| CreditEarned.CardGrowsByItsPart | packages/server/src/match/runtime.ts:1716-1722 | Each attacker's card grows, boat by boat, by the damage it did, or in proportion to it where more was done than the boat lost |
| CreditEarned.ListGrowsByWhatItSank | packages/server/src/match/runtime.ts:1732-1733 | Each attacker's list grows by exactly the boats afloat before and wrecked after that are put down to it, in fleet order |
| CreditEarned.CulpritHarmedItMost | packages/server/src/match/runtime.ts:1719-1730 | A boat is put down to nobody exactly when nobody's warheads harmed it, and otherwise to one nobody's harmed more |
| CreditEarned.BlowsAreTheHarm | packages/server/src/match/runtime.ts:1698-1708 | The claims are the damage of the hits, each put down to the boat that fired the torpedo, and to nobody for a torpedo not in the water |
| Credit.CreditIsConserved | packages/server/src/match/runtime.ts:1711-1722 | The same for any table of claims and any roster holding the attackers |
| Credit.CreditNeverExceedsLosses | packages/server/src/match/runtime.ts:1711-1722 | So the credit is never more than what the fleet lost |
| Credit.EachIsPaidItsPart | packages/server/src/match/runtime.ts:1716-1722 | Each attacker gains, over the victims, its claim scaled to what landed |
| Credit.ClaimsAreTheDamage | packages/server/src/match/runtime.ts:1698-1708 | An attacker's claim on a victim is the sum of the damage of all its hits on it, and a hit by a weapon nobody fired claims nothing |
| Credit.KillerLeads | packages/server/src/match/runtime.ts:1719-1730 | The killer is the first of the largest positive claims, and there is none exactly when no claim is positive |
| Credit.KillsGoToTheLeader | packages/server/src/match/runtime.ts:1732-1733 | Each attacker gains exactly the hulls sunk this tick on which it leads, in fleet order |
| Credit.OneKillerEach | packages/server/src/match/runtime.ts:1732-1733 | A hull sunk this tick is on the list of one attacker if anyone hurt it, and of none otherwise |
| Credit.StrictLeaderIsTheKiller | packages/server/src/match/runtime.ts:1719-1730 | A claim strictly above all others gets the kill wherever it stands |
| Credit.CulpritDidTheMost | packages/server/src/match/runtime.ts:1719-1733 | Straight from the detonations: a hull is nobody's kill exactly when nobody did it harm, and otherwise nobody did it more harm than its killer |
| Credit.HarmIgnoresOrder | packages/server/src/match/runtime.ts:1698-1708 | The damage an attacker did a victim is the same in every order of the detonations |
| Credit.EqualClaimsDependOnOrder | packages/server/src/match/runtime.ts:1684-1687 | The failing input: two detonations doing equal damage to one hull give the kill to whichever of them is listed first |
| Credit.OrderDecidesExactlyTies | packages/server/src/match/runtime.ts:1684-1687 | For every list of detonations and every victim: all its reorderings give the same killer if and only if nobody did the victim any harm or one attacker did it strictly more than any other |
| Credit.MatchTallies.CreditWeapons | packages/server/src/match/runtime.ts:1690-1737 | The nested loops compute that tally |
| Credit.MatchTallies.CollectClaims | packages/server/src/match/runtime.ts:1698-1709 | The first loop collects the claims of every hit, detonation by detonation |
| Credit.MatchTallies.PayOut | packages/server/src/match/runtime.ts:1721-1730 | The loop over attackers pays each its scaled part and finds the killer |
| Objectives.LedgerBalances | packages/server/src/match/runtime.ts:559-574 | Over any match: both scores plus the zones standing, less what they came to at the start, is the number of zone ids handed out; and the board is in slot order with each label and each id at most once, placements refused or not |
| Objectives.IdsAreNeverReused | packages/server/src/match/runtime.ts:1790-1823 | An id once off the board never stands again |
| Objectives.TickBalances | packages/server/src/match/runtime.ts:559-574 | The same balance for one tick |
| Objectives.OpeningIsOrderly | packages/shared/src/match/objectives.ts:380-406 | The opening layout is in order whichever slots it could fill |
| Objectives.FillingIsOrderly | packages/server/src/match/runtime.ts:1790-1823 | Refilling spends one id for each zone placed and leaves the board in slot order |
| Objectives.VacantAreFree | packages/shared/src/match/objectives.ts:409-424 | The vacant labels are exactly those with nothing standing in them |
| Objectives.RetireAndCapturesPartition | packages/server/src/match/runtime.ts:2238-2244 | Every zone either stays or was captured, never both |
| Objectives.RetireKeepsOthers | packages/server/src/match/runtime.ts:2238-2244 | Retiring takes off exactly the zones captured |
| Objectives.EveryCaptureScores | packages/server/src/match/runtime.ts:2254-2264 | Each capture is one point to one team |
| ObjectiveScores.ScoreIsWhatFell | packages/server/src/match/runtime.ts:2254-2264 | Over a tick each team's own score grows by the number of zones that are full and held by it once advanced |
| ObjectiveScores.ScoresAreWhatFell | packages/server/src/match/runtime.ts:559-574 | Over a match each team's score grows by the zones that fell to it |
| ObjectiveScores.AbsentTeamNeverScores | packages/server/src/match/runtime.ts:559-574 | In a match from zones it does not hold, a team that is never in a circle never scores, and every zone taken down is one to the other |
| ObjectiveScores.StandsExactlyUnlessItFalls | packages/server/src/match/runtime.ts:2238-2244 | Each zone stands after a tick, as advanced, if and only if it does not fall |
| ObjectiveScores.EveryVacancyIsTried | packages/server/src/match/runtime.ts:1790-1823 | When zones fall every label stands again unless its placement is refused, and what is new is unheld, arming and where the placement put it |
| ObjectiveScores.OpeningFillsWhereAllowed | packages/shared/src/match/objectives.ts:380-406 | The opening board has every label whose placement is allowed, open at once and unheld |
| ObjectiveScores.ContestedExactlyWhileBothAreInside | packages/shared/src/match/objectives.ts:554-600 | An open zone is contested exactly while both teams are in it |
| Objectives.ProgressIsTheStreak | packages/shared/src/match/objectives.ts:554-600 | From an open zone nobody holds, after any comings and goings: a team holds it exactly when it has been alone in it during the stay it is still on, and its progress is that time and nothing else; a contested tick neither adds nor takes away, and leaving loses everything |
| Objectives.FallsExactlyWhenHeldLongEnough | packages/shared/src/match/objectives.ts:519-551 | So it falls to a team exactly when that team has been alone in it for `CAPTURE_SECONDS` without leaving |
| Objectives.ArmingOnlyCountsDown | packages/shared/src/match/objectives.ts:559-559 | While it arms a zone only counts down, whoever is in it |
| Objectives.MatchObjectives.TickObjectives | packages/server/src/match/runtime.ts:559-574 | The capture part of a tick does what the ledger step says |
| Objectives.MatchObjectives.Refill | packages/server/src/match/runtime.ts:1790-1823 | The refill loop does what the board step says |
| Objectives.MatchObjectives.constructor | packages/server/src/match/runtime.ts:365-365 | Ids start above every id on the opening board, so an opening board in order is in order for play |
| Objectives.SpawnZones | packages/shared/src/match/objectives.ts:380-406 | The opening loop lays out what the layout function says |
| SonarChart.SonarPicture.Chart | packages/client/src/render/picture.ts:282-297 | A square is charted once, in confirmation order, and the runs drained plus those pending still expand to exactly the charted squares |
| SonarChart.SonarPicture.ApplyChart | packages/client/src/render/picture.ts:187-188 | A frame charts exactly its new squares, in order, each once |
| SonarChart.SonarPicture.DrainChart | packages/client/src/render/picture.ts:252-256 | Draining hands over every pending run and loses none |
| SonarChart.ExtendedExpands | packages/client/src/render/picture.ts:282-297 | Adding a square to the runs adds that one square at the end of what they expand to, keeps every run in its row and leaves no two neighbours joinable |
| SonarChart.ConfirmedMembers | packages/client/src/render/picture.ts:282-284 | Confirming a list adds exactly its members and never repeats one |
| SonarChart.SonarLayers.AppendChart | packages/client/src/render/sonar.ts:117-159 | The chunks concatenate to the rectangles of all runs ever drained, each rectangle committed by a fill, each sealed chunk holding exactly `RUNS_PER_CHUNK` and never changed again |
| SonarChart.RunsCoverTheirCells | packages/client/src/render/sonar.ts:150-152 | A square is inside some rectangle of a run list if and only if the runs expand to it |
| SonarChart.NoSquareTwice | packages/client/src/render/picture.ts:282-297 | No square is inside the rectangles of two different runs |
| SonarChart.DrawnIsCharted | packages/client/src/render/sonar.ts:117-159 | After the chart is appended, what is drawn is exactly what is charted |
| ChartDelivery.ClientHoldsThePrefix | packages/server/src/match/runtime.ts:1587-1604 | Over any run of discoveries, frames, reattaches and rejoins, the client holds exactly the prefix of its team's chart up to its watermark, if and only if square 0 is not in that prefix |
| ChartDelivery.NothingIsSentTwice | packages/server/src/match/runtime.ts:1587-1604 | For any two events of any run with no reattach or rejoin after the first up to the second: the squares their frames carry are disjoint |
| ChartDelivery.FrameIsNew | packages/shared/src/match/vision.ts:923-937 | After any run the next frame carries no square below the watermark |
| ChartDelivery.ResumeRebuildsTheChart | packages/server/src/match/handler.ts:173-178 | After a reattach or rejoin, enough frames bring a fresh picture the whole chart again |
| ChartOnScreen.PlayerView.Redraw | packages/client/src/render/sonar.ts:117-159 | After any run of discoveries, frames, reattaches and rejoins, with drawing at any moments between: what is drawn covers exactly the squares of the team's chart below this player's watermark, if and only if square 0 is not among them |
| ChartOnScreen.ScreenShowsThePrefix | packages/shared/src/match/vision.ts:923-937 | The same of any screen drawn up to date, in terms of the run that led to it |
| ChartOnScreen.PlayerView.Receive | packages/client/src/state/match.ts:279-295 | A frame overtaken by a later one changes nothing; any other is unpacked and charted |
| ChartOnScreen.PlayerView.Rejoin | packages/server/src/match/handler.ts:173-178 | A resume starts an empty picture and an empty layer and resets the watermark, and both sides still follow the run |
| ChartDelivery.PackRoundTrips | packages/shared/src/match/vision.ts:316-340 | Unpacking what was packed gives the list back with repeats dropped, if and only if square 0 is not first |
| ChartDelivery.NothingSurvivesSquareZero | packages/shared/src/match/vision.ts:316-340 | A list with square 0 in it unpacks to nothing at all |
| ChartDelivery.SquareZeroIsLost | packages/shared/src/match/vision.ts:329-340 | Such a list, written out: three squares are packed and none comes back |
| ChartDelivery.FrameCarries | packages/shared/src/match/vision.ts:923-937 | A frame carries exactly the next squares of the chart after the watermark, up to its limit, and moves the watermark by as many |
| ChartDelivery.PackCells | packages/shared/src/match/vision.ts:316-327 | The encoding loop computes the packing |
| ChartDelivery.UnpackCells | packages/shared/src/match/vision.ts:329-340 | The decoding loop computes the unpacking |
| ChartDelivery.VisionRuntime.VisionFor | packages/server/src/match/runtime.ts:1587-1593 | A frame is cut from the account's watermark, and the watermark moves on the send; an account on no team gets none |
| ChartDelivery.VisionRuntime.Forget | packages/server/src/match/runtime.ts:1602-1604 | The account's next frame starts from nothing |
| PerfWindow.WindowIsBruteForce | packages/server/src/match/perf.ts:50-160 | After any run of ticks, measurements, watchers coming and watchers going: each phase's runs, mean, share and peak are those of the last `PERF_WINDOW` ticks of the full history since the panel was armed, and nothing from before a disarm survives |
| PerfFigures.FiguresAddUp | packages/server/src/match/perf.ts:62-85 | After any run, of each phase: mean times runs, and share times the budget of the ticks in the window, are both the sum of its measurements in the window; its runs are the ticks of the window it was measured in; without them the mean, and without ticks the share, is zero |
| PerfFigures.WatchersAskedTo | packages/server/src/match/runtime.ts:851-858 | Exactly those watch whose last request was to, and the stopwatch runs exactly while somebody does |
| PerfWindow.RingAddsUp | packages/server/src/match/perf.ts:66-76 | A ring, read in slot order, adds up to the recent ticks read in time order |
| PerfWindow.RecordAgreesExactlyWithinATick | packages/server/src/match/perf.ts:128-131 | A measurement is counted rightly if and only if a tick has begun since arming; before that it lands in a stale slot and shows as a run in a window of no ticks |
| PerfWindow.RunsAreCountedExactlyWhenOncePerTick | packages/server/src/match/perf.ts:62-85 | After any run a phase's total is the sum of its measurements in the window; its `runs` is their number if and only if no tick of the window measured it twice, and its `peak` is then the largest of them |
| PerfWindow.PeakIsOfOneRunExactlyWhen | packages/server/src/match/perf.ts:62-85 | With no negative time in the window, `peak` is that of one measurement if and only if no tick of the window spent more than the longest measurement |
| PerfWindow.TwiceInATick | packages/server/src/match/perf.ts:128-131 | The failing input: two measurements of one phase in one tick count as one run, and the peak is their sum |
| PerfWindow.PeakIsLargest | packages/server/src/match/perf.ts:66-76 | The peak is the largest slot total, or zero |
| PerfWindow.SlotIsCongruent | packages/server/src/match/perf.ts:117-117 | The truncating double remainder gives the tick modulo the window for every tick, negative ones too |
| PerfWindow.PhaseRing.View | packages/server/src/match/perf.ts:62-85 | The loop over the slots computes the view |
| PerfWindow.PerfTracker.BeginTick | packages/server/src/match/perf.ts:113-121 | Takes the tick's slot and wipes that slot in every ring, and no other |
| PerfWindow.PerfTracker.Record | packages/server/src/match/perf.ts:128-131 | Adds to the current slot of one phase, and to nothing while disabled |
| PerfWindow.PerfTracker.Reset | packages/server/src/match/perf.ts:155-160 | Wipes every slot of every ring |
| PerfWindow.PerfTracker.Snapshot | packages/server/src/match/perf.ts:137-147 | Every phase in order, each with its own view |
| PerfWindow.MatchStatistics.SetDebugStats | packages/server/src/match/runtime.ts:851-858 | Measures exactly while somebody watches, and forgets when the last one goes |
| PerfWindow.MatchStatistics.RunTick | packages/server/src/match/runtime.ts:478-490 | A tick takes its slot before anything is measured in it |
| ChatBucket.BucketIsExact | packages/server/src/match/handler.ts:761-771 | Under a clock that never runs back, a line is admitted if and only if fewer than `CHAT_BURST` of all those admitted since the last detach fall in the window before it, though old times are thrown away |
| ChatBucket.AdmittedExactlyWhen | packages/server/src/match/handler.ts:761-771 | Under every clock: a line is admitted if and only if fewer than `CHAT_BURST` of the lines admitted since the last detach are within a window of every line that account has offered since, this one included |
| ChatBucket.WindowIsTrueExactlyWhenNoneForgotten | packages/server/src/match/handler.ts:761-771 | Under every clock: the window a line is judged by holds all the admitted lines it should if and only if no line still in it was a whole window behind the reading at an earlier line offered by that account |
| ChatBucket.NoWindowHoldsMoreThanABurst | packages/server/src/match/handler.ts:761-771 | However the clock moves, if no line was judged while one in its window was forgotten, no window of that length, wherever it starts, holds more than `CHAT_BURST` lines of one connection |
| ChatBucket.ClockRunningBackLetsMoreThrough | packages/server/src/match/handler.ts:761-771 | The failing inputs: a burst, a line once it has left the window, and a clock that then runs back into that window: one more line gets through although the window already holds a burst and one |
| ChatBucket.ChatLimiter.AllowChat | packages/server/src/match/handler.ts:761-771 | The filtering loop decides and keeps what the step says |
| ChatBucket.ChatLimiter.Forget | packages/server/src/match/handler.ts:186-191 | A detach forgets the account's times |
| ChatLog.LogHoldsTheNewest | packages/client/src/state/match.ts:366-376 | Whatever arrives, in whatever order and however often, the log is the `CHAT_HISTORY_LIMIT` highest distinct ids received, ascending, and a line missing from it is older than all of it |
| ChatLog.ArrivalOrderDoesNotMatter | packages/client/src/state/match.ts:366-376 | The same lines in any order and any number of times leave the same log |
| DashPaths.WalkTilesAndAlternates | packages/client/src/render/trails.ts:207-240 | For every track and every positive dash and gap: the pieces walked are in order, abutting and disjoint, cover each segment to within 1e-6, and alternate ink and gap, each finished run within 1e-6 of its nominal length, counted across vertices |
| DashPaths.DashPath | packages/client/src/render/trails.ts:207-240 | The nested loops terminate for every track, and what they stroke is the inked part of that walk |
| DashPaths.DashesAreBounded | packages/client/src/render/trails.ts:177-181 | Stretched as the trail drawer stretches it, no track is cut into more than `MAX_DASHES` whole periods, given a period longer than 8.02e-4 m |
| DashPaths.StretchedWalkIsBounded | packages/client/src/render/trails.ts:177-181 | The same of the walk itself: every track, walked with the stretched dash and gap, ends before run `2 * MAX_DASHES + 2`, given a period longer than 8.02e-4 m |
| DashPaths.StrokesAreBounded | packages/client/src/render/trails.ts:177-181 | So the strokes queued for a track are at most `MAX_DASHES` + 1 and one more for each segment, given such a period |
| DashPaths.StretchedNoMoreThanNeeded | packages/client/src/render/trails.ts:179-181 | The stretch keeps the proportion of dash and gap, is none where `MAX_DASHES` of them as asked reach along the track, and is otherwise exactly so much that they do |
| DashPaths.TotalAddsUp | packages/client/src/render/trails.ts:189-197 | The length of a track is the sum of its parts |
| DashPaths.WholePeriodsFit | packages/client/src/render/trails.ts:207-240 | The whole periods of a walk, each short by at most two hairs, fit in the length of the track |
| Threats.ThreatOf | packages/client/src/render/threat.ts:203-236 | What is reported is, of all the ways the weapon threatens any target within the horizon and the reach, the nearest, then the soonest, then the first listed; nothing is reported if and only if it threatens none or has no way on |
| Threats.ApproachIsTheClosest | packages/client/src/render/threat.ts:287-315 | The reported time is ahead; and with both positions written out along their present courses, the distance then is the one reported and is strictly larger at every other time |
| Threats.NoApproachExactlyWhenOpening | packages/client/src/render/threat.ts:302-312 | No approach is reported if and only if the two, each on its course, are never nearer than they are now |
| Threats.ClosingMeansMoving | packages/client/src/render/threat.ts:305-308 | The guard against a zero rate never decides anything: what is closing is moving |
| Threats.PassesExactlyWhenThreatened | packages/client/src/render/threat.ts:210-214 | A target passes the gates if and only if there is an instant within 45 s at which the two, each keeping its course, are nearer than at any other, and then within reach; that instant and distance are what is reported |
| Threats.BestKnownSpeed | packages/client/src/render/threat.ts:205-205 | A measured speed counts before that of an identified load, and either before the fallback |
| Alerts.StreakAlertsOnceAtItsStart | packages/client/src/render/pings.ts:208-236 | An event reported in an unbroken streak of frames alerts once, on the first of them, whatever else is reported and however often the memory is trimmed |
| Alerts.RememberedExactlyWhen | packages/client/src/render/pings.ts:225-233 | A key is remembered if and only if some frame reported it and every trim since found it still reported |
| Alerts.AlertsExactlyWhenNew | packages/client/src/render/pings.ts:208-220 | A frame raises one alert for each key it reports that is not remembered, however often it repeats it, and none otherwise |
| Alerts.MemoryIsBounded | packages/client/src/render/pings.ts:225-233 | The memory never outgrows four times `MAX_ALERTS`, or the last frame if that is larger |
| Alerts.CompactionIsUnobservable | packages/client/src/render/pings.ts:326-342 | Whenever it is drawn and however often the list was compacted, what is drawn is what is young enough of the newest `MAX_ALERTS` alerts ever raised |
| Alerts.RaisedWhereTheyHappened | packages/client/src/render/pings.ts:208-220 | Each new event raises one alert, where it happened and born now, in the order reported |
| Alerts.OneRingEach | packages/client/src/render/pings.ts:326-342 | One ring is drawn to an alert, around where it happened, of the age it has |
| Alerts.RingGrowsAndFades | packages/client/src/render/pings.ts:98-113 | A ring starts as a point at full strength, grows 1.5 m a millisecond up to a kilometre, and fades evenly to nothing as its time runs out |
| Alerts.ForgetsOnlyPastTheLimit | packages/client/src/render/pings.ts:225-233 | Nothing remembered is forgotten while there are at most 64 keys, and past that all but the frame's own |
| Alerts.HostilePings.Observe | packages/client/src/render/pings.ts:208-236 | Folding in a frame raises its new alerts in order, keeps the newest and trims the memory |
| Alerts.HostilePings.FoldIn | packages/client/src/render/pings.ts:211-217 | The loop over a frame's events keeps the first report of each key not seen |
| Alerts.HostilePings.Compact | packages/client/src/render/pings.ts:326-342 | The in-place compaction leaves exactly the visible alerts, oldest first, and draws one ring each |
| Cues.PlayedExactlyWhenUnheard | packages/client/src/audio/cues.ts:70-98 | A boat that was not in the frame before sounds nothing; one that was sounds exactly those of its reports that come after every report of their kind since it appeared |
| Cues.EachNoiseOnce | packages/client/src/audio/cues.ts:70-98 | While a boat stays in the frames, it sounds each kind at strictly increasing ticks, so each (kind, tick) at most once |
| Cues.RecordIsTheStreak | packages/client/src/audio/cues.ts:70-98 | The record of a boat is the latest tick of each kind of everything it reported since it appeared, and a boat out of the frames has none |
| Cues.EachCueIsOfAReport | packages/client/src/audio/cues.ts:70-98 | Every cue played on a frame announces a report of a boat in it: its kind, and where, by what hull and whose it is |
| Cues.TransientCues.Observe | packages/client/src/audio/cues.ts:70-98 | The loop over a frame's boats plays and records what the frame step says |
| Cues.ObserveBoat | packages/client/src/audio/cues.ts:81-87 | The loop over one boat's transients plays and records what the boat step says |

## Left out

- LobbyServer.LobbyService.Create: takes a lobby name already normalized and its draws as inputs, because trimming text and random numbers are outside the model; a fresh lobby id is the next of a counter, standing for `randomUUID`.
- LobbyServer.LobbyService.Modify: members are values inside a mutable lobby, so aliasing between member records is not captured; a position, visibility or mode outside its type cannot be named, because the wire checks (`readPatch`, `readFilter`) are branch by branch and easy.
- LobbyServer.LobbyService.ReadPatch: a mode, visibility or map value outside its type cannot be named, so the refusals of malformed ones are left out.
- LobbyProtocolLayer.LobbyHandler.Handle: the callbacks into the match layer, `lobby.list` and the refusals of malformed messages are left out: the first are the match layer's, the second is a read-only query, the others answer the sender and change nothing.
- LobbyProtocolLayer.LobbyHandler.HandleStart: stops at the roster handed to the match starter; the asynchronous creation of the match and its `match.started` broadcast are the match layer's.
- LobbyProtocolLayer.LobbyHandler.LookupAnswered: claims the budget on the lobby's own copy of a fleet, and not that the copy is the latest save; a server composed without a fleet lookup is not modelled.
- LobbyProtocol.EveryClientIsInStep: assumes what the transport and gateway promise, that a request comes from an account with a connection, that a leave comes on its current one, and that a detach is reported for it.
- LobbyPrivacy.FleetsStayPrivate: about what a client is told of its lobby; a refusal goes to the asker alone, and the roster handed to a match names fleets, which is the match layer's to keep.
- RateLimit.FailuresAreBounded: for attempts made one at a time; logins that overlap between the check and the recorded failure are not covered.
- Credit.MatchTallies.CreditWeapons: the other columns of a tally (`captures`, `torpedoesFired`, `destroyedTick`) are left out: each is a single increment or assignment.
- Objectives.MatchObjectives.TickObjectives: where a zone may be placed and who stands in a circle are arbitrary functions, because terrain and hulls are not modelled; which boats are credited with a capture is left out.
- Objectives.FallsExactlyWhenHeldLongEnough: in exact arithmetic; in floating point the tick may differ by one.
- SonarChart.SonarLayers.AppendChart: a chunk is a list of rectangles and a count of those committed; the graphics library is not modelled.
- ChartDelivery.ClientHoldsThePrefix: frames arrive in order and none is lost, as the channel delivers them today; contacts, launches and lit squares are not modelled.
- PerfWindow.MatchStatistics.RunTick: the measured times are inputs; what is measured is not modelled, nor are the counts of the snapshot.
- DashPaths.DashPath: strokes are distances along a segment; turning them into points by interpolation, and the length of a segment itself, are not modelled.
- DashPaths.DashesAreBounded: bounds whole periods; the dash begun after them and the lines added by vertices are in `DashPaths.StrokesAreBounded`.
- Threats.ThreatOf: how near is near enough (`reachAgainst`) is an arbitrary function of the target, because it is acoustics; distances are compared by their squares.
- Alerts.HostilePings.Observe: the staggered rings of a launch alert and the friendly `PingRings.observe` are left out; the compaction proved is the same loop in all three.
- Cues.EachNoiseOnce: for frames that name each boat once.
- `LobbyService.list`, its filter and the lobby summaries: a read-only query.
- `TorpedoTrails.observe`, lit squares, contacts and their fading in `SonarPicture`: each is one map updated in one loop, with no property across operations.
- The acoustic solver, movement, collision, weapons, map generation, content tables, debug overlays, rendering, sockets, HTTP, SQL and authentication other than the limiter.
- Floating point: all measures are reals.
