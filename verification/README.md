# What the broker and the Deck guarantee, proved

A Dafny model of two programs that share a machine or a network, and proofs of what they promise.

The **broker** keeps groups, peers, messages and sessions in SQLite and hands messages between peers.
Each handler is a *plan*: the statements it issues, in order. Each statement is one update of the
tables, refused exactly when SQLite's constraints refuse it. Runs are sequences of handler and timer
events; the theorems hold between any two statements or after any run. `BrokerService.Broker` is the
broker as a program: methods that read the tables, issue the statements one at a time and stop at a
refusal, each proved to do what its plan does.

The **Deck** keeps one terminal per tile. `WorkspaceLease` is its lock protocol between several
instances with skewed clocks; `SessionCore`, `SessionGuard` and `SessionRuns` are its tiles, processes
and session ids under late callbacks and leftover polls; `MarkerFilter` is what a terminal shows.
`WorkspaceService`, `SessionService` and `SocketPool` hold the corresponding programs as classes.

Every object of these four classes carries the run so far as a ghost field. `Valid()` ties its fields to
that run and includes the run's invariant; every public method keeps it, records its own call as one
event and says what the call means.

| file | about |
|---|---|
| `Timestamps.dfy` | the calendar, ISO and SQLite text, how text comparisons relate to time |
| `IsoText.dfy` | both formats read back by position, the calendar in closed form |
| `DefaultId.dfy` | slugs, numerals, the first free name |
| `Ranking.dfy` | query results: enumeration, order, the newest under a limit |
| `BrokerDb.dfy` | tables, statements, constraints, the invariant |
| `BrokerHandlers.dfy` | handlers as plans, events, runs |
| `BrokerIntegrity.dfy`, `BrokerLedger.dfy`, `BrokerIsolation.dfy`, `BrokerIdentity.dfy`, `BrokerClock.dfy` | the theorems about runs |
| `BrokerEffects.dfy` | what each request does to the tables, column by column, without the plans |
| `BrokerWitness.dfy` | runs from a fresh database that reach the exceptional outcomes |
| `BrokerService.dfy` | the broker as a class |
| `SocketPool.dfy` | the map from tokens to sockets: histories, and the pool as a class |
| `WorkspaceFiles.dfy`, `WorkspaceLease.dfy`, `WorkspaceService.dfy` | workspace locks: the files, runs of several instances, classes |
| `SessionCore.dfy`, `SessionGuard.dfy` | tiles, processes and session ids: transitions, the invariant over every run |
| `SessionRuns.dfy` | what follows from that invariant for runs and for single calls |
| `SessionRegistry.dfy` | exactly when the registry of open ids keeps an id no live tile has |
| `SessionService.dfy` | the session service and its parts as classes |
| `MarkerFilter.dfy` | stripping the start marker over any chunking |
| `Reorder.dfy` | drag and drop |
| `RemoteUrl.dfy` | one key for a git remote |
| `SessionMap.dfy` | saving and rebuilding tiles |
| `JsText.dfy`, `Options.dfy` | JavaScript text operations, optional values |

Time is counted in milliseconds since the year 0 in UTC. What the outside world decides is a
parameter: the clock, `randomUUID`, live pids, the hash of a session key (taken as injective, so the
key itself), secret hashes, `toLowerCase`, the row order of a query without ORDER BY.

## Results that qualify what the code promises

- The documented TTLs (README.md:198-200, broker.ts:78-81) are compared as text in two formats, so the
  message purge, the dormant purge and the flush window act on dates: up to a day late, never early.
  `Timestamps.CutoffSlack` has the exact condition and `Timestamps.CutoffSlackIsSharp` instances one
  millisecond off either bound.
- A handler can still fail on a constraint, in exactly two cases: all 1000 suffixes and the time-based
  name are taken, or the deck row has been unregistered and an announcement has targets
  (`BrokerIntegrity.ServerErrorIff`). Both happen: whoever unregisters the deck's reserved token makes
  the next announcement fail (`BrokerWitness.AnnounceWithoutDeckFails`), and a crowd registering from one
  directory, at any times, fails at its 1001st member or, once that one has renamed itself to the
  time-stamped name of the next (which must fit the name pattern), at its 1002nd
  (`BrokerWitness.CrowdExhaustsNames`).
- A disconnected peer gets its token back exactly if it holds the session of its host, directory and
  group; one minted in a collision does not (`BrokerIdentity.ReconnectReturnsSameToken`, and
  `BrokerWitness.SecondComerLosesToken` is a run in which it happens).
- The socket pool holds the last authenticated socket of a token for every history in which each socket
  uses one token. A socket that authenticates under two leaves an entry behind when it closes
  (`SocketPool.SecondTokenLeavesStaleEntry`; `SocketPool.PoolHoldsLatest` says what the pool holds for
  every history).
- Workspace exclusion can be lost through two calls. Of everything that can happen in a reachable world,
  only quitting and deleting a workspace can lead to two holders, and they do exactly if another instance
  holds that workspace (`WorkspaceLease.ExclusionSurvivesIff`, `WorkspaceLease.QuitIsSafeIff`,
  `WorkspaceLease.DeleteIsSafeIff`). Both happen in runs from any directory, for any id new to it
  (`WorkspaceLease.SecondQuitRun`, `WorkspaceLease.DeletionRun`); outside macOS the quit handler does run
  twice. Before either call the Deck could look at the lock file: the liveness test the code already has
  would do, taking its own lock for none (`WorkspaceLease.LiveTestSuffices`), and
  `WorkspaceLease.CheckIsExact` has the exact condition on files, clock and process table under which
  another instance may hold the workspace.
- Exclusion also rests on clocks less than 90 seconds apart (`WorkspaceLease.SkewBoundIsSharp`) and on host
  names that tell machines apart (`WorkspaceLease.SharedHostNameBreaksExclusion`).
- A crashed owner's workspace can be restored from another host once LOCK_STALE_MS plus the skew have
  passed, whatever else happens meanwhile, unless somebody has taken it over by then; on its own host as
  soon as its pid is free, and not before
  (`WorkspaceLease.CrashedOwnerIsReplaced`, `WorkspaceLease.ReusedPidBlocksReclaim`).
- The registry can keep an id that no live tile has, in exactly one way: a poll left over from an earlier
  spawn wakes, finds an id, and releases its own placeholder where the tile has another id by now; that
  other id is left over (`SessionRegistry.BecomesLeftoverIff`). Over every run the registry holds live
  tiles' ids and no other exactly if no poll wakes that way (`SessionRegistry.RegistryIsTightIff`);
  `SessionRegistry.LeftoverPollLeaks` is a run in which one does. Restoring a left-over id does not come up
  (`SessionRuns.RestoreRevives`).
- A restored workspace runs in its own scope exactly if no terminal was alive when the restore was called,
  or the scope was that one already (`SessionRuns.RestoredScope`).
- Marker stripping depends on the chunking in exactly two ways (`MarkerFilter.ChunkingMatters`).
- The unsuffixed forms of a remote URL agree with `lower(host)/path` exactly when the path ends neither
  in `.git` (any case) nor in white space (`RemoteUrl.BareFormsAgree`).

## Model

| member | source | states |
|---|---|---|
| Timestamps.IsoOrder | broker.ts:278-285 | ISO texts compare as the instants do, for every year up to 9999 |
| Timestamps.MixedOrder | broker.ts:337-365 | ISO text against SQLite's datetime text compares dates only, in either direction |
| Timestamps.CutoffSlack | broker.ts:258-263 | an age cutoff compared as text never acts early, always acts a day late, and in between goes by the date |
| Timestamps.CutoffSlackIsSharp | broker.ts:362-366 | both bounds of the slack are reached to the millisecond |
| IsoText.CivilDateIs | broker.ts:278-285 | the date of the n-th day is the one whose Gregorian day number is n |
| IsoText.IsoReadsBack | broker.ts:278-285 | an ISO text read by position gives back its instant to the millisecond, for every year up to 9999 |
| IsoText.SqlReadsBack | broker.ts:362-366 | SQLite's text gives it back to the second |
| DefaultId.SanitizeYieldsSlug | broker.ts:211-212 | the sanitiser yields only lower-case letters, digits and single inner dashes, and keeps the letters and digits in order |
| DefaultId.SanitizeIdempotent | broker.ts:211-212 | sanitising twice is sanitising once |
| DefaultId.SanitizeIs | broker.ts:211-212 | the slug is the text's words of letters and digits, lowered, in order, with one dash between neighbours and at most none at either end |
| DefaultId.BaseIs | broker.ts:213-215 | the base is 20 characters of the host's slug, or "peer" without any, then a dash and 12 characters of the slug of the directory's last segment, if that has any |
| DefaultId.NamesAre | broker.ts:217-228 | the candidates carry the decimal numbers from 2 on, the last resort the clock in base 36 |
| DefaultId.CandidatesDiffer | broker.ts:218-228 | the candidates base, base-2, base-3 and so on are pairwise distinct |
| DefaultId.FirstFreeIs | broker.ts:221-229 | the derived id is the first candidate that is free, whenever one of the 1000 is |
| DefaultId.DerivedIdTakenIff | broker.ts:220-229 | the derived id is taken exactly if all 1000 candidates and the time-stamped name are |
| DefaultId.FewNamesLeaveOneFree | broker.ts:218-229 | fewer than 1000 taken names leave a candidate free |
| BrokerDb.AcceptsIsTheSchemaCheck | broker.ts:95-197 | a statement is accepted exactly if it repeats no key and leaves every reference resolving and every name unique in its group |
| BrokerDb.PurgeByDate | broker.ts:362-366 | the purge removes the undelivered messages of an earlier date and no other |
| BrokerDb.InitEstablishesInv | broker.ts:175-181 | the tables as first created satisfy the invariant |
| BrokerDb.SafeKeepsInv | broker.ts:289-374 | a statement issued under its guard is accepted and keeps references, groups, unique names and the dormant deck row |
| BrokerDb.GuardedKeepsInv | broker.ts:289-374 | so the invariant holds between any two statements of a guarded list |
| BrokerHandlers.EventGuarded | broker.ts:392-604 | every handler issues each statement under its guard, and is refused exactly in the two known cases |
| BrokerHandlers.RegisterGuarded | broker.ts:392-544 | a registration is refused exactly when it inserts a row and every derived name is taken |
| BrokerHandlers.SendRuns | broker.ts:684-700 | a send runs its four statements in order: insert, two activity stamps, ack |
| BrokerHandlers.AnnounceGuarded | broker.ts:784-793 | an announcement's statements are accepted exactly if there are no targets or the deck row is there |
| BrokerHandlers.EraseGuarded | broker.ts:561-565 | unregistering clears both message directions and the sessions before the row, so the delete is never refused |
| BrokerEffects.RegistrationIs | broker.ts:392-544 | every registration: 401 and nothing changed exactly on a hash mismatch; a resumable session's token under its old name; otherwise the minted token under the derived name, with the session unless an active peer has it, or 500 if that name is taken; the row has each column from the request, every other row, message and session is as it was |
| BrokerEffects.SendIs | broker.ts:662-700 | every send: Ok exactly if the sender has a row and an active row of its group has that name; then one new undelivered message with sender, addressee, group, text and time, two activity stamps, and the sender's older backlog delivered; otherwise nothing changes |
| BrokerEffects.AnnouncementIs | broker.ts:760-794 | every announcement: nothing for a blank text, 401 on a hash mismatch, otherwise each active member but the deck and the excluded gets exactly one new message from the deck, nobody else any, and the reply counts them; 500 without a deck row |
| BrokerEffects.RenameIs | broker.ts:567-604 | every rename: 400 for a malformed or reserved name, else 404 for an unknown token, else 409 for another's name, else that one column changes and the old name is reported |
| BrokerEffects.RowCallIs | broker.ts:546-559 | heartbeat, summary and disconnect each change their columns of that one row |
| BrokerEffects.PollIs | broker.ts:831-839 | a poll delivers exactly the caller's undelivered messages and changes nothing else |
| BrokerIntegrity.EveryStatementKeepsIntegrity | broker.ts:392-565 | the invariant and the schema's constraints hold after every single statement of every run from boot |
| BrokerIntegrity.ServerErrorIff | broker.ts:392-544 | a request fails on a constraint exactly if all names are exhausted or an announcement finds no deck row |
| BrokerIntegrity.SmallGroupsAlwaysRegister | broker.ts:210-230 | with fewer than 1000 rows in the group an authorised registration never fails |
| BrokerWitness.AnnounceWithoutDeckFails | broker.ts:784-793 | from a fresh database: unregistering the deck's token makes an announcement to a registered peer fail with 500 |
| BrokerWitness.CrowdExhaustsNames | broker.ts:218-229 | from a fresh database, at any clock readings: a crowd on one host and directory meets a 500 at its 1001st registration, or at its 1002nd after one rename to the name the clock gives there |
| BrokerWitness.SecondComerLosesToken | broker.ts:472-497 | from a fresh database: the second of two peers on one directory disconnects and is answered with another token |
| BrokerIntegrity.NoDanglingReference | broker.ts:499-519 | in every reachable state a session's row and a message's sender exist: the reinsert branch and the skip in the flush are dead |
| BrokerLedger.LedgerOnlyMovesForward | broker.ts:325-366 | over every run, between any statements: delivered never reverts, ids are not reused, contents never change |
| BrokerLedger.DepartsIffCaused | broker.ts:662-700 | a pending message leaves pending in an event exactly if it is polled by its addressee, acked by the addressee's own later send, expired, or an endpoint is deleted |
| BrokerLedger.LeavesPendingOnce | broker.ts:325-366 | over every run an id leaves pending at most once |
| BrokerLedger.ReturnedByOnePoll | broker.ts:831-839 | no id is returned by two polls of a run |
| BrokerLedger.SendLeavesOwnMessagePending | broker.ts:685-700 | a send never acks the message it has just inserted, even to itself |
| BrokerIsolation.GroupsAndHashesNeverChange | broker.ts:308-323 | over every run a row's group and a group's planted hash never change |
| BrokerIsolation.RegistrationPresentedTheHash | broker.ts:398-414 | every successful registration in a group other than the default presented the group's hash |
| BrokerIsolation.OneSecretPerGroup | broker.ts:398-414 | two successful registrations in such a group, however far apart, presented the same hash |
| BrokerIsolation.BacklogStaysInGroup | broker.ts:330-345 | what poll, peek and flush select is of the caller's own group and, but for the deck, from a sender of it |
| BrokerIsolation.AckGroupFilterIsRedundant | broker.ts:353-360 | the ack's group condition filters nothing out |
| BrokerIsolation.ListedIff | broker.ts:606-660 | exactly who is listed in each scope: machine all active colleagues of the group, directory those with an equal cwd, repo those with an equal project key, else git root, else cwd, whichever is given first; an unknown scope or caller gets nobody |
| BrokerIsolation.ListingStaysInGroup | broker.ts:606-660 | over every run, whoever is listed to a caller in whatever scope is active, neither the caller nor the deck, and was in the caller's group at every earlier point |
| BrokerIdentity.RegistrationActivates | broker.ts:422-544 | after a success the returned token is a row with the returned name, group, pid, cwd, git root, project key, summary and host of the request, seen and active at that time |
| BrokerIdentity.ResumeEffect | broker.ts:435-468 | a resume rewrites that one row and keeps its name, its group and the session |
| BrokerIdentity.ReissuedTokenIsDormant | broker.ts:435-468 | a token handed out again was dormant at that point |
| BrokerIdentity.ReissueNeedsDormancy | broker.ts:435-497 | between two registrations that return one token some step made its row dormant |
| BrokerIdentity.ReconnectReturnsSameToken | broker.ts:554-559 | after a disconnect and any run that leaves token and key alone, registering on the key returns token and current name exactly if the row held the session |
| BrokerIdentity.RenameSucceedsIff | broker.ts:567-604 | a rename succeeds exactly for a well-formed, unreserved name no other row of the group has, changes that column, and otherwise changes nothing |
| BrokerClock.PurgeBounds | broker.ts:378-388 | the TTL purge in time: keeps all of age at most the TTL and all delivered, removes the rest a day later |
| BrokerClock.CleanBounds | broker.ts:239-271 | the stale clean in time: whom it removes, whom it demotes, never the deck |
| BrokerClock.SweepEffect | broker.ts:278-285 | the sweep demotes exactly the active rows silent for longer than the limit |
| BrokerClock.BeatingPeerIsNeverSwept | broker.ts:546-548 | a peer whose heartbeats come at gaps of at most the limit is never demoted by the sweep |
| BrokerClock.SilentPeerGoesDown | broker.ts:58-65 | a silent peer is down once the limit and one sweep interval have passed, 180 seconds by default |
| BrokerService.Broker.DeriveDefaultId | broker.ts:210-230 | the loop returns the specified name |
| BrokerService.Broker.Register | broker.ts:392-544 | what `BrokerEffects.RegistrationIs` says, of the tables the method leaves and its reply; after a success the group's hash is the presented one |
| BrokerService.Broker.SendMessage | broker.ts:662-726 | what `BrokerEffects.SendIs` says; no send ends in an error once the addressee is found |
| BrokerService.Broker.Announce | broker.ts:760-794 | what `BrokerEffects.AnnouncementIs` says, one message at a time |
| BrokerService.Broker.PollMessages | broker.ts:831-839 | returns the caller's undelivered messages oldest first, all of its own group and none ever returned by an earlier poll, and delivers exactly those |
| BrokerService.Broker.PeekMessages | broker.ts:844-848 | returns the same and changes nothing |
| BrokerService.Broker.SelectUndeliveredCapped | broker.ts:337-345 | newest first, limit, reversed: the newest in the window, ascending |
| BrokerService.Broker.FlushPending | broker.ts:796-829 | one frame per selected row until the socket fails, none skipped for want of its sender, each with the text and time of its message and the sender's own name, summary, host and cwd; nothing marked |
| BrokerService.Broker.ListPeers | broker.ts:606-660 | the query and the filter list, each once, whom `BrokerIsolation.ListedIff` says |
| BrokerService.CappedRefinesBacklog | broker.ts:337-345 | the replay is part of the peek, in time order, within the cap and the window plus a day |
| BrokerService.ShortReplayIsComplete | broker.ts:337-345 | below the cap nothing in the window is missing |
| BrokerService.ReplayKeepsTheNewest | broker.ts:337-345 | nothing left out of the window is newer than anything included |
| BrokerService.Broker.CleanStalePeers | broker.ts:239-271 | demotes the dead, then erases the expired, as the plan does |
| BrokerService.Broker.PurgeOldMessages | broker.ts:378-386 | one purge statement with the TTL's cutoff |
| BrokerService.Broker.SweepInactivePeers | broker.ts:278-284 | one sweep statement with the staleness cutoff |
| BrokerService.Broker.Unregister | broker.ts:561-565 | nothing of the peer is left, nothing else is touched |
| BrokerService.Broker.SetId | broker.ts:567-604 | what `BrokerEffects.RenameIs` says; the invariant is kept |
| BrokerService.Broker.Disconnect | broker.ts:554-559 | that row's status and last_seen, and nothing else; nothing for an unknown token |
| BrokerService.Broker.Heartbeat | broker.ts:546-548 | that row's last_seen, and nothing else; nothing for an unknown token |
| BrokerService.BrokerKeepsItsWord | broker.ts:325-366 | of any valid broker object, after all its calls so far: references resolve, and each id has left pending at most once and been returned by at most one poll |
| SocketPool.WsPool.Message | broker.ts:882-900 | which frame is answered with 1003, which with 1008 and which with the replay; an accepted auth puts the socket under its token; afterwards the pool holds for every token what the whole history says |
| SocketPool.WsPool.Closed | broker.ts:901-904 | no other socket loses or gains an entry, a socket that kept to one token has none left, and the pool holds what the history says |
| SocketPool.PoolHoldsLatest | broker.ts:882-904 | for any history, the exact socket the pool holds for a token |
| SocketPool.PoolHoldsLatestOpen | broker.ts:882-904 | with one token per socket: the last authenticated one if still open, else none |
| SocketPool.SecondTokenLeavesStaleEntry | broker.ts:897-904 | a socket under two tokens leaves a closed socket in the pool |
| SocketPool.StaleEntryNeedsSecondToken | broker.ts:897-904 | and only such a socket can |
| WorkspaceService.WorkspaceService.PersistCurrent | desktop/src/main/workspace-service.ts:264-285 | mints and owns an id if there is none; afterwards the instance alone holds the workspace it saved, the pin is kept and no other file or lock is touched |
| WorkspaceService.WorkspaceService.RestoreWs | desktop/src/main/workspace-service.ts:191-209 | succeeds exactly for a saved workspace without a live lock, which then nobody held; then that file has a new time and its old pin, its lock is the caller's, and only the caller's former lock is gone; otherwise changes nothing |
| WorkspaceService.WorkspaceService.NewClear | desktop/src/main/workspace-service.ts:222-227 | detached, and the workspace it had is saved with its pin and unlocked; no other file or lock is touched |
| WorkspaceService.WorkspaceService.PruneStale | desktop/src/main/workspace-service.ts:114-132 | prunes only old unpinned workspaces that no live instance holds, and all of those without a live lock but the current one |
| WorkspaceService.WorkspaceService.QuitRelease | desktop/src/main/workspace-service.ts:252-260 | holds nothing any more, what was current is saved with its pin and unlocked, no other file or lock is touched, the heartbeat is off, and the id stays current |
| WorkspaceService.WorkspaceService.HeartbeatTick | desktop/src/main/workspace-service.ts:151-155 | keeps the lease: the instance is still the only holder and its lock is as fresh as its clock; no other lock and no file changes |
| WorkspaceService.WorkspaceService.DeleteOne | desktop/src/main/workspace-service.ts:211-214 | file and lock are gone, the others untouched, and nobody holds the id |
| WorkspaceService.InstancesAreApart | desktop/src/main/workspace-service.ts:135-156 | two running instances on one directory never have the same workspace current |
| WorkspaceLease.MutualExclusion | desktop/src/main/workspace-lock.ts:63-93 | over every run of considerate calls at most one live instance holds a workspace id |
| WorkspaceLease.ExclusionSurvivesIff | desktop/src/main/workspace-service.ts:191-260 | in every reachable world a possible step leaves exclusion assured for good exactly if it is no quit and no deletion of a workspace another live instance holds |
| WorkspaceLease.QuitIsSafeIff | desktop/src/main/workspace-service.ts:252-260 | quitting, once or again, keeps exclusion assured exactly if nobody else holds the quitter's current id |
| WorkspaceLease.DeleteIsSafeIff | desktop/src/main/workspace-service.ts:211-214 | deleting does exactly if nobody else holds the workspace |
| WorkspaceLease.LiveTestSuffices | desktop/src/main/workspace-lock.ts:63-68 | if the lock does not test live, or is the caller's own, nobody else holds the workspace |
| WorkspaceLease.CheckIsExact | desktop/src/main/workspace-lock.ts:63-68 | in some situation that looks the same to the caller in files, clock and process table another instance holds the workspace, exactly if its lock is foreign, recent, has a live process on the caller's own host, and fits the caller's own lease |
| WorkspaceLease.BeatKeepsInv | desktop/src/main/workspace-lock.ts:96-100 | a heartbeat keeps every lease and exclusion |
| WorkspaceLease.PruneIsSafe | desktop/src/main/workspace-service.ts:114-132 | over every run what a prune removes is unpinned, 30 days old and held by no live instance, and it removes all such without a lock but the current one |
| WorkspaceLease.CrashedOwnerIsReplaced | desktop/src/main/workspace-lock.ts:63-68 | along every run after the owner's end in which nobody takes the workspace over: another host can restore it from the staleness bound plus the skew on, its own host as soon as the pid is free |
| WorkspaceLease.DeletingAnothersWorkspaceBreaksExclusion | desktop/src/main/workspace-service.ts:211-214 | deleting a held workspace, its holder's next save and a restore are possible one after the other and leave two holders |
| WorkspaceLease.SecondQuitReleaseBreaksExclusion | desktop/src/main/workspace-service.ts:252-260 | quit, takeover, second quit release, restore by a third are possible one after the other, whatever the takers had before, and leave two holders |
| WorkspaceLease.DeletionRun | desktop/src/main/workspace-service.ts:211-214 | from any directory: launch, launch, save, and a deletion is possible that loses exclusion |
| WorkspaceLease.SecondQuitRun | desktop/src/main/workspace-service.ts:252-260 | from any directory: launch, launch, save, quit, takeover, and the quit handler's second call is possible and loses exclusion |
| WorkspaceLease.SkewBoundIsSharp | desktop/src/main/workspace-lock.ts:63-68 | at 90 seconds of skew a lock refreshed in time already reads stale, one millisecond below it does not |
| WorkspaceLease.SharedHostNameBreaksExclusion | desktop/src/main/workspace-lock.ts:63-68 | of two machines with one host name the second takes a held workspace exactly if it has no process with the holder's pid |
| SessionCore.NewestIs | desktop/src/main/session-transcript.ts:66-75 | the pick is the first listed of the newest entries neither there before nor claimed, and there is one whenever any qualifies |
| SessionRuns.FoundIff | desktop/src/main/session-service.ts:402-419 | what a waking poll finds: the back-channel id if it is non-empty and not the tile's own; else the first listed of the newest transcripts neither there before the spawn nor open other than as its placeholder, if that is not the tile's own; else nothing |
| SessionRuns.WakeIs | desktop/src/main/session-service.ts:393-428 | every wake: a poll of a tile without process ends; one that finds an id gives it to the tile, opens it and closes its placeholder; one that finds none sleeps on; nothing else changes |
| SessionRuns.RefreshAllIs | desktop/src/main/session-service.ts:247-255 | of every tile: it takes its back-channel id exactly if it is alive and that id is non-empty, new to it and has a transcript, and keeps everything else |
| SessionGuard.EveryInterleavingIsSafe | desktop/src/main/session-service.ts:90-296 | over every interleaving: runtime keys are tile ids, every process is a tile's and runs in the active scope, each live tile's session id is registered and no other tile's |
| SessionGuard.StepKeepsInv | desktop/src/main/session-service.ts:153-481 | each action or callback keeps that, and who owns which id |
| SessionGuard.DoubleResumeGuard | desktop/src/main/session-service.ts:359-369 | a live tile's session id is registered and shared with no tile, live or dead |
| SessionGuard.RestartSparesLive | desktop/src/main/session-service.ts:331-339 | restarting a live tile changes nothing |
| SessionGuard.SpawnOutcome | desktop/src/main/session-service.ts:359-481 | a spawn is held back, or starts one process for a tile that had none, under the minted id |
| SessionGuard.AdoptKeepsInv | desktop/src/main/session-service.ts:422-428 | adopting a discovered id, even by a poll left over from an earlier spawn, keeps all ids apart |
| SessionRegistry.BecomesLeftoverIff | desktop/src/main/session-service.ts:153-481 | in any event an id comes to be registered without a live tile exactly if a poll wakes, finds an id, and its placeholder is not the tile's current id, which is then that id |
| SessionRegistry.StaysTightIff | desktop/src/main/session-service.ts:153-481 | a registry of live ids only stays one exactly if the event is no such wake |
| SessionRegistry.RegistryIsTightIff | desktop/src/main/session-service.ts:90-481 | over every run from an empty Deck the registry holds live tiles' ids only at every point exactly if no poll of the run wakes so |
| SessionRegistry.WakeLeaksIff | desktop/src/main/session-service.ts:393-428 | a sleeping poll that wakes and finds an id leaves the tile's old id registered, with no tile having it, exactly if that id is not its own placeholder |
| SessionRegistry.LeftoverPollLeaks | desktop/src/main/session-service.ts:393-428 | from an empty Deck: create, crash, restart and the first spawn's poll leave the second id registered with no tile |
| SessionRuns.RestoredScope | desktop/src/main/workspace-service.ts:191-209 | adopting the workspace's scope and then restoring: every tile runs in the active scope, which is the workspace's exactly if no terminal was alive or it was already |
| SessionRuns.RestoreRevives | desktop/src/main/session-service.ts:268-296 | a restore brings up exactly the tiles whose id nothing holds after the teardown, even two with one id |
| SessionRuns.RestoredIs | desktop/src/main/session-service.ts:268-296 | every restored tile as saved, and, if nothing holds its id after the teardown, running under the minted one; exactly what the old tiles did not have and those minted ids are open; the scope stays |
| SessionRuns.ReleasedIds | desktop/src/main/session-service.ts:221-276 | a teardown frees exactly the old tiles' ids |
| SessionGuard.ScopeChangesOnlyWhenIdle | desktop/src/main/index.ts:126-140 | the scope changes only when no terminal is alive, and all that are share it |
| SessionRuns.DeadProcessStaysSilent | desktop/src/main/pty-manager.ts:59-71 | a killed or replaced process's exit changes nothing, however late |
| SessionRuns.OneExitPerProcess | desktop/src/main/pty-manager.ts:59-71 | each process yields at most one exit event over a run |
| SessionGuard.ObserverIsPassive | desktop/src/main/session-service.ts:153-481 | the observed run is the run of the service's own fields |
| SessionService.OpenIdRegistry.Add | desktop/src/main/open-id-registry.ts:10-14 | claims the id and says whether it was free |
| SessionService.PtyManager.Spawn | desktop/src/main/pty-manager.ts:37-72 | replaces the tile's process by a new one in the given scope |
| SessionService.PtyManager.Kill | desktop/src/main/pty-manager.ts:126-135 | the tile has no process, the others keep theirs |
| SessionService.PtyManager.KillAll | desktop/src/main/pty-manager.ts:137-139 | no process is left |
| SessionService.PtyManager.OnExit | desktop/src/main/pty-manager.ts:59-71 | an exit is reported exactly if its process is still the tile's |
| SessionService.SessionService.Create | desktop/src/main/session-service.ts:153-201 | exactly one tile more, last, under the minted id with one new process in the active scope; the call is one step of the run and the invariant holds |
| SessionService.SessionService.Remove | desktop/src/main/session-service.ts:203-212 | that tile, its process and its session id are gone, every other tile, process, poll and id is as it was |
| SessionService.SessionService.CloseAll | desktop/src/main/session-service.ts:221-232 | no tile and no process is left, exactly the old tiles' session ids are closed, and the scope stays |
| SessionService.SessionService.RestoreFrom | desktop/src/main/session-service.ts:268-296 | what `SessionRuns.RestoredIs` says: each tile at its place, up exactly if nothing holds its id after the teardown, the others down as saved |
| SessionService.SessionService.Restart | desktop/src/main/session-service.ts:331-339 | reports an unknown id; leaves a live tile alone; a dead one runs again, under the minted id, exactly if it had no id or nothing holds the one it had; nothing else changes |
| SessionService.SessionService.ReorderTiles | desktop/src/main/session-service.ts:320-324 | the same tiles in reconciled order, nothing else changed |
| SessionService.SessionService.OnExit | desktop/src/main/session-service.ts:90-121 | an exit of any but the tile's own process changes nothing; otherwise the tile has no process and its id is free, the tile stays exactly on a crash, and everything else is as it was |
| SessionService.SessionService.Wake | desktop/src/main/session-service.ts:393-420 | what `SessionRuns.WakeIs` says: which id the tile adopts, when the poll ends and when it sleeps on unchanged; every turn is one step of the run |
| SessionService.SessionService.GiveUp | desktop/src/main/session-service.ts:393-420 | the poll is gone and nothing else changed |
| SessionService.SessionService.RefreshLiveSessionIds | desktop/src/main/session-service.ts:247-255 | each live tile takes its rotated, resumable id, every other keeps its own; tiles and runtime stay |
| SessionService.SessionService.HasLiveSessions | desktop/src/main/session-service.ts:149-151 | whether any tile has a process |
| SessionService.SessionService.AdoptScope | desktop/src/main/index.ts:126-140 | the scope changes exactly if no terminal at all is alive |
| SessionService.LiveTilesAreApart | desktop/src/main/session-service.ts:359-369 | of any valid service object: a live tile's session id is registered and no other tile has it |
| MarkerFilter.Spawned.HandleData | desktop/src/main/pty-manager.ts:75-100 | state and output are the specified ones; swallowed output raises no empty event |
| MarkerFilter.ShownIsSuffix | desktop/src/main/pty-manager.ts:75-100 | for every chunking the output is a suffix of the input and at most 65536 characters are held back |
| MarkerFilter.PassesVerbatim | desktop/src/main/pty-manager.ts:79-82 | after the marker or the cap everything passes verbatim |
| MarkerFilter.HoldsBack | desktop/src/main/pty-manager.ts:83-99 | until then nothing is shown and everything is held |
| MarkerFilter.ReleasesAt | desktop/src/main/pty-manager.ts:83-99 | the exact output of any chunking in terms of the first prefix that has the marker or passes the cap |
| MarkerFilter.DropsTheLine | desktop/src/main/pty-manager.ts:84-92 | what a piece with the marker shows is what follows the first line break after the first marker, and nothing when there is none |
| MarkerFilter.ChunkingMatters | desktop/src/main/pty-manager.ts:84-92 | a chunking shows the same as one piece exactly if the marker's line had ended when the marker came in, or nothing followed, and the cap gave up on no later marker |
| MarkerFilter.SilentEitherWay | desktop/src/main/pty-manager.ts:83-99 | output that has neither shows nothing, however it is cut |
| MarkerFilter.LateNewlineIsShown | desktop/src/main/pty-manager.ts:87-92 | the same text cut after the marker shows the rest of the line |
| Reorder.MoveBeside | desktop/src/shared/reorder.ts:10-23 | the loop computes the specified list |
| Reorder.MovedIsDragged | desktop/src/shared/reorder.ts:10-23 | on distinct ids the move is a permutation that puts the source right beside the target and keeps the others' order |
| Reorder.DragIsUnique | desktop/src/shared/reorder.ts:10-23 | no other list does |
| Reorder.ReconcileOrder | desktop/src/shared/reorder.ts:31-43 | the loops compute the specified list |
| Reorder.ReconciledIs | desktop/src/shared/reorder.ts:31-43 | for any id list: the known ids asked for, once each, in that order, then the others in theirs |
| Reorder.ReconciledPermutes | desktop/src/shared/reorder.ts:31-43 | it is a permutation, with unknown, missing and repeated ids |
| Reorder.ReconciledIdempotent | desktop/src/shared/reorder.ts:31-43 | applying the same list again changes nothing |
| Reorder.FullListIsFollowed | desktop/src/shared/reorder.ts:31-43 | a list of all the ids is followed exactly |
| Reorder.DragEndToEnd | desktop/src/shared/reorder.ts:10-43 | moving in the renderer and reconciling in the main process yields exactly the dragged order |
| RemoteUrl.FormsAgree | shared/summarize.ts:254-290 | scp, https and ssh with user and port give one key for any repository text of which a path is kept |
| RemoteUrl.SuffixedFormsAgree | shared/summarize.ts:254-290 | with .git in any case that key is lower(host)/path |
| RemoteUrl.BareFormsAgree | shared/summarize.ts:254-290 | without it, exactly if the path ends neither in .git nor in white space |
| RemoteUrl.EmptyPathsDisagree | shared/summarize.ts:254-290 | the forms part ways when nothing of the path is kept |
| RemoteUrl.ScpKey | shared/summarize.ts:261-267 | the scp branch gives lower(host)/path |
| RemoteUrl.ProtoKey | shared/summarize.ts:269-287 | the scheme branch drops user and port and keeps the path |
| RemoteUrl.NoPathIsLowered | shared/summarize.ts:269-287 | a scheme without a path keeps the port and is lowered as a whole |
| RemoteUrl.OtherTextIsLowered | shared/summarize.ts:256-289 | a text of neither form is lowered without its .git |
| RemoteUrl.SpaceAroundIsIgnored | shared/summarize.ts:255-256 | white space around a URL changes nothing, and nothing else has no key |
| SessionMap.SplitUndoesJoin | desktop/src/main/workspace-session-map.ts:13-20 | splitting joined non-empty tokens without white space gives them back |
| SessionMap.ArgsTrip | desktop/src/main/workspace-session-map.ts:13-20 | a trip keeps tokens and visible characters, and a second trip changes nothing |
| SessionMap.SortIsStable | desktop/src/main/workspace-session-map.ts:35-37 | for arbitrary positions the rebuild order is a sorted, stable permutation |
| SessionMap.StableOrderIsUnique | desktop/src/main/workspace-session-map.ts:35-37 | and the only one |
| SessionMap.RoundTrip | desktop/src/main/workspace-session-map.ts:23-48 | the file has each column of each tile in its field, at its index; order, name, cwd, colour and session id survive, args up to white space; ids and creation times are new, command and effort are dropped |
| SessionMap.SecondTripChangesNothing | desktop/src/main/workspace-session-map.ts:23-48 | what is saved again is what was saved |
| SessionMap.ForeignFileTrip | desktop/src/main/workspace-session-map.ts:23-48 | a file with arbitrary positions comes back in its stable order, renumbered |

## Left out

- HTTP and WebSocket transport, JSON, the bearer check, health, group statistics and SQLite's own implementation (broker.ts:850-1003): handlers are methods over typed requests.
- The WebSocket push after a send or an announcement (broker.ts:702-723, broker.ts:730-754): it writes no table.
- The columns tty, client_pid, claude_cli_pid, registered_at, created_at and last_active_at, which the broker only stores, and the activity status a listing derives from the clock.
- A broker restarted on an existing database, and the column migrations: runs start from fresh tables.
- A peer token's `last_seen` in the deck row is written by SQLite in its own text format; the model gives the row an instant, and no statement reads it.
- `server.ts`: its heartbeat is only the assumption of the sweep theorem.
- Derived ids may fail the peer-id pattern and may equal "deck"; nothing is claimed about either.
- Unicode case mapping is the parameter `lower`; characters stand for UTF-16 units in `MarkerFilter`.
- Each call on the lock files is one atomic step; the gap between reading and writing a lock file is not modelled.
- Workspace names and their uniqueness, display modes, scope secrets, and which scope a restore resolves to: the scope is an opaque value.
- Tiles are values found by id, not shared objects; name, colour, command line and thinking state of a tile, persistence and broadcasts are not modelled.
- Output that a replaced process sends late is not filtered by the code (desktop/src/main/pty-manager.ts:58) and not modelled.
- SessionGuard.EveryInterleavingIsSafe: assumes minted ids are new and a discovered id is the adopting tile's own process's or nobody's, since the back-channel and the transcript directory are outside the model.
- WorkspaceLease.MutualExclusion: assumes clocks less than 90 s apart, host names that tell machines apart, a heartbeat at least every 30 s, and that no quit or deletion hits a workspace another live instance holds; `ExclusionSurvivesIff` says that the last is exactly what is needed, the code does not check it.
- Pids are looked up in the table of the caller's own machine: two machines of one host name are outside `Possible`, `SharedHostNameBreaksExclusion` says what happens then.
- SocketPool.PoolHoldsLatestOpen: assumes one token per socket; without it the code leaves stale entries.
- Positions in a workspace file are real numbers; NaN and infinities are not modelled.
- LLM summaries, git and config access, i18n, Electron, menus, React components, shell command lines, the thinking heuristic.
