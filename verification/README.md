# Crowsnest, verified

Crowsnest turns GitLab webhooks into personal messages. This project models the part of it that is a
set of stateful protocols over SQLite tables, and proves what those protocols keep:

- the transactional outbox with its leases, attempts and backoff, and the single delivery worker that
  drives it and may stop anywhere (`Backoff`, `Outbox`, `Protocol`, `Outcomes`, `Worker`);
- the router: candidates gathered from an event, resolved through the identity table, filtered and
  merged into at most one message per address (`Events`, `Routing`, `DeliveryKeys`);
- the memory of failed pipelines over whole histories of webhooks (`History`, `Ingest`);
- the identity table with its two partial unique indexes, and the sync that decides which rows are
  enabled (`Identities`, `Sync`);
- text timestamps: the printer, the order SQL compares texts in, and the migration (`Timestamps`);
- preferences and mutes, and card clicks that are applied at most once (`Preferences`, `Interactions`);
- the access-token cache behind two mutexes under any interleaving (`TokenCache`);
- hook reconciliation against a model of the GitLab server (`Hooks`).

`Base`, `Totals`, `Text` and `Addresses` hold what the others share.

How the pieces are stated. A table is a map in a class; the methods are the statements and loops of the
source, proved against functions and relations over plain rows. What holds over time is proved about
runs. `Protocol` is a step system (enqueue, clock, claim, block, send, mark, stop at any point), and
`Worker.DeliveryWorker.Process` is proved to be a run of it. `TokenCache` and `Interactions` are step
systems over any number of callers and handlers, and the methods of `Client` and `InteractionService`
are proved to be steps and runs of them. `History` is a sequence of turns, and
`Ingest.IngestService.HandleNext` is proved to add the next turn. The handlers of the router are proved
to fill the candidate map with what `Events.Asks` lists, and `Events.AsksExactly` says whom that is.
Maps are walked in an arbitrary order, so what is proved of the router holds for every order.

Times are integers in nanoseconds and a clock reading is a parameter. Stored times are millisecond
stamps; `Timestamps.OrderIsTimeOrder` is what makes comparing stamps the same as comparing the stored
texts. The address syntax is a parameter: a predicate that says which normalised texts the mail parser
accepts unchanged.

Where code and expectations part ways, the code is followed and the difference is a lemma:

- A delivered notification is meant never to be sent again (docs/ARCHITECTURE.md:196). The statements
  that mark a row do not look at its status (`Protocol.MarkIgnoresStatus`), so this rests on the one
  sequential worker (cmd/crowsnest/main.go:74-81). Even then it holds only once the mark is stored. A
  stop between the messenger's acceptance and the mark can lead to another send
  (`Outcomes.ResendHappens`), and so can an acceptance whose answer is lost on the way back, without any
  stop (`Outcomes.RepeatAfterLostAnswer`). A delivered row was accepted exactly once if and only if
  neither happened to it (`Protocol.Safety`).
- A worker that stops during the last attempt, and only that, leaves a row in processing that is never
  claimed again (`Outcomes.StrandedExactly`, `Protocol.StrandedForever`, `Outcomes.StrandingHappens`).
- The cap of one hour is applied inside the doubling loop only (`Backoff.ClosedForm`, `Backoff.Monotone`),
  and a RetryDelay above half the 64-bit range makes waits negative (`Backoff.OverflowGoesNegative`).
- A mention carries no provider, while resolving fills one in. A mention that is not enriched is never
  heard as such, whoever else the event names (`Routing.HeardIsEnriched`, `Routing.BareMentionsUnheard`);
  one that the table knows can even send another person's reasons to the mapped address
  (`Routing.BareMentionMisdirects`).
- An event given to the router directly can name a usable e-mail alone, within the domains, that was not
  trimmed: it disappears, neither handled nor reported (`Routing.CandidatesConserved`). The decoder and
  the enrichment trim the e-mails of the events that webhooks bring.
- An upsert without a provider id blanks the id of the row it matches by username
  (`Identities.OtherIdsUnchangedExactly`).
- A click whose handler stops between recording and applying it is lost
  (`Interactions.InterruptedClickIsLost`, `Interactions.InterruptionsExactly`).
- A forced token refresh fetches again whatever the cache holds (`TokenCache.ForcedFetchesAgain`).
- Hooks are compared without their token, so rotating it alone changes nothing
  (`Hooks.TokenRotationExactly`).
- The migration is idempotent except on texts with a third fraction character `Z`
  (`Timestamps.IdempotentExactly`).

## Model

| member | source | states |
|---|---|---|
| `Backoff.Compute` | internal/adapter/database/sqlite/store.go:497-505 | the doubling loop with its break returns the recursively defined delay, 64-bit wrap-around included |
| `Backoff.DoubledMeaning` | internal/adapter/database/sqlite/store.go:497-505 | for every 64-bit first delay the loop gives the cap once a doubling lands at it or above, and the wrapped power of two otherwise |
| `Backoff.ClosedForm` | internal/adapter/database/sqlite/store.go:497-505 | for every positive 64-bit RetryDelay the delay is min(RetryDelay * 2^(attempts-1), one hour) if and only if RetryDelay is at most one hour or a doubling lands at the cap or above; for a RetryDelay above an hour and below half the range that means attempts of at least 2 |
| `Backoff.Monotone` | internal/adapter/database/sqlite/store.go:497-505 | for every positive 64-bit RetryDelay later attempts never wait less, if and only if RetryDelay is at most one hour |
| `Backoff.NoOverflow` | internal/adapter/database/sqlite/store.go:497-505 | no doubling that is carried out leaves the signed 64-bit range, if and only if none is made or RetryDelay is below half of it |
| `Backoff.FloorExactly` | internal/adapter/database/sqlite/store.go:497-505 | no wait is ever shorter than a floor the RetryDelay meets (up to an hour), if and only if RetryDelay is below half the range |
| `Outbox.InsertAllEffect` | internal/adapter/database/sqlite/store.go:342-364 | enqueuing keeps every stored row as it is, stores every delivery that has a key and a recipient, and adds nothing but fresh rows of such deliveries |
| `Outbox.Store.Enqueue` | internal/adapter/database/sqlite/store.go:306-388 | the loop inserts the deliveries and the pipeline state together, or changes nothing when the event key is empty |
| `Outbox.Store.Claim` | internal/adapter/database/sqlite/store.go:390-463 | claims exactly a first `limit` of the ready rows by (next_attempt_at, created_at), each leased and with one more attempt; no other row changes |
| `Outbox.Store.MarkFailed` | internal/adapter/database/sqlite/store.go:484-517 | reschedules while attempts remain and the failure is retryable, after min(RetryDelay * 2^(attempts-1), one hour) for a RetryDelay within the hour; else fails the row for good; unknown keys change nothing |
| `Outbox.RetryWaits` | internal/adapter/database/sqlite/store.go:494-512 | for every 64-bit RetryDelay, a retryable failure with attempts left puts the next attempt after the doubled delay of exactly the attempts made |
| `Outbox.RetryDue` | internal/adapter/database/sqlite/store.go:494-512 | for a RetryDelay within the hour the row may be claimed again exactly from now + min(RetryDelay * 2^(attempts-1), one hour) on, to the millisecond |
| `Outbox.FailureIsFinal` | internal/adapter/database/sqlite/store.go:492-512 | a failure that is not retryable, or on the last attempt, is never claimed again |
| `Outbox.LeaseHonoured` | internal/adapter/database/sqlite/store.go:402-448 | a claimed row may be claimed again exactly from the end of its lease on, while an attempt is left |
| `Outbox.FreshIsDue` | internal/adapter/database/sqlite/store.go:350-361 | a new row may be claimed from the millisecond it is stored in on, and not before |
| `Outbox.OpenedExactly` | internal/adapter/database/sqlite/store.go:62-80 | a setting that is not positive becomes five minutes of lease, five attempts, one second of delay |
| `Outbox.Store.MarkDelivered` | internal/adapter/database/sqlite/store.go:465-482 | marks one row delivered whatever its status was; unknown keys change nothing |
| `Protocol.RunKeeps` | internal/adapter/database/sqlite/store.go:390-517 | over every run of enqueue, clock, claim, block, send, mark and stop steps the status rules of each row and the account of its claims, sends and acceptances are kept |
| `Protocol.Safety` | internal/application/worker.go:70-103 | in every reachable state sends <= attempts <= MaxAttempts, a failed row is not retryable, acceptances exceed those lost to a stop or not heard by at most one (exactly one when delivered), only allowed addresses were sent to, and a failed row was refused, blocked, accepted unheard or out of attempts |
| `Protocol.SettledForever` | internal/application/worker.go:75-101 | delivered and failed are absorbing: no later step claims, sends or marks the row, through re-enqueues and restarts |
| `Outcomes.ResendHappens` | internal/application/worker.go:84-89 | from any reachable state with an acceptance unmarked and an attempt left, some run through a stop makes the messenger accept the same delivery once more, whatever else is stored |
| `Outcomes.RepeatAfterLostAnswer` | internal/adapter/messenger/feishu/client.go:285-293 | from any reachable idle state, a delivery to an allowed address with two attempts left has a run without a stop in which one lost answer makes it delivered and accepted twice more |
| `Outcomes.RepeatHappens` | internal/application/worker.go:91-98 | for every MaxAttempts of at least two, a fresh store has a run without a stop that ends delivered, accepted twice and with nothing lost to a stop |
| `Protocol.CreditConserved` | internal/adapter/database/sqlite/store.go:438-448 | every claimed row spends exactly one unit of MaxAttempts - attempts and only new rows bring credit, over every run |
| `Protocol.BoundedSends` | internal/adapter/database/sqlite/store.go:402-448 | a run has at most MaxAttempts sends per stored delivery |
| `Protocol.NothingIsLost` | internal/adapter/database/sqlite/store.go:402-412 | a stored delivery stays stored, and is either claimable from exactly its due time on, or settled or exhausted and then, and only then, never claimable |
| `Protocol.StrandedForever` | internal/adapter/database/sqlite/store.go:408 | a row in processing with its last attempt used and no worker holding it never changes again |
| `Outcomes.StrandingHappens` | internal/adapter/database/sqlite/store.go:408 | for every MaxAttempts, any unsettled delivery of any reachable state can be stranded without another send |
| `Outcomes.StrandedUnsent` | internal/adapter/database/sqlite/store.go:408 | for every MaxAttempts, a fresh store has a run that strands a delivery never sent |
| `Outcomes.StrandedExactly` | internal/adapter/database/sqlite/store.go:408 | a delivery ends stranded if and only if somewhere in the run the process stopped while the worker held it on its last attempt |
| `Outcomes.HeldWithoutStop` | internal/application/worker.go:75-103 | without a stop every row in processing is in the batch the worker holds |
| `Protocol.NoStarvation` | internal/adapter/database/sqlite/store.go:402-458 | a ready row that was due, or created, before the present millisecond is claimed before the number of claims times the batch size exceeds the attempts left of the rows already ahead of it; rows enqueued or rescheduled later never get ahead |
| `Outcomes.TiesStarve` | internal/adapter/database/sqlite/store.go:358-360 | that condition is needed: while the clock stands still, a row can be passed over by any number of full claims of arrivals that tie with it |
| `Worker.DeliveryWorker.Process` | internal/application/worker.go:70-103 | every pass is a run of the protocol and ends idle; a finished one claimed the first ready rows and handled each once, in order; it stops early only on a store failure |
| `Worker.DeliveryWorker.Deliver` | internal/application/worker.go:76-101 | one turn blocks, or sends and marks, exactly the row at hand, unless the store fails |
| `Worker.NoneLeft` | internal/application/worker.go:75-103 | after a finished pass no row it claimed is in processing |
| `Worker.HandledNext` | internal/application/worker.go:75-101 | handling the next claimed row extends the record of the pass and touches no other row |
| `Addresses.UsableIsStable` | internal/adapter/database/sqlite/store.go:789-799 | the address the store uses is a fixed point of normalisation and the same one the router and the policy see |
| `Addresses.NewPolicy` | internal/application/recipient_policy.go:15-24 | an empty allowlist allows everyone; otherwise exactly the well-formed entries, normalised, are allowed |
| `Addresses.AllowsExactly` | internal/application/recipient_policy.go:26-41 | with entries, an address passes if and only if it is well-formed once normalised and some entry normalises to the same |
| `Addresses.UsableExactly` | internal/adapter/database/sqlite/store.go:789-799 | an address is usable if and only if its normalised text is well-formed, not "[redacted]", and has "noreply" nowhere in it; it is then that text |
| `Addresses.DomainAllowedExactly` | internal/application/routing.go:348-358 | without a domain list everything passes; with one, what stands after the first "@" decides, in any letter case, and a text without "@" does not pass |
| `Timestamps.OrderIsTimeOrder` | internal/adapter/database/sqlite/timestamps.go:9-13 | comparing two printed texts byte by byte is comparing the two UTC times cut to milliseconds, for years 0000 to 9999 |
| `Timestamps.DueComparison` | internal/adapter/database/sqlite/store.go:402-412 | a text comparison never lets a row through a full millisecond before its time and never holds it back after it |
| `Timestamps.FixedWidth` | internal/adapter/database/sqlite/timestamps.go:9-13 | every printed time has 24 characters |
| `Timestamps.Layout` | internal/adapter/database/sqlite/timestamps.go:9-13 | the text is YYYY-MM-DDTHH:MM:SS.mmmZ |
| `Timestamps.DigitsMeaning` | internal/adapter/database/sqlite/timestamps.go:9-13 | each group of digits, read as a number, is the value it stands for |
| `Timestamps.DaysExactly` | internal/adapter/database/sqlite/timestamps.go:9-13 | the days before a year follow the Gregorian rule; 1970 begins with day 719528 |
| `Timestamps.MonthsExactly` | internal/adapter/database/sqlite/timestamps.go:9-13 | the months have their Gregorian lengths |
| `Timestamps.CivilOf` | internal/adapter/database/sqlite/timestamps.go:9-13 | every instant of those years is a valid calendar time, so the order result covers all of them |
| `Timestamps.MigrationAgrees` | internal/adapter/database/sqlite/timestamps.go:40-57 | rewriting the variable-fraction text of any UTC time gives exactly what the printer prints for it |
| `Timestamps.PrintedIsNormal` | internal/adapter/database/sqlite/timestamps.go:40-57 | the rewrite leaves printed texts alone |
| `Timestamps.IdempotentExactly` | internal/adapter/database/sqlite/timestamps.go:40-57 | rewriting twice is rewriting once, for any text at all, if and only if the third fraction character kept is not a Z |
| `Timestamps.NormalizeColumn` | internal/adapter/database/sqlite/timestamps.go:40-57 | the column is rewritten in place, cell by cell, NULL untouched |
| `Identities.AcceptedKeepsUnique` | internal/adapter/database/sqlite/store.go:566-609 | an accepted upsert, insert or update, never breaks one of the two unique indexes |
| `Identities.AcceptedHasNoConflict` | internal/adapter/database/sqlite/store.go:582-588 | an upsert is never both acceptable and in conflict |
| `Identities.ConflictsExactly` | internal/adapter/database/sqlite/store.go:582-588 | an upsert conflicts if and only if its username stands in a row of another person, or in another row than its provider id |
| `Identities.ResolvesToUpserted` | internal/adapter/database/sqlite/store.go:519-564 | after an accepted enabled upsert with a provider id, resolving that id gives the stored identity |
| `Identities.DisabledUpsertUnresolved` | internal/adapter/database/sqlite/store.go:529-549 | an identity stored disabled is not resolved to |
| `Identities.ResolvesById` | internal/adapter/database/sqlite/store.go:531-562 | an identity without a usable e-mail becomes the enabled row of its provider id, gitlab when it names no provider; a username it did not ask by stays empty |
| `Identities.ResolvesByUsername` | internal/adapter/database/sqlite/store.go:531-562 | without a provider id it becomes the enabled row of its username, in any letter case, and its id stays empty |
| `Identities.DisabledUnresolved` | internal/adapter/database/sqlite/store.go:529-549 | when no enabled row answers, the identity stays as it is |
| `Identities.OwnEmailWins` | internal/adapter/database/sqlite/store.go:522-526 | an identity with a usable e-mail of its own keeps it, normalised, whatever the table says |
| `Identities.OtherIdsUnchangedExactly` | internal/adapter/database/sqlite/store.go:596-603 | any other provider id resolves as before, if and only if it is not the id of a row matched by username by an upsert that has no id |
| `Identities.AcceptedFrame` | internal/adapter/database/sqlite/store.go:566-609 | an upsert with a provider id does not touch rows with other provider ids |
| `Identities.IdentityStore.Upsert` | internal/adapter/database/sqlite/store.go:566-609 | refuses an unusable e-mail or a conflict without any change, else writes exactly one row |
| `Identities.IdentityStore.DisableExcept` | internal/adapter/database/sqlite/store.go:611-632 | disables and counts exactly the rows of the provider whose id is not listed |
| `Identities.IdentityStore.Resolve` | internal/adapter/database/sqlite/store.go:519-564 | resolves each identity on its own: own usable e-mail, else the enabled row of its id, else of its username, else unchanged |
| `Sync.IdentitySync.Sync` | internal/application/identity_sync.go:32-123 | for any users, the ids kept are those accepted enabled, kept GitLab rows stay as written and all others end disabled and counted; with distinct ids that means a GitLab row is enabled if and only if its id belongs to an eligible, active, found user whose upsert was not refused, and enabled + disabled counts all GitLab rows; each listed user is counted once; each refusal has a conflict or unusable e-mail behind it; rows of other providers stay; dry runs and failures change nothing |
| `Sync.EnabledExactly` | internal/adapter/database/sqlite/store.go:611-632 | after the last statement a GitLab row is enabled if and only if its id was kept, and kept plus disabled is the number of GitLab rows |
| `Sync.ChosenAreWanted` | internal/application/identity_sync.go:80-113 | in terms of the listed users, an id is kept if and only if its user is wanted and was not refused |
| `Sync.WantedExactly` | internal/application/identity_sync.go:52-96 | a user is wanted if and only if active, with an address well-formed as given and without "noreply", within the domains, and known to the directory when there is one |
| `Sync.TalliedAddsUp` | internal/application/identity_sync.go:52-76 | users = without e-mail + outside the domains + eligible |
| `Sync.KeepingAccepted` | internal/application/identity_sync.go:92-113 | an accepted upsert keeps every kept id enabled in its own row and keeps its own id exactly when it is enabled |
| `Preferences.ReadersAgree` | internal/adapter/database/sqlite/interactions.go:55-83 | for all eleven reason codes, the sending check is exactly "not muted" together with the check on unmuted preferences |
| `Preferences.DefaultAnswers` | internal/adapter/database/sqlite/store.go:710-727 | an address without a row, or with one that only a mute has written, hears every reason but the update of an issue |
| `Preferences.RowAnswers` | internal/adapter/database/sqlite/store.go:727-740 | the row of an address that is not muted decides by its reason column and its project lists |
| `Preferences.ProjectAllowedExactly` | internal/adapter/database/sqlite/store.go:801-839 | a project passes if and only if it has no path, or is covered by the first list, unless that is empty, and not by the second; a pattern covers its own path and everything below it |
| `Preferences.UnusableHearsNothing` | internal/adapter/database/sqlite/store.go:710-715 | an address that cannot be used hears nothing |
| `Preferences.MuteLasts` | internal/adapter/database/sqlite/store.go:742-751 | a mute blocks every reason before its stored deadline and none from then on |
| `Preferences.MuteUnmuteRestoresExactly` | internal/adapter/database/sqlite/interactions.go:30-53 | muting and unmuting restores every answer, missing rows included, if and only if the address was not muted or had every reason off |
| `Preferences.MuteFrame` | internal/adapter/database/sqlite/interactions.go:30-53 | a mute changes no answer for another address |
| `Preferences.PreferenceStore.SetMute` | internal/adapter/database/sqlite/interactions.go:30-53 | writes the enabled flag and the deadline of one address and nothing else, or refuses an unusable address |
| `Interactions.AtMostOnce` | internal/application/interaction.go:28-52 | over every interleaving of handlers and every stop, no event is applied twice, the preferences are those of the applied clicks in order, and a recorded event is exactly one of waiting, applied and lost |
| `Interactions.InterruptionsExactly` | internal/application/interaction.go:35-52 | a run has the preferences of its mended run all along, if and only if every handler that stopped had applied its click or would have changed nothing |
| `Interactions.MendedRun` | internal/application/interaction.go:35-52 | the run in which every handler carries on is a run without stops and has the intended preferences |
| `Interactions.UninterruptedAgrees` | internal/application/interaction.go:35-52 | when no click is lost, a run ends with the preferences of the uninterrupted one |
| `Interactions.RepeatsChangeNothing` | internal/application/interaction.go:28-52 | clicks handled one after the other leave the same preferences and record as their first occurrences by event id |
| `Interactions.InterruptedClickIsLost` | internal/adapter/database/sqlite/interactions.go:85-103 | a handler that stops before it applies its click loses it: no later steps, repeated callbacks included, ever apply that event |
| `Interactions.ScriptIsStep` | internal/application/interaction.go:28-52 | a handler that runs through records, applies and finishes, which is one step of the sequential run, and leaves the others under way where they are |
| `Interactions.InteractionService.Act` | internal/application/interaction.go:54-113 | the action is the apply step of the protocol, with the status its action and delivery lead to |
| `Interactions.InteractionService.Handle` | internal/application/interaction.go:28-52 | a handler that runs through, whoever else is under way, does its script for the recipient of the newest delivery sent as that message, answers accordingly, and leaves a new mute or unmute in force, or a repeated event without effect |
| `Interactions.EffectObeys` | internal/application/interaction.go:91-113 | a mute silences exactly its recipient for thirty days, to the millisecond, an unmute ends any mute, and every other click changes nothing |
| `Interactions.AnswerExactly` | internal/application/interaction.go:54-125 | a click is applied if and only if its delivery is known and, for a mute or unmute, its recipient usable; an unknown action is ignored; the rest is rejected |
| `Interactions.DeliveredIsFound` | internal/adapter/database/sqlite/interactions.go:117-139 | a delivery just marked with a message id is the one a click on that message finds |
| `Interactions.InteractionService.DeliveryByMessageId` | internal/adapter/database/sqlite/interactions.go:117-139 | finds a most recently updated delivery sent as that message, if any |
| `Events.AddAllGathers` | internal/application/routing.go:382-422 | the candidate map has one entry for each key asked for, with exactly the reasons asked for under it; the actor counts exactly when one of the asks says so |
| `Events.FirstStands` | internal/application/routing.go:386-394 | the first one asked for under a key is the identity that stands for all of them |
| `Events.SameIdentityExactly` | internal/application/routing.go:441-449 | two people with ids of one provider are the same if and only if the ids are; else two e-mails decide, else the usernames of one provider; the comparison is symmetric |
| `Events.CaseNeverMatters` | internal/application/routing.go:414-449 | the letter case of e-mails and usernames never matters, neither for who is whom nor for the key of someone without an id |
| `Events.CandidateKeysExactly` | internal/application/routing.go:414-422 | two people share a candidate if and only if they have the same provider and id, else the same provider and username, else the same e-mail |
| `Events.CountsExactly` | internal/application/routing.go:382-400 | anyone with an id, a username, an e-mail or a name counts, and any address that is not empty; nothing else does |
| `Events.AsksExactly` | internal/application/routing.go:67-86 | whom an event asks for and why, reason by reason, as a condition on the event: the handlers ask for exactly those |
| `Events.AsksCodes` | internal/application/routing.go:142-267 | the router only asks under the eleven reason codes that have a preference |
| `Events.PipelineTold` | internal/application/routing.go:142-169 | someone is asked for if and only if the pipeline failed and it is the commit author, or the actor when the author cannot be resolved, or it succeeded and the address was told of the remembered failure |
| `Events.ActorStandsInExactly` | internal/application/routing.go:146-150 | the actor stands in for the commit author if and only if the author has neither id nor username nor e-mail |
| `Events.CorrelationExactly` | internal/application/routing.go:451-464 | two events have the same correlation key if and only if they are of one project and of the same merge request, or both of none and of the same ref |
| `Events.MergeRequestTold` | internal/application/routing.go:171-218 | someone is asked for under a reason if and only if the action, some change, the reviewers, assignees, author or mentions of the merge request name them for it |
| `Events.NoteTold` | internal/application/routing.go:220-240 | someone is asked for under a reason if and only if the note is no system note and they are the author of its subject and not the actor, or mentioned |
| `Events.CommentTellsAuthorExactly` | internal/application/routing.go:220-240 | the author of a commented merge request or issue is told if and only if someone else commented, ids of one provider deciding |
| `Events.IssueTold` | internal/application/routing.go:242-267 | someone is asked for under a reason if and only if the action, some change, the assignees, author or mentions of the issue name them for it |
| `Routing.RouteRefinesOwners` | internal/application/routing.go:88-131 | for every order of walking the maps and every event in which no one is taken for someone else, there is one notice for each allowed address with a reason, and its reasons are exactly the union over the candidates that are matched to themselves and reach the address of their enabled reasons |
| `Routing.RouteRefines` | internal/application/routing.go:88-131 | when moreover no one the event names is a provider-less user the table knows or an untrimmed e-mail, that is the union over all candidates that reach the address |
| `Routing.ToldExactly` | internal/application/routing.go:269-346 | under the same condition on the event, an address hears a reason if and only if the allowlist admits it, it wants that reason, and the candidate that stands for someone the event tells under that reason reaches it: resolves to it within the domains and is not the actor himself, unless that is asked for |
| `Routing.DecodedToldExactly` | internal/application/routing.go:269-346 | for every event as decoded, however bare and enriched people are mixed in it, an address hears a reason if and only if it may, wants it, and someone not bare is told under it and stood for by a candidate that reaches the address, unless a bare username is taken for someone else |
| `Routing.AddressForExactly` | internal/application/routing.go:287-290 | a resolved identity is written to its own e-mail, normalised, if and only if that is well-formed, no placeholder, and within the domains |
| `Routing.ActorById` | internal/application/routing.go:306-308 | with two ids of one provider, a candidate reaches its address if and only if it may be told of its own acts or its resolved id is not the actor's |
| `Routing.ActorByEmail` | internal/application/routing.go:306-308 | without two such ids the e-mails decide that, in any letter case |
| `Routing.ActorByUsername` | internal/application/routing.go:306-308 | and when the actor has no e-mail, the usernames of one provider, in any letter case |
| `Routing.KeptIsHeard` | internal/application/routing.go:297-331 | a candidate that keeps its key is heard at every allowed address it reaches, for each enabled reason, whoever else the event names |
| `Routing.HeardIsEnriched` | internal/application/routing.go:299-331 | for every event as decoded, whatever is heard was asked for someone not bare, and someone was taken for the candidate that stands for them |
| `Routing.OnlyMatchIsHeard` | internal/application/routing.go:299-331 | a resolved identity that can be taken for one candidate only brings that candidate's enabled reasons to its own address, whoever else the event names |
| `Routing.EnrichedKeepsKeys` | internal/application/routing.go:414-449 | that condition on the event makes every candidate keep its key, so the search for the same person is never needed |
| `Routing.KeyPreservedExactly` | internal/application/routing.go:414-422 | resolving keeps a candidate under its own key, if and only if it is not a provider-less id or username that the table knows, nor an e-mail-only identity whose usable e-mail was not trimmed |
| `Routing.BareMentionsUnheard` | internal/adapter/git/gitlab/v17_6/decoder.go:542-560 | for events as the decoder leaves them, mentions without a provider are heard by no one, whether the table knows them or not |
| `Routing.BareMentionMisdirects` | internal/application/routing.go:299-311 | when a bare username the table maps can only be taken for one other candidate of that name, every routing tells the mapped address the enabled reasons of that candidate |
| `Routing.PreservedPick` | internal/application/routing.go:299-312 | with keys preserved the search for the same person is never needed: everyone is matched to themselves |
| `Routing.CandidatesConserved` | internal/application/routing.go:333-341 | for every way of matching, a candidate is handled, reported unresolved, or has its own usable address outside the domains, if and only if it is not an e-mail alone that is usable, within the domains and was not trimmed; one reported is neither of the others |
| `Routing.ConservedOnce` | internal/application/routing.go:333-341 | with keys preserved it is never two of these at once |
| `Routing.MergedNext` | internal/application/routing.go:324-331 | merging one more hit keeps the map equal to the union of the hits per address |
| `Routing.FailureCodes` | internal/application/routing.go:142-150 | everyone told of a failed pipeline is told under that reason alone |
| `Routing.KeysApart` | internal/application/routing.go:102-110 | when addresses hold no colon, one event never uses a delivery key twice |
| `Routing.ToldAddress` | internal/application/routing.go:424-431 | every address told is normalised, usable and within the domains |
| `Routing.NeverToPlaceholders` | internal/application/routing.go:424-431 | no notice goes to a redacted or no-reply address |
| `Routing.Router.Route` | internal/application/routing.go:67-140 | an empty key and an unknown kind are errors; otherwise the notices, the people unresolved and the pipeline state are as specified for some way of walking the maps |
| `Routing.Router.ResolveCandidates` | internal/application/routing.go:269-346 | the loop takes a match for every candidate with an address and a match, merges their enabled reasons per address, and reports exactly the unhandled candidates without an address |
| `Routing.Router.Match` | internal/application/routing.go:299-308 | finds the candidate under the resolved key, else one that is the same person, else none exists |
| `Routing.Router.PipelineStateFor` | internal/application/routing.go:466-484 | remembers exactly the addresses of the notices, in order; neither the substring filter nor the duplicate check ever drops one |
| `DeliveryKeys.KeyDecodes` | internal/application/routing.go:486-500 | a delivery key determines its base, address and reasons when addresses hold no colon |
| `DeliveryKeys.MentionKeysExactly` | internal/application/routing.go:486-500 | two deliveries with a mention have the same key if and only if kind, project, number, address and reasons agree, whatever the event keys are |
| `DeliveryKeys.NoteKeysExactly` | internal/application/routing.go:486-490 | two deliveries of notes have the same key if and only if project, note, address and reasons agree |
| `DeliveryKeys.EventKeysExactly` | internal/application/routing.go:486-500 | any other two deliveries have the same key if and only if event key, address and reasons agree |
| `DeliveryKeys.MentionTest` | internal/application/routing.go:491 | the substring test on the reason group holds if and only if the mention reason is in it |
| `DeliveryKeys.FailureKeyMatches` | internal/application/routing.go:472 | the substring test for failure notices holds of every failure notice |
| `DeliveryKeys.SortedIsSorted` | internal/application/routing.go:98-101 | the reason codes of a group are exactly the given ones, in ascending order |
| `History.RecoveryExactly` | internal/application/routing.go:133-169 | over every history, ci_recovered goes to an address if and only if the turn is a success, the latest earlier outcome under its correlation key was a failure told to that address, and the address still passes domains, allowlist and preferences |
| `History.RecoveryOfPipeline` | internal/application/routing.go:133-169 | the same in terms of pipelines: the latest earlier outcome of the very same merge request, or ref of the project, was a failure told to that address |
| `History.RecoveriesAreSeparated` | internal/application/routing.go:158-164 | between two recoveries of one pipeline lies a failure, told to whoever hears of the second |
| `History.MemoryIsLatest` | internal/adapter/database/sqlite/store.go:366-383 | what is stored under a correlation key is exactly the outcome and the recipients of the latest turn under it |
| `History.RecoveryTold` | internal/application/routing.go:158-168 | a success after a remembered failure is told to exactly the remembered addresses that still pass |
| `History.NoRecovery` | internal/application/routing.go:155-160 | without a remembered failure there is no recovery notice, whatever the event |
| `History.Continues` | internal/application/ingest.go:120-136 | a turn routed on the current memory continues a history |
| `Ingest.IngestService.Handle` | internal/application/ingest.go:94-154 | routes on the identities just remembered and the memory left by earlier webhooks, stores deliveries and memory together, and stores nothing when decoding or routing fails |
| `Ingest.IngestService.HandleNext` | internal/application/ingest.go:120-136 | a turn is added exactly when the webhook is stored; it has the event decoded, the world routed on and the notices whose deliveries were stored; the stored memory and keys stay those of the history |
| `Ingest.AttemptsKeep` | internal/application/ingest.go:156-174 | remembering the people of an event keeps the indexes, and a provider id resolves as before unless the event names it, or names without an id the username its row carries |
| `Ingest.IngestService.RememberIdentities` | internal/application/ingest.go:156-209 | tries each person of the event in order: stored and enabled, or skipped as not worth keeping, without a usable e-mail or in conflict |
| `Ingest.EventIdentitiesExactly` | internal/application/ingest.go:176-209 | the people remembered are exactly those the event names anywhere |
| `Ingest.AttemptExactly` | internal/application/ingest.go:156-174 | someone without id and username, or without a usable e-mail, is not stored; everyone else without a conflict gets an enabled row with their id, username and normalised e-mail, under the source of the event when they name no provider |
| `Ingest.OneRowPerSubject` | internal/adapter/database/sqlite/store.go:350-361 | over every history there is at most one row per project, merge request or issue, address and mention-bearing reasons, and per note, address and reasons, whatever the event keys are; and else per event key, address and reasons |
| `Ingest.SubjectsExactly` | internal/application/routing.go:486-500 | among notices about mentions, notes, or other events, the keys are the same if and only if the subjects are |
| `Ingest.OwnRows` | internal/adapter/database/sqlite/store.go:350-361 | over every history, notices about different subjects of one kind, different events for one, have each a row of their own |
| `Ingest.HistoryStores` | internal/adapter/database/sqlite/store.go:342-364 | every notice of a history has its row and every row comes from a notice |
| `Ingest.FirstNoticeWins` | internal/adapter/database/sqlite/store.go:350-361 | the row stays as the first notice with its key made it |
| `TokenCache.SingleFlight` | internal/adapter/messenger/feishu/client.go:200-248 | under every interleaving a fetch that was not forced was decided on after the fetch before it had expired; without forced callers in between, any two fetches are separated by the expiry of the earlier one |
| `TokenCache.ServedUnexpired` | internal/adapter/messenger/feishu/client.go:200-223 | every token served from the cache is the latest fetched and, when read, had its whole margin left, or some life when its life is no longer than the margin |
| `TokenCache.GrantServesExactly` | internal/adapter/messenger/feishu/client.go:235-246 | a granted token is handed out to a caller that read the clock exactly until the margin before its end, or until its end when it lives no longer than the margin; without a lifetime it lives two hours |
| `TokenCache.NeverStuck` | internal/adapter/messenger/feishu/client.go:208-222 | at most one caller is behind tokenMu, and while a caller waits for it the one inside can move |
| `TokenCache.ForcedFetchesAgain` | internal/adapter/messenger/feishu/client.go:210-225 | a forced caller fetches again although the cached token is fresh |
| `TokenCache.StepKeeps` | internal/adapter/messenger/feishu/client.go:200-248 | every step keeps the cache equal to the last fetch, each pending fetch justified by an expired check, and tokenMu held by exactly the caller inside |
| `TokenCache.Client.Refresh` | internal/adapter/messenger/feishu/client.go:210-248 | the part behind tokenMu, from whatever state other callers have left, is a run of the protocol that frees tokenMu: the second check hands out a fresh token, else the request decides |
| `TokenCache.Client.Peek` | internal/adapter/messenger/feishu/client.go:200-207 | the first check hands out a fresh token to a caller that is not forced, and is the check step of the protocol from whatever state others left |
| `Hooks.Converges` | internal/adapter/git/gitlab/v17_6/hooks.go:72-103 | after an applied run without an error, any later run whose reads are answered reports only "unchanged", ends without an error and writes nothing |
| `Hooks.OthersUntouched` | internal/adapter/git/gitlab/v17_6/hooks.go:136-265 | hooks with other names stay where and as they are whatever fails, and a dry run changes no hook |
| `Hooks.CountsAddUp` | internal/adapter/git/gitlab/v17_6/hooks.go:85-101 | scanned = created + updated + unchanged + failed |
| `Hooks.CountsExactly` | internal/adapter/git/gitlab/v17_6/hooks.go:90-101 | each counter is the number of projects with that action |
| `Hooks.WriteSettles` | internal/adapter/git/gitlab/v17_6/hooks.go:136-188 | one applied write makes the first hook of that name match, with the configured token, and adds at most one hook |
| `Hooks.MatchesExactly` | internal/adapter/git/gitlab/v17_6/hooks.go:181-265 | a hook matches if and only if address and certificate check are as configured, and of the managed switches a system hook has merge requests on and the rest off, a project hook issues, notes and pipelines on and the rest off |
| `Hooks.RequestedExactly` | internal/adapter/git/gitlab/v17_6/hooks.go:167-252 | a request sets name, address, token, certificate check and the managed switches, and leaves every other switch as it is |
| `Hooks.OutcomeExactly` | internal/adapter/git/gitlab/v17_6/hooks.go:205-235 | "create" is reported if and only if no hook has the name, "unchanged" if and only if the first one that has it matches, "update" otherwise |
| `Hooks.TokenRotationExactly` | internal/adapter/git/gitlab/v17_6/hooks.go:181-188 | after a run the hook carries the configured token if and only if it did before or something else had to be written |
| `Hooks.HookController.Ensure` | internal/adapter/git/gitlab/v17_6/hooks.go:205-235 | the loop over the hooks leaves, updates or creates as the first hook of that name asks, and sends at most one write |
| `Hooks.HookController.Reconcile` | internal/adapter/git/gitlab/v17_6/hooks.go:72-103 | the system hook first, then every project; a failing project is counted and passed over; nothing is written when nothing differs |

## Left out

- HTTP server, configuration, tickers, logging and start-up: what is kept of them is that there is one delivery worker and that time does not go back.
- SQL, JSON, transactions and legacy rows: rows are typed, payloads read back as stored, a transaction commits or changes nothing. Database errors appear only as a store failure in `Worker` and as refused requests elsewhere.
- Several delivery workers: `MarkFailed` reads and updates in two statements, which is one step here because one worker runs.
- GitLab payload decoding and enrichment: events are canonical and arrive as already enriched; ignored and malformed requests are cases of `Ingest.Decoded`.
- The events, ignored-events and unresolved-people tables, and the counters in their rows: the routed result carries the people unresolved.
- Notification titles, summaries, facts, links and reason texts: a notice is its key, its address and its reason codes.
- A router without an identity store, preferences or pipeline memory: all three are always present.
- Several clock readings within one routing decision: one reading is used for all preference checks of an event.
- Unicode: lower-casing, trimming and case-insensitive comparison are those of ASCII.
- The address parser: a predicate on normalised texts, the same for all components.
- Splitting stored project lists: a list is given as its entries.
- UpsertPreference: it writes preference rows outside the mute protocol, and no production code calls it.
- Years after 9999, times before year 0 and time zones other than UTC in texts.
- The time and recipient of a click: they are read when it is applied, and are part of the click in the step system.
- The card shown after a click: of a click only its status and its effect on the preferences are modelled.
- Paging and retries of the GitLab API: a list of hooks or projects is complete, a request succeeds, fails unapplied, or is applied with its answer lost; a project set changing between two runs.
- Feishu requests other than the token request: a send is accepted, rejected for now or for good, or accepted with its answer lost; the second try after an expired token is part of the send.
- Overflow of the token lifetime in seconds: lifetimes are unbounded integers.
- Sync.IdentitySync.Sync: states the result user by user only for users with distinct non-empty ids, because users that share an id or have none are told apart by username only; for other users it says which ids are kept.
- Routing.RouteRefines: has a condition on the event; `Routing.RouteRefinesOwners`, `Routing.KeptIsHeard` and `Routing.OnlyMatchIsHeard` say what holds without it.
- Routing.ToldExactly: has the same condition; `Routing.DecodedToldExactly` covers every event as decoded in which no bare username is taken for someone else.
- Protocol.NoStarvation: needs a RetryDelay below half the 64-bit range, above which the wait can become negative (`Backoff.FloorExactly`), and the row's own millisecond to be over (`Outcomes.TiesStarve`).
- The queries behind the sending check and the mute state: they are the functions `Preferences.Enabled` and `Preferences.StateOf`.
- TokenCache.Client.AccessToken: joins `Peek` and `Refresh` for a caller alone; these two start from whatever other callers left, and all interleavings are the business of the step system.
- Hooks.HookController.Ensure: stands for both the system and the project function, which differ only in the switches they manage.
