# Shilka: a verified model of the control plane

Shilka is a control plane for a proxy core. It compiles inbounds and clients from
its database into the core's configuration, polls the core's byte counters, charges
them to clients, disables clients that are expired or over quota, hands clients their
own configuration, and drives remote panels. This project models that behaviour in
Dafny and proves what the code is for: that bytes are conserved, that traffic is
attributed to the right client, that updates and migrations are not lost or repeated,
and that the independent halves of each protocol agree.

`dafny verify dfyconfig.toml` checks everything.

## How it is organised

Code that changes state step by step is a class or a method with the source's own
fields and loops, proved against a specification function or predicate; what the
source promises is then proved about that specification, over whole runs. Failures of
the database, the network, the file system and child processes are parameters of each
call, so every theorem holds for all combinations of them. Concurrency is a step
relation, and the theorems are invariants of every interleaving.

| files | part of the system |
|---|---|
| Text, Strings, Collections, Tables | decimal parsing and string search of the Go library, orders, finite sums, a table with a unique index |
| Domain, Tag | clients, inbounds, outbound tags |
| ClashUser, Conservation, ConservationLimits | counter diffing, and conservation over runs of polls with its exact limits |
| ClientRepo, ClientService, Worker, Accounting, RunConservation, Quota | rows, lifecycle, the accounting and enforcement loops, conservation over runs of ticks from the loop's inputs |
| Generator, Routing, EndToEnd | the server compiler, routing by the compiled rules, and the accounting as its inverse over whole runs |
| InboundService, Subscription, Compilers | inbound lifecycle, the client compiler, and the agreement of the two |
| Debounce, Apply | the debounced trigger as a state machine, installing a config under faults |
| Bulk, BulkProtocol, CrossPanel, BulkRequest | bulk changes across panels: batch, wire form, cache, request |
| Sync, SyncProperties, SyncRuns | copying a remote panel into the cache, runs of syncs |
| RateLimit, LogBuffer, RotateLog | token bucket with eviction, line splitter and ring, rotating log |
| Wire, V2Ray, UserStats | protocol-buffer reader, response parser, per-user sums |
| Process, Notification, Migrator, Version | child process, notification deduplication, schema migrations, version order |

## What the proofs found

The code is modelled as it is. Where it does not do what its comments or callers
expect, the exact condition under which it does is a theorem.

- `internal/domain/client.go:14-15` says names are unique. Migration 000008 makes them
  unique among local clients and per node only, and the worker looks clients up by name
  over all of them: bytes are credited to the smallest id of that name
  (`ConservationLimits.CreditedToOwnRowIff`, `SharedNameMiscredits`).
- A connection that leaves the view and returns is charged its whole counter again. The
  view is left not only when a connection closes but whenever its name lookup fails once
  (`ChargedExactlyIff`, `FailedLookupRecharges`).
- `ParseClientOutboundTag` accepts tags the panel never generates, such as `user-+07`
  (`Tag.AcceptedTagIsGeneratedIff`).
- A failed apply is not retried: the panel can come to rest on a config without a
  committed change (`Debounce.FailureLeavesStale`). The installed config is current
  exactly when some apply that succeeded had rendered every change
  (`Debounce.CurrentIff`).
- Idle eviction refills the bucket of an `N/h` limiter early: more calls get through than
  the rate allows. For `N/s` and `N/m` it is invisible and the rate is kept
  (`RateLimit.EvictionInvisibleIff`, `AdmissionsBoundedIff`, `EvictionVisible`).
- The V2Ray statistics lose names that contain `>>>` or end in `>`
  (`UserStats.UserStatRecoveredIff`).
- Of two versions, one of which does not parse, each can count as newer
  (`Version.BothGreaterIff`).
- The two compilers would disagree on a naive inbound with Reality; validation is what
  excludes it (`Compilers.CompilersAgreeIff`).
- Subscriptions go on offering inbounds that were switched off, which the running
  configuration does not serve (`Compilers.OfferConnectsIff`, `DisabledStillOffered`).
- The rotating log keeps a suffix even when backups are missing, which its rename loop
  was not written for (`RotateLog.LogIsSuffix`).

## Model

| member | source | states |
|---|---|---|
| `Accounting.CountersConserved` | internal/services/stats/worker.go:173-250 | over any run of ticks, with any failed fetch, lookup or write: a client's stored counters grew by the last values of its connections' counters in each stretch with the row, less what those connections had counted before they came to the row, less exactly the bytes of the ticks whose write failed |
| `Accounting.RunTicks` | internal/services/stats/worker.go:157-168 | the accounting loop over any sequence of ticks: every row's counters grow by the run's stored gains, every poll listed the rows by their ids, names and nodes, which stay, and every day of the rollup grows by exactly what the run books on it |
| `Accounting.TickAccounted` | internal/services/stats/worker.go:173-250 | one tick extends "stored counters = initial counters + stored gains" by that tick's poll |
| `Accounting.BatchIsGain` | internal/services/stats/worker.go:197-213 | the increments a tick sends for a row, client by client, sum to the row's gain, connection by connection |
| `Accounting.DayIsAllGains` | internal/services/stats/worker.go:202-232 | what a tick books on its day is the sum over all rows of what it stores |
| `RunConservation.LoopConserves` | internal/services/stats/worker.go:157-250 | from the loop's inputs alone: over any ticks in whose snapshots a connection id keeps its first hop until its counter drops, with any failures, a row's counters grew by exactly the peaks of its connections' counter lifetimes, less the bytes of the ticks whose write failed, and by all of them when none failed |
| `RunConservation.RunLoop` | internal/services/stats/worker.go:157-168 | running the loop gives that conclusion for every row and direction, with no assumption about what the loop listed or attributed |
| `RunConservation.HistorySteady` | internal/services/stats/clash_user.go:77-99 | lists of one table credit a name to one row, so a connection whose first hop stays is charged to one row for as long as its counter lives |
| `RunConservation.RollupGrowsAsCounters` | internal/services/stats/worker.go:224-232 | when every stored tick also writes its day, the growth of all days of the rollup together equals the growth of all rows together |
| `Conservation.TrafficConserved` | internal/services/stats/clash_user.go:77-132 | with no assumption on attribution: stored bytes plus bytes lost with failed writes plus what connections had counted before they came to the row equal, per row and direction, the last values of its connections' counters in each stretch with the row: nothing is charged twice, nothing else is lost |
| `Conservation.SteadyTrafficConserved` | internal/services/stats/clash_user.go:77-132 | when connections change rows only between counter lifetimes, the row gets exactly the peaks: each counter's value before a drop or disappearance, or its last |
| `Conservation.StepsArePeaks` | internal/services/stats/clash_user.go:102-113 | the charged differences of one connection, plus what it brought along from another row, telescope to the peaks of its stretches with the row, with resets |
| `Conservation.ChargesRegrouped` | internal/services/stats/clash_user.go:77-132 | summing a run poll by poll or connection by connection gives the same total |
| `Conservation.PrevIsLastSample` | internal/services/stats/clash_user.go:99-126 | the remembered counters are exactly the last samples, also across failed fetches |
| `Conservation.NothingLost` | internal/services/stats/worker.go:224-232 | without failed writes no byte is lost |
| `ConservationLimits.ChargedExactlyIff` | internal/services/stats/clash_user.go:93-99 | a connection is charged at least what it carried, and exactly that if and only if it never comes back into view after leaving it with bytes on its counter |
| `ConservationLimits.FailedLookupRecharges` | cmd/main.go:279-285 | of three polls of one snapshot let the name lookup of one connection fail during the second: its client gains exactly that connection's whole counter more than without the failure |
| `ConservationLimits.CreditedToOwnRowIff` | internal/services/stats/worker.go:197-213 | bytes reach the client's own row exactly when no listed client of its name, local or cached, has a smaller id |
| `ConservationLimits.RowForIsLowest` | internal/repo/sqlite/client_repo.go:79-81 | with the list in descending id order the row credited for a name is the one with the smallest id |
| `ConservationLimits.SharedNameMiscredits` | internal/repo/migrator/migrations/000008_create_superpanel.sql:117-120 | a local and a cached client may share a name under the database's indexes, and the older row is then credited |
| `ClashUser.ClashUserSource.UserDeltas` | internal/services/stats/clash_user.go:67-133 | a failed fetch changes nothing; otherwise each client with growth is reported once with the exact sum over its connections, and the remembered counters and the online set are those of this snapshot |
| `ClashUser.GrowthSince` | internal/services/stats/clash_user.go:102-113 | per direction: the growth since the last poll, or the whole counter when new or when it went backwards |
| `ClashUser.Seen` | internal/services/stats/clash_user.go:99-126 | the online names are exactly those of tracked connections, all with the snapshot's time |
| `Tag.TagRoundTrip` | internal/services/singbox/tag.go:18-34 | a generated tag is "user-" and the number, and parses back to its client id, for every int64 |
| `Tag.TagInjective` | internal/services/singbox/tag.go:18-20 | different clients get different tags |
| `Tag.AcceptedTagIsGeneratedIff` | internal/services/singbox/tag.go:24-34 | an accepted tag is one the panel generates exactly when its number is spelled canonically; the comment promises that only generated tags are accepted |
| `Tag.ForeignTagAccepted` | internal/services/singbox/tag.go:24-34 | "user-+07" is accepted as client 7 |
| `ClientRepo.ClientRepo.AddTraffic` | internal/repo/sqlite/client_repo.go:294-323 | one transaction: every increment of the batch is added to its row, several for one row included, or nothing changes |
| `ClientRepo.Increment` | internal/repo/sqlite/client_repo.go:313-321 | the statements of that transaction add up per row; zero deltas touch nothing |
| `ClientRepo.ClientRepo.List` | internal/repo/sqlite/client_repo.go:79-81 | every row once, in descending order of ids |
| `ClientRepo.ClientRepo.SetStatus` | internal/repo/sqlite/client_repo.go:195-203 | status and enabled of that row and nothing else |
| `ClientRepo.ClientRepo.SetFirstUsed` | internal/repo/sqlite/client_repo.go:275-282 | the first use is written once and never overwritten |
| `ClientRepo.ClientRepo.SetLastUsedAt` | internal/repo/sqlite/client_repo.go:284-291 | the heartbeat column of that row |
| `ClientRepo.ClientRepo.Create` | internal/repo/sqlite/client_repo.go:25-62 | inserts the row with its normalised binding set, unused counters and no times of use, exactly when the write works and no other row of its panel has the name; names stay unique per panel |
| `ClientRepo.ClientRepo.Update` | internal/repo/sqlite/client_repo.go:117-151 | replaces the editable columns and the binding set, exactly when the write works and no other row of its panel has the name; counters, token and usage times stay as stored, names stay unique per panel |
| `ClientRepo.ClientRepo.Delete` | internal/repo/sqlite/client_repo.go:187-193 | removes that row only |
| `ClientRepo.ClientRepo.ResetTraffic` | internal/repo/sqlite/client_repo.go:205-212 | zeroes that row's counters only |
| `ClientRepo.NormalizeSet` | internal/repo/sqlite/client_repo.go:490-504 | the binding set without zeros and repetitions, in order of first occurrence, or the primary binding |
| `ClientRepo.FirstOccurrences` | internal/repo/sqlite/client_repo.go:490-504 | exactly the non-zero ids asked for, each once |
| `ClientRepo.TrafficRepo.AddDaily` | internal/repo/sqlite/traffic_repo.go:18-31 | one day grows by exactly the bytes given, the other days stay |
| `ClientService.ClientService.Create` | internal/services/client/service.go:135-179 | succeeds exactly with a name that is given and that no local client has, at least one binding, all of them local inbounds, and a write that works; the new client carries the input, is active and enabled, and one config apply is asked for; a refusal changes nothing |
| `ClientService.ClientService.Update` | internal/services/client/service.go:181-229 | succeeds exactly for a local client whose new name is not empty and not another local client's and whose new bindings are local inbounds, when the write works; the given fields take their values and no other changes, status and enabled together; a refusal changes nothing and triggers nothing |
| `ClientService.ClientService.SetStatus` | internal/services/client/service.go:248-264 | succeeds exactly for an existing local client; enabled if and only if the status is active |
| `ClientService.ResolveInboundSet` | internal/services/client/service.go:112-133 | succeeds exactly when some id is given and every non-zero one is a local inbound; the result is the distinct ids in order |
| `Worker.Worker.Account` | internal/services/stats/worker.go:173-250 | one tick in full: which rows change and how for every combination of failures, what the rollup gains, what the source remembers, and that one config apply is asked for exactly when the closing enforcement disables somebody |
| `Worker.Worker.Write` | internal/services/stats/worker.go:193-249 | counters, rollup, heartbeat and enforcement in that order; a failed counter write stops the tick before the rollup, and an apply is asked for exactly when some charged row must expire |
| `Worker.TickTriggers` | internal/services/stats/worker.go:249-249 | the closing enforcement changes something exactly when, after the tick's charges, some row is exhausted and its update works |
| `Worker.Worker.ApplyDeltas` | internal/services/stats/worker.go:202-222 | the batch, the day's totals and the first-use marks for the deltas of listed clients |
| `Worker.Worker.Heartbeat` | internal/services/stats/worker.go:236-247 | the last use of exactly the online clients that got no bytes this tick, in any order of iteration |
| `Worker.Worker.Enforce` | internal/services/stats/worker.go:126-155 | with writes that work, the rows disabled are exactly the enabled active ones with a quota that both counters together have reached or an expiry that has passed, every other row stays as it is, and one apply is asked for if and only if something changed |
| `Worker.ByName` | internal/services/stats/worker.go:197-200 | the map from names to clients holds for each name the last client of the list that has it |
| `Quota.EnforcementIsComplete` | internal/services/stats/worker.go:126-155 | after any sequence of creates, updates, status changes, resets, deletes, bulk changes, ticks and syncs, an enforcement pass whose writes succeed leaves every enabled local client below its quota with both counters together and not past its expiry, and changes exactly the rows that were not |
| `Quota.RunKeepsAligned` | internal/services/client/service.go:219-222 | over every run a local client is enabled if and only if its status is active |
| `Quota.BulkKeepsAligned` | internal/repo/sqlite/client_repo.go:214-273 | a bulk change, with any fault, keeps enabled and active together on every local client it touches |
| `Quota.RenderServesNoExhausted` | internal/services/singbox/generator.go:85-127 | a config compiled from that state holds no exhausted client in any user list, outbound or rule |
| `Generator.Render` | internal/services/singbox/generator.go:71-166 | fails exactly on an unsupported protocol; otherwise the blocks, outbounds, rules and stats users are those of the specification Compiles |
| `Generator.GroupByInbound` | internal/services/singbox/generator.go:84-97 | each inbound's user list: the active clients bound to it, in list order |
| `Generator.EmitMembers` | internal/services/singbox/generator.go:108-127 | every member not emitted before gets one outbound, one rule and one stats name |
| `Routing.EveryClientOwnOutbound` | internal/services/singbox/generator.go:108-148 | with unique names every emitted client's non-BitTorrent traffic leaves through its own outbound, whose tag parses back to its id |
| `Routing.OwnOutboundIff` | internal/services/singbox/generator.go:144-157 | in general, exactly when no client emitted before it has its name: the first matching rule wins |
| `Routing.MembersExactlyOnce` | internal/services/singbox/generator.go:84-97 | each active client bound to an inbound is in its user list exactly once, and nobody else is |
| `Routing.EmittedExactlyOnce` | internal/services/singbox/generator.go:105-127 | a client with a user entry somewhere has one outbound and one rule, however many inbounds it has |
| `Routing.OutboundsDistinct` | internal/services/singbox/generator.go:108-148 | no outbound tag is defined twice |
| `Routing.OutboundsNameEmitted` | internal/services/singbox/generator.go:108-148 | a tag in the outbound list parses to an id exactly when that client is emitted |
| `Routing.NoDanglingRule` | internal/services/singbox/generator.go:144-157 | every rule and the final target lead to an outbound that exists |
| `Routing.BittorrentRejected` | internal/services/singbox/generator.go:144-157 | BitTorrent is rejected for every user |
| `EndToEnd.ChargedToItsClient` | internal/services/stats/clash_user.go:86-99 | the attribution inverts the compiler: a connection of an emitted client is charged to that client, and to its own row, whatever that row counts by now, exactly when no namesake has a smaller id |
| `EndToEnd.ClientPaysForItsConnections` | internal/services/stats/worker.go:173-250 | over any run of ticks, with any failures and any number of configurations compiled meanwhile: if the core lists only its own traffic and connections opened under those configurations, the counters of a local client without an older namesake grow by exactly what the core's counters show of the connections it opened, less the ticks whose write failed |
| `EndToEnd.RunAndBill` | internal/services/stats/worker.go:157-250 | the same from the table as the repositories keep it: its own index on names is the uniqueness the attribution needs, and nothing else is assumed of it |
| `EndToEnd.OpenedForLeads` | internal/services/singbox/generator.go:108-148 | a connection opened with a client's credentials under any configuration compiled from the table has a first hop that parses back to that client |
| `EndToEnd.DirectChargedToNobody` | internal/services/stats/clash_user.go:86-99 | traffic through the direct outbound is charged to nobody |
| `Compilers.CompilersAgree` | internal/services/sublink/subscription.go:223-309 | for every inbound the panel can store and every client in its user list, the subscription's outbound fits the server's block: port, credential, flow, transport, bandwidths, congestion control, obfuscation, TLS on both or neither, ALPN offered, Reality key pair and short id |
| `Compilers.BlockCarries` | internal/services/singbox/generator.go:189-318 | a compiled block carries its inbound's columns, each in its place, and one user per member in order |
| `Compilers.OutboundCarries` | internal/services/sublink/subscription.go:223-309 | so does an outbound, with the client's own credentials |
| `Compilers.CompilersAgreeIff` | internal/services/singbox/generator.go:189-318 | for any inbound at all, exactly when its Reality keys are a pair and it is not naive with Reality |
| `Compilers.OfferConnectsIff` | internal/transport/handler/subscription_handler.go:260-276 | a whole subscription against a whole configuration, from the same tables: an offered outbound is accepted by some block exactly when its inbound is enabled |
| `Compilers.DisabledStillOffered` | internal/transport/handler/subscription_handler.go:266-275 | an inbound that is switched off is still offered, although the configuration has no block |
| `Compilers.TlsAgreeIff` | internal/services/singbox/generator.go:281-318 | the exact condition under which the two TLS sections fit |
| `Compilers.InsecureIffSelfSigned` | internal/services/sublink/subscription.go:263-309 | the outbound skips certificate verification exactly when the override says so or, without one, when the block of the same inbound falls through to the panel's default certificate; never with Reality or naive |
| `Compilers.OfferInsecureExactly` | internal/services/sublink/subscription.go:84-121 | the same for every outbound of a whole subscription against the whole configuration |
| `Subscription.BuildClientConfigMulti` | internal/services/sublink/subscription.go:84-121 | one outbound per inbound that is not naive with untrusted TLS, in order, tagged by position, and the selector lists exactly those tags |
| `Subscription.SelectorDistinct` | internal/services/sublink/subscription.go:84-121 | no tag twice, and none that clashes with the selector or the direct outbound |
| `Subscription.SkippedIff` | internal/services/sublink/subscription.go:250-257 | only naive inbounds with insecure TLS are left out |
| `Subscription.Kept` | internal/services/sublink/subscription.go:90-104 | the positions that get an outbound, in ascending order |
| `InboundService.InboundService.Create` | internal/services/inbound/service.go:167-195 | succeeds exactly for an input without a reason to reject it and a port no local inbound has, when the generators it needs and the write work; the stored inbound carries every column of the input, what is missing comes from the generators, and the table stays sane; a refusal changes nothing; one trigger exactly on success |
| `InboundService.InboundService.Update` | internal/services/inbound/service.go:197-230 | succeeds exactly for a local inbound, such an input and a port no other local inbound has, when the generators and the write work; the row carries every column of the input, keeps its id, keys and switch, and the table stays sane |
| `InboundService.InboundService.Clone` | internal/services/inbound/service.go:248-277 | succeeds exactly for a local inbound and a free port when the generators and the write work; the copy is disabled, has the protocol, transport, TLS mode and destination of the original but no other setting than its verification override, gets its own key material and keeps the table sane |
| `InboundService.InboundService.Toggle` | internal/services/inbound/service.go:232-246 | flips enabled of a local inbound and nothing else |
| `InboundService.ValidUnlessRejected` | internal/services/inbound/service.go:376-439 | what is valid, reason by reason |
| `InboundService.ApplyGeneratedSettings` | internal/services/inbound/service.go:304-351 | succeeds exactly when the generators it needs do; fills only what is missing, never replaces stored keys or names, and sets the flow the transport calls for |
| `InboundService.FilledIsSane` | internal/services/inbound/service.go:304-439 | an accepted input, once filled, satisfies everything the compilers rely on |
| `Debounce.NoLostUpdate` | internal/services/singbox/apply.go:75-131 | in every interleaving, a change whose Trigger has returned is covered by a render begun later, a full slot, a quiet window or a worker waiting to render |
| `Debounce.SettledIsCurrent` | internal/services/singbox/apply.go:97-111 | once nothing is pending the last render covers every change, and the installed config contains them all if the last apply succeeded |
| `Debounce.CurrentIff` | internal/services/singbox/apply.go:75-183 | at any moment of any run the installed config contains every change exactly when there is none or some apply that succeeded had rendered them all |
| `Debounce.LiveIsLastInstalled` | internal/services/singbox/apply.go:137-183 | the installed config is the rendering of an apply that succeeded, and none that succeeded had rendered more |
| `Debounce.FailureLeavesStale` | internal/services/singbox/apply.go:106-108 | a run in which one failed apply leaves the panel settled on an old config: nothing but a new change or an explicit apply is enabled |
| `Debounce.RendersOneIntervalAfterLastTake` | internal/services/singbox/apply.go:115-131 | from a trigger the worker took while nobody else held the mutex, and until somebody else takes it, the render starts exactly one debounce interval after the last trigger was taken, not earlier and not later |
| `Debounce.WaitsOnlyForOthers` | internal/services/singbox/apply.go:97-111 | in every run, once its timer has fired the worker lets time pass only while another caller is applying |
| `Debounce.StepKeepsInv` | internal/services/singbox/apply.go:75-183 | every step of triggers, worker and other callers keeps the coverage invariant |
| `Apply.Applier.Apply` | internal/services/singbox/apply.go:137-183 | with a fault at any step: a failed attempt leaves the live config unchanged, a successful one installs exactly the checked bytes, and a good revision is recorded only for bytes that are live |
| `Apply.Applier.ApplyAll` | internal/services/singbox/apply.go:137-183 | over any sequence of attempts the live config is the initial one or bytes that passed the check |
| `Apply.Applier.BackupCurrent` | internal/services/singbox/apply.go:210-230 | the backup equals the live config, and pruning keeps the five newest |
| `Apply.Applier.Prune` | internal/services/singbox/apply.go:223-229 | removes only backups, and leaves the largest names |
| `Apply.IsBackupIff` | internal/services/singbox/apply.go:210-230 | what counts as a backup of a config: its name, ".bak-" and a timestamp |
| `Apply.PrunedIsNewest` | internal/services/singbox/apply.go:223-229 | dropping all but the last five of the sorted names keeps the five newest |
| `Apply.BackupOrder` | internal/services/singbox/apply.go:218-229 | names with timestamps of one width sort by time |
| `Apply.Applier.Record` | internal/services/singbox/apply.go:199-206 | may record a good revision only for the bytes that are live |
| `Bulk.BulkMutate` | internal/services/client/service.go:314-354 | all changeable clients together or none, every id is answered, one trigger for delete or status; column by column, exactly the rows reported are gone, have the status with enabled meaning active, or have both counters at zero, and nothing else changes |
| `Bulk.ExecBatch` | internal/repo/sqlite/client_repo.go:232-273 | all statements or none, with that effect on the columns; without a fault it succeeds exactly when every id exists and, for deletes, none repeats |
| `Bulk.Settle` | internal/services/client/service.go:341-349 | the open entries all get the batch's outcome, the decided ones stay |
| `BulkProtocol.Decode` | internal/transport/handler/client_handler.go:549-572 | rejects exactly an empty list or a text that is not a decimal int64 above zero |
| `BulkProtocol.OwnIdParses` | internal/transport/handler/client_handler.go:559-564 | the panel's own spelling of an id is accepted exactly for positive ids |
| `BulkProtocol.TargetsExact` | internal/transport/handler/client_handler.go:557-571 | one target per distinct id, spelled as first requested |
| `BulkProtocol.ApplyBulkResults` | internal/transport/handler/client_handler.go:644-655 | writes each result into its own entry and no other |
| `BulkProtocol.PublicError` | internal/transport/handler/client_handler.go:657-672 | a failed entry never carries an empty error |
| `BulkProtocol.RemoteErrorOfPublic` | internal/services/node/service.go:489-498 | a node's error keeps its kind on the way to the calling panel for missing clients and unreachable nodes, and is a remote error otherwise |
| `BulkProtocol.NodeBulk` | internal/transport/handler/node_handler.go:523-605 | refuses exactly the malformed requests; otherwise it changes all the ids it can, or none, and all of them when no statement fails; it reports exactly the ids it changed and changes nothing else |
| `CrossPanel.BulkClients` | internal/services/node/service.go:404-481 | a cached client is reported as changed only if the node changed it and the cache batch committed, and the cache changes exactly on those ids; when nothing goes wrong these are exactly the clients the node can change |
| `CrossPanel.CacheAnswers` | internal/services/node/service.go:443-481 | what the node answered becomes the results, and the cache follows exactly |
| `CrossPanel.JudgedExactly` | internal/services/node/service.go:448-467 | read off the node's answer, the clients counted as changed are exactly those the node can change |
| `CrossPanel.Prepare` | internal/services/node/service.go:411-430 | the remote ids to send, and the decided errors of the clients that are not this node's |
| `CrossPanel.ReadAnswers` | internal/services/node/service.go:448-462 | each eligible client gets the first answer for its remote id; unknown and repeated answers are ignored |
| `CrossPanel.FailMissing` | internal/services/node/service.go:463-467 | a client the node did not answer for counts as failed |
| `BulkRequest.ControlPlane.Handle` | internal/transport/handler/client_handler.go:475-623 | a request with no or malformed ids, or a status other than active and disabled, changes nothing; otherwise one decided entry per distinct id in order of first occurrence, for any mix of local, remote, missing and unreachable ids; wherever nothing goes wrong exactly the ids that can be changed are, whatever goes wrong elsewhere; remote ids stay unique |
| `BulkRequest.ControlPlane.RunBulk` | internal/transport/handler/client_handler.go:574-623 | this panel's table changes exactly on the ids reported, a node's client is reported only if that node changed it, every panel asks for at most one apply, and each fault-free destination changes exactly the ids it can |
| `BulkRequest.ControlPlane.RunRemotes` | internal/transport/handler/client_handler.go:606-621 | the groups of the nodes, one after the other, each adding its own outcome to the response |
| `BulkRequest.ControlPlane.RunLocal` | internal/transport/handler/client_handler.go:600-604 | the local group in one batch |
| `BulkRequest.RemoteExact` | internal/transport/handler/client_handler.go:606-621 | a node's group has the outcome the initial state decides, although other groups have changed the table before it |
| `BulkRequest.Group` | internal/transport/handler/client_handler.go:581-598 | every target goes to this panel's list, to one node's group, or is refused with an error |
| `Sync.NodeService.Sync` | internal/services/node/service.go:134-204 | goes through exactly when every listed row has an id, times that parse and a write that works; then the cache is the specification Synced, otherwise it is Synced for a prefix of the snapshot whose rows all have ids |
| `Sync.NodeService.SyncInbounds` | internal/services/node/service.go:146-166 | the inbound loop: the upserts up to the first failure, and the map of local ids |
| `Sync.NodeService.SyncClients` | internal/services/node/service.go:167-200 | the client loop: clients of unknown inbounds are skipped, the first bad one stops it |
| `Sync.NodeService.UpsertInbound` | internal/repo/sqlite/inbound_repo.go:110-147 | insert or overwrite under the node's unique key, and the row's local id |
| `Sync.NodeService.UpsertClient` | internal/repo/sqlite/client_repo.go:153-185 | insert or overwrite under the node's unique key, keeping what only this panel knows |
| `SyncProperties.InboundsMirrored` | internal/services/node/service.go:146-166 | every inbound of the snapshot is cached with all fields equal, under its local id |
| `SyncProperties.ClientsMirrored` | internal/services/node/service.go:167-200 | every client whose inbound is in the snapshot is cached with all fields equal, its times parsed and not dropped, and points at the local id of that very inbound on that node |
| `SyncProperties.SyncFramed` | internal/services/node/service.go:134-204 | local ids never change, no row is deleted, and rows of other nodes, local rows and unlisted rows are untouched |
| `SyncProperties.StoppedSyncFramed` | internal/services/node/service.go:161-199 | a sync that stops half way obeys the same frame |
| `SyncProperties.SyncIdempotent` | internal/services/node/service.go:134-204 | syncing the same snapshot again changes nothing |
| `SyncProperties.SyncCoherent` | internal/repo/migrator/migrations/000008_create_superpanel.sql:109-122 | a sync, of a whole snapshot or of a prefix, keeps the unique keys and leaves every cached client pointing at an inbound of its own node |
| `SyncRuns.RunSyncs` | internal/services/node/service.go:632-654 | any sequence of syncs of any nodes, unreachable ones and ones that stop half way included: the cache stays coherent, ids are stable, nothing is deleted and only rows of the synced nodes change |
| `SyncRuns.RunKeeps` | internal/services/node/service.go:134-204 | the same as an invariant between any two points of a run |
| `SyncRuns.CoherentIsUnique` | internal/repo/migrator/migrations/000008_create_superpanel.sql:109-122 | a coherent cache has the unique remote ids a bulk request relies on |
| `SyncRuns.LastSyncShowsInbound` | internal/services/node/service.go:146-166 | a node's inbounds stay cached as its last sync that went through found them, however the syncs of other nodes go |
| `SyncRuns.LastSyncShowsClient` | internal/services/node/service.go:167-200 | so do its clients, pointing at the local ids of their inbounds |
| `Tables.UpsertAllExact` | internal/repo/sqlite/inbound_repo.go:120-141 | a sequence of upserts leaves, for each key, the last write applied to the old row; ids are stable and other rows kept |
| `Tables.UpsertAllIdempotent` | internal/repo/sqlite/inbound_repo.go:120-141 | repeating the upserts changes nothing |
| `Tables.UpsertAllKeyed` | internal/repo/migrator/migrations/000008_create_superpanel.sql:109-122 | upserts keep the partial unique index of (node, remote id) |
| `RateLimit.EvictionInvisibleIff` | internal/transport/middleware/ratelimit.go:117-130 | the limiter answers every run as one that never evicts if and only if the window is at most 15 minutes: true for N/s and N/m, false for N/h |
| `RateLimit.TokensBalance` | internal/transport/middleware/ratelimit.go:94-130 | over any run, what an IP was let through plus the tokens it still has is at most what it had plus what dripped in |
| `RateLimit.AdmissionsBounded` | internal/transport/middleware/ratelimit.go:94-130 | in any span of T seconds of any run at most N + N*T/window calls of an IP are let through, with sweeps if the window fits the idle cutoff, without them always |
| `RateLimit.AdmissionsBoundedIff` | internal/transport/middleware/ratelimit.go:117-130 | the limiter with its sweeps keeps that bound for every caller, every span and every run if and only if the window is at most 15 minutes |
| `RateLimit.SpacedNeverRefused` | internal/transport/middleware/ratelimit.go:94-115 | a client leaving window/N between calls is never refused, whatever other clients and sweeps do |
| `RateLimit.EvictionVisible` | internal/transport/middleware/ratelimit.go:117-130 | for a longer window, draining, being swept and draining again lets more calls through than N + N*T/window, and more than without the sweep |
| `RateLimit.Limiter.Allow` | internal/transport/middleware/ratelimit.go:94-115 | the bucket's refill, cap and decision, against the specification the run theorems are about |
| `RateLimit.Limiter.Cleanup` | internal/transport/middleware/ratelimit.go:121-129 | drops exactly the visitors idle for more than 15 minutes |
| `RateLimit.RateRoundTrip` | internal/transport/middleware/ratelimit.go:49-70 | every positive count with "s", "m" or "h", padded with any white space, is read back as so many per 1, 60 or 3600 seconds |
| `RateLimit.ParseRate` | internal/transport/middleware/ratelimit.go:49-70 | an accepted rate has a positive count and a window of 1, 60 or 3600 seconds |
| `V2Ray.UnmarshalInverts` | internal/services/stats/v2ray.go:154-220 | every valid encoding is read as the statistics it carries: known fields any number of times and in any order, the last one counting, unknown fields of any wire type anywhere, varints of any permitted size |
| `V2Ray.UnmarshalExactly` | internal/services/stats/v2ray.go:154-220 | and nothing else is accepted: the parser answers a list of statistics if and only if the bytes are a valid encoding that carries it |
| `V2Ray.ResponseAccepted` | internal/services/stats/v2ray.go:154-186 | bytes that are accepted, to the last field nested in a group, are the encoding of some valid response |
| `V2Ray.CanonicalResponse` | internal/services/stats/v2ray.go:154-220 | the encoding proto3 prescribes for a list of statistics is one of these and carries that list |
| `V2Ray.Unmarshal` | internal/services/stats/v2ray.go:154-186 | the loop over the response, with its error cases, computes the specification |
| `V2Ray.ParseStatMessage` | internal/services/stats/v2ray.go:188-220 | the loop over one message computes the specification |
| `V2Ray.StatRead` | internal/services/stats/v2ray.go:188-220 | any valid encoding of a message is read without error; the last name and the last value win, zero values stand in for missing ones |
| `Wire.SkipsUnknown` | internal/services/stats/v2ray.go:179-183 | the reader lands exactly behind every well-formed field, groups nested to the library's limit included |
| `Wire.FieldAccepted` | internal/services/stats/v2ray.go:179-183 | every field value that is skipped is the encoding of a well-formed field, nested no deeper than the library's limit |
| `Wire.VarintRoundTrip` | internal/services/stats/v2ray.go:205-210 | every varint of a uint64, of the shortest size or padded, is read back and nothing behind it is touched |
| `Wire.VarintAccepted` | internal/services/stats/v2ray.go:205-210 | every varint that is accepted is an encoding of the value it is read as |
| `Wire.TagRoundTrip` | internal/services/stats/v2ray.go:161-165 | every field number and type is read back |
| `Wire.BytesRoundTrip` | internal/services/stats/v2ray.go:167-171 | every length-delimited value is read back |
| `UserStats.UserStatRecoveredIff` | internal/services/stats/v2ray.go:104-114 | of "user>>>NAME>>>traffic>>>uplink" the name and direction are recovered exactly for the names that hold no ">>>" and do not end in ">" |
| `UserStats.SeparatorInNameIsLost` | internal/services/stats/v2ray.go:104-114 | a name with ">>>" in it is misread |
| `UserStats.UserDeltas` | internal/services/stats/v2ray.go:54-90 | succeeds exactly when the response can be decoded; each user mentioned is reported once with exact sums per direction |
| `UserStats.DeltasAreCounters` | internal/services/stats/v2ray.go:54-90 | from the core's counters through any valid encoding to the deltas: the counted users, with exact sums |
| `LogBuffer.WriteAll` | internal/services/logbuf/logbuf.go:137-153 | however a stream is split into writes, the buffer and the retained tail depend on the stream alone |
| `LogBuffer.LineWriter.Write` | internal/services/logbuf/logbuf.go:137-153 | appends exactly the non-empty terminated lines with trailing CRs stripped, and keeps exactly the unterminated tail |
| `LogBuffer.LinesOfConcat` | internal/services/logbuf/logbuf.go:141-151 | cutting a stream in two loses and invents no line |
| `LogBuffer.LinesCutTheStream` | internal/services/logbuf/logbuf.go:141-151 | the lines with their newlines and the tail are the stream, and none contains a newline |
| `LogBuffer.OnlyOneCut` | internal/services/logbuf/logbuf.go:141-151 | there is only one such way to cut a stream |
| `LogBuffer.Buffer.AppendEntry` | internal/services/logbuf/logbuf.go:55-73 | the buffer stays the last max entries of everything appended, numbered consecutively |
| `LogBuffer.StoredIs` | internal/services/logbuf/logbuf.go:55-73 | the entry as stored: its number, level "info" and source "panel" where none is given, the redacted text |
| `LogBuffer.Buffer.Recent` | internal/services/logbuf/logbuf.go:77-99 | the last limit entries of the buffer that pass the filters |
| `LogBuffer.FilterExact` | internal/services/logbuf/logbuf.go:83-94 | filtering keeps every selected entry, at its rank among the selected, and nothing else |
| `LogBuffer.QueryIff` | internal/services/logbuf/logbuf.go:101-115 | the query matches exactly the entries with the text in their message, level or source, letter case aside |
| `LogBuffer.DetectLevelIff` | internal/services/logbuf/logbuf.go:155-175 | the level a line is filed under |
| `RotateLog.LogIsSuffix` | cmd/main.go:511-548 | after any writes the files read from oldest to newest are a suffix of everything ever written, gaps among the backups or not |
| `RotateLog.LogHoldsLastSegments` | cmd/main.go:511-548 | from a gap-free directory the files are exactly the newest segments of the log, cut only at rotations |
| `RotateLog.LogIsLastSegments` | cmd/main.go:534-541 | those are the last backups + 1 segments, each whole |
| `RotateLog.SegmentSizes` | cmd/main.go:528-530 | every segment begun since is at most max bytes or one single write |
| `RotateLog.RotateDropsOldest` | cmd/main.go:531-547 | a rotation starts an empty file and loses at most the oldest one |
| `RotateLog.ShiftKeeps` | cmd/main.go:534-538 | the descending renames move every backup up by one, in order |
| `RotateLog.RotateWriter.Write` | cmd/main.go:511-518 | rotates if needed, then appends the bytes |
| `RotateLog.RotateWriter.RotateIfNeeded` | cmd/main.go:520-548 | rotates exactly when the write would not fit |
| `Process.NoStrayProcess` | internal/services/singbox/process.go:284-350 | in every interleaving of starts, stops, restarts, exits and late reaps, a process neither exited nor sent SIGTERM is the tracked one, so there is at most one, and no error is shown beside it |
| `Process.KeptUntilStoppedOrExited` | internal/services/singbox/process.go:380-393 | a tracked process is let go only by its own SIGTERM or after its own exit; a stale reap changes neither it nor the error |
| `Process.ExitIsNoticed` | internal/services/singbox/process.go:380-393 | the exit of the tracked process always has a reap waiting for it |
| `Process.StepKeepsInv` | internal/services/singbox/process.go:284-393 | every critical section keeps the invariant |
| `Process.SubprocessManager.Start` | internal/services/singbox/process.go:284-326 | does nothing when running; otherwise its steps are those of the machine, with exits during the settle time; it fails exactly when no process is left tracked, with the error of the failed start or the exit message |
| `Process.SubprocessManager.Stop` | internal/services/singbox/process.go:328-340 | signals and lets go of the tracked process, or fails and changes nothing |
| `Process.SubprocessManager.Restart` | internal/services/singbox/process.go:342-350 | the old process has been signalled before a new one is tracked |
| `Process.SubprocessManager.Reap` | internal/services/singbox/process.go:380-393 | records the exit of the tracked process, and leaves a newer one alone |
| `Process.ExitMessageNonEmpty` | internal/services/singbox/process.go:434-451 | an exit is never reported as an empty message |
| `Process.ExitMessageExact` | internal/services/singbox/process.go:434-451 | it is the whole text when that fits 4096 bytes, else what is left of the last 4096 without leading white space |
| `Process.BoundedLogWriter.Write` | internal/services/singbox/process.go:415-426 | the buffer is the last max bytes of all writes, and the sink gets all of them |
| `Notification.LevelsIncrease` | internal/services/notification/service.go:298-320 | between resets the levels emitted for a key strictly increase |
| `Notification.AtMostOnePerLevel` | internal/services/notification/service.go:309-312 | so there is at most one warning and one terminal notification |
| `Notification.FullQueueOnlyDelays` | internal/services/notification/service.go:316-318 | however many observations of its key find the queue full or the state unreadable, a transition that is not undone meanwhile is emitted at the first observation that finds room, and not before |
| `Notification.KeysIndependent` | internal/services/notification/service.go:298-320 | what happens at a key is what would happen if no other key were observed |
| `Notification.FailuresFiveMinutesApart` | internal/services/notification/service.go:280-295 | identical failures of one event type, with no different one between, are reported at least five minutes apart, from the second clock reading to the next check |
| `Notification.FailureRepeatedIff` | internal/services/notification/service.go:280-295 | after a report the next one of its type is told exactly when the reason is another or five minutes have passed, and there is room |
| `Notification.Service.ObserveClient` | internal/services/notification/service.go:231-265 | the quota transition, then, if that went well, the expiry transition, in the state and the queue the first one left; the messages queued are theirs, in this order |
| `Notification.Service.ObserveEvent` | internal/services/notification/service.go:298-320 | one observation with every failure of the store and a full queue, against the specification |
| `Notification.Service.NotifyFailure` | internal/services/notification/service.go:268-296 | one failure report, with its cooldown, against the specification |
| `Notification.Service.Enqueue` | internal/services/notification/service.go:322-333 | queues exactly when a channel is enabled and there is room |
| `Notification.Service.TakeDelivery` | internal/services/notification/service.go:135-150 | every message queued is delivered once and in order, or still waits in a queue within its capacity |
| `Notification.TerminalIffMustExpire` | internal/services/notification/service.go:238-262 | a terminal notification is due exactly for the clients enforcement disables |
| `Notification.QuotaLevelIs` | internal/services/notification/service.go:238-246 | the quota level in the row's own figures: terminal when both counters together reach the quota, a warning exactly from the configured share on, although the code truncates a quotient, else none |
| `Notification.ExpiryLevelIs` | internal/services/notification/service.go:248-262 | the expiry level likewise: terminal after the moment, a warning within the configured hours before it |
| `Notification.LevelsOnlyRise` | internal/services/notification/service.go:238-262 | more usage or a later moment never lowers a level |
| `Migrator.Database.Migrate` | internal/repo/migrator/migrator.go:79-181 | over any sequence of runs stopping anywhere, every recorded migration has run exactly once, in ascending order within a run; nil means all embedded versions are recorded; a further run is a no-op; duplicates abort before any migration runs |
| `Migrator.Database.ApplyOne` | internal/repo/migrator/migrator.go:151-171 | schema and record change together or not at all, and never for a recorded version |
| `Migrator.AppliedOneMore` | internal/repo/migrator/migrator.go:156-171 | one more commit keeps "the schema is the fold of the recorded migrations, each once" |
| `Migrator.LoadMigrations` | internal/repo/migrator/migrator.go:30-77 | succeeds exactly when every migration file is readable and no version repeats; the result is those migrations in ascending order |
| `Migrator.VersionRead` | internal/repo/migrator/migrator.go:45-56 | the leading number of a file name, padded with any zeros, is its version |
| `Migrator.SortAscending` | internal/repo/migrator/migrator.go:72-74 | distinct versions sort strictly |
| `Version.VectorOrder` | internal/services/updater/service.go:281-297 | the order of zero-padded component vectors is irreflexive, asymmetric, transitive, ties are transitive, and a tie is what is left when neither is greater |
| `Version.StrictWeakOrder` | internal/services/updater/service.go:275-297 | so the comparison is a strict weak order on the versions that parse, and two of them tie exactly when all zero-padded components agree |
| `Version.VersionGreater` | internal/services/updater/service.go:275-297 | the loop decides the lexicographic order of the zero-padded component vectors |
| `Version.TiedIff` | internal/services/updater/service.go:281-296 | a tie is a difference in trailing zero components only |
| `Version.BothGreaterIff` | internal/services/updater/service.go:278-280 | each of two versions counts as newer than the other exactly when one does not parse and both are non-empty and different |
| `Version.SuffixIgnored` | internal/services/updater/service.go:299-302 | whatever follows the first "-" does not count |
| `Version.VersionPartsOf` | internal/services/updater/service.go:299-315 | the loop returns the components, or none when one is not a number |
| `Version.VersionRoundTrip` | internal/services/updater/service.go:299-315 | dotted numbers, with or without "v" and any white space around, are read as these numbers |

## Left out

- LoopConserves: in the snapshots a connection id keeps its first hop until its counter drops, as the core gives every connection an id of its own; `CountersConserved` is the form without that.
- ClientPaysForItsConnections: a connection id belongs to one client, and the client has no namesake with a smaller id; `CreditedToOwnRowIff` is the exact condition for the latter.
- EveryClientOwnOutbound: needs unique names among the compiled clients, as the index on local names gives them; `OwnOutboundIff` is the condition without it.
- RendersOneIntervalAfterLastTake: once another caller takes the mutex the interval is no longer exact; `WaitsOnlyForOthers` says that nothing else delays the render.
- LevelsIncrease: the state write after the earlier emission succeeded; a failed one makes the call fail, and the notification may be repeated.
- FailuresFiveMinutesApart: the same, and a clock that does not run backwards.
- AdmissionsBounded: calls reach the mutex in the order of their time stamps.
- BulkClients: that every changeable client is changed is stated for remote ids spelled as a panel spells its own ids, which is what a sync stores.
- LogIsSuffix: no I/O errors; a rename that fails although its file exists is ignored by the source and can break the suffix.
- The web frontend, HTTP plumbing, JSON, cookies, authentication, settings, scheduler, system statistics, SMTP, Telegram and GitHub clients.
- Key generation, UUIDs, certificates and hashes: their results are parameters; a Reality key pair is any pair of a given relation.
- SQLite: maps with transactions as atomic steps that may fail. Foreign keys and cascades are not modelled; a violated unique index of a cached row is one of the failures of its write.
- `created_at`, `updated_at` and `last_synced_at` columns; `last_used_at` after a credit is the tick's time, where the database takes its own clock.
- Counter overflow: byte counters are mathematical integers; the decoded int64 values of the statistics and the uint64 log numbering are exact.
- Float rounding in the token bucket and in the used-quota percentage: exact reals and exact quotients.
- Concurrency inside one tick of the accounting loop, inside one notification and inside one sync: each runs to its end. Requests that edit clients between two ticks are covered by `Quota`, not by the run theorem of `Accounting`, which keeps the table's ids and names fixed.
- The scheduled delete action, which writes without triggering, is not one of the mutators of `Debounce`. Cancellation is not a step.
- Generator: the handshake destination of Reality, log level and experimental block are not compiled; they carry no client.
- The share links and the single-inbound subscription format: text building over the URL library.
- The log tailer, whose unterminated last lines lack chunk invariance, and log redaction patterns; which field names are sensitive and how letters change case are parameters of `LogBuffer`.
- V2Ray: the gRPC call and the request encoding; only the response is decoded.
- Process: systemd mode and the status query; delivery of SIGTERM is a parameter, and what a signalled process does afterwards is its own.
- Notification: delivery by the channels, and messages lost with the process between queueing and delivery.
- Bulk requests on a panel without node support, where every remote id is refused, behave as requests to unknown nodes.
- Deleting, creating or editing single remote clients and inbounds through their node: one remote call followed by the upsert modelled in `Sync`.
- Version: the download and the update script.
