# Verified models of the API's protocols

Dafny models of the parts of the API in which several requests, workers or streams share state, with proofs of what
those parts promise. `dafny verify dfyconfig.toml` checks everything.

## What is modelled

**Releases.** A release row holds version parts, a variant, an owning application and a `revision`, which is null while
the release is a draft. A POST or PATCH gives finalized releases the next free revision of their key (application,
version core, prerelease, variant) under a per-application advisory lock; a PATCH that changes a key first takes the old
revisions away and renumbers afterwards, by application and variant. `Releases.dfy` is the table and the pure parts of
the hooks; `ReleaseSelection.dfy` the query by which a PATCH selects releases; `ReleaseHooks.dfy` the hooks as they run,
loop by loop; `ReleaseWrites.dfy` what a PATCH and a POST leave, in the fields of the rows; `Renumbering.dfy` what their
numbering means; `RevisionProtocol.dfy` and `RevisionProperties.dfy` any number of concurrent requests, one event per awaited call; `RevisionCommits.dfy` what their commits leave;
`RevisionSchedules.dfy` ties the two, for any interleaving of the groups of a request; `RevisionRuns.dfy` has the runs of
whole requests, and `BuildPatches.dfy` and `RawVersionNames.dfy` what PATCHes of build metadata do to raw versions.
`SemverText.dfy` prints and parses versions, `SqlText.dfy` gives the SQL expression trees of the computed fields a meaning
(with NULL), and `RawVersion.dfy` shows what the fields print. `Grouping.dfy` is `groupByMap`. `TrackLatest.dfy` is the hook that keeps the target release of an application at its latest trackable
release, through the nested PATCHes of the versioning hooks.

**Device heartbeat.** The heartbeat state in the database, a write cache that may forget, and a queue of delayed
messages move a device through Online, Timeout and Offline. `Heartbeat.dfy` has one step per handler, `HeartbeatAwait.dfy`
one step per await.

**Device logs.** `LogWriter.dfy` batches incoming lines under back-pressure, in a buffer that `publish` shares;
`RedisLogs.dfy` is the capped list with its pub/sub fan-out and the counter of listening instances; `LogReader.dfy` merges
history with live lines and accounts for the lines a slow reader misses.

**Service installs.** `ServiceInstalls.dfy`: time-limited runs that queue what is left for a follow-up run.

**Host OS targets.** `HostApp.dfy`: the target OS release of a device is never older than the version it reports.

**Image installs.** `ImageInstall.dfy`: reports pass a throttle whose memory may be lost, beside an unthrottled writer.

Each imperative part exists twice: as a class whose methods change fields and loop like the source, and as functions on
values; every method is proved to do what its function says, and the properties are proved of the functions. What each function
does is also said without it, in the fields of the state, by lemmas named in the table.

## Main results

- Over every interleaving of POSTs and PATCHes no two finalized releases share key and revision:
  `RevisionProtocol.NoDuplicateRevisions`; without re-keying the revisions of a key are exactly 0 to n-1:
  `RevisionProperties.RevisionsAreInitialSegment`; the locks never deadlock: `SomeRequestIsNotBlocked`.
- However the groups of a request read and write, it numbers its selection as one release at a time would:
  `RevisionSchedules.InterleavingIsRenumber`; so do the nested loops as written: `ReleaseHooks.ReleaseRequest.Patch`.
  What that leaves in each row is `ReleaseWrites.PatchMeaning`.
- Two finalized releases print the same raw version exactly if their versions without build and their tagged builds are
  equal: `RawVersion.RawTextIff`; the SQL expression prints that text: `RawVersionMeaning`. Over any sequence of POSTs and
  PATCHes of build metadata raw versions stay unique for good exactly if every PATCH is free and leaves room:
  `RawVersionNames.NamesLastIff`.
- The target of a tracking application is its latest trackable release after any run: `TrackLatest.TargetIsLatestTrackable`.
- A device that polls in time stays Online exactly if no orphaned message of it is consumed: `Heartbeat.StaysOnlineIff`; in
  time means more often than its own timeouts: `FrequentPollsStayOnline`.
- No log line is lost unaccounted: `LogWriter.RunConserves`, `LogReader.StreamIsAccounted`,
  `RedisLogs.HistoryRefinesUnboundedLog`; nothing is lost at all while writes are accepted: `LogReader.AcceptedLinesAreWritten`.
- A chain of timed-out install runs leaves nobody out: `ServiceInstalls.ChainLeavesNobodyOut`.
- No run of PATCHes with numeric targets leaves a device a target older than its reported version, whatever the release
  search answers: `HostApp.TargetsStayCurrent`.
- A throttled image install always shows the status and release of an unthrottled one, and 100% when that does:
  `ImageInstall.StatusAlwaysAgrees`, `MilestonesAreExact`.

## Where the code falls short of its promise

Each of these is a lemma that gives the failing input or run, next to one that says when the promise holds.

- A PATCH that changes only build metadata is not checked against the revision, and can make two releases print the same
  raw version, at once or at a later ordinary POST. Failing runs from the empty table: `BuildPatches.BuildOnlyPatchCanClash`,
  `RawVersionNames.FreePatchCanClashLater`. Exact condition on the new build and the other finalized releases for the table
  right after the PATCH: `BuildPatches.NamesStayUniqueIff`; for it and all following POSTs:
  `RawVersionNames.PatchLastsOverPostsIff`; for one POST: `PostKeepsNamesIff`.
- With no cache timeout a race leaves the database Offline and the cache Online for as long as the device polls:
  `HeartbeatAwait.DriftIsReachable`, `DriftLasts`; with one, a poll later than the timeout corrects it unless another Online
  write came first: `PollSkipsOnlyAfterRecentOnline`.
- A cache entry lost early, or a failing delete that the code ignores, times out a device that polls in time:
  `Heartbeat.LostEntryTimesOutPunctualDevice`, `FailedDeleteTimesOutPunctualDevice`; it leaves Online exactly in the steps of
  `LeavesOnlineIff`.
- After a failed publish a log stream never flushes again: `LogWriter.WedgedForEver`; it is stuck exactly if one failed:
  `FlushesNeverOverlap`.
- Lines with the time stamp of the last history line are missing from the burst: `LogReader.BurstIsContiguousIff`; a
  subscription repeats a line exactly if it lags behind the history, by no more lines than the limit:
  `LaggingSubscriptionRepeats`.
- A reader that came while Redis was down decrements a counter it never incremented, and silences others:
  `RedisLogs.UnmatchedUnsubscribeSilencesOthers`; the counter goes wrong exactly as `UnsubscribeKeepsInStepIff` says. The counter
  then is one short until nobody is counted for a moment, and the key is missing exactly while it is short and a single
  instance listens: `KeyAfterUnmatchedUnsubscribeIff`.
- A hostApp target given as text skips the downgrade check: `HostApp.TextTargetDowngrades`, `TextTargetIsUnchecked`. A device
  without a target cannot report a version for which the search finds an unacceptable release: `ReportIsRefusedIff`.
- The end of a download that the throttle has not seen is not stored within the report interval:
  `ImageInstall.UnseenProgressStaysShown`, `ProgressAgreesIff`. A report repeated after a deletion may not be stored:
  `DeletedDownloadIsNotStored`, `RepeatedReportStaysDeleted`.

## Model

| member | source | states |
|---|---|---|
| Grouping.GroupByMap | src/lib/utils.ts:144-156 | the groups are a partition: distinct keys in order of first occurrence, every entry in the group of its key, order kept |
| SemverText.SemverRoundTrip | src/features/ci-cd/models/release-additions.ts:51-68 | printing stored parts and parsing the text (items 2, 9 and 10 of Semantic Versioning 2.0.0, 256 characters, safe integers) gives the same parts |
| SemverText.ParsedVersionsAreStorable | src/features/ci-cd/hooks/release-versioning.ts:102-112 | every version the parser accepts survives being stored as parts |
| SemverText.ParseIff | src/features/ci-cd/hooks/release-versioning.ts:98-112 | a text of at most 256 characters parses to a version exactly if, without the white space around it and a leading `v`, it is how that version prints, and the version is within the ranges and alphabets of Semantic Versioning 2.0.0 |
| SemverText.TrimMeaning | src/features/ci-cd/hooks/release-versioning.ts:98-112 | white space is taken away at both ends, and nothing else |
| SemverText.IdentifiersAreShort | src/features/ci-cd/hooks/release-versioning.ts:98-112 | no identifier of an accepted version has more than 250 characters |
| Releases.NextRevisionIsNext | src/features/ci-cd/hooks/release-versioning.ts:62-91 | the next revision is unused, above all used ones of the key, and 0 or one above a used one |
| Releases.NumberingMatchesRow | src/features/ci-cd/hooks/release-versioning.ts:384-402 | the key re-derived from the body or the printed semver is the key stored in the updated row |
| Releases.BuildAgreesIff | src/features/ci-cd/hooks/release-versioning.ts:144-157 | the check passes exactly if every build part that is `rev` and digits spells the revision out |
| Releases.SelectsIff | src/features/ci-cd/hooks/release-versioning.ts:209-252 | a PATCH selects the drafts that it finalizes, and the finalized releases of which a key field differs after the main UPDATE |
| Releases.GroupsFacts | src/features/ci-cd/hooks/release-versioning.ts:327-348 | the nested grouping is a partition of the selection by application and variant |
| ReleaseSelection.UniqueConstraintPartFilters | src/features/ci-cd/hooks/release-versioning.ts:220-247 | the filters match exactly the finalized releases of which application, version core, prerelease or variant differ after the main UPDATE: not those that the body sets to what they are |
| ReleaseSelection.Query | src/features/ci-cd/hooks/release-versioning.ts:257-285 | returns each affected release that matches a filter once, by application, finalization date with drafts last, and id |
| ReleaseSelection.SelectionIsUnique | src/features/ci-cd/hooks/release-versioning.ts:257-285 | table, ids and body determine the selection, order included |
| RevisionProtocol.RunKeepsInv | src/features/ci-cd/hooks/release-versioning.ts:159-425 | every run of any requests keeps the protocol invariant: visible revisions unique, pending ones unused, only lock holders number |
| RevisionProtocol.NoDuplicateRevisions | src/features/ci-cd/hooks/release-versioning.ts:62-91 | over every interleaving of POSTs and PATCHes no two committed finalized releases share key and revision |
| RevisionProtocol.CommitDecidesFinality | src/features/ci-cd/hooks/release-versioning.ts:209-326 | a committed PATCH finalizes what it was asked to, turns no finalized release into a draft, and leaves other drafts drafts, whichever PRERUN check comes first |
| RevisionCommits.CommitMeaning | src/features/ci-cd/hooks/release-versioning.ts:209-425 | over every interleaving, in the fields of the rows: a commit leaves each affected release with the fields of the body and with its revision if its key stays the same, and others as they were; a request for drafts commits only if the finalized releases it affects are moved to another key |
| RevisionCommits.ReadHandsOut | src/features/ci-cd/hooks/release-versioning.ts:352-417 | a read hands out the next revision of the key in the updated row: to a whole group that gets a new version, counting up, and otherwise to one release |
| RevisionProperties.RevisionsAreInitialSegment | src/features/ci-cd/hooks/release-versioning.ts:88-90 | in runs of POSTs and finalizations the n finalized releases of a key carry exactly 0 to n-1 |
| RevisionProperties.RunKeepsContiguous | src/features/ci-cd/hooks/release-versioning.ts:62-91 | in such runs the committed revisions of each key have no gap |
| RevisionProperties.UpdateKeepsTagsIff | src/features/ci-cd/hooks/release-versioning.ts:144-157 | an UPDATE keeps every `revN` build part equal to the revision exactly when the new build fits the releases that stay finalized |
| RevisionProperties.RunKeepsTags | src/features/ci-cd/hooks/release-versioning.ts:144-157 | if builds fit, `revN` parts equal revisions in every reachable state |
| RevisionProperties.SomeRequestIsNotBlocked | src/features/ci-cd/hooks/release-versioning.ts:275-282 | taking locks in selection order never deadlocks: some open request is not waiting |
| RevisionProperties.RunKeepsLockOrder | src/features/ci-cd/hooks/release-versioning.ts:336-341 | every open request takes its locks in ascending order of application |
| Renumbering.RenumberAt | src/features/ci-cd/hooks/release-versioning.ts:383-417 | one-by-one numbering gives the n-th release the key's next revision plus the number of earlier releases of its key |
| Renumbering.ScheduleIrrelevant | src/features/ci-cd/hooks/release-versioning.ts:343-423 | two schedules that agree per key assign the same revisions, so groups commute |
| Renumbering.RenumberKeepsUnique | src/features/ci-cd/hooks/release-versioning.ts:290-310 | renumbering releases whose revisions were taken away keeps key and revision unique |
| Renumbering.GroupsAreASchedule | src/features/ci-cd/hooks/release-versioning.ts:327-348 | working through the groups treats the releases of each key in selection order |
| Renumbering.GroupedIsOneByOne | src/features/ci-cd/hooks/release-versioning.ts:327-423 | grouped renumbering gives the same table as numbering the selection one at a time in (application, finalized date, id) order |
| ReleaseWrites.PatchMeaning | src/features/ci-cd/hooks/release-versioning.ts:209-425 | in the fields of the rows: a finalized release whose key a PATCH leaves alone keeps its revision; one that is finalized or moved to another key gets a revision above every other of its new key but those renumbered after it by application, date and id, without a gap below; dates, other fields and other releases are as asked |
| ReleaseWrites.PostMeaning | src/features/ci-cd/hooks/release-versioning.ts:159-197 | a POST adds one row with the fields of the body, above every revision of its key and without a gap below, and changes nothing else |
| RevisionSchedules.InterleavingIsRenumber | src/features/ci-cd/hooks/release-versioning.ts:343-423 | for any interleaving of the reads and assignments of a request, with each other and with other requests, the rows it commits are those of numbering its selection one at a time; finalization dates are set exactly where that was asked for and there was none |
| ReleaseHooks.ReleaseRequest.SetReleasesToSetRevision | src/features/ci-cd/hooks/release-versioning.ts:209-311 | through every early return: the selection is exactly the drafts that become final and the finalized releases of which a key field changes, in query order, and exactly the finalized ones among them lose their revisions |
| ReleaseHooks.ReleaseRequest.RunPrerun | src/features/ci-cd/hooks/release-versioning.ts:313-320 | both PRERUN hooks in either order: whether they pass, and the selection and table they leave |
| ReleaseHooks.ReleaseRequest.PreventChangingFinalToDraft | src/features/ci-cd/hooks/release-versioning.ts:32-60 | passes exactly if no draft is asked for or no affected release is finalized |
| ReleaseHooks.ReleaseRequest.NumberWithVersion | src/features/ci-cd/hooks/release-versioning.ts:352-379 | `nextRevision + index` equals one-by-one numbering, and fails exactly if some `revN` part would disagree |
| ReleaseHooks.ReleaseRequest.NumberOneByOne | src/features/ci-cd/hooks/release-versioning.ts:380-419 | the loop equals one-by-one numbering, and fails exactly if some `revN` part would disagree |
| ReleaseHooks.ReleaseRequest.NumberNext | src/features/ci-cd/hooks/release-versioning.ts:383-417 | one turn of that loop: the printed semver parses, and the release gets what its turn gives it |
| ReleaseHooks.ReleaseRequest.NumberSelection | src/features/ci-cd/hooks/release-versioning.ts:321-424 | both grouping loops together equal one-by-one numbering of the selection |
| ReleaseHooks.ReleaseRequest.NumberApp | src/features/ci-cd/hooks/release-versioning.ts:343-421 | the variants of one application, numbered group by group |
| ReleaseHooks.ReleaseRequest.Patch | src/features/ci-cd/hooks/release-versioning.ts:313-425 | for either order of the PRERUN checks: exactly when a PATCH succeeds, that it numbers its selection as one release at a time would, uniqueness, and all that `ReleaseWrites.PatchMeaning` says of the table |
| ReleaseHooks.ReleaseRequest.Post | src/features/ci-cd/hooks/release-versioning.ts:159-197 | when a POST succeeds, that revisions stay unique, and all that `ReleaseWrites.PostMeaning` says of the table |
| SqlText.BuildSqlConcat | src/abstract-sql-utils.ts:120-153 | the pushing loop with the one-line transformer builds the expression of the template, empty strings left out |
| SqlText.OneLineMeaning | src/abstract-sql-utils.ts:150-153 | the transformer leaves no line break, and keeps everything printed in order |
| SqlText.OneLineDropsBreaks | src/abstract-sql-utils.ts:150-153 | a stretch of white space disappears whole if it has a line break, and stays as it is otherwise |
| SqlText.TemplateMeaning | src/abstract-sql-utils.ts:120-153 | a template of non-NULL expressions evaluates to its strings, each on one line, and their texts in turn |
| SqlText.JoinedPartsMeaning | src/abstract-sql-utils.ts:163-208 | exactly the shown parts are joined, behind the prefix exactly when a part is shown, under three-valued logic |
| SqlText.LikeIsContains | src/features/ci-cd/models/release-additions.ts:101-105 | LIKE with a pattern between two `%` is substring search when the text has no wildcard |
| SqlText.DottedSearch | src/features/ci-cd/models/release-additions.ts:101-105 | searching `.tag.` in `.list.` is membership of the tag in the dot-split list |
| RawVersion.SemverFieldMeaning | src/features/ci-cd/models/release-additions.ts:51-78 | the `semver` expression prints the stored parts |
| RawVersion.LikeIsMembership | src/features/ci-cd/models/release-additions.ts:96-107 | the build test is true exactly if the revision is positive and `revN` is no build identifier |
| RawVersion.RawVersionMeaning | src/features/ci-cd/models/release-additions.ts:89-131 | the `raw version` expression of any draft or finalized release |
| RawVersion.RawTextSpelled | src/features/ci-cd/models/release-additions.ts:89-131 | that text spelled out: core, then prerelease and milliseconds of a draft behind a dash, then build, a positive revision that the build does not mention, and variant behind a plus |
| RawVersion.CreatedAtMeaning | src/features/ci-cd/models/release-additions.ts:80-87 | seconds times a thousand, rounded down and cast, print the whole milliseconds |
| RawVersion.RawTextIff | src/features/ci-cd/models/release-additions.ts:89-131 | without any assumption on tags: two finalized releases of a variant print alike exactly if their parts without build and their builds with the appended revision are equal |
| RawVersion.RawTextInjective | src/features/ci-cd/models/release-additions.ts:89-131 | for finalized releases of one variant with honest `revN` parts, equal printed texts mean equal key parts and revision |
| RawVersion.RawVersionInjective | src/features/ci-cd/models/release-additions.ts:109-131 | the same for the value of the `raw version` expression |
| RawVersion.RawVersionIdentifiesRelease | src/features/ci-cd/models/release-additions.ts:109-131 | in every reachable state where builds fit, two finalized releases of an application and variant with equal raw versions are the same release |
| BuildPatches.ClashIff | src/features/ci-cd/hooks/release-versioning.ts:221-230 | exactly which two finalized releases of a key print alike after a PATCH of build metadata |
| BuildPatches.NamesStayUniqueIff | src/features/ci-cd/hooks/release-versioning.ts:221-230 | right after such a PATCH raw versions are unique exactly if the new build is free: a condition on it and on the revisions and builds of the finalized releases of the keys concerned |
| BuildPatches.BuildOnlyPatchIff | src/features/ci-cd/hooks/release-versioning.ts:313-325 | such a PATCH always goes through as a run of the protocol, at whose end raw versions are unique exactly under that condition |
| BuildPatches.BuildOnlyPatchCanClash | src/features/ci-cd/hooks/release-versioning.ts:221-230 | a legal run from the empty table, two POSTs and a build-only PATCH, after which two releases print alike |
| RawVersionNames.PostKeepsNamesIff | src/features/ci-cd/hooks/release-versioning.ts:159-197 | a POST of a final release keeps raw versions unique exactly if no release of revision 0 of its key already has the build that the new one prints; tags need not be honest |
| RawVersionNames.PatchKeepsNamesIff | src/features/ci-cd/hooks/release-versioning.ts:221-230 | the condition for a PATCH of build metadata on any table, honest tags or not |
| RawVersionNames.PostsKeepNamesIff | src/features/ci-cd/hooks/release-versioning.ts:62-91 | no following POSTs can make two releases print alike exactly if no release of revision 0 announces a revision that its key has still to give |
| RawVersionNames.PatchKeepsNamesLastingIff | src/features/ci-cd/hooks/release-versioning.ts:221-230 | a PATCH of build metadata keeps that exactly if its build is free and leaves room |
| RawVersionNames.PatchLastsOverPostsIff | src/features/ci-cd/hooks/release-versioning.ts:144-157 | exactly then raw versions stay unique over all following POSTs |
| RawVersionNames.NamesLastIff | src/features/ci-cd/models/release-additions.ts:109-131 | the same over any sequence of POSTs and PATCHes of build metadata |
| RawVersionNames.SoundFreeIff | src/features/ci-cd/hooks/release-versioning.ts:144-157 | where tags are honest the two conditions on the build agree |
| RawVersionNames.ChangesRun | src/features/ci-cd/hooks/release-versioning.ts:159-425 | every such sequence is a legal run of the protocol |
| RawVersionNames.FreePatchCanClashLater | src/features/ci-cd/hooks/release-versioning.ts:221-230 | a legal run from the empty table in which a PATCH with a free build makes a later POST print the same raw version |
| RevisionRuns.UnselectedPatchRuns | src/features/ci-cd/hooks/release-versioning.ts:249-252 | a PATCH that selects nothing goes through unchecked and leaves what its main UPDATE wrote |
| RevisionRuns.FinalPostRuns | src/features/ci-cd/hooks/release-versioning.ts:159-197 | a final POST whose `revN` parts do not contradict the next revision goes through on its own, and leaves the row with that revision |
| TrackLatest.TrackingHooks.UpdateLatestRelease | src/features/ci-cd/hooks/track-latest-release.ts:14-69 | every tracking application that owns one of the releases and has a trackable one targets the last started; no other changes |
| TrackLatest.TrackingHooks.FindLatest | src/features/ci-cd/hooks/track-latest-release.ts:28-35 | the chosen release is trackable and none started later |
| TrackLatest.PatchKeepsTargets | src/features/ci-cd/hooks/track-latest-release.ts:71-82 | a PATCH keeps targets at the latest trackable release through its nested PATCHes, wherever its own hook falls among them |
| TrackLatest.PostKeepsTargets | src/features/ci-cd/hooks/track-latest-release.ts:84-113 | so does a POST, final or draft |
| TrackLatest.TargetIsLatestTrackable | src/features/ci-cd/hooks/track-latest-release.ts:14-113 | after any run every tracking application with a trackable release targets the one with the greatest start timestamp |
| TrackLatest.TargetStartedLast | src/features/ci-cd/hooks/track-latest-release.ts:21-36 | the same in the fields of the rows: the target is finalized, successful, not invalidated and passes its tests, and no such release of the application started later |
| TrackLatest.HookChangesOnly | src/features/ci-cd/hooks/track-latest-release.ts:14-69 | the hook touches only tracking applications that own one of the releases, and only their targets |
| TrackLatest.UntrackedKeepTarget | src/features/ci-cd/hooks/track-latest-release.ts:14-69 | over any run an application that does not track keeps its target |
| Heartbeat.DeviceOnlineStateManager.ScheduleChangeOfStateForDevice | src/features/device-heartbeat/index.ts:385-435 | replaces the message, or keeps the old one too if its delete fails, carries the time stamp over, and caches the state |
| Heartbeat.DeviceOnlineStateManager.CaptureEventFor | src/features/device-heartbeat/index.ts:468-500 | the whole effect of a poll, with and without a cache timeout; `PollQueuesTimeout` spells it out |
| Heartbeat.DeviceOnlineStateManager.ConsumeMessage | src/features/device-heartbeat/index.ts:292-369 | the whole effect of a consumed message, and none if the database update fails |
| Heartbeat.RunKeepsInv | src/features/device-heartbeat/index.ts:292-500 | for any lag, failures and cache losses: Online and Timeout imply a queued message, and a cached state is the database state |
| Heartbeat.PollAlwaysLeavesOnline | src/features/device-heartbeat/index.ts:473-499 | in every reachable state a poll leaves the device Online, and writes if it was not |
| Heartbeat.ConsumeLowersMeasure | src/features/device-heartbeat/index.ts:316-361 | twice the Timeout messages plus the Offline messages falls with each successful consume |
| Heartbeat.QuietRunDrains | src/features/device-heartbeat/index.ts:292-369 | without polls consumes are bounded by that measure, and once the queue is empty every known device is Offline and its next poll writes |
| Heartbeat.QueuedMessageCanBeConsumed | src/features/device-heartbeat/index.ts:292-369 | until the queue is empty some consume makes progress |
| Heartbeat.TimelyRunHasNoOrphans | src/features/device-heartbeat/index.ts:393-434 | if messages are consumed within the 5 s by which the cache outlives them, and polls delete the message they replace, a device's queued messages are exactly the one its entry names |
| Heartbeat.PunctualDeviceStaysOnline | src/features/device-heartbeat/index.ts:492-499 | in a timely run a device that polls before each due time is never written Timeout or Offline; FrequentPollsStayOnline measures from the polls |
| Heartbeat.PollQueuesTimeout | src/features/device-heartbeat/index.ts:492-499 | after a poll the message of the cache entry is a Timeout due exactly the given seconds later, the entry outlives it by 5 s, and the previous message is gone unless its delete failed |
| Heartbeat.TimeoutQueuesOffline | src/features/device-heartbeat/index.ts:316-361 | after a consumed Timeout that message is an Offline due exactly the configured delay later |
| Heartbeat.FrequentPollsStayOnline | src/features/device-heartbeat/index.ts:468-500 | in a timely run a device each of whose polls comes less than the timeout of the one before after it is Online in every state, measured from the polls |
| Heartbeat.WrittenPollSparesDatabase | src/features/device-heartbeat/index.ts:473-490 | after a written Online, polls spare the database for the cache timeout from that write, however often the device polls, and for good without one |
| Heartbeat.OthersAreUntouched | src/features/device-heartbeat/index.ts:292-500 | no event changes the state, entry or messages of another device |
| Heartbeat.LostEntryTimesOutPunctualDevice | src/features/device-heartbeat/index.ts:393-403 | a lost cache entry leaves a message that times out a punctual device; had it not been lost, the poll would have removed it |
| Heartbeat.FailedDeleteTimesOutPunctualDevice | src/features/device-heartbeat/index.ts:394-403 | so does a delete that fails, which the code ignores |
| Heartbeat.LeavesOnlineIff | src/features/device-heartbeat/index.ts:316-361 | in any reachable state, a device that polls in time leaves Online in a step exactly if the step consumes an orphaned message of it |
| Heartbeat.StaysOnlineIff | src/features/device-heartbeat/index.ts:292-500 | over any run, timely or not, a device that polls in time stays Online exactly if no orphaned message of it is consumed |
| HeartbeatAwait.StampsStayReal | src/features/device-heartbeat/index.ts:414-434 | with one step per await, every Online time stamp, cached or carried, is that of a real Online write |
| HeartbeatAwait.UninterruptedPoll | src/features/device-heartbeat/index.ts:468-500 | a poll that nothing interrupts writes Online unless a recent cached Online spares it, and ends with a Timeout message due exactly its timeout later |
| HeartbeatAwait.MisreadPoll | src/features/device-heartbeat/index.ts:468-500 | one whose cache read fails writes Online in any case and leaves the message of the entry it replaces behind |
| HeartbeatAwait.MisreadTimeout | src/features/device-heartbeat/index.ts:334-361 | so does the rescheduling after a Timeout, which the consumer does not await |
| HeartbeatAwait.PollSkipsOnlyAfterRecentOnline | src/features/device-heartbeat/index.ts:473-490 | a poll deciding more than the cache timeout after a write rewrites Online unless an Online write within the timeout came after it |
| HeartbeatAwait.SkippedWriteIsHarmless | src/features/device-heartbeat/index.ts:476-482 | after a skipped write the database is Online or was written within the cache timeout |
| HeartbeatAwait.RaceDrifts | src/features/device-heartbeat/index.ts:334-361 | a poll that races with the consumer of the Offline message leaves the database Offline and the cache Online |
| HeartbeatAwait.DriftIsReachable | src/features/device-heartbeat/index.ts:292-500 | that state is reachable from the start under every configuration |
| HeartbeatAwait.SilentPollKeepsDrift | src/features/device-heartbeat/index.ts:473-499 | without a cache timeout a poll in that state leaves the database Offline |
| HeartbeatAwait.DriftLasts | src/lib/config.ts:78-87 | without a cache timeout no number of polls corrects it |
| LogWriter.StreamingWriter.OnData | src/features/device-logs/lib/store.ts:208-226 | the whole effect of an incoming line |
| LogWriter.StreamingWriter.OnTimer | src/features/device-logs/lib/store.ts:240-275 | hands over the buffer with the overflow replaced by one warning before it is emptied in place, or reschedules |
| LogWriter.StreamingWriter.OnSettled | src/features/device-logs/lib/store.ts:263-274 | what happens after a publish succeeds or fails |
| LogWriter.StreamingWriter.PublishBackend | src/features/device-logs/lib/store.ts:149-160 | both backends are handed the buffer as it is during the call |
| LogWriter.RunConserves | src/features/device-logs/lib/store.ts:208-275 | the accepted lines are, in order, those of all flushes followed by those still buffered |
| LogWriter.AcceptedAreCounted | src/features/device-logs/lib/store.ts:208-275 | accepted = handed over + sum of the warning counts + buffered |
| LogWriter.LinesPauseIff | src/features/device-logs/lib/store.ts:208-226 | a run of lines pauses a stream exactly if it fills the buffer to its limit or the backend was unavailable at one of the lines |
| LogWriter.PauseIsLiftedByFlush | src/features/device-logs/lib/store.ts:252-262 | a pause ends in the step that hands the buffer over, and in no other |
| LogWriter.UnpausedHasRoom | src/features/device-logs/lib/store.ts:219-226 | over any run the buffer of a stream that is not paused is empty or below its limit |
| LogWriter.FlushesNeverOverlap | src/features/device-logs/lib/store.ts:238-286 | one flush at a time; until a publish fails paused implies buffered implies a flush scheduled or running; the stream is stuck exactly if one failed |
| LogWriter.WedgedForEver | src/features/device-logs/lib/store.ts:264-279 | after a failed publish nothing is handed over any more |
| LogReader.StreamingReader.OnLine | src/features/device-logs/lib/read.ts:126-139 | the whole effect of a line in every state; `SaturatesIff` says when it saturates the stream |
| LogReader.StreamingReader.OnDrainEvent | src/features/device-logs/lib/read.ts:141-162 | the whole effect of a drain; `DrainReopensIff` says when it makes the stream writable |
| LogReader.StreamingReader.OnHeartbeat | src/features/device-logs/lib/read.ts:164-172 | a heartbeat writes a newline or finishes the closing |
| LogReader.StreamingReader.CloseStream | src/features/device-logs/lib/read.ts:174-181 | closing unsubscribes the first time only and stops the heartbeat |
| LogReader.StreamingReader.MergeHistory | src/features/device-logs/lib/read.ts:204-220 | the find, splice, append and trim give the burst |
| LogReader.StreamingReader.OnHistoryRead | src/features/device-logs/lib/read.ts:188-227 | going live sends the whole burst and nothing is dropped |
| LogReader.BurstIsContiguous | src/features/device-logs/lib/read.ts:186-227 | without a tie at the seam the burst is the gap-free, duplicate-free segment up to the last buffered line, cut to the limit |
| LogReader.BurstIsContiguousIff | src/features/device-logs/lib/read.ts:204-220 | it is so exactly if no tie exists or the limit leaves nothing of the history |
| LogReader.LiveLineContinuesBurst | src/features/device-logs/lib/read.ts:186-227 | if the subscription has caught up, the next live line continues the burst without a gap |
| LogReader.LaggingSubscriptionRepeats | src/features/device-logs/lib/read.ts:186-227 | the next live line repeats a line of the burst exactly if the subscription is behind the history by no more lines than the limit |
| LogReader.LiveLinesAreAccounted | src/features/device-logs/lib/read.ts:126-181 | over all interleavings live lines are, in order, written, counted by a warning in their place, or pending; pending only while saturated or closed |
| LogReader.StreamIsAccounted | src/features/device-logs/lib/read.ts:99-232 | a whole stream: burst of history and early lines, then every later line accounted for |
| LogReader.LiveLinesAddUp | src/features/device-logs/lib/read.ts:141-162 | live lines = lines written + sum of the warning counts + `dropped` |
| LogReader.SaturatesIff | src/features/device-logs/lib/read.ts:126-139 | from a writable stream a line goes out, and saturates the stream exactly if its write is refused |
| LogReader.DrainReopensIff | src/features/device-logs/lib/read.ts:141-162 | a drain reopens the stream exactly if nothing was dropped or its warning is accepted |
| LogReader.FullStreamDrops | src/features/device-logs/lib/read.ts:126-139 | after a refused write no line goes out before a drain or the end, and all of them are pending |
| LogReader.AcceptedLinesAreWritten | src/features/device-logs/lib/read.ts:126-162 | if every write is accepted, the lines written are exactly the live lines, without warning or loss |
| RedisLogs.RedisServer.PublishLogs | src/features/device-logs/lib/backends/redis.ts:74-98 | the script appends, trims to the limit, and fans out every line exactly if the subscriber key exists |
| RedisLogs.RedisServer.DecrSubscribers | src/features/device-logs/lib/backends/redis.ts:108-121 | the decrement script, which deletes the key at 0 and below |
| RedisLogs.ListIsNewest | src/features/device-logs/lib/backends/redis.ts:80-83 | the capped list is always the end of the unbounded log |
| RedisLogs.HistoryRefinesUnboundedLog | src/features/device-logs/lib/backends/redis.ts:153-177 | a history is the start-filtered last min(count, limit) lines, for finite, infinite, zero and negative counts |
| RedisLogs.HistoryTakesNewest | src/features/device-logs/lib/backends/redis.ts:153-177 | which stored lines a history takes, for every count |
| RedisLogs.CapKeepsNewest | src/features/device-logs/lib/backends/redis.ts:80-83 | the cap keeps the newest lines, as many as the limit, or all for 0 |
| RedisLogs.StoredInItsMillisecond | src/features/device-logs/lib/backends/redis.ts:299-304 | a stored line is the accepted one with the millisecond that its nanosecond lies in |
| RedisLogs.HistoryIsSuffix | src/features/device-logs/lib/backends/redis.ts:153-177 | for lines in order a history is a suffix of what was published |
| RedisLogs.RedisBackend.AddListener | src/features/device-logs/lib/backends/redis.ts:213-229 | the listener, the increment for the first one, and the heartbeat exactly while there are listeners |
| RedisLogs.RedisBackend.RemoveListener | src/features/device-logs/lib/backends/redis.ts:231-250 | the removal, and the decrement when none is left |
| RedisLogs.KeyExistsIffSomeoneListens | src/features/device-logs/lib/backends/redis.ts:100-121 | for matched unsubscribes and any delay of commands, the subscriber key exists exactly if some instance has a listener |
| RedisLogs.UnsubscribeKeepsInStepIff | src/features/device-logs/lib/backends/redis.ts:231-250 | an unsubscribe keeps the counter right exactly if its instance has a listener |
| RedisLogs.UnmatchedUnsubscribeSilencesOthers | src/features/device-logs/lib/backends/redis.ts:213-216 | a subscribe skipped for lack of connection, then the unsubscribe, deletes the key of the only listening instance |
| RedisLogs.UnmatchedUnsubscribeBreaksKeyIff | src/features/device-logs/lib/backends/redis.ts:108-121 | in the very next state an unmatched unsubscribe has deleted the key of a listener exactly if a single instance is counted |
| RedisLogs.KeyAfterUnmatchedUnsubscribeIff | src/features/device-logs/lib/backends/redis.ts:100-121 | after one unmatched unsubscribe and any matched actions in any interleaving: the counter is one short until nobody is counted for a moment; while it is, the key exists exactly if at least two instances listen, and afterwards exactly if one does |
| ServiceInstalls.Database.InstallMissing | src/features/ci-cd/tasks/service-installs.ts:203-225 | inserts one row for each missing target service, none twice |
| ServiceInstalls.Database.CreateServiceInstalls | src/features/ci-cd/tasks/service-installs.ts:170-230 | the loop with its time limit: rows, total, and the follow-up for what remains |
| ServiceInstalls.Database.PostTasks | src/features/ci-cd/hooks/service-installs.ts:30-46 | one follow-up per batch of devices |
| ServiceInstalls.ChunksCoverAll | src/features/ci-cd/hooks/service-installs.ts:30-46 | the batches are the devices cut into non-empty pieces of at most the batch size |
| ServiceInstalls.EveryDeviceIsInATask | src/features/ci-cd/hooks/service-installs.ts:30-46 | every device is covered exactly if the batch size is positive or there are none |
| ServiceInstalls.RunLeavesNobodyOut | src/features/ci-cd/tasks/service-installs.ts:103-230 | after a run every device has all its target services or is in the follow-up; only target services are added, and none for a device in the follow-up |
| ServiceInstalls.ToDoIff | src/features/ci-cd/tasks/service-installs.ts:103-170 | a run handles exactly the devices that lack a service of any of its devices, not only one of their own |
| ServiceInstalls.FollowUpIff | src/features/ci-cd/tasks/service-installs.ts:171-230 | a follow-up is queued exactly if time is up before the last device, for exactly the devices not handled |
| ServiceInstalls.FollowUpIsSmaller | src/features/ci-cd/tasks/service-installs.ts:174-194 | the follow-up has as many devices fewer as the run handled |
| ServiceInstalls.ChainLeavesNobodyOut | src/features/ci-cd/tasks/service-installs.ts:76-230 | over any chain of timed-out runs every original device has its services or is in a pending follow-up |
| ServiceInstalls.ChainTotals | src/features/ci-cd/tasks/service-installs.ts:171-230 | the totals of a chain add up to the rows it inserted |
| ServiceInstalls.ChainEnds | src/features/ci-cd/tasks/service-installs.ts:173-194 | if each run handles a device the chain ends |
| ServiceInstalls.FinishedChainInstallsAll | src/features/ci-cd/tasks/service-installs.ts:76-230 | a chain that ended has given every device all its services |
| HostApp.DeviceHooks.MaxOsVersion | src/features/hostapp/hooks/target-hostapp.ts:112-122 | the greatest parseable version of the devices, if any |
| HostApp.DeviceHooks.CheckHostappReleaseUpgrades | src/features/hostapp/hooks/target-hostapp.ts:92-174 | passes exactly if the release is acceptable for every device with a parseable version |
| HostApp.DeviceHooks.ProgressGroup | src/features/hostapp/hooks/target-hostapp.ts:322-359 | one group: the release found for it or none, and whether the nested PATCH passes the check |
| HostApp.DeviceHooks.ProgressTargetOSReleaseIfNewer | src/features/hostapp/hooks/target-hostapp.ts:267-360 | the grouped nested PATCHes give each outdated device the release found for it, or none |
| HostApp.DeviceHooks.PatchDevices | src/features/hostapp/hooks/target-hostapp.ts:36-90 | a whole PATCH, for either order of the hooks, with rollback |
| HostApp.PatchMeaning | src/features/hostapp/hooks/target-hostapp.ts:36-90 | in the fields of the rows: a successful PATCH that triggers progress gives each affected device whose target is missing or behind what the catalog holds for its type, reported version and variant, or none; a new device type clears the target; everything else is as asked |
| HostApp.NumericTargetIsRefusedIff | src/features/hostapp/hooks/target-hostapp.ts:92-174 | a numeric target is refused exactly if it is unknown or, as soon as an affected device reports a parseable version, if it failed, is invalidated (unless for root), has no version, or is older than one of those reported |
| HostApp.PatchKeepsCurrent | src/features/hostapp/hooks/target-hostapp.ts:184-210 | whatever the release search answers, a PATCH whose target is not text throws or keeps every target at least as new as the reported version |
| HostApp.PatchThrowsOnlyForItsTarget | src/features/hostapp/hooks/target-hostapp.ts:92-174 | under that condition a PATCH throws exactly if its own target is rejected |
| HostApp.ReportIsRefusedIff | src/features/hostapp/hooks/target-hostapp.ts:322-359 | without it, the report of a device without a target is refused exactly if the search answers with an unacceptable release |
| HostApp.TargetsStayCurrent | src/features/hostapp/hooks/target-hostapp.ts:184-210 | so does any run of such PATCHes |
| HostApp.TextTargetIsUnchecked | src/features/hostapp/hooks/target-hostapp.ts:66-72 | for a text target the invariant holds afterwards exactly if the request makes the target progress or the release is recent enough |
| HostApp.TextTargetDowngrades | src/features/hostapp/hooks/target-hostapp.ts:66-72 | a downgrade refused as a number goes through as text |
| ImageInstall.ImageInstalls.ShouldUpdateImageInstall | src/features/device-state/state-patch-utils.ts:205-238 | the decision, and what is remembered |
| ImageInstall.ImageInstalls.UpsertImageInstall | src/features/device-state/state-patch-utils.ts:282-338 | the row and memory after a report, with unknown statuses ignored |
| ImageInstall.UnthrottledShowsReport | src/features/device-state/state-patch-utils.ts:282-338 | what the unthrottled writer shows after a report, field by field |
| ImageInstall.ReportIsShownOrSkipped | src/features/device-state/state-patch-utils.ts:282-338 | a report is shown just so, or the row is left as it was |
| ImageInstall.StatusAlwaysAgrees | src/features/device-state/state-patch-utils.ts:205-238 | however memory is lost, status and release after each report are those of an unthrottled writer |
| ImageInstall.ProgressAgreesIff | src/features/device-state/state-patch-utils.ts:213-227 | a report keeps progress null exactly when unthrottled progress is, unless it ends a progress the throttle has not seen within the interval |
| ImageInstall.ProgressDiffersOnlyInValue | src/features/device-state/state-patch-utils.ts:213-227 | in runs without such a report the rows differ at most in which percentage below 100 they show |
| ImageInstall.SeenUntilForgotten | src/features/device-state/state-patch-utils.ts:221-232 | a remembered progress that is not left out stays so until the memory is lost, whatever the reports leave out |
| ImageInstall.SeenProgressAgrees | src/features/device-state/state-patch-utils.ts:205-238 | so from such a state, in any run that loses no memory, progress is null exactly when that of the unthrottled writer is |
| ImageInstall.UnseenProgressStaysShown | src/features/device-state/state-patch-utils.ts:221-226 | such a report occurs, and leaves a finished download shown as running |
| ImageInstall.MilestonesAreExact | src/features/device-state/state-patch-utils.ts:219-227 | over every run and loss of memory, when the unthrottled writer shows 100% so does the row |
| ImageInstall.ProgressWritesAreApart | src/features/device-state/state-patch-utils.ts:213-215 | a write that only brings a percentage below 100 comes more than the interval after every earlier write |
| ImageInstall.RepeatedReportStaysDeleted | src/features/device-state/state-patch-utils.ts:340-365 | a report repeated after a deletion is stored exactly in the cases of its progress and the remembered one that are listed; otherwise the row stays deleted |
| ImageInstall.StoredPercentageStaysDeleted | src/features/device-state/state-patch-utils.ts:213-227 | a stored percentage below 100 is never stored again after a deletion, however late it is repeated |
| ImageInstall.DeletedDownloadIsNotStored | src/features/device-state/state-patch-utils.ts:340-365 | a deleted container that is reported downloading again at the same percentage stays deleted |

## Left out

- Two PATCHes of the same release at once: the selection is read before any lock, so open requests of the model never affect the same release.
- Row locks and serialization failures of the database: a transaction sees committed rows and its own writes, and the advisory lock is the only one.
- ReleaseHooks: every `new Date()` of a request is the same moment; in the protocol each assignment has its own.
- RevisionProperties.RevisionsAreInitialSegment: speaks only of runs in which no PATCH re-keys a finalized release, because a re-keyed release leaves a gap.
- RawVersion.RawTextInjective: assumes that `revN` build parts equal the revision, which build-only PATCHes can break; RawVersion.RawTextIff does not.
- RawVersion.RawVersionInjective: makes the same assumption.
- RawVersionNames.NamesLastIff: speaks of POSTs and of PATCHes of build metadata that select no release; a PATCH that finalizes or re-keys some releases and only rebuilds others is not covered, nor are interleavings of such requests.
- RevisionSchedules.InterleavingIsRenumber: while a request numbers, no other request commits a move of a finalized release out of an application that it has locked; such a move frees revisions in the middle of the numbering. Revisions stay unique even then.
- SQL meaning: `Concatenate` with a NULL operand is NULL, `ConcatenateWithSeparator` skips NULL, and order by date puts NULL last, as PostgreSQL does; dates are whole microseconds since 1970; the JSON `version` field is not modelled.
- Lengths: prerelease and build are at most 100 and 50 characters, the limits of their columns.
- TrackLatest.TargetIsLatestTrackable: PATCHes of `start_timestamp`, deletions, and a hook whose read is separated from its write by another write are not modelled.
- Heartbeat: a handler that dies halfway is modelled only with one step per await; Redis replica lag, user edits of the state, the date of the last change, queue statistics, the visibility timeout of messages, and devices without a row are not modelled.
- Heartbeat.ConsumeLowersMeasure: a message for any other state is never deleted by the code; the invariant shows that none is ever queued.
- LogWriter: the refusal of a stream while the backend is down, gzip, parse errors, the pausing that pipes do by themselves, and closing the response are not modelled.
- RedisLogs: encoding, compression, lines that cannot be decoded, the byte counter, and expiry of the subscriber key are not modelled.
- LogReader.BurstIsContiguous: assumes positive time stamps, and lines published in order of `createdAt`.
- LogReader: the throttled flush of the response and the limits on the count and start parameters are not modelled.
- ServiceInstalls: targets do not change between the runs of a chain, and runs for one device do not overlap; the synchronous path of the hooks, which does the same without a time limit, and the deletion of rows when a device moves are not modelled.
- HostApp.PatchThrowsOnlyForItsTarget: assumes that the release search returns a successful release with the version it was asked for; how the search matches fields and tags, which compares versions as balena-semver does, is not modelled, nor are edits of releases.
- HostApp: POSTs of devices are not modelled.
- ImageInstall.StatusAlwaysAgrees: assumes that no transaction is rolled back after the throttle has remembered its report, and speaks of runs between deletions.
- ImageInstall.ProgressWritesAreApart: a write after a loss of memory counts as more than a percentage, because the throttle cannot tell.
- Loki, S3, authentication, rate limits, device state variables, metrics and the registry-image deletion: foreign calls, plumbing, or the same shape as something modelled.
