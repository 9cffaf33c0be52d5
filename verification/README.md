# Verified model of the MDM backend

The backend manages macOS and Windows devices. It is a set of small protocols over database rows: token
revocation with a cache in each worker process, just-in-time admin grants that turn into script jobs, the Apple
MDM check-in and connect protocol, the OMA-DM session for Windows, and a number of self-contained algorithms.
This project models those protocols in Dafny and proves what they keep in every run.

Each module covers one protocol:

| file | what it covers |
|---|---|
| Prelude.dfy, WorkLists.dfy | decimal numerals, `str.strip`, and the "oldest rows first" work list |
| Revocation.dfy | the JWT revocation check and its per-process cache, sequential and interleaved |
| AdminGrants.dfy | admin requests, the auto-revoke worker and the jobs they queue |
| GrantReplay.dfy | what the queued `dseditgroup` jobs do to a device's admin group |
| ScriptJobs.dfy | polls that lock rows and skip locked ones, results, draining |
| AgentDelivery.dfy | grants, jobs and polls put together, end to end |
| AppleMdm.dfy | check-in, connect, command delivery and the push consumer |
| AppleTraces.dfy | what device rows, command rows and pushes say about the messages behind them |
| SyncML.dfy, SyncMLItems.dfy, SyncMLOrder.dfy | the SyncML encoder and decoder on XML trees, items, order of parts |
| OmaDm.dfy, OmaReplies.dfy | the OMA-DM session: status replies, automatic query, delivery, and what they mean on the wire |
| Der.dfy | the DER reader and the public-key extraction |
| Profiles.dfy | profile versions and diffs |
| Signup.dfy | slugs |
| Timeline.dfy | the merged device timeline |
| OAuthState.dfy | the signed state of both single sign-on flows |
| Compliance.dfy | the compliance classifier and its stored results |

A request is one atomic step, because a session commits or rolls back as a whole, except where interleaving is the
point: the revocation cache, agent polls, the push consumer and the auto-revoke passes of the server processes are
split into their separate steps. Handlers that
update rows are methods of a class whose fields are the tables. Each is tied to a pure function of the old state,
and the whole-run theorems are proved about sequences of those functions. `dafny verify dfyconfig.toml` checks
everything.

Where the code differs from what it says or is meant to do, the model follows the code:

- A cached token is trusted while its age is not greater than 60 s (app/core/deps.py:45), so a revoked token can be
  accepted up to and including 60 s after the row was committed. `StalenessBounded` proves that bound and
  `StalenessBoundIsTight` that it is reached. The remark "revoked tokens are never added here"
  (app/core/deps.py:20) holds for one process serving one call at a time.
- Two grants for one user can overlap (app/api/routes/admin_access.py:170). Ending one then removes the user from the
  admin group although the other is still approved: `EndAgreesIff`, `OverlapBreaksAgreement`.
- Every server process starts its own auto-revoke loop (app/main.py:96-97, Dockerfile:48), and a pass lists rows
  without locking them and later writes them without reading them again. Two passes at once, or a manual revoke
  between, queue a revocation too many (`TwoPassesBreakBalance`), and a late one can undo a new grant
  (`LatePassBreaksAgreement`). `GrantsConserved`, `FinishKeepsBalanceIff` and `AgreesAfterRunIff` say exactly when.
- `poll_jobs` asks for no order (app/api/routes/agent.py:217-226). `DeliveryMatchesQueueIff` and
  `GrantsTakeEffectIff` say exactly which deliveries are harmless; `SwappedJobsLeaveAdmin` shows one that is not.
- A token revoked by `validate_2fa` while cached can still be accepted: `CacheIsInvisibleIff`.
- A grant whose user has an empty short name is never ended by the worker: `NamelessGrantSurvives`.
- A command answered with "NotNow" is never delivered again: `NeverRedelivered`.
- A second CheckOut turns a spare device into an unenrolled one: `SpareIffErasedThenLeft`. The remark that check-in
  matches pre-staged devices by serial number (app/api/routes/enrollment.py:92-93) is not implemented in check-in and
  nothing is claimed about it.
- `parse` never fills the items of a Status, so the uuid branch of `_process_status` is not reached from a parsed
  message: `ParsedStatusesResolveOldest`. The uuid embedding itself is proved in `UuidSurvivesIff`.
- The DER reader accepts truncated values, 0x80 as length zero, and 127 length octets: `ReadsExactlyEncodings`,
  `TruncatedReads`.
- A profile update that changes a value only in its JSON type (1 to true) leaves an empty diff: `OneBecomesTrue`,
  `ApplyDiffIff`. The ORM takes it for no change and does not write it, so the profile keeps the old value while the
  new version's snapshot holds the given one: `LastSnapshotIsPayloadIff`.
- A slug can end in a hyphen when the 80-character cut falls after one: `TrailingHyphenIff`, `HyphenAtTheCut`.
- The timeline is not always the newest events: `TimelineIsNewestIff`, `ExecutedLateIsMissed`.
- Weakening a policy can turn "compliant" into "unknown": `WeakeningCanLoseCompliance`.

## Model

| member | source | states |
|---|---|---|
| Revocation.Worker.CacheInvalidate | app/core/deps.py:25-27 | the entry is gone and no other entry changes |
| Revocation.Worker.GetCurrentUser | app/core/deps.py:40-49 | with no revoked token cached, a token is accepted exactly when it has no revocation row, and no revoked token enters the cache |
| Revocation.Worker.Logout | app/api/routes/auth.py:84-90 | row added, entry popped; a clean cache stays clean |
| Revocation.Worker.ValidateTwoFactor | app/api/routes/auth.py:280-286 | row added without a pop; the cache stays clean exactly when it did not hold the token |
| Revocation.SequentialCacheIsInvisible | app/core/deps.py:18-49 | over every run of requests and logouts in one process, the cached answers equal those of always asking the table |
| Revocation.CacheIsInvisibleIff | app/api/routes/auth.py:280-286 | with two-factor revocations in the run too, they are equal exactly when no token revoked that way while cached is presented again within 60 s of its entry and before a logout |
| Revocation.StalenessBounded | app/core/deps.py:42-49 | in every interleaving over any number of processes, an accepted request read its clock at most 60 s after the revocation row was committed |
| Revocation.StalenessBoundIsTight | app/core/deps.py:44-45 | a run in which a second worker accepts exactly 60 s after the commit |
| Revocation.UninterruptedRequestIsCheck | app/core/deps.py:42-49 | the interleaved steps of one request, run without interruption, are the sequential check |
| Revocation.UninterruptedLogoutIsLogout | app/api/routes/auth.py:84-90 | the interleaved steps of one logout, run without interruption, commit its row and drop its own process's entry and no other |
| Revocation.UninterruptedTwoFactorKeepsCaches | app/api/routes/auth.py:280-286 | those of a two-factor revocation commit the row and touch no cache |
| AdminGrants.AdminAccess.CreateRequest | app/api/routes/admin_access.py:152-184 | a pending row, or 404 for a missing device or user, 400 for an admin or hours outside 1..72, with nothing changed |
| AdminGrants.AdminAccess.ApproveRequest | app/api/routes/admin_access.py:225-245 | only a pending request; sets the times and queues one elevation job |
| AdminGrants.AdminAccess.DenyRequest | app/api/routes/admin_access.py:288-293 | only a pending request; no job |
| AdminGrants.AdminAccess.RevokeRequest | app/api/routes/admin_access.py:311-326 | only an approved request; queues one revocation job |
| AdminGrants.AdminAccess.ListExpired | app/services/auto_revoke.py:23-35 | the first half of a pass: the clock and the rows its query returned, nothing locked or changed |
| AdminGrants.AdminAccess.AutoRevoke | app/services/auto_revoke.py:40-73 | the second half: the loop writes the rows listed earlier without reading them again |
| AdminGrants.CreationIsFinal | app/api/routes/admin_access.py:152-185 | a request is created exactly for a known device, a user of it who is no admin, and 1..72 hours, with 404 or 400 otherwise; it starts pending, queues nothing, and keeps device, user name and hours in every run |
| AdminGrants.ApprovalIsKept | app/api/routes/admin_access.py:226-245 | an approval ends 3600 s for each hour after now, queues one elevation for that user and changes nothing else; its times stay and no later approval or denial is accepted, in any run |
| AdminGrants.DenialIsFinal | app/api/routes/admin_access.py:289-293 | a denial sets the status and its time and nothing else and queues no job; in every later state the row is as it left it and every approve, deny or revoke gets 400 and changes nothing |
| AdminGrants.RevocationIsFinal | app/api/routes/admin_access.py:312-326 | a manual revoke sets status and time and queues one revocation for that user; every later decision is refused |
| AdminGrants.UnknownRequestIsNotFound | app/api/routes/admin_access.py:96-118 | 404 exactly for an unknown request |
| AdminGrants.PassQueues | app/services/auto_revoke.py:40-56 | a pass queues one automatic revocation for each named row it lists, in order |
| AdminGrants.UninterruptedPassEndsExactlyExpired | app/services/auto_revoke.py:24-47 | a pass that nothing interrupts ends exactly the approved grants with a username whose revoke_at has come, in any order |
| AdminGrants.FinishEndsListed | app/services/auto_revoke.py:40-73 | in a reachable state a pass of any age ends exactly its named rows |
| AdminGrants.NoneEndedEarly | app/services/auto_revoke.py:30-47 | in every run, with passes of any number of processes under way, no pass ends a grant before its revoke_at |
| AdminGrants.RunKeepsInv | app/api/routes/admin_access.py:226-233 | in every reachable state the times fit the status, revoke_at is decision plus 1..72 h, a named approved grant has not outlived the latest finished pass, and each pass under way lists every grant expired at its clock reading |
| AdminGrants.DecidedForever | app/api/routes/admin_access.py:289-315 | denied rows never change again in any run, revoked rows only in the time a late pass may write |
| AdminGrants.GrantsEndInTime | app/services/auto_revoke.py:23-83 | if at every moment some finished pass, of any process, read the clock at most d ago, every approved grant of a named user is less than d past its revoke_at and less than 72 h + d past its approval |
| AdminGrants.NamelessGrantSurvives | app/services/auto_revoke.py:41-44 | a grant with an empty username ends only by a manual revoke |
| AdminGrants.GrantsConserved | app/api/routes/admin_access.py:218-326 | from the start, over every run with any number of worker processes, per user and in total: elevations equal approved plus revoked grants, revocations equal revoked grants plus the late endings, and so jobs and grants balance exactly when no pass ended a grant that was approved no longer |
| AdminGrants.FinishKeepsBalanceIff | app/services/auto_revoke.py:40-56 | one pass keeps the balance exactly when every named row it ends is still approved |
| AdminGrants.TwoPassesBreakBalance | app/services/auto_revoke.py:24-56 | two workers that tick together queue two revocations for one grant |
| GrantReplay.EndAgreesIff | app/api/routes/admin_access.py:314-326 | ending a row, approved or ended before, keeps group and grants in agreement exactly when no other approved grant of the user is left |
| GrantReplay.StepAgreesIff | app/services/auto_revoke.py:40-59 | exactly when any one event leaves them in agreement, late passes included |
| GrantReplay.AgreesAfterRunIff | app/services/auto_revoke.py:20-83 | after every run, overlaps and late passes included, the jobs in queue order leave a user in the admin group exactly when an approved grant exists, if and only if the last approval or ending for that user was not an ending that left another approved grant |
| GrantReplay.ReplayMatchesGrants | app/services/auto_revoke.py:40-59 | without overlapping grants and late endings, that agreement holds for all users after every run |
| GrantReplay.OverlapBreaksAgreement | app/api/routes/admin_access.py:170-183 | a run that create_request allows in which two grants overlap and the agreement fails |
| GrantReplay.LatePassBreaksAgreement | app/services/auto_revoke.py:24-56 | a run without any overlap in which a second worker's late pass takes a newly granted user out of the group |
| ScriptJobs.JobTable.PollJobs | app/api/routes/agent.py:217-233 | exactly the picked rows become running and are returned in that order |
| ScriptJobs.JobTable.PostJobResult | app/api/routes/agent.py:243-258 | only the device's own job; the posted code is stored, completed for 0 and failed for any other, and the first 65536 characters of each output are kept |
| ScriptJobs.HandedOutOnce | app/api/routes/agent.py:216-233 | over all interleavings of polls, aborts and results, each poll returning at most ten free rows, no job is handed out by two committed polls, and completed, failed and pending or running fit the exit code |
| ScriptJobs.NeverPendingAgain | app/api/routes/agent.py:228-258 | a job that left pending never returns to it |
| ScriptJobs.RowTellsLastResult | app/api/routes/agent.py:254-257 | in every run a job's row holds the code of the last result the table took for it, completed exactly for 0 and failed for any other, with the first 65536 characters of that result's output, and none of this without a result |
| ScriptJobs.PendingIffUntouched | app/api/routes/agent.py:217-258 | in every run a job is pending exactly while no committed poll returned it and no result was taken for it |
| ScriptJobs.DrainedByCeil | app/api/routes/agent.py:217-229 | k pending jobs are drained by n sequential polls exactly when n >= ceil(k / 10) |
| ScriptJobs.OrderedPollsKeepOrder | app/api/routes/agent.py:217-233 | polls that return the oldest rows hand out the 10 n oldest jobs in order |
| ScriptJobs.OldestTenMayBePicked | app/api/routes/agent.py:217-226 | such a poll is one the query allows |
| AgentDelivery.LastJobDecides | app/services/auto_revoke.py:49-55 | a user is in the group after any jobs exactly when the last job for that user adds |
| AgentDelivery.OwnJobsSuffice | app/api/routes/agent.py:219-223 | a device's own jobs alone decide its admin group |
| AgentDelivery.DeliveryMatchesQueueIff | app/api/routes/agent.py:217-233 | grants, revocations, passes and polls interleaved, rows handed out in any order: with nothing pending, the group matches the queue's order for a user exactly when the user's job handed out last does the same as the job queued last |
| AgentDelivery.GrantsTakeEffectIff | app/api/routes/agent.py:212-233 | the exact condition, for any delivery order and any run, for the group to hold the user exactly when an approved grant exists |
| AgentDelivery.SeparateGrantsTakeEffectIff | app/api/routes/agent.py:212-233 | without overlap and late endings, group and grants agree exactly when the user's last job was handed out last |
| AgentDelivery.HandedIsPrefix | app/api/routes/agent.py:217-233 | with oldest-first polls, at every moment the device was handed a first part of its jobs in queue order, all of them when nothing is pending |
| AgentDelivery.OrderedGrantsTakeEffectIff | app/api/routes/agent.py:212-233 | then, whenever nothing is pending, group and grants agree exactly when the last decision for the user settled them |
| AgentDelivery.PolledGrantsTakeEffect | app/api/routes/agent.py:212-233 | after any run without overlap and late endings, ceil(k / 10) ordered polls put exactly the users with an approved grant into the device's admin group |
| AgentDelivery.SwappedJobsLeaveAdmin | app/api/routes/agent.py:217-226 | the query may return two jobs swapped, which leaves a revoked user an admin |
| AppleMdm.MdmServer.HandleAuthenticate | app/mdm/apple/checkin.py:78-97 | status and topic of a known device; nothing for an unknown one |
| AppleMdm.MdmServer.HandleTokenUpdate | app/mdm/apple/checkin.py:109-161 | tokens stored, enrolled, enrolled_at kept if set; a new row only when a tenant is found |
| AppleMdm.MdmServer.HandleCheckout | app/mdm/apple/checkin.py:184-196 | wiped becomes spare, anything else unenrolled; token and magic cleared |
| AppleMdm.MdmServer.ProcessCommandResult | app/mdm/apple/connect.py:86-125 | the command's status; an acknowledged EraseDevice wipes the row |
| AppleMdm.MdmServer.HandleConnect | app/mdm/apple/connect.py:65-83 | result first, then the oldest queued command of the device is sent |
| AppleMdm.MdmServer.FinishPush | app/services/command_queue.py:98-124 | what a delivered, gone or failed push does to row and message |
| AppleMdm.NextCommand | app/mdm/apple/connect.py:314-330 | a queued command of the device than which none is older, whichever way ties are broken; none exactly when nothing is queued |
| AppleMdm.TokensFitInEveryRun | app/mdm/apple/checkin.py:149-196 | in every reachable state, stale 410s included: unenrolled, spare, wiped and token_expired rows have no push token, an enrolled macOS row has one, unenrolled, spare and wiped rows have no magic |
| AppleMdm.EnrolledAtIsFinal | app/mdm/apple/checkin.py:158 | enrolled_at never changes once set |
| AppleTraces.RowHoldsWhatWasSent | app/mdm/apple/checkin.py:86-196 | in every run a row's push token is that of the last TokenUpdate unless a CheckOut, an acknowledged erase or a 410 came after it, its magic likewise except that a 410 leaves it, its topic that of the last TokenUpdate or Authenticate, its enrolled_at the time of the first enrolment, its platform that of the event that made it |
| AppleTraces.RowShowsLastAnswer | app/mdm/apple/connect.py:86-101 | in every run a command is queued before anything, sent once handed out, completed after Acknowledged, not_now after NotNow and failed after any other answer, with the time of that answer |
| AppleTraces.PushKnowsItsDevice | app/services/command_queue.py:69-103 | every push under way, and so every 410 however late, is for the device its message was published for |
| AppleTraces.PushStartsIff | app/services/command_queue.py:83-103 | a push starts exactly for a device that holds a token, a magic and a topic, none empty |
| AppleMdm.MessageStaysUnlessHandled | app/services/command_queue.py:87-124 | over every run a wake-up message stays in the queue, failed pushes included, exactly unless its device lacked credentials, its push was delivered or APNs answered 410 |
| AppleMdm.SpareIffErasedThenLeft | app/mdm/apple/checkin.py:184-196 | in every run a device is spare exactly when an acknowledged EraseDevice was followed by exactly one CheckOut with no Authenticate, TokenUpdate or applied 410 between or since; wiped exactly when the erase is the last event |
| AppleMdm.NeverRequeued | app/mdm/apple/connect.py:88-101 | command rows are only added, keep device, age, uuid and kind, and never return to queued |
| AppleMdm.DeliveredOnceInOrder | app/mdm/apple/connect.py:314-330 | in every run each command is delivered at most once and each device's deliveries are sorted by queued_at |
| AppleMdm.NeverRedelivered | app/mdm/apple/connect.py:88-92 | a command sent or answered, "NotNow" included, is never delivered again |
| AppleMdm.IdleConnectsDrain | app/mdm/apple/connect.py:65-83 | k idle connects deliver min(n, k) of the n queued commands, each once |
| AppleMdm.EmptyPlistIffDrained | app/mdm/apple/connect.py:70-83 | the next connect returns the empty plist exactly when at least n connects went before |
| SyncML.Parse | app/mdm/windows/syncml.py:65-132 | the decoding loop, with an error exactly for a missing SyncHdr |
| SyncML.ParseElement | app/mdm/windows/syncml.py:93-130 | the command one element decodes to, with its items in order |
| SyncML.Build | app/mdm/windows/syncml.py:135-205 | the encoding loop builds the message tree |
| SyncML.BuildElement | app/mdm/windows/syncml.py:160-202 | the element of the idx-th command |
| SyncML.BuildItem | app/mdm/windows/syncml.py:175-187 | the item of a Replace or Add |
| SyncML.BuildStatus | app/mdm/windows/syncml.py:165-173 | the children of a Status |
| SyncML.ParseUndoesBuild | app/mdm/windows/syncml.py:65-205 | for all inputs, what parsing a built message gives: ids, device as target, server as source, and every command's decoded form in order |
| SyncML.MessageIsFramed | app/mdm/windows/syncml.py:146-158 | every message begins with the two versions in its header and ends with Final behind exactly its commands |
| SyncMLOrder.ElementIsInOrder | app/mdm/windows/syncml.py:160-202 | the parts of every built command, its item and the item's meta stand in order, the CmdID first |
| SyncMLOrder.HeaderIsInOrder | app/mdm/windows/syncml.py:148-156 | so do those of the header |
| SyncMLItems.ItemReadsBackIff | app/mdm/windows/syncml.py:112-129 | an item a device writes is read back with target, source, meta and data each in its place, exactly when its data and meta texts are not empty |
| SyncMLItems.ResultsReadBack | app/mdm/windows/syncml.py:110-130 | a device's Results, or any command with items, is read back with all its items in order |
| SyncML.DecodedCarriesIff | app/mdm/windows/syncml.py:93-205 | a command of a known verb comes back with all its fields exactly when its stripped texts are trimmed and non-empty |
| SyncML.RoundTrip | app/mdm/windows/syncml.py:65-205 | for such texts the same commands come back in order with CmdIDs "1".."n" |
| SyncML.StatusHasNoItems | app/mdm/windows/syncml.py:98-108 | a parsed Status never has items |
| OmaDm.ManagementServer.Sync | app/mdm/windows/omadm.py:55-101 | one session: statuses resolved, alerts acknowledged, query queued if due, batch delivered; all rolled back when the message id is no number |
| OmaDm.ManagementServer.ProcessMessage | app/mdm/windows/omadm.py:58-68 | the loop over the message's commands |
| OmaDm.ManagementServer.Deliver | app/mdm/windows/omadm.py:86-92 | the batch is marked delivered and expanded in order |
| OmaDm.UuidRecoveredIff | app/mdm/windows/omadm.py:139-143 | the split recovers the tagged uuid exactly when it holds no "?id=", whatever the URI |
| OmaDm.UuidSurvivesIff | app/mdm/windows/commands.py:95-106 | the same through build_syncml_cmds, building and parsing |
| OmaDm.ParsedStatusesResolveOldest | app/mdm/windows/omadm.py:138-168 | every Status of a parsed message takes the oldest-delivered branch |
| OmaDm.StatusesResolveOldest | app/mdm/windows/omadm.py:154-168 | m statuses resolve exactly the min(m, d) oldest of d delivered commands, the k-th by the k-th |
| OmaDm.ParsedMessageResolvesOldest | app/mdm/windows/omadm.py:58-68 | both together: what any parsed message does to the rows |
| OmaReplies.RepliesSettleOldest | app/mdm/windows/omadm.py:145-168 | for every parsed message the k-th oldest delivered command ends completed exactly when the k-th Status element's Data is "200", failed otherwise, and no other row changes |
| OmaReplies.ListedExactly | app/mdm/windows/omadm.py:123-130 | the work lists hold exactly the device's rows with that status, oldest first |
| OmaReplies.NamedReplySettles | app/mdm/windows/omadm.py:147-153 | a reply that names a uuid settles the rows with that uuid and no others |
| OmaReplies.FirstMarkedItemDecides | app/mdm/windows/omadm.py:138-143 | the uuid is that of the first item whose target, or else source, carries the mark |
| OmaReplies.ReplyHasThreeParts | app/mdm/windows/omadm.py:55-92 | a reply is the header's "200", the Alerts' acknowledgements and the commands of the delivered rows |
| OmaReplies.AlertsAreAcknowledged | app/mdm/windows/omadm.py:58-62 | the k-th Alert is acknowledged by the k-th of these, with its own id and "200" |
| OmaReplies.DeliveredFillReply | app/mdm/windows/omadm.py:86-88 | the delivered rows' commands follow row after row, each in full |
| OmaReplies.DeviceReadsCommand | app/mdm/windows/commands.py:85-106 | the device reads a Get for each node of a query, one Exec with its data for any other command, each URI with "?id=" and the uuid behind it |
| OmaReplies.AutomaticQueryAsks | app/mdm/windows/commands.py:53-73 | the query is added exactly when details are missing and the device never had one, and asks for these eight nodes |
| OmaDm.SessionDeliversOldest | app/mdm/windows/omadm.py:123-130 | a session delivers the at most 5 oldest queued commands and leaves the rest |
| OmaDm.SessionsDrainByCeil | app/mdm/windows/omadm.py:55-92 | whatever parsed messages the sessions bring, n queued commands are drained by t whole sessions exactly when t >= ceil(n / 5) |
| OmaDm.SessionsDrainWithQuery | app/mdm/windows/omadm.py:70-92 | if the first of them queues the automatic query it is n + 1 commands |
| OmaDm.RepliesKeepQueued | app/mdm/windows/omadm.py:155-168 | the statuses of a parsed message touch no queued command |
| OmaDm.OneAutomaticQuery | app/mdm/windows/omadm.py:70-82 | in every run at most one DeviceQuery is queued automatically for a device |
| Der.FromBytesReadsBack | app/mdm/windows/ca.py:70 | every number is read back from its big-endian octets |
| Der.DerEncodes | app/mdm/windows/ca.py:63-75 | the DER encoding is one of the encodings below |
| Der.EncodingReadsBack | app/mdm/windows/ca.py:63-75 | at any position of any data, every single-byte-tag definite-length encoding (section 8.1 of ITU-T X.690), short or long form, gives its exact tag, bytes, value and next offset |
| Der.ReadsExactlyEncodings | app/mdm/windows/ca.py:63-75 | a read that stays inside the data succeeds exactly on such an encoding or on a lone 0x80 length |
| Der.TruncatedReads | app/mdm/windows/ca.py:74-75 | an encoding cut inside its value still parses, to what is left |
| Der.ExtractsSubjectKey | app/mdm/windows/ca.py:78-91 | for every request of the form of sections 4.1 and 4.2 of RFC 2986 the result is exactly the SubjectPublicKeyInfo, whatever the subject, the forms and trailing bytes |
| Profiles.ProfileStore.CreateProfile | app/api/routes/profiles.py:99-117 | the profile and its version 1 |
| Profiles.ProfileStore.UpdateProfile | app/api/routes/profiles.py:128-155 | given name and payload replaced, except a payload equal to the stored one, which the ORM does not write; cached XML dropped exactly with a payload; one version row with the payload and note as given; other profiles untouched; 404 changes nothing |
| Profiles.ProfileStore.DeleteProfile | app/api/routes/profiles.py:252-259 | the profile and its versions go, every other history stays |
| Profiles.VersionsAreChained | app/api/routes/profiles.py:93-155 | in every run a profile's versions are exactly 1..n in order and the last snapshot equals the stored payload, as Python compares them |
| Profiles.LastSnapshotIsPayloadIff | app/api/routes/profiles.py:137-150 | they are the same JSON exactly when the last update was not one that changed values only in their JSON type |
| Profiles.NumbersCompareByValue | app/api/routes/profiles.py:217 | the comparison the diff uses: numbers and booleans are equal exactly when their values are, and to nothing else |
| Profiles.OthersCompareByParts | app/api/routes/profiles.py:217 | texts as texts, lists place by place, dictionaries key by key |
| Profiles.DiffClassifies | app/api/routes/profiles.py:212-218 | added, removed and changed are disjoint, and which keys and values each holds |
| Profiles.ApplyDiffEq | app/api/routes/profiles.py:209-218 | applying a diff to anything equal to the previous payload gives something equal to the current one |
| Profiles.ApplyDiffIff | app/api/routes/profiles.py:214-218 | it gives the current payload itself exactly when no value changed only in its JSON type |
| Profiles.OneBecomesTrue | app/api/routes/profiles.py:214-218 | 1 becoming true leaves an empty diff |
| Profiles.DiffOfVersionK | app/api/routes/profiles.py:192-210 | the endpoint answers for exactly the versions 1..n, with the diff of consecutive snapshots |
| Profiles.DiffsRebuildPayload | app/api/routes/profiles.py:192-218 | in every run, folding the diffs 1..n from the empty payload rebuilds the current one, as Python compares it |
| Profiles.RebuiltExactlyIff | app/api/routes/profiles.py:192-218 | every version is rebuilt exactly if and only if no update changed a value only in its JSON type |
| Signup.SlugifyJoinsWords | app/api/routes/signup.py:32-36 | a slug is the name's words joined by hyphens and cut to 80 characters, "org" without a word |
| Signup.SlugIsHyphenated | app/api/routes/signup.py:32-36 | never empty, at most 80 characters of [a-z0-9-], no leading and no double hyphen |
| Signup.TrailingHyphenIff | app/api/routes/signup.py:35-36 | it ends in a hyphen exactly when the cut falls right after one |
| Signup.HyphenAtTheCut | app/api/routes/signup.py:36 | names for which that happens |
| Signup.Pigeonhole | app/api/routes/signup.py:84-89 | k distinct candidates are all taken only if at least k slugs are |
| Signup.UniqueSlug | app/api/routes/signup.py:80-89 | the loop ends after at most taken + 1 probes with the first free of base, base-1, base-2, ... |
| Signup.Tenants.Signup | app/api/routes/signup.py:71-104 | 409 for a known email; otherwise a slug nobody had |
| Timeline.SortIsStable | app/api/routes/devices.py:372 | the sort: newest first, equal times in their order, nothing lost |
| Timeline.DeviceTimeline | app/api/routes/devices.py:339-373 | the two loops, the sort and the cut |
| Timeline.EventsTellRows | app/api/routes/devices.py:353-370 | every event shown is that of a row read: a command at its execution or else its queueing with its type, status and uuid, an audit row at its time with action, changes and actor |
| Timeline.FittingRowsAreShown | app/api/routes/devices.py:339-373 | if all rows fit, each is shown |
| Timeline.OrderedTimesSuffice | app/api/routes/devices.py:339-373 | when shown times are ordered like queued_at, the timeline is the first `limit` of all events sorted |
| Timeline.TimelineIsNewestIff | app/api/routes/devices.py:339-373 | for any times, it is so exactly when for each command beyond the newest `limit` at least `limit` rows come first: commands read that are shown at or after it, and audit rows newer than it |
| Timeline.TimelineOmitsOlderIff | app/api/routes/devices.py:339-373 | equivalently, when no such command belongs before some event shown |
| Timeline.ExecutedLateIsMissed | app/api/routes/devices.py:342-356 | a command queued early and executed late is left out |
| OAuthState.AcceptedIffSigned | app/api/routes/auth.py:306-317 | a state is accepted exactly when it is p + "." + mac(p) for some p |
| OAuthState.StateRoundTripIff | app/api/routes/auth.py:300-317 | a made state verifies, and gives back its origin, dots and bars allowed, exactly when the nonce has no bar |
| OAuthState.PortalAcceptsIff | app/api/routes/auth.py:446-491 | the callback answers with a URL exactly for the states the login makes for it |
| OAuthState.DashboardStateIsNotPortal | app/api/routes/auth.py:482-488 | a dashboard state never passes for a portal state |
| Compliance.Classify | app/services/compliance.py:77-144 | the three lists hold the enforced controls by outcome, in rule order |
| Compliance.EachControlOnce | app/services/compliance.py:82-144 | each enforced control is in exactly one list, once, the one of its outcome; an unenforced one in none |
| Compliance.NonCompliantIffViolated | app/services/compliance.py:85-147 | non_compliant exactly when the facts contradict some enforced requirement |
| Compliance.UndeterminedIff | app/services/compliance.py:146-151 | unknown exactly when something enforced is unreported and nothing enforced is reported |
| Compliance.WeakeningNeverFails | app/services/compliance.py:82-151 | raising a threshold or dropping a requirement adds no failing control and makes no device non_compliant |
| Compliance.WeakeningCanLoseCompliance | app/services/compliance.py:146-151 | it can turn compliant into unknown |
| Compliance.Engine.EvaluateDevice | app/services/compliance.py:68-179 | the report, and its row updated or inserted |
| Compliance.Engine.EvaluateInTurn | app/services/compliance.py:192-196 | every policy evaluated; the flag is set exactly when one fails |
| Compliance.ActiveExactly | app/services/compliance.py:184-188 | exactly the policies with is_active set are evaluated, in order and each as often as it occurs |
| Compliance.Engine.EvaluateAll | app/services/compliance.py:182-204 | without an active policy nothing changes; otherwise the device is non_compliant exactly when its facts violate a rule of some active policy, each active policy's own report is recorded, and results of inactive policies and other devices read as before |
| Compliance.UpsertThenLookup | app/services/compliance.py:153-175 | the new result is what its pair reads; every other pair reads as before |
| Compliance.EvaluationIsRecorded | app/services/compliance.py:193-194 | after an evaluation each policy's result is its own report |
| Compliance.OtherResultsStay | app/services/compliance.py:193-194 | results of other devices and policies stay |
| Compliance.OneResultInEveryRun | app/services/compliance.py:153-175 | in every run there is at most one result per device and policy |

## Left out

- Tenants, user accounts, audit rows, notifications, e-mail, UserList refresh commands, billing, groups, packages, payload builders, dashboards and HTML: field copies and I/O; one tenant is modelled.
- Password, TOTP, mTLS, rate-limit and role checks, and the check that the token's user is active, which only rejects more requests.
- Network calls and libraries: APNs is a nondeterministic outcome, HMAC a function parameter, XML text a parsed tree, key loading from the extracted bytes is not modelled.
- The clock is one time line for all processes; the per-process monotonic clock and the database's commit time are read from it.
- AdminGrants.GrantsConserved: does not model two decisions on one request whose reads both come before either write, because requests are atomic steps here; only worker passes are split. A failed request or pass changes nothing.
- Job order is the order of the commits; the queued_at column holds the start of the transaction.
- Overlapping result posts for one job, and an agent that stops between polling and running its jobs.
- Script jobs other than the `dseditgroup` ones (software installs) are not in the end-to-end theorem; they share the queue theorems.
- A request row carries its user's short name, which no handler changes; the shell text of a job is modelled by its parsed meaning.
- AppleMdm: last_checkin, device information, compliance status, the PSSO profile queued for a new device (an Enqueue that follows) and row deletion are not modelled; a udid names one row.
- SyncML: tags are local names of one namespace, text "" is the same as no text, and a dictionary value None is the same as a missing key except that build would write the text "None" for a Status or Alert field given as None, which no caller does.
- OmaDm.ManagementServer.Sync: does not model the device fields that Results update, only whether they are still missing, because they lie outside the bookkeeping; equal queued_at values are taken in insertion order, and whether `int()` accepts the message id is an input.
- Profiles: JSON numbers are exact.
- Signup: lower-casing is done before the model starts; two signups racing for one slug are settled by the column's uniqueness.
- Timeline.DeviceTimeline: takes the rows in the order the two queries return them and compares times as numbers, not as ISO texts; negative limits are not modelled.
- Compliance.Engine.EvaluateAll: reads the clock and the pending updates once for all policies, where the code reads them for each; thresholds are numbers or booleans, as any other JSON type makes the request fail; labels stand for their controls.
- Der: the certificate the CA then issues.
