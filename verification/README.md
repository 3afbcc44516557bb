# Verified core of the marketing backend

A Dafny 4.11 model of the parts of the backend that carry state, arithmetic or a protocol, with
proofs of what they keep. `dafny verify dfyconfig.toml` checks everything.

| file | what it models |
|---|---|
| `TokenBucket.dfy` | the in-memory rate limiter, against a limiter that only remembers granted calls |
| `CircuitBreaking.dfy` | the circuit breaker under every interleaving of calls, and the registry of breakers |
| `RetryPolicy.dfy` | the backoff wrapper, and the wrapper around the breaker through an outage |
| `ConcurrentOutage.dfy` | the breaker through an outage when several tasks share it |
| `YoutubeUpload.dfy` | the resumable upload loop, against an unreliable upload server and asset host |
| `Workspaces.dfy`, `WorkspaceServices.dfy` | members, ownership and invitations: each service call as a function of the tables and as a method that changes rows, and runs of calls |
| `WorkspaceSafety.dfy`, `WorkspaceHistory.dfy` | what every run of those calls keeps, and where every member row came from |
| `WorkspaceEffects.dfy` | what each call does to the rows, who may make it, and what it makes of later calls |
| `ContentVersions.dfy` | versioned campaign content |
| `GoogleNames.dfy`, `AccountSync.dfy` | resource names taken apart and rebuilt, and the upserts of the sync job |
| `CampaignSchedules.dfy` | schedules, their audit log and the queued publish tasks |
| `Text.dfy`, `Slug.dfy`, `Results.dfy` | string operations, workspace slugs, optional values and outcomes |

How the model is set up:

- Time and tokens are reals where rates matter and integers elsewhere; every clock reading is an
  argument, so nothing is assumed about it beyond what a lemma requires.
- A table is a sequence of rows, a row's id is its position, and soft deletion is a field. In the
  workspace, content and schedule models a call is one transaction: when it raises, nothing
  changes. The sync model shows what the job's session holds, where earlier upserts stay. The only
  caller of the job (app/infrastructure/celery/tasks/integration.py:28-30) never commits that
  session, so in this repository neither the upserts nor the EXPIRED mark outlives the job. Nor
  does an endpoint of app/api/v1/campaign_schedule.py:27-157 commit what a schedule call wrote, and
  `retry_failed_publishing` has no caller; the schedule model shows what the services do to the
  session they are given.
- Remote parties are parameters: the outcomes of a wrapped function, the choices of the upload
  server and asset host in each round, the answers of the Google and Graph APIs, encryption (of
  which only `dec(enc(x, nonce)) == x` is required), and the mapping that lower-cases a character.
- The upload streams the asset in 4 MiB chunks under a Content-Length of its own making
  (app/integrations/connectors/google/youtube.py:78-94). What the HTTP client does with a body that
  does not fit is not the repository's to decide, so it is a parameter: the client cuts the body
  silently, or it refuses the first chunk that is too long and a body that is too short. The exact
  condition for data preservation names both cases.
- Code that updates fields in a loop or in place is a method of a class or a loop with
  invariants, tied to a specification function; the theorems are about those functions and quantify
  over all runs, that is, all sequences of calls with all arguments.

Where a promised property fails, the code is kept as it is, a lemma gives the input, and another
states exactly when the property holds:

- An asset host that ignores `Range` corrupts a resumed upload, unless there is nothing to resume or
  the client refuses its first chunk (`IgnoredRangeCorrupts`, `PreservedExactlyWhenRangeIsSafe`).
  The client accepts status 200 for a ranged request.
- The client's offset drifts from the stored length after an answer below 400 that the code does
  not list, or after a probe that hides its `Range` (`FirstTurnCanMislead` gives both inputs,
  `TurnStaysInStep` and `OffsetFollowsExactly` the exact condition for a turn and for a run). The
  loop stalls on a 308 that reports no new byte (`StallsExactly`, `StallsForever`). It ends if and
  only if it stalls finitely often (`UploadEndsExactly`).
- An upload whose bytes the server holds completely is reported as failed when the server says so with
  a 308 (`CompleteUploadCanFail`; `LoopEndsExactly` and `UploadReportsExactly` give the condition).
- An owner who transfers ownership to themselves is demoted (`SelfTransferOrphansWorkspace`,
  `SelfTransferKeepsOwnersExactly`). The calls that leave a workspace without an owner are exactly
  the orphaning ones of these (`CallKeepsOwnersExactly`, `OwnedThroughoutExactly`).
- An invite accepted in the second it expires lets the user in and stays pending, because the
  service and the repository test the expiry with different strictness (`InviteCanStayOpen`,
  `AcceptClosesInviteExactly`).
- Content stored without a language is never found again as the latest version, so its versions
  fork (`NullLanguageForksVersions`, `CreateKeepsOneCurrentExactly`, `UpdateKeepsOneCurrentExactly`,
  and `OneCurrentThroughoutExactly` for runs).
- A queued task that fails takes a published campaign out of PUBLISHED (`TaskCanUnpublish`). One call
  does so exactly when it runs a failing task of the campaign (`CallUnpublishesExactly`), and a
  campaign stays published whatever happens exactly when none of its tasks waits
  (`StaysPublishedExactly`).
- A queued task never looks at the status, so it publishes a campaign that was cancelled or paused
  meanwhile (`CancelledCampaignIsPublished`); such a campaign stays unpublished exactly when none of
  its tasks waits (`StaysUnpublishedExactly`).
- A publish task whose success notification raises logs two outcomes
  (`RaisingNotificationLosesBalance`, `TaskConservesExactly`, `BalancedExactly`). This concerns a
  future notifier: the one in app/services/notification_service.py:8-34 only writes to the log.
- A rejected token marks a Facebook connection EXPIRED but never a Google one: the Google connector
  raises its own error (app/integrations/connectors/google/sync.py:43-46 and 62-65), which the job
  does not catch. `RejectedGoogleStaysConnected` gives the input; of the syncs with a rejected token
  exactly Facebook's mark the connection (`SyncEngine.ExecuteSyncJob`).

## Model

| member | source | states |
|---|---|---|
| TokenBucket.RateLimiter.Acquire | app/integrations/rate_limit/limiter.py:24-38 | one lazy refill and one verdict: the new tokens, the new refill time and whether the call is granted |
| TokenBucket.BucketIsWindowLimiter | app/integrations/rate_limit/limiter.py:24-38 | over every run, the verdicts equal those of a limiter that stores no tokens and grants exactly when every window over the granted calls stays within capacity + rate * length |
| TokenBucket.AnswerAll | app/integrations/rate_limit/limiter.py:12-38 | a limiter object asked at any clocked times gives the verdicts of the window limiter |
| TokenBucket.EveryWindowIsBounded | app/integrations/rate_limit/limiter.py:17-38 | in every window of every run the granted calls number at most capacity + refill_rate * elapsed time |
| TokenBucket.TokensStayInRange | app/integrations/rate_limit/limiter.py:17-38 | tokens stay between zero and the capacity whatever the clock does |
| TokenBucket.DeniedCallsAreInvisible | app/integrations/rate_limit/limiter.py:26-38 | dropping or inserting any set of denied calls leaves every other verdict unchanged |
| TokenBucket.LevelAdvances | app/integrations/rate_limit/limiter.py:29-33 | refilling in two steps equals refilling once, cap included |
| TokenBucket.LevelIsTightestWindow | app/integrations/rate_limit/limiter.py:29-38 | the ideal level is at least x exactly when every window over the granted calls leaves x tokens |
| CircuitBreaking.CircuitBreaker.State | app/integrations/circuit_breaker/breaker.py:38-44 | reading the state moves OPEN to HALF_OPEN once the timeout has passed, and nothing else |
| CircuitBreaking.CircuitBreaker.RecordFailure | app/integrations/circuit_breaker/breaker.py:46-54 | counts, stamps, and opens at the threshold or from HALF_OPEN |
| CircuitBreaking.CircuitBreaker.RecordSuccess | app/integrations/circuit_breaker/breaker.py:56-60 | closes and forgets the count |
| CircuitBreaking.CircuitBreaker.Call | app/integrations/circuit_breaker/breaker.py:62-78 | the function runs exactly when admitted; a refused call raises the open error and records nothing; a return closes the breaker and zeroes the count, an expected error counts and stamps, an unexpected one changes neither; the outcome is handed on |
| CircuitBreaking.Registry.GetCircuitBreaker | app/integrations/circuit_breaker/breaker.py:81-88 | the same breaker for the same provider, a fresh default one for a new provider, the others untouched |
| CircuitBreaking.FieldsAreHistory | app/integrations/circuit_breaker/breaker.py:38-78 | after every interleaving the count, the last failure time and the stored state are functions of the history; CLOSED exactly below the threshold |
| CircuitBreaking.FieldsAreOutcomes | app/integrations/circuit_breaker/breaker.py:46-78 | over every interleaving of calls, the count is the expected failures since a call last returned, the stamp is that of the last of them, and the breaker is closed exactly below the threshold |
| CircuitBreaking.PlayMoments | app/integrations/circuit_breaker/breaker.py:62-78 | the same of a breaker object driven through any interleaving |
| CircuitBreaking.CountIsFailuresAfterCut | app/integrations/circuit_breaker/breaker.py:46-60 | the count is the number of failures after the last success, wherever that was |
| CircuitBreaking.RefusedExactlyWhileYoung | app/integrations/circuit_breaker/breaker.py:38-67 | a call is refused if and only if the breaker has tripped, the last failure is younger than the timeout and no probe was let through since |
| RetryPolicy.Retry | app/integrations/retry/policy.py:23-43 | every outcome before the last is an expected exception; the last is returned, open or unexpected, or the calls have run out at max(max_retries, 0) + 1; it is handed on, and the sleeps between follow the backoff schedule |
| RetryPolicy.StopIsUnique | app/integrations/retry/policy.py:25-37 | the outcomes determine after how many calls the wrapper stops |
| RetryPolicy.StopsAtFirstOther | app/integrations/retry/policy.py:25-37 | the first return, open breaker or unexpected exception ends the wrapper at once, without a sleep after it |
| RetryPolicy.TotalSleep | app/integrations/retry/policy.py:41-43 | the total slept is initial_delay * (f^k - 1) / (f - 1), or k * initial_delay when the factor is one |
| RetryPolicy.RetriedCall | app/integrations/oauth/service.py:56-62 | the retried breaker call during an outage: its attempts are sequential and backed off, all but the last reach the provider, and the last does unless refused |
| RetryPolicy.OutageBound | app/integrations/circuit_breaker/breaker.py:38-78 | through an outage the provider is invoked at most threshold + elapsed / recovery_timeout times |
| RetryPolicy.RideOutOutage | app/integrations/oauth/service.py:51-62 | any number of retried calls from a fresh breaker stay within that bound, backoff sleeps advancing the clock |
| RetryPolicy.ProbesAreSpaced | app/integrations/circuit_breaker/breaker.py:38-54 | once the threshold is reached, an admitted call starts at least a recovery timeout after the last failure |
| ConcurrentOutage.ConcurrentOutageBound | app/integrations/circuit_breaker/breaker.py:38-78 | over every interleaving with at most c calls in flight, a provider that is down is invoked at most threshold - 1 + c times, and c times more per recovery timeout since its first failure |
| ConcurrentOutage.BoundIsAttained | app/integrations/circuit_breaker/breaker.py:38-78 | for every threshold, every c and every number of timeouts some interleaving meets that bound with equality |
| ConcurrentOutage.ShareBreaker | app/integrations/circuit_breaker/breaker.py:62-78 | a breaker object driven through any such interleaving stays within the bound |
| YoutubeUpload.UploadVideo | app/integrations/connectors/google/youtube.py:48-144 | the whole upload equals its specification, round by round, with every error path |
| YoutubeUpload.UploadReportsExactly | app/integrations/connectors/google/youtube.py:48-144 | for every run, on the choices of server and host: the upload ends with an id if and only if the server, holding the whole file, gave that id to a PUT or a probe; and it raises Auth, Quota, Api, Network or a malformed answer if and only if the opening, an empty file or some turn did |
| YoutubeUpload.TurnReportsExactly | app/integrations/connectors/google/youtube.py:64-142 | the same of one turn: an accepted PUT needs a non-empty id, a probe does not; 401 and 403 are Auth, 429 is Quota, a missing id or Range is Api; three of them are caught and cost a retry |
| YoutubeUpload.LoopEndsExactly | app/integrations/connectors/google/youtube.py:60-142 | the loop ends without an id exactly when an answer that lets it go on reports that the server holds the whole file |
| YoutubeUpload.HonestUploadSucceeds | app/integrations/connectors/google/youtube.py:60-103 | whatever the pieces in which an honest server takes the file, the upload ends with its id and the server holds the asset |
| YoutubeUpload.CompleteUploadCanFail | app/integrations/connectors/google/youtube.py:105-144 | an upload whose bytes are all stored fails if the server says so with a 308 |
| YoutubeUpload.UploadPreservesData | app/integrations/connectors/google/youtube.py:60-142 | for every job whose Range handling is safe: stored bytes are always a prefix of the asset, the client never runs ahead of the server, and success means exactly the declared bytes are stored |
| YoutubeUpload.PreservedExactlyWhenRangeIsSafe | app/integrations/connectors/google/youtube.py:66-94 | for each file size, asset size and transport, data survives every behaviour of the server if and only if the asset host honours Range, the asset is empty, the file is shorter than two bytes, or the client refuses the first chunk because the asset is too long for a file of one chunk |
| YoutubeUpload.IgnoredRangeCorrupts | app/integrations/connectors/google/youtube.py:73-94 | for every other job, two rounds with accepted 200s store wrong bytes |
| YoutubeUpload.TurnStaysInStep | app/integrations/connectors/google/youtube.py:64-142 | a turn that goes on keeps the offset equal to the stored length if and only if it does not mislead: the deciding answer neither hides the range of bytes that are there nor is an unlisted status below 400 after the server took new bytes |
| YoutubeUpload.OffsetFollowsExactly | app/integrations/connectors/google/youtube.py:63-142 | the offset equals the stored length at every loop head of a run if and only if no turn of it that goes on misleads |
| YoutubeUpload.FirstTurnCanMislead | app/integrations/connectors/google/youtube.py:105-142 | for every honest job, an answer 204 or a probe without Range after one stored byte leaves the offset at zero |
| YoutubeUpload.RunStaysInStep | app/integrations/connectors/google/youtube.py:63-142 | a condition on the answers alone: the offset stays equal if no probe hides its range and no answer is an unlisted status below 400; a PUT may hide its range, since the probe recovers it |
| YoutubeUpload.RetryBudget | app/integrations/connectors/google/youtube.py:61-130 | at most three caught failures and two probes in any run |
| YoutubeUpload.UnfinishedUploadStalls | app/integrations/connectors/google/youtube.py:60-144 | for every server and host, a run that has not ended has made at most 3 * file_size + 2 turns besides those that stalled |
| YoutubeUpload.UploadEndsExactly | app/integrations/connectors/google/youtube.py:60-144 | against any endless behaviour of server and host the loop ends if and only if it stalls finitely often |
| YoutubeUpload.StallsExactly | app/integrations/connectors/google/youtube.py:96-118 | the turns that make no progress, exactly: an unlisted status below 400, or a 308 that reports no new byte |
| YoutubeUpload.StallsForever | app/integrations/connectors/google/youtube.py:105-118 | a server that stores nothing and keeps giving such an answer holds the loop in one state for any number of rounds |
| Text.NormalEmailIsFinal | app/services/workspace_invitation.py:42 | normalising an address a second time changes nothing, as the repository does to the service's result |
| Text.SpellingsAgree | app/services/workspace_invitation.py:42 | two spellings of an address that differ in case or outer spaces only are one address |
| Text.SpellingIsNormalised | app/services/workspace_invitation.py:42 | an address whose lower-cased form has no outer spaces becomes that form |
| Slug.SlugIsJoinedWords | app/services/workspace.py:24-27 | the slug is the words of the lower-cased name joined by hyphens |
| Slug.SlugIsNormal | app/services/workspace.py:24-27 | only letters, digits and single inner hyphens, and the letters and digits of the name in order |
| Slug.AlnumIsAscii | app/services/workspace.py:26 | the characters a slug keeps are the ASCII codes of the 26 small letters and the ten digits |
| Slug.SlugsAreTheFixedPoints | app/services/workspace.py:24-27 | a string is left alone by slugging if and only if it is in normal form |
| Slug.SluggingTwice | app/services/workspace.py:24-27 | slugging a slug changes nothing |
| Workspaces.GetMember | app/repositories/workspace_member.py:42-51 | a live row of the user in the workspace, or none when there is none |
| Workspaces.GetByToken | app/repositories/workspace_invite.py:28-33 | an invite with the token, or none when there is none |
| WorkspaceServices.Database.ProtectOwnerRole | app/services/workspace_member.py:35-57 | raises exactly for a last active owner, by counting the live active owners |
| WorkspaceServices.Database.ChangeRole | app/services/workspace_member.py:59-124 | the error raised, or the one row changed |
| WorkspaceServices.Database.SuspendMember | app/services/workspace_member.py:126-162 | the error raised, or the one row suspended |
| WorkspaceServices.Database.ReactivateMember | app/services/workspace_member.py:164-198 | the error raised, or the one row active |
| WorkspaceServices.Database.RemoveMember | app/services/workspace_member.py:200-238 | the error raised, or the one row removed and stamped |
| WorkspaceServices.Database.CreateWorkspace | app/services/workspace.py:29-81 | the error raised, or the workspace with its creator as active Owner |
| WorkspaceServices.Database.DeleteWorkspace | app/services/workspace.py:194-205 | the error raised, or the workspace softly deleted |
| WorkspaceServices.Database.TransferOwnership | app/services/workspace.py:121-165 | the error raised, or owner, promotion and demotion in the code's order |
| WorkspaceServices.Database.RevokeAllFor | app/services/workspace_invitation.py:63-69 | the loop revokes every pending invite for the address in the workspace and no other row |
| WorkspaceServices.Database.CreateInvite | app/services/workspace_invitation.py:34-82 | the error raised, or older invites revoked and one new pending invite |
| WorkspaceServices.Database.RevokeInvite | app/services/workspace_invitation.py:118-134 | the error raised, or the pending invite revoked |
| WorkspaceServices.Database.ResendInvite | app/services/workspace_invitation.py:148-168 | the error raised, or the pending invite extended by seven days |
| WorkspaceServices.Database.ExpireInvites | app/repositories/workspace_invite.py:74-86 | the bulk expiry and the number of rows it changed |
| WorkspaceServices.Database.AcceptInvite | app/services/workspace_invitation.py:186-245 | the error raised, or the member row if there was none and the invite as the repository's own test leaves it |
| WorkspaceServices.PerformAll | app/services/workspace.py:29-205 | any sequence of calls on a fresh database leaves exactly the tables the run theorems are about |
| WorkspaceSafety.EveryWorkspaceStaysOwned | app/services/workspace_member.py:36-57 | over all runs without a demoting self-transfer, every workspace has a live ACTIVE member with the Owner role |
| WorkspaceSafety.TransferToOtherKeepsOwners | app/services/workspace.py:153-165 | a transfer to someone else, or to oneself as Owner, keeps every workspace owned |
| WorkspaceSafety.SelfTransferKeepsOwnersExactly | app/services/workspace.py:155-165 | a demoting self-transfer keeps the workspace owned if and only if someone else is an active owner |
| WorkspaceSafety.SelfTransferOrphansWorkspace | app/services/workspace.py:155-165 | a sole owner's self-transfer leaves the workspace without an owner |
| WorkspaceSafety.CallKeepsOwnersExactly | app/services/workspace.py:121-165 | of all twelve calls, exactly the self-transfer to a lesser role by an owner with no other active owner beside them leaves a workspace without an owner |
| WorkspaceSafety.OwnerRoleNeedsTheOwner | app/services/workspace_member.py:84-94 | on an existing row only the workspace's owner, by a role change or a transfer, gives or takes the Owner role |
| WorkspaceHistory.TablesStayInOrder | app/models/workspace_invite.py:48-57 | over all runs: one pending invite per workspace and address, one row per workspace and user, timestamps and REMOVED agree with statuses |
| WorkspaceHistory.OwnedThroughoutExactly | app/services/workspace.py:121-165 | every workspace has an active owner at every point of a run if and only if no call of the run is such a self-transfer |
| WorkspaceHistory.RunEvolves | app/repositories/workspace_invite.py:45-98 | between any two points of a run, settled invites and removed members are frozen and no row changes identity |
| WorkspaceHistory.InviteFailsOnlyOnToken | app/services/workspace_invitation.py:63-82 | sending an invite never violates the partial unique index: the insert fails if and only if the checks before it passed and the token is in use |
| WorkspaceHistory.AcceptClosesInviteExactly | app/repositories/workspace_invite.py:45-60 | after a successful accept the invite is ACCEPTED if and only if its expiry lies after the second clock reading; the user is a member either way |
| WorkspaceHistory.InviteCanStayOpen | app/services/workspace_invitation.py:211-245 | a run in which the guest joins and the invite stays pending |
| WorkspaceHistory.ResentInviteWindow | app/services/workspace_invitation.py:164-168 | a resent invite can be accepted by its addressee exactly up to seven days after the resending |
| WorkspaceHistory.EveryMemberHasOrigin | app/services/workspace_invitation.py:216-245 | every member row of every run was inserted by creating its workspace or by accepting an invite for the user's email, with the invite's role and inviter |
| WorkspaceEffects.TransferHandsOver | app/services/workspace.py:153-165 | a transfer writes the owner column, gives the new owner the Owner role and the old owner the named role, and changes no other field of any row |
| WorkspaceEffects.TransferMovesPowers | app/services/workspace.py:121-205 | afterwards the old owner can no longer delete the workspace, transfer it or remove its members, and the new owner passes those checks |
| WorkspaceEffects.OwnerCallsForbiddenExactly | app/services/workspace.py:121-205 | transfer, deletion and removal are forbidden exactly to those who do not own the live workspace |
| WorkspaceEffects.TransferSucceedsExactly | app/services/workspace.py:140-152 | the owner can hand a live workspace to a member exactly if that member is active |
| WorkspaceEffects.TransferRefusesExactly | app/services/workspace.py:121-165 | why an owner's transfer fails: the new owner is no active member, there is no Owner role, or the role named for the old owner does not exist |
| WorkspaceEffects.CreateMakesOwner | app/services/workspace.py:29-81 | a created workspace is live under the given or generated slug, and its creator owns it and is its first active Owner |
| WorkspaceEffects.CreateRefusesExactly | app/services/workspace.py:29-60 | a slug that any workspace has, deleted or not, is a bad request; without a system Owner role creation fails |
| WorkspaceEffects.SlugsStayUnique | app/services/workspace.py:40-50 | over all runs no two workspaces, deleted ones included, share a slug |
| WorkspaceEffects.DeletedIsNotFound | app/services/workspace.py:194-205 | deletion stamps the one workspace, and every later call that names it finds nothing |
| WorkspaceEffects.GuardRefusesExactly | app/services/workspace_member.py:35-57 | suspension, removal and role changes are refused for a workspace's only active owner and for no one else |
| WorkspaceEffects.ChangeRoleSucceedsExactly | app/services/workspace_member.py:59-124 | anyone may change the role of a member who is not the only owner, unless the Owner role is given or taken, which needs the workspace's owner |
| WorkspaceEffects.ChangeRoleSetsRole | app/services/workspace_member.py:96-124 | the one row has the new role and keeps everything else |
| WorkspaceEffects.StatusCallsSetStatus | app/services/workspace_member.py:126-238 | the one row is suspended, active, or removed with the time of removal, and keeps its role |
| WorkspaceEffects.SuspendReactivateRestores | app/services/workspace_member.py:126-198 | suspending an active member and reactivating them leaves the tables as they were |
| WorkspaceEffects.RemovedIsNotFound | app/services/workspace_member.py:200-238 | a removed member is found neither by user nor by id |
| WorkspaceEffects.InviteIsSent | app/services/workspace_invitation.py:34-82 | a sent invite is pending for the normalised address with the given role, inviter and token for seven days; older pending ones for it are revoked now; no other row changes |
| WorkspaceEffects.InviteRefusesExactly | app/services/workspace_invitation.py:34-62 | an invitation is not found without a live workspace and the role, and a bad request exactly if a live member has the address |
| WorkspaceEffects.InvitedUserJoins | app/services/workspace_invitation.py:34-245 | with that invite exactly a user of that address joins, up to seven days later, unless a removed row of theirs is in the way |
| WorkspaceEffects.AcceptLetsIn | app/services/workspace_invitation.py:216-245 | accepting inserts an active member with the invite's role and inviter if there is none, stamps the invite if its time is not up, and changes no other row |
| WorkspaceEffects.AcceptRefusesExactly | app/services/workspace_invitation.py:186-215 | why accepting is refused, in the order of the checks |
| WorkspaceEffects.ClosedInvitesLetNoOneIn | app/repositories/workspace_invite.py:74-98 | the bulk expiry closes exactly the pending invites whose time is up; neither those nor revoked ones can be accepted |
| WorkspaceEffects.InviteCallsAreLocal | app/services/workspace_invitation.py:118-168 | revoking and resending need a pending invite of the live workspace and change its row only |
| WorkspaceEffects.TokensStayUnique | app/models/workspace_invite.py:48-57 | over all runs a token names one invite |
| ContentVersions.GetLatestVersion | app/repositories/campaign_content.py:36-61 | a live current row of the slot with the greatest version, or none when there is none |
| ContentVersions.ContentService.CreateContent | app/services/ai_content.py:37-76 | the error raised, or the next version linked to the retired latest one |
| ContentVersions.ContentService.UpdateContent | app/services/ai_content.py:114-128 | the error raised, or the fields that were sent written to the one row |
| ContentVersions.ContentService.DeleteContent | app/services/ai_content.py:130-156 | the error raised, or the one row softly deleted |
| ContentVersions.PerformAll | app/services/ai_content.py:37-156 | any requests on an empty service leave the table of the run theorems, for the answers its look-ups got |
| ContentVersions.CreateStoresInput | app/services/ai_content.py:51-76 | the new row has the fields that were sent and is a live current draft, one version after the latest row, which is retired; no other row changes |
| ContentVersions.CreatedIsLatest | app/services/ai_content.py:51-76 | a version created with a language is what the next look-up finds |
| ContentVersions.UpdateWritesFields | app/services/ai_content.py:114-128 | the fields that were sent are written, a null language included, and all others stay |
| ContentVersions.DeletedIsGone | app/services/ai_content.py:130-156 | the row keeps its fields, and no request or look-up finds it again |
| ContentVersions.RequestsFindExactly | app/services/ai_content.py:37-156 | which requests succeed: the campaign or the live row lies in the workspace that was named, and no required column is set to null |
| ContentVersions.TableStaysLinked | app/services/ai_content.py:51-76 | over all runs: a row's parent is one version below it, is retired and has no other child; a row has no parent exactly at version one |
| ContentVersions.ChainCountsVersions | app/services/ai_content.py:63-76 | the ancestor chain of a row has exactly as many rows as its version, numbered one by one |
| ContentVersions.ChainsNeverFork | app/services/ai_content.py:63-76 | of two rows with a common ancestor the shorter chain begins the longer |
| ContentVersions.LatestIsTheCurrentOne | app/repositories/campaign_content.py:47-61 | when the current version is unique, the look-up returns it |
| ContentVersions.CurrentVersionStaysUnique | app/services/ai_content.py:51-76 | over all runs of creates with a language, deletes, and updates that keep type and language, each slot has one live current row |
| ContentVersions.OneCurrentThroughoutExactly | app/services/ai_content.py:51-156 | each slot has one live current row at every point of a run if and only if no call of the run is a create without a language onto a row stored under the same one, or an update that moves a current row to a taken slot |
| ContentVersions.CreateKeepsOneCurrentExactly | app/services/ai_content.py:52-76 | a create keeps it so if and only if the language is non-empty or nothing live and current is stored under the same null or empty language |
| ContentVersions.UpdateKeepsOneCurrentExactly | app/services/ai_content.py:122-128 | an update keeps it so if and only if the row is not current or its new slot is free |
| ContentVersions.NullLanguageForksVersions | app/services/ai_content.py:56-59 | two creates without a language leave two current first versions |
| GoogleNames.SplitJoin | app/integrations/connectors/google/sync.py:88-100 | splitting a resource name at slashes loses nothing and leaves slash-free parts |
| GoogleNames.KeyRoundTrip | app/integrations/sync/engine.py:355-356 | for slash-free ids, taking the names apart and rebuilding the key gives the full location name |
| GoogleNames.NameSurvivesExactly | app/integrations/sync/engine.py:355-356 | a full location name is rebuilt unchanged if and only if it lies under the account's own id |
| GoogleNames.KeyIsInjective | app/integrations/sync/engine.py:355-356 | keys with slash-free account ids are equal exactly when both ids are |
| GoogleNames.KeysCollideExactly | app/integrations/sync/engine.py:355-356 | two locations share a key if and only if the last segments of both their names agree |
| GoogleNames.ParseLocations | app/integrations/connectors/google/sync.py:92-103 | one entry per named location, in order |
| GoogleNames.NamedLocationsExactly | app/integrations/connectors/google/sync.py:92-100 | the locations that are synchronised are those whose name is not empty, in order |
| GoogleNames.PerformSync | app/integrations/connectors/google/sync.py:75-119 | one entry per named account, in order, with its parsed locations and the count; or the first failure |
| GoogleNames.FirstFailureIsUnique | app/integrations/connectors/google/sync.py:84-91 | the error reported is that of the first account whose locations could not be fetched |
| AccountSync.SyncEngine.UpsertAccount | app/integrations/sync/engine.py:97-133 | one upsert of the newest live row for the key, extending the override by one item |
| AccountSync.SyncEngine.SyncPages | app/integrations/sync/engine.py:88-133 | the table's accounts become the old ones overridden by the usable pages in order; other rows untouched; stops at a page without id or name |
| AccountSync.SyncEngine.SyncLocations | app/integrations/sync/engine.py:341-396 | the same for the locations of one account, under the composite key |
| AccountSync.SyncEngine.SyncBusinesses | app/integrations/sync/engine.py:319-396 | the same over all accounts with the connection's tokens; nothing without an access token |
| AccountSync.SyncEngine.ExecuteSyncJob | app/integrations/sync/engine.py:56-85 | from the API answers to table and connection: the connection becomes EXPIRED exactly when a Facebook request of a full sync is answered 400 or 401 with an OAuthException, so a rejected token marks it exactly if the provider is Facebook; a failed fetch touches no row; otherwise the override by the pages, or by the locations of the named Google accounts |
| AccountSync.JobStores | app/integrations/sync/engine.py:88-396 | from the API answers to the rows, for Facebook and Google: when every fetch arrived the job ends without an error, and under every key the newest live row is the active account with the name and token of the last usable page, or of the last location with the connection's tokens and expiry; keys no answer mentions keep their account |
| AccountSync.JobSucceedsExactly | app/integrations/connectors/facebook/sync.py:19-84 | the job ends without an error if and only if both Facebook requests were answered 200 with usable pages, or every Google fetch succeeded |
| AccountSync.JobStaysInScope | app/integrations/sync/engine.py:56-396 | whatever its outcome, rows of other workspaces and providers are untouched and unique keys stay unique |
| AccountSync.RejectedJobFails | app/integrations/sync/engine.py:75-85 | whichever request of either provider says the token is no good, no row is written and only Facebook's error is an OAuthTokenError |
| AccountSync.RejectedGoogleStaysConnected | app/integrations/connectors/google/sync.py:43-46 | a connected Google account whose accounts request is answered with an authorisation error stays CONNECTED |
| AccountSync.Find | app/repositories/base.py:25-52 | the newest live row that matches workspace, provider and key, or none when there is none |
| AccountSync.EveryNamedLocationIsSynced | app/integrations/sync/engine.py:341-396 | after the sync, every named location of every named account is an account under its composite key, unless its name ends in a slash |
| AccountSync.LastItemWins | app/integrations/sync/engine.py:109-133 | in the override the last item for a key wins and unmentioned keys stay |
| AccountSync.UpsertOverrides | app/integrations/sync/engine.py:97-133 | one upsert is one map update of the decrypted view, whether it creates or updates |
| AccountSync.UpsertFrame | app/integrations/sync/engine.py:97-133 | rows of other workspaces and providers and deleted rows are untouched, and unique live keys stay unique |
| AccountSync.SyncEngine.ExecuteTwice | app/integrations/sync/engine.py:56-133 | the job run twice against the same answers: the second run ends like the first, creates no row and leaves every account as it was after decryption |
| AccountSync.SecondJobAgrees | app/integrations/sync/engine.py:319-396 | the same of any two runs, whatever nonces encryption draws; the API answers determine outcome and accounts |
| CampaignSchedules.CampaignScheduler.ScheduleCampaign | app/services/campaign_scheduler.py:19-98 | the error raised, or the row and the entry written |
| CampaignSchedules.CampaignScheduler.PublishImmediately | app/services/campaign_scheduler.py:100-140 | the error raised, or the row, the entry and the queued task |
| CampaignSchedules.CampaignScheduler.PauseSchedule | app/services/campaign_scheduler.py:142-170 | the error raised, or the pause |
| CampaignSchedules.CampaignScheduler.ResumeSchedule | app/services/campaign_scheduler.py:172-200 | the error raised, or the resumption |
| CampaignSchedules.CampaignScheduler.CancelSchedule | app/services/campaign_scheduler.py:202-230 | the error raised, or the cancellation |
| CampaignSchedules.CampaignScheduler.RetryFailedPublishing | app/services/campaign_scheduler.py:232-262 | the error raised, or the retry counted, logged and queued |
| CampaignSchedules.CampaignScheduler.RunTask | app/services/campaign_scheduler.py:264-320 | one queued task run, with the except branch after a raising notification |
| CampaignSchedules.PerformAll | app/services/campaign_scheduler.py:19-320 | any interleaving of operations and tasks on a fresh scheduler leaves exactly the book the run theorems are about |
| CampaignSchedules.ScheduleSucceedsExactly | app/services/campaign_scheduler.py:28-60 | scheduling succeeds exactly for a date not in the past and an open campaign that is unpublished and, if it has a row, in this workspace; and which error it raises otherwise |
| CampaignSchedules.ScheduleSetsDate | app/services/campaign_scheduler.py:52-98 | the row has the new date, is SCHEDULED and without an error, and keeps its retries; one entry is logged and nothing else changes |
| CampaignSchedules.PublishQueues | app/services/campaign_scheduler.py:100-140 | which rows can be published now, and that the row, the entry and one task for it are all that changes |
| CampaignSchedules.PauseResumeRestores | app/services/campaign_scheduler.py:142-200 | pausing needs a SCHEDULED row, resuming a PAUSED one, and resuming undoes pausing |
| CampaignSchedules.CancelAndRetryEffects | app/services/campaign_scheduler.py:202-262 | which rows can be cancelled or retried, and what becomes of them |
| CampaignSchedules.RefusalsTellWhy | app/services/campaign_scheduler.py:142-262 | a campaign without a row in the workspace is not found, a row in the wrong status is a bad request |
| CampaignSchedules.TaskRecordsOutcome | app/services/campaign_scheduler.py:264-320 | a task leaves the queue and publishes its campaign, clearing the error, or records the message with which it failed |
| CampaignSchedules.LogDeterminesSchedules | app/services/campaign_scheduler.py:52-320 | over all interleavings the log of a campaign determines whether it has a schedule, its status and its retry count, and every retry follows a failure |
| CampaignSchedules.RetriesAreBounded | app/services/campaign_scheduler.py:240-257 | there are never more retries than failures |
| CampaignSchedules.TasksAreAccounted | app/services/campaign_scheduler.py:134-320 | over all runs, triggers plus retries plus outcomes logged in excess by a raising success notification equal waiting tasks plus successes plus failures |
| CampaignSchedules.BalancedExactly | app/services/campaign_scheduler.py:134-320 | at the end of a run, triggers plus retries equal waiting tasks plus successes plus failures if and only if no success notification of the campaign raised |
| CampaignSchedules.TaskConservesExactly | app/services/campaign_scheduler.py:286-320 | running a task keeps that balance if and only if no success notification raises |
| CampaignSchedules.RaisingNotificationLosesBalance | app/services/campaign_scheduler.py:286-320 | a publish and one task whose success notification raises already lose that balance |
| CampaignSchedules.UsersCannotUnpublish | app/services/campaign_scheduler.py:56-245 | no user operation changes the row or the history of a published campaign, or queues a task for it |
| CampaignSchedules.CallUnpublishesExactly | app/services/campaign_scheduler.py:264-320 | one call takes a campaign out of PUBLISHED if and only if it runs a waiting task of the campaign that fails or whose notification raises |
| CampaignSchedules.StaysPublishedExactly | app/services/campaign_scheduler.py:100-320 | a published campaign stays published through every continuation if and only if none of its tasks is waiting |
| CampaignSchedules.TaskCanUnpublish | app/services/campaign_scheduler.py:299-317 | a run in which a second queued task turns PUBLISHED into FAILED |
| CampaignSchedules.StaysUnpublishedExactly | app/services/campaign_scheduler.py:264-320 | a campaign that is not published and that its users leave alone stays so through every continuation if and only if none of its tasks is waiting |
| CampaignSchedules.CancelledCampaignIsPublished | app/services/campaign_scheduler.py:202-297 | a run in which a successfully cancelled campaign is published by its waiting task |

## Left out

- Floating point: rates, delays and clocks are exact reals.
- The `rate_limit` decorator: it calls the function exactly when `Acquire` grants.
- How a Google answer's status becomes an error: the sync model takes each fetch as its value or the connector's error.
- Publishing itself: the code has a placeholder, so a task fails when the database raises before its success is logged.
- Requests and responses beyond status, `Range` and the video id; titles, descriptions and headers of the upload.
- The upload server is assumed never to claim bytes it does not hold; a server that lies about its range is not modelled.
- Route guards and permissions: the workspace services are modelled as if any user could call them, which only adds runs.
- `update_workspace`: it writes name, slug and settings, which no property here depends on beyond the slug's uniqueness check.
- Overlapping database transactions: each service call is atomic, so races between two of them are not covered.
- Audit rows, notifications and emails of the workspace services: they read nothing back.
- Several clock readings within one call are one argument, except in accepting an invite, where the two tests read it separately.
- CircuitBreaking.CircuitBreaker.Call: covers an uninterrupted call; interleaved ones are covered by its two halves and the history lemmas.
- Exceptions outside the expected ones during an outage: the breaker does not count them, so no bound on invocations holds.
- Hard deletion, cascades and `SET NULL` foreign keys: the modelled services delete softly.
- Creating and changing users, roles and campaigns: they are fixed during a run.
- The Instagram, LinkedIn and Twitter branches of the sync job: the same upsert over a list or a single profile.
- Lower-casing that depends on neighbouring characters, and white space beyond blank, tab, newline and carriage return.
- The language length limit and other request validation.
- `old_values` of audit entries, time zones, and the two-second sleep before publishing.
- Generating content with an AI provider, listing and paging queries.
