# Ordessa: verified model

This project models the parts of Ordessa whose correctness depends on interleavings, histories or long inputs, and
proves what the code and its documentation promise about them. The model has four groups.

**The ACP channel release lifecycle.** `release_protocol.dfy` is one ACP client as a state machine: every stretch of
code between two awaits is one step, and project opens, acquires, handshakes, release answers, disposal and retry passes
interleave freely. `acp_client.dfy` is the client object itself, each method proved to be its step, and
`release_causes.dfy` reads registrations, requests and refusals off the events of a run. `host_mirror.dfy` composes any
number of clients with the connections workspace that evicts them and keeps a copy of what they still have to release;
`workspace.dfy` is the workspace object, whose evictions really dispose the client objects.

**The same client's projections.** `session_keys.dfy` (routing keys), `session_names.dfy` (titles under answers that
arrive out of order), `transcript.dfy` (chunks to messages) and `approvals.dfy` (who may answer a permission request).

**The Server's managed channels.** `entry_protocol.dfy` and `access_entry.dfy` are the transport that asks an access
entry to release what it started; `registry_protocol.dfy` and `registry.dfy` are the channel registry, whose lock sections
are the steps and whose connections each hold a transport machine; `registry_endings.dfy` says how often the ledger is
asked to end a run, `registry_ledger.dfy` what it records, and `registry_reasons.dfy` for which reason.

**Self-contained cores.** `usage_aggregate.dfy`, `control_plane_sync.dfy`, `workbench.dfy`, `home_audit.dfy` with
`audit_snapshot.dfy`, `account_assets.dfy` and `session_groups.dfy`.

Code that updates an object is a class whose methods are proved against step functions; the results about all runs are
lemmas over those functions. `wrappers.dfy` and `decimals.dfy` hold what several modules share.

## What the model assumes

- The handles of a run carry distinct connection ids: a hypothesis on the run (`Possible`), not on the client's steps.
  `DistinctIdsSuffice` states the central claims on it, and `SharedConnectionIdSettlesTooEarly` shows why it is needed.
- `release()` always returns a promise, and watchers neither throw nor call back into the client.
- Every transport reports its end as the access entry's does: `on_exit` is called once at most, with or without a code.
- The run ledger returns a turn that has ended as it is; other writers of the ledger do not end a channel's run.
- Iteration orders of JavaScript maps and sets are any order, an await may resume at any time, and the items of `stop_all`
  may overlap: the results hold for more schedules than the code has.
- Native session ids are arbitrary; what needs them to be non-empty says so, and `EmptyIdBreaksInverse` shows why. Native
  message ids, tool-call ids and minted ids are told apart by their type.
- The naming results are about sessions that exist: the title a session is created with is written without a number.
- Content digests are injective. The fields of a JSON object stand in canonical order.
- Collation of contribution ids is an arbitrary ranking; ids it does not separate keep their order of arrival.
- A home is a finite tree whose directories list their entries in name order; what a read returns is arbitrary.

## Main results

Rows about one step, one method or one helper are the building blocks; the results they build to are, over every run or
every input:

- `ReleaseProtocol.RunKeepsInv`, `RunFaithful`, `AttestationIsFinal`, `ReleaseCauses.RegisteredExactly` and
  `RequestHasACause`, `HostMirror.MirrorLosesNothing`
- `SessionKeys.KeysFormABijection`, `SessionNames.LastIssuedWins` and `ArrivalOrderIsIrrelevant`,
  `Transcript.GroupingIsExact`, `RolesAreExact` and `IdlessChunksShareExactly`, `Approvals.OwnershipHolds`,
  `PendingExactly`, `OutcomesAreOffered` and `EndedAsksStayClosed`
- `EntryProtocol.EntryRunSafe` and `AnswerIsTold`, `RegistryProtocol.ClaimsWriteOnce` and `ReleasedMeansReceipt`,
  `RegistryEndings.AskedTwiceExactly`, `RegistryLedger.EveryRunEndsOnce`, `RegisteredRunIsOpenExactly` and
  `OneExitCallback`, `RegistryReasons.RecordedForItsReason` and `ReleaseTakesOnProof`
- `UsageAggregate.SubtreeUsage` and `UsageIsConserved`, `ControlPlaneSync.HistoryDoesNotMatter`,
  `Workbench.ShownViewsStandThere`, `HomeAudit.UncutWalkIsComplete` and `HomesWithinBoundsAreListed`,
  `AuditSnapshot.AuditIsConserved`, `AccountAssets.UnpacksThePacked` and `PacksExactly`,
  `SessionGroups.GroupsArePermutation` and `GroupsStandInOrder`

## Where the code does less than it promises

- `RegistryLedger.RegisteredRunIsOpenExactly`: a registered connection can be dead. If the Agent exits before its
  connection is published, the connection stays registered after its failure is recorded
  (`DeadConnectionStaysRegistered`), every later `acquire` of the pair returns it (`RegisteredIsHandedOut`), and a release
  of it answers `released: True` while the ledger keeps the failure (`ReleaseOfTheDeadAsksTwice`).
- `RegistryEndings.AskedOnceExactly`: the ledger can be asked twice to end one run, by `acquire`'s look at the exit code and
  by a claim. It records the first call only (`RegistryLedger.OneEndingIsRecorded`).
- `ReleaseProtocol.SharedConnectionIdSettlesTooEarly`: the Server hands out the live connection of a pair again, and the
  client makes a new handle of it; after a refused stand-down the attestation can then be given with a request unanswered.
- `SessionKeys.StableUnlessEmpty`: the first answer for an empty native id nobody held differs from the second, which is
  final (`SecondAnswerIsFinal`).
- `Workbench.EndClearsTheSelectionExactly`: after the end of the workbench's lifetime a slot can name a view that is gone
  (`GoneViewStaysSelected`).
- `SessionGroups.StandaloneListsExactly`: a workspace called `standalone`, or one whose path is only slashes, is listed among
  the sessions without a workspace (`WorkspaceShownAsStandalone`).
- `AuditSnapshot.WalkedPathIsSafeExactly`: one file with a backslash in its name ends the whole audit
  (`BackslashEndsTheAudit`).
- `ControlPlaneSync.AcceptedExactly`: a set with two records under one key is planned but can never be applied
  (`TwoVersionsAreNeverApplied`).

## Model

| member | source | states |
|---|---|---|
| ReleaseProtocol.RunKeepsInv | plugins/connectors/acp/src/client.ts:84-306 | In every schedule whose handles carry distinct connection ids the joint invariant holds at every step boundary: a client has settled if and only if it is disposed with empty ledger, `unownedHandles` and `opening`; every handle ever acquired is unowned, in `channels`, in the ledger or confirmed; a ledger entry is in flight exactly while its request is out |
| ReleaseProtocol.StepKeepsInv | plugins/connectors/acp/src/client.ts:186-306 | Each stretch of code between two awaits keeps that invariant, whatever other task, answer, disposal or retry pass fell in between |
| ReleaseProtocol.FreshInv | plugins/connectors/acp/src/client.ts:99-104 | A new client satisfies the invariant, with nothing acquired and nothing attested |
| ReleaseProtocol.OneAttemptPerProject | plugins/connectors/acp/src/client.ts:186-203 | Two opening attempts under way never serve the same project |
| ReleaseProtocol.SettledIsSilent | plugins/connectors/acp/src/client.ts:92-104 | After the attestation no step, a retry pass already under way included, announces or requests anything |
| ReleaseProtocol.AttestationIsFinal | plugins/connectors/acp/src/client.ts:92-104 | The same over every schedule: a settled client stays settled, keeps its book and shows nothing |
| ReleaseProtocol.SettledKeepsBook | plugins/connectors/acp/src/client.ts:99-104 | After the attestation the ledger and the confirmed set never change again |
| ReleaseProtocol.StepFaithful | plugins/connectors/acp/src/client.ts:84-104 | The announcements and requests of a step pass the release discipline and turn a copy of the old ledger into a copy of the new one |
| ReleaseProtocol.RunFaithful | plugins/connectors/acp/src/client.ts:212-257 | Over every run: no request while one is in flight or after confirmation, no answer nobody asked for, no attestation with a request out, and a listener's copy is the ledger |
| ReleaseProtocol.OneRequestInFlight | plugins/connectors/acp/src/client.ts:212-234 | In the effects of any run of a new client, between two requests for one handle there is a refusal of it |
| ReleaseProtocol.RequestHolds | plugins/connectors/acp/src/client.ts:212-234 | Read off any history that passes the discipline: after a request for a handle, another one needs a refusal in between |
| ReleaseProtocol.AuditConcat | plugins/connectors/acp/src/client.ts:212-234 | The discipline of a history is the discipline of its parts in sequence |
| ReleaseProtocol.MirroredConcat | plugins/connectors/acp/src/client.ts:74-90 | A copy fed in batches is the copy fed at once |
| ReleaseProtocol.AnswerKeeps | plugins/connectors/acp/src/client.ts:212-234 | A release answer moves its handle from in flight to confirmed or failed and keeps the invariant |
| ReleaseProtocol.OwnedArrivalKeeps | plugins/connectors/acp/src/client.ts:263-280 | A handle acquired by a live client is unowned by exactly the task that brought it |
| ReleaseProtocol.RefusedArrivalKeeps | plugins/connectors/acp/src/client.ts:263-280 | A handle that arrives after disposal is put on record for release at once |
| ReleaseProtocol.RegisteredKeeps | plugins/connectors/acp/src/client.ts:281-306 | A handshake finished in time shows nothing and moves the handle from unowned to the channel of the project that was asked for; the invariant stays |
| ReleaseProtocol.InitFailedKeeps | plugins/connectors/acp/src/client.ts:281-306 | A failed handshake, or one finished after disposal, puts the handle on record for release |
| ReleaseProtocol.DisposeKeeps | plugins/connectors/acp/src/client.ts:499-518 | Disposal puts every channel's handle and every unowned handle on record and leaves `opening` as it is |
| ReleaseProtocol.RetryStartKeeps | plugins/connectors/acp/src/client.ts:250-257 | A retry pass works on a snapshot of the ledger and keeps the invariant |
| ReleaseProtocol.DistinctIdsSuffice | plugins/connectors/acp/src/client.ts:84-306 | On the one hypothesis that the handles of a run carry distinct connection ids: the attestation is exact and no handle is orphaned |
| ReleaseProtocol.DistinctIdsExactly | plugins/connectors/acp/src/client.ts:263-280 | Every arrival brings a new id if and only if the handles of the whole run carry distinct ones |
| ReleaseProtocol.SharedConnectionIdSettlesTooEarly | plugins/connectors/acp/src/client.ts:74-104 | A schedule of a new client in which one connection is handed out under two handles: the client attests while a request is unanswered, and the answer announces again |
| AcpClientRelease.AcpClient.MaybeDrainReleases | plugins/connectors/acp/src/client.ts:99-104 | Resolves `releasesSettled` once, exactly when the client is disposed and everything outstanding is empty |
| AcpClientRelease.AcpClient.Announce | plugins/connectors/acp/src/client.ts:84-90 | Updates the ledger entry of the handle, tells the watchers, and drains |
| AcpClientRelease.AcpClient.Release | plugins/connectors/acp/src/client.ts:212-234 | A caller that finds an attempt under way or a confirmation issues no request |
| AcpClientRelease.AcpClient.OnReleaseAnswered | plugins/connectors/acp/src/client.ts:212-234 | The continuation of the backend's answer: confirmed for good, or failed and retryable |
| AcpClientRelease.AcpClient.EnsureChannel | plugins/connectors/acp/src/client.ts:186-203 | A live channel or a pending attempt is joined, otherwise one task starts |
| AcpClientRelease.AcpClient.OnProjectOpened | plugins/connectors/acp/src/client.ts:263-270 | The task goes on to acquire, or fails with nothing to stand down |
| AcpClientRelease.AcpClient.OnAcquired | plugins/connectors/acp/src/client.ts:263-280 | The handle is unowned, or stood down at once when the client is disposed |
| AcpClientRelease.AcpClient.OnInitialized | plugins/connectors/acp/src/client.ts:281-306 | The handle becomes the project's channel, or is stood down |
| AcpClientRelease.AcpClient.OnStoodDown | plugins/connectors/acp/src/client.ts:238-248 | The task ends in failure once its stand-down was answered |
| AcpClientRelease.AcpClient.OnTaskSettled | plugins/connectors/acp/src/client.ts:186-203 | The `finally` of the attempt: it leaves `opening` and the client may drain |
| AcpClientRelease.AcpClient.DisposeClient | plugins/connectors/acp/src/client.ts:499-518 | Releases every owned handle once, in some order of the tables, and drains |
| AcpClientRelease.AcpClient.RetryReleases | plugins/connectors/acp/src/client.ts:250-257 | Starts a pass over the outstanding releases |
| AcpClientRelease.AcpClient.OnRetryResumed | plugins/connectors/acp/src/client.ts:250-257 | The pass goes on to the next handle of its snapshot |
| AcpClientRelease.AcpClient.ReleaseStates | plugins/connectors/acp/src/client.ts:70-82 | The synchronous view is the ledger's outstanding states |
| ReleaseCauses.RegisteredExactly | plugins/connectors/acp/src/client.ts:263-306 | Over every run of a client that is not disposed: a handle is registered if and only if it was acquired by a task whose handshake succeeded |
| ReleaseCauses.HandshakeRegisters | plugins/connectors/acp/src/client.ts:281-306 | In every run, a handshake that succeeds in time shows nothing, makes its handle the channel of the project that was asked for, neither unowned nor on record, and a later open of the project joins it |
| ReleaseCauses.HandshakeInOrder | plugins/connectors/acp/src/client.ts:263-290 | Only a project that was opened is acquired and only an acquired handle is initialized, each once |
| ReleaseCauses.RequestedExactly | plugins/connectors/acp/src/client.ts:212-306 | A step requests the release of a handle if and only if its event stands the handle down and no request of it is out or confirmed |
| ReleaseCauses.RequestHasACause | plugins/connectors/acp/src/client.ts:212-306 | Over every run: a request follows a disposal that names the handle, the end of its handshake that failed or came too late, its arrival for another project or at a disposed client, or a retry of it |
| ReleaseCauses.PassVisitsItsSnapshot | plugins/connectors/acp/src/client.ts:250-257 | Whatever happens between, a retry pass goes through its whole snapshot: the n-th time it is resumed it releases the n-th handle after the first |
| ReleaseCauses.BookTellsTheLastAnswer | plugins/connectors/acp/src/client.ts:212-234 | Over every run: a handle is confirmed if and only if the backend's last answer about it was a confirmation, and failed for exactly the reason of its last refusal |
| HostMirror.MirrorLosesNothing | plugins/connections/service/src/workspace.ts:25-27 | Until the workspace's lifetime ends, `releaseCleanup()` is exactly the union of the outstanding ledgers of every release-managed client ever evicted |
| HostMirror.MirrorExact | plugins/connections/service/src/workspace.ts:97-131 | In one state: each retained copy is its client's ledger, and a forgotten client has nothing outstanding |
| HostMirror.NoClientIsLost | plugins/connections/service/src/workspace.ts:44-69 | Every managed client ever handed over is current, retained, or has attested |
| HostMirror.HostRunKeepsInv | plugins/connections/service/src/workspace.ts:44-131 | The copies, the rosters and every client's own invariant hold after any interleaving of connects, evictions, client steps and attestations |
| HostMirror.HostStepKeepsInv | plugins/connections/service/src/workspace.ts:44-131 | One handler, one client step or one delivery keeps them |
| HostMirror.EvictKeepsInv | plugins/connections/service/src/workspace.ts:97-131 | Seeding, subscribing and then disposing leaves an exact copy |
| HostMirror.EvictedFrom | plugins/connections/service/src/workspace.ts:97-131 | An eviction is the roster change together with the client's own disposal |
| HostMirror.DeliveryKeepsRoster | plugins/connections/service/src/workspace.ts:112-121 | A client's step and the delivery of what it showed keep its copy exact |
| HostMirror.EvictionKeepsRoster | plugins/connections/service/src/workspace.ts:105-131 | A copy seeded from the live view and fed the disposal's announcements is the disposed client's ledger |
| HostMirror.ForgettingLosesNothing | plugins/connections/service/src/workspace.ts:125-129 | The copy of a client that has attested is empty, so forgetting it leaves the surface as it was |
| HostMirror.HandshakeMakesCurrent | plugins/connections/service/src/workspace.ts:44-69 | Connecting an id without client and handshake starts one, whose client becomes current and which leaves nothing behind |
| HostMirror.ReconnectStartsAfresh | plugins/connections/service/src/workspace.ts:71-131 | A gated reconnect changes nothing; another one retires the current client, disposed of and with a copy kept, and starts a new handshake if the connection is available |
| HostMirror.EvictedAreDisposed | plugins/connections/service/src/workspace.ts:97-131 | Over every run an evicted client has been disposed of |
| ConnectionWorkspace.Workspace.Connect | plugins/connections/service/src/workspace.ts:44-69 | A current client or a handshake under way is joined, otherwise a handshake starts |
| ConnectionWorkspace.Workspace.OnConnected | plugins/connections/service/src/workspace.ts:50-61 | The new client becomes current unless the lifetime is over |
| ConnectionWorkspace.Workspace.OnHandshakeSettled | plugins/connections/service/src/workspace.ts:66-66 | Afterwards a connect starts a new handshake, or joins the current client if the handshake brought one; other handshakes stay |
| ConnectionWorkspace.Workspace.OnShown | plugins/connections/service/src/workspace.ts:112-121 | The listener applies a batch of announcements to the retained copy, and ignores a forgotten client |
| ConnectionWorkspace.Workspace.Retire | plugins/connections/service/src/workspace.ts:105-131 | Seeds the copy, subscribes, disposes: the client is retained with what was outstanding and disposed |
| ConnectionWorkspace.Workspace.Evict | plugins/connections/service/src/workspace.ts:97-131 | The id has no current client afterwards, and a managed one is retained with an exact copy |
| ConnectionWorkspace.Workspace.Reconnect | plugins/connections/service/src/workspace.ts:92-133 | Refused without any change when gated, otherwise an eviction that releases every handle of the client, followed by a connect |
| ConnectionWorkspace.Workspace.OnReleasesSettled | plugins/connections/service/src/workspace.ts:125-129 | A client that has attested is forgotten, and the surface does not change |
| ConnectionWorkspace.Workspace.RetryRelease | plugins/connections/service/src/workspace.ts:139-149 | One turn of the cleanup loop is a client step: one further attempt, and what it shows reaches the copy |
| ConnectionWorkspace.Workspace.EndLifetime | plugins/connections/service/src/workspace.ts:38-43 | Nothing is shown as outstanding any more, and no client that still arrives becomes current |
| ConnectionWorkspace.Workspace.ReleaseStates | plugins/connections/service/src/workspace.ts:25-27 | The surface lists, line by line, what is really outstanding at the evicted clients |
| EntryProtocol.EntryRunSafe | apps/server/src/ordessa_server/acp_channel/access_entry.py:132-194 | In every interleaving: at most one close unanswered, `on_exit` at most once, and a reported confirmation is backed by the entry's own receipt |
| EntryProtocol.EntryStepKeepsInv | apps/server/src/ordessa_server/acp_channel/access_entry.py:132-281 | One stretch of the transport or one event of the reader thread keeps that |
| EntryProtocol.ConfirmationIsPermanent | apps/server/src/ordessa_server/acp_channel/access_entry.py:196-213 | Once confirmed, confirmed after any run |
| EntryProtocol.ConfirmedMeansProven | apps/server/src/ordessa_server/acp_channel/access_entry.py:196-219 | A confirmation is recorded only from an answered close with `ok:true` and `released:true` |
| EntryProtocol.LateReceiptConfirms | apps/server/src/ordessa_server/acp_channel/access_entry.py:177-194 | A receipt that arrives after the wait timed out confirms the next request, and no second close is written |
| EntryProtocol.FailedReceiptIsRetryable | apps/server/src/ordessa_server/acp_channel/access_entry.py:190-219 | After a negative receipt the next request writes a new close |
| EntryProtocol.AnswersOnlyGrow | apps/server/src/ordessa_server/acp_channel/access_entry.py:263-281 | What the entry has answered stays answered |
| EntryProtocol.OneCloseKept | apps/server/src/ordessa_server/acp_channel/access_entry.py:154-194 | Every unanswered close is the one the transport still waits for |
| EntryProtocol.AnswerIsTold | apps/server/src/ordessa_server/acp_channel/access_entry.py:185-219 | In every run, what a wait that ends with an answer tells: released only for `ok:true` with `released:true` in the result, else the error, else the reply; a survivor is unconfirmed, not `ok` is a refusal, no answer means the entry is gone |
| EntryProtocol.ToldAtOnce | apps/server/src/ordessa_server/acp_channel/access_entry.py:154-184 | In every run, when a call is told released, never established or unreachable at once, and when it waits |
| EntryProtocol.GoneEntryAnswersNobody | apps/server/src/ordessa_server/acp_channel/access_entry.py:299-303 | When the entry is gone an unanswered call ends without a receipt |
| EntryProtocol.ForcedEndingAsksFirst | apps/server/src/ordessa_server/acp_channel/access_entry.py:132-149 | A forced ending of an established, unconfirmed entry waits for the close that is out or for a new one, and stops the entry without waiting only if nothing could be asked |
| EntryProtocol.ForcedEndingRecords | apps/server/src/ordessa_server/acp_channel/access_entry.py:149-152 | Its wait over, the entry is stopped and a receipt that came is recorded |
| EntryProtocol.StoppedAfterAsking | apps/server/src/ordessa_server/acp_channel/access_entry.py:132-194 | No established entry is stopped unless it confirmed or a close was written or tried |
| EntryProtocol.ReportedExactly | apps/server/src/ordessa_server/acp_channel/access_entry.py:283-317 | Over every run `on_exit` is called if and only if the Agent's end came before this side asked for it |
| AccessEntry.AccessEntryTransport.RequestClose | apps/server/src/ordessa_server/acp_channel/access_entry.py:250-261 | The request is registered before it is written, and withdrawn when the write fails |
| AccessEntry.AccessEntryTransport.RecordTheReceipt | apps/server/src/ordessa_server/acp_channel/access_entry.py:196-219 | The four outcomes of a reply, the confirmation alone being kept |
| AccessEntry.AccessEntryTransport.BeginRequestRelease | apps/server/src/ordessa_server/acp_channel/access_entry.py:154-189 | Up to the wait: confirmed, never established, unreachable, or waiting on the one pending close |
| AccessEntry.AccessEntryTransport.EndRequestRelease | apps/server/src/ordessa_server/acp_channel/access_entry.py:185-194 | After the wait: a timeout keeps the pending close, an answer is consumed |
| AccessEntry.AccessEntryTransport.BeginTerminateEntry | apps/server/src/ordessa_server/acp_channel/access_entry.py:132-149 | The forced ending asks at most once more |
| AccessEntry.AccessEntryTransport.EndTerminateEntry | apps/server/src/ordessa_server/acp_channel/access_entry.py:149-152 | Whatever was answered, the entry is stopped |
| AccessEntry.AccessEntryTransport.ResolveControl | apps/server/src/ordessa_server/acp_channel/access_entry.py:263-275 | A reply resolves the request it names, once |
| AccessEntry.AccessEntryTransport.ReportTheEnd | apps/server/src/ordessa_server/acp_channel/access_entry.py:305-317 | `on_exit` fires unless the ending was reported or is our own |
| AccessEntry.AccessEntryTransport.EntryExit | apps/server/src/ordessa_server/acp_channel/access_entry.py:299-303 | Every waiter is released without a reply, and the end is reported |
| RegistryProtocol.ClaimsWriteOnce | apps/server/src/ordessa_server/acp_channel/registry.py:122-236 | In every interleaving at most one connection per pair is registered, both maps describe the same connections, and `release`, `stop_all` and the exit callback together ask the ledger at most once per connection |
| RegistryProtocol.RemovedStaysOut | apps/server/src/ordessa_server/acp_channel/registry.py:200-205 | A connection taken out of the maps never returns to them |
| RegistryProtocol.ReleasedMeansReceipt | apps/server/src/ordessa_server/acp_channel/registry.py:181-213 | `released: True` over a transport that can be asked implies the entry answered a close with `ok:true` and `released:true` |
| RegistryProtocol.RunKeepsInv | apps/server/src/ordessa_server/acp_channel/registry.py:122-265 | The registry's invariant, every transport's included, holds after any run |
| RegistryProtocol.StepKeepsInv | apps/server/src/ordessa_server/acp_channel/registry.py:122-265 | One lock section, callback or transport step keeps it |
| RegistryProtocol.RegisterKeeps | apps/server/src/ordessa_server/acp_channel/registry.py:149-156 | Publication keeps the two maps inverse to each other |
| RegistryProtocol.ClaimKeeps | apps/server/src/ordessa_server/acp_channel/registry.py:200-205 | A claim removes the connection from both maps and keeps them inverse |
| RegistryProtocol.SettleKeeps | apps/server/src/ordessa_server/acp_channel/registry.py:206-208 | Whichever ending a claim asks the ledger for, the call keeps the invariant; `RegistryReasons` says which one it is |
| RegistryProtocol.OwnWriteKeeps | apps/server/src/ordessa_server/acp_channel/registry.py:157-167 | The two calls `acquire` makes itself: for a loser, or retroactively |
| RegistryEndings.AskedOnceExactly | apps/server/src/ordessa_server/acp_channel/registry.py:164-167 | As long as `acquire` finds no exit code when it looks after publication, the ledger is asked at most once to end the run; once it finds one, every state from there can still go on to a second call |
| RegistryEndings.AskedTwiceExactly | apps/server/src/ordessa_server/acp_channel/registry.py:164-213 | For a connection that is out of the maps and has no thread busy with it, the ledger was asked twice if that look found an exit code, and once if not |
| RegistryEndings.GuardDecides | apps/server/src/ordessa_server/acp_channel/registry.py:164-167 | After any run the retroactive call is made or due if the look found an exit code, and neither otherwise |
| RegistryEndings.SupersededEndsOnce | apps/server/src/ordessa_server/acp_channel/registry.py:157-163 | A connection whose `acquire` found another of its pair is never registered, and once no thread is busy with it the ledger was asked to end its run as superseded, once and for nothing else; for no other connection it is asked that |
| RegistryEndings.DoomedAsksTwice | apps/server/src/ordessa_server/acp_channel/registry.py:170-236 | From any state in which the retroactive call is due, the claim in hand, or a server stop, makes the other one |
| RegistryLedger.OneEndingIsRecorded | packages/pacthold/src/pacthold/service/sessions/repository.py:1030-1034 | Over every run a connection's run has at most one recorded ending, which is the first the ledger was asked for, and it stays through whatever follows |
| RegistryLedger.RecordedIsFinal | packages/pacthold/src/pacthold/service/sessions/repository.py:1068-1072 | No step changes or removes a recorded ending |
| RegistryLedger.EveryRunEndsOnce | apps/server/src/ordessa_server/acp_channel/registry.py:6-7 | A connection that was claimed or lost the race has one ending recorded as soon as no thread is busy with it, whatever `release`, `stop_all`, the exit callback and `acquire` asked |
| RegistryLedger.RegisteredRunIsOpenExactly | apps/server/src/ordessa_server/acp_channel/registry.py:4-6 | The run of a registered connection has ended only if `acquire` found its exit code after publication, and as soon as no thread is busy with it, exactly then |
| RegistryLedger.DeadConnectionStaysRegistered | apps/server/src/ordessa_server/acp_channel/registry.py:149-168 | A run in which the Agent exits before publication: when nothing is left to do, the failure is recorded and the connection is still registered |
| RegistryLedger.RegisteredIsHandedOut | apps/server/src/ordessa_server/acp_channel/registry.py:124-127 | Every later `acquire` of the pair returns the registered connection and creates nothing |
| RegistryLedger.ReleaseOfTheDeadAsksTwice | apps/server/src/ordessa_server/acp_channel/registry.py:181-213 | A release of such a connection is confirmed by the entry's receipt and answered `released: True`, while the ledger, asked again, keeps the failure |
| RegistryLedger.RetroactiveEndAsksTwice | apps/server/src/ordessa_server/acp_channel/registry.py:164-167 | A run in which the Agent exits between publication and the look, and `acquire` and the exit callback both ask the ledger |
| RegistryLedger.OneExitCallback | apps/server/src/ordessa_server/acp_channel/registry.py:246-258 | Composed over transport and registry: the exit callback of a connection runs once at most, only after its transport reported the end, and nothing else sets an exit code |
| RegistryLedger.UnconfirmedReleaseChangesNothing | apps/server/src/ordessa_server/acp_channel/registry.py:186-197 | As long as a call of `release` is not confirmed, whatever happens meanwhile, its own steps move neither map and ask nothing of the ledger |
| RegistryReasons.EndingIsThatOfTheCall | apps/server/src/ordessa_server/acp_channel/registry.py:206-208 | Over every run: the ending a claim asks the ledger for is that of the call that took the connection out, a release of its id with the very reason it was called with, or its exit callback |
| RegistryReasons.RecordedForItsReason | apps/server/src/ordessa_server/acp_channel/registry.py:170-265 | Once no thread is busy with a claimed connection, its recorded ending is that of the call that took it out, or the retroactive one if `acquire` found its exit code |
| RegistryReasons.ServerStopIsRecorded | apps/server/src/ordessa_server/acp_channel/registry.py:215-236 | A run that a server stop took out is recorded as `server-stop`, unless `acquire` found its exit code |
| RegistryReasons.ReleaseTakesOnProof | apps/server/src/ordessa_server/acp_channel/registry.py:186-205 | A connection whose transport can be asked is taken out by a release only with the entry's receipt, unless the release is a server stop |
| RegistryReasons.EveryCallIsAnswered | apps/server/src/ordessa_server/acp_channel/registry.py:190-213 | A call of `release` is answered once: `released: True` past its confirmation, `released: False` if it still waited for it, and nothing else answers |
| RegistryReasons.RegisteredWasUp | apps/server/src/ordessa_server/acp_channel/registry.py:132-156 | Every registered connection was launched and its run opened |
| RegistryReasons.CodedExactly | apps/server/src/ordessa_server/acp_channel/registry.py:246-247 | An exit code stands on a connection if and only if its callback came with one |
| ChannelRegistry.AcpChannelRegistry.LookUp | apps/server/src/ordessa_server/acp_channel/registry.py:124-127 | The result is registered and is the only registered connection of the pair; no result means there is none |
| ChannelRegistry.AcpChannelRegistry.PublishSection | apps/server/src/ordessa_server/acp_channel/registry.py:149-156 | The winner is kept and nothing changes, or the connection enters both maps |
| ChannelRegistry.AcpChannelRegistry.Find | apps/server/src/ordessa_server/acp_channel/registry.py:181-184 | The connection of the id, exactly while it is published and unclaimed |
| ChannelRegistry.AcpChannelRegistry.PopClaim | apps/server/src/ordessa_server/acp_channel/registry.py:200-205 | Exactly the registered connection leaves both maps, and the caller learns whether it won |
| SessionKeys.KeysFormABijection | plugins/connectors/acp/src/client.ts:320-334 | After any sequence of events `routes` and the per-channel maps are mutually inverse, and no key ever moves |
| SessionKeys.ChannelsNeverShareAKey | plugins/connectors/acp/src/client.ts:320-334 | Equal native ids on different channels get different keys |
| SessionKeys.KeyForKeepsInverse | plugins/connectors/acp/src/client.ts:320-329 | One allocation keeps the maps inverse and every earlier key |
| SessionKeys.FirstFree | plugins/connectors/acp/src/client.ts:320-329 | The numbered search ends at the first free candidate past the counter |
| SessionKeys.AheadShrinks | plugins/connectors/acp/src/client.ts:320-329 | Why it ends: the counter grows and the taken keys are finite |
| SessionKeys.StableUnlessEmpty | plugins/connectors/acp/src/client.ts:320-329 | Asking again returns the same key if and only if that key is not empty |
| SessionKeys.SecondAnswerIsFinal | plugins/connectors/acp/src/client.ts:320-329 | An answer moves once at most: the second answer for a native id is every later one |
| SessionKeys.EmptyIdBreaksInverse | plugins/connectors/acp/src/client.ts:320-329 | An empty native id breaks the bijection on its second event |
| SessionKeys.SessionRouter.NextFree | plugins/connectors/acp/src/client.ts:320-329 | The `while` of the allocation computes that search |
| SessionKeys.SessionRouter.Key | plugins/connectors/acp/src/client.ts:320-329 | `keyFor` on the client's own tables |
| SessionKeys.KeyIsTheFirstChoice | plugins/connectors/acp/src/client.ts:320-329 | Over every run a session keeps the key chosen when it was first seen: its raw id if free, else the scoped key if free, else the first free numbered one |
| Decimals.DecimalInjective | plugins/connectors/acp/src/client.ts:320-329 | Different counters give different numbered keys |
| SessionNames.ArrivalOrderIsIrrelevant | plugins/connectors/acp/src/client.ts:400-425 | Any permutation of the same refresh answers, background pulls and live renames ends with the same title, as long as the requests and renames took their numbers in the same order |
| SessionNames.LandedExactly | plugins/connectors/acp/src/client.ts:400-425 | What landed is what the renames and the answers carry: a rename the number of its turn, an answer that of its request wherever it arrives |
| SessionNames.NumbersAreCounted | plugins/connectors/acp/src/client.ts:646-651 | The counter is the number of requests and renames so far |
| SessionNames.LastIssuedWins | plugins/connectors/acp/src/client.ts:646-656 | After any run, an existing session carries the title of the largest-numbered write among those that landed and the one it started with |
| SessionNames.SameWritesSameTitle | plugins/connectors/acp/src/client.ts:400-425 | Histories that land the same numbered writes leave the same title |
| SessionNames.IssuesAreDistinct | plugins/connectors/acp/src/client.ts:646-656 | No two writes to a session share a number |
| SessionNames.StepEffect | plugins/connectors/acp/src/client.ts:591-615 | A write lands exactly when its number exceeds the one last applied |
| SessionNames.LandAllEffect | plugins/connectors/acp/src/client.ts:400-425 | A list answer writes each session's first entry, if it outranks |
| SessionNames.CarriedIsFresh | plugins/connectors/acp/src/client.ts:400-425 | The number of a landing write was pending or new, and is spent afterwards |
| SessionNames.UpsertTitles | plugins/connectors/acp/src/client.ts:652-656 | An upsert changes the title of its own session only |
| SessionNames.NameRegister.ClaimIssue | plugins/connectors/acp/src/client.ts:400-412 | A request claims its number when it goes out |
| SessionNames.NameRegister.OnRefreshListed | plugins/connectors/acp/src/client.ts:400-425 | A refresh answer is applied entry by entry |
| SessionNames.NameRegister.OnPullListed | plugins/connectors/acp/src/client.ts:591-615 | A background pull writes an existing session's title only with a name and a higher number |
| SessionNames.NameRegister.OnRenamed | plugins/connectors/acp/src/client.ts:733-739 | A live rename claims a number and writes at once |
| SessionNames.NameRegister.UpsertSession | plugins/connectors/acp/src/client.ts:652-656 | Replaces the session's entry or appends it |
| SessionNames.ListedByItsEvents | plugins/connectors/acp/src/client.ts:400-425 | Over every run a session is on the list if and only if it was there at the start, a refresh listed it or a rename gave it a title; a pulled name never brings one back |
| Transcript.GroupingIsExact | plugins/connectors/acp/src/client.ts:536-764 | After any event sequence each message's text and reasoning are the in-order concatenation of exactly its own pieces, and the messages stand in order of first appearance |
| Transcript.IdlessChunksShareExactly | plugins/connectors/acp/src/client.ts:674-702 | Two id-less chunks share a message if and only if they have one role with no id-bearing chunk, tool event, turn boundary or id-less chunk of the other role between them |
| Transcript.PiecesAreConserved | plugins/connectors/acp/src/client.ts:708-745 | Each piece belongs to one message, whose text is the concatenation of what it owns |
| Transcript.OwnersAreNamed | plugins/connectors/acp/src/client.ts:674-702 | The message an event belongs to exists and is its own session's |
| Transcript.BucketKeeps | plugins/connectors/acp/src/client.ts:662-702 | One event keeps the reading of the bucket |
| Transcript.StreamKeepsIdless | plugins/connectors/acp/src/client.ts:674-702 | An id-less chunk keeps the reading of the open stream |
| Transcript.TranscriptStore.ChunkMessage | plugins/connectors/acp/src/client.ts:674-702 | The message a chunk belongs to, created when there is none |
| Transcript.TranscriptStore.OnChunk | plugins/connectors/acp/src/client.ts:708-732 | A chunk's text is appended to that message |
| Transcript.TranscriptStore.OnTool | plugins/connectors/acp/src/client.ts:750-764 | A tool event has its own message and ends the stream |
| Transcript.TranscriptStore.AppendSent | plugins/connectors/acp/src/client.ts:657-661 | A sent prompt is a message of its own with a minted id, and other sessions keep theirs |
| Transcript.TranscriptStore.CloseStream | plugins/connectors/acp/src/client.ts:703-703 | Forgets the open stream of one session |
| Transcript.RolesAreExact | plugins/connectors/acp/src/client.ts:714-728 | After any event sequence a message is the user's if the first event it owns is a user chunk or a sent prompt, and the assistant's if that is an agent's chunk, thought or tool event |
| Transcript.SentStandsAlone | plugins/connectors/acp/src/client.ts:657-661 | Nothing else belongs to the message of a sent prompt |
| Approvals.OwnershipHolds | plugins/connectors/acp/src/client.ts:452-491 | After any run every pending interaction names an existing run of its own session that is running, and no native request is settled twice |
| Approvals.StepKeepsInv | plugins/connectors/acp/src/client.ts:452-505 | One call or answer keeps that |
| Approvals.EndedAsksStayClosed | plugins/connectors/acp/src/client.ts:558-587 | The asks a stop, a verdict or a disposal finds in its session are never answered afterwards, whatever follows |
| Approvals.SettledOnlyByItsRun | plugins/connectors/acp/src/client.ts:470-491 | A native request is settled only while the run that was live at its arrival is still running |
| Approvals.VerdictKeeps | plugins/connectors/acp/src/client.ts:558-575 | A verdict together with stranding keeps ownership |
| Approvals.ApprovalDesk.StrandPending | plugins/connectors/acp/src/client.ts:583-589 | Every pending ask of the session becomes unknown, and no other changes |
| Approvals.ApprovalDesk.BeginTurn | plugins/connectors/acp/src/client.ts:536-556 | The session's settled runs go, a running one is added |
| Approvals.ApprovalDesk.EndTurn | plugins/connectors/acp/src/client.ts:558-575 | The verdict is set and the session's asks strand |
| Approvals.ApprovalDesk.RequestStop | plugins/connectors/acp/src/client.ts:452-468 | Refused without effect unless the run is open in that session |
| Approvals.ApprovalDesk.Reply | plugins/connectors/acp/src/client.ts:470-491 | Refused without effect unless the ask is pending, its own run is running and the answer is one of its options or a cancel |
| Approvals.ApprovalDesk.OnRequest | plugins/connectors/acp/src/client.ts:793-812 | An ask is pending only with a running run of its session to own it |
| Approvals.ApprovalDesk.DisposeDesk | plugins/connectors/acp/src/client.ts:499-505 | Every open run and pending ask becomes unknown |
| Approvals.OutcomesAreOffered | plugins/connectors/acp/src/client.ts:476-488 | Over every run a native request is answered by a response to it that is a cancel or one of the options the request came with |
| Approvals.AnsweredExactly | plugins/connectors/acp/src/client.ts:470-491 | In every run a response to a pending ask goes out if and only if it is a cancel or one of its request's options; any other response changes nothing |
| Approvals.PendingExactly | plugins/connectors/acp/src/client.ts:793-812 | Over every run an ask is pending if and only if it came while the first open run of its session was running and no answer, stop, verdict or disposal closed it since |
| Approvals.StatusIsItsOwn | plugins/connectors/acp/src/client.ts:452-575 | Over every run a run's status is what its own start, stop, verdict or disposal gave it, whatever other runs did |
| Approvals.WithoutSettledMembers | plugins/connectors/acp/src/client.ts:536-545 | A new turn drops exactly the settled runs of its own session |
| UsageAggregate.SubtreeUsage | apps/server/src/ordessa_server/usage_aggregate.py:89-122 | The `frontier`/`seen` walk ends, visits exactly the turns below the roots, each once, and the rows are exactly the completed and reported ones, each once |
| UsageAggregate.UsageIsConserved | apps/server/src/ordessa_server/usage_aggregate.py:25-42 | Over all sessions, reported and unknown counts and every token sum are those of the completed turns with a parentless ancestor-or-self |
| UsageAggregate.OneRoot | apps/server/src/ordessa_server/usage_aggregate.py:35-36 | No turn is billed under two roots |
| UsageAggregate.NoDelegationMeansOwnTurns | apps/server/src/ordessa_server/usage_aggregate.py:37-39 | A session none of whose parentless turns delegates is billed for exactly those, which are all its turns when none of them is a child |
| UsageAggregate.BilledAddsUp | apps/server/src/ordessa_server/usage_aggregate.py:89-94 | The bills of several sessions add up to the tally of the union of their subtrees |
| UsageAggregate.CountsAreCompletedTurns | apps/server/src/ordessa_server/usage_aggregate.py:107-112 | Reported plus unknown is the number of completed turns, split by whether the family reported |
| UsageAggregate.ClosedHoldsChains | apps/server/src/ordessa_server/usage_aggregate.py:97-121 | A set of ids that holds the roots and their children holds every chain |
| UsageAggregate.RootIdsExact | apps/server/src/ordessa_server/usage_aggregate.py:49-55 | The root query lists each parentless turn of the session once |
| UsageAggregate.AggregateBySession | apps/server/src/ordessa_server/usage_aggregate.py:25-87 | Per session the bill of its subtree, with absent sums when nothing reported |
| UsageAggregate.CollectLevel | apps/server/src/ordessa_server/usage_aggregate.py:100-112 | One level adds exactly the completed and reported rows of the frontier, and counts the unreported ones |
| UsageAggregate.NextLevel | apps/server/src/ordessa_server/usage_aggregate.py:113-121 | The next level is the children not seen before |
| UsageAggregate.SumRows | apps/server/src/ordessa_server/usage_aggregate.py:78-86 | The three sums read an absent value as zero |
| UsageAggregate.ShownIsTheBill | apps/server/src/ordessa_server/usage_aggregate.py:65-87 | A session's entry, row by row: completed turns below its roots with an input count are reported, without one unknown; the sums are those of the reported, or unknown when there is none |
| UsageAggregate.TallySpelledOut | apps/server/src/ordessa_server/usage_aggregate.py:78-112 | Each field of a tally is the count or the column sum of the rows it stands for |
| ControlPlaneSync.HistoryDoesNotMatter | apps/server/src/ordessa_server/execution/control_plane_sync.py:144-174 | After any two histories of full and incremental deliveries, failed ones included, a planned set fails with the same error or leaves the same records |
| ControlPlaneSync.FullDeliveryConverges | apps/server/src/ordessa_server/execution/control_plane_sync.py:144-174 | A successful full delivery leaves exactly the records of the set |
| ControlPlaneSync.AcceptedExactly | apps/server/src/ordessa_server/execution/control_plane_sync.py:146-161 | A planned set is accepted, whatever the projection held, if and only if no key stands for two different records; otherwise it is refused as a mismatch |
| ControlPlaneSync.TwoVersionsAreNeverApplied | apps/server/src/ordessa_server/execution/control_plane_sync.py:104-161 | Two versions of one record are planned and then refused as a mismatch, whatever the projection held |
| ControlPlaneSync.ReplayIsSilent | apps/server/src/ordessa_server/execution/control_plane_sync.py:162-174 | Afterwards parity is empty, and a second delivery leaves everything unchanged, writes nothing and removes nothing |
| ControlPlaneSync.WrittenExactlyWhenChanged | apps/server/src/ordessa_server/execution/control_plane_sync.py:162-169 | A record's apply count is one if it differed from its line before, and zero if not, however often the manifest names it |
| ControlPlaneSync.ManifestIgnoresOrder | apps/server/src/ordessa_server/execution/control_plane_sync.py:104-110 | For records with distinct keys the manifest is invariant under permutation |
| ControlPlaneSync.SortedAscends | apps/server/src/ordessa_server/execution/control_plane_sync.py:110-110 | Distinct keys are listed in strictly ascending order |
| ControlPlaneSync.AscendingUnique | apps/server/src/ordessa_server/execution/control_plane_sync.py:110-110 | An ascending manifest is determined by its lines |
| ControlPlaneSync.HistoryIsCoherent | apps/server/src/ordessa_server/execution/control_plane_sync.py:144-185 | In every reachable projection a record's digest is that of what it holds |
| ControlPlaneSync.DeliveryKeepsCoherent | apps/server/src/ordessa_server/execution/control_plane_sync.py:151-169 | A delivery keeps that even when it fails half way |
| ControlPlaneSync.DeliveredExactly | apps/server/src/ordessa_server/execution/control_plane_sync.py:151-161 | Whether and how a delivery fails does not depend on the projection |
| ControlPlaneSync.DeliveryHolds | apps/server/src/ordessa_server/execution/control_plane_sync.py:162-169 | Afterwards every line is held, and a record no line names is as it was |
| ControlPlaneSync.FirstInvalid | apps/server/src/ordessa_server/execution/control_plane_sync.py:104-109 | A plan is refused exactly when some record is of a foreign kind or secret-shaped |
| ControlPlaneSync.ExecutionSideProjection.Apply | apps/server/src/ordessa_server/execution/control_plane_sync.py:144-174 | The records and the answer of a full delivery, also of one that fails in the middle |
| ControlPlaneSync.ExecutionSideProjection.RemoveAbsent | apps/server/src/ordessa_server/execution/control_plane_sync.py:170-173 | Exactly the records no line named are removed |
| ControlPlaneSync.ExecutionSideProjection.ApplyIncremental | apps/server/src/ordessa_server/execution/control_plane_sync.py:176-185 | A redelivery of the same version is a no-op |
| ControlPlaneSync.ExecutionSideProjection.VerifyParity | apps/server/src/ordessa_server/execution/control_plane_sync.py:197-207 | The problems are empty if and only if every line is held |
| ControlPlaneSync.RefusedExactly | apps/server/src/ordessa_server/records.py:27-34 | A record is refused for its kind, or for a secret if and only if a key of its body, at whatever depth, spells one of the secret words in any case |
| ControlPlaneSync.NestedSecretIsRefused | apps/server/src/ordessa_server/records.py:27-34 | A mixed-case key below a list below an object is refused |
| ControlPlaneSync.SortedByKindThenId | apps/server/src/ordessa_server/execution/control_plane_sync.py:110-110 | Lines stand by kind and then by id, compared character by character |
| ControlPlaneSync.DeliveryAcceptsExactly | apps/server/src/ordessa_server/execution/control_plane_sync.py:146-161 | A delivery is accepted if and only if for every line the last body of its key is valid and has the line's version and digest |
| ControlPlaneSync.ReportIsExact | apps/server/src/ordessa_server/execution/control_plane_sync.py:162-174 | `applied` names exactly the rewritten records, every line is applied or unchanged, and `removed` is exactly what no line names |
| ControlPlaneSync.IncrementalExactly | apps/server/src/ordessa_server/execution/control_plane_sync.py:176-185 | An invalid record changes nothing; a valid one stands there afterwards, the answer says whether anything changed, and a second delivery changes nothing |
| Contributions.SnapshotMembers | packages/desktop-platform/extension-api/src/contributions.ts:34-37 | The snapshot shows exactly the registered contributions, each id once |
| Contributions.AddKeeps | packages/desktop-platform/extension-api/src/contributions.ts:15-19 | An accepted contribution is current and ids stay unique |
| Contributions.ReleaseKeeps | packages/desktop-platform/extension-api/src/contributions.ts:20-25 | A disposer removes its own contribution and nothing else |
| Contributions.ContributionPoint.Add | packages/desktop-platform/extension-api/src/contributions.ts:15-26 | Refused in the source's order of checks, otherwise added under a new identity |
| Contributions.ContributionPoint.Release | packages/desktop-platform/extension-api/src/contributions.ts:20-25 | Removes only while its own contribution is current |
| Contributions.ContributionPoint.Dispose | packages/desktop-platform/extension-api/src/contributions.ts:27-33 | Empties the point once |
| Contributions.ContributionPoint.Publish | packages/desktop-platform/extension-api/src/contributions.ts:34-37 | The snapshot is the stable sort of the values |
| Contributions.SnapshotIsSorted | packages/desktop-platform/extension-api/src/contributions.ts:34-37 | The snapshot ascends, and contributions the collation does not separate keep the order they were added in |
| Workbench.ShownViewsStandThere | plugins/workbench/src/model.ts:12-64 | After any run of an open workbench each selected slot names a registered view whose current region or full-page presentation is that slot, no view is selected twice, and `main` is not collapsed |
| Workbench.RunKeepsInv | plugins/workbench/src/model.ts:12-64 | The layout invariant holds after any sequence of add, dispose, open, close, move, collapse, reset and end of lifetime |
| Workbench.StepKeepsInv | plugins/workbench/src/model.ts:12-64 | One operation keeps it |
| Workbench.MoveRefillsTheSource | plugins/workbench/src/model.ts:50-56 | After a cross-region move the source region keeps its selection, or shows a view if and only if one is left in it |
| Workbench.MoveTouchesTwoSlots | plugins/workbench/src/model.ts:46-56 | A cross-region move shows the view in the target and leaves every slot but the two alone |
| Workbench.ResetEffect | plugins/workbench/src/model.ts:58-63 | A reset keeps the full page, clears placements and collapses, and every region with a view of its own shows one |
| Workbench.RefilledEffect | plugins/workbench/src/model.ts:62-62 | Namely the first one in snapshot order |
| Workbench.SelectedOnce | plugins/workbench/src/model.ts:35-35 | A view stands in one slot only |
| Workbench.EndClearsTheSelectionExactly | plugins/workbench/src/model.ts:18-18 | After the lifetime ends the selection names registered views only if and only if every shown view was one of the lifetime's own |
| Workbench.GoneViewStaysSelected | plugins/workbench/src/model.ts:18-18 | A run in which another scope's view is shown when the lifetime ends and stays selected |
| Workbench.DisposeAllEffect | plugins/workbench/src/model.ts:12-17 | Disposing contributions leaves the others, and of the selection exactly the slots showing one of those |
| Workbench.StaleDisposerIsHarmless | packages/desktop-platform/extension-api/src/contributions.ts:20-25 | A disposer that has done its work changes nothing after any further run, whatever was registered under its id since |
| Workbench.TokensStayOutForEver | packages/desktop-platform/extension-api/src/contributions.ts:15-26 | A contribution that is gone never comes back under the same identity |
| Workbench.WorkbenchModel.OnViewsChanged | plugins/workbench/src/model.ts:12-17 | Selection and placements are cut down to the registered views |
| Workbench.WorkbenchModel.AddView | plugins/workbench/shared/registry.ts:7-11 | The closed-scope and blank-id checks come before those of the contribution point |
| Workbench.WorkbenchModel.DisposeView | packages/desktop-platform/extension-api/src/contributions.ts:20-25 | A current disposer removes its view and notifies |
| Workbench.WorkbenchModel.OpenView | plugins/workbench/src/model.ts:30-38 | The view is shown in its slot and a region is expanded |
| Workbench.WorkbenchModel.CloseView | plugins/workbench/src/model.ts:39-39 | The view is deselected, also after the lifetime's end |
| Workbench.WorkbenchModel.CollapseRegion | plugins/workbench/src/model.ts:42-45 | No effect on `main`, after the end, or without a change |
| Workbench.WorkbenchModel.MoveView | plugins/workbench/src/model.ts:46-57 | Refused, opened, or moved with the source refilled |
| Workbench.WorkbenchModel.ResetViews | plugins/workbench/src/model.ts:58-64 | Placements and collapses go, the full page stays, and the regions are refilled |
| Workbench.WorkbenchModel.Refill | plugins/workbench/src/model.ts:62-62 | The loop that offers every view its own region |
| Workbench.WorkbenchModel.EndLifetime | plugins/workbench/src/model.ts:18-18 | Own views, then the subscription, then the contribution point |
| Workbench.AddedExactly | plugins/workbench/src/model.ts:21-24 | In every run a view is accepted if and only if workbench and scope last, its id is not blank and no view has it; otherwise nothing changes and the answer is the first reason |
| Workbench.OpenShows | plugins/workbench/src/model.ts:30-38 | In every run opening a registered view shows it where it stands, expands that region and touches nothing else; an unknown view or a closed workbench is refused |
| Workbench.CloseHides | plugins/workbench/src/model.ts:39-39 | In every run closing a view empties the slot that shows it and no other |
| Workbench.CollapseTakesEffect | plugins/workbench/src/model.ts:42-45 | In every run a region other than `main` is collapsed or expanded as asked, and nothing else changes |
| Workbench.MoveTakesEffect | plugins/workbench/src/model.ts:46-57 | In every run a view moved to another region stands and is shown there, the region it left keeps its view or shows the first one left in it, and no other slot changes |
| Workbench.MoveRefusedExactly | plugins/workbench/src/model.ts:46-50 | A move is refused, and changes nothing, after the end, for an unknown view and for a full-page one, and only then |
| Workbench.OpenedStaysShown | plugins/workbench/src/model.ts:12-45 | An opened view stays shown whatever is added, collapsed, and whichever other views are closed or leave |
| HomeAudit.WalkIsBounded | apps/server/src/ordessa_server/execution/local_channel.py:280-303 | For any finite tree at most 4096 entries are inspected and at most 1024 files of 8 MiB each and 64 MiB together are listed |
| HomeAudit.VisitsAreCounted | apps/server/src/ordessa_server/execution/local_channel.py:280-303 | Every visited entry is exactly one of entered, skipped, truncated or listed |
| HomeAudit.UncutWalkIsComplete | apps/server/src/ordessa_server/execution/local_channel.py:266-303 | A walk that is not cut visits every entry of the tree once, each directory before what it holds |
| HomeAudit.SmallTreesAreUncut | apps/server/src/ordessa_server/execution/local_channel.py:283-287 | A tree with at most 4096 entries is walked whole |
| HomeAudit.Audit.RelativeEntries | apps/server/src/ordessa_server/execution/local_channel.py:266-303 | The recursive walk over the shared counters: they are those of the entries' fates, and a cut ends only its own directory |
| HomeAudit.Audit.Visit | apps/server/src/ordessa_server/execution/local_channel.py:276-303 | One entry's fate, by the same order of checks |
| HomeAudit.AuditFacts | apps/server/src/ordessa_server/execution/local_channel.py:315-322 | The listing, the truncation and the skipped count of the walk |
| HomeAudit.SmallTreesFailExactly | apps/server/src/ordessa_server/execution/local_channel.py:267-280 | The walk of a tree with at most 4096 entries fails if and only if an entry cannot be looked at or a directory cannot be listed |
| HomeAudit.UncutWalkCounts | apps/server/src/ordessa_server/execution/local_channel.py:280-305 | A walk that is not cut counts every entry as what it is, and the bytes of every regular file as listed or truncated |
| HomeAudit.HomesWithinBoundsAreListed | apps/server/src/ordessa_server/execution/local_channel.py:266-305 | A home within the bounds is listed whole: every regular file, once and in order |
| AuditSnapshot.BackslashEndsTheAudit | apps/server/src/ordessa_server/execution/state_capture.py:48-53 | A home with the one empty file `a\b`: the walk lists it and the audit fails, whatever the rules |
| AuditSnapshot.AuditIsConserved | apps/server/src/ordessa_server/execution/state_capture.py:73-138 | Through both passes `visited` is the sum of entered, skipped, truncated, excluded and audited entries; audited bytes are the listing sizes of the audited files and stay within 64 MiB and 1024 files |
| AuditSnapshot.Snapshot | apps/server/src/ordessa_server/execution/state_capture.py:56-132 | The snapshot loop: files, bytes and truncation are those of the items' verdicts, and the first failing item ends it |
| AuditSnapshot.EveryItemIsJudged | apps/server/src/ordessa_server/execution/state_capture.py:76-124 | On a normal return every item has its own verdict, the one its fields and what was read call for |
| AuditSnapshot.PassesExactly | apps/server/src/ordessa_server/execution/state_capture.py:98-123 | The pass returns normally if and only if no item has an unsafe path, a codeless failure or forbidden content, and otherwise ends with the first that has |
| AuditSnapshot.ItemsAreCounted | apps/server/src/ordessa_server/execution/state_capture.py:92-124 | Unnamed, excluded, truncated and audited items add up to the listing |
| AuditSnapshot.ReadBytesAreListed | apps/server/src/ordessa_server/execution/state_capture.py:97-117 | The byte total never exceeds the listing's |
| AuditSnapshot.WalkedPathIsSafeExactly | apps/server/src/ordessa_server/execution/state_capture.py:48-53 | A path the walk lists is refused by the second pass if and only if a name on it has a backslash |
| AuditSnapshot.ExaminedExactly | apps/server/src/ordessa_server/execution/state_capture.py:76-124 | An item's verdict, and what ends the pass, in terms of its own path and size and of what was read |
| AuditSnapshot.UnderExactly | apps/server/src/ordessa_server/execution/state_capture.py:44-45 | A prefix excludes its own path and what goes on after it with a slash, and nothing else |
| AuditSnapshot.BytesAreConserved | apps/server/src/ordessa_server/execution/state_capture.py:89-117 | What the items to be audited claim is in the manifest's total or counted as truncated, and the oversized ones are counted |
| AuditSnapshot.PathIsItsNames | apps/server/src/ordessa_server/execution/local_channel.py:288-288 | The parts of a walked path are those of its directory and the entry's name |
| Base64.DecodesBack | apps/server/src/ordessa_server/accounts/assets.py:80-80 | Decoding an encoding gives the bytes back |
| Base64.EncodedLength | apps/server/src/ordessa_server/accounts/assets.py:80-80 | Three bytes take four characters, up to padding |
| Base64.EncodesAsTheStandard | apps/server/src/ordessa_server/accounts/assets.py:80-80 | The examples of section 10 of RFC 4648 and the two last letters of its alphabet |
| AccountAssets.UnpacksThePacked | apps/server/src/ordessa_server/accounts/assets.py:52-125 | Whenever packing succeeds, unpacking with any declared list succeeds and returns exactly the files on that list |
| AccountAssets.PacksExactly | apps/server/src/ordessa_server/accounts/assets.py:58-90 | An asset is accepted if and only if it has at most eight files, none empty or above 256 KiB, and its document fits 1 MiB: the accepted assets would be the same without the cap on the sum of the raw sizes |
| AccountAssets.RealBound | apps/server/src/ordessa_server/accounts/assets.py:27-32 | No accepted asset holds more than 786432 raw bytes |
| AccountAssets.RenderedDocument | apps/server/src/ordessa_server/accounts/assets.py:82-86 | How long the compact document is at least, for any names and payloads |
| AccountAssets.AdmitsExactly | apps/server/src/ordessa_server/accounts/assets.py:107-125 | A document is admitted if and only if every declared entry is whole |
| AccountAssets.UndeclaredIsInvisible | apps/server/src/ordessa_server/accounts/assets.py:96-111 | Entries outside the declared list do not affect the result, malformed ones included |
| AccountAssets.LoopAcceptsExactly | apps/server/src/ordessa_server/accounts/assets.py:62-76 | The loop refuses exactly an empty or oversized file when the raw bytes fit |
| AccountAssets.PackAsset | apps/server/src/ordessa_server/accounts/assets.py:52-90 | The document, or the first bound broken in name order |
| AccountAssets.UnpackAsset | apps/server/src/ordessa_server/accounts/assets.py:93-125 | The declared payloads, or the first failure in document order |
| AccountAssets.RefusalNamesTheFirst | apps/server/src/ordessa_server/accounts/assets.py:62-76 | A refusal names a file if and only if that is the first that is empty or above 256 KiB and the files before it fit, alone and together |
| AccountAssets.UnpacksExactly | apps/server/src/ordessa_server/accounts/assets.py:93-125 | A blob unpacks if and only if it is a document of version one whose declared entries are whole, and then to exactly those files with their payloads |
| AccountAssets.FirstBrokenEntryEnds | apps/server/src/ordessa_server/accounts/assets.py:107-125 | A refusal for an entry is that of the first declared one that is not whole, with the reason its own fields give |
| AccountAssets.WrongDigestIsRefused | apps/server/src/ordessa_server/accounts/assets.py:115-118 | A declared entry whose digest is not that of its content refuses the whole asset |
| SessionGroups.GroupsArePermutation | plugins/agent/sessions/src/projection.ts:20-39 | The concatenated groups are a permutation of the list |
| SessionGroups.GroupsStandInOrder | plugins/agent/sessions/src/projection.ts:20-39 | Each group is its pinned sessions followed by the others, each in list order; groups follow first appearance, the standalone group is last |
| SessionGroups.SortedIsPinnedFirst | plugins/agent/sessions/src/projection.ts:37-37 | The sort by the pin is a stable partition |
| SessionGroups.OrderIsFirstAppearance | plugins/agent/sessions/src/projection.ts:26-31 | Keys are recorded in order of first appearance |
| SessionGroups.GroupListsExactly | plugins/agent/sessions/src/projection.ts:33-38 | A group lists exactly the sessions of its key |
| SessionGroups.StandaloneListsExactly | plugins/agent/sessions/src/projection.ts:23-39 | A session of the list is shown in the standalone group if and only if it has no workspace, or its path is only slashes or, without trailing slashes, the word `standalone` |
| SessionGroups.ShareAGroupExactly | plugins/agent/sessions/src/projection.ts:20-39 | Two sessions are shown in one group if and only if their workspaces have the same path up to slashes at its end, or both are listed as standalone |
| SessionGroups.WorkspaceShownAsStandalone | plugins/agent/sessions/src/projection.ts:27-27 | A workspace whose session is listed among those without one |
| SessionGroups.TitleIsTheLastSegment | plugins/agent/sessions/src/projection.ts:14-18 | A project group's title is the last segment of its path |
| SessionGroups.ProjectSessionGroups | plugins/agent/sessions/src/projection.ts:23-39 | The loop, the key order and the sorted buckets |

## Left out

- The bodies of prompts, tool cards, tool-result formatting and message status in the ACP client: they do not decide which
  message a piece belongs to.
- First-send acceptance in the ACP client (`holdAcceptance`, `accept`): a short table of promises.
- `updatedAt`, `workspaceId` and pin merges of the session list: only titles are numbered.
- SessionNames.ListedByItsEvents: creating and loading a session list it too; they write no number and are not events of
  the register.
- The rest of a turn's row (state before its end, recovery, profile and queue updates): of the ledger only the ending is
  modelled.
- The handshake between the Server and the access entry is one `Establish` step; process spawning, pipes and the
  classification of stdout lines are not part of this model.
- Replies of the entry whose `error` is neither absent nor an object.
- Delivery of channel lines to subscribers (`attach`, `detach`, `deliver`, `finish`): `deliver` schedules outside its lock.
- `latestUsage` in the usage report: a value passed through from another table.
- The order of `removed` in a sync report is a set; the product record size limit inside the digest is not modelled;
  `local_edit` always refuses.
- `ControlPlaneSync.ExecutionSideProjection.Apply`: bodies are values, so a caller that changes a delivered body afterwards
  is outside the model.
- Views whose id names a property of `Object.prototype`, and placements outside the five regions, which types rule out.
- Toolbar and navigation contributions: they share the contribution point and have no layout.
- Listing failures of a directory and `stat` failures other than a vanished entry end the walk with one error each; what
  the operating system reported is not kept.
- Listing sizes that are neither integers nor absent, and paths that are not strings.
- JSON parsing of an account asset: a blob is a parsed value or unreadable; numbers are integers. Its rendering is
  concrete, because its length is a bound.
- Base64 input that Python versions treat differently (padding without data, a length that is not a multiple of four):
  the model refuses it, as the strict decoder does.
- The account store, its lock and the digest check of a reclaim: the record update happens in code not modelled here.
- Lone surrogates in file names and payloads that are not bytes.
- `plugins/connectors/ordessa`, change sets, placement, login polling, plugin activation and the React views.
