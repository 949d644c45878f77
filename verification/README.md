# Chuzi control plane: models and proofs

Chuzi is a durable control plane for queued account sessions. This project models its most intricate state machines,
transactions and codecs in Dafny and proves what they keep, over every input, every fault point, every interleaving and
every run. `dafny verify dfyconfig.toml` checks all of it.

## What is modelled

**Signed environment packages** (`Environment*.dfy`, `Manifests.dfy`, `Sorting.dfy`). The package manager keeps a record map, a
saved copy of it, and several sibling directory trees per package. `Environment.dfy` gives each call as a transition over an
abstract file system (path to tree) in which every rename, save or cleanup may fail; `EnvironmentManager.dfy` is the manager itself,
a class whose methods rename, compensate and save step by step, each proved to be that transition. `EnvironmentAgreement.dfy` proves
that records and trees agree in every reachable state, `EnvironmentHistory.dfy` that a ready record earned its gates in order,
`EnvironmentGenerations.dfy` what a generation number identifies and that a restart changes nothing, `EnvironmentRollback.dfy` that
a rollback undoes an install exactly. `EnvironmentCalls.dfy` and `EnvironmentGates.dfy` say of each call, in terms of records, trees
and the manifests found in them, exactly when it succeeds and what it leaves; that a package with a closed gate is not resolved
before the calls that open it; and that a sealed package gets from an empty installation into service. `Manifests.dfy` covers
validation, canonical form, digest and seal.

**Leases and the session runner** (`Lease.dfy`, `LeaseProtocol.dfy`, `LeaseOutcomes.dfy`). Any number of runs share one lease cell;
clocks are sampled before the store is touched, heartbeats refresh a local copy later, and each of these is a step of its own.
`LeaseOutcomes.dfy` tells from the steps of a behaviour exactly which runs have succeeded.

**Account and deletion histories** (`AccountState.dfy`, `AccountProgress.dfy`, `Deletion.dfy`, `DeletionProgress.dfy`).
Event-indexed snapshots with optimistic revisions and idempotent replay. The account validator sorts and replays the whole index,
and is proved to accept exactly the reachable snapshots. The progress modules say which events are accepted and where accounts and
deletions can go.

**RDP capabilities** (`RdpCapability.dfy`, `RdpFences.dfy`, `RdpService.dfy`). A mutable index of bearer capabilities, proved to be
a faithful digest of the log of calls; the service class keeps passwords in buffers that it wipes in place.

**Encrypted credentials** (`Credential.dfy`, `CredentialCalls.dfy`, `CredentialProtocol.dfy`, `CredentialService.dfy`). A call reads
the store in one transaction and writes in another; calls interleave in between. The store is proved to refine one plaintext cell
per account.

**Upgrade tool** (`Upgrade.dfy`), **backoff** (`Backoff.dfy`), **framing** (`Framing.dfy`) and **change-request records**
(`Text.dfy`, `CrModel.dfy`, `CrRoundTrip.dfy`).

Environment facts enter as parameters or stated assumptions: cryptography is a record of functions (`Manifests.Sound`,
`Credential.Correct`), token digests are injective and tokens fresh (`RdpCapability.Injective`, `FreshTokens`), JSON decoding undoes
encoding (`CrModel.Faithful`), encoded objects end in a brace and escape control characters (`CrRoundTrip.JsonText`); clocks, random
values and failures are arguments. `EnvironmentAgreement.TellsApart` asks of the package digest only that it does not confuse the
manifests of two given trees, and is asked only of the trees that an install or a rollback compares.

## Where the code falls short of the obvious claim

Each of these has a proof of the exact condition under which the claim holds.

- Record and tree agree after a committed install if and only if the package is not placed inside a live package's tree
  (`InstallAgreesIffApart`); valid identities that nest exist (`NestedIdentitiesExist`).
- An install leaves the old rollback tree under `.rollback-previous` if and only if it passes every check, moves that tree aside, and
  then either fails to preserve the active tree or commits and fails to delete what it moved aside (`InstallWedgesIff`). No later
  call ever clears the leftover: that package can never be upgraded again (`WedgeIsForever`, `WedgedInstallChangesNothing`). The
  comment on `Install` says that existing versions stay untouched until the commit; the model follows the code.
- A generation that a removal retired is assigned again in a run if and only if, at some time after the removal, every live record of
  that environment is below it and one reaches it later (`ReassignedIffTopFallsAndReturns`); only removals bring that about
  (`OnlyRemovalsFall`). A commit is above all live generations unless one is the largest word (`CommitIsAboveAllLive`).
- Probe order in a canonical manifest is determined if and only if no two different probes share a name
  (`ProbeOrderIsDeterminedIffDistinct`).
- A heartbeat can shorten a lease unless the requested span is kept (`HeartbeatNeverShrinksIffSpanKept`).
- Recorded lease intervals follow one another if and only if every claim was granted on a clock sample not older than any release
  before it (`RecordedOrderIffPrompt`, and `ClaimIsDatedAfterIff` for each claim); `ClaimMayPredateRelease` is a behaviour in which
  one was not.
- A key rotation written after a revocation that its read predates makes a revoked credential readable again
  (`LateRotationRestores`); that is the only write that breaks the refinement (`CommitRefinesIffNotLate`).
- A use shows what it read when it began, and a revocation in between does not stop it (`UseOutlivesRevocation`). What it shows is the
  credential at that time if and only if nothing stored or revoked it in between, or the same payload was stored last
  (`UseShowsTheCellIff`).
- REVOKING_CREDENTIALS does not imply stopped sessions (`RevokingBeforeStopping`). It does if and only if the deletion has just resumed
  from a waiting stage or some applied event carried the flag (`RevokingHasStoppedIff`, `RunRevokingHasStoppedIff`).
- A change request whose extensions hold U+0085, U+2028 or U+2029 is rendered and then refused by the parser
  (`BrokenExtensionsAreRefused`); exactly the well-formed models survive the trip (`RoundTripIffWellFormed`).
- A fence does not reach a capability that was authorized before it and entered after it (`FenceMissesLaterEntry`): exactly the calls after
  the entry can end a capability (`ResolveFollowsTheLog`).
- Restoring an upgrade brings files back exactly if and only if no operated file had a mode bit above 0777
  (`MaskedIsOriginalIff`); a plan that names a destination twice cannot be rolled back (`Worktree.Apply`).

## Model

| member | source | states |
|---|---|---|
| EnvironmentAgreement.KeyIsInjective | internal/environment/lifecycle.go:175-175 | valid identities with the same record key are the same identity |
| EnvironmentAgreement.SiblingBelow | internal/environment/lifecycle.go:324-325 | a sibling of a root lies below a path only if the root does, and never below the root itself |
| EnvironmentAgreement.StagedIsSource | internal/environment/lifecycle.go:320-323 | unless the digest confuses the two manifests, a staged tree with the source's digest has the source's identity |
| EnvironmentAgreement.NotRefused | internal/environment/lifecycle.go:289-351 | what an install has established about every place it touches before anything moves |
| EnvironmentAgreement.CommittedInstall | internal/environment/lifecycle.go:324-407 | the exact state after an install that reports success |
| EnvironmentAgreement.InstallAgreesIffApart | internal/environment/lifecycle.go:257-407 | after a committed install every record agrees with its tree if and only if the package is not placed inside a live package |
| EnvironmentAgreement.NestedIdentitiesExist | internal/environment/lifecycle.go:241-252 | two valid identities of which one lives inside the other's tree |
| EnvironmentAgreement.FailedInstallAgrees | internal/environment/lifecycle.go:330-397 | an install that fails at any point keeps agreement, whichever rename or save failed |
| EnvironmentAgreement.RollbackAgrees | internal/environment/lifecycle.go:1016-1101 | a rollback, failed or not, keeps agreement |
| EnvironmentAgreement.RemoveAgrees | internal/environment/lifecycle.go:963-1010 | a removal, failed or not, keeps agreement |
| EnvironmentAgreement.GateOpsOnlyGate | internal/environment/lifecycle.go:603-819 | verify, trust, enable, health and resolve change neither trees, nor keys, nor what package a record names |
| EnvironmentAgreement.AddSignerAgrees | internal/environment/lifecycle.go:134-148 | adding a signer never invalidates what verified before |
| EnvironmentAgreement.StepKeepsDurable | internal/environment/lifecycle.go:779-787 | every call keeps the saved records equal to the in-memory ones, whatever fails |
| EnvironmentAgreement.StepKeepsAgreement | internal/environment/lifecycle.go:257-1101 | every call keeps agreement, nesting installs and outside changes excepted |
| EnvironmentAgreement.RunIsDurable | internal/environment/lifecycle.go:208-239 | in every run, outside changes included, saved and in-memory records are equal |
| EnvironmentAgreement.RunAgrees | internal/environment/lifecycle.go:257-1101 | in every run of the manager alone, each record's active tree validates to exactly that record's identity, digest and signer |
| EnvironmentHistory.StepEffect | internal/environment/lifecycle.go:603-754 | a call either commits a record with all later gates closed, or opens a gate only by succeeding at that gate |
| EnvironmentHistory.RunIsGated | internal/environment/lifecycle.go:50-73 | the gate implications of record validation hold in every reachable state |
| EnvironmentHistory.EveryRecordHasAStory | internal/environment/lifecycle.go:603-754 | every record of a run traces its open gates, in order, back to its own commit |
| EnvironmentHistory.ReadyWasEarned | internal/environment/lifecycle.go:692-754 | a ready record has, after the commit that assigned its generation, a successful trust, then enable, then health check, and each gate stayed open since |
| EnvironmentGenerations.CommitNumbers | internal/environment/lifecycle.go:370-376 | a commit replaces exactly the record under its own key and takes the next generation of its environment |
| EnvironmentGenerations.CommitIsAboveAllLive | internal/environment/lifecycle.go:488-496 | a commit's generation exceeds every live one of its environment if and only if none is the largest 64-bit word |
| EnvironmentGenerations.RunIsKeyed | internal/environment/lifecycle.go:176-207 | in every run records sit under the key of their own valid identity |
| EnvironmentGenerations.ShortRunsNeverWrap | internal/environment/lifecycle.go:488-496 | no run of fewer than 2^64 calls wraps a generation |
| EnvironmentGenerations.RunKeepsGenerationsDistinct | internal/environment/lifecycle.go:488-496 | live generations of an environment are pairwise distinct in every reachable state |
| EnvironmentGenerations.GenerationNamesOneCommit | internal/environment/lifecycle.go:370-376 | without removals, later commits of an environment have higher generations |
| EnvironmentGenerations.NextCommitAfterRemovalIsAboveIff | internal/environment/lifecycle.go:963-1010 | the next commit after a removal takes a generation above the retired one if and only if a younger record of the environment is live |
| EnvironmentGenerations.CommitReusesIff | internal/environment/lifecycle.go:488-496 | a commit takes generation g or a lower one exactly when no live record of its environment reaches g |
| EnvironmentGenerations.RisingTakesEveryStep | internal/environment/lifecycle.go:488-496 | the highest live generation rises to g only by a commit that takes exactly g |
| EnvironmentGenerations.ReassignedIffTopFallsAndReturns | internal/environment/lifecycle.go:488-496 | from any point of any run on, a generation is assigned again if and only if all live ones of the environment are below it at some time and one reaches it later |
| EnvironmentGenerations.RetiredStaysRetired | internal/environment/lifecycle.go:963-1010 | as long as some live record reaches a retired generation, no commit takes it |
| EnvironmentGenerations.OnlyRemovalsFall | internal/environment/lifecycle.go:963-1010 | only a removal brings the live generations of an environment below one they reached |
| EnvironmentGenerations.RestartIsTransparent | internal/environment/lifecycle.go:176-207 | after every run a new process accepts the saved records and is in the very same state |
| EnvironmentRollback.RollbackUndoesInstall | internal/environment/lifecycle.go:1016-1101 | exactly when a rollback of an install succeeds; then the old tree is active under an installed-and-verified record, nothing else but an older rollback tree is lost, and a second rollback is unavailable |
| EnvironmentRollback.InstallInstallRollback | internal/environment/lifecycle.go:324-407 | install A, install B, roll back, with gate calls anywhere between: tree A, its digest and signer, all later gates closed |
| EnvironmentRollback.FailedPreservationWedges | internal/environment/lifecycle.go:332-359 | a failed preservation after a rotation leaves the old rollback tree under its side name |
| EnvironmentRollback.TreesAfterInstall | internal/environment/lifecycle.go:257-407 | where every tree is after an install, for every outcome |
| EnvironmentRollback.InstallWedgesIff | internal/environment/lifecycle.go:332-401 | exactly which installs leave a rollback tree under its side name: a failed preservation or a failed last cleanup after a rotation |
| EnvironmentRollback.WedgedInstallChangesNothing | internal/environment/lifecycle.go:324-332 | with that leftover every install of the package changes nothing |
| EnvironmentRollback.WedgeIsForever | internal/environment/lifecycle.go:324-332 | no run of the manager ever clears the leftover |
| EnvironmentCalls.InstallOutcome | internal/environment/lifecycle.go:257-407 | an install of a genuine source succeeds exactly when that package is there already, or its places are free or hold earlier versions of it, the copy is faithful and no step fails; then every field of the record and every path is as stated; otherwise no record changes |
| EnvironmentCalls.OnlyGenuineInstalls | internal/environment/lifecycle.go:267-279 | a source that is not a valid package of a trusted signer for this target is refused, changing nothing |
| EnvironmentCalls.RollbackOutcome | internal/environment/lifecycle.go:1016-1101 | a rollback succeeds exactly on a record that is not ready with two genuine versions of different digests; then the trees have changed places and the record is that of the rollback tree |
| EnvironmentCalls.RemoveOutcome | internal/environment/lifecycle.go:963-1010 | a removal takes the active tree and the record away exactly when the record is not ready, its tree intact and the side place free; every other tree stays |
| EnvironmentGates.HealthOutcome | internal/environment/lifecycle.go:692-754 | a failed probe leaves the record neither healthy nor ready; a passed one leaves it healthy, and ready exactly when trusted and enabled; a missing or changed tree closes all gates; a failed save changes nothing |
| EnvironmentGates.VerifyOutcome | internal/environment/lifecycle.go:603-624 | verifying an intact tree opens the first gate and no other; a changed tree closes them all |
| EnvironmentGates.TrustOutcome | internal/environment/lifecycle.go:626-661 | trust is granted on an intact tree of a known signer; withdrawing it closes every gate behind it |
| EnvironmentGates.EnableOutcome | internal/environment/lifecycle.go:662-691 | enabling needs trust and an intact tree; disabling ends readiness but not health |
| EnvironmentGates.ResolveOutcome | internal/environment/lifecycle.go:788-832 | resolving yields m exactly when all gates are open, m is the manifest of the intact active tree and declares the entry; a changed tree closes all gates |
| EnvironmentGates.SickUntilPassed | internal/environment/lifecycle.go:730-754 | in every run: after a failed health check a package is not resolved before a later one has passed |
| EnvironmentGates.DistrustedUntilReopened | internal/environment/lifecycle.go:626-661 | in every run: after a withdrawal of trust it is not resolved before it was trusted, then enabled, then found healthy again |
| EnvironmentGates.DisabledUntilReopened | internal/environment/lifecycle.go:662-691 | in every run: after a disabling it is not resolved before it was enabled, then found healthy again |
| EnvironmentGates.ChangedTreeShuts | internal/environment/lifecycle.go:603-819 | every call that reads a changed tree closes all gates of its package |
| EnvironmentGates.ChangedUntilReopened | internal/environment/lifecycle.go:603-819 | in every run: once a call has read a changed tree, the package is not resolved before it was verified or committed anew, then trusted, enabled and found healthy, and its tree is intact again |
| EnvironmentGates.VerifiedAfter | internal/environment/lifecycle.go:603-624 | the first gate opens only by a verification or a commit |
| EnvironmentGates.FirstInstallCommits | internal/environment/lifecycle.go:302-407 | the first install of a genuine package into free places succeeds and its tree is the active package |
| EnvironmentGates.UpgradeCommits | internal/environment/lifecycle.go:285-407 | an upgrade of an intact package to another digest succeeds; the new tree is active and the old one is the rollback tree |
| EnvironmentGates.ServiceServes | internal/environment/lifecycle.go:257-832 | install, trust, enable and a passed health check put a genuine package into service: every declared entry resolves, whatever else is installed |
| EnvironmentGates.SealedPackageIsServed | internal/environment/lifecycle.go:134-832 | from an empty installation, adding the signer of any sealed package with valid contents and putting it into service ends with every entry resolving |
| EnvironmentGates.EmptyInstallationCanServe | internal/environment/lifecycle.go:134-832 | such packages exist: the empty installation reaches a state with a record that is served |
| EnvironmentGates.SignersKeepTheirKeys | internal/environment/lifecycle.go:134-148 | in every run a trusted signer keeps its key |
| EnvironmentGates.RestartAdmitsOnlySound | internal/environment/lifecycle.go:176-207 | a new process takes over exactly the saved records, keyed, dated and gated, or refuses |
| EnvironmentManager.Manager.NextGeneration | internal/environment/lifecycle.go:488-496 | the loop over the records computes one above the highest generation, wrapping |
| EnvironmentManager.Manager.Enroll | internal/environment/lifecycle.go:779-787 | a record is entered and saved, or nothing changes |
| EnvironmentManager.Manager.MakeRoom | internal/environment/lifecycle.go:324-359 | which trees have moved where, for every failure of the two renames that make room, and that no tree is lost |
| EnvironmentManager.Manager.PutBack | internal/environment/lifecycle.go:361-366 | the compensating renames restore every place, and lose no tree even when they or the deletion before them fail |
| EnvironmentManager.Manager.Replace | internal/environment/lifecycle.go:324-402 | commit or take back: the exact outcome and state for every fault |
| EnvironmentManager.Manager.Admit | internal/environment/lifecycle.go:285-323 | the checks before any move reach exactly the verdict of the transition: already installed, refused, or admitted |
| EnvironmentManager.Manager.Install | internal/environment/lifecycle.go:257-407 | implements the install transition; a failed install keeps records, state file and every tree, failing compensation included |
| EnvironmentManager.Manager.Rollback | internal/environment/lifecycle.go:1016-1101 | implements the rollback transition; a failed one keeps records, state file and every tree |
| EnvironmentManager.Manager.Remove | internal/environment/lifecycle.go:963-1010 | implements the removal transition; unless it commits, records, state file and trees are kept |
| EnvironmentManager.Manager.Verify | internal/environment/lifecycle.go:603-624 | implements the verify transition |
| EnvironmentManager.Manager.SetTrusted | internal/environment/lifecycle.go:626-661 | implements the trust transition |
| EnvironmentManager.Manager.SetEnabled | internal/environment/lifecycle.go:662-691 | implements the enable transition |
| EnvironmentManager.Manager.HealthCheck | internal/environment/lifecycle.go:692-754 | implements the health transition |
| EnvironmentManager.Manager.Resolve | internal/environment/lifecycle.go:788-832 | implements resolving, with the search for the entry point as a loop |
| EnvironmentManager.Manager.SyncRecords | internal/environment/lifecycle.go:927-962 | success leaves the catalog equal to the records; a failure at any call leaves each entry old or current and drops no live one |
| Manifests.CheckTokens | internal/environment/manifest.go:166-178 | the one-pass check accepts exactly lists of valid, distinct tokens |
| Manifests.CheckContents | internal/environment/manifest.go:104-129 | the loops accept exactly distinct valid resources with entry points among them |
| Manifests.ContentIgnoresOrder | internal/environment/manifest.go:85-142 | validation does not depend on the order of any list |
| Manifests.CanonicalForm | internal/environment/manifest.go:211-231 | a canonical form exists exactly for valid contents; it is an ordered, unsigned permutation of the manifest |
| Manifests.CanonicalIsAnySort | internal/environment/manifest.go:211-231 | whatever the sort, an ordered unsigned permutation is the canonical form |
| Manifests.CanonicalIgnoresOrder | internal/environment/manifest.go:211-231 | reordering lists does not change the canonical form |
| Manifests.CanonicalIsIdempotent | internal/environment/manifest.go:211-231 | the canonical form is its own canonical form |
| Manifests.CanonicalIgnoresSignature | internal/environment/manifest.go:211-231 | digest and signature fields do not enter it |
| Manifests.ProbeOrderIsDeterminedIffDistinct | internal/environment/manifest.go:226-226 | the probe order is determined if and only if different probes have different names |
| Manifests.SealedVerifies | internal/environment/manifest.go:250-294 | sealing succeeds exactly on valid contents and yields a valid manifest that passes digest and signature verification |
| Manifests.DigestBindsContent | internal/environment/manifest.go:239-280 | unless the digest confuses the two manifests, equal verified digests mean equal canonical forms |
| Sorting.ArrangementIsUniqueIffKeysDistinct | internal/environment/manifest.go:220-226 | a sorted arrangement is unique if and only if different elements have different keys |
| Sorting.AscendingPermutationIsUnique | internal/environment/manifest.go:220-226 | two ascending permutations agree when keys are distinct |
| Lease.HeartbeatNeverShrinksIffSpanKept | internal/account/lease.go:77-102 | a heartbeat never moves the expiry back if and only if the requested span is not below the lease's own |
| Lease.AcquireSucceedsIff | internal/account/lease.go:51-74 | a lease is granted exactly on a free cell or over a valid lease that has expired by then, for the claimer and the span |
| Lease.HeldUntilExpiry | internal/account/lease.go:51-100 | a lease, heartbeat or not, keeps other claims out until it expires and no longer |
| Lease.HolderSucceedsIff | internal/account/lease.go:77-112 | heartbeats and releases go through exactly for the holder, heartbeats only within the lease |
| LeaseProtocol.StepKeepsInv | internal/account/lease.go:51-112 | every step keeps: no expiry a run believes in outlives the cell's |
| LeaseProtocol.BehaviourKeepsInv | internal/browser/runner.go:409-443 | the same in every state of every interleaving |
| LeaseProtocol.BelieverHoldsTheCell | internal/browser/runner.go:283-322 | a run whose lease looks unexpired to it holds the cell, so at most one run can think so |
| LeaseProtocol.FinishWasSampled | internal/browser/runner.go:283-322 | a finished run's clock sample is in the behaviour, with the cell as it was then |
| LeaseProtocol.SuccessMeansHeld | internal/browser/runner.go:283-322 | success is reported only for a time at which the shared cell held the run's own lease |
| LeaseProtocol.TenuresAreDisjoint | internal/account/lease.go:51-112 | ownership intervals follow one another without overlap |
| LeaseProtocol.TakeoverStartsAfterExpiry | internal/account/lease.go:51-75 | a takeover is dated no earlier than the expiry it relies on, however old the clock sample |
| LeaseProtocol.ClaimIsDatedAfterIff | internal/account/lease.go:51-75 | every granted claim is dated at or after the end of all earlier tenures if and only if its sample is at or after every release |
| LeaseProtocol.StepKeepsRecordedOrderIff | internal/account/lease.go:51-112 | a step keeps recorded intervals in order if and only if it is not a claim granted on a sample older than a release |
| LeaseProtocol.RecordedOrderIffPrompt | internal/account/lease.go:51-112 | in every behaviour recorded intervals follow one another exactly when every claim's sample was at or after every release before it |
| LeaseProtocol.ClaimMayPredateRelease | internal/account/lease.go:51-112 | a behaviour in which a claim is dated before the release that made room for it |
| LeaseOutcomes.CopyIsCopied | internal/browser/runner.go:409-443 | in every behaviour a run works with the lease it last copied |
| LeaseOutcomes.ErrorWasPosted | internal/browser/runner.go:445-459 | its error flag says whether a heartbeat error was posted |
| LeaseOutcomes.SucceededIff | internal/browser/runner.go:281-326 | a run has succeeded exactly when its worker's success was reported and closing worked, no heartbeat error had been posted, its last copied lease was unexpired at the finish sample, and it has not returned the lease since |
| LeaseOutcomes.ClaimIsGrantedIff | internal/account/lease.go:51-74 | a claim is granted exactly when the cell is empty or expired at the claim's sample, and what it writes |
| LeaseOutcomes.StartsIff | internal/browser/runner.go:181-188 | a granted run starts exactly if its lease is unexpired then |
| LeaseOutcomes.BeatIsStoredIff | internal/account/lease.go:77-100 | a heartbeat is stored exactly while the cell holds the run's lease unexpired at the sample, and what it writes |
| LeaseOutcomes.ReleaseEmptiesIff | internal/account/lease.go:104-112 | returning a lease empties the cell exactly if it still holds that lease |
| LeaseOutcomes.NewRunCanSucceed | internal/browser/runner.go:168-326 | from every reachable state with an empty or expired cell a new run can claim it, succeed and return it |
| LeaseOutcomes.RunningCanRenew | internal/browser/runner.go:409-443 | a running run can renew its lease at any time before it expires |
| AccountState.Validate | internal/account/state.go:144-199 | accepts exactly the snapshots that some history explains, which are the reachable ones |
| AccountState.Replay | internal/account/state.go:172-198 | the loop over the sorted index accepts exactly the index of a chained history |
| AccountState.Apply | internal/account/state.go:237-287 | validates, then accepts, repeats or refuses exactly as the transition over histories says |
| AccountState.JustifiedIffReachable | internal/account/state.go:122-287 | replay accepts a snapshot if and only if accepted events build it from a new account |
| AccountState.RevisionsAreOwnedOnce | internal/account/state.go:172-198 | each revision from 1 to n belongs to exactly one event |
| AccountState.SuccessorStartsWherePredecessorEnded | internal/account/state.go:172-198 | the owner of revision r + 1 starts in the state the owner of r ended in |
| AccountState.TerminalAcceptsOnlyRepeats | internal/account/state.go:202-224 | a terminal account accepts exact repeats and nothing else |
| AccountState.SuccessWasEarned | internal/account/state.go:202-224 | a success has queueing, starting and logging in before it, in this order |
| AccountState.AtLeastOnceDelivery | internal/account/state.go:237-287 | repeats of accepted events at any later points of any stream leave the final snapshot unchanged |
| AccountProgress.AcceptedIffPredecessor | internal/account/state.go:202-287 | a fitting new event is accepted exactly from the named predecessors of its target, and moves the account there |
| AccountProgress.NewIsAcceptedIff | internal/account/state.go:237-287 | no other new event is accepted by any snapshot |
| AccountProgress.EnteredFromPredecessor | internal/account/state.go:202-287 | every status in a reachable account's history was entered from one of its predecessors |
| AccountProgress.CancelAndBlock | internal/account/state.go:202-224 | cancelling is accepted exactly from Queued, Starting and LoggingIn, blocking exactly until the account is terminal |
| AccountProgress.CanFollow | internal/account/state.go:202-287 | every path along predecessors is taken by some accepted events |
| AccountProgress.EveryStatusIsReached | internal/account/state.go:202-287 | every declared status is reached by some accepted history of a new account |
| AccountProgress.AttemptEndsEitherWay | internal/account/state.go:213-214 | a login attempt can end in success and in failure |
| AccountProgress.RetryCanSucceed | internal/account/state.go:215-220 | a failed or expired account reaches success again within four accepted events |
| Deletion.ApplyKeepsValid | internal/account/deletion.go:174-226 | applying an event to a valid deletion yields a valid deletion |
| Deletion.ReachableIsValid | internal/account/deletion.go:90-130 | every reachable deletion validates, and cleaning the profile implies revoked credentials |
| Deletion.FlagsAreTheDisjunction | internal/account/deletion.go:174-226 | the flags are the disjunction over all applied events |
| Deletion.RunIsIndexed | internal/account/deletion.go:174-226 | the applied events are the indexed ones, position as revision |
| Deletion.TombstoneWasEarned | internal/account/deletion.go:237-260 | sessions, credentials and profile were first set in this order, credentials strictly before the tombstone |
| Deletion.ResumesAtFirstIncomplete | internal/account/deletion.go:271-280 | a waiting deletion accepts a checkpoint stage exactly when it is the first incomplete one |
| Deletion.RevokingBeforeStopping | internal/account/deletion.go:146-166 | a deletion revokes credentials although no event recorded stopped sessions |
| Deletion.RevokingHasStoppedIff | internal/account/deletion.go:237-280 | a deletion that moves to revoking has stopped sessions recorded exactly when it resumes from waiting, or the flag was or is being set |
| Deletion.RunRevokingHasStoppedIff | internal/account/deletion.go:174-280 | in every run a revoking deletion has them recorded exactly when it just resumed from waiting or some applied event carried the flag |
| Deletion.NoDeadEnds | internal/account/deletion.go:146-226 | from every reachable deletion at most four accepted events reach the tombstone |
| Deletion.TombstoneIsFinal | internal/account/deletion.go:174-226 | after it only exact replays succeed, changing nothing |
| DeletionProgress.AcceptedIffSource | internal/account/deletion.go:146-260 | a new event is accepted exactly when it fits, leads on from a named source of its stage, and the checkpoints are in order |
| DeletionProgress.ShowsLastEvent | internal/account/deletion.go:207-225 | after every event of a run the deletion shows its stage, time, attempt, retry time and failure; a tombstone clears the last two |
| DeletionProgress.IdentityIsKept | internal/account/deletion.go:207-225 | who is deleted, why and how never changes |
| DeletionProgress.CanPause | internal/account/deletion.go:146-226 | a reachable deletion at work can wait for a retry or be blocked at any time, remembering attempt, retry time and failure as given |
| RdpCapability.BindingIsAllOrNothing | internal/credential/rdp_capability.go:380-389 | a valid slot binding is complete or absent, and the slot lease tells which |
| RdpCapability.EntryAfter | internal/credential/rdp_capability.go:148-372 | what each call leaves of an entry: all of it unless the call ends that capability |
| RdpCapability.IndexMirrorsLog | internal/credential/rdp_capability.go:148-372 | the index holds an intact entry exactly for each live issue of the log, and otherwise wiped ones |
| RdpCapability.ResolveFollowsTheLog | internal/credential/rdp_capability.go:184-234 | a resolve yields material exactly when the log holds an issue of the token that no later call ended and whose terms permit the caller now |
| RdpCapability.EntriesAreSound | internal/credential/rdp_capability.go:148-372 | entries are bound completely or not at all, and revoked ones are wiped |
| RdpCapability.EndedStaysEnded | internal/credential/rdp_capability.go:236-372 | a capability that a call ended never resolves again, whatever the clock says |
| RdpCapability.FenceMissesLaterEntry | internal/credential/rdp_capability.go:148-182 | a fence between authorization and entry does not reach the capability: it resolves on its own terms |
| RdpFences.RequestFence | internal/credential/rdp_capability.go:257-274 | drops exactly the entries granted to that request, keeping all others; a blank identifier changes nothing |
| RdpFences.SlotLeaseFence | internal/credential/rdp_capability.go:278-295 | drops exactly the entries granted to that slot lease |
| RdpFences.SlotFence | internal/credential/rdp_capability.go:299-316 | drops exactly the entries granted to that slot |
| RdpFences.AccountLeaseFence | internal/credential/rdp_capability.go:320-337 | drops exactly the entries granted to that account lease |
| RdpFences.GenerationFence | internal/credential/rdp_capability.go:341-358 | drops exactly the entries granted to that slot and generation; generation 0 changes nothing |
| RdpFences.CloseDropsAll | internal/credential/rdp_capability.go:362-373 | closing drops every entry |
| RdpFences.NamedIsEnded | internal/credential/rdp_capability.go:256-372 | a fence ends exactly the capabilities whose request, slot, leases or generation it names |
| RdpFences.FencedNeverResolves | internal/credential/rdp_capability.go:256-372 | in every log: a capability never resolves after a fence that names it |
| RdpFences.FenceSparesOthers | internal/credential/rdp_capability.go:256-372 | in every log: a fence leaves every capability live that it does not name |
| RdpFences.IssueIsAcceptedIff | internal/credential/rdp_capability.go:148-182 | when an issue is accepted, and what it grants until when |
| RdpFences.IssuedResolvesUntilExpiry | internal/credential/rdp_capability.go:148-234 | a new capability resolves for its own authorization exactly until it expires |
| RdpService.Clear | internal/credential/rdp_capability.go:84-92 | overwrites the whole buffer |
| RdpService.Service.Issue | internal/credential/rdp_capability.go:148-182 | implements an issue; a refused authorization's buffer is wiped |
| RdpService.Service.Resolve | internal/credential/rdp_capability.go:184-234 | implements a resolve; hands out a fresh copy; an expired entry's buffer is wiped |
| RdpService.Service.Revoke | internal/credential/rdp_capability.go:236-252 | implements a revocation; the entry stays, wiped |
| RdpService.Service.Sweep | internal/credential/rdp_capability.go:265-372 | the loop drops and wipes exactly the covered entries and touches no other buffer |
| RdpService.Service.FenceOff | internal/credential/rdp_capability.go:256-372 | implements all five fences and closing |
| RdpService.ResolveThenFence | internal/credential/rdp_capability.go:376-379 | a copy handed out earlier keeps its contents through a later fence |
| CredentialProtocol.AppliedFacts | internal/store/credential.go:45-120 | what the store guarantees about an applied mutation, repetition or not |
| CredentialProtocol.CommitRefinesIffNotLate | internal/store/credential.go:45-120 | a write keeps the store a refinement of the plaintext cells if and only if it is not a late rotation |
| CredentialProtocol.CommitOnlyRaises | internal/store/credential.go:84-101 | versions never fall, creation time stays, stores and rotations raise the version |
| CredentialProtocol.PutPrepared | internal/credential/credential.go:248-301 | a prepared store seals the given plaintext as the next version |
| CredentialProtocol.RotatePrepared | internal/credential/credential.go:363-424 | a prepared rotation carries the cell's plaintext under the current key |
| CredentialProtocol.ReadYieldsCell | internal/credential/credential.go:310-353 | a read yields p exactly when the call is valid, timely and the cell holds p |
| CredentialProtocol.StepKeepsInv | internal/credential/credential.go:248-511 | every step of every process but a late rotation keeps the refinement |
| CredentialProtocol.RunKeepsInv | internal/credential/credential.go:248-511 | the same over whole runs with any keyring that only grows |
| CredentialProtocol.CellIsLastStored | internal/credential/credential.go:248-511 | the cell is the last stored payload of the log, unless revoked since |
| CredentialProtocol.UseYieldsLastPut | internal/credential/credential.go:318-341 | across any number of rotations a read yields p exactly when p is the last payload stored and not revoked since |
| CredentialProtocol.UseShowsTheCellIff | internal/credential/credential.go:310-353 | in every interleaving, what a use shows is the cell at that time exactly when nothing replaced it since the use began, or the same payload was stored last |
| CredentialProtocol.ShownWasPrepared | internal/credential/credential.go:333-350 | the audit written before showing is the one prepared with the read |
| CredentialProtocol.UseOutlivesRevocation | internal/credential/credential.go:310-353 | for every active credential, a revocation written between read and audit does not stop the payload from being shown |
| CredentialProtocol.VersionsNeverFall | internal/credential/credential.go:248-424 | in every interleaving versions never fall and the creation time is kept |
| CredentialProtocol.WritesRaiseTheVersion | internal/credential/credential.go:248-424 | successive stores and rotations have strictly increasing versions |
| CredentialProtocol.SerialRunsAreTimely | internal/credential/credential.go:363-424 | calls that do not interleave never write a rotation late |
| CredentialProtocol.LateRotationRestores | internal/credential/credential.go:363-465 | for every active credential, a rotation written after a revocation that its read predates makes the payload readable again |
| CredentialCalls.PutSucceedsIff | internal/credential/credential.go:248-301 | a store goes through exactly for a timely call, a bounded payload and a usable key, revoked credential or not |
| CredentialCalls.ReadYieldsIff | internal/credential/credential.go:310-341 | a read yields p exactly when the stored record is not revoked and a known key opens it to p |
| CredentialCalls.UseSucceedsIff | internal/credential/credential.go:310-353 | a use goes through exactly when the credential opens and the audit is identified |
| CredentialCalls.RotateSucceedsIff | internal/credential/credential.go:363-424 | a rotation goes through exactly when the credential opens and its key is not the current one |
| CredentialCalls.RevokeSucceedsIff | internal/credential/credential.go:433-470 | a revocation writes exactly for an active credential with invalidated sessions, and has nothing to do exactly for a revoked one |
| CredentialCalls.RevokeForDeletionSucceedsIff | internal/credential/credential.go:472-511 | likewise once sessions are stopped; a missing credential is nothing to do |
| CredentialCalls.PutTakesEffect | internal/credential/credential.go:248-301 | after a store the credential opens to what was stored, as the next version, with its audit |
| CredentialCalls.RotateTakesEffect | internal/credential/credential.go:363-424 | after a rotation it opens to the same plaintext under the current key |
| CredentialCalls.RevokeTakesEffect | internal/credential/credential.go:433-470 | after a revocation nothing opens it and its ciphertext is gone |
| CredentialCalls.RevokeForDeletionTakesEffect | internal/credential/credential.go:472-511 | the same for a deletion, whose audit names it |
| CredentialCalls.StoredAfterRevocation | internal/credential/credential.go:248-341 | a revoked credential can be stored anew and is then read back |
| CredentialService.Backend.ApplyMutation | internal/store/credential.go:45-120 | implements the store's transaction |
| CredentialService.Service.Put | internal/credential/credential.go:248-301 | implements a store; the caller's buffer is untouched and the working copy cleared |
| CredentialService.Service.Use | internal/credential/credential.go:310-353 | implements a use: the plaintext is seen only after its audit was written; the working buffer is cleared |
| CredentialService.Service.RotateKey | internal/credential/credential.go:363-424 | implements a rotation; the working buffer is cleared |
| CredentialService.Service.Revoke | internal/credential/credential.go:433-470 | implements a revocation |
| CredentialService.Service.RevokeForDeletion | internal/credential/credential.go:472-511 | implements a revocation for deletion |
| Upgrade.Worktree.CreateBackup | scripts/ugs_upgrade.py:742-769 | the loop saves every operated file with its digest and permission bits |
| Upgrade.Worktree.CheckBackup | scripts/ugs_upgrade.py:785-828 | refuses exactly unusable metadata and, unless forced, any operated file that changed |
| Upgrade.Worktree.RestoreFiles | scripts/ugs_upgrade.py:830-846 | puts every saved file back and removes every added one, or stops with a prefix done where a directory stands in the way |
| Upgrade.Worktree.VerifyRestored | scripts/ugs_upgrade.py:849-874 | the check after a restore passes exactly when every saved file is back with its digest and mode and every added one is gone |
| Upgrade.Worktree.Restore | scripts/ugs_upgrade.py:772-882 | refuses before touching anything; or restores every file and the hooks path, certainly so with no directory in the way; or stops at a directory with a prefix restored |
| Upgrade.Worktree.Stage | scripts/ugs_upgrade.py:895-899 | stages exactly the new files; destinations inside one another cannot be staged |
| Upgrade.Worktree.ReplaceAll | scripts/ugs_upgrade.py:900-903 | after any failure a prefix of the plan is in place; a destination named twice always fails |
| Upgrade.Worktree.Apply | scripts/ugs_upgrade.py:885-916 | applied in full, or failed with every operated file and the hooks path put back, unless the plan repeats a destination |
| Upgrade.PutBackUndoes | scripts/ugs_upgrade.py:742-846 | restoring undoes any prefix of the application, down to the permission bits |
| Upgrade.MaskedIsOriginalIff | scripts/ugs_upgrade.py:751-751 | the restored files are the original ones if and only if no operated file had a higher mode bit |
| Upgrade.ChangedSinceMeaning | scripts/ugs_upgrade.py:796-807 | an entry counts as changed exactly when the file is not what the operation wrote |
| Upgrade.ApplyThenRestore | scripts/ugs_upgrade.py:772-916 | applying and restoring without force brings back every operated file and the hooks path |
| Upgrade.AppliedServes | scripts/ugs_upgrade.py:481-507 | an applied plan leaves every file in it as wanted, unless it belongs to the project or is a directory, and touches no other |
| Backoff.Decide | internal/account/retry.go:66-92 | a transient failure with attempts left waits exactly min(max, base * 2^(attempt-1)); no intermediate value overflows |
| Backoff.UploadBackoff | internal/diagnostics/service.go:463-478 | the same closed form for every positive base, even with the cap below the base |
| Backoff.CappedIsMonotone | internal/account/retry.go:79-91 | the delay never falls from one attempt to the next and never exceeds the cap |
| Backoff.BothAgree | internal/diagnostics/service.go:463-478 | the two implementations agree wherever both apply |
| Framing.Reader.ReadFrame | internal/coretransport/server.go:236-248 | the outcome depends on the unread bytes alone, not on buffer size or arrival |
| Framing.ReadAll | internal/coretransport/server.go:236-248 | exactly the written frames come out, in order |
| Framing.SentIsAccepted | internal/coretransport/server.go:254-266 | what either side sends under a limit the other accepts under it, and the client refuses exactly what would not be accepted |
| CrModel.ParseMetadataBlock | scripts/cr_model.py:88-109 | the loop reads the fields, refusing duplicates always and unknown or blank lines in strict mode |
| CrModel.ParseSections | scripts/cr_model.py:117-157 | the loop collects one body per section, in canonical order |
| CrModel.RenderText | scripts/cr_model.py:305-337 | the accumulated text is the rendering |
| CrRoundTrip.CoverageRoundTrip | scripts/cr_model.py:188-203 | a sorted list of object identifiers is read back from its rendering |
| CrRoundTrip.ResultRoundTrip | scripts/cr_model.py:206-213 | target and object identifier are read back from their rendering |
| CrRoundTrip.MetadataRoundTrip | scripts/cr_model.py:88-109 | all seventeen fields are read back |
| CrRoundTrip.SectionsRoundTrip | scripts/cr_model.py:117-157 | all seven bodies are read back |
| CrRoundTrip.BuildRoundTrip | scripts/cr_model.py:222-302 | building from rendered metadata gives the model |
| CrRoundTrip.ParseRender | scripts/cr_model.py:305-375 | parsing the rendering of a well-formed model gives that model |
| CrRoundTrip.RenderParse | scripts/cr_model.py:340-375 | an accepted record is the rendering of its model |
| CrRoundTrip.AcceptedFits | scripts/cr_model.py:117-302 | an accepted record holds a model whose values fit their fields |
| CrRoundTrip.BrokenExtensionsAreRefused | scripts/cr_model.py:88-109 | a rendered model whose extensions hold a line break is refused: strict reading meets a line after all fields are taken |
| CrRoundTrip.AcceptedIsWellFormed | scripts/cr_model.py:117-302 | an accepted record holds a well-formed model |
| CrRoundTrip.RoundTripIffWellFormed | scripts/cr_model.py:305-375 | exactly the well-formed models survive the trip |
| CrRoundTrip.RenderIsInjective | scripts/cr_model.py:305-337 | different well-formed models render differently |
| CrRoundTrip.StatusDetermines | scripts/cr_model.py:263-273 | in an accepted record the status is one of five and determines the decision and whether there is a result |
| CrRoundTrip.EveryStatusIsRead | scripts/cr_model.py:263-273 | every status is read back from a well-formed model with what belongs to it |

## Left out

- Directory trees are values with a validation function: symbolic links, hashing of files, executable headers and partially deleted trees are not modelled, and neither are empty parent directories.
- The manager's manifest cache is written but never read by any modelled call, so it has no field here.
- Catalog references (`InstallReference` and its relatives), `List`, `Get` and `ResolveRuntime` would only add easy members.
- `PromoteReady` mirrors a subset of what SyncRecords mirrors.
- Contexts, mutexes, goroutines, timers and deadlines appear only as nondeterministic steps or fault arguments; which of several simultaneous errors is reported first follows the code only where the model says so.
- Slot leases in the runner follow the account lease, which carries the argument.
- RDP issue: the random source, the authorizer and the hash are arguments; logging and redaction are not modelled.
- Credential calls: the bytes of the associated data are a triple here, and key material is only copied, never generated.
- Upgrade tool: package validation, archives, Git layout detection and reports are not modelled; the hooks path is the value as `git config --get` reports it after stripping; directories created on the way stay behind and are not part of the worktree's files.
- Legacy (version 0) change-request records, error codes and the binding digest, which is a function of the rest of the model, are not modelled.
- Framing: JSON payloads are assumed free of line feeds; short writes and the unchecked size of a cancel request are not modelled.
- Mirroring visits the records in an arbitrary order where the code sorts their keys first; what it states holds for every order.
- The durable store beyond credentials, the queue, slots, the launcher, the session broker and the command-line wiring are not part of this model.
