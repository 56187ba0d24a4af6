# The identity store, modelled and proved

`iam-db` is the storage service of an identity system: a set of SQL transactions over
shared tables, whose comments argue protocol properties. This project models five of those
protocols in Dafny 4.11 and proves the properties over all inputs, all runs and all
interleavings.

1. **Access** (`Accounts`, `AccountRuns`, `AccountContracts`, `AccountStore`, `RowLock*`). Enrolments, their
   redemption, the credential epoch, revocation, passwords and the checked mint. `Accounts`
   has each RPC as one transition; `AccountStore` runs it statement by statement on fields
   updated in place and is proved equal to that transition; `RowLocks` runs any number of
   transactions at once, with a program counter, shared and exclusive row locks kept to the
   commit, uncommitted rows and aborts at any point. `RowLockRefinement` proves that every such
   interleaving is a serial run and `RowLockComplete` that every call gets done, `RowLockIdempotence` that concurrent deliveries of one key
   agree, `RowLockOrder` that the serial order
   respects real time, `RowLockEpoch` that no login outlives a revocation, and `RowLockDeadlock` that no wait
   is ever circular.
2. **Declared teams** (`DeclaredTeams`, `TeamContracts`, `TeamStore`, `TeamRuns`, `TeamRace`). The reconciler
   `SyncTeams` with its lockout guard, pending set and change report, and the bootstrap
   `CreateUser`, serial and interleaved.
3. **The key marker** (`KeyIdentity`, `KeyContracts`, `KeyRace`), its adoption on evidence, and the paged lists
   (`KeysetWalks`, `ListWalks`) with their printed tokens (`PrintedForms`).
4. **The connection guard** (`ConnectionGuard`). Which pooled connections go back, and clean.
5. **Inherited settings** (`Settings`, `SettingRace`, `SettingSerial`, `SettingRewrite`) under an idempotency
   ledger, serial and interleaved (`SettingSerial`).

`dafny verify dfyconfig.toml` checks the whole project.

## What the proofs found

- **The lock order rests on one assumption.** `lock_owner` locks nothing for an unknown secret.
  If that enrolment is committed between the owner read and the spend, the spend takes the
  enrolment row without the user row. `RowLocks.Guarded` states the assumption: no enrolment is
  committed under a redemption of it that found no owner and has yet to name its answer. Under
  it the refinement and the absence of circular waits hold. Without it both fail:
  `UnguardedRunsCanDeadlock` reaches a circular wait and `UnguardedAnswersAreNotSerial` a wrong
  answer from any tables with a live person, and `LateSpendCanDeadlock` reaches a circular wait
  from every state in which such a late spend is possible.
- **A keyed setting write can be applied twice.** The comment at `src/service/setting.rs:111-116`
  calls the double write of two concurrent deliveries harmless because the verb assigns. It is
  harmless only if nobody else writes in between: `KeyedWriteCanBeAppliedTwice` has a run in
  which the second delivery undoes a later change and reports success, which is what
  `src/service/setting.rs:90-95` says the ledger exists to stop; `ClearCanUndoALaterOverride`
  has one with a clear whose first delivery deleted nothing. The exact condition: a delivery
  whose key was recorded between its look and its claim commits what the serial call would
  exactly when the last write committed to its row since is of the same request
  (`OvertakenWriteIsSerialExactly`), or, for a clear, when its DELETE matched nothing
  (`OvertakenClearIsSerialExactly`).
- **A clear that matches nothing is ordered by its DELETE, not by its commit.** It keeps no lock,
  so an override may be committed before it is (`ClearCanBeUndercut`). That is the only way a
  delivery that was not overtaken differs from the serial call at its commit
  (`OthersAreSerialExactly`).
- **A page token the service never issued can be accepted**: "+5:x", "05:x" and "-0:x" are
  (`AcceptedButNeverIssued`). An accepted token is an issued one exactly when it writes the epoch in its shortest form.
- **Attribution targets are unambiguous exactly up to the 256-character cap.**

## Reading the model

- Ids, hashes, ciphertexts, blind indexes and idempotency keys are opaque values with equality;
  the empty key is `None`. User ids and team names are text where their grammar is checked.
- `spent_at`, `voided_at`, `revoked_at` and `deleted_at` are modelled by whether they are set.
  The clock is a number that does not decrease; only a spend reads it.
- Minted ids are fresh. Counters are unbounded except where the service saturates them.
- An engine error ends a transaction with nothing written; in the interleaved models it may
  happen at any point (`Abort`).
- `U32_MAX` saturation, the password column's 255 characters, the 64 ids of evidence, page sizes
  50 and 200, the 63-character team name, the 255-byte fingerprint and the cap of 256 are the
  service's constants.

The handlers of `AccountStore`, `SettingStore`, `KeyStore` and the two `CreateUser` arms follow
their specification functions branch by branch; the rows below name the methods whose proof
composes several statements. The `...Contracts` modules say what those functions mean on the
rows before and after a call, without naming them.

## Model

| member | source | states |
|---|---|---|
| AccountRuns.ServeKeeps | src/service/enrolment/redeem.rs:55-253 | every RPC keeps all keys and foreign keys, never deletes a row, never withdraws a spent, voided or revoked mark, never lowers an epoch, never rewrites a ledger row; an enrolment is never both spent and voided |
| AccountRuns.RunKeeps | src/schema.rs:211-445 | the same between any two states of any run |
| AccountRuns.EpochStep | src/service/epoch.rs:30-65 | one call moves a person's epoch by one if it is a redemption, a revoke-all or a password write that succeeds for them, and not at all otherwise |
| AccountRuns.EpochCountsBumps | src/service/epoch.rs:30-65 | over any run the epoch grows by exactly the number of bumps of that person, so it never decreases and is unchanged exactly when there was none |
| AccountRuns.RevokingTables | src/service/credential/all.rs:42-53 | a revoke-all or revoking redemption leaves no live credential and no redeemable enrolment of the person, and moves their epoch |
| AccountRuns.LiveCredentialsPostdateRevocation | src/service/credential/mint.rs:17-129 | every credential live after a revocation was minted after it, at an epoch at least the one it produced |
| AccountRuns.NoLoginOutlivesRevocation | src/service/credential/mint.rs:22-129 | a Login that read its epoch before a revocation never holds a live credential after it, whenever its mint ran |
| AccountRuns.ReplayIsTheOriginal | src/service/enrolment/ledger.rs:28-104 | any later delivery under the key of a redemption changes no table and answers the original person, enrolment and epoch |
| AccountRuns.ReplayMintsUntilABump | src/service/enrolment/ledger.rs:84-103 | a mint under the epoch a replay answers succeeds exactly when the person is live and no bump of theirs committed since the redemption |
| AccountRuns.UnredeemableNamesTheCause | src/service/enrolment/ledger.rs:120-148 | after a spend that matched nothing, the outcome named is the condition that failed, each in both directions |
| AccountRuns.SecretRedeemsAtMostOnce | src/service/enrolment/redeem.rs:55-98 | no secret is redeemed at two steps of a run |
| AccountRuns.RevocationEndsEnrolments | src/service/enrolment/revoke.rs:152-165 | no enrolment that existed at a revocation of its person is redeemed after it |
| AccountRuns.EveryDeliveryAnswersRedeemed | src/service/enrolment/redeem.rs:104-157 | in a serial run in which no refusal is later on the clock than the redemption, if a (key, secret) pair redeems at all, every delivery of it whose hash fits and that finds the enrolment answers REDEEMED with the same person, enrolment and epoch; one from before the enrolment existed answered NOT_FOUND; only the redemption writes |
| AccountRuns.RedemptionIsRecorded | src/service/enrolment/redeem.rs:212-232 | the redemption's ledger row, whole, is in every later state |
| AccountRuns.DemandReachesOnlyTheUncredentialed | src/service/enrolment/demand.rs:77-88 | when the bootstrap demand mints, its person is a live administrator whom no earlier step gave a password or a credential, revoked ones included |
| AccountContracts.RedeemChangesExactly | src/service/enrolment/redeem.rs:55-98 | a Redeem changes the tables exactly when its key is free, its hash has at most 255 characters and the enrolment is there, unspent, not voided, before its deadline and a living person's |
| AccountContracts.RedemptionIsDescribed | src/service/enrolment/redeem.rs:163-253 | the answer names the person whose epoch moved and the epoch, the enrolment now spent and its instruction, and how many rows became voided; every row of the five tables that changed or stayed, and the ledger row, are given |
| AccountContracts.RefusedRedeemSaysWhy | src/service/enrolment/ledger.rs:28-148 | a Redeem that changes nothing answers its key's redemption to the same secret, refuses the key to another, refuses a long hash, or names the condition of the enrolment |
| AccountContracts.KeyNamesOneSecret | src/service/enrolment/ledger.rs:50-60 | in any run, once a key has redeemed a secret, a delivery of it with another secret changes nothing and is refused INVALID_ARGUMENT |
| AccountContracts.RevokeAllIsDescribed | src/service/credential/all.rs:19-72 | revoke-all leaves every credential of the person revoked, every open enrolment voided, one bump, and nobody else's row changed |
| AccountContracts.RevokeAllCounts | src/service/credential/all.rs:54-71 | its two counts are the saturated numbers of rows that became revoked and voided |
| AccountContracts.CreateEnrolmentExactly | src/service/enrolment/demand.rs:77-88 | which of the five answers each state gives, and the row minted; the demand exactly for an administrator with no password and no credential of any liveness |
| AccountContracts.RevokeCredentialExactly | src/service/credential.rs:147-190 | the pair's row is revoked and no other row changes; without such a pair, NOT_FOUND and nothing |
| AccountContracts.WithdrawnForEver | src/service/credential.rs:161-172 | in any run a credential whose withdrawal was answered Done is its holder's and revoked in every later state |
| AccountContracts.PasswordReadsBack | src/service/password.rs:12-175 | a stored hash is the one read back, with the person's epoch of the moment, until the next password write or redemption of theirs |
| AccountContracts.FlagIsTheLastGiven | src/service/identity.rs:42-66 | the administrator flag is the last one given by the creation of the person or by SetUserAdmin |
| AccountStores.AccountStore.Redeem | src/service/enrolment.rs:156-251 | ledger check, column check, spend, then either end: tables and answer are those of the atomic transition |
| AccountStores.AccountStore.FinishRedeemed | src/service/enrolment/redeem.rs:163-253 | bump, revoke, void, password and ledger row, in that order, give the redeemed tables and answer |
| AccountStores.AccountStore.Withdraw | src/service/credential/all.rs:40-56 | tombstone, bump and void one after the other give the tables and counts of the atomic revoke-all |
| RowLockSteps.ExecSound | src/service/enrolment/redeem.rs:30-253 | every statement, run on the locks it holds, leaves uncommitted rows equal to what the call would write on the tables as committed now; a settled refusal or replay is the serial answer |
| RowLockCommit.CommitIsServe | src/service/enrolment/revoke.rs:89-97 | committing a transaction's rows is the atomic transition of its call on the tables at that moment, answer included |
| RowLockCommit.TxStable | src/service/enrolment/revoke.rs:70-82 | another transaction's commit leaves everything a transaction relies on standing |
| RowLockRefinement.NextKeeps | src/service/enrolment.rs:198-250 | every step of every interleaving keeps the invariant |
| RowLockRefinement.InterleavingsAreSerial | src/service/enrolment.rs:198-250 | in every reachable state the committed tables are the end of a serial run of the logged calls with the same answers, and every answer delivered is logged |
| RowLockComplete.EveryCallIsServed | src/service/enrolment.rs:198-250 | the converse: from any state with nobody in flight each call runs alone to its commit, never doomed, with the tables and the answer of the atomic transition |
| RowLockRefinement.RevokeUndisturbed | src/service/credential.rs:161-172 | a lone RevokeCredential, which takes no user row, disturbs no transaction in flight: what a revoke has written and not committed is locked |
| RowLockOrder.LogOnlyGrows | src/service/enrolment.rs:198-250 | the serial order is only ever extended |
| RowLockOrder.LoggedAtMostOnce | src/service/enrolment.rs:198-250 | each call stands in it once |
| RowLockOrder.RealTimeOrder | src/service/enrolment.rs:198-250 | a call answered before another began stands before it |
| RowLockIdempotence.ConcurrentDeliveriesAgree | src/service/enrolment/redeem.rs:104-157 | over every interleaving, if a pair redeems, exactly one logged call spends its secret and every answered delivery of it was answered REDEEMED with the same person, enrolment and epoch, unless the enrolment was not yet committed when it was logged, and then NOT_FOUND |
| RowLockIdempotence.ConcurrentRedemptionIsRecorded | src/service/enrolment/redeem.rs:212-232 | over every interleaving the committed ledger holds that redemption's row, whole |
| RowLockEpoch.NoInterleavedLoginOutlivesRevocation | src/service/credential/mint.rs:22-129 | over every interleaving, with the password read an event: a mint checked against an epoch read before a revocation took effect before it and is revoked |
| RowLockEpoch.InterleavedCredentialsPostdateRevocation | src/service/credential/mint.rs:17-129 | over every interleaving a credential live in the committed tables was minted after every revocation of its owner, at a later epoch |
| RowLockEpoch.InterleavedWithdrawalHolds | src/service/credential.rs:161-172 | over every interleaving a credential whose withdrawal was answered Done is its holder's and revoked in the committed tables |
| RowLockEpoch.InterleavedKeyNamesOneSecret | src/service/enrolment/ledger.rs:50-60 | over every interleaving a key that has redeemed one secret is refused to every other |
| RowLockDeadlock.ReachableShapes | src/service/enrolment/redeem.rs:14-29 | the rows each transaction may hold at each point, in every reachable state |
| RowLockDeadlock.WaitsRise | src/service/enrolment/revoke.rs:89-97 | who waits is outranked by whom they wait for |
| RowLockDeadlock.NoCircularWait | src/service/enrolment/redeem.rs:14-29 | no path of the waits-for graph returns to its start, and none has more than four transactions |
| RowLockDeadlock.NoStandstill | src/service/enrolment/redeem.rs:14-29 | while anything is in flight some transaction can advance or has failed |
| RowLockLateEnrolment.LateSpendCanDeadlock | src/service/enrolment/redeem.rs:25-29 | from every state of every execution in which a redemption that found no owner can now spend, a circular wait is reachable |
| RowLockLateEnrolment.UnguardedRunsCanDeadlock | src/service/enrolment/redeem.rs:25-29 | without the assumption a circular wait is reachable from any tables with a live person |
| RowLockLateEnrolment.UnguardedAnswersAreNotSerial | src/service/enrolment/ledger.rs:120-148 | without it a redemption can be told EXPIRED of a redeemable enrolment, an answer the log does not hold |
| DeclaredTeams.SyncReachesDeclaration | src/service/team/sync.rs:227-361 | each declared team is live with exactly its declared members that have a user row |
| DeclaredTeams.SyncArchivesTheRest | src/service/team/sync.rs:257-283 | every other stored team is archived with its rows kept |
| DeclaredTeams.ChangeReport | src/service/team/sync.rs:118-130 | a person is reported if and only if their set of live teams differs or they lost a stale row of a team this sync reactivated |
| DeclaredTeams.PredictedAdministrators | src/service/team/sync.rs:69-93 | the live administrators predicted from the declaration are those counted on the new tables |
| DeclaredTeams.MemberRowsBalance | src/service/team/sync.rs:313-361 | member rows after are rows before plus added minus removed |
| TeamContracts.SyncAppliedExactly | src/service/team/sync.rs:76-91 | a declaration is applied exactly when it does not take the last live administrators away and no team it inserts has a name held under another id; refused, nothing changes |
| TeamContracts.SyncedTeams | src/service/team/sync.rs:227-307 | after an applied sync the live teams are exactly the declared ones, under their names, and no team is lost or made up |
| TeamContracts.SyncedMembers | src/service/team/sync.rs:313-361 | a declared team's rows are exactly its declared members that have a user row |
| TeamContracts.SyncedPending | src/service/team/sync.rs:94-106 | the pending set is the declared administrators without a user row, and empty once one is live |
| TeamContracts.ReportedChangesExactly | src/service/team/sync.rs:118-130 | a person is in the answer's changed list if and only if the tables before and after put them in different live teams, or they lost a stale row of a team that came back |
| TeamContracts.ReportedTeams | src/service/team/sync.rs:227-283 | the answer's inserted, reactivated and archived counts are those of the teams that appeared, came back and went away |
| TeamContracts.ReportedMembers | src/service/team/sync.rs:313-361 | its added and removed counts are those of the rows gained and lost, and the rows balance |
| TeamContracts.ReportedAdministrators | src/service/team/sync.rs:90-106 | its live administrators are the recount on the new tables, saturated, and its pending list is theirs |
| TeamContracts.ReportedUnknown | src/service/team/sync.rs:107-117 | its unknown ids are exactly the declared ones without a user row that are not pending there |
| TeamContracts.BootstrapIsDescribed | src/service/identity/bootstrap.rs:61-170 | which refusal each state gives, and the user, the member row and the empty pending set a success writes |
| TeamRuns.SyncConverges | src/service/team/sync.rs:20-23 | repeating an applied declaration is applied, changes no table and reports zero |
| TeamRuns.SyncKeeps | src/service/team/sync.rs:76-106 | a sync keeps every constraint, the pending rule, and a live administrator once there is one |
| TeamRuns.NeverLockedOut | src/service/team/sync.rs:76-87 | once administrators has a live member it has one in every later state of the run |
| TeamRuns.BootstrapAtMostOnce | src/service/identity/bootstrap.rs:61-170 | the bootstrap CreateUser succeeds at most once in any run |
| TeamRuns.PendingOnlyWhileUnadministered | src/service/team/sync.rs:94-106 | in every state of a run a pending administrator exists only while there is no live one |
| TeamRace.InterleavedTeamsAreSerial | src/service/team.rs:52-87 | every interleaving of the statements of syncs, bootstraps and mints is a serial run of the logged calls with the answers given, although a sync reads the users without a lock |
| TeamRace.NeverLockedOutInterleaved | src/service/team/sync.rs:59-87 | once administrators has a live member it has one in every later state of every interleaving |
| TeamRace.BootstrapAtMostOnceInterleaved | src/service/identity/bootstrap.rs:61-170 | of any number of racing bootstraps at most one creates its user |
| TeamRace.TeamsNoStandstill | src/service/team/sync.rs:59-66 | while a sync or a bootstrap is in flight, some transaction can go on |
| TeamStores.Validate | src/service/team/sync.rs:148-195 | accepts exactly the requests whose names match the grammar and are unique and whose members are canonical and unique per team, and computes the ids |
| Identifiers.TeamNameExactly | src/service/team/sync.rs:151-160 | a team name is exactly a lowercase letter and up to 62 lowercase letters, digits and hyphens |
| Identifiers.CanonicalExactly | src/service/team.rs:37-50 | a canonical user id is exactly the prefix and five hyphenated groups of lowercase hexadecimal digits with version 7 and variant 8, 9, a or b |
| TeamStores.CountLive | src/service/team/sync.rs:71-76 | counts the live members of a declared team |
| TeamStores.UnknownMembers | src/service/team/sync.rs:107-117 | lists each declared id without a user row once, unless pending |
| TeamStores.TeamStore.KnownUsers | src/service/team/sync.rs:197-222 | classifies every declared id as absent, soft-deleted or live |
| TeamStores.TeamStore.WriteTeams | src/service/team/sync.rs:227-283 | fails exactly on a name held under another id; otherwise inserts, reactivates and archives, with the counts and the members of archived teams |
| TeamStores.TeamStore.WriteMembers | src/service/team/sync.rs:313-361 | replaces one team's rows, counting and naming who came and went |
| TeamStores.TeamStore.SyncTeams | src/service/team/sync.rs:47-144 | tables, refusals and the whole response are those of the specification; a refusal writes nothing |
| TeamStores.TeamStore.Sync | src/service/team/sync.rs:47-144 | the RPC with its validation, keeping the invariant |
| KeyIdentity.ComparedWith | src/service/key_identity.rs:67-80 | MATCH exactly for the same pair, skew exactly for another version |
| KeyIdentity.SameRowOfCanonical | src/service/key_identity/adopt.rs:115-117 | for any lower-casing that leaves plain lower-case ASCII alone, the fold is the identity on canonical user ids |
| KeyIdentity.CheckEvidence | src/service/key_identity/adopt.rs:95-113 | accepts exactly 1 to 64 ids no two of which fold alike |
| KeyIdentity.CountingIsSetEquality | src/service/key_identity/adopt.rs:248-285 | N of the N oldest rows are in the list exactly when there are N and the list names them, for any comparison of the column, even one coarser than the evidence check's |
| KeyIdentity.AdoptionExactly | src/service/key_identity/adopt.rs:238-304 | over canonical ids an unmarked store records an adoption exactly when the ids given are, byte for byte, those of its N oldest rows |
| KeyIdentity.MarkerIsPermanent | src/service/key_identity.rs:345-472 | a stored marker is the marker of every later state of any run of Set, Adopt, Get and CreateUser |
| KeyIdentity.RecordedIsStored | src/service/key_identity.rs:224-235 | a pair a Set or an Adopt was told it recorded is stored and matches in every later state |
| KeyIdentity.KeyStore.AdoptKeyIdentity | src/service/key_identity/adopt.rs:238-304 | the counting predicate writes exactly when the evidence is the oldest rows |
| KeyContracts.SetExactly | src/service/key_identity.rs:345-435 | a Set writes exactly when the pair is presentable and the store has no marker and no user; on an unmarked populated store it is refused, on a marked one told of the marker |
| KeyContracts.AdoptExactly | src/service/key_identity/adopt.rs:238-304 | an adoption writes exactly when well formed, unmarked and naming the oldest rows one each, and what it answers otherwise |
| KeyContracts.MarkerWasRecorded | src/service/key_identity.rs:345-472 | every marker that appears in a run was recorded by a Set while there was no user or by an adoption whose ids are those of the N oldest rows |
| KeyContracts.SpacedTwinsAreRefused | src/service/key_identity/adopt.rs:85-117 | evidence with two ids that differ by trailing spaces alone is refused |
| KeyRace.OneWinner | src/service/key_identity.rs:445-472 | in every state of every race one caller recorded the marker and everyone else told anything was told the comparison with it |
| KeyRace.ExactlyOneRecorded | src/service/key_identity.rs:345-472 | of n rivals on an empty store who are all answered, one is answered RECORDED and n-1 MISMATCH |
| KeyRace.SomeCallerAdvances | src/service/key_identity.rs:345-472 | while a racing caller is neither answered nor failed, some caller's next statement can run and leaves less to do |
| PrintedForms.ParseOfToken | src/service/key_identity/adopt.rs:51-76 | parse undoes token for every non-negative i64 epoch and every id, colons included |
| PrintedForms.AcceptedExactly | src/service/key_identity/adopt.rs:58-76 | a token is accepted exactly when empty, or an optional sign, digits worth 0 to 2^63 - 1 with it, a colon and any id |
| PrintedForms.IssuedExactlyWhenShortest | src/service/key_identity/adopt.rs:58-76 | an accepted token is the issued one exactly when its epoch is unsigned and in shortest form |
| PrintedForms.AcceptedButNeverIssued | src/service/key_identity/adopt.rs:58-76 | for every position, its epoch with a plus sign or a leading zero, and zero with a minus sign, is accepted though never issued |
| PrintedForms.UnescapedEscaped | src/service.rs:364-373 | the two replacements can be undone and leave no slash |
| PrintedForms.TargetsEqualExactly | src/service.rs:364-373 | two non-empty segment lists print one target exactly when their capped segments agree |
| PrintedForms.CapMergesExactly | src/service.rs:364-373 | the cap merges two segments exactly when both exceed it and agree up to it |
| PrintedForms.TargetsInjective | src/service.rs:364-373 | within the cap the target determines the list |
| PrintedForms.LongSegmentsCollide | src/service.rs:364-373 | beyond it, it does not |
| KeysetWalks.PageSize | src/service/credential.rs:210-213 | 50 when nothing positive is asked for, and otherwise what is asked for up to 200 |
| KeysetWalks.ServePage | src/service/credential.rs:248-275 | the rows in order, and a token naming the last exactly when the page filled |
| KeysetWalks.ServedAtMostOnce | src/service/credential.rs:215-218 | no walk serves a row twice, whatever changes between pages |
| KeysetWalks.WalkIsComplete | src/service/credential.rs:215-218 | a finished walk serves every row that was there throughout, exactly once |
| KeysetWalks.WalkEnds | src/service/credential.rs:269-275 | on an unchanging table a walk has at most one page more than the table has rows |
| ListWalks.EvidenceWalkComplete | src/service/key_identity/adopt.rs:145-209 | the evidence list walked by its printed tokens serves every lasting row exactly once and in order |
| ListWalks.EvidenceWalkEnds | src/service/key_identity/adopt.rs:145-209 | and ends |
| ListWalks.CredentialWalkComplete | src/service/credential.rs:204-276 | the credential list serves every credential that stays listed exactly once, and all in the order of their ids |
| ListWalks.CredentialsServedAreTheirs | src/service/credential.rs:225-245 | every id a page serves is, in the table it was read from, an unrevoked credential of that living person |
| ListWalks.CredentialWalkEnds | src/service/credential.rs:204-276 | and ends |
| ConnectionGuard.IdleIsClean | src/service/conn.rs:16-60 | over every run an idle pooled connection has no pending isolation level, no open transaction, no queued rollback and no half-read reply |
| ConnectionGuard.ArmedMeansUnfinished | src/service/conn.rs:223-244 | armed means exactly that a SET / BEGIN sequence begun since the acquire has not finished |
| ConnectionGuard.ClosedExactly | src/service/conn.rs:99-109 | a dropped connection is lost if and only if acquired outside a request, its request was cancelled or a begin sequence did not finish; otherwise it is back and clean |
| ConnectionGuard.CompletionKeepsConnections | src/service/conn.rs:113-150 | a request that completes with its begin sequences finished gives back every connection |
| ConnectionGuard.RequestRunsThrough | src/service/conn.rs:164-244 | from any pool with a clean idle connection a request can acquire it, begin, run a statement, commit, drop it and complete, and the pool is as before |
| ConnectionGuard.Conn.Begin | src/service/conn.rs:223-244 | with any replies, and with a ROLLBACK queued or not, the object ends as the pool's events leave the guard, armed unless BEGIN answered Ok |
| ConnectionGuard.Conn.Drop | src/service/conn.rs:99-109 | the object closes exactly when the pool machine's drop leaves the connection out of the pool |
| ConnectionGuard.StoreWork.Drop | src/service/conn.rs:142-150 | the flag and `done` afterwards reflect the pool after Cancel, or the unchanged pool when the request had completed |
| ConnectionGuard.StoreWork.Poll | src/service/conn.rs:129-139 | the flag and `done` afterwards reflect the pool after Complete when ready, and the unchanged pool otherwise |
| Settings.AcceptedExactly | src/service/setting/inherited.rs:74-184 | validation admits exactly an organisation write, a team write and a team clear, with every field the later writes read |
| Settings.ReadsOwnWrite | src/service/setting.rs:336-350 | the answer of a write shows what was asked for |
| Settings.WriteIsDescribed | src/service/setting.rs:130-190 | a write leaves its row as asked, every other row of both levels as it was, and its key bound to it |
| Settings.RefusedExactly | src/service/setting.rs:199-326 | NOT_FOUND exactly for an override of a team that is not live, UNAVAILABLE exactly for a value the columns do not hold, INVALID_ARGUMENT exactly for a malformed request or a key bound to another; refused, nothing changes |
| Settings.ReadBackExactly | src/service/setting/inherited.rs:24-70 | both levels are read back as they are stored |
| Settings.KeyBoundForEver | src/service/setting.rs:88-117 | a key once answered is bound to its request for ever; a later call under it changes nothing and is answered exactly for the same request |
| Settings.StepKeeps | src/schema/policy.rs:125-281 | stored values stay in {1, 2}, overrides name stored teams with a non-empty id, the ledger only grows |
| SettingRace.OnePayloadPerKey | src/service/setting.rs:104-118 | over every interleaving two answered deliveries under one key carried the same request, the one on the ledger |
| SettingRace.ValuesStayStorable | src/schema/policy.rs:125-196 | over every interleaving stored values are 1 or 2 and no override has an empty team id |
| SettingSerial.DuplicateExactly | src/service/setting.rs:303-326 | a delivery ready to commit met its own key exactly when the key was recorded between its look and its claim |
| SettingSerial.OvertakenWriteIsSerialExactly | src/service/setting.rs:108-116 | such an organisation or team write commits what the serial call would if and only if the last write committed to its row, from the commit that recorded its key on, is of the same request |
| SettingSerial.OvertakenClearIsSerialExactly | src/service/setting.rs:174-182 | such a clear does if and only if no override stood committed on its row when its DELETE ran |
| SettingSerial.RecorderIsLogged | src/service/setting.rs:303-326 | that recording commit is in the log |
| SettingSerial.OthersAreSerialExactly | src/service/setting.rs:22-118 | every other delivery does if and only if it is not a clear whose DELETE matched nothing and whose row has been set by the last commit to it since |
| SettingSerial.OneRequestInEffect | src/service/setting.rs:130-190 | a stored row says what at most one accepted request to it asks for |
| SettingRewrite.KeyedWriteCanBeAppliedTwice | src/service/setting.rs:108-116 | from any store and unused key, a run in which a second delivery undoes a later change and reports success |
| SettingRewrite.EveryDeliveryIsServed | src/service/setting.rs:22-118 | from any state with nobody in flight a well-formed delivery runs alone to the serial commit, or to its refusal where the serial call refuses |
| SettingRewrite.ClearCanUndoALaterOverride | src/service/setting.rs:174-182 | from any store with a live team without override, a run in which a clear that matched nothing records its key and a second delivery removes an override committed in between |
| SettingRewrite.ClearCanBeUndercut | src/service/setting.rs:174-182 | from any such store, a run in which a clear matches nothing and commits with an override standing that the serial call would remove |

## Left out

- Wiring: environment, TLS, probing, serving, key rotation, forwarding handlers and the caller gate.
- Policy rows (`policy.rs`): upserts and deletes of one row each, each on its own. `declared.rs` mints one enrolment for a member of the administrators under their locked row; the retired team verbs refuse without reading a table.
- ResolveCredential: only its liveness rules for teams and credentials appear, as `LiveTeams` and `Listed`.
- The bootstrap demand is a step of serial runs but not of the lock-step machine.
- A second read that only explains a zero row count (RevokeCredential, SetUserAdmin, the mints) is taken together with its statement; a redemption's is a step of its own.
- Team names compare by bytes in `DeclaredTeams.NameClash`, while the unique key of the team name ignores case: a stored name in capitals that differs from a declared one only by case is a clash to the store and not to the model.
- Minted user ids are fresh: in `TeamRace` they are no user's and not declared or claimed by a request in flight. A malformed bootstrap id is refused before the machine starts.
- The answer an interleaved setting write reads back is not part of `SettingRace`, only what it commits.
- Gap locks, snapshots and ER_CHECKREAD: the lock-step models have row locks, current reads under a lock and abort on error; plain reads see committed rows. A scan locks the rows it matches and no others.
- Timestamps other than the spend's deadline: expiry of credentials, `created_at` as a clock, and the moment a mark was set.
- Integer overflow of the epoch and of the unsaturated `u32` sync counters.
- What Unicode lower-casing and the column's comparison do to ids is a parameter (`Compare`).
- How ids sort under the column's collation is a parameter of the walks (`idLess`), required only to be a strict order with the empty string first.
- KeyRace.ExactlyOneRecorded: no user is created during the race, because the INSERT holds the user table against it.
- ConnectionGuard: waiting for a connection and its deadlines are not modelled; the driver's and server's behaviour is the one written in the header of `src/service/conn.rs`.
- Telemetry, log lines, status messages and the wire types. Sorted and declared orders of the ids in a sync response: the model has them as sets and as lists without repetition.
