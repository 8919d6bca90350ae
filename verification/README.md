# Banking software assurance platform: verified model

A Dafny 4.11 model of the decision-making core of the platform, with proofs over whole
runs. `dafny verify dfyconfig.toml` checks everything.

## What is modelled

**Accounts, sessions and authorisation.** `Store` holds the tables; `AccountServices` holds
`AuthService`, `Authorizer`, `UserAdminService` and the governance half of
`SecuredAssessmentService` as classes that assign to those tables field by field, each proved
equal to a block function of `Accounts`. One `with session()` block is one atomic step.
`AccountRuns` is the machine of all such steps: the guard of a protected call and the change
it allows are separate steps, so other blocks can run between them, and the second block of a
password change can also run on its own. `AccountOutcomes` says what each block means to its
caller, of the rows and the log alone. `AccountLog` reads the audit log as an event source;
`AccountRuns`, `AccountSafety` and `SignInRuns` prove what every run keeps: among other things
which password opens an account, and where its hash comes from.

**Scores, findings and finalization.** `Governance` holds reviews, overrides and the two rules
for "the current score"; `ScoreLog` is the machine of scoring batches and overrides, `ScoreTies`
the same on a clock that may stall; `OverrideEffect` says what an override does to the current
verdict, and `DecisionLog` that the audit log holds every decision; `Finalization` is the finalization policy and what reviews
do to it; `Signoff` says what a finalizable assessment rests on, over whole runs with guards;
`Comparison` is the comparison of two scans, down to the order of the result lists, and
`ComparisonReport` says which scan is the baseline and whose findings stand where.

**From files to scores.** `Discovery` walks a directory tree with its pruning, budgets and eight
exits per file; `WalkReach` says of the tree which files are reached and `FileKinds` which of
them are scanned; `Integrity` is the before-and-after hash and `IntegrityLimits` how far it
reaches; `DomainMapper` maps files to domains; `ScanPipeline` runs the scan with arbitrary,
possibly failing scanners; `ScanGuarantees` states what its result is worth, `ScanReport` what
its entries and numbers say, and `DedupLimits` which findings it leaves out; `ScanStore` saves it, computes coverage and scores it;
`ScoreCoverage` connects the first stage to the last; `Scoring` is the scoring engine over
exact numbers and `ScoreMeaning` an independent reading of its columns by counting.

**Two text formats.** `PasswordFormat` prints and parses the stored password hash. Parsing reads
more texts than printing makes: two of one password are in `SpacedNumberIsAccepted`, and
`PrintsBackIff` says which of the texts that are read are the printed ones.
`FindingsCsv` prints the findings export and reads it back by section 2 of RFC 4180.

`Prelude`, `Sorting`, `Text`, `Permissions` and `Domains` are shared definitions.

## Where the code does not do what it, or its documentation, promises

Each of these has a lemma with a failing case and a lemma with the exact condition.

- A password change runs in two blocks, and the second does not look at the active flag again.
  A user deactivated in between is handed a principal of the row's current version for an
  inactive account (`DeactivationBetweenBlocksIsMissed`, exactly when: `InterleavedChangeActiveIff`).
  It validates in no later state (`ShutStaysShut`), and what a session needs is exact in every run
  (`SessionValidIff`).
- `override_score` does not check the named domain against the row it overrides, so an override can
  split the two rules for the current score (`MisfiledOverrideSplitsTheRules`, exactly when:
  `OverrideKeepsAgreementIff`).
- Equal times split the two rules too: one compares with `>=`, the other with `>`
  (`EqualTimesSplitTheRules`). With no assumption on times, the rules agree in every query order
  exactly when every domain has one strictly newest row and no row overrides it
  (`AgreeInEveryOrderIff`, over whole runs `LooseRunAgreesIff`).
- A file counts as evidence for a domain because it maps there, not because it was read. A domain
  whose files are all binary or unreadable is scored a clean 100 (`BinaryFileScoresClean`, exactly
  when: `ScoredUnreadIff`, and when no status or warning tells: `ScoredUnreadSilentlyIff`).
- `.env` is in the list of scanned extensions, but a file of exactly that name has no extension and
  is skipped as unsupported (`DotEnvIsNotScanned`, exactly which names are scanned: `SupportedIff`).
- Every path that contains "yaml" contains "aml", so every YAML file maps to fraud controls
  (`EveryYamlPathIsFraudControls`; when a file maps to a domain: `MappedExactly`).
- `_deduplicate` promises to drop exact duplicates only. Its key is rule, file and lines, so it also
  drops the second of two findings that differ in their evidence (`SameLineFindingIsDropped`). It
  keeps the promise exactly when no two different findings share a key (`OnlyCopiesDroppedIff`, for
  a whole scan `ScanKeepsEveryFindingIff`).
- Its docstring names the scanner as part of the key; the code's key has no scanner. Of two scanners
  with one rule on one line only the first is heard (`OtherScannersFindingIsDropped`). The two keys
  drop the same findings exactly when no two scanners share a key (`DocumentedKeyDropsTheSameIff`),
  as when every rule belongs to one scanner (`OwnedRulesMakeTheKeyRight`).
- The comment on `DiscoveryResult.truncated` says that the depth limit sets it; it does not
  (`DepthLimitIsSilent`, exactly when the flag tells of every cut: `TruncatedTellsIff`, and when it
  is set: `TruncatedIff`).
- The integrity hash records a followed link as a mark, not by content, so a scan that follows
  links can inventory bytes the hash does not protect (`FollowedLinksAreNotCovered`). An
  inventoried file is protected exactly when it is not a link (`ProtectedIff`).
- Adding findings can improve a verdict: one trusted remark turns "manual review required" into
  "acceptable" (`TrustedRemarkClearsManualReview`), and one doubtful finding turns a high risk
  resting on 33 doubtful remarks into manual review (`DoubtfulFindingReleasesHighRisk`). The exact
  conditions are `CategoryImprovesIff`, and `BlockingReleasedIff` for the verdicts that hold up
  finalization.

## What is taken as a parameter

The lower-casing function, the report sanitiser, password verification and key derivation, the
file hash, the path classifier, the test for sensitive names, the content scanners and the
readings they get, the clock (a nondecreasing number of microseconds), drawn salts, new row ids
and the contents of the directory tree. Where a result needs it, the sanitiser is taken to leave
usernames, role values, timestamps and finding ids alone, and lower-casing to leave the empty text
alone; stored rows to have distinct ids; file names to hold no `/`, and for the integrity hash no line
feed either; digests to be 64 characters without colon or line feed, and no two of the inputs of the
two hashes compared to collide (`AssumptionsCanBeMet` exhibits a digest, a tree and a file for which
all of this holds).

## Model

| member | source | states |
|---|---|---|
| AccountServices.AuthService.Login | auth/auth_service.py:123-168 | A sign-in leaves exactly the rows, events and outcome of `LoginBlock`: unknown, locked and inactive accounts fail without touching the counter, the fifth failure locks for 15 minutes, and success clears counter and lock; it succeeds exactly with a password that verifies, for an account that is neither locked nor inactive |
| AccountServices.AuthService.Logout | auth/auth_service.py:170-172 | Signing out only appends its event |
| AccountServices.AuthService.ValidateSession | auth/auth_service.py:180-207 | Validation refuses idle, vanished, inactive and out-of-version sessions with the right event, and refreshes role and flags otherwise |
| AccountServices.AuthService.ChangeOwnPassword | auth/auth_service.py:209-235 | A password change validates first, then checks old, new and policy in that order, raises the version and hands out a principal of the new version |
| AccountServices.Authorizer.Require | auth/authorizer.py:36-58 | A guard passes only a validated session with no pending password change and the right role, and logs every denial |
| AccountServices.UserAdminService.CreateUser | auth/user_admin_service.py:74-93 | Creating a user is a guarded call of the creation block under the validated caller's name |
| AccountServices.UserAdminService.BootstrapUser | auth/user_admin_service.py:159-174 | Only "system:" actors create accounts from the command line |
| AccountServices.UserAdminService.Create | auth/user_admin_service.py:180-206 | Name, display name, uniqueness and password are checked in that order, and the new row starts at version 1 |
| AccountServices.UserAdminService.ChangeRole | auth/user_admin_service.py:95-114 | A role change is guarded, refuses the caller's own and the last active administrator's account, is silent when nothing changes, and otherwise raises the version |
| AccountServices.UserAdminService.SetActive | auth/user_admin_service.py:116-137 | Deactivating refuses the last active administrator; activating also clears counter and lock; both raise the version |
| AccountServices.UserAdminService.ResetPassword | auth/user_admin_service.py:139-157 | A reset forces a change at next sign-in, clears counter and lock and raises the version |
| AccountServices.SecuredAssessmentService.ReviewFinding | auth/secured_services.py:117-119 | A review runs only after authorisation and is recorded under the authenticated caller's name |
| AccountServices.SecuredAssessmentService.OverrideScore | auth/secured_services.py:121-141 | An override runs only after authorisation and is recorded under the authenticated caller's name |
| Store.Database.Record | storage/db/repositories.py:474-486 | The log is written only by appending one event |
| Permissions.DutiesAreSeparate | auth/permissions.py:30-63 | Managing users belongs to administrators alone, reviewing and overriding to managers alone |
| Permissions.RoleMatrix | auth/permissions.py:30-63 | The whole role matrix, permission by permission |
| Accounts.UsernameIsNotSystemActor | auth/user_admin_service.py:37 | No name an account can have starts with "system:" |
| AccountOutcomes.UsernameShape | auth/user_admin_service.py:37 | Usernames are one letter or digit and two to sixty-three letters, digits, dots, underscores or hyphens |
| AccountOutcomes.SpacesDoNotMatter | auth/user_repository.py:17 | Spaces around a typed username do not matter |
| AccountOutcomes.LoginOutcome | auth/auth_service.py:123-168 | A sign-in succeeds exactly when the account exists, is not locked, is active and the password verifies against its hash; success clears counter and lock, a refusal touches them only when the password alone was wrong, the log says why, and nothing else changes |
| AccountOutcomes.ValidateOutcome | auth/auth_service.py:180-207 | A session is refreshed from its row exactly when it is in time and of an active account's current version; otherwise the right end is reported and logged |
| AccountOutcomes.RequireOutcome | auth/authorizer.py:36-58 | The guard lets through exactly valid sessions with no pending change and a permitted role, and logs which of the two was missing |
| AccountOutcomes.PolicyIff | auth/auth_service.py:73-81 | A password has no problem exactly when its length is in range, it does not hold the username and four different characters occur in it; otherwise the first broken rule is named |
| AccountOutcomes.ChangePasswordOutcome | auth/auth_service.py:209-222 | A password changes exactly when the old one verifies, the new one does not, and it meets the policy; the row then holds the new hash, no pending change and the next version, and nothing else changes |
| AccountOutcomes.CreateOutcome | auth/user_admin_service.py:180-206 | An account is created exactly under a good, unused name with a shown name and a good password, and its row is as given |
| AccountOutcomes.ChangeRoleOutcome | auth/user_admin_service.py:95-114 | A role changes except on a missing or own account or the only active administrator's; the refusal says which; nothing else of the row changes but the version |
| AccountOutcomes.SetActiveOutcome | auth/user_admin_service.py:116-137 | The same for the active flag; activating also clears counter and lock |
| AccountOutcomes.ResetPasswordOutcome | auth/user_admin_service.py:139-157 | A reset goes through exactly on another, existing account with a good password; the row then holds that hash, a pending change, no lock and the next version |
| AccountLog.VersionCountsBumps | auth/user_admin_service.py:95-157 | In every legal log a user's replayed version is one more than the events that end sessions |
| AccountLog.LockoutBound | auth/auth_service.py:131-158 | In every legal log a window of k lock-out periods without a clearing event holds at most 5·k real failures of an account |
| AccountRuns.StepSound | auth/auth_service.py:123-222 | Every block keeps the invariant: valid names, counter below 5, and an audit log that is legal and replays to the users table |
| AccountRuns.AuditLogRebuildsAccounts | storage/db/repositories.py:474-486 | In every run, folding the audit log from nothing gives every role, active flag, failure counter, lock time and version exactly |
| AccountRuns.GuessesAreBounded | auth/auth_service.py:85-86 | In every run at most 5·k guesses are checked and fail in any k lock-out periods with no sign-in, reset or reactivation, and no stored counter reaches 5 |
| SignInRuns.SignInsAreVerified | auth/auth_service.py:123-158 | A sign-in step of a run hands out a principal exactly when its password verified against the row of that step, of an open account |
| SignInRuns.FailuresAreWrongGuesses | auth/auth_service.py:139-152 | Every failed password check in the log was made by a step of that time whose password did not verify against that account's row |
| SignInRuns.GuessingIsBounded | auth/auth_service.py:85-86 | In any k lock-out periods with no sign-in, reset or reactivation at most 5·k steps try a password that does not verify, and these are exactly the failures logged |
| SignInRuns.EveryHashHasItsStep | auth/user_admin_service.py:139-206 | Every account holds the hash and the pending-change flag that the last step to give it a password offered, and that password met the policy |
| SignInRuns.LastPasswordOpens | auth/auth_service.py:123-158 | After any run an open account is signed in to exactly with a password that verifies against the hash of the last step that gave it one; if hashes tell passwords apart, with that step's password only |
| AccountSafety.StepKeepsAdmin | auth/user_admin_service.py:217-223 | No block, in any state and under any authorisation, removes the last active administrator |
| AccountSafety.AnAdministratorAlwaysRemains | auth/user_admin_service.py:95-137 | Once an active administrator exists every later state has one, with any interleaving of guards and changes |
| AccountSafety.StaleSessionsStayDead | auth/auth_service.py:180-207 | A principal's version never exceeds its row's; equality holds exactly when nothing touched the account since, and only then can it validate |
| AccountSafety.SessionValidIff | auth/auth_service.py:180-222 | In every run, interleaved or not, a session validates if and only if it is not idle too long, its account is untouched since the issue, and the account was active when the issuing step was done, as it is after every step but the second half of a password change |
| AccountSafety.EveryIssueHasItsStep | auth/auth_service.py:123-235 | Every principal in circulation was handed out by a step of the run, which `SessionValidIff` refers to |
| AccountSafety.ShutStaysShut | auth/auth_service.py:180-207 | A principal that once meets its account inactive is refused in every later state of the run, whatever is done to the account in between |
| AccountSafety.InterleavedChangeActiveIff | auth/auth_service.py:209-222 | The principal a password change issues is current for an active account exactly when the account is still active at its second block |
| AccountSafety.DeactivationBetweenBlocksIsMissed | auth/auth_service.py:209-222 | A deactivation between the two blocks is missed, but the principal handed out validates neither then nor after reactivation |
| AccountSafety.EveryGrantIsEarned | auth/authorizer.py:36-44 | Every open authorisation comes from a guard step of the run that passed for this principal, in a state where its account was active, without a pending change, and allowed |
| AccountSafety.EveryEventIsAttributed | auth/secured_services.py:117-141 | Every event has a step that wrote it; a decision acts under its author's own grant, given by a guard that passed before that step, or is a command-line creation |
| AccountSafety.SeparationOfDuties | auth/permissions.py:30-63 | Whoever a review or override is recorded under passed the guard before the writing step as an active manager; for account administration as an active administrator, or it is a command-line actor, whose name no account has |
| AccountSafety.ReviewersAreManagers | auth/secured_services.py:117-119 | Every finding that left pending records a review step of the run whose author had passed the guard before it as an active manager |
| Governance.GovernanceRepository.ReviewFinding | storage/db/repositories.py:513-535 | An accepted review updates exactly one row and appends one event; a refused one or a missing row changes nothing |
| Governance.GovernanceRepository.OverrideScore | storage/db/repositories.py:537-577 | An override appends a row with the original's evidence, the decision's category and the given score or else the original's, and one event; nothing else changes |
| Governance.ReviewOutcome | governance/approval_workflow.py:39-54 | A review takes place exactly when it names a reviewer, an outcome and, for an override, a reason, and a stored finding; that row alone gets the decision's status, reviewer and time, and the log names them |
| Governance.OverrideOutcome | storage/db/repositories.py:537-577 | An override takes place exactly when it names a reviewer, a reason and a stored score; it appends a row with the decision's category and slot, the given score or else the original's, and the original's evidence, and the log names both rows |
| OverrideEffect.OverrideTakesEffect | storage/db/repositories.py:537-577 | In every run, until another row is written for its scan and domain, an accepted override is the current score in every query order, with the chosen category; the domain blocks finalization exactly when that category is high or critical risk |
| DecisionLog.AuditLogRebuildsReviews | storage/db/repositories.py:513-535 | After every run each finding has the status, reviewer and time of its last logged review, and is pending without one |
| DecisionLog.AuditLogRebuildsOverrides | storage/db/repositories.py:537-577 | After every run the override events of the log are, in order and with their times, exactly the override rows of the table |
| Governance.LatestScoresByDomain | storage/db/repositories.py:49-72 | The loop computes the newest-row rule, last of equal times winning |
| Governance.EffectiveScores | ui/services/comparison_service.py:113-123 | The loop computes the rule that drops superseded rows, first of equal times winning |
| ScoreLog.OverrideBlockIsStep | storage/db/repositories.py:537-577 | The repository's override is the override step of the score machine |
| ScoreLog.OverrideLineage | storage/db/repositories.py:600-613 | In every run override links strictly descend to a row of a scoring batch whose evidence every row passed still carries |
| ScoreLog.HistoryIsNeverRewritten | storage/db/repositories.py:600-613 | Every earlier score log is an unchanged prefix of the later one |
| ScoreLog.RulesAgreeIff | ui/services/comparison_service.py:113-123 | When times differ, the two rules agree exactly when no domain's newest row has been overridden |
| ScoreLog.RulesIgnoreQueryOrder | storage/db/repositories.py:64-72 | With distinct times neither rule depends on the order of the rows |
| ScoreLog.OverrideKeepsAgreementIff | storage/db/repositories.py:537-577 | An accepted override keeps the agreement exactly when it does not take a domain's newest row into another domain of the same scan |
| ScoreLog.EveryRunKeepsAgreement | storage/db/repositories.py:537-577 | Every run whose overrides stay in their scan and domain keeps newest rows un-overridden |
| ScoreLog.CurrentScoreRulesAgree | ui/services/comparison_service.py:113-123 | For every such run, scan and query order both rules return the same, newest row for every domain |
| ScoreLog.MisfiledOverrideSplitsTheRules | storage/db/repositories.py:537-556 | A concrete two-step run after which the two rules differ |
| ScoreTies.AgreeInEveryOrderIff | ui/services/comparison_service.py:113-123 | Whatever the times, the two rules agree in every query order exactly when every domain has one strictly newest row and no row overrides it |
| ScoreTies.LooseRunAgreesIff | storage/db/repositories.py:64-72 | The same condition is exact for every scan of every run on a clock that may stall |
| ScoreTies.EqualTimesSplitTheRules | storage/db/repositories.py:70-71 | A concrete two-step run, a score and its override at one time, and a query order in which the two rules differ |
| Finalization.CheckFinalizationPolicy | governance/approval_workflow.py:110-146 | The loop returns exactly the specified blockers, and allows finalization exactly when there are none |
| Finalization.CheckFinalization | storage/db/repositories.py:579-598 | What blocks a scan is exactly a pending finding in a domain whose current score is high or critical risk |
| Finalization.BlockersExact | governance/approval_workflow.py:126-146 | Blockers are sorted and name each high- or critical-risk domain with a pending finding exactly once, with the exact count |
| Finalization.CanFinalizeIff | governance/approval_workflow.py:114-125 | Finalizable means that no high- or critical-risk domain has a pending finding |
| Finalization.NothingBlocksIff | governance/approval_workflow.py:110-146 | Finding by finding: nothing blocks exactly when no finding that names a domain of blocking current score is pending |
| Signoff.NotPendingIffReviewed | auth/secured_services.py:117-119 | In every run, exactly the findings that are not pending were reviewed in it under the name of someone who had passed the guard as an active manager |
| Signoff.FinalizableIffReviewed | storage/db/repositories.py:579-598 | In every run a scan can be finalized if and only if each of its findings that names a domain of blocking current score was reviewed by an authorised manager |
| Finalization.ReviewBlockIsStep | storage/db/repositories.py:513-535 | The repository's review is the review step of this machine |
| Finalization.ReviewShrinksPending | governance/approval_workflow.py:39-52 | No review returns a finding to pending, and the pending count drops by one exactly for an accepted review of a pending finding |
| Finalization.ReviewsNeverBlock | governance/approval_workflow.py:110-146 | No run of reviews adds a blocked domain |
| Finalization.ReviewingBlockedDomainsFinalizes | governance/approval_workflow.py:114-125 | Reviewing the pending findings of blocked domains, in any order and among other reviews, reaches a finalizable state |
| Finalization.BlockingReleasedIff | governance/approval_workflow.py:107-107 | More findings release a domain from its blocking verdict exactly when doubtful remarks alone made it high-risk and the new findings are doubtful too, one medium or worse |
| Comparison.SameKeyIff | ui/services/comparison_service.py:97-98 | Two findings match exactly when rule, path and evidence word sequence are equal |
| Comparison.GroupByKey | ui/services/comparison_service.py:146-151 | The loop groups findings by key in line order and holds no key that does not occur |
| Comparison.SortedKeys | ui/services/comparison_service.py:156-156 | The loop runs over the union of keys in sorted order |
| Comparison.CompareFindings | ui/services/comparison_service.py:141-162 | The loops produce new, resolved and unchanged lists of the specification, in order |
| Comparison.CompareSplitsEveryGroup | ui/services/comparison_service.py:156-161 | Each key's findings are split at the number matched and go to the three lists whole |
| Comparison.DiffCounts | ui/services/comparison_service.py:156-161 | Per key the three lists hold the minimum of the two counts and the two differences |
| Comparison.CompareRefinesMultisets | ui/services/comparison_service.py:141-162 | Unchanged is the key-wise intersection, new and resolved the differences; unchanged and new rearrange the current findings, unchanged and resolved have the baseline's keys |
| Comparison.EarliestLinesMatch | ui/services/comparison_service.py:148-161 | The matched findings of a key are those on its earliest lines |
| Comparison.SwappingSwaps | ui/services/comparison_service.py:141-162 | Swapping the two scans swaps new and resolved list for list |
| Comparison.NewFindingsCompose | ui/services/comparison_service.py:141-162 | Over three scans the new findings from first to third number at most the sum of the two steps |
| Comparison.SelectionOrder | ui/services/comparison_service.py:179-200 | The two selection orders are accepted or refused alike and give the same comparison, up to the reordered flag, exactly when both creation times are known and differ; otherwise new and resolved are exchanged |
| ComparisonReport.ComparedIff | ui/services/comparison_service.py:126-138 | A comparison is made exactly of two different stored, finished assessments of one source; otherwise the first thing wrong is reported |
| ComparisonReport.EarlierIsBaseline | ui/services/comparison_service.py:179-200 | The earlier assessment is the baseline; the order is turned, and marked so, exactly when the selected baseline was created strictly later; without both times it stands as selected |
| ComparisonReport.FindingsStandOnTheirSides | ui/services/comparison_service.py:188-200 | New findings are the later assessment's, resolved ones the earlier one's, in the numbers of each key by which one has more than the other, unchanged are the rest of the later; every entry shows its stored finding |
| ComparisonReport.ListsGoByRule | ui/services/comparison_service.py:155-161 | Each of the three lists goes by rule, then path, then evidence |
| ComparisonReport.ScoreChangesExact | ui/services/comparison_service.py:165-176 | One change for each domain with a current score on either side, in sorted order, with each side's category and score |
| ComparisonReport.ScoresStandOnTheirSides | ui/services/comparison_service.py:188-200 | In a report the baseline side of each change is the earlier assessment's current row, the current side the later one's |
| Discovery.HandleFile | scanners/file_discovery.py:157-229 | One file leaves through exactly one of the eight exits, in the code's order of checks: inventoried as it is when nothing speaks against it, else skipped for its reason |
| Discovery.DiscoverFiles | scanners/file_discovery.py:129-237 | The walk terminates on every tree and handles the specified files in the specified order |
| WalkReach.WalksReach | scanners/file_discovery.py:139-163 | Discovery comes to a file exactly when names lead to it through directories that are neither ignored nor links, its own name is not ignored and its directory is within the depth limit; the integrity hash covers it under the first condition alone |
| WalkReach.FilesComeByName | scanners/file_discovery.py:157-157 | The files of one directory are handled in the order of their names |
| FileKinds.SuffixIff | scanners/file_discovery.py:123-126 | The extension is what follows the last dot of a name with something on both sides of it; other names have none |
| FileKinds.SupportedIff | scanners/file_discovery.py:123-126 | A name is scanned exactly when it is one of four, or splits into a base and an extension that is listed in lower case |
| Discovery.EveryFileIsHandledRight | scanners/file_discovery.py:157-229 | Each file found is inventoried, with its own path, name, extension, size and hash, exactly when nothing speaks against it, and is otherwise skipped for the stated reason |
| FileKinds.InventoryInBudget | scanners/file_discovery.py:157-229 | When no budget cuts the walk, the inventory is exactly the wanted files in walk order |
| FileKinds.InventoriedIff | scanners/file_discovery.py:157-229 | Within the limits a walked file is in the inventory exactly when it is regular or followed, small enough, supported and readable |
| FileKinds.PythonFileIsInventoried | scanners/file_discovery.py:209-229 | A concrete tree whose one Python file is inventoried with its extension |
| FileKinds.DotEnvIsNotScanned | scanners/file_discovery.py:75-75 | The failing case: the listed extension ".env" does not cover a file of that name |
| Discovery.DiscoveryAccountsForEveryFile | scanners/file_discovery.py:139-237 | Found is inventory plus skipped and equals the visible files of the tree; bytes sum up and stay in budget, as does the count; truncated holds exactly when a file was skipped for a budget |
| Discovery.EveryFileEndsOnce | scanners/file_discovery.py:157-229 | Every file found ends in exactly one of the two lists under its own path |
| Discovery.InventoryComesFromFiles | scanners/file_discovery.py:172-229 | Every inventory item is a readable, supported, size-limited file with its own size and hash |
| Discovery.TruncatedIff | scanners/file_discovery.py:157-213 | The flag is set exactly when there are more files than the count limit, or some file within it does not fit beside all wanted files before it |
| Discovery.TooManyFilesIff | scanners/file_discovery.py:161-167 | For a tree, over the count limit means more visible files than the limit |
| Discovery.TruncatedTellsIff | scanners/file_discovery.py:114-120 | For any tree, truncated reports every file cut by budget or depth exactly when the tree is over a budget or hides no file below the depth limit, both read off the tree; depth cuts one exactly when fewer files are found than the tree lists |
| Discovery.DepthLimitIsSilent | scanners/file_discovery.py:150-152 | The failing case: files only below the depth limit, an empty result, not marked truncated |
| Integrity.ComputeSourceIntegrityHash | scanners/file_discovery.py:248-276 | The loop computes the hash of the sorted manifest of every walked file |
| Integrity.LineSays | scanners/file_discovery.py:263-274 | The manifest line of a file is its path and its hash, or that it is a link, or that it is unreadable |
| Integrity.WalkOrderIsIrrelevant | scanners/file_discovery.py:275-276 | The hash does not depend on the order in which the walk meets the files |
| Integrity.AggregateIffSameLines | scanners/file_discovery.py:248-276 | When the inputs of the two hashes do not collide, the hashes are equal exactly when the manifests hold the same path-and-content lines with multiplicity |
| Integrity.EqualHashEqualContents | scanners/file_discovery.py:248-276 | Under equal hashes a path holds a content before exactly when it holds it after |
| Integrity.DiscoveredFilesAreHashed | scanners/file_discovery.py:263-267 | Every file discovery handles is covered by the hash |
| Integrity.ItemHasFile | scanners/file_discovery.py:172-229 | Every inventoried item records a file the hash covers: a regular one, or with links followed one that stays under the root |
| Integrity.UnfailedScanSawTheSameBytes | scanners/scan_orchestrator.py:102-105 | Under equal hashes, links followed or not, every inventoried file that is not a link is afterwards a regular file at the same path with the bytes its hash was taken of |
| IntegrityLimits.ProtectedIff | scanners/file_discovery.py:269-272 | For every tree and setting, an inventoried file's bytes are the same in every tree of equal hash if and only if the file is not a link |
| IntegrityLimits.FollowedLinksAreNotCovered | scanners/file_discovery.py:269-271 | A concrete tree: one followed link, two contents, one hash |
| IntegrityLimits.AssumptionsCanBeMet | scanners/file_discovery.py:240-245 | A digest, a tree and an inventoried file that meet all the assumptions of the guarantee |
| Integrity.InventoryPathsDistinct | scanners/file_discovery.py:157-229 | An inventory lists no path twice and none that was also skipped |
| DomainMapper.MapFileToDomains | scanners/domain_mapper.py:68-113 | The two loops return the specified mapping list, with evidence and confidence of the first signal for each domain |
| DomainMapper.MappedExactly | scanners/domain_mapper.py:68-113 | A file maps to a domain at most once, exactly when a set flag or a path word stands for it, and the flag's evidence wins |
| DomainMapper.FirstSignalCounts | scanners/domain_mapper.py:68-113 | The evidence of a mapping is that of the first signal for its domain: the table's confidence and the name of the first such flag, or low confidence and the first such word |
| DomainMapper.EveryYamlPathIsFraudControls | scanners/domain_mapper.py:54-57 | Every path that contains "yaml" maps to fraud controls |
| ScanPipeline.RunOneScanner | scanners/scan_orchestrator.py:216-274 | One scanner appends exactly its findings with the files' domains, and its execution counts scanned, failed and produced exactly |
| ScanPipeline.ScanSkippedFiles | scanners/rules/unsupported_file_scanner.py:36-72 | Exactly the skipped files with sensitive names are reported, with the severity of their reason |
| ScanPipeline.Deduplicate | scanners/scan_orchestrator.py:277-289 | The loop keeps the specified findings |
| ScanPipeline.CountBy | scanners/scan_orchestrator.py:301-306 | The loop tallies severities |
| ScanPipeline.CountByDomain | scanners/scan_orchestrator.py:309-314 | The loops tally every domain every finding names |
| ScanPipeline.RunScan | scanners/scan_orchestrator.py:88-213 | A scan returns the specified result: the stages in order, status, warnings and counts |
| ScanGuarantees.DedupKeepsFirsts | scanners/scan_orchestrator.py:277-289 | What deduplication keeps is exactly the first finding of every key |
| DedupLimits.OnlyCopiesDroppedIff | scanners/scan_orchestrator.py:277-289 | Deduplication keeps every finding, and leaves exactly the findings without repetition in order, if and only if no two different findings share rule, file and lines |
| DedupLimits.ScanKeepsEveryFindingIff | scanners/scan_orchestrator.py:152-152 | A scan's result holds every finding made in it, each once, under exactly that condition on the findings made |
| DedupLimits.SameLineFindingIsDropped | scanners/scan_orchestrator.py:284-287 | A finding that differs from an earlier one only in its evidence is dropped, although it is no exact duplicate |
| DedupLimits.NothingDroppedIff | scanners/scan_orchestrator.py:277-289 | Deduplication drops nothing, not even a copy, exactly when no two findings share rule, file and lines |
| DedupLimits.DocumentedKeyDropsTheSameIff | scanners/scan_orchestrator.py:278-284 | The code's key and the documented key, which has the scanner in it, drop the same findings exactly when no two scanners share a key |
| DedupLimits.OtherScannersFindingIsDropped | scanners/scan_orchestrator.py:278-284 | A concrete pair from two scanners: the code drops the second, the documented key keeps both |
| DedupLimits.OwnedRulesMakeTheKeyRight | scanners/scan_orchestrator.py:277-289 | When every rule belongs to one scanner, a scan's result is what the documented key leaves |
| ScanGuarantees.TallyCounts | scanners/scan_orchestrator.py:301-314 | A tally holds the multiplicity of every key and no other key |
| ScanGuarantees.NoReportIsLost | scanners/scan_orchestrator.py:250-263 | Whatever a scanner reports, a finding with the same rule, file and lines is in the result; the report itself is, exactly when it is the first with its key among all findings made |
| ScanGuarantees.NoSensitiveSkipIsLost | scanners/scan_orchestrator.py:129-140 | Every skipped file with a sensitive name is in the result |
| ScanGuarantees.FindingsNameMappedDomains | scanners/scan_orchestrator.py:251-262 | A finding names no domain, or exactly the domains of the inventoried file at its path, each once |
| ScanGuarantees.EveryFileIsAccountedFor | scanners/scan_orchestrator.py:230-250 | For each scanner, scanned, failed and binary files add up to the inventory |
| ScanGuarantees.StatusIff | scanners/scan_orchestrator.py:159-173 | FAILED means exactly a changed source; COMPLETED means exactly an unchanged one, no budget skip, and no scanner failing on any file |
| ScanReport.FindingsAreReports | scanners/scan_orchestrator.py:250-263 | Every finding of a result is a scanner's report of an inventoried file it read, under that scanner's name and version, or reports a skipped file of sensitive name with the severity of its reason |
| ScanReport.ExecutionsAreRight | scanners/scan_orchestrator.py:216-274 | Each scanner's entry, in order, has its name and version and counts the files it scanned, those it failed on and its findings; the last entry does so for skipped files |
| ScanReport.SummaryIsRight | scanners/scan_orchestrator.py:175-213 | The summary's counts are those of the result's lists and of the tree, its hashes those before and after, and its severities counted finding by finding |
| ScanReport.WarningsAreRight | scanners/scan_orchestrator.py:119-173 | There is a warning for exactly the scanners that failed on some file, with the number of files, and one exactly when the source changed |
| ScanGuarantees.UnfailedScanKeptItsFiles | scanners/scan_orchestrator.py:154-173 | A scan not marked FAILED saw the same bytes before and after of every inventoried file that is not a link |
| ScanStore.ScanRepository.Save | storage/db/repositories.py:94-215 | Saving appends the file, mapping and finding rows of the result, mappings under the id of their file's row |
| ScanStore.RowsHoldTheScan | storage/db/repositories.py:94-215 | Each finding row holds its finding column by column, still pending, and each file row its path and its hash or reason |
| ScanStore.MappingRowsExact | storage/db/repositories.py:94-215 | The mapping rows hold exactly the mappings of the files, each under its file's id |
| ScanStore.DomainCoverage | storage/db/repositories.py:75-87 | Coverage holds every mapped domain and counts its distinct files |
| ScanStore.ScoringRepository.ScoreScan | storage/db/repositories.py:246-279 | Scoring appends one row for each of the sixteen domains, from this scan's rows alone, and each row says what it should of the findings and files of its domain |
| ScanStore.StoredScoreSays | storage/db/repositories.py:246-279 | Every row scoring appends has the columns of a score on exactly this scan's stored findings naming the domain and this scan's files mapped to it |
| ScoreMeaning.TotalsByCounting | scoring/engine.py:128-133 | The two totals are the sums of the numbers of findings of each severity and confidence times their deductions and weights |
| ScoreMeaning.EveryScoreSays | scoring/engine.py:100-164 | In every result raw is 100 less the deductions, weighted the same with confidence weights, both at least 0; the category is the one read off the stored weighted score unless a human or a critical finding decides; the confidence is the weakest; files and findings are counted |
| ScoreMeaning.ThreeHighFindings | scoring/engine.py:128-158 | A concrete domain: raw 25, weighted 47.5, remediation required |
| ScoreCoverage.CoverageIsExact | storage/db/repositories.py:75-87 | Coverage counts exactly the inventoried files that map to the domain |
| ScoreCoverage.NamingFindingsMatchSummary | storage/db/repositories.py:246-261 | The findings scoring sees for a domain number what the scan's summary says |
| ScoreCoverage.ScoresMatchTheScan | scoring/engine.py:74-126 | From file system to score: files evaluated and findings count of all sixteen scores are exact, a domain is insufficient evidence exactly when no file maps to it, and then no finding is discarded |
| ScoreCoverage.ScoredUnreadIff | scoring/engine.py:100-126 | A domain is scored without any of its files having been read exactly when files map to it and none could be read, and then it scores a clean 100 |
| ScoreCoverage.ScoredUnreadSilentlyIff | scanners/scan_orchestrator.py:232-235 | A domain is scored unread by a COMPLETED scan exactly when files map to it, each is binary for every scanner, the source stayed the same, no budget cut a file and no scanner failed |
| ScoreCoverage.BinaryFileScoresClean | scanners/scan_orchestrator.py:232-235 | Concrete completed scans that read nothing and score payments a clean 100 |
| ScoreCoverage.ScoreRowsAreOneBatch | storage/db/repositories.py:263-279 | What scoring inserts is a scoring batch of the score machine: one row a domain, fresh ids, later times |
| Scoring.ScoresAreOrdered | scoring/engine.py:128-133 | 0 ≤ raw ≤ weighted ≤ 100 |
| Scoring.HighRiskNeedsThree | scoring/engine.py:144-147 | HIGH_RISK needs at least three findings |
| Scoring.ScoringIgnoresOrder | scoring/engine.py:94-164 | A domain's whole result depends only on the multiset of its findings |
| Scoring.AddingCostsAtMostItself | scoring/engine.py:128-133 | One more finding lowers the weighted score by at most its own weighted deduction and never raises it |
| Scoring.MoreFindingsNeverImprove | scoring/engine.py:135-153 | Once a finding is trusted at medium or high confidence, more findings never improve the category |
| Scoring.CategoryImprovesIff | scoring/engine.py:135-153 | From any findings, and wherever manual review is ranked, more findings improve the category exactly when they end a manual review on a better score or start one from a worse score |
| Scoring.DoubtfulFindingReleasesHighRisk | scoring/engine.py:135-147 | Concretely, a doubtful finding turns the high risk of 33 doubtful remarks into manual review |
| Scoring.ManualReviewEndsWithTrust | scoring/engine.py:139-143 | A manual-review verdict survives further findings exactly while all of them are low-confidence |
| Scoring.TrustedRemarkClearsManualReview | scoring/engine.py:135-153 | A concrete remark that turns manual review into acceptable |
| Scoring.NotEvaluatedIsNeverClean | scoring/engine.py:74-110 | A domain is insufficient evidence, unscored and incomplete exactly when it was not evaluated |
| PasswordFormat.Base64RoundTrip | auth/password_hasher.py:22-23 | Every byte string survives base64, and its text holds no field separator |
| Text.IntegersReadBack | auth/password_hasher.py:41-52 | Every printed number reads back |
| PasswordFormat.ParsePrint | auth/password_hasher.py:38-52 | A printed hash splits into exactly six fields and gives back n, r, p, salt and digest |
| PasswordFormat.TextLaidOut | auth/password_hasher.py:38-41 | The text is the scheme and the five values in their order, with a dollar sign before each |
| PasswordFormat.KnownVectors | auth/password_hasher.py:22-23 | Test vectors of section 10 of RFC 4648 |
| PasswordFormat.PrintIsInjective | auth/password_hasher.py:38-41 | Different stored passwords have different texts |
| PasswordFormat.VerifyAcceptsSameDigest | auth/password_hasher.py:38-55 | Whatever hasher verifies, a password is accepted exactly when it derives the digest the original derived |
| PasswordFormat.WrongFieldCountIsRefused | auth/password_hasher.py:46-54 | A text without exactly six fields is refused |
| PasswordFormat.PrintsBackIff | auth/password_hasher.py:38-52 | Of all texts that are read, printing gives back exactly those with plain decimals (no sign but a minus, no leading or negative zero) and plain base64 (no bits left over, no surplus padding) |
| Text.PlainIntIff | auth/password_hasher.py:52-52 | A number that is read prints back exactly when it is an optional minus and digits without leading or negative zero |
| PasswordFormat.PlainBase64Iff | auth/password_hasher.py:47-48 | Base64 that is read prints back exactly when no bits are left over and no padding follows complete groups |
| PasswordFormat.SpacedNumberIsAccepted | auth/password_hasher.py:46-52 | Two different texts that are read as the same stored password |
| FindingsCsv.ToFindingsCsv | reporting/assessment_report_exporter.py:151-182 | The loop writes the header and one line for each finding |
| FindingsCsv.TableReadsBackIff | reporting/assessment_report_exporter.py:215-217 | A table reads back by section 2 of RFC 4180 exactly when each column is quoted or free of special characters |
| FindingsCsv.ExportReadsBackIff | reporting/assessment_report_exporter.py:151-182 | The export reads back with exact path, joined domains and sanitised evidence exactly when no id and no rule id holds a quote, comma or line break |
| FindingsCsv.ColumnsAreNamed | reporting/assessment_report_exporter.py:151-182 | Every value of an exported finding stands under its own column name |
| FindingsCsv.TextsNameTheirValues | reporting/assessment_report_exporter.py:151-182 | Every severity, confidence and review status is written by its own name |
| Domains.ValuesAreDistinct | core/domains.py:22-37 | The sixteen stored domain values are different |

## Left out

- The database itself: SQL, sessions, rollback, isolation and migrations. A block is atomic and serial; a user row is identified by its username, which is unique and never changes.
- AccountRuns.AuditLogRebuildsAccounts: rebuilds role, active flag, counter, lock time and version; password hash, display name, pending-change flag and last sign-in are not in the log.
- ScoreLog.RulesAgreeIff: takes the times of a domain's rows to differ; `ScoreTies.AgreeInEveryOrderIff` does not.
- The denial event of `Authorizer.require` is written in a block of its own; the model writes it in the guard's step.
- `AuthService.Login` reads the clock inside its step, and the dummy verification that equalises timing has no effect in the model.
- Audit events of scans, reports, exports and agents, and the texts and payload details (summaries, reasons) of the modelled ones.
- Unicode: lower-casing is a parameter, and a number field of a stored hash with a non-ASCII character is refused, while `int` also reads other scripts' digits; its limit of 4300 digits is not modelled either.
- `PasswordFormat.Decode64` follows the padding rules of Python 3.11's validating decoder: no leading padding, an incomplete group filled exactly, surplus after complete groups ignored. Other versions differ on surplus padding, which no printed hash has.
- Floating-point rounding of scores: numbers are exact reals. The rounded `delta` of a score change is not modelled.
- The tree is taken to be the same at the first hash and at discovery; the last hash sees an arbitrary later tree. A symbolic-link loop whose resolution raises `RuntimeError` is not modelled.
- Scanner internals (regular expressions, masking), the path classifier, and finding fields scoring does not use (type, category, description, impact, metadata); execution error summaries.
- `map_file_to_domains` is modelled from the classification flags on; the keyword table that sets the flags is a parameter.
- The 2 MB read limit and decoding of the content reader: a reading is a parameter.
- Out of scope: the read-only views of the secured services, the agent services, evidence and recommendation builders, control evaluation, traceability, retention, zip ingestion, the JSON, Markdown and score exports, and the user interface. None of them changes accounts, findings or scores.
- The findings export writes finding ids and rule ids unquoted; `FindingsCsv.ExportReadsBackIff` names what they must not hold, and the ids the platform makes hold none of it.
