# PatchMon in Dafny

A model of the parts of PatchMon that decide something: the state machines, parsers and folds of the Node
backend and of the Go agent. Each module follows one source component. Code that changes state is a class or a
method with a loop, proved against a specification function; what the code is for is proved about that function.

`dafny verify dfyconfig.toml` checks everything. Automatic induction is switched off for every lemma: each induction is
written out.

| module | component |
|---|---|
| `Lockout` | login and second-factor lockout: Redis counters and locks that expire |
| `Admins` | the guards that keep the last administrator on creating, updating and deleting users |
| `Kernel` | kernel version comparison and the choice of the latest installed kernel |
| `Winget`, `WingetPrinter`, `WingetMerge` | the fixed-width table winget prints, and its merge with the registry |
| `Scheduler` | the patch-window scheduler |
| `Dashboard` | bringing dashboard cards in line with role permissions at start-up |
| `Quota` | the daily quota of auto-enrolment tokens |
| `Ingest` | storing per-rule compliance results: deduplication, reconciliation, score |
| `ComplianceDashboard`, `ComplianceTotals` | the aggregates of the compliance dashboard |
| `RuleListing`, `Paging` | sorting and paging of rules and results |
| `Cidr`, `IpAccess` | IPv4 and CIDR matching of allow lists |
| `Deb822`, `Expansion`, `Folding`, `AptLine`, `RepoFile` | apt and dnf repository files |
| `LogBuffer`, `Sanitize` | the log buffer and log escaping of the agent |
| `Collector` | concurrent collection from integrations |
| `Options`, `Text`, `Decimal`, `Sorting`, `Repositories` | shared vocabulary: Go and ECMAScript string functions, decimal numbers, library sorts, URL tests |

## What the proofs found

Where a promise does not hold of the code, the code is modelled as it is, a lemma gives an input that breaks the
promise, and another says exactly when it holds.

- An accepted update that moves the only administrator to an ordinary role leaves none: the guards look at
  `is_active` only (`Admins.RoleChangeLosesAdministratorIff`, `Admins.RoleChangeCanLoseLastSuperadmin`).
- Kernel comparison is transitive exactly when no word lies between two numbers in string order
  (`Kernel.TransitiveIff`); 9 < 10 < 1a < 9 is a cycle (`Kernel.ComparisonCanCycle`). Elsewhere some list of
  versions has no latest one at all (`Kernel.LatestExistsIff`). A version that starts with a word outranks every
  number (`Kernel.WordOutranksNumbers`).
- An upgrading user who has lost the right to a wide card still at the migration default is never synced: the
  transaction updates a row it has deleted and rolls back (`Dashboard.UpgradeCanRollBack`; the exact condition is
  in `Dashboard.SyncUser`), and the users behind are not reached (`Dashboard.InitializeDashboardPreferences`).
- A login for a name nobody has is counted like a wrong password, so no run shows which names exist
  (`Lockout.UnknownNamesNeverShow`). A login lockout counts what was typed. A user can be named by user name and by e-mail address, so twice the bound of
  failed checks fits into a window (`Lockout.UserBound`, attained in `Lockout.UserBoundIsAttained`).
- A request that read the token before midnight resets the quota of the new day again, so the counter can forget
  enrolments (`Quota.StaleResetForgets`); `Quota.CounterHoldsCountedIff` says exactly when, and
  `Quota.HostsCountedBounded` bounds the hosts all the same. A host row whose group membership fails is not counted at
  all, so the quota does not bound rows (`Quota.RowsAreUnbounded`, `Quota.CounterHoldsRowsIff`).
- Lowering the limit while a request is served lets the counter end above it (`Quota.LimitInForceCanBeExceeded`, only
  then: `Quota.LimitInForceExceededOnlyIfLowered`), exactly if it falls below the counter with the hosts the request
  has made and has still to try (`Quota.LimitInForceIsExceededIff`, `Quota.LimitInForceIsExceededByWaitingIff`).
- In the bulk endpoint the line that would set `updated_at` of a new host stands inside a comment, and the schema
  requires the column, so as the source stands every host of a bulk request fails before its row.
- Result priorities look at the status as sent, so `failed` followed by `pass` is stored as passed
  (`Ingest.VariantFailureCanBeHidden`, `Ingest.FailedRowIff`).
- A total reported by the agent can take the score out of 0..100 (`Ingest.ReportedTotalCanBreakScore`), and a score of
  zero it sends is stored as null; `Ingest.StoredScoreInRangeIff` says when the stored score is a percentage. Two
  decimals can hide an excess (`Ingest.RoundingHidesExcess`).
- The scan type blamed for a host's status depends on the order of the scans when two types tie
  (`ComplianceDashboard.BlamedKindIsOrderFreeIff`); the two columns of a status miss hosts blamed on a third type
  (`ComplianceDashboard.StatusColumnsCompleteIff`, `ComplianceDashboard.ThirdTypeIsMissing`); `hosts_scanned` counts a host once per profile of the type
  (`ComplianceTotals.ScansCountHostsIff`).
- The rules endpoint clamps offsets at 100000, so later rows are never shown (`Paging.RowCanBeShownIff`) and paging is
  complete exactly up to a length that depends on the limit (`Paging.ClampedPagesCompleteIff`).
- Sorting rules by profile type is consistent exactly when locale comparison holds no two different types level
  between two titles (`RuleListing.ProfileTypeIsPreorderIff`). Each page is fetched anew in no fixed order, so
  pages agree exactly when no two rows tie (`RuleListing.FetchOrderFreeIff`, `RuleListing.LevelRowCanShowTwice`).
- Continuation lines of deb822 files are read as fields or not at all, so a second URI on a line of its own is lost
  (`Folding.SecondUriIsLost`, `Folding.ContinuedUriIsLost`). `Folding.ParagraphUnchangedIff` says for which
  paragraphs, and `Folding.FileUnchangedIff` for which files, the repositories are those of the folded reading all the
  same.
- One-line apt entries with an exact path, which sources.list(5) allows, are never read
  (`AptLine.ExactPathNeverRead`).
- Log escaping does not escape the backslash, so it is invertible exactly without backslashes
  (`Sanitize.DecodesIff`, `Sanitize.BackslashCollides`).

## Model

| member | source | states |
|---|---|---|
| Lockout.AuthStore.Incr | backend/src/routes/authRoutes.js:181-183 | Redis INCR on a key that may have expired: counts from the live value and keeps its expiry, or starts at one with none. |
| Lockout.AuthStore.IsLocked | backend/src/routes/authRoutes.js:166-174 | An identifier is reported locked iff its lock key is alive, with the seconds left, which are positive. |
| Lockout.AuthStore.RecordFailedAttempt | backend/src/routes/authRoutes.js:181-203 | Increment, first-time expiry, lock and delete together make one transition of one identifier and touch no other key; locked iff the limit is reached. |
| Lockout.AuthStore.ClearFailedAttempts | backend/src/routes/authRoutes.js:206-209 | A success removes the counter and leaves the lock. |
| Lockout.AuthStore.Handle | backend/src/routes/authRoutes.js:1245-1378 | A login or second-factor request changes the store as the transition says; while the lock key is alive no secret is compared and nothing is recorded. |
| Lockout.KeysOfIdentifiers | backend/src/routes/authRoutes.js:84-93 | Keys of different identifiers, of login and second factor, of counters and locks never coincide. |
| Lockout.ServeTouchesOneIdentifier | backend/src/routes/authRoutes.js:216-262 | A request changes exactly the identifier it is about, up to letter case for login names. |
| Lockout.UnknownNameLikeWrongPassword | backend/src/routes/authRoutes.js:1293-1360 | A login for an unknown name leaves the same store and gets the same answer as one with a wrong password, and counts as a failure unless the name is locked. |
| Lockout.UnknownNamesNeverShow | backend/src/routes/authRoutes.js:1293-1360 | Over whole runs, exchanging unknown names and wrong passwords changes neither the store nor the failures. |
| Lockout.LoginInKeys | backend/src/routes/authRoutes.js:83-209 | What a login does to the store, in the texts of the keys and in seconds: nothing under a lock or without a password; a success drops the counter; every other outcome counts from the live value, expires 15 minutes after the first, and at the limit gives way to the lock. |
| Lockout.TfaInKeys | backend/src/routes/authRoutes.js:91-262 | The same for the second factor, where an unknown user leaves the store alone. |
| Lockout.RunsStaySound | backend/src/routes/authRoutes.js:181-203 | In every run counters stay below the limit between requests and every key carries an expiry. |
| Lockout.CounterBelowLimit | backend/src/routes/authRoutes.js:181-203 | The same from an empty store: the live counter is always below the limit. |
| Lockout.JudgePaysForItself | backend/src/routes/authRoutes.js:1245-1378 | Each failed check in a window uses up one of the failures the state of the identifier still allows there; a success gives back at most the limit less one. |
| Lockout.SlidingWindowBound | backend/src/routes/authRoutes.js:83-209 | In every sequential run, any half-open window no longer than the counter's life and the lock's holds at most 2·MAX−2 failed checks of one typed identifier (1 if MAX is 1), plus MAX−1 for each success in it. |
| Lockout.NoSuccessNoMoreThanTwiceTheLimit | backend/src/routes/authRoutes.js:1245-1378 | With no success in the window the bound for one identifier is 2·MAX−2, for login and for the second factor. |
| Lockout.BurstCounts | backend/src/routes/authRoutes.js:181-203 | Any burst of wrong guesses at one identifier, unknown names included, is counted one by one, keeps the first expiry, and locks exactly on reaching the limit. |
| Lockout.BoundIsAttained | backend/src/routes/authRoutes.js:181-203 | The bound is sharp: for every limit of two or more some run puts 2·MAX−2 failures into two seconds, whichever of them are unknown names. |
| Lockout.OnlyOwnRequestsMatter | backend/src/routes/authRoutes.js:166-209 | The failed checks of an identifier depend on the requests about it alone, whatever else is interleaved. |
| Lockout.UserBound | backend/src/routes/authRoutes.js:1245-1293 | A login finds a user by name or by e-mail address but counts what was typed: a user with two identifiers that do not fold to one has at most twice the bound of failed checks in a window, one whose identifiers fold to one has the bound, plus MAX−1 for each success. |
| Lockout.UserBoundWithoutSuccess | backend/src/routes/authRoutes.js:1245-1293 | With no success: at most 2·(2·MAX−2) for two identifiers, 2·MAX−2 when they fold to one. |
| Lockout.UserBoundIsAttained | backend/src/routes/authRoutes.js:1245-1293 | Twice the bound is attained: guesses under both names, in two seconds. |
| Admins.UserTable.CheckLast | backend/src/routes/authRoutes.js:854-878 | The guard refuses for the last active superadmin, and for the last active admin when there is no superadmin. |
| Admins.UserTable.CreateUser | backend/src/routes/authRoutes.js:644-700 | Creating a user answers and changes the table as specified and keeps an administrator. |
| Admins.UserTable.UpdateUser | backend/src/routes/authRoutes.js:740-905 | Updating a user answers and changes the table as specified; with no role in the request an administrator remains. |
| Admins.UserTable.DeleteUser | backend/src/routes/authRoutes.js:926-1000 | Deleting a user answers and changes the table as specified and keeps an administrator. |
| Admins.CreationAcceptedIff | backend/src/routes/authRoutes.js:644-700 | A user is created, active and in the role asked for, iff id and name are free. |
| Admins.UpdateAcceptedIff | backend/src/routes/authRoutes.js:740-905 | An update is accepted iff the user exists, no name is taken, superadmins are touched or made only by callers who may, and, where it switches the user off, somebody is left to take over: two active superadmins, or for an admin a superadmin or two active admins. What it then changes. |
| Admins.DeletionAcceptedIff | backend/src/routes/authRoutes.js:926-1000 | A deletion is accepted iff the user exists and is somebody else, under the same conditions; only that user goes. |
| Admins.StepKeepsAdministrator | backend/src/routes/authRoutes.js:838-878 | One request that keeps roles keeps an active superadmin if there was one, and an active administrator. |
| Admins.AdministratorSurvivesRuns | backend/src/routes/authRoutes.js:943-988 | Over every run of creations, deletions and role-keeping updates an active administrator remains, and a superadmin if there was one. |
| Admins.RoleChangeLosesAdministratorIff | backend/src/routes/authRoutes.js:838-878 | An accepted update loses the last administrator exactly when it moves the only one to an ordinary role. |
| Admins.RoleChangeLosesSuperadminIff | backend/src/routes/authRoutes.js:838-878 | An accepted update loses the last superadmin exactly when it moves the only one to another role. |
| Admins.RoleChangeCanLoseLastSuperadmin | backend/src/routes/authRoutes.js:838-878 | A concrete accepted update after which no administrator is left. |
| Kernel.CompareOne | agent-source-code/internal/system/reboot.go:223-243 | Two tokens compare as integers when both parse as 64-bit integers, else as strings. |
| Kernel.CompareTokenLists | agent-source-code/internal/system/reboot.go:208-246 | The loop returns the first difference, with a missing token as the empty string. |
| Kernel.CompareKernelVersions | agent-source-code/internal/system/reboot.go:203-247 | The result is the comparison of the token lists, and one of -1, 0 and 1. |
| Kernel.FirstDifferenceDecides | agent-source-code/internal/system/reboot.go:208-246 | The first tokens that do not compare level decide, at whatever position they stand. |
| Kernel.LevelIff | agent-source-code/internal/system/reboot.go:208-246 | Versions compare level iff all tokens up to the longer length do. |
| Kernel.LargerNumberIsLater | agent-source-code/internal/system/reboot.go:223-234 | Behind equal tokens the larger number is the later version, whatever follows. |
| Kernel.StringMeaning | agent-source-code/internal/system/reboot.go:235-243 | Strings compare by their first different characters, and a proper prefix comes first. |
| Kernel.AtoiOfNumeral | agent-source-code/internal/system/reboot.go:223-226 | Decimal numerals in the range of 64-bit integers are integers, with or without a sign; beyond it they are words. |
| Kernel.AtoiOfWord | agent-source-code/internal/system/reboot.go:223-226 | Anything but a sign in front and digits behind it is a word. |
| Kernel.WrittenVersionRead | agent-source-code/internal/system/reboot.go:251-257 | A version written of tokens with dots and dashes between them, in any mixture, is read as those tokens. |
| Kernel.Antisymmetric | agent-source-code/internal/system/reboot.go:203-247 | On all versions swapping the arguments flips the sign. |
| Kernel.TransitiveIff | agent-source-code/internal/system/reboot.go:214-244 | Comparison is transitive on the versions over a set of tokens iff no word of the set lies between two of its numbers whose order as strings is not their order as numbers. |
| Kernel.LatestExistsIff | agent-source-code/internal/system/reboot.go:192-247 | Every non-empty list of versions over a set of tokens has one that no other is later than iff the set has no such word; outside, some list runs in a circle. |
| Kernel.WellFormedIsWedgeFree | agent-source-code/internal/system/reboot.go:223-243 | Tokens that are numbers in range or start above '9' are such a set. |
| Kernel.ComparisonCanCycle | agent-source-code/internal/system/reboot.go:203-247 | 9 before 10 before 1a before 9. |
| Kernel.WordOutranksNumbers | agent-source-code/internal/system/reboot.go:235-243 | A version that starts with a word outranks every version that starts with a number. |
| Kernel.LatestOf | agent-source-code/internal/system/reboot.go:192-197 | Sorting ascending and taking the last gives one of the kernels, and on consistent tokens none is later. |
| Kernel.LatestKernelFromBoot | agent-source-code/internal/system/reboot.go:167-198 | The choice among the vmlinuz files that are not recovery kernels is the latest; empty if there are none. |
| Kernel.BootKernelsExact | agent-source-code/internal/system/reboot.go:174-186 | The candidates are exactly the versions of files named vmlinuz- and the version, without "recovery" in it. |
| Kernel.LatestKernelFromDpkg | agent-source-code/internal/system/reboot.go:303-350 | The choice among installed kernel image packages that are no meta-packages is the latest; else what the meta-packages resolve to. |
| Kernel.DpkgKernelsExact | agent-source-code/internal/system/reboot.go:303-338 | The candidates are exactly the versions of lines whose first field is ii and whose second is linux-image- and the version, if that is none of the eight forms of a meta-package. |
| Winget.FindSpans | agent-source-code/internal/packages/windows.go:439-452 | The scanning loop finds exactly the maximal runs of non-blank characters of the header. |
| Winget.FindHeader | agent-source-code/internal/packages/windows.go:411-424 | The first line that looks like a header. |
| Winget.MapColumns | agent-source-code/internal/packages/windows.go:482-499 | The first five header words decide which column holds which field. |
| Winget.ReadRows | agent-source-code/internal/packages/windows.go:501-537 | The loop keeps exactly the lines that pass the filters and have a name or an id. |
| Winget.ParseWingetTable | agent-source-code/internal/packages/windows.go:405-538 | The whole parser, from raw text to entries, computes the specification the round trips are about. |
| Winget.RowExact | agent-source-code/internal/packages/windows.go:504-536 | A line gives no entry if it is a rule of dashes, underscores and blanks, has a full block or shade in it, or contains "package(s)" in any case; any other line gives exactly the entry of its cells, unless name and id are empty. |
| Winget.DashesGiveNothing | agent-source-code/internal/packages/windows.go:501-512 | A line of dashes, underscores and blanks below a header is no package. |
| Winget.HeaderMeaning | agent-source-code/internal/packages/windows.go:411-424 | A header has at least ten bytes once trimmed and somewhere name, id and version, in any case. |
| Winget.ShortHeaderGivesNothing | agent-source-code/internal/packages/windows.go:453-456 | Below a header of fewer than three words nothing is read. |
| Winget.EndingDecides | agent-source-code/internal/packages/windows.go:485-499 | A header word decides by its ending which field its column holds; other words decide nothing. |
| Winget.FiveWordsCount | agent-source-code/internal/packages/windows.go:485-499 | Header words behind the fifth decide nothing. |
| Winget.ColumnsTileLine | agent-source-code/internal/packages/windows.go:458-480 | For any header and any line the raw columns cut the line from the first column on without gap or overlap; every slice is in range. |
| Winget.EntriesAreClean | agent-source-code/internal/packages/windows.go:464-536 | Whatever the header and the lines below it, every entry has trimmed fields and a name or an id. |
| Winget.RowsConcatenate | agent-source-code/internal/packages/windows.go:504-537 | The rows of a text are the rows of its parts, in order. |
| WingetPrinter.HeaderLayout | agent-source-code/internal/packages/windows.go:439-499 | A printed header of any of the four shapes is read back as its columns and their offsets. |
| WingetPrinter.RowRoundTrip | agent-source-code/internal/packages/windows.go:504-536 | A printed row whose trimmed cells fit their columns is read back exactly. |
| WingetPrinter.LinesRoundTrip | agent-source-code/internal/packages/windows.go:411-537 | Any table, after any lines that are no header and with rules, progress bars and the closing count anywhere in between, is parsed back to exactly its rows in order. |
| WingetPrinter.TableRoundTrip | agent-source-code/internal/packages/windows.go:405-538 | The same on the whole text, with line feeds, carriage returns or both between the lines. |
| WingetMerge.BuildIndex | agent-source-code/internal/packages/windows.go:113-123 | One fresh record per key, describing the last row of that key. |
| WingetMerge.EnrichRegistry | agent-source-code/internal/packages/windows.go:125-141 | In place, every registry package is enriched from the record of its key, and exactly the records of registry keys are marked matched. |
| WingetMerge.AppendNew | agent-source-code/internal/packages/windows.go:143-156 | Through the matched and appended flags the loop appends the first row of each key the registry lacks. |
| WingetMerge.MergeRegistryAndWinget | agent-source-code/internal/packages/windows.go:94-159 | The merge is the enriched registry followed by the new rows, also without winget rows. |
| WingetMerge.RegistryKept | agent-source-code/internal/packages/windows.go:125-141 | Every registry package stays in place with name and version; NeedsUpdate is only raised and a known available version is not replaced. |
| WingetMerge.EnrichedExact | agent-source-code/internal/packages/windows.go:113-141 | Field by field: from the last winget row of its key a registry package takes the source, the update flag if it is up and, with it, the available version if none is known; without a row the source is "local". |
| WingetMerge.NewRowsExact | agent-source-code/internal/packages/windows.go:143-156 | The appended rows have distinct keys, none of them in the registry, and together they are all missing keys. |
| WingetMerge.MergeKeys | agent-source-code/internal/packages/windows.go:94-159 | No key is lost and, with a registry without duplicates, none is reported twice. |
| WingetMerge.NewRowsInOrder | agent-source-code/internal/packages/windows.go:150-156 | The appended rows are exactly the first winget rows of their keys, in winget's order. |
| Scheduler.TicksNeverOverlap | backend/src/server.js:999-1004 | However timer firings, failures and edits interleave, at most one tick body is in flight, and the flag says so. |
| Scheduler.EachDueWindowOnce | backend/src/server.js:1045-1128 | When a tick finishes it has made one job attempt and then one advance attempt for each window due in its snapshot and for no other, whatever failed. |
| Scheduler.OneTimeWindowRunsOnce | backend/src/server.js:1090-1116 | A one-time window nobody edits is triggered at most once more than its advance write fails, and never again once a write has succeeded. |
| Scheduler.WrittenWindowsNoLongerDue | backend/src/server.js:1096-1132 | A finished tick leaves a window it has written, and that nobody has edited, not due at its own `now`, whatever is edited elsewhere. |
| Scheduler.WrittenWindowsWereDue | backend/src/server.js:1056-1116 | A tick writes only windows that were due in its snapshot. |
| Scheduler.DueLists | backend/src/server.js:1045-1048 | Filtering the listing gives exactly the due windows, each once. |
| Scheduler.ComputeNextRun | backend/src/services/patchManagementService.js:532-626 | The next run is the first minute after the given moment, within 35 days (the code's horizon; its opening comment says 7), that the cron fields match, or none if no minute matches; the fields are one predicate. |
| Scheduler.PatchScheduler.RefreshWindowSchedules | backend/src/services/patchManagementService.js:634-655 | Afterwards every listed window that is enabled, recurring and without a later run has the run computed for it, if there is one; every other window is unchanged. |
| Scheduler.PatchScheduler.HandleDue | backend/src/server.js:1056-1128 | The loop over the due windows makes the attempts in order and writes what the successful advances write. |
| Scheduler.PatchScheduler.Tick | backend/src/server.js:1002-1138 | One firing: nothing while a tick runs; else the flag is down again afterwards, the log holds the attempts in order, and the windows are those written with every listed window that lacked a future run refreshed. |
| Scheduler.RefreshLeavesNoneBehind | backend/src/services/patchManagementService.js:634-655 | No listed enabled recurring window that could have a future run is left without one, and one that has one keeps it. |
| Scheduler.WrittenAllExact | backend/src/server.js:1090-1116 | After the loop each due window whose write went through has its next run, none for a one-time window, the moment of the write as its last run, and stays enabled unless it was one-time; all others are as before. |
| Scheduler.TickLogExact | backend/src/server.js:1056-1128 | Each due window has one job attempt and then one advance attempt, in order, with their outcomes. |
| Scheduler.CandidatesAreMinutes | backend/src/services/patchManagementService.js:532-626 | The candidates for a next run are the whole minutes after the moment, up to 35 days. |
| Dashboard.UpdateSpan | backend/src/server.js:774-781 | A primary-key update changes one row, and fails iff there is none. |
| Dashboard.UpdateSpans | backend/src/server.js:774-781 | The update loop widens exactly the rows to be widened, and fails iff one of them has been deleted. |
| Dashboard.SyncUser | backend/src/server.js:668-804 | The transaction for one user gives the specified rows; it is rolled back exactly when an upgrading user has a card to widen that is no longer permitted. |
| Dashboard.InitializeDashboardPreferences | backend/src/server.js:634-809 | Users are synced in order; the first rollback leaves it and all users behind it unchanged. |
| Dashboard.PermittedExact | backend/src/server.js:859-872 | A role's cards are exactly the layout cards its permissions allow, each once. |
| Dashboard.SyncMakesCardsPermitted | backend/src/server.js:705-781 | After a committed sync the card set is the permitted set. |
| Dashboard.SyncKeepsCustomisation | backend/src/server.js:723-781 | Rows that stay keep sequence, order and enabled, and their span unless the layout record was missing; new cards come behind, with distinct orders above all earlier ones. |
| Dashboard.NewCardsAreCurated | backend/src/server.js:745-765 | A new card has the enabled flag and the span of the layout and stands one place further behind the highest order that was there. |
| Dashboard.SeededAsLayout | backend/src/server.js:668-700 | A user without cards gets the permitted layout as it is; roles stay, and every synced user has a layout record. |
| Dashboard.WidensIff | backend/src/server.js:718-727 | A card is widened iff it is still one column wide and the layout has it wider, to the span of the layout. |
| Dashboard.PermittedForRole | backend/src/server.js:812-872 | A card is permitted iff the row of the role allows it, or the ten administrator permissions do where there is no row. |
| Dashboard.SyncStaysDistinct | backend/src/server.js:745-781 | Card names and ids stay unique. |
| Dashboard.SettledUser | backend/src/server.js:705-745 | A user with a layout record and exactly the permitted cards is left as is. |
| Dashboard.SyncIsIdempotent | backend/src/server.js:634-809 | A second sync with the same permissions changes nothing. |
| Dashboard.UpgradeCanRollBack | backend/src/server.js:723-781 | A concrete user whose sync is rolled back. |
| Quota.CounterBounded | backend/src/routes/autoEnrollmentRoutes.js:121-199 | With at most k hosts' worth of requests overlapping and no limit above L, over any interleaving of read, reset, check, host creation and increment, any days and any changes of the limit, the counter plus everything that can still be added is at most L−1+k. |
| Quota.HostsCountedBounded | backend/src/routes/autoEnrollmentRoutes.js:169-186 | Between the first reset for one day and the first for another at most k·(L−1+k) hosts are counted, that is, reported as enrolled. |
| Quota.CounterHoldsCountedIff | backend/src/routes/autoEnrollmentRoutes.js:169-186 | Over every interleaving the counter lacks exactly what further resets for the same day wiped out, so it holds all hosts counted that day iff no such reset met a counter above zero. |
| Quota.CounterHoldsRowsIff | backend/src/routes/autoEnrollmentRoutes.js:807-848 | Host rows of the day are the counter, what resets wiped out, what is still to be counted and the rows left by a failed membership or an uncounted request; with nothing in flight counter and rows agree iff neither loss occurred. |
| Quota.RowsAreUnbounded | backend/src/routes/autoEnrollmentRoutes.js:808-848 | For every n some run, one request at a time, leaves n host rows and an untouched counter: the membership fails behind the row. |
| Quota.StaleResetForgets | backend/src/routes/autoEnrollmentRoutes.js:173-184 | With limit 2, a stale reset lets three hosts be enrolled on one day. |
| Quota.SequentialRunsWithinLimitRead | backend/src/routes/autoEnrollmentRoutes.js:904-984 | One request at a time, single or bulk, with changing limits and days: no increment takes the counter above the limit its request read, and the counter holds all hosts counted. |
| Quota.LimitInForceExceededOnlyIfLowered | backend/src/routes/autoEnrollmentRoutes.js:121-199 | The counter goes above the limit in force only if a change lowered that limit between the read and the increment of the request. |
| Quota.LimitInForceIsExceededIff | backend/src/routes/autoEnrollmentRoutes.js:807-848 | Some outcomes of the hosts still to be tried let a granted request end above the limit in force iff that limit is below the counter, the hosts it has made and those still to be tried. |
| Quota.LimitInForceIsExceededByWaitingIff | backend/src/routes/autoEnrollmentRoutes.js:169-191 | The same for a request that has only read the token: it must pass on the limit it read, and all its hosts must not fit into the limit in force. |
| Quota.LimitInForceCanBeExceeded | backend/src/routes/autoEnrollmentRoutes.js:841-848 | A run in which the limit is lowered meanwhile and the counter ends at 2 with limit 1. |
| Quota.AloneRequest | backend/src/routes/autoEnrollmentRoutes.js:841-848 | The interleaved steps of a request served alone, host by host, do what the methods of the token do. |
| Quota.CheckGrantsIff | backend/src/routes/autoEnrollmentRoutes.js:169-191 | A request goes on iff its hosts and the counter it read, zero if that was on another day, fit the limit it read. |
| Quota.OutcomesCounted | backend/src/routes/autoEnrollmentRoutes.js:933-971 | The successes are the complete enrolments, and the rows all hosts but those that failed before their row. |
| Quota.Token.Validate | backend/src/routes/autoEnrollmentRoutes.js:169-191 | The reset happens iff the day changed, and the request passes iff the counter is below the limit. |
| Quota.Token.Enroll | backend/src/routes/autoEnrollmentRoutes.js:807-848 | Granted iff the counter, after the date check, is below the limit; the row, the membership and the increment of a granted enrolment; a failed membership leaves the row and the counter alone. |
| Quota.Token.EnrollBulk | backend/src/routes/autoEnrollmentRoutes.js:904-984 | Granted iff the counter, after the date check, and the number of hosts are at most the limit; the counter grows by those reported as enrolled, the rows also by those whose membership failed. |
| Ingest.Deduplicate | backend/src/routes/complianceRoutes.js:386-405 | The loop over the Map computes the deduplication the laws below are about. |
| Ingest.DedupeExact | backend/src/routes/complianceRoutes.js:376-405 | One survivor for each non-empty reference: the first result of maximal priority. |
| Ingest.DedupeOrder | backend/src/routes/complianceRoutes.js:386-405 | Survivors stand in the order in which their references first appear. |
| Ingest.RefIsFirstText | backend/src/routes/complianceRoutes.js:389-390 | The reference is the first of three texts that is not empty. |
| Ingest.WorstStatusSurvives | backend/src/routes/complianceRoutes.js:376-403 | The survivor of a rule has the worst status any of its results was sent with, from fail over warn, pass, skip and notapplicable to error. |
| Ingest.ReconcileRules | backend/src/routes/complianceRoutes.js:433-505 | The loop decides which stored rules change, which are new, and which rule each survivor has. |
| Ingest.StoreResults | backend/src/routes/complianceRoutes.js:376-557 | Deduplication, reconciliation and rows of one scan, as a whole. |
| Ingest.RowsExact | backend/src/routes/complianceRoutes.js:531-550 | One row per survivor, in order, with the id of its rule and its normalised status. |
| Ingest.OneRowPerRule | backend/src/routes/complianceRoutes.js:531-557 | The number of rows is the number of distinct references and no two rows have the same rule, so skipping duplicates drops none. |
| Ingest.CreatedIsNew | backend/src/routes/complianceRoutes.js:444-457 | A created rule belongs to a survivor whose reference the profile lacked. |
| Ingest.NewIsCreated | backend/src/routes/complianceRoutes.js:444-457 | Every such survivor gets its rule. |
| Ingest.EverySurvivorHasItsRule | backend/src/routes/complianceRoutes.js:436-550 | The row's rule id is that of a rule with the survivor's reference. |
| Ingest.ReconcileKeepsRefsUnique | backend/src/routes/complianceRoutes.js:508-523 | References stay unique in the profile, so each survivor has exactly one rule. |
| Ingest.StoredRulesOnlyFilled | backend/src/routes/complianceRoutes.js:458-505 | Non-empty description, severity, section and remediation are never overwritten, and rules no survivor names stay as they are. |
| Ingest.StoredRuleExact | backend/src/routes/complianceRoutes.js:458-505 | A stored rule some survivor is about has its empty texts filled from that survivor, and a placeholder of a title replaced by a title that is neither empty nor the reference. |
| Ingest.CreatedRuleExact | backend/src/routes/complianceRoutes.js:444-457 | A created rule has the texts of its survivor and its title, or the reference for lack of one. |
| Ingest.SpellingsRead | backend/src/routes/complianceRoutes.js:64-90 | Which spellings are stored as which status; any other is stored as sent. |
| Ingest.FailureIsStoredIff | backend/src/routes/complianceRoutes.js:376-403 | The best result of a rule reads as failed iff some result of the rule is spelt "fail", or none is spelt canonically and the first reads as failed. |
| Ingest.FailedRowIff | backend/src/routes/complianceRoutes.js:531-550 | The same about the stored rows. |
| Ingest.VariantFailureCanBeHidden | backend/src/routes/complianceRoutes.js:376-403 | "failed" then "pass" for one rule is stored as passed. |
| Ingest.ScoreInRangeIff | backend/src/routes/complianceRoutes.js:315-324 | A computed score, with its two decimals, lies in 0..100 iff −a < 20000·p < 20001·a for p passed and a applicable rules. |
| Ingest.ToFixedRange | backend/src/routes/complianceRoutes.js:321-323 | Two decimals bring into 0..100 exactly what lies above −0.005 and below 100.005. |
| Ingest.PayloadNumbers | backend/src/routes/complianceRoutes.js:290-312 | Each number is the one the agent sends, zero included, or else counted from the results. |
| Ingest.ScoreIsRoundedShare | backend/src/routes/complianceRoutes.js:315-324 | A computed score is a multiple of a hundredth no further than half a hundredth from the share of applicable rules passed, in percent. |
| Ingest.RoundingHidesExcess | backend/src/routes/complianceRoutes.js:315-324 | 30001 passed of 30000 rules are stored as 100. |
| Ingest.StoredScoreInRangeIff | backend/src/routes/complianceRoutes.js:290-353 | On the payload: the stored score is a percentage iff the one sent is one and not zero or, with none sent, rules apply and −a < 20000·p < 20001·a for p passed and a = total − skipped − not applicable; it is null iff zero is sent or none is sent and no rule applies. |
| Ingest.CountedScoreInRange | backend/src/routes/complianceRoutes.js:290-324 | A score computed from counted results always does. |
| Ingest.ReportedTotalCanBreakScore | backend/src/routes/complianceRoutes.js:290-324 | With a reported total of one and two passed results the score is 200. |
| ComplianceDashboard.HostWorstScores | backend/src/routes/complianceRoutes.js:735-744 | The loop keeps for each host the worst score and the type of the scan it comes from. |
| ComplianceDashboard.MostRecent | backend/src/routes/complianceRoutes.js:1045-1057 | The loop keeps for each key its most recent scan, the first among equals. |
| ComplianceDashboard.PickExact | backend/src/routes/complianceRoutes.js:735-744 | Each key holds the first of its cheapest scans, for the worst score as for the latest scan. |
| ComplianceDashboard.PickKeys | backend/src/routes/complianceRoutes.js:735-744 | The keys are exactly those that occur. |
| ComplianceDashboard.PickCostIsOrderFree | backend/src/routes/complianceRoutes.js:1046-1057 | Keys and kept costs do not depend on the order of the scans. |
| ComplianceDashboard.HostStatusMeaning | backend/src/routes/complianceRoutes.js:729-755 | A host is compliant iff all its scans reach 80, critical iff one is below 60, and a warning otherwise. |
| ComplianceDashboard.ScanReadings | backend/src/routes/complianceRoutes.js:735-738 | A missing score reads as zero, and a scan without a profile type as unknown. |
| ComplianceDashboard.HostsPartition | backend/src/routes/complianceRoutes.js:705-755 | Compliant, warning and critical hosts add up to the distinct hosts. |
| ComplianceDashboard.HostCountsAreOrderFree | backend/src/routes/complianceRoutes.js:746-755 | The three host sets do not depend on the order of the scans. |
| ComplianceDashboard.BlamedKindIsOrderFreeIff | backend/src/routes/complianceRoutes.js:735-744 | The type blamed for a host is the same in every order of the scans iff all worst scans of the host have one type. |
| ComplianceDashboard.BlamedKindCanDependOnOrder | backend/src/routes/complianceRoutes.js:735-744 | Two scans with equal scores and different types, in both orders. |
| ComplianceDashboard.Tally | backend/src/routes/complianceRoutes.js:756-771 | The loop over the map's values counts each cell of the table exactly and skips what has no cell. |
| ComplianceDashboard.StatusColumnsCompleteIff | backend/src/routes/complianceRoutes.js:756-771 | The openscap and docker-bench columns of a status add up to its hosts iff no scan that is the first with the worst score of its host, in that status, is of a third type. |
| ComplianceDashboard.ThirdTypeIsMissing | backend/src/routes/complianceRoutes.js:756-771 | A host whose only scan is of type oscap-docker stands in neither column of its status. |
| ComplianceDashboard.KeyIsInjective | backend/src/routes/complianceRoutes.js:1049-1049 | A host:type key names one host and one type when host ids hold no colon. |
| ComplianceDashboard.AgesCountEachHostOnce | backend/src/routes/complianceRoutes.js:1059-1073 | For each type the four ages together count every host with a scan of the type exactly once. |
| ComplianceDashboard.AgeMeaning | backend/src/routes/complianceRoutes.js:1059-1073 | The four ages in milliseconds: up to one day, up to seven, up to thirty, more. |
| ComplianceDashboard.LatestIsMostRecent | backend/src/routes/complianceRoutes.js:1045-1057 | The scan a host and type are counted by is the first of the most recent ones of that host and type. |
| ComplianceDashboard.AgeCountsAreOrderFree | backend/src/routes/complianceRoutes.js:1046-1073 | Each age count is the same in every order of the scans. |
| ComplianceTotals.GroupTotals | backend/src/routes/complianceRoutes.js:836-857 | The reduce into an object computes the groups the laws below are about. |
| ComplianceTotals.GroupExact | backend/src/routes/complianceRoutes.js:836-857 | Each key that occurs has the sums of its scans. |
| ComplianceTotals.OneMoreScan | backend/src/routes/complianceRoutes.js:836-857 | One more scan adds one to the scans of its group and its own number to each column, and nothing elsewhere. |
| ComplianceTotals.OneMoreInSummary | backend/src/routes/complianceRoutes.js:858-888 | The same for the summary. |
| ComplianceTotals.GroupKeys | backend/src/routes/complianceRoutes.js:836-857 | Groups are by profile and by the type of the joined profile, unknown where there is none. |
| ComplianceTotals.OneMoreByStatus | backend/src/routes/complianceRoutes.js:713-722 | Scans are compliant from 80, warnings from 60, critical below. |
| ComplianceTotals.GroupsConserve | backend/src/routes/complianceRoutes.js:836-888 | Every column of the groups adds up to the summary over all scans; the host counts add up to the number of scans. |
| ComplianceTotals.GroupIsOrderFree | backend/src/routes/complianceRoutes.js:820-857 | The groups do not depend on the order of the scans. |
| ComplianceTotals.ScansCountHostsIff | backend/src/routes/complianceRoutes.js:829-849 | A group's scan count is at least its number of hosts, and equal iff no host has two scans in it. |
| ComplianceTotals.ProfileHostCount | backend/src/routes/complianceRoutes.js:820-831 | With one latest scan per host and profile the host count of a profile is its number of hosts. |
| ComplianceTotals.HostsScannedCanCountAHostTwice | backend/src/routes/complianceRoutes.js:836-849 | A host with two openscap profiles counts twice under hosts_scanned. |
| ComplianceTotals.ScansPartition | backend/src/routes/complianceRoutes.js:713-722 | Compliant, warning and critical scans add up to all scans. |
| RuleListing.CountsFitTotal | backend/src/routes/complianceRoutes.js:2616-2632 | No result is counted under two statuses. |
| RuleListing.RankIsWorstStatus | backend/src/routes/complianceRoutes.js:2615-2663 | A rule's rank is that of the worst status any of its results has. |
| RuleListing.OneMoreResult | backend/src/routes/complianceRoutes.js:2616-2632 | One more result adds to the count of its status and to the total, and to no other. |
| RuleListing.SeverityOrder | backend/src/routes/complianceRoutes.js:2640-2646 | Severities from low to critical; any other is milder. |
| RuleListing.ComparatorMeaning | backend/src/routes/complianceRoutes.js:2651-2722 | Which of two rules may stand first, for every sort key and direction with all its tie-breakers. |
| RuleListing.ComparatorIsPreorder | backend/src/routes/complianceRoutes.js:2651-2722 | For every sort_by but the profile type, in both directions, the comparator ranks any rows consistently. |
| RuleListing.ProfileTypeIsPreorderIff | backend/src/routes/complianceRoutes.js:2702-2709 | By profile type it does so iff the list holds no two rules of one type that titles order and a rule of another type level with it. |
| Paging.ParameterInRange | backend/src/routes/complianceRoutes.js:57-61 | A number parameter is kept in its range, clamped to the nearer bound outside, and the default if it is no number. |
| Paging.PagesConcatenate | backend/src/routes/complianceRoutes.js:1699-1700 | Consecutive pages of a fixed list at unclamped offsets concatenate to the list from the first offset on. |
| Paging.ClampedPagesCompleteIff | backend/src/routes/complianceRoutes.js:2502-2503 | With the offset clamped at 100000, page after page shows every row of a fixed list exactly once iff the list is no longer than (100000/limit + 1)·limit. |
| Paging.RowCanBeShownIff | backend/src/routes/complianceRoutes.js:2502-2503 | Whatever offset is asked for, a row is shown by some request iff it stands before 100000 + limit. |
| RuleListing.PagesShowEveryRuleSortedIff | backend/src/routes/complianceRoutes.js:2649-2726 | For every sort key (the profile type where its ranking is consistent), the pages show every fetched rule exactly once and in the order asked for, tie-breakers included, iff the list is no longer than the pages in reach of the largest offset. |
| RuleListing.FetchOrderFreeIff | backend/src/routes/complianceRoutes.js:2598-2665 | The sorted list is independent of the order of the fetch iff no two different rows tie. |
| RuleListing.LevelRowCanShowTwice | backend/src/routes/complianceRoutes.js:2726-2726 | Two tied rows fetched in different orders: one shows on both pages and one on none. |
| RuleListing.PagesShowEveryResultRanked | backend/src/routes/complianceRoutes.js:1694-1700 | Over one fetched list the pages show every result once, failures before warnings before passes, ties as fetched. |
| RuleListing.ResultRanks | backend/src/routes/complianceRoutes.js:103-109 | The spellings behind the ranks of a result, in any case. |
| RuleListing.ResultPagesAgreeIff | backend/src/routes/complianceRoutes.js:1655-1700 | Pages of results fetched separately agree in every case iff all results have different ranks. |
| Cidr.IpToNumberIsAddress | backend/src/middleware/apiAuth.js:43-47 | The shifts and ors on signed 32-bit numbers give the address in base 256. |
| Cidr.MatchMeaning | backend/src/middleware/apiAuth.js:74-81 | For every pair of addresses and every prefix 0..32 the mask test holds iff both have the same quotient by 2^(32-prefix). |
| IpAccess.ParsePrintedAddress | backend/src/middleware/apiAuth.js:13-40 | Parsing inverts printing, with and without the IPv4-mapped prefix. |
| IpAccess.ParseAcceptsExactly | backend/src/middleware/apiAuth.js:13-40 | Exactly the canonical dotted quads are accepted, optionally behind the prefix. |
| IpAccess.RangeMeaning | backend/src/middleware/apiAuth.js:55-82 | A printed range with a prefix admits exactly the addresses of its network, and one without only itself. |
| IpAccess.MatchForAnyText | backend/src/middleware/apiAuth.js:55-82 | For arbitrary text: when a client matches a range. |
| IpAccess.AllowListMeaning | backend/src/middleware/apiAuth.js:91-104 | Only addresses are admitted, none by an empty list, and a list admits what either of its parts admits. |
| IpAccess.EntryMeaning | backend/src/middleware/apiAuth.js:91-104 | An entry admits what its text matches, blanks around it aside. |
| IpAccess.ParseIntMeaning | backend/src/middleware/apiAuth.js:24-31 | Blanks, a sign, a numeral and whatever follows are read as the number. |
| IpAccess.ShorterPrefixAdmitsMore | backend/src/middleware/apiAuth.js:74-81 | A shorter prefix of the same range admits at least as much. |
| IpAccess.MatchIsEquivalence | backend/src/middleware/apiAuth.js:74-81 | For each prefix matching is an equivalence; at 32 it is equality and at 0 it always holds. |
| Deb822.ProcessEntry | agent-source-code/internal/repositories/apt.go:302-383 | The nested loops expand a stanza as specified; missing types, URIs or suites give nothing. |
| Deb822.StanzaCount | agent-source-code/internal/repositories/apt.go:302-383 | A stanza yields one repository per supported type, valid URI and valid suite. |
| Deb822.StanzaOrder | agent-source-code/internal/repositories/apt.go:330-381 | They come in nested order: type, then URI, then suite. |
| Deb822.StanzaSound | agent-source-code/internal/repositories/apt.go:340-400 | Each obeys the suite rule of sources.list(5) and comes from a listed type, URI and suite. |
| Deb822.StanzaExact | agent-source-code/internal/repositories/apt.go:302-383 | Exactly the records of a stanza, field by field: a type, deb if none is named; a remote URI; a suite that is an exact path iff there are no components; the components; the name; enabled unless the field says no or false; secure for https. |
| Deb822.FieldLineRead | agent-source-code/internal/repositories/apt.go:278-289 | A line sets the field before its first colon to what stands behind it, blanks aside. |
| Repositories.RemoteSchemes | agent-source-code/internal/repositories/apt.go:405-417 | Remote URLs start with one of five schemes. |
| Deb822.ParseDEB822Sources | agent-source-code/internal/repositories/apt.go:243-299 | The scanning loop computes the fold the laws below are about. |
| Deb822.ParseSplitsAtBlankLine | agent-source-code/internal/repositories/apt.go:255-299 | Two texts with a blank line between them give the repositories of the first and then those of the second. |
| Deb822.CommentsIgnored | agent-source-code/internal/repositories/apt.go:255-299 | A comment line changes nothing anywhere. |
| Deb822.ExtraBlankLinesIgnored | agent-source-code/internal/repositories/apt.go:255-299 | Further blank lines behind a blank line change nothing. |
| Deb822.ParseIsByParagraph | agent-source-code/internal/repositories/apt.go:243-299 | The scanner computes the paragraph-by-paragraph reading of the file. |
| Expansion.SameRepositoriesIff | agent-source-code/internal/repositories/apt.go:302-383 | Two stanzas whose lists repeat no word give the same repositories iff both give none or they agree in usable types, URIs and suites, components, enabledness and the names made of them. |
| Folding.ParagraphUnchangedIff | agent-source-code/internal/repositories/apt.go:259-290 | If no continuation line has the form of a field that is read, a paragraph gives the repositories of deb822(5) iff both readings give none, or no continuation line adds a supported type (beyond the default), a remote URI, a fitting suite, any component, a change of enabledness or of names. |
| Folding.DistinctParagraphUnchangedIff | agent-source-code/internal/repositories/apt.go:259-383 | With continuation lines of any form and no repeated words: iff what the two readings make of the lines agrees in what is read. |
| Folding.UnreadFieldsHarmless | agent-source-code/internal/repositories/apt.go:277-290 | Lines that continue fields nobody reads, such as a signing key, change nothing. |
| Folding.ContinuedUriIsLost | agent-source-code/internal/repositories/apt.go:277-290 | A remote URI on a continuation line of a stanza with usable types and suites always changes the repositories. |
| Folding.SecondUriIsLost | agent-source-code/internal/repositories/apt.go:259-290 | Four lines that give two repositories by deb822(5) and one here. |
| Folding.FileUnchanged | agent-source-code/internal/repositories/apt.go:243-299 | If that holds of every paragraph, the file gives the repositories of deb822(5). |
| Folding.FileUnchangedIff | agent-source-code/internal/repositories/apt.go:243-299 | And only then, for files that continue no empty Types or Components field, since no paragraph can make up for another. |
| AptLine.ParseSourceLine | agent-source-code/internal/repositories/apt.go:167-240 | The index arithmetic over the fields computes the reading the laws below are about. |
| AptLine.LineRoundTrip | agent-source-code/internal/repositories/apt.go:167-240 | A printed one-line entry, with or without options, reads back as its parts exactly when the URL is remote, there is a component and the suite is no exact path and has no bracket. |
| AptLine.UnclosedOptions | agent-source-code/internal/repositories/apt.go:178-195 | Options that are opened and never closed are taken to be one word. |
| AptLine.ExactPathNeverRead | agent-source-code/internal/repositories/apt.go:167-240 | No accepted line has an exact path or lacks components. |
| AptLine.ExactPathLine | agent-source-code/internal/repositories/apt.go:386-402 | A line the suite rule allows and the parser drops. |
| RepoFile.ProcessRepoEntry | agent-source-code/internal/repositories/dnf.go:179-232 | Base URLs, then metalink, then mirror list, the remote ones only; nothing for a disabled section. |
| RepoFile.ParseRepoFile | agent-source-code/internal/repositories/dnf.go:93-176 | The scanning loop computes the fold the laws below are about. |
| RepoFile.ParseSplitsAtHeader | agent-source-code/internal/repositories/dnf.go:105-176 | A file cut before a section header reads as its two parts, one after the other. |
| RepoFile.IgnoredLines | agent-source-code/internal/repositories/dnf.go:105-120 | Comments and blank lines change nothing anywhere. |
| RepoFile.NothingBeforeFirstHeader | agent-source-code/internal/repositories/dnf.go:105-140 | Nothing before the first header is read. |
| RepoFile.ParseOneSection | agent-source-code/internal/repositories/dnf.go:120-176 | A header and its lines give exactly the repositories of the fields they set. |
| RepoFile.FieldLine | agent-source-code/internal/repositories/dnf.go:142-167 | Each of five keys sets its own field, base URLs add up, enabled is on for 1 and true only, and other keys set nothing. |
| RepoFile.HeaderNames | agent-source-code/internal/repositories/dnf.go:116-129 | The id of a section stands between the brackets of its header; nothing else is set yet. |
| RepoFile.HeaderLines | agent-source-code/internal/repositories/dnf.go:105-116 | Which lines are headers, and which are skipped. |
| RepoFile.SectionExact | agent-source-code/internal/repositories/dnf.go:179-225 | Exactly the records of a section in order, field by field: none when it is off; else one for each remote base URL, then the metalink, then the mirror list. |
| RepoFile.SectionUrls | agent-source-code/internal/repositories/dnf.go:179-232 | Every repository of a section is remote and enabled; base URLs come first and the mirror list last. |
| LogBuffer.Hook.Append | agent-source-code/internal/logbuffer/logbuffer.go:92-97 | Go's append on the slice, or on the slice without its first entry when full, in place or into a new array. |
| LogBuffer.Hook.Fire | agent-source-code/internal/logbuffer/logbuffer.go:56-100 | The entry with its derived source and metadata is pushed. |
| LogBuffer.CapturedMeaning | agent-source-code/internal/logbuffer/logbuffer.go:60-90 | The source is the first of four fields that is there, the other fields are the metadata, and without any there is none. |
| LogBuffer.Hook.Inject | agent-source-code/internal/logbuffer/logbuffer.go:126-140 | All extra entries are pushed in order. |
| LogBuffer.Hook.Drain | agent-source-code/internal/logbuffer/logbuffer.go:104-115 | The contents are returned in the old array and the hook goes on with a new one; nil iff there was nothing. |
| LogBuffer.Hook.Len | agent-source-code/internal/logbuffer/logbuffer.go:118-122 | The number of buffered entries. |
| LogBuffer.DrainedSliceIsStable | agent-source-code/internal/logbuffer/logbuffer.go:104-140 | A drained slice never changes, whatever sequence of Fire, Inject and Drain follows and however the hook's array is reused. |
| LogBuffer.RunKeepsNewest | agent-source-code/internal/logbuffer/logbuffer.go:56-140 | In every run the buffer is the newest maxSize entries since the last drain, as a slice of the log, and every batch was that of its interval. |
| LogBuffer.NothingReorderedOrInvented | agent-source-code/internal/logbuffer/logbuffer.go:56-140 | The drained batches are an order-preserving part of everything logged before the last drain, and all of it iff no interval exceeded the capacity. |
| LogBuffer.IntervalsCutTheLog | agent-source-code/internal/logbuffer/logbuffer.go:56-140 | The intervals between drains together with the open one are everything logged, in order. |
| Sanitize.WriteHexEscape | agent-source-code/internal/logutil/sanitize.go:43-65 | The nibble loop appends the escape of the right width to the builder. |
| Sanitize.SanitizeToLog | agent-source-code/internal/logutil/sanitize.go:17-40 | The rune loop over the builder computes the escaping the laws below are about. |
| Sanitize.HexEscapeDecodes | agent-source-code/internal/logutil/sanitize.go:43-65 | The escape of every scalar value, in each of its widths and in front of any text, decodes to it. |
| Sanitize.ControlCharacters | agent-source-code/internal/logutil/sanitize.go:17-40 | Control characters are those below 32 and from 127 to 159. |
| Sanitize.EscapesWritten | agent-source-code/internal/logutil/sanitize.go:17-65 | Five control characters are written with their letter, the others with two hexadecimal digits, and anything else as it is. |
| Sanitize.EscapeWidths | agent-source-code/internal/logutil/sanitize.go:43-65 | Two, four or eight digits behind x, u and U. |
| Sanitize.NoControlLeft | agent-source-code/internal/logutil/sanitize.go:17-40 | No control character is left. |
| Sanitize.Distributes | agent-source-code/internal/logutil/sanitize.go:17-40 | Escaping distributes over concatenation. |
| Sanitize.UnchangedIffClean | agent-source-code/internal/logutil/sanitize.go:17-40 | Exactly the strings without control characters are unchanged. |
| Sanitize.Idempotent | agent-source-code/internal/logutil/sanitize.go:17-40 | Escaping twice is escaping once. |
| Sanitize.DecodesIff | agent-source-code/internal/logutil/sanitize.go:17-40 | The unescape decoder gives the input back iff the input has no backslash. |
| Sanitize.InjectiveWithoutBackslash | agent-source-code/internal/logutil/sanitize.go:17-40 | Without backslashes different inputs stay different. |
| Sanitize.BackslashCollides | agent-source-code/internal/logutil/sanitize.go:17-40 | A line feed and its escape are logged alike. |
| Collector.Manager.SetEnabledChecker | agent-source-code/internal/integrations/manager.go:33-37 | The checker is replaced. |
| Collector.Manager.Register | agent-source-code/internal/integrations/manager.go:40-45 | The integration is added at the end. |
| Collector.Manager.DiscoverIntegrations | agent-source-code/internal/integrations/manager.go:49-77 | A permutation of the available and enabled integrations, in ascending priority number. |
| Collector.DiscoveredExact | agent-source-code/internal/integrations/manager.go:49-69 | Each available integration that the checker, if there is one, enables is discovered as often as it is registered, and no other. |
| Collector.CollectsEverything | agent-source-code/internal/integrations/manager.go:82-135 | For every interleaving the finished map has exactly the integrations' names, each with the data or the error record of an integration of that name, and with distinct names its own. |
| Collector.NeverStuck | agent-source-code/internal/integrations/manager.go:96-133 | Whatever has happened, some unfinished goroutine can go on. |
| Collector.AlwaysFinishes | agent-source-code/internal/integrations/manager.go:96-133 | No run is longer than four steps per goroutine, and the runs of that length are those in which all have finished. |

## Left out

- Express, Prisma, SQL, Redis and BullMQ clients, tokens, password hashing, single sign-on: their state is a map, a field or a parameter of the model.
- Audit and log output, response texts, and the request validation before the modelled handlers.
- Lockout: requests about one identifier that overlap; each request starts after the one before has recorded its result, and the two-instant gap within a request is kept.
- Admins: concurrent requests, between whose count and write another request could come; creating the first administrator and resetting passwords.
- Kernel: rpm, asking dpkg about meta-packages, and running the commands; strings compare by code point, which is byte order on valid UTF-8.
- Winget: running winget, the query for available upgrades, and stripping a trailing ellipsis; lower-casing is a function on characters that maps ASCII letters as ASCII, and text is valid UTF-8.
- Scheduler.ComputeNextRun: does not model the five cron fields, the time zone and minutes in local time, which are one predicate on minutes, because the time-zone tables are not part of this model.
- Scheduler: creating jobs and notifying agents, which either succeed or fail.
- Dashboard: the order in which the database returns users and rows.
- Quota: the rest of the host record; creating a host or its membership either succeeds or fails.
- Ingest: the finding, actual, expected and remediation texts of a row; rounding of quotients to the nearest double, which `toFixed(2)` of the score could show only next to the bounds of ScoreInRangeIff; the range of a score sent by the agent, which is not checked; names inherited by JavaScript object literals.
- ComplianceDashboard: averages, worst hosts, recent scans and the severity queries; the order of the keys of an object.
- RuleListing: the filters of the queries; comparators that are not consistent give an order the language leaves open.
- Cidr: IPv6 other than the mapped prefix; the copy of these functions in the auto-enrolment routes is the same code.
- FileUnchangedIff: does not cover files that continue an empty Types or Components field, because a repository lost in one paragraph can then be given by another; each paragraph is decided by ParagraphUnchangedIff.
- AptLine, Deb822, RepoFile: reading files line by line with its length limit, and the names generated for repositories, which are a function of the parts.
- LogBuffer: time stamps, log levels, and the conversion of field values to text; each method runs under the lock, so calls do not overlap.
- Sanitize: invalid UTF-8, and the map variant.
- Collector: what an integration collects, execution times, and looking up integrations by name.
- Hardware, network and process information, the web front end, the setup scripts and the diagnostics.
