# Verified models of EVE core logic

A Dafny model of five parts of EVE and proofs about it: the attestation state machine of
`pillar`, the Alpine package resolver and migrator, the `newlog` pipeline (collecting,
deduplicating, counting, compressing, evicting and measuring logs), the memory-pressure (PSI)
statistics file, and the TPM event log of `measure-config`.

`dafny verify dfyconfig.toml` checks all of it.

## How the model is built

Code that changes state step by step is a class or a method with loops, and each method is
proved equal to a specification function (`Context.EnterEventLoop` equals `Run`,
`CheckKeepQuota` equals `Checked`, and so on). The promises are then lemmas about those
functions, for every input, every schedule or every run. Beside them stand lemmas that say
what a specification function computes without naming its parts: in bytes, characters and
numbers, or field by field. Concurrency is modelled as a schedule
of atomic steps in which the environment picks what happens next. Integer widths are written
out where the source has them: the 32-bit quota product and file sizes, the 64-bit byte
counters, the 32-bit event size.

| file | models |
|---|---|
| `AttestMachine`, `AttestContext`, `AttestSafety`, `AttestPace`, `AttestProgress`, `AttestStuck` | the attestation state machine: specification, the object and its handlers, invariants over all runs, pace, progress, and when it is stuck |
| `AlpineIndex`, `AlpineText`, `AlpineResolve`, `AlpineEntries`, `AlpineMigrate`, `AlpineAgain` | package indexes and their text, recursive dependency resolution, filing and classifying by branch and architecture, migrating again |
| `LogWriter`, `Rotation`, `LogNames`, `LogEntries`, `Counter`, `Dedup`, `Compress`, `SplitPoints`, `Stages`, `GzipSizes`, `Quota`, `QuotaOrder`, `DevMetrics` | the log pipeline |
| `PsiStats`, `PsiCollector`, `PsiThreshold`, `PsiRewrites` | the statistics file, the collector loop, its threshold, and how often the file is rewritten |
| `EventLog`, `MeasureConfig`, `MeasureBytes`, `MeasureLog` | the binary event log, its decoder, what is measured, byte by byte, and what the log says of it |
| `Common`, `Ring`, `Sorting` | what several models share: options, limits, monotone multiplication, the ring buffer and the string sort |

## What the code promises, and where it does not

These are results about the code as it is, each with the exact condition and an input that fails:

- A restart delivered while the attestation machine is in `StateNone` leaves a fatal dispatch
  one event away, and nothing else does (`FatalExactlyAfterRestartInNone`); a run from the
  start gets there after a retry timer (`FatalRun`).
- A machine that has lost its driver, by `ErrNoVerifier`, an unknown error or a zero retry
  time, never moves again, although comments in the handlers expect a restart to free it
  (`StrandedForEver`, `StrandedExactly`, `StrandedRun`).
- A machine that waits for escrow data is stuck until data is published again exactly when no
  escrow event is in flight (`EscrowAwaitedExactly`), and data published too early is lost
  (`EscrowWakeupLost`).
- The deduplicator forgets a key that is still in its window when an older copy leaves it
  (`ForgottenInWindow`, exactly in `WindowRuleExactly`).
- Counts reach the output only under a condition (`CountReachesOutputExactly`): deduplication
  runs after counting and can drop the entry that carries the count (`CountLostToDedup`), and a
  count tag an entry already has is passed on (`OldTagMisread`).
- The configured log quota is the one enforced only up to 4294 megabytes
  (`LimitExactUpTo4294`), and every directory whose turn comes after the limits have been met
  still loses one file (`LaterLoseOne`).
- Alphabetical order of two file keys is age order exactly when the older number is at most the
  leading digits of the newer one (`AgeOrderExactly`): always for numbers of one length, but
  not for 9 and 10 (`AgeOrderFails`).
- The open-file policy flag is right in exactly the runs without a late announcement of a
  domain (`PolicyFollowedExactly`, `LateAnnouncementRun`).
- When the statistics file has exactly as many lines as are kept, its old header is kept as a
  data line (`OldHeaderKeptExactly`, `SecondHeaderRun`). A comment in the source gives the
  initial threshold as 8.57 MB; the constants multiply to 6.48 MB, and the model follows the
  constants.
- The threshold is adapted so that the file is not truncated on every tick. A tick right after
  one that trims trims again exactly when what is kept fits under the threshold and one more
  line reaches it (`TrimsAgainExactly`), and some run does so on every tick
  (`RewritesEveryTick`).
- Migrating the produced lists again changes them exactly when some architecture finds a package
  in the pooled lists that it did not need itself (`SecondMigrationExactly`,
  `NeededElsewhere`).
- Paths longer than 512 bytes are measured by base name (`LongPathsCollide`,
  `ShippedListsCollide`). The log determines what was recorded of every path
  (`LogDecidesRecords`), and it tells two configurations apart exactly when runs with the same
  records are over the same paths (`LogDecidesConfigExactly`).

## Model

| member | source | states |
|---|---|---|
| `AttestContext.TableMeaning` | pkg/pillar/attest/attest.go:167-195 | The transition table, read by event and state with its wildcard row, gives every event its reaction, a fatal one exactly where no row matches, and a wait before the restart for every refusal of quote or escrow |
| `AttestContext.Context.constructor` | pkg/pillar/attest/attest.go:140-151 | A new context is in StateNone with nothing pending, armed or in flight |
| `AttestContext.Context.StartNewRetryTimer` | pkg/pillar/attest/attest.go:239-249 | Replaces the timer; a zero retry time stops it and starts none |
| `AttestContext.Context.HandleInitializeAtNone` | pkg/pillar/attest/attest.go:252-272 | Asks for a nonce and follows up its answer: next event, retry timer, or waiting |
| `AttestContext.Context.HandleNonceRecvdAtNonceWait` | pkg/pillar/attest/attest.go:281-295 | Asks for a quote; success leaves one quote owed |
| `AttestContext.Context.HandleInternalQuoteRecvdAtInternalQuoteWait` | pkg/pillar/attest/attest.go:297-325 | Sends the quote and follows up every kind of answer |
| `AttestContext.Context.HandleAttestSuccessfulAtAttestWait` | pkg/pillar/attest/attest.go:327-353 | Sends the escrow data and follows up every kind of answer |
| `AttestContext.Context.HandleAttestEscrowRecordedAtAttestEscrowWait` | pkg/pillar/attest/attest.go:355-363 | Complete, unless a restart is pending, which is then waited for |
| `AttestContext.Context.HandleInternalEscrowRecvdAtAnyOther` | pkg/pillar/attest/attest.go:408-423 | Escrow data matters only to a machine that waits for it |
| `AttestContext.Context.DespatchEvent` | pkg/pillar/attest/attest.go:462-480 | Dispatching through the table and the handlers is the specified transition; a refused quote or escrow ends in StateRestartWait with the timer armed exactly if there is a retry time |
| `AttestContext.Context.EnterEventLoop` | pkg/pillar/attest/attest.go:490-513 | The object driven by any schedule reaches the specified state of that run |
| `AttestContext.Attest` | pkg/pillar/attest/attest.go:140-216 | A context made, kick-started and driven by any schedule reaches the state of that run from the start |
| `AttestSafety.AlwaysOneDriverNeverFatal` | pkg/pillar/attest/attest.go:198-249 | In every run without a restart delivered in StateNone, whatever the errors and the escrow events, there is at most one of in-flight self event, armed timer and owed quote, it fits the state, and no fatal dispatch can come next |
| `AttestSafety.StepKeepsSingleDriver` | pkg/pillar/attest/attest.go:252-460 | Every step keeps the single driver and says which driver comes next |
| `AttestSafety.FatalExactlyAfterRestartInNone` | pkg/pillar/attest/attest.go:462-480 | Of all next steps of a calm run, exactly a restart delivered in StateNone leaves a fatal dispatch one delivery away |
| `AttestSafety.CompleteOnlyAfterHandshake` | pkg/pillar/attest/attest.go:252-363 | A calm run that is in StateComplete has, since it last left StateNone, a successful nonce request, a successful quote request, its quote, a successful send of the quote and a successful send of escrow data, in this order |
| `AttestSafety.PhaseAlwaysFits` | pkg/pillar/attest/attest.go:252-460 | In every reachable state the driver fits how far the current round has come, so no event of an earlier round can stand in |
| `AttestSafety.EscrowedIsHandshake` | pkg/pillar/attest/attest.go:327-363 | A round observed up to the escrow step contains the whole handshake in order |
| `AttestSafety.CompleteOwesNoRestart` | pkg/pillar/attest/attest.go:355-375 | No dispatch in any run ends complete with a restart pending |
| `AttestSafety.RestartRemembered` | pkg/pillar/attest/attest.go:371-375 | A restart owed stays owed through any run until a nonce request is sent |
| `AttestSafety.RestartNotForgotten` | pkg/pillar/attest/attest.go:365-375 | Between a dispatched restart and the next complete state a nonce request is sent |
| `AttestSafety.StrandedForEver` | pkg/pillar/attest/attest.go:297-353 | A machine without a driver that is neither complete nor waiting for escrow data keeps its state through every run |
| `AttestProgress.BoundedProgress` | pkg/pillar/attest/attest.go:167-195 | A run with a retry time, recoverable failures only and no restart in StateNone that is not complete yet has made fewer than 5 + 6 failures + 7 restarts dispatches, and something still drives it unless it waits for escrow data |
| `AttestProgress.ProgressBoundIsTight` | pkg/pillar/attest/attest.go:252-460 | For every number of failures and restarts some run needs every dispatch the bound allows |
| `AttestProgress.CompletesAtTheBound` | pkg/pillar/attest/attest.go:252-460 | For every number of failures and restarts some calm run completes with exactly 5 + 6 failures + 7 restarts dispatches |
| `AttestProgress.StepPays` | pkg/pillar/attest/attest.go:252-460 | A dispatch lowers the rank by one, a failure raises it by at most six, a restart by at most seven |
| `AttestStuck.StrandedExactly` | pkg/pillar/attest/attest.go:239-249 | Under the single-driver invariant, no continuation leaves the state exactly when the machine is stranded |
| `AttestStuck.EscrowAwaitedExactly` | pkg/pillar/attest/attest.go:399-430 | A machine waiting for escrow data stays where it is in every continuation without a new publication exactly when no escrow event is in flight |
| `AttestStuck.EscrowWakeupLost` | pkg/pillar/attest/attest.go:408-430 | A calm run from the start publishes escrow data before the no-escrow event is dispatched and then waits for it for ever, unless data is published again |
| `AttestStuck.FatalRun` | pkg/pillar/attest/attest.go:198-229 | In a second round, after a retry timer, a restart request overtakes the initial event and a run from the start ends in the fatal dispatch |
| `AttestStuck.StrandedRun` | pkg/pillar/attest/attest.go:252-272 | A run from the start is stranded by a missing verifier at the nonce request, and the restart delivered afterwards is noted and does not free it |
| `AttestPace.RoundsApart` | pkg/pillar/attest/attest.go:377-443 | In every calm run from the start, whatever the answers, the retry timer has fired between any two steps that leave StateNone for StateNonceWait |
| `AttestPace.StepKeepsNoRetryDue` | pkg/pillar/attest/attest.go:432-443 | As long as the timer does not fire, no step of a round under way starts it over |
| `AttestPace.RestsExactly` | pkg/pillar/attest/attest.go:355-397 | The machine enters StateRestartWait exactly on a mismatched nonce or quote or a missing certificate after the quote, on a refused escrow, on a recorded escrow with a restart pending and on a restart when complete; then only the event is used up and the timer runs exactly if there is a retry time |
| `AttestPace.StartsOverExactly` | pkg/pillar/attest/attest.go:432-443 | StateNone is entered exactly on an expired timer in StateRestartWait, which settles a pending restart, or in StateNonceWait, which does not; one initial event is then on its way |
| `AttestPace.CompletesExactly` | pkg/pillar/attest/attest.go:355-363 | StateComplete is entered exactly on a recorded escrow with no restart pending |
| `AttestPace.AwaitsEscrowExactly` | pkg/pillar/attest/attest.go:425-430 | StateInternalEscrowWait is entered exactly when there is no escrow data to send |
| `AttestPace.NonceAsked` | pkg/pillar/attest/attest.go:252-279 | Leaving StateNone: the whole machine after each answer to the nonce request |
| `AttestPace.QuoteAsked` | pkg/pillar/attest/attest.go:281-295 | The whole machine after each answer of the TPM agent, on a nonce and on a retry |
| `AttestPace.QuoteSent` | pkg/pillar/attest/attest.go:297-325 | The whole machine after each answer to the quote, on the quote and on a retry |
| `AttestPace.EscrowSent` | pkg/pillar/attest/attest.go:327-353 | The whole machine after each answer to the escrow data, on success, on a retry and on new escrow data |
| `AttestPace.RestartNoted` | pkg/pillar/attest/attest.go:371-375 | A restart of a round under way sets the flag and nothing else |
| `AttestPace.EscrowDropped` | pkg/pillar/attest/attest.go:408-423 | Escrow data nobody waits for changes nothing |
| `AttestPace.DiesExactly` | pkg/pillar/attest/attest.go:462-480 | The machine dies exactly of an event its state does not expect |
| `AlpineIndex.StripVersion` | tools/alpine-tools/alpine_index.py:387-409 | The longest prefix without a comparison character |
| `AlpineIndex.ParseEntry` | tools/alpine-tools/alpine_index.py:241-305 | One entry's name, dependencies and provided names as the last line of each kind gives them |
| `AlpineText.EntryReadsBack` | tools/alpine-tools/alpine_index.py:279-305 | An entry's last lines for name, dependencies and features are read back as they were written, whatever else it says and whatever blanks follow, with busybox for /bin/sh |
| `AlpineText.WordsOfJoined` | tools/alpine-tools/alpine_index.py:292-301 | Splitting at blanks undoes joining with them |
| `AlpineText.FieldExactly` | tools/alpine-tools/alpine_index.py:289-301 | A field is the text of the last line of its kind |
| `AlpineText.EntryWithout` | tools/alpine-tools/alpine_index.py:279-305 | An entry without such lines has no name, dependencies or features |
| `AlpineIndex.ParseApkIndex` | tools/alpine-tools/alpine_index.py:241-319 | The loop over entries builds the specified index, in which every provider is an index member |
| `AlpineIndex.RepoIsWellFormed` | tools/alpine-tools/alpine_index.py:307-317 | Every provider list of a parsed index is non-empty and names indexed packages |
| `AlpineIndex.IndexHoldsLastEntry` | tools/alpine-tools/alpine_index.py:307-317 | A name is indexed exactly if an entry has it, and as the last such entry |
| `AlpineIndex.FirstProvider` | tools/alpine-tools/alpine_index.py:307-317 | A virtual name has providers exactly if some entry provides it, and the first such entry is the first provider |
| `AlpineIndex.MergeProviders` | tools/alpine-tools/alpine_index.py:363-381 | The merge loop, in any order, appends all providers of the second branch to those of the first |
| `AlpineIndex.LastBranchWins` | tools/alpine-tools/alpine_index.py:363-381 | A merged index has a package exactly if some branch has it, and it is the one of the last such branch |
| `AlpineIndex.FirstBranchProvides` | tools/alpine-tools/alpine_index.py:363-381 | In a merged index the providers of a name start with those of the first branch that has any |
| `AlpineIndex.MergeBranches` | tools/alpine-tools/alpine_index.py:363-381 | Branches merged in order stay well formed; the result is non-empty exactly if some branch is |
| `AlpineIndex.MergedIsWellFormed` | tools/alpine-tools/alpine_index.py:363-381 | Merging keeps every provider an index member |
| `AlpineResolve.ResolveDependencies` | tools/alpine-tools/alpine_index.py:412-521 | On any index, cycles included, terminates and adds exactly the packages reachable from the root around those already resolved, exactly their unresolvable names plus an unknown root to the missing ones, and one sighting each; what is reached and what is missing is pinned to the text of the entries by the `AlpineEntries` rows below |
| `AlpineResolve.ResolveDependency` | tools/alpine-tools/alpine_index.py:497-521 | The same for one dependency: conflicts skipped, virtual names by first provider, others directly, as `AlpineEntries.DependencyInWords` spells out |
| `AlpineResolve.ExploredExactly` | tools/alpine-tools/alpine_index.py:412-521 | Whatever set is closed off by the resolved packages and connected to the root is the set of reachable packages |
| `AlpineResolve.FromClosedSet` | tools/alpine-tools/alpine_index.py:412-521 | From a set closed under dependencies, resolving adds the full closure of the root and leaves the set closed |
| `AlpineEntries.DependencyInWords` | tools/alpine-tools/alpine_index.py:497-521 | In any index: a dependency with a leading ! leads nowhere and leaves nothing missing; one whose name starts with so:, cmd: or pc: leads to the first provider of that name; any other to the package of that name; and otherwise the name is missing |
| `AlpineEntries.EdgeExactly` | tools/alpine-tools/alpine_index.py:497-521 | A package depends on exactly the packages that the text of its last entry's dependencies and of all entries' features gives |
| `AlpineEntries.MissingExactly` | tools/alpine-tools/alpine_index.py:497-521 | It leaves exactly those names missing that no entry has or provides |
| `AlpineEntries.VirtualBringsProvider` | tools/alpine-tools/alpine_index.py:507-514 | A dependency on a shared library, command or pkg-config module that some entry provides brings in the first such entry and is not missing |
| `AlpineEntries.ConflictsAddNothing` | tools/alpine-tools/alpine_index.py:500-503 | A package with conflicts only brings in nothing else and leaves nothing missing |
| `AlpineEntries.RootExactly` | tools/alpine-tools/alpine_index.py:464-495 | A requested name stands for the package of that name or else for the first entry that provides it |
| `AlpineEntries.ProviderExactly` | tools/alpine-tools/alpine_index.py:307-317 | A feature provides a name exactly if it is that name or that name and a version after = |
| `AlpineMigrate.ResolveForArch` | tools/alpine-tools/alpine_migrate.py:90-124 | For any order of the inputs, an architecture's packages are the closure of all inputs and its missing names exactly the unresolvable ones |
| `AlpineMigrate.OrganizeByBranch` | tools/alpine-tools/alpine_migrate.py:138-149 | Files every package under its own branch; fails exactly if some package is of an unknown branch |
| `AlpineMigrate.ResolveAllPackages` | tools/alpine-tools/alpine_migrate.py:90-149 | All architectures resolved and filed by branch, with the sightings exactly theirs and the missing names filed under main; an error exactly if some closure has a package of an unknown branch |
| `AlpineMigrate.ClassifyBranch` | tools/alpine-tools/alpine_index.py:846-911 | Common are exactly the packages seen on every architecture; the others are listed for exactly the architectures they were seen on |
| `AlpineMigrate.CommonExactly` | tools/alpine-tools/alpine_index.py:846-911 | A package is classified common exactly if every architecture's closure has it in that branch |
| `AlpineMigrate.Migrate` | tools/alpine-tools/alpine_migrate.py:236-250 | The whole pass: classified lists for every architecture and branch and the missing names, all under main, or a failure exactly for a package of an unknown branch |
| `AlpineMigrate.ListsGiveClosure` | tools/alpine-tools/alpine_migrate.py:236-250 | For every architecture the common and own lists of all branches together are its closure of the inputs; they are disjoint within a branch and across branches |
| `AlpineMigrate.StraysExactly` | tools/alpine-tools/alpine_migrate.py:138-149 | A package fails the migration exactly if its branch is neither main nor community |
| `AlpineMigrate.BranchesByName` | tools/alpine-tools/alpine_migrate.py:98-149 | Both branches get their lists; under main every architecture has exactly its missing names, under community none |
| `AlpineAgain.ClosureIsLeast` | tools/alpine-tools/alpine_index.py:412-521 | The closure of the inputs is the least set closed under dependencies that has them |
| `AlpineAgain.ClosureIdempotent` | tools/alpine-tools/alpine_index.py:412-521 | Resolving a closure gives the same closure |
| `AlpineAgain.SameClosureExactly` | tools/alpine-tools/alpine_migrate.py:236-250 | Resolving a pool that holds a closure gives that closure exactly if every name of the pool stands for a package already in it |
| `AlpineAgain.SecondMigrationExactly` | tools/alpine-tools/alpine_migrate.py:236-250 | Migrating the pooled lists again with the same indexes leaves every list as it is exactly if no architecture finds a package in the pool that it did not need |
| `AlpineAgain.NeededElsewhere` | tools/alpine-tools/alpine_migrate.py:236-250 | A package only one architecture needs is new to the other the second time |
| `PsiStats.BigFileHasLines` | pkg/pillar/agentlog/memprofile.go:343-345 | A file over the threshold has lines, so the division by their number is safe and the average positive |
| `PsiStats.OldHeaderKeptExactly` | pkg/pillar/agentlog/memprofile.go:317-390 | The old header stays in the file as data exactly if as many lines were read as are kept |
| `PsiStats.FillRing` | pkg/pillar/agentlog/memprofile.go:317-332 | The ring holds the last lines read |
| `PsiStats.StatFile.ManageStatFileSize` | pkg/pillar/agentlog/memprofile.go:291-390 | Below the threshold nothing changes; above it and with more lines than are kept, the file becomes the header and exactly the last lines in order; an average reported is the mean line of the file as it was |
| `PsiStats.ReportsMean` | pkg/pillar/agentlog/memprofile.go:343-345 | The average reported times the lines read is at most the size of the file, and short of it by less than a byte a line |
| `PsiThreshold.TooHighExactly` | pkg/pillar/agentlog/memprofile.go:295-298 | The arguments are refused exactly if the lines to keep at 54 bytes each and the header exceed the threshold |
| `PsiThreshold.RewrittenExactly` | pkg/pillar/agentlog/memprofile.go:300-384 | A file of any lines is rewritten exactly if it has reached the threshold and has the lines to keep, to the header and those lines |
| `PsiThreshold.ReportsExactly` | pkg/pillar/agentlog/memprofile.go:338-390 | An average is reported exactly if the file had reached the threshold and has too few lines to trim or is over it still |
| `PsiThreshold.SizeIsBytes` | pkg/pillar/agentlog/memprofile.go:300-313 | The size is the number of bytes of the file's text, newlines included |
| `Ring.RingGivesLast` | pkg/pillar/agentlog/memprofile.go:347-384 | A full ring read once round from its next slot gives the last items, oldest first |
| `PsiCollector.Collector.Tick` | pkg/pillar/agentlog/memprofile.go:246-275 | Trims, adapts the threshold to the average line and appends, or stops on the guard |
| `PsiCollector.MemoryPSICollector` | pkg/pillar/agentlog/memprofile.go:212-281 | The loop over any sequence of ticks is the specified run |
| `PsiCollector.HeaderSize` | pkg/pillar/agentlog/memprofile.go:22-24 | The header line the bounds are stated for is the one written |
| `PsiCollector.AverageCovers` | pkg/pillar/agentlog/memprofile.go:230-262 | A day of average lines is room for the file the average was taken from and a thousand bytes more |
| `PsiCollector.FileAlwaysBounded` | pkg/pillar/agentlog/memprofile.go:230-262 | In every run with data lines of 54 to 104 bytes the guard never fires and after each adjustment the file is at most the threshold, itself at most 104 bytes a line for a day |
| `PsiThreshold.AdaptsExactly` | pkg/pillar/agentlog/memprofile.go:248-262 | A tick sets the threshold to a day of lines of the file's mean size, rounded down to a byte, exactly if the file has reached it and cannot be trimmed below; otherwise it leaves it alone |
| `PsiThreshold.ThresholdAlwaysMean` | pkg/pillar/agentlog/memprofile.go:230-262 | In every run of lines of normal size the threshold is 6480000 bytes if no tick found the file too big, and else a day of mean lines of the file as the last such tick found it |
| `PsiThreshold.GivesUpExactly` | pkg/pillar/agentlog/memprofile.go:246-252 | With the real header a collector gives up exactly on a threshold below 4471292 bytes |
| `PsiCollector.KeepsLatestLines` | pkg/pillar/agentlog/memprofile.go:246-390 | At any time the file is the header, at most one old header, and the latest data lines in order with none missing |
| `PsiCollector.SecondHeaderRun` | pkg/pillar/agentlog/memprofile.go:246-390 | Some run of lines of normal size ends with the header twice in the file |
| `PsiRewrites.TrimsAgainExactly` | pkg/pillar/agentlog/memprofile.go:246-262 | The tick after one that trims trims again exactly if what is kept fits under the threshold and one more line reaches it |
| `PsiRewrites.RewritesEveryTick` | pkg/pillar/agentlog/memprofile.go:246-262 | In some run of lines of normal size every tick from the first full file on rewrites the file |
| `Dedup.SeenExactly` | pkg/newlog/cmd/dedup.go:48-66 | The map of seen keys holds a key exactly if no copy of it was evicted since its last occurrence was recorded |
| `Dedup.SameKeyExactly` | pkg/newlog/cmd/dedup.go:36-46 | Two entries have the same key exactly if they share the message in their JSON content or, without one, the content; only an entry without content has the empty key |
| `Dedup.WindowRuleExactly` | pkg/newlog/cmd/dedup.go:48-66 | A key last seen inside the window is in the map exactly if no copy of it lies at the positions that were evicted since |
| `Dedup.SeenInWindow` | pkg/newlog/cmd/dedup.go:48-66 | A key in the map is among the last n keys |
| `Dedup.ForgottenInWindow` | pkg/newlog/cmd/dedup.go:57-64 | A key can be in the window and yet not in the map |
| `Dedup.Deduper.DedupLogEntry` | pkg/newlog/cmd/dedup.go:28-67 | Drops an entry exactly if it is an error whose key is remembered; every key enters the ring, dropped or not |
| `Dedup.Deduper.RingIsWindow` | pkg/newlog/cmd/dedup.go:28-67 | The ring read from its current slot is the last n keys, or all keys while there are fewer, oldest first |
| `Counter.CountLogsInFile` | pkg/newlog/cmd/counter.go:27-49 | For every source to count, the number of lines that name it |
| `Counter.StageExactly` | pkg/newlog/cmd/counter.go:54-80 | What counting leaves of a source: everything, nothing, or its first entry tagged with the count |
| `Counter.CountConservedExactly` | pkg/newlog/cmd/counter.go:54-80 | Read from their tags, the entries left of a source represent as many as came in exactly if there were none, they pass unchanged and already did, or the count is right |
| `Counter.PlainEntries` | pkg/newlog/cmd/counter.go:66-69 | Entries that show no count of their own represent their number |
| `Counter.OldTagMisread` | pkg/newlog/cmd/counter.go:66-69 | A single entry that comes with a count tag of 5 is passed on and read as five |
| `Counter.UnfilteredOf` | pkg/newlog/cmd/filter.go:23-30 | Filtering leaves all entries of a source or none |
| `Counter.WellFormedReduces` | pkg/newlog/cmd/counter.go:27-80 | Over well-formed lines a counted source is left with nothing, its one entry as it is, or one entry tagged with its count |
| `Counter.WellFormedConserves` | pkg/newlog/cmd/counter.go:27-80 | What filtering and counting leave represents the occurrences exactly if there are none, or the header line does not name the source and an only entry shows no other count |
| `Counter.TagShowsCount` | pkg/newlog/cmd/counter.go:71-79 | The tag written reads back as the count, whatever tag was there before |
| `LogNames.DeviceKey` | pkg/newlog/cmd/checkKeepQuota.go:71-77 | The key of a device file name is the number it was made with |
| `LogNames.AppKey` | pkg/newlog/cmd/checkKeepQuota.go:71-77 | The key of an app file name is its number, for identifiers without a dot |
| `LogNames.LexIsLeadingDigits` | pkg/newlog/cmd/checkKeepQuota.go:111-118 | A shorter key sorts first exactly if its number is at most that of the longer key's leading digits |
| `LogNames.AgeOrderExactly` | pkg/newlog/cmd/checkKeepQuota.go:111-118 | The keys of two numbers are in age order exactly if the older is at most the newer divided by the power of ten between their lengths, so always for one length |
| `LogNames.AgeOrderFails` | pkg/newlog/cmd/checkKeepQuota.go:111-118 | The key of 9 sorts behind the key of 10 |
| `Stages.LoopIsThreeStages` | pkg/newlog/cmd/doMoveCompressFile.go:95-138 | The one-pass loop over an upload file equals filtering everything, then counting, then deduplicating |
| `Stages.UntouchedExactly` | pkg/newlog/cmd/doMoveCompressFile.go:95-138 | A file not for upload, or one with filter, counter and window all off, keeps exactly its valid lines as they are |
| `Stages.KeysExactly` | pkg/newlog/cmd/doMoveCompressFile.go:113-128 | Every entry that passes counting leaves its key in the window, dropped or not |
| `Stages.NoWindowKeepsCounted` | pkg/newlog/cmd/doMoveCompressFile.go:113-128 | Without deduplication exactly what counting passes on is written |
| `Stages.CountReachesOutputExactly` | pkg/newlog/cmd/doMoveCompressFile.go:58-147 | From a well-formed device file to the lines written: a counted, unfiltered source is represented by its occurrences exactly if it has none; or the header does not name it, an only entry shows no other count, and its first entry is no error whose key has a last earlier position among the survivors before it with no copy evicted since |
| `Stages.OutputOfSource` | pkg/newlog/cmd/doMoveCompressFile.go:113-128 | Of a counted source exactly its first entry is written, tagged if counted more than once, unless that entry repeats a remembered key as an error |
| `Stages.CountLostToDedup` | pkg/newlog/cmd/doMoveCompressFile.go:119-124 | Otherwise the one entry that stands for a whole source can be lost |
| `Compress.SplitConserves` | pkg/newlog/cmd/doMoveCompressFile.go:140-161 | For any behaviour of the compressor, the output files hold the kept lines once each and in order, under consecutive numbers |
| `Compress.SplitCount` | pkg/newlog/cmd/doMoveCompressFile.go:140-147 | The number of output files is one more than the number of kept lines with output so far, footer of 12 and line together at least 50000 bytes |
| `SplitPoints.StartsFileExactly` | pkg/newlog/cmd/doMoveCompressFile.go:140-147 | A kept line is the first line of a file after the first exactly if output so far, footer of 12 and line together are at least 50000 bytes |
| `SplitPoints.NamesExactly` | pkg/newlog/cmd/doMoveCompressFile.go:200-212 | The name of each output, from its kind, the app's identifier and its number |
| `Compress.Compressor.CompressLines` | pkg/newlog/cmd/doMoveCompressFile.go:93-161 | The loop with its counter, ring and writer produces the specified files: one, and one more for each kept line that with 12 bytes of footer might bring the current file to 50000 bytes |
| `Compress.Compressor.DoMoveCompressFile` | pkg/newlog/cmd/doMoveCompressFile.go:36-173 | For any clock reading, backward jumps included, the numbers of all outputs of the process strictly increase, the next call starts above them, and all names given to outputs are distinct; the call adds one file and one more for each kept line that might not fit; a file without a usable header changes nothing |
| `Compress.NameDeterminesNumber` | pkg/newlog/cmd/doMoveCompressFile.go:200-212 | Output names with different numbers differ whatever the identifiers, so no rename replaces an earlier output |
| `GzipSizes.Metrics.CalculateGzipSizes` | pkg/newlog/cmd/doMoveCompressFile.go:241-248 | After every call the maximum is the largest size so far, and the average is at most the maximum and within the error bound of the true mean |
| `GzipSizes.AverageErrorBound` | pkg/newlog/cmd/doMoveCompressFile.go:241-248 | After n files the average is at most the maximum, which is the largest size, never above the true mean and below it by at most (n - 1) / 2 |
| `GzipSizes.ErrorBoundIsTight` | pkg/newlog/cmd/doMoveCompressFile.go:241-248 | The sizes 0, 1, ..., n - 1 reach that error for every n |
| `LogWriter.Writer.GetAppStatsMap` | pkg/newlog/cmd/writelogFile.go:251-270 | Opens an app's file on demand with the current policy and settles a pending move |
| `LogWriter.Writer.CheckLogTimeExpire` | pkg/newlog/cmd/writelogFile.go:186-207 | Moves the files that are too old or whose policy changed, in any order of the map |
| `LogWriter.Writer.HandleDomainStatus` | pkg/newlog/cmd/newlogd.go:448-476 | Records the policy and asks for a move if it changed |
| `LogWriter.Writer.WriteLogFile` | pkg/newlog/cmd/writelogFile.go:155-183 | The writer driven by any sequence of lines, ticks and domain updates reaches the specified state |
| `LogWriter.RotationConservesLines` | pkg/newlog/cmd/writelogFile.go:364-427 | For every stream and every run, the lines of moved files followed by those of the open file are the lines received, in order |
| `LogWriter.SizesAlwaysRight` | pkg/newlog/cmd/writelogFile.go:300-315 | Between steps every open file's recorded size is its data bytes and below the maximum, and so is every moved file's recorded size its data bytes |
| `LogWriter.SizeRecordedExactly` | pkg/newlog/cmd/writelogFile.go:300-315 | A write records the right size exactly if the sum fits 32 bits |
| `LogWriter.StepKeepsFlagsExactly` | pkg/newlog/cmd/newlogd.go:448-489 | A step keeps every open file's flag equal to the policy, unless a move is pending, exactly if it is not a late announcement |
| `LogWriter.PolicyFollowedExactly` | pkg/newlog/cmd/newlogd.go:448-489 | The flags are right throughout a run exactly if it has no late announcement |
| `LogWriter.LateAnnouncementRun` | pkg/newlog/cmd/newlogd.go:448-476 | A domain announced after its app has logged leaves the open file with the wrong flag and no move pending |
| `LogWriter.TickSettlesPolicy` | pkg/newlog/cmd/writelogFile.go:193-206 | After a timer tick no open file has a flag that differs from the policy |
| `Rotation.AppLineMovesExactly` | pkg/newlog/cmd/writelogFile.go:165-171 | An app's line goes to its open file, or to a new one by the policy, and that file is handed over with all its lines exactly if it now has 550000 bytes |
| `Rotation.UploadLineMovesExactly` | pkg/newlog/cmd/writelogFile.go:173-176 | The device file for upload is handed over with all its lines exactly if a line brings it to 550000 bytes, and an empty one takes its place |
| `Rotation.KeepLineMovesExactly` | pkg/newlog/cmd/writelogFile.go:178-181 | The same for the device file that is kept |
| `Rotation.TickMovesExactly` | pkg/newlog/cmd/writelogFile.go:186-207 | A tick hands over the device file exactly if it is too old and not empty, and of the app files it looks at exactly those that are too old and not empty or have a move pending, which it settles, in any order and however often it looks |
| `Rotation.OpeningSettlesExactly` | pkg/newlog/cmd/writelogFile.go:251-270 | Opening a file settles a pending move of its app and changes no other domain |
| `Rotation.PolicyChangeExactly` | pkg/newlog/cmd/newlogd.go:448-476 | A move is pending after an announcement exactly if the domain was known and its policy changes or a move was pending |
| `Rotation.DeletionExactly` | pkg/newlog/cmd/newlogd.go:478-489 | A deleted domain is forgotten and no file is touched |
| `Rotation.IndexAlwaysCounts` | pkg/newlog/cmd/writelogFile.go:300-315 | In every run the index of a device file is the number of lines received for it, across rotations, and that of an app file the number of its own |
| `Quota.CheckDirGZFiles` | pkg/newlog/cmd/checkKeepQuota.go:31-82 | The keys, the total size and the index of a directory |
| `Quota.CheckKeepQuota` | pkg/newlog/cmd/checkKeepQuota.go:85-158 | The listing and the two nested loops, with a break of the inner one only, reach the specified state; up to 4294 megabytes that leaves everything alone within a million bytes and twenty files a megabyte, and else gets below both or runs out of files |
| `Quota.QuotaMet` | pkg/newlog/cmd/checkKeepQuota.go:85-158 | A check that starts over the quota ends under both limits or has removed every removable file its key stands for; the totals are the initial ones less what was removed, and nothing else left the disk |
| `Quota.QuotaInNumbers` | pkg/newlog/cmd/checkKeepQuota.go:85-158 | For a limit of n up to 4294: nothing is removed if all files have at most 1000000 n bytes and at most 20 n have a key; otherwise the totals end below both or every removable file its key stands for is gone |
| `Quota.QuotaInNumbersWrapped` | pkg/newlog/cmd/checkKeepQuota.go:85-158 | The same for every limit, with the product cut to 32 bits and a file for every 50000 bytes of it |
| `Quota.LimitsInNumbers` | pkg/newlog/cmd/checkKeepQuota.go:86-112 | What is over and under a limit in bytes and files |
| `Quota.TotalsInNumbers` | pkg/newlog/cmd/checkKeepQuota.go:106-107 | The check counts all bytes of the four directories and all files whose name gives a key |
| `Quota.QuotaMetOrEmptied` | pkg/newlog/cmd/checkKeepQuota.go:85-158 | If no two files share a key, a check that starts over the quota ends under both limits or with every keyed file gone that can be removed |
| `Quota.PurgeExactly` | pkg/newlog/cmd/checkKeepQuota.go:115-154 | A directory loses a prefix of its removable files in key order, up to the first removal that meets the limits |
| `QuotaOrder.EachDirectoryLoses` | pkg/newlog/cmd/checkKeepQuota.go:85-158 | With no key twice, the files removed by a whole check are, directory by directory, the shortest nonempty prefix of its own removable files in key order that brings the totals under the limits, or all of them; totals and disk change by exactly these |
| `QuotaOrder.DirectoryLosesOldest` | pkg/newlog/cmd/checkKeepQuota.go:113-118 | With numbers of one length for keys, a directory loses its oldest removable files, oldest first, and every one kept is newer |
| `QuotaOrder.LaterLoseOne` | pkg/newlog/cmd/checkKeepQuota.go:150-152 | In a whole check, every directory after the limits are met loses one file, or none if it has none to lose |
| `Quota.OverRemovalExactly` | pkg/newlog/cmd/checkKeepQuota.go:150-152 | Once the totals are under the limits a later directory loses its first removable file and no other |
| `Quota.PurgeAllConserves` | pkg/newlog/cmd/checkKeepQuota.go:115-154 | Across directories the totals are the initial ones less the removed files |
| `Quota.IndexedExactly` | pkg/newlog/cmd/checkKeepQuota.go:71-77 | A file is reachable by its key exactly if no later file has the same key |
| `Quota.NumbersGiveKeys` | pkg/newlog/cmd/checkKeepQuota.go:71-77 | Device and app files, for upload or not, have a key, and share one exactly if they share the number they are named after |
| `Quota.LimitExactUpTo4294` | pkg/newlog/cmd/checkKeepQuota.go:86 | The 32-bit product is the configured limit exactly up to 4294 megabytes |
| `DevMetrics.RankByInputCount` | pkg/newlog/cmd/metrics.go:19-39 | For any order of the map, every source once with its bytes, the largest first |
| `DevMetrics.Stats.UpdateDevInputlogStats` | pkg/newlog/cmd/writelogFile.go:521-531 | Keeps the per-source bytes adding up to what was written since the last report |
| `DevMetrics.Stats.GetDevTop10Inputs` | pkg/newlog/cmd/metrics.go:43-59 | Reports ten sources or all, none outranked by one left out, with shares that add up to at most 100 for an interval below 2^64 bytes, and starts over |
| `DevMetrics.SharesAtMost100` | pkg/newlog/cmd/metrics.go:48-56 | The truncated percentages of any report add up to at most 100 |
| `DevMetrics.SumOfRemove` | pkg/newlog/cmd/metrics.go:19-28 | The sum over a map does not depend on the order it is walked in |
| `EventLog.MarshalHa` | pkg/measure-config/src/measurefs.go:123-133 | The buffer is filled exactly with the encoded digest |
| `EventLog.MarshalDigests` | pkg/measure-config/src/measurefs.go:96-113 | The buffer is filled exactly with the count and the digests in order |
| `EventLog.MarshalEvent` | pkg/measure-config/src/measurefs.go:66-90 | The buffer is filled exactly with the encoded event, each part at its offset |
| `EventLog.SizeDigests` | pkg/measure-config/src/measurefs.go:115-121 | The size loop gives the length of the encoding |
| `EventLog.SizeEvent` | pkg/measure-config/src/measurefs.go:92-94 | The size is the length of the encoding |
| `EventLog.WriteLog` | pkg/measure-config/src/measurefs.go:350-360 | The log is the encodings of the events one after the other |
| `EventLog.EventRoundTrip` | pkg/measure-config/src/measurefs.go:66-137 | A decoder for the TCG layout reads a well-formed event back from the front of any bytes |
| `EventLog.LogRoundTrip` | pkg/measure-config/src/measurefs.go:350-360 | It reads back the whole list of events |
| `EventLog.LogCanonical` | pkg/measure-config/src/measurefs.go:66-137 | Whatever decodes is the encoding of what it decodes to, and that is well formed |
| `EventLog.LogInvertibleExactly` | pkg/measure-config/src/measurefs.go:66-137 | A log decodes back to its events exactly if all counts and lengths in them are right |
| `EventLog.DistinctLogs` | pkg/measure-config/src/measurefs.go:350-360 | Distinct lists of events give distinct logs |
| `MeasureConfig.EventWellFormedExactly` | pkg/measure-config/src/measurefs.go:220-237 | A constructed event is well formed exactly if its data is shorter than 2^32 bytes |
| `MeasureConfig.DataDecides` | pkg/measure-config/src/measurefs.go:190-208 | The event data determines the recorded path, presence and content hash, whatever characters are in the path |
| `MeasureConfig.LongPathsCollide` | pkg/measure-config/src/measurefs.go:190-197 | Long paths with one base name give the same data |
| `MeasureLog.DeepFilesCollide` | pkg/measure-config/src/measurefs.go:190-197 | For any lists, two configurations that differ in such a path give the same log |
| `MeasureLog.ShippedListsCollide` | pkg/measure-config/src/measurefs.go:141-197 | So they do with the lists built in |
| `MeasureConfig.PerformMeasurement` | pkg/measure-config/src/measurefs.go:187-238 | On success the event is made from exactly the data extended into the PCR; fails exactly if the hash, the extend or the read fails |
| `MeasureBytes.RecordedText` | pkg/measure-config/src/measurefs.go:187-208 | The data recorded of a file, from its path or base name, its presence and its content hash |
| `MeasureBytes.EventBytes` | pkg/measure-config/src/measurefs.go:220-237 | The bytes of an event in the log: PCR 14, type 0x80000007, one digest of algorithm 11, the hash, the length and the data |
| `MeasureBytes.LowestFirst` | pkg/measure-config/src/measurefs.go:66-90 | Numbers are written lowest byte first |
| `MeasureBytes.ExtendsExactly` | pkg/measure-config/src/measurefs.go:210-215 | A measurement replaces the register by the hash of its value and the hash of the data |
| `MeasureConfig.GetFileMap` | pkg/measure-config/src/measurefs.go:240-277 | Every file found and every listed file is in the map; content is measured exactly for found files not on the exclude list |
| `MeasureConfig.GetSortedFileList` | pkg/measure-config/src/measurefs.go:279-286 | Every path once, ascending, for any order of the map |
| `MeasureConfig.Measure` | pkg/measure-config/src/measurefs.go:288-324 | One event per path in order, their data being exactly what was extended into the PCR; none exactly if a measurement fails |
| `MeasureConfig.MeasureShipped` | pkg/measure-config/src/measurefs.go:141-171 | The same for the exclude list and the list of dangerous files built in |
| `MeasureBytes.ShippedPaths` | pkg/measure-config/src/measurefs.go:141-171 | The ten paths built in, and the six of them whose content is not measured |
| `MeasureLog.LogDecidesRecords` | pkg/measure-config/src/measurefs.go:288-360 | For paths of any length two runs write the same log exactly if they record the same path and finding at every position |
| `MeasureLog.LogDecidesConfigExactly` | pkg/measure-config/src/measurefs.go:288-360 | That equal logs are the same as the same files with the same measured content, in whatever order the directory is walked, holds exactly if runs with the same records have the same paths |
| `MeasureLog.LogDecidesConfig` | pkg/measure-config/src/measurefs.go:288-360 | So the log determines the configuration if no two different paths of the runs are recorded alike |
| `MeasureLog.ShortPathsToldApart` | pkg/measure-config/src/measurefs.go:190-197 | Paths of at most 512 bytes are never recorded alike |
| `MeasureLog.ShortPathsRecordable` | pkg/measure-config/src/measurefs.go:190-208 | The data of such paths always fits its size field |
| `MeasureLog.LogReplaysToPcr` | pkg/measure-config/src/measurefs.go:210-237 | Decoding the log and replaying its digests gives the value the PCR has reached by the extends |
| `MeasureLog.MeasureAndLog` | pkg/measure-config/src/measurefs.go:338-360 | After a whole run on a fresh PCR, decoding the log written and replaying it gives the value of the PCR |
| `MeasureConfig.Tpm.PCREvent` | pkg/measure-config/src/measurefs.go:210-215 | The PCR stays the value of all data extended into it |
| `Sorting.SortedUnique` | pkg/measure-config/src/measurefs.go:279-286 | There is one ascending arrangement of given strings |

## Left out

- Real gzip, JSON, hashing, file system and clock behaviour: compressed sizes, parsed entries, digests, file listings and clock readings are parameters.
- Data races below the level of one handler or loop body: every step is atomic.
- The TPM device and its hardware PCRs: its answers are parameters, and one SHA-256 PCR is modelled as the value of the digests extended into it.
- Reading and writing package list files, the missing-package report, the source package name and dependency-chain printing of the Alpine tools: output in traversal order or unused by resolution.
- `resolve_and_classify_packages` of the Alpine tools, which by design loses dependencies across branches.
- The routing of log lines to streams, nested app messages, the panic buffer and the remaining metrics of newlog: easy members.
- Edgeview, the Kubernetes updaters, the installer and the other services: not part of this model.
- The conditional send of a restart request: one that finds the channel full is dropped, which is a schedule without it; the schedules here allow every request that is sent to get in.
- GetDevTop10Inputs: an interval of 2^64 bytes or more wraps the 64-bit counters, and the bound of 100 is stated only below that.
- SizesAlwaysRight: lines long enough to overflow a 32-bit size by themselves are excluded, as SizeRecordedExactly shows they must be.
