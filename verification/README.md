# A verified model of gomutants

gomutants is a mutation tester for Go: it makes small changes to a program, runs the program's tests against each, and
reports the changes no test notices. What makes it fast is everything it does not do: it replays verdicts from earlier
runs, runs only the tests that cover a line, shares work among parallel workers, resolves one mutant without parsing the
whole module. What makes it right is that none of this changes an answer. This project models that part of it in Dafny
and proves it, for all inputs, all runs and all interleavings.

- **The cache.** `Framing` and `Hashing` model the byte streams that are hashed and the memoising hasher, `Cache` its
  lookup and update, `CacheHistory` runs over edits and kills, `SaveProtocol` the file on disk, `KeyScope` which files
  are in a mutant's key, `KeyReach` how far that key reaches, `CarryOver` which entries of other runs survive. The main result is
  `CacheHistory.CacheIsTransparent`, and end to end `Checkpointing.RunsAgree`: whatever runs went before, with whatever
  edits and kills between and during them, a run that consults the cache reports what a run without one reports, as long
  as no file of a mutant's key changes between being hashed and the mutant being measured. That condition is exact
  (`CacheHistory.ReplayIsRightExactly`).
- **Testing a mutant.** `Coverage` and `Vetting` build the coverage map and prune it, `Runner` routes a mutant to its
  covering tests and re-checks a survivor, `FlagGuard` is the check of the user's test flags.
- **The machines.** `Pool` and `Tce` are the worker pool and the equivalence pass as transition systems in which every
  send, receive, test, lock, write and cancellation is a step of its own and any order is allowed. `WorkOrder` is the
  order of their work, `Counting` what they conserve. `Checkpointing` runs them one after the other beside the cache.
- **Names of mutants.** `Discovery`, `StableId`, `RelFile` and `ScopedDiscovery` model the order and the numbering of
  candidates, their stable IDs, and the resolution of one ID over narrowed packages.
- **Source text and syntax trees.** `Splice` is editing that keeps tokens apart, `ReturnSites` and `ExcludeCalls` are two
  tree walks, `ReverseClosure` is the search through the import graph.
- `Text`, `Ordering`, `Filtering` and `Mutants` hold what the others share.

## What is taken as given

- A Go string is a sequence of bytes, one `char` each; paths are clean and slash-separated; offsets, line numbers and
  durations do not overflow.
- SHA-256 is an injective function whose digests are free of `|`; its length is not used.
- A verdict is a function of the cache's identity fields, the mutation as its cache key names it, and the contents the key
  covers: files that agree in all of these, relative paths included, are taken to behave alike. For verdicts by the Go
  files of the packages that can run for a mutant, and by what its package embeds, that is proved, over one listing of
  the tree (`KeyReach.FactsDecideVerdict`, `KeyReach.VerdictIsOfFacts`). Compiling does not depend on test files. Edits in packages a mutant's package imports are outside the key by the cache's own design
  (internal/cache/cache.go:773-785), so the oracle does not see them.
- The disk may change at any time. Each lookup and each update is taken to read it at one moment; that a hasher which
  meets it changing hashes as if it stood still is `Hashing.OneDisk` and `Cache.CallsSeeOneDisk`. A measurement sees the
  frozen bytes of the mutated file and finds every other file on disk.
- How `go test` divides the fields behind its own: fields in front of all flags are packages; a flag it knows it takes,
  with or without the next field; one it does not know goes to the test binary, with a next field that does not begin
  with a dash; `-args` is dropped, `--` kept, and either hands over the rest, as does any other field without a dash.
  Which flags either parser knows, and which take a value, is arbitrary, but goes by the flag's name.
- Two calls that do not nest have a byte between them, which holds of every file Go parses.
- A candidate's position may name any file. Paths in stable IDs have no colon, where that IDs are told apart rests on it
  (`ScopedDiscovery.ScopedResolutionIsFull`). A mutant that is tested lies in a file of its package.
- The packages of a run are those of one module, each in the directory its import path names (`CarryOver`).
- JSON gives back what it was given. A temporary file gets a name that is not in use.
- A parsed file's functions, calls and result types are given as lists and trees of spans. Whether two bytes scan as the
  start of one token is an arbitrary predicate, of which only "a space never does" is used (the longest-match rule of
  section "Tokens" of the Go Programming Language Specification).
- Test runs, builds, compiler output, directory listings and file reads are functions the model takes as parameters.

## Where the code and its documentation part

The model follows the code.

- A missing go.sum contributes an empty field to the coverage key, not the digest of empty content
  (internal/cache/cache.go:549-551 and 609-615).
- Entries "outside this run's mutant set" are said to be preserved while their source is unchanged
  (internal/cache/cache.go:893-902). Update joins the project directory with an entry's relative file (line 980), which
  may have lost a package prefix (internal/discover/discover.go:304-315): the entry stays exactly when the packages of
  the run that wrote it do not all lie behind the name of one directory below the module's root
  (`CarryOver.UntouchedCarriedExactly`). A run over internal/a and internal/b alone is forgotten by the next update
  (`CarryOver.PartialRunIsForgotten`, `CarryOver.InternalRunIsForgotten`).
- A test edited during a run "can only turn into a miss on the next run" (internal/cache/cache.go:288-293): not if the
  edit is taken back before then. The verdict measured on the edited test is replayed for the unedited one
  (`CacheHistory.RevertReplays`); a replay is right exactly when the measurement saw what was hashed
  (`CacheHistory.ReplayIsRightExactly`).
- Imports and what test files embed are named as all that is outside the key (internal/cache/cache.go:773-789). What the
  package of another deciding suite embeds is in no digest either (`KeyReach.GoldenFileIsUnkeyed`); which edits change
  the key is `KeyReach.EditShowsExactly`.
- "Every StableID in F starts with F:" (internal/discover/stableid.go:166-177) fails for generated files. Mutators place
  candidates by `fset.Position` (internal/mutator/arithmetic.go:37-42), which follows `//line` directives, so a file's
  mutants can bear another file's name, and narrowing by that name drops the file they are in
  (`ScopedDiscovery.LineDirectiveLosesMutant`). Narrowing changes nothing exactly when every position names the file the
  candidate was found in (`ScopedDiscovery.ScopedResolutionIsFull`).
- Nor is the order of candidates total then (internal/discover/discover.go:243-254): two generated files can put two
  candidates on one place of their source (`Discovery.TwinsAreUnordered`). Discovery is deterministic exactly when no such
  tie shows in the mutants (`Discovery.DiscoveryIsDeterministic`).
- Two files of a run can share a relative file, since the shared prefix is cut from strings and not at path elements:
  exactly when two packages differ by one slash behind the prefix (`RelFile.RelFilesDistinct`, `RelFile.RelFilesCanCollide`).
  Two mutants under one cache key are one entry, the last one's (`Cache.SharedKeyLoses`).
- Freezing the sources keeps what was memoised of any file named `_test.go`, also where a package embeds it as data
  (internal/cache/cache.go:294-305): `Hashing.SnapshotIsOfFrozenBytes` says exactly when the snapshot is of the frozen bytes.
- The flag guard trusts an unconsumed `--` (main.go:452-460). But the go command takes its own flags out and hands the
  rest on (internal/coverage/testmap.go:725-731), so a flag and a `--` that stood apart can become neighbours in the test
  binary's arguments: `-foo -tags=x -- -test.run=X` passes, and where `-foo` takes a value `-test.run` counts
  (`FlagGuard.GuardIsUnsound`). Of accepted fields exactly those with such a gap can override (`FlagGuard.GuardIsSound`).
- The guard also rejects more than it has to (`FlagGuard.GuardIsStrict`), but only where two boundaries stand in a row, a
  field is a lone dash, a field without a dash is neither a package nor a value, or one flag is given twice without a value
  and only once in front of a field that must be its value (`FlagGuard.GuardIsExact`).

## Model

| member | source | states |
|---|---|---|
| CacheHistory.CacheIsTransparent | pipeline.go:605-659 | after any history of runs, kills, and edits between and during them that spare a recorded mutant's key from hashing to measurement, a mutant's status after lookup, testing and detection is the one it has without the cache |
| CacheHistory.ReplayIsRightExactly | internal/cache/cache.go:280-293 | a recorded verdict replays rightly, whatever decides verdicts, exactly when the measurement found the contents that were hashed |
| CacheHistory.RevertReplays | internal/cache/cache.go:288-293 | a test file edited after hashing and reverted after measuring: the wrong verdict is replayed |
| CacheHistory.HistoryKeepsTruth | internal/cache/cache.go:640-658 | every entry any such history leaves on disk is true of some contents with exactly its digests |
| CacheHistory.MatchIsTrue | internal/cache/cache.go:800-836 | an entry that matches a mutant's digests tells the truth about it now |
| CacheHistory.RecordedIsTrue | internal/cache/cache.go:908-951 | an entry recorded for a true status is a true entry |
| CacheHistory.AppliedMeans | pipeline.go:605-659 | unless one mutant is asked for every mutant is as the lookup leaves it, a replayed EQUIVALENT made LIVED exactly where detection is off |
| CacheHistory.MatchedIsReplayed | pipeline.go:605-659 | a pending mutant with an entry of its key and its three digests is not tested: it has the recorded status and is marked as cached |
| Checkpointing.RunsAgree | pipeline.go:605-719 | after any such history a complete run of pool and equivalence pass on looked-up mutants ends with the statuses of one on the bare mutants, whatever the two interleavings |
| Checkpointing.RunCheckpointsAreTransparent | pipeline.go:694-744 | flushing the shared slice at any moments of any interleaving changes nothing of what the final flush leaves in the cache |
| Checkpointing.PoolLeavesSlices | pipeline.go:697-700 | whatever the pool leaves in the slice at any moment is an honest partial result |
| Checkpointing.TceLeavesSlices | pipeline.go:710-719 | so is whatever the equivalence pass leaves |
| Checkpointing.CompletedStatuses | pipeline.go:663-719 | a run's two phases end every mutant with the oracle's verdict, refined by the oracle's equivalence |
| Checkpointing.PendingEnds | pipeline.go:663-719 | a pending mutant ends NOT VIABLE if it does not compile, else by the result of its tests, and a survivor EQUIVALENT exactly where detection is on and finds it so |
| Cache.EntryCache.Lookup | internal/cache/cache.go:794-836 | replays matching entries onto the pending mutants in place, touches no other mutant, and returns how many were pending and are not any more |
| Cache.LookedUpMeans | internal/cache/cache.go:800-836 | a pending mutant takes status, duration and re-check flag of the last entry with its seven fields exactly when source, package and, unless it was not viable, tests hash as recorded, and stays as it is otherwise |
| Cache.EntryCache.Update | internal/cache/cache.go:903-1015 | leaves this run's cacheable outcomes, plus each prior entry whose key the run did not write and whose source is unchanged, in key order |
| Cache.CheckpointIsTransparent | internal/cache/cache.go:903-1015 | an update from a partial slice followed by one from the completed slice leaves what the latter alone leaves |
| Cache.CheckpointsAreTransparent | pipeline.go:728-744 | so for any number of checkpoints |
| Cache.CarryOverAt | internal/cache/cache.go:953-991 | for each key the run's own entry wins, else the first kept prior entry stays |
| Cache.OwnOutcomeIsWritten | internal/cache/cache.go:908-951 | a cacheable outcome is written with its key, its digests, its status, its milliseconds and its re-check flag, unless a later mutant has its key |
| Cache.NothingElseIsWritten | internal/cache/cache.go:903-991 | every written entry was there before or is of a mutant with one of the five cacheable statuses |
| Cache.UpdatedIsCanonical | internal/cache/cache.go:993-1014 | the written entries are strictly sorted by file, line, column, type, offset, original and replacement, so one map of entries has one file |
| Cache.EmitUnique | internal/cache/cache.go:993-1014 | any key-sorted listing of a map of entries is the one that is written |
| Cache.LookupRestores | internal/cache/cache.go:794-836 | wherever a mutant's digests are unchanged a lookup takes back the status, re-check flag and millisecond duration an update recorded, unless a later mutant shared its key |
| Cache.SharedKeyLoses | internal/cache/cache.go:218-228 | of a run's mutants under one key the last one's outcome is what a lookup finds, and another that differs is lost |
| Cache.CarriedExactly | internal/cache/cache.go:953-991 | an entry the run does not write stays exactly when source and package directory at its joined path are there and either one of them cannot be read or both hash as recorded |
| CarryOver.ReportPathLeadsBack | internal/discover/discover.go:304-315 | joined to the project a file's report path is the file exactly when the run's packages share no more than the module's path |
| CarryOver.SharedIsModuleExactly | internal/discover/discover.go:318-339 | which they do exactly when some package is outside the first one's top directory, names compared as strings |
| CarryOver.UntouchedCarriedExactly | internal/cache/cache.go:893-902 | an entry whose source is untouched is carried over exactly under that condition, where nothing stands at the shortened path |
| CarryOver.PartialRunIsForgotten | internal/cache/cache.go:893-902 | of a run over two packages side by side every outcome is recorded, and the next update on the same disk writes as if it had not been |
| Cache.CallsSeeOneDisk | internal/cache/cache.go:294-343 | however the disk changes during a run, each lookup and update is the one over a single disk |
| Cache.StatusRoundTrip | internal/cache/cache.go:877-891 | a status survives the file exactly when it is one the cache reuses; other strings read as pending |
| Cache.KeyLessIsStrictTotal | internal/cache/cache.go:996-1014 | the order entries are written in is strict and total on keys |
| SaveProtocol.Save | internal/cache/cache.go:666-715 | at every moment, whatever step fails or is killed, the target holds the whole old or the whole new cache; a failed save changes at most a temporary file |
| SaveProtocol.SaveAll | internal/cache/cache.go:640-715 | a run's saves, whatever fails in each, leave a chain of targets each of which is the one before or the bytes saved; in every state between the target is one of the chain |
| SaveProtocol.TargetHoldsLastLanded | internal/cache/cache.go:666-715 | after any saves the target holds the last one that landed |
| SaveProtocol.DiskIsHistory | internal/cache/cache.go:640-715 | what any number of saves leave reads as the run killed at its last landed flush |
| SaveProtocol.KillAndResume | internal/cache/cache.go:640-715 | a run killed after any number of saves resumes with every outcome of the last landed flush whose digests are unchanged |
| Framing.FramesDecode | internal/cache/cache.go:372-381 | two framed streams of names and digests are equal only when the sequences are |
| Framing.TestStreamDecodes | internal/cache/cache.go:356-382 | equal test-file streams come from equal sequences of base names and digests |
| Framing.PkgStreamDecodes | internal/cache/cache.go:504-531 | equal package streams come from equal sources and equal embedded files |
| Framing.UnlistedEmbedIsAmbiguous | internal/cache/cache.go:504-531 | without the directory listing's promise a package stream could be read two ways |
| Framing.CoverageStreamDecodes | internal/cache/cache.go:557-626 | equal coverage streams have equal frames, embeds, go.mod, go.sum, coverpkg, tags, flags, toolchain and environment |
| Hashing.TestsDigestIgnoresOrder | internal/cache/cache.go:356-371 | the tests digest depends on the set of files, not on order or repeats |
| Hashing.SortAndCompact | internal/cache/cache.go:360-371 | sorting and dropping neighbours in place lists the set of paths in order |
| Hashing.Hasher.File | internal/cache/cache.go:327-343 | returns the digest of the frozen, memoised or read file, and memoises it |
| Hashing.Hasher.HashTestFiles | internal/cache/cache.go:356-382 | hashes the framed stream of the sorted, distinct files, or fails as the first unreadable one does |
| Hashing.Hasher.GoFilesIn | internal/cache/cache.go:398-422 | lists the directory's non-test sources in order |
| Hashing.Hasher.HashPkgFiles | internal/cache/cache.go:504-531 | returns the memoised digest, or that of the framed sources and embedded files, memoising it, or the first error |
| Hashing.EmbedsAreHashed | internal/cache/cache.go:463-473 | a package digest takes in exactly the files its directory embeds, each under the path it is embedded by |
| Hashing.SourcesAreHashed | internal/cache/cache.go:398-422 | and exactly the Go files of the directory that are no tests, by base name |
| Hashing.TestsAreHashed | internal/cache/cache.go:356-382 | a tests digest takes in exactly the files listed, by base name |
| Hashing.PkgDigestShows | internal/cache/cache.go:504-531 | the digest of a package not yet memoised changes with an edit of one file exactly when the directory lists that file as a source or embeds it |
| Hashing.Hasher.SetSrcCache | internal/cache/cache.go:294-305 | drops all but the test-file memos and hashes every source directory at once |
| Hashing.Snapshot | internal/cache/cache.go:294-343 | after the freeze every package digest, source digest and earlier test-file digest stays, whatever the disk does |
| Hashing.OneDisk | internal/cache/cache.go:246-343 | at any moment of a run over a changing disk all digests are those of one disk, each file as it was when first hashed |
| Hashing.DigestsStay | internal/cache/cache.go:246-343 | a digest once taken stays for the rest of the run |
| Hashing.SnapshotIsOfFrozenBytes | internal/cache/cache.go:294-305 | the frozen digest is that of the bytes found exactly when no embedded file named like a test has a stale memo |
| Hashing.EmbeddedTestFileStaysStale | internal/cache/cache.go:294-305 | a package of a frozen source and an edited embedded x_test.go for which it is not |
| KeyScope.BuildTestIndex | internal/cache/testindex.go:42-113 | the index lists every test and source file of its directories and no other directory's, and a name's files are those that declare it |
| KeyScope.CoveringFiles | internal/cache/testindex.go:211-238 | lists exactly the own directory's tests, and across packages all files of each declaring directory |
| KeyScope.TestFilesOf | main.go:615-634 | lists exactly the own tests, the covering tests' files, and all files of every foreign suite that decides the mutant |
| KeyScope.RunsOnlySuites | internal/runner/worker.go:922-954 | every package run for a mutant is its own or one of its deciding suites |
| KeyScope.EveryInputIsKeyed | main.go:615-634 | every Go file of every package that can run for a mutant is in its tests digest or its package digest |
| KeyScope.OthersEmbedsAreUnkeyed | internal/cache/cache.go:760-789 | no digest of a mutant notices an edit of a file that is no Go file, unless the mutant's own package embeds it |
| KeyReach.EditShowsExactly | internal/cache/cache.go:760-789 | an edit of a file changes a mutant's key exactly when the file is the mutant's, a source of its package or embedded by it, or listed for its tests |
| KeyReach.GoldenFileIsUnkeyed | internal/cache/cache.go:760-789 | a deciding suite of another package that embeds a file no key holds |
| KeyReach.FactsFixInputs | internal/cache/cache.go:760-789 | equal contents of the key are equal bytes of every Go file testing the mutant can read, and of what its package embeds |
| KeyReach.FactsDecideVerdict | internal/cache/cache.go:760-789 | a verdict by those files is decided by the contents the key covers |
| Coverage.LineKeyInjective | internal/coverage/testmap.go:417-419 | a line key names one file and one line |
| Coverage.TestMap.AddBlocks | internal/coverage/testmap.go:400-413 | adds the test to exactly the lines its executed blocks span |
| Coverage.TestMap.Ingest | internal/coverage/testmap.go:297-299 | a line holds a test exactly when some result spans it, and durations are sums of positive observations |
| Coverage.CoveredMeans | internal/coverage/testmap.go:400-413 | a result spans a line exactly when one of its executed blocks in that file starts no later and ends no earlier |
| Coverage.SumOfMeans | internal/coverage/testmap.go:378-398 | a duration is the running sum of the test's own observations, those not positive left out |
| Coverage.BuildIsConfluent | internal/coverage/testmap.go:378-413 | results in any arrival order build one map |
| Vetting.ProcessWork | internal/coverage/testmap.go:562-591 | every result is of a test that passed alone; a test is left out only for want of a binary, in a stalled package, if it failed or timed out, or if it executed nothing and took no time |
| Vetting.GroupKeyInjective | internal/coverage/testmap.go:428-430 | a group's key names one package and one list of tests |
| Vetting.LineGroups | internal/coverage/testmap.go:444-455 | a line's groups are its tests by package, each once |
| Vetting.GroupAtMeans | internal/coverage/testmap.go:444-455 | a group is a package and the sorted names of all its tests on the line |
| Vetting.TestGroups | internal/coverage/testmap.go:460-477 | collects exactly the groups of several tests on the lines to be tested |
| Vetting.CheckGroups | internal/coverage/testmap.go:512-534 | returns exactly the groups that fail without a mutant |
| Vetting.DropGroups | internal/coverage/testmap.go:484-502 | drops exactly the failed groups from every line, and leaves every other group whole |
| Vetting.PrunedGroups | internal/coverage/testmap.go:484-502 | after pruning a line's group of a package is what it was, and it did not fail |
| Vetting.PrunedMeans | internal/coverage/testmap.go:484-502 | a test goes from a line exactly when all the tests of its package on that line are a failed group |
| Vetting.BuildTestMap | internal/coverage/testmap.go:223-330 | the built map holds what was covered, less the tests of groups that do fail together, and every group left on a tested line is vetted |
| Vetting.VettedMeans | internal/coverage/testmap.go:223-330 | in a vetted map the tests of one package on a tested line passed alone, if one, and together, if several |
| Vetting.PendingLines | main.go:639-647 | lists exactly the lines of the mutants still to be tested |
| Vetting.PendingRunOnlyVetted | internal/runner/worker.go:922-932 | a pending mutant is routed to a whole package, one test that passed alone, or tests that passed together |
| Vetting.RouteGroups | internal/runner/worker.go:922-932 | hands out exactly the line's tests by package, or the own package whole |
| Runner.SuitePkgs | internal/coverage/testmap.go:113-124 | selects the suites that can decide a mutant, in their order |
| Runner.RecheckGroups | internal/runner/worker.go:941-954 | selects exactly the routed and the deciding packages that have not run whole |
| Runner.OrderRoutePackages | internal/runner/worker.go:983-995 | own package first, the others sorted |
| Runner.Worker.BuildBin | internal/runner/worker.go:626-664 | a package's binary is built once, and a failed build ends the run with its outcome |
| Runner.Worker.RunGroups | internal/runner/worker.go:579-597 | runs packages in turn under one deadline up to the first outcome that is not LIVED |
| Runner.RunGroupsMeans | internal/runner/worker.go:579-597 | that outcome is of the first package whose build fails or whose tests, in what those of the packages in front leave of the deadline, do not pass |
| Runner.Worker.Test | internal/runner/worker.go:488-560 | a mutant gets the verdict of its routed run and re-check, LIVED only if every deciding suite was built and passed in full, or keeps its state when cancelled; no binary is built twice for it, no package runs whole twice |
| Runner.VerdictIsFirstFailing | internal/runner/worker.go:488-614 | over a plan of the routed packages under one shrinking deadline and then the re-checked ones with the ceiling each, own package first and then sorted, the verdict is the status of the first failed build or failed test run, LIVED without one |
| Runner.LivedIsSound | internal/runner/worker.go:525-545 | LIVED means of every deciding suite that its build did not fail and its tests, if any, passed in full within the ceiling, or the routed deadline where it alone was routed whole; so did every routed group in the time left to it |
| Pool.PoolIsSafe | internal/runner/pool.go:74-161 | in every state of every interleaving each pending position is in exactly one place, none is tested twice, other mutants are untouched, and what is written and reported is the tested mutant or, once cancelled, the mutant as it came |
| Pool.PoolIsComplete | internal/runner/pool.go:74-161 | uncancelled, every pending mutant is tested, written in its own place and reported once |
| Pool.PoolDoesNotDeadlock | internal/runner/pool.go:112-161 | until the collector is done some step other than a cancellation is possible |
| Pool.PoolTerminates | internal/runner/pool.go:112-161 | no interleaving is longer than the work at the start |
| Pool.CollectFinds | internal/runner/pool.go:145-155 | a result's ID leads the collector back to the position it was read from |
| Pool.FailPending | internal/runner/pool.go:173-180 | without workers exactly the pending mutants become infrastructure errors, each reported |
| WorkOrder.WorkList | internal/runner/pool.go:81-99 | lists each mutant of a status once, by package, file and offset, ties in slice order |
| WorkOrder.MutantLessIsWeak | internal/runner/pool.go:218-232 | the order of work is one a sort can use |
| WorkOrder.Collect | internal/tce/tce.go:268-276 | lists exactly the positions of a status, in slice order |
| Tce.TceIsSafe | internal/tce/tce.go:225-304 | in every state of every interleaving each survivor is in one place and checked at most once, only LIVED turns EQUIVALENT, and one worker at a time writes and reports |
| Tce.TceIsComplete | internal/tce/tce.go:225-304 | uncancelled, exactly the survivors found equivalent are turned, and each survivor is reported once as it is left |
| Tce.TceDoesNotDeadlock | internal/tce/tce.go:238-255 | until all workers are gone some step other than a cancellation is possible |
| Tce.TceTerminates | internal/tce/tce.go:238-255 | no interleaving is longer than the work at the start |
| Tce.CountFlips | internal/tce/tce.go:257-264 | the number returned is the number of positions the pass changed |
| FlagGuard.CheckTestFlags | main.go:462-492 | rejects exactly the lists with a managed flag, dashes and `test.` or not, in front of every boundary it trusts, or with `test.` in front of every trusted `--` |
| FlagGuard.ManagedIsRejected | internal/config/config.go:215-221 | none of the eight names passes in any of its four spellings, with a value or not, in front of all boundaries |
| FlagGuard.ManagedIsRejectedBehindArgs | main.go:439-492 | nor in its two `test.` spellings behind `-args`, unless behind a `--` that no flag in front may take |
| FlagGuard.GuardIsSound | main.go:439-539 | accepted fields can put a managed flag into effect exactly when they have a gap: for some flags known and some taking values, the test binary takes an unconsumed `--` for the value of a flag in front, the go command having taken all between, and comes to a managed flag behind |
| FlagGuard.NoBareFlagNoGap | main.go:439-539 | accepted fields with no valueless flag in front of an unconsumed `--` can override nothing |
| FlagGuard.OneNameHasNoGap | main.go:439-539 | nor can they where the flag in front and the one between bear one name |
| FlagGuard.GuardIsUnsound | main.go:439-539 | accepted fields that have one |
| FlagGuard.GuardIsExact | main.go:439-539 | of regular fields those that can override are the ones it rejects and the ones with a gap |
| FlagGuard.GuardIsStrict | main.go:533-539 | with boundaries in a row it rejects fields no reading of which overrides |
| ReverseClosure.ReverseClosure | internal/discover/revdeps.go:101-134 | lists, sorted and once each, exactly the packages from which a target is reachable over import edges |
| ReverseClosure.ReachesMeans | internal/discover/revdeps.go:101-134 | reachable means along a list of packages each of which imports the next |
| ReverseClosure.ClosureIsUnique | internal/discover/revdeps.go:101-134 | so the order maps are walked in does not matter |
| ReverseClosure.ModuleLocalImports | internal/discover/revdeps.go:70-83 | lists each import inside the module once, of code and of tests |
| Discovery.Discover | internal/discover/discover.go:136-222 | returns a sorted arrangement of the found candidates, one mutant each with its fields, numbered from 1 and pending |
| Discovery.GatheredMeans | internal/discover/discover.go:136-178 | candidates are what the mutators find in the listed files that parse |
| Discovery.DiscoveryMeans | internal/discover/discover.go:198-219 | the mutants are the candidates, each with the file, position, type, texts and offsets of its own |
| Discovery.MutantsPackage | internal/discover/discover.go:198-219 | a mutant is of the last package that lists its file, and its coverage file is of that package |
| Discovery.MutantsReportPath | internal/discover/discover.go:300-339 | its report path is its package without what all packages share, and the base name, or the path from the root where that does not lead the package |
| Discovery.StableIdMeans | internal/discover/discover.go:180-219 | its stable ID is the segment of its file, the function around it, its type, and which one of those it is |
| Discovery.DiscoveryIsInOrder | internal/discover/discover.go:163-178 | the mutants are sorted by file, line, column, type, end and replacement |
| Discovery.DiscoveryIsDeterministic | internal/discover/discover.go:163-219 | whatever an unstable sort does with ties, one list of mutants comes out, exactly when candidates alike in the order's six fields are alike in group, original text and start |
| Discovery.TwinsAreUnordered | internal/discover/discover.go:238-254 | two files with `//line` directives for which it does not |
| Discovery.StableIdsIgnoreOrder | internal/discover/discover.go:163-219 | packages given and mutators run in another order name the same mutants the same, where the order decides |
| Discovery.RelFilesDependOnOrder | internal/discover/discover.go:318-339 | report paths do depend on the order of packages |
| Discovery.StableIdsDistinct | internal/discover/discover.go:180-219 | no two mutants of a run have one stable ID |
| Discovery.OrdinalsCount | internal/discover/discover.go:185-197 | every ordinal from 1 to the size of a group is given |
| Discovery.OrdinalsGrow | internal/discover/discover.go:185-197 | and no ordinal of a group twice |
| Discovery.KeyOrderIsStrictTotal | internal/discover/discover.go:265-297 | the order on the six fields is strict and total |
| Discovery.CandidateLessIsKeyOrder | internal/discover/discover.go:265-297 | the chain of comparisons is the lexicographic order on the six fields |
| RelFile.LongestCommonPrefix | internal/discover/discover.go:318-339 | the loop returns the prefix the packages share |
| RelFile.CommonPrefixIsLongest | internal/discover/discover.go:318-339 | it is the longest cut of the first path that all paths, as strings, start with |
| RelFile.RelFileCollides | internal/discover/discover.go:304-315 | two files share a report path exactly when base names agree and packages are equal or one slash apart |
| RelFile.RelFilesDistinct | internal/discover/discover.go:304-315 | a run's report paths are distinct exactly when no two packages are one slash apart |
| RelFile.RelFilesCanCollide | internal/discover/discover.go:304-339 | a run for which they are not |
| StableId.ListFuncSpans | internal/discover/stableid.go:31-48 | one span for each function declaration, named by name and occurrence |
| StableId.FuncSpansMean | internal/discover/stableid.go:31-73 | each span is that of its function, named by it and, where it is not the first of that name, by which one it is |
| StableId.FuncNamesAre | internal/discover/stableid.go:76-98 | a method is named with its receiver's type, whatever pointers, parentheses and type parameters stand there |
| StableId.AnchorsDistinct | internal/discover/stableid.go:31-73 | no two functions of a file have one anchor |
| StableId.AnchorFor | internal/discover/stableid.go:111-125 | the binary search finds what a scan over disjoint sorted spans finds |
| StableId.RenderInjective | internal/discover/stableid.go:130-139 | a stable ID gives back its file, anchor, type and ordinal |
| ScopedDiscovery.ScopeToStableID | internal/discover/stableid.go:178-191 | keeps every package and exactly the files that qualify |
| ScopedDiscovery.ScopedIsNarrowed | internal/discover/stableid.go:166-191 | where positions name the files candidates were found in, discovery over the narrowed packages finds the full discovery's mutants of those files, equal but for the run number |
| ScopedDiscovery.FilterByStableID | internal/discover/stableid.go:214-240 | returns the first exact match, else the only prefix match, else fails as missing or ambiguous |
| ScopedDiscovery.ResolveMeans | internal/discover/stableid.go:193-240 | over distinct IDs an exact match wins, a prefix needs one match, missing means none |
| ScopedDiscovery.ScopedResolutionIsFull | internal/discover/stableid.go:166-240 | for every ID narrowing keeps the mutants of its files, and resolving gives the mutant or failure that resolving over all gives, exactly when every candidate's position names the file it was found in |
| ScopedDiscovery.MisplacedIsLost | internal/discover/stableid.go:166-191 | otherwise some mutant of the full run is found by its ID in no narrowed one |
| ScopedDiscovery.LineDirectiveLosesMutant | internal/discover/stableid.go:166-191 | a file with a `//line` directive, whose mutant the full run reports and the narrowed run misses |
| Splice.Apply | internal/patch/patch.go:6-17 | replaces the range, or reports exactly the invalid ranges |
| Splice.ApplyMutant | internal/patch/uses.go:27-33 | applies the mutation, then the repairs of what it left unused |
| Splice.MutatedMeans | internal/patch/apart.go:21-48 | a mutation replaces its range, with a space at an end exactly where the new neighbours would fuse and the range's seam did not |
| Splice.KeepUses | internal/patch/uses.go:54-78 | repairs exactly what is unused now and was not, at its offset, before |
| Splice.RepairsMean | internal/patch/uses.go:54-78 | the repairs are of exactly the offsets unused now and not before |
| Splice.ApplyEdits | internal/patch/uses.go:204-212 | applies the edits in start order, the last first |
| Splice.SameOffsetKeepsOrder | internal/patch/uses.go:198-212 | edits at one offset keep their order |
| Splice.EditingIsSimultaneous | internal/patch/uses.go:204-212 | last-first editing replaces all spans at once, but for single spaces around texts |
| Splice.NothingIsGlued | internal/patch/apart.go:21-48 | no two bytes editing brings together fuse unless the source fused at that seam, and every byte is the source's, an edit's or a space |
| Splice.LinesStay | internal/patch/uses.go:22-26 | edits that break no line leave every source byte on its line |
| ReturnSites.ResultTypes | internal/mutator/returnslots.go:17-33 | one slot for each named result, one for an unnamed field |
| ReturnSites.SlotsMean | internal/mutator/returnslots.go:17-33 | a field adds a slot of its type for each of its names, one if it has none |
| ReturnSites.Walk.Visit | internal/mutator/returnslots.go:47-78 | makes the nested walk's callbacks in order |
| ReturnSites.NestedWalkIsAttribution | internal/mutator/returnslots.go:36-78 | the nested walk calls back for exactly the returns and results a walk with a stack would |
| ReturnSites.EachReturnOnce | internal/mutator/returnslots.go:36-78 | every return of the file is visited, and once |
| ExcludeCalls.FilterByCalls | internal/discover/excludecalls.go:121-144 | keeps, in order, exactly the mutants their file's spans do not hold, and names the others' selectors |
| ExcludeCalls.FilterMeans | internal/discover/excludecalls.go:121-144 | a mutant is kept exactly when no matching call of its file holds its bytes, and else reported with the selector of one that does |
| ExcludeCalls.PrunedDisjoint | internal/discover/excludecalls.go:176-210 | the kept spans are disjoint |
| ExcludeCalls.SuppressedExactly | internal/discover/excludecalls.go:165-210 | a mutant is left out exactly when some matching call at any depth holds its range |
| ExcludeCalls.HeldByOne | internal/discover/excludecalls.go:154-156 | at most one kept span holds a mutant |
| ExcludeCalls.ScanOrderIsIrrelevant | internal/discover/excludecalls.go:154-175 | so spans in any order suppress the same mutants under the same selectors |
| ExcludeCalls.NamedByOutermost | internal/discover/excludecalls.go:176-181 | a suppressed mutant is named by the outermost matching call around it |

## Left out

- Processes, environments, the memory monitor, timeouts' arithmetic and the classification of test and build output: they
  are behind the outcome oracles.
- The equivalence check itself: `Tce` takes its answer as given, so the memo of reference compiles and the parsing of
  assembly listings are not here.
- The order in which groups are checked and the worker goroutines that check them: each answer is independent of the others.
- Binary files left on disk between mutants: a package's binary is modelled by its number among the mutant's builds.
- Reading the inputs of the coverage key; its framing is modelled.
- The other fields of the cache file (coverage profile and key).
- Rendering of call selectors, glob patterns, and the analysis behind each repair: selectors, matches and edits are given.
- Most mutators, report writers, configuration, diff parsing, terminal output: one table or one format each.
- Error message texts, and how many ambiguous IDs one lists.
- `filepath.Rel`: a path's segment in an ID and its path under the module root are given as functions of the path.
- Discovery.Discover: sorts a copy of the candidates where the source sorts in place; the result is the same list.
- Splice.ApplyEdits: edits a copy held as a value where the source edits a cloned byte slice; edits that overlap or lie
  out of range, which the source does not make, are excluded.
- ExcludeCalls.FilterByCalls: models a run with call patterns; without any the source returns its input.
- Vetting.ProcessWork: models one worker, with what the others add to the shared set of stalled packages as an arbitrary
  function of time.
- Runner.Worker.Test: takes as given whether the run was cancelled, and how long it took.
