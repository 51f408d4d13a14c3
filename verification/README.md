# Mattermost: a verified model of its stateful core

This Dafny project models five parts of the Mattermost repository whose behaviour is decided by
code rather than by configuration, and proves what they are for. `dafny verify dfyconfig.toml`
checks all of it.

**The CI shard solver** (`ShardTimings`, `ShardItems`, `ShardDemand`, `ShardWeights`, `ShardSolver`,
`ShardBalance`, `LoadBalance`, `TightSchedule`, `EvenSplit`). Every runner recomputes the same plan from
the same inputs and executes its own share. `ShardDemand.Demand` says, on the raw inputs and with no
mention of items or shards, how often each package and each test should run; the runners together run
it exactly that often (`ShardSolver.Conservation`), so one runner runs it once if and only if it is
demanded once (`PartitionIff`). `ShardWeights.Weight` says what a piece of work takes, by the recorded
times; no other division of the demanded work over m runners beats the plan by more than Graham's
factor 4/3 - 1/(3m) (`ShardBalance.Balance`), and `TightSchedule.BoundIsTight` reaches that factor for
every m.

**The configuration store** (`ConfigModel`, `Environment`, `Overlay`, `Strings`, `Locales`,
`OverlayValues`, `ConfigRepair`, `RepairValues`, `Desanitize`, `StoreModel`, `StoreRuns`, `StoreSteps`,
`StoreWitness`, `StoreExamples`, `ConfigStore`, `ConfigDiff`, `ConfigTable`). A configuration is a map
from paths to values, so the hundreds of real settings need no enumeration; the settings that the repair
couples (client locale and locale list, file driver and directory) are named. `StoreModel` gives one
pure step for each locked section, the classes of `ConfigStore` are proved against those steps field by
field, `StoreSteps` says setting by setting what a step does, and `StoreRuns` proves what every sequence
of steps keeps. `ConfigDiff` treats the diff of two configurations as a list that can be replayed;
`ConfigTable` is the table behind the database store.

**The brotli response writer** (`HttpResponse`, `Brotli`, `BrotliRuns`, `BrotliHeaders`). The writer
class is proved against pure steps, and theorems over arbitrary call sequences follow: an invariant of
all reachable states, transparency of the delivered body, independence of how the body is cut into
writes, and when the decision falls, which way, and with which headers. The compressor is any codec with
three laws (output only grows, a synced stream can be read so far, a closed one decodes to its input);
`LawsAreSatisfiable` shows there is one.

**Log path validation** (`LogPaths`). The file system is a pair of functions (resolve, lstat), paths
are lists of clean names, and both containment tests of the source are proved to be component-wise
containment before they are used in the verdict on a whole logging configuration.

**The channel list stream** (`ChannelStream`). A loop over a keyset-paginated source that writes one
JSON array.

## What the proofs found

Where a property does not hold on all inputs, the code was kept as it is, the exact condition is the
theorem, and a lemma gives an input on which the property fails.

- The shard solver takes up only printed names of the form `Test` and an upper-case letter. A test of
  a split package with another name is run by no runner while the cache does not know it; the api4
  and app packages have such tests, for instance `Test_getIPFilters`. Exactly which tests are skipped
  is `ShardSolver.SkippedIff`; the example is `ShardSolver.UnderscoreTestIsSkipped`.
- A name that `go test -list` prints twice, for instance for a package and its external test package,
  is run twice (`ShardSolver.Partition`; `ShardSolver.TwiceListedRunsTwice`).
- `Store.Set` with an environment override that does not parse: a caller's change to that setting
  takes effect but is not stored. The live view stays the repaired overlay of the stored one if and
  only if callers leave such settings alone (`StoreRuns.SetConsistentIff`, over whole runs
  `StoreRuns.RunConsistentIff`; `StoreExamples.DeveloperSwitchIsLost`). What holds without that
  condition is `StoreRuns.RunSound`; the chain of notifications needs no more.
- Setting what `Get` returned is a change when the defaults couple settings. With
  `MM_METRICSSETTINGS_ENABLE=true` the first load runs `SetDefaults` before the overlay, so the state
  of the metrics plugin is missing until the next `Set` adds it. The exact condition is
  `StoreRuns.MaskedSetIff`; the example is `StoreExamples.MetricsStateIsAnnounced`.
- The reload after a `Set` is loud for three reasons, and for no other: such a lost change, a stored
  setting that breaks a coupling, which takes an override of a coupled setting, or a stored setting
  that the defaults change (`StoreRuns.SetThenLoadIff`; `StoreExamples.FilesDirectoryIsLoud`,
  `StoreExamples.MetricsStateIsLoud`).
- An environment key with extra segments behind a leaf, or without the name of an embedded struct,
  assigns the leaf without being reported as an override, so taking the overrides off leaves it in
  (`Environment.ResolveIff`, `Overlay.AssignedIsReportedIff`, `Overlay.UndoneIff`;
  `StoreExamples.SiteUrlKeepsOverride`, `StoreExamples.FlaggingKeepsOverride`).
- Unmasking a masked `LibreTranslate` key panics if the actual configuration has no such section; the
  one of a loaded store always has (`Desanitize.NeverPanicsIff`, `StoreRuns.LoadedNeverPanics`).
- The locale repair is idempotent if and only if the default locale is among the supported ones, or
  none is loaded (`Locales.IdempotentIff`; the failing input is in `Locales.AppendedDefault`).
- A status without a body (204, 304) makes the writer drop what was written
  (`BrotliRuns.Transparency`; `BrotliRuns.NoContentDropsTheBody`).
- A configuration whose checksum equals that of the active one is not written. The table shows the
  last value that was set if and only if no set collides with the one before it; the first collision
  loses its value (`ConfigTable.LastValueIff`; `ConfigTable.CollisionLosesValue`).

The comment at the head of the shard solver says that packages of at least ten minutes are split; the
code compares strictly (`server/scripts/shard-split.js:129`), and the model follows the code.

## How to read it

Classes and loops keep the form of the source: `Store`, `BrotliResponseWriter`, `Emitter` and
`DatabaseStore` update their fields, the shards are an array updated in place, and the loops of the
scripts are loops. Each is proved equal to a pure function of its inputs or of its old state, and the
properties are lemmas about those functions. Map iteration, which Go leaves unordered, is a loop over
a set that picks any element.

Assumptions are predicates that appear in the statements: `StoreModel.Lawful` (`SetDefaults`
leaves no setting missing, leaves a FeatureFlags section alone that is there, and may change any other
setting; e-mail reduction is idempotent, defaults meet their minimums, the environment assigns no leaf
two values and reports no feature flag), `StoreRuns.TextSettings` (the directory and the locale list
are text settings of a schema without name clashes), `Brotli.Lawful` for the codec, `LogPaths.Clean`
for the file system, and `ConfigDiff.SameShape` with `Plain` for two values of one Go type.
`HttpResponse` restates the part of net/http's contract that the writer relies on: informational codes
do not commit, the first final one snapshots the headers, and a status without a body refuses bytes.

## Model

| member | source | states |
|---|---|---|
| `ShardTimings.ParseEvents` | server/scripts/shard-split.js:68-96 | the parsing loop ends with the package totals and test maxima of the pass events, in first-seen order |
| `ShardTimings.ParsedPkg` | server/scripts/shard-split.js:82-83 | the cached time of a package is the sum over its counted pass events, stated on the raw events |
| `ShardTimings.ParsedTest` | server/scripts/shard-split.js:84-87 | a test is in the cache iff a pass event of it or of one of its subtests was counted, and its time is their maximum |
| `ShardTimings.TopLevelIff` | server/scripts/shard-split.js:84-85 | an event belongs to the test of its name up to the first slash |
| `ShardTimings.ParsedKeys` | server/scripts/shard-split.js:82-87 | neither cache holds a key twice |
| `ShardDemand.ParsedNonEmpty` | server/scripts/shard-split.js:113-114 | either cache has entries iff some pass event was counted |
| `ShardItems.IdentifyHeavy` | server/scripts/shard-split.js:113-134 | the two loops compute the heavy set in insertion order |
| `ShardDemand.HeavyPkgsIff` | server/scripts/shard-split.js:113-134 | a package is heavy iff it is listed now and is either known heavy or, with test timing, summed to strictly more than ten minutes; none is listed twice |
| `ShardItems.BuildItems` | server/scripts/shard-split.js:144-162 | the item loop yields cached test items for heavy packages and whole items for the others |
| `ShardItems.Listed` | server/scripts/shard-split.js:176-183 | the printed text is split into lines, trimmed, and filtered by name |
| `Strings.TrimIff` | server/scripts/shard-split.js:181 | trimming takes white space off both ends and nothing else |
| `ShardItems.MissingTests` | server/scripts/shard-split.js:166-191 | exactly the printed tests that pass the filter and are not cached are added, once per line |
| `ShardDemand.CurrentTestsOcc` | server/scripts/shard-split.js:180-183 | a name survives trimming and filtering as often as it was printed if it is Test and an upper-case letter, and never otherwise |
| `ShardItems.Discover` | server/scripts/shard-split.js:163-200 | discovery over the heavy packages, aborting in CI as soon as one listing failed |
| `ShardItems.AddFallbacks` | server/scripts/shard-split.js:201-210 | every heavy package still without an item is added whole |
| `ShardDemand.HeavyHasItems` | server/scripts/shard-split.js:144-200 | after discovery a heavy package has no item iff the cache knows no test of it and no line printed for it passes the filter |
| `ShardDemand.ItemsMeetDemand` | server/scripts/shard-split.js:144-213 | for every input the item list contains each piece of work exactly as often as a reference on the raw inputs asks for |
| `ShardSolver.SortSorts` | server/scripts/shard-split.js:215 | the sorted durations descend |
| `ShardSolver.SortMult` | server/scripts/shard-split.js:215 | sorting keeps the multiplicity of every piece of work |
| `ShardSolver.FirstLeastLoaded` | server/scripts/shard-split.js:235-236 | the reduce returns the first index of least load |
| `ShardSolver.AssignGreedy` | server/scripts/shard-split.js:217-246 | the shards end up holding the items as the greedy assignment places them |
| `ShardSolver.AssignRoundRobin` | server/scripts/shard-split.js:224-232 | without any signal package i lands on shard i modulo the shard count |
| `ShardSolver.KeepOcc` | server/scripts/shard-split.js:263-265 | the enterprise filter splits a list into two that share nothing and lose nothing |
| `ShardSolver.ShardCopies` | server/scripts/shard-split.js:233-275 | the output of runner k mentions a piece of work as often as the items placed on shard k do, across the whole, TE, EE and per-package test lists |
| `ShardSolver.RunSolver` | server/scripts/shard-split.js:62-275 | the whole script run at one index, error exits included |
| `ShardSolver.Conservation` | server/scripts/shard-split.js:62-275 | summed over all runners, each piece of work is run exactly as often as the inputs demand; nothing is lost or invented, in either branch |
| `ShardSolver.PartitionIff` | server/scripts/shard-split.js:62-275 | on every input: exactly one runner runs a piece of work, once, iff the inputs demand it once |
| `ShardSolver.Partition` | server/scripts/shard-split.js:62-275 | with distinct packages: a package is run whole by exactly one runner iff it is light or heavy without a known test; a test is run by exactly one runner iff its package is heavy and it is cached, or passes the filter and is printed once |
| `ShardSolver.SkippedIff` | server/scripts/shard-split.js:163-213 | a test of a heavy package is run by no runner at all, neither by name nor with its package, iff it is not cached, its printed name does not pass the filter, or is not printed, and the package has another known test |
| `ShardSolver.UnderscoreTestIsSkipped` | server/scripts/shard-split.js:180-183 | with a cold cache no runner executes Test_getIPFilters of a package that is always split, although it is printed |
| `ShardSolver.TwiceListedRunsTwice` | server/scripts/shard-split.js:184-191 | a name printed twice is run twice |
| `ShardBalance.PlanWeighed` | server/scripts/shard-split.js:68-246 | every item of the plan weighs what was recorded: a package the sum of its pass events, of its JUnit suites if no pass event counts, or 1; a seen test its longest event, any other 1000 |
| `ShardBalance.Balance` | server/scripts/shard-split.js:62-275 | unless there is no signal, the recorded time of everything a runner executes is within 4/3 - 1/(3m) of that of the slowest runner in any other division of the demanded work |
| `ShardBalance.WorksExist` | server/scripts/shard-split.js:144-213 | every input has a finite list of all demanded works, over which those times are taken |
| `ShardBalance.TakeTurns` | server/scripts/shard-split.js:224-232 | without timing and without a package that is always split, runner k executes the packages at the positions k, k + m, k + 2m and so on |
| `ShardBalance.EditionsApart` | server/scripts/shard-split.js:263-265 | on every runner the first list holds no enterprise package and the second nothing else |
| `ShardBalance.OutcomeIff` | server/scripts/shard-split.js:57-66 | when a runner writes its files, has nothing to do, or fails, on the raw inputs |
| `LoadBalance.ListSchedulingBound` | server/scripts/shard-split.js:217-246 | m times the greedy makespan is at most the total plus m - 1 times the largest item, in any order |
| `LoadBalance.BigJobsFit` | server/scripts/shard-split.js:217-246 | if every job exceeds a third of the best makespan, longest-first greedy is optimal at the step that sets its makespan |
| `LoadBalance.LongestFirstBound` | server/scripts/shard-split.js:215-246 | 3m times the longest-first makespan is at most 4m - 1 times the makespan of every assignment |
| `TightSchedule.BigJobsStayWithin` | server/scripts/shard-split.js:215-246 | longest-first stays within any schedule all of whose jobs exceed a third of its makespan |
| `TightSchedule.BoundIsTight` | server/scripts/shard-split.js:215-246 | for every number m of shards there are items on which longest-first needs 4m - 1 and another assignment 3m, so the factor cannot be improved |
| `Brotli.BrotliResponseWriter.WriteHeader` | server/channels/api4/brotli.go:81-89 | informational codes pass at once, the first other code is remembered and later ones are ignored |
| `Brotli.BrotliResponseWriter.Write` | server/channels/api4/brotli.go:100-131 | the object after a write is the specified one: compressed, passed on, buffered, or decided with exactly the threshold buffered |
| `Brotli.BrotliResponseWriter.StartCompression` | server/channels/api4/brotli.go:136-201 | the decision with its header changes, its fall back to plain and its draining order |
| `Brotli.BrotliResponseWriter.StartPlain` | server/channels/api4/brotli.go:206-221 | the plain outlet commits the status and sends the buffer, then the rest, unless the buffer was refused |
| `Brotli.BrotliResponseWriter.Close` | server/channels/api4/brotli.go:226-237 | close decides if nothing was decided and ends the compressed stream if there is one |
| `Brotli.BrotliResponseWriter.Flush` | server/channels/api4/brotli.go:243-265 | flush decides early only if something is buffered, and syncs the compressor |
| `Brotli.BrotliResponseWriter.Hijack` | server/channels/api4/brotli.go:270-279 | after a successful hijack the writer is marked and its response is untouched |
| `BrotliRuns.StepKeeps` | server/channels/api4/brotli.go:81-265 | every call keeps the writer invariant, with the pending status and the written bytes updated as the caller sees them |
| `BrotliRuns.RunInvariant` | server/channels/api4/brotli.go:81-265 | in every reachable state: undecided means nothing final committed and the buffer equals everything written and is below the threshold; decided means committed once, with the first final status, through exactly one outlet |
| `BrotliRuns.CloseNeverCompresses` | server/channels/api4/brotli.go:226-237 | an undecided writer is always below the threshold at Close, so its compression branch is unreachable |
| `BrotliRuns.Transparency` | server/channels/api4/brotli.go:100-265 | after any calls and Close the status is right, a compressed stream is labelled br, and the body read back is everything written iff the status allows a body or nothing was written |
| `BrotliRuns.NoContentDropsTheBody` | server/channels/api4/brotli.go:38-48 | a handler that answers 204 and writes delivers nothing |
| `BrotliRuns.FlushDelivers` | server/channels/api4/brotli.go:243-265 | after a flush everything written so far can be read by the client, compressed or not |
| `BrotliHeaders.DecidedIff` | server/channels/api4/brotli.go:81-131 | over any calls the decision falls with the first write that reaches the threshold or the first flush of anything written; until then the live headers are the handler's, and informational codes pass |
| `BrotliHeaders.SentHeaders` | server/channels/api4/brotli.go:136-201 | over any calls and close: compressed iff a compressor is there, the status allows a body, the handler set neither Content-Encoding nor Content-Range and the content type is allowed; then labelled exactly br, without Content-Length and Accept-Ranges; Vary is extended, a missing content type is sniffed, and every other header is the handler's at the decision |
| `BrotliHeaders.DecidingCall` | server/channels/api4/brotli.go:100-131 | a decided run has a deciding call |
| `BrotliRuns.UnflushedDelivery` | server/channels/api4/brotli.go:100-237 | an unflushed response is the function of headers, body and status alone in which only the first threshold bytes are looked at |
| `BrotliRuns.ChunkingIndependence` | server/channels/api4/brotli.go:100-237 | however the same bytes are split into writes, decision, headers, status and decoded body agree |
| `BrotliRuns.LawsAreSatisfiable` | server/channels/api4/brotli.go:100-265 | a codec with the assumed laws exists, so the run theorems are not empty |
| `Environment.FindIff` | server/config/environment.go:34-37 | the search for a segment, own fields first and then embedded structs level by level, finds a field iff no other one of its upper-case name is as shallow; equally shallow ones cancel |
| `Environment.ResolveIff` | server/config/environment.go:29-87 | a key reaches a leaf iff each of its segments selects the next part of the path, which leaves out the names of embedded structs, possibly with further segments behind the leaf; through value and pointer sections alike |
| `Environment.SpelledIsNamed` | server/config/environment.go:29-87 | the canonical key of a leaf, with or without further segments, reaches it whatever is promoted |
| `Environment.NamedIsSpelled` | server/config/environment.go:29-87 | in a schema that embeds nothing no other key does |
| `Overlay.ApplyEnvironmentMap` | server/config/environment.go:89-98 | in whatever order the variables are taken, each leaf ends with one of the values assigned to it, or unchanged if there is none |
| `OverlayValues.TextAssigned` | server/config/environment.go:59-60 | a variable changes its setting alone, and a text setting becomes the text |
| `OverlayValues.ListAssigned` | server/config/environment.go:76-81 | a list setting becomes the one list without spaces in its entries that joins to the text |
| `OverlayValues.SwitchAssigned` | server/config/environment.go:61-65 | a switch takes six spellings each way, and any other text leaves it alone |
| `OverlayValues.NumberAssigned` | server/config/environment.go:66-75 | a number becomes the decimal value of a signed numeral that fits into 64 bits; any other text leaves it alone |
| `OverlayValues.RenderedAssigned` | server/config/environment.go:66-75 | rendering a 64-bit number and assigning it gives it back |
| `OverlayValues.TableAssigned` | server/config/environment.go:82-86 | a table becomes what its JSON text decodes to, and stays if it does not decode |
| `Overlay.OrderIndependentIff` | server/config/environment.go:89-98 | the iteration order does not matter for a configuration iff none of its leaves is assigned two different values |
| `Overlay.OverlayIsLaid` | server/config/environment.go:89-98 | in an unambiguous environment the loop has one result, the overlay function |
| `Overlay.OverridePathsIff` | server/config/environment.go:102-169 | the reported paths are exactly the fields reached through value sections whose full key is set |
| `Overlay.ReportedIffCanonical` | server/config/environment.go:107-133 | a field is reported iff it is reached through value sections and its canonical variable is set |
| `Overlay.AssignedIsReportedIff` | server/config/environment.go:29-133 | a variable that assigns a leaf is reported iff the canonical variable of that leaf is set; extra segments, and a left-out name of an embedded struct, assign without being reported |
| `Overlay.ReportedTextIsWritten` | server/config/environment.go:29-133 | a reported text setting always has an assigned value, since every text parses |
| `Overlay.ExtraSegmentSurvives` | server/config/environment.go:29-197 | a variable with a segment behind a text leaf leaves its value in when the overrides are taken off |
| `Overlay.PromotedSurvives` | server/config/environment.go:29-197 | so does a variable that leaves out the names of embedded structs, for any promoted leaf of any kind |
| `Overlay.RemoveEnvOverrides` | server/config/environment.go:138-149 | the loop over the paths restores exactly the listed leaves from the base |
| `Overlay.RemovedFrame` | server/config/environment.go:138-197 | after taking the overrides off, reported leaves equal the base, unassigned leaves are untouched and only unreported ones keep an assigned value |
| `Overlay.UndoneIff` | server/config/environment.go:89-197 | overlaying and taking off gives the configuration back, for every iteration order, iff each unreported assignment assigns the value already there |
| `Strings.SplitOfJoin` | server/config/utils.go:327-371 | splitting undoes joining for parts without the separator |
| `Strings.JoinOfSplit` | server/config/utils.go:327-371 | joining undoes splitting for every string |
| `Locales.RemoveDuplicates` | server/channels/utils/utils.go:60-72 | the first occurrence of every word is kept, in order |
| `Locales.FixAvailableLocales` | server/config/utils.go:344-368 | the locale loop with its early reset, the append, the deduplication and the join, against a loop-free description |
| `Locales.FixAvailableGood` | server/config/utils.go:327-371 | the repaired list is empty, or the comma-join of distinct known locales with the client locale among them |
| `Locales.GoodListFixed` | server/config/utils.go:327-371 | such a list is left alone |
| `Locales.FixAvailableIdempotent` | server/config/utils.go:327-371 | repairing the list twice is repairing it once |
| `Locales.IdempotentIff` | server/config/utils.go:327-371 | the pair of locale repairs is idempotent on all inputs iff the default locale is supported or no locale is loaded |
| `ConfigRepair.FixConfig` | server/config/utils.go:133-153 | the sequence of repairs in the order of the code computes the pointwise repair in which only two settings look at another one |
| `ConfigRepair.FixFlags` | server/config/utils.go:293-313 | exactly the retired flags that are set are cleared |
| `ConfigRepair.FixEmails` | server/config/utils.go:234-264 | exactly the listed e-mail settings are reduced to a usable address |
| `ConfigRepair.FixRanges` | server/config/utils.go:157-229 | exactly the numbers below their minimum become their default |
| `ConfigRepair.FixOfMixture` | server/config/utils.go:133-371 | putting any set of repaired settings back to their old values does not change what the next repair gives, in spite of the couplings |
| `ConfigRepair.FixIdempotent` | server/config/utils.go:133-371 | repairing a configuration twice is repairing it once |
| `ConfigRepair.FixEstablishes` | server/config/utils.go:133-371 | afterwards both locales are known, the locale list is good, the site URL and a local directory have their slashes right, numbers meet their minimums and retired flags are off |
| `RepairValues.LocalesRepaired` | server/config/utils.go:328-341 | a supported default locale is kept, any other becomes en, for server and client |
| `RepairValues.AvailableRepaired` | server/config/utils.go:343-368 | an empty locale list stays, one with an unsupported locale is emptied, any other keeps the first occurrences in order with the client locale behind them if it was missing |
| `RepairValues.ChoicesRepaired` | server/config/utils.go:268-325 | a listed TLS version or web server mode is kept and any other becomes 1.2 or uncompressed; the atmos/camo proxy becomes local and every other type stays |
| `RepairValues.SiteUrlRepaired` | server/config/utils.go:134-137 | the site URL loses its trailing slashes, all of them and nothing else |
| `RepairValues.DirectoryRepaired` | server/config/utils.go:139-144 | the directory gets one slash iff the driver is local and the directory is neither empty nor ends in one |
| `RepairValues.OthersRepaired` | server/config/utils.go:133-325 | e-mail settings take the reduced address, numbers below their minimum the default, retired flags false; everything else is kept |
| `ConfigRepair.MattermostSeparate` | server/config/utils.go:133-371 | the repaired settings of the real configuration are pairwise different, so the theorems apply to it |
| `Desanitize.Desanitize` | server/config/utils.go:28-130 | all the guarded, unguarded, list and plugin branches together compute the leaf-wise unmasking, wherever the code does not panic |
| `Desanitize.UnmaskedIff` | server/config/utils.go:28-130 | exactly the masked texts, list entries and plugin settings are replaced, by the actual ones or by nothing; what is not masked stays |
| `Desanitize.NeverPanicsIff` | server/config/utils.go:117-121 | unmasking never looks into a nil section of the actual configuration, whatever is submitted, iff its unchecked sections are all there |
| `StoreRuns.LoadedNeverPanics` | server/config/store.go:180-188 | in any loaded state a set does not run into that panic |
| `Desanitize.DesanitizePlugins` | server/config/utils.go:123-129 | the two nested map loops replace exactly the masked plugin settings |
| `Desanitize.MattermostMasksSeparate` | server/config/utils.go:28-130 | no real setting is masked under two rules, so the method theorem applies to the real list |
| `Desanitize.UnmaskingUndoesMasking` | server/config/utils.go:28-130 | masking any subset of the maskable settings, list entries and plugin settings is undone |
| `ConfigStore.Emitter.AddListener` | server/config/emitter.go:21-26 | the listener is registered under the generated id, which is returned; removing it again restores the others if the id was unused |
| `ConfigStore.Emitter.RemoveListener` | server/config/emitter.go:28-31 | the listener is removed |
| `ConfigStore.Emitter.InvokeConfigListeners` | server/config/emitter.go:33-40 | every registered listener is called exactly once with the pair, in some order |
| `ConfigStore.BackingStore.Set` | server/config/memory.go:59-69 | a successful write replaces what is stored, a failed one leaves it |
| `ConfigStore.Store.Set` | server/config/store.go:168-241 | the fields, the backing store and the announcements after a set are those of the specified step, in every outcome |
| `ConfigStore.Store.Load` | server/config/store.go:244-346 | the same for a load, including a failed one that has used up the custom defaults |
| `StoreSteps.SetOutcome` | server/config/store.go:168-241 | a set, setting by setting: its result; the live view is the repaired overlay of the unmasked submission, the stored view keeps reported overrides, read-only flags stay, what is stored is the stored view, and it is announced iff the live view changed where it counts |
| `StoreSteps.LoadOutcome` | server/config/store.go:244-346 | a load, setting by setting: it reads the stored value, else the custom default, else an empty site URL; its result, both views, when it writes back, when it is announced, and what a failed one leaves |
| `StoreSteps.StoredSettingLoads` | server/config/store.go:265-289 | a stored setting that defaults and repair leave alone is loaded as it was stored, whatever the custom defaults say |
| `StoreSteps.ReadOnlyRun` | server/config/store.go:168-346 | over every run a read-only store keeps what is stored |
| `StoreSteps.ReadOnlyStep` | server/config/store.go:168-346 | a read-only store refuses every set, which changes nothing |
| `ConfigStore.Store.RemoveEnvironmentOverrides` | server/config/store.go:152-156 | the reported leaves of the argument are replaced by the stored ones and the store is unchanged |
| `ConfigStore.Store.SetReadOnlyFF` | server/config/store.go:160-164 | only the switch changes |
| `StoreRuns.RelaidFix` | server/config/store.go:180-215 | overlaying and repairing a mixture of a configuration with its own overlaid repair gives the same result again |
| `StoreRuns.CandidateReproduced` | server/config/store.go:192-215 | taking the overrides off a candidate and overlaying and repairing again reproduces it, if unparsable overrides were left alone |
| `StoreRuns.SetSound` | server/config/store.go:168-241 | in any environment a set keeps what holds in every loaded state: complete views, a valid live view that is its own repaired overlay, flags that agree, a settled stored view |
| `StoreRuns.SetKeeps` | server/config/store.go:168-241 | a set keeps the invariant if unparsable overrides were left alone |
| `StoreRuns.UnparsedKeptIff` | server/config/store.go:180-193 | the condition on the submitted configuration is the one the pipeline needs of its candidate |
| `StoreRuns.SetConsistentIff` | server/config/store.go:168-241 | from any loaded state, after a successful set the live view is the repaired overlay of the stored one iff, for each override that does not parse, what was submitted is repaired to what is stored |
| `StoreRuns.LoadEstablishes` | server/config/store.go:244-346 | a successful load establishes the invariant from any state, first load and custom defaults included |
| `StoreRuns.RunSound` | server/config/store.go:168-346 | over all runs, failing steps included and whatever the environment, the loaded-state invariant holds |
| `StoreRuns.RunInvariant` | server/config/store.go:168-346 | over all runs in an environment that parses: live == repair(overlay(stored)), the stored view is settled, the live view is valid |
| `StoreRuns.RunConsistentIff` | server/config/store.go:168-346 | in any environment live == repair(overlay(stored)) throughout a run iff every successful set left the unparsable overrides of its state alone |
| `StoreExamples.AssumptionsCanBeMet` | server/config/store.go:71-84 | the assumptions of the run theorems hold for an installation with the real repaired and masked settings, an override, a flag, a secret and defaults that couple and replace settings, and its first load reaches a reachable state with the invariant |
| `StoreExamples.DeveloperSwitchIsLost` | server/config/store.go:168-241 | with MM_SERVICESETTINGS_ENABLEDEVELOPER set to a text that is no bool, switching it on takes effect, is not stored, and the next reload is loud |
| `StoreExamples.FilesDirectoryIsLoud` | server/config/store.go:168-346 | with MM_FILESETTINGS_DRIVERNAME set to another driver, storing a directory without a slash makes the next reload loud although every override parses |
| `StoreExamples.MetricsStateIsAnnounced` | server/public/model/config.go:3761-3764 | with MM_METRICSSETTINGS_ENABLE set to true in a new installation, setting what Get returned adds a plugin state and notifies the listeners |
| `StoreExamples.MetricsStateIsLoud` | server/public/model/config.go:3761-3764 | with the stored switch on and MM_METRICSSETTINGS_ENABLE set to false, setting an empty configuration makes the next reload loud, although the override parses and touches no coupled setting |
| `StoreExamples.SiteUrlKeepsOverride` | server/config/environment.go:89-197 | with MM_SERVICESETTINGS_SITEURL_X set, the override stays in what is left after taking the overrides off |
| `StoreExamples.FlaggingKeepsOverride` | server/public/model/content_flagging_settings.go:193-196 | so does MM_CONTENTFLAGGINGSETTINGS_ENABLECONTENTFLAGGING, which names a setting of an embedded struct |
| `StoreRuns.MaskedSetIff` | server/config/store.go:168-241 | in any loaded state, sending back what Get returned with any secrets masked leaves Get unchanged and notifies nobody iff, at every setting no variable assigns, what the defaults make of it is repaired back to the live value; otherwise it is refused, or Get changes and one notification is added |
| `StoreRuns.MaskedSet` | server/config/store.go:168-241 | in particular nothing changes and nobody is notified if the defaults leave the settings of it alone that no variable assigns |
| `StoreRuns.QuietReloadIff` | server/config/store.go:244-346 | reloading what was stored last is quiet iff the defaults change nothing in it that the repair would not put right, the stored directory and locale list agree with the settings they depend on, and the live view fits the stored one |
| `StoreRuns.SetThenLoadIff` | server/config/store.go:168-346 | a load right after a successful set is quiet iff the caller left the unparsable overrides alone and what was to be stored meets its couplings and is left alone by the defaults, all judged before the set |
| `StoreRuns.QuietReload` | server/config/store.go:168-346 | if the environment overrides none of the coupled settings, a load right after a successful set changes neither view outside the flags, writes nothing and notifies nobody, iff the unparsable overrides were left alone and the defaults leave alone what was to be stored |
| `StoreRuns.StepReaches` | server/config/store.go:168-346 | in any environment a step adds at most one notification, at the end; a failed step adds none and leaves both views alone |
| `StoreRuns.RunChains` | server/config/store.go:217-345 | over every run from a new store, in any environment, the announced pairs link end to end, from the empty configuration to the current one, up to feature flags |
| `ConfigDiff.DiffIsChanges` | server/config/diff.go:96-152 | on two values of one type the labelled recursion succeeds and lists the changes of a reference with relative paths |
| `ConfigDiff.NoChangesIffEqual` | server/config/diff.go:96-152 | there are no changes iff the values are deeply equal |
| `ConfigDiff.SwapSwaps` | server/config/diff.go:96-152 | exchanging the arguments exchanges the two values of every change and nothing else |
| `ConfigDiff.ChangesAntichain` | server/config/diff.go:96-152 | no changed path equals or extends another |
| `ConfigDiff.ChangesIff` | server/config/diff.go:96-152 | a change is listed exactly at each path through structs there in both values, to parts of which one is zero or which are no structs and differ; a changed field is named by itself |
| `ConfigDiff.ReplayRebuilds` | server/config/diff.go:96-152 | setting every changed path to its new value turns base into actual |
| `ConfigDiff.PathOfLabel` | server/config/diff.go:130-134 | the dotted label determines the path |
| `ConfigDiff.DiffCorrect` | server/config/diff.go:96-161 | all these facts together, for the labelled diff a caller gets |
| `LogPaths.EvalSymlinksLenient` | server/config/logger.go:356-383 | the capped loop computes the walk |
| `LogPaths.LenientIff` | server/config/logger.go:356-383 | it succeeds iff the deepest existing ancestor is reached within the cap, nothing below it exists even as a link, and the result is that ancestor in canonical form followed by the missing names in order |
| `LogPaths.DanglingLinkFails` | server/config/logger.go:356-383 | a dangling link at any level of a path makes the walk fail |
| `LogPaths.RelTestIff` | server/config/logger.go:566-573 | the Rel-based test is component-wise containment |
| `LogPaths.PrefixTestIff` | server/config/logger.go:421-432 | the string-prefix test is component-wise containment, the file system root included |
| `LogPaths.ResolveLogFilePath` | server/config/logger.go:395-435 | resolution of the file and of the root, and the containment test, with every error exit |
| `LogPaths.ResolvedManagedDirs` | server/config/logger.go:537-556 | the guarded directories are exactly what the listed ones resolve to, without those that contain the root |
| `LogPaths.ValidateTargets` | server/config/logger.go:501-535 | the verdict on the parsed file targets of one advanced configuration |
| `LogPaths.EnabledTargetsIff` | server/config/logger.go:449-499 | which files are looked at, and in which sections |
| `LogPaths.ValidateLogPaths` | server/config/logger.go:449-499 | accepted iff every enabled file target resolves inside the root and outside every guarded directory; otherwise the first bad one in checking order is named |
| `ConfigTable.DatabaseStore.Set` | server/config/database.go:161-220 | the rows after a set: unchanged for an unchanged checksum or a failed commit, else all deactivated and one active row added |
| `ConfigTable.DatabaseStore.Load` | server/config/database.go:223-240 | the active value, or the initial one |
| `ConfigTable.DatabaseStore.CleanUp` | server/config/database.go:334-352 | the rows that survive, whichever way the database breaks ties |
| `ConfigTable.LastValueIff` | server/config/database.go:161-240 | over any interleaving of sets and cleanups, the active row always holds the value set last iff no set has the checksum, but not the value, of the one before it; the first such set is lost |
| `ConfigTable.CollisionLosesValue` | server/config/database.go:161-240 | of two different texts with one checksum set in a row the second is reported as stored and the first is loaded |
| `ConfigTable.CleanUpSafe` | server/config/database.go:334-352 | a cleanup removes only inactive rows older than the threshold with the five newest all at least as new, and keeps those five |
| `ConfigTable.RunInvariant` | server/config/database.go:161-352 | if the checksum is never blank and tells the texts of the run apart: at most one row is active, and once a set succeeded exactly one is and load returns its value |
| `EvenSplit.DistributeItems` | e2e-tests/cypress/utils/even_distribution.js:4-19 | the generator yields the even sizes, the longer ones first |
| `EvenSplit.GetTestFilesIdentifier` | e2e-tests/cypress/utils/even_distribution.js:21-44 | for all arguments: an error iff the part exceeds the count, no slice for a negative part, else the slice that starts where the parts before it end |
| `EvenSplit.OffsetEnds` | e2e-tests/cypress/utils/even_distribution.js:21-44 | the parts begin at 0 and end at the total |
| `EvenSplit.OwnerExists` | e2e-tests/cypress/utils/even_distribution.js:21-44 | every file belongs to some part |
| `EvenSplit.OwnerUnique` | e2e-tests/cypress/utils/even_distribution.js:21-44 | no file belongs to two parts |
| `EvenSplit.Balanced` | e2e-tests/cypress/utils/even_distribution.js:4-19 | two parts differ by at most one file |
| `EvenSplit.RunPart` | e2e-tests/cypress/run_tests.js:88-116 | the selected files are run once each, in order, and the attempt counters number the runs of each file from one; a part beyond the count is an error before anything runs, unless there is nothing to run |
| `EvenSplit.RepeatedAt` | e2e-tests/cypress/run_tests.js:88 | the copies of a file stand next to each other, in the order of the files |
| `EvenSplit.ReportsAt` | e2e-tests/cypress/run_tests.js:104-116 | each report names the file that was run and how often it was run by then |
| `EvenSplit.EveryFileRuns` | e2e-tests/cypress/run_tests.js:88-116 | over all parts every file is run exactly its stress count per listing |
| `ChannelStream.AfterSent` | server/channels/api4/channel.go:1399-1411 | a request from the last id sent continues exactly behind it |
| `ChannelStream.JoinedShape` | server/channels/api4/channel.go:1416-1433 | a joined list has every channel once, in order, with one comma less than channels |
| `ChannelStream.JoinedAt` | server/channels/api4/channel.go:1416-1433 | channels and commas take turns, beginning and ending with a channel |
| `ChannelStream.EncodePage` | server/channels/api4/channel.go:1424-1433 | one page is the comma-joined list of its channels |
| `ChannelStream.Fetch` | server/channels/api4/channel.go:1399-1411 | a request answers with the next channels, and with fewer than asked only at the end |
| `ChannelStream.GetChannelsForUser` | server/channels/api4/channel.go:1386-1443 | the loop ends; it writes one closed array of all channels, also when the page size divides their number; an empty list is an error, and a failing request leaves the pages before it |

## Left out

- ShardTimings.ParseEvents: starts from parsed pass events with rounded, non-negative times; JSON and JUnit parsing, and negative or absent times, are not modelled.
- ShardItems.BuildItems: a cache key is a pair of package and test instead of a string joined with "::"; names that themselves contain "::" would be confused by the code.
- ShardSolver.RunSolver: the outputs are lists and a map; the space-joined lines, the regular expressions and the order of the lines in the heavy-run file are not modelled, nor are the parsing of SHARD_INDEX and SHARD_TOTAL and the logged report.
- LoadBalance.LongestFirstBound: durations are integers, as the script rounds them; overflow of JavaScript numbers is not modelled.
- Brotli.BrotliResponseWriter.Hijack: hijacking is modelled as a step but left out of the run theorems, as are 101 responses, HEAD requests, Content-Length checks and network errors in net/http, its own content sniffing, and the negotiation of Accept-Encoding.
- Brotli.BrotliResponseWriter.Write: the compressor is an abstract codec; its pool and buffer reuse are not modelled.
- ShardItems.Listed: trimming knows the white space of ECMAScript; the exit status and the time limit of `go test -list` only decide whether there is a listing.
- Environment.ResolveIff: field names without underscores that differ in upper case within one struct, as Go's names here do; a variable that names a pointer section itself (such as the feature flags) is not modelled, and the panic on a nil pointer section or a nil embedded pointer neither. FieldByNameFunc is that of Go's reflect package, on a tree of types.
- Overlay.OverridePathsIff: pointer sections are not descended into, as in the code; the shared backing array of the path collector, which could matter only for leaves at depth four or more, is not modelled. The optional field filter is left out.
- Overlay.ApplyEnvironmentMap: the types of settings are text, flag, 64-bit number, text list and plugin table; JSON decoding of tables is a function. Other numeric widths are left out.
- ConfigRepair.FixConfig: the numeric settings, their minimums and their defaults are a table instead of the list in the code; reduction of an e-mail setting to a usable address is an idempotent function; the changed flag and the logging are left out.
- Desanitize.Desanitize: works on values, so sharing of pointers between the two configurations is not modelled; the maskable settings are those of the code, with nil pointers as absent paths and a nil section as one without settings. Inputs on which the code panics are excluded by a precondition, which loaded stores meet. A setting value in the plugin table is text or anything else, not told apart further.
- ConfigStore.Emitter.AddListener: the random id is an argument.
- ConfigStore.Store.Set: configurations are values, so that Clone is deep is assumed rather than shown; the lock makes each method one step, and a callback that calls the store is a further step of the run rather than a nested one, so the order in which one listener sees nested announcements is not modelled.
- ConfigStore.Store.Load: JSON encoding is lossless; validity is a predicate on the flags and one on everything else; SetDefaults is any function that leaves no setting missing, so the hundreds of real defaults are not listed and the salts it generates at random are not modelled. The order in which listeners are called is arbitrary, and sync.Map's behaviour under concurrent registration is not modelled.
- ConfigStore.BackingStore.Set: the backing store is the memory store's one configuration; its files, the file store and DSN parsing are left out.
- ConfigDiff.DiffCorrect: the two values have one type, as both are configurations; ConfigDiffs.Sanitize and the text and audit forms are left out. Slices, maps and scalars are compared as a whole, as the code does, and negative zero is not modelled.
- ConfigTable.DatabaseStore.Set: a transaction is atomic; interleavings of SQL statements of several servers are not modelled, nor the length limit of a stored value.
- ConfigTable.LastValueIff: the stored text is not empty, since an encoded configuration never is.
- ConfigTable.DatabaseStore.CleanUp: the threshold is a parameter instead of a reading of the clock.
- LogPaths.EvalSymlinksLenient: EvalSymlinks, Lstat and Abs are functions of a fixed file system; changes between the calls, and a failing Abs, are not modelled. Paths are lists of clean names, on which Dir, Base and Join are the obvious operations.
- LogPaths.ValidateLogPaths: takes the parsed targets and the candidate managed directories; parsing the advanced JSON, collecting the directories and completing the log file location are left out. Blank directory names are recognised by ASCII and Latin-1 white space.
- EvenSplit.GetTestFilesIdentifier: the arguments are parsed integers, 0 for one that is missing or no number; the division in floating point, which is exact for these sizes, is left out.
- EvenSplit.RunPart: the counters of passed, failed and skipped tests, the reports and the Cypress run itself are left out. The stress count is the one the code uses after raising it to one.
- ChannelStream.GetChannelsForUser: ids matter only through their order, and the pages come from one snapshot; JSON encoding of a channel and failing writes, which the code only logs, are left out.
- The configuration files of the database store, HTTP handlers, permissions and audit records: they would only add easy members.
- The client configuration table in server/config/client.go: a long list without state.
