# Verified models of the release and CI tooling

This project models the scripts that decide what CI runs, what a release ships and what a clean-up
removes, and proves what they are for. Each script has a module that does what the code does, branch by
branch, written as the source is: expressions as functions, loops as methods, objects that are changed in
place as classes. The methods are proved equal to specification functions, and the theorems are about
those.

`dafny verify dfyconfig.toml` checks all of it.

## What is modelled

- **The e2e shard planner** (`scripts/plan_e2e_shards.py`). `Measuring` sums JUnit times and resolves test
  files; `Packing` is longest-first packing with its conflict rule; `Planning` opens directories until the
  heaviest bin is near the ideal; `Collection`, `Sharding` and `ShardPlan` turn bins into shard arguments
  and say who collects what. `LptBound`, `PackingTheorems`, `PackingConflicts`, `PackingLegal`,
  `PackingWeights`, `PackingOverload`, `PlanningTheorems`, `ShardingTheorems`, `ShardBlocks`,
  `ShardPlanTheorems` and `ShardSeconds` hold the proofs;
  `ShardPinned` is the pinned list as it is, and `ShardNameClash` and `ShardClashRun` are plans, and one
  run, that collect a file twice.
- **What a diff added** (`scripts/codeql_scope.py`): `DiffScope`, `GitPaths`, `Utf8`, with
  `DiffScopeTheorems`, `DiffScopeExact` and `DiffScopeReading`.
- **Two boolean languages turned into Python** (`scripts/check_ci_job_results.py`,
  `scripts/check_pytest_census.py`): `PythonBool` is one model of `not`, `and`, `or` and parentheses as
  section 6.11 of the Python Language Reference has them, and of how they may be laid out in lines
  (section 2.1); `PythonText` and `PythonReading` say which texts are read as which trees; `JobConditions`
  and `MarkerSelection` are the translations, with `JobConditionsTheorems`, `JobConditionsReading` and
  `MarkerReading`.
- **Pruning an OpenAPI document** (`scripts/prepare_client_openapi.py`): `JsonValues`, `OpenApi`,
  `OpenApiTheorems`.
- **Nightly versions and their feed** (`desktop/scripts/nightly_update.py`): `NightlyVersions`,
  `NightlyFeed`.
- **Fingerprints of runtime archives** (`scripts/runtime_artifacts.py`): `Fingerprints`,
  `FingerprintTheorems`, `FingerprintText`.
- **The clean-up plan** (`scripts/dev_disk_hygiene.py`): `StaleArtifacts`, `StaleTheorems`, `CleanupPlan`,
  `CleanupTheorems`, `CleanupExact`.
- **Shell comments** (`scripts/check_release_parity.py`): `ShellComments`, beside the reading of section 2.3
  of the Shell Command Language in POSIX.1-2017.
- **Updater key ids** (`desktop/scripts/check_updater_key.py`): `UpdaterKeys` and `UpdaterKeysExact`, with
  base64 as section 4 of RFC 4648 has it.

`Options`, `Numbers`, `Text`, `CharClasses`, `Paths` and `Sorting` are shared.

## Where the code does not do what it says

- `_pack` claims to be within 4/3 of the optimum. Against every way of sharing the items out that keeps the
  two sides of the conflict rule apart, it is so for all weights if and only if one side has no item, or
  there are no more items than bins, or there is one item more than two or more bins and just one on each
  side (`ClaimHoldsIff`). Four items in the three bins of the packed lane already break it
  (`ConflictBreaksTheBound`). The packer can also refuse to place what fits (`GreedyExitsThoughFeasible`):
  for some weights, if and only if one side has an item for every bin and the other has any
  (`PacksWhateverTheWeights`).
- Every test under the catch-all roots is collected by exactly one shard if and only if no other packed
  shard has the catch-all's name. Shards are named after their heaviest module, so one directory of three
  equal files, opened across the three bins, already breaks it (`HeavyDirectoryCollectedTwice`); `PlanIdentity`
  is such a run from its report to its plan.
- The seconds the shards report add up to the run's if and only if the cases whose file was not found took
  no time (`ShardSeconds.PlannerSecondsAddUp`).
- A diff's ranges survive being written out and read back if and only if no path that gains lines has a
  space, a line break or white space in front: git puts a tab after a name with a space, which the parser
  keeps as part of it (`ScopesExactlyIffSafe`).
- A reference below a schema is taken for the name of the part, not of the schema
  (`NamesDirectReferencesOnly`), and the schema it points into is then dropped (`PointedIntoIsDropped`)
  unless something else names it (`PointedIntoKeptIff`).
- Publishing a nightly build again keeps its feed, except a newly made feed with a NaN in it, which is not
  equal to itself (`RepublishKeepsFeed`).
- With a newline in a file's name, two different trees have one fingerprint text (`NewlineIsAmbiguous`).
- A job's condition with a line break outside parentheses passes the structure check, which is said to
  prevent syntax errors, and is then reported as not to be evaluated (`PrintedConditionDecides`). So does one
  with single bars between comparisons, where the check is for two (`SingleBarsPass`).
- The clean-up plan removes nothing twice if and only if no removed worktree has one in it that loses
  anything itself (`PlanRemovesApart`), and takes no worktree that stays if and only if no removed one has
  one in it (`SurvivorsStand`).
- `#` after an escaped space is cut off as a comment (`EscapedSpaceIsTakenForABreak`), which the docstring
  allows for; but `#` after an operator is not cut off (`OperatorIsNotTakenForABreak`), which is the
  direction it calls dangerous. `KeepsWhatTheShellReads` and `StripsEnough` say exactly when the scanner is
  right, and when it strips no less than the shell.
- A minisign signature file with a character that is not ASCII is refused, while its base64 is accepted
  (`FormsAgree`).

## Model

| member | source | states |
|---|---|---|
| Measuring.ResolveFile | scripts/plan_e2e_shards.py:294-312 | the loop over ever shorter dotted prefixes finds what `Resolve` says |
| Measuring.ResolvesToLongest | scripts/plan_e2e_shards.py:294-312 | the file found is the longest dotted prefix that is a real file, below the directory; nothing is found only when no prefix is one |
| Measuring.MeasureCases | scripts/plan_e2e_shards.py:325-339 | after the pass over the cases every directory and file sum is the total of its own cases, and a directory is marked exactly when one of its cases has no file |
| Measuring.MarkUncovered | scripts/plan_e2e_shards.py:340-348 | the second pass adds exactly the directories whose files miss more than 0.05 of their time |
| Measuring.Measure | scripts/plan_e2e_shards.py:315-351 | sums and unsplittable directories of the whole run, each characterised by the cases and the tree alone |
| Measuring.CoveredExactly | scripts/plan_e2e_shards.py:340-348 | where every case resolves, a directory's files account for all of its time |
| Measuring.UnsplittableIffUnresolved | scripts/plan_e2e_shards.py:315-351 | with directories apart, a directory cannot be split if and only if one of its cases has no file: the tolerance never decides |
| Packing.TargetIsLeast | scripts/plan_e2e_shards.py:455-473 | the bin chosen is the first of the least loaded that the conflict rule allows, and none is chosen only when it allows none |
| Packing.ModuleIs | scripts/plan_e2e_shards.py:354-357 | the module of a path below `app/modules/` is the name that comes next, and of any other path `core` |
| Packing.Pack | scripts/plan_e2e_shards.py:438-476 | the loop that updates loads in place packs as the specification does, failing at the same item |
| PackingTheorems.PackedInOrder | scripts/plan_e2e_shards.py:463 | the items are packed as they are, heaviest first and equal ones by name, by code point where the names first differ |
| PackingTheorems.PackPartitions | scripts/plan_e2e_shards.py:463-476 | every item is in exactly one bin, and a bin's names, load and modules are those of its items |
| PackingTheorems.RunRecords | scripts/plan_e2e_shards.py:452-476 | the same at every step, not only at the end |
| PackingTheorems.PackIgnoresOrder | scripts/plan_e2e_shards.py:438-463 | the result depends on the items and not on the order they come in, which makes the committed plan reproducible |
| PackingTheorems.RunStaysPeaceful | scripts/plan_e2e_shards.py:452-475 | at no step does a bin hold modules of both sides of the conflict |
| PackingTheorems.PlacementRule | scripts/plan_e2e_shards.py:463-475 | a step puts its item on the least loaded bin without the opposing side, the first of equals, and fails only when every bin holds the opposing side |
| PackingTheorems.ExitsIffForced | scripts/plan_e2e_shards.py:463-471 | the packing fails if and only if at some item every bin holds a module of the opposing side |
| LptBound.ListSchedulingBound | scripts/plan_e2e_shards.py:443-475 | in any order, a greedy load is at most 2 - 1/m times any assignment's heaviest |
| LptBound.SomeSingleHasRoom | scripts/plan_e2e_shards.py:443-475 | the pigeonhole step: among jobs over a third of the bound some bin with one job has room for the next |
| LptBound.BigJobsFit | scripts/plan_e2e_shards.py:443-475 | jobs over a third of the bound never push a greedy bin past it |
| LptBound.LptIsFourThirds | scripts/plan_e2e_shards.py:443-475 | heaviest first, 3 m times a greedy load is at most 4 m - 1 times any assignment's heaviest |
| PackingTheorems.PackWithinFourThirds | scripts/plan_e2e_shards.py:438-476 | without conflicting modules the packing succeeds and its heaviest bin is within (4m - 1)/3m of any other partition's |
| PackingLegal.FewArePackedBest | scripts/plan_e2e_shards.py:438-476 | with no more items than bins the packing succeeds and no partition has a lighter heaviest bin, conflict or not |
| PackingLegal.OneMoreIsPackedBest | scripts/plan_e2e_shards.py:438-476 | nor has any that keeps the sides apart, with one item more than bins and just one on each side |
| PackingOverload.ClaimHoldsIff | scripts/plan_e2e_shards.py:443-476 | for all weights the packing succeeds and is within (4m - 1)/3m of every partition that keeps the sides apart, if and only if one side has no item, or there are no more items than bins, or one more than two or more bins and just one on each side |
| PackingOverload.ConflictBreaksTheBound | scripts/plan_e2e_shards.py:443-476 | it is not in general: four items in three bins, for any names on the two sides, with a partition that keeps the sides apart |
| PackingTheorems.GreedyExitsThoughFeasible | scripts/plan_e2e_shards.py:465-471 | the packing can fail on items that fit: a family of three, with a sharing-out that keeps the sides apart |
| PackingConflicts.PacksWhateverTheWeights | scripts/plan_e2e_shards.py:455-476 | packing succeeds whatever the weights if and only if neither side has as many items as there are bins while the other has any; otherwise some positive weights make it fail |
| Planning.PlanBins | scripts/plan_e2e_shards.py:486-528 | the bounded loop gives the bins that repacking without a bound ends with |
| Planning.OpeningsFit | scripts/plan_e2e_shards.py:512-515 | a plan of one or more paths opens fewer directories than the loop has rounds, so the loop ends by a break and never by running out |
| PlanningTheorems.NextIsNext | scripts/plan_e2e_shards.py:516-525 | what the loop opens is the first of the heaviest that can be opened, in the first of the heaviest bins, which is over the tolerance; and it opens nothing only when there is no such directory |
| PlanningTheorems.PlanIsPacking | scripts/plan_e2e_shards.py:509-528 | the result is one packing of the paths with some directories opened, each of them the one to open in the bins that the openings before it left |
| PlanningTheorems.PlanSettles | scripts/plan_e2e_shards.py:515-528 | at the end the heaviest bin is within the tolerance or holds nothing that can be opened |
| PlanningTheorems.OpenAllKeepsApart | scripts/plan_e2e_shards.py:526 | opening directories keeps the units apart and under what they came from |
| PlanningTheorems.PlanStaysPeaceful | scripts/plan_e2e_shards.py:509-528 | after any number of openings no bin holds modules of both sides |
| PlanningTheorems.PlanConservesWeight | scripts/plan_e2e_shards.py:509-528 | opening and repacking neither lose nor add time |
| PlanningTheorems.MeasuredIsSound | scripts/plan_e2e_shards.py:275-291 | what a run measures is what the planner relies on: files are files, below their directory |
| PlanningTheorems.MeasuredIsExact | scripts/plan_e2e_shards.py:315-351 | and a directory that may be split weighs what its files weigh |
| Collection.TopmostCovers | scripts/plan_e2e_shards.py:531-541 | dropping covered paths changes nothing that is ignored and leaves none inside another |
| Collection.RenderCollects | scripts/plan_e2e_shards.py:544-574 | rendered to text and read back, arguments collect exactly the members, or what is under the roots and not given away |
| Collection.Collectors | scripts/plan_e2e_shards.py:556-574 | the loop names exactly the shards that collect the path |
| Collection.CollectorIff | scripts/plan_e2e_shards.py:556-574 | a shard is named if and only if its text collects the path |
| Sharding.TakesIsCovers | scripts/plan_e2e_shards.py:928-948 | a shard's text collects a path exactly when the path is its own and not given away |
| ShardPlanTheorems.GroupBlock | scripts/plan_e2e_shards.py:867-882 | a pinned group's shards: only the first has roots, the group's directories; members lie under them and none holds another or is held twice; no other shard has the first's name |
| ShardPlanTheorems.GroupInOrder | scripts/plan_e2e_shards.py:867-882 | they are as many as the group asks for, numbered from the second on, the roots go to a lightest, and together they hold all the group's directories or the files they were opened into |
| ShardPlan.PlanPinned | scripts/plan_e2e_shards.py:867-882 | all pinned groups, in order |
| ShardPlanTheorems.PackedUnlessPinned | scripts/plan_e2e_shards.py:861-897 | a directory is packed if and only if it was measured or is on disk and no group has it, overlays aside |
| ShardPlanTheorems.PackedBlock | scripts/plan_e2e_shards.py:895-905 | the packed shards: as many as bins, none empty, only the first with the catch-all roots, their members packed directories or files below them, none in two shards or in another, every packed directory or all its files among them, each shard named after the module of its first heaviest member, or its alias |
| ShardingTheorems.CollectedOnce | scripts/plan_e2e_shards.py:910-948 | every path under the catch-all roots, measured or not, is collected by exactly one shard that is no overlay, when names are apart |
| ShardingTheorems.SameNameCollectsTwice | scripts/plan_e2e_shards.py:929-934 | a shard with its roots shard's name shares every member with it |
| ShardingTheorems.CollectedOnceIffNamesApart | scripts/plan_e2e_shards.py:903-948 | exactly-once holds if and only if no shard shares its name with the roots shard of its family |
| ShardingTheorems.ReportedSecondsAddUp | scripts/plan_e2e_shards.py:909-962 | then the shards' seconds, overlays aside, add up to the seconds of the files measured |
| ShardPlanTheorems.PlannerCollectsOnceIffNamesDiffer | scripts/plan_e2e_shards.py:853-949 | for every measured run and tree the plan collects every path once if and only if no other packed shard has the catch-all's name |
| ShardPlanTheorems.FileSecondsAddUp | scripts/plan_e2e_shards.py:853-962 | and then the shards' seconds add up to the measured files' seconds, none lost or counted twice |
| ShardSeconds.DirectoriesMakeUpTheRun | scripts/plan_e2e_shards.py:325-333 | the directories' seconds add up to the run's |
| ShardSeconds.FilesMakeUpTheRest | scripts/plan_e2e_shards.py:334-339 | the files' seconds and the time of the cases without a file add up to the run's |
| ShardSeconds.PlannerSecondsAddUp | scripts/plan_e2e_shards.py:325-962 | the shards' reported seconds fall short of the run's by exactly the time of the cases without a file, so they add up to it if and only if that is zero |
| ShardPlanTheorems.CatchAllIsLightest | scripts/plan_e2e_shards.py:899-905 | the catch-all roots go to a lightest bin |
| Sorting.SortStable | scripts/plan_e2e_shards.py:880-901 | sorting keeps what compares equal in order, so that of equally loaded bins the first stays first |
| ShardNameClash.HeavyDirectorySplits | scripts/plan_e2e_shards.py:486-528 | one directory of three equal files is opened across the three bins |
| ShardNameClash.HeavyDirectoryNamesClash | scripts/plan_e2e_shards.py:898-905 | which then all have one name |
| ShardNameClash.HeavyDirectoryCollectedTwice | scripts/plan_e2e_shards.py:898-934 | so the plan is made and some path has no single collector |
| ShardClashRun.PlanIdentity | scripts/plan_e2e_shards.py:315-934 | a run in which that happens, from three cases in the report to the plan, with the pinned list as it is |
| ShardPinned.PinnedIsAConfig | scripts/plan_e2e_shards.py:71-223 | the pinned list as written meets what the exactly-once theorem asks of one |
| DiffScope.ParseUnifiedDiff | scripts/codeql_scope.py:34-65 | the loop over the lines is the line state machine, refusing only text git never writes |
| DiffScope.ReadRanges | scripts/codeql_scope.py:89-104 | the loop over the file's lines adds what each reads as: numbers as `int` takes them, signs, underscores and spaces included |
| CharClasses.SpaceIff | scripts/codeql_scope.py:95-96 | the characters `str.strip` drops and `str.splitlines` cuts at |
| DiffScopeTheorems.HunkHeaderRead | scripts/codeql_scope.py:31-63 | a printed hunk header gives back the new side's start and length, left out when one |
| DiffScopeReading.HunkIff | scripts/codeql_scope.py:31-63 | a line is taken for a hunk header if and only if it begins as one, and then with that start and length |
| DiffScopeTheorems.BodyLineIgnored | scripts/codeql_scope.py:42-57 | inside a hunk no line of text is taken for a header, whatever it looks like |
| DiffScopeTheorems.DiffFed | scripts/codeql_scope.py:34-65 | parsing a printed diff records exactly its files' spans, in order |
| DiffScopeTheorems.SpanReadsBack | scripts/codeql_scope.py:81-104 | a written range reads back as itself, colons and dashes in the path notwithstanding |
| DiffScopeReading.RangeIff | scripts/codeql_scope.py:95-103 | a line of the ranges' file is taken for a range if and only if it is a path, a colon and two numbers as `int` reads them around a dash; all others are skipped |
| DiffScopeTheorems.TouchedIffAdded | scripts/codeql_scope.py:34-108 | for paths with no space, line break or white space in front, a line is touched exactly when the diff added it |
| DiffScopeExact.TouchedNames | scripts/codeql_scope.py:49-104 | whatever the diff, a name that can be touched is plain, and one with a space ends in a tab |
| DiffScopeExact.ScopesExactlyIffSafe | scripts/codeql_scope.py:34-108 | the touched lines are the added lines if and only if every path that gains lines is such a path |
| Utf8.DecodesEncoded | scripts/codeql_scope.py:77-78 | decoding undoes encoding for every string, as section 3 of RFC 3629 has it |
| Utf8.DecodesIff | scripts/codeql_scope.py:77-78 | bytes decode if and only if they are some string's encoding |
| GitPaths.UnescapesEscaped | scripts/codeql_scope.py:75-78 | named and octal escapes recover every sequence of bytes |
| GitPaths.UnquotesGitForm | scripts/codeql_scope.py:68-78 | unquoting undoes git's quoting for every path, quoted or not |
| GitPaths.UnquotesQuoted | scripts/codeql_scope.py:68-78 | only a text in double quotes is unquoted, and any other is a path as it is |
| GitPaths.GitFormIsPrintable | scripts/codeql_scope.py:71-73 | a path as git writes it has printable ASCII only |
| PythonBool.PrintedTreeEvaluates | scripts/check_ci_job_results.py:94-98 | the tokens of a tree, with parentheses where precedence needs them, evaluate to the tree's value |
| PythonReading.TokensAreATree | scripts/check_ci_job_results.py:94-98 | and tokens have a value only if they are a tree's with that value |
| PythonText.LaidOutIff | scripts/check_ci_job_results.py:94-100 | tokens under any spacing are laid out as one expression if and only if parentheses match, line breaks stand in parentheses or around the whole with no indentation left behind them, and other spacing is spaces, tabs and form feeds |
| PythonText.WrittenTreeEvaluates | scripts/check_ci_job_results.py:94-100 | the text of a tree evaluates to its value if and only if it is laid out so, and is a syntax error otherwise |
| PythonReading.AnswersIff | scripts/check_ci_job_results.py:94-100 | a text has a value if and only if it is a tree's so laid out, and then that tree's |
| JobConditions.SubstituteTests | scripts/check_ci_job_results.py:75-88 | the left-to-right substitution and the list it fills |
| CharClasses.NameIff | scripts/check_ci_job_results.py:53-54 | the characters of an output's name and of an event's |
| JobConditions.Evaluate | scripts/check_ci_job_results.py:62-100 | the whole translation with its refusals, a caught syntax error among them |
| JobConditionsTheorems.SubstitutePrinted | scripts/check_ci_job_results.py:77-88 | under any spacing, line breaks included, substitution leaves one placeholder per comparison and their values in order, or refuses for want of an event |
| JobConditionsTheorems.MarksReplaced | scripts/check_ci_job_results.py:94-96 | replacing one placeholder at a time puts every value in its own place |
| JobConditionsTheorems.PrintedConditionDecides | scripts/check_ci_job_results.py:62-100 | under any white space a printed condition evaluates to its truth value, and is refused if and only if it compares an event and none was given, or its spacing is not as `PythonText.LaidOutIff` has it: breaks in parentheses, as workflows have them, are free |
| JobConditionsReading.DecidedIff | scripts/check_ci_job_results.py:53-100 | a text is decided if and only if it prints a condition under fitting white space, with an event given if one is compared, and as the condition is true or not: nothing else is guessed at |
| JobConditionsReading.OthersAreRefused | scripts/check_ci_job_results.py:53-92 | what the check does not refuse is made of comparisons, at least one, white space, parentheses, bars and ampersands, and the mark itself |
| JobConditionsReading.SingleBarsPass | scripts/check_ci_job_results.py:55-90 | the structure check lets comparisons with single bars between them through |
| MarkerSelection.Selects | scripts/check_pytest_census.py:96-110 | the loop over the tokens and what it renders |
| CharClasses.WordIff | scripts/check_pytest_census.py:84 | the characters a word begins with and goes on with |
| MarkerSelection.ReadsTokens | scripts/check_pytest_census.py:84-103 | the tokens found are those written, whatever the spacing |
| MarkerSelection.WrittenExpressionSelects | scripts/check_pytest_census.py:96-110 | a written expression selects exactly when it is true of the markers, under any spacing and redundant parentheses |
| MarkerReading.SelectedIff | scripts/check_pytest_census.py:96-110 | a text selects a test, or does not, if and only if it writes an expression that is true of the test's markers, or is not |
| MarkerSelection.StrayCharacterRefused | scripts/check_pytest_census.py:84-109 | an expression is refused if and only if it is not words and parentheses with white space around them and between any two words |
| OpenApi.RefSet.Collect | scripts/prepare_client_openapi.py:33-42 | the set grown by side effect gains exactly the references at any depth |
| OpenApiTheorems.RefsIff | scripts/prepare_client_openapi.py:33-42 | a name is collected if and only if some place in the value, reached by member keys and list indices, is an object whose `$ref` is a reference to a schema that ends in it |
| OpenApi.Pass | scripts/prepare_client_openapi.py:57-62 | one round: nothing unreachable comes in, and a round that changes nothing leaves the set closed |
| OpenApi.Referenced | scripts/prepare_client_openapi.py:52-62 | the loop ends, and the names it leaves are exactly those a chain of references reaches |
| OpenApi.DropOthers | scripts/prepare_client_openapi.py:64-67 | popping leaves exactly the named schemas |
| OpenApi.FilterItem | scripts/prepare_client_openapi.py:83-93 | one path's members without its excluded operations, or the error of tags that cannot be gone through |
| OpenApi.Document.RetainReferenced | scripts/prepare_client_openapi.py:45-67 | in place, the document keeps exactly the reachable schemas, and all of it where there are none to prune |
| OpenApi.Document.FilterPaths | scripts/prepare_client_openapi.py:77-95 | in place, paths lose excluded operations and go when none is left |
| OpenApi.Document.Prepare | scripts/prepare_client_openapi.py:70-100 | the whole preparation in place, and when it raises |
| OpenApiTheorems.KeptIsLeastComplete | scripts/prepare_client_openapi.py:52-67 | the schemas kept are the least set with everything the paths and its own members refer to |
| OpenApiTheorems.NothingDangles | scripts/prepare_client_openapi.py:45-67 | nothing kept refers to a schema that was there and is gone, and those kept are unchanged |
| OpenApiTheorems.OperationsKept | scripts/prepare_client_openapi.py:77-95 | an operation stays if and only if it has no excluded tag, in any case, and its path no excluded prefix; a path goes if and only if no operation stays; what is no operation stays as it was |
| OpenApiTheorems.RaisesIff | scripts/prepare_client_openapi.py:27-93 | filtering raises if and only if some operation's tags are a number, a truth value or null |
| OpenApiTheorems.RestUntouched | scripts/prepare_client_openapi.py:70-100 | nothing but paths and schemas changes |
| OpenApiTheorems.PreparedTwice | scripts/prepare_client_openapi.py:70-100 | preparing a prepared document changes nothing and does not raise |
| OpenApiTheorems.NamesDirectReferencesOnly | scripts/prepare_client_openapi.py:36-37 | a reference is taken for the name it gives if and only if the name has no slash |
| OpenApiTheorems.PointedIntoKeptIff | scripts/prepare_client_openapi.py:33-67 | with schemas that name every schema they point into, no kept part ever points into a dropped one if and only if the paths name every schema they point into |
| OpenApiTheorems.PointedIntoIsDropped | scripts/prepare_client_openapi.py:33-67 | a document whose one operation points below a schema loses that schema |
| NightlyVersions.AcceptedIffShown | desktop/scripts/nightly_update.py:17-26 | a version is accepted with an order if and only if it is that order's one text |
| NightlyVersions.OrderInjective | desktop/scripts/nightly_update.py:22-26 | versions with one order are one version |
| NightlyVersions.OrderIsPrecedence | desktop/scripts/nightly_update.py:22-26 | orders compare exactly as item 11 of Semantic Versioning 2.0.0 compares the versions, attempt or not |
| NightlyVersions.NightlyVersionIs | desktop/scripts/nightly_update.py:29-34 | a version is made if and only if the base is three numerals and run and attempt are positive, and it gives all three back |
| NightlyFeed.Collect | desktop/scripts/nightly_update.py:147-178 | the loop over the platforms fills both dictionaries or stops at the first that fails |
| NightlyFeed.Assemble | desktop/scripts/nightly_update.py:133-200 | the whole decision |
| NightlyFeed.RefusedExactlyWhen | desktop/scripts/nightly_update.py:186-200 | a complete build is refused if and only if the current feed has no nightly version, is newer, or has its version with other artifacts |
| NightlyFeed.NeverGoesBack | desktop/scripts/nightly_update.py:186-200 | from any feed, any publishes leave it or one with a strictly later version |
| NightlyFeed.HistoryMovesForward | desktop/scripts/nightly_update.py:133-200 | over any history of accepted and refused publishes the later of two feeds is the earlier one or has a version that comes strictly after its own, so feeds of one version are identical |
| NightlyFeed.RepublishKeepsFeed | desktop/scripts/nightly_update.py:194-199 | publishing what is published, at any time, succeeds and gives the existing feed back if and only if that is no newly made feed with a value not equal to itself |
| NightlyFeed.FreshIsComplete | desktop/scripts/nightly_update.py:133-188 | a feed is made from scratch if and only if both platforms were staged in full at one nightly version, and then it has each one's own entry and block under its name and the Mac's block at the top |
| Fingerprints.InputLines | scripts/runtime_artifacts.py:158-165 | the nested loops write one line per file, in order |
| FingerprintTheorems.FilesFound | scripts/runtime_artifacts.py:111-120 | the search raises exactly where something is no file or directory, and otherwise finds every file below with its mode and content, and nothing else |
| FingerprintTheorems.FoundInOrder | scripts/runtime_artifacts.py:119-120 | in strictly rising order of path |
| FingerprintTheorems.OrderDoesNotMatter | scripts/runtime_artifacts.py:119-120 | however the file system lists its directories |
| FingerprintText.SameTextIffSameFiles | scripts/runtime_artifacts.py:111-165 | two texts are equal if and only if target, epoch, daemon digest and the files that count, with modes and digests, are |
| FingerprintText.GuestTextIff | scripts/runtime_artifacts.py:152-165 | the text says its target, epoch, daemon digest and list of files, and nothing else |
| FingerprintText.GuestTextGiven | scripts/runtime_artifacts.py:111-165 | a guest has a fingerprint if and only if its target and epoch are given and every input is there, with no link or special file in it |
| FingerprintText.SameImageTextIffSameFiles | scripts/runtime_artifacts.py:168-188 | two workspace images have one text if and only if they agree on the month and on the files that count, with modes and digests |
| FingerprintText.ImageTextGiven | scripts/runtime_artifacts.py:168-188 | an image has one if and only if its epoch is a month and every input is there like that |
| FingerprintText.MonthIff | scripts/runtime_artifacts.py:186-187 | an image's epoch is accepted if and only if it is a year and a month |
| FingerprintText.NewlineIsAmbiguous | scripts/runtime_artifacts.py:161-164 | with a newline in a name two trees that differ have one text |
| Fingerprints.ReusableGuest | scripts/runtime_artifacts.py:318-347 | the first release, newest first, that states the fingerprint and a valid archive; none only when there is none |
| FingerprintTheorems.OffersIff | scripts/runtime_artifacts.py:326-347 | a release offers a guest if and only if its manifest states the fingerprint for the target and a digest of 64 hex digits and a positive size for its archive, and then as those |
| Fingerprints.Output.Reuse | scripts/runtime_artifacts.py:376-414 | the output becomes the archive of the newest release that offers the guest if that archive has the size and digest its manifest states, and is left alone otherwise |
| StaleArtifacts.MatchIsTheName | scripts/dev_disk_hygiene.py:60-64 | a name matches if and only if it can be read as crate, dash, hash and rest, with or without `lib` in front; of several readings the one found has `lib` if any has, and the longest crate |
| CharClasses.HashIff | scripts/dev_disk_hygiene.py:62-64 | the characters of the two kinds of hash |
| StaleArtifacts.StaleIn | scripts/dev_disk_hygiene.py:418-441 | one directory: the nested dictionaries and the list |
| StaleArtifacts.StalePaths | scripts/dev_disk_hygiene.py:403-442 | all profiles |
| StaleTheorems.UnitsHold | scripts/dev_disk_hygiene.py:422-434 | grouping puts every file with those of its crate, kind and hash, in order |
| StaleTheorems.SweepExactly | scripts/dev_disk_hygiene.py:422-441 | artifacts of one crate and ending, where all endings in `.rcgu.o` are one, have a newest hash such that a file goes if and only if it is under another hash and older than the cutoff |
| StaleTheorems.SweptIff | scripts/dev_disk_hygiene.py:411-442 | what is swept is what is stale in the profiles' `deps` and `incremental` directories, each by itself |
| StaleTheorems.OnlyArtifactsGo | scripts/dev_disk_hygiene.py:424-426 | a name that does not match is never removed |
| StaleTheorems.StaleDistinct | scripts/dev_disk_hygiene.py:435-442 | no file is listed twice |
| CleanupPlan.Plan.PlanWorktrees | scripts/dev_disk_hygiene.py:560-631 | which worktrees are removed, and the prune step |
| CleanupExact.WorktreeGoesIff | scripts/dev_disk_hygiene.py:560-612 | a worktree's removal is planned if and only if it is neither main, missing, current nor locked, is idle long enough, merged, clean and pushed, and nothing runs in it |
| CleanupExact.PruneIff | scripts/dev_disk_hygiene.py:621-630 | metadata is pruned if and only if git has some to prune or a worktree is removed |
| CleanupPlan.Plan.PlanTarget | scripts/dev_disk_hygiene.py:650-669 | build output whole, or what is stale in it |
| CleanupPlan.Plan.PlanDependencies | scripts/dev_disk_hygiene.py:670-678 | dependency directories of idle worktrees |
| CleanupExact.DependencyDirsIff | scripts/dev_disk_hygiene.py:445-466 | a directory is taken for a dependency directory if and only if it is right in the worktree, link or not, or at most two visible directories further down |
| CleanupPlan.Plan.PlanBuildOutput | scripts/dev_disk_hygiene.py:634-678 | over all worktrees that stay |
| CleanupExact.TreeGoesIff | scripts/dev_disk_hygiene.py:645-678 | a directory's removal is planned if and only if it is the build output or a dependency directory of a worktree that stays and has not been used for longer than that is kept |
| CleanupExact.SweepIff | scripts/dev_disk_hygiene.py:645-669 | a sweep is planned if and only if it takes all that is stale in the build output of a worktree that stays, is in use or was lately, and is not being built |
| CleanupPlan.Plan.PlanBranches | scripts/dev_disk_hygiene.py:681-747 | which branches are deleted |
| CleanupExact.BranchGoesIff | scripts/dev_disk_hygiene.py:681-747 | a branch's deletion is planned if and only if it is neither protected nor checked out where it stays, is old enough, landed or lost its remote, and has no commit that is on no remote |
| CleanupPlan.MakePlan | scripts/dev_disk_hygiene.py:1042-1051 | the plan in the order it is carried out |
| CleanupTheorems.DependencyDirsApart | scripts/dev_disk_hygiene.py:445-466 | the directories found are reached only through visible ones, each once, and none is in another |
| CleanupTheorems.OutputRemovals | scripts/dev_disk_hygiene.py:645-678 | what one worktree's build output loses never overlaps |
| CleanupTheorems.PlanRemovesApart | scripts/dev_disk_hygiene.py:560-678 | no path the plan removes is another it removes or lies in one, so that no byte is counted twice, if and only if no removed worktree has one in it that is removed or loses build output |
| CleanupTheorems.NestedInRemovedOverlaps | scripts/dev_disk_hygiene.py:560-678 | wherever worktrees lie, what one in a removed worktree loses is removed twice |
| CleanupTheorems.SurvivorsStand | scripts/dev_disk_hygiene.py:560-678 | no removed path is or holds a worktree that stays if and only if none of those lies in a removed one |
| CleanupTheorems.BranchGoesAfterItsWorktree | scripts/dev_disk_hygiene.py:691-747 | a deleted branch is not protected, no surviving worktree has it, and a worktree that has it is removed by a step before |
| ShellComments.WithoutInlineComment | scripts/check_release_parity.py:69-86 | the while loop cuts where the scanner does, a backslash at the end included |
| ShellComments.WithoutIsBeforeComment | scripts/check_release_parity.py:52-86 | however a line is put together of bare, escaped and quoted pieces, what is left is what comes before the first bare `#` at the start of a word |
| ShellComments.EveryLineIsPieces | scripts/check_release_parity.py:69-86 | and every line is put together of such pieces |
| ShellComments.WithoutTwice | scripts/check_release_parity.py:52-86 | stripping a stripped line changes nothing |
| ShellComments.OnlyEscapedSpacesMislead | scripts/check_release_parity.py:52-86 | where an escaped blank ends no word, the scanner cuts rightly if and only if no bare `#` stands behind one before the first comment |
| ShellComments.KeepsWhatTheShellReads | scripts/check_release_parity.py:52-86 | it keeps what the shell reads if and only if no bare `#` before the shell's comment stands behind white space (escaped, or no blank to the shell), and the comment itself does not stand behind an operator |
| ShellComments.StripsEnough | scripts/check_release_parity.py:52-67 | it strips at least what the shell does if and only if the shell's comment does not stand behind an operator, or it cuts at a `#` before it |
| ShellComments.EscapedSpaceIsTakenForABreak | scripts/check_release_parity.py:74-81 | a line of which it keeps less |
| ShellComments.OperatorIsNotTakenForABreak | scripts/check_release_parity.py:81 | a line of which it keeps more |
| UpdaterKeys.DecodesBase64 | desktop/scripts/check_updater_key.py:67-71 | decoding undoes encoding for all bytes |
| UpdaterKeysExact.DecodedIsEncoded | desktop/scripts/check_updater_key.py:67-71 | and what decodes is what its bytes encode as, but for the unused bits of its last character |
| UpdaterKeys.TrimKeepsLines | desktop/scripts/check_updater_key.py:45-51 | stripping a text does not change its payload line |
| UpdaterKeys.FormsAgree | desktop/scripts/check_updater_key.py:74-88 | a minisign text and its base64 have one key id, or neither has any, if and only if the text is ASCII or has no id in it: a text with a comment in it never passes for base64 |
| UpdaterKeys.IdsAgree | desktop/scripts/check_updater_key.py:54-61 | two printed ids are one if and only if the eight bytes agree |
| UpdaterKeysExact.IdInIff | desktop/scripts/check_updater_key.py:43-61 | a text has an id if and only if its first line that is neither empty nor a comment decodes to as many bytes as asked for that begin with an Ed25519 mark, and then the eight bytes behind that backwards in hex |
| UpdaterKeys.PublicKeyRead | desktop/scripts/check_updater_key.py:64-71 | a configured public key gives the id in its key file |
| UpdaterKeys.SignatureRead | desktop/scripts/check_updater_key.py:74-88 | a signature file as it is gives the id of the key that signed, and none when it has a character that is not ASCII |
| UpdaterKeys.EncodedSignatureRead | desktop/scripts/check_updater_key.py:74-88 | its base64 always gives that id |
| UpdaterKeys.ChecksTheKeys | desktop/scripts/check_updater_key.py:91-125 | the check of a file that is all ASCII or of any file's base64 passes if and only if the key ids agree, and in a declared rotation if and only if they do not; any other file is refused |
| UpdaterKeysExact.PassesIff | desktop/scripts/check_updater_key.py:64-125 | whatever is configured and signed, the check passes if and only if one is a public key, the other a signature as it is or in base64, and their ids agree, or in a declared rotation do not |

## Left out

- Times and weights are exact: `real` instead of Python's floats, so rounding in sums, the ideal and the
  tolerance is not modelled.
- Reading sources and other programs: JUnit XML, the session-worker conflict sets, marker reading, `git`,
  `gh`, `docker`, `lsof`, locks and the merge oracle are inputs. So is SHA-256, as a function.
- `verify` and the generated JSON of the planner: test counts, markers, workers and estimated seconds are
  not modelled, nor is rounding reported seconds to a tenth; overlay shards are planned but, like the
  source says, owed no exactly-once.
- ShardPlanTheorems.PlannerCollectsOnceIffNamesDiffer: asks that packed directories lie under the catch-all
  roots, hold no one another and hold no pinned directory, because a shard with roots never looks at its
  member list; paths are without white space and do not begin like an option.
- ShardingTheorems.CollectedOnceIffNamesApart: asks the same of a layout, and that the pinned list is like
  the one `ShardPinned.PinnedIsAConfig` shows.
- PlanningTheorems.PlanConservesWeight: exact arithmetic, as above.
- DiffScope.ParseUnifiedDiff: no answer for quoted names with `\x`, `\u`, `\U` or `\N` escapes or bytes that
  are not UTF-8, none of which git writes; numbers are ASCII digits.
- DiffScope.ReadRanges: digits are ASCII, and a number may be of any length; a malformed range leaves no
  empty entry behind, which nothing can tell.
- Lines of a diff end in a newline; Python's translation of other line ends on standard input is not
  modelled.
- JobConditions.Evaluate: a condition whose skeleton is laid out as an expression and is none gets a
  verdict of its own, because Python may refuse it, call a value, read an empty tuple or apply `|`, `&` or `@`
  as its own operator. CPython's limit of
  two hundred nested parentheses is not modelled. `gating_conditions` and `check` above it only look
  conditions up.
- The lane membership part of `check` in the census script.
- OpenApi.Document.Prepare: lower-casing is ASCII, and dictionaries are maps without an order; what is
  written out is sorted.
- NightlyFeed.Assemble: staging, reading and writing files; equality of JSON values is a parameter, so
  whatever Python takes for equal is covered. A missing or malformed file is no fragment.
- NightlyVersions.OrderIsPrecedence: versions without build metadata, and ASCII digits.
- FingerprintText.SameTextIffSameFiles: the paths of the files found and the target have no newline, and no
  name in those paths a slash; equality of contents is equality of digests. Inputs reached through a link
  are taken as missing.
- FingerprintText.MonthIff: ASCII digits.
- The zip writer, the sidecar, and finding a reusable workspace image, which is the search for a reusable
  guest again.
- StaleArtifacts.MatchIsTheName: names have no newline in them.
- CleanupTheorems.PlanRemovesApart: asks that a worktree lies in another only behind a hidden directory that
  is outside dependency directories and `desktop/target`; paths are compared as text, links to
  directories elsewhere are not followed. Caches, remotes and docker are not planned, nor what is
  reported as kept.
- ShellComments.KeepsWhatTheShellReads: one line on its own, without here-documents, dollar quotes or
  substitutions that are scripts themselves.
- UpdaterKeys.ChecksTheKeys: reading the configuration file. Decoding is Python's strict one.
- The Tauri shell, benchmarks, boot scripts and reporters.
