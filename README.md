# Flight extension core, modelled in Dafny

This project models the text-processing core of the "Flight" VS Code extension, a NestJS CQRS and Cucumber helper. It covers:

- the Cucumber step-definition finder;
- the feature-file test indexer and its test runs;
- the handler and provider resolution pipelines;
- the navigation commands;
- the three CodeLens providers.

The editor, the file system and the language server are inputs, and they live in `workspace.dfy`:

- a `Workspace` answers `findFiles` with an ordered list of paths;
- it answers `openTextDocument` with a text, or `None` when the call throws;
- it answers `executeWorkspaceSymbolProvider` with a sequence of symbols.

Other modelling choices:

- Configuration values are parameters.
- Positions are text offsets for the TypeScript scanners (`OffsetLens`) and line indices for feature files (`LineLens`).
- Every fixed regular expression of the source is written as a hand-made scanner that follows JavaScript's backtracking semantics.
- The one regular expression the user writes, a step pattern, is an uninterpreted `RegexEngine` (`compiles`, `fullMatch`).

Where the code and its description differ, the model follows the code:

- **Pending tags.** They are cleared after every `Scenario:` line inside a feature, even one filed under no profile. The clearing sits inside `if (scenarioMatch && featureItem)`, at src/test/cucumberTestController.ts:158.
- **Self-match score.** `matchesStepPattern(s, s)` is 3 only when `s` neither starts with `^` nor ends with `$`. The anchors are stripped from the pattern alone.
- **Decorator hit.** It points at `export`, not at `class`.
- **Module strategy.** It has no textual fallback.
- **Unescaped class names.** The handler finder and the older command interpolate the class name into their pattern unescaped, so a `.` in the name matches any character but a line terminator, and a `$` is the end-of-input anchor. A `.` can reach the name because the editor's word pattern accepts numbers such as `1.5Command`. A name ending in a run of `$` finds `class <the rest>` only at the very end of the text. A name with any other character after a `$` is never found.

## Model

| member | source | states |
|---|---|---|
| Text.ToLower | src/services/stepDefinitionFinder.ts:135 | lowercasing keeps the length and maps each character through `LowerChar`, which never yields an ASCII upper-case letter |
| Text.Trim | src/test/cucumberTestController.ts:85 | the result starts and ends with a non-space |
| Text.TrimRemovesOnlySpaces | src/services/stepDefinitionFinder.ts:127-128 | `trim` removes exactly the leading and trailing run of JavaScript white space and keeps the middle |
| Text.TrimOfTrimmed | src/services/stepDefinitionFinder.ts:128 | trimming a trimmed string changes nothing |
| Text.IndexOfFrom | src/services/handlerFinder.ts:101 | `indexOf`: the returned index is an occurrence at or after `from` and no earlier occurrence exists; `None` means there is none |
| Text.Split | src/test/cucumberTestController.ts:76 | `split` yields at least one part and no part holds the separator |
| Text.JoinSplit | src/providers/featureFileCodeLensProvider.ts:13 | joining the parts of `split` with the separator gives the text back |
| Text.Lines | src/test/cucumberTestController.ts:76 | `split('\n')` yields at least one line and none holds `\n` |
| Text.SplitWhere | src/test/cucumberTestController.ts:89 | `split(/\s+/)` parts hold no separator character |
| RegexEscape.Escape | src/test/cucumberTestController.ts:276 | escaping never shortens the name |
| RegexEscape.UnescapeEscape | src/services/providerFinder.ts:178-180 | escaping is reversible: removing the backslashes gives the original name |
| RegexEscape.EscapeWithoutMeta | src/commands/runScenario.ts:61 | a name without metacharacters is left untouched |
| RegexEscape.EscapeConcat | src/commands/runScenario.ts:61 | escaping works character by character (it distributes over concatenation) |
| Workspaces.FindFiles | src/services/stepDefinitionFinder.ts:47 | `findFiles` with a cap returns a prefix of the workspace's answer, of at most `maxResults` paths, and the whole answer when it fits |
| Workspaces.CollectFiles | src/services/stepDefinitionFinder.ts:44-49 | the accumulation loop yields the concatenation of every glob's capped answer, so every found file is among them |
| Workspaces.Dedup | src/services/stepDefinitionFinder.ts:52-53 | de-duplication by path keeps exactly the same paths, each once |
| Workspaces.DedupPrefix | src/services/handlerFinder.ts:77 | de-duplication keeps first-seen order: the result for a prefix of the list is a prefix of the result |
| Workspaces.DedupKeepsFirst | src/services/handlerFinder.ts:77 | a path's first occurrence is where it enters the result |
| Workspaces.FirstDecisive | src/services/handlerFinder.ts:81-123 | a file loop with early return: a hit comes from the first file that hits, after only misses; with no result, every hitting file comes after an aborting one |
| ClassSearch.FirstSymbolIndex | src/services/handlerFinder.ts:44-46 | `find` returns the first symbol with the kind and exact name |
| ClassSearch.SymbolLocation | src/services/handlerFinder.ts:44-50 | there is a location exactly when some symbol has the kind and the name, and it is the first such symbol's |
| ClassSearch.ClassSymbol | src/services/providerFinder.ts:139-156 | `findClassDefinition` and `findBySymbol` answer with a Class symbol named exactly as asked, or nothing when there is none |
| ClassSearch.NextClassNamed | src/services/providerFinder.ts:166-167 | `exec` of `class\s+<name>\b` gives the leftmost match |
| ClassSearch.FindClassInDocument | src/services/providerFinder.ts:161-176 | the location is in the document, at the first `class\s+<name>\b`; `None` exactly when nothing matches |
| ClassSearch.NextUnescapedClass | src/services/handlerFinder.ts:170-171 | `exec` of the unescaped `class\s+${name}\b` gives the leftmost match at or after `lastIndex` |
| ClassSearch.UnescapedClassInDocument | src/services/handlerFinder.ts:168-180 | the location is at the first match of the unescaped pattern, with `.` matching any character but a line terminator and `$` as the end-of-input anchor; `None` exactly when nothing matches |
| ClassSearch.UnescapedSearchIsLiteralWithoutDollar | src/services/handlerFinder.ts:170 | without a `$` or a `.` in the name, the unescaped search is the escaped one of the provider finder |
| ClassSearch.PatternWithoutDotIsLiteral | src/services/handlerFinder.ts:170 | a name part without `.` matches exactly its own text |
| ClassSearch.DotMatchesAnyCharacter | src/services/handlerFinder.ts:170-171 | a `.` in the name matches another character: `1.5H` finds `class 1x5H` |
| ClassSearch.DollarBeforeOtherCharNeverMatches | src/services/handlerFinder.ts:170 | a name with a `$` followed later by another character is never found |
| ClassSearch.TrailingDollarAnchorsAtEnd | src/services/handlerFinder.ts:170-171 | `Foo$` finds `class Foo` when it ends the text |
| ClassSearch.TrailingDollarIsNoLiteral | src/services/handlerFinder.ts:170-171 | `Foo$` does not find the literal `class Foo$x` |
| ClassSearch.ClassDeclarationIsFound | src/services/providerFinder.ts:166 | a written-out `class <spaces><Name>` followed by a non-word character is found, no later than its own offset |
| StepDefinitionFinder.NormalisePattern | src/services/stepDefinitionFinder.ts:127-131 | stripping the anchors, trimming and dropping one colon never lengthens the pattern, and what is left does not start with white space |
| StepDefinitionFinder.NormaliseStep | src/services/stepDefinitionFinder.ts:128-132 | trimming and dropping one colon never lengthens the step, and what is left does not start with white space |
| StepDefinitionFinder.MatchesStepPattern | src/services/stepDefinitionFinder.ts:125-215 | the score is at most 3; it is 3 iff the normalised texts are equal ignoring case; when the pattern compiles, 0 iff no full match, 1 iff a match with parameters and 2 iff a match without; the substring fallback (score 1, in either direction) applies only when the pattern does not compile |
| StepDefinitionFinder.SelfMatchIsExact | src/services/stepDefinitionFinder.ts:126-138 | a text without a leading `^` or trailing `$` scores 3 against itself |
| StepDefinitionFinder.NormalFormOfPlainText | src/services/stepDefinitionFinder.ts:127-132 | normalisation leaves a trimmed, unanchored, colon-free text unchanged |
| StepDefinitionFinder.AnchoredSelfMatchIsNotExact | src/services/stepDefinitionFinder.ts:127-138 | a text starting with `^` does not score 3 against itself, since only the pattern loses its anchor |
| StepDefinitionFinder.ColonNormalForm | src/services/stepDefinitionFinder.ts:130-132 | one trailing colon is dropped from step and pattern |
| StepDefinitionFinder.TrailingColonIgnored | src/services/stepDefinitionFinder.ts:130-138 | a trailing colon on either side still gives an exact match |
| StepDefinitionFinder.BracePairIsPlaceholder | src/services/stepDefinitionFinder.ts:161 | any `{` with a later `}` contains a `{[^}]+}`-shaped placeholder |
| StepDefinitionFinder.ParenPairIsGroup | src/services/stepDefinitionFinder.ts:165 | any `(` with a non-`)` after it and a later `)` contains a `\(([^)]+)\)` group |
| StepDefinitionFinder.ParameterisedMatchScoresOne | src/services/stepDefinitionFinder.ts:150-178 | a placeholder or a group in the normalised pattern sets `hasParameters`, so the score is never 2 and a regex match scores 1 |
| StepDefinitionFinder.DefensiveEscapeIsIdentity | src/services/stepDefinitionFinder.ts:182-186 | the defensive escape never changes the pattern |
| StepDefinitionFinder.EscapeWithoutMetaIsIdentity | src/services/stepDefinitionFinder.ts:185 | the escape rewrites only metacharacters |
| StepDefinitionFinder.ArgumentStart | src/services/stepDefinitionFinder.ts:77-80 | `@<keyword>\s*\(\s*` recognised at `i` ends after the keyword and the parenthesis |
| StepDefinitionFinder.HitAt | src/services/stepDefinitionFinder.ts:76-95 | a decorator match at `i` starts with `@` and ends inside the text |
| StepDefinitionFinder.NextHit | src/services/stepDefinitionFinder.ts:83 | `exec` from `lastIndex` returns a match at or after it |
| StepDefinitionFinder.NextHitIsLeftmost | src/services/stepDefinitionFinder.ts:97 | no match starts between `lastIndex` and the one returned |
| StepDefinitionFinder.FirstBest | src/services/stepDefinitionFinder.ts:106-109 | the stable descending sort puts first the earliest candidate of the highest score |
| StepDefinitionFinder.ScanDecorators | src/services/stepDefinitionFinder.ts:82-103 | the `while (exec)` loop appends exactly the graded candidates of the text, in text order |
| StepDefinitionFinder.SearchInFile | src/services/stepDefinitionFinder.ts:62-119 | an unreadable file gives null; otherwise null iff there is no candidate, else the offset of the first best candidate |
| StepDefinitionFinder.FindStepFiles | src/services/stepDefinitionFinder.ts:33-57 | the files are the de-duplicated union of the six globs' answers, capped at 500, with no duplicates |
| StepDefinitionFinder.FindStepDefinition | src/services/stepDefinitionFinder.ts:9-28 | the result is the hit of the first step file that yields one, over all three keyword families |
| StepDefinitionFinder.FirstStepHitIsFirstYieldingFile | src/services/stepDefinitionFinder.ts:18-27 | null iff no file yields a candidate; otherwise the location is in the first file that yields one |
| StepDefinitionFinder.CandidatesAreDecorators | src/services/stepDefinitionFinder.ts:75-104 | every collected candidate scores 1 to 3 and sits on an `@` of the text |
| StepDefinitionFinder.FoundLocationIsDecorator | src/services/stepDefinitionFinder.ts:106-113 | a found location points at an `@` in a readable file |
| StepDefinitionFinder.KeywordLengthAt | src/services/stepDefinitionFinder.ts:230 | a recognised keyword is, ignoring case, one of Given/When/Then/And/But/`*` |
| StepDefinitionFinder.CleanStepText | src/services/stepDefinitionFinder.ts:233-236 | the step text is trimmed, and a trimmed text without trailing colon is kept as is |
| StepDefinitionFinder.StepAfterIndentShape | src/services/stepDefinitionFinder.ts:230-242 | a step found after the indentation starts with its keyword as written, which is one of `Given/When/Then/And/But/*` in any case, and its text is trimmed |
| StepDefinitionFinder.ExtractStepText | src/services/stepDefinitionFinder.ts:229-243 | a parsed line has, right after its leading white space, the keyword as written, one of `Given/When/Then/And/But/*` in any case, and the step text is trimmed |
| StepDefinitionFinder.StepBodyIsOneLine | src/services/stepDefinitionFinder.ts:230 | the `.+?` body never holds a line terminator |
| StepDefinitionFinder.TerminatedLineIsNeverAStep | src/services/stepDefinitionFinder.ts:230 | a line ending in a line terminator is not a step, since `$` has no `m` flag |
| StepDefinitionFinder.StepLineRoundTrip | src/services/stepDefinitionFinder.ts:229-243 | indentation, a keyword as written, one space and a trimmed one-line text parse back to that keyword and text |
| FeatureTests.TagsIn | src/test/cucumberTestController.ts:89 | the filter and map keep at most one tag per token, and every tag is a token starting with `@` without that `@` |
| FeatureTests.TagsOfHaveNoSpaces | src/test/cucumberTestController.ts:89 | no tag read from a line holds white space, as the line is split on `\s+` |
| FeatureTests.Classify | src/test/cucumberTestController.ts:85-115 | a trimmed line is a tag line exactly when it starts with `@`, and a feature or scenario line records the trimmed line's length |
| FeatureTests.AddScenario | src/test/cucumberTestController.ts:132-154 | one pass adds at most one profile item, at the end, and keeps every existing item's id in place |
| FeatureTests.AddUnderProfiles | src/test/cucumberTestController.ts:131-155 | the loop adds at most one item per profile and keeps the ids of the existing items in place |
| FeatureTests.DecimalString | src/test/cucumberTestController.ts:146 | the line index is written with decimal digits only |
| FeatureTests.LabelledName | src/test/cucumberTestController.ts:95 | a `Feature:`/`Scenario:` name is non-empty and holds no line terminator |
| FeatureTests.IndexOfId | src/test/cucumberTestController.ts:134 | `children.get(id)` finds the first child with the id, or reports that none has it |
| FeatureTests.Upsert | src/test/cucumberTestController.ts:155 | `children.add` replaces the child with the same id in place, or appends a new one |
| FeatureTests.MatchingProfiles | src/test/cucumberTestController.ts:126-128 | a profile matches iff it is configured and among the tags |
| FeatureTests.ClassifiedAt | src/test/cucumberTestController.ts:84-115 | each line is classified from its trimmed text, as a tag line, the feature title, a scenario title or another line |
| FeatureTests.TagLineRoundTrip | src/test/cucumberTestController.ts:89 | the tags written as `@a @b …` are read back exactly |
| FeatureTests.TagLineIsClassifiedAsTags | src/test/cucumberTestController.ts:88-92 | such a line is a tag line carrying those tags |
| FeatureTests.TrimmedTagsLine | src/test/cucumberTestController.ts:86-89 | a trimmed line starting with `@` is classified as a tag line carrying the tags read from it |
| FeatureTests.LabelledNameRoundTrip | src/test/cucumberTestController.ts:115 | `<prefix><spaces><name>` gives back the name |
| FeatureTests.FeatureLineRoundTrip | src/test/cucumberTestController.ts:95-108 | `Feature: <name>` is a feature title with that name and the trimmed line's length |
| FeatureTests.ScenarioLineRoundTrip | src/test/cucumberTestController.ts:115-152 | `Scenario: <name>` is a scenario title with that name and length |
| FeatureTests.FirstFeatureLineWins | src/test/cucumberTestController.ts:95-111 | the feature item exists iff a feature title was read, and it is built from the first one; later ones are ignored |
| FeatureTests.NothingBeforeTheFeature | src/test/cucumberTestController.ts:87-116 | before the feature line, scenario lines are ignored and tag lines only accumulate pending tags |
| FeatureTests.ScenarioLineFilesUnderMatchingProfiles | src/test/cucumberTestController.ts:115-158 | a scenario line inside a feature clears the pending tags, keeps the feature tags and files the scenario under every configured profile among feature and pending tags |
| FeatureTests.ScenarioLineFilesOnlyUnderMatchingProfiles | src/test/cucumberTestController.ts:119-156 | the feature item is otherwise unchanged; with no matching profile the tree is unchanged; items of non-matching profiles are untouched; new profile items are appended in configuration order, each holding the scenario |
| FeatureTests.AddUnderProfilesShape | src/test/cucumberTestController.ts:131-156 | the per-profile loop keeps existing ids in place and appends one item per new profile, in order |
| FeatureTests.AddUnderProfilesUpdates | src/test/cucumberTestController.ts:133-155 | the item a profile already had stays at its place with all its fields, and only gets the scenario `add`ed to its children |
| FeatureTests.ScenarioLineUpdatesExistingProfiles | src/test/cucumberTestController.ts:119-156 | a scenario line updates the item of each matching profile that had one in place: same fields, children with the scenario `add`ed |
| FeatureTests.ScenarioLineKeepsEarlierScenarios | src/test/cucumberTestController.ts:119-156 | a scenario of another line filed under a profile stays filed under it after a scenario line |
| FeatureTests.AddScenarioKeepsEarlierScenarios | src/test/cucumberTestController.ts:133-155 | filing the scenario of another line under a profile keeps the scenarios already filed under it |
| FeatureTests.AddUnderProfilesKeepsFiled | src/test/cucumberTestController.ts:131-156 | the loop over the profiles keeps a scenario of another line filed where it was |
| FeatureTests.UpsertKeepsOthers | src/test/cucumberTestController.ts:155 | `children.add` keeps every child with another id |
| FeatureTests.UpsertTwice | src/test/cucumberTestController.ts:155 | adding the same item twice is adding it once |
| FeatureTests.DecimalStringInjective | src/test/cucumberTestController.ts:146 | distinct line indexes are written differently |
| FeatureTests.ScenarioIdsDiffer | src/test/cucumberTestController.ts:146 | scenarios of distinct lines get distinct ids under one profile |
| FeatureTests.ProfileIdsDiffer | src/test/cucumberTestController.ts:133 | distinct profiles get distinct profile ids |
| FeatureTests.AddScenarioFiles | src/test/cucumberTestController.ts:133-155 | after filing, the scenario item is under its profile's item |
| FeatureTests.AddScenarioKeepsOtherProfiles | src/test/cucumberTestController.ts:131-156 | filing a scenario under one profile keeps any scenario of the same file filed under another |
| FeatureTests.FiledUnderEveryMatchingProfile | src/test/cucumberTestController.ts:131-156 | the loop files the scenario under every profile it is given |
| FeatureParse.ReadLine | src/test/cucumberTestController.ts:84-160 | one pass of the line loop moves the parse state exactly one step of the fold |
| FeatureParse.FeatureLineIsNoScenarioLine | src/test/cucumberTestController.ts:95-115 | a `Feature:` line is never a `Scenario:` line |
| FeatureParse.FileScenario | src/test/cucumberTestController.ts:131-156 | the profile loop computes the specified filing |
| FeatureParse.ReadFeature | src/test/cucumberTestController.ts:76-160 | the whole loop yields the feature item of the fold over all lines |
| CucumberTests.ProfileToUse | src/test/cucumberTestController.ts:316 | a non-empty profile argument wins; otherwise the configured default is used, so the result is empty only when both are |
| CucumberTests.LastScenarioAt | src/test/cucumberTestController.ts:318-328 | with no matching child the variable keeps its value; otherwise it ends as a child that matches the file, line and profile |
| CucumberTests.WithoutIdMembers | src/test/cucumberTestController.ts:71 | deleting an id keeps exactly the items with other ids |
| CucumberTests.WithoutIdKeepsIdsUnique | src/test/cucumberTestController.ts:51 | deleting keeps ids unique |
| CucumberTests.WithoutAbsentId | src/test/cucumberTestController.ts:51 | deleting an absent id changes nothing |
| CucumberTests.ItemsAfterRemoval | src/test/cucumberTestController.ts:68-73 | deleting the file's item first does not change the result of the parse |
| CucumberTests.MapAfterRemoval | src/test/cucumberTestController.ts:72 | the same holds for the map from file id to item |
| CucumberTests.ReparseIsIdempotent | src/test/cucumberTestController.ts:64-161 | parsing the same text twice leaves the same items as parsing it once |
| CucumberTests.RemoveAfterParse | src/test/cucumberTestController.ts:47-54 | removing a file after parsing it leaves the items as removing it alone |
| CucumberTests.ParsedFeatureBelongsToFile | src/test/cucumberTestController.ts:102-107 | a parsed feature item has the file id as id and the document's uri |
| CucumberTests.FoundScenarioIsTheLastMatch | src/test/cucumberTestController.ts:320-330 | the `forEach` search yields nothing iff no scenario matches uri, line and profile, else the last match |
| CucumberTests.IndexedWithout | src/test/cucumberTestController.ts:51-52 | deleting from the items and the map together keeps them consistent |
| CucumberTests.IndexedAppend | src/test/cucumberTestController.ts:109-110 | adding a new file's item to both keeps them consistent |
| CucumberTests.CucumberTestController.constructor | src/test/cucumberTestController.ts:8-33 | a new controller has no items |
| CucumberTests.CucumberTestController.RemoveTestsFromDocument | src/test/cucumberTestController.ts:47-54 | the file's item leaves both the items and the map; the two stay consistent |
| CucumberTests.CucumberTestController.ParseFeatureFile | src/test/cucumberTestController.ts:64-161 | the file's old item is replaced by the parsed feature, or dropped when there is none; the items and the map stay consistent |
| CucumberTests.CucumberTestController.AddFeatureItem | src/test/cucumberTestController.ts:109-110 | the feature item is added to the items and the map |
| CucumberTests.CucumberTestController.RunTests | src/test/cucumberTestController.ts:163-194 | the run reports the events of the queue walk over the requested items (or all items), then ends |
| CucumberTests.CucumberTestController.RunScenario | src/test/cucumberTestController.ts:216-262 | the events are those the scenario's outcome specifies |
| CucumberTests.CucumberTestController.FindScenarioItem | src/test/cucumberTestController.ts:319-330 | the nested `forEach` search finds the specified scenario |
| CucumberTests.CucumberTestController.RunScenarioAtLine | src/test/cucumberTestController.ts:311-356 | a scenario found at once is run without reparsing; otherwise the file is reparsed and searched again, and the scenario found then, if any, is run alone |
| TestRuns.WalkSkips | src/test/cucumberTestController.ts:177-180 | a cancelled item is skipped |
| TestRuns.WalkExpands | src/test/cucumberTestController.ts:182-186 | an item with children is replaced by its children at the end of the queue and is not run |
| TestRuns.WalkRuns | src/test/cucumberTestController.ts:187-190 | a leaf is run |
| TestRuns.CancelledRunSkipsTheRest | src/test/cucumberTestController.ts:176-180 | once cancelled, every remaining queue item is skipped without expansion |
| TestRuns.UncancelledRunRunsEveryLeaf | src/test/cucumberTestController.ts:176-191 | without cancellation, the runs are exactly the leaves of the queued trees, as a multiset, and nothing is skipped |
| TestRuns.OnlyLeavesRun | src/test/cucumberTestController.ts:182-190 | only items without children are run |
| TestRuns.CucumberArgs | src/test/cucumberTestController.ts:276-278 | `cucumber-js -p <profile> --name <pattern>`, where the pattern unescapes back to the scenario name, so `--name` matches it literally |
| TestRuns.ResultOf | src/test/cucumberTestController.ts:293-306 | the exit code is 0 exactly when the process closed with code 0 or without one; the output is kept; a spawn error gives exit code 1 with its message as stderr |
| TestRuns.FailureMessage | src/test/cucumberTestController.ts:253 | a failure message is never empty |
| TestRuns.ScenarioVerdict | src/test/cucumberTestController.ts:216-262 | a scenario is started and then gets one verdict; it passes iff it has a uri and a range, a package folder is found and the process closes with code 0 or null |
| TestRuns.RunEndsOnce | src/test/cucumberTestController.ts:193 | `run.end` is the last event and occurs once |
| TestRuns.SingleScenarioRun | src/test/cucumberTestController.ts:350-352 | a run requested for one scenario reports that scenario's events and ends |
| Paths.Dirname | src/test/cucumberTestController.ts:198 | `path.dirname` is `.`, a root, or a proper prefix of the path |
| Paths.DirnameShrinks | src/test/cucumberTestController.ts:207-211 | when the parent differs, it is shorter, so the walk ends |
| Paths.PackageJsonWalk | src/test/cucumberTestController.ts:196-214 | the walk returns the workspace root or an in-scope directory holding `package.json`, and the starting directory itself when it qualifies |
| Paths.PackageJsonWalkIsNearest | src/test/cucumberTestController.ts:196-214 | the walk returns the nearest in-scope ancestor holding `package.json` when there is one, and the root otherwise |
| Paths.WalkResultByIndex | src/test/cucumberTestController.ts:202-213 | the same, stated per index of the ancestor chain |
| Paths.ClosestPackageJsonFolder | src/test/cucumberTestController.ts:196-214 | the while loop computes that walk from the file's directory |
| ScenarioCommands.RunScenario | src/commands/runScenario.ts:8-13 | the command runs the scenario at the line with the default profile |
| ScenarioCommands.RunScenarioWithProfile | src/commands/runScenario.ts:17-22 | the command forwards the given profile |
| ScenarioCommands.DebuggedScenarioIsParsedScenario | src/commands/runScenario.ts:43-53 | the name found at the line is the one the indexer files for that line |
| ScenarioCommands.WalkWithRootHasAnswer | src/commands/runScenario.ts:63-78 | with a workspace folder the directory is the nearest in-scope `package.json` folder, else the root |
| ScenarioCommands.DebugScenario | src/commands/runScenario.ts:30-90 | no folder or no scenario at the line means no launch; otherwise the launch has the scenario's name, `-p <default profile> --name <escaped name>` (which unescapes to the name) and the nearest package folder as cwd |
| HandlerFinder.FirstOccurring | src/services/handlerFinder.ts:98-105 | the first decorator string in list order that occurs in the text |
| HandlerFinder.FindDecorator | src/services/handlerFinder.ts:95-105 | found iff some decorator string occurs, at the first occurrence of the first one in list order |
| HandlerFinder.NextExportClass | src/services/handlerFinder.ts:109 | the leftmost `export\s+class\s+\w` at or after the index |
| HandlerFinder.SuffixSearch | src/services/handlerFinder.ts:108-114 | searching the substring after the decorator and adding the decorator index is searching the text from it |
| HandlerFinder.DecoratorHit | src/services/handlerFinder.ts:107-117 | the hit is the first `export class` after the decorator, pointing at `export` |
| HandlerFinder.DecoratorOutcome | src/services/handlerFinder.ts:82-122 | a file never aborts the search (read errors skip the file), and a hit points at an `export class` in it |
| HandlerFinder.ScanForDecorator | src/services/handlerFinder.ts:82-122 | the per-file body computes that outcome |
| HandlerFinder.FindByDecorator | src/services/handlerFinder.ts:56-129 | the result is the first hitting file among the de-duplicated globs, at an `export class` |
| HandlerFinder.HyphenateMarksEveryBoundary | src/services/handlerFinder.ts:146 | the non-overlapping replace still puts a hyphen at every lower-to-upper boundary |
| HandlerFinder.KebabCase | src/services/handlerFinder.ts:145-147 | the file name is the hyphenated name lowercased, with no upper-case letter |
| HandlerFinder.FirstNonEmptyProbe | src/services/handlerFinder.ts:158-163 | the first probe, in list order, that finds a file |
| HandlerFinder.ProbedFile | src/services/handlerFinder.ts:158-165 | a file iff some probe finds one, and it is the first file of the first such probe |
| HandlerFinder.FindHandlerFile | src/services/handlerFinder.ts:144-166 | the probe loop computes that file |
| HandlerFinder.FileNameLookup | src/services/handlerFinder.ts:131-142 | a hit is the first match of the unescaped `class\s+${name}\b` in the probed file; a probed file without it gives nothing and no later probe is tried |
| HandlerFinder.FindByFileName | src/services/handlerFinder.ts:131-142 | the method computes that lookup |
| HandlerFinder.FindHandler | src/services/handlerFinder.ts:4-31 | the method computes the three-strategy lookup |
| HandlerFinder.FindHandlerPrecedence | src/services/handlerFinder.ts:7-30 | symbol beats decorator beats file name; nothing is found only when all three fail |
| ProviderFinder.UseClassAt | src/services/providerFinder.ts:54 | `useClass:\s*(\w+)` at `u` captures a non-empty word |
| ProviderFinder.LastUseClass | src/services/providerFinder.ts:54 | the greedy `[^}]*` backtracks to the last `useClass:` before the brace |
| ProviderFinder.UseClassAfter | src/services/providerFinder.ts:54 | after the token, the match ends at the first `}` from there, and the captured `useClass:` lies before that brace |
| ProviderFinder.TokenFrom | src/services/providerFinder.ts:54 | the greedy `\s*` gives spaces back: the token starts in the run of spaces, at the last place after which the rest of the pattern matches, and no later place in the run works |
| ProviderFinder.ProvideUseClass | src/services/providerFinder.ts:54 | a capture from `q` needs `provide:` at `q` and a `useClass:` with a class after it |
| ProviderFinder.LastProvide | src/services/providerFinder.ts:54 | the greedy first `[^}]*` backtracks to the last `provide:` that leads to a capture, and none later does |
| ProviderFinder.MatchedUseClass | src/services/providerFinder.ts:53-56 | a match at `{` has a `provide:` before the first `}` after it, and the captured `useClass:` is the one that `provide:` leads to; a `}` inside the token does not end the match |
| ProviderFinder.MappingAt | src/services/providerFinder.ts:53-56 | the capture is a non-empty word, and there is one exactly when a match starts at `p` |
| ProviderFinder.MappingAtIs | src/services/providerFinder.ts:60 | `match[1]` is the class after the `useClass:` the match ends with |
| ProviderFinder.BraceFreeMappingInsideBraces | src/services/providerFinder.ts:53-56 | for a token without `}`, the whole match lies inside the first pair of braces: a `provide:` of the token, then a `useClass:` whose class is the capture |
| ProviderFinder.MappingRunsPastBraceInToken | src/services/providerFinder.ts:53-56 | a token holding `}` is matched literally: the first `}` after the opening brace is inside the token, and `{ provide: T, useClass: X }` still yields `X` |
| ProviderFinder.NextMapping | src/services/providerFinder.ts:58 | what `exec` returns is a place at or after the search start where a mapping for the token matches |
| ProviderFinder.NextMappingIsLeftmost | src/services/providerFinder.ts:58 | no mapping for the token matches between the search start and what `exec` returns (anywhere after the start when it returns nothing) |
| ProviderFinder.FirstMapping | src/services/providerFinder.ts:53-60 | the captured class is a non-empty word |
| ProviderFinder.MappingRoundTrip | src/services/providerFinder.ts:36 | `{ provide: T, useClass: X }` written out yields `X` for any token `T` without a colon that does not start with a space, `}` included |
| ProviderFinder.LastImplements | src/services/providerFinder.ts:114 | the last `implements` before the brace that is followed by the bounded name |
| ProviderFinder.BraceFrom | src/services/providerFinder.ts:114 | `[^{]*` stops at the first `{` or the end of the text |
| ProviderFinder.ImplementerAt | src/services/providerFinder.ts:113-116 | a match has `class`, spaces, the captured word and an `implements … \bI\b` before any `{` |
| ProviderFinder.NextImplementer | src/services/providerFinder.ts:118 | what `exec` returns is a place at or after the search start where a class implementing the interface matches |
| ProviderFinder.NextImplementerIsLeftmost | src/services/providerFinder.ts:118 | no implementing class matches between the search start and what `exec` returns (anywhere after the start when it returns nothing) |
| ProviderFinder.FirstImplementer | src/services/providerFinder.ts:113-120 | the captured class is a non-empty word |
| ProviderFinder.ImplementerRoundTrip | src/services/providerFinder.ts:112-120 | `class X implements I {` written out yields `X` for interface `I` |
| ProviderFinder.ModuleOutcome | src/services/providerFinder.ts:48-68 | an unreadable file, and only that, aborts the strategy; a hit needs a mapping for the token and is the location of a Class symbol named as the first mapping's class |
| ProviderFinder.ScanModuleFile | src/services/providerFinder.ts:49-68 | the per-file body computes that outcome |
| ProviderFinder.FindInModuleProviders | src/services/providerFinder.ts:38-75 | the loop over at most 100 module files yields the first hit, none after an abort |
| ProviderFinder.InterfaceOutcome | src/services/providerFinder.ts:108-127 | an unreadable file aborts; a hit is the first `class <implementer>\b` of the file |
| ProviderFinder.InterfaceSearch | src/services/providerFinder.ts:88-99 | no file is scanned unless an Interface symbol has the exact name |
| ProviderFinder.ScanForImplementer | src/services/providerFinder.ts:108-127 | the per-file body computes that outcome |
| ProviderFinder.FindInterfaceImplementation | src/services/providerFinder.ts:80-134 | the method computes the interface strategy |
| ProviderFinder.FindProviderImplementation | src/services/providerFinder.ts:13-32 | the method computes the two-strategy lookup |
| ProviderFinder.ProviderPrecedence | src/services/providerFinder.ts:16-31 | a module mapping wins; nothing is found only when both strategies fail |
| HandlerCommand.IsCommandOrQuery | src/commands/goToHandler.ts:28-31 | a word passes exactly when it ends with one of the suffixes the CQRS lenses look for |
| HandlerCommand.HandlerNameFor | src/commands/goToHandler.ts:37 | the handler name is the word followed by `Handler`, and is itself never a Command or Query name |
| HandlerCommand.TypeLabel | src/commands/goToHandler.ts:38 | the label is `Command` or `Query`, and for an accepted word it is the suffix the word ends with |
| HandlerCommand.TypeLabelIsTheSuffix | src/commands/goToHandler.ts:28-38 | a gated word ends with exactly one of `Command`/`Query`, and the label is that suffix |
| HandlerCommand.HandlerNameRoundTrip | src/commands/goToHandler.ts:37 | the handler name ends with `Handler` and removing it gives the word |
| HandlerCommand.LensNamesTheSearchedHandler | src/providers/cqrsCodeLensProvider.ts:13-19 | a lens's captured name passes the command's gate and its title names the handler the command searches for |
| HandlerCommand.GoToHandler | src/commands/goToHandler.ts:7-51 | no editor: nothing; no word: a message; no Command/Query suffix: a message; else the lookup's location is revealed, or a "not found" message names the handler and type label |
| ProviderCommand.InjectToken | src/commands/goToProvider.ts:55-60 | a token from `@Inject(...)` is a non-empty word |
| ProviderCommand.InjectTokenIsFirstMatch | src/commands/goToProvider.ts:57 | the token is that of the leftmost `@Inject(<word>)` on the line, and exists iff one matches |
| ProviderCommand.ScanFloor | src/commands/goToProvider.ts:72 | the scan goes down to `max(0, line - 5)` |
| ProviderCommand.NearestInjectLine | src/commands/goToProvider.ts:72-80 | the nearest line at or above the cursor, within the range, with a match |
| ProviderCommand.InjectionTokenChoice | src/commands/goToProvider.ts:47-84 | the cursor line's token wins; null iff no word and no token on the line; without any match in the six lines the word is returned; otherwise the nearest matching line's token |
| ProviderCommand.GetInjectionToken | src/commands/goToProvider.ts:47-84 | the loop computes that token |
| ProviderCommand.InjectionTokenReadsSixLines | src/commands/goToProvider.ts:72 | the token depends only on the six lines scanned |
| ProviderCommand.GoToProvider | src/commands/goToProvider.ts:7-39 | no editor: nothing; no or empty token: a message; else the provider lookup's location is revealed, or a message names the token |
| LegacyExtension.LegacyProbesAreNewerProbes | src/extension.ts:82-104 | the older file lookup probes patterns 1, 2, 4 and 6 of the newer one, in that order |
| LegacyExtension.JumpToClassDefinition | src/extension.ts:106-119 | the selection moves to the first match of the unescaped `class\s+${name}\b`, or stays when there is none |
| LegacyExtension.LegacyGatingIsNarrower | src/extension.ts:56-59 | a word the older command accepts is also accepted by the newer one, with label `Command` |
| LegacyExtension.LegacyGoToHandler | src/extension.ts:35-77 | no editor: nothing; no word or no `Command` suffix: a message; else the probed file is opened and the selection jumps, or a "not found" message names the handler |
| FeatureFileCodeLens.StepLineFlags | src/providers/featureFileCodeLensProvider.ts:17 | a line is flagged iff `extractStepText` accepts it |
| FeatureFileCodeLens.LensesAt | src/providers/featureFileCodeLensProvider.ts:15-31 | every lens sits on a flagged line, in strictly increasing line order, with the step-definition title and command |
| FeatureFileCodeLens.LensesAtCoverFlags | src/providers/featureFileCodeLensProvider.ts:15-31 | every flagged line has a lens |
| FeatureFileCodeLens.ProvideCodeLenses | src/providers/featureFileCodeLensProvider.ts:5-34 | a non-`.feature` document gets none; otherwise the loop yields the lenses of the `\n`-split lines |
| FeatureFileCodeLens.CrlfFeatureFileGetsNoLenses | src/providers/featureFileCodeLensProvider.ts:13 | as written, a file with Windows line endings gets no lens |
| FeatureFileCodeLens.ProvideCodeLensesAnyLineEnding | src/providers/featureFileCodeLensProvider.ts:13-31 | corrected: each line's final carriage return is removed before parsing |
| FeatureFileCodeLens.LensesIgnoreLineEndings | src/providers/featureFileCodeLensProvider.ts:13-19 | corrected, the same lines get the same lenses with either line ending |
| CqrsCodeLens.CommandClassAt | src/providers/cqrsCodeLensProvider.ts:9 | a match at `p` starts there and ends inside the text |
| CqrsCodeLens.CommandClassIsWholeWord | src/providers/cqrsCodeLensProvider.ts:9 | the capture is a whole word after `class` and spaces, ending in a suffix with something before it |
| CqrsCodeLens.NextCommandClass | src/providers/cqrsCodeLensProvider.ts:12 | `exec` from `lastIndex` finds a match at or after it |
| CqrsCodeLens.NextCommandClassIsLeftmost | src/providers/cqrsCodeLensProvider.ts:12 | and it is the leftmost |
| CqrsCodeLens.CommandLensesFrom | src/providers/cqrsCodeLensProvider.ts:12-24 | every lens sits at a match's `class`, in strictly increasing offsets, titled with that match's name |
| CqrsCodeLens.ProvideCodeLenses | src/providers/cqrsCodeLensProvider.ts:4-27 | the `while (exec)` loop yields those lenses from offset 0 |
| CqrsCodeLens.CommandOnlyIsNarrower | src/extension.ts:127 | a match of the older `Command`-only scan is the same match for the newer scan |
| InjectionCodeLens.InjectAt | src/providers/injectionCodeLensProvider.ts:9 | a match is `@Inject(<token>)` with a non-empty word token |
| InjectionCodeLens.NextInject | src/providers/injectionCodeLensProvider.ts:12 | `exec` from `lastIndex` finds a match at or after it |
| InjectionCodeLens.NextInjectIsLeftmost | src/providers/injectionCodeLensProvider.ts:12 | and it is the leftmost |
| InjectionCodeLens.InjectLensesFrom | src/providers/injectionCodeLensProvider.ts:12-24 | every lens sits at a match's `@`, in strictly increasing offsets, titled with the token |
| InjectionCodeLens.ProvideCodeLenses | src/providers/injectionCodeLensProvider.ts:4-27 | the `while (exec)` loop yields those lenses from offset 0 |
| InjectionCodeLens.SpaceInsideIsRejected | src/providers/injectionCodeLensProvider.ts:9 | a space right after the parenthesis is no match |

## Left out

- ClassSearch.UnescapedClassAt: of the regular-expression metacharacters only `.` and `$` are given their meaning; the others (`*+?^{}()|[]\`) are compared literally, since neither an identifier nor the editor's word can hold them.
- Text.LowerChar, Text.ToLower: only ASCII letters are folded, so JavaScript's Unicode `toLowerCase` (src/services/stepDefinitionFinder.ts:135, src/services/handlerFinder.ts:147) is weaker here for other scripts.
- Text.IndexOfFrom: strings are sequences of Unicode scalar values, so every offset the model computes (`match.index`, `indexOf`, lens and location positions) counts a character outside the Basic Multilingual Plane once, where JavaScript counts its two UTF-16 code units; lone surrogates are not modelled.
- Paths.Dirname: follows POSIX `path.dirname` on `/`-separated paths; Windows paths are not modelled.
- `path.relative` for the file id (`getFileId`) and `fs.existsSync` are inputs: the file id is a parameter and the folders holding `package.json` are a set.
- StepDefinitionFinder.MatchesStepPattern: the dynamically built regular expression is an oracle (`RegexEngine`) indexed by the normalised pattern. The placeholder rewrite and the `^…$`/`i` wrapping are not reimplemented, and `HasParameters` is a predicate on the normalised pattern.
- Workspaces.FindFiles: glob semantics and result order are the workspace's answer, not modelled.
- The symbol provider is a total function, so a rejected `executeWorkspaceSymbolProvider` call, which the strategies' `catch` turns into null, does not occur in the model.
- Console logging, the text of information and warning messages beyond the names they carry, `async`/`await` interleaving, and the editor's reveal and selection calls are not modelled.
- The launch fields `type`, `request`, `console` and `internalConsoleOptions`, and the `startDebugging` call itself, are not modelled; the model returns the launch configuration.
- Process spawning and output accumulation in `executeCucumber` are an input (`RunEnv.spawn`); only the argument list, the escaping and the exit-code mapping are modelled. `run.appendOutput` text is not modelled.
- The file-system watcher, `initializeTests` and `updateTestsFromDocument` are event wiring around `ParseFeatureFile` and `RemoveTestsFromDocument`, which are modelled.
- src/commands/goToStepDefinition.ts is not part of this model; its only logic is the `.feature` check and `extractStepText`, which are modelled.
- The `flight.helloWorld` command and the duplicate registration of `nestjs-cqrs-navigator.goToHandler` in src/extension.ts and src/commands/goToHandler.ts are not modelled; each command body is modelled on its own.

## Findings

| source | as written | input that shows it | evidently intended | confidence | as-written member | corrected member |
|---|---|---|---|---|---|---|
| src/providers/featureFileCodeLensProvider.ts:13 | the text is split on `\n` only, so each CRLF-terminated line keeps a final `\r`; in `/^\s*(…)\s+(.+?)(:)?$/i` (src/services/stepDefinitionFinder.ts:230) `.` does not match `\r` and `$` has no `m` flag | the text `"Given x\r\n"` gets no lens | one lens per step line whatever the line ending | high; derived from the regular-expression semantics, not executed | FeatureFileCodeLens.CrlfFeatureFileGetsNoLenses | FeatureFileCodeLens.ProvideCodeLensesAnyLineEnding |
