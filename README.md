# Nictiz tooling, modelled in Dafny

This project models the core of four small tools that support the Nictiz
FHIR test material.

- **Touchstone** (`TouchstoneCL/ts.py`, `TouchstoneCL/launcher.py`,
  `TouchstoneExecutionStarter/script.py`,
  `TouchstoneExecutionStarter/launcher.py`) numbers the TestScript folders
  below `dev`. It resolves a folder number into the settings for executing
  or uploading it, taken from the properties file. It launches executions
  on the Touchstone site with at most four running at once, polls them
  until they settle, and reports the outcome in a JIRA-ready list or table.
- **WrapInBundle** (`WrapInBundle/wrap_in_bundle.py`) wraps a set of
  JSON or XML FHIR resources in a transaction Bundle. Each resource gets a
  `urn:uuid:` fullUrl, and every local `Type/id` reference that points to
  one of them is rewritten to that fullUrl.
- **UpVersionNumbers** (`UpVersionNumbers/upversionnumbers.py`) raises
  the patch number of the `<version value="x.y.z"/>` element in every
  changed XML file.
- **CheckDisplayValues** (`FileChecker.cs`, `DisplayValue.cs`, `Printer.cs`
  under `CheckDisplayValues/CheckDisplayValues/`) compares the display
  values used in test material with those of the terminology server. It
  classifies and prints each inconsistency.

There is one Dafny module per component:

| file | module | models |
|---|---|---|
| `wrappers.dfy` | `Wrappers` | `Option` and `Result` |
| `decimal.dfy` | `Decimal` | `str(n)`, `"%2d" % n` and `int(s)` on text |
| `strings.dfy` | `Strings` | search, replace, split, join, strip, ASCII case and string order |
| `paths.dfy` | `Paths` | `pathlib` paths below `dev`: order, joining and rendering |
| `yaml.dfy` | `Yaml` | the string, integer, boolean, null, list and mapping values `yaml.safe_load` yields, and a mapping seen as the dict Python builds from it |
| `directory_tree.dfy` | `DirectoryTree` | the folder scan of `KnownTargets` |
| `properties.dfy` | `Properties` | `loadProperties` and `__walkProperties` |
| `known_targets.dfy` | `KnownTargets` | `list`, `get`, `getExecutionTarget` and `getUploadTarget` |
| `touchstone.dfy` | `Touchstone` | class `Touchstone`: launching, the polling loop and the orchestration |
| `execution_starter.dfy` | `ExecutionStarter` | class `Launcher` of `script.py` |
| `reports.dfy` | `Reports` | the two `launcher.py` front ends |
| `fhir_refs.dfy` | `FhirRefs` | reference keys, fullUrls and the reference map |
| `json_bundle.dfy` | `JsonBundle` | rewriting and bundling JSON resources |
| `xml_bundle.dfy` | `XmlBundle` | rewriting and bundling XML resources, and `main` |
| `up_version.dfy` | `UpVersion` | `upversionnumbers.py` |
| `display_value.dfy` | `DisplayValues` | `DisplayValue` and `Translation` |
| `file_checker.dfy` | `FileChecking` | class `FileChecker` |
| `printer.dfy` | `Printing` | class `Printer` |

Objects whose fields the source updates in place are classes:
`Touchstone`, `Launcher`, `FileChecker` and `Printer`. Their methods
change the fields they name in `modifies`. Their contracts tie the new
state to specification functions, and lemmas state what the source
promises about those functions. Pure code is modelled as datatypes,
functions and lemmas. The loops of the stateful classes are methods
with loops and invariants. The other loops, such as the XML rewrite,
the comprehensions and the report folds, are modelled as recursive
functions.

## Model

| member | source | states |
|---|---|---|
| Decimal.NatToString | TouchstoneCL/ts.py:110 | the decimal text of a number is never empty and has no leading zero unless the number is 0 |
| Decimal.DigitsValueOfNatToString | TouchstoneCL/ts.py:110 | the printed number consists of digits only, and reading its digits gives the number back |
| Decimal.NatToStringInjective | TouchstoneCL/ts.py:517-521 | different numbers are printed differently |
| Decimal.ParseInt | TouchstoneCL/ts.py:128 | `int()` raises on blank text, and a negative result comes only from text whose stripped form starts with a minus sign |
| Decimal.NumeralOfDigits | TouchstoneCL/ts.py:128 | plain digits are a numeral whose value is their decimal value |
| Decimal.NumeralSnoc | TouchstoneCL/ts.py:128 | a digit after a numeral gives a numeral worth ten times as much plus that digit |
| Decimal.NumeralSnocGrouped | TouchstoneCL/ts.py:128 | an underscore and a digit after a numeral give a numeral worth ten times as much plus that digit |
| Decimal.NumeralJoin | TouchstoneCL/ts.py:128 | two digit groups joined with or without an underscore are numerals of the same value |
| Decimal.ParseIntOfNumeral | TouchstoneCL/ts.py:128 | `int()` of a numeral with nothing around it is the numeral's value |
| Decimal.ParseIntUnderscore | TouchstoneCL/ts.py:128 | `int()` reads two digit groups joined by an underscore as the digits written together |
| Decimal.ParseIntGrouped | TouchstoneCL/ts.py:128 | `int("1_0")` is 10 |
| Decimal.ParseIntOfNatToString | TouchstoneExecutionStarter/script.py:143 | `int()` of a printed number gives that number |
| Decimal.ParseIntOfIntToString | TouchstoneExecutionStarter/script.py:149 | `int()` of any printed integer, with its sign, gives that integer |
| Decimal.ParseIntOfNegative | TouchstoneExecutionStarter/script.py:143-144 | a minus sign before digits gives the negated value of the digits |
| Decimal.Pad2Properties | TouchstoneExecutionStarter/script.py:127 | the `%2d` number column is two characters wide for numbers below 100 and reads back as the number |
| Strings.IndexOf | CheckDisplayValues/CheckDisplayValues/FileChecker.cs:290 | -1 exactly when the pattern does not occur, otherwise the first position where it occurs |
| Strings.ReplaceAllAbsent | TouchstoneCL/ts.py:424 | replacing a pattern that does not occur leaves the text unchanged |
| Strings.ReplaceAllCountChar | CheckDisplayValues/CheckDisplayValues/FileChecker.cs:300 | replacing with text free of a character never adds that character |
| Strings.ReplaceAllCountCharStrict | CheckDisplayValues/CheckDisplayValues/FileChecker.cs:300 | when the replaced pattern holds the character and occurs, the replacement strictly lowers its count |
| Strings.Strip | TouchstoneCL/launcher.py:26 | the stripped text has no whitespace at either end and is no longer than the original |
| Strings.StripUnchanged | TouchstoneCL/launcher.py:26 | text without whitespace at either end is left alone |
| Strings.StripWithin | TouchstoneCL/launcher.py:26 | stripping adds no character |
| Strings.Split | TouchstoneCL/launcher.py:26 | splitting gives at least one part, and no part holds the separator |
| Strings.SplitJoin | TouchstoneCL/launcher.py:26 | joining separator-free parts and splitting the result gives the parts back |
| Strings.JoinSplit | TouchstoneCL/ts.py:296-297 | splitting and joining again on the same separator gives the text back |
| Strings.JoinInit | TouchstoneCL/ts.py:296-297 | joining all parts is joining all but the last, then the separator, then the last |
| Strings.Lower | UpVersionNumbers/upversionnumbers.py:18 | lower-casing keeps the length and maps each character on its own |
| Strings.Capitalize | TouchstoneCL/ts.py:519 | `capitalize()` upper-cases the first character and lower-cases the rest |
| Strings.StrLessIrreflexive | TouchstoneCL/ts.py:144-145 | string order is irreflexive |
| Strings.StrLessTransitive | TouchstoneCL/ts.py:144-145 | string order is transitive |
| Strings.StrLessTotal | TouchstoneCL/ts.py:144-145 | any two different strings are ordered |
| Strings.StrLessAsymmetric | TouchstoneCL/ts.py:144-145 | string order is asymmetric |
| Paths.PathLessIrreflexive | TouchstoneCL/ts.py:144-145 | path order is irreflexive |
| Paths.PathLessTransitive | TouchstoneCL/ts.py:144-145 | path order is transitive |
| Paths.PathLessTotal | TouchstoneCL/ts.py:144-145 | any two different paths are ordered, so `sorted` has a single answer |
| Paths.PathLessAsymmetric | TouchstoneCL/ts.py:144-145 | path order is asymmetric |
| Paths.AncestorLess | TouchstoneCL/ts.py:144-145 | an ancestor sorts before each of its descendants, so the reversed order puts finer folders first |
| Paths.Components | TouchstoneCL/ts.py:163 | the components `curr_path/key` adds are non-empty, not `.`, and free of `/` |
| Paths.PathJoin | TouchstoneCL/ts.py:163 | `curr_path/key` extends `curr_path` |
| Yaml.Lookup | TouchstoneCL/ts.py:141 | a key is found exactly when the mapping has it, and the value found is one of its entries |
| Yaml.ToMapLookup | TouchstoneCL/ts.py:211 | the mapping as a dict has the same keys as the entries and gives the value a lookup finds |
| Yaml.DictKeysFacts | TouchstoneCL/ts.py:157 | `for key in obj` visits exactly the keys of the mapping, none of them twice |
| Yaml.DictItemAt | TouchstoneCL/ts.py:157-158 | the item visited at each step is the next key of the dict with the value `obj[key]` reads, the last one written for that key |
| Yaml.DictItemsDistinct | TouchstoneCL/ts.py:157 | two steps of the loop visit different keys |
| Yaml.DictItemsVisitOnce | TouchstoneCL/ts.py:157 | a key is visited exactly when the mapping has it, and every key is visited once |
| DirectoryTree.RecursiveDirs | TouchstoneCL/ts.py:113-123 | the scan appends the listing of the folder to the list it is given |
| DirectoryTree.ListingBelow | TouchstoneCL/ts.py:113-123 | every listed folder lies strictly below the scanned folder |
| DirectoryTree.ListingExactlyReachable | TouchstoneCL/ts.py:115-121 | a folder is listed exactly when every step to it is a non-hidden folder and no step enters `_reference` |
| DirectoryTree.ReachableSplit | TouchstoneCL/ts.py:115-121 | a folder is reachable through some entry exactly when it is through an earlier entry or through the last one |
| DirectoryTree.ParentListedFirst | TouchstoneCL/ts.py:118-121 | every listed folder below the top level comes after its parent |
| KnownTargets.Get | TouchstoneCL/ts.py:125-131 | "No such target" exactly when the argument is not an integer; IndexError exactly when it is out of range; otherwise one of the folders |
| KnownTargets.ListTargets | TouchstoneCL/ts.py:104-111 | `list` shows the folders that are not left out, in order, each with its line |
| KnownTargets.ListOne | TouchstoneCL/ts.py:109-111 | one pass of the loop of `list` extends the lines by the folder when it is shown |
| KnownTargets.ShownBelowFacts | TouchstoneCL/ts.py:105-109 | the shown folders appear in increasing order, once each; a folder is shown exactly when it is not a `_reference` folder being excluded, so numbering counts the hidden ones too |
| KnownTargets.ListedLines | TouchstoneCL/ts.py:110 | one line for each shown folder |
| KnownTargets.ListedNumberSelects | TouchstoneCL/ts.py:110 | the number `list` prints for a folder selects that folder with `get` |
| KnownTargets.ZeroSelectsLast | TouchstoneCL/ts.py:129 | number 0 selects the last folder, as Python's `dirs[-1]` does |
| KnownTargets.GetOne | TouchstoneCL/ts.py:129 | number 1 selects the first folder |
| KnownTargets.RelPathFor | TouchstoneCL/ts.py:197-199 | a dev target's relative path starts with `dev/` |
| KnownTargets.ExecutionTargetFor | TouchstoneCL/ts.py:192-219 | a resolved execution target has both origins and destinations |
| KnownTargets.GetExecutionTarget | TouchstoneCL/ts.py:192-219 | the loop of `getExecutionTarget` gives the resolution its specification defines |
| KnownTargets.Absorb | TouchstoneCL/ts.py:204-212 | a record that does not apply changes nothing; origins, destinations and the blocking flag already found are kept (the closest folder wins); parameters are only added to; the only error is a "params" setting that is not a mapping |
| KnownTargets.ResolveStep | TouchstoneCL/ts.py:204-213 | one more settings record is one more pass of the loop |
| KnownTargets.PrefixErrorPersists | TouchstoneCL/ts.py:211 | once a record has raised, the whole loop raises that exception |
| KnownTargets.ResolveFailsIff | TouchstoneCL/ts.py:211 | resolution raises exactly when an applicable record has params that are not a mapping |
| KnownTargets.FirstDefiningFrom | TouchstoneCL/ts.py:204-209 | the first record from a position on that defines a setting for the folder, or none |
| KnownTargets.FirstDefining | TouchstoneCL/ts.py:204-209 | the first record that defines a setting for the folder, and no earlier one does |
| KnownTargets.FirstDefinitionWins | TouchstoneCL/ts.py:206-213 | origins, destinations and the blocking flag come from the first record that defines them, unless the target already had them |
| KnownTargets.DeepestDefinitionWins | TouchstoneCL/ts.py:204-213 | with records sorted fine to coarse, the winning record is the deepest folder that defines the setting |
| KnownTargets.LoadResourcesBlocks | TouchstoneCL/ts.py:44-47 | a target is a load-script folder exactly when it is named `_LoadResources`, and such a target blocks until complete |
| KnownTargets.IsLoadscriptKept | TouchstoneCL/ts.py:204-213 | resolution keeps the load-script flag and the relative path |
| KnownTargets.AbsorbParams | TouchstoneCL/ts.py:210-211 | an applicable record's params are merged over the params so far |
| KnownTargets.ParamsMerged | TouchstoneCL/ts.py:210-211 | the merged params hold exactly the target's keys and the keys of applicable records, and the last (coarsest) record setting a key wins |
| KnownTargets.CompleteIsStable | TouchstoneCL/ts.py:184-185 | further records do not change a target that already has access and a validator |
| KnownTargets.AbsorbUpload | TouchstoneCL/ts.py:178-182 | a record for the folder or one above it never replaces an access already found, leaves a complete target as it is, and never changes the folder, path or kind |
| KnownTargets.EarlyReturnAgrees | TouchstoneCL/ts.py:184-185 | returning as soon as the target is complete gives what the whole loop would |
| KnownTargets.UploadTargetFor | TouchstoneCL/ts.py:167-190 | an upload target that is returned has access and a validator |
| KnownTargets.GetUploadTarget | TouchstoneCL/ts.py:167-190 | the method with its early return gives the upload target its specification defines |
| KnownTargets.UploadLoop | TouchstoneCL/ts.py:178-185 | the loop that stops at the first complete target ends where running over all records would |
| KnownTargets.UploadPass | TouchstoneCL/ts.py:179-183 | one pass of the loop absorbs one record |
| KnownTargets.CheckedUploadTargetFor | TouchstoneCL/ts.py:187-190 | the corrected lookup reports an error exactly when the source returns no target, and otherwise returns the same complete target |
| KnownTargets.FalsyValidatorFallsThrough | TouchstoneCL/ts.py:182-190 | a validator that is present but falsy makes the source return `None` instead of raising |
| KnownTargets.EmptyValidatorFallsThrough | TouchstoneCL/ts.py:182-190 | a concrete properties file whose validator is an empty string gets `None` back |
| Properties.Put | TouchstoneCL/ts.py:159-161 | recording a setting adds the folder if needed, sets that one key, and leaves every other folder alone |
| Properties.WalkProperties | TouchstoneCL/ts.py:155-165 | the loop of `__walkProperties` over the dict items (each key once, at its first position, with its last value) gives the recorded settings its specification defines |
| Properties.WalkItem | TouchstoneCL/ts.py:158-163 | one pass of the loop records a setting at the current folder, walks a nested mapping at `curr_path/key`, and passes over any other value |
| Properties.WalkFrame | TouchstoneCL/ts.py:155-165 | the walk only adds: settings already recorded stay, and folders outside the walked folder are untouched |
| Properties.WalkRecordsSetting | TouchstoneCL/ts.py:158-161 | a setting of a mapping is recorded at the mapping's folder with the value `obj[key]` reads, when no later key leads back to the same folder |
| Properties.StepKeeps | TouchstoneCL/ts.py:157-163 | an item with another key that does not lead back to the current folder leaves a recorded setting of that folder as it was |
| Properties.WalkOrigin | TouchstoneCL/ts.py:155-165 | every setting after the walk was already there, or comes from a setting entry reached through nested mappings |
| Properties.OriginStep | TouchstoneCL/ts.py:157-163 | a setting after one more item was there before that item, or that item sets it |
| Properties.WalkRecordsOnlySettings | TouchstoneCL/ts.py:157-163 | starting from `{}`, every recorded setting comes from a setting entry of the file, reached through nested mappings |
| Properties.SetByIsSetting | TouchstoneCL/ts.py:158-163 | such an entry has a setting key or a string or list value, and its folder lies at or below the walked folder, so integers, booleans and nulls under other keys are dropped |
| Properties.SortDescending | TouchstoneCL/ts.py:144-151 | the ordered dictionary holds every folder once, with its settings, sorted from last to first in path order |
| Properties.DescendantFirst | TouchstoneCL/ts.py:134-137 | in the ordered settings a folder comes before each of its ancestors, so the first match is the most precise |
| Properties.Section | TouchstoneCL/ts.py:141-142 | `raw[name]` raises KeyError exactly when the file's mapping lacks the section |
| Properties.LoadProperties | TouchstoneCL/ts.py:133-153 | loading succeeds exactly when both sections are present, and yields both sets of settings ordered fine to coarse |
| Touchstone.BlockingPositions | TouchstoneCL/ts.py:433 | the filtered positions lie within the list |
| Touchstone.BlockingPositionsMembers | TouchstoneCL/ts.py:433 | a position is kept exactly when its target blocks and its execution has not settled |
| Touchstone.BlockingPositionsIncreasing | TouchstoneCL/ts.py:433 | the filter keeps list order without repeats |
| Touchstone.WorkingSet | TouchstoneCL/ts.py:432-435 | the working set refers to executions of the session |
| Touchstone.WorkingSetMembers | TouchstoneCL/ts.py:432-435 | BLOCKING works on the blocking executions not settled yet; the other modes work on all executions |
| Touchstone.WorkingSetIncreasing | TouchstoneCL/ts.py:432-435 | each execution is in the working set at most once, in list order |
| Touchstone.CountStatus | TouchstoneCL/ts.py:439 | the count never exceeds the size of the working set |
| Touchstone.CountZero | TouchstoneCL/ts.py:441 | a count of zero means no execution of the working set has any of the statuses |
| Touchstone.CountSubset | TouchstoneCL/ts.py:495 | counting fewer statuses never gives more, so the loop's exit test is weaker than its entry test |
| Touchstone.ApplyResponseFacts | TouchstoneCL/ts.py:466-477 | a failed request or a missing status sets "Unknown"; KeyError exactly when duration, the counts or the number of tests is missing; otherwise the fields are copied, with missing counters read as 0 |
| Touchstone.PollPass | TouchstoneCL/ts.py:456-477 | one pass over the working set keeps the number of executions |
| Touchstone.PassFrame | TouchstoneCL/ts.py:456-477 | a pass consumes responses from the front, and changes only unsettled working-set executions, keeping their targets and ids |
| Touchstone.PassCount | TouchstoneCL/ts.py:456-477 | a finished pass consumes exactly one response per unsettled execution of the working set |
| Touchstone.PassProgress | TouchstoneCL/ts.py:456-457 | a finished pass that consumed nothing found nothing left to poll |
| Touchstone.PassStopPersists | TouchstoneCL/ts.py:471-474 | once a pass has raised or run out of responses, the rest of the working set is not polled |
| Touchstone.AwaitLoop | TouchstoneCL/ts.py:454-497 | the `while waiting` loop keeps the number of executions |
| Touchstone.AwaitLoopFacts | TouchstoneCL/ts.py:454-497 | the loop keeps targets and ids, leaves settled executions alone, consumes responses in order, and ends only when its exit test holds |
| Touchstone.Await | TouchstoneCL/ts.py:429-508 | `awaitExecutions` keeps the number of executions |
| Touchstone.AwaitKeeps | TouchstoneCL/ts.py:429-497 | a wait keeps targets and ids and never changes an execution that had settled |
| Touchstone.AwaitSettles | TouchstoneCL/ts.py:494-497 | after a completed wait, MAX leaves fewer than four running; ALL leaves none running; BLOCKING leaves no blocking execution running |
| Touchstone.StatusLineSettled | TouchstoneCL/ts.py:484-489 | a settled execution's line shows the check mark exactly when it passed, and ends with the "never started" note exactly when tests were left over |
| Touchstone.SelectTestScripts | TouchstoneCL/ts.py:374-383 | the selected scripts are those on the form minus the excluded load scripts, and "all selected" holds exactly when none was excluded |
| Touchstone.KeptMembers | TouchstoneCL/ts.py:377-381 | a script is selected exactly when it is on the form and is not a load script outside a `_LoadResources` folder |
| Touchstone.LoadFolderKeepsAll | TouchstoneCL/ts.py:378 | in a `_LoadResources` folder every script is selected |
| Touchstone.DefaultTProperties | TouchstoneCL/ts.py:396-399 | the params always hold "T"; they keep every given param, and "T" defaults to the session's date |
| Touchstone.DefaultTIdempotent | TouchstoneCL/ts.py:396-399 | defaulting "T" a second time changes nothing, whatever the date |
| Touchstone.ExtractIdOfUrl | TouchstoneCL/ts.py:424 | removing the execution address from the page address gives back the execution id |
| Touchstone.ExecuteTargetRespectsMax | TouchstoneCL/ts.py:364-427 | a launch follows a completed MAX wait, so right after it fewer than four executions are running |
| Touchstone.LaunchKeepsRunning | TouchstoneCL/ts.py:422-427 | a launch records a new, not yet polled execution only on HTTP 200, so the number running is unchanged |
| Touchstone.StartOnlyBlockingRaises | TouchstoneCL/ts.py:281 | the condition as written raises NameError for a blocking target when start_only is set |
| Touchstone.NeedsBlockingWait | TouchstoneCL/ts.py:281-284 | the corrected condition waits only for a blocking target, always without start_only, and with start_only unless it is the last target |
| Touchstone.BlockingWaitAsWritten | TouchstoneCL/ts.py:281 | the written condition raises exactly for a truthy "block until complete" with start_only set, and otherwise is true exactly for a truthy setting |
| Touchstone.BlockingWaitAgrees | TouchstoneCL/ts.py:281 | wherever the written condition evaluates, it agrees with the corrected one |
| Touchstone.StepsRunNext | TouchstoneCL/ts.py:278-284 | the loop over one target more runs the body for that target, unless an earlier target stopped the loop |
| Touchstone.Step | TouchstoneCL/ts.py:279-284 | one body of the launch loop, with the corrected wait condition, completes only with a launch reply to use, keeps every execution and adds at most one |
| Touchstone.StepsStopPersists | TouchstoneCL/ts.py:278-284 | once the loop has stopped, the remaining targets change nothing |
| Touchstone.StepIds | TouchstoneCL/ts.py:278-284 | one launch appends the id of an accepted launch to the ids already there |
| Touchstone.AwaitIds | TouchstoneCL/ts.py:429-508 | a wait keeps the ids of all executions |
| Touchstone.ExecuteTargetIds | TouchstoneCL/ts.py:364-427 | `executeTarget` appends the id of an accepted launch to the ids already there |
| Touchstone.StepsIds | TouchstoneCL/ts.py:278-284 | after the first launches, the session holds its earlier executions followed by one per accepted launch, in launch order |
| Touchstone.StepsRunIds | TouchstoneCL/ts.py:278-284 | the loop body for one target more adds its id, if it was accepted, after those of the targets before it |
| Touchstone.ExecuteTargetsOutcome | TouchstoneCL/ts.py:274-287 | a completed `executeTargets` records one execution per accepted launch, and without start_only none is left running |
| Touchstone.ExecuteTargetsRun | TouchstoneCL/ts.py:274-287 | a completed `executeTargets`, with the corrected wait condition, had a reply for every target and holds the ids it had followed by the id of each accepted launch, in launch order |
| Touchstone.BlockingTargetAwaited | TouchstoneCL/ts.py:281-284 | after a target that needs the blocking wait, no blocking execution is still running when the loop moves on |
| Touchstone.Touchstone.constructor | TouchstoneCL/ts.py:230-243 | a new session has no executions and the given date for "T" |
| Touchstone.Touchstone.PollOnce | TouchstoneCL/ts.py:456-477 | the method's loop leaves the executions and responses as one pass of the specification |
| Touchstone.Touchstone.AwaitExecutions | TouchstoneCL/ts.py:429-508 | the method leaves the executions as the specified wait does |
| Touchstone.Touchstone.ExecuteTarget | TouchstoneCL/ts.py:364-427 | the method leaves the executions as the specified MAX wait followed by one launch |
| Touchstone.Touchstone.LaunchStep | TouchstoneCL/ts.py:279-284 | one body of the launch loop, with the corrected wait condition of `NeedsBlockingWait`, advances the session from the state after target i to the state after target i + 1 |
| Touchstone.Touchstone.ExecuteTargets | TouchstoneCL/ts.py:274-287 | the method leaves the executions as the specified launch loop (with the corrected wait condition) and the final wait do |
| Touchstone.Touchstone.LaunchAll | TouchstoneCL/ts.py:278-284 | the loop leaves the executions as the specification of all launches, with the corrected wait condition, does |
| Touchstone.UploadLocationRebuilds | TouchstoneCL/ts.py:296-301 | the parent and leaf folders rebuild the relative path; the leaf has no slash; the test group lies below `/FHIRSandbox/Nictiz` |
| Touchstone.MainDropdownId | TouchstoneCL/ts.py:517-521 | the first dropdown for value i is `main<kind>i+1TsSelect` |
| Touchstone.DropdownIdsDistinct | TouchstoneCL/ts.py:517-521 | different values of an origin or destination list go to different dropdowns |
| ExecutionStarter.NewTargetNormalises | TouchstoneExecutionStarter/script.py:23-28 | a single origin or destination becomes a one-element list, and a target built from lists is kept as it is |
| ExecutionStarter.Position | TouchstoneExecutionStarter/script.py:150 | a key is found exactly when it is declared, and then at a position that declares it |
| ExecutionStarter.FlattenAppend | TouchstoneExecutionStarter/script.py:137-139 | the arguments are handled left to right, each completely before the next |
| ExecutionStarter.SinglesLaunched | TouchstoneExecutionStarter/script.py:137-157 | `Flatten`, the steps of `execute`, launches every target passed directly among the arguments |
| ExecutionStarter.FlattenPrefix | TouchstoneExecutionStarter/script.py:137-139 | taking one more argument adds what that argument does |
| ExecutionStarter.FlattenSingle | TouchstoneExecutionStarter/script.py:154-155 | `execute(x)` does what `x` does, so a list stands for its elements |
| ExecutionStarter.FlattenItems | TouchstoneExecutionStarter/script.py:139-157 | a target is executed once per occurrence, a list stands for its elements in order, and a key that is not a number stands for its value |
| ExecutionStarter.NumberSelects | TouchstoneExecutionStarter/script.py:141-153 | a number n in range does what key n does, counting from one; 0 and negative numbers count back from the last key, as a Python index n - 1 does |
| ExecutionStarter.KeySelects | TouchstoneExecutionStarter/script.py:150-153 | an argument that resolves to a declared key does what that key's value does |
| ExecutionStarter.ResolveNumber | TouchstoneExecutionStarter/script.py:143-144 | a number in range resolves to its key without a message |
| ExecutionStarter.NumberInRange | TouchstoneExecutionStarter/script.py:143-144 | a number in range picks its key whatever the text it was read from |
| ExecutionStarter.PositionOfKey | TouchstoneExecutionStarter/script.py:150 | with distinct keys, each key is found where it is declared |
| ExecutionStarter.UnknownNameReported | TouchstoneExecutionStarter/script.py:145-151 | a name that is neither a key nor a number gives the "Unknown target" message and executes nothing |
| ExecutionStarter.KeyLikeIsNoNumber | TouchstoneExecutionStarter/script.py:141-147 | `int()` rejects a key that starts with a letter and ends in a letter or digit, so `execute` looks such a name up as a key |
| ExecutionStarter.RegisteredByShape | TouchstoneExecutionStarter/script.py:41-100 | a table whose keys are distinct and whose entries are targets, lists of targets, or lists naming earlier letter-initial keys declares each key once and names only earlier keys |
| ExecutionStarter.TargetsDistinct | TouchstoneExecutionStarter/script.py:41-100 | no key of the shipped table is assigned twice |
| ExecutionStarter.TargetsRegistered | TouchstoneExecutionStarter/script.py:41-100 | the shipped table declares each key once, and every list in it names only keys declared before it |
| ExecutionStarter.OutOfRangeNumberReported | TouchstoneExecutionStarter/script.py:148-151 | a number past the registry in either direction gives both messages, the number as read and then the argument as given, and executes nothing |
| ExecutionStarter.NumberOutOfRange | TouchstoneExecutionStarter/script.py:148-149 | a number past the registry resolves to the argument itself, with the message giving the number |
| ExecutionStarter.Resolve | TouchstoneExecutionStarter/script.py:140-149 | at most one message is printed for a string argument, and only when the argument is kept as it is |
| ExecutionStarter.ResolvesToKey | TouchstoneExecutionStarter/script.py:140-149 | a string argument stands for itself or for a declared key |
| ExecutionStarter.LinesEach | TouchstoneExecutionStarter/script.py:196-200 | each step adds exactly its own results line |
| ExecutionStarter.LinesAppend | TouchstoneExecutionStarter/script.py:196-200 | the results of two runs of steps, one after the other, are the results of the combined run |
| ExecutionStarter.LinesConcat | TouchstoneExecutionStarter/script.py:137-139 | the results of two runs of steps, one after the other, are the results of each run in order |
| ExecutionStarter.ReportsLines | TouchstoneExecutionStarter/script.py:149-151 | messages are added to the results as they are |
| ExecutionStarter.DefaultParamsProperties | TouchstoneExecutionStarter/script.py:185-188 | the params always hold "T"; they keep every given param, and "T" defaults to the launcher's date |
| ExecutionStarter.DefaultParamsIdempotent | TouchstoneExecutionStarter/script.py:185-188 | executing a shared target again finds "T" already set, and defaulting again changes nothing |
| ExecutionStarter.SubtargetNames | TouchstoneExecutionStarter/script.py:132 | no more names than elements |
| ExecutionStarter.SubtargetNamesFilter | TouchstoneExecutionStarter/script.py:132 | the names are exactly the string elements of the list |
| ExecutionStarter.TargetLineSelects | TouchstoneExecutionStarter/script.py:127-144 | the number a line starts with selects that very key in `execute`, the name follows, and something follows the name exactly when the value is a list with a name in it |
| ExecutionStarter.TargetLineParts | TouchstoneExecutionStarter/script.py:127-134 | a line is the padded number, ".  " and the name, followed by more text exactly when the value is a list with a name in it |
| ExecutionStarter.TargetLineOf | TouchstoneExecutionStarter/script.py:127-134 | the appends of the loop body build the specified line |
| ExecutionStarter.Launcher.constructor | TouchstoneExecutionStarter/script.py:102-107 | a new launcher has no results and the given date for "T" |
| ExecutionStarter.Launcher.PrintTargets | TouchstoneExecutionStarter/script.py:123-135 | one line per key, in declaration order |
| ExecutionStarter.Launcher.ExecuteTarget | TouchstoneExecutionStarter/script.py:159-200 | the target gets its "T" default, and one results line says whether the execution started |
| ExecutionStarter.Launcher.Execute | TouchstoneExecutionStarter/script.py:137-157 | the results grow by the lines of what the arguments expand to |
| ExecutionStarter.Launcher.ExecuteOne | TouchstoneExecutionStarter/script.py:139-157 | the results grow by the lines of what one argument expands to |
| ExecutionStarter.Launcher.ExecuteName | TouchstoneExecutionStarter/script.py:140-153 | the results grow by the messages about a string argument and the lines of what its key stands for |
| Reports.FoldersClean | TouchstoneCL/launcher.py:26 | every typed folder is non-empty and carries no whitespace at either end |
| Reports.FoldersAvoid | TouchstoneCL/launcher.py:26 | a character that no typed piece holds is in no folder |
| Reports.SplitFoldersNoSpace | TouchstoneCL/launcher.py:26 | a typed folder never contains a space |
| Reports.SplitFoldersOfWords | TouchstoneCL/launcher.py:25-26 | folders without whitespace, typed with single spaces between them, are read back unchanged |
| Reports.FoldersOfStripped | TouchstoneCL/launcher.py:26 | pieces that are already clean are all kept, in order |
| Reports.FoldersToRun | TouchstoneCL/launcher.py:22-28 | the folder arguments when there are any, otherwise the folders typed at the prompt |
| Reports.ResolveTargets | TouchstoneExecutionStarter/launcher.py:35-37 | the targets of all folders in the order given, or the error of the first folder that fails |
| Reports.StartFor | TouchstoneExecutionStarter/launcher.py:24-30 | the run goes on only when targets were given |
| Reports.StartExits | TouchstoneExecutionStarter/launcher.py:24-30 | exit status 0 exactly with `--list`; 1 exactly without `--list` and without targets; otherwise the run goes on |
| Reports.ExitStatus | TouchstoneExecutionStarter/launcher.py:24-30 | the run exits exactly when it does not proceed, with status 0 or 1 |
| Reports.ShowsJiraSummary | TouchstoneCL/launcher.py:36 | the summary is printed only when asked for and not with `--start-only` |
| Reports.GlyphMeaning | TouchstoneCL/launcher.py:40-45 | a cross exactly when there are failures; a warning sign exactly for warnings without failures; a check mark exactly for neither |
| Reports.ListLineParts | TouchstoneCL/launcher.py:46-54 | the link follows the glyph; the detail is empty exactly for a clean run, and otherwise gives the failures, the warnings or both with ", " between them |
| Reports.DetailAppended | TouchstoneCL/launcher.py:47-54 | the branches of the appends give the head followed by the specified detail |
| Reports.ListLineOf | TouchstoneCL/launcher.py:39-54 | the appends of the loop body build the specified bullet |
| Reports.JiraList | TouchstoneCL/launcher.py:37-55 | the list header, then one bullet per execution in the order they were started |
| Reports.TableRowParts | TouchstoneExecutionStarter/launcher.py:43-49 | a row opens with the folder cell and the status mark, "(/)" exactly for a pass, then the counts, present exactly when one is positive, then the link cell |
| Reports.TableRowOf | TouchstoneExecutionStarter/launcher.py:43-49 | the appends of the loop body build the specified row |
| Reports.JiraTable | TouchstoneExecutionStarter/launcher.py:41-50 | the table header, then one row per execution in the order they were started |
| FhirRefs.KeyOfMatches | WrapInBundle/wrap_in_bundle.py:43 | the key of a resource whose type and id fit the pattern is a local reference the rewrite recognises |
| FhirRefs.FullUrlNotRefKey | WrapInBundle/wrap_in_bundle.py:136 | a fullUrl never looks like a local reference, so a rewritten reference is not rewritten again |
| FhirRefs.FullUrlInjective | WrapInBundle/wrap_in_bundle.py:136 | different uuids give different fullUrls |
| FhirRefs.RefMapLastWins | WrapInBundle/wrap_in_bundle.py:138-139 | the reference map has a key exactly for the resources with an id, and each key leads to the fullUrl of the last resource filed under it |
| FhirRefs.AssignFullUrls | WrapInBundle/wrap_in_bundle.py:131-140 | the loop gives each resource the fullUrl of its uuid and builds the specified reference map |
| FhirRefs.FullUrlsDistinct | WrapInBundle/wrap_in_bundle.py:136 | with distinct uuids the entries get distinct fullUrls |
| FhirRefs.RefMapFinal | WrapInBundle/wrap_in_bundle.py:136-139 | no value of the reference map looks like a local reference |
| FhirRefs.MissingMeaning | WrapInBundle/wrap_in_bundle.py:147-152 | a reference is reported exactly when it occurs among the references and names no key of the reference map |
| FhirRefs.MissingConcat | WrapInBundle/wrap_in_bundle.py:143-158 | the references reported for two runs of the walk, one after the other, are those of each run in order |
| FhirRefs.MissingEachSnoc | WrapInBundle/wrap_in_bundle.py:165-168 | one resource more adds its own unresolved references after those of the resources before it |
| FhirRefs.MissingEachMeaning | WrapInBundle/wrap_in_bundle.py:20 | a reference is reported over all resources exactly when some resource holds it and it names no key of the reference map |
| JsonBundle.RewriteKeepsShape | WrapInBundle/wrap_in_bundle.py:143-158 | the rewrite keeps the same keys in the same order, the same array lengths and the same scalars; only "reference" strings change |
| JsonBundle.MembersKeepShape | WrapInBundle/wrap_in_bundle.py:144-155 | the same for the members of an object |
| JsonBundle.ElemsKeepShape | WrapInBundle/wrap_in_bundle.py:156-157 | the same for the elements of an array |
| JsonBundle.UnresolvedAreMissing | WrapInBundle/wrap_in_bundle.py:147-152 | every reported reference looks like `Type/id` and names no resource of the input |
| JsonBundle.MembersUnresolvedAreMissing | WrapInBundle/wrap_in_bundle.py:147-152 | the same for the members of an object |
| JsonBundle.ElemsUnresolvedAreMissing | WrapInBundle/wrap_in_bundle.py:156-157 | the same for the elements of an array |
| JsonBundle.RewriteIdempotent | WrapInBundle/wrap_in_bundle.py:143-158 | with fullUrls as targets, a second rewrite changes nothing and reports the same references |
| JsonBundle.MembersIdempotent | WrapInBundle/wrap_in_bundle.py:144-155 | the same for the members of an object |
| JsonBundle.ElemsIdempotent | WrapInBundle/wrap_in_bundle.py:156-157 | the same for the elements of an array |
| JsonBundle.RewriteEmptyMap | WrapInBundle/wrap_in_bundle.py:143-158 | with nothing to resolve against, the value is unchanged |
| JsonBundle.MembersEmptyMap | WrapInBundle/wrap_in_bundle.py:144-155 | the same for the members of an object |
| JsonBundle.ElemsEmptyMap | WrapInBundle/wrap_in_bundle.py:156-157 | the same for the elements of an array |
| JsonBundle.ReferenceMember | WrapInBundle/wrap_in_bundle.py:147-152 | a "reference" string that looks like `Type/id` becomes the fullUrl filed under it, or stays and is reported |
| JsonBundle.NonMatchingReferenceMember | WrapInBundle/wrap_in_bundle.py:147-154 | any other "reference" string stays as it is and is not reported |
| JsonBundle.PopId | WrapInBundle/wrap_in_bundle.py:167 | the copy keeps exactly the members other than "id" |
| JsonBundle.BuildJsonBundle | WrapInBundle/wrap_in_bundle.py:161-181 | a transaction Bundle with one entry per resource, in input order; the reported references are exactly those of each resource, in input and document order, that name no resource of the input |
| JsonBundle.EntryContents | WrapInBundle/wrap_in_bundle.py:169-173 | an entry holds its fullUrl, the resource with the same members but "id", in order and with only references changed, and a POST request to the resource type |
| JsonBundle.LocalReferenceResolved | WrapInBundle/wrap_in_bundle.py:138-149 | a reference written as the `Type/id` of a resource of the input becomes the fullUrl of the last resource filed under that key |
| JsonBundle.Rewrite | WrapInBundle/wrap_in_bundle.py:143-158 | objects stay objects and arrays stay arrays; any other value is left as it is and reports nothing |
| JsonBundle.RewriteReportsMissing | WrapInBundle/wrap_in_bundle.py:143-158 | the walk reports exactly the `Type/id` references of the value, in document order, that the reference map does not hold |
| JsonBundle.MembersReportMissing | WrapInBundle/wrap_in_bundle.py:144-155 | the same for the members of an object |
| JsonBundle.ElemsReportMissing | WrapInBundle/wrap_in_bundle.py:156-157 | the same for the elements of an array |
| JsonBundle.AllRefs | WrapInBundle/wrap_in_bundle.py:165-168 | one list of references per resource, in input order, each that of the resource without its "id" |
| JsonBundle.ReportsEveryMissing | WrapInBundle/wrap_in_bundle.py:20 | a reference is reported exactly when some resource holds it and it names no resource of the input |
| XmlBundle.CloseBrace | WrapInBundle/wrap_in_bundle.py:78-83 | the position of the first "}", or none exactly when there is none |
| XmlBundle.QNameParts | WrapInBundle/wrap_in_bundle.py:78-83 | `_ns` and `_local` of `{ns}local` give back the namespace and the local name |
| XmlBundle.PlainTag | WrapInBundle/wrap_in_bundle.py:78-83 | a tag without "}" is its own local name, and without a leading "{" it has no namespace |
| XmlBundle.Local | WrapInBundle/wrap_in_bundle.py:78-79 | the local name is no longer than the tag, and is the whole tag when there is no "}" |
| XmlBundle.LocalAfterFirstBrace | WrapInBundle/wrap_in_bundle.py:78-79 | with a "}" in the tag, the local name is exactly what follows the first one |
| XmlBundle.Ns | WrapInBundle/wrap_in_bundle.py:82-83 | a namespace exactly for a tag starting with "{": the text after it, up to the first "}" or the end |
| XmlBundle.ReferenceTags | WrapInBundle/wrap_in_bundle.py:185 | `{*}reference` matches a reference tag in any namespace or none, and a plain tag only when it is "reference" |
| XmlBundle.TreeKeepsShape | WrapInBundle/wrap_in_bundle.py:184-193 | tags, children and all other attributes stay as they were; only reference values change |
| XmlBundle.ForestKeepsShape | WrapInBundle/wrap_in_bundle.py:184-193 | the same for a list of elements |
| XmlBundle.TreeUnresolvedAreMissing | WrapInBundle/wrap_in_bundle.py:189-193 | every reported value looks like `Type/id` and names no resource of the input |
| XmlBundle.ForestUnresolvedAreMissing | WrapInBundle/wrap_in_bundle.py:189-193 | the same for a list of elements |
| XmlBundle.TreeIdempotent | WrapInBundle/wrap_in_bundle.py:184-193 | with fullUrls as targets, a second rewrite changes nothing and reports the same values |
| XmlBundle.ForestIdempotent | WrapInBundle/wrap_in_bundle.py:184-193 | the same for a list of elements |
| XmlBundle.EmptyReferenceSkipped | WrapInBundle/wrap_in_bundle.py:186-188 | a reference with an absent or empty value is skipped and not reported |
| XmlBundle.RewriteTree | WrapInBundle/wrap_in_bundle.py:184-193 | the tag stays, and an element that is not a reference keeps its attributes |
| XmlBundle.RewriteBelow | WrapInBundle/wrap_in_bundle.py:184-185 | `.//{*}reference` looks only below the element: its own tag and attributes stay, and so does the number of children |
| XmlBundle.TreeReportsMissing | WrapInBundle/wrap_in_bundle.py:184-193 | the rewrite reports exactly the `Type/id` reference values of the tree, in document order, that the reference map does not hold |
| XmlBundle.ForestReportsMissing | WrapInBundle/wrap_in_bundle.py:184-193 | the same for a list of elements |
| XmlBundle.AllRefs | WrapInBundle/wrap_in_bundle.py:208-219 | one list of references per resource, in input order, each from the children left after the first `<id>` |
| XmlBundle.ReportsEveryMissing | WrapInBundle/wrap_in_bundle.py:20 | a reference is reported exactly when some resource holds it and it names no resource of the input |
| XmlBundle.ReadId | WrapInBundle/wrap_in_bundle.py:93-97 | an id read is the value of an `<id>` child, and without an `<id>` child there is none |
| XmlBundle.LoadResource | WrapInBundle/wrap_in_bundle.py:116-117 | a file whose root is a resource yields that element, typed by its local name, with its id |
| XmlBundle.FirstId | WrapInBundle/wrap_in_bundle.py:86-90 | the first child named "id", or none exactly when no child is named "id" |
| XmlBundle.RemoveFirstId | WrapInBundle/wrap_in_bundle.py:214-218 | the loop removes the first `<id>` child and stops |
| XmlBundle.WithoutFirstIdKeeps | WrapInBundle/wrap_in_bundle.py:214-218 | only the first `<id>` child goes; every child before it and after it stays, in order |
| XmlBundle.EntryResourceShape | WrapInBundle/wrap_in_bundle.py:213-220 | an entry's resource keeps the tag and attributes, loses the first `<id>`, and differs below only in reference values |
| FhirRefs.FullUrls | WrapInBundle/wrap_in_bundle.py:136-137 | the fullUrl of each uuid, in order |
| XmlBundle.BuildXmlBundle | WrapInBundle/wrap_in_bundle.py:196-233 | a `<Bundle>` whose first child is `<type value="transaction"/>`, then one entry per resource in input order; the reported references are exactly those of each resource, in input and document order, that name no resource of the input |
| XmlBundle.BuildEntries | WrapInBundle/wrap_in_bundle.py:208-226 | the loop gives one entry per resource, in input order, and leaves unresolved exactly the missing references of each resource in turn |
| XmlBundle.BuildEntry | WrapInBundle/wrap_in_bundle.py:209-226 | one pass builds the specified entry and reports exactly the missing references of that resource |
| XmlBundle.PickNamespace | WrapInBundle/wrap_in_bundle.py:279-285 | the Bundle takes the namespace of the first resource that has one |
| XmlBundle.FirstNamespaceIs | WrapInBundle/wrap_in_bundle.py:279-285 | the loop's result is the namespace of the first tag that has one |
| XmlBundle.MainExitCodes | WrapInBundle/wrap_in_bundle.py:245-299 | exit 1 exactly when no file was found, 2 exactly for mixed JSON and XML, 3 exactly when writing the requested output failed, otherwise 0 |
| XmlBundle.MixedKinds | WrapInBundle/wrap_in_bundle.py:253-256 | ".xml" and ".XML" are one kind, and ".json" with ".xml" is a mix |
| XmlBundle.MainExit | WrapInBundle/wrap_in_bundle.py:245-299 | the status is between 0 and 3, 0 only for files of one kind, and never 3 without an output path |
| UpVersion.UsageExit | UpVersionNumbers/upversionnumbers.py:12-14 | the script exits with status 1 exactly when it is not given exactly one argument |
| UpVersion.XmlOnly | UpVersionNumbers/upversionnumbers.py:18 | the filter never adds a path |
| UpVersion.XmlOnlyKeeps | UpVersionNumbers/upversionnumbers.py:18 | a path is kept exactly when it is listed and ends in ".xml" in any case, and a list of XML paths is kept whole |
| UpVersion.XmlOnlyConcat | UpVersionNumbers/upversionnumbers.py:18 | the filter keeps the order of the changed paths |
| UpVersion.IncreasePatch | UpVersionNumbers/upversionnumbers.py:7-9 | the replacement keeps the text before and after the patch number, and puts the number one higher in between |
| UpVersion.IncreasePatchOnlyPatch | UpVersionNumbers/upversionnumbers.py:7-9 | replacing a match gives a match again, with the same whitespace, quotes, major and minor, and a patch number one higher |
| UpVersion.LeadingZerosDropped | UpVersionNumbers/upversionnumbers.py:8-9 | leading zeros of the patch number are not kept: "007" becomes "8" |
| UpVersion.BumpAll | UpVersionNumbers/upversionnumbers.py:25 | every match gets its patch number raised and the text between matches is untouched |
| UpVersion.SubNMeaning | UpVersionNumbers/upversionnumbers.py:25 | `subn` makes one replacement per match, and its text is the file with every patch number raised; without a match the text is unchanged |
| UpVersion.ProcessFileOutcome | UpVersionNumbers/upversionnumbers.py:25-34 | a file is rewritten exactly when it has a match, with every patch number raised; the report is "nothing to do", "done" or the warning for no, one or several matches |
| UpVersion.SubN | UpVersionNumbers/upversionnumbers.py:25 | the number of replacements is the number of matches |
| UpVersion.ProcessFile | UpVersionNumbers/upversionnumbers.py:25-34 | a file is rewritten exactly when it has a match, and reported "done" exactly when it has one |
| UpVersion.MessageWarns | UpVersionNumbers/upversionnumbers.py:31-34 | only the report for more than one replacement is a warning |
| UpVersion.MessageNamesFile | UpVersionNumbers/upversionnumbers.py:27-34 | every report ends with the path of its file |
| DisplayValues.AnyUse | CheckDisplayValues/CheckDisplayValues/DisplayValue.cs:32-35 | true exactly when some translation has the given use |
| DisplayValues.DisplayValue.IsZiBValueSet | CheckDisplayValues/CheckDisplayValues/DisplayValue.cs:32-35 | true exactly when one of the correct translations has the use "ZiB" |
| DisplayValues.InLanguage | CheckDisplayValues/CheckDisplayValues/DisplayValue.cs:40-46 | the filter never adds a translation |
| DisplayValues.InLanguageSnoc | CheckDisplayValues/CheckDisplayValues/DisplayValue.cs:40-46 | one more translation is kept exactly when its language contains the language asked for |
| DisplayValues.InLanguageMembers | CheckDisplayValues/CheckDisplayValues/DisplayValue.cs:40-46 | exactly the translations in the language are kept, and the result is empty only when none matches |
| DisplayValues.InLanguageConcat | CheckDisplayValues/CheckDisplayValues/DisplayValue.cs:40-46 | the filter keeps the order of the translations |
| DisplayValues.NonEmptyOrNull | CheckDisplayValues/CheckDisplayValues/DisplayValue.cs:48-55 | `null` exactly for an empty list, otherwise the list itself |
| DisplayValues.DisplayValue.GetDutchDisplayValues | CheckDisplayValues/CheckDisplayValues/DisplayValue.cs:37-56 | the loop gives the Dutch translations in order, or `null` when there are none |
| DisplayValues.DisplayValue.GetEnglishDisplayValues | CheckDisplayValues/CheckDisplayValues/DisplayValue.cs:58-77 | the loop gives the English translations in order, or `null` when there are none |
| FileChecking.QuoteAt | CheckDisplayValues/CheckDisplayValues/FileChecker.cs:297 | the character test `nextCrar.ToString() == "\""` is the test for a quote at that position |
| FileChecking.Rounds | CheckDisplayValues/CheckDisplayValues/FileChecker.cs:288-314 | the rounds end with no marker left and fewer "$" than before, or throw IndexOutOfRange when no closing quote follows the marker |
| FileChecking.RoundStep | CheckDisplayValues/CheckDisplayValues/FileChecker.cs:295-304 | a round replaces the span from the marker to the next quote and loses at least one "$", so the recursion ends |
| FileChecking.TDateReplaced | CheckDisplayValues/CheckDisplayValues/FileChecker.cs:288-314 | when `ReplaceTDate` returns, no quoted date marker is left |
| FileChecking.EncodingsReplaced | CheckDisplayValues/CheckDisplayValues/FileChecker.cs:321-352 | when `ReplaceEncodings` returns, no quoted placeholder is left; a text without one is returned unchanged; the only exception is IndexOutOfRange |
| FileChecking.ScanFound | CheckDisplayValues/CheckDisplayValues/FileChecker.cs:293-311 | the scan stops at the first quote at or after its start |
| FileChecking.ScanNotFound | CheckDisplayValues/CheckDisplayValues/FileChecker.cs:293-311 | without a quote at or after its start the scan finds none |
| FileChecking.ReplaceTDate | CheckDisplayValues/CheckDisplayValues/FileChecker.cs:288-314 | the `while (true)` scan and the recursion give the specified result |
| FileChecking.ReplaceEncodings | CheckDisplayValues/CheckDisplayValues/FileChecker.cs:321-352 | the `while (true)` scan and the recursion give the specified result |
| FileChecking.QuotedHoldsBare | CheckDisplayValues/CheckDisplayValues/FileChecker.cs:44 | a text holding a quoted placeholder passes the unquoted guard |
| FileChecking.DateHoldsEncoded | CheckDisplayValues/CheckDisplayValues/FileChecker.cs:40-47 | a quoted date marker is also a quoted placeholder |
| FileChecking.UnquotedDateThrows | CheckDisplayValues/CheckDisplayValues/FileChecker.cs:40-43 | with the unquoted guard, `${DATE` alone throws IndexOutOfRange and `'${DATE'"` throws ArgumentOutOfRange |
| FileChecking.PreparedClean | CheckDisplayValues/CheckDisplayValues/FileChecker.cs:39-47 | with the quoted guard, the clean-up leaves no quoted placeholder and no date marker, and can only throw for an unclosed quote |
| FileChecking.PreparedAsWritten | CheckDisplayValues/CheckDisplayValues/FileChecker.cs:39-47 | a text without `${` passes the clean-up as written unchanged |
| FileChecking.Prepared | CheckDisplayValues/CheckDisplayValues/FileChecker.cs:39-47 | a text without `${` passes the corrected clean-up unchanged |
| FileChecking.MarksHoldPlaceholder | CheckDisplayValues/CheckDisplayValues/FileChecker.cs:40-43 | both date guards contain `${`, so a text without it passes neither |
| FileChecking.Prepare | CheckDisplayValues/CheckDisplayValues/FileChecker.cs:39-47 | the clean-up step gives the corrected clean-up `Prepared`, whose date rounds run under the quoted guard |
| FileChecking.CollectedHasPath | CheckDisplayValues/CheckDisplayValues/FileChecker.cs:211-234 | every collected value comes from a compared element none of whose ancestors is compared |
| FileChecking.CollectedAllHasPath | CheckDisplayValues/CheckDisplayValues/FileChecker.cs:221-224 | a value collected from a list of elements comes from one of them |
| FileChecking.InCollectedAll | CheckDisplayValues/CheckDisplayValues/FileChecker.cs:221-224 | a value collected from a list element is collected from the list |
| FileChecking.CollectedFromPath | CheckDisplayValues/CheckDisplayValues/FileChecker.cs:211-234 | the value of every such element is collected |
| FileChecking.CollectedMeaning | CheckDisplayValues/CheckDisplayValues/FileChecker.cs:211-234 | a value is collected exactly when it belongs to a "category" or "coding" element with no such ancestor |
| FileChecking.FirstWithCode | CheckDisplayValues/CheckDisplayValues/FileChecker.cs:195-197 | the first display value with the code, or none exactly when no display value has it |
| FileChecking.AddConceptsMeaning | CheckDisplayValues/CheckDisplayValues/FileChecker.cs:191-205 | without a `null` list on the way, only translation lists change, and each gains the ZiB translations of the concepts whose code it is the first to carry, in concept order |
| FileChecking.AddOneMeaning | CheckDisplayValues/CheckDisplayValues/FileChecker.cs:193-204 | one more concept keeps that meaning |
| FileChecking.AddConceptShape | CheckDisplayValues/CheckDisplayValues/FileChecker.cs:195-203 | one concept changes at most one display value, the first with its code |
| FileChecking.AddOneAt | CheckDisplayValues/CheckDisplayValues/FileChecker.cs:195-203 | a display value's list after one more concept is its list after the earlier concepts plus what that concept adds |
| FileChecking.AdditionsLast | CheckDisplayValues/CheckDisplayValues/FileChecker.cs:193-204 | the translations of the last concept come after those of the concepts before it |
| FileChecking.AddConceptsNoStop | CheckDisplayValues/CheckDisplayValues/FileChecker.cs:191-205 | display values that all have a translation list never make the updates throw |
| FileChecking.AddConceptsStop | CheckDisplayValues/CheckDisplayValues/FileChecker.cs:193-204 | once an update has thrown, later concepts change nothing |
| FileChecking.FirstOfSystem | CheckDisplayValues/CheckDisplayValues/FileChecker.cs:174-175 | the first include of the system, or none exactly when no include has it |
| FileChecking.ChosenIncludeMeaning | CheckDisplayValues/CheckDisplayValues/FileChecker.cs:174-184 | a SNOMED include wins over LOINC; without SNOMED the first LOINC include is read; nothing is read exactly when neither is there |
| FileChecking.ConceptMapReference | CheckDisplayValues/CheckDisplayValues/FileChecker.cs:135-138 | the one known misspelt reference is renamed, and every other reference is kept |
| FileChecking.FileChecker.constructor | CheckDisplayValues/CheckDisplayValues/FileChecker.cs:20-23 | a new checker has no display values and zero counts |
| FileChecking.FileChecker.CompareValues | CheckDisplayValues/CheckDisplayValues/FileChecker.cs:240-281 | the element's display value, when it has one, is appended, and the counts are kept |
| FileChecking.FileChecker.CheckElement | CheckDisplayValues/CheckDisplayValues/FileChecker.cs:211-234 | the walk appends exactly the values collected from the element, in document order |
| FileChecking.FileChecker.CheckExternalCodes | CheckDisplayValues/CheckDisplayValues/FileChecker.cs:191-205 | the loop updates the display values as the specified concept updates do, and reports whether a `null` list made it throw |
| FileChecking.FileChecker.ReadValueSet | CheckDisplayValues/CheckDisplayValues/FileChecker.cs:171-185 | the concepts of the chosen include are added, and nothing changes without one |
| FileChecking.FileChecker.ReadConceptMap | CheckDisplayValues/CheckDisplayValues/FileChecker.cs:130-165 | a concept map that is not found adds a "NotFoundInPackage" entry under the renamed reference; a found one adds its targets as a value set does |
| FileChecking.FileChecker.SearchEntry | CheckDisplayValues/CheckDisplayValues/FileChecker.cs:67-83 | the resource's codes are collected; only with codes and outside a Binary is a report printed, and then the counts grow by its warnings and errors |
| FileChecking.FileChecker.AddCounts | CheckDisplayValues/CheckDisplayValues/FileChecker.cs:79-81 | the counts grow by the warnings and the errors of the report |
| Printing.MessageClassification | CheckDisplayValues/CheckDisplayValues/Printer.cs:88-110 | at most one report: none exactly when the displays agree ignoring case; "Could not find" for a missing original; the no-translation warning for an empty suggestion; otherwise an error |
| Printing.AnyDisplayMatchesMeaning | CheckDisplayValues/CheckDisplayValues/Printer.cs:48 | the `Any` test is true only for a translation that matches ignoring case, false only when none does, and does not throw when every display is present |
| Printing.FindUse | CheckDisplayValues/CheckDisplayValues/Printer.cs:51 | a translation with the use that no earlier translation has, or none exactly when no translation has it |
| Printing.SuggestionOrder | CheckDisplayValues/CheckDisplayValues/Printer.cs:51 | the suggestion is the display of the first ZiB translation; failing that, of the first "display"; then of the first "Fully specified name"; then of the first "Preferred For Language"; it is empty when none of the four uses occurs |
| Printing.ValidationWarns | CheckDisplayValues/CheckDisplayValues/Printer.cs:32-34 | a "Validation" value always gives the "Could not find" warning |
| Printing.DutchDecides | CheckDisplayValues/CheckDisplayValues/Printer.cs:46-53 | with Dutch translations, a value is reported exactly when none matches ignoring case, with the Dutch suggestion |
| Printing.StepFor | CheckDisplayValues/CheckDisplayValues/Printer.cs:30-70 | a reported value always carries its own code and, outside "Validation", its current display; without looked-up translations it throws ArgumentNull |
| Printing.EnglishBranchThrows | CheckDisplayValues/CheckDisplayValues/Printer.cs:55-62 | without Dutch translations, English ones that do not match make the loop throw, because the suggestion is looked up in the `null` Dutch list |
| Printing.CallsAreCalls | CheckDisplayValues/CheckDisplayValues/Printer.cs:27-72 | every step the loop records is a call to `PrintMessage`, and there are at most as many as display values |
| Printing.PrintedHeader | CheckDisplayValues/CheckDisplayValues/Printer.cs:82-86 | a fresh printer prints the file name as its first line as soon as a call is made, and never again; a printer that has printed already prints only reports |
| Printing.CountLevelConcat | CheckDisplayValues/CheckDisplayValues/FileChecker.cs:79-81 | the counts of two runs of lines add up |
| Printing.CountLevelsSplit | CheckDisplayValues/CheckDisplayValues/FileChecker.cs:79-81 | warnings and errors together are all lines but the headers |
| Printing.CallsSnoc | CheckDisplayValues/CheckDisplayValues/Printer.cs:30-71 | one more display value adds its call, or ends the loop with its exception |
| Printing.PrintedSnoc | CheckDisplayValues/CheckDisplayValues/Printer.cs:80-111 | one more call prints the header if it is the first on a fresh printer, then its report |
| Printing.CallsStop | CheckDisplayValues/CheckDisplayValues/Printer.cs:27-72 | once the loop has thrown, later display values change nothing |
| Printing.Printer.constructor | CheckDisplayValues/CheckDisplayValues/Printer.cs:17-21 | a new printer has printed nothing and has its first message still to come |
| Printing.Printer.PrintMessage | CheckDisplayValues/CheckDisplayValues/Printer.cs:80-111 | the header on the first call, then the report if any |
| Printing.Printer.PrintOne | CheckDisplayValues/CheckDisplayValues/Printer.cs:30-70 | one loop body extends the output by its call's lines, and returns the exception it throws, if any |
| Printing.Printer.PrintInconsistency | CheckDisplayValues/CheckDisplayValues/Printer.cs:27-72 | the output grows by the lines of the calls made, in order, and the loop stops at the first exception |

## Left out

- The Touchstone web front end: HTTP, the browser session, log-in and log-out (`TouchstoneCL/ts.py:245-262`), the zip archive and the upload request (`uploadTarget` beyond the folder and kind it is given), and the form filling of `_selectOrigDest` beyond the dropdown ids. They are network and file-system I/O.
- Sleeping between polls and the clock (`TouchstoneCL/ts.py:458-459`) are left out. The poll loop sees only the order of the responses.
- The launch and poll replies of the server become parameters: one launch reply per target and a finite feed of poll responses. A run that uses up the feed ends with `OutOfResponses`, where the program would go on polling.
- ANSI colours and colorama are left out. Console output is modelled as the lines or `Line` values the code would print.
- YAML parsing of the properties files and the targets file is left out. The parsed document is a `Yaml.Value`.
- `json.load`, `ET.parse` and the file reads in `wrap_in_bundle.py` are left out (`load_json_items`, `_validate_resource_dict`, `load_xml_items` and the bundle-entry iteration at lines 100-106). So is `iter_input_paths`, whose `sorted(rglob)` order is taken as given. The loaders' output is the input of the model.
- The warning that `wrap_in_bundle.py` prints to standard error lists the unresolved references sorted and without repeats. It is console output and is left out. The builders return the references in document order, with repeats.
- `uuid4` becomes a parameter: the uuids are supplied.
- The order in which `iterdir` lists a directory is taken as given.
- `XmlBundle`: element trees are values, so the in-place rewrite of `_rewrite_references_xml` is modelled as a function that returns the rewritten tree. Sharing of elements is not modelled.
- `UpVersion`: the regular-expression engine is replaced by an already-parsed text of `VersionTag`/`Segment` values. `git diff` and the file reads and writes are left out.
- `FileChecking`: the XML parsing in `CheckFile`, `SearchPackages` and the terminology-server lookups in `CompareValues` are left out. The display value an element yields is a field of the `Node`.
- C#'s `First()` on an empty sequence, and other exceptions that the modelled paths never reach, are left out.
- `FileChecking.FileChecker.SearchEntry`: the source reads a warning and error count back from `PrintInconsistency`, which returns nothing. The model counts the levels of the printed lines.
- `Strings.Lower` and `Strings.Capitalize` map ASCII letters only. `ToLower()` and `lower()` also fold other letters.
- `Touchstone.Touchstone.LaunchStep`: waits under the corrected condition `NeedsBlockingWait`. As written, `TouchstoneCL/ts.py:281` raises NameError for a blocking target when start_only is set, before the next target is launched; the model waits and goes on instead. The as-written condition is `Touchstone.BlockingWaitAsWritten` (see "## Findings").
- `Touchstone.Touchstone.ExecuteTargets`: the same substitution, through `Touchstone.Step` and `Touchstone.ExecuteTargetsRun`.
- `Touchstone.Touchstone.LaunchAll`: the same substitution.
- `Touchstone.Step`: the specification of one launch step uses the corrected condition; the NameError path is not part of it.
- `Touchstone.ExecuteTargetsRun`: the same substitution.
- `ExecutionStarter.Launcher.Execute`: the server's answer to a launch is a function of the target, so a target launched twice in one run gets the same reply both times. The server could answer the two launches differently. The same holds for `ExecutionStarter.Launcher.ExecuteOne`, `ExecutionStarter.Launcher.ExecuteName` and `ExecutionStarter.Lines`.
- `Yaml.Value`: has no float and no date scalar. `yaml.safe_load` gives a float for `1.5` and a date for `2024-01-01`; a properties file or targets file holding such a value has no model.
- `Yaml.Entry`: keys are strings. `yaml.safe_load` also yields integer, float, boolean and null keys. Under such a key, a mapping value makes `curr_path/key` at `TouchstoneCL/ts.py:163` raise TypeError, and a scalar setting value is stored in the settings under the non-string key. The model has neither path.
- `ExecutionStarter.Flatten`: `TARGETS` is complete before `execute` runs, so Python follows a name that refers to a later entry like any other, and recurses without end only on a name that leads back to itself. The model expands only names of earlier entries; a name at or after the current entry expands to nothing. The shipped table has no such name (`ExecutionStarter.TargetsRegistered`).
- `Paths.Components`: a key that starts with `/` is an absolute path, and pathlib's `curr_path/key` then discards `curr_path`. The model keeps the current folder and appends the key's components, because paths here are relative to the development root.
- `Paths.PathJoin`: for the same reason, a key that starts with `/` does not reset the folder to the file-system root.
- `Decimal.ParseInt`: reads ASCII digits, with Python's single underscores between digits. Python's `int()` also accepts other Unicode decimal digits, such as Arabic-Indic or full-width ones; the model rejects them.
- `KnownTargets.Get`: inherits that gap from `Decimal.ParseInt`. An index written in non-ASCII digits gives "No such target" here, where Python would use it as an index.
- `ExecutionStarter.Resolve`: inherits the same gap for a number written in non-ASCII digits.
- `Properties.Section`: a section that is a scalar, a non-empty list or a non-empty string gives `TypeError` at once. Python gets there later, inside the walk, and a list of integers would be walked differently.
- `DisplayValues.DisplayValue.GetDutchDisplayValues` and `DisplayValues.DisplayValue.GetEnglishDisplayValues` require a translation list. On a `null` list their `foreach` (`CheckDisplayValues/CheckDisplayValues/DisplayValue.cs:40` and `:62`) would throw NullReferenceException. That path is not reached: `IsZiBValueSet` runs first and throws.
- `DisplayValues.DisplayValue.IsZiBValueSet` requires a translation list. On a `null` list, `Any` at `CheckDisplayValues/CheckDisplayValues/DisplayValue.cs:34` throws ArgumentNullException. `Printing.StepFor` models that throw, as `ArgumentNull`, before the method is called (`CheckDisplayValues/CheckDisplayValues/Printer.cs:37`, `CheckDisplayValues/CheckDisplayValues/FileChecker.cs:145`).
- `KnownTargets.GetUploadTarget` keeps the source's fall-through for a falsy validator. `KnownTargets.CheckedUploadTargetFor` is the corrected reading and is not called by it.
- `FileChecking.Prepare`: runs the date rounds under the corrected quoted guard `"${DATE`. `CheckFile` guards them with `${DATE` (`CheckDisplayValues/CheckDisplayValues/FileChecker.cs:40`). The as-written clean-up is `FileChecking.PreparedAsWritten` (see "## Findings").
- The console output of `awaitExecutions` is not emitted: the wait notice and the "### Status ###" header (`TouchstoneCL/ts.py:443-450`), the failed response printed at `TouchstoneCL/ts.py:468`, the `- rel_path` line and status line printed for each execution on every poll pass (`TouchstoneCL/ts.py:491-492`), the cursor movements and the "### End status ###" footer (`TouchstoneCL/ts.py:499-508`). `Touchstone.StatusLine` gives the text of one status line.
- `targets.index(target)` is modelled as the position of the target in the list. The two differ only when the list holds the same target twice.
- `NTS.cs`, `Program.cs`, `Translation.cs` beyond its fields, `uploader.py`, NTS-proxy and TDateConverter are not part of this model.

## Findings

| source | as written | input that shows it | evidently intended | confidence | as-written member | corrected member |
|---|---|---|---|---|---|---|
| TouchstoneCL/ts.py:281 | the wait condition reads `len(unwrapped)`, a name that is not defined anywhere | a target with block until complete set, run with `--start-only`: evaluating the condition raises NameError | wait after each blocking target except the last one | not executed | Touchstone.StartOnlyBlockingRaises | Touchstone.NeedsBlockingWait |
| CheckDisplayValues/CheckDisplayValues/FileChecker.cs:40-43 | the date rounds are guarded by `${DATE`, without the quote that `ReplaceTDate` searches for | the text `${DATE` throws IndexOutOfRange; the text `'${DATE'"` throws ArgumentOutOfRange | run the date rounds only for a quoted `"${DATE` | not executed | FileChecking.UnquotedDateThrows | FileChecking.PreparedClean |
| TouchstoneCL/ts.py:178-190 | a validator that is present but falsy passes neither check, so `getUploadTarget` returns `None` | folder `a` with properties giving access `Nictiz` and validator `""` | report the missing validator | not executed | KnownTargets.EmptyValidatorFallsThrough | KnownTargets.CheckedUploadTargetFor |
