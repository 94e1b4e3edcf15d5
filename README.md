# AI Launcher core, modelled in Dafny

This project models the core of an Android launcher that can be extended by
plug-ins. It covers four parts:

- **The extension subsystem.** The `LauncherExtension` contract with its
  default hooks, and the `ExtensionLoader` factory registry with its three
  built-in extensions (calculator, weather, quick notes). Also the
  `ExtensionManager`, which installs, uninstalls, enables, disables and
  bulk-loads extensions. It fans launcher events out to the enabled
  extensions and gathers their AI answers, widgets, search providers and
  themes.
- **The home-screen layout.** The `HomeScreenLayout` data model, and the
  `LauncherRepository` edits. Each edit reads the single stored layout,
  transforms its items or its dock, and writes it back through the
  `HomeScreenDao`.
- **App search.** `AppInfo.calculateSearchScore`, a sum of fixed weights for
  the ways a query can match an app.
- **The app drawer's search state.** `AppDrawerViewModel` filters and ranks
  the installed apps for the typed query.

An extension is a value. Each hook is recorded by what calling it gives:
`Ok(result)` or `Throws`. Every hook defaults to what the Kotlin interface
does.

The parts of the source that change state are modelled as classes:

- `ExtensionManager`, with its `loaded` map, its `enabled` ids and a ghost
  trace of hook calls.
- `ExtensionLoader` and its registry.
- `NotesExtension` and its notes.
- `HomeScreenDao` with its rows, and `LauncherRepository`.
- `AppDrawerViewModel`.

Each method is proved to perform a pure step function, for example
`Enabling`, `Installing`, `Apply` or `Ranked`. The properties are proved
about those functions.

Kotlin's `Set` keeps insertion order, so the enabled set is a `seq` without
duplicates. `sortedByDescending` is stable, so it is a stable insertion sort
(module `Sorting`) proved sorted, a permutation and stable.

The manager's collectors `ExtensionManager.ExtensionWidgets`,
`SearchProviders` and `ExtensionThemes` are `Collect` over the enabled
extensions. So are the answers of `QueryExtensions`. Each collector states
what it gathers in terms of the enabled ids (through `CollectOverEnabled`),
and `Collect`, `ThrowingHookIsIsolated` and
`InertExtensionsContributeNothing` state how the collecting treats a hook
that throws or keeps its default.

The code and its documentation disagree in one place, and the model follows
the code. The calculator's doc comment (ExtensionLoader.kt:91) promises
answers to queries like "calculate 2+2", but as written the calculator
answers nothing (see Findings). Multi-term expressions are not rejected
either: for "1+2+3" the pattern extracts the first `number operator number`
match, "1+2", so even the corrected evaluation would answer 3.

## Model

| member | source | states |
|---|---|---|
| Wrappers.Values | app/src/main/java/com/launcher/extensions/ExtensionManager.kt:239-246 | `mapNotNull` over guarded hook calls keeps every non-null result of a hook that did not throw, invents nothing, and is no longer than its input |
| Wrappers.ValuesOfSilent | app/src/main/java/com/launcher/extensions/ExtensionManager.kt:239-246 | when every hook returns null, nothing is collected |
| Wrappers.ValuesConcat | app/src/main/java/com/launcher/extensions/ExtensionManager.kt:239-246 | collecting works piecewise over consecutive extensions, so order is kept |
| Wrappers.ValuesSkipThrows | app/src/main/java/com/launcher/extensions/ExtensionManager.kt:242-245 | a hook that throws contributes nothing and does not disturb the others |
| Text.Lower | app/src/main/java/com/launcher/data/models/AppInfo.kt:20-22 | lower-casing keeps the length and folds each character on its own |
| Text.LowerIdempotent | app/src/main/java/com/launcher/data/models/AppInfo.kt:20-22 | lower-casing twice is lower-casing once |
| Text.ContainsIffOccurs | app/src/main/java/com/launcher/data/models/AppInfo.kt:37-39 | `contains` holds exactly when the needle occurs at some offset |
| Text.ContainsSelf | app/src/main/java/com/launcher/data/models/AppInfo.kt:27-39 | every string contains itself |
| Text.PrefixIsContained | app/src/main/java/com/launcher/data/models/AppInfo.kt:32-39 | a prefix is contained |
| Text.TrimStart | app/src/main/java/com/launcher/extensions/ExtensionLoader.kt:218 | the result is a suffix that does not start with whitespace, and only whitespace was dropped |
| Text.TrimEnd | app/src/main/java/com/launcher/extensions/ExtensionLoader.kt:218 | the result is a prefix that does not end with whitespace, and only whitespace was dropped |
| Text.Trim | app/src/main/java/com/launcher/extensions/ExtensionLoader.kt:139-141 | `trim()` gives a substring with no whitespace at either end |
| Text.TrimIsSurrounded | app/src/main/java/com/launcher/extensions/ExtensionLoader.kt:218 | the trimmed text occurs in the original with only whitespace before it and only whitespace after it |
| Text.IndexOf | app/src/main/java/com/launcher/extensions/ExtensionLoader.kt:218 | the first occurrence of the character, or none when it is absent |
| Text.LastIndexOf | app/src/main/java/com/launcher/extensions/ExtensionLoader.kt:32 | the last occurrence of the character, or none when it is absent |
| Text.Split | app/src/main/java/com/launcher/data/models/AppInfo.kt:42 | splitting always gives at least one piece |
| Text.SplitWithoutSeparator | app/src/main/java/com/launcher/data/models/AppInfo.kt:42-44 | text without a separator splits into itself |
| Text.SplitAtOneSeparator | app/src/main/java/com/launcher/extensions/ExtensionLoader.kt:136 | text with exactly one separator splits into the two sides, the separator dropped |
| Text.SplitPiecesHaveNoSeparator | app/src/main/java/com/launcher/data/models/AppInfo.kt:42 | no piece of a split holds a separator |
| Text.SplitAtSeparator | app/src/main/java/com/launcher/data/models/AppInfo.kt:42 | splitting at a separator splits the text on either side of it independently, the pieces of the left side first |
| Text.JoinSplit | app/src/main/java/com/launcher/data/models/AppInfo.kt:42 | joining the pieces of a split on one separator character with that character gives back the text |
| Text.JoinSnoc | app/src/main/java/com/launcher/extensions/ExtensionLoader.kt:232 | joining one more line appends the separator and that line |
| Sorting.SortedBySort | app/src/main/java/com/launcher/extensions/ExtensionManager.kt:230 | `sortedByDescending` gives non-increasing keys |
| Sorting.SortIsPermutation | app/src/main/java/com/launcher/extensions/ExtensionManager.kt:230 | sorting is a permutation of its input |
| Sorting.SortIsStable | app/src/main/java/com/launcher/ui/viewmodels/AppDrawerViewModel.kt:61 | sorting keeps the input order among equal keys |
| HomeLayout.NoValidPositionInEmptyGrid | app/src/main/java/com/launcher/data/models/HomeScreenLayout.kt:44-46 | no position is valid in a grid with no rows or no columns |
| HomeLayout.ValidityIsMonotone | app/src/main/java/com/launcher/data/models/HomeScreenLayout.kt:44-46 | a position valid in a grid stays valid in any larger grid |
| HomeLayout.DefaultGridCells | app/src/main/java/com/launcher/data/models/HomeScreenLayout.kt:10-16 | the default 5 x 4 layout has exactly rows 0-4 and columns 0-3 as valid cells |
| ExtensionContract.DefaultsAreInert | app/src/main/java/com/launcher/extensions/LauncherExtension.kt:28-110 | an extension that overrides nothing declares no permission, no hook throws or does anything, and it answers and contributes nothing |
| SampleExtensions.DigitsEnd | app/src/main/java/com/launcher/extensions/ExtensionLoader.kt:129 | a run of `\d` ends within the text and covers only digits |
| SampleExtensions.SpacesEnd | app/src/main/java/com/launcher/extensions/ExtensionLoader.kt:129 | a run of `\s` ends within the text and covers only regex white space |
| SampleExtensions.NumberEnd | app/src/main/java/com/launcher/extensions/ExtensionLoader.kt:129 | a `\d+\.?\d*` match is non-empty and covers only digits and dots |
| SampleExtensions.MatchAt | app/src/main/java/com/launcher/extensions/ExtensionLoader.kt:129 | a match of the calculator pattern holds exactly one operator character |
| SampleExtensions.FindMatch | app/src/main/java/com/launcher/extensions/ExtensionLoader.kt:129-130 | `Regex.find` returns a match at or after the start offset that holds exactly one operator |
| SampleExtensions.FindMatchSkipsNonDigits | app/src/main/java/com/launcher/extensions/ExtensionLoader.kt:129-130 | no match starts on a non-digit, so the leftmost search passes over such text |
| SampleExtensions.EvaluateRejectsEveryMatch | app/src/main/java/com/launcher/extensions/ExtensionLoader.kt:134-153 | every extracted expression splits into two parts, so `evaluateExpression` as written rejects it |
| SampleExtensions.CalculatorReply | app/src/main/java/com/launcher/extensions/ExtensionLoader.kt:100-125 | as written, the calculator answers no query at all, with or without a trigger word |
| SampleExtensions.CalculatorDocumentedExample | app/src/main/java/com/launcher/extensions/ExtensionLoader.kt:100-137 | "calculate 2+2" yields the expression "2+2" and still gets no answer |
| SampleExtensions.FirstOperatorAt | app/src/main/java/com/launcher/extensions/ExtensionLoader.kt:140 | `find { it in "+-*/" }` returns the operator at the first position that holds one |
| SampleExtensions.EvaluateIntendedAt | app/src/main/java/com/launcher/extensions/ExtensionLoader.kt:134-153 | with two parts expected, an expression with one operator is evaluated from the text on either side of it |
| SampleExtensions.MatchedSpan | app/src/main/java/com/launcher/extensions/ExtensionLoader.kt:127-132 | the extracted text holds its one operator at the match's offset |
| SampleExtensions.IntendedDivisionByZero | app/src/main/java/com/launcher/extensions/ExtensionLoader.kt:147 | division by an operand that reads as zero gives no result rather than an error |
| SampleExtensions.CalculateTriggers | app/src/main/java/com/launcher/extensions/ExtensionLoader.kt:101-113 | a query starting with "calculate" passes the trigger check |
| SampleExtensions.OperandTwo | app/src/main/java/com/launcher/extensions/ExtensionLoader.kt:139 | the operand "2" reads as the number 2 |
| SampleExtensions.TwoPlusTwoIsFour | app/src/main/java/com/launcher/extensions/ExtensionLoader.kt:134-153 | with two parts expected, "2+2" evaluates to 4 |
| SampleExtensions.IntendedCalculatorAddsTwoAndTwo | app/src/main/java/com/launcher/extensions/ExtensionLoader.kt:100-153 | with the intended evaluation, "calculate 2+2" is answered with 4 |
| SampleExtensions.WeatherReply | app/src/main/java/com/launcher/extensions/ExtensionLoader.kt:167-183 | weather answers exactly the queries that mention "weather" or "temperature" in any case, at priority 8 with one `OpenSettings("weather_settings")` action |
| SampleExtensions.WeatherIgnoresCase | app/src/main/java/com/launcher/extensions/ExtensionLoader.kt:168-170 | a query and its lower-cased form get the same weather answer |
| SampleExtensions.NotesReply | app/src/main/java/com/launcher/extensions/ExtensionLoader.kt:213-242 | every notes answer is at priority 9, and the notes afterwards are the old notes, kept or with one note appended |
| SampleExtensions.NotesReplyCases | app/src/main/java/com/launcher/extensions/ExtensionLoader.kt:213-242 | notes answers exactly the save and listing queries; saving is checked first and appends the trimmed text after the first ':'; a listing or any other query keeps the notes; an empty listing says "No notes saved yet." |
| SampleExtensions.NotesOnlyGrowBySaving | app/src/main/java/com/launcher/extensions/ExtensionLoader.kt:213-242 | notes are only appended, exactly one per save query |
| SampleExtensions.ListingEndsWithNewest | app/src/main/java/com/launcher/extensions/ExtensionLoader.kt:229-233 | the listing ends with the bullet line of the newest note |
| SampleExtensions.SavedNoteIsListed | app/src/main/java/com/launcher/extensions/ExtensionLoader.kt:213-239 | a saved note comes back, last, on the next listing |
| SampleExtensions.SaveReply | app/src/main/java/com/launcher/extensions/ExtensionLoader.kt:217-224 | a save query appends the trimmed text after its first ':' to the notes |
| SampleExtensions.ListReply | app/src/main/java/com/launcher/extensions/ExtensionLoader.kt:228-239 | a listing query that does not save answers "Your notes:" and the listing, at priority 9 |
| SampleExtensions.NotesExtension.constructor | app/src/main/java/com/launcher/extensions/ExtensionLoader.kt:204-211 | a new notes extension holds no notes |
| SampleExtensions.NotesExtension.OnAIQuery | app/src/main/java/com/launcher/extensions/ExtensionLoader.kt:213-242 | the answer and the new notes are those of `NotesReply` on the old notes |
| ExtensionLoading.InstalledFileNameRoundTrip | app/src/main/java/com/launcher/extensions/ExtensionLoader.kt:32 | the file name `<id>.kts` gives back `id` without its extension, and its extension is "kts" |
| ExtensionLoading.LoadFrom | app/src/main/java/com/launcher/extensions/ExtensionLoader.kt:29-46 | a file loads exactly when a factory is registered under its name without extension and does not throw, and then it loads what that factory creates |
| ExtensionLoading.InstalledFileLoads | app/src/main/java/com/launcher/extensions/ExtensionLoader.kt:29-46 | the installed file of a registered id loads what that id's factory creates |
| ExtensionLoading.SampleRegistryKeys | app/src/main/java/com/launcher/extensions/ExtensionLoader.kt:64-79 | exactly the three built-in ids are registered, each to its own constructor |
| ExtensionLoading.CalculatorFactoryId | app/src/main/java/com/launcher/extensions/ExtensionLoader.kt:66-68 | the calculator factory does not throw, and its extension's id is its registry key |
| ExtensionLoading.WeatherFactoryId | app/src/main/java/com/launcher/extensions/ExtensionLoader.kt:71-73 | the weather factory does not throw, and its extension's id is its registry key |
| ExtensionLoading.NotesFactoryCreatesEmpty | app/src/main/java/com/launcher/extensions/ExtensionLoader.kt:76-78 | the notes factory does not throw and creates a notes extension that holds no notes |
| ExtensionLoading.NotesId | app/src/main/java/com/launcher/extensions/ExtensionLoader.kt:205 | whatever notes it holds, the notes extension's id is its registry key |
| ExtensionLoading.ExtensionLoader.constructor | app/src/main/java/com/launcher/extensions/ExtensionLoader.kt:12-18 | a new loader holds exactly the built-in factories |
| ExtensionLoading.ExtensionLoader.RegisterExtension | app/src/main/java/com/launcher/extensions/ExtensionLoader.kt:56-59 | registering puts the factory under the id, replacing any earlier one; the other ids keep theirs |
| ExtensionManagement.Remove | app/src/main/java/com/launcher/extensions/ExtensionManager.kt:139 | `Set - id` keeps exactly the other ids |
| ExtensionManagement.RemoveKeepsDistinct | app/src/main/java/com/launcher/extensions/ExtensionManager.kt:139 | removing an id keeps the enabled ids free of duplicates |
| ExtensionManagement.RemoveLastAdded | app/src/main/java/com/launcher/extensions/ExtensionManager.kt:123-139 | removing the id just added gives back the enabled ids |
| ExtensionManagement.Enabling | app/src/main/java/com/launcher/extensions/ExtensionManager.kt:116-127 | enabling keeps the loaded map; afterwards the id is enabled exactly when it was enabled or is loaded; other ids are untouched; the only hook called is the id's `onEnable` |
| ExtensionManagement.EnablingSpec | app/src/main/java/com/launcher/extensions/ExtensionManager.kt:116-127 | in a valid state enabling keeps the loaded map and the invariant; afterwards the id is enabled exactly when it is loaded; other ids are untouched; `onEnable` runs once exactly when the id is loaded and not yet enabled, and then the id is appended to the enabled ids and the result is the hook's outcome; otherwise nothing changes and the result is success |
| ExtensionManagement.Disabling | app/src/main/java/com/launcher/extensions/ExtensionManager.kt:132-143 | disabling keeps the loaded map; afterwards the id is enabled exactly when it was enabled and is not loaded; other ids are untouched; the only hook called is the id's `onDisable` |
| ExtensionManagement.DisablingSpec | app/src/main/java/com/launcher/extensions/ExtensionManager.kt:132-143 | in a valid state disabling keeps the loaded map and the invariant; afterwards the id is not enabled; other ids are untouched; `onDisable` runs once exactly when the id is loaded and enabled, and then the id is removed from the enabled ids and the result is the hook's outcome; otherwise nothing changes and the result is success |
| ExtensionManagement.EnablingIsIdempotent | app/src/main/java/com/launcher/extensions/ExtensionManager.kt:116-127 | a second enable changes nothing and calls no hook |
| ExtensionManagement.DisablingIsIdempotent | app/src/main/java/com/launcher/extensions/ExtensionManager.kt:132-143 | a second disable changes nothing and calls no hook |
| ExtensionManagement.DisablingUndoesEnabling | app/src/main/java/com/launcher/extensions/ExtensionManager.kt:116-143 | disabling an extension that was just enabled restores the state |
| ExtensionManagement.Installing | app/src/main/java/com/launcher/extensions/ExtensionManager.kt:42-75 | installing keeps the enabled ids and never drops a loaded id; a success reports an id that was not loaded before and is loaded afterwards |
| ExtensionManagement.InstallingSpec | app/src/main/java/com/launcher/extensions/ExtensionManager.kt:42-75 | a file that does not load fails with `LoadFailed`, a blank id with `BlankId`, an id already loaded with `AlreadyInstalled`, a copy that throws with `CopyFailed`, each with the state unchanged and no hook called; otherwise the extension is filed under its id, `onInstall` is called once, and the result is success when the hook does not throw and `HookThrew` when it does; install succeeds exactly in that last case with a hook that does not throw; the invariant is kept |
| ExtensionManagement.InstalledFileReloads | app/src/main/java/com/launcher/extensions/ExtensionManager.kt:59-63 | when factories create extensions with their own ids, the file an install writes loads the installed extension again |
| ExtensionManagement.Uninstalling | app/src/main/java/com/launcher/extensions/ExtensionManager.kt:82-109 | uninstalling never adds a loaded id; a loaded id ends up disabled; uninstall succeeds exactly when the id was loaded and is loaded no longer |
| ExtensionManagement.UninstallingSpec | app/src/main/java/com/launcher/extensions/ExtensionManager.kt:82-109 | an unknown id fails with `NotFound` and no change; otherwise the id ends up disabled, other ids keep their state, `onDisable` is called if the id was enabled and `onUninstall` after it unless `onDisable` threw; a throwing hook gives `HookThrew` for that hook; success holds exactly when neither hook throws, and then exactly that id is removed; a failure keeps the loaded map; the invariant is kept |
| ExtensionManagement.UninstallingUndoesInstalling | app/src/main/java/com/launcher/extensions/ExtensionManager.kt:42-109 | installing and then uninstalling with hooks that do not throw restores the state |
| ExtensionManagement.KtsFiles | app/src/main/java/com/launcher/extensions/ExtensionManager.kt:288-290 | exactly the listed plain files whose extension is "kts" are considered |
| ExtensionManagement.LoadAll | app/src/main/java/com/launcher/extensions/ExtensionManager.kt:292-302 | bulk loading never drops an id already loaded |
| ExtensionManagement.LoadAllSpec | app/src/main/java/com/launcher/extensions/ExtensionManager.kt:292-302 | bulk loading never drops an id, files each loaded extension under its own id, files every extension that loads, and adds no id that no file gave |
| ExtensionManagement.LoadAllOverwrites | app/src/main/java/com/launcher/extensions/ExtensionManager.kt:294-296 | a file that loads replaces whatever was filed under its extension's id |
| ExtensionManagement.LiveExtensions | app/src/main/java/com/launcher/extensions/ExtensionManager.kt:307-311 | when every enabled id is loaded, the enabled extensions are the loaded ones, position by position, in enabling order |
| ExtensionManagement.EnabledIffReached | app/src/main/java/com/launcher/extensions/ExtensionManager.kt:148-150 | in a valid state an id is enabled exactly when its loaded extension is among the enabled extensions |
| ExtensionManagement.CollectOverEnabled | app/src/main/java/com/launcher/extensions/ExtensionManager.kt:238-275 | in a valid state a collector gathers at most one contribution per enabled id: the contribution of every enabled extension whose hook gives one, and nothing else |
| ExtensionManagement.CallsOf | app/src/main/java/com/launcher/extensions/ExtensionManager.kt:157-204 | a fan-out makes one call per extension, in order |
| ExtensionManagement.FanOutCallsEachEnabledOnce | app/src/main/java/com/launcher/extensions/ExtensionManager.kt:157-204 | in a valid state a fan-out calls the hook exactly once per enabled id, in enabling order, never twice |
| ExtensionManagement.FailedOn | app/src/main/java/com/launcher/extensions/ExtensionManager.kt:158-164 | the logged failures are exactly the extensions whose handler threw |
| ExtensionManagement.Collect | app/src/main/java/com/launcher/extensions/ExtensionManager.kt:238-275 | the collectors keep every non-null result of a hook that did not throw, and nothing else |
| ExtensionManagement.ThrowingHookIsIsolated | app/src/main/java/com/launcher/extensions/ExtensionManager.kt:238-247 | an extension whose hook throws contributes nothing, and the others contribute as if it were absent |
| ExtensionManagement.InertExtensionsContributeNothing | app/src/main/java/com/launcher/extensions/ExtensionManager.kt:252-261 | extensions keeping a provider's default contribute nothing through it |
| ExtensionManagement.QueryResponses | app/src/main/java/com/launcher/extensions/ExtensionManager.kt:215-231 | the answers come highest priority first and are a permutation of the collected answers |
| ExtensionManagement.QueryResponsesSpec | app/src/main/java/com/launcher/extensions/ExtensionManager.kt:215-231 | the answers come highest priority first; they are exactly the collected answers; equal priorities keep the extensions' order; there are no more answers than extensions |
| ExtensionManagement.ExtensionManager.constructor | app/src/main/java/com/launcher/extensions/ExtensionManager.kt:20-32 | a new manager has nothing loaded or enabled and a loader with the built-in factories |
| ExtensionManagement.ExtensionManager.Install | app/src/main/java/com/launcher/extensions/ExtensionManager.kt:42-75 | the result, the new state and the hook calls are those of `Installing`; the invariant is kept |
| ExtensionManagement.ExtensionManager.Uninstall | app/src/main/java/com/launcher/extensions/ExtensionManager.kt:82-109 | the result, the new state and the hook calls are those of `Uninstalling`; the invariant is kept |
| ExtensionManagement.ExtensionManager.Enable | app/src/main/java/com/launcher/extensions/ExtensionManager.kt:116-127 | the outcome, the new state and the hook calls are those of `Enabling`; the invariant is kept |
| ExtensionManagement.ExtensionManager.Disable | app/src/main/java/com/launcher/extensions/ExtensionManager.kt:132-143 | the outcome, the new state and the hook calls are those of `Disabling`; the invariant is kept |
| ExtensionManagement.ExtensionManager.IsEnabled | app/src/main/java/com/launcher/extensions/ExtensionManager.kt:148-150 | in a valid state `isEnabled` holds exactly when the id is loaded and its extension is among the enabled extensions |
| ExtensionManagement.ExtensionManager.DispatchEvent | app/src/main/java/com/launcher/extensions/ExtensionManager.kt:157-204 | each enabled extension's handler is called once, in order; failures are returned and do not stop the rest; the loaded and enabled collections are unchanged |
| ExtensionManagement.ExtensionManager.QueryExtensions | app/src/main/java/com/launcher/extensions/ExtensionManager.kt:215-231 | each enabled extension is asked once; the answers are `QueryResponses` of the enabled extensions; the collections are unchanged |
| ExtensionManagement.ExtensionManager.EnabledExtensions | app/src/main/java/com/launcher/extensions/ExtensionManager.kt:307-311 | no more extensions than enabled ids; in a valid state the extension of each enabled id, in enabling order, each with that id |
| ExtensionManagement.ExtensionManager.ExtensionWidgets | app/src/main/java/com/launcher/extensions/ExtensionManager.kt:238-247 | at most one widget per enabled id; in a valid state the widget of every enabled extension that provides one without throwing, and no other |
| ExtensionManagement.ExtensionManager.SearchProviders | app/src/main/java/com/launcher/extensions/ExtensionManager.kt:252-261 | at most one provider per enabled id; in a valid state the provider of every enabled extension that provides one without throwing, and no other |
| ExtensionManagement.ExtensionManager.ExtensionThemes | app/src/main/java/com/launcher/extensions/ExtensionManager.kt:266-275 | at most one theme per enabled id; in a valid state the theme of every enabled extension that provides one without throwing, and no other |
| ExtensionManagement.ExtensionManager.LoadInstalledExtensions | app/src/main/java/com/launcher/extensions/ExtensionManager.kt:282-303 | a missing listing changes nothing; otherwise the loaded map is `LoadAll` over the ".kts" files; the enabled set and the invariant are kept |
| LayoutRepository.FilterNot | app/src/main/java/com/launcher/data/LauncherRepository.kt:36-38 | `filterNot` keeps exactly the items not rejected |
| LayoutRepository.FilterNotConcat | app/src/main/java/com/launcher/data/LauncherRepository.kt:36-38 | filtering works piecewise, so kept items keep their order |
| LayoutRepository.FilterNotKeepsAll | app/src/main/java/com/launcher/data/LauncherRepository.kt:53-55 | filtering that rejects nothing keeps the list |
| LayoutRepository.AddShortcut | app/src/main/java/com/launcher/data/LauncherRepository.kt:27-32 | one shortcut is appended at the end and the earlier items are kept in order, with no duplicate check |
| LayoutRepository.RemoveShortcutsSpec | app/src/main/java/com/launcher/data/LauncherRepository.kt:34-40 | no shortcut of the package is left; every other item, folders and widgets included, is kept; nothing is added |
| LayoutRepository.RemoveUndoesAdd | app/src/main/java/com/launcher/data/LauncherRepository.kt:27-40 | removing a package's shortcuts undoes adding one |
| LayoutRepository.RemoveShortcutsIsIdempotent | app/src/main/java/com/launcher/data/LauncherRepository.kt:34-40 | removing twice is removing once |
| LayoutRepository.CreateFolderSpec | app/src/main/java/com/launcher/data/LauncherRepository.kt:42-58 | the new folder is the last item; before it are exactly the old items that are not shortcuts of its packages; no shortcut of its packages is left |
| LayoutRepository.AddAppToFolderItems | app/src/main/java/com/launcher/data/LauncherRepository.kt:60-70 | each item is mapped on its own and the item count is kept |
| LayoutRepository.AddAppToFolderSpec | app/src/main/java/com/launcher/data/LauncherRepository.kt:60-70 | the count and every position are kept; each folder with the id gets the package appended, name kept; other items are unchanged |
| LayoutRepository.RemoveFirst | app/src/main/java/com/launcher/data/LauncherRepository.kt:76 | `List - element` removes one occurrence, if any, and nothing else |
| LayoutRepository.RemoveFirstIsFirstOccurrence | app/src/main/java/com/launcher/data/LauncherRepository.kt:76 | it is the first occurrence that goes: the element is absent before that position, and everything before and after it stays in order |
| LayoutRepository.RemoveFirstAt | app/src/main/java/com/launcher/data/LauncherRepository.kt:76 | removing an element whose first occurrence is at a given position cuts out exactly that position |
| LayoutRepository.RemoveFirstOfAppended | app/src/main/java/com/launcher/data/LauncherRepository.kt:64-76 | removing an element that was just appended, when it was not there before, gives back the list |
| LayoutRepository.WithAppRemoved | app/src/main/java/com/launcher/data/LauncherRepository.kt:72-85 | a folder with the id loses one occurrence of the package, keeping its id, name and position, and is dropped exactly when fewer than two apps remain; any other item is kept as it is |
| LayoutRepository.RemoveAppFromFolderItems | app/src/main/java/com/launcher/data/LauncherRepository.kt:72-85 | items other than that folder are kept; a surviving folder with the id keeps at least two apps; every item afterwards is what `WithAppRemoved` makes of some item before |
| LayoutRepository.RemoveAppFromFolderConcat | app/src/main/java/com/launcher/data/LauncherRepository.kt:72-85 | the removal works item by item: on a list split in two it is the removal on each part, in order |
| LayoutRepository.WithAppRemovedUndoesAdded | app/src/main/java/com/launcher/data/LauncherRepository.kt:60-85 | on one item, removing the package just added to a folder gives back the item |
| LayoutRepository.RemoveFromFolderUndoesAdd | app/src/main/java/com/launcher/data/LauncherRepository.kt:60-85 | adding a package to a folder and removing it gives back the items, when the folder lacked it and had at least two apps |
| LayoutRepository.RenameFolderItems | app/src/main/java/com/launcher/data/LauncherRepository.kt:87-97 | each item is mapped on its own and the item count is kept |
| LayoutRepository.RenameFolderSpec | app/src/main/java/com/launcher/data/LauncherRepository.kt:87-97 | only the names of folders with the id change; the count, positions and app lists are kept |
| LayoutRepository.RenameTwice | app/src/main/java/com/launcher/data/LauncherRepository.kt:87-97 | renaming twice is renaming once, to the second name |
| LayoutRepository.DockOf | app/src/main/java/com/launcher/data/LauncherRepository.kt:99-102 | the dock holds the first min(5, n) packages of the input |
| LayoutRepository.DockOfFits | app/src/main/java/com/launcher/data/LauncherRepository.kt:99-102 | a dock that fits is stored as given, and trimming twice trims once |
| LayoutRepository.DefaultLayout | app/src/main/java/com/launcher/data/LauncherRepository.kt:104-110 | the default layout is row 1, 5 x 4, with no items and an empty dock |
| LayoutRepository.EditedKeepsTheRest | app/src/main/java/com/launcher/data/LauncherRepository.kt:27-102 | an edit keeps the id and grid size, and changes either the items or the dock, never both |
| LayoutRepository.UpdateRow | app/src/main/java/com/launcher/data/HomeScreenDao.kt:18-19 | `@Update` overwrites the row with the layout's id when it exists, and otherwise writes nothing |
| LayoutRepository.StoredEditIsVisible | app/src/main/java/com/launcher/data/LauncherRepository.kt:27-102 | with a layout stored, the next read sees the edited layout |
| LayoutRepository.EditOnEmptyStoreIsLost | app/src/main/java/com/launcher/data/LauncherRepository.kt:27-32 | as written, with no layout stored every edit leaves the table as it was, so reads still show the default |
| LayoutRepository.AddedAppOnFreshStoreIsMissing | app/src/main/java/com/launcher/data/LauncherRepository.kt:27-32 | the shortcut added to a fresh store is not on the home screen afterwards |
| LayoutRepository.UpsertedEditIsVisible | app/src/main/java/com/launcher/data/HomeScreenDao.kt:15-16 | written with the upsert, every edit that applies is visible to the next read |
| LayoutRepository.UpsertingAgreesWhenStored | app/src/main/java/com/launcher/data/HomeScreenDao.kt:15-19 | once a layout is stored, the written and the upserting edits agree |
| LayoutRepository.HomeScreenDao.constructor | app/src/main/java/com/launcher/data/HomeScreenDao.kt:8-13 | a new table holds no rows |
| LayoutRepository.HomeScreenDao.InsertLayout | app/src/main/java/com/launcher/data/HomeScreenDao.kt:15-16 | `insertLayout` writes the row, replacing any |
| LayoutRepository.HomeScreenDao.UpdateLayout | app/src/main/java/com/launcher/data/HomeScreenDao.kt:18-19 | `updateLayout` writes only an existing row |
| LayoutRepository.HomeScreenDao.DeleteAll | app/src/main/java/com/launcher/data/HomeScreenDao.kt:21-22 | `deleteAll` empties the table |
| LayoutRepository.LauncherRepository.constructor | app/src/main/java/com/launcher/data/LauncherRepository.kt:11-13 | a new repository starts with an empty table |
| LayoutRepository.LauncherRepository.UpdateLayout | app/src/main/java/com/launcher/data/LauncherRepository.kt:19-21 | passes the layout to `@Update` |
| LayoutRepository.LauncherRepository.InsertLayout | app/src/main/java/com/launcher/data/LauncherRepository.kt:23-25 | passes the layout to the upsert |
| LayoutRepository.LauncherRepository.AddAppToHomeScreen | app/src/main/java/com/launcher/data/LauncherRepository.kt:27-32 | the table afterwards is `Apply` of the add edit, which starts from the default when nothing is stored |
| LayoutRepository.LauncherRepository.RemoveAppFromHomeScreen | app/src/main/java/com/launcher/data/LauncherRepository.kt:34-40 | the table afterwards is `Apply` of the remove edit, which gives up when nothing is stored |
| LayoutRepository.LauncherRepository.CreateFolder | app/src/main/java/com/launcher/data/LauncherRepository.kt:42-58 | the table afterwards is `Apply` of the create-folder edit, which starts from the default when nothing is stored |
| LayoutRepository.LauncherRepository.AddAppToFolder | app/src/main/java/com/launcher/data/LauncherRepository.kt:60-70 | the table afterwards is `Apply` of the add-to-folder edit, which gives up when nothing is stored |
| LayoutRepository.LauncherRepository.RemoveAppFromFolder | app/src/main/java/com/launcher/data/LauncherRepository.kt:72-85 | the table afterwards is `Apply` of the remove-from-folder edit, which gives up when nothing is stored |
| LayoutRepository.LauncherRepository.RenameFolder | app/src/main/java/com/launcher/data/LauncherRepository.kt:87-97 | the table afterwards is `Apply` of the rename edit, which gives up when nothing is stored |
| LayoutRepository.LauncherRepository.UpdateDockApps | app/src/main/java/com/launcher/data/LauncherRepository.kt:99-102 | the table afterwards is `Apply` of the dock edit, which starts from the default when nothing is stored |
| AppSearch.Initials | app/src/main/java/com/launcher/data/models/AppInfo.kt:42-44 | at most one letter per word, each the lower-cased first letter of some word |
| AppSearch.InitialsConcat | app/src/main/java/com/launcher/data/models/AppInfo.kt:42-44 | the initials of two word lists are the initials of each, in turn |
| AppSearch.Acronym | app/src/main/java/com/launcher/data/models/AppInfo.kt:42-44 | no letter of an acronym is a space or upper case |
| AppSearch.AcronymOfJoined | app/src/main/java/com/launcher/data/models/AppInfo.kt:42-44 | the acronym of two names joined by a space is the acronym of the first followed by that of the second |
| AppSearch.OneWordAcronym | app/src/main/java/com/launcher/data/models/AppInfo.kt:42-44 | a one-word name has its lower-cased first letter as acronym |
| AppSearch.TwoWordAcronym | app/src/main/java/com/launcher/data/models/AppInfo.kt:42-44 | a two-word name has the lower-cased first letters of both words as acronym |
| AppSearch.CalculateSearchScore | app/src/main/java/com/launcher/data/models/AppInfo.kt:17-61 | the score accumulated step by step is the sum of the earned weights, `SearchScore` |
| AppSearch.SearchScore | app/src/main/java/com/launcher/data/models/AppInfo.kt:17-61 | a blank query scores 0, and every score lies between 0 and the sum of all weights, 200 |
| AppSearch.ScoreIsMultipleOfFive | app/src/main/java/com/launcher/data/models/AppInfo.kt:24-60 | every score is a multiple of 5 |
| AppSearch.ExactMatchScore | app/src/main/java/com/launcher/data/models/AppInfo.kt:27-39 | a case-insensitive exact name match scores at least 175 |
| AppSearch.PrefixMatchScore | app/src/main/java/com/launcher/data/models/AppInfo.kt:32-39 | a name-prefix match scores at least 75 |
| AppSearch.PositiveScoreIff | app/src/main/java/com/launcher/data/models/AppInfo.kt:17-61 | the score is positive exactly when the query is not blank and the name, acronym or package contains it, or the app was launched more than 10 times |
| AppDrawer.RelevantIffAtLeastFive | app/src/main/java/com/launcher/ui/viewmodels/AppDrawerViewModel.kt:60 | a score above 0.3 is a score of at least 5 |
| AppDrawer.Matching | app/src/main/java/com/launcher/ui/viewmodels/AppDrawerViewModel.kt:58-60 | the filter keeps exactly the relevant apps, each at most as often as in the input |
| AppDrawer.MatchingKeepsEachScore | app/src/main/java/com/launcher/ui/viewmodels/AppDrawerViewModel.kt:58-60 | for each score of at least 5, the filter keeps all apps of that score in order |
| AppDrawer.Ranked | app/src/main/java/com/launcher/ui/viewmodels/AppDrawerViewModel.kt:53-66 | the shown list never holds an app more often than it is installed |
| AppDrawer.RankedSpec | app/src/main/java/com/launcher/ui/viewmodels/AppDrawerViewModel.kt:53-66 | for a non-blank query the list holds exactly the apps scoring at least 5, with no app invented or duplicated, in non-increasing score, equal scores in their original order |
| AppDrawer.BlankQueryShowsAll | app/src/main/java/com/launcher/ui/viewmodels/AppDrawerViewModel.kt:55-56 | a blank query shows every app in the original order |
| AppDrawer.AppDrawerViewModel.constructor | app/src/main/java/com/launcher/ui/viewmodels/AppDrawerViewModel.kt:20-27 | a new view model has no apps, an empty query and an empty list |
| AppDrawer.AppDrawerViewModel.UpdateSearchQuery | app/src/main/java/com/launcher/ui/viewmodels/AppDrawerViewModel.kt:48-51 | the query is stored verbatim and the list is `Ranked` for it |
| AppDrawer.AppDrawerViewModel.FilterApps | app/src/main/java/com/launcher/ui/viewmodels/AppDrawerViewModel.kt:53-66 | the list becomes `Ranked` for the query; the apps and the stored query are kept |
| AppDrawer.AppDrawerViewModel.LoadInstalledApps | app/src/main/java/com/launcher/ui/viewmodels/AppDrawerViewModel.kt:68-74 | both the app list and the filtered list become the installed apps |

## Left out

- File I/O is not modelled. This covers copying an installed file and deleting it on uninstall, creating the extensions directory, and listing it. The copy's outcome and the directory listing are parameters of `Install` and `LoadInstalledExtensions`, and the deletion is not modelled.
- `Log` calls are not modelled; dispatch returns the ids of the failing extensions instead of logging them.
- `StateFlow` observability, `suspend`, coroutines and `Dispatchers` are not modelled; each operation runs to completion on its own, and `filterApps` and `loadInstalledApps` assign their result at once rather than from a launched coroutine.
- Kotlin `lowercase()` and `isBlank()` are modelled on ASCII letters and ASCII white space only; Unicode case folding is not modelled.
- The calculator's `Double` arithmetic is modelled on exact reals, and `toDoubleOrNull` only on plain decimal literals (no sign, exponent or special values). The text of an answer, which renders the `Double` ("4.0"), is not modelled; the corrected calculator is stated as the value it would answer (`IntendedCalculatorValue`).
- `AppInfo.icon` (a `Drawable`) is not modelled, and the Float score is an `int`, which is exact because every weight is a whole number.
- What a widget, search provider or theme renders or searches (`render()`, `search()`) is not modelled; the contributions are their descriptive fields.
- `ExtensionResponse.metadata` and `LauncherContext.metadata` are `Map<String, Any>` in the source and are modelled as maps of strings.
- The manager does not carry an extension's private state across calls. The notes extension's growing list is modelled by the `NotesExtension` class, and inside the manager by the value `NotesAt(notes)`, a snapshot that answers from the notes it holds.
- `createFolder` draws a random UUID for the folder; it is a parameter of `CreateFolder`.
- The installed-apps query against the package manager is not modelled; `LoadInstalledApps` takes its result as a parameter.
- The Room and Gson persistence (`LauncherDatabase`, the `Converters` type converters) is not modelled; the table is a map from id to layout.
- The event dispatchers `onLauncherStart`, `onAppLaunched`, `onAppDrawerOpened` and `onHomeScreenLongPress` are one method, `DispatchEvent`, over a `LauncherEvent` value.

## Findings

| source | as written | input that shows it | evidently intended | confidence | as-written member | corrected member |
|---|---|---|---|---|---|---|
| app/src/main/java/com/launcher/data/LauncherRepository.kt:27-32 | with no stored layout, `addAppToHomeScreen`, `createFolder` and `updateDockApps` start from the default layout, but write with `@Update` (HomeScreenDao.kt:18-19), which only overwrites an existing row, and nothing calls `insertLayout` | a fresh store, then `addAppToHomeScreen("com.example", GridPosition(0, 0))`: the home screen still shows no items | the first edit stores the edited default layout (an upsert), so it is visible to the next read | not executed | LayoutRepository.EditOnEmptyStoreIsLost | LayoutRepository.UpsertedEditIsVisible |
| app/src/main/java/com/launcher/extensions/ExtensionLoader.kt:136-137 | `split` drops the operator it splits on, so an extracted `a op b` splits into two parts, and the check for three parts rejects every expression: the calculator never answers | the query "calculate 2+2": the expression "2+2" is extracted, splits into ["2", "2"], and no answer is given | two parts are expected, operand on either side of the operator, so "calculate 2+2" is answered with 4 | not executed | SampleExtensions.CalculatorDocumentedExample | SampleExtensions.IntendedCalculatorAddsTwoAndTwo |
