# Test case dashboard: verified model of its text and collection logic

The test case dashboard shows which test cases are enabled for each device
model under test. It has two parts:

- **A React dashboard.** It reads each device's `.ini` configuration, rolls the
  sections the configuration declares up into one enabled/disabled status per
  test case, lets the user pick and compare models, and exports CSV files.
- **Two Express device servers.** `server/server.js` and its sibling
  `server/new_server.js` list the configuration directory, build the device
  index, parse the Pythia key/value file and find the configuration of one
  model.

This project models the deterministic logic inside both parts in Dafny and
proves what it promises. It has one module per concern:

| module | file | what it models |
|---|---|---|
| `Text` | `text.dfy` | The JavaScript string operations the code relies on: `trim` with JavaScript's whitespace set, `split`/`join`, `includes`, `indexOf`, `replace` of the first match, ASCII `toLowerCase`/`toUpperCase`, and the pieces of regex matching (`\s*`, and `.` stopping at a line terminator). |
| `ParseConfig` | `parse_config.dfy` | `parseIniContent`: the section set and the "disabled" list of a configuration text. It also holds a corrected scanner (see Findings). |
| `TestStatus` | `test_status.dfy` | `groupedSections`, which inverts the section→test mapping; `generateTestCasesFromConfig`, which has two passes and rolls sections up into statuses; and the status counters. |
| `ModelNames` | `model_names.dfy` | The `"<Name> (<code>)"` formatter, the two regexes that take such a name apart, and the shortened display forms. |
| `DashboardState` | `dashboard_state.dfy` | The dashboard's state fields as a class, with the sort, selection, comparison and view handlers. |
| `CsvExport` | `csv_export.dfy` | The text of the comparison CSV and the single-model CSV. |
| `Highlighter` | `highlighter.dfy` | The view mode of the INI syntax highlighter: grouping lines by section, and classifying each line as comment, header, key/value or plain. |
| `DeviceServer` | `device_server.dfy` | `server/server.js`: manufacturer rules, the device index, the Pythia parser and the `/api/device` lookup, with its model-code shortcut and its fallback search. |
| `NewDeviceServer` | `new_device_server.dfy` | `server/new_server.js`: the device list grouped by first word, and the lookup by verbatim name. |

**Modelling choices:**

- **Loops become methods.** Where the source is a loop (the INI scan, the passes of the
  status generator, the index builders, the Pythia parser, the highlighter's grouping,
  the CSV builders, the lookup), the model is a `method` with a `for` or `while` loop. Each
  method is proved equal to a specification function, and the properties are lemmas
  about those functions.
- **Regexes become string functions.** Each regex is written out as an explicit
  function, including its backtracking (greedy or lazy) and the rule that `.` does
  not match `\n`, `\r`, U+2028 or U+2029.
- **The configuration directory is a value.** It is a sequence of `DirEntry`
  (file name, and the content when the file can be read), in `readdirSync` order.
- **Mapping tables are parameters.** The two tables the dashboard imports
  (`testCaseMapping` and `iniSectionToTestMapping`) are passed in as sequences of
  pairs. The section→test mapping is an object, so its sections are distinct
  (`TestStatus.DistinctSections`).

**Where the description and the code disagree, the model follows the code.** The
description of the scanner says a `#[X]` header is recorded as present and as
disabled. The code never records it (see Findings). The description also mentions
section toggling, removal, appending and content extraction; no source file
implements them.

## Model

| member | source | states |
|---|---|---|
| Text.TrimPadded | src/utils/parseConfig.js:15 | Trimming removes exactly the surrounding whitespace (line terminators and `\r` included) and leaves a trimmed core unchanged |
| Text.JoinSplit | src/utils/parseConfig.js:8 | `split('\n')` loses nothing: joining the parts with `\n` gives the text back |
| Text.SplitJoin | server/server.js:124 | Splitting separator-free parts joined by the separator gives back exactly those parts |
| Text.SplitHead | server/new_server.js:36-38 | The first part of a split is a prefix of the text and is followed by the separator whenever it is shorter than the text |
| Text.AssignTail | server/server.js:84 | `\s*=\s*(.+)` at a position: an `=` surrounded by whitespace, then a value that runs to the end of the line |
| ParseConfig.HeaderName | src/utils/parseConfig.js:21-23 | A returned name is non-empty and is the shortest text between the leading `[` and the next `]`, with no line terminator inside |
| ParseConfig.HeaderNameExact | src/utils/parseConfig.js:21-23 | Conversely, every text of that form yields exactly that shortest name |
| ParseConfig.ScanLineExact | src/utils/parseConfig.js:15-23 | A line declares `n` if and only if its trimmed form begins with the lazy header `[n]` |
| ParseConfig.CommentLinesNeverDeclare | src/utils/parseConfig.js:18-23 | Blank lines, lines whose trimmed form starts with `;` or `#`, and raw lines starting with `#` declare no section |
| ParseConfig.PaddedHeaderRecognised | src/utils/parseConfig.js:15-21 | Leading and trailing whitespace, `\r` included, does not stop a header from being recognised |
| ParseConfig.TrailingTextIgnored | src/utils/parseConfig.js:21-23 | Text after the closing bracket is ignored: `[A] ; x` declares `A` |
| ParseConfig.SectionsOfMembers | src/utils/parseConfig.js:14-31 | A name is a key of `sections` if and only if some line declares it |
| ParseConfig.SectionNamesAreHeaders | src/utils/parseConfig.js:21-24 | Every key is non-empty and is the header name of some line |
| ParseConfig.SectionsDependOnLineSet | src/utils/parseConfig.js:14-31 | Two texts with the same set of lines, whatever their order or repetition, give the same key set |
| ParseConfig.ParseIniContent | src/utils/parseConfig.js:7-34 | The loop yields the sections declared by the split lines, and `disabledSections` is empty for every input |
| ParseConfig.CommentLinesNeverDeclareRaw | src/utils/parseConfig.js:18-29 | A raw line starting with `#` never declares a section, so the disabled branch is unreachable |
| ParseConfig.CommentedHeaderDropped | src/utils/parseConfig.js:18-29 | `#[n]` lands in neither output: the key set of that one-line text is empty |
| ParseConfig.CommentedHeaderIsDisabled | src/utils/parseConfig.js:26-29 | With the corrected scan, a line whose trimmed form is `#` followed by a header declares that header as disabled |
| ParseConfig.CommentedHeaderRecorded | src/utils/parseConfig.js:26-29 | With the corrected scan, `#[n]` is recorded as section `n` and as disabled |
| ParseConfig.ParseIniContentIntended | src/utils/parseConfig.js:7-34 | The corrected loop yields the declared sections and the commented-out ones, and every disabled name is also a section |
| ParseConfig.FlaggedNamesAreSections | src/utils/parseConfig.js:22-28 | Loop invariant: every name pushed to `disabledSections` is also a key of `sections` |
| TestStatus.Lookup | src/components/TestCaseMonitoringDashboard.js:193 | `iniSectionToTestMapping[section]` returns the test the section is mapped to, and nothing when the section is unmapped |
| TestStatus.SectionsForMembers | src/components/TestCaseMonitoringDashboard.js:175-184 | A section is in a test's grouped list if and only if it is mapped to that test |
| TestStatus.SectionsForDistinct | src/components/TestCaseMonitoringDashboard.js:175-184 | No grouped list repeats a section |
| TestStatus.GroupedPartition | src/components/TestCaseMonitoringDashboard.js:175-184 | Each mapped section appears exactly once in its own test's list, and in no other test's list |
| TestStatus.GroupedSections | src/components/TestCaseMonitoringDashboard.js:175-184 | The memo's keys are exactly the mapped tests, and each value is that test's sections in mapping order |
| TestStatus.PresentNonEmpty | src/components/TestCaseMonitoringDashboard.js:198-203 | `sectionsInConfig` is non-empty if and only if some related section is present |
| TestStatus.ListedWithinPresent | src/components/TestCaseMonitoringDashboard.js:198-202 | When disabled sections are present sections, the disabled count is at most the present count, and equal to it if and only if every present related section is disabled |
| TestStatus.EnabledIff | src/components/TestCaseMonitoringDashboard.js:190-204 | A non-root test is enabled if and only if some section mapped to it is present and not disabled |
| TestStatus.TouchedIffPresent | src/components/TestCaseMonitoringDashboard.js:192-195 | The first pass switches a test on if and only if one of its sections is present |
| TestStatus.TouchedAdd | src/components/TestCaseMonitoringDashboard.js:192-195 | Each further present section switches on exactly the test it is mapped to |
| TestStatus.SecondPassIsRollUp | src/components/TestCaseMonitoringDashboard.js:196-204 | The first pass followed by the second pass over all grouped tests gives exactly the roll-up rule |
| TestStatus.SectionsForUnmapped | src/components/TestCaseMonitoringDashboard.js:175-184 | A test no section maps to has no grouped list, so the second pass leaves it alone |
| TestStatus.CaseId | src/components/TestCaseMonitoringDashboard.js:206 | Every id starts with `TC-` |
| TestStatus.CaseIdPrefix | src/components/TestCaseMonitoringDashboard.js:206 | After `TC-` comes the test id's text before its first `.` (the whole id when it has no `.`) |
| TestStatus.FirstPass | src/components/TestCaseMonitoringDashboard.js:190-195 | Every test keeps its key, and its status is on exactly for the root test or a test with a present section |
| TestStatus.SecondPass | src/components/TestCaseMonitoringDashboard.js:196-204 | After the second pass, every status is the roll-up rule |
| TestStatus.GenerateTestCasesFromConfig | src/components/TestCaseMonitoringDashboard.js:187-212 | There is one entry per catalogue pair, in catalogue order, with its `TC-` id, test id, display name, the rolled-up status text and the date given for it |
| TestStatus.Counters | src/components/TestCaseMonitoringDashboard.js:908-910 | The enabled count and the disabled count never exceed the total |
| TestStatus.CountBounded | src/components/TestCaseMonitoringDashboard.js:909-910 | A status count is at most the number of test cases |
| TestStatus.CountersAddUp | src/components/TestCaseMonitoringDashboard.js:908-910 | When every status is `enabled` or `disabled`, the two counts add up to the total |
| TestStatus.RootAlwaysEnabled | src/components/TestCaseMonitoringDashboard.js:190-197 | `root.RootTest` is enabled for every configuration text, the empty one included |
| TestStatus.AsWrittenEnabledIff | src/components/TestCaseMonitoringDashboard.js:188-204 | With the scanner as written, a non-root test is enabled if and only if one of its sections is declared |
| TestStatus.IntendedEnabledIff | src/components/TestCaseMonitoringDashboard.js:196-204 | With the corrected scanner, a non-root test is enabled if and only if one of its sections is declared and not commented out |
| ModelNames.BaseName | src/components/TestCaseMonitoringDashboard.js:39-42 | The base name is a prefix of the input: either the input unchanged, or a non-empty prefix followed by ` (` |
| ModelNames.BaseNameLast | src/components/TestCaseMonitoringDashboard.js:39-42 | The greedy `(.+)` cuts at the last ` (` that can be reached on the first line; with no such cut the input is returned |
| ModelNames.BaseSplitWithinRun | src/components/TestCaseMonitoringDashboard.js:40 | A cut never lies beyond the first line terminator |
| ModelNames.ModelCode | src/components/TestCaseMonitoringDashboard.js:45-48 | A code exists if and only if the input ends with a non-empty, `)`-free group in parentheses; the code is that group |
| ModelNames.SplitFormatted | server/server.js:154 | A match splits the input into a non-empty single-line name and a non-empty `)`-free code that format back to the input |
| ModelNames.BaseNameOfFormat | src/components/TestCaseMonitoringDashboard.js:39-42 | Taking the base name of a formatted name gives back the full name |
| ModelNames.SplitFormattedOfFormat | server/server.js:154-166 | The lookup regex recovers the code (the file stem) and the full name (the fallback search) from a formatted name |
| ModelNames.ModelCodeOfFormat | src/components/TestCaseMonitoringDashboard.js:45-48 | The code regex recovers the code from a formatted name whose full name has balanced parentheses |
| ModelNames.Shorten | src/components/TestCaseMonitoringDashboard.js:55-57 | Text within the limit is unchanged; longer text becomes its first `n` characters plus `...` |
| ModelNames.DisplayModelName | src/components/TestCaseMonitoringDashboard.js:51-60 | A table header is at most 18 characters long |
| ModelNames.CompactModelDisplay | src/components/TestCaseMonitoringDashboard.js:68-77 | A selection chip is at most 13 characters long |
| ModelNames.DisplayIsPrefix | src/components/TestCaseMonitoringDashboard.js:51-77 | A display form is the base name itself or an abbreviation of it, and is a prefix of the full input |
| ModelNames.DisplayOfFormat | src/components/TestCaseMonitoringDashboard.js:51-77 | A formatted name whose full name fits is displayed as exactly that full name |
| DashboardState.SortAfter | src/components/TestCaseMonitoringDashboard.js:367-370 | After a click, the sort field is the clicked field |
| DashboardState.SortClicks | src/components/TestCaseMonitoringDashboard.js:367-370 | Clicking the same field flips the direction, a new field starts ascending, and two clicks end where expected |
| DashboardState.RemoveAll | src/components/TestCaseMonitoringDashboard.js:393 | The filter removes every copy of the model, and every other model keeps its membership and multiplicity |
| DashboardState.RemoveAllConcat | src/components/TestCaseMonitoringDashboard.js:393 | The filter works piecewise over a concatenation, so the remaining models keep their order |
| DashboardState.ToggleSelection | src/components/TestCaseMonitoringDashboard.js:390-398 | After a toggle, a model is selected if and only if exactly one of "it was selected" and "it is the toggled model" holds |
| DashboardState.ToggleSelectionEffect | src/components/TestCaseMonitoringDashboard.js:390-398 | An absent model is appended at the end; a present one loses every copy, and the others keep their multiplicity |
| DashboardState.ToggleTwice | src/components/TestCaseMonitoringDashboard.js:390-398 | Toggling an absent model twice restores the selection |
| DashboardState.ToggleKeepsDistinct | src/components/TestCaseMonitoringDashboard.js:390-398 | A selection without repeats stays without repeats |
| DashboardState.Dashboard.constructor | src/components/TestCaseMonitoringDashboard.js:12-24 | The initial state: nothing selected, comparison off, view `all`, no sort field, ascending, no rows, no error |
| DashboardState.Dashboard.HandleSort | src/components/TestCaseMonitoringDashboard.js:367-370 | The new sort field and direction are the sort transition, and every other field is unchanged |
| DashboardState.Dashboard.HandleManufacturerChange | src/components/TestCaseMonitoringDashboard.js:372-381 | The manufacturer is set; the model choice, the comparison, show-all, the sort field and the error are cleared |
| DashboardState.Dashboard.HandleModelChange | src/components/TestCaseMonitoringDashboard.js:383-388 | In comparison mode nothing changes; otherwise the model is set, the sort is cleared and the rows are emptied |
| DashboardState.Dashboard.HandleModelSelectionToggle | src/components/TestCaseMonitoringDashboard.js:390-398 | The selection becomes the toggled selection, and nothing else changes |
| DashboardState.Dashboard.ToggleComparisonMode | src/components/TestCaseMonitoringDashboard.js:400-415 | The mode flips. Entering it selects the single model when that model is not yet selected. Leaving it makes the first selected model the single one |
| DashboardState.Dashboard.ToggleAllManufacturerModels | src/components/TestCaseMonitoringDashboard.js:417-434 | It alerts, and changes nothing, exactly when no manufacturer is chosen. Otherwise show-all and comparison flip together, and switching off keeps only the single model |
| DashboardState.Dashboard.ToggleView | src/components/TestCaseMonitoringDashboard.js:444-450 | It alerts, and changes nothing, exactly for the `changes` view in comparison mode; otherwise it sets the view |
| DashboardState.ShowAllTwice | src/components/TestCaseMonitoringDashboard.js:417-434 | With a single model chosen, show-all on then off leaves comparison mode with exactly that model selected |
| CsvExport.FindIndex | src/components/TestCaseMonitoringDashboard.js:543 | `findIndex` returns the first row with the test id, and none when no row has it |
| CsvExport.StatusInRow | src/components/TestCaseMonitoringDashboard.js:541-548 | A row gets the model's last status for its test, provided the row is the first with that test id |
| CsvExport.StatusInFrom | src/components/TestCaseMonitoringDashboard.js:545 | Every status written into a row is the status of one of the model's test cases |
| CsvExport.FillModel | src/components/TestCaseMonitoringDashboard.js:541-548 | The inner loop sets a model's status exactly on the rows it has a status for, and leaves the other rows unchanged |
| CsvExport.FillStatuses | src/components/TestCaseMonitoringDashboard.js:528-549 | There is one row per catalogue entry, and every row's status map agrees with the test cases of the selected models |
| CsvExport.HeaderText | src/components/TestCaseMonitoringDashboard.js:552-557 | The header is `Test Case`, then a comma and the base name of each selected model |
| CsvExport.RowText | src/components/TestCaseMonitoringDashboard.js:560-566 | A data line is the quoted test name, then one quoted status per selected model |
| CsvExport.RowsText | src/components/TestCaseMonitoringDashboard.js:557-567 | The content is the header followed by one line per catalogue entry in order, each ended by `\n` |
| CsvExport.ComparisonCsv | src/components/TestCaseMonitoringDashboard.js:520-567 | The export is refused exactly when no model is selected; otherwise it is the header line and then the data lines |
| CsvExport.UnknownWhenMissing | src/components/TestCaseMonitoringDashboard.js:563 | A model with no status for a test is written as `unknown` |
| CsvExport.ComparisonCsvLines | src/components/TestCaseMonitoringDashboard.js:552-567 | Split into lines, the CSV is the header, one line per catalogue entry in order, and a final empty line |
| CsvExport.SingleModelCsv | src/components/TestCaseMonitoringDashboard.js:587-603 | The export is refused exactly when no model or no rows are selected; otherwise it is the fixed header and one line per row |
| CsvExport.SingleModelCsvLines | src/components/TestCaseMonitoringDashboard.js:600-603 | Split into lines, the single-model CSV has one line per row, in order, between the header and a final empty line |
| Highlighter.KeyValueMatch | src/components/SyntaxHighlighter.js:105 | A key/value match has a non-empty key without `=`, and key + `=` + value rebuilds the line |
| Highlighter.KeyValueMatchExact | src/components/SyntaxHighlighter.js:105-107 | A line is a key/value pair `(k, v)` if and only if it is `k=v` with a non-empty, `=`-free key and a single-line value |
| Highlighter.ClassifyKeyValue | src/components/SyntaxHighlighter.js:86-115 | A line that is not a comment and not a header is classified as key/value exactly when it matches the pattern |
| Highlighter.HashLineIsComment | src/components/SyntaxHighlighter.js:86-92 | Comment wins over everything else: `#[A]` is a comment |
| Highlighter.HeaderNeedsClosingBracket | src/components/SyntaxHighlighter.js:66 | A group header's trimmed form both starts with `[` and ends with `]`, so `[A] ; note` opens no group |
| Highlighter.GroupsPartition | src/components/SyntaxHighlighter.js:61-77 | Concatenating the groups gives back the lines. No group is empty; only the first line of a group can be a header, and every group but the first starts with one. There are as many groups as headers, plus one for a leading non-header |
| Highlighter.GroupStateCount | src/components/SyntaxHighlighter.js:64-77 | Counting invariant of the loop: closed groups plus the open one equal the headers plus a leading run |
| Highlighter.GroupLines | src/components/SyntaxHighlighter.js:61-77 | The `forEach` and the final flush compute exactly the grouping |
| Highlighter.Render | src/components/SyntaxHighlighter.js:46-127 | Absent or empty content renders nothing; otherwise the view is the grouped lines, each classified |
| DeviceServer.CategorizeFirstRule | server/server.js:14-36 | The result is a manufacturer if and only if its rule fires and no earlier rule does |
| DeviceServer.IpadBeatsPixel | server/server.js:17-20 | A name containing `ipad` and `pixel` is Apple |
| DeviceServer.PixelBeatsGalaxy | server/server.js:19-28 | A name containing `pixel` and `galaxy`, and matching no Apple keyword, is Google |
| DeviceServer.SamsungNames | server/server.js:21-28 | A name starting with `a` or `s` and a digit, or containing `sm-` or `galaxy`, is Samsung unless an earlier rule fired |
| DeviceServer.UnmatchedIsOther | server/server.js:33-35 | A name no rule matches is Other |
| DeviceServer.CategorizeIgnoresCase | server/server.js:15 | Upper-casing or lower-casing a name does not change its manufacturer |
| DeviceServer.NameValue | server/server.js:84 | There is a value if and only if the text has a `Name\s*=\s*(.+)` match, and the value is non-empty and single-line |
| DeviceServer.NameValueOfLine | server/server.js:84-87 | A text starting with `Name = v` on its own line yields exactly `v` |
| DeviceServer.IndexEntry | server/server.js:81-93 | A file contributes only if it is a readable `.ini` with a name match. Its entry is the trimmed name and the file name minus its first `.ini`, formatted, filed under the category of that name |
| DeviceServer.ListedMembers | server/server.js:95-98 | A name is listed under a manufacturer if and only if some file contributes it there, and no list has duplicates |
| DeviceServer.DeviceIndexShape | server/server.js:80-111 | After pruning, no list is empty or has duplicates, and a name is under a manufacturer if and only if some file contributes it there |
| DeviceServer.IndexFile | server/server.js:81-93 | The loop body computes the file's entry |
| DeviceServer.PushEntry | server/server.js:95-98 | Every list keeps its key and receives the entry if the entry is new to it |
| DeviceServer.CollectDevices | server/server.js:69-104 | After the loop, every manufacturer's list is the de-duplicated sequence of entries filed under it |
| DeviceServer.BuildDeviceIndex | server/server.js:66-111 | The handler's object is the index with empty lists pruned |
| DeviceServer.PairOf | server/server.js:130 | A Pythia line yields a key of one or more `[A-Za-z0-9.]` characters and a trimmed value, and yields nothing exactly when the pattern matches nowhere |
| DeviceServer.PairOfSpaced | server/server.js:130-132 | `key = value` after non-key characters yields exactly that key and that value |
| DeviceServer.PythiaMappingShape | server/server.js:124-134 | There is at most one pair per line. Each pair comes from a non-blank, non-`#` line, in line order, with a well-formed key and a trimmed value |
| DeviceServer.ParsePythiaMapping | server/server.js:123-136 | The `forEach` computes the mapping of the split lines |
| DeviceServer.CommentLinesSkipped | server/new_server.js:64-74 | Blank lines and lines whose trimmed form starts with `#` add no pair, in both servers' parsers |
| DeviceServer.FindFile | server/server.js:160 | The file found has the requested name, and none is found exactly when no entry has it |
| DeviceServer.FirstHolding | server/server.js:174-186 | The content returned is that of the first readable `.ini` file holding the needle, and nothing is returned exactly when no file holds it |
| DeviceServer.FindConfig | server/server.js:170-186 | The `for` loop with `break` returns the first holding file's content |
| DeviceServer.FoundIsNonEmpty | server/server.js:188 | A found configuration holds the needle, so it is never the empty string that `if (configContent)` would reject |
| DeviceServer.GetDevice | server/server.js:144-197 | The handler answers 400, the configuration, 404 or 500 as the lookup decides |
| DeviceServer.BadRequestExactly | server/server.js:148-150 | The answer is 400 exactly when the model name is missing or empty |
| DeviceServer.IndexNameFindsFile | server/server.js:154-163 | A name the index produced finds the first readable file `<code>.ini` directly |
| DeviceServer.FallbackSearchesFullName | server/server.js:164-192 | Without a `<code>.ini` file, the lookup searches for `Name = <full name>` |
| NewDeviceServer.FirstWordShape | server/new_server.js:36-38 | The key is the longest space-free prefix of the name |
| NewDeviceServer.ContributionOf | server/new_server.js:29-46 | The loop body computes the file's contribution |
| NewDeviceServer.Push | server/new_server.js:40-44 | The name is appended to its key's list, which is created when missing |
| NewDeviceServer.GroupByFirstWord | server/new_server.js:25-51 | The handler's object is the fold of the contributions in listing order |
| NewDeviceServer.GroupedIsUnder | server/new_server.js:40-44 | A key is present if and only if some name was filed under it; its list is those names in listing order |
| NewDeviceServer.UnderCounts | server/new_server.js:44 | There is no de-duplication: each name occurs under a key as many times as it was filed there |
| NewDeviceServer.DeviceListShape | server/new_server.js:28-51 | A key is present if and only if some file contributes under it, and names occur as often as files contribute them |
| NewDeviceServer.ListedUnderFirstWord | server/new_server.js:35-44 | Every stored name is trimmed and starts with its key. The key is space-free, followed by a space when shorter than the name, and never an inherited property name |
| NewDeviceServer.TotalIsContributing | server/new_server.js:40-44 | The lists hold as many names in total as there are contributing files |
| NewDeviceServer.GetDevice | server/new_server.js:84-119 | The handler answers 400, the configuration or 404 as the lookup decides |
| NewDeviceServer.LookupFirstMatch | server/new_server.js:96-108 | The answer is the first readable `.ini` file holding `Name = <model>` verbatim, and 404 exactly when there is none |
| NewDeviceServer.SameAnswerForPlainNames | server/new_server.js:100 | For a name without a trailing `(code)`, both servers answer alike |
| NewDeviceServer.ListedNameFound | server/new_server.js:29-44 | A file starting with `Name = <name>` lists the name under its first word, and a lookup of that name finds a configuration |

## Left out

- File system, HTTP and Express:
  - `readdirSync`, `readFileSync`, `existsSync`, status codes and JSON bodies are not modelled. The directory is a parameter, and a file that cannot be read has no content.
  - A failing directory listing (the outer 500 of each handler) is not modelled.
  - `existsSync` on a directory named `<code>.ini` is not distinguished from an unreadable file.
  - `path.join` normalisation is not modelled: names are compared as given.
  - A `?model=` query given as an array is not modelled; the model name is an optional string.
- The static-file serving, `/api` and the catch-all route (server/server.js:42-63, 199-217) are not modelled.
- JSX rendering, CSS classes, dark mode, `localStorage` and the highlighter's edit mode are not modelled.
- Randomness and time are not modelled:
  - `randomDate` becomes the `stamp` parameter of `TestStatus.GenerateTestCasesFromConfig`.
  - The random default statuses (src/components/TestCaseMonitoringDashboard.js:262-270) are left out.
  - The timestamps and the date filter of the "changes" view are left out.
- The sort comparators, which use `localeCompare` and `Date`, are not modelled. Only the sort-state transition is.
- The asynchronous loading effects are not modelled. Neither is the Blob and link download of the CSV files.
- The contents of `testCaseMapping` and `iniSectionToTestMapping` are not part of this model: they are parameters.
- Unicode is reduced to what matters here:
  - Case mapping covers ASCII letters only.
  - Lengths count characters, not UTF-16 code units.
- Map key order: JavaScript objects iterate in insertion order. The dashboard's objects and the device indexes of both servers are Dafny `map`s, so the key order of the JSON the servers send is not modelled; only the lists inside them (and the `groupedSections` lists) keep their order.
- ParseConfig.ParseIniContent, ParseConfig.SectionsOf, TestStatus.IsEnabled, TestStatus.PresentIn and TestStatus.Lookup treat JavaScript objects as plain maps, so names of `Object.prototype` members are not special. In the source, `sections["__proto__"] = true` adds no key (src/utils/parseConfig.js:24), while the model records `__proto__` as a section. `sections[s]` and `iniSectionToTestMapping[s]` are truthy for inherited names such as `toString` or `constructor` whatever the configuration holds (src/components/TestCaseMonitoringDashboard.js:193, 198), while the model treats such sections as absent and unmapped. Section names are assumed not to be inherited property names; the device list of server/new_server.js, where such a name makes the file drop out, does model them (`NewDeviceServer.InheritedKeys`).
- The `model` argument of `generateTestCasesFromConfig` is unused by the source and is omitted.
- CSV quoting is not modelled: the source does not escape quotes or commas, and the model writes fields exactly as the source does.
- The Pythia parser of server/new_server.js:61-81 is the same text as that of server/server.js:121-141. It is modelled once, in `DeviceServer`.
- `handleConfigContentChange`, the configuration modal and the fetch wrappers in `src/api/index.js` are not modelled: they only move text between the UI and the network.
- Section toggling, removal, appending and content extraction are not modelled: no source file implements them.

## Findings

| source | as written | input that shows it | evidently intended | confidence | as-written member | corrected member |
|---|---|---|---|---|---|---|
| src/utils/parseConfig.js:18-29 | Header recognition matches `^\[` against the trimmed line. A raw line starting with `#` trims to a line starting with `#`. So a commented-out header is never recorded, and `disabledSections` is always empty. | The configuration text `#[A]` gives no section and no disabled section | The comment at line 26 says a commented-out header marks its section as disabled: `#[A]` records `A` as a section and as disabled | not executed | ParseConfig.CommentedHeaderDropped | ParseConfig.CommentedHeaderRecorded |
