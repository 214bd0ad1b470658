# Currency fix script and organization E2E bookkeeping, in Dafny

This project models two Python scripts of the repository and proves what
they promise.

**`batch-fix-currency.py`** rewrites TypeScript modules that print prices with
a literal pound sign (`£`). The model is module `CurrencyFix`. `fix_file` is
`Fix` (the specification function) and `FixFile` (the step-by-step method):

1. It counts the pound signs and stops with `"No currency symbols found"` when there are none.
2. When the text does not mention `currency-utils`, it inserts an import of
   `getCurrencySymbol` right after the last line matched by
   `import.*from.*;\n`. That pattern is a line scanner (`IsImportLine`,
   `FindLastImportEnd`). The import path is `../` or `./` depending on the
   file's directory.
3. It walks the matches of `export\s+async\s+function\s+\w+[^{]*\{`. The
   pattern is a small greedy interpreter (`MatchAt`, `NextHeader`), and
   `HeaderEndMeans` proves it ends a match exactly where the regular
   expression does. Each body
   runs up to the next `\nexport async function`, and `AddDeclaration` adds a
   `currencySymbol` declaration to it when it needs one. `Pass` is the
   specification of this loop and `AddDeclarations` is the loop.
4. It replaces every pound sign by `${currencySymbol}`.

`main` is `FixAll` and `BatchFixCurrency`, over a file system given as a
map from path to content. `RunBatch` specifies them.

**`test-organization-flows.py`** is a Playwright suite. The model is module
`OrganizationFlows` and covers its bookkeeping:

- the `results` dictionary, as class `TestResults` with `LogTest` (`log_test`);
- the rules that turn what the browser saw into verdicts (`HomeLoads` …
  `IsProtected`, `ApiResponds`);
- the short-circuiting sweep over the protected routes (`SweepProtected`);
- the collection of page errors (`CollectPageErrors`);
- one method per test block (`TestHomePage` … `TestBuildArtifacts`);
- the whole run (`RunSuite`): one `try` around all steps, where an exception
  skips every later step, then the pass rate and exit status of the
  `finally` block.

Three facts about the suite's code shape the model:

- One `try` wraps every step of the suite, so an exception skips all later
  tests. There is no per-test recovery.
- `log_test` is called 11 times, since test 5 makes two calls.
- The exit status depends only on the `failed` list, so an aborted run with
  no recorded failure exits 0.

What the browser observes is an input (`Observations`). `Checks(obs, k)` is
the sequence of the first `k` `log_test` calls.

Module `Strings` holds the Python string operations both scripts use.
`Maybe` holds the option type.

Each script has a byte-identical copy (`scripts/database/batch-fix-currency.py`
and `scripts/tests/test-organization-flows.py`). The rows below cite the
top-level files, and the same lines hold in the copies.

## Model

| member | source | states |
|---|---|---|
| Strings.Count | batch-fix-currency.py:26 | the number of occurrences of a character is at most the length, and is 0 exactly when the character is absent |
| Strings.CountConcat | batch-fix-currency.py:26 | counting over a concatenation adds the counts of the parts |
| Strings.Find | batch-fix-currency.py:82 | `str.find`: the result is -1 or an occurrence at or after the start, and no occurrence lies between the start and the result (none at all for -1) |
| Strings.ContainsMeansOccurs | batch-fix-currency.py:31 | `sub in s` holds iff `sub` occurs at some index, and the search then finds the first occurrence |
| Strings.Take | batch-fix-currency.py:87-89 | `s[:n]` is a prefix of `s`: exactly `n` characters when `n <= len(s)`, and all of `s` when `n` is larger |
| Strings.ReplaceChar | batch-fix-currency.py:104 | after `replace`, the character is gone when the replacement does not contain it, and text without the character is unchanged |
| Strings.ReplaceCharOne | batch-fix-currency.py:104 | on one character, `replace` gives the replacement when it is the character replaced and the character itself otherwise |
| Strings.ReplaceCharConcat | batch-fix-currency.py:104 | `replace` distributes over concatenation, so with `ReplaceCharOne` every occurrence becomes one copy of the replacement and every other character stays in place |
| Strings.Lower | test-organization-flows.py:59 | `lower()` keeps the length and maps each upper-case ASCII letter to its lower-case letter, leaving every other character unchanged |
| Strings.NatToString | batch-fix-currency.py:109 | the decimal rendering of `f"{n}"` is non-empty, made of digits, and starts with `0` only for 0 |
| Strings.NatToStringValue | batch-fix-currency.py:109 | the rendering denotes `n`: read back as decimal digits it gives `n` |
| Strings.SplicedKeepsCount | batch-fix-currency.py:86-104 | splicing in pieces that lack a character keeps that character's count |
| CurrencyFix.ImportLine | batch-fix-currency.py:40-43 | the import comes from `'../currency-utils'` iff the path contains `/product-operations/` or `/order-operations/`, and from `'./currency-utils'` otherwise |
| CurrencyFix.IsImportLineMatchesPattern | batch-fix-currency.py:33 | on a line without a newline, the scanner's test holds iff the line matches `import.*from.*;`: an `import`, a later non-overlapping `from`, and `;` as its last character |
| CurrencyFix.IsImportLine | batch-fix-currency.py:33-37 | a line holds an import match when it ends in `;` and `from` occurs after its first `import`, before the `;`; `IsImportLineMatchesPattern` relates this to the pattern |
| CurrencyFix.LineStart | batch-fix-currency.py:33 | the start of the line holding an index: a newline or the text start precedes it, and no newline lies between |
| CurrencyFix.LastImportEnd | batch-fix-currency.py:33-37 | the last import match that ends at or before `k`, searched backwards; a result is a position in `1..k` |
| CurrencyFix.LastImportEndIsLast | batch-fix-currency.py:34-37 | the end of an import match at or before `k`, and no match ends after it up to `k` (none at all when the result is `None`) |
| CurrencyFix.FindLastImportEnd | batch-fix-currency.py:33-37 | the line-by-line scan returns the end of the last import match, `imports[-1].end()` |
| CurrencyFix.WithImport | batch-fix-currency.py:31-45 | step 2 as a function: unchanged when the text mentions `currency-utils` or has no import match, and otherwise the import line inserted at the end of the last match; its properties are the two rows that follow |
| CurrencyFix.WithImportPlacesLine | batch-fix-currency.py:31-45 | step 2 changes the text iff it lacks `currency-utils` and has an import match; then it inserts the import line once, at the end of the last match |
| CurrencyFix.WithImportKeepsPounds | batch-fix-currency.py:31-45 | inserting the import keeps the number of pound signs |
| CurrencyFix.SkipSpaces | batch-fix-currency.py:49 | the longest `\s` run: every character skipped is a space and the next one is not |
| CurrencyFix.SkipWord | batch-fix-currency.py:49 | the longest `\w` run: every character skipped is a word character and the next one is not |
| CurrencyFix.MatchElement | batch-fix-currency.py:49 | one element of the pattern matches from `i` to a position within the text, and `[^{]*\{` ends just after a `{` |
| CurrencyFix.MatchElementMeans | batch-fix-currency.py:49 | an element match ends at `j` exactly when `s[i..j]` is the literal, the whole non-empty `\s` or `\w` run at `i`, or everything up to and including the first `{`; -1 exactly when there is none |
| CurrencyFix.MatchAt | batch-fix-currency.py:49 | a match of the whole pattern that starts at `i` ends at or after `i`, within the text |
| CurrencyFix.MatchAtEndsWithBrace | batch-fix-currency.py:49 | a pattern ending in `[^{]*\{` matches up to and including a `{` |
| CurrencyFix.HeaderEnd | batch-fix-currency.py:49 | a header match starting at `p` is non-empty and ends within the text |
| CurrencyFix.HeaderEndShape | batch-fix-currency.py:49 | a header the scanner reports matches `export\s+async\s+function\s+\w+[^{]*\{` |
| CurrencyFix.ShapeHeaderEnd | batch-fix-currency.py:49 | however a match of the pattern from `p` splits its runs, it ends where the scanner says |
| CurrencyFix.HeaderEndMeans | batch-fix-currency.py:49 | the scanner ends a header at `e` iff `s[p..e]` matches the pattern, so greedy scanning without backtracking loses no match |
| CurrencyFix.HeaderEndNone | batch-fix-currency.py:49 | the scanner returns -1 iff no match of the pattern starts at `p` |
| CurrencyFix.HeaderEndsWithBrace | batch-fix-currency.py:49 | every header match ends with its opening brace |
| CurrencyFix.NextHeader | batch-fix-currency.py:78 | the next match found lies at or after the search position, and its end is that of the header match at its start |
| CurrencyFix.NextHeaderIsLeftmost | batch-fix-currency.py:78 | no header match starts between the search position and the match found (none at all when nothing is found) |
| CurrencyFix.BodyEnd | batch-fix-currency.py:82-83 | a body ends at the first `\nexport async function` after the header, or at the end of the text |
| CurrencyFix.AddDeclaration | batch-fix-currency.py:86-94 | a body is unchanged unless it has `£`, lacks `currencySymbol` and has no `getCurrencySymbol` in its first 200 characters; with a `\n  try {` in its first 100 characters, the 4-space declaration goes right after the first one; otherwise the 2-space declaration is prepended |
| CurrencyFix.NeedsDeclaration | batch-fix-currency.py:87 | the guard: the body has a `£`, no `currencySymbol`, and no `getCurrencySymbol` in its first 200 characters |
| CurrencyFix.TryNearStart | batch-fix-currency.py:89 | the body has `\n  try {` within its first 100 characters |
| CurrencyFix.DeclaredBodyNeedsNone | batch-fix-currency.py:87 | a body that received a declaration mentions `currencySymbol` |
| CurrencyFix.AddDeclarationIdempotent | batch-fix-currency.py:86-94 | a body gets at most one declaration: doing it again changes nothing |
| CurrencyFix.AddDeclarationInserts | batch-fix-currency.py:86-94 | a body with its declaration is the body with at most one declaration line spliced in |
| CurrencyFix.InsertedKeepsPounds | batch-fix-currency.py:91-94 | splicing in declaration lines keeps the number of pound signs |
| CurrencyFix.Pass | batch-fix-currency.py:76-101 | the loop as a function: for each header match from the search position, the gap since the last body (empty when the last body ran past this match), the header, and the body with its declaration, then the tail; its properties are the rows that follow |
| CurrencyFix.AddDeclarations | batch-fix-currency.py:76-101 | the `parts` loop produces `Pass(s, 0, 0)`: for each header match, the gap since the last body, the header, and the body with its declaration, then the tail |
| CurrencyFix.PassInserts | batch-fix-currency.py:76-101 | with aligned headers, the rest of the pass is the rest of the text with declaration lines spliced in and nothing else changed |
| CurrencyFix.BodyEndsBeforeNextHeader | batch-fix-currency.py:81-83 | with aligned headers, a body ends no later than the start of the next header match |
| CurrencyFix.AlignedPassInserts | batch-fix-currency.py:76-101 | with aligned headers, step 3 only splices in declarations and keeps every pound sign |
| CurrencyFix.PassRepeatsUnalignedHeader | batch-fix-currency.py:76-101 | on two headers on one line, the loop emits the text followed by the second header a second time |
| CurrencyFix.CorrectedBodyEnd | batch-fix-currency.py:81-83 | a corrected body ends at or before the literal search's end and no later than the next header match |
| CurrencyFix.PassCorrectedInserts | batch-fix-currency.py:76-101 | the corrected loop emits the rest of the text with declaration lines spliced in, for every text |
| CurrencyFix.CorrectedPassInserts | batch-fix-currency.py:76-101 | for every text, the corrected step 3 only splices in declarations and keeps every pound sign |
| CurrencyFix.PassCorrectedAgrees | batch-fix-currency.py:76-101 | with aligned headers the corrected loop gives the same text as the loop as written |
| CurrencyFix.CorrectedPassKeepsUnalignedHeaders | batch-fix-currency.py:76-101 | on the one-line example the corrected loop gives back the text unchanged |
| CurrencyFix.Fix | batch-fix-currency.py:20-109 | the count is the input's number of pound signs; nothing is written iff there is none, and then the message is `"No currency symbols found"`; otherwise the message is `"Fixed <n> symbols"` |
| CurrencyFix.FixFile | batch-fix-currency.py:20-109 | the step-by-step `fix_file` computes `Fix` |
| CurrencyFix.FixClearsPounds | batch-fix-currency.py:104 | a written file contains no pound sign |
| CurrencyFix.FixIdempotent | batch-fix-currency.py:26-28 | fixing a fixed file returns `(0, "No currency symbols found")` and writes nothing |
| CurrencyFix.FixReplacesWhatItCounts | batch-fix-currency.py:76-109 | with aligned headers, the written text is the input plus the import and the declarations with every `£` replaced, and the count is the number of pound signs replaced |
| CurrencyFix.RunBatch | batch-fix-currency.py:114-122 | the batch as a function: the listed files in order, skipping missing ones, each fixed against the files as left by the earlier ones, with the counts added up; its properties are the rows that follow |
| CurrencyFix.RunBatchKeepsOthers | batch-fix-currency.py:114-127 | the batch creates no file and leaves unlisted files unchanged |
| CurrencyFix.FixAll | batch-fix-currency.py:114-127 | the loop's `total_fixed` and final files are those of `RunBatch`: existing files are fixed in list order and missing ones are skipped |
| CurrencyFix.BatchFixCurrency | batch-fix-currency.py:10-18 | `main` is the batch over the seven paths of `FILES_TO_FIX` |
| CurrencyFix.BatchTotalCountsPounds | batch-fix-currency.py:114-122 | with distinct paths, `total_fixed` is the number of pound signs in the listed files that exist; missing files add 0 |
| CurrencyFix.BatchClearsPounds | batch-fix-currency.py:115-122 | after the batch, no listed file that exists holds a pound sign |
| CurrencyFix.BatchWithoutPounds | batch-fix-currency.py:115-122 | a batch over files without pound signs totals 0 and writes nothing |
| CurrencyFix.BatchIdempotent | batch-fix-currency.py:114-129 | running the batch again on its own output totals 0 and writes nothing |
| OrganizationFlows.NamesPartitionLog | test-organization-flows.py:26-33 | each call lands in exactly one list, so `total == len(passed) + len(failed)` |
| OrganizationFlows.NamesKeepCallOrder | test-organization-flows.py:29-32 | the lists of two runs of calls are the lists of the first run followed by those of the second, so names keep call order |
| OrganizationFlows.FailedNamesAreFailures | test-organization-flows.py:28-32 | a name is in `failed` iff some call with that name failed |
| OrganizationFlows.TestResults.constructor | test-organization-flows.py:20-24 | the accumulator starts empty with `total` 0 |
| OrganizationFlows.TestResults.LogTest | test-organization-flows.py:26-33 | `total` grows by 1 and the name is appended to `passed` if the test passed, else to `failed`, with the other list unchanged |
| OrganizationFlows.HomeLoads | test-organization-flows.py:59 | test 1 passes when the title is non-empty and the lower-cased URL does not contain `error` |
| OrganizationFlows.LoginFormComplete | test-organization-flows.py:68-73 | test 2 passes when an email input, a password input, and a submit or "Sign in" button are present |
| OrganizationFlows.RedirectedToLogin | test-organization-flows.py:82 | test 3 passes when the URL contains `login` or `auth`, or an email input is present |
| OrganizationFlows.OnboardingExists | test-organization-flows.py:91-96 | test 4 passes when an organization-name input or a create button is present, or the lower-cased page contains `organization` |
| OrganizationFlows.ApiResponds | test-organization-flows.py:105-111 | both checks of test 5 pass a status that is in `[200, 401]` |
| OrganizationFlows.TeamPageAccessible | test-organization-flows.py:121-123 | test 6 passes when a `Team` heading is present or the URL contains `login` or `onboarding` |
| OrganizationFlows.DashboardStructured | test-organization-flows.py:133-141 | test 7 passes when navigation or main content is present or the URL contains `login` |
| OrganizationFlows.IsProtected | test-organization-flows.py:158-159 | a route counts as protected when the URL contains `login` or `onboarding` or an email input is present |
| OrganizationFlows.IsProtectedMeans | test-organization-flows.py:158-159 | a route is protected iff its URL contains `login` or `onboarding` or an email input is present |
| OrganizationFlows.ApiRespondsExactly | test-organization-flows.py:105-111 | an API check passes iff the status is 200 or 401 |
| OrganizationFlows.SweepProtected | test-organization-flows.py:154-162 | `all_protected` is true iff every route is protected; the sweep visits all routes when it is true, and otherwise stops at the first unprotected route |
| OrganizationFlows.ErrorsOn | test-organization-flows.py:169-180 | the errors of the pages, page after page in visiting order |
| OrganizationFlows.NoErrorsIffCleanPages | test-organization-flows.py:169-182 | no error is collected iff no visited page raised one |
| OrganizationFlows.CollectPageErrors | test-organization-flows.py:169-180 | `js_errors` holds the errors of the test pages in visiting order |
| OrganizationFlows.CheckAt | test-organization-flows.py:54-200 | call `k` of the suite: its test name and the verdict rule the source applies at that point |
| OrganizationFlows.Checks | test-organization-flows.py:54-200 | the first `k` calls of the suite are the suite's checks in order |
| OrganizationFlows.PassRate | test-organization-flows.py:229 | the pass rate is 0 when nothing ran, lies between 0 and 100, and is 100 iff every test passed |
| OrganizationFlows.ExitCode | test-organization-flows.py:233-238 | the exit status is 1 when the `failed` list is non-empty and 0 otherwise |
| OrganizationFlows.ExitCodeReportsFailures | test-organization-flows.py:233-238 | the exit status is 1 iff some recorded call failed and 0 iff all passed |
| OrganizationFlows.AbortWithoutFailuresExitsZero | test-organization-flows.py:202-238 | an exception raised before any failure was recorded still exits 0 |
| OrganizationFlows.TestHomePage | test-organization-flows.py:54-60 | test 1 records the home-page check as the first call |
| OrganizationFlows.TestLoginPage | test-organization-flows.py:62-75 | test 2 records the login-form check as the second call |
| OrganizationFlows.TestDashboardRedirect | test-organization-flows.py:77-84 | test 3 records the redirect check as the third call |
| OrganizationFlows.TestOnboardingPage | test-organization-flows.py:86-98 | test 4 records the onboarding check as the fourth call |
| OrganizationFlows.TestAuthMeApi | test-organization-flows.py:103-107 | test 5 records the `/api/auth/me` status check as the fifth call |
| OrganizationFlows.TestOrganizationsApi | test-organization-flows.py:109-113 | test 5 records the `/api/organizations` status check as the sixth call |
| OrganizationFlows.TestTeamPage | test-organization-flows.py:115-125 | test 6 records the team-page check as the seventh call |
| OrganizationFlows.TestDashboardStructure | test-organization-flows.py:127-143 | test 7 records the dashboard-structure check as the eighth call |
| OrganizationFlows.TestRouteProtection | test-organization-flows.py:145-165 | test 8 records the outcome of the sweep as the ninth call |
| OrganizationFlows.TestJavaScriptErrors | test-organization-flows.py:167-184 | test 9 records whether any page error was collected as the tenth call |
| OrganizationFlows.TestBuildArtifacts | test-organization-flows.py:191-200 | test 10 records whether both build artifacts exist as the eleventh call |
| OrganizationFlows.RunSuite | test-organization-flows.py:49-238 | without an exception all 11 calls are recorded; an exception before call `k <= 11` leaves exactly `k`; the recorded calls are the suite's checks in order, and the pass rate and exit status are computed from them |
| OrganizationFlows.SuiteExitCode | test-organization-flows.py:233-238 | the suite exits 0 iff every check it recorded passed |

## Left out

- Browser driving is not modelled. Playwright's `goto`, `screenshot`,
  `locator(...).count()`, `page.request.get`, the `page.on` callbacks and
  `wait_for_timeout` become the fields of `Observations`. The model takes the
  dashboard seen in test 3 and the one seen in test 7 as separate
  observations, as the browser may show it differently at different times.
- File I/O is not modelled: `read_text`, `write_text`, `Path.exists` and `os.path.exists`.
  The file system is a map from path to content, and the two build artifacts are booleans.
- Console output is not modelled: the emoji lines, the `details` strings,
  `traceback.print_exc` and the `:.1f` rendering of the pass rate. Only the
  messages `fix_file` returns are modelled.
- `sys.exit` is modelled as the returned exit status.
- Floating point is not modelled. The pass rate is a `real`.
- Unicode is approximated by ASCII. `\s`, `\w` and `str.lower()` work on
  ASCII characters only, where Python's also match or fold other Unicode
  characters.
- Regular expressions are modelled only for the two patterns the script uses,
  written as scanners. There is no general regex engine.
- Dead and unused code is left out: the nested `add_currency_var`, which
  nothing calls; the unused `original` variable; and the unused `json` and
  `expect` imports.
- Launching the browser is not modelled. It happens before the `try`, so an
  exception there ends the script without the summary.
- An exception thrown by the summary itself is not modelled.
- CurrencyFix.PassInserts: the "nothing else changes" result is proved only
  when every header match that does not start the text follows a newline and
  begins with the exact words `export async function` (`HeadersAligned`).
  The loop finds headers with the regular expression but ends bodies with a
  literal search. When the two disagree, a body runs past the next header
  and the script emits that header twice (see "## Findings"). `Pass` still
  models that case exactly, and `CorrectedPassInserts` proves the property
  for every text about the corrected loop.
- CurrencyFix.AlignedPassInserts and CurrencyFix.FixReplacesWhatItCounts: both
  rely on the same alignment assumption, for the same reason.
- CurrencyFix.BatchTotalCountsPounds: proved for lists without repeated paths.
  `FILES_TO_FIX` has none. A repeated path would count the pounds of an
  already fixed file, which is 0, and `RunBatch` models that case exactly.

## Findings

| source | as written | input that shows it | evidently intended | confidence | as-written member | corrected member |
|---|---|---|---|---|---|---|
| batch-fix-currency.py:78-99 | each body ends at the next literal `\nexport async function`, while headers are found with `export\s+async\s+function\s+\w+[^{]*\{`; a header the literal search misses (not at a line start, or with other white space) falls inside the previous body, is still found by `finditer`, and is emitted a second time | `"export async function a{export async function b{"`: the output is the text followed by `export async function b{` again | each body ends no later than the next header match, so the text comes back with only declaration lines added | not executed | CurrencyFix.PassRepeatsUnalignedHeader | CurrencyFix.CorrectedPassInserts |

`Fix` and `FixFile` keep the loop as written, since they model what the
script does. `PassCorrectedAgrees` shows the correction changes nothing when
every header starts a line with the exact words `export async function`.
