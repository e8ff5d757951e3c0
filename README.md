# Booking engine model

The program this project models is a booking bot for an online course
calendar. It reads its booking requests from a spreadsheet, one sheet per
course date: the sheet title names a weekday, a time and a course, and the
rows list the athletes to book. It then polls the calendar's catalog over
and over. When a course's name matches a pending request, and one of the
course's events falls on the request's date and time, the request leaves
the pending list and every athlete is booked. A booking reserves, then
finalises; the bot retries it with a budget. The result goes back into the
sheet, as a cancellation link or as `Fehler ` and the failures.

The model covers the decision logic between the remote calls. The remote
calls themselves (the spreadsheet, the catalog, the reservation API) are
given as their answers:

- **The retry loop `retryThen`** (`RetryRunner`). The operation is a
  function from call number to outcome. `RetryThen` is a loop proved equal
  to `Retry`, a definition by first success.
- **The polling cycle `startPolling`** and the `while (continueTrying(tasks))`
  loop (`Matcher` and `Polling`). The pending array and the log of placements
  started are the fields of the class `Scheduler`. Its invariant says the
  array only lost tasks, kept the survivors' order, and every lost task was
  launched exactly once.
- **The per-athlete partition of `placeAthletes`** (`Placement`): the
  cancellation link, the `F{index+1}` write-back range and the
  `Fehler …` failure value.
- **The sheet shaping of `pullTasklist`** (`TaskList`): the title split, the
  row filter and numbering, and the rule that only tasks with an athlete
  are kept.
- **Small helpers:** the `DAYS` table, the weekday offset and
  `formatDate` (`Calendar`), and the text extraction of `jsextract`
  (`Capabilities`).
- **JavaScript string operations** (`Text`): `split`, `join`, `indexOf`,
  `substring`, `replace`, ASCII `toLowerCase`, and the decimal rendering of
  integers.

## Model

| member | source | states |
|---|---|---|
| RetryRunner.FirstSuccess | index.js:289-292 | the first successful call number in a range, or the range's end; every earlier call threw |
| RetryRunner.Errors | index.js:293-296 | the failures of the first n calls, one per call, in call order |
| RetryRunner.Retry | index.js:287-299 | the reference result of `retryThen`: the first successful call's value after that many calls, or, with no success within the budget, every failure after the whole budget |
| RetryRunner.RetryThen | index.js:287-299 | the loop's result and its number of calls equal the reference `Retry`: the first successful call's value after that many calls, or every failure of the budget |
| RetryRunner.RetryNoBudget | index.js:287-288 | a budget of zero or less makes no call and fails with an empty failure list |
| RetryRunner.RetryAlwaysFails | index.js:287-299 | an always-failing operation is called exactly `times` times and the result lists those `times` errors in call order |
| RetryRunner.RetryFirstSuccess | index.js:289-292 | when call k (k < times) is the first success, the result is that call's value after k + 1 calls |
| RetryRunner.RetrySucceedsIff | index.js:287-299 | the retry succeeds if and only if some call within the budget succeeds |
| RetryRunner.RetryCallsBounded | index.js:287-299 | never more calls than the budget; a failed retry used all of it and has one failure per call |
| Calendar.DayNumber | index.js:99-107 | the weekday table is defined exactly on mo..so, with values 1..7 |
| Calendar.WeekdayOffset | index.js:126 | `None` (the source's `NaN`) exactly for a token outside the table; otherwise an offset in 0..6 that lands today on the named weekday |
| Calendar.WeekdayOffsetLeast | index.js:126 | no smaller offset lands on the named weekday |
| Calendar.Pad2 | index.js:115-118 | `'0'` in front of a text shorter than two characters; other texts unchanged |
| Calendar.FormatDate | index.js:109-121 | the year, the padded month and the padded day, joined by `-` |
| Calendar.TwoDigits | index.js:115-118 | a number in 1..99 pads to its tens digit then its units digit |
| Calendar.FormatDateShape | index.js:109-121 | for month 1..12 and day 1..31 the text is the year, `-`, two month digits, `-`, two day digits |
| Calendar.FormatDateRoundTrip | index.js:109-121 | a formatted date of non-negative numbers parses back to the same year, month and day |
| Text.Lower | index.js:280 | lower-casing keeps the length and maps every character through `LowerChar` |
| Text.LowerIdempotent | index.js:161 | a lower-cased task name is unchanged by lower-casing again |
| Text.Split | index.js:151 | a split is never empty and no piece holds the separator |
| Text.JoinSplit | index.js:151 | joining the pieces of a split gives the original title back |
| Text.Join | index.js:120 | JavaScript `join`: the pieces separated by one separator each, the empty text for no pieces |
| Text.SplitJoin | index.js:161 | splitting a join of separator-free pieces gives the pieces back |
| Text.IndexOf | index.js:81 | -1 exactly when the needle does not occur; otherwise its first occurrence |
| Text.Substring | index.js:82-84 | JavaScript `substring`: both ends clamped to 0..length, swapped when the start is after the end |
| Text.RemoveFirst | index.js:82 | `replace` with a string pattern: the first occurrence is removed, a text without one is unchanged |
| Text.NatToString | index.js:111-112 | the decimal text of a number is non-empty, all digits, one digit exactly below ten, and has no leading zero |
| Text.ParseNatToString | index.js:327 | reading back a number's decimal text gives the number |
| Matcher.CourseAndTaskMatch | index.js:279-281 | the lower-cased course name equals the task's name |
| Matcher.CourseAndEventMatch | index.js:283-285 | the event's day and time equal the task's date and time |
| Matcher.FindTask | index.js:347 | the first pending task whose name matches the course, or the length when none does |
| Matcher.FindEventIndex | index.js:352 | the position of the first event on the task's date and time, or the length when there is none |
| Matcher.FindEvent | index.js:352 | `undefined` exactly when no event of the course is on the task's date and time; otherwise the first such event in the list |
| Polling.Visit | index.js:346-359 | one iteration of the course loop: the pending array and launches after one course |
| Polling.Cycle | index.js:343-361 | `startPolling`: the visits of the catalog's courses in order, each starting from the previous one's pending array |
| Polling.VisitSpec | index.js:346-359 | a course launches at most one task, the first its name matches, and does so exactly when one of its events is on that task's date and time; the launch carries that task and the first such event; only that task leaves the array |
| Polling.VisitShrinks | index.js:347-357 | a course only removes tasks, keeps the rest in order, and launches exactly what it removes |
| Polling.CycleShrinks | index.js:343-361 | a cycle keeps the survivors as an ordered subsequence, launches every removed task exactly once, and launches at most one task per course |
| Polling.CycleJustified | index.js:346-358 | every launch has a course whose name matches the task and whose events include the event, on the task's date and time |
| Polling.CycleNameMiss | index.js:347-348 | a task no course name matches keeps every copy in the pending array |
| Polling.RunShrinks | index.js:368-370 | the loop stops only when no task is pending or the snapshots are used up; it only shrinks the array, keeping order, and launches every removed task exactly once |
| Polling.RunNameMiss | index.js:368-370 | a task no course of any cycle matches is still pending, every copy of it, at the end |
| Polling.ContinueTrying | index.js:264-266 | poll again exactly while some task is pending |
| Polling.RunCycles | index.js:368-370 | the loop as a function: a cycle per snapshot while `continueTrying` holds |
| Polling.RunAdvance | index.js:368-370 | the run from snapshot i is one cycle followed by the run from snapshot i + 1 |
| Polling.RunDone | index.js:264-266 | the run makes no cycle once no task is pending or no snapshot is left |
| Polling.CycleKeepsValid | index.js:343-361 | a cycle keeps the scheduler's invariant: survivors form a subsequence of the initial tasks, and initial = pending + launched as multisets |
| Polling.Scheduler.constructor | index.js:364 | the scheduler starts with the loaded tasks and no launch, satisfying its invariant |
| Polling.Scheduler.StartPolling | index.js:343-361 | the array becomes the cycle's survivors, and the log gains the cycle's launches; the invariant is kept |
| Polling.Scheduler.Run | index.js:368-370 | the pending array, the log and the cycle count are those of the run; the invariant is kept |
| Placement.Attempt | index.js:306-311 | an attempt returns exactly when it reserved a secret and the finalisation succeeded, and then returns the cancellation link for that secret; otherwise it throws what the reservation threw, the `API Error` of the first error message, a TypeError for an empty error list, or what the finalisation threw |
| Placement.CancelUrlRoundTrip | index.js:310 | a cancellation link has the link shape and gives back its secret |
| Placement.CancelUrl | index.js:310 | the cancellation link built from the event id, the secret and the account |
| Placement.SecretOfRoundTrip | index.js:310 | every string of the link shape is the link of the secret it carries |
| Placement.CancelUrlInjective | index.js:310 | different secrets give different links for the same event and account |
| Placement.AthleteOutcome | index.js:306-311 | the outcome of `retryThen(1, …)` for the athlete at a position, against that athlete's replies |
| Placement.Partition | index.js:304-317 | the two lists of the athlete loop, athlete by athlete in task order |
| Placement.PlaceAthletes | index.js:301-317 | the loop's two lists are `Partition` of the task's athletes, which PartitionByOutcome ties, athlete by athlete, to each athlete's own retried outcome |
| Placement.PartitionExact | index.js:304-317 | sizes add up, and success and failed together hold exactly the task's athletes, as a multiset |
| Placement.PartitionOrdered | index.js:304-317 | each list keeps the athletes in task order |
| Placement.AthleteOutcomeShape | index.js:306-311 | a success is a cancellation link of the event; a failure has one error per allowed attempt |
| Placement.PartitionEntries | index.js:306-316 | every success entry carries a cancellation link of the event, and every failure entry one error per allowed attempt |
| Placement.PartitionByOutcome | index.js:304-317 | each athlete is in `success` with the link of its own retry, or in `failed` with the failures of its own retry; every entry of either list is some athlete with its own outcome |
| Placement.AthletePlacedIff | index.js:306-312 | an athlete is placed if and only if one of its allowed attempts both reserved and finalised |
| Placement.CellRangeRoundTrip | index.js:327 | the range of an athlete names column F of row index + 1 of its sheet |
| Placement.CellRangeInjective | index.js:327 | athletes with different indices are written to different cells |
| Placement.CellRange | index.js:327 | `${sheetName}!F${index+1}` |
| Placement.FailureValueRoundTrip | index.js:339 | the failure value starts with `Fehler `, and the failures are read back from it when none holds a comma |
| Placement.FailureValue | index.js:339 | `Fehler ` followed by the failures joined by commas, as the array renders in a template literal |
| Placement.SuccessWritesShape | index.js:335-337 | a success write names the athlete's row and carries the link |
| Placement.WriteBacks | index.js:334-340 | the writes of all successes with their links, then of all failures with their failure values |
| Placement.FailureWritesShape | index.js:338-340 | a failure write names the athlete's row and its value is `Fehler ` followed by the entry's failures joined by commas |
| Placement.WriteBacksCover | index.js:322-340 | exactly one write per athlete: successes first with their own links, then failures with `Fehler ${fails}`, each to the entry's own row |
| Placement.AthleteWriteBack | index.js:301-340 | the cell of each athlete's own row receives the link of its own retry, or `Fehler ` and the failures of its own retry |
| TaskList.Cell | index.js:173-176 | `row[k]`: the row's entry inside the row, `undefined` past its end |
| TaskList.Kept | index.js:170 | a row is kept unless its first cell is `x`; an empty row is kept |
| TaskList.AthleteOf | index.js:171-177 | the athlete object built from the given index and columns B to E of the row |
| TaskList.BelowHeader | index.js:169 | `values.slice(1)`: the rows below the header, nothing for an empty sheet |
| TaskList.KeptRows | index.js:169-179 | the athletes of the kept rows, the row at position p getting index p + 1 |
| TaskList.CollectAthletes | index.js:169-179 | the `forEach` pushes exactly the athletes of the kept rows, numbered by position |
| TaskList.KeptRowsIndexed | index.js:169-179 | every listed athlete reads the row its index names, with 1 <= index <= number of rows |
| TaskList.KeptRowsIncreasing | index.js:169-179 | athletes are listed in row order, with strictly increasing indices |
| TaskList.KeptRowsListed | index.js:170 | a row appears in the list if and only if its first cell is not `x` |
| TaskList.AthleteRowWrite | index.js:169-177 | an athlete was read from `values[index]`, sheet row index + 1, and its write-back range names that row |
| TaskList.ShapeSheet | index.js:150-183 | one iteration of the sheet loop: an error, nothing, or the sheet's task |
| TaskList.ShapeSheetCases | index.js:150-183 | a sheet throws exactly when its title has no second word, or when it is due and has no values; it becomes a task exactly when it is due and has a row below the header that is not struck out |
| TaskList.ShapeSheetTask | index.js:151-161 | a task carries the spreadsheet id and title; day and time are the title's first two words, which together with the rest join back into the title; the name is lower-case; the athletes are the kept rows, at least one |
| TaskList.PullErrorSticks | index.js:150-183 | an error among the sheets read so far is the error of the whole pull |
| TaskList.Pull | index.js:135-184 | the sheet loop as a function: the sheets' tasks in order, or the first error |
| TaskList.PullTasklist | index.js:135-184 | the loop's result is the reference `Pull`; PullInOrder and PullTasks show that it holds the task of every sheet that shapes to one, in sheet order, and nothing else, or the first error |
| TaskList.PullFails | index.js:150-183 | the pull fails exactly when some sheet throws, and then with the first such sheet's error |
| TaskList.PullTasks | index.js:150-183 | the tasks of a successful pull are exactly the sheets' tasks: each is some sheet's task, belongs to the spreadsheet and has an athlete, there are no more tasks than sheets, and every sheet's task is among them |
| TaskList.TaskSheetsSpec | index.js:150-183 | the positions of the sheets that become tasks are listed in increasing order, a position exactly when its sheet shapes to a task |
| TaskList.PullInOrder | index.js:150-183 | a successful pull holds one task per sheet that shapes to a task, the j-th task being that of the j-th such sheet |
| Capabilities.JsExtractText | index.js:80-85 | the extracted text never holds a comma and is at most the window width |
| Capabilities.ExtractValue | index.js:80-85 | a value written as `key:value,` at the key's first occurrence, with its comma inside the window, is extracted whole |
| Capabilities.ExtractNoComma | index.js:80-85 | a window without a comma after the key is stripped extracts the empty text |

## Left out

- HTTP traffic and page parsing in `Fetcher.setup`, `fetch` and `request` (index.js:198-240): network I/O. Their answers are inputs: the catalog and the event map per cycle, and the reservation replies per athlete and attempt.
- A failing catalog or availability query (index.js:345, 351): a rejected `fetch`, or a reply without `data`, throws out of `startPolling` and ends the whole run mid-cycle, after the courses already visited have spliced their tasks and launched. The model has no error for it. That state is the state of a run whose last snapshot holds only the courses visited before the failing query (no course for a failing catalog query), but the model does not report that the run was aborted.
- The Google Sheets and authentication calls (index.js:91-97, 136-143, 164-168, 322-336): foreign APIs. The sheets and their values are given. The write-back is modelled as the list of `(range, value)` writes, and its swallowed errors are dropped.
- `uuidv4` session creation (index.js:194-196): each athlete's session is implicit in the per-position replies.
- `btoa` and `JSON.parse`/`JSON.stringify` (index.js:84, 87-89, 253): library encoders. `jsextract` is modelled up to the text that `JSON.parse` would read. The request bodies of `placeAthlete` are not modelled.
- JavaScript `Date`: time zones, the calendar arithmetic of `setDate`, the hour and minute parsing in `getTaskDate`, the cutoff comparison, and `nextThreeDays` (index.js:110-113, 125-131, 145-148, 268-277). Each sheet carries the date `getTaskDate` would produce and the result of `date < cutoff`. An invalid date is never before the cutoff, so it arrives as not due.
- The `days` parameter of the availability query (index.js:350): it only filters what the remote side returns, which is an input here.
- The fire-and-forget `placeAthletes(...)` without `await` (index.js:357). A launch is an entry in the scheduler's log; interleaving with later cycles is not modelled.
- `console.log` output (index.js:319-320, 355).
- The top-level wiring (index.js:363-366). Only the loop `while (continueTrying(tasks))` is modelled.
- Polling.Scheduler.Run: the source loop runs until no task is pending, possibly forever. The model runs one cycle per given snapshot of the remote answers and also stops when the snapshots run out.
- JavaScript counts string positions and lengths in UTF-16 code units, and the model counts Unicode scalar values. The 30-character window of `jsextract` (index.js:82) differs from JavaScript's when the text holds characters outside the Basic Multilingual Plane.
- Text.Lower: `toLowerCase` is modelled on ASCII letters only. Other characters are left unchanged, where JavaScript maps the whole of Unicode.
- Text.NatToString: the decimal rendering covers integers only. Exponent notation for numbers of 1e21 and above, and fractional values, are not modelled.
- RetryRunner.RetryThen: a thrown value is kept as the text the failure write-back renders. For an `Error` that text is `Name: message`.
- Placement.Attempt: the finalisation reply is either an id, a list of error messages, or a thrown text. A reply with neither `errors` nor `data` would throw a TypeError inside the attempt, and is covered by `FinalizeThrew`.
