# GitLab time report — verified model of its core

The program lists every project a GitLab access token can see, asks for the
issues assigned to one user in each project, adds up the time logged on those
issues, and prints a report: one line per project with time, one indented line
per issue with time, and a grand total. This project models, in Dafny, the
logic between the HTTP calls and the console in `GitLab-Time-Report/Program.cs`:

- `FormatTimeSpent`: seconds rendered as `{hours}h{MM}m` (module `TimeFormat`,
  `time_format.dfy`), with C#'s truncating `/` and `%`, `int.ToString()` and
  `String.PadLeft` written out;
- the paging loop of `GetProjectsForUser` (module `ProjectLister`,
  `project_lister.dfy`): the server is a sequence of page answers, answer
  `n - 1` being the one to the request for page `n`, each either a page of
  decoded projects or a failed status;
- the record fold of `GetTimeSpentForProject` (module `TimeAggregator`,
  `time_aggregator.dfy`): a loop over decoded issue records updating the total
  and the issue dictionary in place, specified by a left fold `Aggregate` of a
  one-record `Step`;
- the result loop of `Main` (module `Reporter`, `reporter.dfy`), each
  `Console.WriteLine` appending a string to a sequence of lines, and the whole
  run `RunReport`: listing, one aggregation per project with results taken by
  index, report.

Shared values (`Option`, `Result`, the failures, `Project`) are in
`common.dfy`. Every failure the program lets escape as an exception, except those of JSON
decoding and the overflow of a 32-bit cast (see "Left out"), is an `Err` of `Result`: a failed page of the listing, a failed issues request, and
the `(int)` cast of an absent time value under an integer issue number.

The code differs from a natural reading of it in three places, and the model
follows the code: a record without an integer `iid` still adds its time to the
project total (lines 149-153 run before the `iid` test); a repeated `iid` takes
the title of its LAST record (line 173 writes `descr` every time); and a record
with an integer `iid` but no integer `total_time_spent` does not count as 0 but
aborts the aggregation, since `(int)timeSpentToken` throws on a missing token
(lines 173 and 177).

## Model

| member | source | states |
|---|---|---|
| `TimeFormat.TruncDivision` | GitLab-Time-Report/Program.cs:79-80 | C#'s `/` and `%` on `int`: dividend = divisor * quotient + remainder, the remainder in [0, b) for a non-negative dividend and in (-b, 0] for a negative one (truncation toward zero) |
| `TimeFormat.TruncDiv` | GitLab-Time-Report/Program.cs:79-80 | C#'s `/` on `int` for a positive divisor: the quotient of the magnitudes, negated for a negative dividend, i.e. truncated toward zero (a definition; `TruncDivision` states its properties) |
| `TimeFormat.TruncRem` | GitLab-Time-Report/Program.cs:80 | C#'s `%` on `int`: the dividend minus divisor times `TruncDiv`, so it keeps the dividend's sign (a definition; `TruncDivision` states its properties) |
| `TimeFormat.NatToString` | GitLab-Time-Report/Program.cs:82 | `ToString()` of a non-negative int is at least one decimal digit, with no leading zero, one digit exactly below 10 |
| `TimeFormat.IntToString` | GitLab-Time-Report/Program.cs:82 | `ToString()` of an `int`: at least one character, starting with '-' exactly when the number is negative (the digits of its magnitude follow) |
| `TimeFormat.NatToStringRoundTrip` | GitLab-Time-Report/Program.cs:82 | reading the digits back gives the number |
| `TimeFormat.IntToStringRoundTrip` | GitLab-Time-Report/Program.cs:82 | `ToString()` of any int reads back as that int (optional '-' then digits) |
| `TimeFormat.PadLeft` | GitLab-Time-Report/Program.cs:82 | `PadLeft(2, '0')`: result length is max(length, width), the original string is its suffix, everything before it is the pad character |
| `TimeFormat.MinutesField` | GitLab-Time-Report/Program.cs:80-82 | a minute count below 60 is rendered as exactly two digits whose value is that count |
| `TimeFormat.Render` | GitLab-Time-Report/Program.cs:82 | the interpolated string itself: `ToString()` of the hours, 'h', `ToString()` of the minutes padded on the left with '0' to two characters, 'm' (a definition; `RenderShape` and `FormatTimeSpentSigns` state its shape) |
| `TimeFormat.FormatTimeSpent` | GitLab-Time-Report/Program.cs:77-84 | `FormatTimeSpent` itself: hours = seconds / 3600 and minutes = (seconds % 3600) / 60 with C#'s truncating operators, rendered by `Render` (a definition; the lemmas below state what it produces) |
| `TimeFormat.WholeMinutes` | GitLab-Time-Report/Program.cs:79-80 | minutes < 60 and hours*3600 + minutes*60 = seconds - seconds%60: the seconds are dropped, not rounded |
| `TimeFormat.FormatTimeSpentOfNat` | GitLab-Time-Report/Program.cs:79-80 | for a non-negative count the truncating division and remainder agree with floor division, so the text renders seconds/3600 and (seconds%3600)/60 |
| `TimeFormat.RenderShape` | GitLab-Time-Report/Program.cs:82 | the interpolated string is hours digits (no leading zero), 'h', two minute digits, 'm', each field reading back as its value |
| `TimeFormat.FormatTimeSpentShape` | GitLab-Time-Report/Program.cs:77-84 | for seconds >= 0 the result is dec(seconds/3600) + "h" + two digits of (seconds%3600)/60 + "m", the minutes below 60, seconds truncated |
| `TimeFormat.FormatTimeSpentExamples` | GitLab-Time-Report/Program.cs:77-84 | 0 and 59 give "0h00m", 60 gives "0h01m", 3599 gives "0h59m", 3600 gives "1h00m", 3661 gives "1h01m" |
| `TimeFormat.FormatTimeSpentNegativeExamples` | GitLab-Time-Report/Program.cs:77-84 | negative counts, truncated toward zero, for example: -30 gives "0h00m", -61 gives "0h-1m", -3600 gives "-1h00m" |
| `TimeFormat.PaddedSign` | GitLab-Time-Report/Program.cs:82 | the padded minutes field has at least two characters and starts with '-' exactly when the minutes are negative |
| `TimeFormat.FieldRanges` | GitLab-Time-Report/Program.cs:79-80 | the minutes lie strictly between -60 and 60; the hours are negative exactly when seconds <= -3600; for a negative count neither field is positive, for a non-negative one neither is negative |
| `TimeFormat.FormatTimeSpentSigns` | GitLab-Time-Report/Program.cs:77-84 | for any count: 'h' right after the hours field and 'm' last, the text starts with '-' exactly when the hours are negative and the minutes field starts with '-' exactly when the minutes are; so for a negative count each field carries '-' exactly when it is not zero |
| `ProjectLister.FirstEndFrom` | GitLab-Time-Report/Program.cs:110-114 | the first answer at or after a given page that is a failure or holds fewer than 100 projects (the end of the answers when none is); no answer before it is one |
| `ProjectLister.EndsListing` | GitLab-Time-Report/Program.cs:99-114 | an answer ends the listing when it is a failed status (line 99 throws) or a page of fewer than 100 projects (line 111 breaks) (a definition; `FirstEndFrom` and `LastPage` use it) |
| `ProjectLister.LastPage` | GitLab-Time-Report/Program.cs:93-118 | the last page requested ends the listing and every page before it is a successful page of at least 100 projects |
| `ProjectLister.ListFrom` | GitLab-Time-Report/Program.cs:93-118 | the loop read recursively from a page: a failed answer aborts with that page's number, a page under 100 projects ends with its projects, a full page is followed by the listing from the next (a definition; see the lemmas) |
| `ProjectLister.ListFromFailure` | GitLab-Time-Report/Program.cs:100-114 | the listing from a page fails exactly when the first answer that ends it is a failure, and then with that page's number |
| `ProjectLister.ListProjects` | GitLab-Time-Report/Program.cs:86-121 | what `GetProjectsForUser` returns: the listing from page 1 (a definition; `ListProjectsClosedForm`, `ListFromFailure` and `ListingLength` state its properties, `GetProjectsForUser` is proved equal to it) |
| `ProjectLister.GetProjectsForUser` | GitLab-Time-Report/Program.cs:86-121 | the loop returns the listing `ListProjects`, and requests exactly pages 1, 2, ..., up to the first short or failed page, with consecutive numbers |
| `ProjectLister.ListFromFullPage` | GitLab-Time-Report/Program.cs:108-117 | after a successful page of at least 100 projects the listing goes on with the next page: this page's projects, then those of the rest, or the rest's failure |
| `ProjectLister.ListFromLastPage` | GitLab-Time-Report/Program.cs:100-114 | a failed page is the last one requested and aborts the listing with its page number; a short page is the last one and ends it with its projects |
| `ProjectLister.ConcatAppend` | GitLab-Time-Report/Program.cs:108 | appending the projects of two runs of pages gives the projects of the joined run |
| `ProjectLister.ListFromClosedForm` | GitLab-Time-Report/Program.cs:93-118 | the listing from any page is the in-order concatenation of the pages up to the first one that ends it, or, if that one failed, that failure alone |
| `ProjectLister.ListProjectsClosedForm` | GitLab-Time-Report/Program.cs:93-118 | the listing is pages 1..k concatenated in order, k the first page with fewer than 100 items; every page before k has at least 100; a failure at k aborts with no partial list |
| `ProjectLister.FullPageRequestsNext` | GitLab-Time-Report/Program.cs:111-117 | a page of exactly 100 projects after full pages is never the last one: the next page is requested |
| `ProjectLister.ConcatLength` | GitLab-Time-Report/Program.cs:108 | pages all of one size but the last hold size*(pages-1) plus the last page's projects |
| `ProjectLister.ListingLength` | GitLab-Time-Report/Program.cs:88-118 | with full pages of exactly 100 before the last, the listing succeeds and holds 100*k plus the last page's count (100, 100, 37 give 237) |
| `TimeAggregator.Step` | GitLab-Time-Report/Program.cs:144-178 | one record fails exactly when it has an integer iid and no integer time; otherwise it adds its time to the total, changes no entry but its own, and keeps the dictionary's order without repeats |
| `TimeAggregator.TimeOf` | GitLab-Time-Report/Program.cs:149-153 | the seconds a record adds to the total: its integer time, or 0 when the time is absent or not an integer (a definition; `AggregateTotal` uses it) |
| `TimeAggregator.TitleOf` | GitLab-Time-Report/Program.cs:158-163 | the title a keyed record writes into its entry: its string title, or "" when the title is absent or not a string (a definition; `AggregateEntries` uses it) |
| `TimeAggregator.Fails` | GitLab-Time-Report/Program.cs:171-177 | a record makes the fold throw when it has an integer iid and no integer time, the `(int)timeSpentToken` casts of lines 173 and 177 (a definition; `Step` and `AggregateFailure` use it) |
| `TimeAggregator.Aggregate` | GitLab-Time-Report/Program.cs:140-181 | the `foreach` as a left fold of `Step` from a zero total and an empty dictionary, stopping at the first failing record (a definition; `AggregateFailure`, `AggregateKeys`, `AggregateTotal`, `AggregateEntries` and `AggregateTotalSplit` state its properties) |
| `TimeAggregator.GetTimeSpentForProject` | GitLab-Time-Report/Program.cs:139-183 | the in-place loop over the records returns the fold `Aggregate` |
| `TimeAggregator.AggregateStopsAtFailure` | GitLab-Time-Report/Program.cs:140-178 | once a prefix of the records fails, the whole aggregation fails with that failure |
| `TimeAggregator.AggregateFailure` | GitLab-Time-Report/Program.cs:144-178 | the aggregation fails exactly when some record has an integer iid and no integer time, and then with the iid of the first such record |
| `TimeAggregator.AggregateKeys` | GitLab-Time-Report/Program.cs:155-178 | the dictionary's keys are exactly the integer iids that occur, each listed once in its order |
| `TimeAggregator.AggregateTotal` | GitLab-Time-Report/Program.cs:139-153 | the total is the sum of the integer times of all records, including those with no integer iid |
| `TimeAggregator.AggregateEntries` | GitLab-Time-Report/Program.cs:155-178 | each key's seconds are the sum of the times of all records with that iid, its title that of the last such record ("" when not a string) |
| `TimeAggregator.AggregateTotalSplit` | GitLab-Time-Report/Program.cs:149-178 | the total is the sum of the dictionary's seconds plus the times of the records with no integer iid |
| `TimeAggregator.SumSecondsUpdate` | GitLab-Time-Report/Program.cs:171-178 | overwriting one entry changes the sum of the dictionary's seconds by that entry's difference only |
| `Reporter.PrintIssues` | GitLab-Time-Report/Program.cs:62-66 | the inner loop emits the issue lines of the dictionary, `IssueLines` |
| `Reporter.IssueLines` | GitLab-Time-Report/Program.cs:63-66 | the inner `foreach` as a function: for each key in the dictionary's order, its `IssueLine` when its seconds are above zero (a definition; `IssueLinesExactly` and `IssueLinesCount` state its properties) |
| `Reporter.ProjectBlock` | GitLab-Time-Report/Program.cs:55-66 | the lines of one project: none for a zero total (the `continue`), otherwise its `ProjectLine` followed by its `IssueLines` (a definition; `PrintProject` is proved equal to it) |
| `Reporter.Sections` | GitLab-Time-Report/Program.cs:50-67 | the result loop's lines: the `ProjectBlock`s in list order (a definition; `ProjectLinesInOrder`, `SectionsSnoc` and `ZeroTotalProjectOmitted` state its properties) |
| `Reporter.ReportedTotal` | GitLab-Time-Report/Program.cs:49-57 | the grand total the loop accumulates: the sum of the non-zero project totals (a definition; `ReportedTotalIsSum` relates it to the sum of all totals) |
| `Reporter.ReportLines` | GitLab-Time-Report/Program.cs:49-70 | all printed lines: the `Sections`, an empty line and the grand total's `TotalLine` (a definition; `PrintReport` is proved equal to it) |
| `Reporter.ProjectLine` | GitLab-Time-Report/Program.cs:60 | the text `Project: {name}, Time Spent: {FormatTimeSpent(seconds)}` (a definition; `ProjectLineIsProjectLine` and `ProjectLinesInOrder` use it) |
| `Reporter.IssueLine` | GitLab-Time-Report/Program.cs:65 | the text: a tab, ` Time Spent: `, the formatted seconds, ` `, a vertical bar, ` Issue: `, `ToString()` of the iid, ` - `, the title (a definition; `IssueLinesExactly` uses it) |
| `Reporter.TotalLine` | GitLab-Time-Report/Program.cs:70 | the text `Total time spent: {FormatTimeSpent(total)}` (a definition) |
| `Reporter.PrintProject` | GitLab-Time-Report/Program.cs:57-66 | one turn for a project with a non-zero total emits its project line followed by its issue lines, `ProjectBlock` |
| `Reporter.SectionsSnoc` | GitLab-Time-Report/Program.cs:50-67 | one more turn of the result loop appends exactly that project's block, and adds its total to the grand total only when it is not zero |
| `Reporter.PrintReport` | GitLab-Time-Report/Program.cs:49-70 | the result loop emits `ReportLines`: the blocks of the projects in list order, an empty line, the grand total line |
| `Reporter.ReportedTotalIsSum` | GitLab-Time-Report/Program.cs:49-57 | the grand total, the sum of the printed (non-zero) project totals, equals the sum of all project totals |
| `Reporter.ZeroTotalProjectOmitted` | GitLab-Time-Report/Program.cs:55 | a project whose total is 0 leaves no trace: the report equals the report of the list without it |
| `Reporter.IssueLinesExactly` | GitLab-Time-Report/Program.cs:63-66 | a line is an issue line of a project exactly when it is the line of one of its entries with more than 0 seconds |
| `Reporter.IssueLinesCount` | GitLab-Time-Report/Program.cs:63-66 | with no key listed twice, there are exactly as many issue lines as entries with more than zero seconds: one line per shown entry, none repeated |
| `Reporter.AggregateIssueLineCount` | GitLab-Time-Report/Program.cs:63-66 | for the dictionary the fold builds, the issue lines number exactly its entries with more than zero seconds |
| `Reporter.ProjectLinesInOrder` | GitLab-Time-Report/Program.cs:50-60 | the project lines of the report are those of the projects with a non-zero total, one each, in list order |
| `Reporter.TrailerHasNoProjectLine` | GitLab-Time-Report/Program.cs:69-70 | neither the empty line nor the grand total line is a project line |
| `Reporter.CollectTimes` | GitLab-Time-Report/Program.cs:36-46 | the joined per-project tasks succeed exactly when every task does, and then give each project's time at its own index |
| `Reporter.GetProjectTime` | GitLab-Time-Report/Program.cs:123-130 | one project's task: a failed issues request fails with that project's id, a successful one gives the fold of its records |
| `Reporter.ProjectTimeOf` | GitLab-Time-Report/Program.cs:123-183 | one project's task from the answer to its issues request: a failed status gives `IssuesRequestFailed` with the project id (line 130), a successful one the fold `Aggregate` of its records (a definition; `GetProjectTime` is proved equal to it) |
| `Reporter.CollectStopsAtFailure` | GitLab-Time-Report/Program.cs:46 | a failing task among the first projects makes the join fail with that failure |
| `Reporter.CollectFirstFailure` | GitLab-Time-Report/Program.cs:40-46 | a failed join carries the failure of the first project in list order whose task fails, every task before it succeeding |
| `Reporter.GetProjectTimes` | GitLab-Time-Report/Program.cs:36-46 | the fan-out loop, one task per project in list order, returns the join `CollectTimes` |
| `Reporter.RunReport` | GitLab-Time-Report/Program.cs:31-70 | the run lists the projects, runs one task per project, matches results by index and returns `Report`: the lines, or the first failure |
| `Reporter.Report` | GitLab-Time-Report/Program.cs:31-70 | the outcome of the whole run: the listing's failure, else the first failing project task's failure, else the `ReportLines` of the projects and their times (a definition; `ReportFails` states when it fails, `RunReport` is proved equal to it) |
| `Reporter.ReportFails` | GitLab-Time-Report/Program.cs:31-46 | a run fails, printing nothing, exactly when the listing fails or the task of some listed project fails |

## Left out

- HTTP and configuration: `HttpClient`, the request URLs and headers, user secrets and `int.Parse(args[0])` are I/O and library glue. The answers of the server are inputs: the page answers of the listing and a function `issuesOf` from project id to the answer of that project's issues request; the user id is implicit in that function.
- JSON decoding (`JsonConvert.DeserializeObject`, `JArray.Parse` at line 136, the `(JObject)` cast at line 142) is library code; the model starts from decoded projects and decoded issue records. A structurally invalid payload, which throws there (or, as a `null` list, in `AddRange` at line 108), is not modelled.
- `TimeValue.Missing` stands for a `total_time_spent` that is absent or of any non-integer token type. A `time_stats` that is present but not an object (a JSON `null` included, which `?.` does not skip) makes the indexer at line 144 throw, even for a record with no `iid`; the model reads that record's time as `Missing` and, without an `iid`, carries on. Newtonsoft's `(int)` cast converts some non-integer tokens (floats, numeric strings); that library behaviour is not visible here, so under an integer iid every non-integer time is a failure in the model.
- `CollectTimes`: the issues answers are a function of the project id, so two listed projects with the same id get the same answer, whereas the program sends one independent request per listed project (lines 40 and 126). No lemma depends on this.
- `Task.WhenAll` and the concurrent fan-out (line 46) are modelled as a sequential loop; the tasks share no state, and when several fail, the one reported is the first in list order.
- Console colours and `Console.ReadLine` are left out. The text of each line is modelled as written, whitespace included.
- The .NET `Dictionary` enumeration order is not specified by .NET; the model fixes it to the order in which keys were first added (`Breakdown.order`). The code does not guarantee that order.
- `IntToString` writes a negative sign as '-'. `int.ToString()` and the interpolation use the current culture's `NumberFormatInfo.NegativeSign`, which some cultures set to another character (U+2212); that only affects negative counts.
- C# `int` is 32 bits: the accumulators wrap unchecked, and the explicit `(int)` casts of a token (the time at lines 152, 173 and 177, the `iid` at lines 171-177) throw an `OverflowException` for a value outside the 32-bit range, even for a record with no `iid`. The model uses unbounded integers throughout, so it neither wraps nor fails there: totals beyond 2^31 - 1 seconds and out-of-range tokens are not modelled.
- `FormatTimeSpentShape`: the shape is proved for non-negative counts only. `FormatTimeSpent` itself is modelled for negative counts too, which the report can reach when a total is negative: the division truncates, and each field carries its own '-' exactly when it is not zero (`FormatTimeSpentSigns`; for example -61 gives "0h-1m", -3600 gives "-1h00m", -30 gives "0h00m", `FormatTimeSpentNegativeExamples`).
- A server that answers full pages forever (the loop would never end) is excluded by the precondition `EventuallyEnds`.
- A `null` project name (which C# interpolates as empty) is not modelled; names are strings.
- The unused `Issue` and `TimeStats` classes (lines 193-203) are not modelled.
