# Jira time report: aggregation engine

A Dafny model of the aggregation engine of `logged_hours.py`, a script that
reports, for a date range, the hours team members logged in Jira next to the
original estimates of the issues they worked on.

The model covers:

- the **worklog fold** of `process_worklogs`. Every issue of the search result
  comes with the outcome of its worklog request: the entries, or nothing when
  the request failed. The fold turns this into four tables:
  - `user_hours`, hours per author;
  - `user_names`, the display name per author;
  - `issue_hours`, hours per issue;
  - `user_issue_hours`, hours per (author, issue) cell.
- **estimate attribution**, `calculate_user_estimates` with
  `get_estimate_hours`. Each user is credited with the full original estimate
  of every issue in their row of `user_issue_hours`.
- the **date-range normalisation** of `parse_date_range`.
- the **JQL query** built by `build_jql_query`.

Modules:

- `Options`: the optional value.
- `Sums`: an exact sum over the values of a map, and how updates change it.
- `Text`: `str.replace` with a one-character pattern and `str.join`. It also
  has `str.split`, which the program does not call; it serves as the inverse
  that reads a joined project list back.
- `Worklogs`: the data model and the fold, as recursive functions. The nested
  loops of the source are also written as loops (`ProcessWorklogsLoop`,
  `ProcessIssueLoop`) and proved equal to the fold.
- `WorklogProperties`: reference definitions over the run's *contributions*.
  A contribution is one counted entry: its issue key, author, name and hours.
  The contributions of a run are listed in processing order. The module
  proves that the per-user tables summarise them exactly.
- `RunProperties`: the properties of a whole run, stated in terms of issues
  and entries.
- `Estimates`, `DateRange`, `Jql`: the other three operations.

Modelling choices:

- Durations stay integer seconds. Hours are the exact `real` `seconds / 3600`,
  so sums are exact and `issue_total_hours > 0` has its mathematical meaning.
- Instants are integers, normalised to UTC. `datetime.fromisoformat` is a
  parameter `parse: string -> Option<Instant>`, where `None` stands for the
  `ValueError` it raises. The `'Z'` to `'+00:00'` rewrite that comes before
  parsing is modelled concretely (`Text.ReplaceAll`).
- The worklog request is not modelled. Each issue carries its result as
  `Option<seq<Worklog>>`, and `None` stands for a non-200 answer.
- `strftime("%Y-%m-%d")` is a parameter of `Jql.BuildJqlQuery`.

Two behaviours of the code worth noting:

- A user with no qualifying ticket gets **no** entry in `user_estimates`.
  The code only creates an entry via `+=` when an estimate above 0 is added.
  The report reads the table with `.get(user_id, 0)`.
- Whether the end bound is at midnight is decided from hour, minute and
  second only. An end of `00:00:00.5` is also moved to `23:59:59.999999`.

## Model

| member | source | states |
|---|---|---|
| `Text.Join` | logged_hours.py:117 | `sep.join(parts)` gives `""` for no parts. Otherwise the result starts with the first part, and its length is the parts' total length plus one separator per gap. |
| `Text.ReplaceAll` | logged_hours.py:213 | After `replace('Z', '+00:00')` no `'Z'` is left. A string without `'Z'` is unchanged. The length grows by 5 for every `'Z'`. |
| `Worklogs.Hours` | logged_hours.py:221 | An entry's hours times 3600 equal its seconds. The hours are positive exactly when the seconds are, and zero exactly when they are. |
| `Worklogs.StartedInstant` | logged_hours.py:213 | A timestamp without `'Z'` goes to the parser unchanged. |
| `Worklogs.Counted` | logged_hours.py:212-218 | An entry whose start does not parse is never counted, and nothing is counted in an empty range. In a non-empty range, an entry whose start parses to either bound is counted. |
| `Worklogs.ContributionEffect` | logged_hours.py:223-225 | Applying one counted entry (`ApplyContribution`) does four things. The author's total grows by the entry's hours. The author's name becomes the entry's display name. The (author, issue) cell grows by the hours, starting from 0. Each table gains at most the author as a key. Every other user, and the author's other cells, stay as they were. |
| `Worklogs.ApplyEntry` | logged_hours.py:218-226 | One pass of the inner loop. An entry that is not counted changes nothing. A counted entry adds exactly its hours to the issue's running total and gives its author a total. |
| `Worklogs.EntryEffect` | logged_hours.py:210-226 | An entry changes nothing when its start does not parse or lies outside `[start, end]`. Otherwise it adds its hours to three places: its author's total, the (author, issue) cell and the issue's running total. It also records the author's display name. No other user or cell changes. |
| `Worklogs.CountedInMembers` | logged_hours.py:210-218 | The contributions of an issue are exactly its entries whose start parses and lies in the inclusive range. |
| `Worklogs.ProcessEntries` | logged_hours.py:207-226 | The inner loop has the same effect as keeping the counted entries and then applying them in order. The running issue total is the sum of their hours. |
| `Worklogs.ProcessIssue` | logged_hours.py:194-229 | A failed worklog request leaves all four tables as they were. Otherwise the counted entries update the user tables. The issue's total is stored (overwriting) only when it is strictly positive. Other issue keys are untouched. |
| `Worklogs.ProcessAll` | logged_hours.py:194-232 | After any prefix of the issues, the user tables are the fold of that prefix's contributions. Every issue total in the result is strictly positive, or was already in the starting table with that value. |
| `Worklogs.ProcessWorklogs` | logged_hours.py:185-234 | `process_worklogs` starts from empty tables. Its user tables are the fold of all of the run's contributions, and every stored issue total is strictly positive. |
| `Worklogs.ProcessWorklogsLoop` | logged_hours.py:185-234 | The outer loop over the issues computes exactly the functional fold. |
| `Worklogs.ProcessIssueLoop` | logged_hours.py:195-229 | The loop over one issue's entries, followed by the guarded store of its total, computes exactly one step of the fold. |
| `WorklogProperties.LastName` | logged_hours.py:219-224 | The name kept for a user is carried by one of that user's contributions, and no later contribution is by that user. |
| `WorklogProperties.FoldSummarises` | logged_hours.py:219-226 | Folding contributions into empty tables gives: keys equal to the authors; totals, cells and last names equal to the reference sums; each user's total equal to the sum of their cells; each issue's column summing to that issue's hours. |
| `RunProperties.RunSummarises` | logged_hours.py:185-234 | The user tables of a whole run summarise the run's contributions, as above. |
| `RunProperties.ContributionsMembers` | logged_hours.py:194-218 | The run's contributions are exactly those of the counted entries of issues whose worklogs were fetched. |
| `RunProperties.UserPresence` | logged_hours.py:218-225 | A user has a total, a name and a row exactly when one of their entries is counted. Cell (u, k) exists exactly when an entry of u in issue k is counted, whatever its duration. |
| `RunProperties.UserTotalIsSumOfCells` | logged_hours.py:223-225 | Every user's total is the sum of that user's (user, issue) cells. |
| `RunProperties.UserNameIsLastWritten` | logged_hours.py:224 | A user's name is the display name of their last counted entry in processing order (last write wins). |
| `RunProperties.KeyHoursOfRun` | logged_hours.py:207-226 | With unique issue keys, the hours recorded against an issue's key are that issue's in-range total. |
| `RunProperties.KeyHoursOfUnknownKey` | logged_hours.py:219-226 | A key that no issue of the run carries has no hours recorded against it. |
| `RunProperties.IssueHoursOfContributions` | logged_hours.py:226-229 | With unique keys, a key is in `issue_hours` exactly when its contributed hours are strictly positive, and then the entry equals those hours. |
| `RunProperties.IssueHoursPresence` | logged_hours.py:202-229 | With unique keys, an issue is in `issue_hours` exactly when its worklogs were fetched and its in-range total is strictly greater than 0. The entry is that total. No other key appears. |
| `RunProperties.IssueTotalIsSumOfCells` | logged_hours.py:223-229 | With unique keys, every recorded issue total is the sum over users of their cells for that issue. |
| `RunProperties.ZeroTotalIssueStillTouched` | logged_hours.py:223-229 | An issue whose counted entries sum to 0 is absent from `issue_hours`. Each author of such an entry still gets a total and a cell for the issue. |
| `RunProperties.UncountedEntryChangesNothing` | logged_hours.py:212-218 | Inserting, anywhere, an entry whose start does not parse or lies out of range leaves all four tables unchanged. |
| `RunProperties.FailedFetchChangesNothing` | logged_hours.py:200-204 | Inserting, anywhere, an issue whose worklog request failed leaves all four tables unchanged. The issues after it are still processed. |
| `RunProperties.ZuluEntryAtBoundIsCounted` | logged_hours.py:213-218 | A `Z`-suffixed start is parsed as its `+00:00` spelling. An entry exactly at either bound is counted. |
| `Estimates.EstimateHours` | logged_hours.py:257-261 | A null or zero estimate is worth 0 hours. The hours are positive exactly when the seconds are, and hours times 3600 equal the seconds. |
| `Estimates.IssueLookup` | logged_hours.py:240 | The lookup has exactly the issues' keys. Each key maps to the last issue carrying it. |
| `Estimates.SumUserEstimate` | logged_hours.py:244-252 | One user's sum is the total estimate of their tickets that are in the lookup with a positive estimate. The flag says whether there is any such ticket. |
| `Estimates.CalculateUserEstimates` | logged_hours.py:237-254 | A user gets an entry exactly when some ticket in their row is in the lookup with a positive estimate. The entry is the sum of those estimates and is strictly positive. |
| `Estimates.SharedIssueCountsInFull` | logged_hours.py:248-252 | An issue with estimate E in the rows of several users adds the full E to each of their sums, not a share. |
| `DateRange.AssumeUtc` | logged_hours.py:90-94 | A naive bound gets offset 0 (UTC). An aware bound is unchanged. Date and time of day are kept. |
| `DateRange.InclusiveEnd` | logged_hours.py:96-98 | An end whose hour, minute and second are 0 becomes the last microsecond of the same day. Any other end is unchanged. A valid end never moves earlier. |
| `DateRange.NormalizeRange` | logged_hours.py:90-100 | Both normalised bounds keep their dates. A naive bound gets UTC (offset 0), and an aware bound keeps its offset. The start keeps its time of day, even at midnight, and an aware start is unchanged. A midnight end becomes the last microsecond of its day. Any other end keeps its time of day, and is unchanged if it is aware. |
| `DateRange.ParseDateRange` | logged_hours.py:84-105 | The range is produced exactly when both texts parse, and it is then their normalisation. |
| `DateRange.NormalizeIdempotent` | logged_hours.py:90-98 | Normalising a normalised range changes nothing. |
| `DateRange.NormalizedEndCoversDay` | logged_hours.py:96-98 | A midnight end, once made aware and inclusive, has a time of day no earlier than any valid time on its date. This compares local time fields only, not offsets. An end off midnight keeps its time of day. |
| `Jql.DateClause` | logged_hours.py:123 | The worklog date condition is `worklogDate >= '`, then the start day, then `' AND worklogDate <= '`, then the end day, then a closing `'`. Its length is 39 plus that of the two days, and both days can be read back from their positions. |
| `Jql.ProjectFilter` | logged_hours.py:112-117 | There is one project part exactly when some key is given. A single key gives `project = ` followed by the key. Several keys give `project in (`, then their comma-joined list, then `)`. |
| `Jql.BuildJqlQuery` | logged_hours.py:108-130 | The query takes one of three shapes, with the date clause always last: `(worklogDate >= 'S' AND worklogDate <= 'E')` with no keys; `project = K AND (...)` with one key; `project in (A,B,...) AND (...)` with several keys, comma-joined in order. |
| `Jql.ProjectListRoundTrip` | logged_hours.py:116-117 | For several comma-free project keys, splitting the `project in (...)` list at commas gives the keys back, in order. |

## Left out

- HTTP is not modelled: `fetch_all_issues` (search pagination, exit on a non-200 answer) and the worklog `requests.get`. The search result is an input sequence, and each worklog request is represented only by its outcome.
- Configuration import and validation, the module-level credentials and settings, and `main` are left out. They are environment and process-exit plumbing.
- `datetime.fromisoformat` and `strftime` are not modelled; they are library calls, and the model takes them as parameters.
- A worklog timestamp without an offset is not modelled. It would parse to a naive `datetime`, and comparing it with the aware bounds raises an uncaught `TypeError` that ends the run. The parser parameter yields UTC-normalised instants only.
- Missing JSON fields (`KeyError`) and non-integer `timeSpentSeconds` or `timeoriginalestimate` values are left out. The datatypes assume well-formed records.
- Worklog responses are taken as one page. The source reads only the first page, so the model matches it.
- Turning a normalised `DateTime` bound into the UTC instant used by the worklog comparison is not modelled. `Worklogs.Range` takes the instants as given, so no lemma connects the midnight rule to the comparison. In particular, it is not proved that every worklog of the end day falls inside the range.
- Floating-point rounding is left out. Hours are exact reals, so a float sum that rounds to a different value is not represented.
- `generate_report`, `format_time`, the percentage and accuracy figures, and `save_report` are left out. They are text layout and file output.
- Progress and query printing are left out.
- `get_story_points` is left out. It returns `None` and is never used.
- Story/subtask estimate reconciliation and comment-keyword deviation scanning are not part of this model. `logged_hours.py` contains neither, and its search requests no status, parent or subtask fields.
- Idempotence of the aggregation has no lemma. Every operation is a deterministic function, so two runs on the same input are equal by construction.
- `Estimates.SumUserEstimate`: sums a user's estimates locally and stores the sum once, instead of `+=` into the shared table. This is equivalent because each user is visited once, so the table has no entry for them beforehand.
