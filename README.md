# block_timestat report logic, modelled in Dafny

This project models the report logic of the Moodle time-on-task block (`block_timestat`). That logic lives in `locallib.php`. The report shows how long each user spent in a course, over a selected day, activity, action and group. The model covers:

- **Duration formatting** (`Duration`): `block_timestat_seconds_to_stringtime` splits a second count into days, hours, minutes and seconds. It prints `<n><suffix>` segments, the higher units only when non-zero and the seconds always. `Decimal` models PHP's integer-to-text conversion, and `Duration` also holds a reader for the formatted text, used to prove that formatting loses nothing.
- **Filter construction** (`LogFilter`, `Report`): `block_timestat_build_logs_array` does three things.
  - It resolves the group through the per-course memo kept in the user's session (`Report.Session`, a class whose `currentGroup` map the method updates).
  - It builds the ordered list of WHERE fragments and the named-parameter map, step by step.
  - It writes each fragment's SQL text and joins the texts with `" AND "` into one selector.
  - It hands that selector to `block_timestat_get_logs`.
- **Selector post-processing** (`Selector`): `block_timestat_get_logs` receives the joined selector.
  - On non-mysqli databases it rewrites the outer alias `l.` to the inner `l2.`. Only when the rewritten selector is non-empty does it put `" AND "` in front and, when no user is given, append the positive-time condition. An empty selector stays empty, without that condition.
  - On mysqli it always writes "WHERE " before the selector and appends the positive-time condition when no user is given.
  - It adds the user-id condition when a user is given. The total count is the number of rows returned.
- **Day menu** (`DateBuckets`): the date loop of both log-selection forms. It lists one entry per day back from today's midnight, stopping at the course start or after 365 entries, and replaces an unset or future course start by the creation time.
- **Activity menu** (`ActivityMenu`): the loop over the course's modules. It writes section headers, shortens long names, puts hidden modules in parentheses and selects the requested activity. A site-errors entry follows on the front page. The entries behave like a PHP array: assigning to an existing key keeps its position.
- **Spreadsheet export** (`ExcelSheets`): where each log row of the export is written (sheet and row), and how many sheets there are.

The following platform pieces are inputs of the model, not part of it:
- the database (a function from query clauses and parameters to rows);
- capability checks and group lookups;
- the driver's LIKE text;
- localised strings;
- the clock and the user's midnight.

Integers are unbounded. PHP 8 comparison semantics are assumed: `'site_errors' != 0` holds, and `"0"` and `""` are false.

Where the source's documentation and the code disagree, the model follows the code:
- The date filter binds `:enddate` to the given end date (`$dateto`). The comment at locallib.php:741-742 speaks of the next 86400 seconds after `$datefrom`, but the value `$datefrom + 86400` at locallib.php:812 is computed and never used (`LogFilter.DateFilter`).
- As written, the export never splits rows into several sheets, because the sheet count is computed from the two-key result array rather than from the rows. `ExcelSheets.AsWrittenOverflow` and `ExcelSheets.AsWrittenPlatformOverflow` model that count. `ExcelSheets.PrintLogXls` uses the corrected count, which does split the rows (see Findings).

Points of the code that are modelled as the code evidently means them:
- At locallib.php:749 the capability call has an empty argument (`has_capability(…, , $context)`). The model takes the capability as checked against the course context and passes its result in.
- The group lookup at locallib.php:753-758 takes the first key of the user's groups. `userGroups` is that key list, or `None` when no array is returned. An empty array stores `null` in the memo, which `isset` treats as absent, so the memo is modelled as unchanged in that case.
- On the mysqli path the `:userid` condition is produced but the mysqli query does not use it (locallib.php:882-887). The model states which clauses are produced; the query text is not modelled.

## Model

| member | source | states |
|---|---|---|
| Decimal.IntToDecimal | locallib.php:1036-1045 | The text PHP gives an integer in a concatenation is non-empty, starts with '-' exactly for negative numbers and is otherwise all digits. |
| Decimal.IntToDecimalRoundTrip | locallib.php:1036-1045 | Reading that text back gives the integer: no information is lost. |
| Decimal.IntToDecimalInjective | locallib.php:1036-1045 | Distinct integers print differently. |
| Decimal.ImplodeInts | locallib.php:801 | The joined id list is empty exactly when there are no ids. |
| Decimal.ImplodeIntsRoundTrip | locallib.php:801 | The comma-joined member-id list of the `IN (...)` test, split at the commas with each piece read as an integer, gives back exactly the ids, in order. |
| Decimal.ImplodeIntsInjective | locallib.php:801 | Distinct id lists give distinct `IN (...)` lists. |
| Duration.TruncDiv | locallib.php:1027-1032 | `(int)($a / $b)` truncates toward zero: the remainder has the dividend's sign and is smaller than the divisor. |
| Duration.Decompose | locallib.php:1023-1032 | Days·86400 + hours·3600 + minutes·60 + seconds equals the input. For a non-negative input, hours < 24 and minutes, seconds < 60, all non-negative. For a negative input the same bounds hold mirrored. |
| Duration.DecomposeUnique | locallib.php:1023-1032 | These bounds determine the parts: any parts within them that add up to the input are the computed ones. |
| Duration.Segments | locallib.php:1034-1045 | At least one segment is printed, and the printed values weighted by their units add up to the input. |
| Duration.SegmentsShape | locallib.php:1034-1045 | The units appear largest first. Days, hours and minutes appear exactly when their part is non-zero. Each value is its unit's part. The seconds segment always comes last, even when zero. |
| Duration.SecondsToStringTime | locallib.php:1023-1046 | The formatted text always ends with the seconds value followed by the seconds suffix, even when the seconds are zero. |
| Duration.StringTimeRoundTrip | locallib.php:1023-1046 | Reading a formatted duration back gives the original second count, when the suffixes contain no digit or '-' and are distinct. |
| Duration.StringTimeInjective | locallib.php:1023-1046 | Distinct second counts format to distinct texts. |
| LogFilter.ChooseGroup | locallib.php:748-765 | Group resolution never changes or removes a remembered group. The only entry it may add to the memo is the course's own. |
| LogFilter.ChooseGroupSpec | locallib.php:748-765 | Under separate groups without the manage capability: the remembered group if there is one, else the user's first group (now remembered), else 0 with the memo unchanged. With no group mode: 0. Otherwise the caller's group. Only the course's own memo entry can change, and only by being added. |
| LogFilter.ChooseGroupSticky | locallib.php:748-765 | Resolving again with the updated memo gives the same group. Once a restricted user's group is remembered, later lookups cannot change it. |
| Report.Session.ResolveGroup | locallib.php:748-765 | The method returns the resolved group and leaves the session memo exactly as the group-resolution rule says. |
| LogFilter.ActionPattern | locallib.php:786-795 | The LIKE pattern is the action wrapped in '%', without its leading '-' when it has one. |
| LogFilter.BuildPredicates | locallib.php:767-816 | The step-by-step appends produce exactly the fragment list and parameter map of the filter definition. |
| LogFilter.AddActivity | locallib.php:779-784 | Appends the site-errors test for 'site_errors', the context test with :modid for a non-zero activity id, and nothing otherwise. |
| LogFilter.AddAction | locallib.php:786-795 | Appends the LIKE or NOT LIKE fragment and binds :modaction when an action is given. |
| LogFilter.AddUsers | locallib.php:797-809 | Appends the members' IN test or the always-false test when the group filter applies. Otherwise it binds :userid for a given user. |
| LogFilter.AddDate | locallib.php:811-816 | Appends the strict date range and binds :date and :enddate when a start date is given. |
| LogFilter.PredicatesOrdered | locallib.php:767-816 | Fragments appear in the fixed order course, module name, site-errors/activity, action, users, date, each kind at most once. |
| LogFilter.PredicatesPresence | locallib.php:769-816 | The course test is present iff the course is not the site or an activity is chosen. The module test is present iff a module name is given. The error/infected test is present iff 'site_errors' is chosen, and the context test iff an activity id is. Never both. The date range is present iff a start date is given. |
| LogFilter.ActionFilter | locallib.php:786-795 | A leading '-' gives a NOT LIKE on '%' + rest + '%'. Any other non-empty action gives a LIKE on '%' + action + '%'. An empty action gives neither a fragment nor a parameter. |
| LogFilter.UserFilter | locallib.php:797-809 | The group filter applies only with a group and no user. A non-empty membership gives an IN over exactly the members; an empty one gives the always-false test, never no filter. A given user only binds :userid. |
| LogFilter.DateFilter | locallib.php:811-816 | :date and :enddate are bound iff a start date is given, to the start date and to the given end date (not the start plus a day). |
| LogFilter.ParamsMatchPlaceholders | locallib.php:767-816 | The bound parameters are exactly the placeholders the fragments use, plus :userid when a user is given. |
| Selector.FragmentSql | locallib.php:767-816 | Each fragment's SQL text names every placeholder the fragment binds (`:courseid`, `:modname`, `:modid`, `:date`, `:enddate`). The member test holds the id list in parentheses. The LIKE texts are the driver's. |
| Selector.FragmentTexts | locallib.php:767-816 | Each fragment's SQL text is at the same position as the fragment. |
| Selector.QualifyInnerFirst | locallib.php:847 | The `l.` → `l2.` rewrite never shrinks the selector and keeps its first character. |
| Selector.QualifyInnerGrows | locallib.php:847 | The rewrite leaves the length unchanged exactly when the selector contains no `l.`. |
| Selector.QualifyInnerConcat | locallib.php:847 | The rewrite of two texts joined without an `l.` across the seam is the join of their rewrites. |
| Selector.QualifyInnerNoOuter | locallib.php:847 | After the `l.` → `l2.` rewrite no reference to the outer alias remains. |
| Selector.QualifyImplode | locallib.php:847 | Rewriting the joined selector is the same as joining the rewritten fragments: " AND " never creates or splits an `l.`. |
| Selector.QualifyColumn | locallib.php:847 | A condition on one column of the outer alias becomes the same condition on the inner alias. |
| Selector.SelectorTruthy | locallib.php:847-848 | The joined selector, rewritten or not, is truthy exactly when there is at least one fragment. |
| Selector.UserIdFromParams | locallib.php:844 | `$params['userid'] ?? 0` reads back the requested user. |
| Selector.OtherDbClauses | locallib.php:846-866 | Generic path: no fragments give an empty condition, without even the positive-time test. Otherwise the condition is " AND " + the rewritten fragments + the positive-time test when no user is given. The user-id condition is produced iff a user is given. |
| Selector.GetLogsClausesAsWritten | locallib.php:844-866 | As written. On mysqli the condition always starts with "WHERE ". On the generic path it starts with " AND " when the rewritten selector is truthy and is falsy otherwise. The user-id condition is produced iff `$params['userid'] ?? 0` is non-zero, and is empty otherwise. |
| Selector.GetLogsClauses | locallib.php:844-866 | Corrected mysqli path (see Findings). On mysqli the condition is empty exactly when there is no selector and a user is given; otherwise it starts with "WHERE " followed by a condition. The generic path and the user-id condition are as written. |
| Selector.CorrectionAgrees | locallib.php:846-859 | The corrected clause builder agrees with the code on the generic path, and on mysqli whenever the selector is non-empty. |
| Selector.MysqliClauses | locallib.php:854-866 | Mysqli path (corrected): "WHERE " + the fragments and, without a user, the positive-time test, joined by " AND ". No condition at all when there are neither. The user-id condition is produced iff a user is given. |
| Selector.MysqliEmptySelector | locallib.php:854-859 | As written, a request without fragments leaves "WHERE " followed by nothing, or by " AND bt.timespent > 0 ". |
| Selector.MysqliSiteWideReport | locallib.php:854-859 | The front-page report without any filter is such a request, and gives "WHERE  AND bt.timespent > 0 ". |
| Report.GetLogs | locallib.php:836-892 | The rows are those the database returns for the assembled clauses and parameters, and the total count is their number. The clauses are the corrected ones (`Selector.GetLogsClauses`); see Findings. |
| Report.Session.BuildLogsArray | locallib.php:736-824 | The result is the database's rows for the selector and parameters built from the resolved group, and their count. Member ids are taken from the resolved group. The session memo ends as group resolution leaves it. |
| DateBuckets.DayCount | locallib.php:524-530 | The menu holds between 1 and 365 days. |
| DateBuckets.DateOptions | locallib.php:515-530 | The loop lists exactly today's midnight and the days before it, one day apart, as many as the closed-form count says. |
| DateBuckets.MnetDateOptions | locallib.php:264-285 | The MNet form lists "all days" first, then the same days. |
| DateBuckets.CourseRecord.DayMenu | locallib.php:518-530 | An unset or future course start is replaced by the creation time, which is stored back in the course record. The days are then counted back to that start. |
| DateBuckets.SelectedDate | locallib.php:532-534 | "today" is replaced by today's midnight; any other value is kept. |
| DateBuckets.CountClosedForm | locallib.php:524-530 | The loop's exit condition determines the count. A list stopping at the first midnight not after the start, or at 365 entries, has the closed-form length. |
| DateBuckets.DayListMeaning | locallib.php:518-530 | Every listed day but the last starts after the course start, and the last does not unless 365 entries were reached. Midnights fall by exactly 86400, so keys are distinct. Each label time keeps today's offset from midnight. |
| DateBuckets.DayListReachesStart | locallib.php:524-530 | Below the cap, the oldest listed day is the one containing the course start. |
| ActivityMenu.ShortName | locallib.php:472-475 | Names of at most 55 characters are kept; longer ones become their first 50 characters followed by "...". The result never exceeds 55. |
| ActivityMenu.ShortNameIdempotent | locallib.php:472-475 | Shortening a shortened name changes nothing. |
| ActivityMenu.Label | locallib.php:472-478 | A hidden module's label is its short name in parentheses; a visible one's is its short name. |
| ActivityMenu.Put | locallib.php:469-479 | PHP array assignment: an existing key keeps its position and gets the new value; a new key is appended. |
| ActivityMenu.BuildActivityMenu | locallib.php:458-492 | The loop and the site-errors step produce exactly the menu and selection of the fold over the modules. |
| ActivityMenu.FoldSelected | locallib.php:481-483 | Among the modules, the selection is the requested module when it is listed, and nothing otherwise. |
| ActivityMenu.MenuContents | locallib.php:458-492 | Keys are unique. The module entries are exactly the visible, viewable modules' labels in course order. Every listed module of a numbered section comes after its section's header. Every header is titled with its section's name and belongs to a numbered section holding at least one listed module. The site-errors entry is present iff the user may read the site log on the front page. The selection is site errors, the requested module or nothing. |
| ExcelSheets.PlaceRows | locallib.php:996-1011 | Each log row is written with the user's full name and formatted time. Sheet and row follow the wrap rule: with several sheets, a new sheet starts after the last row; with one sheet, rows just go on. |
| ExcelSheets.AsWrittenOverflow | locallib.php:964 | As written, one sheet is created whenever a sheet holds two rows or more, and the row after a full sheet lands past the last row. |
| ExcelSheets.AsWrittenPlatformOverflow | locallib.php:998-1001 | With data from row 3 to row 65535, the 65534th log row is written to row 65536. |
| ExcelSheets.SheetCountFits | locallib.php:964-1011 | With the corrected sheet count, every row lands on an existing sheet between the first data row and the last row. |
| ExcelSheets.PositionInjective | locallib.php:996-1011 | No two log rows are written to the same place. |
| ExcelSheets.SheetCountExample | locallib.php:964 | A full sheet fits on one sheet. Two full sheets plus one row need three, the extra row heading the third. |
| ExcelSheets.PrintLogXls | locallib.php:934-1012 | The export with the corrected sheet count writes every row, in order, as PlaceRows places it. |

## Left out

- HTML and form output of both log-selection forms and `block_timestat_print_log`: rendering only.
- MNet host and course lists, enrolled-user lists, the course list and the user listing: database reads whose results the model does not use.
- SQL execution: the database is a function parameter (`Report.Database`). Neither the two full query texts nor `$limitfrom`/`$limitnum` are modelled. `$order` is accepted by the source and never used.
- The spreadsheet workbook: sheet creation and titles, column widths, headers, the save date, date formats and the empty-report early return. Only row placement and the sheet count are modelled.
- The day labels: today's entry is labelled "today" with the date format (locallib.php:518) and later entries with the day-and-date format (locallib.php:528). `DateBuckets.Day` holds only the instant a label is formatted from, so the model does not distinguish the two label forms.
- `userdate`, `usergetmidnight`, `time`, `mktime`, `get_string`, `get_section_name`, `fullname`, `format_string` and `strip_tags` are inputs, or represented by the value they format.
- `has_capability`, `groups_get_all_groups`, `groups_get_members` and the driver's `sql_like` text are inputs.
- `block_timestat_get_user_last_log_by_contextid`: a single database read.
- block_timestat.php and version.php: block lifecycle and plugin metadata.
- The xls export calls `block_timestat_build_logs_array` without its `$context` argument (locallib.php:940-941), which PHP 8 rejects. The model passes the capability result in, as for the other callers.
- The requested activity is taken as already parsed: a module id or 'site_errors'. Other non-numeric request values are not modelled.
- Duration.Decompose: does not model PHP's float division for quotients beyond 2^53, nor 64-bit integer overflow, because integers are unbounded here.
- Duration.StringTimeRoundTrip: holds for suffixes without digits or '-' that are pairwise distinct. The localised strings are not constrained by the source.
- ActivityMenu.MenuContents: assumes distinct module ids, as the course's module information is keyed by id.
- Report.GetLogs: runs the corrected mysqli clause builder. For an empty selector on mysqli it sends a different condition from locallib.php:854-859 as written; `Selector.MysqliEmptySelector` models that text (see Findings).
- Report.Session.BuildLogsArray: stated against the corrected mysqli clause builder (see Findings).
- ExcelSheets.PrintLogXls: uses the corrected sheet count (see Findings).

## Findings

| source | as written | input that shows it | evidently intended | confidence | as-written member | corrected member |
|---|---|---|---|---|---|---|
| locallib.php:964 | The sheet count is `ceil(count($logs) / capacity)`, where `$logs` is the two-key result array. It is 1 for any realistic capacity, so the row loop never changes sheet. | A report of 65534 rows with data rows 3 to 65535: the last row is written to row 65536 of sheet 1. | `ceil(rows / capacity)` sheets, each row within a sheet. | high, not executed | ExcelSheets.AsWrittenPlatformOverflow | ExcelSheets.SheetCountFits |
| locallib.php:854-859 | On mysqli, "WHERE " is always written before the selector, and the positive-time test is appended with a leading " AND ". | The front-page report with no filter and no user gives "WHERE  AND bt.timespent > 0 ". With a user and no filter it gives "WHERE " alone. | "WHERE " only before a non-empty list of conditions joined by " AND ". | high, not executed | Selector.MysqliSiteWideReport | Selector.MysqliClauses |
