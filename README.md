# DSA tracker: progress rules

DSATRACKER is a Flask web application. Users work through a fixed catalog of
data-structures-and-algorithms questions organised in fourteen weeks. A
user has at most one progress row per question, with a "solved" and a
"bookmarked" flag; the row is created on the first toggle or sync that
touches the question. This project models the rules in `app.py` that read and
change that state, and proves properties of them:

- the daily activity streak (`update_streak`);
- the profile page statistics: overall completion, the completion
  percentage, and the Easy/Medium/Hard breakdown chosen by substring match;
- the dashboard: the fourteen week lists, their totals, completed counts and
  percentages, and the XP figure (100 per solved row);
- the judge sync (`sync_leetcode`): reading the problem slug off a stored
  link, matching it against the slugs the judge reported, marking the matches
  solved, counting only the rows that actually flipped, and the streak update;
- the solve/bookmark toggle (`toggle_status`): lazy row creation, flip or set
  of the flag, the streak, and the XP, streak and week figures of the reply;
- the candidate filter of the random-question endpoint.

Modules, one per file:

- `models.dfy` (`Models`): questions and progress rows as values, the solved
  set and XP.
- `streak.dfy` (`Streak`): the streak rule as a function on the two activity
  columns, and what it counts over a history of active days.
- `stats.dfy` (`Stats`): the percentage, Python's substring test, the
  difficulty bands, and the profile and dashboard loops as methods proved
  against counting functions.
- `slugs.dfy` (`Slugs`): `link.strip('/').split('/')[-1]`.
- `sync.dfy` (`Sync`): which questions match a report, the rows after
  marking, and the marking loop.
- `tracker.dfy` (`Tracker`): a `User` class for the logged-in user and that
  user's rows, with the streak update, the toggle and the sync as methods
  that change it. It also holds the random-question filter and small
  worked scenarios.

Dates are integer day numbers and "today" is a parameter. The catalog is a
sequence in the order the handler reads it. The user's rows are a map from
question id to `(solved, bookmarked)`. That is at most one row per
question: the source checks for an existing row before it creates one, but
the table has no unique constraint (see "## Left out"). The judge's answer is an input value (`Remote`). The random pick is
an index parameter.

## Model

| member | source | states |
|---|---|---|
| Streak.StreakAfter | app.py:295-311 | Definition of `update_streak` on the two activity columns; its properties are in the four `Streak` lemmas below. |
| Streak.StreakSameDay | app.py:299-301 | A user already active today keeps both activity columns unchanged. |
| Streak.StreakNextDay | app.py:303-310 | After activity yesterday, the streak becomes the old value plus one (a missing value counts as 0) and the last active day becomes today. |
| Streak.StreakRestart | app.py:306-310 | With no last active day, a gap of more than one day, or a last day in the future, the streak restarts at 1 and the last active day becomes today. |
| Streak.StreakIdempotent | app.py:295-311 | After the update the user is active today, and a second update on the same day changes nothing. |
| Streak.ReplayCountsConsecutiveDays | app.py:295-311 | Starting from no activity, with updates on non-decreasing days, the streak k is at least 1, every one of the last k calendar days up to the latest saw an update, and the day before them did not. |
| Streak.CountStep | app.py:300-310 | One more update, on the latest day so far or later, preserves that meaning of the counter. |
| Tracker.User.constructor | models.py:19-22 | A user starts with no last active day, a streak of 0 and no progress rows. The handle is the one a later `update_leetcode_username` would set; right after registration it is `None`. |
| Tracker.User.UpdateStreak | app.py:295-311 | The user's activity columns become the streak rule applied to the old ones; the handle and the progress rows are unchanged. |
| Stats.Percent | app.py:173-174 | The percentage is 0 for an empty total. Otherwise it is the floor of 100·completed/total, and it lies in 0..100 when completed ≤ total. |
| Stats.Occurs | app.py:178-179 | Definition of Python's `in` on strings; its meaning is in Stats.OccursExact. |
| Stats.OccursExact | app.py:178-179 | The substring test holds exactly when the word occurs contiguously at some position of the label. |
| Stats.Classify | app.py:176-179 | Definition of the difficulty band, tried in the order Easy, Medium, otherwise Hard; its properties are in Stats.ClassifyOrder and Stats.ClassifyExamples. |
| Stats.ClassifyOrder | app.py:176-179 | A label is Easy iff "Easy" occurs in it, Medium iff "Medium" occurs and "Easy" does not, and Hard iff neither occurs. |
| Stats.ClassifyExamples | app.py:177-179 | "Easy", "Medium" and "Hard" land in their own bands; "Easy/Medium" is Easy; "Unrated" is Hard. |
| Stats.BandsPartition | app.py:176-182 | Every question lands in exactly one band, so the three band totals add up to the catalog size. |
| Stats.BandCompletedBound | app.py:181-184 | A band's completed count never exceeds its total. |
| Stats.Profile | app.py:155-186 | Completed is the number of solved rows, total the catalog size, and percent their percentage. Each band's tally is its completed and total counts, the band totals sum to the total, and completed ≤ total in every band. |
| Models.ProgressOf | app.py:338-345 | Definition of a question's flags: its row, or the column defaults `(false, false)` of models.py:54-55 when there is none, as `.get(q.id, False)` at app.py:340 and app.py:344, the fresh row at app.py:405-406 and the flag lookup at app.py:488-489 read them. Used by Sync.MarkSolved, Tracker.Toggled and the dashboard's entries. |
| Models.SolvedIds | app.py:160 | Definition of `{p.question_id for p in all_prog if p.is_solved}`: the ids whose row is solved. Its size is the profile's completed count (Stats.Profile) and its change under a sync is in Sync.MarkSolvedCount. |
| Models.Xp | app.py:327-328 | Definition of 100 XP per solved row, the figure of the dashboard and of the toggle reply (app.py:431-432); related to the sync's flipped count in Sync.MarkSolvedCount. |
| Models.SolvedAtMostCatalog | app.py:160-164 | When every row refers to a catalog question, the overall completed count is at most the catalog size, so the profile percentage lies in 0..100. |
| Stats.EmptyWeeks | app.py:334-336 | The tables have exactly the keys 1..14, each with an empty list and zero statistics. |
| Stats.FileQuestion | app.py:338-350 | A question whose week is a key is appended to that week's list with its flags and counted there (completed only when solved); every other week, and every question outside the keys, leaves the tables as they were. |
| Stats.TallyWeeks | app.py:338-350 | After the loop each week's list is its questions in catalog order, and its statistics are its total and completed counts. |
| Stats.FillPercents | app.py:352-355 | Every week's percentage becomes the percentage of its completed and total counts; an empty week keeps 0. |
| Stats.Dashboard | app.py:313-361 | XP is 100 per solved row. The keys are exactly weeks 1..14. Each week shows its questions with their flags, and its total, completed and percentage; completed ≤ total and the percentage lies in 0..100. For a catalog in ascending id order within each week, every week list is in ascending id order. |
| Stats.WeekTotal | app.py:348 | Definition of a week's total: the number of catalog questions with that week, which the dashboard counts at app.py:348 and the toggle's `filter_by(week=week_num).count()` (app.py:443) queries. Its properties are in Stats.WeekCompletedBound, Stats.WeekEntriesAgree and Stats.WeekTotalsCoverWeeks. |
| Stats.WeekCompletedBound | app.py:348-350 | A week's completed count never exceeds its total. |
| Stats.WeekEntriesAgree | app.py:338-350 | A week's list has one entry per catalog question of that week, contains exactly those questions with the user's flags, and shows as many solved entries as the week's completed count. |
| Stats.WeekTotalsCoverCurriculum | app.py:334-339 | The fourteen week totals add up to the number of questions whose week is in 1..14, which is at most the catalog size; questions without a week or outside it are in no total. |
| Stats.WeekTotalsCoverWeeks | app.py:334-339 | For any n, the totals of weeks 1..n add up to the number of questions whose week is in 1..n. |
| Stats.WeekEntriesInIdOrder | app.py:317-345 | When the catalog lists each week's questions in ascending id order, as the query's `order_by(week, id)` does, each week's list is in ascending id order. |
| Slugs.Strip | app.py:262 | Definition of `link.strip('/')`: Slugs.TrimLeft then Slugs.TrimRight; their contracts say what each removes. |
| Slugs.Slug | app.py:262-263 | Definition of the slug: the last segment of the stripped link; its properties are in Slugs.SlugOfProblemLink and Slugs.SlugExample. |
| Slugs.QuestionSlug | app.py:258-263 | Definition: a missing or empty link gives no slug, any other link its Slugs.Slug. |
| Slugs.TrimLeft | app.py:262 | The result is a suffix of the link, everything removed is a slash, and the result does not start with one. |
| Slugs.TrimRight | app.py:262 | The result is a prefix of the link, everything removed is a slash, and the result does not end with one. |
| Slugs.LastSegment | app.py:262-263 | The last segment contains no slash. |
| Slugs.LastSegmentSuffix | app.py:262-263 | The last segment is a suffix of the text that is all of it or follows a slash. |
| Slugs.SlugOfProblemLink | app.py:258-263 | A link `<anything>/<name>` followed by any number of slashes has slug `<name>`, for a non-empty slash-free name. |
| Slugs.SlugExample | app.py:261-263 | `https://leetcode.com/problems/two-sum/` and the same link without the trailing slash both give `two-sum`. |
| Sync.Matches | app.py:258-265 | Definition: a question matches when it has a slug and the judge reported it. |
| Sync.MatchedIds | app.py:257-265 | Definition of the set of matched catalog ids; it is characterised by Sync.MatchedIdsComplete and Sync.MatchedIdsSound. |
| Sync.MarkSolved | app.py:265-274 | Definition of the rows after the marking loop; its properties are in Sync.MarkSolvedEffect, Sync.MarkSolvedCount and Sync.MarkSolvedIdempotent. |
| Sync.Flipped | app.py:265-274 | Definition of the questions the loop counts: matched and not solved before; its size is related to the solved set in Sync.MarkSolvedCount. |
| Sync.MatchedIdsComplete | app.py:257-265 | Every catalog question with a non-empty link whose slug was reported is matched. |
| Sync.MatchedIdsSound | app.py:257-265 | Every matched id belongs to a catalog question with a non-empty link whose slug was reported. |
| Sync.MarkSolvedEffect | app.py:265-274 | After marking, every matched question is solved. Unmatched rows exist exactly as before and are unchanged, and no bookmark changes. |
| Sync.MarkSolvedCount | app.py:265-274 | The solved set grows by exactly the matched ids. Its size, and the XP divided by 100, grow by the number of matched rows that were missing or unsolved. |
| Sync.MarkSolvedIdempotent | app.py:265-274 | Marking the same matches again changes nothing and flips nothing. |
| Sync.MarkSolvedUnchanged | app.py:265-285 | The marking changes the rows if and only if some matched row flips, so a sync that reports no new problems writes nothing. |
| Sync.MarkSolvedStep | app.py:267-274 | Adding one matched question updates exactly its row. It counts as flipped exactly when that row was missing or unsolved; otherwise nothing changes. |
| Sync.MarkOne | app.py:258-274 | One iteration: the rows become the marking with this question added when it matches, and the flag says whether it added to the flipped set. |
| Sync.MarkAll | app.py:254-274 | The loop's rows are the marking of all matched questions, and its count is the number of matched rows that were missing or unsolved. |
| Tracker.User.MarkReported | app.py:254-274 | The user's rows become the marking of the matched questions and the count is the number flipped; the activity columns and the handle are unchanged. Rows that all refer to catalog questions still do afterwards. |
| Tracker.MatchedInCatalog | app.py:257-265 | Every matched id is a catalog id. |
| Tracker.HasHandle | app.py:216 | Definition of the `if not username` test: a handle is set and is not the empty string. Used by Tracker.SyncPrecheckCases. |
| Tracker.SlugSet | app.py:247 | Definition of `{sub['titleSlug'] for sub in submissions}`: the set of reported slugs, the input of Sync.MatchedIds. |
| Tracker.SyncPrecheck | app.py:215-251 | Definition of the checks before the marking loop, each failure with its message; characterised by Tracker.SyncPrecheckCases. |
| Tracker.SyncPrecheckCases | app.py:215-251 | The sync reaches the marking loop exactly when a handle is set and the judge reported at least one accepted submission; without a handle it stops with that message. |
| Tracker.User.SyncLeetcode | app.py:212-291 | When a check fails, the sync ends with its message and writes nothing. Otherwise it marks the matches, reports the flipped count, and updates the streak once, only when that count is positive; a count of 0 leaves the rows and the activity columns as they were. |
| Tracker.User.SyncLeetcodeAsWritten | app.py:276-282 | As the handler persists it, the same outcome and rows as the corrected sync, with the activity columns never changed; a count of 0 leaves the rows as they were. |
| Tracker.ScenarioMatches | app.py:257-274 | Reported {two-sum, lru-cache} against links …/two-sum/ and …/add-two-numbers/ matches only the first question, which becomes one new solved row. |
| Tracker.Toggled | app.py:409-424 | Definition of the edit a toggle makes to one row; its properties are in the three lemmas below. |
| Tracker.ToggleTwiceRestores | app.py:409-424 | A plain solve toggle negates `solved`; two plain toggles of either flag restore the row. |
| Tracker.SetSolvedIdempotent | app.py:411-412 | With an explicit target, `solved` ends equal to it, and applying it again changes nothing. |
| Tracker.ToggleFieldsIndependent | app.py:409-424 | A bookmark toggle leaves `solved` alone, a solve toggle leaves `bookmarked` alone, and any other field leaves the row unchanged. |
| Tracker.FindQuestion | app.py:440-441 | The lookup returns a catalog question with the given id, or reports that there is none. |
| Tracker.SolvedInWeek | app.py:446-450 | Definition of the join count: the user's solved ids that belong to a catalog question of the week; related to the dashboard in Tracker.SolvedInWeekAgrees. |
| Tracker.SolvedInWeekAgrees | app.py:446-450 | With unique question ids, the reply's join count of solved rows in the week equals the dashboard's completed count for that week. |
| Tracker.WeekDataFor | app.py:438-459 | Definition of the reply's week data for a question id; its properties are in Tracker.WeekDataBounds. |
| Tracker.WeekDataBounds | app.py:438-459 | Week data exists exactly when the question is in the catalog. It names that question's week, its completed count is at most the week's total, and its percentage lies in 0..100. |
| Tracker.ReplyFor | app.py:429-467 | Definition of the toggle's reply from the committed rows: the new flag, the XP, the streak and, for a solve toggle, Tracker.WeekDataFor; an unknown field gives none. Used in the contract of Tracker.User.Toggle. |
| Tracker.User.Toggle | app.py:397-467 | For an id with no catalog question the foreign key on `question_id` (models.py:52) rejects the commit: no reply, and neither the rows nor the activity columns change. Otherwise the row for the id (created with the defaults if missing) gets the field's edit, and the streak is updated exactly when the question ends up solved by a solve toggle. The reply carries the new flag, the XP, the streak and, for a solve toggle, the week data; an unknown field gives no reply. Rows that all refer to catalog questions still do afterwards. |
| Tracker.FoundInCatalog | app.py:440-441 | The lookup finds a question exactly when the id is a catalog id. |
| Tracker.Candidates | app.py:474-480 | The candidates are exactly the catalog questions, limited in "unsolved" mode to those the user has not solved. |
| Tracker.RandomQuestion | app.py:469-501 | There is no pick exactly when there are no candidates. Otherwise the pick is a catalog question, its flags are the user's, and in "unsolved" mode it is unsolved. |
| Tracker.NoUnsolvedCandidates | app.py:474-483 | "Unsolved" mode offers nothing exactly when every catalog question is solved. |

## Left out

- Flask routing, templates, flash texts, sessions, `login_required` and `admin_required`: web plumbing. The flash message a sync shows is the `SyncOutcome` value.
- Registration, login, e-mail OTP verification, `update_leetcode_username`, `revision` and the admin routes: not part of this model (password hashing, mail delivery and plain CRUD).
- The judge's GraphQL request and JSON decoding: network I/O. The answer is the `Remote` input. A transport, decoding or shape failure is `Unreachable`, an error payload is `ErrorPayload`, and a submission list is `Submissions`.
- SQLAlchemy queries, sessions and commits: the store is the `User` object and the catalog sequence, and a method's final state is what the request commits.
- `random.choice`: nondeterministic; the pick is the `choice` index into the candidates.
- Stats.Percent: modelled as integer `(100*c)/t`. The source computes `int((c/t)*100)` in floating point, which can come out one lower (29 of 100 gives 28).
- Stats.Profile: a question whose difficulty is NULL makes the substring test raise in the source; the model's difficulty is always a string.
- `static/script.js`: browser-side presentation.
- Tracker.SolvedInWeekAgrees: holds for a catalog with unique ids (the primary key); the model's catalog type does not enforce it.
- Tracker.User.Toggle: the source's reply for an unknown field is a server error after the commit; the model gives `None` and keeps the committed row.
- Tracker.User.Toggle: models a store that enforces the foreign key on `question_id` (models.py:52), as Postgres does; the SQLite fallback (app.py:26-28) does not enforce it by default and would commit a row for an unknown id. A request without `question_id` (app.py:399), which no store can commit because the column is `nullable=False`, is not modelled: the model's id is always an integer.
- Stats.Dashboard: takes the catalog in the order given. The source's query sorts by (week, id) (app.py:317); the model proves the resulting id order within each week only for a catalog that satisfies `IdsAscendWithinWeek`.
- One row per question: the source only checks with `.first()` before creating a row (app.py:267, app.py:403) and the table has no unique constraint on (user, question), so concurrent requests could create duplicates. The model's map excludes them. With duplicates, the dashboard XP and the toggle reply's XP, which count rows (app.py:327, app.py:431), can exceed the profile's count of distinct solved ids (app.py:160-163).

## Findings

| source | as written | input that shows it | evidently intended | confidence | as-written member | corrected member |
|---|---|---|---|---|---|---|
| app.py:276-282 | The sync commits the marks and only then calls `update_streak`, with no later commit. The request's session is discarded at teardown, so the streak change is never stored. | A new user with handle "alice", catalog …/two-sum/ and …/add-two-numbers/, report {two-sum, lru-cache} on day 100: one problem is marked, yet the streak stays 0 and the last active day stays unset (`Tracker.SyncScenarioAsWritten`). | The streak is updated once, together with the marks, whenever at least one problem was marked; it becomes 1 with day 100 as the last active day (`Tracker.SyncScenario`). | not executed | Tracker.User.SyncLeetcodeAsWritten | Tracker.User.SyncLeetcode |
