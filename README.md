# Keyword rank tracker — verified model

A Dafny model of the core of a small keyword rank tracker. The tracker stores
which keywords to watch, in which cities, for which target page. A weekly job
looks up each keyword/city pair on a search engine and records the position
(rank) at which the target page first appears, stamped with the date.

The model has four parts.

- `Text` (`text.dfy`) covers the two Python string operations the tracker
  relies on.
  - `str.strip()` strips the Python white-space set from both ends.
  - `needle in haystack` is the case-sensitive substring test.
- `Ranking` (`ranking.dfy`) covers the scan at the heart of `get_rank`.
  - The page fetch and CSS selection are replaced by their outcome: the
    result entries in page order. Each entry either has no anchor or has an
    anchor with an `href`.
  - `Rank` is the reference definition: the 1-based position of the first
    entry whose `href` contains the target, or `None`.
  - `GetRank` is the loop with the early return, proved equal to `Rank`.
- `Store` (`store.dfy`) models the three tables `init_db` creates:
  `rankings`, `settings` and `schedule_config`.
  - They are sequence fields of one `Database` object.
  - Each table has its own `AUTOINCREMENT` counter, the largest id it has
    ever handed out.
  - `SaveRank`, `SaveSettings` (with its two nested insert loops) and
    `SaveSchedule` change the tables in place.
  - `LoadSettings` and `LoadSchedule` read them.
  - `Numbered` describes a run of inserts: each value gets the next id.
  - `SettingsFor` describes the rows `save_settings` leaves: the
    keyword-major grid of the stripped keywords and cities.
- `Job` (`job.dfy`) models `run_weekly_job`.
  - It snapshots the settings, then appends one ranking record per settings
    row, in order.
  - The search request is a caller-supplied function `fetch` from
    (keyword, city) to result entries.
  - Being a function, `fetch` gives the same entries every time it is asked
    about the same (keyword, city) pair within a run.
  - The wall clock is a function `clock`, giving the date of the `k`-th save
    of the run.

`Wrappers` (`wrappers.dfy`) holds the `Option` type. A rank of `None`
stands for Python's `None`, which sqlite stores as NULL.

## Model

| member | source | states |
|---|---|---|
| Text.IsSpace | rank_tracker_app.py:90 | the characters `str.strip()` removes: Python's white-space set (space, `\t`, `\n`, `\v`, `\f`, `\r`, the file, group, record and unit separators, and the Unicode spaces and line breaks) |
| Text.Strip | rank_tracker_app.py:90 | `str.strip()`: never longer than its argument |
| Text.StripIsStripped | rank_tracker_app.py:90 | a stripped string neither starts nor ends with a Python white-space character |
| Text.StripIsSlice | rank_tracker_app.py:90 | a stripped string is a contiguous piece of the original, and everything cut off on either side is white space |
| Text.StrippedIsFixed | rank_tracker_app.py:90 | a string with no white space at either end is left unchanged by strip |
| Text.StripIdempotent | rank_tracker_app.py:90 | stripping twice gives the same as stripping once |
| Text.ContainsIff | rank_tracker_app.py:66 | `target_url in href` holds exactly when the target occurs at some position of the `href` |
| Text.Contains | rank_tracker_app.py:66 | Python's `target_url in href`: a case-sensitive substring test, true for the empty pattern; `ContainsIff` gives its meaning |
| Ranking.Matches | rank_tracker_app.py:65-66 | the test `link_tag and target_url in link_tag['href']`: the block has an anchor and its `href` contains the target |
| Ranking.Rank | rank_tracker_app.py:64-68 | a present rank is between 1 and the number of entries; the entry there matches and no earlier entry does; the rank is `None` exactly when no entry matches |
| Ranking.GetRank | rank_tracker_app.py:64-68 | the scan with the early `return idx` returns the reference rank, and never 0 |
| Ranking.RankAfterMisses | rank_tracker_app.py:64-67 | entries in front that do not match, anchored or not, move the rank of the rest down by their number |
| Ranking.NoAnchorShifts | rank_tracker_app.py:65-66 | a result block without an anchor is skipped but still takes up a position |
| Ranking.RankOfConcat | rank_tracker_app.py:64-68 | the rank over two joined listings is the first listing's rank if it has one, otherwise the second listing's rank moved past the first |
| Ranking.LongerNotContained | rank_tracker_app.py:66 | a target longer than an `href` is never contained in it |
| Ranking.FirstMatchRanks | rank_tracker_app.py:64-67 | for any listing: if entry `k` matches and no earlier entry does, the rank is `k + 1`, whatever follows |
| Ranking.NoMatchIsNone | rank_tracker_app.py:64-68 | for any listing: if every entry either has no anchor or has an `href` not containing the target, the rank is `None` |
| Ranking.SecondResultRanksTwo | rank_tracker_app.py:64-67 | worked example: on the page `other.com/a`, `example.com/gym`, `x.com/b`, the page `example.com` ranks 2 |
| Ranking.AbsentTargetIsNone | rank_tracker_app.py:64-68 | worked example: on a listing of two anchorless blocks around the link `a/b`, every target longer than 3 characters gets `None` |
| Store.Numbered | rank_tracker_app.py:24 | a run of inserts adds exactly one row per value |
| Store.NumberedAt | rank_tracker_app.py:24 | the `k`-th value inserted gets id `last + k + 1` |
| Store.NumberedIsWellNumbered | rank_tracker_app.py:24 | the ids of a run of inserts increase strictly and stay at or below the counter |
| Store.NumberedAbove | rank_tracker_app.py:24 | every row of a run of inserts has an id above every row already in the table |
| Store.StripAll | rank_tracker_app.py:87-90 | stripping every string keeps the list's length |
| Store.StripAllAt | rank_tracker_app.py:87-90 | entry `k` of the stripped list is entry `k`, stripped |
| Store.CityRows | rank_tracker_app.py:88-90 | the inner loop inserts one row per city |
| Store.CityRowsAt | rank_tracker_app.py:88-90 | row `j` of one keyword's rows pairs it with city `j` |
| Store.Grid | rank_tracker_app.py:87-90 | the insertion order of the two nested loops: for each keyword in turn, its row for each city in turn; `GridAt` and `GridLength` give its meaning |
| Store.GridLength | rank_tracker_app.py:87-90 | the nested loops insert `|keywords| * |cities|` rows |
| Store.GridPrefixLength | rank_tracker_app.py:87-90 | the keywords before keyword `i` account for `i * |cities|` rows |
| Store.GridPrefix | rank_tracker_app.py:87-90 | the rows of the first `m` keywords are a prefix of all the rows inserted |
| Store.GridNextKeyword | rank_tracker_app.py:87-90 | keyword `i` adds its rows right after those of the keywords before it, one per city in city order |
| Store.GridRowsOf | rank_tracker_app.py:87-90 | the rows for keyword `i` follow those of the keywords before it, one per city in city order |
| Store.GridAt | rank_tracker_app.py:87-90 | row `i * |cities| + j` pairs keyword `i` with city `j` (keyword-major, city-minor) |
| Store.GridFieldsFrom | rank_tracker_app.py:87-90 | every inserted row takes its keyword from the keywords, its city from the cities and the target unchanged |
| Store.SettingsFor | rank_tracker_app.py:86-90 | what `save_settings` leaves in the table, without ids: the grid of the stripped keywords and cities with the stripped target |
| Store.SettingsForAt | rank_tracker_app.py:86-90 | after `save_settings` there are `|keywords| * |cities|` rows, and row `i * |cities| + j` holds keyword `i`, city `j` and the target, each stripped |
| Store.SettingsForStripped | rank_tracker_app.py:90 | every stored settings field is already stripped |
| Store.Database.Valid | rank_tracker_app.py:19-48 | the `AUTOINCREMENT` id order: in each table, ids increase strictly in row order and none exceeds the table's counter |
| Store.Database.constructor | rank_tracker_app.py:19-48 | `init_db` on a new database: three empty tables whose ids are well ordered, and all three id counters at 0, so the first row of each table gets id 1 |
| Store.Database.SaveRank | rank_tracker_app.py:73-81 | exactly one row is appended, with the given keyword, city, target, rank and date, and with an id above every existing id; earlier rows, the settings and the schedule are unchanged |
| Store.Database.SaveSettings | rank_tracker_app.py:83-92 | the settings table becomes exactly the numbered stripped keyword/city grid, with `|keywords| * |cities|` rows; no earlier row survives; ids keep increasing; no other table changes |
| Store.Database.InsertKeywordRows | rank_tracker_app.py:87-90 | the outer loop leaves the emptied table holding the rows of every keyword, in keyword order, numbered from the counter |
| Store.Database.InsertCityRows | rank_tracker_app.py:88-90 | the inner loop appends one stripped row per city, in city order, numbered from the counter |
| Store.Database.LoadSettings | rank_tracker_app.py:94-98 | the settings rows come back in increasing id order |
| Store.Database.SaveSchedule | rank_tracker_app.py:100-106 | the schedule table becomes exactly one row `(day, time)`, and `LoadSchedule` then returns `(day, time)`; no other table changes |
| Store.Database.LoadSchedule | rank_tracker_app.py:108-115 | the day and time of the first schedule row, or `(None, None)` exactly when the table is empty |
| Job.Observe | rank_tracker_app.py:127-129 | the record one settings row produces: its keyword, city and target, the rank of the target among the results fetched for that keyword and city, and the date |
| Job.JobRows | rank_tracker_app.py:125-130 | the job writes exactly one record per settings row |
| Job.JobRowsAt | rank_tracker_app.py:126-129 | record `k` copies keyword, city and target of settings row `k`, and its rank is the rank of the target among that search's results |
| Job.JobAfterSettings | rank_tracker_app.py:126-129 | after `save_settings`, the job's record `i * |cities| + j` is for stripped keyword `i` and stripped city `j`, with the rank of the stripped target |
| Job.RunWeeklyJob | rank_tracker_app.py:125-130 | the rankings table gains exactly the numbered job records for the settings snapshot, in settings order, after its old rows; settings and schedule are unchanged |

## Left out

- The Streamlit interface, its widgets, the charts and `load_data` (rank_tracker_app.py:116-120, 146-203) are user interface over pandas and matplotlib.
- The "Run Tracking Now" button (rank_tracker_app.py:167-174) is part of the interface. It runs the same fetch-and-save steps as the weekly job, but over the unsaved inputs.
- The HTTP request, its User-Agent header and the BeautifulSoup selection of `div.tF2Cxc` blocks and their first `<a>` (rank_tracker_app.py:58-62, 65) are network I/O and a foreign HTML parser. `get_rank` is modelled from the sequence of entries they produce.
- An anchor without an `href` makes line 66 raise `KeyError`, and `requests.get` can raise. The source handles neither, so entries are only "no anchor" or "anchor with `href`".
- `build_google_url` (rank_tracker_app.py:53-55) only formats the request URL with `urllib.parse.quote`. It feeds the fetch, which is a parameter here.
- sqlite connections, commits and `pd.read_sql_query` (rank_tracker_app.py:20-48, 74-120) are persistence plumbing. The tables are in-memory sequences.
- Table order is insertion order. `SELECT *` without `ORDER BY` is taken to return rows in rowid order.
- The `schedule` library, the background thread, the 60-second poll and `time.sleep` (rank_tracker_app.py:130, 132-143) are concurrency and wall-clock timing.
- `datetime.now().strftime("%Y-%m-%d")` (rank_tracker_app.py:79) is a clock read. The date is a parameter of `SaveRank`, and `RunWeeklyJob` takes it from `clock`. Date formatting is not modelled.
- `Store.Database.LoadSettings` returns the rows themselves rather than a pandas data frame; column access by name becomes field access.
- Job.RunWeeklyJob: live search results can change between two requests, even two made 2 seconds apart (rank_tracker_app.py:130) for a keyword/city pair listed twice. The model takes `fetch` to be a function, so such a pair gets the same rank both times.
