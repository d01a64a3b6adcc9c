# Pomodoro leaderboard: extraction and aggregation core

A Dafny model of the data core of `PomodoroLeaderboardParser` in
`xml_to_html_parser.py`. The parser reads a spreadsheet table of daily
pomodoro counts and builds a leaderboard: the header dates, each user's
per-day scores, each user's total, the most valuable player (MVP) of each
day, the ranking by total, the grand total and the leader.

The parser object is modelled as the class
`Leaderboard.PomodoroLeaderboardParser`, with the source's four fields
(`dates`, `usersData`, `totals`, `mvpData`). Its methods keep the loops of the
source, and each one is proved against pure functions. The properties are
proved about those functions as lemmas:

- `wrappers.dfy`: `Option` and `Result`.
- `text.dfy`: `str.strip()` (Python's whitespace set), `int(text)` for
  base-10 text, `str(n)` and `sep.join`. `int()` skips less whitespace
  than `str.strip()`: it keeps the separators 0x1C..0x1F and then fails.
- `ordered_dict.dfy`: the insertion-ordered `dict`, written as a sequence of
  (key, value) pairs. `Put` is `d[k] = v`: it replaces a value in place or
  appends a new key.
- `sheet.dfy`: the already-parsed document. A worksheet may be missing, its
  table may be missing, and the table holds rows of cells with optional text.
  This file also holds the structural checks of `parse_xml`.
- `extract.dfy`: header dates, user-row classification, score slots, and the
  users in encounter order (a repeated name keeps its place and takes the
  last row's scores). It also holds `totals`.
- `mvp.dfy`: the per-day MVP, meaning the running maximum from -1 and the
  users tied at it. Zero is never a winning score.
- `ranking.dfy`: the stable descending ranking of `totals`, the grand total
  and the leader.
- `leaderboard.dfy`: the parser class.

Details of the code that the model keeps:

- A day has no winner whenever its highest score is at most 0. That includes
  negative scores, which `int()` accepts.
- A user whose score list is too short for a day is skipped for that day.
  The code does not count it as 0. In one run every list has one slot per
  date, so this never matters there.
- `_parse_dates` appends to the dates already held. `ParseDates` says so.

## Model

| member | source | states |
|---|---|---|
| Leaderboard.PomodoroLeaderboardParser.constructor | xml_to_html_parser.py:15-20 | a new parser has no dates, users, totals or MVP entries, and its invariant holds |
| Leaderboard.PomodoroLeaderboardParser.ParseXml | xml_to_html_parser.py:22-53 | succeeds exactly when the worksheet and table exist and the table has at least 2 rows. On failure nothing changes. On success the dates come from row 0, the users from the rows after it and the MVPs from those users. Starting empty, every score list has one slot per date |
| Leaderboard.PomodoroLeaderboardParser.ParseDates | xml_to_html_parser.py:62-70 | appends exactly the header dates of the row, in order |
| Leaderboard.PomodoroLeaderboardParser.ParseUserData | xml_to_html_parser.py:72-95 | processes the rows in order, one row step each. It keeps keys unique and totals equal to score sums. Aligned score lists stay aligned, and the MVP table is recomputed from the final users |
| Leaderboard.PomodoroLeaderboardParser.IsUserRow | xml_to_html_parser.py:121-132 | true exactly when some cell after the first holds text that `int()` accepts |
| Leaderboard.PomodoroLeaderboardParser.ParseUserRow | xml_to_html_parser.py:134-155 | stores the row's score list under the name in `users_data` and its sum in `totals`, replacing in place or appending |
| Leaderboard.PomodoroLeaderboardParser.CalculateDailyMvp | xml_to_html_parser.py:97-119 | the running max/tie loop yields exactly one entry per day index below the number of dates. Each entry is the text of that day's MVP outcome |
| Sheet.ParseCell | xml_to_html_parser.py:125-131 | a cell holds an integer only when it holds text with a decimal digit in it, so a label, a blank cell or a lone sign is never a score |
| Text.Trim | xml_to_html_parser.py:70 | the stripped text neither starts nor ends with whitespace |
| Text.TrimIsMiddle | xml_to_html_parser.py:70 | the stripped text is the slice of the input left after dropping whitespace at the front and at the back, with only whitespace before and after it |
| Text.TrimKeepsContent | xml_to_html_parser.py:84 | stripping removes whitespace only, and gives an empty result exactly for all-whitespace text |
| Text.TrimIdempotent | xml_to_html_parser.py:84 | stripping twice is the same as stripping once |
| Text.ParseIntRoundTrip | xml_to_html_parser.py:145 | `int(str(n)) == n` for every integer `n` |
| Text.ParseIntNeedsDigit | xml_to_html_parser.py:128 | text that `int()` accepts contains a decimal digit |
| Text.IntSkipsAsciiBlanks | xml_to_html_parser.py:145 | `int()` skips a leading space and a trailing newline: `int(" " + str(n) + "\n") == n` for every integer `n` |
| Text.IntRejectsSeparator | xml_to_html_parser.py:128 | text that starts with a separator 0x1C..0x1F is never an integer, although `str.strip()` would remove that separator |
| OrderedDict.Put | xml_to_html_parser.py:154-155 | dict assignment: the key maps to the new value and no other key changes. A present key keeps its position and a new key is appended. Unique keys stay unique |
| Extract.HeaderDates | xml_to_html_parser.py:62-70 | there are no more dates than header cells, and every date contains a dot |
| Extract.HeaderDatesAt | xml_to_html_parser.py:65-70 | date `k` is the trimmed text of the `k`-th date cell, a cell with text that contains a dot |
| Extract.DateIndicesComplete | xml_to_html_parser.py:65-70 | the date cells are taken in header order, and no date cell is skipped |
| Extract.UserName | xml_to_html_parser.py:74-88 | the name is the first cell's stripped text. It is never empty, does not start or end with whitespace, and is its own stripped form. A row has a name exactly when it has a first cell holding some character other than whitespace |
| Extract.BlankNameSkipped | xml_to_html_parser.py:76-88 | a row with no cells, or whose first cell is missing, empty or all whitespace, leaves the users unchanged whatever its other cells hold |
| Extract.RowScores | xml_to_html_parser.py:139-152 | the score list has exactly one slot per date, whatever the row's length |
| Extract.RowScoresSlots | xml_to_html_parser.py:140-152 | slot `i` is cell `i+1`'s integer. It is 0 past the row's end and where the cell has no text or text that `int()` rejects |
| Extract.CellRoundTrip | xml_to_html_parser.py:143-146 | a cell holding `str(n)` holds the integer `n` |
| Extract.ScoresRoundTrip | xml_to_html_parser.py:137-152 | reading back a user row written with `str(score)` cells yields the same scores |
| Extract.ApplyRowSkips | xml_to_html_parser.py:78-92 | a row without a non-blank first cell, or without an integer after it, changes no user |
| Extract.ApplyRowStores | xml_to_html_parser.py:91-92 | a user row stores its scores under its name. A repeated name keeps its position and takes the new scores (last row wins, no merge). No other user changes |
| Extract.ApplyRowsInvariant | xml_to_html_parser.py:72-95 | extraction keeps keys unique and keeps score lists aligned with the dates. Users already present keep their encounter order |
| Extract.TotalsOf | xml_to_html_parser.py:155 | `totals` has the same keys as `users_data`, in the same order |
| Extract.TotalsOfLookup | xml_to_html_parser.py:154-155 | looked up by name, each user's total is the sum of that user's scores, and a name with no scores has no total |
| Extract.TotalsOfPut | xml_to_html_parser.py:154-155 | storing the scores and then storing their sum keeps `totals[u] == sum(users_data[u])` for every user |
| Mvp.MvpTable | xml_to_html_parser.py:99-119 | `mvp_data` has exactly the day indices below the number of dates |
| Mvp.DayMax | xml_to_html_parser.py:101-111 | the running maximum starts at -1 and is at least every score of the day |
| Mvp.DayMaxIsMax | xml_to_html_parser.py:101-111 | unless the running maximum is still -1, some user holds it |
| Mvp.DayWinnersExact | xml_to_html_parser.py:104-111 | the users collected for a score are exactly those with that score on the day, in encounter order |
| Mvp.NoWinnerIffNoPositive | xml_to_html_parser.py:114-119 | a day has no winner ("-") exactly when nobody scored above 0. This includes having no users and everyone being tied at 0 |
| Mvp.WinnersAreTopScorers | xml_to_html_parser.py:97-119 | when a day has winners, the maximum is positive and there is at least one winner. Exactly the users at the maximum are winners, in encounter order |
| Mvp.UniqueTopScorer | xml_to_html_parser.py:97-119 | a unique positive maximum makes its holder the only MVP |
| Mvp.TwoUserExample | xml_to_html_parser.py:97-119 | Alice [3,5] and Bob [5,5]: Bob wins day 0, and Alice and Bob tie on day 1. A day where everyone scores 0 has no winner |
| Ranking.RankCorrect | xml_to_html_parser.py:161 | the ranking is non-increasing by total, is a permutation of `totals`, and is stable: users with equal totals keep encounter order |
| Ranking.TotalPomodorosIsSumOfScores | xml_to_html_parser.py:596 | the grand total of `totals` equals the sum of every score of every user |
| Ranking.LeaderIndex | xml_to_html_parser.py:599 | `max` picks a user with the largest total, and the first such user |
| Ranking.TopPerformerHeadsRanking | xml_to_html_parser.py:599 | the leader is the head of the ranking |

## Left out

- XML parsing (`ET.parse`, namespaces, `find`/`findall`) and its `ParseError` and generic `except` paths (xml_to_html_parser.py:25-29, 55-60) belong to the XML library. The model starts from an already-parsed `Sheet.Document`. The `xml_file` path given to the constructor is not kept.
- The diagnostic messages of `parse_xml` are not modelled: printing is I/O. `Sheet.TableRows` names which check failed, and `ParseXml` returns the same boolean as the source.
- Text.ParseInt: underscores between digits (`1_000`) and non-ASCII decimal digits, which Python's `int()` accepts, are not accepted here. The limit of 4300 digits that Python 3.11 and later put on `int()` is not modelled either: longer digit text is read as a number here, where Python raises `ValueError` (a 0 slot, or a row that is not a user row).
- HTML, CSS and JavaScript generation (`generate_html`, `_generate_summary_section`, the markup of `_generate_leaderboard_table` and `_generate_statistics`, the podium and emoji) is presentation.
- The score-tier classes (`max_score * 0.8`, `* 0.4`) and `avg_per_day` use floating point, and are presentation.
- `active_days` (xml_to_html_parser.py:597) is shown as the Tracking Days figure and divides the average. It counts the non-empty dates. Every date holds a dot (`Extract.HeaderDates`), so it always equals the number of dates and adds nothing to the model.
- Showing dates, scores and MVPs newest first is a rendering choice.
- `main`, `argparse`, file writing, `print` and `sys.exit` are process plumbing.
- Ranking.Rank: Python's `sorted` is a merge-based sort. The model uses an insertion sort, which gives the same list because stable sorts agree. The order of comparisons is not modelled.
