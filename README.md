# Dashboard updater for the "muse" client, modelled in Dafny

`muse_update_dashboard.py` is a small batch job. It runs in three steps:

1. It reads two credential files of `key = value` lines with `ler_credenciais`. The client's file has the `{cliente}` placeholder replaced by the client name `muse`.
2. It builds a SQL Server engine from the default credentials.
3. It runs two feeds in turn, Meta Ads and then Google Ads. Each feed reads a Google Sheets worksheet. When the worksheet holds data, the feed deletes the trailing seven days (yesterday and the six days before it) from the feed's table and appends the worksheet's rows. The delete and the append share one transaction.

A feed's failure is logged and suppressed, so the other feed still runs. A failure before the feeds ends the script.

The model has four modules:

- `Wrappers`: `Option` and `Result`.
- `PyStr`: the Python `str` operations the loader uses, with CPython's semantics for non-empty patterns (the loader only uses `' = '` and `'{cliente}'`).
  - `pat in s` and `s.find(pat)`.
  - `s.split(sep)` and `sep.join(parts)`, scanning left to right without overlaps.
  - `s.replace(pat, rep)`.
  - `s.strip()` over the full `str.isspace()` set, and `s.strip(chars)`.
  - Each function is specified by the lemmas that follow it.
- `Credentials`: `ler_credenciais`.
  - `Load` is the specification function over the file's lines.
  - `LoadCredentials` is the loop itself. It fills a map line by line and is proved equal to `Load`.
  - `ReadLine` is one loop iteration, proved equal to `ParseLine`.
- `Etl`: the rest of the job.
  - The window.
  - The DELETE text and a parser for it.
  - One feed's run, as the trace of actions it attempts plus its outcome.
  - The destination table as it changes under committed loads.
  - The job and the script's startup.

Everything the outside world decides is a parameter:

- whether a call raises;
- what the worksheet holds;
- today's date, per feed;
- how a date is formatted.

### Notes on the code's behaviour

- The DELETE and the append run in one `engine.begin()` transaction. It commits only when both return and rolls back otherwise, so a failed append leaves no gap in the table, as long as the DELETE and the append name the same table (see `Etl.Perform` under "## Left out"). `Etl.RunFeedExecuted` replays each trace on the table and shows that every run that does not load leaves it unchanged.
- `create_engine` does not connect. `engine.begin()` does, inside each feed's `try`, so an unreachable server fails each feed separately (`FeedEnv.connect`). Only a missing database key or a failing `create_engine` aborts the job.
- A rerun with an unchanged sheet on the same day leaves the rows of the trailing window as one run does (`Etl.RerunKeepsWindow`). The DELETE covers only the window, but the append inserts every row of the sheet. A sheet row dated outside the window is therefore appended again on every run (`Etl.RerunDuplicatesOldRows`), and the whole table is unchanged by a rerun only when every sheet row is dated inside the window (`Etl.RerunIsIdempotent`).
- Each feed calls `datetime.now()` on its own, so each feed's environment has its own `today`.

## Model

| member | source | states |
|---|---|---|
| Credentials.LoadCredentials | muse_update_dashboard.py:12-20 | The loop's result equals `Load` of the file's lines: the map of all pairs, or the error of the first line that does not unpack. |
| Credentials.ReadLine | muse_update_dashboard.py:16-19 | One iteration (strip, split on `' = '`, unpack, guarded replace, two strips) yields exactly `ParseLine` of the line. |
| Credentials.ParseLineIsSplitAndUnpack | muse_update_dashboard.py:16 | Fewer than two pieces is "not enough values" and more than two is "too many values". Exactly two pieces bind the first piece to the processed second piece. |
| Credentials.SubstituteReplacesAll | muse_update_dashboard.py:17-18 | With a truthy client, every `{cliente}` becomes the client name: the value is cut at each placeholder and rejoined with the name. Without a client, or with an empty one, the value is untouched. |
| Credentials.CleanValueHasNoOuterBraces | muse_update_dashboard.py:19 | A stored value never starts or ends with `{` or `}`. |
| Credentials.CleanValueKeepsInnerQuotes | muse_update_dashboard.py:19 | Quotes are stripped before braces, so `{'x'}` is stored as `'x'`. |
| Credentials.PlaceholderWithoutClient | muse_update_dashboard.py:17-19 | Without a client, a `{cliente}` value is stored as `cliente`. |
| Credentials.WellFormedLine | muse_update_dashboard.py:16-19 | A line that is `k = raw` once stripped, with no other separator, binds `k` to the substituted and stripped `raw`. |
| Credentials.BlankLineIsMalformed | muse_update_dashboard.py:15-16 | A line of whitespace only has no separator, so any file holding it fails to load. |
| Credentials.LoadFailsAtFirstMalformed | muse_update_dashboard.py:15-16 | Loading fails exactly when some line does not unpack. The error names the first such line and why, and no map is returned. |
| Credentials.LoadKeys | muse_update_dashboard.py:14-19 | A loaded map's keys are exactly the keys on the file's lines. |
| Credentials.LoadLastWins | muse_update_dashboard.py:19 | For a repeated key, the value from its last line wins. |
| Credentials.CollectNext | muse_update_dashboard.py:15-19 | One more line either adds its binding to the map so far or ends the load with that line's error. |
| PyStr.FindSpec | muse_update_dashboard.py:17 | `find` returns the lowest index where the pattern occurs, and reports absence only when it occurs nowhere. |
| PyStr.ContainsIff | muse_update_dashboard.py:17 | `pat in s` holds exactly when `pat` occurs somewhere in `s`. |
| PyStr.SplitJoin | muse_update_dashboard.py:16 | `sep.join(s.split(sep)) == s`, and no piece contains the separator. |
| PyStr.SplitPieces | muse_update_dashboard.py:16 | `split` gives one piece without a separator. Otherwise it gives the text before and after the first separator, or more than two pieces when another separator follows. |
| PyStr.ReplaceIsJoinOfSplit | muse_update_dashboard.py:18 | `s.replace(pat, rep) == rep.join(s.split(pat))`: every non-overlapping occurrence is replaced. |
| PyStr.ReplaceAbsent | muse_update_dashboard.py:18 | Replacing a pattern that does not occur leaves the text unchanged. |
| PyStr.TrimStartSpec | muse_update_dashboard.py:19 | Left stripping drops the longest prefix of stripped characters and nothing else. |
| PyStr.TrimEndSpec | muse_update_dashboard.py:19 | Right stripping drops the longest suffix of stripped characters and nothing else. |
| PyStr.StripSpec | muse_update_dashboard.py:16 | `strip` leaves a slice that neither starts nor ends with a stripped character. Every character it removes is a stripped one. |
| PyStr.StripIdempotent | muse_update_dashboard.py:19 | Stripping twice with the same characters equals stripping once. |
| Etl.TrailingWindow | muse_update_dashboard.py:68-69 | The window's start is not after its end, and it spans seven days. |
| Etl.TrailingWindowIsLastWeek | muse_update_dashboard.py:82-83 | A day is in the window exactly when it is one of the seven days before today. Today is never in it. |
| Etl.DeleteStatementRoundTrip | muse_update_dashboard.py:55 | From the DELETE text, the table and both formatted dates are read back unchanged, when no range clause begins inside the table name and no `' AND '` inside the start date. |
| Etl.FirstCharFreeCutsAfter | muse_update_dashboard.py:55 | A table name without a space, or a date without a quote, leaves the statement's clauses intact. |
| Etl.ParseDeleteStatementSound | muse_update_dashboard.py:55 | Any text the parser accepts is exactly the DELETE built from the pieces it returns. |
| Etl.CutAtFreePrefix | muse_update_dashboard.py:55 | A piece in which no occurrence of the separator begins is cut off whole. |
| Etl.CutAtSound | muse_update_dashboard.py:55 | The piece before and the piece after the first separator rebuild the text. |
| Etl.InsertTraces | muse_update_dashboard.py:53-59 | The transaction leaves one of four traces: nothing, DELETE then rollback, DELETE then append then rollback, or DELETE then append then commit. |
| Etl.EmptySheetWritesNothing | muse_update_dashboard.py:66-72 | An empty worksheet leads to no DELETE and no append. The outcome is "nothing to insert" exactly when the sheet was reached. |
| Etl.LoadedRun | muse_update_dashboard.py:63-75 | A feed loads exactly when every lookup and call succeeds and the sheet holds data. It then reads the sheet, deletes the window, appends all rows and commits, and does nothing else. |
| Etl.RunFeedTransaction | muse_update_dashboard.py:53-57 | Every trace: the read comes first, the DELETE of the window comes right after it, the append right after the DELETE, and a touched database ends with a commit or a rollback. |
| Etl.BracketedTraces | muse_update_dashboard.py:53-59 | Each of the traces a feed can leave obeys that discipline. |
| Etl.LoadedDeletesTrailingWeek | muse_update_dashboard.py:82-84 | A loaded run's window is the week before its own today, and its DELETE is the statement for the feed's table and that window. The table and dates are read back from the text whenever they leave its clauses intact. |
| Etl.OutsideSpec | muse_update_dashboard.py:55-56 | The DELETE keeps exactly the rows dated outside the window. |
| Etl.OutsideAppend | muse_update_dashboard.py:55-56 | The DELETE filters a table's rows one by one: on rows split into two runs, it keeps what it keeps from each run, in order. |
| Etl.NothingOutside | muse_update_dashboard.py:55-56 | Rows all outside the window are all kept; rows all inside it are all deleted. |
| Etl.ApplyLoadReplacesWindow | muse_update_dashboard.py:55-57 | After a load, the old rows outside the window remain, and every row inside it is an appended one. |
| Etl.ApplyLoadIdempotent | muse_update_dashboard.py:55-57 | Loading the same rows into the same window twice equals loading once, when every row falls in the window. |
| Etl.InsideOutside | muse_update_dashboard.py:55 | No row the DELETE keeps lies inside the window. |
| Etl.ApplyLoadWindow | muse_update_dashboard.py:55-57 | After a load, the window holds exactly the appended rows dated inside it, whatever the table held before. Loading again leaves the window as it was. |
| Etl.ApplyLoadDuplicatesOldRows | muse_update_dashboard.py:55-57 | A row dated outside the window makes a second load leave a longer table. |
| Etl.RunFeedExecuted | muse_update_dashboard.py:53-57 | Replaying a run's trace on the table (DELETE and append in the transaction, commit keeps, rollback discards) gives the load's result for a loaded run and the unchanged table for every other run. |
| Etl.RerunKeepsWindow | muse_update_dashboard.py:63-75 | Rerunning a feed with the same sheet on the same day leaves the window's rows as one run does, for every sheet. |
| Etl.RerunIsIdempotent | muse_update_dashboard.py:63-75 | Rerunning a feed with the same sheet on the same day leaves the whole table as one run does, when every sheet row is in the window. A run that did not load leaves the table unchanged. |
| Etl.RerunDuplicatesOldRows | muse_update_dashboard.py:63-75 | A loaded sheet row dated outside the window is added again by every rerun. |
| Etl.FirstMissingSpec | muse_update_dashboard.py:31-32 | The lookups fail exactly when some key is missing, and the `KeyError` names the first missing key. |
| Etl.RunJobAborts | muse_update_dashboard.py:91-94 | The job aborts, with no action, exactly when a database key is missing or engine creation raises. Otherwise Meta Ads runs and then Google Ads. |
| Etl.FeedsAreIsolated | muse_update_dashboard.py:74-94 | Google Ads' run is the same whatever Meta Ads' run returns or raises, and its actions come after Meta's. |
| Etl.SameDaySameWindow | muse_update_dashboard.py:82-83 | Two feeds loaded on the same day clear the same window. |
| Etl.RunScriptStartup | muse_update_dashboard.py:22-25 | What stops the script before any feed, in order: the first malformed line of the default file, then the first malformed line of the client file (each reported with its line and kind), then a client file with no `log_path` line, then a log file that cannot be opened. |
| Etl.RunScriptCompletes | muse_update_dashboard.py:22-36 | The feeds run exactly when every line of both files is a `key = value` pair, the client file has a `log_path` line, the default file has a line for each database key, the log file opens, and the engine can be created. |

## Left out

- Opening and reading the credential files, and cutting a file into lines: the lines are an input. A missing file is not modelled.
- Logging (`logging.basicConfig` and the `info`/`error` messages): the messages do not change the data. Kept are the `log_path` lookup and the opening of the log file by `basicConfig`, a `Step` that may raise and so end the script. The log file's contents are not modelled.
- The connection-string text and the SQLAlchemy/pyodbc engine: engine creation is a `Step` that may raise, after the four key lookups.
- The OAuth scope list and the gspread calls: authorisation and the worksheet read are inputs. So is the order in which the calls inside `worksheet`/`get_all_records` raise.
- The pandas DataFrame: it is kept only as its rows and its `.empty` test. `to_sql`'s chunking and column mapping are not modelled.
- `datetime.now()` and `strftime('%Y-%m-%d')`: the date is a `Day` input per feed, and the formatter is a function parameter. The time of day is dropped.
- How SQL Server compares the `Dia` column in `BETWEEN`: each stored row carries the day the database reads from it, given by the `dayOf` parameter. Other tables and columns are not modelled.
- Exception types and messages: every raise is `Raised(reason)` or `MissingKey(key)`.
- Etl.Insert: a commit that raises is recorded as a rollback, on the assumption that the database discards a transaction whose commit failed.
- Etl.Perform: the DELETE's window is given as a parameter, the range of days the database reads from the statement's two formatted dates. The model does not parse dates back. The DELETE and the append are taken to act on the same table. That holds only for a table name that SQL text and `to_sql` read the same way. A name with a schema prefix (`dbo.meta_ads`) or brackets is pasted into the DELETE as SQL. `to_sql` (with `schema=None`) reads it as the name of one table in the default schema, so the two can address different tables.
- Etl.FeedsAreIsolated: every outside call is taken to return or raise an `Exception`. A call that never returns blocks the second feed: the gspread calls have no timeout; only the database connect has one, of 60 seconds. So does a `BaseException` such as `KeyboardInterrupt`, which `except Exception` does not catch. Neither is modelled.
- Etl.DeleteStatementRoundTrip: it requires that no ` WHERE Dia BETWEEN '` begins inside the table name and no `' AND '` inside the start date. Otherwise the parser cuts the text earlier. `%Y-%m-%d` never yields a quote, but the source does not restrict table names.
