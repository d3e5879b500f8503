/** The extract-and-load part of the dashboard updater: for each of the two
    advertising feeds (Meta Ads and Google Ads) it reads a worksheet, and, when
    the worksheet holds data, deletes the last seven days from the feed's
    table and appends the worksheet's rows, all in one transaction.

    Everything the outside world decides (whether a call raises, what the
    worksheet holds, today's date) is a parameter; each run produces the
    trace of the actions it attempts against the sheet service and the
    database, and its outcome. */
module Etl {
  import opened Wrappers
  import opened PyStr
  import Credentials

  /** A calendar day, counted in days; only the date part of `datetime.now()`
      survives the `%Y-%m-%d` formatting, so the time of day is not kept. */
  type Day = int

  /** An inclusive range of days, as used by `BETWEEN`. */
  datatype Window = Window(start: Day, end: Day)

  predicate InWindow(w: Window, d: Day)
  {
    w.start <= d <= w.end
  }

  /** `end_date = now - 1 day`, `start_date = end_date - 6 days`. */
  function TrailingWindow(today: Day): (w: Window)
    ensures w.start <= w.end && w.end - w.start + 1 == 7
  {
    var end := today - 1;
    Window(end - 6, end)
  }

  /** The window is exactly the seven days before today: today itself is
      never deleted, and neither is anything older than a week. */
  lemma {:induction false} TrailingWindowIsLastWeek(today: Day)
    ensures forall d :: InWindow(TrailingWindow(today), d) <==> today - 7 <= d < today
    ensures !InWindow(TrailingWindow(today), today)
  {
  }

  // ---------------------------------------------------------------------
  // The DELETE statement

  const DeletePrefix := "DELETE FROM "
  const RangeClause := " WHERE Dia BETWEEN '"
  const AndClause := "' AND '"

  /** The text of the statement that clears a range of days from a table;
      `start` and `end` are the formatted dates. */
  function DeleteStatement(table: string, start: string, end: string): string
  {
    DeletePrefix + table + RangeClause + start + AndClause + end + "'"
  }

  /** The statement read as the prefix followed by the table, the range clause
      and the dates. */
  lemma {:induction false} DeleteStatementShape(table: string, start: string, end: string)
    ensures DeleteStatement(table, start, end) ==
              DeletePrefix + (table + RangeClause + (start + AndClause + (end + "'")))
  {
  }

  /** The text before and after the first occurrence of `sep`. */
  function CutAt(s: string, sep: string): Option<(string, string)>
    requires |sep| > 0
  {
    match Find(s, sep)
    case None => None
    case Some(i) => Some((s[..i], s[i + |sep|..]))
  }

  /** No occurrence of `sep` begins inside `x` when `sep` follows it; then
      `x + sep + y` is cut right after `x`, whatever `y` is. */
  predicate CutsAfter(x: string, sep: string)
    requires |sep| > 0
  {
    !Contains(x + sep[..|sep| - 1], sep)
  }

  /** A piece in which no occurrence of `sep` begins is cut off whole. */
  lemma {:induction false} CutAtFreePrefix(x: string, sep: string, y: string)
    requires |sep| > 0 && CutsAfter(x, sep)
    ensures CutAt(x + sep + y, sep) == Some((x, y))
  {
    var s := x + sep + y;
    var h := x + sep[..|sep| - 1];
    ContainsIff(h, sep);
    forall j | 0 <= j < |x| ensures !OccursAt(s, sep, j) {
      assert !OccursAt(h, sep, j);
      assert s[j..j + |sep|] == h[j..j + |sep|];
    }
    FindAfterFreePrefix(x, sep, y);
    assert s[..|x|] == x;
    assert s[|x| + |sep|..] == y;
  }

  /** A piece that never holds the first character of `sep` is cut off
      whole: no occurrence can begin inside it. */
  lemma {:induction false} FirstCharFreeCutsAfter(x: string, sep: string)
    requires |sep| > 0 && sep[0] !in x
    ensures CutsAfter(x, sep)
  {
    var h := x + sep[..|sep| - 1];
    ContainsIff(h, sep);
    forall j ensures !OccursAt(h, sep, j) {
      if 0 <= j < |x| && j + |sep| <= |h| {
        assert h[j..j + |sep|][0] == x[j];
      }
    }
  }

  /** Gluing the two pieces back with `sep` gives the text that was cut. */
  lemma {:induction false} CutAtSound(s: string, sep: string)
    requires |sep| > 0 && CutAt(s, sep).Some?
    ensures s == CutAt(s, sep).value.0 + sep + CutAt(s, sep).value.1
  {
    var i := Find(s, sep).value;
    FindSpec(s, sep);
    assert s[i..i + |sep|] == sep;
    assert s == s[..i] + s[i..i + |sep|] + s[i + |sep|..];
  }

  /** Reads back the table and the two dates from a statement of the shape
      `DeleteStatement` produces, cutting at the first `RangeClause` and then
      at the first `AndClause`. */
  function ParseDeleteStatement(q: string): Option<(string, string, string)>
  {
    if |q| < |DeletePrefix| || q[..|DeletePrefix|] != DeletePrefix then None
    else
      match CutAt(q[|DeletePrefix|..], RangeClause)
      case None => None
      case Some((table, dates)) =>
        match CutAt(dates, AndClause)
        case None => None
        case Some((start, rest)) =>
          if rest == [] || rest[|rest| - 1] != '\'' then None
          else Some((table, start, rest[..|rest| - 1]))
  }

  /** The statement names the table and the range it was built from: all
      three are read back unchanged, as long as no range clause begins inside
      the table name and no `' AND '` inside the start date (a table name
      without a space and a start date without a quote always qualify, by
      `FirstCharFreeCutsAfter`). */
  lemma {:induction false} DeleteStatementRoundTrip(table: string, start: string, end: string)
    requires CutsAfter(table, RangeClause) && CutsAfter(start, AndClause)
    ensures ParseDeleteStatement(DeleteStatement(table, start, end)) == Some((table, start, end))
  {
    var last := end + "'";
    var dates := start + AndClause + last;
    var r := table + RangeClause + dates;
    var q := DeleteStatement(table, start, end);
    DeleteStatementShape(table, start, end);
    assert q[..|DeletePrefix|] == DeletePrefix;
    assert q[|DeletePrefix|..] == r;
    CutAtFreePrefix(table, RangeClause, dates);
    CutAtFreePrefix(start, AndClause, last);
    assert last[..|last| - 1] == end;
  }

  /** Whatever the parser accepts is exactly the statement built from the
      pieces it returns. */
  lemma {:induction false} ParseDeleteStatementSound(q: string)
    requires ParseDeleteStatement(q).Some?
    ensures var (t, a, b) := ParseDeleteStatement(q).value;
            q == DeleteStatement(t, a, b)
  {
    var r := q[|DeletePrefix|..];
    assert q == DeletePrefix + r;
    CutAtSound(r, RangeClause);
    var (t, dates) := CutAt(r, RangeClause).value;
    CutAtSound(dates, AndClause);
    var (a, rest) := CutAt(dates, AndClause).value;
    var b := rest[..|rest| - 1];
    assert rest == b + "'";
    DeleteStatementShape(t, a, b);
  }

  // ---------------------------------------------------------------------
  // One feed

  /** A worksheet record, as `get_all_records` returns it: column header to
      cell text. */
  type Row = map<string, string>

  /** `pd.DataFrame(records).empty`: there are no rows, or no columns because
      every record is empty. */
  predicate FrameEmpty(rows: seq<Row>)
  {
    forall i :: 0 <= i < |rows| ==> rows[i] == map[]
  }

  /** Whether a call into the outside world returns or raises. */
  datatype Step = Ok | Raises(reason: string)

  /** What opening the spreadsheet and reading the worksheet yields. */
  datatype SheetRead = Rows(rows: seq<Row>) | ReadFails(reason: string)

  /** How the outside world behaves during one feed's run: the service
      account authorisation, the worksheet read, today's date, opening the
      transaction, the DELETE, the append and the commit. */
  datatype FeedEnv = FeedEnv(
    authorize: Step,
    sheet: SheetRead,
    today: Day,
    connect: Step,
    delete: Step,
    append: Step,
    commit: Step)

  /** A feed: the default-credentials key naming its worksheet and the
      client-credentials key naming its table. */
  datatype Feed = Feed(worksheetKey: string, tableKey: string)

  const MetaAds := Feed("tabela_metaads", "tabela_bd_meta")
  const GoogleAds := Feed("tabela_googleads", "tabela_bd_google")
  const CredentialsPathKey := "credentials_google_path"
  const SheetIdKey := "sheet_id"

  /** What a run attempts against the sheet service and the database. */
  datatype Action =
    | ReadSheet(keyFile: string, sheetId: string, worksheet: string)
    | ExecuteSql(statement: string)
    | AppendRows(table: string, rows: seq<Row>)
    | Commit
    | Rollback

  /** Why a run ended early: a dictionary lookup that raised `KeyError`, an
      exception from the outside world, or a credential file that did not
      unpack. */
  datatype Error =
    | MissingKey(key: string)
    | Raised(reason: string)
    | Malformed(parse: Credentials.ParseError)

  /** How a feed's run ended: its rows loaded into `table` in place of the
      window, nothing to insert, or an error (logged and suppressed). */
  datatype FeedOutcome =
    | Loaded(table: string, window: Window, rows: seq<Row>)
    | NothingToInsert
    | Failed(error: Error)

  datatype FeedRun = FeedRun(actions: seq<Action>, outcome: FeedOutcome)

  /** `insert_data_into_db`: inside `engine.begin()`, the DELETE of the
      window and the append of the rows; the transaction commits when both
      return and rolls back when either raises. A commit that raises leaves
      the transaction uncommitted, which the database discards: it is
      recorded as a rollback. */
  function Insert(table: string, rows: seq<Row>, w: Window, env: FeedEnv, fmt: Day -> string): FeedRun
  {
    var delete := ExecuteSql(DeleteStatement(table, fmt(w.start), fmt(w.end)));
    var append := AppendRows(table, rows);
    if env.connect.Raises? then FeedRun([], Failed(Raised(env.connect.reason)))
    else if env.delete.Raises? then FeedRun([delete, Rollback], Failed(Raised(env.delete.reason)))
    else if env.append.Raises? then FeedRun([delete, append, Rollback], Failed(Raised(env.append.reason)))
    else if env.commit.Raises? then FeedRun([delete, append, Rollback], Failed(Raised(env.commit.reason)))
    else FeedRun([delete, append, Commit], Loaded(table, w, rows))
  }

  /** `process_meta_ads` / `process_google_ads` with `get_data_from_sheets`
      inlined: every `KeyError` and every exception from the outside world
      ends this feed's run, and nothing escapes it. */
  function RunFeed(feed: Feed, defaults: map<string, string>, client: map<string, string>,
                   env: FeedEnv, fmt: Day -> string): FeedRun
  {
    if feed.worksheetKey !in defaults then FeedRun([], Failed(MissingKey(feed.worksheetKey)))
    else if CredentialsPathKey !in defaults then FeedRun([], Failed(MissingKey(CredentialsPathKey)))
    else if env.authorize.Raises? then FeedRun([], Failed(Raised(env.authorize.reason)))
    else if SheetIdKey !in client then FeedRun([], Failed(MissingKey(SheetIdKey)))
    else
      var read := ReadSheet(defaults[CredentialsPathKey], client[SheetIdKey], defaults[feed.worksheetKey]);
      match env.sheet
      case ReadFails(reason) => FeedRun([read], Failed(Raised(reason)))
      case Rows(rows) =>
        if FrameEmpty(rows) then FeedRun([read], NothingToInsert)
        else
          var w := TrailingWindow(env.today);
          if feed.tableKey !in client then FeedRun([read], Failed(MissingKey(feed.tableKey)))
          else
            var ins := Insert(client[feed.tableKey], rows, w, env, fmt);
            FeedRun([read] + ins.actions, ins.outcome)
  }

  /** The worksheet gets read: every lookup before it succeeds and the
      service account is authorised. */
  predicate SheetReached(feed: Feed, defaults: map<string, string>, client: map<string, string>, env: FeedEnv)
  {
    && feed.worksheetKey in defaults && CredentialsPathKey in defaults
    && env.authorize.Ok? && SheetIdKey in client
  }

  /** An empty worksheet changes nothing: the run reads at most the sheet,
      never deletes or appends, and reports that there was nothing to insert
      once the sheet was reached. */
  lemma {:induction false} EmptySheetWritesNothing(feed: Feed, defaults: map<string, string>,
      client: map<string, string>, env: FeedEnv, fmt: Day -> string)
    requires env.sheet.Rows? && FrameEmpty(env.sheet.rows)
    ensures var run := RunFeed(feed, defaults, client, env, fmt);
            && |run.actions| <= 1
            && (forall i :: 0 <= i < |run.actions| ==> run.actions[i].ReadSheet?)
            && (SheetReached(feed, defaults, client, env) <==> run.outcome == NothingToInsert)
  {
  }

  /** A feed loads exactly when the sheet is reached and holds data, the
      table key is present and no database call raises; the run then reads
      the sheet, deletes the trailing window of the table, appends the rows
      and commits, in that order and nothing else. */
  lemma {:induction false} LoadedRun(feed: Feed, defaults: map<string, string>,
      client: map<string, string>, env: FeedEnv, fmt: Day -> string)
    ensures var run := RunFeed(feed, defaults, client, env, fmt);
            run.outcome.Loaded? <==>
              && SheetReached(feed, defaults, client, env)
              && env.sheet.Rows? && !FrameEmpty(env.sheet.rows)
              && feed.tableKey in client
              && env.connect.Ok? && env.delete.Ok? && env.append.Ok? && env.commit.Ok?
    ensures var run := RunFeed(feed, defaults, client, env, fmt);
            run.outcome.Loaded? ==>
              var t := client[feed.tableKey];
              var w := TrailingWindow(env.today);
              && run.outcome == Loaded(t, w, env.sheet.rows)
              && run.actions == [
                   ReadSheet(defaults[CredentialsPathKey], client[SheetIdKey], defaults[feed.worksheetKey]),
                   ExecuteSql(DeleteStatement(t, fmt(w.start), fmt(w.end))),
                   AppendRows(t, env.sheet.rows),
                   Commit]
  {
  }

  /** Where an action may sit in a feed's trace whose only allowed DELETE is
      `delete`: the sheet read first, the DELETE right after it, the append
      right after the DELETE, and a commit (only after the append) or a
      rollback (only after the DELETE) last. */
  predicate WellPlaced(a: seq<Action>, i: nat, delete: Action)
    requires i < |a|
  {
    match a[i]
    case ReadSheet(_, _, _) => i == 0
    case ExecuteSql(_) => i == 1 && a[i] == delete
    case AppendRows(_, _) => i == 2 && a[1] == delete
    case Commit => i == |a| - 1 && i >= 1 && a[i - 1].AppendRows?
    case Rollback => i == |a| - 1 && i >= 2
  }

  /** The transaction discipline of a feed's trace: every action well
      placed, and a trace that reached the database ends with a commit or a
      rollback. */
  predicate Bracketed(a: seq<Action>, delete: Action)
  {
    && |a| <= 4
    && (forall i :: 0 <= i < |a| ==> WellPlaced(a, i, delete))
    && (|a| >= 2 ==> a[|a| - 1] == Commit || a[|a| - 1] == Rollback)
  }

  /** The transaction of `insert_data_into_db` leaves one of four traces:
      nothing when the connection fails, the DELETE and a rollback, the
      DELETE, the append and a rollback, or the DELETE, the append and the
      commit. */
  lemma {:induction false} InsertTraces(table: string, rows: seq<Row>, w: Window, env: FeedEnv, fmt: Day -> string)
    ensures var a := Insert(table, rows, w, env, fmt).actions;
            var delete := ExecuteSql(DeleteStatement(table, fmt(w.start), fmt(w.end)));
            var append := AppendRows(table, rows);
            || a == []
            || a == [delete, Rollback]
            || a == [delete, append, Rollback]
            || a == [delete, append, Commit]
  {
  }

  /** The traces a feed can leave all keep the discipline. */
  lemma {:induction false} BracketedTraces(read: Action, delete: Action, append: Action)
    requires read.ReadSheet? && delete.ExecuteSql? && append.AppendRows?
    ensures Bracketed([], delete) && Bracketed([read], delete)
    ensures Bracketed([read, delete, Rollback], delete)
    ensures Bracketed([read, delete, append, Rollback], delete)
    ensures Bracketed([read, delete, append, Commit], delete)
  {
    var t2 := [read, delete, Rollback];
    assert WellPlaced(t2, 0, delete) && WellPlaced(t2, 1, delete) && WellPlaced(t2, 2, delete);
    var t3 := [read, delete, append, Rollback];
    assert WellPlaced(t3, 0, delete) && WellPlaced(t3, 1, delete) && WellPlaced(t3, 2, delete) && WellPlaced(t3, 3, delete);
    var t4 := [read, delete, append, Commit];
    assert WellPlaced(t4, 0, delete) && WellPlaced(t4, 1, delete) && WellPlaced(t4, 2, delete) && WellPlaced(t4, 3, delete);
  }

  /** Every run of a feed keeps the transaction discipline, with the DELETE
      of the trailing window from the feed's table as its only statement;
      without a table key the run never gets past reading the sheet. */
  lemma {:induction false} RunFeedTransaction(feed: Feed, defaults: map<string, string>,
      client: map<string, string>, env: FeedEnv, fmt: Day -> string)
    ensures feed.tableKey !in client ==> |RunFeed(feed, defaults, client, env, fmt).actions| <= 1
    ensures feed.tableKey in client ==>
              var w := TrailingWindow(env.today);
              Bracketed(RunFeed(feed, defaults, client, env, fmt).actions,
                        ExecuteSql(DeleteStatement(client[feed.tableKey], fmt(w.start), fmt(w.end))))
  {
    var a := RunFeed(feed, defaults, client, env, fmt).actions;
    if feed.tableKey in client {
      var w := TrailingWindow(env.today);
      var t := client[feed.tableKey];
      var delete := ExecuteSql(DeleteStatement(t, fmt(w.start), fmt(w.end)));
      if |a| == 1 {
        assert WellPlaced(a, 0, delete);
      } else if |a| > 1 {
        var read := a[0];
        var rows := env.sheet.rows;
        BracketedTraces(read, delete, AppendRows(t, rows));
        InsertTraces(t, rows, w, env, fmt);
        assert a == [read] + Insert(t, rows, w, env, fmt).actions;
      }
    }
  }

  /** The DELETE of a loaded run targets the feed's table and the trailing
      window of the run's own date, and its text says so: the table and both
      dates are read back from it whenever the table name and start date
      leave the statement's clauses intact. */
  lemma {:induction false} LoadedDeletesTrailingWeek(feed: Feed, defaults: map<string, string>,
      client: map<string, string>, env: FeedEnv, fmt: Day -> string)
    requires RunFeed(feed, defaults, client, env, fmt).outcome.Loaded?
    ensures var run := RunFeed(feed, defaults, client, env, fmt);
            var w := run.outcome.window;
            var t := run.outcome.table;
            && t == client[feed.tableKey]
            && w == TrailingWindow(env.today)
            && (forall d :: InWindow(w, d) <==> env.today - 7 <= d < env.today)
            && run.actions[1] == ExecuteSql(DeleteStatement(t, fmt(w.start), fmt(w.end)))
            && (CutsAfter(t, RangeClause) && CutsAfter(fmt(w.start), AndClause) ==>
                  ParseDeleteStatement(run.actions[1].statement) == Some((t, fmt(w.start), fmt(w.end))))
  {
    LoadedRun(feed, defaults, client, env, fmt);
    var w := TrailingWindow(env.today);
    var t := client[feed.tableKey];
    TrailingWindowIsLastWeek(env.today);
    if CutsAfter(t, RangeClause) && CutsAfter(fmt(w.start), AndClause) {
      DeleteStatementRoundTrip(t, fmt(w.start), fmt(w.end));
    }
  }

  // ---------------------------------------------------------------------
  // The destination table

  /** A row of a destination table, with the day its `Dia` column holds. */
  datatype Stored = Stored(day: Day, row: Row)

  type Table = seq<Stored>

  /** What `DELETE ... WHERE Dia BETWEEN start AND end` keeps: the rows
      outside the window, in their order. */
  function Outside(table: Table, w: Window): Table
  {
    if table == [] then []
    else (if InWindow(w, table[0].day) then [] else [table[0]]) + Outside(table[1..], w)
  }

  /** The DELETE keeps exactly the rows outside the window. */
  lemma {:induction false} OutsideSpec(table: Table, w: Window)
    ensures forall s :: s in Outside(table, w) <==> s in table && !InWindow(w, s.day)
    decreases |table|
  {
    if table != [] {
      OutsideSpec(table[1..], w);
      assert table == [table[0]] + table[1..];
    }
  }

  lemma {:induction false} OutsideAppend(a: Table, b: Table, w: Window)
    ensures Outside(a + b, w) == Outside(a, w) + Outside(b, w)
    decreases |a|
  {
    if a == [] {
      assert a + b == b;
    } else {
      assert (a + b)[1..] == a[1..] + b;
      OutsideAppend(a[1..], b, w);
    }
  }

  /** The worksheet rows as the append stores them; `dayOf` is the day the
      database reads from a row's `Dia` cell. */
  function Tagged(rows: seq<Row>, dayOf: Row -> Day): (r: Table)
    ensures |r| == |rows|
  {
    seq(|rows|, i requires 0 <= i < |rows| => Stored(dayOf(rows[i]), rows[i]))
  }

  /** A committed load: the DELETE of the window, then the append of the
      rows. */
  function ApplyLoad(table: Table, w: Window, rows: seq<Row>, dayOf: Row -> Day): Table
  {
    Outside(table, w) + Tagged(rows, dayOf)
  }

  /** After a load, the old rows outside the window are still there, and
      every row inside the window is one of the appended rows. */
  lemma {:induction false} ApplyLoadReplacesWindow(table: Table, w: Window, rows: seq<Row>, dayOf: Row -> Day)
    ensures var t := ApplyLoad(table, w, rows, dayOf);
            && (forall s :: s in table && !InWindow(w, s.day) ==> s in t)
            && (forall s :: s in t && InWindow(w, s.day) ==> s in Tagged(rows, dayOf))
  {
    OutsideSpec(table, w);
  }

  /** Loading the same rows into the same window again changes nothing, as
      long as every row falls inside the window. */
  lemma {:induction false} ApplyLoadIdempotent(table: Table, w: Window, rows: seq<Row>, dayOf: Row -> Day)
    requires forall i :: 0 <= i < |rows| ==> InWindow(w, dayOf(rows[i]))
    ensures ApplyLoad(ApplyLoad(table, w, rows, dayOf), w, rows, dayOf) == ApplyLoad(table, w, rows, dayOf)
  {
    var kept := Outside(table, w);
    var added := Tagged(rows, dayOf);
    OutsideAppend(kept, added, w);
    OutsideSpec(kept, w);
    OutsideSpec(table, w);
    OutsideSpec(added, w);
    NothingOutside(kept, w);
    NothingOutside(added, w);
  }

  /** With every row on one side of the window, the DELETE keeps all of them
      or none. */
  lemma {:induction false} NothingOutside(table: Table, w: Window)
    ensures (forall i :: 0 <= i < |table| ==> !InWindow(w, table[i].day)) ==> Outside(table, w) == table
    ensures (forall i :: 0 <= i < |table| ==> InWindow(w, table[i].day)) ==> Outside(table, w) == []
    decreases |table|
  {
    if table != [] {
      var tail := table[1..];
      assert forall i :: 0 <= i < |tail| ==> tail[i] == table[i + 1];
      NothingOutside(tail, w);
      assert table == [table[0]] + tail;
    }
  }

  /** A row that falls outside the window is appended again by every load
      and never deleted, so loading twice leaves the table longer than
      loading once. */
  lemma {:induction false} ApplyLoadDuplicatesOldRows(table: Table, w: Window, rows: seq<Row>, dayOf: Row -> Day, i: nat)
    requires i < |rows| && !InWindow(w, dayOf(rows[i]))
    ensures |ApplyLoad(ApplyLoad(table, w, rows, dayOf), w, rows, dayOf)| > |ApplyLoad(table, w, rows, dayOf)|
  {
    var kept := Outside(table, w);
    var added := Tagged(rows, dayOf);
    OutsideAppend(kept, added, w);
    OutsideSpec(kept, w);
    OutsideSpec(table, w);
    OutsideSpec(added, w);
    assert forall s :: s in kept ==> !InWindow(w, s.day);
    NothingOutside(kept, w);
    assert added[i] in Outside(added, w);
  }

  /** The rows a `SELECT ... WHERE Dia BETWEEN start AND end` would see: the
      rows inside the window, in their order. */
  function Inside(table: Table, w: Window): Table
  {
    if table == [] then []
    else (if InWindow(w, table[0].day) then [table[0]] else []) + Inside(table[1..], w)
  }

  lemma {:induction false} InsideAppend(a: Table, b: Table, w: Window)
    ensures Inside(a + b, w) == Inside(a, w) + Inside(b, w)
    decreases |a|
  {
    if a == [] {
      assert a + b == b;
    } else {
      assert (a + b)[1..] == a[1..] + b;
      InsideAppend(a[1..], b, w);
    }
  }

  /** Nothing the DELETE keeps lies inside the window. */
  lemma {:induction false} InsideOutside(table: Table, w: Window)
    ensures Inside(Outside(table, w), w) == []
    decreases |table|
  {
    if table != [] {
      var head := if InWindow(w, table[0].day) then [] else [table[0]];
      InsideAppend(head, Outside(table[1..], w), w);
      InsideOutside(table[1..], w);
      if head != [] {
        assert head[1..] == [];
      }
    }
  }

  /** After a load, the window holds exactly the appended rows dated inside
      it, in their order, whatever the table held before; so loading the same
      rows into the same window again leaves the window as it was. */
  lemma {:induction false} ApplyLoadWindow(table: Table, w: Window, rows: seq<Row>, dayOf: Row -> Day)
    ensures Inside(ApplyLoad(table, w, rows, dayOf), w) == Inside(Tagged(rows, dayOf), w)
    ensures Inside(ApplyLoad(ApplyLoad(table, w, rows, dayOf), w, rows, dayOf), w) ==
              Inside(ApplyLoad(table, w, rows, dayOf), w)
  {
    InsideAppend(Outside(table, w), Tagged(rows, dayOf), w);
    InsideOutside(table, w);
    var once := ApplyLoad(table, w, rows, dayOf);
    InsideAppend(Outside(once, w), Tagged(rows, dayOf), w);
    InsideOutside(once, w);
  }

  /** The database while a feed runs: the table as committed, and the
      transaction's own view of it. */
  datatype Db = Db(committed: Table, pending: Table)

  /** What one action does to the feed's table: the DELETE and the append
      change the transaction's view, a commit makes that view the table and
      a rollback throws it away. `w` is the range of days the DELETE's dates
      denote and `dayOf` the day the database reads from a row. */
  function Perform(db: Db, a: Action, w: Window, dayOf: Row -> Day): Db
  {
    match a
    case ReadSheet(_, _, _) => db
    case ExecuteSql(_) => db.(pending := Outside(db.pending, w))
    case AppendRows(_, rows) => db.(pending := db.pending + Tagged(rows, dayOf))
    case Commit => Db(db.pending, db.pending)
    case Rollback => Db(db.committed, db.committed)
  }

  function Replay(db: Db, actions: seq<Action>, w: Window, dayOf: Row -> Day): Db
    decreases |actions|
  {
    if actions == [] then db else Replay(Perform(db, actions[0], w, dayOf), actions[1..], w, dayOf)
  }

  /** The table after the database carries out a trace, starting from
      `table` with no transaction open. */
  function Executed(table: Table, actions: seq<Action>, w: Window, dayOf: Row -> Day): Table
  {
    Replay(Db(table, table), actions, w, dayOf).committed
  }

  /** The table after a feed's run, read off its outcome: a load replaces
      the window, any other outcome leaves the table as it was. */
  function AfterRun(table: Table, run: FeedRun, dayOf: Row -> Day): Table
  {
    match run.outcome
    case Loaded(_, w, rows) => ApplyLoad(table, w, rows, dayOf)
    case _ => table
  }

  /** Carrying out a feed's trace on the database gives the table its
      outcome promises: the committed trace of a load is `ApplyLoad` of the
      trailing window, and every other trace, rolled back or never reaching
      the database, leaves the table unchanged. */
  lemma {:induction false} RunFeedExecuted(feed: Feed, defaults: map<string, string>,
      client: map<string, string>, env: FeedEnv, fmt: Day -> string, table: Table, dayOf: Row -> Day)
    ensures var run := RunFeed(feed, defaults, client, env, fmt);
            Executed(table, run.actions, TrailingWindow(env.today), dayOf) == AfterRun(table, run, dayOf)
    ensures var run := RunFeed(feed, defaults, client, env, fmt);
            !run.outcome.Loaded? ==> Executed(table, run.actions, TrailingWindow(env.today), dayOf) == table
  {
    var run := RunFeed(feed, defaults, client, env, fmt);
    var w := TrailingWindow(env.today);
    var a := run.actions;
    var start := Db(table, table);
    if |a| > 1 {
      var t := client[feed.tableKey];
      var rows := env.sheet.rows;
      InsertTraces(t, rows, w, env, fmt);
      assert a == [a[0]] + Insert(t, rows, w, env, fmt).actions;
      assert a[0].ReadSheet?;
      var s1 := Perform(start, a[0], w, dayOf);
      var s2 := Perform(s1, a[1], w, dayOf);
      assert Replay(start, a, w, dayOf) == Replay(s2, a[2..], w, dayOf) by {
        assert a[1..][1..] == a[2..];
      }
      var s3 := Perform(s2, a[2], w, dayOf);
      assert Replay(s2, a[2..], w, dayOf) == Replay(s3, a[3..], w, dayOf) by {
        assert a[2..][1..] == a[3..];
      }
      if |a| == 4 {
        var s4 := Perform(s3, a[3], w, dayOf);
        assert Replay(s3, a[3..], w, dayOf) == s4 by {
          assert a[3..][1..] == [];
        }
      } else {
        assert a[3..] == [];
      }
    } else if |a| == 1 {
      LoadedRun(feed, defaults, client, env, fmt);
      assert a[0].ReadSheet? && a[1..] == [];
      assert Replay(start, a, w, dayOf) == Replay(start, [], w, dayOf);
    }
  }

  /** Running a feed twice with the same sheet on the same day leaves the
      rows of its trailing window as running it once, whatever the sheet
      holds: after a loaded run the window holds exactly the sheet's rows
      dated inside it. */
  lemma {:induction false} RerunKeepsWindow(feed: Feed, defaults: map<string, string>,
      client: map<string, string>, env: FeedEnv, fmt: Day -> string, table: Table, dayOf: Row -> Day)
    ensures var run := RunFeed(feed, defaults, client, env, fmt);
            var w := TrailingWindow(env.today);
            Inside(AfterRun(AfterRun(table, run, dayOf), run, dayOf), w) == Inside(AfterRun(table, run, dayOf), w)
    ensures var run := RunFeed(feed, defaults, client, env, fmt);
            run.outcome.Loaded? ==>
              Inside(AfterRun(table, run, dayOf), TrailingWindow(env.today)) ==
                Inside(Tagged(env.sheet.rows, dayOf), TrailingWindow(env.today))
  {
    var run := RunFeed(feed, defaults, client, env, fmt);
    if run.outcome.Loaded? {
      LoadedRun(feed, defaults, client, env, fmt);
      ApplyLoadWindow(table, TrailingWindow(env.today), env.sheet.rows, dayOf);
    }
  }

  /** Running a feed twice with the same sheet on the same day leaves its
      whole table as running it once, provided every row of the sheet falls
      in the trailing window; a run that did not load leaves the table
      alone. */
  lemma {:induction false} RerunIsIdempotent(feed: Feed, defaults: map<string, string>,
      client: map<string, string>, env: FeedEnv, fmt: Day -> string, table: Table, dayOf: Row -> Day)
    requires env.sheet.Rows?
    requires forall i :: 0 <= i < |env.sheet.rows| ==> InWindow(TrailingWindow(env.today), dayOf(env.sheet.rows[i]))
    ensures var run := RunFeed(feed, defaults, client, env, fmt);
            && AfterRun(AfterRun(table, run, dayOf), run, dayOf) == AfterRun(table, run, dayOf)
            && (!run.outcome.Loaded? ==> AfterRun(table, run, dayOf) == table)
  {
    var run := RunFeed(feed, defaults, client, env, fmt);
    if run.outcome.Loaded? {
      LoadedRun(feed, defaults, client, env, fmt);
      ApplyLoadIdempotent(table, TrailingWindow(env.today), env.sheet.rows, dayOf);
    }
  }

  /** A sheet row dated outside the trailing window makes every successful
      rerun add it once more. */
  lemma {:induction false} RerunDuplicatesOldRows(feed: Feed, defaults: map<string, string>,
      client: map<string, string>, env: FeedEnv, fmt: Day -> string, table: Table, dayOf: Row -> Day, i: nat)
    requires RunFeed(feed, defaults, client, env, fmt).outcome.Loaded?
    requires env.sheet.Rows? && i < |env.sheet.rows| && !InWindow(TrailingWindow(env.today), dayOf(env.sheet.rows[i]))
    ensures var run := RunFeed(feed, defaults, client, env, fmt);
            |AfterRun(AfterRun(table, run, dayOf), run, dayOf)| > |AfterRun(table, run, dayOf)|
  {
    LoadedRun(feed, defaults, client, env, fmt);
    ApplyLoadDuplicatesOldRows(table, TrailingWindow(env.today), env.sheet.rows, dayOf, i);
  }

  // ---------------------------------------------------------------------
  // The whole job

  /** The default-credentials keys the connection string reads, in the order
      the f-string reads them. */
  const DatabaseKeys := ["username", "password", "server", "database"]
  const LogPathKey := "log_path"
  /** `nome_cliente`. */
  const ClientName := "muse"

  /** The first of `keys` missing from `m`: the `KeyError` a sequence of
      lookups raises. */
  function FirstMissing(keys: seq<string>, m: map<string, string>): Option<string>
  {
    if keys == [] then None
    else if keys[0] !in m then Some(keys[0])
    else FirstMissing(keys[1..], m)
  }

  lemma {:induction false} FirstMissingSpec(keys: seq<string>, m: map<string, string>)
    ensures FirstMissing(keys, m).None? <==> forall i :: 0 <= i < |keys| ==> keys[i] in m
    ensures FirstMissing(keys, m).Some? ==>
              exists i :: 0 <= i < |keys| && keys[i] == FirstMissing(keys, m).value && keys[i] !in m &&
                forall j :: 0 <= j < i ==> keys[j] in m
    decreases |keys|
  {
    if keys != [] && keys[0] in m {
      var tail := keys[1..];
      FirstMissingSpec(tail, m);
      assert forall i :: 0 <= i < |tail| ==> tail[i] == keys[i + 1];
      if FirstMissing(tail, m).Some? {
        var i :| 0 <= i < |tail| && tail[i] == FirstMissing(tail, m).value && tail[i] !in m &&
                 forall j :: 0 <= j < i ==> tail[j] in m;
        assert keys[i + 1] == FirstMissing(keys, m).value;
      } else {
        forall i | 0 <= i < |keys| ensures keys[i] in m {
          if i > 0 { assert keys[i] == tail[i - 1]; }
        }
      }
    }
  }

  /** A run of `main`: aborted before any feed, or both feeds' runs. */
  datatype JobRun = Aborted(error: Error) | Completed(meta: FeedRun, google: FeedRun)

  /** Every action of a job, in order. */
  function JobActions(job: JobRun): seq<Action>
  {
    if job.Aborted? then [] else job.meta.actions + job.google.actions
  }

  /** `main`: `connect_to_database` looks up the four database keys and
      creates the engine outside any `try`, so a missing key or a failing
      `create_engine` stops the job; then Meta Ads runs, then Google Ads,
      each with its own view of the outside world. */
  function RunJob(defaults: map<string, string>, client: map<string, string>, engine: Step,
                  metaEnv: FeedEnv, googleEnv: FeedEnv, fmt: Day -> string): JobRun
  {
    match FirstMissing(DatabaseKeys, defaults)
    case Some(k) => Aborted(MissingKey(k))
    case None =>
      if engine.Raises? then Aborted(Raised(engine.reason))
      else Completed(RunFeed(MetaAds, defaults, client, metaEnv, fmt),
                     RunFeed(GoogleAds, defaults, client, googleEnv, fmt))
  }

  /** The job aborts exactly when a database key is missing or the engine
      cannot be created; otherwise both feeds run, whatever the first one did. */
  lemma {:induction false} RunJobAborts(defaults: map<string, string>, client: map<string, string>,
      engine: Step, metaEnv: FeedEnv, googleEnv: FeedEnv, fmt: Day -> string)
    ensures var job := RunJob(defaults, client, engine, metaEnv, googleEnv, fmt);
            job.Aborted? <==> (exists i :: 0 <= i < |DatabaseKeys| && DatabaseKeys[i] !in defaults) || engine.Raises?
    ensures var job := RunJob(defaults, client, engine, metaEnv, googleEnv, fmt);
            job.Aborted? ==> JobActions(job) == []
    ensures var job := RunJob(defaults, client, engine, metaEnv, googleEnv, fmt);
            job.Completed? ==>
              && job.meta == RunFeed(MetaAds, defaults, client, metaEnv, fmt)
              && job.google == RunFeed(GoogleAds, defaults, client, googleEnv, fmt)
  {
    FirstMissingSpec(DatabaseKeys, defaults);
  }

  /** A failed Meta Ads run does not stop Google Ads: whatever the first
      feed's run returns or raises, the second one's run is the same, and
      its actions come after the first one's. */
  lemma {:induction false} FeedsAreIsolated(defaults: map<string, string>, client: map<string, string>,
      engine: Step, metaEnv: FeedEnv, otherMetaEnv: FeedEnv, googleEnv: FeedEnv, fmt: Day -> string)
    requires RunJob(defaults, client, engine, metaEnv, googleEnv, fmt).Completed?
    ensures var job := RunJob(defaults, client, engine, metaEnv, googleEnv, fmt);
            var other := RunJob(defaults, client, engine, otherMetaEnv, googleEnv, fmt);
            && other.Completed?
            && other.google == job.google
            && JobActions(job) == job.meta.actions + job.google.actions
  {
  }

  /** Both feeds, run on the same day, clear the same window. */
  lemma {:induction false} SameDaySameWindow(defaults: map<string, string>, client: map<string, string>,
      engine: Step, metaEnv: FeedEnv, googleEnv: FeedEnv, fmt: Day -> string)
    requires metaEnv.today == googleEnv.today
    requires var job := RunJob(defaults, client, engine, metaEnv, googleEnv, fmt);
             job.Completed? && job.meta.outcome.Loaded? && job.google.outcome.Loaded?
    ensures var job := RunJob(defaults, client, engine, metaEnv, googleEnv, fmt);
            job.meta.outcome.window == job.google.outcome.window == TrailingWindow(metaEnv.today)
  {
    LoadedRun(MetaAds, defaults, client, metaEnv, fmt);
    LoadedRun(GoogleAds, defaults, client, googleEnv, fmt);
  }

  /** The script as a whole: read the default credentials (no client) and the
      client's credentials (with `nome_cliente`), configure logging with the
      client's `log_path`, which opens the log file at once, then run the
      job. All of this happens at module level, so any failure here ends the
      script. `logFile` says whether opening the log file raises. */
  function RunScript(defaultLines: seq<string>, clientLines: seq<string>, logFile: Step, engine: Step,
                     metaEnv: FeedEnv, googleEnv: FeedEnv, fmt: Day -> string): JobRun
  {
    match Credentials.Load(defaultLines, None)
    case Failure(e) => Aborted(Malformed(e))
    case Success(defaults) =>
      match Credentials.Load(clientLines, Some(ClientName))
      case Failure(e) => Aborted(Malformed(e))
      case Success(client) =>
        if LogPathKey !in client then Aborted(MissingKey(LogPathKey))
        else if logFile.Raises? then Aborted(Raised(logFile.reason))
        else RunJob(defaults, client, engine, metaEnv, googleEnv, fmt)
  }

  /** Every line of a file is a `key = value` pair. */
  predicate AllParse(lines: seq<string>, client: Option<string>)
  {
    forall i :: 0 <= i < |lines| ==> Credentials.ParseLine(lines[i], client).Entry?
  }

  /** `e` reports the first line of the file that is not a `key = value`
      pair, and why. */
  predicate FirstMalformed(lines: seq<string>, client: Option<string>, e: Credentials.ParseError)
  {
    && e.line < |lines|
    && !Credentials.ParseLine(lines[e.line], client).Entry?
    && (e.NotEnoughValues? <==> Credentials.ParseLine(lines[e.line], client).NoSeparator?)
    && AllParse(lines[..e.line], client)
  }

  /** `key` is the key of some well-formed line. */
  predicate KeyOnLine(lines: seq<string>, client: Option<string>, key: string)
  {
    exists i :: 0 <= i < |lines| && Credentials.ParseLine(lines[i], client).Entry? &&
                Credentials.ParseLine(lines[i], client).key == key
  }

  /** What stops the script before any feed, read off the files' lines: the
      first malformed line of the default file, else the first malformed line
      of the client's file, else a client file with no `log_path` line, else
      a log file that cannot be opened. */
  lemma {:induction false} RunScriptStartup(defaultLines: seq<string>, clientLines: seq<string>,
      logFile: Step, engine: Step, metaEnv: FeedEnv, googleEnv: FeedEnv, fmt: Day -> string)
    ensures var run := RunScript(defaultLines, clientLines, logFile, engine, metaEnv, googleEnv, fmt);
            !AllParse(defaultLines, None) ==>
              run.Aborted? && run.error.Malformed? && FirstMalformed(defaultLines, None, run.error.parse)
    ensures var run := RunScript(defaultLines, clientLines, logFile, engine, metaEnv, googleEnv, fmt);
            AllParse(defaultLines, None) && !AllParse(clientLines, Some(ClientName)) ==>
              run.Aborted? && run.error.Malformed? && FirstMalformed(clientLines, Some(ClientName), run.error.parse)
    ensures var run := RunScript(defaultLines, clientLines, logFile, engine, metaEnv, googleEnv, fmt);
            AllParse(defaultLines, None) && AllParse(clientLines, Some(ClientName)) &&
            !KeyOnLine(clientLines, Some(ClientName), LogPathKey) ==>
              run == Aborted(MissingKey(LogPathKey))
    ensures var run := RunScript(defaultLines, clientLines, logFile, engine, metaEnv, googleEnv, fmt);
            AllParse(defaultLines, None) && AllParse(clientLines, Some(ClientName)) &&
            KeyOnLine(clientLines, Some(ClientName), LogPathKey) && logFile.Raises? ==>
              run == Aborted(Raised(logFile.reason))
  {
    var d := Credentials.Load(defaultLines, None);
    var c := Credentials.Load(clientLines, Some(ClientName));
    Credentials.LoadFailsAtFirstMalformed(defaultLines, None);
    Credentials.LoadFailsAtFirstMalformed(clientLines, Some(ClientName));
    if d.Failure? {
      assert AllParse(defaultLines[..d.error.line], None);
    } else if c.Failure? {
      assert AllParse(clientLines[..c.error.line], Some(ClientName));
    } else {
      KeyOnLineIff(clientLines, Some(ClientName), LogPathKey);
    }
  }

  /** The script reaches the feeds exactly when every line of both files is
      a `key = value` pair, the client's file has a `log_path` line, the
      default file has a line for each database key, the log file opens and
      the engine can be created. */
  lemma {:induction false} RunScriptCompletes(defaultLines: seq<string>, clientLines: seq<string>,
      logFile: Step, engine: Step, metaEnv: FeedEnv, googleEnv: FeedEnv, fmt: Day -> string)
    ensures RunScript(defaultLines, clientLines, logFile, engine, metaEnv, googleEnv, fmt).Completed? <==>
              && AllParse(defaultLines, None)
              && AllParse(clientLines, Some(ClientName))
              && KeyOnLine(clientLines, Some(ClientName), LogPathKey)
              && (forall k :: 0 <= k < |DatabaseKeys| ==> KeyOnLine(defaultLines, None, DatabaseKeys[k]))
              && logFile.Ok?
              && engine.Ok?
  {
    var d := Credentials.Load(defaultLines, None);
    var c := Credentials.Load(clientLines, Some(ClientName));
    Credentials.LoadFailsAtFirstMalformed(defaultLines, None);
    Credentials.LoadFailsAtFirstMalformed(clientLines, Some(ClientName));
    if d.Success? && c.Success? {
      Credentials.LoadKeys(defaultLines, None);
      Credentials.LoadKeys(clientLines, Some(ClientName));
      KeyOnLineIff(clientLines, Some(ClientName), LogPathKey);
      forall k | 0 <= k < |DatabaseKeys|
        ensures KeyOnLine(defaultLines, None, DatabaseKeys[k]) <==> DatabaseKeys[k] in d.value
      {
        KeyOnLineIff(defaultLines, None, DatabaseKeys[k]);
      }
      RunJobAborts(d.value, c.value, engine, metaEnv, googleEnv, fmt);
    }
  }

  /** For a file that loads, a key is on some line exactly when it is in the
      loaded map. */
  lemma {:induction false} KeyOnLineIff(lines: seq<string>, client: Option<string>, key: string)
    requires Credentials.Load(lines, client).Success?
    ensures KeyOnLine(lines, client, key) <==> key in Credentials.Load(lines, client).value
  {
    Credentials.LoadKeys(lines, client);
  }
}
