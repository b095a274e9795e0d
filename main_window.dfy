/** src/MultiServerSqlExecutor.Ui/MainWindow.xaml.cs: the main window's
    query run, its own copy of the table combination, and saving the
    combined results. Dialogs, message boxes and the grid are not
    modelled; the save dialog is the path it returns, if any. */
module MainWindow {
  import opened Wrappers
  import opened Text
  import opened DataTables
  import opened Reconciliation
  import opened CsvExporter
  import opened ConfigStore
  import opened SqlExecutor

  /** Combine (lines 101-124): a copy of lines 23-45 of
      CsvExporter.ExportCombined. The copy runs the same three stages, so
      the model uses the exporter's methods for them: collect the names
      into the case-insensitive set, add "Server" and the collected
      columns, then add the rows. Both are proved equal to
      Reconciliation.Combined, so they build the same table or raise the
      same exception. */
  method Combine(entries: seq<ServerResult>) returns (res: Result<Table, CombineError>)
    requires AllWellFormed(entries)
    ensures res == Combined(entries)
    ensures res.Ok? ==> WellFormed(res.value) && res.value.columns[0] == ServerColumn
  {
    var allCols := CollectColumns(entries);
    var columns := AddColumns(allCols);
    if columns.Err? {
      return Err(columns.error);
    }
    var rows := AddRows(columns.value, entries);
    if rows.Err? {
      return Err(rows.error);
    }
    CombinedWellFormed(entries);
    return Ok(Table(columns.value, rows.value));
  }

  /** Re-combining a combined table as the single entry "Combined" always
      fails: its own "Server" column is the first spelling of "Server"
      among the input columns, so adding it after the synthetic one throws
      a DuplicateNameException. */
  lemma RecombineFails(t: Table)
    requires WellFormed(t) && |t.columns| >= 1 && t.columns[0] == ServerColumn
    ensures AllWellFormed([ServerResult("Combined", t)])
    ensures Combined([ServerResult("Combined", t)]) == Err(DuplicateColumn(ServerColumn))
  {
    var entries := [ServerResult("Combined", t)];
    assert entries[..0] == [];
    assert AllColumns(entries) == t.columns;
    assert SameName(t.columns[0], ServerColumn);
    ServerColumnRejected(entries);
  }

  datatype RunOutcome = NoServers | ExecutionFailed | CombineFailed(error: CombineError) | Shown
  datatype SaveOutcome = NothingToSave | Cancelled | Saved | Crashed(error: CombineError)

  class MainWindow {
    /** The table last shown in the grid. */
    var lastCombined: Option<Table>

    /** What is kept is always a combined table. */
    predicate Valid()
      reads this
    {
      lastCombined.Some? ==>
        WellFormed(lastCombined.value) && |lastCombined.value.columns| >= 1
        && lastCombined.value.columns[0] == ServerColumn
    }

    constructor ()
      ensures Valid() && lastCombined == None
    {
      lastCombined := None;
    }

    /** RunQuery (lines 47-73): with no servers configured nothing happens;
        otherwise the query runs on every server and the combined table is
        kept and shown. An exception from the run or the combination is
        reported and leaves the kept table as it was. */
    method RunQuery(store: Store, run: Runner) returns (outcome: RunOutcome)
      requires Valid() && store.Valid() && RunsWellFormed(run)
      modifies this
      ensures Valid()
      ensures store.Load() == [] ==> outcome == NoServers && lastCombined == old(lastCombined)
      ensures store.Load() != [] && ExecuteOnAll(store.Load(), run).None? ==>
        outcome == ExecutionFailed && lastCombined == old(lastCombined)
      ensures store.Load() != [] && ExecuteOnAll(store.Load(), run).Some? ==>
        match Combined(ExecuteOnAll(store.Load(), run).value)
        case Ok(t) => outcome == Shown && lastCombined == Some(t)
        case Err(e) => outcome == CombineFailed(e) && lastCombined == old(lastCombined)
    {
      var servers := store.Load();
      if |servers| == 0 {
        return NoServers;
      }
      var results := ExecuteOnAll(servers, run);
      if results.None? {
        return ExecutionFailed;
      }
      var combined := Combine(results.value);
      if combined.Err? {
        return CombineFailed(combined.error);
      }
      lastCombined := Some(combined.value);
      return Shown;
    }

    /** OnSaveCombined (lines 75-94) as written: the kept table is handed to
        ExportCombined as the single entry "Combined". That always throws,
        and the handler does not catch it, so nothing is saved. */
    method OnSaveCombined(chosen: Option<string>, disk: Disk) returns (outcome: SaveOutcome)
      requires Valid()
      modifies disk
      ensures disk.files == old(disk.files) && disk.directories == old(disk.directories)
      ensures lastCombined.None? ==> outcome == NothingToSave
      ensures lastCombined.Some? && chosen.None? ==> outcome == Cancelled
      ensures lastCombined.Some? && chosen.Some? ==> outcome == Crashed(DuplicateColumn(ServerColumn))
    {
      if lastCombined.None? {
        return NothingToSave;
      }
      if chosen.None? {
        return Cancelled;
      }
      RecombineFails(lastCombined.value);
      var res := ExportCombined([ServerResult("Combined", lastCombined.value)], chosen.value, disk);
      if res.Err? {
        return Crashed(res.error);
      }
      return Saved;
    }

    /** The save as intended: the kept table is written as it is, so the
        file holds exactly the combined results on display, header
        "Server" first. */
    method OnSaveCombinedCorrected(chosen: Option<string>, disk: Disk) returns (outcome: SaveOutcome)
      requires Valid()
      modifies disk
      ensures disk.directories == old(disk.directories)
      ensures lastCombined.None? ==> outcome == NothingToSave && disk.files == old(disk.files)
      ensures lastCombined.Some? && chosen.None? ==> outcome == Cancelled && disk.files == old(disk.files)
      ensures lastCombined.Some? && chosen.Some? ==>
        && outcome == Saved
        && disk.files == old(disk.files)[chosen.value := CsvOf(lastCombined.value)]
        && disk.files[chosen.value][0][0] == ServerColumn
        && |disk.files[chosen.value]| == |lastCombined.value.rows| + 1
    {
      if lastCombined.None? {
        return NothingToSave;
      }
      if chosen.None? {
        return Cancelled;
      }
      WriteDataTableToCsv(lastCombined.value, chosen.value, disk);
      CsvLayout(CsvOf(lastCombined.value), lastCombined.value);
      return Saved;
    }
  }
}
