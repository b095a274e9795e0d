/** src/MultiServerSqlExecutor.Core/Services/CsvExporter.cs: writing tables
    as CSV records, one file per server or one combined file.

    The file system is a Disk object whose directories and files the
    exporter changes; a file holds the records CsvHelper was given, each
    record a sequence of fields (quoting and escaping are CsvHelper's and
    are not modelled). */
module CsvExporter {
  import opened Wrappers
  import opened Text
  import opened DataTables
  import opened Reconciliation

  /** One CSV record: its fields in order. */
  type Record = seq<string>

  /** The part of the file system the exporter touches. */
  class Disk {
    var directories: set<string>
    var files: map<string, seq<Record>>

    constructor ()
      ensures directories == {} && files == map[]
    {
      directories := {};
      files := map[];
    }
  }

  // ---------------------------------------------------------------------
  // Record layout (WriteDataTableToCsv, lines 50-73).

  /** Decimal digits of a non-negative number. */
  function Digits(n: nat): (s: string)
    ensures |s| >= 1
  {
    if n < 10 then ['0' + n as char]
    else Digits(n / 10) + ['0' + (n % 10) as char]
  }

  /** The text CsvHelper writes for a cell under the invariant culture:
      DBNull as the empty field, booleans as True/False, integers in
      decimal, other kinds as the text they carry. */
  function Format(v: Value): string
  {
    match v
    case Null => ""
    case Str(s) => s
    case Int(n) => if n < 0 then "-" + Digits(-n) else Digits(n)
    case Bool(b) => if b then "True" else "False"
    case Float(shown) => shown
    case Timestamp(shown) => shown
  }

  /** The layout of a written table: a header record with the column names
      in table order, then one record per row, in row order, holding
      exactly one field per column, in column order. */
  predicate IsCsvOf(records: seq<Record>, t: Table)
    requires Rectangular(t)
  {
    && |records| == |t.rows| + 1
    && records[0] == t.columns
    && (forall i :: 1 <= i < |records| ==> |records[i]| == |t.columns|)
    && (forall i, c :: 1 <= i < |records| && 0 <= c < |t.columns| ==>
          records[i][c] == Format(t.rows[i - 1][c]))
  }

  /** The records of a table, as a value. */
  function CsvOf(t: Table): (records: seq<Record>)
    requires Rectangular(t)
  {
    [t.columns] + seq(|t.rows|, r requires 0 <= r < |t.rows| =>
      seq(|t.columns|, c requires 0 <= c < |t.columns| => Format(t.rows[r][c])))
  }

  /** The layout determines the records: CsvOf is the one record sequence
      with that layout. */
  lemma CsvLayout(records: seq<Record>, t: Table)
    requires Rectangular(t)
    ensures IsCsvOf(CsvOf(t), t)
    ensures IsCsvOf(records, t) ==> records == CsvOf(t)
  {
    var expected := CsvOf(t);
    assert expected[0] == t.columns;
    if IsCsvOf(records, t) {
      forall i | 0 <= i < |records| ensures records[i] == expected[i] {
        if i > 0 {
          assert |records[i]| == |t.columns|;
          forall c | 0 <= c < |t.columns| ensures records[i][c] == expected[i][c] {
            assert records[i][c] == Format(t.rows[i - 1][c]);
          }
        }
      }
    }
  }

  /** The records the writer emits, field by field (WriteField) and record
      by record (NextRecord). */
  method CsvRecords(t: Table) returns (records: seq<Record>)
    requires Rectangular(t)
    ensures IsCsvOf(records, t)
  {
    var record: Record := [];
    for c := 0 to |t.columns|
      invariant record == t.columns[..c]
    {
      record := record + [t.columns[c]];
    }
    assert t.columns[..|t.columns|] == t.columns;
    records := [record];
    for r := 0 to |t.rows|
      invariant |records| == r + 1 && records[0] == t.columns
      invariant forall i :: 1 <= i < |records| ==> |records[i]| == |t.columns|
      invariant forall i, c :: 1 <= i < |records| && 0 <= c < |t.columns| ==>
        records[i][c] == Format(t.rows[i - 1][c])
    {
      record := [];
      for c := 0 to |t.columns|
        invariant |record| == c
        invariant forall k :: 0 <= k < c ==> record[k] == Format(t.rows[r][k])
      {
        record := record + [Format(t.rows[r][c])];
      }
      records := records + [record];
    }
  }

  /** WriteDataTableToCsv: the file at path is created or overwritten with
      the table's records. */
  method WriteDataTableToCsv(t: Table, path: string, disk: Disk)
    requires Rectangular(t)
    modifies disk
    ensures disk.files == old(disk.files)[path := CsvOf(t)]
    ensures disk.directories == old(disk.directories)
  {
    var records := CsvRecords(t);
    CsvLayout(records, t);
    disk.files := disk.files[path := records];
  }

  // ---------------------------------------------------------------------
  // File naming (SanitizeFileName, lines 75-80; ExportPerServer, 10-18).

  /** String.Replace(char, char). */
  function Replace(s: string, c: char, d: char): string
  {
    seq(|s|, i requires 0 <= i < |s| => if s[i] == c then d else s[i])
  }

  /** The sanitised name: every character from the platform's invalid set
      becomes '_', every other character is kept. */
  function Sanitized(name: string, invalid: seq<char>): (r: string)
    ensures |r| == |name|
  {
    seq(|name|, i requires 0 <= i < |name| => if name[i] in invalid then '_' else name[i])
  }

  /** SanitizeFileName: one Replace per invalid character, in order. */
  method SanitizeFileName(name: string, invalid: seq<char>) returns (r: string)
    ensures |r| == |name|
    ensures forall i :: 0 <= i < |name| ==> (name[i] in invalid ==> r[i] == '_')
    ensures forall i :: 0 <= i < |name| ==> (name[i] !in invalid ==> r[i] == name[i])
    ensures r == Sanitized(name, invalid)
  {
    r := name;
    for k := 0 to |invalid|
      invariant |r| == |name|
      invariant forall i :: 0 <= i < |name| ==>
        r[i] == if name[i] in invalid[..k] then '_' else name[i]
    {
      assert forall x :: x in invalid[..k + 1] <==> x in invalid[..k] || x == invalid[k];
      r := Replace(r, invalid[k], '_');
    }
    assert invalid[..|invalid|] == invalid;
  }

  /** When '_' is itself a valid character (as on every platform .NET
      supports), a sanitised name holds no invalid character; sanitising is
      idempotent in any case. */
  lemma SanitizedClean(name: string, invalid: seq<char>)
    ensures '_' !in invalid ==> forall i :: 0 <= i < |name| ==> Sanitized(name, invalid)[i] !in invalid
    ensures Sanitized(Sanitized(name, invalid), invalid) == Sanitized(name, invalid)
  {
    var s := Sanitized(name, invalid);
    forall i | 0 <= i < |name| ensures Sanitized(s, invalid)[i] == s[i] {
    }
  }

  /** Path.Combine of a directory and a file name, with sep the platform's
      directory separator: an empty directory yields the file name, a
      rooted file name wins, and a separator is inserted only when neither
      side supplies one. */
  function PathCombine(dir: string, file: string, sep: char): (p: string)
  {
    if |dir| == 0 then file
    else if |file| == 0 then dir
    else if file[0] == sep then file
    else if dir[|dir| - 1] == sep then dir + file
    else dir + [sep] + file
  }

  /** The file one server's results are written to. */
  function PerServerPath(dir: string, key: string, invalid: seq<char>, sep: char): string
  {
    PathCombine(dir, Sanitized(key, invalid) + ".csv", sep)
  }

  lemma PathCombineInjective(dir: string, f: string, g: string, sep: char)
    requires |f| > 0 && |g| > 0 && f[0] != sep && g[0] != sep
    ensures PathCombine(dir, f, sep) == PathCombine(dir, g, sep) ==> f == g
  {
    if PathCombine(dir, f, sep) == PathCombine(dir, g, sep) && |dir| > 0 {
      var pre := if dir[|dir| - 1] == sep then dir else dir + [sep];
      assert PathCombine(dir, f, sep) == pre + f && PathCombine(dir, g, sep) == pre + g;
      assert f == (pre + f)[|pre|..] && g == (pre + g)[|pre|..];
    }
  }

  /** On a case-sensitive file system, two servers share a file exactly
      when their sanitised names agree, provided the separator is an invalid
      file-name character other than '.' and '_'. Paths are compared as
      exact strings; on a case-insensitive file system names that differ
      only in case collide as well. */
  lemma PerServerPathCollision(dir: string, k1: string, k2: string, invalid: seq<char>, sep: char)
    requires sep in invalid && sep != '.' && sep != '_'
    ensures PerServerPath(dir, k1, invalid, sep) == PerServerPath(dir, k2, invalid, sep)
      <==> Sanitized(k1, invalid) == Sanitized(k2, invalid)
  {
    var f, g := Sanitized(k1, invalid) + ".csv", Sanitized(k2, invalid) + ".csv";
    assert f[0] != sep && g[0] != sep;
    PathCombineInjective(dir, f, g, sep);
    if f == g {
      assert Sanitized(k1, invalid) == f[..|f| - 4] && Sanitized(k2, invalid) == g[..|g| - 4];
    }
  }

  /** The files after writing the first entries one by one: each entry's
      CSV at its path, a later entry overwriting an earlier one with the
      same path. */
  function PerServerFiles(files: map<string, seq<Record>>, entries: seq<ServerResult>, dir: string,
                          invalid: seq<char>, sep: char): map<string, seq<Record>>
    requires AllWellFormed(entries)
  {
    if entries == [] then files
    else
      var e := entries[|entries| - 1];
      PerServerFiles(files, entries[..|entries| - 1], dir, invalid, sep)[PerServerPath(dir, e.server, invalid, sep) := CsvOf(e.table)]
  }

  /** A file is written for every entry; it holds the CSV of the last entry
      whose name maps to it. */
  lemma {:induction false} PerServerFilesLast(files: map<string, seq<Record>>, entries: seq<ServerResult>,
                                              dir: string, invalid: seq<char>, sep: char, j: nat)
    requires AllWellFormed(entries) && j < |entries|
    requires forall k :: j < k < |entries| ==>
      PerServerPath(dir, entries[k].server, invalid, sep) != PerServerPath(dir, entries[j].server, invalid, sep)
    ensures PerServerPath(dir, entries[j].server, invalid, sep) in PerServerFiles(files, entries, dir, invalid, sep)
    ensures PerServerFiles(files, entries, dir, invalid, sep)[PerServerPath(dir, entries[j].server, invalid, sep)]
      == CsvOf(entries[j].table)
  {
    var last := |entries| - 1;
    var init := entries[..last];
    assert AllWellFormed(init);
    var p := PerServerPath(dir, entries[j].server, invalid, sep);
    var q := PerServerPath(dir, entries[last].server, invalid, sep);
    var prev := PerServerFiles(files, init, dir, invalid, sep);
    assert PerServerFiles(files, entries, dir, invalid, sep) == prev[q := CsvOf(entries[last].table)];
    if j < last {
      assert init[j] == entries[j];
      forall k | j < k < |init| ensures
        PerServerPath(dir, init[k].server, invalid, sep) != PerServerPath(dir, init[j].server, invalid, sep)
      {
        assert init[k] == entries[k];
      }
      PerServerFilesLast(files, init, dir, invalid, sep, j);
      assert q != p;
    }
  }

  /** A path no entry maps to keeps what it held before. */
  lemma {:induction false} PerServerFilesOthers(files: map<string, seq<Record>>, entries: seq<ServerResult>,
                                                dir: string, invalid: seq<char>, sep: char, p: string)
    requires AllWellFormed(entries)
    requires forall k :: 0 <= k < |entries| ==> PerServerPath(dir, entries[k].server, invalid, sep) != p
    ensures (p in PerServerFiles(files, entries, dir, invalid, sep)) == (p in files)
    ensures p in files ==> PerServerFiles(files, entries, dir, invalid, sep)[p] == files[p]
  {
    if entries != [] {
      var init := entries[..|entries| - 1];
      assert AllWellFormed(init);
      assert forall k :: 0 <= k < |init| ==> init[k] == entries[k];
      PerServerFilesOthers(files, init, dir, invalid, sep, p);
    }
  }

  /** ExportPerServer: the directory is created, then each entry is
      written, in order, to directory/Sanitized(name).csv. */
  method ExportPerServer(entries: seq<ServerResult>, directory: string, invalid: seq<char>, sep: char, disk: Disk)
    requires AllWellFormed(entries)
    modifies disk
    ensures disk.directories == old(disk.directories) + {directory}
    ensures disk.files == PerServerFiles(old(disk.files), entries, directory, invalid, sep)
  {
    disk.directories := disk.directories + {directory};
    for i := 0 to |entries|
      invariant disk.directories == old(disk.directories) + {directory}
      invariant disk.files == PerServerFiles(old(disk.files), entries[..i], directory, invalid, sep)
    {
      assert entries[..i + 1][..i] == entries[..i];
      var name := SanitizeFileName(entries[i].server, invalid);
      var path := PathCombine(directory, name + ".csv", sep);
      WriteDataTableToCsv(entries[i].table, path, disk);
    }
    assert entries[..|entries|] == entries;
  }

  // ---------------------------------------------------------------------
  // The combined export (ExportCombined, lines 20-48).

  /** Lines 26-29: every column name of every table, in order, offered to
      a HashSet that compares names ignoring case. */
  method CollectColumns(entries: seq<ServerResult>) returns (allCols: seq<string>)
    ensures allCols == UnionOf(AllColumns(entries))
  {
    allCols := [];
    for i := 0 to |entries|
      invariant allCols == UnionOf(AllColumns(entries[..i]))
    {
      assert AllColumns(entries[..i + 1]) == AllColumns(entries[..i]) + entries[i].table.columns by {
        assert entries[..i + 1][..i] == entries[..i];
      }
      allCols := AddAll(allCols, AllColumns(entries[..i]), entries[i].table.columns);
    }
    assert entries[..|entries|] == entries;
  }

  /** The inner loop of lines 28-29: one table's column names, in order. */
  method AddAll(allCols: seq<string>, ghost before: seq<string>, cols: seq<string>) returns (u: seq<string>)
    requires allCols == UnionOf(before)
    ensures u == UnionOf(before + cols)
  {
    u := allCols;
    assert before + cols[..0] == before;
    for j := 0 to |cols|
      invariant u == UnionOf(before + cols[..j])
    {
      assert before + cols[..j + 1] == (before + cols[..j]) + [cols[j]];
      UnionOfSnoc(before + cols[..j], cols[j]);
      if !ContainsName(u, cols[j]) {
        u := u + [cols[j]];
      }
    }
    assert cols[..|cols|] == cols;
  }

  /** Lines 23-24 and 30-31: "Server", then each collected name. Adding a
      name the table already holds exactly throws; since the collected
      names differ ignoring case, only "Server" itself can clash. */
  method AddColumns(allCols: seq<string>) returns (res: Result<seq<string>, CombineError>)
    requires CaseDistinct(allCols)
    ensures ServerColumn in allCols ==> res == Err(DuplicateColumn(ServerColumn))
    ensures ServerColumn !in allCols ==> res == Ok([ServerColumn] + allCols)
  {
    var columns := [ServerColumn];
    for k := 0 to |allCols|
      invariant columns == [ServerColumn] + allCols[..k]
      invariant ServerColumn !in allCols[..k]
    {
      if allCols[k] in columns {
        return Err(DuplicateColumn(allCols[k]));
      }
      columns := columns + [allCols[k]];
    }
    assert allCols[..|allCols|] == allCols;
    return Ok(columns);
  }

  /** Lines 37-42: a new row, the server name in "Server", then each source
      cell assigned through the combined table's name lookup. */
  method NewCombinedRow(header: seq<string>, server: string, src: Table, r: nat)
    returns (res: Result<seq<Value>, CombineError>)
    requires |header| >= 1 && header[0] == ServerColumn && Rectangular(src) && r < |src.rows|
    ensures res == FillRow(header, server, src, r, |src.columns|)
  {
    var newRow := seq(|header|, _ => Null);
    // "Server" is found exactly at position 0.
    newRow := newRow[0 := Str(server)];
    assert newRow == NewRow(header, server);
    for c := 0 to |src.columns|
      invariant FillRow(header, server, src, r, c) == Ok(newRow)
    {
      var target := Lookup(header, src.columns[c]);
      if target.None? {
        FillRowErrStays(header, server, src, r, c + 1, |src.columns|);
        return Err(AmbiguousColumn(src.columns[c]));
      }
      newRow := newRow[target.value := src.rows[r][c]];
    }
    return Ok(newRow);
  }

  /** Lines 35-44: the rows of one entry, each filled into a new row. */
  method AddEntryRows(header: seq<string>, e: ServerResult)
    returns (res: Result<seq<seq<Value>>, CombineError>)
    requires |header| >= 1 && header[0] == ServerColumn && WellFormed(e.table)
    ensures res == EntryRows(header, e, |e.table.rows|)
  {
    var rows: seq<seq<Value>> := [];
    for r := 0 to |e.table.rows|
      invariant EntryRows(header, e, r) == Ok(rows)
    {
      var row := NewCombinedRow(header, e.server, e.table, r);
      if row.Err? {
        EntryRowsErrStays(header, e, r + 1, |e.table.rows|);
        return Err(row.error);
      }
      rows := rows + [row.value];
    }
    return Ok(rows);
  }

  /** Lines 33-45: the rows of every entry, entry after entry. */
  method AddRows(header: seq<string>, entries: seq<ServerResult>)
    returns (res: Result<seq<seq<Value>>, CombineError>)
    requires |header| >= 1 && header[0] == ServerColumn && AllWellFormed(entries)
    ensures res == RowsOf(header, entries, |entries|)
  {
    var rows: seq<seq<Value>> := [];
    for i := 0 to |entries|
      invariant RowsOf(header, entries, i) == Ok(rows)
    {
      var more := AddEntryRows(header, entries[i]);
      if more.Err? {
        RowsOfErrStays(header, entries, i + 1, |entries|);
        return Err(more.error);
      }
      rows := rows + more.value;
    }
    return Ok(rows);
  }

  /** ExportCombined: the combined table is built and written to
      outputFile; an exception while building leaves the disk untouched.
      Returns the table written, or the exception. */
  method ExportCombined(entries: seq<ServerResult>, outputFile: string, disk: Disk)
    returns (res: Result<Table, CombineError>)
    requires AllWellFormed(entries)
    modifies disk
    ensures res == Combined(entries)
    ensures res.Ok? ==> WellFormed(res.value)
    ensures res.Ok? ==> disk.files == old(disk.files)[outputFile := CsvOf(res.value)]
    ensures res.Err? ==> disk.files == old(disk.files)
    ensures disk.directories == old(disk.directories)
  {
    var allCols := CollectColumns(entries);
    var columns := AddColumns(allCols);
    if columns.Err? {
      return Err(columns.error);
    }
    var rows := AddRows(columns.value, entries);
    if rows.Err? {
      return Err(rows.error);
    }
    var combined := Table(columns.value, rows.value);
    CombinedWellFormed(entries);
    WriteDataTableToCsv(combined, outputFile, disk);
    return Ok(combined);
  }
}
