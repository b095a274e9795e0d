/** What combining per-server tables means. Both
    src/MultiServerSqlExecutor.Core/Services/CsvExporter.cs (ExportCombined)
    and src/MultiServerSqlExecutor.Ui/MainWindow.xaml.cs (Combine) build the
    same table; this module defines it, once step by step as the code builds
    it (Combined) and once declaratively (ExpectedRows), and proves the two
    agree. */
module Reconciliation {
  import opened Wrappers
  import opened Text
  import opened DataTables

  /** One entry of the results dictionary: a server's name and its table.
      Entries are taken in dictionary enumeration order. */
  datatype ServerResult = ServerResult(server: string, table: Table)

  /** The exceptions the combination can raise: DataColumnCollection.Add of
      a name already present exactly, and a row assignment by a name that
      matches two combined columns ignoring case but neither exactly. */
  datatype CombineError = DuplicateColumn(name: string) | AmbiguousColumn(name: string)

  /** The synthetic first column. */
  const ServerColumn: string := "Server"

  predicate AllWellFormed(entries: seq<ServerResult>)
  {
    forall i :: 0 <= i < |entries| ==> WellFormed(entries[i].table)
  }

  /** The column names of all tables, table after table. */
  function AllColumns(entries: seq<ServerResult>): (names: seq<string>)
  {
    if entries == [] then []
    else AllColumns(entries[..|entries| - 1]) + entries[|entries| - 1].table.columns
  }

  /** The names collected into the case-insensitive HashSet, in the order
      they were first added: a name joins unless an equal-ignoring-case one
      is already there. */
  function UnionOf(names: seq<string>): (u: seq<string>)
    ensures CaseDistinct(u)
    ensures forall k :: 0 <= k < |u| ==> u[k] in names
    ensures forall n :: n in names ==> ContainsName(u, n)
  {
    if names == [] then []
    else
      var init, n := names[..|names| - 1], names[|names| - 1];
      var prev := UnionOf(init);
      assert names == init + [n];
      UnionStep(init, n, prev);
      if ContainsName(prev, n) then prev else prev + [n]
  }

  /** One step of the union keeps its three properties. */
  lemma UnionStep(init: seq<string>, n: string, prev: seq<string>)
    requires CaseDistinct(prev)
    requires forall k :: 0 <= k < |prev| ==> prev[k] in init
    requires forall m :: m in init ==> ContainsName(prev, m)
    ensures var u := if ContainsName(prev, n) then prev else prev + [n];
      && CaseDistinct(u)
      && (forall k :: 0 <= k < |u| ==> u[k] in init + [n])
      && (forall m :: m in init + [n] ==> ContainsName(u, m))
  {
    if !ContainsName(prev, n) {
      AppendDistinct(prev, n);
      AppendCovers(init, n, prev);
    } else {
      forall m | m in init + [n] ensures ContainsName(prev, m) {
        assert m in init || m == n;
      }
    }
  }

  lemma AppendDistinct(prev: seq<string>, n: string)
    requires CaseDistinct(prev) && !ContainsName(prev, n)
    ensures CaseDistinct(prev + [n])
  {
    var u := prev + [n];
    forall i, j | 0 <= i < j < |u| ensures !SameName(u[i], u[j]) {
      assert u[i] == prev[i];
      if j < |prev| {
        assert u[j] == prev[j];
      }
    }
  }

  lemma AppendCovers(init: seq<string>, n: string, prev: seq<string>)
    requires forall k :: 0 <= k < |prev| ==> prev[k] in init
    requires forall m :: m in init ==> ContainsName(prev, m)
    ensures forall k :: 0 <= k < |prev + [n]| ==> (prev + [n])[k] in init + [n]
    ensures forall m :: m in init + [n] ==> ContainsName(prev + [n], m)
  {
    var u := prev + [n];
    forall m | m in init + [n] ensures ContainsName(u, m) {
      if m == n {
        assert u[|prev|] == n && SameName(n, m);
      } else {
        assert m in init;
        var k :| 0 <= k < |prev| && SameName(prev[k], m);
        assert u[k] == prev[k];
      }
    }
  }

  /** Offering one more name to the set. */
  lemma UnionOfSnoc(names: seq<string>, n: string)
    ensures UnionOf(names + [n]) ==
      if ContainsName(UnionOf(names), n) then UnionOf(names) else UnionOf(names) + [n]
  {
    assert (names + [n])[..|names|] == names;
  }

  /** The header of the combined table. */
  function Header(entries: seq<ServerResult>): (h: seq<string>)
    ensures |h| >= 1 && h[0] == ServerColumn
  {
    [ServerColumn] + UnionOf(AllColumns(entries))
  }

  /** A new combined row: every cell DBNull, then the server name stored
      in the synthetic first column. */
  function NewRow(header: seq<string>, server: string): (row: seq<Value>)
    requires |header| >= 1
    ensures |row| == |header|
  {
    [Str(server)] + seq(|header| - 1, _ => Null)
  }

  /** A combined row after copying the first n cells of source row r, each
      into the combined column its name resolves to. */
  function FillRow(header: seq<string>, server: string, src: Table, r: nat, n: nat)
    : (res: Result<seq<Value>, CombineError>)
    requires |header| >= 1 && Rectangular(src) && r < |src.rows| && n <= |src.columns|
    ensures res.Ok? ==> |res.value| == |header|
  {
    if n == 0 then Ok(NewRow(header, server))
    else match FillRow(header, server, src, r, n - 1)
      case Err(e) => Err(e)
      case Ok(row) =>
        match Lookup(header, src.columns[n - 1])
        case None => Err(AmbiguousColumn(src.columns[n - 1]))
        case Some(c) => Ok(row[c := src.rows[r][n - 1]])
  }

  /** The combined rows made from the first m rows of one entry. */
  function EntryRows(header: seq<string>, e: ServerResult, m: nat)
    : (res: Result<seq<seq<Value>>, CombineError>)
    requires |header| >= 1 && Rectangular(e.table) && m <= |e.table.rows|
    ensures res.Ok? ==> |res.value| == m
  {
    if m == 0 then Ok([])
    else match EntryRows(header, e, m - 1)
      case Err(err) => Err(err)
      case Ok(prev) =>
        match FillRow(header, e.server, e.table, m - 1, |e.table.columns|)
        case Err(err) => Err(err)
        case Ok(row) => Ok(prev + [row])
  }

  /** The combined rows made from the first n entries. */
  function RowsOf(header: seq<string>, entries: seq<ServerResult>, n: nat)
    : (res: Result<seq<seq<Value>>, CombineError>)
    requires |header| >= 1 && AllWellFormed(entries) && n <= |entries|
  {
    if n == 0 then Ok([])
    else match RowsOf(header, entries, n - 1)
      case Err(err) => Err(err)
      case Ok(prev) =>
        match EntryRows(header, entries[n - 1], |entries[n - 1].table.rows|)
        case Err(err) => Err(err)
        case Ok(more) => Ok(prev + more)
  }

  /** The combined table, or the first exception the combination raises. */
  function Combined(entries: seq<ServerResult>): (res: Result<Table, CombineError>)
    requires AllWellFormed(entries)
    ensures res.Ok? ==> res.value.columns == Header(entries) && ServerColumn !in res.value.columns[1..]
  {
    if ServerColumn in UnionOf(AllColumns(entries)) then Err(DuplicateColumn(ServerColumn))
    else match RowsOf(Header(entries), entries, |entries|)
      case Err(err) => Err(err)
      case Ok(rows) => Ok(Table(Header(entries), rows))
  }

  // ---------------------------------------------------------------------
  // The declarative reading of a combined row.

  /** The position of the last name equal to name ignoring case. */
  function LastMatch(names: seq<string>, name: string): (r: Option<nat>)
    ensures r.Some? ==> r.value < |names| && SameName(names[r.value], name)
    ensures r.None? ==> !ContainsName(names, name)
  {
    if names == [] then None
    else if SameName(names[|names| - 1], name) then Some(|names| - 1)
    else
      var r := LastMatch(names[..|names| - 1], name);
      assert forall j :: 0 <= j < |names| - 1 ==> names[j] == names[..|names| - 1][j];
      r
  }

  /** The row whose first cell is the server name and whose every other cell
      holds the source value of the column with the same name ignoring case
      (the last such column, if the source has several), or DBNull when the
      source has no such column. */
  function RowFrom(header: seq<string>, server: string, cols: seq<string>, vals: seq<Value>)
    : (row: seq<Value>)
    requires |vals| == |cols|
    ensures |row| == |header|
  {
    seq(|header|, c requires 0 <= c < |header| =>
      if c == 0 then Str(server)
      else match LastMatch(cols, header[c])
        case None => Null
        case Some(j) => vals[j])
  }

  function ExpectedRow(header: seq<string>, server: string, src: Table, r: nat): (row: seq<Value>)
    requires Rectangular(src) && r < |src.rows|
    ensures |row| == |header|
  {
    RowFrom(header, server, src.columns, src.rows[r])
  }

  /** One entry's rows, in source order. */
  function Block(header: seq<string>, e: ServerResult): (rows: seq<seq<Value>>)
    requires Rectangular(e.table)
    ensures |rows| == |e.table.rows|
  {
    seq(|e.table.rows|, r requires 0 <= r < |e.table.rows| => ExpectedRow(header, e.server, e.table, r))
  }

  /** All entries' rows, entry after entry. */
  function ExpectedRows(header: seq<string>, entries: seq<ServerResult>): seq<seq<Value>>
    requires AllWellFormed(entries)
  {
    if entries == [] then []
    else ExpectedRows(header, entries[..|entries| - 1]) + Block(header, entries[|entries| - 1])
  }

  /** The total number of source rows. */
  function TotalRows(entries: seq<ServerResult>): nat
  {
    if entries == [] then 0
    else TotalRows(entries[..|entries| - 1]) + |entries[|entries| - 1].table.rows|
  }

  /** No source column is named like the synthetic column, ignoring case. */
  predicate NoServerClash(entries: seq<ServerResult>)
  {
    forall n :: n in AllColumns(entries) ==> !SameName(n, ServerColumn)
  }

  // ---------------------------------------------------------------------
  // The column union.

  lemma {:induction false} FirstMatchAppend(p: seq<string>, n: string, x: string)
    ensures FirstMatch(p + [n], x) ==
      if ContainsName(p, x) then FirstMatch(p, x)
      else if SameName(n, x) then Some(|p|) else None
  {
    if p != [] {
      assert (p + [n])[1..] == p[1..] + [n];
      FirstMatchAppend(p[1..], n, x);
      if !SameName(p[0], x) && ContainsName(p, x) {
        var j :| 0 <= j < |p| && SameName(p[j], x);
        assert p[1..][j - 1] == p[j];
      }
    }
  }

  lemma FirstMatchSameName(names: seq<string>, a: string, b: string)
    requires SameName(a, b)
    ensures FirstMatch(names, a) == FirstMatch(names, b)
  {
  }

  /** A name no union member matches matches no input name either. */
  lemma UnionMissesName(names: seq<string>, n: string)
    requires !ContainsName(UnionOf(names), n)
    ensures !ContainsName(names, n)
  {
    var up := UnionOf(names);
    forall j | 0 <= j < |names| ensures !SameName(names[j], n) {
      assert names[j] in names;
      var k :| 0 <= k < |up| && SameName(up[k], names[j]);
    }
  }

  /** Each name in the union is spelled as the first input name of its
      class (the casing of the first occurrence wins). */
  lemma {:induction false} UnionFirstSpellingAt(names: seq<string>, k: nat)
    requires k < |UnionOf(names)|
    ensures FirstMatch(names, UnionOf(names)[k]).Some?
    ensures names[FirstMatch(names, UnionOf(names)[k]).value] == UnionOf(names)[k]
  {
    var p, n := names[..|names| - 1], names[|names| - 1];
    assert names == p + [n];
    var up := UnionOf(p);
    var x := UnionOf(names)[k];
    FirstMatchAppend(p, n, x);
    if k < |up| {
      assert x == up[k];
      UnionFirstSpellingAt(p, k);
      var j := FirstMatch(p, x).value;
      assert SameName(p[j], x);
      assert names[j] == p[j];
    } else {
      assert x == n && !ContainsName(up, n);
      UnionMissesName(p, n);
      assert names[|p|] == n && SameName(n, n);
    }
  }

  lemma UnionFirstSpelling(names: seq<string>)
    ensures forall k :: 0 <= k < |UnionOf(names)| ==>
      FirstMatch(names, UnionOf(names)[k]).Some?
      && names[FirstMatch(names, UnionOf(names)[k]).value] == UnionOf(names)[k]
  {
    forall k | 0 <= k < |UnionOf(names)|
      ensures FirstMatch(names, UnionOf(names)[k]).Some?
        && names[FirstMatch(names, UnionOf(names)[k]).value] == UnionOf(names)[k]
    {
      UnionFirstSpellingAt(names, k);
    }
  }

  /** The first spelling of every input name is in the union. */
  lemma UnionHasFirstSpelling(names: seq<string>, x: string)
    requires x in names
    ensures FirstMatch(names, x).Some? && names[FirstMatch(names, x).value] in UnionOf(names)
  {
    var u := UnionOf(names);
    var k :| 0 <= k < |u| && SameName(u[k], x);
    UnionFirstSpelling(names);
    FirstMatchSameName(names, u[k], x);
  }

  /** A union that keeps the spelling "server" makes a later "SERVER"
      ambiguous: it matches both "Server" and "server" ignoring case and
      neither exactly, so filling the row throws. */
  lemma ServerCellAmbiguous()
    ensures var entries := [ServerResult("A", Table(["server"], [])),
                            ServerResult("B", Table(["SERVER"], [[Str("x")]]))];
      && AllWellFormed(entries)
      && Combined(entries) == Err(AmbiguousColumn("SERVER"))
  {
    var a := ServerResult("A", Table(["server"], []));
    var b := ServerResult("B", Table(["SERVER"], [[Str("x")]]));
    Spellings();
    LaterSpellingHeader(a, b, "server");
    AmbiguousRow("server", "SERVER", b);
  }

  /** A union that keeps the spelling "server" lets a later "Server" match
      the synthetic column exactly, so that entry's value replaces the
      server's name in its rows. */
  lemma ServerCellOverwritten()
    ensures var entries := [ServerResult("A", Table(["server"], [])),
                            ServerResult("B", Table(["Server"], [[Str("x")]]))];
      && AllWellFormed(entries)
      && Combined(entries) == Ok(Table(["Server", "server"], [[Str("x"), Null]]))
  {
    var a := ServerResult("A", Table(["server"], []));
    var b := ServerResult("B", Table(["Server"], [[Str("x")]]));
    Spellings();
    LaterSpellingHeader(a, b, "server");
    OverwrittenRow("server", b, Str("x"));
  }

  /** A one-cell row whose column y matches both header columns ignoring
      case and neither exactly. */
  lemma AmbiguousRow(x: string, y: string, b: ServerResult)
    requires x != ServerColumn && y != ServerColumn && y != x
    requires SameName(y, x) && SameName(y, ServerColumn)
    requires b.table.columns == [y] && |b.table.rows| == 1 && |b.table.rows[0]| == 1
    ensures EntryRows([ServerColumn, x], b, 1) == Err(AmbiguousColumn(y))
  {
    var header := [ServerColumn, x];
    assert header[1..] == [x] && header[1..][1..] == [];
    assert IndexOf(header, y) == None;
    assert MatchCount(header[1..][1..], y) == 0;
    assert MatchCount(header[1..], y) == 1;
    assert MatchCount(header, y) == 2;
    assert FillRow(header, b.server, b.table, 0, 1) == Err(AmbiguousColumn(y));
  }

  /** A one-cell row whose column is spelled exactly like the synthetic
      column: its value replaces the server's name. */
  lemma OverwrittenRow(x: string, b: ServerResult, v: Value)
    requires b.table.columns == [ServerColumn] && b.table.rows == [[v]]
    ensures EntryRows([ServerColumn, x], b, 1) == Ok([[v, Null]])
  {
    var header := [ServerColumn, x];
    assert Lookup(header, ServerColumn) == Some(0);
    assert seq(|header| - 1, _ => Null) == [Null];
    assert NewRow(header, b.server) == [Str(b.server), Null];
    assert FillRow(header, b.server, b.table, 0, 0) == Ok([Str(b.server), Null]);
    assert [Str(b.server), Null][0 := v] == [v, Null];
    assert FillRow(header, b.server, b.table, 0, 1) == Ok([v, Null]);
    assert EntryRows(header, b, 0) == Ok([]);
    assert [] + [[v, Null]] == [[v, Null]];
  }

  /** Two entries, the first with a single column x and no rows, the
      second with one column spelled like x ignoring case: the header is
      "Server", x, and the rows are the second entry's. */
  lemma LaterSpellingHeader(a: ServerResult, b: ServerResult, x: string)
    requires a.table == Table([x], []) && x != ServerColumn && |b.table.columns| == 1
    requires WellFormed(b.table) && SameName(b.table.columns[0], x)
    ensures AllWellFormed([a, b])
    ensures Header([a, b]) == [ServerColumn, x]
    ensures Combined([a, b]) ==
      match EntryRows([ServerColumn, x], b, |b.table.rows|)
      case Err(e) => Err(e)
      case Ok(rows) => Ok(Table([ServerColumn, x], rows))
  {
    var header := [ServerColumn, x];
    TwoEntryRows(header, a, b);
    HeaderRespelled(a, b, x);
  }

  lemma HeaderRespelled(a: ServerResult, b: ServerResult, x: string)
    requires a.table.columns == [x] && x != ServerColumn && |b.table.columns| == 1
    requires SameName(b.table.columns[0], x)
    ensures UnionOf(AllColumns([a, b])) == [x]
    ensures Header([a, b]) == [ServerColumn, x]
  {
    TwoColumns(a, b);
    UnionOfRespelled(x, b.table.columns[0]);
    assert b.table.columns == [b.table.columns[0]];
    assert AllColumns([a, b]) == [x] + [b.table.columns[0]];
  }

  lemma TwoColumns(a: ServerResult, b: ServerResult)
    ensures AllColumns([a, b]) == a.table.columns + b.table.columns
  {
    assert [a, b][..1] == [a] && [a][..0] == [];
    assert AllColumns([a]) == a.table.columns;
  }

  lemma UnionOfRespelled(x: string, y: string)
    requires SameName(y, x)
    ensures UnionOf([x] + [y]) == [x]
  {
    var cols := [x] + [y];
    assert cols[..1] == [x] && [x][..0] == [];
    assert UnionOf([x]) == [x];
    assert ContainsName([x], y);
  }

  lemma TwoEntryRows(header: seq<string>, a: ServerResult, b: ServerResult)
    requires |header| >= 1 && WellFormed(a.table) && WellFormed(b.table) && a.table.rows == []
    ensures AllWellFormed([a, b])
    ensures RowsOf(header, [a, b], 2) == EntryRows(header, b, |b.table.rows|)
  {
    assert [a, b][0] == a && [a, b][1] == b;
    assert |a.table.rows| == 0 && EntryRows(header, a, 0) == Ok([]);
    assert RowsOf(header, [a, b], 0) == Ok([]);
    var empty: seq<seq<Value>> := [];
    assert empty + empty == empty;
    assert RowsOf(header, [a, b], 1) == Ok([]);
    match EntryRows(header, b, |b.table.rows|)
    case Err(e) =>
    case Ok(rows) =>
      assert [] + rows == rows;
  }

  /** The three spellings of the synthetic column's name used above. */
  lemma Spellings()
    ensures SameName("SERVER", "server") && SameName("Server", "server") && SameName("SERVER", "Server")
    ensures "server" != ServerColumn && "SERVER" != ServerColumn && "SERVER" != "server"
  {
    assert "server"[0] != ServerColumn[0] && "SERVER"[1] != ServerColumn[1] && "SERVER"[0] != "server"[0];
    UpperIs("server", "SERVER");
    UpperIs("Server", "SERVER");
    UpperIs("SERVER", "SERVER");
  }

  lemma UpperIs(s: string, t: string)
    requires |s| == |t| == 6
    requires UpperChar(s[0]) == t[0] && UpperChar(s[1]) == t[1] && UpperChar(s[2]) == t[2]
    requires UpperChar(s[3]) == t[3] && UpperChar(s[4]) == t[4] && UpperChar(s[5]) == t[5]
    ensures Upper(s) == t
  {
  }

  /** The combination refuses the input exactly when the synthetic column's
      name is also the first spelling, among all input columns, of a name
      equal to it ignoring case: the column union then holds "Server" a
      second time and DataColumnCollection.Add throws. */
  lemma ServerColumnRejected(entries: seq<ServerResult>)
    requires AllWellFormed(entries)
    ensures (ServerColumn in UnionOf(AllColumns(entries))) <==>
      (FirstMatch(AllColumns(entries), ServerColumn).Some?
       && AllColumns(entries)[FirstMatch(AllColumns(entries), ServerColumn).value] == ServerColumn)
    ensures ServerColumn in UnionOf(AllColumns(entries)) ==>
      Combined(entries) == Err(DuplicateColumn(ServerColumn))
  {
    var names := AllColumns(entries);
    UnionFirstSpelling(names);
    if FirstMatch(names, ServerColumn).Some? && names[FirstMatch(names, ServerColumn).value] == ServerColumn {
      UnionHasFirstSpelling(names, ServerColumn);
    }
    if ServerColumn in UnionOf(names) {
      var k :| 0 <= k < |UnionOf(names)| && UnionOf(names)[k] == ServerColumn;
    }
  }

  // ---------------------------------------------------------------------
  // The step-by-step combination agrees with the declarative one.

  lemma {:induction false} ColumnInAll(entries: seq<ServerResult>, i: nat, j: nat)
    requires i < |entries| && j < |entries[i].table.columns|
    ensures entries[i].table.columns[j] in AllColumns(entries)
  {
    var last := |entries| - 1;
    if i < last {
      assert entries[..last][i] == entries[i];
      ColumnInAll(entries[..last], i, j);
    } else {
      assert AllColumns(entries)[|AllColumns(entries[..last])| + j] == entries[i].table.columns[j];
    }
  }

  /** Every source column matches, ignoring case, one combined column after
      the first. */
  predicate Covered(header: seq<string>, t: Table)
    requires |header| >= 1
  {
    forall j :: 0 <= j < |t.columns| ==> ContainsName(header[1..], t.columns[j])
  }

  lemma HeaderCovers(entries: seq<ServerResult>, i: nat)
    requires i < |entries|
    ensures Covered(Header(entries), entries[i].table)
  {
    var header := Header(entries);
    assert header[1..] == UnionOf(AllColumns(entries));
    forall j | 0 <= j < |entries[i].table.columns|
      ensures ContainsName(header[1..], entries[i].table.columns[j])
    {
      ColumnInAll(entries, i, j);
    }
  }

  lemma CaseDistinctCons(x: string, u: seq<string>)
    requires CaseDistinct(u) && forall k :: 0 <= k < |u| ==> !SameName(u[k], x)
    ensures CaseDistinct([x] + u)
  {
    var h := [x] + u;
    forall i, j | 0 <= i < j < |h| ensures !SameName(h[i], h[j]) {
      assert h[j] == u[j - 1];
      if i > 0 {
        assert h[i] == u[i - 1];
      }
    }
  }

  lemma HeaderDistinct(entries: seq<ServerResult>)
    requires NoServerClash(entries)
    ensures CaseDistinct(Header(entries))
  {
    var u := UnionOf(AllColumns(entries));
    forall k | 0 <= k < |u| ensures !SameName(u[k], ServerColumn) {
      assert u[k] in AllColumns(entries);
    }
    CaseDistinctCons(ServerColumn, u);
  }

  /** Appending one more source column changes only the combined column it
      matches. */
  lemma RowFromStep(header: seq<string>, server: string, cols: seq<string>, vals: seq<Value>, k: nat)
    requires CaseDistinct(header) && 1 <= k < |header|
    requires |cols| == |vals| && |cols| >= 1 && SameName(header[k], cols[|cols| - 1])
    ensures RowFrom(header, server, cols, vals)
      == RowFrom(header, server, cols[..|cols| - 1], vals[..|vals| - 1])[k := vals[|vals| - 1]]
  {
    var last := |cols| - 1;
    var prev := RowFrom(header, server, cols[..last], vals[..last]);
    var row := RowFrom(header, server, cols, vals);
    forall c | 0 <= c < |header| ensures row[c] == prev[k := vals[last]][c] {
      if c != 0 && c != k {
        assert !SameName(header[c], header[k]);
        assert !SameName(header[c], cols[last]);
        assert LastMatch(cols, header[c]) == LastMatch(cols[..last], header[c]);
        match LastMatch(cols[..last], header[c])
        case None =>
        case Some(j) => assert vals[..last][j] == vals[j];
      }
    }
  }

  lemma {:induction false} FillRowMeaning(header: seq<string>, server: string, src: Table, r: nat, n: nat)
    requires |header| >= 1 && CaseDistinct(header) && Covered(header, src)
    requires Rectangular(src) && r < |src.rows| && n <= |src.columns|
    ensures FillRow(header, server, src, r, n) == Ok(RowFrom(header, server, src.columns[..n], src.rows[r][..n]))
  {
    var cols, vals := src.columns[..n], src.rows[r][..n];
    if n == 0 {
      assert RowFrom(header, server, cols, vals) == NewRow(header, server);
    } else {
      FillRowMeaning(header, server, src, r, n - 1);
      var col := src.columns[n - 1];
      var k := CoveredAt(header, src, n - 1);
      LookupUnique(header, col, k);
      var prev := RowFrom(header, server, src.columns[..n - 1], src.rows[r][..n - 1]);
      assert FillRow(header, server, src, r, n) == Ok(prev[k := src.rows[r][n - 1]]);
      assert cols[..n - 1] == src.columns[..n - 1] && vals[..n - 1] == src.rows[r][..n - 1];
      RowFromStep(header, server, cols, vals, k);
    }
  }

  /** The combined column that source column j resolves to. */
  lemma CoveredAt(header: seq<string>, src: Table, j: nat) returns (k: nat)
    requires |header| >= 1 && Covered(header, src) && j < |src.columns|
    ensures 1 <= k < |header| && SameName(header[k], src.columns[j])
  {
    assert ContainsName(header[1..], src.columns[j]);
    var k' :| 0 <= k' < |header| - 1 && SameName(header[1..][k'], src.columns[j]);
    k := k' + 1;
  }

  lemma {:induction false} EntryRowsMeaning(header: seq<string>, e: ServerResult, m: nat)
    requires |header| >= 1 && CaseDistinct(header) && Covered(header, e.table)
    requires Rectangular(e.table) && m <= |e.table.rows|
    ensures EntryRows(header, e, m) == Ok(Block(header, e)[..m])
  {
    if m > 0 {
      EntryRowsMeaning(header, e, m - 1);
      var cols := e.table.columns;
      FillRowMeaning(header, e.server, e.table, m - 1, |cols|);
      assert cols[..|cols|] == cols && e.table.rows[m - 1][..|cols|] == e.table.rows[m - 1];
      assert Block(header, e)[..m] == Block(header, e)[..m - 1] + [Block(header, e)[m - 1]];
    }
  }

  lemma {:induction false} RowsOfMeaning(entries: seq<ServerResult>, n: nat)
    requires AllWellFormed(entries) && NoServerClash(entries) && n <= |entries|
    ensures RowsOf(Header(entries), entries, n) == Ok(ExpectedRows(Header(entries), entries[..n]))
  {
    var header := Header(entries);
    if n > 0 {
      RowsOfMeaning(entries, n - 1);
      var e := entries[n - 1];
      HeaderDistinct(entries);
      HeaderCovers(entries, n - 1);
      EntryRowsMeaning(header, e, |e.table.rows|);
      assert Block(header, e)[..|e.table.rows|] == Block(header, e);
      ExpectedRowsPrefix(header, entries, n);
    }
  }

  /** The rows of the first n entries extend those of the first n - 1 by
      the n-th entry's block. */
  lemma ExpectedRowsPrefix(header: seq<string>, entries: seq<ServerResult>, n: nat)
    requires AllWellFormed(entries) && 1 <= n <= |entries|
    ensures AllWellFormed(entries[..n]) && AllWellFormed(entries[..n - 1])
    ensures ExpectedRows(header, entries[..n])
      == ExpectedRows(header, entries[..n - 1]) + Block(header, entries[n - 1])
  {
    assert entries[..n][..n - 1] == entries[..n - 1];
  }

  /** When no source column is named like the synthetic "Server" column
      (ignoring case), the combination succeeds: its header is "Server"
      followed by the case-insensitive union of the input columns, and its
      rows are the declarative rows, entry after entry. */
  lemma CombinedMeaning(entries: seq<ServerResult>)
    requires AllWellFormed(entries) && NoServerClash(entries)
    ensures Combined(entries) ==
      Ok(Table([ServerColumn] + UnionOf(AllColumns(entries)), ExpectedRows(Header(entries), entries)))
  {
    RowsOfMeaning(entries, |entries|);
    assert entries[..|entries|] == entries;
  }

  // ---------------------------------------------------------------------
  // Properties of the declarative rows.

  /** One combined row per source row. */
  lemma {:induction false} ExpectedRowsCount(header: seq<string>, entries: seq<ServerResult>)
    requires AllWellFormed(entries)
    ensures |ExpectedRows(header, entries)| == TotalRows(entries)
  {
    if entries != [] {
      var init := entries[..|entries| - 1];
      assert AllWellFormed(init);
      ExpectedRowsCount(header, init);
    }
  }

  /** Rows are grouped by entry in input order, and within an entry they
      follow the source row order: source row r of entry i is combined row
      TotalRows(entries[..i]) + r. */
  lemma {:induction false} ExpectedRowsAt(header: seq<string>, entries: seq<ServerResult>, i: nat, r: nat)
    requires AllWellFormed(entries) && i < |entries| && r < |entries[i].table.rows|
    ensures TotalRows(entries[..i]) + r < |ExpectedRows(header, entries)|
    ensures ExpectedRows(header, entries)[TotalRows(entries[..i]) + r]
      == ExpectedRow(header, entries[i].server, entries[i].table, r)
  {
    var last := |entries| - 1;
    var init := entries[..last];
    assert AllWellFormed(init);
    ExpectedRowsCount(header, init);
    ExpectedRowsCount(header, entries);
    if i < last {
      assert init[i] == entries[i] && init[..i] == entries[..i];
      ExpectedRowsAt(header, init, i, r);
    } else {
      assert entries[..i] == init;
    }
  }

  /** What a combined row holds: the server name first; for every source
      column, its value in the combined column of the same name ignoring
      case (when the source's names differ ignoring case); DBNull in every
      combined column the source does not have. */
  lemma ExpectedRowPlacement(header: seq<string>, server: string, src: Table, r: nat)
    requires Rectangular(src) && r < |src.rows| && |header| >= 1
    ensures ExpectedRow(header, server, src, r)[0] == Str(server)
    ensures forall c :: 1 <= c < |header| && !ContainsName(src.columns, header[c]) ==>
      ExpectedRow(header, server, src, r)[c] == Null
    ensures CaseDistinct(src.columns) ==>
      forall j, c :: 0 <= j < |src.columns| && 1 <= c < |header| && SameName(header[c], src.columns[j]) ==>
        ExpectedRow(header, server, src, r)[c] == src.rows[r][j]
  {
    var row := ExpectedRow(header, server, src, r);
    if CaseDistinct(src.columns) {
      forall j, c | 0 <= j < |src.columns| && 1 <= c < |header| && SameName(header[c], src.columns[j])
        ensures row[c] == src.rows[r][j]
      {
        var m := LastMatch(src.columns, header[c]);
        assert SameName(src.columns[j], header[c]);
        assert m.Some?;
        assert SameName(src.columns[m.value], src.columns[j]);
      }
    }
  }

  // ---------------------------------------------------------------------
  // An exception ends the combination: once a prefix fails, every longer
  // prefix fails with the same exception.

  lemma {:induction false} FillRowErrStays(header: seq<string>, server: string, src: Table, r: nat, n: nat, m: nat)
    requires |header| >= 1 && Rectangular(src) && r < |src.rows| && n <= m <= |src.columns|
    requires FillRow(header, server, src, r, n).Err?
    ensures FillRow(header, server, src, r, m) == FillRow(header, server, src, r, n)
  {
    if m > n {
      FillRowErrStays(header, server, src, r, n, m - 1);
    }
  }

  lemma {:induction false} EntryRowsErrStays(header: seq<string>, e: ServerResult, n: nat, m: nat)
    requires |header| >= 1 && Rectangular(e.table) && n <= m <= |e.table.rows|
    requires EntryRows(header, e, n).Err?
    ensures EntryRows(header, e, m) == EntryRows(header, e, n)
  {
    if m > n {
      EntryRowsErrStays(header, e, n, m - 1);
    }
  }

  lemma {:induction false} RowsOfErrStays(header: seq<string>, entries: seq<ServerResult>, n: nat, m: nat)
    requires |header| >= 1 && AllWellFormed(entries) && n <= m <= |entries|
    requires RowsOf(header, entries, n).Err?
    ensures RowsOf(header, entries, m) == RowsOf(header, entries, n)
  {
    if m > n {
      RowsOfErrStays(header, entries, n, m - 1);
    }
  }

  // ---------------------------------------------------------------------
  // Shape of a successful combination.

  lemma {:induction false} EntryRowsWidth(header: seq<string>, e: ServerResult, m: nat)
    requires |header| >= 1 && Rectangular(e.table) && m <= |e.table.rows|
    ensures EntryRows(header, e, m).Ok? ==>
      forall k :: 0 <= k < |EntryRows(header, e, m).value| ==> |EntryRows(header, e, m).value[k]| == |header|
  {
    if m > 0 {
      EntryRowsWidth(header, e, m - 1);
    }
  }

  lemma {:induction false} RowsOfWidth(header: seq<string>, entries: seq<ServerResult>, n: nat)
    requires |header| >= 1 && AllWellFormed(entries) && n <= |entries|
    ensures RowsOf(header, entries, n).Ok? ==>
      forall k :: 0 <= k < |RowsOf(header, entries, n).value| ==> |RowsOf(header, entries, n).value[k]| == |header|
  {
    if n > 0 {
      RowsOfWidth(header, entries, n - 1);
      EntryRowsWidth(header, entries[n - 1], |entries[n - 1].table.rows|);
    }
  }

  /** A successful combination is a well-formed table whose first column
      is "Server": no two columns share a name exactly (they even differ
      ignoring case, apart from "Server" and its case variants) and every
      row has one cell per column. */
  lemma CombinedWellFormed(entries: seq<ServerResult>)
    requires AllWellFormed(entries)
    ensures Combined(entries).Ok? ==>
      WellFormed(Combined(entries).value) && Combined(entries).value.columns[0] == ServerColumn
  {
    if Combined(entries).Ok? {
      var t := Combined(entries).value;
      var u := UnionOf(AllColumns(entries));
      assert t.columns == [ServerColumn] + u;
      RowsOfWidth(Header(entries), entries, |entries|);
      ExactDistinctCons(ServerColumn, u);
    }
  }

  lemma ExactDistinctCons(x: string, u: seq<string>)
    requires CaseDistinct(u) && x !in u
    ensures DistinctNames([x] + u)
  {
    var h := [x] + u;
    forall i, j | 0 <= i < j < |h| ensures h[i] != h[j] {
      assert h[j] == u[j - 1];
      if i > 0 {
        assert h[i] == u[i - 1];
        assert !SameName(u[i - 1], u[j - 1]);
      }
    }
  }
}
