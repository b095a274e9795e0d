/** The part of System.Data's DataTable that the exporter relies on: cells,
    tables, the rule that a table never holds two columns with exactly the
    same name, and the lookup of a column by name. */
module DataTables {
  import opened Wrappers
  import opened Text

  /** One cell: DBNull or one of the scalar kinds a result set yields. The
      floating-point and date/time kinds carry the text they are written as. */
  datatype Value = Null | Str(s: string) | Int(n: int) | Bool(b: bool) | Float(shown: string) | Timestamp(shown: string)

  /** A materialised result: column names in order, and rows of cells in
      column order. */
  datatype Table = Table(columns: seq<string>, rows: seq<seq<Value>>)

  /** No two names are exactly equal (DataColumnCollection.Add throws a
      DuplicateNameException otherwise; names differing only in case are
      accepted). */
  predicate DistinctNames(names: seq<string>)
  {
    forall i, j :: 0 <= i < j < |names| ==> names[i] != names[j]
  }

  /** No two names are equal ignoring case. */
  predicate CaseDistinct(names: seq<string>)
  {
    forall i, j :: 0 <= i < j < |names| ==> !SameName(names[i], names[j])
  }

  /** Every row holds one cell per column. */
  predicate Rectangular(t: Table)
  {
    forall r :: 0 <= r < |t.rows| ==> |t.rows[r]| == |t.columns|
  }

  predicate WellFormed(t: Table)
  {
    DistinctNames(t.columns) && Rectangular(t)
  }

  predicate ContainsName(names: seq<string>, name: string)
  {
    exists i :: 0 <= i < |names| && SameName(names[i], name)
  }

  /** The position of the column named exactly name. */
  function IndexOf(names: seq<string>, name: string): (r: Option<nat>)
    ensures r.Some? ==> r.value < |names| && names[r.value] == name
    ensures r.None? ==> name !in names
  {
    if names == [] then None
    else if names[0] == name then Some(0)
    else match IndexOf(names[1..], name)
      case None => None
      case Some(i) => Some(i + 1)
  }

  /** The first position whose name equals name ignoring case. */
  function FirstMatch(names: seq<string>, name: string): (r: Option<nat>)
    ensures r.Some? ==> (r.value < |names| && SameName(names[r.value], name)
                         && forall j :: 0 <= j < r.value ==> !SameName(names[j], name))
    ensures r.None? ==> !ContainsName(names, name)
  {
    if names == [] then None
    else if SameName(names[0], name) then Some(0)
    else match FirstMatch(names[1..], name)
      case None =>
        assert forall j :: 1 <= j < |names| ==> names[j] == names[1..][j - 1];
        None
      case Some(i) =>
        assert forall j :: 1 <= j < |names| ==> names[j] == names[1..][j - 1];
        Some(i + 1)
  }

  /** How many names equal name ignoring case. */
  function MatchCount(names: seq<string>, name: string): nat
  {
    if names == [] then 0
    else (if SameName(names[0], name) then 1 else 0) + MatchCount(names[1..], name)
  }

  /** The column indexer of DataColumnCollection: the column named exactly
      name if there is one, otherwise the only column whose name matches
      ignoring case. None stands for the exception thrown when no column
      matches, or when several match ignoring case and none exactly. */
  function Lookup(names: seq<string>, name: string): (r: Option<nat>)
    ensures r.Some? ==> r.value < |names| && SameName(names[r.value], name)
    ensures name in names ==> r.Some? && names[r.value] == name
    ensures name !in names && r.Some? ==>
      forall j :: 0 <= j < |names| && SameName(names[j], name) ==> j == r.value
    ensures r.None? <==> name !in names && MatchCount(names, name) != 1
  {
    match IndexOf(names, name)
    case Some(i) => Some(i)
    case None =>
      if MatchCount(names, name) == 1 then
        MatchCountContains(names, name);
        var f := FirstMatch(names, name);
        MatchCountOnly(names, name, f.value);
        f
      else None
  }

  /** Some name matches exactly when the count of matches is positive. */
  lemma {:induction false} MatchCountContains(names: seq<string>, name: string)
    ensures MatchCount(names, name) == 0 <==> !ContainsName(names, name)
  {
    if names != [] {
      MatchCountContains(names[1..], name);
      assert forall j :: 1 <= j < |names| ==> names[j] == names[1..][j - 1];
      if ContainsName(names[1..], name) {
        var j :| 0 <= j < |names[1..]| && SameName(names[1..][j], name);
        assert SameName(names[j + 1], name);
      }
    }
  }

  /** With a single match, the first match is the only one. */
  lemma {:induction false} MatchCountOnly(names: seq<string>, name: string, k: nat)
    requires MatchCount(names, name) == 1 && k < |names| && SameName(names[k], name)
    requires forall j :: 0 <= j < k ==> !SameName(names[j], name)
    ensures forall j :: 0 <= j < |names| && SameName(names[j], name) ==> j == k
  {
    if k == 0 {
      MatchCountContains(names[1..], name);
      forall j | 1 <= j < |names|
        ensures !SameName(names[j], name)
      {
        assert names[j] == names[1..][j - 1];
      }
    } else {
      assert names[1..][k - 1] == names[k];
      MatchCountOnly(names[1..], name, k - 1);
      forall j | 1 <= j < |names| && SameName(names[j], name)
        ensures j == k
      {
        assert names[j] == names[1..][j - 1];
      }
    }
  }

  lemma {:induction false} MatchCountOne(names: seq<string>, name: string, k: nat)
    requires CaseDistinct(names) && k < |names| && SameName(names[k], name)
    ensures MatchCount(names, name) == 1
  {
    if k == 0 {
      NoMatchAfter(names[1..], name, names[0]);
    } else {
      assert !SameName(names[0], names[k]);
      assert names[1..][k - 1] == names[k];
      MatchCountOne(names[1..], name, k - 1);
    }
  }

  lemma {:induction false} NoMatchAfter(names: seq<string>, name: string, other: string)
    requires forall j :: 0 <= j < |names| ==> !SameName(other, names[j])
    requires SameName(other, name)
    ensures MatchCount(names, name) == 0
  {
    if names != [] {
      assert !SameName(other, names[0]);
      NoMatchAfter(names[1..], name, other);
    }
  }

  /** In a table whose column names differ even ignoring case, looking a
      name up finds the one column that matches it ignoring case, whether
      or not the casing is exact. */
  lemma LookupUnique(names: seq<string>, name: string, k: nat)
    requires CaseDistinct(names) && k < |names| && SameName(names[k], name)
    ensures Lookup(names, name) == Some(k)
  {
    match IndexOf(names, name)
    case Some(i) =>
      assert SameName(names[i], names[k]);
    case None =>
      MatchCountOne(names, name, k);
      var f := FirstMatch(names, name);
      assert f.Some? by { assert names[k] == names[k]; }
      assert SameName(names[f.value], names[k]);
  }
}
