/** src/MultiServerSqlExecutor.Core/Services/ConfigStore.cs: the registry of
    server connections, kept in servers.json.

    The file is the Store's field: Load reads it and Save overwrites it.
    Each operation loads the list, edits it and saves it, as the source
    does; names are compared ignoring case. */
module ConfigStore {
  import opened Wrappers
  import opened Text
  import opened Models

  /** The content of servers.json: no file, the JSON literal null, or a
      list of connections. */
  datatype ConfigFile = Missing | Stored(servers: Option<seq<ServerConnection>>)

  /** The list a file holds as Load reads it: no list, or the JSON literal
      null, reads as the empty list. */
  function Servers(file: ConfigFile): seq<ServerConnection>
  {
    match file
    case Stored(Some(list)) => list
    case _ => []
  }

  // ---------------------------------------------------------------------
  // The list edits, as values.

  /** Some entry's name equals name ignoring case. */
  predicate NameTaken(list: seq<ServerConnection>, name: string)
  {
    exists i :: 0 <= i < |list| && SameName(list[i].name, name)
  }

  /** No two entries' names are equal ignoring case. */
  predicate UniqueNames(list: seq<ServerConnection>)
  {
    forall i, j :: 0 <= i < j < |list| ==> !SameName(list[i].name, list[j].name)
  }

  /** List.FindIndex with a case-insensitive name match. */
  function FirstNamed(list: seq<ServerConnection>, name: string): (r: Option<nat>)
    ensures r.Some? ==> r.value < |list| && SameName(list[r.value].name, name)
    ensures r.Some? ==> forall j :: 0 <= j < r.value ==> !SameName(list[j].name, name)
    ensures r.None? <==> !NameTaken(list, name)
  {
    if list == [] then None
    else if SameName(list[0].name, name) then Some(0)
    else
      assert forall j :: 1 <= j < |list| ==> list[j] == list[1..][j - 1];
      match FirstNamed(list[1..], name)
      case None => None
      case Some(i) => Some(i + 1)
  }

  /** AddOrUpdate's new list: the first entry with the same name ignoring
      case replaced in place, or the server appended. */
  function Upserted(list: seq<ServerConnection>, server: ServerConnection): (r: seq<ServerConnection>)
    ensures server in r
    ensures |r| == if FirstNamed(list, server.name).Some? then |list| else |list| + 1
  {
    match FirstNamed(list, server.name)
    case Some(i) => assert list[i := server][i] == server; list[i := server]
    case None => list + [server]
  }

  /** RemoveAll's new list: the entries whose name differs from name
      ignoring case, in their original order. */
  function WithoutName(list: seq<ServerConnection>, name: string): (r: seq<ServerConnection>)
    ensures |r| <= |list|
    ensures forall k :: 0 <= k < |r| ==> r[k] in list && !SameName(r[k].name, name)
  {
    if list == [] then []
    else
      var init := WithoutName(list[..|list| - 1], name);
      var last := list[|list| - 1];
      assert forall x :: x in list[..|list| - 1] ==> x in list;
      if SameName(last.name, name) then init else init + [last]
  }

  /** AddOrUpdate replaces the first match at its index, leaving the length
      and every other position unchanged, or appends when nothing matches. */
  lemma UpsertedShape(list: seq<ServerConnection>, server: ServerConnection)
    ensures NameTaken(list, server.name) ==>
      && |Upserted(list, server)| == |list|
      && FirstNamed(list, server.name).Some?
      && (forall j :: 0 <= j < |list| && j != FirstNamed(list, server.name).value ==>
            Upserted(list, server)[j] == list[j])
      && Upserted(list, server)[FirstNamed(list, server.name).value] == server
    ensures !NameTaken(list, server.name) ==> Upserted(list, server) == list + [server]
  {
    if NameTaken(list, server.name) {
      var i := FirstNamed(list, server.name).value;
      assert Upserted(list, server)[i] == server;
    }
  }

  /** Removing keeps the relative order: it distributes over concatenation. */
  lemma {:induction false} WithoutNameConcat(a: seq<ServerConnection>, b: seq<ServerConnection>, name: string)
    ensures WithoutName(a + b, name) == WithoutName(a, name) + WithoutName(b, name)
  {
    if b == [] {
      assert a + b == a;
    } else {
      var b' := b[..|b| - 1];
      assert (a + b)[..|a + b| - 1] == a + b';
      WithoutNameConcat(a, b', name);
    }
  }

  /** Every entry whose name does not match survives the removal. */
  lemma {:induction false} WithoutNameKeeps(list: seq<ServerConnection>, name: string, j: nat)
    requires j < |list| && !SameName(list[j].name, name)
    ensures list[j] in WithoutName(list, name)
  {
    var n := |list| - 1;
    if j < n {
      assert list[..n][j] == list[j];
      WithoutNameKeeps(list[..n], name, j);
    }
  }

  /** Something is removed exactly when some entry matches; otherwise the
      list is unchanged. */
  lemma {:induction false} WithoutNameRemoves(list: seq<ServerConnection>, name: string)
    ensures NameTaken(list, name) <==> |WithoutName(list, name)| < |list|
    ensures !NameTaken(list, name) ==> WithoutName(list, name) == list
  {
    if list != [] {
      var init, last := list[..|list| - 1], list[|list| - 1];
      WithoutNameRemoves(init, name);
      NameTakenSnoc(init, last, name);
      assert list == init + [last];
    }
  }

  lemma NameTakenSnoc(init: seq<ServerConnection>, last: ServerConnection, name: string)
    ensures NameTaken(init + [last], name) <==> NameTaken(init, name) || SameName(last.name, name)
  {
    var list := init + [last];
    if NameTaken(init, name) {
      var i :| 0 <= i < |init| && SameName(init[i].name, name);
      assert list[i] == init[i];
    }
    if NameTaken(list, name) && !SameName(last.name, name) {
      var i :| 0 <= i < |list| && SameName(list[i].name, name);
      assert init[i] == list[i];
    }
    if SameName(last.name, name) {
      assert list[|init|] == last;
    }
  }

  /** Names that are unique ignoring case stay unique after each edit. */
  lemma UniqueAfterAdd(list: seq<ServerConnection>, server: ServerConnection)
    requires UniqueNames(list) && !NameTaken(list, server.name)
    ensures UniqueNames(list + [server])
  {
    var l := list + [server];
    forall i, j | 0 <= i < j < |l| ensures !SameName(l[i].name, l[j].name) {
      if j == |list| {
        assert l[i] == list[i];
      }
    }
  }

  lemma UniqueAfterUpsert(list: seq<ServerConnection>, server: ServerConnection)
    requires UniqueNames(list)
    ensures UniqueNames(Upserted(list, server))
  {
    match FirstNamed(list, server.name)
    case None => UniqueAfterAdd(list, server);
    case Some(k) =>
      var l := list[k := server];
      forall i, j | 0 <= i < j < |l| ensures !SameName(l[i].name, l[j].name) {
        if i == k {
          assert !SameName(list[k].name, list[j].name);
        } else if j == k {
          assert !SameName(list[i].name, list[k].name);
        }
      }
  }

  lemma {:induction false} UniqueAfterRemove(list: seq<ServerConnection>, name: string)
    requires UniqueNames(list)
    ensures UniqueNames(WithoutName(list, name))
  {
    if list != [] {
      var init := list[..|list| - 1];
      var last := list[|list| - 1];
      UniqueAfterRemove(init, name);
      var w := WithoutName(init, name);
      if !SameName(last.name, name) {
        forall k | 0 <= k < |w| ensures !SameName(w[k].name, last.name) {
          var i :| 0 <= i < |init| && init[i] == w[k];
          assert list[i] == init[i];
        }
        UniqueAfterAdd(w, last);
      }
    }
  }

  // ---------------------------------------------------------------------
  // The loops behind List.Any, List.FindIndex and List.RemoveAll.

  method Any(list: seq<ServerConnection>, name: string) returns (found: bool)
    ensures found <==> NameTaken(list, name)
  {
    for i := 0 to |list|
      invariant !NameTaken(list[..i], name)
    {
      if SameName(list[i].name, name) {
        return true;
      }
      assert forall j :: 0 <= j < i + 1 ==> list[..i + 1][j] == list[j] && (j < i ==> list[..i][j] == list[j]);
    }
    assert list[..|list|] == list;
    return false;
  }

  method FindIndex(list: seq<ServerConnection>, name: string) returns (index: int)
    ensures -1 <= index < |list|
    ensures index == -1 <==> !NameTaken(list, name)
    ensures index >= 0 ==> SameName(list[index].name, name)
    ensures index >= 0 ==> forall j :: 0 <= j < index ==> !SameName(list[j].name, name)
  {
    for i := 0 to |list|
      invariant forall j :: 0 <= j < i ==> !SameName(list[j].name, name)
    {
      if SameName(list[i].name, name) {
        return i;
      }
    }
    return -1;
  }

  method RemoveAll(list: seq<ServerConnection>, name: string) returns (kept: seq<ServerConnection>, count: nat)
    ensures kept == WithoutName(list, name)
    ensures count == |list| - |kept|
    ensures count > 0 <==> NameTaken(list, name)
  {
    kept := [];
    count := 0;
    for i := 0 to |list|
      invariant kept == WithoutName(list[..i], name)
      invariant count == i - |kept|
    {
      assert list[..i + 1][..i] == list[..i];
      if SameName(list[i].name, name) {
        count := count + 1;
      } else {
        kept := kept + [list[i]];
      }
    }
    assert list[..|list|] == list;
    WithoutNameRemoves(list, name);
  }

  // ---------------------------------------------------------------------
  // The store.

  class Store {
    var file: ConfigFile

    /** The file exists (the constructor creates it). */
    predicate Valid()
      reads this
    {
      file.Stored?
    }

    /** A store over a missing file creates it holding the empty list; an
        existing file is kept as it is. */
    constructor (existing: ConfigFile)
      ensures Valid()
      ensures existing.Missing? ==> file == Stored(Some([]))
      ensures existing.Stored? ==> file == existing
    {
      if existing.Missing? {
        file := Stored(Some([]));
      } else {
        file := existing;
      }
    }

    /** The saved list; the JSON literal null reads as the empty list. */
    function Load(): (list: seq<ServerConnection>)
      reads this
      requires Valid()
      ensures file.servers.None? ==> list == []
    {
      Servers(file)
    }

    method Save(list: seq<ServerConnection>)
      modifies this
      ensures file == Stored(Some(list))
    {
      file := Stored(Some(list));
    }

    /** Add: refused, with the file untouched, when the name is already
        taken ignoring case; otherwise the server is appended and saved. */
    method Add(server: ServerConnection) returns (added: bool)
      requires Valid()
      modifies this
      ensures Valid()
      ensures added <==> !NameTaken(old(Load()), server.name)
      ensures added ==> file == Stored(Some(old(Load()) + [server]))
      ensures !added ==> file == old(file)
    {
      var list := Load();
      var taken := Any(list, server.name);
      if taken {
        return false;
      }
      Save(list + [server]);
      return true;
    }

    /** AddOrUpdate: the first entry with the same name is replaced in
        place, or the server is appended; the list is saved either way. */
    method AddOrUpdate(server: ServerConnection)
      requires Valid()
      modifies this
      ensures Valid()
      ensures file == Stored(Some(Upserted(old(Load()), server)))
    {
      var list := Load();
      var existingIndex := FindIndex(list, server.name);
      if existingIndex >= 0 {
        assert FirstNamed(list, server.name) == Some(existingIndex);
        list := list[existingIndex := server];
      } else {
        list := list + [server];
      }
      Save(list);
    }

    /** Remove: every entry with the name is removed; the list is saved,
        and true returned, only when something was removed. */
    method Remove(name: string) returns (removed: bool)
      requires Valid()
      modifies this
      ensures Valid()
      ensures removed <==> NameTaken(old(Load()), name)
      ensures removed ==> file == Stored(Some(WithoutName(old(Load()), name)))
      ensures !removed ==> file == old(file)
    {
      var list := Load();
      var kept, count := RemoveAll(list, name);
      removed := count > 0;
      if removed {
        Save(kept);
      }
    }
  }
}
