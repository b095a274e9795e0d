/** src/MultiServerSqlExecutor.Cli/Program.cs: the command-line front end.

    The outside world is a parameter: which files exist, what each server
    returns for the query, the platform's invalid file-name characters and
    directory separator, the configuration file's content and a Disk for
    the CSV output. Console output is not modelled. */
module Cli {
  import opened Wrappers
  import opened Text
  import opened Models
  import opened DataTables
  import opened Reconciliation
  import opened CsvExporter
  import opened ConfigStore
  import opened SqlExecutor

  // ---------------------------------------------------------------------
  // ParseArgs (lines 163-183).

  /** An argument that starts with "--" names a key. */
  predicate IsOption(a: string)
  {
    StartsWith(a, "--")
  }

  /** The dictionary key an option stores under: its text after "--".
      The dictionary compares keys ignoring case, so a key is held by its
      upper-case form. */
  function KeyOf(a: string): string
    requires IsOption(a)
  {
    Upper(a[2..])
  }

  /** The value the option at position j stores: the next argument when
      there is one and it is not an option itself, otherwise "true". */
  function ValueAt(args: seq<string>, j: nat): string
    requires j < |args|
  {
    if j + 1 < |args| && !IsOption(args[j + 1]) then args[j + 1] else "true"
  }

  /** The dictionary that the first n arguments produce: every option, in
      order, stores its value under its key (a later option overwriting an
      earlier one with the same key); other arguments store nothing. */
  function Parsed(args: seq<string>, n: nat): map<string, string>
    requires n <= |args|
  {
    if n == 0 then map[]
    else if IsOption(args[n - 1]) then Parsed(args, n - 1)[KeyOf(args[n - 1]) := ValueAt(args, n - 1)]
    else Parsed(args, n - 1)
  }

  /** Dictionary.TryGetValue under StringComparer.OrdinalIgnoreCase. */
  function TryGet(dict: map<string, string>, key: string): Option<string>
  {
    if Upper(key) in dict then Some(dict[Upper(key)]) else None
  }

  /** The index-skipping loop: an option that takes the next argument as
      its value moves past it, so that argument is never scanned. */
  method ParseArgs(args: seq<string>) returns (dict: map<string, string>)
    ensures dict == Parsed(args, |args|)
  {
    dict := map[];
    var i := 0;
    while i < |args|
      invariant 0 <= i <= |args|
      invariant dict == Parsed(args, i)
    {
      var a := args[i];
      if IsOption(a) {
        var key := a[2..];
        if i + 1 < |args| && !IsOption(args[i + 1]) {
          i := i + 1;
          dict := dict[Upper(key) := args[i]];
        } else {
          dict := dict[Upper(key) := "true"];
        }
      }
      i := i + 1;
    }
  }

  /** Every key of the result comes from an option argument with its
      leading "--" removed, and every option argument contributes its key. */
  lemma {:induction false} ParsedKeys(args: seq<string>, n: nat, key: string)
    requires n <= |args|
    ensures key in Parsed(args, n) <==> exists j :: 0 <= j < n && IsOption(args[j]) && KeyOf(args[j]) == key
  {
    if n > 0 {
      ParsedKeys(args, n - 1, key);
      if IsOption(args[n - 1]) && KeyOf(args[n - 1]) == key {
      } else if key in Parsed(args, n) {
        var j :| 0 <= j < n - 1 && IsOption(args[j]) && KeyOf(args[j]) == key;
      }
    }
  }

  /** A repeated key keeps the value of its last occurrence. */
  lemma {:induction false} ParsedLast(args: seq<string>, n: nat, j: nat)
    requires j < n <= |args| && IsOption(args[j])
    requires forall k :: j < k < n && IsOption(args[k]) ==> KeyOf(args[k]) != KeyOf(args[j])
    ensures KeyOf(args[j]) in Parsed(args, n)
    ensures Parsed(args, n)[KeyOf(args[j])] == ValueAt(args, j)
  {
    if j < n - 1 {
      ParsedLast(args, n - 1, j);
    }
  }

  /** TryGetValue on the parsed arguments, with the key in any casing,
      finds a value exactly when some option names the key ignoring case;
      the value is the one stored by the last such option. */
  lemma ParsedLookup(args: seq<string>, key: string, j: nat)
    requires j < |args| && IsOption(args[j]) && SameName(args[j][2..], key)
    requires forall k :: j < k < |args| && IsOption(args[k]) ==> !SameName(args[k][2..], key)
    ensures TryGet(Parsed(args, |args|), key) == Some(ValueAt(args, j))
  {
    ParsedLast(args, |args|, j);
  }

  lemma ParsedMissing(args: seq<string>, key: string)
    ensures TryGet(Parsed(args, |args|), key).None? <==>
      forall j :: 0 <= j < |args| && IsOption(args[j]) ==> !SameName(args[j][2..], key)
  {
    ParsedKeys(args, |args|, Upper(key));
  }

  /** An argument that is not an option and does not follow one is
      ignored: replacing it by any other such argument changes nothing. */
  lemma {:induction false} ParsedIgnores(args: seq<string>, i: nat, x: string, n: nat)
    requires i < |args| && n <= |args|
    requires !IsOption(args[i]) && !IsOption(x) && (i == 0 || !IsOption(args[i - 1]))
    ensures Parsed(args[i := x], n) == Parsed(args, n)
  {
    if n > 0 {
      ParsedIgnores(args, i, x, n - 1);
      var b := args[i := x];
      if n - 1 != i && IsOption(args[n - 1]) {
        assert ValueAt(b, n - 1) == ValueAt(args, n - 1);
      }
    }
  }

  // ---------------------------------------------------------------------
  // The command switch of Main (lines 34-54).

  datatype Command = AddServerCmd | RemoveServerCmd | ListServersCmd | ExecuteQueryCmd | HelpCmd | UnknownCmd

  /** The command word, compared after ToLowerInvariant. */
  function ParseCommand(word: string): (c: Command)
    ensures c == UnknownCmd <==>
      Lower(word) !in ["add-server", "remove-server", "list-servers", "execute-query", "help", "-h", "--help"]
  {
    var w := Lower(word);
    if w == "add-server" then AddServerCmd
    else if w == "remove-server" then RemoveServerCmd
    else if w == "list-servers" then ListServersCmd
    else if w == "execute-query" then ExecuteQueryCmd
    else if w == "help" || w == "-h" || w == "--help" then HelpCmd
    else UnknownCmd
  }

  /** The command word is matched ignoring case. */
  lemma ParseCommandIgnoresCase(a: string, b: string)
    requires SameName(a, b)
    ensures ParseCommand(a) == ParseCommand(b)
  {
    SameNameLower(a, b);
  }

  /** The help words in any casing select help. */
  lemma HelpWords(word: string)
    requires SameName(word, "help") || SameName(word, "-h") || SameName(word, "--help")
    ensures ParseCommand(word) == HelpCmd
  {
    if SameName(word, "help") {
      ParseCommandIgnoresCase(word, "help");
      assert Lower("help") == "help";
    } else if SameName(word, "-h") {
      ParseCommandIgnoresCase(word, "-h");
      assert Lower("-h") == "-h";
    } else {
      ParseCommandIgnoresCase(word, "--help");
      assert Lower("--help") == "--help";
    }
  }

  // ---------------------------------------------------------------------
  // add-server, remove-server, list-servers (lines 57-117).

  const AddServerKeys: seq<string> := ["name", "server", "database", "username", "password"]

  /** Some of keys has no value. */
  predicate MissingAny(dict: map<string, string>, keys: seq<string>)
  {
    exists i :: 0 <= i < |keys| && TryGet(dict, keys[i]).None?
  }

  /** The entry add-server registers: the five values as given, and the
      default authentication. */
  function EntryFrom(dict: map<string, string>): (c: ServerConnection)
    requires !MissingAny(dict, AddServerKeys)
    ensures c.authentication == DefaultConnection().authentication
  {
    assert TryGet(dict, AddServerKeys[0]).Some? && TryGet(dict, AddServerKeys[1]).Some?
      && TryGet(dict, AddServerKeys[2]).Some? && TryGet(dict, AddServerKeys[3]).Some?
      && TryGet(dict, AddServerKeys[4]).Some?;
    ServerConnection(TryGet(dict, "name").value, TryGet(dict, "server").value, TryGet(dict, "database").value,
                     TryGet(dict, "username").value, TryGet(dict, "password").value, SqlPassword)
  }

  /** add-server, from the file before the command to the file after it:
      2 (file untouched) when a required key is missing, 3 (file untouched)
      exactly when the name is already taken ignoring case, otherwise 0
      with the entry appended. */
  predicate AddServerOutcome(args: seq<string>, before: ConfigFile, code: int, after: ConfigFile)
  {
    var dict := Parsed(args, |args|);
    && (MissingAny(dict, AddServerKeys) ==> code == 2 && after == before)
    && (!MissingAny(dict, AddServerKeys) ==>
          var entry := EntryFrom(dict);
          && (code == 3 <==> NameTaken(Servers(before), entry.name))
          && (code == 3 || code == 0)
          && (code == 3 ==> after == before)
          && (code == 0 ==> after == Stored(Some(Servers(before) + [entry]))))
  }

  /** add-server (lines 57-88). */
  method AddServer(args: seq<string>, store: Store) returns (code: int)
    requires store.Valid()
    modifies store
    ensures store.Valid()
    ensures AddServerOutcome(args, old(store.file), code, store.file)
  {
    var dict := ParseArgs(args);
    var name := TryGet(dict, "name");
    var server := TryGet(dict, "server");
    var database := TryGet(dict, "database");
    var username := TryGet(dict, "username");
    var password := TryGet(dict, "password");
    if name.None? || server.None? || database.None? || username.None? || password.None? {
      assert MissingAny(dict, AddServerKeys) by {
        if name.None? {
          assert TryGet(dict, AddServerKeys[0]).None?;
        } else if server.None? {
          assert TryGet(dict, AddServerKeys[1]).None?;
        } else if database.None? {
          assert TryGet(dict, AddServerKeys[2]).None?;
        } else if username.None? {
          assert TryGet(dict, AddServerKeys[3]).None?;
        } else {
          assert TryGet(dict, AddServerKeys[4]).None?;
        }
      }
      return 2;
    }
    assert !MissingAny(dict, AddServerKeys);
    var entry := ServerConnection(name.value, server.value, database.value, username.value, password.value,
                                  DefaultConnection().authentication);
    var added := store.Add(entry);
    code := if added then 0 else 3;
  }

  /** remove-server, from the file before the command to the file after
      it: 2 (file untouched) without a name; otherwise 0, with every entry
      of that name removed when there is one, and the file untouched when
      there is none. */
  predicate RemoveServerOutcome(args: seq<string>, before: ConfigFile, code: int, after: ConfigFile)
  {
    var name := TryGet(Parsed(args, |args|), "name");
    && (name.None? ==> code == 2 && after == before)
    && (name.Some? ==>
          && code == 0
          && (NameTaken(Servers(before), name.value) ==>
                after == Stored(Some(WithoutName(Servers(before), name.value))))
          && (!NameTaken(Servers(before), name.value) ==> after == before))
  }

  /** remove-server (lines 90-102). */
  method RemoveServer(args: seq<string>, store: Store) returns (code: int)
    requires store.Valid()
    modifies store
    ensures store.Valid()
    ensures RemoveServerOutcome(args, old(store.file), code, store.file)
  {
    var dict := ParseArgs(args);
    var name := TryGet(dict, "name");
    if name.None? {
      return 2;
    }
    var removed := store.Remove(name.value);
    return 0;
  }

  // ---------------------------------------------------------------------
  // execute-query (lines 119-161).

  /** What the world looks like to one run: the files that exist, each
      server's result table for the query, and the platform's invalid
      file-name characters and directory separator. */
  datatype Environment = Environment(
    existing: set<string>,
    run: Runner,
    invalid: seq<char>,
    sep: char)

  /** Both required paths are given. */
  predicate HasPaths(dict: map<string, string>)
  {
    TryGet(dict, "queryfile").Some? && TryGet(dict, "outputfile").Some?
  }

  /** The files after the per-server export of lines 147-151, when
      perserverdir is given. */
  function PerServerExport(files: map<string, seq<Record>>, results: seq<ServerResult>, dir: Option<string>,
                           env: Environment): map<string, seq<Record>>
    requires AllWellFormed(results)
  {
    match dir
    case None => files
    case Some(d) => PerServerFiles(files, results, d, env.invalid, env.sep)
  }

  /** The directories after the per-server export. */
  function PerServerDirectories(dirs: set<string>, dir: Option<string>): set<string>
  {
    match dir
    case None => dirs
    case Some(d) => dirs + {d}
  }

  /** execute-query, from the disk before the command to the disk after
      it, given the configured servers: 2 when queryfile or outputfile is
      missing, 4 when the query file does not exist, 5 when no server is
      configured, 6 when the execution or the combination throws, 0 when
      both succeed. The disk is untouched up to a successful execution.
      After it the per-server files are written when perserverdir is given
      (also when the combination then throws), and on 0 the output file
      holds the combined table. */
  predicate QueryOutcome(args: seq<string>, servers: seq<ServerConnection>, env: Environment, code: int,
                         before: map<string, seq<Record>>, beforeDirs: set<string>,
                         files: map<string, seq<Record>>, dirs: set<string>)
    requires RunsWellFormed(env.run)
  {
    var dict := Parsed(args, |args|);
    var ready := HasPaths(dict) && TryGet(dict, "queryfile").value in env.existing && servers != [];
    && (code == 0 || code == 2 || code == 4 || code == 5 || code == 6)
    && (code == 2 <==> !HasPaths(dict))
    && (code == 4 <==> HasPaths(dict) && TryGet(dict, "queryfile").value !in env.existing)
    && (code == 5 <==> HasPaths(dict) && TryGet(dict, "queryfile").value in env.existing && servers == [])
    && (code == 0 <==>
          ready && ExecuteOnAll(servers, env.run).Some? && Combined(ExecuteOnAll(servers, env.run).value).Ok?)
    && (!ready || ExecuteOnAll(servers, env.run).None? ==> files == before && dirs == beforeDirs)
    && (ready && ExecuteOnAll(servers, env.run).Some? ==>
          var results := ExecuteOnAll(servers, env.run).value;
          var dir := TryGet(dict, "perserverdir");
          && dirs == PerServerDirectories(beforeDirs, dir)
          && (code == 6 ==> files == PerServerExport(before, results, dir, env))
          && (code == 0 ==>
                var table := Combined(results).value;
                CombinedWellFormed(results);
                && WellFormed(table) && table.columns[0] == ServerColumn
                && files == PerServerExport(before, results, dir, env)[TryGet(dict, "outputfile").value := CsvOf(table)]))
  }

  /** execute-query (lines 119-161). */
  method ExecuteQuery(args: seq<string>, store: Store, env: Environment, disk: Disk) returns (code: int)
    requires store.Valid() && RunsWellFormed(env.run)
    modifies disk
    ensures QueryOutcome(args, store.Load(), env, code, old(disk.files), old(disk.directories),
                         disk.files, disk.directories)
  {
    var dict := ParseArgs(args);
    var queryFile := TryGet(dict, "queryfile");
    var outputFile := TryGet(dict, "outputfile");
    if queryFile.None? || outputFile.None? {
      return 2;
    }
    if queryFile.value !in env.existing {
      return 4;
    }
    var servers := store.Load();
    if |servers| == 0 {
      return 5;
    }
    var results := ExecuteOnAll(servers, env.run);
    if results.None? {
      return 6;
    }
    var perServerDir := TryGet(dict, "perserverdir");
    if perServerDir.Some? {
      ExportPerServer(results.value, perServerDir.value, env.invalid, env.sep, disk);
    }
    var combined := ExportCombined(results.value, outputFile.value, disk);
    if combined.Err? {
      return 6;
    }
    CombinedWellFormed(results.value);
    return 0;
  }

  // ---------------------------------------------------------------------
  // Main (lines 8-55).

  /** The configuration file once the store is opened: a missing file is
      created holding the empty list. */
  function Opened(config: ConfigFile): (r: ConfigFile)
    ensures r.Stored? && Servers(r) == Servers(config)
    ensures config.Stored? ==> r == config
  {
    if config.Missing? then Stored(Some([])) else config
  }

  /** The whole run: with no arguments the UI is launched or help printed
      (exit 0) and the configuration is left alone; otherwise the store is
      opened (creating an empty list when the file is missing) and the
      command dispatched. Returns the exit code and the configuration file
      afterwards. */
  method Run(args: seq<string>, config: ConfigFile, env: Environment, disk: Disk)
    returns (code: int, after: ConfigFile)
    requires RunsWellFormed(env.run)
    modifies disk
    ensures args == [] ==>
      code == 0 && after == config && disk.files == old(disk.files) && disk.directories == old(disk.directories)
    ensures args != [] ==> after.Stored?
    ensures args != [] && config.Missing? ==> after.servers.Some?
    ensures args != [] && ParseCommand(args[0]) == HelpCmd ==> code == 0
    ensures args != [] && ParseCommand(args[0]) == ListServersCmd ==> code == 0
    ensures args != [] && ParseCommand(args[0]) == UnknownCmd ==> code == 1
    ensures args != [] && ParseCommand(args[0]) !in {AddServerCmd, RemoveServerCmd} ==> after == Opened(config)
    ensures args != [] && ParseCommand(args[0]) != ExecuteQueryCmd ==>
      disk.files == old(disk.files) && disk.directories == old(disk.directories)
    ensures args != [] && ParseCommand(args[0]) == AddServerCmd ==>
      AddServerOutcome(args[1..], Opened(config), code, after)
    ensures args != [] && ParseCommand(args[0]) == RemoveServerCmd ==>
      RemoveServerOutcome(args[1..], Opened(config), code, after)
    ensures args != [] && ParseCommand(args[0]) == ExecuteQueryCmd ==>
      QueryOutcome(args[1..], Servers(Opened(config)), env, code, old(disk.files), old(disk.directories),
                   disk.files, disk.directories)
  {
    if |args| == 0 {
      return 0, config;
    }
    var store := new Store(config);
    var rest := args[1..];
    match ParseCommand(args[0]) {
      case AddServerCmd =>
        code := AddServer(rest, store);
      case RemoveServerCmd =>
        code := RemoveServer(rest, store);
      case ListServersCmd =>
        code := 0;
      case ExecuteQueryCmd =>
        code := ExecuteQuery(rest, store, env, disk);
      case HelpCmd =>
        code := 0;
      case UnknownCmd =>
        code := 1;
    }
    after := store.file;
  }
}
