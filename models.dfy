/** The server entry of src/MultiServerSqlExecutor.Core/Models/ServerConnection.cs
    and the connection string it builds. */
module Models {
  import opened Text

  /** The authentication modes offered by the server editor. */
  datatype AuthType = SqlPassword | AzurePassword | AzureMfa | AzureInteractive

  /** One configured target. The Authentication field is the one the server
      editor sets; an entry created without it is assumed to get
      SqlPassword, taken here to be the enum's default. */
  datatype ServerConnection = ServerConnection(
    name: string,
    server: string,
    database: string,
    username: string,
    password: string,
    authentication: AuthType)

  /** A freshly constructed entry. */
  function DefaultConnection(): (c: ServerConnection)
    ensures c.name == c.server == c.database == c.username == c.password == []
    ensures c.authentication == SqlPassword
  {
    ServerConnection("", "", "", "", "", SqlPassword)
  }

  /** The connection string: one fixed template (written here pair by pair)
      into which Server, Database, Username and Password are substituted as
      they are, with no escaping. */
  function BuildConnectionString(c: ServerConnection): (s: string)
    ensures |s| == 175 + |c.server| + |c.database| + |c.username| + |c.password|
  {
    ("Server=tcp:" + c.server + ",1433") + ";" + ("Initial Catalog=" + c.database) + ";"
    + "Persist Security Info=False" + ";" + ("User ID=" + c.username) + ";"
    + ("Password=" + c.password) + ";" + "MultipleActiveResultSets=False" + ";"
    + "Encrypt=True" + ";" + "TrustServerCertificate=True" + ";" + "Connection Timeout=30" + ";"
  }

  /** The keys of the template, in order. */
  const ConnectionKeys: seq<string> := ["Server", "Initial Catalog", "Persist Security Info",
    "User ID", "Password", "MultipleActiveResultSets", "Encrypt", "TrustServerCertificate",
    "Connection Timeout"]

  /** The value the template gives each key: four come from the entry, the
      host is always reached over TCP on port 1433, and the flags are
      constants (encryption on, the server certificate trusted, no MARS,
      a 30-second connect timeout). */
  function ConnectionValues(c: ServerConnection): (vs: seq<string>)
    ensures |vs| == |ConnectionKeys|
  {
    ["tcp:" + c.server + ",1433", c.database, "False", c.username, c.password,
     "False", "True", "True", "30"]
  }

  /** The text of a connection-string pair up to its first '=' is the key
      and the rest is the value. */
  function ParsePair(p: string): (kv: (string, string))
    ensures '=' !in kv.0
    ensures '=' in p ==> p == kv.0 + "=" + kv.1
    ensures '=' !in p ==> kv == (p, "")
  {
    if p == [] then ("", "")
    else if p[0] == '=' then ("", p[1..])
    else
      var kv := ParsePair(p[1..]);
      assert p == [p[0]] + p[1..];
      ([p[0]] + kv.0, kv.1)
  }

  predicate FreeOfSemicolons(c: ServerConnection)
  {
    ';' !in c.server && ';' !in c.database && ';' !in c.username && ';' !in c.password
  }

  lemma FreeOfBoth(a: string, b: string, ch: char)
    requires ch !in a && ch !in b
    ensures ch !in a + b
  {
  }

  /** The template's literal text holds no ';'. */
  lemma HostLiteralsFree()
    ensures ';' !in "Server=tcp:" && ';' !in ",1433"
  {
  }

  lemma FieldLiteralsFree()
    ensures ';' !in "Initial Catalog=" && ';' !in "User ID=" && ';' !in "Password="
  {
  }

  lemma FlagLiteralsFree1()
    ensures ';' !in "Persist Security Info=False" && ';' !in "MultipleActiveResultSets=False"
  {
  }

  lemma FlagLiteralsFree2()
    ensures ';' !in "Encrypt=True" && ';' !in "TrustServerCertificate=True"
    ensures ';' !in "Connection Timeout=30"
  {
  }

  /** The constant pairs are single pieces. */
  lemma FlagPiecesWhole()
    ensures Split("Persist Security Info=False", ';') == ["Persist Security Info=False"]
    ensures Split("MultipleActiveResultSets=False", ';') == ["MultipleActiveResultSets=False"]
    ensures Split("Encrypt=True", ';') == ["Encrypt=True"]
    ensures Split("TrustServerCertificate=True", ';') == ["TrustServerCertificate=True"]
    ensures Split("Connection Timeout=30", ';') == ["Connection Timeout=30"]
  {
    FlagLiteralsFree1();
    FlagLiteralsFree2();
    SplitWhole("Persist Security Info=False", ';');
    SplitWhole("MultipleActiveResultSets=False", ';');
    SplitWhole("Encrypt=True", ';');
    SplitWhole("TrustServerCertificate=True", ';');
    SplitWhole("Connection Timeout=30", ';');
  }

  /** Five ';'-free pieces joined by ';' split back into the pieces. */
  lemma {:induction false} SplitFivePieces(p0: string, p1: string, p2: string, p3: string, p4: string)
    requires ';' !in p0 && ';' !in p1 && ';' !in p2 && ';' !in p3 && ';' !in p4
    ensures Split(p0 + ";" + p1 + ";" + p2 + ";" + p3 + ";" + p4, ';') == [p0, p1, p2, p3, p4]
  {
    SplitWhole(p0, ';'); SplitWhole(p1, ';'); SplitWhole(p2, ';'); SplitWhole(p3, ';');
    SplitWhole(p4, ';');
    var x1 := p0 + ";" + p1; SplitAt(p0, ';', p1);
    var x2 := x1 + ";" + p2; SplitAt(x1, ';', p2);
    var x3 := x2 + ";" + p3; SplitAt(x2, ';', p3);
    SplitAt(x3, ';', p4);
  }

  /** Nine ';'-free pieces, each followed by ';', split back into the pieces
      and a final empty piece. */
  lemma {:induction false} SplitNinePieces(p0: string, p1: string, p2: string, p3: string,
      p4: string, p5: string, p6: string, p7: string, p8: string)
    requires ';' !in p0 && ';' !in p1 && ';' !in p2 && ';' !in p3 && ';' !in p4
    requires ';' !in p5 && ';' !in p6 && ';' !in p7 && ';' !in p8
    ensures Split(p0 + ";" + p1 + ";" + p2 + ";" + p3 + ";" + p4 + ";" + p5 + ";" + p6 + ";"
      + p7 + ";" + p8 + ";", ';') == [p0, p1, p2, p3, p4, p5, p6, p7, p8, ""]
  {
    var x4 := p0 + ";" + p1 + ";" + p2 + ";" + p3 + ";" + p4;
    SplitFivePieces(p0, p1, p2, p3, p4);
    SplitWhole(p5, ';'); SplitWhole(p6, ';'); SplitWhole(p7, ';'); SplitWhole(p8, ';');
    var x5 := x4 + ";" + p5; SplitAt(x4, ';', p5);
    assert Split(x5, ';') == [p0, p1, p2, p3, p4, p5];
    var x6 := x5 + ";" + p6; SplitAt(x5, ';', p6);
    assert Split(x6, ';') == [p0, p1, p2, p3, p4, p5, p6];
    var x7 := x6 + ";" + p7; SplitAt(x6, ';', p7);
    assert Split(x7, ';') == [p0, p1, p2, p3, p4, p5, p6, p7];
    var x8 := x7 + ";" + p8; SplitAt(x7, ';', p8);
    assert Split(x8, ';') == [p0, p1, p2, p3, p4, p5, p6, p7, p8];
    SplitAt(x8, ';', "");
    assert x8 + [';'] + "" == x8 + ";";
  }

  /** When no substituted field contains ';', splitting the connection string
      on ';' gives the template's nine key=value pairs in order, then the
      empty piece after the final ';'. */
  lemma ConnectionStringPairs(c: ServerConnection)
    requires FreeOfSemicolons(c)
    ensures Split(BuildConnectionString(c), ';') ==
      ["Server=tcp:" + c.server + ",1433", "Initial Catalog=" + c.database,
       "Persist Security Info=False", "User ID=" + c.username, "Password=" + c.password,
       "MultipleActiveResultSets=False", "Encrypt=True", "TrustServerCertificate=True",
       "Connection Timeout=30", ""]
  {
    HostLiteralsFree();
    FieldLiteralsFree();
    FlagLiteralsFree1();
    FlagLiteralsFree2();
    FreeOfBoth("Server=tcp:", c.server, ';');
    FreeOfBoth("Server=tcp:" + c.server, ",1433", ';');
    FreeOfBoth("Initial Catalog=", c.database, ';');
    FreeOfBoth("User ID=", c.username, ';');
    FreeOfBoth("Password=", c.password, ';');
    SplitNinePieces("Server=tcp:" + c.server + ",1433", "Initial Catalog=" + c.database,
      "Persist Security Info=False", "User ID=" + c.username, "Password=" + c.password,
      "MultipleActiveResultSets=False", "Encrypt=True", "TrustServerCertificate=True",
      "Connection Timeout=30");
  }

  lemma {:induction false} ParseKeyValue(k: string, v: string)
    requires '=' !in k
    ensures ParsePair(k + "=" + v) == (k, v)
    decreases |k|
  {
    if k == [] {
      assert k + "=" + v == ['='] + v;
      assert (['='] + v)[1..] == v;
    } else {
      assert (k + "=" + v)[1..] == k[1..] + "=" + v;
      ParseKeyValue(k[1..], v);
      assert (k + "=" + v)[0] == k[0];
      assert k == [k[0]] + k[1..];
    }
  }

  lemma TemplateKeys1(c: ServerConnection)
    ensures "Server=tcp:" + c.server + ",1433" == "Server" + "=" + ("tcp:" + c.server + ",1433")
    ensures "Initial Catalog=" + c.database == "Initial Catalog" + "=" + c.database
    ensures "Persist Security Info=False" == "Persist Security Info" + "=" + "False"
  {
  }

  lemma TemplateKeys2(c: ServerConnection)
    ensures "User ID=" + c.username == "User ID" + "=" + c.username
    ensures "Password=" + c.password == "Password" + "=" + c.password
    ensures "MultipleActiveResultSets=False" == "MultipleActiveResultSets" + "=" + "False"
  {
  }

  lemma TemplateKeys3()
    ensures "Encrypt=True" == "Encrypt" + "=" + "True"
    ensures "TrustServerCertificate=True" == "TrustServerCertificate" + "=" + "True"
    ensures "Connection Timeout=30" == "Connection Timeout" + "=" + "30"
  {
  }

  /** Round trip: when no substituted field contains ';', the connection
      string splits on ';' into the nine pairs plus a final empty piece, and
      each pair splits at its first '=' into the template's key and value;
      the Server, Initial Catalog, User ID and Password values are the
      entry's own fields, unchanged. */
  lemma ConnectionStringRoundTrip(c: ServerConnection)
    requires FreeOfSemicolons(c)
    ensures |Split(BuildConnectionString(c), ';')| == |ConnectionKeys| + 1
    ensures Split(BuildConnectionString(c), ';')[|ConnectionKeys|] == ""
    ensures forall i :: 0 <= i < |ConnectionKeys| ==>
      ParsePair(Split(BuildConnectionString(c), ';')[i]) == (ConnectionKeys[i], ConnectionValues(c)[i])
  {
    ConnectionStringPairs(c);
    var parts := Split(BuildConnectionString(c), ';');
    TemplateKeys1(c);
    TemplateKeys2(c);
    TemplateKeys3();
    KeysFreeOfEquals();
    forall i | 0 <= i < |ConnectionKeys|
      ensures ParsePair(parts[i]) == (ConnectionKeys[i], ConnectionValues(c)[i])
    {
      ParseKeyValue(ConnectionKeys[i], ConnectionValues(c)[i]);
    }
  }

  /** No template key contains '='. */
  lemma KeysFreeOfEquals()
    ensures forall i :: 0 <= i < |ConnectionKeys| ==> '=' !in ConnectionKeys[i]
  {
    forall i | 0 <= i < |ConnectionKeys|
      ensures '=' !in ConnectionKeys[i]
    {
    }
  }

  lemma {:induction false} SplitNineCount(p0: string, p1: string, p2: string, p3: string,
      p4: string, p5: string, p6: string, p7: string, p8: string)
    ensures |Split(p0 + ";" + p1 + ";" + p2 + ";" + p3 + ";" + p4 + ";" + p5 + ";" + p6 + ";"
      + p7 + ";" + p8 + ";", ';')| == |Split(p0, ';')| + |Split(p1, ';')| + |Split(p2, ';')|
      + |Split(p3, ';')| + |Split(p4, ';')| + |Split(p5, ';')| + |Split(p6, ';')|
      + |Split(p7, ';')| + |Split(p8, ';')| + 1
  {
    var x1 := p0 + ";" + p1; SplitAt(p0, ';', p1);
    var x2 := x1 + ";" + p2; SplitAt(x1, ';', p2);
    var x3 := x2 + ";" + p3; SplitAt(x2, ';', p3);
    var x4 := x3 + ";" + p4; SplitAt(x3, ';', p4);
    var x5 := x4 + ";" + p5; SplitAt(x4, ';', p5);
    var x6 := x5 + ";" + p6; SplitAt(x5, ';', p6);
    var x7 := x6 + ";" + p7; SplitAt(x6, ';', p7);
    var x8 := x7 + ";" + p8; SplitAt(x7, ';', p8);
    SplitAt(x8, ';', "");
    assert x8 + ";" + "" == x8 + ";";
  }

  /** A literal prefix free of ';' adds no piece. */
  lemma PrefixedCount(prefix: string, field: string)
    requires ';' !in prefix
    ensures |Split(prefix + field, ';')| == multiset(field)[';'] + 1
  {
    SplitConcatCount(prefix, field, ';');
    SplitWhole(prefix, ';');
    SplitCount(field, ';');
  }

  /** The pieces holding a field have one more piece than the field has
      ';' characters. */
  lemma FieldPieceCounts(c: ServerConnection)
    ensures |Split("Server=tcp:" + c.server + ",1433", ';')| == multiset(c.server)[';'] + 1
    ensures |Split("Initial Catalog=" + c.database, ';')| == multiset(c.database)[';'] + 1
    ensures |Split("User ID=" + c.username, ';')| == multiset(c.username)[';'] + 1
    ensures |Split("Password=" + c.password, ';')| == multiset(c.password)[';'] + 1
  {
    HostLiteralsFree();
    FieldLiteralsFree();
    PrefixedCount("Server=tcp:", c.server);
    SplitConcatCount("Server=tcp:" + c.server, ",1433", ';');
    SplitWhole(",1433", ';');
    PrefixedCount("Initial Catalog=", c.database);
    PrefixedCount("User ID=", c.username);
    PrefixedCount("Password=", c.password);
  }

  /** With no escaping, every ';' inside a field adds one more piece, so the
      nine pairs come back only when the fields are free of ';'. */
  lemma {:induction false} ConnectionStringPieceCount(c: ServerConnection)
    ensures |Split(BuildConnectionString(c), ';')| == |ConnectionKeys| + 1
      + multiset(c.server)[';'] + multiset(c.database)[';']
      + multiset(c.username)[';'] + multiset(c.password)[';']
    ensures !FreeOfSemicolons(c) ==> |Split(BuildConnectionString(c), ';')| > |ConnectionKeys| + 1
  {
    SplitNineCount("Server=tcp:" + c.server + ",1433", "Initial Catalog=" + c.database,
      "Persist Security Info=False", "User ID=" + c.username, "Password=" + c.password,
      "MultipleActiveResultSets=False", "Encrypt=True", "TrustServerCertificate=True",
      "Connection Timeout=30");
    FieldPieceCounts(c);
    FlagPiecesWhole();
    if ';' in c.server { assert multiset(c.server)[';'] > 0; }
    if ';' in c.database { assert multiset(c.database)[';'] > 0; }
    if ';' in c.username { assert multiset(c.username)[';'] > 0; }
    if ';' in c.password { assert multiset(c.password)[';'] > 0; }
  }
}
