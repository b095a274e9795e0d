/** src/MultiServerSqlExecutor.Ui/ServersWindow.xaml.cs: the server editor.
    The text boxes and the authentication combo box are the window's form;
    a combo-box item is known by its Tag string. Message boxes are the
    error values the handlers return. */
module ServersWindow {
  import opened Wrappers
  import opened Text
  import opened Models
  import opened ConfigStore

  /** What the editor's controls hold: the raw text of the five boxes and
      the Tag of the selected authentication item, if any. */
  datatype Form = Form(
    name: string,
    server: string,
    database: string,
    user: string,
    password: string,
    authTag: Option<string>)

  /** AuthType.ToString(). */
  function AuthName(a: AuthType): string
  {
    match a
    case SqlPassword => "SqlPassword"
    case AzurePassword => "AzurePassword"
    case AzureMfa => "AzureMfa"
    case AzureInteractive => "AzureInteractive"
  }

  /** Distinct members print as distinct names, so the Tag of a selected
      item names at most one member. */
  lemma AuthNameInjective(a: AuthType, b: AuthType)
    ensures AuthName(a) == AuthName(b) ==> a == b
  {
  }

  /** Enum.TryParse<AuthType> on a member name, compared case-sensitively:
      it succeeds exactly on the four names, and gives back the member
      that prints as the tag. */
  function ParseAuthType(tag: string): (r: Option<AuthType>)
    ensures r.Some? ==> AuthName(r.value) == tag
    ensures r.None? ==> forall a: AuthType :: AuthName(a) != tag
  {
    if tag == "SqlPassword" then Some(SqlPassword)
    else if tag == "AzurePassword" then Some(AzurePassword)
    else if tag == "AzureMfa" then Some(AzureMfa)
    else if tag == "AzureInteractive" then Some(AzureInteractive)
    else None
  }

  /** The type named by the selected item, if there is one and its Tag
      parses. */
  function SelectedType(form: Form): Option<AuthType>
  {
    match form.authTag
    case None => None
    case Some(tag) => ParseAuthType(tag)
  }

  /** OnSaveServer's authentication (lines 29-33): SqlPassword unless an
      item is selected whose Tag parses. */
  function SelectedAuth(form: Form): (a: AuthType)
    ensures SelectedType(form).None? ==> a == SqlPassword
    ensures SelectedType(form).Some? ==> a == SelectedType(form).value
  {
    match SelectedType(form)
    case None => SqlPassword
    case Some(a) => a
  }

  /** The types that log in with a user name and password (line 53). */
  predicate NeedsPassword(a: AuthType)
  {
    a == SqlPassword || a == AzurePassword
  }

  datatype ValidationError =
    | MissingConnectionFields   // "Please fill in Name, Server, and Database."
    | MissingCredentials        // "Username and Password are required ..."

  /** The entry built from the form (lines 35-43): four fields trimmed, the
      password as typed. */
  function EntryOf(form: Form): ServerConnection
  {
    ServerConnection(Trim(form.name), Trim(form.server), Trim(form.database),
      Trim(form.user), form.password, SelectedAuth(form))
  }

  /** The checks of OnSaveServer (lines 45-64), made on the built entry. */
  function Validate(form: Form): (r: Result<ServerConnection, ValidationError>)
    ensures r.Ok? ==> r.value == EntryOf(form)
  {
    var entry := EntryOf(form);
    if IsBlank(entry.name) || IsBlank(entry.server) || IsBlank(entry.database) then
      Err(MissingConnectionFields)
    else if NeedsPassword(entry.authentication) && (IsBlank(entry.username) || IsBlank(entry.password)) then
      Err(MissingCredentials)
    else
      Ok(entry)
  }

  /** Validation in terms of what was typed: trimming never turns a
      non-blank field blank, so the checks are on the raw text. Name,
      Server and Database are always required; Username and Password only
      for SqlPassword and AzurePassword; for AzureMfa and
      AzureInteractive both may be empty. */
  lemma ValidateMeaning(form: Form)
    ensures Validate(form) == Err(MissingConnectionFields) <==>
      IsBlank(form.name) || IsBlank(form.server) || IsBlank(form.database)
    ensures Validate(form) == Err(MissingCredentials) <==>
      && !IsBlank(form.name) && !IsBlank(form.server) && !IsBlank(form.database)
      && NeedsPassword(SelectedAuth(form))
      && (IsBlank(form.user) || IsBlank(form.password))
    ensures Validate(form).Ok? <==>
      && !IsBlank(form.name) && !IsBlank(form.server) && !IsBlank(form.database)
      && (NeedsPassword(SelectedAuth(form)) ==> !IsBlank(form.user) && !IsBlank(form.password))
  {
    BlankAfterTrim(form.name);
    BlankAfterTrim(form.server);
    BlankAfterTrim(form.database);
    BlankAfterTrim(form.user);
  }

  /** What an accepted entry looks like: name, server and database are
      non-empty with no surrounding whitespace, the user name has none
      either, and a password type carries a user name and a password. */
  lemma AcceptedEntryClean(form: Form)
    requires Validate(form).Ok?
    ensures var e := Validate(form).value;
      && e.name != [] && e.server != [] && e.database != []
      && Trim(e.name) == e.name && Trim(e.server) == e.server
      && Trim(e.database) == e.database && Trim(e.username) == e.username
      && e.password == form.password
      && (NeedsPassword(e.authentication) ==> e.username != [] && !IsBlank(e.password))
  {
    var e := EntryOf(form);
    assert Validate(form).value == e;
    assert !IsBlank(e.name) && !IsBlank(e.server) && !IsBlank(e.database);
    TrimTwice(form.name);
    TrimTwice(form.server);
    TrimTwice(form.database);
    TrimTwice(form.user);
  }

  /** The password never matters when its box is hidden: for AzureMfa
      and AzureInteractive, whatever is typed as the password the
      validation gives the same verdict. */
  lemma HiddenPasswordIgnored(form: Form, other: string)
    requires !NeedsPassword(SelectedAuth(form))
    ensures Validate(form).Ok? == Validate(form.(password := other)).Ok?
  {
    ValidateMeaning(form);
    ValidateMeaning(form.(password := other));
  }

  datatype Visibility = Visible | Collapsed

  /** OnAuthTypeChanged (lines 119-135): the user name is shown for every
      type, the password only for the types that need it. */
  function UserVisibility(a: AuthType): (v: Visibility)
    ensures v == Visible
  {
    match a
    case SqlPassword | AzurePassword => Visible
    case AzureMfa | AzureInteractive => Visible
  }

  function PasswordVisibility(a: AuthType): (v: Visibility)
    ensures v == Visible <==> NeedsPassword(a)
  {
    match a
    case SqlPassword | AzurePassword => Visible
    case AzureMfa | AzureInteractive => Collapsed
  }

  /** The password box is on screen exactly when a blank password is
      refused: for a form whose other fields pass, the password decides
      the verdict iff its box is visible. */
  lemma PasswordShownIffRequired(form: Form)
    requires !IsBlank(form.name) && !IsBlank(form.server) && !IsBlank(form.database)
    requires !IsBlank(form.user) && IsBlank(form.password)
    requires SelectedType(form).Some?
    ensures Validate(form).Err? <==> PasswordVisibility(SelectedType(form).value) == Visible
  {
    ValidateMeaning(form);
  }

  /** The form after ClearFields (lines 81-91): empty boxes and the first
      item of the combo box selected. */
  function Cleared(authTags: seq<string>): (f: Form)
    ensures f.name == f.server == f.database == f.user == f.password == []
    ensures f.authTag.Some? <==> authTags != []
    ensures authTags != [] ==> f.authTag == Some(authTags[0])
  {
    Form("", "", "", "", "", if authTags == [] then None else Some(authTags[0]))
  }

  /** The form after OnSelectionChanged (lines 95-110) picks an entry: its
      five fields copied, and the item whose Tag equals the entry's type
      name selected; with no such item the selection stays. */
  function Selected(form: Form, sc: ServerConnection, authTags: seq<string>): (f: Form)
    ensures f.name == sc.name && f.server == sc.server && f.database == sc.database
    ensures f.user == sc.username && f.password == sc.password
    ensures AuthName(sc.authentication) in authTags ==> SelectedType(f) == Some(sc.authentication)
    ensures AuthName(sc.authentication) !in authTags ==> f.authTag == form.authTag
  {
    var tag := AuthName(sc.authentication);
    Form(sc.name, sc.server, sc.database, sc.username, sc.password,
      if tag in authTags then Some(tag) else form.authTag)
  }

  /** Picking a saved entry and saving it again without editing stores the
      same entry, provided the combo box offers its type. */
  lemma ResaveUnchanged(form: Form, before: Form, authTags: seq<string>)
    requires Validate(form).Ok?
    requires AuthName(Validate(form).value.authentication) in authTags
    ensures Validate(Selected(before, Validate(form).value, authTags)) == Ok(Validate(form).value)
  {
    var e := Validate(form).value;
    AcceptedEntryClean(form);
    var f := Selected(before, e, authTags);
    assert EntryOf(f) == e;
    ValidateMeaning(form);
    ValidateMeaning(f);
  }

  class ServersWindow {
    /** The window's own ConfigStore. */
    const store: Store
    /** The Tag of each combo-box item, in order. */
    const authTags: seq<string>
    var form: Form
    /** The label and box of the user name, and of the password. */
    var userVisibility: Visibility
    var passwordVisibility: Visibility

    predicate Valid()
      reads this, store
    {
      store.Valid()
    }

    /** The window opens with empty boxes, the first item selected and
        every control visible. */
    constructor (store: Store, authTags: seq<string>)
      requires store.Valid()
      ensures Valid()
      ensures this.store == store && this.authTags == authTags
      ensures form == Cleared(authTags)
      ensures userVisibility == Visible && passwordVisibility == Visible
    {
      this.store := store;
      this.authTags := authTags;
      form := Cleared(authTags);
      userVisibility := Visible;
      passwordVisibility := Visible;
    }

    /** OnSaveServer (lines 25-74): a rejected form leaves the store and
        the form as they were; an accepted entry goes to AddOrUpdate once
        and the form is cleared. */
    method OnSaveServer() returns (r: Result<ServerConnection, ValidationError>)
      requires Valid()
      modifies this, store
      ensures Valid()
      ensures r == Validate(old(form))
      ensures r.Ok? ==> store.file == Stored(Some(Upserted(Servers(old(store.file)), r.value)))
      ensures r.Ok? ==> form == Cleared(authTags)
      ensures r.Err? ==> store.file == old(store.file) && form == old(form)
      ensures userVisibility == old(userVisibility) && passwordVisibility == old(passwordVisibility)
    {
      r := Validate(form);
      if r.Ok? {
        store.AddOrUpdate(r.value);
        ClearFields();
      }
    }

    method ClearFields()
      modifies this
      ensures form == Cleared(authTags)
      ensures userVisibility == old(userVisibility) && passwordVisibility == old(passwordVisibility)
    {
      form := Cleared(authTags);
    }

    /** OnSelectionChanged (lines 93-112): nothing happens without a
        selected entry. */
    method OnSelectionChanged(selected: Option<ServerConnection>)
      modifies this
      ensures selected.None? ==> form == old(form)
      ensures selected.Some? ==> form == Selected(old(form), selected.value, authTags)
      ensures userVisibility == old(userVisibility) && passwordVisibility == old(passwordVisibility)
    {
      if selected.Some? {
        var sc := selected.value;
        var tag := form.authTag;
        for i := 0 to |authTags|
          invariant tag == form.authTag || (tag == Some(AuthName(sc.authentication)) && AuthName(sc.authentication) in authTags)
          invariant tag != form.authTag || AuthName(sc.authentication) !in authTags[..i]
        {
          if authTags[i] == AuthName(sc.authentication) {
            tag := Some(authTags[i]);
            break;
          }
        }
        form := Form(sc.name, sc.server, sc.database, sc.username, sc.password, tag);
      }
    }

    /** OnAuthTypeChanged (lines 114-137): a selected Tag that parses sets
        both visibilities; otherwise nothing changes. */
    method OnAuthTypeChanged()
      modifies this
      ensures form == old(form)
      ensures SelectedType(form).None? ==>
        userVisibility == old(userVisibility) && passwordVisibility == old(passwordVisibility)
      ensures SelectedType(form).Some? ==>
        && userVisibility == UserVisibility(SelectedType(form).value)
        && passwordVisibility == PasswordVisibility(SelectedType(form).value)
    {
      if form.authTag.Some? {
        var parsed := ParseAuthType(form.authTag.value);
        if parsed.Some? {
          match parsed.value {
            case SqlPassword | AzurePassword =>
              userVisibility := Visible;
              passwordVisibility := Visible;
            case AzureMfa | AzureInteractive =>
              userVisibility := Visible;
              passwordVisibility := Collapsed;
          }
        }
      }
    }

    /** OnRemoveServer (lines 139-150): once confirmed, every entry with the
        button's name is removed; a declined confirmation changes nothing. */
    method OnRemoveServer(sc: ServerConnection, confirmed: bool)
      requires Valid()
      modifies store
      ensures Valid()
      ensures !confirmed || !NameTaken(old(store.Load()), sc.name) ==> store.file == old(store.file)
      ensures confirmed && NameTaken(old(store.Load()), sc.name) ==>
        store.file == Stored(Some(WithoutName(old(store.Load()), sc.name)))
    {
      if confirmed {
        var removed := store.Remove(sc.name);
      }
    }
  }
}
