/** `LocalAuthService`: the user list kept in `users.txt`, one
    `username,passwordHash` line per user, and the name of the user who is
    logged in. The password hash (SHA-256, Base64) is a parameter, and so is
    the line separator (`Environment.NewLine`). */
module LocalAuth {
  import opened Wrappers
  import opened Strings

  datatype User = User(username: string, passwordHash: string)

  /** The service's state: `_users` and `_currentUsername` (`None` for null). */
  datatype AuthState = AuthState(users: seq<User>, current: Option<string>)

  /** The user list of a freshly constructed service (read from the file,
      `None` when there is none) and nobody logged in. */
  function NewService(file: Option<string>, nl: string): (s: AuthState)
    requires |nl| > 0
    ensures s.current.None?
    ensures file.None? ==> s.users == []
  {
    AuthState(LoadUsers(file, nl), None)
  }

  predicate NameTaken(users: seq<User>, username: string)
  {
    exists i :: 0 <= i < |users| && EqualsIgnoreCase(users[i].username, username)
  }

  /** `RegisterAsync`: fails with "User already exists." when a user of the
      same name (ignoring case) exists, else appends the user with the hash of
      the password; the file is then rewritten from the list (`UsersFile`). */
  function Register(s: AuthState, username: string, password: string,
                    hash: string -> string): (r: Result<AuthState, string>)
    ensures r.Failure? <==> NameTaken(s.users, username)
    ensures r.Failure? ==> r.error == "User already exists."
    ensures r.Success? ==> r.value.users == s.users + [User(username, hash(password))]
    ensures r.Success? ==> r.value.current == s.current
  {
    if NameTaken(s.users, username) then Failure("User already exists.")
    else Success(s.(users := s.users + [User(username, hash(password))]))
  }

  /** The text `RegisterAsync` writes to `users.txt` after adding the user. */
  function UsersFile(s: AuthState, nl: string): string
  {
    Serialize(s.users, nl)
  }

  /** The line `{Username},{PasswordHash}` of one user. */
  function Line(u: User): string
  {
    u.username + "," + u.passwordHash
  }

  /** `SerializeUsers`: each user's line followed by the line separator. */
  function Serialize(users: seq<User>, nl: string): string
  {
    if |users| == 0 then "" else Line(users[0]) + nl + Serialize(users[1..], nl)
  }

  /** `StringSplitOptions.RemoveEmptyEntries`: the non-empty pieces, in order. */
  function RemoveEmpty(pieces: seq<string>): (r: seq<string>)
    ensures forall i :: 0 <= i < |r| ==> |r[i]| > 0
    ensures forall p :: p in r <==> p in pieces && |p| > 0
    ensures |r| <= |pieces|
    ensures (forall i :: 0 <= i < |pieces| ==> |pieces[i]| > 0) ==> r == pieces
  {
    if |pieces| == 0 then []
    else
      var rest := RemoveEmpty(pieces[1..]);
      assert pieces == [pieces[0]] + pieces[1..];
      if |pieces[0]| == 0 then rest else [pieces[0]] + rest
  }

  /** The users of the lines that split into exactly two parts at `,`; other lines are skipped. */
  function ParseLines(lines: seq<string>): seq<User>
  {
    if |lines| == 0 then []
    else
      var parts := Split(lines[0], ",");
      (if |parts| == 2 then [User(parts[0], parts[1])] else []) + ParseLines(lines[1..])
  }

  /** `DeserializeUsers` */
  function Deserialize(data: string, nl: string): seq<User>
    requires |nl| > 0
  {
    ParseLines(RemoveEmpty(Split(data, nl)))
  }

  /** `LoadUsers`: no file means no users. */
  function LoadUsers(file: Option<string>, nl: string): seq<User>
    requires |nl| > 0
  {
    match file
    case None => []
    case Some(data) => Deserialize(data, nl)
  }

  /** `SetCurrentUser` */
  function SetCurrentUser(s: AuthState, username: Option<string>): (r: AuthState)
    ensures r.users == s.users && r.current == username
  {
    s.(current := username)
  }

  /** `Logout` */
  function Logout(s: AuthState): (r: AuthState)
    ensures r.users == s.users && r.current.None?
  {
    s.(current := None)
  }

  /** `GetCurrentUsername` */
  function GetCurrentUsername(s: AuthState): Option<string>
  {
    s.current
  }

  predicate Matches(u: User, username: string, password: string, hash: string -> string)
  {
    EqualsIgnoreCase(u.username, username) && u.passwordHash == hash(password)
  }

  /** `LoginAsync`: succeeds when some user has the name (ignoring case) and
      the hash of the password, and then records the name as typed. */
  function Login(s: AuthState, username: string, password: string,
                 hash: string -> string): (r: (AuthState, bool))
    ensures r.1 <==> exists i :: 0 <= i < |s.users| && Matches(s.users[i], username, password, hash)
    ensures r.0.users == s.users
    ensures r.1 ==> r.0.current == Some(username)
    ensures !r.1 ==> r.0 == s
  {
    if exists i :: 0 <= i < |s.users| && Matches(s.users[i], username, password, hash)
    then (s.(current := Some(username)), true)
    else (s, false)
  }

  /** What `GetCurrentUsername` reports through a session: nobody after a
      start or a logout, the name as typed after a successful login, and the
      previous answer after a failed one. */
  lemma CurrentUsernameThroughSession(s: AuthState, file: Option<string>, nl: string,
                                      username: string, password: string, hash: string -> string)
    requires |nl| > 0
    ensures GetCurrentUsername(NewService(file, nl)).None?
    ensures GetCurrentUsername(Logout(s)).None?
    ensures var (t, ok) := Login(s, username, password, hash);
            GetCurrentUsername(t) == if ok then Some(username) else GetCurrentUsername(s)
  {
  }

  /** Case-insensitive comparison is reflexive. */
  lemma EqualsIgnoreCaseReflexive(a: string)
    ensures EqualsIgnoreCase(a, a)
  {
  }

  /** After a registration the new user can log in with the same password. */
  lemma RegisterThenLogin(s: AuthState, username: string, password: string,
                          hash: string -> string)
    requires Register(s, username, password, hash).Success?
    ensures var t := Register(s, username, password, hash).value;
            Login(t, username, password, hash) == (t.(current := Some(username)), true)
  {
    var t := Register(s, username, password, hash).value;
    EqualsIgnoreCaseReflexive(username);
    assert Matches(t.users[|s.users|], username, password, hash);
  }

  /** Nobody logs in under a name no user has, whatever the password. */
  lemma LoginNeedsRegisteredName(s: AuthState, username: string, password: string,
                                 hash: string -> string)
    requires !NameTaken(s.users, username)
    ensures Login(s, username, password, hash) == (s, false)
  {
  }

  /** No two users share a name, ignoring case. */
  predicate UniqueNames(users: seq<User>)
  {
    forall i, j :: 0 <= i < j < |users| ==> !EqualsIgnoreCase(users[i].username, users[j].username)
  }

  /** Registration keeps the names unique. */
  lemma RegisterKeepsNamesUnique(s: AuthState, username: string, password: string,
                                 hash: string -> string)
    requires UniqueNames(s.users)
    ensures var r := Register(s, username, password, hash);
            r.Success? ==> UniqueNames(r.value.users)
  {
  }

  /** A user whose fields hold neither a comma nor the first character of the line separator. */
  predicate Storable(u: User, nl: string)
    requires |nl| > 0
  {
    && (forall i :: 0 <= i < |u.username| ==> u.username[i] != ',' && u.username[i] != nl[0])
    && (forall i :: 0 <= i < |u.passwordHash| ==> u.passwordHash[i] != ',' && u.passwordHash[i] != nl[0])
  }

  lemma LineOfStorable(u: User, nl: string)
    requires |nl| > 0 && nl[0] != ',' && Storable(u, nl)
    ensures Split(Line(u), ",") == [u.username, u.passwordHash]
    ensures |Line(u)| > 0
    ensures forall i :: 0 <= i < |Line(u)| ==> Line(u)[i] != nl[0]
  {
    SplitAfterHead(u.username, ",", u.passwordHash);
    SplitWithoutSeparator(u.passwordHash, ",");
    var l := Line(u);
    forall i | 0 <= i < |l|
      ensures l[i] != nl[0]
    {
      if i < |u.username| {
        assert l[i] == u.username[i];
      } else if i > |u.username| {
        assert l[i] == u.passwordHash[i - |u.username| - 1];
      }
    }
  }

  /** Reading the file back gives the users that were written, as long as no
      field holds a comma or the line separator's first character (a line
      separator never starts with a comma). */
  lemma {:induction false} DeserializeSerialize(users: seq<User>, nl: string)
    requires |nl| > 0 && nl[0] != ','
    requires forall i :: 0 <= i < |users| ==> Storable(users[i], nl)
    ensures Deserialize(Serialize(users, nl), nl) == users
  {
    if |users| == 0 {
      assert Split("", nl) == [""];
      assert [""][1..] == [];
      assert RemoveEmpty([""]) == [];
    } else {
      var u := users[0];
      var rest := users[1..];
      LineOfStorable(u, nl);
      SplitAfterHead(Line(u), nl, Serialize(rest, nl));
      DeserializeSerialize(rest, nl);
      assert Serialize(users, nl) == Line(u) + nl + Serialize(rest, nl);
      var pieces := Split(Serialize(users, nl), nl);
      assert pieces == [Line(u)] + Split(Serialize(rest, nl), nl);
      assert pieces[1..] == Split(Serialize(rest, nl), nl);
      assert RemoveEmpty(pieces) == [Line(u)] + RemoveEmpty(Split(Serialize(rest, nl), nl));
    }
  }

  /** What registration writes is what the next start of the service reads. */
  lemma RegisterPersists(s: AuthState, username: string, password: string,
                         hash: string -> string, nl: string)
    requires |nl| > 0 && nl[0] != ','
    requires forall i :: 0 <= i < |s.users| ==> Storable(s.users[i], nl)
    requires Storable(User(username, hash(password)), nl)
    requires Register(s, username, password, hash).Success?
    ensures var r := Register(s, username, password, hash).value;
            NewService(Some(UsersFile(r, nl)), nl) == AuthState(r.users, None)
  {
    var users := Register(s, username, password, hash).value.users;
    assert forall i :: 0 <= i < |users| ==> Storable(users[i], nl);
    DeserializeSerialize(users, nl);
  }

  /** Every user read from a file has a name and a hash without commas. */
  lemma {:induction false} ParsedUsersHaveNoComma(lines: seq<string>, k: int)
    requires 0 <= k < |ParseLines(lines)|
    ensures ',' !in ParseLines(lines)[k].username && ',' !in ParseLines(lines)[k].passwordHash
  {
    var parts := Split(lines[0], ",");
    var head := if |parts| == 2 then [User(parts[0], parts[1])] else [];
    if k < |head| {
      SplitPiecesHaveNoSeparator(lines[0], ',');
      assert parts[0] in parts && parts[1] in parts;
    } else {
      ParsedUsersHaveNoComma(lines[1..], k - |head|);
    }
  }

  /** Splitting at a one-character separator leaves that character in no piece. */
  lemma {:induction false} SplitPiecesHaveNoSeparator(s: string, c: char)
    ensures forall p :: p in Split(s, [c]) ==> c !in p
    decreases |s|
  {
    match IndexOf(s, [c], 0)
    case None =>
      forall k | 0 <= k < |s|
        ensures s[k] != c
      {
        assert !OccursAt(s, [c], k);
      }
    case Some(i) =>
      forall k | 0 <= k < i
        ensures s[k] != c
      {
        assert !OccursAt(s, [c], k);
      }
      SplitPiecesHaveNoSeparator(s[i + 1..], c);
  }
}
