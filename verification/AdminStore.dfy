/**
 * The management users: a map changed under one lock and persisted under another, its export and its
 * reload at the next start.
 */
module AdminStore {
  import opened Prelude
  import opened Text
  import opened Config
  import opened Credentials

  const ITERATIONS: nat := 4096
  const MIN_PASSWORD: nat := 8

  datatype Role = Administrator | Viewer

  datatype User = User(
    username: string, role: Role, description: string, verifier: Verifier, mustChange: bool)

  type Users = map<string, User>

  /** Hash, text encoding of passwords, base64. */
  datatype Crypto = Crypto(sha: Hash, utf8: string -> Octets, base64: Base64)

  function RoleName(r: Role): string {
    match r
    case Administrator => "administrator"
    case Viewer => "viewer"
  }

  function RoleOf(name: string): Role {
    if name == "administrator" then Administrator else Viewer
  }

  predicate NameOctet(c: char) {
    'a' <= c <= 'z' || 'A' <= c <= 'Z' || '0' <= c <= '9' || c in "_-.@"
  }

  predicate ValidUsername(name: string) {
    0 < |name| <= 64 && forall i :: 0 <= i < |name| ==> NameOctet(name[i])
  }

  // ---------------------------------------------------------------------
  // The five mutations.
  // ---------------------------------------------------------------------

  datatype Op =
    | Create(username: string, password: string, role: Role, description: string, salt: Octets)
    | Delete(username: string)
    | SetRole(username: string, role: Role)
    | SetDescription(username: string, description: string)
    | ChangePassword(username: string, password: string, salt: Octets)

  datatype Failure =
    | AlreadyExists | NotFound | WeakPassword | SameAsOld | LastAdministrator | InvalidUsername | NotPersisted

  function Administrators(users: Users): set<string> {
    set name | name in users && users[name].role == Administrator
  }

  function NewVerifier(password: string, salt: Octets, k: Crypto): Verifier {
    var (storedKey, serverKey) := DeriveKeys(k.utf8(password), salt, ITERATIONS, k.sha);
    Verifier(salt, ITERATIONS, storedKey, serverKey)
  }

  predicate PasswordMatches(v: Verifier, password: string, k: Crypto) {
    DeriveKeys(k.utf8(password), v.salt, v.iterations, k.sha).0 == v.storedKey
  }

  /** The part of a call that runs under the users lock. */
  function Mutate(users: Users, op: Op, k: Crypto): Result<Users, Failure> {
    match op
    case Create(name, password, role, description, salt) =>
      if !ValidUsername(name) then Err(InvalidUsername)
      else if |password| < MIN_PASSWORD then Err(WeakPassword)
      else if name in users then Err(AlreadyExists)
      else Ok(users[name := User(name, role, description, NewVerifier(password, salt, k), false)])
    case Delete(name) =>
      if name !in users then Err(NotFound)
      else if users[name].role == Administrator && |Administrators(users)| == 1 then Err(LastAdministrator)
      else Ok(users - {name})
    case SetRole(name, role) =>
      if name !in users then Err(NotFound)
      else if users[name].role == Administrator && role == Viewer && |Administrators(users)| == 1 then
        Err(LastAdministrator)
      else Ok(users[name := users[name].(role := role)])
    case SetDescription(name, description) =>
      if name !in users then Err(NotFound)
      else Ok(users[name := users[name].(description := description)])
    case ChangePassword(name, password, salt) =>
      if |password| < MIN_PASSWORD then Err(WeakPassword)
      else if name !in users then Err(NotFound)
      else if PasswordMatches(users[name].verifier, password, k) then Err(SameAsOld)
      else Ok(users[name := users[name].(verifier := NewVerifier(password, salt, k), mustChange := false)])
  }

  /** `n` consecutive ASCII characters. */
  function Run(first: char, n: nat): string
    requires first as int + n <= 0x80
  {
    seq(n, i requires 0 <= i < n => (first as int + i) as char)
  }

  const NAME_CHARACTERS: string := Run('a', 26) + Run('A', 26) + Run('0', 10) + "_-.@"

  lemma InRun(c: char, first: char, n: nat)
    requires first as int + n <= 0x80
    ensures c in Run(first, n) <==> first as int <= c as int < first as int + n
  {
    if first as int <= c as int < first as int + n { assert Run(first, n)[c as int - first as int] == c; }
  }

  lemma ValidUsernameExactly(name: string)
    ensures ValidUsername(name) <==>
            1 <= |name| <= 64 && forall i :: 0 <= i < |name| ==> name[i] in NAME_CHARACTERS
  {
    hide Run;
    forall c: char ensures NameOctet(c) <==> c in NAME_CHARACTERS {
      InRun(c, 'a', 26);
      InRun(c, 'A', 26);
      InRun(c, '0', 10);
    }
  }

  /** Nobody else is an administrator. */
  ghost predicate OnlyAdministrator(users: Users, name: string) {
    && name in users && users[name].role == Administrator
    && forall other :: other in users && other != name ==> users[other].role == Viewer
  }

  lemma OnlyOne(users: Users, name: string)
    requires name in users && users[name].role == Administrator
    ensures |Administrators(users)| == 1 <==> OnlyAdministrator(users, name)
  {
    var admins := Administrators(users);
    assert name in admins && |admins - {name}| == |admins| - 1;
    if OnlyAdministrator(users, name) {
      assert admins == {name};
    } else {
      var other :| other in users && other != name && users[other].role != Viewer;
      assert other in admins - {name};
    }
  }

  /** The call asks for a password, and it has fewer than eight characters. */
  predicate TooShort(op: Op) {
    (op.Create? || op.ChangePassword?) && |op.password| < 8
  }

  /** When each refusal is given; a bad name is told before a short password, and that before the rest. */
  lemma RefusedExactly(users: Users, op: Op, k: Crypto)
    ensures var r := Mutate(users, op, k);
            var named := op.Create? ==> ValidUsername(op.username);
            && (r == Err(InvalidUsername) <==> !named)
            && (r == Err(WeakPassword) <==> named && TooShort(op))
            && (r == Err(AlreadyExists) <==> op.Create? && named && !TooShort(op) && op.username in users)
            && (r == Err(NotFound) <==> !op.Create? && !TooShort(op) && op.username !in users)
            && (r == Err(LastAdministrator) <==>
                 (op.Delete? || op == SetRole(op.username, Viewer)) && OnlyAdministrator(users, op.username))
            && (r == Err(SameAsOld) <==>
                 && op.ChangePassword? && !TooShort(op) && op.username in users
                 && PasswordMatches(users[op.username].verifier, op.password, k))
            && r != Err(NotPersisted)
  {
    hide ValidUsername, PasswordMatches, NewVerifier;
    if op.username in users && users[op.username].role == Administrator { OnlyOne(users, op.username); }
  }

  /** The honest proof of the password for a message is answered with the server's signature of it. */
  predicate Answered(v: Verifier, password: string, message: Octets, k: Crypto) {
    var honest := HonestProof(k.utf8(password), v.salt, v.iterations, message, k.sha);
    Verify(v.storedKey, v.serverKey, message, honest, k.sha) == Some(Hmac(v.serverKey, message, k.sha))
  }

  /** The password opens the account, by itself and by its proofs. */
  ghost predicate Opens(v: Verifier, password: string, k: Crypto) {
    PasswordMatches(v, password, k) && forall message :: Answered(v, password, message, k)
  }

  lemma NewVerifierOpens(password: string, salt: Octets, k: Crypto)
    ensures var v := NewVerifier(password, salt, k); v.salt == salt && v.iterations == 4096 && Opens(v, password, k)
  {
    hide DeriveKeys, HonestProof, Verify, Hmac;
    forall message ensures Answered(NewVerifier(password, salt, k), password, message, k) {
      NewVerifierAnswers(password, salt, message, k);
    }
  }

  lemma NewVerifierAnswers(password: string, salt: Octets, message: Octets, k: Crypto)
    ensures Answered(NewVerifier(password, salt, k), password, message, k)
  {
    hide DeriveKeys, HonestProof, Verify, Hmac, NoCollision;
    ScramExactly(k.utf8(password), salt, ITERATIONS, message, [], k.sha);
  }

  /** What an applied call changes: the named account, in what was asked, and nothing else. */
  lemma AppliedExactly(users: Users, op: Op, k: Crypto)
    requires Mutate(users, op, k).Ok?
    ensures var after, name := Mutate(users, op, k).value, op.username;
            && (forall other :: other != name ==> (other in after <==> other in users))
            && (forall other :: other != name && other in users ==> after[other] == users[other])
            && (name in after <==> !op.Delete?)
            && (op.SetRole? ==> after[name] == users[name].(role := op.role))
            && (op.SetDescription? ==> after[name] == users[name].(description := op.description))
            && (op.ChangePassword? ==>
                 && after[name].(verifier := users[name].verifier, mustChange := users[name].mustChange) == users[name]
                 && !after[name].mustChange && after[name].verifier.salt == op.salt
                 && after[name].verifier.iterations == 4096 && Opens(after[name].verifier, op.password, k))
            && (op.Create? ==>
                 && after[name].username == name && after[name].role == op.role
                 && after[name].description == op.description && !after[name].mustChange
                 && after[name].verifier.salt == op.salt
                 && after[name].verifier.iterations == 4096 && Opens(after[name].verifier, op.password, k))
  {
    hide ValidUsername, PasswordMatches, NewVerifier, Opens;
    if op.Create? || op.ChangePassword? { NewVerifierOpens(op.password, op.salt, k); }
  }

  /** Fresh salts have sixteen octets. */
  predicate FreshSalt(op: Op) {
    match op
    case Create(_, _, _, _, salt) => |salt| == 16
    case ChangePassword(_, _, salt) => |salt| == 16
    case _ => true
  }

  /** Keyed by username, with names and verifiers that the registry and the text form accept. */
  ghost predicate WellFormed(users: Users) {
    forall name :: name in users ==>
      users[name].username == name && !Blank(name) && Storable(users[name].verifier)
  }

  ghost predicate HasAdministrator(users: Users) {
    exists name :: name in users && users[name].role == Administrator
  }

  lemma ValidUsernameNotBlank(name: string)
    requires ValidUsername(name)
    ensures !Blank(name)
  {
    assert NameOctet(name[0]) && NameOctet(name[|name| - 1]);
    TrimFixed(name);
  }

  lemma MutateWellFormed(users: Users, op: Op, k: Crypto)
    requires WellFormed(users) && FreshSalt(op) && Mutate(users, op, k).Ok?
    ensures WellFormed(Mutate(users, op, k).value)
  {
    hide DeriveKeys, Blank;
    if op.Create? { ValidUsernameNotBlank(op.username); }
  }

  /** No single call can take away the last administrator. */
  lemma MutateKeepsAdministrator(users: Users, op: Op, k: Crypto)
    requires WellFormed(users) && HasAdministrator(users) && Mutate(users, op, k).Ok?
    ensures HasAdministrator(Mutate(users, op, k).value)
  {
    hide DeriveKeys, Blank;
    var after := Mutate(users, op, k).value;
    var admin :| admin in users && users[admin].role == Administrator;
    if !(admin in after && after[admin].role == Administrator) {
      var admins := Administrators(users);
      assert admin in admins && admin == op.username;
      assert |admins - {admin}| == |admins| - 1;
      assert admins - {admin} != {};
      var other :| other in admins - {admin};
      assert other in after && after[other].role == Administrator;
    } else {
      assert admin in after && after[admin].role == Administrator;
    }
  }

  // ---------------------------------------------------------------------
  // Export.
  // ---------------------------------------------------------------------

  lemma {:induction false} SortedKeysExist(names: set<string>) returns (sorted: seq<string>)
    ensures StrictlySorted(sorted) && forall s :: s in sorted <==> s in names
  {
    if names == {} {
      sorted := [];
    } else {
      var name :| name in names;
      var rest := SortedKeysExist(names - {name});
      sorted := InsertName(name, rest);
      InsertNameSorted(name, rest);
      forall s ensures s in sorted <==> s in names { InsertNameElements(name, rest, s); }
    }
  }

  lemma SortedKeysExistence(names: set<string>)
    ensures exists sorted :: StrictlySorted(sorted) && forall s :: s in sorted <==> s in names
  {
    var sorted := SortedKeysExist(names);
  }

  ghost function SortedKeys(names: set<string>): (sorted: seq<string>)
    ensures StrictlySorted(sorted) && forall s :: s in sorted <==> s in names
  {
    SortedKeysExistence(names);
    var sorted :| StrictlySorted(sorted) && forall s :: s in sorted <==> s in names;
    sorted
  }

  function ExportUser(u: User, b: Base64): AdminEntry {
    AdminEntry(u.username, EncodeVerifier(u.verifier, b), RoleName(u.role), u.description, u.mustChange)
  }

  function ExportNames(users: Users, names: seq<string>, b: Base64): (root: seq<AdminEntry>)
    requires forall i :: 0 <= i < |names| ==> names[i] in users
    ensures |root| == |names|
    ensures forall i :: 0 <= i < |names| ==> root[i] == ExportUser(users[names[i]], b)
  {
    seq(|names|, i requires 0 <= i < |names| => ExportUser(users[names[i]], b))
  }

  /** The root written to the registry: every user, sorted by name. */
  ghost function Export(users: Users, b: Base64): seq<AdminEntry> {
    var names := SortedKeys(users.Keys);
    assert forall i :: 0 <= i < |names| ==> names[i] in names;
    ExportNames(users, names, b)
  }

  /** Collecting the values in whatever order the map yields them and sorting gives that root. */
  method ExportConf(users: Users, b: Base64) returns (root: seq<AdminEntry>)
    ensures root == Export(users, b)
  {
    var names: seq<string> := [];
    var left := users.Keys;
    while left != {}
      invariant left <= users.Keys
      invariant forall s :: s in names <==> s in users.Keys && s !in left
      invariant NoRepeats(names)
      decreases left
    {
      var name :| name in left;
      assert forall s :: s in names + [name] <==> s in names || s == name;
      names := names + [name];
      left := left - {name};
    }
    SortNamesFacts(names);
    names := SortNames(names);
    StrictlySortedUnique(names, SortedKeys(users.Keys));
    assert forall i :: 0 <= i < |names| ==> names[i] in names;
    root := ExportNames(users, names, b);
  }

  /** `AdminUsersConf::validate`. */
  predicate RootOk(root: seq<AdminEntry>) {
    && (forall i :: 0 <= i < |root| ==>
         && !Blank(root[i].username) && root[i].passwordHash != ""
         && (root[i].role == "administrator" || root[i].role == "viewer"))
    && (forall i, j :: 0 <= i < j < |root| ==> root[i].username != root[j].username)
  }

  /** The registry never refuses an export. */
  lemma ExportIsValid(users: Users, b: Base64)
    requires WellFormed(users)
    ensures RootOk(Export(users, b))
  {
    hide Blank;
    var names := SortedKeys(users.Keys);
    var root := Export(users, b);
    forall i | 0 <= i < |root|
      ensures !Blank(root[i].username) && root[i].passwordHash != ""
      ensures root[i].role == "administrator" || root[i].role == "viewer"
      ensures root[i].username == names[i]
    {
      assert names[i] in names;
      assert |EncodeVerifier(users[names[i]].verifier, b)| >= |PREFIX|;
    }
    forall i, j | 0 <= i < j < |root| ensures root[i].username != root[j].username {
      BelowTotal(names[i], names[j]);
    }
  }

  // ---------------------------------------------------------------------
  // Reload at the next start.
  // ---------------------------------------------------------------------

  /** Unusable material for an account whose verifier does not decode. */
  type Locked = string -> Verifier

  function ImportUser(e: AdminEntry, b: Base64, locked: Locked): User {
    var v := if DecodeVerifier(e.passwordHash, b).Some? then DecodeVerifier(e.passwordHash, b).value
             else locked(e.username);
    User(e.username, RoleOf(e.role), e.description, v, e.mustChange)
  }

  function FromEntries(root: seq<AdminEntry>, b: Base64, locked: Locked): Users {
    if root == [] then map[]
    else
      var last := root[|root| - 1];
      FromEntries(root[..|root| - 1], b, locked)[last.username := ImportUser(last, b, locked)]
  }

  /** The store built from a root; an empty root yields the default administrator. */
  function FromSnapshot(root: seq<AdminEntry>, b: Base64, locked: Locked, defaultAdmin: User): Users {
    if root == [] then map["admin" := defaultAdmin] else FromEntries(root, b, locked)
  }

  lemma {:induction false} EntriesLoaded(root: seq<AdminEntry>, b: Base64, locked: Locked, i: nat)
    requires i < |root| && forall j, k :: 0 <= j < k < |root| ==> root[j].username != root[k].username
    ensures root[i].username in FromEntries(root, b, locked)
    ensures FromEntries(root, b, locked)[root[i].username] == ImportUser(root[i], b, locked)
  {
    hide ImportUser;
    if i < |root| - 1 {
      var init := root[..|root| - 1];
      EntriesLoaded(init, b, locked, i);
      assert init[i] == root[i] && root[i].username != root[|root| - 1].username;
    }
  }

  lemma {:induction false} OnlyEntriesLoaded(root: seq<AdminEntry>, b: Base64, locked: Locked, name: string)
    requires name in FromEntries(root, b, locked)
    ensures exists i :: 0 <= i < |root| && root[i].username == name
  {
    hide ImportUser;
    if root != [] && name != root[|root| - 1].username {
      OnlyEntriesLoaded(root[..|root| - 1], b, locked, name);
      var i :| 0 <= i < |root| - 1 && root[..|root| - 1][i].username == name;
      assert root[i].username == name;
    }
  }

  /**
   * The store a valid root loads: the default administrator for an empty one, otherwise exactly one account per
   * entry, with its role, description and flag, and its verifier, or unusable material where that does not decode.
   */
  lemma LoadedExactly(root: seq<AdminEntry>, b: Base64, locked: Locked, defaultAdmin: User)
    requires RootOk(root)
    ensures var users := FromSnapshot(root, b, locked, defaultAdmin);
            && (root == [] ==> users == map["admin" := defaultAdmin])
            && (root != [] ==>
                 forall name :: name in users <==> exists i :: 0 <= i < |root| && root[i].username == name)
            && (forall i :: 0 <= i < |root| ==>
                 && root[i].username in users
                 && var u, v := users[root[i].username], DecodeVerifier(root[i].passwordHash, b);
                    && u.username == root[i].username && u.description == root[i].description
                    && u.mustChange == root[i].mustChange
                    && (u.role == Administrator <==> root[i].role == "administrator")
                    && u.verifier == if v.Some? then v.value else locked(root[i].username))
  {
    hide DecodeVerifier, Blank;
    forall i | 0 <= i < |root| {
      EntriesLoaded(root, b, locked, i);
    }
    forall name | name in FromEntries(root, b, locked) { OnlyEntriesLoaded(root, b, locked, name); }
  }

  method LoadSnapshot(root: seq<AdminEntry>, b: Base64, locked: Locked, defaultAdmin: User) returns (users: Users)
    ensures users == FromSnapshot(root, b, locked, defaultAdmin)
  {
    if root == [] {
      return map["admin" := defaultAdmin];
    }
    users := map[];
    for i := 0 to |root|
      invariant users == FromEntries(root[..i], b, locked)
    {
      assert root[..i + 1][..i] == root[..i];
      users := users[root[i].username := ImportUser(root[i], b, locked)];
    }
    assert root[..|root|] == root;
  }

  lemma ExportedUserImports(u: User, b: Base64, locked: Locked)
    requires RoundTrips(b) && Storable(u.verifier)
    ensures ImportUser(ExportUser(u, b), b, locked) == u
  {
    hide EncodeVerifier, DecodeVerifier;
    VerifierRoundTrip(u.verifier, b);
  }

  lemma {:induction false} NamesImport(users: Users, names: seq<string>, b: Base64, locked: Locked)
    requires RoundTrips(b) && WellFormed(users)
    requires forall i :: 0 <= i < |names| ==> names[i] in users
    ensures FromEntries(ExportNames(users, names, b), b, locked) == map name | name in names :: users[name]
  {
    hide ImportUser, ExportUser, Blank;
    if names != [] {
      var init, last := names[..|names| - 1], names[|names| - 1];
      var root := ExportNames(users, names, b);
      NamesImport(users, init, b, locked);
      assert names == init + [last];
      assert root[..|root| - 1] == ExportNames(users, init, b);
      ExportedUserImports(users[last], b, locked);
      ExportedName(users[last], b);
    }
  }

  lemma ExportedName(u: User, b: Base64)
    ensures ExportUser(u, b).username == u.username
  {
  }

  lemma SortedNotEmpty(users: Users)
    requires users != map[]
    ensures SortedKeys(users.Keys) != []
  {
    assert users.Keys != {};
    var name :| name in users.Keys;
    assert name in SortedKeys(users.Keys);
  }

  lemma WholeMap(users: Users, names: seq<string>)
    requires forall s :: s in names <==> s in users.Keys
    ensures (map name | name in names :: users[name]) == users
  {
  }

  /**
   * A store that is not empty, rebuilt from its own export, is the same store: every login, every SCRAM
   * exchange and every listing is answered as before the restart.
   */
  lemma RestartRestores(users: Users, b: Base64, locked: Locked, defaultAdmin: User)
    requires RoundTrips(b) && WellFormed(users) && users != map[]
    ensures FromSnapshot(Export(users, b), b, locked, defaultAdmin) == users
  {
    hide FromEntries, ExportNames, Blank, Storable;
    var names := SortedKeys(users.Keys);
    assert forall i :: 0 <= i < |names| ==> names[i] in names;
    NamesImport(users, names, b, locked);
    SortedNotEmpty(users);
    WholeMap(users, names);
  }

  // ---------------------------------------------------------------------
  // Concurrent calls.
  // ---------------------------------------------------------------------

  type Pid = nat

  /** A call: before its mutation, waiting for the save lock, holding it, with its export taken, committed, over. */
  datatype Pc =
    | Called(op: Op)
    | Mutated
    | Holding
    | Exported(root: seq<AdminEntry>)
    | Committed
    | Returned

  /**
   * The store, the registry's root and the file, the save lock and the calls in flight. `synced` records
   * that root and store have been made to agree: they did at the start, or some call has mutated since.
   */
  datatype State = State(
    users: Users,
    root: seq<AdminEntry>,
    file: seq<AdminEntry>,
    lock: Option<Pid>,
    calls: map<Pid, Pc>,
    synced: bool,
    saveFailed: bool)

  datatype Action =
    | Begin(pid: Pid, op: Op)
    | DoMutate(pid: Pid)
    | Acquire(pid: Pid)
    | TakeExport(pid: Pid)
    | Commit(pid: Pid, historySaved: bool)
    | Save(pid: Pid, written: bool)

  predicate Enabled(s: State, a: Action) {
    match a
    case Begin(pid, op) => pid !in s.calls && FreshSalt(op)
    case DoMutate(pid) => pid in s.calls && s.calls[pid].Called?
    case Acquire(pid) => pid in s.calls && s.calls[pid].Mutated? && s.lock.None?
    case TakeExport(pid) => pid in s.calls && s.calls[pid].Holding?
    case Commit(pid, _) => pid in s.calls && s.calls[pid].Exported?
    case Save(pid, _) => pid in s.calls && s.calls[pid].Committed?
  }

  ghost function Next(s: State, a: Action, k: Crypto): State
    requires Enabled(s, a)
  {
    match a
    case Begin(pid, op) => s.(calls := s.calls[pid := Called(op)])
    case DoMutate(pid) =>
      (match Mutate(s.users, s.calls[pid].op, k)
       case Ok(users) => s.(users := users, calls := s.calls[pid := Mutated], synced := true)
       case Err(_) => s.(calls := s.calls[pid := Returned]))
    case Acquire(pid) => s.(lock := Some(pid), calls := s.calls[pid := Holding])
    case TakeExport(pid) => s.(calls := s.calls[pid := Exported(Export(s.users, k.base64))])
    case Commit(pid, historySaved) =>
      var root := s.calls[pid].root;
      if !RootOk(root) then s.(lock := None, calls := s.calls[pid := Returned])
      else if historySaved then s.(root := root, calls := s.calls[pid := Committed])
      else s.(root := root, lock := None, calls := s.calls[pid := Returned], saveFailed := true)
    case Save(pid, written) =>
      var done := s.(lock := None, calls := s.calls[pid := Returned]);
      if written then done.(file := s.root, saveFailed := false) else done.(saveFailed := true)
  }

  predicate UnderLock(pc: Pc) {
    pc.Holding? || pc.Exported? || pc.Committed?
  }

  ghost predicate LockDiscipline(s: State) {
    && (forall pid :: pid in s.calls && UnderLock(s.calls[pid]) ==> s.lock == Some(pid))
    && (s.lock.Some? ==> s.lock.value in s.calls && UnderLock(s.calls[s.lock.value]))
  }

  /** Some call has mutated the store and has not exported it yet. */
  ghost predicate Unexported(s: State) {
    exists pid :: pid in s.calls && (s.calls[pid].Mutated? || s.calls[pid].Holding?)
  }

  /** The root a commit is about to install, or the one installed. */
  ghost function NewestRoot(s: State): seq<AdminEntry> {
    if s.lock.Some? && s.lock.value in s.calls && s.calls[s.lock.value].Exported? then s.calls[s.lock.value].root
    else s.root
  }

  ghost predicate NoLostUpdate(s: State, k: Crypto) {
    s.synced ==> Unexported(s) || NewestRoot(s) == Export(s.users, k.base64)
  }

  /** Outside a commit, the file holds the root unless a write has failed since the last good one. */
  ghost predicate FileFollows(s: State) {
    s.saveFailed || s.file == s.root || (s.lock.Some? && s.lock.value in s.calls && s.calls[s.lock.value].Committed?)
  }

  ghost predicate Pending(s: State) {
    forall pid :: pid in s.calls ==>
      match s.calls[pid] {
        case Called(op) => FreshSalt(op)
        case Exported(root) => RootOk(root)
        case _ => true
      }
  }

  ghost predicate Inv(s: State, k: Crypto) {
    && WellFormed(s.users) && HasAdministrator(s.users)
    && LockDiscipline(s) && NoLostUpdate(s, k) && FileFollows(s) && Pending(s)
  }

  /** Any store with an administrator and no call in flight. */
  ghost predicate Start(s: State, k: Crypto) {
    && WellFormed(s.users) && HasAdministrator(s.users)
    && s.lock.None? && s.calls == map[]
    && (s.synced <==> s.root == Export(s.users, k.base64))
    && (s.saveFailed <==> s.file != s.root)
  }

  lemma StepUsers(s: State, a: Action, k: Crypto)
    requires Enabled(s, a) && Inv(s, k)
    ensures WellFormed(Next(s, a, k).users) && HasAdministrator(Next(s, a, k).users)
    ensures Pending(Next(s, a, k))
  {
    hide Mutate, Export, WellFormed, HasAdministrator, RootOk, NoLostUpdate;
    if a.DoMutate? {
      var op := s.calls[a.pid].op;
      assert FreshSalt(op);
      if Mutate(s.users, op, k).Ok? {
        MutateWellFormed(s.users, op, k);
        MutateKeepsAdministrator(s.users, op, k);
      }
    }
    if a.TakeExport? { ExportIsValid(s.users, k.base64); }
  }

  lemma StepLock(s: State, a: Action, k: Crypto)
    requires Enabled(s, a) && LockDiscipline(s) && FileFollows(s)
    ensures LockDiscipline(Next(s, a, k)) && FileFollows(Next(s, a, k))
  {
    hide Mutate, Export, RootOk;
  }

  lemma StepAgreement(s: State, a: Action, k: Crypto)
    requires Enabled(s, a) && LockDiscipline(s) && NoLostUpdate(s, k) && Pending(s)
    ensures NoLostUpdate(Next(s, a, k), k)
  {
    hide Mutate, Export, RootOk, FreshSalt;
    var s' := Next(s, a, k);
    if s'.synced {
      if a.DoMutate? && s'.calls[a.pid].Mutated? {
        assert a.pid in s'.calls && s'.calls[a.pid].Mutated?;
      } else if a.Acquire? {
        assert a.pid in s'.calls && s'.calls[a.pid].Holding?;
      } else if a.TakeExport? {
        assert UnderLock(s.calls[a.pid]);
        assert NewestRoot(s') == Export(s'.users, k.base64);
      } else if Unexported(s) {
        var pid :| pid in s.calls && (s.calls[pid].Mutated? || s.calls[pid].Holding?);
        assert pid in s'.calls && (s'.calls[pid].Mutated? || s'.calls[pid].Holding?);
      } else {
        if a.Commit? || a.Save? { assert UnderLock(s.calls[a.pid]); }
        if a.Commit? { assert RootOk(s.calls[a.pid].root); }
        assert NewestRoot(s') == NewestRoot(s);
      }
    }
  }

  /** The state after a schedule of actions, unless one of them is not enabled when its turn comes. */
  ghost function After(s: State, actions: seq<Action>, k: Crypto): Option<State> {
    if actions == [] then Some(s)
    else match After(s, actions[..|actions| - 1], k)
      case None => None
      case Some(t) => if Enabled(t, actions[|actions| - 1]) then Some(Next(t, actions[|actions| - 1], k)) else None
  }

  /** No call is between its mutation and its return. */
  ghost predicate Quiet(s: State) {
    forall pid :: pid in s.calls ==> s.calls[pid].Called? || s.calls[pid].Returned?
  }

  /**
   * In every interleaving of calls, with any pattern of failed writes: an administrator remains; no update
   * is lost, so once no call is in the middle the registry's root is the export of the store if any call
   * has changed it or they agreed at the start; and the file then holds that root unless the last write failed.
   */
  lemma {:induction false} EveryInterleaving(s: State, actions: seq<Action>, k: Crypto)
    requires Start(s, k) && After(s, actions, k).Some?
    ensures var t := After(s, actions, k).value;
            && Inv(t, k)
            && (Quiet(t) && t.synced ==> t.root == Export(t.users, k.base64))
            && (Quiet(t) && !t.saveFailed ==> t.file == t.root)
  {
    hide Enabled, Next, WellFormed, HasAdministrator, Export;
    if actions != [] {
      var init, last := actions[..|actions| - 1], actions[|actions| - 1];
      EveryInterleaving(s, init, k);
      var t := After(s, init, k).value;
      StepUsers(t, last, k);
      StepLock(t, last, k);
      StepAgreement(t, last, k);
    }
  }

  // ---------------------------------------------------------------------
  // What the calls of a run do.
  // ---------------------------------------------------------------------

  /** One mutation after the other; one that is refused changes nothing. */
  function ApplyOps(users: Users, ops: seq<Op>, k: Crypto): Users {
    if ops == [] then users
    else
      var before := ApplyOps(users, ops[..|ops| - 1], k);
      match Mutate(before, ops[|ops| - 1], k)
      case Ok(after) => after
      case Err(_) => before
  }

  /** The mutations of a run, in the order of their turns under the users lock. */
  ghost function OpsOf(s: State, actions: seq<Action>, k: Crypto): seq<Op>
    requires After(s, actions, k).Some?
  {
    if actions == [] then []
    else
      var init, last := actions[..|actions| - 1], actions[|actions| - 1];
      var t := After(s, init, k).value;
      OpsOf(s, init, k) + if last.DoMutate? then [t.calls[last.pid].op] else []
  }

  /** Only a call's turn under the users lock changes the store. */
  lemma OneTurn(t: State, a: Action, k: Crypto)
    requires Enabled(t, a)
    ensures Next(t, a, k).users ==
            if a.DoMutate? && Mutate(t.users, t.calls[a.pid].op, k).Ok? then Mutate(t.users, t.calls[a.pid].op, k).value
            else t.users
  {
    hide Mutate, Export, RootOk;
  }

  /** In every interleaving the store is what the calls' mutations make of it one after the other. */
  lemma {:induction false} Linearizes(s: State, actions: seq<Action>, k: Crypto)
    requires After(s, actions, k).Some?
    ensures After(s, actions, k).value.users == ApplyOps(s.users, OpsOf(s, actions, k), k)
  {
    hide Mutate, Next;
    if actions != [] {
      var init, last := actions[..|actions| - 1], actions[|actions| - 1];
      Linearizes(s, init, k);
      OneTurn(After(s, init, k).value, last, k);
      var ops := OpsOf(s, init, k);
      if last.DoMutate? {
        var op := After(s, init, k).value.calls[last.pid].op;
        assert (ops + [op])[..|ops|] == ops;
      } else {
        assert ops + [] == ops;
      }
    }
  }

  /** A call that waits for its turn was begun with the mutation it will make. */
  lemma {:induction false} BegunSo(s: State, actions: seq<Action>, k: Crypto, pid: Pid)
    requires After(s, actions, k).Some? && s.calls == map[]
    requires var t := After(s, actions, k).value; pid in t.calls && t.calls[pid].Called?
    ensures Begin(pid, After(s, actions, k).value.calls[pid].op) in actions
  {
    hide Mutate, Export, RootOk;
    if actions != [] {
      var init, last := actions[..|actions| - 1], actions[|actions| - 1];
      assert actions == init + [last];
      if last != Begin(pid, After(s, actions, k).value.calls[pid].op) { BegunSo(s, init, k, pid); }
    }
  }

  /** No call gets further without its turn. */
  lemma {:induction false} TurnTaken(s: State, actions: seq<Action>, k: Crypto, pid: Pid)
    requires After(s, actions, k).Some? && s.calls == map[]
    requires var t := After(s, actions, k).value; pid in t.calls && !t.calls[pid].Called?
    ensures DoMutate(pid) in actions
  {
    hide Mutate, Export, RootOk;
    if actions != [] {
      var init, last := actions[..|actions| - 1], actions[|actions| - 1];
      assert actions == init + [last];
      if last != DoMutate(pid) { TurnTaken(s, init, k, pid); }
    }
  }

  lemma AfterSnoc(s: State, actions: seq<Action>, a: Action, k: Crypto)
    requires After(s, actions, k).Some? && Enabled(After(s, actions, k).value, a)
    ensures After(s, actions + [a], k) == Some(Next(After(s, actions, k).value, a, k))
  {
    hide Enabled, Next;
    assert (actions + [a])[..|actions|] == actions;
  }

  /** The steps of one call whose mutation is applied. */
  function CallSteps(pid: Pid, op: Op, disk: Disk): seq<Action> {
    [Begin(pid, op), DoMutate(pid), Acquire(pid), TakeExport(pid), Commit(pid, disk.history)]
    + if disk.history then [Save(pid, disk.state)] else []
  }

  /** A call that meets no other, up to its commit. */
  lemma UpToCommit(s: State, pid: Pid, op: Op, disk: Disk, k: Crypto)
    requires WellFormed(s.users) && FreshSalt(op) && s.lock.None? && pid !in s.calls
    requires Mutate(s.users, op, k).Ok?
    ensures var users := Mutate(s.users, op, k).value;
            var root := Export(users, k.base64);
            RootOk(root) &&
            After(s, [Begin(pid, op), DoMutate(pid), Acquire(pid), TakeExport(pid)], k) ==
            Some(s.(users := users, lock := Some(pid), calls := s.calls[pid := Exported(root)], synced := true))
  {
    hide Mutate, Export, RootOk, WellFormed, FreshSalt, After;
    var users := Mutate(s.users, op, k).value;
    MutateWellFormed(s.users, op, k);
    ExportIsValid(users, k.base64);
    var a1 := [Begin(pid, op)];
    var a2 := a1 + [DoMutate(pid)];
    var a3 := a2 + [Acquire(pid)];
    NothingYet(s, k);
    assert [] + [Begin(pid, op)] == a1;
    AfterSnoc(s, [], Begin(pid, op), k);
    AfterSnoc(s, a1, DoMutate(pid), k);
    AfterSnoc(s, a2, Acquire(pid), k);
    AfterSnoc(s, a3, TakeExport(pid), k);
    assert a3 + [TakeExport(pid)] == [Begin(pid, op), DoMutate(pid), Acquire(pid), TakeExport(pid)];
    var called := s.calls[pid := Called(op)][pid := Mutated][pid := Holding];
    assert called[pid := Exported(Export(users, k.base64))] == s.calls[pid := Exported(Export(users, k.base64))];
  }

  /** A call that meets no other ends with the store, the root and the file of the call on the store object. */
  lemma SoloCallExactly(s: State, pid: Pid, op: Op, disk: Disk, k: Crypto)
    requires WellFormed(s.users) && FreshSalt(op) && s.lock.None? && pid !in s.calls
    requires Mutate(s.users, op, k).Ok?
    ensures var t := After(s, CallSteps(pid, op, disk), k);
            var (store, _) := CallSpec(Store(s.users, Some(Persisted(s.root, s.file))), op, disk, k);
            && t.Some? && t.value.calls == s.calls[pid := Returned] && t.value.lock.None?
            && (t.value.saveFailed <==> !(disk.history && disk.state))
            && Store(t.value.users, Some(Persisted(t.value.root, t.value.file))) == store
  {
    hide Mutate, Export, RootOk, WellFormed, FreshSalt, After;
    var a4 := [Begin(pid, op), DoMutate(pid), Acquire(pid), TakeExport(pid)];
    var a5 := a4 + [Commit(pid, disk.history)];
    UpToCommit(s, pid, op, disk, k);
    AfterSnoc(s, a4, Commit(pid, disk.history), k);
    if disk.history {
      AfterSnoc(s, a5, Save(pid, disk.state), k);
      assert a5 + [Save(pid, disk.state)] == CallSteps(pid, op, disk);
    } else {
      assert a5 == CallSteps(pid, op, disk);
    }
  }

  lemma NothingYet(s: State, k: Crypto)
    ensures After(s, [], k) == Some(s)
  {
  }

  /** A refused call changes neither store nor registry nor file. */
  lemma RefusedCallExactly(s: State, pid: Pid, op: Op, k: Crypto)
    requires FreshSalt(op) && pid !in s.calls && Mutate(s.users, op, k).Err?
    ensures After(s, [Begin(pid, op), DoMutate(pid)], k) == Some(s.(calls := s.calls[pid := Returned]))
  {
    hide Mutate, Export, RootOk, FreshSalt, After;
    NothingYet(s, k);
    assert [] + [Begin(pid, op)] == [Begin(pid, op)];
    AfterSnoc(s, [], Begin(pid, op), k);
    AfterSnoc(s, [Begin(pid, op)], DoMutate(pid), k);
    assert [Begin(pid, op)] + [DoMutate(pid)] == [Begin(pid, op), DoMutate(pid)];
    assert s.calls[pid := Called(op)][pid := Returned] == s.calls[pid := Returned];
  }

  /** So a restart from the agreed root brings back the very store, whatever was interleaved before. */
  lemma RestartAfterRun(s: State, actions: seq<Action>, k: Crypto, locked: Locked, defaultAdmin: User)
    requires RoundTrips(k.base64) && Start(s, k)
    ensures After(s, actions, k).Some? ==>
            var t := After(s, actions, k).value;
            Quiet(t) && t.synced ==> FromSnapshot(t.root, k.base64, locked, defaultAdmin) == t.users
  {
    hide After, FromSnapshot, Export;
    if After(s, actions, k).Some? {
      EveryInterleaving(s, actions, k);
      var t := After(s, actions, k).value;
      var admin :| admin in t.users && t.users[admin].role == Administrator;
      RestartRestores(t.users, k.base64, locked, defaultAdmin);
    }
  }

  // ---------------------------------------------------------------------
  // The store object, used by one caller.
  // ---------------------------------------------------------------------

  /** The attached registry: its visible root and the root in the state file. */
  datatype Persisted = Persisted(root: seq<AdminEntry>, file: seq<AdminEntry>)

  /** Whether the history file and the state file can be written. */
  datatype Disk = Disk(history: bool, state: bool)

  datatype Store = Store(users: Users, registry: Option<Persisted>)

  /** The commit makes the root visible before either file is written; a failed file leaves it so. */
  ghost function PersistSpec(s: Store, disk: Disk, b: Base64): (Store, Result<(), Failure>) {
    match s.registry
    case None => (s, Ok(()))
    case Some(p) =>
      var root := Export(s.users, b);
      if disk.history && disk.state then (s.(registry := Some(Persisted(root, root))), Ok(()))
      else (s.(registry := Some(Persisted(root, p.file))), Err(NotPersisted))
  }

  ghost function CallSpec(s: Store, op: Op, disk: Disk, k: Crypto): (Store, Result<(), Failure>) {
    match Mutate(s.users, op, k)
    case Err(e) => (s, Err(e))
    case Ok(users) => PersistSpec(s.(users := users), disk, k.base64)
  }

  /**
   * A call is told to have succeeded exactly when it was applied and, with a registry, both files were
   * written. It keeps an administrator whatever the disk does; an applied call is visible in the registry
   * also when a file failed, and then the file is as it was.
   */
  lemma CallExactly(s: Store, op: Op, disk: Disk, k: Crypto)
    requires WellFormed(s.users) && FreshSalt(op)
    ensures var (t, r) := CallSpec(s, op, disk, k);
            && WellFormed(t.users)
            && (HasAdministrator(s.users) ==> HasAdministrator(t.users))
            && (r.Ok? <==> Mutate(s.users, op, k).Ok? && (s.registry.None? || (disk.history && disk.state)))
            && (r == Err(NotPersisted) <==>
                Mutate(s.users, op, k).Ok? && s.registry.Some? && !(disk.history && disk.state))
            && (r.Err? && r.error != NotPersisted ==> t == s && r.error == Mutate(s.users, op, k).error)
            && (Mutate(s.users, op, k).Ok? ==> t.users == Mutate(s.users, op, k).value)
            && (t.registry.Some? <==> s.registry.Some?)
            && (Mutate(s.users, op, k).Ok? && s.registry.Some? ==>
                 && t.registry.value.root == Export(t.users, k.base64)
                 && t.registry.value.file == if r.Ok? then t.registry.value.root else s.registry.value.file)
  {
    hide Export, DeriveKeys, Blank;
    if Mutate(s.users, op, k).Ok? {
      MutateWellFormed(s.users, op, k);
      if HasAdministrator(s.users) { MutateKeepsAdministrator(s.users, op, k); }
    }
    MutateErrors(s.users, op, k);
  }

  /** The part under the users lock never reports a failed file. */
  lemma MutateErrors(users: Users, op: Op, k: Crypto)
    ensures Mutate(users, op, k) != Err(NotPersisted)
  {
  }

  class AdminUsers {
    var users: Users
    var registry: Option<Persisted>

    constructor FromRegistry(registered: Persisted, k: Crypto, locked: Locked, defaultAdmin: User)
      ensures users == FromSnapshot(registered.root, k.base64, locked, defaultAdmin) && registry == Some(registered)
    {
      var loaded := LoadSnapshot(registered.root, k.base64, locked, defaultAdmin);
      users, registry := loaded, Some(registered);
    }

    ghost function State(): Store
      reads this
    {
      Store(users, registry)
    }

    method Persist(disk: Disk, k: Crypto) returns (r: Result<(), Failure>)
      requires WellFormed(users)
      modifies this`registry
      ensures (State(), r) == PersistSpec(old(State()), disk, k.base64)
    {
      if registry.None? {
        return Ok(());
      }
      var conf := ExportConf(users, k.base64);
      registry := Some(registry.value.(root := conf));
      if !disk.history {
        return Err(NotPersisted);
      }
      if !disk.state {
        return Err(NotPersisted);
      }
      registry := Some(registry.value.(file := conf));
      return Ok(());
    }

    method CreateUser(
      name: string, password: string, role: Role, description: string, salt: Octets, disk: Disk, k: Crypto)
      returns (r: Result<(), Failure>)
      requires WellFormed(users) && |salt| == 16
      modifies this
      ensures WellFormed(users)
      ensures (State(), r) == CallSpec(old(State()), Create(name, password, role, description, salt), disk, k)
    {
      if !ValidUsername(name) {
        return Err(InvalidUsername);
      }
      if |password| < MIN_PASSWORD {
        return Err(WeakPassword);
      }
      if name in users {
        return Err(AlreadyExists);
      }
      MutateWellFormed(users, Create(name, password, role, description, salt), k);
      var keys := DeriveKeysLoop(k.utf8(password), salt, ITERATIONS, k.sha);
      users := users[name := User(name, role, description, Verifier(salt, ITERATIONS, keys.0, keys.1), false)];
      r := Persist(disk, k);
    }

    method DeleteUser(name: string, disk: Disk, k: Crypto) returns (r: Result<(), Failure>)
      requires WellFormed(users)
      modifies this
      ensures WellFormed(users) && (State(), r) == CallSpec(old(State()), Delete(name), disk, k)
    {
      if name !in users {
        return Err(NotFound);
      }
      if users[name].role == Administrator && |Administrators(users)| == 1 {
        return Err(LastAdministrator);
      }
      MutateWellFormed(users, Delete(name), k);
      users := users - {name};
      r := Persist(disk, k);
    }

    method SetUserRole(name: string, role: Role, disk: Disk, k: Crypto) returns (r: Result<(), Failure>)
      requires WellFormed(users)
      modifies this
      ensures WellFormed(users) && (State(), r) == CallSpec(old(State()), SetRole(name, role), disk, k)
    {
      if name !in users {
        return Err(NotFound);
      }
      if users[name].role == Administrator && role == Viewer && |Administrators(users)| == 1 {
        return Err(LastAdministrator);
      }
      MutateWellFormed(users, SetRole(name, role), k);
      users := users[name := users[name].(role := role)];
      r := Persist(disk, k);
    }

    method SetUserDescription(name: string, description: string, disk: Disk, k: Crypto) returns (r: Result<(), Failure>)
      requires WellFormed(users)
      modifies this
      ensures WellFormed(users) && (State(), r) == CallSpec(old(State()), SetDescription(name, description), disk, k)
    {
      if name !in users {
        return Err(NotFound);
      }
      MutateWellFormed(users, SetDescription(name, description), k);
      users := users[name := users[name].(description := description)];
      r := Persist(disk, k);
    }

    method ChangeUserPassword(name: string, password: string, salt: Octets, disk: Disk, k: Crypto)
      returns (r: Result<(), Failure>)
      requires WellFormed(users) && |salt| == 16
      modifies this
      ensures WellFormed(users) && (State(), r) == CallSpec(old(State()), ChangePassword(name, password, salt), disk, k)
    {
      if |password| < MIN_PASSWORD {
        return Err(WeakPassword);
      }
      if name !in users {
        return Err(NotFound);
      }
      var v := users[name].verifier;
      var candidate := DeriveKeysLoop(k.utf8(password), v.salt, v.iterations, k.sha);
      var same := ConstantTimeEq(candidate.0, v.storedKey);
      if same {
        return Err(SameAsOld);
      }
      MutateWellFormed(users, ChangePassword(name, password, salt), k);
      var keys := DeriveKeysLoop(k.utf8(password), salt, ITERATIONS, k.sha);
      users := users[name := users[name].(verifier := Verifier(salt, ITERATIONS, keys.0, keys.1), mustChange := false)];
      r := Persist(disk, k);
    }
  }
}
