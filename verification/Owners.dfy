/**
 * The three owners that hold a configuration root in memory: the MQTT credential store, the rule engine
 * and the administrator accounts. How each applies a root, and what it holds then.
 */
module Owners {
  import opened Prelude
  import opened Text
  import opened Config
  import opened SecretWalk
  import opened Validation
  import opened RuleSql
  import opened Credentials
  import AdminStore

  /**
   * An MQTT login: the parsed verifier (none when it is locked), or the octets its reference resolved to, with
   * the connection limit.
   */
  datatype Credential =
    | FromText(verifier: Option<seq<byte>>, maxConnections: Option<nat>)
    | FromSecret(octets: seq<byte>, maxConnections: Option<nat>)

  datatype Auth = Auth(users: map<string, Credential>, acls: seq<Acl>)

  type RuleTable = map<string, RuleEntry>

  /** An account: with its decoded verifier, locked because it does not decode, or the built-in default. */
  datatype Account = Usable(entry: AdminEntry) | Locked(entry: AdminEntry) | BuiltIn

  type Accounts = map<string, Account>

  /** What the program itself decides: the SQL it takes, its base64, and what a stored MQTT verifier parses to. */
  datatype Engine = Engine(language: Language, base64: Base64, stored: string -> Option<seq<byte>>)

  // ---------------------------------------------------------------------
  // The credential store.
  // ---------------------------------------------------------------------

  function CredentialOf(u: MqttUser, w: Secrets, g: Engine): Option<Credential> {
    if IsSecretRef(Trim(u.passwordHash)) then
      match ResolveSecret(Trim(u.passwordHash), w)
      case Some(octets) => Some(FromSecret(octets, u.maxConnections))
      case None => None
    else Some(FromText(g.stored(u.passwordHash), u.maxConnections))
  }

  function Logins(users: seq<MqttUser>, w: Secrets, g: Engine): Option<map<string, Credential>> {
    if users == [] then Some(map[])
    else match (Logins(users[..|users| - 1], w, g), CredentialOf(users[|users| - 1], w, g))
      case (Some(init), Some(c)) => Some(init[users[|users| - 1].username := c])
      case _ => None
  }

  /** The access rules as the store keeps them, with their action parsed. */
  function AccessRules(acls: seq<Acl>): seq<Acl> {
    seq(|acls|, i requires 0 <= i < |acls| => acls[i].(action := AsciiLower(acls[i].action)))
  }

  /** A login from a reference has the octets behind it, any other what its text parses to, both with their limit. */
  lemma CredentialExactly(u: MqttUser, w: Secrets, g: Engine)
    ensures var hash := Trim(u.passwordHash);
            CredentialOf(u, w, g) ==
            if "file:" <= hash || "env:" <= hash then
              if Readable(hash, w) then Some(FromSecret(w.read(hash).value, u.maxConnections)) else None
            else Some(FromText(g.stored(u.passwordHash), u.maxConnections))
  {
    hide Trim;
    BehindPrefix(Trim(u.passwordHash));
  }

  lemma AccessRulesExactly(acls: seq<Acl>, i: nat)
    requires i < |acls|
    ensures |AccessRules(acls)| == |acls|
    ensures AccessRules(acls)[i].(action := acls[i].action) == acls[i]
    ensures AccessRules(acls)[i].action == AsciiLower(acls[i].action)
  {
  }

  /** The credential store replaces its contents only after every entry has resolved. */
  function ApplyAuth(a: Auth, s: FullSnapshot, w: Secrets, g: Engine): (Auth, bool) {
    if !MqttOk(s.mqttUsers, s.acls) then (a, false)
    else match Logins(s.mqttUsers, w, g)
      case Some(users) => (Auth(users, AccessRules(s.acls)), true)
      case None => (a, false)
  }

  lemma LoginsSnoc(users: seq<MqttUser>, i: nat, w: Secrets, g: Engine)
    requires i < |users|
    ensures Logins(users[..i + 1], w, g) ==
            match (Logins(users[..i], w, g), CredentialOf(users[i], w, g))
            case (Some(init), Some(c)) => Some(init[users[i].username := c])
            case _ => None
  {
    hide CredentialOf;
    assert users[..i + 1][..i] == users[..i];
  }

  lemma {:induction false} CredentialsExactly(users: seq<MqttUser>, w: Secrets, g: Engine)
    ensures Logins(users, w, g).Some? <==> SecretsResolve(users, w)
  {
    hide IsSecretRef;
    if users != [] {
      var n := |users| - 1;
      CredentialsExactly(users[..n], w, g);
      assert SecretsResolve(users, w) <==> SecretsResolve(users[..n], w) && Resolvable(users[n].passwordHash, w) by {
        assert forall i :: 0 <= i < n ==> users[..n][i] == users[i];
      }
    }
  }

  /** A validated root is refused exactly when one of its references does not resolve. */
  lemma AuthAcceptedExactly(a: Auth, s: FullSnapshot, w: Secrets, g: Engine)
    requires MqttOk(s.mqttUsers, s.acls)
    ensures ApplyAuth(a, s, w, g).1 <==> SecretsResolve(s.mqttUsers, w)
    ensures !ApplyAuth(a, s, w, g).1 ==> ApplyAuth(a, s, w, g).0 == a
  {
    CredentialsExactly(s.mqttUsers, w, g);
  }

  /** Exactly these users, each with the credential of its own entry. */
  ghost predicate HoldsUsers(m: map<string, Credential>, users: seq<MqttUser>, w: Secrets, g: Engine) {
    && (forall name :: name in m <==> exists i :: 0 <= i < |users| && users[i].username == name)
    && (forall i :: 0 <= i < |users| ==>
         users[i].username in m && CredentialOf(users[i], w, g) == Some(m[users[i].username]))
  }

  /** The snapshot's users and exactly its access rules. */
  ghost predicate HoldsAuth(a: Auth, s: FullSnapshot, w: Secrets, g: Engine) {
    HoldsUsers(a.users, s.mqttUsers, w, g) && a.acls == AccessRules(s.acls)
  }

  lemma UsersStep(m: map<string, Credential>, init: seq<MqttUser>, u: MqttUser, w: Secrets, g: Engine)
    requires HoldsUsers(m, init, w, g) && forall i :: 0 <= i < |init| ==> init[i].username != u.username
    requires CredentialOf(u, w, g).Some?
    ensures HoldsUsers(m[u.username := CredentialOf(u, w, g).value], init + [u], w, g)
  {
    hide CredentialOf;
    var all, after := init + [u], m[u.username := CredentialOf(u, w, g).value];
    assert all[|init|] == u;
    forall name ensures name in after <==> exists i :: 0 <= i < |all| && all[i].username == name {
      if name in m {
        var i :| 0 <= i < |init| && init[i].username == name;
        assert all[i].username == name;
      }
    }
  }

  lemma {:induction false} CredentialsHold(users: seq<MqttUser>, w: Secrets, g: Engine)
    requires Logins(users, w, g).Some?
    requires forall i, j :: 0 <= i < j < |users| ==> users[i].username != users[j].username
    ensures HoldsUsers(Logins(users, w, g).value, users, w, g)
  {
    if users != [] {
      hide HoldsUsers, CredentialOf;
      var init, last := users[..|users| - 1], users[|users| - 1];
      CredentialsHold(init, w, g);
      UsersStep(Logins(init, w, g).value, init, last, w, g);
      assert users == init + [last];
    }
  }

  lemma AuthHolds(a: Auth, s: FullSnapshot, w: Secrets, g: Engine)
    requires ApplyAuth(a, s, w, g).1
    ensures HoldsAuth(ApplyAuth(a, s, w, g).0, s, w, g)
  {
    hide HoldsUsers, Logins, CredentialOf, Blank, AsciiLower;
    CredentialsHold(s.mqttUsers, w, g);
  }

  /** One unresolved credential makes the whole list unresolved. */
  lemma LostCredential(users: seq<MqttUser>, i: nat, w: Secrets, g: Engine)
    requires i < |users| && CredentialOf(users[i], w, g).None?
    ensures Logins(users, w, g).None?
  {
    hide IsSecretRef;
    CredentialsExactly(users, w, g);
    assert !Resolvable(users[i].passwordHash, w);
  }

  ghost predicate HasLogin(users: seq<MqttUser>, w: Secrets, name: string, c: Option<Credential>, g: Engine) {
    exists j :: 0 <= j < |users| && users[j].username == name && CredentialOf(users[j], w, g) == c
  }

  ghost predicate LoginsIn(users: seq<MqttUser>, w: Secrets, others: seq<MqttUser>, v: Secrets, g: Engine) {
    forall i :: 0 <= i < |users| ==> HasLogin(others, v, users[i].username, CredentialOf(users[i], w, g), g)
  }

  /** Two snapshots give the same logins and access rules, each with the secrets of its time. */
  ghost predicate SameLogins(s: FullSnapshot, w: Secrets, t: FullSnapshot, v: Secrets, g: Engine) {
    && LoginsIn(s.mqttUsers, w, t.mqttUsers, v, g) && LoginsIn(t.mqttUsers, v, s.mqttUsers, w, g)
    && AccessRules(s.acls) == AccessRules(t.acls)
  }

  lemma SameAuthExactly(a: Auth, s: FullSnapshot, w: Secrets, b: Auth, t: FullSnapshot, v: Secrets, g: Engine)
    requires HoldsAuth(a, s, w, g) && HoldsAuth(b, t, v, g)
    ensures a == b <==> SameLogins(s, w, t, v, g)
  {
    hide CredentialOf;
    if a == b {
      LoginsFound(a.users, s.mqttUsers, w, t.mqttUsers, v, g);
      LoginsFound(a.users, t.mqttUsers, v, s.mqttUsers, w, g);
    }
    if SameLogins(s, w, t, v, g) {
      LoginsEqual(a.users, s.mqttUsers, w, b.users, t.mqttUsers, v, g);
      LoginsEqual(b.users, t.mqttUsers, v, a.users, s.mqttUsers, w, g);
      assert a.users == b.users;
    }
  }

  lemma LoginsFound(
    m: map<string, Credential>, users: seq<MqttUser>, w: Secrets, others: seq<MqttUser>, v: Secrets, g: Engine)
    requires HoldsUsers(m, users, w, g) && HoldsUsers(m, others, v, g)
    ensures LoginsIn(users, w, others, v, g)
  {
    hide CredentialOf;
    forall i | 0 <= i < |users| ensures HasLogin(others, v, users[i].username, CredentialOf(users[i], w, g), g) {
      assert users[i].username in m;
      var j :| 0 <= j < |others| && others[j].username == users[i].username;
    }
  }

  lemma LoginsEqual(
    m: map<string, Credential>, users: seq<MqttUser>, w: Secrets, k: map<string, Credential>, others: seq<MqttUser>,
    v: Secrets, g: Engine)
    requires HoldsUsers(m, users, w, g) && HoldsUsers(k, others, v, g) && LoginsIn(users, w, others, v, g)
    ensures forall name :: name in m ==> name in k && k[name] == m[name]
  {
    hide CredentialOf;
    forall name | name in m ensures name in k && k[name] == m[name] {
      var i :| 0 <= i < |users| && users[i].username == name;
      assert HasLogin(others, v, users[i].username, CredentialOf(users[i], w, g), g);
    }
  }

  /** Every reference of these users has the same octets behind it at both times. */
  ghost predicate SameSecrets(users: seq<MqttUser>, w: Secrets, v: Secrets) {
    forall i :: 0 <= i < |users| && IsSecretRef(Trim(users[i].passwordHash)) ==>
      ResolveSecret(Trim(users[i].passwordHash), w) == ResolveSecret(Trim(users[i].passwordHash), v)
  }

  /** The same snapshot applied at two times gives the same store exactly when no secret has changed. */
  lemma SameSecretsExactly(a: Auth, b: Auth, s: FullSnapshot, w: Secrets, v: Secrets, g: Engine)
    requires HoldsAuth(a, s, w, g) && HoldsAuth(b, s, v, g)
    ensures a == b <==> SameSecrets(s.mqttUsers, w, v)
  {
    hide IsSecretRef, ResolveSecret;
    var users := s.mqttUsers;
    if a == b {
      forall i | 0 <= i < |users| && IsSecretRef(Trim(users[i].passwordHash))
        ensures ResolveSecret(Trim(users[i].passwordHash), w) == ResolveSecret(Trim(users[i].passwordHash), v)
      {
        assert CredentialOf(users[i], w, g) == CredentialOf(users[i], v, g);
      }
    }
    if SameSecrets(users, w, v) {
      forall i | 0 <= i < |users| ensures CredentialOf(users[i], w, g) == CredentialOf(users[i], v, g) {}
      assert LoginsIn(users, w, users, v, g) by {
        forall i | 0 <= i < |users| ensures HasLogin(users, v, users[i].username, CredentialOf(users[i], w, g), g) {
          assert users[i].username == users[i].username && CredentialOf(users[i], v, g) == CredentialOf(users[i], w, g);
        }
      }
      LoginsEqual(a.users, users, w, b.users, users, v, g);
      assert a.users.Keys == b.users.Keys;
      assert a.users == b.users;
    }
  }

  // ---------------------------------------------------------------------
  // The rule engine.
  // ---------------------------------------------------------------------

  /** How applying a list of rules ends. */
  datatype Ending = Took | RefusedOne | Unwound

  predicate Fits(r: RuleEntry, g: Engine) {
    Compile(r, g.language).Runs?
  }

  /** Insert rules until one is refused or panics; the table keeps those inserted before it. */
  function InsertRules(t: RuleTable, rules: seq<RuleEntry>, g: Engine): (RuleTable, Ending)
    decreases |rules|
  {
    if rules == [] then (t, Took)
    else match Compile(rules[0], g.language)
      case Runs(rule) =>
        if rules[0].id in t then (t, RefusedOne) else InsertRules(t[rules[0].id := rule], rules[1..], g)
      case Refused => (t, RefusedOne)
      case Panics => (t, Unwound)
  }

  /** How the engine ends on a rule it does not take. */
  function EndingAt(rules: seq<RuleEntry>, k: nat, g: Engine): Ending
    requires k <= |rules|
  {
    if k == |rules| then Took else if Compile(rules[k], g.language).Panics? then Unwound else RefusedOne
  }

  /** The rule engine clears its table first. */
  function ApplyRules(t: RuleTable, s: FullSnapshot, g: Engine): (RuleTable, Ending) {
    if !RulesOk(s.rules) then (t, RefusedOne) else InsertRules(map[], s.rules, g)
  }

  /** An invalid root is refused and changes nothing; a rule whose id is taken already is refused. */
  lemma InvalidRulesRefused(t: RuleTable, s: FullSnapshot, r: RuleEntry, g: Engine)
    ensures !RulesOk(s.rules) ==> ApplyRules(t, s, g) == (t, RefusedOne)
    ensures r.id in t && Fits(r, g) ==> InsertRules(t, [r], g) == (t, RefusedOne)
  {
    hide RulesOk, Compile;
  }

  /** Position of the first rule that the engine does not take, or the length. */
  function FirstBad(rules: seq<RuleEntry>, g: Engine): (k: nat)
    ensures k <= |rules| && (k < |rules| ==> !Fits(rules[k], g))
    ensures forall i :: 0 <= i < k ==> Fits(rules[i], g)
  {
    if rules == [] || !Fits(rules[0], g) then 0
    else
      var k := FirstBad(rules[1..], g);
      assert forall i :: 1 <= i < k + 1 ==> rules[i] == rules[1..][i - 1];
      1 + k
  }

  /** Exactly these rules, each compiled, under its id. */
  ghost predicate HoldsRules(t: RuleTable, rules: seq<RuleEntry>, g: Engine) {
    && (forall id :: id in t <==> exists i :: 0 <= i < |rules| && rules[i].id == id)
    && (forall i :: 0 <= i < |rules| ==> rules[i].id in t && Compile(rules[i], g.language) == Runs(t[rules[i].id]))
  }

  lemma RulesStep(t: RuleTable, done: seq<RuleEntry>, r: RuleEntry, g: Engine)
    requires HoldsRules(t, done, g) && r.id !in t && Fits(r, g)
    ensures HoldsRules(t[r.id := Compile(r, g.language).rule], done + [r], g)
  {
    var all, after := done + [r], t[r.id := Compile(r, g.language).rule];
    assert all[|done|] == r;
    forall id ensures id in after <==> exists i :: 0 <= i < |all| && all[i].id == id {
      if id in t {
        var i :| 0 <= i < |done| && done[i].id == id;
        assert all[i].id == id;
      }
    }
  }

  /** Inserting ends at the first rule that is not taken, with exactly the rules before it in the table. */
  lemma {:induction false} InsertExactly(t: RuleTable, done: seq<RuleEntry>, rules: seq<RuleEntry>, g: Engine)
    requires HoldsRules(t, done, g)
    requires forall i, j :: 0 <= i < j < |done + rules| ==> (done + rules)[i].id != (done + rules)[j].id
    ensures var (after, ending) := InsertRules(t, rules, g);
            var k := FirstBad(rules, g);
            && HoldsRules(after, done + rules[..k], g)
            && ending == EndingAt(rules, k, g)
    decreases |rules|
  {
    hide HoldsRules, Compile;
    assert done + rules[..0] == done;
    if rules != [] && Fits(rules[0], g) {
      var r, more := rules[0], rules[1..];
      NewId(t, done, rules, g);
      RulesStep(t, done, r, g);
      assert done + [r] + more == done + rules;
      InsertExactly(t[r.id := Compile(r, g.language).rule], done + [r], more, g);
      var k := FirstBad(more, g);
      assert done + [r] + more[..k] == done + rules[..k + 1];
    }
  }

  lemma NewId(t: RuleTable, done: seq<RuleEntry>, rules: seq<RuleEntry>, g: Engine)
    requires rules != [] && HoldsRules(t, done, g)
    requires forall i, j :: 0 <= i < j < |done + rules| ==> (done + rules)[i].id != (done + rules)[j].id
    ensures rules[0].id !in t
  {
    assert (done + rules)[|done|] == rules[0];
    assert forall i :: 0 <= i < |done| ==> (done + rules)[i] == done[i];
  }

  /** How a validated root ends in the engine, and exactly which rules the engine then has. */
  lemma RulesAppliedExactly(t: RuleTable, s: FullSnapshot, g: Engine)
    requires RulesOk(s.rules)
    ensures var (after, ending) := ApplyRules(t, s, g);
            var k := FirstBad(s.rules, g);
            && HoldsRules(after, s.rules[..k], g)
            && ending == EndingAt(s.rules, k, g)
  {
    hide InsertRules, Compile, FirstBad, Blank, ActionOk;
    assert [] + s.rules == s.rules;
    var k := FirstBad(s.rules, g);
    assert [] + s.rules[..k] == s.rules[..k];
    InsertExactly(map[], [], s.rules, g);
  }

  ghost predicate HasRule(rules: seq<RuleEntry>, g: Engine, id: string, compiled: Compiled) {
    exists j :: 0 <= j < |rules| && rules[j].id == id && Compile(rules[j], g.language) == compiled
  }

  ghost predicate RulesIn(rules: seq<RuleEntry>, others: seq<RuleEntry>, g: Engine) {
    forall i :: 0 <= i < |rules| ==> HasRule(others, g, rules[i].id, Compile(rules[i], g.language))
  }

  /** Two lists compile to the same rules under the same ids. */
  ghost predicate SameRules(rules: seq<RuleEntry>, others: seq<RuleEntry>, g: Engine) {
    RulesIn(rules, others, g) && RulesIn(others, rules, g)
  }

  lemma SameTableExactly(t: RuleTable, rules: seq<RuleEntry>, u: RuleTable, others: seq<RuleEntry>, g: Engine)
    requires HoldsRules(t, rules, g) && HoldsRules(u, others, g)
    ensures t == u <==> SameRules(rules, others, g)
  {
    if t == u {
      RulesFound(t, rules, others, g);
      RulesFound(t, others, rules, g);
    }
    if SameRules(rules, others, g) {
      RulesEqual(t, rules, u, others, g);
      RulesEqual(u, others, t, rules, g);
      assert t == u;
    }
  }

  lemma RulesFound(t: RuleTable, rules: seq<RuleEntry>, others: seq<RuleEntry>, g: Engine)
    requires HoldsRules(t, rules, g) && HoldsRules(t, others, g)
    ensures RulesIn(rules, others, g)
  {
    forall i | 0 <= i < |rules| ensures HasRule(others, g, rules[i].id, Compile(rules[i], g.language)) {
      assert rules[i].id in t;
      var j :| 0 <= j < |others| && others[j].id == rules[i].id;
    }
  }

  lemma RulesEqual(t: RuleTable, rules: seq<RuleEntry>, u: RuleTable, others: seq<RuleEntry>, g: Engine)
    requires HoldsRules(t, rules, g) && HoldsRules(u, others, g) && RulesIn(rules, others, g)
    ensures forall id :: id in t ==> id in u && u[id] == t[id]
  {
    forall id | id in t ensures id in u && u[id] == t[id] {
      var i :| 0 <= i < |rules| && rules[i].id == id;
      assert HasRule(others, g, rules[i].id, Compile(rules[i], g.language));
    }
  }

  // ---------------------------------------------------------------------
  // The administrator accounts.
  // ---------------------------------------------------------------------

  function AccountOf(e: AdminEntry, g: Engine): Account {
    if DecodeVerifier(e.passwordHash, g.base64).Some? then Usable(e) else Locked(e)
  }

  function AccountsOf(entries: seq<AdminEntry>, g: Engine): Accounts {
    if entries == [] then map[]
    else
      var last := entries[|entries| - 1];
      AccountsOf(entries[..|entries| - 1], g)[last.username := AccountOf(last, g)]
  }

  function ApplyAdmin(m: Accounts, s: FullSnapshot, g: Engine): (Accounts, bool) {
    if !AdminStore.RootOk(s.adminUsers) then (m, false)
    else if s.adminUsers == [] then (map["admin" := BuiltIn], true)
    else (AccountsOf(s.adminUsers, g), true)
  }

  /** Exactly these accounts, each of its own entry. */
  ghost predicate HoldsAccounts(m: Accounts, entries: seq<AdminEntry>, g: Engine) {
    && (forall name :: name in m <==> exists i :: 0 <= i < |entries| && entries[i].username == name)
    && (forall i :: 0 <= i < |entries| ==>
         entries[i].username in m && m[entries[i].username] == AccountOf(entries[i], g))
  }

  /** The listed accounts, or the built-in one when none is listed. */
  ghost predicate HoldsAdmin(m: Accounts, entries: seq<AdminEntry>, g: Engine) {
    if entries == [] then m == map["admin" := BuiltIn] else HoldsAccounts(m, entries, g)
  }

  lemma AccountsStep(m: Accounts, init: seq<AdminEntry>, e: AdminEntry, g: Engine)
    requires HoldsAccounts(m, init, g) && forall i :: 0 <= i < |init| ==> init[i].username != e.username
    ensures HoldsAccounts(m[e.username := AccountOf(e, g)], init + [e], g)
  {
    hide AccountOf;
    var all, after := init + [e], m[e.username := AccountOf(e, g)];
    assert all[|init|] == e;
    forall name ensures name in after <==> exists i :: 0 <= i < |all| && all[i].username == name {
      if name in m {
        var i :| 0 <= i < |init| && init[i].username == name;
        assert all[i].username == name;
      }
    }
  }

  lemma {:induction false} AccountsHold(entries: seq<AdminEntry>, g: Engine)
    requires forall i, j :: 0 <= i < j < |entries| ==> entries[i].username != entries[j].username
    ensures HoldsAccounts(AccountsOf(entries, g), entries, g)
  {
    if entries != [] {
      hide HoldsAccounts, AccountOf;
      var init, last := entries[..|entries| - 1], entries[|entries| - 1];
      AccountsHold(init, g);
      AccountsStep(AccountsOf(init, g), init, last, g);
      assert entries == init + [last];
    }
  }

  lemma AdminHolds(m: Accounts, s: FullSnapshot, g: Engine)
    requires ApplyAdmin(m, s, g).1
    ensures HoldsAdmin(ApplyAdmin(m, s, g).0, s.adminUsers, g)
  {
    hide HoldsAccounts, AccountsOf, Blank;
    AccountsHold(s.adminUsers, g);
  }

  /** A listed administrator whose verifier decodes. */
  ghost predicate ListsAdministrator(entries: seq<AdminEntry>, g: Engine) {
    exists i :: 0 <= i < |entries| && entries[i].role == "administrator"
      && DecodeVerifier(entries[i].passwordHash, g.base64).Some?
  }

  /** Somebody can log in and administer: with a usable account of that role, or with the built-in one. */
  ghost predicate LiveAdministrator(m: Accounts) {
    exists name :: name in m && (m[name].BuiltIn? || (m[name].Usable? && m[name].entry.role == "administrator"))
  }

  /** The built-in account with its default password is live. */
  ghost predicate DefaultLogin(m: Accounts) {
    exists name :: name in m && m[name].BuiltIn?
  }

  /** Who can administer, read off the list the accounts were made from. */
  lemma AdministratorsExactly(m: Accounts, entries: seq<AdminEntry>, g: Engine)
    requires HoldsAdmin(m, entries, g)
    ensures LiveAdministrator(m) <==> entries == [] || ListsAdministrator(entries, g)
    ensures DefaultLogin(m) <==> entries == []
  {
    hide DecodeVerifier;
    if entries == [] {
      assert m["admin"].BuiltIn?;
    } else {
      if ListsAdministrator(entries, g) {
        var i :| 0 <= i < |entries| && entries[i].role == "administrator" && AccountOf(entries[i], g).Usable?;
        assert m[entries[i].username].entry == entries[i];
      }
      forall name | name in m
        ensures !m[name].BuiltIn?
        ensures m[name].Usable? && m[name].entry.role == "administrator" ==> ListsAdministrator(entries, g)
      {
        var i :| 0 <= i < |entries| && entries[i].username == name;
        assert m[name] == AccountOf(entries[i], g);
      }
    }
  }

  ghost predicate HasAccount(entries: seq<AdminEntry>, name: string, a: Account, g: Engine) {
    exists j :: 0 <= j < |entries| && entries[j].username == name && AccountOf(entries[j], g) == a
  }

  ghost predicate AccountsIn(entries: seq<AdminEntry>, others: seq<AdminEntry>, g: Engine) {
    forall i :: 0 <= i < |entries| ==> HasAccount(others, entries[i].username, AccountOf(entries[i], g), g)
  }

  /** Two lists make the same accounts. */
  ghost predicate SameAccounts(entries: seq<AdminEntry>, others: seq<AdminEntry>, g: Engine) {
    (entries == [] <==> others == []) && AccountsIn(entries, others, g) && AccountsIn(others, entries, g)
  }

  lemma SameAdminExactly(m: Accounts, entries: seq<AdminEntry>, k: Accounts, others: seq<AdminEntry>, g: Engine)
    requires HoldsAdmin(m, entries, g) && HoldsAdmin(k, others, g)
    ensures m == k <==> SameAccounts(entries, others, g)
  {
    hide AccountOf;
    if entries == [] && others == [] {
    } else if entries == [] || others == [] {
      BuiltInDiffers(m, entries, k, others, g);
    } else {
      if m == k {
        AccountsFound(m, entries, others, g);
        AccountsFound(m, others, entries, g);
      }
      if SameAccounts(entries, others, g) {
        AccountsEqual(m, entries, k, others, g);
        AccountsEqual(k, others, m, entries, g);
        assert m == k;
      }
    }
  }

  lemma BuiltInDiffers(m: Accounts, entries: seq<AdminEntry>, k: Accounts, others: seq<AdminEntry>, g: Engine)
    requires HoldsAdmin(m, entries, g) && HoldsAdmin(k, others, g) && (entries == [] <==> others != [])
    ensures m != k
  {
    hide HoldsAdmin, LiveAdministrator;
    AdministratorsExactly(m, entries, g);
    AdministratorsExactly(k, others, g);
  }

  lemma AccountsFound(m: Accounts, entries: seq<AdminEntry>, others: seq<AdminEntry>, g: Engine)
    requires HoldsAccounts(m, entries, g) && HoldsAccounts(m, others, g)
    ensures AccountsIn(entries, others, g)
  {
    hide AccountOf;
    forall i | 0 <= i < |entries| ensures HasAccount(others, entries[i].username, AccountOf(entries[i], g), g) {
      assert entries[i].username in m;
      var j :| 0 <= j < |others| && others[j].username == entries[i].username;
    }
  }

  lemma AccountsEqual(m: Accounts, entries: seq<AdminEntry>, k: Accounts, others: seq<AdminEntry>, g: Engine)
    requires HoldsAccounts(m, entries, g) && HoldsAccounts(k, others, g) && AccountsIn(entries, others, g)
    ensures forall name :: name in m ==> name in k && k[name] == m[name]
  {
    hide AccountOf;
    forall name | name in m ensures name in k && k[name] == m[name] {
      var i :| 0 <= i < |entries| && entries[i].username == name;
      assert HasAccount(others, entries[i].username, AccountOf(entries[i], g), g);
    }
  }
}
