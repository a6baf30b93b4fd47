/** Reloads and restores at real inputs whose outcome is not the promised one; the engine is any. */
module ReloadCases {
  import opened Prelude
  import opened Text
  import opened Config
  import opened SecretWalk
  import opened ConnectorLive
  import opened Validation
  import opened RuleSql
  import opened Credentials
  import opened Owners
  import opened Reload
  import AdminStore
  import Chain
  import Provenance

  // ---------------------------------------------------------------------
  // A small broker.
  // ---------------------------------------------------------------------

  function Admin(hash: string): AdminEntry {
    AdminEntry("root", hash, "administrator", "", false)
  }

  function Viewer(hash: string): AdminEntry {
    AdminEntry("root", hash, "viewer", "", false)
  }

  const GOOD: RuleEntry := RuleEntry("r", "a", None, true, [Log])

  /** A `#` that is not a level of its own: the engine refuses the filter. */
  const BAD: RuleEntry := RuleEntry("r", "a#", None, true, [Log])

  /** The filter `é#`. */
  const ACCENTED: RuleEntry := RuleEntry("r", "\U{E9}#", None, true, [Log])

  /** The statement `SELECT Gefäß FROM t`: four octets after the `f` lie inside the last letter of the name. */
  const STATEMENT: string := "SELECT Gef\U{E4}\U{DF} FROM t"
  const SPLIT_WORD: RuleEntry := RuleEntry("r", "a", Some(STATEMENT), true, [Log])

  const OLD_USER: MqttUser := MqttUser("ann", "h1", None)
  const NEW_USER: MqttUser := MqttUser("bob", "h2", None)
  const SECRET_USER: MqttUser := MqttUser("ann", "env:A", None)

  const CONNECTOR: ConnectorEntry := ConnectorEntry("c", "console", true, "")

  /** No reference resolves. */
  const NOTHING: Secrets := Secrets((s: string) => None, (o: seq<byte>) => None, (s: string) => None)

  /** Every reference resolves to one octet. */
  const SOMETHING: Secrets := Secrets((s: string) => Some([7]), (o: seq<byte>) => None, (s: string) => None)

  function Around(w: Secrets, restored: Secrets, g: Engine, stateWrites: bool, historyWrites: bool): Env {
    Env(w, w, w, restored, g, FixedWorld(0), stateWrites, historyWrites)
  }

  function Registered(s: FullSnapshot): Provenance.Registry {
    Provenance.CommitRoot(Provenance.Boot(EMPTY), s)
  }

  /** A broker that runs `s` after one commit since its start, with every owner loaded from it. */
  function Running(s: FullSnapshot, w: Secrets, g: Engine): Node {
    Node(
      ApplyAuth(Auth(map[], []), s, w, g).0,
      ApplyRules(map[], s, g).0,
      ApplyAdmin(map[], s, g).0,
      map[],
      [],
      s.nodeCache,
      s.settings,
      Registered(s),
      s)
  }

  lemma RunningParts(s: FullSnapshot, w: Secrets, g: Engine)
    ensures var n := Running(s, w, g);
            && n.registry.current == s && n.stateFile == s && n.registry == Registered(s)
            && n.rules == ApplyRules(map[], s, g).0
            && n.chain == [] && n.nodeCache == s.nodeCache && n.settings == s.settings
  {
    hide ApplyAuth, ApplyRules, ApplyAdmin;
  }

  /** A snapshot of at most one user, rule, account and connector, as the cases below use them. */
  predicate Small(s: FullSnapshot) {
    && s.acls == [] && (s.connectors == [] || s.connectors == [CONNECTOR])
    && |s.mqttUsers| <= 1 && (s.mqttUsers != [] ==> s.mqttUsers[0] in [OLD_USER, NEW_USER, SECRET_USER])
    && |s.rules| <= 1 && (s.rules != [] ==> s.rules[0] in [GOOD, BAD, ACCENTED, SPLIT_WORD])
    && |s.adminUsers| <= 1
    && (s.adminUsers != [] ==>
         var e := s.adminUsers[0];
         e.passwordHash != "" && (e == Admin(e.passwordHash) || e == Viewer(e.passwordHash)))
  }

  lemma NamesNotBlank()
    ensures !Blank("root") && !Blank("r") && !Blank("a") && !Blank("a#") && !Blank("\U{E9}#")
    ensures !Blank("ann") && !Blank("bob") && !Blank("c") && !Blank("console") && !Blank(STATEMENT)
  {
    TrimFixed("root");
    TrimFixed("r");
    TrimFixed("a");
    TrimFixed("a#");
    TrimFixed("\U{E9}#");
    TrimFixed("ann");
    TrimFixed("bob");
    TrimFixed("c");
    TrimFixed("console");
    TrimFixed(STATEMENT);
  }

  lemma SmallValid(s: FullSnapshot, w: Secrets)
    requires Small(s)
    ensures WholeOk(s, w) <==> SecretsResolve(s.mqttUsers, w)
    ensures MqttOk(s.mqttUsers, s.acls) && RulesOk(s.rules)
    ensures AdminStore.RootOk(s.adminUsers) && ConnectorsOk(s.connectors)
  {
    hide WholeOk, SecretsResolve;
    SmallUsers(s);
    SmallRules(s);
    SmallAdmin(s);
    SmallConnectors(s);
    SmallForwards(s, w);
  }

  lemma SmallUsers(s: FullSnapshot)
    requires Small(s)
    ensures MqttOk(s.mqttUsers, s.acls)
  {
    hide Blank, AsciiLower;
    NamesNotBlank();
  }

  lemma SmallRules(s: FullSnapshot)
    requires Small(s)
    ensures RulesOk(s.rules)
  {
    hide Blank;
    NamesNotBlank();
  }

  lemma SmallAdmin(s: FullSnapshot)
    requires Small(s)
    ensures AdminStore.RootOk(s.adminUsers)
  {
    hide Blank;
    NamesNotBlank();
  }

  lemma SmallConnectors(s: FullSnapshot)
    requires Small(s)
    ensures ConnectorsOk(s.connectors)
  {
    hide Blank;
    NamesNotBlank();
    assert KNOWN_KINDS[10] == "console";
  }

  lemma SmallForwards(s: FullSnapshot, w: Secrets)
    requires Small(s) && MqttOk(s.mqttUsers, s.acls) && RulesOk(s.rules) && AdminStore.RootOk(s.adminUsers)
    requires ConnectorsOk(s.connectors)
    ensures WholeOk(s, w) <==> SecretsResolve(s.mqttUsers, w)
  {
    hide MqttOk, RulesOk, AdminStore.RootOk, ConnectorsOk, SecretsResolve;
  }

  lemma Loaded(s: FullSnapshot, w: Secrets, g: Engine)
    requires Small(s) && SecretsResolve(s.mqttUsers, w) && FirstBad(s.rules, g) == |s.rules|
    ensures Agreed(Running(s, w, g), w, g)
  {
    hide Logins, SecretsResolve, FirstBad, InsertRules, HoldsRules, MqttOk, RulesOk, AdminStore.RootOk, Compile,
         AccountsOf;
    SmallValid(s, w);
    AuthAcceptedExactly(Auth(map[], []), s, w, g);
    RulesAppliedExactly(map[], s, g);
  }

  lemma AlwaysReady(s: FullSnapshot, c: FullSnapshot, held: Secrets, env: Env)
    requires Small(s) && Small(c) && s.connectors == []
    requires SecretsResolve(s.mqttUsers, held) && FirstBad(s.rules, env.engine) == |s.rules|
    ensures Ready(Running(s, held, env.engine), c, held, env)
  {
    hide Agreed, SecretsResolve, FirstBad, Compile, MqttOk, RulesOk, AdminStore.RootOk, ConnectorsOk;
    Loaded(s, held, env.engine);
    SmallValid(s, held);
    assert KeysApart(s.connectors, c.connectors) by {
      assert forall x, y :: x in s.connectors + c.connectors && y in s.connectors + c.connectors ==> x.id == y.id;
    }
  }

  lemma NothingBreaks(c: FullSnapshot, s: FullSnapshot, g: Engine)
    requires c.connectors == []
    ensures FirstBreak(c.connectors, s.connectors, FixedWorld(0)) == 0
  {
  }

  lemma NoReferences(users: seq<MqttUser>, w: Secrets)
    requires users == [] || users == [OLD_USER] || users == [NEW_USER]
    ensures SecretsResolve(users, w)
  {
    hide Trim;
    assert Trim("h1") == "h1" && Trim("h2") == "h2" by { TrimFixed("h1"); TrimFixed("h2"); }
  }

  lemma RulesTaken(g: Engine)
    ensures Compile(GOOD, g.language) == Runs(GOOD)
    ensures Compile(BAD, g.language) == Refused
    ensures Compile(ACCENTED, g.language) == Panics
    ensures FirstBad([], g) == 0 && FirstBad([GOOD], g) == 1 && FirstBad([BAD], g) == 0 && FirstBad([ACCENTED], g) == 0
  {
    assert BAD.topicFilter[1] == '#';
  }

  // ---------------------------------------------------------------------
  // Rules, files and credentials.
  // ---------------------------------------------------------------------

  const WITH_GOOD: FullSnapshot := EMPTY.(rules := [GOOD])
  const WITH_BAD: FullSnapshot := EMPTY.(rules := [BAD])

  /** A running rule; a candidate whose only filter is `a#` is refused and leaves the engine with no rules. */
  lemma RulesNotPutBack(g: Engine)
    ensures var n := Running(WITH_GOOD, NOTHING, g);
            var (m, reply) := ApplyCandidate(n, WITH_BAD, Around(NOTHING, NOTHING, g, true, true));
            && Agreed(n, NOTHING, g) && n.rules == map["r" := GOOD]
            && reply == RulesRefused && m.rules == map[] && m.registry.current == WITH_GOOD
  {
    hide ApplyCandidate, ApplyOwners, Agreed, FirstBad, SecretsResolve, WholeOk, Compile, Running, MqttOk, RulesOk,
         AdminStore.RootOk, ConnectorsOk;
    var n, env := Running(WITH_GOOD, NOTHING, g), Around(NOTHING, NOTHING, g, true, true);
    RunningParts(WITH_GOOD, NOTHING, g);
    RulesTaken(g);
    NoReferences([], NOTHING);
    SmallValid(WITH_BAD, NOTHING);
    Loaded(WITH_GOOD, NOTHING, g);
    RefusedLeavesNone(n, WITH_BAD, NOTHING, env);
    GoodTable(WITH_GOOD, g);
  }

  lemma GoodTable(s: FullSnapshot, g: Engine)
    requires Small(s) && s.rules == [GOOD]
    ensures ApplyRules(map[], s, g).0 == map["r" := GOOD]
  {
    hide RulesOk, Compile;
    SmallValid(s, NOTHING);
    RulesTaken(g);
    assert s.rules[0] == GOOD && s.rules[1..] == [];
    var none: RuleTable := map[];
    assert InsertRules(none, s.rules, g) == InsertRules(none["r" := GOOD], [], g);
  }

  /** A candidate whose first rule is refused leaves the engine with no rules. */
  lemma RefusedLeavesNone(n: Node, c: FullSnapshot, held: Secrets, env: Env)
    requires WholeOk(c, env.checked) && Agreed(n, held, env.engine) && c.adminUsers == n.registry.current.adminUsers
    requires PassesAuth(c, env) && c.rules != [] && Compile(c.rules[0], env.engine.language) == Refused
    ensures var (m, reply) := ApplyCandidate(n, c, env);
            reply == RulesRefused && m.rules == map[] && m.registry.current == n.registry.current
  {
    hide WholeOk, Agreed, ApplyAuth, SecretsResolve, Compile, ApplyLive, Undo, CommitWhole, HoldsAuth, HoldsAdmin,
         InsertRules, RulesOk, FirstBreak, StoppedAt;
    assert RulesStop(c, env) == 0;
    OwnersReplies(n, c, held, env, true);
    RulesLeft(n, c, held, env);
    assert c.rules[..0] == [];
    EmptyTable(ApplyRules(n.rules, c, env.engine).0, env.engine);
  }

  lemma EmptyTable(t: RuleTable, g: Engine)
    requires HoldsRules(t, [], g)
    ensures t == map[]
  {
  }

  /** The history file cannot be written: the commit fails, and the state file is already the candidate. */
  lemma StateFileReplaced(g: Engine)
    ensures var n := Running(EMPTY, NOTHING, g);
            var (m, reply) := ApplyCandidate(n, WITH_GOOD, Around(NOTHING, NOTHING, g, true, false));
            && Agreed(n, NOTHING, g) && n.stateFile == EMPTY
            && reply == CommitFailed && m.registry.current == EMPTY && m.stateFile == WITH_GOOD
  {
    hide ApplyOwners, Agreed, FirstBad, SecretsResolve, AuthBack, RulesBack, Undo, ApplyLive, SomeEntryLeaks, Compile,
         WholeOk, AccountsOf, Running, FirstBreak, MqttOk, RulesOk, AdminStore.RootOk, ConnectorsOk;
    var n, env := Running(EMPTY, NOTHING, g), Around(NOTHING, NOTHING, g, true, false);
    RunningParts(EMPTY, NOTHING, g);
    NothingBreaks(WITH_GOOD, EMPTY, g);
    RulesTaken(g);
    NoReferences([], NOTHING);
    SmallValid(WITH_GOOD, NOTHING);
    Loaded(EMPTY, NOTHING, g);
    AlwaysReady(EMPTY, WITH_GOOD, NOTHING, env);
    ReloadExactly(n, WITH_GOOD, NOTHING, env);
    OwnersReplies(n, WITH_GOOD, NOTHING, env, true);
    WrittenFile(n, WITH_GOOD, NOTHING, env);
  }

  /** A commit that fails after the first file leaves that file at the candidate. */
  lemma WrittenFile(n: Node, c: FullSnapshot, held: Secrets, env: Env)
    requires WholeOk(c, env.checked) && Agreed(n, held, env.engine) && WritesState(n, c, env) && !env.historyWrites
    ensures ApplyOwners(n, c, env, true).0.stateFile == c
  {
    hide ApplyLive, Undo, PendingLive, WholeOk, ApplyAuth, ApplyRules, FirstBad, Compile, SecretsResolve, AccountsOf,
         HoldsRules, Provenance.CommitWhole, FirstBreak, StoppedAt;
    ValidatedRoots(c, env.checked);
    AuthAcceptedExactly(n.auth, c, env.applied, env.engine);
    RulesAppliedExactly(n.rules, c, env.engine);
    ReapplyRules(n.rules, ApplyRules(n.rules, c, env.engine).0, n.registry.current, env.engine);
    WholeOkLater(c, env.checked, env.committed);
  }

  const WITH_SECRET: FullSnapshot := EMPTY.(mqttUsers := [SECRET_USER])
  const WITHOUT_SECRET: FullSnapshot := EMPTY.(mqttUsers := [NEW_USER])

  /** The previous user's secret is gone when a failed commit is rolled back: the candidate's credentials stay. */
  lemma CredentialsNotPutBack(g: Engine)
    ensures var n := Running(WITH_SECRET, SOMETHING, g);
            var (m, reply) := ApplyCandidate(n, WITHOUT_SECRET, Around(SOMETHING, NOTHING, g, true, false));
            && Agreed(n, SOMETHING, g)
            && reply == CommitFailed && m.registry.current == WITH_SECRET && m.auth != n.auth
  {
    hide ApplyOwners, Agreed, FirstBad, WholeOk, RulesBack, Undo, ApplyLive, SomeEntryLeaks, SecretsResolve,
         SameLogins, SameSecrets, Compile, AccountsOf, Running, FirstBreak, Trim, MqttOk, RulesOk, AdminStore.RootOk,
         ConnectorsOk;
    var n, env := Running(WITH_SECRET, SOMETHING, g), Around(SOMETHING, NOTHING, g, true, false);
    RunningParts(WITH_SECRET, SOMETHING, g);
    NothingBreaks(WITHOUT_SECRET, WITH_SECRET, g);
    RulesTaken(g);
    SecretOfAnn();
    NoReferences([NEW_USER], SOMETHING);
    SmallValid(WITHOUT_SECRET, SOMETHING);
    Loaded(WITH_SECRET, SOMETHING, g);
    AlwaysReady(WITH_SECRET, WITHOUT_SECRET, SOMETHING, env);
    ReloadExactly(n, WITHOUT_SECRET, SOMETHING, env);
    OwnersReplies(n, WITHOUT_SECRET, SOMETHING, env, true);
    OtherLogins(g);
  }

  lemma SecretOfAnn()
    ensures SecretsResolve([SECRET_USER], SOMETHING) && !SecretsResolve([SECRET_USER], NOTHING)
  {
    TrimFixed("env:A");
    assert IsSecretRef("env:A") && !Bare("env:A");
    assert [SECRET_USER][0].passwordHash == "env:A";
    assert !Resolvable("env:A", NOTHING);
  }

  lemma OtherLogins(g: Engine)
    ensures !SameLogins(WITHOUT_SECRET, SOMETHING, WITH_SECRET, SOMETHING, g)
  {
    hide CredentialOf;
    var users := WITHOUT_SECRET.mqttUsers;
    assert users[0].username == "bob" && WITH_SECRET.mqttUsers[0].username == "ann";
    assert !HasLogin(WITH_SECRET.mqttUsers, SOMETHING, users[0].username, CredentialOf(users[0], SOMETHING, g), g);
  }

  // ---------------------------------------------------------------------
  // Administrators.
  // ---------------------------------------------------------------------

  /** A running administrator with any verifier that can be stored. */
  function WithAdmin(v: Verifier, g: Engine): FullSnapshot {
    EMPTY.(adminUsers := [Admin(EncodeVerifier(v, g.base64))])
  }

  lemma AdminUsable(v: Verifier, g: Engine)
    requires RoundTrips(g.base64) && Storable(v)
    ensures Small(WithAdmin(v, g)) && ListsAdministrator(WithAdmin(v, g).adminUsers, g)
  {
    hide DecodeVerifier, Storable;
    VerifierRoundTrip(v, g.base64);
    var entries := WithAdmin(v, g).adminUsers;
    assert entries[0] == Admin(EncodeVerifier(v, g.base64)) && AccountOf(entries[0], g).Usable?;
  }

  /**
   * The start of the two cases below: an installation with a usable administrator, and a candidate that is
   * accepted.
   */
  lemma AdminReplaced(v: Verifier, c: FullSnapshot, g: Engine)
    requires RoundTrips(g.base64) && Storable(v)
    requires Small(c) && c == EMPTY.(adminUsers := c.adminUsers) && c.adminUsers != []
    ensures var n := Running(WithAdmin(v, g), NOTHING, g);
            var (m, reply) := ApplyCandidate(n, c, Around(NOTHING, NOTHING, g, true, true));
            && Agreed(n, NOTHING, g) && LiveAdministrator(n.admin) && reply.Reloaded?
            && (LiveAdministrator(m.admin) <==> ListsAdministrator(c.adminUsers, g))
  {
    hide ApplyCandidate, Agreed, FirstBad, SecretsResolve, WholeOk, LiveAdministrator, ApplyAdmin, DefaultLogin,
         HoldsAdmin, HoldsRules, HoldsAuth, ApplyAuth, ApplyRules, ListsAdministrator, RoundTrips, Storable,
         EncodeVerifier, Compile, Running, FirstBreak, MqttOk, RulesOk, AdminStore.RootOk, ConnectorsOk;
    var s := WithAdmin(v, g);
    var n, env := Running(s, NOTHING, g), Around(NOTHING, NOTHING, g, true, true);
    RunningParts(s, NOTHING, g);
    NothingBreaks(c, s, g);
    AdminUsable(v, g);
    RulesTaken(g);
    NoReferences([], NOTHING);
    SmallValid(c, NOTHING);
    Loaded(s, NOTHING, g);
    AlwaysReady(s, c, NOTHING, env);
    ReloadExactly(n, c, NOTHING, env);
    AdministratorAfterReload(n, c, NOTHING, env);
    AgreedHolds(n, NOTHING, g);
    AdministratorsExactly(n.admin, s.adminUsers, g);
  }

  /** A candidate that lists a viewer only passes validation and the guard, and leaves nobody who can administer. */
  lemma ViewerOnlyReload(v: Verifier, g: Engine)
    requires RoundTrips(g.base64) && Storable(v)
    ensures var n := Running(WithAdmin(v, g), NOTHING, g);
            var c := EMPTY.(adminUsers := [Viewer(EncodeVerifier(v, g.base64))]);
            var (m, reply) := ApplyCandidate(n, c, Around(NOTHING, NOTHING, g, true, true));
            LiveAdministrator(n.admin) && reply.Reloaded? && !LiveAdministrator(m.admin)
  {
    hide ApplyCandidate, Running, LiveAdministrator, RoundTrips, Storable, WithAdmin, Agreed, AccountOf;
    var c := EMPTY.(adminUsers := [Viewer(EncodeVerifier(v, g.base64))]);
    AdminReplaced(v, c, g);
    assert c.adminUsers[0].role == "viewer";
  }

  const LOCKED_OUT: FullSnapshot := EMPTY.(adminUsers := [Admin("x")])

  /** So does one whose only administrator has a verifier text that does not decode. */
  lemma LockedOnlyReload(v: Verifier, g: Engine)
    requires RoundTrips(g.base64) && Storable(v)
    ensures var n := Running(WithAdmin(v, g), NOTHING, g);
            var (m, reply) := ApplyCandidate(n, LOCKED_OUT, Around(NOTHING, NOTHING, g, true, true));
            LiveAdministrator(n.admin) && reply.Reloaded? && !LiveAdministrator(m.admin)
  {
    hide ApplyCandidate, Running, LiveAdministrator, RoundTrips, Storable, WithAdmin, Agreed;
    AdminReplaced(v, LOCKED_OUT, g);
    assert DecodeVerifier("x", g.base64) == None;
    assert LOCKED_OUT.adminUsers[0] == Admin("x");
  }

  const WITH_ADMIN: FullSnapshot := LOCKED_OUT

  /** Restoring the version of the first start, which lists nobody, opens the default account of an installation. */
  lemma RestoreOpensDefault(g: Engine)
    ensures var n := Running(WITH_ADMIN, NOTHING, g);
            var (m, reply) := ApplyRestore(n, 0, Around(NOTHING, NOTHING, g, true, true));
            && Agreed(n, NOTHING, g) && !DefaultLogin(n.admin) && reply.Reloaded? && DefaultLogin(m.admin)
    ensures ApplyCandidate(Running(WITH_ADMIN, NOTHING, g), EMPTY, Around(NOTHING, NOTHING, g, true, true)).1 ==
            NoAdministrator
  {
    hide ApplyOwners, Agreed, FirstBad, SecretsResolve, WholeOk, LiveAdministrator, ApplyAdmin, DefaultLogin,
         HoldsAdmin, HoldsRules, HoldsAuth, ApplyAuth, ApplyRules, Provenance.DiffRows, ApplyRestore,
         Compile, ListsAdministrator, Running, FirstBreak, MqttOk, RulesOk, AdminStore.RootOk, ConnectorsOk;
    var n, env := Running(WITH_ADMIN, NOTHING, g), Around(NOTHING, NOTHING, g, true, true);
    RunningParts(WITH_ADMIN, NOTHING, g);
    NothingBreaks(EMPTY, WITH_ADMIN, g);
    RulesTaken(g);
    NoReferences([], NOTHING);
    SmallValid(EMPTY, NOTHING);
    Loaded(WITH_ADMIN, NOTHING, g);
    assert n.registry.versions[0] == Provenance.Version(0, {}, EMPTY);
    AlwaysReady(WITH_ADMIN, EMPTY, NOTHING, env);
    RestoreExactly(n, 0, NOTHING, env);
    AdministratorAfterRestore(n, 0, NOTHING, env);
    AgreedHolds(n, NOTHING, g);
    AdministratorsExactly(n.admin, WITH_ADMIN.adminUsers, g);
  }

  // ---------------------------------------------------------------------
  // Requests that do not come back.
  // ---------------------------------------------------------------------

  const BEFORE: FullSnapshot := EMPTY.(mqttUsers := [OLD_USER], rules := [GOOD])

  function Panicking(r: RuleEntry): FullSnapshot {
    EMPTY.(mqttUsers := [NEW_USER], rules := [r])
  }

  /**
   * A validated candidate with a panicking rule: the request unwinds with the new credentials in place, the
   * rules cleared and the previous snapshot still running. Nothing is put back.
   */
  lemma HalfApplied(r: RuleEntry, g: Engine)
    requires r in [ACCENTED, SPLIT_WORD] && Compile(r, g.language).Panics?
    ensures var n := Running(BEFORE, NOTHING, g);
            var c := Panicking(r);
            var (m, reply) := ApplyCandidate(n, c, Around(NOTHING, NOTHING, g, true, true));
            && WholeOk(c, NOTHING) && Agreed(n, NOTHING, g)
            && reply == NoReply && m.registry.current == BEFORE
            && HoldsAuth(m.auth, c, NOTHING, g) && m.auth != n.auth
            && m.rules == map[] && n.rules == map["r" := GOOD]
  {
    hide Agreed, SecretsResolve, WholeOk, HoldsAuth, HoldsRules, HoldsAdmin, ApplyRules, Compile, Running,
         ApplyCandidate, MqttOk, RulesOk, AdminStore.RootOk, ConnectorsOk;
    var n, c, env := Running(BEFORE, NOTHING, g), Panicking(r), Around(NOTHING, NOTHING, g, true, true);
    RunningParts(BEFORE, NOTHING, g);
    RulesTaken(g);
    NoReferences([OLD_USER], NOTHING);
    NoReferences([NEW_USER], NOTHING);
    SmallValid(c, NOTHING);
    Loaded(BEFORE, NOTHING, g);
    assert c.rules[0] == r;
    PanickedFirst(n, c, NOTHING, env);
    AgreedHolds(n, NOTHING, g);
    OtherUser(n.auth, ApplyCandidate(n, c, env).0.auth, c, g);
    GoodTable(BEFORE, g);
  }

  /** A candidate whose first rule panics, in any broker. */
  lemma PanickedFirst(n: Node, c: FullSnapshot, held: Secrets, env: Env)
    requires WholeOk(c, env.checked) && Agreed(n, held, env.engine) && c.adminUsers == n.registry.current.adminUsers
    requires PassesAuth(c, env) && c.rules != [] && Compile(c.rules[0], env.engine.language).Panics?
    ensures var (m, reply) := ApplyCandidate(n, c, env);
            && reply == NoReply && m.registry == n.registry && m.rules == map[]
            && HoldsAuth(m.auth, c, env.applied, env.engine)
  {
    hide Agreed, SecretsResolve, WholeOk, HoldsAuth, HoldsRules, HoldsAdmin, ApplyAuth, ApplyLive, Undo, CommitWhole,
         ApplyAdmin, ApplyRules, Compile, FirstBreak, StoppedAt;
    assert RulesStop(c, env) == 0;
    ValidatedRoots(c, env.checked);
    OwnersReplies(n, c, held, env, true);
    AuthAcceptedExactly(n.auth, c, env.applied, env.engine);
    AuthHolds(n.auth, c, env.applied, env.engine);
    RulesAppliedExactly(n.rules, c, env.engine);
    RulesLeft(n, c, held, env);
    assert c.rules[..0] == [];
    EmptyTable(ApplyRules(n.rules, c, env.engine).0, env.engine);
  }

  lemma OtherUser(a: Auth, b: Auth, c: FullSnapshot, g: Engine)
    requires HoldsAuth(a, BEFORE, NOTHING, g) && c.mqttUsers == [NEW_USER] && HoldsAuth(b, c, NOTHING, g)
    ensures a != b
  {
    hide CredentialOf;
    assert BEFORE.mqttUsers[0].username == "ann" && c.mqttUsers[0].username == "bob";
    assert "ann" in a.users && "ann" !in b.users;
  }

  /** The filter `é#` does it. */
  lemma AccentedFilter(g: Engine)
    ensures var env := Around(NOTHING, NOTHING, g, true, true);
            ApplyCandidate(Running(BEFORE, NOTHING, g), Panicking(ACCENTED), env).1 == NoReply
  {
    hide ApplyCandidate, Running, Compile;
    RulesTaken(g);
    HalfApplied(ACCENTED, g);
  }

  /** So does the statement `SELECT Gefäß FROM t`, whatever the SQL parser would say. */
  lemma SplitWord(g: Engine)
    ensures Compile(SPLIT_WORD, g.language).Panics?
    ensures var env := Around(NOTHING, NOTHING, g, true, true);
            ApplyCandidate(Running(BEFORE, NOTHING, g), Panicking(SPLIT_WORD), env).1 == NoReply
  {
    hide ApplyCandidate, Running, Find, CutsInside;
    NoInto(g.language, 0);
    CutAtF();
    FirstCut(g.language);
    HalfApplied(SPLIT_WORD, g);
  }

  lemma {:induction false} NoInto(l: Language, i: nat)
    requires i <= |STATEMENT|
    ensures Find(STATEMENT, Into, i, l) == Absent
    decreases |STATEMENT| - i
  {
    hide CutsInside, Word, ScanAt;
    if i < |STATEMENT| {
      assert STATEMENT[i] != 'i' && STATEMENT[i] != 'I';
      NoInto(l, i + 1);
    }
  }

  lemma CutAtF()
    ensures CutsInside(STATEMENT, 9)
  {
    var s := STATEMENT;
    assert s[9] == 'f' && s[10] == '\U{E4}' && s[11] == '\U{DF}' && s[12] == ' ';
    assert s[9..10] == ['f'] && s[9..11] == ['f', '\U{E4}'] && s[9..12] == ['f', '\U{E4}', '\U{DF}'];
    assert s[9..13] == ['f', '\U{E4}', '\U{DF}', ' '];
    assert s[9..][1..] == s[10..] && s[10..][1..] == s[11..] && s[11..][1..] == s[12..];
    Lengths('f', '\U{E4}', '\U{DF}', ' ');
    assert ByteLen(s[9..]) == 1 + ByteLen(s[10..]) && ByteLen(s[10..]) == 2 + ByteLen(s[11..]) && ByteLen(s[11..]) >= 2;
    forall j | 9 < j <= |s| && j <= 13 ensures ByteLen(s[9..j]) != 4 {
      assert j == 10 || j == 11 || j == 12 || j == 13;
    }
  }

  lemma Lengths(a: char, b: char, c: char, d: char)
    ensures ByteLen([a]) == CharBytes(a) && ByteLen([a, b]) == CharBytes(a) + CharBytes(b)
    ensures ByteLen([a, b, c]) == CharBytes(a) + CharBytes(b) + CharBytes(c)
    ensures ByteLen([a, b, c, d]) == CharBytes(a) + CharBytes(b) + CharBytes(c) + CharBytes(d)
  {
    hide CharBytes, ByteLen;
    assert [a] + [] == [a] && [b] + [] == [b] && [c] + [] == [c] && [d] + [] == [d];
    assert [a] + [b] == [a, b] && [b] + [c] == [b, c] && [c] + [d] == [c, d];
    assert [a] + [b, c] == [a, b, c] && [b] + [c, d] == [b, c, d] && [a] + [b, c, d] == [a, b, c, d];
    OneMore(d, []);
    OneMore(c, []);
    OneMore(b, []);
    OneMore(a, []);
    OneMore(a, [b]);
    OneMore(b, [c]);
    OneMore(a, [b, c]);
    OneMore(c, [d]);
    OneMore(b, [c, d]);
    OneMore(a, [b, c, d]);
  }

  lemma OneMore(c: char, s: string)
    ensures ByteLen([c] + s) == CharBytes(c) + ByteLen(s) && ByteLen([]) == 0
  {
    assert ([c] + s)[1..] == s;
  }

  lemma FirstCut(l: Language)
    requires CutsInside(STATEMENT, 9)
    ensures Find(STATEMENT, From, 0, l) == Cut
  {
    hide CutsInside, Word, Find;
    CutExactly(STATEMENT, From, 0, l);
    assert STATEMENT[9] == 'f';
    forall j | 0 <= j < 9 ensures !Spot(STATEMENT, j, From) {
      assert STATEMENT[j] != 'f' && STATEMENT[j] != 'F';
    }
  }

  const WITH_CONNECTOR: FullSnapshot := EMPTY.(mqttUsers := [NEW_USER], connectors := [CONNECTOR])

  /** A world in which the connector's constructor does not come back. */
  function Breaking(g: Engine): Env {
    var env := Around(NOTHING, NOTHING, g, true, true);
    env.(world := env.world.(breaks := (kind: string, id: string, params: Json) => true))
  }

  lemma ConnectorBreaks(g: Engine)
    ensures FirstBreak(WITH_CONNECTOR.connectors, BEFORE.connectors, Breaking(g).world) == 0
  {
    assert Trim("") == "";
    assert Breaks(CONNECTOR, [], Breaking(g).world);
    assert WITH_CONNECTOR.connectors[0] == CONNECTOR;
  }

  /** A connector that does not come back: the credentials are the candidate's, the registry is not. */
  lemma AbandonedAtConnector(g: Engine)
    ensures var n := Running(BEFORE, NOTHING, g);
            var (m, reply) := ApplyCandidate(n, WITH_CONNECTOR, Breaking(g));
            && Agreed(n, NOTHING, g)
            && reply == NoReply && m.registry == n.registry
            && HoldsAuth(m.auth, WITH_CONNECTOR, NOTHING, g) && m.auth != n.auth
  {
    hide ApplyOwners, Agreed, FirstBad, SecretsResolve, WholeOk, Compile, HoldsAuth, HoldsRules, HoldsAdmin,
         StoppedAt, Running, FirstBreak, Installed, RolledBack, Ready, MqttOk, RulesOk, AdminStore.RootOk,
         ConnectorsOk;
    var n, c, env := Running(BEFORE, NOTHING, g), WITH_CONNECTOR, Breaking(g);
    RunningParts(BEFORE, NOTHING, g);
    RulesTaken(g);
    NoReferences([OLD_USER], NOTHING);
    NoReferences([NEW_USER], NOTHING);
    SmallValid(c, NOTHING);
    Loaded(BEFORE, NOTHING, g);
    ConnectorBreaks(g);
    AlwaysReady(BEFORE, c, NOTHING, env);
    ReloadExactly(n, c, NOTHING, env);
    OwnersReplies(n, c, NOTHING, env, true);
    AgreedHolds(n, NOTHING, g);
    OtherUser(n.auth, ApplyCandidate(n, c, env).0.auth, c, g);
  }

  // ---------------------------------------------------------------------
  // Roots that a reload does not load.
  // ---------------------------------------------------------------------

  const WITH_CHAIN: FullSnapshot :=
    EMPTY.(authnChain :=
      [ChainEntry("password_based:built_in_database", "password_based", "built_in_database", true, "")])

  /** A reload that adds the first authenticator: it is in the registry and not in the live chain. */
  lemma ChainNotLoaded(g: Engine, codec: Chain.Codec)
    ensures var n := Running(EMPTY, NOTHING, g);
            var (m, reply) := ApplyCandidate(n, WITH_CHAIN, Around(NOTHING, NOTHING, g, true, true));
            UnlistedAgree(n, codec) && reply.Reloaded? && !UnlistedAgree(m, codec)
  {
    hide ApplyCandidate, Agreed, FirstBad, SecretsResolve, WholeOk, Compile, ApplyAuth, ApplyRules, ApplyAdmin,
         Running, FirstBreak, MqttOk, RulesOk, AdminStore.RootOk, ConnectorsOk;
    var n, c, env := Running(EMPTY, NOTHING, g), WITH_CHAIN, Around(NOTHING, NOTHING, g, true, true);
    RunningParts(EMPTY, NOTHING, g);
    NothingBreaks(c, EMPTY, g);
    RulesTaken(g);
    NoReferences([], NOTHING);
    SmallValid(c, NOTHING);
    Loaded(EMPTY, NOTHING, g);
    AlwaysReady(EMPTY, c, NOTHING, env);
    ReloadExactly(n, c, NOTHING, env);
    UnlistedAgreeExactly(n, c, NOTHING, env, codec);
    ChainLoads(codec);
  }

  lemma ChainLoads(codec: Chain.Codec)
    ensures Chain.Reload(WITH_CHAIN.authnChain, codec) != []
  {
    assert Trim("") == "";
  }
}
