/**
 * A reload or a restore: validate the candidate, apply it to the four live owners in order, commit it,
 * and on any failure put the owners back.
 */
module Reload {
  import opened Prelude
  import opened Text
  import opened Config
  import opened SecretWalk
  import opened ConnectorLive
  import opened Validation
  import opened Owners
  import opened RuleSql
  import AdminStore
  import Chain
  import Provenance

  /**
   * What a request meets outside: the secrets at four times (when the candidate is checked, applied and
   * committed, and when the previous root is applied again), the connector world, and whether files can be written.
   */
  datatype Env = Env(
    checked: Secrets,
    applied: Secrets,
    committed: Secrets,
    restored: Secrets,
    engine: Engine,
    world: World,
    stateWrites: bool,
    historyWrites: bool)

  /**
   * The broker: the owners that a reload applies to, the stores of the chain, the node cache and the settings,
   * which it does not touch, the registry and its state file.
   */
  datatype Node = Node(
    auth: Auth,
    rules: RuleTable,
    admin: Accounts,
    dir: Directory,
    chain: seq<Chain.Entry>,
    nodeCache: NodeCache,
    settings: Settings,
    registry: Provenance.Registry,
    stateFile: FullSnapshot)

  /** `NoReply`: the request did not come back. */
  datatype Reply =
    | Reloaded(version: nat, pending: seq<string>)
    | Invalid
    | NoAdministrator
    | AuthRefused
    | RulesRefused
    | AdminRefused
    | CommitFailed
    | NoSuchVersion
    | NoReply

  /**
   * The whole commit: validate again, reserve an id, write the state file, write the history file, and
   * only then change memory.
   */
  function CommitWhole(n: Node, next: FullSnapshot, env: Env): (Node, Option<nat>) {
    if !WholeOk(next, env.committed) then (n, None)
    else
      var id := n.registry.nextId;
      var reserved := n.(registry := n.registry.(nextId := id + 1));
      if !env.stateWrites then (reserved, None)
      else if !env.historyWrites then (reserved.(stateFile := next), None)
      else (n.(registry := Provenance.CommitWhole(n.registry, next), stateFile := next), Some(id))
  }

  /** After a failed reload the history is cut to its old length; the file is rewritten if that works. */
  function Truncated(n: Node, length: nat, env: Env): Node {
    var versions := n.registry.versions[..Min(|n.registry.versions|, length)];
    n.(registry := n.registry.(
      versions := versions,
      file := if env.historyWrites then Provenance.Reverse(versions) else n.registry.file))
  }

  /** The newest versions beyond the length go, the others stay, and the file lists them newest first. */
  lemma TruncatedExactly(n: Node, length: nat, env: Env)
    ensures var m := Truncated(n, length, env);
            && m.registry.versions <= n.registry.versions
            && |m.registry.versions| == (if |n.registry.versions| < length then |n.registry.versions| else length)
            && m == n.(registry := n.registry.(versions := m.registry.versions, file := m.registry.file))
            && m.registry.file ==
               if env.historyWrites then Provenance.Reverse(m.registry.versions) else n.registry.file
  {
  }

  /** The reload's last step on failure, which a restore does not have. */
  function Finished(n: Node, length: nat, env: Env, cut: bool): Node {
    if cut then Truncated(n, length, env) else n
  }

  /** Apply, commit and roll back. */
  function ApplyOwners(n: Node, candidate: FullSnapshot, env: Env, cut: bool): (Node, Reply) {
    var previous := n.registry.current;
    var length := |n.registry.versions|;
    var (auth1, authOk) := ApplyAuth(n.auth, candidate, env.applied, env.engine);
    if !authOk then (Finished(n.(auth := auth1), length, env, cut), AuthRefused)
    else
      var (rules1, ending) := ApplyRules(n.rules, candidate, env.engine);
      var auth2 := ApplyAuth(auth1, previous, env.restored, env.engine).0;
      if ending == Unwound then (n.(auth := auth1, rules := rules1), NoReply)
      else if ending == RefusedOne then (Finished(n.(auth := auth2, rules := rules1), length, env, cut), RulesRefused)
      else
        var (admin1, adminOk) := ApplyAdmin(n.admin, candidate, env.engine);
        var (rules2, back) := ApplyRules(rules1, previous, env.engine);
        if !adminOk then
          var m := n.(auth := auth2, rules := rules2, admin := admin1);
          if back == Unwound then (m, NoReply) else (Finished(m, length, env, cut), AdminRefused)
        else
          var applied := n.(auth := auth1, rules := rules1, admin := admin1);
          var k := BreakAt(n, candidate, env);
          if k < |candidate.connectors| then
            (applied.(dir := StoppedAt(n.dir, previous.connectors, candidate.connectors, k, env.world).dir), NoReply)
          else
            var live := ApplyLive(n.dir, previous.connectors, candidate.connectors, env.world);
            var (committed, version) := CommitWhole(applied.(dir := live.dir), candidate, env);
            match version
            case Some(id) => (committed, Reloaded(id, PendingLive(live)))
            case None =>
              var m := committed.(auth := auth2, rules := rules2);
              if back == Unwound then (m, NoReply)
              else
                var admin2 := ApplyAdmin(admin1, previous, env.engine).0;
                (Finished(m.(admin := admin2, dir := Undo(live)), length, env, cut), CommitFailed)
  }

  /** The first connector of the candidate that the reload does not come back from. */
  function BreakAt(n: Node, c: FullSnapshot, env: Env): (k: nat)
    ensures k <= |c.connectors|
  {
    FirstBreak(c.connectors, n.registry.current.connectors, env.world)
  }

  function ApplyCandidate(n: Node, candidate: FullSnapshot, env: Env): (Node, Reply) {
    if !WholeOk(candidate, env.checked) then (n, Invalid)
    else if candidate.adminUsers == [] && n.registry.current.adminUsers != [] then (n, NoAdministrator)
    else ApplyOwners(n, candidate, env, true)
  }

  function FindVersion(versions: seq<Provenance.Version>, id: nat): Option<FullSnapshot> {
    if versions == [] then None
    else if versions[0].id == id then Some(versions[0].snapshot)
    else FindVersion(versions[1..], id)
  }

  /** Version `i` is the first of the list with its id; in a history whose ids ascend every one is. */
  predicate FirstOfId(versions: seq<Provenance.Version>, i: nat) {
    i < |versions| && forall j :: 0 <= j < i ==> versions[j].id != versions[i].id
  }

  predicate NoneOfId(versions: seq<Provenance.Version>, id: nat) {
    forall i :: 0 <= i < |versions| ==> versions[i].id != id
  }

  lemma AscendingFirst(versions: seq<Provenance.Version>, i: nat)
    requires Provenance.Linked(versions) && i < |versions|
    ensures FirstOfId(versions, i)
  {
    Provenance.LinkedAscending(versions);
  }

  lemma {:induction false} FoundFirst(versions: seq<Provenance.Version>, i: nat)
    requires FirstOfId(versions, i)
    ensures FindVersion(versions, versions[i].id) == Some(versions[i].snapshot)
  {
    if i > 0 {
      assert versions[0].id != versions[i].id && versions[1..][i - 1] == versions[i];
      assert forall j :: 0 <= j < i - 1 ==> versions[1..][j] == versions[j + 1];
      FoundFirst(versions[1..], i - 1);
    }
  }

  lemma {:induction false} FoundNone(versions: seq<Provenance.Version>, id: nat)
    ensures FindVersion(versions, id).None? <==> NoneOfId(versions, id)
  {
    if versions != [] {
      FoundNone(versions[1..], id);
      assert forall i :: 1 <= i < |versions| ==> versions[1..][i - 1] == versions[i];
      assert versions[0].id != id && NoneOfId(versions[1..], id) ==> NoneOfId(versions, id);
    }
  }

  /** Restoring a recorded version takes the same path without the administrator guard and without the cut. */
  function ApplyRestore(n: Node, id: nat, env: Env): (Node, Reply) {
    match FindVersion(n.registry.versions, id)
    case None => (n, NoSuchVersion)
    case Some(candidate) =>
      if !WholeOk(candidate, env.checked) then (n, Invalid) else ApplyOwners(n, candidate, env, false)
  }

  // ---------------------------------------------------------------------
  // When owners and registry agree.
  // ---------------------------------------------------------------------

  /** Each owner holds what applying the registry's snapshot gives it, credentials with the secrets `held`. */
  ghost predicate Agreed(n: Node, held: Secrets, g: Engine) {
    var s := n.registry.current;
    && ApplyAuth(n.auth, s, held, g) == (n.auth, true)
    && ApplyRules(n.rules, s, g) == (n.rules, Took)
    && ApplyAdmin(n.admin, s, g) == (n.admin, true)
  }

  /** Agreement means that every owner holds exactly the entries of the running snapshot. */
  lemma AgreedHolds(n: Node, held: Secrets, g: Engine)
    requires Agreed(n, held, g)
    ensures var s := n.registry.current;
            && HoldsAuth(n.auth, s, held, g) && HoldsRules(n.rules, s.rules, g) && HoldsAdmin(n.admin, s.adminUsers, g)
            && MqttOk(s.mqttUsers, s.acls)
  {
    hide HoldsAuth, HoldsRules, HoldsAdmin, InsertRules, Logins, AccountsOf, FirstBad, MqttOk, RulesOk, Compile;
    var s := n.registry.current;
    AuthHolds(n.auth, s, held, g);
    RulesAppliedExactly(n.rules, s, g);
    assert s.rules[..|s.rules|] == s.rules;
    AdminHolds(n.admin, s, g);
  }

  lemma ReapplyRules(t: RuleTable, u: RuleTable, s: FullSnapshot, g: Engine)
    requires ApplyRules(t, s, g) == (t, Took)
    ensures ApplyRules(u, s, g) == (t, Took)
  {
    hide RulesOk, InsertRules;
  }

  lemma ReapplyAdmin(m: Accounts, k: Accounts, s: FullSnapshot, g: Engine)
    requires ApplyAdmin(m, s, g) == (m, true)
    ensures ApplyAdmin(k, s, g) == (m, true)
  {
    hide AdminStore.RootOk, AccountsOf;
  }

  lemma CutKeepsHistory(n: Node, length: nat, env: Env, cut: bool)
    requires length == |n.registry.versions|
    ensures Finished(n, length, env, cut) ==
            n.(registry := n.registry.(
              file := if cut && env.historyWrites then Provenance.Reverse(n.registry.versions) else n.registry.file))
  {
    assert n.registry.versions[..length] == n.registry.versions;
  }

  // ---------------------------------------------------------------------
  // Where a request ends, read off the candidate and its surroundings.
  // ---------------------------------------------------------------------

  predicate PassesAuth(c: FullSnapshot, env: Env) {
    SecretsResolve(c.mqttUsers, env.applied)
  }

  /** The first rule of the candidate that the engine does not take. */
  function RulesStop(c: FullSnapshot, env: Env): nat {
    FirstBad(c.rules, env.engine)
  }

  predicate StopsAtRules(c: FullSnapshot, env: Env) {
    PassesAuth(c, env) && RulesStop(c, env) < |c.rules|
  }

  predicate UnwindsAtRules(c: FullSnapshot, env: Env) {
    StopsAtRules(c, env) && Compile(c.rules[RulesStop(c, env)], env.engine.language).Panics?
  }

  predicate ReachesConnectors(c: FullSnapshot, env: Env) {
    PassesAuth(c, env) && RulesStop(c, env) == |c.rules|
  }

  predicate UnwindsAtConnectors(n: Node, c: FullSnapshot, env: Env) {
    ReachesConnectors(c, env) && BreakAt(n, c, env) < |c.connectors|
  }

  predicate Lost(n: Node, c: FullSnapshot, env: Env) {
    UnwindsAtRules(c, env) || UnwindsAtConnectors(n, c, env)
  }

  predicate ReachesCommit(n: Node, c: FullSnapshot, env: Env) {
    ReachesConnectors(c, env) && BreakAt(n, c, env) == |c.connectors|
  }

  /** The commit gets as far as taking a version id, which is not given back. */
  predicate ReservesId(n: Node, c: FullSnapshot, env: Env) {
    ReachesCommit(n, c, env) && SecretsResolve(c.mqttUsers, env.committed)
  }

  predicate WritesState(n: Node, c: FullSnapshot, env: Env) {
    ReachesCommit(n, c, env) && SecretsResolve(c.mqttUsers, env.committed) && env.stateWrites
  }

  predicate Succeeds(n: Node, c: FullSnapshot, env: Env) {
    WritesState(n, c, env) && env.historyWrites
  }

  lemma WholeOkLater(c: FullSnapshot, w: Secrets, v: Secrets)
    requires WholeOk(c, w)
    ensures WholeOk(c, v) <==> SecretsResolve(c.mqttUsers, v)
  {
  }

  /**
   * The reply to a validated candidate: refused for a secret that does not resolve, refused at a rule, none after a
   * panic at a rule or a connector, or a failed commit, in that order.
   */
  lemma OwnersReplies(n: Node, c: FullSnapshot, held: Secrets, env: Env, cut: bool)
    requires WholeOk(c, env.checked) && Agreed(n, held, env.engine)
    ensures var reply := ApplyOwners(n, c, env, cut).1;
            && (reply == AuthRefused <==> !PassesAuth(c, env))
            && (reply == NoReply <==> Lost(n, c, env))
            && (reply == RulesRefused <==> StopsAtRules(c, env) && !UnwindsAtRules(c, env))
            && (reply.Reloaded? <==> Succeeds(n, c, env))
            && (reply == CommitFailed <==> ReachesCommit(n, c, env) && !Succeeds(n, c, env))
            && reply != AdminRefused
  {
    hide ApplyLive, Undo, Finished, PendingLive, WholeOk, ApplyAuth, ApplyRules, FirstBad, Compile, SecretsResolve,
         AccountsOf, HoldsRules, BreakAt, StoppedAt;
    ValidatedRoots(c, env.checked);
    AuthAcceptedExactly(n.auth, c, env.applied, env.engine);
    RulesAppliedExactly(n.rules, c, env.engine);
    ReapplyRules(n.rules, ApplyRules(n.rules, c, env.engine).0, n.registry.current, env.engine);
    WholeOkLater(c, env.checked, env.committed);
  }

  lemma ValidatedRoots(c: FullSnapshot, w: Secrets)
    requires WholeOk(c, w)
    ensures MqttOk(c.mqttUsers, c.acls) && RulesOk(c.rules)
    ensures AdminStore.RootOk(c.adminUsers) && ConnectorsOk(c.connectors)
  {
  }

  // ---------------------------------------------------------------------
  // What a request leaves behind.
  // ---------------------------------------------------------------------

  predicate SomeEntryLeaks(n: Node, candidate: FullSnapshot, env: Env) {
    exists e :: e in candidate.connectors && Leaks(e, Lookup(n.registry.current.connectors, e.id), n.dir, env.world)
  }

  /** The stores that no request touches. */
  ghost predicate Untouched(n: Node, m: Node) {
    m.chain == n.chain && m.nodeCache == n.nodeCache && m.settings == n.settings
  }

  /** What the caller is promised on success. */
  ghost predicate Installed(n: Node, m: Node, reply: Reply, candidate: FullSnapshot, env: Env) {
    var live := ApplyLive(n.dir, n.registry.current.connectors, candidate.connectors, env.world);
    && m.registry.current == candidate && m.stateFile == candidate
    && Agreed(m, env.applied, env.engine)
    && m.dir == live.dir
    && reply == Reloaded(n.registry.nextId, PendingLive(live))
    && m.registry.versions ==
       Provenance.Newest(n.registry.versions + [Provenance.NextVersion(n.registry, candidate)], Provenance.MAX_HISTORY)
    && m.registry.nextId == n.registry.nextId + 1
    && Untouched(n, m)
  }

  /** A request that does not come back from a connector: three owners are the candidate's, the registry is not. */
  ghost predicate Abandoned(n: Node, m: Node, c: FullSnapshot, env: Env)
    requires BreakAt(n, c, env) < |c.connectors|
  {
    && HoldsAuth(m.auth, c, env.applied, env.engine) && HoldsRules(m.rules, c.rules, env.engine)
    && HoldsAdmin(m.admin, c.adminUsers, env.engine)
    && m.dir == StoppedAt(n.dir, n.registry.current.connectors, c.connectors, BreakAt(n, c, env), env.world).dir
    && m.registry == n.registry && m.stateFile == n.stateFile
    && Untouched(n, m)
  }

  /** The credentials are put back: not reached, or applied again with the same secrets, or the same all along. */
  ghost predicate AuthBack(n: Node, c: FullSnapshot, held: Secrets, env: Env) {
    var previous := n.registry.current;
    if !PassesAuth(c, env) then true
    else if !UnwindsAtRules(c, env) && SecretsResolve(previous.mqttUsers, env.restored) then
      SameSecrets(previous.mqttUsers, held, env.restored)
    else SameLogins(c, env.applied, previous, held, env.engine)
  }

  /** The rules are put back: all were taken, or those before the first bad one are the previous ones. */
  ghost predicate RulesBack(n: Node, c: FullSnapshot, env: Env) {
    StopsAtRules(c, env) ==> SameRules(c.rules[..RulesStop(c, env)], n.registry.current.rules, env.engine)
  }

  /** What every other failure keeps, and exactly when it keeps the rest. */
  ghost predicate RolledBack(n: Node, m: Node, c: FullSnapshot, held: Secrets, env: Env) {
    && m.admin == n.admin
    && m.registry.current == n.registry.current && m.registry.versions == n.registry.versions
    && (m.auth == n.auth <==> AuthBack(n, c, held, env))
    && (m.rules == n.rules <==> RulesBack(n, c, env))
    && (m.dir == n.dir <==> !ReachesCommit(n, c, env) || !SomeEntryLeaks(n, c, env))
    && m.stateFile == (if WritesState(n, c, env) then c else n.stateFile)
    && m.registry.nextId == n.registry.nextId + (if ReservesId(n, c, env) then 1 else 0)
    && Untouched(n, m)
  }

  /** How an applied candidate ends. */
  ghost predicate Ended(n: Node, m: Node, reply: Reply, c: FullSnapshot, held: Secrets, env: Env) {
    if UnwindsAtConnectors(n, c, env) then Abandoned(n, m, c, env)
    else if Succeeds(n, c, env) then Installed(n, m, reply, c, env)
    else RolledBack(n, m, c, held, env)
  }

  /** Uniqueness of connector ids is what validation promises; that keys stay apart is up to the ids. */
  ghost predicate Ready(n: Node, candidate: FullSnapshot, held: Secrets, env: Env) {
    && Agreed(n, held, env.engine)
    && ConnectorsOk(n.registry.current.connectors)
    && KeysApart(n.registry.current.connectors, candidate.connectors)
    && NewSinks(n.dir, env.world)
  }

  /** The credentials after the rollback step, and when they are the old ones. */
  lemma AuthRestored(n: Node, c: FullSnapshot, held: Secrets, env: Env)
    requires WholeOk(c, env.checked) && Agreed(n, held, env.engine) && PassesAuth(c, env)
    ensures var auth1 := ApplyAuth(n.auth, c, env.applied, env.engine).0;
            && (auth1 == n.auth <==> SameLogins(c, env.applied, n.registry.current, held, env.engine))
            && (ApplyAuth(auth1, n.registry.current, env.restored, env.engine).0 == n.auth <==>
                 if SecretsResolve(n.registry.current.mqttUsers, env.restored)
                 then SameSecrets(n.registry.current.mqttUsers, held, env.restored)
                 else SameLogins(c, env.applied, n.registry.current, held, env.engine))
  {
    hide ApplyAuth, ApplyRules, ApplyAdmin, HoldsAuth, HoldsRules, HoldsAdmin, SameLogins, SameSecrets, MqttOk,
         WholeOk, SecretsResolve;
    var previous := n.registry.current;
    ValidatedRoots(c, env.checked);
    AgreedHolds(n, held, env.engine);
    AuthAcceptedExactly(n.auth, c, env.applied, env.engine);
    AuthHolds(n.auth, c, env.applied, env.engine);
    var auth1 := ApplyAuth(n.auth, c, env.applied, env.engine).0;
    SameAuthExactly(auth1, c, env.applied, n.auth, previous, held, env.engine);
    AuthAcceptedExactly(auth1, previous, env.restored, env.engine);
    if SecretsResolve(previous.mqttUsers, env.restored) {
      AuthHolds(auth1, previous, env.restored, env.engine);
      var auth2 := ApplyAuth(auth1, previous, env.restored, env.engine).0;
      SameSecretsExactly(n.auth, auth2, previous, held, env.restored, env.engine);
    }
  }

  /** The rule table after a candidate that the engine does not take. */
  lemma RulesLeft(n: Node, c: FullSnapshot, held: Secrets, env: Env)
    requires WholeOk(c, env.checked) && Agreed(n, held, env.engine)
    ensures var left := ApplyRules(n.rules, c, env.engine).0;
            && HoldsRules(left, c.rules[..RulesStop(c, env)], env.engine)
            && (left == n.rules <==> SameRules(c.rules[..RulesStop(c, env)], n.registry.current.rules, env.engine))
  {
    hide ApplyAuth, ApplyRules, ApplyAdmin, HoldsAuth, HoldsRules, HoldsAdmin, SameRules, WholeOk, FirstBad, Unwinds;
    ValidatedRoots(c, env.checked);
    AgreedHolds(n, held, env.engine);
    RulesAppliedExactly(n.rules, c, env.engine);
    SameTableExactly(
      ApplyRules(n.rules, c, env.engine).0, c.rules[..RulesStop(c, env)], n.rules, n.registry.current.rules,
      env.engine);
  }

  lemma EarlyEnds(n: Node, c: FullSnapshot, held: Secrets, env: Env, cut: bool)
    requires WholeOk(c, env.checked) && Agreed(n, held, env.engine) && !ReachesConnectors(c, env)
    ensures RolledBack(n, ApplyOwners(n, c, env, cut).0, c, held, env)
  {
    hide ApplyLive, Undo, CommitWhole, Finished, WholeOk, SomeEntryLeaks, ApplyAuth, ApplyRules, ApplyAdmin, FirstBad,
         Compile, SecretsResolve, SameLogins, SameRules, SameSecrets, HoldsRules, BreakAt, StoppedAt;
    var previous, length := n.registry.current, |n.registry.versions|;
    ValidatedRoots(c, env.checked);
    AuthAcceptedExactly(n.auth, c, env.applied, env.engine);
    RulesAppliedExactly(n.rules, c, env.engine);
    var auth1 := ApplyAuth(n.auth, c, env.applied, env.engine).0;
    var rules1 := ApplyRules(n.rules, c, env.engine).0;
    var auth2 := ApplyAuth(auth1, previous, env.restored, env.engine).0;
    CutKeepsHistory(n.(auth := auth1), length, env, cut);
    CutKeepsHistory(n.(auth := auth2, rules := rules1), length, env, cut);
    RulesLeft(n, c, held, env);
    if PassesAuth(c, env) { AuthRestored(n, c, held, env); }
  }

  lemma ConnectorLost(n: Node, c: FullSnapshot, held: Secrets, env: Env, cut: bool)
    requires WholeOk(c, env.checked) && Agreed(n, held, env.engine) && UnwindsAtConnectors(n, c, env)
    ensures Abandoned(n, ApplyOwners(n, c, env, cut).0, c, env)
  {
    hide ApplyLive, Undo, CommitWhole, Finished, WholeOk, ApplyAuth, ApplyRules, ApplyAdmin, FirstBad, Compile,
         SecretsResolve, HoldsRules, HoldsAuth, HoldsAdmin, BreakAt, StoppedAt;
    ValidatedRoots(c, env.checked);
    AuthAcceptedExactly(n.auth, c, env.applied, env.engine);
    AuthHolds(n.auth, c, env.applied, env.engine);
    RulesAppliedExactly(n.rules, c, env.engine);
    assert c.rules[..|c.rules|] == c.rules;
    AdminAccepts(n.admin, c, env.engine);
    AdminHolds(n.admin, c, env.engine);
  }

  lemma CommitReached(n: Node, c: FullSnapshot, held: Secrets, env: Env, cut: bool)
    requires WholeOk(c, env.checked) && Ready(n, c, held, env) && ReachesCommit(n, c, env)
    ensures var (m, reply) := ApplyOwners(n, c, env, cut);
            if Succeeds(n, c, env) then Installed(n, m, reply, c, env) else RolledBack(n, m, c, held, env)
  {
    hide ApplyLive, Undo, Finished, WholeOk, ApplyRules, ApplyAuth, ApplyAdmin, Lookup, Leaks, PendingLive,
         Provenance.NextVersion, Provenance.Newest, Provenance.Reverse, KeysApart, NewSinks, Blank, FirstBad, Compile,
         SecretsResolve, SameLogins, SameRules, SameSecrets, HoldsRules, AdminStore.RootOk, BreakAt, StoppedAt;
    var previous, length := n.registry.current, |n.registry.versions|;
    ValidatedRoots(c, env.checked);
    WholeOkLater(c, env.checked, env.committed);
    AuthAcceptedExactly(n.auth, c, env.applied, env.engine);
    RulesAppliedExactly(n.rules, c, env.engine);
    AdminAccepts(n.admin, c, env.engine);
    var auth1 := ApplyAuth(n.auth, c, env.applied, env.engine).0;
    var rules1 := ApplyRules(n.rules, c, env.engine).0;
    var admin1 := ApplyAdmin(n.admin, c, env.engine).0;
    var live := ApplyLive(n.dir, previous.connectors, c.connectors, env.world);
    var applied := n.(auth := auth1, rules := rules1, admin := admin1);
    var (committed, version) := CommitWhole(applied.(dir := live.dir), c, env);
    if version.Some? {
      ReapplySelf(n, c, env);
    } else {
      var auth2 := ApplyAuth(auth1, previous, env.restored, env.engine).0;
      AuthRestored(n, c, held, env);
      ReapplyRules(n.rules, rules1, previous, env.engine);
      ReapplyAdmin(n.admin, admin1, previous, env.engine);
      RollbackRestores(n.dir, previous.connectors, c.connectors, env.world);
      CutKeepsHistory(
        committed.(auth := auth2, rules := n.rules, admin := n.admin, dir := Undo(live)), length, env, cut);
    }
  }

  /** The history file after a request that failed: a reload that is answered rewrites it if that works. */
  lemma HistoryFileAfter(n: Node, c: FullSnapshot, held: Secrets, env: Env, cut: bool)
    requires WholeOk(c, env.checked) && Agreed(n, held, env.engine) && !Succeeds(n, c, env)
    ensures ApplyOwners(n, c, env, cut).0.registry.file ==
            if cut && env.historyWrites && !Lost(n, c, env) then Provenance.Reverse(n.registry.versions)
            else n.registry.file
  {
    hide ApplyLive, Undo, WholeOk, ApplyAuth, ApplyRules, ApplyAdmin, FirstBad, Compile, SecretsResolve, BreakAt,
         StoppedAt, Provenance.CommitWhole, Provenance.Reverse, PendingLive, HoldsRules;
    ValidatedRoots(c, env.checked);
    WholeOkLater(c, env.checked, env.committed);
    AuthAcceptedExactly(n.auth, c, env.applied, env.engine);
    RulesAppliedExactly(n.rules, c, env.engine);
    AdminAccepts(n.admin, c, env.engine);
    ReapplyRules(n.rules, ApplyRules(n.rules, c, env.engine).0, n.registry.current, env.engine);
    assert n.registry.versions[..|n.registry.versions|] == n.registry.versions;
  }

  lemma AdminAccepts(m: Accounts, s: FullSnapshot, g: Engine)
    requires AdminStore.RootOk(s.adminUsers)
    ensures ApplyAdmin(m, s, g).1
  {
  }

  /** Applying twice is applying once. */
  lemma ReapplySelf(n: Node, s: FullSnapshot, env: Env)
    ensures var (a, ok) := ApplyAuth(n.auth, s, env.applied, env.engine);
            ok ==> ApplyAuth(a, s, env.applied, env.engine) == (a, true)
    ensures var (t, end) := ApplyRules(n.rules, s, env.engine);
            end == Took ==> ApplyRules(t, s, env.engine) == (t, Took)
    ensures var (m, ok) := ApplyAdmin(n.admin, s, env.engine); ok ==> ApplyAdmin(m, s, env.engine) == (m, true)
  {
    hide MqttOk, RulesOk, AdminStore.RootOk, Logins, InsertRules, AccountsOf;
  }

  /** An applied candidate is installed everywhere, abandoned at a connector, or rolled back as far as told. */
  lemma OwnersExactly(n: Node, c: FullSnapshot, held: Secrets, env: Env, cut: bool)
    requires WholeOk(c, env.checked) && Ready(n, c, held, env)
    ensures var (m, reply) := ApplyOwners(n, c, env, cut); Ended(n, m, reply, c, held, env)
  {
    hide ApplyOwners, Installed, RolledBack, Abandoned, WholeOk, PassesAuth, RulesStop, Agreed, ConnectorsOk,
         KeysApart, NewSinks, BreakAt;
    if UnwindsAtConnectors(n, c, env) {
      ConnectorLost(n, c, held, env, cut);
    } else if ReachesCommit(n, c, env) {
      CommitReached(n, c, held, env, cut);
    } else {
      EarlyEnds(n, c, held, env, cut);
    }
  }

  /** A candidate that a reload does not even start to apply. */
  predicate TurnedAway(n: Node, c: FullSnapshot, env: Env) {
    !WholeOk(c, env.checked) || (c.adminUsers == [] && n.registry.current.adminUsers != [])
  }

  /**
   * A candidate that is turned away changes nothing. Any other is installed everywhere exactly when its
   * secrets resolve, its rules are all taken, every connector comes back and both files are written. If a
   * connector does not come back, credentials, rules and accounts are the candidate's. Otherwise accounts,
   * running snapshot and history stay as they were, and credentials, rules, connectors and the state file
   * exactly under the conditions of `RolledBack`.
   */
  lemma ReloadExactly(n: Node, c: FullSnapshot, held: Secrets, env: Env)
    requires Ready(n, c, held, env)
    ensures var (m, reply) := ApplyCandidate(n, c, env);
            && (reply.Reloaded? <==> !TurnedAway(n, c, env) && Succeeds(n, c, env))
            && (if TurnedAway(n, c, env)
                then m == n && reply == if WholeOk(c, env.checked) then NoAdministrator else Invalid
                else Ended(n, m, reply, c, held, env))
  {
    hide ApplyOwners, Ended, Agreed, WholeOk, Succeeds, PassesAuth, RulesStop, ConnectorsOk, KeysApart, NewSinks,
         ReachesCommit, UnwindsAtRules, StopsAtRules, Lost;
    if !TurnedAway(n, c, env) {
      OwnersExactly(n, c, held, env, true);
      OwnersReplies(n, c, held, env, true);
    }
  }

  /** A restore of version `i` applies exactly its snapshot, and ends like a reload without the guard. */
  lemma RestoreExactly(n: Node, i: nat, held: Secrets, env: Env)
    requires FirstOfId(n.registry.versions, i) && Ready(n, n.registry.versions[i].snapshot, held, env)
    ensures var c := n.registry.versions[i].snapshot;
            var (m, reply) := ApplyRestore(n, n.registry.versions[i].id, env);
            && (reply.Reloaded? <==> WholeOk(c, env.checked) && Succeeds(n, c, env))
            && (if !WholeOk(c, env.checked) then m == n && reply == Invalid else Ended(n, m, reply, c, held, env))
  {
    hide ApplyOwners, Ended, Agreed, WholeOk, Succeeds, PassesAuth, RulesStop, ConnectorsOk, KeysApart, NewSinks,
         ReachesCommit, UnwindsAtRules, StopsAtRules, FindVersion, Lost;
    var c := n.registry.versions[i].snapshot;
    FoundFirst(n.registry.versions, i);
    if WholeOk(c, env.checked) {
      OwnersExactly(n, c, held, env, false);
      OwnersReplies(n, c, held, env, false);
    }
  }

  /** A restore is answered with "no such version" exactly when no version has the id, and then changes nothing. */
  lemma NoSuchVersionExactly(n: Node, id: nat, env: Env)
    ensures ApplyRestore(n, id, env).1 == NoSuchVersion <==> NoneOfId(n.registry.versions, id)
    ensures NoneOfId(n.registry.versions, id) ==> ApplyRestore(n, id, env).0 == n
  {
    hide ApplyAuth, ApplyRules, ApplyAdmin, ApplyLive, CommitWhole, Finished, WholeOk, FindVersion, BreakAt,
         StoppedAt, PendingLive, Undo;
    FoundNone(n.registry.versions, id);
  }

  /** The state file a reload leaves behind loads at the next start exactly when the three unchecked roots are valid. */
  lemma NextStartLoadsExactly(n: Node, c: FullSnapshot, held: Secrets, env: Env, f: Formats)
    requires Ready(n, c, held, env)
    ensures ApplyCandidate(n, c, env).1.Reloaded? ==>
            (LoadOk(ApplyCandidate(n, c, env).0.stateFile, f) <==> UncheckedOk(c, f))
  {
    hide ApplyCandidate, Ready, Agreed, WholeOk, LoadOk, UncheckedOk, ApplyLive, PendingLive, RolledBack, Abandoned,
         Provenance.NextVersion, Provenance.Newest, SecretsResolve, BreakAt, FirstBad;
    ReloadExactly(n, c, held, env);
    if WholeOk(c, env.checked) { AcceptedLoadsExactly(c, env.checked, f); }
  }

  /** The stores of the chain, the node cache and the settings are what the registry's roots load to. */
  predicate UnlistedAgree(n: Node, codec: Chain.Codec) {
    var s := n.registry.current;
    Chain.Reload(s.authnChain, codec) == n.chain && s.nodeCache == n.nodeCache && s.settings == n.settings
  }

  /**
   * A reload swaps these three roots in the registry and loads none of them: the stores agree afterwards
   * exactly when the candidate's roots load to what is live already, or, if it failed, as before.
   */
  lemma UnlistedAgreeExactly(n: Node, c: FullSnapshot, held: Secrets, env: Env, codec: Chain.Codec)
    requires Ready(n, c, held, env)
    ensures UnlistedAgree(ApplyCandidate(n, c, env).0, codec) <==>
            if !TurnedAway(n, c, env) && Succeeds(n, c, env) then
              Chain.Reload(c.authnChain, codec) == n.chain && c.nodeCache == n.nodeCache && c.settings == n.settings
            else UnlistedAgree(n, codec)
  {
    hide ApplyCandidate, Ready, Agreed, WholeOk, ApplyLive, PendingLive, Provenance.NextVersion, Provenance.Newest,
         SecretsResolve, BreakAt, FirstBad, HoldsAuth, HoldsRules, HoldsAdmin, AuthBack, RulesBack, SomeEntryLeaks,
         StoppedAt, Chain.Reload;
    ReloadExactly(n, c, held, env);
  }

  // ---------------------------------------------------------------------
  // Administrators.
  // ---------------------------------------------------------------------

  /** Whether the accounts in memory are the candidate's after a request that was not turned away. */
  predicate AccountsTaken(n: Node, c: FullSnapshot, env: Env) {
    Succeeds(n, c, env) || UnwindsAtConnectors(n, c, env)
  }

  lemma AccountsAfter(n: Node, m: Node, reply: Reply, c: FullSnapshot, held: Secrets, env: Env)
    requires Ended(n, m, reply, c, held, env)
    ensures if AccountsTaken(n, c, env) then HoldsAdmin(m.admin, c.adminUsers, env.engine) else m.admin == n.admin
  {
    hide ApplyLive, PendingLive, Provenance.NextVersion, Provenance.Newest, HoldsAdmin, HoldsRules, HoldsAuth,
         ApplyAuth, ApplyRules, ApplyAdmin, AuthBack, RulesBack, SomeEntryLeaks, StoppedAt, BreakAt, FirstBad,
         SecretsResolve;
    if !UnwindsAtConnectors(n, c, env) && Succeeds(n, c, env) {
      AgreedHolds(m, env.applied, env.engine);
    }
  }

  /**
   * Who can administer after a reload: as before if the accounts were put back or never reached; otherwise
   * somebody exactly when the candidate lists nobody or an administrator whose verifier decodes. The guard keeps
   * the default account closed.
   */
  lemma AdministratorAfterReload(n: Node, c: FullSnapshot, held: Secrets, env: Env)
    requires Ready(n, c, held, env)
    ensures var m := ApplyCandidate(n, c, env).0;
            && (LiveAdministrator(m.admin) <==>
                 if !TurnedAway(n, c, env) && AccountsTaken(n, c, env)
                 then c.adminUsers == [] || ListsAdministrator(c.adminUsers, env.engine)
                 else LiveAdministrator(n.admin))
            && (DefaultLogin(m.admin) ==> DefaultLogin(n.admin))
  {
    hide ApplyOwners, Ended, WholeOk, AccountsTaken, LiveAdministrator, DefaultLogin, ListsAdministrator, HoldsAdmin,
         HoldsRules, HoldsAuth, ApplyAuth, ApplyRules, ApplyAdmin, ConnectorsOk, KeysApart, NewSinks, Succeeds;
    ReloadExactly(n, c, held, env);
    var (m, reply) := ApplyCandidate(n, c, env);
    if !TurnedAway(n, c, env) {
      AccountsAfter(n, m, reply, c, held, env);
      AgreedHolds(n, held, env.engine);
      AdministratorsExactly(n.admin, n.registry.current.adminUsers, env.engine);
      if AccountsTaken(n, c, env) { AdministratorsExactly(m.admin, c.adminUsers, env.engine); }
    }
  }

  /** A restore has no such guard: it opens the default account exactly when the version lists nobody. */
  lemma AdministratorAfterRestore(n: Node, i: nat, held: Secrets, env: Env)
    requires FirstOfId(n.registry.versions, i) && Ready(n, n.registry.versions[i].snapshot, held, env)
    ensures var c := n.registry.versions[i].snapshot;
            var m := ApplyRestore(n, n.registry.versions[i].id, env).0;
            var taken := WholeOk(c, env.checked) && AccountsTaken(n, c, env);
            && (LiveAdministrator(m.admin) <==>
                 if taken then c.adminUsers == [] || ListsAdministrator(c.adminUsers, env.engine)
                 else LiveAdministrator(n.admin))
            && (DefaultLogin(m.admin) <==> if taken then c.adminUsers == [] else DefaultLogin(n.admin))
  {
    hide ApplyOwners, Ended, WholeOk, AccountsTaken, LiveAdministrator, DefaultLogin, ListsAdministrator, HoldsAdmin,
         Ready, ApplyRestore, Succeeds;
    RestoreExactly(n, i, held, env);
    var c := n.registry.versions[i].snapshot;
    var (m, reply) := ApplyRestore(n, n.registry.versions[i].id, env);
    if WholeOk(c, env.checked) {
      AccountsAfter(n, m, reply, c, held, env);
      if AccountsTaken(n, c, env) { AdministratorsExactly(m.admin, c.adminUsers, env.engine); }
    }
  }

  // ---------------------------------------------------------------------
  // Every run of reloads and restores.
  // ---------------------------------------------------------------------

  /** The secrets that the credentials in memory come from, after a request that was not turned away. */
  function HeldAfter(n: Node, c: FullSnapshot, held: Secrets, env: Env): Secrets {
    if !PassesAuth(c, env) then held
    else if Succeeds(n, c, env) then env.applied
    else if !Lost(n, c, env) && SecretsResolve(n.registry.current.mqttUsers, env.restored) then env.restored
    else held
  }

  /** The credentials are those of the running snapshot at some time. */
  ghost predicate AuthAgrees(n: Node, c: FullSnapshot, held: Secrets, env: Env) {
    || !PassesAuth(c, env) || Succeeds(n, c, env)
    || (!Lost(n, c, env) && SecretsResolve(n.registry.current.mqttUsers, env.restored))
    || SameLogins(c, env.applied, n.registry.current, held, env.engine)
  }

  /** The rules that stay are those of the running snapshot. */
  ghost predicate RulesAgree(n: Node, c: FullSnapshot, env: Env) {
    StopsAtRules(c, env) || UnwindsAtConnectors(n, c, env) ==>
      SameRules(c.rules[..RulesStop(c, env)], n.registry.current.rules, env.engine)
  }

  /** So are the accounts. */
  ghost predicate AccountsAgree(n: Node, c: FullSnapshot, env: Env) {
    UnwindsAtConnectors(n, c, env) ==> SameAccounts(c.adminUsers, n.registry.current.adminUsers, env.engine)
  }

  /** The exact condition for an applied request to leave owners and registry in agreement. */
  ghost predicate Keeps(n: Node, c: FullSnapshot, held: Secrets, env: Env) {
    AuthAgrees(n, c, held, env) && RulesAgree(n, c, env) && AccountsAgree(n, c, env)
  }

  lemma AgreementExactly(n: Node, c: FullSnapshot, held: Secrets, env: Env, cut: bool)
    requires WholeOk(c, env.checked) && Ready(n, c, held, env)
    ensures Agreed(ApplyOwners(n, c, env, cut).0, HeldAfter(n, c, held, env), env.engine) <==> Keeps(n, c, held, env)
  {
    hide ApplyOwners, WholeOk, SecretsResolve, FirstBad, SameLogins, SameRules, SameSecrets, SameAccounts,
         ConnectorsOk, KeysApart, NewSinks, ApplyLive, PendingLive, SomeEntryLeaks, Provenance.NextVersion,
         Provenance.Newest, ApplyAuth, ApplyRules, ApplyAdmin, Compile, BreakAt, StoppedAt, HoldsAuth, HoldsRules,
         HoldsAdmin;
    OwnersExactly(n, c, held, env, cut);
    if !Succeeds(n, c, env) {
      var m := ApplyOwners(n, c, env, cut).0;
      AuthPart(n, c, held, env, cut);
      RulesPart(n, m, env.engine);
      AdminPart(n, m, env.engine);
      if UnwindsAtConnectors(n, c, env) {
        AgreedHolds(n, held, env.engine);
        assert c.rules[..RulesStop(c, env)] == c.rules;
        SameTableExactly(m.rules, c.rules, n.rules, n.registry.current.rules, env.engine);
        SameAdminExactly(m.admin, c.adminUsers, n.admin, n.registry.current.adminUsers, env.engine);
      }
    }
  }

  lemma RulesPart(n: Node, m: Node, g: Engine)
    requires ApplyRules(n.rules, n.registry.current, g) == (n.rules, Took)
    ensures ApplyRules(m.rules, n.registry.current, g) == (m.rules, Took) <==> m.rules == n.rules
  {
    ReapplyRules(n.rules, m.rules, n.registry.current, g);
  }

  lemma AdminPart(n: Node, m: Node, g: Engine)
    requires ApplyAdmin(n.admin, n.registry.current, g) == (n.admin, true)
    ensures ApplyAdmin(m.admin, n.registry.current, g) == (m.admin, true) <==> m.admin == n.admin
  {
    ReapplyAdmin(n.admin, m.admin, n.registry.current, g);
  }

  lemma AuthPart(n: Node, c: FullSnapshot, held: Secrets, env: Env, cut: bool)
    requires WholeOk(c, env.checked) && Ready(n, c, held, env) && !Succeeds(n, c, env)
    ensures var m := ApplyOwners(n, c, env, cut).0;
            ApplyAuth(m.auth, n.registry.current, HeldAfter(n, c, held, env), env.engine) == (m.auth, true) <==>
            AuthAgrees(n, c, held, env)
  {
    hide WholeOk, SecretsResolve, FirstBad, SameLogins, SameSecrets, ConnectorsOk, KeysApart, NewSinks, ApplyOwners,
         ApplyAuth, ApplyRules, ApplyAdmin, Compile, RulesOk, MqttOk, AdminStore.RootOk, HoldsRules, HoldsAuth,
         HoldsAdmin, BreakAt;
    var previous := n.registry.current;
    var m := ApplyOwners(n, c, env, cut).0;
    AuthAfter(n, c, held, env, cut);
    AgreedHolds(n, held, env.engine);
    if PassesAuth(c, env) {
      AuthRestored(n, c, held, env);
      var auth1 := ApplyAuth(n.auth, c, env.applied, env.engine).0;
      AuthAcceptedExactly(auth1, previous, env.restored, env.engine);
      ReapplyAuth(n.auth, m.auth, previous, held, env.engine);
      if SecretsResolve(previous.mqttUsers, env.restored) {
        TwiceAuth(auth1, previous, env.restored, env.engine);
        ReapplyAuth(ApplyAuth(auth1, previous, env.restored, env.engine).0, m.auth, previous, env.restored, env.engine);
      }
    }
  }

  lemma TwiceAuth(a: Auth, s: FullSnapshot, w: Secrets, g: Engine)
    requires ApplyAuth(a, s, w, g).1
    ensures ApplyAuth(ApplyAuth(a, s, w, g).0, s, w, g) == (ApplyAuth(a, s, w, g).0, true)
  {
    hide MqttOk, Logins;
  }

  lemma ReapplyAuth(a: Auth, b: Auth, s: FullSnapshot, w: Secrets, g: Engine)
    requires ApplyAuth(a, s, w, g) == (a, true)
    ensures ApplyAuth(b, s, w, g) == (a, true)
  {
    hide MqttOk, Logins;
  }

  /** The credentials after a failed request. */
  lemma AuthAfter(n: Node, c: FullSnapshot, held: Secrets, env: Env, cut: bool)
    requires WholeOk(c, env.checked) && Agreed(n, held, env.engine) && !Succeeds(n, c, env)
    ensures var auth1 := ApplyAuth(n.auth, c, env.applied, env.engine).0;
            ApplyOwners(n, c, env, cut).0.auth ==
            if !PassesAuth(c, env) then n.auth
            else if Lost(n, c, env) then auth1
            else ApplyAuth(auth1, n.registry.current, env.restored, env.engine).0
  {
    hide ApplyLive, Undo, PendingLive, WholeOk, ApplyAuth, ApplyRules, FirstBad, Compile, SecretsResolve, AccountsOf,
         HoldsRules, Provenance.CommitWhole, BreakAt, StoppedAt;
    ValidatedRoots(c, env.checked);
    AuthAcceptedExactly(n.auth, c, env.applied, env.engine);
    RulesAppliedExactly(n.rules, c, env.engine);
    ReapplyRules(n.rules, ApplyRules(n.rules, c, env.engine).0, n.registry.current, env.engine);
    WholeOkLater(c, env.checked, env.committed);
  }

  datatype Request = Reload(candidate: FullSnapshot, env: Env) | Restore(id: nat, env: Env)

  function Serve(n: Node, r: Request): (Node, Reply) {
    match r
    case Reload(candidate, env) => ApplyCandidate(n, candidate, env)
    case Restore(id, env) => ApplyRestore(n, id, env)
  }

  /** The snapshot that a request starts to apply, if it does. */
  function AppliedBy(n: Node, r: Request): Option<FullSnapshot> {
    match r
    case Reload(candidate, env) => if TurnedAway(n, candidate, env) then None else Some(candidate)
    case Restore(id, env) =>
      (match FindVersion(n.registry.versions, id)
       case Some(c) => if WholeOk(c, env.checked) then Some(c) else None
       case None => None)
  }

  lemma ServeApplies(n: Node, r: Request)
    ensures Serve(n, r).0 ==
            match AppliedBy(n, r)
            case Some(c) => ApplyOwners(n, c, r.env, r.Reload?).0
            case None => n
    ensures AppliedBy(n, r).Some? ==> WholeOk(AppliedBy(n, r).value, r.env.checked)
  {
    hide ApplyOwners, WholeOk, FindVersion;
  }

  /** Node and secrets in use after a run of requests. */
  function ServeAll(n: Node, held: Secrets, requests: seq<Request>): (Node, Secrets) {
    if requests == [] then (n, held)
    else
      var (m, w) := ServeAll(n, held, requests[..|requests| - 1]);
      var r := requests[|requests| - 1];
      (Serve(m, r).0,
       match AppliedBy(m, r)
       case Some(c) => HeldAfter(m, c, w, r.env)
       case None => w)
  }

  /** A run is its requests one after the other. */
  lemma ServeAllExactly(n: Node, held: Secrets, requests: seq<Request>, r: Request)
    ensures ServeAll(n, held, []) == (n, held)
    ensures ServeAll(n, held, requests + [r]).0 == Serve(ServeAll(n, held, requests).0, r).0
  {
    hide Serve, AppliedBy, HeldAfter;
    assert (requests + [r])[..|requests|] == requests;
  }

  /** A request of this program whose connector keys stay apart and whose sinks are new. */
  ghost predicate Orderly(n: Node, r: Request, g: Engine) {
    && r.env.engine == g && NewSinks(n.dir, r.env.world)
    && (AppliedBy(n, r).Some? ==> KeysApart(n.registry.current.connectors, AppliedBy(n, r).value.connectors))
  }

  ghost predicate OrderlyRun(n: Node, held: Secrets, requests: seq<Request>, g: Engine) {
    requests != [] ==>
      && OrderlyRun(n, held, requests[..|requests| - 1], g)
      && Orderly(ServeAll(n, held, requests[..|requests| - 1]).0, requests[|requests| - 1], g)
  }

  /** Owners and registry agree before the run and after every request of it. */
  ghost predicate AlwaysAgreed(n: Node, held: Secrets, requests: seq<Request>, g: Engine) {
    && (requests != [] ==> AlwaysAgreed(n, held, requests[..|requests| - 1], g))
    && Agreed(ServeAll(n, held, requests).0, ServeAll(n, held, requests).1, g)
  }

  /** Every request of the run that is applied meets the exact condition. */
  ghost predicate AlwaysKeeps(n: Node, held: Secrets, requests: seq<Request>) {
    requests != [] ==>
      && AlwaysKeeps(n, held, requests[..|requests| - 1])
      && var (m, w) := ServeAll(n, held, requests[..|requests| - 1]);
         var r := requests[|requests| - 1];
         AppliedBy(m, r).Some? ==> Keeps(m, AppliedBy(m, r).value, w, r.env)
  }

  lemma ConnectorsStayValid(n: Node, c: FullSnapshot, held: Secrets, env: Env, cut: bool)
    requires WholeOk(c, env.checked) && Ready(n, c, held, env)
    ensures ConnectorsOk(ApplyOwners(n, c, env, cut).0.registry.current.connectors)
  {
    hide ApplyOwners, Agreed, WholeOk, ConnectorsOk, KeysApart, NewSinks, ApplyLive, PendingLive, SomeEntryLeaks,
         Provenance.NextVersion, Provenance.Newest, AuthBack, RulesBack, StoppedAt, BreakAt, HoldsAuth, HoldsRules,
         HoldsAdmin, Succeeds, UnwindsAtConnectors;
    OwnersExactly(n, c, held, env, cut);
    ValidatedRoots(c, env.checked);
  }

  /**
   * Through a run of reloads and restores, whatever fails in it and whatever secrets change, the live owners hold
   * exactly what the running snapshot says after every request, if and only if every applied request meets
   * its condition.
   */
  lemma {:induction false} OwnersAlwaysAgreeExactly(n: Node, held: Secrets, requests: seq<Request>, g: Engine)
    requires Agreed(n, held, g) && ConnectorsOk(n.registry.current.connectors) && OrderlyRun(n, held, requests, g)
    ensures AlwaysAgreed(n, held, requests, g) <==> AlwaysKeeps(n, held, requests)
    ensures AlwaysAgreed(n, held, requests, g) ==>
            ConnectorsOk(ServeAll(n, held, requests).0.registry.current.connectors)
  {
    hide Serve, Agreed, AppliedBy, HeldAfter, WholeOk, NewSinks, KeysApart, Keeps, ConnectorsOk;
    if requests != [] {
      var init, r := requests[..|requests| - 1], requests[|requests| - 1];
      OwnersAlwaysAgreeExactly(n, held, init, g);
      var (m, w) := ServeAll(n, held, init);
      ServeApplies(m, r);
      if AlwaysAgreed(n, held, init, g) {
        LastAgreed(n, held, init, g);
        if AppliedBy(m, r).Some? {
          var c := AppliedBy(m, r).value;
          AgreementExactly(m, c, w, r.env, r.Reload?);
          ConnectorsStayValid(m, c, w, r.env, r.Reload?);
        }
      }
    }
  }

  lemma LastAgreed(n: Node, held: Secrets, requests: seq<Request>, g: Engine)
    requires AlwaysAgreed(n, held, requests, g)
    ensures Agreed(ServeAll(n, held, requests).0, ServeAll(n, held, requests).1, g)
  {
  }

  // ---------------------------------------------------------------------
  // The broker object.
  // ---------------------------------------------------------------------

  class Broker {
    var auth: Auth
    var rules: RuleTable
    var admin: Accounts
    const engine: ConnectorManager
    var chain: seq<Chain.Entry>
    var nodeCache: NodeCache
    var settings: Settings
    var registry: Provenance.Registry
    var stateFile: FullSnapshot

    constructor (start: Node)
      ensures State() == start && fresh(engine)
    {
      auth, rules, admin, registry, stateFile := start.auth, start.rules, start.admin, start.registry, start.stateFile;
      chain, nodeCache, settings := start.chain, start.nodeCache, start.settings;
      engine := new ConnectorManager();
      new;
      engine.connectors := start.dir;
    }

    ghost function State(): Node
      reads this, engine
    {
      Node(auth, rules, admin, engine.connectors, chain, nodeCache, settings, registry, stateFile)
    }

    method ApplyAuthConf(s: FullSnapshot, w: Secrets, g: Engine) returns (ok: bool)
      modifies this`auth
      ensures (auth, ok) == ApplyAuth(old(auth), s, w, g)
    {
      hide MqttOk, CredentialOf, AccessRules;
      if !MqttOk(s.mqttUsers, s.acls) {
        return false;
      }
      var users: map<string, Credential> := map[];
      for i := 0 to |s.mqttUsers|
        invariant auth == old(auth) && Logins(s.mqttUsers[..i], w, g) == Some(users)
      {
        LoginsSnoc(s.mqttUsers, i, w, g);
        var c := CredentialOf(s.mqttUsers[i], w, g);
        if c.None? {
          LostCredential(s.mqttUsers, i, w, g);
          return false;
        }
        users := users[s.mqttUsers[i].username := c.value];
      }
      assert s.mqttUsers[..|s.mqttUsers|] == s.mqttUsers;
      auth := Auth(users, AccessRules(s.acls));
      return true;
    }

    method ApplyRulesConf(s: FullSnapshot, g: Engine) returns (ending: Ending)
      modifies this`rules
      ensures (rules, ending) == ApplyRules(old(rules), s, g)
    {
      hide Compile;
      if !RulesOk(s.rules) {
        return RefusedOne;
      }
      rules := map[];
      for i := 0 to |s.rules|
        invariant InsertRules(map[], s.rules, g) == InsertRules(rules, s.rules[i..], g)
      {
        var rule := s.rules[i];
        assert s.rules[i..][1..] == s.rules[i + 1..];
        var compiled := Compile(rule, g.language);
        if compiled.Panics? {
          return Unwound;
        }
        if compiled.Refused? || rule.id in rules {
          return RefusedOne;
        }
        rules := rules[rule.id := compiled.rule];
      }
      return Took;
    }

    method ApplyAdminConf(s: FullSnapshot, g: Engine) returns (ok: bool)
      modifies this`admin
      ensures (admin, ok) == ApplyAdmin(old(admin), s, g)
    {
      if !AdminStore.RootOk(s.adminUsers) {
        return false;
      }
      if s.adminUsers == [] {
        admin := map["admin" := BuiltIn];
        return true;
      }
      var accounts: Accounts := map[];
      for i := 0 to |s.adminUsers|
        invariant accounts == AccountsOf(s.adminUsers[..i], g)
      {
        assert s.adminUsers[..i + 1][..i] == s.adminUsers[..i];
        accounts := accounts[s.adminUsers[i].username := AccountOf(s.adminUsers[i], g)];
      }
      assert s.adminUsers[..|s.adminUsers|] == s.adminUsers;
      admin := accounts;
      return true;
    }

    method CommitConf(next: FullSnapshot, env: Env) returns (version: Option<nat>)
      modifies this`registry, this`stateFile
      ensures (State(), version) == CommitWhole(old(State()), next, env)
    {
      if !WholeOk(next, env.committed) {
        return None;
      }
      var id := registry.nextId;
      if !env.stateWrites {
        registry := registry.(nextId := id + 1);
        return None;
      }
      stateFile := next;
      if !env.historyWrites {
        registry := registry.(nextId := id + 1);
        return None;
      }
      registry := Provenance.CommitWhole(registry, next);
      return Some(id);
    }

    method TruncateHistory(length: nat, env: Env)
      modifies this`registry
      ensures State() == Truncated(old(State()), length, env)
    {
      var versions := registry.versions[..Min(|registry.versions|, length)];
      registry := registry.(versions := versions);
      if env.historyWrites {
        registry := registry.(file := Provenance.Reverse(versions));
      }
    }

    method Finish(length: nat, env: Env, cut: bool)
      modifies this`registry
      ensures State() == Finished(old(State()), length, env, cut)
    {
      if cut {
        TruncateHistory(length, env);
      }
    }

    /** Owner by owner, then the commit, then the way back if it failed. */
    method ApplyAndCommit(candidate: FullSnapshot, env: Env, cut: bool) returns (reply: Reply)
      modifies this, engine
      ensures (State(), reply) == ApplyOwners(old(State()), candidate, env, cut)
    {
      hide WholeOk, ApplyAuth, ApplyRules, ApplyAdmin, CommitWhole, Finished, ApplyLive, Undo, PendingLive, StoppedAt,
           FirstBreak;
      var previous := registry.current;
      var length := |registry.versions|;
      var ok := ApplyAuthConf(candidate, env.applied, env.engine);
      if !ok {
        Finish(length, env, cut);
        return AuthRefused;
      }
      var ending := ApplyRulesConf(candidate, env.engine);
      if ending == Unwound {
        return NoReply;
      }
      if ending == RefusedOne {
        ok := ApplyAuthConf(previous, env.restored, env.engine);
        Finish(length, env, cut);
        return RulesRefused;
      }
      ok := ApplyAdminConf(candidate, env.engine);
      if !ok {
        ok := ApplyAuthConf(previous, env.restored, env.engine);
        ending := ApplyRulesConf(previous, env.engine);
        if ending == Unwound {
          return NoReply;
        }
        Finish(length, env, cut);
        return AdminRefused;
      }
      var log, pending, back := ApplyConnectorsLive(engine, previous.connectors, candidate.connectors, env.world);
      if !back {
        return NoReply;
      }
      var version := CommitConf(candidate, env);
      if version.Some? {
        return Reloaded(version.value, pending);
      }
      ok := ApplyAuthConf(previous, env.restored, env.engine);
      ending := ApplyRulesConf(previous, env.engine);
      if ending == Unwound {
        return NoReply;
      }
      ok := ApplyAdminConf(previous, env.engine);
      UndoConnectorsLive(engine, log);
      Finish(length, env, cut);
      return CommitFailed;
    }

    method Reload(candidate: FullSnapshot, env: Env) returns (reply: Reply)
      modifies this, engine
      ensures (State(), reply) == ApplyCandidate(old(State()), candidate, env)
    {
      hide WholeOk, ApplyOwners;
      if !WholeOk(candidate, env.checked) {
        return Invalid;
      }
      if candidate.adminUsers == [] && registry.current.adminUsers != [] {
        return NoAdministrator;
      }
      reply := ApplyAndCommit(candidate, env, true);
    }

    method Restore(id: nat, env: Env) returns (reply: Reply)
      modifies this, engine
      ensures (State(), reply) == ApplyRestore(old(State()), id, env)
    {
      hide WholeOk, ApplyOwners;
      var version := FindVersion(registry.versions, id);
      if version.None? {
        return NoSuchVersion;
      }
      if !WholeOk(version.value, env.checked) {
        return Invalid;
      }
      reply := ApplyAndCommit(version.value, env, false);
    }
  }
}
