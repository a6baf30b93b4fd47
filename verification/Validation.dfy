/** Validation of configuration roots: one root, the whole candidate of a reload, and the file at start. */
module Validation {
  import opened Prelude
  import opened Text
  import opened Config
  import opened SecretWalk
  import AdminStore
  import Chain

  const KNOWN_KINDS: seq<string> := [
    "alloydb", "aws_iot", "azure_blob", "azure_eventhubs", "azure_iot", "bigquery", "cassandra", "clickhouse",
    "cockroachdb", "confluent", "console", "couchbase", "databricks", "datalayers", "disk_log", "doris", "dynamodb",
    "elasticsearch", "gcp_iot", "gcp_pubsub", "greptimedb", "http", "influxdb", "iotdb", "kafka", "kinesis",
    "mongodb", "mqtt", "mqtt_bridge", "mssql", "mysql", "oci_streaming", "opc_ua", "opentsdb", "oracle", "postgres",
    "pulsar", "rabbitmq", "redis", "redshift", "rocketmq", "s3", "s3_tables", "snowflake", "sparkplug_b",
    "tablestore", "tdengine", "test", "timescaledb", "timestream", "webhook"]

  predicate ConnectorsOk(entries: seq<ConnectorEntry>) {
    && (forall i :: 0 <= i < |entries| ==>
         !Blank(entries[i].id) && !Blank(entries[i].kind) && entries[i].kind in KNOWN_KINDS)
    && (forall i, j :: 0 <= i < j < |entries| ==> entries[i].id != entries[j].id)
  }

  predicate ActionOk(a: RuleAction) {
    match a
    case Republish(topic, qos) => !Blank(topic) && qos <= 2
    case Log => true
    case ForwardConnector(id) => !Blank(id)
  }

  predicate RulesOk(rules: seq<RuleEntry>) {
    && (forall i :: 0 <= i < |rules| ==>
         && !Blank(rules[i].id) && !Blank(rules[i].topicFilter)
         && (rules[i].sql.Some? ==> !Blank(rules[i].sql.value))
         && forall a :: a in rules[i].actions ==> ActionOk(a))
    && (forall i, j :: 0 <= i < j < |rules| ==> rules[i].id != rules[j].id)
  }

  predicate MqttOk(users: seq<MqttUser>, acls: seq<Acl>) {
    && (forall i :: 0 <= i < |users| ==> !Blank(users[i].username) && users[i].passwordHash != "")
    && (forall i, j :: 0 <= i < j < |users| ==> users[i].username != users[j].username)
    && (forall i :: 0 <= i < |acls| ==>
         && !Blank(acls[i].username) && !Blank(acls[i].topic) && !Blank(acls[i].action)
         && AsciiLower(acls[i].action) in ["publish", "subscribe", "all"])
  }

  /** Every rule that forwards names a connector of the snapshot. */
  predicate ForwardsResolve(s: FullSnapshot) {
    forall i, a :: 0 <= i < |s.rules| && a in s.rules[i].actions && a.ForwardConnector? ==>
      exists j :: 0 <= j < |s.connectors| && s.connectors[j].id == a.connectorId
  }

  predicate SecretsResolve(users: seq<MqttUser>, w: Secrets) {
    forall i :: 0 <= i < |users| ==> Resolvable(users[i].passwordHash, w)
  }

  /** Validation of a reload candidate: four roots, the references between them, and the secrets. */
  predicate WholeOk(s: FullSnapshot, w: Secrets) {
    && AdminStore.RootOk(s.adminUsers)
    && MqttOk(s.mqttUsers, s.acls)
    && RulesOk(s.rules)
    && ConnectorsOk(s.connectors)
    && ForwardsResolve(s)
    && SecretsResolve(s.mqttUsers, w)
  }

  /** An administrator without a name, a verifier or a known role, or two of one name. */
  ghost predicate AdminFault(users: seq<AdminEntry>) {
    || (exists i :: 0 <= i < |users| &&
         (Trim(users[i].username) == "" || users[i].passwordHash == ""
          || users[i].role !in {"administrator", "viewer"}))
    || (exists i, j :: 0 <= i < j < |users| && users[i].username == users[j].username)
  }

  /** A login without a name or a verifier, or two of one name. */
  ghost predicate UserFault(users: seq<MqttUser>) {
    || (exists i :: 0 <= i < |users| && (Trim(users[i].username) == "" || users[i].passwordHash == ""))
    || (exists i, j :: 0 <= i < j < |users| && users[i].username == users[j].username)
  }

  /** An access rule without a client pattern or a topic pattern, or on something that is no deed. */
  ghost predicate AccessFault(acls: seq<Acl>) {
    exists i :: 0 <= i < |acls| &&
      (Trim(acls[i].username) == "" || Trim(acls[i].topic) == ""
       || AsciiLower(acls[i].action) !in {"publish", "subscribe", "all"})
  }

  /** An action without a topic or a connector, or with a QoS there is not. */
  predicate BadAction(a: RuleAction) {
    match a
    case Republish(topic, qos) => Trim(topic) == "" || qos > 2
    case Log => false
    case ForwardConnector(id) => Trim(id) == ""
  }

  /** A rule without an id or a filter, with blank SQL or with a bad action, or two of one id. */
  ghost predicate RuleFault(rules: seq<RuleEntry>) {
    || (exists i :: 0 <= i < |rules| &&
         (Trim(rules[i].id) == "" || Trim(rules[i].topicFilter) == ""
          || (rules[i].sql.Some? && Trim(rules[i].sql.value) == "")
          || exists a :: a in rules[i].actions && BadAction(a)))
    || (exists i, j :: 0 <= i < j < |rules| && rules[i].id == rules[j].id)
  }

  /** A connector without an id or of no known kind, or two of one id. */
  ghost predicate ConnectorFault(entries: seq<ConnectorEntry>) {
    || (exists i :: 0 <= i < |entries| &&
         (Trim(entries[i].id) == "" || Trim(entries[i].kind) == "" || entries[i].kind !in KNOWN_KINDS))
    || (exists i, j :: 0 <= i < j < |entries| && entries[i].id == entries[j].id)
  }

  /** A rule that forwards to a connector that is not in the snapshot. */
  ghost predicate ForwardFault(s: FullSnapshot) {
    exists i, id: string :: 0 <= i < |s.rules| && ForwardConnector(id) in s.rules[i].actions &&
      forall j :: 0 <= j < |s.connectors| ==> s.connectors[j].id != id
  }

  /** A login whose verifier is a reference that names nothing or cannot be read. */
  ghost predicate SecretFault(users: seq<MqttUser>, w: Secrets) {
    exists i :: 0 <= i < |users| &&
      var hash := Trim(users[i].passwordHash);
      ("file:" <= hash || "env:" <= hash) && !Readable(hash, w)
  }

  /** A candidate is refused as invalid exactly for one of these. */
  lemma InvalidExactly(s: FullSnapshot, w: Secrets)
    ensures !WholeOk(s, w) <==>
            || AdminFault(s.adminUsers) || UserFault(s.mqttUsers) || AccessFault(s.acls) || RuleFault(s.rules)
            || ConnectorFault(s.connectors) || ForwardFault(s) || SecretFault(s.mqttUsers, w)
  {
    AdminFaults(s.adminUsers);
    MqttFaults(s.mqttUsers, s.acls);
    RuleFaults(s.rules);
    ConnectorFaults(s.connectors);
    ForwardFaults(s);
    SecretFaults(s.mqttUsers, w);
    hide AdminStore.RootOk, MqttOk, RulesOk, ConnectorsOk, ForwardsResolve, SecretsResolve, AdminFault, UserFault,
         AccessFault, RuleFault, ConnectorFault, ForwardFault, SecretFault;
  }

  lemma AdminFaults(users: seq<AdminEntry>)
    ensures !AdminStore.RootOk(users) <==> AdminFault(users)
  {
    hide Trim;
  }

  lemma MqttFaults(users: seq<MqttUser>, acls: seq<Acl>)
    ensures !MqttOk(users, acls) <==> UserFault(users) || AccessFault(acls)
  {
    forall i | 0 <= i < |acls| { ActionNamed(acls[i].action); }
    hide Trim, AsciiLower;
  }

  /** A known action is not blank. */
  lemma ActionNamed(action: string)
    ensures AsciiLower(action) in {"publish", "subscribe", "all"} ==> Trim(action) != ""
  {
    if AsciiLower(action) in {"publish", "subscribe", "all"} {
      var n := |action|;
      assert |AsciiLower(action)| == n >= 3;
      assert 'a' <= AsciiLower(action)[0] <= 'z' && 'a' <= AsciiLower(action)[n - 1] <= 'z';
      TrimFixed(action);
    }
  }

  lemma RuleFaults(rules: seq<RuleEntry>)
    ensures !RulesOk(rules) <==> RuleFault(rules)
  {
    hide Trim;
  }

  lemma ConnectorFaults(entries: seq<ConnectorEntry>)
    ensures !ConnectorsOk(entries) <==> ConnectorFault(entries)
  {
    hide Trim;
  }

  lemma ForwardFaults(s: FullSnapshot)
    ensures !ForwardsResolve(s) <==> ForwardFault(s)
  {
    if !ForwardsResolve(s) {
      var i, a :| 0 <= i < |s.rules| && a in s.rules[i].actions && a.ForwardConnector?
        && forall j :: 0 <= j < |s.connectors| ==> s.connectors[j].id != a.connectorId;
      assert ForwardConnector(a.connectorId) in s.rules[i].actions;
    }
  }

  lemma SecretFaults(users: seq<MqttUser>, w: Secrets)
    ensures !SecretsResolve(users, w) <==> SecretFault(users, w)
  {
    forall i | 0 <= i < |users| { ResolvableExactly(users[i].passwordHash, w); }
    hide Resolvable, Readable, Trim;
  }

  const MAX_NODE_CACHE: nat := 1000000

  predicate NodeCacheOk(c: NodeCache) {
    0 < c.maxCount <= MAX_NODE_CACHE
  }

  /** Which texts read as a duration, and which as a size that is not zero. */
  datatype Formats = Formats(duration: string -> bool, size: string -> bool)

  predicate SettingsOk(s: Settings, f: Formats) {
    && 0 < s.maxCount <= MAX_NODE_CACHE
    && f.duration(s.cacheTtl) && f.duration(s.cleanupInterval) && f.duration(s.statUpdateInterval)
    && (AsciiLower(Trim(s.maxMemory)) == "unlimited" || f.size(s.maxMemory))
    && f.duration(s.refreshInterval)
  }

  /** The roots that a reload takes over unchecked. */
  predicate UncheckedOk(s: FullSnapshot, f: Formats) {
    Chain.RootOk(s.authnChain) && NodeCacheOk(s.nodeCache) && SettingsOk(s.settings, f)
  }

  /** Validation of the state file when the broker starts. */
  predicate LoadOk(s: FullSnapshot, f: Formats) {
    && AdminStore.RootOk(s.adminUsers)
    && MqttOk(s.mqttUsers, s.acls)
    && RulesOk(s.rules)
    && ConnectorsOk(s.connectors)
    && Chain.RootOk(s.authnChain)
    && NodeCacheOk(s.nodeCache)
    && SettingsOk(s.settings, f)
  }

  /**
   * What a reload accepts and persists loads again at the next start exactly when its three unchecked roots are
   * valid.
   */
  lemma AcceptedLoadsExactly(s: FullSnapshot, w: Secrets, f: Formats)
    requires WholeOk(s, w)
    ensures LoadOk(s, f) <==> UncheckedOk(s, f)
  {
  }

  const UNKNOWN_MECHANISM: FullSnapshot := EMPTY.(authnChain := [ChainEntry("x", "unknown", "file", true, "")])
  const NO_CACHE_ROOM: FullSnapshot := EMPTY.(nodeCache := NodeCache(true, 0))
  const NO_SETTINGS_ROOM: FullSnapshot := EMPTY.(settings := DEFAULT_SETTINGS.(maxCount := 0))

  lemma NothingListedValid(s: FullSnapshot, w: Secrets)
    requires s.adminUsers == [] && s.mqttUsers == [] && s.acls == [] && s.rules == [] && s.connectors == []
    ensures WholeOk(s, w)
  {
  }

  lemma UnknownMechanismRefused()
    ensures !Chain.RootOk(UNKNOWN_MECHANISM.authnChain)
  {
    assert !Chain.KnownMechanism("unknown");
    var slot := UNKNOWN_MECHANISM.authnChain[0];
    assert !Chain.SlotOk(slot);
  }

  /** Three candidates that a reload accepts and the next start refuses, each for another root. */
  lemma AcceptedButNotLoadable(w: Secrets, f: Formats)
    ensures WholeOk(UNKNOWN_MECHANISM, w) && !LoadOk(UNKNOWN_MECHANISM, f)
    ensures WholeOk(NO_CACHE_ROOM, w) && !LoadOk(NO_CACHE_ROOM, f) && Chain.RootOk(NO_CACHE_ROOM.authnChain)
    ensures WholeOk(NO_SETTINGS_ROOM, w) && !LoadOk(NO_SETTINGS_ROOM, f)
    ensures Chain.RootOk(NO_SETTINGS_ROOM.authnChain) && NodeCacheOk(NO_SETTINGS_ROOM.nodeCache)
  {
    hide WholeOk, Chain.RootOk, ConnectorsOk, RulesOk, MqttOk, AdminStore.RootOk;
    NothingListedValid(UNKNOWN_MECHANISM, w);
    NothingListedValid(NO_CACHE_ROOM, w);
    NothingListedValid(NO_SETTINGS_ROOM, w);
    UnknownMechanismRefused();
    NoChainValid();
  }

  lemma NoChainValid()
    ensures Chain.RootOk([])
  {
  }
}
