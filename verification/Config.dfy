/** The configuration roots held by the registry. */
module Config {
  import opened Prelude
  import opened Text

  datatype AdminEntry = AdminEntry(
    username: string, passwordHash: string, role: string, description: string, mustChange: bool)

  datatype MqttUser = MqttUser(username: string, passwordHash: string, maxConnections: Option<nat>)

  datatype Acl = Acl(username: string, action: string, topic: string, allow: bool)

  datatype RuleAction = Republish(topic: string, qos: nat) | Log | ForwardConnector(connectorId: string)

  datatype RuleEntry = RuleEntry(
    id: string, topicFilter: string, sql: Option<string>, enabled: bool, actions: seq<RuleAction>)

  datatype ConnectorEntry = ConnectorEntry(id: string, kind: string, enable: bool, config: string)

  datatype ChainEntry = ChainEntry(id: string, mechanism: string, backend: string, enable: bool, config: string)

  datatype NodeCache = NodeCache(enabled: bool, maxCount: nat)

  datatype Settings = Settings(
    ignoreBackendFailures: bool,
    enable: bool,
    cacheTtl: string,
    cleanupInterval: string,
    statUpdateInterval: string,
    maxCount: nat,
    maxMemory: string,
    refreshInterval: string)

  const DEFAULT_NODE_CACHE: NodeCache := NodeCache(true, 10000)
  const DEFAULT_SETTINGS: Settings := Settings(false, true, "1m", "1m", "5s", 10000, "100MB", "1h")

  datatype FullSnapshot = FullSnapshot(
    adminUsers: seq<AdminEntry>,
    mqttUsers: seq<MqttUser>,
    acls: seq<Acl>,
    rules: seq<RuleEntry>,
    connectors: seq<ConnectorEntry>,
    authnChain: seq<ChainEntry>,
    nodeCache: NodeCache,
    settings: Settings)

  const EMPTY: FullSnapshot := FullSnapshot([], [], [], [], [], [], DEFAULT_NODE_CACHE, DEFAULT_SETTINGS)
}
