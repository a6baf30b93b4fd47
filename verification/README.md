# IndraMQTT control plane and console: a verified model

This project models the parts of IndraMQTT's management API, console socket and authentication that keep
state or translate between formats, and proves what they promise over every input, run or interleaving.
The project is verified as a whole with `dafny verify dfyconfig.toml`.

## What is modelled

- **Reload and restore** (`RuleSql`, `Owners`, `Reload`, `Validation`, cases in `ReloadCases`). A candidate
  configuration is validated, applied to the credential store, the rule engine, the administrator accounts and the live
  connectors, and committed. The theorems tell, for every candidate and every way of failing, what is
  installed and what is rolled back. `RuleSql` is the compilation of one rule, with the two text scans.
- **Connector directory** (`ConnectorLive`). The two loops that take sinks out of the live directory and
  register new ones under an id and an alias, with the undo log, on a shared mutable directory.
- **Provenance** (`Provenance`). The version history, its file, the diff, and the search for the version
  that last set a key, over every run of commits and across a restart.
- **Secret walks** (`SecretWalk`). Redaction and resolution of secret references in a JSON document.
- **Console wire format** (`RemainingLength`, `Framing`, `Packets`). The MQTT 3.1.1 length code, the carry
  buffer, CONNECT, SUBSCRIBE and PUBLISH, and the second publish layout.
- **Console sockets** (`Console`, `ConsoleRuns`, cases in `ConsoleCases`). The packet handler and the teardown of
  any number of sockets over one connection gauge, one router, one session mirror and the users' slots.
- **JWKS key cache** (`JwksKeySet`, `JwksProtocol`). The key set as a function of the served document, and the
  concurrent protocol of verifiers and the background task as interleaved steps.
- **Authenticator chain** (`Chain`). List, snapshot and persisted root, with insert, update, remove and reorder.
- **Administrator accounts** (`AdminStore`, `Credentials`). Concurrent calls, the export and reload of the
  store, SCRAM verification and the verifier's text form.
- **Pagination** (`Pagination`).

`Prelude`, `Text` and `Config` hold shared types, string functions and the configuration roots.

Each stateful operation has a specification function. The theorems are about the functions. The classes and
loops, which have the form of the source, are proved to compute them.

## Where the code does less than it says

The model follows the code. Each of these names first the theorem with the exact condition under which the promise
holds, then concrete cases.

- A reload that the rule engine refuses keeps the rules before the refused one; the previous rules are not put
  back (`Reload.ReloadExactly`, `ReloadCases.RulesNotPutBack`).
- A commit that fails on the history file has already replaced the state file (`Reload.ReloadExactly`,
  `ReloadCases.StateFileReplaced`).
- Credentials are put back by resolving the previous references again, which may have changed or gone
  (`Reload.AuthRestored`, `ReloadCases.CredentialsNotPutBack`).
- A topic filter that ends in `#` after a character outside ASCII panics in its check
  (`crates/broker-protocol/src/lib.rs:110`), and so does a rule's SQL where four octets from an `i` or `f` lie
  inside a character (`crates/broker-rules/src/lib.rs:1424` and `:1603`). A reload then stops half applied
  (`Reload.OwnersReplies`, `RuleSql.PanicsExactly`; `ReloadCases.HalfApplied`, `ReloadCases.AccentedFilter`,
  `ReloadCases.SplitWord`).
- The same filter in a SUBSCRIBE, or as a pattern of an access rule on any SUBSCRIBE or PUBLISH, ends a console
  socket without its teardown (`ConsoleRuns.GaugeExactly`; `ConsoleCases.PanicLeaks`,
  `ConsoleCases.PublishLeaks`, `ConsoleCases.SubscribeUnwinds`).
- A connector that does not come back leaves the candidate's credentials, rules and accounts under the old
  registry (`Reload.ReloadExactly`, `ReloadCases.AbandonedAtConnector`).
- The guard at `crates/broker-api/src/config_runtime.rs:188` asks for a non-empty list, not for an administrator
  who can log in (`Reload.AdministratorAfterReload`; `ReloadCases.ViewerOnlyReload`,
  `ReloadCases.LockedOnlyReload`).
- Its comment promises the guard for restores too; only reloads have it (`Reload.AdministratorAfterRestore`,
  `ReloadCases.RestoreOpensDefault`).
- A reload changes the chain, node-cache and settings roots of the registry and loads none of them
  (`Reload.UnlistedAgreeExactly`, `ReloadCases.ChainNotLoaded`).
- Whole validation does not look at the chain, node-cache and settings roots, which the next start does
  (`Reload.NextStartLoadsExactly`, `Validation.AcceptedButNotLoadable`).
- The rollback of connectors does not know second aliases, and ids with colons can collide
  (`ConnectorLive.RollbackRestores`, `ConnectorLive.MongoAliasStays`, `ConnectorLive.CollidingKeysBreakRollback`).
- At the cap the history file loses the newest old version, so `explain` can name a wrong version after a
  restart (`Provenance.RestartSoundExactly`, `Provenance.WrongAfterRestart`).
- After a failed history write the state file has a snapshot that no version records, so `explain` is wrong after
  a restart for the keys it changed (`Provenance.FailedCommitRestart`, `Provenance.RuleWithoutVersion`).
- `explain` takes the row of a setting named `a].b` for one of the setting `a`, and then names a version that did
  not set it (`Provenance.ReportedExactly`, `Provenance.LookalikeReported`).
- Redaction leaves a bare `file:` or `env:` leaf (`SecretWalk.RedactLeavesNoReference`,
  `SecretWalk.BareReferenceSurvives`).
- A chunk that ends inside a fixed header, or an empty first message, closes the socket
  (`Framing.FramerRefinesParser`, `Framing.SplitHeaderCloses`, `Framing.EmptyFirstMessageCloses`).
- Topics of more than 65528 octets are accepted and delivered to nobody (`Packets.DeliveryPreservesMeaning`,
  `Packets.LongTopicReachesNobody`).
- The teardown of a console socket removes its filters by client id, so it also removes those of another live
  socket of that client (`ConsoleRuns.CloseKeepsExactly`, `ConsoleCases.TakeoverUnroutes`).
- A CONNECT of a live client that is refused for want of a slot has already given one back
  (`Console.ConnectAnsweredExactly`, `ConsoleCases.RefusedGivesSlotBack`).
- The order of served keys matters when one kid is served with two materials
  (`JwksKeySet.OrderIndependentExactly`, `JwksKeySet.TwoMaterialsOneKid`).
- `hasnext` is wrong for a limit of zero and can be for page zero, which no query string can produce
  (`Pagination.HasNextExactly`, `Pagination.HasNextWrong`).

## Assumptions, each a parameter or a hypothesis of the theorems that need it

- SHA-256 is any function to 32 octets; HMAC, PBKDF2 and SCRAM are built on it.
- Base64 and the JSON text form decode what they encode (`Credentials.RoundTrips`, `Chain.Faithful`).
- Sinks built by a reload are new objects (`ConnectorLive.NewSinks`).
- The downlink packet id drawn for a subscriber is not zero.
- The SQL parser's answer (which may be a panic), the alphanumeric characters, base64 and what a stored MQTT
  verifier parses to are fixed by the program (`Owners.Engine`). Secrets may differ at the check, the application,
  the commit and the rollback of one request and between requests. A hash made from a secret is represented by
  the secret, so that fresh salts do not count as a difference.
- Whether a connector's constructor or probe comes back is a parameter (`ConnectorLive.World.breaks`). It stands
  for a panic in a driver and for a request that its client drops while it waits.
- Panics unwind and integer overflow is not checked, as in the release profile.
- The SQL scans ask which characters are alphanumeric; `RuleSql.IntoTargetExactly` needs that letters are, and that
  white space and an opening parenthesis are not.
- What a pattern of an access rule matches, once it is not one that panics, is a parameter (`Console.Env`).
- Which texts read as a duration or a size in the settings root is a parameter (`Validation.Formats`).

## Model

| member | source | states |
|---|---|---|
| Reload.ReloadExactly | crates/broker-api/src/config_runtime.rs:172-256 | A candidate that is turned away changes nothing. Any other is installed in the four owners, registry, files and history exactly when its secrets resolve, its rules are all taken, every connector comes back and both files are written. If a connector does not come back, credentials, rules and accounts are the candidate's and the registry is the old one. Otherwise accounts, running snapshot and history stay, and credentials, rules, connector directory and state file stay exactly under conditions read off the candidate, the running snapshot and the secrets. Live chain, node cache and settings never change |
| Reload.RestoreExactly | crates/broker-api/src/config_runtime.rs:262-327 | A restore of the version at any place of the history, the first with its id, applies exactly its snapshot and ends like a reload; an invalid one changes nothing |
| Reload.NoSuchVersionExactly | crates/broker-api/src/config_runtime.rs:267-275 | A restore is answered with no such version exactly when no version has the id, and then changes nothing |
| Reload.HistoryFileAfter | crates/broker-api/src/config_runtime.rs:160-169 | The history file after a request that failed: an answered reload rewrites it if that works, and nothing else does |
| Reload.OwnersReplies | crates/broker-api/src/config_runtime.rs:200-255 | The reply to a validated candidate: refused for an unresolved secret, refused or unwound at the first rule the engine does not take, unwound at a connector that does not come back, failed commit for a lost secret or a failed file, never refused by the accounts |
| Reload.AuthRestored | crates/broker-api/src/config_runtime.rs:207-244 | The credentials are put back exactly when the previous references resolve to the same octets as before, or, when they do not resolve, when the candidate's logins are the same all along |
| Reload.RulesLeft | crates/broker-api/src/config_runtime.rs:206-212 | A candidate the engine does not take leaves exactly its compiled rules before the first bad one, which is the previous table exactly when those are the previous compiled rules |
| Reload.AgreedHolds | crates/broker-api/src/config_runtime.rs:198-232 | Owners that agree with the registry hold exactly the entries of the running snapshot: every user with its own credential, every rule compiled under its id, every account, and no others |
| Reload.AgreementExactly | crates/broker-api/src/config_runtime.rs:200-255 | After an applied request the owners agree with the registry exactly when it was installed, or what it left in credentials, rules and accounts is what the previous snapshot gives |
| Reload.OwnersAlwaysAgreeExactly | crates/broker-api/src/config_runtime.rs:172-327 | In every run of reloads and restores whose connector keys do not collide, whatever fails, panics or changes in it, each owner holds after every request exactly what the running snapshot says if and only if every request in turn meets that condition |
| Reload.AdministratorAfterReload | crates/broker-api/src/config_runtime.rs:183-192 | After a reload somebody can administer exactly when the accounts were taken from a candidate that lists nobody or an administrator whose verifier decodes, or were not taken and somebody could before; the default account is never opened |
| Reload.AdministratorAfterRestore | crates/broker-api/src/config_runtime.rs:262-327 | The same for a restore of the version at any place, which opens the default account exactly when it takes its accounts from a version that lists nobody |
| Reload.UnlistedAgreeExactly | crates/broker-node/src/main.rs:8811-8822 | After a reload the live chain, node cache and settings agree with the registry exactly when the installed candidate's roots load to what is live already, or, if it was not installed, when they did before |
| Validation.InvalidExactly | crates/broker-config/src/runtime.rs:230-286 | A candidate is invalid exactly for a nameless, repeated or incomplete administrator, login, access rule, rule or connector, a forward to no connector, or a secret that cannot be read |
| Reload.NextStartLoadsExactly | crates/broker-config/src/lib.rs:951-1056 | The state file a reload leaves behind is accepted at the next start exactly when the candidate's chain, node-cache and settings roots are valid |
| Reload.Broker.ApplyAndCommit | crates/broker-api/src/config_runtime.rs:200-255 | Owner by owner, then the commit, then the way back: the step-by-step code reaches exactly the state and reply of the specification |
| Reload.Broker.Reload | crates/broker-api/src/config_runtime.rs:172-256 | The reload on the broker object, with validation and the administrator guard first |
| Reload.Broker.Restore | crates/broker-api/src/config_runtime.rs:262-327 | The restore on the broker object |
| Reload.Broker.ApplyAuthConf | crates/broker-auth/src/lib.rs:683-757 | The seeding loop replaces the credential store, or leaves it when any reference is lost |
| Reload.Broker.ApplyRulesConf | crates/broker-rules/src/lib.rs:986-1012 | The seeding loop clears the table and stops at the first rule that is refused or panics, by its filter or in its SQL, keeping those before it |
| Reload.Broker.ApplyAdminConf | crates/broker-api/src/admin_users.rs:201-208 | The accounts are replaced by those of the root, locked where a verifier does not decode, or by the built-in default |
| Reload.Broker.CommitConf | crates/broker-config/src/lib.rs:1183-1228 | The whole commit writes the state file, then the history, and only then changes memory |
| Reload.Broker.TruncateHistory | crates/broker-api/src/config_runtime.rs:160-169 | Cutting the history to a length and rewriting its file |
| RuleSql.PanicsExactly | crates/broker-rules/src/lib.rs:834-880 | A rule panics exactly when its filter does, or when filter and actions are taken and a scan of its SQL is cut inside a character or the parser panics |
| RuleSql.RunsExactly | crates/broker-rules/src/lib.rs:834-912 | A rule runs exactly when filter and actions are taken and it has no SQL or SQL whose statement parses; it then runs as given, and forwards once to the connector of its INTO |
| RuleSql.FilterOkExactly | crates/broker-protocol/src/lib.rs:97-117 | A filter is taken exactly when its only hash sign, if any, stands alone or behind a slash at the end |
| RuleSql.UnwindsExactly | crates/broker-protocol/src/lib.rs:97-117 | A filter panics exactly when it ends in its only hash sign, right after a character outside ASCII |
| RuleSql.FoundExactly | crates/broker-rules/src/lib.rs:1566-1606 | A scan finds the first spot where its keyword stands as a word, unless it is cut before |
| RuleSql.WordExactly | crates/broker-rules/src/lib.rs:1600-1606 | The keyword stands at a place exactly when the text goes on with it, in any case, and no word goes on around it |
| RuleSql.SpotExactly | crates/broker-rules/src/lib.rs:1575-1602 | A scan for INTO looks at every i outside quotes and parentheses, one for FROM at every f, in either case |
| RuleSql.CutsInsideExactly | crates/broker-rules/src/lib.rs:1600-1603 | Four octets end inside a character exactly when one begins before their end and ends after it |
| RuleSql.ActionTakenExactly | crates/broker-rules/src/lib.rs:1072-1102 | Which actions are taken |
| RuleSql.OverQuoted | crates/broker-rules/src/lib.rs:1575-1600 | A quoted text leaves the scan where it stands |
| RuleSql.OverParentheses | crates/broker-rules/src/lib.rs:1575-1600 | So does a text in parentheses, and a closing one without its opening is passed over |
| RuleSql.SplitExactly | crates/broker-rules/src/lib.rs:1566-1665 | What a statement is split into: panics at a cut, refused for a bad clause, else the text before INTO and the connector named |
| RuleSql.IntoTargetExactly | crates/broker-rules/src/lib.rs:1607-1655 | The connector is found exactly in connector(id) with its id quoted, in any case, with white space and final semicolons where they may stand |
| RuleSql.QuotedReplaced | crates/broker-rules/src/lib.rs:1433-1470 | A quoted target of FROM becomes one word and what stands around it stays |
| RuleSql.BareReplaced | crates/broker-rules/src/lib.rs:1433-1470 | The same for a bare target, which ends at white space, a separator or the end |
| RuleSql.OpenQuote | crates/broker-rules/src/lib.rs:1444-1453 | A quote that does not end leaves the statement as it is |
| RuleSql.CutExactly | crates/broker-rules/src/lib.rs:1414-1427 | A scan for INTO or FROM is cut exactly when four octets from some spot lie inside a character and the keyword stands at no spot before it |
| RuleSql.ScanFor | crates/broker-rules/src/lib.rs:1566-1655 | The scanning loop with its depth and quote finds the keyword, nothing, or a cut inside a character, as specified |
| Reload.TruncatedExactly | crates/broker-config/src/lib.rs:1252-1263 | Cutting the history keeps the oldest versions up to a length, and the file, if it can be written, lists them newest first |
| Owners.AuthAcceptedExactly | crates/broker-auth/src/lib.rs:683-757 | A validated root is refused by the credential store exactly when a reference does not resolve, and then changes nothing |
| Owners.CredentialExactly | crates/broker-auth/src/lib.rs:683-757 | A login from a reference has the octets behind it, any other what its text parses to, both with their connection limit |
| Owners.RulesAppliedExactly | crates/broker-rules/src/lib.rs:986-1012 | How a validated root ends in the rule engine, taken, refused or unwound, and exactly which rules the engine then has |
| Owners.SameAuthExactly | crates/broker-auth/src/lib.rs:683-757 | Two snapshots give the same credential store exactly when they list the same logins, each with its parsed verifier or the secret of its time, and the same access rules |
| Owners.SameSecretsExactly | crates/broker-auth/src/lib.rs:683-757 | One snapshot applied at two times gives the same store exactly when no secret has changed |
| Owners.SameTableExactly | crates/broker-rules/src/lib.rs:834-1012 | Two lists give the same rule table exactly when they compile to the same rules under the same ids |
| Owners.AdministratorsExactly | crates/broker-api/src/admin_users.rs:119-182 | Somebody can administer exactly when the accounts were made from an empty list or one with an administrator whose verifier decodes; the default account is live exactly for the empty list |
| Owners.SameAdminExactly | crates/broker-api/src/admin_users.rs:119-182 | Two lists give the same accounts exactly when both are empty or they list the same names with the same accounts |
| ReloadCases.RulesNotPutBack | crates/broker-api/src/config_runtime.rs:206-212 | A running rule, and a candidate refused for the filter a#, after which the engine has no rules |
| ReloadCases.RefusedLeavesNone | crates/broker-api/src/config_runtime.rs:206-212 | Any candidate whose first rule is refused leaves the engine with no rules |
| ReloadCases.StateFileReplaced | crates/broker-config/src/lib.rs:1218-1226 | A commit that fails on the history file leaves the candidate in the state file |
| ReloadCases.CredentialsNotPutBack | crates/broker-api/src/config_runtime.rs:242-250 | A failed commit after the previous secret was lost leaves the candidate's credentials |
| ReloadCases.ViewerOnlyReload | crates/broker-api/src/config_runtime.rs:183-192 | An installation with a usable administrator, and a candidate that lists a viewer only: installed, and nobody can administer |
| ReloadCases.LockedOnlyReload | crates/broker-api/src/admin_users.rs:140-156 | The same for a candidate whose only administrator has a verifier that does not decode |
| ReloadCases.RestoreOpensDefault | crates/broker-api/src/config_runtime.rs:262-327 | A restore opens the default account where a reload of the same snapshot is refused |
| ReloadCases.HalfApplied | crates/broker-api/src/config_runtime.rs:200-212 | A validated candidate with a panicking rule: credentials replaced, rules cleared, nothing put back |
| ReloadCases.AccentedFilter | crates/broker-protocol/src/lib.rs:97-117 | That happens with an accented filter before a final hash sign |
| ReloadCases.SplitWord | crates/broker-rules/src/lib.rs:1414-1427 | And with the statement SELECT Gefäß FROM t, whatever the parser |
| ReloadCases.AbandonedAtConnector | crates/broker-api/src/config_runtime.rs:456-515 | A candidate whose connector does not come back: its credentials are in place, the registry is the old one, there is no reply |
| ReloadCases.ChainNotLoaded | crates/broker-api/src/config_runtime.rs:200-226 | A reload that adds the first authenticator is installed and the live chain is still empty |
| Validation.AcceptedButNotLoadable | crates/broker-config/src/runtime.rs:230-286 | Three snapshots that a reload accepts and the next start refuses, for the chain, the node cache and the settings |
| ConnectorLive.RollbackRestores | crates/broker-api/src/config_runtime.rs:420-568 | Undoing a reload's connector work restores the live directory, same keys and same sinks, if and only if no candidate entry leaks, which can be read off beforehand |
| ConnectorLive.CandidateOutcome | crates/broker-api/src/config_runtime.rs:436-523 | After the loops: an enabled entry that was added or changed is pending, and not live, exactly when its parameters do not resolve, its target is unreachable, its kind is not compiled in or its constructor fails; otherwise every own key holds exactly the constructed sink; an unchanged one keeps its exact sink; a disabled one has neither id nor alias live |
| ConnectorLive.GoneOutcome | crates/broker-api/src/config_runtime.rs:436-523 | A connector that is gone is live under neither its id nor its alias; the pending list is sorted without repeats |
| ConnectorLive.PendingExactly | crates/broker-api/src/config_runtime.rs:456-523 | An id is listed as pending exactly when an enabled entry of that id was added or changed and one of those four holds |
| ConnectorLive.FinalViews | crates/broker-api/src/config_runtime.rs:420-524 | What every key of the directory holds after both loops, key by key, and what the undo log says of it |
| ConnectorLive.StoppedViews | crates/broker-api/src/config_runtime.rs:436-515 | What a key holds when the reload does not come back from an entry: those before it are done, what was in its way is out, and no other key has changed |
| ConnectorLive.BreaksExactly | crates/broker-api/src/config_runtime.rs:456-515 | A reload does not come back from an entry exactly when it is enabled, added or changed, its parameters resolve and its probe or constructor does not come back |
| ConnectorLive.ColonFreeIdsStayApart | crates/broker-api/src/config_runtime.rs:526-559 | Ids without a colon are enough for no connector's id to be another's alias |
| ConnectorLive.SecondAliasStays | crates/broker-api/src/v5/rules.rs:1450-1502 | A kind with a second alias leaves it live after a rollback unless it had been taken out |
| ConnectorLive.MongoAliasStays | crates/broker-api/src/v5/rules.rs:1450-1502 | Adding a MongoDB connector to an empty directory and rolling back leaves its second alias |
| ConnectorLive.CollidingKeysBreakRollback | crates/broker-api/src/config_runtime.rs:526-568 | Two connectors, one of whose ids is the other's alias, for which the rollback does not restore the directory |
| ConnectorLive.ApplyConnectorsLive | crates/broker-api/src/config_runtime.rs:420-524 | Both loops over the shared directory and the log reach the specified directory, log and pending list |
| ConnectorLive.ApplyOne | crates/broker-api/src/config_runtime.rs:456-515 | One candidate entry: skip, take out, and bring up or list as pending |
| ConnectorLive.BringUp | crates/broker-api/src/v5/rules.rs:962-1020 | Resolve, probe and register one entry that should be live |
| ConnectorLive.TakeLiveSink | crates/broker-api/src/config_runtime.rs:526-543 | Taking a sink out under its id and its alias, logged |
| ConnectorLive.TakeLiveSinkAlias | crates/broker-api/src/config_runtime.rs:545-559 | Taking a sink out under its alias alone, logged |
| ConnectorLive.UndoConnectorsLive | crates/broker-api/src/config_runtime.rs:561-568 | Undoing the log: drop what was added, then put back what was removed |
| ConnectorLive.ConnectorManager.Register | crates/broker-connectors/src/lib.rs:360-365 | Registering replaces one key and nothing else |
| ConnectorLive.ConnectorManager.Unregister | crates/broker-connectors/src/lib.rs:367-369 | Unregistering removes one key and nothing else |
| Provenance.ReportedIsSound | crates/broker-api/src/config_runtime.rs:674-726 | On a history whose versions link up and whose newest is the running snapshot, the key has the same value in the reported version, every later one and the running snapshot; one found by a row is the newest that touched it |
| Provenance.EveryRunSound | crates/broker-config/src/lib.rs:1183-1282 | After every run of commits since a first start, recorded, unrecorded or failed, and of restarts that lose nothing, the answer for every key is sound and is the newest version that touched it |
| Provenance.StepExactly | crates/broker-config/src/lib.rs:1183-1282 | A commit that records gives the next id to a version of the new snapshot with its diff, the newest then and the oldest gone at the cap; the others change the running snapshot or the next id only; a restart goes on after the newest version it finds |
| Provenance.LosslessExactly | crates/broker-config/src/lib.rs:1183-1282 | A restart after a commit of one root loses nothing; after a whole commit exactly when the history was below its cap |
| Provenance.NamedExactly | crates/broker-api/src/config_runtime.rs:712-726 | A key names a setting exactly when it is the name of its root, a dot and its own |
| Provenance.ValueExactly | crates/broker-api/src/config_runtime.rs:728-774 | The value of a named setting is that of its entry, and of the access rules all of them |
| Provenance.NoRowSameValue | crates/broker-config/src/runtime.rs:394-552 | The diff has a row for every setting whose value changed |
| Provenance.TouchesExactly | crates/broker-api/src/config_runtime.rs:693-710 | A version touches a named setting exactly when it changes its value, or that of another whose name continues it with a bracket and a dot |
| Provenance.ReportedExactly | crates/broker-api/src/config_runtime.rs:693-726 | The version that last changed the value of a named setting is the one reported if and only if no later version changed such a lookalike |
| Provenance.LookalikeReported | crates/broker-api/src/config_runtime.rs:693-726 | Rules named a and a].b for which another version is reported than the one that set a |
| Provenance.AclsTouchedExactly | crates/broker-api/src/config_runtime.rs:693-710 | A version touches the access rules exactly when it changes them |
| Provenance.VersionForKey | crates/broker-api/src/config_runtime.rs:693-710 | The newest-first search loop returns the specified version |
| Provenance.RestartVersions | crates/broker-config/src/lib.rs:1183-1228 | What a restart after a whole commit finds: below the cap every version, at the cap all but the newest old one |
| Provenance.RestartSoundExactly | crates/broker-config/src/lib.rs:1183-1282 | When exactly the answer for a key is still sound after a whole commit and a restart |
| Provenance.FailedCommitRestart | crates/broker-config/src/lib.rs:1218-1226 | After a commit that failed on the history file and a restart, the answer for a key is sound exactly when the commit did not change its value |
| Provenance.RuleWithoutVersion | crates/broker-config/src/lib.rs:1218-1226 | A rule from a failed commit that runs after a restart and is reported as set by a version that does not have it |
| Provenance.WrongAfterRestart | crates/broker-config/src/lib.rs:1183-1282 | A recorded history for which the answer after a restart names the wrong version |
| Provenance.LateRuleReachable | crates/broker-config/src/lib.rs:1183-1228 | That history is reached by commits from a first start |
| SecretWalk.MapKeepsShape | crates/broker-api/src/config_runtime.rs:820-839 | Rewriting string leaves keeps every other node, key and position |
| SecretWalk.RedactIdempotent | crates/broker-api/src/config_runtime.rs:820-839 | Redacting twice is redacting once |
| SecretWalk.RedactedAt | crates/broker-api/src/config_runtime.rs:820-839 | What stands at any string's place after redaction: the marked reference, or the same text |
| SecretWalk.RedactLeavesNoReference | crates/broker-config/src/secrets.rs:26-28 | No leaf of the redacted document reads as a secret reference exactly when the document had no bare reference prefix as a leaf |
| SecretWalk.BareReferenceSurvives | crates/broker-config/src/secrets.rs:79-84 | A document whose redaction still has a leaf that reads as a reference |
| SecretWalk.RedactInPlace | crates/broker-api/src/config_runtime.rs:820-839 | The in-place walk computes the redaction |
| SecretWalk.ResolveInPlace | crates/broker-api/src/config_runtime.rs:380-409 | The in-place walk succeeds exactly when every reference leaf resolves, and then every such leaf is replaced by its value |
| SecretWalk.ResolveFailsExactly | crates/broker-api/src/config_runtime.rs:380-409 | Resolution fails exactly when some string in the tree is a reference that names nothing or cannot be read |
| SecretWalk.ResolvedAt | crates/broker-api/src/config_runtime.rs:380-409 | What stands at any string's place after resolution: the text of the secret, empty if it is none, or the same string |
| SecretWalk.ResolveKeepsKeys | crates/broker-api/src/config_runtime.rs:380-409 | Resolution keeps the keys of every object |
| SecretWalk.ParamsCarryId | crates/broker-api/src/config_runtime.rs:338-378 | Connector parameters are always an object that carries an id |
| SecretWalk.ParamsFailExactly | crates/broker-api/src/config_runtime.rs:338-378 | When exactly an entry has no parameters: an unreadable or blank reference, a text that is no object, or a string that does not resolve |
| SecretWalk.ParamsExactly | crates/broker-api/src/config_runtime.rs:338-378 | Its parameters otherwise: the object member by member with its values resolved and an id if it had none, or the referred text as a URL |
| SecretWalk.JsonConfigGetsEntryId | crates/broker-api/src/config_runtime.rs:338-378 | A JSON config without an id gets the connector's own, after resolution |
| RemainingLength.RoundTrip | crates/broker-api/src/ws.rs:38-65 | Every length of at most 268,435,455 is written in one to four octets and read back with its exact size, whatever follows |
| RemainingLength.TooLongNeverDecodes | crates/broker-api/src/ws.rs:38-65 | The encoding of a larger number never decodes |
| RemainingLength.AcceptedNotShorter | crates/broker-api/src/ws.rs:48-65 | No accepted encoding of a number is shorter than the encoder's |
| RemainingLength.EncodedShortest | crates/broker-api/src/ws.rs:38-46 | No run of base-128 digits with the same value is shorter |
| RemainingLength.AcceptedTotalBounded | crates/broker-api/src/ws.rs:403-415 | Every decodable header announces a packet within the size limit, so the oversize test never fires |
| RemainingLength.PaddedEncodingAccepted | crates/broker-api/src/ws.rs:48-65 | Non-minimal encodings are accepted |
| RemainingLength.EncodeRemainingLength | crates/broker-api/src/ws.rs:38-46 | The encoding loop appends exactly the specified digits |
| RemainingLength.DecodeRemainingLength | crates/broker-api/src/ws.rs:48-65 | The decoding loop computes the specified value and size |
| Framing.FramerRefinesParser | crates/broker-api/src/ws.rs:292-315 | However the bytes are cut, the socket stays open exactly when every chunk ends outside a fixed header, fits, is accepted and leaves some byte received, and then the packets handed on and the carry are the parse of the whole stream |
| Framing.RunConserves | crates/broker-api/src/ws.rs:390-433 | In every run the drained packets followed by the carry are exactly the bytes taken in, which are all of them while the socket is open |
| Framing.DriveMeaning | crates/broker-api/src/ws.rs:390-433 | When one drive ends normally, and what it has then handed on and kept |
| Framing.DriveConserves | crates/broker-api/src/ws.rs:390-433 | One drive loses and invents no byte, also when it fails |
| Framing.ParseIsDecomposition | crates/broker-api/src/ws.rs:390-433 | The parser splits a stream into whole packets and a rest that begins with none |
| Framing.DecompositionUnique | crates/broker-api/src/ws.rs:390-433 | Such a split is unique |
| Framing.EmptyFirstMessageCloses | crates/broker-api/src/ws.rs:311-314 | An empty first message closes the socket although the drive ends normally |
| Framing.Socket.Take | crates/broker-api/src/ws.rs:300-315 | One binary message on the socket object: the drive, then the test for neither session nor bytes |
| Framing.SplitHeaderCloses | crates/broker-api/src/ws.rs:403-408 | A chunk that ends inside a fixed header closes the socket |
| Framing.Socket.DrivePackets | crates/broker-api/src/ws.rs:390-433 | The draining loop over the carry buffer reaches the specified packets, carry and verdict |
| Packets.ReadStrExact | crates/broker-api/src/ws.rs:67-86 | A field is read exactly when it is the image of a string that is UTF-8 and fits its length |
| Packets.Utf8Exactly | crates/broker-api/src/ws.rs:74-81 | The octets accepted as text are exactly the UTF-8 encoding of some text (section 3 of RFC 3629) |
| Packets.PublishDecodesExactly | crates/broker-api/src/ws.rs:229-251 | The PUBLISH decoder accepts exactly the images of well-formed publishes |
| Packets.MetaRoundTrip | crates/broker-api/src/ws.rs:255-269 | The second layout decodes to the topic, packet id and quality of service it was made from |
| Packets.MetaDecodesExactly | crates/broker-api/src/ws.rs:255-269 | The second layout is accepted exactly with a topic, a packet id, a legal quality of service and two last octets of any value |
| Packets.DeliveryPreservesMeaning | crates/broker-api/src/ws.rs:761-815 | An accepted and allowed PUBLISH reaches a subscriber with the same topic and payload, the smaller quality of service and the downlink id, in a body no longer than the inbound one, exactly when its topic has at most 65528 octets and is not a delayed one |
| Packets.LongTopicReachesNobody | crates/brokerlink/src/frame.rs:16-52 | A publish on a topic of 65529 octets is accepted and sent to nobody |
| Packets.EncodePublish | crates/broker-api/src/ws.rs:100-112 | The field-by-field encoder writes one whole packet with the specified body |
| Packets.SubscribeDecodesExactly | crates/broker-api/src/ws.rs:200-219 | The SUBSCRIBE decoder accepts exactly the images of a non-zero id and a non-empty list of requests |
| Packets.DecodeSubscribeLoop | crates/broker-api/src/ws.rs:200-219 | The decoding loop computes the specified requests |
| Packets.ConnectAccepted | crates/broker-api/src/ws.rs:131-192 | Every CONNECT with a legal layout decodes to what was sent |
| Packets.ConnectOnlyAccepted | crates/broker-api/src/ws.rs:131-192 | Whatever decodes was a legal CONNECT |
| Packets.SubackFrame | crates/broker-api/src/ws.rs:92-98 | The acknowledgement is one frame with the request's id and one code per filter in order |
| ConsoleRuns.EveryInterleaving | crates/broker-api/src/ws.rs:446-677 | In every interleaving of any sockets' packets, refusals, send failures, hang-ups and panics, by a filter or in authorisation: the gauge exceeds its base by the number of sockets with a session, every router and mirror entry was there before or is tracked by one of them, and the table stays within its cap |
| ConsoleRuns.NextExactly | crates/broker-api/src/ws.rs:286-345 | What each action does: a packet of a running socket is handled and the socket stays, is torn down with the session it then has, or is lost with it; a hang-up tears down; nothing else does anything |
| ConsoleRuns.GaugeExactly | crates/broker-api/src/ws.rs:819-835 | The gauge counts the live sockets exactly in the runs in which no packet whose handling panics reaches an attached socket, which is told from the packet, the client and the access rules in force |
| ConsoleRuns.AllDetached | crates/broker-api/src/ws.rs:819-835 | In such a run, when no socket is attached, the gauge is back at its base and nothing is left in router or mirror that was not there before |
| ConsoleRuns.GrantedStaysRouted | crates/broker-api/src/ws.rs:446-677 | In every run in which no socket connects under a live socket's client id, every live socket's client is bound to it and every granted filter is routed to it with the quality of service in its mirror |
| ConsoleRuns.RoutedWithLastQoS | crates/broker-api/src/ws.rs:575-677 | In such a run a live socket tracks exactly the filters it was granted, each routed to it with the quality of service last granted |
| ConsoleRuns.CloseKeepsExactly | crates/broker-api/src/ws.rs:819-835 | A teardown leaves every other live socket its filters exactly when none of the same client shares one |
| ConsoleCases.TakeoverUnroutes | crates/broker-api/src/ws.rs:819-835 | A run of two sockets of one client after which the second is no longer routed |
| ConsoleCases.PanicLeaks | crates/broker-protocol/src/lib.rs:97-117 | A run after which no socket is live and the gauge, a route and a bound session remain |
| ConsoleCases.PublishUnwinds | crates/broker-auth/src/lib.rs:171-175 | A PUBLISH of any client unwinds under an access rule whose topic pattern is an accented letter and a hash sign |
| ConsoleCases.SubscribeUnwinds | crates/broker-auth/src/lib.rs:157-169 | A plain SUBSCRIBE unwinds under an access rule whose client pattern is that |
| ConsoleCases.PublishLeaks | crates/broker-api/src/ws.rs:708-716 | A run of a CONNECT, a SUBSCRIBE and such a PUBLISH after which no socket is live and the gauge, a route and a bound session remain |
| ConsoleCases.RefusedGivesSlotBack | crates/broker-api/src/ws.rs:513-529 | A refused CONNECT of a live client that frees a slot of its user |
| Console.AskExactly | crates/broker-auth/src/lib.rs:1424-1460 | Authorisation panics exactly when some access rule does that no rule before it decides, and allows exactly when there are no rules or the first that decides allows |
| Console.PublishAllowedExactly | crates/broker-auth/src/lib.rs:1424-1460 | Without a panic a publish is allowed exactly when there are no rules, or the first rule on publishing that names the client and matches the topic allows |
| Console.SubscribeAllowedExactly | crates/broker-auth/src/lib.rs:1424-1460 | The same for a subscription and the rules on subscribing that cover its filter |
| Console.BreaksExactly | crates/broker-auth/src/lib.rs:157-175 | Which rules panic when the scan reaches them, by their client pattern or, on publishing, by their topic pattern |
| Console.ValidFilterExactly | crates/broker-protocol/src/lib.rs:97-117 | A requested filter is legal exactly when its only hash sign, if any, stands alone or behind a slash at the end |
| Console.RequestPanicsExactly | crates/broker-api/src/ws.rs:591-604 | A requested filter panics exactly by its own end, or when it is legal and its authorisation reaches a rule that panics |
| Console.Authorize | crates/broker-auth/src/lib.rs:1424-1460 | The loop over the access rules gives the specified answer |
| Console.UnwindsExactly | crates/broker-api/src/ws.rs:575-716 | A socket's task unwinds exactly on a SUBSCRIBE one of whose filters panics, by itself or in authorisation, or on a PUBLISH whose authorisation panics, once it has a session |
| Console.CodesExactly | crates/broker-api/src/ws.rs:592-668 | When exactly each filter served before a panic gets 0x80, 0x87, 0x97 or its quality of service, told from the request, the access rules, the table before the packet and the codes before it |
| Console.SubscribeExactly | crates/broker-api/src/ws.rs:575-677 | One code per filter; router, mirror and the socket's list change exactly by the granted filters, the last grant deciding |
| Console.GrantedExactly | crates/broker-api/src/ws.rs:655-668 | The tracked filters are exactly the granted ones |
| Console.TableSize | crates/broker-router/src/lib.rs:1094-1120 | The table grows by exactly the filters that are new to the client |
| Console.SubscribeAnsweredExactly | crates/broker-api/src/ws.rs:575-677 | Without a panic the reply is one frame whose codes tell exactly what is now held; with one there is no reply and what was served before it is held |
| Console.PublishAnsweredExactly | crates/broker-api/src/ws.rs:679-786 | A PUBLISH changes neither shared state nor session; one that does not decode closes the socket, one whose authorisation panics unwinds it, any other keeps it open and is answered with one acknowledgement of its packet id exactly for quality of service 1 |
| Console.OtherPacketsExactly | crates/broker-api/src/ws.rs:540-573 | An empty PINGREQ is answered with PINGRESP, a PUBACK is ignored, and a second CONNECT, a DISCONNECT and anything else close the socket |
| Console.FirstPacketExactly | crates/broker-api/src/ws.rs:462-464 | The first packet of a socket is a CONNECT that decodes; any other closes it and changes nothing |
| Console.BadSubscribeCloses | crates/broker-api/src/ws.rs:583-588 | A SUBSCRIBE with other flags, or that does not decode, closes the socket and changes nothing |
| Console.ChainDecides | crates/broker-auth/src/chain.rs:193-200 | A non-empty authenticator chain without an enabled entry of the built-in database refuses every CONNECT; otherwise an open broker admits |
| Console.ConnectAnsweredExactly | crates/broker-api/src/ws.rs:463-537 | The return code of a CONNECT and when exactly each is given; it attaches the socket exactly for zero, with a session bound to it that keeps filters exactly when the flag says so, and slots within the limit; a refusal changes nothing but, for a live client refused for want of a slot, that user's slots |
| Console.TeardownExactly | crates/broker-api/src/ws.rs:819-835 | Teardown gives back one connection and removes exactly the socket's granted filters of its client from router and mirror; the owner also detaches the stored session, frees the slot and, for a clean session, clears the mirror; nothing of another client changes |
| Console.Hub.HandlePacket | crates/broker-api/src/ws.rs:446-573 | The packet handler, with authorisation of a PUBLISH, reaches the specified state, reply and fate |
| Console.Hub.HandleConnect | crates/broker-api/src/ws.rs:463-537 | The admission steps reach the specified state and return code |
| Console.Hub.HandleSubscribe | crates/broker-api/src/ws.rs:575-677 | The loop over the requested filters reaches the specified state and codes, up to one that panics |
| Console.Hub.HandleRequest | crates/broker-api/src/ws.rs:591-668 | One requested filter: check, authorisation, table, mirror and code as specified |
| Console.Hub.TeardownSession | crates/broker-api/src/ws.rs:819-835 | The teardown loop reaches the specified state |
| Console.Hub.UnbindConnection | crates/broker-session/src/lib.rs:2763-2830 | Only the owning connection detaches the stored session |
| JwksProtocol.EveryInterleaving | crates/broker-auth/src/jwks.rs:405-607 | In every interleaving of any number of verifiers and the background task: at most one fetch at a time, the health flag is the outcome of the last finished fetch, the cache is that of the last good one, and every accepted token used a key within its time to live and passed the health check after a successful fetch |
| JwksProtocol.FailsClosed | crates/broker-auth/src/jwks.rs:508-607 | Only a good fetch changes the cache, and a token passes the gate exactly when the newest settled outcome is good, also while a later fetch is in flight |
| JwksProtocol.VerdictExactly | crates/broker-auth/src/jwks.rs:405-467 | A verifier is refused exactly for a failed fetch of its own, a wait past the deadline, no fresh key, bad health or an invalid token, and accepted exactly on a valid one |
| JwksProtocol.OnlyValidAccepted | crates/broker-auth/src/jwks.rs:612-645 | In every run the accepted tokens are exactly those that a check found valid, one for each such check, with the key and the health check of that task |
| JwksProtocol.FetchedAccepts | crates/broker-auth/src/jwks.rs:483-504 | A verifier whose own fetch succeeded and brought its kid accepts a valid token and refuses any other |
| JwksProtocol.CachedAccepts | crates/broker-auth/src/jwks.rs:443-465 | So does one that finds its kid at once, or while it polls in time, while health is good |
| JwksProtocol.ProgressExactly | crates/broker-auth/src/jwks.rs:405-504 | A step changes its own task only; a task stays where it is exactly when it is kept waiting, and otherwise a verifier gets further, for the same kid |
| JwksProtocol.TargetsExactly | crates/broker-auth/src/jwks.rs:470-504 | A verifier skips the fetch exactly when its kid is fresh, fetches exactly when nobody else does and otherwise polls for the refresh timeout |
| JwksProtocol.NeverStuck | crates/broker-auth/src/jwks.rs:405-504 | No task is ever stuck: it can take its next step, or the task that is filling the cache can finish that |
| JwksProtocol.NoTornRead | crates/broker-auth/src/jwks.rs:470-479 | No lookup reads a cache that is being filled |
| JwksProtocol.CacheBounded | crates/broker-auth/src/jwks.rs:573-607 | The cache never outgrows its bound and, once filled, is never empty |
| JwksProtocol.StepSingleFlight | crates/broker-auth/src/jwks.rs:483-504 | Every step keeps at most one task inside the lock |
| JwksProtocol.Effective | crates/broker-auth/src/jwks.rs:190-207 | The three configured bounds are clamped into their ranges and kept when in range |
| JwksKeySet.AcceptKeyExactly | crates/broker-auth/src/jwks.rs:763-817 | Which served keys are accepted, and with which material |
| JwksKeySet.KeySetExactly | crates/broker-auth/src/jwks.rs:573-607 | Which kids a fetch caches and with which key, read off the accepted keys |
| JwksKeySet.KeySetSize | crates/broker-auth/src/jwks.rs:573-607 | A successful fetch caches between one key and the bound; with distinct kids as many as fit |
| JwksKeySet.OrderIndependentExactly | crates/broker-auth/src/jwks.rs:573-607 | The cache does not depend on the order of the served keys exactly when no cached kid has two materials |
| JwksKeySet.TwoMaterialsOneKid | crates/broker-auth/src/jwks.rs:573-607 | Two orders of one document that cache different keys |
| JwksKeySet.PermutedDocument | crates/broker-auth/src/jwks.rs:763-817 | Then any permutation of the served document yields the same cache |
| JwksKeySet.DistinctKidsHaveOneMaterial | crates/broker-auth/src/jwks.rs:573-607 | Distinct kids are enough for that |
| JwksKeySet.EffectiveCacheMax | crates/broker-auth/src/jwks.rs:190-194 | The bound is between 1 and 256 |
| JwksKeySet.ReadBody | crates/broker-auth/src/jwks.rs:545-571 | The body loop returns the joined chunks unless one fails or the total passes the cap |
| JwksKeySet.Refresh | crates/broker-auth/src/jwks.rs:573-607 | Accept, sort, truncate and refill computes the specified cache, or nothing when no key is usable |
| Chain.RunInvariant | crates/broker-auth/src/chain.rs:211-439 | Through every run of inserts, updates, removals and reorders with any failed saves: the snapshot is the list, ids are unique, the cap holds, a non-empty chain stays non-empty and the registry's root reloads to the list |
| Chain.StepConsistent | crates/broker-auth/src/chain.rs:211-439 | Every call keeps list, snapshot and registry root in agreement; an applied one commits the exported list and saves it if the disk lets it |
| Chain.ReloadValid | crates/broker-auth/src/chain.rs:165-173 | A valid root seeds a consistent store, also when some configs do not parse |
| Chain.ExportReloads | crates/broker-auth/src/chain.rs:518-550 | Exporting a list and reading it back gives the list |
| Chain.RootOkWithout | crates/broker-auth/src/chain.rs:409-439 | A valid root stays valid when one entry is dropped, so the late check of a removal cannot fail |
| Chain.LegalExactly | crates/broker-auth/src/chain.rs:458-516 | An entry is accepted exactly with known names, an id led by its mechanism and texts within their limits in octets, which are the root's own checks and the limits |
| Chain.InsertExactly | crates/broker-auth/src/chain.rs:211-240 | When exactly an insert is applied and when each refusal is given, and the list then |
| Chain.UpdateExactly | crates/broker-auth/src/chain.rs:351-391 | When exactly an update is applied and when each refusal is given, and the list then |
| Chain.RemoveExactly | crates/broker-auth/src/chain.rs:409-439 | When exactly a removal is applied and when each refusal is given, and the list then |
| Chain.ReorderExactly | crates/broker-auth/src/chain.rs:252-328 | With well-formed ids a reorder is applied exactly for a permutation of the stored ids; it gives that order, the same entries and the same availability, and every refusal changes nothing |
| Chain.ReorderRefusedExactly | crates/broker-auth/src/chain.rs:252-300 | Why a reorder is refused, told in order: ids that are ill-formed, repeated, not stored or left out, with exactly those ids in the reply |
| Chain.PermutationExactly | crates/broker-auth/src/chain.rs:252-300 | No duplicate, none unknown and none missing together mean a permutation |
| Chain.ArrangeFacts | crates/broker-auth/src/chain.rs:300-328 | Rearranging by a permutation keeps the multiset of entries |
| Chain.SameAvailability | crates/broker-auth/src/chain.rs:193-200 | The connect path answers the same for the same entries in any order |
| Chain.AvailableExactly | crates/broker-auth/src/chain.rs:193-200 | The chain admits a connect exactly when it is empty or has an enabled entry of the built-in database |
| Chain.AuthnChain.FromRegistry | crates/broker-auth/src/chain.rs:165-173 | Seeding from the registry's root |
| Chain.AuthnChain.InsertEntry | crates/broker-auth/src/chain.rs:211-240 | The insert on the store object reaches the specified state and reply |
| Chain.AuthnChain.UpdateEntry | crates/broker-auth/src/chain.rs:351-391 | The update on the store object |
| Chain.AuthnChain.RemoveEntry | crates/broker-auth/src/chain.rs:409-439 | The removal on the store object |
| Chain.AuthnChain.ReorderEntries | crates/broker-auth/src/chain.rs:252-328 | The reorder on the store object |
| Chain.AuthnChain.PersistConf | crates/broker-config/src/lib.rs:1322-1330 | Committing and saving the exported root |
| Chain.CheckOrder | crates/broker-auth/src/chain.rs:252-275 | The structural checks on a requested order |
| AdminStore.EveryInterleaving | crates/broker-api/src/admin_users.rs:252-366 | In every interleaving of concurrent calls with any failed writes: an administrator remains, and once no call is between its change and its export the registry's root is the export of the store |
| AdminStore.Linearizes | crates/broker-api/src/admin_users.rs:252-366 | In every interleaving the store is what the mutations of the calls make of it one after the other, in the order of their turns under the users lock |
| AdminStore.TurnTaken | crates/broker-api/src/admin_users.rs:252-366 | No call gets further without its turn under the users lock |
| AdminStore.SoloCallExactly | crates/broker-api/src/admin_users.rs:237-366 | A call that meets no other goes through its steps to exactly the store, root and file of the call on the store object, whatever the disk does |
| AdminStore.RefusedCallExactly | crates/broker-api/src/admin_users.rs:252-366 | A refused call changes neither store nor registry nor file |
| AdminStore.RestartAfterRun | crates/broker-api/src/admin_users.rs:119-182 | A restart from that root brings back the very store |
| AdminStore.RestartRestores | crates/broker-api/src/admin_users.rs:119-182 | A non-empty store rebuilt from its own export is the same store |
| AdminStore.MutateKeepsAdministrator | crates/broker-api/src/admin_users.rs:252-366 | No single call takes away the last administrator |
| AdminStore.MutateWellFormed | crates/broker-api/src/admin_users.rs:252-366 | Every call keeps the map well formed |
| AdminStore.RefusedExactly | crates/broker-api/src/admin_users.rs:252-366 | When each refusal of the five calls is given; the last administrator is one beside whom there is no other |
| AdminStore.AppliedExactly | crates/broker-api/src/admin_users.rs:252-366 | An applied call changes the named account in exactly what was asked and no other; after a create or a password change the password matches and its honest proof is answered for every message |
| AdminStore.ValidUsernameExactly | crates/broker-api/src/admin_users.rs:542-549 | A name is accepted exactly with one to 64 ASCII letters, digits and four marks |
| AdminStore.ExportIsValid | crates/broker-api/src/admin_users.rs:212-231 | The registry never refuses an export |
| AdminStore.ExportConf | crates/broker-api/src/admin_users.rs:212-231 | Collecting in any order and sorting gives the specified root |
| AdminStore.LoadSnapshot | crates/broker-api/src/admin_users.rs:119-182 | The loading loop computes the specified map |
| AdminStore.LoadedExactly | crates/broker-api/src/admin_users.rs:119-182 | The store a valid root loads: the default administrator for an empty one, otherwise exactly one account per entry with what it says, and unusable material where its verifier does not decode |
| AdminStore.CallExactly | crates/broker-api/src/admin_users.rs:237-366 | A call reports success exactly when it was applied and both files were written; it keeps an administrator whatever the disk does; an applied call is visible in the registry also when a file failed |
| AdminStore.AdminUsers.Persist | crates/broker-api/src/admin_users.rs:237-250 | Committing, then saving, with either file failing, reaches the specified registry and reply |
| AdminStore.AdminUsers.CreateUser | crates/broker-api/src/admin_users.rs:252-286 | Creation on the store object reaches the specified state and reply |
| AdminStore.AdminUsers.DeleteUser | crates/broker-api/src/admin_users.rs:290-306 | Deletion on the store object |
| AdminStore.AdminUsers.SetUserRole | crates/broker-api/src/admin_users.rs:308-327 | Role change on the store object |
| AdminStore.AdminUsers.SetUserDescription | crates/broker-api/src/admin_users.rs:329-336 | Description change on the store object |
| AdminStore.AdminUsers.ChangeUserPassword | crates/broker-api/src/admin_users.rs:338-366 | Password change on the store object |
| Credentials.ScramExactly | crates/broker-api/src/admin_users.rs:408-429 | The honest proof is accepted with the signature the client expects and, unless the hash collides on the client key, no other proof is |
| Credentials.Pbkdf2 | crates/broker-api/src/admin_users.rs:517-532 | The loop computes the XOR of U1 to Un |
| Credentials.SaltedExactly | crates/broker-api/src/admin_users.rs:517-532 | For any chain of blocks as in section 2.2 of RFC 5802, each octet of the salted password is the exclusive or of theirs |
| Credentials.HmacSha256 | crates/broker-api/src/admin_users.rs:492-515 | The padding loops compute the two nested hashes of section 2 of RFC 2104 |
| Credentials.HmacExactly | crates/broker-api/src/admin_users.rs:492-515 | The keyed hash, octet by octet as in section 2 of RFC 2104 |
| Credentials.DeriveKeysLoop | crates/broker-api/src/admin_users.rs:484-490 | Stored key and server key from password, salt and iterations |
| Credentials.DeriveExactly | crates/broker-api/src/admin_users.rs:484-490 | The client key, its hash and the server key from the salted password |
| Credentials.ConstantTimeEq | crates/broker-api/src/admin_users.rs:534-540 | The accumulating comparison decides equality |
| Credentials.ScramVerify | crates/broker-api/src/admin_users.rs:408-429 | The verification steps give the specified answer, the signature or nothing |
| Credentials.VerifierRoundTrip | crates/broker-api/src/admin_users.rs:598-636 | Every verifier that can be stored survives being written and read |
| Credentials.DecodedIsStorable | crates/broker-api/src/admin_users.rs:613-636 | Whatever decodes can be stored again |
| Pagination.PagesConcatenate | crates/broker-api/src/pagination.rs:113-121 | The first pages one after the other are the first rows |
| Pagination.PagesCover | crates/broker-api/src/pagination.rs:113-121 | Enough pages give the whole list back |
| Pagination.HasNextExactly | crates/broker-api/src/pagination.rs:90-98 | When exactly the flag tells truly whether the next page has rows, for every page and limit |
| Pagination.HasNextWrong | crates/broker-api/src/pagination.rs:90-121 | One row at limit zero and at page zero, where the flag announces a page that is empty |
| Pagination.NoOverflow | crates/broker-api/src/pagination.rs:113-121 | No product or sum leaves 64 bits for 32-bit pages and limits |
| Pagination.FromQuery | crates/broker-api/src/pagination.rs:43-70 | The loop over the query computes the specified page and limit, always in range |
| Pagination.ClampExactly | crates/broker-api/src/pagination.rs:57-63 | A limit from 1 to 1000 is kept, zero becomes one and more becomes 1000 |
| Text.ParseU32Exactly | crates/broker-api/src/pagination.rs:47-63 | A number is read exactly from its digits, with leading zeros and one plus sign or without, if 32 bits hold it |
| Pagination.LaterPageWins | crates/broker-api/src/pagination.rs:47-56 | A later page pair replaces an earlier one when it holds a number and is ignored when it does not |
| Pagination.LaterLimitWins | crates/broker-api/src/pagination.rs:57-63 | The same for the limit, clamped |
| Pagination.PrintedQuery | crates/broker-api/src/pagination.rs:43-70 | Numbers printed into a query come back in range, whatever stood before them |

## Left out

- HTTP handlers, routing, response bodies, the dashboard and the API description: plumbing.
- The construction of drivers for each connector kind, licences and API keys: dispatch tables and short checks.
- The insides of SHA-256, signature checking, base64, JSON text, TLS and HTTP fetching.
- The router's trie, wildcard matching and shared subscriptions: the router is a map from filter and client id.
- Fan-out: which subscribers a publish reaches and the counters of deliveries; one delivery is modelled end to end.
- Tenants, session expiry, session-map eviction and in-flight queues of the session manager.
- Connection slots of clients outside the console: the counts a run starts with are arbitrary.
- Publish rate limits of MQTT users, which are copied like the connection limit.
- The old and new values shown in diff rows, timestamps, actors and summaries of versions.
- The observable list of connectors that is reconciled after a reload for later reads.
- Window workers of replaced rules and the counter for new rule ids.
- Real time in the key cache beyond a counter that does not go back.
- ConsoleRuns.EveryInterleaving: a whole packet, also a SUBSCRIBE of several filters, and a teardown are one step each; in the code their filters can interleave with other sockets' packets.
- Reload.OwnersAlwaysAgreeExactly: concurrent reloads are not interleaved; requests are served one after the other.
- Provenance.EveryRunSound: a run ends at a restart that has lost a version or follows a failed history write; Provenance.RestartSoundExactly and Provenance.FailedCommitRestart tell the answer there.
- AdminStore.EveryInterleaving: a reload that replaces the whole store during a call is not one of the steps.
