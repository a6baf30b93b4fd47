/**
 * The live connector directory during a reload: two loops take sinks out and register new ones while
 * they build an undo log, and the rollback replays the log.
 */
module ConnectorLive {
  import opened Prelude
  import opened Text
  import opened Config
  import opened SecretWalk

  /** Identity of a live sink. */
  type Sink = nat

  type Directory = map<string, Sink>

  function Get(dir: Directory, key: string): Option<Sink> {
    if key in dir then Some(dir[key]) else None
  }

  function Alias(kind: string, id: string): string {
    kind + ":" + id
  }

  /** The second alias some kinds register beside their own. */
  function SecondName(kind: string): Option<string> {
    match kind
    case "aws_iot" => Some("aws_iot_core")
    case "azure_blob" => Some("azure_blob_storage")
    case "azure_eventhubs" => Some("azure_event_hubs")
    case "azure_iot" => Some("azure_iot_hub")
    case "cassandra" => Some("scylla")
    case "cockroachdb" => Some("cockroach")
    case "databricks" => Some("delta_lake")
    case "disk_log" => Some("disk")
    case "elasticsearch" => Some("opensearch")
    case "gcp_iot" => Some("gcp_iot_core")
    case "gcp_pubsub" => Some("pubsub")
    case "greptimedb" => Some("greptime")
    case "mongodb" => Some("mongo")
    case "mqtt_bridge" => Some("bridge")
    case "mssql" => Some("sqlserver")
    case "oci_streaming" => Some("oci")
    case "opc_ua" => Some("opcua")
    case "s3" => Some("minio")
    case "s3_tables" => Some("s3tables")
    case "sparkplug_b" => Some("sparkplug")
    case "tablestore" => Some("ots")
    case _ => None
  }

  /**
   * The world outside: secrets, reachability, compiled features, the sink constructors, and the entries whose
   * probe or constructor does not come back, because a driver panics or the request is dropped while it waits.
   */
  datatype World = World(
    secrets: Secrets,
    reachable: Json -> bool,
    compiledIn: string -> bool,
    build: (string, string, Json) -> Option<Sink>,
    breaks: (string, string, Json) -> bool)

  /** The sink an enabled entry gets, when it gets one. */
  function Outcome(e: ConnectorEntry, w: World): Option<Sink> {
    match ConnectorParams(e.id, e.config, w.secrets)
    case None => None
    case Some(params) =>
      if !w.reachable(params) || !w.compiledIn(e.kind) then None else w.build(e.kind, e.id, params)
  }

  /** Parameters that do not resolve, an unreachable target, a kind not compiled in, or a constructor that fails. */
  predicate NoSink(e: ConnectorEntry, w: World) {
    var params := ConnectorParams(e.id, e.config, w.secrets);
    || params.None?
    || !w.reachable(params.value)
    || !w.compiledIn(e.kind)
    || w.build(e.kind, e.id, params.value).None?
  }

  lemma OutcomeExactly(e: ConnectorEntry, w: World)
    ensures Outcome(e, w).None? <==> NoSink(e, w)
    ensures !NoSink(e, w) ==>
            Outcome(e, w) == w.build(e.kind, e.id, ConnectorParams(e.id, e.config, w.secrets).value)
  {
    hide ConnectorParams;
  }

  // ---------------------------------------------------------------------
  // The two loops, one entry at a time.
  // ---------------------------------------------------------------------

  datatype Live = Live(dir: Directory, removed: seq<(string, Sink)>, added: seq<string>, pending: seq<string>)

  function TakeKey(s: Live, key: string): Live {
    if key in s.dir then s.(dir := s.dir - {key}, removed := s.removed + [(key, s.dir[key])]) else s
  }

  function TakeAlias(s: Live, kind: string, id: string): Live {
    if Alias(kind, id) == id then s else TakeKey(s, Alias(kind, id))
  }

  function TakeSink(s: Live, id: string, kind: string): Live {
    TakeAlias(TakeKey(s, id), kind, id)
  }

  function RegisterSink(dir: Directory, e: ConnectorEntry, sink: Sink): Directory {
    var both := dir[e.id := sink][Alias(e.kind, e.id) := sink];
    match SecondName(e.kind)
    case Some(name) => both[Alias(name, e.id) := sink]
    case None => both
  }

  function GoLive(s: Live, e: ConnectorEntry, w: World): Live {
    match Outcome(e, w)
    case Some(sink) =>
      s.(dir := RegisterSink(s.dir, e, sink), added := s.added + [e.id, Alias(e.kind, e.id)])
    case None => s.(pending := s.pending + [e.id])
  }

  /** The entry with this id; ids are unique in a validated root. */
  function Lookup(entries: seq<ConnectorEntry>, id: string): (found: Option<ConnectorEntry>)
    ensures found.Some? ==> found.value in entries && found.value.id == id
    ensures found.None? ==> forall e :: e in entries ==> e.id != id
  {
    if entries == [] then None
    else if entries[|entries| - 1].id == id then Some(entries[|entries| - 1])
    else Lookup(entries[..|entries| - 1], id)
  }

  function ApplyEntry(s: Live, e: ConnectorEntry, previous: seq<ConnectorEntry>, w: World): Live {
    match Lookup(previous, e.id)
    case Some(prev) =>
      if prev == e then s
      else
        var taken := TakeAlias(TakeSink(s, e.id, prev.kind), e.kind, e.id);
        if e.enable then GoLive(taken, e, w) else taken
    case None =>
      if !e.enable then s
      else if e.id in s.dir then GoLive(TakeAlias(TakeSink(s, e.id, e.kind), e.kind, e.id), e, w)
      else GoLive(s, e, w)
  }

  function ApplyEntries(s: Live, entries: seq<ConnectorEntry>, previous: seq<ConnectorEntry>, w: World): Live {
    if entries == [] then s
    else ApplyEntry(ApplyEntries(s, entries[..|entries| - 1], previous, w), entries[|entries| - 1], previous, w)
  }

  predicate HasId(entries: seq<ConnectorEntry>, id: string) {
    Lookup(entries, id).Some?
  }

  function DropEntry(s: Live, p: ConnectorEntry, candidate: seq<ConnectorEntry>): Live {
    if HasId(candidate, p.id) then s else TakeSink(s, p.id, p.kind)
  }

  function DropEntries(s: Live, entries: seq<ConnectorEntry>, candidate: seq<ConnectorEntry>): Live {
    if entries == [] then s
    else DropEntry(DropEntries(s, entries[..|entries| - 1], candidate), entries[|entries| - 1], candidate)
  }

  function ApplyLive(dir: Directory, previous: seq<ConnectorEntry>, candidate: seq<ConnectorEntry>, w: World): Live {
    DropEntries(ApplyEntries(Live(dir, [], [], []), candidate, previous, w), previous, candidate)
  }

  // ---------------------------------------------------------------------
  // A reload that does not come back from an entry.
  // ---------------------------------------------------------------------

  predicate Breaks(e: ConnectorEntry, previous: seq<ConnectorEntry>, w: World) {
    && e.enable && Lookup(previous, e.id) != Some(e)
    && ConnectorParams(e.id, e.config, w.secrets).Some?
    && w.breaks(e.kind, e.id, ConnectorParams(e.id, e.config, w.secrets).value)
  }

  /** Position of the first entry that does not come back, or the length. */
  function FirstBreak(entries: seq<ConnectorEntry>, previous: seq<ConnectorEntry>, w: World): (k: nat)
    ensures k <= |entries| && (k < |entries| ==> Breaks(entries[k], previous, w))
    ensures forall i :: 0 <= i < k ==> !Breaks(entries[i], previous, w)
  {
    if entries == [] || Breaks(entries[0], previous, w) then 0
    else
      var k := FirstBreak(entries[1..], previous, w);
      assert forall i :: 1 <= i < k + 1 ==> entries[i] == entries[1..][i - 1];
      1 + k
  }

  /** What is taken out of the directory before an entry is brought up. */
  function TakenFor(s: Live, e: ConnectorEntry, previous: seq<ConnectorEntry>): Live {
    match Lookup(previous, e.id)
    case Some(prev) =>
      if prev == e then s else TakeAlias(TakeSink(s, e.id, prev.kind), e.kind, e.id)
    case None =>
      if e.enable && e.id in s.dir then TakeAlias(TakeSink(s, e.id, e.kind), e.kind, e.id) else s
  }

  /** The directory and the log, which is lost, when the first loop stops at an entry. */
  function StoppedAt(
    dir: Directory, previous: seq<ConnectorEntry>, candidate: seq<ConnectorEntry>, k: nat, w: World): Live
    requires k < |candidate|
  {
    TakenFor(ApplyEntries(Live(dir, [], [], []), candidate[..k], previous, w), candidate[k], previous)
  }

  // ---------------------------------------------------------------------
  // The rollback.
  // ---------------------------------------------------------------------

  function UnregisterAll(dir: Directory, keys: seq<string>): Directory {
    if keys == [] then dir else UnregisterAll(dir, keys[..|keys| - 1]) - {keys[|keys| - 1]}
  }

  function RegisterAll(dir: Directory, taken: seq<(string, Sink)>): Directory {
    if taken == [] then dir
    else RegisterAll(dir, taken[..|taken| - 1])[taken[|taken| - 1].0 := taken[|taken| - 1].1]
  }

  function Undo(s: Live): Directory {
    RegisterAll(UnregisterAll(s.dir, s.added), s.removed)
  }

  // ---------------------------------------------------------------------
  // What one key sees.
  // ---------------------------------------------------------------------

  /** The sink an undo log puts back under a key. */
  function Logged(removed: seq<(string, Sink)>, key: string): Option<Sink> {
    if removed == [] then None
    else if removed[|removed| - 1].0 == key then Some(removed[|removed| - 1].1)
    else Logged(removed[..|removed| - 1], key)
  }

  datatype View = View(live: Option<Sink>, logged: Option<Sink>, added: bool)

  function ViewAt(s: Live, key: string): View {
    View(Get(s.dir, key), Logged(s.removed, key), key in s.added)
  }

  /** The view of a key nothing has touched. */
  function Untouched(dir: Directory, key: string): View {
    View(Get(dir, key), None, false)
  }

  function Restored(v: View): Option<Sink> {
    if v.logged.Some? then v.logged else if v.added then None else v.live
  }

  lemma {:induction false} UnregisteredAt(dir: Directory, keys: seq<string>, key: string)
    ensures Get(UnregisterAll(dir, keys), key) == if key in keys then None else Get(dir, key)
  {
    if keys != [] {
      UnregisteredAt(dir, keys[..|keys| - 1], key);
      assert keys == keys[..|keys| - 1] + [keys[|keys| - 1]];
    }
  }

  lemma {:induction false} RegisteredAt(dir: Directory, taken: seq<(string, Sink)>, key: string)
    ensures Get(RegisterAll(dir, taken), key) == if Logged(taken, key).Some? then Logged(taken, key) else Get(dir, key)
  {
    if taken != [] {
      RegisteredAt(dir, taken[..|taken| - 1], key);
    }
  }

  lemma UndoAt(s: Live, key: string)
    ensures Get(Undo(s), key) == Restored(ViewAt(s, key))
  {
    RegisteredAt(UnregisterAll(s.dir, s.added), s.removed, key);
    UnregisteredAt(s.dir, s.added, key);
  }

  lemma SameDirectory(a: Directory, b: Directory)
    ensures a == b <==> forall key :: Get(a, key) == Get(b, key)
  {
    if forall key :: Get(a, key) == Get(b, key) {
      assert forall key :: key in a ==> Get(a, key) == Get(b, key);
      assert forall key :: key in b ==> Get(a, key) == Get(b, key);
    }
  }

  lemma LoggedSnoc(removed: seq<(string, Sink)>, key: string, sink: Sink, at: string)
    ensures Logged(removed + [(key, sink)], at) == if at == key then Some(sink) else Logged(removed, at)
  {
    assert (removed + [(key, sink)])[..|removed|] == removed;
  }

  lemma TakeKeyView(s: Live, key: string, at: string)
    ensures ViewAt(TakeKey(s, key), at) ==
            if at == key && key in s.dir then View(None, Get(s.dir, key), at in s.added) else ViewAt(s, at)
    ensures TakeKey(s, key).pending == s.pending && TakeKey(s, key).added == s.added
  {
    if key in s.dir {
      LoggedSnoc(s.removed, key, s.dir[key], at);
    }
  }

  lemma AliasNotId(kind: string, id: string)
    ensures Alias(kind, id) != id
  {
    assert |Alias(kind, id)| == |kind| + 1 + |id|;
  }

  // ---------------------------------------------------------------------
  // What one entry does to its own keys.
  // ---------------------------------------------------------------------

  /** The keys an entry of this kind can be live under. */
  function OwnKeys(e: ConnectorEntry): set<string> {
    {e.id, Alias(e.kind, e.id)} + SecondKeys(e)
  }

  function SecondKeys(e: ConnectorEntry): set<string> {
    match SecondName(e.kind)
    case Some(name) => {Alias(name, e.id)}
    case None => {}
  }

  function KeysOf(e: ConnectorEntry, prev: Option<ConnectorEntry>): set<string> {
    if prev.Some? then OwnKeys(e) + OwnKeys(prev.value) else OwnKeys(e)
  }

  /** The entry is added or changed, and enabled. */
  predicate Wanted(e: ConnectorEntry, prev: Option<ConnectorEntry>) {
    e.enable && prev != Some(e)
  }

  /** The sink registered for the entry, if one is. */
  function Registered(e: ConnectorEntry, prev: Option<ConnectorEntry>, w: World): Option<Sink> {
    if Wanted(e, prev) then Outcome(e, w) else None
  }

  /** The keys taken out for the entry before anything is registered for it. */
  function TakenKeys(e: ConnectorEntry, prev: Option<ConnectorEntry>, dir: Directory): set<string> {
    match prev
    case Some(p) => if p == e then {} else {e.id, Alias(p.kind, e.id), Alias(e.kind, e.id)}
    case None => if e.enable && e.id in dir then {e.id, Alias(e.kind, e.id)} else {}
  }

  /** The view of one of the entry's keys once it has been processed, from the directory before the reload. */
  function EntryView(e: ConnectorEntry, prev: Option<ConnectorEntry>, dir: Directory, w: World, key: string): View {
    var taken := key in TakenKeys(e, prev, dir);
    var sink := Registered(e, prev, w);
    View(
      if sink.Some? && key in OwnKeys(e) then sink else if taken then None else Get(dir, key),
      if taken then Get(dir, key) else None,
      sink.Some? && (key == e.id || key == Alias(e.kind, e.id)))
  }

  function PendingOf(e: ConnectorEntry, prev: Option<ConnectorEntry>, w: World): seq<string> {
    if Wanted(e, prev) && Outcome(e, w).None? then [e.id] else []
  }

  lemma TakeAllView(s: Live, id: string, kind: string, other: string, at: string)
    ensures var t := TakeAlias(TakeSink(s, id, kind), other, id);
            && t.pending == s.pending && t.added == s.added
            && ViewAt(t, at) ==
               if at in {id, Alias(kind, id), Alias(other, id)} && at in s.dir
               then View(None, Get(s.dir, at), at in s.added) else ViewAt(s, at)
  {
    AliasNotId(kind, id);
    AliasNotId(other, id);
    var s1 := TakeKey(s, id);
    var s2 := TakeKey(s1, Alias(kind, id));
    TakeKeyView(s, id, at);
    TakeKeyView(s1, Alias(kind, id), at);
    TakeKeyView(s2, Alias(other, id), at);
  }

  lemma GoLiveView(s: Live, e: ConnectorEntry, w: World, at: string)
    ensures ViewAt(GoLive(s, e, w), at) ==
            match Outcome(e, w) {
              case Some(sink) => View(
                if at in OwnKeys(e) then Some(sink) else Get(s.dir, at),
                Logged(s.removed, at),
                at in s.added || at == e.id || at == Alias(e.kind, e.id))
              case None => ViewAt(s, at)
            }
    ensures GoLive(s, e, w).pending == s.pending + if Outcome(e, w).None? then [e.id] else []
  {
    hide Outcome;
  }

  /** Processing an entry sets the view of its own keys and leaves every other key alone. */
  lemma ApplyEntryView(s: Live, e: ConnectorEntry, previous: seq<ConnectorEntry>, w: World, dir: Directory, at: string)
    requires forall key :: key in KeysOf(e, Lookup(previous, e.id)) ==> ViewAt(s, key) == Untouched(dir, key)
    ensures var prev := Lookup(previous, e.id);
            ViewAt(ApplyEntry(s, e, previous, w), at) ==
            if at in KeysOf(e, prev) then EntryView(e, prev, dir, w, at) else ViewAt(s, at)
  {
    hide Outcome, SecondName, Alias, Logged, GoLive, TakeSink, TakeAlias, Lookup;
    var prev := Lookup(previous, e.id);
    assert ViewAt(s, e.id) == Untouched(dir, e.id);
    if prev.Some? && prev.value != e {
      TakeAllView(s, e.id, prev.value.kind, e.kind, at);
      GoLiveView(TakeAlias(TakeSink(s, e.id, prev.value.kind), e.kind, e.id), e, w, at);
    } else if prev.None? && e.enable {
      if e.id in s.dir {
        TakeAllView(s, e.id, e.kind, e.kind, at);
        GoLiveView(TakeAlias(TakeSink(s, e.id, e.kind), e.kind, e.id), e, w, at);
      } else {
        GoLiveView(s, e, w, at);
      }
    }
  }

  // ---------------------------------------------------------------------
  // Both loops.
  // ---------------------------------------------------------------------

  ghost predicate UniqueIds(entries: seq<ConnectorEntry>) {
    forall i, j :: 0 <= i < j < |entries| ==> entries[i].id != entries[j].id
  }

  /** No key of one connector is a key of another. */
  ghost predicate KeysApart(previous: seq<ConnectorEntry>, candidate: seq<ConnectorEntry>) {
    forall x, y :: x in previous + candidate && y in previous + candidate && x.id != y.id ==> OwnKeys(x) !! OwnKeys(y)
  }

  /** What validation promises of the two roots, and keys that do not collide. */
  ghost predicate Inputs(previous: seq<ConnectorEntry>, candidate: seq<ConnectorEntry>) {
    UniqueIds(previous) && UniqueIds(candidate) && KeysApart(previous, candidate)
  }

  lemma KeysOfApart(x: ConnectorEntry, y: ConnectorEntry, previous: seq<ConnectorEntry>, candidate: seq<ConnectorEntry>)
    requires KeysApart(previous, candidate)
    requires x in previous + candidate && y in previous + candidate && x.id != y.id
    ensures KeysOf(x, Lookup(previous, x.id)) !! KeysOf(y, Lookup(previous, y.id))
    ensures KeysOf(x, Lookup(previous, x.id)) !! OwnKeys(y)
  {
    hide OwnKeys;
  }

  /** The view of a key after the first loop has processed `done`. */
  ghost predicate FirstLoopView(
    s: Live, done: seq<ConnectorEntry>, previous: seq<ConnectorEntry>, dir: Directory, w: World, at: string)
  {
    && (forall e :: e in done && at in KeysOf(e, Lookup(previous, e.id)) ==>
         ViewAt(s, at) == EntryView(e, Lookup(previous, e.id), dir, w, at))
    && ((forall e :: e in done ==> at !in KeysOf(e, Lookup(previous, e.id))) ==> ViewAt(s, at) == Untouched(dir, at))
  }

  lemma {:induction false} FirstLoop(
    dir: Directory, done: seq<ConnectorEntry>, previous: seq<ConnectorEntry>, candidate: seq<ConnectorEntry>,
    w: World, at: string)
    requires Inputs(previous, candidate) && done <= candidate
    ensures FirstLoopView(ApplyEntries(Live(dir, [], [], []), done, previous, w), done, previous, dir, w, at)
  {
    hide KeysOf, EntryView, ApplyEntry, Lookup;
    var start := Live(dir, [], [], []);
    if done != [] {
      var init, e := done[..|done| - 1], done[|done| - 1];
      var s := ApplyEntries(start, init, previous, w);
      assert done == init + [e];
      assert e in candidate;
      FirstLoop(dir, init, previous, candidate, w, at);
      forall key | key in KeysOf(e, Lookup(previous, e.id)) ensures ViewAt(s, key) == Untouched(dir, key) {
        FirstLoop(dir, init, previous, candidate, w, key);
        forall x | x in init ensures key !in KeysOf(x, Lookup(previous, x.id)) {
          assert x in candidate && x.id != e.id by { EarlierIdDiffers(candidate, |done| - 1, x); }
          KeysOfApart(x, e, previous, candidate);
        }
      }
      ApplyEntryView(s, e, previous, w, dir, at);
      forall x | x in done && at in KeysOf(x, Lookup(previous, x.id))
        ensures ViewAt(ApplyEntry(s, e, previous, w), at) == EntryView(x, Lookup(previous, x.id), dir, w, at)
      {
        if x != e {
          assert x in init && x in candidate && x.id != e.id by { EarlierIdDiffers(candidate, |done| - 1, x); }
          KeysOfApart(x, e, previous, candidate);
        }
      }
    }
  }

  lemma EarlierIdDiffers(entries: seq<ConnectorEntry>, n: nat, x: ConnectorEntry)
    requires UniqueIds(entries) && n < |entries| && x in entries[..n]
    ensures x in entries && x.id != entries[n].id
  {
    var i :| 0 <= i < n && entries[..n][i] == x;
    assert entries[i] == x;
  }

  lemma TakenForView(s: Live, e: ConnectorEntry, previous: seq<ConnectorEntry>, dir: Directory, at: string)
    requires forall key :: key in KeysOf(e, Lookup(previous, e.id)) ==> ViewAt(s, key) == Untouched(dir, key)
    ensures Get(TakenFor(s, e, previous).dir, at) ==
            if at in TakenKeys(e, Lookup(previous, e.id), dir) then None else Get(s.dir, at)
  {
    hide SecondName, Alias, Logged, TakeSink, TakeAlias, Lookup;
    var prev := Lookup(previous, e.id);
    assert ViewAt(s, e.id) == Untouched(dir, e.id);
    if prev.Some? {
      TakeAllView(s, e.id, prev.value.kind, e.kind, at);
    } else {
      TakeAllView(s, e.id, e.kind, e.kind, at);
    }
  }

  /**
   * What a key holds when the reload does not come back from entry `k`: the entries before it are done, what was in
   * the way of this one is out, and no other key has changed.
   */
  lemma StoppedViews(
    dir: Directory, previous: seq<ConnectorEntry>, candidate: seq<ConnectorEntry>, k: nat, w: World, at: string)
    requires Inputs(previous, candidate) && k < |candidate|
    ensures var e, now := candidate[k], Get(StoppedAt(dir, previous, candidate, k, w).dir, at);
            && (forall i :: 0 <= i < k && at in KeysOf(candidate[i], Lookup(previous, candidate[i].id)) ==>
                 now == EntryView(candidate[i], Lookup(previous, candidate[i].id), dir, w, at).live)
            && (at in TakenKeys(e, Lookup(previous, e.id), dir) ==> now == None)
            && (at !in TakenKeys(e, Lookup(previous, e.id), dir) ==>
                 || now == Get(dir, at)
                 || exists i :: 0 <= i < k && at in KeysOf(candidate[i], Lookup(previous, candidate[i].id)))
  {
    hide EntryView, TakenKeys, KeysOf, TakenFor, Lookup, ApplyEntries;
    var e, done := candidate[k], candidate[..k];
    var s := ApplyEntries(Live(dir, [], [], []), done, previous, w);
    assert e in candidate;
    forall key | key in KeysOf(e, Lookup(previous, e.id))
      ensures ViewAt(s, key) == Untouched(dir, key)
      ensures forall i :: 0 <= i < k ==> key !in KeysOf(candidate[i], Lookup(previous, candidate[i].id))
    {
      FirstLoop(dir, done, previous, candidate, w, key);
      forall x | x in done ensures key !in KeysOf(x, Lookup(previous, x.id)) {
        EarlierIdDiffers(candidate, k, x);
        KeysOfApart(x, e, previous, candidate);
      }
      assert forall i :: 0 <= i < k ==> candidate[i] in done;
    }
    TakenForView(s, e, previous, dir, at);
    FirstLoop(dir, done, previous, candidate, w, at);
    assert forall i :: 0 <= i < k ==> candidate[i] in done;
    assert forall x :: x in done ==> exists i :: 0 <= i < k && candidate[i] == x;
    TakenAreKeys(e, Lookup(previous, e.id), dir, at);
  }

  lemma TakenAreKeys(e: ConnectorEntry, prev: Option<ConnectorEntry>, dir: Directory, at: string)
    requires prev.Some? ==> prev.value.id == e.id
    ensures at in TakenKeys(e, prev, dir) ==> at in KeysOf(e, prev)
  {
    hide Alias, SecondName;
  }

  /** The reload does not come back from an enabled entry, added or changed, whose parameters resolve and break it. */
  lemma BreaksExactly(e: ConnectorEntry, previous: seq<ConnectorEntry>, w: World)
    requires UniqueIds(previous)
    ensures Breaks(e, previous, w) <==>
            && e.enable && e !in previous
            && exists params ::
                 ConnectorParams(e.id, e.config, w.secrets) == Some(params) && w.breaks(e.kind, e.id, params)
  {
    hide ConnectorParams;
  }

  /** The keys the second loop takes for a connector that is gone. */
  predicate PlainKey(p: ConnectorEntry, key: string) {
    key == p.id || key == Alias(p.kind, p.id)
  }

  /** The second loop takes the plain id and the alias of every connector that is gone. */
  ghost predicate GoneView(
    s: Live, gone: seq<ConnectorEntry>, candidate: seq<ConnectorEntry>, before: Live, at: string)
  {
    && (forall p :: p in gone && !HasId(candidate, p.id) && PlainKey(p, at) ==>
         ViewAt(s, at) == View(None, Get(before.dir, at), false))
    && ((forall p :: p in gone && !HasId(candidate, p.id) ==> !PlainKey(p, at)) ==>
         ViewAt(s, at) == ViewAt(before, at))
  }

  lemma TakeSinkView(s: Live, id: string, kind: string, at: string)
    ensures var t := TakeSink(s, id, kind);
            && t.pending == s.pending
            && ViewAt(t, at) ==
               if (at == id || at == Alias(kind, id)) && at in s.dir
               then View(None, Get(s.dir, at), at in s.added) else ViewAt(s, at)
  {
    AliasNotId(kind, id);
    TakeKeyView(s, id, at);
    TakeKeyView(TakeKey(s, id), Alias(kind, id), at);
  }

  lemma {:induction false} SecondLoop(
    before: Live, gone: seq<ConnectorEntry>, previous: seq<ConnectorEntry>, candidate: seq<ConnectorEntry>, at: string)
    requires Inputs(previous, candidate) && gone <= previous
    requires forall p, key :: p in previous && !HasId(candidate, p.id) && key in OwnKeys(p) ==>
               ViewAt(before, key) == Untouched(before.dir, key)
    ensures GoneView(DropEntries(before, gone, candidate), gone, candidate, before, at)
    ensures DropEntries(before, gone, candidate).pending == before.pending
  {
    hide HasId, Alias, ViewAt, TakeSink, OwnKeys;
    if gone != [] {
      var init, p := gone[..|gone| - 1], gone[|gone| - 1];
      var s := DropEntries(before, init, candidate);
      assert gone == init + [p];
      SecondLoop(before, init, previous, candidate, at);
      if !HasId(candidate, p.id) {
        TakeSinkView(s, p.id, p.kind, at);
        if PlainKey(p, at) {
          PlainIsOwn(p, at);
          forall x | x in init ensures !PlainKey(x, at) {
            EarlierIdDiffers(previous, |gone| - 1, x);
            PlainKeysApart(x, p, previous, candidate, at);
          }
          ViewParts(s, at);
        }
      }
    }
  }

  lemma ViewParts(s: Live, at: string)
    ensures ViewAt(s, at).live == Get(s.dir, at) && ViewAt(s, at).added == (at in s.added)
  {
  }

  lemma PlainIsOwn(p: ConnectorEntry, key: string)
    requires PlainKey(p, key)
    ensures key in OwnKeys(p)
  {
  }

  lemma PlainKeysApart(
    x: ConnectorEntry, p: ConnectorEntry, previous: seq<ConnectorEntry>, candidate: seq<ConnectorEntry>, at: string)
    requires KeysApart(previous, candidate) && x in previous && p in previous && x.id != p.id && PlainKey(p, at)
    ensures !PlainKey(x, at)
  {
    assert x in previous + candidate && p in previous + candidate;
  }

  // ---------------------------------------------------------------------
  // The directory after the reload.
  // ---------------------------------------------------------------------

  /** After the reload: the view of the keys of candidate entries, of entries that are gone, and of all others. */
  lemma FinalViews(
    dir: Directory, previous: seq<ConnectorEntry>, candidate: seq<ConnectorEntry>, w: World, at: string)
    requires Inputs(previous, candidate)
    ensures var s := ApplyLive(dir, previous, candidate, w);
            && (forall e :: e in candidate && at in KeysOf(e, Lookup(previous, e.id)) ==>
                 ViewAt(s, at) == EntryView(e, Lookup(previous, e.id), dir, w, at))
            && (forall p :: p in previous && !HasId(candidate, p.id) && PlainKey(p, at) ==>
                 ViewAt(s, at) == View(None, Get(dir, at), false))
            && ((forall e :: e in candidate ==> at !in KeysOf(e, Lookup(previous, e.id)))
                && (forall p :: p in previous && !HasId(candidate, p.id) ==> !PlainKey(p, at)) ==>
                 ViewAt(s, at) == Untouched(dir, at))
  {
    hide EntryView, PlainKey, OwnKeys, KeysOf, ApplyEntries, DropEntries, HasId, Lookup;
    var middle := ApplyEntries(Live(dir, [], [], []), candidate, previous, w);
    FirstLoop(dir, candidate, previous, candidate, w, at);
    forall p, key | p in previous && !HasId(candidate, p.id) && key in OwnKeys(p)
      ensures ViewAt(middle, key) == Untouched(dir, key)
      ensures forall e :: e in candidate ==> key !in KeysOf(e, Lookup(previous, e.id))
    {
      GoneKeyUntouched(dir, previous, candidate, w, p, key);
    }
    SecondLoop(middle, previous, previous, candidate, at);
    forall p | PlainKey(p, at) ensures at in OwnKeys(p) { PlainIsOwn(p, at); }
  }

  lemma GoneKeyUntouched(
    dir: Directory, previous: seq<ConnectorEntry>, candidate: seq<ConnectorEntry>, w: World, p: ConnectorEntry,
    key: string)
    requires Inputs(previous, candidate)
    requires p in previous && !HasId(candidate, p.id) && key in OwnKeys(p)
    ensures ViewAt(ApplyEntries(Live(dir, [], [], []), candidate, previous, w), key) == Untouched(dir, key)
    ensures forall e :: e in candidate ==> key !in KeysOf(e, Lookup(previous, e.id))
  {
    hide EntryView, Alias, KeysOf, ApplyEntries;
    FirstLoop(dir, candidate, previous, candidate, w, key);
    forall e | e in candidate ensures key !in KeysOf(e, Lookup(previous, e.id)) {
      assert e.id != p.id;
      KeysOfApart(e, p, previous, candidate);
    }
  }

  lemma ApplyEntryPending(s: Live, e: ConnectorEntry, previous: seq<ConnectorEntry>, w: World)
    ensures ApplyEntry(s, e, previous, w).pending == s.pending + PendingOf(e, Lookup(previous, e.id), w)
  {
    hide Outcome, SecondName, Alias;
  }

  lemma {:induction false} PendingExactly(
    s: Live, done: seq<ConnectorEntry>, previous: seq<ConnectorEntry>, w: World, id: string)
    requires s.pending == [] && UniqueIds(done)
    ensures var pending := ApplyEntries(s, done, previous, w).pending;
            && (id in pending <==>
                exists e :: e in done && e.id == id && Wanted(e, Lookup(previous, id)) && NoSink(e, w))
            && NoRepeats(pending)
  {
    hide PendingOf, ApplyEntry, Lookup, NoSink, Wanted;
    if done != [] {
      var init, e := done[..|done| - 1], done[|done| - 1];
      assert done == init + [e];
      PendingExactly(s, init, previous, w, id);
      PendingExactly(s, init, previous, w, e.id);
      assert forall x :: x in init ==> x.id != e.id by {
        forall x | x in init ensures x.id != e.id { EarlierIdDiffers(done, |done| - 1, x); }
      }
      ApplyEntryPending(ApplyEntries(s, init, previous, w), e, previous, w);
      PendingOfForm(e, Lookup(previous, e.id), w);
    }
  }

  lemma PendingOfForm(e: ConnectorEntry, prev: Option<ConnectorEntry>, w: World)
    ensures PendingOf(e, prev, w) == [e.id] || PendingOf(e, prev, w) == []
    ensures PendingOf(e, prev, w) == [e.id] <==> Wanted(e, prev) && NoSink(e, w)
  {
    hide Outcome, NoSink;
    OutcomeExactly(e, w);
  }

  lemma {:induction false} DropKeepsPending(s: Live, gone: seq<ConnectorEntry>, candidate: seq<ConnectorEntry>)
    ensures DropEntries(s, gone, candidate).pending == s.pending
  {
    if gone != [] {
      var init, p := gone[..|gone| - 1], gone[|gone| - 1];
      DropKeepsPending(s, init, candidate);
      TakeSinkView(DropEntries(s, init, candidate), p.id, p.kind, "");
    }
  }

  /** The list reported to the caller. */
  function PendingLive(s: Live): seq<string> {
    SortNames(s.pending)
  }

  /** What a reload leaves behind for each entry of the candidate. */
  lemma CandidateOutcome(
    dir: Directory, previous: seq<ConnectorEntry>, candidate: seq<ConnectorEntry>, w: World, e: ConnectorEntry)
    requires Inputs(previous, candidate) && e in candidate
    ensures var s, prev := ApplyLive(dir, previous, candidate, w), Lookup(previous, e.id);
            && (Wanted(e, prev) ==>
                 && (e.id in PendingLive(s) <==> NoSink(e, w))
                 && (e.id in s.dir <==> !NoSink(e, w)))
            && (Wanted(e, prev) && !NoSink(e, w) ==>
                 var params := ConnectorParams(e.id, e.config, w.secrets).value;
                 forall key :: key in OwnKeys(e) ==> Get(s.dir, key) == w.build(e.kind, e.id, params))
            && (prev == Some(e) ==> forall key :: key in OwnKeys(e) ==> Get(s.dir, key) == Get(dir, key))
            && (prev.Some? && prev.value != e && !e.enable ==>
                 e.id !in s.dir && Alias(prev.value.kind, e.id) !in s.dir && Alias(e.kind, e.id) !in s.dir)
  {
    hide Outcome, Alias, ApplyEntries, DropEntries, SecondName, NoSink, ConnectorParams;
    OutcomeExactly(e, w);
    var s, prev := ApplyLive(dir, previous, candidate, w), Lookup(previous, e.id);
    forall key | key in KeysOf(e, prev) ensures ViewAt(s, key) == EntryView(e, prev, dir, w, key) {
      FinalViews(dir, previous, candidate, w, key);
    }
    PendingExactly(Live(dir, [], [], []), candidate, previous, w, e.id);
    DropKeepsPending(ApplyEntries(Live(dir, [], [], []), candidate, previous, w), previous, candidate);
    SortNamesFacts(s.pending);
    SameEntry(candidate, e);
    assert e.id in KeysOf(e, prev);
    assert Alias(e.kind, e.id) in KeysOf(e, prev);
    if prev.Some? { assert Alias(prev.value.kind, e.id) in KeysOf(e, prev); }
  }

  lemma SameEntry(entries: seq<ConnectorEntry>, e: ConnectorEntry)
    requires UniqueIds(entries) && e in entries
    ensures forall x :: x in entries && x.id == e.id ==> x == e
  {
  }

  /** Connectors that are gone are live under neither their id nor their alias; the report has no repeats. */
  lemma GoneOutcome(
    dir: Directory, previous: seq<ConnectorEntry>, candidate: seq<ConnectorEntry>, w: World, p: ConnectorEntry)
    requires Inputs(previous, candidate)
    ensures var s := ApplyLive(dir, previous, candidate, w);
            && (p in previous && !HasId(candidate, p.id) ==> p.id !in s.dir && Alias(p.kind, p.id) !in s.dir)
            && StrictlySorted(PendingLive(s))
  {
    hide ApplyEntries, DropEntries, EntryView;
    var s := ApplyLive(dir, previous, candidate, w);
    FinalViews(dir, previous, candidate, w, p.id);
    FinalViews(dir, previous, candidate, w, Alias(p.kind, p.id));
    PendingExactly(Live(dir, [], [], []), candidate, previous, w, p.id);
    DropKeepsPending(ApplyEntries(Live(dir, [], [], []), candidate, previous, w), previous, candidate);
    SortNamesFacts(s.pending);
  }

  // ---------------------------------------------------------------------
  // When the rollback restores the directory.
  // ---------------------------------------------------------------------

  /**
   * The reload registers a sink for `e` and writes a key that the undo log cannot put back: a second
   * alias that was not taken from the directory, or an own alias that was live without its plain id.
   */
  predicate Leaks(e: ConnectorEntry, prev: Option<ConnectorEntry>, dir: Directory, w: World) {
    && Registered(e, prev, w).Some?
    && (|| (exists key :: key in SecondKeys(e) && !(key in TakenKeys(e, prev, dir) && key in dir))
        || (Alias(e.kind, e.id) !in TakenKeys(e, prev, dir) && Alias(e.kind, e.id) in dir))
  }

  /** Sinks built by this reload are new objects. */
  ghost predicate NewSinks(dir: Directory, w: World) {
    forall kind, id, params, key :: key in dir ==> w.build(kind, id, params) != Some(dir[key])
  }

  lemma RegisteredIsNew(e: ConnectorEntry, prev: Option<ConnectorEntry>, dir: Directory, w: World, key: string)
    requires NewSinks(dir, w) && Registered(e, prev, w).Some?
    ensures Registered(e, prev, w) != Get(dir, key)
  {
  }

  lemma SecondIsOther(e: ConnectorEntry)
    ensures e.id !in SecondKeys(e) && Alias(e.kind, e.id) !in SecondKeys(e)
  {
    match SecondName(e.kind)
    case Some(name) =>
      AliasNotId(name, e.id);
      AliasInjective(name, e.id, e.kind, e.id);
      assert name != e.kind;
    case None =>
  }

  lemma AliasInjective(kind: string, id: string, kind': string, id': string)
    requires |id| == |id'|
    ensures Alias(kind, id) == Alias(kind', id') ==> kind == kind' && id == id'
  {
    if Alias(kind, id) == Alias(kind', id') {
      assert kind == Alias(kind, id)[..|kind|] && kind' == Alias(kind', id')[..|kind'|];
      assert id == Alias(kind, id)[|kind| + 1..] && id' == Alias(kind', id')[|kind'| + 1..];
    }
  }

  /** One entry's keys all come back exactly when it does not leak. */
  lemma EntryRestored(e: ConnectorEntry, prev: Option<ConnectorEntry>, dir: Directory, w: World)
    requires NewSinks(dir, w)
    requires prev.Some? ==> prev.value.id == e.id
    ensures Leaks(e, prev, dir, w) <==>
            exists key :: key in KeysOf(e, prev) && Restored(EntryView(e, prev, dir, w, key)) != Get(dir, key)
  {
    hide Outcome, Alias, NewSinks, SecondKeys;
    SecondIsOther(e);
    if Registered(e, prev, w).Some? {
      forall key ensures Registered(e, prev, w) != Get(dir, key) { RegisteredIsNew(e, prev, dir, w, key); }
      var own := Alias(e.kind, e.id);
      if exists key :: key in SecondKeys(e) && !(key in TakenKeys(e, prev, dir) && key in dir) {
        var key :| key in SecondKeys(e) && !(key in TakenKeys(e, prev, dir) && key in dir);
        assert key in KeysOf(e, prev) && Restored(EntryView(e, prev, dir, w, key)) != Get(dir, key);
      } else if own !in TakenKeys(e, prev, dir) && own in dir {
        assert own in KeysOf(e, prev) && Restored(EntryView(e, prev, dir, w, own)) != Get(dir, own);
      } else {
        forall key | key in KeysOf(e, prev) ensures Restored(EntryView(e, prev, dir, w, key)) == Get(dir, key) {
        }
      }
    }
  }

  /**
   * The rollback restores the live directory exactly, same keys and same sinks, if and only if no
   * candidate entry leaks. Whether an entry leaks can be read off before the reload.
   */
  lemma RollbackRestores(dir: Directory, previous: seq<ConnectorEntry>, candidate: seq<ConnectorEntry>, w: World)
    requires Inputs(previous, candidate) && NewSinks(dir, w)
    ensures Undo(ApplyLive(dir, previous, candidate, w)) == dir <==>
            forall e :: e in candidate ==> !Leaks(e, Lookup(previous, e.id), dir, w)
  {
    hide Leaks, EntryView, KeysOf, ApplyLive, Undo, Alias;
    var s := ApplyLive(dir, previous, candidate, w);
    SameDirectory(Undo(s), dir);
    forall key ensures Get(Undo(s), key) == Restored(ViewAt(s, key)) { UndoAt(s, key); }
    if e :| e in candidate && Leaks(e, Lookup(previous, e.id), dir, w) {
      var prev := Lookup(previous, e.id);
      EntryRestored(e, prev, dir, w);
      var key :| key in KeysOf(e, prev) && Restored(EntryView(e, prev, dir, w, key)) != Get(dir, key);
      FinalViews(dir, previous, candidate, w, key);
    } else {
      forall key ensures Restored(ViewAt(s, key)) == Get(dir, key) {
        FinalViews(dir, previous, candidate, w, key);
        if e :| e in candidate && key in KeysOf(e, Lookup(previous, e.id)) {
          EntryRestored(e, Lookup(previous, e.id), dir, w);
        }
      }
    }
  }

  // ---------------------------------------------------------------------
  // When keys cannot collide, and when they do.
  // ---------------------------------------------------------------------

  lemma ColonFreeAliases(kind: string, id: string, kind': string, id': string)
    requires ':' !in id && ':' !in id' && Alias(kind, id) == Alias(kind', id')
    ensures id == id'
  {
    var a := Alias(kind, id);
    assert a[|kind|] == ':' && a[|kind'|] == ':';
    assert |kind| == |kind'|;
    AliasInjective(kind, id, kind', id');
  }

  /** Ids without a colon are enough for keys to stay apart. */
  lemma ColonFreeIdsStayApart(previous: seq<ConnectorEntry>, candidate: seq<ConnectorEntry>)
    requires forall e :: e in previous + candidate ==> ':' !in e.id
    ensures KeysApart(previous, candidate)
  {
    forall x, y | x in previous + candidate && y in previous + candidate && x.id != y.id
      ensures OwnKeys(x) !! OwnKeys(y)
    {
      forall key | key in OwnKeys(x) && key in OwnKeys(y) ensures false {
        KeyForm(x, key);
        KeyForm(y, key);
        if key != x.id && key != y.id {
          var kind :| key == Alias(kind, x.id);
          var kind' :| key == Alias(kind', y.id);
          ColonFreeAliases(kind, x.id, kind', y.id);
        }
      }
    }
  }

  lemma KeyForm(e: ConnectorEntry, key: string)
    requires key in OwnKeys(e)
    ensures key == e.id || exists kind :: key == Alias(kind, e.id)
    ensures key != e.id ==> ':' in key
  {
    if key != e.id {
      if key == Alias(e.kind, e.id) {
        assert key[|e.kind|] == ':';
      } else {
        var name := SecondName(e.kind).value;
        assert key == Alias(name, e.id) && key[|name|] == ':';
      }
    }
  }

  /** An entry that gets its sink whatever the world says, used in the examples below. */
  function FixedWorld(sink: Sink): World {
    World(
      Secrets((s: string) => None, (o: seq<byte>) => None, (s: string) => None),
      (params: Json) => true,
      (kind: string) => true,
      (kind: string, id: string, params: Json) => Some(sink),
      (kind: string, id: string, params: Json) => false)
  }

  lemma FixedOutcome(e: ConnectorEntry, sink: Sink)
    requires e.config == ""
    ensures Outcome(e, FixedWorld(sink)) == Some(sink)
  {
    assert Trim(e.config) == "";
  }

  /** A second alias that was not taken out stays live after the rollback. */
  lemma SecondAliasStays(
    dir: Directory, previous: seq<ConnectorEntry>, candidate: seq<ConnectorEntry>, w: World, e: ConnectorEntry,
    key: string)
    requires Inputs(previous, candidate) && e in candidate && key in SecondKeys(e)
    requires Registered(e, Lookup(previous, e.id), w).Some? && key !in TakenKeys(e, Lookup(previous, e.id), dir)
    ensures Get(Undo(ApplyLive(dir, previous, candidate, w)), key) == Registered(e, Lookup(previous, e.id), w)
  {
    hide Registered, TakenKeys, ApplyLive, Undo, Alias, SecondName, Lookup;
    SecondIsOther(e);
    FinalViews(dir, previous, candidate, w, key);
    UndoAt(ApplyLive(dir, previous, candidate, w), key);
  }

  /** So a reload that adds a MongoDB connector to an empty directory and fails leaves `mongo:store` behind. */
  lemma MongoAliasStays()
    ensures var e := ConnectorEntry("store", "mongodb", true, "");
            Get(Undo(ApplyLive(map[], [], [e], FixedWorld(7))), "mongo:store") == Some(7)
  {
    hide Outcome, FixedWorld, ApplyLive, Undo, Lookup;
    var e := ConnectorEntry("store", "mongodb", true, "");
    FixedOutcome(e, 7);
    ColonFreeIdsStayApart([], [e]);
    assert Alias("mongo", "store") == "mongo:store";
    SecondAliasStays(map[], [], [e], FixedWorld(7), e, "mongo:store");
  }

  const COLON_ID: ConnectorEntry := ConnectorEntry("http:a", "kafka", true, "")
  const PLAIN_ID: ConnectorEntry := ConnectorEntry("a", "http", true, "")

  lemma CollidingNotLeaking()
    ensures forall e :: e in [COLON_ID, PLAIN_ID] ==> !Leaks(e, None, map["a" := 1], FixedWorld(7))
  {
    assert |Alias("kafka", "http:a")| == 12;
  }

  lemma CollidingSteps() returns (s: Live)
    ensures s == ApplyLive(map["a" := 1], [], [COLON_ID, PLAIN_ID], FixedWorld(7))
    ensures Logged(s.removed, "http:a") == Some(7)
  {
    hide Outcome, FixedWorld;
    var w := FixedWorld(7);
    FixedOutcome(COLON_ID, 7);
    FixedOutcome(PLAIN_ID, 7);
    assert Alias("http", "a") == "http:a";
    assert Alias("kafka", "http:a") == "kafka:http:a";
    var s0 := Live(map["a" := 1], [], [], []);
    var all := [COLON_ID, PLAIN_ID];
    assert all[..1] == [COLON_ID] && [COLON_ID][..0] == [];
    var s1 := Live(map["a" := 1, "http:a" := 7, "kafka:http:a" := 7], [], ["http:a", "kafka:http:a"], []);
    assert ApplyEntry(s0, COLON_ID, [], w) == s1;
    assert ApplyEntries(s0, [COLON_ID], [], w) == s1;
    var s2 := TakeKey(TakeKey(s1, "a"), "http:a");
    assert s2.removed == [("a", 1)] + [("http:a", 7)];
    LoggedSnoc([("a", 1)], "http:a", 7, "http:a");
    assert TakeKey(s2, "http:a") == s2;
    s := GoLive(s2, PLAIN_ID, w);
    assert ApplyEntries(s0, all, [], w) == s;
  }

  /** Ids may hold colons, and then one connector's id can be another's alias: the rollback leaves a new sink behind. */
  lemma CollidingKeysBreakRollback()
    ensures !KeysApart([], [COLON_ID, PLAIN_ID])
    ensures forall e :: e in [COLON_ID, PLAIN_ID] ==> !Leaks(e, None, map["a" := 1], FixedWorld(7))
    ensures Get(Undo(ApplyLive(map["a" := 1], [], [COLON_ID, PLAIN_ID], FixedWorld(7))), "http:a") == Some(7)
  {
    CollidingNotLeaking();
    assert Alias("http", "a") == "http:a";
    assert "http:a" in OwnKeys(COLON_ID) && "http:a" in OwnKeys(PLAIN_ID);
    assert COLON_ID in [] + [COLON_ID, PLAIN_ID] && PLAIN_ID in [] + [COLON_ID, PLAIN_ID];
    var s := CollidingSteps();
    UndoAt(s, "http:a");
  }

  // ---------------------------------------------------------------------
  // The directory object and the reload over it.
  // ---------------------------------------------------------------------

  class ConnectorManager {
    var connectors: Directory

    constructor ()
      ensures connectors == map[]
    {
      connectors := map[];
    }

    method Register(key: string, sink: Sink)
      modifies this
      ensures connectors == old(connectors)[key := sink]
    {
      connectors := connectors[key := sink];
    }

    method Unregister(key: string)
      modifies this
      ensures connectors == old(connectors) - {key}
    {
      connectors := connectors - {key};
    }
  }

  /** The undo log of one reload and the ids left without a sink. */
  class ReloadLog {
    var removed: seq<(string, Sink)>
    var added: seq<string>
    var pending: seq<string>

    constructor ()
      ensures removed == [] && added == [] && pending == []
    {
      removed, added, pending := [], [], [];
    }
  }

  ghost function StateOf(engine: ConnectorManager, log: ReloadLog): Live
    reads engine, log
  {
    Live(engine.connectors, log.removed, log.added, log.pending)
  }

  method TakeLiveSinkAlias(engine: ConnectorManager, kind: string, id: string, log: ReloadLog)
    modifies engine, log
    ensures StateOf(engine, log) == TakeAlias(old(StateOf(engine, log)), kind, id)
  {
    var alias := Alias(kind, id);
    if alias == id {
      return;
    }
    if alias in engine.connectors {
      log.removed := log.removed + [(alias, engine.connectors[alias])];
    }
    engine.Unregister(alias);
  }

  method TakeLiveSink(engine: ConnectorManager, id: string, kind: string, log: ReloadLog)
    modifies engine, log
    ensures StateOf(engine, log) == TakeSink(old(StateOf(engine, log)), id, kind)
  {
    if id in engine.connectors {
      log.removed := log.removed + [(id, engine.connectors[id])];
    }
    engine.Unregister(id);
    TakeLiveSinkAlias(engine, kind, id, log);
  }

  /** Resolve, probe and register one entry that should be live. */
  method BringUp(engine: ConnectorManager, e: ConnectorEntry, w: World, log: ReloadLog)
    modifies engine, log
    ensures StateOf(engine, log) == GoLive(old(StateOf(engine, log)), e, w)
  {
    var params := ConnectorParams(e.id, e.config, w.secrets);
    if params.None? || !w.reachable(params.value) || !w.compiledIn(e.kind) {
      log.pending := log.pending + [e.id];
      return;
    }
    var sink := w.build(e.kind, e.id, params.value);
    if sink.None? {
      log.pending := log.pending + [e.id];
      return;
    }
    engine.Register(e.id, sink.value);
    engine.Register(Alias(e.kind, e.id), sink.value);
    if SecondName(e.kind).Some? {
      engine.Register(Alias(SecondName(e.kind).value, e.id), sink.value);
    }
    log.added := log.added + [e.id, Alias(e.kind, e.id)];
  }

  /** One entry; `back` tells whether bringing it up came back. */
  method ApplyOne(engine: ConnectorManager, e: ConnectorEntry, previous: seq<ConnectorEntry>, w: World, log: ReloadLog)
    returns (back: bool)
    modifies engine, log
    ensures back <==> !Breaks(e, previous, w)
    ensures StateOf(engine, log) ==
            if back then ApplyEntry(old(StateOf(engine, log)), e, previous, w)
            else TakenFor(old(StateOf(engine, log)), e, previous)
  {
    var prev := Lookup(previous, e.id);
    if prev.Some? {
      if prev.value == e {
        return true;
      }
      TakeLiveSink(engine, e.id, prev.value.kind, log);
      TakeLiveSinkAlias(engine, e.kind, e.id, log);
      if !e.enable {
        return true;
      }
    } else {
      if !e.enable {
        return true;
      }
      if e.id in engine.connectors {
        TakeLiveSink(engine, e.id, e.kind, log);
        TakeLiveSinkAlias(engine, e.kind, e.id, log);
      }
    }
    if Breaks(e, previous, w) {
      return false;
    }
    BringUp(engine, e, w, log);
    return true;
  }

  method ApplyConnectorsLive(
    engine: ConnectorManager, previous: seq<ConnectorEntry>, candidate: seq<ConnectorEntry>, w: World)
    returns (log: ReloadLog, pendingLive: seq<string>, back: bool)
    modifies engine
    ensures fresh(log)
    ensures back <==> FirstBreak(candidate, previous, w) == |candidate|
    ensures back ==>
            && StateOf(engine, log) == ApplyLive(old(engine.connectors), previous, candidate, w)
            && pendingLive == PendingLive(StateOf(engine, log))
    ensures !back ==>
            StateOf(engine, log) ==
            StoppedAt(old(engine.connectors), previous, candidate, FirstBreak(candidate, previous, w), w)
  {
    log := new ReloadLog();
    ghost var start := StateOf(engine, log);
    for i := 0 to |candidate|
      invariant fresh(log) && i <= FirstBreak(candidate, previous, w)
      invariant StateOf(engine, log) == ApplyEntries(start, candidate[..i], previous, w)
    {
      hide Breaks, FirstBreak;
      assert candidate[..i + 1][..i] == candidate[..i];
      back := ApplyOne(engine, candidate[i], previous, w, log);
      if !back {
        return log, [], false;
      }
    }
    assert candidate[..|candidate|] == candidate;
    ghost var middle := StateOf(engine, log);
    for i := 0 to |previous|
      invariant fresh(log)
      invariant StateOf(engine, log) == DropEntries(middle, previous[..i], candidate)
    {
      assert previous[..i + 1][..i] == previous[..i];
      if !HasId(candidate, previous[i].id) {
        TakeLiveSink(engine, previous[i].id, previous[i].kind, log);
      }
    }
    assert previous[..|previous|] == previous;
    pendingLive := SortNames(log.pending);
    back := true;
  }

  method UndoConnectorsLive(engine: ConnectorManager, log: ReloadLog)
    modifies engine
    ensures engine.connectors == Undo(old(StateOf(engine, log)))
  {
    ghost var start := engine.connectors;
    for i := 0 to |log.added|
      invariant engine.connectors == UnregisterAll(start, log.added[..i])
    {
      assert log.added[..i + 1][..i] == log.added[..i];
      engine.Unregister(log.added[i]);
    }
    assert log.added[..|log.added|] == log.added;
    ghost var middle := engine.connectors;
    for i := 0 to |log.removed|
      invariant engine.connectors == RegisterAll(middle, log.removed[..i])
    {
      assert log.removed[..i + 1][..i] == log.removed[..i];
      engine.Register(log.removed[i].0, log.removed[i].1);
    }
    assert log.removed[..|log.removed|] == log.removed;
  }
}
