/**
 * The ordered authenticator chain: a locked list, a lock-free snapshot of it for the connect path, and
 * the root committed to the configuration registry.
 */
module Chain {
  import opened Prelude
  import opened Text
  import opened Config
  import opened SecretWalk

  const MAX_ENTRIES: int := 8
  const MAX_ID_LEN: int := 256
  const MAX_CONFIG_LEN: int := 8192

  datatype Entry = Entry(id: string, mechanism: string, backend: string, enable: bool, config: Json)

  /** The JSON text format. */
  datatype Codec = Codec(render: Json -> string, parse: string -> Option<Json>)

  ghost predicate Faithful(c: Codec) {
    forall j :: c.parse(c.render(j)) == Some(j) && !Blank(c.render(j))
  }

  // ---------------------------------------------------------------------
  // Validation.
  // ---------------------------------------------------------------------

  predicate KnownMechanism(m: string) {
    m in ["password_based", "jwt", "scram"]
  }

  predicate KnownBackend(b: string) {
    b in ["built_in_database", "mysql", "postgresql", "mongodb", "redis", "http", "jwt", "scram", "ldap", "file"]
  }

  /** An id with a colon must start with its mechanism. */
  predicate HeadMatches(id: string, mechanism: string) {
    ':' in id ==> id[..IndexOf(id, ':')] == mechanism
  }

  predicate SlotOk(e: ChainEntry) {
    && !Blank(e.id)
    && !Blank(e.mechanism) && KnownMechanism(e.mechanism)
    && !Blank(e.backend) && KnownBackend(e.backend)
    && HeadMatches(e.id, e.mechanism)
  }

  /** `AuthnChainConf::validate`. */
  predicate RootOk(root: seq<ChainEntry>) {
    && |root| <= MAX_ENTRIES
    && (forall i :: 0 <= i < |root| ==> SlotOk(root[i]))
    && (forall i, j :: 0 <= i < j < |root| ==> root[i].id != root[j].id)
  }

  /** `validate_entry`: the root's own checks plus the length limits. */
  predicate EntryOk(e: Entry, c: Codec) {
    && !Blank(e.id) && ByteLen(e.id) <= MAX_ID_LEN
    && !Blank(e.mechanism) && ByteLen(e.mechanism) <= MAX_ID_LEN && KnownMechanism(e.mechanism)
    && !Blank(e.backend) && ByteLen(e.backend) <= MAX_ID_LEN && KnownBackend(e.backend)
    && HeadMatches(e.id, e.mechanism)
    && ByteLen(c.render(e.config)) <= MAX_CONFIG_LEN
  }

  const MECHANISMS: set<string> := {"password_based", "jwt", "scram"}
  const BACKENDS: set<string> :=
    {"built_in_database", "mysql", "postgresql", "mongodb", "redis", "http", "jwt", "scram", "ldap", "file"}

  /** What stands before the first colon of an id is its mechanism. */
  ghost predicate LedBy(id: string, mechanism: string) {
    forall head: string, tail: string :: id == head + [':'] + tail && ':' !in head ==> head == mechanism
  }

  lemma HeadMatchesExactly(id: string, mechanism: string)
    ensures HeadMatches(id, mechanism) <==> LedBy(id, mechanism)
  {
    var k := IndexOf(id, ':');
    if ':' in id {
      assert id == id[..k] + [':'] + id[k + 1..] && ':' !in id[..k];
    }
    forall head: string, tail: string | id == head + [':'] + tail && ':' !in head ensures head == id[..k] {
      assert id[|head|] == ':' && head == id[..|head|];
    }
  }

  /** An entry a client may send: known names, an id led by its mechanism, and texts within their limits in octets. */
  ghost predicate Legal(e: Entry, c: Codec) {
    && Trim(e.id) != "" && e.mechanism in MECHANISMS && e.backend in BACKENDS && LedBy(e.id, e.mechanism)
    && ByteLen(e.id) <= 256 && ByteLen(c.render(e.config)) <= 8192
  }

  lemma LegalExactly(e: Entry, c: Codec)
    ensures EntryOk(e, c) <==> Legal(e, c)
    ensures EntryOk(e, c) <==>
            SlotOk(ExportEntry(e, c)) && ByteLen(e.id) <= 256 && ByteLen(c.render(e.config)) <= 8192
  {
    HeadMatchesExactly(e.id, e.mechanism);
    hide HeadMatches, LedBy, ByteLen, Trim;
    KnownNames(e.mechanism);
    KnownNames(e.backend);
  }

  /** Known names are neither blank nor long. */
  lemma KnownNames(name: string)
    ensures KnownMechanism(name) || KnownBackend(name) ==> !Blank(name) && ByteLen(name) <= 256
  {
    if KnownMechanism(name) || KnownBackend(name) {
      assert 3 <= |name| <= 17 && !IsSpace(name[0]) && !IsSpace(name[|name| - 1]);
      TrimFixed(name);
      ShortBytes(name);
    }
  }

  lemma {:induction false} ShortBytes(s: string)
    ensures ByteLen(s) <= 4 * |s|
  {
    if s != "" { ShortBytes(s[1..]); }
  }

  // ---------------------------------------------------------------------
  // Export and reload.
  // ---------------------------------------------------------------------

  function ExportEntry(e: Entry, c: Codec): ChainEntry {
    ChainEntry(e.id, e.mechanism, e.backend, e.enable, if e.config.Null? then "" else c.render(e.config))
  }

  lemma ExportedConfig(e: Entry, c: Codec)
    ensures ExportEntry(e, c).config == if e.config == Null then "" else c.render(e.config)
    ensures ExportEntry(e, c).(config := "") == ChainEntry(e.id, e.mechanism, e.backend, e.enable, "")
  {
  }

  function Export(entries: seq<Entry>, c: Codec): (root: seq<ChainEntry>)
    ensures |root| == |entries|
    ensures forall i :: 0 <= i < |root| ==> root[i] == ExportEntry(entries[i], c)
  {
    seq(|entries|, i requires 0 <= i < |entries| => ExportEntry(entries[i], c))
  }

  function ImportEntry(e: ChainEntry, c: Codec): Option<Entry> {
    if Blank(e.config) then Some(Entry(e.id, e.mechanism, e.backend, e.enable, Null))
    else match c.parse(e.config)
      case Some(config) => Some(Entry(e.id, e.mechanism, e.backend, e.enable, config))
      case None => None
  }

  /** The list a root seeds: entries whose stored config does not parse are dropped. */
  function Reload(root: seq<ChainEntry>, c: Codec): seq<Entry> {
    if root == [] then []
    else
      var init := Reload(root[..|root| - 1], c);
      match ImportEntry(root[|root| - 1], c)
      case Some(e) => init + [e]
      case None => init
  }

  lemma {:induction false} ExportReloads(entries: seq<Entry>, c: Codec)
    requires Faithful(c)
    ensures Reload(Export(entries, c), c) == entries
  {
    if entries != [] {
      var root, last := Export(entries, c), entries[|entries| - 1];
      assert root[..|root| - 1] == Export(entries[..|entries| - 1], c);
      ExportReloads(entries[..|entries| - 1], c);
      assert ImportEntry(ExportEntry(last, c), c) == Some(last);
      assert entries == entries[..|entries| - 1] + [last];
    }
  }

  // ---------------------------------------------------------------------
  // The store.
  // ---------------------------------------------------------------------

  datatype Registry = Registry(current: seq<ChainEntry>, saved: seq<ChainEntry>)

  datatype Store = Store(inner: seq<Entry>, snapshot: seq<Entry>, registry: Option<Registry>)

  datatype Refusal = Duplicate | Full | Invalid | NotFound | Last | Unknown(ids: seq<string>)
    | Incomplete(missing: seq<string>) | Persist

  datatype Reply = Done | Refused(why: Refusal)

  function Ids(entries: seq<Entry>): (ids: seq<string>)
    ensures |ids| == |entries|
    ensures forall i :: 0 <= i < |ids| ==> ids[i] == entries[i].id
  {
    seq(|entries|, i requires 0 <= i < |entries| => entries[i].id)
  }

  /** Position of the entry with this id, or the length. */
  function Position(entries: seq<Entry>, id: string): (pos: nat)
    ensures pos <= |entries|
    ensures pos < |entries| ==> entries[pos].id == id
    ensures forall i :: 0 <= i < pos ==> entries[i].id != id
  {
    if entries == [] then 0
    else if entries[0].id == id then 0
    else
      var pos := Position(entries[1..], id);
      assert forall i :: 0 < i < 1 + pos ==> entries[i] == entries[1..][i - 1];
      1 + pos
  }

  predicate Stored(entries: seq<Entry>, id: string) {
    Position(entries, id) < |entries|
  }

  /** Seeding from a registry: list and snapshot are the root's entries. */
  function Seed(registry: Registry, c: Codec): Store {
    var entries := Reload(registry.current, c);
    Store(entries, entries, Some(registry))
  }

  /** Commit the exported root, then save it; a failed save leaves the commit in place. */
  function PersistRoot(s: Store, root: seq<ChainEntry>, saves: bool): (Store, Reply) {
    match s.registry
    case None => (s, Done)
    case Some(r) =>
      if !RootOk(root) then (s, Refused(Persist))
      else if saves then (s.(registry := Some(Registry(root, root))), Done)
      else (s.(registry := Some(r.(current := root))), Refused(Persist))
  }

  function Install(s: Store, next: seq<Entry>, c: Codec, saves: bool): (Store, Reply) {
    PersistRoot(Store(next, next, s.registry), Export(next, c), saves)
  }

  function Insert(s: Store, e: Entry, c: Codec, saves: bool): (Store, Reply) {
    if !EntryOk(e, c) then (s, Refused(Invalid))
    else if Stored(s.inner, e.id) then (s, Refused(Duplicate))
    else if |s.inner| >= MAX_ENTRIES then (s, Refused(Full))
    else if !RootOk(Export(s.inner + [e], c)) then (s, Refused(Invalid))
    else Install(s, s.inner + [e], c, saves)
  }

  function Update(s: Store, id: string, e: Entry, c: Codec, saves: bool): (Store, Reply) {
    if e.id != id || !EntryOk(e, c) then (s, Refused(Invalid))
    else if !Stored(s.inner, id) then (s, Refused(NotFound))
    else
      var next := s.inner[Position(s.inner, id) := e];
      if !RootOk(Export(next, c)) then (s, Refused(Invalid)) else Install(s, next, c, saves)
  }

  function Without<T>(xs: seq<T>, pos: nat): seq<T>
    requires pos < |xs|
  {
    xs[..pos] + xs[pos + 1..]
  }

  /** The list changes before the late validation, so a failure there would leave the snapshot behind. */
  function Remove(s: Store, id: string, c: Codec, saves: bool): (Store, Reply) {
    if !Stored(s.inner, id) then (s, Refused(NotFound))
    else if |s.inner| == 1 then (s, Refused(Last))
    else
      var next := Without(s.inner, Position(s.inner, id));
      if !RootOk(Export(next, c)) then (s.(inner := next), Refused(Persist)) else Install(s, next, c, saves)
  }

  predicate IdOk(id: string) {
    !Blank(id) && ByteLen(id) <= MAX_ID_LEN
  }

  predicate Distinct(ids: seq<string>) {
    forall i, j :: 0 <= i < j < |ids| ==> ids[i] != ids[j]
  }

  function UnknownIds(ids: seq<string>, entries: seq<Entry>): (unknown: seq<string>)
    ensures forall id :: id in unknown <==> id in ids && !Stored(entries, id)
  {
    if ids == [] then []
    else
      var init, last := UnknownIds(ids[..|ids| - 1], entries), ids[|ids| - 1];
      assert ids == ids[..|ids| - 1] + [last];
      if Stored(entries, last) then init else init + [last]
  }

  function MissingIds(ids: seq<string>, entries: seq<Entry>): (missing: seq<string>)
    ensures forall id :: id in missing <==> id !in ids && exists e :: e in entries && e.id == id
  {
    if entries == [] then []
    else
      var init, last := MissingIds(ids, entries[..|entries| - 1]), entries[|entries| - 1];
      assert entries == entries[..|entries| - 1] + [last];
      if last.id in ids then init else init + [last.id]
  }

  function Find(entries: seq<Entry>, id: string): (e: Entry)
    requires Stored(entries, id)
    ensures e in entries && e.id == id
  {
    entries[Position(entries, id)]
  }

  predicate AllStored(ids: seq<string>, entries: seq<Entry>) {
    forall i :: 0 <= i < |ids| ==> Stored(entries, ids[i])
  }

  function Arrange(ids: seq<string>, entries: seq<Entry>): (next: seq<Entry>)
    requires AllStored(ids, entries)
    ensures |next| == |ids|
    ensures forall i :: 0 <= i < |ids| ==> next[i] == Find(entries, ids[i])
  {
    seq(|ids|, i requires 0 <= i < |ids| => Find(entries, ids[i]))
  }

  predicate AllIdsOk(ids: seq<string>) {
    forall i :: 0 <= i < |ids| ==> IdOk(ids[i])
  }

  function Reorder(s: Store, ids: seq<string>, c: Codec, saves: bool): (Store, Reply) {
    if !AllIdsOk(ids) then (s, Refused(Invalid))
    else if !Distinct(ids) then (s, Refused(Duplicate))
    else
      var unknown, missing := UnknownIds(ids, s.inner), MissingIds(ids, s.inner);
      if unknown != [] && missing != [] then (s, Refused(Invalid))
      else if unknown != [] then (s, Refused(Unknown(unknown)))
      else if missing != [] then (s, Refused(Incomplete(missing)))
      else
        assert AllStored(ids, s.inner) by {
          assert forall i :: 0 <= i < |ids| ==> ids[i] in ids;
        }
        var next := Arrange(ids, s.inner);
        if !RootOk(Export(next, c)) then (s, Refused(Invalid)) else Install(s, next, c, saves)
  }

  // ---------------------------------------------------------------------
  // Runs.
  // ---------------------------------------------------------------------

  datatype Op =
    | DoInsert(entry: Entry)
    | DoReorder(ids: seq<string>)
    | DoUpdate(id: string, entry: Entry)
    | DoRemove(id: string)

  /** One call, with whether the disk accepts the save. */
  function Step(s: Store, op: Op, c: Codec, saves: bool): (Store, Reply) {
    match op
    case DoInsert(e) => Insert(s, e, c, saves)
    case DoReorder(ids) => Reorder(s, ids, c, saves)
    case DoUpdate(id, e) => Update(s, id, e, c, saves)
    case DoRemove(id) => Remove(s, id, c, saves)
  }

  datatype Call = Call(op: Op, saves: bool)

  function Run(s: Store, calls: seq<Call>, c: Codec): Store {
    if calls == [] then s
    else Step(Run(s, calls[..|calls| - 1], c), calls[|calls| - 1].op, c, calls[|calls| - 1].saves).0
  }

  /** A run is its calls one after the other. */
  lemma RunExactly(s: Store, calls: seq<Call>, call: Call, c: Codec)
    ensures Run(s, [], c) == s
    ensures Run(s, calls + [call], c) == Step(Run(s, calls, c), call.op, c, call.saves).0
  {
    hide Step;
    assert (calls + [call])[..|calls|] == calls;
  }

  /** Snapshot and list agree, the list exports to a valid root, and the registry reloads to the list. */
  ghost predicate Consistent(s: Store, c: Codec) {
    && s.snapshot == s.inner
    && RootOk(Export(s.inner, c))
    && (s.registry.Some? ==> RootOk(s.registry.value.current) && Reload(s.registry.value.current, c) == s.inner)
  }

  /** What the file holds: the committed root if it was saved, and otherwise what it held before. */
  ghost predicate SavedIf(saved: bool, s: Store, s': Store)
    requires s.registry.Some? && s'.registry.Some?
  {
    s'.registry.value.saved == if saved then s'.registry.value.current else s.registry.value.saved
  }

  lemma InstallFacts(s: Store, next: seq<Entry>, c: Codec, saves: bool)
    requires Faithful(c) && RootOk(Export(next, c))
    ensures var (s', reply) := Install(s, next, c, saves);
            && s'.inner == next && Consistent(s', c)
            && (s'.registry.Some? <==> s.registry.Some?)
            && reply == (if s.registry.None? || saves then Done else Refused(Persist))
            && (s.registry.Some? ==> s'.registry.value.current == Export(next, c) && SavedIf(reply == Done, s, s'))
  {
    ExportReloads(next, c);
  }

  /** A valid root stays valid when one entry is dropped, so the late validation of a removal cannot fail. */
  lemma RootOkWithout(entries: seq<Entry>, pos: nat, c: Codec)
    requires RootOk(Export(entries, c)) && pos < |entries|
    ensures RootOk(Export(Without(entries, pos), c))
  {
    hide SlotOk, ExportEntry;
    var root, rest := Export(entries, c), Export(Without(entries, pos), c);
    forall i | 0 <= i < |rest| ensures SlotOk(rest[i]) {
      assert rest[i] == if i < pos then root[i] else root[i + 1];
    }
    forall i, j | 0 <= i < j < |rest| ensures rest[i].id != rest[j].id {
      assert rest[i] == if i < pos then root[i] else root[i + 1];
      assert rest[j] == if j < pos then root[j] else root[j + 1];
    }
  }

  /** What one call keeps, given its state and reply afterwards. */
  ghost predicate Kept(s: Store, s': Store, reply: Reply, c: Codec) {
    && Consistent(s', c)
    && (s'.registry.Some? <==> s.registry.Some?)
    && (s.inner != [] ==> s'.inner != [])
    && (s.registry.Some? && (reply == Done || reply == Refused(Persist)) ==>
         s'.registry.value.current == Export(s'.inner, c) && SavedIf(reply == Done, s, s'))
    && (reply.Refused? && reply.why != Persist ==> s' == s)
  }

  lemma InstallKept(s: Store, next: seq<Entry>, c: Codec, saves: bool)
    requires Faithful(c) && RootOk(Export(next, c)) && (s.inner != [] ==> next != [])
    ensures Kept(s, Install(s, next, c, saves).0, Install(s, next, c, saves).1, c)
  {
    hide RootOk, Export;
    InstallFacts(s, next, c, saves);
  }

  lemma ReorderKept(s: Store, ids: seq<string>, c: Codec, saves: bool)
    requires Faithful(c) && Consistent(s, c)
    ensures Kept(s, Reorder(s, ids, c, saves).0, Reorder(s, ids, c, saves).1, c)
  {
    hide RootOk, Export, Install, AllIdsOk, Distinct;
    if AllStored(ids, s.inner) && MissingIds(ids, s.inner) == [] {
      var next := Arrange(ids, s.inner);
      assert s.inner != [] ==> s.inner[0] in s.inner;
      if RootOk(Export(next, c)) { InstallKept(s, next, c, saves); }
    }
  }

  lemma RefusedKept(s: Store, reply: Reply, c: Codec)
    requires Consistent(s, c) && reply.Refused? && reply.why != Persist
    ensures Kept(s, s, reply, c)
  {
    hide Consistent;
  }

  lemma InsertKept(s: Store, e: Entry, c: Codec, saves: bool)
    requires Faithful(c) && Consistent(s, c)
    ensures Kept(s, Insert(s, e, c, saves).0, Insert(s, e, c, saves).1, c)
  {
    hide RootOk, EntryOk, Export, Install, Kept, Consistent, Stored;
    forall why | why != Persist ensures Kept(s, s, Refused(why), c) { RefusedKept(s, Refused(why), c); }
    if RootOk(Export(s.inner + [e], c)) { InstallKept(s, s.inner + [e], c, saves); }
  }

  lemma UpdateKept(s: Store, id: string, e: Entry, c: Codec, saves: bool)
    requires Faithful(c) && Consistent(s, c)
    ensures Kept(s, Update(s, id, e, c, saves).0, Update(s, id, e, c, saves).1, c)
  {
    hide RootOk, EntryOk, Export, Install, Kept, Consistent;
    forall why | why != Persist ensures Kept(s, s, Refused(why), c) { RefusedKept(s, Refused(why), c); }
    if Stored(s.inner, id) {
      var next := s.inner[Position(s.inner, id) := e];
      if RootOk(Export(next, c)) { InstallKept(s, next, c, saves); }
    }
  }

  lemma RemoveKept(s: Store, id: string, c: Codec, saves: bool)
    requires Faithful(c) && Consistent(s, c)
    ensures Kept(s, Remove(s, id, c, saves).0, Remove(s, id, c, saves).1, c)
  {
    ConsistentParts(s, c);
    hide RootOk, Export, Install, Kept, Consistent;
    forall why | why != Persist ensures Kept(s, s, Refused(why), c) { RefusedKept(s, Refused(why), c); }
    if Stored(s.inner, id) && |s.inner| > 1 {
      RootOkWithout(s.inner, Position(s.inner, id), c);
      InstallKept(s, Without(s.inner, Position(s.inner, id)), c, saves);
    }
  }

  /** Every call keeps the three copies in agreement, whatever the disk does. */
  lemma StepConsistent(s: Store, op: Op, c: Codec, saves: bool)
    requires Faithful(c) && Consistent(s, c)
    ensures Kept(s, Step(s, op, c, saves).0, Step(s, op, c, saves).1, c)
  {
    hide Insert, Update, Remove, Reorder, Kept, Consistent;
    match op
    case DoInsert(e) => InsertKept(s, e, c, saves);
    case DoReorder(ids) => ReorderKept(s, ids, c, saves);
    case DoUpdate(id, e) => UpdateKept(s, id, e, c, saves);
    case DoRemove(id) => RemoveKept(s, id, c, saves);
  }

  lemma {:induction false} SeedConsistent(registry: Registry, c: Codec)
    requires RootOk(registry.current)
    requires RootOk(Export(Reload(registry.current, c), c))
    ensures Consistent(Seed(registry, c), c)
  {
  }

  /** Dropping unparsable entries keeps a root valid, so every valid registry seeds a consistent store. */
  lemma {:induction false} ReloadValid(root: seq<ChainEntry>, c: Codec)
    requires RootOk(root)
    ensures RootOk(Export(Reload(root, c), c))
    ensures |Reload(root, c)| <= |root|
    ensures forall i :: 0 <= i < |Reload(root, c)| ==>
            exists j :: 0 <= j < |root| && root[j].id == Reload(root, c)[i].id
  {
    hide SlotOk, Blank;
    if root != [] {
      var init, last := root[..|root| - 1], root[|root| - 1];
      ReloadValid(init, c);
      var before, after := Reload(init, c), Reload(root, c);
      forall i | 0 <= i < |after| ensures exists j :: 0 <= j < |root| && root[j].id == after[i].id {
        if i < |before| {
          var j :| 0 <= j < |init| && init[j].id == before[i].id;
          assert root[j].id == after[i].id;
        }
      }
      if ImportEntry(last, c).Some? {
        var e := ImportEntry(last, c).value;
        assert SlotOk(ExportEntry(e, c)) by { SlotOkByFields(last, ExportEntry(e, c)); }
        forall i | 0 <= i < |before| ensures before[i].id != e.id {
          var j :| 0 <= j < |init| && init[j].id == before[i].id;
          assert root[j].id != root[|root| - 1].id;
        }
        assert Export(after, c) == Export(before, c) + [ExportEntry(e, c)];
      }
    }
  }

  lemma SlotOkByFields(a: ChainEntry, b: ChainEntry)
    requires SlotOk(a) && b.id == a.id && b.mechanism == a.mechanism && b.backend == a.backend
    ensures SlotOk(b)
  {
  }

  /**
   * Every run of calls from a store seeded with a valid root, with any pattern of failed saves: the
   * snapshot is the list, ids are unique, the list is within the cap, a chain that is not empty stays
   * so, and the registry's root reloads to exactly the list.
   */
  lemma {:induction false} RunInvariant(registry: Registry, calls: seq<Call>, c: Codec)
    requires Faithful(c) && RootOk(registry.current)
    ensures var s := Run(Seed(registry, c), calls, c);
            && Consistent(s, c)
            && s.registry.Some?
            && Distinct(Ids(s.inner)) && |s.inner| <= MAX_ENTRIES
            && (Seed(registry, c).inner != [] ==> s.inner != [])
  {
    if calls == [] {
      ReloadValid(registry.current, c);
      SeedConsistent(registry, c);
    } else {
      var init, last := calls[..|calls| - 1], calls[|calls| - 1];
      RunInvariant(registry, init, c);
      StepConsistent(Run(Seed(registry, c), init, c), last.op, c, last.saves);
    }
    ConsistentIds(Run(Seed(registry, c), calls, c), c);
  }

  lemma ConsistentIds(s: Store, c: Codec)
    requires Consistent(s, c)
    ensures Distinct(Ids(s.inner)) && |s.inner| <= MAX_ENTRIES
  {
    var root := Export(s.inner, c);
    assert forall i :: 0 <= i < |root| ==> root[i].id == Ids(s.inner)[i];
  }

  // ---------------------------------------------------------------------
  // When the other calls apply, and what they then do.
  // ---------------------------------------------------------------------

  predicate Applied(reply: Reply) {
    reply == Done || reply == Refused(Persist)
  }

  lemma SlotOkOfEntry(e: Entry, c: Codec)
    requires EntryOk(e, c)
    ensures SlotOk(ExportEntry(e, c))
  {
    hide Blank, ByteLen;
  }

  lemma InsertExactly(s: Store, e: Entry, c: Codec, saves: bool)
    requires Faithful(c) && Consistent(s, c)
    ensures var (s', reply) := Insert(s, e, c, saves);
            && (Applied(reply) <==> Legal(e, c) && e.id !in Ids(s.inner) && |s.inner| < 8)
            && s'.inner == (if Applied(reply) then s.inner + [e] else s.inner)
            && (reply == Refused(Invalid) <==> !Legal(e, c))
            && (reply == Refused(Duplicate) <==> Legal(e, c) && e.id in Ids(s.inner))
            && (reply == Refused(Full) <==> Legal(e, c) && e.id !in Ids(s.inner) && |s.inner| == 8)
            && (reply.Refused? && reply.why != Persist ==> s' == s)
  {
    hide EntryOk, SlotOk, Install, Legal;
    LegalExactly(e, c);
    ConsistentIds(s, c);
    StoredIsIn(s.inner, e.id);
    if EntryOk(e, c) && e.id !in Ids(s.inner) && |s.inner| < MAX_ENTRIES {
      SlotOkOfEntry(e, c);
      var next := s.inner + [e];
      assert Export(next, c) == Export(s.inner, c) + [ExportEntry(e, c)];
      assert forall i :: 0 <= i < |s.inner| ==> Ids(s.inner)[i] != e.id;
      InstallFacts(s, next, c, saves);
    }
  }

  lemma UpdateExactly(s: Store, id: string, e: Entry, c: Codec, saves: bool)
    requires Faithful(c) && Consistent(s, c)
    ensures var (s', reply) := Update(s, id, e, c, saves);
            && (Applied(reply) <==> e.id == id && Legal(e, c) && id in Ids(s.inner))
            && (reply == Refused(Invalid) <==> e.id != id || !Legal(e, c))
            && (reply == Refused(NotFound) <==> e.id == id && Legal(e, c) && id !in Ids(s.inner))
            && (reply.Refused? && reply.why != Persist ==> s' == s)
            && |s'.inner| == |s.inner|
            && forall i :: 0 <= i < |s.inner| ==>
                 s'.inner[i] == if Applied(reply) && s.inner[i].id == id then e else s.inner[i]
  {
    hide EntryOk, SlotOk, Install, Legal;
    LegalExactly(e, c);
    StoredIsIn(s.inner, id);
    ConsistentIds(s, c);
    if e.id == id && EntryOk(e, c) && id in Ids(s.inner) {
      SlotOkOfEntry(e, c);
      var pos := Position(s.inner, id);
      var next := s.inner[pos := e];
      assert Export(next, c) == Export(s.inner, c)[pos := ExportEntry(e, c)];
      forall i | 0 <= i < |s.inner| && i != pos ensures s.inner[i].id != id {
        assert Ids(s.inner)[i] != Ids(s.inner)[pos];
      }
      InstallFacts(s, next, c, saves);
    }
  }

  lemma RemoveExactly(s: Store, id: string, c: Codec, saves: bool)
    requires Faithful(c) && Consistent(s, c)
    ensures var (s', reply) := Remove(s, id, c, saves);
            && (Applied(reply) <==> id in Ids(s.inner) && |s.inner| > 1)
            && (Applied(reply) ==>
                 exists pos :: 0 <= pos < |s.inner| && s.inner[pos].id == id && s'.inner == Without(s.inner, pos))
            && (Applied(reply) ==> id !in Ids(s'.inner))
            && (reply == Refused(NotFound) <==> id !in Ids(s.inner))
            && (reply == Refused(Last) <==> id in Ids(s.inner) && |s.inner| == 1)
            && (!Applied(reply) ==> s' == s)
  {
    ConsistentParts(s, c);
    StoredIsIn(s.inner, id);
    ConsistentIds(s, c);
    hide RootOk, Install, Export, Consistent, Without, Distinct, Ids;
    if Stored(s.inner, id) && |s.inner| > 1 {
      var pos := Position(s.inner, id);
      RootOkWithout(s.inner, pos, c);
      InstallFacts(s, Without(s.inner, pos), c, saves);
      assert s.inner[pos].id == id;
      WithoutId(s.inner, pos);
    }
  }

  lemma WithoutId(entries: seq<Entry>, pos: nat)
    requires Distinct(Ids(entries)) && pos < |entries|
    ensures entries[pos].id !in Ids(Without(entries, pos))
  {
    var rest := Without(entries, pos);
    forall i | 0 <= i < |rest| ensures Ids(rest)[i] != entries[pos].id {
      var k := if i < pos then i else i + 1;
      assert rest[i] == entries[k];
      assert Ids(entries)[k] != Ids(entries)[pos];
    }
  }

  // ---------------------------------------------------------------------
  // Reordering.
  // ---------------------------------------------------------------------

  lemma {:induction false} DistinctMultiset<T>(xs: seq<T>)
    requires forall i, j :: 0 <= i < j < |xs| ==> xs[i] != xs[j]
    ensures forall x :: multiset(xs)[x] == if x in xs then 1 else 0
  {
    if xs != [] {
      var init, last := xs[..|xs| - 1], xs[|xs| - 1];
      DistinctMultiset(init);
      assert xs == init + [last];
      assert last !in init;
    }
  }

  lemma RepeatCounts(ids: seq<string>, i: nat, j: nat)
    requires i < j < |ids|
    ensures ids[i] == ids[j] ==> multiset(ids)[ids[j]] >= 2
  {
    assert ids == ids[..j] + [ids[j]] + ids[j + 1..];
    assert ids[i] in ids[..j];
  }

  /** No duplicate, none unknown and none missing together say that the ids are a permutation. */
  lemma PermutationExactly(ids: seq<string>, stored: seq<string>)
    requires Distinct(stored)
    ensures multiset(ids) == multiset(stored) <==>
            Distinct(ids) && (forall id :: id in ids <==> id in stored)
  {
    DistinctMultiset(stored);
    if Distinct(ids) && (forall id :: id in ids <==> id in stored) {
      DistinctMultiset(ids);
    }
    if multiset(ids) == multiset(stored) {
      forall id ensures id in ids <==> id in stored {
        assert id in multiset(ids) <==> id in multiset(stored);
      }
      forall i, j | 0 <= i < j < |ids| ensures ids[i] != ids[j] {
        RepeatCounts(ids, i, j);
      }
    }
  }

  lemma StoredIsIn(entries: seq<Entry>, id: string)
    ensures Stored(entries, id) <==> id in Ids(entries)
    ensures id in Ids(entries) <==> exists e :: e in entries && e.id == id
  {
    if id in Ids(entries) {
      var i :| 0 <= i < |entries| && Ids(entries)[i] == id;
      assert entries[i] in entries;
    }
    if e :| e in entries && e.id == id {
      var i :| 0 <= i < |entries| && entries[i] == e;
      assert Ids(entries)[i] == id;
    }
    if Stored(entries, id) {
      assert Ids(entries)[Position(entries, id)] == id;
    }
  }

  predicate BuiltInAvailable(snapshot: seq<Entry>) {
    || snapshot == []
    || exists i :: 0 <= i < |snapshot| && snapshot[i].backend == "built_in_database" && snapshot[i].enable
  }

  /** Rearranging the stored ids rearranges the entries: same order as asked, same entries, same availability. */
  lemma ArrangeFacts(ids: seq<string>, entries: seq<Entry>)
    requires Distinct(Ids(entries)) && multiset(ids) == multiset(Ids(entries))
    ensures AllStored(ids, entries)
    ensures Ids(Arrange(ids, entries)) == ids
    ensures multiset(Arrange(ids, entries)) == multiset(entries)
  {
    PermutationExactly(ids, Ids(entries));
    forall i | 0 <= i < |ids| ensures Stored(entries, ids[i]) {
      StoredIsIn(entries, ids[i]);
      assert ids[i] in ids;
    }
    var next := Arrange(ids, entries);
    assert Ids(next) == ids;
    forall e ensures e in next <==> e in entries {
      ArrangedElement(ids, entries, e);
    }
    assert forall i, j :: 0 <= i < j < |entries| ==> Ids(entries)[i] != Ids(entries)[j];
    DistinctMultiset(entries);
    DistinctMultiset(next);
    assert forall e :: multiset(next)[e] == multiset(entries)[e];
  }

  lemma ArrangedElement(ids: seq<string>, entries: seq<Entry>, e: Entry)
    requires Distinct(Ids(entries)) && (forall id :: id in ids <==> id in Ids(entries))
    requires AllStored(ids, entries)
    ensures e in Arrange(ids, entries) <==> e in entries
  {
    var next := Arrange(ids, entries);
    if e in entries {
      var k :| 0 <= k < |entries| && entries[k] == e;
      assert Ids(entries)[k] == e.id;
      assert e.id in ids;
      var i :| 0 <= i < |ids| && ids[i] == e.id;
      var pos := Position(entries, ids[i]);
      assert Stored(entries, ids[i]);
      assert pos == k by { assert Ids(entries)[pos] == Ids(entries)[k]; }
      assert next[i] == e;
    }
  }

  /** A CONNECT may go on exactly when the chain is empty or has an enabled entry of the built-in database. */
  lemma AvailableExactly(snapshot: seq<Entry>)
    ensures BuiltInAvailable(snapshot) <==>
            snapshot == [] || exists e :: e in snapshot && e.enable && e.backend == "built_in_database"
  {
    if e :| e in snapshot && e.enable && e.backend == "built_in_database" {
      var i :| 0 <= i < |snapshot| && snapshot[i] == e;
    }
  }

  lemma SameAvailability(a: seq<Entry>, b: seq<Entry>)
    requires multiset(a) == multiset(b)
    ensures BuiltInAvailable(a) == BuiltInAvailable(b)
  {
    assert |a| == |multiset(a)| == |multiset(b)| == |b|;
    forall x: seq<Entry>, y: seq<Entry> | multiset(x) == multiset(y) && x != [] && BuiltInAvailable(x)
      ensures BuiltInAvailable(y)
    {
      var i :| 0 <= i < |x| && x[i].backend == "built_in_database" && x[i].enable;
      assert x[i] in multiset(x);
      assert x[i] in y;
    }
  }

  /**
   * Apart from persistence, a reorder with well-formed ids is applied exactly when the ids are a
   * permutation of the stored ones; then the order is the one asked for, the entries are the same and
   * the connect path answers the same. The root check inside cannot refuse it.
   */
  lemma ReorderExactly(s: Store, ids: seq<string>, c: Codec, saves: bool)
    requires Faithful(c) && Consistent(s, c)
    requires AllIdsOk(ids)
    ensures var (s', reply) := Reorder(s, ids, c, saves);
            && (reply == Done || reply == Refused(Persist) <==> multiset(ids) == multiset(Ids(s.inner)))
            && (multiset(ids) == multiset(Ids(s.inner)) ==>
                 && Ids(s'.inner) == ids
                 && multiset(s'.inner) == multiset(s.inner)
                 && s'.snapshot == s'.inner
                 && BuiltInAvailable(s'.snapshot) == BuiltInAvailable(s.snapshot)
                 && (reply == Done <==> s.registry.None? || saves))
            && (multiset(ids) != multiset(Ids(s.inner)) ==> s' == s)
  {
    hide RootOk, Export, Install, AllIdsOk, Reorder, Arrange, Consistent;
    ConsistentIds(s, c);
    ReorderReply(s, ids, c, saves);
    PermutationExactly(ids, Ids(s.inner));
    if multiset(ids) == multiset(Ids(s.inner)) {
      ArrangeFacts(ids, s.inner);
      var next := Arrange(ids, s.inner);
      ConsistentParts(s, c);
      RootOkArranged(s.inner, next, c);
      InstallFacts(s, next, c, saves);
      ConsistentParts(Install(s, next, c, saves).0, c);
      SameAvailability(next, s.inner);
    }
  }

  lemma ConsistentParts(s: Store, c: Codec)
    requires Consistent(s, c)
    ensures s.snapshot == s.inner && RootOk(Export(s.inner, c))
  {
  }

  /** Why a reorder is refused: ids that are ill-formed, repeated, not stored or left out, told in that order. */
  lemma ReorderRefusedExactly(s: Store, ids: seq<string>, c: Codec, saves: bool)
    requires Faithful(c) && Consistent(s, c)
    ensures var (s', reply) := Reorder(s, ids, c, saves);
            var legal := forall i :: 0 <= i < |ids| ==> Trim(ids[i]) != "" && ByteLen(ids[i]) <= 256;
            var unknown := exists id :: id in ids && id !in Ids(s.inner);
            var missing := exists id :: id in Ids(s.inner) && id !in ids;
            && (reply == Refused(Invalid) <==> !legal || (Distinct(ids) && unknown && missing))
            && (reply == Refused(Duplicate) <==> legal && !Distinct(ids))
            && (reply.Refused? && reply.why.Unknown? <==> legal && Distinct(ids) && unknown && !missing)
            && (reply.Refused? && reply.why.Incomplete? <==> legal && Distinct(ids) && !unknown && missing)
            && (reply.Refused? && reply.why.Unknown? ==>
                 forall id :: id in reply.why.ids <==> id in ids && id !in Ids(s.inner))
            && (reply.Refused? && reply.why.Incomplete? ==>
                 forall id :: id in reply.why.missing <==> id in Ids(s.inner) && id !in ids)
            && (reply.Refused? && reply.why != Persist ==> s' == s)
  {
    hide RootOk, Export, Install, Distinct, Arrange, Consistent;
    forall id ensures (Stored(s.inner, id) <==> id in Ids(s.inner))
                      && (id in Ids(s.inner) <==> exists e :: e in s.inner && e.id == id) {
      StoredIsIn(s.inner, id);
    }
    EmptyExactly(UnknownIds(ids, s.inner));
    EmptyExactly(MissingIds(ids, s.inner));
    ConsistentIds(s, c);
    PermutationExactly(ids, Ids(s.inner));
    if AllIdsOk(ids) && multiset(ids) == multiset(Ids(s.inner)) {
      ReorderExactly(s, ids, c, saves);
    }
  }

  /** Which checks a reorder passes, in terms of the two lists of ids. */
  lemma ReorderReply(s: Store, ids: seq<string>, c: Codec, saves: bool)
    requires AllIdsOk(ids)
    ensures var (s', reply) := Reorder(s, ids, c, saves);
            var same := Distinct(ids) && (forall id :: id in ids <==> id in Ids(s.inner));
            && (!same ==> s' == s && reply != Done && reply != Refused(Persist))
            && (same && AllStored(ids, s.inner) && RootOk(Export(Arrange(ids, s.inner), c)) ==>
                 Reorder(s, ids, c, saves) == Install(s, Arrange(ids, s.inner), c, saves))
  {
    hide RootOk, Export, Install, AllIdsOk, Distinct;
    var unknown, missing := UnknownIds(ids, s.inner), MissingIds(ids, s.inner);
    forall id ensures (Stored(s.inner, id) <==> id in Ids(s.inner))
                      && (id in Ids(s.inner) <==> exists e :: e in s.inner && e.id == id) {
      StoredIsIn(s.inner, id);
    }
    EmptyExactly(unknown);
    EmptyExactly(missing);
  }

  lemma EmptyExactly(xs: seq<string>)
    ensures xs == [] <==> forall x :: x !in xs
  {
    if xs != [] { assert xs[0] in xs; }
  }

  lemma RootOkArranged(entries: seq<Entry>, next: seq<Entry>, c: Codec)
    requires RootOk(Export(entries, c)) && multiset(next) == multiset(entries) && Distinct(Ids(next))
    ensures RootOk(Export(next, c))
  {
    assert |next| == |multiset(next)| == |multiset(entries)| == |entries|;
    forall i | 0 <= i < |next| ensures SlotOk(Export(next, c)[i]) {
      assert next[i] in multiset(next);
      assert next[i] in multiset(entries);
      var k :| 0 <= k < |entries| && entries[k] == next[i];
      assert Export(entries, c)[k] == Export(next, c)[i];
    }
    forall i, j | 0 <= i < j < |next| ensures Export(next, c)[i].id != Export(next, c)[j].id {
      assert Ids(next)[i] != Ids(next)[j];
    }
  }

  // ---------------------------------------------------------------------
  // The store object.
  // ---------------------------------------------------------------------

  class AuthnChain {
    var inner: seq<Entry>
    var snapshot: seq<Entry>
    var registry: Option<Registry>

    ghost function State(): Store
      reads this
    {
      Store(inner, snapshot, registry)
    }

    constructor FromRegistry(r: Registry, c: Codec)
      ensures State() == Seed(r, c)
    {
      var entries := Reload(r.current, c);
      inner, snapshot, registry := entries, entries, Some(r);
    }

    method PersistConf(root: seq<ChainEntry>, saves: bool) returns (reply: Reply)
      modifies this
      ensures (State(), reply) == PersistRoot(old(State()), root, saves)
    {
      if registry.None? {
        return Done;
      }
      if !RootOk(root) {
        return Refused(Persist);
      }
      registry := Some(registry.value.(current := root));
      if !saves {
        return Refused(Persist);
      }
      registry := Some(Registry(root, root));
      return Done;
    }

    method InsertEntry(e: Entry, c: Codec, saves: bool) returns (reply: Reply)
      modifies this
      ensures (State(), reply) == Insert(old(State()), e, c, saves)
    {
      if !EntryOk(e, c) {
        return Refused(Invalid);
      }
      if Stored(inner, e.id) {
        return Refused(Duplicate);
      }
      if |inner| >= MAX_ENTRIES {
        return Refused(Full);
      }
      var root := Export(inner + [e], c);
      if !RootOk(root) {
        return Refused(Invalid);
      }
      inner := inner + [e];
      snapshot := inner;
      reply := PersistConf(root, saves);
    }

    method UpdateEntry(id: string, e: Entry, c: Codec, saves: bool) returns (reply: Reply)
      modifies this
      ensures (State(), reply) == Update(old(State()), id, e, c, saves)
    {
      if e.id != id || !EntryOk(e, c) {
        return Refused(Invalid);
      }
      var pos := Position(inner, id);
      if pos == |inner| {
        return Refused(NotFound);
      }
      var next := inner[pos := e];
      var root := Export(next, c);
      if !RootOk(root) {
        return Refused(Invalid);
      }
      inner := next;
      snapshot := next;
      reply := PersistConf(root, saves);
    }

    method RemoveEntry(id: string, c: Codec, saves: bool) returns (reply: Reply)
      modifies this
      ensures (State(), reply) == Remove(old(State()), id, c, saves)
    {
      var pos := Position(inner, id);
      if pos == |inner| {
        return Refused(NotFound);
      }
      if |inner| == 1 {
        return Refused(Last);
      }
      inner := Without(inner, pos);
      var root := Export(inner, c);
      if !RootOk(root) {
        return Refused(Persist);
      }
      snapshot := inner;
      reply := PersistConf(root, saves);
    }

    method ReorderEntries(ids: seq<string>, c: Codec, saves: bool) returns (reply: Reply)
      modifies this
      ensures (State(), reply) == Reorder(old(State()), ids, c, saves)
    {
      hide RootOk, IdOk, Stored;
      var malformed := CheckOrder(ids);
      if malformed.Some? {
        return Refused(malformed.value);
      }
      var unknown := UnknownIds(ids, inner);
      var missing := MissingIds(ids, inner);
      if unknown != [] && missing != [] {
        return Refused(Invalid);
      }
      if unknown != [] {
        return Refused(Unknown(unknown));
      }
      if missing != [] {
        return Refused(Incomplete(missing));
      }
      assert AllStored(ids, inner) by {
        assert forall i :: 0 <= i < |ids| ==> ids[i] in ids;
      }
      var next := InOrder(ids, inner);
      var root := Export(next, c);
      if !RootOk(root) {
        return Refused(Invalid);
      }
      inner := next;
      snapshot := next;
      reply := PersistConf(root, saves);
    }
  }

  /** The structural checks on a requested order, before the lock is taken. */
  method CheckOrder(ids: seq<string>) returns (problem: Option<Refusal>)
    ensures problem == if !AllIdsOk(ids) then Some(Invalid) else if !Distinct(ids) then Some(Duplicate) else None
  {
    hide IdOk;
    for i := 0 to |ids|
      invariant forall k :: 0 <= k < i ==> IdOk(ids[k])
    {
      if !IdOk(ids[i]) {
        return Some(Invalid);
      }
    }
    var seen: set<string> := {};
    for i := 0 to |ids|
      invariant forall id :: id in seen <==> id in ids[..i]
      invariant Distinct(ids[..i])
    {
      if ids[i] in seen {
        assert exists k :: 0 <= k < i && ids[..i][k] == ids[i];
        return Some(Duplicate);
      }
      seen := seen + {ids[i]};
      assert ids[..i + 1] == ids[..i] + [ids[i]];
    }
    assert ids[..|ids|] == ids;
    return None;
  }

  method InOrder(ids: seq<string>, entries: seq<Entry>) returns (next: seq<Entry>)
    requires AllStored(ids, entries)
    ensures next == Arrange(ids, entries)
  {
    next := [];
    for i := 0 to |ids|
      invariant |next| == i
      invariant forall k :: 0 <= k < i ==> next[k] == Find(entries, ids[k])
    {
      next := next + [Find(entries, ids[i])];
    }
  }
}
