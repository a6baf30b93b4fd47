/**
 * Which configuration version set a value: the diff rows recorded with each version, the search over
 * them, and what the history file does to that search after a restart.
 */
module Provenance {
  import opened Prelude
  import opened Text
  import opened Config

  const MAX_HISTORY: nat := 64

  // ---------------------------------------------------------------------
  // Settings and keys.
  // ---------------------------------------------------------------------

  datatype Root = MqttUsers | Rules | Connectors | AdminUsers

  function RootName(root: Root): string {
    match root
    case MqttUsers => "mqtt_users.users"
    case Rules => "rules.rules"
    case Connectors => "connectors.connectors"
    case AdminUsers => "admin_users.users"
  }

  datatype Setting =
    | MqttSetting(user: MqttUser)
    | RuleSetting(rule: RuleEntry)
    | ConnectorSetting(connector: ConnectorEntry)
    | AdminSetting(admin: AdminEntry)
    | AclSetting(acls: seq<Acl>)

  datatype Item = Item(name: string, setting: Setting)

  /** A root as named settings. */
  function Items(s: FullSnapshot, root: Root): seq<Item> {
    match root
    case MqttUsers =>
      seq(|s.mqttUsers|, i requires 0 <= i < |s.mqttUsers| =>
        Item(s.mqttUsers[i].username, MqttSetting(s.mqttUsers[i])))
    case Rules => seq(|s.rules|, i requires 0 <= i < |s.rules| => Item(s.rules[i].id, RuleSetting(s.rules[i])))
    case Connectors =>
      seq(|s.connectors|, i requires 0 <= i < |s.connectors| =>
        Item(s.connectors[i].id, ConnectorSetting(s.connectors[i])))
    case AdminUsers =>
      seq(|s.adminUsers|, i requires 0 <= i < |s.adminUsers| =>
        Item(s.adminUsers[i].username, AdminSetting(s.adminUsers[i])))
  }

  /** `iter().find(..)`. */
  function First(items: seq<Item>, name: string): Option<Setting> {
    if items == [] then None
    else if items[0].name == name then Some(items[0].setting)
    else First(items[1..], name)
  }

  /** A hash map collected from the list: the last entry with a name wins. */
  function Last(items: seq<Item>, name: string): Option<Setting> {
    if items == [] then None
    else if items[|items| - 1].name == name then Some(items[|items| - 1].setting)
    else Last(items[..|items| - 1], name)
  }

  ghost predicate UniqueNames(items: seq<Item>) {
    forall i, j :: 0 <= i < j < |items| ==> items[i].name != items[j].name
  }

  /** What whole validation promises of a snapshot: names are unique in each root. */
  ghost predicate Validated(s: FullSnapshot) {
    forall root :: UniqueNames(Items(s, root))
  }

  lemma {:induction false} LastAbsent(items: seq<Item>, name: string)
    ensures Last(items, name).None? <==> forall i :: 0 <= i < |items| ==> items[i].name != name
  {
    if items != [] {
      LastAbsent(items[..|items| - 1], name);
    }
  }

  lemma {:induction false} FirstIsLast(items: seq<Item>, name: string)
    requires UniqueNames(items)
    ensures First(items, name) == Last(items, name)
  {
    if items != [] {
      FirstIsLast(items[1..], name);
      LastTail(items, name);
      if items[0].name == name {
        LastAbsent(items[1..], name);
      }
    }
  }

  lemma {:induction false} LastTail(items: seq<Item>, name: string)
    requires items != []
    ensures Last(items, name) ==
            if Last(items[1..], name).Some? then Last(items[1..], name)
            else if items[0].name == name then Some(items[0].setting) else None
  {
    if |items| > 1 {
      var init := items[..|items| - 1];
      LastTail(init, name);
      assert init[1..] == items[1..][..|items| - 2];
    }
  }

  const ACLS: string := "mqtt_users.acls"

  /** `key.strip_prefix(..)` over the four roots. */
  function Named(key: string): Option<(Root, string)> {
    if "mqtt_users.users." <= key then Some((MqttUsers, key[|"mqtt_users.users."|..]))
    else if "rules.rules." <= key then Some((Rules, key[|"rules.rules."|..]))
    else if "connectors.connectors." <= key then Some((Connectors, key[|"connectors.connectors."|..]))
    else if "admin_users.users." <= key then Some((AdminUsers, key[|"admin_users.users."|..]))
    else None
  }

  /** A key names a setting exactly when it is the root's name, a dot and the setting's. */
  lemma NamedExactly(key: string, root: Root, name: string)
    ensures Named(key) == Some((root, name)) <==> key == RootName(root) + "." + name
  {
    if Named(key) == Some((root, name)) { KeyOf(key, root, name); }
    if key == RootName(root) + "." + name { NameOf(root, name); }
  }

  lemma KeyOf(key: string, root: Root, name: string)
    requires Named(key) == Some((root, name))
    ensures key == RootName(root) + "." + name
  {
    match root
    case MqttUsers => assert key == "mqtt_users.users." + name;
    case Rules => assert key == "rules.rules." + name;
    case Connectors => assert key == "connectors.connectors." + name;
    case AdminUsers => assert key == "admin_users.users." + name;
  }

  lemma NameOf(root: Root, name: string)
    ensures Named(RootName(root) + "." + name) == Some((root, name))
  {
    var key, n := RootName(root) + "." + name, |RootName(root)| + 1;
    assert RootName(root) + "." <= key && key[n..] == name;
    assert key[0] == RootName(root)[0];
  }

  function RowName(root: Root, name: string): string {
    RootName(root) + "[" + name + "]"
  }

  /** The diff setting an explain key corresponds to. */
  function DiffSetting(key: string): string {
    match Named(key)
    case Some((root, name)) => RowName(root, name)
    case None => key
  }

  /** The effective value of a key in a snapshot. */
  function ValueOf(s: FullSnapshot, key: string): Option<Setting> {
    match Named(key)
    case Some((root, name)) => First(Items(s, root), name)
    case None => if key == ACLS then Some(AclSetting(s.acls)) else None
  }

  /** The value of a named setting is that of its entry, and of the access rules all of them. */
  lemma ValueExactly(s: FullSnapshot, root: Root, i: nat)
    requires Validated(s) && i < |Items(s, root)|
    ensures ValueOf(s, RootName(root) + "." + Items(s, root)[i].name) == Some(Items(s, root)[i].setting)
    ensures ValueOf(s, ACLS) == Some(AclSetting(s.acls))
  {
    NamedExactly(RootName(root) + "." + Items(s, root)[i].name, root, Items(s, root)[i].name);
    FirstAt(Items(s, root), i);
    AclsNotNamed();
  }

  lemma {:induction false} FirstAt(items: seq<Item>, i: nat)
    requires UniqueNames(items) && i < |items|
    ensures First(items, items[i].name) == Some(items[i].setting)
  {
    if i > 0 {
      assert items[0].name != items[i].name;
      FirstAt(items[1..], i - 1);
    }
  }

  lemma AclsNotNamed()
    ensures Named(ACLS) == None
  {
    assert ACLS[11] == 'a' && "mqtt_users.users."[11] == 'u' && ACLS[0] == 'm';
  }

  // ---------------------------------------------------------------------
  // Diffs.
  // ---------------------------------------------------------------------

  function Names(items: seq<Item>): set<string> {
    set i | 0 <= i < |items| :: items[i].name
  }

  function ChangedNames(before: seq<Item>, after: seq<Item>): set<string> {
    set name | name in Names(before) + Names(after) && Last(before, name) != Last(after, name)
  }

  function RootRows(before: FullSnapshot, after: FullSnapshot, root: Root): set<string> {
    set name | name in ChangedNames(Items(before, root), Items(after, root)) :: RowName(root, name)
  }

  /** The settings that have a row in the diff of two snapshots. */
  function DiffRows(before: FullSnapshot, after: FullSnapshot): set<string> {
    RootRows(before, after, AdminUsers) + RootRows(before, after, MqttUsers)
    + (if before.acls != after.acls then {ACLS} else {})
    + RootRows(before, after, Rules) + RootRows(before, after, Connectors)
  }

  lemma NamesExactly(items: seq<Item>, name: string)
    ensures name in Names(items) <==> Last(items, name).Some?
  {
    LastAbsent(items, name);
  }

  /** A key without a row has the same value on both sides. */
  lemma NoRowSameValue(before: FullSnapshot, after: FullSnapshot, key: string)
    requires Validated(before) && Validated(after) && DiffSetting(key) !in DiffRows(before, after)
    ensures ValueOf(before, key) == ValueOf(after, key)
  {
    hide Items, Last, First, Names;
    if Named(key).Some? {
      var (root, name) := Named(key).value;
      var a, b := Items(before, root), Items(after, root);
      FirstIsLast(a, name);
      FirstIsLast(b, name);
      NamesExactly(a, name);
      NamesExactly(b, name);
      assert Last(a, name) != Last(b, name) ==> name in ChangedNames(a, b);
    }
  }

  /** The roots that have rows and keys are the same; the other three may differ. */
  predicate SameListed(a: FullSnapshot, b: FullSnapshot) {
    && a.adminUsers == b.adminUsers && a.mqttUsers == b.mqttUsers && a.acls == b.acls
    && a.rules == b.rules && a.connectors == b.connectors
  }

  /** Rows, values and uniqueness depend on the listed roots only. */
  lemma ListedDecides(a: FullSnapshot, b: FullSnapshot)
    requires SameListed(a, b)
    ensures forall next :: DiffRows(a, next) == DiffRows(b, next)
    ensures forall key :: ValueOf(a, key) == ValueOf(b, key)
    ensures Validated(a) <==> Validated(b)
  {
    assert forall root :: Items(a, root) == Items(b, root);
    hide Items;
  }

  lemma NoChangeNoRows(s: FullSnapshot)
    ensures DiffRows(s, s) == {}
  {
    hide Items, Names, Last;
  }

  // ---------------------------------------------------------------------
  // The search.
  // ---------------------------------------------------------------------

  datatype Version = Version(id: nat, changes: set<string>, snapshot: FullSnapshot)

  /** Some row of the version is the key's setting or lies below it. */
  predicate Touches(v: Version, key: string) {
    exists row :: row in v.changes && (row == DiffSetting(key) || DiffSetting(key) + "." <= row)
  }

  /** The position of the version the search stops at, from the newest: one that touches the key, or version 0. */
  function StopsAt(versions: seq<Version>, key: string): Option<nat> {
    if versions == [] then None
    else if Touches(versions[|versions| - 1], key) || versions[|versions| - 1].id == 0 then Some(|versions| - 1)
    else StopsAt(versions[..|versions| - 1], key)
  }

  /** The reported version; with nothing found, the newest one. */
  function Reported(versions: seq<Version>, key: string): nat {
    match StopsAt(versions, key)
    case Some(i) => if i < |versions| then versions[i].id else 0
    case None => if versions == [] then 0 else versions[|versions| - 1].id
  }

  /** The loop of the source, over the list newest first. */
  method VersionForKey(versions: seq<Version>, key: string) returns (id: nat)
    ensures id == Reported(versions, key)
  {
    var i := |versions|;
    assert versions[..i] == versions;
    while i > 0
      invariant 0 <= i <= |versions|
      invariant StopsAt(versions, key) == StopsAt(versions[..i], key)
    {
      var v := versions[i - 1];
      assert versions[..i][..i - 1] == versions[..i - 1];
      if Touches(v, key) {
        return v.id;
      }
      if v.id == 0 {
        return 0;
      }
      i := i - 1;
    }
    assert versions[..0] == [];
    id := if versions == [] then 0 else versions[|versions| - 1].id;
  }

  /** Ids ascend and each version's rows are the diff from the one before it. */
  ghost predicate Linked(versions: seq<Version>) {
    && (forall i :: 0 <= i < |versions| ==> Validated(versions[i].snapshot))
    && (forall i :: 0 < i < |versions| ==>
         versions[i - 1].id < versions[i].id
         && versions[i].changes == DiffRows(versions[i - 1].snapshot, versions[i].snapshot))
  }

  /** The value of the key is the same in versions `i` and later as in the running snapshot. */
  ghost predicate HeldSince(versions: seq<Version>, i: nat, current: FullSnapshot, key: string) {
    i < |versions| && forall j :: i <= j < |versions| ==> ValueOf(versions[j].snapshot, key) == ValueOf(current, key)
  }

  /** The reported version is retained and has set the value for good. */
  ghost predicate Sound(versions: seq<Version>, current: FullSnapshot, key: string) {
    exists i :: 0 <= i < |versions| && versions[i].id == Reported(versions, key) && HeldSince(versions, i, current, key)
  }

  lemma {:induction false} StopFacts(versions: seq<Version>, key: string)
    ensures match StopsAt(versions, key) {
              case Some(i) =>
                && i < |versions|
                && (Touches(versions[i], key) || versions[i].id == 0)
                && forall j :: i < j < |versions| ==> !Touches(versions[j], key)
              case None => forall j :: 0 <= j < |versions| ==> !Touches(versions[j], key)
            }
  {
    hide Touches;
    if versions != [] {
      StopFacts(versions[..|versions| - 1], key);
    }
  }

  /** Versions that do not touch a key have its value in common. */
  lemma {:induction false} UntouchedHolds(versions: seq<Version>, i: nat, j: nat, key: string)
    requires Linked(versions) && i <= j < |versions|
    requires forall k :: i < k <= j ==> !Touches(versions[k], key)
    ensures ValueOf(versions[i].snapshot, key) == ValueOf(versions[j].snapshot, key)
    decreases j - i
  {
    hide ValueOf, DiffRows;
    if i < j {
      UntouchedHolds(versions, i, j - 1, key);
      assert DiffSetting(key) !in versions[j].changes;
      NoRowSameValue(versions[j - 1].snapshot, versions[j].snapshot, key);
    }
  }

  lemma IdsAscend(versions: seq<Version>, i: nat, j: nat)
    requires Linked(versions) && i < j < |versions|
    ensures versions[i].id < versions[j].id
    decreases j - i
  {
    if i + 1 < j { IdsAscend(versions, i, j - 1); }
  }

  /**
   * On a linked history whose newest version is the running snapshot, the reported version is sound, and
   * one found by a row is the newest that touched the key.
   */
  lemma ReportedIsSound(versions: seq<Version>, current: FullSnapshot, key: string)
    requires Linked(versions) && versions != []
    requires ValueOf(versions[|versions| - 1].snapshot, key) == ValueOf(current, key)
    ensures Sound(versions, current, key)
    ensures forall i :: 0 <= i < |versions| && Touches(versions[i], key) ==> versions[i].id <= Reported(versions, key)
  {
    hide ValueOf, Touches, Linked;
    var last := |versions| - 1;
    StopFacts(versions, key);
    var at := if StopsAt(versions, key).Some? then StopsAt(versions, key).value else last;
    forall j | at <= j < |versions| ensures ValueOf(versions[j].snapshot, key) == ValueOf(current, key) {
      UntouchedHolds(versions, j, last, key);
    }
    assert HeldSince(versions, at, current, key);
    forall i | 0 <= i < |versions| && Touches(versions[i], key) ensures versions[i].id <= Reported(versions, key) {
      if i < at { IdsAscend(versions, i, at); }
    }
  }

  // ---------------------------------------------------------------------
  // When the reported version is the one that set the value.
  // ---------------------------------------------------------------------

  /** Another setting of the root changes whose name continues this one with a bracket and a dot. */
  ghost predicate LookalikeChanges(before: FullSnapshot, after: FullSnapshot, root: Root, name: string) {
    exists other: string ::
      name + "]." <= other && First(Items(before, root), other) != First(Items(after, root), other)
  }

  /** A named setting: the key and where it stands. */
  ghost predicate KeyFor(key: string, root: Root, name: string) {
    Named(key) == Some((root, name))
  }

  lemma ChangedExactly(before: FullSnapshot, after: FullSnapshot, root: Root, name: string)
    requires Validated(before) && Validated(after)
    ensures name in ChangedNames(Items(before, root), Items(after, root)) <==>
            First(Items(before, root), name) != First(Items(after, root), name)
  {
    hide Items, Last, First, Names;
    FirstIsLast(Items(before, root), name);
    FirstIsLast(Items(after, root), name);
    NamesExactly(Items(before, root), name);
    NamesExactly(Items(after, root), name);
  }

  /** Rows of one root do not begin like rows of another, and within a root only the name decides. */
  lemma RowBegins(root: Root, name: string, other: Root, longer: string)
    ensures RowName(root, name) == RowName(other, longer) <==> root == other && name == longer
    ensures RowName(root, name) + "." <= RowName(other, longer) <==> root == other && name + "]." <= longer + "]"
  {
    RootBegins(root, name, other, longer);
    if root == other {
      NameInRow(root, name, longer);
    } else {
      assert RowName(root, name) <= RowName(root, name) + ".";
    }
  }

  lemma NameInRow(root: Root, name: string, longer: string)
    ensures RowName(root, name) == RowName(root, longer) <==> name == longer
    ensures RowName(root, name) + "." <= RowName(root, longer) <==> name + "]." <= longer + "]"
  {
    hide RootName;
    var head := RootName(root) + "[";
    assert RowName(root, name)[|head|..] == name + "]" && RowName(root, longer)[|head|..] == longer + "]";
    assert (name + "]")[..|name|] == name && (longer + "]")[..|longer|] == longer;
    assert RowName(root, name) + "." == head + (name + "].");
    assert RowName(root, longer) == head + (longer + "]");
    SameHead(head, name + "].", longer + "]");
  }

  lemma SameHead(head: string, a: string, b: string)
    ensures head + a <= head + b <==> a <= b
  {
    assert (head + a)[|head|..] == a && (head + b)[|head|..] == b;
    if head + a <= head + b { assert b[..|a|] == (head + b)[|head|..|head| + |a|]; }
  }

  lemma RootBegins(root: Root, name: string, other: Root, longer: string)
    ensures RowName(root, name) <= RowName(other, longer) ==> root == other
  {
    var a, b := RowName(root, name), RowName(other, longer);
    assert a[0] == RootName(root)[0] && b[0] == RootName(other)[0];
  }

  /** `longer]` begins with `name].` exactly when `longer` does. */
  lemma BracketLast(name: string, longer: string)
    ensures name + "]." <= longer + "]" <==> name + "]." <= longer
  {
    if name + "]." <= longer + "]" {
      assert (longer + "]")[|name| + 1] == '.';
    }
  }

  lemma RowsExactly(before: FullSnapshot, after: FullSnapshot, row: string)
    ensures row in DiffRows(before, after) <==>
            || (row == ACLS && before.acls != after.acls)
            || exists root, name: string :: row == RowName(root, name)
                 && name in ChangedNames(Items(before, root), Items(after, root))
  {
    hide Items, ChangedNames, RowName;
    forall root: Root ensures row in RootRows(before, after, root) ==> row in DiffRows(before, after) {
      match root
      case MqttUsers =>
      case Rules =>
      case Connectors =>
      case AdminUsers =>
    }
    if root: Root, name: string :|
      row == RowName(root, name) && name in ChangedNames(Items(before, root), Items(after, root))
    {
      assert row in RootRows(before, after, root);
    }
  }

  /** A version touches a named setting exactly when it changes its value or that of a lookalike. */
  lemma TouchesExactly(before: FullSnapshot, v: Version, key: string, root: Root, name: string)
    requires Validated(before) && Validated(v.snapshot) && v.changes == DiffRows(before, v.snapshot)
    requires KeyFor(key, root, name)
    ensures Touches(v, key) <==>
            ValueOf(before, key) != ValueOf(v.snapshot, key) || LookalikeChanges(before, v.snapshot, root, name)
  {
    hide Items, First, Last, Names, Validated, DiffRows, RowName, RootName, ChangedNames;
    var after := v.snapshot;
    var mine := RowName(root, name);
    ChangedExactly(before, after, root, name);
    forall r: Root, other: string
      ensures RowName(r, other) == mine <==> r == root && other == name
      ensures mine + "." <= RowName(r, other) <==> r == root && name + "]." <= other
      ensures other in ChangedNames(Items(before, r), Items(after, r)) <==>
              First(Items(before, r), other) != First(Items(after, r), other)
    {
      RowBegins(root, name, r, other);
      BracketLast(name, other);
      ChangedExactly(before, after, r, other);
    }
    AclsApart(root, name);
    if Touches(v, key) {
      var row :| row in v.changes && (row == mine || mine + "." <= row);
      RowsExactly(before, after, row);
    }
    if ValueOf(before, key) != ValueOf(after, key) {
      RowsExactly(before, after, mine);
      assert mine in v.changes;
    }
    if LookalikeChanges(before, after, root, name) {
      var other :| name + "]." <= other && First(Items(before, root), other) != First(Items(after, root), other);
      RowsExactly(before, after, RowName(root, other));
      assert RowName(root, other) in v.changes && mine + "." <= RowName(root, other);
    }
  }

  lemma AclsApart(root: Root, name: string)
    ensures ACLS != RowName(root, name) && !(RowName(root, name) + "." <= ACLS)
  {
    var row := RowName(root, name);
    assert row[|RootName(root)|] == '[' && (row + ".")[|RootName(root)|] == '[';
    assert '[' !in ACLS;
    InPrefix(row + ".", ACLS, '[');
  }

  lemma AclsRowApart(root: Root, name: string)
    ensures !(ACLS <= RowName(root, name))
  {
    var row := RowName(root, name);
    assert row[0] == RootName(root)[0] && ACLS[0] == 'm' && ACLS[11] == 'a';
    if root == MqttUsers { assert row[11] == RootName(root)[11] == 'u'; }
  }

  /** A version touches the access rules exactly when it changes them. */
  lemma AclsTouchedExactly(before: FullSnapshot, v: Version)
    requires v.changes == DiffRows(before, v.snapshot)
    ensures Touches(v, ACLS) <==> before.acls != v.snapshot.acls
  {
    hide RowName, DiffRows, ChangedNames, Items;
    AclsNotNamed();
    forall root: Root, name: string ensures !(ACLS <= RowName(root, name)) { AclsRowApart(root, name); }
    RowsExactly(before, v.snapshot, ACLS);
    if Touches(v, ACLS) {
      var row :| row in v.changes && (row == ACLS || ACLS + "." <= row);
      RowsExactly(before, v.snapshot, row);
      assert ACLS + "." <= row ==> ACLS <= row;
    }
  }

  lemma InPrefix(a: string, b: string, c: char)
    requires c in a
    ensures a <= b ==> c in b
  {
    var i :| 0 <= i < |a| && a[i] == c;
    assert a <= b ==> b[i] == c;
  }

  /** Version `i` is the newest that changed the value of the key. */
  ghost predicate SetLast(versions: seq<Version>, i: nat, key: string) {
    && 0 < i < |versions| && ValueOf(versions[i - 1].snapshot, key) != ValueOf(versions[i].snapshot, key)
    && forall j :: i < j < |versions| ==> ValueOf(versions[j - 1].snapshot, key) == ValueOf(versions[j].snapshot, key)
  }

  ghost predicate LookalikeAt(versions: seq<Version>, j: nat, root: Root, name: string) {
    0 < j < |versions| && LookalikeChanges(versions[j - 1].snapshot, versions[j].snapshot, root, name)
  }

  lemma TouchesLater(versions: seq<Version>, j: nat, key: string, root: Root, name: string)
    requires Linked(versions) && KeyFor(key, root, name) && 0 < j < |versions|
    ensures Touches(versions[j], key) <==>
            || ValueOf(versions[j - 1].snapshot, key) != ValueOf(versions[j].snapshot, key)
            || LookalikeAt(versions, j, root, name)
  {
    hide Touches, Linked, ValueOf, LookalikeChanges;
    LinkedParts(versions);
    TouchesExactly(versions[j - 1].snapshot, versions[j], key, root, name);
  }

  lemma ReportedAt(versions: seq<Version>, i: nat, key: string)
    requires Linked(versions) && i < |versions| && Touches(versions[i], key)
    ensures Reported(versions, key) == versions[i].id <==> forall j :: i < j < |versions| ==> !Touches(versions[j], key)
  {
    hide Touches, Linked;
    StopFacts(versions, key);
    var at := StopsAt(versions, key).value;
    assert i <= at;
    if i < at { IdsAscend(versions, i, at); }
  }

  /**
   * The version that set the value of a named setting is the one reported, if and only if no later version
   * changed a lookalike.
   */
  lemma ReportedExactly(versions: seq<Version>, i: nat, key: string, root: Root, name: string)
    requires Linked(versions) && KeyFor(key, root, name) && SetLast(versions, i, key)
    ensures Reported(versions, key) == versions[i].id <==>
            forall j :: i < j < |versions| ==> !LookalikeAt(versions, j, root, name)
  {
    hide Touches, Linked, ValueOf, LookalikeAt, Reported;
    TouchesLater(versions, i, key, root, name);
    ReportedAt(versions, i, key);
    forall j | i < j < |versions|
      ensures Touches(versions[j], key) <==> LookalikeAt(versions, j, root, name)
    {
      TouchesLater(versions, j, key, root, name);
    }
  }

  lemma LinkedParts(versions: seq<Version>)
    requires Linked(versions)
    ensures forall i :: 0 <= i < |versions| ==> Validated(versions[i].snapshot)
    ensures forall i :: 0 < i < |versions| ==>
              versions[i].changes == DiffRows(versions[i - 1].snapshot, versions[i].snapshot)
  {
    hide Validated, DiffRows;
  }

  // ---------------------------------------------------------------------
  // Histories as they are built.
  // ---------------------------------------------------------------------

  /** The registry: running snapshot, versions oldest first, the next id, and the history file as a list. */
  datatype Registry = Registry(current: FullSnapshot, versions: seq<Version>, nextId: nat, file: seq<Version>)

  function Newest<T>(xs: seq<T>, n: nat): seq<T> {
    if |xs| <= n then xs else xs[|xs| - n..]
  }

  function Reverse<T>(xs: seq<T>): seq<T> {
    if xs == [] then [] else Reverse(xs[1..]) + [xs[0]]
  }

  function NextVersion(r: Registry, next: FullSnapshot): Version {
    Version(r.nextId, DiffRows(r.current, next), next)
  }

  /** A commit of one recorded root: the version is appended, the oldest dropped past the cap, the file rewritten. */
  function CommitRoot(r: Registry, next: FullSnapshot): Registry {
    var versions := Newest(r.versions + [NextVersion(r, next)], MAX_HISTORY);
    Registry(next, versions, r.nextId + 1, Reverse(versions))
  }

  /** A whole commit: the file is the newest-first list with the new version at its end, cut at the front. */
  function CommitWhole(r: Registry, next: FullSnapshot): Registry {
    var file := Newest(Reverse(r.versions) + [NextVersion(r, next)], MAX_HISTORY);
    Registry(next, Newest(r.versions + [NextVersion(r, next)], MAX_HISTORY), r.nextId + 1, file)
  }

  function InsertById(v: Version, versions: seq<Version>): seq<Version> {
    if versions == [] || v.id <= versions[0].id then [v] + versions else [versions[0]] + InsertById(v, versions[1..])
  }

  function SortById(versions: seq<Version>): seq<Version> {
    if versions == [] then [] else InsertById(versions[0], SortById(versions[1..]))
  }

  /** Loading the file: sorted by id and cut to the cap, keeping the oldest. */
  function Load(file: seq<Version>): seq<Version> {
    var sorted := SortById(file);
    sorted[..Min(|sorted|, MAX_HISTORY)]
  }

  /** A start from the files: the loaded history, or the running snapshot as version 0 when there is none. */
  function Restart(r: Registry): Registry {
    var versions := Load(r.file);
    if versions == [] then Registry(r.current, [Version(0, {}, r.current)], 1, r.file)
    else Registry(r.current, versions, versions[|versions| - 1].id + 1, r.file)
  }

  /**
   * Commits that record a version; commits of the chain, node-cache and settings roots, which record none;
   * whole commits that fail after they have reserved an id; and restarts.
   */
  datatype Commit =
    | ByRoot(next: FullSnapshot)
    | Whole(next: FullSnapshot)
    | Unlisted(chain: seq<ChainEntry>, nodeCache: NodeCache, settings: Settings)
    | Reserved
    | Reopened

  function Step(r: Registry, c: Commit): Registry {
    match c
    case ByRoot(next) => CommitRoot(r, next)
    case Whole(next) => CommitWhole(r, next)
    case Unlisted(chain, nodeCache, settings) =>
      r.(current := r.current.(authnChain := chain, nodeCache := nodeCache, settings := settings))
    case Reserved => r.(nextId := r.nextId + 1)
    case Reopened => Restart(r)
  }

  /** The history file holds the recorded versions, or nothing. */
  predicate Lossless(r: Registry) {
    Load(r.file) == r.versions || Load(r.file) == []
  }

  ghost predicate ValidStep(r: Registry, c: Commit) {
    (c.ByRoot? || c.Whole? ==> Validated(c.next)) && (c.Reopened? ==> Lossless(r))
  }

  /** Every commit of the run is valid, and every restart finds the recorded versions or none. */
  ghost predicate ValidRun(r: Registry, commits: seq<Commit>) {
    commits != [] ==>
      && ValidRun(r, commits[..|commits| - 1])
      && ValidStep(Run(r, commits[..|commits| - 1]), commits[|commits| - 1])
  }

  function Run(r: Registry, commits: seq<Commit>): Registry {
    if commits == [] then r else Step(Run(r, commits[..|commits| - 1]), commits[|commits| - 1])
  }

  /** A run is its commits one after the other. */
  lemma RunExactly(r: Registry, commits: seq<Commit>, c: Commit)
    ensures Run(r, []) == r && Run(r, commits + [c]) == Step(Run(r, commits), c)
  {
    hide Step;
    assert (commits + [c])[..|commits|] == commits;
  }

  /**
   * A commit that records gives the next id to a version of the new snapshot, the newest then; the others change
   * the running snapshot or the next id only; a restart goes on after the newest version it finds.
   */
  lemma StepExactly(r: Registry, c: Commit)
    requires |r.versions| <= MAX_HISTORY
    ensures var m := Step(r, c);
            && (c.ByRoot? || c.Whole? ==>
                 && m.current == c.next && m.nextId == r.nextId + 1 && m.versions != []
                 && m.versions[|m.versions| - 1] == Version(r.nextId, DiffRows(r.current, c.next), c.next)
                 && m.versions[..|m.versions| - 1] ==
                    if |r.versions| < MAX_HISTORY then r.versions else r.versions[1..])
            && (c.Unlisted? ==>
                 && m == r.(current := m.current) && SameListed(m.current, r.current)
                 && m.current.authnChain == c.chain && m.current.nodeCache == c.nodeCache
                 && m.current.settings == c.settings)
            && (c.Reserved? ==> m == r.(nextId := r.nextId + 1))
            && (c.Reopened? ==>
                 && m.current == r.current && m.file == r.file && m.versions != []
                 && m.nextId == m.versions[|m.versions| - 1].id + 1
                 && m.versions == if Load(r.file) == [] then [Version(0, {}, r.current)] else Load(r.file))
  {
    hide DiffRows, Load, Reverse;
  }

  /** A first start: the boot snapshot is version 0. */
  function Boot(snapshot: FullSnapshot): Registry {
    Registry(snapshot, [Version(0, {}, snapshot)], 1, [])
  }

  ghost predicate Recorded(r: Registry) {
    && Linked(r.versions) && r.versions != [] && |r.versions| <= MAX_HISTORY
    && SameListed(r.versions[|r.versions| - 1].snapshot, r.current)
    && r.versions[|r.versions| - 1].id < r.nextId
  }

  lemma LinkedExtends(versions: seq<Version>, v: Version)
    requires Linked(versions) && versions != [] && Validated(v.snapshot)
    requires versions[|versions| - 1].id < v.id
    requires v.changes == DiffRows(versions[|versions| - 1].snapshot, v.snapshot)
    ensures Linked(versions + [v])
  {
    hide DiffRows, Validated;
  }

  lemma LinkedNewest(versions: seq<Version>, n: nat)
    requires Linked(versions)
    ensures Linked(Newest(versions, n))
  {
    hide DiffRows, Validated;
    if |versions| > n {
      var drop := |versions| - n;
      var kept := versions[drop..];
      assert forall i :: 0 <= i < |kept| ==> kept[i] == versions[drop + i];
      forall i | 0 < i < |kept|
        ensures kept[i - 1].id < kept[i].id && kept[i].changes == DiffRows(kept[i - 1].snapshot, kept[i].snapshot)
      {
        assert kept[i] == versions[drop + i] && kept[i - 1] == versions[drop + i - 1];
      }
    }
  }

  /** The next version links up with a recorded history. */
  lemma NextLinks(r: Registry, next: FullSnapshot)
    requires Recorded(r) && Validated(next)
    ensures Linked(r.versions + [NextVersion(r, next)])
  {
    hide DiffRows, Validated, Linked, ValueOf;
    ListedDecides(r.versions[|r.versions| - 1].snapshot, r.current);
    LinkedExtends(r.versions, NextVersion(r, next));
  }

  lemma StepRecorded(r: Registry, c: Commit)
    requires Recorded(r) && ValidStep(r, c)
    ensures Recorded(Step(r, c))
  {
    hide DiffRows, Validated, Linked, Load;
    if c.ByRoot? || c.Whole? {
      NextLinks(r, c.next);
      LinkedNewest(r.versions + [NextVersion(r, c.next)], MAX_HISTORY);
    } else if c.Reopened? && Load(r.file) == [] {
      ListedDecides(r.versions[|r.versions| - 1].snapshot, r.current);
      SeededLinks(r);
    }
  }

  lemma SeededLinks(r: Registry)
    requires Recorded(r)
    ensures Linked([Version(0, {}, r.current)])
  {
    hide DiffRows, ValueOf;
    ListedDecides(r.versions[|r.versions| - 1].snapshot, r.current);
  }

  /**
   * After every run of commits and restarts since a first start, recorded, unrecorded or failed, the answer for
   * every key is sound.
   */
  lemma {:induction false} EveryRunSound(boot: FullSnapshot, commits: seq<Commit>, key: string)
    requires Validated(boot) && ValidRun(Boot(boot), commits)
    ensures var r := Run(Boot(boot), commits);
            && Recorded(r)
            && Sound(r.versions, r.current, key)
            && forall i :: 0 <= i < |r.versions| && Touches(r.versions[i], key) ==>
                 r.versions[i].id <= Reported(r.versions, key)
  {
    hide Validated, ValidStep, Sound, Touches, Step, ValueOf, DiffRows;
    if commits != [] {
      EveryRunSound(boot, commits[..|commits| - 1], key);
      StepRecorded(Run(Boot(boot), commits[..|commits| - 1]), commits[|commits| - 1]);
    }
    var r := Run(Boot(boot), commits);
    ListedDecides(r.versions[|r.versions| - 1].snapshot, r.current);
    ReportedIsSound(r.versions, r.current, key);
  }

  // ---------------------------------------------------------------------
  // A restart after a whole commit.
  // ---------------------------------------------------------------------

  ghost predicate Ascending(versions: seq<Version>) {
    forall i, j :: 0 <= i < j < |versions| ==> versions[i].id < versions[j].id
  }

  /** Inserting the smallest id puts it first. */
  lemma SortAscending(versions: seq<Version>)
    requires Ascending(versions)
    ensures SortById(versions) == versions
  {
    if versions != [] {
      SortAscending(versions[1..]);
      assert versions == [versions[0]] + versions[1..];
      assert |versions| > 1 ==> versions[1..][0] == versions[1];
    }
  }

  lemma {:induction false} InsertInto(v: Version, versions: seq<Version>)
    requires Ascending(versions) && forall i :: 0 <= i < |versions| ==> versions[i].id < v.id
    ensures InsertById(v, versions) == versions + [v]
  {
    if versions != [] {
      InsertInto(v, versions[1..]);
      assert versions == [versions[0]] + versions[1..];
    }
  }

  /** A newest-first list with the newest of all at its end sorts to the ascending list. */
  lemma {:induction false} SortReversed(versions: seq<Version>, last: seq<Version>)
    requires |last| <= 1 && Ascending(versions + last)
    ensures SortById(Reverse(versions) + last) == versions + last
    decreases |versions|
  {
    if versions == [] {
      assert Reverse(versions) + last == last;
      assert versions + last == last;
      SortAscending(last);
    } else {
      ReverseSnoc(versions);
      var init, top := versions[..|versions| - 1], versions[|versions| - 1];
      var rest := Reverse(init) + last;
      assert versions == init + [top];
      assert Ascending(init + last) by { AscendingWithout(init, top, last); }
      SortReversed(init, last);
      assert Reverse(versions) + last == [top] + rest;
      assert ([top] + rest)[1..] == rest;
      InsertBeforeLast(top, init, last);
    }
  }

  lemma AscendingWithout(init: seq<Version>, top: Version, last: seq<Version>)
    requires |last| <= 1 && Ascending(init + [top] + last)
    ensures Ascending(init + last)
    ensures Ascending(init) && (forall i :: 0 <= i < |init| ==> init[i].id < top.id)
    ensures last != [] ==> top.id < last[0].id
  {
    var all := init + [top] + last;
    assert forall i :: 0 <= i < |init| ==> all[i] == init[i];
    assert all[|init|] == top;
    assert last != [] ==> all[|init| + 1] == last[0];
  }

  lemma {:induction false} InsertBeforeLast(top: Version, init: seq<Version>, last: seq<Version>)
    requires |last| <= 1 && Ascending(init + [top] + last)
    ensures InsertById(top, init + last) == init + [top] + last
  {
    AscendingWithout(init, top, last);
    if init == [] {
      assert init + last == last;
    } else {
      assert (init + last)[1..] == init[1..] + last;
      assert Ascending(init[1..] + [top] + last) by {
        assert init[1..] + [top] + last == (init + [top] + last)[1..];
      }
      InsertBeforeLast(top, init[1..], last);
      assert init[0].id < top.id;
    }
  }

  lemma {:induction false} ReverseSnoc(versions: seq<Version>)
    requires versions != []
    ensures Reverse(versions) == [versions[|versions| - 1]] + Reverse(versions[..|versions| - 1])
    ensures |Reverse(versions)| == |versions|
  {
    var init := versions[..|versions| - 1];
    if |versions| > 1 {
      ReverseSnoc(versions[1..]);
      assert versions[1..][..|versions| - 2] == init[1..];
    } else {
      assert versions[1..] == [] && init == [];
    }
  }

  lemma LinkedAscending(versions: seq<Version>)
    requires Linked(versions)
    ensures Ascending(versions)
  {
    hide Linked;
    forall i, j | 0 <= i < j < |versions| ensures versions[i].id < versions[j].id { IdsAscend(versions, i, j); }
  }

  /** What a restart after a whole commit finds: below the cap every version, at the cap all but the newest old one. */
  lemma RestartVersions(r: Registry, next: FullSnapshot)
    requires Recorded(r) && Validated(next)
    ensures var v := NextVersion(r, next);
            Restart(CommitWhole(r, next)).versions ==
            if |r.versions| < MAX_HISTORY then r.versions + [v] else r.versions[..MAX_HISTORY - 1] + [v]
  {
    hide DiffRows, Validated, Linked;
    var v := NextVersion(r, next);
    NextLinks(r, next);
    LinkedAscending(r.versions + [v]);
    ReverseSnoc(r.versions);
    var kept := if |r.versions| < MAX_HISTORY then r.versions else r.versions[..MAX_HISTORY - 1];
    assert CommitWhole(r, next).file == Reverse(kept) + [v];
    assert Ascending(kept + [v]) by {
      assert forall i :: 0 <= i < |kept| ==> (kept + [v])[i] == (r.versions + [v])[i];
      assert (r.versions + [v])[|r.versions|] == v;
    }
    SortReversed(kept, [v]);
  }

  /** A restart right after a root commit finds every version; right after a whole commit, exactly below the cap. */
  lemma LosslessExactly(r: Registry, next: FullSnapshot)
    requires Recorded(r) && Validated(next)
    ensures Lossless(CommitRoot(r, next))
    ensures Lossless(CommitWhole(r, next)) <==> |r.versions| < MAX_HISTORY
  {
    hide DiffRows, Validated, Linked, SortById, Reverse;
    var v := NextVersion(r, next);
    NextLinks(r, next);
    LinkedNewest(r.versions + [v], MAX_HISTORY);
    var kept := Newest(r.versions + [v], MAX_HISTORY);
    LinkedAscending(kept);
    assert kept + [] == kept && Reverse(kept) + [] == Reverse(kept);
    SortReversed(kept, []);
    RestartVersions(r, next);
    WholeLoads(r, next);
    if |r.versions| == MAX_HISTORY {
      LinkedAscending(r.versions + [v]);
      assert (r.versions + [v])[0].id < (r.versions + [v])[1].id;
      assert kept[0] == (r.versions + [v])[1];
    }
  }

  lemma WholeLoads(r: Registry, next: FullSnapshot)
    requires Recorded(r) && Validated(next)
    ensures Load(CommitWhole(r, next).file) ==
            if |r.versions| < MAX_HISTORY then r.versions + [NextVersion(r, next)]
            else r.versions[..MAX_HISTORY - 1] + [NextVersion(r, next)]
  {
    hide DiffRows, Validated, Linked, Load;
    RestartVersions(r, next);
    FileNotEmpty(CommitWhole(r, next).file);
  }

  lemma {:induction false} FileNotEmpty(file: seq<Version>)
    ensures |SortById(file)| == |file| && (file != [] ==> Load(file) != [])
  {
    if file != [] {
      FileNotEmpty(file[1..]);
      InsertLength(file[0], SortById(file[1..]));
    }
  }

  lemma {:induction false} InsertLength(v: Version, versions: seq<Version>)
    ensures |InsertById(v, versions)| == |versions| + 1
  {
    if versions != [] && v.id > versions[0].id { InsertLength(v, versions[1..]); }
  }

  /**
   * A whole commit whose history write fails leaves the candidate in the state file and the old history: after a
   * restart the answer for a key is sound exactly when the candidate did not change its value.
   */
  lemma FailedCommitRestart(r: Registry, next: FullSnapshot, key: string)
    requires Recorded(r) && Load(r.file) == r.versions
    ensures var after := Restart(r.(current := next, nextId := r.nextId + 1));
            Sound(after.versions, after.current, key) <==> ValueOf(next, key) == ValueOf(r.current, key)
  {
    hide DiffRows, Validated, ValueOf, Load, Touches, Linked, Reported;
    var last := r.versions[|r.versions| - 1].snapshot;
    ListedDecides(last, r.current);
    if ValueOf(next, key) == ValueOf(r.current, key) {
      ReportedIsSound(r.versions, next, key);
    }
  }

  /**
   * The answer for a key after a whole commit and a restart is sound exactly when the history was below
   * its cap, or the new version touches the key, or no retained older version answers for it, or the
   * version lost from the file had not changed its value.
   */
  lemma RestartSoundExactly(r: Registry, next: FullSnapshot, key: string)
    requires Recorded(r) && Validated(next)
    ensures var v, n := NextVersion(r, next), |r.versions|;
            var after := Restart(CommitWhole(r, next));
            Sound(after.versions, after.current, key) <==>
            || n < MAX_HISTORY
            || Touches(v, key)
            || StopsAt(r.versions[..n - 1], key).None?
            || ValueOf(r.versions[n - 2].snapshot, key) == ValueOf(r.versions[n - 1].snapshot, key)
  {
    hide ValueOf, Touches, Linked, DiffRows, Validated, StopsAt, Reported;
    var v, n := NextVersion(r, next), |r.versions|;
    RestartVersions(r, next);
    NextLinks(r, next);
    if n < MAX_HISTORY {
      ReportedIsSound(r.versions + [v], next, key);
    } else {
      GapSoundExactly(r.versions, v, key);
    }
  }

  /** The search on a history that lacks its last but one version. */
  lemma GapSoundExactly(versions: seq<Version>, v: Version, key: string)
    requires |versions| >= 2 && Linked(versions + [v])
    ensures var n := |versions|;
            Sound(versions[..n - 1] + [v], v.snapshot, key) <==>
            || Touches(v, key)
            || StopsAt(versions[..n - 1], key).None?
            || ValueOf(versions[n - 2].snapshot, key) == ValueOf(versions[n - 1].snapshot, key)
  {
    hide ValueOf, Touches, Linked, StopsAt, Reported;
    var n := |versions|;
    var all, kept := versions + [v], versions[..n - 1];
    var gap := kept + [v];
    StopsSnoc(kept, v, key);
    IdsAscend(all, n - 1, n);
    if Touches(v, key) || StopsAt(kept, key).None? {
      ReportsNewest(gap, v, key);
      assert HeldSince(gap, n - 1, v.snapshot, key);
    } else {
      StopFacts(kept, key);
      var at := StopsAt(kept, key).value;
      ReportsAt(gap, at, key);
      UntouchedHolds(all, n - 1, n, key);
      forall j | at <= j < n - 1 ensures ValueOf(gap[j].snapshot, key) == ValueOf(versions[n - 2].snapshot, key) {
        assert forall m :: j < m <= n - 2 ==> all[m] == kept[m];
        UntouchedHolds(all, j, n - 2, key);
      }
      if ValueOf(versions[n - 2].snapshot, key) == ValueOf(versions[n - 1].snapshot, key) {
        assert HeldSince(gap, at, v.snapshot, key);
      } else {
        forall i | 0 <= i < |gap| && gap[i].id == gap[at].id ensures !HeldSince(gap, i, v.snapshot, key) {
          GapIdsDistinct(all, gap, i, at);
          assert ValueOf(gap[at].snapshot, key) != ValueOf(v.snapshot, key);
        }
      }
    }
  }

  lemma GapIdsDistinct(all: seq<Version>, gap: seq<Version>, i: nat, j: nat)
    requires |all| >= 2 && Linked(all) && gap == all[..|all| - 2] + [all[|all| - 1]]
    requires i < |gap| && j < |gap| && gap[i].id == gap[j].id
    ensures i == j
  {
    hide Linked;
    LinkedAscending(all);
    var a := if i < |all| - 2 then i else i + 1;
    var b := if j < |all| - 2 then j else j + 1;
    assert gap[i] == all[a] && gap[j] == all[b];
  }

  lemma StopsSnoc(versions: seq<Version>, v: Version, key: string)
    ensures StopsAt(versions + [v], key) ==
            if Touches(v, key) || v.id == 0 then Some(|versions|) else StopsAt(versions, key)
  {
    assert (versions + [v])[..|versions|] == versions;
  }

  lemma ReportsNewest(versions: seq<Version>, v: Version, key: string)
    requires versions != [] && versions[|versions| - 1] == v
    requires StopsAt(versions, key) == None || StopsAt(versions, key) == Some(|versions| - 1)
    ensures Reported(versions, key) == v.id
  {
  }

  lemma ReportsAt(versions: seq<Version>, at: nat, key: string)
    requires at < |versions| && StopsAt(versions, key) == Some(at)
    ensures Reported(versions, key) == versions[at].id
  {
  }

  // ---------------------------------------------------------------------
  // A history for which the answer after a restart is wrong.
  // ---------------------------------------------------------------------

  const ONE_RULE: FullSnapshot := EMPTY.(rules := [RuleEntry("r1", "a/#", None, true, [Log])])

  /** Sixty-four versions; only the newest changes anything. */
  function LateRule(): Registry {
    var versions := seq(MAX_HISTORY, i requires 0 <= i < MAX_HISTORY =>
      if i < MAX_HISTORY - 1 then Version(i, {}, EMPTY) else Version(i, DiffRows(EMPTY, ONE_RULE), ONE_RULE));
    Registry(ONE_RULE, versions, MAX_HISTORY, [])
  }

  lemma LateRuleValues()
    ensures ValueOf(EMPTY, "rules.rules.r1") == None
    ensures ValueOf(ONE_RULE, "rules.rules.r1").Some?
    ensures Validated(EMPTY) && Validated(ONE_RULE)
  {
    var key := "rules.rules.r1";
    assert key[|"rules.rules."|..] == "r1";
    assert Named(key) == Some((Rules, "r1")) by {
      assert key[0] == 'r' && "mqtt_users.users."[0] == 'm';
      assert key == "rules.rules." + "r1";
    }
    assert Items(EMPTY, Rules) == [];
    assert Items(ONE_RULE, Rules)[0].name == "r1";
  }

  lemma LateRuleRecorded()
    ensures Recorded(LateRule())
  {
    hide DiffRows, Validated;
    LateRuleValues();
    NoChangeNoRows(EMPTY);
  }

  /** Reloads that change nothing, as a history of a running broker has them. */
  function IdleCommits(n: nat): seq<Commit> {
    if n == 0 then [] else IdleCommits(n - 1) + [Whole(EMPTY)]
  }

  function IdleVersions(n: nat): seq<Version> {
    seq(n, i requires 0 <= i < n => Version(i, {}, EMPTY))
  }

  lemma IdleStep(r: Registry, n: nat)
    requires n < MAX_HISTORY && r.current == EMPTY && r.versions == IdleVersions(n) && r.nextId == n
    ensures CommitWhole(r, EMPTY).(file := []) == Registry(EMPTY, IdleVersions(n + 1), n + 1, [])
  {
    hide DiffRows;
    NoChangeNoRows(EMPTY);
    assert IdleVersions(n) + [Version(n, {}, EMPTY)] == IdleVersions(n + 1);
  }

  lemma {:induction false} IdleRun(n: nat)
    requires n < MAX_HISTORY
    ensures Run(Boot(EMPTY), IdleCommits(n)).(file := []) == Registry(EMPTY, IdleVersions(n + 1), n + 1, [])
  {
    hide DiffRows, CommitWhole, IdleVersions, Reverse;
    if n == 0 {
      assert IdleVersions(1) == [Version(0, {}, EMPTY)] by { IdleFirst(); }
    } else {
      IdleRun(n - 1);
      var commits := IdleCommits(n);
      assert commits[..|commits| - 1] == IdleCommits(n - 1);
      IdleStep(Run(Boot(EMPTY), IdleCommits(n - 1)), n);
    }
  }

  lemma IdleFirst()
    ensures IdleVersions(1) == [Version(0, {}, EMPTY)]
  {
  }

  /** The history above is reached by commits from a first start. */
  lemma LateRuleReachable()
    ensures Run(Boot(EMPTY), IdleCommits(MAX_HISTORY - 2) + [Whole(ONE_RULE)]).(file := []) == LateRule()
  {
    hide DiffRows;
    var idle := IdleCommits(MAX_HISTORY - 2);
    IdleRun(MAX_HISTORY - 2);
    assert (idle + [Whole(ONE_RULE)])[..|idle|] == idle;
    var before := Run(Boot(EMPTY), idle);
    assert before.versions + [NextVersion(before, ONE_RULE)] == LateRule().versions;
  }

  /** The rule was set by version 63, is still running, and is reported as set at boot. */
  lemma WrongAfterRestart()
    ensures Recorded(LateRule())
    ensures var after := Restart(CommitWhole(LateRule(), ONE_RULE));
            !Sound(after.versions, after.current, "rules.rules.r1")
  {
    hide ValueOf, DiffRows, Sound, Restart, CommitWhole, Validated, Touches;
    var r, key := LateRule(), "rules.rules.r1";
    LateRuleRecorded();
    LateRuleValues();
    NoChangeNoRows(ONE_RULE);
    NothingTouched(NextVersion(r, ONE_RULE), key);
    StopFacts(r.versions[..MAX_HISTORY - 1], key);
    VersionZeroStops(r.versions[..MAX_HISTORY - 1], key);
    RestartSoundExactly(r, ONE_RULE, key);
  }

  const RULE_A: RuleEntry := RuleEntry("a", "t", None, true, [Log])
  const RULE_B: RuleEntry := RuleEntry("a].b", "t", None, true, [Log])
  const WITH_A: FullSnapshot := EMPTY.(rules := [RULE_A])
  const WITH_BOTH: FullSnapshot := EMPTY.(rules := [RULE_A, RULE_B])

  /** Version 1 sets the rule `a`, version 2 the rule `a].b`. */
  function Lookalikes(): seq<Version> {
    [Version(0, {}, EMPTY), Version(1, DiffRows(EMPTY, WITH_A), WITH_A),
     Version(2, DiffRows(WITH_A, WITH_BOTH), WITH_BOTH)]
  }

  lemma LookalikeValues()
    ensures KeyFor("rules.rules.a", Rules, "a")
    ensures First(Items(EMPTY, Rules), "a") == None && First(Items(WITH_A, Rules), "a") == Some(RuleSetting(RULE_A))
    ensures First(Items(WITH_BOTH, Rules), "a") == Some(RuleSetting(RULE_A))
    ensures First(Items(WITH_A, Rules), "a].b") == None && First(Items(WITH_BOTH, Rules), "a].b").Some?
    ensures Validated(EMPTY) && Validated(WITH_A) && Validated(WITH_BOTH)
  {
    var key := "rules.rules.a";
    assert key[|"rules.rules."|..] == "a";
    assert key[0] == 'r' && "mqtt_users.users."[0] == 'm' && key == "rules.rules." + "a";
    assert |"a"| != |"a].b"|;
    assert Items(EMPTY, Rules) == [];
    assert Items(WITH_A, Rules) == [Item("a", RuleSetting(RULE_A))];
    assert Items(WITH_BOTH, Rules) == [Item("a", RuleSetting(RULE_A)), Item("a].b", RuleSetting(RULE_B))];
    assert Items(WITH_BOTH, Rules)[1..] == [Item("a].b", RuleSetting(RULE_B))];
    assert Items(WITH_A, Rules)[1..] == [];
  }

  /** The rule `a` was set by version 1, and another version is reported. */
  lemma LookalikeReported()
    ensures Linked(Lookalikes()) && SetLast(Lookalikes(), 1, "rules.rules.a")
    ensures Reported(Lookalikes(), "rules.rules.a") != 1
  {
    hide Items, First, DiffRows, Validated, Reported, Named;
    var versions := Lookalikes();
    LookalikeValues();
    assert "a" + "]." <= "a].b";
    assert LookalikeAt(versions, 2, Rules, "a");
    ReportedExactly(versions, 1, "rules.rules.a", Rules, "a");
  }

  /** A rule from a failed commit: after a restart it runs, and no version has it. */
  lemma RuleWithoutVersion()
    ensures var r := CommitRoot(Boot(EMPTY), EMPTY);
            var after := Restart(r.(current := ONE_RULE, nextId := r.nextId + 1));
            && Recorded(r) && Load(r.file) == r.versions
            && !Sound(after.versions, after.current, "rules.rules.r1")
  {
    hide ValueOf, DiffRows, Sound, Restart, Validated, SortById, Reverse;
    var r := CommitRoot(Boot(EMPTY), EMPTY);
    LateRuleValues();
    NoChangeNoRows(EMPTY);
    assert r.versions == [Version(0, {}, EMPTY), Version(1, {}, EMPTY)];
    assert r.versions + [] == r.versions && Reverse(r.versions) + [] == Reverse(r.versions);
    SortReversed(r.versions, []);
    FailedCommitRestart(r, ONE_RULE, "rules.rules.r1");
  }

  lemma NothingTouched(v: Version, key: string)
    requires v.changes == {}
    ensures !Touches(v, key)
  {
  }

  lemma {:induction false} VersionZeroStops(versions: seq<Version>, key: string)
    requires versions != [] && versions[0].id == 0
    ensures StopsAt(versions, key).Some?
  {
    if |versions| > 1 { VersionZeroStops(versions[..|versions| - 1], key); }
  }
}
