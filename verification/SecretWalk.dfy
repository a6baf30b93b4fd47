/** The recursive walks over JSON that hide and that resolve secret references. */
module SecretWalk {
  import opened Prelude
  import opened Text

  datatype Json =
    | Null
    | Bool(flag: bool)
    | Number(digits: string)
    | Str(text: string)
    | Arr(items: seq<Json>)
    | Obj(members: seq<Member>)

  datatype Member = Member(key: string, value: Json)

  // ---------------------------------------------------------------------
  // Secret references.
  // ---------------------------------------------------------------------

  predicate IsSecretRef(s: string) {
    "file:" <= s || "env:" <= s
  }

  /** A reference with nothing behind its prefix; it names no secret. */
  predicate Bare(s: string) {
    s == "file:" || s == "env:"
  }

  lemma BehindPrefix(s: string)
    ensures IsSecretRef(s) && !Bare(s) <==> "file:" < s || "env:" < s
  {
    assert "file:" <= s && |s| == 5 ==> s == "file:";
    assert "env:" <= s && |s| == 4 ==> s == "env:";
    assert "file:" < s ==> s[0] == 'f';
    assert "env:" < s ==> s[0] == 'e';
  }

  function RedactValue(s: string): string {
    if IsSecretRef(s) && !Bare(s) then "<redacted:" + s + ">" else s
  }

  function RedactLeaf(text: string): string {
    if IsSecretRef(Trim(text)) then RedactValue(Trim(text)) else text
  }

  // ---------------------------------------------------------------------
  // Rewriting the string leaves of a tree.
  // ---------------------------------------------------------------------

  function MapStrings(j: Json, f: string -> string): Json
    decreases j
  {
    match j
    case Str(text) => Str(f(text))
    case Arr(items) => Arr(seq(|items|, i requires 0 <= i < |items| => MapStrings(items[i], f)))
    case Obj(members) =>
      Obj(seq(|members|, i requires 0 <= i < |members| => Member(members[i].key, MapStrings(members[i].value, f))))
    case _ => j
  }

  predicate AllStrings(j: Json, p: string -> bool)
    decreases j
  {
    match j
    case Str(text) => p(text)
    case Arr(items) => forall i :: 0 <= i < |items| ==> AllStrings(items[i], p)
    case Obj(members) => forall i :: 0 <= i < |members| ==> AllStrings(members[i].value, p)
    case _ => true
  }

  /** The node reached by following child positions from the root. */
  function At(j: Json, path: seq<nat>): Option<Json>
    decreases path
  {
    if path == [] then Some(j)
    else match j
      case Arr(items) => if path[0] < |items| then At(items[path[0]], path[1..]) else None
      case Obj(members) => if path[0] < |members| then At(members[path[0]].value, path[1..]) else None
      case _ => None
  }

  /** One node without its children: kind, keys in order, number of children, and any leaf but a string. */
  datatype Shell = Leaf(value: Json) | Text | Items(count: nat) | Keys(keys: seq<string>)

  function ShellOf(j: Json): Shell {
    match j
    case Str(_) => Text
    case Arr(items) => Items(|items|)
    case Obj(members) => Keys(seq(|members|, i requires 0 <= i < |members| => members[i].key))
    case _ => Leaf(j)
  }

  /** The rewrite touches string leaves only: every other node keeps its place, kind, keys and value. */
  lemma {:induction false} MapKeepsShape(j: Json, f: string -> string, path: seq<nat>)
    ensures At(MapStrings(j, f), path).Some? <==> At(j, path).Some?
    ensures At(j, path).Some? ==>
            var was, now := At(j, path).value, At(MapStrings(j, f), path).value;
            && ShellOf(now) == ShellOf(was)
            && (was.Str? ==> now == Str(f(was.text)))
    decreases path
  {
    if path == [] {
      assert ShellOf(MapStrings(j, f)) == ShellOf(j);
    } else {
      match j
      case Arr(items) => if path[0] < |items| { MapKeepsShape(items[path[0]], f, path[1..]); }
      case Obj(members) => if path[0] < |members| { MapKeepsShape(members[path[0]].value, f, path[1..]); }
      case _ =>
    }
  }

  lemma {:induction false} MapTwice(j: Json, f: string -> string)
    requires forall s :: f(f(s)) == f(s)
    ensures MapStrings(MapStrings(j, f), f) == MapStrings(j, f)
    decreases j
  {
    match j
    case Arr(items) =>
      forall i | 0 <= i < |items| ensures MapStrings(MapStrings(items[i], f), f) == MapStrings(items[i], f) {
        MapTwice(items[i], f);
      }
    case Obj(members) =>
      forall i | 0 <= i < |members|
        ensures MapStrings(MapStrings(members[i].value, f), f) == MapStrings(members[i].value, f)
      {
        MapTwice(members[i].value, f);
      }
    case _ =>
  }

  lemma {:induction false} AllStringsAfterMap(j: Json, f: string -> string, p: string -> bool, q: string -> bool)
    requires forall s :: p(f(s)) == q(s)
    ensures AllStrings(MapStrings(j, f), p) == AllStrings(j, q)
    decreases j
  {
    match j
    case Arr(items) =>
      forall i | 0 <= i < |items| ensures AllStrings(MapStrings(items[i], f), p) == AllStrings(items[i], q) {
        AllStringsAfterMap(items[i], f, p, q);
      }
      var mapped := MapStrings(j, f).items;
      assert forall i :: 0 <= i < |items| ==> mapped[i] == MapStrings(items[i], f);
      assert AllStrings(j, q) <==> forall i :: 0 <= i < |items| ==> AllStrings(mapped[i], p);
    case Obj(members) =>
      forall i | 0 <= i < |members|
        ensures AllStrings(MapStrings(members[i].value, f), p) == AllStrings(members[i].value, q)
      {
        AllStringsAfterMap(members[i].value, f, p, q);
      }
      var mapped := MapStrings(j, f).members;
      assert forall i :: 0 <= i < |members| ==> mapped[i].value == MapStrings(members[i].value, f);
      assert AllStrings(j, q) <==> forall i :: 0 <= i < |members| ==> AllStrings(mapped[i].value, p);
    case _ =>
  }

  lemma {:induction false} AllStringsAt(j: Json, p: string -> bool, path: seq<nat>)
    requires AllStrings(j, p) && At(j, path).Some? && At(j, path).value.Str?
    ensures p(At(j, path).value.text)
    decreases path
  {
    if path != [] {
      match j
      case Arr(items) => AllStringsAt(items[path[0]], p, path[1..]);
      case Obj(members) => AllStringsAt(members[path[0]].value, p, path[1..]);
    }
  }

  lemma {:induction false} OddString(j: Json, p: string -> bool) returns (path: seq<nat>)
    requires !AllStrings(j, p)
    ensures At(j, path).Some? && At(j, path).value.Str? && !p(At(j, path).value.text)
    decreases j
  {
    match j
    case Str(_) =>
      path := [];
    case Arr(items) =>
      var i: nat :| i < |items| && !AllStrings(items[i], p);
      var rest := OddString(items[i], p);
      path := [i] + rest;
      assert path[1..] == rest;
    case Obj(members) =>
      var i: nat :| i < |members| && !AllStrings(members[i].value, p);
      var rest := OddString(members[i].value, p);
      path := [i] + rest;
      assert path[1..] == rest;
  }

  // ---------------------------------------------------------------------
  // Redaction.
  // ---------------------------------------------------------------------

  function Redact(j: Json): Json {
    MapStrings(j, RedactLeaf)
  }

  lemma MarkerIsNoRef(s: string)
    ensures var marker := "<redacted:" + s + ">"; Trim(marker) == marker && !IsSecretRef(marker)
  {
    var marker := "<redacted:" + s + ">";
    assert marker[0] == '<' && marker[|marker| - 1] == '>';
    TrimFixed(marker);
    assert "file:"[0] == 'f' && "env:"[0] == 'e';
  }

  lemma RedactLeafFacts(s: string)
    ensures RedactLeaf(RedactLeaf(s)) == RedactLeaf(s)
    ensures IsSecretRef(Trim(RedactLeaf(s))) <==> Bare(Trim(s))
  {
    TrimIdempotent(s);
    MarkerIsNoRef(Trim(s));
  }

  predicate NoReference(leaf: string) {
    !IsSecretRef(Trim(leaf))
  }

  predicate NotBare(leaf: string) {
    !Bare(Trim(leaf))
  }

  lemma RedactIdempotent(j: Json)
    ensures Redact(Redact(j)) == Redact(j)
  {
    forall s ensures RedactLeaf(RedactLeaf(s)) == RedactLeaf(s) { RedactLeafFacts(s); }
    MapTwice(j, RedactLeaf);
  }

  /** No leaf still reads as a reference exactly when the document had no bare `file:` or `env:` leaf. */
  lemma RedactLeavesNoReference(j: Json)
    ensures AllStrings(Redact(j), NoReference) <==> AllStrings(j, NotBare)
  {
    forall s ensures NoReference(RedactLeaf(s)) == NotBare(s) { RedactLeafFacts(s); }
    AllStringsAfterMap(j, RedactLeaf, NoReference, NotBare);
  }

  /** A document whose redaction still holds a leaf that reads as a reference. */
  lemma BareReferenceSurvives()
    ensures Redact(Obj([Member("password", Str("env:"))])) == Obj([Member("password", Str("env:"))])
    ensures IsSecretRef("env:")
  {
    var members := [Member("password", Str("env:"))];
    TrimFixed("env:");
    assert MapStrings(members[0].value, RedactLeaf) == Str("env:");
    assert Redact(Obj(members)).members[0] == members[0];
  }

  /** What stands at a string's place after redaction: the marked reference, or the same text. */
  lemma RedactedAt(j: Json, path: seq<nat>)
    requires At(j, path).Some? && At(j, path).value.Str?
    ensures var text := At(j, path).value.text;
            At(Redact(j), path) ==
            if ("file:" < Trim(text) || "env:" < Trim(text)) then Some(Str("<redacted:" + Trim(text) + ">"))
            else if Trim(text) == "file:" || Trim(text) == "env:" then Some(Str(Trim(text)))
            else Some(Str(text))
  {
    BehindPrefix(Trim(At(j, path).value.text));
    MapKeepsShape(j, RedactLeaf, path);
  }

  /** The walk as the source performs it, child by child in place. */
  method RedactInPlace(value: Json) returns (r: Json)
    ensures r == Redact(value)
    decreases value
  {
    match value
    case Str(text) =>
      r := if IsSecretRef(Trim(text)) then Str(RedactValue(Trim(text))) else value;
    case Arr(items) =>
      var now := items;
      for i := 0 to |items|
        invariant |now| == |items|
        invariant forall k :: 0 <= k < i ==> now[k] == Redact(items[k])
        invariant forall k :: i <= k < |items| ==> now[k] == items[k]
      {
        var child := RedactInPlace(items[i]);
        now := now[i := child];
      }
      r := Arr(now);
    case Obj(members) =>
      var now := members;
      for i := 0 to |members|
        invariant |now| == |members|
        invariant forall k :: 0 <= k < i ==> now[k] == Member(members[k].key, Redact(members[k].value))
        invariant forall k :: i <= k < |members| ==> now[k] == members[k]
      {
        var child := RedactInPlace(members[i].value);
        now := now[i := Member(members[i].key, child)];
      }
      r := Obj(now);
    case _ =>
      r := value;
  }

  // ---------------------------------------------------------------------
  // Resolution.
  // ---------------------------------------------------------------------

  /** What lies behind references: octets if the file or variable can be read, and how octets read as text or JSON. */
  datatype Secrets = Secrets(
    read: string -> Option<seq<byte>>,
    text: seq<byte> -> Option<string>,
    json: string -> Option<Json>)

  function ResolveSecret(s: string, w: Secrets): Option<seq<byte>> {
    if IsSecretRef(s) && !Bare(s) then w.read(s) else None
  }

  predicate Resolvable(text: string, w: Secrets) {
    IsSecretRef(Trim(text)) ==> ResolveSecret(Trim(text), w).Some?
  }

  /** The leaf after resolution; octets that are not UTF-8 become the empty string. */
  function ResolveLeaf(text: string, w: Secrets): string {
    if IsSecretRef(Trim(text)) && ResolveSecret(Trim(text), w).Some? then
      match w.text(ResolveSecret(Trim(text), w).value)
      case Some(decoded) => decoded
      case None => ""
    else text
  }

  /** The walk as the source performs it: in order, stopping at the first failure. */
  method ResolveInPlace(value: Json, w: Secrets) returns (r: Option<Json>)
    ensures r.Some? <==> AllStrings(value, s => Resolvable(s, w))
    ensures r.Some? ==> r.value == MapStrings(value, s => ResolveLeaf(s, w))
    decreases value
  {
    match value
    case Str(text) =>
      var trimmed := Trim(text);
      if IsSecretRef(trimmed) {
        var resolved := ResolveSecret(trimmed, w);
        if resolved.None? {
          return None;
        }
        var decoded := w.text(resolved.value);
        return Some(Str(if decoded.Some? then decoded.value else ""));
      }
      return Some(value);
    case Arr(items) =>
      var now := items;
      for i := 0 to |items|
        invariant |now| == |items|
        invariant forall k :: 0 <= k < i ==> AllStrings(items[k], s => Resolvable(s, w))
        invariant forall k :: 0 <= k < i ==> now[k] == MapStrings(items[k], s => ResolveLeaf(s, w))
      {
        var child := ResolveInPlace(items[i], w);
        if child.None? {
          return None;
        }
        now := now[i := child.value];
      }
      return Some(Arr(now));
    case Obj(members) =>
      var now := members;
      for i := 0 to |members|
        invariant |now| == |members|
        invariant forall k :: 0 <= k < i ==> AllStrings(members[k].value, s => Resolvable(s, w))
        invariant forall k :: 0 <= k < i ==>
          now[k] == Member(members[k].key, MapStrings(members[k].value, s => ResolveLeaf(s, w)))
      {
        var child := ResolveInPlace(members[i].value, w);
        if child.None? {
          return None;
        }
        now := now[i := Member(members[i].key, child.value)];
      }
      return Some(Obj(now));
    case _ =>
      return Some(value);
  }

  /** What the walk returns, as a function of its input. */
  function Resolve(j: Json, w: Secrets): Option<Json> {
    if AllStrings(j, s => Resolvable(s, w)) then Some(MapStrings(j, s => ResolveLeaf(s, w))) else None
  }

  /** A trimmed text with something behind `file:` or `env:`, which can be read. */
  predicate Readable(s: string, w: Secrets) {
    ("file:" < s || "env:" < s) && w.read(s).Some?
  }

  lemma ResolvableExactly(text: string, w: Secrets)
    ensures Resolvable(text, w) <==>
            (("file:" <= Trim(text) || "env:" <= Trim(text)) ==> Readable(Trim(text), w))
  {
    BehindPrefix(Trim(text));
  }

  /** A place with a string that is a reference and names nothing or cannot be read. */
  predicate LostAt(j: Json, w: Secrets, path: seq<nat>) {
    && At(j, path).Some? && At(j, path).value.Str?
    && var s := Trim(At(j, path).value.text);
       ("file:" <= s || "env:" <= s) && !Readable(s, w)
  }

  /** Resolution fails exactly when there is such a place. */
  lemma ResolveFailsExactly(j: Json, w: Secrets)
    ensures Resolve(j, w).None? <==> exists path :: LostAt(j, w, path)
  {
    forall s ensures Resolvable(s, w) <==> (("file:" <= Trim(s) || "env:" <= Trim(s)) ==> Readable(Trim(s), w)) {
      ResolvableExactly(s, w);
    }
    hide Resolvable, Readable, Trim;
    if AllStrings(j, s => Resolvable(s, w)) {
      forall path | At(j, path).Some? && At(j, path).value.Str? ensures Resolvable(At(j, path).value.text, w) {
        AllStringsAt(j, s => Resolvable(s, w), path);
      }
    } else {
      var path := OddString(j, s => Resolvable(s, w));
      assert LostAt(j, w, path);
    }
  }

  /** What stands at a string's place after resolution: the secret as text, or the same string. */
  lemma ResolvedAt(j: Json, w: Secrets, path: seq<nat>)
    requires Resolve(j, w).Some? && At(j, path).Some? && At(j, path).value.Str?
    ensures var text := At(j, path).value.text;
            var now := At(Resolve(j, w).value, path);
            if "file:" <= Trim(text) || "env:" <= Trim(text) then
              && Readable(Trim(text), w)
              && var decoded := w.text(w.read(Trim(text)).value);
                 now == Some(Str(if decoded.Some? then decoded.value else ""))
            else now == Some(Str(text))
  {
    MapKeepsShape(j, s => ResolveLeaf(s, w), path);
    AllStringsAt(j, s => Resolvable(s, w), path);
    ResolvableExactly(At(j, path).value.text, w);
  }

  // ---------------------------------------------------------------------
  // Connector parameters.
  // ---------------------------------------------------------------------

  predicate HasKey(members: seq<Member>, key: string) {
    exists i :: 0 <= i < |members| && members[i].key == key
  }

  /** `entry("id").or_insert(..)`. */
  function WithId(members: seq<Member>, id: string): seq<Member> {
    if HasKey(members, "id") then members else members + [Member("id", Str(id))]
  }

  function ConnectorParams(id: string, config: string, w: Secrets): Option<Json> {
    var trimmed := Trim(config);
    if trimmed == "" then Some(Obj([Member("id", Str(id))]))
    else if IsSecretRef(trimmed) then
      match ResolveSecret(trimmed, w)
      case None => None
      case Some(octets) =>
        match w.text(octets)
        case None => None
        case Some(text) =>
          match w.json(text)
          case Some(Obj(members)) => Resolve(Obj(WithId(members, id)), w)
          case _ => if Blank(text) then None else Some(Obj([Member("id", Str(id)), Member("url", Str(text))]))
    else
      match w.json(config)
      case Some(Obj(members)) =>
        (match Resolve(Obj(members), w)
         case Some(Obj(resolved)) => Some(Obj(WithId(resolved, id)))
         case _ => None)
      case _ => None
  }

  lemma HasKeyByShell(j: Json, k: Json, key: string)
    requires j.Obj? && ShellOf(k) == ShellOf(j) && HasKey(j.members, key)
    ensures k.Obj? && HasKey(k.members, key)
  {
    var i :| 0 <= i < |j.members| && j.members[i].key == key;
    assert ShellOf(j).keys[i] == key;
    assert ShellOf(k).keys[i] == k.members[i].key;
  }

  lemma ResolveKeepsKeys(members: seq<Member>, w: Secrets, key: string)
    requires HasKey(members, key) && Resolve(Obj(members), w).Some?
    ensures Resolve(Obj(members), w).value.Obj? && HasKey(Resolve(Obj(members), w).value.members, key)
  {
    MapKeepsShape(Obj(members), s => ResolveLeaf(s, w), []);
    HasKeyByShell(Obj(members), Resolve(Obj(members), w).value, key);
  }

  lemma WithIdHasId(members: seq<Member>, id: string)
    ensures HasKey(WithId(members, id), "id")
  {
    if !HasKey(members, "id") {
      assert WithId(members, id)[|members|].key == "id";
    }
  }

  /** Parameters are always an object that carries an `id`. */
  lemma ParamsCarryId(id: string, config: string, w: Secrets)
    requires ConnectorParams(id, config, w).Some?
    ensures ConnectorParams(id, config, w).value.Obj?
    ensures HasKey(ConnectorParams(id, config, w).value.members, "id")
  {
    hide Resolve, HasKey;
    var trimmed := Trim(config);
    if trimmed == "" {
      SingleHasId(id, []);
    } else if IsSecretRef(trimmed) {
      var text := w.text(ResolveSecret(trimmed, w).value).value;
      if w.json(text).Some? && w.json(text).value.Obj? {
        var members := WithId(w.json(text).value.members, id);
        WithIdHasId(w.json(text).value.members, id);
        ResolveKeepsKeys(members, w, "id");
      } else {
        SingleHasId(id, [Member("url", Str(text))]);
        assert [Member("id", Str(id)), Member("url", Str(text))] ==
               [Member("id", Str(id))] + [Member("url", Str(text))];
      }
    } else {
      var resolved := Resolve(Obj(w.json(config).value.members), w).value;
      WithIdHasId(resolved.members, id);
    }
  }

  predicate IsObject(j: Option<Json>) {
    j.Some? && j.value.Obj?
  }

  /** A config that is one reference, and the text behind it. */
  predicate Refers(config: string, w: Secrets, text: string) {
    Readable(Trim(config), w) && w.text(w.read(Trim(config)).value) == Some(text)
  }

  /**
   * An entry has no parameters exactly when its config is a reference whose text cannot be read, or is blank and
   * no object; or is neither blank nor a reference nor an object; or some string of the object, and in a referred
   * one also an id put in, does not resolve.
   */
  lemma ParamsFailExactly(id: string, config: string, w: Secrets)
    ensures ConnectorParams(id, config, w).None? <==>
            && !Blank(config)
            && if "file:" <= Trim(config) || "env:" <= Trim(config) then
                 forall text :: Refers(config, w, text) ==>
                   if IsObject(w.json(text)) then
                     || Resolve(w.json(text).value, w).None?
                     || (!HasKey(w.json(text).value.members, "id") && !Resolvable(id, w))
                   else Blank(text)
               else !IsObject(w.json(config)) || Resolve(w.json(config).value, w).None?
  {
    var trimmed := Trim(config);
    BehindPrefix(trimmed);
    if trimmed != "" && IsSecretRef(trimmed) && Readable(trimmed, w) {
      var found := w.text(w.read(trimmed).value);
      if found.Some? && IsObject(w.json(found.value)) {
        assert Refers(config, w, found.value);
        WithIdResolves(w.json(found.value).value.members, id, w);
      } else if found.Some? {
        assert Refers(config, w, found.value);
      }
    }
  }

  lemma WithIdResolves(members: seq<Member>, id: string, w: Secrets)
    ensures Resolve(Obj(WithId(members, id)), w).Some? <==>
            Resolve(Obj(members), w).Some? && (HasKey(members, "id") || Resolvable(id, w))
  {
    hide Resolvable;
    var all := WithId(members, id);
    assert forall i :: 0 <= i < |members| ==> all[i] == members[i];
    if !HasKey(members, "id") {
      assert all[|members|].value == Str(id);
      assert AllStrings(Str(id), s => Resolvable(s, w)) == Resolvable(id, w);
    }
  }

  /** Every member of `members` in its place with its value resolved, and after them an id if there was none. */
  ghost predicate ResolvedFrom(params: Json, members: seq<Member>, id: Json, w: Secrets) {
    && params.Obj? && |params.members| == |members| + (if HasKey(members, "id") then 0 else 1)
    && (forall i :: 0 <= i < |members| ==>
         && params.members[i].key == members[i].key
         && Resolve(members[i].value, w) == Some(params.members[i].value))
    && (!HasKey(members, "id") ==> params.members[|members|] == Member("id", id))
  }

  /** The parameters of an entry that has them. */
  lemma ParamsExactly(id: string, config: string, w: Secrets)
    requires ConnectorParams(id, config, w).Some?
    ensures var params := ConnectorParams(id, config, w).value;
            if Blank(config) then params == Obj([Member("id", Str(id))])
            else if "file:" <= Trim(config) || "env:" <= Trim(config) then
              exists text :: Refers(config, w, text)
                && if IsObject(w.json(text)) then
                     ResolvedFrom(params, w.json(text).value.members, Str(ResolveLeaf(id, w)), w)
                   else params == Obj([Member("id", Str(id)), Member("url", Str(text))])
            else IsObject(w.json(config)) && ResolvedFrom(params, w.json(config).value.members, Str(id), w)
  {
    var trimmed := Trim(config);
    if trimmed != "" && IsSecretRef(trimmed) {
      var text := w.text(w.read(trimmed).value).value;
      assert Refers(config, w, text);
      if IsObject(w.json(text)) { ReferredParams(w.json(text).value.members, id, w); }
    } else if trimmed != "" {
      OwnParams(w.json(config).value.members, id, w);
    }
  }

  lemma ReferredParams(members: seq<Member>, id: string, w: Secrets)
    requires Resolve(Obj(WithId(members, id)), w).Some?
    ensures ResolvedFrom(Resolve(Obj(WithId(members, id)), w).value, members, Str(ResolveLeaf(id, w)), w)
  {
    hide Resolvable, ResolveLeaf;
    var all := WithId(members, id);
    var out := Resolve(Obj(all), w).value.members;
    assert forall i :: 0 <= i < |members| ==> all[i] == members[i];
    assert forall i :: 0 <= i < |all| ==> out[i].key == all[i].key;
    if !HasKey(members, "id") {
      assert all[|members|] == Member("id", Str(id));
      assert MapStrings(Str(id), s => ResolveLeaf(s, w)) == Str(ResolveLeaf(id, w));
    }
  }

  lemma OwnParams(members: seq<Member>, id: string, w: Secrets)
    requires Resolve(Obj(members), w).Some?
    ensures var resolved := Resolve(Obj(members), w).value;
            resolved.Obj? && ResolvedFrom(Obj(WithId(resolved.members, id)), members, Str(id), w)
  {
    var resolved := Resolve(Obj(members), w).value;
    assert ShellOf(resolved) == ShellOf(Obj(members)) by { MapKeepsShape(Obj(members), s => ResolveLeaf(s, w), []); }
    if HasKey(members, "id") { HasKeyByShell(Obj(members), resolved, "id"); }
    if HasKey(resolved.members, "id") { HasKeyByShell(resolved, Obj(members), "id"); }
  }

  lemma SingleHasId(id: string, more: seq<Member>)
    ensures HasKey([Member("id", Str(id))] + more, "id")
    ensures [Member("id", Str(id))] + [] == [Member("id", Str(id))]
  {
    assert ([Member("id", Str(id))] + more)[0].key == "id";
  }

  /** A JSON config without an `id` of its own gets the connector's, after resolution, so it is never resolved. */
  lemma JsonConfigGetsEntryId(id: string, config: string, w: Secrets, members: seq<Member>)
    requires Trim(config) != "" && !IsSecretRef(Trim(config))
    requires w.json(config) == Some(Obj(members)) && !HasKey(members, "id")
    ensures ConnectorParams(id, config, w).Some? <==> AllStrings(Obj(members), s => Resolvable(s, w))
    ensures ConnectorParams(id, config, w).Some? ==>
            var out := ConnectorParams(id, config, w).value.members;
            |out| == |members| + 1 && out[|members|] == Member("id", Str(id))
  {
    if Resolve(Obj(members), w).Some? {
      var r := Resolve(Obj(members), w).value;
      MapKeepsShape(Obj(members), s => ResolveLeaf(s, w), []);
      if HasKey(r.members, "id") {
        HasKeyByShell(r, Obj(members), "id");
        assert false;
      }
      assert |ShellOf(r).keys| == |ShellOf(Obj(members)).keys|;
    }
  }
}
