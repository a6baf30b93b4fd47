/** From a served key document to the cached key set: accept, sort by kid, truncate, fill. */
module JwksKeySet {
  import opened Prelude
  import opened Text

  datatype ServedKey = ServedKey(
    kid: string, kty: string, alg: string, n: string, e: string, x: string, y: string, crv: string)

  datatype Material = Rsa(n: string, e: string) | Ec(x: string, y: string)

  datatype Key = Key(kid: string, material: Material)

  const MAX_COMPONENT: int := 1024

  function Clamp(value: int, low: int, high: int): int {
    Max(low, Min(value, high))
  }

  function EffectiveCacheMax(configured: nat): (max: nat)
    ensures 1 <= max <= 256 && (1 <= configured <= 256 ==> max == configured)
    ensures (configured == 0 ==> max == 1) && (configured > 256 ==> max == 256)
  {
    Clamp(configured, 1, 256)
  }

  /** One served key, if the broker can use it. */
  function AcceptKey(k: ServedKey): Option<Key> {
    if k.kid == "" || ByteLen(k.kid) > 256 then None
    else if exists part | part in [k.n, k.e, k.x, k.y] :: ByteLen(part) > MAX_COMPONENT then None
    else if k.kty == "RSA" then
      if k.n == "" || k.e == "" || (k.alg != "" && k.alg != "RS256") then None
      else Some(Key(k.kid, Rsa(k.n, k.e)))
    else if k.kty == "EC" then
      if k.x == "" || k.y == "" || (k.crv != "" && k.crv != "P-256") || (k.alg != "" && k.alg != "ES256") then None
      else Some(Key(k.kid, Ec(k.x, k.y)))
    else None
  }

  /** A kid and components within their sizes in octets. */
  predicate Sized(k: ServedKey) {
    && k.kid != "" && ByteLen(k.kid) <= 256
    && ByteLen(k.n) <= 1024 && ByteLen(k.e) <= 1024 && ByteLen(k.x) <= 1024 && ByteLen(k.y) <= 1024
  }

  /** Which served keys are accepted, and as what. */
  lemma AcceptKeyExactly(k: ServedKey, key: Key)
    ensures AcceptKey(k) == Some(key) <==>
            && Sized(k) && key.kid == k.kid
            && match key.material
               case Rsa(n, e) => k.kty == "RSA" && n == k.n != "" && e == k.e != "" && k.alg in {"", "RS256"}
               case Ec(x, y) =>
                 k.kty == "EC" && x == k.x != "" && y == k.y != "" && k.crv in {"", "P-256"} && k.alg in {"", "ES256"}
  {
    hide ByteLen;
    assert forall p: string :: p in [k.n, k.e, k.x, k.y] <==> p == k.n || p == k.e || p == k.x || p == k.y;
  }

  function Accepted(doc: seq<ServedKey>): seq<Key> {
    if doc == [] then []
    else match AcceptKey(doc[|doc| - 1])
      case Some(key) => Accepted(doc[..|doc| - 1]) + [key]
      case None => Accepted(doc[..|doc| - 1])
  }

  // ---------------------------------------------------------------------
  // Filters.
  // ---------------------------------------------------------------------

  function Filter(keys: seq<Key>, p: Key -> bool): seq<Key> {
    if keys == [] then [] else (if p(keys[0]) then [keys[0]] else []) + Filter(keys[1..], p)
  }

  lemma {:induction false} FilterConcat(a: seq<Key>, b: seq<Key>, p: Key -> bool)
    ensures Filter(a + b, p) == Filter(a, p) + Filter(b, p)
  {
    if a == [] {
      assert a + b == b;
    } else {
      assert (a + b)[1..] == a[1..] + b;
      FilterConcat(a[1..], b, p);
      var head := if p(a[0]) then [a[0]] else [];
      assert Filter(a + b, p) == head + (Filter(a[1..], p) + Filter(b, p));
    }
  }

  lemma {:induction false} FilterCount(keys: seq<Key>, p: Key -> bool, key: Key)
    ensures multiset(Filter(keys, p))[key] == if p(key) then multiset(keys)[key] else 0
  {
    if keys != [] {
      FilterCount(keys[1..], p, key);
      assert keys == [keys[0]] + keys[1..];
    }
  }

  lemma {:induction false} FilterAll(keys: seq<Key>, p: Key -> bool)
    ensures (forall key :: key in keys ==> p(key)) ==> Filter(keys, p) == keys
    ensures (forall key :: key in keys ==> !p(key)) ==> Filter(keys, p) == []
    ensures forall key :: key in Filter(keys, p) ==> key in keys && p(key)
  {
    if keys != [] {
      FilterAll(keys[1..], p);
      assert keys == [keys[0]] + keys[1..];
    }
  }

  lemma FilterPermuted(a: seq<Key>, b: seq<Key>, p: Key -> bool)
    requires multiset(a) == multiset(b)
    ensures multiset(Filter(a, p)) == multiset(Filter(b, p)) && |Filter(a, p)| == |Filter(b, p)|
  {
    forall key ensures multiset(Filter(a, p))[key] == multiset(Filter(b, p))[key] {
      FilterCount(a, p, key);
      FilterCount(b, p, key);
    }
    assert |Filter(a, p)| == |multiset(Filter(a, p))|;
    assert |Filter(b, p)| == |multiset(Filter(b, p))|;
  }

  /** The keys with this kid, in order. */
  function Group(keys: seq<Key>, kid: string): seq<Key> {
    Filter(keys, (key: Key) => key.kid == kid)
  }

  function Others(keys: seq<Key>, kid: string): seq<Key> {
    Filter(keys, (key: Key) => key.kid != kid)
  }

  /** How many keys have a smaller kid. */
  function Smaller(keys: seq<Key>, kid: string): nat {
    |Filter(keys, (key: Key) => Below(key.kid, kid))|
  }

  // ---------------------------------------------------------------------
  // The sort is stable.
  // ---------------------------------------------------------------------

  function InsertKey(key: Key, keys: seq<Key>): seq<Key> {
    if keys == [] || AtMost(key.kid, keys[0].kid) then [key] + keys else [keys[0]] + InsertKey(key, keys[1..])
  }

  /** `sort_by` on the kid. */
  function SortKeys(keys: seq<Key>): seq<Key> {
    if keys == [] then [] else InsertKey(keys[0], SortKeys(keys[1..]))
  }

  ghost predicate Ordered(keys: seq<Key>) {
    forall i, j :: 0 <= i < j < |keys| ==> AtMost(keys[i].kid, keys[j].kid)
  }

  lemma {:induction false} InsertKeyMultiset(key: Key, keys: seq<Key>)
    ensures multiset(InsertKey(key, keys)) == multiset(keys) + multiset{key}
  {
    if keys == [] || AtMost(key.kid, keys[0].kid) {
    } else {
      InsertKeyMultiset(key, keys[1..]);
      assert keys == [keys[0]] + keys[1..];
    }
  }

  lemma AtMostTransitive(a: string, b: string, c: string)
    requires AtMost(a, b) && AtMost(b, c)
    ensures AtMost(a, c)
  {
    if a != b && b != c { BelowTransitive(a, b, c); }
  }

  lemma {:induction false} InsertKeyOrdered(key: Key, keys: seq<Key>)
    requires Ordered(keys)
    ensures Ordered(InsertKey(key, keys))
  {
    if keys == [] {
    } else if AtMost(key.kid, keys[0].kid) {
      forall i | 0 <= i < |keys| ensures AtMost(key.kid, keys[i].kid) {
        if i > 0 { AtMostTransitive(key.kid, keys[0].kid, keys[i].kid); }
      }
    } else {
      InsertKeyOrdered(key, keys[1..]);
      BelowTotal(key.kid, keys[0].kid);
      var rest := InsertKey(key, keys[1..]);
      forall i | 0 <= i < |rest| ensures AtMost(keys[0].kid, rest[i].kid) {
        InsertKeyMultiset(key, keys[1..]);
        assert rest[i] in multiset(rest);
        assert rest[i] == key || rest[i] in keys[1..];
      }
    }
  }

  lemma {:induction false} InsertKeyGroup(key: Key, keys: seq<Key>, kid: string)
    ensures Group(InsertKey(key, keys), kid) == (if key.kid == kid then [key] else []) + Group(keys, kid)
  {
    if keys == [] || AtMost(key.kid, keys[0].kid) {
      assert ([key] + keys)[1..] == keys;
    } else {
      InsertKeyGroup(key, keys[1..], kid);
      assert ([keys[0]] + InsertKey(key, keys[1..]))[1..] == InsertKey(key, keys[1..]);
    }
  }

  lemma {:induction false} SortKeysFacts(keys: seq<Key>)
    ensures Ordered(SortKeys(keys))
    ensures multiset(SortKeys(keys)) == multiset(keys)
    ensures |SortKeys(keys)| == |keys|
  {
    if keys != [] {
      SortKeysFacts(keys[1..]);
      InsertKeyOrdered(keys[0], SortKeys(keys[1..]));
      InsertKeyMultiset(keys[0], SortKeys(keys[1..]));
      assert keys == [keys[0]] + keys[1..];
    }
    assert |SortKeys(keys)| == |multiset(SortKeys(keys))| == |multiset(keys)|;
  }

  lemma {:induction false} SortKeysStable(keys: seq<Key>, kid: string)
    ensures Group(SortKeys(keys), kid) == Group(keys, kid)
  {
    if keys != [] {
      SortKeysStable(keys[1..], kid);
      InsertKeyGroup(keys[0], SortKeys(keys[1..]), kid);
    }
  }

  // ---------------------------------------------------------------------
  // Truncation and fill.
  // ---------------------------------------------------------------------

  function Truncate(keys: seq<Key>, max: nat): seq<Key> {
    keys[..Min(max, |keys|)]
  }

  /** Insert in order: a later key replaces an earlier one with the same kid. */
  function Fill(keys: seq<Key>): map<string, Material> {
    if keys == [] then map[] else Fill(keys[..|keys| - 1])[keys[|keys| - 1].kid := keys[|keys| - 1].material]
  }

  function KeySet(keys: seq<Key>, max: nat): map<string, Material> {
    Fill(Truncate(SortKeys(keys), max))
  }

  lemma {:induction false} FillAt(keys: seq<Key>, kid: string)
    ensures kid in Fill(keys) <==> Group(keys, kid) != []
    ensures kid in Fill(keys) ==>
            Fill(keys)[kid] == Group(keys, kid)[|Group(keys, kid)| - 1].material
  {
    if keys != [] {
      var init, last := keys[..|keys| - 1], keys[|keys| - 1];
      FillAt(init, kid);
      assert keys == init + [last];
      FilterConcat(init, [last], (key: Key) => key.kid == kid);
      assert [last][1..] == [];
      assert Group([last], kid) == if last.kid == kid then [last] else [];
    }
  }

  lemma {:induction false} FillSize(keys: seq<Key>)
    ensures |Fill(keys)| <= |keys|
    ensures keys != [] ==> |Fill(keys)| >= 1
    ensures (forall i, j :: 0 <= i < j < |keys| ==> keys[i].kid != keys[j].kid) ==> |Fill(keys)| == |keys|
  {
    if keys != [] {
      var init, last := keys[..|keys| - 1], keys[|keys| - 1];
      FillSize(init);
      FillAt(init, last.kid);
      assert Fill(keys).Keys == Fill(init).Keys + {last.kid};
      if forall i, j :: 0 <= i < j < |keys| ==> keys[i].kid != keys[j].kid {
        FilterAll(init, (key: Key) => key.kid == last.kid);
        assert last.kid !in Fill(init);
      }
    }
  }

  /** In an ordered list the first `max` keys hold the first keys of each group, after all smaller kids. */
  lemma {:induction false} TruncatedGroup(keys: seq<Key>, max: nat, kid: string)
    requires Ordered(keys)
    ensures Group(Truncate(keys, max), kid) ==
            Group(keys, kid)[..Clamp(max - Smaller(keys, kid), 0, |Group(keys, kid)|)]
  {
    hide Group, Smaller;
    if keys == [] || max == 0 {
      assert Truncate(keys, max) == [];
      GroupNone(kid);
    } else {
      var y, rest := keys[0], keys[1..];
      TruncatedGroup(rest, max - 1, kid);
      assert keys == [y] + rest;
      assert Truncate(keys, max) == [y] + Truncate(rest, max - 1);
      GroupCons(y, rest, kid);
      GroupCons(y, Truncate(rest, max - 1), kid);
      BelowTotal(y.kid, kid);
      if !Below(y.kid, kid) {
        NothingSmaller(keys, kid);
      }
    }
  }

  lemma GroupNone(kid: string)
    ensures Group([], kid) == []
  {
  }

  lemma GroupCons(y: Key, rest: seq<Key>, kid: string)
    ensures Group([y] + rest, kid) == (if y.kid == kid then [y] else []) + Group(rest, kid)
    ensures Smaller([y] + rest, kid) == (if Below(y.kid, kid) then 1 else 0) + Smaller(rest, kid)
  {
    assert ([y] + rest)[1..] == rest;
  }

  /** In an ordered list that starts at or past a kid, nothing is smaller; past it, nothing has it. */
  lemma NothingSmaller(keys: seq<Key>, kid: string)
    requires Ordered(keys) && keys != [] && !Below(keys[0].kid, kid)
    ensures Smaller(keys[1..], kid) == 0
    ensures keys[0].kid != kid ==> Group(keys[1..], kid) == []
  {
    var rest := keys[1..];
    forall key | key in rest ensures !Below(key.kid, kid) && (keys[0].kid != kid ==> key.kid != kid) {
      var i :| 0 <= i < |rest| && rest[i] == key;
      assert AtMost(keys[0].kid, keys[i + 1].kid);
      NotBelowPast(keys[0].kid, key.kid, kid);
    }
    FilterAll(rest, (key: Key) => Below(key.kid, kid));
    FilterAll(rest, (key: Key) => key.kid == kid);
  }

  lemma NotBelowPast(y: string, z: string, kid: string)
    requires AtMost(y, z) && !Below(y, kid)
    ensures !Below(z, kid) && (y != kid ==> z != kid)
  {
    BelowTotal(y, kid);
    BelowTotal(z, kid);
    if Below(z, kid) && y != z { BelowTransitive(y, z, kid); }
  }

  /** Which key of its group a kid is cached with: the last that fits under the bound. */
  function WinnerIndex(keys: seq<Key>, max: nat, kid: string): int {
    Min(|Group(keys, kid)|, max - Smaller(keys, kid)) - 1
  }

  predicate Retained(keys: seq<Key>, max: nat, kid: string) {
    Group(keys, kid) != [] && Smaller(keys, kid) < max
  }

  /**
   * The cached key set, read off the accepted keys: a kid is cached when fewer than `max` accepted keys
   * have a smaller one, with the last key of its group that the bound leaves room for.
   */
  lemma KeySetExactly(keys: seq<Key>, max: nat, kid: string)
    ensures kid in KeySet(keys, max) <==> Retained(keys, max, kid)
    ensures Retained(keys, max, kid) ==>
            && 0 <= WinnerIndex(keys, max, kid) < |Group(keys, kid)|
            && KeySet(keys, max)[kid] == Group(keys, kid)[WinnerIndex(keys, max, kid)].material
  {
    var sorted := SortKeys(keys);
    SortKeysFacts(keys);
    SortKeysStable(keys, kid);
    FilterPermuted(sorted, keys, (key: Key) => Below(key.kid, kid));
    TruncatedGroup(sorted, max, kid);
    FillAt(Truncate(sorted, max), kid);
  }

  /** A successful fetch caches between one key and the bound; with distinct kids exactly as many as fit. */
  lemma KeySetSize(keys: seq<Key>, max: nat)
    requires keys != [] && max >= 1
    ensures 1 <= |KeySet(keys, max)| <= max
    ensures (forall i, j :: 0 <= i < j < |keys| ==> keys[i].kid != keys[j].kid) ==>
            |KeySet(keys, max)| == Min(|keys|, max)
  {
    SortKeysFacts(keys);
    var kept := Truncate(SortKeys(keys), max);
    FillSize(kept);
    if forall i, j :: 0 <= i < j < |keys| ==> keys[i].kid != keys[j].kid {
      forall i, j | 0 <= i < j < |kept| ensures kept[i].kid != kept[j].kid {
        DistinctAfterSort(keys, i, j);
      }
    }
  }

  lemma DistinctAfterSort(keys: seq<Key>, i: nat, j: nat)
    requires forall a, b :: 0 <= a < b < |keys| ==> keys[a].kid != keys[b].kid
    requires i < j < |SortKeys(keys)|
    ensures SortKeys(keys)[i].kid != SortKeys(keys)[j].kid
  {
    var sorted := SortKeys(keys);
    SortKeysStable(keys, sorted[j].kid);
    AtMostOne(keys, sorted[j].kid);
    TwoInGroup(sorted, i, j);
  }

  lemma TwoInGroup(keys: seq<Key>, i: nat, j: nat)
    requires i < j < |keys|
    ensures keys[i].kid == keys[j].kid ==> |Group(keys, keys[j].kid)| >= 2
  {
    var kid := keys[j].kid;
    var p := (key: Key) => key.kid == kid;
    assert keys == keys[..j] + keys[j..];
    FilterConcat(keys[..j], keys[j..], p);
    FilterHit(keys[j..], p, 0);
    if keys[i].kid == kid { FilterHit(keys[..j], p, i); }
  }

  lemma {:induction false} FilterHit(keys: seq<Key>, p: Key -> bool, i: nat)
    requires i < |keys| && p(keys[i])
    ensures |Filter(keys, p)| >= 1
  {
    if i > 0 { FilterHit(keys[1..], p, i - 1); }
  }

  lemma {:induction false} AtMostOne(keys: seq<Key>, kid: string)
    requires forall a, b :: 0 <= a < b < |keys| ==> keys[a].kid != keys[b].kid
    ensures |Group(keys, kid)| <= 1
  {
    if keys != [] {
      if keys[0].kid == kid {
        FilterAll(keys[1..], (key: Key) => key.kid == kid);
      } else {
        AtMostOne(keys[1..], kid);
      }
    }
  }

  // ---------------------------------------------------------------------
  // When the order of the served keys does not matter.
  // ---------------------------------------------------------------------

  /** Every cached kid was served with one material only. */
  ghost predicate OneMaterialEach(keys: seq<Key>, max: nat) {
    forall kid, i, j :: Retained(keys, max, kid) && 0 <= i < |Group(keys, kid)| && 0 <= j < |Group(keys, kid)| ==>
      Group(keys, kid)[i].material == Group(keys, kid)[j].material
  }

  ghost predicate OrderIndependent(keys: seq<Key>, max: nat) {
    forall other :: multiset(other) == multiset(keys) ==> KeySet(other, max) == KeySet(keys, max)
  }

  lemma SameKeySet(keys: seq<Key>, other: seq<Key>, max: nat)
    requires OneMaterialEach(keys, max) && multiset(other) == multiset(keys)
    ensures KeySet(other, max) == KeySet(keys, max)
  {
    forall kid
      ensures kid in KeySet(other, max) <==> kid in KeySet(keys, max)
      ensures kid in KeySet(keys, max) ==> KeySet(other, max)[kid] == KeySet(keys, max)[kid]
    {
      KeySetExactly(keys, max, kid);
      KeySetExactly(other, max, kid);
      FilterPermuted(other, keys, (key: Key) => key.kid == kid);
      FilterPermuted(other, keys, (key: Key) => Below(key.kid, kid));
      if Retained(keys, max, kid) {
        var key := Group(other, kid)[WinnerIndex(other, max, kid)];
        assert key in multiset(Group(other, kid));
        assert key in Group(keys, kid);
      }
    }
  }

  /** Two materials under one cached kid: some other order of the same keys caches the other material. */
  lemma OtherOrder(keys: seq<Key>, max: nat, kid: string, j: nat) returns (other: seq<Key>)
    requires Retained(keys, max, kid) && j < |Group(keys, kid)|
    requires 0 <= WinnerIndex(keys, max, kid) < |Group(keys, kid)|
    requires Group(keys, kid)[j].material != Group(keys, kid)[WinnerIndex(keys, max, kid)].material
    ensures multiset(other) == multiset(keys) && KeySet(other, max) != KeySet(keys, max)
  {
    hide Group, Smaller, Others, KeySet;
    var group, w := Group(keys, kid), WinnerIndex(keys, max, kid);
    var swapped := group[w := group[j]][j := group[w]];
    other := swapped + Others(keys, kid);
    assert multiset(swapped) == multiset(group);
    SplitMultiset(keys, kid, swapped);
    RegroupedFront(keys, kid, swapped);
    SmallerPermuted(other, keys, kid);
    KeySetExactly(keys, max, kid);
    KeySetExactly(other, max, kid);
  }

  lemma SmallerPermuted(a: seq<Key>, b: seq<Key>, kid: string)
    requires multiset(a) == multiset(b)
    ensures Smaller(a, kid) == Smaller(b, kid)
  {
    FilterPermuted(a, b, (key: Key) => Below(key.kid, kid));
  }

  lemma RegroupedFront(keys: seq<Key>, kid: string, swapped: seq<Key>)
    requires multiset(swapped) == multiset(Group(keys, kid))
    ensures Group(swapped + Others(keys, kid), kid) == swapped
  {
    var same := (key: Key) => key.kid == kid;
    FilterAll(keys, same);
    FilterAll(keys, (key: Key) => key.kid != kid);
    forall key | key in swapped ensures key.kid == kid {
      assert key in multiset(swapped);
      assert key in Group(keys, kid);
    }
    FilterAll(swapped, same);
    FilterAll(Others(keys, kid), same);
    FilterConcat(swapped, Others(keys, kid), same);
  }

  lemma SplitMultiset(keys: seq<Key>, kid: string, swapped: seq<Key>)
    requires multiset(swapped) == multiset(Group(keys, kid))
    ensures multiset(swapped + Others(keys, kid)) == multiset(keys)
  {
    forall key ensures multiset(swapped + Others(keys, kid))[key] == multiset(keys)[key] {
      FilterCount(keys, (k: Key) => k.kid == kid, key);
      FilterCount(keys, (k: Key) => k.kid != kid, key);
    }
  }

  /** The cache does not depend on the order of the served keys exactly when no cached kid has two materials. */
  lemma OrderIndependentExactly(keys: seq<Key>, max: nat)
    ensures OrderIndependent(keys, max) <==> OneMaterialEach(keys, max)
  {
    if OneMaterialEach(keys, max) {
      forall other | multiset(other) == multiset(keys) ensures KeySet(other, max) == KeySet(keys, max) {
        SameKeySet(keys, other, max);
      }
    } else {
      var kid, i, j :| Retained(keys, max, kid) && 0 <= i < |Group(keys, kid)| && 0 <= j < |Group(keys, kid)|
                       && Group(keys, kid)[i].material != Group(keys, kid)[j].material;
      KeySetExactly(keys, max, kid);
      var w := WinnerIndex(keys, max, kid);
      var odd := if Group(keys, kid)[i].material != Group(keys, kid)[w].material then i else j;
      var other := OtherOrder(keys, max, kid, odd);
    }
  }

  const KID: string := "k"

  function Served(modulus: string): ServedKey {
    ServedKey(KID, "RSA", "RS256", modulus, "AQAB", "", "", "")
  }

  /** One kid served with two materials: the two orders of the document cache different keys. */
  lemma TwoMaterialsOneKid()
    ensures multiset([Served("n1"), Served("n2")]) == multiset([Served("n2"), Served("n1")])
    ensures KeySet(Accepted([Served("n1"), Served("n2")]), 32) != KeySet(Accepted([Served("n2"), Served("n1")]), 32)
  {
    PairAccepted("n1", "n2");
    PairAccepted("n2", "n1");
    PairCachesLast(Key(KID, Rsa("n1", "AQAB")), Key(KID, Rsa("n2", "AQAB")));
    PairCachesLast(Key(KID, Rsa("n2", "AQAB")), Key(KID, Rsa("n1", "AQAB")));
  }

  lemma {:induction false} ByteLenBound(s: string)
    ensures ByteLen(s) <= 4 * |s|
  {
    if s != "" { ByteLenBound(s[1..]); }
  }

  lemma ServedAccepted(modulus: string)
    requires 0 < |modulus| <= 256
    ensures AcceptKey(Served(modulus)) == Some(Key(KID, Rsa(modulus, "AQAB")))
  {
    hide ByteLen;
    ByteLenBound(KID);
    ByteLenBound(modulus);
    ByteLenBound("AQAB");
    ByteLenBound("");
  }

  lemma PairAccepted(a: string, b: string)
    requires 0 < |a| <= 256 && 0 < |b| <= 256
    ensures Accepted([Served(a), Served(b)]) == [Key(KID, Rsa(a, "AQAB")), Key(KID, Rsa(b, "AQAB"))]
  {
    hide AcceptKey;
    var doc := [Served(a), Served(b)];
    ServedAccepted(a);
    ServedAccepted(b);
    assert doc[..1] == [Served(a)] && doc[..1][..0] == [];
    assert Accepted(doc[..1]) == [Key(KID, Rsa(a, "AQAB"))];
  }

  lemma PairCachesLast(a: Key, b: Key)
    requires a.kid == KID && b.kid == KID
    ensures KID in KeySet([a, b], 32) && KeySet([a, b], 32)[KID] == b.material
  {
    hide KeySet;
    var keys := [a, b];
    KeySetExactly(keys, 32, KID);
    FilterAll(keys, (key: Key) => key.kid == KID);
    FilterAll(keys, (key: Key) => Below(key.kid, KID));
    BelowTotal(KID, KID);
  }

  /** Reordering the served document only reorders the accepted keys. */
  lemma {:induction false} AcceptedCount(doc: seq<ServedKey>, key: Key)
    ensures multiset(Accepted(doc))[key] == |Matches(doc, key)|
  {
    if doc != [] {
      AcceptedCount(doc[..|doc| - 1], key);
    }
  }

  /** The served keys that are accepted as `key`. */
  ghost function Matches(doc: seq<ServedKey>, key: Key): multiset<ServedKey> {
    if doc == [] then multiset{}
    else
      Matches(doc[..|doc| - 1], key) +
      if AcceptKey(doc[|doc| - 1]) == Some(key) then multiset{doc[|doc| - 1]} else multiset{}
  }

  lemma {:induction false} MatchesCount(doc: seq<ServedKey>, key: Key, served: ServedKey)
    ensures Matches(doc, key)[served] == if AcceptKey(served) == Some(key) then multiset(doc)[served] else 0
  {
    if doc != [] {
      MatchesCount(doc[..|doc| - 1], key, served);
      assert doc == doc[..|doc| - 1] + [doc[|doc| - 1]];
    }
  }

  lemma AcceptedPermuted(doc: seq<ServedKey>, doc': seq<ServedKey>)
    requires multiset(doc) == multiset(doc')
    ensures multiset(Accepted(doc)) == multiset(Accepted(doc'))
  {
    forall key ensures multiset(Accepted(doc))[key] == multiset(Accepted(doc'))[key] {
      AcceptedCount(doc, key);
      AcceptedCount(doc', key);
      forall served ensures Matches(doc, key)[served] == Matches(doc', key)[served] {
        MatchesCount(doc, key, served);
        MatchesCount(doc', key, served);
      }
      assert Matches(doc, key) == Matches(doc', key);
    }
  }

  /** When no cached kid has two materials, any permutation of the served document yields the same cache. */
  lemma PermutedDocument(doc: seq<ServedKey>, doc': seq<ServedKey>, max: nat)
    requires multiset(doc) == multiset(doc')
    requires OneMaterialEach(Accepted(doc), max)
    ensures KeySet(Accepted(doc'), max) == KeySet(Accepted(doc), max)
  {
    AcceptedPermuted(doc, doc');
    SameKeySet(Accepted(doc), Accepted(doc'), max);
  }

  lemma DistinctKidsHaveOneMaterial(keys: seq<Key>, max: nat)
    requires forall i, j :: 0 <= i < j < |keys| ==> keys[i].kid != keys[j].kid
    ensures OneMaterialEach(keys, max)
  {
    forall kid ensures |Group(keys, kid)| <= 1 { AtMostOne(keys, kid); }
  }

  // ---------------------------------------------------------------------
  // The fetch itself.
  // ---------------------------------------------------------------------

  datatype CachedKey = CachedKey(material: Material, inserted: nat)

  type Cache = map<string, CachedKey>

  /** Every key of a set, stamped with the time of the refresh. */
  function Stamp(keys: map<string, Material>, now: nat): Cache {
    map kid | kid in keys :: CachedKey(keys[kid], now)
  }

  /** The response body, unless a chunk fails or the total passes the cap. */
  method ReadBody(chunks: seq<Option<seq<byte>>>, cap: nat) returns (body: Option<seq<byte>>)
    ensures body.Some? <==> (forall i :: 0 <= i < |chunks| ==> chunks[i].Some?) && |Concat(Payloads(chunks))| <= cap
    ensures body.Some? ==> body.value == Concat(Payloads(chunks))
  {
    var buffer: seq<byte> := [];
    for i := 0 to |chunks|
      invariant forall k :: 0 <= k < i ==> chunks[k].Some?
      invariant buffer == Concat(Payloads(chunks[..i])) && |buffer| <= cap
    {
      if chunks[i].None? {
        return None;
      }
      PayloadsSnoc(chunks, i);
      if |buffer| + |chunks[i].value| > cap {
        PayloadsGrow(chunks, i + 1);
        return None;
      }
      buffer := buffer + chunks[i].value;
    }
    assert chunks[..|chunks|] == chunks;
    return Some(buffer);
  }

  function Payloads(chunks: seq<Option<seq<byte>>>): (payloads: seq<seq<byte>>)
    ensures |payloads| == |chunks|
  {
    seq(|chunks|, i requires 0 <= i < |chunks| => if chunks[i].Some? then chunks[i].value else [])
  }

  lemma PayloadsSnoc(chunks: seq<Option<seq<byte>>>, i: nat)
    requires i < |chunks| && chunks[i].Some?
    ensures Concat(Payloads(chunks[..i + 1])) == Concat(Payloads(chunks[..i])) + chunks[i].value
  {
    var all := Payloads(chunks[..i + 1]);
    assert all[..|all| - 1] == Payloads(chunks[..i]);
  }

  lemma {:induction false} PayloadsGrow(chunks: seq<Option<seq<byte>>>, i: nat)
    requires i <= |chunks|
    ensures |Concat(Payloads(chunks[..i]))| <= |Concat(Payloads(chunks))|
    decreases |chunks|
  {
    if i == |chunks| {
      assert chunks[..i] == chunks;
    } else {
      var init := chunks[..|chunks| - 1];
      assert init[..i] == chunks[..i];
      PayloadsGrow(init, i);
      var all := Payloads(chunks);
      assert all[..|all| - 1] == Payloads(init);
    }
  }

  /** Accept, sort, truncate and refill the cache; nothing is returned when no key is usable. */
  method Refresh(doc: seq<ServedKey>, max: nat, now: nat) returns (cache: Option<Cache>)
    ensures cache == if Accepted(doc) == [] then None else Some(Stamp(KeySet(Accepted(doc), max), now))
  {
    var usable: seq<Key> := [];
    for i := 0 to |doc|
      invariant usable == Accepted(doc[..i])
    {
      assert doc[..i + 1][..i] == doc[..i];
      var accepted := AcceptKey(doc[i]);
      if accepted.Some? {
        usable := usable + [accepted.value];
      }
    }
    assert doc[..|doc|] == doc;
    if usable == [] {
      return None;
    }
    usable := SortKeys(usable);
    if |usable| > max {
      usable := usable[..max];
    }
    var filled: Cache := map[];
    for i := 0 to |usable|
      invariant filled == Stamp(Fill(usable[..i]), now)
    {
      assert usable[..i + 1][..i] == usable[..i];
      filled := filled[usable[i].kid := CachedKey(usable[i].material, now)];
    }
    assert usable[..|usable|] == usable;
    return Some(filled);
  }
}
