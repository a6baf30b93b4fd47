/** Pages of a list: the slice, the `hasnext` flag, and the query string they are asked with. */
module Pagination {
  import opened Prelude
  import opened Text

  const DEFAULT_PAGE := 1
  const DEFAULT_LIMIT := 100
  const MAX_LIMIT := 1000

  // ---------------------------------------------------------------------
  // Slicing.
  // ---------------------------------------------------------------------

  function Start(count: nat, page: nat, limit: nat): (start: nat)
    ensures start <= count
  {
    Min((Max(page, 1) - 1) * limit, count)
  }

  function Paginate<T>(items: seq<T>, page: nat, limit: nat): seq<T> {
    if limit == 0 || items == [] then []
    else
      var start := Start(|items|, page, limit);
      items[start..Min(start + limit, |items|)]
  }

  predicate HasNext(page: nat, limit: nat, count: nat) {
    page * limit < count
  }

  /** No intermediate value leaves 64 bits when page and limit are 32-bit and the list fits in memory. */
  lemma NoOverflow(count: nat, page: nat, limit: nat)
    requires page <= U32_MAX && limit <= U32_MAX && count <= U64_MAX / 2
    ensures page * limit <= U64_MAX && (Max(page, 1) - 1) * limit <= U64_MAX
    ensures Start(count, page, limit) + limit <= U64_MAX
  {
    Product(page, limit, U32_MAX);
    Product(Max(page, 1) - 1, limit, U32_MAX);
  }

  lemma Product(a: nat, b: nat, bound: nat)
    requires a <= bound && b <= bound
    ensures a * b <= bound * bound
  {
    assert a * b <= bound * b <= bound * bound;
  }

  function Pages<T>(items: seq<T>, n: nat, limit: nat): seq<seq<T>> {
    if n == 0 then [] else Pages(items, n - 1, limit) + [Paginate(items, n, limit)]
  }

  /** How many rows the first `n` pages cover. */
  function Covered(count: nat, n: nat, limit: nat): (rows: nat)
    ensures rows <= count
  {
    Min(n * limit, count)
  }

  /** Page `n` holds the rows between two multiples of the limit. */
  lemma PageRows<T>(items: seq<T>, n: nat, limit: nat)
    requires limit > 0 && n > 0
    ensures Covered(|items|, n - 1, limit) <= Covered(|items|, n, limit)
    ensures Paginate(items, n, limit) == items[Covered(|items|, n - 1, limit)..Covered(|items|, n, limit)]
  {
    assert n * limit == (n - 1) * limit + limit;
  }

  lemma NoPages(count: nat, limit: nat)
    ensures Covered(count, 0, limit) == 0
  {
  }

  /** The first pages, one after the other, are the first rows: nothing is skipped, repeated or moved. */
  lemma {:induction false} PagesConcatenate<T>(items: seq<T>, n: nat, limit: nat)
    requires limit > 0
    ensures Concat(Pages(items, n, limit)) == items[..Covered(|items|, n, limit)]
  {
    hide Paginate, Covered;
    if n == 0 {
      NoPages(|items|, limit);
    } else {
      PagesConcatenate(items, n - 1, limit);
      PageRows(items, n, limit);
      var pages := Pages(items, n, limit);
      assert pages[..|pages| - 1] == Pages(items, n - 1, limit);
      var start, end := Covered(|items|, n - 1, limit), Covered(|items|, n, limit);
      assert items[..start] + items[start..end] == items[..end];
    }
  }

  /** Enough pages give the whole list back. */
  lemma PagesCover<T>(items: seq<T>, n: nat, limit: nat)
    requires limit > 0 && n * limit >= |items|
    ensures Concat(Pages(items, n, limit)) == items
  {
    PagesConcatenate(items, n, limit);
    assert items[..|items|] == items;
  }

  /**
   * `hasnext` tells truly whether the page after this one has rows exactly when there are no rows, or the
   * limit is not zero and either the page is not zero (page zero is served as page one) or two pages are needed.
   */
  lemma HasNextExactly<T>(items: seq<T>, page: nat, limit: nat)
    ensures (HasNext(page, limit, |items|) <==> Paginate(items, Max(page, 1) + 1, limit) != []) <==>
            items == [] || (limit > 0 && (page > 0 || |items| > limit))
  {
    if page > 0 {
      assert (Max(Max(page, 1) + 1, 1) - 1) * limit == page * limit;
      if limit == 0 { assert page * limit == 0; }
    } else {
      assert page * limit == 0;
      assert (Max(2, 1) - 1) * limit == limit;
    }
  }

  /** One row at limit zero, and one row at page zero: no next page has rows, and the flag says there is one. */
  lemma HasNextWrong()
    ensures HasNext(1, 0, |[7]|) && Paginate([7], 2, 0) == []
    ensures HasNext(0, 10, |[7]|) && Paginate([7], Max(0, 1), 10) == [7] && Paginate([7], 2, 10) == []
  {
    assert [7][0..1] == [7];
    HasNextExactly([7], 0, 10);
  }

  // ---------------------------------------------------------------------
  // The query string.
  // ---------------------------------------------------------------------

  datatype PageParams = PageParams(page: nat, limit: nat)

  function Clamp(n: nat): nat {
    Max(1, Min(n, MAX_LIMIT))
  }

  /** A limit from 1 to 1000 is kept; zero becomes one and more than that becomes 1000. */
  lemma ClampExactly(n: nat)
    ensures 1 <= n <= 1000 ==> Clamp(n) == n
    ensures n == 0 ==> Clamp(n) == 1
    ensures n > 1000 ==> Clamp(n) == 1000
  {
  }

  /** The value of a `key=value` pair, if it is one and holds a 32-bit number. */
  function NumberFor(pair: string, key: string): Option<nat> {
    var i := IndexOf(pair, '=');
    if i == |pair| || pair[..i] != key then None else ParseU32(pair[i + 1..])
  }

  /** The last pair that gives the key a number decides. */
  function LastNumber(pairs: seq<string>, key: string, default: nat): nat {
    if pairs == [] then default
    else match NumberFor(pairs[|pairs| - 1], key)
      case Some(n) => n
      case None => LastNumber(pairs[..|pairs| - 1], key, default)
  }

  lemma NoNumber(key: string, default: nat)
    ensures LastNumber([], key, default) == default
  {
  }

  lemma LastNumberSnoc(pairs: seq<string>, i: nat, key: string, default: nat)
    requires i < |pairs|
    ensures LastNumber(pairs[..i + 1], key, default) ==
            match NumberFor(pairs[i], key)
            case Some(n) => n
            case None => LastNumber(pairs[..i], key, default)
  {
    assert pairs[..i + 1][..i] == pairs[..i];
  }

  function Params(query: Option<string>): PageParams {
    var pairs := match query case Some(q) => Split(q, '&') case None => [];
    PageParams(Max(LastNumber(pairs, "page", DEFAULT_PAGE), 1), Clamp(LastNumber(pairs, "limit", DEFAULT_LIMIT)))
  }

  method FromQuery(query: Option<string>) returns (r: PageParams)
    ensures r == Params(query)
    ensures r.page >= 1 && 1 <= r.limit <= MAX_LIMIT
  {
    hide LastNumber, ParseU32, Split;
    var page, limit := DEFAULT_PAGE, DEFAULT_LIMIT;
    NoNumber("page", DEFAULT_PAGE);
    NoNumber("limit", DEFAULT_LIMIT);
    if query.Some? {
      var pairs := Split(query.value, '&');
      assert pairs[..0] == [];
      for i := 0 to |pairs|
        invariant page == LastNumber(pairs[..i], "page", DEFAULT_PAGE)
        invariant limit == LastNumber(pairs[..i], "limit", DEFAULT_LIMIT)
      {
        LastNumberSnoc(pairs, i, "page", DEFAULT_PAGE);
        LastNumberSnoc(pairs, i, "limit", DEFAULT_LIMIT);
        var eq := IndexOf(pairs[i], '=');
        if eq < |pairs[i]| {
          var key, value := pairs[i][..eq], ParseU32(pairs[i][eq + 1..]);
          if key == "page" && value.Some? {
            page := value.value;
          } else if key == "limit" && value.Some? {
            limit := value.value;
          }
        }
      }
      assert pairs[..|pairs|] == pairs;
    }
    r := PageParams(Max(page, 1), Clamp(limit));
  }

  lemma {:induction false} SplitLast(a: string, c: char, b: string)
    requires c !in b
    ensures Split(a + [c] + b, c) == Split(a, c) + [b]
  {
    var s := a + [c] + b;
    if a == "" {
      assert s[1..] == b;
      SplitWhole(b, c);
    } else {
      assert s[1..] == a[1..] + [c] + b;
      SplitLast(a[1..], c, b);
    }
  }

  lemma {:induction false} FirstIndex(a: string, c: char, b: string)
    requires c !in a
    ensures IndexOf(a + [c] + b, c) == |a|
  {
    if a != "" {
      assert (a + [c] + b)[1..] == a[1..] + [c] + b;
      FirstIndex(a[1..], c, b);
    }
  }

  lemma KeyedNumber(key: string, value: string, asked: string)
    requires '=' !in key
    ensures NumberFor(key + "=" + value, asked) == if key == asked then ParseU32(value) else None
  {
    var pair := key + "=" + value;
    FirstIndex(key, '=', value);
    assert pair[..|key|] == key && pair[|key| + 1..] == value;
  }

  /** One more `page` pair replaces the page when it holds a number, and is as if absent when it does not. */
  lemma LaterPageWins(query: string, value: string)
    requires '&' !in value
    ensures Params(Some(query + "&" + ("page=" + value))) ==
            match ParseU32(value)
            case Some(n) => Params(Some(query)).(page := Max(n, 1))
            case None => Params(Some(query))
  {
    hide NumberFor, ParseU32;
    var pair := "page" + "=" + value;
    assert pair == "page=" + value;
    SplitLast(query, '&', pair);
    var pairs := Split(query, '&') + [pair];
    assert pairs[..|pairs| - 1] == Split(query, '&');
    KeyedNumber("page", value, "page");
    KeyedNumber("page", value, "limit");
  }

  lemma LaterLimitWins(query: string, value: string)
    requires '&' !in value
    ensures Params(Some(query + "&" + ("limit=" + value))) ==
            match ParseU32(value)
            case Some(n) => Params(Some(query)).(limit := Clamp(n))
            case None => Params(Some(query))
  {
    hide NumberFor, ParseU32;
    var pair := "limit" + "=" + value;
    assert pair == "limit=" + value;
    SplitLast(query, '&', pair);
    var pairs := Split(query, '&') + [pair];
    assert pairs[..|pairs| - 1] == Split(query, '&');
    KeyedNumber("limit", value, "page");
    KeyedNumber("limit", value, "limit");
  }

  /** Numbers printed into a query come back, brought into range, whatever stood before them. */
  lemma PrintedQuery(query: string, page: nat, limit: nat)
    requires page <= U32_MAX && limit <= U32_MAX
    ensures Params(Some(query + "&" + ("page=" + PrintNat(page)) + "&" + ("limit=" + PrintNat(limit)))) ==
            PageParams(Max(page, 1), Clamp(limit))
  {
    PrintedParses(page);
    PrintedParses(limit);
    DigitsOnly(PrintNat(page), '&');
    DigitsOnly(PrintNat(limit), '&');
    LaterPageWins(query, PrintNat(page));
    LaterLimitWins(query + "&" + ("page=" + PrintNat(page)), PrintNat(limit));
  }

  lemma DigitsOnly(s: string, c: char)
    requires AllDigits(s) && !IsDigit(c)
    ensures c !in s
  {
    forall i | 0 <= i < |s| ensures s[i] != c {
      assert IsDigit(s[i]);
    }
  }
}
