/**
 * Console sockets: what a packet does to the connection gauge, the router and the session mirror, and what
 * the teardown of a socket takes back.
 */
module Console {
  import opened Prelude
  import opened RemainingLength
  import opened Framing
  import opened Packets
  import Chain

  const MAX_SUBSCRIPTIONS := 100000

  /** A router entry: the connection that made it and the granted QoS. */
  datatype Entry = Entry(conn: nat, qos: QoS)

  /** Router entries are keyed by filter and client id. */
  type Key = (Bytes, Bytes)

  datatype Stored = Stored(
    conn: Option<nat>, connected: bool, cleanStart: bool, username: Option<Bytes>, filters: map<Bytes, QoS>)

  /** The connection gauge, the router, the session mirror, and the slots taken per user (none when absent). */
  datatype Shared = Shared(
    gauge: int, router: map<Key, Entry>, sessions: map<Bytes, Stored>, slots: map<Bytes, nat>)

  /** The session of one socket: its client id and every filter granted on it, in order. */
  datatype Attached = Attached(client: Bytes, filters: seq<Bytes>)

  /** An access rule in force; the first that matches decides. */
  datatype AccessRule = AccessRule(client: Bytes, publish: bool, subscribe: bool, topic: Bytes, allow: bool)

  /**
   * What the packet handler asks of its surroundings. `matches` tells whether a pattern is a legal filter that
   * matches a name, `covers` whether a pattern covers a requested filter.
   */
  datatype Env = Env(
    builtIn: bool,
    users: nat,
    authenticates: Connect -> bool,
    limit: Option<nat>,
    access: seq<AccessRule>,
    matches: (Bytes, Bytes) -> bool,
    covers: (Bytes, Bytes) -> bool,
    sent: bool)

  /**
   * A filter whose only `#` is last and follows a character outside ASCII. The check of that character cuts
   * the text inside it, which panics: the socket's task unwinds past its teardown.
   */
  predicate Panics(filter: Bytes) {
    && |filter| >= 2 && filter[|filter| - 1] == 0x23 && 0x23 !in filter[..|filter| - 1]
    && filter[|filter| - 2] >= 0x80
  }

  // ---------------------------------------------------------------------
  // Authorisation.
  // ---------------------------------------------------------------------

  datatype Deed = Publishing | Subscribing

  /** Allowed, denied, or a panic in the check of a rule's own pattern. */
  datatype Answer = Allowed | Denied | Broken

  predicate NamesClient(r: AccessRule, client: Bytes) {
    r.client == [0x2A] || r.client == client
  }

  predicate ForClient(r: AccessRule, client: Bytes, env: Env) {
    NamesClient(r, client) || ((0x2B in r.client || 0x23 in r.client) && env.matches(r.client, client))
  }

  predicate ForDeed(r: AccessRule, deed: Deed) {
    if deed == Publishing then r.publish else r.subscribe
  }

  /**
   * The scan panics at this rule: at its client pattern, or when publishing at the topic pattern of a rule that
   * applies.
   */
  predicate Breaks(r: AccessRule, client: Bytes, deed: Deed, env: Env) {
    || (!NamesClient(r, client) && Panics(r.client))
    || (ForClient(r, client, env) && ForDeed(r, deed) && deed == Publishing && Panics(r.topic))
  }

  predicate Decides(r: AccessRule, client: Bytes, deed: Deed, subject: Bytes, env: Env) {
    && ForClient(r, client, env) && ForDeed(r, deed)
    && (if deed == Publishing then env.matches(r.topic, subject) else env.covers(r.topic, subject))
  }

  function Scan(rules: seq<AccessRule>, client: Bytes, deed: Deed, subject: Bytes, env: Env): Answer {
    if rules == [] then Denied
    else if Breaks(rules[0], client, deed, env) then Broken
    else if Decides(rules[0], client, deed, subject, env) then if rules[0].allow then Allowed else Denied
    else Scan(rules[1..], client, deed, subject, env)
  }

  /** Without rules everything is allowed. */
  function Ask(client: Bytes, deed: Deed, subject: Bytes, env: Env): Answer {
    if env.access == [] then Allowed else Scan(env.access, client, deed, subject, env)
  }

  /** No rule before this one panics or decides. */
  ghost predicate Reached(rules: seq<AccessRule>, i: nat, client: Bytes, deed: Deed, subject: Bytes, env: Env) {
    i <= |rules| &&
    forall j :: 0 <= j < i ==> !Breaks(rules[j], client, deed, env) && !Decides(rules[j], client, deed, subject, env)
  }

  lemma {:induction false} ScanExactly(rules: seq<AccessRule>, client: Bytes, deed: Deed, subject: Bytes, env: Env)
    ensures Scan(rules, client, deed, subject, env) == Broken <==>
            exists i :: 0 <= i < |rules|
              && Reached(rules, i, client, deed, subject, env) && Breaks(rules[i], client, deed, env)
    ensures Scan(rules, client, deed, subject, env) == Allowed <==>
            exists i :: 0 <= i < |rules| && Reached(rules, i, client, deed, subject, env)
              && !Breaks(rules[i], client, deed, env) && Decides(rules[i], client, deed, subject, env) && rules[i].allow
  {
    hide Breaks, Decides;
    if rules != [] {
      var rest := rules[1..];
      ScanExactly(rest, client, deed, subject, env);
      assert Reached(rules, 0, client, deed, subject, env);
      if !Breaks(rules[0], client, deed, env) && !Decides(rules[0], client, deed, subject, env) {
        forall i | 0 <= i < |rest|
          ensures Reached(rest, i, client, deed, subject, env) <==> Reached(rules, i + 1, client, deed, subject, env)
        {
          assert forall j :: 0 <= j < i ==> rest[j] == rules[j + 1];
          assert forall j :: 1 <= j < i + 1 ==> rules[j] == rest[j - 1];
        }
        assert forall i :: 1 <= i < |rules| ==> rules[i] == rest[i - 1];
        assert forall i :: 0 <= i < |rest| ==> rest[i] == rules[i + 1];
      } else {
        assert forall i :: 0 < i && Reached(rules, i, client, deed, subject, env) ==>
               !Breaks(rules[0], client, deed, env);
        assert forall i :: 0 < i && Reached(rules, i, client, deed, subject, env) ==>
               !Decides(rules[0], client, deed, subject, env);
      }
    }
  }

  /**
   * Authorisation panics exactly when some rule panics that no rule before it decides, and allows exactly when the
   * first that decides does.
   */
  lemma AskExactly(client: Bytes, deed: Deed, subject: Bytes, env: Env)
    ensures Ask(client, deed, subject, env) == Broken <==> RuleBreaks(client, deed, subject, env)
    ensures Ask(client, deed, subject, env) == Allowed <==>
            || env.access == []
            || exists i :: 0 <= i < |env.access| && Reached(env.access, i, client, deed, subject, env)
                 && !Breaks(env.access[i], client, deed, env)
                 && Decides(env.access[i], client, deed, subject, env) && env.access[i].allow
  {
    hide Breaks, Decides, Scan, Reached;
    ScanExactly(env.access, client, deed, subject, env);
  }

  /** The client pattern is `*`, the client id itself, or has a wildcard and matches it. */
  ghost predicate NamedBy(pattern: Bytes, client: Bytes, env: Env) {
    || pattern == [0x2A]
    || pattern == client
    || ((exists i :: 0 <= i < |pattern| && (pattern[i] == 0x2B || pattern[i] == 0x23)) && env.matches(pattern, client))
  }

  /** A rule on publishing that matches the client and the topic. */
  ghost predicate OnPublish(r: AccessRule, client: Bytes, topic: Bytes, env: Env) {
    NamedBy(r.client, client, env) && r.publish && env.matches(r.topic, topic)
  }

  /** A rule on subscribing that matches the client and covers the filter. */
  ghost predicate OnSubscribe(r: AccessRule, client: Bytes, filter: Bytes, env: Env) {
    NamedBy(r.client, client, env) && r.subscribe && env.covers(r.topic, filter)
  }

  /** Some rule allows, and no rule before it matches. */
  ghost predicate FirstAllows(rules: seq<AccessRule>, matching: AccessRule -> bool) {
    exists i :: 0 <= i < |rules| && rules[i].allow && matching(rules[i])
      && forall j :: 0 <= j < i ==> !matching(rules[j])
  }

  /** Without a panic a publish is allowed exactly when there are no rules or the first that matches it allows. */
  lemma PublishAllowedExactly(client: Bytes, topic: Bytes, env: Env)
    requires Ask(client, Publishing, topic, env) != Broken
    ensures Ask(client, Publishing, topic, env) == Allowed <==>
            env.access == [] || FirstAllows(env.access, r => OnPublish(r, client, topic, env))
  {
    hide Ask;
    forall r ensures Decides(r, client, Publishing, topic, env) <==> OnPublish(r, client, topic, env) {}
    AllowedExactly(client, Publishing, topic, env, r => OnPublish(r, client, topic, env));
  }

  lemma SubscribeAllowedExactly(client: Bytes, filter: Bytes, env: Env)
    requires Ask(client, Subscribing, filter, env) != Broken
    ensures Ask(client, Subscribing, filter, env) == Allowed <==>
            env.access == [] || FirstAllows(env.access, r => OnSubscribe(r, client, filter, env))
  {
    hide Ask;
    forall r ensures Decides(r, client, Subscribing, filter, env) <==> OnSubscribe(r, client, filter, env) {}
    AllowedExactly(client, Subscribing, filter, env, r => OnSubscribe(r, client, filter, env));
  }

  lemma AllowedExactly(client: Bytes, deed: Deed, subject: Bytes, env: Env, matching: AccessRule -> bool)
    requires Ask(client, deed, subject, env) != Broken
    requires forall r :: Decides(r, client, deed, subject, env) <==> matching(r)
    ensures Ask(client, deed, subject, env) == Allowed <==> env.access == [] || FirstAllows(env.access, matching)
  {
    hide Ask, Breaks, Decides;
    AskExactly(client, deed, subject, env);
    if FirstAllows(env.access, matching) {
      var i :| 0 <= i < |env.access| && env.access[i].allow && matching(env.access[i])
               && forall j :: 0 <= j < i ==> !matching(env.access[j]);
      NothingBreaks(client, deed, subject, env, i);
      assert Reached(env.access, i, client, deed, subject, env);
    }
  }

  /** If authorisation does not panic, no rule up to the first that decides does. */
  lemma {:induction false} NothingBreaks(client: Bytes, deed: Deed, subject: Bytes, env: Env, i: nat)
    requires Ask(client, deed, subject, env) != Broken && i < |env.access|
    requires forall j :: 0 <= j < i ==> !Decides(env.access[j], client, deed, subject, env)
    ensures forall j :: 0 <= j <= i ==> !Breaks(env.access[j], client, deed, env)
  {
    hide Ask, Breaks, Decides;
    AskExactly(client, deed, subject, env);
    if i > 0 { NothingBreaks(client, deed, subject, env, i - 1); }
    assert Reached(env.access, i, client, deed, subject, env);
  }

  /** The pattern ends in its only `#`, right after an octet of a character outside ASCII. */
  ghost predicate EndsAccented(pattern: Bytes) {
    exists head: Bytes, last: byte :: pattern == head + [last, 0x23] && last >= 0x80 && 0x23 !in head
  }

  lemma PanicsExactly(pattern: Bytes)
    ensures Panics(pattern) <==> EndsAccented(pattern)
  {
    var n := |pattern|;
    if Panics(pattern) {
      assert pattern == pattern[..n - 2] + [pattern[n - 2], 0x23];
      assert pattern[..n - 1] == pattern[..n - 2] + [pattern[n - 2]];
    }
    if EndsAccented(pattern) {
      var head: Bytes, last: byte :| pattern == head + [last, 0x23] && last >= 0x80 && 0x23 !in head;
      assert pattern[..n - 1] == head + [last];
    }
  }

  /** Which rules panic when the scan reaches them. */
  lemma BreaksExactly(r: AccessRule, client: Bytes, env: Env)
    ensures Breaks(r, client, Subscribing, env) <==>
            r.client != client && EndsAccented(r.client)
    ensures Breaks(r, client, Publishing, env) <==>
            || (r.client != client && EndsAccented(r.client))
            || (NamedBy(r.client, client, env) && r.publish && EndsAccented(r.topic))
  {
    PanicsExactly(r.client);
    PanicsExactly(r.topic);
  }

  /** The scan reaches a rule that panics. */
  ghost predicate RuleBreaks(client: Bytes, deed: Deed, subject: Bytes, env: Env) {
    exists i :: 0 <= i < |env.access| && Reached(env.access, i, client, deed, subject, env)
      && Breaks(env.access[i], client, deed, env)
  }

  /** The scan over the rules, first match wins. */
  method Authorize(client: Bytes, deed: Deed, subject: Bytes, env: Env) returns (answer: Answer)
    ensures answer == Ask(client, deed, subject, env)
  {
    if env.access == [] {
      return Allowed;
    }
    for i := 0 to |env.access|
      invariant Scan(env.access, client, deed, subject, env) == Scan(env.access[i..], client, deed, subject, env)
    {
      hide Breaks, Decides;
      var r := env.access[i];
      assert env.access[i..][1..] == env.access[i + 1..];
      if Breaks(r, client, deed, env) {
        return Broken;
      }
      if Decides(r, client, deed, subject, env) {
        return if r.allow then Allowed else Denied;
      }
    }
    return Denied;
  }

  // ---------------------------------------------------------------------
  // Subscribing.
  // ---------------------------------------------------------------------

  /** A request the broker can serve at all: a legal filter, a legal QoS, not a delayed-publish marker. */
  predicate Acceptable(r: Request) {
    ValidFilter(r.filter) && r.qos <= 2 && !(DELAYED <= r.filter)
  }

  /** Serving the request panics: in the check of its own filter, or in its authorisation. */
  predicate RequestPanics(r: Request, client: Bytes, env: Env) {
    Panics(r.filter) || (Acceptable(r) && Ask(client, Subscribing, r.filter, env) == Broken)
  }

  predicate Permitted(client: Bytes, filter: Bytes, env: Env) {
    Ask(client, Subscribing, filter, env) == Allowed
  }

  lemma RequestPanicsExactly(r: Request, client: Bytes, env: Env)
    ensures RequestPanics(r, client, env) <==>
            || EndsAccented(r.filter)
            || (ValidFilter(r.filter) && r.qos <= 2 && !(DELAYED <= r.filter)
                && RuleBreaks(client, Subscribing, r.filter, env))
  {
    hide Ask, RuleBreaks, Panics, ValidFilter;
    PanicsExactly(r.filter);
    AskExactly(client, Subscribing, r.filter, env);
  }

  /** How many requests are served before one panics. */
  function ServedCount(requests: seq<Request>, client: Bytes, env: Env): (k: nat)
    ensures k <= |requests| && (k < |requests| ==> RequestPanics(requests[k], client, env))
    ensures forall i :: 0 <= i < k ==> !RequestPanics(requests[i], client, env)
  {
    if requests == [] || RequestPanics(requests[0], client, env) then 0
    else
      var k := ServedCount(requests[1..], client, env);
      assert forall i :: 1 <= i < k + 1 ==> requests[i] == requests[1..][i - 1];
      1 + k
  }

  function Served(requests: seq<Request>, client: Bytes, env: Env): seq<Request> {
    requests[..ServedCount(requests, client, env)]
  }

  /** `#` only as the whole last level. */
  predicate ValidFilter(filter: Bytes) {
    && filter != []
    && (forall i :: 0 <= i < |filter| && filter[i] == 0x23 ==>
         i == |filter| - 1 && (i > 0 ==> filter[i - 1] == 0x2F))
  }

  /** A legal filter: text without `#`, then at most a `#` that stands alone or behind a slash. */
  lemma ValidFilterExactly(filter: Bytes)
    ensures ValidFilter(filter) <==>
            || (filter != [] && 0x23 !in filter)
            || (exists head: Bytes :: filter == head + [0x23] && 0x23 !in head
                  && (head == [] || head[|head| - 1] == 0x2F))
  {
    var n := |filter|;
    if ValidFilter(filter) && 0x23 in filter {
      var head := filter[..n - 1];
      assert filter[n - 1] == 0x23 && filter == head + [0x23];
      assert 0x23 !in head;
    }
    if head: Bytes :| filter == head + [0x23] && 0x23 !in head && (head == [] || head[|head| - 1] == 0x2F) {
      assert forall i :: 0 <= i < n - 1 ==> filter[i] == head[i];
    }
  }

  predicate Full(h: Shared, filter: Bytes, client: Bytes) {
    (filter, client) !in h.router && |h.router| >= MAX_SUBSCRIPTIONS
  }

  function CodeFor(h: Shared, client: Bytes, r: Request, env: Env): byte {
    if !ValidFilter(r.filter) || r.qos > 2 then 0x80
    else if DELAYED <= r.filter then 0x80
    else if !Permitted(client, r.filter, env) then 0x87
    else if Full(h, r.filter, client) then 0x97
    else r.qos
  }

  function Mirror(sessions: map<Bytes, Stored>, client: Bytes, filter: Bytes, qos: QoS): map<Bytes, Stored> {
    if client !in sessions then sessions
    else sessions[client := sessions[client].(filters := sessions[client].filters[filter := qos])]
  }

  function Grant(h: Shared, conn: nat, client: Bytes, filter: Bytes, qos: QoS): Shared {
    h.(router := h.router[(filter, client) := Entry(conn, qos)], sessions := Mirror(h.sessions, client, filter, qos))
  }

  datatype Granting = Granting(shared: Shared, session: Attached, codes: seq<byte>)

  function SubscribeOne(g: Granting, conn: nat, r: Request, env: Env): Granting {
    var code := CodeFor(g.shared, g.session.client, r, env);
    if code <= 2 then
      Granting(
        Grant(g.shared, conn, g.session.client, r.filter, code),
        g.session.(filters := g.session.filters + [r.filter]),
        g.codes + [code])
    else g.(codes := g.codes + [code])
  }

  function SubscribeAll(h: Shared, conn: nat, a: Attached, requests: seq<Request>, env: Env): Granting {
    if requests == [] then Granting(h, a, [])
    else SubscribeOne(SubscribeAll(h, conn, a, requests[..|requests| - 1], env), conn, requests[|requests| - 1], env)
  }

  /** The filters a list of codes grants, in order. */
  function Granted(requests: seq<Request>, codes: seq<byte>): seq<Bytes>
    requires |codes| == |requests|
  {
    if requests == [] then []
    else
      var n := |requests| - 1;
      Granted(requests[..n], codes[..n]) + if codes[n] <= 2 then [requests[n].filter] else []
  }

  /** The QoS a list of codes leaves a filter with, if it grants it at all. */
  function LastGrant(requests: seq<Request>, codes: seq<byte>, filter: Bytes): Option<QoS>
    requires |codes| == |requests|
  {
    if requests == [] then None
    else
      var n := |requests| - 1;
      if codes[n] <= 2 && requests[n].filter == filter then Some(codes[n])
      else LastGrant(requests[..n], codes[..n], filter)
  }

  function Routed(h: Shared, key: Key): Option<Entry> {
    if key in h.router then Some(h.router[key]) else None
  }

  function Mirrored(h: Shared, client: Bytes, filter: Bytes): Option<QoS> {
    if client in h.sessions && filter in h.sessions[client].filters then Some(h.sessions[client].filters[filter])
    else None
  }

  /** The router after a list of codes, entry by entry. */
  ghost predicate RouterAfter(h: Shared, m: Shared, conn: nat, client: Bytes, requests: seq<Request>, codes: seq<byte>)
    requires |codes| == |requests|
  {
    forall key: Key ::
      Routed(m, key) ==
      if key.1 == client && LastGrant(requests, codes, key.0).Some?
      then Some(Entry(conn, LastGrant(requests, codes, key.0).value))
      else Routed(h, key)
  }

  /** The session mirror after a list of codes, filter by filter. */
  ghost predicate MirrorAfter(h: Shared, m: Shared, client: Bytes, requests: seq<Request>, codes: seq<byte>)
    requires |codes| == |requests|
  {
    && m.sessions.Keys == h.sessions.Keys
    && (forall c :: c in h.sessions ==> m.sessions[c].(filters := map[]) == h.sessions[c].(filters := map[]))
    && (forall c: Bytes, filter: Bytes ::
         Mirrored(m, c, filter) ==
         if c in h.sessions && c == client && LastGrant(requests, codes, filter).Some?
         then LastGrant(requests, codes, filter) else Mirrored(h, c, filter))
  }

  /** The reply codes and the new shared state, told without the loop. */
  ghost predicate SubscribedAs(h: Shared, conn: nat, a: Attached, requests: seq<Request>, g: Granting) {
    && |g.codes| == |requests|
    && (forall i :: 0 <= i < |requests| && g.codes[i] <= 2 ==>
         g.codes[i] == requests[i].qos && ValidFilter(requests[i].filter))
    && g.session == a.(filters := a.filters + Granted(requests, g.codes))
    && g.shared.gauge == h.gauge && g.shared.slots == h.slots
    && RouterAfter(h, g.shared, conn, a.client, requests, g.codes)
    && MirrorAfter(h, g.shared, a.client, requests, g.codes)
    && (|h.router| <= MAX_SUBSCRIPTIONS ==> |g.shared.router| <= MAX_SUBSCRIPTIONS)
  }

  /** A code per request; only a granted request changes anything, and what it changes is tracked by the socket. */
  lemma {:induction false} SubscribeExactly(h: Shared, conn: nat, a: Attached, requests: seq<Request>, env: Env)
    ensures SubscribedAs(h, conn, a, requests, SubscribeAll(h, conn, a, requests, env))
  {
    hide SubscribedAs, SubscribeOne;
    if requests == [] {
      SubscribeNone(h, conn, a, env);
    } else {
      var n := |requests| - 1;
      SubscribeExactly(h, conn, a, requests[..n], env);
      SubscribeStep(h, conn, a, requests, SubscribeAll(h, conn, a, requests[..n], env), env);
    }
  }

  lemma SubscribeNone(h: Shared, conn: nat, a: Attached, env: Env)
    ensures SubscribedAs(h, conn, a, [], SubscribeAll(h, conn, a, [], env))
  {
    assert a.filters + [] == a.filters;
  }

  lemma SubscribeStep(h: Shared, conn: nat, a: Attached, requests: seq<Request>, g: Granting, env: Env)
    requires requests != [] && SubscribedAs(h, conn, a, requests[..|requests| - 1], g)
    ensures SubscribedAs(h, conn, a, requests, SubscribeOne(g, conn, requests[|requests| - 1], env))
  {
    hide RouterAfter, MirrorAfter, Granted, LastGrant, Grant, ValidFilter, Full, CodeFor;
    var n := |requests| - 1;
    var m := SubscribeOne(g, conn, requests[n], env);
    assert m.codes[..n] == g.codes;
    GrantedSnoc(requests, m.codes);
    CodeFacts(g.shared, g.session.client, requests[n], env);
    RouterStep(h, g.shared, conn, a.client, requests, m.codes);
    MirrorStep(h, g.shared, conn, a.client, requests, m.codes);
    GrantSize(g.shared, conn, a.client, requests[n].filter, m.codes[n]);
    if m.codes[n] <= 2 {
      assert a.filters + Granted(requests, m.codes) ==
             a.filters + Granted(requests[..n], g.codes) + [requests[n].filter];
    } else {
      assert Granted(requests, m.codes) == Granted(requests[..n], g.codes);
    }
  }

  lemma RouterStep(h: Shared, g: Shared, conn: nat, client: Bytes, requests: seq<Request>, codes: seq<byte>)
    requires |codes| == |requests| && requests != []
    requires RouterAfter(h, g, conn, client, requests[..|requests| - 1], codes[..|requests| - 1])
    ensures var r, code := requests[|requests| - 1], codes[|requests| - 1];
            var m := if code <= 2 then Grant(g, conn, client, r.filter, code) else g;
            RouterAfter(h, m, conn, client, requests, codes)
  {
    hide LastGrant;
    var r, code := requests[|requests| - 1], codes[|requests| - 1];
    var m := if code <= 2 then Grant(g, conn, client, r.filter, code) else g;
    forall key: Key ensures Routed(m, key) ==
      if key.1 == client && LastGrant(requests, codes, key.0).Some?
      then Some(Entry(conn, LastGrant(requests, codes, key.0).value))
      else Routed(h, key)
    {
      LastGrantSnoc(requests, codes, key.0);
      assert Routed(m, key) ==
             if code <= 2 && key == (r.filter, client) then Some(Entry(conn, code)) else Routed(g, key);
    }
  }

  lemma MirrorStep(h: Shared, g: Shared, conn: nat, client: Bytes, requests: seq<Request>, codes: seq<byte>)
    requires |codes| == |requests| && requests != []
    requires MirrorAfter(h, g, client, requests[..|requests| - 1], codes[..|requests| - 1])
    ensures var r, code := requests[|requests| - 1], codes[|requests| - 1];
            MirrorAfter(h, if code <= 2 then Grant(g, conn, client, r.filter, code) else g, client, requests, codes)
  {
    hide LastGrant;
    var r, code := requests[|requests| - 1], codes[|requests| - 1];
    var m := if code <= 2 then Grant(g, conn, client, r.filter, code) else g;
    forall c: Bytes, filter: Bytes ensures Mirrored(m, c, filter) ==
      if c in h.sessions && c == client && LastGrant(requests, codes, filter).Some?
      then LastGrant(requests, codes, filter) else Mirrored(h, c, filter)
    {
      LastGrantSnoc(requests, codes, filter);
      assert Mirrored(m, c, filter) ==
        if code <= 2 && c in g.sessions && c == client && filter == r.filter then Some(code)
        else Mirrored(g, c, filter);
    }
  }

  lemma GrantedSnoc(requests: seq<Request>, codes: seq<byte>)
    requires |codes| == |requests| && requests != []
    ensures var n := |requests| - 1;
            Granted(requests, codes) ==
            Granted(requests[..n], codes[..n]) + if codes[n] <= 2 then [requests[n].filter] else []
  {
  }

  lemma LastGrantSnoc(requests: seq<Request>, codes: seq<byte>, filter: Bytes)
    requires |codes| == |requests| && requests != []
    ensures var n := |requests| - 1;
            LastGrant(requests, codes, filter) ==
            if codes[n] <= 2 && requests[n].filter == filter then Some(codes[n])
            else LastGrant(requests[..n], codes[..n], filter)
  {
  }

  lemma CodeFacts(h: Shared, client: Bytes, r: Request, env: Env)
    ensures CodeFor(h, client, r, env) <= 2 ==>
            CodeFor(h, client, r, env) == r.qos && ValidFilter(r.filter) && !Full(h, r.filter, client)
  {
  }

  /** A grant leaves gauge and slots alone and keeps the table within its cap. */
  lemma GrantSize(h: Shared, conn: nat, client: Bytes, filter: Bytes, code: nat)
    ensures code <= 2 ==>
            && Grant(h, conn, client, filter, code).gauge == h.gauge
            && Grant(h, conn, client, filter, code).slots == h.slots
    ensures code <= 2 && !Full(h, filter, client) && |h.router| <= MAX_SUBSCRIPTIONS ==>
            |Grant(h, conn, client, filter, code).router| <= MAX_SUBSCRIPTIONS
  {
    var key := (filter, client);
    var after := h.router[key := Entry(conn, Min(code, 2))];
    if key in h.router {
      assert after.Keys == h.router.Keys;
      assert |after| == |after.Keys| && |h.router| == |h.router.Keys|;
    }
  }

  /** Granted filters are exactly those the codes leave with a QoS. */
  lemma {:induction false} GrantedExactly(requests: seq<Request>, codes: seq<byte>, filter: Bytes)
    requires |codes| == |requests|
    ensures filter in Granted(requests, codes) <==> LastGrant(requests, codes, filter).Some?
  {
    if requests != [] {
      var n := |requests| - 1;
      GrantedExactly(requests[..n], codes[..n], filter);
    }
  }

  /** The filters granted by a list of codes that the client did not have before. */
  function NewFilters(h: Shared, client: Bytes, requests: seq<Request>, codes: seq<byte>): set<Bytes>
    requires |codes| == |requests|
  {
    set f | f in Granted(requests, codes) && (f, client) !in h.router
  }

  /** The table grows by exactly the filters that are new to the client. */
  lemma {:induction false} TableSize(h: Shared, conn: nat, a: Attached, requests: seq<Request>, env: Env)
    ensures var g := SubscribeAll(h, conn, a, requests, env);
            |g.codes| == |requests| && |g.shared.router| == |h.router| + |NewFilters(h, a.client, requests, g.codes)|
  {
    hide SubscribedAs, CodeFor;
    SubscribeExactly(h, conn, a, requests, env);
    SubscribedShape(h, conn, a, requests, SubscribeAll(h, conn, a, requests, env));
    if requests == [] {
      assert NewFilters(h, a.client, [], []) == {};
    } else {
      var n := |requests| - 1;
      var g, m := SubscribeAll(h, conn, a, requests[..n], env), SubscribeAll(h, conn, a, requests, env);
      TableSize(h, conn, a, requests[..n], env);
      SubscribeExactly(h, conn, a, requests[..n], env);
      SubscribedShape(h, conn, a, requests[..n], g);
      assert m.codes[..n] == g.codes;
      GrantedSnoc(requests, m.codes);
      TableStep(h, conn, a, requests, g, m.codes[n]);
    }
  }

  lemma TableStep(h: Shared, conn: nat, a: Attached, requests: seq<Request>, g: Granting, code: byte)
    requires requests != [] && SubscribedAs(h, conn, a, requests[..|requests| - 1], g)
    ensures var n := |requests| - 1;
            var key := (requests[n].filter, a.client);
            var before := NewFilters(h, a.client, requests[..n], g.codes);
            var after := NewFilters(h, a.client, requests, g.codes + [code]);
            && |after| - |before| == (if code <= 2 && key !in g.shared.router then 1 else 0)
            && (code <= 2 ==>
                 |Grant(g.shared, conn, a.client, key.0, code).router| ==
                 |g.shared.router| + if key !in g.shared.router then 1 else 0)
  {
    hide SubscribedAs, NewFilters, Grant;
    var n := |requests| - 1;
    NewFiltersStep(h, conn, a, requests, g, code);
    if code <= 2 { GrantGrows(g.shared, conn, a.client, requests[n].filter, code); }
  }

  lemma GrantGrows(h: Shared, conn: nat, client: Bytes, filter: Bytes, qos: QoS)
    ensures |Grant(h, conn, client, filter, qos).router| ==
            |h.router| + if (filter, client) !in h.router then 1 else 0
  {
    var after := h.router[(filter, client) := Entry(conn, qos)];
    if (filter, client) in h.router {
      assert after.Keys == h.router.Keys;
      assert |after| == |after.Keys| && |h.router| == |h.router.Keys|;
    }
  }

  lemma NewFiltersStep(h: Shared, conn: nat, a: Attached, requests: seq<Request>, g: Granting, code: byte)
    requires requests != [] && SubscribedAs(h, conn, a, requests[..|requests| - 1], g)
    ensures var n := |requests| - 1;
            var before := NewFilters(h, a.client, requests[..n], g.codes);
            var after := NewFilters(h, a.client, requests, g.codes + [code]);
            |after| - |before| == if code <= 2 && (requests[n].filter, a.client) !in g.shared.router then 1 else 0
  {
    hide SubscribedAs, LastGrant, Granted, Routed;
    var n := |requests| - 1;
    var f, codes := requests[n].filter, g.codes + [code];
    HeldAfter(h, conn, a, requests[..n], g, f);
    var before, after := NewFilters(h, a.client, requests[..n], g.codes), NewFilters(h, a.client, requests, codes);
    assert codes[..n] == g.codes;
    GrantedSnoc(requests, codes);
    if code <= 2 && (f, a.client) !in h.router {
      assert after == before + {f};
    } else {
      assert after == before;
    }
  }

  lemma HeldAfter(h: Shared, conn: nat, a: Attached, requests: seq<Request>, g: Granting, filter: Bytes)
    requires SubscribedAs(h, conn, a, requests, g)
    ensures |g.codes| == |requests|
    ensures (filter, a.client) in g.shared.router <==>
            filter in Granted(requests, g.codes) || (filter, a.client) in h.router
  {
    hide ValidFilter, MirrorAfter, LastGrant, Granted;
    GrantedExactly(requests, g.codes, filter);
    assert Routed(g.shared, (filter, a.client)).Some? <==>
      LastGrant(requests, g.codes, filter).Some? || Routed(h, (filter, a.client)).Some?;
  }

  /** No room for a filter after some requests, told from the table before them and their codes. */
  ghost predicate NoRoom(h: Shared, client: Bytes, requests: seq<Request>, codes: seq<byte>, filter: Bytes)
    requires |codes| == |requests|
  {
    && (filter, client) !in h.router && filter !in Granted(requests, codes)
    && |h.router| + |NewFilters(h, client, requests, codes)| >= MAX_SUBSCRIPTIONS
  }

  lemma FullExactly(h: Shared, conn: nat, a: Attached, requests: seq<Request>, env: Env, filter: Bytes)
    ensures var g := SubscribeAll(h, conn, a, requests, env);
            && |g.codes| == |requests|
            && (Full(g.shared, filter, a.client) <==> NoRoom(h, a.client, requests, g.codes, filter))
  {
    hide SubscribeAll, LastGrant, Granted, ValidFilter, MirrorAfter, NewFilters;
    var g := SubscribeAll(h, conn, a, requests, env);
    SubscribeExactly(h, conn, a, requests, env);
    TableSize(h, conn, a, requests, env);
    GrantedExactly(requests, g.codes, filter);
    assert Routed(g.shared, (filter, a.client)).Some? <==>
      LastGrant(requests, g.codes, filter).Some? || Routed(h, (filter, a.client)).Some?;
  }

  lemma {:induction false} CodesOf(h: Shared, conn: nat, a: Attached, requests: seq<Request>, env: Env, i: nat)
    requires i < |requests|
    ensures |SubscribeAll(h, conn, a, requests, env).codes| == |requests|
    ensures var codes, r := SubscribeAll(h, conn, a, requests, env).codes, requests[i];
            var noRoom := NoRoom(h, a.client, requests[..i], codes[..i], r.filter);
            var allowed := Ask(a.client, Subscribing, r.filter, env) == Allowed;
            && (codes[i] == 0x80 <==> !Acceptable(r))
            && (codes[i] == 0x87 <==> Acceptable(r) && !allowed)
            && (codes[i] == 0x97 <==> Acceptable(r) && allowed && noRoom)
            && (codes[i] <= 2 <==> Acceptable(r) && allowed && !noRoom)
  {
    hide ValidFilter, Full, SubscribedAs, NoRoom;
    var n := |requests| - 1;
    var g := SubscribeAll(h, conn, a, requests[..n], env);
    SubscribeExactly(h, conn, a, requests[..n], env);
    SubscribedShape(h, conn, a, requests[..n], g);
    var codes := SubscribeAll(h, conn, a, requests, env).codes;
    assert codes[..n] == g.codes;
    if i < n {
      CodesOf(h, conn, a, requests[..n], env, i);
      assert requests[..n][..i] == requests[..i] && codes[..n][..i] == codes[..i];
    } else {
      FullExactly(h, conn, a, requests[..n], env, requests[n].filter);
    }
  }

  /** Each code of a served request, told from the request, the table before the packet and the codes before it. */
  lemma CodesExactly(h: Shared, conn: nat, a: Attached, requests: seq<Request>, env: Env, i: nat)
    requires i < ServedCount(requests, a.client, env)
    ensures |SubscribeAll(h, conn, a, Served(requests, a.client, env), env).codes| ==
            ServedCount(requests, a.client, env)
    ensures var codes, r := SubscribeAll(h, conn, a, Served(requests, a.client, env), env).codes, requests[i];
            var noRoom := NoRoom(h, a.client, requests[..i], codes[..i], r.filter);
            var allowed := Ask(a.client, Subscribing, r.filter, env) == Allowed;
            && (codes[i] == 0x80 <==> !Acceptable(r))
            && (codes[i] == 0x87 <==> Acceptable(r) && !allowed)
            && (codes[i] == 0x97 <==> Acceptable(r) && allowed && noRoom)
            && (codes[i] <= 2 <==> Acceptable(r) && allowed && !noRoom)
  {
    hide SubscribeAll, NoRoom, Acceptable, ServedCount;
    CodesOf(h, conn, a, Served(requests, a.client, env), env, i);
    assert Served(requests, a.client, env)[..i] == requests[..i];
  }

  lemma SubscribedShape(h: Shared, conn: nat, a: Attached, requests: seq<Request>, g: Granting)
    requires SubscribedAs(h, conn, a, requests, g)
    ensures |g.codes| == |requests| && g.session.client == a.client
  {
  }

  // ---------------------------------------------------------------------
  // Attaching and tearing down.
  // ---------------------------------------------------------------------

  function Slots(slots: map<Bytes, nat>, user: Bytes): nat {
    if user in slots then slots[user] else 0
  }

  function WithSlots(slots: map<Bytes, nat>, user: Bytes, n: nat): map<Bytes, nat> {
    if n == 0 then slots - {user} else slots[user := n]
  }

  /** Releasing stops at zero. */
  function Release(slots: map<Bytes, nat>, user: Option<Bytes>): map<Bytes, nat> {
    if user.None? || Slots(slots, user.value) == 0 then slots
    else WithSlots(slots, user.value, Slots(slots, user.value) - 1)
  }

  lemma ReleaseExactly(slots: map<Bytes, nat>, user: Option<Bytes>, other: Bytes)
    ensures Slots(Release(slots, user), other) ==
            if user == Some(other) && Slots(slots, other) > 0 then Slots(slots, other) - 1 else Slots(slots, other)
  {
  }

  /** The client's stored session is connected, here or elsewhere. */
  predicate AlreadyLive(h: Shared, c: Connect) {
    c.clientId in h.sessions && h.sessions[c.clientId].connected
  }

  /** A credentialed CONNECT of a live client gives a slot back before it asks for one. */
  function SlotsAsked(h: Shared, c: Connect): map<Bytes, nat> {
    if AlreadyLive(h, c) then Release(h.slots, c.username) else h.slots
  }

  function Attach(h: Shared, conn: nat, c: Connect, limit: Option<nat>): Shared {
    var stored :=
      if c.cleanStart || c.clientId !in h.sessions then Stored(Some(conn), true, c.cleanStart, c.username, map[])
      else h.sessions[c.clientId].(conn := Some(conn), connected := true, username := c.username);
    var asked := SlotsAsked(h, c);
    var slots :=
      if c.username.Some? && limit.Some? then WithSlots(asked, c.username.value, Slots(asked, c.username.value) + 1)
      else asked;
    h.(gauge := h.gauge + 1, sessions := h.sessions[c.clientId := stored], slots := slots)
  }

  /** This connection is the one the stored session of the client is bound to. */
  predicate Owned(h: Shared, client: Bytes, conn: nat) {
    client in h.sessions && h.sessions[client].conn == Some(conn)
  }

  /** Only the owning connection detaches the stored session; a clean one forgets its filters. */
  function Unbind(h: Shared, client: Bytes, conn: nat): Shared {
    if !Owned(h, client, conn) then h
    else
      var s := h.sessions[client];
      h.(sessions := h.sessions[client :=
           Stored(None, false, s.cleanStart, s.username, if s.cleanStart then map[] else s.filters)],
         slots := Release(h.slots, s.username))
  }

  function Forget(h: Shared, client: Bytes, filter: Bytes): Shared {
    h.(router := h.router - {(filter, client)},
       sessions := if client !in h.sessions then h.sessions
                   else h.sessions[client := h.sessions[client].(filters := h.sessions[client].filters - {filter})])
  }

  function ForgetAll(h: Shared, client: Bytes, filters: seq<Bytes>): Shared {
    if filters == [] then h
    else Forget(ForgetAll(h, client, filters[..|filters| - 1]), client, filters[|filters| - 1])
  }

  function Teardown(h: Shared, conn: nat, session: Option<Attached>): Shared {
    match session
    case None => h
    case Some(a) => ForgetAll(Unbind(h, a.client, conn).(gauge := h.gauge - 1), a.client, a.filters)
  }

  lemma ForgetMirrored(h: Shared, client: Bytes, filter: Bytes, c: Bytes, f: Bytes)
    ensures Mirrored(Forget(h, client, filter), c, f) == if c == client && f == filter then None else Mirrored(h, c, f)
  {
  }

  /** Stored sessions of other clients, and everything but the filters of this one, are as before. */
  ghost predicate SessionsBut(h: Shared, m: Shared, client: Bytes) {
    && m.sessions.Keys == h.sessions.Keys
    && (forall c :: c in h.sessions && c != client ==> m.sessions[c] == h.sessions[c])
    && (client in h.sessions ==> m.sessions[client].(filters := map[]) == h.sessions[client].(filters := map[]))
  }

  lemma {:induction false} ForgetExactly(h: Shared, client: Bytes, filters: seq<Bytes>)
    ensures var m := ForgetAll(h, client, filters);
            && m.gauge == h.gauge && m.slots == h.slots && SessionsBut(h, m, client) && m.router.Keys <= h.router.Keys
            && (forall key: Key ::
                 Routed(m, key) == if key.1 == client && key.0 in filters then None else Routed(h, key))
            && (forall c: Bytes, f: Bytes ::
                 Mirrored(m, c, f) == if c == client && f in filters then None else Mirrored(h, c, f))
  {
    if filters != [] {
      var init, last := filters[..|filters| - 1], filters[|filters| - 1];
      ForgetExactly(h, client, init);
      var g := ForgetAll(h, client, init);
      forall c: Bytes, f: Bytes
        ensures Mirrored(Forget(g, client, last), c, f) == if c == client && f == last then None else Mirrored(g, c, f)
      {
        ForgetMirrored(g, client, last, c, f);
      }
      assert forall f :: f in filters <==> f in init || f == last;
    }
  }

  /**
   * Teardown gives back one connection and takes out of router and mirror exactly the filters the socket was
   * granted, under its client id. Only the owner detaches the stored session: it gives the user's slot back,
   * and if the session was clean all of its mirrored filters go. Nothing of another client changes.
   */
  lemma TeardownExactly(h: Shared, conn: nat, a: Attached)
    ensures var m := Teardown(h, conn, Some(a));
            var owned := a.client in h.sessions && h.sessions[a.client].conn == Some(conn);
            && m.gauge == h.gauge - 1
            && (forall key: Key ::
                 Routed(m, key) == if key.1 == a.client && key.0 in a.filters then None else Routed(h, key))
            && (forall c: Bytes, f: Bytes ::
                 Mirrored(m, c, f) ==
                 if c == a.client && (f in a.filters || (owned && h.sessions[a.client].cleanStart)) then None
                 else Mirrored(h, c, f))
            && m.sessions.Keys == h.sessions.Keys
            && (forall c :: c in h.sessions && c != a.client ==> m.sessions[c] == h.sessions[c])
            && (a.client in h.sessions ==>
                 m.sessions[a.client].(filters := map[]) ==
                 if owned then
                   Stored(None, false, h.sessions[a.client].cleanStart, h.sessions[a.client].username, map[])
                 else h.sessions[a.client].(filters := map[]))
            && (forall user: Bytes ::
                 var freed := owned && h.sessions[a.client].username == Some(user) && Slots(h.slots, user) > 0;
                 Slots(m.slots, user) == Slots(h.slots, user) - if freed then 1 else 0)
            && m.router.Keys <= h.router.Keys
  {
    hide ForgetAll, Release;
    var u := Unbind(h, a.client, conn).(gauge := h.gauge - 1);
    ForgetExactly(u, a.client, a.filters);
    if Owned(h, a.client, conn) {
      forall user: Bytes { ReleaseExactly(h.slots, h.sessions[a.client].username, user); }
    }
    forall c: Bytes, f: Bytes ensures Mirrored(u, c, f) ==
      if c == a.client && Owned(h, a.client, conn) && h.sessions[a.client].cleanStart then None else Mirrored(h, c, f)
    {
    }
  }

  // ---------------------------------------------------------------------
  // One packet.
  // ---------------------------------------------------------------------

  /** What becomes of the socket: it stays open, is closed with its teardown, or its task unwinds without one. */
  datatype Fate = Stays | Closes | Unwinds

  /** The shared state, the socket's session, the reply that was attempted and the socket's fate. */
  datatype Outcome = Outcome(shared: Shared, session: Option<Attached>, reply: Bytes, fate: Fate)

  function Unless(ok: bool): Fate {
    if ok then Stays else Closes
  }

  function Connack(present: bool, code: byte): Bytes {
    [0x20, 2, if present then 1 else 0, code]
  }

  /** The return code of a CONNECT. */
  function Verdict(h: Shared, c: Connect, env: Env): byte {
    if !env.builtIn then 0x86
    else if c.username.None? then if env.users > 0 then 0x87 else 0
    else if !env.authenticates(c) then 0x86
    else if env.limit.Some? && Slots(SlotsAsked(h, c), c.username.value) >= env.limit.value then 0x8B
    else 0
  }

  /** CONNECT attaches the socket or is refused; a refusal for want of a slot has already given one back. */
  function Admit(h: Shared, conn: nat, c: Connect, env: Env): Outcome {
    var code := Verdict(h, c, env);
    if code == 0x8B then Outcome(h.(slots := SlotsAsked(h, c)), None, Connack(false, code), Closes)
    else if code != 0 then Outcome(h, None, Connack(false, code), Closes)
    else
      var present := !c.cleanStart && c.clientId in h.sessions;
      Outcome(Attach(h, conn, c, env.limit), Some(Attached(c.clientId, [])), Connack(present, 0), Unless(env.sent))
  }

  /** A publish panics in its authorisation; one on a delayed topic is dropped before. */
  predicate PublishPanics(m: Publish, client: Bytes, env: Env) {
    !(DELAYED <= m.topic) && Ask(client, Publishing, m.topic, env) == Broken
  }

  function Handle(h: Shared, session: Option<Attached>, conn: nat, p: Packet, env: Env): Outcome {
    match session
    case None =>
      if p.kind != 1 then Outcome(h, None, [], Closes)
      else (match DecodeConnect(p.payload, p.flags)
        case None => Outcome(h, None, [], Closes)
        case Some(c) => Admit(h, conn, c, env))
    case Some(a) =>
      if p.kind == 8 then
        if p.flags != 2 then Outcome(h, session, [], Closes)
        else (match DecodeSubscribe(p.payload)
          case None => Outcome(h, session, [], Closes)
          case Some((packetId, requests)) =>
            var g := SubscribeAll(h, conn, a, Served(requests, a.client, env), env);
            if ServedCount(requests, a.client, env) < |requests| then Outcome(g.shared, Some(g.session), [], Unwinds)
            else Outcome(g.shared, Some(g.session), Suback(packetId, g.codes), Unless(env.sent)))
      else if p.kind == 3 then
        (match DecodePublish(p.payload, p.flags)
        case None => Outcome(h, session, [], Closes)
        case Some(m) =>
          if PublishPanics(m, a.client, env) then Outcome(h, session, [], Unwinds)
          else Outcome(h, session, if m.qos == 1 then [0x40, 2] + U16(m.packetId) else [], Stays))
      else if p.kind == 12 && p.flags == 0 && p.payload == [] then Outcome(h, session, [0xD0, 0], Unless(env.sent))
      else Outcome(h, session, [], Unless(p.kind == 4))
  }

  /** A SUBSCRIBE with a request that panics for this client, or a PUBLISH that does. */
  predicate PanickingPacket(p: Packet, client: Bytes, env: Env) {
    || (p.kind == 8 && p.flags == 2 && DecodeSubscribe(p.payload).Some? &&
        exists i :: 0 <= i < |DecodeSubscribe(p.payload).value.1| &&
          RequestPanics(DecodeSubscribe(p.payload).value.1[i], client, env))
    || (p.kind == 3 && DecodePublish(p.payload, p.flags).Some? &&
        PublishPanics(DecodePublish(p.payload, p.flags).value, client, env))
  }

  /** A socket's task unwinds exactly on such a packet, once it has a session. */
  lemma UnwindsExactly(h: Shared, session: Option<Attached>, conn: nat, p: Packet, env: Env)
    ensures Handle(h, session, conn, p, env).fate == Unwinds <==>
            session.Some? && PanickingPacket(p, session.value.client, env)
  {
    hide DecodeConnect, DecodeSubscribe, DecodePublish, SubscribeAll, Suback, U16, Connack, RequestPanics,
         PublishPanics;
  }

  /** The slots of a user when its CONNECT asks for one: a live client has given one back. */
  function Taken(h: Shared, c: Connect, user: Bytes): nat {
    var n := Slots(h.slots, user);
    if c.username == Some(user) && c.clientId in h.sessions && h.sessions[c.clientId].connected && n > 0 then n - 1
    else n
  }

  /**
   * A CONNECT attaches the socket exactly when it is answered with return code zero. A refusal changes
   * nothing, except that one for want of a slot by a client that is live gives back a slot of its user.
   */
  lemma ConnectAnsweredExactly(h: Shared, conn: nat, p: Packet, env: Env)
    requires p.kind == 1 && DecodeConnect(p.payload, p.flags).Some?
    ensures var c := DecodeConnect(p.payload, p.flags).value;
            var o := Handle(h, None, conn, p, env);
            var known := c.username.Some? && env.authenticates(c);
            var lacking := known && env.limit.Some? && Taken(h, c, c.username.value) >= env.limit.value;
            && |o.reply| == 4 && o.reply[..2] == [0x20, 2]
            && o.reply[3] == (if !env.builtIn then 0x86
                              else if c.username.None? then if env.users > 0 then 0x87 else 0
                              else if !known then 0x86 else if lacking then 0x8B else 0)
            && (o.session.Some? <==> o.reply[3] == 0)
            && (o.session.None? ==> RefusedAs(h, c, o))
            && (o.session.Some? ==> AttachedAs(h, conn, c, env, o))
  {
    hide DecodeConnect;
    var c := DecodeConnect(p.payload, p.flags).value;
    AskedSlots(h, c);
  }

  /** A refusal closes the socket and leaves all but the slots of a user who lacks one. */
  ghost predicate RefusedAs(h: Shared, c: Connect, o: Outcome)
    requires |o.reply| == 4
  {
    && o.fate == Closes && o.reply[2] == 0 && o.shared.(slots := h.slots) == h
    && (o.reply[3] != 0x8B ==> o.shared == h)
    && (o.reply[3] == 0x8B ==> forall user: Bytes :: Slots(o.shared.slots, user) == Taken(h, c, user))
  }

  /** What an attached socket finds: a session bound to it that keeps its filters exactly when the flag says so. */
  ghost predicate AttachedAs(h: Shared, conn: nat, c: Connect, env: Env, o: Outcome)
    requires |o.reply| == 4
  {
    var resumed := !c.cleanStart && c.clientId in h.sessions;
    && o.session == Some(Attached(c.clientId, [])) && o.fate == (if env.sent then Stays else Closes)
    && o.shared.gauge == h.gauge + 1 && o.shared.router == h.router
    && o.reply[2] == (if resumed then 1 else 0)
    && o.shared.sessions.Keys == h.sessions.Keys + {c.clientId}
    && (forall other :: other in h.sessions && other != c.clientId ==> o.shared.sessions[other] == h.sessions[other])
    && o.shared.sessions[c.clientId] ==
       Stored(Some(conn), true, if resumed then h.sessions[c.clientId].cleanStart else c.cleanStart, c.username,
              if resumed then h.sessions[c.clientId].filters else map[])
    && (forall user: Bytes ::
         Slots(o.shared.slots, user) ==
         Taken(h, c, user) + if c.username == Some(user) && env.limit.Some? then 1 else 0)
    && (c.username.Some? && env.limit.Some? ==> Slots(o.shared.slots, c.username.value) <= env.limit.value)
  }

  lemma AskedSlots(h: Shared, c: Connect)
    ensures forall user: Bytes :: Slots(SlotsAsked(h, c), user) == Taken(h, c, user)
  {
    forall user: Bytes { ReleaseExactly(h.slots, c.username, user); }
  }

  /** A non-empty chain without an enabled entry of the built-in database refuses every CONNECT. */
  lemma ChainDecides(h: Shared, conn: nat, p: Packet, env: Env, chain: seq<Chain.Entry>)
    requires p.kind == 1 && DecodeConnect(p.payload, p.flags).Some? && env.builtIn == Chain.BuiltInAvailable(chain)
    ensures var o := Handle(h, None, conn, p, env);
            |o.reply| == 4 && if chain == [] || exists e :: e in chain && e.enable && e.backend == "built_in_database"
              then DecodeConnect(p.payload, p.flags).value.username.None? && env.users == 0 ==> o.session.Some?
              else o == Outcome(h, None, [0x20, 2, 0, 0x86], Closes)
  {
    hide DecodeConnect, Chain.BuiltInAvailable;
    Chain.AvailableExactly(chain);
  }

  /** The first packet of a socket is a CONNECT that decodes; any other closes it and changes nothing. */
  lemma FirstPacketExactly(h: Shared, conn: nat, p: Packet, env: Env)
    requires p.kind != 1 || DecodeConnect(p.payload, p.flags).None?
    ensures Handle(h, None, conn, p, env) == Outcome(h, None, [], Closes)
  {
    hide DecodeConnect;
  }

  /**
   * A PUBLISH changes neither shared state nor session. One that does not decode closes the socket; one on a topic
   * that is not delayed unwinds it if a reached access rule panics; otherwise the socket stays, and is sent one
   * acknowledgement with the packet id exactly for QoS 1.
   */
  lemma PublishAnsweredExactly(h: Shared, a: Attached, conn: nat, p: Packet, env: Env)
    requires p.kind == 3
    ensures var o := Handle(h, Some(a), conn, p, env);
            && o.shared == h && o.session == Some(a)
            && (DecodePublish(p.payload, p.flags).None? ==> o.reply == [] && o.fate == Closes)
    ensures DecodePublish(p.payload, p.flags).Some? ==>
            var m := DecodePublish(p.payload, p.flags).value;
            var o := Handle(h, Some(a), conn, p, env);
            && o.fate != Closes
            && (o.fate == Unwinds <==> !(DELAYED <= m.topic) && RuleBreaks(a.client, Publishing, m.topic, env))
            && (o.fate == Unwinds || m.qos != 1 ==> o.reply == [])
            && (o.fate == Stays && m.qos == 1 ==>
                 && IsFrame(o.reply) && PacketOf(o.reply).kind == 4 && PacketOf(o.reply).flags == 0
                 && ReadU16(PacketOf(o.reply).payload) == Some((m.packetId, [])))
  {
    hide DecodePublish, Breaks, Ask, IsFrame, PacketOf, ReadU16, U16;
    if DecodePublish(p.payload, p.flags).Some? {
      var m := DecodePublish(p.payload, p.flags).value;
      AskExactly(a.client, Publishing, m.topic, env);
      DecodedId(p, m);
      PubackFrame(m.packetId);
    }
  }

  lemma DecodedId(p: Packet, m: Publish)
    requires DecodePublish(p.payload, p.flags) == Some(m)
    ensures m.packetId <= U16_MAX
  {
    hide DecodePublish, Utf8;
    PublishDecodesExactly(p.payload, p.flags, m);
  }

  lemma PubackFrame(packetId: nat)
    requires packetId <= U16_MAX
    ensures var puback := [0x40, 2] + U16(packetId);
            && IsFrame(puback) && PacketOf(puback).kind == 4 && PacketOf(puback).flags == 0
            && ReadU16(PacketOf(puback).payload) == Some((packetId, []))
  {
    assert EncodeLength(2) == [2];
    assert [0x40, 2] + U16(packetId) == [0x40] + EncodeLength(2) + U16(packetId);
    EncodedFrame(0x40, U16(packetId));
    assert U16(packetId) + [] == U16(packetId);
    ReadU16Exact(U16(packetId), packetId, []);
  }

  /**
   * Of the other packets of an attached socket, an empty PINGREQ is answered with PINGRESP and a PUBACK is
   * ignored. A second CONNECT, a DISCONNECT, a malformed PINGREQ and any other kind close the socket.
   */
  lemma OtherPacketsExactly(h: Shared, a: Attached, conn: nat, p: Packet, env: Env)
    requires p.kind != 3 && p.kind != 8
    ensures var o := Handle(h, Some(a), conn, p, env);
            var ping := p.kind == 12 && p.flags == 0 && p.payload == [];
            && o.shared == h && o.session == Some(a)
            && (o.fate == Stays <==> p.kind == 4 || (ping && env.sent)) && (o.fate == Closes <==> o.fate != Stays)
            && (if ping then
                  IsFrame(o.reply) && PacketOf(o.reply).kind == 13 && PacketOf(o.reply).payload == []
                else o.reply == [])
  {
    hide IsFrame, PacketOf;
    assert EncodeLength(0) == [0];
    assert [0xD0, 0] == [0xD0] + EncodeLength(0) + [];
    EncodedFrame(0xD0, []);
  }

  /** A SUBSCRIBE with other flags, or that does not decode, closes the socket and changes nothing. */
  lemma BadSubscribeCloses(h: Shared, a: Attached, conn: nat, p: Packet, env: Env)
    requires p.kind == 8 && (p.flags != 2 || DecodeSubscribe(p.payload).None?)
    ensures Handle(h, Some(a), conn, p, env) == Outcome(h, Some(a), [], Closes)
  {
    hide DecodeSubscribe;
  }

  lemma {:induction false} RequestsLength(requests: seq<Request>)
    ensures |RequestsBytes(requests)| >= 3 * |requests|
  {
    if requests != [] {
      RequestsLength(requests[1..]);
    }
  }

  /**
   * A SUBSCRIBE without a panicking filter is answered with one frame that carries its packet id and one code
   * per filter, in order; those codes tell exactly what the router, the mirror and the socket now hold. With
   * such a filter there is no answer, and what was served before it is held.
   */
  lemma SubscribeAnsweredExactly(h: Shared, a: Attached, conn: nat, p: Packet, env: Env)
    requires p.kind == 8 && p.flags == 2 && |p.payload| <= MAX_REMAINING && DecodeSubscribe(p.payload).Some?
    ensures var (packetId, requests) := DecodeSubscribe(p.payload).value;
            var o := Handle(h, Some(a), conn, p, env);
            && o.session.Some?
            && (PanickingPacket(p, a.client, env) ==>
                 && o.reply == [] && o.fate == Unwinds
                 && SubscribedAs(h, conn, a, Served(requests, a.client, env),
                      SubscribeAll(h, conn, a, Served(requests, a.client, env), env))
                 && o.shared == SubscribeAll(h, conn, a, Served(requests, a.client, env), env).shared)
            && (!PanickingPacket(p, a.client, env) ==>
                 && o.fate == (if env.sent then Stays else Closes)
                 && IsFrame(o.reply) && PacketOf(o.reply).kind == 9
                 && ReadU16(PacketOf(o.reply).payload).Some? && ReadU16(PacketOf(o.reply).payload).value.0 == packetId
                 && SubscribedAs(h, conn, a, requests,
                      Granting(o.shared, o.session.value, ReadU16(PacketOf(o.reply).payload).value.1)))
  {
    hide SubscribedAs, SubscribeAll, Suback, PacketOf, ReadU16, DecodeSubscribe, IsFrame, Utf8, ServedCount,
         DecodePublish, RequestPanics, PublishPanics;
    var (packetId, requests) := DecodeSubscribe(p.payload).value;
    SubscribeDecodesExactly(p.payload, packetId, requests);
    RequestsLength(requests);
    var served := Served(requests, a.client, env);
    SubscribeExactly(h, conn, a, served, env);
    var g := SubscribeAll(h, conn, a, served, env);
    SubscribedShape(h, conn, a, served, g);
    SubackFrame(packetId, g.codes);
    if !PanickingPacket(p, a.client, env) { assert served == requests; }
  }

  // ---------------------------------------------------------------------
  // The shared broker state as the sockets change it.
  // ---------------------------------------------------------------------

  class Hub {
    var gauge: int
    var router: map<Key, Entry>
    var sessions: map<Bytes, Stored>
    var slots: map<Bytes, nat>

    constructor (start: Shared)
      ensures State() == start
    {
      gauge, router, sessions, slots := start.gauge, start.router, start.sessions, start.slots;
    }

    ghost function State(): Shared
      reads this
    {
      Shared(gauge, router, sessions, slots)
    }

    method AddSubscription(client: Bytes, filter: Bytes, qos: QoS)
      modifies this`sessions
      ensures sessions == Mirror(old(sessions), client, filter, qos)
    {
      if client in sessions {
        var stored := sessions[client];
        sessions := sessions[client := stored.(filters := stored.filters[filter := qos])];
      }
    }

    /** One request: decide its code, and on a grant enter router, mirror and the socket's own list. */
    method HandleRequest(conn: nat, session: Attached, r: Request, env: Env)
      returns (after: Attached, code: byte, panicked: bool)
      modifies this
      ensures panicked <==> RequestPanics(r, session.client, env)
      ensures panicked ==> State() == old(State()) && after == session
      ensures !panicked ==>
              Granting(State(), after, [code]) == SubscribeOne(Granting(old(State()), session, []), conn, r, env)
    {
      hide Panics, Ask, ValidFilter;
      after, code, panicked := session, 0x80, false;
      if Panics(r.filter) {
        return session, code, true;
      }
      if ValidFilter(r.filter) && r.qos <= 2 && !(DELAYED <= r.filter) {
        var client := session.client;
        var answer := Authorize(client, Subscribing, r.filter, env);
        if answer == Broken {
          return session, code, true;
        }
        if answer == Denied {
          code := 0x87;
        } else if (r.filter, client) !in router && |router| >= MAX_SUBSCRIPTIONS {
          code := 0x97;
        } else {
          router := router[(r.filter, client) := Entry(conn, r.qos)];
          AddSubscription(client, r.filter, r.qos);
          after := session.(filters := session.filters + [r.filter]);
          code := r.qos;
        }
      }
    }

    /** Request by request; one that panics ends the loop with what was served before it. */
    method HandleSubscribe(conn: nat, a: Attached, requests: seq<Request>, env: Env)
      returns (session: Attached, codes: seq<byte>, panicked: bool)
      modifies this
      ensures Granting(State(), session, codes) ==
              SubscribeAll(old(State()), conn, a, Served(requests, a.client, env), env)
      ensures panicked <==> ServedCount(requests, a.client, env) < |requests|
    {
      hide SubscribeOne, RequestPanics, ServedCount;
      session, codes := a, [];
      for i := 0 to |requests|
        invariant i <= ServedCount(requests, a.client, env) && session.client == a.client
        invariant Granting(State(), session, codes) == SubscribeAll(old(State()), conn, a, requests[..i], env)
      {
        hide SubscribeAll;
        ghost var before := Granting(State(), session, codes);
        SubscribeSnoc(old(State()), conn, a, requests, i, env);
        var code: byte;
        session, code, panicked := HandleRequest(conn, session, requests[i], env);
        if panicked {
          return session, codes, true;
        }
        OneCode(before, conn, requests[i], env);
        codes := codes + [code];
      }
      return session, codes, false;
    }

    method UnbindConnection(client: Bytes, conn: nat)
      modifies this`sessions, this`slots
      ensures State() == Unbind(old(State()), client, conn)
    {
      if client in sessions && sessions[client].conn == Some(conn) {
        var s := sessions[client];
        var kept := if s.cleanStart then map[] else s.filters;
        sessions := sessions[client := Stored(None, false, s.cleanStart, s.username, kept)];
        slots := Release(slots, s.username);
      }
    }

    method TeardownSession(conn: nat, session: Option<Attached>)
      modifies this
      ensures State() == Teardown(old(State()), conn, session)
    {
      if session.None? {
        return;
      }
      var a := session.value;
      UnbindConnection(a.client, conn);
      gauge := gauge - 1;
      ghost var detached := State();
      for i := 0 to |a.filters|
        invariant State() == ForgetAll(detached, a.client, a.filters[..i])
      {
        assert a.filters[..i + 1][..i] == a.filters[..i];
        router := router - {(a.filters[i], a.client)};
        if a.client in sessions {
          var stored := sessions[a.client];
          sessions := sessions[a.client := stored.(filters := stored.filters - {a.filters[i]})];
        }
      }
      assert a.filters[..|a.filters|] == a.filters;
    }

    method HandleConnect(conn: nat, c: Connect, env: Env) returns (after: Option<Attached>, reply: Bytes, fate: Fate)
      modifies this
      ensures Outcome(State(), after, reply, fate) == Admit(old(State()), conn, c, env)
    {
      if !env.builtIn {
        return None, Connack(false, 0x86), Closes;
      }
      if c.username.None? && env.users > 0 {
        return None, Connack(false, 0x87), Closes;
      }
      if c.username.Some? && !env.authenticates(c) {
        return None, Connack(false, 0x86), Closes;
      }
      if c.username.Some? {
        var user := c.username.value;
        if c.clientId in sessions && sessions[c.clientId].connected {
          slots := Release(slots, c.username);
        }
        if env.limit.Some? {
          if Slots(slots, user) >= env.limit.value {
            return None, Connack(false, 0x8B), Closes;
          }
          slots := WithSlots(slots, user, Slots(slots, user) + 1);
        }
      }
      var present := !c.cleanStart && c.clientId in sessions;
      var stored := if present then sessions[c.clientId].(conn := Some(conn), connected := true, username := c.username)
                    else Stored(Some(conn), true, c.cleanStart, c.username, map[]);
      sessions := sessions[c.clientId := stored];
      gauge := gauge + 1;
      return Some(Attached(c.clientId, [])), Connack(present, 0), Unless(env.sent);
    }

    method HandlePacket(conn: nat, session: Option<Attached>, p: Packet, env: Env)
      returns (after: Option<Attached>, reply: Bytes, fate: Fate)
      modifies this
      ensures Outcome(State(), after, reply, fate) == Handle(old(State()), session, conn, p, env)
    {
      hide DecodeConnect, DecodeSubscribe, DecodePublish, SubscribeAll, Suback, U16, Admit, ServedCount, Ask;
      if session.None? {
        if p.kind != 1 {
          return None, [], Closes;
        }
        var decoded := DecodeConnect(p.payload, p.flags);
        if decoded.None? {
          return None, [], Closes;
        }
        after, reply, fate := HandleConnect(conn, decoded.value, env);
        return;
      }
      if p.kind == 8 {
        if p.flags != 2 {
          return session, [], Closes;
        }
        var decoded := DecodeSubscribe(p.payload);
        if decoded.None? {
          return session, [], Closes;
        }
        var granted, codes, panicked := HandleSubscribe(conn, session.value, decoded.value.1, env);
        if panicked {
          return Some(granted), [], Unwinds;
        }
        return Some(granted), Suback(decoded.value.0, codes), Unless(env.sent);
      }
      if p.kind == 3 {
        var decoded := DecodePublish(p.payload, p.flags);
        if decoded.None? {
          return session, [], Closes;
        }
        var m := decoded.value;
        if !(DELAYED <= m.topic) {
          var answer := Authorize(session.value.client, Publishing, m.topic, env);
          if answer == Broken {
            return session, [], Unwinds;
          }
        }
        return session, if m.qos == 1 then [0x40, 2] + U16(m.packetId) else [], Stays;
      }
      if p.kind == 12 && p.flags == 0 && p.payload == [] {
        return session, [0xD0, 0], Unless(env.sent);
      }
      return session, [], Unless(p.kind == 4);
    }
  }

  /** A request's effect does not depend on the codes before it. */
  lemma OneCode(g: Granting, conn: nat, r: Request, env: Env)
    ensures var one := SubscribeOne(g.(codes := []), conn, r, env);
            && SubscribeOne(g, conn, r, env) == one.(codes := g.codes + one.codes)
            && one.session.client == g.session.client
  {
    hide CodeFor, Grant;
  }

  lemma SubscribeSnoc(h: Shared, conn: nat, a: Attached, requests: seq<Request>, i: nat, env: Env)
    requires i < |requests|
    ensures SubscribeAll(h, conn, a, requests[..i + 1], env) ==
            SubscribeOne(SubscribeAll(h, conn, a, requests[..i], env), conn, requests[i], env)
  {
    assert requests[..i + 1][..i] == requests[..i];
  }
}
