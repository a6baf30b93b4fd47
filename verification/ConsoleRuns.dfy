/**
 * Every interleaving of any number of console sockets over one gauge, one router and one session mirror:
 * what is counted, what is left behind, and whether a socket still gets what it was granted.
 */
module ConsoleRuns {
  import opened Prelude
  import opened Framing
  import opened Packets
  import opened Console

  /** The sockets by connection id, and those of them whose task has unwound: their sessions are held by nobody. */
  datatype System = System(shared: Shared, sockets: map<nat, Option<Attached>>, lost: set<nat>, nextConn: nat)

  datatype Action = Open | Arrive(conn: nat, packet: Packet, env: Env) | Hangup(conn: nat)

  function Begin(start: Shared): System {
    System(start, map[], {}, 0)
  }

  predicate Running(s: System, conn: nat) {
    conn in s.sockets && conn !in s.lost
  }

  function Close(s: System, conn: nat): System
    requires conn in s.sockets
  {
    s.(shared := Teardown(s.shared, conn, s.sockets[conn]), sockets := s.sockets - {conn})
  }

  /** The system once a packet was handled, before the socket's fate. */
  function Handled(s: System, conn: nat, o: Outcome): System {
    s.(shared := o.shared, sockets := s.sockets[conn := o.session])
  }

  function Next(s: System, a: Action): System {
    match a
    case Open => s.(sockets := s.sockets[s.nextConn := None], nextConn := s.nextConn + 1)
    case Arrive(conn, packet, env) =>
      if !Running(s, conn) then s
      else
        var o := Handle(s.shared, s.sockets[conn], conn, packet, env);
        var t := Handled(s, conn, o);
        (match o.fate
         case Stays => t
         case Closes => Close(t, conn)
         case Unwinds => t.(lost := t.lost + {conn}))
    case Hangup(conn) => if !Running(s, conn) then s else Close(s, conn)
  }

  function After(s: System, actions: seq<Action>): System {
    if actions == [] then s else Next(After(s, actions[..|actions| - 1]), actions[|actions| - 1])
  }

  /**
   * A new socket has no session. A packet of a socket whose task runs is handled; the socket then stays, is torn
   * down with the session it has by then, or is lost with it. A hang-up tears down. Nothing else does anything.
   */
  lemma NextExactly(s: System, a: Action)
    ensures a.Open? ==>
            Next(s, a) == s.(sockets := s.sockets[s.nextConn := None], nextConn := s.nextConn + 1)
    ensures !a.Open? && !(a.conn in s.sockets && a.conn !in s.lost) ==> Next(s, a) == s
    ensures a.Hangup? && a.conn in s.sockets && a.conn !in s.lost ==>
            && Next(s, a).sockets == s.sockets - {a.conn} && Next(s, a).lost == s.lost
            && Next(s, a).shared == Teardown(s.shared, a.conn, s.sockets[a.conn])
    ensures a.Arrive? && a.conn in s.sockets && a.conn !in s.lost ==>
            var o := Handle(s.shared, s.sockets[a.conn], a.conn, a.packet, a.env);
            && Next(s, a).shared == (if o.fate == Closes then Teardown(o.shared, a.conn, o.session) else o.shared)
            && Next(s, a).sockets ==
               (if o.fate == Closes then s.sockets - {a.conn} else s.sockets[a.conn := o.session])
            && Next(s, a).lost == s.lost + if o.fate == Unwinds then {a.conn} else {}
  {
    hide Handle, Teardown;
  }

  /** A run is its actions one after the other. */
  lemma AfterExactly(s: System, actions: seq<Action>, a: Action)
    ensures After(s, []) == s && After(s, actions + [a]) == Next(After(s, actions), a)
  {
    hide Next;
    assert (actions + [a])[..|actions|] == actions;
  }

  /** Sockets with a session, whether or not their task still runs. */
  ghost function Held(s: System): set<nat> {
    set conn | conn in s.sockets && s.sockets[conn].Some?
  }

  /** Sockets with a session and a running task. */
  ghost function Live(s: System): set<nat> {
    Held(s) - s.lost
  }

  ghost predicate Tracks(s: System, conn: nat, client: Bytes, filter: Bytes) {
    && conn in s.sockets && s.sockets[conn].Some?
    && s.sockets[conn].value.client == client && filter in s.sockets[conn].value.filters
  }

  /** A socket of this client was granted this filter. */
  ghost predicate Tracked(s: System, client: Bytes, filter: Bytes) {
    exists conn :: Tracks(s, conn, client, filter)
  }

  /**
   * The gauge counts the sockets with a session, lost ones too; every router and mirror entry was there before
   * any socket or is tracked by one; the table stays within its cap.
   */
  ghost predicate Inv(s: System, start: Shared) {
    && s.shared.gauge == start.gauge + |Held(s)|
    && s.lost <= Held(s)
    && (forall conn :: conn in s.sockets ==> conn < s.nextConn)
    && (forall key: Key :: key in s.shared.router ==> key in start.router || Tracked(s, key.1, key.0))
    && (forall client: Bytes, filter: Bytes ::
         Mirrored(s.shared, client, filter).Some? ==>
             Mirrored(start, client, filter).Some? || Tracked(s, client, filter))
    && |s.shared.router| <= MAX_SUBSCRIPTIONS
  }

  lemma OneApart<T>(a: set<T>, b: set<T>, x: T)
    requires a - {x} == b - {x}
    ensures |b| == |a| + (if x in b then 1 else 0) - (if x in a then 1 else 0)
  {
    var rest := a - {x};
    assert a == if x in a then rest + {x} else rest;
    assert b == if x in b then rest + {x} else rest;
  }

  lemma HeldSize(before: System, after: System, conn: nat)
    requires forall c :: c != conn ==> (c in Held(after) <==> c in Held(before))
    ensures |Held(after)| ==
            |Held(before)| + (if conn in Held(after) then 1 else 0) - (if conn in Held(before) then 1 else 0)
  {
    OneApart(Held(before), Held(after), conn);
  }

  lemma SubsetSize<T>(a: set<T>, b: set<T>)
    requires a <= b
    ensures |a| <= |b|
  {
    if a != b {
      assert b == a + (b - a);
    }
  }

  /** The same sockets but for one. */
  ghost predicate SameBut(s: System, t: System, conn: nat) {
    forall c :: c != conn ==> (c in t.sockets <==> c in s.sockets) && (c in s.sockets ==> t.sockets[c] == s.sockets[c])
  }

  /** What a closing socket did not track is tracked by the same socket as before. */
  lemma StillTracked(s: System, t: System, conn: nat, client: Bytes, filter: Bytes)
    requires SameBut(s, t, conn) && !Tracks(s, conn, client, filter)
    ensures Tracked(s, client, filter) ==> Tracked(t, client, filter)
  {
    if Tracked(s, client, filter) {
      var c :| Tracks(s, c, client, filter);
      assert Tracks(t, c, client, filter);
    }
  }

  lemma TracksSame(s: System, t: System, conn: nat)
    requires SameBut(s, t, conn) && (conn in s.sockets ==> s.sockets[conn].None?)
    ensures forall client: Bytes, filter: Bytes :: Tracked(s, client, filter) ==> Tracked(t, client, filter)
  {
    forall client: Bytes, filter: Bytes | Tracked(s, client, filter) ensures Tracked(t, client, filter) {
      StillTracked(s, t, conn, client, filter);
    }
  }

  lemma CloseInv(s: System, conn: nat, start: Shared)
    requires Running(s, conn) && Inv(s, start)
    ensures Inv(Close(s, conn), start)
  {
    hide ForgetAll, Unbind, Tracked;
    var t := Close(s, conn);
    HeldSize(s, t, conn);
    if s.sockets[conn].Some? {
      var a := s.sockets[conn].value;
      TeardownExactly(s.shared, conn, a);
      SubsetSize(t.shared.router.Keys, s.shared.router.Keys);
      forall key: Key | key in t.shared.router ensures key in start.router || Tracked(t, key.1, key.0) {
        assert Routed(t.shared, key) == Routed(s.shared, key);
        StillTracked(s, t, conn, key.1, key.0);
      }
      forall client: Bytes, filter: Bytes | Mirrored(t.shared, client, filter).Some?
        ensures Mirrored(start, client, filter).Some? || Tracked(t, client, filter)
      {
        StillTracked(s, t, conn, client, filter);
      }
    } else {
      TracksSame(s, t, conn);
    }
  }

  // ---------------------------------------------------------------------
  // What one handled packet may do, before the socket's fate.
  // ---------------------------------------------------------------------

  ghost predicate Owns(m: Shared, conn: nat, session: Option<Attached>, key: Key) {
    && session.Some? && key.1 == session.value.client && key.0 in session.value.filters
    && Routed(m, key).Some? && Routed(m, key).value.conn == conn
  }

  /** Router entries change only to entries of this socket, tracked by it. */
  ghost predicate RouterHandled(h: Shared, m: Shared, conn: nat, session: Option<Attached>) {
    forall key: Key :: Routed(m, key) == Routed(h, key) || Owns(m, conn, session, key)
  }

  ghost predicate MirrorHandled(h: Shared, m: Shared, session: Option<Attached>) {
    forall client: Bytes, filter: Bytes :: Mirrored(m, client, filter).Some? ==>
      || Mirrored(h, client, filter).Some?
      || (session.Some? && client == session.value.client && filter in session.value.filters)
  }

  /** A session is gained at most once, keeps its client, and only gains filters, each routed to this socket. */
  ghost predicate SessionHandled(before: Option<Attached>, after: Option<Attached>, m: Shared, conn: nat) {
    && (before.Some? ==>
         after.Some? && after.value.client == before.value.client && before.value.filters <= after.value.filters)
    && (before.None? && after.Some? ==> after.value.filters == [])
    && (before.Some? ==> forall f: Bytes :: f in after.value.filters && f !in before.value.filters ==>
          Owns(m, conn, after, (f, after.value.client)))
  }

  /** Nothing of another client changes. */
  ghost predicate OthersKept(h: Shared, m: Shared, client: Bytes) {
    && (forall key: Key :: key.1 != client ==> Routed(m, key) == Routed(h, key))
    && (forall c: Bytes :: c != client ==>
          (c in m.sessions <==> c in h.sessions) && (c in h.sessions ==> m.sessions[c] == h.sessions[c]))
  }

  ghost predicate HandledAs(h: Shared, before: Option<Attached>, conn: nat, o: Outcome) {
    && o.shared.gauge == h.gauge + (if before.None? && o.session.Some? then 1 else 0)
    && (|h.router| <= MAX_SUBSCRIPTIONS ==> |o.shared.router| <= MAX_SUBSCRIPTIONS)
    && RouterHandled(h, o.shared, conn, o.session)
    && MirrorHandled(h, o.shared, o.session)
    && SessionHandled(before, o.session, o.shared, conn)
    && (o.fate == Unwinds ==> before.Some?)
    && (o.session.None? ==> forall client: Bytes :: OthersKept(h, o.shared, client))
    && (o.session.Some? ==> OthersKept(h, o.shared, o.session.value.client))
  }

  lemma SubscribeHandled(h: Shared, a: Attached, conn: nat, requests: seq<Request>, env: Env, o: Outcome)
    requires var g := SubscribeAll(h, conn, a, requests, env); o.shared == g.shared && o.session == Some(g.session)
    ensures HandledAs(h, Some(a), conn, o)
  {
    hide SubscribeAll, LastGrant, Granted, ValidFilter, OthersKept, MirrorAfter;
    var g := SubscribeAll(h, conn, a, requests, env);
    SubscribeExactly(h, conn, a, requests, env);
    forall f ensures f in Granted(requests, g.codes) <==> LastGrant(requests, g.codes, f).Some? {
      GrantedExactly(requests, g.codes, f);
    }
    forall key: Key ensures Routed(g.shared, key) == Routed(h, key) || Owns(g.shared, conn, Some(g.session), key) {
      assert key.0 in Granted(requests, g.codes) <==> LastGrant(requests, g.codes, key.0).Some?;
    }
    forall f: Bytes | f in g.session.filters && f !in a.filters
      ensures Owns(g.shared, conn, Some(g.session), (f, a.client))
    {
      assert f in Granted(requests, g.codes);
      assert Routed(g.shared, (f, a.client)).Some?;
    }
    SubscribeMirror(h, conn, a, requests, g);
    SubscribeOthers(h, conn, a, requests, g);
  }

  lemma SubscribeMirror(h: Shared, conn: nat, a: Attached, requests: seq<Request>, g: Granting)
    requires SubscribedAs(h, conn, a, requests, g)
    ensures MirrorHandled(h, g.shared, Some(g.session))
  {
    hide LastGrant, Granted, ValidFilter, RouterAfter;
    forall client: Bytes, filter: Bytes | Mirrored(g.shared, client, filter).Some?
      ensures Mirrored(h, client, filter).Some? || (client == a.client && filter in g.session.filters)
    {
      GrantedExactly(requests, g.codes, filter);
    }
  }

  lemma SubscribeOthers(h: Shared, conn: nat, a: Attached, requests: seq<Request>, g: Granting)
    requires SubscribedAs(h, conn, a, requests, g)
    ensures OthersKept(h, g.shared, a.client)
  {
    hide LastGrant, Granted, ValidFilter;
    forall c: Bytes | c != a.client && c in h.sessions ensures g.shared.sessions[c] == h.sessions[c] {
      forall f: Bytes ensures f in g.shared.sessions[c].filters <==> f in h.sessions[c].filters
                      ensures f in h.sessions[c].filters ==> g.shared.sessions[c].filters[f] == h.sessions[c].filters[f]
      {
        assert Mirrored(g.shared, c, f) == Mirrored(h, c, f);
      }
      assert g.shared.sessions[c].filters == h.sessions[c].filters;
      assert g.shared.sessions[c].(filters := map[]) == h.sessions[c].(filters := map[]);
    }
  }

  lemma NothingHandled(h: Shared, session: Option<Attached>, conn: nat, o: Outcome)
    requires o.shared.(slots := h.slots) == h && o.session == session && (o.fate == Unwinds ==> session.Some?)
    ensures HandledAs(h, session, conn, o)
  {
    assert forall key: Key :: Routed(o.shared, key) == Routed(h, key);
  }

  lemma AttachHandled(h: Shared, conn: nat, c: Connect, env: Env, o: Outcome)
    requires o.shared == Attach(h, conn, c, env.limit)
    requires o.session == Some(Attached(c.clientId, [])) && o.fate != Unwinds
    ensures HandledAs(h, None, conn, o)
  {
    hide SlotsAsked;
    assert forall key: Key :: Routed(o.shared, key) == Routed(h, key);
  }

  lemma HandleFacts(h: Shared, session: Option<Attached>, conn: nat, p: Packet, env: Env)
    ensures HandledAs(h, session, conn, Handle(h, session, conn, p, env))
  {
    hide DecodeConnect, DecodeSubscribe, DecodePublish, SubscribeAll, Suback, U16, Connack, SlotsAsked, ServedCount,
         PublishPanics, HandledAs, Attach, Verdict;
    var o := Handle(h, session, conn, p, env);
    if session.Some? && p.kind == 8 && p.flags == 2 && DecodeSubscribe(p.payload).Some? {
      var served := Served(DecodeSubscribe(p.payload).value.1, session.value.client, env);
      SubscribeHandled(h, session.value, conn, served, env, o);
    } else if session.None? && o.session.Some? {
      AttachHandled(h, conn, DecodeConnect(p.payload, p.flags).value, env, o);
    } else {
      NothingHandled(h, session, conn, o);
    }
  }

  lemma ArriveInv(s: System, conn: nat, packet: Packet, env: Env, start: Shared)
    requires Running(s, conn) && Inv(s, start)
    ensures Inv(Handled(s, conn, Handle(s.shared, s.sockets[conn], conn, packet, env)), start)
  {
    hide Handle, RouterHandled, MirrorHandled, Tracked, OthersKept;
    var o := Handle(s.shared, s.sockets[conn], conn, packet, env);
    var t := Handled(s, conn, o);
    HandleFacts(s.shared, s.sockets[conn], conn, packet, env);
    HeldSize(s, t, conn);
    forall key: Key | key in t.shared.router ensures key in start.router || Tracked(t, key.1, key.0) {
      TrackedGrows(s, t, conn, key.1, key.0);
      RouterTracked(s.shared, t, conn, key);
    }
    forall client: Bytes, filter: Bytes | Mirrored(t.shared, client, filter).Some?
      ensures Mirrored(start, client, filter).Some? || Tracked(t, client, filter)
    {
      TrackedGrows(s, t, conn, client, filter);
      MirrorTracked(s.shared, t, conn, client, filter);
    }
  }

  lemma TrackedGrows(s: System, t: System, conn: nat, client: Bytes, filter: Bytes)
    requires conn in s.sockets && conn in t.sockets && t.sockets == s.sockets[conn := t.sockets[conn]]
    requires SessionHandled(s.sockets[conn], t.sockets[conn], t.shared, conn)
    ensures Tracked(s, client, filter) ==> Tracked(t, client, filter)
  {
    if Tracked(s, client, filter) {
      var c :| Tracks(s, c, client, filter);
      assert Tracks(t, c, client, filter);
    }
  }

  lemma RouterTracked(h: Shared, t: System, conn: nat, key: Key)
    requires conn in t.sockets && RouterHandled(h, t.shared, conn, t.sockets[conn]) && key in t.shared.router
    ensures key in h.router || Tracked(t, key.1, key.0)
  {
    assert Routed(t.shared, key) == Routed(h, key) || Owns(t.shared, conn, t.sockets[conn], key);
    if key !in h.router {
      assert Tracks(t, conn, key.1, key.0);
    }
  }

  lemma MirrorTracked(h: Shared, t: System, conn: nat, client: Bytes, filter: Bytes)
    requires conn in t.sockets && MirrorHandled(h, t.shared, t.sockets[conn])
    requires Mirrored(t.shared, client, filter).Some?
    ensures Mirrored(h, client, filter).Some? || Tracked(t, client, filter)
  {
    if Mirrored(h, client, filter).None? {
      assert Tracks(t, conn, client, filter);
    }
  }

  lemma LoseInv(t: System, conn: nat, start: Shared)
    requires Inv(t, start) && conn in Held(t)
    ensures Inv(t.(lost := t.lost + {conn}), start)
  {
    hide Tracked;
    var u := t.(lost := t.lost + {conn});
    assert Held(u) == Held(t);
    forall client: Bytes, filter: Bytes | Tracked(t, client, filter) ensures Tracked(u, client, filter) {
      SameSockets(t, u, client, filter);
    }
  }

  lemma SameSockets(t: System, u: System, client: Bytes, filter: Bytes)
    requires u.sockets == t.sockets
    ensures Tracked(t, client, filter) <==> Tracked(u, client, filter)
  {
    if Tracked(t, client, filter) {
      var c :| Tracks(t, c, client, filter);
      assert Tracks(u, c, client, filter);
    }
    if Tracked(u, client, filter) {
      var c :| Tracks(u, c, client, filter);
      assert Tracks(t, c, client, filter);
    }
  }

  lemma OpenInv(s: System, start: Shared)
    requires Inv(s, start)
    ensures Inv(Next(s, Open), start)
  {
    var t := Next(s, Open);
    HeldSize(s, t, s.nextConn);
    TracksSame(s, t, s.nextConn);
  }

  lemma NextInv(s: System, a: Action, start: Shared)
    requires Inv(s, start)
    ensures Inv(Next(s, a), start)
  {
    hide Handle, Close, Inv, Held;
    match a
    case Open => OpenInv(s, start);
    case Arrive(conn, packet, env) =>
      if Running(s, conn) {
        ArriveInv(s, conn, packet, env, start);
        var o := Handle(s.shared, s.sockets[conn], conn, packet, env);
        match o.fate
        case Stays =>
        case Closes => CloseInv(Handled(s, conn, o), conn, start);
        case Unwinds =>
          UnwoundHolds(s, conn, packet, env);
          LoseInv(Handled(s, conn, o), conn, start);
      }
    case Hangup(conn) => if Running(s, conn) { CloseInv(s, conn, start); }
  }

  lemma UnwoundHolds(s: System, conn: nat, packet: Packet, env: Env)
    requires conn in s.sockets && Handle(s.shared, s.sockets[conn], conn, packet, env).fate == Unwinds
    ensures conn in Held(Handled(s, conn, Handle(s.shared, s.sockets[conn], conn, packet, env)))
  {
    hide Handle, RouterHandled, MirrorHandled, OthersKept;
    HandleFacts(s.shared, s.sockets[conn], conn, packet, env);
  }

  /**
   * In every interleaving of packets, refusals, send failures, hang-ups and panics, the gauge is off its base by
   * exactly the sockets with a session, and every entry is accounted for by one of them.
   */
  lemma {:induction false} EveryInterleaving(start: Shared, actions: seq<Action>)
    requires |start.router| <= MAX_SUBSCRIPTIONS
    ensures Inv(After(Begin(start), actions), start)
  {
    hide Next;
    if actions == [] {
      assert Held(Begin(start)) == {};
    } else {
      var init := actions[..|actions| - 1];
      EveryInterleaving(start, init);
      NextInv(After(Begin(start), init), actions[|actions| - 1], start);
    }
  }

  // ---------------------------------------------------------------------
  // When nothing is leaked.
  // ---------------------------------------------------------------------

  /** A packet that panics for its client reaches a running socket with a session. */
  predicate Unwinding(s: System, a: Action) {
    && a.Arrive? && Running(s, a.conn) && s.sockets[a.conn].Some?
    && PanickingPacket(a.packet, s.sockets[a.conn].value.client, a.env)
  }

  predicate NoUnwinding(s: System, actions: seq<Action>) {
    actions != [] ==>
      && NoUnwinding(s, actions[..|actions| - 1])
      && !Unwinding(After(s, actions[..|actions| - 1]), actions[|actions| - 1])
  }

  lemma LostStep(s: System, a: Action)
    ensures Next(s, a).lost == if Unwinding(s, a) then s.lost + {a.conn} else s.lost
  {
    hide Handle, PanickingPacket;
    if a.Arrive? && Running(s, a.conn) {
      UnwindsExactly(s.shared, s.sockets[a.conn], a.conn, a.packet, a.env);
    }
  }

  lemma {:induction false} LostExactly(s: System, actions: seq<Action>)
    requires s.lost == {}
    ensures After(s, actions).lost == {} <==> NoUnwinding(s, actions)
  {
    hide Next, Unwinding;
    if actions != [] {
      var init := actions[..|actions| - 1];
      LostExactly(s, init);
      LostStep(After(s, init), actions[|actions| - 1]);
    }
  }

  /** The gauge counts the live sockets exactly in the runs in which no task unwinds; every such one is one too many. */
  lemma GaugeExactly(start: Shared, actions: seq<Action>)
    requires |start.router| <= MAX_SUBSCRIPTIONS
    ensures var s := After(Begin(start), actions);
            && s.shared.gauge == start.gauge + |Live(s)| + |s.lost|
            && (s.shared.gauge == start.gauge + |Live(s)| <==> NoUnwinding(Begin(start), actions))
  {
    hide After, Tracked, NoUnwinding;
    var s := After(Begin(start), actions);
    EveryInterleaving(start, actions);
    LostExactly(Begin(start), actions);
    assert Held(s) == Live(s) + s.lost;
  }

  /** When no socket is attached and none was lost, no router or mirror entry remains that was not there before. */
  lemma AllDetached(start: Shared, actions: seq<Action>)
    requires |start.router| <= MAX_SUBSCRIPTIONS && NoUnwinding(Begin(start), actions)
    requires Live(After(Begin(start), actions)) == {}
    ensures var s := After(Begin(start), actions);
            && s.shared.gauge == start.gauge
            && s.shared.router.Keys <= start.router.Keys
            && (forall client: Bytes, filter: Bytes ::
                 Mirrored(s.shared, client, filter).Some? ==> Mirrored(start, client, filter).Some?)
  {
    hide After, NoUnwinding;
    var s := After(Begin(start), actions);
    EveryInterleaving(start, actions);
    LostExactly(Begin(start), actions);
    forall client: Bytes, filter: Bytes ensures !Tracked(s, client, filter) {
      assert forall conn :: Tracks(s, conn, client, filter) ==> conn in Live(s);
    }
  }

  // ---------------------------------------------------------------------
  // Whether closing a socket takes filters from another.
  // ---------------------------------------------------------------------

  /** Every filter granted on a live socket is in the router. */
  ghost predicate Present(s: System) {
    forall conn, client: Bytes, filter: Bytes ::
      Tracks(s, conn, client, filter) && conn !in s.lost ==> (filter, client) in s.shared.router
  }

  /** Another live socket of the same client was granted one of this socket's filters. */
  ghost predicate Overlap(s: System, conn: nat) {
    exists other, client: Bytes, filter: Bytes ::
      other != conn && other !in s.lost && Tracks(s, other, client, filter) && Tracks(s, conn, client, filter)
  }

  /** Closing a socket leaves every other live socket its filters exactly when none overlaps with it. */
  lemma CloseKeepsExactly(s: System, conn: nat)
    requires Running(s, conn) && Present(s)
    ensures Present(Close(s, conn)) <==> !Overlap(s, conn)
  {
    hide ForgetAll, Unbind;
    var t := Close(s, conn);
    assert forall c, client: Bytes, filter: Bytes ::
           Tracks(t, c, client, filter) <==> c != conn && Tracks(s, c, client, filter);
    if s.sockets[conn].Some? {
      TeardownExactly(s.shared, conn, s.sockets[conn].value);
      if Overlap(s, conn) {
        var other, client: Bytes, filter: Bytes :|
          other != conn && other !in s.lost && Tracks(s, other, client, filter) && Tracks(s, conn, client, filter);
        assert Routed(t.shared, (filter, client)) == None;
        assert Tracks(t, other, client, filter);
      } else {
        forall c, client: Bytes, filter: Bytes | Tracks(t, c, client, filter) && c !in t.lost
          ensures (filter, client) in t.shared.router
        {
          assert Tracks(s, c, client, filter) && !Tracks(s, conn, client, filter);
          assert Routed(t.shared, (filter, client)) == Routed(s.shared, (filter, client));
        }
      }
    }
  }

  // ---------------------------------------------------------------------
  // Whether a live socket is served what it was granted.
  // ---------------------------------------------------------------------

  /** The client's stored session is bound to this connection. */
  predicate Bound(h: Shared, conn: nat, client: Bytes) {
    Owned(h, client, conn) && h.sessions[client].connected
  }

  /** A filter is routed to this connection, with the QoS that the mirror has too. */
  predicate Aligned(h: Shared, conn: nat, client: Bytes, filter: Bytes) {
    && Routed(h, (filter, client)).Some? && Routed(h, (filter, client)).value.conn == conn
    && Mirrored(h, client, filter) == Some(Routed(h, (filter, client)).value.qos)
  }

  ghost predicate Delivered(h: Shared, conn: nat, a: Attached) {
    Bound(h, conn, a.client) && forall f: Bytes :: f in a.filters ==> Aligned(h, conn, a.client, f)
  }

  /** Every live socket's client is bound to it and every filter it was granted is routed to it. */
  ghost predicate AllDelivered(s: System) {
    forall conn :: conn in Live(s) ==> Delivered(s.shared, conn, s.sockets[conn].value)
  }

  /** Live sockets have different client ids. */
  ghost predicate OneEach(s: System) {
    forall c, d :: c in Live(s) && d in Live(s) && s.sockets[c].value.client == s.sockets[d].value.client ==> c == d
  }

  /** A CONNECT under a client id that a live socket already has. */
  ghost predicate Takeover(s: System, a: Action) {
    && a.Arrive? && Running(s, a.conn) && s.sockets[a.conn].None? && a.packet.kind == 1
    && DecodeConnect(a.packet.payload, a.packet.flags).Some?
    && exists d ::
       d in Live(s) && s.sockets[d].value.client == DecodeConnect(a.packet.payload, a.packet.flags).value.clientId
  }

  ghost predicate NoTakeover(s: System, actions: seq<Action>) {
    actions != [] ==>
      && NoTakeover(s, actions[..|actions| - 1])
      && !Takeover(After(s, actions[..|actions| - 1]), actions[|actions| - 1])
  }

  lemma OthersDelivered(h: Shared, m: Shared, client: Bytes, conn: nat, a: Attached)
    requires OthersKept(h, m, client) && a.client != client && Delivered(h, conn, a)
    ensures Delivered(m, conn, a)
  {
    assert a.client in m.sessions && m.sessions[a.client] == h.sessions[a.client];
    forall f: Bytes | f in a.filters ensures Aligned(m, conn, a.client, f) {
      assert Aligned(h, conn, a.client, f);
      assert Routed(m, (f, a.client)) == Routed(h, (f, a.client));
    }
  }

  lemma SubscribeDelivers(h: Shared, conn: nat, a: Attached, requests: seq<Request>, env: Env)
    requires Delivered(h, conn, a)
    ensures var g := SubscribeAll(h, conn, a, requests, env); Delivered(g.shared, conn, g.session)
  {
    hide SubscribeAll, LastGrant, Granted, ValidFilter;
    var g := SubscribeAll(h, conn, a, requests, env);
    SubscribeExactly(h, conn, a, requests, env);
    assert g.shared.sessions[a.client].(filters := map[]) == h.sessions[a.client].(filters := map[]);
    forall f: Bytes | f in g.session.filters ensures Aligned(g.shared, conn, a.client, f) {
      GrantedExactly(requests, g.codes, f);
      assert Mirrored(g.shared, a.client, f) ==
        if LastGrant(requests, g.codes, f).Some? then LastGrant(requests, g.codes, f) else Mirrored(h, a.client, f);
      assert LastGrant(requests, g.codes, f).None? ==> Aligned(h, conn, a.client, f);
    }
  }

  /** A handled packet serves its own socket. */
  lemma HandleDelivers(h: Shared, session: Option<Attached>, conn: nat, p: Packet, env: Env)
    requires session.Some? ==> Delivered(h, conn, session.value)
    ensures var o := Handle(h, session, conn, p, env); o.session.Some? ==> Delivered(o.shared, conn, o.session.value)
  {
    hide DecodeConnect, DecodeSubscribe, DecodePublish, SubscribeAll, Suback, U16, Connack, SlotsAsked, ServedCount,
         PublishPanics, Delivered;
    if session.Some? && p.kind == 8 && p.flags == 2 && DecodeSubscribe(p.payload).Some? {
      var served := Served(DecodeSubscribe(p.payload).value.1, session.value.client, env);
      SubscribeDelivers(h, conn, session.value, served, env);
    }
    if session.None? && p.kind == 1 && DecodeConnect(p.payload, p.flags).Some? {
      AttachDelivers(h, conn, DecodeConnect(p.payload, p.flags).value, env.limit);
    }
  }

  lemma AttachDelivers(h: Shared, conn: nat, c: Connect, limit: Option<nat>)
    ensures Delivered(Attach(h, conn, c, limit), conn, Attached(c.clientId, []))
  {
    hide SlotsAsked;
  }

  /** The socket's client after a packet is the one it had, or the one it asked for. */
  lemma ClientAfter(h: Shared, session: Option<Attached>, conn: nat, p: Packet, env: Env)
    ensures var o := Handle(h, session, conn, p, env);
            o.session.Some? ==>
              if session.Some? then o.session.value.client == session.value.client
              else p.kind == 1 && DecodeConnect(p.payload, p.flags).Some?
                   && o.session.value.client == DecodeConnect(p.payload, p.flags).value.clientId
  {
    hide DecodeConnect, DecodeSubscribe, DecodePublish, SubscribeAll, Suback, U16, Connack, SlotsAsked, ServedCount,
         PublishPanics, RouterHandled, MirrorHandled, OthersKept;
    HandleFacts(h, session, conn, p, env);
  }

  lemma ArriveServes(s: System, conn: nat, packet: Packet, env: Env)
    requires Running(s, conn) && OneEach(s) && AllDelivered(s) && !Takeover(s, Arrive(conn, packet, env))
    ensures var t := Handled(s, conn, Handle(s.shared, s.sockets[conn], conn, packet, env));
            OneEach(t) && AllDelivered(t)
  {
    hide Handle, RouterHandled, MirrorHandled, OthersKept, Delivered, DecodeConnect;
    var o := Handle(s.shared, s.sockets[conn], conn, packet, env);
    var t := Handled(s, conn, o);
    HandleFacts(s.shared, s.sockets[conn], conn, packet, env);
    ClientAfter(s.shared, s.sockets[conn], conn, packet, env);
    assert forall c :: c != conn ==> (c in Live(t) <==> c in Live(s));
    forall c | c in Live(t) && c != conn && conn in Live(t)
      ensures t.sockets[c].value.client != t.sockets[conn].value.client
    {
      assert s.sockets[conn].Some? ==> conn in Live(s);
    }
    assert s.sockets[conn].Some? ==> conn in Live(s);
    HandleDelivers(s.shared, s.sockets[conn], conn, packet, env);
    forall c | c in Live(t) ensures Delivered(t.shared, c, t.sockets[c].value) {
      if c != conn {
        var client := if o.session.Some? then o.session.value.client else t.sockets[c].value.client + [0];
        assert OthersKept(s.shared, t.shared, client);
        assert t.sockets[c].value.client != client;
        OthersDelivered(s.shared, t.shared, client, c, t.sockets[c].value);
      }
    }
  }

  lemma TeardownOthers(h: Shared, conn: nat, a: Attached)
    ensures OthersKept(h, Teardown(h, conn, Some(a)), a.client)
  {
    hide Teardown, Release;
    TeardownExactly(h, conn, a);
    var m := Teardown(h, conn, Some(a));
    forall key: Key | key.1 != a.client ensures Routed(m, key) == Routed(h, key) {}
  }

  lemma CloseServes(s: System, conn: nat)
    requires Running(s, conn) && OneEach(s) && AllDelivered(s)
    ensures OneEach(Close(s, conn)) && AllDelivered(Close(s, conn))
  {
    hide Teardown, OthersKept, Delivered;
    var t := Close(s, conn);
    assert forall c :: c in Live(t) ==> c in Live(s) && c != conn;
    if s.sockets[conn].Some? {
      assert conn in Live(s);
      TeardownOthers(s.shared, conn, s.sockets[conn].value);
      forall c | c in Live(t) ensures Delivered(t.shared, c, t.sockets[c].value) {
        OthersDelivered(s.shared, t.shared, s.sockets[conn].value.client, c, t.sockets[c].value);
      }
    } else {
      NoSession(s, conn);
    }
  }

  lemma NoSession(s: System, conn: nat)
    requires conn in s.sockets && s.sockets[conn].None?
    ensures Close(s, conn).shared == s.shared
  {
  }

  lemma LoseServes(t: System, conn: nat)
    requires OneEach(t) && AllDelivered(t)
    ensures var u := t.(lost := t.lost + {conn}); OneEach(u) && AllDelivered(u)
  {
    hide Delivered;
    assert forall c :: c in Live(t.(lost := t.lost + {conn})) ==> c in Live(t);
  }

  lemma OpenServes(s: System)
    requires OneEach(s) && AllDelivered(s)
    requires forall conn :: conn in s.sockets ==> conn < s.nextConn
    ensures OneEach(Next(s, Open)) && AllDelivered(Next(s, Open))
  {
    hide Delivered;
    assert forall c :: c in Live(Next(s, Open)) ==> c in Live(s);
  }

  lemma NextServes(s: System, a: Action)
    requires OneEach(s) && AllDelivered(s) && !Takeover(s, a)
    requires forall conn :: conn in s.sockets ==> conn < s.nextConn
    ensures OneEach(Next(s, a)) && AllDelivered(Next(s, a))
  {
    hide Handle, Close, Takeover, OneEach, AllDelivered;
    match a
    case Open => OpenServes(s);
    case Arrive(conn, packet, env) =>
      if Running(s, conn) {
        var o := Handle(s.shared, s.sockets[conn], conn, packet, env);
        var t := Handled(s, conn, o);
        ArriveServes(s, conn, packet, env);
        CloseServes(t, conn);
        LoseServes(t, conn);
      }
    case Hangup(conn) => if Running(s, conn) { CloseServes(s, conn); }
  }

  /**
   * In every run without a takeover, every live socket's client is bound to it, and every filter it was granted
   * is routed to it with the QoS in its mirror.
   */
  lemma {:induction false} GrantedStaysRouted(start: Shared, actions: seq<Action>)
    requires |start.router| <= MAX_SUBSCRIPTIONS && NoTakeover(Begin(start), actions)
    ensures var s := After(Begin(start), actions); OneEach(s) && AllDelivered(s)
  {
    hide Next, OneEach, AllDelivered, Takeover, Tracked;
    if actions == [] {
      NothingLive(start);
    } else {
      var init := actions[..|actions| - 1];
      GrantedStaysRouted(start, init);
      EveryInterleaving(start, init);
      NextServes(After(Begin(start), init), actions[|actions| - 1]);
    }
  }

  lemma NothingLive(start: Shared)
    ensures OneEach(Begin(start)) && AllDelivered(Begin(start))
  {
  }

  /** The QoS last granted for a filter on a connection in a run. */
  ghost function LastQoS(s: System, actions: seq<Action>, conn: nat, filter: Bytes): Option<QoS> {
    if actions == [] then None
    else
      var init, a := actions[..|actions| - 1], actions[|actions| - 1];
      var now := GrantedNow(After(s, init), a, conn, filter);
      if now.Some? then now else LastQoS(s, init, conn, filter)
  }

  /** What one action grants a filter on a connection. */
  ghost function GrantedNow(s: System, a: Action, conn: nat, filter: Bytes): Option<QoS> {
    if a.Arrive? && a.conn == conn && conn in Live(s) && a.packet.kind == 8 && a.packet.flags == 2
       && DecodeSubscribe(a.packet.payload).Some?
    then
      var served := Served(DecodeSubscribe(a.packet.payload).value.1, s.sockets[conn].value.client, a.env);
      var g := SubscribeAll(s.shared, conn, s.sockets[conn].value, served, a.env);
      if |g.codes| == |served| then LastGrant(served, g.codes, filter) else None
    else None
  }

  /** One step leaves a live socket's route as it was, or sets it to what the step grants. */
  lemma RouteStep(s: System, a: Action, conn: nat, filter: Bytes)
    requires OneEach(s) && !Takeover(s, a) && (forall c :: c in s.sockets ==> c < s.nextConn)
    requires conn in Live(Next(s, a))
    ensures var t := Next(s, a);
            var client := t.sockets[conn].value.client;
            if conn in Live(s) then
              && s.sockets[conn].value.client == client
              && (filter in t.sockets[conn].value.filters <==>
                   filter in s.sockets[conn].value.filters || GrantedNow(s, a, conn, filter).Some?)
              && Routed(t.shared, (filter, client)) ==
                 (if GrantedNow(s, a, conn, filter).Some? then Some(Entry(conn, GrantedNow(s, a, conn, filter).value))
                  else Routed(s.shared, (filter, client)))
            else t.sockets[conn].value.filters == []
  {
    hide Handle, GrantedNow, OthersKept, MirrorHandled, RouterHandled, Teardown;
    match a
    case Open => OtherStep(s, a, conn, filter);
    case Hangup(c) =>
      OtherStep(s, a, conn, filter);
      if Running(s, c) { ForeignClose(s, c, conn, filter); }
    case Arrive(c, packet, env) =>
      if Running(s, c) {
        var o := Handle(s.shared, s.sockets[c], c, packet, env);
        var t := Handled(s, c, o);
        if c == conn {
          OwnStep(s, conn, packet, env, filter);
        } else {
          OtherStep(s, a, conn, filter);
          ForeignPacket(s, c, packet, env, conn, filter);
          ArriveOneEach(s, c, packet, env);
          ForeignClose(t, c, conn, filter);
        }
      } else {
        OtherStep(s, a, conn, filter);
      }
  }

  lemma OtherStep(s: System, a: Action, conn: nat, filter: Bytes)
    requires !a.Arrive? || a.conn != conn || !Running(s, conn)
    ensures GrantedNow(s, a, conn, filter) == None
  {
  }

  lemma ArriveOneEach(s: System, conn: nat, packet: Packet, env: Env)
    requires Running(s, conn) && OneEach(s) && !Takeover(s, Arrive(conn, packet, env))
    ensures OneEach(Handled(s, conn, Handle(s.shared, s.sockets[conn], conn, packet, env)))
  {
    hide Handle, DecodeConnect;
    var o := Handle(s.shared, s.sockets[conn], conn, packet, env);
    var t := Handled(s, conn, o);
    ClientAfter(s.shared, s.sockets[conn], conn, packet, env);
    assert forall c :: c != conn ==> (c in Live(t) <==> c in Live(s));
    assert s.sockets[conn].Some? ==> conn in Live(s);
  }

  /** A close of another socket does not touch a live socket's route. */
  lemma ForeignClose(s: System, c: nat, conn: nat, filter: Bytes)
    requires Running(s, c) && OneEach(s) && c != conn && conn in Live(s)
    ensures var client := s.sockets[conn].value.client;
            Routed(Close(s, c).shared, (filter, client)) == Routed(s.shared, (filter, client))
  {
    hide Teardown, Release;
    if s.sockets[c].Some? {
      assert c in Live(s);
      TeardownExactly(s.shared, c, s.sockets[c].value);
    } else {
      NoSession(s, c);
    }
  }

  /** Nor does a packet of another socket that is no takeover. */
  lemma ForeignPacket(s: System, c: nat, packet: Packet, env: Env, conn: nat, filter: Bytes)
    requires Running(s, c) && OneEach(s) && !Takeover(s, Arrive(c, packet, env)) && c != conn && conn in Live(s)
    ensures var client := s.sockets[conn].value.client;
            Routed(Handle(s.shared, s.sockets[c], c, packet, env).shared, (filter, client)) ==
            Routed(s.shared, (filter, client))
  {
    hide Handle, DecodeConnect, MirrorHandled, RouterHandled;
    var o := Handle(s.shared, s.sockets[c], c, packet, env);
    var client := s.sockets[conn].value.client;
    HandleFacts(s.shared, s.sockets[c], c, packet, env);
    ClientAfter(s.shared, s.sockets[c], c, packet, env);
    if o.session.Some? {
      assert s.sockets[c].Some? ==> c in Live(s);
      assert o.session.value.client != client;
    } else {
      assert OthersKept(s.shared, o.shared, client + [0]);
    }
  }

  /** A packet of the socket itself. */
  lemma OwnStep(s: System, conn: nat, packet: Packet, env: Env, filter: Bytes)
    requires Running(s, conn) && conn in Live(Next(s, Arrive(conn, packet, env)))
    ensures var a := Arrive(conn, packet, env);
            var t := Next(s, a);
            var client := t.sockets[conn].value.client;
            if conn in Live(s) then
              && s.sockets[conn].value.client == client
              && (filter in t.sockets[conn].value.filters <==>
                   filter in s.sockets[conn].value.filters || GrantedNow(s, a, conn, filter).Some?)
              && Routed(t.shared, (filter, client)) ==
                 (if GrantedNow(s, a, conn, filter).Some? then Some(Entry(conn, GrantedNow(s, a, conn, filter).value))
                  else Routed(s.shared, (filter, client)))
            else t.sockets[conn].value.filters == []
  {
    hide DecodeConnect, DecodeSubscribe, DecodePublish, SubscribeAll, Suback, U16, Connack, SlotsAsked, ServedCount,
         PublishPanics, LastGrant, Granted, ValidFilter, MirrorAfter, Teardown, Attach;
    if conn in Live(s) && packet.kind == 8 && packet.flags == 2 && DecodeSubscribe(packet.payload).Some? {
      var a := s.sockets[conn].value;
      var served := Served(DecodeSubscribe(packet.payload).value.1, a.client, env);
      SubscribeExactly(s.shared, conn, a, served, env);
      GrantedExactly(served, SubscribeAll(s.shared, conn, a, served, env).codes, filter);
    }
  }

  /** A connection that is not open yet, or has no session yet, was granted nothing. */
  lemma {:induction false} NeverGranted(start: Shared, actions: seq<Action>, conn: nat, filter: Bytes)
    requires |start.router| <= MAX_SUBSCRIPTIONS
    requires var s := After(Begin(start), actions); conn >= s.nextConn || (conn in s.sockets && s.sockets[conn].None?)
    ensures LastQoS(Begin(start), actions, conn, filter) == None
  {
    hide Next, GrantedNow, Tracked;
    if actions != [] {
      var init, a := actions[..|actions| - 1], actions[|actions| - 1];
      EveryInterleaving(start, init);
      NotYet(After(Begin(start), init), a, conn, filter);
      NeverGranted(start, init, conn, filter);
    }
  }

  lemma NotYet(s: System, a: Action, conn: nat, filter: Bytes)
    requires forall c :: c in s.sockets ==> c < s.nextConn
    requires var t := Next(s, a); conn >= t.nextConn || (conn in t.sockets && t.sockets[conn].None?)
    ensures conn >= s.nextConn || (conn in s.sockets && s.sockets[conn].None?)
    ensures GrantedNow(s, a, conn, filter) == None
  {
    hide Handle, RouterHandled, MirrorHandled, OthersKept, Teardown, DecodeSubscribe, SubscribeAll, LastGrant;
    if a.Arrive? && Running(s, a.conn) {
      HandleFacts(s.shared, s.sockets[a.conn], a.conn, a.packet, a.env);
    }
  }

  /**
   * In every run without a takeover, a live socket tracks exactly the filters it was granted, and each is routed to
   * this connection with the QoS last granted.
   */
  lemma {:induction false} RoutedWithLastQoS(start: Shared, actions: seq<Action>, conn: nat, filter: Bytes)
    requires |start.router| <= MAX_SUBSCRIPTIONS && NoTakeover(Begin(start), actions)
    requires conn in Live(After(Begin(start), actions))
    ensures var s := After(Begin(start), actions);
            var q := LastQoS(Begin(start), actions, conn, filter);
            && (filter in s.sockets[conn].value.filters <==> q.Some?)
            && (q.Some? ==> Routed(s.shared, (filter, s.sockets[conn].value.client)) == Some(Entry(conn, q.value)))
  {
    hide Next, OneEach, AllDelivered, Takeover, GrantedNow, Tracked;
    if actions == [] {
      NothingHeld(start);
    } else {
      var init, a := actions[..|actions| - 1], actions[|actions| - 1];
      var s := After(Begin(start), init);
      GrantedStaysRouted(start, init);
      EveryInterleaving(start, init);
      RouteStep(s, a, conn, filter);
      if conn in Live(s) {
        RoutedWithLastQoS(start, init, conn, filter);
      } else {
        JustAttached(s, a, conn, filter);
        NeverGranted(start, init, conn, filter);
      }
    }
  }

  /** A socket that becomes live had no session, and is granted nothing in that step. */
  lemma JustAttached(s: System, a: Action, conn: nat, filter: Bytes)
    requires s.lost <= Held(s) && conn in Live(Next(s, a)) && conn !in Live(s)
    ensures conn in s.sockets && s.sockets[conn].None? && GrantedNow(s, a, conn, filter) == None
  {
    hide Handle, Teardown, DecodeSubscribe, SubscribeAll, LastGrant;
  }

  lemma NothingHeld(start: Shared)
    ensures Live(Begin(start)) == {}
  {
  }
}
