/** Runs of console sockets that end other than one would expect. */
module ConsoleCases {
  import opened Prelude
  import opened Framing
  import opened Packets
  import opened Console
  import opened ConsoleRuns

  const CLIENT_C: Connect := Connect([0x63], true, 60, None, None)
  const FILTER_A: Bytes := [0x61]

  /** The CONNECT of a client named `c`, and its SUBSCRIBE for the filter `a` at QoS 0. */
  const CONNECT_C: Packet := Packet(1, 0, ConnectBody(CLIENT_C, Ignored(None, 0, [])))
  const SUBSCRIBE_A: Packet := Packet(8, 2, U16(1) + RequestsBytes([Request(FILTER_A, 0)]))

  function OpenBroker(): Env {
    Env(true, 0, c => true, None, [], (pattern, name) => false, (pattern, filter) => false, true)
  }

  lemma ConnectDecodes()
    ensures DecodeConnect(CONNECT_C.payload, 0) == Some(CLIENT_C)
  {
    hide ConnectBody, DecodeConnect;
    assert Utf8([0x63]) by { assert [0x63][1..] == []; }
    ConnectAccepted(CLIENT_C, Ignored(None, 0, []), 0);
  }

  lemma SubscribeDecodes()
    ensures DecodeSubscribe(SUBSCRIBE_A.payload) == Some((1, [Request(FILTER_A, 0)]))
  {
    hide RequestsBytes, DecodeSubscribe, U16;
    assert Utf8(FILTER_A) by { assert FILTER_A[1..] == []; }
    SubscribeDecodesExactly(SUBSCRIBE_A.payload, 1, [Request(FILTER_A, 0)]);
  }

  lemma Attaches(s: System, conn: nat)
    requires Running(s, conn) && s.sockets[conn] == None
    ensures Next(s, Arrive(conn, CONNECT_C, OpenBroker())) ==
            s.(shared := Attach(s.shared, conn, CLIENT_C, None),
               sockets := s.sockets[conn := Some(Attached([0x63], []))])
  {
    hide DecodeConnect, ConnectBody;
    ConnectDecodes();
  }

  lemma Subscribes(s: System, conn: nat)
    requires Running(s, conn) && s.sockets[conn] == Some(Attached([0x63], [])) && |s.shared.router| < MAX_SUBSCRIPTIONS
    ensures Next(s, Arrive(conn, SUBSCRIBE_A, OpenBroker())) ==
            s.(shared := Grant(s.shared, conn, [0x63], FILTER_A, 0),
               sockets := s.sockets[conn := Some(Attached([0x63], [FILTER_A]))])
  {
    hide DecodeSubscribe, RequestsBytes, U16, Grant;
    SubscribeDecodes();
    var requests, a := [Request(FILTER_A, 0)], Attached([0x63], []);
    assert ServedCount(requests, [0x63], OpenBroker()) == 1 by { assert requests[1..] == []; }
    assert Served(requests, [0x63], OpenBroker()) == requests && requests[..0] == [];
    assert CodeFor(s.shared, [0x63], requests[0], OpenBroker()) == 0;
    assert a.filters + [FILTER_A] == [FILTER_A];
    assert SubscribeAll(s.shared, conn, a, requests, OpenBroker()) ==
           SubscribeOne(SubscribeAll(s.shared, conn, a, [], OpenBroker()), conn, requests[0], OpenBroker());
  }

  /** Two sockets of one client, both granted `a`. */
  function TwoSockets(s: System): System {
    var env := OpenBroker();
    Next(Next(Next(Next(Next(Next(s, Open), Open), Arrive(0, CONNECT_C, env)), Arrive(1, CONNECT_C, env)),
      Arrive(0, SUBSCRIBE_A, env)), Arrive(1, SUBSCRIBE_A, env))
  }

  /** When the first of them hangs up, the second is granted `a` still and no longer routed. */
  lemma TakeoverUnroutes(start: Shared)
    requires start.router == map[]
    ensures var s := Next(TwoSockets(Begin(start)), Hangup(0));
            Tracks(s, 1, [0x63], FILTER_A) && (FILTER_A, [0x63]) !in s.shared.router
  {
    hide Handle, Teardown;
    var zero := Next(Next(Begin(start), Open), Open);
    Attaches(zero, 0);
    var one := Next(zero, Arrive(0, CONNECT_C, OpenBroker()));
    Attaches(one, 1);
    var two := Next(one, Arrive(1, CONNECT_C, OpenBroker()));
    Subscribes(two, 0);
    var three := Next(two, Arrive(0, SUBSCRIBE_A, OpenBroker()));
    assert three.shared.router == map[(FILTER_A, [0x63]) := Entry(0, 0)];
    Subscribes(three, 1);
    var four := TwoSockets(Begin(start));
    TeardownExactly(four.shared, 0, Attached([0x63], [FILTER_A]));
    assert Routed(Close(four, 0).shared, (FILTER_A, [0x63])) == None;
  }

  /** A SUBSCRIBE of the client `c` for a filter of three octets, a two-octet letter and `#`. */
  const ACCENTED: Bytes := [0xC3, 0xA9, 0x23]
  const SUBSCRIBE_ACCENTED: Packet := Packet(8, 2, U16(2) + RequestsBytes([Request(ACCENTED, 0)]))

  lemma AccentedDecodes()
    ensures DecodeSubscribe(SUBSCRIBE_ACCENTED.payload) == Some((2, [Request(ACCENTED, 0)]))
  {
    hide RequestsBytes, DecodeSubscribe, U16;
    assert Utf8(ACCENTED) by { assert ACCENTED[2..] == [0x23] && [0x23 as byte][1..] == []; }
    var requests := [Request(ACCENTED, 0)];
    SubscribeDecodesExactly(SUBSCRIBE_ACCENTED.payload, 2, requests);
    assert Panics(requests[0].filter);
  }

  lemma AccentedUnwinds(s: System, conn: nat)
    requires Running(s, conn) && s.sockets[conn].Some?
    ensures Next(s, Arrive(conn, SUBSCRIBE_ACCENTED, OpenBroker())) == s.(lost := s.lost + {conn})
  {
    hide DecodeSubscribe, RequestsBytes, U16, PanickingPacket;
    AccentedDecodes();
    var requests, a := [Request(ACCENTED, 0)], s.sockets[conn].value;
    assert ServedCount(requests, a.client, OpenBroker()) == 0 by { assert Panics(requests[0].filter); }
    assert Served(requests, a.client, OpenBroker()) == [];
    assert s.sockets[conn := Some(a)] == s.sockets;
  }

  /** One socket, granted `a`, then the accented filter. */
  function PanickedSocket(s: System): System {
    var env := OpenBroker();
    Next(Next(Next(Next(s, Open), Arrive(0, CONNECT_C, env)), Arrive(0, SUBSCRIBE_A, env)),
      Arrive(0, SUBSCRIBE_ACCENTED, env))
  }

  /** No socket is live, and the gauge, the route and the stored session of the lost one stay for good. */
  lemma PanicLeaks(start: Shared)
    requires start.router == map[] && start.sessions == map[]
    ensures var s := PanickedSocket(Begin(start));
            && Live(s) == {} && s.shared.gauge == start.gauge + 1
            && (FILTER_A, [0x63]) in s.shared.router && Bound(s.shared, 0, [0x63])
            && Next(s, Hangup(0)) == s
  {
    hide Handle, Teardown;
    var zero := Next(Begin(start), Open);
    Attaches(zero, 0);
    var one := Next(zero, Arrive(0, CONNECT_C, OpenBroker()));
    Subscribes(one, 0);
    var two := Next(one, Arrive(0, SUBSCRIBE_A, OpenBroker()));
    AccentedUnwinds(two, 0);
  }

  /** A publish on the topic `a`. */
  const ON_A: Publish := Publish(FILTER_A, 0, 0, [])
  const PUBLISH_A: Packet := Packet(3, 0, PublishBody(ON_A))

  /** Everybody may publish on a pattern that panics when it is checked. */
  const TOPIC_RULE: AccessRule := AccessRule([0x2A], true, false, ACCENTED, true)

  /** A rule whose client pattern panics when it is checked. */
  const CLIENT_RULE: AccessRule := AccessRule(ACCENTED, false, true, [0x23], true)

  lemma PublishDecodes()
    ensures DecodePublish(PUBLISH_A.payload, 0) == Some(ON_A)
  {
    hide PublishBody, DecodePublish;
    assert Utf8(FILTER_A) by { assert FILTER_A[1..] == []; }
    PublishDecodesExactly(PUBLISH_A.payload, 0, ON_A);
  }

  /** A plain PUBLISH under an access rule with an accented topic pattern unwinds the socket's task. */
  lemma PublishUnwinds(s: System, conn: nat, env: Env)
    requires Running(s, conn) && s.sockets[conn].Some? && env.access == [TOPIC_RULE]
    ensures Next(s, Arrive(conn, PUBLISH_A, env)) == s.(lost := s.lost + {conn})
  {
    hide DecodePublish, PublishBody;
    PublishDecodes();
    assert Panics(TOPIC_RULE.topic) && Breaks(env.access[0], s.sockets[conn].value.client, Publishing, env);
    assert s.sockets[conn := s.sockets[conn]] == s.sockets;
  }

  /** So does a plain SUBSCRIBE under an access rule with an accented client pattern. */
  lemma SubscribeUnwinds(s: System, conn: nat, env: Env)
    requires Running(s, conn) && s.sockets[conn].Some? && s.sockets[conn].value.client == [0x63]
    requires env.access == [CLIENT_RULE]
    ensures Next(s, Arrive(conn, SUBSCRIBE_A, env)) == s.(lost := s.lost + {conn})
  {
    hide DecodeSubscribe, RequestsBytes, U16;
    SubscribeDecodes();
    var requests, a := [Request(FILTER_A, 0)], s.sockets[conn].value;
    assert Panics(CLIENT_RULE.client) && Breaks(env.access[0], a.client, Subscribing, env);
    assert Acceptable(requests[0]) && Ask(a.client, Subscribing, requests[0].filter, env) == Broken;
    assert ServedCount(requests, a.client, env) == 0;
    assert Served(requests, a.client, env) == [];
    assert s.sockets[conn := Some(a)] == s.sockets;
  }

  /** One socket, granted `a`, then a plain PUBLISH under the topic rule. */
  function PublishedSocket(s: System, env: Env): System {
    Next(Next(Next(Next(s, Open), Arrive(0, CONNECT_C, OpenBroker())), Arrive(0, SUBSCRIBE_A, OpenBroker())),
      Arrive(0, PUBLISH_A, env))
  }

  /** The access rule came into force after the grant: the publish leaks the gauge, the route and the stored session. */
  lemma PublishLeaks(start: Shared, env: Env)
    requires start.router == map[] && start.sessions == map[] && env.access == [TOPIC_RULE]
    ensures var s := PublishedSocket(Begin(start), env);
            && Live(s) == {} && s.shared.gauge == start.gauge + 1
            && (FILTER_A, [0x63]) in s.shared.router && Bound(s.shared, 0, [0x63])
            && Next(s, Hangup(0)) == s
  {
    hide Handle, Teardown;
    var zero := Next(Begin(start), Open);
    Attaches(zero, 0);
    var one := Next(zero, Arrive(0, CONNECT_C, OpenBroker()));
    Subscribes(one, 0);
    var two := Next(one, Arrive(0, SUBSCRIBE_A, OpenBroker()));
    PublishUnwinds(two, 0, env);
  }

  const USER: Bytes := [0x75]
  const CLIENT_U: Connect := Connect([0x63], true, 60, Some(USER), None)
  const CONNECT_U: Packet := Packet(1, 0, ConnectBody(CLIENT_U, Ignored(None, 0, [])))

  lemma UserConnectDecodes()
    ensures DecodeConnect(CONNECT_U.payload, 0) == Some(CLIENT_U)
  {
    hide ConnectBody, DecodeConnect;
    assert Utf8([0x63]) by { assert [0x63][1..] == []; }
    assert Utf8(USER) by { assert USER[1..] == []; }
    ConnectAccepted(CLIENT_U, Ignored(None, 0, []), 0);
  }

  /** Two connections of one user under a limit lowered to one: a refused CONNECT of the live client frees a slot. */
  lemma RefusedGivesSlotBack()
    ensures var stored := Stored(Some(0), true, true, Some(USER), map[]);
            var h := Shared(2, map[], map[[0x63] := stored], map[USER := 2]);
            var o := Handle(h, None, 5, CONNECT_U, OpenBroker().(limit := Some(1)));
            && o.reply == Connack(false, 0x8B) && o.session == None
            && o.shared.sessions == h.sessions && Slots(o.shared.slots, USER) == 1
  {
    hide DecodeConnect, ConnectBody;
    UserConnectDecodes();
  }
}
