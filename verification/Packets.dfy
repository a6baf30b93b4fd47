/** Bodies of the console packets and the broker-internal PublishMeta layout. */
module Packets {
  import opened Prelude
  import opened RemainingLength
  import opened Framing

  type QoS = q: int | 0 <= q <= 2

  // ---------------------------------------------------------------------
  // Primitive fields.
  // ---------------------------------------------------------------------

  predicate Continuation(b: byte) {
    0x80 <= b < 0xC0
  }

  /** `std::str::from_utf8` succeeds. */
  predicate Utf8(bs: Bytes)
    decreases |bs|
  {
    if bs == [] then true
    else if bs[0] < 0x80 then Utf8(bs[1..])
    else if 0xC2 <= bs[0] < 0xE0 then |bs| >= 2 && Continuation(bs[1]) && Utf8(bs[2..])
    else if 0xE0 <= bs[0] < 0xF0 then
      && |bs| >= 3 && Continuation(bs[1]) && Continuation(bs[2])
      && (bs[0] == 0xE0 ==> bs[1] >= 0xA0) && (bs[0] == 0xED ==> bs[1] < 0xA0)
      && Utf8(bs[3..])
    else if 0xF0 <= bs[0] < 0xF5 then
      && |bs| >= 4 && Continuation(bs[1]) && Continuation(bs[2]) && Continuation(bs[3])
      && (bs[0] == 0xF0 ==> bs[1] >= 0x90) && (bs[0] == 0xF4 ==> bs[1] < 0x90)
      && Utf8(bs[4..])
    else false
  }

  /** One to four octets of a character, by its scalar value (section 3 of RFC 3629). */
  function CharOctets(c: char): (r: Bytes)
    ensures 1 <= |r| <= 4
  {
    var n := c as int;
    if n < 0x80 then [n]
    else if n < 0x800 then [0xC0 + n / 64, 0x80 + n % 64]
    else if n < 0x1_0000 then [0xE0 + n / 4096, 0x80 + n / 64 % 64, 0x80 + n % 64]
    else [0xF0 + n / 262144, 0x80 + n / 4096 % 64, 0x80 + n / 64 % 64, 0x80 + n % 64]
  }

  function TextOctets(text: string): Bytes {
    if text == "" then [] else CharOctets(text[0]) + TextOctets(text[1..])
  }

  /** The octets that are accepted are exactly those of some text. */
  lemma Utf8Exactly(bs: Bytes)
    ensures Utf8(bs) <==> exists text: string :: bs == TextOctets(text)
  {
    if Utf8(bs) { var text := TextOf(bs); }
    if text: string :| bs == TextOctets(text) { TextIsUtf8(text); }
  }

  lemma {:induction false} TextIsUtf8(text: string)
    ensures Utf8(TextOctets(text))
  {
    if text != "" {
      TextIsUtf8(text[1..]);
      CharThenRest(text[0], TextOctets(text[1..]));
    }
  }

  lemma CharThenRest(c: char, rest: Bytes)
    requires Utf8(rest)
    ensures Utf8(CharOctets(c) + rest)
  {
    var all := CharOctets(c) + rest;
    assert all[|CharOctets(c)|..] == rest;
  }

  lemma TwoOctets(a: byte, b: byte) returns (c: char)
    requires 0xC2 <= a < 0xE0 && Continuation(b)
    ensures CharOctets(c) == [a, b]
  {
    var x: int, y: int := a - 0xC0, b - 0x80;
    c := (x * 64 + y) as char;
    assert (x * 64 + y) / 64 == x && (x * 64 + y) % 64 == y;
  }

  lemma ThreeOctets(a: byte, b: byte, d: byte) returns (c: char)
    requires 0xE0 <= a < 0xF0 && Continuation(b) && Continuation(d)
    requires (a == 0xE0 ==> b >= 0xA0) && (a == 0xED ==> b < 0xA0)
    ensures CharOctets(c) == [a, b, d]
  {
    var x: int, y: int, z: int := a - 0xE0, b - 0x80, d - 0x80;
    var n := x * 4096 + y * 64 + z;
    c := n as char;
    assert n / 64 == x * 64 + y && n % 64 == z && n / 4096 == x && (x * 64 + y) % 64 == y;
  }

  lemma FourOctets(a: byte, b: byte, d: byte, e: byte) returns (c: char)
    requires 0xF0 <= a < 0xF5 && Continuation(b) && Continuation(d) && Continuation(e)
    requires (a == 0xF0 ==> b >= 0x90) && (a == 0xF4 ==> b < 0x90)
    ensures CharOctets(c) == [a, b, d, e]
  {
    var w: int, x: int, y: int, z: int := a - 0xF0, b - 0x80, d - 0x80, e - 0x80;
    var n := w * 262144 + x * 4096 + y * 64 + z;
    c := n as char;
    assert n / 64 == w * 4096 + x * 64 + y && n % 64 == z && n / 4096 == w * 64 + x && n / 262144 == w;
    assert (w * 4096 + x * 64 + y) % 64 == y && (w * 64 + x) % 64 == x;
  }

  /** The first character of accepted octets, and what is left. */
  lemma FirstChar(bs: Bytes) returns (c: char)
    requires Utf8(bs) && bs != []
    ensures CharOctets(c) <= bs && Utf8(bs[|CharOctets(c)|..])
  {
    if bs[0] < 0x80 {
      c := bs[0] as char;
    } else if bs[0] < 0xE0 {
      c := TwoOctets(bs[0], bs[1]);
      hide CharOctets;
    } else if bs[0] < 0xF0 {
      c := ThreeOctets(bs[0], bs[1], bs[2]);
      hide CharOctets;
    } else {
      c := FourOctets(bs[0], bs[1], bs[2], bs[3]);
      hide CharOctets;
    }
  }

  lemma {:induction false} TextOf(bs: Bytes) returns (text: string)
    requires Utf8(bs)
    ensures bs == TextOctets(text)
    decreases |bs|
  {
    if bs == [] {
      text := "";
    } else {
      hide Utf8;
      var c := FirstChar(bs);
      var rest := TextOf(bs[|CharOctets(c)|..]);
      text := [c] + rest;
      assert text[1..] == rest;
      assert bs == CharOctets(c) + bs[|CharOctets(c)|..];
    }
  }

  /** A 16-bit field, big endian; the argument is first cast to 16 bits. */
  function U16(n: nat): Bytes {
    [(n / 256) % 256, n % 256]
  }

  function BigEndian(high: nat, low: nat): nat {
    high * 256 + low
  }

  function ReadU16(buf: Bytes): Option<(nat, Bytes)> {
    if |buf| < 2 then None else Some((BigEndian(buf[0], buf[1]), buf[2..]))
  }

  /** A length-prefixed field. */
  function Field(s: Bytes): Bytes {
    U16(|s|) + s
  }

  /** A length-prefixed field of any octets. */
  function ReadBinary(buf: Bytes): Option<(Bytes, Bytes)> {
    match ReadU16(buf)
    case None => None
    case Some((len, rest)) => if |rest| < len then None else Some((rest[..len], rest[len..]))
  }

  function ReadStr(buf: Bytes): Option<(Bytes, Bytes)> {
    match ReadBinary(buf)
    case None => None
    case Some((raw, tail)) => if Utf8(raw) then Some((raw, tail)) else None
  }

  lemma ReadU16Exact(buf: Bytes, n: nat, tail: Bytes)
    ensures ReadU16(buf) == Some((n, tail)) <==> n <= U16_MAX && buf == U16(n) + tail
  {
    if |buf| >= 2 {
      assert buf == buf[..2] + buf[2..];
      assert buf[..2] == [buf[0], buf[1]];
    }
    if buf == U16(n) + tail {
      assert buf[2..] == tail;
    }
  }

  lemma ReadBinaryExact(buf: Bytes, s: Bytes, tail: Bytes)
    ensures ReadBinary(buf) == Some((s, tail)) <==> |s| <= U16_MAX && buf == Field(s) + tail
  {
    hide Utf8;
    if ReadBinary(buf) == Some((s, tail)) {
      var (len, rest) := ReadU16(buf).value;
      ReadU16Exact(buf, len, rest);
      assert rest == s + tail;
      assert buf == U16(len) + (s + tail);
    }
    if |s| <= U16_MAX && buf == Field(s) + tail {
      assert buf == U16(|s|) + (s + tail);
      ReadU16Exact(buf, |s|, s + tail);
      assert (s + tail)[..|s|] == s && (s + tail)[|s|..] == tail;
    }
  }

  lemma ReadStrExact(buf: Bytes, s: Bytes, tail: Bytes)
    ensures ReadStr(buf) == Some((s, tail)) <==> |s| <= U16_MAX && Utf8(s) && buf == Field(s) + tail
  {
    ReadBinaryExact(buf, s, tail);
    if ReadBinary(buf).Some? {
      ReadBinaryExact(buf, ReadBinary(buf).value.0, ReadBinary(buf).value.1);
    }
  }

  // ---------------------------------------------------------------------
  // PUBLISH (section 3.3 of MQTT 3.1.1).
  // ---------------------------------------------------------------------

  datatype Publish = Publish(topic: Bytes, packetId: nat, qos: QoS, payload: Bytes)

  /** `Topic::new` succeeds: not empty, no `+` and no `#`. */
  predicate ConcreteTopic(topic: Bytes) {
    topic != [] && 0x2B !in topic && 0x23 !in topic
  }

  function DecodePublish(body: Bytes, flags: byte): Option<Publish> {
    var qos := (flags / 2) % 4;
    if qos == 3 then None
    else match ReadStr(body)
      case None => None
      case Some((topic, rest)) =>
        if topic == [] then None
        else if qos == 0 then
          if ConcreteTopic(topic) then Some(Publish(topic, 0, qos, rest)) else None
        else match ReadU16(rest)
          case None => None
          case Some((pid, payload)) =>
            if pid == 0 then None
            else if ConcreteTopic(topic) then Some(Publish(topic, pid, qos, payload)) else None
  }

  function PublishBody(p: Publish): Bytes {
    Field(p.topic) + (if p.qos != 0 then U16(p.packetId) else []) + p.payload
  }

  function PublishPacket(p: Publish): Bytes {
    var body := PublishBody(p);
    [0x30 + 2 * p.qos] + EncodeLength(|body|) + body
  }

  /** The re-encoder for the browser, field by field. */
  method EncodePublish(topic: Bytes, packetId: nat, qos: QoS, payload: Bytes) returns (out: Bytes)
    ensures out == PublishPacket(Publish(topic, packetId, qos, payload))
  {
    var body := U16(|topic|);
    body := body + topic;
    if qos != 0 {
      body := body + U16(packetId);
    }
    body := body + payload;
    assert body == PublishBody(Publish(topic, packetId, qos, payload));
    out := [0x30 + 2 * qos];
    out := EncodeRemainingLength(|body|, out);
    out := out + body;
  }

  ghost predicate WellFormed(p: Publish) {
    && 0 < |p.topic| <= U16_MAX && Utf8(p.topic) && 0x2B !in p.topic && 0x23 !in p.topic
    && p.packetId <= U16_MAX && (p.qos == 0 <==> p.packetId == 0)
  }

  /** The decoder accepts exactly the images of well-formed publishes. */
  lemma PublishDecodesExactly(body: Bytes, flags: byte, p: Publish)
    ensures DecodePublish(body, flags) == Some(p) <==>
            WellFormed(p) && p.qos == (flags / 2) % 4 && body == PublishBody(p)
  {
    hide Utf8, DecodePublish, PublishBody;
    if DecodePublish(body, flags) == Some(p) {
      DecodedIsImage(body, flags, p);
    }
    if WellFormed(p) && p.qos == (flags / 2) % 4 && body == PublishBody(p) {
      ImageDecodes(flags, p);
    }
  }

  lemma DecodedIsImage(body: Bytes, flags: byte, p: Publish)
    requires DecodePublish(body, flags) == Some(p)
    ensures WellFormed(p) && p.qos == (flags / 2) % 4 && body == PublishBody(p)
  {
    hide Utf8, ReadStr, ReadU16, U16, Field;
    var (topic, rest) := ReadStr(body).value;
    ReadStrExact(body, topic, rest);
    if p.qos != 0 {
      ReadU16Exact(rest, p.packetId, p.payload);
      assert body == Field(topic) + (U16(p.packetId) + p.payload);
    } else {
      assert body == Field(topic) + [] + rest;
    }
  }

  lemma ImageDecodes(flags: byte, p: Publish)
    requires WellFormed(p) && p.qos == (flags / 2) % 4
    ensures DecodePublish(PublishBody(p), flags) == Some(p)
  {
    hide Utf8, ReadStr, ReadU16, U16, Field;
    var rest := (if p.qos != 0 then U16(p.packetId) else []) + p.payload;
    assert PublishBody(p) == Field(p.topic) + rest;
    ReadStrExact(PublishBody(p), p.topic, rest);
    if p.qos != 0 {
      ReadU16Exact(rest, p.packetId, p.payload);
    } else {
      assert rest == p.payload;
    }
  }

  // ---------------------------------------------------------------------
  // PublishMeta, the broker's own layout.
  // ---------------------------------------------------------------------

  function PublishMeta(topic: Bytes, packetId: nat, qos: nat): Bytes
    requires qos < 256
  {
    Field(topic) + U16(packetId) + [qos, 0, 0]
  }

  function DecodePublishMeta(meta: Bytes): Option<(Bytes, nat, QoS, bool)> {
    if |meta| < 7 then None
    else
      var topicLen := BigEndian(meta[0], meta[1]);
      if topicLen == 0 || |meta| != 2 + topicLen + 5 then None
      else
        var topic := meta[2..2 + topicLen];
        if !Utf8(topic) then None
        else
          var base := 2 + topicLen;
          if meta[base + 2] > 2 then None
          else Some((topic, BigEndian(meta[base], meta[base + 1]), meta[base + 2], meta[base + 3] != 0))
  }

  lemma MetaRoundTrip(topic: Bytes, packetId: nat, qos: QoS)
    requires 0 < |topic| <= U16_MAX && Utf8(topic) && packetId <= U16_MAX
    ensures DecodePublishMeta(PublishMeta(topic, packetId, qos)) == Some((topic, packetId, qos, false))
  {
    hide Utf8, U16, BigEndian;
    var meta := PublishMeta(topic, packetId, qos);
    var n := |topic|;
    U16Value(n);
    U16Value(packetId);
    var fixed := U16(packetId) + [qos, 0, 0];
    assert meta == U16(n) + topic + fixed;
    assert meta[0] == U16(n)[0] && meta[1] == U16(n)[1];
    assert meta[2..2 + n] == topic;
    assert meta[2 + n..] == fixed;
    assert meta[2 + n..][0] == meta[2 + n] && meta[2 + n..][1] == meta[2 + n + 1];
    assert meta[2 + n..][2] == meta[2 + n + 2] && meta[2 + n..][3] == meta[2 + n + 3];
  }

  ghost predicate MetaLayout(meta: Bytes, topic: Bytes, packetId: nat, qos: QoS, retained: bool) {
    && 0 < |topic| <= U16_MAX && Utf8(topic) && packetId <= U16_MAX
    && |meta| == |topic| + 7 && meta[..2] == U16(|topic|) && meta[2..2 + |topic|] == topic
    && meta[2 + |topic|..4 + |topic|] == U16(packetId) && meta[4 + |topic|] == qos
    && (retained <==> meta[5 + |topic|] != 0)
  }

  lemma U16Exactly(pair: Bytes, n: nat)
    requires |pair| == 2
    ensures pair == U16(n) && n <= U16_MAX <==> BigEndian(pair[0], pair[1]) == n
  {
    hide U16, BigEndian;
    ReadU16Exact(pair, n, []);
    assert U16(n) + [] == U16(n) && pair[2..] == [];
  }

  /** The second layout is accepted exactly with a topic, a packet id, a legal QoS, and two last octets of any value. */
  lemma MetaDecodesExactly(meta: Bytes, topic: Bytes, packetId: nat, qos: QoS, retained: bool)
    ensures DecodePublishMeta(meta) == Some((topic, packetId, qos, retained)) <==>
            MetaLayout(meta, topic, packetId, qos, retained)
  {
    hide Utf8, U16, BigEndian;
    var n := |topic|;
    if |meta| == n + 7 {
      U16Exactly(meta[..2], n);
      U16Exactly(meta[2 + n..4 + n], packetId);
    }
  }

  lemma U16Value(n: nat)
    requires n <= U16_MAX
    ensures |U16(n)| == 2 && BigEndian(U16(n)[0], U16(n)[1]) == n
  {
  }

  // ---------------------------------------------------------------------
  // End-to-end delivery to one subscriber.
  // ---------------------------------------------------------------------

  datatype Packet = Packet(kind: nat, flags: byte, payload: Bytes)

  /** Type, flags and payload of one whole frame. */
  function PacketOf(frame: Bytes): Packet
    requires Announced(frame).Some? && Announced(frame).value <= |frame|
  {
    var headerLen := DecodeLength(frame[1..]).value.1;
    Packet(frame[0] / 16, frame[0] % 16, frame[1 + headerLen..])
  }

  /** `BrokerFrame::new`: metadata and payload must fit their length fields. */
  predicate FrameFits(meta: Bytes, payload: Bytes) {
    |meta| <= U16_MAX && |payload| <= U32_MAX
  }

  /** `$delayed/`: such topics and filters are not served on the console. */
  const DELAYED: Bytes := [0x24, 0x64, 0x65, 0x6C, 0x61, 0x79, 0x65, 0x64, 0x2F]

  /** What one matching subscriber is sent: nothing for a delayed publish or when the internal frame is refused. */
  function Downlink(p: Publish, subscriberQoS: QoS, nextPacketId: nat): Option<Bytes> {
    var effective: QoS := Min(p.qos, subscriberQoS);
    var id := if effective == 0 then 0 else nextPacketId;
    var meta := PublishMeta(p.topic, id, effective);
    if DELAYED <= p.topic || !FrameFits(meta, p.payload) then None
    else match DecodePublishMeta(meta)
      case None => None
      case Some((topic, packetId, qos, _)) => Some(PublishPacket(Publish(topic, packetId, qos, p.payload)))
  }

  const LONGEST_DELIVERED_TOPIC: int := 65528

  predicate Deliverable(topic: Bytes) {
    |topic| <= LONGEST_DELIVERED_TOPIC && !(DELAYED <= topic)
  }

  lemma HeaderThenBody(first: byte, len: Bytes, body: Bytes)
    requires DecodeLength(len + body) == Some((|body|, |len|))
    ensures var frame := [first] + len + body;
            IsFrame(frame) && PacketOf(frame) == Packet(first / 16, first % 16, body)
  {
    hide DecodeLength;
    var frame := [first] + len + body;
    assert frame[1..] == len + body;
    assert frame[1 + |len|..] == body;
  }

  lemma EncodedFrame(first: byte, body: Bytes)
    requires |body| <= MAX_REMAINING
    ensures var frame := [first] + EncodeLength(|body|) + body;
            IsFrame(frame) && PacketOf(frame) == Packet(first / 16, first % 16, body)
  {
    RoundTrip(|body|, body);
    HeaderThenBody(first, EncodeLength(|body|), body);
  }

  lemma BodyLength(p: Publish)
    ensures |PublishBody(p)| == 2 + |p.topic| + (if p.qos != 0 then 2 else 0) + |p.payload|
  {
  }

  /** The part of a delivery that is the same whether or not the frame is refused. */
  lemma DeliveredMeaning(p: Publish, q: Publish)
    requires WellFormed(p) && WellFormed(q)
    requires q.topic == p.topic && q.payload == p.payload && q.qos <= p.qos
    requires |PublishBody(p)| <= MAX_REMAINING
    ensures |PublishBody(q)| <= |PublishBody(p)|
    ensures IsFrame(PublishPacket(q)) && PacketOf(PublishPacket(q)) == Packet(3, 2 * q.qos, PublishBody(q))
    ensures DecodePublish(PublishBody(q), 2 * q.qos) == Some(q)
  {
    hide Utf8, EncodeLength, DecodeLength, Announced, PacketOf, DecodePublish, PublishBody;
    BodyLength(p);
    BodyLength(q);
    EncodedFrame(0x30 + 2 * q.qos, PublishBody(q));
    PublishDecodesExactly(PublishBody(q), 2 * q.qos, q);
  }

  /**
   * Every accepted inbound PUBLISH that is not delayed and whose topic has at most 65528 octets reaches a
   * subscriber with the same topic and payload, the smaller quality of service and the downlink packet
   * id, in a packet whose body is no longer than the inbound one. The others reach nobody.
   */
  lemma DeliveryPreservesMeaning(body: Bytes, flags: byte, p: Publish, subscriberQoS: QoS, nextPacketId: nat)
    requires |body| <= MAX_REMAINING
    requires DecodePublish(body, flags) == Some(p)
    requires 0 < nextPacketId <= U16_MAX
    ensures Downlink(p, subscriberQoS, nextPacketId).Some? <==> Deliverable(p.topic)
    ensures Downlink(p, subscriberQoS, nextPacketId).Some? ==>
            var effective: QoS := Min(p.qos, subscriberQoS);
            var q := Publish(p.topic, if effective == 0 then 0 else nextPacketId, effective, p.payload);
            var frame := Downlink(p, subscriberQoS, nextPacketId).value;
            && IsFrame(frame)
            && PacketOf(frame).kind == 3
            && DecodePublish(PacketOf(frame).payload, PacketOf(frame).flags) == Some(q)
            && |PacketOf(frame).payload| <= |body|
  {
    hide Utf8, EncodeLength, DecodeLength, PublishPacket, Announced, PacketOf, DecodePublish, Downlink;
    PublishDecodesExactly(body, flags, p);
    DownlinkIs(p, subscriberQoS, nextPacketId);
    var effective: QoS := Min(p.qos, subscriberQoS);
    DeliveredMeaning(p, Publish(p.topic, if effective == 0 then 0 else nextPacketId, effective, p.payload));
  }

  lemma DownlinkIs(p: Publish, subscriberQoS: QoS, nextPacketId: nat)
    requires WellFormed(p) && 0 < nextPacketId <= U16_MAX && |p.payload| <= U32_MAX
    ensures var effective: QoS := Min(p.qos, subscriberQoS);
            var q := Publish(p.topic, if effective == 0 then 0 else nextPacketId, effective, p.payload);
            && WellFormed(q)
            && Downlink(p, subscriberQoS, nextPacketId) ==
               if Deliverable(p.topic) then Some(PublishPacket(q)) else None
  {
    hide Utf8, PublishPacket, DecodePublishMeta, U16;
    var effective: QoS := Min(p.qos, subscriberQoS);
    var id := if effective == 0 then 0 else nextPacketId;
    MetaRoundTrip(p.topic, id, effective);
    U16Value(id);
    U16Value(|p.topic|);
    assert |PublishMeta(p.topic, id, effective)| == |p.topic| + 7;
  }

  function Repeated(n: nat): Bytes {
    seq(n, _ => 0x61)
  }

  lemma {:induction false} RepeatedUtf8(n: nat)
    ensures Utf8(Repeated(n))
  {
    if n > 0 {
      RepeatedUtf8(n - 1);
      assert Repeated(n)[1..] == Repeated(n - 1);
    }
  }

  /** A publish on a topic of 65529 octets is accepted and sent to no subscriber. */
  lemma LongTopicReachesNobody(subscriberQoS: QoS)
    ensures var p := Publish(Repeated(65529), 0, 0, []);
            DecodePublish(PublishBody(p), 0) == Some(p) && Downlink(p, subscriberQoS, 1) == None
  {
    hide Utf8, PublishBody, DecodePublish, Downlink;
    var p := Publish(Repeated(65529), 0, 0, []);
    RepeatedUtf8(65529);
    BodyLength(p);
    PublishDecodesExactly(PublishBody(p), 0, p);
    DeliveryPreservesMeaning(PublishBody(p), 0, p, subscriberQoS, 1);
  }

  // ---------------------------------------------------------------------
  // SUBSCRIBE (sections 3.8 and 3.9 of MQTT 3.1.1).
  // ---------------------------------------------------------------------

  datatype Request = Request(filter: Bytes, qos: byte)

  function RequestsBytes(requests: seq<Request>): Bytes {
    if requests == [] then []
    else Field(requests[0].filter) + [requests[0].qos] + RequestsBytes(requests[1..])
  }

  function ReadRequest(rest: Bytes): Option<(Request, Bytes)> {
    match ReadStr(rest)
    case None => None
    case Some((filter, tail)) => if tail == [] then None else Some((Request(filter, tail[0]), tail[1..]))
  }

  lemma ReadRequestExact(rest: Bytes, r: Request, tail: Bytes)
    ensures ReadRequest(rest) == Some((r, tail)) <==>
            |r.filter| <= U16_MAX && Utf8(r.filter) && rest == Field(r.filter) + [r.qos] + tail
  {
    hide Utf8;
    if ReadRequest(rest) == Some((r, tail)) {
      var (filter, after) := ReadStr(rest).value;
      ReadStrExact(rest, filter, after);
      assert after == [r.qos] + tail;
      assert rest == Field(filter) + ([r.qos] + tail);
    }
    if |r.filter| <= U16_MAX && Utf8(r.filter) && rest == Field(r.filter) + [r.qos] + tail {
      assert rest == Field(r.filter) + ([r.qos] + tail);
      ReadStrExact(rest, r.filter, [r.qos] + tail);
    }
  }

  function DecodeRequests(rest: Bytes): Option<seq<Request>>
    decreases |rest|
  {
    if rest == [] then Some([])
    else match ReadRequest(rest)
      case None => None
      case Some((r, tail)) =>
        ReadRequestExact(rest, r, tail);
        match DecodeRequests(tail)
        case None => None
        case Some(more) => Some([r] + more)
  }

  function DecodeSubscribe(body: Bytes): Option<(nat, seq<Request>)> {
    match ReadU16(body)
    case None => None
    case Some((pid, rest)) =>
      if pid == 0 then None
      else match DecodeRequests(rest)
        case None => None
        case Some(requests) => if requests == [] then None else Some((pid, requests))
  }

  /** The decoding loop of the source. */
  method DecodeSubscribeLoop(body: Bytes) returns (r: Option<(nat, seq<Request>)>)
    ensures r == DecodeSubscribe(body)
  {
    hide Utf8;
    if ReadU16(body) == None {
      return None;
    }
    var (packetId, rest) := ReadU16(body).value;
    if packetId == 0 {
      return None;
    }
    var all := rest;
    var requests: seq<Request> := [];
    assert DecodeRequests(all).Some? ==> [] + DecodeRequests(all).value == DecodeRequests(all).value;
    while rest != []
      invariant DecodeRequests(all) ==
                if DecodeRequests(rest) == None then None else Some(requests + DecodeRequests(rest).value)
      decreases |rest|
    {
      var next := ReadRequest(rest);
      if next == None {
        return None;
      }
      var (request, tail) := next.value;
      ReadRequestExact(rest, request, tail);
      assert DecodeRequests(tail).Some? ==>
        requests + ([request] + DecodeRequests(tail).value) == requests + [request] + DecodeRequests(tail).value;
      requests := requests + [request];
      rest := tail;
    }
    assert requests + [] == requests;
    if requests == [] {
      return None;
    }
    return Some((packetId, requests));
  }

  ghost predicate ValidRequests(requests: seq<Request>) {
    forall r :: r in requests ==> |r.filter| <= U16_MAX && Utf8(r.filter)
  }

  lemma {:induction false} RequestsDecodeExactly(rest: Bytes, requests: seq<Request>)
    ensures DecodeRequests(rest) == Some(requests) <==> ValidRequests(requests) && rest == RequestsBytes(requests)
    decreases |rest|
  {
    hide Utf8;
    if rest == [] {
      assert requests != [] ==> RequestsBytes(requests) != [];
    } else if requests != [] {
      var r, more := requests[0], requests[1..];
      var tail := RequestsBytes(more);
      assert requests == [r] + more;
      if rest == RequestsBytes(requests) && ValidRequests(requests) {
        assert r in requests;
        ReadRequestExact(rest, r, tail);
        RequestsDecodeExactly(tail, more);
      }
      if DecodeRequests(rest) == Some(requests) {
        var (first, after) := ReadRequest(rest).value;
        ReadRequestExact(rest, first, after);
        assert more == DecodeRequests(after).value;
        RequestsDecodeExactly(after, more);
      }
    }
  }

  /** The decoder accepts exactly the images of a non-zero packet id and a non-empty list of requests. */
  lemma SubscribeDecodesExactly(body: Bytes, packetId: nat, requests: seq<Request>)
    ensures DecodeSubscribe(body) == Some((packetId, requests)) <==>
            && 0 < packetId <= U16_MAX && requests != [] && ValidRequests(requests)
            && body == U16(packetId) + RequestsBytes(requests)
  {
    hide Utf8;
    if ReadU16(body).Some? {
      var (pid, rest) := ReadU16(body).value;
      ReadU16Exact(body, pid, rest);
      RequestsDecodeExactly(rest, requests);
    }
    ReadU16Exact(body, packetId, RequestsBytes(requests));
  }

  // ---------------------------------------------------------------------
  // CONNECT (section 3.1 of MQTT 3.1.1).
  // ---------------------------------------------------------------------

  datatype Connect = Connect(
    clientId: Bytes, cleanStart: bool, keepalive: nat, username: Option<Bytes>, password: Option<Bytes>)

  predicate Bit(b: byte, weight: nat)
    requires weight > 0
  {
    (b / weight) % 2 == 1
  }

  const PROTOCOL_NAME: Bytes := [0x4D, 0x51, 0x54, 0x54]

  /** Skip `n` length-prefixed strings. */
  function SkipStrings(rest: Bytes, n: nat): Option<Bytes> {
    if n == 0 then Some(rest)
    else match ReadStr(rest)
      case None => None
      case Some((_, tail)) => SkipStrings(tail, n - 1)
  }

  function ReadOptional(present: bool, rest: Bytes, binary: bool): Option<(Option<Bytes>, Bytes)> {
    if !present then Some((None, rest))
    else match (if binary then ReadBinary(rest) else ReadStr(rest))
      case None => None
      case Some((s, tail)) => Some((Some(s), tail))
  }

  /** Everything after the connect flags. */
  function DecodeConnectTail(rest: Bytes, connFlags: byte): Option<Connect> {
    match ReadU16(rest)
    case None => None
    case Some((keepalive, r1)) =>
      if Bit(connFlags, 64) && !Bit(connFlags, 128) then None
      else match ReadStr(r1)
        case None => None
        case Some((clientId, r2)) =>
          if clientId == [] then None
          else match SkipStrings(r2, if Bit(connFlags, 4) then 2 else 0)
            case None => None
            case Some(r3) =>
              match ReadOptional(Bit(connFlags, 128), r3, false)
              case None => None
              case Some((username, r4)) =>
                match ReadOptional(Bit(connFlags, 64), r4, true)
                case None => None
                case Some((password, _)) =>
                  Some(Connect(clientId, Bit(connFlags, 2), keepalive, username, password))
  }

  function DecodeConnect(body: Bytes, flags: byte): Option<Connect> {
    if Bit(flags, 1) then None
    else match ReadStr(body)
      case None => None
      case Some((name, rest)) =>
        if name != PROTOCOL_NAME || |rest| < 2 || rest[0] != 4 || Bit(rest[1], 1) then None
        else DecodeConnectTail(rest[2..], rest[1])
  }

  /** The parts of a CONNECT the engine reads past: will, spare flag bits and trailing octets. */
  datatype Ignored = Ignored(will: Option<(Bytes, Bytes)>, spare: nat, trailing: Bytes)

  function OptionalField(s: Option<Bytes>): Bytes {
    if s.Some? then Field(s.value) else []
  }

  function WillFields(will: Option<(Bytes, Bytes)>): Bytes {
    if will.Some? then Field(will.value.0) + Field(will.value.1) else []
  }

  function ConnectFlags(c: Connect, g: Ignored): int {
    (if c.username.Some? then 128 else 0) + (if c.password.Some? then 64 else 0) + 8 * g.spare
    + (if g.will.Some? then 4 else 0) + (if c.cleanStart then 2 else 0)
  }

  function ConnectTail(c: Connect, g: Ignored): Bytes {
    U16(c.keepalive) + (Field(c.clientId) + (WillFields(g.will)
    + (OptionalField(c.username) + (OptionalField(c.password) + g.trailing))))
  }

  function ConnectBody(c: Connect, g: Ignored): Bytes
    requires g.spare < 8
  {
    Field(PROTOCOL_NAME) + ([4, ConnectFlags(c, g)] + ConnectTail(c, g))
  }

  ghost predicate TextField(s: Bytes) {
    |s| <= U16_MAX && Utf8(s)
  }

  ghost predicate ValidConnect(c: Connect, g: Ignored) {
    && TextField(c.clientId) && c.clientId != [] && c.keepalive <= U16_MAX && g.spare < 8
    && (g.will.Some? ==> TextField(g.will.value.0) && TextField(g.will.value.1))
    && (c.username.Some? ==> TextField(c.username.value))
    && (c.password.Some? ==> |c.password.value| <= U16_MAX && c.username.Some?)
  }

  lemma ConnectFlagBits(c: Connect, g: Ignored)
    requires g.spare < 8
    ensures var f := ConnectFlags(c, g);
            && 0 <= f < 256 && !Bit(f, 1)
            && (Bit(f, 128) <==> c.username.Some?) && (Bit(f, 64) <==> c.password.Some?)
            && (Bit(f, 4) <==> g.will.Some?) && (Bit(f, 2) <==> c.cleanStart)
  {
  }

  lemma WillSkipped(r: Bytes, will: Option<(Bytes, Bytes)>, tail: Bytes)
    requires will.Some? ==> TextField(will.value.0) && TextField(will.value.1)
    requires r == WillFields(will) + tail
    ensures SkipStrings(r, if will.Some? then 2 else 0) == Some(tail)
  {
    hide Utf8;
    if will.Some? {
      var (topic, message) := will.value;
      assert r == Field(topic) + (Field(message) + tail);
      ReadStrExact(r, topic, Field(message) + tail);
      ReadStrExact(Field(message) + tail, message, tail);
      assert SkipStrings(tail, 0) == Some(tail);
      assert SkipStrings(Field(message) + tail, 1) == Some(tail);
    } else {
      assert r == tail;
    }
  }

  lemma TailAccepted(c: Connect, g: Ignored)
    requires ValidConnect(c, g) && 0 <= ConnectFlags(c, g) < 256
    ensures DecodeConnectTail(ConnectTail(c, g), ConnectFlags(c, g)) == Some(c)
  {
    hide Utf8, Bit, ReadStr, ReadU16, ReadBinary, Field, U16, SkipStrings, WillFields, ConnectFlags;
    ConnectFlagBits(c, g);
    var r5 := g.trailing;
    var r4 := OptionalField(c.password) + r5;
    var r3 := OptionalField(c.username) + r4;
    var r2 := WillFields(g.will) + r3;
    var r1 := Field(c.clientId) + r2;
    ReadU16Exact(ConnectTail(c, g), c.keepalive, r1);
    ReadStrExact(r1, c.clientId, r2);
    WillSkipped(r2, g.will, r3);
    if c.username.Some? { ReadStrExact(r3, c.username.value, r4); } else { assert r3 == r4; }
    if c.password.Some? { ReadBinaryExact(r4, c.password.value, r5); } else { assert r4 == r5; }
  }

  /** Every CONNECT with a legal field layout decodes to what was sent. */
  lemma ConnectAccepted(c: Connect, g: Ignored, flags: byte)
    requires ValidConnect(c, g) && !Bit(flags, 1)
    ensures DecodeConnect(ConnectBody(c, g), flags) == Some(c)
  {
    hide Utf8, Bit, ReadStr, Field, ConnectTail, DecodeConnectTail, ConnectFlags;
    ConnectFlagBits(c, g);
    var rest := [4, ConnectFlags(c, g)] + ConnectTail(c, g);
    ProtocolNameUtf8();
    ReadStrExact(ConnectBody(c, g), PROTOCOL_NAME, rest);
    assert rest[2..] == ConnectTail(c, g);
    TailAccepted(c, g);
  }

  lemma ProtocolNameUtf8()
    ensures Utf8(PROTOCOL_NAME)
  {
    assert PROTOCOL_NAME[1..] == [0x51, 0x54, 0x54];
    assert PROTOCOL_NAME[1..][1..] == [0x54, 0x54];
    assert PROTOCOL_NAME[1..][1..][1..] == [0x54];
    assert PROTOCOL_NAME[1..][1..][1..][1..] == [];
  }

  /** Whatever decodes was a legal CONNECT, and its ignored parts are given. */
  lemma ConnectOnlyAccepted(body: Bytes, flags: byte) returns (g: Ignored)
    requires DecodeConnect(body, flags).Some?
    ensures !Bit(flags, 1)
    ensures ValidConnect(DecodeConnect(body, flags).value, g)
    ensures body == ConnectBody(DecodeConnect(body, flags).value, g)
  {
    hide Utf8, Bit, ReadStr, Field, ConnectTail, DecodeConnectTail, ConnectFlags;
    var (name, rest) := ReadStr(body).value;
    ReadStrExact(body, name, rest);
    assert rest == [4, rest[1]] + rest[2..];
    g := TailOnlyAccepted(rest[2..], rest[1]);
  }

  lemma TailOnlyAccepted(tail: Bytes, f: byte) returns (g: Ignored)
    requires !Bit(f, 1) && DecodeConnectTail(tail, f).Some?
    ensures ValidConnect(DecodeConnectTail(tail, f).value, g)
    ensures ConnectFlags(DecodeConnectTail(tail, f).value, g) == f
    ensures ConnectTail(DecodeConnectTail(tail, f).value, g) == tail
  {
    hide Utf8, Bit, ReadStr, ReadU16, ReadBinary, Field, U16, SkipStrings, WillFields, ConnectFlags;
    var c := DecodeConnectTail(tail, f).value;
    var (keepalive, r1) := ReadU16(tail).value;
    ReadU16Exact(tail, keepalive, r1);
    var (clientId, r2) := ReadStr(r1).value;
    ReadStrExact(r1, clientId, r2);
    var will, r3 := ReadWill(r2, Bit(f, 4));
    var r4 := ReadOptional(Bit(f, 128), r3, false).value.1;
    if Bit(f, 128) { ReadStrExact(r3, c.username.value, r4); } else { assert r3 == OptionalField(None) + r4; }
    var r5 := ReadOptional(Bit(f, 64), r4, true).value.1;
    if Bit(f, 64) { ReadBinaryExact(r4, c.password.value, r5); } else { assert r4 == OptionalField(None) + r5; }
    g := Ignored(will, (f / 8) % 8, r5);
    FlagsRebuilt(f, c, g);
  }

  lemma ReadWill(r: Bytes, present: bool) returns (will: Option<(Bytes, Bytes)>, tail: Bytes)
    requires SkipStrings(r, if present then 2 else 0).Some?
    ensures SkipStrings(r, if present then 2 else 0) == Some(tail)
    ensures will.Some? == present && r == WillFields(will) + tail
    ensures will.Some? ==> TextField(will.value.0) && TextField(will.value.1)
  {
    hide Utf8;
    if present {
      var (topic, r') := ReadStr(r).value;
      ReadStrExact(r, topic, r');
      assert SkipStrings(r', 1).Some?;
      var (message, r'') := ReadStr(r').value;
      ReadStrExact(r', message, r'');
      assert SkipStrings(r'', 0) == Some(r'');
      will, tail := Some((topic, message)), r'';
    } else {
      will, tail := None, r;
      assert r == WillFields(None) + r;
    }
  }

  lemma FlagsRebuilt(f: byte, c: Connect, g: Ignored)
    requires !Bit(f, 1) && g.spare == (f / 8) % 8
    requires Bit(f, 128) <==> c.username.Some?
    requires Bit(f, 64) <==> c.password.Some?
    requires Bit(f, 4) <==> g.will.Some?
    requires Bit(f, 2) <==> c.cleanStart
    ensures ConnectFlags(c, g) == f
  {
    assert f == 2 * (f / 2) + f % 2;
    assert f / 2 == 2 * (f / 4) + (f / 2) % 2;
    assert f / 4 == 2 * (f / 8) + (f / 4) % 2;
    assert f / 8 == 8 * (f / 64) + (f / 8) % 8;
    assert f / 64 == 2 * (f / 128) + (f / 64) % 2;
    assert f / 128 < 2;
  }

  // ---------------------------------------------------------------------
  // SUBACK.
  // ---------------------------------------------------------------------

  function Suback(packetId: nat, codes: seq<byte>): Bytes {
    [0x90] + EncodeLength(2 + |codes|) + (U16(packetId) + codes)
  }

  /** The acknowledgement is one frame that carries the request's id and one code per filter, in order. */
  lemma SubackFrame(packetId: nat, codes: seq<byte>)
    requires packetId <= U16_MAX && 2 + |codes| <= MAX_REMAINING
    ensures IsFrame(Suback(packetId, codes))
    ensures PacketOf(Suback(packetId, codes)).kind == 9
    ensures ReadU16(PacketOf(Suback(packetId, codes)).payload) == Some((packetId, codes))
  {
    EncodedFrame(0x90, U16(packetId) + codes);
    ReadU16Exact(U16(packetId) + codes, packetId, codes);
  }
}
