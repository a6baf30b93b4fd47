/**
 * The carry-buffer framer of the console socket, against a pure stream parser.
 *
 * Chunks arrive in any sizes; each is appended to the carry buffer, whole packets are drained from its
 * front and handed to the packet handler, and what is left waits for the next chunk.
 */
module Framing {
  import opened Prelude
  import opened RemainingLength

  type Bytes = seq<byte>

  // ---------------------------------------------------------------------
  // The pure stream parser.
  // ---------------------------------------------------------------------

  /** The length of the first packet of a stream, once its fixed header has arrived. */
  function Announced(bs: Bytes): (total: Option<nat>)
    ensures total.Some? ==> total.value >= 2
  {
    if bs == [] then None
    else match DecodeLength(bs[1..])
      case None => None
      case Some((remaining, headerLen)) => Some(1 + headerLen + remaining)
  }

  /** `bs` is exactly one packet. */
  predicate IsFrame(bs: Bytes) {
    Announced(bs) == Some(|bs|)
  }

  /** Bytes that cannot be read as a fixed header: too few of them yet, or four continuation bits. */
  predicate HeaderUnread(bs: Bytes) {
    bs != [] && Announced(bs) == None
  }

  datatype Parsed = Parsed(frames: seq<Bytes>, rest: Bytes)

  function ParseStream(bs: Bytes): Parsed
    decreases |bs|
  {
    match Announced(bs)
    case Some(total) =>
      if |bs| < total then Parsed([], bs)
      else
        var tail := ParseStream(bs[total..]);
        Parsed([bs[..total]] + tail.frames, tail.rest)
    case None => Parsed([], bs)
  }

  lemma AnnouncedStable(a: Bytes, b: Bytes)
    requires Announced(a).Some?
    ensures Announced(a + b) == Announced(a)
  {
    DecodeStable(a[1..], b);
    assert (a + b)[1..] == a[1..] + b;
  }

  lemma {:induction false} ConcatCons<T>(head: seq<T>, tail: seq<seq<T>>)
    ensures Concat([head] + tail) == head + Concat(tail)
  {
    if tail == [] {
      assert [head][..0] == [];
      assert Concat([head]) == [] + head;
      assert [head] + tail == [head];
    } else {
      var all := [head] + tail;
      assert all[..|all| - 1] == [head] + tail[..|tail| - 1];
      ConcatCons(head, tail[..|tail| - 1]);
    }
  }

  lemma ParseWhole(bs: Bytes, total: nat)
    requires Announced(bs) == Some(total) && total <= |bs|
    ensures ParseStream(bs).frames == [bs[..total]] + ParseStream(bs[total..]).frames
    ensures ParseStream(bs).rest == ParseStream(bs[total..]).rest
  {
  }

  lemma ParseNone(bs: Bytes)
    requires Announced(bs).Some? ==> |bs| < Announced(bs).value
    ensures ParseStream(bs) == Parsed([], bs)
  {
  }

  /** The parser splits a stream into whole packets and a rest that starts with none. */
  lemma {:induction false} ParseIsDecomposition(bs: Bytes)
    ensures Concat(ParseStream(bs).frames) + ParseStream(bs).rest == bs
    ensures forall f :: f in ParseStream(bs).frames ==> IsFrame(f)
    ensures var rest := ParseStream(bs).rest; Announced(rest).Some? ==> |rest| < Announced(rest).value
    decreases |bs|
  {
    hide Announced, ParseStream, IsFrame, Concat;
    if Announced(bs).Some? && |bs| >= Announced(bs).value {
      var total := Announced(bs).value;
      AnnouncedPositive(bs);
      var tail := ParseStream(bs[total..]);
      ParseIsDecomposition(bs[total..]);
      ParseWhole(bs, total);
      ConcatCons(bs[..total], tail.frames);
      assert bs == bs[..total] + bs[total..] == bs[..total] + Concat(tail.frames) + tail.rest;
      FrontIsFrame(bs);
    } else {
      ParseNone(bs);
      ConcatNone<byte>();
    }
  }

  lemma ConcatNone<T>()
    ensures Concat<T>([]) == []
  {
  }

  lemma AnnouncedPositive(bs: Bytes)
    requires Announced(bs).Some?
    ensures Announced(bs).value >= 2
  {
  }

  lemma FrontIsFrame(bs: Bytes)
    requires Announced(bs).Some? && |bs| >= Announced(bs).value
    ensures IsFrame(bs[..Announced(bs).value])
  {
    var (remaining, k) := DecodeLength(bs[1..]).value;
    var total := 1 + k + remaining;
    var front := bs[..total];
    assert EndsAt(front[1..], k) by {
      assert forall i :: 0 <= i < k ==> front[1..][i] == bs[1..][i];
    }
    EndsAtUnique(front[1..], k, DecodeLength(front[1..]).value.1);
    assert front[1..][..k] == bs[1..][..k];
  }

  /** The decomposition is unique, so the parser is determined by its result. */
  lemma {:induction false} DecompositionUnique(frames: seq<Bytes>, rest: Bytes)
    requires forall f :: f in frames ==> IsFrame(f)
    requires Announced(rest).Some? ==> |rest| < Announced(rest).value
    ensures ParseStream(Concat(frames) + rest) == Parsed(frames, rest)
  {
    if frames == [] {
      assert Concat(frames) + rest == rest;
      ParseNone(rest);
    } else {
      var f := frames[0];
      var tail := frames[1..];
      assert frames == [f] + tail;
      ConcatCons(f, tail);
      var bs := f + (Concat(tail) + rest);
      assert Concat(frames) + rest == bs;
      assert f in frames;
      AnnouncedStable(f, Concat(tail) + rest);
      assert bs[..|f|] == f && bs[|f|..] == Concat(tail) + rest;
      DecompositionUnique(tail, rest);
      ParseWhole(bs, |f|);
    }
  }

  /** Parsing a longer stream continues from the rest of the shorter one. */
  lemma {:induction false} ParseContinues(a: Bytes, b: Bytes)
    ensures ParseStream(a + b).frames == ParseStream(a).frames + ParseStream(ParseStream(a).rest + b).frames
    ensures ParseStream(a + b).rest == ParseStream(ParseStream(a).rest + b).rest
    decreases |a|
  {
    hide Announced;
    if Announced(a).Some? && |a| >= Announced(a).value {
      var total := Announced(a).value;
      AnnouncedPositive(a);
      AnnouncedStable(a, b);
      ParseWhole(a, total);
      ParseWhole(a + b, total);
      assert (a + b)[..total] == a[..total];
      assert (a + b)[total..] == a[total..] + b;
      ParseContinues(a[total..], b);
    } else {
      ParseNone(a);
    }
  }

  // ---------------------------------------------------------------------
  // One drive of the carry buffer.
  // ---------------------------------------------------------------------

  /** Whether the handler returns normally on the last packet of a history of packets. */
  type Handler = seq<Bytes> -> bool

  datatype Drive = Drive(frames: seq<Bytes>, carry: Bytes, ok: bool)

  function DriveAll(frames: seq<Bytes>, carry: Bytes, accepts: Handler): Drive
    decreases |carry|
  {
    if carry == [] then Drive(frames, carry, true)
    else if |carry| > MAX_PACKET_BYTES then Drive(frames, carry, false)
    else match Announced(carry)
      case None => Drive(frames, carry, false)
      case Some(total) =>
        if |carry| < total then Drive(frames, carry, true)
        else
          var next := frames + [carry[..total]];
          if accepts(next) then DriveAll(next, carry[total..], accepts)
          else Drive(next, carry[total..], false)
  }

  /** Every packet of `all` past the first `from` is accepted when its turn comes. */
  ghost predicate AllAccepted(all: seq<Bytes>, from: nat, accepts: Handler) {
    forall k :: from < k <= |all| ==> accepts(all[..k])
  }

  /** When the drive ends normally, and what it has then done. */
  lemma {:induction false} DriveMeaning(frames: seq<Bytes>, carry: Bytes, accepts: Handler)
    ensures var d, p := DriveAll(frames, carry, accepts), ParseStream(carry);
            && (d.ok <==>
                && |carry| <= MAX_PACKET_BYTES
                && !HeaderUnread(p.rest)
                && AllAccepted(frames + p.frames, |frames|, accepts))
            && (d.ok ==> d.frames == frames + p.frames && d.carry == p.rest)
    decreases |carry|
  {
    hide Announced;
    var p := ParseStream(carry);
    if Announced(carry) == None || |carry| < Announced(carry).value || |carry| > MAX_PACKET_BYTES {
      DriveStops(frames, carry, accepts);
    } else {
      var total := Announced(carry).value;
      AnnouncedPositive(carry);
      ParseWhole(carry, total);
      var next := frames + [carry[..total]];
      var tail := ParseStream(carry[total..]);
      assert next + tail.frames == frames + p.frames;
      assert (frames + p.frames)[..|frames| + 1] == next;
      if accepts(next) {
        DriveMeaning(next, carry[total..], accepts);
      }
    }
  }

  lemma DriveStops(frames: seq<Bytes>, carry: Bytes, accepts: Handler)
    requires Announced(carry) == None || |carry| < Announced(carry).value || |carry| > MAX_PACKET_BYTES
    ensures DriveAll(frames, carry, accepts) ==
            Drive(frames, carry, |carry| <= MAX_PACKET_BYTES && !HeaderUnread(carry))
    ensures |carry| <= MAX_PACKET_BYTES ==> ParseStream(carry) == Parsed([], carry)
  {
  }

  /** No byte is lost or invented, whether or not the drive ends normally. */
  lemma {:induction false} DriveConserves(frames: seq<Bytes>, carry: Bytes, accepts: Handler)
    ensures var d := DriveAll(frames, carry, accepts);
            Concat(d.frames) + d.carry == Concat(frames) + carry && frames <= d.frames
    decreases |carry|
  {
    hide Announced;
    if Announced(carry) == None || |carry| < Announced(carry).value || |carry| > MAX_PACKET_BYTES {
    } else {
      var total := Announced(carry).value;
      AnnouncedPositive(carry);
      var next := frames + [carry[..total]];
      assert next[..|next| - 1] == frames;
      assert Concat(next) == Concat(frames) + carry[..total];
      assert carry == carry[..total] + carry[total..];
      if accepts(next) {
        DriveConserves(next, carry[total..], accepts);
      }
    }
  }

  // ---------------------------------------------------------------------
  // A whole run of one socket.
  // ---------------------------------------------------------------------

  datatype Conn = Conn(frames: seq<Bytes>, carry: Bytes, open: bool)

  /**
   * One binary message. A socket has a session from its first accepted packet on; one that has none and
   * an empty buffer is closed.
   */
  function Receive(c: Conn, chunk: Bytes, accepts: Handler): Conn {
    if !c.open then c
    else
      var d := DriveAll(c.frames, c.carry + chunk, accepts);
      Conn(d.frames, d.carry, d.ok && (d.frames != [] || d.carry != []))
  }

  function RunChunks(chunks: seq<Bytes>, accepts: Handler): Conn {
    if chunks == [] then Conn([], [], true)
    else Receive(RunChunks(chunks[..|chunks| - 1], accepts), chunks[|chunks| - 1], accepts)
  }

  /**
   * What the last chunk of `chunks` may not do: overfill the buffer, end inside a header, be refused, or leave
   * nothing received.
   */
  ghost predicate LastChunkFits(chunks: seq<Bytes>, accepts: Handler)
    requires chunks != []
  {
    var before := ParseStream(Concat(chunks[..|chunks| - 1]));
    var after := ParseStream(Concat(chunks));
    && |before.rest| + |chunks[|chunks| - 1]| <= MAX_PACKET_BYTES
    && !HeaderUnread(after.rest)
    && AllAccepted(after.frames, |before.frames|, accepts)
    && Concat(chunks) != []
  }

  ghost predicate EveryChunkFits(chunks: seq<Bytes>, accepts: Handler) {
    forall i :: 0 < i <= |chunks| ==> LastChunkFits(chunks[..i], accepts)
  }

  /**
   * The socket stays open exactly when every chunk fits, and then the packets handed on and the carry
   * are the parse of the concatenated bytes, however they were cut into chunks.
   */
  lemma {:induction false} FramerRefinesParser(chunks: seq<Bytes>, accepts: Handler)
    ensures RunChunks(chunks, accepts).open <==> EveryChunkFits(chunks, accepts)
    ensures var c := RunChunks(chunks, accepts);
            c.open ==> ParseStream(Concat(chunks)) == Parsed(c.frames, c.carry)
  {
    hide ParseStream, Receive, HeaderUnread;
    if chunks == [] {
      NothingReceived(accepts);
    } else {
      var init := chunks[..|chunks| - 1];
      FramerRefinesParser(init, accepts);
      assert forall i :: 0 < i <= |init| ==> init[..i] == chunks[..i];
      assert chunks[..|chunks|] == chunks;
      var c := RunChunks(init, accepts);
      if c.open {
        OneMoreChunk(c, chunks, accepts);
        assert forall i :: 0 < i <= |chunks| ==> i <= |init| || chunks[..i] == chunks;
      } else {
        var i :| 0 < i <= |init| && !LastChunkFits(init[..i], accepts);
        assert !LastChunkFits(chunks[..i], accepts);
        ClosedStaysClosed(c, chunks[|chunks| - 1], accepts);
      }
    }
  }

  lemma NothingReceived(accepts: Handler)
    ensures RunChunks([], accepts) == Conn([], [], true)
    ensures ParseStream(Concat([])) == Parsed([], [])
  {
  }

  lemma ClosedStaysClosed(c: Conn, chunk: Bytes, accepts: Handler)
    requires !c.open
    ensures Receive(c, chunk, accepts) == c
  {
  }

  lemma OneMoreChunk(c: Conn, chunks: seq<Bytes>, accepts: Handler)
    requires chunks != [] && c.open
    requires ParseStream(Concat(chunks[..|chunks| - 1])) == Parsed(c.frames, c.carry)
    ensures var next := Receive(c, chunks[|chunks| - 1], accepts);
            && (next.open <==> LastChunkFits(chunks, accepts))
            && (next.open ==> ParseStream(Concat(chunks)) == Parsed(next.frames, next.carry))
  {
    hide ParseStream, HeaderUnread;
    var chunk := chunks[|chunks| - 1];
    DriveMeaning(c.frames, c.carry + chunk, accepts);
    ParseContinues(Concat(chunks[..|chunks| - 1]), chunk);
    NothingParsed(Concat(chunks));
  }

  /** A parse with no packet and no rest is that of no bytes. */
  lemma NothingParsed(bs: Bytes)
    ensures ParseStream(bs) == Parsed([], []) <==> bs == []
  {
  }

  /** An empty first message closes the socket, although it fits in every other way. */
  lemma EmptyFirstMessageCloses(accepts: Handler)
    ensures !RunChunks([[]], accepts).open && !LastChunkFits([[]], accepts)
    ensures DriveAll([], [], accepts).ok
  {
    var chunks: seq<Bytes> := [[]];
    assert chunks[..0] == [];
    assert RunChunks(chunks[..0], accepts) == Conn([], [], true);
    assert Concat(chunks) == Concat(chunks[..0]) + chunks[0];
  }

  /** In every run the drained packets and the carry are a prefix of the chunks sent, cut after some chunk. */
  lemma {:induction false} RunConserves(chunks: seq<Bytes>, accepts: Handler) returns (taken: nat)
    ensures taken <= |chunks|
    ensures var c := RunChunks(chunks, accepts);
            && Concat(c.frames) + c.carry == Concat(chunks[..taken])
            && (c.open ==> taken == |chunks|)
  {
    hide DriveAll;
    if chunks == [] {
      taken := 0;
      assert chunks[..0] == [];
    } else {
      var init, chunk := chunks[..|chunks| - 1], chunks[|chunks| - 1];
      taken := RunConserves(init, accepts);
      assert init[..taken] == chunks[..taken];
      var c := RunChunks(init, accepts);
      if c.open {
        DriveConserves(c.frames, c.carry + chunk, accepts);
        assert init[..taken] == init;
        assert Concat(c.frames) + (c.carry + chunk) == Concat(init) + chunk;
        assert chunks[..|chunks|] == chunks;
        taken := |chunks|;
      }
    }
  }

  /** A chunk that ends inside a fixed header closes the socket, although more bytes could complete it. */
  lemma SplitHeaderCloses()
    ensures var accepts := (h: seq<Bytes>) => true;
            && !RunChunks([[0xC0], [0x00]], accepts).open
            && RunChunks([[0xC0, 0x00]], accepts).open
            && ParseStream([0xC0, 0x00]) == Parsed([[0xC0, 0x00]], [])
  {
    var accepts := (h: seq<Bytes>) => true;
    var first: seq<Bytes> := [[0xC0], [0x00]];
    assert first[..1] == [[0xC0 as byte]];
    assert first[..1][..0] == [];
    assert RunChunks(first[..1][..0], accepts).carry + [0xC0] == [0xC0];
    assert [0xC0 as byte][1..] == [];
    assert !RunChunks(first[..1], accepts).open;
    var ping: Bytes := [0xC0, 0x00];
    assert ping[1..] == [0x00];
    assert [0x00 as byte][..1][1..] == [];
    assert Announced(ping) == Some(2);
    assert ping[..2] == ping && ping[2..] == [];
    var whole: seq<Bytes> := [ping];
    assert whole[..0] == [];
    assert RunChunks(whole[..0], accepts).carry + ping == ping;
  }

  // ---------------------------------------------------------------------
  // The socket task itself.
  // ---------------------------------------------------------------------

  class Socket {
    var frames: seq<Bytes>
    var carry: Bytes

    constructor ()
      ensures frames == [] && carry == []
    {
      frames, carry := [], [];
    }

    /** Append one binary message and drain every whole packet. */
    method DrivePackets(chunk: Bytes, accepts: Handler) returns (ok: bool)
      modifies this
      ensures DriveAll(old(frames), old(carry) + chunk, accepts) == Drive(frames, carry, ok)
    {
      carry := carry + chunk;
      ghost var goal := DriveAll(frames, carry, accepts);
      while true
        invariant DriveAll(frames, carry, accepts) == goal
        decreases |carry|
      {
        if carry == [] {
          return true;
        }
        if |carry| > MAX_PACKET_BYTES {
          return false;
        }
        var header := DecodeRemainingLength(carry[1..]);
        if header.None? {
          return false;
        }
        var (remaining, headerLen) := header.value;
        var total := 1 + headerLen + remaining;
        AcceptedTotalBounded(carry[1..]);
        if total > MAX_PACKET_BYTES || |carry| < total {
          ok := |carry| < total;
          return;
        }
        frames := frames + [carry[..total]];
        carry := carry[total..];
        if !accepts(frames) {
          return false;
        }
      }
    }

    /** One binary message: drive, then close a socket that has neither session nor bytes. */
    method Take(chunk: Bytes, accepts: Handler) returns (open: bool)
      modifies this
      ensures Receive(Conn(old(frames), old(carry), true), chunk, accepts) == Conn(frames, carry, open)
    {
      var ok := DrivePackets(chunk, accepts);
      return ok && !(frames == [] && carry == []);
    }
  }
}
