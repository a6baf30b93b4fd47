/** The variable-length integer of the fixed header (section 2.2.3 of MQTT 3.1.1). */
module RemainingLength {
  import opened Prelude

  const MAX_PACKET_BYTES: int := 268_435_460
  const MAX_REMAINING: int := 268_435_455

  /** Base-128 digits of `n`, least significant first, continuation bit on all but the last. */
  function EncodeLength(n: nat): (bs: seq<byte>)
    ensures bs != []
  {
    if n < 128 then [n] else [n % 128 + 128] + EncodeLength(n / 128)
  }

  method EncodeRemainingLength(value: nat, into: seq<byte>) returns (out: seq<byte>)
    ensures out == into + EncodeLength(value)
  {
    var n := value;
    out := into;
    while true
      invariant out + EncodeLength(n) == into + EncodeLength(value)
      decreases n
    {
      var digit: byte := n % 128;
      ghost var before := n;
      n := n / 128;
      if n > 0 {
        digit := digit + 128;
      }
      assert EncodeLength(before) == if n > 0 then [digit] + EncodeLength(n) else [digit];
      out := out + [digit];
      if n == 0 {
        break;
      }
    }
  }

  /** The number a run of base-128 digits stands for, whatever its continuation bits. */
  function Value(bs: seq<byte>): nat {
    if bs == [] then 0 else bs[0] % 128 + 128 * Value(bs[1..])
  }

  function Pow128(k: nat): nat {
    if k == 0 then 1 else 128 * Pow128(k - 1)
  }

  lemma {:induction false} ValueBound(bs: seq<byte>)
    ensures Value(bs) < Pow128(|bs|)
  {
    if bs != [] {
      ValueBound(bs[1..]);
    }
  }

  lemma {:induction false} ValueSnoc(bs: seq<byte>, b: byte)
    ensures Value(bs + [b]) == Value(bs) + Pow128(|bs|) * (b % 128)
  {
    if bs == [] {
      assert bs + [b] == [b] && [b][1..] == [];
    } else {
      assert (bs + [b])[1..] == bs[1..] + [b];
      ValueSnoc(bs[1..], b);
      Distribute(Pow128(|bs| - 1), b % 128);
    }
  }

  lemma Distribute(p: nat, d: nat)
    ensures 128 * (p * d) == 128 * p * d
  {
  }

  /** Length of the shortest prefix that ends in a byte without the continuation bit. */
  predicate EndsAt(buf: seq<byte>, k: nat) {
    1 <= k <= |buf| && buf[k - 1] < 128 && forall i :: 0 <= i < k - 1 ==> buf[i] >= 128
  }

  /** The decoder: the first terminated run of at most four digits. */
  function DecodeLength(buf: seq<byte>): (r: Option<(nat, nat)>)
    ensures r.Some? ==> 1 <= r.value.1 <= 4 && EndsAt(buf, r.value.1) && r.value.0 == Value(buf[..r.value.1])
    ensures r.None? ==> forall k :: 1 <= k <= 4 ==> !EndsAt(buf, k)
  {
    if |buf| >= 1 && buf[0] < 128 then Some((Value(buf[..1]), 1))
    else if |buf| >= 2 && buf[1] < 128 then Some((Value(buf[..2]), 2))
    else if |buf| >= 3 && buf[2] < 128 then Some((Value(buf[..3]), 3))
    else if |buf| >= 4 && buf[3] < 128 then Some((Value(buf[..4]), 4))
    else None
  }

  lemma EndsAtUnique(buf: seq<byte>, j: nat, k: nat)
    requires EndsAt(buf, j) && EndsAt(buf, k)
    ensures j == k
  {
  }

  method DecodeRemainingLength(buf: seq<byte>) returns (r: Option<(nat, nat)>)
    ensures r == DecodeLength(buf)
  {
    var multiplier: nat, length: nat := 1, 0;
    var i := 0;
    while i < |buf| && i < 4
      invariant 0 <= i <= 4 && i <= |buf|
      invariant multiplier == Pow128(i)
      invariant length == Value(buf[..i])
      invariant forall j :: 0 <= j < i ==> buf[j] >= 128
    {
      assert buf[..i + 1] == buf[..i] + [buf[i]];
      ValueSnoc(buf[..i], buf[i]);
      length := length + multiplier * (buf[i] % 128);
      if buf[i] < 128 {
        EndsAtUnique(buf, i + 1, i + 1);
        return Some((length, i + 1));
      }
      multiplier := multiplier * 128;
      i := i + 1;
    }
    r := None;
  }

  // ---------------------------------------------------------------------
  // Size, minimality, round trip.
  // ---------------------------------------------------------------------

  lemma {:induction false} EncodedShape(n: nat)
    ensures EndsAt(EncodeLength(n), |EncodeLength(n)|)
    ensures Value(EncodeLength(n)) == n
  {
    var bs := EncodeLength(n);
    if n >= 128 {
      EncodedShape(n / 128);
      assert bs[1..] == EncodeLength(n / 128);
      forall i | 0 <= i < |bs| - 1 ensures bs[i] >= 128 {
        if i > 0 { assert bs[i] == EncodeLength(n / 128)[i - 1]; }
      }
      assert bs[|bs| - 1] == EncodeLength(n / 128)[|bs| - 2];
    }
  }

  /** The encoder is as short as any run of digits with the same value. */
  lemma {:induction false} EncodedShortest(n: nat, k: nat)
    requires k >= 1 && n < Pow128(k)
    ensures |EncodeLength(n)| <= k
  {
    if n >= 128 && k > 1 {
      EncodedShortest(n / 128, k - 1);
    }
  }

  lemma Pow128Four()
    ensures Pow128(1) == 128 && Pow128(2) == 16384 && Pow128(3) == 2097152 && Pow128(4) == MAX_REMAINING + 1
  {
    assert Pow128(1) == 128 * Pow128(0);
    assert Pow128(2) == 128 * Pow128(1);
    assert Pow128(3) == 128 * Pow128(2);
    assert Pow128(4) == 128 * Pow128(3);
  }

  /** Every length that fits four digits survives the wire, whatever follows it. */
  lemma RoundTrip(n: nat, suffix: seq<byte>)
    requires n <= MAX_REMAINING
    ensures 1 <= |EncodeLength(n)| <= 4
    ensures DecodeLength(EncodeLength(n) + suffix) == Some((n, |EncodeLength(n)|))
  {
    var bs := EncodeLength(n);
    Pow128Four();
    EncodedShortest(n, 4);
    EncodedShape(n);
    assert EndsAt(bs + suffix, |bs|);
    var r := DecodeLength(bs + suffix);
    EndsAtUnique(bs + suffix, |bs|, r.value.1);
    assert (bs + suffix)[..|bs|] == bs;
  }

  /** A longer value never decodes: its first four digits all carry the continuation bit. */
  lemma TooLongNeverDecodes(n: nat, suffix: seq<byte>)
    requires n > MAX_REMAINING
    ensures DecodeLength(EncodeLength(n) + suffix) == None
  {
    var bs := EncodeLength(n);
    EncodedShape(n);
    assert EndsAt(bs + suffix, |bs|);
    if |bs| <= 4 {
      ValueBound(bs);
      Pow128Four();
      assert false;
    }
    if DecodeLength(bs + suffix).Some? {
      EndsAtUnique(bs + suffix, |bs|, DecodeLength(bs + suffix).value.1);
    }
  }

  /** No accepted encoding of a number is shorter than the encoder's. */
  lemma AcceptedNotShorter(buf: seq<byte>)
    requires DecodeLength(buf).Some?
    ensures |EncodeLength(DecodeLength(buf).value.0)| <= DecodeLength(buf).value.1
  {
    var (n, k) := DecodeLength(buf).value;
    ValueBound(buf[..k]);
    EncodedShortest(n, k);
  }

  /** Any accepted header announces a packet of at most MAX_PACKET_BYTES. */
  lemma AcceptedTotalBounded(buf: seq<byte>)
    requires DecodeLength(buf).Some?
    ensures DecodeLength(buf).value.0 <= MAX_REMAINING
    ensures 1 + DecodeLength(buf).value.1 + DecodeLength(buf).value.0 <= MAX_PACKET_BYTES
  {
    var (n, k) := DecodeLength(buf).value;
    ValueBound(buf[..k]);
    Pow128Four();
  }

  /** Padded encodings are accepted too, so decoding is not injective. */
  lemma PaddedEncodingAccepted()
    ensures DecodeLength([0x80, 0x00]) == Some((0, 2))
    ensures DecodeLength([0x00]) == Some((0, 1))
  {
    assert [0x80 as byte, 0x00][..2] == [0x80, 0x00];
    assert [0x80 as byte, 0x00][1..] == [0x00];
    assert [0x00 as byte][..1] == [0x00];
    assert [0x00 as byte][1..] == [];
  }

  /** What a longer buffer decodes to, once a prefix decodes. */
  lemma DecodeStable(buf: seq<byte>, more: seq<byte>)
    requires DecodeLength(buf).Some?
    ensures DecodeLength(buf + more) == DecodeLength(buf)
  {
    var k := DecodeLength(buf).value.1;
    assert EndsAt(buf + more, k);
    EndsAtUnique(buf + more, k, DecodeLength(buf + more).value.1);
    assert (buf + more)[..k] == buf[..k];
  }
}
