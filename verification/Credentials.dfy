/** SCRAM-SHA-256 credentials (RFC 5802) over an uninterpreted hash, and their text encoding. */
module Credentials {
  import opened Prelude
  import opened Text

  type Octets = seq<bv8>

  type Digest = d: Octets | |d| == 32 witness seq(32, i => 0)

  /** SHA-256. */
  type Hash = Octets -> Digest

  // ---------------------------------------------------------------------
  // Exclusive or.
  // ---------------------------------------------------------------------

  function Xor(a: Octets, b: Octets): (r: Octets)
    requires |a| == |b|
    ensures |r| == |a|
    ensures forall i :: 0 <= i < |r| ==> r[i] == a[i] ^ b[i]
  {
    seq(|a|, i requires 0 <= i < |a| => a[i] ^ b[i])
  }

  lemma XorBit(x: bv8, y: bv8)
    ensures (x ^ y) ^ y == x
  {
  }

  lemma XorCancels(a: Octets, b: Octets)
    requires |a| == |b|
    ensures Xor(Xor(a, b), b) == a
  {
    forall i | 0 <= i < |a| ensures Xor(Xor(a, b), b)[i] == a[i] { XorBit(a[i], b[i]); }
  }

  function Repeat(b: bv8, n: nat): (r: Octets)
    ensures |r| == n && forall i :: 0 <= i < n ==> r[i] == b
  {
    seq(n, i => b)
  }

  // ---------------------------------------------------------------------
  // HMAC and PBKDF2.
  // ---------------------------------------------------------------------

  function BlockKey(key: Octets, sha: Hash): (k: Octets)
    ensures |k| == 64
  {
    if |key| > 64 then sha(key) + Repeat(0, 32) else key + Repeat(0, 64 - |key|)
  }

  function Hmac(key: Octets, data: Octets, sha: Hash): Digest {
    var k := BlockKey(key, sha);
    sha(Xor(k, Repeat(0x5c, 64)) + sha(Xor(k, Repeat(0x36, 64)) + data))
  }

  lemma XorCommutes(x: bv8, y: bv8)
    ensures x ^ y == y ^ x
  {
  }

  method HmacSha256(key: Octets, data: Octets, sha: Hash) returns (mac: Digest)
    ensures mac == Hmac(key, data, sha)
  {
    var k := BlockKey(key, sha);
    var ipad, opad := Repeat(0x36, 64), Repeat(0x5c, 64);
    for i := 0 to 64
      invariant |ipad| == |opad| == 64
      invariant forall j :: 0 <= j < i ==> ipad[j] == k[j] ^ 0x36 && opad[j] == k[j] ^ 0x5c
      invariant forall j :: i <= j < 64 ==> ipad[j] == 0x36 && opad[j] == 0x5c
    {
      XorCommutes(k[i], 0x36);
      XorCommutes(k[i], 0x5c);
      ipad := ipad[i := ipad[i] ^ k[i]];
      opad := opad[i := opad[i] ^ k[i]];
    }
    assert ipad == Xor(k, Repeat(0x36, 64));
    assert opad == Xor(k, Repeat(0x5c, 64));
    mac := sha(opad + sha(ipad + data));
  }

  /** Octet `i` of the block made from a key: of its hash if it is long, of the key itself if not, then zeros. */
  function BlockOctet(key: Octets, i: nat, sha: Hash): bv8 {
    if |key| > 64 then if i < 32 then sha(key)[i] else 0
    else if i < |key| then key[i] else 0
  }

  /** Section 2 of RFC 2104, octet by octet. */
  lemma HmacExactly(key: Octets, data: Octets, sha: Hash, inner: Octets, outer: Octets)
    requires |inner| == 64 && forall i :: 0 <= i < 64 ==> inner[i] == BlockOctet(key, i, sha) ^ 0x36
    requires |outer| == 64 && forall i :: 0 <= i < 64 ==> outer[i] == BlockOctet(key, i, sha) ^ 0x5c
    ensures Hmac(key, data, sha) == sha(outer + sha(inner + data))
  {
    var k := BlockKey(key, sha);
    assert forall i :: 0 <= i < 64 ==> k[i] == BlockOctet(key, i, sha);
    assert inner == Xor(k, Repeat(0x36, 64));
    assert outer == Xor(k, Repeat(0x5c, 64));
  }

  /** U1, U2, ... of section 2.2 of RFC 5802. */
  function U(password: Octets, salt: Octets, i: nat, sha: Hash): Digest
    requires i >= 1
  {
    if i == 1 then Hmac(password, salt + [0, 0, 0, 1], sha) else Hmac(password, U(password, salt, i - 1, sha), sha)
  }

  /** U1 XOR U2 XOR ... XOR Un. */
  function XorOfU(password: Octets, salt: Octets, n: nat, sha: Hash): Digest
    requires n >= 1
  {
    if n == 1 then U(password, salt, 1, sha)
    else Xor(XorOfU(password, salt, n - 1, sha), U(password, salt, n, sha))
  }

  function XorColumn(blocks: seq<Digest>, k: nat): bv8
    requires k < 32
  {
    if blocks == [] then 0 else XorColumn(blocks[..|blocks| - 1], k) ^ blocks[|blocks| - 1][k]
  }

  /**
   * For any blocks of which the first is the keyed hash of the salt and a big-endian one, and each later one that
   * of the block before it, octet `k` of the salted password is the exclusive or of theirs.
   */
  lemma {:induction false} SaltedExactly(password: Octets, salt: Octets, blocks: seq<Digest>, sha: Hash, k: nat)
    requires blocks != [] && k < 32
    requires blocks[0] == Hmac(password, salt + [0, 0, 0, 1], sha)
    requires forall i :: 1 <= i < |blocks| ==> blocks[i] == Hmac(password, blocks[i - 1], sha)
    ensures U(password, salt, |blocks|, sha) == blocks[|blocks| - 1]
    ensures XorOfU(password, salt, |blocks|, sha)[k] == XorColumn(blocks, k)
  {
    hide Hmac;
    var n := |blocks|;
    if n == 1 {
      assert blocks[..0] == [];
      ZeroXor(blocks[0][k]);
    } else {
      SaltedExactly(password, salt, blocks[..n - 1], sha, k);
    }
  }

  lemma ZeroXor(x: bv8)
    ensures 0 ^ x == x
  {
  }

  method Pbkdf2(password: Octets, salt: Octets, iterations: nat, sha: Hash) returns (result: Digest)
    ensures result == XorOfU(password, salt, Max(iterations, 1), sha)
  {
    var u := HmacSha256(password, salt + [0, 0, 0, 1], sha);
    result := u;
    var n := 1;
    while n < iterations
      invariant 1 <= n <= Max(iterations, 1)
      invariant u == U(password, salt, n, sha)
      invariant result == XorOfU(password, salt, n, sha)
    {
      u := HmacSha256(password, u, sha);
      var mixed: Octets := result;
      for i := 0 to 32
        invariant |mixed| == 32
        invariant forall j :: 0 <= j < i ==> mixed[j] == result[j] ^ u[j]
        invariant forall j :: i <= j < 32 ==> mixed[j] == result[j]
      {
        mixed := mixed[i := mixed[i] ^ u[i]];
      }
      assert mixed == Xor(result, u);
      result := mixed;
      n := n + 1;
    }
  }

  // ---------------------------------------------------------------------
  // Keys, proofs and signatures.
  // ---------------------------------------------------------------------

  function Ascii(text: string): Octets
    requires forall i :: 0 <= i < |text| ==> text[i] < '\U{80}'
  {
    seq(|text|, i requires 0 <= i < |text| => text[i] as int as bv8)
  }

  const CLIENT_KEY: Octets := Ascii("Client Key")
  const SERVER_KEY: Octets := Ascii("Server Key")

  function ClientKey(password: Octets, salt: Octets, iterations: nat, sha: Hash): Digest {
    Hmac(XorOfU(password, salt, Max(iterations, 1), sha), CLIENT_KEY, sha)
  }

  /** StoredKey and ServerKey of section 3 of RFC 5802. */
  function DeriveKeys(password: Octets, salt: Octets, iterations: nat, sha: Hash): (Digest, Digest) {
    ( sha(ClientKey(password, salt, iterations, sha)),
      Hmac(XorOfU(password, salt, Max(iterations, 1), sha), SERVER_KEY, sha))
  }

  /** The two keys from the salted password. */
  lemma DeriveExactly(password: Octets, salt: Octets, iterations: nat, sha: Hash)
    ensures var salted := XorOfU(password, salt, if iterations == 0 then 1 else iterations, sha);
            && ClientKey(password, salt, iterations, sha) == Hmac(salted, Ascii("Client Key"), sha)
            && DeriveKeys(password, salt, iterations, sha) ==
               (sha(Hmac(salted, Ascii("Client Key"), sha)), Hmac(salted, Ascii("Server Key"), sha))
  {
    hide Hmac, XorOfU, Ascii;
  }

  method DeriveKeysLoop(password: Octets, salt: Octets, iterations: nat, sha: Hash) returns (keys: (Digest, Digest))
    ensures keys == DeriveKeys(password, salt, iterations, sha)
  {
    var salted := Pbkdf2(password, salt, iterations, sha);
    var clientKey := HmacSha256(salted, CLIENT_KEY, sha);
    var serverKey := HmacSha256(salted, SERVER_KEY, sha);
    keys := (sha(clientKey), serverKey);
  }

  lemma OrZero(x: bv8, y: bv8)
    ensures x | y == 0 <==> x == 0 && y == 0
  {
  }

  lemma XorZero(x: bv8, y: bv8)
    ensures x ^ y == 0 <==> x == y
  {
  }

  method ConstantTimeEq(a: Digest, b: Digest) returns (equal: bool)
    ensures equal <==> a == b
  {
    var diff: bv8 := 0;
    for i := 0 to 32
      invariant diff == 0 <==> forall j :: 0 <= j < i ==> a[j] == b[j]
    {
      OrZero(diff, a[i] ^ b[i]);
      XorZero(a[i], b[i]);
      diff := diff | (a[i] ^ b[i]);
    }
    equal := diff == 0;
  }

  /** What the server does with a proof. */
  function Verify(storedKey: Digest, serverKey: Digest, message: Octets, proof: Octets, sha: Hash): Option<Digest> {
    if |proof| != 32 then None
    else if sha(Xor(proof, Hmac(storedKey, message, sha))) != storedKey then None
    else Some(Hmac(serverKey, message, sha))
  }

  method ScramVerify(storedKey: Digest, serverKey: Digest, message: Octets, proof: Octets, sha: Hash)
    returns (signature: Option<Digest>)
    ensures signature == Verify(storedKey, serverKey, message, proof, sha)
  {
    if |proof| != 32 {
      return None;
    }
    var clientSignature := HmacSha256(storedKey, message, sha);
    var clientKey: Octets := Repeat(0, 32);
    for i := 0 to 32
      invariant |clientKey| == 32
      invariant forall j :: 0 <= j < i ==> clientKey[j] == proof[j] ^ clientSignature[j]
    {
      clientKey := clientKey[i := proof[i] ^ clientSignature[i]];
    }
    assert clientKey == Xor(proof, clientSignature);
    var same := ConstantTimeEq(sha(clientKey), storedKey);
    if !same {
      return None;
    }
    var mac := HmacSha256(serverKey, message, sha);
    signature := Some(mac);
  }

  /** ClientProof of section 3 of RFC 5802. */
  function HonestProof(password: Octets, salt: Octets, iterations: nat, message: Octets, sha: Hash): Octets {
    Xor(ClientKey(password, salt, iterations, sha),
        Hmac(DeriveKeys(password, salt, iterations, sha).0, message, sha))
  }

  /** No other 32 octets hash to what these do. */
  ghost predicate NoCollision(key: Digest, sha: Hash) {
    forall other: Octets :: |other| == 32 && sha(other) == sha(key) ==> other == key
  }

  /**
   * The honest proof is accepted with the signature the client expects and, unless the hash collides on
   * the client key, it is the only proof accepted.
   */
  lemma ScramExactly(
    password: Octets, salt: Octets, iterations: nat, message: Octets, proof: Octets, sha: Hash)
    ensures var (storedKey, serverKey) := DeriveKeys(password, salt, iterations, sha);
            var honest := HonestProof(password, salt, iterations, message, sha);
            && Verify(storedKey, serverKey, message, honest, sha) == Some(Hmac(serverKey, message, sha))
            && (NoCollision(ClientKey(password, salt, iterations, sha), sha) ==>
                 (Verify(storedKey, serverKey, message, proof, sha).Some? <==> proof == honest))
  {
    hide Hmac, XorOfU;
    var (storedKey, serverKey) := DeriveKeys(password, salt, iterations, sha);
    var key := ClientKey(password, salt, iterations, sha);
    var signature := Hmac(storedKey, message, sha);
    XorCancels(key, signature);
    if |proof| == 32 {
      XorCancels(proof, signature);
    }
  }

  // ---------------------------------------------------------------------
  // The verifier as text.
  // ---------------------------------------------------------------------

  datatype Verifier = Verifier(salt: Octets, iterations: nat, storedKey: Digest, serverKey: Digest)

  /** Standard base64. */
  datatype Base64 = Base64(encode: Octets -> string, decode: string -> Option<Octets>)

  ghost predicate RoundTrips(b: Base64) {
    forall o :: b.decode(b.encode(o)) == Some(o) && '$' !in b.encode(o)
  }

  const PREFIX: string := "$scram-sha-256$"

  function EncodeVerifier(v: Verifier, b: Base64): string {
    PREFIX + PrintNat(v.iterations) + "$" + b.encode(v.salt) + "$" + b.encode(v.storedKey) + "$" + b.encode(v.serverKey)
  }

  function DecodeVerifier(text: string, b: Base64): Option<Verifier> {
    if !(PREFIX <= text) then None
    else
      var parts := Split(text[|PREFIX|..], '$');
      if |parts| != 4 then None
      else match (ParseU32(parts[0]), b.decode(parts[1]), b.decode(parts[2]), b.decode(parts[3]))
        case (Some(iterations), Some(salt), Some(storedKey), Some(serverKey)) =>
          if iterations == 0 || salt == [] || |salt| > 64 || |storedKey| != 32 || |serverKey| != 32 then None
          else Some(Verifier(salt, iterations, storedKey, serverKey))
        case _ => None
  }

  predicate Storable(v: Verifier) {
    1 <= v.iterations <= U32_MAX && 1 <= |v.salt| <= 64
  }

  lemma NoDollarInDigits(s: string)
    requires AllDigits(s)
    ensures '$' !in s
  {
  }

  /** Every verifier the store can hold survives being written out and read back. */
  lemma VerifierRoundTrip(v: Verifier, b: Base64)
    requires RoundTrips(b) && Storable(v)
    ensures DecodeVerifier(EncodeVerifier(v, b), b) == Some(v)
  {
    hide PrintNat, Split, ParseU32;
    var n, salt, k1, k2 := PrintNat(v.iterations), b.encode(v.salt), b.encode(v.storedKey), b.encode(v.serverKey);
    var rest := n + "$" + salt + "$" + k1 + "$" + k2;
    assert EncodeVerifier(v, b) == PREFIX + rest;
    assert EncodeVerifier(v, b)[|PREFIX|..] == rest;
    NoDollarInDigits(n);
    assert rest == n + ['$'] + (salt + ['$'] + (k1 + ['$'] + k2));
    SplitHead(n, '$', salt + ['$'] + (k1 + ['$'] + k2));
    SplitHead(salt, '$', k1 + ['$'] + k2);
    SplitHead(k1, '$', k2);
    SplitWhole(k2, '$');
    assert Split(rest, '$') == [n, salt, k1, k2];
    PrintedParses(v.iterations);
  }

  /** Whatever decodes can be stored again. */
  lemma DecodedIsStorable(text: string, b: Base64)
    requires DecodeVerifier(text, b).Some?
    ensures Storable(DecodeVerifier(text, b).value)
  {
    hide Split;
  }
}
