/** The byte strings that are signed, and the nonce and associated data of the ratchet, are unambiguous. */
module SignedEncodings {
  import opened Bytes

  const SIGNED_KEY_EXCHANGE_CONTEXT := Ascii("ciphermesh.phase-2b.signed-x25519")
  const SIGNED_PREKEY_CONTEXT := Ascii("ciphermesh.phase-2c.signed-prekey")
  const DEVICE_CERTIFICATE_CONTEXT := Ascii("ciphermesh.phase-5a.device-certificate")
  const DEVICE_REVOCATION_CONTEXT := Ascii("ciphermesh.phase-5d.device-revocation")
  const LOCAL_AAD := Ascii("ciphermesh.local.alice-to-bob.v1")

  /** SHA-256 of a public key: any function to 32 bytes. */
  type Digest = Key32 -> Key32

  function HexDigit(n: nat): byte
    requires n < 16
  {
    if n < 10 then 48 + n else 87 + n
  }

  /** The digits in order. */
  lemma HexDigits(n: nat)
    requires n < 16
    ensures HexDigit(n) == Ascii("0123456789abcdef")[n]
  {
  }

  function Hex(bytes: seq<byte>): (r: Text)
    ensures |r| == 2 * |bytes|
  {
    if bytes == [] then [] else [HexDigit(bytes[0] / 16), HexDigit(bytes[0] % 16)] + Hex(bytes[1..])
  }

  function AccountIdFor(sha: Digest, key: Key32): (r: Text)
    ensures |r| == 37
  {
    Ascii("acct-") + Hex(sha(key)[..16])
  }

  lemma {:induction false} HexInjective(a: seq<byte>, b: seq<byte>)
    requires |a| == |b| && Hex(a) == Hex(b)
    ensures a == b
  {
    if a != [] {
      assert Hex(a)[0] == HexDigit(a[0] / 16) && Hex(a)[1] == HexDigit(a[0] % 16);
      assert Hex(b)[0] == HexDigit(b[0] / 16) && Hex(b)[1] == HexDigit(b[0] % 16);
      assert a[0] == b[0];
      assert Hex(a)[2..] == Hex(a[1..]) && Hex(b)[2..] == Hex(b[1..]);
      HexInjective(a[1..], b[1..]);
      assert a == [a[0]] + a[1..] && b == [b[0]] + b[1..];
    }
  }

  /** Two keys have one account id exactly when their digests begin with the same sixteen bytes. */
  lemma SameAccountIff(sha: Digest, p: Key32, q: Key32)
    ensures AccountIdFor(sha, p) == AccountIdFor(sha, q) <==> sha(p)[..16] == sha(q)[..16]
  {
    if AccountIdFor(sha, p) == AccountIdFor(sha, q) {
      SameSplit(Ascii("acct-"), Hex(sha(p)[..16]), Ascii("acct-"), Hex(sha(q)[..16]));
      HexInjective(sha(p)[..16], sha(q)[..16]);
    }
  }

  /** What can be signed: the signed fields of each of the four records. */
  datatype Signable =
    | KeyExchange(identity: Key32, x25519: Key32)
    | Prekey(identity: Key32, x25519: Key32)
    | Certificate(accountId: Text, deviceId: Text, ed25519: Key32, x25519: Key32)
    | Revocation(accountId: Text, deviceId: Text, counter: u64)

  function Context(x: Signable): seq<byte> {
    match x
    case KeyExchange(_, _) => SIGNED_KEY_EXCHANGE_CONTEXT
    case Prekey(_, _) => SIGNED_PREKEY_CONTEXT
    case Certificate(_, _, _, _) => DEVICE_CERTIFICATE_CONTEXT
    case Revocation(_, _, _) => DEVICE_REVOCATION_CONTEXT
  }

  function Encode(x: Signable): seq<byte> {
    match x
    case KeyExchange(identity, key) => Context(x) + identity + key
    case Prekey(identity, key) => Context(x) + identity + key
    case Certificate(account, device, ed25519, key) => Context(x) + account + [0] + device + [0] + ed25519 + key
    case Revocation(account, device, counter) => Context(x) + account + [0] + device + [0] + BigEndian(counter, 8)
  }

  predicate HasAccount(x: Signable) {
    x.Certificate? || x.Revocation?
  }

  /** The two phase characters that tell the four contexts apart. */
  function Phase(x: Signable): (byte, byte) {
    match x
    case KeyExchange(_, _) => (50, 98)
    case Prekey(_, _) => (50, 99)
    case Certificate(_, _, _, _) => (53, 97)
    case Revocation(_, _, _) => (53, 100)
  }

  lemma EncodeStartsWithContext(x: Signable)
    ensures |Encode(x)| > 18 && Encode(x)[17] == Phase(x).0 && Encode(x)[18] == Phase(x).1
  {
    var c := Context(x);
    assert |c| >= 33 && c[17] == Phase(x).0 && c[18] == Phase(x).1;
    assert c <= Encode(x);
  }

  /** The four signing contexts never produce equal byte strings. */
  lemma ContextsNeverCollide(x: Signable, y: Signable)
    requires Encode(x) == Encode(y)
    ensures Context(x) == Context(y)
    ensures x.KeyExchange? <==> y.KeyExchange?
    ensures x.Prekey? <==> y.Prekey?
    ensures x.Certificate? <==> y.Certificate?
    ensures x.Revocation? <==> y.Revocation?
  {
    EncodeStartsWithContext(x);
    EncodeStartsWithContext(y);
  }

  lemma KeysUnambiguous(c: seq<byte>, i1: Key32, k1: Key32, i2: Key32, k2: Key32)
    requires c + i1 + k1 == c + i2 + k2
    ensures i1 == i2 && k1 == k2
  {
    SameSplit(c + i1, k1, c + i2, k2);
    SameSplit(c, i1, c, i2);
  }

  /** A NUL-terminated pair of ids in front of a fixed-length tail, when the first ids are equally long. */
  lemma IdsUnambiguous(c: seq<byte>, a1: Text, d1: Text, t1: seq<byte>, a2: Text, d2: Text, t2: seq<byte>)
    requires c + a1 + [0] + d1 + [0] + t1 == c + a2 + [0] + d2 + [0] + t2
    requires |t1| == |t2| && |a1| == |a2|
    ensures a1 == a2 && d1 == d2 && t1 == t2
  {
    SameSplit(c + a1 + [0] + d1 + [0], t1, c + a2 + [0] + d2 + [0], t2);
    SameSplit(c + a1 + [0] + d1, [0], c + a2 + [0] + d2, [0]);
    SameSplit(c + a1 + [0], d1, c + a2 + [0], d2);
    SameSplit(c + a1, [0], c + a2, [0]);
    SameSplit(c, a1, c, a2);
  }

  lemma EncodeInjective(x: Signable, y: Signable)
    requires Encode(x) == Encode(y)
    requires HasAccount(x) && HasAccount(y) ==> |x.accountId| == |y.accountId|
    ensures x == y
  {
    ContextsNeverCollide(x, y);
    var c := Context(x);
    match x
    case KeyExchange(i, k) => KeysUnambiguous(c, i, k, y.identity, y.x25519);
    case Prekey(i, k) => KeysUnambiguous(c, i, k, y.identity, y.x25519);
    case Certificate(a, d, e, k) =>
      assert Encode(x) == c + a + [0] + d + [0] + (e + k);
      assert Encode(y) == c + y.accountId + [0] + y.deviceId + [0] + (y.ed25519 + y.x25519);
      IdsUnambiguous(c, a, d, e + k, y.accountId, y.deviceId, y.ed25519 + y.x25519);
      SameSplit(e, k, y.ed25519, y.x25519);
    case Revocation(a, d, n) =>
      IdsUnambiguous(c, a, d, BigEndian(n, 8), y.accountId, y.deviceId, BigEndian(y.counter, 8));
      U64Injective(n, y.counter);
  }

  /**
   * Two records with the same signed bytes agree on every signed field exactly when their account
   * ids, if they carry any, are equally long.
   */
  lemma SameBytesIff(x: Signable, y: Signable)
    requires Encode(x) == Encode(y)
    ensures x == y <==> (HasAccount(x) ==> HasAccount(y) && |x.accountId| == |y.accountId|)
  {
    ContextsNeverCollide(x, y);
    if HasAccount(x) ==> |x.accountId| == |y.accountId| {
      EncodeInjective(x, y);
    }
  }

  /** Every pair of records that pass an account-id check, of one account or of two, is unambiguous. */
  lemma CheckedRecordsUnambiguous(sha: Digest, p: Key32, q: Key32, x: Signable, y: Signable)
    requires HasAccount(x) && x.accountId == AccountIdFor(sha, p)
    requires HasAccount(y) && y.accountId == AccountIdFor(sha, q)
    requires Encode(x) == Encode(y)
    ensures x == y
  {
    EncodeInjective(x, y);
  }

  /** Without the check a NUL inside an id can be read two ways. */
  lemma UncheckedIdsCollide(counter: u64)
    ensures Encode(Revocation([1, 0, 2], [3], counter)) == Encode(Revocation([1], [2, 0, 3], counter))
  {
    var c := DEVICE_REVOCATION_CONTEXT;
    assert c + [1, 0, 2] + [0] + [3] + [0] == c + [1] + [0] + [2, 0, 3] + [0];
  }

  // ---- Nonce and associated data ----

  function NonceFor(number: u64): seq<byte> {
    [0, 0, 0, 0] + BigEndian(number, 8)
  }

  function RatchetAad(number: u64, ratchetKey: Key32): seq<byte> {
    LOCAL_AAD + BigEndian(number, 8) + ratchetKey
  }

  /** The nonce determines the message number, and the associated data determines the whole header. */
  lemma HeaderBytesInjective(m: u64, k: Key32, n: u64, l: Key32)
    ensures NonceFor(m) == NonceFor(n) <==> m == n
    ensures RatchetAad(m, k) == RatchetAad(n, l) <==> m == n && k == l
  {
    if NonceFor(m) == NonceFor(n) {
      SameSplit([0, 0, 0, 0], BigEndian(m, 8), [0, 0, 0, 0], BigEndian(n, 8));
      U64Injective(m, n);
    }
    if RatchetAad(m, k) == RatchetAad(n, l) {
      SameSplit(LOCAL_AAD + BigEndian(m, 8), k, LOCAL_AAD + BigEndian(n, 8), l);
      SameSplit(LOCAL_AAD, BigEndian(m, 8), LOCAL_AAD, BigEndian(n, 8));
      U64Injective(m, n);
    }
  }
}
