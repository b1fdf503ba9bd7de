/**
 * Symbolic cryptography. A key pair is named by its public bytes, a Diffie-Hellman output is the
 * unordered pair of its two public keys (so it commutes), every KDF step is a free constructor
 * labelled by its info string and output slice (so it is injective and domain separated), and a
 * sealed message opens only under the sealing key, nonce and associated data.
 */
module SymbolicCrypto {
  import opened Bytes
  import opened Wrappers

  datatype Secret = Secret(public: Key32)

  datatype SharedSecret = SharedSecret(ends: set<Key32>)

  function Dh(own: Secret, peer: Key32): SharedSecret {
    SharedSecret({own.public, peer})
  }

  /** Section 6.1 of RFC 7748: both ends compute the same output. */
  lemma DhCommutes(a: Secret, b: Secret)
    ensures Dh(a, b.public) == Dh(b, a.public)
  {
    assert {a.public, b.public} == {b.public, a.public};
  }

  /** For one own key, different peer keys give different outputs. */
  lemma DhInjective(a: Secret, x: Key32, y: Key32)
    requires Dh(a, x) == Dh(a, y)
    ensures x == y
  {
    assert x in Dh(a, y).ends && y in Dh(a, x).ends;
  }

  datatype Direction = AliceToBob | BobToAlice

  /** Every 32-byte symmetric value of the protocol, by how it was derived. */
  datatype Key =
    | AeadRoot(shared: SharedSecret)
    | PrekeyRoot(first: SharedSecret, second: SharedSecret)
    | RatchetRoot(prev: Key, dh: SharedSecret)
    | InitialChain(root: Key, dir: Direction)
    | RatchetChain(prev: Key, dh: SharedSecret, dir: Direction)
    | NextChain(chain: Key)
    | MessageKey(chain: Key)

  /** A root key that a session can start from. */
  predicate Genesis(root: Key) {
    root.AeadRoot? || root.PrekeyRoot?
  }

  /** The number of DH ratchet steps behind a root key. */
  function Depth(root: Key): (n: nat) {
    if root.RatchetRoot? then 1 + Depth(root.prev) else 0
  }

  /** The directional chain that starts the epoch of a root key. */
  function ChainBase(root: Key, dir: Direction): Key {
    if root.RatchetRoot? then RatchetChain(root.prev, root.dh, dir) else InitialChain(root, dir)
  }

  function ChainAt(root: Key, dir: Direction, n: nat): Key {
    if n == 0 then ChainBase(root, dir) else NextChain(ChainAt(root, dir, n - 1))
  }

  /** The message key with index `n` in one direction of one epoch. */
  function KeyAt(root: Key, dir: Direction, n: nat): Key {
    MessageKey(ChainAt(root, dir, n))
  }

  lemma {:induction false} ChainAtInjective(r1: Key, d1: Direction, n1: nat, r2: Key, d2: Direction, n2: nat)
    requires ChainAt(r1, d1, n1) == ChainAt(r2, d2, n2)
    ensures r1 == r2 && d1 == d2 && n1 == n2
  {
    if n1 > 0 && n2 > 0 {
      ChainAtInjective(r1, d1, n1 - 1, r2, d2, n2 - 1);
    }
  }

  /** Message keys coincide only for the same epoch, direction and index. */
  lemma KeyAtInjective(r1: Key, d1: Direction, n1: nat, r2: Key, d2: Direction, n2: nat)
    requires KeyAt(r1, d1, n1) == KeyAt(r2, d2, n2)
    ensures r1 == r2 && d1 == d2 && n1 == n2
  {
    ChainAtInjective(r1, d1, n1, r2, d2, n2);
  }

  /** Decrypted bytes: text, or bytes that are not valid UTF-8. */
  datatype Plaintext = Utf8Text(text: string) | NotUtf8(raw: seq<byte>)

  /** The authenticated header: it fixes both the nonce and the associated data. */
  datatype Header = Header(number: nat, ratchetKey: Key32)

  datatype Ciphertext = Sealed(key: Key, header: Header, body: Plaintext) | Noise(raw: seq<byte>)

  /** Section 2.8 of RFC 8439: opens only what was sealed with the same key, nonce and data. */
  function Open(key: Key, header: Header, c: Ciphertext): Option<Plaintext> {
    if c.Sealed? && c.key == key && c.header == header then Some(c.body) else None
  }

  /** A symbolic Ed25519 signature; `Forged` stands for every other byte string. */
  datatype Signature = Signed(signer: Key32, message: seq<byte>) | Forged(raw: seq<byte>)

  predicate Verifies(signer: Key32, message: seq<byte>, s: Signature) {
    s == Signed(signer, message)
  }
}
