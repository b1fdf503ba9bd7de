/** The ratchet session: its operations as functions on session values, and its standing invariant. */
module Ratchet {
  import opened Bytes
  import opened Wrappers
  import opened SymbolicCrypto
  import opened Sorting

  const MAX_SKIPPED_MESSAGE_KEYS: nat := 8

  datatype CryptoError =
    | DecryptError
    | MissingSessionKey
    | PreKeyUnavailable
    | Replay
    | SignatureVerification
    | TooManySkippedMessages
    | Utf8

  datatype Result<+T> = Ok(value: T) | Err(error: CryptoError)

  datatype Role = Alice | Bob

  function Other(role: Role): Role {
    if role.Alice? then Bob else Alice
  }

  function SendDir(role: Role): Direction {
    if role.Alice? then AliceToBob else BobToAlice
  }

  function RecvDir(role: Role): Direction {
    if role.Alice? then BobToAlice else AliceToBob
  }

  datatype Message = Message(number: nat, ratchetKey: Key32, ciphertext: Ciphertext)

  datatype Session = Session(
    role: Role,
    root: Key,
    sendChain: Key,
    recvChain: Key,
    sendCount: nat,
    recvCount: nat,
    skipped: map<nat, Key>,
    consumed: set<nat>,
    dh: Secret,
    peer: Key32)

  function NewSession(root: Key, role: Role, dh: Secret, peer: Key32): Session {
    Session(role, root, InitialChain(root, SendDir(role)), InitialChain(root, RecvDir(role)),
            0, 0, map[], {}, dh, peer)
  }

  function Encrypt(s: Session, text: string): (Session, Message) {
    var header := Header(s.sendCount, s.dh.public);
    (s.(sendChain := NextChain(s.sendChain), sendCount := s.sendCount + 1),
     Message(s.sendCount, s.dh.public, Sealed(MessageKey(s.sendChain), header, Utf8Text(text))))
  }

  /** One DH ratchet step: a new root, two new chains, and both receive stores dropped. */
  function ApplyDhRatchet(s: Session, dh: SharedSecret): Session {
    s.(root := RatchetRoot(s.root, dh),
       sendChain := RatchetChain(s.root, dh, SendDir(s.role)),
       recvChain := RatchetChain(s.root, dh, RecvDir(s.role)),
       sendCount := 0, recvCount := 0, skipped := map[], consumed := {})
  }

  function Rotate(s: Session, generated: Secret): Session {
    ApplyDhRatchet(s.(dh := generated), Dh(generated, s.peer))
  }

  function ReceiveDhRatchet(s: Session, peer: Key32): Session {
    ApplyDhRatchet(s.(peer := peer), Dh(s.dh, peer))
  }

  /** The session that looks at a message: ratcheted first when the header carries a new key. */
  function Turned(s: Session, ratchetKey: Key32): Session {
    if ratchetKey != s.peer then ReceiveDhRatchet(s, ratchetKey) else s
  }

  function AdvanceRecv(s: Session): Session {
    s.(recvChain := NextChain(s.recvChain), recvCount := s.recvCount + 1)
  }

  function SkipOne(s: Session): Session {
    AdvanceRecv(s).(skipped := s.skipped[s.recvCount := MessageKey(s.recvChain)])
  }

  /** The skip loop: stores keys until it reaches `number` (true) or the store is full (false). */
  function SkipTo(s: Session, number: nat): (Session, bool)
    decreases number - s.recvCount
  {
    if s.recvCount >= number then (s, true)
    else if |s.skipped| >= MAX_SKIPPED_MESSAGE_KEYS then (s, false)
    else SkipTo(SkipOne(s), number)
  }

  /** The number has a key: it is held, or the store has room for the gap to it. */
  predicate Fits(s: Session, number: nat) {
    || number in s.skipped
    || (number >= s.recvCount && |s.skipped| + (number - s.recvCount) <= MAX_SKIPPED_MESSAGE_KEYS)
  }

  /** Finds the key for a message number, spending it. */
  function TakeKey(s: Session, number: nat): (Session, Result<Key>) {
    if number in s.consumed then (s, Err(Replay))
    else if number in s.skipped then (s.(skipped := s.skipped - {number}), Ok(s.skipped[number]))
    else if number < s.recvCount then (s, Err(Replay))
    else
      var (at, reached) := SkipTo(s, number);
      if reached then (AdvanceRecv(at), Ok(MessageKey(at.recvChain)))
      else (at, Err(TooManySkippedMessages))
  }

  function Decrypt(s: Session, m: Message): (Session, Result<string>) {
    var (at, key) := TakeKey(Turned(s, m.ratchetKey), m.number);
    if key.Err? then (at, Err(key.error))
    else
      match Open(key.value, Header(m.number, m.ratchetKey), m.ciphertext)
      case None => (at, Err(DecryptError))
      case Some(body) =>
        var after := at.(consumed := at.consumed + {m.number});
        if body.Utf8Text? then (after, Ok(body.text)) else (after, Err(Utf8))
  }

  /** The message was authenticated and its plaintext came out. */
  predicate Opens(s: Session, m: Message) {
    var r := Decrypt(s, m).1;
    r.Ok? || r.error == Utf8
  }

  // ---- The standing invariant ----

  /** Both chains stand where the counters say, and the receive stores describe the past exactly. */
  ghost predicate Sound(s: Session) {
    && s.sendChain == ChainAt(s.root, SendDir(s.role), s.sendCount)
    && s.recvChain == ChainAt(s.root, RecvDir(s.role), s.recvCount)
    && |s.skipped| <= MAX_SKIPPED_MESSAGE_KEYS
    && (forall n :: n in s.skipped ==> n < s.recvCount && s.skipped[n] == KeyAt(s.root, RecvDir(s.role), n))
    && (forall n :: n in s.consumed ==> n < s.recvCount && n !in s.skipped)
  }

  lemma NewSessionSound(root: Key, role: Role, dh: Secret, peer: Key32)
    requires Genesis(root)
    ensures Sound(NewSession(root, role, dh, peer))
  {
  }

  lemma RatchetSound(s: Session, dh: SharedSecret)
    ensures Sound(ApplyDhRatchet(s, dh))
    ensures Depth(ApplyDhRatchet(s, dh).root) == Depth(s.root) + 1
  {
  }

  lemma SkipOneCount(s: Session)
    requires s.recvCount !in s.skipped
    ensures |SkipOne(s).skipped| == |s.skipped| + 1
  {
    assert SkipOne(s).skipped.Keys == s.skipped.Keys + {s.recvCount};
  }

  lemma SkipOneSound(s: Session)
    requires Sound(s) && |s.skipped| < MAX_SKIPPED_MESSAGE_KEYS
    ensures Sound(SkipOne(s))
    ensures |SkipOne(s).skipped| == |s.skipped| + 1
  {
    SkipOneCount(s);
    assert SkipOne(s).recvChain == ChainAt(s.root, RecvDir(s.role), s.recvCount + 1);
  }

  lemma {:induction false} SkipToSound(s: Session, number: nat)
    requires Sound(s) && s.recvCount <= number
    ensures Sound(SkipTo(s, number).0)
    decreases number - s.recvCount
  {
    if s.recvCount < number && |s.skipped| < MAX_SKIPPED_MESSAGE_KEYS {
      SkipOneSound(s);
      SkipToSound(SkipOne(s), number);
    }
  }

  /** What the skip loop does: it succeeds exactly when the store has room for the gap. */
  lemma {:induction false} SkipToLaw(s: Session, number: nat)
    requires Sound(s) && s.recvCount <= number
    ensures var (at, reached) := SkipTo(s, number);
      && (reached <==> |s.skipped| + (number - s.recvCount) <= MAX_SKIPPED_MESSAGE_KEYS)
      && at.recvCount == (if reached then number else s.recvCount + (MAX_SKIPPED_MESSAGE_KEYS - |s.skipped|))
      && (forall n :: n in at.skipped <==> n in s.skipped || s.recvCount <= n < at.recvCount)
      && at == s.(recvCount := at.recvCount, recvChain := at.recvChain, skipped := at.skipped)
      && |at.skipped| == |s.skipped| + (at.recvCount - s.recvCount)
    decreases number - s.recvCount
  {
    if s.recvCount < number && |s.skipped| < MAX_SKIPPED_MESSAGE_KEYS {
      SkipOneSound(s);
      SkipToLaw(SkipOne(s), number);
    }
  }

  lemma TakeHeldSound(s: Session, number: nat)
    requires Sound(s) && number in s.skipped
    ensures Sound(s.(skipped := s.skipped - {number}))
  {
    assert (s.skipped - {number}).Keys == s.skipped.Keys - {number};
    assert |s.skipped.Keys - {number}| <= |s.skipped.Keys|;
  }

  lemma AdvanceSound(s: Session)
    requires Sound(s)
    ensures Sound(AdvanceRecv(s)) && MessageKey(s.recvChain) == KeyAt(s.root, RecvDir(s.role), s.recvCount)
  {
  }

  lemma TakeAheadSound(s: Session, number: nat)
    requires Sound(s) && number >= s.recvCount
    ensures var (at, reached) := SkipTo(s, number);
      && Sound(at) && Sound(AdvanceRecv(at))
      && (reached ==> MessageKey(at.recvChain) == KeyAt(s.root, RecvDir(s.role), number))
  {
    SkipToSound(s, number);
    SkipToLaw(s, number);
    AdvanceSound(SkipTo(s, number).0);
  }

  lemma TakeKeySound(s: Session, number: nat)
    requires Sound(s)
    ensures Sound(TakeKey(s, number).0)
    ensures TakeKey(s, number).1.Ok? ==> TakeKey(s, number).1.value == KeyAt(s.root, RecvDir(s.role), number)
  {
    if number in s.skipped {
      TakeHeldSound(s, number);
    } else if number >= s.recvCount {
      TakeAheadSound(s, number);
    }
  }

  /**
   * The outcome of a key lookup decides exactly what is left: `Replay` changes nothing, success
   * removes one number from the held ones, and a full store keeps every key it had and gained.
   */
  lemma TakeKeyLaw(s: Session, number: nat)
    requires Sound(s)
    ensures var (at, key) := TakeKey(s, number);
      && at == s.(recvCount := at.recvCount, recvChain := at.recvChain, skipped := at.skipped)
      && s.recvCount <= at.recvCount
      && (forall n :: n in at.skipped <==>
          (n in s.skipped || s.recvCount <= n < at.recvCount) && !(key.Ok? && n == number))
      && (key.Ok? <==> Fits(s, number))
      && (key.Ok? ==> number !in s.consumed && at.recvCount == if number in s.skipped then s.recvCount else number + 1)
      && (key.Err? && number < s.recvCount ==> key.error == Replay && at == s)
      && (key.Err? && number >= s.recvCount ==>
          && key.error == TooManySkippedMessages
          && |at.skipped| == MAX_SKIPPED_MESSAGE_KEYS
          && at.recvCount == s.recvCount + (MAX_SKIPPED_MESSAGE_KEYS - |s.skipped|))
  {
    if number >= s.recvCount {
      SkipToLaw(s, number);
    }
  }

  // ---- Export and restore ----

  /** The serialised session: the two receive stores become ascending lists. */
  datatype SessionState = SessionState(
    role: Role,
    root: Key,
    sendChain: Key,
    recvChain: Key,
    sendCount: nat,
    recvCount: nat,
    skipped: seq<(nat, Key)>,
    consumed: seq<nat>,
    dhPrivate: Secret,
    peer: Key32)

  function Entries(m: map<nat, Key>, keys: seq<nat>): seq<(nat, Key)>
    requires forall k :: k in keys ==> k in m
  {
    seq(|keys|, i requires 0 <= i < |keys| => (keys[i], m[keys[i]]))
  }

  /** Collects pairs into a map, a later pair replacing an earlier one. */
  function Collect(pairs: seq<(nat, Key)>): map<nat, Key> {
    if pairs == [] then map[]
    else
      var last := pairs[|pairs| - 1];
      Collect(pairs[..|pairs| - 1])[last.0 := last.1]
  }

  function Export(s: Session): SessionState {
    SessionState(s.role, s.root, s.sendChain, s.recvChain, s.sendCount, s.recvCount,
                 Entries(s.skipped, Sorted(s.skipped.Keys, NatLe)), Sorted(s.consumed, NatLe), s.dh, s.peer)
  }

  function Import(st: SessionState): Session {
    Session(st.role, st.root, st.sendChain, st.recvChain, st.sendCount, st.recvCount,
            Collect(st.skipped), (set n | n in st.consumed), st.dhPrivate, st.peer)
  }

  /** The exported lists are ascending: the held numbers each with its key, and the consumed numbers. */
  lemma ExportOrdered(s: Session, i: nat, j: nat)
    ensures i < j < |Export(s).skipped| ==>
      Export(s).skipped[i].0 < Export(s).skipped[j].0 && Export(s).skipped[i].0 in s.skipped
      && Export(s).skipped[i].1 == s.skipped[Export(s).skipped[i].0]
    ensures i < j < |Export(s).consumed| ==> Export(s).consumed[i] < Export(s).consumed[j]
  {
    var keys := Sorted(s.skipped.Keys, NatLe);
    assert Ascending(keys, NatLe) && Ascending(Sorted(s.consumed, NatLe), NatLe);
    assert forall k :: k in keys ==> k in s.skipped;
  }

  lemma {:induction false} CollectEntries(m: map<nat, Key>, keys: seq<nat>)
    requires forall k :: k in keys ==> k in m
    ensures var back := Collect(Entries(m, keys));
      && (forall k :: k in back <==> k in keys)
      && (forall k :: k in keys ==> back[k] == m[k])
  {
    if keys != [] {
      var front, last := keys[..|keys| - 1], keys[|keys| - 1];
      assert Entries(m, keys)[..|keys| - 1] == Entries(m, front);
      assert keys == front + [last];
      CollectEntries(m, front);
    }
  }

  lemma SkippedRoundTrip(m: map<nat, Key>)
    ensures var keys := Sorted(m.Keys, NatLe); Collect(Entries(m, keys)) == m
  {
    var keys := Sorted(m.Keys, NatLe);
    assert forall k :: k in keys <==> k in m.Keys;
    CollectEntries(m, keys);
    var back := Collect(Entries(m, keys));
    assert forall k :: k in back.Keys <==> k in m.Keys;
    SameMap(back, m);
  }

  lemma ConsumedRoundTrip(consumed: set<nat>)
    ensures (set n | n in Sorted(consumed, NatLe)) == consumed
  {
    assert Lists(Sorted(consumed, NatLe), consumed);
  }

  /** Restoring an exported session gives back the session. */
  lemma ImportExport(s: Session)
    ensures Import(Export(s)) == s
  {
    SkippedRoundTrip(s.skipped);
    ConsumedRoundTrip(s.consumed);
  }

  // ---- Decrypting ----

  lemma TurnedSound(s: Session, ratchetKey: Key32)
    requires Sound(s)
    ensures Sound(Turned(s, ratchetKey))
  {
  }

  /** A new header key always leads to a new root. */
  lemma TurnedRoot(s: Session, ratchetKey: Key32)
    ensures Turned(s, ratchetKey).root == s.root <==> ratchetKey == s.peer
  {
    assert ratchetKey != s.peer ==> Depth(Turned(s, ratchetKey).root) == Depth(s.root) + 1;
  }

  /** Looking at the header first changes nothing about what follows. */
  lemma DecryptAfterTurn(s: Session, m: Message)
    ensures Decrypt(Turned(s, m.ratchetKey), m) == Decrypt(s, m)
    ensures Turned(s, m.ratchetKey).peer == m.ratchetKey && Turned(s, m.ratchetKey).role == s.role
  {
    assert Turned(Turned(s, m.ratchetKey), m.ratchetKey) == Turned(s, m.ratchetKey);
  }

  /** `Decrypt` case by case, in terms of the key lookup on the turned session. */
  lemma DecryptShape(s: Session, m: Message)
    requires var (at, key) := TakeKey(Turned(s, m.ratchetKey), m.number);
      && at.consumed == Turned(s, m.ratchetKey).consumed
      && (key.Err? ==> key.error == Replay || key.error == TooManySkippedMessages)
    ensures var (at, key) := TakeKey(Turned(s, m.ratchetKey), m.number);
      var (after, r) := Decrypt(s, m);
      && after == at.(consumed := if Opens(s, m) then at.consumed + {m.number} else at.consumed)
      && (Opens(s, m) <==> key.Ok? && Open(key.value, Header(m.number, m.ratchetKey), m.ciphertext).Some?)
      && (r.Ok? ==> m.ciphertext.Sealed? && m.ciphertext.body == Utf8Text(r.value))
      && (r == Err(DecryptError) <==> key.Ok? && !Opens(s, m))
      && (key.Err? ==> r == Err(key.error))
  {
  }

  /**
   * A message opens exactly when its number still has a key and it was sealed under that key with
   * that header; whatever happens, only the receive side moves, and only an opened number is
   * recorded as consumed.
   */
  lemma DecryptLaw(s: Session, m: Message)
    requires Sound(s)
    ensures var t := Turned(s, m.ratchetKey);
      var (at, key) := TakeKey(t, m.number);
      var (after, r) := Decrypt(s, m);
      && after == at.(consumed := if Opens(s, m) then t.consumed + {m.number} else t.consumed)
      && (Opens(s, m) <==>
          && key.Ok?
          && m.ciphertext.Sealed?
          && m.ciphertext.key == KeyAt(t.root, RecvDir(s.role), m.number)
          && m.ciphertext.header == Header(m.number, m.ratchetKey))
      && (r.Ok? ==> Opens(s, m) && m.ciphertext.body == Utf8Text(r.value))
      && (r == Err(DecryptError) <==> key.Ok? && !Opens(s, m))
      && (key.Err? ==> r == Err(key.error))
  {
    TurnedSound(s, m.ratchetKey);
    TakeKeySound(Turned(s, m.ratchetKey), m.number);
    TakeKeyLaw(Turned(s, m.ratchetKey), m.number);
    DecryptShape(s, m);
  }

  lemma ConsumeSound(s: Session, number: nat)
    requires Sound(s) && number < s.recvCount && number !in s.skipped
    ensures Sound(s.(consumed := s.consumed + {number}))
  {
  }

  lemma DecryptSound(s: Session, m: Message)
    requires Sound(s)
    ensures Sound(Decrypt(s, m).0)
  {
    var t := Turned(s, m.ratchetKey);
    TurnedSound(s, m.ratchetKey);
    TakeKeySound(t, m.number);
    TakeKeyLaw(t, m.number);
    DecryptLaw(s, m);
    if Opens(s, m) {
      ConsumeSound(TakeKey(t, m.number).0, m.number);
    }
  }
}
