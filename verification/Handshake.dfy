/** The prekey handshake: it yields paired sessions, and a one-time prekey backs at most one of them. */
module Handshake {
  import opened Bytes
  import opened Wrappers
  import opened SymbolicCrypto
  import opened Ratchet
  import opened SignedEncodings
  import opened PairedRuns

  datatype SignedKeyExchange = SignedKeyExchange(identity: Key32, x25519: Key32, signature: Signature)

  datatype PreKeyBundle = PreKeyBundle(
    identity: Key32,
    signedPrekey: Key32,
    signature: Signature,
    oneTimeId: nat,
    oneTimePrekey: Key32)

  datatype InitialMessage = InitialMessage(initialKey: Key32, oneTimeId: nat, message: Message)

  datatype OneTimePreKey = OneTimePreKey(id: nat, keys: Secret)

  datatype BobState = BobState(
    identity: Key32,
    keys: Secret,
    signedPrekey: Secret,
    oneTime: Option<OneTimePreKey>,
    session: Option<Session>)

  datatype AliceState = AliceState(identity: Key32, keys: Secret, session: Option<Session>)

  function SignExchange(identity: Key32, keys: Secret): SignedKeyExchange {
    SignedKeyExchange(identity, keys.public, Signed(identity, Encode(KeyExchange(identity, keys.public))))
  }

  predicate ExchangeVerifies(x: SignedKeyExchange) {
    Verifies(x.identity, Encode(KeyExchange(x.identity, x.x25519)), x.signature)
  }

  predicate BundleVerifies(b: PreKeyBundle) {
    Verifies(b.identity, Encode(Prekey(b.identity, b.signedPrekey)), b.signature)
  }

  /** The session that one party derives from a signed key exchange. */
  function ExchangeSession(keys: Secret, role: Role, x: SignedKeyExchange): Result<Session> {
    if ExchangeVerifies(x)
    then Ok(NewSession(AeadRoot(Dh(keys, x.x25519)), role, keys, x.x25519))
    else Err(SignatureVerification)
  }

  /** The root both parties derive from the two Diffie-Hellman outputs of the handshake. */
  function HandshakeRoot(first: SharedSecret, second: SharedSecret): Key {
    PrekeyRoot(first, second)
  }

  function BundleOf(b: BobState): Result<PreKeyBundle> {
    if b.oneTime.None? then Err(PreKeyUnavailable)
    else
      Ok(PreKeyBundle(b.identity, b.signedPrekey.public,
                      Signed(b.identity, Encode(Prekey(b.identity, b.signedPrekey.public))),
                      b.oneTime.value.id, b.oneTime.value.keys.public))
  }

  function Replenished(b: BobState, id: nat, generated: Secret): BobState {
    if b.oneTime.None? then b.(oneTime := Some(OneTimePreKey(id, generated))) else b
  }

  function StartAlice(a: AliceState, bundle: PreKeyBundle, generated: Secret, text: string)
    : (AliceState, Result<InitialMessage>)
  {
    if !BundleVerifies(bundle) then (a, Err(SignatureVerification))
    else
      var root := HandshakeRoot(Dh(generated, bundle.signedPrekey), Dh(generated, bundle.oneTimePrekey));
      var (s, m) := Encrypt(NewSession(root, Alice, generated, bundle.signedPrekey), text);
      (a.(session := Some(s)), Ok(InitialMessage(m.ratchetKey, bundle.oneTimeId, m)))
  }

  /** The session Bob opens for an initial message, before decrypting anything. */
  function BobSession(b: BobState, oneTime: Secret, initialKey: Key32): Session {
    NewSession(HandshakeRoot(Dh(b.signedPrekey, initialKey), Dh(oneTime, initialKey)), Bob, b.signedPrekey, initialKey)
  }

  function AcceptInitial(b: BobState, im: InitialMessage): (BobState, Result<string>) {
    if b.oneTime.None? || b.oneTime.value.id != im.oneTimeId then (b, Err(PreKeyUnavailable))
    else
      var (s, r) := Decrypt(BobSession(b, b.oneTime.value.keys, im.initialKey), im.message);
      (b.(oneTime := None, session := Some(s)), r)
  }

  class Bob {
    const identity: Key32
    const keys: Secret
    const signedPrekey: Secret
    var oneTime: Option<OneTimePreKey>
    var session: Option<Session>

    function View(): BobState
      reads this
    {
      BobState(identity, keys, signedPrekey, oneTime, session)
    }

    constructor Local(identity: Key32, keys: Secret, signedPrekey: Secret, generated: Secret)
      ensures View() == BobState(identity, keys, signedPrekey, Some(OneTimePreKey(1, generated)), None)
    {
      this.identity, this.keys, this.signedPrekey := identity, keys, signedPrekey;
      oneTime, session := Some(OneTimePreKey(1, generated)), None;
    }

    method ReplenishOneTimePrekey(id: nat, generated: Secret)
      modifies this
      ensures View() == Replenished(old(View()), id, generated)
    {
      if oneTime.None? {
        oneTime := Some(OneTimePreKey(id, generated));
      }
    }

    method DecryptInitialMessage(im: InitialMessage) returns (r: Result<string>)
      modifies this
      ensures (View(), r) == AcceptInitial(old(View()), im)
    {
      if oneTime.None? {
        return Err(PreKeyUnavailable);
      }
      var taken := oneTime.value;
      oneTime := None;
      if taken.id != im.oneTimeId {
        oneTime := Some(taken);
        return Err(PreKeyUnavailable);
      }
      var root := HandshakeRoot(Dh(signedPrekey, im.initialKey), Dh(taken.keys, im.initialKey));
      var (s, result) := Decrypt(NewSession(root, Role.Bob, signedPrekey, im.initialKey), im.message);
      session := Some(s);
      r := result;
    }
  }

  class Alice {
    var session: Option<Session>
    const identity: Key32
    const keys: Secret

    function View(): AliceState
      reads this
    {
      AliceState(identity, keys, session)
    }

    constructor Local(identity: Key32, keys: Secret)
      ensures View() == AliceState(identity, keys, None)
    {
      this.identity, this.keys, session := identity, keys, None;
    }

    method EncryptInitialMessage(bundle: PreKeyBundle, generated: Secret, text: string)
      returns (r: Result<InitialMessage>)
      modifies this
      ensures (View(), r) == StartAlice(old(View()), bundle, generated, text)
    {
      if !BundleVerifies(bundle) {
        return Err(SignatureVerification);
      }
      var root := HandshakeRoot(Dh(generated, bundle.signedPrekey), Dh(generated, bundle.oneTimePrekey));
      var (s, m) := Encrypt(NewSession(root, Role.Alice, generated, bundle.signedPrekey), text);
      session := Some(s);
      r := Ok(InitialMessage(m.ratchetKey, bundle.oneTimeId, m));
    }
  }

  // ---- What is refused ----

  /** Alice starts a session exactly on a bundle whose prekey its identity signed; otherwise nothing changes. */
  lemma BundleAcceptedIff(a: AliceState, bundle: PreKeyBundle, generated: Secret, text: string)
    ensures var (a', r) := StartAlice(a, bundle, generated, text);
      && (r.Ok? <==>
          bundle.signature == Signed(bundle.identity, Encode(Prekey(bundle.identity, bundle.signedPrekey))))
      && (r.Err? ==> r.error == SignatureVerification && a' == a)
      && (r.Ok? ==>
          && a'.session.Some? && a'.identity == a.identity && a'.keys == a.keys
          && a'.session.value.root ==
             PrekeyRoot(Dh(generated, bundle.signedPrekey), Dh(generated, bundle.oneTimePrekey))
          && r.value.initialKey == generated.public && r.value.oneTimeId == bundle.oneTimeId)
  {
  }

  /** A session starts exactly from a key exchange that its identity signed. */
  lemma ExchangeAcceptedIff(keys: Secret, role: Role, x: SignedKeyExchange)
    ensures var r := ExchangeSession(keys, role, x);
      && (r.Ok? <==> x.signature == Signed(x.identity, Encode(KeyExchange(x.identity, x.x25519))))
      && (r.Err? ==> r.error == SignatureVerification)
      && (r.Ok? ==> r.value.root == AeadRoot(Dh(keys, x.x25519)) && r.value.role == role && r.value.peer == x.x25519)
  {
  }

  /** A published bundle with another prekey or identity put in is refused. */
  lemma TamperedBundleRefused(a: AliceState, b: BobState, identity: Key32, prekey: Key32,
                              generated: Secret, text: string)
    requires b.oneTime.Some? && (identity != b.identity || prekey != b.signedPrekey.public)
    ensures var bundle := BundleOf(b).value.(identity := identity, signedPrekey := prekey);
      StartAlice(a, bundle, generated, text) == (a, Err(SignatureVerification))
  {
    var bundle := BundleOf(b).value.(identity := identity, signedPrekey := prekey);
    BundleAcceptedIff(a, bundle, generated, text);
    if StartAlice(a, bundle, generated, text).1.Ok? {
      EncodeInjective(Prekey(b.identity, b.signedPrekey.public), Prekey(identity, prekey));
    }
  }

  /** A signed exchange with another key or identity put in is refused. */
  lemma TamperedExchangeRefused(keys: Secret, role: Role, identity: Key32, own: Secret, other: Key32, key: Key32)
    requires other != identity || key != own.public
    ensures var x := SignExchange(identity, own).(identity := other, x25519 := key);
      ExchangeSession(keys, role, x) == Err(SignatureVerification)
  {
    var x := SignExchange(identity, own).(identity := other, x25519 := key);
    ExchangeAcceptedIff(keys, role, x);
    if ExchangeSession(keys, role, x).Ok? {
      EncodeInjective(KeyExchange(identity, own.public), KeyExchange(other, key));
    }
  }

  /**
   * An initial message is turned away exactly when Bob holds no one-time prekey with its id, and then
   * nothing changes; otherwise the prekey is spent and a session exists, whatever becomes of the text.
   */
  lemma InitialTakenIff(b: BobState, im: InitialMessage)
    ensures var (b', r) := AcceptInitial(b, im);
      && (b' == b && r == Err(PreKeyUnavailable) <==> !(b.oneTime.Some? && b.oneTime.value.id == im.oneTimeId))
      && (b.oneTime.Some? && b.oneTime.value.id == im.oneTimeId ==>
          && b'.oneTime.None? && b'.session.Some?
          && b'.identity == b.identity && b'.keys == b.keys && b'.signedPrekey == b.signedPrekey)
  {
  }

  /** A new prekey is taken up exactly when none is left, and nothing else changes. */
  lemma ReplenishedIff(b: BobState, id: nat, generated: Secret)
    ensures var b' := Replenished(b, id, generated);
      && (b.oneTime.None? ==> b'.oneTime == Some(OneTimePreKey(id, generated)))
      && (b.oneTime.Some? ==> b'.oneTime == b.oneTime)
      && b' == b.(oneTime := b'.oneTime)
  {
  }

  /** A signed key exchange in both directions gives two sessions that satisfy the pair invariant. */
  lemma ExchangePairs(ia: Key32, a: Secret, ib: Key32, b: Secret)
    ensures var sa := ExchangeSession(a, Role.Alice, SignExchange(ib, b));
      var sb := ExchangeSession(b, Role.Bob, SignExchange(ia, a));
      sa.Ok? && sb.Ok? && Inv(System(End(sa.value, [], {}), End(sb.value, [], {})))
  {
    DhCommutes(a, b);
    NewPairInv(AeadRoot(Dh(a, b.public)), a, b);
  }

  /** A published bundle verifies, and both sides compute the same root from it. */
  lemma SameRoot(b: BobState, oneTime: Secret, generated: Secret)
    ensures BobSession(b, oneTime, generated.public).root
         == HandshakeRoot(Dh(generated, b.signedPrekey.public), Dh(generated, oneTime.public))
  {
    DhCommutes(generated, b.signedPrekey);
    DhCommutes(generated, oneTime);
  }

  /** The first message between two new sessions on one root is read as sent. */
  lemma FirstMessageRead(root: Key, a: Secret, b: Secret, text: string)
    requires Genesis(root)
    ensures var m := Encrypt(NewSession(root, Role.Alice, a, b.public), text).1;
      Decrypt(NewSession(root, Role.Bob, b, a.public), m).1 == Ok(text)
  {
    var s := NewSession(root, Role.Bob, b, a.public);
    NewSessionSound(root, Role.Bob, b, a.public);
    DecryptLaw(s, Encrypt(NewSession(root, Role.Alice, a, b.public), text).1);
    TakeKeyLaw(s, 0);
  }

  function NewPair(root: Key, a: Secret, b: Secret): System {
    System(End(NewSession(root, Role.Alice, a, b.public), [], {}), End(NewSession(root, Role.Bob, b, a.public), [], {}))
  }

  /** Both ends of a new pair after the first message. */
  function AfterFirst(root: Key, a: Secret, b: Secret, text: string): System {
    var (sa, m) := Encrypt(NewSession(root, Role.Alice, a, b.public), text);
    var sb := Decrypt(NewSession(root, Role.Bob, b, a.public), m).0;
    System(End(sa, [Sent(m, text, root)], {}), End(sb, [], {0}))
  }

  lemma AfterFirstIsARun(root: Key, a: Secret, b: Secret, text: string)
    requires Genesis(root)
    ensures var sys := NewPair(root, a, b);
      && Allowed(sys, Send(Role.Alice, text))
      && Allowed(Apply(sys, Send(Role.Alice, text)), Deliver(Role.Bob, 0))
      && Apply(Apply(sys, Send(Role.Alice, text)), Deliver(Role.Bob, 0)) == AfterFirst(root, a, b, text)
  {
    FirstMessageRead(root, a, b, text);
  }

  lemma AfterFirstInv(root: Key, a: Secret, b: Secret, text: string)
    requires Genesis(root)
    ensures Inv(AfterFirst(root, a, b, text))
  {
    NewPairInv(root, a, b);
    AfterFirstIsARun(root, a, b, text);
    ApplyKeepsTwice(NewPair(root, a, b), Send(Role.Alice, text), Deliver(Role.Bob, 0));
  }

  /**
   * The prekey handshake: Bob reads exactly the text Alice sent to his bundle, the one-time prekey
   * is gone, and the two sessions are in the state that whole-run agreement starts from.
   */
  lemma HandshakeAgrees(a: AliceState, b: BobState, generated: Secret, text: string)
    requires b.oneTime.Some?
    ensures var (a', im) := StartAlice(a, BundleOf(b).value, generated, text);
      && im.Ok? && a'.session.Some?
      && var (b', r) := AcceptInitial(b, im.value);
      && r == Ok(text)
      && b'.oneTime.None? && b'.session.Some?
      && Inv(System(End(a'.session.value, [Sent(im.value.message, text, a'.session.value.root)], {}),
                    End(b'.session.value, [], {0})))
  {
    var oneTime := b.oneTime.value.keys;
    SameRoot(b, oneTime, generated);
    var root := HandshakeRoot(Dh(generated, b.signedPrekey.public), Dh(generated, oneTime.public));
    FirstMessageRead(root, generated, b.signedPrekey, text);
    AfterFirstInv(root, generated, b.signedPrekey, text);
  }

  // ---- One-time prekeys over runs ----

  datatype BobEvent =
    | Initial(im: InitialMessage)
    | Replenish(id: nat, generated: Secret)
    | Chat(m: Message)

  function BobNext(b: BobState, e: BobEvent): BobState {
    match e
    case Initial(im) => AcceptInitial(b, im).0
    case Replenish(id, generated) => Replenished(b, id, generated)
    case Chat(m) => if b.session.None? then b else b.(session := Some(Decrypt(b.session.value, m).0))
  }

  ghost predicate IsBobRun(states: seq<BobState>, events: seq<BobEvent>) {
    && |states| == |events| + 1
    && forall i :: 0 <= i < |events| ==> states[i + 1] == BobNext(states[i], events[i])
  }

  /** The event opens a session with the one-time prekey Bob holds at that moment. */
  predicate Backs(b: BobState, e: BobEvent) {
    e.Initial? && b.oneTime.Some? && b.oneTime.value.id == e.im.oneTimeId
  }

  /** Generated key pairs never repeat, and differ from the one Bob started with. */
  ghost predicate FreshKeys(start: BobState, events: seq<BobEvent>) {
    && (forall i, j :: 0 <= i < j < |events| && events[i].Replenish? && events[j].Replenish? ==>
          events[i].generated != events[j].generated)
    && (forall i :: 0 <= i < |events| && events[i].Replenish? && start.oneTime.Some? ==>
          events[i].generated != start.oneTime.value.keys)
  }

  /** A prekey held at step `j` was there at step `i` or was generated in between. */
  lemma {:induction false} PrekeyOrigin(states: seq<BobState>, events: seq<BobEvent>, i: nat, j: nat) returns (p: int)
    requires IsBobRun(states, events) && i <= j < |states| && states[j].oneTime.Some?
    ensures p < 0 ==> states[i].oneTime == states[j].oneTime
    ensures 0 <= p ==> i <= p < j && events[p].Replenish? && events[p].generated == states[j].oneTime.value.keys
    decreases j
  {
    p := -1;
    if i < j {
      assert states[j] == BobNext(states[j - 1], events[j - 1]);
      if states[j - 1].oneTime.Some? {
        p := PrekeyOrigin(states, events, i, j - 1);
      } else {
        p := j - 1;
      }
    }
  }

  /** Over any run of initial messages and replenishments, a one-time key pair backs at most one session. */
  lemma OneTimeKeyBacksOnce(states: seq<BobState>, events: seq<BobEvent>, i: nat, j: nat)
    requires IsBobRun(states, events) && FreshKeys(states[0], events)
    requires i < j < |events| && Backs(states[i], events[i]) && Backs(states[j], events[j])
    ensures states[i].oneTime.value.keys != states[j].oneTime.value.keys
  {
    assert states[i + 1] == BobNext(states[i], events[i]);
    var p := PrekeyOrigin(states, events, i + 1, j);
    var q := PrekeyOrigin(states, events, 0, i);
  }
}
