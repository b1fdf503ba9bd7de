/** What holds over every run of one session that is fed arbitrary messages. */
module SessionRuns {
  import opened Bytes
  import opened SymbolicCrypto
  import opened Ratchet

  datatype Event =
    | Send(text: string)
    | Receive(m: Message)
    | RotateTo(generated: Secret)
    | Restart

  function Next(s: Session, e: Event): Session {
    match e
    case Send(text) => Encrypt(s, text).0
    case Receive(m) => Decrypt(s, m).0
    case RotateTo(generated) => Rotate(s, generated)
    case Restart => Import(Export(s))
  }

  /** A run: a sound session and the states it passes through, one event at a time. */
  ghost predicate IsRun(states: seq<Session>, events: seq<Event>) {
    && |states| == |events| + 1
    && Sound(states[0])
    && forall i :: 0 <= i < |events| ==> states[i + 1] == Next(states[i], events[i])
  }

  /** A step either keeps the epoch, and then forgets nothing consumed or sent, or deepens the root. */
  ghost predicate Forward(s: Session, t: Session) {
    && s.role == t.role
    && (|| Depth(s.root) < Depth(t.root)
        || (s.root == t.root && s.consumed <= t.consumed && s.sendCount <= t.sendCount))
  }

  lemma ReceiveForward(s: Session, m: Message)
    requires Sound(s)
    ensures Forward(s, Decrypt(s, m).0)
  {
    DecryptLaw(s, m);
    TurnedSound(s, m.ratchetKey);
    TakeKeyLaw(Turned(s, m.ratchetKey), m.number);
  }

  lemma NextLaw(s: Session, e: Event)
    requires Sound(s)
    ensures Sound(Next(s, e)) && Forward(s, Next(s, e))
  {
    match e
    case Send(_) =>
    case Receive(m) =>
      DecryptSound(s, m);
      ReceiveForward(s, m);
    case RotateTo(generated) => RatchetSound(s.(dh := generated), Dh(generated, s.peer));
    case Restart => ImportExport(s);
  }

  lemma ForwardTransitive(s: Session, t: Session, u: Session)
    requires Forward(s, t) && Forward(t, u)
    ensures Forward(s, u)
  {
  }

  lemma {:induction false} RunSound(states: seq<Session>, events: seq<Event>, i: nat)
    requires IsRun(states, events) && i < |states|
    ensures Sound(states[i])
  {
    if i > 0 {
      RunSound(states, events, i - 1);
      NextLaw(states[i - 1], events[i - 1]);
    }
  }

  lemma StepForward(states: seq<Session>, events: seq<Event>, i: nat)
    requires IsRun(states, events) && i < |events|
    ensures Forward(states[i], states[i + 1])
  {
    RunSound(states, events, i);
    NextLaw(states[i], events[i]);
  }

  lemma {:induction false} ChainForward(states: seq<Session>, i: nat, j: nat)
    requires i <= j < |states| && forall k :: i <= k < j ==> Forward(states[k], states[k + 1])
    ensures Forward(states[i], states[j])
    decreases j
  {
    if i < j {
      ChainForward(states, i, j - 1);
      ForwardTransitive(states[i], states[j - 1], states[j]);
    }
  }

  /** Over a whole run the root only deepens, so a root once left never comes back. */
  lemma RunForward(states: seq<Session>, events: seq<Event>, i: nat, j: nat)
    requires IsRun(states, events) && i <= j < |states|
    ensures Forward(states[i], states[j])
  {
    forall k | i <= k < j ensures Forward(states[k], states[k + 1]) {
      StepForward(states, events, k);
    }
    ChainForward(states, i, j);
  }

  // ---- Replay safety ----

  ghost predicate OpensAt(states: seq<Session>, events: seq<Event>, i: nat)
    requires i < |events| && i < |states|
  {
    events[i].Receive? && Opens(states[i], events[i].m)
  }

  /** What an opening leaves behind: the key was this epoch's, its number was new and is now spent. */
  lemma OpeningLaw(s: Session, m: Message)
    requires Sound(s) && Opens(s, m)
    ensures var t := Decrypt(s, m).0;
      && m.ciphertext.Sealed?
      && m.ciphertext.key == KeyAt(t.root, RecvDir(s.role), m.number)
      && m.number in t.consumed
      && (s.root == t.root ==> m.number !in s.consumed)
  {
    DecryptLaw(s, m);
    TurnedSound(s, m.ratchetKey);
    TakeKeyLaw(Turned(s, m.ratchetKey), m.number);
  }

  /** Two openings with one run of steps between them used different keys. */
  lemma OpeningsDiffer(s: Session, m: Message, t: Session, m': Message)
    requires Sound(s) && Opens(s, m) && Sound(t) && Opens(t, m')
    requires Forward(s, Decrypt(s, m).0) && Forward(Decrypt(s, m).0, t) && Forward(t, Decrypt(t, m').0)
    ensures m.ciphertext.Sealed? && m'.ciphertext.Sealed? && m.ciphertext.key != m'.ciphertext.key
  {
    OpeningLaw(s, m);
    OpeningLaw(t, m');
    if m.ciphertext.key == m'.ciphertext.key {
      KeyAtInjective(Decrypt(s, m).0.root, RecvDir(s.role), m.number,
                     Decrypt(t, m').0.root, RecvDir(t.role), m'.number);
    }
  }

  /** No two receive steps of a run ever open under the same message key. */
  lemma NoKeyOpensTwice(states: seq<Session>, events: seq<Event>, i: nat, j: nat)
    requires IsRun(states, events) && i < j < |events|
    requires OpensAt(states, events, i) && OpensAt(states, events, j)
    ensures events[i].m.ciphertext.Sealed? && events[j].m.ciphertext.Sealed?
    ensures events[i].m.ciphertext.key != events[j].m.ciphertext.key
  {
    RunSound(states, events, i);
    RunSound(states, events, j);
    RunForward(states, events, i, i + 1);
    RunForward(states, events, i + 1, j);
    RunForward(states, events, j, j + 1);
    OpeningsDiffer(states[i], events[i].m, states[j], events[j].m);
  }

  /**
   * Replay safety: whatever messages arrive, and however often the session ratchets, restarts or
   * drops its consumed set, no message is opened twice.
   */
  lemma NoMessageOpensTwice(states: seq<Session>, events: seq<Event>, i: nat, j: nat)
    requires IsRun(states, events) && i < j < |events|
    requires OpensAt(states, events, i) && OpensAt(states, events, j)
    ensures events[i].m != events[j].m
  {
    NoKeyOpensTwice(states, events, i, j);
  }

  // ---- Sending ----

  function SentBy(s: Session, e: Event): Message
    requires e.Send?
  {
    Encrypt(s, e.text).1
  }

  lemma SentKey(s: Session, e: Event)
    requires Sound(s) && e.Send?
    ensures SentBy(s, e).ciphertext.key == KeyAt(s.root, SendDir(s.role), s.sendCount)
    ensures Next(s, e).sendCount == s.sendCount + 1 && Next(s, e).root == s.root
  {
  }

  /** Over a whole run, with any rotations and any input, no message key seals twice. */
  lemma NoKeySealsTwice(states: seq<Session>, events: seq<Event>, i: nat, j: nat)
    requires IsRun(states, events) && i < j < |events| && events[i].Send? && events[j].Send?
    ensures SentBy(states[i], events[i]).ciphertext.key != SentBy(states[j], events[j]).ciphertext.key
  {
    var si, sj := states[i], states[j];
    RunSound(states, events, i);
    RunSound(states, events, j);
    SentKey(si, events[i]);
    SentKey(sj, events[j]);
    RunForward(states, events, i, i + 1);
    RunForward(states, events, i + 1, j);
    if SentBy(si, events[i]).ciphertext.key == SentBy(sj, events[j]).ciphertext.key {
      KeyAtInjective(si.root, SendDir(si.role), si.sendCount, sj.root, SendDir(sj.role), sj.sendCount);
    }
  }

  /** Two ends with opposite roles never seal under the same key, whatever either of them does. */
  lemma DirectionsNeverShareAKey(sa: seq<Session>, ea: seq<Event>, i: nat, sb: seq<Session>, eb: seq<Event>, j: nat)
    requires IsRun(sa, ea) && IsRun(sb, eb) && sa[0].role != sb[0].role
    requires i < |ea| && ea[i].Send? && j < |eb| && eb[j].Send?
    ensures SentBy(sa[i], ea[i]).ciphertext.key != SentBy(sb[j], eb[j]).ciphertext.key
  {
    RunSound(sa, ea, i);
    RunSound(sb, eb, j);
    RunForward(sa, ea, 0, i);
    RunForward(sb, eb, 0, j);
    SentKey(sa[i], ea[i]);
    SentKey(sb[j], eb[j]);
    if SentBy(sa[i], ea[i]).ciphertext.key == SentBy(sb[j], eb[j]).ciphertext.key {
      KeyAtInjective(sa[i].root, SendDir(sa[i].role), sa[i].sendCount,
                     sb[j].root, SendDir(sb[j].role), sb[j].sendCount);
    }
  }

  // ---- The receive ledger ----

  /** How one event changes the set of numbers whose key was spent on a failed authentication. */
  function BurnedBy(s: Session, e: Event, burned: set<nat>): set<nat> {
    match e
    case RotateTo(_) => {}
    case Receive(m) =>
      (if m.ratchetKey == s.peer then burned else {})
      + (if Decrypt(s, m).1 == Err(DecryptError) then {m.number} else {})
    case _ => burned
  }

  /** The burned numbers of the current epoch, before each step of a run. */
  ghost predicate IsBurnTrail(states: seq<Session>, events: seq<Event>, burned: seq<set<nat>>) {
    && |burned| == |states| == |events| + 1
    && burned[0] == {}
    && forall i :: 0 <= i < |events| ==> burned[i + 1] == BurnedBy(states[i], events[i], burned[i])
  }

  /** Every number below the receive counter is in exactly one of the three stores. */
  ghost predicate Ledger(s: Session, burned: set<nat>) {
    && (forall n :: n in burned ==> n < s.recvCount && n !in s.skipped && n !in s.consumed)
    && (forall n :: 0 <= n < s.recvCount ==> n in s.skipped || n in s.consumed || n in burned)
  }

  /** What a key lookup does to the ledger: a number whose key was taken is in no store until it is recorded. */
  lemma TakeKeyLedger(s: Session, number: nat, burned: set<nat>)
    requires Sound(s) && Ledger(s, burned)
    ensures var (at, key) := TakeKey(s, number);
      && (forall n :: n in burned ==> n < at.recvCount && n !in at.skipped && n !in at.consumed)
      && (forall n :: 0 <= n < at.recvCount ==>
            n in at.skipped || n in at.consumed || n in burned || (key.Ok? && n == number))
      && (key.Ok? ==> number < at.recvCount && number !in at.skipped && number !in at.consumed && number !in burned)
  {
    TakeKeyLaw(s, number);
  }

  lemma ReceiveLedger(s: Session, m: Message, burned: set<nat>)
    requires Sound(s) && Ledger(s, burned)
    ensures Ledger(Decrypt(s, m).0, BurnedBy(s, Receive(m), burned))
  {
    DecryptLaw(s, m);
    TurnedSound(s, m.ratchetKey);
    TakeKeyLaw(Turned(s, m.ratchetKey), m.number);
    TakeKeyLedger(Turned(s, m.ratchetKey), m.number, if m.ratchetKey == s.peer then burned else {});
  }

  lemma NextLedger(s: Session, e: Event, burned: set<nat>)
    requires Sound(s) && Ledger(s, burned)
    ensures Ledger(Next(s, e), BurnedBy(s, e, burned))
  {
    match e
    case Receive(m) => ReceiveLedger(s, m, burned);
    case Restart => ImportExport(s);
    case _ =>
  }

  lemma {:induction false} RunLedger(states: seq<Session>, events: seq<Event>, burned: seq<set<nat>>, i: nat)
    requires IsRun(states, events) && states[0].recvCount == 0
    requires IsBurnTrail(states, events, burned) && i <= |events|
    ensures Ledger(states[i], burned[i])
  {
    if i > 0 {
      RunLedger(states, events, burned, i - 1);
      RunSound(states, events, i - 1);
      NextLedger(states[i - 1], events[i - 1], burned[i - 1]);
    }
  }

  lemma {:induction false} CountBelow(n: nat, a: set<nat>)
    requires forall k: nat :: k in a <==> k < n
    ensures |a| == n
  {
    if n > 0 {
      CountBelow(n - 1, a - {n - 1});
    } else {
      assert a == {};
    }
  }

  lemma CountThree(n: nat, a: set<nat>, b: set<nat>, c: set<nat>)
    requires a !! b !! c
    requires forall k: nat :: k in a || k in b || k in c <==> k < n
    ensures n == |a| + |b| + |c|
  {
    CountBelow(n, a + b + c);
    assert |a + b + c| == |a + b| + |c|;
  }

  lemma LedgerCount(s: Session, burned: set<nat>)
    requires Sound(s) && Ledger(s, burned)
    ensures s.skipped.Keys !! s.consumed !! burned
    ensures s.recvCount == |s.skipped| + |s.consumed| + |burned|
  {
    var held := s.skipped.Keys;
    assert forall n :: n in held <==> n in s.skipped;
    assert held !! s.consumed && (held + s.consumed) !! burned;
    CountThree(s.recvCount, held, s.consumed, burned);
  }

  /**
   * The receive state after any run: at most eight keys are held, held and spent numbers are apart
   * and below the counter, every held key is its index's chain key, and the counter is exactly the
   * number of held, consumed and burned numbers since the last ratchet.
   */
  lemma ReceiveStateLaw(states: seq<Session>, events: seq<Event>, burned: seq<set<nat>>, i: nat)
    requires IsRun(states, events) && states[0].recvCount == 0
    requires IsBurnTrail(states, events, burned) && i <= |events|
    ensures var t := states[i];
      && |t.skipped| <= 8
      && t.skipped.Keys !! t.consumed !! burned[i]
      && (forall n :: n in t.skipped ==> n < t.recvCount && t.skipped[n] == KeyAt(t.root, RecvDir(t.role), n))
      && (forall n :: n in t.consumed ==> n < t.recvCount)
      && t.recvCount == |t.skipped| + |t.consumed| + |burned[i]|
  {
    RunSound(states, events, i);
    RunLedger(states, events, burned, i);
    LedgerCount(states[i], burned[i]);
  }

  /** Every key that `s` holds is still held by `t`. */
  ghost predicate KeepsHeld(s: Session, t: Session) {
    forall n :: n in s.skipped ==> n in t.skipped && t.skipped[n] == s.skipped[n]
  }

  /** A sound session holds no key of another root. */
  lemma HeldOfRoot(s: Session, t: Session, n: nat)
    requires Sound(s) && Sound(t) && s.role == t.role && n in s.skipped && n in t.skipped
    ensures s.skipped[n] == t.skipped[n] ==> s.root == t.root
  {
    if s.skipped[n] == t.skipped[n] {
      KeyAtInjective(s.root, RecvDir(s.role), n, t.root, RecvDir(t.role), n);
    }
  }

  lemma HeldNumbersSuffice(s: Session, t: Session)
    requires Sound(s) && Sound(t) && s.role == t.role && s.root == t.root
    requires forall n :: n in s.skipped ==> n in t.skipped
    ensures KeepsHeld(s, t)
  {
  }

  lemma RejectionInEpoch(u: Session, m: Message)
    requires Sound(u) && m.ratchetKey == u.peer && Decrypt(u, m).1 == Err(TooManySkippedMessages)
    ensures var t := Decrypt(u, m).0;
      && t.role == u.role && t.root == u.root && t.consumed == u.consumed
      && |t.skipped| == MAX_SKIPPED_MESSAGE_KEYS
      && (forall n :: n in u.skipped || u.recvCount <= n < t.recvCount ==> n in t.skipped)
  {
    DecryptLaw(u, m);
    TakeKeyLaw(u, m.number);
  }

  /** A refusal for want of room fills the store of the session that looked at the message, and spends nothing of it. */
  lemma RejectionFillsStore(s: Session, m: Message)
    requires Sound(s) && Decrypt(s, m).1 == Err(TooManySkippedMessages)
    ensures var u, t := Turned(s, m.ratchetKey), Decrypt(s, m).0;
      && Sound(t) && t.role == s.role && t.root == u.root
      && (m.ratchetKey != s.peer ==> t.root != s.root)
      && |t.skipped| == MAX_SKIPPED_MESSAGE_KEYS
      && t.consumed == u.consumed
      && KeepsHeld(u, t)
      && (forall n :: u.recvCount <= n < t.recvCount ==> n in t.skipped)
  {
    var u := Turned(s, m.ratchetKey);
    TurnedSound(s, m.ratchetKey);
    TurnedRoot(s, m.ratchetKey);
    DecryptAfterTurn(s, m);
    RejectionInEpoch(u, m);
    DecryptSound(u, m);
    HeldNumbersSuffice(u, Decrypt(u, m).0);
  }

  /**
   * A refusal for want of room loses no held key exactly when the header carries the current ratchet
   * key, or when there was no key to lose: any other header key drops the store before the refusal.
   */
  lemma RejectionLosesNoKeyIff(s: Session, m: Message)
    requires Sound(s) && Decrypt(s, m).1 == Err(TooManySkippedMessages)
    ensures KeepsHeld(s, Decrypt(s, m).0) <==> m.ratchetKey == s.peer || s.skipped == map[]
  {
    RejectionFillsStore(s, m);
    var t := Decrypt(s, m).0;
    if m.ratchetKey != s.peer && s.skipped != map[] {
      var n :| n in s.skipped;
      if n in t.skipped {
        HeldOfRoot(s, t, n);
      }
    }
  }

  /** Noise under any new header key, with a number past the window, is refused and drops every held key. */
  lemma JunkHeaderWipesStore(s: Session, other: Key32, n: nat)
    requires Sound(s) && other != s.peer && n in s.skipped
    ensures var (t, r) := Decrypt(s, Message(MAX_SKIPPED_MESSAGE_KEYS + 1, other, Noise([])));
      r == Err(TooManySkippedMessages) && (n in t.skipped ==> t.skipped[n] != s.skipped[n])
  {
    var m := Message(MAX_SKIPPED_MESSAGE_KEYS + 1, other, Noise([]));
    var u := Turned(s, other);
    TurnedSound(s, other);
    TakeKeyLaw(u, m.number);
    DecryptLaw(s, m);
    RejectionFillsStore(s, m);
    if n in Decrypt(s, m).0.skipped {
      HeldOfRoot(s, Decrypt(s, m).0, n);
    }
  }

  lemma FullStoreStep(s: Session, m: Message)
    requires Sound(s) && |s.skipped| == MAX_SKIPPED_MESSAGE_KEYS
    requires m.ratchetKey == s.peer && m.number > s.recvCount
    ensures Decrypt(s, m) == (s, Err(TooManySkippedMessages))
  {
    DecryptLaw(s, m);
    TakeKeyLaw(s, m.number);
  }

  /**
   * Once a gap has filled the store, every message above the receive counter is refused in that
   * epoch and changes nothing, until one of the eight held numbers arrives.
   */
  lemma {:induction false} FullStoreRefuses(states: seq<Session>, events: seq<Event>, i: nat)
    requires IsRun(states, events) && |states[0].skipped| == MAX_SKIPPED_MESSAGE_KEYS && i < |events|
    requires forall k :: 0 <= k < |events| ==>
      events[k].Receive? && events[k].m.ratchetKey == states[0].peer && events[k].m.number > states[0].recvCount
    ensures Decrypt(states[i], events[i].m) == (states[0], Err(TooManySkippedMessages))
  {
    if i > 0 {
      FullStoreRefuses(states, events, i - 1);
    }
    FullStoreStep(states[0], events[i].m);
  }

  // ---- Late messages of an older epoch ----

  /** The number has no key left in this epoch: it was consumed or burned. */
  predicate Spent(s: Session, n: nat) {
    n < s.recvCount && n !in s.skipped
  }

  /** Within an epoch `Replay` is the answer for exactly the spent numbers. */
  lemma ReplayIffSpent(s: Session, m: Message)
    requires Sound(s) && m.ratchetKey == s.peer
    ensures Decrypt(s, m).1 == Err(Replay) <==> Spent(s, m.number)
  {
    TakeKeyLaw(s, m.number);
    DecryptLaw(s, m);
  }

  /** If the two are in one epoch, a number spent in the first is spent in the second. */
  ghost predicate SpentKept(s: Session, t: Session, n: nat) {
    s.root == t.root && Spent(s, n) ==> Spent(t, n) && t.peer == s.peer
  }

  lemma ReceiveSpent(s: Session, m: Message, n: nat)
    requires Sound(s)
    ensures SpentKept(s, Decrypt(s, m).0, n)
  {
    DecryptLaw(s, m);
    TurnedSound(s, m.ratchetKey);
    TakeKeyLaw(Turned(s, m.ratchetKey), m.number);
    TurnedRoot(s, m.ratchetKey);
  }

  lemma NextSpent(s: Session, e: Event, n: nat)
    requires Sound(s)
    ensures SpentKept(s, Next(s, e), n)
  {
    match e
    case Send(_) =>
    case Receive(m) => ReceiveSpent(s, m, n);
    case RotateTo(generated) => RatchetSound(s.(dh := generated), Dh(generated, s.peer));
    case Restart => ImportExport(s);
  }

  lemma SpentTransitive(s: Session, t: Session, u: Session, n: nat)
    requires Forward(s, t) && Forward(t, u) && SpentKept(s, t, n) && SpentKept(t, u, n)
    ensures SpentKept(s, u, n)
  {
  }

  lemma StepSpent(states: seq<Session>, events: seq<Event>, j: nat, n: nat)
    requires IsRun(states, events) && j < |events|
    ensures Forward(states[j], states[j + 1]) && SpentKept(states[j], states[j + 1], n)
  {
    RunSound(states, events, j);
    StepForward(states, events, j);
    NextSpent(states[j], events[j], n);
  }

  lemma {:induction false} ChainSpent(states: seq<Session>, i: nat, j: nat, n: nat)
    requires i <= j < |states|
    requires forall k :: i <= k < j ==> Forward(states[k], states[k + 1]) && SpentKept(states[k], states[k + 1], n)
    ensures Forward(states[i], states[j]) && SpentKept(states[i], states[j], n)
    decreases j
  {
    if i < j {
      ChainSpent(states, i, j - 1, n);
      ForwardTransitive(states[i], states[j - 1], states[j]);
      SpentTransitive(states[i], states[j - 1], states[j], n);
    }
  }

  /** A spent number stays spent for as long as the epoch lasts. */
  lemma RunSpent(states: seq<Session>, events: seq<Event>, i: nat, j: nat, n: nat)
    requires IsRun(states, events) && i <= j < |states|
    ensures SpentKept(states[i], states[j], n)
  {
    forall k | i <= k < j ensures Forward(states[k], states[k + 1]) && SpentKept(states[k], states[k + 1], n) {
      StepSpent(states, events, k, n);
    }
    ChainSpent(states, i, j, n);
  }

  /** The message carries the current header key but was sealed in another epoch, one that was left. */
  ghost predicate Late(s: Session, m: Message, left: Key) {
    && m.ratchetKey == s.peer && left != s.root
    && m.ciphertext.Sealed? && m.ciphertext.key == KeyAt(left, RecvDir(s.role), m.number)
  }

  /**
   * A late message never opens. It fails to authenticate exactly when its number still had a key
   * within the window, and then that number, and no other, is spent.
   */
  lemma LateMessageLaw(s: Session, m: Message, left: Key)
    requires Sound(s) && Late(s, m, left)
    ensures var (t, r) := Decrypt(s, m);
      && !Opens(s, m)
      && (r == Err(DecryptError) <==> Fits(s, m.number))
      && (forall n :: Spent(t, n) <==> Spent(s, n) || (n == m.number && r == Err(DecryptError)))
  {
    TakeKeyLaw(s, m.number);
    DecryptLaw(s, m);
    if Opens(s, m) {
      KeyAtInjective(left, RecvDir(s.role), m.number, s.root, RecvDir(s.role), m.number);
    }
  }

  /** The genuine message with a burned number is answered `Replay` at every later point of the epoch. */
  lemma LateMessageBurns(states: seq<Session>, events: seq<Event>, i: nat, j: nat, left: Key, m: Message)
    requires IsRun(states, events) && i < |events| && i < j < |states|
    requires events[i].Receive? && Late(states[i], events[i].m, left)
    requires Decrypt(states[i], events[i].m).1 == Err(DecryptError)
    requires states[j].root == states[i].root && m.number == events[i].m.number && m.ratchetKey == states[j].peer
    ensures Decrypt(states[j], m).1 == Err(Replay)
  {
    RunSound(states, events, i);
    RunSound(states, events, j);
    LateMessageLaw(states[i], events[i].m, left);
    RunForward(states, events, i, i + 1);
    RunForward(states, events, i + 1, j);
    RunSpent(states, events, i + 1, j, m.number);
    ReplayIffSpent(states[j], m);
  }
}
