/**
 * Two ends of one session over a network that loses, repeats and reorders genuine messages, with
 * DH rotations and restarts: agreement of the two ends, and the exact outcome of every delivery.
 */
module PairedRuns {
  import opened Bytes
  import opened SymbolicCrypto
  import opened Ratchet
  import SessionRuns

  /** Equal roots and matching ratchet keys; with opposite roles the chains are then crossed. */
  ghost predicate Paired(a: Session, b: Session) {
    && a.role != b.role
    && a.root == b.root
    && a.peer == b.dh.public
    && b.peer == a.dh.public
  }

  /** `a` has rotated and `b` has not yet heard of it. */
  ghost predicate Ahead(a: Session, b: Session) {
    && a.role != b.role
    && a.root == RatchetRoot(b.root, Dh(a.dh, b.dh.public))
    && a.peer == b.dh.public
    && b.peer != a.dh.public
  }

  /** In a pair each end's sending chain is the other's receiving chain, index by index. */
  lemma PairedChainsCross(a: Session, b: Session, n: nat)
    requires Paired(a, b)
    ensures KeyAt(a.root, SendDir(a.role), n) == KeyAt(b.root, RecvDir(b.role), n)
    ensures KeyAt(b.root, SendDir(b.role), n) == KeyAt(a.root, RecvDir(a.role), n)
  {
  }

  // ---- One step, exactly ----

  lemma DecryptKeepsIdentity(s: Session, m: Message)
    requires Sound(s)
    ensures var t := Turned(s, m.ratchetKey);
      var after := Decrypt(s, m).0;
      after.role == s.role && after.dh == s.dh && after.peer == m.ratchetKey && after.root == t.root
      && after.sendCount == t.sendCount
  {
    DecryptLaw(s, m);
    TurnedSound(s, m.ratchetKey);
    TakeKeyLaw(Turned(s, m.ratchetKey), m.number);
  }

  /** Two paired ends stay paired over the receipt of any message exactly when its header carries the current key. */
  lemma PairedKeptIff(a: Session, b: Session, m: Message)
    requires Paired(a, b) && Sound(b)
    ensures Paired(a, Decrypt(b, m).0) <==> m.ratchetKey == b.peer
  {
    DecryptKeepsIdentity(b, m);
    if m.ratchetKey != b.peer {
      assert Depth(Turned(b, m.ratchetKey).root) == Depth(b.root) + 1;
    }
  }

  /** A rotation of one end puts it ahead, provided the generated key is not the one it replaces. */
  lemma RotateGoesAhead(a: Session, b: Session, generated: Secret)
    requires Paired(a, b) && generated != a.dh
    ensures Ahead(Rotate(a, generated), b)
  {
  }

  /** The end left behind catches up exactly on a message that carries the new key, whatever becomes of its body. */
  lemma CatchUpIff(a: Session, b: Session, m: Message)
    requires Ahead(a, b) && Sound(b)
    ensures Paired(a, Decrypt(b, m).0) <==> m.ratchetKey == a.dh.public
  {
    DecryptKeepsIdentity(b, m);
    DhCommutes(a.dh, b.dh);
    if m.ratchetKey == b.peer {
      assert Depth(a.root) == Depth(b.root) + 1;
    } else if Dh(b.dh, m.ratchetKey) == Dh(b.dh, a.dh.public) {
      DhInjective(b.dh, m.ratchetKey, a.dh.public);
    }
  }

  // ---- Crossing rotations ----

  /** `r` is `root` or one of the roots it was derived from. */
  predicate Descends(root: Key, r: Key) {
    root == r || (root.RatchetRoot? && Descends(root.prev, r))
  }

  /** Two ancestors of one root are on one line. */
  lemma {:induction false} AncestorsComparable(root: Key, r1: Key, r2: Key)
    requires Descends(root, r1) && Descends(root, r2)
    ensures Descends(r1, r2) || Descends(r2, r1)
  {
    if root != r1 && root != r2 {
      AncestorsComparable(root.prev, r1, r2);
    }
  }

  lemma {:induction false} DescendsTransitive(a: Key, b: Key, c: Key)
    requires Descends(a, b) && Descends(b, c)
    ensures Descends(a, c)
  {
    if a != b {
      DescendsTransitive(a.prev, b, c);
    }
  }

  lemma NextDescends(s: Session, e: SessionRuns.Event)
    requires Sound(s)
    ensures Descends(SessionRuns.Next(s, e).root, s.root)
  {
    match e
    case Receive(m) => DecryptKeepsIdentity(s, m);
    case Restart => ImportExport(s);
    case _ =>
  }

  lemma StepDescends(states: seq<Session>, events: seq<SessionRuns.Event>, i: nat)
    requires SessionRuns.IsRun(states, events) && i < |events|
    ensures Descends(states[i + 1].root, states[i].root)
  {
    SessionRuns.RunSound(states, events, i);
    NextDescends(states[i], events[i]);
  }

  lemma {:induction false} ChainDescends(roots: seq<Key>, i: nat)
    requires i < |roots| && forall k :: 0 <= k < i ==> Descends(roots[k + 1], roots[k])
    ensures Descends(roots[i], roots[0])
  {
    if i > 0 {
      ChainDescends(roots, i - 1);
      DescendsTransitive(roots[i], roots[i - 1], roots[0]);
    }
  }

  lemma RunDescends(states: seq<Session>, events: seq<SessionRuns.Event>, i: nat)
    requires SessionRuns.IsRun(states, events) && i < |states|
    ensures Descends(states[i].root, states[0].root)
  {
    var roots := seq(|states|, k requires 0 <= k < |states| => states[k].root);
    forall k | 0 <= k < i ensures Descends(roots[k + 1], roots[k]) {
      StepDescends(states, events, k);
    }
    ChainDescends(roots, i);
  }

  /** Once neither root descends from the other, nothing the two ends ever do brings them together. */
  lemma DivergedForever(sa: seq<Session>, ea: seq<SessionRuns.Event>, i: nat,
                        sb: seq<Session>, eb: seq<SessionRuns.Event>, j: nat)
    requires SessionRuns.IsRun(sa, ea) && i < |sa| && SessionRuns.IsRun(sb, eb) && j < |sb|
    requires !Descends(sa[0].root, sb[0].root) && !Descends(sb[0].root, sa[0].root)
    ensures sa[i].root != sb[j].root
  {
    RunDescends(sa, ea, i);
    RunDescends(sb, eb, j);
    if sa[i].root == sb[j].root {
      AncestorsComparable(sa[i].root, sa[0].root, sb[0].root);
    }
  }

  lemma {:induction false} DepthOfDescendant(root: Key, r: Key)
    requires Descends(root, r)
    ensures root == r || Depth(root) > Depth(r)
  {
    if root != r {
      DepthOfDescendant(root.prev, r);
    }
  }

  /** Rotations that cross on the wire separate two paired ends for good, whatever follows. */
  lemma CrossingRotationsDiverge(a: Session, ga: Secret, sa: seq<Session>, ea: seq<SessionRuns.Event>, i: nat,
                                 b: Session, gb: Secret, sb: seq<Session>, eb: seq<SessionRuns.Event>, j: nat)
    requires Paired(a, b) && ga != gb && ga != a.dh
    requires SessionRuns.IsRun(sa, ea) && i < |sa| && sa[0] == Rotate(a, ga)
    requires SessionRuns.IsRun(sb, eb) && j < |sb| && sb[0] == Rotate(b, gb)
    ensures sa[i].root != sb[j].root
  {
    var ra, rb := sa[0].root, sb[0].root;
    assert ga.public in ra.dh.ends && ga.public !in rb.dh.ends;
    if Descends(ra, rb) {
      DepthOfDescendant(ra, rb);
    }
    if Descends(rb, ra) {
      DepthOfDescendant(rb, ra);
    }
    DivergedForever(sa, ea, i, sb, eb, j);
  }

  // ---- A wrong header ----

  /** The root is still the first one, or it grew from it through some other shared secret than `bad`. */
  ghost predicate Branches(start: Session, s: Session, bad: SharedSecret) {
    || (s.root == start.root && s.dh == start.dh && s.peer == start.peer)
    || (exists d :: d != bad && Descends(s.root, RatchetRoot(start.root, d)))
  }

  /** No first step of the session, rotating or turning, goes through `bad`. */
  ghost predicate Avoids(start: Session, events: seq<SessionRuns.Event>, bad: SharedSecret) {
    && (forall k :: 0 <= k < |events| && events[k].RotateTo? ==> Dh(events[k].generated, start.peer) != bad)
    && (forall x: Key32 :: x != start.peer ==> Dh(start.dh, x) != bad)
  }

  lemma FirstStepBranches(start: Session, s: Session, e: SessionRuns.Event, bad: SharedSecret)
    requires Sound(s) && s.root == start.root && s.dh == start.dh && s.peer == start.peer
    requires e.RotateTo? ==> Dh(e.generated, start.peer) != bad
    requires forall x: Key32 :: x != start.peer ==> Dh(start.dh, x) != bad
    ensures Branches(start, SessionRuns.Next(s, e), bad)
  {
    match e
    case Send(_) =>
    case Receive(m) =>
      DecryptKeepsIdentity(s, m);
      if m.ratchetKey != s.peer {
        assert SessionRuns.Next(s, e).root == RatchetRoot(start.root, Dh(start.dh, m.ratchetKey));
      }
    case RotateTo(generated) =>
      assert SessionRuns.Next(s, e).root == RatchetRoot(start.root, Dh(generated, start.peer));
    case Restart => ImportExport(s);
  }

  lemma StepBranches(start: Session, s: Session, e: SessionRuns.Event, bad: SharedSecret)
    requires Sound(s) && Branches(start, s, bad)
    requires e.RotateTo? ==> Dh(e.generated, start.peer) != bad
    requires forall x: Key32 :: x != start.peer ==> Dh(start.dh, x) != bad
    ensures Branches(start, SessionRuns.Next(s, e), bad)
  {
    if s.root == start.root && s.dh == start.dh && s.peer == start.peer {
      FirstStepBranches(start, s, e, bad);
    } else {
      var d :| d != bad && Descends(s.root, RatchetRoot(start.root, d));
      NextDescends(s, e);
      DescendsTransitive(SessionRuns.Next(s, e).root, s.root, RatchetRoot(start.root, d));
    }
  }

  lemma NextBranches(states: seq<Session>, events: seq<SessionRuns.Event>, i: nat, bad: SharedSecret)
    requires SessionRuns.IsRun(states, events) && i < |events| && Avoids(states[0], events, bad)
    requires Branches(states[0], states[i], bad)
    ensures Branches(states[0], states[i + 1], bad)
  {
    SessionRuns.RunSound(states, events, i);
    StepBranches(states[0], states[i], events[i], bad);
  }

  lemma {:induction false} RunBranches(states: seq<Session>, events: seq<SessionRuns.Event>, i: nat, bad: SharedSecret)
    requires SessionRuns.IsRun(states, events) && i < |states| && Avoids(states[0], events, bad)
    ensures Branches(states[0], states[i], bad)
  {
    if i > 0 {
      RunBranches(states, events, i - 1, bad);
      NextBranches(states, events, i - 1, bad);
    }
  }

  /** A root that grew through `bad` is on no other branch. */
  lemma BranchesApart(start: Session, s: Session, root: Key, bad: SharedSecret)
    requires Branches(start, s, bad) && Descends(root, RatchetRoot(start.root, bad))
    ensures s.root != root
  {
    var stem := RatchetRoot(start.root, bad);
    DepthOfDescendant(root, stem);
    if s.root == root && s.root != start.root {
      var d :| d != bad && Descends(s.root, RatchetRoot(start.root, d));
      AncestorsComparable(root, RatchetRoot(start.root, d), stem);
      if Descends(stem, RatchetRoot(start.root, d)) {
        DepthOfDescendant(stem, RatchetRoot(start.root, d));
      } else {
        DepthOfDescendant(RatchetRoot(start.root, d), stem);
      }
    }
  }

  lemma AvoidsWrongHeader(a: Session, b: Session, key: Key32, events: seq<SessionRuns.Event>)
    requires Paired(a, b) && a.dh != b.dh && key != b.peer
    requires forall k :: 0 <= k < |events| && events[k].RotateTo? ==> events[k].generated.public != key
    ensures Avoids(a, events, Dh(b.dh, key))
  {
    var bad := Dh(b.dh, key);
    assert a.dh.public !in bad.ends;
    forall x: Key32 | x != a.peer ensures Dh(a.dh, x) != bad {
      assert a.dh.public in Dh(a.dh, x).ends;
    }
    forall k | 0 <= k < |events| && events[k].RotateTo? ensures Dh(events[k].generated, a.peer) != bad {
      DhCommutes(events[k].generated, b.dh);
      if Dh(b.dh, events[k].generated.public) == bad {
        DhInjective(b.dh, events[k].generated.public, key);
      }
    }
  }

  /**
   * One header with another key separates two paired ends for good, although nothing in it was
   * authenticated: whatever either end does later, unless the other one happens to generate that
   * very key, their roots are never equal again.
   */
  lemma WrongHeaderSeparates(b: Session, m: Message, sa: seq<Session>, ea: seq<SessionRuns.Event>, i: nat,
                             sb: seq<Session>, eb: seq<SessionRuns.Event>, j: nat)
    requires SessionRuns.IsRun(sa, ea) && i < |sa| && SessionRuns.IsRun(sb, eb) && j < |sb|
    requires Paired(sa[0], b) && Sound(b) && sa[0].dh != b.dh && m.ratchetKey != b.peer
    requires sb[0] == Decrypt(b, m).0
    requires forall k :: 0 <= k < |ea| && ea[k].RotateTo? ==> ea[k].generated.public != m.ratchetKey
    ensures sa[i].root != sb[j].root
  {
    var bad := Dh(b.dh, m.ratchetKey);
    AvoidsWrongHeader(sa[0], b, m.ratchetKey, ea);
    RunBranches(sa, ea, i, bad);
    DecryptKeepsIdentity(b, m);
    assert sb[0].root == RatchetRoot(sa[0].root, bad);
    RunDescends(sb, eb, j);
    BranchesApart(sa[0], sa[i], sb[j].root, bad);
  }

  // ---- Whole runs ----

  /** A message as its sender remembers it: what was sealed, and in which epoch. */
  datatype Sent = Sent(m: Message, text: string, root: Key)

  /** One end: its session, everything it ever sent, and which of the peer's messages it has accepted. */
  datatype End = End(s: Session, log: seq<Sent>, got: set<nat>)

  datatype System = System(alice: End, bob: End)

  datatype Move =
    | Send(who: Role, text: string)
    | Rotation(who: Role, generated: Secret)
    | Deliver(who: Role, k: nat)
    | Restart(who: Role)

  function Of(sys: System, who: Role): End {
    if who.Alice? then sys.alice else sys.bob
  }

  function With(sys: System, who: Role, e: End): System {
    if who.Alice? then sys.(alice := e) else sys.(bob := e)
  }

  /**
   * The discipline under which the code promises agreement: nobody rotates while the ends are in
   * different epochs, a generated key is new, and an older epoch's message is not delivered late.
   */
  predicate Allowed(sys: System, move: Move) {
    var me, peer := Of(sys, move.who), Of(sys, Other(move.who));
    match move
    case Send(_, _) => true
    case Rotation(_, generated) => me.s.root == peer.s.root && generated != me.s.dh
    case Deliver(_, k) => k < |peer.log| && Depth(peer.log[k].root) >= Depth(me.s.root)
    case Restart(_) => true
  }

  function SendFrom(e: End, text: string): End {
    var (s, m) := Encrypt(e.s, text);
    End(s, e.log + [Sent(m, text, e.s.root)], e.got)
  }

  function Accept(e: End, m: Message, k: nat): End {
    var (s, r) := Decrypt(e.s, m);
    End(s, e.log, if r.Ok? then e.got + {k} else e.got)
  }

  /** What a move does at the end that makes it. */
  function Moved(me: End, peer: End, move: Move): End
    requires move.Deliver? ==> move.k < |peer.log|
  {
    match move
    case Send(_, text) => SendFrom(me, text)
    case Rotation(_, generated) => me.(s := Rotate(me.s, generated))
    case Deliver(_, k) => Accept(me, peer.log[k].m, k)
    case Restart(_) => me.(s := Import(Export(me.s)))
  }

  function Apply(sys: System, move: Move): System
    requires Allowed(sys, move)
  {
    With(sys, move.who, Moved(Of(sys, move.who), Of(sys, Other(move.who)), move))
  }

  ghost predicate AllowedRun(sys: System, moves: seq<Move>)
    decreases |moves|
  {
    moves == [] || (Allowed(sys, moves[0]) && AllowedRun(Apply(sys, moves[0]), moves[1..]))
  }

  function Run(sys: System, moves: seq<Move>): System
    requires AllowedRun(sys, moves)
    decreases |moves|
  {
    if moves == [] then sys else Run(Apply(sys, moves[0]), moves[1..])
  }

  // ---- The invariant ----

  /** The entry is what an end with this role sealed as message `number` of the epoch `root`. */
  ghost predicate Genuine(e: Sent, role: Role) {
    && e.m.ciphertext == Sealed(KeyAt(e.root, SendDir(role), e.m.number),
                                Header(e.m.number, e.m.ratchetKey), Utf8Text(e.text))
  }

  /** What the sender's log says about its own epochs. */
  ghost predicate LogSound(snd: End) {
    && (forall i :: 0 <= i < |snd.log| ==> Genuine(snd.log[i], snd.s.role))
    && (forall i :: 0 <= i < |snd.log| ==> Depth(snd.log[i].root) <= Depth(snd.s.root))
    && (forall i :: 0 <= i < |snd.log| && Depth(snd.log[i].root) == Depth(snd.s.root) ==> snd.log[i].root == snd.s.root)
    && (forall i :: 0 <= i < |snd.log| && snd.log[i].root == snd.s.root ==>
          snd.log[i].m.ratchetKey == snd.s.dh.public && snd.log[i].m.number < snd.s.sendCount)
    && (forall i, j :: 0 <= i < j < |snd.log| && snd.log[i].root == snd.log[j].root ==>
          snd.log[i].m.number != snd.log[j].m.number)
  }

  /** How the receiver's epoch relates to the log. */
  ghost predicate LogReaches(log: seq<Sent>, rcv: Session) {
    && (forall i :: 0 <= i < |log| && Depth(log[i].root) == Depth(rcv.root) ==> log[i].root == rcv.root)
    && (forall i :: 0 <= i < |log| && log[i].root == rcv.root ==> log[i].m.ratchetKey == rcv.peer)
  }

  /** The receiver burned nothing, and has consumed exactly what it accepted in this epoch. */
  ghost predicate Received(log: seq<Sent>, got: set<nat>, rcv: Session) {
    && (forall n :: 0 <= n < rcv.recvCount ==> n in rcv.skipped || n in rcv.consumed)
    && (forall i :: i in got ==> i < |log| && Depth(log[i].root) <= Depth(rcv.root))
    && (forall i :: i in got && log[i].root == rcv.root ==> log[i].m.number in rcv.consumed)
    && (forall n :: n in rcv.consumed ==> exists i :: i in got && log[i].root == rcv.root && log[i].m.number == n)
  }

  ghost predicate Channel(snd: End, rcv: End) {
    && LogSound(snd)
    && LogReaches(snd.log, rcv.s)
    && Received(snd.log, rcv.got, rcv.s)
  }

  ghost predicate InStep(a: Session, b: Session) {
    Paired(a, b) || Ahead(a, b) || Ahead(b, a)
  }

  ghost predicate Inv(sys: System) {
    && sys.alice.s.role == Alice && sys.bob.s.role == Bob
    && Sound(sys.alice.s) && Sound(sys.bob.s)
    && InStep(sys.alice.s, sys.bob.s)
    && Channel(sys.alice, sys.bob)
    && Channel(sys.bob, sys.alice)
  }

  /** `Inv` seen from one end. */
  ghost predicate InvFor(me: End, peer: End) {
    && me.s.role != peer.s.role
    && Sound(me.s) && Sound(peer.s)
    && InStep(me.s, peer.s)
    && Channel(me, peer)
    && Channel(peer, me)
  }

  // ---- Each move keeps the invariant ----

  lemma EncryptSound(s: Session, text: string)
    requires Sound(s)
    ensures Sound(Encrypt(s, text).0)
  {
  }

  lemma SendKeepsLog(me: End, text: string)
    requires Sound(me.s) && LogSound(me)
    ensures LogSound(SendFrom(me, text))
  {
    var after := SendFrom(me, text);
    assert Genuine(after.log[|me.log|], me.s.role);
    assert forall i :: 0 <= i < |me.log| ==> after.log[i] == me.log[i];
  }

  lemma SendKeeps(me: End, peer: End, text: string)
    requires InvFor(me, peer)
    ensures InvFor(SendFrom(me, text), peer)
  {
    EncryptSound(me.s, text);
    SendKeepsLog(me, text);
    SendKeepsReceived(me, peer, SendFrom(me, text));
    SendKeepsReach(me, peer, text);
  }

  lemma SendKeepsReach(me: End, peer: End, text: string)
    requires LogReaches(me.log, peer.s) && InStep(me.s, peer.s)
    ensures LogReaches(SendFrom(me, text).log, peer.s)
  {
    var after := SendFrom(me, text);
    assert after.log[|me.log|].root == me.s.root;
    assert forall i :: 0 <= i < |me.log| ==> after.log[i] == me.log[i];
  }

  lemma SendKeepsReceived(me: End, peer: End, me': End)
    requires Received(me.log, peer.got, peer.s) && |me.log| <= |me'.log| && me'.log[..|me.log|] == me.log
    ensures Received(me'.log, peer.got, peer.s)
  {
    assert forall i :: 0 <= i < |me.log| ==> me'.log[i] == me.log[i];
    forall n | n in peer.s.consumed
      ensures exists i :: i in peer.got && me'.log[i].root == peer.s.root && me'.log[i].m.number == n
    {
      var i :| i in peer.got && me.log[i].root == peer.s.root && me.log[i].m.number == n;
      assert me'.log[i] == me.log[i];
    }
  }

  lemma RotationKeeps(me: End, peer: End, generated: Secret)
    requires InvFor(me, peer) && me.s.root == peer.s.root && generated != me.s.dh
    ensures InvFor(me.(s := Rotate(me.s, generated)), peer)
  {
    var me' := me.(s := Rotate(me.s, generated));
    assert Depth(me'.s.root) == Depth(me.s.root) + 1;
    assert Paired(me.s, peer.s);
    RotateGoesAhead(me.s, peer.s, generated);
    assert LogSound(me');
    assert LogReaches(peer.log, me'.s);
    assert Received(peer.log, me'.got, me'.s);
  }

  // ---- Deliveries ----

  /** The message's epoch is the receiver's or, when the sender has rotated, the sender's. */
  lemma DeliverableEpoch(me: End, peer: End, k: nat)
    requires InvFor(me, peer) && k < |peer.log| && Depth(peer.log[k].root) >= Depth(me.s.root)
    ensures var e := peer.log[k];
      || (e.root == me.s.root && e.m.ratchetKey == me.s.peer)
      || (Ahead(peer.s, me.s) && e.root == peer.s.root && e.m.ratchetKey == peer.s.dh.public)
  {
    assert Ahead(me.s, peer.s) ==> Depth(me.s.root) == Depth(peer.s.root) + 1;
    assert Ahead(peer.s, me.s) ==> Depth(peer.s.root) == Depth(me.s.root) + 1;
  }

  /** Turning to the new key, before anything is decrypted, already restores the pair. */
  lemma TurnKeeps(me: End, peer: End)
    requires InvFor(me, peer) && Ahead(peer.s, me.s)
    ensures var t := Turned(me.s, peer.s.dh.public);
      Paired(t, peer.s) && InvFor(me.(s := t), peer)
  {
    var t := Turned(me.s, peer.s.dh.public);
    DhCommutes(me.s.dh, peer.s.dh);
    assert t.root == peer.s.root;
    assert Depth(t.root) == Depth(me.s.root) + 1;
    TurnedSound(me.s, peer.s.dh.public);
    assert LogSound(me.(s := t));
    assert LogReaches(me.log, peer.s);
    assert LogReaches(peer.log, t);
    assert Received(peer.log, me.got, t);
  }

  /** What a delivery must answer: the sent text once, `Replay` after that, and a refusal exactly on a full window. */
  function Expected(s: Session, e: Sent, again: bool): Result<string> {
    if again then Err(Replay)
    else if e.m.number >= s.recvCount && |s.skipped| + (e.m.number - s.recvCount) > MAX_SKIPPED_MESSAGE_KEYS
    then Err(TooManySkippedMessages)
    else Ok(e.text)
  }

  lemma ConsumedIffGot(me: End, peer: End, k: nat)
    requires InvFor(me, peer) && k < |peer.log| && peer.log[k].root == me.s.root
    ensures peer.log[k].m.number in me.s.consumed <==> k in me.got
  {
    var n := peer.log[k].m.number;
    if n in me.s.consumed {
      var i :| i in me.got && peer.log[i].root == me.s.root && peer.log[i].m.number == n;
      assert i == k;
    }
  }

  /** A genuine message of the receiver's own epoch gets exactly the expected answer. */
  lemma SameEpochAnswer(me: End, peer: End, k: nat)
    requires InvFor(me, peer) && k < |peer.log|
    requires peer.log[k].root == me.s.root && peer.log[k].m.ratchetKey == me.s.peer
    ensures Decrypt(me.s, peer.log[k].m).1 == Expected(me.s, peer.log[k], k in me.got)
    ensures Opens(me.s, peer.log[k].m) <==> Decrypt(me.s, peer.log[k].m).1.Ok?
  {
    var e := peer.log[k];
    ConsumedIffGot(me, peer, k);
    assert Genuine(e, peer.s.role);
    assert SendDir(peer.s.role) == RecvDir(me.s.role);
    TakeKeyLaw(me.s, e.m.number);
    DecryptLaw(me.s, e.m);
  }

  /** A delivery that does not fail to authenticate burns nothing and consumes exactly what it accepts. */
  lemma AcceptConsumes(me: End, m: Message, k: nat)
    requires Sound(me.s) && m.ratchetKey == me.s.peer
    requires Opens(me.s, m) <==> Decrypt(me.s, m).1.Ok?
    requires Decrypt(me.s, m).1 != Err(DecryptError)
    requires k in me.got ==> !Decrypt(me.s, m).1.Ok? && m.number in me.s.consumed
    requires forall n :: 0 <= n < me.s.recvCount ==> n in me.s.skipped || n in me.s.consumed
    ensures var me' := Accept(me, m, k);
      && me'.s.root == me.s.root
      && me'.s.consumed == (if k in me'.got then me.s.consumed + {m.number} else me.s.consumed)
      && me'.got == (if k in me'.got then me.got + {k} else me.got)
      && (forall n :: 0 <= n < me'.s.recvCount ==> n in me'.s.skipped || n in me'.s.consumed)
  {
    TakeKeyLaw(me.s, m.number);
    DecryptLaw(me.s, m);
  }

  lemma ReceivedGrows(log: seq<Sent>, got: set<nat>, s: Session, got': set<nat>, s': Session, k: nat)
    requires Received(log, got, s) && k < |log| && log[k].root == s.root == s'.root
    requires s'.consumed == if k in got' then s.consumed + {log[k].m.number} else s.consumed
    requires got' == if k in got' then got + {k} else got
    requires forall n :: 0 <= n < s'.recvCount ==> n in s'.skipped || n in s'.consumed
    ensures Received(log, got', s')
  {
    forall n | n in s'.consumed
      ensures exists i :: i in got' && log[i].root == s'.root && log[i].m.number == n
    {
      if n in s.consumed {
        var i :| i in got && log[i].root == s.root && log[i].m.number == n;
        assert i in got';
      } else {
        assert k in got';
      }
    }
  }

  /** A receive that stays in the epoch changes nothing that the rest of the invariant speaks of. */
  lemma ReceiveKeeps(me: End, me': End, peer: End)
    requires InvFor(me, peer) && me'.log == me.log
    requires Sound(me'.s) && Received(peer.log, me'.got, me'.s)
    requires me'.s.role == me.s.role && me'.s.root == me.s.root && me'.s.dh == me.s.dh && me'.s.peer == me.s.peer
    requires me'.s.sendCount == me.s.sendCount
    ensures InvFor(me', peer)
    ensures Paired(me.s, peer.s) ==> Paired(me'.s, peer.s)
  {
  }

  lemma SameEpochKeeps(me: End, peer: End, k: nat)
    requires InvFor(me, peer) && k < |peer.log|
    requires peer.log[k].root == me.s.root && peer.log[k].m.ratchetKey == me.s.peer
    ensures InvFor(Accept(me, peer.log[k].m, k), peer)
    ensures Paired(me.s, peer.s) ==> Paired(Accept(me, peer.log[k].m, k).s, peer.s)
  {
    var m := peer.log[k].m;
    SameEpochAnswer(me, peer, k);
    ConsumedIffGot(me, peer, k);
    AcceptConsumes(me, m, k);
    var me' := Accept(me, m, k);
    ReceivedGrows(peer.log, me.got, me.s, me'.got, me'.s, k);
    DecryptSound(me.s, m);
    DecryptKeepsIdentity(me.s, m);
    ReceiveKeeps(me, me', peer);
  }

  /** The receiver as it stands once the header has been read. */
  lemma TurnedView(me: End, peer: End, k: nat)
    requires InvFor(me, peer) && k < |peer.log| && Depth(peer.log[k].root) >= Depth(me.s.root)
    ensures var e := peer.log[k];
      var t := Turned(me.s, e.m.ratchetKey);
      && t.root == e.root && t.peer == e.m.ratchetKey
      && InvFor(me.(s := t), peer)
      && (e.root == peer.s.root ==> Paired(t, peer.s))
  {
    DeliverableEpoch(me, peer, k);
    if peer.log[k].m.ratchetKey != me.s.peer {
      TurnKeeps(me, peer);
    } else {
      assert me.(s := Turned(me.s, peer.log[k].m.ratchetKey)) == me;
      assert Ahead(me.s, peer.s) ==> Depth(me.s.root) == Depth(peer.s.root) + 1;
      assert Ahead(peer.s, me.s) ==> Depth(peer.s.root) == Depth(me.s.root) + 1;
    }
  }

  lemma AcceptAfterTurn(me: End, m: Message, k: nat)
    ensures Accept(me.(s := Turned(me.s, m.ratchetKey)), m, k) == Accept(me, m, k)
    ensures Decrypt(Turned(me.s, m.ratchetKey), m) == Decrypt(me.s, m)
  {
    DecryptAfterTurn(me.s, m);
  }

  /**
   * Every allowed delivery: the answer is exactly the expected one, the invariant is kept, and a
   * message of the sender's current epoch leaves the two ends paired.
   */
  lemma DeliverLaw(me: End, peer: End, k: nat)
    requires InvFor(me, peer) && k < |peer.log| && Depth(peer.log[k].root) >= Depth(me.s.root)
    ensures var e := peer.log[k];
      var t := Turned(me.s, e.m.ratchetKey);
      && t.root == e.root
      && Decrypt(me.s, e.m).1 == Expected(t, e, k in me.got)
      && InvFor(Accept(me, e.m, k), peer)
      && (e.root == peer.s.root ==> Paired(Accept(me, e.m, k).s, peer.s))
  {
    var m := peer.log[k].m;
    var turned := me.(s := Turned(me.s, m.ratchetKey));
    TurnedView(me, peer, k);
    AcceptAfterTurn(me, m, k);
    SameEpochAnswer(turned, peer, k);
    SameEpochKeeps(turned, peer, k);
  }

  lemma InvWith(sys: System, who: Role, me: End)
    requires sys.alice.s.role == Alice && sys.bob.s.role == Bob
    requires me.s.role == who && InvFor(me, Of(sys, Other(who)))
    ensures Inv(With(sys, who, me))
  {
  }

  lemma AcceptKeepsRole(me: End, m: Message, k: nat)
    requires Sound(me.s)
    ensures Accept(me, m, k).s.role == me.s.role
  {
    DecryptKeepsIdentity(me.s, m);
  }

  lemma MovedKeeps(me: End, peer: End, move: Move)
    requires InvFor(me, peer)
    requires move.Rotation? ==> me.s.root == peer.s.root && move.generated != me.s.dh
    requires move.Deliver? ==> move.k < |peer.log| && Depth(peer.log[move.k].root) >= Depth(me.s.root)
    ensures InvFor(Moved(me, peer, move), peer) && Moved(me, peer, move).s.role == me.s.role
  {
    match move
    case Send(_, text) => SendKeeps(me, peer, text);
    case Rotation(_, generated) => RotationKeeps(me, peer, generated);
    case Deliver(_, k) =>
      DeliverLaw(me, peer, k);
      AcceptKeepsRole(me, peer.log[k].m, k);
    case Restart(_) => ImportExport(me.s);
  }

  lemma ApplyKeeps(sys: System, move: Move)
    requires Inv(sys) && Allowed(sys, move)
    ensures Inv(Apply(sys, move))
  {
    var me, peer := Of(sys, move.who), Of(sys, Other(move.who));
    MovedKeeps(me, peer, move);
    InvWith(sys, move.who, Moved(me, peer, move));
  }

  lemma ApplyKeepsTwice(sys: System, first: Move, second: Move)
    requires Inv(sys) && Allowed(sys, first) && Allowed(Apply(sys, first), second)
    ensures Inv(Apply(Apply(sys, first), second))
  {
    ApplyKeeps(sys, first);
    ApplyKeeps(Apply(sys, first), second);
  }

  lemma {:induction false} RunKeeps(sys: System, moves: seq<Move>)
    requires Inv(sys) && AllowedRun(sys, moves)
    ensures Inv(Run(sys, moves))
    decreases |moves|
  {
    if moves != [] {
      ApplyKeeps(sys, moves[0]);
      RunKeeps(Apply(sys, moves[0]), moves[1..]);
    }
  }

  /** Two new sessions on one root, with each other's keys, satisfy the invariant. */
  lemma NewPairInv(root: Key, a: Secret, b: Secret)
    requires Genesis(root)
    ensures Inv(System(End(NewSession(root, Alice, a, b.public), [], {}),
                       End(NewSession(root, Bob, b, a.public), [], {})))
  {
  }

  /**
   * Agreement over whole runs: whatever is sent, lost, repeated, reordered, rotated or restarted
   * within the discipline, the two ends are paired whenever they are in the same epoch, and
   * otherwise exactly one rotation apart.
   */
  lemma RunAgreement(sys: System, moves: seq<Move>)
    requires Inv(sys) && AllowedRun(sys, moves)
    ensures var r := Run(sys, moves);
      && InStep(r.alice.s, r.bob.s)
      && (r.alice.s.root == r.bob.s.root <==> Paired(r.alice.s, r.bob.s))
  {
    RunKeeps(sys, moves);
    var r := Run(sys, moves);
    assert Ahead(r.alice.s, r.bob.s) ==> Depth(r.alice.s.root) == Depth(r.bob.s.root) + 1;
    assert Ahead(r.bob.s, r.alice.s) ==> Depth(r.bob.s.root) == Depth(r.alice.s.root) + 1;
  }

  /** After any such run, the next delivery answers exactly as expected, and a current message restores the pair. */
  lemma RunDelivery(sys: System, moves: seq<Move>, who: Role, k: nat)
    requires Inv(sys) && AllowedRun(sys, moves) && Allowed(Run(sys, moves), Deliver(who, k))
    ensures var r := Run(sys, moves);
      var me, peer := Of(r, who), Of(r, Other(who));
      var e := peer.log[k];
      && Decrypt(me.s, e.m).1 == Expected(Turned(me.s, e.m.ratchetKey), e, k in me.got)
      && (e.root == peer.s.root ==> Paired(Decrypt(me.s, e.m).0, peer.s))
  {
    RunKeeps(sys, moves);
    var r := Run(sys, moves);
    assert InvFor(Of(r, who), Of(r, Other(who)));
    DeliverLaw(Of(r, who), Of(r, Other(who)), k);
  }

  /**
   * What the discipline excludes: a message of an older epoch arrives after a switch, and its sender
   * has not rotated since, so the header still matches. The ends stay as paired as they were, but if
   * the window has room a number of the new epoch is burned, and the genuine message that the sender
   * gives that number is answered `Replay`.
   */
  lemma LateDelivery(me: End, peer: End, k: nat, g: Message)
    requires InvFor(me, peer) && k < |peer.log|
    requires Depth(peer.log[k].root) < Depth(me.s.root) && peer.log[k].m.ratchetKey == me.s.peer
    requires g.number == peer.log[k].m.number && g.ratchetKey == me.s.peer
    ensures var n := g.number;
      var (t, r) := Decrypt(me.s, peer.log[k].m);
      && (r == Err(DecryptError) <==> Fits(me.s, n))
      && (Decrypt(t, g).1 == Err(Replay) <==> SessionRuns.Spent(me.s, n) || r == Err(DecryptError))
      && (Paired(me.s, peer.s) <==> Paired(t, peer.s))
  {
    var e := peer.log[k];
    assert Genuine(e, peer.s.role) && SendDir(peer.s.role) == RecvDir(me.s.role);
    SessionRuns.LateMessageLaw(me.s, e.m, e.root);
    DecryptSound(me.s, e.m);
    DecryptKeepsIdentity(me.s, e.m);
    SessionRuns.ReplayIffSpent(Decrypt(me.s, e.m).0, g);
  }
}
