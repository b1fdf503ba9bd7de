/**
 * How far a sender may run ahead of its receiver on the chat path. Every transmission takes a new
 * message number and only a newly shown message consumes one, so the receiver's window of eight
 * decides exactly which retries get through.
 */
module DeliveryWindow {
  import opened Bytes
  import opened SymbolicCrypto
  import opened Ratchet
  import opened Delivery
  import SessionRuns
  import PairedRuns
  import Handshake

  // ---- The sessions of two linked endpoints ----

  /** The frame is what an end in this state has sealed in its epoch. */
  ghost predicate OwnFrame(s: Session, f: Frame) {
    && f.message.number < s.sendCount
    && f.message.ratchetKey == s.dh.public
    && f.message.ciphertext.Sealed?
    && f.message.ciphertext.key == KeyAt(s.root, SendDir(s.role), f.message.number)
    && f.message.ciphertext.header == Header(f.message.number, s.dh.public)
    && f.message.ciphertext.body.Utf8Text?
  }

  ghost predicate OwnFrames(s: Session, frames: set<Frame>) {
    forall f :: f in frames ==> OwnFrame(s, f)
  }

  /** A sound session in which no number was burned. */
  ghost predicate Clean(s: Session) {
    Sound(s) && SessionRuns.Ledger(s, {})
  }

  /** Paired and clean sessions, everything on the wire their own, and neither end ahead of what it was sent. */
  ghost predicate LinkedFor(n: Node, p: Node) {
    && PairedRuns.Paired(n.e.session, p.e.session)
    && Clean(n.e.session) && Clean(p.e.session)
    && OwnFrames(n.e.session, n.frames) && OwnFrames(p.e.session, p.frames)
    && n.e.session.recvCount <= p.e.session.sendCount
    && p.e.session.recvCount <= n.e.session.sendCount
  }

  ghost predicate Linked(net: Net) {
    LinkedFor(net.alice, net.bob)
  }

  lemma LinkedBothWays(net: Net, who: Role)
    ensures Linked(net) <==> LinkedFor(Of(net, who), Of(net, Other(who)))
  {
  }

  /**
   * One chat, from any tables the two endpoints may have: a run of two linked endpoints in which a
   * reload restores the session that was saved.
   */
  ghost predicate SteadyRun(nets: seq<Net>, moves: seq<Move>) {
    && Steps(nets, moves)
    && Linked(nets[0])
    && forall i :: 0 <= i < |moves| ==> Steady(nets[i], moves[i])
  }

  predicate Steady(net: Net, move: Move) {
    move.Reload? ==> move.session == Of(net, move.who).e.session
  }

  // ---- Where such runs start ----

  /** A chat begins: both sessions are replaced and the wire is new; the tables are what they were. */
  function NewChat(net: Net, a: Session, b: Session): Net {
    Net(Node(net.alice.e.(session := a), {}, {}), Node(net.bob.e.(session := b), {}, {}), net.issued)
  }

  /** The delivery invariant carries over from chat to chat. */
  lemma NewChatInv(net: Net, a: Session, b: Session)
    requires Inv(net)
    ensures Inv(NewChat(net, a, b))
  {
  }

  /** Nothing that `who` sent in this session is still missing at the receiver. */
  predicate Level(net: Net, who: Role) {
    SendCount(net, who) == Consumed(net, Other(who))
  }

  /** What every chat starts from. */
  ghost predicate ChatStart(net: Net) {
    && Linked(net)
    && Level(net, Alice) && Level(net, Bob)
    && net.alice.frames == {} && net.bob.frames == {}
  }

  /** Two new sessions on one root, over any tables. */
  lemma NewPairStarts(net: Net, root: Key, a: Secret, b: Secret)
    requires Genesis(root)
    ensures ChatStart(NewChat(net, NewSession(root, Alice, a, b.public), NewSession(root, Bob, b, a.public)))
  {
    NewSessionSound(root, Alice, a, b.public);
    NewSessionSound(root, Bob, b, a.public);
  }

  lemma FirstMessageStarts(net: Net, root: Key, a: Secret, b: Secret, text: string)
    requires Genesis(root)
    ensures var (sa, m) := Encrypt(NewSession(root, Alice, a, b.public), text);
      ChatStart(NewChat(net, sa, Decrypt(NewSession(root, Bob, b, a.public), m).0))
  {
    var (sa, m) := Encrypt(NewSession(root, Alice, a, b.public), text);
    var s := NewSession(root, Bob, b, a.public);
    NewSessionSound(root, Alice, a, b.public);
    NewSessionSound(root, Bob, b, a.public);
    PairedRuns.EncryptSound(NewSession(root, Alice, a, b.public), text);
    Handshake.FirstMessageRead(root, a, b, text);
    DecryptLaw(s, m);
    TakeKeyLaw(s, 0);
    DecryptSound(s, m);
    SessionRuns.ReceiveLedger(s, m, {});
    PairedRuns.DecryptKeepsIdentity(s, m);
  }

  /** The prekey handshake that begins a chat, over whatever tables earlier chats have left. */
  lemma HandshakeStarts(net: Net, a: Handshake.AliceState, b: Handshake.BobState, generated: Secret, text: string)
    requires b.oneTime.Some?
    ensures var (a', im) := Handshake.StartAlice(a, Handshake.BundleOf(b).value, generated, text);
      && im.Ok? && a'.session.Some?
      && var b' := Handshake.AcceptInitial(b, im.value).0;
      b'.session.Some? && ChatStart(NewChat(net, a'.session.value, b'.session.value))
  {
    var oneTime := b.oneTime.value.keys;
    Handshake.SameRoot(b, oneTime, generated);
    Handshake.HandshakeAgrees(a, b, generated, text);
    var root := Handshake.HandshakeRoot(Dh(generated, b.signedPrekey.public), Dh(generated, oneTime.public));
    FirstMessageStarts(net, root, generated, b.signedPrekey, text);
  }

  // ---- Sending ----

  /** The sending chain stands where its counter says. */
  ghost predicate OnChain(s: Session) {
    s.sendChain == ChainAt(s.root, SendDir(s.role), s.sendCount)
  }

  /** Only the sending side has moved, and only forward. */
  ghost predicate Sent(s: Session, s': Session) {
    && OnChain(s') && s.sendCount <= s'.sendCount
    && s' == s.(sendChain := s'.sendChain, sendCount := s'.sendCount)
  }

  lemma SentSound(s: Session, s': Session)
    requires Sound(s) && Sent(s, s')
    ensures Sound(s')
  {
  }

  lemma EncryptSends(s: Session, id: Text, text: string)
    requires OnChain(s)
    ensures var (s', m) := Encrypt(s, text);
      Sent(s, s') && s'.sendCount == s.sendCount + 1 && OwnFrame(s', Frame(id, m))
  {
  }

  lemma OwnFrameLasts(s: Session, s': Session, f: Frame)
    requires Sent(s, s') && OwnFrame(s, f)
    ensures OwnFrame(s', f)
  {
  }

  lemma SentTwice(s: Session, s1: Session, s2: Session)
    requires Sent(s, s1) && Sent(s1, s2)
    ensures Sent(s, s2)
  {
  }

  lemma ResendSends(e: Endpoint, id: Text, text: string, now: nat)
    requires OnChain(e.session)
    ensures var (e', f) := Resend(e, id, text, now);
      Sent(e.session, e'.session) && OwnFrame(e'.session, f)
  {
    EncryptSends(e.session, id, text);
  }

  ghost predicate AllOwn(s: Session, frames: seq<Frame>) {
    forall f :: f in frames ==> OwnFrame(s, f)
  }

  lemma AllOwnNext(s: Session, s': Session, frames: seq<Frame>, f: Frame)
    requires Sent(s, s') && AllOwn(s, frames) && OwnFrame(s', f)
    ensures AllOwn(s', frames + [f])
  {
    forall g | g in frames + [f] ensures OwnFrame(s', g) {
      if g in frames {
        OwnFrameLasts(s, s', g);
      }
    }
  }

  lemma ResendNext(s: Session, before: Endpoint, frames: seq<Frame>, id: Text, text: string, now: nat)
    requires Sent(s, before.session) && AllOwn(before.session, frames)
    ensures var (after, f) := Resend(before, id, text, now);
      Sent(s, after.session) && AllOwn(after.session, frames + [f])
  {
    var (after, f) := Resend(before, id, text, now);
    ResendSends(before, id, text, now);
    SentTwice(s, before.session, after.session);
    AllOwnNext(before.session, after.session, frames, f);
  }

  lemma {:induction false} ResendFirstSends(e: Endpoint, keys: seq<TimedKey>, n: nat, now: nat)
    requires n <= |keys| && OnChain(e.session) && forall k :: k in keys ==> k.id in e.pending
    ensures Sent(e.session, ResendFirst(e, keys, n, now).0.session)
    ensures AllOwn(ResendFirst(e, keys, n, now).0.session, ResendFirst(e, keys, n, now).1)
  {
    if n > 0 {
      ResendFirstSends(e, keys, n - 1, now);
      var (before, frames) := ResendFirst(e, keys, n - 1, now);
      assert keys[n - 1] in keys;
      ResendNext(e.session, before, frames, keys[n - 1].id, e.pending[keys[n - 1].id].text, now);
    }
  }

  lemma SendPendingSends(e: Endpoint, peer: Text, now: nat)
    requires OnChain(e.session)
    ensures var (e', frames) := SendPending(e, peer, now);
      Sent(e.session, e'.session) && AllOwn(e'.session, frames)
  {
    var keys := PendingFor(e.pending, peer);
    ResendFirstSends(e, keys, |keys|, now);
  }

  lemma SentKeepsLinked(n: Node, n': Node, p: Node)
    requires LinkedFor(n, p) && Sent(n.e.session, n'.e.session)
    requires forall f :: f in n'.frames ==> f in n.frames || OwnFrame(n'.e.session, f)
    ensures LinkedFor(n', p)
  {
    SentSound(n.e.session, n'.e.session);
    forall f | f in n'.frames ensures OwnFrame(n'.e.session, f) {
      if f in n.frames {
        OwnFrameLasts(n.e.session, n'.e.session, f);
      }
    }
  }

  // ---- Receiving ----

  lemma OpensIffFits(s: Session, peer: Session, f: Frame)
    requires Sound(s) && PairedRuns.Paired(s, peer) && OwnFrame(peer, f)
    ensures Decrypt(s, f.message).1.Ok? <==> Fits(s, f.message.number)
    ensures Opens(s, f.message) <==> Decrypt(s, f.message).1.Ok?
  {
    TakeKeyLaw(s, f.message.number);
    DecryptLaw(s, f.message);
    assert SendDir(peer.role) == RecvDir(s.role);
  }

  lemma OpeningCounts(s: Session, m: Message)
    requires Sound(s) && m.ratchetKey == s.peer && Opens(s, m)
    ensures var s' := Decrypt(s, m).0;
      && |s'.consumed| == |s.consumed| + 1
      && s'.recvCount == if m.number in s.skipped then s.recvCount else m.number + 1
  {
    TakeKeyLaw(s, m.number);
    DecryptLaw(s, m);
  }

  lemma OpenedClean(s: Session, m: Message)
    requires Clean(s) && m.ratchetKey == s.peer && Decrypt(s, m).1.Ok?
    ensures Clean(Decrypt(s, m).0)
  {
    DecryptSound(s, m);
    SessionRuns.ReceiveLedger(s, m, {});
    assert SessionRuns.BurnedBy(s, SessionRuns.Receive(m), {}) == {};
  }

  /** Opening one of the peer's frames: the stores stay clean and exactly its number becomes consumed. */
  lemma OpenFrame(s: Session, peer: Session, f: Frame)
    requires Clean(s) && PairedRuns.Paired(s, peer) && OwnFrame(peer, f) && s.recvCount <= peer.sendCount
    requires Decrypt(s, f.message).1.Ok?
    ensures var s' := Decrypt(s, f.message).0;
      && Clean(s') && PairedRuns.Paired(s', peer)
      && s'.dh == s.dh && s'.root == s.root && s'.role == s.role && s'.sendCount == s.sendCount
      && s'.recvCount <= peer.sendCount
      && |s'.consumed| == |s.consumed| + 1
  {
    OpensIffFits(s, peer, f);
    OpeningCounts(s, f.message);
    OpenedClean(s, f.message);
    PairedRuns.DecryptKeepsIdentity(s, f.message);
  }

  lemma SameOwnFrames(s: Session, s': Session, frames: set<Frame>)
    requires OwnFrames(s, frames)
    requires s'.dh == s.dh && s'.root == s.root && s'.role == s.role && s'.sendCount == s.sendCount
    ensures OwnFrames(s', frames)
  {
    forall f | f in frames ensures OwnFrame(s', f) {
      assert OwnFrame(s, f);
    }
  }

  /**
   * A frame from the wire, however late, is shown exactly when its id is not stored and its number
   * still has a key; then one more number is consumed, and otherwise the session stays as it was.
   */
  lemma ReceiveLinked(n: Node, p: Node, f: Frame, acks: set<Text>)
    requires LinkedFor(n, p) && f in p.frames
    ensures var (e, reply) := HandleFrame(n.e, f);
      && LinkedFor(Node(e, n.frames, acks), p)
      && (reply.Ack? <==> f.id in n.e.history || Fits(n.e.session, f.message.number))
      && (if Accepts(n.e, f) then |e.session.consumed| == |n.e.session.consumed| + 1
          else e == n.e)
      && e.session.sendCount == n.e.session.sendCount
  {
    assert OwnFrame(p.e.session, f);
    OpensIffFits(n.e.session, p.e.session, f);
    var e := HandleFrame(n.e, f).0;
    if Accepts(n.e, f) {
      OpenFrame(n.e.session, p.e.session, f);
      SameOwnFrames(n.e.session, e.session, n.frames);
    }
  }

  // ---- Each move ----

  predicate ShowsTo(net: Net, move: Move, who: Role) {
    move.who == who && MoveAccepts(Of(net, who).e, move)
  }

  function Consumed(net: Net, who: Role): nat {
    |Of(net, who).e.session.consumed|
  }

  function SendCount(net: Net, who: Role): nat {
    Of(net, who).e.session.sendCount
  }

  lemma LineLinked(n: Node, p: Node, id: Text, peer: Text, text: string, now: nat)
    requires LinkedFor(n, p)
    ensures var (e, f) := SendLine(n.e, id, peer, text, now);
      LinkedFor(n.(e := e, frames := n.frames + {f}), p) && Sent(n.e.session, e.session)
  {
    var (e, f) := SendLine(n.e, id, peer, text, now);
    EncryptSends(n.e.session, id, text);
    SentKeepsLinked(n, n.(e := e, frames := n.frames + {f}), p);
  }

  lemma FlushLinked(n: Node, p: Node, peer: Text, now: nat)
    requires LinkedFor(n, p)
    ensures var (e, fs) := SendPending(n.e, peer, now);
      LinkedFor(n.(e := e, frames := n.frames + set f | f in fs), p) && Sent(n.e.session, e.session)
  {
    var (e, fs) := SendPending(n.e, peer, now);
    SendPendingSends(n.e, peer, now);
    SentKeepsLinked(n, n.(e := e, frames := n.frames + set f | f in fs), p);
  }

  lemma SameSessionLinked(n: Node, n': Node, p: Node)
    requires LinkedFor(n, p) && n'.e.session == n.e.session && n'.frames == n.frames
    ensures LinkedFor(n', p)
  {
  }

  /** What a move by `n` may do to its session: nothing, send, or accept one of the peer's frames. */
  predicate PossibleAt(n: Node, p: Node, move: Move) {
    && (move.DeliverFrame? ==> move.f in p.frames)
    && (move.Reload? ==> move.session == n.e.session)
  }

  predicate MoveAccepts(e: Endpoint, move: Move) {
    move.DeliverFrame? && Accepts(e, move.f)
  }

  /** The ends are still linked, sending has not gone back, and the consumed count has grown by `gain`. */
  ghost predicate Progress(n: Node, n': Node, p: Node, gain: nat) {
    && LinkedFor(n', p)
    && n.e.session.sendCount <= n'.e.session.sendCount
    && |n'.e.session.consumed| == |n.e.session.consumed| + gain
  }

  lemma QuietMove(issued: map<Text, (Role, string)>, n: Node, p: Node, move: Move)
    requires LinkedFor(n, p) && PossibleAt(n, p, move) && (move.Queue? || move.DeliverAck? || move.Reload?)
    ensures Progress(n, Moved(issued, n, move).1, p, 0)
  {
    SameSessionLinked(n, Moved(issued, n, move).1, p);
  }

  lemma SendingMove(issued: map<Text, (Role, string)>, n: Node, p: Node, move: Move)
    requires LinkedFor(n, p) && (move.Line? || move.Flush?)
    ensures Progress(n, Moved(issued, n, move).1, p, 0)
  {
    if move.Line? {
      LineLinked(n, p, move.id, move.peer, move.text, move.now);
    } else {
      FlushLinked(n, p, move.peer, move.now);
    }
  }

  lemma ReceiveProgress(n: Node, p: Node, f: Frame, acks: set<Text>)
    requires LinkedFor(n, p) && f in p.frames
    ensures Progress(n, Node(HandleFrame(n.e, f).0, n.frames, acks), p, if Accepts(n.e, f) then 1 else 0)
  {
    ReceiveLinked(n, p, f, acks);
  }

  lemma ReceivingMove(issued: map<Text, (Role, string)>, n: Node, p: Node, move: Move)
    requires LinkedFor(n, p) && PossibleAt(n, p, move) && move.DeliverFrame?
    ensures Progress(n, Moved(issued, n, move).1, p, if Accepts(n.e, move.f) then 1 else 0)
  {
    var n' := Moved(issued, n, move).1;
    ReceiveProgress(n, p, move.f, n'.acks);
    assert n' == Node(HandleFrame(n.e, move.f).0, n.frames, n'.acks);
  }

  lemma MovedProgress(issued: map<Text, (Role, string)>, n: Node, p: Node, move: Move)
    requires LinkedFor(n, p) && PossibleAt(n, p, move)
    ensures Progress(n, Moved(issued, n, move).1, p, if MoveAccepts(n.e, move) then 1 else 0)
  {
    if move.DeliverFrame? {
      ReceivingMove(issued, n, p, move);
    } else if move.Line? || move.Flush? {
      SendingMove(issued, n, p, move);
    } else {
      QuietMove(issued, n, p, move);
    }
  }

  lemma LinkedWith(net: Net, who: Role, issued: map<Text, (Role, string)>, n: Node)
    requires LinkedFor(n, Of(net, Other(who)))
    ensures Linked(With(net, who, n).(issued := issued))
  {
    LinkedBothWays(With(net, who, n).(issued := issued), who);
  }

  /** Every move keeps the ends linked. */
  lemma StepLinked(net: Net, move: Move)
    requires Linked(net) && Possible(net, move) && Steady(net, move)
    ensures Linked(Apply(net, move))
  {
    var n, p := Of(net, move.who), Of(net, Other(move.who));
    LinkedBothWays(net, move.who);
    MovedProgress(net.issued, n, p, move);
    LinkedWith(net, move.who, Moved(net.issued, n, move).0, Moved(net.issued, n, move).1);
  }

  /** Sending never goes back, and a new message shown moves the receiver's edge by exactly one. */
  lemma StepCounts(net: Net, move: Move, who: Role)
    requires Linked(net) && Possible(net, move) && Steady(net, move)
    ensures Consumed(Apply(net, move), who) == Consumed(net, who) + if ShowsTo(net, move, who) then 1 else 0
    ensures SendCount(net, who) <= SendCount(Apply(net, move), who)
    ensures ShowsTo(net, move, Other(who)) ==> SendCount(Apply(net, move), who) == SendCount(net, who)
  {
    OtherUnchanged(net, move);
    if move.who == who {
      LinkedBothWays(net, who);
      MovedProgress(net.issued, Of(net, who), Of(net, Other(who)), move);
    }
  }

  // ---- Whole runs ----

  /** In every state of a steady run the ends are paired and sound, and nothing has been burned. */
  lemma {:induction false} RunLinked(nets: seq<Net>, moves: seq<Move>, i: nat)
    requires SteadyRun(nets, moves) && i <= |moves|
    ensures Linked(nets[i])
  {
    if i > 0 {
      RunLinked(nets, moves, i - 1);
      StepLinked(nets[i - 1], moves[i - 1]);
    }
  }

  /** Which steps of the run showed a message to `who`. */
  ghost function ShowFlags(nets: seq<Net>, moves: seq<Move>, who: Role): (flags: seq<bool>)
    requires |moves| <= |nets|
    ensures |flags| == |moves|
  {
    seq(|moves|, k requires 0 <= k < |moves| => ShowsTo(nets[k], moves[k], who))
  }

  ghost function CountTrue(flags: seq<bool>, i: nat, j: nat): nat
    requires i <= j <= |flags|
    decreases j
  {
    if i == j then 0 else CountTrue(flags, i, j - 1) + if flags[j - 1] then 1 else 0
  }

  /** How many messages the steps from `i` up to `j` showed to `who`. */
  ghost function ShownBetween(nets: seq<Net>, moves: seq<Move>, i: nat, j: nat, who: Role): nat
    requires i <= j <= |moves| <= |nets|
  {
    CountTrue(ShowFlags(nets, moves, who), i, j)
  }

  lemma RunStepCounts(nets: seq<Net>, moves: seq<Move>, k: nat, who: Role)
    requires SteadyRun(nets, moves) && k < |moves|
    ensures Consumed(nets[k + 1], who) == Consumed(nets[k], who) + if ShowsTo(nets[k], moves[k], who) then 1 else 0
    ensures SendCount(nets[k], who) <= SendCount(nets[k + 1], who)
    ensures ShowsTo(nets[k], moves[k], Other(who)) ==> SendCount(nets[k + 1], who) == SendCount(nets[k], who)
  {
    RunLinked(nets, moves, k);
    StepCounts(nets[k], moves[k], who);
  }

  lemma {:induction false} ChainCounts(consumed: seq<nat>, sends: seq<nat>, flags: seq<bool>, i: nat, j: nat)
    requires i <= j <= |flags| && |consumed| == |sends| == |flags| + 1
    requires forall k :: i <= k < j ==>
      consumed[k + 1] == consumed[k] + (if flags[k] then 1 else 0) && sends[k] <= sends[k + 1]
    ensures consumed[j] == consumed[i] + CountTrue(flags, i, j) && sends[i] <= sends[j]
    decreases j
  {
    if i < j {
      ChainCounts(consumed, sends, flags, i, j - 1);
    }
  }

  /** The numbers consumed are exactly the messages shown. */
  lemma RunCounts(nets: seq<Net>, moves: seq<Move>, i: nat, j: nat, who: Role)
    requires SteadyRun(nets, moves) && i <= j <= |moves|
    ensures Consumed(nets[j], who) == Consumed(nets[i], who) + ShownBetween(nets, moves, i, j, who)
    ensures SendCount(nets[i], who) <= SendCount(nets[j], who)
  {
    var consumed := seq(|nets|, k requires 0 <= k < |nets| => Consumed(nets[k], who));
    var sends := seq(|nets|, k requires 0 <= k < |nets| => SendCount(nets[k], who));
    var flags := ShowFlags(nets, moves, who);
    forall k | i <= k < j
      ensures consumed[k + 1] == consumed[k] + (if flags[k] then 1 else 0) && sends[k] <= sends[k + 1]
    {
      RunStepCounts(nets, moves, k, who);
    }
    ChainCounts(consumed, sends, flags, i, j);
  }

  /** Without burned numbers the edge of the window is eight past the consumed count. */
  lemma FitsIffWithinEdge(s: Session, number: nat)
    requires Clean(s) && number >= s.recvCount
    ensures Fits(s, number) <==> number <= MAX_SKIPPED_MESSAGE_KEYS + |s.consumed|
  {
    SessionRuns.LedgerCount(s, {});
  }

  /** What the receiver would answer if the pending message were resent now. */
  function RetryReply(net: Net, who: Role, id: Text, now: nat): (Endpoint, Reply)
    requires id in Of(net, who).e.pending
  {
    var me := Of(net, who).e;
    HandleFrame(Of(net, Other(who)).e, Resend(me, id, me.pending[id].text, now).1)
  }

  /** A transmission now would take a number within the receiver's window. */
  predicate HasRoom(net: Net, who: Role) {
    SendCount(net, who) <= MAX_SKIPPED_MESSAGE_KEYS + Consumed(net, Other(who))
  }

  lemma LinkedRetry(net: Net, who: Role, id: Text, now: nat)
    requires Linked(net) && id in Of(net, who).e.pending
    ensures var (me, peer) := (Of(net, who).e, Of(net, Other(who)).e);
      var (peer', reply) := RetryReply(net, who, id, now);
      && (reply.Ack? <==> id in peer.history || HasRoom(net, who))
      && (reply.Ack? ==> reply == Ack(id))
      && (reply.Ack? && id !in peer.history ==> StoredAs(peer', id, me.pending[id].text))
      && (!reply.Ack? ==> peer' == peer && reply == Failed(TooManySkippedMessages))
  {
    LinkedBothWays(net, who);
    var me, peer := Of(net, who).e, Of(net, Other(who)).e;
    RetryAckedIff(me, peer, id, now);
    FreshMessageOpensIff(me.session, peer.session, me.pending[id].text);
    FitsIffWithinEdge(peer.session, me.session.sendCount);
  }

  /**
   * At any point of any steady run a retry is acknowledged if and only if the receiver already has
   * the message, or the sender's transmissions are at most eight ahead of the messages shown.
   */
  lemma RetryAckedIffRoom(nets: seq<Net>, moves: seq<Move>, i: nat, who: Role, id: Text, now: nat)
    requires SteadyRun(nets, moves) && i <= |moves| && id in Of(nets[i], who).e.pending
    ensures var peer := Of(nets[i], Other(who)).e;
      var (peer', reply) := RetryReply(nets[i], who, id, now);
      && (reply.Ack? <==>
          || id in peer.history
          || SendCount(nets[i], who) <=
             MAX_SKIPPED_MESSAGE_KEYS + Consumed(nets[0], Other(who)) + ShownBetween(nets, moves, 0, i, Other(who)))
      && (reply.Ack? && id !in peer.history ==> StoredAs(peer', id, Of(nets[i], who).e.pending[id].text))
      && (!reply.Ack? ==> peer' == peer && reply == Failed(TooManySkippedMessages))
  {
    RunLinked(nets, moves, i);
    LinkedRetry(nets[i], who, id, now);
    RunCounts(nets, moves, 0, i, Other(who));
  }

  /** A frame on the wire, however late, is shown exactly when its id is new and its number still has a key. */
  lemma FrameShownIff(nets: seq<Net>, moves: seq<Move>, i: nat, who: Role, f: Frame)
    requires SteadyRun(nets, moves) && i <= |moves| && f in Of(nets[i], Other(who)).frames
    ensures var e := Of(nets[i], who).e;
      Accepts(e, f) <==> f.id !in e.history && Fits(e.session, f.message.number)
  {
    RunLinked(nets, moves, i);
    LinkedBothWays(nets[i], who);
    var n := Of(nets[i], who);
    ReceiveLinked(n, Of(nets[i], Other(who)), f, n.acks);
  }

  /**
   * How long a refusal lasts. If a transmission at `i` would be past the edge, then at any later `j`
   * a message the receiver lacks is refused, and the receiver unchanged, unless by then at least as
   * many late frames have been shown as the sender was past the edge.
   */
  lemma RefusalLasts(nets: seq<Net>, moves: seq<Move>, i: nat, j: nat, who: Role, id: Text, now: nat)
    requires SteadyRun(nets, moves) && i <= j <= |moves| && !HasRoom(nets[i], who)
    requires id in Of(nets[j], who).e.pending && id !in Of(nets[j], Other(who)).e.history
    requires ShownBetween(nets, moves, i, j, Other(who)) <
      SendCount(nets[i], who) - MAX_SKIPPED_MESSAGE_KEYS - Consumed(nets[i], Other(who))
    ensures RetryReply(nets[j], who, id, now) == (Of(nets[j], Other(who)).e, Failed(TooManySkippedMessages))
  {
    RunLinked(nets, moves, j);
    RunCounts(nets, moves, i, j, who);
    RunCounts(nets, moves, i, j, Other(who));
    LinkedRetry(nets[j], who, id, now);
  }

  lemma EdgeMoves(nets: seq<Net>, moves: seq<Move>, i: nat, who: Role)
    requires SteadyRun(nets, moves) && i < |moves| && ShowsTo(nets[i], moves[i], Other(who))
    requires SendCount(nets[i], who) == MAX_SKIPPED_MESSAGE_KEYS + Consumed(nets[i], Other(who)) + 1
    ensures !HasRoom(nets[i], who) && HasRoom(nets[i + 1], who) && Linked(nets[i + 1])
  {
    RunStepCounts(nets, moves, i, Other(who));
    RunStepCounts(nets, moves, i, who);
    RunLinked(nets, moves, i + 1);
  }

  /** One late frame moves the edge by one: if that is enough and nothing else was sent, every retry gets through. */
  lemma LateFrameReopens(nets: seq<Net>, moves: seq<Move>, i: nat, who: Role, id: Text, now: nat)
    requires SteadyRun(nets, moves) && i < |moves| && ShowsTo(nets[i], moves[i], Other(who))
    requires SendCount(nets[i], who) == MAX_SKIPPED_MESSAGE_KEYS + Consumed(nets[i], Other(who)) + 1
    requires id in Of(nets[i + 1], who).e.pending
    ensures !HasRoom(nets[i], who) && RetryReply(nets[i + 1], who, id, now).1 == Ack(id)
  {
    EdgeMoves(nets, moves, i, who);
    LinkedRetry(nets[i + 1], who, id, now);
  }

  /** A rotation by the sender, which no chat handler performs, always lets the next retry through. */
  lemma RotationUnblocks(nets: seq<Net>, moves: seq<Move>, i: nat, who: Role, id: Text, generated: Secret, now: nat)
    requires SteadyRun(nets, moves) && i <= |moves| && id in Of(nets[i], who).e.pending
    requires generated != Of(nets[i], who).e.session.dh
    ensures var me := Of(nets[i], who).e;
      var rotated := me.(session := Rotate(me.session, generated));
      var f := Resend(rotated, id, me.pending[id].text, now).1;
      var (peer, (peer', reply)) := (Of(nets[i], Other(who)).e, HandleFrame(Of(nets[i], Other(who)).e, f));
      reply == Ack(id) && (id !in peer.history ==> StoredAs(peer', id, me.pending[id].text))
  {
    RunLinked(nets, moves, i);
    LinkedBothWays(nets[i], who);
    var me, peer := Of(nets[i], who).e, Of(nets[i], Other(who)).e;
    RatchetSound(me.session.(dh := generated), Dh(generated, me.session.peer));
    PairedRuns.RotateGoesAhead(me.session, peer.session, generated);
    RetryAckedIff(me.(session := Rotate(me.session, generated)), peer, id, now);
  }

  // ---- A run that reaches a refusal ----

  /** An id longer than any issued before, the `k`-th of its kind. */
  function LineId(base: nat, k: nat): Text {
    seq(base + k, _ => 0)
  }

  function LostLine(base: nat, k: nat): Move {
    Line(Alice, LineId(base, k), [], "", 0)
  }

  /** Every id issued so far is shorter than `n`. */
  ghost predicate IdsBelow(net: Net, n: nat) {
    forall id :: id in net.issued ==> |id| < n
  }

  ghost predicate LostLines(nets: seq<Net>, moves: seq<Move>, base: nat) {
    && Steps(nets, moves) && Inv(nets[0]) && IdsBelow(nets[0], base)
    && forall k :: 0 <= k < |moves| ==> moves[k] == LostLine(base, k)
  }

  /** The frame that carries the first line. */
  ghost function FirstLine(start: Net, base: nat): Frame {
    SendLine(start.alice.e, LineId(base, 0), [], "", 0).1
  }

  lemma {:induction false} LostLinesLaw(nets: seq<Net>, moves: seq<Move>, base: nat, i: nat)
    requires LostLines(nets, moves, base) && i <= |moves|
    ensures var net := nets[i];
      && net.bob == nets[0].bob
      && SendCount(net, Alice) == SendCount(nets[0], Alice) + i
      && IdsBelow(net, base + i)
      && (i > 0 ==> LineId(base, 0) in net.alice.e.pending)
      && (i > 0 ==> FirstLine(nets[0], base) in net.alice.frames)
  {
    if i > 0 {
      LostLinesLaw(nets, moves, base, i - 1);
      StepsInv(nets, moves, i - 1);
      assert nets[i] == Apply(nets[i - 1], LostLine(base, i - 1));
      NewRowName(nets[i - 1], LostLine(base, i - 1));
    }
  }

  lemma StepsExtend(nets: seq<Net>, moves: seq<Move>, move: Move)
    requires Steps(nets, moves) && Possible(nets[|moves|], move)
    ensures Steps(nets + [Apply(nets[|moves|], move)], moves + [move])
  {
    var nets', moves' := nets + [Apply(nets[|moves|], move)], moves + [move];
    assert forall i :: 0 <= i <= |moves| ==> nets'[i] == nets[i];
  }

  lemma OneMoreLost(nets: seq<Net>, moves: seq<Move>, base: nat)
    requires LostLines(nets, moves, base)
    ensures var n := |moves|;
      LostLines(nets + [Apply(nets[n], LostLine(base, n))], moves + [LostLine(base, n)], base)
  {
    LostLinesLaw(nets, moves, base, |moves|);
    StepsExtend(nets, moves, LostLine(base, |moves|));
  }

  /** Any number of lines can be typed and lost. */
  lemma {:induction false} LostLinesExist(start: Net, base: nat, n: nat) returns (nets: seq<Net>, moves: seq<Move>)
    requires Inv(start) && IdsBelow(start, base)
    ensures LostLines(nets, moves, base) && nets[0] == start && |moves| == n
  {
    nets, moves := [start], [];
    if n > 0 {
      nets, moves := LostLinesExist(start, base, n - 1);
      OneMoreLost(nets, moves, base);
      nets, moves := nets + [Apply(nets[n - 1], LostLine(base, n - 1))], moves + [LostLine(base, n - 1)];
    }
  }

  /** There is always a length beyond that of every id issued so far. */
  lemma {:induction false} SomeBase(ids: set<Text>) returns (base: nat)
    ensures forall id :: id in ids ==> |id| < base
  {
    base := 0;
    if ids != {} {
      var one :| one in ids;
      base := SomeBase(ids - {one});
      base := if |one| < base then base else |one| + 1;
    }
  }

  /** An id that nobody has issued is in nobody's history. */
  lemma UnissuedUnknown(net: Net, id: Text)
    requires Inv(net) && id !in net.issued
    ensures id !in net.bob.e.history
  {
  }

  /** From any chat start: nine lines that are all lost leave every message the receiver lacks refused. */
  lemma NineLostLinesBlock(start: Net, base: nat, now: nat) returns (nets: seq<Net>, moves: seq<Move>)
    requires Inv(start) && Linked(start) && Level(start, Alice) && IdsBelow(start, base)
    ensures SteadyRun(nets, moves) && LostLines(nets, moves, base) && nets[0] == start && |moves| == 9
    ensures SendCount(nets[9], Alice) == 9 + Consumed(nets[9], Bob)
    ensures LineId(base, 0) in nets[9].alice.e.pending
    ensures RetryReply(nets[9], Alice, LineId(base, 0), now) == (start.bob.e, Failed(TooManySkippedMessages))
  {
    nets, moves := LostLinesExist(start, base, 9);
    LostLinesLaw(nets, moves, base, 9);
    UnissuedUnknown(start, LineId(base, 0));
    RunLinked(nets, moves, 9);
    LinkedRetry(nets[9], Alice, LineId(base, 0), now);
  }

  /** The first frame of a level sender has the number the receiver expects next. */
  lemma LevelFits(s: Session, number: nat)
    requires Clean(s) && number == |s.consumed| && number >= s.recvCount
    ensures Fits(s, number)
  {
    FitsIffWithinEdge(s, number);
  }

  lemma FirstLineShown(nets: seq<Net>, moves: seq<Move>, base: nat)
    requires SteadyRun(nets, moves) && LostLines(nets, moves, base) && |moves| > 0 && Level(nets[0], Alice)
    ensures FirstLine(nets[0], base) in nets[|moves|].alice.frames
    ensures Accepts(nets[|moves|].bob.e, FirstLine(nets[0], base))
  {
    LostLinesLaw(nets, moves, base, |moves|);
    FrameShownIff(nets, moves, |moves|, Bob, FirstLine(nets[0], base));
    UnissuedUnknown(nets[0], LineId(base, 0));
    LevelFits(nets[0].bob.e.session, SendCount(nets[0], Alice));
  }

  lemma SteadyExtends(nets: seq<Net>, moves: seq<Move>, move: Move)
    requires SteadyRun(nets, moves) && Possible(nets[|moves|], move) && Steady(nets[|moves|], move)
    ensures SteadyRun(nets + [Apply(nets[|moves|], move)], moves + [move])
  {
    StepsExtend(nets, moves, move);
    var nets', moves' := nets + [Apply(nets[|moves|], move)], moves + [move];
    assert forall i :: 0 <= i <= |moves| ==> nets'[i] == nets[i];
  }

  /** The same run, one step longer: when the first line arrives after all, the window has room again. */
  lemma LateFirstLineReopens(start: Net, base: nat, now: nat) returns (nets: seq<Net>, moves: seq<Move>)
    requires Inv(start) && Linked(start) && Level(start, Alice) && IdsBelow(start, base)
    ensures SteadyRun(nets, moves) && nets[0] == start && |moves| == 10
    ensures !HasRoom(nets[9], Alice) && HasRoom(nets[10], Alice)
  {
    nets, moves := NineLostLinesBlock(start, base, now);
    FirstLineShown(nets, moves, base);
    var late := DeliverFrame(Bob, FirstLine(start, base));
    SteadyExtends(nets, moves, late);
    nets, moves := nets + [Apply(nets[9], late)], moves + [late];
    EdgeMoves(nets, moves, 9, Alice);
  }
}
