/**
 * Reliable chat delivery between two endpoints: a pending queue, resending with a new encryption,
 * deduplication by message id, and acknowledgements, over a network that loses, repeats and reorders.
 */
module Delivery {
  import opened Bytes
  import opened Wrappers
  import opened Sorting
  import opened SymbolicCrypto
  import opened Ratchet
  import PairedRuns

  datatype Frame = Frame(id: Text, message: Message)

  datatype Side = Outgoing | Incoming

  datatype MessageStatus = StatusStored | StatusSent | StatusReceived

  datatype HistoryRow = HistoryRow(side: Side, status: MessageStatus, number: Option<nat>, text: string)

  datatype PendingRow = PendingRow(
    peer: Text, text: string, createdAt: nat, retries: nat, lastAttempt: Option<nat>)

  /** The persistent state of one endpoint: the saved session, the message table and the pending table. */
  datatype Endpoint = Endpoint(session: Session, history: map<Text, HistoryRow>, pending: map<Text, PendingRow>)

  datatype Reply = Ack(id: Text) | Failed(error: CryptoError)

  /** `INSERT OR IGNORE`. */
  function InsertMessage(history: map<Text, HistoryRow>, id: Text, row: HistoryRow): map<Text, HistoryRow> {
    if id in history then history else history[id := row]
  }

  function TrackPending(e: Endpoint, id: Text, peer: Text, text: string, now: nat): Endpoint {
    if id in e.pending then e else e.(pending := e.pending[id := PendingRow(peer, text, now, 0, None)])
  }

  /** The peer is offline: the message is queued and kept in the history as stored. */
  function QueueOffline(e: Endpoint, id: Text, peer: Text, text: string, now: nat): Endpoint {
    var queued := TrackPending(e, id, peer, text, now);
    queued.(history := InsertMessage(queued.history, id, HistoryRow(Outgoing, StatusStored, None, text)))
  }

  /** Encrypts under the next key, saves the session, and keeps the message in the history. */
  function PrepareFrame(e: Endpoint, id: Text, text: string): (Endpoint, Frame) {
    var (s, m) := Encrypt(e.session, text);
    var history := InsertMessage(e.history, id, HistoryRow(Outgoing, StatusSent, None, text));
    (e.(session := s, history := history), Frame(id, m))
  }

  /** The peer is online: the message is sent at once and tracked until acknowledged. */
  function SendLine(e: Endpoint, id: Text, peer: Text, text: string, now: nat): (Endpoint, Frame) {
    var (sent, f) := PrepareFrame(e, id, text);
    (TrackPending(sent, id, peer, text, now), f)
  }

  function RecordAttempt(e: Endpoint, id: Text, now: nat): Endpoint {
    if id in e.pending
    then e.(pending := e.pending[id := e.pending[id].(retries := e.pending[id].retries + 1, lastAttempt := Some(now))])
    else e
  }

  function Resend(e: Endpoint, id: Text, text: string, now: nat): (Endpoint, Frame) {
    PrepareFrame(RecordAttempt(e, id, now), id, text)
  }

  /** The pending rows for a peer, oldest first. */
  function PendingFor(pending: map<Text, PendingRow>, peer: Text): (keys: seq<TimedKey>)
    ensures forall k :: k in keys ==>
      k.id in pending && pending[k.id].peer == peer && pending[k.id].createdAt == k.createdAt
    ensures Ascending(keys, TimedLe)
    ensures forall id :: id in pending && pending[id].peer == peer ==> TimedKey(pending[id].createdAt, id) in keys
  {
    TimedOrder();
    var due := set id | id in pending && pending[id].peer == peer :: TimedKey(pending[id].createdAt, id);
    assert forall id :: id in pending && pending[id].peer == peer ==> TimedKey(pending[id].createdAt, id) in due;
    Sorted(due, TimedLe)
  }

  /** Resends the first `n` of the listed rows, each under a new message key. */
  function ResendFirst(e: Endpoint, keys: seq<TimedKey>, n: nat, now: nat): (Endpoint, seq<Frame>)
    requires n <= |keys| && forall k :: k in keys ==> k.id in e.pending
  {
    if n == 0 then (e, [])
    else
      var (before, frames) := ResendFirst(e, keys, n - 1, now);
      var (after, f) := Resend(before, keys[n - 1].id, e.pending[keys[n - 1].id].text, now);
      (after, frames + [f])
  }

  function SendPending(e: Endpoint, peer: Text, now: nat): (Endpoint, seq<Frame>) {
    var keys := PendingFor(e.pending, peer);
    ResendFirst(e, keys, |keys|, now)
  }

  /**
   * An incoming frame: a known id is only acknowledged; otherwise the message is decrypted, and on
   * success the session and the row are saved before the acknowledgement. A failure ends the chat
   * before anything is saved, so the endpoint is left as it was.
   */
  function HandleFrame(e: Endpoint, f: Frame): (Endpoint, Reply) {
    if f.id in e.history then (e, Ack(f.id))
    else
      var (s, r) := Decrypt(e.session, f.message);
      match r
      case Err(error) => (e, Failed(error))
      case Ok(text) =>
        var row := HistoryRow(Incoming, StatusReceived, Some(f.message.number), text);
        (e.(session := s, history := InsertMessage(e.history, f.id, row)), Ack(f.id))
  }

  function HandleAck(e: Endpoint, id: Text): Endpoint {
    Endpoint(e.session,
             if id in e.history then e.history[id := e.history[id].(status := StatusSent)] else e.history,
             e.pending - {id})
  }

  class ChatEndpoint {
    var session: Session
    var history: map<Text, HistoryRow>
    var pending: map<Text, PendingRow>

    function View(): Endpoint
      reads this
    {
      Endpoint(session, history, pending)
    }

    constructor (session: Session)
      ensures View() == Endpoint(session, map[], map[])
    {
      this.session, history, pending := session, map[], map[];
    }

    method QueueOfflineMessage(id: Text, peer: Text, text: string, now: nat)
      modifies this
      ensures View() == QueueOffline(old(View()), id, peer, text, now)
    {
      if id !in pending {
        pending := pending[id := PendingRow(peer, text, now, 0, None)];
      }
      if id !in history {
        history := history[id := HistoryRow(Outgoing, StatusStored, None, text)];
      }
    }

    method Prepare(id: Text, text: string) returns (f: Frame)
      modifies this`session, this`history
      ensures (View(), f) == PrepareFrame(old(View()), id, text)
    {
      var (s, m) := Encrypt(session, text);
      session := s;
      if id !in history {
        history := history[id := HistoryRow(Outgoing, StatusSent, None, text)];
      }
      f := Frame(id, m);
    }

    method RecordPendingAttempt(id: Text, now: nat)
      modifies this`pending
      ensures View() == RecordAttempt(old(View()), id, now)
    {
      if id in pending {
        pending := pending[id := pending[id].(retries := pending[id].retries + 1, lastAttempt := Some(now))];
      }
    }

    method SendPendingTo(peer: Text, now: nat) returns (frames: seq<Frame>)
      modifies this
      ensures (View(), frames) == SendPending(old(View()), peer, now)
    {
      var items := pending;
      var keys := PendingFor(items, peer);
      frames := [];
      for i := 0 to |keys|
        invariant (View(), frames) == ResendFirst(old(View()), keys, i, now)
      {
        assert keys[i] in keys;
        RecordPendingAttempt(keys[i].id, now);
        var f := Prepare(keys[i].id, items[keys[i].id].text);
        frames := frames + [f];
      }
    }

    method OnFrame(f: Frame) returns (reply: Reply)
      modifies this
      ensures (View(), reply) == HandleFrame(old(View()), f)
    {
      if f.id !in history {
        var (s, r) := Decrypt(session, f.message);
        if r.Err? {
          return Failed(r.error);
        }
        session := s;
        history := history[f.id := HistoryRow(Incoming, StatusReceived, Some(f.message.number), r.value)];
      }
      return Ack(f.id);
    }

    method OnAck(id: Text)
      modifies this
      ensures View() == HandleAck(old(View()), id)
    {
      pending := pending - {id};
      if id in history {
        history := history[id := history[id].(status := StatusSent)];
      }
    }
  }

  // ---- The two-endpoint system ----

  /** One endpoint with everything it ever put on the wire; the network may deliver any of it, any number of times. */
  datatype Node = Node(e: Endpoint, frames: set<Frame>, acks: set<Text>)

  /** Both nodes, and what each id was queued with and by whom. */
  datatype Net = Net(alice: Node, bob: Node, issued: map<Text, (Role, string)>)

  datatype Move =
    | Queue(who: Role, id: Text, peer: Text, text: string, now: nat)
    | Line(who: Role, id: Text, peer: Text, text: string, now: nat)
    | Flush(who: Role, peer: Text, now: nat)
    | DeliverFrame(who: Role, f: Frame)
    | DeliverAck(who: Role, id: Text)
    | Reload(who: Role, session: Session)

  function Of(net: Net, who: Role): Node {
    if who.Alice? then net.alice else net.bob
  }

  function With(net: Net, who: Role, n: Node): Net {
    if who.Alice? then net.(alice := n) else net.(bob := n)
  }

  /** New messages get new ids, and only what was sent can arrive. */
  predicate Possible(net: Net, move: Move) {
    match move
    case Queue(_, id, _, _, _) => id !in net.issued
    case Line(_, id, _, _, _) => id !in net.issued
    case Flush(_, _, _) => true
    case DeliverFrame(who, f) => f in Of(net, Other(who)).frames
    case DeliverAck(who, id) => id in Of(net, Other(who)).acks
    case Reload(_, _) => true
  }

  /** What a move does at the node that makes it. */
  function Moved(issued: map<Text, (Role, string)>, n: Node, move: Move): (map<Text, (Role, string)>, Node) {
    match move
    case Queue(who, id, peer, text, now) =>
      (issued[id := (who, text)], n.(e := QueueOffline(n.e, id, peer, text, now)))
    case Line(who, id, peer, text, now) =>
      var (e, f) := SendLine(n.e, id, peer, text, now);
      (issued[id := (who, text)], n.(e := e, frames := n.frames + {f}))
    case Flush(_, peer, now) =>
      var (e, fs) := SendPending(n.e, peer, now);
      (issued, n.(e := e, frames := n.frames + set f | f in fs))
    case DeliverFrame(_, f) =>
      var (e, reply) := HandleFrame(n.e, f);
      (issued, n.(e := e, acks := if reply.Ack? then n.acks + {reply.id} else n.acks))
    case DeliverAck(_, id) => (issued, n.(e := HandleAck(n.e, id)))
    case Reload(_, session) => (issued, n.(e := n.e.(session := session)))
  }

  function Apply(net: Net, move: Move): Net {
    var (issued, n) := Moved(net.issued, Of(net, move.who), move);
    With(net, move.who, n).(issued := issued)
  }

  /** Each state follows from the one before by a possible move. */
  ghost predicate Steps(nets: seq<Net>, moves: seq<Move>) {
    && |nets| == |moves| + 1
    && forall i :: 0 <= i < |moves| ==> Possible(nets[i], moves[i]) && nets[i + 1] == Apply(nets[i], moves[i])
  }

  ghost predicate IsRun(nets: seq<Net>, moves: seq<Move>) {
    Steps(nets, moves) && Initial(nets[0])
  }

  ghost predicate Initial(net: Net) {
    && net.issued == map[]
    && EmptyNode(net.alice) && EmptyNode(net.bob)
  }

  ghost predicate EmptyNode(n: Node) {
    n.e.history == map[] && n.e.pending == map[] && n.frames == {} && n.acks == {}
  }

  // ---- The invariant, one direction at a time ----

  /** The id was queued by this role with this text. */
  predicate IssuedAs(issued: map<Text, (Role, string)>, id: Text, who: Role, text: string) {
    id in issued && issued[id] == (who, text)
  }

  predicate StoredAs(e: Endpoint, id: Text, text: string) {
    id in e.history && e.history[id].side == Incoming && e.history[id].text == text
  }

  /** Every frame carries the text its id was queued with. */
  ghost predicate FramesTrue(issued: map<Text, (Role, string)>, frames: set<Frame>, who: Role) {
    forall f :: f in frames ==>
      && f.message.ciphertext.Sealed? && f.message.ciphertext.body.Utf8Text?
      && IssuedAs(issued, f.id, who, f.message.ciphertext.body.text)
  }

  /** Rows for own ids are outgoing; rows for the peer's ids are incoming, with the queued text. */
  ghost predicate HistoryTrue(issued: map<Text, (Role, string)>, e: Endpoint, who: Role) {
    forall id :: id in e.history ==>
      && id in issued
      && (if issued[id].0 == who then e.history[id].side == Outgoing else StoredAs(e, id, issued[id].1))
  }

  ghost predicate PendingTrue(issued: map<Text, (Role, string)>, e: Endpoint, who: Role) {
    forall id :: id in e.pending ==> (id in e.history && IssuedAs(issued, id, who, e.pending[id].text))
  }

  /** Every acknowledgement that `peer` put on the wire is for an id of `who` that `peer` has stored. */
  ghost predicate AcksTrue(issued: map<Text, (Role, string)>, peer: Node, who: Role) {
    forall id :: id in peer.acks ==> (id in issued && issued[id].0 == who && StoredAs(peer.e, id, issued[id].1))
  }

  /** An id leaves the pending table only once the peer has stored it. */
  ghost predicate NothingLost(issued: map<Text, (Role, string)>, n: Node, peer: Node, who: Role) {
    forall id :: id in issued && issued[id].0 == who ==> id in n.e.pending || StoredAs(peer.e, id, issued[id].1)
  }

  ghost predicate Half(issued: map<Text, (Role, string)>, n: Node, peer: Node, who: Role) {
    && FramesTrue(issued, n.frames, who)
    && HistoryTrue(issued, n.e, who)
    && PendingTrue(issued, n.e, who)
    && AcksTrue(issued, peer, who)
    && NothingLost(issued, n, peer, who)
  }

  ghost predicate Inv(net: Net) {
    && Half(net.issued, net.alice, net.bob, Alice)
    && Half(net.issued, net.bob, net.alice, Bob)
  }

  ghost predicate Both(issued: map<Text, (Role, string)>, n: Node, peer: Node, who: Role) {
    Half(issued, n, peer, who) && Half(issued, peer, n, Other(who))
  }

  /** Rows stay, with their side and text; only a status may change. */
  ghost predicate Keeps(e: Endpoint, e': Endpoint) {
    forall id :: id in e.history ==>
      id in e'.history && e'.history[id].side == e.history[id].side && e'.history[id].text == e.history[id].text
  }

  /** What a change at one node must guarantee for the peer's half. */
  lemma PeerHalfKept(issued: map<Text, (Role, string)>, n: Node, n': Node, peer: Node, who: Role)
    requires Half(issued, peer, n, Other(who)) && Keeps(n.e, n'.e) && n'.acks == n.acks
    ensures Half(issued, peer, n', Other(who))
  {
  }

  // ---- Each move ----

  /** A new id is in nobody's tables yet. */
  lemma IssueKeeps(issued: map<Text, (Role, string)>, n: Node, peer: Node, who: Role, id: Text, text: string)
    requires Both(issued, n, peer, who) && id !in issued
    ensures id !in n.e.history && id !in n.e.pending && id !in peer.e.history
    ensures var more := issued[id := (who, text)];
      && FramesTrue(more, n.frames, who) && HistoryTrue(more, n.e, who)
      && PendingTrue(more, n.e, who) && AcksTrue(more, peer, who)
      && (forall k :: k in more && more[k].0 == who && k != id ==> k in n.e.pending || StoredAs(peer.e, k, more[k].1))
      && Half(more, peer, n, Other(who))
  {
  }

  /** Queueing a new id, with or without sending it, leaves it pending and outgoing. */
  lemma NewMessageKeeps(issued: map<Text, (Role, string)>, n: Node, n': Node, peer: Node, who: Role,
                        id: Text, text: string)
    requires Both(issued, n, peer, who) && id !in issued
    requires exists row :: n'.e.pending == n.e.pending[id := row] && row.text == text
    requires exists row :: n'.e.history == n.e.history[id := row] && row.side == Outgoing
    requires n'.acks == n.acks && forall f :: f in n'.frames ==>
      f in n.frames || Carries(f, id, text)
    ensures Both(issued[id := (who, text)], n', peer, who)
  {
    IssueKeeps(issued, n, peer, who, id, text);
    PeerHalfKept(issued[id := (who, text)], n, n', peer, who);
  }

  lemma QueueKeeps(issued: map<Text, (Role, string)>, n: Node, peer: Node, who: Role, m: Move)
    requires Both(issued, n, peer, who) && m.Queue? && m.id !in issued
    ensures Both(issued[m.id := (who, m.text)], n.(e := QueueOffline(n.e, m.id, m.peer, m.text, m.now)), peer, who)
  {
    IssueKeeps(issued, n, peer, who, m.id, m.text);
    var n' := n.(e := QueueOffline(n.e, m.id, m.peer, m.text, m.now));
    assert n'.e.pending == n.e.pending[m.id := PendingRow(m.peer, m.text, m.now, 0, None)];
    assert n'.e.history == n.e.history[m.id := HistoryRow(Outgoing, StatusStored, None, m.text)];
    NewMessageKeeps(issued, n, n', peer, who, m.id, m.text);
  }

  lemma LineKeeps(issued: map<Text, (Role, string)>, n: Node, peer: Node, who: Role, m: Move)
    requires Both(issued, n, peer, who) && m.Line? && m.id !in issued
    ensures var (e, f) := SendLine(n.e, m.id, m.peer, m.text, m.now);
      Both(issued[m.id := (who, m.text)], n.(e := e, frames := n.frames + {f}), peer, who)
  {
    IssueKeeps(issued, n, peer, who, m.id, m.text);
    var (e, f) := SendLine(n.e, m.id, m.peer, m.text, m.now);
    var n' := n.(e := e, frames := n.frames + {f});
    assert n'.e.pending == n.e.pending[m.id := PendingRow(m.peer, m.text, m.now, 0, None)];
    assert n'.e.history == n.e.history[m.id := HistoryRow(Outgoing, StatusSent, None, m.text)];
    NewMessageKeeps(issued, n, n', peer, who, m.id, m.text);
  }

  /** Only the session and attempt counts of pending rows may differ. */
  ghost predicate Attempted(e: Endpoint, e': Endpoint) {
    && e'.history == e.history
    && e'.pending.Keys == e.pending.Keys
    && (forall id :: id in e.pending ==> SameRow(e.pending[id], e'.pending[id]))
  }

  predicate SameRow(r: PendingRow, r': PendingRow) {
    r'.peer == r.peer && r'.text == r.text && r'.createdAt == r.createdAt
  }

  predicate Carries(f: Frame, id: Text, text: string) {
    f.id == id && f.message.ciphertext.Sealed? && f.message.ciphertext.body == Utf8Text(text)
  }

  lemma ResendOne(e: Endpoint, id: Text, text: string, now: nat)
    requires id in e.pending && id in e.history
    ensures Attempted(e, Resend(e, id, text, now).0)
    ensures Carries(Resend(e, id, text, now).1, id, text)
  {
  }

  lemma AttemptedTwice(e: Endpoint, e1: Endpoint, e2: Endpoint)
    requires Attempted(e, e1) && Attempted(e1, e2)
    ensures Attempted(e, e2)
  {
    assert forall id :: id in e.pending <==> id in e1.pending;
  }

  /** The frames so far are those of the rows so far. */
  ghost predicate CarriesRows(frames: seq<Frame>, keys: seq<TimedKey>, e: Endpoint) {
    && |frames| <= |keys|
    && forall i :: 0 <= i < |frames| ==>
      keys[i].id in e.pending && Carries(frames[i], keys[i].id, e.pending[keys[i].id].text)
  }

  lemma CarriesNext(frames: seq<Frame>, f: Frame, keys: seq<TimedKey>, e: Endpoint)
    requires CarriesRows(frames, keys, e) && |frames| < |keys| && keys[|frames|].id in e.pending
    requires Carries(f, keys[|frames|].id, e.pending[keys[|frames|].id].text)
    ensures CarriesRows(frames + [f], keys, e)
  {
  }

  /** Resending any number of rows: the same ids stay pending with their texts, and every frame is true to its row. */
  lemma {:induction false} ResendLaw(e: Endpoint, keys: seq<TimedKey>, n: nat, now: nat)
    requires n <= |keys| && forall k :: k in keys ==> k.id in e.pending
    requires forall id :: id in e.pending ==> id in e.history
    ensures var (e', frames) := ResendFirst(e, keys, n, now);
      Attempted(e, e') && |frames| == n && CarriesRows(frames, keys, e)
  {
    if n > 0 {
      ResendLaw(e, keys, n - 1, now);
      var id := keys[n - 1].id;
      assert keys[n - 1] in keys;
      var (before, frames) := ResendFirst(e, keys, n - 1, now);
      var (after, f) := Resend(before, id, e.pending[id].text, now);
      ResendOne(before, id, e.pending[id].text, now);
      AttemptedTwice(e, before, after);
      CarriesNext(frames, f, keys, e);
    }
  }

  lemma SendPendingLaw(e: Endpoint, peer: Text, now: nat)
    requires forall id :: id in e.pending ==> id in e.history
    ensures var (e', frames) := SendPending(e, peer, now);
      && Attempted(e, e')
      && (forall f :: f in frames ==> f.id in e.pending && Carries(f, f.id, e.pending[f.id].text))
  {
    var keys := PendingFor(e.pending, peer);
    ResendLaw(e, keys, |keys|, now);
    assert forall i :: 0 <= i < |keys| ==> keys[i] in keys;
  }

  /** Every resend takes the next message number. */
  lemma {:induction false} ResendNumbers(e: Endpoint, keys: seq<TimedKey>, n: nat, now: nat)
    requires n <= |keys| && forall k :: k in keys ==> k.id in e.pending
    ensures var (e', frames) := ResendFirst(e, keys, n, now);
      && |frames| == n && e'.session.sendCount == e.session.sendCount + n
      && forall i :: 0 <= i < n ==> frames[i].message.number == e.session.sendCount + i
  {
    if n > 0 {
      ResendNumbers(e, keys, n - 1, now);
    }
  }

  /** One of the frames is for this id. */
  ghost predicate Sends(frames: seq<Frame>, id: Text) {
    exists i :: 0 <= i < |frames| && frames[i].id == id
  }

  /** Frames in step with the listed rows cover exactly the peer's pending ids. */
  lemma FramesCover(pending: map<Text, PendingRow>, peer: Text, frames: seq<Frame>, id: Text)
    requires var keys := PendingFor(pending, peer);
      |frames| == |keys| && forall i :: 0 <= i < |keys| ==> frames[i].id == keys[i].id
    ensures Sends(frames, id) <==> id in pending && pending[id].peer == peer
  {
    var keys := PendingFor(pending, peer);
    assert forall i :: 0 <= i < |keys| ==> keys[i] in keys;
    if id in pending && pending[id].peer == peer {
      var i :| 0 <= i < |keys| && keys[i] == TimedKey(pending[id].createdAt, id);
      assert frames[i].id == id;
    }
  }

  lemma FramesOrdered(pending: map<Text, PendingRow>, peer: Text, frames: seq<Frame>, i: nat, j: nat)
    requires var keys := PendingFor(pending, peer);
      |frames| == |keys| && forall i :: 0 <= i < |keys| ==> frames[i].id == keys[i].id
    requires i < j < |frames|
    ensures frames[i].id in pending && frames[j].id in pending && frames[i].id != frames[j].id
    ensures pending[frames[i].id].createdAt <= pending[frames[j].id].createdAt
    ensures pending[frames[i].id].createdAt == pending[frames[j].id].createdAt ==> LexLe(frames[i].id, frames[j].id)
  {
    var keys := PendingFor(pending, peer);
    assert keys[i] in keys && keys[j] in keys;
    assert TimedLe(keys[i], keys[j]) && keys[i] != keys[j];
  }

  lemma FlushInStep(e: Endpoint, peer: Text, now: nat)
    requires forall id :: id in e.pending ==> id in e.history
    ensures var keys, frames := PendingFor(e.pending, peer), SendPending(e, peer, now).1;
      && |frames| == |keys|
      && (forall i :: 0 <= i < |keys| ==> frames[i].id == keys[i].id)
      && (forall i :: 0 <= i < |keys| ==> frames[i].message.number == e.session.sendCount + i)
  {
    var keys := PendingFor(e.pending, peer);
    ResendLaw(e, keys, |keys|, now);
    ResendNumbers(e, keys, |keys|, now);
  }

  /** One flush: each pending row of the peer once, oldest first, each re-encrypted under the next number. */
  lemma FlushLaw(e: Endpoint, peer: Text, now: nat)
    requires forall id :: id in e.pending ==> id in e.history
    ensures var frames := SendPending(e, peer, now).1;
      && (forall id :: id in e.pending && e.pending[id].peer == peer <==> Sends(frames, id))
      && (forall i, j :: 0 <= i < j < |frames| ==>
            && frames[i].id in e.pending && frames[j].id in e.pending && frames[i].id != frames[j].id
            && e.pending[frames[i].id].createdAt <= e.pending[frames[j].id].createdAt
            && (e.pending[frames[i].id].createdAt == e.pending[frames[j].id].createdAt ==>
                  LexLe(frames[i].id, frames[j].id)))
      && (forall i :: 0 <= i < |frames| ==> frames[i].message.number == e.session.sendCount + i)
  {
    FlushInStep(e, peer, now);
    var frames := SendPending(e, peer, now).1;
    forall id
      ensures Sends(frames, id) <==> id in e.pending && e.pending[id].peer == peer
    {
      FramesCover(e.pending, peer, frames, id);
    }
    forall i, j | 0 <= i < j < |frames|
      ensures frames[i].id in e.pending && frames[j].id in e.pending && frames[i].id != frames[j].id
      ensures e.pending[frames[i].id].createdAt <= e.pending[frames[j].id].createdAt
      ensures e.pending[frames[i].id].createdAt == e.pending[frames[j].id].createdAt ==>
        LexLe(frames[i].id, frames[j].id)
    {
      FramesOrdered(e.pending, peer, frames, i, j);
    }
  }

  /** More true frames for pending rows, and new attempt counts, keep everything. */
  lemma AttemptsKeep(issued: map<Text, (Role, string)>, n: Node, n': Node, peer: Node, who: Role)
    requires Both(issued, n, peer, who)
    requires Attempted(n.e, n'.e) && n'.acks == n.acks
    requires forall f :: f in n'.frames && f !in n.frames ==>
      f.id in n.e.pending && Carries(f, f.id, n.e.pending[f.id].text)
    ensures Both(issued, n', peer, who)
  {
    PeerHalfKept(issued, n, n', peer, who);
    assert forall id :: id in n'.e.pending <==> id in n.e.pending;
    assert FramesTrue(issued, n'.frames, who);
  }

  lemma FlushKeeps(issued: map<Text, (Role, string)>, n: Node, peer: Node, who: Role, to: Text, now: nat)
    requires Both(issued, n, peer, who)
    ensures var (e, fs) := SendPending(n.e, to, now);
      Both(issued, n.(e := e, frames := n.frames + set f | f in fs), peer, who)
  {
    assert PendingTrue(issued, n.e, who);
    SendPendingLaw(n.e, to, now);
    var (e, fs) := SendPending(n.e, to, now);
    AttemptsKeep(issued, n, n.(e := e, frames := n.frames + set f | f in fs), peer, who);
  }

  /** Whatever the session, a decrypted text is the text that was sealed. */
  lemma DecryptedIsSealed(s: Session, m: Message)
    ensures Decrypt(s, m).1.Ok? ==> m.ciphertext.Sealed? && m.ciphertext.body == Utf8Text(Decrypt(s, m).1.value)
  {
  }

  /** A genuine frame, first or repeated: it is acknowledged exactly when its id is then stored with its text. */
  lemma HandleFrameLaw(issued: map<Text, (Role, string)>, e: Endpoint, who: Role, f: Frame)
    requires HistoryTrue(issued, e, who) && FramesTrue(issued, {f}, Other(who))
    ensures var (e', reply) := HandleFrame(e, f);
      && Keeps(e, e') && e'.pending == e.pending
      && HistoryTrue(issued, e', who)
      && (if reply.Ack? then reply.id == f.id && StoredAs(e', f.id, issued[f.id].1) else e' == e && f.id !in e.history)
  {
    DecryptedIsSealed(e.session, f.message);
    assert f in {f};
  }

  lemma FrameKeeps(issued: map<Text, (Role, string)>, n: Node, peer: Node, who: Role, f: Frame)
    requires Both(issued, n, peer, who) && f in peer.frames
    ensures var (e, reply) := HandleFrame(n.e, f);
      Both(issued, n.(e := e, acks := if reply.Ack? then n.acks + {reply.id} else n.acks), peer, who)
  {
    HandleFrameLaw(issued, n.e, who, f);
    var (e, reply) := HandleFrame(n.e, f);
    var n' := n.(e := e);
    PeerHalfKept(issued, n, n', peer, who);
    assert Half(issued, n', peer, who);
  }

  lemma AckKeeps(issued: map<Text, (Role, string)>, n: Node, peer: Node, who: Role, id: Text)
    requires Both(issued, n, peer, who) && id in peer.acks
    ensures Both(issued, n.(e := HandleAck(n.e, id)), peer, who)
  {
    PeerHalfKept(issued, n, n.(e := HandleAck(n.e, id)), peer, who);
  }

  lemma ReloadKeeps(issued: map<Text, (Role, string)>, n: Node, peer: Node, who: Role, session: Session)
    requires Both(issued, n, peer, who)
    ensures Both(issued, n.(e := n.e.(session := session)), peer, who)
  {
  }

  lemma MovedKeeps(issued: map<Text, (Role, string)>, n: Node, peer: Node, move: Move)
    requires Both(issued, n, peer, move.who)
    requires move.Queue? || move.Line? ==> move.id !in issued
    requires move.DeliverFrame? ==> move.f in peer.frames
    requires move.DeliverAck? ==> move.id in peer.acks
    ensures var (issued', n') := Moved(issued, n, move);
      Both(issued', n', peer, move.who)
  {
    match move
    case Queue(who, _, _, _, _) => QueueKeeps(issued, n, peer, who, move);
    case Line(who, _, _, _, _) => LineKeeps(issued, n, peer, who, move);
    case Flush(who, to, now) => FlushKeeps(issued, n, peer, who, to, now);
    case DeliverFrame(who, f) => FrameKeeps(issued, n, peer, who, f);
    case DeliverAck(who, id) => AckKeeps(issued, n, peer, who, id);
    case Reload(who, session) => ReloadKeeps(issued, n, peer, who, session);
  }

  lemma OtherUnchanged(net: Net, move: Move)
    ensures Of(Apply(net, move), Other(move.who)) == Of(net, Other(move.who))
    ensures Of(Apply(net, move), move.who) == Moved(net.issued, Of(net, move.who), move).1
  {
  }

  lemma InvFromBoth(net: Net, who: Role, issued: map<Text, (Role, string)>, n: Node)
    requires Both(issued, n, Of(net, Other(who)), who)
    ensures Inv(With(net, who, n).(issued := issued))
  {
  }

  lemma ApplyKeeps(net: Net, move: Move)
    requires Inv(net) && Possible(net, move)
    ensures Inv(Apply(net, move))
  {
    var n, peer := Of(net, move.who), Of(net, Other(move.who));
    assert Both(net.issued, n, peer, move.who);
    MovedKeeps(net.issued, n, peer, move);
    InvFromBoth(net, move.who, Moved(net.issued, n, move).0, Moved(net.issued, n, move).1);
  }

  lemma {:induction false} StepsInv(nets: seq<Net>, moves: seq<Move>, i: nat)
    requires Steps(nets, moves) && Inv(nets[0]) && i <= |moves|
    ensures Inv(nets[i])
  {
    if i > 0 {
      StepsInv(nets, moves, i - 1);
      ApplyKeeps(nets[i - 1], moves[i - 1]);
    }
  }

  lemma RunInv(nets: seq<Net>, moves: seq<Move>, i: nat)
    requires IsRun(nets, moves) && i <= |moves|
    ensures Inv(nets[i])
  {
    StepsInv(nets, moves, i);
  }

  // ---- Whole runs ----

  /** The move gives `id` to a new message of `who`. */
  predicate Submits(move: Move, who: Role, id: Text, text: string) {
    (move.Queue? || move.Line?) && move.who == who && move.id == id && move.text == text
  }

  lemma {:induction false} IssuedOrigin(nets: seq<Net>, moves: seq<Move>, i: nat, id: Text)
    requires IsRun(nets, moves) && i <= |moves| && id in nets[i].issued
    ensures exists k :: 0 <= k < i && Submits(moves[k], nets[i].issued[id].0, id, nets[i].issued[id].1)
  {
    assert i > 0;
    assert nets[i] == Apply(nets[i - 1], moves[i - 1]);
    if nets[i].issued != nets[i - 1].issued && moves[i - 1].id == id {
      assert Submits(moves[i - 1], nets[i].issued[id].0, id, nets[i].issued[id].1);
    } else {
      IssuedOrigin(nets, moves, i - 1, id);
    }
  }

  lemma {:induction false} IssuedStays(nets: seq<Net>, moves: seq<Move>, k: nat, i: nat,
                                       who: Role, id: Text, text: string)
    requires IsRun(nets, moves) && k < i <= |moves| && Submits(moves[k], who, id, text)
    ensures IssuedAs(nets[i].issued, id, who, text)
  {
    assert nets[i] == Apply(nets[i - 1], moves[i - 1]) && Possible(nets[i - 1], moves[i - 1]);
    if k < i - 1 {
      IssuedStays(nets, moves, k, i - 1, who, id, text);
    }
  }

  /**
   * Safety of delivery over every run: the receiver holds a submitted message only with its own
   * text, and it is out of the sender's pending table only when the receiver has stored it.
   */
  lemma DeliveredExactly(nets: seq<Net>, moves: seq<Move>, k: nat, i: nat, who: Role, id: Text, text: string)
    requires IsRun(nets, moves) && k < i <= |moves| && Submits(moves[k], who, id, text)
    ensures id in Of(nets[i], Other(who)).e.history ==> StoredAs(Of(nets[i], Other(who)).e, id, text)
    ensures id !in Of(nets[i], who).e.pending ==> StoredAs(Of(nets[i], Other(who)).e, id, text)
    ensures id in Of(nets[i], who).e.pending ==> Of(nets[i], who).e.pending[id].text == text
  {
    RunInv(nets, moves, i);
    IssuedStays(nets, moves, k, i, who, id, text);
  }

  /** Nothing is received that the peer did not submit before. */
  lemma ReceivedHasOrigin(nets: seq<Net>, moves: seq<Move>, i: nat, who: Role, id: Text)
    requires IsRun(nets, moves) && i <= |moves|
    requires id in Of(nets[i], who).e.history && Of(nets[i], who).e.history[id].side == Incoming
    ensures exists k :: 0 <= k < i && Submits(moves[k], Other(who), id, Of(nets[i], who).e.history[id].text)
  {
    RunInv(nets, moves, i);
    IssuedOrigin(nets, moves, i, id);
  }

  lemma InsertKeeps(e: Endpoint, e': Endpoint, id: Text, row: HistoryRow)
    requires e'.history == InsertMessage(e.history, id, row)
    ensures Keeps(e, e')
  {
  }

  lemma FrameKeepsRows(e: Endpoint, f: Frame)
    ensures Keeps(e, HandleFrame(e, f).0)
  {
    var r := Decrypt(e.session, f.message).1;
    if f.id !in e.history && r.Ok? {
      InsertKeeps(e, HandleFrame(e, f).0, f.id, HistoryRow(Incoming, StatusReceived, Some(f.message.number), r.value));
    }
  }

  lemma MovedKeepsRows(issued: map<Text, (Role, string)>, n: Node, move: Move)
    requires forall id :: id in n.e.pending ==> id in n.e.history
    ensures Keeps(n.e, Moved(issued, n, move).1.e)
  {
    var e' := Moved(issued, n, move).1.e;
    match move
    case Queue(_, id, _, text, _) => InsertKeeps(n.e, e', id, HistoryRow(Outgoing, StatusStored, None, text));
    case Line(_, id, _, text, _) => InsertKeeps(n.e, e', id, HistoryRow(Outgoing, StatusSent, None, text));
    case Flush(_, peer, now) => SendPendingLaw(n.e, peer, now);
    case DeliverFrame(_, f) => FrameKeepsRows(n.e, f);
    case DeliverAck(_, id) =>
    case Reload(_, _) =>
  }

  lemma StepKeeps(net: Net, move: Move, who: Role)
    requires Inv(net) && Possible(net, move)
    ensures Keeps(Of(net, who).e, Of(Apply(net, move), who).e)
  {
    var n := Of(net, move.who);
    assert PendingTrue(net.issued, n.e, move.who);
    MovedKeepsRows(net.issued, n, move);
  }

  lemma KeepsTransitive(e: Endpoint, e1: Endpoint, e2: Endpoint)
    requires Keeps(e, e1) && Keeps(e1, e2)
    ensures Keeps(e, e2)
  {
  }

  lemma {:induction false} ChainKeeps(es: seq<Endpoint>, i: nat, j: nat)
    requires i <= j < |es| && forall k :: i <= k < j ==> Keeps(es[k], es[k + 1])
    ensures Keeps(es[i], es[j])
    decreases j
  {
    if i < j {
      ChainKeeps(es, i, j - 1);
      KeepsTransitive(es[i], es[j - 1], es[j]);
    }
  }

  lemma RunStepKeeps(nets: seq<Net>, moves: seq<Move>, k: nat, who: Role)
    requires IsRun(nets, moves) && k < |moves|
    ensures Keeps(Of(nets[k], who).e, Of(nets[k + 1], who).e)
  {
    RunInv(nets, moves, k);
    StepKeeps(nets[k], moves[k], who);
  }

  /** The states of one endpoint over a run. */
  ghost function Endpoints(nets: seq<Net>, who: Role): seq<Endpoint> {
    seq(|nets|, k requires 0 <= k < |nets| => Of(nets[k], who).e)
  }

  /** No row of either history is ever lost or rewritten. */
  lemma HistoryMonotone(nets: seq<Net>, moves: seq<Move>, i: nat, j: nat, who: Role)
    requires IsRun(nets, moves) && i <= j <= |moves|
    ensures Keeps(Of(nets[i], who).e, Of(nets[j], who).e)
  {
    var es := Endpoints(nets, who);
    forall k | i <= k < j ensures Keeps(es[k], es[k + 1]) {
      RunStepKeeps(nets, moves, k, who);
    }
    ChainKeeps(es, i, j);
  }

  /** The frame is new to the endpoint and its message is accepted. */
  predicate Accepts(e: Endpoint, f: Frame) {
    f.id !in e.history && HandleFrame(e, f).1.Ack?
  }

  /** The delivery of this frame showed a message to the user: its id was new and it was accepted. */
  predicate Shows(net: Net, move: Move, id: Text) {
    move.DeliverFrame? && move.f.id == id && Accepts(Of(net, move.who).e, move.f)
  }

  /** Of all the deliveries of all the encryptions of one message, at most one ever shows it. */
  lemma ShownAtMostOnce(nets: seq<Net>, moves: seq<Move>, i: nat, j: nat, id: Text)
    requires IsRun(nets, moves) && i < |moves| && j < |moves|
    requires Shows(nets[i], moves[i], id) && Shows(nets[j], moves[j], id)
    ensures i == j
  {
    ShownByPeer(nets, moves, i, id);
    ShownByPeer(nets, moves, j, id);
    if i != j {
      var first, last := if i < j then i else j, if i < j then j else i;
      IssuerConstant(nets, moves, first, last, id);
      assert nets[first + 1] == Apply(nets[first], moves[first]);
      HistoryMonotone(nets, moves, first + 1, last, moves[first].who);
    }
  }

  /** A frame for an id comes from the issuer of the id. */
  lemma ShownByPeer(nets: seq<Net>, moves: seq<Move>, i: nat, id: Text)
    requires IsRun(nets, moves) && i < |moves| && Shows(nets[i], moves[i], id)
    ensures id in nets[i].issued && nets[i].issued[id].0 == Other(moves[i].who)
  {
    RunInv(nets, moves, i);
    assert Possible(nets[i], moves[i]);
    assert FramesTrue(nets[i].issued, Of(nets[i], Other(moves[i].who)).frames, Other(moves[i].who));
  }

  lemma IssuerConstant(nets: seq<Net>, moves: seq<Move>, i: nat, j: nat, id: Text)
    requires IsRun(nets, moves) && i <= j <= |moves| && id in nets[i].issued
    ensures id in nets[j].issued && nets[j].issued[id] == nets[i].issued[id]
  {
    IssuedOrigin(nets, moves, i, id);
    var k :| 0 <= k < i && Submits(moves[k], nets[i].issued[id].0, id, nets[i].issued[id].1);
    IssuedStays(nets, moves, k, j, nets[i].issued[id].0, id, nets[i].issued[id].1);
  }

  // ---- When a retry gets through ----

  /** The two ends share an epoch, or the sender has rotated and the receiver will follow. */
  ghost predicate InReach(me: Session, peer: Session) {
    && Sound(me) && Sound(peer)
    && (PairedRuns.Paired(me, peer) || PairedRuns.Ahead(me, peer))
  }

  lemma FreshMessageOpensIff(me: Session, peer: Session, text: string)
    requires InReach(me, peer)
    ensures var r := Decrypt(peer, Encrypt(me, text).1).1;
      && (r.Ok? <==> Fits(Turned(peer, me.dh.public), me.sendCount))
      && (r.Ok? ==> r.value == text)
      && (r.Err? ==>
          r.error == if me.sendCount < Turned(peer, me.dh.public).recvCount then Replay else TooManySkippedMessages)
  {
    var t := Turned(peer, me.dh.public);
    var m := Encrypt(me, text).1;
    DhCommutes(me.dh, peer.dh);
    TurnedSound(peer, me.dh.public);
    TakeKeyLaw(t, me.sendCount);
    DecryptLaw(peer, m);
    assert t.root == me.root && SendDir(me.role) == RecvDir(peer.role);
  }

  /**
   * A retry of a pending message is acknowledged exactly when the receiver already has the message
   * or its window still has room for the new number; the acknowledgement then settles the message.
   */
  lemma RetryAckedIff(me: Endpoint, peer: Endpoint, id: Text, now: nat)
    requires InReach(me.session, peer.session) && id in me.pending
    ensures var (me', f) := Resend(me, id, me.pending[id].text, now);
      var (peer', reply) := HandleFrame(peer, f);
      && (reply.Ack? <==> id in peer.history || Fits(Turned(peer.session, me.session.dh.public), me.session.sendCount))
      && (reply.Ack? ==> reply.id == id && id !in HandleAck(me', id).pending && id in peer'.history)
      && (reply.Ack? && id !in peer.history ==> StoredAs(peer', id, me.pending[id].text))
      && (!reply.Ack? ==> peer' == peer && id in me'.pending)
  {
    FreshMessageOpensIff(me.session, peer.session, me.pending[id].text);
  }

  // ---- Under which name a row is retried ----

  lemma MovedKeepsNames(issued: map<Text, (Role, string)>, n: Node, move: Move, id: Text)
    requires forall k :: k in n.e.pending ==> k in n.e.history
    requires move.Queue? || move.Line? ==> move.id != id
    ensures var e' := Moved(issued, n, move).1.e;
      id in e'.pending ==> id in n.e.pending && SameRow(n.e.pending[id], e'.pending[id])
  {
    if move.Flush? {
      SendPendingLaw(n.e, move.peer, move.now);
    }
  }

  lemma StepKeepsNames(net: Net, move: Move, who: Role, id: Text)
    requires Inv(net) && Possible(net, move) && id in net.issued
    ensures var (e, e') := (Of(net, who).e, Of(Apply(net, move), who).e);
      id in e'.pending ==> id in e.pending && SameRow(e.pending[id], e'.pending[id])
  {
    if move.who == who {
      assert PendingTrue(net.issued, Of(net, who).e, who);
      MovedKeepsNames(net.issued, Of(net, who), move, id);
    }
  }

  lemma NewRowName(net: Net, move: Move)
    requires Inv(net) && Possible(net, move) && (move.Queue? || move.Line?)
    ensures var e := Of(Apply(net, move), move.who).e;
      move.id in e.pending && e.pending[move.id].peer == move.peer
  {
    var n := Of(net, move.who);
    assert PendingTrue(net.issued, n.e, move.who);
    assert move.id !in n.e.pending;
  }

  lemma NameStep(nets: seq<Net>, moves: seq<Move>, k: nat, i: nat, who: Role, id: Text, text: string)
    requires IsRun(nets, moves) && k < i < |moves| && Submits(moves[k], who, id, text)
    ensures var (e, e') := (Of(nets[i], who).e, Of(nets[i + 1], who).e);
      id in e'.pending ==> id in e.pending && SameRow(e.pending[id], e'.pending[id])
  {
    RunInv(nets, moves, i);
    IssuedStays(nets, moves, k, i, who, id, text);
    StepKeepsNames(nets[i], moves[i], who, id);
  }

  lemma NameStart(nets: seq<Net>, moves: seq<Move>, k: nat, who: Role, id: Text, text: string)
    requires IsRun(nets, moves) && k < |moves| && Submits(moves[k], who, id, text)
    ensures var e := Of(nets[k + 1], who).e; id in e.pending && e.pending[id].peer == moves[k].peer
  {
    RunInv(nets, moves, k);
    NewRowName(nets[k], moves[k]);
  }

  lemma {:induction false} ChainName(es: seq<Endpoint>, k: nat, i: nat, id: Text, name: Text)
    requires k <= i < |es| && id in es[k].pending && es[k].pending[id].peer == name
    requires forall j :: k <= j < i && id in es[j + 1].pending ==>
      id in es[j].pending && SameRow(es[j].pending[id], es[j + 1].pending[id])
    ensures id in es[i].pending ==> es[i].pending[id].peer == name
    decreases i
  {
    if k < i {
      ChainName(es, k, i - 1, id, name);
    }
  }

  /** A submitted row keeps the peer name it was queued under for as long as it is pending. */
  lemma NameStays(nets: seq<Net>, moves: seq<Move>, k: nat, i: nat, who: Role, id: Text, text: string)
    requires IsRun(nets, moves) && k < i <= |moves| && Submits(moves[k], who, id, text)
    ensures var e := Of(nets[i], who).e; id in e.pending ==> e.pending[id].peer == moves[k].peer
  {
    var es := Endpoints(nets, who);
    NameStart(nets, moves, k, who, id, text);
    forall j | k + 1 <= j < i && id in es[j + 1].pending
      ensures id in es[j].pending && SameRow(es[j].pending[id], es[j + 1].pending[id])
    {
      NameStep(nets, moves, k, j, who, id, text);
    }
    ChainName(es, k + 1, i, id, moves[k].peer);
  }

  /** At any point of any run a flush resends a pending message exactly when it flushes the name it was queued under. */
  lemma RetriedIffSameName(nets: seq<Net>, moves: seq<Move>, k: nat, i: nat,
                           who: Role, id: Text, text: string, name: Text, now: nat)
    requires IsRun(nets, moves) && k < i <= |moves| && Submits(moves[k], who, id, text)
    requires id in Of(nets[i], who).e.pending
    ensures Sends(SendPending(Of(nets[i], who).e, name, now).1, id) <==> moves[k].peer == name
  {
    var e := Of(nets[i], who).e;
    NameStays(nets, moves, k, i, who, id, text);
    RunInv(nets, moves, i);
    assert PendingTrue(nets[i].issued, e, who);
    FlushLaw(e, name, now);
  }
}
