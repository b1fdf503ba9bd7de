/**
 * How the pending queue recovers from chat to chat. Every chat begins with a new handshake, so with an
 * open window, and flushes the queue; what each chat settles, and how many chats a queue takes.
 */
module Chats {
  import opened Bytes
  import opened Ratchet
  import opened Delivery
  import opened DeliveryWindow
  import PairedRuns

  // ---- One flush, received in order ----

  /** The receiver before each frame that it looks at, one after the other, and after the last. */
  ghost predicate Receipt(es: seq<Endpoint>, frames: seq<Frame>) {
    && 0 < |es| <= |frames| + 1
    && forall k :: 0 <= k < |es| - 1 ==> es[k + 1] == HandleFrame(es[k], frames[k]).0
  }

  /** How many of the first `n` frames are for messages that the receiver had before any of them. */
  function Known(frames: seq<Frame>, had: Endpoint, n: nat): nat
    requires n <= |frames|
  {
    if n == 0 then 0 else Known(frames, had, n - 1) + if frames[n - 1].id in had.history then 1 else 0
  }

  /** Frames of one sender with consecutive numbers and different ids. */
  ghost predicate InOrder(sender: Session, frames: seq<Frame>, first: nat) {
    && first + |frames| <= sender.sendCount
    && (forall i :: 0 <= i < |frames| ==> OwnFrame(sender, frames[i]) && frames[i].message.number == first + i)
    && (forall i, j :: 0 <= i < j < |frames| ==> frames[i].id != frames[j].id)
  }

  /** The receiver has looked at `n` frames: either all the new ones were shown, or the window is closed. */
  ghost predicate Stage(had: Endpoint, e: Endpoint, sender: Session, frames: seq<Frame>, first: nat, n: nat)
    requires n <= |frames|
  {
    && Clean(e.session) && PairedRuns.Paired(e.session, sender) && e.session.recvCount <= first + n
    && (var known := Known(frames, had, n);
        if known <= MAX_SKIPPED_MESSAGE_KEYS then |e.session.consumed| + known == first + n
        else |e.session.consumed| + MAX_SKIPPED_MESSAGE_KEYS < first + n)
    && (forall i :: n <= i < |frames| ==> (frames[i].id in e.history <==> frames[i].id in had.history))
  }

  /** The next frame is acknowledged exactly when it was known or at most eight before it were. */
  lemma NextAnswer(had: Endpoint, e: Endpoint, sender: Session, frames: seq<Frame>, first: nat, n: nat)
    requires n < |frames| && InOrder(sender, frames, first) && Stage(had, e, sender, frames, first, n)
    ensures HandleFrame(e, frames[n]).1.Ack? <==>
      frames[n].id in had.history || Known(frames, had, n) <= MAX_SKIPPED_MESSAGE_KEYS
    ensures Accepts(e, frames[n]) <==>
      frames[n].id !in had.history && Known(frames, had, n) <= MAX_SKIPPED_MESSAGE_KEYS
  {
    OpensIffFits(e.session, sender, frames[n]);
    FitsIffWithinEdge(e.session, first + n);
  }

  lemma AcceptedSession(e: Endpoint, sender: Session, f: Frame)
    requires Clean(e.session) && PairedRuns.Paired(e.session, sender) && OwnFrame(sender, f)
    requires e.session.recvCount <= f.message.number && Accepts(e, f)
    ensures var e' := HandleFrame(e, f).0;
      && Clean(e'.session) && PairedRuns.Paired(e'.session, sender)
      && e'.session.recvCount == f.message.number + 1
      && |e'.session.consumed| == |e.session.consumed| + 1
      && e'.history.Keys == e.history.Keys + {f.id}
  {
    OpensIffFits(e.session, sender, f);
    OpeningCounts(e.session, f.message);
    OpenFrame(e.session, sender, f);
    assert f.message.number !in e.session.skipped;
  }

  lemma NextStage(had: Endpoint, e: Endpoint, sender: Session, frames: seq<Frame>, first: nat, n: nat)
    requires n < |frames| && InOrder(sender, frames, first) && Stage(had, e, sender, frames, first, n)
    ensures Stage(had, HandleFrame(e, frames[n]).0, sender, frames, first, n + 1)
  {
    NextAnswer(had, e, sender, frames, first, n);
    var e' := HandleFrame(e, frames[n]).0;
    if Accepts(e, frames[n]) {
      AcceptedSession(e, sender, frames[n]);
      assert forall id :: id in e'.history <==> id in e'.history.Keys;
    } else {
      assert e' == e;
    }
  }

  lemma StageStep(es: seq<Endpoint>, sender: Session, frames: seq<Frame>, first: nat, n: nat)
    requires Receipt(es, frames) && n < |es| - 1 && InOrder(sender, frames, first)
    requires Stage(es[0], es[n], sender, frames, first, n)
    ensures Stage(es[0], es[n + 1], sender, frames, first, n + 1)
  {
    NextStage(es[0], es[n], sender, frames, first, n);
  }

  /** What holds at the start, and from each stage to the next, holds at every stage. */
  lemma {:induction false} ChainStages(es: seq<Endpoint>, sender: Session, frames: seq<Frame>, first: nat, n: nat)
    requires n < |es| <= |frames| + 1 && Stage(es[0], es[0], sender, frames, first, 0)
    requires forall k :: 0 <= k < |es| - 1 && Stage(es[0], es[k], sender, frames, first, k) ==>
      Stage(es[0], es[k + 1], sender, frames, first, k + 1)
    ensures Stage(es[0], es[n], sender, frames, first, n)
  {
    if n > 0 {
      ChainStages(es, sender, frames, first, n - 1);
    }
  }

  lemma StageAt(es: seq<Endpoint>, sender: Session, frames: seq<Frame>, first: nat, n: nat)
    requires Receipt(es, frames) && n < |es| && InOrder(sender, frames, first)
    requires Stage(es[0], es[0], sender, frames, first, 0)
    ensures Stage(es[0], es[n], sender, frames, first, n)
  {
    forall k | 0 <= k < |es| - 1 && Stage(es[0], es[k], sender, frames, first, k)
      ensures Stage(es[0], es[k + 1], sender, frames, first, k + 1)
    {
      StageStep(es, sender, frames, first, k);
    }
    ChainStages(es, sender, frames, first, n);
  }

  lemma FlushFramesInOrder(e: Endpoint, name: Text, now: nat)
    requires OnChain(e.session) && forall id :: id in e.pending ==> id in e.history
    ensures var (e', frames) := SendPending(e, name, now); InOrder(e'.session, frames, e.session.sendCount)
  {
    FlushLaw(e, name, now);
    SendPendingSends(e, name, now);
    FlushCounts(e, name, now);
    var (e', frames) := SendPending(e, name, now);
    forall i | 0 <= i < |frames| ensures OwnFrame(e'.session, frames[i]) {
      assert frames[i] in frames;
    }
  }

  lemma LevelStage(had: Endpoint, s: Session, sender: Session, frames: seq<Frame>)
    requires Clean(had.session) && PairedRuns.Paired(s, had.session) && Sent(s, sender)
    requires had.session.recvCount <= s.sendCount == |had.session.consumed|
    ensures Stage(had, had, sender, frames, s.sendCount, 0)
  {
  }

  /** The frames of a flush are in order, and a level receiver is at their beginning. */
  lemma FlushInOrder(net: Net, who: Role, name: Text, now: nat)
    requires Inv(net) && Linked(net) && Level(net, who)
    ensures var (me, frames) := SendPending(Of(net, who).e, name, now);
      var (first, had) := (SendCount(net, who), Of(net, Other(who)).e);
      InOrder(me.session, frames, first) && Stage(had, had, me.session, frames, first, 0)
  {
    var e := Of(net, who).e;
    LinkedBothWays(net, who);
    assert PendingTrue(net.issued, e, who);
    FlushFramesInOrder(e, name, now);
    SendPendingSends(e, name, now);
    var (me, frames) := SendPending(e, name, now);
    LevelStage(Of(net, Other(who)).e, e.session, me.session, frames);
  }

  lemma FlushCounts(e: Endpoint, name: Text, now: nat)
    ensures var (e', frames) := SendPending(e, name, now);
      e'.session.sendCount == e.session.sendCount + |frames|
  {
    var keys := PendingFor(e.pending, name);
    ResendNumbers(e, keys, |keys|, now);
  }

  /**
   * The recovery the program has. In a chat that begins with a handshake, over any tables, the flush
   * received in order is acknowledged row by row: a row exactly when the receiver already has the
   * message, or at most eight of the rows before it were ones it already had.
   */
  lemma FlushedRowAckedIff(net: Net, who: Role, name: Text, now: nat, es: seq<Endpoint>, i: nat)
    requires Inv(net) && Linked(net) && Level(net, who)
    requires Receipt(es, SendPending(Of(net, who).e, name, now).1) && es[0] == Of(net, Other(who)).e
    requires i < |es| && i < |SendPending(Of(net, who).e, name, now).1|
    ensures var frames := SendPending(Of(net, who).e, name, now).1;
      HandleFrame(es[i], frames[i]).1.Ack? <==>
      frames[i].id in es[0].history || Known(frames, es[0], i) <= MAX_SKIPPED_MESSAGE_KEYS
  {
    FlushInOrder(net, who, name, now);
    var (me, frames) := SendPending(Of(net, who).e, name, now);
    StageAt(es, me.session, frames, SendCount(net, who), i);
    NextAnswer(es[0], es[i], me.session, frames, SendCount(net, who), i);
  }

  // ---- One chat ----

  /**
   * After a flush, the frames are received in order up to the first refusal, which ends the
   * receiver's chat, and the acknowledgements come back: `settled` rows are acknowledged.
   */
  ghost predicate Served(nets: seq<Net>, moves: seq<Move>, who: Role, frames: seq<Frame>, settled: nat) {
    && Steps(nets, moves) && |moves| == 1 + 2 * settled && settled <= |frames|
    && (forall k :: 0 <= k < settled ==> Arrives(nets, moves, who, frames[k], 1 + k))
    && (settled < |frames| ==> !HandleFrame(Of(nets[1 + settled], Other(who)).e, frames[settled]).1.Ack?)
    && (forall k :: 0 <= k < settled ==> moves[1 + settled + k] == DeliverAck(who, frames[k].id))
  }

  /** Step `i` delivers the frame, and it is acknowledged. */
  ghost predicate Arrives(nets: seq<Net>, moves: seq<Move>, who: Role, f: Frame, i: nat) {
    && i < |moves| < |nets|
    && moves[i] == DeliverFrame(Other(who), f)
    && HandleFrame(Of(nets[i], Other(who)).e, f).1.Ack?
  }

  ghost function Frames(net: Net, who: Role, name: Text, now: nat): seq<Frame> {
    SendPending(Of(net, who).e, name, now).1
  }

  /** A chat as far as the queue goes. */
  ghost predicate IsRound(nets: seq<Net>, moves: seq<Move>, who: Role, name: Text, now: nat, settled: nat) {
    && |nets| > 0 && Served(nets, moves, who, Frames(nets[0], who, name, now), settled)
    && moves[0] == Flush(who, name, now)
  }

  /** The receiver's states while the frames arrive. */
  ghost function Receiver(nets: seq<Net>, who: Role, settled: nat): (es: seq<Endpoint>)
    requires 1 + settled < |nets|
    ensures |es| == settled + 1 && forall k :: 0 <= k <= settled ==> es[k] == Of(nets[1 + k], Other(who)).e
  {
    seq(settled + 1, k requires 0 <= k <= settled => Of(nets[1 + k], Other(who)).e)
  }

  lemma ReceivedAs(nets: seq<Net>, moves: seq<Move>, i: nat)
    requires Steps(nets, moves) && i < |moves| && moves[i].DeliverFrame?
    ensures Of(nets[i + 1], moves[i].who).e == HandleFrame(Of(nets[i], moves[i].who).e, moves[i].f).0
    ensures Of(nets[i + 1], Other(moves[i].who)).e == Of(nets[i], Other(moves[i].who)).e
  {
    OtherUnchanged(nets[i], moves[i]);
  }

  lemma ServedReceipt(nets: seq<Net>, moves: seq<Move>, who: Role, frames: seq<Frame>, settled: nat)
    requires Served(nets, moves, who, frames, settled)
    ensures Receipt(Receiver(nets, who, settled), frames)
  {
    var es := Receiver(nets, who, settled);
    forall k | 0 <= k < |es| - 1 ensures es[k + 1] == HandleFrame(es[k], frames[k]).0 {
      assert Arrives(nets, moves, who, frames[k], 1 + k);
      ReceivedAs(nets, moves, 1 + k);
    }
  }

  lemma {:induction false} KnownAtMost(frames: seq<Frame>, had: Endpoint, n: nat)
    requires n <= |frames|
    ensures Known(frames, had, n) <= n
  {
    if n > 0 {
      KnownAtMost(frames, had, n - 1);
    }
  }

  /** A chat settles every row it flushes, or at least nine of them. */
  lemma RoundSettlesNine(nets: seq<Net>, moves: seq<Move>, who: Role, name: Text, now: nat, settled: nat)
    requires IsRound(nets, moves, who, name, now, settled)
    requires Inv(nets[0]) && Linked(nets[0]) && Level(nets[0], who)
    ensures settled == |Frames(nets[0], who, name, now)| || settled > MAX_SKIPPED_MESSAGE_KEYS
  {
    var es, frames := Receiver(nets, who, settled), Frames(nets[0], who, name, now);
    if settled < |frames| {
      ServedReceipt(nets, moves, who, frames, settled);
      OtherUnchanged(nets[0], moves[0]);
      FlushedRowAckedIff(nets[0], who, name, now, es, settled);
      KnownAtMost(frames, es[0], settled);
    }
  }

  // ---- What is left in the queue ----

  function Ids(frames: seq<Frame>, n: nat): set<Text>
    requires n <= |frames|
  {
    if n == 0 then {} else Ids(frames, n - 1) + {frames[n - 1].id}
  }

  lemma {:induction false} IdsMembers(frames: seq<Frame>, n: nat, id: Text)
    requires n <= |frames|
    ensures id in Ids(frames, n) <==> exists i :: 0 <= i < n && frames[i].id == id
  {
    if n > 0 {
      IdsMembers(frames, n - 1, id);
    }
  }

  lemma {:induction false} IdsCount(frames: seq<Frame>, n: nat)
    requires n <= |frames| && forall i, j :: 0 <= i < j < |frames| ==> frames[i].id != frames[j].id
    ensures |Ids(frames, n)| == n
  {
    if n > 0 {
      IdsCount(frames, n - 1);
      IdsMembers(frames, n - 1, frames[n - 1].id);
    }
  }

  /** The rows waiting under a name. */
  function Waiting(e: Endpoint, name: Text): set<Text> {
    set id | id in e.pending && e.pending[id].peer == name
  }

  /** These rows are gone from the queue, and the others are as they were. */
  ghost predicate Settles(e: Endpoint, e': Endpoint, gone: set<Text>) {
    && e'.pending.Keys == e.pending.Keys - gone
    && forall id :: id in e'.pending ==> id in e.pending && SameRow(e.pending[id], e'.pending[id])
  }

  lemma SettledWaiting(e: Endpoint, e': Endpoint, gone: set<Text>, name: Text)
    requires Settles(e, e', gone)
    ensures Waiting(e', name) == Waiting(e, name) - gone
  {
    assert forall id :: id in e'.pending <==> id in e'.pending.Keys;
    assert forall id :: id in e.pending <==> id in e.pending.Keys;
  }

  lemma AckSettles(e: Endpoint, e1: Endpoint, gone: set<Text>, id: Text)
    requires Settles(e, e1, gone)
    ensures Settles(e, HandleAck(e1, id), gone + {id})
  {
    assert HandleAck(e1, id).pending.Keys == e1.pending.Keys - {id};
  }

  lemma FlushSettlesNone(nets: seq<Net>, moves: seq<Move>, who: Role, name: Text, now: nat)
    requires Steps(nets, moves) && |moves| > 0 && moves[0] == Flush(who, name, now) && Inv(nets[0])
    ensures Settles(Of(nets[0], who).e, Of(nets[1], who).e, {})
  {
    var e := Of(nets[0], who).e;
    assert PendingTrue(nets[0].issued, e, who);
    SendPendingLaw(e, name, now);
    OtherUnchanged(nets[0], moves[0]);
    assert forall id :: id in e.pending <==> id in e.pending.Keys;
  }

  lemma {:induction false} SenderWaits(nets: seq<Net>, moves: seq<Move>, who: Role, frames: seq<Frame>,
                                       settled: nat, k: nat)
    requires Served(nets, moves, who, frames, settled) && k <= settled
    ensures Of(nets[1 + k], who).e == Of(nets[1], who).e
  {
    if k > 0 {
      SenderWaits(nets, moves, who, frames, settled, k - 1);
      assert Arrives(nets, moves, who, frames[k - 1], 1 + (k - 1));
      ReceivedAs(nets, moves, k);
    }
  }

  lemma AckedAs(nets: seq<Net>, moves: seq<Move>, i: nat)
    requires Steps(nets, moves) && i < |moves| && moves[i].DeliverAck?
    ensures Of(nets[i + 1], moves[i].who).e == HandleAck(Of(nets[i], moves[i].who).e, moves[i].id)
  {
    OtherUnchanged(nets[i], moves[i]);
  }

  lemma AckStep(nets: seq<Net>, moves: seq<Move>, who: Role, frames: seq<Frame>, settled: nat, k: nat, e: Endpoint)
    requires Served(nets, moves, who, frames, settled) && k < settled
    requires Settles(e, Of(nets[1 + settled + k], who).e, Ids(frames, k))
    ensures Settles(e, Of(nets[1 + settled + k + 1], who).e, Ids(frames, k + 1))
  {
    assert moves[1 + settled + k] == DeliverAck(who, frames[k].id);
    AckedAs(nets, moves, 1 + settled + k);
    AckSettles(e, Of(nets[1 + settled + k], who).e, Ids(frames, k), frames[k].id);
  }

  lemma {:induction false} AcksSettle(nets: seq<Net>, moves: seq<Move>, who: Role, frames: seq<Frame>, settled: nat,
                                      k: nat, e: Endpoint)
    requires Served(nets, moves, who, frames, settled) && k <= settled
    requires Settles(e, Of(nets[1], who).e, {})
    ensures Settles(e, Of(nets[1 + settled + k], who).e, Ids(frames, k))
  {
    if k == 0 {
      SenderWaits(nets, moves, who, frames, settled, settled);
    } else {
      AcksSettle(nets, moves, who, frames, settled, k - 1, e);
      AckStep(nets, moves, who, frames, settled, k - 1, e);
    }
  }

  /** The settled rows are rows that were waiting, each counted once; all of them are all that were waiting. */
  lemma IdsWaiting(e: Endpoint, name: Text, now: nat, n: nat)
    requires (forall id :: id in e.pending ==> id in e.history) && n <= |SendPending(e, name, now).1|
    ensures var frames := SendPending(e, name, now).1;
      && Ids(frames, n) <= Waiting(e, name) && |Ids(frames, n)| == n
      && (n == |frames| ==> Ids(frames, n) == Waiting(e, name))
  {
    var frames := SendPending(e, name, now).1;
    FlushLaw(e, name, now);
    IdsCount(frames, n);
    forall id ensures id in Ids(frames, n) ==> id in Waiting(e, name)
      ensures n == |frames| && id in Waiting(e, name) ==> id in Ids(frames, n)
    {
      IdsMembers(frames, n, id);
      assert Sends(frames, id) <==> id in Waiting(e, name);
    }
  }

  lemma RoundSettles(nets: seq<Net>, moves: seq<Move>, who: Role, name: Text, now: nat, settled: nat)
    requires IsRound(nets, moves, who, name, now, settled) && Inv(nets[0])
    ensures Settles(Of(nets[0], who).e, Of(nets[|moves|], who).e, Ids(Frames(nets[0], who, name, now), settled))
  {
    FlushSettlesNone(nets, moves, who, name, now);
    AcksSettle(nets, moves, who, Frames(nets[0], who, name, now), settled, settled, Of(nets[0], who).e);
  }

  lemma CountLeft(all: set<Text>, gone: set<Text>)
    requires gone <= all
    ensures |all - gone| == |all| - |gone|
  {
    assert all == (all - gone) + gone;
  }

  lemma RoundWaiting(net: Net, who: Role, name: Text, now: nat, settled: nat, e': Endpoint)
    requires Inv(net) && settled <= |Frames(net, who, name, now)|
    requires Settles(Of(net, who).e, e', Ids(Frames(net, who, name, now), settled))
    ensures |Waiting(e', name)| == |Waiting(Of(net, who).e, name)| - settled
    ensures settled == |Frames(net, who, name, now)| ==> Waiting(e', name) == {}
  {
    var e, gone := Of(net, who).e, Ids(Frames(net, who, name, now), settled);
    assert PendingTrue(net.issued, e, who);
    IdsWaiting(e, name, now, settled);
    SettledWaiting(e, e', gone, name);
    CountLeft(Waiting(e, name), gone);
  }

  /** A chat takes exactly the settled rows out of the queue: all that were waiting, or at least nine. */
  lemma RoundLaw(nets: seq<Net>, moves: seq<Move>, who: Role, name: Text, now: nat, settled: nat)
    requires IsRound(nets, moves, who, name, now, settled)
    requires Inv(nets[0]) && Linked(nets[0]) && Level(nets[0], who)
    ensures var (e, e') := (Of(nets[0], who).e, Of(nets[|moves|], who).e);
      && Settles(e, e', Ids(Frames(nets[0], who, name, now), settled))
      && |Waiting(e', name)| == |Waiting(e, name)| - settled
      && (Waiting(e', name) == {} || settled > MAX_SKIPPED_MESSAGE_KEYS)
  {
    RoundSettles(nets, moves, who, name, now, settled);
    RoundWaiting(nets[0], who, name, now, settled, Of(nets[|moves|], who).e);
    RoundSettlesNine(nets, moves, who, name, now, settled);
  }

  // ---- Such a chat exists from every state ----

  /** So far `k` frames have arrived and been acknowledged. */
  ghost predicate Arriving(nets: seq<Net>, moves: seq<Move>, who: Role, frames: seq<Frame>, k: nat) {
    && Steps(nets, moves) && k <= |frames| && |moves| == 1 + k
    && (forall j :: 0 <= j < k ==> Arrives(nets, moves, who, frames[j], 1 + j))
    && (forall j :: 0 <= j < |frames| ==> frames[j] in Of(nets[1 + k], who).frames)
    && (forall j :: 0 <= j < k ==> frames[j].id in Of(nets[1 + k], Other(who)).acks)
  }

  lemma ArriveNext(nets: seq<Net>, moves: seq<Move>, who: Role, frames: seq<Frame>, k: nat)
    returns (nets': seq<Net>, moves': seq<Move>)
    requires Arriving(nets, moves, who, frames, k) && k < |frames|
    requires HandleFrame(Of(nets[1 + k], Other(who)).e, frames[k]).1.Ack?
    ensures Arriving(nets', moves', who, frames, k + 1) && nets'[0] == nets[0] && moves'[0] == moves[0]
  {
    var move := DeliverFrame(Other(who), frames[k]);
    nets', moves' := nets + [Apply(nets[1 + k], move)], moves + [move];
    StepsExtend(nets, moves, move);
    OtherUnchanged(nets[1 + k], move);
    AckedFrame(nets[1 + k], move);
    forall j | 0 <= j < k + 1 ensures Arrives(nets', moves', who, frames[j], 1 + j) {
      if j < k {
        assert Arrives(nets, moves, who, frames[j], 1 + j);
      }
    }
  }

  lemma AckedFrame(net: Net, move: Move)
    requires move.DeliverFrame? && HandleFrame(Of(net, move.who).e, move.f).1.Ack?
    ensures Of(Apply(net, move), move.who).acks == Of(net, move.who).acks + {move.f.id}
  {
    OtherUnchanged(net, move);
  }

  lemma {:induction false} ArriveAll(nets: seq<Net>, moves: seq<Move>, who: Role, frames: seq<Frame>, k: nat)
    returns (nets': seq<Net>, moves': seq<Move>, settled: nat)
    requires Arriving(nets, moves, who, frames, k)
    ensures ArrivedAll(nets', moves', who, frames, settled) && nets'[0] == nets[0] && moves'[0] == moves[0]
    decreases |frames| - k
  {
    if k == |frames| || !HandleFrame(Of(nets[1 + k], Other(who)).e, frames[k]).1.Ack? {
      nets', moves', settled := nets, moves, k;
    } else {
      var longer, more := ArriveNext(nets, moves, who, frames, k);
      nets', moves', settled := ArriveAll(longer, more, who, frames, k + 1);
    }
  }

  /** They have arrived up to the first refusal. */
  ghost predicate ArrivedAll(nets: seq<Net>, moves: seq<Move>, who: Role, frames: seq<Frame>, settled: nat) {
    && Arriving(nets, moves, who, frames, settled)
    && (settled < |frames| ==> !HandleFrame(Of(nets[1 + settled], Other(who)).e, frames[settled]).1.Ack?)
  }

  lemma ReturnsFrom(nets: seq<Net>, moves: seq<Move>, who: Role, frames: seq<Frame>, settled: nat)
    requires Arriving(nets, moves, who, frames, settled)
    ensures Returning(nets, moves, nets, moves, who, frames[..settled], 0)
  {
  }

  /** The run goes on with the first `k` acknowledgements for these frames. */
  ghost predicate Returning(nets: seq<Net>, moves: seq<Move>, nets': seq<Net>, moves': seq<Move>,
                            who: Role, frames: seq<Frame>, k: nat)
  {
    && Steps(nets', moves') && k <= |frames| && |moves'| == |moves| + k
    && nets <= nets' && moves <= moves'
    && (forall j :: 0 <= j < k ==> moves'[|moves| + j] == DeliverAck(who, frames[j].id))
    && (forall j :: 0 <= j < |frames| ==> frames[j].id in Of(nets'[|moves'|], Other(who)).acks)
  }

  lemma ReturnNext(nets: seq<Net>, moves: seq<Move>, nets': seq<Net>, moves': seq<Move>,
                   who: Role, frames: seq<Frame>, k: nat)
    requires Returning(nets, moves, nets', moves', who, frames, k) && k < |frames|
    ensures var move := DeliverAck(who, frames[k].id);
      Returning(nets, moves, nets' + [Apply(nets'[|moves'|], move)], moves' + [move], who, frames, k + 1)
  {
    var move := DeliverAck(who, frames[k].id);
    StepsExtend(nets', moves', move);
    OtherUnchanged(nets'[|moves'|], move);
  }

  lemma {:induction false} ReturnAll(nets: seq<Net>, moves: seq<Move>, who: Role, frames: seq<Frame>, k: nat)
    returns (nets': seq<Net>, moves': seq<Move>)
    requires Returning(nets, moves, nets, moves, who, frames, 0) && k <= |frames|
    ensures Returning(nets, moves, nets', moves', who, frames, k)
  {
    nets', moves' := nets, moves;
    if k > 0 {
      nets', moves' := ReturnAll(nets, moves, who, frames, k - 1);
      ReturnNext(nets, moves, nets', moves', who, frames, k - 1);
      var move := DeliverAck(who, frames[k - 1].id);
      nets', moves' := nets' + [Apply(nets'[|moves'|], move)], moves' + [move];
    }
  }

  lemma ArrivesLater(nets: seq<Net>, moves: seq<Move>, nets': seq<Net>, moves': seq<Move>, who: Role, f: Frame, i: nat)
    requires Arrives(nets, moves, who, f, i) && nets <= nets' && moves <= moves' && |moves'| < |nets'|
    ensures Arrives(nets', moves', who, f, i)
  {
  }

  lemma ReturnedIsServed(nets: seq<Net>, moves: seq<Move>, nets': seq<Net>, moves': seq<Move>,
                         who: Role, frames: seq<Frame>, settled: nat)
    requires ArrivedAll(nets, moves, who, frames, settled)
    requires Returning(nets, moves, nets', moves', who, frames[..settled], settled)
    ensures Served(nets', moves', who, frames, settled) && nets'[0] == nets[0] && moves'[0] == moves[0]
  {
    forall k | 0 <= k < settled ensures Arrives(nets', moves', who, frames[k], 1 + k) {
      ArrivesLater(nets, moves, nets', moves', who, frames[k], 1 + k);
    }
    forall k | 0 <= k < settled ensures moves'[1 + settled + k] == DeliverAck(who, frames[k].id) {
      assert frames[..settled][k] == frames[k];
    }
  }

  lemma FlushArrives(net: Net, who: Role, name: Text, now: nat)
    ensures var flush := Flush(who, name, now);
      Arriving([net, Apply(net, flush)], [flush], who, Frames(net, who, name, now), 0)
  {
    var frames := Frames(net, who, name, now);
    OtherUnchanged(net, Flush(who, name, now));
    assert forall j :: 0 <= j < |frames| ==> frames[j] in frames;
  }

  /** From any state the queue can be flushed in this way. */
  lemma RoundExists(net: Net, who: Role, name: Text, now: nat)
    returns (nets: seq<Net>, moves: seq<Move>, settled: nat)
    ensures IsRound(nets, moves, who, name, now, settled) && nets[0] == net
  {
    var flush, frames := Flush(who, name, now), Frames(net, who, name, now);
    FlushArrives(net, who, name, now);
    var arrived, delivered, n := ArriveAll([net, Apply(net, flush)], [flush], who, frames, 0);
    settled := n;
    ReturnsFrom(arrived, delivered, who, frames, settled);
    nets, moves := ReturnAll(arrived, delivered, who, frames[..settled], settled);
    ReturnedIsServed(arrived, delivered, nets, moves, who, frames, settled);
  }

  // ---- Chat after chat ----

  datatype Chat = Chat(first: Net, last: Net, nets: seq<Net>, moves: seq<Move>, now: nat, settled: nat)

  /** A chat that flushes the queue, from a start such as a handshake gives. */
  ghost predicate Flushes(chat: Chat, who: Role, name: Text) {
    && IsRound(chat.nets, chat.moves, who, name, chat.now, chat.settled)
    && chat.nets[0] == chat.first && chat.nets[|chat.moves|] == chat.last
    && Linked(chat.first) && Level(chat.first, who)
  }

  predicate Follows(net: Net, next: Net) {
    next == NewChat(net, next.alice.e.session, next.bob.e.session)
  }

  /** Chats one after the other, each with new sessions over the tables that the one before left. */
  ghost predicate ChatRun(chats: seq<Chat>, who: Role, name: Text) {
    && |chats| > 0 && Inv(chats[0].first)
    && (forall k :: 0 <= k < |chats| ==> Flushes(chats[k], who, name))
    && (forall k :: 0 < k < |chats| ==> Follows(chats[k - 1].last, chats[k].first))
  }

  lemma ChatInv(chat: Chat, who: Role, name: Text)
    requires Flushes(chat, who, name) && Inv(chat.first)
    ensures Inv(chat.last)
  {
    StepsInv(chat.nets, chat.moves, |chat.moves|);
  }

  lemma FollowsInv(net: Net, next: Net)
    requires Inv(net) && Follows(net, next)
    ensures Inv(next)
  {
    NewChatInv(net, next.alice.e.session, next.bob.e.session);
  }

  lemma {:induction false} ChainTrue(before: seq<bool>, after: seq<bool>, k: nat)
    requires k < |before| == |after| && before[0]
    requires forall j :: 0 <= j < |before| ==> before[j] ==> after[j]
    requires forall j :: 0 < j < |before| ==> after[j - 1] ==> before[j]
    ensures before[k] && after[k]
  {
    if k > 0 {
      ChainTrue(before, after, k - 1);
    }
  }

  lemma EachChatInv(chats: seq<Chat>, who: Role, name: Text, j: nat)
    requires ChatRun(chats, who, name) && j < |chats|
    ensures Inv(chats[j].first) ==> Inv(chats[j].last)
    ensures 0 < j ==> Inv(chats[j - 1].last) ==> Inv(chats[j].first)
  {
    if Inv(chats[j].first) {
      ChatInv(chats[j], who, name);
    }
    if 0 < j && Inv(chats[j - 1].last) {
      FollowsInv(chats[j - 1].last, chats[j].first);
    }
  }

  ghost function InvBefore(chats: seq<Chat>): (r: seq<bool>)
    ensures |r| == |chats| && forall j :: 0 <= j < |chats| ==> r[j] == Inv(chats[j].first)
  {
    seq(|chats|, j requires 0 <= j < |chats| => Inv(chats[j].first))
  }

  ghost function InvAfter(chats: seq<Chat>): (r: seq<bool>)
    ensures |r| == |chats| && forall j :: 0 <= j < |chats| ==> r[j] == Inv(chats[j].last)
  {
    seq(|chats|, j requires 0 <= j < |chats| => Inv(chats[j].last))
  }

  /** The delivery invariant holds before and after every chat. */
  lemma ChatsInv(chats: seq<Chat>, who: Role, name: Text, k: nat)
    requires ChatRun(chats, who, name) && k < |chats|
    ensures Inv(chats[k].first) && Inv(chats[k].last)
  {
    var before, after := InvBefore(chats), InvAfter(chats);
    forall j | 0 <= j < |chats| ensures before[j] ==> after[j] {
      EachChatInv(chats, who, name, j);
    }
    forall j | 0 < j < |chats| ensures after[j - 1] ==> before[j] {
      EachChatInv(chats, who, name, j);
    }
    ChainTrue(before, after, k);
  }

  /** How far a queue has come from one endpoint state to a later one. */
  ghost predicate Advances(e: Endpoint, e': Endpoint, name: Text, least: nat) {
    && (forall id :: id in e'.pending ==> id in e.pending && SameRow(e.pending[id], e'.pending[id]))
    && (Waiting(e', name) == {} || |Waiting(e', name)| + least <= |Waiting(e, name)|)
  }

  lemma ChatAdvances(chat: Chat, who: Role, name: Text)
    requires Flushes(chat, who, name) && Inv(chat.first)
    ensures Advances(Of(chat.first, who).e, Of(chat.last, who).e, name, 9)
  {
    RoundLaw(chat.nets, chat.moves, who, name, chat.now, chat.settled);
  }

  lemma AdvancesFurther(e: Endpoint, e1: Endpoint, e2: Endpoint, e3: Endpoint, name: Text, least: nat, more: nat)
    requires Advances(e, e1, name, least) && e2.pending == e1.pending && Advances(e2, e3, name, more)
    ensures Advances(e, e3, name, least + more)
  {
    assert Waiting(e2, name) == Waiting(e1, name);
    assert Waiting(e3, name) <= Waiting(e1, name);
  }

  lemma {:induction false} ChainAdvances(before: seq<Endpoint>, after: seq<Endpoint>, name: Text, k: nat)
    requires k < |before| == |after|
    requires forall j :: 0 <= j < |before| ==> Advances(before[j], after[j], name, 9)
    requires forall j :: 0 < j < |before| ==> before[j].pending == after[j - 1].pending
    ensures Advances(before[0], after[k], name, 9 * (k + 1))
  {
    if k > 0 {
      ChainAdvances(before, after, name, k - 1);
      assert before[k].pending == after[k - 1].pending && Advances(before[k], after[k], name, 9);
      AdvancesFurther(before[0], after[k - 1], before[k], after[k], name, 9 * k, 9);
    }
  }

  /** The sending endpoint before each chat, and after it. */
  ghost function Before(chats: seq<Chat>, who: Role): (r: seq<Endpoint>)
    ensures |r| == |chats| && forall j :: 0 <= j < |chats| ==> r[j] == Of(chats[j].first, who).e
  {
    seq(|chats|, j requires 0 <= j < |chats| => Of(chats[j].first, who).e)
  }

  ghost function After(chats: seq<Chat>, who: Role): (r: seq<Endpoint>)
    ensures |r| == |chats| && forall j :: 0 <= j < |chats| ==> r[j] == Of(chats[j].last, who).e
  {
    seq(|chats|, j requires 0 <= j < |chats| => Of(chats[j].last, who).e)
  }

  lemma EachChatAdvances(chats: seq<Chat>, who: Role, name: Text, j: nat)
    requires ChatRun(chats, who, name) && j < |chats|
    ensures Advances(Before(chats, who)[j], After(chats, who)[j], name, 9)
    ensures 0 < j ==> Before(chats, who)[j].pending == After(chats, who)[j - 1].pending
  {
    ChatsInv(chats, who, name, j);
    ChatAdvances(chats[j], who, name);
    assert 0 < j ==> Follows(chats[j - 1].last, chats[j].first);
  }

  /** Every chat empties the queue or takes at least nine rows out of it. */
  lemma ChatsAdvance(chats: seq<Chat>, who: Role, name: Text, k: nat)
    requires ChatRun(chats, who, name) && k < |chats|
    ensures Advances(Of(chats[0].first, who).e, Of(chats[k].last, who).e, name, 9 * (k + 1))
  {
    var before, after := Before(chats, who), After(chats, who);
    forall j | 0 <= j < |chats|
      ensures Advances(before[j], after[j], name, 9) && (0 < j ==> before[j].pending == after[j - 1].pending)
    {
      EachChatAdvances(chats, who, name, j);
    }
    ChainAdvances(before, after, name, k);
  }

  lemma {:induction false} StepsIssued(nets: seq<Net>, moves: seq<Move>, i: nat, id: Text)
    requires Steps(nets, moves) && i <= |moves| && id in nets[0].issued
    ensures id in nets[i].issued && nets[i].issued[id] == nets[0].issued[id]
  {
    if i > 0 {
      StepsIssued(nets, moves, i - 1, id);
      assert nets[i] == Apply(nets[i - 1], moves[i - 1]) && Possible(nets[i - 1], moves[i - 1]);
    }
  }

  lemma {:induction false} ChatsIssued(chats: seq<Chat>, who: Role, name: Text, k: nat, id: Text)
    requires ChatRun(chats, who, name) && k < |chats| && id in chats[0].first.issued
    ensures id in chats[k].last.issued && chats[k].last.issued[id] == chats[0].first.issued[id]
  {
    if k > 0 {
      ChatsIssued(chats, who, name, k - 1, id);
      assert Follows(chats[k - 1].last, chats[k].first);
    }
    assert Flushes(chats[k], who, name);
    StepsIssued(chats[k].nets, chats[k].moves, |chats[k].moves|, id);
  }

  /** A message that left the queue is stored at the receiver with the text it was queued with. */
  lemma GoneIsStored(first: Net, last: Net, who: Role, id: Text)
    requires Inv(first) && Inv(last) && id in Of(first, who).e.pending && id !in Of(last, who).e.pending
    requires id in first.issued ==> id in last.issued && last.issued[id] == first.issued[id]
    ensures StoredAs(Of(last, Other(who)).e, id, Of(first, who).e.pending[id].text)
  {
    assert PendingTrue(first.issued, Of(first, who).e, who);
  }

  /**
   * Recovery: a queue of any length is delivered by as many chats as it has rows, divided by nine and
   * rounded up, whatever was lost before. Each message is then stored at the receiver with its text.
   */
  lemma QueueDelivered(chats: seq<Chat>, who: Role, name: Text, id: Text)
    requires ChatRun(chats, who, name) && id in Waiting(Of(chats[0].first, who).e, name)
    requires |Waiting(Of(chats[0].first, who).e, name)| <= 9 * |chats|
    ensures var (first, last) := (chats[0].first, chats[|chats| - 1].last);
      && id !in Of(last, who).e.pending
      && StoredAs(Of(last, Other(who)).e, id, Of(first, who).e.pending[id].text)
  {
    var n := |chats| - 1;
    var e, e' := Of(chats[0].first, who).e, Of(chats[n].last, who).e;
    ChatsAdvance(chats, who, name, n);
    assert id in e'.pending <==> id in Waiting(e', name);
    assert Waiting(e', name) == {};
    ChatsInv(chats, who, name, 0);
    ChatsInv(chats, who, name, n);
    if id in chats[0].first.issued {
      ChatsIssued(chats, who, name, n, id);
    }
    GoneIsStored(chats[0].first, chats[n].last, who, id);
  }
}
