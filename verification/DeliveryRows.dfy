/** What the rows of the chat tables hold over whole runs: attempts, times, statuses and message numbers. */
module DeliveryRows {
  import opened Bytes
  import opened Wrappers
  import opened Sorting
  import opened Ratchet
  import opened Delivery

  // ---- One flush ----

  /** The row after an attempt at this time. */
  function Attempted(row: PendingRow, now: nat): PendingRow {
    PendingRow(row.peer, row.text, row.createdAt, row.retries + 1, Some(now))
  }

  predicate Among(keys: seq<TimedKey>, n: nat, id: Text)
    requires n <= |keys|
  {
    exists i :: 0 <= i < n && keys[i].id == id
  }

  /** Resending the first `n` of different rows attempts exactly those, once each. */
  lemma {:induction false} ResendAttempts(e: Endpoint, keys: seq<TimedKey>, n: nat, now: nat, id: Text)
    requires n <= |keys| && (forall k :: k in keys ==> k.id in e.pending)
    requires forall i, j :: 0 <= i < j < |keys| ==> keys[i].id != keys[j].id
    requires id in e.pending
    ensures var pending := ResendFirst(e, keys, n, now).0.pending;
      && pending.Keys == e.pending.Keys
      && pending[id] == if Among(keys, n, id) then Attempted(e.pending[id], now) else e.pending[id]
  {
    if n > 0 {
      var k := keys[n - 1];
      assert k in keys;
      ResendAttempts(e, keys, n - 1, now, id);
      AttemptOne(ResendFirst(e, keys, n - 1, now).0, k.id, e.pending[k.id].text, now, id);
      assert Among(keys, n, id) <==> Among(keys, n - 1, id) || k.id == id;
      assert k.id == id ==> !Among(keys, n - 1, id);
    }
  }

  lemma AttemptOne(e: Endpoint, id: Text, text: string, now: nat, other: Text)
    requires id in e.pending && other in e.pending
    ensures var pending := Resend(e, id, text, now).0.pending;
      && pending.Keys == e.pending.Keys
      && pending[other] == if other == id then Attempted(e.pending[id], now) else e.pending[other]
  {
  }

  lemma DifferentIds(pending: map<Text, PendingRow>, peer: Text)
    ensures var keys := PendingFor(pending, peer);
      forall i, j :: 0 <= i < j < |keys| ==> keys[i].id != keys[j].id
  {
    var keys := PendingFor(pending, peer);
    forall i, j | 0 <= i < j < |keys| ensures keys[i].id != keys[j].id {
      assert keys[i] in keys && keys[j] in keys;
      assert keys[i] != keys[j];
    }
  }

  /** A flush attempts exactly the rows queued under its name. */
  lemma FlushAttempts(e: Endpoint, name: Text, now: nat, id: Text)
    requires id in e.pending
    ensures var pending := SendPending(e, name, now).0.pending;
      && pending.Keys == e.pending.Keys
      && pending[id] == if e.pending[id].peer == name then Attempted(e.pending[id], now) else e.pending[id]
  {
    var keys := PendingFor(e.pending, name);
    DifferentIds(e.pending, name);
    ResendAttempts(e, keys, |keys|, now, id);
    assert forall i :: 0 <= i < |keys| ==> keys[i] in keys;
    if e.pending[id].peer == name {
      var i :| 0 <= i < |keys| && keys[i] == TimedKey(e.pending[id].createdAt, id);
      assert Among(keys, |keys|, id);
    }
  }

  // ---- One move, for an id of the endpoint that moves ----

  /** What a move of `who` does to one of its queued rows. */
  function RowAfter(row: PendingRow, move: Move, who: Role): PendingRow {
    if move.Flush? && move.who == who && move.peer == row.peer then Attempted(row, move.now) else row
  }

  lemma MovedRow(issued: map<Text, (Role, string)>, n: Node, move: Move, id: Text)
    requires forall k :: k in n.e.pending ==> k in n.e.history
    requires id in n.e.history && (move.Queue? || move.Line? ==> move.id != id)
    ensures var (e, e') := (n.e, Moved(issued, n, move).1.e);
      && (id in e'.pending <==> id in e.pending && !(move.DeliverAck? && move.id == id))
      && (id in e'.pending ==> e'.pending[id] == RowAfter(e.pending[id], move, move.who))
      && id in e'.history
      && e'.history[id] ==
         if move.DeliverAck? && move.id == id then e.history[id].(status := StatusSent) else e.history[id]
  {
    match move
    case Queue(_, _, _, _, _) =>
    case Line(_, _, _, _, _) =>
    case Flush(_, name, now) => FlushedRow(n.e, name, now, id);
    case DeliverFrame(_, f) => FrameRow(n.e, f, id);
    case DeliverAck(_, _) =>
    case Reload(_, _) =>
  }

  lemma FrameRow(e: Endpoint, f: Frame, id: Text)
    requires id in e.history
    ensures var e' := HandleFrame(e, f).0;
      e'.pending == e.pending && id in e'.history && e'.history[id] == e.history[id]
  {
  }

  lemma FlushedRow(e: Endpoint, name: Text, now: nat, id: Text)
    requires forall k :: k in e.pending ==> k in e.history
    ensures var e' := SendPending(e, name, now).0;
      && e'.history == e.history
      && (id in e'.pending <==> id in e.pending)
      && (id in e.pending ==>
            e'.pending[id] == if e.pending[id].peer == name then Attempted(e.pending[id], now) else e.pending[id])
  {
    SendPendingLaw(e, name, now);
    assert id in e.pending <==> id in e.pending.Keys;
    if id in e.pending {
      FlushAttempts(e, name, now, id);
    }
  }

  // ---- A message over a run ----

  /** The state of one own id at an endpoint: its queued row, if any, and its status. */
  datatype Own = Own(row: Option<PendingRow>, history: HistoryRow)

  function OwnAt(e: Endpoint, id: Text): Own
    requires id in e.history
  {
    Own(if id in e.pending then Some(e.pending[id]) else None, e.history[id])
  }

  /** What a move of either endpoint does to a message of `who`. */
  function OwnAfter(own: Own, move: Move, who: Role, id: Text): Own {
    if move == DeliverAck(who, id) then Own(None, own.history.(status := StatusSent))
    else own.(row := if own.row.Some? then Some(RowAfter(own.row.value, move, who)) else None)
  }

  lemma OwnMoved(issued: map<Text, (Role, string)>, n: Node, move: Move, id: Text)
    requires forall k :: k in n.e.pending ==> k in n.e.history
    requires id in n.e.history && (move.Queue? || move.Line? ==> move.id != id)
    ensures var e' := Moved(issued, n, move).1.e;
      id in e'.history && OwnAt(e', id) == OwnAfter(OwnAt(n.e, id), move, move.who, id)
  {
    MovedRow(issued, n, move, id);
  }

  lemma OtherMove(own: Own, move: Move, who: Role, id: Text)
    requires move.who != who
    ensures OwnAfter(own, move, who, id) == own
  {
  }

  lemma OwnStep(net: Net, move: Move, who: Role, id: Text)
    requires Inv(net) && Possible(net, move) && id in net.issued && id in Of(net, who).e.history
    ensures id in Of(Apply(net, move), who).e.history
    ensures OwnAt(Of(Apply(net, move), who).e, id) == OwnAfter(OwnAt(Of(net, who).e, id), move, who, id)
  {
    OtherUnchanged(net, move);
    if move.who == who {
      assert PendingTrue(net.issued, Of(net, who).e, who);
      OwnMoved(net.issued, Of(net, who), move, id);
    } else {
      OtherMove(OwnAt(Of(net, who).e, id), move, who, id);
      assert who == Other(move.who);
    }
  }

  lemma OwnStart(net: Net, move: Move, id: Text)
    requires Inv(net) && Possible(net, move) && (move.Queue? || move.Line?) && move.id == id
    ensures var e := Of(Apply(net, move), move.who).e;
      && id in e.history
      && OwnAt(e, id) == Own(Some(PendingRow(move.peer, move.text, move.now, 0, None)),
                             HistoryRow(Outgoing, if move.Queue? then StatusStored else StatusSent, None, move.text))
  {
    var n := Of(net, move.who);
    assert id !in net.issued;
    assert HistoryTrue(net.issued, n.e, move.who) && PendingTrue(net.issued, n.e, move.who);
    assert id !in n.e.history && id !in n.e.pending;
  }

  /** How many flushes of this name `who` made in these moves. */
  function Flushes(moves: seq<Move>, who: Role, name: Text): nat {
    if moves == [] then 0
    else
      var n := |moves| - 1;
      Flushes(moves[..n], who, name) + if IsFlush(moves[n], who, name) then 1 else 0
  }

  /** When the last of them was. */
  function LastFlush(moves: seq<Move>, who: Role, name: Text): Option<nat> {
    if moves == [] then None
    else
      var n := |moves| - 1;
      if IsFlush(moves[n], who, name) then Some(moves[n].now) else LastFlush(moves[..n], who, name)
  }

  predicate IsFlush(move: Move, who: Role, name: Text) {
    move.Flush? && move.who == who && move.peer == name
  }

  /** A message of `who` as the moves since its submission leave it. */
  ghost predicate OwnLaw(own: Own, start: Move, moves: seq<Move>)
    requires start.Queue? || start.Line?
  {
    && (own.row.None? <==> DeliverAck(start.who, start.id) in moves)
    && (own.row.Some? ==>
          own.row.value == PendingRow(start.peer, start.text, start.now, Flushes(moves, start.who, start.peer),
                                      LastFlush(moves, start.who, start.peer)))
    && own.history == HistoryRow(Outgoing, if start.Queue? && own.row.Some? then StatusStored else StatusSent,
                                 None, start.text)
  }

  lemma OwnLawNext(own: Own, start: Move, moves: seq<Move>, move: Move)
    requires (start.Queue? || start.Line?) && OwnLaw(own, start, moves)
    ensures OwnLaw(OwnAfter(own, move, start.who, start.id), start, moves + [move])
  {
    assert (moves + [move])[..|moves|] == moves;
  }

  lemma RunOwnStep(nets: seq<Net>, moves: seq<Move>, k: nat, i: nat)
    requires IsRun(nets, moves) && k < i < |moves| && (moves[k].Queue? || moves[k].Line?)
    requires moves[k].id in Of(nets[i], moves[k].who).e.history
    ensures var (who, id) := (moves[k].who, moves[k].id);
      && id in Of(nets[i + 1], who).e.history
      && OwnAt(Of(nets[i + 1], who).e, id) == OwnAfter(OwnAt(Of(nets[i], who).e, id), moves[i], who, id)
  {
    RunInv(nets, moves, i);
    IssuedStays(nets, moves, k, i, moves[k].who, moves[k].id, moves[k].text);
    OwnStep(nets[i], moves[i], moves[k].who, moves[k].id);
  }

  lemma RunOwnStart(nets: seq<Net>, moves: seq<Move>, k: nat)
    requires IsRun(nets, moves) && k < |moves| && (moves[k].Queue? || moves[k].Line?)
    ensures var e := Of(nets[k + 1], moves[k].who).e;
      moves[k].id in e.history && OwnLaw(OwnAt(e, moves[k].id), moves[k], [])
  {
    RunInv(nets, moves, k);
    OwnStart(nets[k], moves[k], moves[k].id);
  }

  /** The id is in the history after `k` up to `i`, and each move changes the message as `OwnAfter` says. */
  ghost predicate OwnTrail(es: seq<Endpoint>, moves: seq<Move>, start: Move, k: nat, i: nat)
    requires start.Queue? || start.Line?
  {
    && k < i < |es| <= |moves| + 1
    && (forall j :: k < j <= i ==> start.id in es[j].history)
    && (forall j :: k < j < i ==>
          OwnAt(es[j + 1], start.id) == OwnAfter(OwnAt(es[j], start.id), moves[j], start.who, start.id))
  }

  lemma {:induction false} OwnTrailLaw(es: seq<Endpoint>, moves: seq<Move>, start: Move, k: nat, i: nat)
    requires (start.Queue? || start.Line?) && OwnTrail(es, moves, start, k, i)
    requires OwnLaw(OwnAt(es[k + 1], start.id), start, [])
    ensures OwnLaw(OwnAt(es[i], start.id), start, moves[k + 1..i])
    decreases i
  {
    if i == k + 1 {
      assert moves[k + 1..i] == [];
    } else {
      OwnTrailLaw(es, moves, start, k, i - 1);
      assert OwnAt(es[i], start.id) == OwnAfter(OwnAt(es[i - 1], start.id), moves[i - 1], start.who, start.id);
      OwnLawNext(OwnAt(es[i - 1], start.id), start, moves[k + 1..i - 1], moves[i - 1]);
      assert moves[k + 1..i] == moves[k + 1..i - 1] + [moves[i - 1]];
    }
  }

  lemma StaysInHistory(nets: seq<Net>, moves: seq<Move>, k: nat, j: nat)
    requires IsRun(nets, moves) && k < j <= |moves| && (moves[k].Queue? || moves[k].Line?)
    ensures moves[k].id in Of(nets[j], moves[k].who).e.history
  {
    RunOwnStart(nets, moves, k);
    HistoryMonotone(nets, moves, k + 1, j, moves[k].who);
  }

  lemma SubmittedTrail(nets: seq<Net>, moves: seq<Move>, k: nat, i: nat)
    requires IsRun(nets, moves) && k < i <= |moves| && (moves[k].Queue? || moves[k].Line?)
    ensures OwnTrail(Endpoints(nets, moves[k].who), moves, moves[k], k, i)
  {
    var es, id := Endpoints(nets, moves[k].who), moves[k].id;
    forall j | k < j <= i ensures id in es[j].history {
      StaysInHistory(nets, moves, k, j);
    }
    forall j | k < j < i ensures OwnAt(es[j + 1], id) == OwnAfter(OwnAt(es[j], id), moves[j], moves[k].who, id) {
      StaysInHistory(nets, moves, k, j);
      RunOwnStep(nets, moves, k, j);
    }
  }

  /**
   * What the tables hold of a submitted message at any later point of any run. It is queued exactly until
   * its acknowledgement is delivered, under the name, text and time it was submitted with, with the number
   * of flushes of that name since and the time of the last; and the history shows a message queued offline
   * as stored exactly while it is queued, and otherwise as sent.
   */
  lemma SubmittedRows(nets: seq<Net>, moves: seq<Move>, k: nat, i: nat)
    requires IsRun(nets, moves) && k < i <= |moves| && (moves[k].Queue? || moves[k].Line?)
    ensures var e := Of(nets[i], moves[k].who).e;
      && moves[k].id in e.history
      && OwnLaw(OwnAt(e, moves[k].id), moves[k], moves[k + 1..i])
  {
    SubmittedTrail(nets, moves, k, i);
    RunOwnStart(nets, moves, k);
    OwnTrailLaw(Endpoints(nets, moves[k].who), moves, moves[k], k, i);
  }

  // ---- A received message over a run ----

  lemma ShownRow(net: Net, move: Move)
    requires Inv(net) && Possible(net, move) && move.DeliverFrame? && Shows(net, move, move.f.id)
    ensures var (e, f) := (Of(Apply(net, move), move.who).e, move.f);
      && f.id in net.issued && net.issued[f.id].0 == Other(move.who)
      && f.id in e.history
      && e.history[f.id] == HistoryRow(Incoming, StatusReceived, Some(f.message.number), net.issued[f.id].1)
  {
    assert FramesTrue(net.issued, Of(net, Other(move.who)).frames, Other(move.who));
    DecryptedIsSealed(Of(net, move.who).e.session, move.f.message);
  }

  lemma IncomingStep(net: Net, move: Move, who: Role, id: Text)
    requires Inv(net) && Possible(net, move)
    requires id in net.issued && net.issued[id].0 == Other(who) && id in Of(net, who).e.history
    ensures var (e, e') := (Of(net, who).e, Of(Apply(net, move), who).e);
      id in e'.history && e'.history[id] == e.history[id]
  {
    if move.who == who {
      var n := Of(net, who);
      assert PendingTrue(net.issued, n.e, who);
      assert AcksTrue(net.issued, Of(net, Other(who)), who);
      MovedRow(net.issued, n, move, id);
    }
  }

  /** The row of a message that the peer sent with this id and number. */
  ghost predicate Holds(net: Net, who: Role, id: Text, number: nat) {
    && id in net.issued && net.issued[id].0 == Other(who)
    && id in Of(net, who).e.history
    && Of(net, who).e.history[id] == HistoryRow(Incoming, StatusReceived, Some(number), net.issued[id].1)
  }

  lemma HoldsStart(nets: seq<Net>, moves: seq<Move>, k: nat)
    requires IsRun(nets, moves) && k < |moves| && moves[k].DeliverFrame?
    requires Shows(nets[k], moves[k], moves[k].f.id)
    ensures Holds(nets[k + 1], moves[k].who, moves[k].f.id, moves[k].f.message.number)
  {
    RunInv(nets, moves, k);
    ShownRow(nets[k], moves[k]);
    IssuerConstant(nets, moves, k, k + 1, moves[k].f.id);
  }

  lemma HoldsNext(nets: seq<Net>, moves: seq<Move>, i: nat, who: Role, id: Text, number: nat)
    requires IsRun(nets, moves) && i < |moves| && Holds(nets[i], who, id, number)
    ensures Holds(nets[i + 1], who, id, number)
  {
    RunInv(nets, moves, i);
    IncomingStep(nets[i], moves[i], who, id);
    IssuerConstant(nets, moves, i, i + 1, id);
  }

  lemma {:induction false} HoldsOn(nets: seq<Net>, moves: seq<Move>, k: nat, i: nat, who: Role, id: Text, number: nat)
    requires IsRun(nets, moves) && k <= i <= |moves| && Holds(nets[k], who, id, number)
    ensures Holds(nets[i], who, id, number)
    decreases i
  {
    if k < i {
      HoldsOn(nets, moves, k, i - 1, who, id, number);
      HoldsNext(nets, moves, i - 1, who, id, number);
    }
  }

  /** The row of a shown message holds the number of the frame that was shown, and never changes again. */
  lemma ReceivedRow(nets: seq<Net>, moves: seq<Move>, k: nat, i: nat)
    requires IsRun(nets, moves) && k < i <= |moves| && moves[k].DeliverFrame?
    requires Shows(nets[k], moves[k], moves[k].f.id)
    ensures Holds(nets[i], moves[k].who, moves[k].f.id, moves[k].f.message.number)
  {
    HoldsStart(nets, moves, k);
    HoldsOn(nets, moves, k + 1, i, moves[k].who, moves[k].f.id, moves[k].f.message.number);
  }
}
