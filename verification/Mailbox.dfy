/** The mailbox: a bounded store of envelopes with a pending, delivered or expired status. */
module Mailbox {
  import opened Bytes
  import opened Sorting
  import opened Wrappers

  datatype Status = Pending | Delivered | Expired

  datatype Envelope = Envelope(
    messageId: Text,
    recipient: Text,
    payload: seq<byte>,
    createdAt: nat,
    expiresAt: Option<nat>)

  datatype Row = Row(envelope: Envelope, status: Status, deliveredAt: Option<nat>)

  type Table = map<Text, Row>

  datatype DepositResult = Stored(inserted: bool) | Full

  predicate Due(e: Envelope, now: nat) {
    e.expiresAt.Some? && e.expiresAt.value <= now
  }

  function Expire(t: Table, now: nat): Table {
    map id | id in t ::
      if t[id].status == Pending && Due(t[id].envelope, now) then t[id].(status := Expired) else t[id]
  }

  function PendingIds(t: Table): set<Text> {
    set id | id in t && t[id].status == Pending
  }

  function Deposit(t: Table, limit: nat, e: Envelope, now: nat): (Table, DepositResult) {
    var expired := Expire(t, now);
    if e.messageId in expired then (expired, Stored(false))
    else if |PendingIds(expired)| >= limit then (expired, Full)
    else (expired[e.messageId := Row(e, Pending, None)], Stored(true))
  }

  function Acknowledge(t: Table, id: Text, now: nat): Table {
    if id in t then t[id := t[id].(status := Delivered, deliveredAt := Some(now))] else t
  }

  /** The rows a fetch selects, by their sort key. */
  function Selected(t: Table, recipient: Text, now: nat): set<TimedKey> {
    set id | id in t && t[id].envelope.recipient == recipient && t[id].status == Pending && !Due(t[id].envelope, now) ::
      TimedKey(t[id].envelope.createdAt, id)
  }

  function EnvelopesAt(t: Table, keys: seq<TimedKey>): seq<Envelope>
    requires forall k :: k in keys ==> k.id in t
  {
    seq(|keys|, i requires 0 <= i < |keys| => t[keys[i].id].envelope)
  }

  function Fetch(t: Table, recipient: Text, now: nat): seq<Envelope> {
    TimedOrder();
    EnvelopesAt(t, Sorted(Selected(t, recipient, now), TimedLe))
  }

  class MailboxStorage {
    var rows: Table
    const limit: nat

    constructor (limit: nat)
      ensures rows == map[] && this.limit == limit
    {
      rows := map[];
      this.limit := limit;
    }

    method ExpireRows(now: nat)
      modifies this`rows
      ensures rows == Expire(old(rows), now)
    {
      rows := Expire(rows, now);
    }

    method PendingCount() returns (n: nat)
      ensures n == |PendingIds(rows)|
    {
      n := |PendingIds(rows)|;
    }

    method DepositEnvelope(e: Envelope, now: nat) returns (r: DepositResult)
      modifies this`rows
      ensures (rows, r) == Deposit(old(rows), limit, e, now)
    {
      ExpireRows(now);
      var pending := PendingCount();
      if pending >= limit && e.messageId !in rows {
        return Full;
      }
      var inserted := e.messageId !in rows;
      if inserted {
        rows := rows[e.messageId := Row(e, Pending, None)];
      }
      r := Stored(inserted);
    }

    method FetchPending(recipient: Text, now: nat) returns (found: seq<Envelope>)
      modifies this`rows
      ensures rows == Expire(old(rows), now)
      ensures found == Fetch(Expire(old(rows), now), recipient, now)
    {
      ExpireRows(now);
      found := Fetch(rows, recipient, now);
    }

    method AcknowledgeRetrieval(id: Text, now: nat)
      modifies this`rows
      ensures rows == Acknowledge(old(rows), id, now)
    {
      if id in rows {
        rows := rows[id := rows[id].(status := Delivered, deliveredAt := Some(now))];
      }
    }
  }

  // ---- Runs ----

  datatype Op =
    | DepositOp(e: Envelope, now: nat)
    | FetchOp(recipient: Text, now: nat)
    | AckOp(id: Text, now: nat)
    | ExpireOp(now: nat)

  function Next(t: Table, limit: nat, op: Op): Table {
    match op
    case DepositOp(e, now) => Deposit(t, limit, e, now).0
    case FetchOp(_, now) => Expire(t, now)
    case AckOp(id, now) => Acknowledge(t, id, now)
    case ExpireOp(now) => Expire(t, now)
  }

  ghost predicate IsRun(states: seq<Table>, limit: nat, ops: seq<Op>) {
    && |states| == |ops| + 1
    && states[0] == map[]
    && forall i :: 0 <= i < |ops| ==> states[i + 1] == Next(states[i], limit, ops[i])
  }

  /** The pending envelopes whose time is not up. */
  function Ready(t: Table, now: nat): set<Text> {
    set id | id in t && t[id].status == Pending &&
      (t[id].envelope.expiresAt.Some? ==> now < t[id].envelope.expiresAt.value)
  }

  /** The operation stores a new row: the id is new, and fewer envelopes than the limit are ready. */
  predicate Accepts(t: Table, limit: nat, op: Op, id: Text) {
    op.DepositOp? && op.e.messageId == id && id !in t && |Ready(t, op.now)| < limit
  }

  /** The operation ends the pending life of an envelope: it is acknowledged or its time is up. */
  predicate Ends(op: Op, e: Envelope) {
    || (op.AckOp? && op.id == e.messageId)
    || (!op.AckOp? && e.expiresAt.Some? && e.expiresAt.value <= op.now)
  }

  lemma ExpireLeavesReady(t: Table, now: nat)
    ensures PendingIds(Expire(t, now)) == Ready(t, now)
  {
  }

  /** The answer to a deposit, each as an iff. */
  lemma DepositAnswer(t: Table, limit: nat, e: Envelope, now: nat)
    ensures var r := Deposit(t, limit, e, now).1;
      && (r == Full <==> e.messageId !in t && |Ready(t, now)| >= limit)
      && (r == Stored(true) <==> e.messageId !in t && |Ready(t, now)| < limit)
      && (r == Stored(false) <==> e.messageId in t)
  {
    ExpireLeavesReady(t, now);
  }

  /** An acknowledgement marks its row delivered at that time, whatever its status, and touches no other. */
  lemma AcknowledgeLaw(t: Table, id: Text, now: nat, other: Text)
    ensures var t' := Acknowledge(t, id, now);
      && t'.Keys == t.Keys
      && (id in t ==> t'[id] == Row(t[id].envelope, Delivered, Some(now)))
      && (other in t && other != id ==> t'[other] == t[other])
  {
  }

  /** The clock turns exactly the due pending envelopes into expired ones. */
  lemma ExpireLaw(t: Table, now: nat, id: Text)
    ensures var t' := Expire(t, now);
      && t'.Keys == t.Keys
      && (id in t ==>
            && t'[id].envelope == t[id].envelope && t'[id].deliveredAt == t[id].deliveredAt
            && t'[id].status ==
               if t[id].status == Pending && t[id].envelope.expiresAt.Some? && t[id].envelope.expiresAt.value <= now
               then Expired else t[id].status)
  {
  }

  /** What one operation does to one id. */
  lemma StepLaw(t: Table, limit: nat, op: Op, id: Text)
    requires forall k :: k in t ==> t[k].envelope.messageId == k
    ensures var t' := Next(t, limit, op);
      && (forall k :: k in t' ==> t'[k].envelope.messageId == k)
      && (id in t' <==> id in t || Accepts(t, limit, op, id))
      && (id in t ==> t'[id].envelope == t[id].envelope && !Accepts(t, limit, op, id))
      && (id in t ==> (t'[id].status == Pending <==> t[id].status == Pending && !Ends(op, t[id].envelope)))
      && (id !in t && id in t' ==> op.DepositOp? && t'[id] == Row(op.e, Pending, None))
  {
    if op.DepositOp? {
      ExpireLeavesReady(t, op.now);
    }
  }

  lemma {:induction false} RunKeyed(states: seq<Table>, limit: nat, ops: seq<Op>, i: nat)
    requires IsRun(states, limit, ops) && i < |states|
    ensures forall k :: k in states[i] ==> states[i][k].envelope.messageId == k
  {
    if i > 0 {
      RunKeyed(states, limit, ops, i - 1);
      StepLaw(states[i - 1], limit, ops[i - 1], []);
    }
  }

  /** Over a run a row keeps its first envelope, and once it is not pending it never is again. */
  lemma {:induction false} NeverPendingAgain(states: seq<Table>, limit: nat, ops: seq<Op>, i: nat, j: nat, id: Text)
    requires IsRun(states, limit, ops) && i <= j < |states| && id in states[i]
    ensures id in states[j] && states[j][id].envelope == states[i][id].envelope
    ensures states[i][id].status != Pending ==> states[j][id].status != Pending
    decreases j
  {
    if i < j {
      NeverPendingAgain(states, limit, ops, i, j - 1, id);
      RunKeyed(states, limit, ops, j - 1);
      StepLaw(states[j - 1], limit, ops[j - 1], id);
    }
  }

  // ---- The limit ----

  lemma SubsetCount<T>(a: set<T>, b: set<T>)
    requires a <= b
    ensures |a| <= |b|
  {
    assert b == a + (b - a);
  }

  lemma NextPending(t: Table, limit: nat, op: Op)
    requires |PendingIds(t)| <= limit
    ensures |PendingIds(Next(t, limit, op))| <= limit
  {
    var t' := Next(t, limit, op);
    if op.DepositOp? && Deposit(t, limit, op.e, op.now).1 == Stored(true) {
      assert PendingIds(t') == PendingIds(Expire(t, op.now)) + {op.e.messageId};
    } else {
      assert PendingIds(t') <= PendingIds(t);
      SubsetCount(PendingIds(t'), PendingIds(t));
    }
  }

  /** In every reachable state the number of pending envelopes is within the limit. */
  lemma {:induction false} PendingWithinLimit(states: seq<Table>, limit: nat, ops: seq<Op>, i: nat)
    requires IsRun(states, limit, ops) && i < |states|
    ensures |PendingIds(states[i])| <= limit
  {
    if i == 0 {
      assert PendingIds(states[0]) == {};
    } else {
      PendingWithinLimit(states, limit, ops, i - 1);
      NextPending(states[i - 1], limit, ops[i - 1]);
    }
  }

  // ---- What a fetch returns, from the history alone ----

  /** The deposit at step `i` was stored and nothing between it and step `j` ended it. */
  ghost predicate LiveSince(states: seq<Table>, limit: nat, ops: seq<Op>, i: int, j: int, id: Text)
    requires |states| == |ops| + 1 && j <= |ops|
  {
    && 0 <= i < j
    && Accepts(states[i], limit, ops[i], id)
    && forall k :: i < k < j ==> !Ends(ops[k], ops[i].e)
  }

  lemma {:induction false} PendingHasOrigin(states: seq<Table>, limit: nat, ops: seq<Op>, j: nat, id: Text)
    returns (i: int)
    requires IsRun(states, limit, ops) && j <= |ops|
    requires id in states[j] && states[j][id].status == Pending
    ensures LiveSince(states, limit, ops, i, j, id) && states[j][id].envelope == ops[i].e
    decreases j
  {
    RunKeyed(states, limit, ops, j - 1);
    StepLaw(states[j - 1], limit, ops[j - 1], id);
    assert states[j] == Next(states[j - 1], limit, ops[j - 1]);
    if id in states[j - 1] {
      i := PendingHasOrigin(states, limit, ops, j - 1, id);
    } else {
      i := j - 1;
    }
  }

  lemma {:induction false} LiveIsPending(states: seq<Table>, limit: nat, ops: seq<Op>, i: int, j: nat, id: Text)
    requires IsRun(states, limit, ops) && j <= |ops| && LiveSince(states, limit, ops, i, j, id)
    ensures id in states[j] && states[j][id] == Row(ops[i].e, Pending, None)
    decreases j
  {
    assert states[j] == Next(states[j - 1], limit, ops[j - 1]);
    RunKeyed(states, limit, ops, j - 1);
    StepLaw(states[j - 1], limit, ops[j - 1], id);
    if i < j - 1 {
      LiveIsPending(states, limit, ops, i, j - 1, id);
      assert !Ends(ops[j - 1], ops[i].e);
    }
  }

  lemma SelectedIsListed(t: Table, recipient: Text, now: nat, e: Envelope)
    requires forall k :: k in t ==> t[k].envelope.messageId == k
    ensures e in Fetch(t, recipient, now) <==>
      && e.messageId in t && t[e.messageId].envelope == e
      && t[e.messageId].status == Pending && e.recipient == recipient && !Due(e, now)
  {
    TimedOrder();
    var keys := Sorted(Selected(t, recipient, now), TimedLe);
    if e in Fetch(t, recipient, now) {
      var i :| 0 <= i < |keys| && Fetch(t, recipient, now)[i] == e;
      assert keys[i] in keys;
    }
    var key := TimedKey(e.createdAt, e.messageId);
    if e.messageId in t && t[e.messageId].envelope == e && key in Selected(t, recipient, now) {
      assert key in keys;
      var i :| 0 <= i < |keys| && keys[i] == key;
      assert Fetch(t, recipient, now)[i] == e;
    }
  }

  /**
   * A fetch, after any history, returns an envelope exactly when it is the first stored deposit of
   * its id, is addressed to the recipient, and neither an acknowledgement nor the clock of any
   * operation since, this fetch included, has ended it.
   */
  lemma FetchIffLive(states: seq<Table>, limit: nat, ops: seq<Op>, j: nat, e: Envelope)
    requires IsRun(states, limit, ops) && j < |ops| && ops[j].FetchOp?
    ensures e in Fetch(Expire(states[j], ops[j].now), ops[j].recipient, ops[j].now) <==>
      && e.recipient == ops[j].recipient && (e.expiresAt.Some? ==> ops[j].now < e.expiresAt.value)
      && exists i :: LiveSince(states, limit, ops, i, j, e.messageId) && ops[i].e == e
  {
    var t, now := states[j], ops[j].now;
    RunKeyed(states, limit, ops, j);
    SelectedIsListed(Expire(t, now), ops[j].recipient, now, e);
    if e.messageId in t && t[e.messageId].status == Pending && t[e.messageId].envelope == e {
      var i := PendingHasOrigin(states, limit, ops, j, e.messageId);
    }
    if i :| LiveSince(states, limit, ops, i, j, e.messageId) && ops[i].e == e {
      LiveIsPending(states, limit, ops, i, j, e.messageId);
    }
  }

  /** Envelopes come back in (created_at, id) order, each id once. */
  lemma FetchOrdered(t: Table, recipient: Text, now: nat, i: nat, j: nat)
    requires forall k :: k in t ==> t[k].envelope.messageId == k
    requires i < j < |Fetch(t, recipient, now)|
    ensures var a, b := Fetch(t, recipient, now)[i], Fetch(t, recipient, now)[j];
      && (a.createdAt < b.createdAt || (a.createdAt == b.createdAt && LexLe(a.messageId, b.messageId)))
      && a.messageId != b.messageId
  {
    TimedOrder();
    var keys := Sorted(Selected(t, recipient, now), TimedLe);
    assert keys[i] in keys && keys[j] in keys;
  }
}
