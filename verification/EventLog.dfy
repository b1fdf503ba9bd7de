/** The append-only event table and its cached contiguous prefix per conversation and device. */
module EventLog {
  import opened Bytes
  import opened Sorting
  import opened Events

  /** The primary key of the event table. */
  datatype Pos = Pos(device: Text, counter: nat)

  type EventTable = map<Pos, EventRecord>

  type VectorTable = map<(Text, Text), nat>

  datatype Db = Db(events: EventTable, vectors: VectorTable)

  function PosOf(e: EventRecord): Pos {
    Pos(e.deviceId, e.counter)
  }

  /** Every row sits under its own primary key. */
  ghost predicate Keyed(events: EventTable) {
    forall p :: p in events ==> PosOf(events[p]) == p
  }

  predicate Holds(events: EventTable, c: Text, d: Text, n: nat) {
    Pos(d, n) in events && events[Pos(d, n)].conversationId == c
  }

  /** The counters of one device in one conversation. */
  function Counters(events: EventTable, c: Text, d: Text): (r: set<nat>)
    ensures forall n: nat :: n in r <==> Holds(events, c, d, n)
  {
    var r := set p | p in events && p.device == d && events[p].conversationId == c :: p.counter;
    assert forall n: nat :: Holds(events, c, d, n) ==> Pos(d, n).counter in r;
    r
  }

  /** `n` is the largest number such that 1..n are all present. */
  ghost predicate IsPrefix(counters: set<nat>, n: nat) {
    && (forall k: nat :: 1 <= k <= n ==> k in counters)
    && n + 1 !in counters
  }

  function PrefixFrom(counters: set<nat>, from: nat): (n: nat)
    ensures from <= n
    ensures forall k: nat :: from < k <= n ==> k in counters
    ensures n + 1 !in counters
  {
    if from + 1 in counters then PrefixFrom(counters - {from + 1}, from + 1) else from
  }

  function Contiguous(events: EventTable, c: Text, d: Text): (n: nat)
    ensures IsPrefix(Counters(events, c, d), n)
  {
    PrefixFrom(Counters(events, c, d), 0)
  }

  lemma PrefixUnique(counters: set<nat>, m: nat, n: nat)
    requires IsPrefix(counters, m) && IsPrefix(counters, n)
    ensures m == n
  {
    assert m + 1 !in counters && n + 1 !in counters;
  }

  lemma PrefixMonotone(small: set<nat>, m: nat, large: set<nat>, n: nat)
    requires IsPrefix(small, m) && IsPrefix(large, n) && small <= large
    ensures m <= n
  {
    assert n + 1 !in small;
  }

  /** The stored prefix; an absent row counts as zero. */
  function VectorOf(db: Db, c: Text, d: Text): nat {
    if (c, d) in db.vectors then db.vectors[(c, d)] else 0
  }

  // ---- Operations ----

  function Append(db: Db, e: EventRecord): (Db, bool) {
    var inserted := PosOf(e) !in db.events;
    var events := if inserted then db.events[PosOf(e) := e] else db.events;
    var prefix := Contiguous(events, e.conversationId, e.deviceId);
    (Db(events, db.vectors[(e.conversationId, e.deviceId) := prefix]), inserted)
  }

  /** Appends in order, counting the rows that were new. */
  function AppendAll(db: Db, es: seq<EventRecord>): (Db, nat) {
    if es == [] then (db, 0)
    else
      var (front, count) := AppendAll(db, es[..|es| - 1]);
      var (all, inserted) := Append(front, es[|es| - 1]);
      (all, if inserted then count + 1 else count)
  }

  function VectorFor(db: Db, c: Text): map<Text, nat> {
    var devices := set k | k in db.vectors && k.0 == c :: k.1;
    map d | d in devices && (c, d) in db.vectors :: db.vectors[(c, d)]
  }

  /** Moves every row of one conversation to another; an existing vector row of the target is kept. */
  function Merge(db: Db, from: Text, to: Text): Db {
    if from == to then db
    else
      Db(Moved(db.events, from, to), Copied(db.vectors, from, to) + db.vectors - RowsOf(db.vectors, from))
  }

  /** Every row of `from` relabelled as a row of `to`. */
  function Moved(events: EventTable, from: Text, to: Text): EventTable {
    map p | p in events ::
      if events[p].conversationId == from then events[p].(conversationId := to) else events[p]
  }

  /** The vector rows of `from`, under `to`. */
  function Copied(vectors: VectorTable, from: Text, to: Text): VectorTable {
    map k | k in vectors && k.0 == from :: (to, k.1) := vectors[k]
  }

  function RowsOf(vectors: VectorTable, c: Text): set<(Text, Text)> {
    set k | k in vectors && k.0 == c
  }

  function EventsOf(events: EventTable, c: Text): set<Pos> {
    set p | p in events && events[p].conversationId == c
  }

  function Delete(db: Db, c: Text): Db {
    Db(db.events - EventsOf(db.events, c), db.vectors - RowsOf(db.vectors, c))
  }

  // ---- Invariants ----

  /** The cache is exact: every stored prefix is the true one. */
  ghost predicate Exact(db: Db) {
    forall c, d :: VectorOf(db, c, d) == Contiguous(db.events, c, d)
  }

  /** The cache is truthful: no stored prefix claims an event that is not there. */
  ghost predicate Truthful(db: Db) {
    forall c, d :: VectorOf(db, c, d) <= Contiguous(db.events, c, d)
  }

  /** A pair with an event has a row. */
  ghost predicate Tracked(db: Db) {
    forall p :: p in db.events ==> (db.events[p].conversationId, p.device) in db.vectors
  }

  /** What every operation keeps. */
  ghost predicate Valid(db: Db) {
    Keyed(db.events) && Tracked(db) && Truthful(db)
  }

  /** What a truthful vector means to a peer. */
  lemma TruthfulMeans(db: Db, c: Text, d: Text, n: nat)
    requires Truthful(db) && 1 <= n <= VectorOf(db, c, d)
    ensures Holds(db.events, c, d, n)
  {
    assert n in Counters(db.events, c, d);
  }

  lemma AppendGrows(db: Db, e: EventRecord, c: Text, d: Text)
    ensures var events := Append(db, e).0.events;
      && Counters(db.events, c, d) <= Counters(events, c, d)
      && ((c, d) != (e.conversationId, e.deviceId) ==> Counters(events, c, d) == Counters(db.events, c, d))
  {
    var events := Append(db, e).0.events;
    assert forall n: nat :: Holds(db.events, c, d, n) ==> Holds(events, c, d, n);
    if (c, d) != (e.conversationId, e.deviceId) {
      assert forall n: nat :: Holds(events, c, d, n) ==> Holds(db.events, c, d, n);
    }
  }

  /** An append makes its own pair exact, leaves the others alone, and lowers no prefix. */
  lemma AppendLaw(db: Db, e: EventRecord, c: Text, d: Text)
    ensures var db' := Append(db, e).0;
      && ((c, d) == (e.conversationId, e.deviceId) ==> VectorOf(db', c, d) == Contiguous(db'.events, c, d))
      && ((c, d) != (e.conversationId, e.deviceId) ==>
            && VectorOf(db', c, d) == VectorOf(db, c, d)
            && Contiguous(db'.events, c, d) == Contiguous(db.events, c, d))
      && Contiguous(db.events, c, d) <= Contiguous(db'.events, c, d)
  {
    var events := Append(db, e).0.events;
    AppendGrows(db, e, c, d);
    PrefixMonotone(Counters(db.events, c, d), Contiguous(db.events, c, d),
                   Counters(events, c, d), Contiguous(events, c, d));
  }

  lemma AppendKeeps(db: Db, e: EventRecord)
    ensures Exact(db) ==> Exact(Append(db, e).0)
    ensures Truthful(db) ==> Truthful(Append(db, e).0)
    ensures Keyed(db.events) ==> Keyed(Append(db, e).0.events)
    ensures Tracked(db) ==> Tracked(Append(db, e).0)
  {
    forall c, d ensures
      var db' := Append(db, e).0;
      && (VectorOf(db, c, d) == Contiguous(db.events, c, d) ==> VectorOf(db', c, d) == Contiguous(db'.events, c, d))
      && (VectorOf(db, c, d) <= Contiguous(db.events, c, d) ==> VectorOf(db', c, d) <= Contiguous(db'.events, c, d))
    {
      AppendLaw(db, e, c, d);
    }
  }

  /** What an append stores, and where: a row already at that device and counter stays. */
  lemma AppendStores(db: Db, e: EventRecord)
    ensures var ((db', inserted), p) := (Append(db, e), Pos(e.deviceId, e.counter));
      && (inserted <==> p !in db.events)
      && db'.events.Keys == db.events.Keys + {p}
      && db'.events[p] == (if p in db.events then db.events[p] else e)
      && (forall q :: q in db.events ==> db'.events[q] == db.events[q])
  {
  }

  /** A merge changes nothing of an event but the conversation it is in. */
  lemma MergeRelabels(db: Db, from: Text, to: Text, p: Pos)
    ensures var events := Merge(db, from, to).events;
      && (p in events <==> p in db.events)
      && (p in events ==>
            events[p] == db.events[p].(conversationId :=
              if db.events[p].conversationId == from then to else db.events[p].conversationId))
  {
  }

  lemma MergeCounters(db: Db, from: Text, to: Text, c: Text, d: Text)
    requires from != to
    ensures Counters(Merge(db, from, to).events, c, d) ==
      if c == from then {}
      else if c == to then Counters(db.events, to, d) + Counters(db.events, from, d)
      else Counters(db.events, c, d)
  {
    var events := Merge(db, from, to).events;
    assert forall n: nat :: Holds(events, c, d, n) <==>
      if c == from then false
      else if c == to then Holds(db.events, to, d, n) || Holds(db.events, from, d, n)
      else Holds(db.events, c, d, n);
  }

  lemma MergeRows(db: Db, from: Text, to: Text, c: Text, d: Text)
    requires from != to
    ensures var vectors := Merge(db, from, to).vectors;
      && ((c, d) in vectors <==> c != from && ((c, d) in db.vectors || (c == to && (from, d) in db.vectors)))
      && ((c, d) in vectors ==>
            vectors[(c, d)] == if (c, d) in db.vectors then db.vectors[(c, d)] else db.vectors[(from, d)])
  {
    if c == to && (from, d) in db.vectors {
      assert (to, (from, d).1) in Copied(db.vectors, from, to);
    }
  }

  lemma MergeKeeps(db: Db, from: Text, to: Text)
    requires Valid(db)
    ensures Valid(Merge(db, from, to))
  {
    if from != to {
      var db' := Merge(db, from, to);
      forall c, d ensures VectorOf(db', c, d) <= Contiguous(db'.events, c, d) {
        MergeTruthful(db, from, to, c, d);
      }
      forall p | p in db'.events ensures (db'.events[p].conversationId, p.device) in db'.vectors {
        assert (db.events[p].conversationId, p.device) in db.vectors;
        MergeRows(db, from, to, db'.events[p].conversationId, p.device);
      }
    }
  }

  lemma MergeTruthful(db: Db, from: Text, to: Text, c: Text, d: Text)
    requires from != to && Truthful(db)
    ensures var db' := Merge(db, from, to); VectorOf(db', c, d) <= Contiguous(db'.events, c, d)
  {
    var db' := Merge(db, from, to);
    var after := Counters(db'.events, c, d);
    MergeRows(db, from, to, c, d);
    MergeCounters(db, from, to, c, d);
    if c != from {
      PrefixMonotone(Counters(db.events, c, d), Contiguous(db.events, c, d), after, Contiguous(db'.events, c, d));
    }
    if c == to {
      PrefixMonotone(Counters(db.events, from, d), Contiguous(db.events, from, d), after, Contiguous(db'.events, c, d));
    }
    assert VectorOf(db, c, d) <= Contiguous(db.events, c, d) && VectorOf(db, from, d) <= Contiguous(db.events, from, d);
  }

  /** A truthful row is exact unless the next counter is there too. */
  lemma ExactIff(db: Db, c: Text, d: Text)
    requires VectorOf(db, c, d) <= Contiguous(db.events, c, d)
    ensures VectorOf(db, c, d) == Contiguous(db.events, c, d) <==> !Holds(db.events, c, d, VectorOf(db, c, d) + 1)
  {
    var v, counters := VectorOf(db, c, d), Counters(db.events, c, d);
    assert Holds(db.events, c, d, v + 1) <==> v + 1 in counters;
    assert forall k: nat :: 1 <= k <= Contiguous(db.events, c, d) ==> k in counters;
  }

  /** The row that a merge leaves for a device: the target's own, or else the merged one. */
  function KeptRow(db: Db, from: Text, to: Text, d: Text): nat {
    if (to, d) in db.vectors then db.vectors[(to, d)] else VectorOf(db, from, d)
  }

  lemma MergeKeepsRow(db: Db, from: Text, to: Text, d: Text)
    ensures VectorOf(Merge(db, from, to), to, d) == KeptRow(db, from, to, d)
  {
    if from != to {
      MergeRows(db, from, to, to, d);
    }
  }

  lemma MergeHolds(db: Db, from: Text, to: Text, d: Text, n: nat)
    ensures Holds(Merge(db, from, to).events, to, d, n) <==>
      Holds(db.events, to, d, n) || Holds(db.events, from, d, n)
  {
  }

  /**
   * After any history, a merge leaves the target exact for a device if and only if neither
   * conversation holds the counter after the row that is kept; otherwise the row is too low.
   */
  lemma MergeExactIff(db: Db, from: Text, to: Text, d: Text)
    requires Valid(db)
    ensures var (db', next) := (Merge(db, from, to), KeptRow(db, from, to, d) + 1);
      VectorOf(db', to, d) == Contiguous(db'.events, to, d) <==>
      !Holds(db.events, to, d, next) && !Holds(db.events, from, d, next)
  {
    MergeKeeps(db, from, to);
    MergeKeepsRow(db, from, to, d);
    MergeHolds(db, from, to, d, KeptRow(db, from, to, d) + 1);
    ExactIff(Merge(db, from, to), to, d);
  }

  lemma DeleteKeeps(db: Db, c: Text)
    requires Valid(db)
    ensures Valid(Delete(db, c))
  {
    var db' := Delete(db, c);
    forall x, d ensures VectorOf(db', x, d) <= Contiguous(db'.events, x, d) {
      assert VectorOf(db, x, d) <= Contiguous(db.events, x, d);
      if x != c {
        assert forall n: nat :: Holds(db'.events, x, d, n) <==> Holds(db.events, x, d, n);
        assert Counters(db'.events, x, d) == Counters(db.events, x, d);
      }
    }
  }

  // ---- Runs ----

  datatype Op = AppendOp(e: EventRecord) | MergeOp(from: Text, to: Text) | DeleteOp(c: Text)

  function Step(db: Db, op: Op): Db {
    match op
    case AppendOp(e) => Append(db, e).0
    case MergeOp(from, to) => Merge(db, from, to)
    case DeleteOp(c) => Delete(db, c)
  }

  ghost predicate IsRun(states: seq<Db>, ops: seq<Op>) {
    && |states| == |ops| + 1
    && states[0] == Db(map[], map[])
    && forall i :: 0 <= i < |ops| ==> states[i + 1] == Step(states[i], ops[i])
  }

  lemma EmptyLaw()
    ensures Exact(Db(map[], map[])) && Valid(Db(map[], map[]))
  {
    var db := Db(map[], map[]);
    forall c, d ensures VectorOf(db, c, d) == Contiguous(db.events, c, d) {
      assert Counters(db.events, c, d) == {};
    }
  }

  lemma StepKeeps(db: Db, op: Op)
    requires Valid(db)
    ensures Valid(Step(db, op))
  {
    match op
    case AppendOp(e) => AppendKeeps(db, e);
    case MergeOp(from, to) => MergeKeeps(db, from, to);
    case DeleteOp(c) => DeleteKeeps(db, c);
  }

  /** After any run of appends, merges and deletes, no version vector claims an event the replica lacks. */
  lemma {:induction false} RunTruthful(states: seq<Db>, ops: seq<Op>, i: nat)
    requires IsRun(states, ops) && i < |states|
    ensures Valid(states[i])
  {
    if i == 0 {
      EmptyLaw();
    } else {
      RunTruthful(states, ops, i - 1);
      StepKeeps(states[i - 1], ops[i - 1]);
    }
  }

  /** Whatever came before, the step that appends to a pair makes that pair exact again. */
  lemma AppendRestoresExactness(states: seq<Db>, ops: seq<Op>, i: nat)
    requires IsRun(states, ops) && i < |ops| && ops[i].AppendOp?
    ensures var (db, c, d) := (states[i + 1], ops[i].e.conversationId, ops[i].e.deviceId);
      VectorOf(db, c, d) == Contiguous(db.events, c, d)
  {
    assert states[i + 1] == Step(states[i], ops[i]);
    AppendLaw(states[i], ops[i].e, ops[i].e.conversationId, ops[i].e.deviceId);
  }

  /** After any run of appends, in any order and with any repeats, every stored prefix is exact. */
  lemma {:induction false} AppendRunExact(states: seq<Db>, ops: seq<Op>, i: nat)
    requires IsRun(states, ops) && i < |states| && forall k :: 0 <= k < |ops| ==> ops[k].AppendOp?
    ensures Exact(states[i])
  {
    if i == 0 {
      EmptyLaw();
    } else {
      AppendRunExact(states, ops, i - 1);
      AppendKeeps(states[i - 1], ops[i - 1].e);
    }
  }

  /** The same in terms of the table's rows: 1..n are there under the device and conversation, and n + 1 is not. */
  lemma AppendRunVector(states: seq<Db>, ops: seq<Op>, i: nat, c: Text, d: Text)
    requires IsRun(states, ops) && i < |states| && forall k :: 0 <= k < |ops| ==> ops[k].AppendOp?
    ensures var (events, vectors) := (states[i].events, states[i].vectors);
      var n := if (c, d) in vectors then vectors[(c, d)] else 0;
      && (forall k: nat :: 1 <= k <= n ==> Pos(d, k) in events && events[Pos(d, k)].conversationId == c)
      && !(Pos(d, n + 1) in events && events[Pos(d, n + 1)].conversationId == c)
  {
    AppendRunExact(states, ops, i);
    var n := Contiguous(states[i].events, c, d);
    assert VectorOf(states[i], c, d) == n;
    assert IsPrefix(Counters(states[i].events, c, d), n);
    forall k: nat | 1 <= k <= n
      ensures Pos(d, k) in states[i].events && states[i].events[Pos(d, k)].conversationId == c
    {
      assert Holds(states[i].events, c, d, k);
    }
    assert !Holds(states[i].events, c, d, n + 1);
  }

  /** After a run of appends the row at a position is the first one appended there. */
  lemma {:induction false} FirstAppendWins(states: seq<Db>, ops: seq<Op>, i: nat, p: Pos) returns (j: nat)
    requires IsRun(states, ops) && i < |states| && forall k :: 0 <= k < |ops| ==> ops[k].AppendOp?
    requires p in states[i].events
    ensures j < i && p == Pos(ops[j].e.deviceId, ops[j].e.counter) && states[i].events[p] == ops[j].e
    ensures forall k :: 0 <= k < j ==> p != Pos(ops[k].e.deviceId, ops[k].e.counter)
  {
    AppendStores(states[i - 1], ops[i - 1].e);
    assert states[i] == Step(states[i - 1], ops[i - 1]);
    if p in states[i - 1].events {
      j := FirstAppendWins(states, ops, i - 1, p);
    } else {
      j := i - 1;
      forall k | 0 <= k < j ensures p != Pos(ops[k].e.deviceId, ops[k].e.counter) {
        AppendedStays(states, ops, k, i - 1);
      }
    }
  }

  lemma {:induction false} AppendedStays(states: seq<Db>, ops: seq<Op>, k: nat, i: nat)
    requires IsRun(states, ops) && k < i < |states| && forall j :: 0 <= j < |ops| ==> ops[j].AppendOp?
    ensures Pos(ops[k].e.deviceId, ops[k].e.counter) in states[i].events
    decreases i
  {
    assert states[i] == Step(states[i - 1], ops[i - 1]);
    AppendStores(states[i - 1], ops[i - 1].e);
    if k < i - 1 {
      AppendedStays(states, ops, k, i - 1);
    }
  }

  /** Over a run of appends no stored prefix ever goes down. */
  lemma {:induction false} AppendRunMonotone(states: seq<Db>, ops: seq<Op>, i: nat, j: nat, c: Text, d: Text)
    requires IsRun(states, ops) && i <= j < |states| && forall k :: 0 <= k < |ops| ==> ops[k].AppendOp?
    ensures VectorOf(states[i], c, d) <= VectorOf(states[j], c, d)
    decreases j
  {
    if i < j {
      AppendRunMonotone(states, ops, i, j - 1, c, d);
      AppendRunExact(states, ops, j - 1);
      AppendRunExact(states, ops, j);
      AppendLaw(states[j - 1], ops[j - 1].e, c, d);
    }
  }

  /** Counter 2 under the new contact and 1 under the old one: merged, the row stays at zero while both are there. */
  lemma MergeCanLeaveRowLow(to: Text, from: Text, one: EventRecord, two: EventRecord)
    requires from != to && one.deviceId == two.deviceId && one.counter == 1 && two.counter == 2
    requires one.conversationId == from && two.conversationId == to
    ensures var db := Merge(Append(Append(Db(map[], map[]), two).0, one).0, from, to);
      VectorOf(db, to, one.deviceId) < Contiguous(db.events, to, one.deviceId)
  {
    var d := one.deviceId;
    var db0 := Append(Db(map[], map[]), two).0;
    var db1 := Append(db0, one).0;
    EmptyLaw();
    AppendKeeps(Db(map[], map[]), two);
    AppendKeeps(db0, one);
    assert VectorOf(db1, to, d) == Contiguous(db1.events, to, d);
    assert 1 !in Counters(db1.events, to, d);
    assert Holds(db1.events, from, d, 1);
    MergeExactIff(db1, from, to, d);
    MergeTruthful(db1, from, to, to, d);
  }

  // ---- Reading ----

  predicate PosLe(p: Pos, q: Pos) {
    LexLe(p.device, q.device) && (p.device == q.device ==> p.counter <= q.counter)
  }

  lemma PosOrder()
    ensures TotalOrder(PosLe)
  {
    TextOrder();
  }

  /** The rows of one conversation. */
  function Conversation(db: Db, c: Text): EventTable {
    map p | p in db.events && db.events[p].conversationId == c :: db.events[p]
  }

  function Seen(peer: map<Text, nat>, d: Text): nat {
    if d in peer then peer[d] else 0
  }

  function MissingPositions(rows: EventTable, peer: map<Text, nat>): set<Pos> {
    set p | p in rows && p.counter > Seen(peer, p.device)
  }

  function RowsAt(rows: EventTable, at: seq<Pos>): seq<EventRecord>
    requires forall p :: p in at ==> p in rows
  {
    seq(|at|, i requires 0 <= i < |at| => rows[at[i]])
  }

  /** The rows of a conversation beyond a peer's vector, in (device, counter) order. */
  function Missing(db: Db, c: Text, peer: map<Text, nat>): seq<EventRecord> {
    var rows := Conversation(db, c);
    PosOrder();
    RowsAt(rows, Sorted(MissingPositions(rows, peer), PosLe))
  }

  /** A row is sent exactly when it is in the conversation and beyond the peer's prefix. */
  lemma MissingMembers(db: Db, c: Text, peer: map<Text, nat>, e: EventRecord)
    requires Keyed(db.events)
    ensures e in Missing(db, c, peer) <==>
      && PosOf(e) in db.events && db.events[PosOf(e)] == e
      && e.conversationId == c && e.counter > Seen(peer, e.deviceId)
  {
    PosOrder();
    var rows := Conversation(db, c);
    var at := Sorted(MissingPositions(rows, peer), PosLe);
    if e in Missing(db, c, peer) {
      var i :| 0 <= i < |at| && Missing(db, c, peer)[i] == e;
      assert at[i] in at;
    }
    if PosOf(e) in MissingPositions(rows, peer) && rows[PosOf(e)] == e {
      assert PosOf(e) in at;
      var i :| 0 <= i < |at| && at[i] == PosOf(e);
      assert Missing(db, c, peer)[i] == e;
    }
  }

  /** Rows are listed by device, byte by byte with a prefix first, and within a device by counter. */
  lemma MissingOrdered(db: Db, c: Text, peer: map<Text, nat>, i: nat, j: nat)
    requires Keyed(db.events) && i < j < |Missing(db, c, peer)|
    ensures var (a, b) := (Missing(db, c, peer)[i], Missing(db, c, peer)[j]);
      || (a.deviceId == b.deviceId && a.counter < b.counter)
      || (a.deviceId != b.deviceId &&
          (a.deviceId <= b.deviceId || exists k: nat :: SmallerAt(a.deviceId, b.deviceId, k)))
  {
    PosOrder();
    var rows := Conversation(db, c);
    var at := Sorted(MissingPositions(rows, peer), PosLe);
    assert at[i] in at && at[j] in at;
    assert PosOf(rows[at[i]]) == at[i] && PosOf(rows[at[j]]) == at[j];
    assert PosLe(at[i], at[j]) && at[i] != at[j];
    LexLeMeans(at[i].device, at[j].device);
  }

  class EventStore {
    var events: EventTable
    var vectors: VectorTable

    function View(): Db
      reads this
    {
      Db(events, vectors)
    }

    constructor ()
      ensures View() == Db(map[], map[])
    {
      events, vectors := map[], map[];
    }

    /** The scan over the sorted counters, with its early exit at the first gap. */
    method ContiguousCounter(c: Text, d: Text) returns (contiguous: nat)
      ensures contiguous == Contiguous(events, c, d)
    {
      var counters := Counters(events, c, d);
      NatOrder();
      var listed := Sorted(counters, NatLe);
      contiguous := 0;
      var i := 0;
      while i < |listed|
        invariant 0 <= i <= |listed|
        invariant forall k: nat :: 1 <= k <= contiguous ==> k in counters
        invariant forall j :: 0 <= j < i ==> listed[j] <= contiguous
      {
        assert listed[i] in listed;
        if listed[i] == contiguous + 1 {
          contiguous := listed[i];
        } else if listed[i] > contiguous + 1 {
          break;
        }
        i := i + 1;
      }
      assert contiguous + 1 !in listed;
      PrefixUnique(counters, contiguous, Contiguous(events, c, d));
    }

    method RefreshVectorForDevice(c: Text, d: Text)
      modifies this`vectors
      ensures vectors == old(vectors)[(c, d) := Contiguous(events, c, d)]
    {
      var contiguous := ContiguousCounter(c, d);
      vectors := vectors[(c, d) := contiguous];
    }

    method AppendEvent(e: EventRecord) returns (inserted: bool)
      modifies this
      ensures (View(), inserted) == Append(old(View()), e)
    {
      inserted := PosOf(e) !in events;
      if inserted {
        events := events[PosOf(e) := e];
      }
      RefreshVectorForDevice(e.conversationId, e.deviceId);
    }

    method AppendEvents(es: seq<EventRecord>) returns (inserted: nat)
      modifies this
      ensures (View(), inserted) == AppendAll(old(View()), es)
    {
      inserted := 0;
      for i := 0 to |es|
        invariant (View(), inserted) == AppendAll(old(View()), es[..i])
      {
        assert es[..i + 1][..i] == es[..i];
        var isNew := AppendEvent(es[i]);
        if isNew {
          inserted := inserted + 1;
        }
      }
      assert es[..|es|] == es;
    }

    method VersionVector(c: Text) returns (v: map<Text, nat>)
      ensures v == VectorFor(View(), c)
      ensures forall d :: Seen(v, d) == VectorOf(View(), c, d)
    {
      v := VectorFor(View(), c);
      VectorForMeans(View(), c);
    }

    method MissingEventsFor(c: Text, peer: map<Text, nat>) returns (missing: seq<EventRecord>)
      ensures missing == Missing(View(), c, peer)
    {
      var rows := Conversation(View(), c);
      PosOrder();
      var listed := Sorted(rows.Keys, PosLe);
      missing := [];
      ghost var at: seq<Pos> := [];
      for i := 0 to |listed|
        invariant Filtered(at, listed, i, rows, peer) && missing == RowsAt(rows, at)
      {
        if listed[i].counter > Seen(peer, listed[i].device) {
          TakeNext(at, listed, i, rows, peer);
          missing := missing + [rows[listed[i]]];
          at := at + [listed[i]];
        } else {
          PassNext(at, listed, i, rows, peer);
        }
      }
      FilteredAll(at, listed, rows, peer);
    }
  }

  /** `at` is what the first `i` listed positions hold beyond the peer's prefixes, in their order. */
  ghost predicate Filtered(at: seq<Pos>, listed: seq<Pos>, i: nat, rows: EventTable, peer: map<Text, nat>) {
    && i <= |listed| && Lists(listed, rows.Keys) && Ascending(listed, PosLe)
    && Ascending(at, PosLe)
    && (forall p :: p in at ==> p in rows)
    && (forall p :: p in at <==> p in listed[..i] && p.counter > Seen(peer, p.device))
  }

  /** Appending the next element of an ascending list to a list drawn from what precedes it. */
  lemma ExtendAscending(at: seq<Pos>, listed: seq<Pos>, i: nat)
    requires i < |listed| && Ascending(listed, PosLe) && Ascending(at, PosLe)
    requires forall p :: p in at ==> p in listed[..i]
    ensures Ascending(at + [listed[i]], PosLe)
  {
    forall k | 0 <= k < |at| ensures PosLe(at[k], listed[i]) && at[k] != listed[i] {
      assert at[k] in at;
    }
  }

  lemma TakeNext(at: seq<Pos>, listed: seq<Pos>, i: nat, rows: EventTable, peer: map<Text, nat>)
    requires Filtered(at, listed, i, rows, peer) && i < |listed|
    requires listed[i].counter > Seen(peer, listed[i].device)
    ensures listed[i] in rows && Filtered(at + [listed[i]], listed, i + 1, rows, peer)
    ensures RowsAt(rows, at + [listed[i]]) == RowsAt(rows, at) + [rows[listed[i]]]
  {
    assert listed[i] in listed;
    assert listed[..i + 1] == listed[..i] + [listed[i]];
    ExtendAscending(at, listed, i);
  }

  lemma PassNext(at: seq<Pos>, listed: seq<Pos>, i: nat, rows: EventTable, peer: map<Text, nat>)
    requires Filtered(at, listed, i, rows, peer) && i < |listed|
    requires listed[i].counter <= Seen(peer, listed[i].device)
    ensures Filtered(at, listed, i + 1, rows, peer)
  {
    assert listed[..i + 1] == listed[..i] + [listed[i]];
  }

  lemma FilteredAll(at: seq<Pos>, listed: seq<Pos>, rows: EventTable, peer: map<Text, nat>)
    requires TotalOrder(PosLe) && Filtered(at, listed, |listed|, rows, peer)
    ensures at == Sorted(MissingPositions(rows, peer), PosLe)
  {
    assert listed[..|listed|] == listed;
    assert Lists(at, MissingPositions(rows, peer));
    ListingUnique(at, Sorted(MissingPositions(rows, peer), PosLe), MissingPositions(rows, peer), PosLe);
  }

  lemma VectorForMeans(db: Db, c: Text)
    ensures forall d :: Seen(VectorFor(db, c), d) == VectorOf(db, c, d)
  {
    forall d ensures Seen(VectorFor(db, c), d) == VectorOf(db, c, d) {
      var devices := set k | k in db.vectors && k.0 == c :: k.1;
      if (c, d) in db.vectors {
        assert (c, d).1 in devices;
      }
    }
  }
}
