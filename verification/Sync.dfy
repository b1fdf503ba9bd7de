/** Pairwise sync of two replicas of a conversation by version vectors. */
module Sync {
  import opened Bytes
  import opened Wrappers
  import opened Sorting
  import opened SignedEncodings
  import opened Events
  import opened EventLog
  import opened Devices

  /** The two replicas hold the same record wherever both hold one. */
  ghost predicate Agree(l: Db, r: Db) {
    forall p :: p in l.events && p in r.events ==> l.events[p] == r.events[p]
  }

  /** What `from` sends to a replica that reported its vector for the conversation. */
  function Response(from: Db, to: Db, c: Text): seq<EventRecord> {
    Missing(from, c, VectorFor(to, c))
  }

  /** One direction of the exchange. */
  function Pull(from: Db, to: Db, c: Text): (Db, nat) {
    AppendAll(to, Response(from, to, c))
  }

  /** One run: the right replica pulls from the left, then the left from the updated right. */
  function SyncRound(l: Db, r: Db, c: Text): (Db, Db) {
    var r' := Pull(l, r, c).0;
    (Pull(r', l, c).0, r')
  }

  /** One run of a replica with itself. */
  function SelfRound(db: Db, c: Text): Db {
    var once := Pull(db, db, c).0;
    Pull(once, once, c).0
  }

  datatype SyncError = NotAuthorized | Revoked

  datatype SyncResult = Synced(leftToRight: seq<EventRecord>, rightToLeft: seq<EventRecord>) | Refused(error: SyncError)

  /** What a replica sends to itself: its events beyond its own prefixes, both times. */
  function SelfLists(db: Db, c: Text): SyncResult {
    var once := Pull(db, db, c).0;
    Synced(Response(db, db, c), Response(once, once, c))
  }

  /**
   * The account issued both certificates, they are for different devices, and no listed revocation
   * carries the account and device of either.
   */
  ghost predicate MaySync(sha: Digest, account: Key32, left: DeviceCertificate, right: DeviceCertificate,
                          revocations: seq<DeviceRevocation>)
  {
    && IssuedCertificate(sha, account, left) && IssuedCertificate(sha, account, right)
    && left.deviceId != right.deviceId
    && !Listed(revocations, left) && !Listed(revocations, right)
  }

  /** Siblings of which the left one is revoked, or else the right one. */
  ghost predicate FailsRevoked(sha: Digest, account: Key32, left: DeviceCertificate, right: DeviceCertificate,
                               revocations: seq<DeviceRevocation>)
  {
    && IssuedCertificate(sha, account, left) && IssuedCertificate(sha, account, right)
    && left.deviceId != right.deviceId
    && (|| ListedAndIssued(sha, account, revocations, left)
        || (!Listed(revocations, left) && ListedAndIssued(sha, account, revocations, right)))
  }

  /** Why the run is refused, if it is: the checks in the order the program makes them. */
  method CheckSiblings(sha: Digest, account: Key32, left: DeviceCertificate, right: DeviceCertificate,
                       revocations: seq<DeviceRevocation>)
    returns (refusal: Option<SyncError>)
    ensures refusal.None? <==> MaySync(sha, account, left, right, revocations)
    ensures refusal == Some(Revoked) <==> FailsRevoked(sha, account, left, right, revocations)
  {
    SiblingsIff(sha, account, left, right);
    AuthorizedIff(sha, account, left, revocations);
    AuthorizedIff(sha, account, right, revocations);
    if !VerifySiblings(sha, account, left, right) {
      return Some(NotAuthorized);
    }
    var leftOk := IsDeviceCurrentlyAuthorized(sha, account, left, revocations);
    if leftOk.Err? || !leftOk.value {
      return Some(if leftOk.Ok? then Revoked else NotAuthorized);
    }
    var rightOk := IsDeviceCurrentlyAuthorized(sha, account, right, revocations);
    if rightOk.Err? || !rightOk.value {
      return Some(if rightOk.Ok? then Revoked else NotAuthorized);
    }
    return None;
  }

  method SyncAuthorizedSiblingDevices(
      sha: Digest, account: Key32, leftCert: DeviceCertificate, rightCert: DeviceCertificate,
      revocations: seq<DeviceRevocation>, left: EventStore, right: EventStore, c: Text)
    returns (result: SyncResult)
    modifies left, right
    ensures result.Synced? <==> MaySync(sha, account, leftCert, rightCert, revocations)
    ensures result == Refused(Revoked) <==> FailsRevoked(sha, account, leftCert, rightCert, revocations)
    ensures result.Refused? ==> left.View() == old(left.View()) && right.View() == old(right.View())
    ensures result.Synced? && left != right ==>
      && (left.View(), right.View()) == SyncRound(old(left.View()), old(right.View()), c)
      && result.leftToRight == Response(old(left.View()), old(right.View()), c)
      && result.rightToLeft == Response(right.View(), old(left.View()), c)
    ensures result.Synced? && left == right ==>
      && left.View() == SelfRound(old(left.View()), c)
      && result == SelfLists(old(left.View()), c)
  {
    var refusal := CheckSiblings(sha, account, leftCert, rightCert, revocations);
    if refusal.Some? {
      return Refused(refusal.value);
    }
    result := Exchange(left, right, c);
  }

  /** The two transfers, once both devices have been accepted. */
  method Exchange(left: EventStore, right: EventStore, c: Text) returns (result: SyncResult)
    modifies left, right
    ensures result.Synced?
    ensures left != right ==>
      && (left.View(), right.View()) == SyncRound(old(left.View()), old(right.View()), c)
      && result.leftToRight == Response(old(left.View()), old(right.View()), c)
      && result.rightToLeft == Response(right.View(), old(left.View()), c)
    ensures left == right ==> left.View() == SelfRound(old(left.View()), c) && result == SelfLists(old(left.View()), c)
  {
    var rightVector := right.VersionVector(c);
    var leftToRight := left.MissingEventsFor(c, rightVector);
    var n := right.AppendEvents(leftToRight);
    var leftVector := left.VersionVector(c);
    var rightToLeft := right.MissingEventsFor(c, leftVector);
    n := left.AppendEvents(rightToLeft);
    result := Synced(leftToRight, rightToLeft);
  }

  // ---- Appending a batch ----

  lemma {:induction false} AppendAllValid(db: Db, es: seq<EventRecord>)
    requires Valid(db)
    ensures Valid(AppendAll(db, es).0)
  {
    if es != [] {
      AppendAllValid(db, es[..|es| - 1]);
      AppendKeeps(AppendAll(db, es[..|es| - 1]).0, es[|es| - 1]);
    }
  }

  function Positions(es: seq<EventRecord>): set<Pos> {
    set e | e in es :: PosOf(e)
  }

  lemma PositionsSnoc(front: seq<EventRecord>, last: EventRecord)
    ensures Positions(front + [last]) == Positions(front) + {PosOf(last)}
  {
  }

  /** A batch adds exactly the positions it carries and keeps every old row. */
  lemma {:induction false} AppendAllDomain(db: Db, es: seq<EventRecord>)
    ensures var events := AppendAll(db, es).0.events;
      && events.Keys == db.events.Keys + Positions(es)
      && (forall p :: p in db.events ==> p in events && events[p] == db.events[p])
  {
    if es != [] {
      var front, last := es[..|es| - 1], es[|es| - 1];
      assert es == front + [last];
      PositionsSnoc(front, last);
      AppendAllDomain(db, front);
    }
  }

  /** The count of inserted rows is zero exactly when every position was already there. */
  lemma {:induction false} AppendAllCount(db: Db, es: seq<EventRecord>)
    ensures AppendAll(db, es).1 == 0 <==> Positions(es) <= db.events.Keys
  {
    if es != [] {
      var front, last := es[..|es| - 1], es[|es| - 1];
      assert es == front + [last];
      PositionsSnoc(front, last);
      AppendAllCount(db, front);
      AppendAllDomain(db, front);
    }
  }

  /** The count of a batch is exactly how many rows the table has gained. */
  lemma {:induction false} AppendAllInserted(db: Db, es: seq<EventRecord>)
    ensures var (db', inserted) := AppendAll(db, es); |db'.events| == |db.events| + inserted
  {
    if es != [] {
      var n := |es| - 1;
      AppendAllInserted(db, es[..n]);
      var front := AppendAll(db, es[..n]).0;
      AppendStores(front, es[n]);
      assert Append(front, es[n]).0.events.Keys == front.events.Keys + {Pos(es[n].deviceId, es[n].counter)};
      assert |Append(front, es[n]).0.events| == |Append(front, es[n]).0.events.Keys|;
      assert |front.events| == |front.events.Keys|;
    }
  }

  /** The batch agrees with a table, so every row it adds is the table's row. */
  ghost predicate DrawnFrom(es: seq<EventRecord>, rows: EventTable) {
    forall e :: e in es ==> PosOf(e) in rows && rows[PosOf(e)] == e
  }

  /** Appending rows of an agreeing table only ever stores that table's rows. */
  lemma {:induction false} AppendAllAgrees(db: Db, es: seq<EventRecord>, rows: EventTable)
    requires DrawnFrom(es, rows)
    requires forall p :: p in db.events && p in rows ==> db.events[p] == rows[p]
    ensures forall p :: p in AppendAll(db, es).0.events && p in rows ==> AppendAll(db, es).0.events[p] == rows[p]
  {
    if es != [] {
      var front, last := es[..|es| - 1], es[|es| - 1];
      assert es == front + [last];
      AppendAllAgrees(db, front, rows);
    }
  }

  // ---- One pull ----

  lemma ResponseMembers(from: Db, to: Db, c: Text, e: EventRecord)
    requires Keyed(from.events)
    ensures e in Response(from, to, c) <==>
      && PosOf(e) in from.events && from.events[PosOf(e)] == e
      && e.conversationId == c && e.counter > VectorOf(to, c, e.deviceId)
  {
    MissingMembers(from, c, VectorFor(to, c), e);
    VectorForMeans(to, c);
  }

  /** The rows of a conversation that can travel: their counter is at least one. */
  function Positive(rows: EventTable): EventTable {
    map p | p in rows && p.counter > 0 :: rows[p]
  }

  lemma ResponseDrawn(from: Db, to: Db, c: Text)
    requires Keyed(from.events)
    ensures DrawnFrom(Response(from, to, c), from.events)
  {
    forall e | e in Response(from, to, c) ensures PosOf(e) in from.events && from.events[PosOf(e)] == e {
      ResponseMembers(from, to, c, e);
    }
  }

  /** A row of the sender ends up at the receiver exactly when it was sent or was already there. */
  lemma PullDomain(from: Db, to: Db, c: Text, p: Pos)
    requires Valid(from) && Valid(to) && Agree(from, to)
    ensures p in Pull(from, to, c).0.events <==>
      p in to.events || (p in from.events && from.events[p].conversationId == c && p.counter > 0)
  {
    var es := Response(from, to, c);
    AppendAllDomain(to, es);
    if p in Positions(es) {
      var e :| e in es && PosOf(e) == p;
      ResponseMembers(from, to, c, e);
    }
    if p in from.events && from.events[p].conversationId == c && p.counter > 0 {
      ResponseMembers(from, to, c, from.events[p]);
      if p.counter > VectorOf(to, c, p.device) {
        assert from.events[p] in es;
      } else {
        TruthfulMeans(to, c, p.device, p.counter);
      }
    }
  }

  lemma PullKeeps(from: Db, to: Db, c: Text)
    requires Valid(from) && Valid(to) && Agree(from, to)
    ensures Valid(Pull(from, to, c).0) && Agree(from, Pull(from, to, c).0)
  {
    var es := Response(from, to, c);
    AppendAllValid(to, es);
    ResponseDrawn(from, to, c);
    AppendAllAgrees(to, es, from.events);
  }

  lemma PullRow(from: Db, to: Db, c: Text, p: Pos)
    requires Valid(from) && Valid(to) && Agree(from, to)
    ensures var now, were := Conversation(Pull(from, to, c).0, c), Conversation(to, c);
      var sent := Positive(Conversation(from, c));
      && (p in now <==> p in were || p in sent)
      && (p in were ==> now[p] == were[p])
      && (p in sent ==> now[p] == sent[p])
  {
    PullDomain(from, to, c, p);
    PullKeeps(from, to, c);
    AppendAllDomain(to, Response(from, to, c));
  }

  /** One pull gives the receiver exactly the sender's travelling rows, beside what it had. */
  lemma PullLaw(from: Db, to: Db, c: Text)
    requires Valid(from) && Valid(to) && Agree(from, to)
    ensures Conversation(Pull(from, to, c).0, c) == Conversation(to, c) + Positive(Conversation(from, c))
  {
    var now, both := Conversation(Pull(from, to, c).0, c), Conversation(to, c) + Positive(Conversation(from, c));
    forall p ensures (p in now.Keys <==> p in both.Keys) && (p in now.Keys ==> now[p] == both[p]) {
      PullRow(from, to, c, p);
    }
    SameMap(now, both);
  }

  // ---- One run ----

  /** The rows with counter zero, which a vector can never report missing. */
  function Zeros(rows: EventTable): set<Pos> {
    set p | p in rows && p.counter == 0
  }

  /** What one run does to both replicas. */
  lemma SyncLaw(l: Db, r: Db, c: Text)
    requires Valid(l) && Valid(r) && Agree(l, r)
    ensures var (l', r') := SyncRound(l, r, c);
      var cl, cr := Conversation(l, c), Conversation(r, c);
      && Valid(l') && Valid(r') && Agree(l', r')
      && Conversation(l', c) == cl + Positive(cr)
      && Conversation(r', c) == cr + Positive(cl)
  {
    var r' := Pull(l, r, c).0;
    PullKeeps(l, r, c);
    PullLaw(l, r, c);
    AgreeFlip(l, r');
    PullKeeps(r', l, c);
    PullLaw(r', l, c);
    AgreeFlip(r', SyncRound(l, r, c).0);
    MergedPositive(Conversation(l, c), Conversation(r, c));
  }

  lemma AgreeFlip(l: Db, r: Db)
    requires Agree(l, r)
    ensures Agree(r, l)
  {
  }

  lemma MergedPositive(cl: EventTable, cr: EventTable)
    requires forall p :: p in cl && p in cr ==> cl[p] == cr[p]
    ensures cl + Positive(cr + Positive(cl)) == cl + Positive(cr)
  {
  }

  /**
   * Completeness: one run leaves both replicas with exactly the union of the conversation's events
   * if and only if they hold the same rows with counter zero; with counters from 1 that is always.
   */
  lemma SyncCompleteIff(l: Db, r: Db, c: Text)
    requires Valid(l) && Valid(r) && Agree(l, r)
    ensures var (l', r') := SyncRound(l, r, c);
      var cl, cr := Conversation(l, c), Conversation(r, c);
      (Conversation(l', c) == cl + cr && Conversation(r', c) == cl + cr) <==> Zeros(cl) == Zeros(cr)
  {
    var cl, cr := Conversation(l, c), Conversation(r, c);
    SyncLaw(l, r, c);
    UnionIff(cl, cr);
  }

  /** An event with counter zero never reaches a replica that lacks it. */
  lemma ZeroCounterNeverTravels(e: EventRecord)
    requires e.counter == 0
    ensures var (l, r) := (Append(Db(map[], map[]), e).0, Db(map[], map[]));
      var (l', r') := SyncRound(l, r, e.conversationId);
      PosOf(e) in Conversation(l', e.conversationId) && PosOf(e) !in Conversation(r', e.conversationId)
  {
    EmptyLaw();
    var l, r := Append(Db(map[], map[]), e).0, Db(map[], map[]);
    AppendKeeps(r, e);
    SyncLaw(l, r, e.conversationId);
  }

  lemma UnionIff(cl: EventTable, cr: EventTable)
    requires forall p :: p in cl && p in cr ==> cl[p] == cr[p]
    ensures (cl + Positive(cr) == cl + cr && cr + Positive(cl) == cl + cr) <==> Zeros(cl) == Zeros(cr)
  {
    if cl + Positive(cr) == cl + cr && cr + Positive(cl) == cl + cr {
      forall p ensures p in Zeros(cl) <==> p in Zeros(cr) {
        assert p in cl + Positive(cr) <==> p in cr + Positive(cl);
      }
    }
    if Zeros(cl) == Zeros(cr) {
      assert forall p :: p in cl && p.counter == 0 ==> p in Zeros(cr);
      assert forall p :: p in cr && p.counter == 0 ==> p in Zeros(cl);
      assert cl + Positive(cr) == cl + cr;
      assert cr + Positive(cl) == cl + cr;
    }
  }

  lemma ResponsePositions(from: Db, to: Db, c: Text)
    requires Keyed(from.events)
    ensures Positions(Response(from, to, c)) <= Positive(Conversation(from, c)).Keys
  {
    forall e | e in Response(from, to, c) ensures PosOf(e) in Positive(Conversation(from, c)) {
      ResponseMembers(from, to, c, e);
    }
  }

  /** A pull from a replica whose travelling rows are all here inserts nothing. */
  lemma NothingNew(from: Db, to: Db, c: Text)
    requires Keyed(from.events) && Positive(Conversation(from, c)).Keys <= Conversation(to, c).Keys
    ensures Pull(from, to, c).1 == 0
  {
    ResponsePositions(from, to, c);
    AppendAllCount(to, Response(from, to, c));
    assert Conversation(to, c).Keys <= to.events.Keys;
  }

  /** A second run inserts nothing on either side. */
  lemma SecondRunInsertsNothing(l: Db, r: Db, c: Text)
    requires Valid(l) && Valid(r) && Agree(l, r)
    ensures var (l', r') := SyncRound(l, r, c);
      Pull(l', r', c).1 == 0 && Pull(Pull(l', r', c).0, l', c).1 == 0
  {
    var (l', r') := SyncRound(l, r, c);
    SyncLaw(l, r, c);
    var cl, cr := Conversation(l, c), Conversation(r, c);
    assert Positive(cl + Positive(cr)).Keys <= (cr + Positive(cl)).Keys;
    NothingNew(l', r', c);
    PullKeeps(l', r', c);
    PullLaw(l', r', c);
    assert Positive((cr + Positive(cl)) + Positive(cl + Positive(cr))).Keys <= (cl + Positive(cr)).Keys;
    NothingNew(Pull(l', r', c).0, l', c);
  }

  lemma SelfPullKeeps(db: Db, c: Text)
    requires Valid(db)
    ensures Valid(Pull(db, db, c).0) && Conversation(Pull(db, db, c).0, c) == Conversation(db, c)
  {
    PullKeeps(db, db, c);
    PullLaw(db, db, c);
    PositiveAddsNothing(Conversation(db, c));
  }

  lemma PositiveAddsNothing(rows: EventTable)
    ensures rows + Positive(rows) == rows
  {
  }

  /** What a replica sends to itself, both times: its own events of the conversation beyond its own prefix. */
  lemma SelfListsMeaning(db: Db, c: Text, e: EventRecord)
    requires Valid(db)
    ensures var (lists, once, p) := (SelfLists(db, c), Pull(db, db, c).0, Pos(e.deviceId, e.counter));
      && (e in lists.leftToRight <==>
          && p in db.events && db.events[p] == e
          && e.conversationId == c && e.counter > VectorOf(db, c, e.deviceId))
      && (e in lists.rightToLeft <==>
          && p in once.events && once.events[p] == e
          && e.conversationId == c && e.counter > VectorOf(once, c, e.deviceId))
  {
    SelfPullKeeps(db, c);
    ResponseMembers(db, db, c, e);
    ResponseMembers(Pull(db, db, c).0, Pull(db, db, c).0, c, e);
  }

  /** A replica synced with itself keeps exactly the events it had. */
  lemma SelfRoundKeeps(db: Db, c: Text)
    requires Valid(db)
    ensures Valid(SelfRound(db, c)) && Conversation(SelfRound(db, c), c) == Conversation(db, c)
  {
    SelfPullKeeps(db, c);
    SelfPullKeeps(Pull(db, db, c).0, c);
  }

  /** Everything the receiver holds in the conversation is below its prefix. */
  ghost predicate GapFree(db: Db, c: Text) {
    forall d, n: nat :: Holds(db.events, c, d, n) ==> n <= VectorOf(db, c, d)
  }

  /** A gap-free receiver is sent exactly the rows it lacks. */
  lemma GapFreeIsSentWhatItLacks(l: Db, r: Db, c: Text, p: Pos)
    requires Valid(l) && Valid(r) && Agree(l, r) && GapFree(r, c)
    ensures p in Positions(Response(l, r, c)) <==> p in Positive(Conversation(l, c)) && p !in Conversation(r, c)
  {
    if p in Positions(Response(l, r, c)) {
      var e :| e in Response(l, r, c) && PosOf(e) == p;
      ResponseMembers(l, r, c, e);
      assert Holds(r.events, c, p.device, p.counter) <==> p in Conversation(r, c);
    }
    if p in Positive(Conversation(l, c)) && p !in Conversation(r, c) {
      ResponseMembers(l, r, c, l.events[p]);
      if p.counter <= VectorOf(r, c, p.device) {
        TruthfulMeans(r, c, p.device, p.counter);
      }
    }
  }

  /** The full event list of a conversation, as the program reads it for display. */
  function AllEvents(db: Db, c: Text): seq<EventRecord> {
    Missing(db, c, map[])
  }

  lemma PositionsAreKeys(rows: EventTable)
    ensures MissingPositions(rows, map[]) == Positive(rows).Keys
  {
  }

  lemma RowsAtPositive(rows: EventTable, at: seq<Pos>)
    requires forall p :: p in at ==> p in rows && p in Positive(rows)
    ensures RowsAt(rows, at) == RowsAt(Positive(rows), at)
  {
    forall i | 0 <= i < |at| ensures at[i] in Positive(rows) {
      assert at[i] in at;
    }
  }

  lemma AllEventsFromRows(db: Db, c: Text)
    ensures TotalOrder(PosLe)
    ensures AllEvents(db, c) ==
      RowsAt(Positive(Conversation(db, c)), Sorted(Positive(Conversation(db, c)).Keys, PosLe))
  {
    PosOrder();
    var rows := Conversation(db, c);
    PositionsAreKeys(rows);
    RowsAtPositive(rows, Sorted(Positive(rows).Keys, PosLe));
  }

  lemma PositiveUnion(cl: EventTable, cr: EventTable)
    requires forall p :: p in cl && p in cr ==> cl[p] == cr[p]
    ensures Positive(cl + Positive(cr)) == Positive(cr + Positive(cl))
  {
  }

  /** After one run both replicas read the very same event list, whatever the counters. */
  lemma SyncedListsEqual(l: Db, r: Db, c: Text)
    requires Valid(l) && Valid(r) && Agree(l, r)
    ensures var (l', r') := SyncRound(l, r, c); AllEvents(l', c) == AllEvents(r', c)
  {
    var (l', r') := SyncRound(l, r, c);
    SyncLaw(l, r, c);
    PositiveUnion(Conversation(l, c), Conversation(r, c));
    AllEventsFromRows(l', c);
    AllEventsFromRows(r', c);
  }
}
