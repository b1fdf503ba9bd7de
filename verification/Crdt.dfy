/** Materialising a conversation from its event records. */
module Crdt {
  import opened Bytes
  import opened Wrappers
  import opened Events
  import EventLog
  import Sync

  datatype VisibleReaction = VisibleReaction(reaction: Text, actorId: Text, add: ReactionAddId)

  datatype MessageState = MessageState(
    messageId: Text,
    authorId: Text,
    body: seq<byte>,
    deleted: bool,
    reactions: set<VisibleReaction>)

  datatype ConversationState = ConversationState(
    messages: map<Text, MessageState>,
    tombstones: set<Text>,
    frontiers: map<Text, map<Text, nat>>)

  // ---- The declarative meaning ----

  predicate Creates(r: EventRecord) {
    r.payload.Encoded? && r.payload.event.MessageCreated?
  }

  predicate Deletes(r: EventRecord) {
    r.payload.Encoded? && r.payload.event.MessageDeleted?
  }

  predicate Adds(r: EventRecord) {
    r.payload.Encoded? && r.payload.event.ReactionAdded?
  }

  predicate Removes(r: EventRecord) {
    r.payload.Encoded? && r.payload.event.ReactionRemoved?
  }

  predicate Reads(r: EventRecord) {
    r.payload.Encoded? && r.payload.event.ReadAdvanced?
  }

  function AddId(r: EventRecord): ReactionAddId {
    ReactionAddId(r.deviceId, r.counter)
  }

  function Created(es: seq<EventRecord>): set<Text> {
    set r | r in es && Creates(r) :: r.payload.event.messageId
  }

  function Tombstones(es: seq<EventRecord>): set<Text> {
    set r | r in es && Deletes(r) :: r.payload.event.messageId
  }

  function Removed(es: seq<EventRecord>): set<ReactionAddId> {
    set r | r in es && Removes(r) :: r.payload.event.reactionAdd
  }

  function Added(es: seq<EventRecord>): set<ReactionAddId> {
    set r | r in es && Adds(r) :: AddId(r)
  }

  function Actors(es: seq<EventRecord>): set<Text> {
    set r | r in es && Reads(r) :: r.payload.event.actorId
  }

  function DevicesRead(es: seq<EventRecord>, actor: Text): set<Text> {
    set r | r in es && Reads(r) && r.payload.event.actorId == actor :: r.payload.event.readDeviceId
  }

  predicate CreatesId(r: EventRecord, m: Text) {
    Creates(r) && r.payload.event.messageId == m
  }

  predicate AddsId(r: EventRecord, id: ReactionAddId) {
    Adds(r) && AddId(r) == id
  }

  /** The creation of a message that comes first in the list. */
  function FirstCreation(es: seq<EventRecord>, m: Text): (e: EventRecord)
    requires m in Created(es)
    ensures e in es && CreatesId(e, m)
  {
    if CreatesId(es[0], m) then es[0]
    else
      assert es == [es[0]] + es[1..];
      FirstCreation(es[1..], m)
  }

  /** The reaction under an id that comes last in the list. */
  function LastAdd(es: seq<EventRecord>, id: ReactionAddId): (e: EventRecord)
    requires id in Added(es)
    ensures e in es && AddsId(e, id)
  {
    var n := |es| - 1;
    if AddsId(es[n], id) then es[n]
    else
      assert es == es[..n] + [es[n]];
      LastAdd(es[..n], id)
  }

  /** No record before it in the list creates the message. */
  lemma {:induction false} FirstCreationIsFirst(es: seq<EventRecord>, m: Text) returns (i: nat)
    requires m in Created(es)
    ensures i < |es| && es[i] == FirstCreation(es, m) && forall j :: 0 <= j < i ==> !CreatesId(es[j], m)
  {
    i := 0;
    if !CreatesId(es[0], m) {
      assert es == [es[0]] + es[1..];
      var k := FirstCreationIsFirst(es[1..], m);
      i := k + 1;
      assert forall j :: 0 < j < |es| ==> es[j] == es[1..][j - 1];
    }
  }

  /** No record after it in the list adds a reaction under the id. */
  lemma {:induction false} LastAddIsLast(es: seq<EventRecord>, id: ReactionAddId) returns (i: nat)
    requires id in Added(es)
    ensures i < |es| && es[i] == LastAdd(es, id) && forall j :: i < j < |es| ==> !AddsId(es[j], id)
  {
    i := |es| - 1;
    if !AddsId(es[i], id) {
      assert es == es[..i] + [es[i]];
      i := LastAddIsLast(es[..i], id);
    }
  }

  /** The largest counter an actor has read from a device. */
  function Frontier(es: seq<EventRecord>, actor: Text, device: Text): (n: nat)
    ensures forall r ::
      r in es && Reads(r) && r.payload.event.actorId == actor && r.payload.event.readDeviceId == device ==>
      r.payload.event.readCounter <= n
    ensures n == 0 || exists r :: r in es && Reads(r) && r.payload.event == ReadAdvanced(actor, device, n)
  {
    if es == [] then 0
    else
      var k := |es| - 1;
      assert es == es[..k] + [es[k]];
      var rest := Frontier(es[..k], actor, device);
      if Reads(es[k]) && es[k].payload.event.actorId == actor && es[k].payload.event.readDeviceId == device
         && es[k].payload.event.readCounter > rest
      then es[k].payload.event.readCounter else rest
  }

  function Shown(r: EventRecord): VisibleReaction
    requires Adds(r)
  {
    VisibleReaction(r.payload.event.reaction, r.payload.event.actorId, AddId(r))
  }

  /** The reactions that a message shows: added, not removed, and aimed at it. */
  function Reactions(es: seq<EventRecord>, m: Text): set<VisibleReaction> {
    set id | id in Added(es) && id !in Removed(es) && LastAdd(es, id).payload.event.messageId == m ::
      Shown(LastAdd(es, id))
  }

  /** A message exists iff it was created, is deleted iff tombstoned, and shows its unremoved reactions. */
  function Message(es: seq<EventRecord>, m: Text): MessageState
    requires m in Created(es)
  {
    var e := FirstCreation(es, m).payload.event;
    MessageState(m, e.authorId, e.body, m in Tombstones(es), Reactions(es, m))
  }

  function FrontierRow(es: seq<EventRecord>, a: Text): map<Text, nat> {
    map d | d in DevicesRead(es, a) :: Frontier(es, a, d)
  }

  function Frontiers(es: seq<EventRecord>): map<Text, map<Text, nat>> {
    map a | a in Actors(es) :: FrontierRow(es, a)
  }

  function Meaning(es: seq<EventRecord>): ConversationState {
    ConversationState(map m | m in Created(es) :: Message(es, m), Tombstones(es), Frontiers(es))
  }

  // ---- Adding one record at the end ----

  lemma {:induction false} FirstCreationSnoc(es: seq<EventRecord>, last: EventRecord, m: Text)
    requires m in Created(es + [last])
    ensures FirstCreation(es + [last], m) == if m in Created(es) then FirstCreation(es, m) else last
  {
    if es != [] && !CreatesId(es[0], m) {
      assert (es + [last])[1..] == es[1..] + [last];
      assert es == [es[0]] + es[1..];
      assert m in Created(es) <==> m in Created(es[1..]);
      FirstCreationSnoc(es[1..], last, m);
    }
  }

  lemma SetsSnoc(es: seq<EventRecord>, last: EventRecord)
    ensures var all := es + [last];
      && Created(all) == Created(es) + (if Creates(last) then {last.payload.event.messageId} else {})
      && Tombstones(all) == Tombstones(es) + (if Deletes(last) then {last.payload.event.messageId} else {})
      && Removed(all) == Removed(es) + (if Removes(last) then {last.payload.event.reactionAdd} else {})
      && Added(all) == Added(es) + (if Adds(last) then {AddId(last)} else {})
  {
  }

  lemma LastAddSnoc(es: seq<EventRecord>, last: EventRecord, id: ReactionAddId)
    requires id in Added(es + [last])
    ensures LastAdd(es + [last], id) == if AddsId(last, id) then last else LastAdd(es, id)
  {
    assert (es + [last])[..|es|] == es;
  }

  function BareMessage(es: seq<EventRecord>, m: Text): MessageState
    requires m in Created(es)
  {
    var e := FirstCreation(es, m).payload.event;
    MessageState(m, e.authorId, e.body, m in Tombstones(es), {})
  }

  /** The messages before any reaction is attached. */
  function Bare(es: seq<EventRecord>): map<Text, MessageState> {
    map m | m in Created(es) :: BareMessage(es, m)
  }

  /** How one record changes the bare messages. */
  function BareNext(messages: map<Text, MessageState>, tombstones: set<Text>, last: EventRecord)
    : map<Text, MessageState>
  {
    if Creates(last) && last.payload.event.messageId !in messages then
      var e := last.payload.event;
      messages[e.messageId := MessageState(e.messageId, e.authorId, e.body, e.messageId in tombstones, {})]
    else if Deletes(last) && last.payload.event.messageId in messages then
      messages[last.payload.event.messageId := messages[last.payload.event.messageId].(deleted := true)]
    else messages
  }

  lemma BareMessageSnoc(es: seq<EventRecord>, last: EventRecord, m: Text)
    requires m in Created(es + [last])
    ensures BareMessage(es + [last], m) ==
      if m !in Created(es) then
        MessageState(m, last.payload.event.authorId, last.payload.event.body, m in Tombstones(es), {})
      else if Deletes(last) && last.payload.event.messageId == m then BareMessage(es, m).(deleted := true)
      else BareMessage(es, m)
  {
    SetsSnoc(es, last);
    FirstCreationSnoc(es, last, m);
  }

  lemma BareKeys(es: seq<EventRecord>, last: EventRecord)
    ensures Bare(es).Keys == Created(es)
    ensures BareNext(Bare(es), Tombstones(es), last).Keys == Created(es + [last])
  {
    SetsSnoc(es, last);
  }

  lemma BareValue(es: seq<EventRecord>, last: EventRecord, m: Text)
    requires m in Created(es + [last]) && m in BareNext(Bare(es), Tombstones(es), last)
    ensures BareMessage(es + [last], m) == BareNext(Bare(es), Tombstones(es), last)[m]
  {
    BareMessageSnoc(es, last, m);
    SetsSnoc(es, last);
    assert m in Created(es) ==> Bare(es)[m] == BareMessage(es, m);
  }

  lemma BareSnoc(es: seq<EventRecord>, last: EventRecord)
    ensures Bare(es + [last]) == BareNext(Bare(es), Tombstones(es), last)
  {
    BareKeys(es, last);
    forall m | m in Created(es + [last]) ensures Bare(es + [last])[m] == BareNext(Bare(es), Tombstones(es), last)[m] {
      BareValue(es, last, m);
    }
    SameMap(Bare(es + [last]), BareNext(Bare(es), Tombstones(es), last));
  }

  function AddTable(es: seq<EventRecord>): map<ReactionAddId, EventRecord> {
    map id | id in Added(es) :: LastAdd(es, id)
  }

  lemma AddTableSnoc(es: seq<EventRecord>, last: EventRecord)
    ensures AddTable(es + [last]) == if Adds(last) then AddTable(es)[AddId(last) := last] else AddTable(es)
  {
    SetsSnoc(es, last);
    forall id | id in Added(es + [last]) {
      LastAddSnoc(es, last, id);
    }
  }

  function Row(frontiers: map<Text, map<Text, nat>>, actor: Text): map<Text, nat> {
    if actor in frontiers then frontiers[actor] else map[]
  }

  function FrontierNext(frontiers: map<Text, map<Text, nat>>, actor: Text, device: Text, n: nat)
    : map<Text, map<Text, nat>>
  {
    var row := Row(frontiers, actor);
    var current := if device in row then row[device] else 0;
    frontiers[actor := row[device := if n > current then n else current]]
  }

  lemma FrontierSnoc(es: seq<EventRecord>, last: EventRecord, a: Text, d: Text)
    ensures Frontier(es + [last], a, d) ==
      if Reads(last) && last.payload.event.actorId == a && last.payload.event.readDeviceId == d
         && last.payload.event.readCounter > Frontier(es, a, d)
      then last.payload.event.readCounter else Frontier(es, a, d)
  {
    assert (es + [last])[..|es|] == es;
  }

  lemma ReadSetsSnoc(es: seq<EventRecord>, last: EventRecord, a: Text)
    ensures Actors(es + [last]) == Actors(es) + (if Reads(last) then {last.payload.event.actorId} else {})
    ensures DevicesRead(es + [last], a) ==
      DevicesRead(es, a)
      + (if Reads(last) && last.payload.event.actorId == a then {last.payload.event.readDeviceId} else {})
  {
  }

  lemma UnreadIsZero(es: seq<EventRecord>, a: Text, d: Text)
    requires d !in DevicesRead(es, a)
    ensures Frontier(es, a, d) == 0
  {
  }

  lemma FrontierRowSnoc(es: seq<EventRecord>, last: EventRecord, a: Text)
    ensures FrontierRow(es + [last], a) ==
      if Reads(last) && last.payload.event.actorId == a then
        FrontierRow(es, a)[last.payload.event.readDeviceId := Frontier(es + [last], a, last.payload.event.readDeviceId)]
      else FrontierRow(es, a)
  {
    ReadSetsSnoc(es, last, a);
    forall d {
      FrontierSnoc(es, last, a, d);
    }
  }

  /** The row of an actor who has read nothing is empty, like the default entry. */
  lemma RowIsFrontierRow(es: seq<EventRecord>, a: Text)
    ensures Row(Frontiers(es), a) == FrontierRow(es, a)
  {
    if a !in Actors(es) {
      assert DevicesRead(es, a) == {};
    }
  }

  lemma CellIsFrontier(es: seq<EventRecord>, a: Text, d: Text)
    ensures (if d in FrontierRow(es, a) then FrontierRow(es, a)[d] else 0) == Frontier(es, a, d)
  {
    if d !in DevicesRead(es, a) {
      UnreadIsZero(es, a, d);
    }
  }

  /** Reading one more record changes one cell of one row. */
  lemma FrontierRowNext(es: seq<EventRecord>, last: EventRecord)
    requires Reads(last)
    ensures var e := last.payload.event;
      FrontierNext(Frontiers(es), e.actorId, e.readDeviceId, e.readCounter)
      == Frontiers(es)[e.actorId := FrontierRow(es + [last], e.actorId)]
  {
    var a, d := last.payload.event.actorId, last.payload.event.readDeviceId;
    RowIsFrontierRow(es, a);
    FrontierRowSnoc(es, last, a);
    FrontierSnoc(es, last, a, d);
    CellIsFrontier(es, a, d);
  }

  lemma FrontiersSnoc(es: seq<EventRecord>, last: EventRecord)
    ensures Frontiers(es + [last]) ==
      if Reads(last) then
        FrontierNext(Frontiers(es), last.payload.event.actorId,
                     last.payload.event.readDeviceId, last.payload.event.readCounter)
      else Frontiers(es)
  {
    var now := Frontiers(es + [last]);
    var next :=
      if Reads(last)
      then Frontiers(es)[last.payload.event.actorId := FrontierRow(es + [last], last.payload.event.actorId)]
                else Frontiers(es);
    ReadSetsSnoc(es, last, []);
    assert now.Keys == Actors(es + [last]) && next.Keys == now.Keys;
    forall a | a in now.Keys ensures now[a] == next[a] {
      FrontierRowSnoc(es, last, a);
    }
    SameMap(now, next);
    if Reads(last) {
      FrontierRowNext(es, last);
    }
  }

  // ---- Attaching reactions ----

  function ReactionsFrom(es: seq<EventRecord>, done: set<ReactionAddId>, m: Text): set<VisibleReaction> {
    set id | id in done && id in Added(es) && id !in Removed(es) && LastAdd(es, id).payload.event.messageId == m ::
      Shown(LastAdd(es, id))
  }

  /** The messages with the reactions of the ids handled so far. */
  function Attached(es: seq<EventRecord>, done: set<ReactionAddId>): map<Text, MessageState> {
    map m | m in Created(es) :: BareMessage(es, m).(reactions := ReactionsFrom(es, done, m))
  }

  lemma AttachedStart(es: seq<EventRecord>)
    ensures Attached(es, {}) == Bare(es)
  {
    forall m | m in Created(es) ensures Attached(es, {})[m] == Bare(es)[m] {
      assert ReactionsFrom(es, {}, m) == {};
    }
  }

  lemma AttachedEnd(es: seq<EventRecord>)
    ensures Attached(es, Added(es)) == Meaning(es).messages
  {
    forall m | m in Created(es) ensures ReactionsFrom(es, Added(es), m) == Reactions(es, m) {
    }
  }

  lemma ReactionsStep(es: seq<EventRecord>, done: set<ReactionAddId>, id: ReactionAddId, m: Text)
    requires id in Added(es)
    ensures ReactionsFrom(es, done + {id}, m) == ReactionsFrom(es, done, m) +
      (if id !in Removed(es) && LastAdd(es, id).payload.event.messageId == m then {Shown(LastAdd(es, id))} else {})
  {
  }

  /** The table after the pass has handled one more reaction. */
  function AttachNext(was: map<Text, MessageState>, live: bool, r: EventRecord): map<Text, MessageState>
    requires Adds(r)
  {
    var m := r.payload.event.messageId;
    if live && m in was then was[m := was[m].(reactions := was[m].reactions + {Shown(r)})] else was
  }

  lemma AttachedValue(es: seq<EventRecord>, done: set<ReactionAddId>, id: ReactionAddId, k: Text)
    requires id in Added(es) && k in Created(es)
    ensures Adds(LastAdd(es, id))
    ensures var next := AttachNext(Attached(es, done), id !in Removed(es), LastAdd(es, id));
      k in next && Attached(es, done + {id})[k] == next[k]
  {
    ReactionsStep(es, done, id, k);
  }

  lemma AttachedStep(es: seq<EventRecord>, done: set<ReactionAddId>, id: ReactionAddId)
    requires id in Added(es)
    ensures Adds(LastAdd(es, id))
    ensures Attached(es, done + {id}) == AttachNext(Attached(es, done), id !in Removed(es), LastAdd(es, id))
  {
    var now, next := Attached(es, done + {id}), AttachNext(Attached(es, done), id !in Removed(es), LastAdd(es, id));
    assert now.Keys == Created(es) && next.Keys == Created(es);
    forall k | k in now.Keys ensures now[k] == next[k] {
      AttachedValue(es, done, id, k);
    }
    SameMap(now, next);
  }

  /** The program's two passes compute exactly the declarative meaning. */
  method MaterializeConversation(events: seq<EventRecord>) returns (state: ConversationState)
    ensures state == Meaning(events)
  {
    var messages: map<Text, MessageState> := map[];
    var tombstones: set<Text> := {};
    var adds: map<ReactionAddId, EventRecord> := map[];
    var removed: set<ReactionAddId> := {};
    var frontiers: map<Text, map<Text, nat>> := map[];

    for i := 0 to |events|
      invariant messages == Bare(events[..i])
      invariant tombstones == Tombstones(events[..i])
      invariant adds == AddTable(events[..i])
      invariant removed == Removed(events[..i])
      invariant frontiers == Frontiers(events[..i])
    {
      var record := events[i];
      assert events[..i + 1] == events[..i] + [record];
      SetsSnoc(events[..i], record);
      BareSnoc(events[..i], record);
      AddTableSnoc(events[..i], record);
      FrontiersSnoc(events[..i], record);
      if record.payload.Encoded? {
        match record.payload.event
        case MessageCreated(id, author, body) =>
          if id !in messages {
            messages := messages[id := MessageState(id, author, body, id in tombstones, {})];
          }
        case MessageDeleted(id) =>
          tombstones := tombstones + {id};
          if id in messages {
            messages := messages[id := messages[id].(deleted := true)];
          }
        case ReactionAdded(_, _, _) =>
          adds := adds[AddId(record) := record];
        case ReactionRemoved(id) =>
          removed := removed + {id};
        case ReadAdvanced(actor, device, n) =>
          frontiers := FrontierNext(frontiers, actor, device, n);
      }
    }
    assert events[..|events|] == events;
    messages := AttachReactions(events, messages, adds, removed);
    state := ConversationState(messages, tombstones, frontiers);
  }

  /** The second pass: each surviving reaction is inserted into the message it is aimed at, if there is one. */
  method AttachReactions(ghost events: seq<EventRecord>, bare: map<Text, MessageState>,
                         adds: map<ReactionAddId, EventRecord>, removed: set<ReactionAddId>)
    returns (messages: map<Text, MessageState>)
    requires bare == Bare(events) && adds == AddTable(events) && removed == Removed(events)
    ensures messages == Meaning(events).messages
  {
    messages := bare;
    var pending := adds.Keys;
    assert pending == Added(events) && Added(events) - pending == {};
    AttachedStart(events);
    while pending != {}
      invariant pending <= Added(events)
      invariant messages == Attached(events, Added(events) - pending)
      decreases pending
    {
      var id :| id in pending;
      AttachedStep(events, Added(events) - pending, id);
      assert Added(events) - (pending - {id}) == (Added(events) - pending) + {id};
      pending := pending - {id};
      if id !in removed {
        var m := adds[id].payload.event.messageId;
        if m in messages {
          messages := messages[m := messages[m].(reactions := messages[m].reactions + {Shown(adds[id])})];
        }
      }
    }
    assert Added(events) - pending == Added(events);
    AttachedEnd(events);
  }

  // ---- The meaning in terms of the records alone ----

  /** A message is there iff some record creates it, with the content of the first such record. */
  lemma MessageMeaning(es: seq<EventRecord>, m: Text)
    ensures m in Meaning(es).messages <==>
      exists i, author, body :: 0 <= i < |es| && es[i].payload == Encoded(MessageCreated(m, author, body))
    ensures m in Meaning(es).messages ==>
      var shown := Meaning(es).messages[m];
      && shown.messageId == m
      && (exists i :: FirstWith(es, i, m, shown.authorId, shown.body))
      && (shown.deleted <==> exists i :: 0 <= i < |es| && es[i].payload == Encoded(MessageDeleted(m)))
  {
    if m in Created(es) {
      var i := FirstCreationIsFirst(es, m);
      var shown := Meaning(es).messages[m];
      assert es[i].payload == Encoded(MessageCreated(m, shown.authorId, shown.body));
      assert FirstWith(es, i, m, shown.authorId, shown.body);
      if m in Tombstones(es) {
        var r :| r in es && Deletes(r) && r.payload.event.messageId == m;
        var k :| 0 <= k < |es| && es[k] == r;
        assert es[k].payload == Encoded(MessageDeleted(m));
      }
      if k :| 0 <= k < |es| && es[k].payload == Encoded(MessageDeleted(m)) {
        assert es[k] in es && Deletes(es[k]);
      }
    }
    if i, author, body :| 0 <= i < |es| && es[i].payload == Encoded(MessageCreated(m, author, body)) {
      assert es[i] in es && Creates(es[i]);
    }
  }

  /** Record `i` creates the message with this content, and no record before it creates the message at all. */
  ghost predicate FirstWith(es: seq<EventRecord>, i: int, m: Text, author: Text, body: seq<byte>) {
    && 0 <= i < |es| && es[i].payload == Encoded(MessageCreated(m, author, body))
    && forall j :: 0 <= j < i ==>
         !(es[j].payload.Encoded? && es[j].payload.event.MessageCreated? && es[j].payload.event.messageId == m)
  }

  /**
   * Record `i` is the last addition at its position, it adds this reaction to the message, and no
   * record removes the addition at its device and counter.
   */
  ghost predicate Survives(es: seq<EventRecord>, i: int, m: Text, v: VisibleReaction) {
    && 0 <= i < |es|
    && es[i].payload == Encoded(ReactionAdded(m, v.reaction, v.actorId))
    && v.add == ReactionAddId(es[i].deviceId, es[i].counter)
    && (forall j :: i < j < |es| && es[j].deviceId == es[i].deviceId && es[j].counter == es[i].counter ==>
          !(es[j].payload.Encoded? && es[j].payload.event.ReactionAdded?))
    && (forall j :: 0 <= j < |es| ==>
          es[j].payload != Encoded(ReactionRemoved(ReactionAddId(es[i].deviceId, es[i].counter))))
  }

  lemma RemovedMeans(es: seq<EventRecord>, id: ReactionAddId)
    ensures id in Removed(es) <==> exists j :: 0 <= j < |es| && es[j].payload == Encoded(ReactionRemoved(id))
  {
    if id in Removed(es) {
      var r :| r in es && Removes(r) && r.payload.event.reactionAdd == id;
      var j :| 0 <= j < |es| && es[j] == r;
      assert es[j].payload == Encoded(ReactionRemoved(id));
    }
    if j :| 0 <= j < |es| && es[j].payload == Encoded(ReactionRemoved(id)) {
      assert es[j] in es && Removes(es[j]);
    }
  }

  lemma LastAddAt(es: seq<EventRecord>, i: nat)
    requires i < |es| && Adds(es[i])
    requires forall j :: i < j < |es| ==> !AddsId(es[j], AddId(es[i]))
    ensures AddId(es[i]) in Added(es) && LastAdd(es, AddId(es[i])) == es[i]
  {
    assert es[i] in es;
    var k := LastAddIsLast(es, AddId(es[i]));
    assert !(i < k) && !(k < i);
  }

  /** A created message shows exactly the surviving reactions. */
  lemma ReactionMeaning(es: seq<EventRecord>, m: Text, v: VisibleReaction)
    requires m in Meaning(es).messages
    ensures v in Meaning(es).messages[m].reactions <==> exists i :: Survives(es, i, m, v)
  {
    MeaningReactions(es, m);
    if v in Reactions(es, m) {
      var id :| id in Added(es) && id !in Removed(es) && v == Shown(LastAdd(es, id))
        && LastAdd(es, id).payload.event.messageId == m;
      var i := LastAddIsLast(es, id);
      RemovedMeans(es, id);
      assert Survives(es, i, m, v);
    }
    if i :| Survives(es, i, m, v) {
      RemovedMeans(es, v.add);
      LastAddAt(es, i);
      assert AddId(es[i]) in Added(es) && v == Shown(LastAdd(es, AddId(es[i])));
    }
  }

  /** The last addition at its position is shown exactly when nothing removes the addition of its device and counter. */
  lemma ReactionShownIff(es: seq<EventRecord>, i: nat, m: Text, x: Text, a: Text)
    requires i < |es| && es[i].payload == Encoded(ReactionAdded(m, x, a)) && m in Meaning(es).messages
    requires forall j :: i < j < |es| && es[j].deviceId == es[i].deviceId && es[j].counter == es[i].counter ==>
      !(es[j].payload.Encoded? && es[j].payload.event.ReactionAdded?)
    ensures
      VisibleReaction(x, a, ReactionAddId(es[i].deviceId, es[i].counter)) in Meaning(es).messages[m].reactions <==>
      forall j :: 0 <= j < |es| ==>
        es[j].payload != Encoded(ReactionRemoved(ReactionAddId(es[i].deviceId, es[i].counter)))
  {
    var v := VisibleReaction(x, a, ReactionAddId(es[i].deviceId, es[i].counter));
    ReactionMeaning(es, m, v);
    if forall j :: 0 <= j < |es| ==> es[j].payload != Encoded(ReactionRemoved(v.add)) {
      assert Survives(es, i, m, v);
    }
  }

  /** The tombstones are the deleted ids, whether or not the message was ever created. */
  lemma TombstoneMeaning(es: seq<EventRecord>, m: Text)
    ensures m in Meaning(es).tombstones <==> exists i :: 0 <= i < |es| && es[i].payload == Encoded(MessageDeleted(m))
  {
    if m in Tombstones(es) {
      var r :| r in es && Deletes(r) && r.payload.event.messageId == m;
      var k :| 0 <= k < |es| && es[k] == r;
      assert es[k].payload == Encoded(MessageDeleted(m));
    }
    if k :| 0 <= k < |es| && es[k].payload == Encoded(MessageDeleted(m)) {
      assert es[k] in es && Deletes(es[k]);
    }
  }

  lemma AdvancedRecorded(es: seq<EventRecord>, a: Text, d: Text)
    ensures a in Actors(es) && d in DevicesRead(es, a) <==>
      exists i: int, n: nat :: 0 <= i < |es| && es[i].payload == Encoded(ReadAdvanced(a, d, n))
  {
    if i: int, n: nat :| 0 <= i < |es| && es[i].payload == Encoded(ReadAdvanced(a, d, n)) {
      assert es[i] in es && Reads(es[i]);
    }
    if d in DevicesRead(es, a) {
      var r :| r in es && Reads(r) && r.payload.event.actorId == a && r.payload.event.readDeviceId == d;
      var i :| 0 <= i < |es| && es[i] == r;
      assert es[i].payload == Encoded(ReadAdvanced(a, d, r.payload.event.readCounter));
    }
  }

  lemma FrontierLargest(es: seq<EventRecord>, a: Text, d: Text)
    ensures forall i: int, n: nat :: 0 <= i < |es| && es[i].payload == Encoded(ReadAdvanced(a, d, n)) ==>
      n <= Frontier(es, a, d)
  {
    assert forall i :: 0 <= i < |es| ==> es[i] in es;
  }

  /** A read frontier is there iff some record advances it, and is then the largest counter of any of them. */
  lemma FrontierMeaning(es: seq<EventRecord>, a: Text, d: Text)
    ensures var fs := Meaning(es).frontiers;
      && (a in fs && d in fs[a] <==>
            exists i: int, n: nat :: 0 <= i < |es| && es[i].payload == Encoded(ReadAdvanced(a, d, n)))
      && (a in fs && d in fs[a] ==>
            && (exists i :: 0 <= i < |es| && es[i].payload == Encoded(ReadAdvanced(a, d, fs[a][d])))
            && (forall i: int, n: nat :: 0 <= i < |es| && es[i].payload == Encoded(ReadAdvanced(a, d, n)) ==>
                  n <= fs[a][d]))
  {
    AdvancedRecorded(es, a, d);
    FrontierLargest(es, a, d);
    if a in Actors(es) && d in DevicesRead(es, a) {
      var i: int, n: nat :| 0 <= i < |es| && es[i].payload == Encoded(ReadAdvanced(a, d, n));
      FrontierAttained(es, a, d, i);
    }
  }

  lemma FrontierAttained(es: seq<EventRecord>, a: Text, d: Text, i: nat)
    requires i < |es| && Reads(es[i]) && es[i].payload.event.actorId == a && es[i].payload.event.readDeviceId == d
    ensures exists k :: 0 <= k < |es| && es[k].payload == Encoded(ReadAdvanced(a, d, Frontier(es, a, d)))
  {
    var n := Frontier(es, a, d);
    assert es[i] in es && es[i].payload.event.readCounter <= n;
    if n == 0 {
      assert es[i].payload == Encoded(ReadAdvanced(a, d, n));
    } else {
      var r :| r in es && Reads(r) && r.payload.event == ReadAdvanced(a, d, n);
      var k :| 0 <= k < |es| && es[k] == r;
      assert es[k].payload == Encoded(ReadAdvanced(a, d, n));
    }
  }

  // ---- Order and repetition ----

  /** The two lists hold the same records, in any order and any number of times. */
  ghost predicate SameRecords(es: seq<EventRecord>, fs: seq<EventRecord>) {
    forall r :: r in es <==> r in fs
  }

  ghost predicate OrderIrrelevant(es: seq<EventRecord>) {
    forall fs :: SameRecords(es, fs) ==> Meaning(fs) == Meaning(es)
  }

  predicate SameCreation(r: EventRecord, s: EventRecord) {
    Creates(r) && Creates(s) && r.payload.event.messageId == s.payload.event.messageId
  }

  /** Creations of one message carry the same content. */
  ghost predicate CreationsAgree(es: seq<EventRecord>) {
    forall r, s :: (r in es && s in es && SameCreation(r, s)) ==> r.payload.event == s.payload.event
  }

  /** Reactions under one id that is not removed are the same, or aim at no created message. */
  ghost predicate AddsAgree(es: seq<EventRecord>) {
    forall r, s :: r in es && s in es && Adds(r) && Adds(s) && AddId(r) == AddId(s) && AddId(r) !in Removed(es) ==>
      r.payload.event == s.payload.event || r.payload.event.messageId !in Created(es)
  }

  lemma SameSets(es: seq<EventRecord>, fs: seq<EventRecord>)
    requires SameRecords(es, fs)
    ensures Created(es) == Created(fs) && Tombstones(es) == Tombstones(fs)
    ensures Removed(es) == Removed(fs) && Added(es) == Added(fs)
  {
  }

  lemma SameFrontier(es: seq<EventRecord>, fs: seq<EventRecord>, a: Text, d: Text)
    requires SameRecords(es, fs)
    ensures Frontier(es, a, d) == Frontier(fs, a, d)
  {
  }

  /** The read frontier is a maximum, so it never depends on the order. */
  lemma SameFrontiers(es: seq<EventRecord>, fs: seq<EventRecord>)
    requires SameRecords(es, fs)
    ensures Frontiers(es) == Frontiers(fs)
  {
    assert Actors(es) == Actors(fs);
    forall a ensures FrontierRow(es, a) == FrontierRow(fs, a) {
      assert DevicesRead(es, a) == DevicesRead(fs, a);
      forall d ensures Frontier(es, a, d) == Frontier(fs, a, d) {
        SameFrontier(es, fs, a, d);
      }
    }
  }

  lemma SameReactions(es: seq<EventRecord>, fs: seq<EventRecord>, m: Text)
    requires SameRecords(es, fs) && AddsAgree(es) && m in Created(es)
    ensures Reactions(es, m) <= Reactions(fs, m)
  {
    SameSets(es, fs);
    forall id | id in Added(es) && id !in Removed(es) && LastAdd(es, id).payload.event.messageId == m
      ensures Shown(LastAdd(es, id)) in Reactions(fs, m)
    {
      var r, s := LastAdd(es, id), LastAdd(fs, id);
      assert r.payload.event == s.payload.event;
      assert Shown(r) == Shown(s);
    }
  }

  lemma AddsAgreeSame(es: seq<EventRecord>, fs: seq<EventRecord>)
    requires SameRecords(es, fs) && AddsAgree(es)
    ensures AddsAgree(fs)
  {
    SameSets(es, fs);
  }

  lemma SameMessage(es: seq<EventRecord>, fs: seq<EventRecord>, m: Text)
    requires SameRecords(es, fs) && CreationsAgree(es) && AddsAgree(es) && m in Created(es) && m in Created(fs)
    ensures Message(es, m) == Message(fs, m)
  {
    SameSets(es, fs);
    AddsAgreeSame(es, fs);
    SameReactions(es, fs, m);
    SameReactions(fs, es, m);
    assert FirstCreation(fs, m) in es;
  }

  lemma AgreeingOrderIrrelevant(es: seq<EventRecord>)
    requires CreationsAgree(es) && AddsAgree(es)
    ensures OrderIrrelevant(es)
  {
    forall fs | SameRecords(es, fs) ensures Meaning(fs) == Meaning(es) {
      SameSets(es, fs);
      SameFrontiers(es, fs);
      forall m | m in Created(es) ensures Message(es, m) == Message(fs, m) {
        SameMessage(es, fs, m);
      }
    }
  }

  /** Putting a record in front makes it the first creation of its message. */
  lemma FrontCreationWins(es: seq<EventRecord>, r: EventRecord)
    requires r in es && Creates(r)
    ensures SameRecords(es, [r] + es)
    ensures var m := r.payload.event.messageId;
      m in Created(es) && m in Meaning([r] + es).messages
      && Meaning([r] + es).messages[m].authorId == r.payload.event.authorId
      && Meaning([r] + es).messages[m].body == r.payload.event.body
  {
    var m := r.payload.event.messageId;
    assert CreatesId(([r] + es)[0], m);
    assert m in Created([r] + es);
  }

  lemma CreationDecides(es: seq<EventRecord>, r: EventRecord)
    requires OrderIrrelevant(es) && r in es && Creates(r)
    ensures var e := r.payload.event;
      e.messageId in Created(es)
      && FirstCreation(es, e.messageId).payload.event.authorId == e.authorId
      && FirstCreation(es, e.messageId).payload.event.body == e.body
  {
    FrontCreationWins(es, r);
    assert Meaning([r] + es) == Meaning(es);
    var m := r.payload.event.messageId;
    assert Meaning(es).messages[m] == Message(es, m);
  }

  lemma OrderIrrelevantCreations(es: seq<EventRecord>)
    requires OrderIrrelevant(es)
    ensures CreationsAgree(es)
  {
    forall r, s | r in es && s in es && SameCreation(r, s) ensures r.payload.event == s.payload.event {
      CreationDecides(es, r);
      CreationDecides(es, s);
    }
  }

  /** Putting a reaction at the end makes it the one its id shows. */
  lemma BackAddWins(es: seq<EventRecord>, r: EventRecord, m: Text)
    requires r in es && Adds(r) && AddId(r) !in Removed(es) && m in Created(es)
    ensures SameRecords(es, es + [r])
    ensures forall v :: v in Reactions(es + [r], m) && v.add == AddId(r) ==>
      v == Shown(r) && r.payload.event.messageId == m
    ensures r.payload.event.messageId == m ==> Shown(r) in Reactions(es + [r], m)
  {
    var fs := es + [r];
    SameSets(es, fs);
    assert fs[..|es|] == es;
    assert LastAdd(fs, AddId(r)) == r;
  }

  lemma AddDecides(es: seq<EventRecord>, r: EventRecord, m: Text)
    requires OrderIrrelevant(es) && r in es && Adds(r) && AddId(r) !in Removed(es) && m in Created(es)
    ensures forall v :: v in Reactions(es, m) && v.add == AddId(r) ==> v == Shown(r) && r.payload.event.messageId == m
    ensures r.payload.event.messageId == m ==> Shown(r) in Reactions(es, m)
  {
    BackAddWins(es, r, m);
    SameSets(es, es + [r]);
    assert Meaning(es + [r]) == Meaning(es);
    MeaningReactions(es + [r], m);
    MeaningReactions(es, m);
  }

  lemma OrderIrrelevantAdds(es: seq<EventRecord>)
    requires OrderIrrelevant(es)
    ensures AddsAgree(es)
  {
    forall r, s | r in es && s in es && Adds(r) && Adds(s) && AddId(r) == AddId(s) && AddId(r) !in Removed(es)
      && r.payload.event.messageId in Created(es)
      ensures r.payload.event == s.payload.event
    {
      AddDecides(es, r, r.payload.event.messageId);
      AddDecides(es, s, r.payload.event.messageId);
    }
  }

  lemma MeaningReactions(es: seq<EventRecord>, m: Text)
    requires m in Created(es)
    ensures m in Meaning(es).messages && Meaning(es).messages[m].reactions == Reactions(es, m)
  {
  }

  /**
   * Materialisation is independent of order and repetition exactly when creations of one message
   * carry the same content and competing reactions under one live id do not matter.
   */
  lemma OrderIrrelevantIff(es: seq<EventRecord>)
    ensures OrderIrrelevant(es) <==> CreationsAgree(es) && AddsAgree(es)
  {
    if OrderIrrelevant(es) {
      OrderIrrelevantCreations(es);
      OrderIrrelevantAdds(es);
    }
    if CreationsAgree(es) && AddsAgree(es) {
      AgreeingOrderIrrelevant(es);
    }
  }

  /** Records with one position are equal, as in any table keyed by (device, counter). */
  ghost predicate PositionsUnique(es: seq<EventRecord>) {
    forall r, s :: r in es && s in es && r.deviceId == s.deviceId && r.counter == s.counter ==> r == s
  }

  /** For lists drawn from event tables, agreeing creations are all it takes, and all it can take. */
  lemma TableOrderIrrelevantIff(es: seq<EventRecord>)
    requires PositionsUnique(es)
    ensures OrderIrrelevant(es) <==> CreationsAgree(es)
  {
    OrderIrrelevantIff(es);
    assert AddsAgree(es);
  }

  /** After one sync run both replicas materialise to the same state, whatever the message ids. */
  lemma SyncedReplicasConverge(l: EventLog.Db, r: EventLog.Db, c: Text)
    requires EventLog.Valid(l) && EventLog.Valid(r) && Sync.Agree(l, r)
    ensures var (l', r') := Sync.SyncRound(l, r, c);
      Meaning(Sync.AllEvents(l', c)) == Meaning(Sync.AllEvents(r', c))
  {
    Sync.SyncedListsEqual(l, r, c);
  }
}
