/** Merging one contact into another and deleting a conversation, over all the tables that file rows under it. */
module Contacts {
  import opened Bytes
  import opened Ratchet
  import opened Delivery
  import EventLog

  /** A row and the conversation it is filed under. */
  datatype Filed<T> = Filed(conversation: Text, row: T)

  /** The tables with one row per message. */
  datatype RowTables = RowTables(
    messages: map<Text, Filed<HistoryRow>>,
    marks: map<Text, Filed<nat>>,
    pending: map<Text, Filed<PendingRow>>)

  /** The tables with one row per conversation. */
  datatype PeerTables = PeerTables(
    sessions: map<Text, Session>,
    knownPeers: map<Text, Text>,
    contacts: map<Text, seq<byte>>)

  datatype Tables = Tables(log: EventLog.Db, rows: RowTables, peers: PeerTables)

  function FiledIn<T>(rows: map<Text, Filed<T>>, c: Text): set<Text> {
    set id | id in rows && rows[id].conversation == c
  }

  function Refiled<T>(rows: map<Text, Filed<T>>, from: Text, to: Text): map<Text, Filed<T>> {
    map id | id in rows :: if rows[id].conversation == from then rows[id].(conversation := to) else rows[id]
  }

  /** The target keeps its own session; only without one does it take over the merged one. */
  function MergedSessions(sessions: map<Text, Session>, from: Text, to: Text): map<Text, Session> {
    if to in sessions || from !in sessions then sessions - {from} else (sessions - {from})[to := sessions[from]]
  }

  /** The unread marks are not touched. */
  function MergeRows(r: RowTables, from: Text, to: Text): RowTables {
    r.(messages := Refiled(r.messages, from, to), pending := Refiled(r.pending, from, to))
  }

  function MergePeers(p: PeerTables, from: Text, to: Text): PeerTables {
    PeerTables(MergedSessions(p.sessions, from, to), p.knownPeers - {from}, p.contacts - {from})
  }

  function Merge(t: Tables, from: Text, to: Text): Tables {
    if from == to then t
    else Tables(EventLog.Merge(t.log, from, to), MergeRows(t.rows, from, to), MergePeers(t.peers, from, to))
  }

  function Unfiled<T>(rows: map<Text, Filed<T>>, c: Text): map<Text, Filed<T>> {
    rows - FiledIn(rows, c)
  }

  function DeleteRows(r: RowTables, c: Text): RowTables {
    RowTables(Unfiled(r.messages, c), Unfiled(r.marks, c), Unfiled(r.pending, c))
  }

  function DeletePeers(p: PeerTables, c: Text): PeerTables {
    PeerTables(p.sessions - {c}, p.knownPeers - {c}, p.contacts - {c})
  }

  function Delete(t: Tables, c: Text): Tables {
    Tables(EventLog.Delete(t.log, c), DeleteRows(t.rows, c), DeletePeers(t.peers, c))
  }

  /** The number of rows in all the tables. */
  function Size(t: Tables): nat {
    LogSize(t.log) + RowsSize(t.rows) + PeersSize(t.peers)
  }

  function LogSize(db: EventLog.Db): nat {
    |db.events| + |db.vectors|
  }

  function RowsSize(r: RowTables): nat {
    |r.messages| + |r.marks| + |r.pending|
  }

  function PeersSize(p: PeerTables): nat {
    |p.sessions| + |p.knownPeers| + |p.contacts|
  }

  class ContactStore {
    var log: EventLog.Db
    var rows: RowTables
    var peers: PeerTables

    function View(): Tables
      reads this
    {
      Tables(log, rows, peers)
    }

    constructor (t: Tables)
      ensures View() == t
    {
      log, rows, peers := t.log, t.rows, t.peers;
    }

    method MergeContactInto(from: Text, to: Text)
      modifies this
      ensures View() == Merge(old(View()), from, to)
    {
      if from == to {
        return;
      }
      rows := rows.(messages := Refiled(rows.messages, from, to));
      rows := rows.(pending := Refiled(rows.pending, from, to));
      log := log.(events := EventLog.Moved(log.events, from, to));
      if to in peers.sessions || from !in peers.sessions {
        peers := peers.(sessions := peers.sessions - {from});
      } else {
        peers := peers.(sessions := (peers.sessions - {from})[to := peers.sessions[from]]);
      }
      var stale := EventLog.RowsOf(log.vectors, from);
      log := log.(vectors := EventLog.Copied(log.vectors, from, to) + log.vectors - stale);
      peers := peers.(knownPeers := peers.knownPeers - {from});
      peers := peers.(contacts := peers.contacts - {from});
    }

    method DeleteConversation(c: Text) returns (removed: nat)
      modifies this
      ensures View() == Delete(old(View()), c)
      ensures Size(old(View())) == Size(View()) + removed
    {
      var filed := RowsRemoved(rows, c);
      rows := DeleteRows(rows, c);
      var logged := LogRemoved(log, c);
      log := EventLog.Delete(log, c);
      var named := PeersRemoved(peers, c);
      peers := DeletePeers(peers, c);
      removed := filed + logged + named;
    }
  }

  // ---- Counting ----

  function Has<T>(m: map<Text, T>, c: Text): nat {
    if c in m then 1 else 0
  }

  /** What each group of deletions reports as removed. */
  function RowsRemoved(r: RowTables, c: Text): (removed: nat)
    ensures RowsSize(r) == RowsSize(DeleteRows(r, c)) + removed
  {
    |FiledIn(r.messages, c)| + |FiledIn(r.marks, c)| + |FiledIn(r.pending, c)|
  }

  function LogRemoved(db: EventLog.Db, c: Text): (removed: nat)
    ensures LogSize(db) == LogSize(EventLog.Delete(db, c)) + removed
  {
    |EventLog.EventsOf(db.events, c)| + |EventLog.RowsOf(db.vectors, c)|
  }

  function PeersRemoved(p: PeerTables, c: Text): (removed: nat)
    ensures PeersSize(p) == PeersSize(DeletePeers(p, c)) + removed
  {
    Has(p.sessions, c) + Has(p.knownPeers, c) + Has(p.contacts, c)
  }

  // ---- What a merge keeps ----

  /** No row is lost or altered: every row of the merged contact is now the target's, and no other row moved. */
  lemma RefiledLaw<T>(rows: map<Text, Filed<T>>, from: Text, to: Text, c: Text)
    requires from != to
    ensures var now := Refiled(rows, from, to);
      && now.Keys == rows.Keys
      && (forall id :: id in rows ==> now[id].row == rows[id].row)
      && FiledIn(now, c) ==
         if c == from then {} else if c == to then FiledIn(rows, to) + FiledIn(rows, from) else FiledIn(rows, c)
  {
  }

  /** Some table files a row under the conversation. */
  ghost predicate Mentions(t: Tables, c: Text) {
    || (exists p :: p in t.log.events && t.log.events[p].conversationId == c)
    || (exists d :: (c, d) in t.log.vectors)
    || FiledIn(t.rows.messages, c) + FiledIn(t.rows.marks, c) + FiledIn(t.rows.pending, c) != {}
    || c in t.peers.sessions || c in t.peers.knownPeers || c in t.peers.contacts
  }

  /** A merge leaves nothing under the old contact exactly when it had no unread marks. */
  lemma MergeLeavesNothingIff(t: Tables, from: Text, to: Text)
    requires from != to
    ensures Mentions(Merge(t, from, to), from) <==> FiledIn(t.rows.marks, from) != {}
  {
    RefiledLaw(t.rows.messages, from, to, from);
    RefiledLaw(t.rows.pending, from, to, from);
    forall d ensures (from, d) !in EventLog.Merge(t.log, from, to).vectors {
      EventLog.MergeRows(t.log, from, to, from, d);
    }
  }

  /** Messages, pending rows, marks and events are all kept; the target's own session wins over the merged one. */
  lemma MergeConserves(t: Tables, from: Text, to: Text)
    requires from != to
    ensures var (r, r') := (t.rows, MergeRows(t.rows, from, to));
      && Merge(t, from, to).rows == r'
      && r'.messages.Keys == r.messages.Keys && r'.pending.Keys == r.pending.Keys && r'.marks == r.marks
      && (forall id :: id in r.messages ==> r'.messages[id].row == r.messages[id].row)
      && (forall id :: id in r.pending ==> r'.pending[id].row == r.pending[id].row)
      && FiledIn(r'.messages, to) == FiledIn(r.messages, to) + FiledIn(r.messages, from)
      && FiledIn(r'.pending, to) == FiledIn(r.pending, to) + FiledIn(r.pending, from)
    ensures var (events, events') := (t.log.events, Merge(t, from, to).log.events);
      && events'.Keys == events.Keys
      && (forall p :: p in events ==>
            events'[p] == events[p].(conversationId :=
              if events[p].conversationId == from then to else events[p].conversationId))
    ensures var (s, s') := (t.peers.sessions, Merge(t, from, to).peers.sessions);
      && (to in s' <==> to in s || from in s)
      && (to in s' ==> s'[to] == s[if to in s then to else from])
  {
    RefiledLaw(t.rows.messages, from, to, to);
    RefiledLaw(t.rows.pending, from, to, to);
  }

  /** The rows filed under the conversation are the same in both. */
  ghost predicate SameFiled<T(!new)>(m: map<Text, Filed<T>>, m': map<Text, Filed<T>>, c: Text) {
    forall row: Filed<T>, id :: row.conversation == c ==> ((id in m && m[id] == row) <==> (id in m' && m'[id] == row))
  }

  ghost predicate SameEntry<T>(m: map<Text, T>, m': map<Text, T>, c: Text) {
    (c in m <==> c in m') && (c in m ==> m[c] == m'[c])
  }

  ghost predicate SameRows(r: RowTables, r': RowTables, c: Text) {
    SameFiled(r.messages, r'.messages, c) && SameFiled(r.marks, r'.marks, c) && SameFiled(r.pending, r'.pending, c)
  }

  ghost predicate SamePeers(p: PeerTables, p': PeerTables, c: Text) {
    && SameEntry(p.sessions, p'.sessions, c)
    && SameEntry(p.knownPeers, p'.knownPeers, c)
    && SameEntry(p.contacts, p'.contacts, c)
  }

  ghost predicate SameLog(db: EventLog.Db, db': EventLog.Db, c: Text) {
    && EventLog.Conversation(db, c) == EventLog.Conversation(db', c)
    && (forall d :: EventLog.VectorOf(db, c, d) == EventLog.VectorOf(db', c, d))
  }

  /** Nothing of the conversation differs. */
  ghost predicate SameFor(t: Tables, t': Tables, c: Text) {
    SameLog(t.log, t'.log, c) && SameRows(t.rows, t'.rows, c) && SamePeers(t.peers, t'.peers, c)
  }

  lemma MergeLogTouchesNoOther(db: EventLog.Db, from: Text, to: Text, c: Text)
    requires c != from && c != to && from != to
    ensures SameLog(db, EventLog.Merge(db, from, to), c)
  {
    var db' := EventLog.Merge(db, from, to);
    forall d ensures EventLog.VectorOf(db, c, d) == EventLog.VectorOf(db', c, d) {
      EventLog.MergeRows(db, from, to, c, d);
    }
    SameConversation(db, db', c);
  }

  lemma SameConversation(db: EventLog.Db, db': EventLog.Db, c: Text)
    requires forall p :: p in db.events && db.events[p].conversationId == c ==>
      p in db'.events && db'.events[p] == db.events[p]
    requires forall p :: p in db'.events && db'.events[p].conversationId == c ==>
      p in db.events && db.events[p] == db'.events[p]
    ensures EventLog.Conversation(db, c) == EventLog.Conversation(db', c)
  {
  }

  /** A merge touches no third conversation. */
  lemma MergeTouchesNoOther(t: Tables, from: Text, to: Text, c: Text)
    requires c != from && c != to
    ensures SameFor(t, Merge(t, from, to), c)
  {
    if from != to {
      MergeLogTouchesNoOther(t.log, from, to, c);
    }
  }

  lemma DeleteLogTouchesNoOther(db: EventLog.Db, c: Text, other: Text)
    requires other != c
    ensures SameLog(db, EventLog.Delete(db, c), other)
  {
    SameConversation(db, EventLog.Delete(db, c), other);
  }

  /** A delete leaves no trace of the conversation and touches no other. */
  lemma DeleteLaw(t: Tables, c: Text, other: Text)
    ensures !Mentions(Delete(t, c), c)
    ensures other != c ==> SameFor(t, Delete(t, c), other)
  {
    if other != c {
      DeleteLogTouchesNoOther(t.log, c, other);
    }
  }
}
