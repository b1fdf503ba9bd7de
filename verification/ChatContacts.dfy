/**
 * How a chat names its contact, and under which name the contact's pending rows are kept. Opening a chat
 * saves the contact, merges the contact once known by the same display name, and saves the known peer.
 */
module ChatContacts {
  import opened Bytes
  import opened Wrappers
  import opened Delivery
  import opened Contacts

  /** The two hashes that contact ids come from. */
  datatype Naming = Naming(forIdentity: seq<byte> -> Text, forName: Text -> Text)

  const IDENTITY_KEY_LENGTH: nat := 32

  const LEGACY_IDENTITY: seq<byte> := Ascii("legacy display-name contact")

  /** The conversation of a chat: by the peer's identity key, or by display name if the peer sends none. */
  function ChatId(ids: Naming, name: Text, identity: Option<Key32>): Text {
    if identity.Some? then ids.forIdentity(identity.value) else ids.forName(name)
  }

  function StoredIdentity(identity: Option<Key32>): seq<byte> {
    if identity.Some? then identity.value else LEGACY_IDENTITY
  }

  /** Upsert by peer id; a second peer for one conversation breaks the table's uniqueness constraint. */
  function SaveKnownPeer(known: map<Text, Text>, peer: Text, c: Text): Option<map<Text, Text>> {
    if c in known && known[c] != peer then None
    else Some((map k | k in known && known[k] != peer :: known[k])[c := peer])
  }

  /** Save the contact, merge the legacy contact, save the known peer; false if the last step fails. */
  function SaveContactForChat(t: Tables, ids: Naming, c: Text, name: Text, identity: seq<byte>): (Tables, bool) {
    var saved := t.(peers := t.peers.(contacts := t.peers.contacts[c := identity]));
    if |identity| != IDENTITY_KEY_LENGTH then (saved, true)
    else
      var merged := Merge(saved, ids.forName(name), c);
      match SaveKnownPeer(merged.peers.knownPeers, ids.forIdentity(identity), c)
      case None => (merged, false)
      case Some(known) => (merged.(peers := merged.peers.(knownPeers := known)), true)
  }

  method SaveContact(store: ContactStore, ids: Naming, c: Text, name: Text, identity: seq<byte>) returns (ok: bool)
    modifies store
    ensures (store.View(), ok) == SaveContactForChat(old(store.View()), ids, c, name, identity)
  {
    store.peers := store.peers.(contacts := store.peers.contacts[c := identity]);
    if |identity| == IDENTITY_KEY_LENGTH {
      store.MergeContactInto(ids.forName(name), c);
      var known := SaveKnownPeer(store.peers.knownPeers, ids.forIdentity(identity), c);
      if known.None? {
        return false;
      }
      store.peers := store.peers.(knownPeers := known.value);
    }
    return true;
  }

  /** The known peer's name, else the one its contact's identity key gives, else the conversation itself. */
  function PendingName(t: Tables, ids: Naming, c: Text): Text {
    if c in t.peers.knownPeers then t.peers.knownPeers[c]
    else if c in t.peers.contacts && |t.peers.contacts[c]| == IDENTITY_KEY_LENGTH
    then ids.forIdentity(t.peers.contacts[c])
    else c
  }

  // ---- Runs ----

  datatype Op =
    | OpenChat(name: Text, identity: Option<Key32>)
    | Track(c: Text, id: Text, text: string, now: nat)
    | Settle(id: Text)
    | Remove(c: Text)

  /** A row is queued under the pending name of its conversation, unless its id is queued already. */
  function TrackRow(t: Tables, ids: Naming, c: Text, id: Text, text: string, now: nat): Tables {
    if id in t.rows.pending then t
    else
      var row := Filed(c, PendingRow(PendingName(t, ids, c), text, now, 0, None));
      t.(rows := t.rows.(pending := t.rows.pending[id := row]))
  }

  function SettleRow(t: Tables, id: Text): Tables {
    t.(rows := t.rows.(pending := t.rows.pending - {id}))
  }

  function Next(t: Tables, ids: Naming, op: Op): Tables {
    match op
    case OpenChat(name, identity) =>
      SaveContactForChat(t, ids, ChatId(ids, name, identity), name, StoredIdentity(identity)).0
    case Track(c, id, text, now) => TrackRow(t, ids, c, id, text, now)
    case Settle(id) => SettleRow(t, id)
    case Remove(c) => Delete(t, c)
  }

  ghost predicate IsRun(states: seq<Tables>, ids: Naming, ops: seq<Op>) {
    && |states| == |ops| + 1
    && Named(states[0], ids)
    && forall i :: 0 <= i < |ops| ==> states[i + 1] == Next(states[i], ids, ops[i])
  }

  /** A peer is known under one conversation: an earlier one is given up, and another peer's is refused. */
  lemma SavedPeer(known: map<Text, Text>, peer: Text, c: Text, other: Text)
    ensures var r := SaveKnownPeer(known, peer, c);
      && (r.None? <==> c in known && known[c] != peer)
      && (r.Some? ==>
            && c in r.value && r.value[c] == peer
            && (other != c ==>
                  && (other in r.value <==> other in known && known[other] != peer)
                  && (other in r.value ==> r.value[other] == known[other])))
  {
  }

  /** What saving a contact leaves: its identity is stored, and with a key the peer is known under the conversation. */
  lemma SavedContact(t: Tables, ids: Naming, c: Text, name: Text, identity: seq<byte>)
    ensures var (t', ok) := SaveContactForChat(t, ids, c, name, identity);
      && c in t'.peers.contacts && t'.peers.contacts[c] == identity
      && (ok && |identity| == 32 ==> c in t'.peers.knownPeers && t'.peers.knownPeers[c] == ids.forIdentity(identity))
      && (|identity| != 32 ==> ok && t'.rows == t.rows && t'.log == t.log && t'.peers.knownPeers == t.peers.knownPeers)
      && (!ok ==> c in t.peers.knownPeers && t.peers.knownPeers[c] != ids.forIdentity(identity))
  {
  }

  /** No other contact than the one saved and the legacy one is touched. */
  lemma OtherContactsKept(t: Tables, ids: Naming, c: Text, name: Text, identity: seq<byte>, other: Text)
    requires other != c && (other != ids.forName(name) || |identity| != 32)
    ensures var (was, now) := (t.peers.contacts, SaveContactForChat(t, ids, c, name, identity).0.peers.contacts);
      (other in now <==> other in was) && (other in was ==> now[other] == was[other])
  {
  }

  // ---- A chat's pending rows are kept under its own id ----

  /** Peers and contacts go by the id that their identity key gives. */
  ghost predicate Named(t: Tables, ids: Naming) {
    && (forall c :: c in t.peers.knownPeers ==> t.peers.knownPeers[c] == c)
    && (forall c :: c in t.peers.contacts && |t.peers.contacts[c]| == IDENTITY_KEY_LENGTH ==>
          ids.forIdentity(t.peers.contacts[c]) == c)
  }

  lemma SaveNamed(t: Tables, ids: Naming, name: Text, identity: Option<Key32>)
    requires Named(t, ids)
    ensures var (t', ok) := SaveContactForChat(t, ids, ChatId(ids, name, identity), name, StoredIdentity(identity));
      ok && Named(t', ids)
  {
  }

  lemma NextNamed(t: Tables, ids: Naming, op: Op)
    requires Named(t, ids)
    ensures Named(Next(t, ids, op), ids)
  {
    if op.OpenChat? {
      SaveNamed(t, ids, op.name, op.identity);
    }
  }

  lemma {:induction false} RunNamed(states: seq<Tables>, ids: Naming, ops: seq<Op>, i: nat)
    requires IsRun(states, ids, ops) && i < |states|
    ensures Named(states[i], ids)
  {
    if i > 0 {
      RunNamed(states, ids, ops, i - 1);
      NextNamed(states[i - 1], ids, ops[i - 1]);
    }
  }

  /**
   * In every reachable state the name a conversation's rows are queued under is its own id, so the
   * pairing chat, which looks under the id, and the connection flush, which looks under the name,
   * read the same rows; and opening a chat never breaks the uniqueness constraint.
   */
  lemma NamesAgree(states: seq<Tables>, ids: Naming, ops: seq<Op>, i: nat, c: Text)
    requires IsRun(states, ids, ops) && i < |states|
    ensures PendingName(states[i], ids, c) == c
    ensures i < |ops| && ops[i].OpenChat? ==>
      var (name, identity) := (ops[i].name, ops[i].identity);
      SaveContactForChat(states[i], ids, ChatId(ids, name, identity), name, StoredIdentity(identity)).1
  {
    RunNamed(states, ids, ops, i);
    if i < |ops| && ops[i].OpenChat? {
      SaveNamed(states[i], ids, ops[i].name, ops[i].identity);
    }
  }

  // ---- Which rows a flush finds ----

  function Rows<T>(filed: map<Text, Filed<T>>): map<Text, T> {
    map id | id in filed :: filed[id].row
  }

  /** A flush for the conversation finds the row. */
  ghost predicate Found(t: Tables, ids: Naming, c: Text, id: Text) {
    exists k :: k in PendingFor(Rows(t.rows.pending), PendingName(t, ids, c)) && k.id == id
  }

  lemma FoundIff(t: Tables, ids: Naming, c: Text, id: Text)
    ensures Found(t, ids, c, id) <==> id in t.rows.pending && t.rows.pending[id].row.peer == PendingName(t, ids, c)
  {
    var rows, name := Rows(t.rows.pending), PendingName(t, ids, c);
    if id in rows && rows[id].peer == name {
      assert TimedKey(rows[id].createdAt, id) in PendingFor(rows, name);
    }
  }

  /** The operation moves the rows of this conversation to another: a legacy contact's key has become known. */
  predicate MovesFrom(ids: Naming, op: Op, c: Text) {
    op.OpenChat? && op.identity.Some? && ids.forName(op.name) == c && ids.forIdentity(op.identity.value) != c
  }

  /** One step of a row's filing. */
  predicate TrailStep(ids: Naming, op: Op, was: Filed<PendingRow>, now: Filed<PendingRow>) {
    && now.row == was.row
    && now.conversation ==
       if MovesFrom(ids, op, was.conversation) then ids.forIdentity(op.identity.value) else was.conversation
  }

  /** What an operation does to a row that stays in the queue. */
  lemma RowStep(t: Tables, ids: Naming, op: Op, id: Text)
    requires id in t.rows.pending && id in Next(t, ids, op).rows.pending
    ensures TrailStep(ids, op, t.rows.pending[id], Next(t, ids, op).rows.pending[id])
  {
  }

  /** The row tracked at step `k` has been in the queue ever since. */
  ghost predicate Queued(states: seq<Tables>, ids: Naming, ops: seq<Op>, k: nat, i: nat, id: Text) {
    && IsRun(states, ids, ops) && k < i < |states|
    && ops[k].Track? && ops[k].id == id && id !in states[k].rows.pending
    && forall j :: k < j <= i ==> id in states[j].rows.pending
  }

  lemma TrackStart(states: seq<Tables>, ids: Naming, ops: seq<Op>, k: nat, i: nat, id: Text)
    requires Queued(states, ids, ops, k, i, id)
    ensures states[k + 1].rows.pending[id] ==
      Filed(ops[k].c, PendingRow(ops[k].c, ops[k].text, ops[k].now, 0, None))
  {
    NamesAgree(states, ids, ops, k, ops[k].c);
    assert states[k + 1] == Next(states[k], ids, ops[k]);
  }

  lemma QueuedStep(states: seq<Tables>, ids: Naming, ops: seq<Op>, k: nat, i: nat, id: Text, j: nat)
    requires Queued(states, ids, ops, k, i, id) && k < j < i
    ensures TrailStep(ids, ops[j], states[j].rows.pending[id], states[j + 1].rows.pending[id])
  {
    assert states[j + 1] == Next(states[j], ids, ops[j]);
    RowStep(states[j], ids, ops[j], id);
  }

  /** One of the operations moves the conversation's rows. */
  ghost predicate SomeMove(ids: Naming, ops: seq<Op>, c: Text) {
    exists op :: op in ops && MovesFrom(ids, op, c)
  }

  /** The row is in the queue in the states after `k` up to `i`, filed step by step. */
  ghost predicate Trail(states: seq<Tables>, ids: Naming, ops: seq<Op>, k: nat, i: nat, id: Text) {
    && k < i < |states| <= |ops| + 1
    && (forall j :: k < j <= i ==> id in states[j].rows.pending)
    && (forall j :: k < j < i ==> TrailStep(ids, ops[j], states[j].rows.pending[id], states[j + 1].rows.pending[id]))
  }

  lemma {:induction false} TrailLaw(states: seq<Tables>, ids: Naming, ops: seq<Op>, k: nat, i: nat, id: Text)
    requires Trail(states, ids, ops, k, i, id)
    ensures var (first, last, c) :=
        (states[k + 1].rows.pending[id], states[i].rows.pending[id], states[k + 1].rows.pending[id].conversation);
      && last.row == first.row
      && (!SomeMove(ids, ops[k + 1..i], c) ==> last.conversation == c)
      && (SomeMove(ids, ops[k + 1..i], c) && Apart(ids) ==> last.conversation != c)
    decreases i
  {
    if k + 1 < i {
      TrailLaw(states, ids, ops, k, i - 1, id);
      assert TrailStep(ids, ops[i - 1], states[i - 1].rows.pending[id], states[i].rows.pending[id]);
      assert ops[k + 1..i] == ops[k + 1..i - 1] + [ops[i - 1]];
    }
  }

  lemma QueuedTrail(states: seq<Tables>, ids: Naming, ops: seq<Op>, k: nat, i: nat, id: Text)
    requires Queued(states, ids, ops, k, i, id)
    ensures Trail(states, ids, ops, k, i, id)
  {
    forall j | k < j < i
      ensures TrailStep(ids, ops[j], states[j].rows.pending[id], states[j + 1].rows.pending[id])
    {
      QueuedStep(states, ids, ops, k, i, id, j);
    }
  }

  /** A queued row keeps what it was tracked with, the name included, and its conversation until a merge moves it. */
  lemma RowTrail(states: seq<Tables>, ids: Naming, ops: seq<Op>, k: nat, i: nat, id: Text)
    requires Queued(states, ids, ops, k, i, id)
    ensures var (c, filed) := (ops[k].c, states[i].rows.pending[id]);
      && filed.row == PendingRow(c, ops[k].text, ops[k].now, 0, None)
      && (!SomeMove(ids, ops[k + 1..i], c) ==> filed.conversation == c)
      && (SomeMove(ids, ops[k + 1..i], c) && Apart(ids) ==> filed.conversation != c)
  {
    QueuedTrail(states, ids, ops, k, i, id);
    TrackStart(states, ids, ops, k, i, id);
    TrailLaw(states, ids, ops, k, i, id);
  }

  /** No identity key hashes to the id of a display name. */
  ghost predicate Apart(ids: Naming) {
    forall key: Key32, name: Text :: ids.forIdentity(key) != ids.forName(name)
  }

  /** A flush for the conversation a row is filed under finds it exactly while it is still where it was tracked. */
  lemma FoundIffUnmoved(states: seq<Tables>, ids: Naming, ops: seq<Op>, k: nat, i: nat, id: Text)
    requires Queued(states, ids, ops, k, i, id)
    ensures var c := states[i].rows.pending[id].conversation;
      Found(states[i], ids, c, id) <==> c == ops[k].c
  {
    var c := states[i].rows.pending[id].conversation;
    RowTrail(states, ids, ops, k, i, id);
    NamesAgree(states, ids, ops, i, c);
    FoundIff(states[i], ids, c, id);
  }

  /**
   * The rows that a chat's flush can no longer find are exactly those that were tracked for a contact
   * known by display name only and then moved when that contact's identity key became known.
   */
  lemma LostIffMoved(states: seq<Tables>, ids: Naming, ops: seq<Op>, k: nat, i: nat, id: Text)
    requires Queued(states, ids, ops, k, i, id) && Apart(ids)
    ensures !Found(states[i], ids, states[i].rows.pending[id].conversation, id) <==>
      SomeMove(ids, ops[k + 1..i], ops[k].c)
  {
    RowTrail(states, ids, ops, k, i, id);
    FoundIffUnmoved(states, ids, ops, k, i, id);
  }

  /** A row tracked for a contact with an identity key is always found by that contact's next flush. */
  lemma IdentityRowsFound(states: seq<Tables>, ids: Naming, ops: seq<Op>, k: nat, i: nat, id: Text, key: Key32)
    requires Queued(states, ids, ops, k, i, id) && Apart(ids) && ops[k].c == ids.forIdentity(key)
    ensures Found(states[i], ids, ops[k].c, id)
  {
    RowTrail(states, ids, ops, k, i, id);
    FoundIffUnmoved(states, ids, ops, k, i, id);
  }

  /** The smallest such history: a legacy chat, one queued line, and a chat in which the key is known. */
  lemma LegacyRowLost(t: Tables, ids: Naming, name: Text, key: Key32, id: Text, text: string, now: nat)
    requires Named(t, ids) && id !in t.rows.pending && ids.forName(name) != ids.forIdentity(key)
    ensures var c := ids.forIdentity(key);
      var t1 := Next(t, ids, OpenChat(name, None));
      var t2 := Next(t1, ids, Track(ids.forName(name), id, text, now));
      var t3 := Next(t2, ids, OpenChat(name, Some(key)));
      && id in t3.rows.pending && t3.rows.pending[id].conversation == c
      && !Found(t3, ids, c, id)
  {
    var legacy := ids.forName(name);
    var t1 := Next(t, ids, OpenChat(name, None));
    var t2 := Next(t1, ids, Track(legacy, id, text, now));
    NextNamed(t, ids, OpenChat(name, None));
    NamedName(t1, ids, legacy);
    NextNamed(t1, ids, Track(legacy, id, text, now));
    MovedRowLost(t2, ids, OpenChat(name, Some(key)), id);
  }

  lemma NamedName(t: Tables, ids: Naming, c: Text)
    requires Named(t, ids)
    ensures PendingName(t, ids, c) == c
  {
  }

  /** A row that an operation moves is not found where it is moved to. */
  lemma MovedRowLost(t: Tables, ids: Naming, op: Op, id: Text)
    requires Named(t, ids) && id in t.rows.pending
    requires t.rows.pending[id].row.peer == t.rows.pending[id].conversation
    requires MovesFrom(ids, op, t.rows.pending[id].conversation)
    ensures var (t', c) := (Next(t, ids, op), ids.forIdentity(op.identity.value));
      id in t'.rows.pending && t'.rows.pending[id].conversation == c && !Found(t', ids, c, id)
  {
    RowMoves(t, ids, op, id);
    RowStep(t, ids, op, id);
    NextNamed(t, ids, op);
    NamedName(Next(t, ids, op), ids, ids.forIdentity(op.identity.value));
    FoundIff(Next(t, ids, op), ids, ids.forIdentity(op.identity.value), id);
  }

  lemma RowMoves(t: Tables, ids: Naming, op: Op, id: Text)
    requires id in t.rows.pending && MovesFrom(ids, op, t.rows.pending[id].conversation)
    ensures id in Next(t, ids, op).rows.pending
    ensures Next(t, ids, op).rows.pending[id].conversation == ids.forIdentity(op.identity.value)
  {
  }
}
