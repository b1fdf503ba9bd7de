# CipherMesh: verified model

CipherMesh is a peer-to-peer chat program. Its correctness rests on a few small state machines that talk to each
other: a ratchet session, an event log with version vectors, a CRDT view of a conversation, a retry queue for chat
messages, a rendezvous service for invites, a mailbox, and the device certificates and revocations of an account.
This project models them in Dafny and proves what they promise, mostly as statements about every reachable state or
every run.

How the model is laid out:

- `SymbolicCrypto` treats cryptography symbolically. A Diffie-Hellman output is the unordered pair of its two public
  keys (section 6.1 of RFC 7748), each HKDF step is a free constructor labelled by its info string and output slice
  (section 2 of RFC 5869), and a sealed message opens only under its key and header (section 2.8 of RFC 8439).
- `Ratchet` holds the session operations as functions and the invariant `Sound`; `RatchetObject` is the mutable
  session, proved to compute those functions. `SessionRuns` is about one session fed arbitrary input, `PairedRuns`
  about two ends over a network that loses, repeats and reorders, `Handshake` about how a pair comes to be.
- `EventLog` and `Sync` are the event table, its cached prefixes and the exchange between two replicas; `Crdt` gives a
  conversation a declarative meaning and proves that the two-pass program computes it.
- `Delivery` is the chat path with its pending queue, `DeliveryRows` what its tables hold, `DeliveryWindow` says exactly which transmissions of a chat get
  through, and `Chats` how the queue recovers from chat to chat. `Contacts` is the merge and the deletion of a
  conversation over all its tables, and `ChatContacts` how a chat saves and names its contact. `Rendezvous` with
  `Addresses`, `Mailbox`, `Devices` and `SignedEncodings` are the services and the account records.
- SQLite tables are maps keyed by their primary key, `INSERT OR IGNORE` is insert-if-absent, and `ORDER BY` on a key is
  the unique ascending listing of module `Sorting`. A run is a sequence of states in which each state follows from the
  one before by one event, so a lemma about `states[i]` for every `i` is a statement about every reachable state.

Results that a reader of the code may not expect, each with its exact condition:

- A message with any other ratchet key than the current one unpairs two paired ends (`PairedRuns.PairedKeptIff`), and
  for good, although nothing in it was authenticated (`PairedRuns.WrongHeaderSeparates`). Rotations that cross on the
  wire separate them for good too (`PairedRuns.CrossingRotationsDiverge`).
- A refusal with `TooManySkippedMessages` loses no held key only under the current header key. The header is not
  authenticated before it is acted on, so a junk message with a new header key drops the whole store and is then
  refused (`SessionRuns.RejectionLosesNoKeyIff`, `SessionRuns.JunkHeaderWipesStore`).
- A message of an older epoch that arrives late under an unchanged header key burns a number of the new epoch, and the
  genuine message with that number is answered `Replay` from then on (`SessionRuns.LateMessageBurns`,
  `PairedRuns.LateDelivery`).
- When a gap has filled the skipped-key store, later messages are refused without effect
  (`SessionRuns.FullStoreRefuses`). In a chat every transmission takes a new number, also a retry of a message the
  receiver already has, while only a newly shown message consumes one. A message the receiver lacks gets through
  exactly while the transmissions of this chat are at most eight ahead of the messages shown in it
  (`DeliveryWindow.RetryAckedIffRoom`). Nine lost lines are enough to close the window of a new chat
  (`DeliveryWindow.NineLostLinesBlock`); within that session only late frames open it again
  (`DeliveryWindow.RefusalLasts`, `DeliveryWindow.LateFirstLineReopens`), since no chat handler rotates.
- The program recovers by starting over. The first refusal ends the receiver's chat (src/pairing.rs:855), every chat
  begins with a handshake that replaces both sessions, so with an open window over whatever tables there are
  (`DeliveryWindow.HandshakeStarts`), and then flushes the queue. Received in order, a flushed row is acknowledged
  exactly when the receiver has it already or had at most eight of the rows before it (`Chats.FlushedRowAckedIff`). So
  each such chat empties the queue or settles at least nine rows, and a queue of any length is delivered after one
  ninth as many chats, rounded up (`Chats.RoundLaw`, `Chats.QueueDelivered`).
- Rows are queued under a contact's pending name and read by the pairing chat under the conversation's id. The two are
  always the same (`ChatContacts.NamesAgree`), so rows of a contact with an identity key are always found
  (`ChatContacts.IdentityRowsFound`). The rows that no flush finds any more are exactly those queued for a contact known
  by display name only and then moved when its key became known, because a merge does not rename them
  (`ChatContacts.LostIffMoved`, `ChatContacts.LegacyRowLost`). A merge also leaves unread marks under the contact it
  removes (`Contacts.MergeLeavesNothingIff`).
- A contact merge leaves a version vector too low exactly when one of the two conversations holds the counter after the
  row that is kept (`EventLog.MergeExactIff`, `EventLog.MergeCanLeaveRowLow`).
- Sync is complete exactly when both replicas hold the same rows with counter zero (`Sync.SyncCompleteIff`); such rows
  never travel (`Sync.ZeroCounterNeverTravels`).
- Materialisation depends on order exactly when two creations of one message differ, or two live reactions under one
  id do (`Crdt.OrderIrrelevantIff`).
- A device is revoked exactly when the winning save of some row of its account names it
  (`Devices.RevokedIffWinnerNames`). A record for another device saved under its row with a counter as large lifts the
  revocation (`Devices.MiskeyedSaveLifts`); callers in the program never do this.

Where the code and its documents differ, the code is followed. SECURITY.md says that a retry does not re-encrypt; that
holds for the outbox, while the chat handlers (src/pairing.rs:1163-1217) encrypt every retry again under a new number.

## Model

| member | source | states |
|---|---|---|
| `SymbolicCrypto.DhCommutes` | src/lib.rs:234-255 | both ends of an exchange compute the same shared secret |
| `SymbolicCrypto.KeyAtInjective` | src/lib.rs:466-512 | a message key determines its root, direction and index, so domain separation extends to whole chains |
| `Ratchet.SkipToLaw` | src/lib.rs:357-365 | the skip loop reaches the number iff held keys plus the gap is at most 8; otherwise it stops with 8 held; the numbers it holds, and that nothing else changes |
| `Ratchet.TakeKeySound` | src/lib.rs:345-369 | every key found is the chain key of its index, and the receive stores stay sound |
| `Ratchet.TakeKeyLaw` | src/lib.rs:345-369 | when a number yields a key, when `Replay` and when `TooManySkippedMessages`, as an iff, and exactly which numbers are held afterwards |
| `Ratchet.DecryptLaw` | src/lib.rs:340-383 | a message opens iff its number still has a key and it was sealed under that key with that header; only an opened number becomes consumed; a plaintext returned is the sealed one |
| `Ratchet.DecryptSound` | src/lib.rs:340-383 | any input, accepted or refused, keeps the session invariant |
| `Ratchet.RatchetSound` | src/lib.rs:399-413 | a DH ratchet step, with both stores cleared, is sound and deepens the root by one |
| `Ratchet.ImportExport` | src/lib.rs:431-463 | restoring an exported session gives back the very same session, so a restart is invisible |
| `Ratchet.ExportOrdered` | src/lib.rs:431-448 | the exported lists are ascending, each held number with its key |
| `RatchetObject.RatchetSession.constructor` | src/lib.rs:295-316 | a new session object is `NewSession` |
| `RatchetObject.RatchetSession.Encrypt` | src/lib.rs:318-338 | the object's new state and message are those of `Ratchet.Encrypt` |
| `RatchetObject.RatchetSession.SkipUntil` | src/lib.rs:357-365 | the in-place loop computes `SkipTo` |
| `RatchetObject.RatchetSession.Decrypt` | src/lib.rs:340-383 | the in-place decryption, errors included, computes `Ratchet.Decrypt` |
| `RatchetObject.RatchetSession.RotateSendingRatchet` | src/lib.rs:385-388 | the object rotates as `Ratchet.Rotate` |
| `RatchetObject.RatchetSession.ReceiveDhRatchet` | src/lib.rs:390-397 | the object follows a peer key as `Ratchet.ReceiveDhRatchet` |
| `RatchetObject.RatchetSession.FromState` | src/lib.rs:450-463 | the restored object is `Import` of the saved state |
| `RatchetObject.RatchetSession.State` | src/lib.rs:431-448 | the saved state is `Export` of the session |
| `SessionRuns.RunForward` | src/lib.rs:340-413 | over any run the root only deepens, and within one root nothing consumed or sent is forgotten |
| `SessionRuns.OpeningLaw` | src/lib.rs:340-383 | an opening used a key of the current epoch whose number was not consumed before and is now |
| `SessionRuns.NoKeyOpensTwice` | src/lib.rs:340-413 | no two receive steps of a run open under the same key, through any ratchets, restarts and clears |
| `SessionRuns.NoMessageOpensTwice` | src/lib.rs:340-413 | replay safety: no message is opened twice in any run with arbitrary input |
| `SessionRuns.NoKeySealsTwice` | src/lib.rs:318-338 | over any run all encryptions of one end use pairwise different keys |
| `SessionRuns.DirectionsNeverShareAKey` | src/lib.rs:273-278 | two ends with opposite roles never seal under the same key, whatever either does |
| `SessionRuns.RunLedger` | src/lib.rs:340-383 | every number below the receive counter is held, consumed or burned by a failed authentication, and only one of these |
| `SessionRuns.ReceiveStateLaw` | src/lib.rs:340-429 | in every reachable receive state: at most 8 held keys, each its index's chain key; disjoint stores below the counter; counter = held + consumed + burned |
| `SessionRuns.RejectionFillsStore` | src/lib.rs:340-365 | after `TooManySkippedMessages`, on any input, the session that looked at the message holds 8 keys, keeps every key it held, holds every number passed and consumes nothing |
| `SessionRuns.RejectionLosesNoKeyIff` | src/lib.rs:340-365 | a `TooManySkippedMessages` refusal loses no held key iff the header carries the current ratchet key or no key was held |
| `SessionRuns.JunkHeaderWipesStore` | src/lib.rs:341-343 | from every sound session, noise under any new header key is refused with `TooManySkippedMessages` and loses each held key |
| `SessionRuns.ReplayIffSpent` | src/lib.rs:345-356 | within an epoch `Replay` is answered for exactly the numbers below the counter that hold no key |
| `SessionRuns.LateMessageLaw` | src/lib.rs:340-383 | a message of another epoch under the current header key never opens; it fails to authenticate iff its number fits the window, and then exactly that number is spent |
| `SessionRuns.LateMessageBurns` | src/lib.rs:340-383 | after that, the genuine message with the number is answered `Replay` at every later point of the epoch, over any run |
| `SessionRuns.FullStoreRefuses` | src/lib.rs:357-365 | with a full store, any run of messages above the counter is refused and changes nothing |
| `PairedRuns.PairedChainsCross` | src/lib.rs:273-278 | in a pair each end's sending keys are the other's receiving keys |
| `PairedRuns.PairedKeptIff` | src/lib.rs:341-344 | a receipt keeps a pair paired iff the header carries the current ratchet key |
| `PairedRuns.CatchUpIff` | src/lib.rs:385-413 | the end left behind by a rotation catches up iff the message carries the new key, whatever its body |
| `PairedRuns.RotateGoesAhead` | src/lib.rs:385-388 | a rotation puts one end exactly one step ahead of its peer |
| `PairedRuns.DivergedForever` | src/lib.rs:385-413 | if neither root descends from the other, no continuation of either end ever brings them together |
| `PairedRuns.CrossingRotationsDiverge` | src/lib.rs:385-413 | crossing rotations of a pair are never repaired, over all later runs of both ends |
| `PairedRuns.WrongHeaderSeparates` | src/lib.rs:341-344 | after one message with another header key, whatever its body, the roots of a pair are never equal again, over all later runs of both ends in which the other end does not generate that very key |
| `PairedRuns.DeliverLaw` | src/lib.rs:318-383 | every allowed delivery answers exactly the sent text, `Replay` on repeats, `TooManySkippedMessages` iff held plus gap exceeds 8; the invariant holds after it; a message of the sender's epoch restores the pair |
| `PairedRuns.ApplyKeeps` | src/lib.rs:318-429 | sends, rotations, deliveries and restarts each keep the pair invariant |
| `PairedRuns.NewPairInv` | src/lib.rs:295-316 | two new sessions on one root start in the invariant |
| `PairedRuns.RunAgreement` | src/lib.rs:385-429 | over whole runs the ends are paired whenever their roots are equal and otherwise one rotation apart |
| `PairedRuns.RunDelivery` | src/lib.rs:318-383 | after any allowed run, the next delivery answers exactly as expected and a current message restores the pair |
| `PairedRuns.LateDelivery` | src/lib.rs:340-383 | what the discipline excludes: a late message of an older epoch whose sender has not rotated since keeps the pairing, and burns a number iff it fits; the genuine message with it is then a `Replay` |
| `Handshake.Alice.EncryptInitialMessage` | src/lib.rs:1098-1123 | refuses a bundle that does not verify; otherwise starts the session of `StartAlice` |
| `Handshake.BundleAcceptedIff` | src/lib.rs:1098-1123 | Alice starts a session iff the bundle's signature is that of its identity over its prekey; otherwise the answer is `SignatureVerification` and nothing changes; the root comes from both DH outputs |
| `Handshake.TamperedBundleRefused` | src/lib.rs:611-622 | a published bundle with another prekey or identity put in is refused |
| `Handshake.ExchangeAcceptedIff` | src/lib.rs:585-596 | a session starts from a key exchange iff its identity signed its key; otherwise `SignatureVerification` |
| `Handshake.TamperedExchangeRefused` | src/lib.rs:585-596 | a signed exchange with another key or identity put in is refused |
| `Handshake.Bob.DecryptInitialMessage` | src/lib.rs:1243-1272 | refuses a missing or different prekey id without spending the key; otherwise spends it and opens `BobSession` |
| `Handshake.InitialTakenIff` | src/lib.rs:1243-1272 | an initial message is turned away, with nothing changed, iff Bob holds no one-time prekey with its id; otherwise the prekey is spent and a session exists, whatever becomes of the text |
| `Handshake.Bob.ReplenishOneTimePrekey` | src/lib.rs:1205-1209 | generates a prekey only when none is left |
| `Handshake.ReplenishedIff` | src/lib.rs:1205-1209 | a new prekey is taken up iff none is left, and nothing else changes |
| `Handshake.ExchangePairs` | src/lib.rs:1068-1082 | a signed exchange both ways gives two sessions in the pair invariant |
| `Handshake.HandshakeAgrees` | src/lib.rs:1098-1123 | Bob reads exactly what Alice sent to his bundle, the one-time prekey is gone, and the two sessions satisfy the pair invariant |
| `Handshake.PrekeyOrigin` | src/lib.rs:1205-1209 | a prekey held now was held before or generated since |
| `Handshake.OneTimeKeyBacksOnce` | src/lib.rs:1243-1272 | over any run of initial messages and replenishments a one-time key pair backs at most one session |
| `SignedEncodings.ContextsNeverCollide` | src/lib.rs:572-609 | records of two different signing contexts never have equal signed bytes |
| `SignedEncodings.EncodeInjective` | src/lib.rs:1014-1035 | equal bytes with equally long account ids mean equal fields |
| `SignedEncodings.SameBytesIff` | src/lib.rs:1014-1035 | records with equal bytes agree on every field iff their account ids are equally long |
| `SignedEncodings.CheckedRecordsUnambiguous` | src/lib.rs:912-961 | two records that pass an account-id check and have equal signed bytes are equal |
| `SignedEncodings.SameAccountIff` | src/lib.rs:999-1012 | two keys have one account id iff their digests begin with the same sixteen bytes |
| `SignedEncodings.UncheckedIdsCollide` | src/lib.rs:1026-1035 | without the check, two different revocations share their bytes |
| `SignedEncodings.HeaderBytesInjective` | src/lib.rs:514-526 | the nonce determines the number and the associated data determines the whole header |
| `Devices.SignatureBindsFields` | src/lib.rs:912-928 | two valid certificates of an account share a signature iff they are equal |
| `Devices.IsDeviceCurrentlyAuthorized` | src/lib.rs:963-980 | the loop computes `Authorized`, errors included |
| `Devices.AuthorizedIff` | src/lib.rs:963-980 | in the records' own fields: accepted iff the account signed the certificate under its own id and no listed revocation carries its account and device; revoked iff the first one that does was signed by the account |
| `Devices.CertificateValidIff` | src/lib.rs:912-928 | a certificate is valid iff it carries the account's id and the account's key signed its very fields |
| `Devices.RevocationValidIff` | src/lib.rs:945-961 | a revocation is valid iff it carries the account's id and the account's key signed its very fields |
| `Devices.SiblingsIff` | src/lib.rs:930-943 | two certificates are siblings iff the account issued both and they are for different devices |
| `Devices.ScanMeaning` | src/lib.rs:970-979 | accepted iff no revocation matches; revoked iff the first match is valid |
| `Devices.ActiveIsUnrevoked` | src/lib.rs:982-997 | a successful list is exactly the certificates with no matching revocation, in order, and all were valid |
| `Devices.ActiveSucceeds` | src/lib.rs:982-997 | with valid records a list is always produced |
| `Devices.UnrevokedMembers` | src/lib.rs:982-997 | a certificate is listed iff it was given and nothing matches it |
| `Devices.RevocationStore.SaveDeviceRevocation` | src/storage.rs:1447-1482 | the upsert keeps the larger counter and, on a tie, the newer record |
| `Devices.StoredIsWinner` | src/storage.rs:1447-1482 | after any saves each row holds the last one with the largest counter, and exists iff something was saved under it |
| `Devices.ActiveIffNotRevoked` | src/lib.rs:982-997 | for any stored table, a certificate is on a successful list iff it was given and no row of its account names its device |
| `Devices.RevokedIffWinnerNames` | src/storage.rs:1447-1495 | after any saves, in any counter order and under any row keys, a device is revoked iff the winning save of some row of its account names it |
| `Devices.RevocationPermanent` | src/storage.rs:1447-1495 | once a revocation was saved under its device, an active list contains the device only if a save under the same row, with a counter as large, names another device |
| `Devices.SaveRevokesIff` | src/storage.rs:1447-1482 | one more save on any table: a device is revoked after it iff the save lands in its account and names it, or a row it does not land on named it |
| `Devices.MiskeyedSaveLifts` | src/storage.rs:1447-1482 | the concrete two saves that lift a revocation |
| `EventLog.TruthfulMeans` | src/storage.rs:1561-1577 | each counter a truthful vector claims is in the table |
| `EventLog.AppendLaw` | src/storage.rs:1522-1549 | an append makes its own pair exact, leaves others alone and lowers no prefix |
| `EventLog.AppendStores` | src/storage.rs:1522-1549 | the event is stored at its own device and counter iff nothing was there, and no other row changes |
| `EventLog.AppendKeeps` | src/storage.rs:1522-1549 | an append keeps exactness and truthfulness |
| `EventLog.MergeTruthful` | src/storage.rs:446-513 | no vector claims a lacking event after a contact merge |
| `EventLog.MergeRelabels` | src/storage.rs:463-466 | a merge changes nothing of an event but its conversation |
| `EventLog.MergeExactIff` | src/storage.rs:446-513 | on every reachable table, the merged row is exact iff neither conversation holds the counter after the row that is kept |
| `EventLog.MergeCanLeaveRowLow` | src/storage.rs:446-513 | two events and a merge that leave a row too low |
| `EventLog.DeleteKeeps` | src/storage.rs:1682-1717 | deleting a conversation keeps every vector truthful |
| `EventLog.RunTruthful` | src/storage.rs:1522-1549 | after any run of appends, merges and deletes no vector claims an event the replica lacks |
| `EventLog.AppendRestoresExactness` | src/storage.rs:1740-1778 | at any point of any run, an append makes its pair exact again |
| `EventLog.AppendRunExact` | src/storage.rs:1522-1559 | after any appends, in any order and repeated, each vector is the largest n with 1..n present |
| `EventLog.AppendRunVector` | src/storage.rs:1740-1778 | the same in the table's rows: 1..n are there under the device and the conversation, and n+1 is not |
| `EventLog.FirstAppendWins` | src/storage.rs:1522-1549 | after any appends the row at a position is the first event appended there |
| `Sync.AppendAllInserted` | src/storage.rs:1551-1559 | the count a batch returns is exactly how many rows the table has gained |
| `EventLog.AppendRunMonotone` | src/storage.rs:1522-1559 | over a run of appends no vector ever decreases |
| `EventLog.MissingMembers` | src/storage.rs:1579-1611 | a row is sent iff it is in the conversation and beyond the peer's prefix |
| `EventLog.MissingOrdered` | src/storage.rs:1579-1611 | rows are listed by device, byte by byte with a prefix first, and within a device by counter |
| `EventLog.VectorForMeans` | src/storage.rs:1561-1577 | a reported vector has exactly the stored prefixes of the conversation |
| `EventLog.EventStore.ContiguousCounter` | src/storage.rs:1745-1766 | the loop over ascending counters finds the contiguous prefix |
| `EventLog.EventStore.AppendEvent` | src/storage.rs:1522-1549 | insert-if-absent and refresh compute `Append` |
| `EventLog.EventStore.AppendEvents` | src/storage.rs:1551-1559 | the loop computes `AppendAll` with its count of new rows |
| `EventLog.EventStore.MissingEventsFor` | src/storage.rs:1579-1611 | the loop lists `Missing`, in (device, counter) order |
| `Sync.SyncAuthorizedSiblingDevices` | src/main.rs:2926-2984 | runs iff the account issued both certificates, they are for different devices, and no listed revocation carries the account and device of either; which refusal is given; a refusal changes nothing; otherwise two stores become `SyncRound`, one store given twice becomes `SelfRound`, and the returned lists are what was sent |
| `Sync.SelfRoundKeeps` | src/main.rs:2943-2984 | a store synced with itself keeps exactly its events |
| `Sync.SelfListsMeaning` | src/main.rs:2943-2984 | the lists such a run returns: the store's own events beyond its own prefixes |
| `Sync.PullLaw` | src/main.rs:2943-2960 | one transfer gives the receiver exactly the sender's rows beside its own |
| `Sync.SyncLaw` | src/main.rs:2943-2984 | what one run leaves on each side, row by row; agreement and validity are kept |
| `Sync.SyncCompleteIff` | src/main.rs:2943-2984 | both sides hold exactly the union iff their counter-zero rows are the same, hence always with counters from 1 |
| `Sync.ZeroCounterNeverTravels` | src/storage.rs:1579-1611 | the input at which it fails: an event with counter zero that one side lacks is still lacking after a run |
| `Sync.SecondRunInsertsNothing` | src/main.rs:2943-2984 | a second run inserts nothing on either side |
| `Sync.GapFreeIsSentWhatItLacks` | src/storage.rs:1579-1611 | a gap-free receiver is sent exactly what it lacks |
| `Sync.SyncedListsEqual` | src/storage.rs:1579-1611 | after one run both replicas read the same event list in the same order |
| `Crdt.MaterializeConversation` | src/crdt.rs:108-191 | the two passes compute the declarative meaning: created messages, tombstones, unremoved reactions, largest frontiers |
| `Crdt.AttachReactions` | src/crdt.rs:172-184 | the second pass shows exactly the unremoved reactions on created messages, in any iteration order |
| `Crdt.MessageMeaning` | src/crdt.rs:122-139 | in the records alone: a message is there iff some record creates it, with the content of the first such record, and is deleted iff some record deletes it |
| `Crdt.ReactionMeaning` | src/crdt.rs:141-184 | in the records alone: a created message shows a reaction iff it is the last addition at its device and counter, is aimed at the message, and no record removes that device and counter |
| `Crdt.ReactionShownIff` | src/crdt.rs:141-184 | such a last addition is shown iff no record is the removal of its device and counter |
| `Crdt.TombstoneMeaning` | src/crdt.rs:135-140 | an id is a tombstone iff some record deletes it, created or not |
| `Crdt.FrontierMeaning` | src/crdt.rs:161-169 | a read frontier is there iff some record advances it, and is the largest counter of any of them |
| `Crdt.FirstCreationIsFirst` | src/crdt.rs:121-134 | the content a message shows is that of a creation with none before it in the list |
| `Crdt.LastAddIsLast` | src/crdt.rs:141-157 | the reaction an id shows is that of an addition with none after it in the list |
| `Crdt.OrderIrrelevantIff` | src/crdt.rs:108-191 | independent of order and repetition iff creations of one message agree and competing live reactions do not matter |
| `Crdt.TableOrderIrrelevantIff` | src/crdt.rs:108-191 | with one record per (device, counter), independent of order iff creations agree |
| `Crdt.SyncedReplicasConverge` | src/crdt.rs:108-191 | after one sync both replicas materialise to the same state, with no assumption on message ids |
| `Delivery.ChatEndpoint.QueueOfflineMessage` | src/main.rs:1992-2022 | queues and stores an outgoing message once per id |
| `Delivery.ChatEndpoint.Prepare` | src/pairing.rs:1060-1142 | encrypts under the next key, saves the session and stores the message |
| `Delivery.ChatEndpoint.SendPendingTo` | src/pairing.rs:1163-1217 | the loop over the pending rows computes `SendPending` |
| `Delivery.ChatEndpoint.OnFrame` | src/pairing.rs:906-981 | a known id is only acknowledged; a new one is decrypted and stored before the acknowledgement |
| `Delivery.ChatEndpoint.OnAck` | src/pairing.rs:1219-1224 | removes the pending row and marks the message sent |
| `Delivery.FlushLaw` | src/pairing.rs:1163-1217 | one flush sends each pending row under that peer name exactly once, oldest first and then by id, each under the next message number |
| `DeliveryRows.FlushAttempts` | src/storage.rs:725-736 | a flush counts one attempt, at its time, on exactly the rows queued under its name |
| `DeliveryRows.SubmittedRows` | src/storage.rs:675-744 | at any later point of any run a submitted message is queued iff its acknowledgement was not delivered, under its own name, text and time, with the number and the last time of the flushes of that name since; it is shown as stored iff queued offline and still queued, else as sent |
| `DeliveryRows.ReceivedRow` | src/pairing.rs:934-955 | the row of a shown message holds the number of the frame that was shown and the submitted text, and never changes again |
| `Delivery.HandleFrameLaw` | src/pairing.rs:906-1058 | a genuine frame is acknowledged iff its id is then stored with the queued text; a refused one changes nothing |
| `Delivery.ApplyKeeps` | src/pairing.rs:906-1224 | every move of either endpoint keeps the delivery invariant, whatever the sessions do |
| `Delivery.RunInv` | src/pairing.rs:906-1224 | the invariant holds in every reachable state of the two-endpoint system |
| `Delivery.DeliveredExactly` | src/storage.rs:675-744 | in every run a submitted id is in the receiver's history only with its own text, and is out of the pending table only if the receiver stored it |
| `Delivery.ReceivedHasOrigin` | src/storage.rs:899-951 | nothing is received that the peer did not submit before with that text |
| `Delivery.HistoryMonotone` | src/storage.rs:899-951 | no history row is lost or rewritten, only a status changes |
| `Delivery.ShownAtMostOnce` | src/pairing.rs:934-960 | of all deliveries of all encryptions of a message at most one shows it to the user |
| `Delivery.RetriedIffSameName` | src/pairing.rs:1163-1217 | at any point of any run a flush resends a pending message iff it flushes the name the message was queued under |
| `DeliveryWindow.NewChatInv` | src/pairing.rs:343-372 | the delivery invariant carries over to a new chat with new sessions and an empty wire |
| `DeliveryWindow.HandshakeStarts` | src/lib.rs:1243-1272 | a prekey handshake, over any tables, gives two paired sessions in which neither end is behind |
| `DeliveryWindow.StepLinked` | src/pairing.rs:906-1224 | every chat move keeps the two sessions paired, sound and without burned numbers, and everything on the wire genuine |
| `DeliveryWindow.StepCounts` | src/pairing.rs:906-1224 | a shown message moves the receiver's window by exactly one, and nothing else moves it |
| `DeliveryWindow.RunLinked` | src/pairing.rs:906-1224 | in every state of every chat, from any tables, the sessions are paired, sound and without burned numbers |
| `DeliveryWindow.RunCounts` | src/pairing.rs:906-1224 | over any stretch of a chat the numbers consumed are exactly the messages shown |
| `DeliveryWindow.FrameShownIff` | src/pairing.rs:934-960 | a frame of the chat, however late, is shown iff its id is new and its number still has a key |
| `DeliveryWindow.RetryAckedIffRoom` | src/pairing.rs:1163-1217 | at any point of any chat, from any tables, a retry is acknowledged iff the receiver has the message or the transmissions are at most 8 ahead of the messages shown; otherwise it is refused and the receiver is unchanged |
| `DeliveryWindow.RefusalLasts` | src/pairing.rs:1163-1217 | once transmissions are past the window, every later retry in that session of a message the receiver lacks is refused until at least as many late frames have been shown as they were past it |
| `DeliveryWindow.LateFrameReopens` | src/pairing.rs:934-960 | one number past the window, one late frame lets the next retry through |
| `DeliveryWindow.NineLostLinesBlock` | src/pairing.rs:843-850 | from any chat start and any tables, the run of nine lost lines ends in a state where the pending message is refused |
| `DeliveryWindow.LateFirstLineReopens` | src/pairing.rs:934-960 | the same run, when its first line arrives after all, has room again |
| `DeliveryWindow.RotationUnblocks` | src/lib.rs:385-388 | at any point of any chat a rotation by the sender would let the next retry through |
| `Chats.FlushedRowAckedIff` | src/pairing.rs:812-812 | in a chat that begins with a handshake, over any tables, a flushed row received in order is acknowledged iff the receiver had the message or had at most 8 of the rows before it |
| `Chats.RoundSettlesNine` | src/pairing.rs:812-855 | such a chat, which ends at the first refusal, settles every row it flushes or at least nine |
| `Chats.RoundLaw` | src/pairing.rs:1219-1224 | exactly the settled rows leave the queue, the others stay as they were, and the queue is then empty or at least nine shorter |
| `Chats.RoundExists` | src/pairing.rs:812-855 | from every state there is such a chat |
| `Chats.ChatsInv` | src/pairing.rs:906-1224 | the delivery invariant holds before and after every chat of a sequence of chats |
| `Chats.QueueDelivered` | src/pairing.rs:1163-1224 | a queue of at most 9n rows is delivered by n chats: each message is out of the queue and stored at the receiver with its text |
| `Contacts.ContactStore.MergeContactInto` | src/storage.rs:446-513 | the updates of all eight tables compute `Merge` |
| `Contacts.ContactStore.DeleteConversation` | src/storage.rs:1682-1717 | the deletions compute `Delete`, and the count returned is exactly how many rows are gone |
| `Contacts.MergeConserves` | src/storage.rs:446-513 | a merge loses or alters no message, pending row, mark or event; the target files both contacts' rows; its own session wins |
| `Contacts.MergeLeavesNothingIff` | src/storage.rs:446-513 | nothing is left under the merged contact iff it had no unread marks |
| `Contacts.MergeTouchesNoOther` | src/storage.rs:446-513 | a third conversation is the same in every table |
| `Contacts.DeleteLaw` | src/storage.rs:1682-1717 | no table mentions the deleted conversation, and every other is the same in every table |
| `ChatContacts.SaveContact` | src/main.rs:4629-4657 | saving the contact, merging the legacy contact and saving the known peer compute `SaveContactForChat`, its failure included |
| `ChatContacts.SavedContact` | src/main.rs:4629-4657 | the identity is stored under the conversation, and a peer with a key is known under it |
| `ChatContacts.OtherContactsKept` | src/main.rs:4629-4657 | no contact but the saved and the legacy one is touched |
| `ChatContacts.SavedPeer` | src/storage.rs:616-642 | a peer is known under one conversation: saving it under another gives up the first, and a second peer for a conversation is refused |
| `ChatContacts.NamesAgree` | src/main.rs:4101-4105 | in every reachable state a conversation's pending name is its own id, and opening a chat never breaks the uniqueness of known peers |
| `ChatContacts.RowTrail` | src/main.rs:4645-4647 | a queued row keeps the name it was tracked under, and its conversation until a merge moves it |
| `ChatContacts.FoundIffUnmoved` | src/pairing.rs:1171-1171 | a flush for the conversation a row is filed under finds it iff it is still the one it was tracked for |
| `ChatContacts.LostIffMoved` | src/main.rs:4645-4647 | unless contact hashes collide, a queued row is lost to its flush iff a chat has since moved its conversation from a display-name id to an identity id |
| `ChatContacts.IdentityRowsFound` | src/pairing.rs:577-577 | a row tracked for a contact with an identity key is always found |
| `ChatContacts.LegacyRowLost` | src/main.rs:4645-4647 | the shortest history that loses a row: a legacy chat, one queued line, and a chat in which the key is known |
| `Addresses.SanitizeDirectAddress` | src/pairing.rs:1409-1437 | an address is kept iff it has no relay hop, a dialable IP and a transport; what is kept is its dialable IPs and transports, in order |
| `Addresses.DialableIp4Ranges` | src/pairing.rs:1468-1479 | the IPv4 addresses that are not dialled, as ranges of 32-bit numbers |
| `Addresses.DialableIp6Prefixes` | src/pairing.rs:1480-1485 | the IPv6 addresses that are not dialled, by their leading bits |
| `Addresses.KeptInOrder` | src/pairing.rs:1416-1435 | cleaning keeps the order of the parts |
| `Addresses.SanitizedInOrder` | src/pairing.rs:150-153 | and that of the registered addresses |
| `Addresses.CleanedIsDirect` | src/pairing.rs:1409-1437 | a cleaned address is direct and cleaning it again changes nothing |
| `Rendezvous.RendezvousService.OnEvent` | src/pairing.rs:93-186 | each event handler's effect and answer are those of `Step`, with the registered addresses cleaned |
| `Rendezvous.RegisterAnswer` | src/pairing.rs:133-166 | a registration succeeds iff the peer has a reservation, the expiry is within the next 300 seconds and no live invite for the code is another peer's; which error each failing condition gives |
| `Rendezvous.OtherAnswers` | src/pairing.rs:167-182 | the answers to every other event |
| `Rendezvous.ReservedIff` | src/pairing.rs:106-117 | over any run a peer holds a reservation iff one was accepted and none has ended since |
| `Rendezvous.RegisteredIff` | src/pairing.rs:93-186 | over any run, when a registration succeeds is decided by the events alone |
| `Rendezvous.RunBacked` | src/pairing.rs:93-186 | over all interleavings every held invite's peer has a reservation |
| `Rendezvous.CodeLaw` | src/pairing.rs:93-186 | what one event does to one code, as an iff |
| `Rendezvous.ResolveIffLive` | src/pairing.rs:167-179 | a resolve answers a peer and its cleaned addresses iff that peer registered the code and nothing since has renewed, resolved, expired or unreserved it |
| `Rendezvous.AnswersAreDirect` | src/pairing.rs:150-153 | over all interleavings every address answered is direct and holds nothing but dialable IPs and transports |
| `Rendezvous.ResolvedWithinRegistered` | src/pairing.rs:93-186 | per code, resolutions plus a held invite never outnumber registrations |
| `Rendezvous.OnlyOwnerRegisters` | src/pairing.rs:133-166 | a live code is only re-registered by the peer that holds it |
| `Rendezvous.CodeChangesHands` | src/pairing.rs:93-186 | if a code has another owner later, some event in between ended the first owner's invite |
| `Mailbox.MailboxStorage.DepositEnvelope` | src/mailbox_storage.rs:69-103 | expires, refuses a new id when full, ignores a known id, and otherwise stores it pending |
| `Mailbox.DepositAnswer` | src/mailbox_storage.rs:69-103 | a deposit is refused as full iff its id is new and at least the limit of pending envelopes are not yet due; it is stored iff the id is new and fewer are; it is ignored iff the id is known |
| `Mailbox.MailboxStorage.FetchPending` | src/mailbox_storage.rs:105-134 | expires and returns `Fetch` of what is left |
| `Mailbox.MailboxStorage.AcknowledgeRetrieval` | src/mailbox_storage.rs:136-147 | marks the row delivered |
| `Mailbox.AcknowledgeLaw` | src/mailbox_storage.rs:136-147 | the row becomes delivered at that time, whatever it was, and no other changes |
| `Mailbox.ExpireLaw` | src/mailbox_storage.rs:158-170 | the clock turns exactly the due pending envelopes into expired ones |
| `Mailbox.StepLaw` | src/mailbox_storage.rs:69-170 | what one operation does to one id: envelopes never change, and pending survives iff not ended |
| `Mailbox.NeverPendingAgain` | src/mailbox_storage.rs:69-170 | over any run a row keeps its first envelope and, once delivered or expired, is never pending again |
| `Mailbox.PendingWithinLimit` | src/mailbox_storage.rs:69-103 | in every reachable state the pending count is within the limit |
| `Mailbox.FetchIffLive` | src/mailbox_storage.rs:105-134 | after any history a fetch returns an envelope iff it is the stored deposit of its id, for that recipient, and nothing since has acknowledged or expired it |
| `Mailbox.FetchOrdered` | src/mailbox_storage.rs:105-134 | envelopes come in (created_at, id) order, each id once |

## Left out

- libp2p, QUIC, relay and hole-punching plumbing, timeouts, terminal UI, menus, demos and packaging: foreign libraries and I/O. Their events appear as inputs of the state machines.
- The arithmetic of X25519, Ed25519, HKDF, SHA-256 and ChaCha20-Poly1305: symbolic, except that SHA-256 is any function from bytes to 32 bytes and the signed encodings, nonces and associated data are real bytes. An HKDF or AEAD failure on sealing cannot occur in the model.
- Randomness: generated keys are parameters. Lemmas that need them new say so (`FreshKeys`, `generated != ...`).
- Integer widths: message counters, event counters and times are unbounded, which is right below 2^63; wrap-around at 2^64 is not modelled. `SignedEncodings` uses 64-bit counters.
- SQL text, row mapping, files and bincode bytes: tables are maps, and serialisation is a round trip, so the conversions between `SyncEvent` and `EventRecord` are the identity.
- Storage failures and crashes between two storage calls of one handler: each handler is one step.
- `now_unix_secs`: one clock value per event, in any order.
- Clearing or deleting chat history during a delivery run: the delivery results assume unique message ids and a history that is kept, since deduplication reads it.
- The flush and acknowledgement-wait handlers of src/main.rs:4141-4436 run over QUIC with the same prepare, store, acknowledge and remove operations; the delivery model has those operations once and lets them occur in any order. A failed decryption ends the chat before anything is saved, so the model leaves the endpoint as it was. `Reload` lets a session change in any other way between moves, so the results of `Delivery` hold across chats; a run of `DeliveryWindow` is one chat, in which a reload restores what was saved.
- Known peers are keyed by their conversation, which the table declares unique. The invite demo, which saves a contact under a fixed id (src/main.rs:1528), is not one of the chats of `ChatContacts`.
- `Chats` is about flushes that are received in order with nothing else sent; a transport that reorders the frames of a flush is covered, frame by frame, by `DeliveryWindow`.
- `next_local_event_counter`, the simulated directory, device sessions and envelopes: a counter bump, a one-slot holder, and wrappers that hand each message to one ratchet session; they keep no state of their own that the results above depend on.
- The outbox and mailbox demo paths: they record a message as accepted before decrypting it, so the delivery results do not hold for them.
- Parsing and printing of addresses: an address text either parses to a list of protocols or does not.
