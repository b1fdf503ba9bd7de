/** Conversation events and the records that carry them. */
module Events {
  import opened Bytes
  import opened Wrappers

  datatype ReactionAddId = ReactionAddId(deviceId: Text, counter: nat)

  datatype ConversationEvent =
    | MessageCreated(messageId: Text, authorId: Text, body: seq<byte>)
    | MessageDeleted(messageId: Text)
    | ReactionAdded(messageId: Text, reaction: Text, actorId: Text)
    | ReactionRemoved(reactionAdd: ReactionAddId)
    | ReadAdvanced(actorId: Text, readDeviceId: Text, readCounter: nat)

  /** A serialised event, or bytes that do not decode to one. */
  datatype Payload = Encoded(event: ConversationEvent) | Undecodable(raw: seq<byte>)

  datatype EventRecord = EventRecord(
    deviceId: Text,
    counter: nat,
    conversationId: Text,
    eventType: Text,
    messageId: Option<Text>,
    payload: Payload,
    createdAt: nat)
}
