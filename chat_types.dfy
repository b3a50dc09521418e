/**
 * The JSON shapes of src/api/types.ts that the JavaScript store, components and screens
 * pass around. Timestamps stay the ISO strings the server and the clock produce. Where
 * the code parses one, the difference it computes from it is a parameter instead: an
 * `Option<int>` of milliseconds, `None` for the `NaN` of an unparsable date.
 */
module ChatTypes {
  import opened Wrappers

  /** `TReaction`. */
  datatype Reaction = Reaction(emoji: string, participant: string, timestamp: string)

  /**
   * The fields of `TMessageJSON` that the modelled code reads, plus the `pending` flag of
   * an optimistic send; the optional `edited` and `attachment` fields are left out, since
   * no modelled operation reads or sets them. `sender` is a participant uuid or `'you'`.
   * A missing `reactions` array is the empty sequence, as `msg.reactions || []` reads it.
   */
  datatype ChatMessage = ChatMessage(
    uuid: string,
    text: string,
    sender: string,
    sentAt: string,
    replyToMessage: Option<string>,
    reactions: seq<Reaction>,
    pending: bool)

  /** `TParticipant`. */
  datatype ChatParticipant = ChatParticipant(uuid: string, name: string, avatar: Option<string>, lastSeen: Option<string>)
}
