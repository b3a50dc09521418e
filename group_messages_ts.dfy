/**
 * `groupMessages` of src/utils/groupMessages.ts: splits a message list into runs of
 * consecutive messages by the same author.
 */
module AuthorGrouping {
  import opened Runs
  import opened Wrappers

  datatype Reaction = Reaction(uuid: string, participantUuid: string, value: string)

  datatype Attachment = Attachment(uuid: string, kind: string, url: string, width: Option<int>, height: Option<int>)

  datatype Message = Message(
    uuid: string,
    authorUuid: string,
    text: string,
    sentAt: int,
    attachments: Option<seq<Attachment>>,
    reactions: Option<seq<Reaction>>,
    updatedAt: int,
    replyToMessageUuid: Option<string>)

  /** A message stays in the group of its predecessor when both have the same author. */
  predicate SameAuthor(prev: Message, current: Message) {
    prev.authorUuid == current.authorUuid
  }

  /**
   * The reduce over `messages` that either pushes the current message onto the last
   * group or pushes a new one-message group.
   */
  method GroupMessages(messages: seq<Message>) returns (groups: seq<seq<Message>>)
    ensures groups == RunsOf(messages, SameAuthor)
    ensures IsRunPartition(messages, groups, SameAuthor)
    ensures groups == [] <==> messages == []
    ensures messages != [] ==> groups[0][0] == messages[0]
    ensures forall g: seq<Message>, j :: g in groups && 0 <= j < |g| ==> g[j].authorUuid == g[0].authorUuid
    ensures |groups| == if messages == [] then 0 else 1 + Breaks(messages, SameAuthor)
  {
    groups := [];
    var index := 0;
    while index < |messages|
      invariant 0 <= index <= |messages|
      invariant groups == RunsOf(messages[..index], SameAuthor)
    {
      var current := messages[index];
      // `prevMsg?.authorUuid === currentMsg.authorUuid`: false when there is no predecessor
      var sameSender := index > 0 && messages[index - 1].authorUuid == current.authorUuid;
      assert messages[..index + 1][..index] == messages[..index];
      if sameSender {
        groups := groups[..|groups| - 1] + [groups[|groups| - 1] + [current]];
      } else {
        groups := groups + [[current]];
      }
      index := index + 1;
    }
    assert messages[..index] == messages;
    RunsOfIsRunPartition(messages, SameAuthor);
    PartitionEmptyIff(messages, groups, SameAuthor);
    if messages != [] {
      FlattenFirst(groups);
    }
    OneAuthorPerGroup(messages, groups);
  }

  /** Every group of a partition into same-author runs has a single author. */
  lemma OneAuthorPerGroup(messages: seq<Message>, groups: seq<seq<Message>>)
    requires IsRunPartition(messages, groups, SameAuthor)
    ensures forall g: seq<Message>, j :: g in groups && 0 <= j < |g| ==> g[j].authorUuid == g[0].authorUuid
  {
    forall g: seq<Message>, j | g in groups && 0 <= j < |g|
      ensures g[j].authorUuid == g[0].authorUuid
    {
      var k :| 0 <= k < |groups| && groups[k] == g;
      assert Chained(groups[k], SameAuthor);
      OneAuthor(g, j);
    }
  }

  /** In a run whose neighbours share an author, every message has the first one's author. */
  lemma {:induction false} OneAuthor(g: seq<Message>, j: nat)
    requires Chained(g, SameAuthor)
    requires j < |g|
    ensures g[j].authorUuid == g[0].authorUuid
  {
    if j > 0 {
      OneAuthor(g, j - 1);
      assert SameAuthor(g[j - 1], g[j]);
    }
  }
}
