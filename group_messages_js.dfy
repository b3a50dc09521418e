/**
 * `groupMessages` of src/utils/groupMessages.js: a message joins the group of its
 * predecessor only when both have the same sender and it was sent less than five
 * minutes after it. `sentAt` is a timestamp in integer milliseconds.
 */
module TimedGrouping {
  import opened Runs

  const FiveMinutesMs := 300000

  datatype Message = Message(uuid: string, sender: string, sentAt: int)

  /**
   * `sameSender && within5Min` for a message that has a predecessor. The gap is signed:
   * a message dated before its predecessor is "within five minutes" of it.
   */
  predicate Joins(prev: Message, current: Message) {
    prev.sender == current.sender && current.sentAt - prev.sentAt < FiveMinutesMs
  }

  method GroupMessages(messages: seq<Message>) returns (groups: seq<seq<Message>>)
    ensures groups == RunsOf(messages, Joins)
    ensures IsRunPartition(messages, groups, Joins)
    ensures groups == [] <==> messages == []
    ensures messages != [] ==> groups[0][0] == messages[0]
    ensures |groups| == if messages == [] then 0 else 1 + Breaks(messages, Joins)
  {
    groups := [];
    var index := 0;
    while index < |messages|
      invariant 0 <= index <= |messages|
      invariant groups == RunsOf(messages[..index], Joins)
    {
      var msg := messages[index];
      // without a predecessor `within5Min` is false, so the first message opens a group
      var sameSender := index > 0 && messages[index - 1].sender == msg.sender;
      var within5Min := index > 0 && msg.sentAt - messages[index - 1].sentAt < FiveMinutesMs;
      assert messages[..index + 1][..index] == messages[..index];
      if sameSender && within5Min {
        groups := groups[..|groups| - 1] + [groups[|groups| - 1] + [msg]];
      } else {
        groups := groups + [[msg]];
      }
      index := index + 1;
    }
    assert messages[..index] == messages;
    RunsOfIsRunPartition(messages, Joins);
    PartitionEmptyIff(messages, groups, Joins);
    if messages != [] {
      FlattenFirst(groups);
    }
  }

  /**
   * Messages 1 and 2 by A, 100 s apart, then message 3 by B 0.5 s later: whatever
   * grouping satisfies the contract of `GroupMessages` is `[[1, 2], [3]]`.
   */
  lemma SenderChangeExample(groups: seq<seq<Message>>)
    requires IsRunPartition([Message("1", "A", 0), Message("2", "A", 100000), Message("3", "B", 100500)], groups, Joins)
    ensures groups == [[Message("1", "A", 0), Message("2", "A", 100000)], [Message("3", "B", 100500)]]
  {
    assert "A" != "B" by {
      assert "A"[0] != "B"[0];
    }
    PairThenSingle(Message("1", "A", 0), Message("2", "A", 100000), Message("3", "B", 100500), groups, Joins);
  }

  /** The same sender five minutes or more later opens a new group. */
  lemma GapExample(groups: seq<seq<Message>>)
    requires IsRunPartition([Message("1", "A", 0), Message("2", "A", 300000)], groups, Joins)
    ensures groups == [[Message("1", "A", 0)], [Message("2", "A", 300000)]]
  {
    TwoRuns(Message("1", "A", 0), Message("2", "A", 300000), groups, Joins);
  }

  /** Out-of-order timestamps: a negative gap keeps the two messages together. */
  lemma NegativeGapExample(groups: seq<seq<Message>>)
    requires IsRunPartition([Message("1", "A", 400000), Message("2", "A", 0)], groups, Joins)
    ensures groups == [[Message("1", "A", 400000), Message("2", "A", 0)]]
  {
    OneRun(Message("1", "A", 400000), Message("2", "A", 0), groups, Joins);
  }
}
