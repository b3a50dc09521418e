/**
 * The message store of src/store/useMessagesStore.js: the message list (newest first),
 * the update watermark, the "more available" flag and the queue of optimistic sends
 * still waiting for the server.
 *
 * Every asynchronous action is one atomic step here. The outcome of each request it
 * makes, and the clock readings it takes, are parameters.
 */
module UseMessagesStore {
  import opened Wrappers
  import opened Api
  import opened Seqs
  import opened ChatTypes

  /** A full page of `/messages/latest` or `/messages/older/...`. */
  const PageSize := 25

  /** The sender and reacting participant that stands for the local user. */
  const CurrentUser := "you"

  function UuidOf(m: ChatMessage): string { m.uuid }

  function Ids(ms: seq<ChatMessage>): set<string> { KeySet(ms, UuidOf) }

  ghost predicate UniqueIds(ms: seq<ChatMessage>) { DistinctKeys(ms, UuidOf) }

  /** `hasMore: data.length === 25`. */
  predicate HasMore(page: seq<ChatMessage>) { |page| == PageSize }

  /**
   * `mergeUpdates`: all updates first, in their order, then the existing messages that
   * no update names, in their order.
   */
  function MergeUpdates(existing: seq<ChatMessage>, updates: seq<ChatMessage>): (r: seq<ChatMessage>)
    ensures |r| >= |updates| && r[..|updates|] == updates
    ensures r[|updates|..] == Without(existing, UuidOf, Ids(updates))
    ensures forall m :: m in r[|updates|..] <==> m in existing && m.uuid !in Ids(updates)
    ensures Ids(r) == Ids(updates) + Ids(existing)
  {
    var filtered := Without(existing, UuidOf, Ids(updates));
    var r := updates + filtered;
    assert r[..|updates|] == updates && r[|updates|..] == filtered;
    assert Ids(r) == Ids(updates) + Ids(existing) by {
      forall id | id in Ids(updates) + Ids(existing)
        ensures id in Ids(r)
      {
        if id !in Ids(updates) {
          var m :| m in existing && m.uuid == id;
          assert m in filtered;
        }
      }
    }
    r
  }

  /** Merging the same delta a second time changes nothing. */
  lemma MergeUpdatesIdempotent(existing: seq<ChatMessage>, updates: seq<ChatMessage>)
    ensures MergeUpdates(MergeUpdates(existing, updates), updates) == MergeUpdates(existing, updates)
  {
    var filtered := Without(existing, UuidOf, Ids(updates));
    var once := MergeUpdates(existing, updates);
    assert once == updates + filtered by {
      assert once == once[..|updates|] + once[|updates|..];
    }
    assert Without(once, UuidOf, Ids(updates)) == filtered by {
      WithoutAppend(updates, filtered, UuidOf, Ids(updates));
      WithoutEverything(updates, UuidOf, Ids(updates));
      WithoutNothing(filtered, UuidOf, Ids(updates));
    }
    var twice := MergeUpdates(once, updates);
    assert twice == twice[..|updates|] + twice[|updates|..];
  }

  /** A delta without repeated uuids, merged into a list without repeated uuids, repeats none. */
  lemma MergeUpdatesKeepsIdsUnique(existing: seq<ChatMessage>, updates: seq<ChatMessage>)
    requires UniqueIds(existing) && UniqueIds(updates)
    ensures UniqueIds(MergeUpdates(existing, updates))
  {
    var filtered := Without(existing, UuidOf, Ids(updates));
    WithoutDistinct(existing, UuidOf, Ids(updates));
    AppendDistinct(updates, filtered, UuidOf);
  }

  /** The optimistic message `sendMessage` shows before the server answers. */
  function Placeholder(localId: string, text: string, sentAt: string, replyTo: Option<string>): ChatMessage {
    ChatMessage(localId, text, CurrentUser, sentAt, replyTo, [], true)
  }

  /** One message after `addReaction`: the reaction is appended only if the uuid matches. */
  function WithReaction(m: ChatMessage, messageId: string, reaction: Reaction): (r: ChatMessage)
    ensures r.(reactions := m.reactions) == m
    ensures r.reactions == m.reactions + (if m.uuid == messageId then [reaction] else [])
  {
    if m.uuid == messageId then m.(reactions := m.reactions + [reaction]) else m
  }

  /**
   * The uuids that `processQueue` records in `successes`: every queued message whose
   * retry succeeded, whatever happened to the retries before it.
   */
  function Succeeded(queue: seq<ChatMessage>, responses: seq<Response<ChatMessage>>): (ids: seq<string>)
    requires |queue| == |responses|
    ensures forall id :: id in ids <==> exists i :: 0 <= i < |queue| && responses[i].Ok? && queue[i].uuid == id
  {
    if queue == [] then []
    else
      var n := |queue| - 1;
      var before := Succeeded(queue[..n], responses[..n]);
      assert forall i :: 0 <= i < n ==> queue[..n][i] == queue[i] && responses[..n][i] == responses[i];
      before + (if responses[n].Ok? then [queue[n].uuid] else [])
  }

  /**
   * The message list after `processQueue` has swapped in the server's copy of every
   * queued message whose retry succeeded. Messages whose uuid did not succeed are
   * untouched.
   */
  function Confirmed(ms: seq<ChatMessage>, queue: seq<ChatMessage>, responses: seq<Response<ChatMessage>>): (r: seq<ChatMessage>)
    requires |queue| == |responses|
    ensures |r| == |ms|
    ensures forall i :: 0 <= i < |ms| && ms[i].uuid !in Succeeded(queue, responses) ==> r[i] == ms[i]
  {
    if queue == [] then ms
    else
      var n := |queue| - 1;
      var before := Confirmed(ms, queue[..n], responses[..n]);
      assert forall id :: id in Succeeded(queue[..n], responses[..n]) ==> id in Succeeded(queue, responses) by {
        forall id | id in Succeeded(queue[..n], responses[..n])
          ensures id in Succeeded(queue, responses)
        {
          var i :| 0 <= i < n && responses[..n][i].Ok? && queue[..n][i].uuid == id;
          assert responses[i].Ok? && queue[i].uuid == id;
        }
      }
      match responses[n]
      case Ok(data) => ReplaceKey(before, UuidOf, queue[n].uuid, data)
      case Failure(_, _) => before
  }

  /**
   * A queued message whose retry succeeded is replaced by the server's copy. Queued uuids
   * are distinct and the server's copies carry uuids of their own, so no later retry
   * overwrites the copy again.
   */
  lemma {:induction false} ConfirmedReplaces(ms: seq<ChatMessage>, queue: seq<ChatMessage>,
                                             responses: seq<Response<ChatMessage>>, i: nat, j: nat)
    requires |queue| == |responses|
    requires DistinctKeys(queue, UuidOf)
    requires forall k :: 0 <= k < |responses| && responses[k].Ok? ==> responses[k].data.uuid !in Ids(queue)
    requires i < |ms| && j < |queue| && ms[i].uuid == queue[j].uuid && responses[j].Ok?
    ensures Confirmed(ms, queue, responses)[i] == responses[j].data
  {
    var n := |queue| - 1;
    var before := Confirmed(ms, queue[..n], responses[..n]);
    if j == n {
      assert forall k :: 0 <= k < n ==> queue[..n][k].uuid != ms[i].uuid by {
        forall k | 0 <= k < n
          ensures queue[..n][k].uuid != ms[i].uuid
        {
          assert queue[..n][k] == queue[k];
        }
      }
      assert before[i] == ms[i];
    } else {
      assert Ids(queue[..n]) <= Ids(queue) by {
        forall id | id in Ids(queue[..n])
          ensures id in Ids(queue)
        {
          var x :| x in queue[..n] && UuidOf(x) == id;
          assert x in queue;
        }
      }
      assert queue[..n][j] == queue[j] && responses[..n][j] == responses[j];
      ConfirmedReplaces(ms, queue[..n], responses[..n], i, j);
      assert queue[n] in queue;
    }
  }

  /** `ConfirmedReplaces` for every queued message whose retry succeeded at once. */
  lemma ConfirmedReplacesAll(ms: seq<ChatMessage>, queue: seq<ChatMessage>, responses: seq<Response<ChatMessage>>)
    requires |queue| == |responses|
    requires DistinctKeys(queue, UuidOf)
    requires forall k :: 0 <= k < |responses| && responses[k].Ok? ==> responses[k].data.uuid !in Ids(queue)
    ensures forall i, j ::
      (0 <= i < |ms| && 0 <= j < |queue| && ms[i].uuid == queue[j].uuid && responses[j].Ok?) ==>
      Confirmed(ms, queue, responses)[i] == responses[j].data
  {
    forall i, j | 0 <= i < |ms| && 0 <= j < |queue| && ms[i].uuid == queue[j].uuid && responses[j].Ok?
      ensures Confirmed(ms, queue, responses)[i] == responses[j].data
    {
      ConfirmedReplaces(ms, queue, responses, i, j);
    }
  }

  /** One retry more: how `Succeeded` and `Confirmed` extend by the next queued message. */
  lemma RetryStep(ms: seq<ChatMessage>, queue: seq<ChatMessage>, responses: seq<Response<ChatMessage>>, i: nat)
    requires |queue| == |responses| && i < |queue|
    ensures Succeeded(queue[..i + 1], responses[..i + 1]) ==
            Succeeded(queue[..i], responses[..i]) + (if responses[i].Ok? then [queue[i].uuid] else [])
    ensures Confirmed(ms, queue[..i + 1], responses[..i + 1]) ==
            match responses[i]
            case Ok(data) => ReplaceKey(Confirmed(ms, queue[..i], responses[..i]), UuidOf, queue[i].uuid, data)
            case Failure(_, _) => Confirmed(ms, queue[..i], responses[..i])
  {
    assert queue[..i + 1][..i] == queue[..i] && responses[..i + 1][..i] == responses[..i];
  }

  class MessagesStore {
    var messages: seq<ChatMessage>
    var lastUpdateTime: int
    var hasMore: bool
    var pendingMessages: seq<ChatMessage>

    constructor ()
      ensures messages == [] && lastUpdateTime == 0 && hasMore && pendingMessages == []
    {
      messages, lastUpdateTime, hasMore, pendingMessages := [], 0, true, [];
    }

    /** `fetchLatestMessages`: the page replaces the list; a failed request changes nothing. */
    method FetchLatestMessages(response: Response<seq<ChatMessage>>, now: int)
      modifies this
      ensures response.Ok? ==>
        && messages == response.data
        && lastUpdateTime == now
        && hasMore == (|response.data| == PageSize)
        && pendingMessages == old(pendingMessages)
      ensures response.Failure? ==> unchanged(this)
    {
      if response.Ok? {
        messages, lastUpdateTime, hasMore := response.data, now, HasMore(response.data);
      }
    }

    /**
     * `loadOlderMessages`. Nothing is requested when `hasMore` is false, nor when the
     * list is empty (reading the uuid of the missing oldest message throws inside the
     * `try`). Otherwise `request` is the uuid asked about, the uuid of the last message,
     * and `response` answers it: the page goes after the existing list.
     */
    method LoadOlderMessages(response: Response<seq<ChatMessage>>) returns (request: Option<string>)
      modifies this
      ensures request == if old(hasMore) && old(messages) != [] then Some(old(messages)[|old(messages)| - 1].uuid) else None
      ensures request.Some? && response.Ok? ==>
        && messages == old(messages) + response.data
        && hasMore == (|response.data| == PageSize)
        && lastUpdateTime == old(lastUpdateTime)
        && pendingMessages == old(pendingMessages)
      ensures request.None? || response.Failure? ==> unchanged(this)
    {
      if !hasMore || messages == [] {
        return None;
      }
      var oldest := messages[|messages| - 1];
      request := Some(oldest.uuid);
      if response.Ok? {
        messages, hasMore := messages + response.data, HasMore(response.data);
      }
    }

    /**
     * `checkForUpdates`: a non-empty delta is merged by `MergeUpdates` and moves the
     * watermark to `now`; an empty delta or a failed request changes nothing.
     */
    method CheckForUpdates(response: Response<seq<ChatMessage>>, now: int)
      modifies this
      ensures response.Ok? && response.data != [] ==>
        && messages == MergeUpdates(old(messages), response.data)
        && lastUpdateTime == now
        && hasMore == old(hasMore)
        && pendingMessages == old(pendingMessages)
      ensures response.Failure? || response.data == [] ==> unchanged(this)
    {
      if response.Ok? && |response.data| > 0 {
        messages, lastUpdateTime := MergeUpdates(messages, response.data), now;
      }
    }

    /**
     * `sendMessage`. The placeholder, with uuid `localId` and timestamp `now`, first goes
     * to the front of `messages` and to the end of `pendingMessages`. Then `response`,
     * the answer to `POST /messages/new`, decides: on success the server's message takes
     * the placeholder's place and the placeholder leaves the queue; on an offline failure
     * both stay; on any other failure the placeholder leaves `messages` but stays queued.
     */
    method SendMessage(text: string, replyTo: Option<string>, localId: string, now: string, response: Response<ChatMessage>)
      modifies this
      ensures var p := Placeholder(localId, text, now, replyTo);
        && (response.Ok? ==>
             && messages == ReplaceKey([p] + old(messages), UuidOf, localId, response.data)
             && pendingMessages == Without(old(pendingMessages) + [p], UuidOf, {localId}))
        && (response.Failure? && response.isOffline ==>
             && messages == [p] + old(messages)
             && pendingMessages == old(pendingMessages) + [p])
        && (response.Failure? && !response.isOffline ==>
             && messages == Without([p] + old(messages), UuidOf, {localId})
             && pendingMessages == old(pendingMessages) + [p])
      ensures response.Ok? ==> |messages| == |old(messages)| + 1 && messages[0] == response.data
      ensures localId !in Ids(old(messages)) && response.Failure? && !response.isOffline ==> messages == old(messages)
      ensures hasMore == old(hasMore) && lastUpdateTime == old(lastUpdateTime)
    {
      var newMsg := Placeholder(localId, text, now, replyTo);
      messages, pendingMessages := [newMsg] + messages, pendingMessages + [newMsg];
      match response {
        case Ok(data) =>
          messages := ReplaceKey(messages, UuidOf, newMsg.uuid, data);
          pendingMessages := Without(pendingMessages, UuidOf, {newMsg.uuid});
        case Failure(isOffline, _) =>
          if !isOffline {
            ghost var staged := messages;
            messages := Without(messages, UuidOf, {newMsg.uuid});
            if localId !in Ids(old(messages)) {
              WithoutAppend([newMsg], old(messages), UuidOf, {localId});
              WithoutSingle(newMsg, UuidOf, {localId});
              WithoutNothing(old(messages), UuidOf, {localId});
            }
          }
      }
    }

    /**
     * `addReaction`: every message with uuid `messageId` gets one more reaction at the
     * end of its list, by `'you'` at `timestamp`; every other message is untouched.
     */
    method AddReaction(messageId: string, emoji: string, timestamp: string)
      modifies this
      ensures |messages| == |old(messages)|
      ensures forall i :: 0 <= i < |messages| ==>
        messages[i] == if old(messages)[i].uuid == messageId
                       then old(messages)[i].(reactions := old(messages)[i].reactions + [Reaction(emoji, CurrentUser, timestamp)])
                       else old(messages)[i]
      ensures pendingMessages == old(pendingMessages) && hasMore == old(hasMore) && lastUpdateTime == old(lastUpdateTime)
    {
      var reaction := Reaction(emoji, CurrentUser, timestamp);
      messages := seq(|messages|, i requires 0 <= i < |messages| reads this => WithReaction(messages[i], messageId, reaction));
    }

    /**
     * The `for` loop of `processQueue`: retries every message of `queue` in order,
     * swapping the server's copy into `messages` on each success, and returns the
     * `successes` list.
     */
    method RetryEach(queue: seq<ChatMessage>, responses: seq<Response<ChatMessage>>) returns (successes: seq<string>)
      requires |responses| == |queue|
      modifies this
      ensures messages == Confirmed(old(messages), queue, responses)
      ensures successes == Succeeded(queue, responses)
      ensures pendingMessages == old(pendingMessages) && hasMore == old(hasMore) && lastUpdateTime == old(lastUpdateTime)
    {
      successes := [];
      var i := 0;
      while i < |queue|
        invariant 0 <= i <= |queue|
        invariant successes == Succeeded(queue[..i], responses[..i])
        invariant messages == Confirmed(old(messages), queue[..i], responses[..i])
        invariant pendingMessages == old(pendingMessages)
        invariant hasMore == old(hasMore) && lastUpdateTime == old(lastUpdateTime)
      {
        RetryStep(old(messages), queue, responses, i);
        var msg := queue[i];
        match responses[i] {
          case Ok(data) =>
            successes := successes + [msg.uuid];
            messages := ReplaceKey(messages, UuidOf, msg.uuid, data);
          case Failure(_, _) =>
        }
        i := i + 1;
      }
      assert queue[..i] == queue && responses[..i] == responses;
    }

    /**
     * `processQueue`: retries every queued message in order, `responses[i]` being the
     * answer for the i-th one. Each success swaps the server's copy into `messages`; a
     * failure is skipped. At the end exactly the succeeded uuids leave the queue.
     */
    method ProcessQueue(responses: seq<Response<ChatMessage>>)
      requires |responses| == |pendingMessages|
      modifies this
      ensures messages == Confirmed(old(messages), old(pendingMessages), responses)
      ensures DistinctKeys(old(pendingMessages), UuidOf) &&
              (forall k :: 0 <= k < |responses| && responses[k].Ok? ==> responses[k].data.uuid !in Ids(old(pendingMessages))) ==>
        forall i, j ::
          (0 <= i < |old(messages)| && 0 <= j < |old(pendingMessages)| &&
           old(messages)[i].uuid == old(pendingMessages)[j].uuid && responses[j].Ok?) ==>
          messages[i] == responses[j].data
      ensures var successes := Succeeded(old(pendingMessages), responses);
        pendingMessages == Without(old(pendingMessages), UuidOf, set id | id in successes)
      ensures forall m :: m in pendingMessages <==>
        m in old(pendingMessages) && m.uuid !in Succeeded(old(pendingMessages), responses)
      ensures hasMore == old(hasMore) && lastUpdateTime == old(lastUpdateTime)
    {
      var queue := pendingMessages;
      var successes := RetryEach(queue, responses);
      if DistinctKeys(queue, UuidOf) && (forall k :: 0 <= k < |responses| && responses[k].Ok? ==> responses[k].data.uuid !in Ids(queue)) {
        ConfirmedReplacesAll(old(messages), queue, responses);
      }
      var succeeded := set id | id in successes;
      pendingMessages := Without(pendingMessages, UuidOf, succeeded);
    }
  }

  /**
   * A message sent while offline, then a queue run after reconnecting whose retry
   * succeeds: the server's message replaces the placeholder and the queue is empty.
   */
  method OfflineSendThenReconnect(text: string, localId: string, now: string, server: ChatMessage)
    returns (store: MessagesStore)
    ensures store.messages == [server] && store.pendingMessages == []
  {
    var p := Placeholder(localId, text, now, None);
    assert Confirmed([p], [p], [Ok(server)]) == [server] by {
      assert [p][..0] == [] && [Ok(server)][..0] == [];
      assert Confirmed([p], [], []) == [p];
      assert ReplaceKey([p], UuidOf, localId, server) == [server];
    }
    assert Without([p], UuidOf, set id | id in Succeeded([p], [Ok(server)])) == [] by {
      assert [p][..0] == [] && [Ok(server)][..0] == [];
      assert Succeeded([p], [Ok(server)]) == [localId];
      assert (set id | id in [localId]) == {localId};
      WithoutSingle(p, UuidOf, {localId});
    }
    store := new MessagesStore();
    store.SendMessage(text, None, localId, now, Failure(true, None));
    assert store.messages == [p] + [] == [p];
    assert store.pendingMessages == [] + [p] == [p];
    store.ProcessQueue([Ok(server)]);
  }
}
