# tribe-chat core, modelled in Dafny

tribe-chat is a React Native chat client. Under its screens and HTTP calls sits a set of small,
deterministic list, map and state operations, and this project models them:

- **Display grouping.** `groupMessages.ts` cuts a message list into runs by the same author.
  `groupMessages.js` also opens a new run when the gap reaches five minutes.
- **Message stores.** `useMessagesStore.js` keeps messages, the update watermark, the
  `hasMore` flag and the optimistic-send queue: `mergeUpdates`, `sendMessage`,
  `processQueue`, `addReaction`, `loadOlderMessages`. `messageStore.ts` keeps a list that
  `fetchUpdates` patches in place.
- **Participants.** The filter-then-append merge of `participantStore.ts`. The uuid index of
  `userParticipantStore.js`. The mention filter of `MentionList.js`.
- **Reaction tally.** `ReactionBar.js` counts reactions per emoji and shows a badge.
- **Relative time.** The buckets of `formatRelativeTime` and `formatGroupDate` in
  `dateUtils.js`, and `formatLastSeen` with the status line in `ParticipantScreen.js`.
- **Sessions.** Session rotation in `sessionManager.js`, and cache invalidation in
  `sessionStore.ts`, both over an abstract key/value storage.

Each store is a class whose fields are the store's fields. Each asynchronous action is a
method that does its work in one atomic step. Its parameters carry:

- the server's answer, a `Response`: the data, or a failure. A failure carries the
  `isOffline` flag set by `api.js` and the HTTP status of the answer, if one came. A 401
  makes the response interceptor of `api.js` clear all of storage before rejecting;
  `Response.Unauthorized` names that case;
- the clock readings and generated ids it needs.

Loops are methods with invariants. Each is proved equal to a specification function, such as
`Runs.RunsOf`, `MessageStore.ApplyDelta`, `ReactionBar.Tally` or `UserParticipantStore.Index`.
Lemmas about those functions prove what the code promises:

- the partition and uniqueness facts of grouping;
- the in-place replacement, the appending of new uuids and the idempotence of `fetchUpdates`,
  through an independent, non-sequential reference definition `MessageStore.Reconciled`;
- last-write-wins indexing;
- the tally's counts and their total.

Time formatters take the elapsed milliseconds, `now - date`, as an `Option<int>`. `None`
stands for the `NaN` produced by an unparsable date, for which every comparison is false.

Modules, one per core file:

- `AuthorGrouping` and `TimedGrouping`; `UseMessagesStore` and `MessageStore`;
- `ParticipantStore`, `UserParticipantStore` and `MentionList`; `ReactionBar`;
- `DateUtils` and `ParticipantScreen`; `SessionManager` and `SessionStore`.

Shared modules:

- `Runs`: partitions into runs, shared by both grouping variants;
- `Seqs`: filter, remove-by-key and replace-by-key on sequences;
- `Decimal`: how a template literal prints a number;
- `ChatTypes`: the message and participant shapes the JavaScript files use;
- `AsyncStorage`: the storage class;
- `Api` (`Response`, `ServerInfo`) and `Wrappers` (`Option`).

Behaviour of the code worth noting:

- `sendMessage`, failure that is not offline: the placeholder leaves `messages` but stays in
  `pendingMessages` (useMessagesStore.js:94-99).
- `fetchOlder` in `messageStore.ts` puts the page *before* the list (line 34).
  `loadOlderMessages` in `useMessagesStore.js` appends it after the list (line 45).
- `mergeUpdates` in `useMessagesStore.js` does not replace in place. It puts every update first
  and the untouched messages after (lines 166-170). Only `messageStore.ts` replaces in place.
- `prevUuid && ...` in `sessionStore.ts` treats an empty previous uuid as absent.
  `participant.lastSeen ? ...` in `ParticipantScreen.js` treats an empty `lastSeen` as
  absent. Both follow JavaScript truthiness.

## Model

| member | source | states |
|---|---|---|
| Runs.RunsOf | tribe-chat/src/utils/groupMessages.ts:33-49 | The groups the reduce builds: the message at `n` goes into the last group when it is joined to the message at `n - 1`, otherwise it opens a new group. There are no groups exactly when there are no messages. |
| Runs.RunsOfIsRunPartition | tribe-chat/src/utils/groupMessages.ts:33-49 | What the reduce builds is a partition into maximal runs. Concatenated, the groups give the input back. Every group is non-empty and its neighbours are joined. A group's last message is not joined to the next group's first. The group count is one more than the number of breaks, and zero for no input. |
| Runs.PartitionUnique | tribe-chat/src/utils/groupMessages.js:3-16 | A list has only one partition into maximal runs, so any grouping meeting the contract is the grouping. |
| Runs.StepKeepsPartition | tribe-chat/src/utils/groupMessages.js:10-14 | One step of the reduce keeps the partition and the group count: push onto the last group when joined, open a group otherwise. |
| Runs.PartitionEmptyIff | tribe-chat/src/utils/groupMessages.ts:33-49 | A partition has no groups exactly when the list has no messages. |
| Runs.FlattenFirst | tribe-chat/src/utils/groupMessages.ts:34-45 | The first message of the input is the first message of the first group. |
| AuthorGrouping.GroupMessages | tribe-chat/src/utils/groupMessages.ts:31-50 | The reduce, as a loop. The result is `RunsOf(messages, SameAuthor)`, a partition into maximal same-author runs. Inside a group, neighbours share an author; across a group boundary, authors differ. Empty input gives no groups. The first message opens the first group. Every group has one author. The group count is 1 plus the number of author changes. |
| AuthorGrouping.OneAuthorPerGroup | tribe-chat/src/utils/groupMessages.ts:37-42 | In a partition into same-author runs, every message of a group has the author of the group's first message. |
| TimedGrouping.GroupMessages | tribe-chat/src/utils/groupMessages.js:2-17 | The reduce, as a loop. The result is `RunsOf(messages, Joins)`, a partition into maximal runs. Inside a group, neighbours have the same sender and a signed gap below 300000 ms. Across a group boundary, the sender differs or the gap is at least 300000 ms. The first message opens a group. The group count is 1 plus the number of breaks. |
| TimedGrouping.SenderChangeExample | tribe-chat/src/utils/groupMessages.js:5-14 | `[A@0, A@100000, B@100500]` can only be grouped `[[1, 2], [3]]`. |
| TimedGrouping.GapExample | tribe-chat/src/utils/groupMessages.js:6-8 | The same sender exactly 300000 ms later opens a new group. |
| TimedGrouping.NegativeGapExample | tribe-chat/src/utils/groupMessages.js:7 | A negative gap, from out-of-order timestamps, counts as within five minutes: the two messages share a group. |
| UseMessagesStore.HasMore | tribe-chat/src/store/useMessagesStore.js:30 | More pages are assumed exactly when the page holds 25 messages. |
| UseMessagesStore.MergeUpdates | tribe-chat/src/store/useMessagesStore.js:166-170 | All updates come first, in order. After them come exactly the existing messages whose uuid no update carries, in their original order. The uuids of the result are those of the updates and of the existing list. |
| UseMessagesStore.MergeUpdatesIdempotent | tribe-chat/src/store/useMessagesStore.js:166-170 | Merging the same updates twice gives the same list as merging them once. |
| UseMessagesStore.MergeUpdatesKeepsIdsUnique | tribe-chat/src/store/useMessagesStore.js:166-170 | Updates without repeated uuids, merged into a list without repeated uuids, leave no uuid repeated. |
| UseMessagesStore.Placeholder | tribe-chat/src/store/useMessagesStore.js:70-77 | The optimistic message: the local id, the text, sender `'you'`, the send time, the reply target, no reactions, and `pending` set. |
| UseMessagesStore.WithReaction | tribe-chat/src/store/useMessagesStore.js:106-119 | The map callback. Every field except `reactions` is kept. The matching message gains exactly the new reaction at the end; any other message keeps its reactions. |
| UseMessagesStore.Succeeded | tribe-chat/src/store/useMessagesStore.js:126-135 | `successes` holds a uuid exactly when some queued message with that uuid got a successful retry. Failures in between do not stop later items. |
| UseMessagesStore.Confirmed | tribe-chat/src/store/useMessagesStore.js:128-140 | Swapping in the server's copies keeps the list length. A message whose uuid did not succeed is left untouched. |
| UseMessagesStore.ConfirmedReplaces | tribe-chat/src/store/useMessagesStore.js:128-140 | A message whose uuid belongs to a queued message with a successful retry ends up as the server's copy from that retry. This holds when queued uuids are distinct and the server's copies carry uuids outside the queue. |
| UseMessagesStore.MessagesStore.constructor | tribe-chat/src/store/useMessagesStore.js:10-13 | The initial state: no messages, watermark 0, `hasMore` true, an empty queue. |
| UseMessagesStore.MessagesStore.FetchLatestMessages | tribe-chat/src/store/useMessagesStore.js:24-35 | The page replaces the list and the watermark becomes `now`. `hasMore` is true exactly when the page holds 25 messages. A failed request changes nothing. |
| UseMessagesStore.MessagesStore.LoadOlderMessages | tribe-chat/src/store/useMessagesStore.js:38-51 | Nothing is requested when `hasMore` is false or the list is empty. Otherwise the request names the last message's uuid and the page is appended after the list. `hasMore` is then true exactly when the page holds 25 messages. A failure changes nothing. |
| UseMessagesStore.MessagesStore.CheckForUpdates | tribe-chat/src/store/useMessagesStore.js:54-66 | A non-empty delta is merged by `MergeUpdates` and the watermark becomes `now`. An empty delta or a failed request leaves everything unchanged, the watermark included. |
| UseMessagesStore.MessagesStore.SendMessage | tribe-chat/src/store/useMessagesStore.js:69-101 | The placeholder goes to the front of `messages` and the end of `pendingMessages`. On success the server's message takes the placeholder's place, the length grows by exactly one, and the placeholder leaves the queue. An offline failure keeps both. Any other failure removes the placeholder from `messages` only. `hasMore` and the watermark are untouched. |
| UseMessagesStore.MessagesStore.AddReaction | tribe-chat/src/store/useMessagesStore.js:104-122 | Only messages with the matching uuid change. Each gains exactly one reaction at the end, by `'you'` with the given emoji and time. Length and every other field are unchanged. |
| UseMessagesStore.MessagesStore.RetryEach | tribe-chat/src/store/useMessagesStore.js:128-144 | The `for` loop. `messages` becomes `Confirmed(queue, responses)` of the old list and the returned `successes` is `Succeeded(queue, responses)`. Nothing else in the store changes. |
| UseMessagesStore.MessagesStore.ProcessQueue | tribe-chat/src/store/useMessagesStore.js:125-151 | Retries every queued message in order and swaps each success into `messages`, giving `Confirmed`. With distinct queued uuids and server copies whose uuids lie outside the queue, each message of a succeeded uuid becomes the server's copy. At the end, the queue keeps exactly the messages whose uuid did not succeed. |
| UseMessagesStore.OfflineSendThenReconnect | tribe-chat/src/store/useMessagesStore.js:69-151 | A send that fails offline, then a queue run whose retry succeeds: the list is the server's message alone and the queue is empty. |
| MessageStore.FindIndex | tribe-chat/src/stores/messageStore.ts:43 | `findIndex`: -1, or the first position holding the uuid. No earlier position holds it. |
| MessageStore.ApplyUpdate | tribe-chat/src/stores/messageStore.ts:43-45 | One step of the `forEach`. The update lands at the first index holding its uuid, or at the end when none does. Every other entry keeps its place and value. The uuids gain the update's own. |
| MessageStore.ApplyDelta | tribe-chat/src/stores/messageStore.ts:42-46 | The whole `forEach`. The list never shrinks. Entries whose uuid the delta does not name are unchanged. The uuids are those of the list and of the delta. `ApplyDeltaIsReconciled` gives its full result. |
| MessageStore.LastUpdate | tribe-chat/src/stores/messageStore.ts:42-46 | The last update in the delta with a given uuid. It exists exactly when the delta names that uuid. |
| MessageStore.NewIds | tribe-chat/src/stores/messageStore.ts:45 | The uuids the delta names and the list lacks, each once. |
| MessageStore.NewIdsPrefix | tribe-chat/src/stores/messageStore.ts:42-46 | The new uuids of a shorter delta are a prefix of those of the full delta. So new messages are appended in the order their uuids first appear. |
| MessageStore.ApplyDeltaIsReconciled | tribe-chat/src/stores/messageStore.ts:42-46 | The sequential fold of the delta equals the reference merge. In it, each entry at the first position of its uuid becomes the last update for that uuid. Every other entry stays. One entry per new uuid is appended, holding that uuid's last update. |
| MessageStore.FetchUpdatesReplacesInPlace | tribe-chat/src/stores/messageStore.ts:43-44 | An update for a uuid already present lands at the index of the first entry with that uuid. |
| MessageStore.FetchUpdatesKeepsOthers | tribe-chat/src/stores/messageStore.ts:40-46 | Entries the delta does not name, and later duplicates of a named uuid, keep their value and position. |
| MessageStore.FetchUpdatesAppendsNew | tribe-chat/src/stores/messageStore.ts:45 | The length grows by the number of distinct new uuids. Their entries are appended in the order the uuids first appear in the delta. |
| MessageStore.LaterUpdateWins | tribe-chat/src/stores/messageStore.ts:42-46 | When a delta holds two updates with the same uuid, the later one lands. |
| MessageStore.FetchUpdatesIdempotent | tribe-chat/src/stores/messageStore.ts:42-46 | Applying the same delta twice gives the list that applying it once gives. |
| MessageStore.FetchUpdatesKeepsIdsUnique | tribe-chat/src/stores/messageStore.ts:42-46 | A list without repeated uuids has none after the merge, even when the delta repeats uuids. |
| MessageStore.EditExample | tribe-chat/src/stores/messageStore.ts:42-46 | `[1, 2]` with the delta `[2']` becomes `[1, 2']`. |
| MessageStore.MessageState.constructor | tribe-chat/src/stores/messageStore.ts:23-24 | An empty list, with the watermark at the supplied time. |
| MessageStore.MessageState.FetchLatest | tribe-chat/src/stores/messageStore.ts:26-30 | The page replaces the list and the watermark becomes `now`. A failed request changes nothing. |
| MessageStore.MessageState.FetchOlder | tribe-chat/src/stores/messageStore.ts:32-35 | The page goes before the existing list. The watermark is untouched. |
| MessageStore.MessageState.FetchUpdates | tribe-chat/src/stores/messageStore.ts:37-50 | The loop leaves `ApplyDelta(old list, delta)`. The watermark becomes `now` even for an empty delta. A failed request changes nothing. |
| ParticipantStore.Merge | tribe-chat/src/stores/participantStore.ts:32-35 | The merge keeps the existing participants whose uuid no update carries, in order, then all updates, in order. Every update appears. No existing entry with an updated uuid survives. The length is the untouched entries plus the updates. |
| ParticipantStore.MergeIdempotent | tribe-chat/src/stores/participantStore.ts:32-35 | Merging the same delta a second time changes nothing. |
| ParticipantStore.MergeKeepsIdsUnique | tribe-chat/src/stores/participantStore.ts:32-35 | Without repeated uuids in the list and in the delta, the merge repeats none. |
| ParticipantStore.MergeIds | tribe-chat/src/stores/participantStore.ts:32-35 | The uuids after the merge are those of the list together with those of the delta. |
| ParticipantStore.ParticipantState.constructor | tribe-chat/src/stores/participantStore.ts:20-21 | An empty list, with the watermark at the supplied time. |
| ParticipantStore.ParticipantState.FetchAll | tribe-chat/src/stores/participantStore.ts:23-27 | The fetched list replaces the old one and the watermark becomes `now`. A failed request changes nothing. |
| ParticipantStore.ParticipantState.FetchUpdates | tribe-chat/src/stores/participantStore.ts:29-38 | The list becomes `Merge(old list, delta)` and the watermark becomes `now`. A failed request changes nothing. |
| UserParticipantStore.Index | tribe-chat/src/store/userParticipantStore.js:12-15 | The object the `forEach` leaves, writing `map[p.uuid] = p` in order. Every entry is filed under its own uuid. |
| UserParticipantStore.IndexKeys | tribe-chat/src/store/userParticipantStore.js:12-16 | The map's keys are exactly the uuids of the list, so an empty list gives an empty map. |
| UserParticipantStore.IndexFromList | tribe-chat/src/store/userParticipantStore.js:13-15 | Every entry is a participant of the list, filed under its own uuid. |
| UserParticipantStore.IndexLastWins | tribe-chat/src/store/userParticipantStore.js:13-15 | The entry for a uuid is the last participant in the list that carries it. |
| UserParticipantStore.IndexByUuid | tribe-chat/src/store/userParticipantStore.js:12-15 | The `forEach` loop into a fresh object builds `Index(list)`. |
| UserParticipantStore.ParticipantsStore.constructor | tribe-chat/src/store/userParticipantStore.js:9 | The directory starts empty. |
| UserParticipantStore.ParticipantsStore.SetParticipants | tribe-chat/src/store/userParticipantStore.js:10-17 | The old map is discarded and `Index(list)` replaces it, with no merge. |
| UserParticipantStore.ParticipantsStore.FetchParticipants | tribe-chat/src/store/userParticipantStore.js:18-27 | The fetched data is indexed exactly as `SetParticipants` would index it. A failed request changes nothing. |
| ReactionBar.FirstSeen | tribe-chat/src/components/ReactionBar.js:21 | The order of the tally's entries: each emoji present once, in order of first appearance. |
| ReactionBar.FirstSeenPrefix | tribe-chat/src/components/ReactionBar.js:10-21 | The emojis of a shorter prefix of the reactions are a prefix of the chip order. So an emoji used first earlier gets its chip earlier. |
| ReactionBar.Tally | tribe-chat/src/components/ReactionBar.js:10-17 | The object the `reduce` leaves. A reaction creates its emoji's entry with 1, or increments it. `TallyCounts` states its keys and values. |
| ReactionBar.TallyCounts | tribe-chat/src/components/ReactionBar.js:10-17 | The reduce's object has exactly one key per emoji present. Its value is the number of reactions carrying that emoji. |
| ReactionBar.TallyStep | tribe-chat/src/components/ReactionBar.js:11-15 | One more reaction: a new emoji enters with 1 at the end of the keys, a known one is incremented. |
| ReactionBar.CountPositive | tribe-chat/src/components/ReactionBar.js:12 | An emoji's count is at least 1 exactly when some reaction carries it. |
| ReactionBar.TotalIsLength | tribe-chat/src/components/ReactionBar.js:10-17 | The counts of all entries add up to the number of reactions. |
| ReactionBar.GroupReactions | tribe-chat/src/components/ReactionBar.js:10-17 | The reduce, as a loop. The keys come in entry order. Each count equals the number of reactions with that emoji and is at least 1. The counts add up to `reactions.length`. |
| ReactionBar.Chips | tribe-chat/src/components/ReactionBar.js:21-30 | One chip per entry, in order. A chip shows the numeric badge exactly when the count is greater than 1. |
| ReactionBar.BadgeIffRepeated | tribe-chat/src/components/ReactionBar.js:28 | The badge shows for an emoji exactly when two different reactions carry it. |
| DateUtils.Bucket | tribe-chat/src/utils/dateUtils.js:9-28 | The floored divisions choose the branch. Under 60 s, negative included, is "just now". 1..59 minutes, 1..23 hours and 1..6 days follow. A week or more, or an unparsable date, is the calendar date. |
| DateUtils.Render | tribe-chat/src/utils/dateUtils.js:11-30 | The value each branch returns. It is the month-day rendering exactly for the calendar branch, and never the weekday rendering. |
| DateUtils.FormatRelativeTime | tribe-chat/src/utils/dateUtils.js:6-31 | `formatRelativeTime` returns `"N min ago"`, `"N hour(s) ago"` or `"N day(s) ago"`, with "s" exactly when N > 1. From a week on, and for an unparsable date, it returns the month-day rendering. It never returns the weekday rendering. |
| DateUtils.RenderedCount | tribe-chat/src/utils/dateUtils.js:17-27 | The digits before the first space read back as the bucket's number. |
| DateUtils.BucketMonotone | tribe-chat/src/utils/dateUtils.js:9-28 | A longer elapsed time never lands in a finer unit. Within one unit, it never prints a smaller number. |
| DateUtils.FormatGroupDate | tribe-chat/src/utils/dateUtils.js:38-49 | Day difference 0 is 'Today' and 1 is 'Yesterday'. A negative difference or 2..6 days gives the weekday. 7 or more days, or an unparsable date, gives the month-day rendering. |
| Decimal.Show | tribe-chat/src/utils/dateUtils.js:17 | A number in a template literal: non-empty decimal digits, with no leading zero for positive numbers. |
| Decimal.ReadShow | tribe-chat/src/utils/dateUtils.js:17 | Reading the printed digits back gives the number. |
| Decimal.ShowInjective | tribe-chat/src/utils/dateUtils.js:17 | Different numbers are printed differently. |
| ParticipantScreen.FormatLastSeen | tribe-chat/src/screens/ParticipantScreen.js:37-46 | "just now" exactly under one minute, negative included. Then `"N minutes ago"` for N in 1..59, always plural. Then `floor(minutes/60)` hours, in 1..23. Then `floor(minutes/1440)` days, at least 1. An unparsable date gives "NaN days ago". |
| ParticipantScreen.Counted | tribe-chat/src/screens/ParticipantScreen.js:43-45 | A count and its unit, never equal to "just now". |
| ParticipantScreen.Status | tribe-chat/src/screens/ParticipantScreen.js:23 | 'Online' exactly when `lastSeen` is missing or empty; otherwise "Last seen " followed by `formatLastSeen`. |
| ParticipantScreen.AvatarUri | tribe-chat/src/screens/ParticipantScreen.js:15 | The participant's avatar when it is a non-empty string, the placeholder image otherwise. |
| ParticipantScreen.SameBucketsAsRelativeTime | tribe-chat/src/screens/ParticipantScreen.js:40-45 | Below a week, the status line and `formatRelativeTime` choose the same unit and number. |
| SessionManager.AfterCheck | tribe-chat/src/api/sessionManager.js:7-11 | Afterwards `session-uuid` holds the server's uuid. Storage is unchanged when it already held it. Otherwise, absent included, storage holds that one key only. |
| SessionManager.AfterCheckIdempotent | tribe-chat/src/api/sessionManager.js:8-10 | Checking twice against the same server session gives the storage that checking once gives. |
| SessionManager.CheckAndHandleSession | tribe-chat/src/api/sessionManager.js:5-12 | Reads, compares, then clears and stores, leaving `AfterCheck(old storage, uuid)`. A failed `/info` request leaves storage alone, except a 401, which leaves it empty (api.js:34-36). |
| SessionStore.Rotates | tribe-chat/src/stores/sessionStore.ts:19 | `prevUuid && prevUuid !== sessionUuid`: a previous uuid that is present, non-empty and different from the server's. |
| SessionStore.CacheAfterInfo | tribe-chat/src/stores/sessionStore.ts:18-21 | On a rotation, 'messages' and 'participants' are removed. Otherwise storage is unchanged. No other key is touched. |
| SessionStore.FirstFetchKeepsCache | tribe-chat/src/stores/sessionStore.ts:18-19 | The first call, with no previous uuid, never clears anything. |
| SessionStore.CachedKeyRemovedIff | tribe-chat/src/stores/sessionStore.ts:19-21 | A stored cached list is removed exactly when the previous uuid is set, non-empty and different from the new one. |
| SessionStore.SessionState.constructor | tribe-chat/src/stores/sessionStore.ts:12-13 | Both fields start null. |
| SessionStore.SessionState.FetchInfo | tribe-chat/src/stores/sessionStore.ts:15-23 | Storage becomes `CacheAfterInfo(previous uuid, new uuid, storage)`. `sessionUuid` and `apiVersion` become the server's values. A failed request leaves the store unchanged. Storage is unchanged too, except after a 401, which leaves it empty (api.js:34-36). |
| MentionList.Includes | tribe-chat/src/components/MentionList.js:13 | `includes` is true exactly when the query occurs at some position of the name. |
| MentionList.Matches | tribe-chat/src/components/MentionList.js:13 | A participant matches when its lowered name includes the lowered query. |
| MentionList.FilteredParticipants | tribe-chat/src/components/MentionList.js:12-14 | A participant is kept exactly when its lowered name contains the lowered query, with its multiplicity. None is added and the result is no longer than the input. |
| MentionList.FilteredSplits | tribe-chat/src/components/MentionList.js:12-14 | The filter acts position by position, so the kept participants keep their relative order. |
| MentionList.EmptyQueryListsEveryone | tribe-chat/src/components/MentionList.js:13 | An empty query returns every participant, since every string includes the empty one. |

## Left out

- HTTP, interceptors and connectivity (`api.js`, `api.ts`, NetInfo) are out of scope. Their
  effect is a `Response` parameter: the data, or a failure carrying `isOffline` and the
  HTTP status.
- The 401 storage wipe of the response interceptor is modelled only on the two session
  actions, the ones that take a `Storage`. A 401 on any other store's request clears
  `AsyncStorage` too, but those stores' persistence is not modelled (see below).
- `offlineQueue.js` is not part of this model. It calls a `replaceMessage` that the message
  store does not define.
- Clock readings, the ISO timestamp and the `local-…` placeholder id are parameters, not
  computed.
- Date parsing is out of scope:
  - The formatters take `now - date` in milliseconds, and `None` stands for the `NaN` of an
    unparsable date.
  - The timed grouping takes `sentAt` as integer milliseconds, so its `NaN` gap, which never
    joins, is not modelled.
- Locale rendering is only named:
  - `toLocaleDateString` is the `MonthDay` and `Weekday` labels. So `formatRelativeTime` of an
    invalid date, which prints "Invalid Date", is the `MonthDay` label.
  - `formatMessageTime` (dateUtils.js:56-60) is not modelled.
  - The "Member Since" line of `ParticipantScreen.js` is not modelled.
- Persistence is out of scope: the `AsyncStorage.setItem` of the JSON lists in
  `messageStore.ts` and `participantStore.ts`, and the `persist` middleware with its
  `partialize`. Storage is modelled only where session rotation reads and writes it.
- Concurrency is out of scope:
  - `initialize` and its `Promise.all` are not modelled.
  - Each action is one atomic step, so state changes between its awaits are not modelled. That
    includes a poll merging in between `sendMessage`'s optimistic insert and its answer, or a
    message queued while `processQueue` runs.
- Rendering, navigation, bootstrapping and the module-scope call at groupMessages.js:20 are out
  of scope.
- `toLowerCase` is a parameter of the mention filter, since Unicode case mapping is not
  modelled.
- `MentionList.js` calls `useParticipantsStore` without importing it. The model takes the
  directory's values as a list parameter.
- ReactionBar.FirstSeen: assumes `Object.entries` yields keys in insertion order. JavaScript
  lists integer-like keys such as "1" first, in ascending order, and that is not modelled.
- ReactionBar.GroupReactions: keys that exist on `Object.prototype`, such as "constructor" or
  "__proto__", behave differently in the JavaScript object. That is not modelled.
- UserParticipantStore.Index: a participant whose uuid is "__proto__" would replace the
  object's prototype instead of adding an entry. That is not modelled.
- UseMessagesStore.ConfirmedReplaces: covers queues with distinct uuids whose server copies
  carry uuids outside the queue. Otherwise a later retry can overwrite the copy again. That
  case is in `Confirmed`, but no lemma states it.
- UseMessagesStore.MessagesStore.AddReaction: a message's reactions are a sequence, so a
  missing `reactions` field (`msg.reactions || []`) is the empty sequence.
- The `console.error` logging in the `catch` blocks of the store actions is not modelled. A
  failed request leaves the state unchanged, and the model states that.
- Numbers are unbounded integers. Precision loss of JavaScript numbers beyond 2^53 is not
  modelled.
- `fetchOlder`'s `beforeUuid` argument only chooses the request. The model takes the answer to
  it.
