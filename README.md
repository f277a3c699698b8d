# A verified model of the relay's store and the client's message state

The relay is a chat hub for agents and humans. The model covers two parts of it.

The server's store (`server/store.ts`) keeps one record. The record holds:
- the message log, with increasing ids and a cap of 500 messages;
- each agent's read cursor;
- each agent's joined channels;
- last-seen times;
- channel topics;
- a global briefing;
- the id counter.

Beside the record sits an in-memory registry of agents, keyed by a random five-character id. The store's operations do the following:
- post, edit and search messages;
- join and part channels;
- `sync` an agent's news and move its cursor;
- dismiss an agent, which parts its channels and bounces its undelivered direct messages;
- set topics and the briefing;
- delete channels;
- issue, resolve and rename agent identities.

The client's state (`src/state.ts`) holds a copy of the message list. On it sit:
- the derived views the UI shows: the target, channel and shell-channel names, and the messages of one target;
- the seeding of the default shell channels;
- the handling of the server's stream events;
- the colour of an agent's name;
- the rule for the display name a user picks.

Files and modules:
- `common.dfy` (`Common`): sequence, map and string-order helpers. It holds JavaScript's `Array.prototype.slice`, `filter` and default `sort`, each with its properties proved.
- `jstext.dfy` (`JsText`): JavaScript string operations (`startsWith`, `includes`, `toLowerCase` on ASCII, `trim`), `| 0` (32-bit wrap-around) and decimal rendering of numbers.
- `store_spec.dfy` (`StoreSpec`): the store's record, as datatypes. It specifies every operation as a function on the record, with the lemmas about those functions.
- `store.dfy` (`RelayStore`): the store as the class `Store`. Its fields are `data` (the record), `agents` (the registry, in insertion order) and a ghost trace `events` of what the store's event emitter publishes. Every method is proved to leave exactly the record its specification function describes, and to keep `Valid()`. `Valid()` means:
  - ids increase and stay below the counter;
  - the log is within its cap;
  - no joined list repeats a channel;
  - registry ids are distinct.
- `client_state.dfy` (`ClientState`): the client's derived views as functions with their lemmas. It also holds the class `State` with the message list, the agent list, the colour cache and the agent name.

## Model

| member | source | states |
|---|---|---|
| StoreSpec.DataValid | server/store.ts:103-125 | the record's invariant: the counter is at least 1, ids increase along the log and stay below the counter, the log holds at most 500 messages, and no joined list repeats a channel |
| RelayStore.Store.constructor | server/store.ts:116-124 | the store starts with the empty record (counter 1), an empty registry and no events, and is valid |
| StoreSpec.Evict | server/store.ts:181-185 | eviction keeps exactly the newest min(length, 500) messages, as a suffix of the log |
| StoreSpec.EvictAppend | server/store.ts:181-185 | evicting after every append leaves the same log as evicting once after all of them |
| StoreSpec.PostKeepsIds | server/store.ts:193-207 | appending a message that carries the next id keeps ids increasing and below the incremented counter, whatever eviction drops |
| StoreSpec.PostedValid | server/store.ts:193-207 | filing a message with the next id keeps the record valid, and that message is the newest in the log |
| RelayStore.Store.Post | server/store.ts:193-207 | `post` returns the old counter as the id, appends the message stamped `now` with no edit time, evicts, increments the counter, and emits exactly that message |
| RelayStore.Store.Errata | server/store.ts:209-217 | `errata` succeeds exactly when some message has the id. It then replaces the text of the first such message, stamps `modified`, and emits the edited message. Otherwise it changes nothing and emits nothing |
| StoreSpec.EditKeepsIds | server/store.ts:209-217 | an edit keeps the message's id, so the log's id order and bound survive |
| StoreSpec.SameIdSameMessage | server/store.ts:209-217 | in a log with increasing ids, two messages with the same id are the same message, so "the first with this id" is "the one with this id" |
| StoreSpec.MsgTime | server/store.ts:230 | a message's time is the later of its posting and its last edit |
| StoreSpec.News | server/store.ts:231-232 | the news are exactly the messages newer than the cursor and addressed to the agent or to one of its joined channels |
| StoreSpec.ChangedTopics | server/store.ts:235-241 | the changed topics are exactly the topics of joined channels set after the cursor, unaltered |
| StoreSpec.ChangedBriefing | server/store.ts:242-244 | the briefing is included exactly when it was updated after the cursor |
| StoreSpec.BatchMaxOfTimes | server/store.ts:245-247 | the maximum of the collected timestamps is the batch's largest timestamp (every item at most it, some item at it), and 0 for an empty batch |
| StoreSpec.ItemTimesMembers | server/store.ts:245 | the collected timestamps are exactly the timestamps of the batch's messages, topics and briefing |
| StoreSpec.BatchMaxExceedsCursor | server/store.ts:247-249 | a batch maximum exceeds the cursor, and such a batch is not empty |
| StoreSpec.SyncOutcome | server/store.ts:245-262 | the cursor moves exactly when the batch is not empty, to the batch's maximum. After the delivered direct messages are removed, the same query from the new cursor is empty |
| StoreSpec.PrivateIds | server/store.ts:253 | the removed ids are exactly the ids of the batch's messages addressed to the agent itself |
| StoreSpec.NothingNewAfterAdvance | server/store.ts:247-262 | once the cursor has advanced to a bound of the batch, a log with nothing added gives an empty batch, so an immediate second `sync` finds nothing |
| StoreSpec.EditResurfaces | server/store.ts:209-232 | an edit stamped after an agent's cursor brings a relevant message back into its news, with the new text |
| RelayStore.SelectNews | server/store.ts:225-262 | the computing part of `sync`: the batch, whether the cursor advances (exactly when the batch is not empty), the new cursor (the batch maximum, above the old cursor), and the log without the delivered direct messages |
| RelayStore.CollectTopics | server/store.ts:235-241 | the topic loop gathers exactly the changed topics of the joined channels, and their timestamps |
| RelayStore.Store.Sync | server/store.ts:225-266 | `sync` returns the batch for the agent's cursor and joined channels and always stamps the agent as seen. On a non-empty batch it moves the cursor past the old one, to the batch maximum, and deletes the delivered direct messages. Asking again at once yields an empty batch, and the store stays valid |
| RelayStore.Store.AllMessages | server/store.ts:269-271 | `allMessages` is the whole log |
| RelayStore.Store.MessagesForTarget | server/store.ts:274-276 | exactly the log's messages addressed to the target |
| StoreSpec.Recent | server/store.ts:285-297 | the join history is the newest min(n, 50) of the target's n messages, in log order, all addressed to the target |
| RelayStore.Store.Join | server/store.ts:285-297 | re-joining changes nothing and emits nothing. A first join appends the target to the agent's list (creating the list) and posts and emits one join notice. Either way the target is then joined, and the result is the target's recent history and topic |
| StoreSpec.PartedValid | server/store.ts:299-307 | parting keeps the record valid and leaves the target out of the agent's list |
| RelayStore.Store.Part | server/store.ts:299-307 | `part` removes the target's first occurrence from the agent's list and posts and emits one part notice. It does nothing when the agent has no list or the target is not in it |
| StoreSpec.PartedAllOwn | server/store.ts:309-316 | parting all of an agent's channels in order empties its list (when it has one) and files one part notice per channel, with consecutive ids |
| StoreSpec.PartedAllPrefix | server/store.ts:309-316 | after the first i turns of the part loop, exactly the first i channels are parted and the rest are still joined |
| StoreSpec.PartStep | server/store.ts:310-316 | one turn of the part loop moves the head channel from the joined list to the parted ones and files its notice |
| StoreSpec.BouncedAllClosed | server/store.ts:318-324 | bouncing a run of undelivered messages appends one failure notice per message, with consecutive ids, and evicts |
| StoreSpec.BouncesAt | server/store.ts:318-324 | the k-th failure notice has id start+k and goes back to the sender of the k-th undelivered message, prefixed "The message couldn't be delivered: " |
| StoreSpec.PartNoticesAt | server/store.ts:310-316 | the k-th part notice has id start+k and announces leaving the k-th channel |
| StoreSpec.UndeliveredMembers | server/store.ts:318 | the undelivered messages are exactly the log's messages addressed to the agent |
| StoreSpec.DismissRemovesOnlyUndelivered | server/store.ts:325-327 | removing the undelivered ids leaves none of those messages, and keeps every failure notice, since its id is newer |
| StoreSpec.RemovalLeavesNotices | server/store.ts:318-327 | after the bounces and the removal, only old messages and notices remain, none of the undelivered messages is left, and the only messages addressed to the agent are its notices |
| StoreSpec.DismissedContents | server/store.ts:309-344 | after `dismiss`, every message comes from the old log or is one of its notices, no undelivered message is left, and every message still addressed to the dismissed agent is one of its failure notices |
| StoreSpec.DismissedValid | server/store.ts:309-344 | the record `dismiss` leaves is valid again |
| StoreSpec.DismissedSteps | server/store.ts:309-331 | both loops of `dismiss` followed by the removal and the deletion of the agent's entries give the record `Dismissed` describes |
| RelayStore.DismissData | server/store.ts:309-331 | what `dismiss` does to the record is `Dismissed` |
| RelayStore.PartAll | server/store.ts:310-316 | the part loop's result, both as the fold of `part` and in closed form |
| RelayStore.BounceAll | server/store.ts:318-324 | the failure-notice loop's result, both as the fold of `post` and in closed form |
| RelayStore.DeleteFirstNamed | server/store.ts:334-340 | the registry scan deletes the first entry with the name and stops, or deletes nothing |
| StoreSpec.RemoveFirstNamedKeeps | server/store.ts:334-340 | deleting that entry keeps registry ids distinct, removes exactly one entry when some entry has the name, and leaves nobody under it when names were distinct |
| RelayStore.Store.Dismiss | server/store.ts:309-344 | `dismiss` leaves the record `Dismissed` and the registry without its first entry of that name. It emits the part notices, then the failure notices, then the registry, and stays valid |
| RelayStore.Store.GetUsers | server/store.ts:346-354 | one entry per agent whose joined list holds the target, each with its last-seen time when it has one, with no name twice |
| RelayStore.Store.GetAllAgents | server/store.ts:356-361 | one entry per name with a last-seen time, with that time, with no name twice |
| StoreSpec.McpAgentsOf | server/store.ts:364-370 | the registry in insertion order, each entry with its name's last-seen time |
| StoreSpec.ContextWindow | server/store.ts:372-378 | `context` returns a contiguous stretch of the log, and nothing when no message has the id |
| StoreSpec.ContextFound | server/store.ts:372-378 | for a message that is there, the window runs from `before` ahead of it to `after` behind it, clipped to the log, and holds the message |
| RelayStore.Store.Context | server/store.ts:372-378 | with 5 either side when a count is not given, `context` returns a contiguous stretch of the log. That stretch is empty when no message has the id, and holds the message when one has it and both counts are non-negative |
| StoreSpec.HitsMembers | server/store.ts:390-397 | a message is a hit exactly when it passes every given, non-empty filter: exact target, exact sender, case-insensitive substring of the text |
| StoreSpec.SearchIsNewestFirst | server/store.ts:380-399 | `search` returns at most `limit` messages of the log, each passing every filter, in decreasing id order |
| StoreSpec.ScanComplete | server/store.ts:389-398 | when the backward scan stops, with the log read or `limit` hits found, it has collected the first `limit` hits of the log read newest first |
| RelayStore.SearchLog | server/store.ts:389-398 | the backward scan returns `SearchResult` |
| RelayStore.Store.Search | server/store.ts:380-399 | `search` returns the first `limit` (20 by default) hits of the log read newest first |
| RelayStore.Store.SetTopic | server/store.ts:401-407 | the topic stamped with the setter and `now` replaces the target's topic, and is emitted |
| RelayStore.Store.GetTopic | server/store.ts:409-411 | the target's topic when it has one, none otherwise |
| RelayStore.Store.GetBriefing | server/store.ts:413-415 | the current briefing |
| RelayStore.Store.SetBriefing | server/store.ts:417-423 | the briefing stamped `now` replaces the old one, and is emitted |
| StoreSpec.WithoutTarget | server/store.ts:425-427 | exactly the messages not addressed to the deleted channel remain |
| StoreSpec.RemovedEverywhere | server/store.ts:428-433 | every joined list loses the channel's first occurrence, the agents stay the same, and lists without repeats no longer hold the channel |
| RelayStore.RemoveFromEveryList | server/store.ts:428-433 | the loop over the joined lists gives `RemovedEverywhere` |
| RelayStore.Store.DeleteChannel | server/store.ts:425-436 | `deleteChannel` drops the channel's messages, takes it out of every joined list, deletes its topic, emits the deletion, and afterwards nobody has joined it |
| StoreSpec.ChannelListing | server/store.ts:438-451 | the channel list is sorted by name with no name twice. It names exactly the '#'-targets of the log, and gives each its topic text and the number of agents that have joined it |
| RelayStore.Store.GetAllChannels | server/store.ts:438-451 | the channel list of the store's record is sorted by name with no name twice. It names exactly the '#'-targets of the log, and gives each its topic text and the number of agents that have joined it |
| StoreSpec.FreshIdExists | server/store.ts:36-41 | while fewer than 36^5 ids are taken, some five-character id over the alphabet is free, so the retry loop can stop |
| StoreSpec.IdOfInjective | server/store.ts:36-41 | distinct numbers below 36^5 give distinct five-character ids, which the pigeonhole argument needs |
| RelayStore.Store.GenerateId | server/store.ts:36-41 | `generateId` returns the first draw no registered agent uses, which is well-formed and free |
| RelayStore.WelcomeCanSucceed | server/store.ts:36-51 | with fewer than 36^5 registered agents, a free id exists |
| RelayStore.Store.Welcome | server/store.ts:43-51 | `welcome` registers a fresh id under the name "anon-<id>", marks that name as seen, returns the id with the current briefing, and emits the registry |
| RelayStore.Store.SetAgentName | server/store.ts:53-88 | an unknown id and a name taken by another agent give their two error results and change nothing. Otherwise the rename succeeds. When the name differs, the cursor, joined list and last-seen time move from the old name to the new one, and the registry is emitted. Distinct names stay distinct |
| StoreSpec.RenameKeepsDistinct | server/store.ts:60-66 | a rename the uniqueness scan lets through keeps registry ids, and names when they were distinct, distinct |
| StoreSpec.Migrate | server/store.ts:71-82 | the entry under the old name, if any, moves to the new name and leaves the old; with no entry nothing changes |
| RelayStore.Store.ResolveAgent | server/store.ts:90-92 | the registered name for an id, exactly when the id is registered |
| RelayStore.Store.GetAgent | server/store.ts:94-96 | the registry entry with the id, exactly when there is one |
| RelayStore.Store.RemoveAgent | server/store.ts:98-101 | the registry loses the entry with the id, nothing else, and is emitted |
| ClientState.TargetNamesExact | src/state.ts:67-72 | the target names are strictly sorted and are exactly the targets of the messages |
| ClientState.MessagesForTargetExact | src/state.ts:75-79 | exactly the messages addressed to the target, no more than there are messages |
| ClientState.ChannelNamesExact | src/state.ts:82-87 | the channel names are strictly sorted and are exactly the '#'-prefixed targets of the messages |
| ClientState.ShellChannelNamesExact | src/state.ts:90-92 | the shell channel names are strictly sorted and are exactly the '$'-prefixed targets of the messages |
| Common.SortedDistinct | src/state.ts:70-71 | `[...new Set(xs)].sort()` is strictly sorted and holds exactly the elements of `xs` |
| Common.FilterKeepsStrictlySorted | src/state.ts:91 | filtering a strictly sorted list keeps it strictly sorted |
| ClientState.SeedStepShape | src/state.ts:98-108 | one pass of the seeding loop keeps the list in front and adds at most that channel's welcome message from "system" |
| ClientState.SeededKeeps | src/state.ts:95-110 | seeding keeps the existing messages unchanged in front, adds at most one message per default channel, and each added message is from "system" to one of them |
| ClientState.SeededCovers | src/state.ts:95-110 | after seeding, each default channel is the target of some message |
| ClientState.SeededTwice | src/state.ts:95-110 | seeding an already seeded list changes nothing |
| ClientState.SeedChannels | src/state.ts:97-109 | the loop gives `Seeded` |
| ClientState.State.EnsureDefaultShellChannels | src/state.ts:95-110 | the message list becomes `Seeded` of the old list over `$dev`, `$test`, `$build` |
| ClientState.IndexOfId | src/state.ts:274 | `findIndex` by id: -1 exactly when no message has the id, otherwise the first index with it |
| ClientState.UpsertedShape | src/state.ts:273-276 | a message with a known id replaces the first message with that id in place: same length, other entries untouched. A message with a new id is appended. Either way it is then in the list |
| ClientState.UpsertedIdempotent | src/state.ts:273-276 | receiving the same message twice has the effect of receiving it once |
| ClientState.State.HandleEvent | src/state.ts:264-286 | a snapshot replaces the message list, a single message is upserted, an agent list replaces the agents, and the other events change neither |
| JsText.Int32 | src/state.ts:296 | a bitwise or with 0 turns x into the one value in [-2^31, 2^31) congruent to x modulo 2^32 |
| ClientState.NameHash | src/state.ts:294-297 | the hash after the loop is a 32-bit signed value |
| ClientState.ColorInPalette | src/state.ts:298-299 | every colour is `hsl(<hue>, 70%, 65%)` for one of the ten palette hues |
| ClientState.ColorNonEmpty | src/state.ts:293 | a computed colour is never empty, so a cached one is always returned |
| ClientState.State.AgentColor | src/state.ts:292-302 | a cached colour is returned unchanged. Otherwise the hash loop's result picks the hue and the colour is cached. Either way the colour is the name's computed colour and the cache holds only computed colours |
| ClientState.ChosenNameRule | src/state.ts:127-129 | the chosen name is "human" exactly when the typed name is all white space, and otherwise the trimmed name. It never starts or ends with white space |
| JsText.TrimSlice | src/state.ts:128 | `trim` returns a stretch of the string with only white space cut off at either end |
| ClientState.State.constructor | src/state.ts:44-53 | the client starts with no messages, no agents, an empty colour cache and the stored agent name or "human"; the cache holds only computed colours |
| ClientState.State.SetAgentName | src/state.ts:127-131 | the agent name becomes the chosen name |

## Behaviour worth noting

- `dismiss` deletes from the registry only the first entry with the dismissed name, then stops scanning (server/store.ts:334-340).
- The failure notice `dismiss` sends back reads "The message couldn't be delivered: " followed by the original text (server/store.ts:320).
- `agentColor` tests its cache by JavaScript truthiness, so a cached empty string would count as absent (src/state.ts:293). No computed colour is empty (`ColorNonEmpty`), so a cached colour is always returned.

## Left out

- Persistence: `load`, `save`, `setDataDir` and `init` use the file system and JSON. The model keeps the record in memory only. It also leaves out the migration of old stored documents that `load` performs.
- The event emitter: the store's `storeEvents.emit` calls are recorded in the ghost trace `events`. Subscribers and delivery are not modelled.
- Time: `Date.now()` is the parameter `now`. `dismiss` and `ensureDefaultShellChannels` take one reading for all their messages, though the code reads the clock once per message.
- Randomness: `Math.random` in `generateId` is the sequence of draws `GenerateId` receives. It must hold a free id; with fewer than 36^5 agents one exists (`WelcomeCanSucceed`).
- RelayStore.Store.GetUsers: the order of `Object.entries` is not modelled; the result is stated as a duplicate-free set of entries.
- RelayStore.Store.GetAllAgents: the order of `Object.keys` is not modelled either.
- StoreSpec.ChannelListing: `localeCompare` is replaced by the code-unit order of the default `sort`.
- Strings are sequences of Unicode scalar values; the code works on UTF-16 code units. `charCodeAt` in the hash and the sort order agree with the model for text within the Basic Multilingual Plane only.
- `toLowerCase` in `search` is modelled for ASCII letters only.
- Objects used as dictionaries are maps. Keys such as `__proto__` or `constructor`, which a plain JavaScript object treats specially, are not modelled.
- The network wrappers of `src/state.ts` (`api(...)`, `fetchMessages`, `deleteChannel` and the rest) are not modelled. Neither are `localStorage`, except for the stored name the constructor receives, `formatTimestamp` and the reactive framework.
- ClientState.State.HandleEvent: the `'topic'`, `'briefing'` and `'channelDeleted'` events leave the client's message state alone, as `subscribeAll` ignores them. The stream's connection handling and error callback are not modelled.
- StoreSpec.Kind: the store stores a message's `type` but never reads it. The model's server message kind is therefore the closed set text, action, join and part. A `type` the route passes through unchecked, such as a shell kind or `null`, is not modelled. Modelling it would change nothing the store computes. `post`'s default `type` of text is the caller passing `Text`.
- Integer width: ids, counters and timestamps are unbounded naturals. The code's doubles are exact well beyond the values the relay reaches.
