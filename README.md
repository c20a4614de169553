# Long-term memory layer of a chat application, in Dafny

This project models the long-term memory layer of a chat application, together with the small pure helpers around it.

- Finished conversations are *finalized*. They are then folded into a per-user **rolling summary**, which is capped at 8000 characters and versioned, with its history archived.
- **Distilled memories** come in tiers: tier 1 is recent sessions and tier 2 is weekly patterns. They are stored, and read newest first.
- A budgeted **memory context** of at most three sections is assembled for the system prompt.
- Past messages are found by **hybrid search**. It merges full-text hits and embedding similarity by **Reciprocal Rank Fusion** (RRF, k = 60).
- An **embedder** loads a feature-extraction pipeline at most once. It slices the pipeline's flat output into 384-wide vectors and stores vectors as JSON text.
- A finished **agent task** is reported into memory as a synthetic chat.
- **Model ids** are routed to a provider. The **model catalogue** is grouped by provider.

Each source file becomes one module:

| module | file | form |
|---|---|---|
| `Rank` | rank.dfy | `CosineSimilarity` and `RrfMerge` are methods with loops. Each is proved equal to a specification function, and the RRF properties are lemmas about that function. |
| `Memory` | memory.dfy | Truncation and text extraction are functions. Summarization is a pair of methods over the store. |
| `MemoryContext` | memory_context.dfy | `AssembleContext` is an imperative method with `parts` and `remaining`, proved equal to the function `Context`. |
| `Search` | search.dfy | Functions over input sequences: full-text rows, stored embeddings, and a detail lookup. |
| `Embedder` | embedder.dfy | A class `Loader` with the three load flags. Slicing and the JSON round trip are functions. |
| `Queries` | queries.dfy | A class `Store` with one `seq` field per table. Mutators are methods that state the whole new state through `Snapshot()`. Readers are functions. |
| `Schema` | schema.dfy | Record shapes. |
| `Feedback` | feedback.dfy | The transcript text is a function. Reporting is a method over the store. |
| `Providers` | providers.dfy | Pure functions. |
| `Models` | models.dfy | The catalogue is a constant. The grouping `reduce` is a method with a loop. |

Two further modules hold helpers:

- `Common`: Option, and JavaScript `slice`/`join`/`filter`/`find`/`startsWith`/`endsWith`/`includes`.
- `Sorting`: a stable descending sort, proved sorted, a permutation and stable. It stands for `Array.prototype.sort` with a `b - a` comparator, and for SQL `ORDER BY … DESC` with ties in storage order.

The following become parameters:

- clocks: `now`;
- generated UUIDs;
- the language-model call: `generate`, which returns `None` where the call throws;
- the full-text engine's outcome: `None` where the query throws;
- the message-detail lookup;
- the embedding runtime: the load outcome and a `run` function;
- `Math.exp`.

## Model

| member | source | states |
|---|---|---|
| Rank.CosineSimilarity | lib/memory/rank.ts:5-17 | Without a boost, the loop returns Σ a[i]·b[i] over a's indices. With a boost, it returns that sum times e^(−decay·ageDays), with decay defaulting to 0.05. |
| Rank.DotSymmetric | lib/memory/rank.ts:10-11 | On vectors of equal length, the dot product does not depend on argument order. |
| Rank.DotPrefix | lib/memory/rank.ts:11 | Only the first \|a\| entries of b contribute. |
| Rank.EmptyVectorScoresZero | lib/memory/rank.ts:10-16 | An empty query vector scores 0 against any vector, boosted or not. |
| Rank.FreshItemUnboosted | lib/memory/rank.ts:12-15 | With ageDays = 0 the recency factor is 1, so the plain dot product is returned. |
| Rank.YoungerScoresHigher | lib/memory/rank.ts:12-15 | Take a positive dot product, a positive decay and an increasing exp. Then a younger item scores strictly higher than an older one. |
| Rank.RrfMerge | lib/memory/rank.ts:24-46 | The two `forEach` loops over the score and item maps, then the sort/slice/map, produce exactly the specification `Fused`. |
| Rank.EnterAllScore | lib/memory/rank.ts:33-40 | After a loop, an id's score is its prior score plus Σ 1/(k+rank+1) over its occurrences in the list. An id has a score iff it was scored before or occurs in the list. |
| Rank.EnterAllItem | lib/memory/rank.ts:35-39 | After a loop, the item held for an id is the last list entry with that id. If the list has none, the id already had an item. |
| Rank.EnterAllOrder | lib/memory/rank.ts:30-38 | The score map's key order is the first-occurrence order of the entered ids. |
| Rank.AccumulateScore | lib/memory/rank.ts:33-40 | After both loops, each id's score is its closed-form fused score. An id is a key iff it occurs in either list. |
| Rank.AccumulateOrder | lib/memory/rank.ts:30-40 | The key order is full-text ids in first-occurrence order, followed by ids seen only in the vector list. The scores have closed form. |
| Rank.FusedDistinct | lib/memory/rank.ts:30-45 | No id is returned twice, and the i-th returned item carries the i-th returned id. |
| Rank.FusedFromInputs | lib/memory/rank.ts:33-40 | Every returned id occurs in the full-text list or the vector list. |
| Rank.FusedLength | lib/memory/rank.ts:42-44 | The result has min(limit, number of distinct ids across both lists) entries. |
| Rank.FusedSorted | lib/memory/rank.ts:42-43 | The returned ids are in non-increasing order of fused score. |
| Rank.FusedTiesInInsertionOrder | lib/memory/rank.ts:33-44 | For every score value, the returned ids with that score are a prefix of the ids with that score in insertion order. |
| Rank.FusedItemChoice | lib/memory/rank.ts:35-45 | An id present in the vector list is returned as its last vector-list entry. Otherwise it is returned as its last full-text entry. |
| Rank.ExampleFirstTwo | lib/memory/rank.ts:33-35 | For distinct ids, the first two full-text entries a, b are keyed in that order with scores 1/61 and 1/62, and c, d are unscored. |
| Rank.ExampleFullText | lib/memory/rank.ts:33-35 | For distinct ids, the full-text loop over [a,b,c] keys a, b, c in that order with scores 1/61, 1/62, 1/63, and leaves d unscored. |
| Rank.ExampleMaps | lib/memory/rank.ts:33-40 | Adding the vector loop over [b,d] makes the key order a, b, c, d. The scores become a: 1/61, b: 1/61 + 1/62, c: 1/63 and d: 1/62. |
| Rank.ExampleSort | lib/memory/rank.ts:42-43 | Under those scores the stable descending sort gives b, a, d, c. |
| Rank.WorkedExample | lib/memory/rank.ts:24-45 | For any four distinct ids, merging [a,b,c] with [b,d], limit 3 and k = 60, gives [b,a,d]. |
| Sorting.SortDescSorted | lib/memory/rank.ts:42-43 | The stable sort yields a non-increasing sequence. |
| Sorting.SortDescStable | lib/memory/rank.ts:43 | For every key value, the elements with that key keep their relative order. |
| Sorting.AllEqualKeysUnchanged | lib/memory/search.ts:74 | When every key is equal, the sort leaves the sequence as it is. |
| Sorting.TopOfSorted | lib/db/queries.ts:717-736 | `ORDER BY … DESC LIMIT n` returns a sorted subset of the input. Every row left out ranks no higher than every row returned, and a short result contains every row. |
| Memory.TruncateAtSentence | lib/ai/memory.ts:13-20 | The result is a prefix of the text of length ≤ maxLen, and is the whole text when that fits. A shortened result either has exactly maxLen characters, or ends in '.' or '\n' at an index above maxLen/2. |
| Memory.TruncateAtLastBreak | lib/ai/memory.ts:15-19 | If the last '.'/'\n' in the first maxLen characters is at index i > maxLen/2, the result is text[0..i] inclusive. |
| Memory.TruncateHardCut | lib/ai/memory.ts:15-19 | If no such break lies above maxLen/2, an over-long text is cut to exactly maxLen characters. |
| Memory.TextsOfMembers | lib/ai/memory.ts:25-29 | The extracted texts are exactly the text fields of parts with type "text" and a string text. There are at most as many texts as parts. |
| Memory.TextsOfAppend | lib/ai/memory.ts:25-29 | The filter/map over the parts preserves order: it distributes over concatenation. |
| Memory.SingleTextPart | lib/ai/memory.ts:23-31 | A single text part extracts to exactly its text. |
| Memory.ExtractTextFromParts | lib/ai/memory.ts:23-31 | A nullish value extracts to "". A part list extracts to its texts joined by newlines: each text part's text occurs in it, and its length is the texts' total plus one per separator. |
| Memory.TranscriptSnoc | lib/ai/memory.ts:47-49 | The transcript is the `[role] text` lines in message order, joined by "\n". |
| Memory.SummaryContentCapped | lib/ai/memory.ts:44-71 | A chat without messages stores nothing. Anything stored is a prefix of the model's text of length ≤ 8000. |
| Memory.SummarizeChat | lib/ai/memory.ts:37-72 | Nothing changes when the chat has no messages or the model call fails. Otherwise the summary tables become the versioned upsert of the capped text, the user has a summary of ≤ 8000 characters, and no other table changes. |
| Memory.FinalizedAndSummarized | lib/ai/memory.ts:78-93 | The chats table is finalized and messages, votes, streams, distilled entries and agent tasks are kept. Without a fresh transition nothing changes, and summary history only grows. |
| Memory.FinalizeChatAndSummarize | lib/ai/memory.ts:78-93 | The new tables are exactly `FinalizedAndSummarized` of the old ones. Summarization runs only on a fresh transition, and a failed summarization changes only the chats table. |
| MemoryContext.SummaryStep | lib/ai/memory-context.ts:27-35 | A summary section that fits goes in whole and is charged to the budget. Otherwise its content is cut to budget−25 characters and the remaining budget becomes 0. |
| MemoryContext.SummaryPart | lib/ai/memory-context.ts:24-35 | At most one section, starting with the summary heading. The budget left is non-negative, and the section's length plus that budget is at most 4000. |
| MemoryContext.PushSummary | lib/ai/memory-context.ts:24-35 | The imperative summary block leaves `parts` and `remaining` equal to `SummaryPart`. |
| MemoryContext.TierStep | lib/ai/memory-context.ts:38-58 | A tier section is emitted iff more than 100 characters remain and there are entries. A section that does not fit is cut to exactly the remaining budget, which drops to 0. |
| MemoryContext.PushTier | lib/ai/memory-context.ts:38-58 | The imperative tier block appends `TierStep`'s section when there is one, and sets `remaining` to `TierStep`'s budget. |
| MemoryContext.AssembleContext | lib/ai/memory-context.ts:20-60 | The imperative assembly with `parts` and `remaining` returns exactly `Context`. |
| MemoryContext.BuildMemoryContext | lib/ai/memory-context.ts:9-18 | It reads at most 5 tier-1 and at most 3 tier-2 entries, newest first, and assembles them with the user's summary. |
| MemoryContext.ContextWithinBudget | lib/ai/memory-context.ts:3-60 | There are at most three sections, and their lengths sum to ≤ 4000. The joined string is ≤ 4000 + 2·(sections−1). |
| MemoryContext.SectionsWithinBudget | lib/ai/memory-context.ts:20-58 | There are at most three sections, and their lengths add up to at most 4000. |
| MemoryContext.ContextNoneIff | lib/ai/memory-context.ts:20-60 | The result is undefined exactly when there is no non-empty summary and neither tier has an entry. |
| MemoryContext.SectionsInOrder | lib/ai/memory-context.ts:27-58 | Each section starts with its heading, and the sections come in the order Rolling Summary, Recent Sessions, Weekly Patterns. |
| MemoryContext.HeadingSurvivesCut | lib/ai/memory-context.ts:33-56 | A cut section at least as long as its heading still starts with the heading. |
| Search.FtsRows | lib/memory/search.ts:31-55 | A throwing query gives no rows. Otherwise the rows are the prefix of the result of length min(2·limit, rows returned). |
| Search.ScoreAll | lib/memory/search.ts:65-73 | Each stored embedding is scored once, in storage order, under its own message id. |
| Search.VecCandidates | lib/memory/search.ts:65-75 | Exactly min(2·limit, stored) scored embeddings, in non-increasing score order. No embedding left out scores above a returned one. |
| Search.DetailFor | lib/memory/search.ts:85-91 | The detail found carries the id. There is none exactly when the lookup returned no row with that id. |
| Search.HydrateKeepsOrder | lib/memory/search.ts:89-103 | The results are exactly the merged ids that have a detail, in merged order, with the detail's fields. |
| Search.SnippetChoice | lib/memory/search.ts:93-99 | A full-text hit supplies its snippet. Otherwise the snippet is the first ≤ 120 characters of the content. |
| Search.SearchShape | lib/memory/search.ts:23-104 | At most limit results. Their ids are the fused ids that have a detail, in fused order, and the fused ids are distinct. |
| Search.SearchMemoryHybrid | lib/memory/search.ts:23-104 | At most limit results with distinct ids. Each result is a full-text hit or a message with a stored embedding. |
| Search.HydratedWellFormed | lib/memory/search.ts:77-104 | Hydrating the fused ids yields at most limit results with distinct ids, each a full-text hit or a stored embedding. |
| Search.HydrateIds | lib/memory/search.ts:89-103 | Every hydrated result carries a merged id. |
| Search.HydrateDistinct | lib/memory/search.ts:89-103 | Distinct merged ids give results with distinct ids. |
| Search.MergedFromInputs | lib/memory/search.ts:31-83 | Every fused id is a full-text hit or the id of a stored embedding. |
| Search.FtsIdsAreHits | lib/memory/search.ts:57-79 | The ids of the full-text rows passed to the merge are full-text hits. |
| Search.ScoredIdsAreStored | lib/memory/search.ts:65-80 | The ids of the semantic candidates passed to the merge belong to stored embeddings. |
| Search.ScoredFromEmbedding | lib/memory/search.ts:65-73 | A scored candidate carries the message id of a stored embedding. |
| Search.FtsFailureIsNoHits | lib/memory/search.ts:52-54 | A throwing full-text query gives the same result as one with no rows. |
| Search.EmptyQueryVectorKeepsStorageOrder | lib/memory/search.ts:60-75 | With an empty query vector, the semantic candidates are the first 2·limit stored embeddings in storage order. |
| Search.EqualScoresKeepOrder | lib/memory/search.ts:65-75 | When every embedding scores 0, the stable sort keeps storage order, so the best 2·limit are the first 2·limit stored ids. |
| Search.EmptyQueryScoresZero | lib/memory/search.ts:65-73 | With an empty query vector, every stored embedding scores 0. |
| Embedder.Loader.constructor | lib/memory/embedder.ts:8-10 | No pipeline, no attempt made, not available. |
| Embedder.Loader.GetPipeline | lib/memory/embedder.ts:12-30 | Loading is attempted only on the first call. Later calls return the cached outcome and change nothing. A failed load leaves the embedder unavailable for good. |
| Embedder.Loader.IsEmbedderAvailable | lib/memory/embedder.ts:33-35 | Loading has been attempted afterwards. A second call returns the cached availability and changes nothing. A first call returns whether `load` produced a pipeline, and caches it. |
| Embedder.Loader.Embed | lib/memory/embedder.ts:41-49 | No texts gives no vectors and leaves the loader untouched. Otherwise loading has been attempted. On a first call the cached pipeline is `load`'s; later calls keep it. Without a pipeline, each text gets an empty vector. Otherwise vector i is the i-th 384-wide window of the output. |
| Embedder.WindowsCover | lib/memory/embedder.ts:46-48 | On a buffer of n·384 numbers, each vector is exactly data[i·384 .. (i+1)·384), and the vectors laid end to end give the buffer back. |
| Embedder.WindowsPastEnd | lib/memory/embedder.ts:48 | Windows past the end of a short buffer are empty. |
| Embedder.SplitJoin | lib/memory/embedder.ts:52-59 | Splitting a comma-join of comma-free pieces gives the pieces back. |
| Embedder.RoundTrip | lib/memory/embedder.ts:51-59 | Deserializing a serialized vector gives the vector back, for any number printer/parser pair that round-trips. |
| Queries.FinalizeTransition | lib/db/queries.ts:635-646 | The flag is true exactly when no chat with the id is already finalized. Other chats and keys are unchanged. |
| Queries.FinalizeUnknownChat | lib/db/queries.ts:636-645 | An unknown id reports a transition and changes no row. |
| Queries.FinalizeMarks | lib/db/queries.ts:640-644 | Afterwards the chat carries a finalization time. No chat appears or disappears, and only `finalizedAt` changes. |
| Queries.FinalizeMarksAll | lib/db/queries.ts:636-644 | With unique chat ids, every chat with the id carries a finalization time afterwards, whether or not the call made the transition. |
| Queries.FinalizeKeepsIds | lib/db/queries.ts:640-644 | The update keeps the table's length, changes each row at most in `finalizedAt`, and a chat with the id exists afterwards iff it existed before. |
| Queries.FinalizeTwice | lib/db/queries.ts:635-646 | An immediate second finalize of an existing chat returns false and changes nothing. |
| Queries.SummaryOf | lib/db/queries.ts:662-672 | A row found belongs to the user and is in the table. None means the user has no row. |
| Queries.ReplaceKeepsOthers | lib/db/queries.ts:696-713 | Replacing the user's row leaves every row of another user where it was: present after iff present before. |
| Queries.UpsertKeyed | lib/db/queries.ts:675-714 | The upsert keeps every key unique, and afterwards the user's summary holds the new content. |
| Queries.UpsertSummary | lib/db/queries.ts:675-714 | Afterwards the user has exactly one summary row, holding the new content with version = old version + 1 (null counts as 0). Other users' rows are unchanged. |
| Queries.UpsertArchive | lib/db/queries.ts:682-700 | The previous (version, content) is appended to the history exactly when a summary existed. |
| Queries.Paginate | lib/db/queries.ts:177-237 | Exactly min(limit, matching) chats, newest first, from the matching rows. `hasMore` holds iff more than limit rows matched, and no row left out is newer than a returned one. |
| Queries.VoteUpdate | lib/db/queries.ts:306-310 | The update sets the direction of the vote on the (chatId, messageId) pair, if there is one, and creates none. |
| Queries.VoteLostExample | lib/db/queries.ts:301-315 | As written: a vote on message m in chat c2 is lost when m already has a vote in chat c1. |
| Queries.VotedByPairRecords | lib/db/queries.ts:301-315 | With the lookup on the whole key, exactly one vote exists for the pair afterwards, with the requested direction, and votes on other pairs are unchanged. |
| Queries.Dedup | lib/db/queries.ts:785-790 | `SELECT DISTINCT`: each value once, and exactly the values present. |
| Queries.Store.constructor | lib/db/schema.ts:24-220 | All tables empty. |
| Queries.Store.SaveChat | lib/db/queries.ts:89-113 | Inserts a chat that is active now and not finalized. A duplicate id fails with `bad_request:database` and changes nothing. No other table changes. |
| Queries.WithoutChat | lib/db/queries.ts:115-124 | Exactly the chats with another id remain, along with the votes, messages and streams of other chats. The memory tables are untouched. |
| Queries.ChatDeletionKeyed | lib/db/queries.ts:115-124 | Deleting a chat with its dependants keeps every key unique. |
| Queries.Store.DeleteChatById | lib/db/queries.ts:115-132 | The tables become `WithoutChat` of the old ones, and the deleted row returned is the old row with that id, if any. |
| Queries.WithoutUserChats | lib/db/queries.ts:136-155 | Exactly the chats of other users remain. A vote, message or stream remains iff its chat is not one the user owned. The memory tables are untouched. |
| Queries.NoChatsOfUser | lib/db/queries.ts:136-143 | When the user owns no chat, the early return is the same as deleting: no table changes. |
| Queries.DeletionKeepsUnique | lib/db/queries.ts:136-155 | Deleting a user's chats with their dependants keeps every key unique. |
| Queries.Store.DeleteAllChatsByUserId | lib/db/queries.ts:134-163 | The tables become `WithoutUserChats` of the old ones, and the count returned is the number of the user's chats. |
| Queries.Store.TouchChat | lib/db/queries.ts:614-632 | Sets `lastActivityAt` to now and grows the message count (a null count counts as 0). Only that chat changes. |
| Queries.Store.FinalizeChat | lib/db/queries.ts:635-646 | The new chats table and the flag are `Finalize` of the old table. Nothing else changes. |
| Queries.Store.GetIdleUnfinalizedChats | lib/db/queries.ts:649-659 | Exactly the unfinalized chats whose `lastActivityAt` is non-null and strictly before now − idleMinutes·60000. |
| Queries.Store.CursorBound | lib/db/queries.ts:177-224 | A cursor naming no chat is `bad_request:database`. `startingAfter` takes precedence over `endingBefore`. |
| Queries.Store.Matching | lib/db/queries.ts:182-224 | The user's chats that satisfy the strict cursor bound. |
| Queries.Store.GetChatsByUserId | lib/db/queries.ts:165-239 | It fails iff a given cursor names no chat, and the error is `bad_request:database`. Otherwise it returns `Paginate` of the matching chats, with `gt`/`lt` bounds: min(limit, matching) of them. |
| Queries.Store.GetAllUserIds | lib/db/queries.ts:785-790 | Every user id that owns a chat, each exactly once. |
| Queries.Store.SaveMessages | lib/db/queries.ts:254-260 | Appends the batch, or rejects it whole on any duplicate id. No other table changes. |
| Queries.Store.GetMessagesByChatId | lib/db/queries.ts:276-289 | Exactly the chat's messages, as a permutation of them in ascending `createdAt` order. |
| Queries.ChatMessages | lib/db/queries.ts:276-289 | Exactly the chat's messages, as a permutation of them in ascending `createdAt` order. |
| Queries.Store.VoteMessage | lib/db/queries.ts:291-320 | The votes table becomes `Voted` of the old one, as written. Any vote on the pair afterwards has the requested direction. A vote on the pair exists iff one existed or the message had no vote at all. |
| Queries.NothingLate | lib/db/queries.ts:478-490 | With no message of the chat at or after the timestamp, keeping the messages that are not late keeps them all. |
| Queries.LateByIdIsLate | lib/db/queries.ts:478-500 | With unique message ids, a message is matched by the chat and the collected ids exactly when it is itself late. |
| Queries.LateDeletionKeyed | lib/db/queries.ts:478-500 | Deleting the late messages and their votes keeps every key unique. The messages left are exactly those that are not late. |
| Queries.Store.DeleteMessagesByChatIdAfterTimestamp | lib/db/queries.ts:470-508 | Removes the chat's messages created at or after the timestamp, and their votes. Nothing else changes. |
| Queries.Store.GetMemorySummary | lib/db/queries.ts:662-672 | The user's summary row, and None exactly when there is none. |
| Queries.Store.UpdateMemorySummary | lib/db/queries.ts:675-714 | The summary tables become `Upsert` of the old ones, the user's summary holds the new content, and no other table changes. |
| Queries.Store.GetDistilledMemory | lib/db/queries.ts:717-736 | Only the user's rows (of the tier when given), newest first, min(limit, matching) of them. Every left-out row is no newer than a returned one. |
| Queries.InTierRows | lib/db/queries.ts:717-736 | The rows are exactly the user's, and of the tier when one is given. |
| Queries.Store.InsertDistilledMemory | lib/db/queries.ts:739-752 | Inserts the entry created now. A duplicate id fails with the driver's constraint error and changes nothing. |
| Queries.Store.DeleteDistilledMemoryByIds | lib/db/queries.ts:755-758 | Removes exactly the listed ids, in place, and an empty list is a no-op. |
| Queries.Store.GetFinalizedChatsForDistillation | lib/db/queries.ts:761-782 | Exactly the ids of the user's chats finalized strictly before now − olderThanMs and not already a distillation source. |
| Queries.Store.CreateAgentTask | lib/db/queries.ts:799-816 | Inserts a queued task created now. A duplicate id fails with the driver's constraint error and changes nothing. |
| Queries.Store.UpdateAgentTask | lib/db/queries.ts:830-844 | The given fields replace the old ones and `updatedAt` becomes now. Only that task changes. |
| Feedback.AgentChatId | lib/agent/feedback.ts:12 | The linked chat id when there is one, even an empty one. Otherwise "agent-" followed by the task id. |
| Feedback.AgentChatTitle | lib/agent/feedback.ts:18 | "Agent: " followed by a prefix of the input of at most 50 characters, which is the whole input when it is that short. |
| Feedback.AgentTranscriptShape | lib/agent/feedback.ts:30 | The text opens with the input and status. A non-empty result follows immediately and a non-empty error closes it. With neither, the header is the whole text. |
| Feedback.AgentMessage | lib/agent/feedback.ts:34-45 | One assistant message in the chat, whose parts extract to exactly the transcript text. |
| Feedback.AgentMessageLine | lib/agent/feedback.ts:30-48 | The summarizer sees the task as the single line "[assistant] " followed by the transcript. |
| Feedback.AgentChatSaved | lib/agent/feedback.ts:15-24 | After `saveChat`, whether it failed or not, a chat with the id exists. A newly created one is exactly the requested row. |
| Feedback.AgentChatFinalized | lib/agent/feedback.ts:15-48 | After finalizing, the chat exists and every chat with the id is finalized. A chat created by the task is still private, with the agent title and the task's user. |
| Feedback.FeedAgentTaskToMemory | lib/agent/feedback.ts:9-49 | Only succeeded or failed tasks change anything. Votes, streams, distilled entries and agent tasks never change. A save failure leaves only the saved chat. Otherwise the tables are `FinalizedAndSummarized` of the chat and message saved, so the chat is finalized and the summary is refreshed. |
| Feedback.SavedChats | lib/agent/feedback.ts:15-24 | The chats table grows by one chat exactly when no chat has the agent chat's id. |
| Feedback.Reported | lib/agent/feedback.ts:15-45 | Saving appends exactly the task's message and leaves the other tables but chats unchanged. |
| Providers.CleanModelId | lib/ai/providers.ts:70 | One trailing "-thinking" is removed, and other ids are unchanged. |
| Providers.CleanStripsOneSuffix | lib/ai/providers.ts:70 | Cleaning id + "-thinking" gives id back, so exactly one suffix goes. |
| Providers.ResolveProvider | lib/ai/providers.ts:35-40 | "cliproxy" iff the cleaned id is one of the six proxy ids, otherwise "groq". |
| Providers.RouteFor | lib/ai/providers.ts:66-76 | The id sent is the input minus a trailing "-thinking", or the input itself. It goes to the proxy iff that id is a proxy model. Reasoning is extracted iff the input contains "reasoning" or ends in "-thinking". |
| Providers.ReasoningExamples | lib/ai/providers.ts:67-68 | A "-thinking" id and an id containing "reasoning" are reasoning models, and "gpt-5.2" is not. |
| Providers.RoutingExamples | lib/ai/providers.ts:25-40 | "gpt-5.2-thinking" goes to the proxy as "gpt-5.2" with reasoning, and "llama-3.3-70b-versatile" goes to Groq. |
| Providers.ThinkingProxyExample | lib/ai/providers.ts:66-76 | "gpt-5.2-thinking" is routed to the proxy as "gpt-5.2", with reasoning. |
| Providers.GroqModelExample | lib/ai/providers.ts:35-40 | The default Groq model id resolves to Groq. |
| Providers.ThinkingVariantRouting | lib/ai/providers.ts:25-70 | Every proxied id also reaches the proxy in its "-thinking" form, as a reasoning model. |
| Providers.ConfiguredOr | lib/ai/providers.ts:94-103 | An unset or empty setting falls back to the default. |
| Providers.TitleModelId | lib/ai/providers.ts:94 | "llama-3.3-70b-versatile" unless a non-empty title model is configured. |
| Providers.ArtifactModelId | lib/ai/providers.ts:103 | "llama-3.3-70b-versatile" unless a non-empty artifact model is configured. |
| Models.Push | lib/ai/models.ts:45-51 | One callback step keeps the record equal to the grouping of the models seen so far. A key is appended exactly when the provider is new. |
| Models.ModelsByProvider | lib/ai/models.ts:44-53 | The keys are exactly the providers present, each once. Each group is its provider's models in catalogue order. |
| Models.ExactlyOneGroup | lib/ai/models.ts:44-53 | A model is in a group iff the group is keyed by its provider. |
| Models.GroupSizesSum | lib/ai/models.ts:44-53 | Group sizes over distinct providers that cover all models add up to the number of models. |
| Models.CatalogueGroups | lib/ai/models.ts:10-41 | The catalogue's providers are google (2 models) and openai (3 models). |
| Models.CatalogueSizesSum | lib/ai/models.ts:10-53 | The two groups hold all five models. |
| Models.DefaultIsFirst | lib/ai/models.ts:1-12 | The default chat model is the id of the catalogue's first entry. |

## Findings

| source | as written | input that shows it | evidently intended | confidence | as-written member | corrected member |
|---|---|---|---|---|---|---|
| lib/db/queries.ts:301-315 | The existing vote is looked up by `messageId` alone, then updated where `messageId` and `chatId` both match. | Votes [(c1, m, up)]; `voteMessage(c2, m, down)` finds the c1 vote, updates no row and inserts nothing. | Look up by the whole (chatId, messageId) key, as the update and the table's primary key do, so the vote is always recorded. | medium, not executed | Queries.VoteLostExample | Queries.VotedByPairRecords |

## Left out

- Rank.CosineSimilarity: requires \|a\| ≤ \|b\|. JavaScript yields NaN when b is shorter, and NaN is not modelled. Search therefore requires every stored embedding to be at least as long as the query vector (`Comparable`).
- `Math.exp` and floating-point rounding: the recency factor uses a caller-supplied positive function with exp(0) = 1, and scores are exact reals.
- Limits are natural numbers. Negative `slice`/`LIMIT` arguments are not modelled.
- SQL `ORDER BY` ties are broken in storage order. The database leaves that order unspecified.
- Sources of nondeterminism are parameters: clocks (one `now` per operation), `crypto.randomUUID`, the language-model call and its prompt text, the FTS5 engine (`MATCH`, `rank`, `snippet()`), `getMessagesByIds`, `getAllMessageEmbeddings` and the `@huggingface/transformers` runtime.
- Search.SearchMemoryHybrid: stored embeddings arrive already decoded. A stored vector that fails to parse is not modelled there; the JSON format itself is modelled in Embedder.
- Embedder.Loader.Embed: the pipeline run is a total function `run`. A run that throws, which `embed` and through it `searchMemoryHybrid` let propagate uncaught, is not modelled.
- Models.Push: `keys` records providers in insertion order, which is JavaScript's key order only for keys that are not integer-like, and a provider named like an `Object.prototype` member (`constructor`, `toString`) makes the source's push throw. Neither case arises in the constant catalogue.
- Embedder.Loader: calls are sequential. The concurrent caller that sees `null` while a load is in flight is not modelled.
- Queries.Store.FinalizeChat: a single sequential store. The select-then-update race between two finalizers is not modelled.
- Database read failures are not modelled; writes fail only on duplicate keys. Foreign-key constraints are not enforced, and the delete cascades are written out explicitly.
- The JSON encoding of `sourceChatIds` is not modelled; it is a sequence of ids.
- Memory.TruncateAtSentence: lengths and indices are counted in Unicode code points, not UTF-16 code units, so a cut never splits a surrogate pair and the 8000-character cap holds in code points.
- MemoryContext.SummaryStep: the 4000-character budget and the 25-character heading allowance are counted in code points, not UTF-16 code units.
- MemoryContext.TierStep: the remaining budget and the 100-character threshold are counted in code points, not UTF-16 code units.
- Search.SnippetFor: the 120-character fallback snippet is counted in code points, not UTF-16 code units.
- Feedback.AgentChatTitle: the 50-character prefix is counted in code points, not UTF-16 code units.
- The default argument `limit = 10` of `getDistilledMemory` and `searchMemoryHybrid` is not a default here: the limit is always an explicit parameter, and a caller that omits it (such as the tier-1 distillation job reading existing entries) is modelled by passing 10.
- Memory.ExtractTextFromParts: `String(parts)` of a non-array value is an abstract rendered string (`Scalar`).
- The distillation scheduler (lib/db/queries.ts is only its storage side) is not part of this model.
- The document, suggestion and stream-id wrappers, user queries, `getChatById`, `getVotesByChatId`, `updateMessage`, `getMessageById`, `updateChatVisibilityById`, `updateChatTitleById`, `getMessageCountByUserId`, `getAgentTask`, `getAgentTasksByUserId` and `getRawDb` are single-statement lookups outside the memory layer.
- Provider construction, the reasoning middleware, the test-environment mock provider and logging are library wiring. `RouteFor` records only the provider, the id sent and whether reasoning is extracted.
- Prose in the catalogue (names, descriptions) is kept as data. Nothing is proved about it.
