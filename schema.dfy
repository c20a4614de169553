/**
 * Row shapes of the tables the memory layer reads and writes (the SQLite
 * schema declared with drizzle). Timestamps are epoch milliseconds, nullable
 * columns are `Option`s, and JSON columns are decoded into datatypes. The
 * generated UUID primary keys are supplied by the caller.
 */
module Schema {
  import opened Common

  datatype Visibility = Public | Private

  /** A row of `chats`, including the memory-layer bookkeeping columns. */
  datatype Chat = Chat(
    id: string,
    createdAt: int,
    title: string,
    userId: string,
    visibility: Visibility,
    lastActivityAt: Option<int>,
    finalizedAt: Option<int>,
    summarizedAt: Option<int>,
    summaryVersion: Option<int>,
    messageCount: Option<int>)

  /** One element of a message's decoded `parts` array. */
  datatype PartValue =
    | PartObject(kind: Option<string>, text: Option<string>)  // an object; `type`/`text` present as strings or not
    | NonObject                                                // null, a number, an array, ...

  /** The decoded `parts` column: an array, null/undefined, or any other JSON value (with its `String(...)` rendering). */
  datatype Parts = PartList(items: seq<PartValue>) | Nullish | Scalar(rendered: string)

  /** A row of `messages`. */
  datatype DbMessage = DbMessage(
    id: string,
    chatId: string,
    role: string,
    parts: Parts,
    attachments: seq<string>,
    createdAt: int)

  /** A row of `votes`; the primary key is (chatId, messageId). */
  datatype Vote = Vote(chatId: string, messageId: string, isUpvoted: bool)

  /** A row of `streams`. */
  datatype Stream = Stream(id: string, chatId: string, createdAt: int)

  /** A row of `memory_summary`: the rolling summary, one per user. */
  datatype MemorySummary = MemorySummary(
    userId: string,
    content: string,
    updatedAt: int,
    version: Option<int>,
    locked: Option<bool>)

  /** A row of `memory_summary_versions`: an archived summary. */
  datatype MemorySummaryVersion = MemorySummaryVersion(
    userId: string,
    version: int,
    content: string,
    createdAt: int)

  /** A row of `distilled_memory`; tier 1 covers 48 hours, tier 2 seven days, tier 3 thirty days. */
  datatype DistilledMemory = DistilledMemory(
    id: string,
    userId: string,
    tier: int,
    content: string,
    sourceChatIds: seq<string>,
    createdAt: int)

  /** A row of `agent_tasks`. */
  datatype AgentTask = AgentTask(
    id: string,
    userId: string,
    status: string,
    createdAt: int,
    updatedAt: int,
    openhandsTaskId: Option<string>,
    input: string,
    result: Option<string>,
    error: Option<string>,
    linkedChatId: Option<string>)

  // Primary keys, as functions so that uniqueness can be stated once.
  function ChatId(c: Chat): string { c.id }
  function MessageId(m: DbMessage): string { m.id }
  function VoteKey(v: Vote): (string, string) { (v.chatId, v.messageId) }
  function StreamId(s: Stream): string { s.id }
  function SummaryUser(s: MemorySummary): string { s.userId }
  function DistilledId(d: DistilledMemory): string { d.id }
  function TaskId(t: AgentTask): string { t.id }
}
