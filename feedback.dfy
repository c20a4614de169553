/**
 * Feeding a finished agent task into the memory pipeline: the task becomes a
 * private synthetic chat holding one assistant message that describes it, and
 * that chat is finalized and folded into the user's rolling summary.
 */
module Feedback {
  import opened Common
  import opened Schema
  import opened Queries
  import opened Memory

  /** Only a task that reached a final state is reported. */
  predicate Reportable(task: AgentTask)
  {
    task.status == "succeeded" || task.status == "failed"
  }

  /** `linkedChatId ?? "agent-" + id`: an empty linked id is still used. */
  function AgentChatId(task: AgentTask): (r: string)
    ensures task.linkedChatId.Some? ==> r == task.linkedChatId.value
    ensures task.linkedChatId.None? ==> StartsWith(r, "agent-") && r[|"agent-"|..] == task.id
  {
    if task.linkedChatId.Some? then task.linkedChatId.value else "agent-" + task.id
  }

  /** `Agent: ` followed by at most the first 50 characters of the task input. */
  function AgentChatTitle(task: AgentTask): (r: string)
    ensures StartsWith(r, "Agent: ")
    ensures |r| <= |"Agent: "| + 50
    ensures StartsWith(task.input, r[|"Agent: "|..])
    ensures |task.input| <= 50 ==> r == "Agent: " + task.input
  {
    "Agent: " + Take(task.input, 50)
  }

  function Header(task: AgentTask): string
  {
    "[AGENT TASK: " + task.input + "]\n[STATUS: " + task.status + "]"
  }

  function ResultSection(task: AgentTask): string
  {
    if Truthy(task.result) then "\n[RESULT: " + task.result.value + "]" else ""
  }

  function ErrorSection(task: AgentTask): string
  {
    if Truthy(task.error) then "\n[ERROR: " + task.error.value + "]" else ""
  }

  /** The text of the synthetic assistant message. */
  function AgentTranscript(task: AgentTask): string
  {
    Header(task) + ResultSection(task) + ErrorSection(task)
  }

  /**
   * The text always opens with the input and status; the result follows
   * right after that header when there is one, and the error closes the text
   * when there is one; with neither, the header is all there is.
   */
  lemma AgentTranscriptShape(task: AgentTask)
    ensures StartsWith(AgentTranscript(task), Header(task))
    ensures Truthy(task.result) ==> OccursAt(AgentTranscript(task), "\n[RESULT: " + task.result.value + "]", |Header(task)|)
    ensures Truthy(task.error) ==> EndsWith(AgentTranscript(task), "\n[ERROR: " + task.error.value + "]")
    ensures Truthy(task.result) && !Truthy(task.error) ==>
              EndsWith(AgentTranscript(task), "\n[RESULT: " + task.result.value + "]")
    ensures !Truthy(task.result) && !Truthy(task.error) ==> AgentTranscript(task) == Header(task)
  {
    var t := AgentTranscript(task);
    var h, r, e := Header(task), ResultSection(task), ErrorSection(task);
    assert t == h + r + e;
    assert t[..|h|] == h;
    assert t[|h|..|h| + |r|] == r;
    assert t[|t| - |e|..] == e;
    if e == "" {
      assert t == h + r;
      assert t[|t| - |r|..] == r;
    }
  }

  /** The one message the task is reported as. */
  function AgentMessage(task: AgentTask, messageId: string, now: int): (m: DbMessage)
    ensures m.chatId == AgentChatId(task) && m.role == "assistant"
    ensures ExtractTextFromParts(m.parts) == AgentTranscript(task)
  {
    SingleTextPart(AgentTranscript(task));
    DbMessage(messageId, AgentChatId(task), "assistant",
              PartList([PartObject(Some("text"), Some(AgentTranscript(task)))]), [], now)
  }

  /** The summarizer sees the task as a single assistant line carrying the whole transcript. */
  lemma AgentMessageLine(task: AgentTask, messageId: string, now: int)
    ensures TranscriptLine(AgentMessage(task, messageId, now)) == "[assistant] " + AgentTranscript(task)
    ensures Transcript([AgentMessage(task, messageId, now)]) == "[assistant] " + AgentTranscript(task)
  {
  }

  /** After saveChat, whether or not it failed, the chat exists; a new one carries the agent's attributes. */
  lemma AgentChatSaved(prior: seq<Chat>, chats: seq<Chat>, made: Chat, created: bool)
    requires created ==> chats == prior + [made]
    requires !created ==> chats == prior && exists c :: c in prior && c.id == made.id
    ensures exists c :: c in chats && c.id == made.id
    ensures created ==> exists c :: c in chats && c == made
  {
    if created {
      assert chats[|chats| - 1] == made;
    }
  }

  /** Finalizing the saved chat marks it and keeps the attributes it was created with. */
  lemma AgentChatFinalized(prior: seq<Chat>, chats: seq<Chat>, made: Chat, created: bool, now: int)
    requires UniqueBy(chats, ChatId)
    requires created ==> chats == prior + [made]
    requires !created ==> chats == prior && exists c :: c in prior && c.id == made.id
    ensures var after := Finalize(chats, made.id, now).0;
            && (exists c :: c in after && c.id == made.id)
            && (forall c :: c in after && c.id == made.id ==> c.finalizedAt.Some?)
            && (created ==> exists c :: c in after && c.id == made.id && c.visibility == made.visibility
                                        && c.title == made.title && c.userId == made.userId)
  {
    AgentChatSaved(prior, chats, made, created);
    FinalizeMarks(chats, made.id, now);
    if created {
      var after := Finalize(chats, made.id, now).0;
      var k := |chats| - 1;
      assert after[k].(finalizedAt := made.finalizedAt) == made;
      assert after[k] in after;
    }
  }

  /** The chats table after `saveChat` for the task: the new chat is appended unless its id is taken. */
  function SavedChats(chats: seq<Chat>, task: AgentTask, now: int): (r: seq<Chat>)
    ensures chats <= r && |r| <= |chats| + 1
    ensures |r| == |chats| + 1 <==> forall c :: c in chats ==> c.id != AgentChatId(task)
  {
    if forall c :: c in chats ==> c.id != AgentChatId(task)
    then chats + [NewChat(AgentChatId(task), task.userId, AgentChatTitle(task), Private, now)]
    else chats
  }

  /** The tables once the synthetic chat and the task's message are saved, before finalizing. */
  function Reported(t: Tables, task: AgentTask, messageId: string, now: int): (r: Tables)
    ensures r.messages == t.messages + [AgentMessage(task, messageId, now)]
    ensures r.votes == t.votes && r.streams == t.streams && r.summaries == t.summaries
    ensures r.summaryVersions == t.summaryVersions && r.distilled == t.distilled && r.agentTasks == t.agentTasks
  {
    t.(chats := SavedChats(t.chats, task, now), messages := t.messages + [AgentMessage(task, messageId, now)])
  }

  /**
   * Reports a finished task. A task still pending or running changes nothing.
   * Otherwise the synthetic chat is created (a failure because it already
   * exists is ignored), the message is saved (a failure ends the operation
   * with that error), and the chat is finalized and summarized.
   * `messageId` and `now` stand for the generated UUID and the clock.
   */
  method FeedAgentTaskToMemory(store: Store, task: AgentTask, messageId: string,
                               generate: (string, string) -> Option<string>, now: int)
    returns (o: Outcome)
    requires store.Valid()
    modifies store
    ensures store.Valid()
    ensures !Reportable(task) ==> o == Done && store.Snapshot() == old(store.Snapshot())
    ensures Reportable(task) && (forall c :: c in old(store.chats) ==> c.id != AgentChatId(task)) ==>
              exists c :: c in store.chats && c.id == AgentChatId(task) && c.visibility == Private
                          && c.title == AgentChatTitle(task) && c.userId == task.userId
    ensures Reportable(task) ==> exists c :: c in store.chats && c.id == AgentChatId(task)
    ensures o.Failed? ==> o.error == BadRequestDatabase
                          && store.Snapshot() == old(store.Snapshot()).(chats := SavedChats(old(store.chats), task, now))
    ensures Reportable(task) && o.Done? ==>
              store.Snapshot() == FinalizedAndSummarized(Reported(old(store.Snapshot()), task, messageId, now),
                                                         AgentChatId(task), task.userId, generate, now)
    ensures store.votes == old(store.votes) && store.streams == old(store.streams)
    ensures store.distilled == old(store.distilled) && store.agentTasks == old(store.agentTasks)
    ensures Reportable(task) && o.Done? ==>
              && store.messages == old(store.messages) + [AgentMessage(task, messageId, now)]
              && forall c :: c in store.chats && c.id == AgentChatId(task) ==> c.finalizedAt.Some?
    ensures o.Done? <==> !Reportable(task) || forall m :: m in old(store.messages) ==> m.id != messageId
  {
    if !Reportable(task) {
      return Done;
    }
    var chatId := AgentChatId(task);
    ghost var before := store.Snapshot();
    var created := store.SaveChat(chatId, task.userId, AgentChatTitle(task), Private, now);
    ghost var chatsBefore := store.chats;
    assert chatsBefore == SavedChats(before.chats, task, now);
    ghost var made := NewChat(chatId, task.userId, AgentChatTitle(task), Private, now);
    assert UniqueBy(chatsBefore, ChatId);
    var message := AgentMessage(task, messageId, now);
    assert UniqueBy([message], MessageId);
    o := store.SaveMessages([message]);
    if o.Failed? {
      AgentChatSaved(old(store.chats), chatsBefore, made, created.Done?);
      return;
    }
    assert store.Snapshot() == Reported(before, task, messageId, now);
    FinalizeChatAndSummarize(store, chatId, task.userId, generate, now);
    AgentChatFinalized(old(store.chats), chatsBefore, made, created.Done?, now);
  }
}
