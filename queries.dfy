/**
 * The memory-layer table operations. The database is a `Store` whose fields
 * are the tables, each a sequence of rows in storage order (which is also the
 * order `ORDER BY` falls back on for equal keys). Mutators change the fields
 * in place; readers are functions of the current tables. A statement that
 * SQLite would reject (a duplicate primary key) is reported as a failed
 * `Outcome` and leaves the tables unchanged, since each statement is atomic.
 */
module Queries {
  import opened Common
  import opened Schema
  import Sorting

  /**
   * The `OpenChatError` codes of the database layer, and the driver's own
   * unique-constraint error, which the queries without a try/catch let
   * through unchanged.
   */
  datatype DbError = BadRequestDatabase | NotFoundDatabase | ConstraintViolation

  datatype Result<T> = Ok(value: T) | Err(error: DbError)

  /** Completion of a statement that returns nothing. */
  datatype Outcome = Done | Failed(error: DbError)

  /** The `{ id, userId }` projection of a chat. */
  datatype ChatRef = ChatRef(id: string, userId: string)

  /** One page of a user's chat history. */
  datatype ChatPage = ChatPage(chats: seq<Chat>, hasMore: bool)

  datatype VoteType = Up | Down

  /** The `createdAt` condition a pagination cursor adds to the query. */
  datatype Bound = Unbounded | NewerThan(t: int) | OlderThan(t: int)

  /** All tables at once, to say which of them an operation leaves alone. */
  datatype Tables = Tables(
    chats: seq<Chat>,
    messages: seq<DbMessage>,
    votes: seq<Vote>,
    streams: seq<Stream>,
    summaries: seq<MemorySummary>,
    summaryVersions: seq<MemorySummaryVersion>,
    distilled: seq<DistilledMemory>,
    agentTasks: seq<AgentTask>)

  const MsPerMinute: int := 60000

  /** JavaScript truthiness of a nullable string: null and "" are false. */
  predicate Truthy(s: Option<string>)
  {
    s.Some? && s.value != ""
  }

  /** `COALESCE(x, 0)`. */
  function OrZero(x: Option<int>): int
  {
    if x.Some? then x.value else 0
  }

  predicate InBound(c: Chat, b: Bound)
  {
    match b
    case Unbounded => true
    case NewerThan(t) => c.createdAt > t
    case OlderThan(t) => c.createdAt < t
  }

  /**
   * `finalized_at IS NULL AND last_activity_at < cutoff`; a null
   * `last_activity_at` makes the comparison null, so such a chat never qualifies.
   */
  predicate IsIdle(c: Chat, cutoff: int)
  {
    c.finalizedAt.None? && c.lastActivityAt.Some? && c.lastActivityAt.value < cutoff
  }

  // Sort keys: ORDER BY created_at DESC, and ASC as DESC on the negation.
  function ChatCreated(c: Chat): real { c.createdAt as real }
  function DistilledCreated(d: DistilledMemory): real { d.createdAt as real }
  function MessageEarliness(m: DbMessage): real { -(m.createdAt as real) }

  /** `getMessagesByChatId` on a messages table: the chat's messages, oldest first. */
  function ChatMessages(messages: seq<DbMessage>, chatId: string): (r: seq<DbMessage>)
    ensures forall m :: m in r <==> m in messages && m.chatId == chatId
    ensures multiset(r) == multiset(Filter(messages, (m: DbMessage) => m.chatId == chatId))
    ensures forall i, j :: 0 <= i < j < |r| ==> r[i].createdAt <= r[j].createdAt
  {
    var own := Filter(messages, (m: DbMessage) => m.chatId == chatId);
    var r := Sorting.SortDesc(own, MessageEarliness);
    Sorting.SortDescSorted(own, MessageEarliness);
    assert forall m :: m in r <==> m in own by {
      forall m ensures m in r <==> m in own {
        assert m in r <==> m in multiset(r);
      }
    }
    r
  }

  function Refs(cs: seq<Chat>): (r: seq<ChatRef>)
    ensures |r| == |cs|
    ensures forall i :: 0 <= i < |cs| ==> r[i] == ChatRef(cs[i].id, cs[i].userId)
  {
    seq(|cs|, i requires 0 <= i < |cs| => ChatRef(cs[i].id, cs[i].userId))
  }

  function ChatIds(cs: seq<Chat>): (r: seq<string>)
    ensures |r| == |cs|
    ensures forall i :: 0 <= i < |cs| ==> r[i] == cs[i].id
  {
    seq(|cs|, i requires 0 <= i < |cs| => cs[i].id)
  }

  /** An id is listed exactly when some chat has it. */
  lemma ChatIdsMembers(cs: seq<Chat>)
    ensures forall id :: id in ChatIds(cs) <==> exists c :: c in cs && c.id == id
  {
    var r := ChatIds(cs);
    forall id | id in r ensures exists c :: c in cs && c.id == id {
      var i :| 0 <= i < |r| && r[i] == id;
      assert cs[i] in cs;
    }
    forall c | c in cs ensures c.id in r {
      var i :| 0 <= i < |cs| && cs[i] == c;
      assert r[i] == c.id;
    }
  }

  function MessageIds(ms: seq<DbMessage>): (r: seq<string>)
    ensures |r| == |ms|
    ensures forall i :: 0 <= i < |ms| ==> r[i] == ms[i].id
  {
    seq(|ms|, i requires 0 <= i < |ms| => ms[i].id)
  }

  /** `SELECT DISTINCT`: every value of xs once, in order of first occurrence. */
  function Dedup(xs: seq<string>): (r: seq<string>)
    ensures Distinct(r)
    ensures forall x :: x in r <==> x in xs
    decreases |xs|
  {
    if xs == [] then []
    else
      var d := Dedup(xs[..|xs| - 1]);
      assert xs == xs[..|xs| - 1] + [xs[|xs| - 1]];
      if xs[|xs| - 1] in d then d else d + [xs[|xs| - 1]]
  }

  /** The row `saveChat` inserts: active now, not finalized, no messages yet. */
  function NewChat(id: string, userId: string, title: string, visibility: Visibility, now: int): Chat
  {
    Chat(id, now, title, userId, visibility, Some(now), None, None, Some(0), Some(0))
  }

  // ---------------------------------------------------------------------
  // finalizeChat

  /** finalizeChat as a function of the chats table: the new table and the returned flag. */
  function Finalize(chats: seq<Chat>, chatId: string, now: int): (seq<Chat>, bool)
  {
    var existing := First(chats, (c: Chat) => c.id == chatId);
    if existing.Some? && existing.value.finalizedAt.Some? then (chats, false)
    else (UpdateWhere(chats, (c: Chat) => c.id == chatId, (c: Chat) => c.(finalizedAt := Some(now))), true)
  }

  /** The flag is true exactly when no chat with that id is finalized yet; other chats never change. */
  lemma FinalizeTransition(chats: seq<Chat>, chatId: string, now: int)
    requires UniqueBy(chats, ChatId)
    ensures Finalize(chats, chatId, now).1
        <==> !exists c :: c in chats && c.id == chatId && c.finalizedAt.Some?
    ensures UniqueBy(Finalize(chats, chatId, now).0, ChatId)
    ensures forall i :: 0 <= i < |chats| && chats[i].id != chatId ==> Finalize(chats, chatId, now).0[i] == chats[i]
    ensures |Finalize(chats, chatId, now).0| == |chats|
  {
    forall c | c in chats && c.id == chatId
      ensures First(chats, (c: Chat) => c.id == chatId) == Some(c)
    {
      FirstByKey(chats, ChatId, chatId, (c: Chat) => c.id == chatId, c);
    }
    var f := (c: Chat) => c.(finalizedAt := Some(now));
    UpdateKeepsUnique(chats, (c: Chat) => c.id == chatId, f, ChatId);
  }

  /** Finalizing a chat with an unknown id reports a transition and changes no row. */
  lemma FinalizeUnknownChat(chats: seq<Chat>, chatId: string, now: int)
    requires forall c :: c in chats ==> c.id != chatId
    ensures Finalize(chats, chatId, now) == (chats, true)
  {
    UpdateWhereNoMatch(chats, (c: Chat) => c.id == chatId, (c: Chat) => c.(finalizedAt := Some(now)));
  }

  /** Afterwards every chat with that id carries a finalization time, and no chat appears or disappears. */
  lemma FinalizeMarks(chats: seq<Chat>, chatId: string, now: int)
    requires UniqueBy(chats, ChatId)
    ensures forall c :: c in Finalize(chats, chatId, now).0 && c.id == chatId ==> c.finalizedAt.Some?
    ensures (exists c :: c in chats && c.id == chatId) <==>
            (exists c :: c in Finalize(chats, chatId, now).0 && c.id == chatId)
    ensures |Finalize(chats, chatId, now).0| == |chats|
    ensures forall i :: 0 <= i < |chats| ==>
              Finalize(chats, chatId, now).0[i] == chats[i].(finalizedAt := Finalize(chats, chatId, now).0[i].finalizedAt)
  {
    FinalizeMarksAll(chats, chatId, now);
    FinalizeKeepsIds(chats, chatId, now);
  }

  /** After finalizeChat every chat with the id is finalized. */
  lemma FinalizeMarksAll(chats: seq<Chat>, chatId: string, now: int)
    requires UniqueBy(chats, ChatId)
    ensures forall c :: c in Finalize(chats, chatId, now).0 && c.id == chatId ==> c.finalizedAt.Some?
  {
    if !Finalize(chats, chatId, now).1 {
      FinalizeTransition(chats, chatId, now);
      var c :| c in chats && c.id == chatId && c.finalizedAt.Some?;
      forall d | d in chats && d.id == chatId ensures d.finalizedAt.Some? {
        var i :| 0 <= i < |chats| && chats[i] == d;
        var j :| 0 <= j < |chats| && chats[j] == c;
        SameKeySamePosition(chats, ChatId, i, j);
      }
    }
  }

  /** finalizeChat changes only finalizedAt, so the same ids remain at the same positions. */
  lemma FinalizeKeepsIds(chats: seq<Chat>, chatId: string, now: int)
    ensures |Finalize(chats, chatId, now).0| == |chats|
    ensures forall i :: 0 <= i < |chats| ==>
              Finalize(chats, chatId, now).0[i] == chats[i].(finalizedAt := Finalize(chats, chatId, now).0[i].finalizedAt)
    ensures (exists c :: c in chats && c.id == chatId) <==>
            (exists c :: c in Finalize(chats, chatId, now).0 && c.id == chatId)
  {
    var after := Finalize(chats, chatId, now).0;
    forall c | c in chats && c.id == chatId ensures exists d :: d in after && d.id == chatId {
      var i :| 0 <= i < |chats| && chats[i] == c;
      assert after[i] in after;
    }
    forall d | d in after && d.id == chatId ensures exists c :: c in chats && c.id == chatId {
      var i :| 0 <= i < |after| && after[i] == d;
      assert chats[i] in chats;
    }
  }

  /** An existing chat is finalized once: an immediate second call reports no transition and changes nothing. */
  lemma FinalizeTwice(chats: seq<Chat>, chatId: string, t1: int, t2: int)
    requires UniqueBy(chats, ChatId)
    requires exists c :: c in chats && c.id == chatId
    ensures var after := Finalize(chats, chatId, t1).0;
            Finalize(after, chatId, t2) == (after, false)
  {
    var after := Finalize(chats, chatId, t1).0;
    FinalizeTransition(chats, chatId, t1);
    var c :| c in chats && c.id == chatId;
    var i :| 0 <= i < |chats| && chats[i] == c;
    assert after[i].id == chatId && after[i].finalizedAt.Some?;
    FinalizeTransition(after, chatId, t2);
  }

  // ---------------------------------------------------------------------
  // updateMemorySummary

  /** `existing?.version ?? 0`. */
  function VersionOf(existing: Option<MemorySummary>): int
  {
    if existing.Some? && existing.value.version.Some? then existing.value.version.value else 0
  }

  /** The first summary row of a user, if any. */
  function SummaryOf(summaries: seq<MemorySummary>, userId: string): (r: Option<MemorySummary>)
    ensures r.Some? ==> r.value in summaries && r.value.userId == userId
    ensures r.None? <==> forall s :: s in summaries ==> s.userId != userId
  {
    First(summaries, (s: MemorySummary) => s.userId == userId)
  }

  /** The summary table with the rows of row's user replaced by row. */
  function Replace(summaries: seq<MemorySummary>, row: MemorySummary): seq<MemorySummary>
  {
    UpdateWhere(summaries, (s: MemorySummary) => s.userId == row.userId, (s: MemorySummary) => row)
  }

  /** updateMemorySummary as a function of the summary table and its history. */
  function Upsert(summaries: seq<MemorySummary>, history: seq<MemorySummaryVersion>,
                  userId: string, content: string, now: int): (seq<MemorySummary>, seq<MemorySummaryVersion>)
  {
    var existing := SummaryOf(summaries, userId);
    var row := MemorySummary(userId, content, now, Some(VersionOf(existing) + 1), Some(false));
    if existing.Some? then
      (Replace(summaries, row), history + [MemorySummaryVersion(userId, VersionOf(existing), existing.value.content, now)])
    else
      (summaries + [row], history)
  }

  /** Replacing a user's summary rows by a row of the same user leaves every other user's rows alone. */
  lemma ReplaceKeepsOthers(summaries: seq<MemorySummary>, userId: string, row: MemorySummary)
    requires row.userId == userId
    ensures var rows := Replace(summaries, row);
            forall s: MemorySummary :: s.userId != userId ==> (s in rows <==> s in summaries)
  {
    var rows := Replace(summaries, row);
    forall s: MemorySummary | s.userId != userId ensures s in rows <==> s in summaries {
      if s in rows {
        var j :| 0 <= j < |rows| && rows[j] == s;
        assert summaries[j] == s;
      }
      if s in summaries {
        var j :| 0 <= j < |summaries| && summaries[j] == s;
        assert rows[j] == s;
      }
    }
  }

  /**
   * After the upsert the user has exactly one summary row: the new content,
   * unlocked, with version one more than before (a missing row or a null
   * version counting as 0). Other users' rows are untouched.
   */
  lemma UpsertSummary(summaries: seq<MemorySummary>, history: seq<MemorySummaryVersion>,
                      userId: string, content: string, now: int)
    requires UniqueBy(summaries, SummaryUser)
    ensures var (rows, _) := Upsert(summaries, history, userId, content, now);
            var previous := SummaryOf(summaries, userId);
            var row := MemorySummary(userId, content, now, Some(VersionOf(previous) + 1), Some(false));
            && UniqueBy(rows, SummaryUser)
            && row in rows
            && (forall s :: s in rows && s.userId == userId ==> s == row)
            && (forall s: MemorySummary :: s.userId != userId ==> (s in rows <==> s in summaries))
  {
    var previous := SummaryOf(summaries, userId);
    var row := MemorySummary(userId, content, now, Some(VersionOf(previous) + 1), Some(false));
    var rows := Upsert(summaries, history, userId, content, now).0;
    if previous.Some? {
      UpdateKeepsUnique(summaries, (s: MemorySummary) => s.userId == row.userId, (s: MemorySummary) => row, SummaryUser);
      var i :| 0 <= i < |summaries| && summaries[i] == previous.value;
      assert rows[i] == row;
      ReplaceKeepsOthers(summaries, userId, row);
    } else {
      UniqueAppend(summaries, row, SummaryUser);
    }
  }

  /** The upsert keeps every table keyed and leaves the new content as the user's summary. */
  lemma UpsertKeyed(t: Tables, userId: string, content: string, now: int)
    requires Keyed(t)
    ensures var (rows, history) := Upsert(t.summaries, t.summaryVersions, userId, content, now);
            && Keyed(t.(summaries := rows, summaryVersions := history))
            && SummaryOf(rows, userId).Some?
            && SummaryOf(rows, userId).value.content == content
  {
    UpsertSummary(t.summaries, t.summaryVersions, userId, content, now);
  }

  /** The previous summary is archived exactly when there was one, with its version and content. */
  lemma UpsertArchive(summaries: seq<MemorySummary>, history: seq<MemorySummaryVersion>,
                      userId: string, content: string, now: int)
    ensures var (_, archive) := Upsert(summaries, history, userId, content, now);
            && history <= archive
            && (|archive| == |history| + 1 <==> exists s :: s in summaries && s.userId == userId)
            && (|archive| == |history| + 1 ==>
                  var last := archive[|history|];
                  last.userId == userId && last.createdAt == now
                  && exists s :: s in summaries && s.userId == userId
                                 && last.content == s.content && last.version == OrZero(s.version))
  {
  }

  // ---------------------------------------------------------------------
  // updateAgentTask

  /** The row after `set({ ...updates, updatedAt })`: given fields replace, absent ones keep their value. */
  function Patched(t: AgentTask, status: Option<string>, openhandsTaskId: Option<string>,
                   result: Option<string>, error: Option<string>, now: int): AgentTask
  {
    t.(status := if status.Some? then status.value else t.status,
       openhandsTaskId := if openhandsTaskId.Some? then openhandsTaskId else t.openhandsTaskId,
       result := if result.Some? then result else t.result,
       error := if error.Some? then error else t.error,
       updatedAt := now)
  }

  /**
   * Reads the newest limit+1 of the matching chats and splits off the extra
   * one: the page holds the newest limit, and `hasMore` says whether any
   * matching chat was left out.
   */
  function Paginate(matching: seq<Chat>, limit: nat): (p: ChatPage)
    ensures |p.chats| == if |matching| < limit then |matching| else limit
    ensures forall c :: c in p.chats ==> c in matching
    ensures Sorting.SortedDesc(p.chats, ChatCreated)
    ensures p.hasMore <==> |matching| > limit
    ensures forall c, d :: c in matching && c !in p.chats && d in p.chats ==> ChatCreated(d) >= ChatCreated(c)
  {
    var sorted := Sorting.SortDesc(matching, ChatCreated);
    var rows := Take(sorted, limit + 1);
    var hasMore := |rows| > limit;
    var page := if hasMore then Take(rows, limit) else rows;
    assert page == Take(sorted, limit);
    Sorting.TopOfSorted(matching, ChatCreated, limit);
    ChatPage(page, hasMore)
  }

  /** The rows `getDistilledMemory` selects: the user's, and of the tier when one is given. */
  predicate InTier(d: DistilledMemory, userId: string, tier: Option<int>)
  {
    d.userId == userId && (tier.None? || d.tier == tier.value)
  }

  /** The user's rows, of the tier when one is given, in storage order. */
  function InTierRows(distilled: seq<DistilledMemory>, userId: string, tier: Option<int>): (r: seq<DistilledMemory>)
    ensures forall d :: d in r <==> d in distilled && InTier(d, userId, tier)
  {
    Filter(distilled, (d: DistilledMemory) => InTier(d, userId, tier))
  }

  /** The effect of the update branch of voteMessage on the (chatId, messageId) key. */
  lemma VoteUpdate(votes: seq<Vote>, chatId: string, messageId: string, up: bool)
    ensures var u := UpdateWhere(votes, (v: Vote) => v.messageId == messageId && v.chatId == chatId,
                                 (v: Vote) => v.(isUpvoted := up));
            && (forall v :: v in u && VoteKey(v) == (chatId, messageId) ==> v.isUpvoted == up)
            && ((exists v :: v in u && VoteKey(v) == (chatId, messageId))
                <==> (exists v :: v in votes && VoteKey(v) == (chatId, messageId)))
  {
    var u := UpdateWhere(votes, (v: Vote) => v.messageId == messageId && v.chatId == chatId,
                         (v: Vote) => v.(isUpvoted := up));
    forall v | v in u && VoteKey(v) == (chatId, messageId) ensures v.isUpvoted == up {
      var i :| 0 <= i < |u| && u[i] == v;
    }
    if exists v :: v in votes && VoteKey(v) == (chatId, messageId) {
      var v :| v in votes && VoteKey(v) == (chatId, messageId);
      var i :| 0 <= i < |votes| && votes[i] == v;
      assert VoteKey(u[i]) == (chatId, messageId);
    }
    if exists v :: v in u && VoteKey(v) == (chatId, messageId) {
      var v :| v in u && VoteKey(v) == (chatId, messageId);
      var i :| 0 <= i < |u| && u[i] == v;
      assert VoteKey(votes[i]) == (chatId, messageId);
    }
  }

  /**
   * voteMessage as written: the existing vote is looked up by message alone,
   * then updated by message and chat; with no vote on the message, one is inserted.
   */
  function Voted(votes: seq<Vote>, chatId: string, messageId: string, up: bool): seq<Vote>
  {
    if First(votes, (v: Vote) => v.messageId == messageId).Some? then
      UpdateWhere(votes, (v: Vote) => v.messageId == messageId && v.chatId == chatId,
                  (v: Vote) => v.(isUpvoted := up))
    else votes + [Vote(chatId, messageId, up)]
  }

  /**
   * A vote on a message that already has a vote under another chat is lost:
   * the lookup finds the other chat's vote, the update matches no row, and
   * nothing is inserted.
   */
  lemma VoteLostExample()
    ensures var before := [Vote("c1", "m", true)];
            && Voted(before, "c2", "m", false) == before
            && forall v :: v in Voted(before, "c2", "m", false) ==> VoteKey(v) != ("c2", "m")
  {
    var before := [Vote("c1", "m", true)];
    assert First(before, (v: Vote) => v.messageId == "m") == Some(before[0]);
    UpdateWhereNoMatch(before, (v: Vote) => v.messageId == "m" && v.chatId == "c2",
                       (v: Vote) => v.(isUpvoted := false));
  }

  /** voteMessage with the lookup on the whole (chatId, messageId) key, as the update and the primary key have it. */
  function VotedByPair(votes: seq<Vote>, chatId: string, messageId: string, up: bool): seq<Vote>
  {
    if First(votes, (v: Vote) => VoteKey(v) == (chatId, messageId)).Some? then
      UpdateWhere(votes, (v: Vote) => v.messageId == messageId && v.chatId == chatId,
                  (v: Vote) => v.(isUpvoted := up))
    else votes + [Vote(chatId, messageId, up)]
  }

  /**
   * With the corrected lookup the vote is always recorded: afterwards exactly
   * one vote exists for the pair, with the requested direction, and the votes
   * on every other pair are as they were.
   */
  lemma VotedByPairRecords(votes: seq<Vote>, chatId: string, messageId: string, up: bool)
    requires UniqueBy(votes, VoteKey)
    ensures var r := VotedByPair(votes, chatId, messageId, up);
            && UniqueBy(r, VoteKey)
            && (exists v :: v in r && VoteKey(v) == (chatId, messageId))
            && (forall v :: v in r && VoteKey(v) == (chatId, messageId) ==> v.isUpvoted == up)
            && (forall v :: VoteKey(v) != (chatId, messageId) ==> (v in r <==> v in votes))
  {
    var r := VotedByPair(votes, chatId, messageId, up);
    var p := (v: Vote) => v.messageId == messageId && v.chatId == chatId;
    var f := (v: Vote) => v.(isUpvoted := up);
    if First(votes, (v: Vote) => VoteKey(v) == (chatId, messageId)).Some? {
      UpdateKeepsUnique(votes, p, f, VoteKey);
      VoteUpdate(votes, chatId, messageId, up);
      forall v | VoteKey(v) != (chatId, messageId) ensures v in r <==> v in votes {
        if v in r {
          var i :| 0 <= i < |r| && r[i] == v;
          assert votes[i] == v;
        }
        if v in votes {
          var i :| 0 <= i < |votes| && votes[i] == v;
          assert r[i] == v;
        }
      }
    } else {
      UniqueAppend(votes, Vote(chatId, messageId, up), VoteKey);
    }
  }

  /** Every table's primary key is unique. */
  ghost predicate Keyed(t: Tables)
  {
    && UniqueBy(t.chats, ChatId)
    && UniqueBy(t.messages, MessageId)
    && UniqueBy(t.votes, VoteKey)
    && UniqueBy(t.streams, StreamId)
    && UniqueBy(t.summaries, SummaryUser)
    && UniqueBy(t.distilled, DistilledId)
    && UniqueBy(t.agentTasks, TaskId)
  }

  /** The tables once a chat is deleted with its votes, messages and streams. */
  function WithoutChat(t: Tables, id: string): (r: Tables)
    ensures r.summaries == t.summaries && r.summaryVersions == t.summaryVersions
    ensures r.distilled == t.distilled && r.agentTasks == t.agentTasks
    ensures forall c :: c in r.chats <==> c in t.chats && c.id != id
    ensures forall m :: m in r.messages <==> m in t.messages && m.chatId != id
    ensures forall v :: v in r.votes <==> v in t.votes && v.chatId != id
    ensures forall s :: s in r.streams <==> s in t.streams && s.chatId != id
  {
    t.(votes := Filter(t.votes, (v: Vote) => v.chatId != id),
       messages := Filter(t.messages, (m: DbMessage) => m.chatId != id),
       streams := Filter(t.streams, (s: Stream) => s.chatId != id),
       chats := Filter(t.chats, (c: Chat) => c.id != id))
  }

  /** Deleting a chat keeps every key unique. */
  lemma ChatDeletionKeyed(t: Tables, id: string)
    requires Keyed(t)
    ensures Keyed(WithoutChat(t, id))
  {
    FilterKeepsUnique(t.votes, (v: Vote) => v.chatId != id, VoteKey);
    FilterKeepsUnique(t.messages, (m: DbMessage) => m.chatId != id, MessageId);
    FilterKeepsUnique(t.streams, (s: Stream) => s.chatId != id, StreamId);
    FilterKeepsUnique(t.chats, (c: Chat) => c.id != id, ChatId);
  }

  /** Whether a message of the chat was created at or after the timestamp. */
  function IsLate(chatId: string, timestamp: int): DbMessage -> bool
  {
    (m: DbMessage) => m.chatId == chatId && m.createdAt >= timestamp
  }

  /** Whether a vote is not on one of the listed messages of the chat. */
  function VoteNotIn(chatId: string, ids: seq<string>): Vote -> bool
  {
    (v: Vote) => !(v.chatId == chatId && v.messageId in ids)
  }

  /** Whether a message is not one of the listed messages of the chat. */
  function MessageNotIn(chatId: string, ids: seq<string>): DbMessage -> bool
  {
    (m: DbMessage) => !(m.chatId == chatId && m.id in ids)
  }

  /** The tables once the chat's messages from the timestamp on are deleted by id, with their votes. */
  function WithoutLateMessages(t: Tables, chatId: string, timestamp: int): Tables
  {
    var ids := MessageIds(Filter(t.messages, IsLate(chatId, timestamp)));
    if |ids| == 0 then t
    else t.(votes := Filter(t.votes, VoteNotIn(chatId, ids)),
            messages := Filter(t.messages, MessageNotIn(chatId, ids)))
  }

  /** With no late message, deleting by the empty id list changes nothing. */
  lemma NothingLate(t: Tables, chatId: string, timestamp: int)
    requires |MessageIds(Filter(t.messages, IsLate(chatId, timestamp)))| == 0
    ensures Filter(t.messages, (m: DbMessage) => !IsLate(chatId, timestamp)(m)) == t.messages
  {
    assert forall m :: m in t.messages ==> !IsLate(chatId, timestamp)(m);
    FilterAll(t.messages, (m: DbMessage) => !IsLate(chatId, timestamp)(m));
  }

  /** In a table with unique ids, a message of the chat has a late id exactly when it is late itself. */
  lemma LateByIdIsLate(messages: seq<DbMessage>, chatId: string, timestamp: int)
    requires UniqueBy(messages, MessageId)
    ensures var ids := MessageIds(Filter(messages, IsLate(chatId, timestamp)));
            forall m :: m in messages ==>
              MessageNotIn(chatId, ids)(m) == !IsLate(chatId, timestamp)(m)
  {
    var late := Filter(messages, IsLate(chatId, timestamp));
    var ids := MessageIds(late);
    forall m | m in messages ensures MessageNotIn(chatId, ids)(m) == !IsLate(chatId, timestamp)(m) {
      if m.chatId == chatId && m.id in ids {
        var i :| 0 <= i < |ids| && ids[i] == m.id;
        assert late[i] in late;
        var j :| 0 <= j < |messages| && messages[j] == late[i];
        var k :| 0 <= k < |messages| && messages[k] == m;
        SameKeySamePosition(messages, MessageId, j, k);
      }
      if IsLate(chatId, timestamp)(m) {
        assert m in late;
        var i :| 0 <= i < |late| && late[i] == m;
        assert ids[i] == m.id;
      }
    }
  }

  /**
   * Deleting the late messages by id removes exactly the late messages when
   * message ids are unique, and keeps every key unique.
   */
  lemma LateDeletionKeyed(t: Tables, chatId: string, timestamp: int)
    requires Keyed(t)
    ensures Keyed(WithoutLateMessages(t, chatId, timestamp))
    ensures WithoutLateMessages(t, chatId, timestamp).messages
            == Filter(t.messages, (m: DbMessage) => !IsLate(chatId, timestamp)(m))
  {
    var late := Filter(t.messages, IsLate(chatId, timestamp));
    var ids := MessageIds(late);
    var keepLate := (m: DbMessage) => !IsLate(chatId, timestamp)(m);
    if |ids| == 0 {
      NothingLate(t, chatId, timestamp);
    } else {
      var keepId := MessageNotIn(chatId, ids);
      LateByIdIsLate(t.messages, chatId, timestamp);
      FilterCongruent(t.messages, keepId, keepLate);
      FilterKeepsUnique(t.votes, VoteNotIn(chatId, ids), VoteKey);
      FilterKeepsUnique(t.messages, keepId, MessageId);
    }
  }

  /** Whether the user owns a chat with that id. */
  predicate OwnsChat(chats: seq<Chat>, userId: string, chatId: string)
  {
    exists c :: c in chats && c.userId == userId && c.id == chatId
  }

  /** The tables once a user's chats are deleted with their votes, messages and streams. */
  function WithoutUserChats(t: Tables, userId: string): (r: Tables)
    ensures r.summaries == t.summaries && r.summaryVersions == t.summaryVersions
    ensures r.distilled == t.distilled && r.agentTasks == t.agentTasks
    ensures forall c :: c in r.chats <==> c in t.chats && c.userId != userId
    ensures forall m :: m in r.messages <==> m in t.messages && !OwnsChat(t.chats, userId, m.chatId)
    ensures forall v :: v in r.votes <==> v in t.votes && !OwnsChat(t.chats, userId, v.chatId)
    ensures forall s :: s in r.streams <==> s in t.streams && !OwnsChat(t.chats, userId, s.chatId)
  {
    var ids := ChatIds(Filter(t.chats, (c: Chat) => c.userId == userId));
    ChatIdsMembers(Filter(t.chats, (c: Chat) => c.userId == userId));
    t.(votes := Filter(t.votes, (v: Vote) => v.chatId !in ids),
       messages := Filter(t.messages, (m: DbMessage) => m.chatId !in ids),
       streams := Filter(t.streams, (s: Stream) => s.chatId !in ids),
       chats := Filter(t.chats, (c: Chat) => c.userId != userId))
  }

  /** A user without chats leaves every table as it was. */
  lemma NoChatsOfUser(t: Tables, userId: string)
    requires |Filter(t.chats, (c: Chat) => c.userId == userId)| == 0
    ensures WithoutUserChats(t, userId) == t
  {
    var ids := ChatIds(Filter(t.chats, (c: Chat) => c.userId == userId));
    FilterAll(t.votes, (v: Vote) => v.chatId !in ids);
    FilterAll(t.messages, (m: DbMessage) => m.chatId !in ids);
    FilterAll(t.streams, (s: Stream) => s.chatId !in ids);
    assert forall c :: c in t.chats ==> c.userId != userId;
    FilterAll(t.chats, (c: Chat) => c.userId != userId);
  }

  /** Deleting a user's chats keeps every key unique. */
  lemma DeletionKeepsUnique(t: Tables, userId: string)
    requires Keyed(t)
    ensures Keyed(WithoutUserChats(t, userId))
  {
    var ids := ChatIds(Filter(t.chats, (c: Chat) => c.userId == userId));
    FilterKeepsUnique(t.votes, (v: Vote) => v.chatId !in ids, VoteKey);
    FilterKeepsUnique(t.messages, (m: DbMessage) => m.chatId !in ids, MessageId);
    FilterKeepsUnique(t.streams, (s: Stream) => s.chatId !in ids, StreamId);
    FilterKeepsUnique(t.chats, (c: Chat) => c.userId != userId, ChatId);
  }

  class Store {
    var chats: seq<Chat>
    var messages: seq<DbMessage>
    var votes: seq<Vote>
    var streams: seq<Stream>
    var summaries: seq<MemorySummary>
    var summaryVersions: seq<MemorySummaryVersion>
    var distilled: seq<DistilledMemory>
    var agentTasks: seq<AgentTask>

    /** Every primary key is unique. */
    ghost predicate Valid()
      reads this
    {
      Keyed(Snapshot())
    }

    function Snapshot(): Tables
      reads this
    {
      Tables(chats, messages, votes, streams, summaries, summaryVersions, distilled, agentTasks)
    }

    constructor ()
      ensures Valid()
      ensures Snapshot() == Tables([], [], [], [], [], [], [], [])
    {
      chats, messages, votes, streams := [], [], [], [];
      summaries, summaryVersions, distilled, agentTasks := [], [], [], [];
    }

    // ----- chats -----

    /** Inserts a new chat; a duplicate id is rejected. */
    method SaveChat(id: string, userId: string, title: string, visibility: Visibility, now: int)
      returns (o: Outcome)
      requires Valid()
      modifies this
      ensures Valid()
      ensures o.Done? <==> forall c :: c in old(chats) ==> c.id != id
      ensures o.Failed? ==> o.error == BadRequestDatabase
      ensures Snapshot() == old(Snapshot()).(
                chats := if o.Done? then old(chats) + [NewChat(id, userId, title, visibility, now)] else old(chats))
    {
      if First(chats, (c: Chat) => c.id == id).Some? {
        return Failed(BadRequestDatabase);
      }
      UniqueAppend(chats, NewChat(id, userId, title, visibility, now), ChatId);
      chats := chats + [NewChat(id, userId, title, visibility, now)];
      o := Done;
    }

    /** Deletes a chat with its votes, messages and streams; returns the deleted chat, if any. */
    method DeleteChatById(id: string) returns (deleted: Option<Chat>)
      requires Valid()
      modifies this
      ensures Valid()
      ensures deleted == First(old(chats), (c: Chat) => c.id == id)
      ensures Snapshot() == WithoutChat(old(Snapshot()), id)
    {
      ghost var before := Snapshot();
      var t := WithoutChat(Snapshot(), id);
      votes := t.votes;
      messages := t.messages;
      streams := t.streams;
      deleted := First(chats, (c: Chat) => c.id == id);
      chats := t.chats;
      assert Snapshot() == WithoutChat(before, id);
      ChatDeletionKeyed(before, id);
    }

    /** Deletes every chat of a user with their votes, messages and streams; returns how many chats went. */
    method DeleteAllChatsByUserId(userId: string) returns (deletedCount: nat)
      requires Valid()
      modifies this
      ensures Valid()
      ensures deletedCount == |Filter(old(chats), (c: Chat) => c.userId == userId)|
      ensures Snapshot() == WithoutUserChats(old(Snapshot()), userId)
    {
      var ids := ChatIds(Filter(chats, (c: Chat) => c.userId == userId));
      if |ids| == 0 {
        NoChatsOfUser(Snapshot(), userId);
        return 0;
      }
      ghost var before := Snapshot();
      var t := WithoutUserChats(Snapshot(), userId);
      votes := t.votes;
      messages := t.messages;
      streams := t.streams;
      chats := t.chats;
      deletedCount := |ids|;
      assert Snapshot() == WithoutUserChats(before, userId);
      DeletionKeepsUnique(before, userId);
    }

    /** Records activity on a chat: `lastActivityAt` becomes now and the message count grows by addedMessages. */
    method TouchChat(chatId: string, addedMessages: int, now: int)
      requires Valid()
      modifies this
      ensures Valid()
      ensures Snapshot() == old(Snapshot()).(
                chats := UpdateWhere(old(chats), (c: Chat) => c.id == chatId,
                           (c: Chat) => c.(lastActivityAt := Some(now),
                                           messageCount := Some(OrZero(c.messageCount) + addedMessages))))
      ensures forall i :: 0 <= i < |chats| && chats[i].id == chatId ==>
                chats[i].lastActivityAt == Some(now)
                && OrZero(chats[i].messageCount) == OrZero(old(chats)[i].messageCount) + addedMessages
    {
      var f := (c: Chat) => c.(lastActivityAt := Some(now),
                               messageCount := Some(OrZero(c.messageCount) + addedMessages));
      UpdateKeepsUnique(chats, (c: Chat) => c.id == chatId, f, ChatId);
      chats := UpdateWhere(chats, (c: Chat) => c.id == chatId, f);
    }

    /** Marks a chat finalized unless it already is; reports whether this call made the transition. */
    method FinalizeChat(chatId: string, now: int) returns (transitioned: bool)
      requires Valid()
      modifies this
      ensures Valid()
      ensures (chats, transitioned) == Finalize(old(chats), chatId, now)
      ensures Snapshot() == old(Snapshot()).(chats := chats)
    {
      var existing := First(chats, (c: Chat) => c.id == chatId);
      if existing.Some? && existing.value.finalizedAt.Some? {
        return false;
      }
      FinalizeTransition(chats, chatId, now);
      chats := UpdateWhere(chats, (c: Chat) => c.id == chatId, (c: Chat) => c.(finalizedAt := Some(now)));
      transitioned := true;
    }

    /**
     * The `{ id, userId }` of every chat that is not finalized and whose last
     * activity is strictly before now − idleMinutes minutes.
     */
    function GetIdleUnfinalizedChats(idleMinutes: int, now: int): (r: seq<ChatRef>)
      reads this
      ensures forall x :: x in r <==>
                exists c :: c in chats && IsIdle(c, now - idleMinutes * MsPerMinute) && x == ChatRef(c.id, c.userId)
    {
      var cutoff := now - idleMinutes * MsPerMinute;
      var idle := Filter(chats, (c: Chat) => IsIdle(c, cutoff));
      var r := Refs(idle);
      assert forall x :: x in r ==> exists c :: c in chats && IsIdle(c, cutoff) && x == ChatRef(c.id, c.userId) by {
        forall x | x in r ensures exists c :: c in chats && IsIdle(c, cutoff) && x == ChatRef(c.id, c.userId) {
          var i :| 0 <= i < |r| && r[i] == x;
          assert idle[i] in idle;
        }
      }
      assert forall c :: c in chats && IsIdle(c, cutoff) ==> ChatRef(c.id, c.userId) in r by {
        forall c | c in chats && IsIdle(c, cutoff) ensures ChatRef(c.id, c.userId) in r {
          assert c in idle;
          var i :| 0 <= i < |idle| && idle[i] == c;
          assert r[i] == ChatRef(c.id, c.userId);
        }
      }
      r
    }

    /** The `createdAt` bound a cursor stands for; a cursor naming no chat is an error. */
    function CursorBound(startingAfter: Option<string>, endingBefore: Option<string>): (r: Result<Bound>)
      reads this
      ensures r.Err? ==> r.error == BadRequestDatabase
    {
      if Truthy(startingAfter) then
        match First(chats, (c: Chat) => c.id == startingAfter.value)
        case None => Err(BadRequestDatabase)
        case Some(anchor) => Ok(NewerThan(anchor.createdAt))
      else if Truthy(endingBefore) then
        match First(chats, (c: Chat) => c.id == endingBefore.value)
        case None => Err(BadRequestDatabase)
        case Some(anchor) => Ok(OlderThan(anchor.createdAt))
      else Ok(Unbounded)
    }

    /** The user's chats the bound admits, in storage order. */
    function Matching(userId: string, b: Bound): (r: seq<Chat>)
      reads this
      ensures forall c :: c in r <==> c in chats && c.userId == userId && InBound(c, b)
    {
      Filter(chats, (c: Chat) => c.userId == userId && InBound(c, b))
    }

    /**
     * A page of the user's chats, newest first: at most limit of them, the
     * newest the cursor admits, and `hasMore` exactly when more than limit
     * matched (the query reads limit+1 rows). A cursor that names no chat
     * fails, and the not-found error is reported as a bad request.
     */
    function GetChatsByUserId(userId: string, limit: nat, startingAfter: Option<string>, endingBefore: Option<string>)
      : (r: Result<ChatPage>)
      reads this
      ensures r.Err? <==>
                (Truthy(startingAfter) && forall c :: c in chats ==> c.id != startingAfter.value)
                || (!Truthy(startingAfter) && Truthy(endingBefore) && forall c :: c in chats ==> c.id != endingBefore.value)
      ensures r.Err? ==> r.error == BadRequestDatabase
      ensures r.Ok? ==>
                var m := Matching(userId, CursorBound(startingAfter, endingBefore).value);
                && |r.value.chats| == (if |m| < limit then |m| else limit)
                && (forall c :: c in r.value.chats ==> c in m)
                && Sorting.SortedDesc(r.value.chats, ChatCreated)
                && (r.value.hasMore <==> |m| > limit)
                && (forall c, d :: c in m && c !in r.value.chats && d in r.value.chats ==> ChatCreated(d) >= ChatCreated(c))
      ensures r.Ok? && Truthy(startingAfter) ==>
                CursorBound(startingAfter, endingBefore).value.NewerThan?
      ensures r.Ok? && !Truthy(startingAfter) && Truthy(endingBefore) ==>
                CursorBound(startingAfter, endingBefore).value.OlderThan?
    {
      match CursorBound(startingAfter, endingBefore)
      case Err(e) => Err(e)
      case Ok(b) => Ok(Paginate(Matching(userId, b), limit))
    }

    /** Every distinct user id that owns a chat, each once. */
    function GetAllUserIds(): (r: seq<string>)
      reads this
      ensures Distinct(r)
      ensures forall u :: u in r <==> exists c :: c in chats && c.userId == u
    {
      var owners := seq(|chats|, i requires 0 <= i < |chats| reads this => chats[i].userId);
      assert forall u :: u in owners <==> exists c :: c in chats && c.userId == u by {
        forall u ensures u in owners <==> exists c :: c in chats && c.userId == u {
          if exists c :: c in chats && c.userId == u {
            var c :| c in chats && c.userId == u;
            var i :| 0 <= i < |chats| && chats[i] == c;
            assert owners[i] == u;
          }
        }
      }
      Dedup(owners)
    }

    // ----- messages and votes -----

    /** Inserts a batch of messages; any duplicate id, within the batch or against the table, rejects all of them. */
    method SaveMessages(batch: seq<DbMessage>) returns (o: Outcome)
      requires Valid()
      modifies this
      ensures Valid()
      ensures o.Done? <==>
                UniqueBy(batch, MessageId) && forall m, n :: m in old(messages) && n in batch ==> m.id != n.id
      ensures o.Failed? ==> o.error == BadRequestDatabase
      ensures Snapshot() == old(Snapshot()).(messages := if o.Done? then old(messages) + batch else old(messages))
    {
      if !UniqueBy(batch, MessageId) || exists m, n :: m in messages && n in batch && m.id == n.id {
        return Failed(BadRequestDatabase);
      }
      UniqueConcat(messages, batch, MessageId);
      messages := messages + batch;
      o := Done;
    }

    /** The chat's messages, oldest first. */
    function GetMessagesByChatId(chatId: string): (r: seq<DbMessage>)
      reads this
      ensures forall m :: m in r <==> m in messages && m.chatId == chatId
      ensures multiset(r) == multiset(Filter(messages, (m: DbMessage) => m.chatId == chatId))
      ensures forall i, j :: 0 <= i < j < |r| ==> r[i].createdAt <= r[j].createdAt
    {
      ChatMessages(messages, chatId)
    }

    /**
     * Records an up or down vote. The existing vote is looked up by message
     * alone but updated by message and chat, so a vote on that message under
     * another chat leaves the table as it is.
     */
    method VoteMessage(chatId: string, messageId: string, t: VoteType)
      requires Valid()
      modifies this
      ensures Valid()
      ensures Snapshot() == old(Snapshot()).(votes := Voted(old(votes), chatId, messageId, t == Up))
      ensures forall v :: v in votes && VoteKey(v) == (chatId, messageId) ==> v.isUpvoted == (t == Up)
      ensures (exists v :: v in votes && VoteKey(v) == (chatId, messageId))
          <==> (exists v :: v in old(votes) && VoteKey(v) == (chatId, messageId))
               || (forall v :: v in old(votes) ==> v.messageId != messageId)
    {
      var existing := First(votes, (v: Vote) => v.messageId == messageId);
      if existing.Some? {
        var p := (v: Vote) => v.messageId == messageId && v.chatId == chatId;
        var f := (v: Vote) => v.(isUpvoted := t == Up);
        UpdateKeepsUnique(votes, p, f, VoteKey);
        VoteUpdate(votes, chatId, messageId, t == Up);
        votes := UpdateWhere(votes, p, f);
      } else {
        UniqueAppend(votes, Vote(chatId, messageId, t == Up), VoteKey);
        votes := votes + [Vote(chatId, messageId, t == Up)];
      }
    }

    /** Deletes the chat's messages created at or after the timestamp, with their votes in that chat. */
    method DeleteMessagesByChatIdAfterTimestamp(chatId: string, timestamp: int)
      requires Valid()
      modifies this
      ensures Valid()
      ensures Snapshot() == WithoutLateMessages(old(Snapshot()), chatId, timestamp)
      ensures messages == Filter(old(messages), (m: DbMessage) => !IsLate(chatId, timestamp)(m))
    {
      ghost var before := Snapshot();
      var ids := MessageIds(Filter(messages, IsLate(chatId, timestamp)));
      if |ids| == 0 {
        NothingLate(before, chatId, timestamp);
        return;
      }
      votes := Filter(votes, VoteNotIn(chatId, ids));
      messages := Filter(messages, MessageNotIn(chatId, ids));
      assert Snapshot() == WithoutLateMessages(before, chatId, timestamp);
      LateDeletionKeyed(before, chatId, timestamp);
    }

    // ----- rolling summary -----

    /** The user's summary row, if there is one. */
    function GetMemorySummary(userId: string): (r: Option<MemorySummary>)
      reads this
      ensures r.Some? ==> r.value in summaries && r.value.userId == userId
      ensures r.None? <==> forall s :: s in summaries ==> s.userId != userId
    {
      SummaryOf(summaries, userId)
    }

    /** Replaces the user's summary, bumping its version and archiving the previous one. */
    method UpdateMemorySummary(userId: string, content: string, now: int)
      requires Valid()
      modifies this
      ensures Valid()
      ensures (summaries, summaryVersions) == Upsert(old(summaries), old(summaryVersions), userId, content, now)
      ensures Snapshot() == old(Snapshot()).(summaries := summaries, summaryVersions := summaryVersions)
      ensures GetMemorySummary(userId).Some? && GetMemorySummary(userId).value.content == content
    {
      ghost var before := Snapshot();
      var existing := GetMemorySummary(userId);
      var newVersion := VersionOf(existing) + 1;
      var row := MemorySummary(userId, content, now, Some(newVersion), Some(false));
      if existing.Some? {
        summaryVersions := summaryVersions + [MemorySummaryVersion(userId, VersionOf(existing), existing.value.content, now)];
        summaries := Replace(summaries, row);
      } else {
        summaries := summaries + [row];
      }
      assert (summaries, summaryVersions) == Upsert(before.summaries, before.summaryVersions, userId, content, now);
      assert Snapshot() == before.(summaries := summaries, summaryVersions := summaryVersions);
      UpsertKeyed(before, userId, content, now);
    }

    // ----- distilled memory -----

    /** The user's distilled entries (of one tier when given), newest first, at most limit of them. */
    function GetDistilledMemory(userId: string, tier: Option<int>, limit: nat): (r: seq<DistilledMemory>)
      reads this
      ensures |r| == if |InTierRows(distilled, userId, tier)| < limit then |InTierRows(distilled, userId, tier)| else limit
      ensures forall d :: d in r ==> d in distilled && InTier(d, userId, tier)
      ensures Sorting.SortedDesc(r, DistilledCreated)
      ensures forall d, e :: d in distilled && InTier(d, userId, tier) && d !in r && e in r
                ==> e.createdAt >= d.createdAt
      ensures |r| < limit ==> forall d :: d in distilled && InTier(d, userId, tier) ==> d in r
    {
      var own := InTierRows(distilled, userId, tier);
      Sorting.TopOfSorted(own, DistilledCreated, limit);
      Take(Sorting.SortDesc(own, DistilledCreated), limit)
    }

    /** Inserts a distilled entry created now; a duplicate id is rejected. */
    method InsertDistilledMemory(id: string, userId: string, tier: int, content: string,
                                 sourceChatIds: seq<string>, now: int) returns (o: Outcome)
      requires Valid()
      modifies this
      ensures Valid()
      ensures o.Done? <==> forall d :: d in old(distilled) ==> d.id != id
      ensures o.Failed? ==> o.error == ConstraintViolation
      ensures Snapshot() == old(Snapshot()).(distilled :=
                if o.Done? then old(distilled) + [DistilledMemory(id, userId, tier, content, sourceChatIds, now)]
                else old(distilled))
    {
      var row := DistilledMemory(id, userId, tier, content, sourceChatIds, now);
      if First(distilled, (d: DistilledMemory) => d.id == id).Some? {
        return Failed(ConstraintViolation);
      }
      UniqueAppend(distilled, row, DistilledId);
      distilled := distilled + [row];
      o := Done;
    }

    /** Removes exactly the entries whose id is listed; an empty list is a no-op. */
    method DeleteDistilledMemoryByIds(ids: seq<string>)
      requires Valid()
      modifies this
      ensures Valid()
      ensures Snapshot() == old(Snapshot()).(distilled := Filter(old(distilled), (d: DistilledMemory) => d.id !in ids))
      ensures forall d :: d in distilled <==> d in old(distilled) && d.id !in ids
      ensures ids == [] ==> distilled == old(distilled)
    {
      if |ids| == 0 {
        FilterAll(distilled, (d: DistilledMemory) => d.id !in ids);
        return;
      }
      FilterKeepsUnique(distilled, (d: DistilledMemory) => d.id !in ids, DistilledId);
      distilled := Filter(distilled, (d: DistilledMemory) => d.id !in ids);
    }

    /**
     * Ids of the user's chats finalized strictly before now − olderThanMs that
     * no distilled entry has used yet; an unfinalized chat never qualifies.
     */
    function GetFinalizedChatsForDistillation(userId: string, olderThanMs: int,
                                              existingSourceChatIds: seq<string>, now: int): (r: seq<string>)
      reads this
      ensures forall id :: id in r <==>
                exists c :: c in chats && c.id == id && c.userId == userId
                  && c.finalizedAt.Some? && c.finalizedAt.value < now - olderThanMs
                  && id !in existingSourceChatIds
    {
      var cutoff := now - olderThanMs;
      var rows := Filter(chats, (c: Chat) => c.userId == userId && c.finalizedAt.Some? && c.finalizedAt.value < cutoff);
      var unused := Filter(rows, (c: Chat) => c.id !in existingSourceChatIds);
      var r := ChatIds(unused);
      ChatIdsMembers(unused);
      r
    }

    // ----- agent tasks -----

    /** Inserts a queued task created now; a duplicate id is rejected. */
    method CreateAgentTask(id: string, userId: string, input: string, linkedChatId: Option<string>, now: int)
      returns (o: Outcome)
      requires Valid()
      modifies this
      ensures Valid()
      ensures o.Done? <==> forall t :: t in old(agentTasks) ==> t.id != id
      ensures o.Failed? ==> o.error == ConstraintViolation
      ensures Snapshot() == old(Snapshot()).(agentTasks :=
                if o.Done? then old(agentTasks) + [AgentTask(id, userId, "queued", now, now, None, input, None, None, linkedChatId)]
                else old(agentTasks))
    {
      var row := AgentTask(id, userId, "queued", now, now, None, input, None, None, linkedChatId);
      if First(agentTasks, (t: AgentTask) => t.id == id).Some? {
        return Failed(ConstraintViolation);
      }
      UniqueAppend(agentTasks, row, TaskId);
      agentTasks := agentTasks + [row];
      o := Done;
    }

    /** Applies the given field updates to the task and stamps `updatedAt`. */
    method UpdateAgentTask(id: string, status: Option<string>, openhandsTaskId: Option<string>,
                           result: Option<string>, error: Option<string>, now: int)
      requires Valid()
      modifies this
      ensures Valid()
      ensures Snapshot() == old(Snapshot()).(agentTasks :=
                UpdateWhere(old(agentTasks), (t: AgentTask) => t.id == id,
                            (t: AgentTask) => Patched(t, status, openhandsTaskId, result, error, now)))
    {
      var f := (t: AgentTask) => Patched(t, status, openhandsTaskId, result, error, now);
      UpdateKeepsUnique(agentTasks, (t: AgentTask) => t.id == id, f, TaskId);
      agentTasks := UpdateWhere(agentTasks, (t: AgentTask) => t.id == id, f);
    }
  }
}
