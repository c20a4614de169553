/**
 * The rolling-summary engine: the sentence-aware truncation that caps a
 * summary, the flattening of a chat into a `[role] text` transcript, and the
 * finalize-then-summarize flow. The language model is a caller-supplied
 * function from (prior summary, transcript) to the new summary text, `None`
 * standing for a call that throws.
 */
module Memory {
  import opened Common
  import opened Schema
  import opened Queries

  /** The longest summary ever stored. */
  const SummaryHardCap: nat := 8000

  predicate IsBreak(c: char)
  {
    c == '.' || c == '\n'
  }

  /** `s.lastIndexOf(c)`: the last position holding c, or -1. */
  function LastIndexOf(s: string, c: char): (i: int)
    ensures -1 <= i < |s|
    ensures i >= 0 ==> s[i] == c
    ensures forall j :: i < j < |s| ==> s[j] != c
  {
    if s == [] then -1
    else if s[|s| - 1] == c then |s| - 1
    else LastIndexOf(s[..|s| - 1], c)
  }

  /** `Math.max(s.lastIndexOf("."), s.lastIndexOf("\n"))`: the last sentence break, or -1. */
  function LastBreak(s: string): (i: int)
    ensures -1 <= i < |s|
    ensures i >= 0 ==> IsBreak(s[i])
    ensures forall j :: i < j < |s| ==> !IsBreak(s[j])
  {
    var period, newline := LastIndexOf(s, '.'), LastIndexOf(s, '\n');
    if period >= newline then period else newline
  }

  /**
   * Cuts text to at most maxLen characters. Short text is kept whole; long
   * text is cut just after its last '.' or '\n' within the first maxLen
   * characters when that break lies beyond the halfway mark (`breakAt >
   * maxLen * 0.5`, i.e. 2·breakAt > maxLen), and at maxLen otherwise.
   */
  function TruncateAtSentence(text: string, maxLen: nat): (r: string)
    ensures |r| <= maxLen && |r| <= |text|
    ensures r == text[..|r|]
    ensures |text| <= maxLen ==> r == text
    ensures r != text ==> |r| == maxLen || (|r| > 0 && IsBreak(r[|r| - 1]) && 2 * (|r| - 1) > maxLen)
  {
    if |text| <= maxLen then text
    else
      var cut := text[..maxLen];
      var breakAt := LastBreak(cut);
      if 2 * breakAt > maxLen then cut[..breakAt + 1] else cut
  }

  /** When the last break within the limit lies past halfway, the cut keeps text up to and including it. */
  lemma TruncateAtLastBreak(text: string, maxLen: nat, i: int)
    requires |text| > maxLen
    requires 0 <= i < maxLen && IsBreak(text[i])
    requires forall j :: i < j < maxLen ==> !IsBreak(text[j])
    requires 2 * i > maxLen
    ensures TruncateAtSentence(text, maxLen) == text[..i + 1]
  {
    var cut := text[..maxLen];
    var b := LastBreak(cut);
    assert forall j :: 0 <= j < maxLen ==> cut[j] == text[j];
    assert b == i;
  }

  /** With no break past halfway, long text is cut at exactly maxLen characters. */
  lemma TruncateHardCut(text: string, maxLen: nat)
    requires |text| > maxLen
    requires forall j :: 0 <= j < maxLen && IsBreak(text[j]) ==> 2 * j <= maxLen
    ensures TruncateAtSentence(text, maxLen) == text[..maxLen]
  {
    var cut := text[..maxLen];
    var b := LastBreak(cut);
    if b >= 0 {
      assert cut[b] == text[b];
    }
  }

  /** The strings of the parts whose `type` is "text" and whose `text` is a string, in order. */
  function TextsOf(items: seq<PartValue>): seq<string>
  {
    if items == [] then []
    else
      var head := items[0];
      (if head.PartObject? && head.kind == Some("text") && head.text.Some? then [head.text.value] else [])
      + TextsOf(items[1..])
  }

  /** The text parts of a concatenation are those of each half, in order. */
  lemma {:induction false} TextsOfAppend(a: seq<PartValue>, b: seq<PartValue>)
    ensures TextsOf(a + b) == TextsOf(a) + TextsOf(b)
  {
    if a == [] {
      assert a + b == b;
    } else {
      assert (a + b)[1..] == a[1..] + b;
      TextsOfAppend(a[1..], b);
    }
  }

  /** Each text part contributes its string and nothing else contributes anything. */
  lemma {:induction false} TextsOfMembers(items: seq<PartValue>)
    ensures |TextsOf(items)| <= |items|
    ensures forall t :: t in TextsOf(items) <==> PartObject(Some("text"), Some(t)) in items
  {
    if items != [] {
      TextsOfMembers(items[1..]);
      assert items == [items[0]] + items[1..];
    }
  }

  /** The plain text of a message: its text parts joined by newlines, or `String(parts ?? "")` for a non-array. */
  function ExtractTextFromParts(parts: Parts): (r: string)
    ensures parts.Nullish? ==> r == ""
    ensures parts.PartList? ==>
              var texts := TextsOf(parts.items);
              && |r| == TotalLength(texts) + (if texts == [] then 0 else |texts| - 1)
              && forall t :: PartObject(Some("text"), Some(t)) in parts.items ==> Contains(r, t)
  {
    match parts
    case PartList(items) =>
      JoinLength(TextsOf(items), "\n");
      JoinContains(TextsOf(items), "\n");
      TextsOfMembers(items);
      Join(TextsOf(items), "\n")
    case Nullish => ""
    case Scalar(rendered) => rendered
  }

  /** A message made of a single text part reads as that text. */
  lemma SingleTextPart(t: string)
    ensures ExtractTextFromParts(PartList([PartObject(Some("text"), Some(t))])) == t
  {
    assert TextsOf([PartObject(Some("text"), Some(t))]) == [t];
  }

  /** The transcript line of one message. */
  function TranscriptLine(m: DbMessage): string
  {
    "[" + m.role + "] " + ExtractTextFromParts(m.parts)
  }

  function TranscriptLines(messages: seq<DbMessage>): (lines: seq<string>)
    ensures |lines| == |messages|
    ensures forall i :: 0 <= i < |messages| ==> lines[i] == TranscriptLine(messages[i])
  {
    seq(|messages|, i requires 0 <= i < |messages| => TranscriptLine(messages[i]))
  }

  /** One `[role] text` line per message, in message order, separated by newlines. */
  function Transcript(messages: seq<DbMessage>): string
  {
    Join(TranscriptLines(messages), "\n")
  }

  /** A transcript grows by a newline and one line per further message. */
  lemma TranscriptSnoc(messages: seq<DbMessage>, m: DbMessage)
    requires messages != []
    ensures Transcript(messages + [m]) == Transcript(messages) + "\n" + TranscriptLine(m)
  {
    assert TranscriptLines(messages + [m]) == TranscriptLines(messages) + [TranscriptLine(m)];
    JoinSnoc(TranscriptLines(messages), TranscriptLine(m), "\n");
  }

  /** `existing?.content ?? ""`. */
  function PriorContent(existing: Option<MemorySummary>): string
  {
    if existing.Some? then existing.value.content else ""
  }

  /**
   * The content summarizeChat stores for a chat with these messages and this
   * prior summary, or None when it stores nothing: the chat has no messages,
   * or the model call fails.
   */
  function SummaryContent(messages: seq<DbMessage>, existing: Option<MemorySummary>,
                          generate: (string, string) -> Option<string>): Option<string>
  {
    if messages == [] then None
    else
      match generate(PriorContent(existing), Transcript(messages))
      case None => None
      case Some(text) => Some(TruncateAtSentence(text, SummaryHardCap))
  }

  /** What is stored is the model's text, cut to the hard cap; an empty chat stores nothing. */
  lemma SummaryContentCapped(messages: seq<DbMessage>, existing: Option<MemorySummary>,
                             generate: (string, string) -> Option<string>)
    ensures messages == [] ==> SummaryContent(messages, existing, generate).None?
    ensures var c := SummaryContent(messages, existing, generate);
            c.Some? ==>
              var text := generate(PriorContent(existing), Transcript(messages));
              text.Some? && |c.value| <= SummaryHardCap && c.value == text.value[..|c.value|]
  {
  }

  /**
   * Folds a chat into the user's rolling summary: nothing happens for a chat
   * without messages or when the model fails; otherwise the capped text
   * replaces the summary.
   */
  method SummarizeChat(store: Store, chatId: string, userId: string,
                       generate: (string, string) -> Option<string>, now: int)
    returns (stored: Option<string>)
    requires store.Valid()
    modifies store
    ensures store.Valid()
    ensures stored == SummaryContent(old(store.GetMessagesByChatId(chatId)), old(store.GetMemorySummary(userId)), generate)
    ensures stored.None? ==> store.Snapshot() == old(store.Snapshot())
    ensures stored.Some? ==>
              && (store.summaries, store.summaryVersions)
                   == Upsert(old(store.summaries), old(store.summaryVersions), userId, stored.value, now)
              && store.Snapshot() == old(store.Snapshot()).(summaries := store.summaries,
                                                             summaryVersions := store.summaryVersions)
              && store.GetMemorySummary(userId).Some?
              && |store.GetMemorySummary(userId).value.content| <= SummaryHardCap
  {
    var messages := store.GetMessagesByChatId(chatId);
    if |messages| == 0 {
      return None;
    }
    var transcript := Transcript(messages);
    var existing := store.GetMemorySummary(userId);
    var priorSummary := PriorContent(existing);
    var text := generate(priorSummary, transcript);
    if text.None? {
      return None;
    }
    var capped := TruncateAtSentence(text.value, SummaryHardCap);
    store.UpdateMemorySummary(userId, capped, now);
    stored := Some(capped);
  }

  /**
   * The tables after finalizeChatAndSummarize: the chat is finalized and, on a
   * fresh transition, the summary tables take the upsert of the stored content.
   */
  function FinalizedAndSummarized(t: Tables, chatId: string, userId: string,
                                  generate: (string, string) -> Option<string>, now: int): (r: Tables)
    ensures r.chats == Finalize(t.chats, chatId, now).0
    ensures r.messages == t.messages && r.votes == t.votes && r.streams == t.streams
    ensures r.distilled == t.distilled && r.agentTasks == t.agentTasks
    ensures !Finalize(t.chats, chatId, now).1 ==> r == t
    ensures t.summaryVersions <= r.summaryVersions
  {
    var (finalized, transitioned) := Finalize(t.chats, chatId, now);
    if !transitioned then t
    else
      match SummaryContent(ChatMessages(t.messages, chatId), SummaryOf(t.summaries, userId), generate)
      case None => t.(chats := finalized)
      case Some(content) =>
        UpsertArchive(t.summaries, t.summaryVersions, userId, content, now);
        var (summaries, history) := Upsert(t.summaries, t.summaryVersions, userId, content, now);
        t.(chats := finalized, summaries := summaries, summaryVersions := history)
  }

  /**
   * Finalizes a chat and, only when this call made the transition, summarizes
   * it; a failed summarization is swallowed. A chat that was already
   * finalized leaves every table as it was.
   */
  method FinalizeChatAndSummarize(store: Store, chatId: string, userId: string,
                                  generate: (string, string) -> Option<string>, now: int)
    requires store.Valid()
    modifies store
    ensures store.Valid()
    ensures var (finalized, transitioned) := Finalize(old(store.chats), chatId, now);
            && store.chats == finalized
            && (!transitioned ==> store.Snapshot() == old(store.Snapshot()))
            && (transitioned ==>
                  var content := SummaryContent(old(store.GetMessagesByChatId(chatId)),
                                                old(store.GetMemorySummary(userId)), generate);
                  (content.None? ==> store.Snapshot() == old(store.Snapshot()).(chats := finalized))
                  && (content.Some? ==>
                        var (summaries, history) := Upsert(old(store.summaries), old(store.summaryVersions),
                                                           userId, content.value, now);
                        store.Snapshot() == old(store.Snapshot()).(chats := finalized, summaries := summaries,
                                                                   summaryVersions := history)))
    ensures store.Snapshot() == FinalizedAndSummarized(old(store.Snapshot()), chatId, userId, generate, now)
  {
    ghost var before := store.Snapshot();
    assert store.GetMessagesByChatId(chatId) == ChatMessages(before.messages, chatId);
    var wasNew := store.FinalizeChat(chatId, now);
    if !wasNew {
      return;
    }
    var _ := SummarizeChat(store, chatId, userId, generate, now);
  }
}
