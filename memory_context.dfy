/**
 * The memory context injected into the system prompt: up to three sections
 * (rolling summary, recent sessions, weekly patterns), in that order, filled
 * against a 4000-character budget that a `remaining` counter tracks. The
 * "\n\n" separators between sections are not charged to the budget.
 */
module MemoryContext {
  import opened Common
  import opened Schema
  import opened Queries

  const MemoryBudget: int := 4000
  /** Entries read per tier: the five newest tier-1 and the three newest tier-2 entries. */
  const RecentLimit: nat := 5
  const WeeklyLimit: nat := 3
  /** A tier section is considered only while more than this much budget is left. */
  const MinRoom: int := 100
  /** How far short of the remaining budget an over-long summary is cut. */
  const SummaryMargin: int := 25

  const SummaryHeading: string := "### Rolling Summary\n"
  const RecentHeading: string := "### Recent Sessions (last 48h)\n"
  const WeeklyHeading: string := "### Weekly Patterns\n"

  /** The entries as "- content" lines. */
  function Bullets(entries: seq<DistilledMemory>): string
  {
    Join(seq(|entries|, i requires 0 <= i < |entries| => "- " + entries[i].content), "\n")
  }

  /**
   * The summary section and the budget left after it. It is the first
   * section, so the whole budget is available: it goes in whole when it fits,
   * and otherwise its content is cut to the budget less the margin and
   * nothing is left.
   */
  function SummaryStep(content: string): (r: (string, int))
    ensures StartsWith(r.0, SummaryHeading)
    ensures 0 <= r.1 && |r.0| + r.1 <= MemoryBudget
    ensures |SummaryHeading + content| <= MemoryBudget ==>
              r == (SummaryHeading + content, MemoryBudget - |SummaryHeading + content|)
    ensures |SummaryHeading + content| > MemoryBudget ==>
              r == (SummaryHeading + content[..MemoryBudget - SummaryMargin], 0)
  {
    var section := SummaryHeading + content;
    if |section| <= MemoryBudget then (section, MemoryBudget - |section|)
    else (SummaryHeading + content[..MemoryBudget - SummaryMargin], 0)
  }

  /**
   * A tier section and the budget left after it. Nothing is added unless
   * more than MinRoom is left and there are entries; a section that does
   * not fit is cut to exactly the remaining budget, which then drops to 0.
   */
  function TierStep(heading: string, entries: seq<DistilledMemory>, remaining: int): (r: (Option<string>, int))
    requires 0 <= remaining
    ensures r.0.Some? <==> remaining > MinRoom && entries != []
    ensures r.0.None? ==> r.1 == remaining
    ensures r.0.Some? ==>
              var section := heading + Bullets(entries);
              && StartsWith(section, r.0.value)
              && r.1 == remaining - |r.0.value| >= 0
              && (r.0.value == section || (|r.0.value| == remaining && r.1 == 0))
  {
    if remaining > MinRoom && |entries| > 0 then
      var section := heading + Bullets(entries);
      if |section| <= remaining then (Some(section), remaining - |section|)
      else (Some(section[..remaining]), 0)
    else (None, remaining)
  }

  function Opt(x: Option<string>): seq<string>
  {
    if x.Some? then [x.value] else []
  }

  /** The summary section, if the summary has content, and the budget left after it. */
  function SummaryPart(summary: Option<MemorySummary>): (r: (seq<string>, int))
    ensures |r.0| <= 1 && 0 <= r.1 && TotalLength(r.0) + r.1 <= MemoryBudget
    ensures forall x :: x in r.0 ==> StartsWith(x, SummaryHeading)
  {
    if summary.Some? && summary.value.content != "" then
      ([SummaryStep(summary.value.content).0], SummaryStep(summary.value.content).1)
    else ([], MemoryBudget)
  }

  /** The sections buildMemoryContext emits, in order. */
  function Sections(summary: Option<MemorySummary>, tier1: seq<DistilledMemory>, tier2: seq<DistilledMemory>)
    : seq<string>
  {
    var (first, r0) := SummaryPart(summary);
    var (recent, r1) := TierStep(RecentHeading, tier1, r0);
    var (weekly, _) := TierStep(WeeklyHeading, tier2, r1);
    first + Opt(recent) + Opt(weekly)
  }

  /** The context string, or None (`undefined`) when there is nothing to say. */
  function Context(summary: Option<MemorySummary>, tier1: seq<DistilledMemory>, tier2: seq<DistilledMemory>)
    : Option<string>
  {
    if summary.None? && tier1 == [] && tier2 == [] then None
    else
      var parts := Sections(summary, tier1, tier2);
      if parts == [] then None else Some(Join(parts, "\n\n"))
  }

  /** The summary block of buildMemoryContext: the parts and the budget once it has run. */
  method PushSummary(summary: Option<MemorySummary>) returns (parts: seq<string>, remaining: int)
    ensures parts == SummaryPart(summary).0 && remaining == SummaryPart(summary).1
  {
    parts := [];
    remaining := MemoryBudget;
    if summary.Some? && summary.value.content != "" {
      var section := SummaryHeading + summary.value.content;
      if |section| <= remaining {
        parts := [section];
        remaining := remaining - |section|;
      } else {
        parts := [SummaryHeading + summary.value.content[..remaining - SummaryMargin]];
        remaining := 0;
      }
    }
  }

  /** A tier block of buildMemoryContext: pushes the section, cut to the budget, when there is room and there are entries. */
  method PushTier(parts: seq<string>, remaining: int, heading: string, entries: seq<DistilledMemory>)
    returns (parts': seq<string>, remaining': int)
    requires 0 <= remaining
    ensures parts' == parts + Opt(TierStep(heading, entries, remaining).0)
    ensures remaining' == TierStep(heading, entries, remaining).1
  {
    parts', remaining' := parts, remaining;
    if remaining > MinRoom && |entries| > 0 {
      var section := heading + Bullets(entries);
      if |section| <= remaining {
        parts' := parts + [section];
        remaining' := remaining - |section|;
      } else {
        parts' := parts + [section[..remaining]];
        remaining' := 0;
      }
    }
  }

  /**
   * Assembles the context from the three reads: pushes each section that is
   * considered onto `parts` and charges its length to `remaining`.
   */
  method AssembleContext(summary: Option<MemorySummary>, tier1: seq<DistilledMemory>, tier2: seq<DistilledMemory>)
    returns (r: Option<string>)
    ensures r == Context(summary, tier1, tier2)
  {
    if summary.None? && |tier1| == 0 && |tier2| == 0 {
      return None;
    }
    var parts, remaining := PushSummary(summary);
    parts, remaining := PushTier(parts, remaining, RecentHeading, tier1);
    parts, remaining := PushTier(parts, remaining, WeeklyHeading, tier2);
    assert parts == Sections(summary, tier1, tier2);
    r := if |parts| > 0 then Some(Join(parts, "\n\n")) else None;
  }

  /** buildMemoryContext: reads the summary and the newest tier-1 and tier-2 entries, then assembles. */
  method BuildMemoryContext(store: Store, userId: string) returns (r: Option<string>)
    ensures var tier1 := store.GetDistilledMemory(userId, Some(1), RecentLimit);
            var tier2 := store.GetDistilledMemory(userId, Some(2), WeeklyLimit);
            && |tier1| <= RecentLimit && |tier2| <= WeeklyLimit
            && r == Context(store.GetMemorySummary(userId), tier1, tier2)
  {
    var summary := store.GetMemorySummary(userId);
    var tier1 := store.GetDistilledMemory(userId, Some(1), RecentLimit);
    var tier2 := store.GetDistilledMemory(userId, Some(2), WeeklyLimit);
    r := AssembleContext(summary, tier1, tier2);
  }

  /** The sections together never exceed the budget; the joined string exceeds it by at most the separators. */
  lemma ContextWithinBudget(summary: Option<MemorySummary>, tier1: seq<DistilledMemory>, tier2: seq<DistilledMemory>)
    ensures |Sections(summary, tier1, tier2)| <= 3
    ensures TotalLength(Sections(summary, tier1, tier2)) <= MemoryBudget
    ensures var c := Context(summary, tier1, tier2);
            c.Some? ==> |c.value| <= MemoryBudget + 2 * (|Sections(summary, tier1, tier2)| - 1)
  {
    SectionsWithinBudget(summary, tier1, tier2);
    JoinLength(Sections(summary, tier1, tier2), "\n\n");
  }

  /** At most three sections, whose lengths add up to no more than the budget. */
  lemma SectionsWithinBudget(summary: Option<MemorySummary>, tier1: seq<DistilledMemory>, tier2: seq<DistilledMemory>)
    ensures |Sections(summary, tier1, tier2)| <= 3
    ensures TotalLength(Sections(summary, tier1, tier2)) <= MemoryBudget
  {
    var (first, r0) := SummaryPart(summary);
    var (recent, r1) := TierStep(RecentHeading, tier1, r0);
    var (weekly, r2) := TierStep(WeeklyHeading, tier2, r1);
    TierCharges(RecentHeading, tier1, r0);
    TierCharges(WeeklyHeading, tier2, r1);
    TotalLengthAppend(first, Opt(recent));
    TotalLengthAppend(first + Opt(recent), Opt(weekly));
  }

  /** A tier step charges the length of the section it adds, and nothing else, to the budget. */
  lemma TierCharges(heading: string, entries: seq<DistilledMemory>, remaining: int)
    requires 0 <= remaining
    ensures var (section, left) := TierStep(heading, entries, remaining);
            TotalLength(Opt(section)) + left == remaining && 0 <= left
  {
  }

  /** Nothing is returned exactly when there is no non-empty summary and no entry in either tier. */
  lemma ContextNoneIff(summary: Option<MemorySummary>, tier1: seq<DistilledMemory>, tier2: seq<DistilledMemory>)
    ensures Context(summary, tier1, tier2).None?
        <==> (summary.None? || summary.value.content == "") && tier1 == [] && tier2 == []
  {
    var hasSummary := summary.Some? && summary.value.content != "";
    if !hasSummary && tier1 != [] {
      assert TierStep(RecentHeading, tier1, MemoryBudget).0.Some?;
    }
  }

  /** Position of a section in the fixed order, from its heading (3 for none). */
  function HeadingRank(s: string): nat
  {
    if StartsWith(s, SummaryHeading) then 0
    else if StartsWith(s, RecentHeading) then 1
    else if StartsWith(s, WeeklyHeading) then 2
    else 3
  }

  /** Every section starts with its own heading, and the sections come in the fixed order. */
  lemma SectionsInOrder(summary: Option<MemorySummary>, tier1: seq<DistilledMemory>, tier2: seq<DistilledMemory>)
    ensures var parts := Sections(summary, tier1, tier2);
            forall i, j :: 0 <= i < j < |parts| ==> HeadingRank(parts[i]) < HeadingRank(parts[j]) < 3
  {
    var (first, r0) := SummaryPart(summary);
    var (recent, r1) := TierStep(RecentHeading, tier1, r0);
    var (weekly, r2) := TierStep(WeeklyHeading, tier2, r1);
    SummaryPartRank(summary);
    RecentSectionRank(tier1, r0);
    WeeklySectionRank(tier2, r1);
    RanksAscend(first, Opt(recent), Opt(weekly));
  }

  lemma RecentSectionRank(tier1: seq<DistilledMemory>, remaining: int)
    requires 0 <= remaining
    ensures forall x :: x in Opt(TierStep(RecentHeading, tier1, remaining).0) ==> HeadingRank(x) == 1
  {
    var recent := TierStep(RecentHeading, tier1, remaining).0;
    if recent.Some? {
      HeadingSurvivesCut(RecentHeading, Bullets(tier1), recent.value);
      RecentRank(recent.value);
    }
  }

  lemma WeeklySectionRank(tier2: seq<DistilledMemory>, remaining: int)
    requires 0 <= remaining
    ensures forall x :: x in Opt(TierStep(WeeklyHeading, tier2, remaining).0) ==> HeadingRank(x) == 2
  {
    var weekly := TierStep(WeeklyHeading, tier2, remaining).0;
    if weekly.Some? {
      HeadingSurvivesCut(WeeklyHeading, Bullets(tier2), weekly.value);
      WeeklyRank(weekly.value);
    }
  }

  lemma SummaryPartRank(summary: Option<MemorySummary>)
    ensures forall x :: x in SummaryPart(summary).0 ==> HeadingRank(x) == 0
  {
  }

  lemma RecentRank(s: string)
    requires StartsWith(s, RecentHeading)
    ensures HeadingRank(s) == 1
  {
    assert SummaryHeading[5] != RecentHeading[5];
  }

  lemma WeeklyRank(s: string)
    requires StartsWith(s, WeeklyHeading)
    ensures HeadingRank(s) == 2
  {
    assert SummaryHeading[4] != WeeklyHeading[4] && RecentHeading[4] != WeeklyHeading[4];
  }

  /** At most one section of each rank, in rank order, gives strictly ascending ranks. */
  lemma RanksAscend(a: seq<string>, b: seq<string>, c: seq<string>)
    requires |a| <= 1 && |b| <= 1 && |c| <= 1
    requires forall x :: x in a ==> HeadingRank(x) == 0
    requires forall x :: x in b ==> HeadingRank(x) == 1
    requires forall x :: x in c ==> HeadingRank(x) == 2
    ensures forall i, j :: 0 <= i < j < |a + b + c| ==> HeadingRank((a + b + c)[i]) < HeadingRank((a + b + c)[j]) < 3
  {
    var parts := a + b + c;
    forall i, j | 0 <= i < j < |parts| ensures HeadingRank(parts[i]) < HeadingRank(parts[j]) < 3 {
      RankAt(a, b, c, i);
      RankAt(a, b, c, j);
    }
  }

  lemma RankAt(a: seq<string>, b: seq<string>, c: seq<string>, k: int)
    requires 0 <= k < |a + b + c|
    requires forall x :: x in a ==> HeadingRank(x) == 0
    requires forall x :: x in b ==> HeadingRank(x) == 1
    requires forall x :: x in c ==> HeadingRank(x) == 2
    ensures HeadingRank((a + b + c)[k]) == if k < |a| then 0 else if k < |a| + |b| then 1 else 2
  {
    if k < |a| {
      assert (a + b + c)[k] == a[k];
    } else if k < |a| + |b| {
      assert (a + b + c)[k] == b[k - |a|];
    } else {
      assert (a + b + c)[k] == c[k - |a| - |b|];
    }
  }

  /** A prefix of heading + body at least as long as the heading still starts with the whole heading. */
  lemma HeadingSurvivesCut(heading: string, body: string, cut: string)
    requires StartsWith(heading + body, cut) && |heading| <= |cut|
    ensures StartsWith(cut, heading)
  {
    assert cut[..|heading|] == (heading + body)[..|heading|];
  }
}
