/** The state captured before compaction, the history rebuilt from it, and what a
    second compaction reads back. */
module CompactedHistory {
  import opened Wrappers
  import opened Conversation
  import opened Pairing
  import opened UserQuery
  import opened SummaryFormat

  const OMITTED := "Tool call omitted..."

  const CONTINUATION_PREAMBLE :=
    "This session is being continued from a previous conversation that ran out of context. The summary below covers the earlier portion of the conversation.\n\n"

  /** The part of the state context the history is rebuilt from. */
  datatype StateContext = StateContext(recent: seq<Item>, lastQuery: Option<string>)

  datatype CompactedInput = CompactedInput(
    systemMessage: Item, prefix: string, agentsMd: Option<string>, context: StateContext,
    summary: string, transcriptHint: Option<string>, systemReminder: Option<string>)

  /** Rust's `rposition`. */
  function LastIndex(items: seq<Item>, p: Item -> bool): (r: Option<nat>)
    ensures r.Some? ==> r.value < |items| && p(items[r.value])
    ensures r.Some? ==> forall k :: r.value < k < |items| ==> !p(items[k])
    ensures r.None? ==> forall k :: 0 <= k < |items| ==> !p(items[k])
  {
    if items == [] then None
    else
      var last := |items| - 1;
      if p(items[last]) then Some(last) else LastIndex(items[..last], p)
  }

  function LastRealUser(conversation: seq<Item>): (r: Option<nat>)
    ensures r.Some? ==> r.value < |conversation| && IsRealUserTurn(conversation[r.value])
    ensures r.Some? ==> forall k :: r.value < k < |conversation| ==> !IsRealUserTurn(conversation[k])
    ensures r.None? ==> forall k :: 0 <= k < |conversation| ==> !IsRealUserTurn(conversation[k])
  {
    LastIndex(conversation, IsRealUserTurn)
  }

  /** Assistant messages and placeholders for tool results; the rest is left out. */
  function Tail(items: seq<Item>): seq<Item>
  {
    if items == [] then []
    else match items[0]
         case Assistant(_, _) => [items[0]] + Tail(items[1..])
         case ToolResult(id, _, _) => [ToolResult(id, OMITTED, [])] + Tail(items[1..])
         case _ => Tail(items[1..])
  }

  function AfterLastRealUser(conversation: seq<Item>): seq<Item>
  {
    match LastRealUser(conversation)
    case Some(idx) => conversation[idx + 1..]
    case None => conversation
  }

  function MessagesSinceLastRealUser(conversation: seq<Item>): seq<Item>
  {
    Tail(AfterLastRealUser(conversation))
  }

  function LastRealUserQuery(conversation: seq<Item>): Option<string>
  {
    match LastRealUser(conversation)
    case Some(idx) => Some(ExtractUserQuery(PartsText(conversation[idx].content)))
    case None => None
  }

  function BuildContext(conversation: seq<Item>): StateContext
  {
    StateContext(MessagesSinceLastRealUser(conversation), LastRealUserQuery(conversation))
  }

  function SummaryItem(input: CompactedInput): Item
  {
    var formatted := CONTINUATION_PREAMBLE + FormatSummary(input.summary);
    SyntheticText(formatted + (if input.transcriptHint.Some? then input.transcriptHint.value else ""), CompactionMeta)
  }

  function Front(input: CompactedInput): seq<Item>
  {
    [input.systemMessage, SyntheticText(input.prefix, CompactionMeta)]
    + (if input.agentsMd.Some? then [SyntheticText(input.agentsMd.value, ProjectInstructions)] else [])
  }

  function QueryItems(query: Option<string>): seq<Item>
  {
    if query.Some? then [UserText(WrapUserQuery(query.value))] else []
  }

  function Head(input: CompactedInput): seq<Item>
  {
    Front(input) + QueryItems(input.context.lastQuery)
  }

  function Foot(input: CompactedInput): seq<Item>
  {
    [SummaryItem(input)]
    + (if input.systemReminder.Some? then [SyntheticText(input.systemReminder.value, SystemReminder)] else [])
  }

  /** The compacted history; this build carries no summary-first variant. */
  function BuildCompactedHistory(input: CompactedInput): seq<Item>
  {
    Head(input) + input.context.recent + Foot(input)
  }

  // ----- Tail extraction -----

  /** A list that tail extraction could have produced. */
  ghost predicate TailShaped(items: seq<Item>)
  {
    forall k :: 0 <= k < |items| ==>
      items[k].Assistant? || (items[k].ToolResult? && items[k].text == OMITTED && items[k].images == [])
  }

  lemma {:induction false} TailIsTailShaped(items: seq<Item>)
    ensures TailShaped(Tail(items))
  {
    if items != [] { TailIsTailShaped(items[1..]); }
  }

  lemma {:induction false} TailConcat(a: seq<Item>, b: seq<Item>)
    ensures Tail(a + b) == Tail(a) + Tail(b)
  {
    if a == [] {
      assert a + b == b;
    } else {
      TailConcat(a[1..], b);
      assert (a + b)[1..] == a[1..] + b;
    }
  }

  lemma {:induction false} TailFixed(items: seq<Item>)
    requires TailShaped(items)
    ensures Tail(items) == items
  {
    if items != [] {
      assert forall k :: 0 <= k < |items[1..]| ==> items[1..][k] == items[k + 1];
      TailFixed(items[1..]);
      assert items == [items[0]] + items[1..];
    }
  }

  lemma {:induction false} TailOfTalk(items: seq<Item>)
    requires forall k :: 0 <= k < |items| ==> items[k].User? || items[k].System?
    ensures Tail(items) == []
  {
    if items != [] { TailOfTalk(items[1..]); }
  }

  // ----- Compaction is a fixpoint -----

  lemma {:induction false} LastIndexBefore(a: seq<Item>, b: seq<Item>, p: Item -> bool)
    requires forall k :: 0 <= k < |b| ==> !p(b[k])
    ensures LastIndex(a + b, p) == LastIndex(a, p)
  {
    if b == [] {
      assert a + b == a;
    } else {
      var t := b[..|b| - 1];
      assert (a + b)[..|a + b| - 1] == a + t && (a + b)[|a + b| - 1] == b[|b| - 1];
      LastIndexBefore(a, t, p);
    }
  }

  lemma LastIndexNone(a: seq<Item>, p: Item -> bool)
    requires forall k :: 0 <= k < |a| ==> !p(a[k])
    ensures LastIndex(a, p) == None
  {
  }

  lemma LastIndexOfLast(a: seq<Item>, x: Item, p: Item -> bool)
    requires forall k :: 0 <= k < |a| ==> !p(a[k])
    ensures LastIndex(a + [x], p) == if p(x) then Some(|a|) else None
  {
    assert (a + [x])[..|a|] == a;
    LastIndexNone(a, p);
  }

  /** Neither a synthetic user message nor any other kind of item. */
  ghost predicate Unreal(x: Item)
  {
    x.User? ==> x.synthetic.Some?
  }

  lemma UnrealIsNotReal(items: seq<Item>)
    requires forall k :: 0 <= k < |items| ==> Unreal(items[k])
    ensures forall k :: 0 <= k < |items| ==> !IsRealUserTurn(items[k])
  {
  }

  lemma RebuiltQuery(q: string)
    ensures PartsText(UserText(WrapUserQuery(q)).content) == WrapUserQuery(q)
    ensures IsRealUserTurn(UserText(WrapUserQuery(q)))
            <==> !IsSyntheticQuery(ExtractUserQuery(WrapUserQuery(q)))
  {
    var w := WrapUserQuery(q);
    PlainText(w);
    assert UserText(w).content == [TextPart(w)];
  }

  lemma PlainText(w: string)
    ensures PartsText([TextPart(w)]) == w
  {
    assert [TextPart(w)][1..] == [];
    assert TextsOf([TextPart(w)]) == [w];
  }

  lemma HistoryBoundary(input: CompactedInput)
    requires input.systemMessage.System? && TailShaped(input.context.recent)
    ensures match input.context.lastQuery
            case None => LastRealUser(BuildCompactedHistory(input)) == None
            case Some(q) =>
              LastRealUser(BuildCompactedHistory(input))
              == if IsRealUserTurn(UserText(WrapUserQuery(q))) then Some(|Head(input)| - 1) else None
  {
    var front, after := Front(input), input.context.recent + Foot(input);
    var query := QueryItems(input.context.lastQuery);
    assert BuildCompactedHistory(input) == (front + query) + after;
    FrontIsUnreal(input);
    FootIsUnreal(input);
    BoundaryBetween(front, query, after);
  }

  lemma FrontIsUnreal(input: CompactedInput)
    requires input.systemMessage.System?
    ensures forall k :: 0 <= k < |Front(input)| ==> Unreal(Front(input)[k])
  {
  }

  lemma FootIsUnreal(input: CompactedInput)
    requires TailShaped(input.context.recent)
    ensures var after := input.context.recent + Foot(input);
            forall k :: 0 <= k < |after| ==> Unreal(after[k])
  {
    SyntheticsAreUnreal(input.context.recent, SummaryItem(input), Foot(input)[1..]);
    assert Foot(input) == [SummaryItem(input)] + Foot(input)[1..];
  }

  lemma SyntheticsAreUnreal(recent: seq<Item>, x: Item, rest: seq<Item>)
    requires TailShaped(recent) && Unreal(x) && |rest| <= 1
    requires rest != [] ==> Unreal(rest[0])
    ensures forall k :: 0 <= k < |recent + ([x] + rest)| ==> Unreal((recent + ([x] + rest))[k])
  {
  }

  /** Between items that cannot be real user turns, only the query can be one. */
  lemma BoundaryBetween(front: seq<Item>, query: seq<Item>, after: seq<Item>)
    requires |query| <= 1
    requires forall k :: 0 <= k < |front| ==> Unreal(front[k])
    requires forall k :: 0 <= k < |after| ==> Unreal(after[k])
    ensures LastRealUser(front + query + after)
            == if query != [] && IsRealUserTurn(query[0]) then Some(|front|) else None
  {
    UnrealIsNotReal(front);
    UnrealIsNotReal(after);
    LastIndexBefore(front + query, after, IsRealUserTurn);
    if query == [] {
      assert front + query == front;
      LastIndexNone(front, IsRealUserTurn);
    } else {
      assert query == [query[0]];
      LastIndexOfLast(front, query[0], IsRealUserTurn);
    }
  }

  lemma HistoryTail(input: CompactedInput)
    requires input.systemMessage.System? && TailShaped(input.context.recent)
    ensures Tail(BuildCompactedHistory(input)) == input.context.recent
    ensures Tail(input.context.recent + Foot(input)) == input.context.recent
  {
    var head, recent, foot := Head(input), input.context.recent, Foot(input);
    assert BuildCompactedHistory(input) == head + (recent + foot);
    TailConcat(recent, foot);
    TailFixed(recent);
    TailOfTalk(foot);
    TailOfTalk(head);
    TailConcat(head, recent + foot);
  }

  /** Rebuilding the context from the compacted history: the recent messages always
      come back; the query comes back as whatever its wrapper yields. */
  lemma RebuiltContext(input: CompactedInput)
    requires input.systemMessage.System? && TailShaped(input.context.recent)
    ensures var again := BuildContext(BuildCompactedHistory(input));
            && again.recent == input.context.recent
            && again.lastQuery
               == match input.context.lastQuery
                  case None => None
                  case Some(q) =>
                    var back := ExtractUserQuery(WrapUserQuery(q));
                    if IsSyntheticQuery(back) then None else Some(back)
  {
    var head, after := Head(input), input.context.recent + Foot(input);
    var history := BuildCompactedHistory(input);
    assert history == head + after;
    HistoryBoundary(input);
    HistoryTail(input);
    if input.context.lastQuery.Some? {
      var q := input.context.lastQuery.value;
      RebuiltQuery(q);
      assert history[|head| - 1] == UserText(WrapUserQuery(q)) && history[|head|..] == after;
    }
  }

  /** Text that a compacted history hands back unchanged. */
  ghost predicate SurvivesRebuild(q: string)
  {
    && !IsSyntheticQuery(q)
    && Text.Trimmed(q) && NoTagBlocks(q)
    && !Text.Contains(q, QUERY_CLOSE)
  }

  /** Compaction is a fixpoint exactly when there is no query, or the query is not a
      synthetic text, holds no closing tag, is trimmed and has no block of a runtime tag. */
  lemma CompactionFixpointIff(input: CompactedInput)
    requires input.systemMessage.System? && TailShaped(input.context.recent)
    ensures BuildContext(BuildCompactedHistory(input)) == input.context
            <==> input.context.lastQuery.None? || SurvivesRebuild(input.context.lastQuery.value)
  {
    RebuiltContext(input);
    if input.context.lastQuery.Some? {
      QueryRoundTrip(input.context.lastQuery.value);
    }
  }

  /** For the context a conversation yields. */
  lemma CompactionOfConversation(conversation: seq<Item>, input: CompactedInput)
    requires input.systemMessage.System? && input.context == BuildContext(conversation)
    ensures BuildContext(BuildCompactedHistory(input)).recent == MessagesSinceLastRealUser(conversation)
    ensures BuildContext(BuildCompactedHistory(input)) == input.context
            <==> input.context.lastQuery.None? || SurvivesRebuild(input.context.lastQuery.value)
  {
    TailIsTailShaped(AfterLastRealUser(conversation));
    RebuiltContext(input);
    CompactionFixpointIff(input);
  }

  predicate OnlyText(content: seq<ContentPart>)
  {
    forall k :: 0 <= k < |content| ==> content[k].TextPart?
  }

  /** In terms of what the user wrote: text that nowhere splits a tag comes back exactly
      when its query is neither synthetic nor holds a closing query tag, and always does
      without images, unless a bare closing query tag stands in it. */
  lemma CompactionOfOwnText(conversation: seq<Item>, input: CompactedInput)
    requires input.systemMessage.System? && input.context == BuildContext(conversation)
    requires LastRealUser(conversation).Some?
    requires NoSplitTags(PartsText(conversation[LastRealUser(conversation).value].content), SYSTEM_TAGS, AllTags())
    ensures var content := conversation[LastRealUser(conversation).value].content;
            var text, q := PartsText(content), ExtractUserQuery(PartsText(content));
            var same := BuildContext(BuildCompactedHistory(input)) == input.context;
            && (same <==> !IsSyntheticQuery(q) && !Text.Contains(q, QUERY_CLOSE))
            && (OnlyText(content) && NoBareClose(text) ==> same)
  {
    UnsplitQuery(PartsText(conversation[LastRealUser(conversation).value].content));
    CompactionOfConversation(conversation, input);
  }

  /** So a typed prompt whose angle brackets are closed one after the other comes back. */
  lemma CompactionOfClosedText(conversation: seq<Item>, input: CompactedInput)
    requires input.systemMessage.System? && input.context == BuildContext(conversation)
    requires LastRealUser(conversation).Some?
    requires var content := conversation[LastRealUser(conversation).value].content;
             OnlyText(content) && AnglesClosed(PartsText(content)) && NoBareClose(PartsText(content))
    ensures BuildContext(BuildCompactedHistory(input)) == input.context
  {
    AnglesClosedEverywhere(PartsText(conversation[LastRealUser(conversation).value].content));
    CompactionOfOwnText(conversation, input);
  }

  /** A prompt that is only an image anchors the first compaction, with an empty
      query; the rebuilt history no longer holds a real user turn. */
  lemma ImagePromptIsLost(url: string, system: string, prefix: string, summary: string)
    ensures var conversation := [System(system), User([ImagePart(url)], None)];
            var context := BuildContext(conversation);
            var input := CompactedInput(System(system), prefix, None, context, summary, None, None);
            context.lastQuery == Some("")
            && BuildContext(BuildCompactedHistory(input)).lastQuery == None
  {
    var image := User([ImagePart(url)], None);
    var conversation := [System(system), image];
    assert image.content[0].ImagePart?;
    assert IsRealUserTurn(conversation[1]);
    assert TextsOf(image.content) == [];
    assert |ExtractUserQuery("")| <= 0;
    assert BuildContext(conversation).lastQuery == Some("");
    var input := CompactedInput(System(system), prefix, None, BuildContext(conversation), summary, None, None);
    TailIsTailShaped(AfterLastRealUser(conversation));
    RebuiltContext(input);
    QueryRoundTrip("");
    TextFree();
  }

  lemma TextFree()
    ensures StripSystemTags("") == "" && !Text.Contains("", QUERY_CLOSE)
  {
    assert |StripSystemTags("")| <= 0;
  }

  // ----- What stands where -----

  /** The compacted history item by item: the system prompt, the prefix, the project
      instructions if any, the wrapped query if any, the recent messages, one synthetic
      item with the cleaned summary and the hint, and the reminder if any. */
  lemma CompactedLayout(input: CompactedInput)
    ensures var h, recent := BuildCompactedHistory(input), input.context.recent;
            var a := 2 + if input.agentsMd.Some? then 1 else 0;
            var q := a + if input.context.lastQuery.Some? then 1 else 0;
            var end := q + |recent|;
            && |h| == end + (if input.systemReminder.Some? then 2 else 1)
            && h[0] == input.systemMessage && h[1] == SyntheticText(input.prefix, CompactionMeta)
            && (input.agentsMd.Some? ==> h[2] == SyntheticText(input.agentsMd.value, ProjectInstructions))
            && (input.context.lastQuery.Some? ==> h[a] == UserText(WrapUserQuery(input.context.lastQuery.value)))
            && h[q..end] == recent
            && h[end] == User([TextPart(CONTINUATION_PREAMBLE + FormatSummary(input.summary) + Hint(input))], Some(CompactionMeta))
            && (input.systemReminder.Some? ==> h[end + 1] == SyntheticText(input.systemReminder.value, SystemReminder))
  {
  }

  function Hint(input: CompactedInput): string
  {
    match input.transcriptHint
    case Some(hint) => hint
    case None => ""
  }

  /** How many of the first `n` items are assistant messages or tool results. */
  function CountTalk(items: seq<Item>, n: nat): nat
    requires n <= |items|
  {
    if n == 0 then 0
    else CountTalk(items, n - 1) + if items[n - 1].Assistant? || items[n - 1].ToolResult? then 1 else 0
  }

  lemma {:induction false} CountTalkCons(items: seq<Item>, n: nat)
    requires 0 < n <= |items|
    ensures CountTalk(items, n)
            == (if items[0].Assistant? || items[0].ToolResult? then 1 else 0) + CountTalk(items[1..], n - 1)
  {
    if n > 1 { CountTalkCons(items, n - 1); }
  }

  /** The recent messages are, in order, the assistant messages as they are and the tool
      results with their text and images left out; nothing else. */
  lemma {:induction false} TailInOrder(items: seq<Item>, j: nat)
    requires j < |items|
    ensures |Tail(items)| == CountTalk(items, |items|)
    ensures var r, n := Tail(items), CountTalk(items, j);
            && (items[j].Assistant? ==> n < |r| && r[n] == items[j])
            && (items[j].ToolResult? ==> n < |r| && r[n] == ToolResult(items[j].callId, OMITTED, []))
  {
    CountTalkCons(items, |items|);
    if |items| > 1 { TailInOrder(items[1..], if j > 0 then j - 1 else 0); }
    if j > 0 { CountTalkCons(items, j); }
  }

  // ----- Pairing survives -----

  lemma {:induction false} TailKeepsPairing(items: seq<Item>, run: set<string>, wider: set<string>)
    requires DisplacedIds(items, run) == [] && run <= wider
    ensures DisplacedIds(Tail(items), wider) == []
  {
    if items != [] {
      var rest := Tail(items[1..]);
      match items[0] {
        case Assistant(_, calls) =>
          TailKeepsPairing(items[1..], CallIds(calls), CallIds(calls));
          assert ([items[0]] + rest)[1..] == rest;
        case ToolResult(id, _, _) =>
          TailKeepsPairing(items[1..], run, wider);
          assert ([ToolResult(id, OMITTED, [])] + rest)[1..] == rest;
        case _ =>
          TailKeepsPairing(items[1..], {}, wider);
      }
    }
  }

  lemma {:induction false} DisplacedSuffix(a: seq<Item>, b: seq<Item>, run: set<string>)
    requires DisplacedIds(a + b, run) == []
    requires a != [] && !a[|a| - 1].Assistant? && !a[|a| - 1].ToolResult?
    ensures DisplacedIds(b, {}) == []
  {
    assert (a + b)[1..] == a[1..] + b;
    if |a| == 1 {
      assert a[1..] + b == b;
    } else {
      DisplacedSuffix(a[1..], b, RunAfter(a[0], run));
    }
  }

  lemma {:induction false} DisplacedAfterTalk(a: seq<Item>, b: seq<Item>, run: set<string>)
    requires a != [] && forall k :: 0 <= k < |a| ==> a[k].User? || a[k].System?
    ensures DisplacedIds(a + b, run) == [] <==> DisplacedIds(b, {}) == []
  {
    assert (a + b)[1..] == a[1..] + b;
    if |a| == 1 {
      assert a[1..] + b == b;
    } else {
      DisplacedAfterTalk(a[1..], b, {});
    }
  }

  lemma {:induction false} DisplacedBeforeTalk(a: seq<Item>, b: seq<Item>, run: set<string>)
    requires forall k :: 0 <= k < |b| ==> b[k].User? || b[k].System?
    ensures DisplacedIds(a + b, run) == [] <==> DisplacedIds(a, run) == []
  {
    if a == [] {
      assert a + b == b;
      TalkIsStrict(b, run);
    } else {
      assert (a + b)[1..] == a[1..] + b;
      DisplacedBeforeTalk(a[1..], b, RunAfter(a[0], run));
    }
  }

  lemma {:induction false} TalkIsStrict(b: seq<Item>, run: set<string>)
    requires forall k :: 0 <= k < |b| ==> b[k].User? || b[k].System?
    ensures DisplacedIds(b, run) == []
  {
    if b != [] { TalkIsStrict(b[1..], {}); }
  }

  /** Cutting at the last real user turn never orphans a result. */
  lemma TailOfStrictIsStrict(conversation: seq<Item>)
    requires StrictHistory(conversation)
    ensures StrictHistory(MessagesSinceLastRealUser(conversation))
  {
    StrictIffNothingDisplaced(conversation);
    match LastRealUser(conversation) {
      case None =>
        TailKeepsPairing(conversation, {}, {});
      case Some(idx) =>
        var a, b := conversation[..idx + 1], conversation[idx + 1..];
        assert conversation == a + b && a[|a| - 1] == conversation[idx];
        DisplacedSuffix(a, b, {});
        TailKeepsPairing(b, {}, {});
    }
    StrictIffNothingDisplaced(MessagesSinceLastRealUser(conversation));
  }

  /** The compacted history pairs its results exactly when the carried messages do. */
  lemma CompactedPairsIff(input: CompactedInput)
    requires input.systemMessage.System?
    ensures StrictHistory(BuildCompactedHistory(input)) <==> StrictHistory(input.context.recent)
  {
    var head, recent, foot := Head(input), input.context.recent, Foot(input);
    assert BuildCompactedHistory(input) == head + (recent + foot);
    DisplacedAfterTalk(head, recent + foot, {});
    DisplacedBeforeTalk(recent, foot, {});
    StrictIffNothingDisplaced(recent);
    StrictIffNothingDisplaced(BuildCompactedHistory(input));
  }

  /** So compacting a strictly paired conversation gives one that validates. */
  lemma CompactedHistoryValidates(conversation: seq<Item>, input: CompactedInput)
    requires StrictHistory(conversation)
    requires input.systemMessage.System? && input.context == BuildContext(conversation)
    ensures StrictHistory(BuildCompactedHistory(input))
    ensures InvalidIds(BuildCompactedHistory(input), {}) == []
  {
    TailOfStrictIsStrict(conversation);
    CompactedPairsIff(input);
    StrictIsLenient(BuildCompactedHistory(input));
  }
}
