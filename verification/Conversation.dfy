/** The conversation items the chat state keeps. */
module Conversation {
  import opened Wrappers

  datatype ContentPart = TextPart(text: string) | ImagePart(url: string)

  datatype SyntheticReason =
    | CompactionMeta | SystemReminder | ProjectInstructions | AutoContinue | AutoRecovery
    | Interjection | TaskCompleted | SubagentCompleted | NotificationDrain | GoalSummary
    | GoalClassifierNudge | SchedulerFired | UnknownReason

  datatype ToolCall = ToolCall(id: string, name: string, arguments: string)

  datatype Item =
    | System(text: string)
    | User(content: seq<ContentPart>, synthetic: Option<SyntheticReason>)
    | Assistant(text: string, calls: seq<ToolCall>)
    | ToolResult(callId: string, text: string, images: seq<ContentPart>)
    | BackendToolCall(summary: string)
    | Reasoning(summary: string, encrypted: string)

  function CallIds(calls: seq<ToolCall>): (ids: set<string>)
    ensures forall k :: 0 <= k < |calls| ==> calls[k].id in ids
    ensures forall id :: id in ids ==> exists k :: 0 <= k < |calls| && calls[k].id == id
  {
    set k | 0 <= k < |calls| :: calls[k].id
  }

  /** An assistant message that made at least one tool call. */
  predicate Owner(x: Item)
  {
    x.Assistant? && x.calls != []
  }

  function UserText(text: string): Item
  {
    User([TextPart(text)], None)
  }

  function SyntheticText(text: string, reason: SyntheticReason): Item
  {
    User([TextPart(text)], Some(reason))
  }

  /** The text parts of a user message, joined by newlines. */
  function PartsText(parts: seq<ContentPart>): string
  {
    Join(TextsOf(parts))
  }

  function TextsOf(parts: seq<ContentPart>): seq<string>
  {
    if parts == [] then []
    else (if parts[0].TextPart? then [parts[0].text] else []) + TextsOf(parts[1..])
  }

  function Join(texts: seq<string>): string
  {
    if texts == [] then ""
    else if |texts| == 1 then texts[0]
    else texts[0] + "\n" + Join(texts[1..])
  }

  /** Where the `k`-th text starts among the joined ones. */
  function JoinOffset(texts: seq<string>, k: nat): nat
    requires k <= |texts|
  {
    if k == 0 then 0 else JoinOffset(texts, k - 1) + |texts[k - 1]| + 1
  }

  lemma {:induction false} JoinOffsetCons(texts: seq<string>, k: nat)
    requires 0 < k <= |texts|
    ensures JoinOffset(texts, k) == |texts[0]| + 1 + JoinOffset(texts[1..], k - 1)
  {
    if k > 1 { JoinOffsetCons(texts, k - 1); }
  }

  /** `text` stands whole at `at`. */
  ghost predicate Stands(all: string, text: string, at: nat)
  {
    at + |text| <= |all| && all[at..at + |text|] == text
  }

  lemma StandsBetween(a: string, b: string, c: string, text: string, at: nat)
    requires Stands(b, text, at)
    ensures Stands(a + b + c, text, |a| + at)
  {
    var all, from := a + b + c, |a| + at;
    var here, there := all[from..from + |text|], b[at..at + |text|];
    assert forall k :: 0 <= k < |text| ==> here[k] == all[from + k] == b[at + k] == there[k];
  }

  /** Joining keeps every text, in order, each at its offset, with one newline between. */
  lemma {:induction false} JoinInOrder(texts: seq<string>, k: nat)
    requires k < |texts|
    ensures |Join(texts)| + 1 == JoinOffset(texts, |texts|)
    ensures Stands(Join(texts), texts[k], JoinOffset(texts, k))
    ensures var end := JoinOffset(texts, k) + |texts[k]|;
            k + 1 < |texts| ==> end < |Join(texts)| && Join(texts)[end] == '\n'
  {
    JoinOffsetCons(texts, |texts|);
    if k > 0 { JoinOffsetCons(texts, k); }
    if |texts| > 1 {
      var rest := texts[1..];
      JoinInOrder(rest, if k > 0 then k - 1 else 0);
      JoinedBehind(texts[0], Join(rest), texts[k], if k > 0 then JoinOffset(rest, k - 1) else 0, k == 0);
    }
  }

  lemma JoinedBehind(first: string, rest: string, text: string, at: nat, isFirst: bool)
    requires if isFirst then text == first && at == 0 else Stands(rest, text, at)
    ensures var all := first + "\n" + rest;
            && all[|first|] == '\n'
            && (isFirst ==> Stands(all, text, 0))
            && (!isFirst ==> Stands(all, text, |first| + 1 + at)
                             && (at + |text| < |rest| ==> all[|first| + 1 + at + |text|] == rest[at + |text|]))
  {
    if !isFirst {
      StandsBetween(first + "\n", rest, "", text, at);
      assert first + "\n" + rest + "" == first + "\n" + rest;
    }
  }

  /** How many of the first `n` parts are texts. */
  function CountTexts(parts: seq<ContentPart>, n: nat): nat
    requires n <= |parts|
  {
    if n == 0 then 0 else CountTexts(parts, n - 1) + if parts[n - 1].TextPart? then 1 else 0
  }

  lemma {:induction false} CountTextsCons(parts: seq<ContentPart>, n: nat)
    requires 0 < n <= |parts|
    ensures CountTexts(parts, n) == (if parts[0].TextPart? then 1 else 0) + CountTexts(parts[1..], n - 1)
  {
    if n > 1 { CountTextsCons(parts, n - 1); }
  }

  /** The texts of a message are those of its text parts, in order. */
  lemma {:induction false} TextsInOrder(parts: seq<ContentPart>, j: nat)
    requires j < |parts|
    ensures |TextsOf(parts)| == CountTexts(parts, |parts|)
    ensures var n := CountTexts(parts, j);
            parts[j].TextPart? ==> n < |TextsOf(parts)| && TextsOf(parts)[n] == parts[j].text
  {
    CountTextsCons(parts, |parts|);
    if |parts| > 1 { TextsInOrder(parts[1..], if j > 0 then j - 1 else 0); }
    if j > 0 { CountTextsCons(parts, j); }
  }
}
