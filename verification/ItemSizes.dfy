/** What an item costs in tokens, and cutting its text down to some tokens. */
module ItemSizes {
  import opened Wrappers
  import opened Conversation
  import opened Utf8Text

  const BYTES_PER_TOKEN: nat := 4
  const IMAGE_TOKENS: nat := 765
  const U64_MAX: nat := 0xFFFF_FFFF_FFFF_FFFF

  function PartsBytes(parts: seq<ContentPart>): nat
  {
    if parts == [] then 0
    else (if parts[0].TextPart? then Size(parts[0].text) else 0) + PartsBytes(parts[1..])
  }

  function Images(parts: seq<ContentPart>): nat
  {
    if parts == [] then 0 else (if parts[0].ImagePart? then 1 else 0) + Images(parts[1..])
  }

  function ArgumentBytes(calls: seq<ToolCall>): nat
  {
    if calls == [] then 0 else Size(calls[0].arguments) + ArgumentBytes(calls[1..])
  }

  function EstimateItemTokens(x: Item): nat
  {
    match x
    case System(text) => Size(text) / BYTES_PER_TOKEN
    case User(content, _) => PartsBytes(content) / BYTES_PER_TOKEN + Images(content) * IMAGE_TOKENS
    case Assistant(text, calls) => (Size(text) + ArgumentBytes(calls)) / BYTES_PER_TOKEN
    case ToolResult(_, text, _) => Size(text) / BYTES_PER_TOKEN
    case BackendToolCall(summary) => Size(summary) / BYTES_PER_TOKEN
    case Reasoning(summary, encrypted) => (Size(summary) + Size(encrypted)) / BYTES_PER_TOKEN
  }

  function Joined(texts: seq<string>): string
  {
    if texts == [] then "" else texts[0] + Joined(texts[1..])
  }

  lemma {:induction false} PartsBytesAreTexts(parts: seq<ContentPart>)
    ensures PartsBytes(parts) == |Utf8(Joined(TextsOf(parts)))|
  {
    if parts != [] {
      PartsBytesAreTexts(parts[1..]);
      var rest := TextsOf(parts[1..]);
      if parts[0].TextPart? {
        assert ([parts[0].text] + rest)[1..] == rest;
        SizeConcat(parts[0].text, Joined(rest));
      } else {
        assert [] + rest == rest;
      }
    }
  }

  function Arguments(calls: seq<ToolCall>): string
  {
    if calls == [] then "" else calls[0].arguments + Arguments(calls[1..])
  }

  lemma {:induction false} ArgumentBytesAreTexts(calls: seq<ToolCall>)
    ensures ArgumentBytes(calls) == |Utf8(Arguments(calls))|
  {
    if calls != [] {
      ArgumentBytesAreTexts(calls[1..]);
      SizeConcat(calls[0].arguments, Arguments(calls[1..]));
    }
  }

  /** All the text of an item that is counted. */
  function Counted(x: Item): string
  {
    match x
    case System(text) => text
    case User(content, _) => Joined(TextsOf(content))
    case Assistant(text, calls) => text + Arguments(calls)
    case ToolResult(_, text, _) => text
    case BackendToolCall(summary) => summary
    case Reasoning(summary, encrypted) => summary + encrypted
  }

  /** An item is estimated at a token for every four whole bytes of its text, and 765 for
      each image of a user message. */
  lemma EstimateByBytes(x: Item)
    ensures var images := if x.User? then |x.content| - |TextsOf(x.content)| else 0;
            var tokens := EstimateItemTokens(x) - 765 * images;
            4 * tokens <= |Utf8(Counted(x))| < 4 * tokens + 4
  {
    match x {
      case User(content, _) =>
        PartsBytesAreTexts(content);
        ImagesAreTheRest(content);
      case Assistant(text, calls) =>
        ArgumentBytesAreTexts(calls);
        SizeConcat(text, Arguments(calls));
      case Reasoning(summary, encrypted) => SizeConcat(summary, encrypted);
      case _ =>
    }
  }

  lemma {:induction false} ImagesAreTheRest(parts: seq<ContentPart>)
    ensures Images(parts) + |TextsOf(parts)| == |parts|
  {
    if parts != [] { ImagesAreTheRest(parts[1..]); }
  }

  function SaturatingBytes(tokens: nat): nat
  {
    if tokens * BYTES_PER_TOKEN > U64_MAX then U64_MAX else tokens * BYTES_PER_TOKEN
  }

  function TruncatePart(part: ContentPart, maxBytes: nat): ContentPart
  {
    if part.TextPart? then TextPart(Truncated(part.text, maxBytes)) else part
  }

  function TruncateParts(parts: seq<ContentPart>, maxBytes: nat): (r: seq<ContentPart>)
    ensures |r| == |parts|
  {
    seq(|parts|, k requires 0 <= k < |parts| => TruncatePart(parts[k], maxBytes))
  }

  /** The same item up to how much of its text is left. */
  ghost predicate SameSlot(x: Item, y: Item)
  {
    match x
    case ToolResult(id, _, images) => y.ToolResult? && y.callId == id && y.images == images
    case Assistant(_, calls) => y.Assistant? && y.calls == calls
    case User(content, synthetic) => y.User? && |y.content| == |content| && y.synthetic == synthetic
    case _ => y == x
  }

  function TruncateItem(x: Item, tokens: nat): (y: Item)
    ensures SameSlot(x, y)
  {
    var maxBytes := SaturatingBytes(tokens);
    match x
    case ToolResult(id, text, images) => ToolResult(id, Truncated(text, maxBytes), images)
    case Assistant(text, calls) => Assistant(Truncated(text, maxBytes), calls)
    case User(content, synthetic) => User(TruncateParts(content, maxBytes), synthetic)
    case _ => x
  }

  method TruncatePartTexts(content: seq<ContentPart>, maxBytes: nat) returns (parts: seq<ContentPart>)
    ensures parts == TruncateParts(content, maxBytes)
  {
    parts := content;
    for i := 0 to |parts|
      invariant |parts| == |content| && parts[i..] == content[i..]
      invariant forall k :: 0 <= k < i ==> parts[k] == TruncatePart(content[k], maxBytes)
    {
      if parts[i].TextPart? {
        var s := TruncateTextToBytes(parts[i].text, maxBytes);
        if s.Some? {
          parts := parts[i := TextPart(s.value)];
        }
      }
    }
  }

  method TruncateItemToTokens(item: Item, maxTokens: nat) returns (r: Item)
    ensures r == TruncateItem(item, maxTokens)
  {
    var maxBytes := SaturatingBytes(maxTokens);
    match item {
      case ToolResult(id, text, images) =>
        var s := TruncateTextToBytes(text, maxBytes);
        r := if s.Some? then ToolResult(id, s.value, images) else item;
      case Assistant(text, calls) =>
        var s := TruncateTextToBytes(text, maxBytes);
        r := if s.Some? then Assistant(s.value, calls) else item;
      case User(content, synthetic) =>
        var parts := TruncatePartTexts(content, maxBytes);
        r := User(parts, synthetic);
      case _ => r := item;
    }
  }

  function AtLeast16(n: nat): nat { if n < 16 then 16 else n }

  // ----- What a cut item costs -----

  /** The bytes left of a text cut to `maxBytes`, from its length and where it is cut. */
  function CutSize(s: string, maxBytes: nat): nat
  {
    if Size(s) <= maxBytes then Size(s)
    else
      PrefixIsBoundary(s, KeepBytes(maxBytes));
      CutPoint(s, maxBytes) + 56 + |Decimal(Size(s) - CutPoint(s, maxBytes))|
  }

  lemma CutSizeIs(s: string, maxBytes: nat)
    ensures Size(Truncated(s, maxBytes)) == CutSize(s, maxBytes)
  {
    if Size(s) > maxBytes { TruncatedSize(s, maxBytes); }
  }

  /** Tokens a marker takes beyond its reserve: none below 10^8 bytes of text. */
  function Excess(s: string): nat
  {
    if |Decimal(Size(s))| <= 8 then 0 else (|Decimal(Size(s))| - 8 + 3) / 4
  }

  lemma NoExcessIff(s: string)
    ensures Excess(s) == 0 <==> Size(s) < MARKED
  {
    MarkedIsPow();
    DecimalLength(Size(s), 8);
  }

  lemma MoreDigits(m: nat, n: nat)
    requires m <= n
    ensures |Decimal(m)| <= |Decimal(n)|
  {
    DecimalLength(n, |Decimal(n)|);
    DecimalLength(m, |Decimal(n)|);
  }

  /** Cutting a result to some tokens leaves it costing no more, or 16 tokens, and what its
      marker takes beyond the reserve. */
  lemma CutResultCost(x: Item, tokens: nat)
    requires x.ToolResult?
    ensures EstimateItemTokens(TruncateItem(x, tokens)) <= AtLeast16(tokens) + Excess(x.text)
  {
    var maxBytes := SaturatingBytes(tokens);
    CutSizeIs(x.text, maxBytes);
    if Size(x.text) > maxBytes {
      PrefixIsBoundary(x.text, KeepBytes(maxBytes));
      var dropped := Size(x.text) - CutPoint(x.text, maxBytes);
      MoreDigits(dropped, Size(x.text));
      MarkedCost(CutPoint(x.text, maxBytes), |Decimal(dropped)|, |Decimal(Size(x.text))|, tokens);
    }
  }

  lemma MarkedCost(p: nat, digits: nat, most: nat, tokens: nat)
    requires p <= KeepBytes(SaturatingBytes(tokens)) && digits <= most
    ensures (p + 56 + digits) / BYTES_PER_TOKEN <= AtLeast16(tokens) + if most <= 8 then 0 else (most - 8 + 3) / 4
  {
    assert p <= if tokens <= 16 then 0 else 4 * tokens - 64;
  }

  function CutPartsBytes(parts: seq<ContentPart>, maxBytes: nat): nat
  {
    if parts == [] then 0
    else (if parts[0].TextPart? then CutSize(parts[0].text, maxBytes) else 0) + CutPartsBytes(parts[1..], maxBytes)
  }

  lemma {:induction false} CutPartsSizes(parts: seq<ContentPart>, maxBytes: nat)
    ensures PartsBytes(TruncateParts(parts, maxBytes)) == CutPartsBytes(parts, maxBytes)
    ensures Images(TruncateParts(parts, maxBytes)) == Images(parts)
  {
    var cut := TruncateParts(parts, maxBytes);
    if parts != [] {
      assert cut[1..] == TruncateParts(parts[1..], maxBytes);
      CutPartsSizes(parts[1..], maxBytes);
      if parts[0].TextPart? { CutSizeIs(parts[0].text, maxBytes); }
    }
  }

  /** Whether a cut assistant message fits, from the lengths of its text and arguments: the
      text must be long enough to be cut at all, and what is left of the budget after the
      arguments and the kept prefix must hold the marker with its digits. */
  predicate AssistantFits(text: string, calls: seq<ToolCall>, tokens: nat)
  {
    && Size(text) > SaturatingBytes(tokens)
    && MarkerHasRoom(Size(text), CutPoint(text, SaturatingBytes(tokens)), ArgumentBytes(calls), tokens)
  }

  /** Of `n` bytes `p` are kept; the rest of the tokens, after the arguments, holds the
      marker with the digits of what is dropped. */
  predicate MarkerHasRoom(n: nat, p: nat, arguments: nat, tokens: nat)
  {
    var room := tokens * BYTES_PER_TOKEN + 3;
    arguments + p + 57 <= room && n - p < Pow10(room - arguments - p - 56)
  }

  lemma AssistantFitsIff(text: string, calls: seq<ToolCall>, tokens: nat)
    requires EstimateItemTokens(Assistant(text, calls)) > tokens
    ensures EstimateItemTokens(TruncateItem(Assistant(text, calls), tokens)) <= tokens
            <==> AssistantFits(text, calls, tokens)
  {
    var maxBytes := SaturatingBytes(tokens);
    AssistantCutCost(text, calls, tokens);
    if Size(text) > maxBytes {
      PrefixIsBoundary(text, KeepBytes(maxBytes));
      MarkedFitsIff(Size(text), CutPoint(text, maxBytes), ArgumentBytes(calls), tokens);
    }
  }

  lemma AssistantCutCost(text: string, calls: seq<ToolCall>, tokens: nat)
    ensures EstimateItemTokens(TruncateItem(Assistant(text, calls), tokens))
            == (CutSize(text, SaturatingBytes(tokens)) + ArgumentBytes(calls)) / BYTES_PER_TOKEN
  {
    CutSizeIs(text, SaturatingBytes(tokens));
  }

  lemma MarkedFitsIff(n: nat, p: nat, arguments: nat, tokens: nat)
    requires p <= n
    ensures (p + 56 + |Decimal(n - p)| + arguments) / BYTES_PER_TOKEN <= tokens <==> MarkerHasRoom(n, p, arguments, tokens)
  {
    var room := tokens * BYTES_PER_TOKEN + 3;
    if arguments + p + 57 <= room { DecimalLength(n - p, room - arguments - p - 56); }
  }

  /** Whether a cut user message fits, from its images and the lengths of its text parts;
      each part is cut to the whole budget. */
  predicate UserFits(content: seq<ContentPart>, tokens: nat)
  {
    var images := Images(content) * IMAGE_TOKENS;
    && images <= tokens
    && CutPartsBytes(content, SaturatingBytes(tokens)) <= (tokens - images) * BYTES_PER_TOKEN + 3
  }

  lemma UserFitsIff(x: Item, tokens: nat)
    requires x.User?
    ensures EstimateItemTokens(TruncateItem(x, tokens)) <= tokens <==> UserFits(x.content, tokens)
  {
    CutPartsSizes(x.content, SaturatingBytes(tokens));
  }

  /** A share under 16 tokens leaves a long result nothing but its marker. */
  lemma SmallShareSize(s: string, tokens: nat)
    requires tokens < 16
    ensures CutSize(s, SaturatingBytes(tokens))
            == if Size(s) <= 4 * tokens then Size(s) else 56 + |Decimal(Size(s))|
  {
    assert KeepBytes(4 * tokens) == 0;
  }

  // ----- Cutting a cut item again -----

  /** A text that cutting to `maxBytes` twice leaves as cutting once did. */
  predicate CutOnceText(s: string, maxBytes: nat)
  {
    CutSize(s, maxBytes) <= maxBytes || (maxBytes < 58 && Size(s) == 58)
  }

  predicate CutOnce(x: Item, tokens: nat)
  {
    match x
    case ToolResult(_, text, _) => CutOnceText(text, SaturatingBytes(tokens))
    case Assistant(text, _) => CutOnceText(text, SaturatingBytes(tokens))
    case User(content, _) =>
      forall k :: 0 <= k < |content| && content[k].TextPart? ==> CutOnceText(content[k].text, SaturatingBytes(tokens))
    case _ => true
  }

  lemma CutOnceTextIff(s: string, maxBytes: nat)
    ensures Truncated(Truncated(s, maxBytes), maxBytes) == Truncated(s, maxBytes) <==> CutOnceText(s, maxBytes)
  {
    CutSizeIs(s, maxBytes);
    RetruncatedFixedIff(s, maxBytes);
  }

  /** Cutting an item twice is cutting it once exactly when each text ends within its
      budget, or is 58 bytes long with a budget below that. */
  lemma CutOnceIff(x: Item, tokens: nat)
    ensures TruncateItem(TruncateItem(x, tokens), tokens) == TruncateItem(x, tokens) <==> CutOnce(x, tokens)
  {
    var maxBytes := SaturatingBytes(tokens);
    match x {
      case ToolResult(_, text, _) => CutOnceTextIff(text, maxBytes);
      case Assistant(text, _) => CutOnceTextIff(text, maxBytes);
      case User(content, _) => CutOncePartsIff(content, maxBytes);
      case _ =>
    }
  }

  lemma CutOncePartsIff(content: seq<ContentPart>, maxBytes: nat)
    ensures TruncateParts(TruncateParts(content, maxBytes), maxBytes) == TruncateParts(content, maxBytes)
            <==> forall k :: 0 <= k < |content| && content[k].TextPart? ==> CutOnceText(content[k].text, maxBytes)
  {
    var once := TruncateParts(content, maxBytes);
    var twice := TruncateParts(once, maxBytes);
    forall k | 0 <= k < |content|
      ensures twice[k] == once[k] <==> (content[k].TextPart? ==> CutOnceText(content[k].text, maxBytes))
    {
      if content[k].TextPart? { CutOnceTextIff(content[k].text, maxBytes); }
    }
    assert twice == once <==> forall k :: 0 <= k < |content| ==> twice[k] == once[k];
  }
}
