/** Shrinking a conversation to a token budget: the oldest turns go, tool runs stay
    whole, and when nothing fits the last turn is cut down in place. */
module BudgetFit {
  import opened Wrappers
  import opened Conversation
  import opened Pairing
  import opened Utf8Text
  import opened ItemSizes

  /** How items are priced, and how one is cut down to some tokens. */
  datatype Sizing = Sizing(cost: Item -> nat, cut: (Item, nat) -> Item)

  /** The estimator and the cutter the compaction uses. */
  function TokenSizing(): Sizing
  {
    Sizing(EstimateItemTokens, TruncateItem)
  }

  /** Cutting an item leaves everything but its text. */
  ghost predicate KeepsSlots(sz: Sizing)
  {
    forall x: Item, tokens: nat :: SameSlot(x, sz.cut(x, tokens))
  }

  function Costs(items: seq<Item>, cost: Item -> nat): (costs: seq<nat>)
    ensures |costs| == |items|
  {
    seq(|items|, k requires 0 <= k < |items| => cost(items[k]))
  }

  function Sum(costs: seq<nat>): nat
  {
    if costs == [] then 0 else costs[0] + Sum(costs[1..])
  }

  function Total(items: seq<Item>, cost: Item -> nat): nat
  {
    Sum(Costs(items, cost))
  }

  // ----- What the fit computes -----

  /** Walking back from `i`, the first position whose item no longer fits. */
  function CutFrom(costs: seq<nat>, i: nat, remaining: nat): (cut: nat)
    requires i <= |costs|
    ensures cut <= i
  {
    if i == 0 || costs[i - 1] > remaining then i
    else CutFrom(costs, i - 1, remaining - costs[i - 1])
  }

  function SkipResults(body: seq<Item>, i: nat): (start: nat)
    requires i <= |body|
    ensures i <= start <= |body|
    ensures start < |body| ==> !body[start].ToolResult?
    ensures forall k :: i <= k < start ==> body[k].ToolResult?
    decreases |body| - i
  {
    if i < |body| && body[i].ToolResult? then SkipResults(body, i + 1) else i
  }

  /** Where the run of results that ends at `i` begins. */
  function RunStart(body: seq<Item>, i: nat): (k: nat)
    requires i <= |body|
    ensures k <= i
    ensures forall j :: k <= j < i ==> body[j].ToolResult?
    ensures k > 0 ==> !body[k - 1].ToolResult?
  {
    if i == 0 || !body[i - 1].ToolResult? then i else RunStart(body, i - 1)
  }

  function ResultRun(body: seq<Item>): (k: nat)
    ensures k <= |body|
  {
    RunStart(body, |body|)
  }

  function TruncateAll(items: seq<Item>, tokens: nat, cut: (Item, nat) -> Item): (r: seq<Item>)
    ensures |r| == |items|
  {
    seq(|items|, k requires 0 <= k < |items| => cut(items[k], tokens))
  }

  /** The assistant message right before the final results, when it made tool calls. */
  function TailOwner(body: seq<Item>): seq<Item>
  {
    var k := ResultRun(body);
    if k > 0 && Owner(body[k - 1]) then [body[k - 1]] else []
  }

  function Less(a: nat, b: nat): nat
  {
    if a < b then 0 else a - b
  }

  /** The share of the budget one of `count` results gets. */
  function Share(budget: nat, count: nat): nat
    requires count > 0
  {
    if budget / count < 1 then 1 else budget / count
  }

  function RecoverTail(body: seq<Item>, budget: nat, sz: Sizing): seq<Item>
  {
    var k := ResultRun(body);
    if body == [] then []
    else if k == |body| then [sz.cut(body[|body| - 1], budget)]
    else
      var owner := TailOwner(body);
      owner + TruncateAll(body[k..], Share(Less(budget, Total(owner, sz.cost)), |body| - k), sz.cut)
  }

  function SystemHead(conversation: seq<Item>): (head: seq<Item>)
    ensures head <= conversation
  {
    if conversation != [] && conversation[0].System? then conversation[..1] else []
  }

  function Body(conversation: seq<Item>): seq<Item>
  {
    conversation[|SystemHead(conversation)|..]
  }

  function BodyBudget(conversation: seq<Item>, maxTokens: nat, cost: Item -> nat): nat
  {
    Less(maxTokens, Total(SystemHead(conversation), cost))
  }

  function Cut(conversation: seq<Item>, maxTokens: nat, cost: Item -> nat): (cut: nat)
    ensures cut <= |Body(conversation)|
  {
    CutFrom(Costs(Body(conversation), cost), |Body(conversation)|, BodyBudget(conversation, maxTokens, cost))
  }

  function Start(conversation: seq<Item>, maxTokens: nat, cost: Item -> nat): (start: nat)
    ensures start <= |Body(conversation)|
  {
    SkipResults(Body(conversation), Cut(conversation, maxTokens, cost))
  }

  function Fit(conversation: seq<Item>, maxTokens: nat, sz: Sizing): seq<Item>
  {
    var body, start := Body(conversation), Start(conversation, maxTokens, sz.cost);
    if Total(conversation, sz.cost) <= maxTokens then conversation
    else if start < |body| then SystemHead(conversation) + body[start..]
    else SystemHead(conversation) + RecoverTail(body, BodyBudget(conversation, maxTokens, sz.cost), sz)
  }

  // ----- The source's loops -----

  /** Pops the results off the end, then puts them back in order. */
  method PopResults(conversation: seq<Item>) returns (body: seq<Item>, results: seq<Item>)
    ensures body == conversation[..ResultRun(conversation)]
    ensures results == conversation[ResultRun(conversation)..]
  {
    body, results := conversation, [];
    while body != [] && body[|body| - 1].ToolResult?
      invariant |body| <= |conversation|
      invariant body == conversation[..|body|] && results == conversation[|body|..]
      invariant ResultRun(conversation) == RunStart(conversation, |body|)
      decreases |body|
    {
      results := [body[|body| - 1]] + results;
      body := body[..|body| - 1];
    }
  }

  method RecoverTruncatedTailUnit(conversation: seq<Item>, budget: nat) returns (unit: seq<Item>)
    ensures unit == RecoverTail(conversation, budget, TokenSizing())
  {
    var body, results := PopResults(conversation);
    if results == [] {
      assert body == conversation;
      if body == [] { return []; }
      var item := TruncateItemToTokens(body[|body| - 1], budget);
      return [item];
    }
    unit := [];
    if body != [] && Owner(body[|body| - 1]) {
      unit := [body[|body| - 1]];
    }
    assert unit == TailOwner(conversation);
    var cut := TruncateResults(results, Share(Less(budget, Total(unit, EstimateItemTokens)), |results|));
    unit := unit + cut;
  }

  method TruncateResults(results: seq<Item>, per: nat) returns (cut: seq<Item>)
    ensures cut == TruncateAll(results, per, TruncateItem)
  {
    cut := [];
    for i := 0 to |results|
      invariant cut == TruncateAll(results, per, TruncateItem)[..i]
    {
      var r := TruncateItemToTokens(results[i], per);
      cut := cut + [r];
    }
  }

  method FindStart(body: seq<Item>, budget: nat, cost: Item -> nat) returns (start: nat)
    ensures start == SkipResults(body, CutFrom(Costs(body, cost), |body|, budget))
  {
    var costs := Costs(body, cost);
    var remaining: nat, i := budget, |body|;
    start := |body|;
    while i > 0 && costs[i - 1] <= remaining
      invariant 0 <= i <= |body| && start == i
      invariant CutFrom(costs, |body|, budget) == CutFrom(costs, i, remaining)
    {
      i := i - 1;
      remaining := remaining - costs[i];
      start := i;
    }
    ghost var cut := start;
    while start < |body| && body[start].ToolResult?
      invariant start <= |body|
      invariant SkipResults(body, cut) == SkipResults(body, start)
    {
      start := start + 1;
    }
  }

  method FitConversationToBudget(conversation: seq<Item>, maxTokens: nat)
    returns (fitted: seq<Item>)
    ensures fitted == Fit(conversation, maxTokens, TokenSizing())
  {
    if Total(conversation, EstimateItemTokens) <= maxTokens {
      return conversation;
    }
    var head, body := [], conversation;
    if body != [] && body[0].System? {
      head, body := [body[0]], body[1..];
    }
    assert head == SystemHead(conversation) && body == Body(conversation);
    var budget := Less(maxTokens, Total(head, EstimateItemTokens));
    var start := FindStart(body, budget, EstimateItemTokens);
    if start < |body| {
      fitted := head + body[start..];
    } else {
      var unit := RecoverTruncatedTailUnit(body, budget);
      fitted := head + unit;
    }
  }

  // ----- The budget -----

  lemma {:induction false} SumConcat(a: seq<nat>, b: seq<nat>)
    ensures Sum(a + b) == Sum(a) + Sum(b)
  {
    if a == [] {
      assert a + b == b;
    } else {
      assert (a + b)[1..] == a[1..] + b;
      SumConcat(a[1..], b);
    }
  }

  lemma TotalConcat(a: seq<Item>, b: seq<Item>, cost: Item -> nat)
    ensures Total(a + b, cost) == Total(a, cost) + Total(b, cost)
  {
    assert Costs(a + b, cost) == Costs(a, cost) + Costs(b, cost);
    SumConcat(Costs(a, cost), Costs(b, cost));
  }

  lemma LongerCostsMore(body: seq<Item>, j: nat, i: nat, cost: Item -> nat)
    requires j <= i <= |body|
    ensures Total(body[j..], cost) >= Total(body[i..], cost)
  {
    assert body[j..] == body[j..i] + body[i..];
    TotalConcat(body[j..i], body[i..], cost);
  }

  lemma {:induction false} CutFromFits(costs: seq<nat>, i: nat, remaining: nat)
    requires i <= |costs|
    ensures var cut := CutFrom(costs, i, remaining);
            && Sum(costs[cut..i]) <= remaining
            && (cut > 0 ==> Sum(costs[cut - 1..i]) > remaining)
  {
    var cut := CutFrom(costs, i, remaining);
    if i > 0 && costs[i - 1] <= remaining {
      CutFromFits(costs, i - 1, remaining - costs[i - 1]);
      LastCost(costs, cut, i);
      if cut > 0 { LastCost(costs, cut - 1, i); }
    } else if i > 0 {
      LastCost(costs, i - 1, i);
    }
  }

  lemma LastCost(costs: seq<nat>, j: nat, i: nat)
    requires j < i <= |costs|
    ensures Sum(costs[j..i]) == Sum(costs[j..i - 1]) + costs[i - 1]
  {
    var last := [costs[i - 1]];
    assert costs[j..i] == costs[j..i - 1] + last;
    SumConcat(costs[j..i - 1], last);
    assert Sum(last) == costs[i - 1] + Sum(last[1..]);
  }

  /** The cut starts the longest suffix of the body that what the system prompt
      leaves can pay for: it fits, and no earlier start does. */
  lemma CutIsLongestFit(conversation: seq<Item>, maxTokens: nat, cost: Item -> nat)
    ensures var body, budget, cut := Body(conversation), BodyBudget(conversation, maxTokens, cost),
              Cut(conversation, maxTokens, cost);
            && Total(body[cut..], cost) <= budget
            && forall j :: 0 <= j < cut ==> Total(body[j..], cost) > budget
  {
    var body, budget := Body(conversation), BodyBudget(conversation, maxTokens, cost);
    var cut := Cut(conversation, maxTokens, cost);
    CutFromFits(Costs(body, cost), |body|, budget);
    SliceTotal(body, cut, cost);
    forall j | 0 <= j < cut ensures Total(body[j..], cost) > budget {
      SliceTotal(body, cut - 1, cost);
      LongerCostsMore(body, j, cut - 1, cost);
    }
  }

  lemma SliceTotal(body: seq<Item>, i: nat, cost: Item -> nat)
    requires i <= |body|
    ensures Total(body[i..], cost) == Sum(Costs(body, cost)[i..|body|])
  {
    assert Costs(body, cost)[i..|body|] == Costs(body[i..], cost);
  }

  /** While some turn fits, the result fits the budget or is no dearer than the system
      prompt alone, and it resumes at an item that is not a tool result. */
  lemma SuffixFitsBudget(conversation: seq<Item>, maxTokens: nat, sz: Sizing)
    requires Total(conversation, sz.cost) > maxTokens
    requires Start(conversation, maxTokens, sz.cost) < |Body(conversation)|
    ensures var r, head := Fit(conversation, maxTokens, sz), SystemHead(conversation);
            && Total(r, sz.cost) <= (if Total(head, sz.cost) > maxTokens then Total(head, sz.cost) else maxTokens)
            && head < r && !r[|head|].ToolResult?
  {
    var head, body := SystemHead(conversation), Body(conversation);
    var start, cut := Start(conversation, maxTokens, sz.cost), Cut(conversation, maxTokens, sz.cost);
    CutIsLongestFit(conversation, maxTokens, sz.cost);
    LongerCostsMore(body, cut, start, sz.cost);
    TotalConcat(head, body[start..], sz.cost);
  }

  lemma {:induction false} AffordableIsUncut(costs: seq<nat>, i: nat, remaining: nat)
    requires i <= |costs| && Sum(costs[..i]) <= remaining
    ensures CutFrom(costs, i, remaining) == 0
  {
    if i > 0 {
      LastCost(costs, 0, i);
      assert costs[0..i] == costs[..i] && costs[0..i - 1] == costs[..i - 1];
      AffordableIsUncut(costs, i - 1, remaining - costs[i - 1]);
    }
  }

  /** Fitting again changes nothing while some turn fits, whatever the system prompt costs. */
  lemma FitIsFixed(conversation: seq<Item>, maxTokens: nat, sz: Sizing)
    requires Start(conversation, maxTokens, sz.cost) < |Body(conversation)|
    ensures Fit(Fit(conversation, maxTokens, sz), maxTokens, sz) == Fit(conversation, maxTokens, sz)
  {
    if Total(conversation, sz.cost) > maxTokens {
      var head, rest := SystemHead(conversation), Body(conversation)[Start(conversation, maxTokens, sz.cost)..];
      SuffixFitsBudget(conversation, maxTokens, sz);
      if Total(head + rest, sz.cost) > maxTokens {
        assert Total([], sz.cost) == 0;
        CutIsLongestFit(conversation, maxTokens, sz.cost);
        LongerCostsMore(Body(conversation), Cut(conversation, maxTokens, sz.cost),
          Start(conversation, maxTokens, sz.cost), sz.cost);
        FreeTailStays(head, rest, maxTokens, sz);
      }
    }
  }

  lemma FreeTailStays(head: seq<Item>, rest: seq<Item>, maxTokens: nat, sz: Sizing)
    requires |head| == 1 && head[0].System? && Total(head, sz.cost) > maxTokens
    requires rest != [] && !rest[0].ToolResult? && Total(rest, sz.cost) == 0
    ensures Fit(head + rest, maxTokens, sz) == head + rest
  {
    var c, costs := head + rest, Costs(rest, sz.cost);
    assert c[..1] == head && c[1..] == rest && rest[0..] == rest;
    assert costs[..|rest|] == costs;
    AffordableIsUncut(costs, |rest|, 0);
  }

  // ----- The recovered tail -----

  /** No result's marker takes more than `e` tokens beyond its reserve. */
  ghost predicate ExcessWithin(items: seq<Item>, e: nat)
  {
    forall k :: 0 <= k < |items| && items[k].ToolResult? ==> Excess(items[k].text) <= e
  }

  /** Cutting a result to some tokens leaves it costing no more, or 16 tokens, and the excess. */
  ghost predicate PricesCutResults(sz: Sizing)
  {
    forall x: Item, tokens: nat :: x.ToolResult? ==> sz.cost(sz.cut(x, tokens)) <= AtLeast16(tokens) + Excess(x.text)
  }

  /** The source's own estimator and cutter meet both conditions. */
  lemma TokenSizingIsSound()
    ensures KeepsSlots(TokenSizing()) && PricesCutResults(TokenSizing())
  {
    forall x: Item, tokens: nat | x.ToolResult?
      ensures EstimateItemTokens(TruncateItem(x, tokens)) <= AtLeast16(tokens) + Excess(x.text)
    {
      CutResultCost(x, tokens);
    }
  }

  lemma {:induction false} SumAtMost(costs: seq<nat>, each: nat)
    requires forall k :: 0 <= k < |costs| ==> costs[k] <= each
    ensures Sum(costs) <= |costs| * each
  {
    if costs != [] {
      SumAtMost(costs[1..], each);
      assert |costs| * each == each + (|costs| - 1) * each;
    }
  }

  lemma TruncatedRunCost(items: seq<Item>, tokens: nat, e: nat, sz: Sizing)
    requires PricesCutResults(sz)
    requires ExcessWithin(items, e) && forall k :: 0 <= k < |items| ==> items[k].ToolResult?
    ensures Total(TruncateAll(items, tokens, sz.cut), sz.cost) <= |items| * (AtLeast16(tokens) + e)
  {
    var costs := Costs(TruncateAll(items, tokens, sz.cut), sz.cost);
    forall k | 0 <= k < |costs| ensures costs[k] <= AtLeast16(tokens) + e {
      assert sz.cost(sz.cut(items[k], tokens)) <= AtLeast16(tokens) + Excess(items[k].text);
    }
    SumAtMost(costs, AtLeast16(tokens) + e);
  }

  lemma SharesFit(budget: nat, count: nat)
    requires count > 0
    ensures count * AtLeast16(Share(budget, count)) <= if budget < 16 * count then 16 * count else budget
  {
    var per := budget / count;
    assert count * per <= budget;
    if per >= 16 { assert count * per >= 16 * count; }
  }

  /** A recovered run of results costs at most its owner plus what the owner leaves of
      the budget, or 16 tokens a result where that is more, and the markers' excess. */
  lemma RecoveredTailCost(body: seq<Item>, budget: nat, e: nat, sz: Sizing)
    requires PricesCutResults(sz)
    requires ResultRun(body) < |body| && ExcessWithin(body, e)
    ensures var n, owner := |body| - ResultRun(body), Total(TailOwner(body), sz.cost);
            Total(RecoverTail(body, budget, sz), sz.cost)
            <= owner + (if Less(budget, owner) < 16 * n then 16 * n else Less(budget, owner)) + n * e
  {
    var k, owner := ResultRun(body), TailOwner(body);
    var left := Less(budget, Total(owner, sz.cost));
    assert forall i :: 0 <= i < |body| - k ==> body[k..][i] == body[k + i];
    UnitCost(owner, body[k..], left, e, sz);
  }

  lemma UnitCost(owner: seq<Item>, results: seq<Item>, left: nat, e: nat, sz: Sizing)
    requires PricesCutResults(sz)
    requires results != [] && ExcessWithin(results, e)
    requires forall k :: 0 <= k < |results| ==> results[k].ToolResult?
    ensures var n := |results|;
            Total(owner + TruncateAll(results, Share(left, n), sz.cut), sz.cost)
            <= Total(owner, sz.cost) + (if left < 16 * n then 16 * n else left) + n * e
  {
    var n := |results|;
    var per := Share(left, n);
    TruncatedRunCost(results, per, e, sz);
    TotalConcat(owner, TruncateAll(results, per, sz.cut), sz.cost);
    SharesFit(left, n);
    assert n * (AtLeast16(per) + e) == n * AtLeast16(per) + n * e;
  }

  lemma RecoveryKeepsLast(body: seq<Item>, budget: nat, sz: Sizing)
    requires KeepsSlots(sz)
    requires body != []
    ensures var r := RecoverTail(body, budget, sz);
            r != [] && SameSlot(body[|body| - 1], r[|r| - 1])
  {
    var k := ResultRun(body);
    if k < |body| {
      var owner := TailOwner(body);
      var per := Share(Less(budget, Total(owner, sz.cost)), |body| - k);
      var cut := TruncateAll(body[k..], per, sz.cut);
      assert (owner + cut)[|owner + cut| - 1] == cut[|cut| - 1];
      assert body[k..][|cut| - 1] == body[|body| - 1];
    }
  }

  /** The last item is never dropped: it ends the result, at most with its text cut. */
  lemma LastItemKept(conversation: seq<Item>, maxTokens: nat, sz: Sizing)
    requires KeepsSlots(sz)
    requires conversation != []
    ensures var r := Fit(conversation, maxTokens, sz);
            r != [] && SameSlot(conversation[|conversation| - 1], r[|r| - 1])
  {
    var head, body, start := SystemHead(conversation), Body(conversation), Start(conversation, maxTokens, sz.cost);
    var budget := BodyBudget(conversation, maxTokens, sz.cost);
    if Total(conversation, sz.cost) > maxTokens {
      if start < |body| {
        EndsAlike(head, body[start..]);
      } else if body != [] {
        RecoveryKeepsLast(body, budget, sz);
        EndsAlike(head, RecoverTail(body, budget, sz));
      }
    }
  }

  lemma EndsAlike(a: seq<Item>, b: seq<Item>)
    requires b != []
    ensures (a + b)[|a + b| - 1] == b[|b| - 1]
  {
  }

  // ----- The provider invariant -----

  lemma SuffixKeepsStrict(items: seq<Item>, start: nat)
    requires StrictHistory(items)
    requires start < |items| && !items[start].ToolResult?
    ensures StrictHistory(items[start..])
  {
    var r := items[start..];
    forall i | 0 <= i < |r| && r[i].ToolResult? ensures StrictlyPaired(r, i) {
      assert StrictlyPaired(items, start + i);
      var o :| OwnsAt(items, o, start + i) && forall k :: o < k < start + i ==> items[k].ToolResult?;
      assert o >= start;
      assert OwnsAt(r, o - start, i);
      assert forall k :: o - start < k < i ==> r[k] == items[start + k];
    }
  }

  lemma SystemKeepsStrict(head: seq<Item>, items: seq<Item>)
    requires StrictHistory(items)
    requires |head| <= 1 && (head != [] ==> head[0].System?)
    ensures StrictHistory(head + items)
  {
    var r, n := head + items, |head|;
    forall i | 0 <= i < |r| && r[i].ToolResult? ensures StrictlyPaired(r, i) {
      assert StrictlyPaired(items, i - n);
      var o :| OwnsAt(items, o, i - n) && forall k :: o < k < i - n ==> items[k].ToolResult?;
      assert OwnsAt(r, o + n, i);
      assert forall k :: o + n < k < i ==> r[k] == items[k - n];
    }
  }

  lemma BodyIsStrict(conversation: seq<Item>)
    requires StrictHistory(conversation)
    ensures StrictHistory(Body(conversation))
  {
    if conversation != [] && conversation[0].System? {
      if |conversation| > 1 {
        assert conversation[1].ToolResult? ==> StrictlyPaired(conversation, 1);
        SuffixKeepsStrict(conversation, 1);
      }
    } else {
      assert conversation[0..] == conversation;
    }
  }

  /** In a strict history every result of a final run belongs to the item before it. */
  lemma FinalRunOwner(body: seq<Item>, k: nat, i: nat)
    requires StrictHistory(body) && k <= i < |body|
    requires forall j :: k <= j < |body| ==> body[j].ToolResult?
    requires k > 0 ==> !body[k - 1].ToolResult?
    ensures k > 0 && Owner(body[k - 1]) && body[i].callId in CallIds(body[k - 1].calls)
  {
    assert StrictlyPaired(body, i);
    var o :| OwnsAt(body, o, i) && forall j :: o < j < i ==> body[j].ToolResult?;
    assert forall j :: k <= j < |body| ==> body[j] != body[o];
    assert o == k - 1;
  }

  lemma OwnedRunIsStrict(unit: seq<Item>)
    requires unit != [] && unit[0].Assistant?
    requires forall i :: 0 < i < |unit| ==> unit[i].ToolResult? && unit[i].callId in CallIds(unit[0].calls)
    ensures StrictHistory(unit)
  {
    forall i | 0 <= i < |unit| && unit[i].ToolResult? ensures StrictlyPaired(unit, i) {
      assert OwnsAt(unit, 0, i);
    }
  }

  lemma RecoveredTailIsStrict(body: seq<Item>, budget: nat, sz: Sizing)
    requires KeepsSlots(sz)
    requires StrictHistory(body)
    ensures StrictHistory(RecoverTail(body, budget, sz))
  {
    var k := ResultRun(body);
    if k < |body| {
      FinalRunOwner(body, k, k);
      var owner := [body[k - 1]];
      var cut := TruncateAll(body[k..], Share(Less(budget, Total(owner, sz.cost)), |body| - k), sz.cut);
      forall i | 0 <= i < |cut| ensures cut[i].ToolResult? && cut[i].callId in CallIds(owner[0].calls) {
        FinalRunOwner(body, k, k + i);
        assert SameSlot(body[k..][i], cut[i]);
      }
      OwnedRunIsStrict(owner + cut);
    }
  }

  /** Both ways of shrinking keep every tool result in the run of its owner. */
  lemma FitKeepsStrict(conversation: seq<Item>, maxTokens: nat, sz: Sizing)
    requires KeepsSlots(sz)
    requires StrictHistory(conversation)
    ensures StrictHistory(Fit(conversation, maxTokens, sz))
    ensures InvalidIds(Fit(conversation, maxTokens, sz), {}) == []
  {
    var head, body := SystemHead(conversation), Body(conversation);
    var start, budget := Start(conversation, maxTokens, sz.cost), BodyBudget(conversation, maxTokens, sz.cost);
    BodyIsStrict(conversation);
    if Total(conversation, sz.cost) > maxTokens {
      if start < |body| {
        SuffixKeepsStrict(body, start);
        SystemKeepsStrict(head, body[start..]);
      } else {
        RecoveredTailIsStrict(body, budget, sz);
        SystemKeepsStrict(head, RecoverTail(body, budget, sz));
      }
    }
    StrictIsLenient(Fit(conversation, maxTokens, sz));
  }
}
