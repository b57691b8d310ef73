/** Exactly when a fitted conversation meets its budget, and when fitting it again
    changes it. */
module BudgetLimits {
  import opened Conversation
  import opened Utf8Text
  import opened ItemSizes
  import opened BudgetFit

  // ----- Which way the conversation is shrunk -----

  /** No turn fits what the system prompt leaves: the body is only tool results, or its
      last turn, with the results behind it, costs too much. */
  predicate NoTurnFits(conversation: seq<Item>, maxTokens: nat, cost: Item -> nat)
  {
    var body := Body(conversation);
    var k := ResultRun(body);
    k == 0 || Total(body[k - 1..], cost) > BodyBudget(conversation, maxTokens, cost)
  }

  lemma RecoveryIff(conversation: seq<Item>, maxTokens: nat, cost: Item -> nat)
    ensures Start(conversation, maxTokens, cost) == |Body(conversation)| <==> NoTurnFits(conversation, maxTokens, cost)
  {
    var body, cut := Body(conversation), Cut(conversation, maxTokens, cost);
    var k := ResultRun(body);
    CutIsLongestFit(conversation, maxTokens, cost);
    if k > 0 && cut < k { LongerCostsMore(body, cut, k - 1, cost); }
  }

  /** Over budget with some turn fitting, the result is the system prompt and the longest
      suffix of the body that starts at no tool result and fits what the prompt leaves:
      every earlier start costs more. Within budget nothing changes. */
  lemma FitKeepsLongest(conversation: seq<Item>, maxTokens: nat, sz: Sizing) returns (start: nat)
    requires Total(conversation, sz.cost) > maxTokens && !NoTurnFits(conversation, maxTokens, sz.cost)
    ensures var body, budget := Body(conversation), BodyBudget(conversation, maxTokens, sz.cost);
            && start < |body| && !body[start].ToolResult?
            && Fit(conversation, maxTokens, sz) == SystemHead(conversation) + body[start..]
            && Total(body[start..], sz.cost) <= budget
            && forall j :: 0 <= j < start && !body[j].ToolResult? ==> Total(body[j..], sz.cost) > budget
  {
    var body, cut := Body(conversation), Cut(conversation, maxTokens, sz.cost);
    start := Start(conversation, maxTokens, sz.cost);
    RecoveryIff(conversation, maxTokens, sz.cost);
    CutIsLongestFit(conversation, maxTokens, sz.cost);
    LongerCostsMore(body, cut, start, sz.cost);
    assert forall j :: cut <= j < start ==> body[j].ToolResult?;
  }

  lemma FitWithinIsWhole(conversation: seq<Item>, maxTokens: nat, sz: Sizing)
    requires Total(conversation, sz.cost) <= maxTokens
    ensures Fit(conversation, maxTokens, sz) == conversation
    ensures SystemHead(conversation) + Body(conversation) == conversation
    ensures SystemHead(conversation) != [] <==> conversation != [] && conversation[0].System?
  {
  }

  /** The largest equal share of `left` for `n`, at least one. */
  predicate IsShare(share: nat, left: nat, n: nat)
  {
    share >= 1 && (n * share <= left < n * (share + 1) || (share == 1 && left < n))
  }

  lemma ShareIsLargest(left: nat, n: nat)
    requires n > 0
    ensures IsShare(Share(left, n), left, n)
  {
    var per := left / n;
    assert n * per <= left < n * per + n;
    assert n * (per + 1) == n * per + n;
    if per >= 1 { assert n * per >= n; }
  }

  /** A message that made tool calls, right before `k`. */
  function OwnerBefore(body: seq<Item>, k: nat): seq<Item>
    requires k <= |body|
  {
    if k > 0 && body[k - 1].Assistant? && body[k - 1].calls != [] then [body[k - 1]] else []
  }

  function CutEach(body: seq<Item>, k: nat, share: nat, cut: (Item, nat) -> Item): seq<Item>
    requires k <= |body|
  {
    seq(|body| - k, i requires 0 <= i < |body| - k => cut(body[k + i], share))
  }

  lemma RecoveredRunIs(body: seq<Item>, budget: nat, sz: Sizing) returns (share: nat)
    requires ResultRun(body) < |body|
    ensures var k := ResultRun(body);
            var spent := Total(OwnerBefore(body, k), sz.cost);
            && IsShare(share, if spent < budget then budget - spent else 0, |body| - k)
            && RecoverTail(body, budget, sz) == OwnerBefore(body, k) + CutEach(body, k, share, sz.cut)
  {
    var k := ResultRun(body);
    assert TailOwner(body) == OwnerBefore(body, k);
    share := TailShare(body, budget, sz.cost);
    ShareIsLargest(Less(budget, Total(TailOwner(body), sz.cost)), |body| - k);
    CutEachIs(body, k, share, sz.cut);
  }

  lemma CutEachIs(body: seq<Item>, k: nat, share: nat, cut: (Item, nat) -> Item)
    requires k <= |body|
    ensures TruncateAll(body[k..], share, cut) == CutEach(body, k, share, cut)
  {
  }

  /** What stands in for a body of which no turn fits: its last item cut to the budget; or
      all its final results, in order, each cut to the largest equal share of what their
      owner leaves, but at least one token, behind that owner when it stands right there. */
  lemma FitRecovers(conversation: seq<Item>, maxTokens: nat, sz: Sizing) returns (share: nat)
    requires Total(conversation, sz.cost) > maxTokens && NoTurnFits(conversation, maxTokens, sz.cost)
    requires Body(conversation) != []
    ensures var r, head, body := Fit(conversation, maxTokens, sz), SystemHead(conversation), Body(conversation);
            var budget, k := BodyBudget(conversation, maxTokens, sz.cost), ResultRun(Body(conversation));
            var spent := Total(OwnerBefore(body, k), sz.cost);
            && (k == |body| ==> r == head + [sz.cut(body[k - 1], budget)])
            && (k < |body| ==>
                  && IsShare(share, if spent < budget then budget - spent else 0, |body| - k)
                  && r == head + (OwnerBefore(body, k) + CutEach(body, k, share, sz.cut)))
  {
    var body, budget := Body(conversation), BodyBudget(conversation, maxTokens, sz.cost);
    RecoveryIff(conversation, maxTokens, sz.cost);
    share := 0;
    if ResultRun(body) < |body| { share := RecoveredRunIs(body, budget, sz); }
  }

  /** What the suffix branch returns fits the budget exactly when the system prompt does. */
  lemma SuffixFitsIff(conversation: seq<Item>, maxTokens: nat, sz: Sizing)
    requires Total(conversation, sz.cost) > maxTokens
    requires !NoTurnFits(conversation, maxTokens, sz.cost)
    ensures Total(Fit(conversation, maxTokens, sz), sz.cost) <= maxTokens
            <==> Total(SystemHead(conversation), sz.cost) <= maxTokens
  {
    var start := Start(conversation, maxTokens, sz.cost);
    RecoveryIff(conversation, maxTokens, sz.cost);
    SuffixFitsBudget(conversation, maxTokens, sz);
    TotalConcat(SystemHead(conversation), Body(conversation)[start..], sz.cost);
  }

  /** What the recovery branch returns fits exactly when the system prompt does and the
      recovered tail fits what it leaves. */
  lemma RecoveryFitsIff(conversation: seq<Item>, maxTokens: nat, sz: Sizing)
    requires Total(conversation, sz.cost) > maxTokens
    requires NoTurnFits(conversation, maxTokens, sz.cost)
    ensures var budget := BodyBudget(conversation, maxTokens, sz.cost);
            Total(Fit(conversation, maxTokens, sz), sz.cost) <= maxTokens
            <==> && Total(SystemHead(conversation), sz.cost) <= maxTokens
                 && Total(RecoverTail(Body(conversation), budget, sz), sz.cost) <= budget
  {
    var budget := BodyBudget(conversation, maxTokens, sz.cost);
    RecoveryIff(conversation, maxTokens, sz.cost);
    TotalConcat(SystemHead(conversation), RecoverTail(Body(conversation), budget, sz), sz.cost);
  }

  // ----- What a recovered tail costs -----

  function TailShare(body: seq<Item>, budget: nat, cost: Item -> nat): nat
  {
    var k := ResultRun(body);
    if k == |body| then budget else Share(Less(budget, Total(TailOwner(body), cost)), |body| - k)
  }

  /** Tokens left of each result cut to `tokens`, from its text. */
  function CutResultTokens(results: seq<Item>, tokens: nat): nat
    requires forall k :: 0 <= k < |results| ==> results[k].ToolResult?
  {
    if results == [] then 0
    else CutSize(results[0].text, SaturatingBytes(tokens)) / BYTES_PER_TOKEN + CutResultTokens(results[1..], tokens)
  }

  /** Whether the tail that is cut down fits, read off the items before they are cut. */
  predicate TailFits(body: seq<Item>, budget: nat)
  {
    var k := ResultRun(body);
    if body == [] then true
    else if k == |body| then
      match body[k - 1]
      case Assistant(text, calls) => AssistantFits(text, calls, budget)
      case User(content, _) => UserFits(content, budget)
      case _ => false
    else
      Total(TailOwner(body), EstimateItemTokens)
      + CutResultTokens(body[k..], TailShare(body, budget, EstimateItemTokens)) <= budget
  }

  lemma TotalOne(x: Item, cost: Item -> nat)
    ensures Total([x], cost) == cost(x)
  {
    var costs := Costs([x], cost);
    assert Sum(costs) == costs[0] + Sum(costs[1..]);
  }

  lemma TotalCons(items: seq<Item>, cost: Item -> nat)
    requires items != []
    ensures Total(items, cost) == cost(items[0]) + Total(items[1..], cost)
  {
    assert Costs(items, cost)[1..] == Costs(items[1..], cost);
  }

  lemma CutResultIs(x: Item, tokens: nat)
    requires x.ToolResult?
    ensures EstimateItemTokens(TruncateItem(x, tokens)) == CutSize(x.text, SaturatingBytes(tokens)) / BYTES_PER_TOKEN
  {
    CutSizeIs(x.text, SaturatingBytes(tokens));
  }

  lemma {:induction false} CutRunTotal(results: seq<Item>, tokens: nat)
    requires forall k :: 0 <= k < |results| ==> results[k].ToolResult?
    ensures Total(TruncateAll(results, tokens, TruncateItem), EstimateItemTokens) == CutResultTokens(results, tokens)
  {
    var cut := TruncateAll(results, tokens, TruncateItem);
    if results != [] {
      assert cut[1..] == TruncateAll(results[1..], tokens, TruncateItem);
      CutRunTotal(results[1..], tokens);
      TotalCons(cut, EstimateItemTokens);
      CutResultIs(results[0], tokens);
    }
  }

  lemma SingleFitsIff(x: Item, budget: nat)
    requires !x.ToolResult? && EstimateItemTokens(x) > budget
    ensures TailFits([x], budget) <==> EstimateItemTokens(TruncateItem(x, budget)) <= budget
  {
    match x {
      case Assistant(text, calls) => AssistantFitsIff(text, calls, budget);
      case User(_, _) => UserFitsIff(x, budget);
      case _ =>
    }
  }

  lemma TailFitsIff(body: seq<Item>, budget: nat)
    requires body != [] && ResultRun(body) == |body| ==> EstimateItemTokens(body[|body| - 1]) > budget
    ensures Total(RecoverTail(body, budget, TokenSizing()), EstimateItemTokens) <= budget <==> TailFits(body, budget)
  {
    var k := ResultRun(body);
    if body == [] {
      assert Total([], EstimateItemTokens) == 0;
    } else if k == |body| {
      var x := body[k - 1];
      TotalOne(TruncateItem(x, budget), EstimateItemTokens);
      SingleFitsIff(x, budget);
      assert ResultRun([x]) == 1;
    } else {
      var per := TailShare(body, budget, EstimateItemTokens);
      TotalConcat(TailOwner(body), TruncateAll(body[k..], per, TruncateItem), EstimateItemTokens);
      CutRunTotal(body[k..], per);
    }
  }

  lemma LastIsDear(conversation: seq<Item>, maxTokens: nat, cost: Item -> nat)
    requires NoTurnFits(conversation, maxTokens, cost)
    requires var body := Body(conversation); body != [] && ResultRun(body) == |body|
    ensures cost(Body(conversation)[|Body(conversation)| - 1]) > BodyBudget(conversation, maxTokens, cost)
  {
    var body := Body(conversation);
    assert body[|body| - 1..] == [body[|body| - 1]];
    TotalOne(body[|body| - 1], cost);
  }

  /** When the fitted conversation meets the budget, read off the conversation: it fits
      already, or the system prompt fits and so does either the last turn as it is or the
      tail that is cut down in its place. */
  lemma FitMeetsBudgetIff(conversation: seq<Item>, maxTokens: nat)
    ensures var cost := EstimateItemTokens;
            Total(Fit(conversation, maxTokens, TokenSizing()), cost) <= maxTokens
            <==> Total(conversation, cost) <= maxTokens
                 || (&& Total(SystemHead(conversation), cost) <= maxTokens
                     && (NoTurnFits(conversation, maxTokens, cost)
                         ==> TailFits(Body(conversation), BodyBudget(conversation, maxTokens, cost))))
  {
    var body, budget := Body(conversation), BodyBudget(conversation, maxTokens, EstimateItemTokens);
    if Total(conversation, EstimateItemTokens) > maxTokens {
      if NoTurnFits(conversation, maxTokens, EstimateItemTokens) {
        RecoveryFitsIff(conversation, maxTokens, TokenSizing());
        if body != [] && ResultRun(body) == |body| { LastIsDear(conversation, maxTokens, EstimateItemTokens); }
        TailFitsIff(body, budget);
      } else {
        SuffixFitsIff(conversation, maxTokens, TokenSizing());
      }
    }
  }

  /** A last item whose text is never cut (a later system message, reasoning or a backend
      call) decides by itself: the result fits exactly when the system prompt and that item
      do. */
  lemma UncuttableTailFitsIff(conversation: seq<Item>, maxTokens: nat)
    requires Body(conversation) != []
    requires var x := conversation[|conversation| - 1]; x.System? || x.Reasoning? || x.BackendToolCall?
    ensures Total(Fit(conversation, maxTokens, TokenSizing()), EstimateItemTokens) <= maxTokens
            <==> Total(SystemHead(conversation), EstimateItemTokens)
                 + EstimateItemTokens(conversation[|conversation| - 1]) <= maxTokens
  {
    LastAlone(conversation, EstimateItemTokens);
    assert ResultRun(Body(conversation)) == |Body(conversation)|;
    FitMeetsBudgetIff(conversation, maxTokens);
  }

  /** The last item of the body is the last of the conversation, and costs no more than
      what is left of the conversation without the system prompt. */
  lemma LastAlone(conversation: seq<Item>, cost: Item -> nat)
    requires Body(conversation) != []
    ensures var body, last := Body(conversation), conversation[|conversation| - 1];
            && body[|body| - 1] == last && Total(body[|body| - 1..], cost) == cost(last)
            && Total(SystemHead(conversation), cost) + cost(last) <= Total(conversation, cost)
  {
    var head, body := SystemHead(conversation), Body(conversation);
    var n := |body|;
    assert conversation == head + body && body[0..] == body;
    TotalConcat(head, body, cost);
    assert body[n - 1..] == [body[n - 1]];
    TotalOne(body[n - 1], cost);
    LongerCostsMore(body, 0, n - 1, cost);
  }

  /** Tokens left of each result whose share is under 16 tokens, from its length alone. */
  function SmallShareTokens(results: seq<Item>, tokens: nat): nat
    requires forall k :: 0 <= k < |results| ==> results[k].ToolResult?
  {
    if results == [] then 0
    else
      var n := Size(results[0].text);
      (if n <= 4 * tokens then n else 56 + |Decimal(n)|) / BYTES_PER_TOKEN + SmallShareTokens(results[1..], tokens)
  }

  lemma {:induction false} SmallShares(results: seq<Item>, tokens: nat)
    requires tokens < 16 && forall k :: 0 <= k < |results| ==> results[k].ToolResult?
    ensures CutResultTokens(results, tokens) == SmallShareTokens(results, tokens)
  {
    if results != [] {
      SmallShareSize(results[0].text, tokens);
      SmallShares(results[1..], tokens);
    }
  }

  lemma ShareIsSmallIff(left: nat, n: nat)
    requires n > 0
    ensures Share(left, n) < 16 <==> left < 16 * n
  {
    var per := left / n;
    assert n * per <= left < n * per + n;
    if per >= 16 { assert n * per >= n * 16; } else { assert n * per <= n * 15; }
  }

  /** A final run of results: never in budget when its owner alone costs more, decided by
      the lengths of the texts when the owner leaves less than 16 tokens a result, and
      always in budget when it leaves that much and no marker outgrows its reserve. */
  lemma ResultRunFits(body: seq<Item>, budget: nat)
    requires ResultRun(body) < |body|
    ensures var k, owner := ResultRun(body), Total(TailOwner(body), EstimateItemTokens);
            var n, per := |body| - k, TailShare(body, budget, EstimateItemTokens);
            && (owner > budget ==> !TailFits(body, budget))
            && (Less(budget, owner) < 16 * n
                ==> (TailFits(body, budget) <==> owner + SmallShareTokens(body[k..], per) <= budget))
            && (owner <= budget && 16 * n <= budget - owner && ExcessWithin(body, 0) ==> TailFits(body, budget))
  {
    var k, owner := ResultRun(body), Total(TailOwner(body), EstimateItemTokens);
    var n, left := |body| - k, Less(budget, owner);
    ShareIsSmallIff(left, n);
    if left < 16 * n {
      SmallShares(body[k..], TailShare(body, budget, EstimateItemTokens));
    } else if ExcessWithin(body, 0) {
      TokenSizingIsSound();
      RecoveredTailCost(body, budget, 0, TokenSizing());
      TailFitsIff(body, budget);
    }
  }

  // ----- Fitting a recovered conversation again -----

  /** The items of the tail that are cut: the final results, or else the last item. */
  function CutItems(body: seq<Item>): (items: seq<Item>)
    ensures items == [] <==> body == []
  {
    var k := ResultRun(body);
    if body == [] then [] else if k == |body| then [body[k - 1]] else body[k..]
  }

  function UncutOwner(body: seq<Item>): seq<Item>
  {
    if ResultRun(body) == |body| then [] else TailOwner(body)
  }

  lemma TailShape(body: seq<Item>, budget: nat, sz: Sizing)
    ensures RecoverTail(body, budget, sz)
            == UncutOwner(body) + TruncateAll(CutItems(body), TailShare(body, budget, sz.cost), sz.cut)
  {
  }

  lemma RunStartAt(items: seq<Item>, k: nat, i: nat)
    requires k <= i <= |items|
    requires forall j :: k <= j < i ==> items[j].ToolResult?
    requires k > 0 ==> !items[k - 1].ToolResult?
    ensures RunStart(items, i) == k
  {
  }

  lemma SingleTail(x: Item, budget: nat, cost: Item -> nat)
    requires !x.ToolResult?
    ensures ResultRun([x]) == 1 && UncutOwner([x]) == [] && CutItems([x]) == [x] && TailShare([x], budget, cost) == budget
  {
    RunStartAt([x], 1, 1);
  }

  lemma RunTail(owner: seq<Item>, results: seq<Item>, budget: nat, cost: Item -> nat)
    requires |owner| <= 1 && (owner != [] ==> Owner(owner[0]))
    requires results != [] && forall k :: 0 <= k < |results| ==> results[k].ToolResult?
    ensures var tail := owner + results;
            && ResultRun(tail) == |owner| && UncutOwner(tail) == owner && CutItems(tail) == results
            && TailShare(tail, budget, cost) == Share(Less(budget, Total(owner, cost)), |results|)
  {
    var tail := owner + results;
    RunStartAt(tail, |owner|, |tail|);
    assert tail[|owner|..] == results && tail[..|owner|] == owner;
    if owner != [] { assert [tail[0]] == owner; }
    assert TailOwner(tail) == owner;
  }

  lemma CutRunIsRun(results: seq<Item>, tokens: nat, sz: Sizing)
    requires KeepsSlots(sz)
    requires forall k :: 0 <= k < |results| ==> results[k].ToolResult?
    ensures forall k :: 0 <= k < |results| ==> TruncateAll(results, tokens, sz.cut)[k].ToolResult?
  {
    forall k | 0 <= k < |results| ensures sz.cut(results[k], tokens).ToolResult? {
      assert SameSlot(results[k], sz.cut(results[k], tokens));
    }
  }

  /** A recovered tail has the same owner, the same shape and the same shares. */
  lemma TailAgain(body: seq<Item>, budget: nat, sz: Sizing)
    requires KeepsSlots(sz)
    ensures var tail, share := RecoverTail(body, budget, sz), TailShare(body, budget, sz.cost);
            && UncutOwner(tail) == UncutOwner(body)
            && CutItems(tail) == TruncateAll(CutItems(body), share, sz.cut)
            && TailShare(tail, budget, sz.cost) == share
            && ResultRun(tail) <= 1
  {
    var k, share := ResultRun(body), TailShare(body, budget, sz.cost);
    if body != [] && k == |body| {
      assert SameSlot(body[k - 1], sz.cut(body[k - 1], budget));
      SingleTail(sz.cut(body[k - 1], budget), budget, sz.cost);
    } else if body != [] {
      CutRunIsRun(body[k..], share, sz);
      RunTail(TailOwner(body), TruncateAll(body[k..], share, sz.cut), budget, sz.cost);
    }
  }

  lemma CutAllTwiceIff(items: seq<Item>, share: nat)
    ensures var once := TruncateAll(items, share, TruncateItem);
            TruncateAll(once, share, TruncateItem) == once
            <==> forall k :: 0 <= k < |items| ==> CutOnce(items[k], share)
  {
    var once := TruncateAll(items, share, TruncateItem);
    var twice := TruncateAll(once, share, TruncateItem);
    forall k | 0 <= k < |items| ensures twice[k] == once[k] <==> CutOnce(items[k], share) {
      CutOnceIff(items[k], share);
    }
    assert twice == once <==> forall k :: 0 <= k < |items| ==> twice[k] == once[k];
  }

  lemma RecoverTwiceIff(body: seq<Item>, budget: nat)
    ensures var tail := RecoverTail(body, budget, TokenSizing());
            RecoverTail(tail, budget, TokenSizing()) == tail
            <==> var share := TailShare(body, budget, EstimateItemTokens);
                 forall k :: 0 <= k < |CutItems(body)| ==> CutOnce(CutItems(body)[k], share)
  {
    var sz, tail, share := TokenSizing(), RecoverTail(body, budget, TokenSizing()), TailShare(body, budget, EstimateItemTokens);
    var owner, once := UncutOwner(body), TruncateAll(CutItems(body), share, TruncateItem);
    TokenSizingIsSound();
    TailShape(body, budget, sz);
    TailAgain(body, budget, sz);
    TailShape(tail, budget, sz);
    CutAllTwiceIff(CutItems(body), share);
    SameBehind(owner, TruncateAll(once, share, TruncateItem), once);
  }

  lemma RefitRecovered(head: seq<Item>, tail: seq<Item>, maxTokens: nat, sz: Sizing)
    requires |head| <= 1 && (head != [] ==> head[0].System?)
    requires tail != [] && ResultRun(tail) <= 1
    requires head == [] ==> !tail[0].System?
    requires Total(head + tail, sz.cost) > maxTokens
    requires ResultRun(tail) == 0 || Total(tail, sz.cost) > Less(maxTokens, Total(head, sz.cost))
    ensures var budget := Less(maxTokens, Total(head, sz.cost));
            Fit(head + tail, maxTokens, sz) == head + RecoverTail(tail, budget, sz)
  {
    HeadAndBody(head, tail);
    assert tail[0..] == tail;
    RecoveryIff(head + tail, maxTokens, sz.cost);
  }

  lemma HeadAndBody(head: seq<Item>, tail: seq<Item>)
    requires |head| <= 1 && (head != [] ==> head[0].System?)
    requires tail != [] && (head == [] ==> !tail[0].System?)
    ensures SystemHead(head + tail) == head && Body(head + tail) == tail
  {
    var c := head + tail;
    assert c[..|head|] == head && c[|head|..] == tail;
    if head != [] { assert c[0] == head[0] && c[..1] == head; } else { assert c == tail; }
  }

  /** A tail that fits while the system prompt does not costs nothing at all. */
  lemma FreeTailFixed(head: seq<Item>, body: seq<Item>, maxTokens: nat)
    requires |head| == 1 && head[0].System? && Total(head, EstimateItemTokens) > maxTokens
    requires body != [] && Total(RecoverTail(body, 0, TokenSizing()), EstimateItemTokens) == 0
    requires UncutOwner(body) != [] || ResultRun(body) == |body|
    ensures var r := head + RecoverTail(body, 0, TokenSizing()); Fit(r, maxTokens, TokenSizing()) == r
  {
    var tail, k := RecoverTail(body, 0, TokenSizing()), ResultRun(body);
    TailShape(body, 0, TokenSizing());
    if k == |body| { assert SameSlot(body[k - 1], TruncateItem(body[k - 1], 0)); }
    FreeTailStays(head, tail, maxTokens, TokenSizing());
  }

  lemma {:induction false} FreeResultsAreShort(results: seq<Item>, tokens: nat)
    requires tokens > 0 && forall k :: 0 <= k < |results| ==> results[k].ToolResult?
    requires CutResultTokens(results, tokens) == 0
    ensures forall k :: 0 <= k < |results| ==> CutOnce(results[k], tokens)
  {
    if results != [] {
      FreeResultsAreShort(results[1..], tokens);
      assert CutSize(results[0].text, SaturatingBytes(tokens)) < 4 <= SaturatingBytes(tokens);
      forall k | 0 < k < |results| ensures CutOnce(results[k], tokens) {
        assert results[k] == results[1..][k - 1];
      }
    }
  }

  /** The tail recovered from a body, after the head it is put behind. */
  lemma FittingTailFixed(head: seq<Item>, body: seq<Item>, maxTokens: nat)
    requires |head| <= 1 && (head != [] ==> head[0].System?)
    requires body != []
    requires var b := Less(maxTokens, Total(head, EstimateItemTokens));
             Total(RecoverTail(body, b, TokenSizing()), EstimateItemTokens) <= b
    ensures var r := head + RecoverTail(body, Less(maxTokens, Total(head, EstimateItemTokens)), TokenSizing());
            Fit(r, maxTokens, TokenSizing()) == r
  {
    var cost, b := EstimateItemTokens, Less(maxTokens, Total(head, EstimateItemTokens));
    var k, tail := ResultRun(body), RecoverTail(body, b, TokenSizing());
    TotalConcat(head, tail, cost);
    if Total(head + tail, cost) > maxTokens {
      assert Total([], cost) == 0;
      if UncutOwner(body) != [] || k == |body| {
        FreeTailFixed(head, body, maxTokens);
      } else {
        FreeRunFixed(head, body, maxTokens);
      }
    }
  }

  lemma FreeRunFixed(head: seq<Item>, body: seq<Item>, maxTokens: nat)
    requires |head| == 1 && head[0].System? && Total(head, EstimateItemTokens) > maxTokens
    requires ResultRun(body) < |body| && UncutOwner(body) == []
    requires Total(RecoverTail(body, 0, TokenSizing()), EstimateItemTokens) == 0
    ensures var r := head + RecoverTail(body, 0, TokenSizing()); Fit(r, maxTokens, TokenSizing()) == r
  {
    var k, tail := ResultRun(body), RecoverTail(body, 0, TokenSizing());
    var share := TailShare(body, 0, EstimateItemTokens);
    TokenSizingIsSound();
    TailAgain(body, 0, TokenSizing());
    TailShape(body, 0, TokenSizing());
    assert tail == TruncateAll(body[k..], share, TruncateItem);
    CutRunTotal(body[k..], share);
    FreeResultsAreShort(body[k..], share);
    RecoverTwiceIff(body, 0);
    CutRunIsRun(body[k..], share, TokenSizing());
    RunTail([], tail, 0, EstimateItemTokens);
    assert [] + tail == tail;
    TotalConcat(head, tail, EstimateItemTokens);
    RefitRecovered(head, tail, maxTokens, TokenSizing());
  }

  lemma DearTailFixedIff(head: seq<Item>, body: seq<Item>, maxTokens: nat)
    requires |head| <= 1 && (head != [] ==> head[0].System?)
    requires body != []
    requires var b := Less(maxTokens, Total(head, EstimateItemTokens));
             Total(RecoverTail(body, b, TokenSizing()), EstimateItemTokens) > b
    ensures var b := Less(maxTokens, Total(head, EstimateItemTokens));
            var r := head + RecoverTail(body, b, TokenSizing());
            Fit(r, maxTokens, TokenSizing()) == r
            <==> var share := TailShare(body, b, EstimateItemTokens);
                 forall k :: 0 <= k < |CutItems(body)| ==> CutOnce(CutItems(body)[k], share)
  {
    var b := Less(maxTokens, Total(head, EstimateItemTokens));
    var tail := RecoverTail(body, b, TokenSizing());
    TokenSizingIsSound();
    TotalConcat(head, tail, EstimateItemTokens);
    if head == [] && tail[0].System? {
      LoneSystemTail(body, b);
      assert head + tail == tail;
      assert Fit(tail, maxTokens, TokenSizing()) == tail + [];
    } else {
      TailAgain(body, b, TokenSizing());
      RefitRecovered(head, tail, maxTokens, TokenSizing());
      SameBehind(head, RecoverTail(tail, b, TokenSizing()), tail);
      RecoverTwiceIff(body, b);
    }
  }

  lemma SameBehind(head: seq<Item>, a: seq<Item>, b: seq<Item>)
    ensures head + a == head + b <==> a == b
  {
    assert (head + a)[|head|..] == a && (head + b)[|head|..] == b;
  }

  lemma LoneSystemTail(body: seq<Item>, budget: nat)
    requires body != [] && RecoverTail(body, budget, TokenSizing())[0].System?
    ensures |RecoverTail(body, budget, TokenSizing())| == 1
    ensures CutItems(body) == RecoverTail(body, budget, TokenSizing())
  {
    var k := ResultRun(body);
    if k < |body| {
      CutRunIsRun(body[k..], TailShare(body, budget, EstimateItemTokens), TokenSizing());
    }
  }

  /** When fitting a second time changes nothing, read off the conversation: nothing had to
      go, some turn fitted whole, the cut tail fits, or every item of the tail is one that
      cutting twice leaves as cutting once did. */
  lemma RefitFixedIff(conversation: seq<Item>, maxTokens: nat)
    ensures var r, cost := Fit(conversation, maxTokens, TokenSizing()), EstimateItemTokens;
            var body, budget := Body(conversation), BodyBudget(conversation, maxTokens, cost);
            Fit(r, maxTokens, TokenSizing()) == r
            <==> || Total(conversation, cost) <= maxTokens
                 || !NoTurnFits(conversation, maxTokens, cost)
                 || TailFits(body, budget)
                 || forall k :: 0 <= k < |CutItems(body)| ==> CutOnce(CutItems(body)[k], TailShare(body, budget, cost))
  {
    var head, body := SystemHead(conversation), Body(conversation);
    var budget := BodyBudget(conversation, maxTokens, EstimateItemTokens);
    RecoveryIff(conversation, maxTokens, EstimateItemTokens);
    if Total(conversation, EstimateItemTokens) > maxTokens {
      if !NoTurnFits(conversation, maxTokens, EstimateItemTokens) {
        FitIsFixed(conversation, maxTokens, TokenSizing());
      } else if body != [] {
        if ResultRun(body) == |body| { LastIsDear(conversation, maxTokens, EstimateItemTokens); }
        TailFitsIff(body, budget);
        if TailFits(body, budget) { FittingTailFixed(head, body, maxTokens); }
        else { DearTailFixedIff(head, body, maxTokens); }
      }
    }
  }

  /** An assistant message of 100 bytes and a budget of one token: what is left is only a
      marker, over budget, and fitting again cuts that marker for another. */
  lemma TinyBudgetWitness(text: string)
    requires |text| == 100 && forall k :: 0 <= k < |text| ==> text[k] as int < 0x80
    ensures var c := [Assistant(text, [])]; var r := Fit(c, 1, TokenSizing());
            Total(r, EstimateItemTokens) > 1 && Fit(r, 1, TokenSizing()) != r
  {
    var x := Assistant(text, []);
    AsciiSize(text);
    TotalOne(x, EstimateItemTokens);
    assert SystemHead([x]) == [] && Body([x]) == [x] && Total([], EstimateItemTokens) == 0;
    SingleTail(x, 1, EstimateItemTokens);
    assert [x][0..] == [x];
    FewDigits(100);
    SmallShareSize(text, 1);
    assert !CutOnce(CutItems([x])[0], 1);
    FitMeetsBudgetIff([x], 1);
    RefitFixedIff([x], 1);
  }
}
