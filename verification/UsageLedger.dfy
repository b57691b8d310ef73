/** The billing ledger: saturating totals beside a breakdown by model. */
module UsageLedger {
  import opened Wrappers

  const U64_MAX: nat := 0xFFFF_FFFF_FFFF_FFFF
  const I64_MAX: int := 0x7FFF_FFFF_FFFF_FFFF
  const I64_MIN: int := -0x8000_0000_0000_0000

  type u64 = n: nat | n <= U64_MAX
  type u32 = n: nat | n <= 0xFFFF_FFFF
  type i64 = n: int | I64_MIN <= n <= I64_MAX

  datatype Totals = Totals(
    input: u64, output: u64, cachedRead: u64, reasoning: u64, modelCalls: u64, apiMs: u64,
    cost: Option<i64>, costMissing: u64)

  /** The counters, by name. */
  datatype Counter = Input | Output | CachedRead | Reasoning | ModelCalls | ApiMs | CostMissing

  function Get(t: Totals, c: Counter): u64
  {
    match c
    case Input => t.input
    case Output => t.output
    case CachedRead => t.cachedRead
    case Reasoning => t.reasoning
    case ModelCalls => t.modelCalls
    case ApiMs => t.apiMs
    case CostMissing => t.costMissing
  }

  const ZERO := Totals(0, 0, 0, 0, 0, 0, None, 0)

  function Capped(n: nat): u64 { if n > U64_MAX then U64_MAX else n }

  function CappedCost(n: int): i64 { if n > I64_MAX then I64_MAX else if n < I64_MIN then I64_MIN else n }

  function OrZero(a: Option<i64>): i64 { if a.Some? then a.value else 0 }

  function MergeCost(a: Option<i64>, b: Option<i64>): Option<i64>
  {
    if a.None? && b.None? then None else Some(CappedCost(OrZero(a) + OrZero(b)))
  }

  function FoldTotals(t: Totals, other: Totals): Totals
  {
    Totals(Capped(t.input + other.input), Capped(t.output + other.output), Capped(t.cachedRead + other.cachedRead),
           Capped(t.reasoning + other.reasoning), Capped(t.modelCalls + other.modelCalls),
           Capped(t.apiMs + other.apiMs), MergeCost(t.cost, other.cost), Capped(t.costMissing + other.costMissing))
  }

  /** A cost that is not positive counts as not reported. */
  function FromCall(input: u32, output: u32, cached: u32, reasoning: u32, apiMs: Option<u64>, cost: Option<i64>): Totals
  {
    var reported := if cost.Some? && cost.value > 0 then cost else None;
    Totals(input, output, cached, reasoning, 1, if apiMs.Some? then apiMs.value else 0, reported,
           if reported.None? then 1 else 0)
  }

  // ----- The breakdown: entries in order of first use -----

  type Entries = seq<(string, Totals)>

  ghost predicate DistinctModels(entries: Entries)
  {
    forall j, k :: 0 <= j < k < |entries| ==> entries[j].0 != entries[k].0
  }

  /** Where a model's entry is, or the end. */
  function Position(entries: Entries, id: string): (k: nat)
    ensures k <= |entries|
    ensures k < |entries| ==> entries[k].0 == id
    ensures forall j :: 0 <= j < k ==> entries[j].0 != id
  {
    if entries == [] || entries[0].0 == id then 0 else Position(entries[1..], id) + 1
  }

  function FoldInto(entries: Entries, id: string, t: Totals): Entries
  {
    var k := Position(entries, id);
    if k < |entries| then entries[k := (id, FoldTotals(entries[k].1, t))]
    else entries + [(id, FoldTotals(ZERO, t))]
  }

  datatype Ledger = Ledger(totals: Totals, byModel: Entries, mainLoopCalls: u64, incomplete: bool)

  const EMPTY := Ledger(ZERO, [], 0, false)

  function FoldEntry(l: Ledger, id: string, t: Totals): Ledger
  {
    l.(totals := FoldTotals(l.totals, t), byModel := FoldInto(l.byModel, id, t))
  }

  function FoldAll(l: Ledger, entries: Entries): Ledger
  {
    if entries == [] then l
    else
      var last := entries[|entries| - 1];
      FoldEntry(FoldAll(l, entries[..|entries| - 1]), last.0, last.1)
  }

  datatype Op =
    | MainLoopCall(model: string, input: u32, output: u32, cached: u32, reasoning: u32, apiMs: Option<u64>,
                   cost: Option<i64>)
    | Subagent(byModel: Entries, incomplete: bool)
    | MarkIncomplete

  function Apply(l: Ledger, op: Op): Ledger
  {
    match op
    case MainLoopCall(model, input, output, cached, reasoning, apiMs, cost) =>
      FoldEntry(l.(mainLoopCalls := Capped(l.mainLoopCalls + 1)), model,
                FromCall(input, output, cached, reasoning, apiMs, cost))
    case Subagent(byModel, incomplete) =>
      var folded := FoldAll(l, byModel);
      if incomplete then folded.(incomplete := true) else folded
    case MarkIncomplete => l.(incomplete := true)
  }

  function After(ops: seq<Op>): Ledger
  {
    if ops == [] then EMPTY else Apply(After(ops[..|ops| - 1]), ops[|ops| - 1])
  }

  // ----- The ledger as the source updates it -----

  class UsageLedger {
    var totals: Totals
    var byModel: Entries
    var mainLoopModelCalls: u64
    var incomplete: bool

    function State(): Ledger
      reads this
    {
      Ledger(totals, byModel, mainLoopModelCalls, incomplete)
    }

    constructor ()
      ensures State() == EMPTY
    {
      totals, byModel, mainLoopModelCalls, incomplete := ZERO, [], 0, false;
    }

    method FoldOne(model: string, t: Totals)
      modifies `totals, `byModel
      ensures State() == FoldEntry(old(State()), model, t)
    {
      totals := FoldTotals(totals, t);
      var k := 0;
      while k < |byModel| && byModel[k].0 != model
        invariant k <= |byModel| && forall j :: 0 <= j < k ==> byModel[j].0 != model
      {
        k := k + 1;
      }
      assert k == Position(byModel, model);
      if k == |byModel| {
        byModel := byModel + [(model, ZERO)];
      }
      byModel := byModel[k := (model, FoldTotals(byModel[k].1, t))];
    }

    method RecordMainLoopCall(model: string, input: u32, output: u32, cached: u32, reasoning: u32,
                              apiMs: Option<u64>, cost: Option<i64>)
      modifies this
      ensures State() == Apply(old(State()), MainLoopCall(model, input, output, cached, reasoning, apiMs, cost))
    {
      var call := FromCall(input, output, cached, reasoning, apiMs, cost);
      mainLoopModelCalls := Capped(mainLoopModelCalls + 1);
      FoldOne(model, call);
    }

    method RecordSubagent(entries: Entries, incomplete: bool)
      modifies this
      ensures State() == Apply(old(State()), Subagent(entries, incomplete))
    {
      for i := 0 to |entries|
        invariant State() == FoldAll(old(State()), entries[..i])
      {
        assert entries[..i + 1][..i] == entries[..i];
        FoldOne(entries[i].0, entries[i].1);
      }
      assert entries[..|entries|] == entries;
      if incomplete {
        this.incomplete := true;
      }
    }

    method MarkAsIncomplete()
      modifies `incomplete
      ensures State() == Apply(old(State()), MarkIncomplete)
    {
      incomplete := true;
    }
  }

  // ----- Totals against the breakdown -----

  /** The exact sum of one counter over the entries. */
  function SumOf(entries: Entries, c: Counter): nat
  {
    if entries == [] then 0 else SumOf(entries[..|entries| - 1], c) + Get(entries[|entries| - 1].1, c)
  }

  function CostSum(entries: Entries): int
  {
    if entries == [] then 0 else CostSum(entries[..|entries| - 1]) + OrZero(entries[|entries| - 1].1.cost)
  }

  ghost predicate NoCost(entries: Entries)
  {
    forall k :: 0 <= k < |entries| ==> entries[k].1.cost.None?
  }

  ghost predicate CostsNonNegative(entries: Entries)
  {
    forall k :: 0 <= k < |entries| ==> OrZero(entries[k].1.cost) >= 0
  }

  ghost predicate CountersMatch(l: Ledger)
  {
    forall c: Counter :: Get(l.totals, c) == Capped(SumOf(l.byModel, c))
  }

  ghost predicate CostMatches(l: Ledger)
  {
    l.totals.cost == if NoCost(l.byModel) then None else Some(CappedCost(CostSum(l.byModel)))
  }

  lemma {:induction false} SumOfUpdate(entries: Entries, k: nat, e: (string, Totals), c: Counter)
    requires k < |entries|
    ensures SumOf(entries[k := e], c) == SumOf(entries, c) - Get(entries[k].1, c) + Get(e.1, c)
    ensures SumOf(entries, c) >= Get(entries[k].1, c)
  {
    var n := |entries| - 1;
    assert k < n ==> entries[k := e][..n] == entries[..n][k := e];
    assert k == n ==> entries[k := e][..n] == entries[..n];
    if k < n { SumOfUpdate(entries[..n], k, e, c); }
  }

  lemma {:induction false} CostSumUpdate(entries: Entries, k: nat, e: (string, Totals))
    requires k < |entries|
    ensures CostSum(entries[k := e]) == CostSum(entries) - OrZero(entries[k].1.cost) + OrZero(e.1.cost)
    ensures CostsNonNegative(entries) ==> CostSum(entries) >= OrZero(entries[k].1.cost)
  {
    var n := |entries| - 1;
    assert k < n ==> entries[k := e][..n] == entries[..n][k := e];
    assert k == n ==> entries[k := e][..n] == entries[..n];
    if k < n { CostSumUpdate(entries[..n], k, e); } else { CostSumNonNegative(entries[..n]); }
  }

  lemma {:induction false} CostSumNonNegative(entries: Entries)
    ensures CostsNonNegative(entries) ==> CostSum(entries) >= 0
  {
    if entries != [] { CostSumNonNegative(entries[..|entries| - 1]); }
  }

  lemma FoldedCounter(t: Totals, other: Totals, c: Counter)
    ensures Get(FoldTotals(t, other), c) == Capped(Get(t, c) + Get(other, c))
  {
  }

  lemma FoldKeepsCounters(l: Ledger, id: string, t: Totals)
    requires CountersMatch(l)
    ensures CountersMatch(FoldEntry(l, id, t))
  {
    var after := FoldEntry(l, id, t);
    var k := Position(l.byModel, id);
    forall c: Counter ensures Get(after.totals, c) == Capped(SumOf(after.byModel, c)) {
      FoldedCounter(l.totals, t, c);
      if k < |l.byModel| {
        FoldedCounter(l.byModel[k].1, t, c);
        SumOfUpdate(l.byModel, k, (id, FoldTotals(l.byModel[k].1, t)), c);
      } else {
        FoldedCounter(ZERO, t, c);
        assert after.byModel[..k] == l.byModel;
      }
    }
  }

  lemma NoCostAfter(entries: Entries, id: string, t: Totals)
    ensures NoCost(FoldInto(entries, id, t)) <==> NoCost(entries) && t.cost.None?
  {
    var after, k := FoldInto(entries, id, t), Position(entries, id);
    assert forall j :: 0 <= j < |entries| && j != k ==> after[j] == entries[j];
    assert after[k].1.cost.None? <==> t.cost.None? && (k < |entries| ==> entries[k].1.cost.None?);
  }

  lemma {:induction false} NoCostSum(entries: Entries)
    requires NoCost(entries)
    ensures CostSum(entries) == 0
  {
    if entries != [] { NoCostSum(entries[..|entries| - 1]); }
  }

  function CostOf(entries: Entries, id: string): int
  {
    var k := Position(entries, id);
    if k < |entries| then OrZero(entries[k].1.cost) else 0
  }

  /** A model's merged cost once `t` is folded into it. */
  function MergedAt(entries: Entries, id: string, t: Totals): Option<i64>
  {
    var k := Position(entries, id);
    MergeCost(if k < |entries| then entries[k].1.cost else None, t.cost)
  }

  lemma FoldIntoAt(entries: Entries, id: string, t: Totals)
    ensures var after, k := FoldInto(entries, id, t), Position(entries, id);
            && (DistinctModels(entries) ==> DistinctModels(after)) && k < |after| && after[k].0 == id
            && after[k].1.cost == MergedAt(entries, id, t)
            && forall i :: 0 <= i < |entries| && i != k ==> after[i] == entries[i]
  {
  }

  lemma FoldIntoSum(entries: Entries, id: string, t: Totals)
    ensures CostSum(FoldInto(entries, id, t)) == CostSum(entries) - CostOf(entries, id) + OrZero(MergedAt(entries, id, t))
    ensures CostsNonNegative(entries) ==> CostSum(entries) >= CostOf(entries, id) >= 0
  {
    var after, k := FoldInto(entries, id, t), Position(entries, id);
    FoldIntoAt(entries, id, t);
    if k < |entries| {
      CostSumUpdate(entries, k, after[k]);
    } else {
      assert after[..k] == entries;
    }
    CostSumNonNegative(entries);
  }

  lemma NonNegativeAfter(entries: Entries, id: string, t: Totals)
    requires CostsNonNegative(entries) && OrZero(t.cost) >= 0
    ensures CostsNonNegative(FoldInto(entries, id, t))
  {
    FoldIntoAt(entries, id, t);
  }

  lemma FoldKeepsCost(l: Ledger, id: string, t: Totals)
    requires CostMatches(l) && CostsNonNegative(l.byModel) && OrZero(t.cost) >= 0
    ensures CostMatches(FoldEntry(l, id, t)) && CostsNonNegative(FoldEntry(l, id, t).byModel)
  {
    var entries, k := l.byModel, Position(l.byModel, id);
    NoCostAfter(entries, id, t);
    NonNegativeAfter(entries, id, t);
    FoldIntoSum(entries, id, t);
    if NoCost(entries) { NoCostSum(entries); }
    SaturatedSum(CostSum(entries), if k < |entries| then entries[k].1.cost else None, t.cost, NoCost(entries));
  }

  /** A saturated sum of costs that are not negative stays one when a part grows. */
  lemma SaturatedSum(sum: int, part: Option<i64>, more: Option<i64>, none: bool)
    requires 0 <= OrZero(part) <= sum && OrZero(more) >= 0
    requires none ==> sum == 0 && part.None?
    ensures MergeCost(if none then None else Some(CappedCost(sum)), more)
            == if none && more.None? then None else Some(CappedCost(sum - OrZero(part) + OrZero(MergeCost(part, more))))
  {
  }

  lemma {:induction false} FoldAllKeepsCounters(l: Ledger, entries: Entries)
    requires CountersMatch(l)
    ensures CountersMatch(FoldAll(l, entries))
    ensures FoldAll(l, entries).mainLoopCalls == l.mainLoopCalls
    ensures FoldAll(l, entries).totals.modelCalls >= l.totals.modelCalls
  {
    if entries != [] {
      var n := |entries| - 1;
      FoldAllKeepsCounters(l, entries[..n]);
      FoldKeepsCounters(FoldAll(l, entries[..n]), entries[n].0, entries[n].1);
    }
  }

  lemma {:induction false} FoldAllKeepsCost(l: Ledger, entries: Entries)
    requires CostMatches(l) && CostsNonNegative(l.byModel) && CostsNonNegative(entries)
    ensures CostMatches(FoldAll(l, entries)) && CostsNonNegative(FoldAll(l, entries).byModel)
  {
    if entries != [] {
      var n := |entries| - 1;
      FoldAllKeepsCost(l, entries[..n]);
      FoldKeepsCost(FoldAll(l, entries[..n]), entries[n].0, entries[n].1);
    }
  }

  /** In every reachable ledger each total is the saturated sum of its counter over the
      models, and the main-loop calls are among the calls. */
  lemma {:induction false} TotalsMatchBreakdown(ops: seq<Op>)
    ensures CountersMatch(After(ops)) && After(ops).mainLoopCalls <= After(ops).totals.modelCalls
  {
    if ops == [] {
    } else {
      var n := |ops| - 1;
      var l := After(ops[..n]);
      TotalsMatchBreakdown(ops[..n]);
      match ops[n] {
        case MainLoopCall(model, input, output, cached, reasoning, apiMs, cost) =>
          FoldKeepsCounters(l.(mainLoopCalls := Capped(l.mainLoopCalls + 1)), model,
                            FromCall(input, output, cached, reasoning, apiMs, cost));
        case Subagent(byModel, _) => FoldAllKeepsCounters(l, byModel);
        case MarkIncomplete =>
      }
    }
  }

  // ----- The breakdown against everything folded -----

  /** Every entry folded by a run, in order. */
  function FoldsOf(ops: seq<Op>): Entries
  {
    if ops == [] then []
    else FoldsOf(ops[..|ops| - 1]) + OpFolds(ops[|ops| - 1])
  }

  function OpFolds(op: Op): Entries
  {
    match op
    case MainLoopCall(model, input, output, cached, reasoning, apiMs, cost) =>
      [(model, FromCall(input, output, cached, reasoning, apiMs, cost))]
    case Subagent(byModel, _) => byModel
    case MarkIncomplete => []
  }

  /** The exact sum of a counter over what was folded for one model. */
  function SumFor(folds: Entries, id: string, c: Counter): nat
  {
    if folds == [] then 0
    else
      var last := folds[|folds| - 1];
      SumFor(folds[..|folds| - 1], id, c) + if last.0 == id then Get(last.1, c) else 0
  }

  /** A model's counter, zero without an entry. */
  function CounterOf(entries: Entries, id: string, c: Counter): nat
  {
    var k := Position(entries, id);
    if k < |entries| then Get(entries[k].1, c) else 0
  }

  lemma FoldIntoCounter(entries: Entries, id: string, t: Totals, other: string, c: Counter)
    requires DistinctModels(entries)
    ensures DistinctModels(FoldInto(entries, id, t))
    ensures CounterOf(FoldInto(entries, id, t), other, c)
            == if other == id then Capped(CounterOf(entries, id, c) + Get(t, c)) else CounterOf(entries, other, c)
  {
    var after, k := FoldInto(entries, id, t), Position(entries, id);
    FoldedCounter(if k < |entries| then entries[k].1 else ZERO, t, c);
    var j := Position(entries, other);
    assert forall i :: 0 <= i < |entries| && i != k ==> after[i] == entries[i];
    assert after[k].0 == id;
    PositionIs(after, other, if other == id then k else if j == |entries| then |after| else j);
  }

  lemma PositionIs(entries: Entries, id: string, k: nat)
    requires k <= |entries| && (k < |entries| ==> entries[k].0 == id)
    requires forall j :: 0 <= j < k ==> entries[j].0 != id
    ensures Position(entries, id) == k
  {
  }

  lemma {:induction false} FoldAllCounter(folds: Entries, id: string, c: Counter)
    ensures var l := FoldAll(EMPTY, folds);
            && DistinctModels(l.byModel)
            && CounterOf(l.byModel, id, c) == Capped(SumFor(folds, id, c))
            && Get(l.totals, c) == Capped(SumOf(folds, c))
  {
    if folds == [] {
      assert CounterOf([], id, c) == 0;
    } else {
      var n := |folds| - 1;
      FoldAllCounter(folds[..n], id, c);
      var l := FoldAll(EMPTY, folds[..n]);
      FoldIntoCounter(l.byModel, folds[n].0, folds[n].1, id, c);
      FoldedCounter(l.totals, folds[n].1, c);
    }
  }

  lemma {:induction false} FoldAllConcat(l: Ledger, a: Entries, b: Entries)
    ensures FoldAll(l, a + b) == FoldAll(FoldAll(l, a), b)
  {
    if b == [] {
      assert a + b == a;
    } else {
      assert (a + b)[..|a + b| - 1] == a + b[..|b| - 1];
      FoldAllConcat(l, a, b[..|b| - 1]);
    }
  }

  ghost predicate SameCounts(a: Ledger, b: Ledger)
  {
    a.totals == b.totals && a.byModel == b.byModel
  }

  lemma {:induction false} FoldAllCounts(a: Ledger, b: Ledger, entries: Entries)
    requires SameCounts(a, b)
    ensures SameCounts(FoldAll(a, entries), FoldAll(b, entries))
  {
    if entries != [] { FoldAllCounts(a, b, entries[..|entries| - 1]); }
  }

  lemma {:induction false} RunIsItsFolds(ops: seq<Op>)
    ensures SameCounts(After(ops), FoldAll(EMPTY, FoldsOf(ops)))
  {
    if ops != [] {
      var n := |ops| - 1;
      RunIsItsFolds(ops[..n]);
      FoldAllConcat(EMPTY, FoldsOf(ops[..n]), OpFolds(ops[n]));
      var folded := FoldAll(EMPTY, FoldsOf(ops[..n]));
      FoldAllCounts(After(ops[..n]), folded, OpFolds(ops[n]));
      if ops[n].MainLoopCall? {
        var f := OpFolds(ops[n]);
        assert f[..0] == [];
        assert FoldAll(folded, f) == FoldEntry(FoldAll(folded, f[..0]), f[0].0, f[0].1);
      }
    }
  }

  /** In every reachable ledger each model's counter is the saturated sum of what was
      folded for that model, and each total the saturated sum of everything folded. */
  lemma LedgerCountsEveryFold(ops: seq<Op>, id: string, c: Counter)
    ensures CounterOf(After(ops).byModel, id, c) == Capped(SumFor(FoldsOf(ops), id, c))
    ensures Get(After(ops).totals, c) == Capped(SumOf(FoldsOf(ops), c))
    ensures DistinctModels(After(ops).byModel)
  {
    RunIsItsFolds(ops);
    FoldAllCounter(FoldsOf(ops), id, c);
  }

  predicate InRange(n: int) { I64_MIN <= n <= I64_MAX }

  /** The exact sum of the costs folded for one model. */
  function CostFor(folds: Entries, id: string): int
  {
    if folds == [] then 0
    else
      var last := folds[|folds| - 1];
      CostFor(folds[..|folds| - 1], id) + if last.0 == id then OrZero(last.1.cost) else 0
  }

  /** No running sum of costs, in all or for one model, leaves the range of an `i64`. */
  ghost predicate CostsStayInRange(folds: Entries)
  {
    && (forall n :: 0 <= n <= |folds| ==> InRange(CostSum(folds[..n])))
    && forall n, id: string :: 0 <= n <= |folds| ==> InRange(CostFor(folds[..n], id))
  }

  /** The ledger holds every cost exactly. */
  ghost predicate CostsExact(l: Ledger, folds: Entries)
  {
    && DistinctModels(l.byModel)
    && OrZero(l.totals.cost) == CostSum(folds) == CostSum(l.byModel)
    && (l.totals.cost.None? <==> NoCost(folds))
    && (NoCost(l.byModel) <==> NoCost(folds))
    && forall id: string :: CostOf(l.byModel, id) == CostFor(folds, id)
  }

  lemma MergedExactly(a: Option<i64>, b: Option<i64>)
    requires InRange(OrZero(a) + OrZero(b))
    ensures OrZero(MergeCost(a, b)) == OrZero(a) + OrZero(b)
    ensures MergeCost(a, b).None? <==> a.None? && b.None?
  {
  }

  lemma FoldIntoCost(entries: Entries, id: string, t: Totals, other: string)
    requires DistinctModels(entries) && InRange(CostOf(entries, id) + OrZero(t.cost))
    ensures CostOf(FoldInto(entries, id, t), other)
            == CostOf(entries, other) + if other == id then OrZero(t.cost) else 0
  {
    var after, k, j := FoldInto(entries, id, t), Position(entries, id), Position(entries, other);
    FoldIntoAt(entries, id, t);
    MergedExactly(if k < |entries| then entries[k].1.cost else None, t.cost);
    PositionIs(after, other, if other == id then k else if j == |entries| then |after| else j);
  }

  lemma FoldKeepsCostsExact(l: Ledger, folds: Entries, id: string, t: Totals)
    requires CostsExact(l, folds)
    requires InRange(CostSum(folds) + OrZero(t.cost)) && InRange(CostFor(folds, id) + OrZero(t.cost))
    ensures CostsExact(FoldEntry(l, id, t), folds + [(id, t)])
  {
    var all, after := folds + [(id, t)], FoldInto(l.byModel, id, t);
    assert CostOf(l.byModel, id) == CostFor(folds, id);
    forall other: string ensures CostOf(after, other) == CostFor(all, other) {
      FoldIntoCost(l.byModel, id, t, other);
      OneCostMore(folds, (id, t), other);
    }
    FoldIntoAt(l.byModel, id, t);
    FoldIntoSum(l.byModel, id, t);
    var k := Position(l.byModel, id);
    MergedExactly(if k < |l.byModel| then l.byModel[k].1.cost else None, t.cost);
    OneCostMore(folds, (id, t), id);
    NoCostAfter(l.byModel, id, t);
    MergedExactly(l.totals.cost, t.cost);
  }

  lemma OneCostMore(folds: Entries, e: (string, Totals), id: string)
    ensures CostSum(folds + [e]) == CostSum(folds) + OrZero(e.1.cost)
    ensures CostFor(folds + [e], id) == CostFor(folds, id) + if e.0 == id then OrZero(e.1.cost) else 0
    ensures NoCost(folds + [e]) <==> NoCost(folds) && e.1.cost.None?
  {
    var all := folds + [e];
    assert all[..|folds|] == folds && all[|folds|] == e;
    assert forall k :: 0 <= k < |folds| ==> all[k] == folds[k];
  }

  lemma {:induction false} FoldsStayExact(folds: Entries, n: nat)
    requires CostsStayInRange(folds) && n <= |folds|
    ensures CostsExact(FoldAll(EMPTY, folds[..n]), folds[..n])
  {
    if n == 0 {
      assert forall id: string :: CostOf([], id) == 0;
    } else {
      FoldsStayExact(folds, n - 1);
      var front, last := folds[..n - 1], folds[n - 1];
      assert folds[..n] == front + [last];
      OneCostMore(front, last, last.0);
      assert InRange(CostSum(folds[..n])) && InRange(CostFor(folds[..n], last.0));
      FoldKeepsCostsExact(FoldAll(EMPTY, front), front, last.0, last.1);
    }
  }

  /** While no running sum of costs leaves the range of an `i64`, whatever their signs, the
      total and every model's cost are exact and the total is the sum over the models. */
  lemma CostExactInRange(ops: seq<Op>)
    requires CostsStayInRange(FoldsOf(ops))
    ensures CostMatches(After(ops)) && CostsExact(After(ops), FoldsOf(ops))
    ensures OrZero(After(ops).totals.cost) == RawCost(ops)
  {
    FoldsAreRaw(ops, "", Input);
    var folds := FoldsOf(ops);
    RunIsItsFolds(ops);
    FoldsStayExact(folds, |folds|);
    assert folds[..|folds|] == folds;
    assert InRange(CostSum(folds[..|folds|]));
  }

  // ----- The ledger against the calls as they came in -----

  /** What one main-loop call adds to a counter: its own tokens and time, one call, and one
      missing cost when it reported none above zero. */
  function CallCounter(op: Op, c: Counter): nat
    requires op.MainLoopCall?
  {
    match c
    case Input => op.input
    case Output => op.output
    case CachedRead => op.cached
    case Reasoning => op.reasoning
    case ModelCalls => 1
    case ApiMs => if op.apiMs.Some? then op.apiMs.value else 0
    case CostMissing => if op.cost.Some? && op.cost.value > 0 then 0 else 1
  }

  function RawCounter(op: Op, c: Counter): nat
  {
    match op
    case MainLoopCall(_, _, _, _, _, _, _) => CallCounter(op, c)
    case Subagent(byModel, _) => SumOf(byModel, c)
    case MarkIncomplete => 0
  }

  function RawSum(ops: seq<Op>, c: Counter): nat
  {
    if ops == [] then 0 else RawSum(ops[..|ops| - 1], c) + RawCounter(ops[|ops| - 1], c)
  }

  /** The same for one model. */
  function RawCounterFor(op: Op, id: string, c: Counter): nat
  {
    match op
    case MainLoopCall(model, _, _, _, _, _, _) => if model == id then CallCounter(op, c) else 0
    case Subagent(byModel, _) => SumFor(byModel, id, c)
    case MarkIncomplete => 0
  }

  function RawSumFor(ops: seq<Op>, id: string, c: Counter): nat
  {
    if ops == [] then 0 else RawSumFor(ops[..|ops| - 1], id, c) + RawCounterFor(ops[|ops| - 1], id, c)
  }

  lemma {:induction false} SumsConcat(a: Entries, b: Entries, id: string, c: Counter)
    ensures SumOf(a + b, c) == SumOf(a, c) + SumOf(b, c)
    ensures SumFor(a + b, id, c) == SumFor(a, id, c) + SumFor(b, id, c)
    ensures CostSum(a + b) == CostSum(a) + CostSum(b)
  {
    if b == [] {
      assert a + b == a;
    } else {
      var n := |b| - 1;
      assert (a + b)[..|a + b| - 1] == a + b[..n];
      SumsConcat(a, b[..n], id, c);
    }
  }

  lemma CallFoldsOnce(op: Op, id: string, c: Counter)
    requires op.MainLoopCall?
    ensures SumOf(OpFolds(op), c) == CallCounter(op, c)
    ensures SumFor(OpFolds(op), id, c) == if op.model == id then CallCounter(op, c) else 0
    ensures CostSum(OpFolds(op)) == if op.cost.Some? && op.cost.value > 0 then op.cost.value else 0
  {
    var f := OpFolds(op);
    assert f[..0] == [] && f[0].0 == op.model;
  }

  /** The costs reported: a call's when above zero, a subagent's entries' as they are. */
  function RawCostOf(op: Op): int
  {
    match op
    case MainLoopCall(_, _, _, _, _, _, cost) => if cost.Some? && cost.value > 0 then cost.value else 0
    case Subagent(byModel, _) => CostSum(byModel)
    case MarkIncomplete => 0
  }

  function RawCost(ops: seq<Op>): int
  {
    if ops == [] then 0 else RawCost(ops[..|ops| - 1]) + RawCostOf(ops[|ops| - 1])
  }

  lemma OpFoldsAreRaw(op: Op, id: string, c: Counter)
    ensures SumOf(OpFolds(op), c) == RawCounter(op, c) && SumFor(OpFolds(op), id, c) == RawCounterFor(op, id, c)
    ensures CostSum(OpFolds(op)) == RawCostOf(op)
  {
    if op.MainLoopCall? { CallFoldsOnce(op, id, c); }
  }

  lemma {:induction false} FoldsAreRaw(ops: seq<Op>, id: string, c: Counter)
    ensures SumOf(FoldsOf(ops), c) == RawSum(ops, c)
    ensures SumFor(FoldsOf(ops), id, c) == RawSumFor(ops, id, c)
    ensures CostSum(FoldsOf(ops)) == RawCost(ops)
  {
    if ops != [] {
      var front, op := ops[..|ops| - 1], ops[|ops| - 1];
      FoldsAreRaw(front, id, c);
      SumsConcat(FoldsOf(front), OpFolds(op), id, c);
      OpFoldsAreRaw(op, id, c);
    }
  }

  /** In every reachable ledger each counter, in all and for each model, is the saturated
      sum of what the calls and subagent entries themselves say. */
  lemma LedgerCountsEveryCall(ops: seq<Op>, id: string, c: Counter)
    ensures Get(After(ops).totals, c) == Capped(RawSum(ops, c))
    ensures CounterOf(After(ops).byModel, id, c) == Capped(RawSumFor(ops, id, c))
  {
    LedgerCountsEveryFold(ops, id, c);
    FoldsAreRaw(ops, id, c);
  }

  function CountCalls(ops: seq<Op>): nat
  {
    if ops == [] then 0 else CountCalls(ops[..|ops| - 1]) + if ops[|ops| - 1].MainLoopCall? then 1 else 0
  }

  ghost predicate Flags(op: Op) { op.MarkIncomplete? || (op.Subagent? && op.incomplete) }

  lemma {:induction false} FoldAllKeepsCalls(l: Ledger, entries: Entries)
    ensures FoldAll(l, entries).mainLoopCalls == l.mainLoopCalls && FoldAll(l, entries).incomplete == l.incomplete
  {
    if entries != [] { FoldAllKeepsCalls(l, entries[..|entries| - 1]); }
  }

  /** The main-loop calls are counted one by one, and the ledger is incomplete exactly when
      some step said so. */
  lemma {:induction false} CallsAndFlag(ops: seq<Op>)
    ensures After(ops).mainLoopCalls == Capped(CountCalls(ops))
    ensures After(ops).incomplete <==> exists k :: 0 <= k < |ops| && Flags(ops[k])
  {
    if ops != [] {
      var n := |ops| - 1;
      CallsAndFlag(ops[..n]);
      if ops[n].Subagent? { FoldAllKeepsCalls(After(ops[..n]), ops[n].byModel); }
      assert (exists k :: 0 <= k < |ops| && Flags(ops[k]))
             <==> Flags(ops[n]) || exists k :: 0 <= k < n && Flags(ops[..n][k]);
    }
  }

  function Ids(entries: Entries): (ids: seq<string>)
    ensures |ids| == |entries|
  {
    seq(|entries|, k requires 0 <= k < |entries| => entries[k].0)
  }

  /** Each name once, where it first comes. */
  function FirstUses(ids: seq<string>): seq<string>
  {
    if ids == [] then []
    else
      var front, last := FirstUses(ids[..|ids| - 1]), ids[|ids| - 1];
      if last in front then front else front + [last]
  }

  lemma FoldIntoIds(entries: Entries, id: string, t: Totals)
    ensures Ids(FoldInto(entries, id, t)) == if id in Ids(entries) then Ids(entries) else Ids(entries) + [id]
  {
    var k := Position(entries, id);
    FoldIntoAt(entries, id, t);
    if k < |entries| {
      assert Ids(entries)[k] == id;
      assert Ids(FoldInto(entries, id, t)) == Ids(entries);
    } else {
      assert forall j :: 0 <= j < |entries| ==> Ids(entries)[j] == entries[j].0;
      assert id !in Ids(entries);
    }
  }

  lemma {:induction false} FoldAllIds(folds: Entries)
    ensures Ids(FoldAll(EMPTY, folds).byModel) == FirstUses(Ids(folds))
  {
    if folds == [] {
      assert Ids([]) == [];
    } else {
      var n := |folds| - 1;
      FoldAllIds(folds[..n]);
      assert Ids(folds)[..n] == Ids(folds[..n]) && Ids(folds)[n] == folds[n].0;
      FoldIntoIds(FoldAll(EMPTY, folds[..n]).byModel, folds[n].0, folds[n].1);
    }
  }

  /** The breakdown lists the models in the order of their first use. */
  lemma ModelsInFirstUseOrder(ops: seq<Op>)
    ensures Ids(After(ops).byModel) == FirstUses(Ids(FoldsOf(ops)))
  {
    RunIsItsFolds(ops);
    FoldAllIds(FoldsOf(ops));
  }

  ghost predicate SubagentCostsNonNegative(ops: seq<Op>)
  {
    forall k :: 0 <= k < |ops| && ops[k].Subagent? ==> CostsNonNegative(ops[k].byModel)
  }

  /** The merged cost is the saturated sum of the models' costs, absent when all are,
      as long as no subagent reports a negative one. */
  lemma {:induction false} CostMatchesBreakdown(ops: seq<Op>)
    requires SubagentCostsNonNegative(ops)
    ensures CostMatches(After(ops)) && CostsNonNegative(After(ops).byModel)
  {
    if ops != [] {
      var n := |ops| - 1;
      var l := After(ops[..n]);
      CostMatchesBreakdown(ops[..n]);
      match ops[n] {
        case MainLoopCall(model, input, output, cached, reasoning, apiMs, cost) =>
          FoldKeepsCost(l.(mainLoopCalls := Capped(l.mainLoopCalls + 1)), model,
                        FromCall(input, output, cached, reasoning, apiMs, cost));
        case Subagent(byModel, _) => FoldAllKeepsCost(l, byModel);
        case MarkIncomplete =>
      }
    }
  }

  /** A ledger's completeness flag is never taken back. */
  lemma {:induction false} IncompleteSticks(ops: seq<Op>, more: seq<Op>)
    requires After(ops).incomplete
    ensures After(ops + more).incomplete
  {
    if more == [] {
      assert ops + more == ops;
    } else {
      var n := |more| - 1;
      assert (ops + more)[..|ops + more| - 1] == ops + more[..n];
      IncompleteSticks(ops, more[..n]);
      if more[n].Subagent? { FoldAllKeepsFlag(After(ops + more[..n]), more[n].byModel); }
    }
  }

  lemma {:induction false} FoldAllKeepsFlag(l: Ledger, entries: Entries)
    ensures FoldAll(l, entries).incomplete == l.incomplete
  {
    if entries != [] { FoldAllKeepsFlag(l, entries[..|entries| - 1]); }
  }

  // ----- Exactly when the cost keeps matching -----

  /** Folding `cost` for a model keeps the total the sum over the models: while that sum is
      past a bound nothing pulls it back, and a model that saturates has no others pulling
      the other way. */
  predicate KeepsMatch(l: Ledger, id: string, cost: Option<i64>)
  {
    var c, own, all := OrZero(cost), CostOf(l.byModel, id), CostSum(l.byModel);
    && (all > I64_MAX ==> c >= 0)
    && (all < I64_MIN ==> c <= 0)
    && (InRange(all) && own + c > I64_MAX ==> all - own >= 0)
    && (InRange(all) && own + c < I64_MIN ==> all - own <= 0)
  }

  lemma SaturatedStepIff(all: int, own: i64, c: i64)
    ensures CappedCost(CappedCost(all) + c) == CappedCost(all - own + CappedCost(own + c))
            <==> && (all > I64_MAX ==> c >= 0)
                 && (all < I64_MIN ==> c <= 0)
                 && (InRange(all) && own + c > I64_MAX ==> all - own >= 0)
                 && (InRange(all) && own + c < I64_MIN ==> all - own <= 0)
  {
  }

  lemma MergedIsCapped(a: Option<i64>, b: Option<i64>)
    ensures OrZero(MergeCost(a, b)) == CappedCost(OrZero(a) + OrZero(b))
  {
  }

  lemma FoldKeepsMatchIff(l: Ledger, id: string, t: Totals)
    requires CostMatches(l)
    ensures CostMatches(FoldEntry(l, id, t)) <==> KeepsMatch(l, id, t.cost)
  {
    var entries, k := l.byModel, Position(l.byModel, id);
    var own := if k < |entries| then entries[k].1.cost else None;
    if NoCost(entries) { NoCostSum(entries); }
    NoCostAfter(entries, id, t);
    FoldIntoSum(entries, id, t);
    MergedIsCapped(own, t.cost);
    MergedIsCapped(l.totals.cost, t.cost);
    SaturatedStepIff(CostSum(entries), OrZero(own), OrZero(t.cost));
  }

  ghost predicate EachKeepsMatch(folds: Entries)
  {
    forall n :: 0 <= n < |folds| ==> KeepsMatch(FoldAll(EMPTY, folds[..n]), folds[n].0, folds[n].1.cost)
  }

  lemma {:induction false} FoldsMatchUpTo(folds: Entries, n: nat)
    requires n <= |folds| && EachKeepsMatch(folds)
    ensures CostMatches(FoldAll(EMPTY, folds[..n]))
  {
    if n > 0 {
      FoldsMatchUpTo(folds, n - 1);
      FoldNext(folds, n - 1);
      FoldKeepsMatchIff(FoldAll(EMPTY, folds[..n - 1]), folds[n - 1].0, folds[n - 1].1);
    }
  }

  lemma FoldNext(folds: Entries, n: nat)
    requires n < |folds|
    ensures FoldAll(EMPTY, folds[..n + 1]) == FoldEntry(FoldAll(EMPTY, folds[..n]), folds[n].0, folds[n].1)
  {
    assert folds[..n + 1][..n] == folds[..n];
  }

  lemma {:induction false} RunFoldsNonNegative(ops: seq<Op>)
    requires SubagentCostsNonNegative(ops)
    ensures CostsNonNegative(FoldsOf(ops))
  {
    if ops != [] { RunFoldsNonNegative(ops[..|ops| - 1]); }
  }

  /** Folds that are not negative all keep it, saturated or not. */
  lemma NonNegativeKeepsMatch(folds: Entries, n: nat)
    requires CostsNonNegative(folds) && n < |folds|
    ensures KeepsMatch(FoldAll(EMPTY, folds[..n]), folds[n].0, folds[n].1.cost)
  {
    FoldAllKeepsCost(EMPTY, folds[..n]);
    FoldIntoSum(FoldAll(EMPTY, folds[..n]).byModel, folds[n].0, folds[n].1);
  }

  /** The total is the saturated sum over the models after every fold of a run exactly
      when each of its folds keeps the match, as they all do without negative costs. */
  lemma CostAlwaysMatchesIff(ops: seq<Op>)
    ensures var folds := FoldsOf(ops);
            && ((forall n :: 0 <= n <= |folds| ==> CostMatches(FoldAll(EMPTY, folds[..n]))) <==> EachKeepsMatch(folds))
            && (EachKeepsMatch(folds) ==> CostMatches(After(ops)))
            && (SubagentCostsNonNegative(ops) ==> EachKeepsMatch(folds) && CostsNonNegative(After(ops).byModel))
  {
    var folds := FoldsOf(ops);
    if SubagentCostsNonNegative(ops) {
      CostMatchesBreakdown(ops);
      RunFoldsNonNegative(ops);
      forall n | 0 <= n < |folds| ensures KeepsMatch(FoldAll(EMPTY, folds[..n]), folds[n].0, folds[n].1.cost) {
        NonNegativeKeepsMatch(folds, n);
      }
    }
    if EachKeepsMatch(folds) {
      forall n | 0 <= n <= |folds| ensures CostMatches(FoldAll(EMPTY, folds[..n])) { FoldsMatchUpTo(folds, n); }
      assert folds[..|folds|] == folds;
      RunIsItsFolds(ops);
    }
    if forall n :: 0 <= n <= |folds| ==> CostMatches(FoldAll(EMPTY, folds[..n])) {
      forall n | 0 <= n < |folds| ensures KeepsMatch(FoldAll(EMPTY, folds[..n]), folds[n].0, folds[n].1.cost) {
        FoldNext(folds, n);
        assert CostMatches(FoldAll(EMPTY, folds[..n + 1]));
        FoldKeepsMatchIff(FoldAll(EMPTY, folds[..n]), folds[n].0, folds[n].1);
      }
    }
  }

  lemma TwoModelsBreak(l: Ledger)
    requires |l.byModel| == 2 && l.totals.cost == Some(0)
    requires l.byModel[0].1.cost == Some(0) && l.byModel[1].1.cost == Some(I64_MAX)
    ensures !CostMatches(l)
  {
    var front := l.byModel[..1];
    assert front[..0] == [] && front[0] == l.byModel[0];
    assert CostSum(front) == 0;
    assert !NoCost(l.byModel);
  }

  /** Once a cost saturates, a negative one breaks the match: the total forgets what its
      models still hold. */
  lemma SaturatedCostBreaksMatch(big: Totals, back: Totals)
    requires big.cost == Some(I64_MAX) && back.cost == Some(-I64_MAX)
    ensures !CostMatches(After([Subagent([("a", big), ("b", big), ("a", back)], false)]))
  {
    var folds := [("a", big), ("b", big), ("a", back)];
    var one := FoldEntry(EMPTY, "a", big);
    OneFold(one, "b", big, 1);
    var two := FoldEntry(one, "b", big);
    OneFold(two, "a", back, 0);
    TwoModelsBreak(FoldEntry(two, "a", back));
    assert folds[..2][..1][..0] == [];
    assert FoldAll(EMPTY, folds[..2][..1]) == one;
    assert FoldAll(EMPTY, folds[..2]) == two;
    var op := Subagent(folds, false);
    assert [op][..0] == [];
    assert After([op]) == Apply(After([op][..0]), op);
  }

  /** Folding into the model at `k`, or into a new one there. */
  lemma OneFold(l: Ledger, id: string, t: Totals, k: nat)
    requires k <= |l.byModel| && (k < |l.byModel| ==> l.byModel[k].0 == id)
    requires forall j :: 0 <= j < |l.byModel| && j != k ==> l.byModel[j].0 != id
    ensures var after := FoldEntry(l, id, t);
            && after.totals.cost == MergeCost(l.totals.cost, t.cost)
            && |after.byModel| == (if k < |l.byModel| then |l.byModel| else k + 1)
            && after.byModel[k].0 == id
            && after.byModel[k].1.cost == MergeCost(if k < |l.byModel| then l.byModel[k].1.cost else None, t.cost)
            && forall j :: 0 <= j < |l.byModel| && j != k ==> after.byModel[j] == l.byModel[j]
  {
    assert Position(l.byModel, id) == k;
  }
}
