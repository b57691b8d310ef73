/** The history passes as the source runs them: scans over the list, edited in place. */
module ChatHistory {
  import opened Wrappers
  import opened Conversation
  import opened Pairing
  import opened HistoryRepair

  datatype RepairReport = RepairReport(duplicatesRemoved: nat, strippedIds: seq<string>, inserted: nat)
  {
    predicate Changed()
    {
      duplicatesRemoved > 0 || strippedIds != [] || inserted > 0
    }
  }

  // ----- Duplicate results -----

  /** Positions of the results that a later one in the run supersedes. */
  method EarlierDuplicates(run: seq<Item>) returns (dups: seq<nat>)
    requires AllResults(run)
    ensures forall k: nat :: k < |run| ==> (k in dups <==> Superseded(run, k))
    ensures |dups| + |IdsOf(run)| == |run|
  {
    var seen: map<string, nat> := map[];
    dups := [];
    for idx := 0 to |run|
      invariant forall id :: id in seen ==> seen[id] < idx && run[seen[id]].callId == id
      invariant forall k :: 0 <= k < idx ==> run[k].callId in seen && k <= seen[run[k].callId]
      invariant forall k :: k in dups ==> k < idx
      invariant forall k: nat :: k < idx ==> (k in dups <==> k < seen[run[k].callId])
      invariant |dups| + |seen| == idx
    {
      var id := run[idx].callId;
      if id in seen {
        dups := dups + [seen[id]];
      }
      seen := seen[id := idx];
    }
    assert seen.Keys == IdsOf(run) by {
      forall id ensures id in seen <==> id in IdsOf(run) { IdsOfMember(run, id); }
    }
  }

  lemma {:induction false} LastOnlySize(run: seq<Item>)
    requires AllResults(run)
    ensures |LastOnly(run)| == |IdsOf(run)|
  {
    if run != [] { LastOnlySize(run[1..]); }
  }

  method RemoveEarlier(run: seq<Item>, dups: seq<nat>) returns (r: seq<Item>)
    requires AllResults(run)
    requires forall k: nat :: k < |run| ==> (k in dups <==> Superseded(run, k))
    ensures r == LastOnly(run)
  {
    r := run;
    assert run[..|run|] + LastOnly(run[|run|..]) == run;
    for idx := |run| downto 0
      invariant r == run[..idx] + LastOnly(run[idx..])
    {
      SupersededInRest(run, idx);
      assert run[idx..][1..] == run[idx + 1..];
      assert run[..idx + 1] == run[..idx] + [run[idx]];
      if idx in dups {
        r := r[..idx] + r[idx + 1..];
      }
    }
  }

  /** One run without its superseded results. */
  method DedupRun(run: seq<Item>) returns (kept: seq<Item>, removed: nat)
    requires AllResults(run)
    ensures kept == LastOnly(run) && removed == |run| - |kept|
  {
    var dups := EarlierDuplicates(run);
    kept := RemoveEarlier(run, dups);
    removed := |dups|;
    LastOnlySize(run);
  }

  /** Deduplicating a run in place changes neither the result nor what precedes it. */
  lemma DedupInPlace(o: Item, run: seq<Item>, rest: seq<Item>)
    requires Owner(o) && AllResults(run) && !StartsWithResult(rest)
    ensures Dedup([o] + LastOnly(run) + rest) == Dedup([o] + run + rest)
    ensures |LastOnly(run)| == |run| ==> Dedup([o] + run + rest) == [o] + run + Dedup(rest)
  {
    LastOnlyFacts(run);
    LastOnlyFacts(LastOnly(run));
    DedupBlock(o, run, rest);
    DedupBlock(o, LastOnly(run), rest);
  }

  lemma DedupStep(items: seq<Item>, i: nat, end: nat)
    requires i < end <= |items| && Owner(items[i])
    requires items[i + 1..end] == Run(items[i + 1..]) && items[end..] == AfterRun(items[i + 1..])
    ensures var run := items[i + 1..end]; var next := items[..i + 1] + LastOnly(run) + items[end..];
            && next[..i] == items[..i]
            && Dedup(next[i..]) == Dedup(items[i..])
            && (|LastOnly(run)| == |run| ==>
                 items[..i] + Dedup(items[i..]) == items[..end] + Dedup(items[end..]))
  {
    var o, run, rest := items[i], items[i + 1..end], items[end..];
    SpliceBlock(items, i, end, run);
    SpliceBlock(items, i, end, LastOnly(run));
    DedupInPlace(o, run, rest);
    if |LastOnly(run)| == |run| {
      Reassociate(items[..i], [o], run, Dedup(rest));
    }
  }

  lemma SpliceBlock(items: seq<Item>, i: nat, end: nat, run: seq<Item>)
    requires i < end <= |items|
    ensures var next := items[..i + 1] + run + items[end..];
            next[..i] == items[..i] && next[i..] == [items[i]] + run + items[end..]
    ensures items[i..] == [items[i]] + items[i + 1..end] + items[end..]
    ensures items[..end] == items[..i] + [items[i]] + items[i + 1..end]
  {
  }

  lemma Reassociate(a: seq<Item>, b: seq<Item>, c: seq<Item>, d: seq<Item>)
    ensures a + (b + c + d) == a + b + c + d
  {
  }

  // ----- Unanswered calls -----

  /** Insertions recorded at increasing positions, none past `bound`. */
  ghost predicate Ordered(repairs: seq<(nat, seq<Item>)>, bound: nat)
  {
    repairs != [] ==>
      var (at, _) := repairs[|repairs| - 1];
      at <= bound && Ordered(repairs[..|repairs| - 1], at)
  }

  ghost function ApplyRepairs(s: seq<Item>, repairs: seq<(nat, seq<Item>)>): seq<Item>
    requires Ordered(repairs, |s|)
    decreases |repairs|
  {
    if repairs == [] then s
    else
      var (at, added) := repairs[|repairs| - 1];
      ApplyRepairs(s[..at], repairs[..|repairs| - 1]) + added + s[at..]
  }

  ghost function Added(repairs: seq<(nat, seq<Item>)>): nat
  {
    if repairs == [] then 0 else Added(repairs[..|repairs| - 1]) + |repairs[|repairs| - 1].1|
  }

  lemma {:induction false} ApplyRepairsExtends(s: seq<Item>, t: seq<Item>, repairs: seq<(nat, seq<Item>)>)
    requires Ordered(repairs, |s|)
    ensures Ordered(repairs, |s + t|)
    ensures ApplyRepairs(s + t, repairs) == ApplyRepairs(s, repairs) + t
  {
    if repairs != [] {
      var at := repairs[|repairs| - 1].0;
      assert (s + t)[..at] == s[..at] && (s + t)[at..] == s[at..] + t;
    }
  }

  lemma {:induction false} ApplyRepairsSize(s: seq<Item>, repairs: seq<(nat, seq<Item>)>)
    requires Ordered(repairs, |s|)
    ensures |ApplyRepairs(s, repairs)| == |s| + Added(repairs)
    decreases |repairs|
  {
    if repairs != [] {
      ApplyRepairsSize(s[..repairs[|repairs| - 1].0], repairs[..|repairs| - 1]);
    }
  }

  ghost predicate Answers(calls: seq<ToolCall>, run: seq<Item>)
  {
    CallIds(calls) <= IdsOf(run)
  }

  /** Where the run starting at `start` ends, and the ids it answers. */
  method ScanRun(items: seq<Item>, start: nat) returns (end: nat, answered: set<string>)
    requires start <= |items|
    ensures start <= end <= |items|
    ensures items[start..end] == Run(items[start..]) && items[end..] == AfterRun(items[start..])
    ensures answered == IdsOf(items[start..end])
  {
    end, answered := start, {};
    while end < |items| && items[end].ToolResult?
      invariant start <= end <= |items| && AllResults(items[start..end])
      invariant answered == IdsOf(items[start..end])
    {
      assert items[start..end + 1] == items[start..end] + [items[end]];
      IdsOfConcat(items[start..end], [items[end]]);
      answered := answered + {items[end].callId};
      end := end + 1;
    }
    RunEndsAt(items, start, end);
  }

  lemma RunEndsAt(items: seq<Item>, start: nat, end: nat)
    requires start <= end <= |items| && AllResults(items[start..end])
    requires end < |items| ==> !items[end].ToolResult?
    ensures items[start..end] == Run(items[start..]) && items[end..] == AfterRun(items[start..])
  {
    RunOfConcat(items[start..end], items[end..]);
    assert items[start..] == items[start..end] + items[end..];
  }

  method HasDanglingToolCalls(items: seq<Item>) returns (dangling: bool)
    ensures dangling <==> !ForOwners(items, Answers)
  {
    var i := 0;
    while i < |items|
      invariant 0 <= i <= |items|
      invariant ForOwners(items[i..], Answers) <==> ForOwners(items, Answers)
    {
      assert items[i..][1..] == items[i + 1..];
      if Owner(items[i]) {
        ForOwnersBlock(items[i..], Answers);
        var end, answered := ScanRun(items, i + 1);
        if exists k :: 0 <= k < |items[i].calls| && items[i].calls[k].id !in answered {
          return true;
        }
        i := end;
      } else {
        ForOwnersOther(items[i..], Answers);
        i := i + 1;
      }
    }
    dangling := false;
  }

  /** The repair sites of a forward scan: where each run ends and what is missing there. */
  method FindRepairs(items: seq<Item>, reason: DanglingReason)
    returns (repairs: seq<(nat, seq<Item>)>, total: nat)
    ensures Ordered(repairs, |items|) && ApplyRepairs(items, repairs) == Backfill(items, reason)
    ensures total == Added(repairs)
  {
    repairs, total := [], 0;
    var i := 0;
    while i < |items|
      invariant 0 <= i <= |items| && Recorded(items, i, reason, repairs)
      invariant total == Added(repairs)
    {
      if Owner(items[i]) {
        var end, answered := ScanRun(items, i + 1);
        var synthetic := Missing(items[i].calls, answered, reason);
        SiteStep(items, i, end, reason, repairs);
        if synthetic != [] {
          repairs := repairs + [(end, synthetic)];
          total := total + |synthetic|;
        }
        i := end;
      } else {
        OtherStep(items, i, reason, repairs);
        i := i + 1;
      }
    }
    assert items[..i] == items;
  }

  lemma BackfillSite(items: seq<Item>, i: nat, end: nat, reason: DanglingReason)
    requires i < end <= |items| && Owner(items[i])
    requires items[i + 1..end] == Run(items[i + 1..]) && items[end..] == AfterRun(items[i + 1..])
    ensures Backfill(items[i..], reason)
            == items[i..end] + Missing(items[i].calls, IdsOf(items[i + 1..end]), reason)
               + Backfill(items[end..], reason)
  {
    assert items[i..][1..] == items[i + 1..];
    assert items[i..end] == [items[i]] + items[i + 1..end];
    var run := items[i + 1..end];
    Regroup([items[i]], run, Missing(items[i].calls, IdsOf(run), reason), Backfill(items[end..], reason));
  }

  lemma Regroup(a: seq<Item>, b: seq<Item>, c: seq<Item>, d: seq<Item>)
    ensures a + (b + c) + d == (a + b) + c + d
  {
  }

  lemma RecordSite(s: seq<Item>, repairs: seq<(nat, seq<Item>)>, synthetic: seq<Item>)
    requires Ordered(repairs, |s|)
    ensures var more := repairs + [(|s|, synthetic)];
            && Ordered(more, |s|)
            && ApplyRepairs(s, more) == ApplyRepairs(s, repairs) + synthetic
            && Added(more) == Added(repairs) + |synthetic|
  {
    var more := repairs + [(|s|, synthetic)];
    assert more[..|more| - 1] == repairs;
    assert s[..|s|] == s && s[|s|..] == [];
  }

  ghost predicate Recorded(items: seq<Item>, i: nat, reason: DanglingReason, repairs: seq<(nat, seq<Item>)>)
    requires i <= |items|
  {
    && Ordered(repairs, i)
    && Backfill(items, reason) == ApplyRepairs(items[..i], repairs) + Backfill(items[i..], reason)
  }

  lemma SiteStep(items: seq<Item>, i: nat, end: nat, reason: DanglingReason, repairs: seq<(nat, seq<Item>)>)
    requires i < end <= |items| && Owner(items[i]) && Recorded(items, i, reason, repairs)
    requires items[i + 1..end] == Run(items[i + 1..]) && items[end..] == AfterRun(items[i + 1..])
    ensures var synthetic := Missing(items[i].calls, IdsOf(items[i + 1..end]), reason);
            && (synthetic == [] ==> Recorded(items, end, reason, repairs))
            && Recorded(items, end, reason, repairs + [(end, synthetic)])
            && Added(repairs + [(end, synthetic)]) == Added(repairs) + |synthetic|
  {
    var synthetic := Missing(items[i].calls, IdsOf(items[i + 1..end]), reason);
    var rest := Backfill(items[end..], reason);
    BackfillSite(items, i, end, reason);
    RecordBlock(items, i, end, repairs, synthetic, rest, Backfill(items, reason));
  }

  /** Recording insertions after a block, whatever the rest of the result is. */
  lemma RecordBlock(items: seq<Item>, i: nat, end: nat, repairs: seq<(nat, seq<Item>)>, synthetic: seq<Item>,
                    rest: seq<Item>, whole: seq<Item>)
    requires i < end <= |items| && Ordered(repairs, i)
    requires whole == ApplyRepairs(items[..i], repairs) + (items[i..end] + synthetic + rest)
    ensures var more := repairs + [(end, synthetic)];
            && Ordered(repairs, end) && Ordered(more, end)
            && (synthetic == [] ==> whole == ApplyRepairs(items[..end], repairs) + rest)
            && whole == ApplyRepairs(items[..end], more) + rest
            && Added(more) == Added(repairs) + |synthetic|
  {
    var before, block := ApplyRepairs(items[..i], repairs), items[i..end];
    Reassociate(before, block, synthetic, rest);
    assert items[..end] == items[..i] + block;
    ApplyRepairsExtends(items[..i], block, repairs);
    assert before + block + [] == before + block;
    RecordSite(items[..end], repairs, synthetic);
  }

  lemma OtherStep(items: seq<Item>, i: nat, reason: DanglingReason, repairs: seq<(nat, seq<Item>)>)
    requires i < |items| && !Owner(items[i]) && Recorded(items, i, reason, repairs)
    ensures Recorded(items, i + 1, reason, repairs)
  {
    BackfillOther(items, i, reason);
    RecordItem(items, i, repairs, Backfill(items[i + 1..], reason), Backfill(items, reason));
  }

  lemma RecordItem(items: seq<Item>, i: nat, repairs: seq<(nat, seq<Item>)>, rest: seq<Item>, whole: seq<Item>)
    requires i < |items| && Ordered(repairs, i)
    requires whole == ApplyRepairs(items[..i], repairs) + ([items[i]] + rest)
    ensures Ordered(repairs, i + 1) && whole == ApplyRepairs(items[..i + 1], repairs) + rest
  {
    var before := ApplyRepairs(items[..i], repairs);
    assert items[..i + 1] == items[..i] + [items[i]];
    ApplyRepairsExtends(items[..i], [items[i]], repairs);
    assert before + ([items[i]] + rest) == (before + [items[i]]) + rest;
  }

  lemma BackfillOther(items: seq<Item>, i: nat, reason: DanglingReason)
    requires i < |items| && !Owner(items[i])
    ensures Backfill(items[i..], reason) == [items[i]] + Backfill(items[i + 1..], reason)
  {
    assert items[i..][1..] == items[i + 1..];
  }

  lemma StrictStep(items: seq<Item>, i: nat, run: set<string>)
    requires i < |items|
    ensures var x, rest := items[i], KeepStrict(items[i + 1..], RunAfter(items[i], run));
            KeepStrict(items[i..], run) == if x.ToolResult? && x.callId !in run then rest else [x] + rest
    ensures var x, rest := items[i], DisplacedIds(items[i + 1..], RunAfter(items[i], run));
            DisplacedIds(items[i..], run) == if x.ToolResult? && x.callId !in run then [x.callId] + rest else rest
  {
    assert items[i..][1..] == items[i + 1..];
  }

  lemma ApplyLast(s: seq<Item>, repairs: seq<(nat, seq<Item>)>)
    requires repairs != [] && Ordered(repairs, |s|)
    ensures var (at, synthetic) := repairs[|repairs| - 1]; var front := repairs[..|repairs| - 1];
            && at <= |s| && Ordered(front, at)
            && ApplyRepairs(s, repairs) == ApplyRepairs(s[..at], front) + synthetic + s[at..]
  {
  }

  /** Inserting the last recorded piece leaves the earlier ones to insert. */
  lemma InsertStep(s: seq<Item>, front: seq<(nat, seq<Item>)>, at: nat, synthetic: seq<Item>)
    requires at <= |s| && Ordered(front, at)
    ensures var next := s[..at] + synthetic + s[at..];
            && Ordered(front, |next|)
            && ApplyRepairs(next, front) == ApplyRepairs(s[..at], front) + synthetic + s[at..]
  {
    var before, tail := ApplyRepairs(s[..at], front), s[at..];
    ApplyRepairsExtends(s[..at], synthetic, front);
    ApplyRepairsExtends(s[..at] + synthetic, tail, front);
  }

  class History {
    var items: seq<Item>

    constructor (items: seq<Item>)
      ensures this.items == items
    {
      this.items := items;
    }

    method DedupDuplicateToolResults() returns (removed: nat)
      modifies this
      ensures items == Dedup(old(items))
      ensures removed == |old(items)| - |items|
    {
      removed := 0;
      var i := 0;
      while i < |items|
        invariant 0 <= i <= |items|
        invariant Dedup(old(items)) == items[..i] + Dedup(items[i..])
        invariant removed == |old(items)| - |items|
        decreases |items|, |items| - i
      {
        if Owner(items[i]) {
          var end, _ := ScanRun(items, i + 1);
          DedupStep(items, i, end);
          var kept, n := DedupRun(items[i + 1..end]);
          if n > 0 {
            removed := removed + n;
            items := items[..i + 1] + kept + items[end..];
            continue;
          }
          i := end;
        } else {
          assert items[i..][1..] == items[i + 1..];
          assert items[..i + 1] == items[..i] + [items[i]];
          i := i + 1;
        }
      }
    }

    method StripDisplacedToolResults() returns (stripped: seq<string>)
      modifies this
      ensures items == KeepStrict(old(items), {}) && stripped == DisplacedIds(old(items), {})
    {
      var run: set<string> := {};
      var kept: seq<Item> := [];
      stripped := [];
      for i := 0 to |items|
        invariant items == old(items)
        invariant KeepStrict(items, {}) == kept + KeepStrict(items[i..], run)
        invariant DisplacedIds(items, {}) == stripped + DisplacedIds(items[i..], run)
      {
        StrictStep(items, i, run);
        var x := items[i];
        ghost var keptRest := KeepStrict(items[i + 1..], RunAfter(x, run));
        ghost var idRest := DisplacedIds(items[i + 1..], RunAfter(x, run));
        assert kept + ([x] + keptRest) == (kept + [x]) + keptRest;
        match x {
          case Assistant(_, calls) =>
            run := CallIds(calls);
            kept := kept + [x];
          case ToolResult(id, _, _) =>
            if id in run {
              kept := kept + [x];
            } else {
              assert stripped + ([id] + idRest) == (stripped + [id]) + idRest;
              stripped := stripped + [id];
            }
          case _ =>
            run := {};
            kept := kept + [x];
        }
      }
      items := kept;
    }

    method RepairDanglingToolCalls(reason: DanglingReason) returns (inserted: nat)
      modifies this
      ensures items == Backfill(old(items), reason)
      ensures inserted == |items| - |old(items)|
    {
      var repairs, total := FindRepairs(items, reason);
      inserted := total;
      ApplyRepairsSize(items, repairs);
      ghost var goal := ApplyRepairs(items, repairs);
      assert repairs[..|repairs|] == repairs;
      for n := |repairs| downto 0
        invariant Ordered(repairs[..n], |items|)
        invariant ApplyRepairs(items, repairs[..n]) == goal
      {
        var (at, synthetic) := repairs[n];
        ghost var upTo := repairs[..n + 1];
        assert upTo[n] == repairs[n] && upTo[..n] == repairs[..n];
        ApplyLast(items, upTo);
        InsertStep(items, repairs[..n], at, synthetic);
        items := items[..at] + synthetic + items[at..];
      }
    }

    method RepairHistory() returns (report: RepairReport)
      modifies this
      ensures items == Repair(old(items))
      ensures report.Changed() <==> items != old(items)
    {
      var removed := DedupDuplicateToolResults();
      var stripped := StripDisplacedToolResults();
      var inserted := RepairDanglingToolCalls(REPAIR_REASON);
      report := RepairReport(removed, stripped, inserted);
      PassesIdleIff(old(items));
    }
  }

  // ----- The report tells whether anything changed -----

  lemma DedupIdleBlock(s: seq<Item>)
    requires s != [] && Owner(s[0])
    ensures var run, rest := Run(s[1..]), AfterRun(s[1..]); var last := LastOnly(run);
            && Dedup(s) == [s[0]] + last + Dedup(rest)
            && |last| <= |run| && |s| == 1 + |run| + |rest|
            && (|last| == |run| ==> Dedup(s) == [s[0]] + run + Dedup(rest))
  {
    LastOnlyFacts(Run(s[1..]));
    BlockOf(s);
  }

  lemma {:induction false} DedupIdle(s: seq<Item>)
    ensures |Dedup(s)| <= |s| && (|Dedup(s)| == |s| ==> Dedup(s) == s)
    decreases |s|
  {
    if s == [] {
    } else if Owner(s[0]) {
      DedupIdle(AfterRun(s[1..]));
      DedupIdleBlock(s);
      BlockOf(s);
    } else {
      DedupIdle(s[1..]);
      BlockOf(s);
    }
  }

  lemma BackfillIdleBlock(s: seq<Item>, reason: DanglingReason)
    requires s != [] && Owner(s[0])
    ensures var run, rest := Run(s[1..]), AfterRun(s[1..]); var b, r := Backfill(s, reason), Backfill(rest, reason);
            && |b| >= |s| + |r| - |rest|
            && (Answers(s[0].calls, run) ==> b == [s[0]] + run + r)
            && (!Answers(s[0].calls, run) ==> |b| > |s| + |r| - |rest|)
  {
    var run, rest := Run(s[1..]), AfterRun(s[1..]);
    var added := Missing(s[0].calls, IdsOf(run), reason);
    BlockOf(s);
    MissingIds(s[0].calls, IdsOf(run), reason);
    assert added == [] ==> run + added == run;
  }

  lemma {:induction false} BackfillIdle(s: seq<Item>, reason: DanglingReason)
    ensures |Backfill(s, reason)| >= |s|
    ensures ForOwners(s, Answers) ==> Backfill(s, reason) == s
    ensures !ForOwners(s, Answers) ==> |Backfill(s, reason)| > |s|
    decreases |s|
  {
    if s == [] {
    } else if Owner(s[0]) {
      BackfillIdle(AfterRun(s[1..]), reason);
      BackfillIdleBlock(s, reason);
      ForOwnersBlock(s, Answers);
      BlockOf(s);
    } else {
      BackfillIdle(s[1..], reason);
      ForOwnersOther(s, Answers);
      BlockOf(s);
    }
  }

  lemma {:induction false} ValidBlocksDedup(s: seq<Item>)
    requires ValidBlocks(s)
    ensures Dedup(s) == s
    decreases |s|
  {
    if s == [] {
    } else if Owner(s[0]) {
      ValidBlocksDedup(AfterRun(s[1..]));
      DedupIdleBlock(s);
      LastOnlyFacts(Run(s[1..]));
      BlockOf(s);
    } else {
      ValidBlocksDedup(s[1..]);
      BlockOf(s);
    }
  }

  /** Repair changes nothing exactly when each of its passes reports nothing. */
  lemma PassesIdleIff(s: seq<Item>)
    ensures var d := Dedup(s); var k := KeepStrict(d, {});
            Repair(s) == s <==>
            |d| == |s| && DisplacedIds(d, {}) == [] && |Backfill(k, REPAIR_REASON)| == |k|
  {
    var d := Dedup(s);
    var k := KeepStrict(d, {});
    DedupIdle(s);
    KeepStrictFixed(d, {});
    BackfillIdle(k, REPAIR_REASON);
    if Repair(s) == s {
      RepairFixesExactlyInvalid(s);
      ValidIffBlocks(s);
      ValidBlocksDedup(s);
      StrictIffNothingDisplaced(s);
    }
  }

  /** Backfilling would change the history exactly when some call dangles, and after
      repair none does. */
  lemma NoDanglingAfterRepair(s: seq<Item>)
    ensures Backfill(s, REPAIR_REASON) == s <==> ForOwners(s, Answers)
    ensures ForOwners(Repair(s), Answers)
  {
    BackfillIdle(s, REPAIR_REASON);
    RepairPairsAndAnswers(s);
    forall i: nat | i < |Repair(s)| ensures OwnerSatisfies(Repair(s), i, Answers) {
      assert OwnerSatisfies(Repair(s), i, AllAnswered);
    }
  }
}
