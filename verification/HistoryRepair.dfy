/** Repairing tool pairing: duplicate results are dropped, displaced ones stripped,
    unanswered calls given synthetic results. */
module HistoryRepair {
  import opened Wrappers
  import opened Conversation
  import opened Pairing

  // ----- Runs of results -----

  predicate AllResults(run: seq<Item>)
  {
    forall k :: 0 <= k < |run| ==> run[k].ToolResult?
  }

  predicate StartsWithResult(s: seq<Item>)
  {
    s != [] && s[0].ToolResult?
  }

  /** Where the results that start at `i` end. */
  function RunEnd(s: seq<Item>, i: nat): (end: nat)
    requires i <= |s|
    ensures i <= end <= |s|
    ensures forall k :: i <= k < end ==> s[k].ToolResult?
    ensures end < |s| ==> !s[end].ToolResult?
    decreases |s| - i
  {
    if i < |s| && s[i].ToolResult? then RunEnd(s, i + 1) else i
  }

  /** How many results `s` opens with. */
  function RunLen(s: seq<Item>): (n: nat)
    ensures n <= |s|
  {
    RunEnd(s, 0)
  }

  function Run(s: seq<Item>): (run: seq<Item>)
    ensures AllResults(run)
  {
    s[..RunLen(s)]
  }

  function AfterRun(s: seq<Item>): (rest: seq<Item>)
    ensures |rest| <= |s| && !StartsWithResult(rest) && s == Run(s) + rest
  {
    s[RunLen(s)..]
  }

  function IdsOf(run: seq<Item>): (ids: set<string>)
  {
    if run == [] then {}
    else (if run[0].ToolResult? then {run[0].callId} else {}) + IdsOf(run[1..])
  }

  // ----- Specification of the three passes -----

  /** Of several results for one call, the last. */
  function LastOnly(run: seq<Item>): (r: seq<Item>)
    requires AllResults(run)
    ensures AllResults(r) && |r| <= |run|
  {
    if run == [] then []
    else if run[0].callId in IdsOf(run[1..]) then LastOnly(run[1..])
    else [run[0]] + LastOnly(run[1..])
  }

  function Dedup(s: seq<Item>): seq<Item>
    decreases |s|
  {
    if s == [] then []
    else if Owner(s[0]) then [s[0]] + LastOnly(Run(s[1..])) + Dedup(AfterRun(s[1..]))
    else [s[0]] + Dedup(s[1..])
  }

  datatype DanglingReason = UserCancelled | HarnessHalted(cls: string)

  function SyntheticResultText(name: string, reason: DanglingReason): string
  {
    match reason
    case UserCancelled =>
      "Tool execution was cancelled by the user (tool `" + name + "` was not executed)."
    case HarnessHalted(cls) =>
      "Tool execution was halted by the harness (" + cls + "); the tool `" + name + "` was not executed."
  }

  /** Synthetic results, in call order, for the calls not answered. */
  function Missing(calls: seq<ToolCall>, answered: set<string>, reason: DanglingReason): (r: seq<Item>)
    ensures AllResults(r)
  {
    if calls == [] then []
    else
      var rest := Missing(calls[1..], answered, reason);
      if calls[0].id in answered then rest
      else [ToolResult(calls[0].id, SyntheticResultText(calls[0].name, reason), [])] + rest
  }

  function Backfill(s: seq<Item>, reason: DanglingReason): seq<Item>
    decreases |s|
  {
    if s == [] then []
    else if Owner(s[0]) then
      var run := Run(s[1..]);
      [s[0]] + (run + Missing(s[0].calls, IdsOf(run), reason)) + Backfill(AfterRun(s[1..]), reason)
    else [s[0]] + Backfill(s[1..], reason)
  }

  const REPAIR_REASON := HarnessHalted("history_repair")

  function Repair(s: seq<Item>): seq<Item>
  {
    Backfill(KeepStrict(Dedup(s), {}), REPAIR_REASON)
  }

  // ----- What a provider accepts -----

  ghost predicate DistinctIds(run: seq<Item>)
  {
    forall j, k :: 0 <= j < k < |run| && run[j].ToolResult? && run[k].ToolResult?
                   ==> run[j].callId != run[k].callId
  }

  /** The results right after position `i`. */
  function RunAt(s: seq<Item>, i: nat): seq<Item>
    requires i < |s|
  {
    Run(s[i + 1..])
  }

  ghost predicate OwnerSatisfies(s: seq<Item>, i: nat, p: (seq<ToolCall>, seq<Item>) -> bool)
  {
    i < |s| && (Owner(s[i]) ==> p(s[i].calls, RunAt(s, i)))
  }

  /** Every owning message's calls, with the run after it, satisfy `p`. */
  ghost predicate ForOwners(s: seq<Item>, p: (seq<ToolCall>, seq<Item>) -> bool)
  {
    forall i: nat :: i < |s| ==> OwnerSatisfies(s, i, p)
  }

  ghost predicate AnsweredOnce(calls: seq<ToolCall>, run: seq<Item>)
  {
    DistinctIds(run) && CallIds(calls) <= IdsOf(run)
  }

  /** Every result right after its owner, every call answered, none twice. */
  ghost predicate ProviderValid(s: seq<Item>)
  {
    StrictHistory(s) && ForOwners(s, AnsweredOnce)
  }

  /** A call id may be repeated only if the run answers it. */
  ghost predicate RepeatsAnswered(calls: seq<ToolCall>, answered: set<string>)
  {
    forall j, k :: 0 <= j < k < |calls| && calls[j].id == calls[k].id ==> calls[j].id in answered
  }

  ghost predicate RepeatsAnsweredIn(calls: seq<ToolCall>, run: seq<Item>)
  {
    RepeatsAnswered(calls, IdsOf(run))
  }

  ghost predicate RepeatedCallsAnswered(s: seq<Item>)
  {
    ForOwners(s, RepeatsAnsweredIn)
  }

  // ----- Facts about runs -----

  lemma {:induction false} IdsOfMember(run: seq<Item>, id: string)
    ensures id in IdsOf(run) <==> exists k :: 0 <= k < |run| && run[k].ToolResult? && run[k].callId == id
  {
    if run != [] {
      IdsOfMember(run[1..], id);
      if k :| 0 <= k < |run| && run[k].ToolResult? && run[k].callId == id {
        assert k > 0 ==> run[1..][k - 1] == run[k];
      }
    }
  }

  lemma {:induction false} IdsOfConcat(a: seq<Item>, b: seq<Item>)
    ensures IdsOf(a + b) == IdsOf(a) + IdsOf(b)
  {
    if a == [] {
      assert a + b == b;
    } else {
      IdsOfConcat(a[1..], b);
      assert (a + b)[1..] == a[1..] + b;
    }
  }

  lemma RunOfConcat(w: seq<Item>, t: seq<Item>)
    requires AllResults(w) && !StartsWithResult(t)
    ensures Run(w + t) == w && AfterRun(w + t) == t
  {
    var s, n := w + t, RunLen(w + t);
    assert forall k :: 0 <= k < |w| ==> s[k].ToolResult?;
    assert t != [] ==> s[|w|] == t[0];
    assert n == |w|;
  }

  /** Splitting a text into its run and the rest is unique. */
  lemma RunSplitUnique(w: seq<Item>, t: seq<Item>, w': seq<Item>, t': seq<Item>)
    requires AllResults(w) && AllResults(w') && !StartsWithResult(t) && !StartsWithResult(t')
    requires w + t == w' + t'
    ensures w == w' && t == t'
  {
    RunOfConcat(w, t);
    RunOfConcat(w', t');
  }

  lemma DistinctIdsCons(run: seq<Item>)
    requires run != [] && AllResults(run)
    ensures DistinctIds(run) <==> DistinctIds(run[1..]) && run[0].callId !in IdsOf(run[1..])
  {
    var t := run[1..];
    IdsOfMember(t, run[0].callId);
    assert forall k :: 0 <= k < |t| ==> t[k] == run[k + 1];
    assert forall k :: 1 <= k < |run| ==> run[k] == t[k - 1];
  }

  lemma {:induction false} LastOnlyFacts(run: seq<Item>)
    requires AllResults(run)
    ensures IdsOf(LastOnly(run)) == IdsOf(run)
    ensures DistinctIds(LastOnly(run))
    ensures LastOnly(run) == run <==> DistinctIds(run)
    ensures |LastOnly(run)| == |run| ==> LastOnly(run) == run
  {
    if run != [] {
      var t, r := run[1..], LastOnly(run);
      LastOnlyFacts(t);
      DistinctIdsCons(run);
      assert run == [run[0]] + t;
      if run[0].callId !in IdsOf(t) {
        assert r[1..] == LastOnly(t);
        DistinctIdsCons(r);
      }
    }
  }

  function Owned(run: seq<Item>, ids: set<string>): (r: seq<Item>)
    requires AllResults(run)
    ensures AllResults(r) && |r| <= |run|
  {
    if run == [] then []
    else
      var rest := Owned(run[1..], ids);
      if run[0].callId in ids then [run[0]] + rest else rest
  }

  lemma {:induction false} OwnedIds(run: seq<Item>, ids: set<string>)
    requires AllResults(run)
    ensures IdsOf(Owned(run, ids)) == IdsOf(run) * ids
    ensures Owned(run, ids) == run <==> IdsOf(run) <= ids
    ensures |Owned(run, ids)| == |run| ==> Owned(run, ids) == run
  {
    if run != [] {
      OwnedIds(run[1..], ids);
      assert run == [run[0]] + run[1..];
    }
  }

  lemma {:induction false} OwnedDistinct(run: seq<Item>, ids: set<string>)
    requires AllResults(run) && DistinctIds(run)
    ensures DistinctIds(Owned(run, ids))
  {
    if run != [] {
      var t, r := run[1..], Owned(run, ids);
      DistinctIdsCons(run);
      OwnedDistinct(t, ids);
      OwnedIds(t, ids);
      if run[0].callId in ids {
        assert r[1..] == Owned(t, ids);
        DistinctIdsCons(r);
      }
    }
  }

  lemma {:induction false} KeepStrictOfRun(run: seq<Item>, rest: seq<Item>, ids: set<string>)
    requires AllResults(run) && !StartsWithResult(rest)
    ensures KeepStrict(run + rest, ids) == Owned(run, ids) + KeepStrict(rest, {})
    ensures DisplacedIds(run + rest, ids) == []
            <==> Owned(run, ids) == run && DisplacedIds(rest, {}) == []
  {
    if run == [] {
      assert run + rest == rest;
    } else {
      KeepStrictOfRun(run[1..], rest, ids);
      assert (run + rest)[1..] == run[1..] + rest;
      assert run == [run[0]] + run[1..];
    }
  }

  lemma CallIdsCons(calls: seq<ToolCall>)
    requires calls != []
    ensures CallIds(calls) == {calls[0].id} + CallIds(calls[1..])
  {
    var t := calls[1..];
    assert forall k :: 0 <= k < |t| ==> t[k] == calls[k + 1];
    forall id | id in CallIds(calls) ensures id in {calls[0].id} + CallIds(t) {
      var k :| 0 <= k < |calls| && calls[k].id == id;
      assert k > 0 ==> t[k - 1] == calls[k];
    }
  }

  lemma {:induction false} MissingIds(calls: seq<ToolCall>, answered: set<string>, reason: DanglingReason)
    ensures IdsOf(Missing(calls, answered, reason)) == CallIds(calls) - answered
    ensures Missing(calls, answered, reason) == [] <==> CallIds(calls) <= answered
  {
    if calls == [] {
      assert CallIds(calls) == {};
    } else {
      CallIdsCons(calls);
      MissingIds(calls[1..], answered, reason);
    }
  }

  lemma RepeatsAnsweredCons(calls: seq<ToolCall>, answered: set<string>)
    requires calls != []
    ensures RepeatsAnswered(calls, answered)
            <==> RepeatsAnswered(calls[1..], answered)
                 && (calls[0].id in CallIds(calls[1..]) ==> calls[0].id in answered)
  {
    var t := calls[1..];
    assert forall k :: 0 <= k < |t| ==> t[k] == calls[k + 1];
    assert forall k :: 1 <= k < |calls| ==> calls[k] == t[k - 1];
  }

  lemma {:induction false} MissingDistinct(calls: seq<ToolCall>, answered: set<string>, reason: DanglingReason)
    ensures DistinctIds(Missing(calls, answered, reason)) <==> RepeatsAnswered(calls, answered)
  {
    if calls != [] {
      var m := Missing(calls[1..], answered, reason);
      MissingDistinct(calls[1..], answered, reason);
      MissingIds(calls[1..], answered, reason);
      RepeatsAnsweredCons(calls, answered);
      if calls[0].id !in answered {
        var r := Missing(calls, answered, reason);
        assert r[1..] == m;
        DistinctIdsCons(r);
      }
    }
  }

  lemma {:induction false} DistinctIdsConcat(a: seq<Item>, b: seq<Item>)
    requires AllResults(a) && AllResults(b)
    ensures DistinctIds(a + b) <==> DistinctIds(a) && DistinctIds(b) && IdsOf(a) !! IdsOf(b)
  {
    if a == [] {
      assert a + b == b;
    } else {
      DistinctIdsConcat(a[1..], b);
      assert (a + b)[1..] == a[1..] + b;
      DistinctIdsCons(a);
      DistinctIdsCons(a + b);
      IdsOfConcat(a[1..], b);
    }
  }

  // ----- One run at a time -----

  /** What the three passes make of the run after a message with `calls`. */
  function RepairRun(calls: seq<ToolCall>, run: seq<Item>): (r: seq<Item>)
    requires AllResults(run)
    ensures AllResults(r)
  {
    var kept := Owned(LastOnly(run), CallIds(calls));
    kept + Missing(calls, IdsOf(kept), REPAIR_REASON)
  }

  ghost predicate WellAnswered(calls: seq<ToolCall>, run: seq<Item>)
  {
    DistinctIds(run) && IdsOf(run) == CallIds(calls)
  }

  lemma RepairRunAnswers(calls: seq<ToolCall>, run: seq<Item>)
    requires AllResults(run)
    ensures IdsOf(RepairRun(calls, run)) == CallIds(calls)
    ensures WellAnswered(calls, RepairRun(calls, run)) <==> RepeatsAnswered(calls, IdsOf(run))
  {
    var kept := Owned(LastOnly(run), CallIds(calls));
    LastOnlyFacts(run);
    OwnedIds(LastOnly(run), CallIds(calls));
    OwnedDistinct(LastOnly(run), CallIds(calls));
    AnsweredWith(calls, kept, REPAIR_REASON);
    RepeatsUpToCalls(calls, IdsOf(run));
  }

  /** Backfilling a run of distinct results that answer only these calls. */
  lemma AnsweredWith(calls: seq<ToolCall>, kept: seq<Item>, reason: DanglingReason)
    requires AllResults(kept) && DistinctIds(kept) && IdsOf(kept) <= CallIds(calls)
    ensures var all := kept + Missing(calls, IdsOf(kept), reason);
            && IdsOf(all) == CallIds(calls)
            && (DistinctIds(all) <==> RepeatsAnswered(calls, IdsOf(kept)))
  {
    var added := Missing(calls, IdsOf(kept), reason);
    MissingIds(calls, IdsOf(kept), reason);
    MissingDistinct(calls, IdsOf(kept), reason);
    IdsOfConcat(kept, added);
    DistinctIdsConcat(kept, added);
  }

  lemma RepeatsUpToCalls(calls: seq<ToolCall>, answered: set<string>)
    ensures RepeatsAnswered(calls, answered * CallIds(calls)) <==> RepeatsAnswered(calls, answered)
  {
    assert forall k :: 0 <= k < |calls| ==> calls[k].id in CallIds(calls);
  }

  lemma RepairRunFixed(calls: seq<ToolCall>, run: seq<Item>)
    requires AllResults(run)
    ensures RepairRun(calls, run) == run <==> WellAnswered(calls, run)
    ensures WellAnswered(calls, run)
            ==> LastOnly(run) == run && Owned(run, CallIds(calls)) == run
                && Missing(calls, IdsOf(run), REPAIR_REASON) == []
  {
    LastOnlyFacts(run);
    OwnedIds(run, CallIds(calls));
    MissingIds(calls, IdsOf(run), REPAIR_REASON);
    if RepairRun(calls, run) == run {
      var kept := Owned(LastOnly(run), CallIds(calls));
      var added := Missing(calls, IdsOf(kept), REPAIR_REASON);
      OwnedIds(LastOnly(run), CallIds(calls));
      MissingIds(calls, IdsOf(kept), REPAIR_REASON);
      IdsOfConcat(kept, added);
      assert added == [] by {
        assert IdsOf(added) !! IdsOf(run) by { assert IdsOf(kept) == IdsOf(run) * CallIds(calls); }
      }
    }
  }

  // ----- Which results stay -----

  /** A later result in the run answers the same call. */
  ghost predicate Superseded(run: seq<Item>, k: int)
    requires AllResults(run)
  {
    0 <= k < |run| && exists m :: k < m < |run| && run[m].callId == run[k].callId
  }

  lemma SupersededInRest(run: seq<Item>, k: nat)
    requires AllResults(run) && k < |run|
    ensures Superseded(run, k) <==> run[k].callId in IdsOf(run[k + 1..])
  {
    var rest := run[k + 1..];
    IdsOfMember(rest, run[k].callId);
    assert forall m :: 0 <= m < |rest| ==> rest[m] == run[k + 1 + m];
    assert forall m :: k < m < |run| ==> run[m] == rest[m - k - 1];
  }

  lemma {:induction false} LastOnlyFrom(run: seq<Item>, i: nat)
    requires AllResults(run) && i <= |run|
    ensures LastOnly(run[i..]) == Select(run, k => AllResults(run) && !Superseded(run, k), i)
    decreases |run| - i
  {
    if i < |run| {
      LastOnlyFrom(run, i + 1);
      SupersededInRest(run, i);
      assert run[i..][1..] == run[i + 1..];
    }
  }

  /** Of the results of a run exactly those stay, in order, that no later one supersedes. */
  lemma LastOnlyKeepsLast(run: seq<Item>)
    requires AllResults(run)
    ensures LastOnly(run) == Select(run, k => AllResults(run) && !Superseded(run, k), 0)
  {
    LastOnlyFrom(run, 0);
    assert run[0..] == run;
  }

  /** Only results stand between an owner before `k` and `k`. */
  ghost predicate InOwnersRun(s: seq<Item>, k: int)
  {
    exists o :: 0 <= o < k < |s| && Owner(s[o]) && forall j :: o < j <= k ==> s[j].ToolResult?
  }

  /** The same call is answered again before the next item that is no result. */
  ghost predicate AnsweredLater(s: seq<Item>, k: int)
  {
    exists m :: 0 <= k < m < |s| && (forall j :: k <= j <= m ==> s[j].ToolResult?) && s[m].callId == s[k].callId
  }

  ghost predicate DuplicateAt(s: seq<Item>, k: int)
  {
    InOwnersRun(s, k) && AnsweredLater(s, k)
  }

  lemma RunDuplicates(s: seq<Item>, o: nat, end: nat, k: nat)
    requires o < k < end <= |s| && Owner(s[o])
    requires forall j :: o < j < end ==> s[j].ToolResult?
    requires end < |s| ==> !s[end].ToolResult?
    ensures DuplicateAt(s, k) <==> s[k].callId in IdsOf(s[k + 1..end])
  {
    var rest := s[k + 1..end];
    IdsOfMember(rest, s[k].callId);
    assert forall m :: 0 <= m < |rest| ==> rest[m] == s[k + 1 + m];
    assert InOwnersRun(s, k);
    if m :| k < m < |s| && (forall j :: k <= j <= m ==> s[j].ToolResult?) && s[m].callId == s[k].callId {
      assert m < end;
      assert rest[m - k - 1] == s[m];
    }
    if m :| 0 <= m < |rest| && rest[m].callId == s[k].callId {
      assert s[k + 1 + m].callId == s[k].callId;
      assert AnsweredLater(s, k);
    }
  }

  lemma {:induction false} DedupRunSelects(s: seq<Item>, o: nat, end: nat, i: nat)
    requires o < i <= end <= |s| && Owner(s[o])
    requires forall j :: o < j < end ==> s[j].ToolResult?
    requires end < |s| ==> !s[end].ToolResult?
    ensures AllResults(s[i..end])
    ensures Select(s, k => !DuplicateAt(s, k), i) == LastOnly(s[i..end]) + Select(s, k => !DuplicateAt(s, k), end)
    decreases end - i
  {
    if i == end {
      assert s[i..end] == [];
    } else {
      DedupRunSelects(s, o, end, i + 1);
      RunDuplicates(s, o, end, i);
      FirstOfRun(s[i..end]);
      assert s[i..end][1..] == s[i + 1..end];
      Behind([s[i]], LastOnly(s[i + 1..end]), Select(s, k => !DuplicateAt(s, k), end));
    }
  }

  lemma FirstOfRun(run: seq<Item>)
    requires run != [] && AllResults(run)
    ensures LastOnly(run)
            == if run[0].callId in IdsOf(run[1..]) then LastOnly(run[1..]) else [run[0]] + LastOnly(run[1..])
  {
  }

  lemma Behind(a: seq<Item>, b: seq<Item>, c: seq<Item>)
    ensures a + (b + c) == (a + b) + c
  {
  }

  lemma {:induction false} DedupFrom(s: seq<Item>, i: nat)
    requires i <= |s| && !InOwnersRun(s, i)
    ensures Dedup(s[i..]) == Select(s, k => !DuplicateAt(s, k), i)
    decreases |s| - i
  {
    if i < |s| {
      var rest := s[i + 1..];
      assert s[i..][1..] == rest;
      if Owner(s[i]) {
        var end := i + 1 + |Run(rest)|;
        assert rest[..|Run(rest)|] == s[i + 1..end] && AfterRun(rest) == s[end..];
        assert forall j :: i < j < end ==> s[j] == rest[j - i - 1];
        assert end < |s| ==> s[end] == AfterRun(rest)[0];
        DedupFrom(s, end);
        DedupRunSelects(s, i, end, i + 1);
      } else {
        DedupFrom(s, i + 1);
      }
    }
  }

  /** Deduplicating keeps, in order, every item but the results that a later one in the
      same owner's run supersedes. */
  lemma DedupKeepsLast(s: seq<Item>)
    ensures Dedup(s) == Select(s, k => !DuplicateAt(s, k), 0)
  {
    DedupFrom(s, 0);
    assert s[0..] == s;
  }

  lemma {:induction false} OwnedSelects(run: seq<Item>, keep: int -> bool, ids: set<string>, i: nat)
    requires AllResults(run) && i <= |run| && AllResults(Select(run, keep, i))
    ensures Owned(Select(run, keep, i), ids) == Select(run, k => keep(k) && 0 <= k < |run| && run[k].ToolResult? && run[k].callId in ids, i)
    decreases |run| - i
  {
    if i < |run| {
      var rest := Select(run, keep, i + 1);
      assert keep(i) ==> ([run[i]] + rest)[1..] == rest;
      assert AllResults(rest) by {
        var all := Select(run, keep, i);
        assert forall k :: 0 <= k < |rest| ==> rest[k] == if keep(i) then all[k + 1] else all[k];
      }
      OwnedSelects(run, keep, ids, i + 1);
    }
  }

  ghost predicate StaysInRun(calls: seq<ToolCall>, run: seq<Item>, k: int)
    requires AllResults(run)
  {
    0 <= k < |run| && !Superseded(run, k) && run[k].callId in CallIds(calls)
  }

  lemma {:induction false} SelectSame(s: seq<Item>, p: int -> bool, q: int -> bool, i: nat)
    requires i <= |s| && forall k :: i <= k < |s| ==> p(k) == q(k)
    ensures Select(s, p, i) == Select(s, q, i)
    decreases |s| - i
  {
    if i < |s| { SelectSame(s, p, q, i + 1); }
  }

  /** After repair a message's run holds, in order, the last result for each of its calls
      that has one, then the synthetic results for the others. */
  lemma RepairRunKeepsLast(calls: seq<ToolCall>, run: seq<Item>)
    requires AllResults(run)
    ensures var kept := Select(run, k => AllResults(run) && StaysInRun(calls, run, k), 0);
            RepairRun(calls, run) == kept + Missing(calls, IdsOf(kept), REPAIR_REASON)
  {
    var keep := (k: int) => AllResults(run) && !Superseded(run, k);
    LastOnlyKeepsLast(run);
    OwnedSelects(run, keep, CallIds(calls), 0);
    SelectSame(run, k => keep(k) && 0 <= k < |run| && run[k].ToolResult? && run[k].callId in CallIds(calls),
               k => AllResults(run) && StaysInRun(calls, run, k), 0);
  }

  /** How many of the first `n` calls are not answered. */
  function CountMissing(calls: seq<ToolCall>, answered: set<string>, n: nat): nat
    requires n <= |calls|
  {
    if n == 0 then 0 else CountMissing(calls, answered, n - 1) + if calls[n - 1].id in answered then 0 else 1
  }

  lemma {:induction false} CountMissingCons(calls: seq<ToolCall>, answered: set<string>, n: nat)
    requires 0 < n <= |calls|
    ensures CountMissing(calls, answered, n)
            == (if calls[0].id in answered then 0 else 1) + CountMissing(calls[1..], answered, n - 1)
  {
    if n > 1 { CountMissingCons(calls, answered, n - 1); }
  }

  /** The synthetic results are for exactly the unanswered calls, in call order, each with
      its call's id and its tool named in the text. */
  lemma {:induction false} MissingInOrder(calls: seq<ToolCall>, answered: set<string>, reason: DanglingReason, j: nat)
    requires j < |calls|
    ensures |Missing(calls, answered, reason)| == CountMissing(calls, answered, |calls|)
    ensures var r, n := Missing(calls, answered, reason), CountMissing(calls, answered, j);
            calls[j].id !in answered
            ==> n < |r| && r[n] == ToolResult(calls[j].id, SyntheticResultText(calls[j].name, reason), [])
  {
    CountMissingCons(calls, answered, |calls|);
    if |calls| > 1 { MissingInOrder(calls[1..], answered, reason, if j > 0 then j - 1 else 0); }
    if j > 0 { CountMissingCons(calls, answered, j); }
  }

  // ----- The whole history, block by block -----

  function RepairBlocks(s: seq<Item>): (r: seq<Item>)
    ensures !StartsWithResult(r)
    decreases |s|
  {
    if s == [] then []
    else if Owner(s[0]) then
      [s[0]] + RepairRun(s[0].calls, Run(s[1..])) + RepairBlocks(AfterRun(s[1..]))
    else if s[0].ToolResult? then RepairBlocks(s[1..])
    else [s[0]] + RepairBlocks(s[1..])
  }

  lemma {:induction false} KeepStrictHead(s: seq<Item>)
    requires !StartsWithResult(s)
    ensures !StartsWithResult(KeepStrict(s, {}))
  {
  }

  lemma {:induction false} DedupHead(s: seq<Item>)
    ensures StartsWithResult(Dedup(s)) == StartsWithResult(s)
  {
  }

  lemma DedupBlock(o: Item, run: seq<Item>, rest: seq<Item>)
    requires Owner(o) && AllResults(run) && !StartsWithResult(rest)
    ensures Dedup([o] + run + rest) == [o] + LastOnly(run) + Dedup(rest)
  {
    assert ([o] + run + rest)[1..] == run + rest;
    RunOfConcat(run, rest);
  }

  lemma KeepStrictBlock(o: Item, run: seq<Item>, rest: seq<Item>, ids: set<string>)
    requires Owner(o) && AllResults(run) && !StartsWithResult(rest)
    ensures KeepStrict([o] + run + rest, ids) == [o] + Owned(run, CallIds(o.calls)) + KeepStrict(rest, {})
    ensures DisplacedIds([o] + run + rest, ids) == []
            <==> Owned(run, CallIds(o.calls)) == run && DisplacedIds(rest, {}) == []
  {
    assert ([o] + run + rest)[1..] == run + rest;
    KeepStrictOfRun(run, rest, CallIds(o.calls));
  }

  lemma BackfillBlock(o: Item, run: seq<Item>, rest: seq<Item>, reason: DanglingReason)
    requires Owner(o) && AllResults(run) && !StartsWithResult(rest)
    ensures Backfill([o] + run + rest, reason)
            == [o] + (run + Missing(o.calls, IdsOf(run), reason)) + Backfill(rest, reason)
  {
    assert ([o] + run + rest)[1..] == run + rest;
    RunOfConcat(run, rest);
  }

  lemma RepairBlock(o: Item, run: seq<Item>, rest: seq<Item>)
    requires Owner(o) && AllResults(run) && !StartsWithResult(rest)
    ensures Repair([o] + run + rest) == [o] + RepairRun(o.calls, run) + Repair(rest)
  {
    var last, d := LastOnly(run), Dedup(rest);
    var kept, k := Owned(last, CallIds(o.calls)), KeepStrict(d, {});
    assert Dedup([o] + run + rest) == [o] + last + d by { DedupBlock(o, run, rest); }
    assert !StartsWithResult(d) by { DedupHead(rest); }
    assert KeepStrict([o] + last + d, {}) == [o] + kept + k by { KeepStrictBlock(o, last, d, {}); }
    assert !StartsWithResult(k) by { KeepStrictHead(d); }
    BackfillBlock(o, kept, k, REPAIR_REASON);
  }

  lemma BlockOf(s: seq<Item>)
    requires s != []
    ensures s == [s[0]] + Run(s[1..]) + AfterRun(s[1..]) && s == [s[0]] + s[1..]
  {
  }

  lemma RepairBlockOf(s: seq<Item>)
    requires s != [] && Owner(s[0])
    ensures Repair(s) == [s[0]] + RepairRun(s[0].calls, Run(s[1..])) + Repair(AfterRun(s[1..]))
  {
    BlockOf(s);
    RepairBlock(s[0], Run(s[1..]), AfterRun(s[1..]));
  }

  lemma RepairOther(x: Item, rest: seq<Item>)
    requires !Owner(x)
    ensures Repair([x] + rest) == if x.ToolResult? then Repair(rest) else [x] + Repair(rest)
  {
    var d := Dedup(rest);
    assert ([x] + rest)[1..] == rest && ([x] + d)[1..] == d;
    assert Dedup([x] + rest) == [x] + d;
    assert RunAfter(x, {}) == {} by { if x.Assistant? { assert CallIds(x.calls) == {}; } }
    var k := KeepStrict(d, {});
    assert ([x] + k)[1..] == k;
  }

  lemma {:induction false} RepairIsBlockwise(s: seq<Item>)
    ensures Repair(s) == RepairBlocks(s)
    decreases |s|
  {
    if s == [] {
    } else if Owner(s[0]) {
      RepairIsBlockwise(AfterRun(s[1..]));
      RepairBlockOf(s);
    } else {
      RepairIsBlockwise(s[1..]);
      RepairOther(s[0], s[1..]);
      BlockOf(s);
    }
  }

  // ----- Validity, block by block -----

  ghost predicate ValidBlocks(s: seq<Item>)
    decreases |s|
  {
    || s == []
    || (Owner(s[0]) && WellAnswered(s[0].calls, Run(s[1..])) && ValidBlocks(AfterRun(s[1..])))
    || (!Owner(s[0]) && !s[0].ToolResult? && ValidBlocks(s[1..]))
  }

  lemma ForOwnersSplit(a: seq<Item>, s: seq<Item>, p: (seq<ToolCall>, seq<Item>) -> bool)
    requires a != [] && forall k :: 1 <= k < |a| ==> !Owner(a[k])
    ensures ForOwners(a + s, p) <==> ForOwners(s, p) && OwnerSatisfies(a + s, 0, p)
  {
    var t := a + s;
    forall i: nat | i < |s| ensures OwnerSatisfies(t, |a| + i, p) <==> OwnerSatisfies(s, i, p) {
      assert t[|a| + i..][1..] == t[|a| + i + 1..] && s[i..][1..] == s[i + 1..];
      assert t[|a| + i..] == s[i..];
    }
    if ForOwners(s, p) && OwnerSatisfies(t, 0, p) {
      forall i: nat | i < |t| ensures OwnerSatisfies(t, i, p) {
        if |a| <= i { assert OwnerSatisfies(s, i - |a|, p); }
      }
    }
    if ForOwners(t, p) {
      forall i: nat | i < |s| ensures OwnerSatisfies(s, i, p) {
        assert OwnerSatisfies(t, |a| + i, p);
      }
    }
  }

  lemma ForOwnersBlock(s: seq<Item>, p: (seq<ToolCall>, seq<Item>) -> bool)
    requires s != [] && Owner(s[0])
    ensures ForOwners(s, p) <==> p(s[0].calls, Run(s[1..])) && ForOwners(AfterRun(s[1..]), p)
  {
    var a := [s[0]] + Run(s[1..]);
    assert s == a + AfterRun(s[1..]);
    ForOwnersSplit(a, AfterRun(s[1..]), p);
  }

  lemma ForOwnersOther(s: seq<Item>, p: (seq<ToolCall>, seq<Item>) -> bool)
    requires s != [] && !Owner(s[0])
    ensures ForOwners(s, p) <==> ForOwners(s[1..], p)
  {
    assert s == [s[0]] + s[1..];
    ForOwnersSplit([s[0]], s[1..], p);
  }

  lemma {:induction false} ValidBlocksMeans(s: seq<Item>)
    ensures ValidBlocks(s) <==> DisplacedIds(s, {}) == [] && ForOwners(s, AnsweredOnce)
    decreases |s|
  {
    if s == [] {
    } else if Owner(s[0]) {
      var run, rest := Run(s[1..]), AfterRun(s[1..]);
      assert s == [s[0]] + run + rest;
      ValidBlocksMeans(rest);
      KeepStrictBlock(s[0], run, rest, {});
      OwnedIds(run, CallIds(s[0].calls));
      ForOwnersBlock(s, AnsweredOnce);
    } else {
      ValidBlocksMeans(s[1..]);
      ForOwnersOther(s, AnsweredOnce);
      if s[0].Assistant? { assert CallIds(s[0].calls) == {}; }
    }
  }

  lemma ValidIffBlocks(s: seq<Item>)
    ensures ProviderValid(s) <==> ValidBlocks(s)
  {
    StrictIffNothingDisplaced(s);
    ValidBlocksMeans(s);
  }

  lemma BlockParts(o: Item, run: seq<Item>, rest: seq<Item>)
    requires Owner(o) && AllResults(run) && !StartsWithResult(rest)
    ensures Run(([o] + run + rest)[1..]) == run && AfterRun(([o] + run + rest)[1..]) == rest
  {
    assert ([o] + run + rest)[1..] == run + rest;
    RunOfConcat(run, rest);
  }

  lemma SameBlocksIff(o: Item, run: seq<Item>, rest: seq<Item>, run': seq<Item>, rest': seq<Item>)
    requires AllResults(run) && AllResults(run') && !StartsWithResult(rest) && !StartsWithResult(rest')
    ensures [o] + run + rest == [o] + run' + rest' <==> run == run' && rest == rest'
  {
    if [o] + run + rest == [o] + run' + rest' {
      assert run + rest == ([o] + run + rest)[1..] == ([o] + run' + rest')[1..] == run' + rest';
      RunSplitUnique(run, rest, run', rest');
    }
  }

  lemma {:induction false} FixedIffValidBlocks(s: seq<Item>)
    ensures RepairBlocks(s) == s <==> ValidBlocks(s)
    decreases |s|
  {
    if s == [] {
    } else if Owner(s[0]) {
      var run, rest := Run(s[1..]), AfterRun(s[1..]);
      FixedIffValidBlocks(rest);
      RepairRunFixed(s[0].calls, run);
      BlockOf(s);
      SameBlocksIff(s[0], RepairRun(s[0].calls, run), RepairBlocks(rest), run, rest);
    } else {
      FixedIffValidBlocks(s[1..]);
      BlockOf(s);
    }
  }

  lemma {:induction false} RepairedValidIff(s: seq<Item>)
    ensures ValidBlocks(RepairBlocks(s)) <==> RepeatedCallsAnswered(s)
    decreases |s|
  {
    if s == [] {
    } else if Owner(s[0]) {
      var run, rest := Run(s[1..]), AfterRun(s[1..]);
      var run', rest' := RepairRun(s[0].calls, run), RepairBlocks(rest);
      RepairedValidIff(rest);
      RepairRunAnswers(s[0].calls, run);
      ForOwnersBlock(s, RepeatsAnsweredIn);
      BlockParts(s[0], run', rest');
      assert RepairBlocks(s) == [s[0]] + run' + rest';
    } else {
      RepairedValidIff(s[1..]);
      ForOwnersOther(s, RepeatsAnsweredIn);
      assert !s[0].ToolResult? ==> ([s[0]] + RepairBlocks(s[1..]))[1..] == RepairBlocks(s[1..]);
    }
  }

  /** Repair leaves a history alone exactly when providers accept it. */
  lemma RepairFixesExactlyInvalid(s: seq<Item>)
    ensures Repair(s) == s <==> ProviderValid(s)
  {
    RepairIsBlockwise(s);
    FixedIffValidBlocks(s);
    ValidIffBlocks(s);
  }

  /** The repaired history is acceptable exactly when no message repeats a call id
      that its run leaves unanswered: each repeat gets its own synthetic result. */
  lemma RepairedIsValidIff(s: seq<Item>)
    ensures ProviderValid(Repair(s)) <==> RepeatedCallsAnswered(s)
  {
    RepairIsBlockwise(s);
    RepairedValidIff(s);
    ValidIffBlocks(Repair(s));
  }

  /** The same condition decides whether repairing twice is repairing once. */
  lemma RepairIdempotentIff(s: seq<Item>)
    ensures Repair(Repair(s)) == Repair(s) <==> RepeatedCallsAnswered(s)
  {
    RepairFixesExactlyInvalid(Repair(s));
    RepairedIsValidIff(s);
  }

  /** One message calling the same id twice, unanswered: the first repair inserts two
      results for it and a second repair takes one back. */
  lemma RepairNotIdempotentWitness()
    ensures var s := [Assistant("", [ToolCall("a", "t", ""), ToolCall("a", "t", "")])];
            Repair(Repair(s)) != Repair(s) && !ProviderValid(Repair(s))
  {
    var calls := [ToolCall("a", "t", ""), ToolCall("a", "t", "")];
    var s := [Assistant("", calls)];
    assert calls[0].id == calls[1].id;
    assert RunAt(s, 0) == [];
    assert !RepeatsAnsweredIn(s[0].calls, RunAt(s, 0));
    assert !OwnerSatisfies(s, 0, RepeatsAnsweredIn);
    RepairIdempotentIff(s);
    RepairedIsValidIff(s);
  }

  // ----- Without the condition: pairing and completeness always hold -----

  ghost predicate AllAnswered(calls: seq<ToolCall>, run: seq<Item>)
  {
    IdsOf(run) == CallIds(calls)
  }

  lemma {:induction false} RepairedAlways(s: seq<Item>)
    ensures DisplacedIds(RepairBlocks(s), {}) == [] && ForOwners(RepairBlocks(s), AllAnswered)
    decreases |s|
  {
    if s == [] {
    } else if Owner(s[0]) {
      var run, rest := Run(s[1..]), AfterRun(s[1..]);
      var run', rest' := RepairRun(s[0].calls, run), RepairBlocks(rest);
      var r := RepairBlocks(s);
      RepairedAlways(rest);
      RepairRunAnswers(s[0].calls, run);
      KeepStrictBlock(s[0], run', rest', {});
      OwnedIds(run', CallIds(s[0].calls));
      BlockParts(s[0], run', rest');
      ForOwnersBlock(r, AllAnswered);
    } else {
      RepairedAlways(s[1..]);
      var r := RepairBlocks(s);
      if !s[0].ToolResult? {
        assert r[1..] == RepairBlocks(s[1..]);
        ForOwnersOther(r, AllAnswered);
        if s[0].Assistant? { assert CallIds(s[0].calls) == {}; }
      }
    }
  }

  /** After repair every result follows its owner and every call is answered,
      whatever the history was. */
  lemma RepairPairsAndAnswers(s: seq<Item>)
    ensures StrictHistory(Repair(s)) && ForOwners(Repair(s), AllAnswered)
    ensures InvalidIds(Repair(s), {}) == []
  {
    RepairIsBlockwise(s);
    RepairedAlways(s);
    StrictIffNothingDisplaced(Repair(s));
    StrictIsLenient(Repair(s));
  }
}
