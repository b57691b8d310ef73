/** The provider invariant: a tool result follows the assistant message that
    called for it. The strict form wants it in the contiguous run right after its
    owner; the lenient form wants the owner anywhere before. */
module Pairing {
  import opened Conversation

  // ----- The invariant, by positions -----

  ghost predicate OwnsAt(items: seq<Item>, o: int, i: int)
  {
    && 0 <= o < i < |items|
    && items[i].ToolResult? && items[o].Assistant?
    && items[i].callId in CallIds(items[o].calls)
  }

  ghost predicate StrictlyPaired(items: seq<Item>, i: int)
  {
    exists o :: OwnsAt(items, o, i) && forall k :: o < k < i ==> items[k].ToolResult?
  }

  ghost predicate LenientlyPaired(items: seq<Item>, i: int)
  {
    exists o :: OwnsAt(items, o, i)
  }

  ghost predicate StrictHistory(items: seq<Item>)
  {
    forall i :: 0 <= i < |items| && items[i].ToolResult? ==> StrictlyPaired(items, i)
  }

  ghost predicate LenientHistory(items: seq<Item>)
  {
    forall i :: 0 <= i < |items| && items[i].ToolResult? ==> LenientlyPaired(items, i)
  }

  /** The positions `i..` of `items` that `keep` accepts, in order. */
  ghost function Select(items: seq<Item>, keep: int -> bool, i: nat): seq<Item>
    requires i <= |items|
    decreases |items| - i
  {
    if i == |items| then []
    else
      var rest := Select(items, keep, i + 1);
      if keep(i) then [items[i]] + rest else rest
  }

  ghost function ResultIds(items: seq<Item>): seq<string>
  {
    if items == [] then []
    else
      var rest := ResultIds(items[1..]);
      if items[0].ToolResult? then [items[0].callId] + rest else rest
  }

  // ----- The scans -----

  /** The ids a result may answer once `x` has been passed. */
  function RunAfter(x: Item, run: set<string>): set<string>
  {
    match x
    case Assistant(_, calls) => CallIds(calls)
    case ToolResult(_, _, _) => run
    case _ => {}
  }

  /** All ids called for once `x` has been passed. */
  function SeenAfter(x: Item, seen: set<string>): set<string>
  {
    if x.Assistant? then seen + CallIds(x.calls) else seen
  }

  function KeepStrict(items: seq<Item>, run: set<string>): seq<Item>
  {
    if items == [] then []
    else
      var rest := KeepStrict(items[1..], RunAfter(items[0], run));
      if items[0].ToolResult? && items[0].callId !in run then rest else [items[0]] + rest
  }

  function DisplacedIds(items: seq<Item>, run: set<string>): seq<string>
  {
    if items == [] then []
    else
      var rest := DisplacedIds(items[1..], RunAfter(items[0], run));
      if items[0].ToolResult? && items[0].callId !in run then [items[0].callId] + rest else rest
  }

  function KeepLenient(items: seq<Item>, seen: set<string>): seq<Item>
  {
    if items == [] then []
    else
      var rest := KeepLenient(items[1..], SeenAfter(items[0], seen));
      if items[0].ToolResult? && items[0].callId !in seen then rest else [items[0]] + rest
  }

  function InvalidIds(items: seq<Item>, seen: set<string>): seq<string>
  {
    if items == [] then []
    else
      var rest := InvalidIds(items[1..], SeenAfter(items[0], seen));
      if items[0].ToolResult? && items[0].callId !in seen then [items[0].callId] + rest else rest
  }

  method ValidateCompactedHistory(items: seq<Item>) returns (invalid: seq<string>)
    ensures invalid == InvalidIds(items, {})
  {
    var seen: set<string> := {};
    invalid := [];
    for i := 0 to |items|
      invariant InvalidIds(items, {}) == invalid + InvalidIds(items[i..], seen)
    {
      assert items[i..][1..] == items[i + 1..];
      match items[i] {
        case Assistant(_, calls) => seen := seen + CallIds(calls);
        case ToolResult(id, _, _) =>
          if id !in seen {
            invalid := invalid + [id];
          }
        case _ =>
      }
    }
  }

  lemma LenientStep(items: seq<Item>, i: nat, seen: set<string>)
    requires i < |items|
    ensures var x, rest := items[i], KeepLenient(items[i + 1..], SeenAfter(items[i], seen));
            KeepLenient(items[i..], seen) == if x.ToolResult? && x.callId !in seen then rest else [x] + rest
    ensures var x, rest := items[i], InvalidIds(items[i + 1..], SeenAfter(items[i], seen));
            InvalidIds(items[i..], seen) == if x.ToolResult? && x.callId !in seen then [x.callId] + rest else rest
  {
    assert items[i..][1..] == items[i + 1..];
  }

  method SanitizeCompactedHistory(items: seq<Item>) returns (kept: seq<Item>, stripped: seq<string>)
    ensures kept == KeepLenient(items, {}) && stripped == InvalidIds(items, {})
  {
    var seen: set<string> := {};
    kept, stripped := [], [];
    for i := 0 to |items|
      invariant KeepLenient(items, {}) == kept + KeepLenient(items[i..], seen)
      invariant InvalidIds(items, {}) == stripped + InvalidIds(items[i..], seen)
    {
      LenientStep(items, i, seen);
      var x := items[i];
      ghost var keptRest := KeepLenient(items[i + 1..], SeenAfter(x, seen));
      ghost var idRest := InvalidIds(items[i + 1..], SeenAfter(x, seen));
      assert kept + ([x] + keptRest) == (kept + [x]) + keptRest;
      match x {
        case Assistant(_, calls) =>
          seen := seen + CallIds(calls);
          kept := kept + [x];
        case ToolResult(id, _, _) =>
          if id in seen {
            kept := kept + [x];
          } else {
            assert stripped + ([id] + idRest) == (stripped + [id]) + idRest;
            stripped := stripped + [id];
          }
        case _ => kept := kept + [x];
      }
    }
  }

  // ----- The scans decide the positional invariant -----

  /** What the strict scan has collected before position `i`. */
  ghost function RunBefore(items: seq<Item>, i: nat): set<string>
    requires i <= |items|
  {
    if i == 0 then {} else RunAfter(items[i - 1], RunBefore(items, i - 1))
  }

  ghost function SeenBefore(items: seq<Item>, i: nat): set<string>
    requires i <= |items|
  {
    if i == 0 then {} else SeenAfter(items[i - 1], SeenBefore(items, i - 1))
  }

  /** An owner of `id` with nothing but results up to position `i`. */
  ghost predicate OpenOwner(items: seq<Item>, i: nat, id: string, o: int)
    requires i <= |items|
  {
    && 0 <= o < i && items[o].Assistant? && id in CallIds(items[o].calls)
    && forall k :: o < k < i ==> items[k].ToolResult?
  }

  lemma {:induction false} RunBeforeMeans(items: seq<Item>, i: nat, id: string)
    requires i <= |items|
    ensures id in RunBefore(items, i) <==> exists o :: OpenOwner(items, i, id, o)
  {
    if i > 0 {
      RunBeforeMeans(items, i - 1, id);
      var j: nat := i - 1;
      var last := items[j];
      if last.Assistant? {
        if id in CallIds(last.calls) { assert OpenOwner(items, i, id, j); }
      } else if last.ToolResult? {
        if o :| OpenOwner(items, j, id, o) { assert OpenOwner(items, i, id, o); }
        if o :| OpenOwner(items, i, id, o) { assert OpenOwner(items, j, id, o); }
      }
    }
  }

  lemma {:induction false} SeenBeforeMeans(items: seq<Item>, i: nat, id: string)
    requires i <= |items|
    ensures id in SeenBefore(items, i)
            <==> exists o :: 0 <= o < i && items[o].Assistant? && id in CallIds(items[o].calls)
  {
    if i > 0 { SeenBeforeMeans(items, i - 1, id); }
  }

  lemma StrictlyPairedIffInRun(items: seq<Item>, i: nat)
    requires i < |items| && items[i].ToolResult?
    ensures StrictlyPaired(items, i) <==> items[i].callId in RunBefore(items, i)
  {
    var id := items[i].callId;
    RunBeforeMeans(items, i, id);
    if o :| OpenOwner(items, i, id, o) { assert OwnsAt(items, o, i); }
    if o :| OwnsAt(items, o, i) && forall k :: o < k < i ==> items[k].ToolResult? {
      assert OpenOwner(items, i, id, o);
    }
  }

  lemma LenientlyPairedIffSeen(items: seq<Item>, i: nat)
    requires i < |items| && items[i].ToolResult?
    ensures LenientlyPaired(items, i) <==> items[i].callId in SeenBefore(items, i)
  {
    SeenBeforeMeans(items, i, items[i].callId);
    if o :| 0 <= o < i && items[o].Assistant? && items[i].callId in CallIds(items[o].calls) {
      assert OwnsAt(items, o, i);
    }
  }

  ghost predicate KeptByStrict(items: seq<Item>, i: int)
  {
    0 <= i < |items| && (items[i].ToolResult? ==> StrictlyPaired(items, i))
  }

  ghost predicate KeptByLenient(items: seq<Item>, i: int)
  {
    0 <= i < |items| && (items[i].ToolResult? ==> LenientlyPaired(items, i))
  }

  lemma {:induction false} KeepStrictSelects(items: seq<Item>, i: nat)
    requires i <= |items|
    ensures KeepStrict(items[i..], RunBefore(items, i)) == Select(items, k => KeptByStrict(items, k), i)
    ensures DisplacedIds(items[i..], RunBefore(items, i))
            == ResultIds(Select(items, k => !KeptByStrict(items, k), i))
    decreases |items| - i
  {
    if i < |items| {
      assert items[i..][1..] == items[i + 1..];
      KeepStrictSelects(items, i + 1);
      var dropped := Select(items, k => !KeptByStrict(items, k), i + 1);
      assert ([items[i]] + dropped)[1..] == dropped;
      if items[i].ToolResult? { StrictlyPairedIffInRun(items, i); }
    }
  }

  lemma {:induction false} KeepLenientSelects(items: seq<Item>, i: nat)
    requires i <= |items|
    ensures KeepLenient(items[i..], SeenBefore(items, i)) == Select(items, k => KeptByLenient(items, k), i)
    ensures InvalidIds(items[i..], SeenBefore(items, i))
            == ResultIds(Select(items, k => !KeptByLenient(items, k), i))
    decreases |items| - i
  {
    if i < |items| {
      assert items[i..][1..] == items[i + 1..];
      KeepLenientSelects(items, i + 1);
      var dropped := Select(items, k => !KeptByLenient(items, k), i + 1);
      assert ([items[i]] + dropped)[1..] == dropped;
      if items[i].ToolResult? { LenientlyPairedIffSeen(items, i); }
    }
  }

  /** The strict pass keeps exactly the strictly paired results, in order, with
      every other item, and reports the ids of the rest. */
  lemma StrictPassKeepsExactlyPaired(items: seq<Item>)
    ensures KeepStrict(items, {}) == Select(items, k => KeptByStrict(items, k), 0)
    ensures DisplacedIds(items, {}) == ResultIds(Select(items, k => !KeptByStrict(items, k), 0))
  {
    KeepStrictSelects(items, 0);
    assert items[0..] == items;
  }

  lemma LenientPassKeepsExactlyPaired(items: seq<Item>)
    ensures KeepLenient(items, {}) == Select(items, k => KeptByLenient(items, k), 0)
    ensures InvalidIds(items, {}) == ResultIds(Select(items, k => !KeptByLenient(items, k), 0))
  {
    KeepLenientSelects(items, 0);
    assert items[0..] == items;
  }

  // ----- Histories that need no stripping -----

  lemma {:induction false} NothingDisplacedIff(items: seq<Item>, i: nat)
    requires i <= |items|
    ensures DisplacedIds(items[i..], RunBefore(items, i)) == []
            <==> forall k :: i <= k < |items| && items[k].ToolResult? ==> StrictlyPaired(items, k)
    decreases |items| - i
  {
    if i < |items| {
      assert items[i..][1..] == items[i + 1..];
      NothingDisplacedIff(items, i + 1);
      if items[i].ToolResult? { StrictlyPairedIffInRun(items, i); }
    }
  }

  lemma StrictIffNothingDisplaced(items: seq<Item>)
    ensures StrictHistory(items) <==> DisplacedIds(items, {}) == []
  {
    NothingDisplacedIff(items, 0);
    assert items[0..] == items;
  }

  lemma {:induction false} NothingInvalidIff(items: seq<Item>, i: nat)
    requires i <= |items|
    ensures InvalidIds(items[i..], SeenBefore(items, i)) == []
            <==> forall k :: i <= k < |items| && items[k].ToolResult? ==> LenientlyPaired(items, k)
    decreases |items| - i
  {
    if i < |items| {
      assert items[i..][1..] == items[i + 1..];
      NothingInvalidIff(items, i + 1);
      if items[i].ToolResult? { LenientlyPairedIffSeen(items, i); }
    }
  }

  /** `validate` reports nothing exactly when every result has an owner before it. */
  lemma ValidIffLenient(items: seq<Item>)
    ensures LenientHistory(items) <==> InvalidIds(items, {}) == []
  {
    NothingInvalidIff(items, 0);
    assert items[0..] == items;
  }

  lemma StrictIsLenient(items: seq<Item>)
    requires StrictHistory(items)
    ensures LenientHistory(items) && InvalidIds(items, {}) == []
  {
    forall i | 0 <= i < |items| && items[i].ToolResult? ensures LenientlyPaired(items, i) {
      assert StrictlyPaired(items, i);
    }
    ValidIffLenient(items);
  }

  lemma {:induction false} KeepStrictFixed(items: seq<Item>, run: set<string>)
    ensures DisplacedIds(KeepStrict(items, run), run) == []
    ensures DisplacedIds(items, run) == [] <==> KeepStrict(items, run) == items
    ensures |KeepStrict(items, run)| + |DisplacedIds(items, run)| == |items|
  {
    if items != [] {
      var rest := KeepStrict(items[1..], RunAfter(items[0], run));
      KeepStrictFixed(items[1..], RunAfter(items[0], run));
      assert ([items[0]] + rest)[1..] == rest;
      assert items == [items[0]] + items[1..];
    }
  }

  lemma {:induction false} KeepLenientFixed(items: seq<Item>, seen: set<string>)
    ensures InvalidIds(KeepLenient(items, seen), seen) == []
    ensures InvalidIds(items, seen) == [] <==> KeepLenient(items, seen) == items
    ensures |KeepLenient(items, seen)| + |InvalidIds(items, seen)| == |items|
  {
    if items != [] {
      var rest := KeepLenient(items[1..], SeenAfter(items[0], seen));
      KeepLenientFixed(items[1..], SeenAfter(items[0], seen));
      assert ([items[0]] + rest)[1..] == rest;
      assert items == [items[0]] + items[1..];
    }
  }

  /** The strict pass repairs every history, leaves strict ones alone, and is idempotent. */
  lemma StrictPassRepairs(items: seq<Item>)
    ensures StrictHistory(KeepStrict(items, {}))
    ensures StrictHistory(items) <==> KeepStrict(items, {}) == items
    ensures KeepStrict(KeepStrict(items, {}), {}) == KeepStrict(items, {})
  {
    KeepStrictFixed(items, {});
    KeepStrictFixed(KeepStrict(items, {}), {});
    StrictIffNothingDisplaced(items);
    StrictIffNothingDisplaced(KeepStrict(items, {}));
  }

  /** The sanitizer leaves a history that validates, changes only invalid ones, and
      finds nothing to do after the strict pass. */
  lemma SanitizerRepairs(items: seq<Item>)
    ensures InvalidIds(KeepLenient(items, {}), {}) == []
    ensures InvalidIds(items, {}) == [] <==> KeepLenient(items, {}) == items
    ensures KeepLenient(KeepStrict(items, {}), {}) == KeepStrict(items, {})
  {
    KeepLenientFixed(items, {});
    StrictPassRepairs(items);
    StrictIsLenient(KeepStrict(items, {}));
    KeepLenientFixed(KeepStrict(items, {}), {});
  }
}
