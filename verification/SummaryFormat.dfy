/** Cleaning the compaction model's raw output into the summary that seeds the
    next turn: drafting scratchpads go, echoed control tokens are defused, blank
    lines are collapsed. */
module SummaryFormat {
  import opened Wrappers
  import opened Text

  const ZERO_WIDTH_SPACE := '\U{200B}'
  const ANALYSIS_OPEN := "<analysis>"
  const ANALYSIS_CLOSE := "</analysis>"
  const SUMMARY_OPEN := "<summary>"
  const SUMMARY_CLOSE := "</summary>"

  /** The control tokens, in the order they are neutralized: closers first. */
  const CONTROL_TOKENS: seq<string> :=
    [SUMMARY_CLOSE, SUMMARY_OPEN, ANALYSIS_CLOSE, ANALYSIS_OPEN, "</summary_request>", "<summary_request>"]

  /** A token is a tag that holds neither the sentinel nor a newline. */
  ghost predicate TokenShaped(q: string)
  {
    TagShaped(q) && ZERO_WIDTH_SPACE !in q && '\n' !in q
  }

  lemma ControlTokensShaped()
    ensures forall q :: q in CONTROL_TOKENS ==> TokenShaped(q)
  {
  }

  /** The text between a `<summary>` and a later `<analysis>` is a valid slice. */
  lemma SummaryEndsBeforeAnalysis(s: string, sp: int, start: int)
    requires OccursAt(s, SUMMARY_OPEN, sp) && OccursAt(s, ANALYSIS_OPEN, start) && sp <= start
    ensures sp + |SUMMARY_OPEN| <= start
  {
    CharOf(s, SUMMARY_OPEN, sp, 1);
    CharOf(s, ANALYSIS_OPEN, start, 1);
    TagsDisjoint(s, SUMMARY_OPEN, ANALYSIS_OPEN, sp, start);
  }

  lemma SummaryTagsDisjoint(s: string, start: nat, end: nat)
    requires OccursAt(s, SUMMARY_OPEN, start) && OccursAt(s, SUMMARY_CLOSE, end) && start < end
    ensures start + |SUMMARY_OPEN| <= end
  {
    TagsDisjoint(s, SUMMARY_OPEN, SUMMARY_CLOSE, start, end);
  }

  // ----- Specification -----

  /** Whether an `<analysis>` at `start` is a leading scratchpad rather than an
      echo inside the body. */
  predicate LeadingAnalysis(s: string, start: nat)
    requires OccursAt(s, ANALYSIS_OPEN, start)
  {
    match Find(s, SUMMARY_OPEN, 0)
    case Some(sp) =>
      start < sp || (
        SummaryEndsBeforeAnalysis(s, sp, start);
        Trim(s[sp + |SUMMARY_OPEN|..start]) == "")
    case None => Trim(s[..start]) == ""
  }

  /** One leading `<analysis>` at `start` is dropped up to its close, or, unclosed,
      up to the next `<summary>`. */
  function CutAnalysis(s: string, start: nat): (r: string)
    requires OccursAt(s, ANALYSIS_OPEN, start)
    ensures Find(s, ANALYSIS_CLOSE, start).Some? ==> |r| < |s|
  {
    match Find(s, ANALYSIS_CLOSE, start)
    case Some(close) => s[..start] + s[close + |ANALYSIS_CLOSE|..]
    case None =>
      s[..start] + match Find(s, SUMMARY_OPEN, start) case Some(to) => s[to..] case None => ""
  }

  function StripAnalysis(s: string): string
    decreases |s|
  {
    match Find(s, ANALYSIS_OPEN, 0)
    case None => s
    case Some(start) =>
      if !LeadingAnalysis(s, start) then s
      else if Find(s, ANALYSIS_CLOSE, start).None? then CutAnalysis(s, start)
      else StripAnalysis(CutAnalysis(s, start))
  }

  predicate IsMarkdownLead(c: char)
  {
    c == '#' || c == '*' || c == '-' || c == '>' || c == ' ' || c == '\t'
  }

  function SkipMarkdownLead(s: string): string
  {
    if s != "" && IsMarkdownLead(s[0]) then SkipMarkdownLead(s[1..]) else s
  }

  /** A body that already starts with a numbered section, markdown decoration aside. */
  predicate LeadsWithDigit(s: string)
  {
    var lead := SkipMarkdownLead(s);
    lead != "" && '0' <= lead[0] <= '9'
  }

  function StripLeadingScratchpad(inner: string): string
  {
    var s := Trim(inner);
    var peeled :=
      if LeadsWithDigit(s) then s
      else match RFind(s, ANALYSIS_CLOSE)
           case Some(pos) => TrimStart(s[pos + |ANALYSIS_CLOSE|..])
           case None => s;
    DropOpening(peeled)
  }

  function DropOpening(s: string): string
  {
    if OccursAt(s, SUMMARY_OPEN, 0) then TrimStart(s[|SUMMARY_OPEN|..]) else s
  }

  /** The text with its block between `start` and `end` rewritten. */
  function Unwrapped(s: string, start: nat, end: nat): string
    requires start + |SUMMARY_OPEN| <= end && end + |SUMMARY_CLOSE| <= |s|
  {
    s[..start] + "Summary:\n" + StripLeadingScratchpad(Trim(s[start + |SUMMARY_OPEN|..end]))
    + s[end + |SUMMARY_CLOSE|..]
  }

  /** The outermost `<summary>` block becomes a plain-text `Summary:` section. */
  function UnwrapSummary(s: string): string
  {
    match (Find(s, SUMMARY_OPEN, 0), RFind(s, SUMMARY_CLOSE))
    case (Some(start), Some(end)) =>
      if end > start then
        SummaryTagsDisjoint(s, start, end);
        Unwrapped(s, start, end)
      else s
    case _ => s
  }

  function Defused(tok: string): string
    requires tok != ""
  {
    [tok[0], ZERO_WIDTH_SPACE] + tok[1..]
  }

  ghost predicate NonEmpty(toks: seq<string>)
  {
    forall k :: 0 <= k < |toks| ==> toks[k] != ""
  }

  function NeutralizeAll(s: string, toks: seq<string>): string
    requires NonEmpty(toks)
    decreases |toks|
  {
    if toks == [] then s
    else NeutralizeAll(Replace(s, toks[0], Defused(toks[0])), toks[1..])
  }

  function Neutralize(s: string): string
  {
    NeutralizeAll(s, CONTROL_TOKENS)
  }

  const BLANK_RUN := "\n\n\n"

  function CollapseBlankLines(s: string): string
    decreases |s|
  {
    if Find(s, BLANK_RUN, 0).None? then s
    else
      ReplaceNotLonger(s, BLANK_RUN, "\n\n");
      CollapseBlankLines(Replace(s, BLANK_RUN, "\n\n"))
  }

  /** The passes over the whole text once the tags have been dealt with. */
  function Finish(s: string): string
  {
    Trim(CollapseBlankLines(Neutralize(s)))
  }

  function FormatSummary(s: string): string
  {
    Finish(UnwrapSummary(StripAnalysis(s)))
  }

  // ----- The loops of the source -----

  method FormatCompactSummary(summary: string) returns (result: string)
    ensures result == FormatSummary(summary)
  {
    result := summary;
    var start := Find(result, ANALYSIS_OPEN, 0);
    ghost var open := true;
    while start.Some? && LeadingAnalysis(result, start.value)
      invariant start == Find(result, ANALYSIS_OPEN, 0) || !open
      invariant open ==> StripAnalysis(result) == StripAnalysis(summary)
      invariant !open ==> start.None? && result == StripAnalysis(summary)
      decreases |result|, start.Some?
    {
      var closed := Find(result, ANALYSIS_CLOSE, start.value).Some?;
      result := CutAnalysis(result, start.value);
      if closed {
        start := Find(result, ANALYSIS_OPEN, 0);
      } else {
        start := None;
        open := false;
      }
    }
    result := Neutralize(UnwrapSummary(result));
    ghost var neutral := result;
    while Find(result, BLANK_RUN, 0).Some?
      invariant CollapseBlankLines(result) == CollapseBlankLines(neutral)
      decreases |result|
    {
      ReplaceNotLonger(result, BLANK_RUN, "\n\n");
      result := Replace(result, BLANK_RUN, "\n\n");
    }
    result := Trim(result);
  }

  // ----- No control token survives -----

  /** Defusing a token neither leaves it behind nor creates another one. */
  lemma {:induction false} DefuseCreatesNothing(s: string, tok: string, q: string, j: int)
    requires TokenShaped(tok) && TokenShaped(q)
    requires OccursAt(Replace(s, tok, Defused(tok)), q, j)
    ensures q != tok && Contains(s, q)
    decreases |s|
  {
    var rep := Defused(tok);
    var r := Replace(s, tok, rep);
    assert r[j..j + |q|][0] == r[j] && r[j..j + |q|][1] == r[j + 1];
    if OccursAt(s, tok, 0) {
      assert forall k :: 0 <= k < |rep| ==> r[k] == rep[k];
      assert forall k :: 1 <= k < |rep| ==> rep[k] != '<';
      OccursInTail(r, |rep|, q, j);
      DefuseCreatesNothing(s[|tok|..], tok, q, j - |rep|);
      DropContains(s, |tok|, q);
    } else if j > 0 {
      OccursInTail(r, 1, q, j);
      DefuseCreatesNothing(s[1..], tok, q, j - 1);
      DropContains(s, 1, q);
    } else {
      var u := q[1..];
      assert u <= Replace(s[1..], tok, rep) by { assert r[1..][..|u|] == r[..|q|][1..]; }
      assert forall c :: c in u ==> exists k :: 1 <= k < |q| && q[k] == c;
      PrefixSurvivesReplace(s[1..], tok, rep, u);
      assert q == [s[0]] + u;
      assert OccursAt(s, q, 0);
    }
  }

  lemma OccursInTail(s: string, n: nat, q: string, j: int)
    requires n <= |s| && n <= j && OccursAt(s, q, j)
    ensures OccursAt(s[n..], q, j - n)
  {
    assert s[n..][j - n..j - n + |q|] == s[j..j + |q|];
  }

  lemma {:induction false} NeutralizeAllClears(s: string, toks: seq<string>, q: string)
    requires TokenShaped(q) && forall k :: 0 <= k < |toks| ==> TokenShaped(toks[k])
    requires q in toks || !Contains(s, q)
    ensures NonEmpty(toks) && !Contains(NeutralizeAll(s, toks), q)
    decreases |toks|
  {
    if toks != [] {
      var next := Replace(s, toks[0], Defused(toks[0]));
      if q !in toks[1..] {
        forall j | OccursAt(next, q, j) ensures false {
          DefuseCreatesNothing(s, toks[0], q, j);
        }
      }
      NeutralizeAllClears(next, toks[1..], q);
    }
  }

  /** Collapsing newlines creates no newline-free token. */
  lemma {:induction false} ShorteningCreatesNothing(s: string, q: string, j: int)
    requires TokenShaped(q) && OccursAt(Replace(s, BLANK_RUN, "\n\n"), q, j)
    ensures Contains(s, q)
    decreases |s|
  {
    var r := Replace(s, BLANK_RUN, "\n\n");
    assert r[j..j + |q|][0] == r[j];
    if OccursAt(s, BLANK_RUN, 0) {
      OccursInTail(r, 2, q, j);
      ShorteningCreatesNothing(s[3..], q, j - 2);
      DropContains(s, 3, q);
    } else if j > 0 {
      OccursInTail(r, 1, q, j);
      ShorteningCreatesNothing(s[1..], q, j - 1);
      DropContains(s, 1, q);
    } else {
      var u := q[1..];
      assert u <= Replace(s[1..], BLANK_RUN, "\n\n") by { assert r[1..][..|u|] == r[..|q|][1..]; }
      assert forall c :: c in u ==> exists k :: 1 <= k < |q| && q[k] == c;
      PrefixSurvivesReplace(s[1..], BLANK_RUN, "\n\n", u);
      assert q == [s[0]] + u;
      assert OccursAt(s, q, 0);
    }
  }

  lemma {:induction false} CollapseCreatesNothing(s: string, q: string)
    requires TokenShaped(q) && !Contains(s, q)
    ensures !Contains(CollapseBlankLines(s), q)
    decreases |s|
  {
    if Find(s, BLANK_RUN, 0).Some? {
      ReplaceNotLonger(s, BLANK_RUN, "\n\n");
      var next := Replace(s, BLANK_RUN, "\n\n");
      forall j | OccursAt(next, q, j) ensures false {
        ShorteningCreatesNothing(s, q, j);
      }
      CollapseCreatesNothing(next, q);
    }
  }

  lemma {:induction false} CollapseClears(s: string)
    ensures !Contains(CollapseBlankLines(s), BLANK_RUN)
    decreases |s|
  {
    if Find(s, BLANK_RUN, 0).Some? {
      ReplaceNotLonger(s, BLANK_RUN, "\n\n");
      CollapseClears(Replace(s, BLANK_RUN, "\n\n"));
    }
  }

  /** What every cleaned summary satisfies. */
  ghost predicate Clean(s: string)
  {
    && (forall q :: q in CONTROL_TOKENS ==> !Contains(s, q))
    && !Contains(s, BLANK_RUN)
    && Trimmed(s)
  }

  lemma FinishIsClean(s: string)
    ensures Clean(Finish(s))
  {
    ControlTokensShaped();
    var neutral := Neutralize(s);
    var collapsed := CollapseBlankLines(neutral);
    forall q | q in CONTROL_TOKENS ensures !Contains(Trim(collapsed), q) {
      NeutralizeAllClears(s, CONTROL_TOKENS, q);
      CollapseCreatesNothing(neutral, q);
      if Contains(Trim(collapsed), q) { TrimContains(collapsed, q); }
    }
    CollapseClears(neutral);
    if Contains(Trim(collapsed), BLANK_RUN) { TrimContains(collapsed, BLANK_RUN); }
  }

  /** Whatever the model wrote, the cleaned summary carries no control token, no
      run of three newlines and no surrounding whitespace. */
  lemma FormatIsClean(s: string)
    ensures Clean(FormatSummary(s))
  {
    FinishIsClean(UnwrapSummary(StripAnalysis(s)));
  }

  lemma {:induction false} NeutralizeAllNoop(s: string, toks: seq<string>)
    requires forall k :: 0 <= k < |toks| ==> toks[k] != "" && !Contains(s, toks[k])
    ensures NeutralizeAll(s, toks) == s
    decreases |toks|
  {
    if toks != [] {
      ReplaceAbsent(s, toks[0], Defused(toks[0]));
      NeutralizeAllNoop(s, toks[1..]);
    }
  }

  lemma NeutralizeNoop(s: string)
    requires forall q :: q in CONTROL_TOKENS ==> !Contains(s, q)
    ensures Neutralize(s) == s
  {
    ControlTokensShaped();
    var toks := CONTROL_TOKENS;
    assert forall k :: 0 <= k < |toks| ==> toks[k] in toks;
    NeutralizeAllNoop(s, toks);
  }

  lemma CleanSurvivesFinish(s: string)
    requires Clean(s)
    ensures Finish(s) == s
  {
    NeutralizeNoop(s);
    assert CollapseBlankLines(s) == s;
    TrimTrimmed(s);
  }

  lemma UntaggedSurvivesStripping(s: string)
    requires !Contains(s, ANALYSIS_OPEN) && !Contains(s, SUMMARY_OPEN)
    ensures UnwrapSummary(StripAnalysis(s)) == s
  {
  }

  /** A clean text passes through unchanged, so cleaning is idempotent. */
  lemma CleanIsFixed(s: string)
    requires Clean(s)
    ensures FormatSummary(s) == s
  {
    assert ANALYSIS_OPEN in CONTROL_TOKENS && SUMMARY_OPEN in CONTROL_TOKENS;
    UntaggedSurvivesStripping(s);
    CleanSurvivesFinish(s);
  }

  lemma FormatIdempotent(s: string)
    ensures FormatSummary(FormatSummary(s)) == FormatSummary(s)
  {
    FormatIsClean(s);
    CleanIsFixed(FormatSummary(s));
  }

  // ----- What the stripping keeps and drops -----

  lemma NoCloseInsideOpen(s: string, i: int, j: int)
    requires OccursAt(s, ANALYSIS_OPEN, i) && OccursAt(s, ANALYSIS_CLOSE, j) && i <= j
    ensures i + |ANALYSIS_OPEN| <= j
  {
    CharOf(s, ANALYSIS_OPEN, i, 1);
    CharOf(s, ANALYSIS_CLOSE, j, 1);
    TagsDisjoint(s, ANALYSIS_OPEN, ANALYSIS_CLOSE, i, j);
  }

  lemma CloseFromOpen(s: string, start: nat, close: nat)
    requires OccursAt(s, ANALYSIS_OPEN, start)
    requires start + |ANALYSIS_OPEN| <= |s| && Find(s, ANALYSIS_CLOSE, start + |ANALYSIS_OPEN|) == Some(close)
    ensures Find(s, ANALYSIS_CLOSE, start) == Some(close)
  {
    forall j | start <= j < close ensures !OccursAt(s, ANALYSIS_CLOSE, j) {
      if OccursAt(s, ANALYSIS_CLOSE, j) { NoCloseInsideOpen(s, start, j); }
    }
    FindIs(s, ANALYSIS_CLOSE, start, close);
  }

  lemma CutIs(s: string, start: nat, close: nat)
    requires OccursAt(s, ANALYSIS_OPEN, start) && Find(s, ANALYSIS_CLOSE, start) == Some(close)
    ensures CutAnalysis(s, start) == s[..start] + s[close + |ANALYSIS_CLOSE|..]
  {
  }

  /** A closed scratchpad, the first `<analysis>`, is cut out. */
  lemma ScratchpadCut(s: string, start: nat)
    requires Find(s, ANALYSIS_OPEN, 0) == Some(start) && LeadingAnalysis(s, start)
    requires Find(s, ANALYSIS_CLOSE, start).Some?
    ensures StripAnalysis(s) == StripAnalysis(CutAnalysis(s, start))
  {
  }

  /** Where a block between an opening and a close sits in the whole text. */
  lemma BlockPieces(pre: string, open: string, body: string, close: string, post: string)
    ensures var s := pre + open + body + close + post; var start := |pre| + |open|; var end := start + |body|;
            && OccursAt(s, open, |pre|) && OccursAt(s, close, end)
            && s[..|pre|] == s[0..|pre|] == pre && s[start..end] == body && s[end + |close|..] == post
            && start <= end <= |s|
  {
  }

  /** A leading scratchpad is dropped whole, whatever stands around it: the text before
      and after is all that counts. */
  lemma LeadingScratchpadDropped(pre: string, a: string, t: string)
    requires !Contains(pre, ANALYSIS_OPEN) && !Contains(a, ANALYSIS_CLOSE)
    requires var s := pre + ANALYSIS_OPEN + a + ANALYSIS_CLOSE + t;
             OccursAt(s, ANALYSIS_OPEN, |pre|) && LeadingAnalysis(s, |pre|)
    ensures FormatSummary(pre + ANALYSIS_OPEN + a + ANALYSIS_CLOSE + t) == FormatSummary(pre + t)
  {
    var s := pre + ANALYSIS_OPEN + a + ANALYSIS_CLOSE + t;
    BlockPieces(pre, ANALYSIS_OPEN, a, ANALYSIS_CLOSE, t);
    ScratchpadFound(s, |pre|, |pre| + |ANALYSIS_OPEN| + |a|);
    ScratchpadCut(s, |pre|);
  }

  lemma ScratchpadFound(s: string, start: nat, close: nat)
    requires OccursAt(s, ANALYSIS_OPEN, start) && OccursAt(s, ANALYSIS_CLOSE, close) && start + |ANALYSIS_OPEN| <= close
    requires !Contains(s[0..start], ANALYSIS_OPEN) && !Contains(s[start + |ANALYSIS_OPEN|..close], ANALYSIS_CLOSE)
    ensures Find(s, ANALYSIS_OPEN, 0) == Some(start) && Find(s, ANALYSIS_CLOSE, start) == Some(close)
    ensures CutAnalysis(s, start) == s[..start] + s[close + |ANALYSIS_CLOSE|..]
  {
    FirstTag(s, 0, start, ANALYSIS_OPEN);
    CloseFound(s, start, close);
    CutIs(s, start, close);
  }

  lemma CloseFound(s: string, start: nat, close: nat)
    requires OccursAt(s, ANALYSIS_OPEN, start) && OccursAt(s, ANALYSIS_CLOSE, close) && start + |ANALYSIS_OPEN| <= close
    requires !Contains(s[start + |ANALYSIS_OPEN|..close], ANALYSIS_CLOSE)
    ensures Find(s, ANALYSIS_CLOSE, start) == Some(close)
  {
    FirstTag(s, start + |ANALYSIS_OPEN|, close, ANALYSIS_CLOSE);
    CloseFromOpen(s, start, close);
  }

  lemma NonBlankTrims(t: string, k: nat)
    requires k < |t| && !IsWhitespace(t[k])
    ensures Trim(t) != ""
  {
    assert TrimStart(t) != "";
  }

  lemma NumberedLeadIsNoTag(s: string)
    requires LeadsWithDigit(s)
    ensures s != "" && s[0] != '<'
  {
  }

  lemma NumberedLeadUntouched(inner: string)
    requires Trimmed(inner) && LeadsWithDigit(inner)
    ensures StripLeadingScratchpad(inner) == inner
  {
    TrimTrimmed(inner);
    NumberedLeadIsNoTag(inner);
    if OccursAt(inner, SUMMARY_OPEN, 0) { TagStarts(inner, SUMMARY_OPEN, 0); }
  }

  lemma EchoNotLeading(s: string, sp: nat, start: nat)
    requires Find(s, SUMMARY_OPEN, 0) == Some(sp) && OccursAt(s, ANALYSIS_OPEN, start)
    requires sp + |SUMMARY_OPEN| <= start && Trim(s[sp + |SUMMARY_OPEN|..start]) != ""
    ensures !LeadingAnalysis(s, start)
  {
  }

  lemma LastTag(s: string, end: nat, tag: string)
    requires TagShaped(tag) && OccursAt(s, tag, end) && !Contains(s[end + |tag|..], tag)
    ensures RFind(s, tag) == Some(end)
  {
    forall j | end < j ensures !OccursAt(s, tag, j) {
      if OccursAt(s, tag, j) {
        TagsDisjoint(s, tag, tag, end, j);
        OccursInTail(s, end + |tag|, tag, j);
      }
    }
  }

  lemma TagBefore(s: string, p: string, q: string, i: int, j: nat)
    requires TagShaped(p) && TagShaped(q) && OccursAt(s, p, i) && OccursAt(s, q, j) && i < j
    ensures Contains(s[0..j], p)
  {
    TagsDisjoint(s, p, q, i, j);
    OccursInside(s, 0, j, p, i);
  }

  lemma AnalysisBehind(s: string, sp: nat, start: nat)
    requires OccursAt(s, SUMMARY_OPEN, sp) && OccursAt(s, ANALYSIS_OPEN, start) && !Contains(s[0..sp], ANALYSIS_OPEN)
    ensures sp + |SUMMARY_OPEN| <= start
  {
    if start < sp { TagBefore(s, ANALYSIS_OPEN, SUMMARY_OPEN, start, sp); }
    SummaryEndsBeforeAnalysis(s, sp, start);
  }

  lemma NotLeadingStays(s: string)
    requires Find(s, ANALYSIS_OPEN, 0).Some? ==> !LeadingAnalysis(s, Find(s, ANALYSIS_OPEN, 0).value)
    ensures StripAnalysis(s) == s
  {
  }

  lemma BlockUnwraps(s: string, start: nat, end: nat)
    requires Find(s, SUMMARY_OPEN, 0) == Some(start) && RFind(s, SUMMARY_CLOSE) == Some(end) && start < end
    ensures start + |SUMMARY_OPEN| <= end && UnwrapSummary(s) == Unwrapped(s, start, end)
  {
    SummaryTagsDisjoint(s, start, end);
  }

  lemma OccursAsSlice(s: string, pat: string, i: nat, end: nat)
    requires OccursAt(s, pat, i) && end == i + |pat|
    ensures i <= end <= |s| && s[i..end] == pat
  {
  }

  lemma FinishedFrom(s: string, t: string)
    requires UnwrapSummary(StripAnalysis(s)) == t
    ensures FormatSummary(s) == Finish(t)
  {
  }

  // ----- What is left of every block -----

  /** What a trimmed body loses: nothing behind a numbered lead; otherwise everything up to
      the last `</analysis>`, and one `<summary>` it then starts with. */
  ghost predicate Peels(t: string, r: string)
  {
    && (LeadsWithDigit(t) ==> r == t)
    && (!LeadsWithDigit(t) && !Contains(t, ANALYSIS_CLOSE) ==> Opens(t, r))
    && forall x, y :: !LeadsWithDigit(t) && t == x + ANALYSIS_CLOSE + y && !Contains(y, ANALYSIS_CLOSE)
                      ==> Opens(TrimStart(y), r)
  }

  ghost predicate Opens(t: string, r: string)
  {
    if OccursAt(t, SUMMARY_OPEN, 0) then r == TrimStart(t[|SUMMARY_OPEN|..]) else r == t
  }

  lemma PeelsLead(t: string)
    requires Trimmed(t)
    ensures Peels(t, StripLeadingScratchpad(t))
  {
    TrimTrimmed(t);
    if LeadsWithDigit(t) { NumberedLeadUntouched(t); }
    forall x, y | !LeadsWithDigit(t) && t == x + ANALYSIS_CLOSE + y && !Contains(y, ANALYSIS_CLOSE)
      ensures Opens(TrimStart(y), StripLeadingScratchpad(t))
    {
      LastClose(t, x, y);
      PeeledAt(t, |x|, y);
    }
    if !LeadsWithDigit(t) && !Contains(t, ANALYSIS_CLOSE) { NothingPeeled(t); }
  }

  lemma LastClose(t: string, x: string, y: string)
    requires t == x + ANALYSIS_CLOSE + y && !Contains(y, ANALYSIS_CLOSE)
    ensures RFind(t, ANALYSIS_CLOSE) == Some(|x|) && t[|x| + |ANALYSIS_CLOSE|..] == y
  {
    assert t[|x|..|x| + |ANALYSIS_CLOSE|] == ANALYSIS_CLOSE && t[|x| + |ANALYSIS_CLOSE|..] == y;
    LastTag(t, |x|, ANALYSIS_CLOSE);
  }

  lemma PeeledAt(t: string, pos: nat, y: string)
    requires Trim(t) == t && !LeadsWithDigit(t) && RFind(t, ANALYSIS_CLOSE) == Some(pos)
    requires t[pos + |ANALYSIS_CLOSE|..] == y
    ensures Opens(TrimStart(y), StripLeadingScratchpad(t))
  {
    assert StripLeadingScratchpad(t) == DropOpening(TrimStart(y));
  }

  lemma NothingPeeled(t: string)
    requires Trim(t) == t && !LeadsWithDigit(t) && !Contains(t, ANALYSIS_CLOSE)
    ensures Opens(t, StripLeadingScratchpad(t))
  {
    assert StripLeadingScratchpad(t) == DropOpening(t);
  }

  lemma {:induction false} SkippedLead(s: string)
    ensures LeadsWithDigit(s)
            <==> exists k :: 0 <= k < |s| && '0' <= s[k] <= '9' && forall j :: 0 <= j < k ==> s[j] in "#*-> \t"
  {
    if s != "" && IsMarkdownLead(s[0]) {
      var t := s[1..];
      SkippedLead(t);
      assert s[0] in "#*-> \t";
      assert LeadsWithDigit(s) <==> LeadsWithDigit(t);
      if k :| 0 <= k < |t| && '0' <= t[k] <= '9' && forall j :: 0 <= j < k ==> t[j] in "#*-> \t" {
        assert '0' <= s[k + 1] <= '9' && forall j :: 0 <= j < k + 1 ==> s[j] in "#*-> \t";
      }
      if k :| 0 <= k < |s| && '0' <= s[k] <= '9' && forall j :: 0 <= j < k ==> s[j] in "#*-> \t" {
        assert k > 0 && t[k - 1] == s[k] && forall j :: 0 <= j < k - 1 ==> t[j] == s[j + 1];
      }
    }
  }

  /** A first `<analysis>` is not leading when the block's body has other text in front of it. */
  lemma BodyNotLeading(s: string, sp: nat, body: string, start: nat)
    requires Find(s, SUMMARY_OPEN, 0) == Some(sp) && OccursAt(s, body, sp + |SUMMARY_OPEN|)
    requires OccursAt(s, SUMMARY_CLOSE, sp + |SUMMARY_OPEN| + |body|)
    requires !OccursAt(Trim(body), ANALYSIS_OPEN, 0)
    requires sp + |SUMMARY_OPEN| <= start && OccursAt(s, ANALYSIS_OPEN, start)
    ensures !LeadingAnalysis(s, start)
  {
    TextInFront(s, sp + |SUMMARY_OPEN|, body, start);
    EchoNotLeading(s, sp, start);
  }

  lemma TextInFront(s: string, from: nat, body: string, start: nat)
    requires OccursAt(s, body, from) && OccursAt(s, SUMMARY_CLOSE, from + |body|)
    requires !OccursAt(Trim(body), ANALYSIS_OPEN, 0)
    requires from <= start && OccursAt(s, ANALYSIS_OPEN, start)
    ensures Trim(s[from..start]) != ""
  {
    var end := from + |body|;
    if end <= start {
      TagsApart(s, end, start);
      CharOf(s, SUMMARY_CLOSE, end, 0);
      NonBlankTrims(s[from..start], end - from);
    } else if Trim(s[from..start]) == "" {
      BlankUpTo(s, from, body, start);
      TrimsToAnalysis(body, start - from);
    }
  }

  lemma TagsApart(s: string, end: nat, start: nat)
    requires OccursAt(s, SUMMARY_CLOSE, end) && OccursAt(s, ANALYSIS_OPEN, start) && end <= start
    ensures end < start
  {
    CharOf(s, SUMMARY_CLOSE, end, 1);
    CharOf(s, ANALYSIS_OPEN, start, 1);
  }

  lemma BlankUpTo(s: string, from: nat, body: string, start: nat)
    requires OccursAt(s, body, from) && OccursAt(s, SUMMARY_CLOSE, from + |body|)
    requires from <= start < from + |body| && OccursAt(s, ANALYSIS_OPEN, start) && Trim(s[from..start]) == ""
    ensures OccursAt(body, ANALYSIS_OPEN, start - from) && Trim(body[..start - from]) == ""
  {
    TagsDisjoint(s, ANALYSIS_OPEN, SUMMARY_CLOSE, start, from + |body|);
    OccursInside(s, from, from + |body|, ANALYSIS_OPEN, start);
    assert s[from..from + |body|] == body;
    assert s[from..start] == body[..start - from];
  }

  lemma TrimsToAnalysis(body: string, n: nat)
    requires OccursAt(body, ANALYSIS_OPEN, n) && Trim(body[..n]) == ""
    ensures OccursAt(Trim(body), ANALYSIS_OPEN, 0)
  {
    CharOf(body, ANALYSIS_OPEN, n, 0);
    BlankFront(body, n);
    OccursInTail(body, n, ANALYSIS_OPEN, n);
    KeepsFront(body[n..], ANALYSIS_OPEN);
  }

  lemma BlankFront(t: string, n: nat)
    requires n < |t| && Trim(t[..n]) == "" && !IsWhitespace(t[n])
    ensures TrimStart(t) == t[n..]
  {
    assert TrimStart(t[..n]) == "";
    assert forall k :: 0 <= k < n ==> t[..n][k] == t[k];
  }

  lemma KeepsFront(t: string, tag: string)
    requires tag != "" && OccursAt(t, tag, 0) && !IsWhitespace(tag[|tag| - 1])
    ensures OccursAt(TrimEnd(t), tag, 0)
  {
    var r := TrimEnd(t);
    CharOf(t, tag, 0, |tag| - 1);
    assert |r| >= |tag|;
    assert r[0..|tag|] == t[0..|tag|];
  }

  lemma BlockStays(s: string, sp: nat, body: string)
    requires OccursAt(s, SUMMARY_OPEN, sp) && OccursAt(s, body, sp + |SUMMARY_OPEN|)
    requires OccursAt(s, SUMMARY_CLOSE, sp + |SUMMARY_OPEN| + |body|)
    requires !Contains(s[0..sp], SUMMARY_OPEN) && !Contains(s[0..sp], ANALYSIS_OPEN)
    requires !OccursAt(Trim(body), ANALYSIS_OPEN, 0)
    ensures Find(s, SUMMARY_OPEN, 0) == Some(sp) && StripAnalysis(s) == s
  {
    FirstTag(s, 0, sp, SUMMARY_OPEN);
    var found := Find(s, ANALYSIS_OPEN, 0);
    if found.Some? {
      AnalysisBehind(s, sp, found.value);
      BodyNotLeading(s, sp, body, found.value);
    }
    NotLeadingStays(s);
  }

  lemma UnwrapsAround(s: string, sp: nat, body: string, end: nat)
    requires Find(s, SUMMARY_OPEN, 0) == Some(sp) && OccursAt(s, body, sp + |SUMMARY_OPEN|)
    requires end == sp + |SUMMARY_OPEN| + |body| && RFind(s, SUMMARY_CLOSE) == Some(end)
    ensures end + |SUMMARY_CLOSE| <= |s|
    ensures UnwrapSummary(s) == s[..sp] + "Summary:\n" + StripLeadingScratchpad(Trim(body)) + s[end + |SUMMARY_CLOSE|..]
  {
    BlockUnwraps(s, sp, end);
    OccursAsSlice(s, body, sp + |SUMMARY_OPEN|, end);
    UnwrappedWith(s, sp, end, StripLeadingScratchpad(Trim(body)));
  }

  lemma UnwrappedWith(s: string, start: nat, end: nat, kept: string)
    requires start + |SUMMARY_OPEN| <= end && end + |SUMMARY_CLOSE| <= |s|
    requires kept == StripLeadingScratchpad(Trim(s[start + |SUMMARY_OPEN|..end]))
    ensures Unwrapped(s, start, end) == s[..start] + "Summary:\n" + kept + s[end + |SUMMARY_CLOSE|..]
  {
  }

  /** Every summary block that does not start with a scratchpad keeps its body, less what
      `Peels` says, whatever stands around it. */
  lemma SummaryBlockKept(pre: string, body: string, post: string) returns (kept: string)
    requires !Contains(pre, SUMMARY_OPEN) && !Contains(pre, ANALYSIS_OPEN) && !Contains(post, SUMMARY_CLOSE)
    requires !OccursAt(Trim(body), ANALYSIS_OPEN, 0)
    ensures Peels(Trim(body), kept)
    ensures FormatSummary(pre + SUMMARY_OPEN + body + SUMMARY_CLOSE + post) == Finish(pre + "Summary:\n" + kept + post)
  {
    var s, end := pre + SUMMARY_OPEN + body + SUMMARY_CLOSE + post, |pre| + |SUMMARY_OPEN| + |body|;
    kept := StripLeadingScratchpad(Trim(body));
    PeelsLead(Trim(body));
    BlockPieces(pre, SUMMARY_OPEN, body, SUMMARY_CLOSE, post);
    LastTag(s, end, SUMMARY_CLOSE);
    BlockStays(s, |pre|, body);
    UnwrapsAround(s, |pre|, body, end);
    FinishedFrom(s, pre + "Summary:\n" + kept + post);
  }

  /** A body that leads with a numbered section stays whole, whatever tags a later section
      quotes and whatever stands around the block. */
  lemma NumberedSummaryKept(pre: string, body: string, post: string)
    requires !Contains(pre, SUMMARY_OPEN) && !Contains(pre, ANALYSIS_OPEN) && !Contains(post, SUMMARY_CLOSE)
    requires LeadsWithDigit(Trim(body))
    ensures FormatSummary(pre + SUMMARY_OPEN + body + SUMMARY_CLOSE + post)
            == Finish(pre + "Summary:\n" + Trim(body) + post)
  {
    NumberedLeadIsNoTag(Trim(body));
    if OccursAt(Trim(body), ANALYSIS_OPEN, 0) { TagStarts(Trim(body), ANALYSIS_OPEN, 0); }
    var kept := SummaryBlockKept(pre, body, post);
  }

  // ----- Which scratchpad leads, and an unclosed one -----

  /** The first `<summary>` of `pre` stands between `p` and `q`. */
  ghost predicate OpensBetween(pre: string, p: string, q: string)
  {
    pre == p + SUMMARY_OPEN + q && !Contains(p, SUMMARY_OPEN)
  }

  /** Whether the first `<analysis>`, behind `pre` and before `t`, leads: with no summary
      opened yet, when one follows or nothing but blanks stand before; otherwise when only
      blanks stand between. */
  lemma LeadsIff(pre: string, t: string)
    requires !Contains(pre, ANALYSIS_OPEN)
    ensures OccursAt(pre + ANALYSIS_OPEN + t, ANALYSIS_OPEN, |pre|)
    ensures !Contains(pre, SUMMARY_OPEN)
            ==> (LeadingAnalysis(pre + ANALYSIS_OPEN + t, |pre|) <==> Contains(t, SUMMARY_OPEN) || Trim(pre) == "")
    ensures forall p, q :: OpensBetween(pre, p, q) ==> (LeadingAnalysis(pre + ANALYSIS_OPEN + t, |pre|) <==> Trim(q) == "")
  {
    var s := pre + ANALYSIS_OPEN + t;
    assert s[|pre|..|pre| + |ANALYSIS_OPEN|] == ANALYSIS_OPEN;
    if !Contains(pre, SUMMARY_OPEN) { LeadsUnopened(s, pre, t); }
    forall p, q | OpensBetween(pre, p, q)
      ensures LeadingAnalysis(s, |pre|) <==> Trim(q) == ""
    {
      LeadsOpened(s, p, q, t);
    }
  }

  lemma LeadsUnopened(s: string, pre: string, t: string)
    requires s == pre + ANALYSIS_OPEN + t && !Contains(pre, SUMMARY_OPEN) && OccursAt(s, ANALYSIS_OPEN, |pre|)
    ensures LeadingAnalysis(s, |pre|) <==> Contains(t, SUMMARY_OPEN) || Trim(pre) == ""
  {
    var from := |pre| + |ANALYSIS_OPEN|;
    assert s[..|pre|] == s[0..|pre|] == pre && s[from..] == t;
    forall i ensures OccursAt(s, SUMMARY_OPEN, i) ==> from <= i && OccursAt(t, SUMMARY_OPEN, i - from) {
      if OccursAt(s, SUMMARY_OPEN, i) { SummaryBehind(s, |pre|, i); OccursInTail(s, from, SUMMARY_OPEN, i); }
    }
    if i :| OccursAt(t, SUMMARY_OPEN, i) {
      assert s[from + i..from + i + |SUMMARY_OPEN|] == t[i..i + |SUMMARY_OPEN|];
      assert OccursAt(s, SUMMARY_OPEN, from + i);
    }
    LeadingByFirst(s, |pre|);
  }

  lemma SummaryBehind(s: string, start: nat, i: int)
    requires OccursAt(s, ANALYSIS_OPEN, start) && OccursAt(s, SUMMARY_OPEN, i) && !Contains(s[0..start], SUMMARY_OPEN)
    ensures start + |ANALYSIS_OPEN| <= i
  {
    if i < start { TagBefore(s, SUMMARY_OPEN, ANALYSIS_OPEN, i, start); }
    CharOf(s, SUMMARY_OPEN, i, 1);
    CharOf(s, ANALYSIS_OPEN, start, 1);
    TagsDisjoint(s, ANALYSIS_OPEN, SUMMARY_OPEN, start, i);
  }

  lemma LeadingByFirst(s: string, start: nat)
    requires OccursAt(s, ANALYSIS_OPEN, start)
    ensures var first := Find(s, SUMMARY_OPEN, 0);
            && (first.None? ==> (LeadingAnalysis(s, start) <==> Trim(s[..start]) == ""))
            && (first.Some? && start < first.value ==> LeadingAnalysis(s, start))
            && (first.Some? && first.value <= start ==>
                  first.value + |SUMMARY_OPEN| <= start
                  && (LeadingAnalysis(s, start) <==> Trim(s[first.value + |SUMMARY_OPEN|..start]) == ""))
  {
    var first := Find(s, SUMMARY_OPEN, 0);
    if first.Some? && first.value <= start { SummaryEndsBeforeAnalysis(s, first.value, start); }
  }

  lemma LeadsOpened(s: string, p: string, q: string, t: string)
    requires s == (p + SUMMARY_OPEN + q) + ANALYSIS_OPEN + t && !Contains(p, SUMMARY_OPEN)
    requires OccursAt(s, ANALYSIS_OPEN, |p + SUMMARY_OPEN + q|)
    ensures LeadingAnalysis(s, |p + SUMMARY_OPEN + q|) <==> Trim(q) == ""
  {
    var start, from := |p + SUMMARY_OPEN + q|, |p| + |SUMMARY_OPEN|;
    assert s[|p|..from] == SUMMARY_OPEN && s[0..|p|] == p && s[from..start] == q;
    FirstTag(s, 0, |p|, SUMMARY_OPEN);
    LeadingByFirst(s, start);
  }

  /** An unclosed leading scratchpad takes everything up to the next `<summary>` with it, or
      all the rest. */
  lemma UnclosedScratchpadDropped(pre: string, a: string, t: string)
    requires !Contains(pre, ANALYSIS_OPEN) && !Contains(a + t, ANALYSIS_CLOSE)
    requires OccursAt(pre + ANALYSIS_OPEN + (a + t), ANALYSIS_OPEN, |pre|)
    requires LeadingAnalysis(pre + ANALYSIS_OPEN + (a + t), |pre|)
    requires !Contains(a, SUMMARY_OPEN) && (t == "" || OccursAt(t, SUMMARY_OPEN, 0))
    ensures FormatSummary(pre + ANALYSIS_OPEN + (a + t)) == Finish(UnwrapSummary(pre + t))
  {
    var s := pre + ANALYSIS_OPEN + (a + t);
    UnclosedCut(s, pre, a, t);
    FirstAnalysis(s, pre, a + t);
    assert StripAnalysis(s) == CutAnalysis(s, |pre|);
  }

  lemma FirstAnalysis(s: string, pre: string, rest: string)
    requires s == pre + ANALYSIS_OPEN + rest && !Contains(pre, ANALYSIS_OPEN) && OccursAt(s, ANALYSIS_OPEN, |pre|)
    ensures Find(s, ANALYSIS_OPEN, 0) == Some(|pre|)
  {
    assert s[0..|pre|] == pre;
    FirstTag(s, 0, |pre|, ANALYSIS_OPEN);
  }

  lemma NoCloseBehind(s: string, start: nat, rest: string)
    requires OccursAt(s, ANALYSIS_OPEN, start) && start + |ANALYSIS_OPEN| <= |s|
    requires s[start + |ANALYSIS_OPEN|..] == rest && !Contains(rest, ANALYSIS_CLOSE)
    ensures Find(s, ANALYSIS_CLOSE, start) == None
  {
    forall j | start <= j ensures !OccursAt(s, ANALYSIS_CLOSE, j) {
      if OccursAt(s, ANALYSIS_CLOSE, j) {
        NoCloseInsideOpen(s, start, j);
        OccursInTail(s, start + |ANALYSIS_OPEN|, ANALYSIS_CLOSE, j);
      }
    }
  }

  lemma UnclosedCut(s: string, pre: string, a: string, t: string)
    requires s == pre + ANALYSIS_OPEN + (a + t) && OccursAt(s, ANALYSIS_OPEN, |pre|) && !Contains(a + t, ANALYSIS_CLOSE)
    requires !Contains(a, SUMMARY_OPEN) && (t == "" || OccursAt(t, SUMMARY_OPEN, 0))
    ensures Find(s, ANALYSIS_CLOSE, |pre|) == None && CutAnalysis(s, |pre|) == pre + t
  {
    var from := |pre| + |ANALYSIS_OPEN|;
    var to := from + |a|;
    assert s[..|pre|] == pre && s[from..] == a + t && s[from..to] == a && s[to..] == t;
    NoCloseBehind(s, |pre|, a + t);
    if t == "" {
      assert a + t == a && pre + t == pre;
      NoSummaryBehind(s, |pre|, a);
    } else {
      assert s[to..to + |SUMMARY_OPEN|] == t[0..|SUMMARY_OPEN|];
      NextSummary(s, |pre|, to);
    }
  }

  lemma NoSummaryBehind(s: string, start: nat, rest: string)
    requires OccursAt(s, ANALYSIS_OPEN, start) && start + |ANALYSIS_OPEN| <= |s|
    requires s[start + |ANALYSIS_OPEN|..] == rest && !Contains(rest, SUMMARY_OPEN)
    ensures Find(s, SUMMARY_OPEN, start) == None
  {
    forall j | start <= j ensures !OccursAt(s, SUMMARY_OPEN, j) {
      if OccursAt(s, SUMMARY_OPEN, j) {
        NoSummaryInOpen(s, start, j);
        OccursInTail(s, start + |ANALYSIS_OPEN|, SUMMARY_OPEN, j);
      }
    }
  }

  lemma NoSummaryInOpen(s: string, i: int, j: int)
    requires OccursAt(s, ANALYSIS_OPEN, i) && OccursAt(s, SUMMARY_OPEN, j) && i <= j
    ensures i + |ANALYSIS_OPEN| <= j
  {
    CharOf(s, ANALYSIS_OPEN, i, 1);
    CharOf(s, SUMMARY_OPEN, j, 1);
    TagsDisjoint(s, ANALYSIS_OPEN, SUMMARY_OPEN, i, j);
  }

  lemma NextSummary(s: string, start: nat, to: nat)
    requires OccursAt(s, ANALYSIS_OPEN, start) && OccursAt(s, SUMMARY_OPEN, to) && start + |ANALYSIS_OPEN| <= to
    requires !Contains(s[start + |ANALYSIS_OPEN|..to], SUMMARY_OPEN)
    ensures Find(s, SUMMARY_OPEN, start) == Some(to)
  {
    var from := start + |ANALYSIS_OPEN|;
    FirstTag(s, from, to, SUMMARY_OPEN);
    forall j | start <= j < to ensures !OccursAt(s, SUMMARY_OPEN, j) {
      if OccursAt(s, SUMMARY_OPEN, j) { NoSummaryInOpen(s, start, j); }
    }
    FindIs(s, SUMMARY_OPEN, start, to);
  }

  /** Without a scratchpad and without a whole summary block nothing is cut. */
  lemma PlainTextKept(s: string)
    requires !Contains(s, ANALYSIS_OPEN) && (!Contains(s, SUMMARY_OPEN) || !Contains(s, SUMMARY_CLOSE))
    ensures FormatSummary(s) == Finish(s)
  {
    NotLeadingStays(s);
    FinishedFrom(s, s);
  }

  // ----- What the last passes keep -----

  /** The text as it reads: zero-width spaces aside. */
  function Visible(s: string): string
  {
    if s == "" then ""
    else if s[0] == ZERO_WIDTH_SPACE then Visible(s[1..])
    else [s[0]] + Visible(s[1..])
  }

  lemma {:induction false} VisibleConcat(a: string, b: string)
    ensures Visible(a + b) == Visible(a) + Visible(b)
  {
    if a == "" {
      assert a + b == b;
    } else {
      assert (a + b)[1..] == a[1..] + b;
      VisibleConcat(a[1..], b);
    }
  }

  lemma DefusedReadsSame(tok: string)
    requires TokenShaped(tok)
    ensures Visible(Defused(tok)) == Visible(tok)
  {
    var tail := tok[1..];
    assert tok == [tok[0]] + tail && Defused(tok) == [tok[0]] + ([ZERO_WIDTH_SPACE] + tail);
    VisibleConcat([tok[0]], tail);
    VisibleConcat([tok[0]], [ZERO_WIDTH_SPACE] + tail);
    assert ([ZERO_WIDTH_SPACE] + tail)[1..] == tail;
  }

  lemma {:induction false} ReplaceReadsSame(s: string, tok: string)
    requires TokenShaped(tok)
    ensures Visible(Replace(s, tok, Defused(tok))) == Visible(s)
    decreases |s|
  {
    if s == "" {
    } else if OccursAt(s, tok, 0) {
      var rest := s[|tok|..];
      assert s == tok + rest;
      ReplaceReadsSame(rest, tok);
      DefusedReadsSame(tok);
      VisibleConcat(tok, rest);
      VisibleConcat(Defused(tok), Replace(rest, tok, Defused(tok)));
    } else {
      var rest := s[1..];
      assert s == [s[0]] + rest;
      ReplaceReadsSame(rest, tok);
      VisibleConcat([s[0]], rest);
      VisibleConcat([s[0]], Replace(rest, tok, Defused(tok)));
    }
  }

  lemma {:induction false} NeutralizeAllReadsSame(s: string, toks: seq<string>)
    requires forall k :: 0 <= k < |toks| ==> TokenShaped(toks[k])
    ensures NonEmpty(toks) && Visible(NeutralizeAll(s, toks)) == Visible(s)
    decreases |toks|
  {
    if toks != [] {
      ReplaceReadsSame(s, toks[0]);
      NeutralizeAllReadsSame(Replace(s, toks[0], Defused(toks[0])), toks[1..]);
    }
  }

  /** Neutralizing adds zero-width spaces and changes nothing else. */
  lemma NeutralizeReadsSame(s: string)
    ensures Visible(Neutralize(s)) == Visible(s)
  {
    ControlTokensShaped();
    assert forall k :: 0 <= k < |CONTROL_TOKENS| ==> CONTROL_TOKENS[k] in CONTROL_TOKENS;
    NeutralizeAllReadsSame(s, CONTROL_TOKENS);
  }

  /** In one scan: newlines beyond the second of a row are left out; `n` stand before `s`. */
  function Squeezed(s: string, n: nat): string
  {
    if s == "" then ""
    else if s[0] != '\n' then [s[0]] + Squeezed(s[1..], 0)
    else if n >= 2 then Squeezed(s[1..], n)
    else "\n" + Squeezed(s[1..], n + 1)
  }

  lemma SqueezedRun(rest: string, n: nat)
    requires n <= 2
    ensures Squeezed("\n\n\n" + rest, n) == Squeezed("\n\n" + rest, n)
    ensures Squeezed("\n\n" + rest, n) == (if n == 0 then "\n\n" else if n == 1 then "\n" else "") + Squeezed(rest, 2)
  {
    var three, two, one := "\n\n\n" + rest, "\n\n" + rest, "\n" + rest;
    assert three[1..] == two && two[1..] == one && one[1..] == rest;
    assert Squeezed(one, 2) == Squeezed(rest, 2);
    assert Squeezed(two, 2) == Squeezed(rest, 2);
    assert Squeezed(one, 1) == "\n" + Squeezed(rest, 2);
  }

  lemma {:induction false} ReplaceSqueezesSame(s: string, n: nat)
    requires n <= 2
    ensures Squeezed(Replace(s, BLANK_RUN, "\n\n"), n) == Squeezed(s, n)
    decreases |s|
  {
    if s == "" {
    } else if OccursAt(s, BLANK_RUN, 0) {
      var rest := s[3..];
      assert s == "\n\n\n" + rest;
      ReplaceSqueezesSame(rest, 2);
      SqueezedRun(rest, n);
      SqueezedRun(Replace(rest, BLANK_RUN, "\n\n"), n);
    } else {
      var rest := Replace(s[1..], BLANK_RUN, "\n\n");
      assert ([s[0]] + rest)[1..] == rest;
      ReplaceSqueezesSame(s[1..], if s[0] != '\n' then 0 else if n == 2 then 2 else n + 1);
    }
  }

  lemma {:induction false} SqueezedIsFixed(s: string, n: nat)
    requires n <= 2 && !Contains(s, BLANK_RUN)
    requires n == 1 ==> !OccursAt(s, "\n\n", 0)
    requires n == 2 ==> !OccursAt(s, "\n", 0)
    ensures Squeezed(s, n) == s
    decreases |s|
  {
    if s != "" {
      var t := s[1..];
      DropKeepsAbsent(s, 1, BLANK_RUN);
      if s[0] != '\n' {
        SqueezedIsFixed(t, 0);
      } else {
        assert n < 2 by { assert s[0..1] == "\n"; }
        if OccursAt(t, if n == 0 then "\n\n" else "\n", 0) { RunInFront(s, n); }
        SqueezedIsFixed(t, n + 1);
      }
    }
  }

  lemma RunInFront(s: string, n: nat)
    requires n <= 1 && s != "" && s[0] == '\n' && OccursAt(s[1..], if n == 0 then "\n\n" else "\n", 0)
    ensures if n == 0 then Contains(s, BLANK_RUN) else OccursAt(s, "\n\n", 0)
  {
    if n == 0 {
      assert s[0..3] == [s[0]] + s[1..][0..2] == BLANK_RUN;
      assert OccursAt(s, BLANK_RUN, 0);
    } else {
      assert s[0..2] == [s[0]] + s[1..][0..1] == "\n\n";
    }
  }

  /** The newline loop leaves what one scan that keeps two newlines of every row leaves. */
  lemma {:induction false} CollapseIsSqueezed(s: string)
    ensures CollapseBlankLines(s) == Squeezed(s, 0)
    decreases |s|
  {
    if Find(s, BLANK_RUN, 0).None? {
      SqueezedIsFixed(s, 0);
    } else {
      ReplaceNotLonger(s, BLANK_RUN, "\n\n");
      CollapseIsSqueezed(Replace(s, BLANK_RUN, "\n\n"));
      ReplaceSqueezesSame(s, 0);
    }
  }
}
