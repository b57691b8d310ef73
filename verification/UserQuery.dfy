/** Extracting what the user typed from a message that carries runtime metadata. */
module UserQuery {
  import opened Wrappers
  import opened Text
  import opened Conversation

  const QUERY_OPEN := "<user_query>"
  const QUERY_CLOSE := "</user_query>"

  const SYSTEM_TAGS: seq<string> := [
    "user_info", "project_layout", "git_status", "fork-context", "system-reminder", "agent-memory",
    "system_reminder", "background_context", "command-name", "command-message", "command-args"]

  const AUTO_CONTINUE_SENTINEL := "__auto_continue__"

  const AUTO_CONTINUE_PROMPT :=
    "Continue the conversation from where it left off without asking the user any further questions. Resume directly - do not acknowledge the summary, do not recap what was happening, do not preface with \"I'll continue\" or similar.\nPick up the last task as if the break never happened."

  function OpenTag(tag: string): string { "<" + tag + ">" }

  function CloseTag(tag: string): string { "</" + tag + ">" }

  /** The text without its first block, if it has one. */
  function WithoutBlock(s: string, open: string, close: string): (r: Option<string>)
    requires close != ""
    ensures r.Some? ==> |r.value| < |s|
  {
    match Find(s, open, 0)
    case None => None
    case Some(start) =>
      match Find(s, close, start)
      case None => None
      case Some(end) => Some(s[..start] + s[end + |close|..])
  }

  /** Removes every block from an opening to the close after it; stops at the first
      opening without a close. */
  function StripBlocks(s: string, open: string, close: string): (r: string)
    requires close != ""
    ensures |r| <= |s|
    decreases |s|
  {
    match WithoutBlock(s, open, close)
    case None => s
    case Some(rest) => StripBlocks(rest, open, close)
  }

  function StripTag(s: string, tag: string): (r: string)
    ensures |r| <= |s|
  {
    StripBlocks(s, OpenTag(tag), CloseTag(tag))
  }

  function StripTags(s: string, tags: seq<string>): (r: string)
    ensures |r| <= |s|
    decreases |tags|, |s|
  {
    if tags == [] then s else StripTags(StripTag(s, tags[0]), tags[1..])
  }

  function StripSystemTags(s: string): (r: string)
    ensures |r| <= |s| && Trimmed(r)
  {
    Trim(StripTags(s, SYSTEM_TAGS))
  }

  method StripBlocksLoop(text: string, open: string, close: string) returns (result: string)
    requires close != ""
    ensures result == StripBlocks(text, open, close)
  {
    result := text;
    while true
      invariant StripBlocks(result, open, close) == StripBlocks(text, open, close)
      decreases |result|
    {
      var start := Find(result, open, 0);
      if start.None? {
        return;
      }
      var end := Find(result, close, start.value);
      if end.None? {
        return;
      }
      result := result[..start.value] + result[end.value + |close|..];
    }
  }

  method StripTagsLoop(text: string, tags: seq<string>) returns (result: string)
    ensures result == Trim(StripTags(text, tags))
  {
    result := text;
    for i := 0 to |tags|
      invariant StripTags(result, tags[i..]) == StripTags(text, tags)
    {
      assert tags[i..][1..] == tags[i + 1..];
      result := StripBlocksLoop(result, OpenTag(tags[i]), CloseTag(tags[i]));
    }
    result := Trim(result);
  }

  method StripSystemTagsLoop(text: string) returns (result: string)
    ensures result == StripSystemTags(text)
  {
    result := StripTagsLoop(text, SYSTEM_TAGS);
  }

  /** What lies between the first opening and the first close behind it. */
  function Between(text: string, open: string, close: string): Option<string>
  {
    match Find(text, open, 0)
    case None => None
    case Some(start) =>
      match Find(text, close, start + |open|)
      case None => None
      case Some(end) => Some(text[start + |open|..end])
  }

  /** What lies between the query tags, or the whole text without them. */
  function QueryPart(text: string): (r: string)
  {
    match Between(text, QUERY_OPEN, QUERY_CLOSE)
    case None => text
    case Some(inner) => Trim(inner)
  }

  function ExtractUserQuery(text: string): string
  {
    StripSystemTags(QueryPart(text))
  }

  function WrapUserQuery(text: string): string
  {
    QUERY_OPEN + "\n" + text + "\n" + QUERY_CLOSE
  }

  predicate IsSyntheticQuery(text: string)
  {
    text == "" || text == AUTO_CONTINUE_SENTINEL || text == AUTO_CONTINUE_PROMPT
  }

  /** A user message that anchors the compaction boundary. */
  predicate IsRealUserTurn(x: Item)
  {
    && x.User?
    && x.synthetic.None?
    && ((exists k :: 0 <= k < |x.content| && x.content[k].ImagePart?)
        || !IsSyntheticQuery(ExtractUserQuery(PartsText(x.content))))
  }

  // ----- One tag at a time -----

  /** No opening is followed by a close. */
  ghost predicate NoBlock(s: string, open: string, close: string)
  {
    forall i, j :: i <= j && OccursAt(s, open, i) ==> !OccursAt(s, close, j)
  }

  lemma {:induction false} StripTagLeavesNoBlock(s: string, tag: string)
    ensures NoBlock(StripTag(s, tag), OpenTag(tag), CloseTag(tag))
  {
    StripLeavesNoBlock(s, OpenTag(tag), CloseTag(tag));
  }

  lemma UnclosedHasNoBlock(s: string, open: string, close: string)
    requires var start := Find(s, open, 0); start.None? || Find(s, close, start.value).None?
    ensures NoBlock(s, open, close)
  {
    forall i, j | i <= j && OccursAt(s, open, i) ensures !OccursAt(s, close, j) {
      assert Find(s, open, 0).value <= i;
    }
  }

  lemma {:induction false} StripLeavesNoBlock(s: string, open: string, close: string)
    requires close != ""
    ensures NoBlock(StripBlocks(s, open, close), open, close)
    decreases |s|
  {
    var rest := WithoutBlock(s, open, close);
    if rest.None? {
      UnclosedHasNoBlock(s, open, close);
    } else {
      StripLeavesNoBlock(rest.value, open, close);
    }
  }

  // ----- Stripping again -----

  /** No system tag opens with its close behind it. */
  ghost predicate NoTagBlocks(s: string)
  {
    forall k :: 0 <= k < |SYSTEM_TAGS| ==> NoBlock(s, OpenTag(SYSTEM_TAGS[k]), CloseTag(SYSTEM_TAGS[k]))
  }

  lemma StripTagFixedIff(s: string, tag: string)
    ensures StripTag(s, tag) == s <==> NoBlock(s, OpenTag(tag), CloseTag(tag))
    ensures |StripTag(s, tag)| == |s| <==> StripTag(s, tag) == s
  {
    var open, close := OpenTag(tag), CloseTag(tag);
    var start := Find(s, open, 0);
    if start.Some? {
      var end := Find(s, close, start.value);
      if end.Some? {
        assert OccursAt(s, open, start.value) && OccursAt(s, close, end.value);
      } else {
        UnclosedHasNoBlock(s, open, close);
      }
    }
  }

  lemma {:induction false} StripTagsFixedIff(s: string, tags: seq<string>)
    ensures StripTags(s, tags) == s <==> forall k :: 0 <= k < |tags| ==> NoBlock(s, OpenTag(tags[k]), CloseTag(tags[k]))
    ensures |StripTags(s, tags)| == |s| <==> StripTags(s, tags) == s
    decreases |tags|
  {
    if tags != [] {
      StripTagFixedIff(s, tags[0]);
      if StripTag(s, tags[0]) == s {
        StripTagsFixedIff(s, tags[1..]);
        assert forall k :: 1 <= k < |tags| ==> tags[k] == tags[1..][k - 1];
      }
    }
  }

  /** Stripping leaves exactly the trimmed texts without a tag block as they are. */
  lemma StrippedFixedIff(q: string)
    ensures StripSystemTags(q) == q <==> Trimmed(q) && NoTagBlocks(q)
  {
    StripTagsFixedIff(q, SYSTEM_TAGS);
  }

  /** So an extracted query is stable exactly when no block is left in it. */
  lemma ExtractedStableIff(text: string)
    ensures var q := ExtractUserQuery(text); StripSystemTags(q) == q <==> NoTagBlocks(q)
  {
    StrippedFixedIff(ExtractUserQuery(text));
  }

  // ----- Which texts are stable -----

  /** A tag's name, so that the tag has its only `<` in front and its only `>` at the end. */
  ghost predicate TagName(name: string)
  {
    name != "" && name[0] != '/' && '<' !in name && '>' !in name
  }

  ghost predicate Angled(q: string)
  {
    TagShaped(q) && q[|q| - 1] == '>' && forall k :: 0 <= k < |q| - 1 ==> q[k] != '>'
  }

  lemma SystemTagNames()
    ensures forall k :: 0 <= k < |SYSTEM_TAGS| ==> TagName(SYSTEM_TAGS[k])
  {
  }

  lemma QueryTagName()
    ensures TagName("user_query") && OpenTag("user_query") == QUERY_OPEN && CloseTag("user_query") == QUERY_CLOSE
    ensures "user_query" !in SYSTEM_TAGS
  {
  }

  lemma SystemTagsDiffer()
    ensures forall j, k :: 0 <= j < k < |SYSTEM_TAGS| ==> SYSTEM_TAGS[j] != SYSTEM_TAGS[k]
  {
  }

  lemma TagsAngled(name: string)
    requires TagName(name)
    ensures Angled(OpenTag(name)) && Angled(CloseTag(name))
  {
  }

  /** A block of `name` from `p` on, with its close at `e`. */
  predicate BlockAt(s: string, name: string, p: int, e: int)
  {
    p <= e && OccursAt(s, OpenTag(name), p) && OccursAt(s, CloseTag(name), e)
  }

  /** No proper beginning of `q` ends at `p`. */
  ghost predicate NoBeginning(s: string, p: int, q: string)
  {
    forall n :: 0 < n < |q| ==> !OccursAt(s, q[..n], p - n)
  }

  ghost predicate ClearBefore(s: string, p: int, names: seq<string>)
  {
    forall name :: name in names ==> NoBeginning(s, p, OpenTag(name)) && NoBeginning(s, p, CloseTag(name))
  }

  /** No beginning of a tag in `names` stands directly before a block of one in `tags`. */
  ghost predicate NoSplitTags(s: string, tags: seq<string>, names: seq<string>)
  {
    forall name, p, e :: name in tags && BlockAt(s, name, p, e) ==> ClearBefore(s, p, names)
  }

  /** Every `<` is closed by a `>` before the next one. */
  ghost predicate AnglesClosed(s: string)
  {
    forall i, j :: 0 <= i < j < |s| && s[i] == '<' == s[j] ==> '>' in s[i..j]
  }

  /** Where an occurrence in a text without the stretch `x..y` was before. */
  function Before(j: int, x: nat, y: nat): int { if j < x then j else j + (y - x) }

  function Cut(s: string, x: nat, y: nat): string
    requires x <= y <= |s|
  {
    s[..x] + s[y..]
  }

  lemma BehindCut(s: string, x: nat, y: nat, i: int, j: int)
    requires x <= y <= |s| && x <= i <= j <= |Cut(s, x, y)|
    ensures j + (y - x) <= |s| && s[i + (y - x)..j + (y - x)] == Cut(s, x, y)[i..j]
  {
  }

  /** A beginning that runs over the seam leaves a shorter one before it. */
  lemma BeginningCut(s: string, x: nat, y: nat, q: string, n: nat, i: int)
    requires x <= y <= |s| && n <= |q| && OccursAt(Cut(s, x, y), q[..n], i) && i < x <= i + n
    ensures OccursAt(s, q[..x - i], i)
  {
    var t, u := Cut(s, x, y), s[i..x];
    OccurrenceChars(t, q[..n], i);
    assert forall k :: 0 <= k < x - i ==> u[k] == t[i + k] == q[..n][k];
  }

  lemma SeamIsBeginning(s: string, x: nat, y: nat, q: string, j: int)
    requires x <= y <= |s| && OccursAt(Cut(s, x, y), q, j) && j < x < j + |q|
    ensures !NoBeginning(s, x, q)
  {
    assert q[..|q|] == q;
    BeginningCut(s, x, y, q, |q|, j);
    assert OccursAt(s, q[..x - j], x - (x - j));
  }

  /** Cutting a stretch that no beginning of `q` runs up to makes no occurrence of `q`. */
  lemma CutMakesNone(s: string, x: nat, y: nat, q: string, j: int)
    requires x <= y <= |s| && NoBeginning(s, x, q) && OccursAt(Cut(s, x, y), q, j) && q != ""
    ensures OccursAt(s, q, Before(j, x, y)) && (j + |q| <= x || x <= j)
  {
    var t := Cut(s, x, y);
    if j < x < j + |q| {
      SeamIsBeginning(s, x, y, q, j);
    } else if j < x {
      assert s[j..j + |q|] == t[j..j + |q|];
    } else {
      BehindCut(s, x, y, j, j + |q|);
    }
  }

  /** Nor a block. */
  lemma CutMakesNoBlock(s: string, x: nat, y: nat, name: string, p: int, e: int)
    requires x <= y <= |s| && NoBeginning(s, x, OpenTag(name)) && NoBeginning(s, x, CloseTag(name))
    requires BlockAt(Cut(s, x, y), name, p, e)
    ensures BlockAt(s, name, Before(p, x, y), Before(e, x, y))
    ensures p + |OpenTag(name)| <= x || x <= p
  {
    CutMakesNone(s, x, y, OpenTag(name), p);
    CutMakesNone(s, x, y, CloseTag(name), e);
  }

  /** Nor a beginning of `q` where there was none. */
  lemma CutKeepsClear(s: string, x: nat, y: nat, p: int, q: string)
    requires x <= y <= |s| && p <= |Cut(s, x, y)| && NoBeginning(s, x, q) && NoBeginning(s, Before(p, x, y), q)
    ensures NoBeginning(Cut(s, x, y), p, q)
  {
    var t, p' := Cut(s, x, y), Before(p, x, y);
    forall n | 0 < n < |q| ensures !OccursAt(t, q[..n], p - n) {
      if OccursAt(t, q[..n], p - n) { BeginningBefore(s, x, y, p, q, n); }
    }
  }

  lemma BeginningBefore(s: string, x: nat, y: nat, p: int, q: string, n: nat)
    requires x <= y <= |s| && 0 < n < |q| && OccursAt(Cut(s, x, y), q[..n], p - n)
    ensures !NoBeginning(s, x, q) || !NoBeginning(s, Before(p, x, y), q)
  {
    var t, p' := Cut(s, x, y), Before(p, x, y);
    OccurrenceChars(t, q[..n], p - n);
    if p < x {
      assert s[p - n..p] == t[p - n..p];
      assert OccursAt(s, q[..n], p' - n);
    } else if p - n >= x {
      BehindCut(s, x, y, p - n, p);
      assert OccursAt(s, q[..n], p' - n);
    } else {
      BeginningCut(s, x, y, q, n, p - n);
      assert OccursAt(s, q[..x - (p - n)], x - (x - (p - n)));
    }
  }

  lemma CutKeepsNoSplit(s: string, x: nat, y: nat, tags: seq<string>, names: seq<string>)
    requires x <= y <= |s| && ClearBefore(s, x, names) && NoSplitTags(s, tags, names)
    requires forall name :: name in tags ==> name in names
    ensures NoSplitTags(Cut(s, x, y), tags, names)
  {
    var t := Cut(s, x, y);
    forall name, p, e | name in tags && BlockAt(t, name, p, e) ensures ClearBefore(t, p, names) {
      CutMakesNoBlock(s, x, y, name, p, e);
      assert ClearBefore(s, Before(p, x, y), names);
      forall other | other in names
        ensures NoBeginning(t, p, OpenTag(other)) && NoBeginning(t, p, CloseTag(other))
      {
        CutKeepsClear(s, x, y, p, OpenTag(other));
        CutKeepsClear(s, x, y, p, CloseTag(other));
      }
    }
  }

  /** What a pass over one tag keeps of such a text. */
  lemma {:induction false} PassKeepsNoSplit(s: string, tag: string, tags: seq<string>, names: seq<string>)
    requires tag in tags && NoSplitTags(s, tags, names) && forall name :: name in tags ==> name in names
    ensures var r := StripTag(s, tag);
            && NoSplitTags(r, tags, names)
            && (forall name :: name in names && NoBlock(s, OpenTag(name), CloseTag(name))
                  ==> NoBlock(r, OpenTag(name), CloseTag(name)))
            && (forall name :: name in names && !Contains(s, CloseTag(name)) ==> !Contains(r, CloseTag(name)))
    decreases |s|
  {
    var open, close := OpenTag(tag), CloseTag(tag);
    var rest := WithoutBlock(s, open, close);
    if rest.Some? {
      var x := Find(s, open, 0).value;
      var y := Find(s, close, x).value + |close|;
      assert BlockAt(s, tag, x, y - |close|) && rest.value == Cut(s, x, y);
      CutKeepsNoSplit(s, x, y, tags, names);
      CutKeepsAbsent(s, x, y, names);
      PassKeepsNoSplit(rest.value, tag, tags, names);
    }
  }

  lemma CutKeepsAbsent(s: string, x: nat, y: nat, names: seq<string>)
    requires x <= y <= |s| && ClearBefore(s, x, names)
    ensures var t := Cut(s, x, y);
            && (forall name :: name in names && NoBlock(s, OpenTag(name), CloseTag(name))
                  ==> NoBlock(t, OpenTag(name), CloseTag(name)))
            && (forall name :: name in names && !Contains(s, CloseTag(name)) ==> !Contains(t, CloseTag(name)))
  {
    var t := Cut(s, x, y);
    forall name | name in names && NoBlock(s, OpenTag(name), CloseTag(name))
      ensures NoBlock(t, OpenTag(name), CloseTag(name))
    {
      forall p, e | p <= e && OccursAt(t, OpenTag(name), p) ensures !OccursAt(t, CloseTag(name), e) {
        if OccursAt(t, CloseTag(name), e) { CutMakesNoBlock(s, x, y, name, p, e); }
      }
    }
    forall name | name in names && !Contains(s, CloseTag(name)) ensures !Contains(t, CloseTag(name)) {
      forall j ensures !OccursAt(t, CloseTag(name), j) {
        if OccursAt(t, CloseTag(name), j) { CutMakesNone(s, x, y, CloseTag(name), j); }
      }
    }
  }

  /** The passes one after another: what a pass has cleared stays clear. */
  lemma {:induction false} PassesClear(s: string, left: seq<string>, tags: seq<string>, names: seq<string>)
    requires NoSplitTags(s, tags, names) && forall name :: name in tags ==> name in names
    requires forall name :: name in left ==> name in tags
    ensures var r := StripTags(s, left);
            && (forall name :: name in names && (name in left || NoBlock(s, OpenTag(name), CloseTag(name)))
                  ==> NoBlock(r, OpenTag(name), CloseTag(name)))
            && (forall name :: name in names && !Contains(s, CloseTag(name)) ==> !Contains(r, CloseTag(name)))
    decreases |left|
  {
    if left != [] {
      var next := StripTag(s, left[0]);
      PassKeepsNoSplit(s, left[0], tags, names);
      StripTagLeavesNoBlock(s, left[0]);
      PassesClear(next, left[1..], tags, names);
      assert forall name :: name in left ==> name == left[0] || name in left[1..];
    }
  }

  lemma SliceOccurs(s: string, a: nat, b: nat, pat: string, i: int)
    requires a <= b <= |s| && OccursAt(s[a..b], pat, i)
    ensures OccursAt(s, pat, a + i)
  {
    SliceOfSlice(s, a, b, i, i + |pat|);
  }

  lemma SliceKeepsNoSplit(s: string, a: nat, b: nat, tags: seq<string>, names: seq<string>)
    requires a <= b <= |s| && NoSplitTags(s, tags, names)
    ensures NoSplitTags(s[a..b], tags, names)
  {
    var t := s[a..b];
    forall name, p, e | name in tags && BlockAt(t, name, p, e) ensures ClearBefore(t, p, names) {
      SliceOccurs(s, a, b, OpenTag(name), p);
      SliceOccurs(s, a, b, CloseTag(name), e);
      assert BlockAt(s, name, a + p, a + e);
      forall other | other in names
        ensures NoBeginning(t, p, OpenTag(other)) && NoBeginning(t, p, CloseTag(other))
      {
        SliceKeepsClear(s, a, b, p, OpenTag(other));
        SliceKeepsClear(s, a, b, p, CloseTag(other));
      }
    }
  }

  lemma SliceKeepsClear(s: string, a: nat, b: nat, p: int, q: string)
    requires a <= b <= |s| && NoBeginning(s, a + p, q)
    ensures NoBeginning(s[a..b], p, q)
  {
    forall n | 0 < n < |q| ensures !OccursAt(s[a..b], q[..n], p - n) {
      if OccursAt(s[a..b], q[..n], p - n) {
        SliceOccurs(s, a, b, q[..n], p - n);
      }
    }
  }

  lemma SliceKeepsNoBlock(s: string, a: nat, b: nat, open: string, close: string)
    requires a <= b <= |s| && NoBlock(s, open, close)
    ensures NoBlock(s[a..b], open, close)
  {
    forall i, j | i <= j && OccursAt(s[a..b], open, i) ensures !OccursAt(s[a..b], close, j) {
      SliceOccurs(s, a, b, open, i);
      if OccursAt(s[a..b], close, j) { SliceOccurs(s, a, b, close, j); }
    }
  }

  /** Every tag a text may be split at: the system tags, or those and the query tag. */
  lemma StrippedIsClear(text: string, names: seq<string>)
    requires NoSplitTags(text, SYSTEM_TAGS, names) && forall name :: name in SYSTEM_TAGS ==> name in names
    ensures NoTagBlocks(StripSystemTags(text))
    ensures forall name :: name in names && !Contains(text, CloseTag(name)) ==> !Contains(StripSystemTags(text), CloseTag(name))
  {
    var r := StripTags(text, SYSTEM_TAGS);
    PassesClear(text, SYSTEM_TAGS, SYSTEM_TAGS, names);
    var a, b := TrimIsSlice(r);
    forall k | 0 <= k < |SYSTEM_TAGS|
      ensures NoBlock(Trim(r), OpenTag(SYSTEM_TAGS[k]), CloseTag(SYSTEM_TAGS[k]))
    {
      assert SYSTEM_TAGS[k] in names;
      SliceKeepsNoBlock(r, a, b, OpenTag(SYSTEM_TAGS[k]), CloseTag(SYSTEM_TAGS[k]));
    }
    forall name | name in names && !Contains(text, CloseTag(name)) ensures !Contains(Trim(r), CloseTag(name)) {
      if Contains(Trim(r), CloseTag(name)) { TrimContains(r, CloseTag(name)); }
    }
  }

  lemma BetweenIsSlice(text: string, open: string, close: string) returns (a: nat, b: nat)
    requires close != "" && Between(text, open, close).Some?
    ensures a <= b <= |text| && Between(text, open, close).value == text[a..b]
    ensures !Contains(text[a..b], close)
  {
    a := Find(text, open, 0).value + |open|;
    b := Find(text, close, a).value;
    forall i ensures !OccursAt(text[a..b], close, i) {
      if OccursAt(text[a..b], close, i) { SliceOccurs(text, a, b, close, i); }
    }
  }

  lemma TrimmedSlice(text: string, c: nat, d: nat) returns (a: nat, b: nat)
    requires c <= d <= |text|
    ensures a <= b <= |text| && Trim(text[c..d]) == text[a..b]
  {
    a, b := TrimIsSlice(text[c..d]);
    SliceOfSlice(text, c, d, a, b);
    a, b := c + a, c + b;
  }

  lemma QueryPartIsSlice(text: string) returns (a: nat, b: nat)
    ensures a <= b <= |text| && QueryPart(text) == text[a..b]
    ensures Between(text, QUERY_OPEN, QUERY_CLOSE).Some? ==> !Contains(text[a..b], QUERY_CLOSE)
  {
    var inner := Between(text, QUERY_OPEN, QUERY_CLOSE);
    if inner.None? {
      a, b := 0, |text|;
      assert text[0..|text|] == text;
    } else {
      var c, d := BetweenIsSlice(text, QUERY_OPEN, QUERY_CLOSE);
      a, b := TrimmedSlice(text, c, d);
      if Contains(Trim(inner.value), QUERY_CLOSE) { TrimContains(inner.value, QUERY_CLOSE); }
    }
  }

  /** A text in which no beginning of a system tag stands directly before a block of one
      extracts to a stable query. */
  lemma UnsplitIsStable(text: string)
    requires NoSplitTags(text, SYSTEM_TAGS, SYSTEM_TAGS)
    ensures NoTagBlocks(ExtractUserQuery(text))
    ensures StripSystemTags(ExtractUserQuery(text)) == ExtractUserQuery(text)
  {
    var a, b := QueryPartIsSlice(text);
    SliceKeepsNoSplit(text, a, b, SYSTEM_TAGS, SYSTEM_TAGS);
    StrippedIsClear(text[a..b], SYSTEM_TAGS);
    ExtractedStableIff(text);
  }

  /** The names of every tag that is stripped or looked for. */
  function AllTags(): seq<string> { SYSTEM_TAGS + ["user_query"] }

  /** A closing query tag only where a wrapper opens before it. */
  ghost predicate NoBareClose(text: string)
  {
    Between(text, QUERY_OPEN, QUERY_CLOSE).Some? || !Contains(text, QUERY_CLOSE)
  }

  /** The query of a text that nowhere splits a tag, the query tag among them, holds no
      block, and no closing query tag unless a bare one stood in a text without a wrapper. */
  lemma UnsplitQuery(text: string)
    requires NoSplitTags(text, SYSTEM_TAGS, AllTags())
    ensures NoTagBlocks(ExtractUserQuery(text))
    ensures NoBareClose(text) ==> !Contains(ExtractUserQuery(text), QUERY_CLOSE)
  {
    var a, b := QueryPartIsSlice(text);
    SliceKeepsNoSplit(text, a, b, SYSTEM_TAGS, AllTags());
    StrippedIsClear(text[a..b], AllTags());
    QueryTagName();
    assert "user_query" in AllTags();
    if Contains(text[a..b], QUERY_CLOSE) { SliceContains(text, a, b, QUERY_CLOSE); }
  }

  lemma AnglesClosedEverywhere(text: string)
    requires AnglesClosed(text)
    ensures NoSplitTags(text, SYSTEM_TAGS, AllTags())
  {
    SystemTagNames();
    QueryTagName();
    AnglesClosedIsUnsplit(text, SYSTEM_TAGS, AllTags());
  }

  /** Text whose angle brackets are closed one after the other is such a text. */
  lemma AnglesClosedIsUnsplit(s: string, tags: seq<string>, names: seq<string>)
    requires AnglesClosed(s) && forall name :: name in names ==> TagName(name)
    ensures NoSplitTags(s, tags, names)
  {
    forall name, p, e | name in tags && BlockAt(s, name, p, e) ensures ClearBefore(s, p, names) {
      CharOf(s, OpenTag(name), p, 0);
      forall other | other in names
        ensures NoBeginning(s, p, OpenTag(other)) && NoBeginning(s, p, CloseTag(other))
      {
        TagsAngled(other);
        NoOpenAngle(s, p, OpenTag(other));
        NoOpenAngle(s, p, CloseTag(other));
      }
    }
  }

  lemma NoOpenAngle(s: string, p: int, q: string)
    requires AnglesClosed(s) && Angled(q) && 0 <= p < |s| && s[p] == '<'
    ensures NoBeginning(s, p, q)
  {
    forall n | 0 < n < |q| ensures !OccursAt(s, q[..n], p - n) {
      if OccursAt(s, q[..n], p - n) {
        assert s[p - n..p] == q[..n];
        CharOf(s, q[..n], p - n, 0);
      }
    }
  }

  lemma AnglesClosedIsStable(text: string)
    requires AnglesClosed(text)
    ensures NoTagBlocks(ExtractUserQuery(text))
    ensures StripSystemTags(ExtractUserQuery(text)) == ExtractUserQuery(text)
  {
    SystemTagNames();
    AnglesClosedIsUnsplit(text, SYSTEM_TAGS, SYSTEM_TAGS);
    UnsplitIsStable(text);
  }

  // ----- Which are not -----

  function OneBlock(tag: string, x: string): string
  {
    OpenTag(tag) + x + CloseTag(tag)
  }

  /** An empty block of `inner` in the middle of the opening of a block of `outer`. */
  function SplitText(outer: string, n: nat, inner: string, x: string): string
    requires n <= |OpenTag(outer)|
  {
    OpenTag(outer)[..n] + OneBlock(inner, "") + OpenTag(outer)[n..] + x + CloseTag(outer)
  }

  /** Two tags at one place are one tag. */
  lemma SameTag(s: string, p: string, q: string, i: int)
    requires Angled(p) && Angled(q) && OccursAt(s, p, i) && OccursAt(s, q, i)
    ensures p == q
  {
    OccurrenceChars(s, p, i);
    OccurrenceChars(s, q, i);
    assert s[i + (|p| - 1)] == '>' && s[i + (|q| - 1)] == '>';
    assert |p| == |q|;
  }

  lemma OpeningsDiffer(a: string, b: string)
    requires a != b
    ensures OpenTag(a) != OpenTag(b)
  {
    assert OpenTag(a)[1..1 + |a|] == a && OpenTag(b)[1..1 + |b|] == b;
  }

  /** A close is no opening of any tag. */
  lemma CloseIsNoOpening(s: string, name: string, other: string, i: int)
    requires TagName(name) && OccursAt(s, OpenTag(name), i)
    ensures !OccursAt(s, CloseTag(other), i)
  {
    CharOf(s, OpenTag(name), i, 1);
    if OccursAt(s, CloseTag(other), i) { CharOf(s, CloseTag(other), i, 1); }
  }

  lemma OneBlockAt(tag: string, x: string)
    ensures var r := OneBlock(tag, x);
            OccursAt(r, OpenTag(tag), 0) && OccursAt(r, CloseTag(tag), |OpenTag(tag)| + |x|)
  {
    var r, open, close := OneBlock(tag, x), OpenTag(tag), CloseTag(tag);
    assert r[0..|open|] == open && r[|open| + |x|..|r|] == close;
  }

  lemma OneBlockHasNoOther(tag: string, x: string, name: string)
    requires TagName(tag) && TagName(name) && name != tag && '<' !in x
    ensures forall i :: !OccursAt(OneBlock(tag, x), OpenTag(name), i)
  {
    var r, m := OneBlock(tag, x), |OpenTag(tag)| + |x|;
    OneBlockAt(tag, x);
    TagsAngled(tag);
    TagsAngled(name);
    OpeningsDiffer(tag, name);
    assert forall i :: 0 <= i < |r| && r[i] == '<' ==> i == 0 || i == m by { OneBlockAngles(tag, x); }
    forall i ensures !OccursAt(r, OpenTag(name), i) {
      if OccursAt(r, OpenTag(name), i) {
        TagStarts(r, OpenTag(name), i);
        if i == 0 { SameTag(r, OpenTag(tag), OpenTag(name), 0); } else { CloseIsNoOpening(r, name, tag, m); }
      }
    }
  }

  lemma OneBlockAngles(tag: string, x: string)
    requires TagName(tag) && '<' !in x
    ensures var r := OneBlock(tag, x);
            forall i :: 0 <= i < |r| && r[i] == '<' ==> i == 0 || i == |OpenTag(tag)| + |x|
  {
    var r, open, close := OneBlock(tag, x), OpenTag(tag), CloseTag(tag);
    TagsAngled(tag);
    assert forall i :: 0 <= i < |open| ==> r[i] == open[i];
    assert forall i :: |open| <= i < |open| + |x| ==> r[i] == x[i - |open|];
    assert forall i :: |open| + |x| <= i < |r| ==> r[i] == close[i - |open| - |x|];
  }

  /** The places of the tags in a split text. */
  lemma SplitAt(outer: string, n: nat, inner: string, x: string)
    requires 0 < n < |OpenTag(outer)|
    ensures var s, b := SplitText(outer, n, inner, x), OneBlock(inner, "");
            && s[..n] == OpenTag(outer)[..n] && OccursAt(s, b, n)
            && Cut(s, n, n + |b|) == OneBlock(outer, x)
            && s[n + |b|..] == OneBlock(outer, x)[n..]
  {
    var s, b, open := SplitText(outer, n, inner, x), OneBlock(inner, ""), OpenTag(outer);
    assert open == open[..n] + open[n..];
    assert s == open[..n] + b + (open[n..] + x + CloseTag(outer));
    assert OneBlock(outer, x) == open[..n] + (open[n..] + x + CloseTag(outer));
  }

  lemma SplitHasNoOther(outer: string, n: nat, inner: string, x: string, name: string)
    requires TagName(outer) && TagName(inner) && TagName(name) && name != inner && '<' !in x
    requires 0 < n < |OpenTag(outer)|
    ensures forall i :: !OccursAt(SplitText(outer, n, inner, x), OpenTag(name), i)
  {
    var s, b, open := SplitText(outer, n, inner, x), OneBlock(inner, ""), OpenTag(name);
    SplitAt(outer, n, inner, x);
    TagsAngled(outer);
    TagsAngled(name);
    OccurrenceChars(s, b, n);
    forall i ensures !OccursAt(s, open, i) {
      if OccursAt(s, open, i) {
        TagStarts(s, open, i);
        if i < n {
          BeforeTheBlock(s, open, OpenTag(outer), n, i);
        } else if i < n + |b| {
          InsideTheBlock(s, inner, name, n, i);
        } else {
          BehindTheBlock(s, outer, x, name, n, n + |b|, i);
        }
      }
    }
  }

  /** No tag starts in a beginning that another `<` follows. */
  lemma BeforeTheBlock(s: string, open: string, outer: string, n: nat, i: int)
    requires Angled(open) && Angled(outer) && n < |outer| && n < |s|
    requires s[..n] == outer[..n] && s[n] == '<' && 0 <= i < n
    ensures !OccursAt(s, open, i)
  {
    assert forall m :: i <= m < n ==> s[m] == s[..n][m] == outer[m];
    var k: nat := if i + |open| <= n then |open| - 1 else n - i;
    if OccursAt(s, open, i) { CharOf(s, open, i, k); }
  }

  lemma InsideTheBlock(s: string, inner: string, name: string, n: nat, i: int)
    requires TagName(inner) && TagName(name) && name != inner
    requires OccursAt(s, OneBlock(inner, ""), n) && n <= i < n + |OneBlock(inner, "")|
    ensures !OccursAt(s, OpenTag(name), i)
  {
    var b := OneBlock(inner, "");
    if OccursAt(s, OpenTag(name), i) {
      OneBlockAngles(inner, "");
      TagStarts(s, OpenTag(name), i);
      OccurrenceChars(s, b, n);
      assert b[i - n] == s[n + (i - n)] == '<';
      BlockPiecesAt(s, inner, n);
      TagsAngled(inner);
      TagsAngled(name);
      OpeningsDiffer(inner, name);
      if i == n { SameTag(s, OpenTag(inner), OpenTag(name), i); } else { CloseIsNoOpening(s, name, inner, i); }
    }
  }

  lemma BlockPiecesAt(s: string, tag: string, n: nat)
    requires OccursAt(s, OneBlock(tag, ""), n)
    ensures OccursAt(s, OpenTag(tag), n) && OccursAt(s, CloseTag(tag), n + |OpenTag(tag)|)
  {
    var b := OneBlock(tag, "");
    OneBlockAt(tag, "");
    SliceOccurs(s, n, n + |b|, OpenTag(tag), 0);
    SliceOccurs(s, n, n + |b|, CloseTag(tag), |OpenTag(tag)|);
  }

  lemma BehindTheBlock(s: string, outer: string, x: string, name: string, n: nat, m: nat, i: int)
    requires TagName(outer) && TagName(name) && '<' !in x && 0 < n < |OpenTag(outer)|
    requires n <= m <= i <= |s| && s[m..] == OneBlock(outer, x)[n..]
    ensures !OccursAt(s, OpenTag(name), i)
  {
    var r := OneBlock(outer, x);
    OneBlockAt(outer, x);
    OneBlockAngles(outer, x);
    if OccursAt(s, OpenTag(name), i) {
      TagStarts(s, OpenTag(name), i);
      var j := i - m + n;
      assert s[m..][i - m] == r[n..][i - m] == r[j];
      assert s[m..][i - m..i - m + |OpenTag(name)|] == OpenTag(name);
      assert r[n..][i - m..i - m + |OpenTag(name)|] == r[j..j + |OpenTag(name)|];
      CloseIsNoOpening(r, name, outer, j);
    }
  }

  /** Passes over tags that do not occur leave the text alone. */
  lemma {:induction false} AbsentTagsPass(s: string, tags: seq<string>)
    requires forall k, i :: 0 <= k < |tags| ==> !OccursAt(s, OpenTag(tags[k]), i)
    ensures StripTags(s, tags) == s
  {
    if tags != [] { AbsentTagsPass(s, tags[1..]); }
  }

  lemma {:induction false} PassesInTurn(s: string, tags: seq<string>, k: nat)
    requires k <= |tags|
    ensures StripTags(s, tags) == StripTags(StripTags(s, tags[..k]), tags[k..])
    decreases k
  {
    if k == 0 {
      assert tags[0..] == tags && tags[..0] == [];
    } else {
      PassesInTurn(StripTag(s, tags[0]), tags[1..], k - 1);
      assert tags[..k][1..] == tags[1..][..k - 1] && tags[1..][k - 1..] == tags[k..];
    }
  }

  lemma SplitBlockFirst(outer: string, n: nat, inner: string, x: string)
    requires TagName(outer) && TagName(inner) && 0 < n < |OpenTag(outer)|
    ensures var s, open := SplitText(outer, n, inner, x), OpenTag(inner);
            && n <= |s| && Find(s, open, 0) == Some(n)
            && Find(s, CloseTag(inner), n) == Some(n + |open|)
  {
    var s, open := SplitText(outer, n, inner, x), OpenTag(inner);
    SplitAt(outer, n, inner, x);
    BlockPiecesAt(s, inner, n);
    TagsAngled(inner);
    TagsAngled(outer);
    TagStarts(s, open, n);
    forall i | 0 <= i < n ensures !OccursAt(s, open, i) {
      BeforeTheBlock(s, open, OpenTag(outer), n, i);
    }
    FindIs(s, open, 0, n);
    CloseBehind(s, inner, n);
  }

  lemma SplitBlockGoes(outer: string, n: nat, inner: string, x: string)
    requires TagName(outer) && TagName(inner) && outer != inner && '<' !in x && 0 < n < |OpenTag(outer)|
    ensures StripTag(SplitText(outer, n, inner, x), inner) == OneBlock(outer, x)
  {
    var s, e := SplitText(outer, n, inner, x), n + |OpenTag(inner)|;
    SplitBlockFirst(outer, n, inner, x);
    SplitCut(outer, n, inner, x, e + |CloseTag(inner)|);
    OneBlockHasNoOther(outer, x, inner);
    OnlyBlockGoes(s, OpenTag(inner), CloseTag(inner), n, e, OneBlock(outer, x));
  }

  lemma SplitCut(outer: string, n: nat, inner: string, x: string, y: nat)
    requires 0 < n < |OpenTag(outer)| && y == n + |OpenTag(inner)| + |CloseTag(inner)|
    ensures var s := SplitText(outer, n, inner, x); y <= |s| && Cut(s, n, y) == OneBlock(outer, x)
  {
    SplitAt(outer, n, inner, x);
    assert |OneBlock(inner, "")| == |OpenTag(inner)| + |CloseTag(inner)|;
  }

  lemma OnlyBlockGoes(s: string, open: string, close: string, x: nat, e: nat, r: string)
    requires close != "" && Find(s, open, 0) == Some(x) && x <= |s| && Find(s, close, x) == Some(e)
    requires e + |close| <= |s| && Cut(s, x, e + |close|) == r && forall i :: !OccursAt(r, open, i)
    ensures StripBlocks(s, open, close) == r
  {
    assert WithoutBlock(s, open, close) == Some(r);
    assert WithoutBlock(r, open, close) == None;
    assert StripBlocks(r, open, close) == r;
  }

  lemma CloseBehind(s: string, tag: string, n: nat)
    requires TagName(tag) && OccursAt(s, OpenTag(tag), n) && OccursAt(s, CloseTag(tag), n + |OpenTag(tag)|)
    ensures n <= |s| && Find(s, CloseTag(tag), n) == Some(n + |OpenTag(tag)|)
  {
    var open, close := OpenTag(tag), CloseTag(tag);
    TagsAngled(tag);
    forall i | n <= i < n + |open| ensures !OccursAt(s, close, i) {
      if OccursAt(s, close, i) {
        if i == n { CloseIsNoOpening(s, tag, tag, n); } else { TagsDisjoint(s, open, close, n, i); }
      }
    }
    FindIs(s, close, n, n + |open|);
  }

  lemma SplitTagPasses(tags: seq<string>, i: nat, n: nat, k: nat, x: string)
    requires i < k < |tags| && 0 < n < |OpenTag(tags[i])| && '<' !in x
    requires forall j :: 0 <= j < |tags| ==> TagName(tags[j])
    requires forall j, m :: 0 <= j < m < |tags| ==> tags[j] != tags[m]
    ensures StripTags(SplitText(tags[i], n, tags[k], x), tags) == OneBlock(tags[i], x)
  {
    var outer, inner := tags[i], tags[k];
    var s, r := SplitText(outer, n, inner, x), OneBlock(outer, x);
    forall j | 0 <= j < k ensures forall p :: !OccursAt(s, OpenTag(tags[..k][j]), p) {
      SplitHasNoOther(outer, n, inner, x, tags[j]);
    }
    AbsentTagsPass(s, tags[..k]);
    PassesInTurn(s, tags, k);
    SplitBlockGoes(outer, n, inner, x);
    var rest := tags[k..][1..];
    forall j | 0 <= j < |rest| ensures forall p :: !OccursAt(r, OpenTag(rest[j]), p) {
      OneBlockHasNoOther(outer, x, tags[k + 1 + j]);
    }
    AbsentTagsPass(r, rest);
  }

  lemma NoOpeningNoPart(text: string, open: string, close: string)
    requires forall i :: !OccursAt(text, open, i)
    ensures Between(text, open, close) == None
  {
  }

  lemma SplitExtracts(tags: seq<string>, i: nat, n: nat, k: nat, x: string)
    requires i < k < |tags| && 0 < n < |OpenTag(tags[i])| && '<' !in x
    requires forall j :: 0 <= j < |tags| ==> TagName(tags[j])
    requires forall j, m :: 0 <= j < m < |tags| ==> tags[j] != tags[m]
    requires "user_query" !in tags
    ensures var text := SplitText(tags[i], n, tags[k], x);
            QueryPart(text) == text && Trim(StripTags(text, tags)) == OneBlock(tags[i], x)
  {
    var text, r := SplitText(tags[i], n, tags[k], x), OneBlock(tags[i], x);
    QueryTagName();
    SplitHasNoOther(tags[i], n, tags[k], x, "user_query");
    NoOpeningNoPart(text, QUERY_OPEN, QUERY_CLOSE);
    SplitTagPasses(tags, i, n, k, x);
    assert r[0] == '<' && r[|r| - 1] == '>';
    TrimTrimmed(r);
  }

  /** Splitting any opening, anywhere, by a block of a tag that is stripped later gives a
      text whose query still holds the block so put together. */
  lemma SplitTagIsNotStable(i: nat, n: nat, k: nat, x: string)
    requires i < k < |SYSTEM_TAGS| && 0 < n < |OpenTag(SYSTEM_TAGS[i])| && '<' !in x
    ensures var text := SplitText(SYSTEM_TAGS[i], n, SYSTEM_TAGS[k], x);
            && ExtractUserQuery(text) == OneBlock(SYSTEM_TAGS[i], x)
            && StripSystemTags(ExtractUserQuery(text)) != ExtractUserQuery(text)
  {
    SystemTagNames();
    SystemTagsDiffer();
    QueryTagName();
    SplitExtracts(SYSTEM_TAGS, i, n, k, x);
    OneBlockNotStable(i, x);
  }

  lemma OneBlockNotStable(i: nat, x: string)
    requires i < |SYSTEM_TAGS|
    ensures StripSystemTags(OneBlock(SYSTEM_TAGS[i], x)) != OneBlock(SYSTEM_TAGS[i], x)
  {
    var r := OneBlock(SYSTEM_TAGS[i], x);
    OneBlockAt(SYSTEM_TAGS[i], x);
    assert !NoBlock(r, OpenTag(SYSTEM_TAGS[i]), CloseTag(SYSTEM_TAGS[i]));
    StrippedFixedIff(r);
  }

  const SPLIT_USER_INFO := "<user_" + ("<git_status>" + "</git_status>") + "info>" + "x" + "</user_info>"

  lemma SplitUserInfo()
    ensures SPLIT_USER_INFO == SplitText("user_info", 6, "git_status", "x")
  {
    assert OpenTag("user_info")[..6] == "<user_" && OpenTag("user_info")[6..] == "info>";
    assert OneBlock("git_status", "") == "<git_status>" + "</git_status>";
    assert CloseTag("user_info") == "</user_info>";
  }

  /** One such text: stripping the inner block puts `<user_info>x</user_info>` together. */
  lemma StrippedNotStableWitness()
    ensures ExtractUserQuery(SPLIT_USER_INFO) == OneBlock("user_info", "x")
    ensures StripSystemTags(ExtractUserQuery(SPLIT_USER_INFO)) != ExtractUserQuery(SPLIT_USER_INFO)
  {
    assert SYSTEM_TAGS[0] == "user_info" && SYSTEM_TAGS[2] == "git_status";
    SplitUserInfo();
    SplitTagIsNotStable(0, 6, 2, "x");
  }

  // ----- What is extracted -----

  /** A text with one query wrapper yields what stands in it, whatever stands around it:
      what is before the first opening and behind the first close after it is left out. */
  lemma BetweenTags(pre: string, q: string, post: string, open: string, close: string)
    requires TagShaped(open) && TagShaped(close) && !Contains(pre, open) && !Contains(q, close)
    ensures Between(pre + open + q + close + post, open, close) == Some(q)
  {
    var s, from := pre + open + q + close + post, |pre| + |open|;
    var end := from + |q|;
    assert s[0..|pre|] == pre && s[|pre|..from] == open && s[from..end] == q && s[end..end + |close|] == close;
    FirstTag(s, 0, |pre|, open);
    FirstTag(s, from, end, close);
  }

  lemma QueryPartOfWrapped(pre: string, q: string, post: string)
    requires !Contains(pre, QUERY_OPEN) && !Contains(q, QUERY_CLOSE)
    ensures ExtractUserQuery(pre + QUERY_OPEN + q + QUERY_CLOSE + post) == StripSystemTags(Trim(q))
  {
    BetweenTags(pre, q, post, QUERY_OPEN, QUERY_CLOSE);
  }

  /** Without an opening, or without a close behind the first one, it is the whole text. */
  lemma QueryPartOfUnwrapped(pre: string, t: string)
    requires !Contains(pre, QUERY_OPEN) && !Contains(t, QUERY_CLOSE)
    ensures ExtractUserQuery(pre) == StripSystemTags(pre)
    ensures ExtractUserQuery(pre + QUERY_OPEN + t) == StripSystemTags(pre + QUERY_OPEN + t)
  {
    NoOpeningNoPart(pre, QUERY_OPEN, QUERY_CLOSE);
    UnclosedNoPart(pre, t, QUERY_OPEN, QUERY_CLOSE);
  }

  lemma UnclosedNoPart(pre: string, t: string, open: string, close: string)
    requires TagShaped(open) && !Contains(pre, open) && !Contains(t, close)
    ensures Between(pre + open + t, open, close) == None
  {
    var s, from := pre + open + t, |pre| + |open|;
    assert s[0..|pre|] == pre && s[|pre|..from] == open && s[from..] == t && s[from..|s|] == t;
    FirstTag(s, 0, |pre|, open);
    forall i | from <= i ensures !OccursAt(s, close, i) {
      if OccursAt(s, close, i) { OccursInside(s, from, |s|, close, i); }
    }
  }

  /** One pass over a tag takes the first block out, with everything in it, and goes on
      with the text before and behind it; without a block it stops. */
  lemma StripTagTakesBlock(a: string, x: string, b: string, tag: string)
    requires TagName(tag) && !Contains(a, OpenTag(tag)) && !Contains(x, CloseTag(tag))
    ensures StripTag(a + OpenTag(tag) + x + CloseTag(tag) + b, tag) == StripTag(a + b, tag)
  {
    var open, close := OpenTag(tag), CloseTag(tag);
    var s, from := a + open + x + close + b, |a| + |open|;
    var end := from + |x|;
    TagsAngled(tag);
    FivePieces(a, open, x, close, b);
    FirstTag(s, 0, |a|, open);
    FirstTag(s, from, end, close);
    forall i | |a| <= i < end ensures !OccursAt(s, close, i) {
      if OccursAt(s, close, i) { CloseBehindOpening(s, tag, |a|, i); }
    }
    FindIs(s, close, |a|, end);
    assert WithoutBlock(s, open, close) == Some(a + b);
  }

  lemma FivePieces(a: string, open: string, x: string, close: string, b: string)
    ensures var s, from := a + open + x + close + b, |a| + |open|;
            var end := from + |x|;
            && s[..|a|] == s[0..|a|] == a && s[|a|..from] == open && s[from..end] == x
            && s[end..end + |close|] == close && s[end + |close|..] == b
  {
    var s, from := a + open + x + close + b, |a| + |open|;
    var end := from + |x|;
    assert s[0..|a|] == a;
    assert s[|a|..from] == open;
    assert s[from..end] == x;
    assert s[end..end + |close|] == close;
  }

  lemma CloseBehindOpening(s: string, tag: string, n: nat, i: int)
    requires TagName(tag) && OccursAt(s, OpenTag(tag), n) && n <= i && OccursAt(s, CloseTag(tag), i)
    ensures n + |OpenTag(tag)| <= i
  {
    TagsAngled(tag);
    if i == n { CloseIsNoOpening(s, tag, tag, n); } else { TagsDisjoint(s, OpenTag(tag), CloseTag(tag), n, i); }
  }

  // ----- Blocks that do not touch -----

  /** Whatever follows it, `open` does not stand in `front` or at its end. */
  ghost predicate NeverOpens(front: string, open: string)
  {
    forall b, i :: 0 <= i < |front| ==> !OccursAt(front + b, open, i)
  }

  lemma OccursBehind(front: string, b: string, pat: string, j: nat)
    ensures OccursAt(front + b, pat, |front| + j) <==> OccursAt(b, pat, j)
  {
    if j + |pat| <= |b| {
      assert (front + b)[|front| + j..|front| + j + |pat|] == b[j..j + |pat|];
    }
  }

  /** Finding goes on behind a front that holds no match. */
  lemma FindBehind(front: string, b: string, pat: string, from: nat, i: nat)
    requires i <= |b| && from <= |front| + i
    requires forall j :: from <= j < |front| + i ==> !OccursAt(front + b, pat, j)
    ensures Find(front + b, pat, from) == Further(|front|, Find(b, pat, i))
  {
    forall j: nat ensures OccursAt(front + b, pat, |front| + j) <==> OccursAt(b, pat, j) {
      OccursBehind(front, b, pat, j);
    }
    match Find(b, pat, i)
    case Some(at) =>
      forall j | from <= j < |front| + at ensures !OccursAt(front + b, pat, j) {
        if j >= |front| + i { OccursBehind(front, b, pat, j - |front|); }
      }
      FindIs(front + b, pat, from, |front| + at);
    case None =>
      forall j | from <= j ensures !OccursAt(front + b, pat, j) {
        if j >= |front| + i { OccursBehind(front, b, pat, j - |front|); }
      }
  }

  lemma BlockFound(s: string, open: string, close: string, x: nat, e: nat, r: string)
    requires close != "" && Find(s, open, 0) == Some(x) && x <= |s| && Find(s, close, x) == Some(e)
    requires e + |close| <= |s| && Cut(s, x, e + |close|) == r
    ensures WithoutBlock(s, open, close) == Some(r)
  {
  }

  lemma NoBlockFound(s: string, open: string, close: string)
    requires close != ""
    requires var x := Find(s, open, 0); x.None? || Find(s, close, x.value).None?
    ensures WithoutBlock(s, open, close) == None
  {
  }

  /** `front` put before what is found, if anything. */
  function PutBefore(front: string, rest: Option<string>): Option<string>
  {
    match rest
    case None => None
    case Some(s) => Some(front + s)
  }

  /** What is found in `s` is what is found in `b` behind `front`, and cutting it out of `s`
      leaves `front` before what cutting it out of `b` leaves. */
  ghost predicate Shifted(front: string, s: string, b: string, open: string, close: string)
  {
    var start := Find(b, open, 0);
    && Find(s, open, 0) == Further(|front|, start)
    && (start.Some? ==> ShiftedFrom(front, s, b, close, start.value))
  }

  ghost predicate ShiftedFrom(front: string, s: string, b: string, close: string, x: nat)
  {
    var n := |front|;
    && |s| == n + |b| && x <= |b|
    && Find(s, close, n + x) == Further(n, Find(b, close, x))
    && CutsShifted(front, s, b, x)
  }

  ghost predicate CutsShifted(front: string, s: string, b: string, x: nat)
    requires x <= |b| && |s| == |front| + |b|
  {
    forall y :: x <= y <= |b| ==> CutShifted(front, s, b, x, y)
  }

  ghost predicate CutShifted(front: string, s: string, b: string, x: nat, y: nat)
    requires x <= y <= |b| && |s| == |front| + |b|
  {
    Cut(s, |front| + x, |front| + y) == front + Cut(b, x, y)
  }

  function Further(n: nat, at: Option<nat>): Option<nat>
  {
    match at
    case None => None
    case Some(i) => Some(n + i)
  }

  lemma FrontShifts(front: string, b: string, open: string, close: string)
    requires forall i :: 0 <= i < |front| ==> !OccursAt(front + b, open, i)
    ensures Shifted(front, front + b, b, open, close)
  {
    FindBehind(front, b, open, 0, 0);
    var start := Find(b, open, 0);
    if start.Some? { CloseShifts(front, b, close, start.value); }
  }

  lemma CloseShifts(front: string, b: string, close: string, x: nat)
    requires x <= |b|
    ensures ShiftedFrom(front, front + b, b, close, x)
  {
    FindBehind(front, b, close, |front| + x, x);
    forall y | x <= y <= |b| ensures CutShifted(front, front + b, b, x, y) { CutBehind(front, b, x, y); }
  }

  lemma NothingShifted(front: string, s: string, b: string, open: string, close: string)
    requires close != "" && Shifted(front, s, b, open, close)
    requires var x := Find(b, open, 0); x.None? || Find(b, close, x.value).None?
    ensures WithoutBlock(s, open, close) == WithoutBlock(b, open, close) == None
  {
    NoBlockFound(s, open, close);
    NoBlockFound(b, open, close);
  }

  lemma BlockShifted(front: string, s: string, b: string, open: string, close: string, x: nat, e: nat)
    requires close != "" && x <= e && e + |close| <= |b| && |s| == |front| + |b|
    requires Find(b, open, 0) == Some(x) && Find(b, close, x) == Some(e)
    requires Find(s, open, 0) == Some(|front| + x) && Find(s, close, |front| + x) == Some(|front| + e)
    requires CutShifted(front, s, b, x, e + |close|)
    ensures WithoutBlock(s, open, close) == PutBefore(front, WithoutBlock(b, open, close))
  {
    var r := Cut(b, x, e + |close|);
    BlockFound(b, open, close, x, e, r);
    BlockFound(s, open, close, |front| + x, |front| + e, front + r);
  }

  lemma FrontBlock(front: string, s: string, b: string, open: string, close: string)
    requires close != "" && Shifted(front, s, b, open, close)
    ensures WithoutBlock(s, open, close) == PutBefore(front, WithoutBlock(b, open, close))
  {
    var x := Find(b, open, 0);
    if x.None? || Find(b, close, x.value).None? {
      NothingShifted(front, s, b, open, close);
    } else {
      var e := Find(b, close, x.value).value;
      assert CutShifted(front, s, b, x.value, e + |close|);
      BlockShifted(front, s, b, open, close, x.value, e);
    }
  }

  lemma CutBehind(front: string, b: string, x: nat, y: nat)
    requires x <= y <= |b|
    ensures CutShifted(front, front + b, b, x, y)
  {
    assert (front + b)[..|front| + x] == front + b[..x];
    assert (front + b)[|front| + y..] == b[y..];
  }

  /** A pass leaves a front alone in which its tag does not open. */
  lemma {:induction false} FrontPasses(front: string, b: string, tag: string)
    requires NeverOpens(front, OpenTag(tag))
    ensures StripTag(front + b, tag) == front + StripTag(b, tag)
    decreases |b|
  {
    assert forall i :: 0 <= i < |front| ==> !OccursAt(front + b, OpenTag(tag), i);
    FrontShifts(front, b, OpenTag(tag), CloseTag(tag));
    FrontBlock(front, front + b, b, OpenTag(tag), CloseTag(tag));
    var rest := WithoutBlock(b, OpenTag(tag), CloseTag(tag));
    if rest.Some? { FrontPasses(front, rest.value, tag); }
  }

  lemma PlainNeverOpens(a: string, name: string)
    requires '<' !in a
    ensures NeverOpens(a, OpenTag(name))
  {
    forall b, i | 0 <= i < |a| ensures !OccursAt(a + b, OpenTag(name), i) {
      if OccursAt(a + b, OpenTag(name), i) { CharOf(a + b, OpenTag(name), i, 0); }
    }
  }

  lemma BlockNeverOpens(a: string, tag: string, x: string, name: string)
    requires TagName(tag) && TagName(name) && name != tag && '<' !in a && '<' !in x
    ensures NeverOpens(a + OneBlock(tag, x), OpenTag(name))
  {
    var r, m := OneBlock(tag, x), |OpenTag(tag)| + |x|;
    OneBlockAngles(tag, x);
    forall b, i | 0 <= i < |a + r| ensures !OccursAt((a + r) + b, OpenTag(name), i) {
      var s := (a + r) + b;
      if OccursAt(s, OpenTag(name), i) {
        CharOf(s, OpenTag(name), i, 0);
        assert i >= |a| && r[i - |a|] == '<';
        BlockStands(a, tag, x, b);
        TagsAngled(tag);
        TagsAngled(name);
        OpeningsDiffer(tag, name);
        if i == |a| { SameTag(s, OpenTag(tag), OpenTag(name), i); } else { CloseIsNoOpening(s, name, tag, i); }
      }
    }
  }

  lemma BlockStands(a: string, tag: string, x: string, b: string)
    ensures var s := (a + OneBlock(tag, x)) + b;
            OccursAt(s, OpenTag(tag), |a|) && OccursAt(s, CloseTag(tag), |a| + |OpenTag(tag)| + |x|)
  {
    var r, s := OneBlock(tag, x), (a + OneBlock(tag, x)) + b;
    var n, m := |a| + |OpenTag(tag)|, |a| + |OpenTag(tag)| + |x|;
    assert s[|a|..n] == OpenTag(tag);
    assert s[m..m + |CloseTag(tag)|] == CloseTag(tag);
  }

  lemma {:induction false} FlatBlockGoes(a: string, x: string, b: string, tag: string, tags: seq<string>)
    requires tag in tags && (forall k :: 0 <= k < |tags| ==> TagName(tags[k])) && '<' !in a && '<' !in x
    ensures StripTags((a + OneBlock(tag, x)) + b, tags) == StripTags(a + b, tags)
    decreases |tags|
  {
    var first, r := tags[0], OneBlock(tag, x);
    if first == tag {
      PlainNeverOpens(a, tag);
      assert !Contains(a, OpenTag(tag)) by { assert a + "" == a; }
      assert !Contains(x, CloseTag(tag)) by {
        if Contains(x, CloseTag(tag)) {
          var i :| OccursAt(x, CloseTag(tag), i);
          CharOf(x, CloseTag(tag), i, 0);
        }
      }
      SpelledOut(a, x, b, tag);
      StripTagTakesBlock(a, x, b, tag);
    } else {
      BlockNeverOpens(a, tag, x, first);
      FrontPasses(a + r, b, first);
      PlainNeverOpens(a, first);
      FrontPasses(a, b, first);
      FlatBlockGoes(a, x, StripTag(b, first), tag, tags[1..]);
    }
  }

  /** The first block of any system tag goes whole, whatever text and blocks follow it. */
  lemma SystemBlockGoes(k: nat, a: string, x: string, b: string)
    requires k < |SYSTEM_TAGS| && '<' !in a && '<' !in x
    ensures StripSystemTags(a + OpenTag(SYSTEM_TAGS[k]) + x + CloseTag(SYSTEM_TAGS[k]) + b) == StripSystemTags(a + b)
  {
    SystemTagNames();
    var tag := SYSTEM_TAGS[k];
    FlatBlockGoes(a, x, b, tag, SYSTEM_TAGS);
    SpelledOut(a, x, b, tag);
  }

  lemma SpelledOut(a: string, x: string, b: string, tag: string)
    ensures (a + OneBlock(tag, x)) + b == a + OpenTag(tag) + x + CloseTag(tag) + b
  {
  }

  /** Text without a `<` is only trimmed. */
  lemma PlainTextExtracts(t: string)
    requires '<' !in t
    ensures ExtractUserQuery(t) == Trim(t)
  {
    forall i, tag ensures !OccursAt(t, OpenTag(tag), i) {
      if OccursAt(t, OpenTag(tag), i) { CharOf(t, OpenTag(tag), i, 0); }
    }
    AbsentTagsPass(t, SYSTEM_TAGS);
    QueryTagName();
    NoOpeningNoPart(t, QUERY_OPEN, QUERY_CLOSE);
  }

  /** A plain typed message anchors the boundary unless it is blank or one of the two texts
      the agent itself sends to go on. */
  lemma PlainTurnIsReal(t: string)
    requires '<' !in t
    ensures PartsText([TextPart(t)]) == t
    ensures IsRealUserTurn(UserText(t))
            <==> Trim(t) != "" && Trim(t) != AUTO_CONTINUE_SENTINEL && Trim(t) != AUTO_CONTINUE_PROMPT
    ensures forall reason :: !IsRealUserTurn(SyntheticText(t, reason))
  {
    assert [TextPart(t)][1..] == [];
    assert TextsOf([TextPart(t)]) == [t];
    PlainTextExtracts(t);
    assert UserText(t).content == [TextPart(t)];
  }

  // ----- Wrapping and extracting -----

  lemma BetweenIs(text: string, open: string, close: string, end: nat)
    requires OccursAt(text, open, 0) && |open| <= |text| && Find(text, close, |open|) == Some(end)
    ensures Between(text, open, close) == Some(text[|open|..end])
  {
    FindIs(text, open, 0, 0);
  }

  lemma OpenedQueryPart(w: string, end: nat)
    requires OccursAt(w, QUERY_OPEN, 0) && |QUERY_OPEN| <= |w|
    requires Find(w, QUERY_CLOSE, |QUERY_OPEN|) == Some(end)
    ensures QueryPart(w) == Trim(w[|QUERY_OPEN|..end])
  {
    BetweenIs(w, QUERY_OPEN, QUERY_CLOSE, end);
  }

  lemma NewlinesHideNoTag(q: string, tag: string)
    requires TagShaped(tag) && '\n' !in tag && !Contains(q, tag)
    ensures !Contains("\n" + q + "\n", tag)
  {
    var inner := "\n" + q + "\n";
    assert inner[1..1 + |q|] == q;
    forall i | OccursAt(inner, tag, i) ensures false {
      OccurrenceChars(inner, tag, i);
      var last := |tag| - 1;
      assert inner[i + 0] in tag && inner[i + last] in tag;
      OccursInside(inner, 1, 1 + |q|, tag, i);
    }
  }

  lemma CloseFreeQueryPart(q: string)
    requires !Contains(q, QUERY_CLOSE)
    ensures QueryPart(WrapUserQuery(q)) == Trim("\n" + q + "\n")
  {
    var w := WrapUserQuery(q);
    var inner := "\n" + q + "\n";
    var end := |QUERY_OPEN| + |inner|;
    assert w == QUERY_OPEN + inner + QUERY_CLOSE;
    assert w[|QUERY_OPEN|..end] == inner;
    NewlinesHideNoTag(q, QUERY_CLOSE);
    FirstTag(w, |QUERY_OPEN|, end, QUERY_CLOSE);
    OpenedQueryPart(w, end);
  }

  lemma LeadingNewlineTrims(t: string)
    requires t != "" && t[0] == '\n'
    ensures |Trim(t)| < |t|
  {
  }

  lemma OccursWithin(a: string, q: string, b: string, pat: string, i: int)
    requires OccursAt(q, pat, i)
    ensures OccursAt(a + q + b, pat, |a| + i)
  {
    assert (a + q + b)[|a|..|a| + |q|] == q;
    SliceOccurs(a + q + b, |a|, |a| + |q|, pat, i);
  }

  lemma EarlyCloseShortens(q: string)
    requires Contains(q, QUERY_CLOSE)
    ensures |QueryPart(WrapUserQuery(q))| < |q|
  {
    var w := WrapUserQuery(q);
    var i :| OccursAt(q, QUERY_CLOSE, i);
    var at := |QUERY_OPEN| + 1 + i;
    OccursWithin(QUERY_OPEN + "\n", q, "\n" + QUERY_CLOSE, QUERY_CLOSE, i);
    assert w == QUERY_OPEN + "\n" + q + ("\n" + QUERY_CLOSE);
    var found := Find(w, QUERY_CLOSE, |QUERY_OPEN|);
    assert found.Some? && found.value <= at;
    OpenedQueryPart(w, found.value);
    var inner := w[|QUERY_OPEN|..found.value];
    if inner != "" { LeadingNewlineTrims(inner); }
  }

  /** A query comes back from its `<user_query>` wrapper exactly when it is free of
      the closing tag, trimmed, and without a block of a runtime tag. */
  lemma QueryRoundTrip(q: string)
    ensures ExtractUserQuery(WrapUserQuery(q)) == q
            <==> Trimmed(q) && NoTagBlocks(q) && !Contains(q, QUERY_CLOSE)
  {
    StrippedFixedIff(q);
    if Contains(q, QUERY_CLOSE) {
      EarlyCloseShortens(q);
    } else {
      CloseFreeQueryPart(q);
      if Trimmed(q) {
        TrimPadded("\n", q, "\n");
      }
    }
  }
}
