/** One terminal line as styled runs and as plain text. */
module StyledRuns {
  import opened Wrappers
  import opened Text

  datatype Style = Style(
    fg: Option<string>, bg: Option<string>, bold: bool, italic: bool, underline: bool, strikeout: bool,
    dim: bool, inverse: bool)

  /** `spacer` marks the filler cells around a wide character. */
  datatype Cell = Cell(c: char, zeroWidth: string, spacer: bool, style: Style)

  datatype Run = Run(text: string, style: Style)

  /** Where the cursor is on this line, and the character to draw it with. */
  datatype Cursor = Cursor(column: Option<nat>, drawn: Option<char>)

  predicate DrawnAt(cursor: Cursor, k: nat)
  {
    cursor.column == Some(k) && cursor.drawn.Some?
  }

  /** What a cell shows in the styled view: its character or the cursor's, and every
      combining character on it. */
  function Shown(cell: Cell, k: nat, cursor: Cursor): string
  {
    if cell.spacer then ""
    else [if DrawnAt(cursor, k) then cursor.drawn.value else cell.c] + cell.zeroWidth
  }

  /** The same in the plain view: the drawn cursor replaces the combining characters too. */
  function PlainShown(cell: Cell, k: nat, cursor: Cursor): string
  {
    if cell.spacer then "" else if DrawnAt(cursor, k) then [cursor.drawn.value] else [cell.c] + cell.zeroWidth
  }

  type Painted = seq<(char, Style)>

  function Paint(text: string, style: Style): (p: Painted)
    ensures |p| == |text|
    ensures forall k :: 0 <= k < |text| ==> p[k] == (text[k], style)
  {
    seq(|text|, k requires 0 <= k < |text| => (text[k], style))
  }

  /** Every character shown from `from` up to `to`, with its style. */
  function Line(row: seq<Cell>, from: nat, to: nat, cursor: Cursor): Painted
    requires to <= |row|
  {
    if to <= from then []
    else Line(row, from, to - 1, cursor) + Paint(Shown(row[to - 1], to - 1, cursor), row[to - 1].style)
  }

  function Expand(runs: seq<Run>): Painted
  {
    if runs == [] then []
    else Expand(runs[..|runs| - 1]) + Paint(runs[|runs| - 1].text, runs[|runs| - 1].style)
  }

  /** No empty run, and neighbours differ in style. */
  ghost predicate Coalesced(runs: seq<Run>)
  {
    && (forall k :: 0 <= k < |runs| ==> runs[k].text != "")
    && forall k :: 0 <= k < |runs| - 1 ==> runs[k].style != runs[k + 1].style
  }

  predicate Blank(r: Run)
  {
    Trim(r.text) == "" && r.style.fg.None? && r.style.bg.None? && !r.style.bold
  }

  function DropBlankRuns(runs: seq<Run>): (kept: seq<Run>)
    ensures kept <= runs
  {
    if runs != [] && Blank(runs[|runs| - 1]) then DropBlankRuns(runs[..|runs| - 1]) else runs
  }

  /** Exactly the trailing runs go that hold only whitespace, in no colour and not bold: each
      run left out is one, and the last one kept is not. */
  lemma {:induction false} OnlyBlankRunsGo(runs: seq<Run>)
    ensures var kept := DropBlankRuns(runs);
            && (forall k :: |kept| <= k < |runs| ==>
                  forall i :: 0 <= i < |runs[k].text| ==> IsWhitespace(runs[k].text[i]))
            && (forall k :: |kept| <= k < |runs| ==>
                  runs[k].style.fg == None && runs[k].style.bg == None && !runs[k].style.bold)
            && (kept != [] ==>
                  var last := kept[|kept| - 1];
                  || last.style.fg != None || last.style.bg != None || last.style.bold
                  || exists i :: 0 <= i < |last.text| && !IsWhitespace(last.text[i]))
  {
    if runs != [] {
      var last := runs[|runs| - 1];
      if Blank(last) {
        OnlyBlankRunsGo(runs[..|runs| - 1]);
        TrimmedBlank(last.text);
      } else {
        SomethingShows(last.text);
      }
    }
  }

  lemma SomethingShows(s: string)
    ensures Trim(s) != "" ==> exists i :: 0 <= i < |s| && !IsWhitespace(s[i])
  {
    if Trim(s) != "" {
      var t := TrimStart(s);
      assert !IsWhitespace(t[0]) && t[0] == s[|s| - |t|];
    }
  }

  // ----- The source's loops -----

  /** The runs being built: those flushed, and the current text with its style. */
  datatype Builder = Builder(runs: seq<Run>, text: string, style: Option<Style>)

  /** One cell's characters: they extend the current run or, in a new style, flush it. */
  function Push(b: Builder, style: Style, shown: string): Builder
  {
    if b.style.Some? && b.style.value != style then
      Builder(b.runs + [Run(b.text, b.style.value)], shown, Some(style))
    else Builder(b.runs, b.text + shown, Some(style))
  }

  function Finish(b: Builder): seq<Run>
  {
    if b.text != "" && b.style.Some? then b.runs + [Run(b.text, b.style.value)] else b.runs
  }

  ghost predicate Builds(b: Builder, painted: Painted)
  {
    && Coalesced(b.runs)
    && (if b.style.None? then b.runs == [] && b.text == "" && painted == []
        else
          && b.text != "" && (b.runs != [] ==> b.runs[|b.runs| - 1].style != b.style.value)
          && painted == Expand(b.runs) + Paint(b.text, b.style.value))
  }

  lemma PushBuilds(b: Builder, style: Style, shown: string, painted: Painted)
    requires Builds(b, painted) && shown != ""
    ensures Builds(Push(b, style, shown), painted + Paint(shown, style))
  {
    if b.style.Some? && b.style.value != style {
      ExpandPush(b.runs, Run(b.text, b.style.value));
      CoalescedPush(b.runs, Run(b.text, b.style.value));
    } else {
      Extend(b.runs, b.text, style, shown);
    }
  }

  lemma FinishBuilds(b: Builder, painted: Painted)
    requires Builds(b, painted)
    ensures Coalesced(Finish(b)) && Expand(Finish(b)) == painted
  {
    if b.style.Some? {
      ExpandPush(b.runs, Run(b.text, b.style.value));
      CoalescedPush(b.runs, Run(b.text, b.style.value));
    }
  }

  /** Consecutive cells of one style become one run. */
  method CollectRuns(row: seq<Cell>, colStart: nat, colEnd: nat, cursor: Cursor) returns (runs: seq<Run>)
    requires colStart <= colEnd <= |row|
    ensures Coalesced(runs) && Expand(runs) == Line(row, colStart, colEnd, cursor)
  {
    runs := [];
    var currentText := "";
    var currentStyle: Option<Style> := None;
    for col := colStart to colEnd
      invariant Builds(Builder(runs, currentText, currentStyle), Line(row, colStart, col, cursor))
    {
      LineStep(row, colStart, col, cursor);
      runs, currentText, currentStyle :=
        TakeCell(runs, currentText, currentStyle, row[col], col, cursor, Line(row, colStart, col, cursor));
    }
    FinishBuilds(Builder(runs, currentText, currentStyle), Line(row, colStart, colEnd, cursor));
    if currentText != "" {
      runs := runs + [Run(currentText, currentStyle.value)];
    }
  }

  method TakeCell(runs: seq<Run>, text: string, current: Option<Style>, cell: Cell, col: nat, cursor: Cursor,
                  ghost painted: Painted)
    returns (runs': seq<Run>, text': string, current': Option<Style>)
    requires Builds(Builder(runs, text, current), painted)
    ensures Builds(Builder(runs', text', current'), painted + Paint(Shown(cell, col, cursor), cell.style))
  {
    if cell.spacer {
      assert painted + Paint("", cell.style) == painted;
      return runs, text, current;
    }
    var shown := CellText(cell, col, cursor);
    PushBuilds(Builder(runs, text, current), cell.style, shown, painted);
    runs', text', current' := PushCell(runs, text, current, cell.style, shown);
  }

  /** Flushes the current run when the style changes, then takes the cell's characters. */
  method PushCell(runs: seq<Run>, text: string, current: Option<Style>, style: Style, shown: string)
    returns (runs': seq<Run>, text': string, current': Option<Style>)
    ensures Builder(runs', text', current') == Push(Builder(runs, text, current), style, shown)
  {
    runs', text' := runs, text;
    if current.Some? && current.value != style {
      runs' := runs + [Run(text, current.value)];
      text' := "";
    }
    current', text' := Some(style), text' + shown;
  }

  /** The cursor's or the cell's own character, then the combining ones. */
  method CellText(cell: Cell, col: nat, cursor: Cursor) returns (shown: string)
    requires !cell.spacer
    ensures shown == Shown(cell, col, cursor) && shown != ""
  {
    shown := [if DrawnAt(cursor, col) then cursor.drawn.value else cell.c];
    for i := 0 to |cell.zeroWidth|
      invariant shown == Shown(cell, col, cursor)[..i + 1]
    {
      shown := shown + [cell.zeroWidth[i]];
    }
  }

  lemma LineStep(row: seq<Cell>, from: nat, col: nat, cursor: Cursor)
    requires from <= col < |row|
    ensures Line(row, from, col + 1, cursor)
            == Line(row, from, col, cursor) + Paint(Shown(row[col], col, cursor), row[col].style)
  {
  }

  function AddChar(runs: seq<Run>, c: char, style: Style): seq<Run>
  {
    var n := |runs| - 1;
    if n >= 0 && runs[n].style == style then runs[..n] + [Run(runs[n].text + [c], style)]
    else runs + [Run([c], style)]
  }

  /** The coalesced form of a painted line, one character at a time. */
  function RunsOf(p: Painted): seq<Run>
  {
    if p == [] then [] else AddChar(RunsOf(p[..|p| - 1]), p[|p| - 1].0, p[|p| - 1].1)
  }

  /** One more character in the last run's style lengthens that run. */
  lemma ExtendLast(before: seq<Run>, last: Run, c: char)
    requires Coalesced(before + [last])
    ensures var longer := before + [Run(last.text + [c], last.style)];
            Coalesced(longer) && Expand(longer) == Expand(before + [last]) + Paint([c], last.style)
  {
    FrontCoalesced(before, last);
    ExpandPush(before, last);
    ExpandPush(before, Run(last.text + [c], last.style));
    Extend(before, last.text, last.style, [c]);
    assert before != [] ==> before[|before| - 1] == (before + [last])[|before| - 1];
    assert (before + [last])[|before|] == last;
    CoalescedPush(before, Run(last.text + [c], last.style));
  }

  lemma AddCharExpands(runs: seq<Run>, c: char, style: Style)
    requires Coalesced(runs)
    ensures Coalesced(AddChar(runs, c, style))
    ensures Expand(AddChar(runs, c, style)) == Expand(runs) + [(c, style)]
  {
    var n := |runs| - 1;
    assert Paint([c], style) == [(c, style)];
    if n >= 0 && runs[n].style == style {
      assert runs == runs[..n] + [runs[n]];
      ExtendLast(runs[..n], runs[n], c);
    } else {
      ExpandPush(runs, Run([c], style));
      CoalescedPush(runs, Run([c], style));
    }
  }

  lemma {:induction false} RunsOfExpand(p: Painted)
    ensures Coalesced(RunsOf(p)) && Expand(RunsOf(p)) == p
  {
    if p != [] {
      var front, last := p[..|p| - 1], p[|p| - 1];
      RunsOfExpand(front);
      AddCharExpands(RunsOf(front), last.0, last.1);
      assert Expand(RunsOf(p)) == front + [last] == p;
    }
  }

  /** The runs of a line: its characters coalesced by style, less trailing blank runs. */
  method ExtractStyledLine(row: seq<Cell>, colStart: nat, colEnd: nat, cursor: Cursor) returns (line: seq<Run>)
    requires colEnd <= |row|
    ensures line == DropBlankRuns(RunsOf(Line(row, colStart, colEnd, cursor)))
  {
    line := [];
    if colStart < colEnd {
      line := CollectRuns(row, colStart, colEnd, cursor);
    }
    RunsOfExpand(Line(row, colStart, colEnd, cursor));
    CoalescedUnique(line, RunsOf(Line(row, colStart, colEnd, cursor)));
    ghost var runs := line;
    while line != [] && Blank(line[|line| - 1])
      invariant DropBlankRuns(line) == DropBlankRuns(runs)
      decreases |line|
    {
      line := line[..|line| - 1];
    }
  }

  lemma ExpandPush(runs: seq<Run>, r: Run)
    ensures Expand(runs + [r]) == Expand(runs) + Paint(r.text, r.style)
  {
    assert (runs + [r])[..|runs|] == runs;
  }

  lemma CoalescedPush(runs: seq<Run>, r: Run)
    requires Coalesced(runs) && r.text != "" && (runs != [] ==> runs[|runs| - 1].style != r.style)
    ensures Coalesced(runs + [r])
  {
  }

  /** More text of one style goes onto the current run. */
  lemma Extend(runs: seq<Run>, text: string, style: Style, more: string)
    ensures Expand(runs) + Paint(text + more, style) == (Expand(runs) + Paint(text, style)) + Paint(more, style)
    ensures text == "" ==> Expand(runs) + Paint(text, style) == Expand(runs)
  {
    assert Paint(text + more, style) == Paint(text, style) + Paint(more, style);
  }

  // ----- The runs are determined by the line -----

  /** Coalescing loses nothing and adds nothing: a line has one coalesced form. */
  lemma {:induction false} CoalescedUnique(a: seq<Run>, b: seq<Run>)
    requires Coalesced(a) && Coalesced(b) && Expand(a) == Expand(b)
    ensures a == b
  {
    if a == [] || b == [] {
      EmptyExpand(a);
      EmptyExpand(b);
    } else {
      var x, y := a[|a| - 1], b[|b| - 1];
      var fa, fb := a[..|a| - 1], b[..|b| - 1];
      assert a == fa + [x] && b == fb + [y];
      ExpandPush(fa, x);
      ExpandPush(fb, y);
      LastRunsEqual(fa, x, fb, y);
      CoalescedUnique(fa, fb);
    }
  }

  lemma EmptyExpand(runs: seq<Run>)
    requires Coalesced(runs)
    ensures Expand(runs) == [] <==> runs == []
  {
  }

  /** What comes before a run ends in another style. */
  lemma LastStyle(front: seq<Run>, r: Run, n: nat)
    requires Coalesced(front + [r]) && n == |r.text|
    ensures n > 0
    ensures Expand(front) != [] ==> Expand(front)[|Expand(front)| - 1].1 != r.style
  {
    var all := front + [r];
    assert all[|front|] == r;
    if front != [] {
      var q := front[|front| - 1];
      assert all[|front| - 1] == q;
      assert Expand(front) == Expand(front[..|front| - 1]) + Paint(q.text, q.style);
    }
  }

  lemma LastRunsEqual(fa: seq<Run>, x: Run, fb: seq<Run>, y: Run)
    requires Coalesced(fa + [x]) && Coalesced(fb + [y])
    requires Expand(fa) + Paint(x.text, x.style) == Expand(fb) + Paint(y.text, y.style)
    ensures x == y && Expand(fa) == Expand(fb) && Coalesced(fa) && Coalesced(fb)
  {
    LastStyle(fa, x, |x.text|);
    LastStyle(fb, y, |y.text|);
    SplitEqual(Expand(fa), x, Expand(fb), y);
    FrontCoalesced(fa, x);
    FrontCoalesced(fb, y);
  }

  lemma FrontCoalesced(front: seq<Run>, r: Run)
    requires Coalesced(front + [r])
    ensures Coalesced(front)
  {
    assert forall k :: 0 <= k < |front| ==> front[k] == (front + [r])[k];
  }

  /** Two ways to end the same painted text in one maximal run are the same. */
  lemma SplitEqual(a: Painted, x: Run, b: Painted, y: Run)
    requires a + Paint(x.text, x.style) == b + Paint(y.text, y.style)
    requires x.text != "" && y.text != ""
    requires a != [] ==> a[|a| - 1].1 != x.style
    requires b != [] ==> b[|b| - 1].1 != y.style
    ensures x == y && a == b
  {
    var p, q := a + Paint(x.text, x.style), b + Paint(y.text, y.style);
    assert p[|p| - 1].1 == x.style && q[|q| - 1].1 == y.style;
    Before(p, a, x, |b|);
    Before(q, b, y, |a|);
    assert a == p[..|a|] == q[..|b|] == b;
    SameText(a, x, y);
  }

  /** Where a style ends cannot lie inside the last run. */
  lemma Before(p: Painted, a: Painted, x: Run, n: nat)
    requires p == a + Paint(x.text, x.style) && n <= |p|
    requires n > 0 ==> p[n - 1].1 != x.style
    ensures n <= |a|
  {
    assert forall k :: |a| <= k < |p| ==> p[k].1 == x.style;
  }

  lemma SameText(a: Painted, x: Run, y: Run)
    requires x.style == y.style && a + Paint(x.text, x.style) == a + Paint(y.text, y.style)
    ensures x == y
  {
    var p, q := a + Paint(x.text, x.style), a + Paint(y.text, y.style);
    assert |x.text| == |y.text|;
    forall k | 0 <= k < |x.text| ensures x.text[k] == y.text[k] {
      assert p[|a| + k].0 == x.text[k] && q[|a| + k].0 == y.text[k];
    }
  }

  // ----- Against the plain text -----

  function PlainLine(row: seq<Cell>, from: nat, to: nat, cursor: Cursor): string
    requires to <= |row|
  {
    if to <= from then ""
    else PlainLine(row, from, to - 1, cursor) + PlainShown(row[to - 1], to - 1, cursor)
  }

  method ScreenLine(row: seq<Cell>, colStart: nat, colEnd: nat, cursor: Cursor) returns (text: string)
    requires colEnd <= |row|
    ensures text == TrimEnd(PlainLine(row, colStart, colEnd, cursor))
  {
    text := "";
    if colStart < colEnd {
      for col := colStart to colEnd
        invariant text == PlainLine(row, colStart, col, cursor)
      {
        var cell := row[col];
        if !cell.spacer {
          if DrawnAt(cursor, col) {
            text := text + [cursor.drawn.value];
          } else {
            text := text + ([cell.c] + cell.zeroWidth);
          }
        }
      }
    }
    text := TrimEnd(text);
  }

  function Chars(p: Painted): (s: string)
    ensures |s| == |p|
    ensures forall k :: 0 <= k < |p| ==> s[k] == p[k].0
  {
    seq(|p|, k requires 0 <= k < |p| => p[k].0)
  }

  /** The cell is not one whose combining characters a drawn cursor covers. */
  predicate CellIsPlain(cell: Cell, k: nat, cursor: Cursor)
  {
    DrawnAt(cursor, k) && !cell.spacer ==> cell.zeroWidth == ""
  }

  ghost predicate CursorIsPlain(row: seq<Cell>, from: nat, to: nat, cursor: Cursor)
    requires to <= |row|
  {
    forall k: nat :: from <= k < to ==> CellIsPlain(row[k], k, cursor)
  }

  lemma ShownPlainly(cell: Cell, k: nat, cursor: Cursor)
    ensures |PlainShown(cell, k, cursor)| <= |Shown(cell, k, cursor)|
    ensures |PlainShown(cell, k, cursor)| == |Shown(cell, k, cursor)| <==> CellIsPlain(cell, k, cursor)
    ensures CellIsPlain(cell, k, cursor) ==> PlainShown(cell, k, cursor) == Shown(cell, k, cursor)
  {
  }

  lemma {:induction false} PlainNotLonger(row: seq<Cell>, from: nat, to: nat, cursor: Cursor)
    requires to <= |row|
    ensures |PlainLine(row, from, to, cursor)| <= |Line(row, from, to, cursor)|
    ensures |PlainLine(row, from, to, cursor)| == |Line(row, from, to, cursor)|
            <==> CursorIsPlain(row, from, to, cursor)
  {
    if to > from {
      var last: nat := to - 1;
      PlainNotLonger(row, from, last, cursor);
      ShownPlainly(row[last], last, cursor);
      PlainUpTo(row, from, last, cursor);
      LengthStep(row, from, last, cursor);
    }
  }

  lemma LengthStep(row: seq<Cell>, from: nat, last: nat, cursor: Cursor)
    requires from <= last < |row|
    ensures |PlainLine(row, from, last + 1, cursor)|
            == |PlainLine(row, from, last, cursor)| + |PlainShown(row[last], last, cursor)|
    ensures |Line(row, from, last + 1, cursor)| == |Line(row, from, last, cursor)| + |Shown(row[last], last, cursor)|
  {
  }

  lemma PlainUpTo(row: seq<Cell>, from: nat, last: nat, cursor: Cursor)
    requires from <= last < |row|
    ensures CursorIsPlain(row, from, last + 1, cursor)
            <==> CursorIsPlain(row, from, last, cursor) && CellIsPlain(row[last], last, cursor)
  {
  }

  /** The characters of the styled view. */
  function ShownLine(row: seq<Cell>, from: nat, to: nat, cursor: Cursor): string
    requires to <= |row|
  {
    if to <= from then "" else ShownLine(row, from, to - 1, cursor) + Shown(row[to - 1], to - 1, cursor)
  }

  lemma {:induction false} CharsOfLine(row: seq<Cell>, from: nat, to: nat, cursor: Cursor)
    requires to <= |row|
    ensures Chars(Line(row, from, to, cursor)) == ShownLine(row, from, to, cursor)
  {
    if to > from {
      CharsOfLine(row, from, to - 1, cursor);
      CharsOfPaint(Line(row, from, to - 1, cursor), Shown(row[to - 1], to - 1, cursor), row[to - 1].style);
    }
  }

  lemma {:induction false} PlainIsShown(row: seq<Cell>, from: nat, to: nat, cursor: Cursor)
    requires to <= |row| && CursorIsPlain(row, from, to, cursor)
    ensures PlainLine(row, from, to, cursor) == ShownLine(row, from, to, cursor)
  {
    if to > from {
      var last: nat := to - 1;
      PlainUpTo(row, from, last, cursor);
      PlainIsShown(row, from, last, cursor);
      ShownPlainly(row[last], last, cursor);
    }
  }

  lemma PlainIsChars(row: seq<Cell>, from: nat, to: nat, cursor: Cursor)
    requires to <= |row| && CursorIsPlain(row, from, to, cursor)
    ensures PlainLine(row, from, to, cursor) == Chars(Line(row, from, to, cursor))
  {
    CharsOfLine(row, from, to, cursor);
    PlainIsShown(row, from, to, cursor);
  }

  lemma CharsOfPaint(front: Painted, text: string, style: Style)
    ensures Chars(front + Paint(text, style)) == Chars(front) + text
  {
  }

  lemma CharsConcat(a: Painted, b: Painted)
    ensures Chars(a + b) == Chars(a) + Chars(b)
  {
  }

  /** The styled view shows the plain view's characters exactly when no drawn cursor
      covers combining characters; the styled view keeps those. */
  lemma ViewsAgreeIff(row: seq<Cell>, from: nat, to: nat, cursor: Cursor)
    requires to <= |row|
    ensures PlainLine(row, from, to, cursor) == Chars(Line(row, from, to, cursor))
            <==> CursorIsPlain(row, from, to, cursor)
  {
    PlainNotLonger(row, from, to, cursor);
    if CursorIsPlain(row, from, to, cursor) { PlainIsChars(row, from, to, cursor); }
  }

  const ACUTE := "\U{0301}"

  /** They differ on one cell: an accent under a drawn cursor shows in the styled view only. */
  lemma AccentUnderCursor(c: char, style: Style, drawn: char)
    ensures var row, cursor := [Cell(c, ACUTE, false, style)], Cursor(Some(0), Some(drawn));
            && PlainLine(row, 0, 1, cursor) == [drawn]
            && Chars(Line(row, 0, 1, cursor)) == [drawn] + ACUTE
  {
    var row, cursor := [Cell(c, ACUTE, false, style)], Cursor(Some(0), Some(drawn));
    assert Line(row, 0, 1, cursor) == Line(row, 0, 0, cursor) + Paint([drawn] + ACUTE, style);
    assert PlainLine(row, 0, 1, cursor) == PlainLine(row, 0, 0, cursor) + [drawn];
  }

  lemma TrimmedBlank(s: string)
    requires Trim(s) == ""
    ensures forall k :: 0 <= k < |s| ==> IsWhitespace(s[k])
  {
    var t := TrimStart(s);
    assert forall k :: 0 <= k < |t| ==> IsWhitespace(t[k]);
    assert t == "";
  }

  lemma SameTrimEnd(s: string, blank: string)
    requires forall k :: 0 <= k < |blank| ==> IsWhitespace(blank[k])
    ensures TrimEnd(s + blank) == TrimEnd(s)
  {
    var a, b := TrimEnd(s + blank), TrimEnd(s);
    assert forall k :: |s| <= k < |s + blank| ==> (s + blank)[k] == blank[k - |s|];
    assert forall k :: 0 <= k < |s| ==> (s + blank)[k] == s[k];
    assert |a| == |b|;
  }

  /** Dropping blank runs drops only trailing whitespace. */
  lemma {:induction false} DroppedIsBlank(runs: seq<Run>)
    ensures TrimEnd(Chars(Expand(DropBlankRuns(runs)))) == TrimEnd(Chars(Expand(runs)))
  {
    if runs != [] && Blank(runs[|runs| - 1]) {
      var front, last := runs[..|runs| - 1], runs[|runs| - 1];
      DroppedIsBlank(front);
      TrimmedBlank(last.text);
      CharsConcat(Expand(front), Paint(last.text, last.style));
      assert Chars(Paint(last.text, last.style)) == last.text;
      SameTrimEnd(Chars(Expand(front)), last.text);
    }
  }

  /** A line's runs read as its plain text, trailing whitespace aside. */
  lemma RunsReadAsText(row: seq<Cell>, from: nat, to: nat, cursor: Cursor)
    requires to <= |row| && CursorIsPlain(row, from, to, cursor)
    ensures var runs := DropBlankRuns(RunsOf(Line(row, from, to, cursor)));
            TrimEnd(Chars(Expand(runs))) == TrimEnd(PlainLine(row, from, to, cursor))
  {
    PlainIsChars(row, from, to, cursor);
    RunsOfExpand(Line(row, from, to, cursor));
    DroppedIsBlank(RunsOf(Line(row, from, to, cursor)));
  }
}
