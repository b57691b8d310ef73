/** The line-buffered stream adapter: a reader task cuts a source into lines and queues
    them; the consumer is served from one whole line at a time. */
module LineReader {
  import opened Wrappers

  type byte = b: int | 0 <= b < 256
  type Bytes = seq<byte>

  const NEWLINE: byte := 10
  const MAX_LINE_SIZE: nat := 64 * 1024 * 1024

  // ----- Cutting into lines -----

  function NewlineFrom(s: Bytes, i: nat): (r: Option<nat>)
    requires i <= |s|
    ensures r.Some? ==> i <= r.value < |s| && s[r.value] == NEWLINE && forall k :: i <= k < r.value ==> s[k] != NEWLINE
    ensures r.None? ==> forall k :: i <= k < |s| ==> s[k] != NEWLINE
    decreases |s| - i
  {
    if i == |s| then None else if s[i] == NEWLINE then Some(i) else NewlineFrom(s, i + 1)
  }

  function FindNewline(s: Bytes): (r: Option<nat>)
    ensures r.Some? ==> r.value < |s| && s[r.value] == NEWLINE && forall k :: 0 <= k < r.value ==> s[k] != NEWLINE
    ensures r.None? ==> forall k :: 0 <= k < |s| ==> s[k] != NEWLINE
  {
    NewlineFrom(s, 0)
  }

  /** What the next `read_line_capped` reports of a source that still holds `s` and then
      ends, with a fault or without. */
  datatype LineResult = Read(line: Bytes) | TooLong | Broken

  /** Up to and with the first newline; everything when there is none. */
  function FirstLine(s: Bytes): (line: Bytes)
    ensures line <= s && (s != [] ==> line != [])
    ensures forall k :: 0 <= k < |line| - 1 ==> line[k] != NEWLINE
    ensures |line| < |s| ==> line != [] && line[|line| - 1] == NEWLINE
  {
    match FindNewline(s)
    case Some(n) => s[..n + 1]
    case None => s
  }

  predicate Ended(line: Bytes)
  {
    line != [] && line[|line| - 1] == NEWLINE
  }

  function NextLine(s: Bytes, fault: bool): (r: LineResult)
    ensures r.Read? ==> r.line <= s && r.line == FirstLine(s) && |r.line| <= MAX_LINE_SIZE
    ensures r.Read? && s != [] ==> r.line != []
  {
    var line := FirstLine(s);
    if |line| > MAX_LINE_SIZE then TooLong
    else if fault && !Ended(line) then Broken
    else Read(line)
  }

  /** A line is the first line of any text that continues it past its newline, or ends with it. */
  lemma FirstLineIs(s: Bytes, line: Bytes)
    requires line <= s && forall k :: 0 <= k < |line| - 1 ==> line[k] != NEWLINE
    requires Ended(line) || (line == s && NEWLINE !in s)
    ensures FirstLine(s) == line
  {
    var first := FirstLine(s);
    if Ended(line) {
      assert forall k :: 0 <= k < |line| ==> s[k] == line[k];
      assert forall k :: 0 <= k < |first| ==> first[k] == s[k];
      assert |first| == |line|;
    }
  }

  /** What is reported of a text whose first line is known. */
  lemma ReportOf(s: Bytes, line: Bytes, fault: bool)
    requires line <= s && forall k :: 0 <= k < |line| - 1 ==> line[k] != NEWLINE
    requires Ended(line) || (line == s && NEWLINE !in s)
    ensures NextLine(s, fault)
            == if |line| > MAX_LINE_SIZE then TooLong else if fault && !Ended(line) then Broken else Read(line)
  {
    FirstLineIs(s, line);
  }

  lemma LongStart(all: Bytes, buf: Bytes)
    requires buf <= all && NEWLINE !in buf
    ensures |FirstLine(all)| >= |buf|
    ensures |buf| > MAX_LINE_SIZE ==> forall fault :: NextLine(all, fault) == TooLong
  {
    var first := FirstLine(all);
    assert forall k :: 0 <= k < |buf| ==> all[k] == buf[k];
    assert forall k :: 0 <= k < |first| ==> first[k] == all[k];
  }

  /** When the limit is hit, and when a fault shows: a newline within the limit hides both. */
  lemma ErrorsIff(s: Bytes, fault: bool)
    ensures NextLine(s, fault) == TooLong <==> |s| > MAX_LINE_SIZE && NEWLINE !in s[..MAX_LINE_SIZE]
    ensures NextLine(s, fault) == Broken <==> fault && |s| <= MAX_LINE_SIZE && NEWLINE !in s
  {
    var line := FirstLine(s);
    assert forall k :: 0 <= k < |line| ==> line[k] == s[k];
    if |line| > MAX_LINE_SIZE {
      assert forall k :: 0 <= k < MAX_LINE_SIZE ==> s[..MAX_LINE_SIZE][k] == line[k];
    } else if Ended(line) {
      var n := |line| - 1;
      assert s[n] == NEWLINE;
      assert |s| > MAX_LINE_SIZE ==> s[..MAX_LINE_SIZE][n] == s[n];
    } else {
      assert |line| == |s|;
      assert line == s;
    }
  }

  /** Everything the reader task sends: lines until the end, a fault or an over-long line. */
  function Sent(s: Bytes, fault: bool): seq<LineResult>
    decreases |s|
  {
    match NextLine(s, fault)
    case Read(line) => if line == [] then [] else [Read(line)] + Sent(s[|line|..], fault)
    case TooLong => [TooLong]
    case Broken => [Broken]
  }

  /** The bytes of the lines. */
  function Data(results: seq<LineResult>): Bytes
  {
    if results == [] then []
    else (if results[0].Read? then results[0].line else []) + Data(results[1..])
  }

  lemma {:induction false} DataConcat(a: seq<LineResult>, b: seq<LineResult>)
    ensures Data(a + b) == Data(a) + Data(b)
  {
    if a == [] {
      assert a + b == b;
    } else {
      assert (a + b)[1..] == a[1..] + b;
      DataConcat(a[1..], b);
    }
  }

  ghost predicate OnlyLines(results: seq<LineResult>)
  {
    forall k :: 0 <= k < |results| ==> results[k].Read?
  }

  /** What one turn of the task sends, and what is left to send. */
  lemma SentStep(s: Bytes, fault: bool)
    ensures var r := NextLine(s, fault);
            Sent(s, fault)
            == if !r.Read? then [r] else if r.line == [] then [] else [r] + Sent(s[|r.line|..], fault)
  {
  }

  lemma {:induction false} SentIsPrefix(s: Bytes, fault: bool)
    ensures Data(Sent(s, fault)) <= s
    ensures OnlyLines(Sent(s, fault)) ==> Data(Sent(s, fault)) == s
    decreases |s|
  {
    SentStep(s, fault);
    var r := NextLine(s, fault);
    if r.Read? && r.line != [] {
      SentIsPrefix(s[|r.line|..], fault);
      LinePrefix(s, r.line, Sent(s[|r.line|..], fault));
    } else if !r.Read? {
      assert [r][1..] == [];
    }
  }

  lemma LinePrefix(s: Bytes, line: Bytes, more: seq<LineResult>)
    requires line <= s && Data(more) <= s[|line|..]
    requires OnlyLines(more) ==> Data(more) == s[|line|..]
    ensures Data([Read(line)] + more) <= s
    ensures OnlyLines([Read(line)] + more) ==> Data([Read(line)] + more) == s
  {
    PrependLine(line, more);
    assert s == line + s[|line|..];
  }

  lemma PrependLine(line: Bytes, rest: seq<LineResult>)
    ensures Data([Read(line)] + rest) == line + Data(rest)
    ensures OnlyLines([Read(line)] + rest) <==> OnlyLines(rest)
  {
    var all := [Read(line)] + rest;
    assert all[1..] == rest;
    assert forall k :: 0 <= k < |rest| ==> rest[k] == all[k + 1];
    assert forall k :: 1 <= k < |all| ==> all[k] == rest[k - 1];
  }

  lemma MoreToSend(s: Bytes, fault: bool)
    requires |Sent(s, fault)| > 1
    ensures var r := NextLine(s, fault);
            && r.Read? && r.line != [] && |s[|r.line|..]| < |s|
            && Sent(s, fault)[0] == r && Sent(s, fault)[1..] == Sent(s[|r.line|..], fault)
  {
    SentStep(s, fault);
  }

  /** Only the last thing sent can be an error. */
  lemma {:induction false} ErrorsAreLast(s: Bytes, fault: bool, k: nat)
    requires k < |Sent(s, fault)| - 1
    ensures Sent(s, fault)[k].Read?
    decreases |s|
  {
    MoreToSend(s, fault);
    if k > 0 {
      var rest := s[|NextLine(s, fault).line|..];
      ErrorsAreLast(rest, fault, k - 1);
      assert Sent(s, fault)[k] == Sent(s, fault)[1..][k - 1];
    }
  }

  /** The lines are the source up to where the task stopped, and all of it when it
      stopped at the end of the source. */
  lemma {:induction false} LinesAreTheSource(s: Bytes, fault: bool)
    ensures Data(Sent(s, fault)) <= s
    ensures OnlyLines(Sent(s, fault)) ==> Data(Sent(s, fault)) == s
    ensures forall k :: 0 <= k < |Sent(s, fault)| - 1 ==> Sent(s, fault)[k].Read?
  {
    SentIsPrefix(s, fault);
    forall k | 0 <= k < |Sent(s, fault)| - 1 ensures Sent(s, fault)[k].Read? {
      ErrorsAreLast(s, fault, k);
    }
  }

  /** A source that faults is never taken for one that ended, and only such a one. */
  lemma {:induction false} FaultIsReported(s: Bytes, fault: bool)
    ensures fault ==> Sent(s, fault) != [] && !Sent(s, fault)[|Sent(s, fault)| - 1].Read?
    ensures !fault ==> Broken !in Sent(s, fault)
    decreases |s|
  {
    SentStep(s, fault);
    ErrorsIff(s, fault);
    var r := NextLine(s, fault);
    if r.Read? && r.line != [] {
      FaultIsReported(s[|r.line|..], fault);
    }
  }

  /** A line as the task sends it. */
  ghost predicate WholeLine(line: Bytes, last: bool)
  {
    && 0 < |line| <= MAX_LINE_SIZE
    && (forall j :: 0 <= j < |line| - 1 ==> line[j] != NEWLINE)
    && (!last ==> line[|line| - 1] == NEWLINE)
  }

  lemma FirstSent(s: Bytes, fault: bool)
    requires Sent(s, fault) != [] && Sent(s, fault)[0].Read?
    ensures WholeLine(Sent(s, fault)[0].line, |Sent(s, fault)| == 1)
  {
    var line := FirstLine(s);
    if |line| == |s| {
      assert s[|s|..] == [];
      EmptySends(fault);
    }
  }

  lemma SentShift(s: Bytes, fault: bool, k: nat) returns (rest: Bytes)
    requires 0 < k < |Sent(s, fault)|
    ensures |rest| < |s| && |Sent(s, fault)| == |Sent(rest, fault)| + 1 && Sent(s, fault)[k] == Sent(rest, fault)[k - 1]
  {
    MoreToSend(s, fault);
    rest := s[|NextLine(s, fault).line|..];
  }

  /** Every line but the one at the very end stops at its newline. */
  lemma {:induction false} LinesEndInNewline(s: Bytes, fault: bool, k: nat)
    requires k < |Sent(s, fault)| && Sent(s, fault)[k].Read?
    ensures WholeLine(Sent(s, fault)[k].line, k == |Sent(s, fault)| - 1)
    decreases |s|
  {
    if k == 0 {
      FirstSent(s, fault);
    } else {
      var rest := SentShift(s, fault, k);
      LinesEndInNewline(rest, fault, k - 1);
      assert k - 1 == |Sent(rest, fault)| - 1 <==> k == |Sent(s, fault)| - 1;
    }
  }

  /** Nothing left sends no line: the end, or the fault. */
  lemma EmptySends(fault: bool)
    ensures Sent([], fault) == if fault then [Broken] else []
  {
    assert FirstLine([]) == [];
  }

  // ----- The source -----

  function Flat(chunks: seq<Bytes>): Bytes
  {
    if chunks == [] then [] else chunks[0] + Flat(chunks[1..])
  }

  /** A buffered source: its bytes arrive in chunks of any size. */
  class Source {
    var chunks: seq<Bytes>
    const fault: bool

    constructor (chunks: seq<Bytes>, fault: bool)
      ensures this.chunks == chunks && this.fault == fault
    {
      this.chunks, this.fault := chunks, fault;
    }

    ghost predicate Valid()
      reads this
    {
      forall k :: 0 <= k < |chunks| ==> chunks[k] != []
    }

    /** The next chunk; empty at the end, `None` for a fault there. */
    method FillBuf() returns (available: Option<Bytes>)
      requires Valid()
      ensures chunks != [] ==> available == Some(chunks[0]) && chunks[0] != []
      ensures chunks == [] ==> available == if fault then None else Some([])
    {
      available := if chunks != [] then Some(chunks[0]) else if fault then None else Some([]);
    }

    method Consume(n: nat)
      requires Valid() && chunks != [] && n <= |chunks[0]|
      modifies this
      ensures Valid() && Flat(chunks) == old(Flat(chunks))[n..]
      ensures |Flat(chunks)| == |old(Flat(chunks))| - n
    {
      assert Flat(chunks) == chunks[0] + Flat(chunks[1..]);
      var rest := chunks[0][n..];
      ghost var after := chunks[1..];
      chunks := if rest == [] then chunks[1..] else [rest] + chunks[1..];
      assert rest != [] ==> chunks[1..] == after;
      assert Flat(chunks) == rest + Flat(after);
    }
  }

  /** Reads one line, growing it chunk by chunk and checking the cap after each. */
  method ReadLineCapped(reader: Source) returns (r: LineResult)
    requires reader.Valid()
    modifies reader
    ensures reader.Valid()
    ensures r == NextLine(old(Flat(reader.chunks)), reader.fault)
    ensures r.Read? ==> Flat(reader.chunks) == old(Flat(reader.chunks))[|r.line|..]
  {
    ghost var all := Flat(reader.chunks);
    var buf: Bytes := [];
    while true
      invariant reader.Valid() && all == buf + Flat(reader.chunks)
      invariant |buf| <= MAX_LINE_SIZE && NEWLINE !in buf
      decreases |Flat(reader.chunks)|
    {
      var filled := reader.FillBuf();
      if filled.None? || filled.value == [] {
        assert all == buf;
        ReportOf(all, buf, reader.fault);
        assert all[|buf|..] == [];
        return if filled.None? then Broken else Read(buf);
      }
      var available := filled.value;
      FirstChunk(reader.chunks);
      match FindNewline(available) {
        case Some(pos) =>
          reader.Consume(pos + 1);
          Taken(all, buf, available, pos + 1, Flat(reader.chunks));
          LineFound(all, buf, available, pos, reader.fault);
          buf := buf + available[..pos + 1];
          return if |buf| > MAX_LINE_SIZE then TooLong else Read(buf);
        case None =>
          reader.Consume(|available|);
          Taken(all, buf, available, |available|, Flat(reader.chunks));
          buf := buf + available[..|available|];
          if |buf| > MAX_LINE_SIZE {
            LongStart(all, buf);
            return TooLong;
          }
      }
    }
  }

  lemma LineFound(all: Bytes, buf: Bytes, available: Bytes, pos: nat, fault: bool)
    requires NEWLINE !in buf && pos < |available| && available[pos] == NEWLINE && NEWLINE !in available[..pos]
    requires buf + available[..pos + 1] <= all
    ensures var line := buf + available[..pos + 1];
            NextLine(all, fault) == if |line| > MAX_LINE_SIZE then TooLong else Read(line)
  {
    var line := buf + available[..pos + 1];
    assert line[|line| - 1] == available[pos];
    forall k | 0 <= k < |line| - 1 ensures line[k] != NEWLINE {
      assert k < |buf| ==> line[k] in buf;
      assert k >= |buf| ==> line[k] == available[..pos][k - |buf|];
    }
    ReportOf(all, line, fault);
  }

  lemma FirstChunk(chunks: seq<Bytes>)
    requires chunks != []
    ensures chunks[0] <= Flat(chunks)
  {
  }

  lemma Taken(all: Bytes, buf: Bytes, available: Bytes, n: nat, after: Bytes)
    requires |buf| <= |all| && buf == all[..|buf|] && available <= all[|buf|..] && n <= |available|
    requires after == all[|buf|..][n..]
    ensures all == (buf + available[..n]) + after
    ensures after == all[|buf + available[..n]|..]
  {
  }

  // ----- The adapter -----

  datatype Poll = Ready(n: nat) | Failed | Pending

  /** What is sent and unsent makes up the whole; what is sent was delivered, or is in
      the current line, or queued. */
  ghost predicate Balanced(all: seq<LineResult>, unsent: seq<LineResult>, sent: seq<LineResult>,
                           queue: seq<LineResult>, delivered: Bytes, current: Bytes)
  {
    && all == sent + unsent
    && Data(sent) == delivered + (current + Data(queue))
    && forall k :: 0 <= k < |queue| && queue[k].Read? ==> queue[k].line != []
  }

  lemma SendKeeps(all: seq<LineResult>, unsent: seq<LineResult>, sent: seq<LineResult>, queue: seq<LineResult>,
                  delivered: Bytes, current: Bytes, r: LineResult, rest: seq<LineResult>)
    requires Balanced(all, unsent, sent, queue, delivered, current)
    requires unsent == [r] + rest && r != Read([])
    ensures Balanced(all, rest, sent + [r], queue + [r], delivered, current)
  {
    DataConcat(sent, [r]);
    DataConcat(queue, [r]);
    Assoc(delivered, current, Data(queue), Data([r]));
    assert sent + ([r] + rest) == (sent + [r]) + rest;
  }

  /** An error is the last thing queued, and ends the task. */
  ghost predicate ErrorLast(queue: seq<LineResult>, closed: bool)
  {
    forall k :: 0 <= k < |queue| && !queue[k].Read? ==> closed && k == |queue| - 1
  }

  lemma OneMoreQueued(queue: seq<LineResult>, r: LineResult, closed: bool)
    requires ErrorLast(queue, false) && (!r.Read? ==> closed)
    ensures ErrorLast(queue + [r], closed)
    ensures ErrorLast(queue, closed)
  {
  }

  /** One turn of the task: nothing at the end, otherwise one result and then the rest. */
  lemma TurnSends(s: Bytes, left: Bytes, fault: bool, r: LineResult)
    requires r == NextLine(s, fault)
    requires r.Read? ==> left == s[|r.line|..]
    ensures r.Read? && r.line == [] ==> Sent(s, fault) == []
    ensures r.Read? && r.line != [] ==> Sent(s, fault) == [r] + Sent(left, fault)
    ensures !r.Read? ==> Sent(s, fault) == [r] + []
  {
    SentStep(s, fault);
    assert [r] + [] == [r];
  }

  class LineBufferedRead {
    const reader: Source
    /** The channel: queued results, and whether the task has ended. */
    var queue: seq<LineResult>
    var closed: bool
    var buf: Bytes
    var pos: nat
    ghost var source: Bytes
    ghost var sent: seq<LineResult>
    ghost var delivered: Bytes

    /** What the task will still send. */
    ghost function Unsent(): seq<LineResult>
      reads this, reader
    {
      if closed then [] else Sent(Flat(reader.chunks), reader.fault)
    }

    ghost predicate Valid()
      reads this, reader
    {
      && reader.Valid()
      && (if buf == [] then pos == 0 else pos < |buf|)
      && Balanced(Sent(source, reader.fault), Unsent(), sent, queue, delivered, buf[pos..])
      && ErrorLast(queue, closed)
    }

    constructor (reader: Source)
      requires reader.Valid()
      ensures Valid() && this.reader == reader && source == Flat(reader.chunks) && delivered == []
      ensures queue == [] && !closed && sent == []
    {
      this.reader := reader;
      queue, closed, buf, pos := [], false, [], 0;
      source, sent, delivered := Flat(reader.chunks), [], [];
    }

    /** One turn of the reader task: a line, or the end. */
    method ReadOne()
      requires Valid() && !closed
      modifies this, reader
      ensures Valid() && source == old(source) && delivered == old(delivered)
      ensures closed || |Flat(reader.chunks)| < |old(Flat(reader.chunks))|
    {
      ghost var rest, unsent := Flat(reader.chunks), Unsent();
      var r := ReadLineCapped(reader);
      closed := !r.Read? || r.line == [];
      TurnSends(rest, Flat(reader.chunks), reader.fault, r);
      OneMoreQueued(queue, r, closed);
      if !r.Read? || r.line != [] {
        SendKeeps(Sent(source, reader.fault), unsent, sent, queue, delivered, buf[pos..], r, Unsent());
        queue, sent := queue + [r], sent + [r];
      }
    }

    /** Serves the current line, or else takes the next from the channel. */
    method PollRead(out: array<byte>) returns (r: Poll)
      requires Valid()
      modifies this, out
      ensures Valid() && source == old(source) && sent == old(sent) && closed == old(closed)
      // bytes are neither lost nor repeated, and nothing else in the buffer changes
      ensures r.Ready? ==> r.n <= out.Length && delivered == old(delivered) + out[..r.n]
      ensures r.Ready? ==> out[r.n..] == old(out[r.n..])
      ensures !r.Ready? ==> delivered == old(delivered) && out[..] == old(out[..])
      // nothing is served only at the end of the stream
      ensures r == Ready(0) && out.Length > 0 ==> closed && delivered == Data(Sent(source, reader.fault))
      // waiting happens only between lines
      ensures r.Pending? ==> !closed && delivered == Data(sent)
      // an error comes after every byte that was sent
      ensures r.Failed? ==> closed && delivered == Data(Sent(source, reader.fault))
    {
      if pos < |buf| {
        var n := ServeCurrent(out);
        return Ready(n);
      }
      assert buf[pos..] == [] && [] + Data(queue) == Data(queue);
      if queue == [] {
        assert delivered + [] == delivered && sent + [] == sent;
        return if closed then Ready(0) else Pending;
      }
      var next := queue[0];
      PopFirst(queue);
      queue := queue[1..];
      match next {
        case Read(line) =>
          var n := ServeLine(out, line);
          r := Ready(n);
        case _ =>
          assert delivered + [] == delivered && sent + [] == sent;
          r := Failed;
      }
    }

    /** The rest of the current line, as far as the buffer holds. */
    method ServeCurrent(out: array<byte>) returns (n: nat)
      requires pos < |buf|
      modifies `buf, `pos, `delivered, out
      ensures n == (if |old(buf)| - old(pos) < out.Length then |old(buf)| - old(pos) else out.Length)
      ensures delivered == old(delivered) + out[..n] && out[n..] == old(out[n..])
      ensures if buf == [] then pos == 0 else pos < |buf|
      ensures forall rest :: delivered + (buf[pos..] + rest) == old(delivered) + (old(buf[pos..]) + rest)
    {
      var avail := |buf| - pos;
      n := if avail < out.Length then avail else out.Length;
      CopyInto(out, buf[pos..pos + n]);
      forall rest ensures delivered + (buf[pos..] + rest) == (delivered + buf[pos..pos + n]) + (buf[pos + n..] + rest) {
        ServeKeeps(delivered, buf, pos, n, rest);
      }
      delivered := delivered + buf[pos..pos + n];
      pos := pos + n;
      if pos >= |buf| {
        buf, pos := [], 0;
      }
    }

    /** A line straight from the channel; what the buffer cannot hold is stashed. */
    method ServeLine(out: array<byte>, line: Bytes) returns (n: nat)
      requires buf == [] && pos == 0 && line != []
      modifies `buf, `pos, `delivered, out
      ensures n == (if |line| < out.Length then |line| else out.Length)
      ensures delivered == old(delivered) + out[..n] && out[n..] == old(out[n..])
      ensures if buf == [] then pos == 0 else pos < |buf|
      ensures forall rest :: delivered + (buf[pos..] + rest) == old(delivered) + (line + rest)
    {
      n := if |line| < out.Length then |line| else out.Length;
      CopyInto(out, line[..n]);
      forall rest ensures delivered + (line + rest) == (delivered + line[..n]) + (line[n..] + rest) {
        ServeKeeps(delivered, line, 0, n, rest);
      }
      delivered := delivered + line[..n];
      if n < |line| {
        buf, pos := line, n;
      }
    }
  }

  lemma Assoc(a: Bytes, b: Bytes, c: Bytes, d: Bytes)
    ensures (a + (b + c)) + d == a + (b + (c + d))
  {
  }

  lemma ServeKeeps(delivered: Bytes, line: Bytes, at: nat, n: nat, queued: Bytes)
    requires at + n <= |line|
    ensures delivered + (line[at..] + queued) == (delivered + line[at..at + n]) + (line[at + n..] + queued)
  {
    assert line[at..] == line[at..at + n] + line[at + n..];
  }

  lemma PopFirst(queue: seq<LineResult>)
    requires queue != []
    ensures Data(queue) == (if queue[0].Read? then queue[0].line else []) + Data(queue[1..])
  {
  }

  method CopyInto(out: array<byte>, bytes: Bytes)
    requires |bytes| <= out.Length
    modifies out
    ensures out[..|bytes|] == bytes && out[|bytes|..] == old(out[|bytes|..])
  {
    for i := 0 to |bytes|
      invariant out[..i] == bytes[..i] && out[i..] == old(out[i..])
    {
      out[i] := bytes[i];
    }
  }

  // ----- Whole runs -----

  /** What happens next: a turn of the reader task, or a read into a buffer of some size. */
  datatype Turn = TaskTurn | ReadTurn(size: nat)

  /** Over every chunking of a source and every interleaving of task and consumer, with
      buffers of any sizes, the consumer gets a prefix of the lines' bytes, and all of
      them once it is told of the end or of an error. */
  method Run(chunks: seq<Bytes>, fault: bool, turns: seq<Turn>) returns (received: Bytes, ended: bool)
    requires forall k :: 0 <= k < |chunks| ==> chunks[k] != []
    ensures received <= Data(Sent(Flat(chunks), fault))
    ensures ended ==> received == Data(Sent(Flat(chunks), fault))
  {
    var source := new Source(chunks, fault);
    var reader := new LineBufferedRead(source);
    received, ended := [], false;
    for i := 0 to |turns|
      invariant fresh(source) && fresh(reader) && reader.reader == source && source.fault == fault
      invariant reader.Valid() && reader.source == Flat(chunks) && reader.delivered == received
      invariant ended ==> received == Data(Sent(Flat(chunks), fault))
    {
      match turns[i] {
        case TaskTurn =>
          if !reader.closed {
            reader.ReadOne();
          }
        case ReadTurn(size) =>
          var out := new byte[size];
          var r := reader.PollRead(out);
          if r.Ready? {
            received := received + out[..r.n];
            if r.n == 0 && size > 0 {
              ended := true;
            }
          } else if r.Failed? {
            ended := true;
          }
      }
      if ended {
        break;
      }
    }
    DataConcat(reader.sent, reader.Unsent());
  }
}
