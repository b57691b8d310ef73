/** The segment document written at compaction: a preamble and as many whole turns as the
    byte cap allows, and the names of the segment files. */
module SegmentDoc {
  import opened Wrappers
  import opened Utf8Text
  import Conversation

  const SEGMENT_MAX_BYTES: nat := 524288
  const OVERHEAD: nat := 64
  const USIZE_MAX: nat := 0xFFFF_FFFF_FFFF_FFFF

  // ----- Whole turns within a budget -----

  function SizeAll(blocks: seq<string>): nat
  {
    if blocks == [] then 0 else SizeAll(blocks[..|blocks| - 1]) + Size(blocks[|blocks| - 1])
  }

  /** How many blocks are taken before one does not fit. */
  function KeptFrom(blocks: seq<string>, budget: nat, i: nat): (n: nat)
    requires i <= |blocks|
    ensures i <= n <= |blocks|
    decreases |blocks| - i
  {
    if i < |blocks| && SizeAll(blocks[..i + 1]) <= budget then KeptFrom(blocks, budget, i + 1) else i
  }

  function Kept(blocks: seq<string>, budget: nat): (n: nat)
    ensures n <= |blocks|
  {
    KeptFrom(blocks, budget, 0)
  }

  function NoticeTemplate(): string
  {
    NoticeWith("{limit}", "{omitted}")
  }

  function NoticeWith(limit: string, omitted: string): string
  {
    "\n\n[... TRUNCATED at " + limit + " bytes, " + omitted + " turns omitted ...]\n"
  }

  function Notice(omitted: nat): string
  {
    NoticeWith(Decimal(SEGMENT_MAX_BYTES), Decimal(omitted))
  }

  /** Bytes set aside for the notice: those of its template, as `TemplateSize` shows. */
  function NoticeSize(): nat { 64 }

  function Remaining(reserved: nat): nat
  {
    if SEGMENT_MAX_BYTES < reserved then 0 else SEGMENT_MAX_BYTES - reserved
  }

  function Budget(preamble: string): nat
  {
    Remaining(Size(preamble) + NoticeSize() + OVERHEAD)
  }

  /** The document with the first `n` turns. */
  function Assembled(preamble: string, blocks: seq<string>, n: nat): string
    requires n <= |blocks|
  {
    preamble + Conversation.Join(blocks[..n]) + if n < |blocks| then Notice(|blocks| - n) else ""
  }

  /** The document with turns; `blocks` are the rendered turns. */
  function Document(preamble: string, blocks: seq<string>): string
  {
    Assembled(preamble, blocks, Kept(blocks, Budget(preamble)))
  }

  lemma OneMore(blocks: seq<string>, i: nat)
    requires i < |blocks|
    ensures SizeAll(blocks[..i + 1]) == SizeAll(blocks[..i]) + Size(blocks[i])
  {
    assert blocks[..i + 1][..i] == blocks[..i];
  }

  /** Takes whole turns until one would overrun the budget. */
  method TakeTurns(blocks: seq<string>, budget: nat) returns (taken: seq<string>, truncatedAt: Option<nat>)
    ensures taken == blocks[..Kept(blocks, budget)]
    ensures truncatedAt == if Kept(blocks, budget) < |blocks| then Some(Kept(blocks, budget)) else None
  {
    taken := [];
    var used := 0;
    for i := 0 to |blocks|
      invariant taken == blocks[..i] && used == SizeAll(blocks[..i])
      invariant Kept(blocks, budget) == KeptFrom(blocks, budget, i)
    {
      OneMore(blocks, i);
      if used + Size(blocks[i]) > budget {
        return taken, Some(i);
      }
      used := used + Size(blocks[i]);
      taken := taken + [blocks[i]];
    }
    truncatedAt := None;
  }

  method RenderTurns(preamble: string, blocks: seq<string>) returns (doc: string)
    ensures doc == Document(preamble, blocks)
  {
    TemplateSize();
    var budget := Remaining(Size(preamble) + Size(NoticeTemplate()) + OVERHEAD);
    var taken, truncatedAt := TakeTurns(blocks, budget);
    var body := Conversation.Join(taken);
    doc := preamble + body;
    if truncatedAt.Some? {
      doc := doc + Notice(|blocks| - truncatedAt.value);
    } else {
      assert doc + "" == doc;
    }
  }

  lemma {:induction false} SizeAllGrows(blocks: seq<string>, i: nat, j: nat)
    requires i <= j <= |blocks|
    ensures SizeAll(blocks[..i]) <= SizeAll(blocks[..j])
  {
    if i < j {
      SizeAllGrows(blocks, i, j - 1);
      assert blocks[..j][..j - 1] == blocks[..j - 1];
    }
  }

  lemma {:induction false} KeptFromFits(blocks: seq<string>, budget: nat, i: nat)
    requires i <= |blocks| && SizeAll(blocks[..i]) <= budget
    ensures var n := KeptFrom(blocks, budget, i);
            && SizeAll(blocks[..n]) <= budget
            && (n < |blocks| ==> SizeAll(blocks[..n + 1]) > budget)
    decreases |blocks| - i
  {
    if i < |blocks| && SizeAll(blocks[..i + 1]) <= budget { KeptFromFits(blocks, budget, i + 1); }
  }

  /** The turns kept are the longest prefix of whole turns within the budget. */
  lemma LongestPrefixKept(preamble: string, blocks: seq<string>)
    ensures var n, budget := Kept(blocks, Budget(preamble)), Budget(preamble);
            && SizeAll(blocks[..n]) <= budget
            && forall m :: n < m <= |blocks| ==> SizeAll(blocks[..m]) > budget
  {
    var n, budget := Kept(blocks, Budget(preamble)), Budget(preamble);
    assert blocks[..0] == [];
    KeptFromFits(blocks, budget, 0);
    forall m | n < m <= |blocks| ensures SizeAll(blocks[..m]) > budget {
      SizeAllGrows(blocks, n + 1, m);
    }
  }

  // ----- The size of the document -----

  function Separators(n: nat): nat { if n == 0 then 0 else n - 1 }

  lemma {:induction false} JoinSize(blocks: seq<string>)
    ensures Size(Conversation.Join(blocks)) == SizeAll(blocks) + Separators(|blocks|)
  {
    if |blocks| > 1 {
      JoinSize(blocks[1..]);
      SizeAllFront(blocks);
      JoinStep(blocks[0], Conversation.Join(blocks[1..]));
    } else if |blocks| == 1 {
      SizeAllFront(blocks);
    }
  }

  lemma JoinStep(first: string, rest: string)
    ensures Size(first + "\n" + rest) == Size(first) + 1 + Size(rest)
  {
    SizeConcat(first + "\n", rest);
    SizeConcat(first, "\n");
    AsciiSize("\n");
  }

  lemma {:induction false} SizeAllFront(blocks: seq<string>)
    requires blocks != []
    ensures SizeAll(blocks) == Size(blocks[0]) + SizeAll(blocks[1..])
  {
    var n := |blocks| - 1;
    if n > 0 {
      SizeAllFront(blocks[..n]);
      assert blocks[1..][..n - 1] == blocks[..n][1..];
    } else {
      assert blocks[..0] == [];
    }
  }

  lemma TemplateSize()
    ensures Size(NoticeTemplate()) == NoticeSize()
  {
    NoticeParts("\n\n[... TRUNCATED at ", "{limit}", " bytes, ", "{omitted}", " turns omitted ...]\n");
  }

  /** The notice fits the room set aside for it: its template and the slack. */
  lemma NoticeFits(omitted: nat)
    requires omitted <= USIZE_MAX
    ensures Size(Notice(omitted)) <= NoticeSize() + OVERHEAD
  {
    NoticeIsAscii(omitted);
    UsizeDigits(omitted);
  }

  lemma UsizeDigits(n: nat)
    requires n <= USIZE_MAX
    ensures |Decimal(n)| <= 20
  {
    assert Pow10(4) == 10000;
    assert Pow10(8) == 10000 * Pow10(4);
    assert Pow10(12) == 10000 * Pow10(8);
    assert Pow10(16) == 10000 * Pow10(12);
    assert Pow10(20) == 10000 * Pow10(16);
    DecimalLength(n, 20);
  }

  lemma CapDigits()
    ensures |Decimal(SEGMENT_MAX_BYTES)| == 6
  {
    assert Pow10(5) == 100000 && Pow10(6) == 1000000;
    DecimalLength(SEGMENT_MAX_BYTES, 5);
    DecimalLength(SEGMENT_MAX_BYTES, 6);
  }

  lemma NoticeIsAscii(omitted: nat)
    ensures Size(Notice(omitted)) == 54 + |Decimal(omitted)|
  {
    CapDigits();
    NoticeParts("\n\n[... TRUNCATED at ", Decimal(SEGMENT_MAX_BYTES), " bytes, ", Decimal(omitted),
                " turns omitted ...]\n");
  }

  ghost predicate Ascii(s: string)
  {
    forall k :: 0 <= k < |s| ==> s[k] as int < 0x80
  }

  lemma NoticeParts(a: string, b: string, c: string, d: string, e: string)
    requires Ascii(a) && Ascii(b) && Ascii(c) && Ascii(d) && Ascii(e)
    ensures Size(a + b + c + d + e) == |a| + |b| + |c| + |d| + |e|
  {
    AsciiSize(a + b + c + d + e);
  }

  lemma DocumentSize(preamble: string, blocks: seq<string>)
    ensures var n := Kept(blocks, Budget(preamble));
            Size(Document(preamble, blocks))
            == Size(preamble) + SizeAll(blocks[..n]) + Separators(n)
               + if n < |blocks| then Size(Notice(|blocks| - n)) else 0
  {
    AssembledSize(preamble, blocks, Kept(blocks, Budget(preamble)));
  }

  lemma AssembledSize(preamble: string, blocks: seq<string>, n: nat)
    requires n <= |blocks|
    ensures Size(Assembled(preamble, blocks, n))
            == Size(preamble) + SizeAll(blocks[..n]) + Separators(n) + if n < |blocks| then Size(Notice(|blocks| - n)) else 0
  {
    PartsSize(preamble, blocks[..n], if n < |blocks| then Notice(|blocks| - n) else "");
  }

  lemma PartsSize(preamble: string, kept: seq<string>, notice: string)
    ensures Size(preamble + Conversation.Join(kept) + notice)
            == Size(preamble) + SizeAll(kept) + Separators(|kept|) + Size(notice)
  {
    JoinSize(kept);
    SizeConcat(preamble, Conversation.Join(kept));
    SizeConcat(preamble + Conversation.Join(kept), notice);
  }

  /** The document keeps within the cap but for the separators between kept turns, which
      are not charged, whenever the preamble leaves room for the notice at all. */
  lemma DocumentWithinCap(preamble: string, blocks: seq<string>)
    requires Size(preamble) + NoticeSize() + OVERHEAD <= SEGMENT_MAX_BYTES && |blocks| <= USIZE_MAX
    ensures Size(Document(preamble, blocks)) <= SEGMENT_MAX_BYTES + Separators(Kept(blocks, Budget(preamble)))
  {
    var n := Kept(blocks, Budget(preamble));
    DocumentSize(preamble, blocks);
    LongestPrefixKept(preamble, blocks);
    if n < |blocks| { NoticeFits(|blocks| - n); }
  }

  /** What the document reads: the preamble, the kept turns with a newline between each two,
      and, when turns are left out, the notice with their number at the end. */
  lemma DocumentReads(preamble: string, blocks: seq<string>)
    ensures var n := Kept(blocks, Budget(preamble));
            Document(preamble, blocks)
            == preamble + Conversation.Join(blocks[..n])
               + if n == |blocks| then ""
                 else "\n\n[... TRUNCATED at " + Decimal(524288) + " bytes, " + Decimal(|blocks| - n) + " turns omitted ...]\n"
  {
    var n := Kept(blocks, Budget(preamble));
    if n < |blocks| { NoticeReads(|blocks| - n); }
  }

  /** Every kept turn stands whole in the document, at its place in order. */
  lemma TurnPlaced(preamble: string, blocks: seq<string>, k: nat)
    requires k < Kept(blocks, Budget(preamble))
    ensures var kept := blocks[..Kept(blocks, Budget(preamble))];
            Conversation.Stands(Document(preamble, blocks), kept[k], |preamble| + Conversation.JoinOffset(kept, k))
  {
    TurnInAssembled(preamble, blocks, Kept(blocks, Budget(preamble)), k);
  }

  lemma TurnInAssembled(preamble: string, blocks: seq<string>, n: nat, k: nat)
    requires k < n <= |blocks|
    ensures Conversation.Stands(Assembled(preamble, blocks, n), blocks[..n][k],
                                |preamble| + Conversation.JoinOffset(blocks[..n], k))
  {
    TurnAmong(preamble, blocks[..n], if n < |blocks| then Notice(|blocks| - n) else "", k);
  }

  lemma TurnAmong(preamble: string, kept: seq<string>, notice: string, k: nat)
    requires k < |kept|
    ensures Conversation.Stands(preamble + Conversation.Join(kept) + notice, kept[k],
                                |preamble| + Conversation.JoinOffset(kept, k))
  {
    Conversation.JoinInOrder(kept, k);
    Conversation.StandsBetween(preamble, Conversation.Join(kept), notice, kept[k], Conversation.JoinOffset(kept, k));
  }

  lemma NoticeReads(omitted: nat)
    ensures Notice(omitted)
            == "\n\n[... TRUNCATED at " + Decimal(524288) + " bytes, " + Decimal(omitted) + " turns omitted ...]\n"
  {
  }

  // ----- When the cap is exceeded -----

  lemma WholeIff(preamble: string, blocks: seq<string>)
    ensures Kept(blocks, Budget(preamble)) == |blocks| <==> SizeAll(blocks) <= Budget(preamble)
  {
    LongestPrefixKept(preamble, blocks);
    assert blocks[..|blocks|] == blocks;
  }

  /** With every turn kept, the document exceeds its cap exactly when the turns with a
      separator between each two do. */
  lemma WholeDocumentExceedsIff(preamble: string, blocks: seq<string>)
    requires SizeAll(blocks) <= Budget(preamble)
    ensures Size(Document(preamble, blocks)) > SEGMENT_MAX_BYTES
            <==> Size(preamble) + SizeAll(blocks) + Separators(|blocks|) > SEGMENT_MAX_BYTES
  {
    WholeIff(preamble, blocks);
    DocumentSize(preamble, blocks);
    assert blocks[..|blocks|] == blocks;
  }

  /** With turns left out, it exceeds its cap exactly when the separators and the digits of
      the count left out take more than the 74 bytes of slack and what the budget had over. */
  lemma CutDocumentExceedsIff(preamble: string, blocks: seq<string>)
    requires Size(preamble) + NoticeSize() + OVERHEAD <= SEGMENT_MAX_BYTES
    requires SizeAll(blocks) > Budget(preamble)
    ensures var n := Kept(blocks, Budget(preamble));
            var unused := Budget(preamble) - SizeAll(blocks[..n]);
            && n < |blocks| && unused >= 0
            && (Size(Document(preamble, blocks)) > SEGMENT_MAX_BYTES
                <==> Separators(n) + |Decimal(|blocks| - n)| > 74 + unused)
  {
    WholeIff(preamble, blocks);
    LongestPrefixKept(preamble, blocks);
    CutDocumentSize(preamble, blocks);
  }

  lemma CutDocumentSize(preamble: string, blocks: seq<string>)
    requires Kept(blocks, Budget(preamble)) < |blocks|
    ensures var n := Kept(blocks, Budget(preamble));
            Size(Document(preamble, blocks))
            == Size(preamble) + SizeAll(blocks[..n]) + Separators(n) + 54 + |Decimal(|blocks| - n)|
  {
    DocumentSize(preamble, blocks);
    NoticeIsAscii(|blocks| - Kept(blocks, Budget(preamble)));
  }

  /** A preamble with no room behind it keeps only empty turns. */
  lemma NoRoomExceedsIff(preamble: string, blocks: seq<string>)
    requires Size(preamble) + NoticeSize() + OVERHEAD > SEGMENT_MAX_BYTES && SizeAll(blocks) > 0
    ensures var n := Kept(blocks, Budget(preamble));
            && SizeAll(blocks[..n]) == 0 && n < |blocks|
            && (Size(Document(preamble, blocks)) > SEGMENT_MAX_BYTES
                <==> Size(preamble) + Separators(n) + 54 + |Decimal(|blocks| - n)| > SEGMENT_MAX_BYTES)
  {
    WholeIff(preamble, blocks);
    LongestPrefixKept(preamble, blocks);
    CutDocumentSize(preamble, blocks);
  }

  /** Up to 75 turns always keep within the cap. */
  lemma FewTurnsWithinCap(preamble: string, blocks: seq<string>)
    requires Size(preamble) + NoticeSize() + OVERHEAD <= SEGMENT_MAX_BYTES && |blocks| <= 75
    ensures Size(Document(preamble, blocks)) <= SEGMENT_MAX_BYTES
  {
    if SizeAll(blocks) <= Budget(preamble) {
      WholeDocumentExceedsIff(preamble, blocks);
    } else {
      var n := Kept(blocks, Budget(preamble));
      CutDocumentExceedsIff(preamble, blocks);
      assert Pow10(1) == 10 && Pow10(2) == 100;
      DecimalLength(|blocks| - n, 1);
      DecimalLength(|blocks| - n, 2);
    }
  }

  /** A 76th turn can exceed it: 75 turns that use the budget up, and one left out. */
  lemma SeventySixTurnsExceed(preamble: string, blocks: seq<string>)
    requires Size(preamble) + NoticeSize() + OVERHEAD <= SEGMENT_MAX_BYTES && |blocks| == 76
    requires SizeAll(blocks[..75]) == Budget(preamble) && Size(blocks[75]) > 0
    ensures Size(Document(preamble, blocks)) == SEGMENT_MAX_BYTES + 1
  {
    OneMore(blocks, 75);
    assert blocks[..76] == blocks;
    LongestPrefixKept(preamble, blocks);
    assert Kept(blocks, Budget(preamble)) == 75;
    DocumentSize(preamble, blocks);
    NoticeIsAscii(1);
  }

  lemma {:induction false} UniformSize(n: nat, turn: string)
    ensures SizeAll(seq(n, _ => turn)) == n * Size(turn)
  {
    if n > 0 {
      var blocks := seq(n, _ => turn);
      assert blocks[..n - 1] == seq(n - 1, _ => turn);
      UniformSize(n - 1, turn);
      assert n * Size(turn) == (n - 1) * Size(turn) + Size(turn);
    }
  }

  /** 400,000 turns of one byte all fit the budget, and their separators put the document
      at 799,999 bytes. */
  lemma ManySmallTurnsExceed()
    ensures Size(Document("", seq(400000, _ => "x"))) == 799999 > SEGMENT_MAX_BYTES
  {
    var blocks := seq(400000, _ => "x");
    AsciiSize("x");
    UniformSize(400000, "x");
    WholeIff("", blocks);
    DocumentSize("", blocks);
    assert blocks[..400000] == blocks;
  }

  // ----- Segment file names -----

  function Prefix(): string { "segment_" }

  function Suffix(): string { ".md" }

  /** At least three digits. */
  function Label(index: nat): string
  {
    var digits := Decimal(index);
    if |digits| == 1 then "00" + digits else if |digits| == 2 then "0" + digits else digits
  }

  function Filename(index: nat): string
  {
    Prefix() + Label(index) + Suffix()
  }

  function DigitsValue(s: string): Option<nat>
  {
    if s == "" then Some(0)
    else
      var last := s[|s| - 1];
      if !('0' <= last <= '9') then None
      else match DigitsValue(s[..|s| - 1])
           case None => None
           case Some(front) => Some(front * 10 + (last as int - '0' as int))
  }

  /** Rust's `str::parse::<u64>`: an optional plus sign, digits, no overflow. */
  function ParseU64(s: string): Option<nat>
  {
    var digits := if s != "" && s[0] == '+' then s[1..] else s;
    match DigitsValue(digits)
    case Some(n) => if digits != "" && n <= USIZE_MAX then Some(n) else None
    case None => None
  }

  function ParseFilename(name: string): Option<nat>
  {
    if !(Prefix() <= name) then None
    else
      var rest := name[|Prefix()|..];
      if |rest| < |Suffix()| || rest[|rest| - |Suffix()|..] != Suffix() then None
      else ParseU64(rest[..|rest| - |Suffix()|])
  }

  lemma {:induction false} DecimalValue(n: nat)
    ensures DigitsValue(Decimal(n)) == Some(n)
  {
    var s := Decimal(n);
    if n >= 10 {
      DecimalValue(n / 10);
      assert s[..|s| - 1] == Decimal(n / 10);
    } else {
      assert s[..0] == "";
    }
  }

  lemma {:induction false} LeadingZero(s: string)
    requires DigitsValue(s).Some?
    ensures DigitsValue("0" + s) == DigitsValue(s)
  {
    if s != "" {
      LeadingZero(s[..|s| - 1]);
      assert ("0" + s)[..|s|] == "0" + s[..|s| - 1];
    } else {
      assert "0" + s == "0" && "0"[..0] == "";
    }
  }

  /** Indices are padded to three digits and otherwise written without leading zeros, so
      the names below 1000 are as long as each other. */
  lemma LabelIsPadded(index: nat)
    ensures |Label(index)| >= 3 && (index < 1000 ==> |Label(index)| == 3)
    ensures index >= 1000 ==> Label(index) == Decimal(index) && |Label(index)| > 3
  {
    assert Pow10(3) == 1000;
    DecimalLength(index, 3);
  }

  lemma LabelParses(index: nat)
    requires index <= USIZE_MAX
    ensures ParseU64(Label(index)) == Some(index)
  {
    var digits := Decimal(index);
    DecimalValue(index);
    if |digits| == 1 {
      LeadingZero(digits);
      LeadingZero("0" + digits);
      assert "0" + ("0" + digits) == "00" + digits;
    } else if |digits| == 2 {
      LeadingZero(digits);
    }
    assert Label(index)[0] != '+';
  }

  /** The index comes back from the name, for every index. */
  lemma FilenameRoundTrip(index: nat)
    requires index <= USIZE_MAX
    ensures ParseFilename(Filename(index)) == Some(index)
  {
    var name, rest := Filename(index), Label(index) + Suffix();
    assert name == Prefix() + rest && name[|Prefix()|..] == rest;
    assert rest[|rest| - |Suffix()|..] == Suffix() && rest[..|rest| - |Suffix()|] == Label(index);
    LabelParses(index);
  }
}
