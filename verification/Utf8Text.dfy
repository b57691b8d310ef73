/** Texts as the bytes that store them (UTF-8, section 3 of RFC 3629), and cutting a
    text down to a byte budget without splitting a character. */
module Utf8Text {
  import opened Wrappers

  type byte = b: int | 0 <= b < 256

  /** The number of bytes a character takes. */
  function Width(c: char): (w: nat)
    ensures 1 <= w <= 4
  {
    var v := c as int;
    if v < 0x80 then 1 else if v < 0x800 then 2 else if v < 0x10000 then 3 else 4
  }

  function Encode(c: char): (bytes: seq<byte>)
    ensures |bytes| == Width(c)
    ensures !Continuation(bytes[0])
    ensures forall k :: 1 <= k < |bytes| ==> Continuation(bytes[k])
  {
    var v := c as int;
    if v < 0x80 then [v]
    else if v < 0x800 then [0xC0 + v / 64, 0x80 + v % 64]
    else if v < 0x10000 then [0xE0 + v / 4096, 0x80 + v / 64 % 64, 0x80 + v % 64]
    else
      assert v < 0x110000;
      [0xF0 + v / 262144, 0x80 + v / 4096 % 64, 0x80 + v / 64 % 64, 0x80 + v % 64]
  }

  predicate Continuation(b: byte) { 0x80 <= b < 0xC0 }

  function Utf8(s: string): (bytes: seq<byte>)
    ensures |bytes| == Size(s)
  {
    if s == "" then [] else Encode(s[0]) + Utf8(s[1..])
  }

  /** The length of a text in bytes. */
  function Size(s: string): (n: nat)
    ensures n >= |s|
  {
    if s == "" then 0 else Width(s[0]) + Size(s[1..])
  }

  /** `is_char_boundary`: decided by the byte at `i` alone. */
  predicate Boundary(bytes: seq<byte>, i: nat)
  {
    i == 0 || i == |bytes| || (i < |bytes| && !Continuation(bytes[i]))
  }

  /** The longest prefix of whole characters within `keep` bytes. */
  function PrefixWithin(s: string, keep: nat): (p: string)
    ensures |p| <= |s| && p == s[..|p|]
    ensures Size(p) <= keep
  {
    if s == "" || Width(s[0]) > keep then ""
    else
      var rest := PrefixWithin(s[1..], keep - Width(s[0]));
      assert ([s[0]] + rest)[1..] == rest;
      [s[0]] + rest
  }

  lemma {:induction false} SizeConcat(a: string, b: string)
    ensures Size(a + b) == Size(a) + Size(b)
  {
    if a == "" {
      assert a + b == b;
    } else {
      assert (a + b)[1..] == a[1..] + b;
      SizeConcat(a[1..], b);
    }
  }

  /** Boundaries of a text are the start and those of the text after its first character. */
  lemma BoundaryStep(s: string, i: nat)
    requires s != "" && 0 < i <= Size(s)
    ensures i < Width(s[0]) ==> !Boundary(Utf8(s), i)
    ensures i >= Width(s[0]) ==> (Boundary(Utf8(s), i) <==> Boundary(Utf8(s[1..]), i - Width(s[0])))
  {
    var e, rest := Encode(s[0]), Utf8(s[1..]);
    assert Utf8(s) == e + rest;
    if i < |e| {
      assert (e + rest)[i] == e[i];
    } else if i < |e + rest| {
      assert (e + rest)[i] == rest[i - |e|];
      if i == |e| { assert !Continuation(Encode(s[1])[0]) && rest[0] == Encode(s[1])[0]; }
    }
  }

  lemma {:induction false} NoBoundaryBetween(s: string, keep: nat, i: nat)
    requires Size(PrefixWithin(s, keep)) < i <= keep && i <= Size(s)
    ensures !Boundary(Utf8(s), i)
    decreases |s|
  {
    if s != "" {
      BoundaryStep(s, i);
      var w := Width(s[0]);
      if w <= keep {
        var rest := PrefixWithin(s[1..], keep - w);
        assert ([s[0]] + rest)[1..] == rest;
        if i >= w { NoBoundaryBetween(s[1..], keep - w, i - w); }
      }
    }
  }

  lemma {:induction false} PrefixIsBoundary(s: string, keep: nat)
    ensures Size(PrefixWithin(s, keep)) <= Size(s)
    ensures Boundary(Utf8(s), Size(PrefixWithin(s, keep)))
    ensures Utf8(s)[..Size(PrefixWithin(s, keep))] == Utf8(PrefixWithin(s, keep))
    decreases |s|
  {
    if s != "" && Width(s[0]) <= keep {
      var w, rest := Width(s[0]), PrefixWithin(s[1..], keep - Width(s[0]));
      assert ([s[0]] + rest)[1..] == rest;
      PrefixIsBoundary(s[1..], keep - w);
      BoundaryStep(s, w + Size(rest));
    }
  }

  lemma {:induction false} AtMostThreeUnused(s: string, keep: nat)
    ensures keep <= Size(s) ==> keep <= Size(PrefixWithin(s, keep)) + 3
    decreases |s|
  {
    if s != "" && Width(s[0]) <= keep {
      var rest := PrefixWithin(s[1..], keep - Width(s[0]));
      assert ([s[0]] + rest)[1..] == rest;
      AtMostThreeUnused(s[1..], keep - Width(s[0]));
    }
  }

  /** The prefix ends at a boundary of the encoded text, no boundary lies between it
      and the budget, and at most three bytes of the budget go unused. */
  lemma PrefixEndsAtLargestBoundary(s: string, keep: nat)
    ensures Size(PrefixWithin(s, keep)) <= Size(s)
    ensures Boundary(Utf8(s), Size(PrefixWithin(s, keep)))
    ensures Utf8(s)[..Size(PrefixWithin(s, keep))] == Utf8(PrefixWithin(s, keep))
    ensures forall i :: Size(PrefixWithin(s, keep)) < i <= keep && i <= Size(s) ==> !Boundary(Utf8(s), i)
    ensures keep <= Size(s) ==> keep <= Size(PrefixWithin(s, keep)) + 3
  {
    PrefixIsBoundary(s, keep);
    AtMostThreeUnused(s, keep);
    forall i | Size(PrefixWithin(s, keep)) < i <= keep && i <= Size(s) ensures !Boundary(Utf8(s), i) {
      NoBoundaryBetween(s, keep, i);
    }
  }

  /** A boundary is exactly the encoded length of some prefix of whole characters. */
  lemma {:induction false} BoundaryIffWholeCharacters(s: string, i: nat)
    requires i <= Size(s)
    ensures Boundary(Utf8(s), i) <==> Size(PrefixWithin(s, i)) == i
    ensures Boundary(Utf8(s), i) ==> Utf8(PrefixWithin(s, i)) == Utf8(s)[..i]
  {
    PrefixEndsAtLargestBoundary(s, i);
  }

  // ----- The truncation -----

  const MARKER_RESERVE: nat := 64

  function MarkerHead(): string { "\n[... truncated " }

  function MarkerTail(): string { " bytes to fit the compaction window ...]" }

  function Decimal(n: nat): (s: string)
    ensures forall k :: 0 <= k < |s| ==> '0' <= s[k] <= '9'
    ensures |s| >= 1
  {
    var digit := ('0' as int + n % 10) as char;
    if n < 10 then [digit] else Decimal(n / 10) + [digit]
  }

  function Marker(dropped: nat): string
  {
    MarkerHead() + Decimal(dropped) + MarkerTail()
  }

  /** `max_bytes` less the room set aside for the marker, not below zero. */
  function KeepBytes(maxBytes: nat): nat
  {
    if maxBytes < MARKER_RESERVE then 0 else maxBytes - MARKER_RESERVE
  }

  function WithMarker(prefix: string, dropped: nat): string
  {
    prefix + Marker(dropped)
  }

  /** What is left of a text cut to `maxBytes`. */
  function Truncated(s: string, maxBytes: nat): string
  {
    if Size(s) <= maxBytes then s
    else
      var prefix := PrefixWithin(s, KeepBytes(maxBytes));
      WithMarker(prefix, Size(s) - Size(prefix))
  }

  /** Steps back from the budget to a character boundary, byte by byte. */
  method FloorBoundary(s: string, bytes: seq<byte>, keep: nat) returns (end: nat)
    requires bytes == Utf8(s)
    ensures end <= |bytes| && end == Size(PrefixWithin(s, keep)) && PrefixWithin(s, end) == PrefixWithin(s, keep)
  {
    end := if keep < |bytes| then keep else |bytes|;
    PrefixIsBoundary(s, keep);
    while end > 0 && !Boundary(bytes, end)
      invariant Size(PrefixWithin(s, keep)) <= end <= keep && end <= |bytes|
    {
      end := end - 1;
    }
    BoundaryReached(s, keep, end);
  }

  method TruncateTextToBytes(s: string, maxBytes: nat) returns (r: Option<string>)
    ensures r.None? <==> Size(s) <= maxBytes
    ensures r.Some? ==> r.value == Truncated(s, maxBytes)
  {
    var bytes := Utf8(s);
    if |bytes| <= maxBytes {
      return None;
    }
    var end := FloorBoundary(s, bytes, KeepBytes(maxBytes));
    var prefix, dropped := PrefixWithin(s, end), |bytes| - end;
    CutIs(s, maxBytes, prefix, dropped);
    r := Some(WithMarker(prefix, dropped));
  }

  lemma CutIs(s: string, maxBytes: nat, prefix: string, dropped: nat)
    requires Size(s) > maxBytes && prefix == PrefixWithin(s, KeepBytes(maxBytes)) && dropped == Size(s) - Size(prefix)
    ensures Truncated(s, maxBytes) == WithMarker(prefix, dropped)
  {
    var keep := KeepBytes(maxBytes);
    calc {
      Truncated(s, maxBytes);
      WithMarker(PrefixWithin(s, keep), Size(s) - Size(PrefixWithin(s, keep)));
      WithMarker(prefix, dropped);
    }
  }

  lemma BoundaryReached(s: string, keep: nat, end: nat)
    requires Size(PrefixWithin(s, keep)) <= end <= keep && end <= Size(s)
    requires end == 0 || Boundary(Utf8(s), end)
    ensures end == Size(PrefixWithin(s, keep)) && PrefixWithin(s, end) == PrefixWithin(s, keep)
  {
    if end > Size(PrefixWithin(s, keep)) { NoBoundaryBetween(s, keep, end); }
    SamePrefix(s, keep, end);
  }

  lemma {:induction false} SamePrefix(s: string, keep: nat, end: nat)
    requires end == Size(PrefixWithin(s, keep))
    ensures PrefixWithin(s, end) == PrefixWithin(s, keep)
  {
    if s != "" && Width(s[0]) <= keep {
      var rest := PrefixWithin(s[1..], keep - Width(s[0]));
      assert ([s[0]] + rest)[1..] == rest;
      SamePrefix(s[1..], keep - Width(s[0]), Size(rest));
    }
  }

  /** A cut text is the longest prefix of whole characters that leaves the marker's room,
      then a marker that says how many bytes are missing; a text that fits is left alone. */
  lemma TruncatedReads(s: string, maxBytes: nat)
    ensures Size(s) <= maxBytes ==> Truncated(s, maxBytes) == s
    ensures Size(s) > maxBytes ==>
              var p := PrefixWithin(s, if maxBytes < 64 then 0 else maxBytes - 64);
              && p == s[..|p|]
              && Truncated(s, maxBytes)
                 == p + "\n[... truncated " + Decimal(Size(s) - Size(p)) + " bytes to fit the compaction window ...]"
  {
    if Size(s) > maxBytes {
      var p := PrefixWithin(s, KeepBytes(maxBytes));
      var n := Decimal(Size(s) - Size(p));
      assert p + (MarkerHead() + n + MarkerTail()) == p + MarkerHead() + n + MarkerTail();
    }
  }

  // ----- How long the result is -----

  lemma {:induction false} AsciiSize(s: string)
    requires forall k :: 0 <= k < |s| ==> s[k] as int < 0x80
    ensures Size(s) == |s|
  {
    if s != "" { AsciiSize(s[1..]); }
  }

  function Pow10(k: nat): (p: nat)
    ensures p >= 1
  {
    if k == 0 then 1 else 10 * Pow10(k - 1)
  }

  lemma {:induction false} DecimalLength(n: nat, k: nat)
    requires k >= 1
    ensures |Decimal(n)| <= k <==> n < Pow10(k)
  {
    if n >= 10 && k >= 2 {
      DecimalLength(n / 10, k - 1);
    } else if n >= 10 {
      assert Pow10(1) == 10 && |Decimal(n)| == |Decimal(n / 10)| + 1;
    } else {
      assert Pow10(k) == 10 * Pow10(k - 1);
    }
  }

  lemma MarkerSize(dropped: nat)
    ensures Size(Marker(dropped)) == 56 + |Decimal(dropped)|
  {
    MarkerParts(MarkerHead(), Decimal(dropped), MarkerTail());
    assert |MarkerHead()| == 16 && |MarkerTail()| == 40;
  }

  lemma MarkerParts(a: string, b: string, c: string)
    requires forall k :: 0 <= k < |a| ==> a[k] as int < 0x80
    requires forall k :: 0 <= k < |b| ==> b[k] as int < 0x80
    requires forall k :: 0 <= k < |c| ==> c[k] as int < 0x80
    ensures Size(a + b + c) == |a| + |b| + |c|
  {
    AsciiSize(a + b + c);
  }

  const MARKED: nat := 100000000

  lemma MarkedIsPow()
    ensures Pow10(8) == MARKED
  {
    assert Pow10(4) == 10000;
    assert Pow10(6) == 1000000;
  }

  /** A cut text keeps within `max_bytes`, or within the 64 bytes of the marker when
      that is more, unless 10^8 bytes or more are dropped. */
  lemma TruncatedWithinBudget(s: string, maxBytes: nat)
    requires Size(s) - Size(PrefixWithin(s, KeepBytes(maxBytes))) < MARKED
    ensures Size(Truncated(s, maxBytes)) <= if maxBytes < 64 then 64 else maxBytes
  {
    if Size(s) > maxBytes {
      var prefix := PrefixWithin(s, KeepBytes(maxBytes));
      var dropped := Size(s) - Size(prefix);
      MarkedIsPow();
      DecimalLength(dropped, 8);
      MarkerSize(dropped);
      SizeConcat(prefix, Marker(dropped));
    }
  }

  /** Where a text too long for its budget is cut. */
  function CutPoint(s: string, maxBytes: nat): nat
  {
    Size(PrefixWithin(s, KeepBytes(maxBytes)))
  }

  lemma TruncatedSize(s: string, maxBytes: nat)
    requires Size(s) > maxBytes
    ensures CutPoint(s, maxBytes) <= Size(s)
    ensures Size(Truncated(s, maxBytes))
            == CutPoint(s, maxBytes) + 56 + |Decimal(Size(s) - CutPoint(s, maxBytes))|
  {
    PrefixIsBoundary(s, KeepBytes(maxBytes));
    MarkedSize(PrefixWithin(s, KeepBytes(maxBytes)), Size(s) - CutPoint(s, maxBytes));
  }

  lemma MarkedSize(prefix: string, dropped: nat)
    ensures Size(prefix + Marker(dropped)) == Size(prefix) + 56 + |Decimal(dropped)|
  {
    MarkerSize(dropped);
    SizeConcat(prefix, Marker(dropped));
  }

  /** When a text exceeds its budget after all: under 64 bytes, when the marker alone does,
      that is for budgets under 57 and for texts too long to count in the digits left; from
      64 bytes on, when what is dropped needs more digits than the marker has room for. */
  lemma TruncatedExceedsIff(s: string, maxBytes: nat)
    ensures maxBytes < 64 ==>
              (Size(Truncated(s, maxBytes)) > maxBytes
               <==> Size(s) > maxBytes && (maxBytes < 57 || Size(s) >= Pow10(maxBytes - 56)))
    ensures maxBytes >= 64 ==>
              var p := CutPoint(s, maxBytes);
              (Size(Truncated(s, maxBytes)) > maxBytes
               <==> Size(s) > maxBytes && Size(s) - p >= Pow10(maxBytes - 56 - p))
  {
    if Size(s) > maxBytes {
      TruncatedSize(s, maxBytes);
      CutPointWithin(s, maxBytes);
      MarkedExceedsIff(Size(s), CutPoint(s, maxBytes), maxBytes);
    }
  }

  lemma CutPointWithin(s: string, maxBytes: nat)
    ensures CutPoint(s, maxBytes) <= if maxBytes < 64 then 0 else maxBytes - 64
  {
  }

  lemma MarkedExceedsIff(n: nat, p: nat, maxBytes: nat)
    requires p <= n && p <= if maxBytes < 64 then 0 else maxBytes - 64
    ensures p + 56 + |Decimal(n - p)| > maxBytes <==> maxBytes < 57 || n - p >= Pow10(maxBytes - 56 - p)
  {
    if maxBytes >= 57 { DecimalLength(n - p, maxBytes - 56 - p); }
  }

  // ----- Cutting a cut text again -----

  lemma PrefixCons(c: char, s: string, keep: nat)
    requires Width(c) <= keep
    ensures PrefixWithin([c] + s, keep) == [c] + PrefixWithin(s, keep - Width(c))
    ensures Size([c] + s) == Width(c) + Size(s)
  {
    assert ([c] + s)[1..] == s;
  }

  /** A prefix that fits stays whole in front of what fits behind it. */
  ghost predicate Through(p: string, m: string, keep: nat, left: nat)
  {
    PrefixWithin(p + m, keep) == p + PrefixWithin(m, left)
  }

  lemma {:induction false} PrefixThrough(p: string, m: string, keep: nat)
    requires Size(p) <= keep
    ensures Through(p, m, keep, keep - Size(p))
  {
    if p == "" {
      assert p + m == m;
    } else {
      var c, tail, left := p[0], p[1..], keep - Size(p);
      PrefixThrough(tail, m, keep - Width(c));
      assert Through(tail, m, keep - Width(c), left);
      ThroughCons(c, tail, m, keep, left);
      assert p == [c] + tail;
    }
  }

  lemma ThroughCons(c: char, tail: string, m: string, keep: nat, left: nat)
    requires Width(c) <= keep && Through(tail, m, keep - Width(c), left)
    ensures Through([c] + tail, m, keep, left)
  {
    PrefixCons(c, tail + m, keep);
    ConsOf(c, tail, m, PrefixWithin(m, left));
  }

  lemma ConsOf(c: char, tail: string, m: string, rest: string)
    ensures ([c] + tail) + m == [c] + (tail + m) && ([c] + tail) + rest == [c] + (tail + rest)
  {
  }

  lemma {:induction false} AsciiPrefix(m: string, n: nat)
    requires n <= |m| && forall k :: 0 <= k < |m| ==> m[k] as int < 0x80
    ensures PrefixWithin(m, n) == m[..n]
  {
    if n > 0 {
      AsciiPrefix(m[1..], n - 1);
      assert m[..n] == [m[0]] + m[1..][..n - 1];
    }
  }

  lemma MarkerShape(d: nat)
    ensures var m := Marker(d);
            && |m| == 56 + |Decimal(d)|
            && (forall k :: 0 <= k < |m| ==> m[k] as int < 0x80)
            && m[0] == '\n' && m[1] != '\n' && m[2] != '\n' && m[3] != '\n'
            && m[16..16 + |Decimal(d)|] == Decimal(d)
  {
    assert |MarkerHead()| == 16 && |MarkerTail()| == 40;
    MarkerPieces(MarkerHead(), Decimal(d), MarkerTail());
  }

  lemma MarkerPieces(a: string, b: string, c: string)
    requires |a| >= 4
    requires forall k :: 0 <= k < |a| ==> a[k] as int < 0x80
    requires forall k :: 0 <= k < |b| ==> b[k] as int < 0x80
    requires forall k :: 0 <= k < |c| ==> c[k] as int < 0x80
    ensures forall k :: 0 <= k < |a + b + c| ==> (a + b + c)[k] as int < 0x80
    ensures forall k :: 0 <= k < 4 ==> (a + b + c)[k] == a[k]
    ensures (a + b + c)[|a|..|a| + |b|] == b
  {
  }

  lemma {:induction false} DecimalInjective(m: nat, n: nat)
    requires Decimal(m) == Decimal(n)
    ensures m == n
  {
    var a, b := Decimal(m), Decimal(n);
    assert Pow10(1) == 10;
    DecimalLength(m, 1);
    DecimalLength(n, 1);
    assert a[|a| - 1] == b[|b| - 1];
    if m >= 10 {
      assert a[..|a| - 1] == Decimal(m / 10) && b[..|b| - 1] == Decimal(n / 10);
      DecimalInjective(m / 10, n / 10);
    }
  }

  lemma {:induction false} FewDigits(n: nat)
    ensures |Decimal(n)| <= n / 10 + 1
  {
    if n >= 10 { FewDigits(n / 10); }
  }

  /** The one number of dropped bytes whose marker is that many bytes long. */
  lemma SelfCounting(d: nat)
    ensures d == 56 + |Decimal(d)| <==> d == 58
  {
    FewDigits(d);
    DecimalLength(d, 1);
    DecimalLength(d, 2);
    assert Pow10(1) == 10 && Pow10(2) == 100;
  }

  /** The marker follows the kept text with at most three bytes of slack; cutting again
      only gives the same when there is none and the marker counts itself. */
  lemma MarkerAgain(d: nat, e: nat, d2: nat)
    requires e <= 3
    ensures Marker(d)[..e] + Marker(d2) == Marker(d) <==> e == 0 && d2 == d
  {
    MarkerShape(d);
    MarkerShape(d2);
    var again := Marker(d)[..e] + Marker(d2);
    assert again[e] == Marker(d2)[0];
    if e == 0 {
      assert again == Marker(d2);
      if again == Marker(d) {
        assert |Decimal(d)| == |Decimal(d2)|;
        DecimalInjective(d, d2);
      }
    }
  }

  /** Cutting a cut text again changes it, unless it fits or is the 58-byte marker that
      stands for 58 dropped bytes. */
  lemma RetruncatedFixedIff(s: string, maxBytes: nat)
    ensures Truncated(Truncated(s, maxBytes), maxBytes) == Truncated(s, maxBytes)
            <==> Size(Truncated(s, maxBytes)) <= maxBytes || (maxBytes < 58 && Size(s) == 58)
  {
    if Size(s) > maxBytes {
      var t, p, keep := Truncated(s, maxBytes), PrefixWithin(s, KeepBytes(maxBytes)), KeepBytes(maxBytes);
      var d := Size(s) - CutPoint(s, maxBytes);
      AtMostThreeUnused(s, keep);
      TruncatedSize(s, maxBytes);
      SelfCounting(d);
      if Size(t) > maxBytes { CutTextAgain(t, p, d, maxBytes); }
    }
  }

  lemma CutTextAgain(t: string, p: string, d: nat, maxBytes: nat)
    requires t == p + Marker(d) && Size(t) > maxBytes
    requires Size(p) <= KeepBytes(maxBytes) <= Size(p) + 3
    ensures Truncated(t, maxBytes) == t <==> KeepBytes(maxBytes) == Size(p) && d == 58
  {
    MarkedAgain(p, d, KeepBytes(maxBytes));
    MarkedSize(p, d);
    SelfCounting(d);
  }

  /** Cutting a kept text with ASCII behind it reaches into that by what was unused. */
  lemma PrefixOfMarked(p: string, m: string, keep: nat)
    requires Size(p) <= keep <= Size(p) + |m| && forall k :: 0 <= k < |m| ==> m[k] as int < 0x80
    ensures PrefixWithin(p + m, keep) == p + m[..keep - Size(p)]
    ensures Size(p + m[..keep - Size(p)]) == keep
  {
    PrefixThrough(p, m, keep);
    AsciiPrefix(m, keep - Size(p));
    AsciiSize(m[..keep - Size(p)]);
    SizeConcat(p, m[..keep - Size(p)]);
  }

  lemma MarkedAgain(p: string, d: nat, keep: nat)
    requires Size(p) <= keep <= Size(p) + 3
    ensures var t := p + Marker(d); var q := PrefixWithin(t, keep);
            && Size(q) == keep <= Size(t)
            && (q + Marker(Size(t) - keep) == t <==> keep == Size(p) && Size(t) - keep == d)
  {
    var m, e := Marker(d), keep - Size(p);
    MarkedPrefix(p, d, keep);
    MarkedSize(p, d);
    var d2 := Size(p + m) - keep;
    AppendedSame(p, m[..e], Marker(d2), m);
    MarkerAgain(d, e, d2);
  }

  lemma MarkedPrefix(p: string, d: nat, keep: nat)
    requires Size(p) <= keep <= Size(p) + 3
    ensures |Marker(d)| >= 56 && keep <= Size(p + Marker(d))
    ensures PrefixWithin(p + Marker(d), keep) == p + Marker(d)[..keep - Size(p)]
    ensures Size(p + Marker(d)[..keep - Size(p)]) == keep
  {
    MarkerShape(d);
    MarkedSize(p, d);
    PrefixOfMarked(p, Marker(d), keep);
  }

  lemma AppendedSame(p: string, a: string, b: string, m: string)
    ensures (p + a) + b == p + m <==> a + b == m
  {
    assert ((p + a) + b)[|p|..] == a + b && (p + m)[|p|..] == m;
    assert (p + a) + b == p + (a + b);
  }
}
