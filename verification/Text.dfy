/** The string operations the compaction code is built from: first and last
    occurrence, trimming, and replacement of every occurrence. */
module Text {
  import opened Wrappers

  predicate OccursAt(s: string, pat: string, i: int)
  {
    0 <= i && i + |pat| <= |s| && s[i..i + |pat|] == pat
  }

  ghost predicate Contains(s: string, pat: string)
  {
    exists i :: OccursAt(s, pat, i)
  }

  /** First occurrence of `pat` at or after `from`. */
  function Find(s: string, pat: string, from: nat): (r: Option<nat>)
    requires from <= |s|
    ensures r.Some? ==> from <= r.value && OccursAt(s, pat, r.value)
    ensures r.Some? ==> forall j :: from <= j < r.value ==> !OccursAt(s, pat, j)
    ensures r.None? ==> forall j :: from <= j ==> !OccursAt(s, pat, j)
    decreases |s| - from
  {
    if OccursAt(s, pat, from) then Some(from)
    else if from == |s| then None
    else Find(s, pat, from + 1)
  }

  /** Last occurrence of `pat` strictly before position `before`. */
  function FindLast(s: string, pat: string, before: nat): (r: Option<nat>)
    ensures r.Some? ==> r.value < before && OccursAt(s, pat, r.value)
    ensures r.Some? ==> forall j :: r.value < j < before ==> !OccursAt(s, pat, j)
    ensures r.None? ==> forall j :: j < before ==> !OccursAt(s, pat, j)
  {
    if before == 0 then None
    else if OccursAt(s, pat, before - 1) then Some(before - 1)
    else FindLast(s, pat, before - 1)
  }

  /** Rust's `rfind`. */
  function RFind(s: string, pat: string): (r: Option<nat>)
    ensures r.Some? ==> OccursAt(s, pat, r.value)
    ensures r.Some? ==> forall j :: r.value < j ==> !OccursAt(s, pat, j)
    ensures r.None? ==> forall j :: !OccursAt(s, pat, j)
  {
    FindLast(s, pat, |s| + 1)
  }

  /** The first occurrence is the only position that occurs with none before it. */
  lemma FindIs(s: string, pat: string, from: nat, i: nat)
    requires from <= i && OccursAt(s, pat, i)
    requires forall j :: from <= j < i ==> !OccursAt(s, pat, j)
    ensures from <= |s| && Find(s, pat, from) == Some(i)
  {
  }

  // ----- Tags -----

  /** Angle-bracket tags open with their only `<`. */
  ghost predicate TagShaped(q: string)
  {
    |q| >= 2 && q[0] == '<' && forall k :: 1 <= k < |q| ==> q[k] != '<'
  }

  /** The characters of an occurrence. */
  lemma OccurrenceChars(s: string, pat: string, i: int)
    requires OccursAt(s, pat, i)
    ensures forall k :: 0 <= k < |pat| ==> s[i + k] == pat[k]
  {
    var piece := s[i..i + |pat|];
    assert forall k :: 0 <= k < |pat| ==> s[i + k] == piece[k];
  }

  lemma SliceOfSlice(s: string, a: nat, b: nat, c: nat, d: nat)
    requires a <= b <= |s| && c <= d <= b - a
    ensures s[a..b][c..d] == s[a + c..a + d]
  {
    var t, u := s[a..b][c..d], s[a + c..a + d];
    assert forall k :: 0 <= k < d - c ==> t[k] == s[a + c + k] == u[k];
  }

  lemma CharOf(s: string, pat: string, i: int, k: nat)
    requires OccursAt(s, pat, i) && k < |pat|
    ensures s[i + k] == pat[k]
  {
    OccurrenceChars(s, pat, i);
  }

  /** Two tags in one text never overlap: each starts at its own `<`. */
  lemma TagsDisjoint(s: string, p: string, q: string, i: int, j: int)
    requires TagShaped(p) && TagShaped(q)
    requires OccursAt(s, p, i) && OccursAt(s, q, j) && i < j
    ensures i + |p| <= j
  {
    OccurrenceChars(s, p, i);
    OccurrenceChars(s, q, j);
    assert s[j + 0] == '<';
    var k := if j - i < |p| then j - i else 1;
    assert s[i + k] == p[k] && p[k] != '<';
  }

  lemma OccursInside(s: string, n: nat, m: nat, pat: string, j: int)
    requires n <= j && j + |pat| <= m <= |s| && OccursAt(s, pat, j)
    ensures OccursAt(s[n..m], pat, j - n)
  {
    var t := s[n..m];
    var u := t[j - n..j - n + |pat|];
    OccurrenceChars(s, pat, j);
    assert forall k :: 0 <= k < |pat| ==> u[k] == s[j + k] == pat[k];
  }

  /** A tag after a stretch `n..m` free of it is the first one found there. */
  lemma FirstTag(s: string, n: nat, m: nat, tag: string)
    requires TagShaped(tag) && n <= m && OccursAt(s, tag, m) && !Contains(s[n..m], tag)
    ensures Find(s, tag, n) == Some(m)
  {
    forall j | n <= j < m ensures !OccursAt(s, tag, j) {
      if OccursAt(s, tag, j) {
        TagsDisjoint(s, tag, tag, j, m);
        OccursInside(s, n, m, tag, j);
      }
    }
    FindIs(s, tag, n, m);
  }

  lemma TagStarts(s: string, tag: string, i: int)
    requires TagShaped(tag) && OccursAt(s, tag, i)
    ensures s[i] == '<'
  {
    OccurrenceChars(s, tag, i);
    assert s[i + 0] == tag[0];
  }

  // ----- Trimming -----

  /** The characters with the Unicode White_Space property. */
  predicate IsWhitespace(c: char)
  {
    || '\t' <= c <= '\r'
    || c == ' '
    || c == '\U{0085}'
    || c == '\U{00A0}'
    || c == '\U{1680}'
    || '\U{2000}' <= c <= '\U{200A}'
    || c == '\U{2028}'
    || c == '\U{2029}'
    || c == '\U{202F}'
    || c == '\U{205F}'
    || c == '\U{3000}'
  }

  /** The first position from `i` on that is not whitespace. */
  function SkipBlanks(s: string, i: nat): (n: nat)
    requires i <= |s|
    ensures i <= n <= |s| && (n < |s| ==> !IsWhitespace(s[n]))
    ensures forall k :: i <= k < n ==> IsWhitespace(s[k])
    decreases |s| - i
  {
    if i < |s| && IsWhitespace(s[i]) then SkipBlanks(s, i + 1) else i
  }

  /** Where the text before `i` ends once its trailing whitespace is gone. */
  function DropBlanks(s: string, i: nat): (n: nat)
    requires i <= |s|
    ensures n <= i && (n > 0 ==> !IsWhitespace(s[n - 1]))
    ensures forall k :: n <= k < i ==> IsWhitespace(s[k])
  {
    if i > 0 && IsWhitespace(s[i - 1]) then DropBlanks(s, i - 1) else i
  }

  function TrimStart(s: string): (r: string)
    ensures |r| <= |s| && r == s[|s| - |r|..]
    ensures r == "" || !IsWhitespace(r[0])
    ensures forall k :: 0 <= k < |s| - |r| ==> IsWhitespace(s[k])
  {
    s[SkipBlanks(s, 0)..]
  }

  function TrimEnd(s: string): (r: string)
    ensures |r| <= |s| && r == s[..|r|]
    ensures r == "" || !IsWhitespace(r[|r| - 1])
    ensures forall k :: |r| <= k < |s| ==> IsWhitespace(s[k])
  {
    s[..DropBlanks(s, |s|)]
  }

  function Trim(s: string): (r: string)
    ensures |r| <= |s|
    ensures r == "" || (!IsWhitespace(r[0]) && !IsWhitespace(r[|r| - 1]))
  {
    TrimEnd(TrimStart(s))
  }

  ghost predicate Trimmed(s: string)
  {
    s == "" || (!IsWhitespace(s[0]) && !IsWhitespace(s[|s| - 1]))
  }

  lemma TrimTrimmed(s: string)
    requires Trimmed(s)
    ensures Trim(s) == s
  {
  }

  /** Trimming yields a contiguous piece of the text. */
  lemma TrimIsSlice(s: string) returns (a: nat, b: nat)
    ensures a <= b <= |s| && Trim(s) == s[a..b]
  {
    a := |s| - |TrimStart(s)|;
    b := a + |Trim(s)|;
  }

  lemma SliceContains(s: string, a: nat, b: nat, pat: string)
    requires a <= b <= |s| && Contains(s[a..b], pat)
    ensures Contains(s, pat)
  {
    var t := s[a..b];
    var i :| OccursAt(t, pat, i);
    var u := s[a + i..a + i + |pat|];
    assert forall k :: 0 <= k < |pat| ==> u[k] == s[a + i + k] == t[i + k] == pat[k];
    assert OccursAt(s, pat, a + i);
  }

  lemma DropContains(s: string, n: nat, pat: string)
    requires n <= |s| && Contains(s[n..], pat)
    ensures Contains(s, pat)
  {
    assert s[n..|s|] == s[n..];
    SliceContains(s, n, |s|, pat);
  }

  lemma DropKeepsAbsent(s: string, n: nat, pat: string)
    requires n <= |s|
    ensures Contains(s[n..], pat) ==> Contains(s, pat)
  {
    if Contains(s[n..], pat) { DropContains(s, n, pat); }
  }

  lemma TrimContains(s: string, pat: string)
    requires Contains(Trim(s), pat)
    ensures Contains(s, pat)
  {
    var a, b := TrimIsSlice(s);
    SliceContains(s, a, b, pat);
  }

  /** Whitespace put around a trimmed text is exactly what trimming removes. */
  lemma TrimPadded(l: string, s: string, r: string)
    requires Trimmed(s)
    requires forall c :: c in l ==> IsWhitespace(c)
    requires forall c :: c in r ==> IsWhitespace(c)
    ensures Trim(l + s + r) == s
  {
    assert l + s + r == l + (s + r);
    if s == "" {
      BlankTrims(l + (s + r));
    } else {
      assert (s + r)[0] == s[0];
      TrimStartPadded(l, s + r);
      TrimEndPadded(s, r);
    }
  }

  lemma BlankTrims(w: string)
    requires forall c :: c in w ==> IsWhitespace(c)
    ensures Trim(w) == ""
  {
    assert SkipBlanks(w, 0) == |w|;
  }

  lemma TrimStartPadded(l: string, s: string)
    requires forall c :: c in l ==> IsWhitespace(c)
    requires s != "" && !IsWhitespace(s[0])
    ensures TrimStart(l + s) == s
  {
    var w := l + s;
    assert forall k :: 0 <= k < |l| ==> w[k] == l[k];
    assert w[|l|] == s[0];
    assert SkipBlanks(w, 0) == |l|;
  }

  lemma TrimEndPadded(s: string, r: string)
    requires forall c :: c in r ==> IsWhitespace(c)
    requires s != "" && !IsWhitespace(s[|s| - 1])
    ensures TrimEnd(s + r) == s
  {
    var w := s + r;
    assert forall k :: |s| <= k < |w| ==> w[k] == r[k - |s|];
    assert w[|s| - 1] == s[|s| - 1];
    assert DropBlanks(w, |w|) == |s|;
  }

  // ----- Replacing every occurrence -----

  /** Rust's `replace`: occurrences are taken from the left and do not overlap. */
  function Replace(s: string, pat: string, rep: string): (r: string)
    requires pat != ""
    decreases |s|
  {
    if s == "" then ""
    else if OccursAt(s, pat, 0) then rep + Replace(s[|pat|..], pat, rep)
    else [s[0]] + Replace(s[1..], pat, rep)
  }

  lemma {:induction false} ReplaceAbsent(s: string, pat: string, rep: string)
    requires pat != "" && !Contains(s, pat)
    ensures Replace(s, pat, rep) == s
    decreases |s|
  {
    if s != "" {
      assert !OccursAt(s, pat, 0);
      assert s[1..|s|] == s[1..];
      DropKeepsAbsent(s, 1, pat);
      ReplaceAbsent(s[1..], pat, rep);
    }
  }

  lemma {:induction false} ReplaceNotLonger(s: string, pat: string, rep: string)
    requires pat != "" && |rep| < |pat|
    ensures |Replace(s, pat, rep)| <= |s|
    ensures Contains(s, pat) ==> |Replace(s, pat, rep)| < |s|
    decreases |s|
  {
    if s == "" {
    } else if OccursAt(s, pat, 0) {
      ReplaceNotLonger(s[|pat|..], pat, rep);
    } else {
      ReplaceNotLonger(s[1..], pat, rep);
      if i :| OccursAt(s, pat, i) {
        OccursInside(s, 1, |s|, pat, i);
        assert s[1..|s|] == s[1..];
      }
    }
  }

  /** A prefix of the replaced text that avoids the leading character shared by
      pattern and replacement was already a prefix of the original text. */
  lemma {:induction false} PrefixSurvivesReplace(s: string, pat: string, rep: string, u: string)
    requires pat != "" && rep != "" && pat[0] == rep[0] && pat[0] !in u
    requires u <= Replace(s, pat, rep)
    ensures u <= s
    decreases |s|
  {
    if u != "" {
      var r := Replace(s, pat, rep);
      assert u[0] == r[0] && u[0] in u;
      if OccursAt(s, pat, 0) {
        assert false;
      } else {
        assert r[1..] == Replace(s[1..], pat, rep);
        assert u[1..] <= r[1..];
        assert forall c :: c in u[1..] ==> c in u;
        PrefixSurvivesReplace(s[1..], pat, rep, u[1..]);
        assert u == [u[0]] + u[1..];
        assert s == [s[0]] + s[1..];
      }
    }
  }
}
