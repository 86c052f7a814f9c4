/** `SummaryRenderer`: the summary is split into paragraphs on blank lines; in each paragraph
    `**bold**` becomes a `<strong>` element and each remaining newline a `<br />`. The output is
    the list of paragraph HTML strings; the JSX around them is not modelled. */
module SummaryRenderer {
  import opened Wrappers
  import opened Text

  const ParagraphBreak := "\n\n"
  const NoSummaryText := "No summary available."
  const BoldMarker := "**"
  const StrongOpen := "<strong>"
  const StrongClose := "</strong>"
  const LineBreak := "<br />"

  /** What the component renders: the placeholder, or one `<p>` body per paragraph. */
  datatype Rendered = NoSummary | Paragraphs(html: seq<string>)

  // ----- summary.split("\n\n") ----------------------------------------------------------

  /** The leftmost occurrence of `pat` at or after `from`. */
  function Find(s: string, pat: string, from: nat): (r: Option<nat>)
    requires |pat| > 0
    ensures r.Some? ==> from <= r.value && OccursAt(s, r.value, pat)
    ensures forall k: nat :: from <= k && (r.None? || k < r.value) ==> !OccursAt(s, k, pat)
    decreases |s| - from
  {
    if from + |pat| > |s| then None
    else if OccursAt(s, from, pat) then Some(from)
    else Find(s, pat, from + 1)
  }

  /** `s.split(sep)`: cut at each occurrence of `sep`, found from left to right without overlaps. */
  function Split(s: string, sep: string): (r: seq<string>)
    requires |sep| > 0
    ensures |r| >= 1
    decreases |s|
  {
    match Find(s, sep, 0)
    case None => [s]
    case Some(k) => [s[..k]] + Split(s[k + |sep|..], sep)
  }

  /** Joining the pieces with the separator gives back the string. */
  lemma {:induction false} SplitJoin(s: string, sep: string)
    requires |sep| > 0
    ensures Join(Split(s, sep), sep) == s
    decreases |s|
  {
    match Find(s, sep, 0)
    case None =>
    case Some(k) =>
      var rest := s[k + |sep|..];
      SplitJoin(rest, sep);
      JoinCons(s[..k], Split(rest, sep), sep);
      OccursAtCuts(s, k, sep);
  }

  /** The occurrences of `sep` counted from left to right, each one resuming after the previous. */
  function Occurrences(s: string, sep: string): nat
    requires |sep| > 0
    decreases |s|
  {
    if |s| < |sep| then 0
    else if OccursAt(s, 0, sep) then 1 + Occurrences(s[|sep|..], sep)
    else Occurrences(s[1..], sep)
  }

  lemma {:induction false} OccurrencesSkip(s: string, sep: string, i: nat)
    requires |sep| > 0 && i <= |s|
    requires forall m: nat :: m < i ==> !OccursAt(s, m, sep)
    ensures Occurrences(s, sep) == Occurrences(s[i..], sep)
    decreases i
  {
    if i > 0 && |s| >= |sep| {
      assert !OccursAt(s, 0, sep);
      forall m: nat | m < i - 1
        ensures !OccursAt(s[1..], m, sep)
      {
        assert !OccursAt(s, m + 1, sep);
        if m + |sep| <= |s[1..]| {
          assert s[1..][m..m + |sep|] == s[m + 1..m + 1 + |sep|];
        }
      }
      OccurrencesSkip(s[1..], sep, i - 1);
      assert s[1..][i - 1..] == s[i..];
    }
  }

  /** There is one piece more than there are separators. */
  lemma {:induction false} SplitCount(s: string, sep: string)
    requires |sep| > 0
    ensures |Split(s, sep)| == Occurrences(s, sep) + 1
    decreases |s|
  {
    match Find(s, sep, 0)
    case None =>
      OccurrencesSkip(s, sep, |s|);
      assert s[|s|..] == [];
    case Some(k) =>
      var rest := s[k + |sep|..];
      OccurrencesSkip(s, sep, k);
      assert s[k..][..|sep|] == sep;
      assert s[k..][|sep|..] == rest;
      SplitCount(rest, sep);
  }

  /** No piece contains the separator, and every piece but the last is cut at the separator's
      leftmost occurrence: the piece followed by all but the last character of the separator does
      not contain it either. */
  lemma {:induction false} SplitPiecesLeftmost(s: string, sep: string)
    requires |sep| > 0
    ensures forall i :: 0 <= i < |Split(s, sep)| ==> !Contains(Split(s, sep)[i], sep)
    ensures forall i :: 0 <= i < |Split(s, sep)| - 1 ==> !Contains(Split(s, sep)[i] + sep[..|sep| - 1], sep)
    decreases |s|
  {
    match Find(s, sep, 0)
    case None =>
      assert Split(s, sep) == [s];
    case Some(k) =>
      var rest := s[k + |sep|..];
      SplitPiecesLeftmost(rest, sep);
      FirstPiece(s, sep, k);
      var r := Split(s, sep);
      assert r == [s[..k]] + Split(rest, sep);
      assert forall i :: 1 <= i < |r| ==> r[i] == Split(rest, sep)[i - 1];
  }

  /** The piece before the leftmost separator, even with all but the separator's last character
      after it, does not contain the separator. */
  lemma FirstPiece(s: string, sep: string, k: nat)
    requires |sep| > 0 && Find(s, sep, 0) == Some(k)
    ensures !Contains(s[..k], sep) && !Contains(s[..k] + sep[..|sep| - 1], sep)
  {
    PrefixNoOccurrence(s, k, sep);
    PrefixNoOccurrence(s, k + |sep| - 1, sep);
    assert sep[..|sep| - 1] == s[k..k + |sep| - 1];
    assert s[..k] + s[k..k + |sep| - 1] == s[..k + |sep| - 1];
  }

  lemma PrefixNoOccurrence(s: string, n: nat, sep: string)
    requires n <= |s|
    requires forall m: nat :: m + |sep| <= n ==> !OccursAt(s, m, sep)
    ensures !Contains(s[..n], sep)
  {
    forall m: nat | m + |sep| <= n
      ensures !OccursAt(s[..n], m, sep)
    {
      assert !OccursAt(s, m, sep);
      assert s[..n][m..m + |sep|] == s[m..m + |sep|];
    }
  }

  // ----- .replace(/\*\*(.*?)\*\*/g, "<strong>$1</strong>") --------------------------------------

  /** The lazy `(.*?)\*\*` from `j`: the first `**` at or after `j`, unless a line terminator (which
      `.` does not match) comes first. */
  function BoldClose(s: string, j: nat): (r: Option<nat>)
    ensures r.Some? ==> j <= r.value && OccursAt(s, r.value, BoldMarker)
    ensures r.Some? ==> forall m :: j <= m < r.value ==> !IsLineTerminator(s[m])
    decreases |s| - j
  {
    if j + 2 > |s| then None
    else if s[j] == '*' && s[j + 1] == '*' then Some(j)
    else if IsLineTerminator(s[j]) then None
    else BoldClose(s, j + 1)
  }

  /** The global replacement: scanning left to right, a `**` with a closing `**` later on the
      same line becomes `<strong>`, the text between, `</strong>`; scanning resumes after it. */
  function Bold(s: string): (r: string)
    // neither adds nor removes a newline
    ensures Newlines(r) == Newlines(s)
    decreases |s|
  {
    if OccursAt(s, 0, BoldMarker) && BoldClose(s, 2).Some? then
      var j := BoldClose(s, 2).value;
      var tail := Bold(s[j + 2..]);
      MarkedSpanNewlines(s, j);
      StrongTagNewlines(s[2..j], tail);
      StrongOpen + s[2..j] + StrongClose + tail
    else if s == [] then []
    else
      var tail := Bold(s[1..]);
      NewlinesAppend([s[0]], tail);
      NewlinesAppend([s[0]], s[1..]);
      assert s == [s[0]] + s[1..];
      [s[0]] + tail
  }

  /** A `**` at the start is not closed when no `**` comes before a line terminator or the end. */
  lemma {:induction false} BoldCloseNone(s: string, j: nat, e: nat)
    requires j <= e <= |s| && (e + 2 > |s| || IsLineTerminator(s[e]))
    requires forall m :: j <= m < e ==> !IsLineTerminator(s[m]) && !OccursAt(s, m, BoldMarker)
    ensures BoldClose(s, j).None?
    decreases e - j
  {
    if j < e {
      assert !OccursAt(s, j, BoldMarker);
      BoldCloseNone(s, j + 1, e);
    }
  }

  /** A character that does not begin `**` is kept, and the rest is formatted on its own. */
  lemma BoldKeepsChar(c: char, t: string)
    requires !OccursAt([c] + t, 0, BoldMarker)
    ensures Bold([c] + t) == [c] + Bold(t)
  {
    assert ([c] + t)[1..] == t;
  }

  /** A `**` with no closing `**` before the next line terminator (or the end) is kept as text: its
      first `*` is output and scanning resumes at the next character. */
  lemma BoldUnclosed(s: string, e: nat)
    requires OccursAt(s, 0, BoldMarker)
    requires 2 <= e <= |s| && (e + 2 > |s| || IsLineTerminator(s[e]))
    requires forall m :: 2 <= m < e ==> !IsLineTerminator(s[m]) && !OccursAt(s, m, BoldMarker)
    ensures Bold(s) == "*" + Bold(s[1..])
  {
    assert BoldClose(s, 2).None? by {
      BoldCloseNone(s, 2, e);
    }
    BoldFirstKept(s);
    OccursAtChar(s, 0, BoldMarker, 0);
  }

  lemma BoldFirstKept(s: string)
    requires s != [] && BoldClose(s, 2).None?
    ensures Bold(s) == [s[0]] + Bold(s[1..])
  {
  }

  /** `.` does not match a line terminator, so `**x` followed by a line break is not replaced, even
      when a `**` comes later. */
  lemma BoldStopsAtLineBreak(x: string, c: char, rest: string)
    requires IsLineTerminator(c)
    requires forall k :: 0 <= k < |x| ==> !IsLineTerminator(x[k])
    requires forall k :: 0 <= k < |x| ==> !OccursAt(x + [c], k, BoldMarker)
    ensures Bold(BoldMarker + x + [c] + rest) == "*" + Bold("*" + x + [c] + rest)
  {
    var t := x + [c] + rest;
    var s := BoldMarker + x + [c] + rest;
    assert s == BoldMarker + t;
    assert "*" + x + [c] + rest == "*" + t;
    SpanBeforeLineBreak(x, c, rest);
    BoldUnclosed(s, 2 + |x|);
    DropFirstStar(t);
  }

  lemma DropFirstStar(t: string)
    ensures (BoldMarker + t)[1..] == "*" + t
  {
  }

  lemma SpanBeforeLineBreak(x: string, c: char, rest: string)
    requires IsLineTerminator(c)
    requires forall k :: 0 <= k < |x| ==> !IsLineTerminator(x[k])
    requires forall k :: 0 <= k < |x| ==> !OccursAt(x + [c], k, BoldMarker)
    ensures var s := BoldMarker + x + [c] + rest;
      IsLineTerminator(s[2 + |x|]) &&
      forall m :: 2 <= m < 2 + |x| ==> !IsLineTerminator(s[m]) && !OccursAt(s, m, BoldMarker)
  {
    var s := BoldMarker + x + [c] + rest;
    var t := x + [c];
    assert s == BoldMarker + t + rest;
    assert s[2 + |x|] == c;
    forall m | 2 <= m < 2 + |x|
      ensures !IsLineTerminator(s[m]) && !OccursAt(s, m, BoldMarker)
    {
      assert s[m] == x[m - 2];
      assert !OccursAt(t, m - 2, BoldMarker);
      assert s[m..m + 2] == t[m - 2..m];
    }
  }

  lemma {:induction false} BoldCloseAt(s: string, j: nat, e: nat)
    requires j <= e && OccursAt(s, e, BoldMarker)
    requires forall m :: j <= m < e ==> !IsLineTerminator(s[m]) && !OccursAt(s, m, BoldMarker)
    ensures BoldClose(s, j) == Some(e)
    decreases e - j
  {
    if j < e {
      assert !OccursAt(s, j, BoldMarker);
      assert !(s[j] == '*' && s[j + 1] == '*');
      BoldCloseAt(s, j + 1, e);
    }
  }

  /** The leftmost, shortest `**x**` (no line terminator in `x`, and no `**` before the closing one)
      becomes `<strong>x</strong>`. */
  lemma BoldReplacesLeftmostShortest(x: string, rest: string)
    requires forall k :: 0 <= k < |x| ==> !IsLineTerminator(x[k])
    requires forall k :: 0 <= k < |x| ==> !OccursAt(x + BoldMarker, k, BoldMarker)
    ensures Bold(BoldMarker + x + BoldMarker + rest) == StrongOpen + x + StrongClose + Bold(rest)
  {
    var s := BoldMarker + x + BoldMarker + rest;
    var e := 2 + |x|;
    assert s[2..e] == x;
    assert s[e..e + 2] == BoldMarker;
    forall m | 2 <= m < e ensures !IsLineTerminator(s[m]) && !OccursAt(s, m, BoldMarker) {
      assert s[m] == x[m - 2];
      var t := x + BoldMarker;
      assert !OccursAt(t, m - 2, BoldMarker);
      assert s[m..m + 2] == t[m - 2..m];
    }
    BoldCloseAt(s, 2, e);
    assert OccursAt(s, 0, BoldMarker);
    assert s[e + 2..] == rest;
  }

  /** `**` occurs nowhere in `s`. */
  predicate NoBoldMarker(s: string)
  {
    forall k: nat :: k < |s| ==> !OccursAt(s, k, BoldMarker)
  }

  /** A paragraph without `**` is left alone. */
  lemma {:induction false} BoldWithoutMarker(s: string)
    requires NoBoldMarker(s)
    ensures Bold(s) == s
    decreases |s|
  {
    if s != [] {
      forall k: nat | k < |s[1..]| ensures !OccursAt(s[1..], k, BoldMarker) {
        assert !OccursAt(s, k + 1, BoldMarker);
        if k + 2 <= |s[1..]| {
          assert s[1..][k..k + 2] == s[k + 1..k + 3];
        }
      }
      BoldWithoutMarker(s[1..]);
    }
  }

  /** The number of newline characters. */
  function Newlines(s: string): nat
  {
    if s == [] then 0 else (if s[0] == '\n' then 1 else 0) + Newlines(s[1..])
  }

  lemma {:induction false} NewlinesAppend(a: string, b: string)
    ensures Newlines(a + b) == Newlines(a) + Newlines(b)
    decreases |a|
  {
    if a == [] {
      assert a + b == b;
    } else {
      assert (a + b)[1..] == a[1..] + b;
      NewlinesAppend(a[1..], b);
    }
  }

  lemma {:induction false} NewlinesNone(s: string)
    requires forall k :: 0 <= k < |s| ==> !IsLineTerminator(s[k])
    ensures Newlines(s) == 0
    decreases |s|
  {
    if s != [] {
      NewlinesNone(s[1..]);
    }
  }

  /** A replaced `**x**` holds no newline, and `x` no line terminator. */
  lemma MarkedSpanNewlines(s: string, j: nat)
    requires OccursAt(s, 0, BoldMarker) && BoldClose(s, 2) == Some(j)
    ensures Newlines(s) == Newlines(s[j + 2..])
    ensures forall k :: 0 <= k < |s[2..j]| ==> !IsLineTerminator(s[2..j][k])
  {
    var head := s[..j + 2];
    forall k | 0 <= k < |head| ensures !IsLineTerminator(head[k]) {
      if 2 <= k < j {
        assert head[k] == s[k];
      } else {
        assert head[k] == '*';
      }
    }
    NewlinesNone(head);
    assert s == head + s[j + 2..];
    NewlinesAppend(head, s[j + 2..]);
    forall k | 0 <= k < |s[2..j]| ensures !IsLineTerminator(s[2..j][k]) {
      assert s[2..j][k] == s[k + 2];
    }
  }

  /** `<strong>x</strong>` adds no newline when `x` has none. */
  lemma StrongTagNewlines(x: string, rest: string)
    requires forall k :: 0 <= k < |x| ==> !IsLineTerminator(x[k])
    ensures Newlines(StrongOpen + x + StrongClose + rest) == Newlines(rest)
  {
    var tag := StrongOpen + x + StrongClose;
    forall k | 0 <= k < |tag| ensures !IsLineTerminator(tag[k]) {
      if 8 <= k < 8 + |x| {
        assert tag[k] == x[k - 8];
      } else if k < 8 {
        assert tag[k] == StrongOpen[k];
      } else {
        assert tag[k] == StrongClose[k - 8 - |x|];
      }
    }
    NewlinesNone(tag);
    NewlinesAppend(tag, rest);
  }

  // ----- .replace(/\n/g, "<br />") ------------------------------------------------------------

  /** Each newline becomes `<br />`. */
  function LineBreaks(s: string): (r: string)
    ensures forall k :: 0 <= k < |r| ==> r[k] != '\n'
    ensures |r| == |s| + 5 * Newlines(s)
    decreases |s|
  {
    if s == [] then []
    else (if s[0] == '\n' then LineBreak else [s[0]]) + LineBreaks(s[1..])
  }

  /** The replacement works character by character, so it distributes over concatenation. */
  lemma {:induction false} LineBreaksAppend(a: string, b: string)
    ensures LineBreaks(a + b) == LineBreaks(a) + LineBreaks(b)
    decreases |a|
  {
    if a == [] {
      assert a + b == b;
    } else {
      var c, t := a[0], a[1..];
      var h := if c == '\n' then LineBreak else [c];
      calc {
        LineBreaks(a + b);
      == { assert a + b == [c] + (t + b); LineBreaksCons(c, t + b); }
        h + LineBreaks(t + b);
      == { LineBreaksAppend(t, b); }
        h + (LineBreaks(t) + LineBreaks(b));
      ==
        (h + LineBreaks(t)) + LineBreaks(b);
      == { assert a == [c] + t; LineBreaksCons(c, t); }
        LineBreaks(a) + LineBreaks(b);
      }
    }
  }

  lemma LineBreaksCons(c: char, t: string)
    ensures LineBreaks([c] + t) == (if c == '\n' then LineBreak else [c]) + LineBreaks(t)
  {
    assert ([c] + t)[1..] == t;
  }

  /** A newline becomes `<br />`; any other character stays. */
  lemma LineBreaksChar(c: char)
    ensures LineBreaks([c]) == if c == '\n' then LineBreak else [c]
  {
    assert [c][1..] == [];
  }

  /** Turns each `<br />` back into a newline. */
  function RestoreNewlines(s: string): string
    decreases |s|
  {
    if s == [] then []
    else if OccursAt(s, 0, LineBreak) then "\n" + RestoreNewlines(s[6..])
    else [s[0]] + RestoreNewlines(s[1..])
  }

  /** On text without `<`, the line-break replacement can be undone. */
  lemma {:induction false} LineBreaksRoundTrip(s: string)
    requires forall k :: 0 <= k < |s| ==> s[k] != '<'
    ensures RestoreNewlines(LineBreaks(s)) == s
    decreases |s|
  {
    if s != [] {
      LineBreaksRoundTrip(s[1..]);
      var r := LineBreaks(s);
      if s[0] == '\n' {
        assert r == LineBreak + LineBreaks(s[1..]);
        assert OccursAt(r, 0, LineBreak);
        assert r[6..] == LineBreaks(s[1..]);
      } else {
        assert r == [s[0]] + LineBreaks(s[1..]);
        assert !OccursAt(r, 0, LineBreak) by {
          assert r[0] == s[0] != '<';
        }
        assert r[1..] == LineBreaks(s[1..]);
      }
    }
  }

  // ----- The component --------------------------------------------------------------------

  /** One paragraph's HTML: bold first, then line breaks. It holds no newline; a `<br />` stands
      for each newline of the paragraph; a paragraph with neither `**` nor a newline is unchanged. */
  function Format(para: string): (r: string)
    ensures forall k :: 0 <= k < |r| ==> r[k] != '\n'
    ensures |r| == |Bold(para)| + 5 * Newlines(para)
    ensures NoBoldMarker(para) && (forall k :: 0 <= k < |para| ==> para[k] != '\n') ==> r == para
  {
    PlainParagraphUnchanged(para);
    LineBreaks(Bold(para))
  }

  /** A character where no `**` starts is formatted on its own, and the rest after it. */
  lemma FormatKeepsChar(c: char, t: string)
    requires !OccursAt([c] + t, 0, BoldMarker)
    ensures Format([c] + t) == (if c == '\n' then LineBreak else [c]) + Format(t)
  {
    BoldKeepsChar(c, t);
    LineBreaksAppend([c], Bold(t));
    LineBreaksChar(c);
  }

  /** A leading, shortest `**x**` becomes `<strong>x</strong>`, which the line-break pass leaves
      alone, and the rest is formatted on its own. */
  lemma FormatLeadingBold(x: string, rest: string)
    requires forall k :: 0 <= k < |x| ==> !IsLineTerminator(x[k])
    requires forall k :: 0 <= k < |x| ==> !OccursAt(x + BoldMarker, k, BoldMarker)
    ensures Format(BoldMarker + x + BoldMarker + rest) == StrongOpen + x + StrongClose + Format(rest)
  {
    BoldReplacesLeftmostShortest(x, rest);
    var tag := StrongOpen + x + StrongClose;
    forall k | 0 <= k < |tag| ensures tag[k] != '\n' {
      if 8 <= k < 8 + |x| {
        assert tag[k] == x[k - 8];
      } else if k < 8 {
        assert tag[k] == StrongOpen[k];
      } else {
        assert tag[k] == StrongClose[k - 8 - |x|];
      }
    }
    NoNewlineUnchanged(tag);
    LineBreaksAppend(tag, Bold(rest));
  }

  lemma PlainParagraphUnchanged(para: string)
    ensures NoBoldMarker(para) && (forall k :: 0 <= k < |para| ==> para[k] != '\n') ==> LineBreaks(Bold(para)) == para
  {
    if NoBoldMarker(para) {
      BoldWithoutMarker(para);
      NoNewlineUnchanged(para);
    }
  }

  lemma {:induction false} NoNewlineUnchanged(s: string)
    ensures (forall k :: 0 <= k < |s| ==> s[k] != '\n') ==> LineBreaks(s) == s
    decreases |s|
  {
    if s != [] {
      NoNewlineUnchanged(s[1..]);
    }
  }

  /** `SummaryRenderer({summary})`: the placeholder for an empty summary; otherwise the formatted
      paragraphs of the blank-line split, in order. */
  function Render(summary: string): (r: Rendered)
    ensures r.NoSummary? <==> summary == ""
    ensures r.Paragraphs? ==>
      var paras := Split(summary, ParagraphBreak);
      |r.html| == |paras| && forall k :: 0 <= k < |paras| ==> r.html[k] == Format(paras[k])
    ensures r.Paragraphs? ==> forall k, m :: 0 <= k < |r.html| && 0 <= m < |r.html[k]| ==> r.html[k][m] != '\n'
  {
    if summary == "" then NoSummary
    else
      var paras := Split(summary, ParagraphBreak);
      Paragraphs(seq(|paras|, k requires 0 <= k < |paras| => Format(paras[k])))
  }
}
