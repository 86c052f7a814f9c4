/** `clean_subtitles` in extract_subtitles.py: it turns the lines of a WebVTT subtitle file into
    running text by dropping blank and cue-timing lines, removing `<...>` tags, dropping a line
    that repeats the one kept just before it, and joining what is left from the fifth entry on.
    The file's lines are the input; reading and deleting the file are not modelled. */
module Subtitles {
  import opened Wrappers
  import opened Text

  // ----- str.strip() and re.sub(r"<.*?>", "", line) -----------------------------------------

  function StripStart(s: string): (r: string)
    ensures |r| <= |s| && r == s[|s| - |r|..]
    ensures r == [] || !IsPySpace(r[0])
  {
    if s != [] && IsPySpace(s[0]) then StripStart(s[1..]) else s
  }

  function StripEnd(s: string): (r: string)
    ensures |r| <= |s| && r == s[..|r|]
    ensures r == [] || !IsPySpace(r[|r| - 1])
  {
    if s != [] && IsPySpace(s[|s| - 1]) then StripEnd(s[..|s| - 1]) else s
  }

  /** Everything the leading strip removes is whitespace. */
  lemma {:induction false} StripStartRemovesSpace(s: string)
    ensures forall i :: 0 <= i < |s| - |StripStart(s)| ==> IsPySpace(s[i])
    decreases |s|
  {
    if s != [] && IsPySpace(s[0]) {
      StripStartRemovesSpace(s[1..]);
      forall i | 1 <= i < |s| - |StripStart(s)|
        ensures IsPySpace(s[i])
      {
        assert s[i] == s[1..][i - 1];
      }
    }
  }

  /** Everything the trailing strip removes is whitespace. */
  lemma {:induction false} StripEndRemovesSpace(s: string)
    ensures forall i :: |StripEnd(s)| <= i < |s| ==> IsPySpace(s[i])
    decreases |s|
  {
    if s != [] && IsPySpace(s[|s| - 1]) {
      StripEndRemovesSpace(s[..|s| - 1]);
      forall i | |StripEnd(s)| <= i < |s| - 1
        ensures IsPySpace(s[i])
      {
        assert s[i] == s[..|s| - 1][i];
      }
    }
  }

  /** `s.strip()`: the string without its leading and trailing whitespace. */
  function Strip(s: string): (r: string)
    ensures r == [] || (!IsPySpace(r[0]) && !IsPySpace(r[|r| - 1]))
  {
    var t := StripStart(s);
    var r := StripEnd(t);
    assert r == [] || r[0] == t[0];
    r
  }

  /** `strip()` keeps a contiguous slice of the line and removes only whitespace around it. */
  lemma StripSpec(s: string)
    ensures var a := |s| - |StripStart(s)|; a + |Strip(s)| <= |s| && Strip(s) == s[a..a + |Strip(s)|]
    ensures var a := |s| - |StripStart(s)|;
      forall i :: 0 <= i < |s| && (i < a || a + |Strip(s)| <= i) ==> IsPySpace(s[i])
  {
    var a := |s| - |StripStart(s)|;
    var r := Strip(s);
    assert r == StripEnd(StripStart(s));
    StripSlice(s);
    StripOutside(s);
  }

  lemma StripSlice(s: string)
    ensures var a := |s| - |StripStart(s)|; var r := StripEnd(StripStart(s));
      a + |r| <= |s| && r == s[a..a + |r|]
  {
    var t := StripStart(s);
    var a := |s| - |t|;
    var r := StripEnd(t);
    assert r == t[..|r|] && t == s[a..];
    assert r == s[a..a + |r|];
  }

  lemma StripOutside(s: string)
    ensures var a := |s| - |StripStart(s)|; var r := StripEnd(StripStart(s));
      forall i :: 0 <= i < |s| && (i < a || a + |r| <= i) ==> IsPySpace(s[i])
  {
    var t := StripStart(s);
    var a := |s| - |t|;
    StripStartRemovesSpace(s);
    StripEndRemovesSpace(t);
    ShiftAll(s, a, |StripEnd(t)|, IsPySpace);
  }

  /** A property of every character of a suffix from `lo` on holds of the same characters of the whole. */
  lemma ShiftAll(s: string, a: nat, lo: nat, P: char -> bool)
    requires a <= |s|
    requires forall i :: lo <= i < |s| - a ==> P(s[a..][i])
    ensures forall i :: a + lo <= i < |s| ==> P(s[i])
  {
    forall i | a + lo <= i < |s|
      ensures P(s[i])
    {
      assert s[i] == s[a..][i - a];
    }
  }

  /** A line as `readlines` gives it: a newline, if any, only as its last character. */
  predicate ReadLine(line: string)
  {
    forall k :: 0 <= k < |line| - 1 ==> line[k] != '\n'
  }

  /** A stripped line holds no newline: the only one was at the end, and it is whitespace. */
  lemma StripNoNewline(line: string)
    requires ReadLine(line)
    ensures forall k :: 0 <= k < |Strip(line)| ==> Strip(line)[k] != '\n'
  {
    var r := Strip(line);
    var a := |line| - |StripStart(line)|;
    assert a + |r| <= |line| && r == line[a..a + |r|] by {
      StripSlice(line);
    }
    assert r == [] || !IsPySpace(r[|r| - 1]);
    assert forall k :: 0 <= k < |r| ==> r[k] != '\n' by {
      SliceWithoutNewline(line, a, r);
    }
  }

  /** A slice of a `readlines` line that does not end in whitespace holds no newline. */
  lemma SliceWithoutNewline(line: string, a: nat, r: string)
    requires ReadLine(line)
    requires a + |r| <= |line| && r == line[a..a + |r|]
    requires r == [] || !IsPySpace(r[|r| - 1])
    ensures forall k :: 0 <= k < |r| ==> r[k] != '\n'
  {
    assert IsPySpace('\n');
    forall k | 0 <= k < |r| - 1
      ensures r[k] != '\n'
    {
      assert r[k] == line[a + k];
    }
  }

  /** The lazy `.*?>` that follows a `<`: the first `>` at or after `j`, unless a newline (which
      Python's `.` does not match) comes first. */
  function TagClose(s: string, j: nat): (r: Option<nat>)
    ensures r.Some? ==> j <= r.value < |s| && s[r.value] == '>'
    // lazy: the first `>`, with no newline before it
    ensures r.Some? ==> forall m :: j <= m < r.value ==> s[m] != '>' && s[m] != '\n'
    decreases |s| - j
  {
    if j >= |s| then None
    else if s[j] == '>' then Some(j)
    else if s[j] == '\n' then None
    else TagClose(s, j + 1)
  }

  /** There is no closing `>` only when no `>` comes before the next newline. */
  lemma {:induction false} TagCloseNone(s: string, j: nat)
    requires j <= |s| && TagClose(s, j).None?
    ensures forall m :: j <= m < FirstFrom(s, j, '\n') ==> s[m] != '>'
    decreases |s| - j
  {
    if j < |s| && s[j] != '\n' {
      TagCloseNone(s, j + 1);
    }
  }

  /** `re.sub(r"<.*?>", "", s)`: scanning left to right, each `<` that has a closing `>` starts a
      tag, which is removed up to that first `>`; scanning resumes after it. */
  function StripTags(s: string): (r: string)
    ensures |r| <= |s|
    decreases |s|
  {
    if s == [] then []
    else if s[0] == '<' && TagClose(s, 1).Some? then StripTags(s[TagClose(s, 1).value + 1..])
    else [s[0]] + StripTags(s[1..])
  }

  /** The first `>` on the line closes the tag at `j`. */
  lemma {:induction false} TagCloseAt(s: string, j: nat, e: nat)
    requires j <= e < |s| && s[e] == '>'
    requires forall m :: j <= m < e ==> s[m] != '>' && s[m] != '\n'
    ensures TagClose(s, j) == Some(e)
    decreases e - j
  {
    if j < e {
      TagCloseAt(s, j + 1, e);
    }
  }

  /** The shortest tag `<x>` (no `>` or newline in `x`) at the start is removed, and the rest of the
      line is cleaned on its own. */
  lemma StripTagsTag(x: string, rest: string)
    requires forall k :: 0 <= k < |x| ==> x[k] != '>' && x[k] != '\n'
    ensures StripTags("<" + x + ">" + rest) == StripTags(rest)
  {
    var s := "<" + x + ">" + rest;
    var e := |x| + 1;
    forall m | 1 <= m < e
      ensures s[m] != '>' && s[m] != '\n'
    {
      assert s[m] == x[m - 1];
    }
    TagCloseAt(s, 1, e);
    assert s[e + 1..] == rest;
  }

  /** A character other than `<` is kept. */
  lemma StripTagsKeepsChar(c: char, t: string)
    requires c != '<'
    ensures StripTags([c] + t) == [c] + StripTags(t)
  {
    assert ([c] + t)[1..] == t;
  }

  /** A `<` that no `>` closes before the next newline is kept. */
  lemma StripTagsUnclosed(t: string)
    requires forall m :: 0 <= m < FirstFrom(t, 0, '\n') ==> t[m] != '>'
    ensures StripTags("<" + t) == "<" + StripTags(t)
  {
    var s := "<" + t;
    if TagClose(s, 1).Some? {
      var v := TagClose(s, 1).value;
      NewlineShift(t, v - 1);
      assert false;
    }
    assert s[1..] == t;
  }

  /** Before the first `>` of `"<" + t`, with no newline in between, `t` has no newline either. */
  lemma {:induction false} NewlineShift(t: string, k: nat)
    requires k < |t| && forall n :: 0 <= n < k ==> t[n] != '\n'
    ensures k < FirstFrom(t, 0, '\n') || t[k] == '\n'
  {
    NewlineNotBefore(t, 0, k);
  }

  lemma {:induction false} NewlineNotBefore(t: string, j: nat, k: nat)
    requires j <= k < |t| && forall n :: j <= n < k ==> t[n] != '\n'
    ensures k < FirstFrom(t, j, '\n') || t[k] == '\n'
    decreases k - j
  {
    if j < k {
      NewlineNotBefore(t, j + 1, k);
    }
  }

  /** Removing tags brings in no character the line did not have. */
  lemma {:induction false} StripTagsAddsNothing(s: string, c: char)
    requires forall k :: 0 <= k < |s| ==> s[k] != c
    ensures forall k :: 0 <= k < |StripTags(s)| ==> StripTags(s)[k] != c
    decreases |s|
  {
    if s != [] {
      if s[0] == '<' && TagClose(s, 1).Some? {
        var rest := s[TagClose(s, 1).value + 1..];
        assert forall k :: 0 <= k < |rest| ==> rest[k] == s[TagClose(s, 1).value + 1 + k];
        StripTagsAddsNothing(rest, c);
      } else {
        StripTagsAddsNothing(s[1..], c);
      }
    }
  }

  /** No `<` is followed, anywhere later, by a `>`. */
  predicate TagFree(s: string)
  {
    forall i, j :: 0 <= i < j < |s| && s[i] == '<' ==> s[j] != '>'
  }

  /** In a line without newlines (a stripped line read by `readlines` has none) removing the tags
      leaves no `<` that a later `>` could close. */
  lemma {:induction false} StripTagsLeavesNoTag(s: string)
    requires forall k :: 0 <= k < |s| ==> s[k] != '\n'
    ensures TagFree(StripTags(s))
    decreases |s|
  {
    if s != [] {
      if s[0] == '<' && TagClose(s, 1).Some? {
        StripTagsLeavesNoTag(s[TagClose(s, 1).value + 1..]);
      } else {
        StripTagsLeavesNoTag(s[1..]);
        var rest := StripTags(s[1..]);
        assert StripTags(s) == [s[0]] + rest;
        if s[0] == '<' {
          TagCloseNone(s, 1);
          StripTagsAddsNothing(s[1..], '>');
        }
      }
    }
  }

  /** A line with no `<` in it is left alone. */
  lemma {:induction false} StripTagsWithoutTags(s: string)
    requires forall k :: 0 <= k < |s| ==> s[k] != '<'
    ensures StripTags(s) == s
    decreases |s|
  {
    if s != [] {
      StripTagsWithoutTags(s[1..]);
    }
  }

  // ----- The loop ---------------------------------------------------------------------------

  /** What one input line offers the loop: nothing when it is blank after stripping or contains
      `-->` (a cue timing; tested before tags are removed), otherwise the stripped line without tags,
      which for a line as `readlines` gives it is free of tags. */
  function CleanLine(line: string): (r: Option<string>)
    ensures r.Some? ==> |r.value| <= |Strip(line)| <= |line|
  {
    var l := Strip(line);
    StripSlice(line);
    if l == "" || Contains(l, "-->") then None else Some(StripTags(l))
  }

  /** A line as `readlines` gives it is offered free of tags. */
  lemma CleanLineTagFree(line: string)
    requires ReadLine(line)
    ensures CleanLine(line).Some? ==> TagFree(CleanLine(line).value)
  {
    StripNoNewline(line);
    StripTagsLeavesNoTag(Strip(line));
  }

  /** No entry equals the entry just before it. */
  predicate NoAdjacentRepeats<T(==)>(s: seq<T>)
  {
    forall i :: 0 < i < |s| ==> s[i] != s[i - 1]
  }

  /** The lines the loop is offered, in input order: each line that is neither blank nor a cue
      timing, cleaned. */
  function Offered(lines: seq<string>): (r: seq<string>)
    ensures |r| <= |lines|
    decreases |lines|
  {
    if lines == [] then []
    else Offered(lines[..|lines| - 1]) + (match CleanLine(lines[|lines| - 1]) case None => [] case Some(t) => [t])
  }

  /** The loop's bookkeeping on what it is offered: `cleaned_lines` starts as `[first]`, and an
      offered line is appended unless it equals the last entry. */
  function Keep<T(==)>(first: T, offered: seq<T>): (r: seq<T>)
    ensures |r| >= 1 && r[0] == first
    ensures NoAdjacentRepeats(r)
    decreases |offered|
  {
    if offered == [] then [first]
    else
      var prev := Keep(first, offered[..|offered| - 1]);
      var t := offered[|offered| - 1];
      if t == prev[|prev| - 1] then prev else prev + [t]
  }

  /** `cleaned_lines[4:]`. */
  function FromFifth(s: seq<string>): (r: seq<string>)
    ensures |r| == if |s| <= 4 then 0 else |s| - 4
    ensures forall k :: 0 <= k < |r| ==> r[k] == s[k + 4]
  {
    if |s| <= 4 then [] else s[4..]
  }

  lemma OfferedNext(lines: seq<string>, i: nat)
    requires i < |lines|
    ensures CleanLine(lines[i]).None? ==> Offered(lines[..i + 1]) == Offered(lines[..i])
    ensures CleanLine(lines[i]).Some? ==> Offered(lines[..i + 1]) == Offered(lines[..i]) + [CleanLine(lines[i]).value]
  {
    assert lines[..i + 1][..i] == lines[..i];
    var o := Offered(lines[..i]);
    assert o + [] == o;
  }

  lemma KeepNext<T>(first: T, offered: seq<T>, t: T)
    ensures Keep(first, offered + [t]) ==
      var prev := Keep(first, offered);
      if t == prev[|prev| - 1] then prev else prev + [t]
  {
    assert (offered + [t])[..|offered|] == offered;
  }

  /** `clean_subtitles`, with the file's lines as `lines`: `cleaned_lines` is what keeping the
      offered lines after the sentinel `""` leaves, and the text is its entries from the fifth on,
      joined with spaces. */
  method CleanSubtitles(lines: seq<string>) returns (cleanedText: string)
    ensures cleanedText == Join(FromFifth(Keep("", Offered(lines))), " ")
    ensures |Keep("", Offered(lines))| <= 4 ==> cleanedText == ""
    ensures |Keep("", Offered(lines))| == 5 ==> cleanedText == Keep("", Offered(lines))[4]
  {
    var cleanedLines := [""];
    ghost var offered: seq<string> := [];
    for i := 0 to |lines|
      invariant offered == Offered(lines[..i])
      invariant cleanedLines == Keep("", offered)
    {
      OfferedNext(lines, i);
      var line := Strip(lines[i]);
      if line == "" || Contains(line, "-->") {
        assert CleanLine(lines[i]).None?;
        continue;
      }
      line := StripTags(line);
      assert CleanLine(lines[i]) == Some(line);
      KeepNext("", offered, line);
      offered := offered + [line];
      if line != cleanedLines[|cleanedLines| - 1] {
        cleanedLines := cleanedLines + [line];
      }
    }
    assert lines[..|lines|] == lines;
    cleanedText := Join(FromFifth(cleanedLines), " ");
    ShortTextOf(cleanedLines);
  }

  /** With at most five entries there is at most one from the fifth on, so nothing is joined. */
  lemma ShortTextOf(kept: seq<string>)
    ensures |kept| <= 4 ==> Join(FromFifth(kept), " ") == ""
    ensures |kept| == 5 ==> Join(FromFifth(kept), " ") == kept[4]
  {
    if |kept| == 5 {
      assert FromFifth(kept) == [kept[4]];
    }
  }

  // ----- What the kept entries are --------------------------------------------------------

  /** A reference for dropping repeats: entry `i` stays exactly when it differs from entry `i - 1`
      of the INPUT (the loop compares with the last KEPT entry instead). */
  function DropRepeats<T(==)>(s: seq<T>): (r: seq<T>)
    decreases |s|
  {
    if s == [] then []
    else DropRepeats(s[..|s| - 1]) + (if |s| >= 2 && s[|s| - 1] == s[|s| - 2] then [] else [s[|s| - 1]])
  }

  lemma {:induction false} DropRepeatsLast<T>(s: seq<T>)
    requires s != []
    ensures DropRepeats(s) != [] && DropRepeats(s)[|DropRepeats(s)| - 1] == s[|s| - 1]
    decreases |s|
  {
    if |s| >= 2 {
      DropRepeatsLast(s[..|s| - 1]);
    }
  }

  lemma DropRepeatsSnoc<T>(s: seq<T>, t: T)
    requires s != []
    ensures DropRepeats(s + [t]) == DropRepeats(s) + (if t == s[|s| - 1] then [] else [t])
  {
    assert (s + [t])[..|s + [t]| - 1] == s;
  }

  /** Comparing with the last kept entry drops exactly the entries equal to the entry before them
      in the input: the sentinel followed by the offered lines. */
  lemma {:induction false} KeepDropsRepeats<T>(first: T, offered: seq<T>)
    ensures Keep(first, offered) == DropRepeats([first] + offered)
    decreases |offered|
  {
    if offered != [] {
      var init := offered[..|offered| - 1];
      var t := offered[|offered| - 1];
      KeepDropsRepeats(first, init);
      var s := [first] + init;
      DropRepeatsLast(s);
      assert [first] + offered == s + [t];
      DropRepeatsSnoc(s, t);
    }
  }

  /** `a` is a subsequence of `b`, decided greedily from the back. */
  predicate IsSubsequence<T(==)>(a: seq<T>, b: seq<T>)
    decreases |b|
  {
    if a == [] then true
    else if b == [] then false
    else if a[|a| - 1] == b[|b| - 1] then IsSubsequence(a[..|a| - 1], b[..|b| - 1])
    else IsSubsequence(a, b[..|b| - 1])
  }

  lemma {:induction false} SubsequenceDropLast<T>(a: seq<T>, b: seq<T>)
    requires a != [] && IsSubsequence(a, b)
    ensures IsSubsequence(a[..|a| - 1], b)
    decreases |b|, 0
  {
    var b' := b[..|b| - 1];
    assert b == b' + [b[|b| - 1]];
    if a[|a| - 1] == b[|b| - 1] {
      SubsequenceExtend(a[..|a| - 1], b', b[|b| - 1]);
    } else {
      SubsequenceDropLast(a, b');
      SubsequenceExtend(a[..|a| - 1], b', b[|b| - 1]);
    }
  }

  lemma {:induction false} SubsequenceExtend<T>(a: seq<T>, b: seq<T>, x: T)
    requires IsSubsequence(a, b)
    ensures IsSubsequence(a, b + [x])
    decreases |b|, 1
  {
    assert (b + [x])[..|b + [x]| - 1] == b;
    if a != [] && a[|a| - 1] == x {
      SubsequenceDropLast(a, b);
    }
  }

  /** Dropping repeats keeps the remaining entries in their input order. */
  lemma {:induction false} DropRepeatsIsSubsequence<T>(s: seq<T>)
    ensures IsSubsequence(DropRepeats(s), s)
    decreases |s|
  {
    if s != [] {
      var init := s[..|s| - 1];
      DropRepeatsIsSubsequence(init);
      assert s == init + [s[|s| - 1]];
      if |s| >= 2 && s[|s| - 1] == s[|s| - 2] {
        assert DropRepeats(s) == DropRepeats(init);
        SubsequenceExtend(DropRepeats(init), init, s[|s| - 1]);
      } else {
        var r := DropRepeats(s);
        assert r == DropRepeats(init) + [s[|s| - 1]];
        assert r[..|r| - 1] == DropRepeats(init);
      }
    }
  }

  /** The entries of `cleaned_lines` appear, in the same order, in the sentinel followed by the
      offered lines. */
  lemma KeptInInputOrder(lines: seq<string>)
    ensures IsSubsequence(Keep("", Offered(lines)), [""] + Offered(lines))
  {
    KeepDropsRepeats("", Offered(lines));
    DropRepeatsIsSubsequence([""] + Offered(lines));
  }

  /** A line that is blank after stripping, or a cue timing, is not offered to the loop. */
  lemma SkippedLineAddsNothing(lines: seq<string>, line: string)
    requires Strip(line) == "" || Contains(Strip(line), "-->")
    ensures Offered(lines + [line]) == Offered(lines)
  {
    assert (lines + [line])[..|lines|] == lines;
  }

  /** Any other line is offered cleaned, and appended unless it equals the last kept entry. */
  lemma OfferedLineKept(lines: seq<string>, line: string, t: string)
    requires CleanLine(line) == Some(t)
    ensures Offered(lines + [line]) == Offered(lines) + [t]
    ensures Keep("", Offered(lines + [line])) ==
      var prev := Keep("", Offered(lines));
      if t == prev[|prev| - 1] then prev else prev + [t]
  {
    assert (lines + [line])[..|lines|] == lines;
    KeepNext("", Offered(lines), t);
  }

  /** A line made only of a tag, and not a cue timing, is offered as the empty string, which is
      kept after any non-empty entry. */
  lemma TagOnlyLineOffersEmpty(x: string)
    requires forall k :: 0 <= k < |x| ==> x[k] != '>' && x[k] != '\n'
    requires !Contains("<" + x + ">", "-->")
    ensures CleanLine("<" + x + ">") == Some("")
  {
    var l := "<" + x + ">";
    assert Strip(l) == l by {
      assert !IsPySpace(l[0]) && !IsPySpace(l[|l| - 1]);
      assert StripStart(l) == l;
      assert StripEnd(l) == l;
    }
    StripTagsTag(x, "");
    assert l + "" == l;
  }

  /** Every entry of `cleaned_lines` is the sentinel or an offered line. */
  lemma {:induction false} KeepFrom<T>(first: T, offered: seq<T>)
    ensures forall y :: y in Keep(first, offered) ==> y == first || y in offered
    decreases |offered|
  {
    if offered != [] {
      var init := offered[..|offered| - 1];
      KeepFrom(first, init);
      assert forall y :: y in init ==> y in offered;
    }
  }

  /** For a file read with `readlines`, every offered line is free of tags. */
  lemma {:induction false} OfferedTagFree(lines: seq<string>)
    requires forall i :: 0 <= i < |lines| ==> ReadLine(lines[i])
    ensures forall k :: 0 <= k < |Offered(lines)| ==> TagFree(Offered(lines)[k])
    decreases |lines|
  {
    if lines != [] {
      OfferedTagFree(lines[..|lines| - 1]);
      CleanLineTagFree(lines[|lines| - 1]);
    }
  }

  /** For a file read with `readlines`, no entry of `cleaned_lines` holds a `<` that a later `>`
      could close. */
  lemma KeptLinesTagFree(lines: seq<string>)
    requires forall i :: 0 <= i < |lines| ==> ReadLine(lines[i])
    ensures forall k :: 0 <= k < |Keep("", Offered(lines))| ==> TagFree(Keep("", Offered(lines))[k])
  {
    var kept := Keep("", Offered(lines));
    KeepFrom("", Offered(lines));
    OfferedTagFree(lines);
    forall k | 0 <= k < |kept|
      ensures TagFree(kept[k])
    {
      assert kept[k] in kept;
    }
  }

  /** Only adjacent repeats are dropped: an entry that comes back after a different one is kept again. */
  lemma KeepRecurring<T>(first: T, x: T, y: T)
    requires x != first && x != y
    ensures Keep(first, [x, y, x]) == [first, x, y, x]
  {
    KeepNext(first, [], x);
    assert [] + [x] == [x];
    assert Keep(first, [x]) == [first, x];
    KeepNext(first, [x], y);
    assert [x] + [y] == [x, y];
    assert Keep(first, [x, y]) == [first, x, y];
    KeepNext(first, [x, y], x);
    assert [x, y] + [x] == [x, y, x];
  }

  /** The same for lines of the file: `a`, then a different line `b`, then `a` again. */
  lemma RecurringLineKeptAgain(a: string, b: string, x: string, y: string)
    requires CleanLine(a) == Some(x) && CleanLine(b) == Some(y)
    requires x != "" && x != y
    ensures Keep("", Offered([a, b, a])) == ["", x, y, x]
  {
    OfferedThree(a, b, x, y);
    KeepRecurring("", x, y);
  }

  lemma OfferedThree(a: string, b: string, x: string, y: string)
    requires CleanLine(a) == Some(x) && CleanLine(b) == Some(y)
    ensures Offered([a, b, a]) == [x, y, x]
  {
    assert [a, b, a][..2] == [a, b];
    assert [a, b][..1] == [a];
    assert [a][..0] == [];
    assert Offered([a]) == [x];
    assert Offered([a, b]) == [x, y];
  }
}
