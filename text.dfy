/** Character classes and string operations shared by the JavaScript and Python parts of the model. */
module Text {

  /** The characters JavaScript's `\s` matches, which are also the ones `String.prototype.trim`
      removes: ECMAScript's WhiteSpace (tab, vertical tab, form feed, space, no-break space, the
      byte order mark and every Unicode space separator) and LineTerminator. */
  predicate IsJsSpace(c: char)
  {
    ('\t' <= c <= '\r') || c == ' ' || c == '\U{A0}' || c == '\U{1680}' || ('\U{2000}' <= c <= '\U{200A}')
    || c == '\U{2028}' || c == '\U{2029}' || c == '\U{202F}' || c == '\U{205F}' || c == '\U{3000}'
    || c == '\U{FEFF}'
  }

  /** The characters Python's `str.isspace` accepts, which `str.strip()` removes from both ends. It
      differs from `IsJsSpace`: the four information separators (U+001C to U+001F) and NEXT LINE
      (U+0085) are in, the byte order mark is out. */
  predicate IsPySpace(c: char)
  {
    ('\t' <= c <= '\r') || ('\U{1C}' <= c <= ' ') || c == '\U{85}' || c == '\U{A0}' || c == '\U{1680}'
    || ('\U{2000}' <= c <= '\U{200A}') || c == '\U{2028}' || c == '\U{2029}' || c == '\U{202F}'
    || c == '\U{205F}' || c == '\U{3000}'
  }

  /** ECMAScript's line terminators: the characters a JavaScript regular expression's `.` does not match. */
  predicate IsLineTerminator(c: char)
  {
    c == '\n' || c == '\r' || c == '\U{2028}' || c == '\U{2029}'
  }

  /** `pat` occurs in `s` starting at index `i`. */
  predicate OccursAt(s: string, i: nat, pat: string)
  {
    i + |pat| <= |s| && s[i..i + |pat|] == pat
  }

  /** An occurrence of `pat` cuts `s` into what comes before it, `pat`, and what comes after. */
  lemma OccursAtCuts(s: string, i: nat, pat: string)
    requires OccursAt(s, i, pat)
    ensures s == s[..i] + pat + s[i + |pat|..]
  {
    assert s == s[..i] + s[i..i + |pat|] + s[i + |pat|..];
  }

  /** An occurrence of `pat` at `i` puts `pat[k]` at `i + k`. */
  lemma OccursAtChar(s: string, i: nat, pat: string, k: nat)
    requires OccursAt(s, i, pat) && k < |pat|
    ensures s[i + k] == pat[k]
  {
    assert s[i..i + |pat|][k] == s[i + k];
  }

  /** `pat` occurs somewhere in `s`: JavaScript's `s.includes(pat)`, Python's `pat in s`. */
  predicate Contains(s: string, pat: string)
  {
    exists i: nat :: i + |pat| <= |s| && OccursAt(s, i, pat)
  }

  /** The first `c` at or after `j`, or the end: where a greedy run of characters other than `c`
      that starts at `j` stops. */
  function FirstFrom(s: string, j: nat, c: char): (k: nat)
    requires j <= |s|
    ensures j <= k <= |s| && (k == |s| || s[k] == c)
    ensures forall m :: j <= m < k ==> s[m] != c
    decreases |s| - j
  {
    if j == |s| || s[j] == c then j else FirstFrom(s, j + 1, c)
  }

  /** `parts` joined with `sep` between neighbours: JavaScript's `parts.join(sep)` and Python's
      `sep.join(parts)`; an empty list joins to the empty string. */
  function Join(parts: seq<string>, sep: string): (r: string)
    ensures parts == [] ==> r == ""
    ensures |parts| == 1 ==> r == parts[0]
    ensures |parts| > 0 ==> |r| == TotalLength(parts) + (|parts| - 1) * |sep|
  {
    if |parts| == 0 then ""
    else if |parts| == 1 then parts[0]
    else parts[0] + sep + Join(parts[1..], sep)
  }

  /** The lengths of the parts added up. */
  function TotalLength(parts: seq<string>): nat
  {
    if parts == [] then 0 else |parts[0]| + TotalLength(parts[1..])
  }

  /** Joining `[first] + rest`, with `rest` non-empty, puts `first` and a separator before the join of `rest`. */
  lemma JoinCons(first: string, rest: seq<string>, sep: string)
    requires |rest| > 0
    ensures Join([first] + rest, sep) == first + sep + Join(rest, sep)
  {
    assert ([first] + rest)[1..] == rest;
  }

  /** Joining two non-empty lists one after the other is joining each and putting a separator between. */
  lemma {:induction false} JoinAppend(a: seq<string>, b: seq<string>, sep: string)
    requires |a| > 0 && |b| > 0
    ensures Join(a + b, sep) == Join(a, sep) + sep + Join(b, sep)
    decreases |a|
  {
    if |a| == 1 {
      JoinCons(a[0], b, sep);
      assert a + b == [a[0]] + b;
    } else {
      JoinAppend(a[1..], b, sep);
      assert (a + b)[1..] == a[1..] + b;
      JoinCons(a[0], a[1..] + b, sep);
      JoinCons(a[0], a[1..], sep);
      assert a == [a[0]] + a[1..];
    }
  }
}
