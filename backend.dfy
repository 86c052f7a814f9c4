/** The Express server's two routes: `GET /transcript`, which fetches a video's captions and
    returns them as one normalised string, and `POST /infer`, which hands a prompt to the local
    language model. The transcript library and the model are parameters. */
module Backend {
  import opened Wrappers
  import opened Text
  import opened Http

  // ----- Transcript text normalisation -------------------------------------------------------

  /** The characters of `s` that are not JavaScript whitespace, in order. */
  function NonSpace(s: string): string
  {
    if s == [] then [] else (if IsJsSpace(s[0]) then [] else [s[0]]) + NonSpace(s[1..])
  }

  /** Every whitespace character is a plain space and is not followed by another whitespace character. */
  predicate SingleSpaced(s: string)
  {
    forall i :: 0 <= i < |s| && IsJsSpace(s[i]) ==> s[i] == ' ' && (i + 1 < |s| ==> !IsJsSpace(s[i + 1]))
  }

  /** What the transcript route promises of its text: single-spaced, with no whitespace at either end. */
  predicate Normalised(s: string)
  {
    SingleSpaced(s) && (s != [] ==> !IsJsSpace(s[0]) && !IsJsSpace(s[|s| - 1]))
  }

  /** `s.trimStart()`: the suffix left after the leading whitespace run. */
  function TrimStart(s: string): (r: string)
    ensures |r| <= |s| && r == s[|s| - |r|..]
    ensures r == [] || !IsJsSpace(r[0])
  {
    if s != [] && IsJsSpace(s[0]) then TrimStart(s[1..]) else s
  }

  /** `s.trimEnd()`: the prefix left before the trailing whitespace run. */
  function TrimEnd(s: string): (r: string)
    ensures |r| <= |s| && r == s[..|r|]
    ensures r == [] || !IsJsSpace(r[|r| - 1])
  {
    if s != [] && IsJsSpace(s[|s| - 1]) then TrimEnd(s[..|s| - 1]) else s
  }

  /** Everything `trimStart` removes is whitespace. */
  lemma {:induction false} TrimStartRemovesSpace(s: string)
    ensures forall i :: 0 <= i < |s| - |TrimStart(s)| ==> IsJsSpace(s[i])
    decreases |s|
  {
    if s != [] && IsJsSpace(s[0]) {
      TrimStartRemovesSpace(s[1..]);
      forall i | 1 <= i < |s| - |TrimStart(s)|
        ensures IsJsSpace(s[i])
      {
        assert s[i] == s[1..][i - 1];
      }
    }
  }

  /** Everything `trimEnd` removes is whitespace. */
  lemma {:induction false} TrimEndRemovesSpace(s: string)
    ensures forall i :: |TrimEnd(s)| <= i < |s| ==> IsJsSpace(s[i])
    decreases |s|
  {
    if s != [] && IsJsSpace(s[|s| - 1]) {
      TrimEndRemovesSpace(s[..|s| - 1]);
      forall i | |TrimEnd(s)| <= i < |s| - 1
        ensures IsJsSpace(s[i])
      {
        assert s[i] == s[..|s| - 1][i];
      }
    }
  }

  /** `s.trim()`: no whitespace is left at either end and every non-whitespace character is kept,
      in order (`TrimStartRemovesSpace` and `TrimEndRemovesSpace` say that only whitespace goes). */
  function Trim(s: string): (r: string)
    ensures r == [] || (!IsJsSpace(r[0]) && !IsJsSpace(r[|r| - 1]))
    ensures NonSpace(r) == NonSpace(s)
  {
    TrimEnds(s);
    TrimKeepsNonSpace(s);
    TrimEnd(TrimStart(s))
  }

  lemma TrimEnds(s: string)
    ensures var r := TrimEnd(TrimStart(s)); r == [] || (!IsJsSpace(r[0]) && !IsJsSpace(r[|r| - 1]))
  {
    var t := TrimStart(s);
    var r := TrimEnd(t);
    assert r == [] || r[0] == t[0];
  }

  lemma TrimKeepsNonSpace(s: string)
    ensures NonSpace(TrimEnd(TrimStart(s))) == NonSpace(s)
  {
    TrimStartKeepsNonSpace(s);
    TrimEndKeepsNonSpace(TrimStart(s));
  }

  /** `s.replace(/\s+/g, ' ')`: each maximal run of whitespace becomes a single space. */
  function CollapseRuns(s: string): (r: string)
    ensures (r == []) == (s == [])
    ensures r != [] ==> (IsJsSpace(r[0]) <==> IsJsSpace(s[0]))
    ensures SingleSpaced(r)
    ensures NonSpace(r) == NonSpace(s)
    decreases |s|
  {
    if s == [] then []
    else if IsJsSpace(s[0]) then
      var rest := TrimStart(s);
      var tail := CollapseRuns(rest);
      TrimStartKeepsNonSpace(s);
      NonSpaceCons(' ', tail);
      SingleSpacedCons(' ', tail);
      [' '] + tail
    else
      var tail := CollapseRuns(s[1..]);
      NonSpaceCons(s[0], s[1..]);
      NonSpaceCons(s[0], tail);
      SingleSpacedCons(s[0], tail);
      [s[0]] + tail
  }

  lemma NonSpaceCons(c: char, t: string)
    ensures NonSpace([c] + t) == (if IsJsSpace(c) then [] else [c]) + NonSpace(t)
  {
    assert ([c] + t)[1..] == t;
  }

  lemma SingleSpacedCons(c: char, t: string)
    requires SingleSpaced(t)
    requires IsJsSpace(c) ==> c == ' ' && (t == [] || !IsJsSpace(t[0]))
    ensures SingleSpaced([c] + t)
  {
    var u := [c] + t;
    forall i | 0 <= i < |u| && IsJsSpace(u[i])
      ensures u[i] == ' ' && (i + 1 < |u| ==> !IsJsSpace(u[i + 1]))
    {
      if i > 0 {
        assert u[i] == t[i - 1];
        if i + 1 < |u| {
          assert u[i + 1] == t[i];
        }
      }
    }
  }

  /** The normalisation chain `.replace(/\s+/g, ' ').trim()`: the normalised text has no whitespace
      at either end, no two whitespace characters side by side, no whitespace character other than a
      space, and the input's non-whitespace characters exactly, in order. */
  function Normalise(s: string): (r: string)
    ensures Normalised(r)
    ensures NonSpace(r) == NonSpace(s)
  {
    TrimNormalises(CollapseRuns(s));
    Trim(CollapseRuns(s))
  }

  /** `trimStart` removes exactly a leading whitespace run. */
  lemma {:induction false} TrimStartRun(w: string, t: string)
    requires forall k :: 0 <= k < |w| ==> IsJsSpace(w[k])
    requires t == [] || !IsJsSpace(t[0])
    ensures TrimStart(w + t) == t
    decreases |w|
  {
    if w == [] {
      assert w + t == t;
    } else {
      assert (w + t)[1..] == w[1..] + t;
      TrimStartRun(w[1..], t);
    }
  }

  /** A maximal whitespace run at the front becomes a single space, and the rest is collapsed on its own. */
  lemma CollapseRunsSpaceRun(w: string, t: string)
    requires w != [] && forall k :: 0 <= k < |w| ==> IsJsSpace(w[k])
    requires t == [] || !IsJsSpace(t[0])
    ensures CollapseRuns(w + t) == " " + CollapseRuns(t)
  {
    TrimStartRun(w, t);
    assert (w + t)[0] == w[0];
  }

  /** A non-whitespace character is kept as it is. */
  lemma CollapseRunsNonSpace(c: char, t: string)
    requires !IsJsSpace(c)
    ensures CollapseRuns([c] + t) == [c] + CollapseRuns(t)
  {
    assert ([c] + t)[1..] == t;
  }

  lemma {:induction false} NonSpaceAppend(a: string, b: string)
    ensures NonSpace(a + b) == NonSpace(a) + NonSpace(b)
    decreases |a|
  {
    if a == [] {
      assert a + b == b;
    } else {
      assert (a + b)[1..] == a[1..] + b;
      NonSpaceAppend(a[1..], b);
    }
  }

  /** A slice of a single-spaced string is single-spaced. */
  lemma SingleSpacedSlice(s: string, a: nat, b: nat)
    requires SingleSpaced(s) && a <= b <= |s|
    ensures SingleSpaced(s[a..b])
  {
    var t := s[a..b];
    forall i | 0 <= i < |t| && IsJsSpace(t[i])
      ensures t[i] == ' ' && (i + 1 < |t| ==> !IsJsSpace(t[i + 1]))
    {
      assert t[i] == s[a + i];
      if i + 1 < |t| {
        assert t[i + 1] == s[a + i + 1];
      }
    }
  }

  lemma {:induction false} TrimStartKeepsNonSpace(s: string)
    ensures NonSpace(TrimStart(s)) == NonSpace(s)
    decreases |s|
  {
    if s != [] && IsJsSpace(s[0]) {
      TrimStartKeepsNonSpace(s[1..]);
    }
  }

  lemma {:induction false} TrimEndKeepsNonSpace(s: string)
    ensures NonSpace(TrimEnd(s)) == NonSpace(s)
    decreases |s|
  {
    if s != [] && IsJsSpace(s[|s| - 1]) {
      var init := s[..|s| - 1];
      TrimEndKeepsNonSpace(init);
      assert s == init + [s[|s| - 1]];
      NonSpaceAppend(init, [s[|s| - 1]]);
    }
  }

  lemma TrimStartSingleSpaced(s: string)
    requires SingleSpaced(s)
    ensures SingleSpaced(TrimStart(s))
  {
    SingleSpacedSlice(s, |s| - |TrimStart(s)|, |s|);
  }

  lemma TrimEndSingleSpaced(s: string)
    requires SingleSpaced(s)
    ensures SingleSpaced(TrimEnd(s))
  {
    SingleSpacedSlice(s, 0, |TrimEnd(s)|);
  }

  /** Trimming a single-spaced string leaves it normalised. */
  lemma TrimNormalises(s: string)
    requires SingleSpaced(s)
    ensures Normalised(Trim(s))
  {
    var t := TrimStart(s);
    TrimStartSingleSpaced(s);
    TrimEndSingleSpaced(t);
    var r := TrimEnd(t);
    if r != [] {
      assert r[0] == t[0];
    }
  }

  /** A string that is already normalised is left unchanged. */
  lemma {:induction false} NormalisedIsFixed(s: string)
    requires Normalised(s)
    ensures Normalise(s) == s
  {
    CollapseSingleSpaced(s);
  }

  lemma {:induction false} CollapseSingleSpaced(s: string)
    requires SingleSpaced(s)
    ensures CollapseRuns(s) == s
    decreases |s|
  {
    if s != [] {
      SingleSpacedSlice(s, 1, |s|);
      CollapseSingleSpaced(s[1..]);
      if IsJsSpace(s[0]) {
        TrimStartLoneSpace(s);
        assert s == [' '] + s[1..];
      } else {
        assert s == [s[0]] + s[1..];
      }
    }
  }

  /** A lone leading space is all that `trimStart` removes from a single-spaced string. */
  lemma TrimStartLoneSpace(s: string)
    requires SingleSpaced(s) && s != [] && IsJsSpace(s[0])
    ensures TrimStart(s) == s[1..]
  {
    assert s[1..] == [] || !IsJsSpace(s[1..][0]);
  }

  /** Normalising twice gives the same text as normalising once. */
  lemma NormaliseIdempotent(s: string)
    ensures Normalise(Normalise(s)) == Normalise(s)
  {
    NormalisedIsFixed(Normalise(s));
  }

  /** The non-whitespace characters of each part, one part after another. */
  function NonSpaceOfAll(parts: seq<string>): string
  {
    if parts == [] then [] else NonSpace(parts[0]) + NonSpaceOfAll(parts[1..])
  }

  lemma NonSpaceSpaced(a: string, b: string)
    ensures NonSpace(a + " " + b) == NonSpace(a) + NonSpace(b)
  {
    NonSpaceAppend(a + " ", b);
    NonSpaceAppend(a, " ");
    NonSpaceOfSpace();
  }

  lemma NonSpaceOfSpace()
    ensures NonSpace(" ") == []
  {
    assert " "[1..] == [];
  }

  /** Joining with spaces adds only whitespace. */
  lemma {:induction false} NonSpaceJoin(parts: seq<string>)
    ensures NonSpace(Join(parts, " ")) == NonSpaceOfAll(parts)
  {
    if |parts| == 1 {
      assert parts[1..] == [];
    } else if |parts| > 1 {
      var rest := Join(parts[1..], " ");
      NonSpaceJoin(parts[1..]);
      NonSpaceSpaced(parts[0], rest);
    }
  }

  /** `transcript.map(item => item.text).join(' ').replace(/\s+/g, ' ').trim()`. */
  function FullText(items: seq<Caption>): (r: string)
    ensures Normalised(r)
    ensures NonSpace(r) == NonSpaceOfAll(Texts(items))
  {
    var joined := Join(Texts(items), " ");
    NonSpaceJoin(Texts(items));
    Normalise(joined)
  }

  /** Two normalised, non-empty texts joined with a space give a normalised text. */
  lemma SpacedNormalised(a: string, b: string)
    requires Normalised(a) && a != [] && Normalised(b) && b != []
    ensures Normalised(a + " " + b)
  {
    var u := a + " " + b;
    forall i | 0 <= i < |u| && IsJsSpace(u[i])
      ensures u[i] == ' ' && (i + 1 < |u| ==> !IsJsSpace(u[i + 1]))
    {
      if i < |a| {
        assert u[i] == a[i];
        assert i + 1 < |a|;
        assert u[i + 1] == a[i + 1];
      } else if i == |a| {
        assert u[i + 1] == b[0];
      } else {
        assert u[i] == b[i - |a| - 1];
        if i + 1 < |u| {
          assert u[i + 1] == b[i - |a|];
        }
      }
    }
    assert u[0] == a[0] && u[|u| - 1] == b[|b| - 1];
  }

  /** Normalised, non-empty texts joined with spaces give a normalised text. */
  lemma {:induction false} JoinNormalised(parts: seq<string>)
    requires forall i :: 0 <= i < |parts| ==> Normalised(parts[i]) && parts[i] != []
    ensures Normalised(Join(parts, " "))
  {
    if |parts| > 1 {
      var rest := parts[1..];
      JoinNormalised(rest);
      assert Join(rest, " ") != [] by {
        assert |Join(rest, " ")| >= TotalLength(rest) >= |rest[0]| > 0;
      }
      SpacedNormalised(parts[0], Join(rest, " "));
    }
  }

  /** Captions that are already normalised and non-empty come out joined by single spaces, so
      neighbouring captions stay separated: `["hello", "world"]` gives `"hello world"`. */
  lemma FullTextOfNormalisedCaptions(items: seq<Caption>)
    requires forall i :: 0 <= i < |items| ==> Normalised(items[i].text) && items[i].text != []
    ensures FullText(items) == Join(Texts(items), " ")
  {
    JoinNormalised(Texts(items));
    NormalisedIsFixed(Join(Texts(items), " "));
  }

  // ----- Routes ------------------------------------------------------------------------------

  /** What one request did: the reply it got and the argument, if any, it called its collaborator with. */
  datatype Exchange = Exchange(reply: Reply, calledWith: Option<string>)

  const MissingVideoId := "Missing videoId parameter"
  const NoTranscript := "No transcript available for this video"
  const TranscriptFailed := "Failed to get transcript"
  const NoPrompt := "No prompt provided"

  /** `GET /transcript`: reads the `videoId` query parameter; `fetch` is `YoutubeTranscript.fetchTranscript`. */
  function TranscriptRoute(query: map<string, string>, fetch: string -> FetchOutcome): (x: Exchange)
    // a missing or empty videoId is answered 400 before the transcript library is called
    ensures x.reply.status == 400 <==> "videoId" !in query || query["videoId"] == ""
    ensures x.reply.status == 400 ==> x.calledWith == None && x.reply.body == ErrorBody(MissingVideoId)
    ensures x.reply.status != 400 ==> x.calledWith == Some(query["videoId"])
    // a null or empty caption list is answered 404
    ensures x.reply.status == 404 <==>
      x.calledWith.Some? && (fetch(x.calledWith.value).NoCaptions? || fetch(x.calledWith.value) == Captions([]))
    ensures x.reply.status == 404 ==> x.reply.body == ErrorBody(NoTranscript)
    // an exception is answered 500 with its message, or a fixed text when the message is empty
    ensures x.reply.status == 500 <==> x.calledWith.Some? && fetch(x.calledWith.value).Threw?
    ensures x.reply.status == 500 ==>
      var m := fetch(x.calledWith.value).message;
      x.reply.body == ErrorBody(if m == "" then TranscriptFailed else m)
    // otherwise the reply is 200 with the normalised caption text
    ensures x.reply.status in {200, 400, 404, 500}
    ensures x.reply.status == 200 ==>
      var items := fetch(x.calledWith.value).items;
      items != [] && x.reply.body == TranscriptBody(FullText(items))
  {
    if "videoId" !in query || query["videoId"] == "" then
      Exchange(Reply(400, ErrorBody(MissingVideoId)), None)
    else
      var videoId := query["videoId"];
      match fetch(videoId)
      case Threw(m) => Exchange(Reply(500, ErrorBody(if m == "" then TranscriptFailed else m)), Some(videoId))
      case NoCaptions => Exchange(Reply(404, ErrorBody(NoTranscript)), Some(videoId))
      case Captions(items) =>
        if |items| == 0 then Exchange(Reply(404, ErrorBody(NoTranscript)), Some(videoId))
        else Exchange(Reply(200, TranscriptBody(FullText(items))), Some(videoId))
  }

  /** `POST /infer`: `prompt` is the body's `prompt` field (`None` when absent); `run` is the model,
      which gives its output or fails with an error message. */
  function InferRoute(prompt: Option<string>, run: string -> Result<string, string>): (x: Exchange)
    // a missing or empty prompt is answered 400 and the model is never run
    ensures x.reply.status == 400 <==> prompt == None || prompt == Some("")
    ensures x.reply.status == 400 ==> x.calledWith == None && x.reply.body == ErrorBody(NoPrompt)
    // otherwise the model runs on exactly the prompt; its output is a 200, its failure a 500
    ensures x.reply.status != 400 ==> x.calledWith == prompt
    ensures x.reply.status == 200 <==> x.calledWith.Some? && run(x.calledWith.value).Ok?
    ensures x.reply.status == 200 ==> x.reply.body == ResponseBody(run(x.calledWith.value).value)
    ensures x.reply.status == 500 <==> x.calledWith.Some? && run(x.calledWith.value).Err?
    ensures x.reply.status == 500 ==> x.reply.body == ErrorBody(run(x.calledWith.value).error)
  {
    if prompt == None || prompt.value == "" then
      Exchange(Reply(400, ErrorBody(NoPrompt)), None)
    else
      match run(prompt.value)
      case Ok(response) => Exchange(Reply(200, ResponseBody(response)), prompt)
      case Err(message) => Exchange(Reply(500, ErrorBody(message)), prompt)
  }
}
