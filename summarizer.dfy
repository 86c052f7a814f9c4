/** The stand-alone summariser page (`Summarizer` in summarizer/src/App.js): the user types a URL;
    the page pulls the 11-character video id out of it, fetches the captions itself and sends them
    to the server's `/infer` endpoint. The transcript library and the endpoint are parameters. */
module Summarizer {
  import opened Wrappers
  import opened Text
  import opened Http
  import Backend

  // ----- /^.*((youtu.be\/)|(v\/)|(\/u\/\w\/)|(embed\/)|(watch\?))\??v?=?([^#&?]*).*/ -----------

  /** `\w`: an ASCII letter, digit or underscore. */
  predicate IsWordChar(c: char)
  {
    'a' <= c <= 'z' || 'A' <= c <= 'Z' || '0' <= c <= '9' || c == '_'
  }

  /** The alternative `youtu.be\/`, whose `.` is not escaped and so stands for any character but a
      line terminator. */
  predicate ShortAlt(url: string, p: nat)
  {
    p + 9 <= |url| && OccursAt(url, p, "youtu") && !IsLineTerminator(url[p + 5]) && OccursAt(url, p + 6, "be/")
  }

  /** The alternative `\/u\/\w\/`. */
  predicate UserAlt(url: string, p: nat)
  {
    p + 5 <= |url| && OccursAt(url, p, "/u/") && IsWordChar(url[p + 3]) && url[p + 4] == '/'
  }

  /** Where the marker group ends when one of its five alternatives matches at `p`: `youtu.be/`,
      `v/`, `/u/` with a word character and `/`, `embed/` and `watch?`. */
  function MarkerEnd(url: string, p: nat): (r: Option<nat>)
    ensures r.Some? ==> p < r.value <= |url|
    // every alternative ends in `/`, except `watch?`, which ends in `?`
    ensures r.Some? ==> url[r.value - 1] == '/' || (url[r.value - 1] == '?' && OccursAt(url, p, "watch?"))
    // the alternatives start with different characters
    ensures r.Some? ==> url[p] == 'y' || url[p] == 'v' || url[p] == '/' || url[p] == 'e' || url[p] == 'w'
    ensures OccursAt(url, p, "v/") || OccursAt(url, p, "embed/") || OccursAt(url, p, "watch?") ==> r.Some?
  {
    if ShortAlt(url, p) then
      OccursAtChar(url, p, "youtu", 0);
      OccursAtChar(url, p + 6, "be/", 2);
      Some(p + 9)
    else if OccursAt(url, p, "v/") then
      OccursAtChar(url, p, "v/", 0);
      OccursAtChar(url, p, "v/", 1);
      Some(p + 2)
    else if UserAlt(url, p) then
      OccursAtChar(url, p, "/u/", 0);
      Some(p + 5)
    else if OccursAt(url, p, "embed/") then
      OccursAtChar(url, p, "embed/", 0);
      OccursAtChar(url, p, "embed/", 5);
      Some(p + 6)
    else if OccursAt(url, p, "watch?") then
      OccursAtChar(url, p, "watch?", 0);
      OccursAtChar(url, p, "watch?", 5);
      Some(p + 6)
    else None
  }

  /** A marker matches at `p` exactly when one of the five alternatives does, and the group ends
      right after that alternative's last character. */
  lemma MarkerEndAlternatives(url: string, p: nat)
    ensures MarkerEnd(url, p).Some? <==>
      ShortAlt(url, p) || OccursAt(url, p, "v/") || UserAlt(url, p) ||
      OccursAt(url, p, "embed/") || OccursAt(url, p, "watch?")
    ensures ShortAlt(url, p) ==> MarkerEnd(url, p) == Some(p + 9)
    ensures OccursAt(url, p, "v/") ==> MarkerEnd(url, p) == Some(p + 2)
    ensures UserAlt(url, p) ==> MarkerEnd(url, p) == Some(p + 5)
    ensures OccursAt(url, p, "embed/") ==> MarkerEnd(url, p) == Some(p + 6)
    ensures OccursAt(url, p, "watch?") ==> MarkerEnd(url, p) == Some(p + 6)
  {
    AlternativesExclusive(url, p);
  }

  /** At most one of the five alternatives matches at a position: they begin with `y`, `v`, `/`,
      `e` and `w`. */
  lemma AlternativesExclusive(url: string, p: nat)
    ensures (if ShortAlt(url, p) then 1 else 0) + (if OccursAt(url, p, "v/") then 1 else 0) +
      (if UserAlt(url, p) then 1 else 0) + (if OccursAt(url, p, "embed/") then 1 else 0) +
      (if OccursAt(url, p, "watch?") then 1 else 0) <= 1
  {
    if ShortAlt(url, p) { OccursAtChar(url, p, "youtu", 0); }
    if OccursAt(url, p, "v/") { OccursAtChar(url, p, "v/", 0); }
    if UserAlt(url, p) { OccursAtChar(url, p, "/u/", 0); }
    if OccursAt(url, p, "embed/") { OccursAtChar(url, p, "embed/", 0); }
    if OccursAt(url, p, "watch?") { OccursAtChar(url, p, "watch?", 0); }
  }

  /** Wherever it stands, `youtu` + any character but a line terminator + `be/` is a marker that
      ends after its nine characters. */
  lemma UnescapedDot(prefix: string, c: char, rest: string)
    requires !IsLineTerminator(c)
    ensures MarkerEnd(prefix + "youtu" + [c] + "be/" + rest, |prefix|) == Some(|prefix| + 9)
  {
    var url := prefix + "youtu" + [c] + "be/" + rest;
    var p := |prefix|;
    assert url[p..p + 5] == "youtu" && url[p + 5] == c && url[p + 6..p + 9] == "be/";
    assert ShortAlt(url, p);
    MarkerEndAlternatives(url, p);
  }

  /** The first line terminator at or after `from`, or the length. */
  function TerminatorFrom(url: string, from: nat): (n: nat)
    requires from <= |url|
    ensures from <= n <= |url| && (n == |url| || IsLineTerminator(url[n]))
    ensures forall k :: from <= k < n ==> !IsLineTerminator(url[k])
    decreases |url| - from
  {
    if from == |url| || IsLineTerminator(url[from]) then from else TerminatorFrom(url, from + 1)
  }

  /** How far the leading `^.*` can reach: `.` matches no line terminator. */
  function Reach(url: string): (n: nat)
    ensures n <= |url| && (n == |url| || IsLineTerminator(url[n]))
    ensures forall k :: 0 <= k < n ==> !IsLineTerminator(url[k])
  {
    TerminatorFrom(url, 0)
  }

  /** The greedy `^.*` first takes everything it can and gives back one character at a time, so the
      marker group is tried at `p`, then `p - 1`, and so on: the rightmost marker at or before `p`. */
  function LastMarker(url: string, p: nat): (r: Option<nat>)
    ensures r.Some? ==> r.value <= p && MarkerEnd(url, r.value).Some?
    ensures forall q: nat :: q <= p && (r.None? || r.value < q) ==> MarkerEnd(url, q).None?
    decreases p
  {
    if MarkerEnd(url, p).Some? then Some(p)
    else if p == 0 then None
    else LastMarker(url, p - 1)
  }

  /** An optional literal such as `\??`: taken when it is the next character. */
  function SkipOptional(url: string, j: nat, c: char): (k: nat)
    requires j <= |url|
    ensures k <= |url|
    ensures k == j + 1 <==> j < |url| && url[j] == c
    ensures k == j || k == j + 1
  {
    if j < |url| && url[j] == c then j + 1 else j
  }

  /** Where the group `([^#&?]*)` begins: after the marker and the optional `?`, `v` and `=`. */
  function IdStart(url: string, m: nat): (j: nat)
    requires m <= |url|
    ensures m <= j <= |url| && j <= m + 3
    ensures j == m + 3 <==> m + 3 <= |url| && url[m..m + 3] == "?v="
  {
    SkipOptional(url, SkipOptional(url, SkipOptional(url, m, '?'), 'v'), '=')
  }

  predicate IsIdStop(c: char)
  {
    c == '#' || c == '&' || c == '?'
  }

  /** The end of the longest run, from `j`, of characters other than `#`, `&` and `?`. */
  function IdEnd(url: string, j: nat): (k: nat)
    requires j <= |url|
    ensures j <= k <= |url| && (k == |url| || IsIdStop(url[k]))
    ensures forall m :: j <= m < k ==> !IsIdStop(url[m])
    decreases |url| - j
  {
    if j == |url| || IsIdStop(url[j]) then j else IdEnd(url, j + 1)
  }

  /** `id` is what group 7 captures when the marker group matches at `p`: the maximal run without
      `#`, `&` or `?` that follows the marker and the optional `?`, `v` and `=`. */
  predicate CapturedAfter(url: string, p: nat, id: string)
  {
    MarkerEnd(url, p).Some? &&
    var j := IdStart(url, MarkerEnd(url, p).value);
    j + |id| <= |url| && url[j..j + |id|] == id && (j + |id| == |url| || IsIdStop(url[j + |id|]))
  }

  /** `match[7]` for `videoUrl.match(regExp)`, `None` when there is no match. Everything after the
      marker group is optional and the trailing `.*` may match nothing, so the expression matches
      exactly when a marker starts within reach of `^.*`; the capture follows the rightmost one. */
  function Capture(url: string): (r: Option<string>)
    ensures r.None? <==> forall q: nat :: q <= Reach(url) ==> MarkerEnd(url, q).None?
    ensures r.Some? ==> forall k :: 0 <= k < |r.value| ==> !IsIdStop(r.value[k])
    ensures r.Some? ==>
      exists p: nat :: p <= Reach(url) && CapturedAfter(url, p, r.value) &&
        forall q: nat :: p < q <= Reach(url) ==> MarkerEnd(url, q).None?
  {
    match LastMarker(url, Reach(url))
    case None => None
    case Some(p) =>
      var j := IdStart(url, MarkerEnd(url, p).value);
      var id := url[j..IdEnd(url, j)];
      assert CapturedAfter(url, p, id);
      Some(id)
  }

  /** `match && match[7].length === 11 ? match[7] : false`: an id is accepted only when the capture
      has exactly 11 characters. */
  function VideoId(url: string): (r: Option<string>)
    ensures r.Some? <==> Capture(url).Some? && |Capture(url).value| == 11
    ensures r.Some? ==> r == Capture(url)
  {
    if Capture(url).Some? && |Capture(url).value| == 11 then Capture(url) else None
  }

  // ----- getVideoTranscript and infer ---------------------------------------------------------

  /** The subtitles `getVideoTranscript` returns and the id it fetched captions for, if any. */
  datatype Subtitles = Subtitles(text: string, fetchedId: Option<string>)

  /** `getVideoTranscript(videoUrl)`, with `fetch` as `YoutubeTranscript.fetchTranscript`. */
  function GetVideoTranscript(url: string, fetch: string -> FetchOutcome): (r: Subtitles)
    // the captions are fetched, for the accepted id, only when the capture has 11 characters
    ensures r.fetchedId == VideoId(url)
    ensures r.fetchedId.None? ==> r.text == ""
    // the texts are joined with single spaces and nothing else is done to them
    ensures r.fetchedId.Some? && fetch(r.fetchedId.value).Captions? ==>
      r.text == Join(Texts(fetch(r.fetchedId.value).items), " ")
    // a thrown error, or a null list whose `.map` throws, gives the empty string
    ensures r.fetchedId.Some? && !fetch(r.fetchedId.value).Captions? ==> r.text == ""
  {
    match VideoId(url)
    case None => Subtitles("", None)
    case Some(id) =>
      match fetch(id)
      case Captions(items) => Subtitles(Join(Texts(items), " "), Some(id))
      case NoCaptions => Subtitles("", Some(id))
      case Threw(_) => Subtitles("", Some(id))
  }

  const PromptPrefix := "Summarize this video transcript: "
  const NoResponse := "No response received"
  const RequestFailed := "Error fetching response"

  /** `infer(prompt)` for the reply the endpoint gave (`None`: the request failed without one). */
  function Infer(reply: Option<Reply>): (r: string)
    ensures r != ""
    ensures reply.None? || !IsSuccess(reply.value) ==> r == RequestFailed
    ensures reply.Some? && IsSuccess(reply.value) ==> r == NoResponse || reply.value.body == ResponseBody(r)
    ensures reply.Some? && IsSuccess(reply.value) && reply.value.body == ResponseBody("") ==> r == NoResponse
    // `response.data.response || ...`: a non-empty response is passed through, anything else is replaced
    ensures reply.Some? && IsSuccess(reply.value) && reply.value.body.ResponseBody? && reply.value.body.response != "" ==>
      r == reply.value.body.response
    ensures reply.Some? && IsSuccess(reply.value) && !reply.value.body.ResponseBody? ==> r == NoResponse
  {
    if reply.None? || !IsSuccess(reply.value) then RequestFailed
    else match reply.value.body
      case ResponseBody(t) => if t != "" then t else NoResponse
      case _ => NoResponse
  }

  /** Against the server's `/infer` route, a non-empty prompt reaches the model unchanged; the page
      shows the model's output when it is non-empty, "No response received" when it is empty, and
      "Error fetching response" when the model fails (a 500 reply) or the prompt is empty (a 400). */
  lemma InferThroughServer(prompt: string, run: string -> Result<string, string>)
    ensures prompt != "" ==> Backend.InferRoute(Some(prompt), run).calledWith == Some(prompt)
    ensures Infer(Some(Backend.InferRoute(Some(prompt), run).reply)) ==
      if prompt == "" then RequestFailed
      else match run(prompt)
        case Ok(o) => if o == "" then NoResponse else o
        case Err(_) => RequestFailed
  {
  }

  // ----- The component ------------------------------------------------------------------------

  class Page {
    var videoUrl: string
    var summary: string
    var loading: bool

    constructor ()
      ensures videoUrl == "" && summary == "" && !loading
    {
      videoUrl, summary, loading := "", "", false;
    }

    /** The input's `onChange`. */
    method SetVideoUrl(url: string)
      modifies this`videoUrl
      ensures videoUrl == url
    {
      videoUrl := url;
    }

    /** `handleExtractAndSummarize`: `alerted` stands for the alert on an empty URL; `fetchedId` and
        `prompt` say what was sent to the transcript library and to the endpoint. */
    method HandleExtractAndSummarize(fetch: string -> FetchOutcome, inference: string -> Option<Reply>)
      returns (alerted: bool, fetchedId: Option<string>, prompt: Option<string>)
      modifies this`summary, this`loading
      ensures alerted <==> videoUrl == ""
      ensures alerted ==> fetchedId == None && prompt == None && summary == old(summary) && loading == old(loading)
      ensures !alerted ==>
        var subtitles := GetVideoTranscript(videoUrl, fetch);
        fetchedId == subtitles.fetchedId &&
        prompt == Some(PromptPrefix + subtitles.text) &&
        summary == Infer(inference(prompt.value)) && !loading
    {
      if videoUrl == "" {
        return true, None, None;
      }
      alerted := false;
      loading := true;
      summary := "";
      var subtitles := GetVideoTranscript(videoUrl, fetch);
      fetchedId := subtitles.fetchedId;
      prompt := Some(PromptPrefix + subtitles.text);
      var result := Infer(inference(prompt.value));
      summary := result;
      loading := false;
    }
  }
}
