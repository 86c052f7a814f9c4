/** The extension popup (`App` in frontend/src/App.js): it finds the video id in the current tab's
    URL, shows a cached summary when there is one, and otherwise asks the server for the transcript
    and a summary and caches the summary. The Chrome storage entry `summaryCache` is the field
    `cache`, `currentVideoUrl` the field of that name; the two HTTP endpoints are parameters. */
module Popup {
  import opened Wrappers
  import opened Text
  import opened Http
  import Backend

  // ----- extractVideoId: /(?:youtube\.com\/watch\?v=|youtu\.be\/)([^&]+)/ ---------------------

  const WatchMarker := "youtube.com/watch?v="
  const ShortMarker := "youtu.be/"

  /** Where the captured id would begin if one of the two alternatives matches at `i`. The
      alternatives differ in their sixth character, so at most one of them matches. */
  function MarkerEnd(url: string, i: nat): (r: Option<nat>)
    ensures !(OccursAt(url, i, WatchMarker) && OccursAt(url, i, ShortMarker))
    ensures r.Some? <==> OccursAt(url, i, WatchMarker) || OccursAt(url, i, ShortMarker)
    ensures r.Some? && OccursAt(url, i, WatchMarker) ==> r.value == i + |WatchMarker|
    ensures r.Some? && OccursAt(url, i, ShortMarker) ==> r.value == i + |ShortMarker|
    ensures r.Some? ==> i < r.value <= |url|
  {
    MarkersExclusive(url, i);
    if OccursAt(url, i, WatchMarker) then Some(i + |WatchMarker|)
    else if OccursAt(url, i, ShortMarker) then Some(i + |ShortMarker|)
    else None
  }

  lemma MarkersExclusive(url: string, i: nat)
    ensures !(OccursAt(url, i, WatchMarker) && OccursAt(url, i, ShortMarker))
  {
    if OccursAt(url, i, WatchMarker) {
      assert url[i..i + |ShortMarker|][5] == WatchMarker[5] != ShortMarker[5];
    }
  }

  /** The expression matches with its match starting at `i`: a marker followed by at least one
      character other than `&` (the group `([^&]+)` needs one). */
  predicate MatchesAt(url: string, i: nat)
  {
    var e := MarkerEnd(url, i);
    e.Some? && e.value < |url| && url[e.value] != '&'
  }

  /** A match starts at `i` exactly when one of the two markers does and a character other than
      `&` follows it. */
  lemma MatchesAtMarker(url: string, i: nat)
    ensures MatchesAt(url, i) <==>
      (OccursAt(url, i, WatchMarker) && i + |WatchMarker| < |url| && url[i + |WatchMarker|] != '&') ||
      (OccursAt(url, i, ShortMarker) && i + |ShortMarker| < |url| && url[i + |ShortMarker|] != '&')
  {
  }

  /** A non-global match tries start positions from left to right: the leftmost position at or
      after `from` where the expression matches, if any. */
  function FirstMatch(url: string, from: nat): (r: Option<nat>)
    ensures r.Some? ==> from <= r.value && MatchesAt(url, r.value)
    ensures forall i: nat :: from <= i && (r.None? || i < r.value) ==> !MatchesAt(url, i)
    decreases |url| - from
  {
    if from >= |url| then None
    else if MatchesAt(url, from) then Some(from)
    else FirstMatch(url, from + 1)
  }

  /** `id` is what the group captures for a match starting at `i`: it sits directly after the marker
      and runs to the next `&` or to the end of the URL. */
  predicate CapturedAt(url: string, i: nat, id: string)
  {
    MatchesAt(url, i) &&
    var j := MarkerEnd(url, i).value;
    j + |id| <= |url| && url[j..j + |id|] == id && (j + |id| == |url| || url[j + |id|] == '&')
  }

  /** `extractVideoId(url)`: `null` exactly when the expression matches nowhere; otherwise the
      non-empty, `&`-free capture of the leftmost match. */
  function ExtractVideoId(url: string): (r: Option<string>)
    ensures r.Some? ==> r.value != [] && '&' !in r.value
    ensures r.None? <==> forall i: nat :: !MatchesAt(url, i)
    ensures r.Some? ==>
      exists i: nat :: CapturedAt(url, i, r.value) && forall k: nat :: k < i ==> !MatchesAt(url, k)
  {
    match FirstMatch(url, 0)
    case None => None
    case Some(i) =>
      var j := MarkerEnd(url, i).value;
      var id := url[j..FirstFrom(url, j, '&')];
      assert CapturedAt(url, i, id);
      Some(id)
  }

  // ----- The popup's state and its cache ------------------------------------------------------

  /** The popup's React state together with the two Chrome storage entries it uses. */
  datatype PopupState = PopupState(
    videoUrl: string, videoId: string, summary: string, loading: bool, error: string,
    cache: map<string, string>, currentVideoUrl: string)

  /** `checkCache`: a cache entry counts only when it is truthy, that is a non-empty string. */
  function CachedSummary(cache: map<string, string>, videoId: string): (r: Option<string>)
    ensures r.Some? <==> videoId in cache && cache[videoId] != ""
    ensures r.Some? ==> r.value == cache[videoId]
  {
    if videoId in cache && cache[videoId] != "" then Some(cache[videoId]) else None
  }

  /** After `updateCache(videoId, summary)` a lookup of `videoId` finds `summary` (when it is
      truthy) and every other lookup is as before. */
  lemma CachedAfterUpdate(cache: map<string, string>, videoId: string, summary: string, key: string)
    ensures CachedSummary(cache[videoId := summary], key) ==
      if key == videoId then (if summary == "" then None else Some(summary)) else CachedSummary(cache, key)
  {
  }

  // ----- The two requests ---------------------------------------------------------------------

  const PromptPrefix := "Summarize this video transcript: "
  const NoTranscriptText := "No transcript available."
  const NoResponseText := "No response received."
  const TranscriptError := "Error fetching transcript. Is your backend server running?"
  const InferError := "Error getting summary. Is your backend server running?"
  const NavigateError := "Please navigate to a YouTube video first."

  /** The query `getVideoTranscript` sends: the URL under the parameter name `videoUrl`. */
  function TranscriptQuery(url: string): (q: map<string, string>)
    ensures q.Keys == {"videoUrl"} && q["videoUrl"] == url
    ensures "videoId" !in q
  {
    map["videoUrl" := url]
  }

  /** The value `getVideoTranscript` returns for a reply (`None` when the request failed to get one):
      `null` unless axios resolved, else the transcript or, when that is empty or absent, a fixed text. */
  function TranscriptOf(reply: Option<Reply>): (r: Option<string>)
    ensures r.Some? <==> reply.Some? && IsSuccess(reply.value)
    ensures r.Some? ==> r.value != ""
    ensures r.Some? && r.value != NoTranscriptText ==> reply.value.body == TranscriptBody(r.value)
    // `response.data.transcript || ...`: a non-empty transcript is passed through, anything else is replaced
    ensures r.Some? && reply.value.body.TranscriptBody? && reply.value.body.transcript != "" ==>
      r.value == reply.value.body.transcript
    ensures r.Some? && !(reply.value.body.TranscriptBody? && reply.value.body.transcript != "") ==>
      r.value == NoTranscriptText
  {
    if reply.None? || !IsSuccess(reply.value) then None
    else match reply.value.body
      case TranscriptBody(t) => if t != "" then Some(t) else Some(NoTranscriptText)
      case _ => Some(NoTranscriptText)
  }

  /** The value `infer` returns for a reply: `null` unless axios resolved, else the response or,
      when that is empty or absent, a fixed text. */
  function ResponseOf(reply: Option<Reply>): (r: Option<string>)
    ensures r.Some? <==> reply.Some? && IsSuccess(reply.value)
    ensures r.Some? ==> r.value != ""
    ensures r.Some? && r.value != NoResponseText ==> reply.value.body == ResponseBody(r.value)
    // `response.data.response || ...`: a non-empty response is passed through, anything else is replaced
    ensures r.Some? && reply.value.body.ResponseBody? && reply.value.body.response != "" ==>
      r.value == reply.value.body.response
    ensures r.Some? && !(reply.value.body.ResponseBody? && reply.value.body.response != "") ==>
      r.value == NoResponseText
  {
    if reply.None? || !IsSuccess(reply.value) then None
    else match reply.value.body
      case ResponseBody(t) => if t != "" then Some(t) else Some(NoResponseText)
      case _ => Some(NoResponseText)
  }

  // ----- handleExtractAndSummarize and the popup's start-up --------------------------------------

  /** The state after a step, the transcript query sent and the prompt sent (`None`: not sent). */
  datatype Step = Step(state: PopupState, query: Option<map<string, string>>, prompt: Option<string>)

  /** What `handleExtractAndSummarize(url, videoId)` does to the state, given how the two endpoints
      answer (`None` for a request that fails without a reply). */
  function Summarise(st: PopupState, url: string, videoId: string,
                     transcripts: map<string, string> -> Option<Reply>,
                     inference: string -> Option<Reply>): (r: Step)
    // an empty url or id: nothing happens
    ensures url == "" || videoId == "" ==> r == Step(st, None, None)
    // otherwise the transcript is requested and loading ends false
    ensures url != "" && videoId != "" ==> r.query == Some(TranscriptQuery(url)) && !r.state.loading
    // the id, the stored URL and the other cache entries never change
    ensures r.state.videoId == st.videoId && r.state.currentVideoUrl == st.currentVideoUrl
    ensures forall k :: k != videoId ==> CachedSummary(r.state.cache, k) == CachedSummary(st.cache, k)
    // inference is asked exactly when a transcript came back, with the transcript after the prefix
    ensures r.prompt.Some? <==> r.query.Some? && TranscriptOf(transcripts(r.query.value)).Some?
    ensures r.prompt.Some? ==> r.prompt.value == PromptPrefix + TranscriptOf(transcripts(r.query.value)).value
    // no transcript: the transcript error is shown and the cache is not written
    ensures r.query.Some? && r.prompt.None? ==>
      r.state.error == TranscriptError && r.state.summary == "" && r.state.cache == st.cache
      && r.state.videoUrl == st.videoUrl
    // the summary is shown and cached under the id exactly when inference succeeds
    ensures r.prompt.Some? ==>
      match ResponseOf(inference(r.prompt.value))
      case Some(s) => r.state.summary == s && r.state.cache == st.cache[videoId := s]
                      && CachedSummary(r.state.cache, videoId) == Some(s)
                      && r.state.error == "" && r.state.videoUrl == ""
      case None => r.state.summary == "" && r.state.cache == st.cache && r.state.error == InferError
                   && r.state.videoUrl == st.videoUrl
  {
    if url == "" || videoId == "" then Step(st, None, None)
    else
      var started := st.(loading := true, summary := "", error := "");
      var query := TranscriptQuery(url);
      match TranscriptOf(transcripts(query))
      case None => Step(started.(error := TranscriptError, loading := false), Some(query), None)
      case Some(transcript) =>
        var prompt := PromptPrefix + transcript;
        match ResponseOf(inference(prompt))
        case None => Step(started.(error := InferError, loading := false), Some(query), Some(prompt))
        case Some(s) =>
          Step(started.(summary := s, cache := started.cache[videoId := s], videoUrl := "", loading := false),
               Some(query), Some(prompt))
  }

  /** The popup's reaction to a video URL: a URL without an id changes nothing; a cache hit shows
      the cached summary and sends nothing; a miss runs `handleExtractAndSummarize`. */
  function ShowVideoStep(st: PopupState, url: string,
                     transcripts: map<string, string> -> Option<Reply>,
                     inference: string -> Option<Reply>): (r: Step)
    ensures ExtractVideoId(url).None? ==> r == Step(st, None, None)
    ensures ExtractVideoId(url).Some? && CachedSummary(st.cache, ExtractVideoId(url).value).Some? ==>
      var id := ExtractVideoId(url).value;
      r == Step(st.(videoId := id, summary := st.cache[id], videoUrl := ""), None, None)
    ensures ExtractVideoId(url).Some? && CachedSummary(st.cache, ExtractVideoId(url).value).None? ==>
      var id := ExtractVideoId(url).value;
      r == Summarise(st.(videoUrl := url, videoId := id), url, id, transcripts, inference)
  {
    match ExtractVideoId(url)
    case None => Step(st, None, None)
    case Some(id) =>
      var shown := st.(videoUrl := url, videoId := id);
      match CachedSummary(shown.cache, id)
      case Some(s) => Step(shown.(summary := s, videoUrl := ""), None, None)
      case None => Summarise(shown, url, id, transcripts, inference)
  }

  /** The popup's start-up (the `useEffect` callback): the active tab's URL when it is a watch page,
      otherwise the URL the background script stored, otherwise an error. */
  function OpenStep(st: PopupState, activeUrl: Option<string>,
                transcripts: map<string, string> -> Option<Reply>,
                inference: string -> Option<Reply>): (r: Step)
    ensures activeUrl.Some? && Contains(activeUrl.value, "youtube.com/watch") ==>
      r == ShowVideoStep(st, activeUrl.value, transcripts, inference)
    ensures !(activeUrl.Some? && Contains(activeUrl.value, "youtube.com/watch")) && st.currentVideoUrl != "" ==>
      r == ShowVideoStep(st, st.currentVideoUrl, transcripts, inference)
    ensures !(activeUrl.Some? && Contains(activeUrl.value, "youtube.com/watch")) && st.currentVideoUrl == "" ==>
      r == Step(st.(error := NavigateError), None, None)
  {
    if activeUrl.Some? && activeUrl.value != "" && Contains(activeUrl.value, "youtube.com/watch") then
      ShowVideoStep(st, activeUrl.value, transcripts, inference)
    else if st.currentVideoUrl != "" then
      ShowVideoStep(st, st.currentVideoUrl, transcripts, inference)
    else
      Step(st.(error := NavigateError), None, None)
  }
  /** The active tab wins: when it shows a watch page, the stored `currentVideoUrl` is not consulted.
      Whatever it holds, even another video's URL, the same requests are sent and the same state
      results, apart from that field itself. */
  lemma OpenPrefersTab(st: PopupState, tab: string, stored: string,
                       transcripts: map<string, string> -> Option<Reply>,
                       inference: string -> Option<Reply>)
    requires Contains(tab, "youtube.com/watch")
    ensures OpenStep(st, Some(tab), transcripts, inference) == ShowVideoStep(st, tab, transcripts, inference)
    ensures var a := OpenStep(st, Some(tab), transcripts, inference);
      var b := OpenStep(st.(currentVideoUrl := stored), Some(tab), transcripts, inference);
      b.query == a.query && b.prompt == a.prompt && b.state == a.state.(currentVideoUrl := stored)
  {
  }



  /** As written, the popup sends the URL as `videoUrl` while the server reads `videoId`: against
      the server in backend/backend.js, every transcript request is answered 400 without the
      transcript library being called, so the popup never reaches inference and never writes the cache. */
  lemma PopupTranscriptRequestRejected(st: PopupState, url: string, videoId: string,
                                       fetch: string -> FetchOutcome, inference: string -> Option<Reply>)
    requires url != "" && videoId != ""
    ensures Backend.TranscriptRoute(TranscriptQuery(url), fetch).reply.status == 400
    ensures Backend.TranscriptRoute(TranscriptQuery(url), fetch).calledWith == None
    ensures var r := Summarise(st, url, videoId, q => Some(Backend.TranscriptRoute(q, fetch).reply), inference);
      r.prompt == None && r.state.error == TranscriptError && r.state.cache == st.cache && !r.state.loading
  {
  }

  /** Against the server's `/infer` route, a non-empty prompt reaches the model unchanged; the popup
      shows the model's output when it is non-empty, "No response received." when it is empty, and
      treats a model failure (a 500 reply) as no response. */
  lemma PopupInferThroughServer(prompt: string, run: string -> Result<string, string>)
    requires prompt != ""
    ensures Backend.InferRoute(Some(prompt), run).calledWith == Some(prompt)
    ensures ResponseOf(Some(Backend.InferRoute(Some(prompt), run).reply)) ==
      match run(prompt)
      case Ok(o) => Some(if o == "" then NoResponseText else o)
      case Err(_) => None
  {
  }

  // ----- The component as an object whose fields the setters update ----------------------------

  class App {
    var videoUrl: string
    var videoId: string
    var summary: string
    var loading: bool
    var error: string
    /** chrome.storage.local `summaryCache` */
    var cache: map<string, string>
    /** chrome.storage.local `currentVideoUrl`, written by the background script */
    var currentVideoUrl: string

    function State(): PopupState
      reads this
    {
      PopupState(videoUrl, videoId, summary, loading, error, cache, currentVideoUrl)
    }

    /** The initial `useState` values, with whatever the extension's storage holds. */
    constructor (storedCache: map<string, string>, storedUrl: string)
      ensures State() == PopupState("", "", "", false, "", storedCache, storedUrl)
    {
      videoUrl, videoId, summary, loading, error := "", "", "", false, "";
      cache, currentVideoUrl := storedCache, storedUrl;
    }

    method CheckCache(id: string) returns (r: Option<string>)
      ensures r == CachedSummary(cache, id)
      ensures r.Some? ==> r.value != "" && id in cache && r.value == cache[id]
    {
      if id in cache && cache[id] != "" {
        r := Some(cache[id]);
      } else {
        r := None;
      }
    }

    method UpdateCache(id: string, s: string)
      modifies this`cache
      ensures cache == old(cache)[id := s]
      ensures forall k :: k != id && k in old(cache) ==> k in cache && cache[k] == old(cache)[k]
    {
      cache := cache[id := s];
    }

    method GetVideoTranscript(url: string, transcripts: map<string, string> -> Option<Reply>)
      returns (transcript: Option<string>)
      modifies this`error
      ensures transcript == TranscriptOf(transcripts(TranscriptQuery(url)))
      ensures error == if transcript.None? then TranscriptError else old(error)
    {
      var reply := transcripts(TranscriptQuery(url));
      if reply.Some? && IsSuccess(reply.value) {
        transcript := if reply.value.body.TranscriptBody? && reply.value.body.transcript != ""
                      then Some(reply.value.body.transcript) else Some(NoTranscriptText);
      } else {
        error := TranscriptError;
        transcript := None;
      }
    }

    method Infer(prompt: string, inference: string -> Option<Reply>) returns (response: Option<string>)
      modifies this`error
      ensures response == ResponseOf(inference(prompt))
      ensures error == if response.None? then InferError else old(error)
    {
      var reply := inference(prompt);
      if reply.Some? && IsSuccess(reply.value) {
        response := if reply.value.body.ResponseBody? && reply.value.body.response != ""
                    then Some(reply.value.body.response) else Some(NoResponseText);
      } else {
        error := InferError;
        response := None;
      }
    }

    method HandleExtractAndSummarize(url: string, id: string,
                                     transcripts: map<string, string> -> Option<Reply>,
                                     inference: string -> Option<Reply>)
      returns (query: Option<map<string, string>>, prompt: Option<string>)
      modifies this
      ensures Step(State(), query, prompt) == Summarise(old(State()), url, id, transcripts, inference)
    {
      query, prompt := None, None;
      if url == "" || id == "" {
        return;
      }
      loading := true;
      summary := "";
      error := "";
      query := Some(TranscriptQuery(url));
      var transcript := GetVideoTranscript(url, transcripts);
      // the transcript is never the empty string, so `!transcript` means it is null
      if transcript.None? {
        loading := false;
        return;
      }
      prompt := Some(PromptPrefix + transcript.value);
      var response := Infer(prompt.value, inference);
      if response.Some? {
        summary := response.value;
        UpdateCache(id, response.value);
        videoUrl := "";
      }
      loading := false;
    }

    /** The steps `ShowVideoStep` specifies: extract the id, then use the cache or summarise. */
    method ShowVideo(url: string,
                     transcripts: map<string, string> -> Option<Reply>,
                     inference: string -> Option<Reply>)
      returns (query: Option<map<string, string>>, prompt: Option<string>)
      modifies this
      ensures Step(State(), query, prompt) == ShowVideoStep(old(State()), url, transcripts, inference)
    {
      query, prompt := None, None;
      var currVideoId := ExtractVideoId(url);
      if currVideoId.Some? {
        videoUrl := url;
        videoId := currVideoId.value;
        var cachedSummary := CheckCache(currVideoId.value);
        if cachedSummary.Some? {
          summary := cachedSummary.value;
          videoUrl := "";
        } else {
          query, prompt := HandleExtractAndSummarize(url, currVideoId.value, transcripts, inference);
        }
      }
    }

    /** The `useEffect` start-up callback, with the active tab's URL as `activeUrl`. */
    method Open(activeUrl: Option<string>,
                transcripts: map<string, string> -> Option<Reply>,
                inference: string -> Option<Reply>)
      returns (query: Option<map<string, string>>, prompt: Option<string>)
      modifies this
      ensures Step(State(), query, prompt) == OpenStep(old(State()), activeUrl, transcripts, inference)
    {
      query, prompt := None, None;
      if activeUrl.Some? && activeUrl.value != "" && Contains(activeUrl.value, "youtube.com/watch") {
        query, prompt := ShowVideo(activeUrl.value, transcripts, inference);
      } else if currentVideoUrl != "" {
        query, prompt := ShowVideo(currentVideoUrl, transcripts, inference);
      } else {
        error := NavigateError;
      }
    }
  }
}
