/** The values that cross the HTTP boundary between the two front ends and the Express server, and
    what the transcript library returns. */
module Http {

  /** One caption entry as the transcript library returns it; only its text is used. */
  datatype Caption = Caption(text: string)

  /** What `YoutubeTranscript.fetchTranscript` gives: a list of captions, `null`, or an exception. */
  datatype FetchOutcome = Captions(items: seq<Caption>) | NoCaptions | Threw(message: string)

  /** The JSON body of a reply: `{transcript}`, `{response}` or `{error}`. */
  datatype Body = TranscriptBody(transcript: string) | ResponseBody(response: string) | ErrorBody(error: string)

  /** An HTTP reply: its status code and its JSON body. */
  datatype Reply = Reply(status: int, body: Body)

  /** axios resolves a request only for a status in 200..299 and rejects (throws) otherwise. */
  predicate IsSuccess(r: Reply)
  {
    200 <= r.status < 300
  }

  /** `items.map(item => item.text)`. */
  function Texts(items: seq<Caption>): (r: seq<string>)
    ensures |r| == |items|
    ensures forall i :: 0 <= i < |items| ==> r[i] == items[i].text
  {
    seq(|items|, i requires 0 <= i < |items| => items[i].text)
  }
}
