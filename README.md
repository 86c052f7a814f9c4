# YouTube summariser: a Dafny model

The repository is a small YouTube summariser with three parts:
- a Chrome extension popup (`frontend/src/App.js`, with `SummaryRenderer`);
- an Express server (`backend/backend.js`);
- a stand-alone summariser page (`summarizer/src/App.js`).

A Python script (`extract_subtitles.py`) turns a WebVTT subtitle file into running text.

This project models the deterministic core of those parts and proves what each promises. The modules are:

- `Text` (text.dfy):
  - the character classes of JavaScript's `\s` (which is also what `trim` removes) and of Python's `str.isspace`;
  - ECMAScript's line terminators, the characters a regular expression's `.` does not match;
  - `Join`, which models both JavaScript's `join` and Python's `str.join`.
- `Http` (http.dfy): what crosses the HTTP boundary. That is a reply's status and JSON body, the caption entries, and the three outcomes of `YoutubeTranscript.fetchTranscript`: a list, `null`, or an exception.
- `Backend` (backend.js):
  - the `fullText` chain (map, join with `' '`, `replace(/\s+/g, ' ')`, trim);
  - the status selection of `GET /transcript` and `POST /infer`.
  - The transcript library and the language model are function parameters. Each route returns its reply together with the argument it called its collaborator with, if any.
- `Popup` (frontend/src/App.js):
  - `extractVideoId`, a leftmost regular-expression search;
  - the `summaryCache` lookup and update;
  - the two requests and their fallback values;
  - `handleExtractAndSummarize`;
  - the start-up callback with its cache hit/miss branch.
  - Each step is a specification function on a `PopupState` record. A class `App` has the component's state as fields and the Chrome storage entries as two more fields. Its methods perform the same steps with field updates, and each is proved equal to its specification function.
- `Summarizer` (summarizer/src/App.js):
  - the anchored expression `/^.*(…)\??v?=?([^#&?]*).*/`. The greedy `^.*` makes it follow the rightmost marker within reach of the first line terminator, and the `.` of `youtu.be` is unescaped;
  - the 11-character check, `getVideoTranscript`, and `infer` with its fallback strings;
  - the class `Page`, whose `handleExtractAndSummarize` updates `summary` and `loading`.
- `Subtitles` (extract_subtitles.py): `clean_subtitles` as a method with the source's `for` loop over the file's lines. Its loop invariant ties `cleaned_lines` to two functions:
  - `Offered`: which lines survive stripping, the blank/`-->` test and tag removal;
  - `Keep`: the loop's comparison with the last kept entry.
  - Lemmas relate `Keep` to a reference that drops input-adjacent repeats, to input order, and to recurring lines.
- `SummaryRenderer` (SummaryRenderer.js): the paragraph split on `"\n\n"`, the lazy global `**…**` replacement, and the `\n` → `<br />` replacement. The output is the list of paragraph HTML strings.

Gateways become parameters:
- axios requests are `Option<Reply>`, where `None` is a request that produced no reply;
- the transcript library is `string -> FetchOutcome`;
- the model runner is `string -> Result<string, string>`.

A reply outside 200–299 makes axios reject, and the model follows that.

**The popup and the server disagree on the transcript parameter.** The popup sends the URL as the query parameter `videoUrl` (frontend/src/App.js:98). The server reads `videoId` (backend/backend.js:69). The model keeps both as written. `Popup.PopupTranscriptRequestRejected` connects `Popup.Summarise` to `Backend.TranscriptRoute` and proves the consequences:
- every popup transcript request is answered 400;
- the transcript library is never called;
- the popup shows its transcript error, never sends a prompt, and never writes the cache.

**`clean_subtitles` drops the first three kept subtitle lines.** `cleaned_lines[4:]` skips the sentinel and three kept lines, so at most four kept entries give `""`. Five entries give the fourth kept line, which may itself be `""`: a line made only of a tag is kept as `""`. For the lines `a`, `b`, `c`, `<c>` the kept entries are `["", "a", "b", "c", ""]`, and the text is `""`. The model follows the code: `Subtitles.CleanSubtitles` states both cases, and `Subtitles.TagOnlyLineOffersEmpty` gives the empty line.

## Model

| member | source | states |
|---|---|---|
| Text.Join | backend/backend.js:87 | an empty list joins to `""` and a single part to itself; the length is the parts' total length plus one separator between each two parts |
| Text.JoinAppend | backend/backend.js:87 | joining two non-empty lists of parts is joining each and putting one separator between them |
| Http.Texts | backend/backend.js:86 | the texts of the captions, one per entry, in order |
| Backend.TrimStart | backend/backend.js:89 | the result is a suffix of the input that does not start with whitespace |
| Backend.TrimStartRemovesSpace | backend/backend.js:89 | every character `trimStart` removes is whitespace |
| Backend.TrimEnd | backend/backend.js:89 | the result is a prefix of the input that does not end with whitespace |
| Backend.TrimEndRemovesSpace | backend/backend.js:89 | every character `trimEnd` removes is whitespace |
| Backend.Trim | backend/backend.js:89 | `trim` leaves no whitespace at either end and keeps every non-whitespace character, in order |
| Backend.TrimEnds | backend/backend.js:89 | `trimStart` then `trimEnd` leaves no whitespace at either end |
| Backend.TrimStartRun | backend/backend.js:89 | a whitespace run in front of text that starts with a non-whitespace character is exactly what `trimStart` removes |
| Backend.CollapseRuns | backend/backend.js:88 | after `replace(/\s+/g, ' ')`: each whitespace character is a space with no whitespace after it; the non-whitespace characters are those of the input, in order; emptiness and a leading whitespace character are kept |
| Backend.CollapseRunsSpaceRun | backend/backend.js:88 | a non-empty whitespace run, up to the next non-whitespace character or the end, becomes one `' '`, and the rest is replaced on its own |
| Backend.CollapseRunsNonSpace | backend/backend.js:88 | a non-whitespace character is kept, and the rest is replaced on its own |
| Backend.TrimKeepsNonSpace | backend/backend.js:89 | `trimStart` then `trimEnd` keeps every non-whitespace character, in order |
| Backend.TrimNormalises | backend/backend.js:88-89 | trimming a single-spaced string leaves no whitespace at either end and keeps it single-spaced |
| Backend.Normalise | backend/backend.js:88-89 | `replace(/\s+/g, ' ').trim()` gives text with no whitespace at either end, no two adjacent whitespace characters and no whitespace but `' '`, holding the input's non-whitespace characters exactly, in order |
| Backend.CollapseSingleSpaced | backend/backend.js:88 | on a single-spaced string the whitespace replacement changes nothing |
| Backend.NormalisedIsFixed | backend/backend.js:88-89 | a normalised string is left unchanged |
| Backend.NormaliseIdempotent | backend/backend.js:88-89 | normalising twice gives the same text as normalising once |
| Backend.NonSpaceJoin | backend/backend.js:86-87 | joining with `' '` adds no non-whitespace character: the non-whitespace characters of the join are those of each caption, one caption after another |
| Backend.FullText | backend/backend.js:85-89 | the transcript text is normalised and holds exactly the captions' non-whitespace characters, in caption order |
| Backend.SpacedNormalised | backend/backend.js:87-89 | two non-empty normalised texts joined by one space are normalised |
| Backend.JoinNormalised | backend/backend.js:87-89 | non-empty normalised caption texts joined by spaces are normalised |
| Backend.FullTextOfNormalisedCaptions | backend/backend.js:85-89 | when every caption text is non-empty and normalised, the transcript text is exactly the texts joined by single spaces |
| Backend.TranscriptRoute | backend/backend.js:67-96 | 400 "Missing videoId parameter" exactly when `videoId` is missing or empty, without calling the library; 404 "No transcript available for this video" exactly for a `null` or empty caption list; 500 exactly when the library throws, with its message or "Failed to get transcript" when that is empty; otherwise 200 with the normalised caption text |
| Backend.InferRoute | backend/backend.js:52-64 | 400 "No prompt provided" exactly for a missing or empty prompt, with the model never run; otherwise the model runs on exactly the prompt, and its output gives 200 and its failure 500 with the error message |
| Text.FirstFrom | frontend/src/App.js:16 | the first occurrence of a character at or after a position, or the end: no occurrence before it. With `&` it is where the greedy `[^&]+` stops; with a newline it is how far Python's `.` reaches (extract_subtitles.py:37) |
| Popup.MarkerEnd | frontend/src/App.js:16 | `youtube.com/watch?v=` and `youtu.be/` never both start at one position; a marker matches exactly when one of them starts there, and the match ends right after it |
| Popup.MarkersExclusive | frontend/src/App.js:16 | the two markers cannot start at the same position |
| Popup.MatchesAtMarker | frontend/src/App.js:16 | a match starts at a position exactly when `youtube.com/watch?v=` or `youtu.be/` does and a character other than `&` follows it |
| Popup.FirstMatch | frontend/src/App.js:16 | the leftmost position where a marker is followed by a non-`&` character; no match before it, none at all when absent |
| Popup.ExtractVideoId | frontend/src/App.js:15-18 | `null` exactly when no marker is followed by a non-`&` character; otherwise a non-empty, `&`-free id that sits directly after the leftmost such marker and runs up to the next `&` or the end |
| Popup.CachedSummary | frontend/src/App.js:21-32 | a hit exactly when the entry exists and is non-empty (truthy), and then the entry itself |
| Popup.CachedAfterUpdate | frontend/src/App.js:35-44 | after writing `(v, s)` a lookup of `v` finds `s` when it is truthy, and any other lookup is as before |
| Popup.TranscriptQuery | frontend/src/App.js:97-99 | the transcript request's query holds only `videoUrl`, set to the URL, and no `videoId` |
| Popup.TranscriptOf | frontend/src/App.js:95-106 | `null` exactly when no 2xx reply came back; otherwise a non-empty `transcript` is passed through unchanged, and an empty or absent one becomes "No transcript available."; never the empty string |
| Popup.ResponseOf | frontend/src/App.js:109-118 | `null` exactly when no 2xx reply came back; otherwise a non-empty `response` is passed through unchanged, and an empty or absent one becomes "No response received."; never the empty string |
| Popup.Summarise | frontend/src/App.js:121-145 | nothing happens for an empty url or id; otherwise the transcript is requested and loading ends false; inference is asked exactly when a transcript came back, with the fixed prefix; without a transcript the transcript error shows and the cache is untouched; the summary is shown and cached under the id exactly when inference succeeds, else the inference error shows; on every path the other cache entries, the id and the stored URL are unchanged |
| Popup.ShowVideoStep | frontend/src/App.js:52-65 | no id: no change; a cache hit sets the id, shows the cached summary, clears the URL and changes nothing else, with no request; a miss runs `handleExtractAndSummarize` with the URL and id set |
| Popup.OpenStep | frontend/src/App.js:46-92 | a watch-page tab URL is used; otherwise the stored `currentVideoUrl` when truthy; otherwise the "Please navigate to a YouTube video first." error with no request |
| Popup.OpenPrefersTab | frontend/src/App.js:46-92 | a watch-page tab wins: whatever the stored `currentVideoUrl` holds, the same requests go out and the same state results, apart from that field |
| Popup.PopupTranscriptRequestRejected | frontend/src/App.js:97-99 | against the server as written, the popup's transcript request is answered 400 without a library call, and the popup ends with the transcript error, no prompt, an unchanged cache and loading false |
| Popup.PopupInferThroughServer | frontend/src/App.js:109-118 | against the server as written, a non-empty prompt runs the model on exactly that prompt; the popup gets the model's output, "No response received." for an empty output, and `null` when the model fails |
| Popup.App.constructor | frontend/src/App.js:7-12 | the initial state values, with the storage contents given |
| Popup.App.CheckCache | frontend/src/App.js:21-32 | returns `CachedSummary` of the cache field: a truthy entry or nothing |
| Popup.App.UpdateCache | frontend/src/App.js:35-44 | the cache maps the id to the summary and every other key is unchanged |
| Popup.App.GetVideoTranscript | frontend/src/App.js:95-106 | returns `TranscriptOf` the reply to the `videoUrl` query and sets the transcript error exactly when it returns `null` |
| Popup.App.Infer | frontend/src/App.js:109-118 | returns `ResponseOf` the reply to the prompt and sets the inference error exactly when it returns `null` |
| Popup.App.HandleExtractAndSummarize | frontend/src/App.js:121-145 | the new state, request and prompt are those of `Summarise` |
| Popup.App.ShowVideo | frontend/src/App.js:52-65 | the new state, request and prompt are those of `ShowVideoStep` |
| Popup.App.Open | frontend/src/App.js:46-92 | the new state, request and prompt are those of `OpenStep` |
| Summarizer.UnescapedDot | summarizer/src/App.js:12 | at any position, `youtu` + any non-line-terminator + `be/` is a marker that ends nine characters on |
| Summarizer.MarkerEnd | summarizer/src/App.js:12 | a matched alternative ends in `/`, or in `?` for `watch?`, and starts with one of `y`, `v`, `/`, `e`, `w`; `v/`, `embed/` and `watch?` always match |
| Summarizer.MarkerEndAlternatives | summarizer/src/App.js:12 | a marker matches exactly when one of the five alternatives does: `youtu` + a non-line-terminator + `be/`, `v/`, `/u/` + a word character + `/`, `embed/` or `watch?`; the group ends 9, 2, 5, 6 and 6 characters on, respectively |
| Summarizer.AlternativesExclusive | summarizer/src/App.js:12 | at most one of the five alternatives matches at a position |
| Summarizer.TerminatorFrom | summarizer/src/App.js:12 | the first line terminator at or after a position, or the end |
| Summarizer.Reach | summarizer/src/App.js:12 | how far `^.*` can reach: no line terminator before it |
| Summarizer.LastMarker | summarizer/src/App.js:12 | the rightmost marker at or before a position; none after it |
| Summarizer.IdEnd | summarizer/src/App.js:12 | the end of the maximal run free of `#`, `&`, `?` |
| Summarizer.SkipOptional | summarizer/src/App.js:12 | an optional character is consumed exactly when it is there |
| Summarizer.IdStart | summarizer/src/App.js:12 | the capture starts after `\??v?=?`, at most three characters on, and exactly three on when `?v=` follows the marker |
| Summarizer.Capture | summarizer/src/App.js:12-13 | no match exactly when no marker starts within reach of `^.*`; otherwise the capture follows the rightmost such marker, is free of `#`, `&` and `?`, and is maximal |
| Summarizer.VideoId | summarizer/src/App.js:14 | an id is accepted exactly when the capture has 11 characters, and then it is the capture |
| Summarizer.GetVideoTranscript | summarizer/src/App.js:11-26 | the library is called, with the accepted id, only for an 11-character capture, and otherwise the result is `""`; a caption list gives its texts joined by single spaces and nothing more; an exception or a `null` list gives `""` |
| Summarizer.Infer | summarizer/src/App.js:28-40 | "Error fetching response" without a 2xx reply; otherwise a non-empty `response` is passed through unchanged, and an empty or absent one becomes "No response received"; never empty |
| Summarizer.InferThroughServer | summarizer/src/App.js:28-40 | against the server as written, an empty prompt gives "Error fetching response"; otherwise the model runs on exactly the prompt, and the page gets its output, "No response received" for an empty output, and "Error fetching response" when it fails |
| Summarizer.Page.constructor | summarizer/src/App.js:6-8 | the initial state values |
| Summarizer.Page.SetVideoUrl | summarizer/src/App.js:59 | the input's value becomes the URL |
| Summarizer.Page.HandleExtractAndSummarize | summarizer/src/App.js:41-50 | an alert exactly for an empty URL, and then nothing else happens; otherwise inference is always asked with the prefix and the subtitles (even when they are `""`), the summary becomes whatever `infer` returns, and loading ends false |
| Subtitles.StripStart | extract_subtitles.py:30 | a suffix of the line that does not start with Python whitespace |
| Subtitles.StripEnd | extract_subtitles.py:30 | a prefix of the line that does not end with Python whitespace |
| Subtitles.StripStartRemovesSpace | extract_subtitles.py:30 | every character the leading strip removes is Python whitespace |
| Subtitles.StripEndRemovesSpace | extract_subtitles.py:30 | every character the trailing strip removes is Python whitespace |
| Subtitles.Strip | extract_subtitles.py:30 | the stripped line neither starts nor ends with Python whitespace |
| Subtitles.StripSpec | extract_subtitles.py:30 | the stripped line is a contiguous slice of the line, and every character outside the slice is Python whitespace |
| Subtitles.StripNoNewline | extract_subtitles.py:26-30 | a line as `readlines` gives it holds no newline once stripped |
| Subtitles.TagClose | extract_subtitles.py:37 | the lazy `.*?>`: the first `>` at or after the position, with neither a `>` nor a newline before it |
| Subtitles.TagCloseNone | extract_subtitles.py:37 | when no tag closes, no `>` comes before the next newline or the end |
| Subtitles.TagCloseAt | extract_subtitles.py:37 | a `>` with neither `>` nor newline before it is where the tag closes |
| Subtitles.StripTags | extract_subtitles.py:37 | removing tags never lengthens the line |
| Subtitles.StripTagsTag | extract_subtitles.py:37 | a tag `<x>` with `x` free of `>` and newlines is removed, and the rest is cleaned on its own |
| Subtitles.StripTagsKeepsChar | extract_subtitles.py:37 | a character other than `<` is kept, and the rest is cleaned on its own |
| Subtitles.StripTagsUnclosed | extract_subtitles.py:37 | a `<` that no `>` closes before the next newline is kept, and the rest is cleaned on its own |
| Subtitles.StripTagsAddsNothing | extract_subtitles.py:37 | removing tags introduces no character the line did not have |
| Subtitles.StripTagsLeavesNoTag | extract_subtitles.py:37 | in a line without newlines, no `<` left after tag removal is followed anywhere later by `>` |
| Subtitles.StripTagsWithoutTags | extract_subtitles.py:37 | a line without `<` is left alone |
| Subtitles.CleanLine | extract_subtitles.py:30-37 | an offered line is no longer than the stripped line, which is no longer than the line |
| Subtitles.CleanLineTagFree | extract_subtitles.py:26-37 | a line as `readlines` gives it is offered free of tags |
| Subtitles.Offered | extract_subtitles.py:29-37 | no more lines are offered than the file has |
| Subtitles.Keep | extract_subtitles.py:28-41 | `cleaned_lines` starts with the sentinel and never holds two equal adjacent entries |
| Subtitles.OfferedNext | extract_subtitles.py:29-37 | a skipped line adds nothing to the offered lines, any other adds its cleaned text |
| Subtitles.KeepNext | extract_subtitles.py:40-41 | an offered line is appended exactly when it differs from the last kept entry |
| Subtitles.FromFifth | extract_subtitles.py:44 | `cleaned_lines[4:]`: empty for at most four entries, otherwise the entries from index 4 on, in order |
| Subtitles.CleanSubtitles | extract_subtitles.py:22-46 | the text is the kept entries from index 4 on, joined with single spaces; `""` when at most four entries are kept, the fourth kept line (possibly `""`) when five are |
| Subtitles.ShortTextOf | extract_subtitles.py:44 | joining the entries from index 4 on gives `""` for at most four entries and the last entry for five |
| Subtitles.DropRepeatsLast | extract_subtitles.py:40-41 | dropping repeats always keeps the last entry |
| Subtitles.DropRepeatsSnoc | extract_subtitles.py:40-41 | a new last entry is dropped exactly when it equals the previous input entry |
| Subtitles.KeepDropsRepeats | extract_subtitles.py:40-41 | comparing with the last kept entry drops exactly the entries equal to the entry before them in the input |
| Subtitles.SubsequenceDropLast | extract_subtitles.py:40-41 | a subsequence less its last entry is still a subsequence |
| Subtitles.SubsequenceExtend | extract_subtitles.py:40-41 | a subsequence stays one when the sequence grows |
| Subtitles.DropRepeatsIsSubsequence | extract_subtitles.py:40-41 | dropping repeats keeps the remaining entries in input order |
| Subtitles.KeptInInputOrder | extract_subtitles.py:28-41 | the kept entries appear in the same order in the sentinel followed by the offered lines |
| Subtitles.SkippedLineAddsNothing | extract_subtitles.py:30-34 | a line blank after stripping, or containing `-->` before tag removal, is not offered |
| Subtitles.OfferedLineKept | extract_subtitles.py:37-41 | any other line is offered cleaned and appended unless it equals the last kept entry |
| Subtitles.TagOnlyLineOffersEmpty | extract_subtitles.py:30-37 | any line `<x>` with `x` free of `>` and newlines, and without `-->`, is offered as `""` |
| Subtitles.KeepFrom | extract_subtitles.py:28-41 | every kept entry is the sentinel or an offered line |
| Subtitles.OfferedTagFree | extract_subtitles.py:26-37 | for a file read with `readlines`, every offered line is free of tags |
| Subtitles.KeptLinesTagFree | extract_subtitles.py:26-41 | for a file read with `readlines`, every entry of `cleaned_lines` is free of tags |
| Subtitles.KeepRecurring | extract_subtitles.py:40-41 | an entry that comes back after a different one is kept again |
| Subtitles.RecurringLineKeptAgain | extract_subtitles.py:40-41 | a subtitle line recurring after a different line is kept again |
| Subtitles.OfferedThree | extract_subtitles.py:29-37 | three lines offer their three cleaned texts |
| SummaryRenderer.Find | frontend/src/components/SummaryRenderer.js:4 | the leftmost occurrence at or after a position; none before it |
| SummaryRenderer.Split | frontend/src/components/SummaryRenderer.js:4 | the split has at least one piece |
| SummaryRenderer.SplitJoin | frontend/src/components/SummaryRenderer.js:4 | joining the paragraphs with `"\n\n"` gives back the summary |
| SummaryRenderer.SplitCount | frontend/src/components/SummaryRenderer.js:4 | there is one paragraph more than there are separators, counted left to right without overlap |
| SummaryRenderer.OccurrencesSkip | frontend/src/components/SummaryRenderer.js:4 | a prefix without the separator contributes nothing to the count |
| SummaryRenderer.SplitPiecesLeftmost | frontend/src/components/SummaryRenderer.js:4 | no paragraph contains `"\n\n"`, and each but the last is cut at the leftmost separator |
| SummaryRenderer.FirstPiece | frontend/src/components/SummaryRenderer.js:4 | the text before the leftmost separator, even with one more newline, holds no separator |
| SummaryRenderer.PrefixNoOccurrence | frontend/src/components/SummaryRenderer.js:4 | a prefix ending before every occurrence holds none |
| SummaryRenderer.BoldClose | frontend/src/components/SummaryRenderer.js:5 | the first `**` at or after a position, with no line terminator before it |
| SummaryRenderer.Bold | frontend/src/components/SummaryRenderer.js:5 | the `**…**` replacement neither adds nor removes a newline |
| SummaryRenderer.BoldCloseAt | frontend/src/components/SummaryRenderer.js:5 | the lazy group closes at the first `**` when no line terminator comes first |
| SummaryRenderer.BoldReplacesLeftmostShortest | frontend/src/components/SummaryRenderer.js:5 | a leading, shortest `**x**` with `x` free of line terminators becomes `<strong>x</strong>`, and the replacement resumes after it |
| SummaryRenderer.BoldKeepsChar | frontend/src/components/SummaryRenderer.js:5 | a character where no `**` starts is kept, and the replacement resumes after it |
| SummaryRenderer.BoldCloseNone | frontend/src/components/SummaryRenderer.js:5 | no closing `**` is found when a line terminator or the end comes before any `**` |
| SummaryRenderer.BoldUnclosed | frontend/src/components/SummaryRenderer.js:5 | a `**` with no closing `**` before the next line terminator or the end is not replaced: its first `*` is kept and the search resumes after it |
| SummaryRenderer.BoldStopsAtLineBreak | frontend/src/components/SummaryRenderer.js:5 | `**x` followed by a line terminator, with no `**` before it, is not replaced even when a `**` comes later |
| SummaryRenderer.BoldWithoutMarker | frontend/src/components/SummaryRenderer.js:5 | a paragraph without `**` is left alone |
| SummaryRenderer.StrongTagNewlines | frontend/src/components/SummaryRenderer.js:5 | `<strong>x</strong>` adds no newline to a newline-free `x` |
| SummaryRenderer.MarkedSpanNewlines | frontend/src/components/SummaryRenderer.js:5 | a replaced `**x**` holds no line terminator, so the newlines are those after it |
| SummaryRenderer.NewlinesAppend | frontend/src/components/SummaryRenderer.js:6 | newline counts add up over concatenation |
| SummaryRenderer.LineBreaks | frontend/src/components/SummaryRenderer.js:6 | no newline is left, and the text grows by five characters per newline |
| SummaryRenderer.LineBreaksAppend | frontend/src/components/SummaryRenderer.js:6 | the replacement distributes over concatenation, on every input |
| SummaryRenderer.LineBreaksCons | frontend/src/components/SummaryRenderer.js:6 | a leading newline becomes `<br />`, any other leading character stays, and the rest is replaced on its own |
| SummaryRenderer.LineBreaksChar | frontend/src/components/SummaryRenderer.js:6 | a newline becomes the six characters of `<br />`; any other character is kept |
| SummaryRenderer.LineBreaksRoundTrip | frontend/src/components/SummaryRenderer.js:6 | on text without `<`, turning each `<br />` back into a newline restores the text |
| SummaryRenderer.NoNewlineUnchanged | frontend/src/components/SummaryRenderer.js:6 | text without newlines is left alone |
| SummaryRenderer.Format | frontend/src/components/SummaryRenderer.js:5-6 | a formatted paragraph holds no newline, is longer than its bold form by five characters per newline, and is unchanged when it has neither `**` nor a newline |
| SummaryRenderer.FormatKeepsChar | frontend/src/components/SummaryRenderer.js:5-6 | a character where no `**` starts is kept, or becomes `<br />` when it is a newline, and the rest is formatted on its own |
| SummaryRenderer.FormatLeadingBold | frontend/src/components/SummaryRenderer.js:5-6 | a leading, shortest `**x**` becomes `<strong>x</strong>`, untouched by the line-break pass, and the rest is formatted on its own |
| SummaryRenderer.PlainParagraphUnchanged | frontend/src/components/SummaryRenderer.js:5-6 | a paragraph with neither `**` nor a newline is unchanged by both replacements |
| SummaryRenderer.Render | frontend/src/components/SummaryRenderer.js:1-8 | only the placeholder exactly for an empty summary; otherwise one formatted paragraph per piece of the split, in order, none holding a newline |

## Left out

- Chrome extension APIs (`chrome.tabs.query`, `chrome.storage.local`, the background and content scripts) are not modelled as calls. The active tab's URL is a parameter, and the two storage entries are fields of the popup state.
- The read-then-write race in `updateCache`: the model writes the cache atomically, because the race is a matter of concurrency.
- The order of asynchronous steps. The cache check is awaited, but `handleExtractAndSummarize` is not awaited by the start-up callback, and React batches its state updates. The model runs each step to completion.
- Unused and presentation-only code: the popup's unused `cachedResults` state, `useMemo`, JSX, CSS, `console` output and the alert's text (the model keeps only whether the alert happens).
- HTTP plumbing: axios, Express, CORS, JSON parsing and `app.listen`. Query and body values are strings or absent; a repeated query parameter or a non-string prompt is not modelled.
- `runOllama`, `summarizer/model.js` and `model.py` stand for the external ollama process; the model runner is a parameter returning its output or an error message.
- The Flask apps in `summarize.py` and `summeriz.py`, and `Summerize.py` with its GPU model, are not part of this model.
- What `YoutubeTranscript.fetchTranscript` itself does, including its `{ lang: "en" }` option; its outcome is a parameter.
- The rest of `extract_subtitles.py`: the subtitle download through `yt_dlp`, reading the file (its lines are the input, already split as `readlines` splits them), `os.remove` and `pyperclip`.
- Popup.CachedSummary: `cache[videoId]` on a plain JavaScript object also finds inherited properties, so an id such as `constructor` or `toString` is a truthy hit even in an empty cache (frontend/src/App.js:25). The model's cache is a map of the stored entries only.
- How the browser interprets the HTML handed to `dangerouslySetInnerHTML`, and the paragraph elements' `key`s.
- JavaScript strings are sequences of UTF-16 code units while Dafny strings are sequences of Unicode scalar values. The model therefore counts characters, not code units, most visibly in the 11-character id check: an id with a character outside the Basic Multilingual Plane has a different length in the two.
