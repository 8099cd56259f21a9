# say — a Dafny model of the text-to-speech pipeline

`say` reads Substack articles aloud. A serverless function scrapes an article
into a title, a subtitle and a body. A second function splits the text into
chunks of at most 1900 UTF-16 code units (JavaScript's string
length), unless a chunk is a single word without white space that is longer
than that on its own, and relays each chunk's streamed audio from
the speech backend to the browser as newline-delimited JSON, with a
`chunkComplete` marker after each chunk. The browser cuts that stream into
lines and decodes the base64 audio of each line. It detects the audio format
from the first segment and plays the segments once five of them are ready.
When the stream ends it builds one downloadable file.

This project models that core as pure functions over sequences and proves
properties of it:

| file | module | what it models |
|---|---|---|
| `seqs.dfy` | `Seqs` | flattening a sequence of sequences |
| `text.dfy` | `Text` | JavaScript's white-space class, string length in UTF-16 code units, `trim()`, `split(/\s+/)`, `join`, decimal digits |
| `wrappers.dfy` | `Wrappers` | `Option` |
| `chunker.dfy` | `Chunker` | `chunkText`, `chunkLongParagraph`, `chunkByWords` (`api/tts.js`) |
| `relay.dfy` | `Relay` | the handler of `api/tts.js` as a state machine over scripted backend replies and a client that may go away |
| `audio.dfy` | `Audio` | `detectAudioFormat`, `createWavBlob`/`writeString`, `stripWavHeader`, the int16 decode of `pcmToAudioBuffer` (`src/App.jsx`) |
| `playback.dfy` | `Playback` | the `BUFFER_BEFORE_PLAY` window (`scheduleAudioBuffer`, `startPlayback` and the end-of-stream checks) |
| `client.dfy` | `Client` | line framing and `processLine` in `startTTS`, detect-once, the final asset, the download name, `formatTime`, the text posted |
| `scrape.dfy` | `Scrape` | the handler of `api/scrape.js`: gates, de-duplication, fallback, cleanup, word count |

Throughout, `Ink(s)` is the sequence of non-white-space characters of `s`.
"Holds the same ink" means "the same text up to white space".
`Without(s, cs)` is `s` with every character of the set `cs` removed. It is finer than `Ink`: equality under `Without(·, {'\n'})` says that only line feeds were added or removed.

Loops are modelled as folds. The awaits of the relay are counted. The client's
`close` event is given as the number of the await during which it is
delivered, so every interleaving of a disconnect with the relay loop is
covered. Everything the code cannot see is a parameter:
- the backend's replies (`script`);
- `JSON.parse` combined with `atob` (`parse`);
- the read at which the user presses cancel (`cancelAt`);
- the page texts the selectors produce (`Page`);
- the host name `new URL` yields.

Two observations that are not findings:
- `Relay.ExpectedRenderedBroken`, `Relay.ErrorGluedToPartialAudio`: when a
  read fails after part of a chunk's audio and that audio does not end with a
  line feed, the error record is written on the same line as the audio. The
  client then discards the whole line as invalid JSON, so the error is lost
  with it. Audio that ends with a line feed, or no audio at all, leaves the
  record on a line of its own. The client only logs such records anyway.
- `Scrape.GateAcceptsLookalike`: the host gate is a substring test, so
  `substack.com.example.net` passes it.

## Model

| member | source | states |
|---|---|---|
| Chunker.ChunkText | api/tts.js:13-47 | every chunk sent to the backend is non-empty, trimmed and at most 1900 UTF-16 code units long, as JavaScript's `length` counts, unless it is a single word without white space |
| Chunker.ChunkTextInk | api/tts.js:13-47 | the chunks, one after the other, hold exactly the ink of the text: nothing is lost, added or reordered |
| Chunker.ChunkTextJoin | api/tts.js:13-47 | when no trimmed paragraph is longer than 1900 UTF-16 code units, the chunks joined by a blank line are the trimmed non-empty paragraphs joined by a blank line: the chunker only regroups paragraphs |
| Chunker.SplitParagraphsInk | api/tts.js:15 | `split(/\n\n+/)` removes only line feeds: the paragraphs, one after the other, keep the text's ink, and with every line feed removed they are the same string as the text |
| Chunker.PackOk | api/tts.js:18-44 | the greedy packing loop keeps every pushed chunk within 1900 UTF-16 code units unless it is a single word without white space, and the current chunk within the limit |
| Chunker.PackInk | api/tts.js:18-44 | the packing loop passes on the ink of its items in order, provided an over-long item's sub-chunks hold that item's ink |
| Chunker.ChunkLongParagraph | api/tts.js:52-85 | every chunk of an over-long paragraph (with the corrected sentence splitter) is non-empty, trimmed and within 1900 UTF-16 code units unless it is a single word without white space |
| Chunker.ChunkLongParagraphAsWritten | api/tts.js:52-85 | the same bound holds of the function as written: within 1900 UTF-16 code units unless a chunk is a single word without white space |
| Chunker.ChunkLongParagraphInk | api/tts.js:52-85 | with the corrected splitter, the chunks of a long paragraph hold exactly its ink |
| Chunker.SentencesInk | api/tts.js:55 | the corrected sentence splitter partitions the paragraph: its pieces hold all of its ink |
| Chunker.ChunkLongParagraphJoin | api/tts.js:56-84 | when no trimmed sentence is over 1900 UTF-16 code units, the chunks joined by a space are the trimmed non-empty sentences joined by a space |
| Chunker.UnterminatedParagraphByWords | api/tts.js:55-71 | an over-long paragraph with no `.`, `!` or `?` goes to `chunkByWords` whole, both as written and corrected |
| Chunker.AsWrittenDropsUnterminatedTail | api/tts.js:55 | as written, "A. " followed by 1900 letters is sent as the single chunk "A.", which loses ink |
| Chunker.ChunkByWords | api/tts.js:90-111 | every word chunk is non-empty, trimmed and within 1900 UTF-16 code units, a single word longer than the limit being its own chunk |
| Chunker.ChunkByWordsInk | api/tts.js:90-111 | the word chunks hold exactly the ink of the text |
| Chunker.ChunkByWordsJoin | api/tts.js:90-111 | the word chunks joined by a space are the words of the text joined by a space |
| Text.Utf16Length | api/tts.js:23 | `length` counts a character outside the Basic Multilingual Plane twice: it lies between the number of characters and twice that, equal to it exactly when every character is in the plane; it adds up over concatenation (`Text.Utf16Append`) |
| Text.Utf16Trim | api/tts.js:19-31 | trimming never makes a text longer in UTF-16 code units |
| Text.Trim | api/tts.js:19 | `trim()` gives the middle of the text without leading or trailing white space; it is empty exactly when the text is blank and leaves a trimmed text alone |
| Text.SplitSpacesShape | api/tts.js:92 | no piece of `split(/\s+/)` holds white space, no piece but the first and the last is empty, and the first (last) is empty exactly when the text starts (ends) with white space or is empty |
| Text.SplitSpacesInk | api/tts.js:92 | the pieces of `split(/\s+/)` hold exactly the ink of the text |
| Text.WordsCountRuns | api/scrape.js:116 | `split(/\s+/).filter(Boolean).length` is the number of maximal runs of non-white-space characters |
| Relay.Handle | api/tts.js:113-127 | a request is refused exactly when it is not a POST or has no text or no API key, with 405 for the method and 400 otherwise |
| Relay.HandleStreams | api/tts.js:129-233 | the chunks go to the backend in order and only while the client is there; the loop stops early only for a client gone by its last await; the records that end chunks carry 1, 2, … in order, the last possibly missing, and then only for a client gone by the last await; every marker starts a line; what is written is a prefix of what a client that stays receives (`Relay.Run`), and all of it for a client still there after the last await |
| Relay.HandleWithoutClose | api/tts.js:129-233 | with a client that stays, every chunk is sent, each is answered by exactly one record numbered in order, the backend is asked to speak all of the text's ink, and the client receives exactly each chunk's expected writes in chunk order: its body, a line break unless the body ended one and the marker; or the body so far and an error record; or the failed-status or error record |
| Relay.LoopWrites | api/tts.js:148-233 | the loop from chunk `i` writes a prefix of the expected writes of chunks `i`, `i+1`, …, and all of them unless the client has gone |
| Relay.ChunkStepWrites | api/tts.js:155-232 | one iteration writes a prefix of its chunk's expected writes, all of them whenever the loop goes on, and breaks only for a client that is gone: a fetch that throws gives the error record, a non-2xx reply the failed-status record (even to a client that is gone), a body its pieces then the line break if needed and the marker, or the error record of the read that throws |
| Relay.BodyWrites | api/tts.js:184-222 | a streamed body writes the pieces read while the client is there, which are the first pieces of the body, then, if the client is still there, the marker or the error record |
| Relay.KeptPrefix | api/tts.js:189-205 | the pieces forwarded are the first pieces of the body: once the client is gone no later piece is written |
| Relay.ExpectedRendered | api/tts.js:213-218 | on the wire, a finished chunk is the body as sent, a line feed if the body did not end with one, and the `chunkComplete` marker, which therefore starts a line |
| Relay.LoopFacts | api/tts.js:148-233 | the invariant of the `for` loop from chunk `i` on: chunks `i`, `i+1`, … are sent in order while the client is there, the end-of-chunk records are numbered `i+1`, `i+2`, …, and the writes are a prefix of the expected writes of chunks `i`, `i+1`, … (`Relay.Run`), all of them unless the client has gone |
| Relay.ChunkStepFacts | api/tts.js:155-232 | one iteration sends its chunk and ends it with one record unless the client is gone, every marker starts a line, and it writes a prefix of the chunk's expected writes (`Relay.Expected`), all of them whenever the loop goes on |
| Relay.PumpForwardsKept | api/tts.js:189-205 | the inner read loop forwards exactly the pieces whose read completes while the client is still there, in order |
| Relay.KeptAll | api/tts.js:189-205 | a client still there after the last read received every piece |
| Relay.LastCharOfBody | api/tts.js:187-205 | `lastChar` is the last character of everything the backend sent for the chunk |
| Relay.AfterBodyWrites | api/tts.js:207-222 | after the body, for a client still there, the loop goes on; a line break is written exactly when the body did not end with one, then the marker; or the error record of a read that throws |
| Relay.MarkerAfterLine | api/tts.js:213-218 | a record written at a line start keeps every marker at a line start and leaves the output at a line end |
| Relay.RecordIsOneLine | api/tts.js:180-227 | a marker or error record is exactly one line: its only line feed ends it |
| Relay.UnescapeEscape | api/tts.js:227 | the string `JSON.stringify` writes into an error record reads back as the original message |
| Relay.ExpectedRenderedBroken | api/tts.js:184-227 | on the wire, a chunk whose read throws is its audio so far followed directly by the error record, which therefore shares that audio's last line unless the audio is empty or ends with a line feed |
| Relay.ErrorGluedToPartialAudio | api/tts.js:223-227 | for the audio "abc" (no line feed), the error record is written right after it, on the same line |
| Audio.DetectAudioFormat | src/App.jsx:114-131 | fewer than four bytes are PCM; otherwise the result is WAV exactly when the bytes start with "RIFF", and encoded audio exactly when they do not and start with an MP3 frame sync, the ID3 tag "ID3" or the Ogg tag "OggS"; everything else is PCM |
| Audio.DetectByPrefix | src/App.jsx:114-131 | the format depends only on the first four bytes |
| Audio.DetectMp3Frame | src/App.jsx:120-121 | an MP3 frame sync (0xFF and then a byte whose top three bits are set) is detected as encoded audio |
| Audio.HighBitsSetIsAtLeastE0 | src/App.jsx:121 | `(b & 0xE0) === 0xE0` holds exactly when the byte is at least 0xE0 |
| Audio.LE16RoundTrip | src/App.jsx:85 | a 16-bit little-endian field reads back as the value modulo 2^16 |
| Audio.LE32RoundTrip | src/App.jsx:79 | a 32-bit little-endian field reads back as the value modulo 2^32 |
| Audio.HeaderFields | src/App.jsx:74-96 | the header holds the four tags at 0, 8, 12 and 36, PCM format 1, one channel, 48000 Hz, 96000 bytes a second, block align 2, 16 bits, and the two size fields modulo 2^32 |
| Audio.NoEarlierMarker | src/App.jsx:74-96 | in the header the first "data" marker is at 36, unless the RIFF size field itself spells "data" |
| Audio.ParseCreatedWav | src/App.jsx:61-105 | a WAV reader sees PCM, mono, 48 kHz, 96000 bytes per second, block align 2, 16 bits, with the RIFF and data sizes of the chunks |
| Audio.DetectCreatedWav | src/App.jsx:78 | every blob `createWavBlob` builds is detected as WAV |
| Audio.StripWavHeader | src/App.jsx:134-144 | (corrected bound) the result is a suffix that follows the first "data" marker and its size field, or the whole input when no marker is found |
| Audio.StripCreatedWav | src/App.jsx:134-144 | stripping the header of a blob `createWavBlob` built gives back its PCM |
| Audio.StripCreatedWavAsWritten | src/App.jsx:134-144 | with the bound as written, stripping the header of a blob with at least one byte of PCM still gives back its PCM |
| Audio.CreatedWavDescribed | src/App.jsx:61-105 | a built blob is at least 44 bytes, detected as WAV, and a reader takes its header as 48 kHz mono 16-bit PCM whose size fields count the bytes after offset 8 and after the header |
| Audio.AsWrittenKeepsEmptySegmentHeader | src/App.jsx:136 | as written, a WAV segment with no data keeps its 44-byte header; the corrected bound strips it |
| Audio.DecodePcm | src/App.jsx:347-362 | (corrected count) PCM decodes when it has at least one whole sample, into `length / 2` samples in [-32768, 32767] |
| Audio.DecodeEncodePcm | src/App.jsx:356-359 | decoding LINEAR16 bytes of a sample list gives the samples back |
| Audio.EncodeDecodePcm | src/App.jsx:356-359 | encoding the samples decoded from an even-length buffer gives the bytes back |
| Audio.AsWrittenRejectsOddLength | src/App.jsx:350-357 | as written, three PCM bytes fail to decode; the corrected count yields one sample |
| Audio.DecodeAgreesOnEvenLength | src/App.jsx:350-357 | on an even length the corrected decode is the one written |
| Playback.StartPlayback | src/App.jsx:322-344 | starting leaves playback started, keeps every segment in the same order (held ones now after those already scheduled), holds nothing afterwards unless it had already started, and keeps the window invariant (`Playback.Window`) |
| Playback.StartPlaybackTwice | src/App.jsx:324 | starting a second time changes nothing |
| Playback.RunKeepsOrder | src/App.jsx:384-394 | in both versions, held and scheduled segments are all decoded segments in decoding order, none of them twice, with fewer than five held before the start (for a running audio context; see Left out) |
| Playback.StartsWhenReady | src/App.jsx:384-394 | (corrected) playback has started exactly when five segments have been decoded, or when the stream has ended and at least one segment has been decoded |
| Playback.EndedMeansAllScheduled | src/App.jsx:550-553 | (corrected) once the stream has ended, every decoded segment is scheduled, in order |
| Playback.SameBeforeEnd | src/App.jsx:384-394 | until the stream ends the corrected window behaves exactly as written |
| Playback.AsWrittenLateSegmentNeverPlays | src/App.jsx:384-390 | as written, a single segment whose decoding finishes after the stream has ended is held and never scheduled |
| Client.TakeLines | src/App.jsx:537-542 | the leftover after the inner loop holds no line feed |
| Client.TakeLinesUnlines | src/App.jsx:537-542 | the lines taken, each with its line feed, followed by the leftover, are the buffer again |
| Client.TakeLinesNoBreak | src/App.jsx:537-542 | no line taken contains a line feed |
| Client.FeedIsTakeLines | src/App.jsx:530-543 | however the stream is cut into reads, the lines found are the lines of the whole stream, and the leftover is the same |
| Client.MarkerReachesClient | src/App.jsx:537-542 | every `chunkComplete` marker the relay writes reaches the client as a line of its own |
| Client.ProcessLinesFacts | src/App.jsx:487-528 | processing lines appends the audio of each line in order, keeps the format decided by the first segment, and aborts only when a cancel was requested |
| Client.ReadsDoNotMatter | src/App.jsx:530-548 | without a cancel, the session is the one obtained by processing every line of the whole stream and then the leftover |
| Client.CancelOnlyCutsShort | src/App.jsx:493-502 | with a cancel, the audio kept is a prefix of the audio kept without one |
| Client.GenerateFacts | src/App.jsx:476-548 | after a whole generation the format is that of the first segment; only a cancel aborts; a failed reply keeps no audio; an uncancelled session keeps the audio of every line in order |
| Client.FinalAsset | src/App.jsx:568-580 | (corrected strip) a final asset is built exactly when some audio was received |
| Client.FinalAssetAsWritten | src/App.jsx:568-580 | as written, a final asset is built exactly when some audio was received, and it differs from the corrected one only for WAV segments |
| Client.FinalAssetHeader | src/App.jsx:568-576 | a WAV file built at the end is detected as WAV and its header describes the file itself |
| Client.AsWrittenAssetKeepsHeader | src/App.jsx:570-573 | as written, one WAV segment with no samples gives an 88-byte file whose audio is that segment's header; corrected, the 44-byte file of no samples |
| Client.ExtensionMatchesAsset | src/App.jsx:700 | the download is named `.mp3` exactly when the asset is `audio/mpeg` |
| Client.WavSegmentsRejoined | src/App.jsx:570-573 | (corrected strip) complete WAV segments are detected as WAV and rejoined into the single WAV file of all their PCM |
| Client.WavSegmentsRejoinedAsWritten | src/App.jsx:570-573 | as written too, WAV segments that each hold at least one byte of PCM are rejoined into the single WAV file of all their PCM |
| Client.PcmWrapped | src/App.jsx:574-576 | raw PCM is wrapped in a header a reader takes as 48 kHz mono 16-bit with the total size, followed by the segments in order |
| Client.Sanitize | src/App.jsx:704 | the file name uses only ASCII letters, digits and `_`, one character per UTF-16 code unit of the title |
| Client.SanitizeSafe | src/App.jsx:704 | a name made only of ASCII letters, digits and `_` is kept as it is |
| Client.SanitizeIdempotent | src/App.jsx:704 | sanitising twice is sanitising once |
| Client.SanitizeKeepsAlnum | src/App.jsx:704 | for a title inside the Basic Multilingual Plane, the name has the title's length, every ASCII letter and digit stays in place and every other character becomes `_` |
| Client.DownloadNameParts | src/App.jsx:700-704 | the file name is the sanitised title (one character per UTF-16 code unit), one dot and the extension, which is `mp3` exactly for encoded audio; the title part holds no dot, so the extension is the last one |
| Client.FormatWholeSeconds | src/App.jsx:53-58 | for a non-negative time, the text is the whole minutes, a colon and two digits of the remaining whole seconds |
| Client.FormatTimeRoundTrip | src/App.jsx:53-58 | reading the minutes and seconds of the text back gives the whole number of seconds |
| Client.RequestText | src/App.jsx:421-424 | a request is made exactly when there is an article and an API key |
| Client.FullTextInk | src/App.jsx:462-464 | the text posted holds the ink of the title, the subtitle and the body, in that order |
| Scrape.Handle | api/scrape.js:6-130 | non-POST gives 405, a missing URL 400, a host without `substack.com` 400; a scraped article passed every gate and has a trimmed title, a clean non-empty-if-untitled body and the word count of that body |
| Scrape.Extract | api/scrape.js:44-124 | a loaded page yields an article whose body is trimmed, singly spaced and free of triple line feeds, or the 400 refusal for missing content |
| Scrape.RefusedWhenEmpty | api/scrape.js:112-114 | past the gates, a page is refused exactly when every title candidate, every paragraph element and the whole container are blank |
| Scrape.FirstFilled | api/scrape.js:44-48 | the title is empty exactly when every candidate is empty |
| Scrape.FirstFilledIsFirst | api/scrape.js:44-48 | a non-empty title is the first non-empty candidate |
| Scrape.GatherIsFirsts | api/scrape.js:90-99 | the loop's body is the first occurrence of each non-empty trimmed text, in document order, each followed by a blank line, and its set holds every such text |
| Scrape.FirstsFacts | api/scrape.js:93-99 | the texts collected are exactly the distinct non-empty element texts, each once |
| Scrape.CollectedBlank | api/scrape.js:101-104 | the fallback is taken exactly when no element has text |
| Scrape.BodyTextSource | api/scrape.js:90-110 | the body holds the ink of the distinct paragraph texts in order, or of the whole container when no element has text |
| Scrape.BodyTextEmpty | api/scrape.js:90-110 | the body is empty exactly when no element has text and the container is blank |
| Scrape.CollapseNewlinesNoTriple | api/scrape.js:108 | after the first replacement no three line feeds are left in a row |
| Scrape.CollapseNewlinesFixed | api/scrape.js:108 | the first replacement leaves text without three line feeds in a row unchanged |
| Scrape.InkCollapseNewlines | api/scrape.js:108 | the first replacement removes only line feeds: the result keeps the text's ink, and with every line feed removed it is the same string as the text |
| Scrape.CollapseBlanksSingle | api/scrape.js:109 | after the second replacement there is no tab and no double space |
| Scrape.CollapseBlanksKeepsNoTriple | api/scrape.js:109 | the second replacement does not bring three line feeds together |
| Scrape.CollapseBlanksFixed | api/scrape.js:109 | the second replacement leaves singly spaced text unchanged |
| Scrape.InkCollapseBlanks | api/scrape.js:109 | the second replacement changes only spaces and tabs: the result keeps the text's ink, and with every space and tab removed it is the same string as the text |
| Scrape.CleanFacts | api/scrape.js:107-110 | the cleaned body is trimmed, has no tab, double space or triple line feed, holds the ink of the text, and is empty exactly when the text is blank |
| Scrape.CleanIdempotent | api/scrape.js:107-110 | cleaning a cleaned body changes nothing |
| Scrape.WordCount | api/scrape.js:116 | the word count is the number of maximal runs of non-white-space characters |
| Scrape.GateAcceptsLookalike | api/scrape.js:20 | a host that merely contains `substack.com` passes the gate |

## Left out

- Network and I/O are left out: the backend request and its headers, `voice_id` and `audioEncoding` (passed through unchanged), `console` logging, response headers and `res.end()`. Backend replies are a script, and each body is given as already-decoded text pieces. `TextDecoder`'s handling of UTF-8 split across reads is not modelled.
- `res.write` throwing (api/tts.js:195-200, 219-222, 228-231) is not modelled: in the model writes always succeed. `res.writableEnded` is taken to be false during the loop, since `res.end()` comes after it.
- A failure of `await response.text()` on a non-2xx reply, and the handler's outer `catch` (api/tts.js:242-248, reached for instance by a missing request body), are not modelled.
- `JSON.parse` and `atob` are a parameter `parse`, as is the moment the user asks to cancel. React state updates, the progress display and error messages shown to the user are left out.
- Web Audio is left out: the timing of `playBuffer`, the crossfade, `updatePlaybackTime`, pause/seek/replay and the switch to native audio. In `Playback`, decoded segments are opaque values. The outcome of `decodeAudioData` for WAV and encoded audio is an input: only the decoded segments appear as events.
- The int16 decode returns integer samples. The division by 32768 into floats is left out.
- `formatTime` is modelled on reals, not IEEE doubles. Its lemmas are stated for non-negative times, which is what the player displays.
- Scraping uses cheerio. The DOM work is left out: choosing the container, removing widgets, replacing images and figures with the `imageReplacement` text, unwrapping links, and the selectors themselves. The handler receives the texts they produce.
- The URL is not parsed: the host name is an input, and `None` stands for a URL that `new URL` rejects, answered with 500 "Invalid URL" as the `catch` does.
- Playback.StartPlayback: modelled as one atomic step. On a suspended audio context the program awaits `ctx.resume()` (src/App.jsx:327-329) between its guard and setting `playbackStartedRef`. That await is not modelled. While it is pending, decoded segments keep being held, so five or more can be held, and a second call passes the guard. `Playback.Window`, `Playback.RunKeepsOrder` and `Playback.StartPlaybackTwice` therefore hold for a running context only.
- Audio.StripCreatedWav: holds only when the RIFF size field does not itself spell "data" (a total PCM payload, over all the segments, of 1635017024 bytes modulo 2^32). The function searches for the first marker anywhere, the size field included.
- Client.FinalAsset: builds WAV output with the corrected `stripWavHeader` bound; the program as written is `Client.FinalAssetAsWritten`, which differs only when a WAV segment has an empty data chunk (see Findings).
- Client.WavSegmentsRejoined: stated for the corrected strip, for any segments; as written it holds when every segment has at least one byte of PCM (`Client.WavSegmentsRejoinedAsWritten`).
- `Chunker.ChunkText` and everything built on it use the corrected sentence splitter (see Findings). The as-written splitter is kept as `Chunker.ChunkLongParagraphAsWritten` for the counterexample.

## Findings

| source | as written | input that shows it | evidently intended | confidence | as-written member | corrected member |
|---|---|---|---|---|---|---|
| api/tts.js:55 | `paragraph.match(/[^.!?]+[.!?]+[\s]*/g)` only matches text that ends with a terminator. In an over-long paragraph that has at least one sentence, text after the last `.`, `!` or `?` (and leading terminators) is silently dropped. | "A. " followed by 1900 letters is sent as the one chunk "A." | every character of the paragraph reaches some chunk; the `\|\| [paragraph]` fallback shows that losing text is not meant | not executed; high | Chunker.ChunkLongParagraphAsWritten, Chunker.AsWrittenDropsUnterminatedTail | Chunker.ChunkLongParagraph, Chunker.ChunkLongParagraphInk |
| src/App.jsx:350-357 | `numSamples = pcmData.length / 2` is fractional for an odd length. The loop then reads `getInt16` past the end, and the `RangeError` drops the whole segment from live playback. | a raw PCM segment of three bytes | decode the whole samples (`Math.floor(length / 2)`) | not executed; medium | Audio.DecodePcmAsWritten, Audio.AsWrittenRejectsOddLength | Audio.DecodePcm, Audio.DecodeEncodePcm |
| src/App.jsx:136 | the search loop runs while `i < length - 8`, so a "data" marker at `length - 8` is never found. A WAV segment with an empty data chunk keeps its 44-byte header inside the rejoined file. | `createWavBlob([])`, a 44-byte WAV segment with no samples | `i <= length - 8`: every marker followed by a size field is found | not executed; medium | Audio.StripWavHeaderAsWritten, Audio.AsWrittenKeepsEmptySegmentHeader, Client.FinalAssetAsWritten, Client.AsWrittenAssetKeepsHeader | Audio.StripWavHeader, Audio.StripCreatedWav, Client.FinalAsset |
| src/App.jsx:384-390 | a segment whose asynchronous decode completes after the end-of-stream checks (lines 551-553 and 588-590) is held until five segments are pending. With fewer than five held, playback never starts. | the stream ends, then one segment finishes decoding | a segment arriving after the stream has ended starts playback, as the end-of-stream checks would have | not executed; low (depends on timing) | Playback.SubmitAsWritten, Playback.AsWrittenLateSegmentNeverPlays | Playback.Submit, Playback.StartsWhenReady, Playback.EndedMeansAllScheduled |
