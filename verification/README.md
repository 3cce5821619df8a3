# Verification of the MiPlay speaker's core logic

A Dafny model of the parts of the firmware that decide something, with proofs of
what they guarantee. `dafny verify dfyconfig.toml` checks all of it.

Code that changes things step by step is modelled as classes and methods over the
same fields, arrays and loops. Each method is proved against a function on values,
and the lemmas say what that function means.

| file | what it is about |
|---|---|
| `JsmnSpec.dfy` | the JSON tokenizer as functions: one lexeme, a whole call, counting |
| `JsmnGrammar.dfy` | the lexemes in the words of RFC 8259, and the end of the text |
| `JsmnParser.dfy` | the tokenizer as it runs: `pos`, `toknext`, `toksuper`, a token array filled and patched in place |
| `JsmnResume.dfy` | continuing on a longer text or with a larger array |
| `JsmnSpans.dfy` | what holds after every lexeme: spans, sizes, progress |
| `JsmnStack.dfy` | the token array as a stack; which texts are accepted |
| `JsmnErrors.dfy` | what the error answers say about continuations |
| `JsmnCount.dfy` | counting against filling |
| `JsmnRoundTrip.dfy` | documents, their text and their tokens |
| `LyricsJson.dfy` | skipping a value and finding a key in the tokens, as the lyrics client does it |
| `SoftVolume.dfy` | the software volume ramp |
| `MiPlayMedia.dfy` | merging media events into a track, its lyrics, covers and position |
| `HttpReader.dfy` | the growing buffer of the cover download |
| `Entities.dfy` | XML entities, numeric references, UTF-8 |
| `PlayClock.dfy` | the position clock of DLNA playback |
| `BitRate.dfy` | frame sizes for SBC and LC3 bit rates |
| `SeekTime.dfy` | playback times in seek requests |
| `Text.dfy` | strings, shared by the others |

The tokenizer's main theorems rest on one fact, stated by the contracts of its
methods: a lexeme that fails leaves parser and tokens exactly as they were. From it
follow the chunked and the enlarged-array resumption, and from those the exact
meaning of the error answers.

## Where the code differs from what is said of it

The model follows the code. These are the places where that matters; each is a lemma.

- Cutting a text inside an unquoted primitive changes the tokens, and only that does
  (`JsmnResume.ChunkedEqualsOneShot`, `JsmnResume.SplitNumber`).
- The comment on `jsmn_container_end` says an object's size counts keys and values.
  The tokenizer counts pairs, so the skip stops short on every value with a non-empty
  object in it (`LyricsJson.EndExact`, `LyricsJson.TwoPairs`). So only the first half of
  an object's keys is searched (`LyricsJson.KeyFound`, `LyricsJson.SecondKeyMissed`,
  `LyricsJson.WrongKeyFound`).
- A lyric request has the artist of the event that began the track; one that comes later
  is stored but not asked for (`MiPlayMedia.ArtistFollows`, `MiPlayMedia.LateArtist`).
- The comments on the pending lyric refetch describe a request made when a title
  arrives later. A title that arrives later is itself a track change, so the pending
  flag never decides anything; likewise the branch for lyric lines sent as titles is
  never taken (`MiPlayMedia.DeferredRequestIsDead`, `MiPlayMedia.Player.KeepTexts`).
- A repeated report of playing without a position rewinds the displayed position to
  where it was last stored (`MiPlayMedia.PositionKept`, `MiPlayMedia.MinuteRewound`).
- A track change without a position, whose player state is invalid, leaves the
  position clock standing while the state stays playing
  (`MiPlayMedia.ClockRunsWhilePlaying`, `MiPlayMedia.StalledClock`). Such events exist:
  `components/miplay/miplay.c` lines 2292 to 2305 keep the flag of a valid state when a
  later field turns it into an unknown one.
- The comment in `cb_set_uri` says that a track that is set starts from 0. If
  it is playing or paused, it goes on where it is; and a pause or stop before play saves
  the position of the track that was playing under the one that is set, which then starts
  there (`PlayClock.SetUriThenPlay`, `PlayClock.SameTrackGoesOn`,
  `PlayClock.OtherTrackStartsThere`).
- A switch to another track that fails to start leaves the start stamp set in the
  stopped state, and the next stop counts the silence as playing time
  (`PlayClock.StampExact`, `PlayClock.BoundExact`, `PlayClock.FailedSwitchCountsSilence`).
- The response reader is independent of segmentation one byte further than
  4 MiB - 4096, and not beyond (`HttpReader.SegmentationIndependent`,
  `HttpReader.ResponseIndependent`).
- A NUL ends a JSON text except after a backslash in a string, where it makes it invalid
  (`JsmnGrammar.NulEnds`, `JsmnGrammar.NulAfterBackslash`).
- A reference without digits writes a NUL, which ends the title for its readers
  (`Entities.EmptyReference`).
- In a seek request the tag name and a space, anywhere, are taken for the opening tag
  before a tag without prefix is (`SeekTime.OpeningOrder`).
- The comparison of addresses when playback is resumed after a stop never decides anything
  (`PlayClock.SavedIsForTrack`).
- References to surrogates become bytes that are no UTF-8, and characters written in
  bytes can be cut at the end of a small buffer (`Entities.DecodedIsWellFormed`,
  `Entities.SurrogateReference`, `Entities.CutCharacter`).
- In SBC stereo modes the ceiling on the bit rate fails exactly when even frames
  without sample bits exceed it (`BitRate.SbcCeiling`, `BitRate.CeilingFails`), and it is
  a ceiling on the code's own frame length, which rounds the sample bits down to bytes.
  For frames that hold all of them it fails except where the block count and the joint
  flags are whole bytes (`BitRate.PaddedCeiling`, `BitRate.PaddedFrameCanExceed`).
- Mono and dual channel have no correction step and exceed some requests unless the
  header divides evenly by the block count (`BitRate.PlainCeiling`,
  `BitRate.PlainOvershoots`).
- Reading an LC3 bit rate and setting it again loses a byte per frame unless the
  frame duration divides evenly (`BitRate.Lc3SetAfterGet`, `BitRate.Lc3LosesAByte`).

## Model

| member | source | states |
|---|---|---|
| JsmnParser.Parser.constructor | esp_miplay-1.85c/components/jsmn/jsmn.c:29-33 | a fresh parser is at position 0 with no token and no superior token |
| JsmnParser.Parser.AllocToken | esp_miplay-1.85c/components/jsmn/jsmn.c:38-51 | the next slot with start, end and size reset while fewer than `num_tokens` are taken; otherwise -1 and nothing changes; no later slot is touched |
| JsmnParser.Parser.ParsePrimitive | esp_miplay-1.85c/components/jsmn/jsmn.c:67-119 | the scan up to a delimiter or the end of the text; INVAL and NOMEM leave parser and tokens as they were; success leaves `pos` on the last character and appends the token, in both modes |
| JsmnParser.Parser.SkipHex | esp_miplay-1.85c/components/jsmn/jsmn.c:167-181 | at most four hexadecimal digits, stopping early only at the end of the text |
| JsmnParser.Parser.SkipEscape | esp_miplay-1.85c/components/jsmn/jsmn.c:153-188 | an escape is skipped so that the scan of the string goes on unchanged, or the string is bad |
| JsmnParser.Parser.ParseString | esp_miplay-1.85c/components/jsmn/jsmn.c:124-192 | the scan to the closing quote; PART, INVAL and NOMEM leave parser and tokens as they were; success leaves `pos` on the quote and appends the token between the quotes |
| JsmnParser.Parser.BumpSuper | esp_miplay-1.85c/components/jsmn/jsmn.c:272-274 | the superior token, if any, gains one child and every other token is kept |
| JsmnParser.Parser.OpenContainer | esp_miplay-1.85c/components/jsmn/jsmn.c:210-236 | an open container becomes a child of the superior token and the new superior, or NOMEM changes nothing |
| JsmnParser.Parser.ScanOpen | esp_miplay-1.85c/components/jsmn/jsmn.c:242-265 | the backward scan finds the last token with a start and no end |
| JsmnParser.Parser.CloseContainer | esp_miplay-1.85c/components/jsmn/jsmn.c:237-265 | the innermost open token gets its end and the open token around it becomes superior; no open token or another type is INVAL and changes nothing |
| JsmnParser.Parser.Comma | esp_miplay-1.85c/components/jsmn/jsmn.c:284-303 | after a key or a leaf the innermost open container becomes superior; otherwise nothing changes |
| JsmnParser.Parser.StringCase | esp_miplay-1.85c/components/jsmn/jsmn.c:266-275 | a string token is appended and counted for its superior, or the failure changes nothing |
| JsmnParser.Parser.PrimitiveCase | esp_miplay-1.85c/components/jsmn/jsmn.c:330-340 | a primitive token is appended and counted for its superior, or the failure changes nothing |
| JsmnParser.Parser.Lexeme | esp_miplay-1.85c/components/jsmn/jsmn.c:205-347 | one round of the loop is one step of the specification, `count` follows `toknext`, and unused slots are untouched |
| JsmnParser.Parser.ParseInto | esp_miplay-1.85c/components/jsmn/jsmn.c:197-358 | a call with a token array, from any state a call can leave, ends in the state and with the answer of `Run` |
| JsmnParser.Parser.ParseCount | esp_miplay-1.85c/components/jsmn/jsmn.c:197-358 | a call without a token array ends at the position and with the answer of `CountRun` |
| JsmnParser.Parse | esp_miplay-1.85c/components/jsmn/jsmn.c:197-358 | the entry point in both modes |
| JsmnGrammar.Classes | esp_miplay-1.85c/components/jsmn/jsmn.c:79-95 | the classes of white space, separators, visible characters, hexadecimal digits and escape letters are those of RFC 8259 |
| JsmnGrammar.PrimitiveExact | esp_miplay-1.85c/components/jsmn/jsmn.c:67-119 | a scan without quotes ends at the first separator, NUL or end of the text, over visible characters only, and nowhere else |
| JsmnGrammar.PrimitiveBad | esp_miplay-1.85c/components/jsmn/jsmn.c:93-96 | and fails if and only if such characters are followed by one that is neither visible nor a separator nor NUL |
| JsmnGrammar.StringExact | esp_miplay-1.85c/components/jsmn/jsmn.c:124-192 | a string ends at a quote if and only if nothing but plain characters and complete escapes stand before it |
| JsmnGrammar.StringBad | esp_miplay-1.85c/components/jsmn/jsmn.c:151-188 | and is bad if and only if such characters are followed by a backslash that begins no escape, complete or cut short |
| JsmnGrammar.EscapedIsBody | esp_miplay-1.85c/components/jsmn/jsmn.c:155-181 | every text, with the characters that section 7 of RFC 8259 has escaped written that way, is such a string |
| JsmnGrammar.BadEscapeRefused | esp_miplay-1.85c/components/jsmn/jsmn.c:182-186 | any character after a backslash but those eight and u gives INVAL, whatever follows, and changes nothing |
| JsmnGrammar.NulEnds | esp_miplay-1.85c/components/jsmn/jsmn.c:204 | a NUL that does not follow a backslash ends the text: the call is that on the text before it |
| JsmnGrammar.NulAfterBackslash | esp_miplay-1.85c/components/jsmn/jsmn.c:151-188 | after a backslash it does not: the text before it is PART, the whole one INVAL |
| JsmnResume.ChunkedEqualsOneShot | esp_miplay-1.85c/components/jsmn/jsmn.c:197-358 | parsing a prefix and then the whole text, with an array at least as large, gives the tokens and answer of one call if and only if the cut does not split an unquoted primitive |
| JsmnResume.Resume | esp_miplay-1.85c/components/jsmn/jsmn.c:202-204 | the same from any state, as a continuation of one call by another |
| JsmnResume.SplitDiffers | esp_miplay-1.85c/components/jsmn/jsmn.c:111-117 | a cut inside a primitive always makes a difference |
| JsmnResume.SplitNumber | esp_miplay-1.85c/components/jsmn/jsmn.c:111-117 | the smallest such cut: the text 12 has one token, but two when it is fed as 1 and then 12 |
| JsmnResume.RunKeepsTokens | esp_miplay-1.85c/components/jsmn/jsmn.c:197-358 | a token keeps its type and start for ever, and its end once it is set |
| JsmnResume.MoreTokens | esp_miplay-1.85c/components/jsmn/jsmn.c:38-51 | after NOMEM, going on with a larger array gives what one call with the larger array gives; without NOMEM a larger array changes nothing |
| JsmnResume.NoMemMeansFull | esp_miplay-1.85c/components/jsmn/jsmn.c:42-44 | the array is never overfilled, and NOMEM is reported only when it is full |
| JsmnResume.FeedEqualsOneShot | esp_miplay-1.85c/components/jsmn/jsmn.c:197-358 | any sequence of calls on prefixes of the text with any array sizes, none of which splits a primitive, is absorbed by a final call: it answers as one call would |
| JsmnResume.FeedExact | esp_miplay-1.85c/components/jsmn/jsmn.c:197-358 | from a fresh parser, any sequence of calls on prefixes with any array sizes and a final call on the whole text give the tokens and answer of that call alone, if and only if none of them stopped inside a primitive |
| JsmnSpans.SpansAlwaysOk | esp_miplay-1.85c/components/jsmn/jsmn.c:67-265 | after every lexeme of every text: starts strictly increase, spans are nested, disjoint or still open, containers sit on their brackets, strings between their quotes, primitives on non-empty runs of printable non-delimiters |
| JsmnSpans.SuccessIsLaminar | esp_miplay-1.85c/components/jsmn/jsmn.c:350-357 | on success the answer is the number of tokens, all are closed and any two are nested or disjoint |
| JsmnSpans.Conservation | esp_miplay-1.85c/components/jsmn/jsmn.c:220-340 | after every lexeme of every text the sizes sum to the number of tokens less those made without a superior, and the superior is -1 or an existing token |
| JsmnSpans.Progress | esp_miplay-1.85c/components/jsmn/jsmn.c:202-348 | every lexeme moves `pos` forward despite the rewinds, so the loop ends, and there are never more tokens than characters read |
| JsmnStack.LastOpenIsTop | esp_miplay-1.85c/components/jsmn/jsmn.c:242-265 | the innermost open token carries the top of the stack of open containers, and there is one exactly when the stack is not empty |
| JsmnStack.CloseFindsEnclosing | esp_miplay-1.85c/components/jsmn/jsmn.c:256-264 | the second backward scan of a closing bracket, which starts where the first stopped, finds the innermost token still open |
| JsmnStack.StepSimulates | esp_miplay-1.85c/components/jsmn/jsmn.c:205-347 | one lexeme of the tokenizer is one lexeme of a machine with an explicit stack, with the same failure |
| JsmnStack.RunIsStackRun | esp_miplay-1.85c/components/jsmn/jsmn.c:197-358 | so a call answers as the stack machine does, from any state, unless tokens run out |
| JsmnStack.OneTokenPerChar | esp_miplay-1.85c/components/jsmn/jsmn.c:197-358 | as many tokens as characters are always enough |
| JsmnStack.ChecksIsWellMatched | esp_miplay-1.85c/components/jsmn/jsmn.c:237-265 | reading a word of brackets with a stack accepts exactly the words of a grammar of matched brackets |
| JsmnStack.AcceptsExactlyWellMatched | esp_miplay-1.85c/components/jsmn/jsmn.c:197-358 | for every array size, a call succeeds if and only if every lexeme scans, the brackets outside strings and primitives form a well-matched word, and the array has as many tokens as count mode says |
| JsmnStack.CountsLexemes | esp_miplay-1.85c/components/jsmn/jsmn.c:197-358 | count mode succeeds if and only if every lexeme scans, whatever the brackets |
| JsmnErrors.InvalidForEver | esp_miplay-1.85c/components/jsmn/jsmn.c:67-192 | INVAL on a text is INVAL on every continuation of it, with any larger array |
| JsmnErrors.ErrorsAreExact | esp_miplay-1.85c/components/jsmn/jsmn.c:67-357 | for a text without NUL: INVAL if and only if no continuation is accepted; PART if and only if it is not accepted but some continuation is |
| JsmnCount.FillSuccessIsCounted | esp_miplay-1.85c/components/jsmn/jsmn.c:197-358 | every success of fill mode is what count mode returns |
| JsmnCount.CountedSizeSuffices | esp_miplay-1.85c/components/jsmn/jsmn.c:105-139 | an array of the counted size never gives NOMEM, and a success returns exactly the count |
| JsmnCount.CountedSizeIsLeast | esp_miplay-1.85c/components/jsmn/jsmn.c:38-51 | for an acceptable text every smaller array gives NOMEM |
| JsmnRoundTrip.RunValue | esp_miplay-1.85c/components/jsmn/jsmn.c:205-347 | inside any context, a value is read exactly to its end, its flattening is appended, the superior gains one child, and a container restores the enclosing superior |
| JsmnRoundTrip.RunEntries | esp_miplay-1.85c/components/jsmn/jsmn.c:205-347 | the entries of an open container are appended in order and counted by it alone, whatever stands as superior before each comma |
| JsmnRoundTrip.RoundTrip | esp_miplay-1.85c/components/jsmn/jsmn.c:197-358 | for every document with any white space between its lexemes and enough tokens, the answer is the number of nodes and the array is the pre-order flattening, with types, spans, and sizes: pairs, elements, 1 for a key, 0 for other leaves |
| JsmnRoundTrip.EscapedText | esp_miplay-1.85c/components/jsmn/jsmn.c:124-192 | every text at all, escaped and between quotes, is one token between its quotes |
| JsmnRoundTrip.TooFewTokens | esp_miplay-1.85c/components/jsmn/jsmn.c:38-51 | with fewer tokens than nodes the answer is NOMEM |
| LyricsJson.ContainerEnd | esp_miplay-1.85c/components/lyrics_fetch/lyrics_fetch.c:390-411 | the recursive skip in loop form computes `End`, for any token array and any index |
| LyricsJson.EndExact | esp_miplay-1.85c/components/lyrics_fetch/lyrics_fetch.c:390-411 | in the tokens of a document, the skip ends right after the value if and only if the value contains no non-empty object; otherwise it stops short, never beyond |
| LyricsJson.TwoPairs | esp_miplay-1.85c/components/lyrics_fetch/lyrics_fetch.c:390-411 | the smallest failing value: an object of two pairs is five tokens wide and skipped by three |
| LyricsJson.FindKeyInObject | esp_miplay-1.85c/components/lyrics_fetch/lyrics_fetch.c:314-341 | the search loop computes `FindIn`, for any token array and any index |
| LyricsJson.KeyFound | esp_miplay-1.85c/components/lyrics_fetch/lyrics_fetch.c:314-341 | in the tokens of a document, a key of an object is found, at its value, if and only if its first pair stands in the first half of the pairs, provided that the values passed on the way hold no non-empty object; otherwise nothing is found |
| LyricsJson.SecondKeyMissed | esp_miplay-1.85c/components/lyrics_fetch/lyrics_fetch.c:314-341 | of two keys the first is found and the second never, whatever they are |
| LyricsJson.WrongKeyFound | esp_miplay-1.85c/components/lyrics_fetch/lyrics_fetch.c:314-341 | an object outside that proviso: a text inside the first value is taken for a key, and the answer is no value of the object |
| LyricsJson.NoObjectNoKey | esp_miplay-1.85c/components/lyrics_fetch/lyrics_fetch.c:317-318 | in a value that is no object nothing is found |
| SoftVolume.Volume.Open | esp_miplay-1.85c/components/esp_codec_dev/audio_codec_sw_vol.c:34-48 | only 16-bit samples are accepted, the ramp is kept, and a refusal changes nothing |
| SoftVolume.Volume.Set | esp_miplay-1.85c/components/esp_codec_dev/audio_codec_sw_vol.c:100-125 | open, the ramp restarts from the gain in use towards the new one, or is there at once if the floating-point step is zero; closed, the gain is set at once |
| SoftVolume.Volume.StepGain | esp_miplay-1.85c/components/esp_codec_dev/audio_codec_sw_vol.c:81-94 | one step of the ramp, clamped at the target |
| SoftVolume.Volume.ScaleFrame | esp_miplay-1.85c/components/esp_codec_dev/audio_codec_sw_vol.c:78-80 | the samples of one frame get the gain of that frame, also in place |
| SoftVolume.Volume.ScaleSteady | esp_miplay-1.85c/components/esp_codec_dev/audio_codec_sw_vol.c:69-75 | the loop over frames while the gain does not move |
| SoftVolume.Volume.ScaleRamp | esp_miplay-1.85c/components/esp_codec_dev/audio_codec_sw_vol.c:77-95 | the loop over frames of the ramp, with a step after every frame |
| SoftVolume.Volume.Process | esp_miplay-1.85c/components/esp_codec_dev/audio_codec_sw_vol.c:50-98 | a buffer becomes the stream function of it and leaves the ramp where the next buffer goes on; muted it is cleared; closed nothing changes; samples past the last whole frame stay |
| SoftVolume.RampClosedForm | esp_miplay-1.85c/components/esp_codec_dev/audio_codec_sw_vol.c:81-94 | frame i has gain min(gain, cur + i*step) going up and max going down |
| SoftVolume.RampMonotone | esp_miplay-1.85c/components/esp_codec_dev/audio_codec_sw_vol.c:81-94 | the gain moves monotonically and never passes the target |
| SoftVolume.RampArrives | esp_miplay-1.85c/components/esp_codec_dev/audio_codec_sw_vol.c:113-123 | it is at the target exactly from the frame where i*step covers the distance, and with a step truncated to zero it never moves |
| SoftVolume.ExactArrival | esp_miplay-1.85c/components/esp_codec_dev/audio_codec_sw_vol.c:81-94 | a step is cleared if and only if it would lead past the target, not when it leads exactly there |
| SoftVolume.BuffersAdd | esp_miplay-1.85c/components/esp_codec_dev/audio_codec_sw_vol.c:60-97 | a frame has the same gain whether or not a buffer ended before it, arrived ramps included |
| SoftVolume.BufferingDoesNotMatter | esp_miplay-1.85c/components/esp_codec_dev/audio_codec_sw_vol.c:50-98 | however a stream is cut into buffers of whole frames, the output is that of the uncut stream |
| SoftVolume.ScaleInRange | esp_miplay-1.85c/components/esp_codec_dev/audio_codec_sw_vol.c:79 | scaling never wraps in 16 bits, keeps the sign, never enlarges, is exact at unity gain and zero at zero |
| SoftVolume.ScaledInRange | esp_miplay-1.85c/components/esp_codec_dev/audio_codec_sw_vol.c:50-98 | so does every sample of a stream under a ramp |
| SoftVolume.ScaleRoundsDown | esp_miplay-1.85c/components/esp_codec_dev/audio_codec_sw_vol.c:79 | a scaled sample is sample times gain over 32768, rounded down |
| SoftVolume.SampleClosedForm | esp_miplay-1.85c/components/esp_codec_dev/audio_codec_sw_vol.c:50-98 | every sample of every frame in numbers: times min or max of the target and cur + i*step, over 32768, rounded down |
| MiPlayMedia.Player.OnMedia | esp_miplay-1.85c/main/dlna.c:914-927 | a full queue of eight loses its oldest event, and the new one is last |
| MiPlayMedia.Player.OnConnected | esp_miplay-1.85c/main/dlna.c:2973-2983 | playback fields are cleared, queued events dropped, and a session reset is owed; the texts stay until then |
| MiPlayMedia.Player.OnSkip | esp_miplay-1.85c/main/dlna.c:1435-1440 | next (and previous, lines 1551-1556) clears the playback fields and keeps the texts |
| MiPlayMedia.Player.ResetLocked | esp_miplay-1.85c/main/dlna.c:732-751 | a session reset is one step of the history |
| MiPlayMedia.Player.ConsumePending | esp_miplay-1.85c/main/dlna.c:754-769 | draining consumes exactly the queued events in order, after an owed reset; disconnected it drops them unread |
| MiPlayMedia.Player.ConsumeOne | esp_miplay-1.85c/main/dlna.c:769-911 | one event, in the order of the code, is `Consume` of it |
| MiPlayMedia.Player.IsNewTrack | esp_miplay-1.85c/main/dlna.c:770-790 | the decision that a track has changed |
| MiPlayMedia.Player.KeepTexts | esp_miplay-1.85c/main/dlna.c:821-851 | each non-empty delivered text replaces the stored one; the branches for a lyric line in the title are never taken |
| MiPlayMedia.Player.KeepArtistAndAlbum | esp_miplay-1.85c/main/dlna.c:833-842 | artist and album, also in the branch for a lyric line, which would only fill empty ones |
| MiPlayMedia.Player.KeepCover | esp_miplay-1.85c/main/dlna.c:843-851 | a new cover is stored and reported as not the same |
| MiPlayMedia.Player.KeepTimes | esp_miplay-1.85c/main/dlna.c:852-883 | the stored times and player state after an event |
| MiPlayMedia.ConsumeText | esp_miplay-1.85c/main/dlna.c:799-851 | after an event a text is the delivered one, or else the old one if the track goes on, or else empty |
| MiPlayMedia.NoMixing | esp_miplay-1.85c/main/dlna.c:732-851 | after any history, each text is the last non-empty one delivered since the latest track change (that event included) or session reset, and empty if there was none |
| MiPlayMedia.TrackAfter | esp_miplay-1.85c/main/dlna.c:770-851 | on the fields of event and state: if the event brings another id, audio id or title, or replaces a stored cover or duration by another, only its own texts are stored; if not, each text it does not bring stays |
| MiPlayMedia.SameSong | esp_miplay-1.85c/main/dlna.c:732-851 | every stored text was delivered while the stored id, audio id and title were the present ones |
| MiPlayMedia.TimesAfter | esp_miplay-1.85c/main/dlna.c:852-871 | on the fields: a state from 0 to 3 is adopted and no other; a positive duration is stored, up to the largest int, and another track has none |
| MiPlayMedia.AskedAfter | esp_miplay-1.85c/main/dlna.c:889-910 | on the fields: which lyrics are asked for, with which artist and which of the two ids, which cover, and whether a lyric request is owed |
| MiPlayMedia.PositionAdvances | esp_miplay-1.85c/main/dlna.c:721-730 | the shown position is the stored one plus the milliseconds since the anchor while playing, up to the duration or the largest int |
| MiPlayMedia.Player.GetPositionMs | esp_miplay-1.85c/main/dlna.c:721-730 | the getter |
| MiPlayMedia.ConsumeLyrics | esp_miplay-1.85c/main/dlna.c:894-910 | an event makes exactly one lyric request if it is a track change with a title, for that title and artist, and none otherwise |
| MiPlayMedia.LyricsAlwaysOk | esp_miplay-1.85c/main/dlna.c:894-910 | after any history, a stored title is that of the latest request and nothing is pending |
| MiPlayMedia.LyricRequests | esp_miplay-1.85c/main/dlna.c:894-910 | a history makes as many requests as it has track changes with a title |
| MiPlayMedia.LastRequest | esp_miplay-1.85c/main/dlna.c:894-910 | while a title is stored, the latest request carries the title and the artist of the event that began the current track |
| MiPlayMedia.ArtistFollows | esp_miplay-1.85c/main/dlna.c:833-910 | after an event the latest request is for the stored artist, if and only if there is no title, the event is a track change, or the artist stored then is the one asked for before |
| MiPlayMedia.LateArtist | esp_miplay-1.85c/main/dlna.c:833-910 | a history and an event after which it is not: an artist that comes after the title |
| MiPlayMedia.DeferredRequestIsDead | esp_miplay-1.85c/main/dlna.c:894-905 | an event that is no track change never makes the deferred request |
| MiPlayMedia.RedeliveryIsHarmless | esp_miplay-1.85c/main/dlna.c:770-911 | the same event again is no track change, makes no lyric or cover request and changes no text |
| MiPlayMedia.CoversAlwaysOk | esp_miplay-1.85c/main/dlna.c:843-892 | a stored cover is the one last asked for |
| MiPlayMedia.StopFreezesPosition | esp_miplay-1.85c/main/dlna.c:856-871 | a report of a state other than playing leaves the position where the getter had it, for ever |
| MiPlayMedia.PositionKept | esp_miplay-1.85c/main/dlna.c:852-871 | an event without a position that is no track change keeps the shown position, if and only if it neither reports playing again a millisecond or more after a position was stored that could still grow, nor brings a first duration that is already over; in the one case the position goes back to the stored one, in the other to the duration |
| MiPlayMedia.MinuteRewound | esp_miplay-1.85c/main/dlna.c:863-866 | the history that shows it: a minute into a track, a second report of playing shows 0 |
| MiPlayMedia.ConsumeInIntRange | esp_miplay-1.85c/main/dlna.c:714-719 | positions and durations stay ints and not negative |
| MiPlayMedia.PositionAfterEvent | esp_miplay-1.85c/main/dlna.c:852-883 | right after an event the getter shows the delivered position, within the duration, or 0 for a new track without one, whatever state the event reports |
| MiPlayMedia.ClockRunsWhilePlaying | esp_miplay-1.85c/main/dlna.c:799-883 | an event keeps the anchor set exactly while playing, if and only if it is not a track change without a position that carries an invalid player state; such an event holds the shown position at 0 |
| MiPlayMedia.StalledClock | esp_miplay-1.85c/main/dlna.c:799-883 | a history and an event that stop the clock: playing, then a new title with an invalid state |
| HttpReader.Recv | esp_miplay-1.85c/main/dlna.c:1834 | recv is asked for at least 4095 bytes, and one byte of the buffer stays free |
| HttpReader.FindHeader | esp_miplay-1.85c/main/dlna.c:1837-1845 | the first empty line of what has been read |
| HttpReader.Grow | esp_miplay-1.85c/main/dlna.c:1852-1860 | the larger buffer keeps what has been read |
| HttpReader.Receive | esp_miplay-1.85c/main/dlna.c:1826-1863 | the loop keeps `total < cap`, the buffer holds a prefix of the stream of the length `Received`, and the header end is that of the prefix, however recv portions the bytes and whichever allocations fail |
| HttpReader.Get | esp_miplay-1.85c/main/dlna.c:1826-1882 | the answer is the body of the part that was read, or failure, also when memory for the first buffer or the body is missing |
| HttpReader.GetSafe | esp_miplay-1.85c/main/dlna.c:1826-1882 | for a stream of at most 4 MiB - 4095 bytes, and no allocation failing, the answer is everything after the first CRLFCRLF if that is at least four bytes, and failure otherwise or without one, for every segmentation |
| HttpReader.BodyOfParts | esp_miplay-1.85c/main/dlna.c:1836-1876 | headers, CRLFCRLF and a body, put together, give back the body |
| HttpReader.StopsEarly | esp_miplay-1.85c/main/dlna.c:1846-1861 | reading stops before the end of the stream only where fewer than 4096 bytes are left of a buffer in steps of 512 KiB that has 4 MiB or may not grow |
| HttpReader.SegmentationIndependent | esp_miplay-1.85c/main/dlna.c:1833-1862 | every segmentation reads the whole stream if and only if it has at most 4 MiB - 4095 bytes |
| HttpReader.ResponseIndependent | esp_miplay-1.85c/main/dlna.c:1833-1882 | the response is that of the whole stream for every segmentation, if and only if the stream is no longer than that or has no body |
| HttpReader.ByteByByteIsCut | esp_miplay-1.85c/main/dlna.c:1846-1851 | a longer stream delivered byte by byte is cut there |
| HttpReader.HeaderEndStays | esp_miplay-1.85c/main/dlna.c:1837-1845 | a header end once found is the one of everything read later |
| Entities.MatchEntity | esp_miplay-1.85c/main/dlna.c:488-493 | the five comparisons at one position |
| Entities.HtmlUnescape | esp_miplay-1.85c/main/dlna.c:484-500 | the buffer holds as much of the unescaped text as fits, terminated, and nothing behind it is written |
| Entities.UnescapeEscape | esp_miplay-1.85c/main/dlna.c:484-500 | unescaping the escaping of any string gives the string: nothing is unescaped twice |
| Entities.UnescapeOfEscape | esp_miplay-1.85c/main/dlna.c:484-500 | so a buffer receives the first bytes of the original, as many as fit |
| Entities.UnescapeMix | esp_miplay-1.85c/main/dlna.c:484-500 | a mix of names and raw characters unescapes to the characters, if no raw ampersand begins a name |
| Entities.UnescapeNothing | esp_miplay-1.85c/main/dlna.c:494 | a text in which no name stands is left as it is, ampersands included |
| Entities.NameAcrossEnd | esp_miplay-1.85c/main/dlna.c:484-500 | a name that begins before the end of the part counts, even if it goes on behind it |
| Entities.ReadReference | esp_miplay-1.85c/main/dlna.c:1598-1604 | the decimal digits modulo 2^32 and the optional semicolon |
| Entities.NumberModulo | esp_miplay-1.85c/main/dlna.c:1599-1603 | a reference of any length is read modulo 2^32 |
| Entities.WithoutSemicolon | esp_miplay-1.85c/main/dlna.c:1604 | the semicolon may be missing |
| Entities.EmptyReference | esp_miplay-1.85c/main/dlna.c:1597-1607 | a reference without digits writes a NUL |
| Entities.DecodeHtmlEntities | esp_miplay-1.85c/main/dlna.c:1593-1627 | the buffer holds the decoded text, terminated, never beyond its size |
| Entities.DecodeRendering | esp_miplay-1.85c/main/dlna.c:1593-1627 | decoding a rendering of bytes and decimal references gives the encodings of exactly the pieces that fit, none split |
| Entities.EnoughRoom | esp_miplay-1.85c/main/dlna.c:1596 | all of them fit when six bytes are to spare |
| Entities.Utf8Formed | esp_miplay-1.85c/main/dlna.c:1605-1619 | what is written for a number of 32 bits other than 0 is one well-formed character by the grammar of section 4 of RFC 3629, if and only if it is no surrogate and, above 16 bits, its low 22 bits lie between 0x10000 and 0x10FFFF |
| Entities.FormedCodes | esp_miplay-1.85c/main/dlna.c:1605-1619 | up to 0x10FFFF these are all numbers but the surrogates |
| Entities.LargeReferences | esp_miplay-1.85c/main/dlna.c:1616-1619 | two larger numbers: one that writes no character, and one that writes the character of another number |
| Entities.DecodeUtf8 | esp_miplay-1.85c/main/dlna.c:1605-1619 | every code point up to 0x10FFFF decodes back, wherever it stands |
| Entities.Utf8CharCount | esp_miplay-1.85c/main/dlna.c:2544-2552 | the number of bytes that are not continuation bytes, up to a NUL |
| Entities.CountAll | esp_miplay-1.85c/main/dlna.c:2544-2552 | the count is that of the pieces other than plain continuation bytes: every reference counts as exactly one character |
| Entities.CountStops | esp_miplay-1.85c/main/dlna.c:2547 | counting stops at a NUL |
| Entities.DecodedIsWellFormed | esp_miplay-1.85c/main/dlna.c:1593-1627 | what is decoded, whatever the size of the buffer, is well-formed UTF-8 if and only if the plain bytes that fit are, with a question mark in the place of each reference, and each reference that fits writes a well-formed character |
| Entities.SurrogateReference | esp_miplay-1.85c/main/dlna.c:1611-1614 | a surrogate reference and the three bytes that are no character |
| Entities.CutCharacter | esp_miplay-1.85c/main/dlna.c:1593-1627 | a character written in bytes is cut at the end of a small buffer |
| Entities.DecodedIsUtf8 | esp_miplay-1.85c/main/dlna.c:1593-1627 | with ASCII between the references, what is decoded counts one character for each piece that fits, is well-formed if and only if every reference is, and reads back as the code points if none is above 0x10FFFF |
| Entities.TitleComesThrough | esp_miplay-1.85c/main/dlna.c:1593-1627 | a title with the five characters by name and other code points by number, unescaped and then decoded, is its bytes and the UTF-8 of its references: of all pieces, or of those that fit |
| Entities.ShowTitle | esp_miplay-1.85c/main/dlna.c:1676 | the same through the two buffers, the first one large enough |
| Entities.DecodedStops | esp_miplay-1.85c/main/dlna.c:1596 | decoding stops at a NUL |
| PlayClock.Player.CbSetUri | esp_miplay-1.85c/main/dlna.c:962-998 | the history grows by this operation: a new track is set and the saved position cleared |
| PlayClock.Player.DoPlayAt | esp_miplay-1.85c/main/dlna.c:1085-1107 | a started pipeline sets state, base and stamp; a failed one only the state |
| PlayClock.Player.CbPlay | esp_miplay-1.85c/main/dlna.c:1129-1184 | the history grows by this operation, in all its cases |
| PlayClock.Player.PlayNow | esp_miplay-1.85c/main/dlna.c:1129-1184 | the four cases of play |
| PlayClock.Player.FreezeNow | esp_miplay-1.85c/main/dlna.c:1199-1202 | the elapsed whole milliseconds are added and the stamp cleared |
| PlayClock.Player.CbPause | esp_miplay-1.85c/main/dlna.c:1186-1211 | pause freezes and saves only while playing |
| PlayClock.Player.CbStop | esp_miplay-1.85c/main/dlna.c:1286-1319 | stop freezes and saves in any state |
| PlayClock.Player.CbGetPositionMs | esp_miplay-1.85c/main/dlna.c:470-477 | after any history without a failed switch since the last start, the getter shows at most the true playing time, and less by under 1 ms per freeze and 1 ms more |
| PlayClock.StampKept | esp_miplay-1.85c/main/dlna.c:1087-1208 | an operation keeps the stamp non-zero exactly while playing, if and only if it is no switch to another track that fails to start |
| PlayClock.StampExact | esp_miplay-1.85c/main/dlna.c:1087-1319 | after any run the stamp is non-zero exactly while playing, if and only if no such switch has come since the last start of a pipeline or stop |
| PlayClock.FailedSwitchCountsSilence | esp_miplay-1.85c/main/dlna.c:1104-1107 | after such a switch the stamp survives in the stopped state, and a later stop adds a minute of silence to the position |
| PlayClock.PositionBound | esp_miplay-1.85c/main/dlna.c:470-477 | after any run whose last start of a pipeline is not followed by a failed switch, the position never exceeds the true playing time since then and trails it by less than 1 ms per freeze and 1 ms more |
| PlayClock.BoundExact | esp_miplay-1.85c/main/dlna.c:470-1319 | for every sequence of operations, that bound holds for all times at which they and the question can come, if and only if no failed switch follows the last start |
| PlayClock.RetryIsClean | esp_miplay-1.85c/main/dlna.c:1129-1184 | a failed switch followed by a start is such a sequence |
| PlayClock.PlayResumes | esp_miplay-1.85c/main/dlna.c:1129-1184 | play takes up a paused position exactly and a stopped one at its last whole second, for the track that is set, which need not be the one that played |
| PlayClock.SetUriThenPlay | esp_miplay-1.85c/main/dlna.c:962-1319 | where a track starts that is set and played, with any pauses and stops in between, on any deck a run can lead to: the exact position, and it is 0 if and only if no position is carried over (by a stop, by the track being the one in the pipeline, or by a pause of another that was playing) or what is carried is nothing |
| PlayClock.HeldIsShown | esp_miplay-1.85c/main/dlna.c:1186-1319 | what is carried is the position shown when the first pause or stop comes |
| PlayClock.OtherTrackStartsThere | esp_miplay-1.85c/main/dlna.c:1186-1319 | a minute into a track another one is set, and after a stop or a pause it starts at a minute |
| PlayClock.FailedStartForgets | esp_miplay-1.85c/main/dlna.c:1104-1184 | a start that fails stops, shows what was accumulated and forgets the saved position: the next one starts from 0 |
| PlayClock.ResumeKeepsTheRest | esp_miplay-1.85c/main/dlna.c:1165-1168 | going on after a pause changes the state and the stamp only |
| PlayClock.SetUriChangesOnly | esp_miplay-1.85c/main/dlna.c:974-979 | setting a track changes it and clears the saved position, and nothing else of the clock; play without a track only clears it |
| PlayClock.SavedIsForTrack | esp_miplay-1.85c/main/dlna.c:1176-1183 | after any run a saved position is for the track that is set, so that comparing the addresses never decides anything |
| PlayClock.NothingWithoutTrack | esp_miplay-1.85c/main/dlna.c:1129-1319 | until a track is set, no operation changes the clock |
| PlayClock.SameTrackGoesOn | esp_miplay-1.85c/main/dlna.c:962-1184 | a minute into a track, setting it again and playing it shows a minute |
| BitRate.SbcConfig.SetBitrate | esp_miplay-1.85c/components/gmf_audio/esp_gmf_audio_enc.c:234-281 | the stored bitpool in all modes, the refusals that change nothing, and the limit of the stereo modes even when products wrap |
| BitRate.SbcConfig.StereoPool | esp_miplay-1.85c/components/gmf_audio/esp_gmf_audio_enc.c:251-267 | guess, single decrement and limit, in wrapping arithmetic |
| BitRate.SbcConfig.PlainPool | esp_miplay-1.85c/components/gmf_audio/esp_gmf_audio_enc.c:268-275 | the mono and dual channel choice, in wrapping arithmetic |
| BitRate.OneLessFits | esp_miplay-1.85c/components/gmf_audio/esp_gmf_audio_enc.c:252-258 | one less than the first guess never exceeds the requested rate |
| BitRate.SbcCeiling | esp_miplay-1.85c/components/gmf_audio/esp_gmf_audio_enc.c:251-279 | the bit rate of the chosen bitpool is at most the request if and only if that of the empty bitpool is; so always when the bitpool is positive |
| BitRate.CeilingFails | esp_miplay-1.85c/components/gmf_audio/esp_gmf_audio_enc.c:251-279 | a configuration and request on the failing side: 36000 bit/s of empty frames for 1000 |
| BitRate.SbcOptimal | esp_miplay-1.85c/components/gmf_audio/esp_gmf_audio_enc.c:251-267 | the choice is at most 255 for eight subbands and 128 otherwise, and below that one more unit of bitpool would cost more than was asked |
| BitRate.PaddedLenIs | esp_miplay-1.85c/components/gmf_audio/esp_gmf_audio_enc.c:254-255 | the code rounds the sample bits of a frame down to bytes: a frame that holds them all is a byte longer exactly when they do not fill their last byte |
| BitRate.PaddedFits | esp_miplay-1.85c/components/gmf_audio/esp_gmf_audio_enc.c:251-279 | if the block count and the joint flags are whole bytes, padded frames keep to every request that gets a positive bitpool |
| BitRate.PaddedCeiling | esp_miplay-1.85c/components/gmf_audio/esp_gmf_audio_enc.c:251-279 | for every block and subband count and every sample rate from twice their product to 192 kHz, padded frames keep to every request that gets a positive bitpool if and only if the block count and the joint flags are whole bytes |
| BitRate.PaddedFrameCanExceed | esp_miplay-1.85c/components/gmf_audio/esp_gmf_audio_enc.c:254-255 | a configuration and request whose padded frames exceed it |
| BitRate.PlainExact | esp_miplay-1.85c/components/gmf_audio/esp_gmf_audio_enc.c:268-275 | in mono and dual channel the bits of a frame cost more than was asked if and only if not even empty frames fit, or no limit bites and what the header division drops outweighs what the bit rate division drops |
| BitRate.PlainCeiling | esp_miplay-1.85c/components/gmf_audio/esp_gmf_audio_enc.c:268-275 | mono and dual channel keep to every request that gets a positive bitpool if and only if the header divides evenly by the block count |
| BitRate.PlainOvershoots | esp_miplay-1.85c/components/gmf_audio/esp_gmf_audio_enc.c:268-275 | twelve blocks of eight mono subbands: 100 bits a frame where 96 were paid for |
| BitRate.PlainOvershoot | esp_miplay-1.85c/components/gmf_audio/esp_gmf_audio_enc.c:268-275 | an excess is always less than one unit of bitpool |
| BitRate.Lc3Config.SetBitrate | esp_miplay-1.85c/components/gmf_audio/esp_gmf_audio_enc.c:228-233 | the frame size that is stored |
| BitRate.Lc3Config.GetBitrate | esp_miplay-1.85c/components/gmf_audio/esp_gmf_audio_enc.c:322-331 | the bit rate that is read, or a refusal for a zero duration |
| BitRate.Lc3SetAfterGet | esp_miplay-1.85c/components/gmf_audio/esp_gmf_audio_enc.c:322-331 | reading the bit rate and setting it again keeps the frame size if the duration divides evenly, and loses exactly one byte otherwise |
| BitRate.Lc3LosesAByte | esp_miplay-1.85c/components/gmf_audio/esp_gmf_audio_enc.c:322-331 | a 7.5 ms frame of 40 bytes comes back as 39 |
| BitRate.Lc3GetAfterSet | esp_miplay-1.85c/components/gmf_audio/esp_gmf_audio_enc.c:228-233 | the bit rate read back is never more than was set |
| BitRate.Lc3FillsFrame | esp_miplay-1.85c/components/gmf_audio/esp_gmf_audio_enc.c:228-233 | the bytes of a frame are as many as the bit rate pays for in its duration, longer by 480 to 441 at 44.1 kHz, and no more |
| BitRate.Words | esp_miplay-1.85c/components/gmf_audio/esp_gmf_audio_enc.c:245-281 | what is left of a number in a word of 32 bits, signed or not, or of 16 |
| SeekTime.StrStr | esp_miplay-1.85c/components/custom_dlna/custom_dlna.c:222-242 | the first match of a search |
| SeekTime.FindOpening | esp_miplay-1.85c/components/custom_dlna/custom_dlna.c:213-235 | the end of the opening tag in the order in which its forms are tried |
| SeekTime.XmlGet | esp_miplay-1.85c/components/custom_dlna/custom_dlna.c:211-250 | the text up to the closing tag, cut to the buffer and terminated; -1 changes nothing |
| SeekTime.ParseSeekTarget | esp_miplay-1.85c/components/custom_dlna/custom_dlna.c:253-261 | the three numbers of the Target element, as far as they are there |
| SeekTime.XmlTextOfUnique | esp_miplay-1.85c/components/custom_dlna/custom_dlna.c:211-250 | the only element of its name yields exactly its text, with or without prefix and attributes, in any surroundings |
| SeekTime.OpeningOrder | esp_miplay-1.85c/components/custom_dlna/custom_dlna.c:213-235 | which of several openings is taken: with prefix, with prefix and a space, the bare name and a space anywhere, and only then without prefix |
| SeekTime.ClosingOrder | esp_miplay-1.85c/components/custom_dlna/custom_dlna.c:237-248 | which of several closings: the first with the prefix, wherever it is, and only then the first without |
| SeekTime.NeverClosed | esp_miplay-1.85c/components/custom_dlna/custom_dlna.c:249 | without a closing tag there is no text |
| SeekTime.NoTarget | esp_miplay-1.85c/components/custom_dlna/custom_dlna.c:253-256 | a body without the name asks for -1 |
| SeekTime.LongTarget | esp_miplay-1.85c/components/custom_dlna/custom_dlna.c:255-256 | a longer value is cut to its first 31 characters |
| SeekTime.ParseFmt | esp_miplay-1.85c/components/custom_dlna/custom_dlna.c:264-268 | reading back a printed time gives the seconds |
| SeekTime.FmtShape | esp_miplay-1.85c/components/custom_dlna/custom_dlna.c:264-268 | hours in at least two digits, minutes and seconds below 60 in two each |
| SeekTime.FmtNegative | esp_miplay-1.85c/components/custom_dlna/custom_dlna.c:266 | negative times are printed as none |
| SeekTime.ShortTimes | esp_miplay-1.85c/components/custom_dlna/custom_dlna.c:257-259 | one number is hours, two are hours and minutes |
| SeekTime.OtherSeparator | esp_miplay-1.85c/components/custom_dlna/custom_dlna.c:258 | after a number only a colon leads on to another |
| SeekTime.SignedTimes | esp_miplay-1.85c/components/custom_dlna/custom_dlna.c:258 | white space and a sign may stand before a number |
| SeekTime.FmtFits | esp_miplay-1.85c/components/custom_dlna/custom_dlna.c:255-256 | a printed time fits the 32-byte buffer of the reader |
| SeekTime.SeekRoundTrip | esp_miplay-1.85c/components/custom_dlna/custom_dlna.c:253-268 | a time printed into the only Target element of a body is the time sought, for every non-negative number of seconds |

## Left out

- Sockets, the HTTP server and request, DNS, SSDP, WiFi, mDNS, display, I2S, the audio pipelines and the codec libraries.
- Image decoding and resampling, lyric timing, the JSON lookups of the lyrics client other than the skip over a container and the search in an object.
- The strict and parent-link builds of the tokenizer; `jsmn.h` is not part of this model.
- JsmnParser.Parse: texts and token arrays are shorter than 2^31, so positions and indices do not wrap; a call without a token array is modelled for a parser that has made no tokens, as the code reads the array otherwise.
- JsmnRoundTrip.RoundTrip: object keys are strings, and documents hold complete escapes; other texts the tokenizer takes are covered by the theorems on acceptance and spans.
- JsmnErrors.ErrorsAreExact: the text has no NUL, since nothing after a NUL is read.
- LyricsJson.KeyFound: where a value with a non-empty object is passed, the search goes on inside it, and what it finds depends on the tokens there; `FindIn` says what, and one such object is given.
- SoftVolume.Volume.Set: the conversion from decibels and the floating-point step are parameters: a gain, the step truncated to an integer that is zero or towards the target, and whether the floating-point step is zero; gains above unity (positive decibels) are not covered.
- SoftVolume.Volume.Process: buffers count whole 16-bit samples, so the odd last byte of a muted buffer is not modelled; input and output are the same array or different ones, not overlapping parts of one.
- MiPlayMedia.Player.ConsumeOne: strings fit the stored fields, which have the sizes of the event's fields; the clock is read once per drain; display calls and the album art generation are left out; a song id stays text instead of becoming a number.
- MiPlayMedia.Player.ConsumePending: a queue that could not be created, and the interleaving of other tasks within one step; each callback is atomic.
- MiPlayMedia.Player.OnConnected: everything but the stored media state, such as SSDP, volume and pipelines; the play and pause toggle is not modelled.
- HttpReader.Receive: an error from recv ends the stream like its end; the reader of the HTTPS client is another function and is not modelled.
- Entities: characters stand for bytes; the theorems hold for every character.
- Entities.DecodeRendering: numbers of more than 32 bits, which wrap in the code and in `Entities.ReadReference`, and a plain ampersand directly before a plain hash, which reads as a reference, are excluded.
- Entities.DecodedIsUtf8: reading code points back is stated for ASCII between the references; for other bytes there are the theorems on well-formedness and on the count.
- PlayClock.PositionBound: seek, next and previous, WiFi loss, pipeline events and int overflow of the milliseconds; times are positive and do not run backwards.
- PlayClock.Player.CbSetUri: video addresses, which are refused, a null address, and the title, artist, lyrics and duration that are reset with it.
- PlayClock.Player.DoPlayAt: the retry, the grace period, the deferred seek, and a missing pipeline; whether the pipeline starts is a parameter.
- PlayClock.Player.CbPlay: the grace period, and the detachment from a connected phone.
- PlayClock.Player.CbPause: the branch that forwards to a connected phone, a missing pipeline, and the pending seek that is cancelled.
- PlayClock.Player.CbStop: the grace period, the next track that is forgotten, and the speaker mode.
- BitRate.SbcConfig.SetBitrate: the sample rate is below 2^31, and the values of the channel modes are 0 to 3 in the order mono, dual, stereo, joint; the enumeration is not part of this model. The exact choice is stated when no 32-bit product wraps.
- BitRate.PlainExact: compares the bits of a frame; the rounding of mono and dual frames to bytes, which the code does not compute, is not modelled.
- BitRate.PaddedCeiling: sample rates above 192 kHz, where products wrap.
- BitRate.SbcCeiling: it is about the choice the code makes when no product wraps; the getter of the SBC bit rate rests on a codec library.
- SeekTime.XmlGet: the 80-byte tag buffers, which every tag name in use fits.
- SeekTime.ParseSeekTarget: numbers beyond the int range, whose scanning C leaves undefined.
- SeekTime.SeekRoundTrip: seconds up to 2^31 - 1, the int range; the printer's buffer is large enough.
