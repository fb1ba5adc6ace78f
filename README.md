# Chunked Whisper transcription, modelled in Dafny

This project models the core of echoforge_whisper, a Streamlit application that
transcribes audio with the OpenAI Whisper API. The model covers these parts:

- **Safety checks** that run before a file is sent: a 25 MB size limit, an extension
  allow-list and a check of the first bytes against known audio signatures. Also
  covered are the API-key format check and masking, and filename sanitising.
- **The transcription processor** (`TranscriptionProcessor`). It decides whether a file
  is split and cuts the decoded audio into fixed windows of 300 seconds by default.
  It sends the whole file, or each window, to the remote transcriber with its retry
  policy, and merges the window transcripts as plain text, SRT or WebVTT. It also
  reports progress and cleans up temporary files.
- **The API error layer**: classifying the remote error message, and the decorator that
  turns an exception into `None`.
- **The sliding-window API rate limiter.**
- **Export-state cleanup** of the session.
- **Export helpers**: the Turkish/English language guess, the split of long texts for
  translation, keyword translation, the Excel cell splitter and truncation, the
  three-column keyword grid and the Turkish-letter transliteration.
- **YouTube helpers**: video-id extraction and validation, and the duration label.
- **Upload-tab checks and statistics**: upload validation, speech rate, audio quality,
  word frequency, the analysis-record update and the colour helpers.

There is one module per component:

| module | models |
|---|---|
| `Security` | `SecurityManager` |
| `Chunker` | `FileChunker` |
| `Retry` | the retrying `_call_whisper_api` |
| `Assembler` | the merge and the SRT/VTT time formats |
| `Errors` | `ErrorHandler.handle_api_error` and `error_handler` |
| `Pipeline` | `TranscriptionProcessor` |
| `RateLimiter` | `APIRateLimiter` |
| `Session` | `cleanup_export_states` |
| `Translation`, `ExcelExport` | export_utils.py |
| `YouTube` | youtube_transcriber.py |
| `Upload` | upload_tab.py |
| `Wrappers`, `Text`, `Collections` | shared helpers |

`Text` holds Python's string operations that the model needs: `split`, `strip`,
`lower`, `find`/`rfind` and the integer ↔ decimal-string conversions.

How the outside world is represented:
- **Time** is an integer number of milliseconds.
- **The remote transcriber** is an oracle. `respond(i)(n)` is the outcome of attempt `n`
  on upload `i`, either a transcript or an exception message.
- **Temporary-file creation** is an oracle saying whether the file for upload `i` could
  be written and, when it could not, whether it had already been created on disk.
- **Decoding the audio** gives its length in milliseconds, or nothing when decoding
  fails.
- **Effects** are recorded on a `Host` object: the values passed to the progress
  callback, the sleeps, the set of temporary files still held, and the set of files
  left on disk whose name the program never received.
- **The chat service** used for translation is a function from the user message to the
  reply, with `None` standing for a missing reply or any exception.
- **`st.session_state`** is a map held by a `SessionState` object.
- **The rate limiter** is a class whose three lists are fields that its methods
  reassign.

Two copies of the processor exist:
- utils.py raises on every failure.
- app.py is the copy the application runs. It raises typed errors and wraps
  `process_audio_file` in `error_handler`, so a failure becomes `None`.

`Pipeline.ProcessAudioFile` models the first and `Pipeline.ProcessAudioFileLive` the
second. With the shipped configuration, the split path is unreachable in both: the
security check refuses more than 25 MB, and splitting needs more than 25 MB
(`Pipeline.SplitPathUnreachable`).

## Model

| member | source | states |
|---|---|---|
| Security.SplitExt | utils.py:300 | the stem and the extension put back together give the path, and the extension is empty or a dot followed by no further dot or slash |
| Security.SniffAudio | utils.py:313-318 | the loop over the signatures answers true exactly when the file's first eight bytes begin with one of the five audio signatures |
| Security.SecurityVerdict | utils.py:291-323 | a file is accepted exactly when it is at most 25 MB, has an allowed lower-cased extension and starts with an audio signature; the first failing test gives the reason |
| Security.ValidateFileSecurity | utils.py:291-323 | the verdict the three checks reach, in order, is the one `SecurityVerdict` specifies |
| Security.SignatureOnlyReadsHead | utils.py:313-316 | looking only at the first eight bytes loses nothing: the file starts with a signature exactly when its head does |
| Security.OversizedExeGetsSizeReason | utils.py:295-302 | an oversized file is refused for its size even when its extension is also wrong |
| Security.SimpleExtension | utils.py:300 | for a lower-case name with one dot, the checked extension is the dot and what follows it |
| Security.EmptyBufferFailsAtSignature | utils.py:304-321 | an empty file with an allowed extension passes the size and type checks and is refused as not audio |
| Security.ExeRejectedForType | utils.py:298-302 | a file of allowed size named `.exe` is refused with the unsupported-type reason naming `.exe` |
| Security.ValidateApiKey | utils.py:269-281 | a key is accepted exactly when it starts with `sk-` and has at least 20 characters |
| Security.MaskApiKey | utils.py:284-288 | keys shorter than 8 characters mask to `***`; longer ones show their first 8 characters, `...` and their last 4 |
| Security.ValidKeyMask | utils.py:269-288 | the mask of a valid key still starts with `sk-` and hides at least 8 of its characters |
| Security.ReplaceChar | utils.py:331 | `str.replace` of one character by `_` keeps the length and changes exactly the occurrences of that character |
| Security.ReplaceDangerous | utils.py:329-331 | the nine successive replacements give the same string as replacing each dangerous character by `_` in one pass |
| Security.SanitizeFilename | utils.py:326-338 | no dangerous character survives; a name of at most 100 characters is only cleaned; a longer one keeps the first 90 characters of its stem and its extension |
| Chunker.ShouldChunkIffOverThreshold | utils.py:422-424 | a file is split exactly when its byte size exceeds the threshold times 1 MiB, so a file of exactly the threshold is sent whole |
| Chunker.WindowsFromLayout | utils.py:442-458 | window k starts at k window-lengths, ends at the next boundary or at the end of the audio, and lasts end minus start; there are as many windows as the length needs, rounded up |
| Chunker.WindowsLayout | utils.py:442-458 | the windows cut from the start satisfy that layout |
| Chunker.WindowsTile | utils.py:442-458 | consecutive windows meet, all but the last have the full length, the last is non-empty, and the durations add up to the audio length |
| Chunker.ChunkAudioFile | utils.py:427-469 | a failed decode or a non-positive window length gives no windows; otherwise the windows have that layout and cover the whole audio |
| Chunker.ThousandSecondsInFourWindows | utils.py:442-458 | 1000 s of audio cut in 300 s windows gives three full windows and a final 100 s one |
| Retry.CallWhisper | utils.py:624-664 | the number of attempts is bounded; every attempt but the last raised in a way its tier retries (a rate limit on retry n < 3, any other error on retry n below the configured maximum); a success returns the last attempt's transcript; a rate-limit give-up needs a rate-limit message and a retry count of at least 3; a plain give-up needs a retry count of at least the configured maximum; one sleep follows each failed attempt except a final plain failure, each 5 s after a rate limit and 2^n s after a plain failure on retry n |
| Retry.AttemptsBounded | utils.py:652-664 | a call makes at least one and at most max(3, max_retries)+1 attempts |
| Retry.AlwaysTransient | utils.py:657-664 | a service that always fails with a non-rate-limit message is tried max_retries+1 times with sleeps 1, 2, 4, … s, then gives up with that message |
| Retry.AlwaysTransientShipped | utils.py:657-664 | with 3 retries that means 4 attempts and sleeps of 1, 2 and 4 s |
| Retry.AlwaysRateLimited | utils.py:649-655 | a service that always reports a rate limit is tried until retry 3 and sleeps 5 s after each attempt, including the last |
| Retry.AlwaysRateLimitedFromStart | utils.py:649-655 | from the first attempt that means 4 attempts, four 5 s sleeps and the rate-limit give-up |
| Retry.TwoRateLimitsThenSuccess | utils.py:649-653 | two rate limits and then a transcript give that transcript after two 5 s sleeps |
| Retry.PlainFailureStopsAtCap | utils.py:657-664 | with one retry, two plain failures give up after 2 attempts and one 1 s sleep, even though a third attempt would have succeeded |
| Retry.SharedCounter | utils.py:649-662 | both kinds of failure advance the same retry counter: two plain failures followed by rate limits give up after 4 attempts, sleeping 1, 2, 5 and 5 s |
| Retry.PlainErrorMessage | utils.py:655-664 | the raised message names the kind of give-up and ends with the last error message |
| Retry.LiveError | app.py:684-697 | the app.py copy raises a `RATE_LIMIT` error without details after rate limits, and an `API_ERROR` whose message is the classified answer and whose details are the raw message otherwise |
| Assembler.Fields | utils.py:686-699 | a time splits into hours, minutes under 60, seconds under 60 and milliseconds under 1000 that add back up to it |
| Assembler.FormatTime | utils.py:686-699 | a formatted time has at least 12 characters with `:` separators and the format's millisecond separator in fixed places from the end |
| Assembler.ParseFormatTime | utils.py:686-699 | reading a formatted SRT or VTT time back gives the same number of milliseconds |
| Assembler.FormatTimeInjective | utils.py:686-699 | two different times never print the same |
| Assembler.SrtCues | utils.py:668-674 | one SRT cue is written per window transcript |
| Assembler.VttCues | utils.py:676-682 | one VTT cue is written per window transcript |
| Assembler.SrtCueLayout | utils.py:670-674 | cue k is numbered k+1 and carries window k's times and text |
| Assembler.VttCueLayout | utils.py:678-682 | cue k is window k's start and end time joined by ` --> `, a line break, its text and a blank line |
| Assembler.SrtReadsBack | utils.py:666-674 | reading the merged SRT document back gives one cue per window, numbered from 1, with that window's start, end and text, as long as no text holds a blank line |
| Assembler.VttReadsBack | utils.py:666-682 | reading the merged WebVTT document back after its header gives every window's start, end and text, in order, under the same condition |
| Assembler.AppendCues | utils.py:670-681 | the `result +=` loop yields the header followed by every cue in order |
| Assembler.MergedPlainText | utils.py:684 | any format other than srt or vtt joins the window texts with single spaces |
| Assembler.MergeTimestampedTranscripts | utils.py:666-684 | the merge produces the SRT, VTT or plain-text document the specification function `Merged` describes |
| Errors.ClassifyApiError | app.py:239-254 | each error kind is chosen exactly when its keywords occur in the lower-cased message and no earlier test matched |
| Errors.HandleApiError | app.py:239-254 | the answer starts with the icon of the message's kind; the generic answer repeats the message |
| Errors.IconsDiffer | app.py:243-254 | the six answers start with six different icons |
| Errors.AnswersTellKindsApart | app.py:243-254 | messages of different kinds never receive the same answer |
| Errors.EarlierTestWins | app.py:243-254 | a message mentioning 401 is an invalid-key error whatever else it mentions, and a network answer needs a network keyword |
| Errors.Guarded | app.py:256-267 | the decorated call returns nothing exactly when the wrapped call raised, and the wrapped value otherwise |
| Pipeline.CallWhisperApi | utils.py:624-664 | the call returns what the retry schedule decides and sleeps exactly its delays, touching nothing else |
| Pipeline.ProcessSingleFile | utils.py:507-548 | progress 30 is reported first; a temporary-file failure raises before any call; a success reports 60 and 100 and returns the transcript with one chunk; a failed call stops after 60; the temporary file is released on every path; one file is left on disk exactly when it was created and its write failed |
| Pipeline.ProcessWindow | utils.py:575-602 | a window is kept exactly when its temporary file was written and the call succeeded, and its temporary file is released on every path; a file created but not written stays on disk |
| Pipeline.ReportAndProcess | utils.py:570-602 | one loop step reports 25 + 60·i/n and then handles window i |
| Pipeline.TranscribeWindows | utils.py:565-602 | the loop keeps the successful windows in order, reports the progress ramp, sleeps every window's retry delays, and leaves one file on disk per window created but not written |
| Pipeline.SurvivorsAreSuccesses | utils.py:568-602 | the kept transcripts are exactly those of the windows whose call succeeded, in window order, each with its window's start, end and duration |
| Pipeline.RampRises | utils.py:571-573 | the per-window progress values strictly increase and stay in [25, 85) |
| Pipeline.SplitProgressNeverCompletes | utils.py:556-605 | on the split path progress never goes backwards, ends at 90 and never reaches 100 |
| Pipeline.ProcessLargeFile | utils.py:550-622 | the result counts every window, counts the kept ones, merges the kept transcripts in the requested format, reports 20, 25, the ramp and 90, and leaves one file on disk per window created but not written |
| Pipeline.DecodeFailureIsNotAnError | utils.py:465-469 | audio that cannot be decoded gives zero windows and an empty transcript (`WEBVTT` header alone for VTT) rather than an error |
| Pipeline.ProcessAudioFile | utils.py:484-505 | an unsafe file is refused with the security reason with no progress and no sleep; an accepted file reports 10 and then gets exactly the outcome, the progress values, the sleeps and the files left on disk of the path its size chooses |
| Pipeline.TranscribeAccepted | utils.py:501-505 | after the safety check the size alone chooses the path; the result, the progress values, the sleeps and the files left on disk are those of that path |
| Pipeline.TranscriptionShape | utils.py:501-548 | the split path always succeeds, with a chunk count and at most that many kept chunks, and never reports 100; the single path succeeds exactly when the temporary file is written and the call succeeds, returns that call's transcript as one chunk, and reports 100 exactly then |
| Pipeline.SplitPathUnreachable | app.py:509-517 | with the shipped threshold of 25 MB no file that passed the 25 MB security check is ever split |
| Pipeline.ProcessAudioFileLive | app.py:497-569 | the running copy returns a report exactly when the file is safe, its temporary file is written and the call succeeds; that report is the call's transcript as one chunk; on every path the progress is nothing for a rejected file and otherwise 10 then 30, 60 once written, 100 once transcribed; the sleeps are the call's whenever the file is written and none otherwise; one file is left on disk exactly when a safe file's temporary file was created but not written |
| Pipeline.Host.CreateTemp | utils.py:228-237 | a handle is returned exactly when the write succeeds and is then held; a file created but not written is added to the files left on disk, with no handle |
| Pipeline.NoLeakIffNoFailedWrite | app.py:596-598 | no window leaves a file behind exactly when no window's file is created and then fails its write |
| Pipeline.LeaksOnlyOnFailedWrites | app.py:531-569 | on the single path a file is left behind exactly when the run fails with the temporary-file error after the file was created; on the split path exactly when some window's write fails after its file was created |
| Pipeline.WriteFailureLeaks | app.py:531-569 | a file created but not written makes the single path fail with the temporary-file error and leaves one file on disk |
| Pipeline.Host.CreateTempOrRemove | utils.py:228-237 | the write as evidently intended: a handle exactly when the write succeeds, and no file left on disk on any outcome |
| Pipeline.WriteFailureRemoved | utils.py:228-237 | with the corrected write the same failure leaves nothing on disk |
| RateLimiter.After | app.py:357-364 | pruning keeps exactly the timestamps newer than the cutoff, in order |
| RateLimiter.EntriesAfter | app.py:360 | pruning the token log keeps exactly the entries newer than the cutoff |
| RateLimiter.AfterKeepsMultiplicity | app.py:357-364 | a timestamp newer than the cutoff is kept as many times as it was logged, an older one not at all |
| RateLimiter.EntriesAfterKeepsMultiplicity | app.py:360 | the same holds for each token entry |
| RateLimiter.AfterSingleton | app.py:357-364 | one timestamp is kept exactly when it is newer than the cutoff |
| RateLimiter.EntriesAfterSingleton | app.py:360 | one token entry is kept exactly when its time is newer than the cutoff |
| RateLimiter.EntriesAfterAppend | app.py:360 | pruning a token log that had entries appended prunes the old part and the new part separately, so order is kept |
| RateLimiter.Earliest | app.py:368 | the wait is measured from the oldest request in the window |
| RateLimiter.Decide | app.py:366-380 | a request may proceed exactly when the minute count, the daily count and the minute's tokens plus the estimate are all within their limits; the first failing test in the order requests, daily, tokens gives the refusal, with the wait measured from the oldest minute entry; `min` of an empty list is reached exactly in the two cases that evaluate it with nothing logged |
| RateLimiter.AfterIdempotent | app.py:403-405 | pruning twice with the same cutoff is pruning once |
| RateLimiter.AfterAppend | app.py:357-364 | pruning a log that had requests appended prunes the old part and the new part separately |
| RateLimiter.OversizedRequestOnIdleWindowRaises | app.py:374-377 | an estimate above the token limit, with no token entries in the last minute, reaches `min` of an empty sequence |
| RateLimiter.APIRateLimiter.constructor | app.py:333-349 | the limits are stored and the three logs start empty |
| RateLimiter.APIRateLimiter.CanMakeRequest | app.py:351-380 | the logs are pruned to the last minute and day, and the decision is `Decide` on the pruned logs |
| RateLimiter.APIRateLimiter.RecordRequest | app.py:382-393 | the time is appended to both request logs and the token entry to the token log |
| RateLimiter.APIRateLimiter.GetUsageStats | app.py:395-420 | the logs are pruned; a zero limit raises the division error; otherwise the counts, the minute's token sum, the limits and each count as a percentage of its limit are reported |
| RateLimiter.APIRateLimiter.RateLimitedRequest | app.py:422-439 | a refused request records nothing beyond the pruning of its check; an allowed one records max(estimate, elapsed seconds·100) tokens at its end time, and the request counts never exceed their limits |
| Session.PrefixKeysDistinct | app.py:853-865 | the fourteen prefixes give fourteen different keys for the same file index |
| Session.DoomedForIndex | app.py:862-867 | cleaning one index removes only present export keys ending in that index, and at most fourteen |
| Session.KeysForIndex | app.py:862-867 | the collected list has no repeats and holds exactly the present `prefix + index` keys |
| Session.AllExportKeys | app.py:868-872 | the collected list has no repeats and holds exactly the present keys that start with a listed prefix |
| Session.VisitKey | app.py:870-872 | one loop step adds the key exactly when it is an export key |
| Session.SessionState.CleanupExportStates | app.py:851-881 | the session loses exactly the doomed keys, everything else is kept, and the count returned is the number removed |
| Translation.DetectLanguage | export_utils.py:125-148 | the answer is "tr" or "en": "tr" whenever a Turkish letter occurs; without one, "tr" exactly when the text has words and the listed words found in it are more than a tenth of its word count |
| Translation.OneInTenIsNotEnough | export_utils.py:143-146 | one listed word among ten words gives "en", one among nine gives "tr", for both ways of counting |
| Translation.BlankTextIsEnglish | export_utils.py:142-148 | empty or whitespace-only text without Turkish letters is English |
| Translation.OInsideAWordMakesTurkish | export_utils.py:142-146 | any two-word text containing the letter o is guessed Turkish, because the listed word "o" is matched inside words |
| Translation.HelloWorld | export_utils.py:142-146 | "hello world" is guessed Turkish by the code as written and English by the whole-word count |
| Translation.DetectLanguageWholeWords | export_utils.py:142-146 | the whole-word guess gives "tr" or "en": "tr" whenever a Turkish letter occurs; without one, "tr" exactly when listed words are more than a tenth of the words |
| Translation.WholeWordsIgnoreInnerMatches | export_utils.py:142-146 | with whole-word matching, listed words hidden inside other words no longer make a text Turkish |
| Translation.FixedPieces | export_utils.py:42-43 | the pieces are non-empty, at most 4000 characters, all but the last exactly 4000, and there are none only for an empty text |
| Translation.FixedPiecesConcat | export_utils.py:43 | the pieces put back together give the text |
| Translation.TranslateOnce | export_utils.py:60-122 | the stripped reply is returned when there is one and it is not blank; otherwise the text comes back unchanged |
| Translation.TranslateAll | export_utils.py:46-53 | each piece is translated on its own, in order |
| Translation.TranslateText | export_utils.py:24-122 | the method, with its loop over pieces, returns what `Translated` specifies |
| Translation.TranslateLong | export_utils.py:40-58 | a text over 15000 characters becomes its 4000-character pieces, each translated, joined by single spaces |
| Translation.TranslateEach | export_utils.py:46-53 | the loop over the pieces yields each piece's translation, in order |
| Translation.TranslatePiece | export_utils.py:46-53 | a piece goes through the short-text path of `translate_text` |
| Translation.ShortTranslated | export_utils.py:40 | a text of at most 15000 characters is never split |
| Translation.SilentServiceKeepsText | export_utils.py:35-58 | when the service never answers, a short text comes back unchanged and a long one comes back as its pieces joined by spaces |
| Translation.KeywordsAfterTranslation | export_utils.py:255-271 | the list keeps its length and order: the first five keywords are translated, the rest are kept |
| Translation.TranslateKeywords | export_utils.py:255-271 | the loop builds exactly that list |
| Translation.TranslateEachKeyword | export_utils.py:257-265 | each of the given keywords is replaced by its translation, in order |
| ExcelExport.LastBreakBefore | export_utils.py:951 | `rfind` finds a blank-line break that ends before the limit, with none after it, or reports none |
| ExcelExport.CutPoint | export_utils.py:950-953 | the cut is at the last break before the limit, or at the limit when there is none |
| ExcelExport.Remainder | export_utils.py:955 | what is left after a cut is strictly shorter, so the loop ends |
| ExcelExport.Pieces | export_utils.py:945-955 | every part fits in a 32767-character cell, and a non-empty text gives at least one part |
| ExcelExport.TranscriptCells | export_utils.py:941-961 | every cell fits, and a text that fits stays in one cell |
| ExcelExport.SplitTranscript | export_utils.py:941-959 | the `while` loop produces the cells `TranscriptCells` specifies |
| ExcelExport.PiecesKeepText | export_utils.py:945-955 | the parts together hold the text's non-blank characters in order; only whitespace removed by `lstrip` is lost |
| ExcelExport.TranscriptCellsKeepText | export_utils.py:941-961 | the cells together hold all the text's non-blank characters, in order |
| ExcelExport.LaterPiecesStartWithText | export_utils.py:955 | every part after the first starts with a non-blank character |
| ExcelExport.FirstPieceStartsWithText | export_utils.py:954 | a text that starts with a non-blank character keeps it at the head of the first part |
| ExcelExport.LeadingBreakGivesEmptyCell | export_utils.py:951-954 | a long text whose only early break is at position 0 yields an empty first cell |
| ExcelExport.CellText | export_utils.py:980-981 | a cell text fits: short texts are kept, longer ones become exactly 32767 characters ending in `...` |
| ExcelExport.CellTextIdempotent | export_utils.py:1006-1007 | truncating a truncated text changes nothing |
| ExcelExport.KeywordRows | export_utils.py:712-716 | the keywords fill rows of exactly three cells in order, padded with empty strings, in as many rows as a third of the list rounded up |
| ExcelExport.Transliterate | export_utils.py:694-702 | the length is kept, no Turkish letter remains, and every other character is unchanged |
| ExcelExport.TransliterateKeepsPlainText | export_utils.py:694-702 | text without Turkish letters is unchanged |
| YouTube.FirstValue | youtube_transcriber.py:27 | a value is found exactly when some field has the name and a non-empty value, and it is the value of the first such field |
| YouTube.ExtractId | youtube_transcriber.py:22-34 | the watch test comes first and reads `v` from the query, or nothing when the URL cannot be parsed; then the short-link test, then the embed test, each giving the text after the last marker up to its first `?` or its end; any other URL gives nothing |
| YouTube.CutIsUnique | youtube_transcriber.py:29-31 | cutting at the first `?` pins down a single id |
| YouTube.ValidateUrl | youtube_transcriber.py:36-45 | a URL passes exactly when an id of 11 characters is extracted; a missing or empty id and an id of another length get their own messages |
| YouTube.WatchLinkId | youtube_transcriber.py:25-27 | a watch link returns the id it carries |
| YouTube.WatchLinkValid | youtube_transcriber.py:36-45 | a watch link with an 11-character id is valid and yields that id |
| YouTube.BracketLinkRaises | youtube_transcriber.py:26 | parsing a link whose host has an unclosed `[` raises |
| YouTube.UnclosedBracketGivesNone | youtube_transcriber.py:25-34 | so extraction returns nothing for it |
| YouTube.ShortLinkId | youtube_transcriber.py:28-29 | a short link returns the id before its parameters |
| YouTube.EmbedLinkId | youtube_transcriber.py:30-31 | an embed link returns the id before its parameters |
| YouTube.DurationText | youtube_transcriber.py:244-245 | the label is "Bilinmiyor" exactly when the length is missing or zero |
| YouTube.DurationReadsBack | youtube_transcriber.py:245 | the label is minutes, a colon and two-digit seconds that add back up to the length |
| YouTube.DurationTextInjective | youtube_transcriber.py:245 | different lengths get different labels |
| Upload.ValidateUpload | upload_tab.py:585-600 | an upload passes exactly when it is at most 25 MB and its extension is listed; size is checked first |
| Upload.PlainNameExtensions | upload_tab.py:595 | for a plain lower-case name both checks read the same extension, with and without its dot |
| Upload.ListedForSecurityOnly | config.py:958 | `flac` and `ogg` pass the security allow-list but not the upload allow-list |
| Upload.SecurityAcceptsWhatUploadRefuses | upload_tab.py:585-600 | a small FLAC or OGG file with a proper signature passes the security check and is refused by the upload check |
| Upload.NoSentenceIffOnlyDots | upload_tab.py:788 | the sentence count is zero exactly when the text holds only dots and whitespace |
| Upload.WordsPerMinute | upload_tab.py:791-795 | the rate is zero without a positive duration, and otherwise words per minute of duration |
| Upload.SpeechRate | upload_tab.py:816-817 | Normal exactly from 120 to 180 words per minute, Hızlı above, Yavaş below |
| Upload.AudioQuality | upload_tab.py:818-819 | Yüksek exactly above −12 dB, Orta above −20 dB, Düşük otherwise |
| Upload.SpeedCategory | utils.py:940-949 | the four speed labels split the rate at 120, 160 and 200 |
| Upload.ScalesDisagree | upload_tab.py:816-817 | the two rate scales disagree: 170 words per minute is Normal here and fast on the other scale |
| Upload.Kept | upload_tab.py:835-839 | kept words are longer than two characters and are not stopwords |
| Upload.KeptPrefix | upload_tab.py:836-839 | the words kept from the start of the text are the start of the kept list |
| Upload.KeptWord | upload_tab.py:836-839 | every counted word is kept, cleaned, right after the words kept before it |
| Upload.KeptInOrder | upload_tab.py:836-839 | a counted word comes after every earlier kept word |
| Upload.KeptFrom | upload_tab.py:836-839 | every kept word is the cleaned form of a counted word of the text, at the position its predecessors give it |
| Upload.CleanWords | upload_tab.py:835-839 | the loop keeps exactly those words, in order |
| Upload.UniqueCount | upload_tab.py:846 | the unique-word count is the number of distinct kept words |
| Upload.MostCommonOf | upload_tab.py:842 | as many entries as asked or available, each a candidate with its true count, no word twice, counts non-increasing, no candidate left out occurring more often than a listed one, and every candidate listed when enough are asked for |
| Upload.MostCommon | upload_tab.py:842 | at most ten entries, each a kept word with its true count, no word twice, counts non-increasing, every kept word listed when fewer than ten are returned, and no omitted word more frequent than a listed one |
| Upload.Richness | upload_tab.py:847 | vocabulary richness lies in [0, 1] and is positive for a non-empty word list |
| Upload.AdditionsOnlyAdd | upload_tab.py:798-848 | the update adds its keys and leaves every other entry as it was |
| Upload.FrequencyOnlyForLongTexts | upload_tab.py:824-848 | word frequency is added exactly when the text has more than ten words |
| Upload.AnalysisRecord.Enhance | upload_tab.py:780-853 | a duration or dB reading that cannot be compared with a number, or a file size that cannot be divided, raises inside the `try` and leaves the record as it was; otherwise the statistics, metadata and quality entries, and the frequency entry for long texts, are merged in |
| Upload.EmotionColor | upload_tab.py:1425-1439 | a listed emotion gets its colour and any other gets the neutral grey |
| Upload.UnknownLooksNeutral | upload_tab.py:1439 | an unknown emotion looks exactly like Nötr |
| Upload.SentimentColor | upload_tab.py:1442-1449 | green exactly from 0.5 up, red exactly at −0.5 and below, orange strictly between |

## Left out

- **Exact SRT/VTT seconds:** the real formatter works on float seconds; times here are
  integer milliseconds. VTT rounds with `06.3f` and so prints a whole-millisecond time
  exactly. SRT truncates `(seconds % 1) * 1000` and can lose a millisecond even then:
  a 1001 ms audio has an end time of 1.001 s (utils.py:456), and
  `int((1.001 % 1) * 1000)` is 0 in floating point (utils.py:691), so SRT prints
  `00:00:01,000` where the model prints `00:00:01,001`.
- **File sizes:** the upload-tab statistics and `file_size_mb` use float division; the
  model uses exact rationals.
- **`detect_language` ratio:** the float test `count/total > 0.1` is compared exactly.
- **Rate limiter clock:** `time.time()` is an integer millisecond parameter, so waits
  and the usage percentages of `get_usage_stats` are exact rationals instead of floats.
  The wait messages shown to the user are not modelled.
- **Locks, UI, logging:** the limiter's locks, Streamlit messages, logging and
  `gc.collect` are left out.
- **Not in the report:** `processing_time` and `file_size_mb`.
- **Fixed pauses:** the 0.5 s and 0.2 s sleeps between translation calls.
- **No-exception branches:** temporary-file removal is assumed not to raise. The
  `except` that returns "auto" in `detect_language` is left out, since none of its
  operations can raise on a string.
- **Progress callback:** it is assumed present. Without one, only the recorded progress
  values disappear.
- **Remote call arguments:** the language and `response_format` passed to the API only
  change what the oracle answers.
- **Deterministic services:** the chat service and `Remote.respond` are functions, so
  the same piece sent twice always gets the same translation or answer. The real
  services do not promise this.
- **URL parsing:** `urlparse` is modelled on scheme removal, the network location, the
  unclosed-bracket `ValueError` and the query before `#`. Percent-decoding in
  `parse_qs`, the validation of bracketed IPv6 hosts and the NFKC check of the network
  location are not modelled.
- **Lowercasing** covers ASCII, Latin-1 and the Turkish letters, not all of Unicode.
  `os.path.splitext` follows the POSIX rules.
- **Excel and PDF rendering:** row numbering, word and character count cells, and all
  PDF/Word/QR/ZIP output around the modelled helpers are left out.
- **Audio info:** a `duration`, `avg_db` or `file_size_bytes` that is not a number is
  reduced to one "cannot compare" reading, since comparing or dividing it raises and
  makes `_enhance_ai_analysis` leave the record as it was. `sample_rate` and
  `channels` are only copied and are modelled as integers.
- **Counter ties:** `Counter.most_common` orders words of equal count by first
  occurrence, which `MostCommonOf` models by taking the first best candidate.
- **Chunk audio:** the audio data of each window is not modelled, only its position.
  Decoding failures and a missing pydub appear only as "no windows". The temporary file
  `chunk_audio_file` writes for decoding is not on the `Host`, so a leak of that file
  after a failed write is not recorded.
- **Leaking write kept:** the processing members keep the write as the code has it, so
  they leave a file on disk after a failed write; the corrected write,
  `Pipeline.Host.CreateTempOrRemove`, is not used by them.
- Upload.CountNonBlank: only bounds the count by the number of pieces; what it counts
  is pinned down by `Upload.NoSentenceIffOnlyDots`.

## Findings

| source | as written | input that shows it | evidently intended | confidence | as-written member | corrected member |
|---|---|---|---|---|---|---|
| utils.py:228-237 | `NamedTemporaryFile(delete=False)` creates the file before `write` runs; when the write or the flush on close raises, the name is never stored, `None` is returned and nothing removes the file (the same holds for the inline copies at app.py:533-535 and app.py:597-599, whose `except` sees `temp_path` still `None`) | a disk that fills up during `tmp_file.write(file_bytes)` | remove the created file before giving up | not executed | Pipeline.WriteFailureLeaks | Pipeline.Host.CreateTempOrRemove |
| export_utils.py:142 | listed Turkish words are counted when they occur anywhere in the lower-cased text, inside other words included; the single-letter word "o" matches almost any English text | "hello world": "o" occurs in "hello", so 1 of 2 words is counted and the text is guessed Turkish | count a listed word only when it is one of the text's words | not executed | Translation.HelloWorld | Translation.WholeWordsIgnoreInnerMatches |
