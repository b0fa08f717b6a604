# Triliumbot core, modelled in Dafny

Triliumbot is a Telegram bot that writes each message it receives into the
day's diary note on a Trilium server. Voice messages are transcribed first
by Doubao's streaming speech recogniser. This project models the bot's core
and proves properties of that model:

- **`AsrFrame`**: the recogniser's binary frame codec. It covers:
  - the 4-byte nibble-packed header;
  - the big-endian length field;
  - the full-request and audio-packet frames;
  - the request parameters;
  - the decoder for server frames.
- **`AsrChunking`**: how audio is cut into 3200-byte packets.
- **`AsrClient`**: the recognition session `recognize_file`. It runs over a scripted socket that holds:
  - a queue of inbound outcomes;
  - a queue of send outcomes;
  - a log of the frames it accepted;
  - counters for closes and receives.

  `DoubaoAsrClient` is a class whose `ws` field is set by `Connect` and cleared by `Close`. Its methods are proved equal to the functions `Recognize`, `Stream` and `Drain`, and the lemmas state what those functions guarantee.
- **`TextUtils`**, from `utils.py`: hashtag extraction, filename sanitising, message composition and the diary date and title.
- **`MessageFormatter`**: the per-kind diary entry layouts, the smart hashtags and the separator.
- **`TriliumContent`**: the pure parts of the Trilium client:
  - URL normalisation;
  - the date-attribute lookup;
  - attachment HTML;
  - the upload's MIME fallback and branch;
  - diary-entry appending;
  - the content default.
- **`ErrorHandling`**:
  - the `ErrorReporter` counters with their 300-second suppression window;
  - the bounded `retry_sync` loop;
  - `safe_execute`;
  - the exception classification of the decorators.
- **`AppConfig`**: the settings taken from the environment, and `validate_config`.
- **`AsrKeyCheck`**: the key-format rules of the ASR test tool and its gating.
- **`AudioDiagnosis`**: the compatibility verdict on an `ffprobe` report, the conversion offer and the converted file name.

Some things are parameters rather than modelled:
- Python's Unicode `\w` and `str.isdigit` are character predicates (`isWord`, `isDigit`).
- `str.lower` in the Trilium error decorator is a parameter `lower`.
- The JSON parser and serializer of the ASR client are `parse` and `serialize`.
- `_format_file_size` is `formatSize`.
- Times are passed in: clock strings for entries, and integer microseconds for the error reporter.

## Model

| member | source | states |
|---|---|---|
| AsrFrame.Pack | asr/doubao_asr_client.py:248-253 | packing two nibbles into a byte is undone by reading the high and low nibble back |
| AsrFrame.BuildHeader | asr/doubao_asr_client.py:234-253 | the header is exactly 4 bytes; byte 0 is 0x11 (version 1, header size 1); the type and flags, then the serialization and compression, read back from bytes 1 and 2 as the decoder reads them; byte 3 is 0 |
| AsrFrame.U32BE | asr/doubao_asr_client.py:302-303 | the 4-byte big-endian length field reads back as the length it encodes |
| AsrFrame.EncodeFrame | asr/doubao_asr_client.py:302-303 | a frame is the header, the length and the payload: 8 + len bytes, the header first, and a length field equal to the payload's length; a payload of 2^32 bytes or more cannot be framed |
| AsrFrame.FullRequestFrameLayout | asr/doubao_asr_client.py:294-303 | the full request is type 1, flags 0, JSON serialization and no compression, with the payload behind an exact length field |
| AsrFrame.AudioFrameLayout | asr/doubao_asr_client.py:327-338 | an audio packet is type 2, with no serialization and no compression; its flags are 2 exactly when it is the last packet, and 0 otherwise |
| AsrFrame.BuildRequestParams | asr/doubao_asr_client.py:267-288 | the parameters are always 16000 Hz, 16 bits, 1 channel and model "bigmodel"; the codec "opus" is present if and only if the format is "ogg"; 3200 bytes are 100 ms of that audio |
| AsrFrame.DecodeServerFrameAccepts | asr/doubao_asr_client.py:350-405 | decoding succeeds exactly for frames of at least 12 bytes that are not type 15 and whose size field fits in the bytes after offset 12; the payload is then exactly `data[12:12+size]` |
| AsrFrame.DecodeServerFrameRoundTrip | asr/doubao_asr_client.py:380-398 | a non-error server frame with a sequence number decodes to its payload, whatever bytes follow it |
| AsrFrame.DecodeServerFrameRejectsErrors | asr/doubao_asr_client.py:372-377 | an error frame (type 15) yields no response |
| AsrFrame.DecodeServerFrameRejectsTruncation | asr/doubao_asr_client.py:361-363 | every strict prefix of a server frame yields no response, including prefixes of 8 to 11 bytes where the size cannot be read |
| AsrChunking.ChunkCount | asr/doubao_asr_client.py:115-116 | the count is ceil(n/3200): zero exactly for an empty buffer, and the chunks just cover n |
| AsrChunking.Chunk | asr/doubao_asr_client.py:121-124 | chunk i is `data[i*3200 : min(i*3200+3200, n)]` and holds between 1 and 3200 bytes |
| AsrChunking.ChunksFrom | asr/doubao_asr_client.py:121-124 | the chunks from index i on, in order |
| AsrChunking.ChunksFromCover | asr/doubao_asr_client.py:121-124 | the chunks from i on, joined, are the buffer from `i*3200` on |
| AsrChunking.ChunksCoverBuffer | asr/doubao_asr_client.py:115-126 | all chunks joined are exactly the audio buffer |
| AsrChunking.OnlyFinalChunkIsLast | asr/doubao_asr_client.py:126 | exactly one chunk is flagged last, or none for an empty buffer |
| AsrChunking.EightThousandBytes | asr/doubao_asr_client.py:115-126 | 8000 bytes become chunks of 3200, 3200 and 1600 bytes, and only the third is last |
| AsrClient.AfterSend | asr/doubao_asr_client.py:341 | a send logs the frame exactly when it goes through, and leaves the inbound script and the counters alone |
| AsrClient.AfterRecv | asr/doubao_asr_client.py:359 | a receive takes at most the first scripted outcome and counts one receive |
| AsrClient.PacketFrames | asr/doubao_asr_client.py:121-130 | there is one audio frame per chunk, in order |
| AsrClient.Payloads | asr/doubao_asr_client.py:337-338 | the payload of each frame, in order |
| AsrClient.PacketFramesCarryAudio | asr/doubao_asr_client.py:115-130 | the audio frames' payloads, joined, are the whole buffer; only the final frame has the last-packet flag |
| AsrClient.PacketFrameAt | asr/doubao_asr_client.py:122-130 | the packet the loop cuts and frames at index i is frame i |
| AsrClient.ReceiveStep | asr/doubao_asr_client.py:138-146 | the text one receive returns is the one the overwrite rule takes from the outcome it consumed |
| AsrClient.DrainCloses | asr/doubao_asr_client.py:157-180 | draining sends nothing and closes the socket exactly once |
| AsrClient.DrainConsumes | asr/doubao_asr_client.py:162-164 | draining takes inbound outcomes only from the front of the script |
| AsrClient.DrainReceives | asr/doubao_asr_client.py:160-164 | draining makes at least one and at most 5 receives |
| AsrClient.DrainTakes | asr/doubao_asr_client.py:160-176 | the outcomes the drain's receives consume are exactly `DrainTaken`: one per attempt, up to and including the one that stops it |
| AsrClient.DrainFails | asr/doubao_asr_client.py:162-166 | a drain fails if and only if one of the replies it takes has a `result` whose text cannot be read |
| AsrClient.DrainStopRule | asr/doubao_asr_client.py:160-176 | a drain that does not fail takes at most 5 outcomes; every one but the last is a reply without text; it stops on a missing response or a text, on an exhausted script, or after its 5th attempt |
| AsrClient.DrainFirstTextWins | asr/doubao_asr_client.py:160-187 | over the outcomes the drain consumed: it fails if and only if one of them raises; otherwise its result is their latest non-empty text (so the first one, since it stops there) and it stops as `DrainStopRule` says |
| AsrClient.DrainOnSilence | asr/doubao_asr_client.py:174-176 | a missing response ends the drain after one receive, with no transcript |
| AsrClient.PacketStepFacts | asr/doubao_asr_client.py:130-155 | a packet's pass either fails after a refused send, or sends the frame and receives once; it finishes the session only on failure or on text with the last packet, closing once |
| AsrClient.PacketStepFails | asr/doubao_asr_client.py:130-155 | a packet's pass fails if and only if its send is refused or its reply's `result` cannot be read; a refused send closes without a receive; a missing response keeps the saved text and goes on |
| AsrClient.StreamStep | asr/doubao_asr_client.py:121-155 | streaming is each packet's pass, in order, until one finishes the session |
| AsrClient.StreamCloses | asr/doubao_asr_client.py:121-187 | streaming closes the socket exactly once, on every path, and draining sends nothing |
| AsrClient.StreamConsumes | asr/doubao_asr_client.py:138 | streaming takes inbound outcomes only from the front of the script |
| AsrClient.StreamReceives | asr/doubao_asr_client.py:121-176 | streaming makes at most one receive per packet plus the 5 of the drain |
| AsrClient.StreamSendsInOrder | asr/doubao_asr_client.py:121-133 | streaming sends only a prefix of the remaining frames, in order |
| AsrClient.StreamSendsAll | asr/doubao_asr_client.py:121-133 | a stream that does not fail has sent every remaining frame, in order |
| AsrClient.StreamSendsAllPast | asr/doubao_asr_client.py:121-155 | the same, for a packet after which streaming continues |
| AsrClient.StreamFails | asr/doubao_asr_client.py:121-187 | streaming fails if and only if fewer frames were accepted than packets remained, or a reply it consumed has a `result` that cannot be read; a missing response never fails it |
| AsrClient.StreamFailsPast | asr/doubao_asr_client.py:121-155 | the same, for a packet after which streaming continues |
| AsrClient.StreamFailsLast | asr/doubao_asr_client.py:130-155 | the same, for a packet that ends the session |
| AsrClient.StreamLatestWins | asr/doubao_asr_client.py:121-187 | a stream that does not fail yields the latest non-empty text among all the responses it received, starting from the saved text: each non-empty text replaces the previous one and is never appended to it |
| AsrClient.RecognizeClosesOnce | asr/doubao_asr_client.py:78-192 | a missing file or a refused connection fails with the socket untouched: nothing sent, received or closed; every connected session closes exactly once, after at most 1 + chunks + 5 receives |
| AsrClient.RecognizeFails | asr/doubao_asr_client.py:63-192 | a session fails if and only if the file is missing, the connection is refused, the request frame cannot be built or sent, no first response arrives, an audio frame is refused, or a reply after the first response has a `result` that cannot be read; the first response's contents never fail it |
| AsrClient.RecognizeSuccess | asr/doubao_asr_client.py:63-187 | a session that succeeds had its request sent and a first response; it sent the full request and then every audio frame in order; its result is the latest non-empty text after the first response, which is required but not read for text |
| AsrClient.ScriptedSocket.Send | asr/doubao_asr_client.py:341 | the socket's send: its outcome and the new socket state are those of `AfterSend` |
| AsrClient.ScriptedSocket.Recv | asr/doubao_asr_client.py:359 | the socket's receive: it returns the next scripted outcome, or a timeout when none is left |
| AsrClient.ScriptedSocket.Close | asr/doubao_asr_client.py:228 | closing the socket counts one close |
| AsrClient.DoubaoAsrClient.constructor | asr/doubao_asr_client.py:50-61 | the client keeps its credentials and its connection id, and starts without a connection |
| AsrClient.DoubaoAsrClient.Connect | asr/doubao_asr_client.py:196-222 | `ws` is set exactly when the service accepts the connection, and is left alone otherwise |
| AsrClient.DoubaoAsrClient.Close | asr/doubao_asr_client.py:224-232 | closes an open connection once and clears `ws`; a second call changes nothing |
| AsrClient.DoubaoAsrClient.SendFullRequest | asr/doubao_asr_client.py:255-312 | sends the full-request frame of the request parameters, and reports whether it went out |
| AsrClient.DoubaoAsrClient.SendAudioPacket | asr/doubao_asr_client.py:314-348 | sends the audio frame of one chunk, and reports whether it went out |
| AsrClient.DoubaoAsrClient.ReceiveResponse | asr/doubao_asr_client.py:350-405 | one receive, decoded and parsed; a timeout, a socket failure, an unusable frame or a payload that is not JSON gives no response |
| AsrClient.DoubaoAsrClient.RecognizeFile | asr/doubao_asr_client.py:63-192 | the result and the socket afterwards are those of `Recognize`, and the connection is cleared |
| AsrClient.DoubaoAsrClient.StreamAudio | asr/doubao_asr_client.py:114-187 | the packet loop and what follows it agree with `Stream` from packet 0 |
| AsrClient.DoubaoAsrClient.StreamPacket | asr/doubao_asr_client.py:121-155 | one pass of the packet loop agrees with `PacketStep`: it either finishes the call or carries the saved text on |
| AsrClient.DoubaoAsrClient.TakeReply | asr/doubao_asr_client.py:138-155 | the receiving half of a pass agrees with `ReplyStep` |
| AsrClient.DoubaoAsrClient.FinishStream | asr/doubao_asr_client.py:157-187 | after the last packet it returns the saved text, or drains when none was saved, and then closes |
| AsrClient.DoubaoAsrClient.AwaitFinalResult | asr/doubao_asr_client.py:157-187 | the drain loop agrees with `Drain`: at most 5 receives, stopping early on text or on no response, then one close |
| TextUtils.WordRun | utils.py:28 | the longest run of word characters at the front of a string |
| TextUtils.WordRunUnique | utils.py:28 | that run is the only maximal one |
| TextUtils.Hashtags | utils.py:26-29 | every tag found is a non-empty run of word characters |
| TextUtils.TagsHaveNoHash | utils.py:26-29 | no tag contains '#' |
| TextUtils.NoHashNoTags | utils.py:26-29 | text without '#' has no tags |
| TextUtils.HashtagsAppend | utils.py:26-29 | tags are found left to right: after a separator, the tags of a joined text are those of each part, in order |
| TextUtils.HashtagsAppendAtTag | utils.py:26-29 | the same, for a first part that starts with a tag |
| TextUtils.SkipNonHash | utils.py:26-29 | a leading character other than '#' adds no tag |
| TextUtils.SingleTag | utils.py:26-29 | "#" followed by a tag yields exactly that tag |
| TextUtils.TagListRoundTrip | utils.py:46 | reading the tags back from the "#a, #b" list gives the list in order |
| TextUtils.LabelledTagList | utils.py:46 | the same after a label that holds no '#' |
| TextUtils.SanitizeFilename | utils.py:22-24 | the result keeps exactly the characters of the name that are not among `< > : " / \ \| ? *` |
| TextUtils.SanitizeAppend | utils.py:22-24 | sanitising works character by character, so it keeps the order of the rest |
| TextUtils.SanitizeKeepsLegal | utils.py:22-24 | a name without illegal characters is unchanged |
| TextUtils.SanitizeIdempotent | utils.py:22-24 | sanitising twice equals sanitising once |
| TextUtils.Dedup | utils.py:38 | the result has no duplicates and the same elements |
| TextUtils.FormatMessageContent | utils.py:31-48 | the tag list has no duplicates and is, as a set, the given hashtags united with those in the message |
| TextUtils.MessageContentLayout | utils.py:41-46 | the content is the heading, the message and a blank line; the "标签: " line of "#tag" items follows if and only if the tag list is non-empty |
| TextUtils.UntaggedMessage | utils.py:31-48 | a message without '#' and without given tags has no tag line |
| TextUtils.MessageTagsReadBack | utils.py:37-46 | the tags of the written tag line read back as the returned tag list |
| TextUtils.Pad2 | utils.py:14 | a two-digit field is two characters long |
| TextUtils.Pad4 | utils.py:14 | a four-digit field is four characters long |
| TextUtils.FormatDiaryDate | utils.py:10-14 | the date is YYYY-MM-DD: 10 characters, with digits everywhere except the dashes at positions 4 and 7 |
| TextUtils.FormatDiaryTitle | utils.py:16-20 | the title is "日记 - " followed by the 10-character date |
| TextUtils.Pad2RoundTrip | utils.py:14 | a two-digit field reads back as its number |
| TextUtils.Pad4RoundTrip | utils.py:14 | a four-digit field reads back as its number |
| TextUtils.DiaryDateRoundTrip | utils.py:10-14 | parsing the formatted date gives the date back |
| TextUtils.DiaryTitleInjective | utils.py:16-20 | different dates get different titles |
| MessageFormatter.TextEntry | message_formatter.py:38-52 | the tags are the text's matches, in order; the content is the heading and the text, followed by exactly the tag line of those tags |
| MessageFormatter.PhotoEntry | message_formatter.py:55-70 | the entry always begins with the heading and "📷 图片" and ends with the tag line; the tags are those of the caption |
| MessageFormatter.DocumentEntry | message_formatter.py:73-92 | the entry always begins with the heading, the document mark and the "文件名: " line; that line shows the file name, or "未知文件" when there is no `file_name` key; it ends with the tag line |
| MessageFormatter.VoiceEntry | message_formatter.py:95-111 | the entry always begins with the heading and "🎤 语音消息" and ends with the tag line of the caption's tags |
| MessageFormatter.LocationEntry | message_formatter.py:114-134 | the entry always begins with the heading and "📍 位置" and ends with the tag line of the caption's tags |
| MessageFormatter.FormatDiaryEntry | message_formatter.py:9-35 | every kind of entry begins with the heading, and its tags are those of the text |
| MessageFormatter.UnknownKindIsText | message_formatter.py:34-35 | an unrecognised message type is laid out as a text entry |
| MessageFormatter.UntaggedTextEntry | message_formatter.py:41-52 | text without '#' gives no tag line and no tags |
| MessageFormatter.TagLineReadsBack | message_formatter.py:48-50 | the tags of the tag line read back as the tag list |
| MessageFormatter.BarePhoto | message_formatter.py:55-70 | a photo without caption or file name is just the heading and the mark |
| MessageFormatter.UncaptionedPhoto | message_formatter.py:55-70 | without a caption there is no caption line and no tags; the file line appears exactly when the file name is non-empty |
| MessageFormatter.EmptyFileNameHidden | message_formatter.py:64-65 | an empty file name adds no line |
| MessageFormatter.DocumentNameDefault | message_formatter.py:79-80 | without a `file_name` key the document shows as "未知文件"; an empty name is shown empty, not replaced |
| MessageFormatter.ZeroSizeHidden | message_formatter.py:85-87 | a size of 0 adds no size line, exactly as a missing size |
| MessageFormatter.ZeroDurationHidden | message_formatter.py:101-103 | a duration of 0 adds no duration line |
| MessageFormatter.ZeroCoordinateHidden | message_formatter.py:120-126 | a 0 latitude or longitude hides the coordinates and the map link |
| MessageFormatter.LocationShowsCoordinates | message_formatter.py:120-126 | two non-zero coordinates show both, then the map link |
| MessageFormatter.AddIfMentioned | message_formatter.py:157-172 | the result is the list, or the list with the tag appended once; it holds the tag exactly when the list did or a keyword of the group occurs in the text |
| MessageFormatter.ExtractSmartHashtags | message_formatter.py:151-174 | the result has no duplicates; it holds every '#' tag, and holds 'work', 'life' or 'study' exactly when that tag was present or a keyword of its group occurs |
| MessageFormatter.NoKeywordNoSmartTag | message_formatter.py:151-174 | without any keyword, the result is exactly the '#' tags |
| MessageFormatter.CreateSeparator | message_formatter.py:185-187 | "\n", then 50 copies of "─", then "\n": 52 characters |
| TriliumContent.RStripSlash | trilium_client.py:16 | the stored URL is a prefix of the configured one, has no trailing '/', and only '/' was removed |
| TriliumContent.RStripSlashIdempotent | trilium_client.py:16 | stripping twice equals stripping once |
| TriliumContent.RStripSlashKeeps | trilium_client.py:16 | stripping removes exactly the trailing slashes |
| TriliumContent.Basename | trilium_client.py:299-305 | `os.path.basename`: the part of the path after the last '/', holding no '/' |
| TriliumContent.AttachmentHtml | trilium_client.py:291-306 | an image MIME gives the embedded figure, anything else the `/file/<name>` link, both named by the basename |
| TriliumContent.UploadMime | trilium_client.py:164-166 | a non-empty guessed type is used as it is; otherwise the MIME is "application/octet-stream" |
| TriliumContent.UploadRequest | trilium_client.py:164-190 | the attachment is created with role "image" and no content if and only if the MIME starts with "image/"; otherwise with role "attachment" and the content |
| TriliumContent.UnknownMimeIsFile | trilium_client.py:164-179 | a file of unknown type is posted as a plain attachment that carries its content |
| TriliumContent.UploadResult | trilium_client.py:179-289 | the upload fails when nothing was created; an image upload succeeds if and only if the record came back with a non-empty attachment id and the bytes were accepted, and returns that id and the image figure; a file upload succeeds exactly when something was created, and returns the id it got, possibly none, with a download link that prints a missing id as "None" |
| TriliumContent.UploadedImageHtmlAgrees | trilium_client.py:254-301 | the HTML an image upload returns is what `get_attachment_html` gives for the same id and path |
| TriliumContent.UploadedFileHtmlDiffers | trilium_client.py:283-306 | for any other file they differ: the upload links `/download`, `get_attachment_html` links `/file/<name>` |
| TriliumContent.DownloadLinkIsNotFileLink | trilium_client.py:283-306 | the download link and the file link are different strings for every id and name |
| TriliumContent.ImageGuessDeclared | trilium_client.py:164-166 | a guessed image type is also the type the upload declares |
| TriliumContent.NoteContent | trilium_client.py:312-320 | the note's text, or "" when the response is empty or the request raises |
| TriliumContent.LabelSpans | trilium_client.py:137 | one label span per tag, in order |
| TriliumContent.DiaryEntryHtml | trilium_client.py:133-138 | the entry begins with the time heading and the message paragraph; the tag paragraph follows if and only if there are tags, and it is the "标签:" label then the tags' label spans joined by ", " |
| TriliumContent.AppendedContent | trilium_client.py:122-141 | the old content is an unchanged prefix of the new, followed by exactly the new entry |
| TriliumContent.AppendAllKeepsHistory | trilium_client.py:113-142 | appending several messages keeps the original content and adds their entries in order |
| TriliumContent.TriliumClient.constructor | trilium_client.py:14-21 | the stored server URL is the configured one with its trailing slashes removed |
| TriliumContent.TriliumClient.Headers | trilium_client.py:18-21 | exactly two headers: `Authorization` is the token itself, with no scheme prefix, and `Content-Type` is "application/json" |
| TriliumContent.TriliumClient.RequestUrl | trilium_client.py:37 | each request URL is the server URL, then "/etapi", then the endpoint |
| TriliumContent.TriliumClient.NoteDateAttribute | trilium_client.py:366-372 | the value of the first attribute that is a label named "date"; None when there are no attributes or no such label |
| ErrorHandling.ErrorHandlerRaises | error_handler.py:34-48 | a bot error propagates unchanged; any other exception becomes a MessageProcessingError |
| ErrorHandling.ErrorHandlerIdempotent | error_handler.py:34-48 | wrapping twice raises what wrapping once raises |
| ErrorHandling.TriliumErrorType | error_handler.py:173 | the type is "TriliumConnectionError" if and only if the lower-cased message contains "connection", and "TriliumError" otherwise |
| ErrorHandling.SafeExecute | error_handler.py:50-57 | the function's result, or the default when it raises |
| ErrorHandling.SecondsField | error_handler.py:75 | `timedelta.seconds` lies between 0 and 86399 |
| ErrorHandling.SumInBump | error_handler.py:71-100 | raising one existing count raises the sum of the counts by one |
| ErrorHandling.SumInAdd | error_handler.py:71-100 | a new type counted once raises the sum of the counts by one |
| ErrorHandling.ErrorReporter.constructor | error_handler.py:62-64 | the reporter starts with no counts and no report times |
| ErrorHandling.ErrorReporter.ReportError | error_handler.py:66-94 | the type's count rises by exactly one on every call, suppressed or not, and no other count changes; a suppressed call leaves the report time and the report log alone; otherwise the time is recorded and a report with the new count is made |
| ErrorHandling.ErrorReporter.GetErrorStats | error_handler.py:96-101 | the counts as they are, and a total equal to their sum, which is the number of `report_error` calls, suppressed ones included |
| ErrorHandling.HandleTriliumError | error_handler.py:166-176 | reports under the classified type: the count goes up by one; inside the window nothing is logged; outside it the report time is stored and the report logged with the message; then raises a TriliumConnectionError carrying the message |
| ErrorHandling.HandleTelegramError | error_handler.py:178-188 | reports under "TelegramError" with the same count, window and log effects; then raises a TelegramConnectionError carrying the message |
| ErrorHandling.DayOldReportSuppressed | error_handler.py:75 | a report one day and 10 seconds after the last one is suppressed |
| ErrorHandling.EarlierReportNotSuppressed | error_handler.py:75 | a report one second before the last one is not suppressed |
| ErrorHandling.IntendedWindow | error_handler.py:75 | the corrected window suppresses exactly the reports less than 300 s after the last one, and none a day or more later |
| ErrorHandling.WindowsAgreeWithinADay | error_handler.py:75 | within a day after the last report, the source's window and the corrected one agree |
| ErrorHandling.RetryHandler.constructor | error_handler.py:106-108 | the handler keeps its retry budget and delay |
| ErrorHandling.AttemptOutcome | error_handler.py:143-147 | from the second attempt on, a negative delay makes the sleep raise `ValueError` before the function is called; otherwise the attempt is the function's own outcome |
| ErrorHandling.RetryHandler.RetrySync | error_handler.py:137-161 | at most max_retries+1 attempts; the first successful attempt is returned; every earlier attempt failed retryably; it re-raises the last error once the budget is spent or after a ConfigurationError or TelegramConnectionError; the waits are delay·1, delay·2, …, with none before the first attempt; every attempt calls the function when the delay is non-negative, and only the first one does when it is negative, since every later sleep raises `ValueError`, which is retried like any error; a negative budget makes no attempt and raises None |
| AppConfig.GetEnvOr | config.py:19-21 | the variable's value, or the default when it is unset |
| AppConfig.Lower | config.py:26 | lower-casing character by character |
| AppConfig.LoadConfig | config.py:8-26 | DIARY_PARENT_NOTE_ID and DIARY_TEMPLATE default to "", TIMEZONE to "Asia/Shanghai"; ASR is enabled exactly when ASR_ENABLED is set and lower-cases to "true" |
| AppConfig.EmptyEnvironmentDefaults | config.py:12-26 | with nothing set, ASR is off, the required settings are missing and the optional ones take their defaults |
| AppConfig.AsrEnabledAnyCase | config.py:26 | ASR is on exactly for "true" in any mix of cases |
| AppConfig.AsrEnabledExamples | config.py:26 | "True" and "TRUE" enable ASR; "yes" and "1" do not |
| AppConfig.ValidateConfig | config.py:32-43 | valid exactly when all three required settings are non-empty; otherwise the error names the first missing one, in the order TELEGRAM_BOT_TOKEN, TRILIUM_API_TOKEN, TRILIUM_SERVER_URL, as "<key> 未设置" |
| AppConfig.NothingSetReportsBotToken | config.py:34-35 | with nothing set, the bot token is reported |
| AsrKeyCheck.ApiKeyFormat | asr/test_asr_connection.py:34-73 | with both keys set, each rule's issue line is present exactly when its condition holds: an "api-key-" prefix; not all digits, including the empty key; a length below 8 or above 15, with the length named; an access key under 20 characters; the verdict holds exactly when no rule fired |
| AsrKeyCheck.EmptyAppKeyFlagged | asr/test_asr_connection.py:55-61 | an empty APP_KEY is flagged as not numeric and as too short |
| AsrKeyCheck.PrefixedKeyFails | asr/test_asr_connection.py:51-53 | a key with the "api-key-" prefix never passes |
| AsrKeyCheck.RunChecks | asr/test_asr_connection.py:202-245 | nothing runs when ASR is off; an unset key crashes the tool before any rule or connection; the connection is tried exactly when both keys are set and the format check passed; all pass only if the connection works too |
| AudioDiagnosis.AudioStreams | asr/diagnose_audio.py:108-112 | the audio streams of the report, in order, and the first of them is the first audio stream of the report |
| AudioDiagnosis.CompatibleUnflagged | asr/diagnose_audio.py:145-158 | compatibility is the absence of both issues |
| AudioDiagnosis.CheckCompatibility | asr/diagnose_audio.py:80-158 | no verdict for an empty report; otherwise the verdict is true exactly when there are no issues and the file is compatible; the issues are a zero duration and having no audio stream; the warnings are a container name without "ogg", a duration below 0.5, and the first audio stream's codec not "opus", rate not 16000 or channels not 1 |
| AudioDiagnosis.CheckFormat | asr/diagnose_audio.py:94-105 | the `format` checks: a zero duration is an issue; a short duration and a container name without "ogg" are only warnings |
| AudioDiagnosis.CollectAudio | asr/diagnose_audio.py:108-112 | the loop collects exactly the audio streams, in order |
| AudioDiagnosis.CheckAudio | asr/diagnose_audio.py:114-142 | no audio stream is an issue; only the first audio stream's parameters give warnings |
| AudioDiagnosis.AudioStreamsSnoc | asr/diagnose_audio.py:110-112 | one more stream adds itself to the audio streams exactly when it is audio |
| AudioDiagnosis.OfferConversion | asr/diagnose_audio.py:223-226 | a conversion is offered exactly when a report exists and shows an issue; warnings alone never lead to one |
| AudioDiagnosis.StripLastExtension | asr/diagnose_audio.py:234 | everything before the last '.', or the whole name when there is none |
| AudioDiagnosis.ConvertedNameReplacesExtension | asr/diagnose_audio.py:234 | "stem.ext" becomes "stem_converted.ogg", and only the last extension goes |
| AudioDiagnosis.ConvertedNameWithoutDot | asr/diagnose_audio.py:234 | a name without a dot keeps all of itself before "_converted.ogg" |

## Left out

- Socket I/O and WebSocket framing are left out (RFC 6455, section 5.6 binary frames): connecting, the HTTP upgrade headers, send and receive. The socket is a scripted transport. The 30-second receive timeout is one "no response" outcome.
- JSON and UTF-8 handling are parameters (`parse`, `serialize`). A decoded reply is reduced to having no `result`, having a `result` text, or having a `result` that raises when read. A reply that is an empty object behaves like one without `result`, as it does in the source.
- The random connection id (`uuid`), the request id and the HTTP headers of `_connect` are left out. The connection id is a constant of the client.
- `AsrFrame.ChunkSize`: the source comment calls 3200 bytes "about 200 ms". At 16000 Hz, 16-bit mono it is 100 ms. The model keeps the code's 3200.
- `AsrClient.DoubaoAsrClient.StreamPacket`, `TakeReply`, `FinishStream`, `StreamAudio` and `AwaitFinalResult` are the body of `recognize_file`, split into methods. They are not separate operations of the source.
- `recognize_file`'s exception handler is covered only for the two causes the model has: a `result` that cannot be read, and a frame that cannot be assembled. Both close and return None.
- Logging, printing, `datetime.now` and `strftime` clock strings are left out. Times are parameters. `time.sleep` does not wait: the model records each requested length and, for a negative one, the `ValueError` it raises.
- `ErrorHandling.RetryHandler.RetrySync`: the delay is a real number, so a NaN or infinite float delay, for which `time.sleep` raises `ValueError` or `OverflowError`, is not modelled.
- `TextUtils.FormatDiaryDate`: `%Y` is written with four digits. Platforms that do not zero-pad years below 1000 are not modelled.
- `TextUtils.Dedup`: `list(set(...))` has no defined order in Python. The model keeps the first occurrences in order, and its contract states only the set and the absence of duplicates.
- `TextUtils.Hashtags`: `\w` is a parameter `isWord`. The read-back lemmas require that ',' and ' ' are not word characters.
- `MessageFormatter`: `_format_file_size` is the parameter `formatSize`. Coordinates and durations are values with their printed form and a zero flag (`Num`), because Python's float formatting is not modelled. Metadata values of other types are not modelled.
- `MessageFormatter.TextEntry`: a text of None is not modelled. Text is always a string.
- `AsrClient.ReceiveResponse` and `AsrClient.Interpret`: a JSON payload that is not an object is not modelled.
- Exception classes: `Other` in `ErrorHandling.ExcKind` stands for an `Exception` subclass outside the bot's hierarchy. Classes that derive only from `BaseException` (`KeyboardInterrupt`, `SystemExit`, `asyncio.CancelledError`) are not modelled: the handlers' `except Exception` clauses let them pass through unchanged.
- `ErrorHandling.ErrorReporter.ReportError`: the `context` dict is not kept in the report. The timestamp is a number of microseconds.
- `TriliumContent.TriliumClient.NoteDateAttribute`: attribute records missing a `type` or `name` key, which raise KeyError in the source, are not modelled.
- `TriliumContent.NoteContent`: the HTTP request is left out. Its response is given as a body, an empty response or an exception.
- `TriliumContent.AttachmentHtml`: the exception path of `get_attachment_html` (trilium_client.py:308-310) is not modelled.
- `TriliumContent.UploadResult`: the HTTP requests are left out; whether a record came back, its id and whether the image bytes were accepted are inputs. The verification request after an image upload (trilium_client.py:233-251) only logs, and its failure is caught, so it is left out. An `attachmentId` that is not a string is not modelled.
- The Trilium HTTP client (`_make_request`, note search, creation and update) is left out. So are `telegram_handler.py` and the entry points. They are network and UI layers.
- `retry_async` is left out. It is `retry_sync` with asyncio sleeps.
- `AppConfig.Lower`: only ASCII letters are lower-cased. No other character lower-cases to a letter of "true", so the ASR_ENABLED verdict is unaffected.
- `AsrKeyCheck.ApiKeyFormat`: it is modelled with both keys set. With a key unset it raises before any rule runs, and `RunChecks` models that as `Crashed`.
- `AsrKeyCheck.RunChecks`: the live connection test, the configuration-source report and the fix instructions are left out. The connection test's outcome is a parameter.
- `AudioDiagnosis`: running `ffprobe` and `ffmpeg` and reading the user's answer are left out. Numeric fields of the report are taken as already converted, with 0 for a missing field. `float()` or `int()` failing on a malformed value is not modelled.

## Findings

| source | as written | input that shows it | evidently intended | confidence | as-written member | corrected member |
|---|---|---|---|---|---|---|
| error_handler.py:75 | the suppression test uses `timedelta.seconds`, which drops whole days and wraps negative deltas into the day | a report 1 day and 10 s after the last is suppressed; after the clock steps back 1 s, a report is not suppressed | `(timestamp - last_report).total_seconds() < 300`: suppress only within 300 s after the last report | not executed | ErrorHandling.DayOldReportSuppressed | ErrorHandling.IntendedWindow |

`ErrorHandling.Suppressed` is the test as written. `ErrorHandling.DayOldReportSuppressed` and `ErrorHandling.EarlierReportNotSuppressed` exhibit it.

`ErrorHandling.SuppressedIntended` is the corrected window. `ErrorHandling.IntendedWindow` proves that it suppresses exactly the reports within 300 s after the last one. `ErrorHandling.WindowsAgreeWithinADay` shows that the two tests differ only a day or more after the last report.

`ErrorHandling.ErrorReporter.ReportError` keeps the source's behaviour, so that the class models the code as written.
