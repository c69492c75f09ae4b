# A Dafny model of the nvid video-download server

nvid is a small Express server (`server.js`) that takes a pasted YouTube URL
and does two things:

- it lists the renditions a visitor can download (`POST /download`);
- it streams the one they pick under a cleaned-up file name
  (`GET /download/:itag`).

This project models the logic of those two routes as pure Dafny functions
and proves what they guarantee. The modelled pieces are:

- extracting the video id from the three URL shapes (`getVideoId`);
- selecting one rendition per quality tier, the best audio-only rendition
  and the widest thumbnail;
- the duration text (`toHumanTime`);
- the in-memory cache of video details, keyed by id;
- resolving the requested itag, including the swap of a webm video for an
  mp4 of the same quality label;
- sanitising the title into a file name, the `.mp3`/`.mp4` extension, the
  200-character cap and `path.extname`;
- the `Content-Type` and `Content-Disposition` headers, with
  `encodeURIComponent` and `decodeURIComponent` written out byte by byte
  (UTF-8 and `%XY` escapes).

Modules, one per concern:

| module | file | what it holds |
|---|---|---|
| `Wrappers` | wrappers.dfy | `Option`, `Result` |
| `Seqs` | seqs.dfy | `Filter`, `FirstIndex`, `ReduceMax` (JavaScript's `filter`, `find`, `reduce`) and their lemmas |
| `Text` | text.dfy | `indexOf`/`includes`, `split(..)[k]`, decimal numerals |
| `VideoUrl` | video_url.dfy | `getVideoId`, the watch URL |
| `Formats` | formats.dfy | the rendition descriptors and the selection of `POST /download` |
| `HumanTime` | human_time.dfy | `toHumanTime` |
| `InfoRoute` | info_route.dfy | the whole `POST /download` route and `videoInfoCache` |
| `Filename` | filename.dfy | the file name of `GET /download/:itag` |
| `UriComponent` | uri_component.dfy | `encodeURIComponent` / `decodeURIComponent` |
| `Download` | download.dfy | the whole `GET /download/:itag` route |
| `Scenarios` | scenarios.dfy | worked selections on concrete descriptor lists |

Some calls go to code outside this model, and they are function parameters
of the route functions:

- `new URL(url).searchParams.get('v')` is `queryV`. It returns `None` where the
  constructor throws or the parameter is absent.
- `ytdl.validateURL` is `validate`.
- `ytdl.getInfo` is `fetch`. Its failure carries the error message.
- `parseInt(itag)` is `parseItag`. It returns `None` for `NaN`.

Three behaviours of the code that a caller may not expect, all of which the
model follows:

- `getVideoId` throws for an unrecognised URL or a watch URL without `v`.
  The throw is caught by the route's `catch`, so the reply is a 500 whose
  `details` is `Invalid YouTube URL format`. Only an empty extracted id gets
  the 400 reply.
- On `POST /download` the provider is asked before the cache is looked at
  (server.js lines 124 and 224). A cached video therefore still fails when
  the provider fails, and a hit ignores the fresh answer.
- The file name's base is trimmed before its trailing dots are stripped, so
  it can end in a space: the title `a .` gives the base `a `. A name cut at
  196 characters can have a dot or a space just before its extension.

## Model

| member | source | states |
|---|---|---|
| VideoUrl.GetVideoId | server.js:73-98 | The shapes are tried in order: `/shorts/`, then `youtu.be/`, then `youtube.com/`. The first two yield the text after the first marker, cut at the next marker, `?` or `#`. The third yields `v` exactly when `v` is present and non-empty. A URL with none of the markers, or a watch URL without `v`, is the single `InvalidUrlFormat` error. |
| VideoUrl.PathSegmentId | server.js:78-83 | `split(marker)[1].split('?')[0].split(/[?#]/)[0]`. It is defined exactly when the marker occurs. It is then the longest text after the first marker that contains no stop character and no further marker. |
| VideoUrl.PathSegmentIdHasNoQuery | server.js:76-83 | An id from a shorts or youtu.be URL never contains `?` or `#`. |
| VideoUrl.ShortsUrlId | server.js:76-79 | `https://www.youtube.com/shorts/<id>` yields `<id>` for every id in YouTube's alphabet. |
| VideoUrl.ShortLinkUrlId | server.js:80-83 | `https://youtu.be/<id>` yields `<id>`. |
| VideoUrl.WatchUrlId | server.js:84-91 | The watch URL the server builds yields the `v` parameter the URL parser reports. |
| VideoUrl.SameIdFromEveryShape | server.js:73-98 | The shorts, youtu.be and watch URLs of one id all yield that id. |
| VideoUrl.NotAUrlIsRejected | server.js:93-96 | A text without any of the markers is rejected. |
| VideoUrl.WatchUrl | server.js:117 | The canonical URL ends with the id it was built from. |
| Text.SecondPiece | server.js:78 | `s.split(sep)[1]` is defined exactly when `sep` occurs. It is then the text between the first and second occurrences, or up to the end of the text. |
| Text.TakeUntil | server.js:79 | `split(c)[0]` for a set of characters: the longest prefix with none of them, stopped by one of them or by the end of the text. |
| Text.IndexOf | server.js:76 | `includes`/`indexOf`: the first occurrence, with no earlier one; `None` exactly when there is none. |
| HumanTime.ToHumanTime | server.js:347-355 | The hours are dropped exactly when they are zero (input below 3600 s). The minutes and seconds are two-digit fields below sixty. Hours below ten are zero-padded to two digits, and longer hours have no leading zero. The printed fields add back up to the input. |
| HumanTime.Pad | server.js:352 | Values below ten get a leading zero. Values below 100 print as two digits, and the text reads back as the value. The text is `00` exactly for zero, which is the text the filter removes. A text longer than two digits has no leading zero. |
| HumanTime.FieldsText | server.js:352-354 | The hours field is left out exactly when the hours are zero. The last five characters are the padded minutes, `:` and the padded seconds. Otherwise the padded hours come before them, followed by `:`. |
| HumanTime.Components | server.js:348-350 | The hours, minutes and seconds reassemble the input, and both lower fields are below sixty. |
| Formats.TierGroup | server.js:136-163 | Every member of a quality group is an mp4 video carrying that quality label. |
| Formats.TierGroupIsFilter | server.js:136-163 | The group is the input filtered by "a candidate with this label", in the input's order. |
| Formats.QualityOrderDistinct | server.js:133 | The six quality labels are pairwise distinct. |
| Formats.RankOfTier | server.js:133 | Each label's position in `qualityOrder` is its rank. |
| Formats.PickIndex | server.js:170-176 | Within a group, the pick is the first mp4 with audio if there is one. Otherwise it is the first with audio. Otherwise it is the earliest rendition of the highest bitrate. |
| Formats.PickInMp4Group | server.js:170-171 | In a group of mp4s, the two `find`s agree: the first with audio is the pick. |
| Formats.TierChoice | server.js:167-176 | Stated against the whole list: the tier's rendition is the first candidate of that label with audio. When none has audio, it is the earliest highest-bitrate candidate of that label. |
| Formats.TierChoiceWithAudio | server.js:170-171 | The case of a tier in which some candidate has audio. |
| Formats.TierChoiceWithoutAudio | server.js:172-176 | The case of a silent tier: the earliest of the highest bitrate. |
| Formats.SelectTiers | server.js:166-181 | At most one video per tier, all of them candidates, in strictly increasing tier order. |
| Formats.SelectTiersPicks | server.js:166-181 | Every selected video is the pick of its own tier. |
| Formats.SelectTiersCoverage | server.js:167-181 | A tier appears in the selection exactly when some candidate has its label. |
| Formats.BestAudio | server.js:184-189 | None exactly when there is no audio-only rendition. Otherwise it is the earliest audio-only rendition of the highest audio bitrate. |
| Formats.VideoEntry | server.js:201-208 | A video entry keeps the itag, the label, the container and whether it has audio, and is marked as video. |
| Formats.AudioEntry | server.js:213-220 | The audio entry is an mp3 without video. Its quality is the canonical decimal numeral of the audio bitrate (no leading zero) followed by `kbps`. |
| Formats.SelectFormats | server.js:197-221 | At most seven entries, and every entry except possibly the last is a video. The last is audio exactly when the list has an audio-only rendition. |
| Formats.SelectFormatsLayout | server.js:201-221 | The entries are the tier picks in order, followed by the audio entry when there is one. |
| Formats.VideoEntriesInTierOrder | server.js:166-181 | Video entries are mp4s with a listed label, in strictly increasing tier rank, and they all come before the audio entry. |
| Formats.VideoEntriesArePicks | server.js:167-208 | Each video entry is the entry of its tier's pick. |
| Formats.TiersShownAreTiersOffered | server.js:136-208 | A quality is shown as a video entry exactly when some mp4 video candidate carries that label. |
| Formats.OfferedTierIsShown | server.js:167-181 | Every offered tier is shown. |
| Formats.ShownTierIsOffered | server.js:167-181 | Every shown tier is offered. |
| Formats.AudioKindEntry | server.js:212-221 | An audio entry is the entry of the best audio rendition. |
| Formats.AudioEntryIsBestAudio | server.js:184-221 | When an audio-only rendition exists, the last entry describes the earliest one of the highest audio bitrate. |
| Formats.BestThumbnail | server.js:192-194 | None exactly when there are no thumbnails. Otherwise it is the earliest of the greatest width. |
| Seqs.ReduceMaxOfFilter | server.js:173-175 | `filter` followed by a `reduce` that keeps the current best unless the new value is strictly greater finds the earliest maximum of the filtered elements. |
| Seqs.FirstIndex | server.js:170 | `find`: the first element passing the test, or none exactly when none passes. |
| Seqs.FilterMembers | server.js:136-153 | `filter` keeps exactly the elements that pass. |
| InfoRoute.BuildDetails | server.js:197-209 | The details carry the title, the widest thumbnail's URL (null when there are none), the duration text and the selected formats. |
| InfoRoute.GetOrInsert | server.js:224-232 | A hit returns the stored entry and leaves the cache unchanged. A miss stores and returns the fresh details. No other key is touched. |
| InfoRoute.HandleInfo | server.js:103-241 | The missing URL is a 400, and a throwing `getVideoId` is a 500 with its message. An empty id is a 400, and a failed validation is a 400. A provider failure is a 500 with the provider's message. Success happens exactly when all the steps pass, and then the reply is what the cache holds for the id afterwards. A failure leaves the cache as it was, and no existing entry ever changes. |
| InfoRoute.ProviderFailureBeatsCache | server.js:124-227 | The provider is asked before the cache, so a provider failure is a 500 even for a cached video. |
| InfoRoute.CachedDetailsWin | server.js:224-227 | On a hit, the stored details are served and the cache is unchanged, whatever the provider answered. |
| InfoRoute.Serve | server.js:101 | One cache threaded through a run of requests: one reply per request, and no stored entry is lost or changed. |
| InfoRoute.RepliesAreRemembered | server.js:224-232 | Every successful reply in a run is what the cache holds for its id at the end of the run. |
| InfoRoute.ReplyIsRemembered | server.js:224-232 | A successful reply stays in every later cache that keeps the entries the request left behind. |
| InfoRoute.SameVideoSameDetails | server.js:224-232 | Within a run, every successful reply for the same id carries the same details. |
| Filename.SafeChars | server.js:293-294 | The two `replace`s leave only ASCII letters, digits, `-`, `_`, `.` and space. |
| Filename.SafeCharsKeepsTheSafeOnes | server.js:293-294 | The two `replace`s keep exactly the safe characters of the title, in order. |
| Filename.Trim | server.js:295 | `trim()` removes a run of JavaScript white space from each end and nothing else. |
| Filename.StripTrailingDots | server.js:295 | `replace(/\.+$/, '')` removes the trailing run of dots and nothing else. |
| Filename.SanitiseBase | server.js:292-295 | The base is made of safe characters and does not start with a space or end with a dot. It is a contiguous run of the kept characters with only spaces before it and only spaces and dots after it. |
| Filename.TrimmedBase | server.js:295 | Trimming then stripping dots leaves such a framed run of safe characters. |
| Filename.Extname | server.js:306 | `path.extname` of a name without `/`: empty exactly for `..` or for a name with no dot after its first character. Otherwise it is the suffix from the last dot. |
| Filename.Extension | server.js:297-303 | The extension is `.mp3` exactly for audio-only requests and `.mp4` otherwise. |
| Filename.ExtnameOfNamed | server.js:305-306 | `path.extname` of a named file is the extension just appended. |
| Filename.Truncated | server.js:305-307 | A name over 200 characters becomes its first 196 characters plus its extension: 200 safe characters that still end in the extension. |
| Filename.DownloadName | server.js:292-307 | The name is made of safe characters, is at most 200 long and ends with the right extension. It is the base plus the extension when that fits, and otherwise keeps the base's first 196 characters. |
| Filename.ContentType | server.js:297-303 | `audio/mpeg` exactly for audio-only requests, `video/mp4` otherwise. |
| UriComponent.EncodeComponent | server.js:309 | The result is at least as long as the input and uses only unreserved characters, `%` and upper-case hexadecimal digits. |
| UriComponent.EncodeChar | server.js:309 | Unreserved characters pass through. Every other character becomes escapes starting with `%`. |
| UriComponent.Utf8 | server.js:309 | One to four bytes, and a single byte exactly for ASCII. |
| UriComponent.LeadByte | server.js:253 | A lead byte announces two to four bytes, and bytes below `0xC0` or from `0xF8` announce nothing. |
| UriComponent.DecodeComponent | server.js:252-253 | A URL without `%` passes through unchanged. Decoding can fail only when there is a `%`. A decoded text is never longer than the input. |
| UriComponent.DecodeEncode | server.js:253 | `decodeURIComponent(encodeURIComponent(s))` gives back `s` for every string. |
| UriComponent.DecodeEncodedChar | server.js:253 | Decoding one encoded character consumes exactly its escapes and yields the character. |
| UriComponent.DecodeUnitOfChar | server.js:253 | Decoding one encoded character at the front of any text reads the character and exactly the length of its escapes. |
| UriComponent.ReadContinuations | server.js:253 | Escaped continuation bytes read back as themselves, whatever follows them. |
| UriComponent.Utf8Lead | server.js:253 | The UTF-8 bytes of a non-ASCII character start with a lead byte announcing their count. The rest are continuation bytes, and together they accumulate back to the character. |
| Download.FindRequested | server.js:270-274 | The first rendition with the parsed itag. None exactly when the itag does not parse or no rendition has it. |
| Download.ResolveFormatAsWritten | server.js:270-289 | Resolution as written: a missing itag is "not found". The attempted webm-to-mp4 substitution fails with the `const` TypeError exactly when it would swap. Otherwise the requested rendition is kept. |
| Download.ResolveFormat | server.js:270-289 | Resolution as intended: "not found" exactly when no rendition has the itag. A webm video is replaced by the first mp4 video of the same label when one exists. Audio-only is decided by the rendition requested. |
| Download.AsWrittenFailsExactlyOnSwap | server.js:280-289 | The two resolutions agree except when a webm request has an mp4 twin. There the written code fails and the intended one streams the mp4. |
| Download.WebmRequestFailsAsWritten | server.js:280-289 | Asking for a 1080p webm when a 1080p mp4 exists fails as written, and streams the mp4 as intended. |
| Download.TranscodeBitrate | server.js:326 | The ffmpeg bitrate is the audio bitrate when that is non-zero, and 128 otherwise. It is never zero. |
| Download.EncodeSafeName | server.js:309 | Encoding a sanitised name only turns each space into `%20`. |
| Download.Disposition | server.js:309 | The header is `attachment; filename="…"`, and the quoted part decodes back to the file name. |
| Download.Plan | server.js:297-335 | Audio-only streams use `audioonly` and `highestaudio`, `audio/mpeg` and an ffmpeg transcode. Video streams use `videoandaudio` and `highest`, `video/mp4` and no transcode. The plan carries the resolved rendition, the download name and the disposition of that name. |
| Download.Prepare | server.js:243-268 | The part of the route before the itag is resolved. A missing URL or itag is a 400, and a malformed escape is a 500 `URI malformed`. A throwing `getVideoId` is a 500, and an empty id is a 400. A provider failure is a 500 with its message. Otherwise the result is the provider's answer for the decoded URL's video. |
| Download.HandleDownloadAsWritten | server.js:243-344 | The route as written differs from the intended one exactly when the requested webm has an mp4 twin. There the intended route streams, while the written one answers 500 `Download failed` with the `const` TypeError's message. |
| Download.HandleDownload | server.js:243-344 | A missing URL or itag is a 400. A malformed escape is a 500 `URI malformed`. A throwing `getVideoId` is a 500, and an empty id is a 400. A provider failure is a 500 with its message. An unknown itag is a 404. Otherwise the reply streams the resolved rendition under the download name, and the stream plan carries the title and that rendition. |
| Scenarios.MuxedIsThe1080pPick | server.js:170 | Worked example: in a 1080p tier with a muxed mp4 and a higher-bitrate silent mp4, the muxed one is picked. |
| Scenarios.MuxedIsTheOnly1080pEntry | server.js:167-181 | Worked example: the muxed rendition is the only 1080p entry. |
| Scenarios.No720pEntry | server.js:141 | Worked example: a webm-only tier is not offered. |
| Scenarios.HigherAudioBitrateWins | server.js:184-220 | Worked example: of two audio-only renditions, the 160 kbps one is listed, as `160kbps`. |

## Left out

- Express, the request and response objects, the page routes and the
  static files. The replies are modelled as values.
- `app.js` and the browser scripts are not part of this model.
- `ytdl.getInfo`, `ytdl.validateURL` and the WHATWG URL parser are
  parameters, because they are foreign code.
- Streaming, `ytdl(...)` and the ffmpeg pipeline are left out, because they
  are I/O. The stream plan records the options the route passes.
- The ffmpeg `error` handler after streaming has started is left out,
  because it is I/O.
- `toHumanSize` is left out, because no route calls it.
- The console logging is left out, because it is I/O.
- Concurrency is left out. Requests are served one after the other, so two
  overlapping requests for the same video are not modelled.
- `parseInt` is the `parseItag` parameter, so its treatment of prefixes such
  as `"22abc"` is not modelled.
- `lengthSeconds` is a natural number. The provider reports it as a decimal
  string, which JavaScript's arithmetic converts.
- Bitrates and audio bitrates are natural numbers. An absent bitrate, whose
  comparisons are all false in JavaScript, is not modelled.
- `null` and `undefined` are not distinguished. An absent quality label is
  `None`.
- Strings are sequences of Unicode scalar values. Lone UTF-16 surrogates,
  for which `encodeURIComponent` throws, cannot be expressed.
- Filename.Extname: stated only for names without `/`. That is always the
  case here, because a sanitised title has no `/`.
- Download.HandleDownload: uses the corrected resolution
  `Download.ResolveFormat`. The route as written is
  `Download.HandleDownloadAsWritten` (see Findings).

## Findings

| source | as written | input that shows it | evidently intended | confidence | as-written member | corrected member |
|---|---|---|---|---|---|---|
| server.js:270-289 | `format` is declared `const` and is reassigned when a webm video has an mp4 twin. That throws a TypeError, so the route answers 500 `Download failed` (`Download.HandleDownloadAsWritten`). | itag 248 (1080p webm) in a list that also holds a 1080p mp4 video | stream the first mp4 video of the same quality label | high; not executed | Download.WebmRequestFailsAsWritten | Download.ResolveFormat |
