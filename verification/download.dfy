/** The `GET /download/:itag` route of server.js: which rendition is streamed
    and under which headers. */
module Download {
  import opened Wrappers
  import opened Seqs
  import opened VideoUrl
  import opened Formats
  import opened Filename
  import opened UriComponent
  import opened InfoRoute

  datatype ResolveError =
    | FormatNotFound
      /** The TypeError of assigning to the `const` binding of `format`. */
    | ConstReassignment

  /** The rendition to stream, and whether the request is for audio only. */
  datatype Resolution = Resolution(format: Descriptor, audioOnly: bool)

  function HasItag(n: int): Descriptor -> bool
  {
    (d: Descriptor) => d.itag == n
  }

  /** The test of the `find` for an mp4 stand-in: video, mp4, same label. */
  function Mp4Twin(q: Option<string>): Descriptor -> bool
  {
    (d: Descriptor) => d.hasVideo && d.container == "mp4" && d.qualityLabel == q
  }

  /** The position `info.formats.find(f => f.itag === parseInt(itag))` finds;
      an itag that does not parse (`NaN`) equals none. */
  function FindRequested(fs: seq<Descriptor>, requested: Option<int>): (r: Option<nat>)
    ensures r.None? <==> requested.None? || forall j :: 0 <= j < |fs| ==> fs[j].itag != requested.value
    ensures r.Some? ==> requested.Some? && IsFirst(fs, r.value, HasItag(requested.value))
  {
    match requested
    case None => None
    case Some(n) => FirstIndex(fs, HasItag(n))
  }

  /** Whether the matched rendition is a video in webm for which an mp4 of the
      same label exists, the one case where the route swaps renditions. */
  predicate Swaps(fs: seq<Descriptor>, d: Descriptor)
  {
    !IsAudioOnly(d) && d.container == "webm" && exists j :: 0 <= j < |fs| && Mp4Twin(d.qualityLabel)(fs[j])
  }

  /** The format resolution as written: the substitution assigns to a `const`
      binding, so where it would happen the request fails instead. */
  function ResolveFormatAsWritten(fs: seq<Descriptor>, requested: Option<int>): (r: Result<Resolution, ResolveError>)
    ensures r == Err(FormatNotFound) <==> FindRequested(fs, requested).None?
    ensures r == Err(ConstReassignment) <==>
              FindRequested(fs, requested).Some? && Swaps(fs, fs[FindRequested(fs, requested).value])
    ensures r.Ok? ==> r.value.format == fs[FindRequested(fs, requested).value]
                      && r.value.audioOnly == IsAudioOnly(r.value.format)
  {
    match FindRequested(fs, requested)
    case None => Err(FormatNotFound)
    case Some(i) =>
      var format := fs[i];
      var audioOnly := IsAudioOnly(format);
      if !audioOnly && format.container == "webm" then
        match FirstIndex(fs, Mp4Twin(format.qualityLabel))
        case Some(_) => Err(ConstReassignment)
        case None => Ok(Resolution(format, audioOnly))
      else
        Ok(Resolution(format, audioOnly))
  }

  /** The format resolution as intended: the requested rendition, except that
      a webm video is replaced by the first mp4 video of the same label.
      `audioOnly` is decided by the rendition requested. */
  function ResolveFormat(fs: seq<Descriptor>, requested: Option<int>): (r: Result<Resolution, ResolveError>)
    ensures r.Err? <==> requested.None? || forall j :: 0 <= j < |fs| ==> fs[j].itag != requested.value
    ensures r.Err? ==> r.error == FormatNotFound
    ensures r.Ok? ==>
              exists i :: IsFirst(fs, i, HasItag(requested.value))
                && r.value.audioOnly == IsAudioOnly(fs[i])
                && (!Swaps(fs, fs[i]) ==> r.value.format == fs[i])
                && (Swaps(fs, fs[i]) ==> exists j :: IsFirst(fs, j, Mp4Twin(fs[i].qualityLabel)) && r.value.format == fs[j])
  {
    match FindRequested(fs, requested)
    case None => Err(FormatNotFound)
    case Some(i) =>
      var format := fs[i];
      var audioOnly := IsAudioOnly(format);
      if !audioOnly && format.container == "webm" then
        match FirstIndex(fs, Mp4Twin(format.qualityLabel))
        case Some(j) => Ok(Resolution(fs[j], audioOnly))
        case None => Ok(Resolution(format, audioOnly))
      else
        Ok(Resolution(format, audioOnly))
  }

  /** The two resolutions agree except where the substitution happens: there
      the written code fails and the intended one streams the mp4. */
  lemma AsWrittenFailsExactlyOnSwap(fs: seq<Descriptor>, requested: Option<int>)
    ensures ResolveFormatAsWritten(fs, requested) == Err(ConstReassignment) <==>
              ResolveFormat(fs, requested).Ok? && ResolveFormat(fs, requested).value.format.container == "mp4"
              && fs[FindRequested(fs, requested).value].container == "webm"
    ensures ResolveFormatAsWritten(fs, requested) != Err(ConstReassignment) ==>
              ResolveFormatAsWritten(fs, requested) == ResolveFormat(fs, requested)
  {
  }

  const Webm1080 := Descriptor(248, true, false, "webm", Some("1080p"), 2500, 0)
  const Mp41080 := Descriptor(137, true, false, "mp4", Some("1080p"), 4000, 0)

  /** Asking for a 1080p webm when a 1080p mp4 exists: the written route
      fails with the `const` TypeError (a 500), the intended one streams the
      mp4. */
  lemma WebmRequestFailsAsWritten()
    ensures ResolveFormatAsWritten([Webm1080, Mp41080], Some(248)) == Err(ConstReassignment)
    ensures ResolveFormat([Webm1080, Mp41080], Some(248)) == Ok(Resolution(Mp41080, false))
  {
    var fs := [Webm1080, Mp41080];
    assert FindRequested(fs, Some(248)) == Some(0);
    assert !Mp4Twin(Some("1080p"))(fs[0]);
    assert FirstIndex(fs[1..], Mp4Twin(Some("1080p"))) == Some(0);
    assert FirstIndex(fs, Mp4Twin(Some("1080p"))) == Some(1);
  }

  /** `format.audioBitrate || 128`: the bitrate ffmpeg is asked for; a zero
      bitrate is falsy and falls back to 128. */
  function TranscodeBitrate(d: Descriptor): (kbps: nat)
    ensures kbps > 0
    ensures d.audioBitrate > 0 ==> kbps == d.audioBitrate
    ensures d.audioBitrate == 0 ==> kbps == 128
  {
    if d.audioBitrate != 0 then d.audioBitrate else 128
  }

  /** ` ` written as `%20`, every other character as it is. */
  function EscapeSpaces(s: string): (r: string)
    ensures |r| == |s| + 2 * |Filter(s, c => c == ' ')|
    decreases |s|
  {
    if s == [] then []
    else (if s[0] == ' ' then "%20" else [s[0]]) + EscapeSpaces(s[1..])
  }

  /** On the sanitised alphabet `encodeURIComponent` escapes spaces and
      nothing else. */
  lemma {:induction false} EncodeSafeName(s: string)
    requires forall k :: 0 <= k < |s| ==> IsSafe(s[k])
    ensures EncodeComponent(s) == EscapeSpaces(s)
    decreases |s|
  {
    if s != [] {
      EncodeSafeName(s[1..]);
      EncodeSafeChar(s[0]);
    }
  }

  /** One character of the sanitised alphabet: a space becomes `%20`, and
      every other one is unreserved. */
  lemma EncodeSafeChar(c: char)
    requires IsSafe(c)
    ensures EncodeChar(c) == if c == ' ' then "%20" else [c]
  {
    if c == ' ' {
      assert Utf8(' ') == [32];
      assert Escape(32) == "%20";
      assert EscapeAll([32]) == "%20" + EscapeAll([]);
    }
  }

  /** The `Content-Disposition` header for a filename. */
  function Disposition(name: string): (h: string)
    ensures |h| >= 23 && h[..22] == "attachment; filename=\"" && h[|h| - 1] == '"'
    ensures DecodeComponent(h[22..|h| - 1]) == Some(name)
  {
    var h := "attachment; filename=\"" + EncodeComponent(name) + "\"";
    assert h[22..|h| - 1] == EncodeComponent(name);
    DecodeEncode(name);
    h
  }

  /** What the route hands to `ytdl` and to the response. */
  datatype StreamPlan = StreamPlan(
    format: Descriptor,
    filter: string,
    quality: string,
    contentType: string,
    filename: string,
    disposition: string,
    transcodeKbps: Option<nat>)

  /** The reply: a stream as planned, or a JSON error with its status. */
  datatype DownloadReply =
    | Stream(plan: StreamPlan)
    | Refused(status: nat, error: string, reason: Option<string>)

  const MissingParams := "Missing URL or itag"
  const DownloadFailed := "Download failed"
  const NotFound := "Format not found"
  /** The message of the `URIError` a malformed escape raises. */
  const UriMalformed := "URI malformed"

  /** The plan for a resolved rendition of a video titled `title`. */
  function Plan(title: string, res: Resolution): (p: StreamPlan)
    ensures p.format == res.format
    ensures res.audioOnly ==>
              && p.filter == "audioonly" && p.quality == "highestaudio"
              && p.contentType == "audio/mpeg" && p.transcodeKbps == Some(TranscodeBitrate(res.format))
    ensures !res.audioOnly ==>
              && p.filter == "videoandaudio" && p.quality == "highest"
              && p.contentType == "video/mp4" && p.transcodeKbps == None
    ensures p.filename == DownloadName(title, res.audioOnly)
    ensures p.disposition == Disposition(p.filename)
  {
    var name := DownloadName(title, res.audioOnly);
    var header := Disposition(name);
    if res.audioOnly then
      StreamPlan(res.format, "audioonly", "highestaudio", ContentType(true), name, header,
                 Some(TranscodeBitrate(res.format)))
    else
      StreamPlan(res.format, "videoandaudio", "highest", ContentType(false), name, header, None)
  }

  /** The message of the `TypeError` raised by assigning to a `const`. */
  const ConstAssignment := "Assignment to constant variable."

  /** Everything the route does before it resolves the itag: the early
      refusals, or the provider's answer for the decoded URL's video.
      `parseItag` stands for `parseInt` (`None` for `NaN`), `queryV` as in
      `GetVideoId`, and `fetch` for `ytdl.getInfo`. */
  function Prepare(url: string, itag: string, queryV: string -> Option<string>,
                   fetch: string -> Result<VideoInfo, string>): (r: Result<VideoInfo, DownloadReply>)
    ensures url == "" || itag == "" ==> r == Err(Refused(400, MissingParams, None))
    ensures url != "" && itag != "" && DecodeComponent(url).None? ==> r == Err(Refused(500, DownloadFailed, Some(UriMalformed)))
    ensures url != "" && itag != "" && DecodeComponent(url).Some? ==>
              var id := GetVideoId(DecodeComponent(url).value, queryV);
              && (id.Err? ==> r == Err(Refused(500, DownloadFailed, Some(InvalidUrlMessage))))
              && (id == Ok("") ==> r == Err(Refused(400, InvalidUrlMessage, None)))
              && (id.Ok? && id.value != "" && fetch(WatchUrl(id.value)).Err? ==>
                    r == Err(Refused(500, DownloadFailed, Some(fetch(WatchUrl(id.value)).error))))
              && (id.Ok? && id.value != "" && fetch(WatchUrl(id.value)).Ok? ==>
                    r == Ok(fetch(WatchUrl(id.value)).value))
    ensures r.Err? ==> r.error.Refused?
  {
    if url == "" || itag == "" then Err(Refused(400, MissingParams, None))
    else match DecodeComponent(url)
      case None => Err(Refused(500, DownloadFailed, Some(UriMalformed)))
      case Some(decoded) =>
        match GetVideoId(decoded, queryV)
        case Err(_) => Err(Refused(500, DownloadFailed, Some(InvalidUrlMessage)))
        case Ok(id) =>
          if id == "" then Err(Refused(400, InvalidUrlMessage, None))
          else match fetch(WatchUrl(id))
            case Err(message) => Err(Refused(500, DownloadFailed, Some(message)))
            case Ok(info) => Ok(info)
  }

  /** The whole route, with the intended format resolution. */
  function HandleDownload(url: string, itag: string, parseItag: string -> Option<int>,
                          queryV: string -> Option<string>, fetch: string -> Result<VideoInfo, string>): (r: DownloadReply)
    ensures url == "" || itag == "" ==> r == Refused(400, MissingParams, None)
    ensures url != "" && itag != "" && DecodeComponent(url).None? ==> r == Refused(500, DownloadFailed, Some(UriMalformed))
    ensures url != "" && itag != "" && DecodeComponent(url).Some? ==>
              var id := GetVideoId(DecodeComponent(url).value, queryV);
              && (id.Err? ==> r == Refused(500, DownloadFailed, Some(InvalidUrlMessage)))
              && (id == Ok("") ==> r == Refused(400, InvalidUrlMessage, None))
              && (id.Ok? && id.value != "" && fetch(WatchUrl(id.value)).Err? ==>
                    r == Refused(500, DownloadFailed, Some(fetch(WatchUrl(id.value)).error)))
              && (id.Ok? && id.value != "" && fetch(WatchUrl(id.value)).Ok? ==>
                    var info := fetch(WatchUrl(id.value)).value;
                    && (ResolveFormat(info.formats, parseItag(itag)).Err? ==> r == Refused(404, NotFound, None))
                    && (ResolveFormat(info.formats, parseItag(itag)).Ok? ==>
                          r.Stream? && r.plan.format == ResolveFormat(info.formats, parseItag(itag)).value.format
                          && r.plan.filename == DownloadName(info.title, ResolveFormat(info.formats, parseItag(itag)).value.audioOnly)
                          && r.plan == Plan(info.title, ResolveFormat(info.formats, parseItag(itag)).value)))
  {
    match Prepare(url, itag, queryV, fetch)
    case Err(reply) => reply
    case Ok(info) =>
      match ResolveFormat(info.formats, parseItag(itag))
      case Err(_) => Refused(404, NotFound, None)
      case Ok(res) => Stream(Plan(info.title, res))
  }

  /** The whole route as written: where the substitution would happen, the
      `const` TypeError reaches the route's `catch` and the reply is a 500.
      It differs from the intended route exactly there, where the intended
      one streams. */
  function HandleDownloadAsWritten(url: string, itag: string, parseItag: string -> Option<int>,
                                   queryV: string -> Option<string>, fetch: string -> Result<VideoInfo, string>): (r: DownloadReply)
    ensures r != HandleDownload(url, itag, parseItag, queryV, fetch) <==>
              && Prepare(url, itag, queryV, fetch).Ok?
              && ResolveFormatAsWritten(Prepare(url, itag, queryV, fetch).value.formats, parseItag(itag)) == Err(ConstReassignment)
    ensures r != HandleDownload(url, itag, parseItag, queryV, fetch) ==>
              && r == Refused(500, DownloadFailed, Some(ConstAssignment))
              && HandleDownload(url, itag, parseItag, queryV, fetch).Stream?
  {
    match Prepare(url, itag, queryV, fetch)
    case Err(reply) => reply
    case Ok(info) =>
      AsWrittenFailsExactlyOnSwap(info.formats, parseItag(itag));
      match ResolveFormatAsWritten(info.formats, parseItag(itag))
      case Err(FormatNotFound) => Refused(404, NotFound, None)
      case Err(ConstReassignment) => Refused(500, DownloadFailed, Some(ConstAssignment))
      case Ok(res) => Stream(Plan(info.title, res))
  }
}
