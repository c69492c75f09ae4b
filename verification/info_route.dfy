/** The `POST /download` route of server.js: from a pasted URL to the video's
    details, with the in-memory `videoInfoCache`. */
module InfoRoute {
  import opened Wrappers
  import opened Seqs
  import opened VideoUrl
  import opened Formats
  import opened HumanTime

  /** What the provider reports about a video (`info` from `ytdl.getInfo`). */
  datatype VideoInfo = VideoInfo(
    title: string,
    thumbnails: seq<Thumbnail>,
    lengthSeconds: nat,
    formats: seq<Descriptor>)

  /** The JSON body of a successful reply, `videoDetails`. */
  datatype Details = Details(
    title: string,
    thumbnailUrl: Option<string>,
    duration: string,
    formats: seq<SelectedFormat>)

  /** `videoInfoCache`, keyed by video id. */
  type Cache = map<string, Details>

  /** The reply: the details, or a status with an `error` text and, for the
      500 branch, the `details` text of the caught error. */
  datatype Reply =
    | Success(details: Details)
    | Failure(status: nat, error: string, reason: Option<string>)

  const MissingUrl := "Please provide a YouTube URL"
  const InvalidUrl := "Invalid YouTube URL"
  const ProcessingFailed := "Failed to process video"

  /** `videoDetails` built from the provider's answer. */
  function BuildDetails(info: VideoInfo): (d: Details)
    ensures d.title == info.title
    ensures d.thumbnailUrl.None? <==> info.thumbnails == []
    ensures d.thumbnailUrl.Some? ==>
              exists i :: IsEarliestMax(info.thumbnails, i, Any(), Width) && info.thumbnails[i].url == d.thumbnailUrl.value
    ensures |d.formats| <= |QualityOrder| + 1
    ensures d.formats == SelectFormats(info.formats) && d.duration == ToHumanTime(info.lengthSeconds)
  {
    var thumbnail := BestThumbnail(info.thumbnails);
    Details(
      info.title,
      if thumbnail.Some? then Some(thumbnail.value.url) else None,
      ToHumanTime(info.lengthSeconds),
      SelectFormats(info.formats))
  }

  /** `videoInfoCache.get(id)`, falling back to storing `computed`: the reply is
      what the cache holds for `id` afterwards, an existing entry is never
      replaced, and no other key is touched. */
  function GetOrInsert(cache: Cache, id: string, computed: Details): (out: (Details, Cache))
    ensures out.1.Keys == cache.Keys + {id}
    ensures id in out.1 && out.1[id] == out.0
    ensures forall k :: k in cache ==> out.1[k] == cache[k]
    ensures id !in cache ==> out.0 == computed
  {
    if id in cache then (cache[id], cache) else (computed, cache[id := computed])
  }

  /** The whole route. `queryV` stands for `new URL(url).searchParams.get('v')`
      (`None` when it throws or finds nothing), `validate` for
      `ytdl.validateURL` and `fetch` for `ytdl.getInfo`, whose failure
      carries the error's message. */
  function HandleInfo(cache: Cache, url: string, queryV: string -> Option<string>,
                      validate: string -> bool, fetch: string -> Result<VideoInfo, string>): (out: (Reply, Cache))
    ensures url == "" ==> out == (Failure(400, MissingUrl, None), cache)
    ensures url != "" && GetVideoId(url, queryV).Err? ==>
              out == (Failure(500, ProcessingFailed, Some(InvalidUrlMessage)), cache)
    ensures url != "" && GetVideoId(url, queryV) == Ok("") ==> out == (Failure(400, InvalidUrlMessage, None), cache)
    ensures url != "" && GetVideoId(url, queryV).Ok? && GetVideoId(url, queryV).value != "" ==>
              var videoUrl := WatchUrl(GetVideoId(url, queryV).value);
              && (!validate(videoUrl) ==> out == (Failure(400, InvalidUrl, None), cache))
              && (validate(videoUrl) && fetch(videoUrl).Err? ==>
                    out == (Failure(500, ProcessingFailed, Some(fetch(videoUrl).error)), cache))
    ensures out.0.Success? <==>
              && url != ""
              && GetVideoId(url, queryV).Ok? && GetVideoId(url, queryV).value != ""
              && validate(WatchUrl(GetVideoId(url, queryV).value))
              && fetch(WatchUrl(GetVideoId(url, queryV).value)).Ok?
    ensures out.0.Failure? ==> out.1 == cache
    ensures out.0.Success? ==>
              var id := GetVideoId(url, queryV).value;
              && out.1.Keys == cache.Keys + {id}
              && id in out.1 && out.1[id] == out.0.details
              && (id in cache ==> out.0.details == cache[id])
              && (id !in cache ==> out.0.details == BuildDetails(fetch(WatchUrl(id)).value))
    ensures forall k :: k in cache ==> k in out.1 && out.1[k] == cache[k]
  {
    if url == "" then (Failure(400, MissingUrl, None), cache)
    else match GetVideoId(url, queryV)
      case Err(_) => (Failure(500, ProcessingFailed, Some(InvalidUrlMessage)), cache)
      case Ok(id) =>
        if id == "" then (Failure(400, InvalidUrlMessage, None), cache)
        else
          var videoUrl := WatchUrl(id);
          if !validate(videoUrl) then (Failure(400, InvalidUrl, None), cache)
          else match fetch(videoUrl)
            case Err(message) => (Failure(500, ProcessingFailed, Some(message)), cache)
            case Ok(info) =>
              var (details, cache') := GetOrInsert(cache, id, BuildDetails(info));
              (Success(details), cache')
  }

  /** The provider is asked before the cache is consulted, so a provider
      failure fails the request even when the video's details are cached. */
  lemma ProviderFailureBeatsCache(cache: Cache, url: string, queryV: string -> Option<string>,
                                  validate: string -> bool, fetch: string -> Result<VideoInfo, string>)
    requires url != "" && GetVideoId(url, queryV).Ok? && GetVideoId(url, queryV).value != ""
    requires GetVideoId(url, queryV).value in cache
    requires validate(WatchUrl(GetVideoId(url, queryV).value))
    requires fetch(WatchUrl(GetVideoId(url, queryV).value)).Err?
    ensures HandleInfo(cache, url, queryV, validate, fetch).0 ==
              Failure(500, ProcessingFailed, Some(fetch(WatchUrl(GetVideoId(url, queryV).value)).error))
  {
  }

  /** On a hit the stored details are served, whatever the provider now
      reports: the fresh answer is computed and dropped. */
  lemma CachedDetailsWin(cache: Cache, url: string, queryV: string -> Option<string>,
                         validate: string -> bool, fetch: string -> Result<VideoInfo, string>)
    requires url != "" && GetVideoId(url, queryV).Ok? && GetVideoId(url, queryV).value != ""
    requires GetVideoId(url, queryV).value in cache
    requires validate(WatchUrl(GetVideoId(url, queryV).value))
    requires fetch(WatchUrl(GetVideoId(url, queryV).value)).Ok?
    ensures HandleInfo(cache, url, queryV, validate, fetch) == (Success(cache[GetVideoId(url, queryV).value]), cache)
  {
  }

  /** A run of requests, one after the other, threading the cache. */
  function Serve(cache: Cache, urls: seq<string>, queryV: string -> Option<string>,
                 validate: string -> bool, fetch: string -> Result<VideoInfo, string>): (out: (seq<Reply>, Cache))
    ensures |out.0| == |urls|
    ensures forall k :: k in cache ==> k in out.1 && out.1[k] == cache[k]
    decreases |urls|
  {
    if urls == [] then ([], cache)
    else
      var (reply, cache') := HandleInfo(cache, urls[0], queryV, validate, fetch);
      var (replies, final) := Serve(cache', urls[1..], queryV, validate, fetch);
      ([reply] + replies, final)
  }

  /** Every successful reply in a run is what the cache holds for its video
      at the end of the run. */
  lemma {:induction false} RepliesAreRemembered(cache: Cache, urls: seq<string>, queryV: string -> Option<string>,
                                                validate: string -> bool, fetch: string -> Result<VideoInfo, string>)
    ensures var (replies, final) := Serve(cache, urls, queryV, validate, fetch);
      forall i :: 0 <= i < |urls| && replies[i].Success? ==>
        GetVideoId(urls[i], queryV).Ok? && GetVideoId(urls[i], queryV).value in final
        && final[GetVideoId(urls[i], queryV).value] == replies[i].details
    decreases |urls|
  {
    if urls != [] {
      var (reply, cache') := HandleInfo(cache, urls[0], queryV, validate, fetch);
      var (later, final) := Serve(cache', urls[1..], queryV, validate, fetch);
      RepliesAreRemembered(cache', urls[1..], queryV, validate, fetch);
      var replies := [reply] + later;
      forall i | 0 <= i < |urls| && replies[i].Success?
        ensures GetVideoId(urls[i], queryV).Ok? && GetVideoId(urls[i], queryV).value in final
                && final[GetVideoId(urls[i], queryV).value] == replies[i].details
      {
        if i == 0 {
          ReplyIsRemembered(cache, urls[0], queryV, validate, fetch, final);
        } else {
          assert urls[1..][i - 1] == urls[i] && later[i - 1] == replies[i];
        }
      }
    }
  }

  /** A successful reply stays what the cache holds for its video, in any
      later cache that keeps the entries of the one the request left. */
  lemma ReplyIsRemembered(cache: Cache, url: string, queryV: string -> Option<string>,
                          validate: string -> bool, fetch: string -> Result<VideoInfo, string>, final: Cache)
    requires forall k :: k in HandleInfo(cache, url, queryV, validate, fetch).1 ==>
               k in final && final[k] == HandleInfo(cache, url, queryV, validate, fetch).1[k]
    requires HandleInfo(cache, url, queryV, validate, fetch).0.Success?
    ensures GetVideoId(url, queryV).Ok? && GetVideoId(url, queryV).value in final
    ensures final[GetVideoId(url, queryV).value] == HandleInfo(cache, url, queryV, validate, fetch).0.details
  {
  }

  /** First answer wins: within a run, every successful reply for the same
      video carries the same details. */
  lemma SameVideoSameDetails(cache: Cache, urls: seq<string>, queryV: string -> Option<string>,
                             validate: string -> bool, fetch: string -> Result<VideoInfo, string>, i: nat, j: nat)
    requires i < |urls| && j < |urls|
    requires Serve(cache, urls, queryV, validate, fetch).0[i].Success?
    requires Serve(cache, urls, queryV, validate, fetch).0[j].Success?
    requires GetVideoId(urls[i], queryV) == GetVideoId(urls[j], queryV)
    ensures Serve(cache, urls, queryV, validate, fetch).0[i] == Serve(cache, urls, queryV, validate, fetch).0[j]
  {
    RepliesAreRemembered(cache, urls, queryV, validate, fetch);
  }
}
