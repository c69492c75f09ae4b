/** `getVideoId` (server.js): the video identifier of a submitted YouTube URL.
    Parsing a URL into its query parameters is not modelled; the value of the
    `v` parameter is supplied by the caller as `queryV`, which returns `None`
    where `new URL(url)` throws or the parameter is absent. */
module VideoUrl {
  import opened Wrappers
  import opened Text

  /** The single error `getVideoId` throws, whatever went wrong. */
  datatype UrlError = InvalidUrlFormat

  const InvalidUrlMessage := "Invalid YouTube URL format"

  const ShortsMarker := "/shorts/"
  const ShortLinkMarker := "youtu.be/"
  const WatchMarker := "youtube.com/"

  /** The characters at which a path-segment identifier is cut (`/[?#]/`). */
  const Stops: set<char> := {'?', '#'}

  /** `id` is what remains of the text after the first `marker` in `url` once it
      is cut at the next `marker`, `?` or `#`, whichever comes first. */
  predicate CutAfterMarker(url: string, marker: string, id: string)
  {
    && Contains(url, marker)
    && var rest := url[IndexOf(url, marker).value + |marker|..];
    && |id| <= |rest| && id == rest[..|id|]
    && (forall k :: 0 <= k < |id| ==> id[k] !in Stops && !OccursAt(rest, marker, k))
    && (|id| == |rest| || rest[|id|] in Stops || OccursAt(rest, marker, |id|))
  }

  /** `url.split(marker)[1].split('?')[0].split(/[?#]/)[0]` */
  function PathSegmentId(url: string, marker: string): (r: Option<string>)
    requires |marker| > 0
    ensures r.Some? <==> Contains(url, marker)
    ensures r.Some? ==> CutAfterMarker(url, marker, r.value)
  {
    match SecondPiece(url, marker)
    case None => None
    case Some(piece) =>
      var beforeQuery := TakeUntil(piece, {'?'});
      var id := TakeUntil(beforeQuery, Stops);
      var rest := url[IndexOf(url, marker).value + |marker|..];
      assert piece == rest[..|piece|];
      assert id == rest[..|id|];
      assert |id| < |beforeQuery| ==> rest[|id|] == beforeQuery[|id|];
      assert |id| == |beforeQuery| < |piece| ==> rest[|id|] == piece[|id|];
      Some(id)
  }

  /** `getVideoId(url)`: the three URL shapes are tried in a fixed order, and
      every failure is reported as the same `InvalidUrlFormat` error. */
  function GetVideoId(url: string, queryV: string -> Option<string>): (r: Result<string, UrlError>)
    ensures Contains(url, ShortsMarker) ==>
              r.Ok? && CutAfterMarker(url, ShortsMarker, r.value)
    ensures !Contains(url, ShortsMarker) && Contains(url, ShortLinkMarker) ==>
              r.Ok? && CutAfterMarker(url, ShortLinkMarker, r.value)
    ensures !Contains(url, ShortsMarker) && !Contains(url, ShortLinkMarker) && Contains(url, WatchMarker) ==>
              && (r.Ok? <==> queryV(url).Some? && queryV(url).value != "")
              && (r.Ok? ==> queryV(url) == Some(r.value))
    ensures !Contains(url, ShortsMarker) && !Contains(url, ShortLinkMarker) && !Contains(url, WatchMarker) ==>
              r == Err(InvalidUrlFormat)
  {
    if Contains(url, ShortsMarker) then
      Ok(PathSegmentId(url, ShortsMarker).value)
    else if Contains(url, ShortLinkMarker) then
      Ok(PathSegmentId(url, ShortLinkMarker).value)
    else if Contains(url, WatchMarker) then
      match queryV(url)
      case Some(v) => if v == "" then Err(InvalidUrlFormat) else Ok(v)
      case None => Err(InvalidUrlFormat)
    else
      Err(InvalidUrlFormat)
  }

  /** A result of the path-segment shapes never carries a query or a fragment. */
  lemma PathSegmentIdHasNoQuery(url: string, queryV: string -> Option<string>)
    requires Contains(url, ShortsMarker) || Contains(url, ShortLinkMarker)
    ensures GetVideoId(url, queryV).Ok?
    ensures '?' !in GetVideoId(url, queryV).value && '#' !in GetVideoId(url, queryV).value
  {
    var id := GetVideoId(url, queryV).value;
    assert forall k :: 0 <= k < |id| ==> id[k] !in Stops;
  }

  /** The canonical watch URL the handlers build from an identifier. */
  function WatchUrl(id: string): (u: string)
    ensures |u| > |id| && u[|u| - |id|..] == id
  {
    "https://www.youtube.com/watch?v=" + id
  }

  /** An identifier in YouTube's alphabet: no `/`, `?` or `#`. */
  predicate IsPlainId(id: string)
  {
    forall k :: 0 <= k < |id| ==>
      ('a' <= id[k] <= 'z') || ('A' <= id[k] <= 'Z') || ('0' <= id[k] <= '9') || id[k] == '-' || id[k] == '_'
  }

  lemma PathSegmentOfPlainId(prefix: string, id: string, marker: string)
    requires IsPlainId(id) && |marker| > 0 && marker[|marker| - 1] == '/'
    requires Contains(prefix, marker) && IndexOf(prefix, marker).value + |marker| == |prefix|
    ensures PathSegmentId(prefix + id, marker) == Some(id)
  {
    FirstOccurrenceExtends(prefix, id, marker);
    var url := prefix + id;
    assert url[|prefix|..] == id;
    AbsentByCharacter(id, marker, |marker| - 1);
    var beforeQuery := TakeUntil(id, {'?'});
    assert |beforeQuery| == |id|;
    assert TakeUntil(beforeQuery, Stops) == id;
  }

  /** A text without an `r` does not contain the shorts marker; none of the
      URL prefixes the server builds has one. */
  lemma PrefixHasNoShorts(prefix: string)
    requires 'r' !in prefix
    ensures !Contains(prefix, ShortsMarker)
  {
    AbsentByCharacter(prefix, ShortsMarker, 4);
  }

  lemma ShortsPrefixHead()
    ensures !Contains("https://www.youtube.com/" + "shorts", ShortsMarker)
  {
    PrefixHasNoShorts("https://www.youtube.com/");
    AbsentWithTail("https://www.youtube.com/", "shorts", ShortsMarker);
  }

  lemma ShortsPrefixMarker()
    ensures IndexOf("https://www.youtube.com/shorts/", ShortsMarker) == Some(23)
  {
    var shorts := "https://www.youtube.com/shorts/";
    assert shorts[..30] == "https://www.youtube.com/" + "shorts";
    assert shorts[23..31] == ShortsMarker;
    ShortsPrefixHead();
    FirstOccurrenceAt(shorts, ShortsMarker, 23);
  }

  lemma ShortsUrlId(id: string, queryV: string -> Option<string>)
    requires IsPlainId(id)
    ensures GetVideoId("https://www.youtube.com/shorts/" + id, queryV) == Ok(id)
  {
    var shorts := "https://www.youtube.com/shorts/";
    ShortsPrefixMarker();
    PathSegmentOfPlainId(shorts, id, ShortsMarker);
    FirstOccurrenceExtends(shorts, id, ShortsMarker);
  }

  lemma ShortLinkPrefixMarker()
    ensures IndexOf("https://youtu.be/", ShortLinkMarker) == Some(8)
  {
    var link := "https://youtu.be/";
    assert link[..16] == "https://" + "youtu.be";
    AbsentWithTail("https://", "youtu.be", ShortLinkMarker);
    assert OccursAt(link, ShortLinkMarker, 8);
    FirstOccurrenceAt(link, ShortLinkMarker, 8);
  }

  lemma ShortLinkUrlSegment(id: string)
    requires IsPlainId(id)
    ensures !Contains("https://youtu.be/" + id, ShortsMarker)
    ensures PathSegmentId("https://youtu.be/" + id, ShortLinkMarker) == Some(id)
  {
    assert '/' !in id;
    PrefixHasNoShorts("https://youtu.be/");
    ShortLinkPrefixMarker();
    AbsentWithTail("https://youtu.be/", id, ShortsMarker);
    PathSegmentOfPlainId("https://youtu.be/", id, ShortLinkMarker);
  }

  lemma ShortLinkUrlId(id: string, queryV: string -> Option<string>)
    requires IsPlainId(id)
    ensures GetVideoId("https://youtu.be/" + id, queryV) == Ok(id)
  {
    ShortLinkUrlSegment(id);
  }

  lemma HostHasNoShortLink()
    ensures !Contains("youtube.com/", ShortLinkMarker)
  {
    DiffersAt("youtube.com/", ShortLinkMarker, 0, 5);
    DiffersAt("youtube.com/", ShortLinkMarker, 1, 0);
    DiffersAt("youtube.com/", ShortLinkMarker, 2, 0);
    DiffersAt("youtube.com/", ShortLinkMarker, 3, 0);
  }

  lemma HostPrefixHasNoShortLink()
    ensures !Contains("https://www.youtube.com/", ShortLinkMarker)
  {
    assert "https://www.youtube.com/" == "https://www." + "youtube.com/";
    HostHasNoShortLink();
    AbsentWithHead("https://www.", "youtube.com/", ShortLinkMarker);
  }

  lemma WatchPrefixHasNoShortLink()
    ensures !Contains("https://www.youtube.com/watch?v=", ShortLinkMarker)
  {
    HostPrefixHasNoShortLink();
    AbsentWithTail("https://www.youtube.com/", "watch?v=", ShortLinkMarker);
    assert "https://www.youtube.com/watch?v=" == "https://www.youtube.com/" + "watch?v=";
  }

  lemma WatchHostHead()
    ensures !Contains("https://www.youtube.com", WatchMarker)
  {
    AbsentWithTail("https://", "www.youtube.com", WatchMarker);
    assert "https://www.youtube.com" == "https://" + "www.youtube.com";
  }

  lemma WatchPrefixHasWatchMarker()
    ensures Contains("https://www.youtube.com/watch?v=", WatchMarker)
  {
    var watch := "https://www.youtube.com/watch?v=";
    assert watch[..23] == "https://www.youtube.com";
    assert watch[12..24] == WatchMarker;
    WatchHostHead();
    FirstOccurrenceAt(watch, WatchMarker, 12);
  }

  lemma WatchUrlId(id: string, queryV: string -> Option<string>)
    requires IsPlainId(id) && id != ""
    requires queryV(WatchUrl(id)) == Some(id)
    ensures GetVideoId(WatchUrl(id), queryV) == Ok(id)
  {
    assert '/' !in id;
    var watch := "https://www.youtube.com/watch?v=";
    PrefixHasNoShorts("https://www.youtube.com/watch?v=");
    WatchPrefixHasNoShortLink();
    WatchPrefixHasWatchMarker();
    AbsentWithTail(watch, id, ShortsMarker);
    AbsentWithTail(watch, id, ShortLinkMarker);
    FirstOccurrenceExtends(watch, id, WatchMarker);
  }

  /** The short-form, shortened-domain and watch URLs of one identifier all
      yield that identifier. */
  lemma SameIdFromEveryShape(id: string, queryV: string -> Option<string>)
    requires IsPlainId(id) && id != ""
    requires queryV(WatchUrl(id)) == Some(id)
    ensures GetVideoId("https://www.youtube.com/shorts/" + id, queryV)
         == GetVideoId("https://youtu.be/" + id, queryV)
         == GetVideoId(WatchUrl(id), queryV)
         == Ok(id)
  {
    ShortsUrlId(id, queryV);
    ShortLinkUrlId(id, queryV);
    WatchUrlId(id, queryV);
  }

  /** A string with none of the three markers is rejected. */
  lemma NotAUrlIsRejected(queryV: string -> Option<string>)
    ensures GetVideoId("not-a-url", queryV) == Err(InvalidUrlFormat)
  {
    AbsentByCharacter("not-a-url", ShortsMarker, 0);
    AbsentByCharacter("not-a-url", ShortLinkMarker, 8);
    AbsentByCharacter("not-a-url", WatchMarker, 11);
  }
}
