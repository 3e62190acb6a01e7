/**
  The eager YouTube audio source (audio/sources.rs): construction asks the video-info
  service about a video, refuses unplayable videos and videos without an audio format,
  deciphers the chosen format's stream URL, and keeps the metadata it derived, so that
  the playback queue can show it before the stream is ever opened.

  The video-info service (`Innertube`) is a parameter: its lookup, its choice of the
  best audio format and its decipher step are arbitrary functions here.
*/
module Sources {
  import opened Wrappers
  import opened Decimal
  import opened Durations
  import opened Songbird

  const WATCH_URL_PREFIX: string := "https://www.youtube.com/watch?v="
  const PLAYABLE_STATUS: string := "OK"
  const UNAVAILABLE_MESSAGE: string := "Video is unavailable."
  const NO_FORMATS_MESSAGE: string := "No formats found"
  /** Every source is announced as two-channel audio. */
  const STEREO: nat := 2

  datatype Thumbnail = Thumbnail(url: string)

  /** The video-info service's description of a video; `lengthSeconds` is decimal text. */
  datatype VideoDetails = VideoDetails(
    videoId: string,
    title: string,
    author: string,
    lengthSeconds: string,
    thumbnails: seq<Thumbnail>)

  /** A stream format; only the advertised content length (decimal text, if any) is used. */
  datatype Format = Format(itag: nat, contentLength: Option<string>)

  datatype VideoInfo = VideoInfo(
    playabilityStatus: string,
    videoDetails: VideoDetails,
    formats: seq<Format>)

  /** The video-info service as the source sees it: three calls whose answers are given. */
  datatype Innertube = Innertube(
    info: string -> Result<VideoInfo, ClientError>,
    bestAudio: VideoInfo -> Option<Format>,
    decipherFormat: Format -> Result<string, ClientError>)

  /** A constructed source. Its fields are fixed at construction and never updated. */
  datatype YouTube = YouTube(
    client: HttpClient,
    metadata: AuxMetadata,
    fileSize: Option<string>,
    streamUrl: string)

  /** What `details_to_metadata` unwraps: a parseable length and at least one thumbnail. */
  predicate WellFormedDetails(d: VideoDetails) {
    ParseU64(d.lengthSeconds).Some? && |d.thumbnails| > 0
  }

  /** Builds the queue's metadata record from the video details. */
  function DetailsToMetadata(d: VideoDetails): (m: AuxMetadata)
    requires WellFormedDetails(d)
    ensures m.title == Some(d.title) && m.channel == Some(d.author)
    ensures m.sourceUrl == Some(WATCH_URL_PREFIX + d.videoId)
    ensures m.thumbnail == Some(d.thumbnails[0].url)
    ensures m.channels == Some(STEREO)
    ensures m.duration.Some? && m.duration.value.Valid() && m.duration.value.nanos == 0
    ensures ParseU64(d.lengthSeconds) == Some(m.duration.value.AsSecs())
    ensures m.track.None? && m.artist.None? && m.album.None? && m.date.None?
    ensures m.startTime.None? && m.sampleRate.None?
  {
    var length := ParseU64(d.lengthSeconds).value;
    var thumbnail := d.thumbnails[0].url;
    var url := WATCH_URL_PREFIX + d.videoId;
    DEFAULT_METADATA.(
      channels := Some(STEREO),
      channel := Some(d.author),
      duration := Some(FromSecs(length)),
      sourceUrl := Some(url),
      title := Some(d.title),
      thumbnail := Some(thumbnail))
  }

  /** The video id a watch URL points at (the inverse of building the URL). */
  function WatchUrlVideoId(url: string): Option<string> {
    if |url| >= |WATCH_URL_PREFIX| && url[..|WATCH_URL_PREFIX|] == WATCH_URL_PREFIX
    then Some(url[|WATCH_URL_PREFIX|..])
    else None
  }

  /** The source URL names the video it came from, so distinct videos get distinct links. */
  lemma WatchUrlRoundTrip(d: VideoDetails)
    requires WellFormedDetails(d)
    ensures WatchUrlVideoId(DetailsToMetadata(d).sourceUrl.value) == Some(d.videoId)
  {
    var url := DetailsToMetadata(d).sourceUrl.value;
    assert url[..|WATCH_URL_PREFIX|] == WATCH_URL_PREFIX;
    assert url[|WATCH_URL_PREFIX|..] == d.videoId;
  }

  /** A video whose length the service reports as the numeral of n lasts n whole seconds. */
  lemma DurationRoundTrip(d: VideoDetails, n: nat)
    requires n <= U64_MAX && |d.thumbnails| > 0
    requires d.lengthSeconds == ToDecimal(n)
    ensures WellFormedDetails(d)
    ensures DetailsToMetadata(d).duration == Some(FromSecs(n))
  {
    ParseToDecimal(n);
  }

  predicate Playable(v: VideoInfo) {
    v.playabilityStatus == PLAYABLE_STATUS
  }

  /** Every step of `YouTube::new` succeeds: lookup, playability, format choice, decipher. */
  predicate Resolves(it: Innertube, url: string) {
    && it.info(url).Success?
    && Playable(it.info(url).value)
    && it.bestAudio(it.info(url).value).Some?
    && it.decipherFormat(it.bestAudio(it.info(url).value).value).Success?
  }

  /** `YouTube::new`: lookup, then the playability check, then the best audio format, then
      decipher; the first step that fails decides the error. The metadata built last
      unwraps the video's length and first thumbnail, which the caller guarantees. */
  function New(it: Innertube, client: HttpClient, url: string): (r: Result<YouTube, AudioStreamError>)
    requires Resolves(it, url) ==> WellFormedDetails(it.info(url).value.videoDetails)
    ensures r.Success? <==> Resolves(it, url)
    ensures r.Failure? ==> r.error.Fail?
    ensures it.info(url).Failure? ==> r == Failure(Fail(Wrapped(it.info(url).error)))
    ensures it.info(url).Success? && !Playable(it.info(url).value) ==>
      r == Failure(Fail(Message(UNAVAILABLE_MESSAGE)))
    ensures it.info(url).Success? && Playable(it.info(url).value) && it.bestAudio(it.info(url).value).None? ==>
      r == Failure(Fail(Message(NO_FORMATS_MESSAGE)))
    ensures (it.info(url).Success? && Playable(it.info(url).value) && it.bestAudio(it.info(url).value).Some? &&
             it.decipherFormat(it.bestAudio(it.info(url).value).value).Failure?) ==>
      r == Failure(Fail(Wrapped(it.decipherFormat(it.bestAudio(it.info(url).value).value).error)))
    ensures r.Success? ==>
      var video := it.info(url).value;
      var format := it.bestAudio(video).value;
      && r.value.client == client
      && r.value.streamUrl == it.decipherFormat(format).value
      && r.value.fileSize == format.contentLength
      && r.value.metadata == DetailsToMetadata(video.videoDetails)
  {
    match it.info(url)
    case Failure(e) => Failure(Fail(Wrapped(e)))
    case Success(video) =>
      if video.playabilityStatus != PLAYABLE_STATUS then Failure(Fail(Message(UNAVAILABLE_MESSAGE)))
      else
        match it.bestAudio(video)
        case None => Failure(Fail(Message(NO_FORMATS_MESSAGE)))
        case Some(format) =>
          match it.decipherFormat(format)
          case Failure(e) => Failure(Fail(Wrapped(e)))
          case Success(streamUrl) =>
            Success(YouTube(client, DetailsToMetadata(video.videoDetails), format.contentLength, streamUrl))
  }

  /** The steps after the first failing one are never consulted: two services that agree up
      to that failure give the same outcome, whatever they would answer afterwards. */
  lemma FirstFailureDecides(it: Innertube, other: Innertube, client: HttpClient, url: string)
    requires Resolves(it, url) ==> WellFormedDetails(it.info(url).value.videoDetails)
    requires other.info(url) == it.info(url)
    requires it.info(url).Success? && Playable(it.info(url).value) ==>
      other.bestAudio(it.info(url).value) == it.bestAudio(it.info(url).value)
    requires !Resolves(it, url)
    requires Resolves(other, url) ==> WellFormedDetails(other.info(url).value.videoDetails)
    requires it.info(url).Success? && Playable(it.info(url).value) && it.bestAudio(it.info(url).value).Some? ==>
      other.decipherFormat(it.bestAudio(it.info(url).value).value) == it.decipherFormat(it.bestAudio(it.info(url).value).value)
    ensures New(other, client, url) == New(it, client, url)
  {
  }

  /** `Compose::create`: the synchronous path is refused whatever the source holds. */
  function Create(y: YouTube): (r: Result<HttpRequest, AudioStreamError>)
    ensures r == Failure(Unsupported)
  {
    Failure(Unsupported)
  }

  /** `Compose::should_create_async`: always. */
  function ShouldCreateAsync(y: YouTube): (b: bool)
    ensures b
  {
    true
  }

  /** The request `Compose::create_async` issues: the stored stream URL on the stored
      client, no extra headers, and the stored file size as the content length. Parsing
      the size unwraps, which the caller guarantees. */
  function StreamRequest(y: YouTube): (req: HttpRequest)
    requires y.fileSize.Some? ==> ParseU64(y.fileSize.value).Some?
    ensures req.client == y.client && req.request == y.streamUrl && req.headers == []
    ensures req.contentLength.Some? <==> y.fileSize.Some?
    ensures y.fileSize.Some? ==> ParseU64(y.fileSize.value) == req.contentLength
  {
    var contentLength := if y.fileSize.Some? then Some(ParseU64(y.fileSize.value).value) else None;
    HttpRequest(y.client, y.streamUrl, [], contentLength)
  }

  /** `Compose::aux_metadata`: the stored record, every time. */
  function GetAuxMetadata(y: YouTube): (r: Result<AuxMetadata, AudioStreamError>)
    ensures r == Success(y.metadata)
  {
    Success(y.metadata)
  }

  /** What a successfully built source reports: the metadata of the video it was built
      for, and a stream request for the deciphered URL carrying the chosen format's length. */
  lemma ResolvedSourceReports(it: Innertube, client: HttpClient, url: string)
    requires Resolves(it, url)
    requires WellFormedDetails(it.info(url).value.videoDetails)
    requires var f := it.bestAudio(it.info(url).value).value;
      f.contentLength.Some? ==> ParseU64(f.contentLength.value).Some?
    ensures New(it, client, url).Success?
    ensures var y := New(it, client, url).value;
      var video := it.info(url).value;
      var f := it.bestAudio(video).value;
      && GetAuxMetadata(y) == Success(DetailsToMetadata(video.videoDetails))
      && StreamRequest(y).request == it.decipherFormat(f).value
      && (f.contentLength.Some? ==> StreamRequest(y).contentLength == ParseU64(f.contentLength.value))
      && Create(y).Failure?
  {
  }
}
