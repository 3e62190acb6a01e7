/**
  The records of the songbird audio library that the YouTube source fills in or
  hands back: track metadata, the stream error, and an HTTP stream request.
*/
module Songbird {
  import opened Wrappers
  import opened Durations

  /** songbird's `AuxMetadata`: every field optional. */
  datatype AuxMetadata = AuxMetadata(
    track: Option<string>,
    artist: Option<string>,
    album: Option<string>,
    date: Option<string>,
    channels: Option<nat>,
    channel: Option<string>,
    startTime: Option<Duration>,
    duration: Option<Duration>,
    sampleRate: Option<nat>,
    sourceUrl: Option<string>,
    title: Option<string>,
    thumbnail: Option<string>)

  /** `AuxMetadata::default()`: nothing known. */
  const DEFAULT_METADATA: AuxMetadata :=
    AuxMetadata(None, None, None, None, None, None, None, None, None, None, None, None)

  /** What an error from a collaborator library carries; its contents are not modelled. */
  datatype ClientError = ClientError(code: nat)

  /** The boxed error inside `AudioStreamError::Fail`: a message or a wrapped library error. */
  datatype Cause = Message(text: string) | Wrapped(inner: ClientError)

  /** songbird's `AudioStreamError` (its `RetryIn` variant is never produced here). */
  datatype AudioStreamError = Fail(cause: Cause) | Unsupported

  /** A shared HTTP client handle; only its identity matters. */
  datatype HttpClient = HttpClient(id: nat)

  /** songbird's `HttpRequest`: what is fetched, with which headers, and the length if known. */
  datatype HttpRequest = HttpRequest(
    client: HttpClient,
    request: string,
    headers: seq<(string, string)>,
    contentLength: Option<nat>)
}
