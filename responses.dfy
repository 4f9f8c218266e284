/** The job payload and the two shapes of the response the handler publishes. */
module Responses {
  import opened Options
  import opened Async
  import opened Naming

  /** Where the uploaded source video lives. */
  datatype StorageLink = StorageLink(bucket: string, path: string)

  /**
   * The decoded job payload (a `VideoUpload` record). `rawStorageLink` is
   * `None` when the decoded value lacks that field.
   */
  datatype Payload = Payload(id: string, rawStorageLink: Option<StorageLink>)

  /** One rendered artifact in a success response. */
  datatype Entry = Entry(path: string, bucket: string, version: Version, videoID: string)

  /**
   * The object literal handed to `publishResponse`: on success it echoes the
   * payload as `requestPayload`; on failure the payload travels under the key
   * `renderPayload` beside the caught `error`.
   */
  datatype Response =
    | Succeeded(requestPayload: Payload, result: seq<Entry>)
    | Failed(renderPayload: Payload, error: Cause)

  /** The own property names of the object literal, in source order. */
  function Keys(r: Response): seq<string>
  {
    match r
    case Succeeded(_, _) => ["requestPayload", "error", "result"]
    case Failed(_, _) => ["renderPayload", "error"]
  }

  /** The value of the `error` property; `None` is `undefined`. */
  function ErrorOf(r: Response): Option<Cause>
  {
    match r
    case Succeeded(_, _) => None
    case Failed(_, e) => Some(e)
  }

  /** The payload the response carries, under whichever key. */
  function PayloadOf(r: Response): Payload
  {
    match r
    case Succeeded(p, _) => p
    case Failed(p, _) => p
  }

  /**
   * The response published when every step succeeded: `error` undefined and
   * exactly three entries, WEBM, MP4, FLAC in that order, each in the source's
   * bucket, under the payload's id and at the name derived for its version.
   */
  function SuccessResponse(payload: Payload, link: StorageLink): (r: Response)
    ensures r.Succeeded? && r.requestPayload == payload && ErrorOf(r) == None
    ensures |r.result| == 3
    ensures r.result[0].version == WEBM && r.result[1].version == MP4 && r.result[2].version == FLAC
    ensures forall e | e in r.result ::
      && e.bucket == link.bucket
      && e.videoID == payload.id
      && e.path == ArtifactName(link.path, e.version)
  {
    Succeeded(payload, [
      Entry(ArtifactName(link.path, WEBM), link.bucket, WEBM, payload.id),
      Entry(ArtifactName(link.path, MP4), link.bucket, MP4, payload.id),
      Entry(ArtifactName(link.path, FLAC), link.bucket, FLAC, payload.id)
    ])
  }

  /** The entries of a success response name three distinct objects. */
  lemma SuccessPathsDistinct(payload: Payload, link: StorageLink, i: nat, j: nat)
    requires i < j < 3
    ensures SuccessResponse(payload, link).result[i].path != SuccessResponse(payload, link).result[j].path
  {
    var r := SuccessResponse(payload, link).result;
    assert r[i] in r && r[j] in r;
    ArtifactNamesDistinct(link.path, r[i].version, r[j].version);
  }

  /**
   * A failure response has no `result` and no `requestPayload` key: a reader
   * that looks for the payload under the success key finds nothing.
   */
  lemma FailureKeys(r: Response)
    requires r.Failed?
    ensures "requestPayload" !in Keys(r) && "result" !in Keys(r)
    ensures "renderPayload" in Keys(r) && ErrorOf(r) == Some(r.error)
  {
    assert Keys(r)[0] != "requestPayload" by { assert |Keys(r)[0]| != |"requestPayload"|; }
    assert Keys(r)[1] != "requestPayload" by { assert |Keys(r)[1]| != |"requestPayload"|; }
  }
}
