# Render job handler, modelled in Dafny

This project models the render worker of the video-upload backend. The worker
is `renderVideo` in `src/gcloud/VideoRender/videoRenderHandler.ts`. It receives
one PubSub message holding a `VideoUpload` payload and acknowledges it. It then
derives three artifact names from the source object's name, and runs an awaited
chain inside one `try`: it downloads the source, extracts FLAC audio, encodes
an MP4 and encodes a WebM. Finally it publishes one response, either a success
response with three result entries or, from the `catch`, a failure response
carrying the error.

The model has six modules:

- `Options` holds the `Option` datatype.
- `Async` models a JavaScript promise as `Pending` (never settles),
  `Fulfilled(v)` or `Rejected(cause)`.
- `Strings` holds `lastIndexOf` and `split` over `seq<char>`.
- `Naming` holds the pure name derivations:
  - the `/\.[^/.]+$/` replace, as `StripExtension`;
  - `split('.').pop()`, as `InputFormat`;
  - the three artifact names;
  - the FLAC temp path under `/tmp/ts-wtf/`.
- `Responses` holds the payload and the two response object shapes.
- `Render` holds the orchestration.
  - How each awaited promise settles is a parameter, `Environment`.
  - `RenderVideo` returns the log of externally visible effects: the ack, each
    awaited call with its arguments, the start of the unawaited FLAC upload,
    and the publish.
  - It also returns how the promise it hands back stands. The executor never
    calls `resolve` or `reject`, so that promise stays `Pending`.
  - The log is specified by the functions `ChainLog` and `TryLog` and the
    predicate `TryBlock`. The lemmas and method contracts prove:
    - the steps run in pipeline order, each only after every earlier one
      fulfilled;
    - the FLAC upload starts only after a fulfilled FLAC encode, as the
      effect right after that encode and right before the MP4 encode;
    - exactly one response is published, last, unless a started step never
      settles;
    - that response is the success response exactly when every step
      fulfilled, and otherwise carries the first rejection under
      `renderPayload`.

Some behaviour of the code as written, which the model reproduces:

- A message whose data does not parse as JSON is neither acknowledged nor
  answered: `JSON.parse` throws inside the promise executor, before the ack.
- A payload without `rawStorageLink` is acknowledged and then dropped. Reading
  `bucket` of `undefined` throws outside the `try`, so nothing is published.
- The failure response uses the key `renderPayload`, not `requestPayload`.
- The FLAC encoder's input format comes from the local path of the
  downloaded copy, not from the object name.
- The FLAC artifact of a source named `x.flac` is `x.flac` itself.
- Sources differing only in their extension share all three artifact names,
  and so share the FLAC temp path.

The documented intent of the worker and its code differ in three places:

- The intent is that a malformed message is acknowledged and dropped. The
  code does not acknowledge it.
- The intent is that the failure response carries `requestPayload`. The
  code uses `renderPayload`.
- The intent is that exactly one response is always published. The code
  publishes none in several cases. Two of them are in the model: a step
  never settles, or the storage link is missing. The others are listed
  under "Left out" and the model does not cover them: a storage call
  throwing at lines 46-47, a rejection cause that `JSON.stringify` cannot
  serialise at line 102, and an error on the unawaited FLAC pipe.

The model follows the code.

## Model

| member | source | states |
|---|---|---|
| Strings.LastIndexOf | src/gcloud/VideoRender/videoRenderHandler.ts:50 | finds the last dot: `None` exactly when the character is absent, otherwise an index holding it with no later occurrence |
| Strings.Split | src/gcloud/VideoRender/videoRenderHandler.ts:122 | `split` yields at least one part, and no part contains the separator |
| Strings.JoinSplit | src/gcloud/VideoRender/videoRenderHandler.ts:122 | joining the parts of a split with the separator gives back the original string |
| Strings.LastPartIsSuffix | src/gcloud/VideoRender/videoRenderHandler.ts:122 | the part `pop()` returns is a suffix of the string, preceded by the separator unless it is the whole string, which happens exactly when there is one part |
| Naming.StripExtension | src/gcloud/VideoRender/videoRenderHandler.ts:50 | the replace result is a prefix of the name, and either the pattern matches at the cut index or the name is unchanged and the pattern matches nowhere |
| Naming.ExtensionAt | src/gcloud/VideoRender/videoRenderHandler.ts:50 | definition of where `/\.[^/.]+$/` matches: a dot, then one or more characters other than `/` and `.` up to the end; its properties are in `ExtensionAtUnique`, `StripExtension` and `StripAt` |
| Naming.ExtensionAtUnique | src/gcloud/VideoRender/videoRenderHandler.ts:50 | the end-anchored pattern matches at one index at most |
| Naming.InputFormat | src/gcloud/VideoRender/videoRenderHandler.ts:122 | the input format never contains a dot; it is the text after the last dot, or the whole name when there is no dot |
| Naming.StripAndFormat | src/gcloud/VideoRender/videoRenderHandler.ts:50 | the extension is stripped exactly when the name has a dot and the format after it is non-empty and free of `/`; the name is then stem + "." + format |
| Naming.StripAt | src/gcloud/VideoRender/videoRenderHandler.ts:50 | where the pattern matches, the stem is the text before the match and the format the text after its dot |
| Naming.Suffix | src/gcloud/VideoRender/videoRenderHandler.ts:49-59 | definition of the three suffixes `-web.mp4`, `-web.webm` and `.flac`; their properties are in `ArtifactNamesDistinct` and `VideoArtifactIsNotSource` |
| Naming.ArtifactName | src/gcloud/VideoRender/videoRenderHandler.ts:49-59 | definition of an artifact's object name, stem plus suffix; its properties are in `ArtifactNamesDistinct`, `VideoArtifactIsNotSource`, `FlacArtifactIsSourceIff` and `ClipsExample` |
| Naming.ArtifactNamesDistinct | src/gcloud/VideoRender/videoRenderHandler.ts:49-59 | the MP4, WebM and FLAC names of one source are pairwise distinct |
| Naming.VideoArtifactIsNotSource | src/gcloud/VideoRender/videoRenderHandler.ts:49-55 | neither video artifact's name equals the source's name |
| Naming.FlacArtifactIsSourceIff | src/gcloud/VideoRender/videoRenderHandler.ts:57-59 | the FLAC artifact's name equals the source's name exactly when the source ends in `.flac` |
| Naming.ClipsStem | src/gcloud/VideoRender/videoRenderHandler.ts:50 | `clips/a.mov` has stem `clips/a` and input format `mov` |
| Naming.ClipsExample | src/gcloud/VideoRender/videoRenderHandler.ts:49-59 | `clips/a.mov` gives `clips/a-web.mp4`, `clips/a-web.webm` and `clips/a.flac` |
| Naming.SameStemSameArtifacts | src/gcloud/VideoRender/videoRenderHandler.ts:49-59 | two sources with the same stem and any extensions get the same artifact names and the same FLAC temp path |
| Naming.ExtensionsCollide | src/gcloud/VideoRender/videoRenderHandler.ts:49-59 | `clips/a.mov` and `clips/a.avi` are different sources with the same MP4 object and the same FLAC temp path |
| Naming.FlacTempPath | src/gcloud/VideoRender/videoRenderHandler.ts:187 | the FLAC output path starts with `/tmp/ts-wtf/` and continues with the FLAC object's name |
| Naming.FlacTempPathInjective | src/gcloud/VideoRender/videoRenderHandler.ts:187 | two FLAC names share a temp path exactly when they are equal |
| Async.Settlement | src/gcloud/VideoRender/videoRenderHandler.ts:62 | forgetting a promise's value keeps whether it is pending, fulfilled or rejected, and keeps the rejection cause |
| Responses.SuccessResponse | src/gcloud/VideoRender/videoRenderHandler.ts:66-89 | the success response echoes the payload as `requestPayload`, has `error` undefined and exactly three entries WEBM, MP4, FLAC, each in the source bucket, under the payload id, at its derived name |
| Responses.SuccessPathsDistinct | src/gcloud/VideoRender/videoRenderHandler.ts:69-88 | the three entries of a success response name distinct objects |
| Responses.Keys | src/gcloud/VideoRender/videoRenderHandler.ts:66-91 | definition of the property names of the two object literals; its properties are in `FailureKeys` |
| Responses.ErrorOf | src/gcloud/VideoRender/videoRenderHandler.ts:66-91 | definition of the `error` property, `undefined` at line 68 and the caught error at line 91; its values are stated by `SuccessResponse` and `FailureKeys` |
| Responses.PayloadOf | src/gcloud/VideoRender/videoRenderHandler.ts:66-91 | definition of the payload a response carries, under `requestPayload` or `renderPayload`; `ExpectedResponseMeaning` states it is always the job's payload |
| Responses.FailureKeys | src/gcloud/VideoRender/videoRenderHandler.ts:91 | a failure response has keys `renderPayload` and `error`, with no `requestPayload` and no `result` |
| Render.Plan | src/gcloud/VideoRender/videoRenderHandler.ts:62-65 | definition of the four awaited calls and their arguments, including the formats of lines 122, 157 and 194 and the temp path of line 187; its properties are in `PlanOrder` and `PlanTargets` |
| Render.FlacUpload | src/gcloud/VideoRender/videoRenderHandler.ts:212-220 | definition of the unawaited pipe of the local FLAC file into the FLAC object; its placement is in `ChainLogKinds` and `ChainLogUploadPlace` |
| Render.PlanOrder | src/gcloud/VideoRender/videoRenderHandler.ts:62-65 | the awaited calls are download, FLAC, MP4, WebM, in that order |
| Render.PlanTargets | src/gcloud/VideoRender/videoRenderHandler.ts:46-65 | the download reads the source; the FLAC encode reads the local copy, gets a dot-free format and writes under the temp dir; the video encodes read the source with its format and write two distinct objects in its bucket, neither the source |
| Render.FirstUnfulfilled | src/gcloud/VideoRender/videoRenderHandler.ts:61-65 | returns the index of the first promise that does not fulfil: every earlier one fulfilled and that one did not |
| Render.Attempted | src/gcloud/VideoRender/videoRenderHandler.ts:62-65 | definition of how many steps the `await` chain starts before it short-circuits; its properties are in `ChainFollowsFirstUnfulfilled` and `ChainMeaning` |
| Render.ChainOutcome | src/gcloud/VideoRender/videoRenderHandler.ts:61-65 | definition of how the chain settles, which decides between the `try` publish and the `catch`; its properties are in `ChainFollowsFirstUnfulfilled` and `ChainMeaning` |
| Render.ChainFollowsFirstUnfulfilled | src/gcloud/VideoRender/videoRenderHandler.ts:61-65 | the step-by-step await chain agrees with the first-unfulfilled rule, both in how many steps start and in how the chain settles |
| Render.ChainMeaning | src/gcloud/VideoRender/videoRenderHandler.ts:61-65 | a step starts only after all earlier steps fulfilled; the chain fulfils exactly when every step does, and otherwise settles like the last step started |
| Render.ExpectedResponse | src/gcloud/VideoRender/videoRenderHandler.ts:66-91 | definition of the response chosen by how the chain settles; its properties are in `ExpectedResponseMeaning` |
| Render.ExpectedResponseMeaning | src/gcloud/VideoRender/videoRenderHandler.ts:61-92 | the response always carries the job's payload; it is the success response exactly when every step fulfilled; otherwise it carries the payload as `renderPayload` and the first failing step's rejection |
| Render.PublishResponse | src/gcloud/VideoRender/videoRenderHandler.ts:100-110 | `publishResponse` never rejects, for a cause that can be serialised: a failed send becomes a fulfilment with `undefined`, a successful send yields the message id, and a pending send stays pending |
| Render.StepsArePrefix | src/gcloud/VideoRender/videoRenderHandler.ts:62-65 | in a `try` block log, the calls are the first steps of the pipeline in order, and every call but the last fulfilled |
| Render.ChainLog | src/gcloud/VideoRender/videoRenderHandler.ts:61-65 | definition of the awaited chain's effects in order; its properties are in `ChainLogCalls`, `ChainLogKinds` and `ChainLogUploadPlace`, and `AwaitChain` is proved to produce it |
| Render.ChainLogCalls | src/gcloud/VideoRender/videoRenderHandler.ts:61-65 | the chain's calls are the planned calls up to and including the first step that does not fulfil |
| Render.ChainLogKinds | src/gcloud/VideoRender/videoRenderHandler.ts:212-220 | the chain starts the FLAC upload exactly when the download and the FLAC encode fulfilled, and neither acks nor publishes |
| Render.ChainLogUploadPlace | src/gcloud/VideoRender/videoRenderHandler.ts:63-64 | once the download and the FLAC encode fulfilled, the upload is the effect right after the FLAC encode and right before the MP4 encode |
| Render.UploadPlaceKept | src/gcloud/VideoRender/videoRenderHandler.ts:61-92 | publishing after the chain keeps the upload between the FLAC encode and the MP4 encode |
| Render.AwaitChain | src/gcloud/VideoRender/videoRenderHandler.ts:61-65 | the awaited chain emits exactly `ChainLog` and settles like `ChainOutcome`, stopping at the first step that does not fulfil |
| Render.TryLog | src/gcloud/VideoRender/videoRenderHandler.ts:61-92 | definition of the `try`/`catch` block's effects: the chain, then the expected response unless the chain stalls; its properties are in `TryLogEffects` and `TryLogShape`, and `RunSteps` is proved to produce it |
| Render.TryLogEffects | src/gcloud/VideoRender/videoRenderHandler.ts:61-92 | the `try`/`catch` block calls and uploads what the chain does, never acks, and publishes the expected response exactly once and last unless the chain stalls, in which case it publishes nothing |
| Render.TryLogShape | src/gcloud/VideoRender/videoRenderHandler.ts:61-92 | the `try`/`catch` log satisfies `TryBlock`: the calls of the chain, the upload between the FLAC and the MP4 encode, and exactly one response, last, unless a started step stalls, in which case none |
| Render.RunSteps | src/gcloud/VideoRender/videoRenderHandler.ts:61-92 | the `try`/`catch` block emits `TryLog`: the chain, then the success publish or the `catch` publish of the rejection; it satisfies `TryBlock` and does not ack |
| Render.RenderVideo | src/gcloud/VideoRender/videoRenderHandler.ts:17-94 | an unparsable message gives no effects; otherwise the log is the ack followed by exactly the `try` block log `TryLog`; the ack comes first and only once; a missing link gives only the ack; the rest satisfies `TryBlock`; the returned promise never settles |

## Left out

- Encoder options: the codec, filter, bitrate, channel and flag settings at lines 118-143, 153-178 and 189-210 are left out. Each encode is an abstract outcome in `Environment`.
- Storage I/O: the read and write streams and the contents of the FLAC upload are left out. The upload is only recorded as started, because no code awaits it.
- The model assumes the FLAC pipe at lines 217-219 never fails. Neither stream has an `'error'` listener, so a failed read of the temp file or a failed upload is an uncaught exception. That exception can end the process before the MP4 and WebM encodes and the publish.
- The download's local path is taken from `Environment` as given. `src/gcloud/storageController.ts` is not part of this model.
- PublishResponse: assumes every rejection cause (`Cause`) can be serialised by `JSON.stringify`. If a cause cannot be, for example a circular storage error that carries its HTTP response, two things go wrong:
  - Line 102 throws a TypeError inside the `catch` at line 91 before anything is sent. The throw escapes and no response is published, while `RunSteps` and `RenderVideo` always log `Publish(Failed(payload, e))`.
  - Line 108 throws inside the `.catch` handler, so the returned promise rejects. This is the case that `ensures !r.Rejected?` does not cover.
- PubSub transport, `getBuffer` and `JSON.stringify` are left out. The effect `Publish(response)` records the object literal itself. So the model does not capture `error: undefined` being dropped from the JSON, or an `Error` serialising to `{}`.
- Base64 and JSON decoding are left out. The decoded payload is an `Option`, with `None` standing for a parse failure.
- `Payload` keeps only `id` and `rawStorageLink`. The other `VideoUpload` fields are dropped from the model, so the responses do not echo them back.
- A present link whose `bucket` or `path` is not a string is not modelled.
- Logging: all `logger` calls are left out.
- The storage client's own code is not part of this model, so three of its behaviours are assumed rather than modelled:
  - `File.name` is taken to be the name given to `bucket.file`.
  - `bucket.name`, which fills every result entry's `bucket` (line 72), is taken to be the name given to `storage.bucket`, with no normalisation such as stripping a `gs://` prefix.
  - `storage.bucket` and `bucket.file` at lines 46-47 are taken never to throw. If they reject an empty bucket or path name, the handler would stop after the ack with no publish, while the model publishes for `StorageLink("", "")`.
- Concurrency between jobs, redelivery and nack are left out. Each message is one sequential run.
- The downloaded copy and the FLAC temp file are never deleted by the code. The model has no file system, so it does not track them.
- `src/graphql/resolvers/Mutation/VideoUploads.ts` is not part of this model. It is resolver glue over the database and the job publishers.
