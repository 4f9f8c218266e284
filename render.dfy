/**
 * The render job handler `renderVideo`: decode, acknowledge, then the awaited
 * chain download, FLAC, MP4, WebM inside one `try`, and a single response
 * published from the `try` or from its `catch`.
 */
module Render {
  import opened Options
  import opened Async
  import opened Naming
  import opened Responses

  /** The awaited steps, in the order the handler runs them. */
  datatype Step = Fetch | FlacEncode | Mp4Encode | WebmEncode

  const Pipeline: seq<Step> := [Fetch, FlacEncode, Mp4Encode, WebmEncode]

  /** A storage object: `bucket(bucket).file(name)`. */
  datatype ObjectRef = ObjectRef(bucket: string, name: string)

  /** One awaited call with the arguments the handler gives it. */
  datatype Call =
    | Download(source: ObjectRef)
      // the encoder reads the downloaded local file and writes a local FLAC file
    | EncodeFlac(input: string, inputFormat: string, output: string)
      // the encoders read the source object's stream and write the artifact's stream
    | EncodeMp4(source: ObjectRef, inputFormat: string, dest: ObjectRef)
    | EncodeWebm(source: ObjectRef, inputFormat: string, dest: ObjectRef)

  /** What the handler does that the outside world can see, in order. */
  datatype Effect =
    | Ack
    | Run(call: Call)
      // the unawaited pipe of the local FLAC file into its object
    | StartUpload(local: string, dest: ObjectRef)
    | Publish(response: Response)

  /**
   * How each awaited promise settles. `fetch` fulfils with the local path of
   * the downloaded copy.
   */
  datatype Environment = Environment(
    fetch: Promise<string>,
    flac: Promise<()>,
    mp4: Promise<()>,
    webm: Promise<()>)

  function StepOf(c: Call): Step
  {
    match c
    case Download(_) => Fetch
    case EncodeFlac(_, _, _) => FlacEncode
    case EncodeMp4(_, _, _) => Mp4Encode
    case EncodeWebm(_, _, _) => WebmEncode
  }

  /**
   * The calls the handler makes for the object `link` names, in pipeline
   * order, given the local path of its download.
   */
  function Plan(link: StorageLink, localPath: string): (calls: seq<Call>)
  {
    var source := ObjectRef(link.bucket, link.path);
    [ Download(source),
      EncodeFlac(localPath, InputFormat(localPath), FlacTempPath(ArtifactName(link.path, FLAC))),
      EncodeMp4(source, InputFormat(link.path), ObjectRef(link.bucket, ArtifactName(link.path, MP4))),
      EncodeWebm(source, InputFormat(link.path), ObjectRef(link.bucket, ArtifactName(link.path, WEBM))) ]
  }

  /** The plan runs the pipeline's steps, in order. */
  lemma PlanOrder(link: StorageLink, localPath: string)
    ensures |Plan(link, localPath)| == |Pipeline|
    ensures forall i | 0 <= i < |Pipeline| :: StepOf(Plan(link, localPath)[i]) == Pipeline[i]
  {
    var calls := Plan(link, localPath);
    assert StepOf(calls[0]) == Fetch && StepOf(calls[1]) == FlacEncode;
    assert StepOf(calls[2]) == Mp4Encode && StepOf(calls[3]) == WebmEncode;
  }

  /**
   * Every encoder is told a dot-free input format, the MP4 one and the WebM
   * one that of the source object; the FLAC encoder reads the downloaded copy
   * and writes under the temp directory; the video encoders read the source
   * and write two distinct objects of its bucket, neither of them the source.
   */
  lemma PlanTargets(link: StorageLink, localPath: string)
    ensures var calls := Plan(link, localPath);
      && calls[0] == Download(ObjectRef(link.bucket, link.path))
      && calls[1].EncodeFlac? && calls[2].EncodeMp4? && calls[3].EncodeWebm?
      && calls[1].input == localPath && '.' !in calls[1].inputFormat
      && TempDir <= calls[1].output
      && calls[2].source == calls[3].source == calls[0].source
      && calls[2].inputFormat == calls[3].inputFormat == InputFormat(link.path)
      && calls[2].dest.bucket == calls[3].dest.bucket == link.bucket
      && calls[2].dest != calls[3].dest
      && calls[2].dest != calls[0].source && calls[3].dest != calls[0].source
  {
    ArtifactNamesDistinct(link.path, MP4, WEBM);
    VideoArtifactIsNotSource(link.path, MP4);
    VideoArtifactIsNotSource(link.path, WEBM);
  }

  /** The upload the FLAC step starts once its local encode has ended. */
  function FlacUpload(link: StorageLink): Effect
  {
    var name := ArtifactName(link.path, FLAC);
    StartUpload(FlacTempPath(name), ObjectRef(link.bucket, name))
  }

  /** The settlements of the four awaited promises, in pipeline order. */
  function Settlements(env: Environment): (s: seq<Promise<()>>)
    ensures |s| == |Pipeline|
  {
    [Settlement(env.fetch), env.flac, env.mp4, env.webm]
  }

  function LocalPath(env: Environment): string
  {
    if env.fetch.Fulfilled? then env.fetch.value else ""
  }

  /** The index of the first promise that does not fulfil, or `|s|`. */
  function FirstUnfulfilled(s: seq<Promise<()>>): (k: nat)
    ensures k <= |s|
    ensures forall i | 0 <= i < k :: s[i].Fulfilled?
    ensures k < |s| ==> !s[k].Fulfilled?
  {
    if s == [] || !s[0].Fulfilled? then 0 else 1 + FirstUnfulfilled(s[1..])
  }

  /**
   * How many steps the `await` chain starts: every one up to and including the
   * first that does not fulfil.
   */
  function Attempted(env: Environment): nat
  {
    if !env.fetch.Fulfilled? then 1
    else if !env.flac.Fulfilled? then 2
    else if !env.mp4.Fulfilled? then 3
    else 4
  }

  /**
   * How the awaited chain settles: like the first step that does not fulfil,
   * or fulfilled when the last one does.
   */
  function ChainOutcome(env: Environment): Promise<()>
  {
    if !env.fetch.Fulfilled? then Settlement(env.fetch)
    else if !env.flac.Fulfilled? then env.flac
    else if !env.mp4.Fulfilled? then env.mp4
    else env.webm
  }

  /**
   * The step-by-step chain agrees with the general rule over the settlements
   * in pipeline order: it starts the steps up to and including the first that
   * does not fulfil, and settles like that one, or fulfils when none fails.
   */
  lemma {:induction false} ChainFollowsFirstUnfulfilled(env: Environment)
    ensures var s := Settlements(env); var k := FirstUnfulfilled(s);
      && Attempted(env) == (if k < |s| then k + 1 else |s|)
      && ChainOutcome(env) == (if k < |s| then s[k] else Fulfilled(()))
  {
    var s := Settlements(env);
    var k := FirstUnfulfilled(s);
    assert s[0] == Settlement(env.fetch) && s[0].Fulfilled? == env.fetch.Fulfilled?;
    assert s[1] == env.flac && s[2] == env.mp4 && s[3] == env.webm;
    if k < 4 {
      assert !s[k].Fulfilled?;
    } else {
      assert env.webm == Fulfilled(env.webm.value) && env.webm.value == ();
    }
  }

  /**
   * A step starts only once every earlier one fulfilled; the chain fulfils
   * exactly when every step does, and otherwise settles like the last step it
   * started.
   */
  lemma {:induction false} ChainMeaning(env: Environment)
    ensures 1 <= Attempted(env) <= |Pipeline|
    ensures forall i | 0 <= i < Attempted(env) - 1 :: Settlements(env)[i].Fulfilled?
    ensures Attempted(env) < |Pipeline| ==> !Settlements(env)[Attempted(env) - 1].Fulfilled?
    ensures ChainOutcome(env).Fulfilled? <==> forall i | 0 <= i < |Pipeline| :: Settlements(env)[i].Fulfilled?
    ensures !ChainOutcome(env).Fulfilled? ==> ChainOutcome(env) == Settlements(env)[Attempted(env) - 1]
  {
    ChainFollowsFirstUnfulfilled(env);
  }

  /** Some started step never settles, so the handler waits for ever. */
  predicate Stalls(env: Environment)
  {
    ChainOutcome(env).Pending?
  }

  /**
   * The response the handler publishes when no step stalls: the success
   * response when the chain fulfils, otherwise the failure response carrying
   * the chain's rejection.
   */
  function ExpectedResponse(payload: Payload, link: StorageLink, env: Environment): Response
    requires !Stalls(env)
  {
    match ChainOutcome(env)
    case Fulfilled(_) => SuccessResponse(payload, link)
    case Rejected(e) => Failed(payload, e)
  }

  /**
   * The handler reports success exactly when every step fulfils, and
   * otherwise reports, under `renderPayload`, the rejection of the first step
   * that failed.
   */
  lemma {:induction false} ExpectedResponseMeaning(payload: Payload, link: StorageLink, env: Environment)
    requires !Stalls(env)
    ensures var r := ExpectedResponse(payload, link, env);
      && PayloadOf(r) == payload
      && (r.Succeeded? <==> forall i | 0 <= i < |Pipeline| :: Settlements(env)[i].Fulfilled?)
      && (r.Succeeded? ==> r == SuccessResponse(payload, link))
      && (r.Failed? ==> r.renderPayload == payload && Settlements(env)[Attempted(env) - 1] == Rejected(r.error))
  {
    ChainMeaning(env);
  }

  /** The calls in a log, in order. */
  function Calls(log: seq<Effect>): seq<Call>
  {
    if log == [] then [] else (if log[0].Run? then [log[0].call] else []) + Calls(log[1..])
  }

  /** The kinds of effect other than a call. */
  datatype Kind = AckKind | UploadKind | PublishKind

  predicate IsKind(e: Effect, k: Kind)
  {
    match k
    case AckKind => e.Ack?
    case UploadKind => e.StartUpload?
    case PublishKind => e.Publish?
  }

  /** The effects of kind `k` in a log, in order. */
  function OfKind(log: seq<Effect>, k: Kind): seq<Effect>
  {
    if log == [] then [] else (if IsKind(log[0], k) then [log[0]] else []) + OfKind(log[1..], k)
  }

  lemma {:induction false} CallsAppend(a: seq<Effect>, b: seq<Effect>)
    ensures Calls(a + b) == Calls(a) + Calls(b)
  {
    if a == [] {
      assert a + b == b;
    } else {
      assert (a + b)[0] == a[0] && (a + b)[1..] == a[1..] + b;
      CallsAppend(a[1..], b);
    }
  }

  lemma {:induction false} OfKindAppend(a: seq<Effect>, b: seq<Effect>, k: Kind)
    ensures OfKind(a + b, k) == OfKind(a, k) + OfKind(b, k)
  {
    if a == [] {
      assert a + b == b;
    } else {
      assert (a + b)[0] == a[0] && (a + b)[1..] == a[1..] + b;
      OfKindAppend(a[1..], b, k);
    }
  }

  /** Appending logs appends their projections. */
  lemma LogAppend(a: seq<Effect>, b: seq<Effect>)
    ensures Calls(a + b) == Calls(a) + Calls(b)
    ensures forall k: Kind :: OfKind(a + b, k) == OfKind(a, k) + OfKind(b, k)
  {
    CallsAppend(a, b);
    forall k: Kind {
      OfKindAppend(a, b, k);
    }
  }

  /** Appending one effect extends exactly the projection it belongs to. */
  lemma LogSnoc(log: seq<Effect>, e: Effect)
    ensures e.Run? ==> Calls(log + [e]) == Calls(log) + [e.call]
    ensures !e.Run? ==> Calls(log + [e]) == Calls(log)
    ensures forall k: Kind | IsKind(e, k) :: OfKind(log + [e], k) == OfKind(log, k) + [e]
    ensures forall k: Kind | !IsKind(e, k) :: OfKind(log + [e], k) == OfKind(log, k)
  {
    LogAppend(log, [e]);
    assert [e][1..] == [];
    assert Calls([e]) == (if e.Run? then [e.call] else []) + Calls([]);
    forall k: Kind ensures OfKind([e], k) == if IsKind(e, k) then [e] else [] {
      assert OfKind([e], k) == (if IsKind(e, k) then [e] else []) + OfKind([], k);
    }
  }

  /**
   * `publishResponse`: how the promise it returns settles, given how the send
   * settles. The attached `catch` turns a failed send into a fulfilment with
   * `undefined`, so the promise never rejects. `renderVideo` discards this
   * promise (`const _ =`), so how it settles leaves no trace in the handler's
   * effects: `RenderVideo` records only the `Publish` itself.
   */
  function PublishResponse(send: Promise<string>): (r: Promise<Option<string>>)
    ensures !r.Rejected?
    ensures r.Pending? <==> send.Pending?
    ensures send.Fulfilled? ==> r == Fulfilled(Some(send.value))
    ensures send.Rejected? ==> r == Fulfilled(None)
  {
    match send
    case Pending => Pending
    case Fulfilled(id) => Fulfilled(Some(id))
    case Rejected(_) => Fulfilled(None)
  }

  /**
   * What the `try`/`catch` block of `renderVideo` does, as seen in its log:
   * it runs the planned calls in order up to and including the first step
   * that does not fulfil, starts the FLAC upload right after a fulfilled
   * FLAC encode and before the MP4 encode, and publishes exactly one
   * response, last, unless a started step never settles, in which case it
   * publishes nothing.
   */
  ghost predicate TryBlock(log: seq<Effect>, payload: Payload, link: StorageLink, env: Environment)
  {
    && Calls(log) == Plan(link, LocalPath(env))[..Attempted(env)]
    && OfKind(log, UploadKind) == (if env.fetch.Fulfilled? && env.flac.Fulfilled? then [FlacUpload(link)] else [])
    && (env.fetch.Fulfilled? && env.flac.Fulfilled? ==>
          var plan := Plan(link, LocalPath(env));
          |log| > 3 && log[1] == Run(plan[1]) && log[2] == FlacUpload(link) && log[3] == Run(plan[2]))
    && (Stalls(env) ==> OfKind(log, PublishKind) == [])
    && (!Stalls(env) ==>
          && OfKind(log, PublishKind) == [Publish(ExpectedResponse(payload, link, env))]
          && |log| > 0 && log[|log| - 1] == Publish(ExpectedResponse(payload, link, env)))
  }

  /**
   * The steps run are a prefix of the pipeline, and every step but the last
   * one run fulfilled: a step starts only after all earlier steps succeeded.
   */
  lemma {:induction false} StepsArePrefix(log: seq<Effect>, payload: Payload, link: StorageLink, env: Environment)
    requires TryBlock(log, payload, link, env)
    ensures |Calls(log)| == Attempted(env)
    ensures forall i | 0 <= i < |Calls(log)| :: StepOf(Calls(log)[i]) == Pipeline[i]
    ensures forall i | 0 <= i < |Calls(log)| - 1 :: Settlements(env)[i].Fulfilled?
  {
    PlanOrder(link, LocalPath(env));
    ChainMeaning(env);
  }

  /**
   * The effects of the awaited chain: each planned call in turn, up to and
   * including the first that does not fulfil, with the FLAC upload started
   * right after a fulfilled FLAC encode.
   */
  function ChainLog(link: StorageLink, env: Environment): seq<Effect>
  {
    var plan := Plan(link, LocalPath(env));
    var fetched := [Run(plan[0])];
    if !env.fetch.Fulfilled? then fetched else
    var encoded := fetched + [Run(plan[1])];
    if !env.flac.Fulfilled? then encoded else
    var mp4 := encoded + [FlacUpload(link)] + [Run(plan[2])];
    if !env.mp4.Fulfilled? then mp4 else
    mp4 + [Run(plan[3])]
  }

  /**
   * The chain runs the planned calls in order, up to and including the first
   * step that does not fulfil.
   */
  lemma ChainLogCalls(link: StorageLink, env: Environment)
    ensures Calls(ChainLog(link, env)) == Plan(link, LocalPath(env))[..Attempted(env)]
  {
    var plan := Plan(link, LocalPath(env));
    var fetched := [Run(plan[0])];
    LogSnoc([], Run(plan[0]));
    assert [] + [Run(plan[0])] == fetched;
    assert plan[..1] == [plan[0]];
    if !env.fetch.Fulfilled? {
      return;
    }
    var encoded := fetched + [Run(plan[1])];
    LogSnoc(fetched, Run(plan[1]));
    assert plan[..2] == plan[..1] + [plan[1]];
    if !env.flac.Fulfilled? {
      return;
    }
    var uploaded := encoded + [FlacUpload(link)];
    LogSnoc(encoded, FlacUpload(link));
    var mp4 := uploaded + [Run(plan[2])];
    LogSnoc(uploaded, Run(plan[2]));
    assert plan[..3] == plan[..2] + [plan[2]];
    if !env.mp4.Fulfilled? {
      return;
    }
    LogSnoc(mp4, Run(plan[3]));
    assert plan[..4] == plan[..3] + [plan[3]];
  }

  /**
   * The chain starts the FLAC upload exactly when the download and the FLAC
   * encode fulfilled, and neither acknowledges nor publishes.
   */
  lemma ChainLogKinds(link: StorageLink, env: Environment)
    ensures OfKind(ChainLog(link, env), UploadKind) ==
      if env.fetch.Fulfilled? && env.flac.Fulfilled? then [FlacUpload(link)] else []
    ensures OfKind(ChainLog(link, env), PublishKind) == [] && OfKind(ChainLog(link, env), AckKind) == []
  {
    var plan := Plan(link, LocalPath(env));
    var fetched := [Run(plan[0])];
    LogSnoc([], Run(plan[0]));
    assert [] + [Run(plan[0])] == fetched;
    if !env.fetch.Fulfilled? {
      return;
    }
    var encoded := fetched + [Run(plan[1])];
    LogSnoc(fetched, Run(plan[1]));
    if !env.flac.Fulfilled? {
      return;
    }
    var uploaded := encoded + [FlacUpload(link)];
    LogSnoc(encoded, FlacUpload(link));
    var mp4 := uploaded + [Run(plan[2])];
    LogSnoc(uploaded, Run(plan[2]));
    if !env.mp4.Fulfilled? {
      return;
    }
    LogSnoc(mp4, Run(plan[3]));
  }

  /**
   * Once the download and the FLAC encode fulfilled, the upload is the effect
   * right after the FLAC encode and right before the MP4 encode.
   */
  lemma ChainLogUploadPlace(link: StorageLink, env: Environment)
    requires env.fetch.Fulfilled? && env.flac.Fulfilled?
    ensures var log, plan := ChainLog(link, env), Plan(link, LocalPath(env));
      |log| > 3 && log[1] == Run(plan[1]) && log[2] == FlacUpload(link) && log[3] == Run(plan[2])
  {
  }

  /**
   * The awaited chain of the `try` block: download, FLAC, MP4, WebM, each
   * started only once the one before it fulfilled. Returns the effects and
   * how the chain settles.
   */
  method AwaitChain(link: StorageLink, env: Environment) returns (log: seq<Effect>, outcome: Promise<()>)
    ensures log == ChainLog(link, env)
    ensures outcome == ChainOutcome(env)
  {
    var source := ObjectRef(link.bucket, link.path);
    var flacFile := ObjectRef(link.bucket, ArtifactName(link.path, FLAC));
    var mp4File := ObjectRef(link.bucket, ArtifactName(link.path, MP4));
    var webmFile := ObjectRef(link.bucket, ArtifactName(link.path, WEBM));

    log := [Run(Download(source))];
    if !env.fetch.Fulfilled? {
      outcome := Settlement(env.fetch);
      return;
    }

    var localPath := env.fetch.value;
    var outputPath := FlacTempPath(flacFile.name);
    log := log + [Run(EncodeFlac(localPath, InputFormat(localPath), outputPath))];
    if !env.flac.Fulfilled? {
      outcome := env.flac;
      return;
    }
    log := log + [StartUpload(outputPath, flacFile)];

    log := log + [Run(EncodeMp4(source, InputFormat(source.name), mp4File))];
    if !env.mp4.Fulfilled? {
      outcome := env.mp4;
      return;
    }

    log := log + [Run(EncodeWebm(source, InputFormat(source.name), webmFile))];
    outcome := env.webm;
  }

  /**
   * The effects of the `try`/`catch` block: the awaited chain, then the one
   * response, unless the chain never settles.
   */
  function TryLog(payload: Payload, link: StorageLink, env: Environment): seq<Effect>
  {
    if Stalls(env) then ChainLog(link, env)
    else ChainLog(link, env) + [Publish(ExpectedResponse(payload, link, env))]
  }

  /** Publishing after the chain keeps the upload between the FLAC and the MP4 encode. */
  lemma UploadPlaceKept(payload: Payload, link: StorageLink, env: Environment)
    requires env.fetch.Fulfilled? && env.flac.Fulfilled?
    ensures var log, plan := TryLog(payload, link, env), Plan(link, LocalPath(env));
      |log| > 3 && log[1] == Run(plan[1]) && log[2] == FlacUpload(link) && log[3] == Run(plan[2])
  {
    ChainLogUploadPlace(link, env);
    var chain := ChainLog(link, env);
    if !Stalls(env) {
      var log := chain + [Publish(ExpectedResponse(payload, link, env))];
      assert log[1] == chain[1] && log[2] == chain[2] && log[3] == chain[3];
    }
  }

  /**
   * The `try`/`catch` block is the chain, followed by the expected response
   * unless the chain stalls.
   */
  lemma TryLogSplit(payload: Payload, link: StorageLink, env: Environment)
    ensures Stalls(env) ==> TryLog(payload, link, env) == ChainLog(link, env)
    ensures !Stalls(env) ==>
      TryLog(payload, link, env) == ChainLog(link, env) + [Publish(ExpectedResponse(payload, link, env))]
  {
  }

  /**
   * The `try`/`catch` block calls what the chain calls, starts what the chain
   * starts, never acknowledges, and publishes the expected response, last,
   * unless the chain stalls.
   */
  lemma TryLogEffects(payload: Payload, link: StorageLink, env: Environment)
    ensures Calls(TryLog(payload, link, env)) == Plan(link, LocalPath(env))[..Attempted(env)]
    ensures OfKind(TryLog(payload, link, env), UploadKind) ==
      if env.fetch.Fulfilled? && env.flac.Fulfilled? then [FlacUpload(link)] else []
    ensures OfKind(TryLog(payload, link, env), AckKind) == []
    ensures Stalls(env) ==> OfKind(TryLog(payload, link, env), PublishKind) == []
    ensures !Stalls(env) ==>
      var log := TryLog(payload, link, env);
      && OfKind(log, PublishKind) == [Publish(ExpectedResponse(payload, link, env))]
      && |log| > 0 && log[|log| - 1] == Publish(ExpectedResponse(payload, link, env))
  {
    ChainLogCalls(link, env);
    ChainLogKinds(link, env);
    TryLogSplit(payload, link, env);
    if !Stalls(env) {
      PublishLast(ChainLog(link, env), ExpectedResponse(payload, link, env));
    }
  }

  /** Publishing after a log adds one publish, at the end, and nothing else. */
  lemma PublishLast(log: seq<Effect>, r: Response)
    ensures Calls(log + [Publish(r)]) == Calls(log)
    ensures OfKind(log + [Publish(r)], UploadKind) == OfKind(log, UploadKind)
    ensures OfKind(log + [Publish(r)], AckKind) == OfKind(log, AckKind)
    ensures OfKind(log + [Publish(r)], PublishKind) == OfKind(log, PublishKind) + [Publish(r)]
    ensures (log + [Publish(r)])[|log|] == Publish(r)
  {
    LogSnoc(log, Publish(r));
  }

  /** The effects of the `try`/`catch` block have the shape `TryBlock` describes. */
  lemma TryLogShape(payload: Payload, link: StorageLink, env: Environment)
    ensures TryBlock(TryLog(payload, link, env), payload, link, env)
    ensures OfKind(TryLog(payload, link, env), AckKind) == []
  {
    TryLogEffects(payload, link, env);
    if env.fetch.Fulfilled? && env.flac.Fulfilled? {
      UploadPlaceKept(payload, link, env);
    }
  }

  /**
   * The `try`/`catch` block of `renderVideo`: the awaited chain, then one
   * publish, from the `try` when the chain fulfilled and from the `catch`
   * when it rejected. A chain that never settles publishes nothing.
   */
  method RunSteps(payload: Payload, link: StorageLink, env: Environment) returns (log: seq<Effect>)
    ensures log == TryLog(payload, link, env)
    ensures TryBlock(log, payload, link, env)
    ensures OfKind(log, AckKind) == []
  {
    var outcome;
    log, outcome := AwaitChain(link, env);
    TryLogShape(payload, link, env);
    match outcome
    case Pending =>
      return;
    case Fulfilled(_) =>
      log := log + [Publish(SuccessResponse(payload, link))];
    case Rejected(e) =>
      log := log + [Publish(Failed(payload, e))];
  }

  /**
   * `renderVideo` for one message. `decoded` is `None` when the message does
   * not parse. Returns the effects in order and how the returned promise
   * stands: it never settles.
   */
  method RenderVideo(decoded: Option<Payload>, env: Environment)
    returns (log: seq<Effect>, settled: Promise<()>)
    ensures settled == Pending
    ensures decoded.None? ==> log == []
    ensures decoded.Some? ==> |log| >= 1 && log[0] == Ack && OfKind(log, AckKind) == [Ack]
    ensures decoded.Some? && decoded.value.rawStorageLink.None? ==> log == [Ack]
    ensures decoded.Some? && decoded.value.rawStorageLink.Some? ==>
      log == [Ack] + TryLog(decoded.value, decoded.value.rawStorageLink.value, env)
    ensures decoded.Some? && decoded.value.rawStorageLink.Some? ==>
      TryBlock(log[1..], decoded.value, decoded.value.rawStorageLink.value, env)
  {
    settled := Pending;
    log := [];
    if decoded.None? {
      // JSON.parse throws before the ack; the executor's promise rejects unobserved
      return;
    }
    var payload := decoded.value;
    log := [Ack];
    assert OfKind(log, AckKind) == [Ack];
    if payload.rawStorageLink.None? {
      // reading `bucket` of an undefined link throws after the ack, outside the `try`
      return;
    }
    var steps := RunSteps(payload, payload.rawStorageLink.value, env);
    LogAppend(log, steps);
    log := log + steps;
    assert log[1..] == steps;
  }
}
