/** `transcribe` (transcription/main.py:48-320) and `main`
    (main.py:323-353) as a state machine over the outcomes of the calls
    they make to the outside world: subprocesses, the filesystem, the
    environment and Whisper. */
module Pipeline {
  import opened Wrappers
  import opened Text
  import opened Captions
  import opened VideoId
  import opened Proxy
  import opened WhisperModel

  /** How `subprocess.run` of the caption download ends: it raises (a
      timeout after 60 seconds, yt-dlp not found), or yt-dlp exits with
      some status, which is never looked at. */
  datatype CaptionRun = CaptionRaised | CaptionExited(status: int)

  /** How the yt-dlp | ffmpeg audio pipe ends: starting a process raises,
      or both run to their exit statuses and ffmpeg's output is read. */
  datatype AudioRun = SpawnFails | Ran(ytDlpStatus: int, ffmpegStatus: int, wav: seq<Utf8.byte>)

  /** How `NamedTemporaryFile(delete=False)` and the write of the audio
      into it end (main.py:257-259): the file is written, creating it
      raises (nothing is on disk), or the write raises after the file was
      created (the file stays on disk). */
  datatype BridgeWrite = Written | CreateRaises | WriteRaises

  /** Everything `transcribe` learns from outside, fixed in advance. */
  datatype World = World(
    env: Env,
    captionRun: CaptionRun,
    audio: AudioRun,
    primaryLoads: bool,
    tinyLoads: bool,
    bridge: BridgeWrite,
    inference: Inference,
    tempPath: string)

  /** The externally visible steps, in the order they happen. */
  datatype Event =
    | CaptionDownload(proxy: string, video: string)
    | AudioPipeline(proxy: string, video: string)
    | LoadModel(name: string)
    | RunInference(model: string)

  /** `transcribe` returns (a transcript or `None`) or raises. */
  datatype Outcome = Returned(transcript: Option<string>) | Raised(message: string)

  /** One whole call: its outcome, the steps it took, the caption files
      left behind and the bridge WAV files it left on disk. */
  datatype Run = Run(outcome: Outcome, trace: seq<Event>, files: Files, temps: set<string>)

  const InvalidIdMessage := "Invalid YouTube video ID. Must be 11 characters."

  function YoutubeUrl(videoId: string): string {
    "https://youtu.be/" + videoId
  }

  /** The proxy URL with credentials that both yt-dlp runs get. */
  function ProxyFor(env: Env, cfg: ProxySettings): string {
    AuthProxyUrl(cfg.user, cfg.password, Value(env, "PROXY_HOST"), Value(env, "PROXY_PORT"))
  }

  // ---------------------------------------------------------------------
  // The specification: what one call does
  // ---------------------------------------------------------------------

  /** Strategy 1 (main.py:105-151): the caption text to return, if any,
      and the caption files afterwards. */
  function CaptionStage(videoId: string, run: CaptionRun, files: Files): (Option<string>, Files) {
    match run
    case CaptionRaised => (None, files)
    case CaptionExited(_) =>
      match FirstCaption(CaptionCandidates(videoId), files)
      case NoCaptionFile => (None, files)
      case ReadRaised(_) => (None, files)
      case Read(path, contents) =>
        if contents == [] then (None, files - {path})
        else
          var text := CaptionText(contents);
          if text == [] then (None, files - {path}) else (Some(text), files - {path})
  }

  /** The pipe ran, both processes exited with 0 and ffmpeg gave audio
      (main.py:220-234). */
  predicate PipeDelivers(w: World) {
    w.audio.Ran? && w.audio.ytDlpStatus == 0 && w.audio.ffmpegStatus == 0 && w.audio.wav != []
  }

  /** Strategy 2 after the audio pipe has started (main.py:191-320): the
      transcript, if any, the Whisper steps taken, and the bridge files
      left on disk. */
  function AudioStage(w: World, modelSize: string): (r: (Option<string>, seq<Event>, set<string>))
    ensures r.0.Some? ==> r.0.value != [] && Trimmed(r.0.value)
    ensures forall i :: 0 <= i < |r.1| ==> r.1[i].LoadModel? || r.1[i].RunInference?
    ensures r.2 <= {w.tempPath}
  {
    if !PipeDelivers(w) then (None, [], {})
    else
      var name := WhisperModelName(modelSize);
      var (model, tried) := LoadWithFallback(name, w.primaryLoads, w.tinyLoads);
      var loads := LoadEvents(tried);
      if model.None? then (None, loads, {})
      else
        match w.bridge
        case CreateRaises => (None, loads, {})
        case WriteRaises => (None, loads, {w.tempPath})
        case Written =>
          var steps := loads + [RunInference(model.value)];
          if w.inference.InferenceRaises? then (None, steps, {})
          else (TranscriptOf(w.inference), steps, {})
  }

  /** One `load_model` step per name tried. */
  function LoadEvents(names: seq<string>): (r: seq<Event>)
    ensures |r| == |names|
    ensures forall k :: 0 <= k < |r| ==> r[k] == LoadModel(names[k])
  {
    if names == [] then [] else [LoadModel(names[0])] + LoadEvents(names[1..])
  }

  /** One call of `transcribe(videoId)`. */
  function Transcription(videoId: string, w: World, files: Files): Run {
    if !TranscribeAccepts(videoId) then Run(Raised(InvalidIdMessage), [], files, {})
    else
      match GetProxyConfig(w.env)
      case Failure(_) => Run(Returned(None), [], files, {})
      case Success(cfg) => Strategies(videoId, w, files, ProxyFor(w.env, cfg))
  }

  /** The two strategies, once the ID is checked and the proxy is known:
      captions first, and the audio path only when they give no text. */
  function Strategies(videoId: string, w: World, files: Files, proxy: string): Run {
    var video := YoutubeUrl(videoId);
    var (captionText, filesAfter) := CaptionStage(videoId, w.captionRun, files);
    if captionText.Some? then
      Run(Returned(captionText), [CaptionDownload(proxy, video)], filesAfter, {})
    else
      var (transcript, steps, temps) := AudioStage(w, RequestedModelSize(w.env));
      Run(Returned(transcript), [CaptionDownload(proxy, video), AudioPipeline(proxy, video)] + steps, filesAfter, temps)
  }

  // ---------------------------------------------------------------------
  // The procedure
  // ---------------------------------------------------------------------

  /** `transcribe`, step by step, with its early returns. `tempsLeft` is
      the set of bridge WAV files still on disk when it returns. */
  method Transcribe(videoId: string, w: World, files: Files)
    returns (outcome: Outcome, trace: seq<Event>, filesAfter: Files, tempsLeft: set<string>)
    ensures Run(outcome, trace, filesAfter, tempsLeft) == Transcription(videoId, w, files)
  {
    trace, filesAfter, tempsLeft := [], files, {};
    if videoId == [] || |videoId| != 11 {
      outcome := Raised(InvalidIdMessage);
      return;
    }
    var config := GetProxyConfig(w.env);
    if config.Failure? {
      outcome := Returned(None);
      return;
    }
    var proxyFull := AuthProxyUrl(config.value.user, config.value.password,
      Value(w.env, "PROXY_HOST"), Value(w.env, "PROXY_PORT"));
    outcome, trace, filesAfter, tempsLeft := RunStrategies(videoId, w, files, proxyFull);
  }

  /** main.py:72-320: caption download and parse, then the audio path. */
  method RunStrategies(videoId: string, w: World, files: Files, proxyFull: string)
    returns (outcome: Outcome, trace: seq<Event>, filesAfter: Files, tempsLeft: set<string>)
    ensures Run(outcome, trace, filesAfter, tempsLeft) == Strategies(videoId, w, files, proxyFull)
  {
    var modelSize := RequestedModelSize(w.env);
    var youtubeUrl := YoutubeUrl(videoId);
    tempsLeft := {};

    trace := [CaptionDownload(proxyFull, youtubeUrl)];
    var captionText;
    captionText, filesAfter := TryCaptions(videoId, w.captionRun, files);
    if captionText.Some? {
      outcome := Returned(captionText);
      return;
    }

    trace := trace + [AudioPipeline(proxyFull, youtubeUrl)];
    var transcript, steps;
    transcript, steps, tempsLeft := TryAudio(w, modelSize);
    trace := trace + steps;
    outcome := Returned(transcript);
  }

  /** Strategy 1 (main.py:105-151): probe for the caption file, read and
      delete it, parse it; any exception only ends the strategy. */
  method TryCaptions(videoId: string, run: CaptionRun, files: Files) returns (text: Option<string>, filesAfter: Files)
    ensures (text, filesAfter) == CaptionStage(videoId, run, files)
  {
    text, filesAfter := None, files;
    if run.CaptionRaised? {
      return;
    }
    var probe;
    probe, filesAfter := ProbeCaptions(videoId, files);
    if probe.Read? && probe.contents != [] {
      var finalText := ParseCaptions(probe.contents);
      if finalText != [] {
        text := Some(finalText);
      }
    }
  }

  /** main.py:238-253: load the requested model, and `tiny` once if that
      raises. Gives the model loaded, if any, and the load steps. */
  method LoadWhisper(name: string, primaryLoads: bool, tinyLoads: bool) returns (model: Option<string>, steps: seq<Event>)
    ensures model == LoadWithFallback(name, primaryLoads, tinyLoads).0
    ensures steps == LoadEvents(LoadWithFallback(name, primaryLoads, tinyLoads).1)
  {
    model, steps := Some(name), [LoadModel(name)];
    if !primaryLoads {
      steps := steps + [LoadModel("tiny")];
      model := if tinyLoads then Some("tiny") else None;
    }
    ghost var tried := LoadWithFallback(name, primaryLoads, tinyLoads).1;
    assert steps == LoadEvents(tried) by {
      if primaryLoads {
        assert LoadEvents(tried) == [LoadModel(name)];
      } else {
        assert LoadEvents(tried) == [LoadModel(name), LoadModel("tiny")];
      }
    }
  }

  /** Strategy 2 once the pipe is set up (main.py:191-320): check the exit
      statuses and the audio, load a model, write the audio to the bridge
      file, transcribe it and delete the file in the `finally` clause. The
      file is created and written before that `try` begins, so a write
      that raises leaves it on disk. */
  method TryAudio(w: World, modelSize: string) returns (transcript: Option<string>, steps: seq<Event>, tempsLeft: set<string>)
    ensures (transcript, steps, tempsLeft) == AudioStage(w, modelSize)
  {
    transcript, steps, tempsLeft := None, [], {};
    if w.audio.SpawnFails? {
      return;
    }
    if w.audio.ytDlpStatus != 0 {
      return;
    }
    if w.audio.ffmpegStatus != 0 {
      return;
    }
    if w.audio.wav == [] {
      return;
    }

    var model;
    model, steps := LoadWhisper(WhisperModelName(modelSize), w.primaryLoads, w.tinyLoads);
    if model.None? {
      return;
    }

    if w.bridge.CreateRaises? {
      return;
    }
    // Created and written before the `try` whose `finally` deletes it.
    tempsLeft := tempsLeft + {w.tempPath};
    if w.bridge.WriteRaises? {
      assert tempsLeft == {w.tempPath};
      return;
    }
    steps := steps + [RunInference(model.value)];
    if w.inference.InferenceRaises? {
      tempsLeft := tempsLeft - {w.tempPath};
      return;
    }
    var resultText := Strip(if w.inference.WithText? then w.inference.text else w.inference.repr);
    tempsLeft := tempsLeft - {w.tempPath};
    if resultText != [] {
      transcript := Some(resultText);
    }
  }

  /** Strategy 2 with the write of the bridge file moved inside the `try`
      whose `finally` deletes it: the same transcript and the same steps as
      `TryAudio`, and no bridge file is left on any path. */
  method TryAudioCleaned(w: World, modelSize: string) returns (transcript: Option<string>, steps: seq<Event>, tempsLeft: set<string>)
    ensures transcript == AudioStage(w, modelSize).0 && steps == AudioStage(w, modelSize).1
    ensures tempsLeft == {}
  {
    transcript, steps, tempsLeft := None, [], {};
    if !PipeDelivers(w) {
      return;
    }
    var model;
    model, steps := LoadWhisper(WhisperModelName(modelSize), w.primaryLoads, w.tinyLoads);
    if model.None? || w.bridge.CreateRaises? {
      return;
    }
    tempsLeft := tempsLeft + {w.tempPath};
    var resultText := "";
    if w.bridge.Written? {
      steps := steps + [RunInference(model.value)];
      if !w.inference.InferenceRaises? {
        resultText := Strip(if w.inference.WithText? then w.inference.text else w.inference.repr);
      }
    }
    // The `finally` clause, now reached after a failed write too.
    tempsLeft := tempsLeft - {w.tempPath};
    if resultText != [] {
      transcript := Some(resultText);
    }
  }

  // ---------------------------------------------------------------------
  // What one call promises
  // ---------------------------------------------------------------------

  /** `transcribe` raises exactly when the ID is not 11 characters long,
      and then before any step and without touching a file; otherwise it
      returns, and a transcript it returns is non-empty and stripped. */
  lemma TranscriptionOutcome(videoId: string, w: World, files: Files)
    ensures var r := Transcription(videoId, w, files);
      (r.outcome.Raised? <==> |videoId| != 11)
      && (r.outcome.Raised? ==> r.outcome.message == InvalidIdMessage && r.trace == [] && r.files == files && r.temps == {})
      && (r.outcome.Returned? && r.outcome.transcript.Some? ==>
            r.outcome.transcript.value != [] && Trimmed(r.outcome.transcript.value))
  {
    if |videoId| == 11 && GetProxyConfig(w.env).Success? {
      var proxy := Accepted(videoId, w, files);
      StrategiesTranscript(videoId, w, files, proxy);
    }
  }

  /** Past the ID check and the proxy lookup, the call is the two
      strategies run with the proxy URL built from the configuration. */
  lemma Accepted(videoId: string, w: World, files: Files) returns (proxy: string)
    requires |videoId| == 11 && GetProxyConfig(w.env).Success?
    ensures proxy == ProxyFor(w.env, GetProxyConfig(w.env).value)
    ensures Transcription(videoId, w, files) == Strategies(videoId, w, files, proxy)
  {
    proxy := ProxyFor(w.env, GetProxyConfig(w.env).value);
  }

  /** The strategies return, and a transcript they return is non-empty
      and stripped, whichever strategy gave it. */
  lemma StrategiesTranscript(videoId: string, w: World, files: Files, proxy: string)
    ensures var o := Strategies(videoId, w, files, proxy).outcome;
      o.Returned? && (o.transcript.Some? ==> o.transcript.value != [] && Trimmed(o.transcript.value))
  {
    CaptionStageText(videoId, w.captionRun, files);
  }

  /** A caption text the first strategy gives is non-empty and stripped. */
  lemma CaptionStageText(videoId: string, run: CaptionRun, files: Files)
    ensures var t := CaptionStage(videoId, run, files).0;
      t.Some? ==> t.value != [] && Trimmed(t.value)
  {
    var probe := FirstCaption(CaptionCandidates(videoId), files);
    if run.CaptionExited? && probe.Read? {
      CaptionTextShape(probe.contents);
    }
  }

  /** A missing or empty proxy variable ends the call before any download,
      with no result and no file touched. */
  lemma MissingProxyStopsEarly(videoId: string, w: World, files: Files)
    requires |videoId| == 11
    requires exists k :: 0 <= k < |ProxyVars| && Unset(w.env, ProxyVars[k])
    ensures Transcription(videoId, w, files) == Run(Returned(None), [], files, {})
  {
  }

  /** Where the transcript comes from: the text of the first caption file
      found, when it was read and its cues hold any text (an empty file
      holds none); Whisper's result otherwise, and only then does the
      audio pipe run. */
  lemma TranscriptSource(videoId: string, w: World, files: Files)
    requires |videoId| == 11 && GetProxyConfig(w.env).Success?
    ensures var r := Transcription(videoId, w, files);
      var probe := FirstCaption(CaptionCandidates(videoId), files);
      if w.captionRun.CaptionExited? && probe.Read? && CaptionText(probe.contents) != [] then
        r.outcome == Returned(Some(CaptionText(probe.contents))) && |r.trace| == 1
      else
        r.outcome == Returned(AudioStage(w, RequestedModelSize(w.env)).0)
        && |r.trace| >= 2 && r.trace[1].AudioPipeline?
  {
    var proxy := Accepted(videoId, w, files);
    var probe := FirstCaption(CaptionCandidates(videoId), files);
    if w.captionRun.CaptionExited? && probe.Read? && probe.contents == [] {
      EmptyDocumentHasNoText();
    }
  }

  /** The only file a call removes is the caption file it read: nothing is
      removed when the call stops early, when the download raised, when no
      caption file exists, or when reading it raised. */
  lemma CaptionFileConsumed(videoId: string, w: World, files: Files)
    ensures var r := Transcription(videoId, w, files);
      var probe := FirstCaption(CaptionCandidates(videoId), files);
      r.files == if |videoId| == 11 && GetProxyConfig(w.env).Success?
        && w.captionRun.CaptionExited? && probe.Read? then files - {probe.path} else files
  {
    if |videoId| == 11 && GetProxyConfig(w.env).Success? {
      var proxy := Accepted(videoId, w, files);
      assert Strategies(videoId, w, files, proxy).files == CaptionStage(videoId, w.captionRun, files).1;
    }
  }

  /** Captions are always tried first and the audio pipe at most once,
      right after them; everything after that is a Whisper step. Both
      downloads go through the same proxy URL, and the credentials in it
      are the configured ones, URL-encoded so that they read back intact. */
  lemma TraceShape(videoId: string, w: World, files: Files)
    requires |videoId| == 11 && GetProxyConfig(w.env).Success?
    ensures var r := Transcription(videoId, w, files);
      var cfg := GetProxyConfig(w.env).value;
      var proxy := ProxyFor(w.env, cfg);
      1 <= |r.trace| && r.trace[0] == CaptionDownload(proxy, YoutubeUrl(videoId))
      && (|r.trace| > 1 ==> r.trace[1] == AudioPipeline(proxy, YoutubeUrl(videoId)))
      && (forall i :: 1 < i < |r.trace| ==> r.trace[i].LoadModel? || r.trace[i].RunInference?)
      && ParseAuthUrl(proxy) == Some((cfg.user, cfg.password,
           Value(w.env, "PROXY_HOST") + ":" + Value(w.env, "PROXY_PORT")))
  {
    var cfg := GetProxyConfig(w.env).value;
    var proxy := Accepted(videoId, w, files);
    StrategiesTrace(videoId, w, files, proxy);
    ParseAuthProxyUrl(cfg.user, cfg.password, Value(w.env, "PROXY_HOST"), Value(w.env, "PROXY_PORT"));
  }

  /** The order of the steps the two strategies take. */
  lemma StrategiesTrace(videoId: string, w: World, files: Files, proxy: string)
    ensures var t := Strategies(videoId, w, files, proxy).trace;
      1 <= |t| && t[0] == CaptionDownload(proxy, YoutubeUrl(videoId))
      && (|t| > 1 ==> t[1] == AudioPipeline(proxy, YoutubeUrl(videoId)))
      && (forall i :: 1 < i < |t| ==> t[i].LoadModel? || t[i].RunInference?)
  {
    var t := Strategies(videoId, w, files, proxy).trace;
    var steps := AudioStage(w, RequestedModelSize(w.env)).1;
    if |t| > 1 {
      assert t == [t[0], t[1]] + steps;
      forall i | 1 < i < |t| ensures t[i].LoadModel? || t[i].RunInference? {
        assert t[i] == steps[i - 2];
      }
    }
  }

  /** The Whisper steps of the audio path. A failed pipe (a process that
      could not start, a non-zero exit status, no audio bytes) ends it with
      no result before Whisper is touched. Otherwise the requested model is
      loaded first and `tiny` once if that fails. With a model loaded, the
      bridge file is created and written; only then does inference run,
      once, on the model that loaded, and a transcript needs inference not
      to raise. A bridge file is left behind exactly when its write raised. */
  lemma AudioStageSteps(w: World, modelSize: string)
    ensures var (t, steps, temps) := AudioStage(w, modelSize);
      var name := WhisperModelName(modelSize);
      var loads := if w.primaryLoads then [LoadModel(name)] else [LoadModel(name), LoadModel("tiny")];
      var model := if w.primaryLoads then name else "tiny";
      if !PipeDelivers(w) then
        t.None? && steps == [] && temps == {}
      else if !w.primaryLoads && !w.tinyLoads then
        t.None? && steps == loads && temps == {}
      else if !w.bridge.Written? then
        t.None? && steps == loads && (temps == {} <==> w.bridge.CreateRaises?) && temps <= {w.tempPath}
      else
        steps == loads + [RunInference(model)] && temps == {}
        && t == (if w.inference.InferenceRaises? then None else TranscriptOf(w.inference))
  {
    var name := WhisperModelName(modelSize);
    var (model, tried) := LoadWithFallback(name, w.primaryLoads, w.tinyLoads);
    var loads := LoadEvents(tried);
    if w.primaryLoads {
      assert loads == [LoadModel(name)];
    } else {
      assert loads == [LoadModel(name), LoadModel("tiny")];
    }
  }

  /** Over a whole call, a bridge file is left on disk exactly when the
      call got past the captions to a delivering pipe and a loaded model,
      and then the write into the file raised. */
  lemma BridgeFileLeft(videoId: string, w: World, files: Files)
    ensures var r := Transcription(videoId, w, files);
      r.temps == if |videoId| == 11 && GetProxyConfig(w.env).Success?
          && CaptionStage(videoId, w.captionRun, files).0.None?
          && PipeDelivers(w) && (w.primaryLoads || w.tinyLoads) && w.bridge.WriteRaises?
        then {w.tempPath} else {}
  {
    if |videoId| == 11 && GetProxyConfig(w.env).Success? {
      var proxy := Accepted(videoId, w, files);
      AudioStageSteps(w, RequestedModelSize(w.env));
    }
  }

  /** The leak, on one input: the pipe delivers audio, `base` loads, and
      writing the bridge file raises (a full disk). `transcribe` returns
      `None` and the file stays on disk, although the `finally` clause was
      meant to remove it on every path. */
  lemma BridgeFileLeaks(videoId: string, w: World, files: Files)
    requires |videoId| == 11 && GetProxyConfig(w.env).Success?
    requires CaptionStage(videoId, w.captionRun, files).0.None?
    requires w.audio == Ran(0, 0, [0x52, 0x49, 0x46, 0x46]) && w.primaryLoads
    requires w.bridge == WriteRaises
    ensures Transcription(videoId, w, files).outcome == Returned(None)
    ensures Transcription(videoId, w, files).temps == {w.tempPath}
  {
    BridgeFileLeft(videoId, w, files);
    var proxy := Accepted(videoId, w, files);
  }

  /** yt-dlp's exit status for the caption download is never looked at:
      only whether the run raised and which files it left matter. */
  lemma CaptionExitStatusIgnored(videoId: string, w: World, files: Files, a: int, b: int)
    ensures Transcription(videoId, w.(captionRun := CaptionExited(a)), files)
         == Transcription(videoId, w.(captionRun := CaptionExited(b)), files)
  {
    var wa, wb := w.(captionRun := CaptionExited(a)), w.(captionRun := CaptionExited(b));
    assert wa.(captionRun := w.captionRun) == wb.(captionRun := w.captionRun);
    assert AudioStage(wa, RequestedModelSize(w.env)) == AudioStage(wb, RequestedModelSize(w.env));
    assert CaptionStage(videoId, wa.captionRun, files) == CaptionStage(videoId, wb.captionRun, files);
  }
}
