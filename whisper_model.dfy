/** The Whisper side of `transcribe`: which model is asked for
    (main.py:73), which one is loaded and the one fallback to `tiny`
    (main.py:240-253), and how the inference result becomes the transcript
    (main.py:273-294). Loading and inference themselves are outcomes given
    from outside. */
module WhisperModel {
  import opened Wrappers
  import opened Text
  import Proxy

  const SizeVar := "WHISPER_MODEL_SIZE"

  /** `os.getenv('WHISPER_MODEL_SIZE', 'base')`: the default applies only
      when the variable is missing; a variable set to `""` gives `""`. */
  function RequestedModelSize(env: Proxy.Env): (r: string)
    ensures SizeVar !in env ==> r == "base"
    ensures SizeVar in env ==> r == env[SizeVar]
  {
    if SizeVar in env then env[SizeVar] else "base"
  }

  /** main.py:242: the large models are swapped for `base`; every other
      name is loaded as asked. */
  function WhisperModelName(size: string): (r: string)
    ensures r == "base" <==> size == "base" || size == "large" || size == "large-v3"
    ensures r != "base" ==> r == size
  {
    if size in ["large-v3", "large"] then "base" else size
  }

  /** Loading with one fallback (main.py:240-253): try `name`; if that
      raises, try `tiny` once; if that raises too, there is no model.
      `primaryLoads` and `tinyLoads` say whether each `load_model` call
      succeeds. Gives the loaded model and the names tried, in order. */
  function LoadWithFallback(name: string, primaryLoads: bool, tinyLoads: bool): (r: (Option<string>, seq<string>))
  {
    if primaryLoads then (Some(name), [name])
    else if tinyLoads then (Some("tiny"), [name, "tiny"])
    else (None, [name, "tiny"])
  }

  /** The requested model is always tried first; `tiny` is tried only after
      it fails, and at most once; the outcome is no model exactly when both
      attempts fail, and otherwise the last name tried. */
  lemma LoadWithFallbackSpec(name: string, primaryLoads: bool, tinyLoads: bool)
    ensures var (model, tried) := LoadWithFallback(name, primaryLoads, tinyLoads);
      1 <= |tried| <= 2 && tried[0] == name
      && (|tried| == 2 <==> !primaryLoads)
      && (|tried| == 2 ==> tried[1] == "tiny")
      && (model.None? <==> !primaryLoads && !tinyLoads)
      && (model.Some? ==> model.value == tried[|tried| - 1])
  {
  }

  /** Without `WHISPER_MODEL_SIZE`, and with it set to a large model, the
      model asked for is `base`. */
  lemma DefaultModelIsBase(env: Proxy.Env)
    requires SizeVar !in env || env[SizeVar] == "large" || env[SizeVar] == "large-v3"
    ensures WhisperModelName(RequestedModelSize(env)) == "base"
  {
  }

  /** What `model.transcribe` gives: a result with a `text` field, a result
      without one (carrying what `str(result)` prints), or an exception. */
  datatype Inference = WithText(text: string) | WithoutText(repr: string) | InferenceRaises

  /** main.py:273-276 and 285-294: the stripped text, or the stripped
      printed result when there is no `text` field; an empty one means
      no transcript. */
  function TranscriptOf(inf: Inference): (r: Option<string>)
    requires !inf.InferenceRaises?
    ensures r.Some? ==> r.value != [] && Trimmed(r.value)
  {
    var t := Strip(if inf.WithText? then inf.text else inf.repr);
    if t == [] then None else Some(t)
  }

  /** An inference gives no transcript exactly when what it printed is
      whitespace only; otherwise the transcript is that text stripped. */
  lemma TranscriptOfSpec(inf: Inference)
    requires !inf.InferenceRaises?
    ensures var s := if inf.WithText? then inf.text else inf.repr;
      (TranscriptOf(inf).None? <==> AllSpace(s))
      && (TranscriptOf(inf).Some? ==> TranscriptOf(inf).value == Strip(s))
  {
    StripEmpty(if inf.WithText? then inf.text else inf.repr);
  }

  /** A result without a `text` field that prints as the empty dictionary
      still gives the transcript `{}`: `str({})` is not empty. */
  lemma EmptyDictIsTranscript(inf: Inference)
    requires inf == WithoutText("{}")
    ensures TranscriptOf(inf) == Some("{}")
  {
    var s := inf.repr;
    assert s[..0] == [] && s[2..] == [] && s[0..2] == s;
    StripUnique(s, 0, 2);
  }
}
