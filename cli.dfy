/** `main` (transcription/main.py:323-353): the command-line entry point,
    as the exit status it ends with. */
module Cli {
  import opened Wrappers
  import opened Text
  import opened Captions
  import opened VideoId
  import opened Pipeline

  /** How the process ends: its exit status, the steps taken, the caption
      files left behind and the bridge WAV files left on disk. */
  datatype Exit = Exit(status: int, trace: seq<Event>, files: Files, temps: set<string>)

  /** The specification of `main`: a wrong number of arguments or a
      rejected ID exits with 1 before anything else happens; otherwise the
      call of `transcribe` decides, 0 for a non-empty transcript and 1 for
      no transcript or an exception. */
  function MainExit(argv: seq<string>, w: World, files: Files): Exit {
    if |argv| != 2 then Exit(1, [], files, {})
    else
      match ValidateArg(argv[1])
      case None => Exit(1, [], files, {})
      case Some(id) =>
        var run := Transcription(id, w, files);
        var ok := run.outcome.Returned? && run.outcome.transcript.Some? && run.outcome.transcript.value != [];
        Exit(if ok then 0 else 1, run.trace, run.files, run.temps)
  }

  /** `main`, step by step. `argv[0]` is the program name. */
  method CommandLine(argv: seq<string>, w: World, files: Files) returns (status: int, trace: seq<Event>, filesAfter: Files, tempsLeft: set<string>)
    ensures Exit(status, trace, filesAfter, tempsLeft) == MainExit(argv, w, files)
  {
    if |argv| != 2 {
      return 1, [], files, {};
    }
    var videoId := Strip(argv[1]);
    if !IsAlnum(RemoveAll(RemoveAll(videoId, "-"), "_")) || |videoId| != 11 {
      return 1, [], files, {};
    }
    var outcome;
    outcome, trace, filesAfter, tempsLeft := Transcribe(videoId, w, files);
    match outcome {
      case Raised(_) =>
        status := 1;
      case Returned(result) =>
        status := if result.Some? && result.value != [] then 0 else 1;
    }
  }

  /** What the exit status means: 0 exactly when there were two arguments,
      the ID passed the check and `transcribe` returned a transcript;
      1 otherwise. An ID that passes the check always passes the length
      guard of `transcribe`, so that guard never raises into the
      fatal-error branch of `main`. A rejected command line takes no step
      and touches no file. */
  lemma MainExitSpec(argv: seq<string>, w: World, files: Files)
    ensures var e := MainExit(argv, w, files);
      (e.status == 0 || e.status == 1)
      && (e.status == 0 <==>
            (|argv| == 2 && ValidateArg(argv[1]).Some?
             && Transcription(ValidateArg(argv[1]).value, w, files).outcome.Returned?
             && Transcription(ValidateArg(argv[1]).value, w, files).outcome.transcript.Some?))
      && (|argv| == 2 && ValidateArg(argv[1]).Some? ==>
            Transcription(ValidateArg(argv[1]).value, w, files).outcome.Returned?)
      && (|argv| != 2 || ValidateArg(argv[1]).None? ==> e.trace == [] && e.files == files && e.temps == {})
  {
    if |argv| == 2 && ValidateArg(argv[1]).Some? {
      TranscriptionOutcome(ValidateArg(argv[1]).value, w, files);
    }
  }
}
