# YouTube transcription service — a Dafny model of its decision logic

`transcription/main.py` is a command-line script. It fetches a transcript for
a YouTube video in two ways. First it downloads the auto-generated WebVTT
captions with yt-dlp and flattens them to text. If that gives nothing, it
streams the audio through `yt-dlp | ffmpeg`, writes it to a temporary WAV
file and transcribes it with Whisper. Both downloads go through an
authenticated HTTP proxy built from four environment variables.

This project models the decision procedures inside `transcribe` and `main`.
Everything the script learns from outside is an input:

- the environment;
- how each subprocess ends;
- which caption files exist and what they hold;
- whether each Whisper model loads;
- what inference gives.

The modules are:

- `Text`: the Python `str` operations the script relies on. These are
  `strip()` with Python's full whitespace set, `split`, `join`, the `in`
  substring test, `replace(pat, '')`, and ASCII `isdigit`/`isalnum`.
- `Captions`: the WebVTT-to-text loop and the caption-file probe loop, both
  as methods proved against specification functions.
- `VideoId`: the length guard of `transcribe` and the stricter check in `main`.
- `Utf8` and `Proxy`:
  - `get_proxy_config`;
  - `quote(s, safe='')`, which is UTF-8 (RFC 3629) followed by
    percent-encoding of every byte outside the unreserved set of section 2.3
    of RFC 3986, with uppercase hex digits as section 2.1 recommends;
  - the authenticated proxy URL;
  - a reference decoder and URL parser that show the credentials read back
    intact.
- `WhisperModel`: the requested model size, the `large`→`base` mapping, the
  single fallback to `tiny`, and how an inference result becomes a
  transcript.
- `Pipeline`: `transcribe` as a method with early returns. It is proved equal
  to a specification function `Transcription`, which gives:
  - the outcome (a return value, or the `ValueError` it raises);
  - the trace of external steps (caption download, audio pipe, model loads,
    inference);
  - the caption files left on disk;
  - the temporary WAV file (the bridge file Whisper reads) if one is left
    on disk.
- `Cli`: `main` as the exit status it ends with.

Where the code and its comments or docstrings disagree, the model follows the
code. Four examples:

- The docstring promises "all in RAM without disk writes", but a temporary WAV
  file is written.
- Only the exact tags `<c>` and `</c>` are removed, and only lines starting
  with `WEBVTT` are treated as a header.
- yt-dlp's exit status for the caption download is never looked at.
- The bridge WAV file is deleted in a `finally` clause, but it is created and
  written before that `try` begins. A write that raises leaves it on disk
  (see "## Findings"). `transcribe` is modelled with the code's ordering,
  and `Pipeline.TryAudioCleaned` gives the corrected ordering.

## Model

| member | source | states |
|---|---|---|
| Text.Strip | transcription/main.py:132 | `strip()` leaves no whitespace at either end and never lengthens the string |
| Text.StripUnique | transcription/main.py:132 | any infix with only whitespace around it and none at its own ends is exactly what `strip()` returns; this pins `Strip` down completely |
| Text.StripEmpty | transcription/main.py:137 | `strip()` leaves nothing exactly when the string is all whitespace (the `if clean_line:` and `if result_text:` tests) |
| Text.StripIdempotent | transcription/main.py:136 | stripping an already stripped string changes nothing |
| Text.StripKeeps | transcription/main.py:132 | `strip()` only removes characters |
| Text.Split | transcription/main.py:129 | `split('\n')` gives at least one piece, and no piece holds a newline |
| Text.JoinSplit | transcription/main.py:129 | joining the pieces of a split with the separator gives the string back |
| Text.SplitJoin | transcription/main.py:129 | splitting a join of separator-free pieces gives the pieces back |
| Text.ContainsAt | transcription/main.py:133 | the substring test `'-->' in line` holds exactly when the pattern occurs at some index |
| Text.ContainsFirstChar | transcription/main.py:133 | a string that contains a pattern contains the pattern's first character |
| Text.RemoveAll | transcription/main.py:135 | `replace(pat, '')` never lengthens the string |
| Text.RemoveAllUnchanged | transcription/main.py:135 | a string without the pattern is left as it is |
| Text.RemoveAllKeeps | transcription/main.py:135 | removing a pattern adds no character |
| Text.RemoveAllSkip | transcription/main.py:135 | the scan is left to right: a prefix free of the pattern's first character is kept verbatim |
| Text.RemoveAllFront | transcription/main.py:135 | an occurrence at the front is deleted |
| Text.RemoveCharMembers | transcription/main.py:333 | `replace(c, '')` removes every `c` and keeps every other character |
| Captions.RemoveCTags | transcription/main.py:135 | removing `<c>` and then `</c>` never lengthens a line |
| Captions.RemoveCTagsKeeps | transcription/main.py:135 | a line without either tag is unchanged, and tag removal adds no character |
| Captions.EndTagKept | transcription/main.py:135 | removing `<c>` leaves `</c>` intact, so the second `replace` is the one that removes it |
| Captions.CleanLine | transcription/main.py:132-138 | a kept line is non-empty and stripped, and came from a line that, once stripped, passes the header, timestamp and digits filter |
| Captions.CleanLineKeeps | transcription/main.py:132-138 | every character of a kept line occurs in the raw line |
| Captions.CleanCaptionLine | transcription/main.py:132-138 | the loop body computes `CleanLine` |
| Captions.KeptLines | transcription/main.py:131-138 | no more pieces than lines; every piece is non-empty and stripped |
| Captions.KeptLinesStep | transcription/main.py:137-138 | one more line appends its cleaned form, or nothing |
| Captions.KeptLinesAppend | transcription/main.py:131-138 | pieces keep the order of their lines: `kept(a + b) == kept(a) + kept(b)` |
| Captions.KeptLinesMembers | transcription/main.py:131-138 | a piece is kept exactly when some line cleans to it |
| Captions.KeptLinesEmpty | transcription/main.py:131-140 | nothing is kept exactly when every line is dropped |
| Captions.ParseCaptions | transcription/main.py:129-140 | the loop over the lines computes `CaptionText(doc)` |
| Captions.JoinTrimmed | transcription/main.py:140 | a single-space join of non-empty stripped pieces is stripped, and is empty only when there are no pieces |
| Captions.JoinNoChar | transcription/main.py:140 | joining pieces that lack a character with a separator that lacks it gives a string without it |
| Captions.CaptionTextOneLine | transcription/main.py:129-140 | the caption text holds no newline |
| Captions.CaptionTextShape | transcription/main.py:129-141 | the caption text is stripped, and is empty exactly when every line is dropped |
| Captions.EmptyDocumentHasNoText | transcription/main.py:126-141 | an empty caption file gives no text, so skipping it at `if caption_text:` changes nothing |
| Captions.WebvttLineDropped | transcription/main.py:133 | every line whose stripped form starts with `WEBVTT` is dropped |
| Captions.OtherHeaderLineKept | transcription/main.py:133 | a `Kind: captions` header line is kept as text |
| Captions.PlainLineKept | transcription/main.py:133-138 | a stripped cue line without tags, `-->` or an all-digit form is kept verbatim |
| Captions.CTagsRemoved | transcription/main.py:135-136 | a padded `<c>word</c>` line cleans to the word |
| Captions.CaptionCandidates | transcription/main.py:110-115 | the four candidate file names are distinct |
| Captions.FirstCaptionIsFirst | transcription/main.py:117-124 | the probe finds nothing exactly when no candidate exists; otherwise it reads the first existing candidate and no other |
| Captions.ProbeCaptions | transcription/main.py:117-124 | the loop's result is `FirstCaption`; the file it read is deleted and nothing else is, and a file whose read raised stays |
| VideoId.TranscribeAccepts | transcription/main.py:59-60 | `transcribe` goes on exactly when the ID has 11 characters |
| VideoId.ValidateArg | transcription/main.py:330-336 | an accepted argument is the stripped argument, and it passes `transcribe`'s guard; a rejected one fails the check |
| VideoId.SeparatorsRemoved | transcription/main.py:333 | after deleting `-` and `_`, exactly the other characters remain |
| VideoId.CliAcceptsIff | transcription/main.py:333 | the CLI accepts exactly 11 characters, each a letter, digit, `-` or `_`, with at least one letter or digit |
| VideoId.SeparatorsOnlyRejected | transcription/main.py:333 | an ID made only of `-` and `_` is rejected |
| VideoId.UsageExampleAccepted | transcription/main.py:327 | the usage message's example ID passes the check |
| VideoId.PaddedExampleAccepted | transcription/main.py:330-333 | whitespace around the argument is stripped before the check |
| Utf8.EncodeChar | transcription/main.py:81-82 | each character takes one to four bytes |
| Utf8.Encode | transcription/main.py:81-82 | an encoding is at least as long as the string |
| Utf8.DecodeEncodeChar | transcription/main.py:81-82 | a character's bytes decode back to it, whatever follows |
| Utf8.DecodeEncode | transcription/main.py:81-82 | decoding inverts encoding |
| Utf8.EncodeCharExamples | transcription/main.py:81-82 | U+00F1 encodes as C3 B1 and U+20AC as E2 82 AC |
| Utf8.EncodeAscii | transcription/main.py:81-82 | an ASCII string is its own bytes |
| Proxy.MissingVars | transcription/main.py:30-35 | the list of missing variables is no longer than the list of names |
| Proxy.MissingVarsMembers | transcription/main.py:30-35 | a name is listed exactly when it is among the names and missing or empty |
| Proxy.MissingVarsAppend | transcription/main.py:30-35 | the listing keeps the order of the names |
| Proxy.GetProxyConfig | transcription/main.py:22-45 | it fails exactly when some variable is missing or empty, and the message lists the missing ones; otherwise it gives `http://host:port`, the user and the password |
| Proxy.MissingVarsInOrder | transcription/main.py:29-36 | the message names each missing variable in the order USER, PASS, HOST, PORT, and nothing else |
| Proxy.NothingSetMessage | transcription/main.py:36 | with nothing set, all four names are listed in order |
| Proxy.HexDigit | transcription/main.py:81-82 | hex digits are unreserved characters |
| Proxy.HexRoundTrip | transcription/main.py:81-82 | a hex digit reads back as its value |
| Proxy.QuoteByte | transcription/main.py:81-82 | one byte becomes itself, if unreserved, or `%XX` |
| Proxy.QuoteBytes | transcription/main.py:81-82 | an encoded byte string holds only unreserved characters and `%` |
| Proxy.Quote | transcription/main.py:81-82 | an encoded credential holds only unreserved characters and `%`, so it has no `:`, `@` or `/` |
| Proxy.PercentDecodeByte | transcription/main.py:81-82 | decoding an encoded byte yields that byte, then decodes the rest |
| Proxy.PercentDecodeQuoteBytes | transcription/main.py:81-82 | percent-decoding inverts percent-encoding |
| Proxy.UnquoteQuote | transcription/main.py:81-82 | decoding an encoded credential gives the credential back |
| Proxy.QuoteUnreserved | transcription/main.py:81-82 | a credential made of unreserved ASCII characters is not changed |
| Proxy.FirstIndex | transcription/main.py:84 | the index found is the first occurrence, and none means no occurrence |
| Proxy.FirstIndexAt | transcription/main.py:84 | the first occurrence in `a + [c] + b` with `c` not in `a` is at `|a|` |
| Proxy.ParseQuotedUserInfo | transcription/main.py:81-84 | the user-info part splits at its only `:` into the original user and password |
| Proxy.ParseAuthProxyUrl | transcription/main.py:84 | parsing the authenticated proxy URL gives back user, password and `host:port` |
| Proxy.AuthUrlExtendsConfigUrl | transcription/main.py:40-84 | the authenticated URL is the configured URL with the encoded credentials put in front of the host |
| WhisperModel.RequestedModelSize | transcription/main.py:73 | `WHISPER_MODEL_SIZE`, or `base` only when it is missing |
| WhisperModel.WhisperModelName | transcription/main.py:242 | the result is `base` exactly for `base`, `large` and `large-v3`; any other size is used unchanged |
| WhisperModel.DefaultModelIsBase | transcription/main.py:73-242 | without the variable, or with a large model asked for, `base` is loaded |
| WhisperModel.LoadWithFallbackSpec | transcription/main.py:240-253 | the requested model is tried first and `tiny` at most once after it fails; there is no model exactly when both fail |
| WhisperModel.TranscriptOf | transcription/main.py:273-294 | a transcript is non-empty and stripped |
| WhisperModel.TranscriptOfSpec | transcription/main.py:273-294 | no transcript exactly when the text (or the printed result) is whitespace only; otherwise it is that text stripped |
| WhisperModel.EmptyDictIsTranscript | transcription/main.py:273-276 | a result without a `text` field that prints as `{}` gives the transcript `{}` |
| Pipeline.LoadEvents | transcription/main.py:240-253 | one load step per model tried, in order |
| Pipeline.AudioStage | transcription/main.py:221-294 | an audio-path transcript is non-empty and stripped; after the pipe, only model loads and inference happen; at most the one bridge file is left |
| Pipeline.AudioStageSteps | transcription/main.py:221-283 | a failed pipe returns nothing before Whisper is touched; otherwise the requested model, then `tiny` once; with a model, the bridge file is created and written, and only then does inference run once on the model that loaded; the bridge file is left exactly when its write raised |
| Pipeline.LoadWhisper | transcription/main.py:238-253 | the nested `try` blocks load the model `LoadWithFallback` gives and record one step per name tried |
| Pipeline.TryAudio | transcription/main.py:221-294 | the exit-status, empty-audio, model and bridge-file checks, in source order, compute `AudioStage`, including the bridge file left when its write raises |
| Pipeline.TryAudioCleaned | transcription/main.py:255-283 | with the write moved inside the `try`, the transcript and steps are those of `TryAudio`, and no bridge file is left on any path |
| Pipeline.BridgeFileLeft | transcription/main.py:255-283 | a call leaves a bridge file exactly when captions gave no text, the pipe delivered audio, a model loaded and writing the file raised |
| Pipeline.BridgeFileLeaks | transcription/main.py:255-259 | on a full disk after `base` loads, `transcribe` returns `None` and the bridge file stays on disk |
| Pipeline.TryCaptions | transcription/main.py:105-151 | the caption strategy computes `CaptionStage` |
| Pipeline.CaptionStageText | transcription/main.py:126-146 | a caption text that is returned is non-empty and stripped |
| Pipeline.RunStrategies | transcription/main.py:72-320 | the two strategies compute `Strategies`, including the bridge file left behind |
| Pipeline.Transcribe | transcription/main.py:48-320 | the method computes `Transcription`: the outcome, the steps, the caption files left and the bridge file left |
| Pipeline.TranscriptionOutcome | transcription/main.py:59-60 | `transcribe` raises exactly for an ID not 11 long, before any step and touching no file; a transcript it returns is non-empty and stripped |
| Pipeline.StrategiesTranscript | transcription/main.py:141-294 | the strategies always return, and a transcript from either one is non-empty and stripped |
| Pipeline.MissingProxyStopsEarly | transcription/main.py:65-70 | a missing or empty proxy variable returns `None` before any download |
| Pipeline.TranscriptSource | transcription/main.py:117-154 | with captions that parse to text, that text is returned and the audio path never runs; otherwise the audio path runs and decides |
| Pipeline.CaptionFileConsumed | transcription/main.py:117-124 | the only file removed is the caption file that was read |
| Pipeline.StrategiesTrace | transcription/main.py:88-271 | captions come first, the audio pipe at most once and right after, then only Whisper steps |
| Pipeline.TraceShape | transcription/main.py:79-170 | the same proxy URL is used for both downloads, and its credentials read back as the configured ones |
| Pipeline.CaptionExitStatusIgnored | transcription/main.py:107 | yt-dlp's exit status for the caption download does not change anything |
| Cli.CommandLine | transcription/main.py:323-353 | `main` computes `MainExit` |
| Cli.MainExitSpec | transcription/main.py:323-353 | the exit status is 0 exactly when there are two arguments, the ID passes and a transcript comes back, and 1 otherwise; the ID check of `main` implies `transcribe`'s length guard, so that guard never raises into `main`'s fatal-error branch (for environments of Unicode scalar strings); a rejected command line takes no step and leaves no file |

## Left out

- Subprocess plumbing is not modelled: `subprocess.run`, `Popen`, pipes,
  `communicate`, `wait`, the 60-second timeout and `kill`. Each run is an
  input outcome: it raised, or it exited with a status (plus ffmpeg's bytes).
  A decoding error while printing yt-dlp's or ffmpeg's stderr is not
  modelled either; it is caught and gives the same `None`.
- The `except subprocess.TimeoutExpired` clause is unreachable. The
  `except Exception` clause comes first, and `TimeoutExpired` is an
  `Exception`. Nothing in the pipe sets a timeout anyway.
- The `except KeyboardInterrupt` clause is not shadowed by `except Exception`,
  because `KeyboardInterrupt` is a `BaseException`. It is unreachable only
  because main.py:188 replaces the SIGINT handler before the `try` at 191
  begins. Neither clause's `kill` calls are modelled.
- Signals are not modelled, because they are asynchronous and process-wide.
  - Before main.py:188-189, the default handling applies. During the caption
    download, SIGINT raises `KeyboardInterrupt`. Neither `except Exception`
    clause (main.py:150, 351) catches it, so the run ends with a traceback
    and a non-zero status. SIGTERM ends the process.
  - After main.py:188-189, the handler calls `sys.exit(0)`. No clause catches
    `SystemExit`, so a run interrupted there exits with status 0.
- Whisper's loading and inference internals, including floating-point
  settings, are opaque outcomes: the model loads or not, and the result has a
  `text` field, has none (given by what `str(result)` prints), or raises.
- Printing and log formatting are not modelled, including the 500-character
  preview (main.py:144). They do not affect results.
- The filesystem is a map from path to file, and only the caption candidates
  are modelled:
  - text-mode reading (universal newlines) is folded into the file's
    contents;
  - a file that is not valid UTF-8 stands for a read that raises;
  - a failing `os.unlink` is not modelled;
  - the bridge WAV file is the set `temps` of paths left on disk.
- Other files yt-dlp may leave behind are not modelled: subtitles for a
  second language, or a partial download when the run raises. The model shows
  that only the first existing candidate is deleted.
- Strings are sequences of Unicode scalar values. Python strings read from
  `os.getenv` can also hold lone surrogates, which happens when an
  environment value is not valid UTF-8. On such a `PROXY_USER` or
  `PROXY_PASS`, `quote` at main.py:81-82 raises `UnicodeEncodeError`. That
  call is outside any `try` in `transcribe`, so the error reaches `main`'s
  fatal-error branch (main.py:351-353) and the exit status is 1. This input
  is not modelled. `Cli.MainExitSpec` states "the fatal-error branch is not
  reached from the length guard" only for environments of Unicode scalar
  strings. A `print` that raises because stdout cannot encode a string is
  not modelled either.
- `isdigit` and `isalnum` are modelled on ASCII only. Python also accepts
  other Unicode digits and letters. `strip` uses Python's full set of 29
  whitespace code points.
- `Proxy.PercentDecode` and `Proxy.ParseAuthUrl` are strict reference
  decoders used to state the round trips. They are not models of Python's
  lenient `unquote` or of yt-dlp's URL parser.
- The command line is a list of strings. `sys.exit` is the returned exit
  status.

## Findings

| source | as written | input that shows it | evidently intended | confidence | as-written member | corrected member |
|---|---|---|---|---|---|---|
| transcription/main.py:255-283 | The bridge WAV file is created with `delete=False` and written at 257-259, before the `try` whose `finally` deletes it at 278-283. A write that raises skips the deletion, and the `except Exception` at 296 returns `None`. | A valid ID and proxy, no caption text, a pipe that delivers audio, `base` loads, and the write to `/tmp` fails because the disk is full. | Once the bridge file exists, it is deleted on every path, which is what the cleanup in the `finally` at 278-283 is for. | not executed; the ordering is read from the code | Pipeline.BridgeFileLeaks | Pipeline.TryAudioCleaned |
