/** Strategy 1 of `transcribe` (transcription/main.py:107-146): find the
    WebVTT caption file that yt-dlp wrote, read it, delete it, and turn its
    cue text into one line of plain text. */
module Captions {
  import opened Wrappers
  import opened Text

  // ---------------------------------------------------------------------
  // From WebVTT text to one line of plain text (main.py:129-140)
  // ---------------------------------------------------------------------

  /** The filter a stripped caption line must pass: non-empty, not the
      `WEBVTT` header line, not a cue-timing line (it would contain `-->`),
      and not a cue number (all digits). Other header lines such as
      `Kind: captions` or `Language: en` pass. */
  predicate IsCueText(t: string) {
    t != [] && !("WEBVTT" <= t) && !Contains(t, "-->") && !IsDigits(t)
  }

  /** `t.replace('<c>', '').replace('</c>', '')`: only these two exact tags
      go; every other tag stays. */
  function RemoveCTags(t: string): (r: string)
    ensures |r| <= |t|
  {
    RemoveAll(RemoveAll(t, "<c>"), "</c>")
  }

  /** A line without `<c>` and `</c>` comes through tag removal unchanged,
      and tag removal never adds a character. */
  lemma RemoveCTagsKeeps(t: string)
    ensures !Contains(t, "<c>") && !Contains(t, "</c>") ==> RemoveCTags(t) == t
    ensures forall x :: x in RemoveCTags(t) ==> x in t
  {
    RemoveAllUnchanged(t, "<c>");
    RemoveAllUnchanged(RemoveAll(t, "<c>"), "</c>");
    RemoveAllKeeps(t, "<c>");
    RemoveAllKeeps(RemoveAll(t, "<c>"), "</c>");
  }

  /** What the loop body does with one line of the caption text: the line
      it appends to `text_lines`, if any. */
  function CleanLine(line: string): (r: Option<string>)
    ensures r.Some? ==> r.value != [] && Trimmed(r.value)
    ensures r.Some? ==> IsCueText(Strip(line))
  {
    var t := Strip(line);
    if IsCueText(t) then
      var c := Strip(RemoveCTags(t));
      if c != [] then Some(c) else None
    else None
  }

  /** A kept line holds only characters of the line it came from. */
  lemma CleanLineKeeps(line: string)
    ensures CleanLine(line).Some? ==> forall c :: c in CleanLine(line).value ==> c in line
  {
    var t := Strip(line);
    forall x | x in Strip(RemoveCTags(t)) ensures x in line {
      StripKeeps(RemoveCTags(t), x);
      RemoveCTagsKeeps(t);
      StripKeeps(line, x);
    }
  }

  /** The list `text_lines` holds after the loop has seen `lines`: the
      cleaned form of every line that passes, in the original order. */
  function KeptLines(lines: seq<string>): (r: seq<string>)
    ensures |r| <= |lines|
    ensures forall k :: 0 <= k < |r| ==> r[k] != [] && Trimmed(r[k])
  {
    if lines == [] then []
    else
      var init := KeptLines(lines[..|lines| - 1]);
      match CleanLine(lines[|lines| - 1])
      case Some(c) => init + [c]
      case None => init
  }

  /** `' '.join(text_lines)` for the caption text `doc`, split on `'\n'`. */
  function CaptionText(doc: string): string
  {
    Join(KeptLines(Split(doc, '\n')), " ")
  }

  /** The parse loop of main.py:129-140. */
  method ParseCaptions(doc: string) returns (text: string)
    ensures text == CaptionText(doc)
  {
    var lines := Split(doc, '\n');
    var textLines: seq<string> := [];
    var i := 0;
    while i < |lines|
      invariant 0 <= i <= |lines|
      invariant textLines == KeptLines(lines[..i])
    {
      KeptLinesStep(lines, i);
      var cleaned := CleanCaptionLine(lines[i]);
      if cleaned.Some? {
        textLines := textLines + [cleaned.value];
      }
      i := i + 1;
    }
    assert lines[..i] == lines;
    CaptionTextOf(doc, lines);
    text := Join(textLines, " ");
  }

  /** The body of the parse loop for one line: strip it, test it, remove
      the `<c>` tags, strip again, and keep it if anything is left. */
  method CleanCaptionLine(raw: string) returns (kept: Option<string>)
    ensures kept == CleanLine(raw)
  {
    kept := None;
    var line := Strip(raw);
    if line != [] && !("WEBVTT" <= line) && !Contains(line, "-->") && !IsDigits(line) {
      var cleanLine := RemoveAll(line, "<c>");
      cleanLine := RemoveAll(cleanLine, "</c>");
      cleanLine := Strip(cleanLine);
      if cleanLine != [] {
        kept := Some(cleanLine);
      }
    }
  }

  /** One more line either adds its cleaned form at the end or adds
      nothing. */
  lemma KeptLinesStep(lines: seq<string>, i: nat)
    requires i < |lines|
    ensures CleanLine(lines[i]).Some? ==> KeptLines(lines[..i + 1]) == KeptLines(lines[..i]) + [CleanLine(lines[i]).value]
    ensures CleanLine(lines[i]).None? ==> KeptLines(lines[..i + 1]) == KeptLines(lines[..i])
  {
    assert lines[..i + 1][..i] == lines[..i];
  }

  /** Kept lines are computed line by line: the lines kept from `a + b` are
      those kept from `a` followed by those kept from `b`. */
  lemma KeptLinesAppend(a: seq<string>, b: seq<string>)
    ensures KeptLines(a + b) == KeptLines(a) + KeptLines(b)
  {
    KeptLinesSomes(a);
    KeptLinesSomes(b);
    KeptLinesSomes(a + b);
    CleanedLinesAppend(a, b);
    SomesAppend(CleanedLines(a), CleanedLines(b));
  }

  lemma CleanedLinesAppend(a: seq<string>, b: seq<string>)
    ensures CleanedLines(a + b) == CleanedLines(a) + CleanedLines(b)
  {
    MapSeqAppend(CleanLine, a, b);
  }

  /** Filtering distributes over concatenation. */
  lemma {:induction false} SomesAppend(xs: seq<Option<string>>, ys: seq<Option<string>>)
    ensures Somes(xs + ys) == Somes(xs) + Somes(ys)
    decreases |ys|
  {
    if ys != [] {
      var m := |ys| - 1;
      SomesAppend(xs, ys[..m]);
      assert (xs + ys)[..|xs + ys| - 1] == xs + ys[..m];
      assert (xs + ys)[|xs + ys| - 1] == ys[m];
    } else {
      assert xs + ys == xs;
    }
  }

  /** A piece is kept exactly when some line cleans to it. */
  lemma KeptLinesMembers(lines: seq<string>, p: string)
    ensures p in KeptLines(lines) <==> exists i :: 0 <= i < |lines| && CleanLine(lines[i]) == Some(p)
  {
    var xs := CleanedLines(lines);
    KeptLinesSomes(lines);
    SomesMembers(xs, p);
    if exists i :: 0 <= i < |lines| && CleanLine(lines[i]) == Some(p) {
      var i :| 0 <= i < |lines| && CleanLine(lines[i]) == Some(p);
      assert xs[i] == Some(p);
    }
    if exists i :: 0 <= i < |xs| && xs[i] == Some(p) {
      var i :| 0 <= i < |xs| && xs[i] == Some(p);
      assert CleanLine(lines[i]) == Some(p);
    }
  }

  /** The cleaning result of each line, in order. */
  function CleanedLines(lines: seq<string>): (r: seq<Option<string>>)
    ensures |r| == |lines|
    ensures forall i :: 0 <= i < |lines| ==> r[i] == CleanLine(lines[i])
  {
    MapSeq(CleanLine, lines)
  }

  /** `f` applied to each element of `xs`. */
  function MapSeq<A, B>(f: A -> B, xs: seq<A>): (r: seq<B>)
    ensures |r| == |xs|
    ensures forall i :: 0 <= i < |xs| ==> r[i] == f(xs[i])
  {
    seq(|xs|, i requires 0 <= i < |xs| => f(xs[i]))
  }

  lemma MapSeqAppend<A, B>(f: A -> B, a: seq<A>, b: seq<A>)
    ensures MapSeq(f, a + b) == MapSeq(f, a) + MapSeq(f, b)
  {
    var l, r := MapSeq(f, a + b), MapSeq(f, a) + MapSeq(f, b);
    forall i | 0 <= i < |l| ensures l[i] == r[i] {
      if i < |a| {
        assert (a + b)[i] == a[i];
      } else {
        assert (a + b)[i] == b[i - |a|];
      }
    }
  }

  /** The values of the `Some` entries of `xs`, in order. */
  function Somes(xs: seq<Option<string>>): seq<string> {
    if xs == [] then []
    else Somes(xs[..|xs| - 1]) + (if xs[|xs| - 1].Some? then [xs[|xs| - 1].value] else [])
  }

  /** A value is kept exactly when some entry holds it. */
  lemma {:induction false} SomesMembers(xs: seq<Option<string>>, p: string)
    ensures p in Somes(xs) <==> exists i :: 0 <= i < |xs| && xs[i] == Some(p)
    decreases |xs|
  {
    if xs != [] {
      var n := |xs| - 1;
      var init := xs[..n];
      SomesMembers(init, p);
      if p in Somes(xs) && p in Somes(init) {
        var i :| 0 <= i < |init| && init[i] == Some(p);
        assert xs[i] == init[i];
      }
      if exists i :: 0 <= i < |xs| && xs[i] == Some(p) {
        var i :| 0 <= i < |xs| && xs[i] == Some(p);
        if i < n {
          assert init[i] == xs[i];
        }
      }
    }
  }

  /** Keeping the lines is filtering their cleaning results. */
  lemma {:induction false} KeptLinesSomes(lines: seq<string>)
    ensures KeptLines(lines) == Somes(CleanedLines(lines))
    decreases |lines|
  {
    if lines != [] {
      var n := |lines| - 1;
      KeptLinesSomes(lines[..n]);
      assert CleanedLines(lines)[..n] == CleanedLines(lines[..n]);
    }
  }

  lemma {:induction false} JoinNoChar(parts: seq<string>, sep: string, c: char)
    requires c !in sep
    requires forall k :: 0 <= k < |parts| ==> c !in parts[k]
    ensures c !in Join(parts, sep)
    decreases |parts|
  {
    if |parts| > 1 {
      JoinNoChar(parts[1..], sep, c);
    }
  }

  lemma {:induction false} JoinTrimmed(parts: seq<string>, sep: string)
    requires forall k :: 0 <= k < |parts| ==> parts[k] != [] && Trimmed(parts[k])
    ensures Trimmed(Join(parts, sep))
    ensures Join(parts, sep) == [] <==> parts == []
    ensures parts != [] ==> |Join(parts, sep)| >= |parts[0]| && Join(parts, sep)[..|parts[0]|] == parts[0]
    decreases |parts|
  {
    if |parts| > 1 {
      JoinTrimmed(parts[1..], sep);
      var j := parts[0] + sep + Join(parts[1..], sep);
      assert j[0] == parts[0][0];
      assert j[|j| - 1] == Join(parts[1..], sep)[|Join(parts[1..], sep)| - 1];
      assert j[..|parts[0]|] == parts[0];
    }
  }

  /** The extracted caption text is one line: it holds no `'\n'`. */
  lemma CaptionTextOneLine(doc: string)
    ensures '\n' !in CaptionText(doc)
  {
    var lines := Split(doc, '\n');
    var kept := KeptLines(lines);
    forall k | 0 <= k < |kept| ensures '\n' !in kept[k] {
      KeptLinesMembers(lines, kept[k]);
      var i :| 0 <= i < |lines| && CleanLine(lines[i]) == Some(kept[k]);
      CleanLineKeeps(lines[i]);
    }
    JoinNoChar(kept, " ", '\n');
  }

  /** The extracted caption text has no leading or trailing whitespace, and
      it is empty exactly when no line of the document passes the filter
      and survives tag removal. */
  lemma CaptionTextShape(doc: string)
    ensures Trimmed(CaptionText(doc))
    ensures var lines := Split(doc, '\n');
      CaptionText(doc) == [] <==> forall i :: 0 <= i < |lines| ==> CleanLine(lines[i]) == None
  {
    var lines := Split(doc, '\n');
    CaptionTextOf(doc, lines);
    JoinTrimmed(KeptLines(lines), " ");
    KeptLinesEmpty(lines);
  }

  /** Names the split lines, so that `Split`'s definition stays folded. */
  lemma CaptionTextOf(doc: string, lines: seq<string>)
    requires lines == Split(doc, '\n')
    ensures CaptionText(doc) == Join(KeptLines(lines), " ")
  {
  }

  /** No line is kept exactly when every line is dropped. */
  lemma KeptLinesEmpty(lines: seq<string>)
    ensures KeptLines(lines) == [] <==> forall i :: 0 <= i < |lines| ==> CleanLine(lines[i]) == None
  {
    var kept := KeptLines(lines);
    if kept != [] {
      KeptLinesMembers(lines, kept[0]);
    }
    forall i | 0 <= i < |lines| && CleanLine(lines[i]).Some? ensures kept != [] {
      KeptLinesMembers(lines, CleanLine(lines[i]).value);
    }
  }

  /** An empty file yields no caption text, so the source's separate
      `if caption_text:` test never changes the outcome. */
  lemma EmptyDocumentHasNoText()
    ensures CaptionText("") == ""
  {
    assert Split("", '\n') == [""];
    assert KeptLines([""]) == KeptLines([]) + [];
  }

  /** Every line whose stripped form starts with `WEBVTT` is dropped: the
      bare header line and one that carries a description after it alike. */
  lemma WebvttLineDropped(line: string)
    requires "WEBVTT" <= Strip(line)
    ensures CleanLine(line) == None
  {
  }

  /** A cue line with no surrounding whitespace and no `<c>`/`</c>` tag is
      kept exactly as it is: any other markup stays in the text. */
  lemma PlainLineKept(line: string)
    requires IsCueText(line) && Trimmed(line)
    requires !Contains(line, "<c>") && !Contains(line, "</c>")
    ensures CleanLine(line) == Some(line)
  {
    StripUnique(line, 0, |line|);
    RemoveCTagsKeeps(line);
    assert Strip(RemoveCTags(line)) == line;
  }

  /** Header lines other than `WEBVTT` are kept as caption text. */
  lemma OtherHeaderLineKept(line: string)
    requires line == "Kind: captions"
    ensures CleanLine(line) == Some(line)
  {
    ContainsFirstChar(line, "-->");
    ContainsFirstChar(line, "<c>");
    ContainsFirstChar(line, "</c>");
    assert line[0] == 'K' && line[|line| - 1] == 's';
    PlainLineKept(line);
  }

  /** A cue wrapped in `<c>`...`</c>` and padded with spaces comes out as
      the bare cue. */
  lemma CTagsRemoved(w: string)
    requires w != [] && Trimmed(w) && '<' !in w && '-' !in w
    ensures CleanLine(" <c>" + w + "</c> ") == Some(w)
  {
    var t := PaddedTagStrips(w);
    TaggedCueIsCueText(w, t);
    TagsRemovedFrom(w, t);
    StripUnique(w, 0, |w|);
    assert Strip(RemoveCTags(t)) == w;
  }

  lemma PaddedTagStrips(w: string) returns (t: string)
    requires w != [] && Trimmed(w)
    ensures t == "<c>" + w + "</c>"
    ensures Strip(" <c>" + w + "</c> ") == t
  {
    t := "<c>" + w + "</c>";
    var line := " " + t + " ";
    assert line == " <c>" + w + "</c> ";
    assert line[1..|line| - 1] == t;
    assert t[0] == '<' && t[|t| - 1] == '>';
    StripUnique(line, 1, |line| - 1);
  }

  lemma TaggedCueIsCueText(w: string, t: string)
    requires '-' !in w
    requires t == "<c>" + w + "</c>"
    ensures IsCueText(t)
  {
    assert '-' !in t;
    ContainsFirstChar(t, "-->");
    assert t[0] == '<';
  }

  lemma TagsRemovedFrom(w: string, t: string)
    requires '<' !in w
    requires t == "<c>" + w + "</c>"
    ensures RemoveCTags(t) == w
  {
    assert t == "<c>" + (w + "</c>");
    RemoveAllFront(w + "</c>", "<c>");
    RemoveAllSkip(w, "</c>", "<c>");
    EndTagKept();
    RemoveAllSkip(w, "</c>", "</c>");
    RemoveAllFront([], "</c>");
    assert w + [] == w;
  }

  /** Removing `<c>` leaves the end tag `</c>` alone. */
  lemma EndTagKept()
    ensures RemoveAll("</c>", "<c>") == "</c>"
  {
    var e: string := "</c>";
    var rest := e[1..];
    var empty: string := [];
    assert rest + empty == rest;
    RemoveAllSkip(rest, empty, "<c>");
    assert e[1] == '/';
    assert !("<c>" <= e);
    assert e == [e[0]] + rest;
  }

  // ---------------------------------------------------------------------
  // Finding the caption file (main.py:110-124)
  // ---------------------------------------------------------------------

  /** What reading a file in text mode with UTF-8 decoding gives: its text
      (after universal-newline translation), or a decoding error. */
  datatype CaptionFile = Utf8Text(contents: string) | NotUtf8

  /** The part of the filesystem the caption probe looks at. */
  type Files = map<string, CaptionFile>

  /** The outcome of the probe loop: no candidate exists; the first existing
      one was read (and deleted); or reading it raised (so it was not
      deleted and the exception left the caption strategy). */
  datatype Probe = NoCaptionFile | Read(path: string, contents: string) | ReadRaised(path: string)

  /** The file names yt-dlp may have written, in the order they are tried. */
  function CaptionCandidates(videoId: string): (r: seq<string>)
    ensures |r| == 4
    ensures forall a, b :: 0 <= a < b < |r| ==> r[a] != r[b]
  {
    var p := "/tmp/" + videoId;
    var r := [p + ".en.vtt", p + ".es.vtt", p + ".en-US.vtt", p + ".vtt"];
    assert r[0][|p| + 2] != r[1][|p| + 2];
    assert r[0][|p| + 3] != r[2][|p| + 3];
    assert |r[0]| != |r[3]| && |r[2]| != |r[3]| && |r[1]| != |r[2]|;
    assert r[1][|p| + 3] != r[2][|p| + 3] || |r[1]| != |r[2]|;
    r
  }

  /** The probe's result for the candidate list `cands`, read off the
      first candidate that exists. */
  function FirstCaption(cands: seq<string>, files: Files): Probe
    decreases |cands|
  {
    if cands == [] then NoCaptionFile
    else if cands[0] in files then
      match files[cands[0]]
      case Utf8Text(t) => Read(cands[0], t)
      case NotUtf8 => ReadRaised(cands[0])
    else FirstCaption(cands[1..], files)
  }

  /** The first existing candidate decides the probe, and only it is
      looked at: the probe finds nothing exactly when no candidate exists;
      otherwise it names candidate `k`, which exists while none before it
      does, and it was read when the file decodes as UTF-8. */
  lemma {:induction false} FirstCaptionIsFirst(cands: seq<string>, files: Files)
    ensures FirstCaption(cands, files) == NoCaptionFile <==> forall k :: 0 <= k < |cands| ==> cands[k] !in files
    ensures FirstCaption(cands, files) != NoCaptionFile ==>
      exists k :: 0 <= k < |cands| && IsFirstExisting(cands, files, k)
        && FirstCaption(cands, files) == ProbeOf(cands[k], files[cands[k]])
    decreases |cands|
  {
    if cands != [] && cands[0] !in files {
      FirstCaptionIsFirst(cands[1..], files);
      var p := FirstCaption(cands[1..], files);
      if p != NoCaptionFile {
        var k :| 0 <= k < |cands| - 1 && IsFirstExisting(cands[1..], files, k)
          && p == ProbeOf(cands[1..][k], files[cands[1..][k]]);
        forall j | 0 <= j < k + 1 ensures cands[j] !in files {
          if j > 0 { assert cands[j] == cands[1..][j - 1]; }
        }
        assert IsFirstExisting(cands, files, k + 1);
      } else {
        forall k | 0 <= k < |cands| ensures cands[k] !in files {
          if k > 0 { assert cands[k] == cands[1..][k - 1]; }
        }
      }
    } else if cands != [] {
      assert IsFirstExisting(cands, files, 0);
    }
  }

  /** Candidate `k` exists and no candidate before it does. */
  predicate IsFirstExisting(cands: seq<string>, files: Files, k: nat)
    requires k < |cands|
  {
    cands[k] in files && forall j :: 0 <= j < k ==> cands[j] !in files
  }

  /** Opening `path` in text mode: its text, or the decoding error. */
  function ProbeOf(path: string, f: CaptionFile): Probe {
    match f
    case Utf8Text(t) => Read(path, t)
    case NotUtf8 => ReadRaised(path)
  }

  /** The probe loop of main.py:117-124: try each candidate in turn; read
      the first one that exists, delete it once the read succeeded, and
      stop. */
  method ProbeCaptions(videoId: string, files: Files) returns (probe: Probe, filesAfter: Files)
    ensures probe == FirstCaption(CaptionCandidates(videoId), files)
    ensures filesAfter == if probe.Read? then files - {probe.path} else files
  {
    var candidates := CaptionCandidates(videoId);
    probe, filesAfter := NoCaptionFile, files;
    var i := 0;
    while i < |candidates|
      invariant 0 <= i <= |candidates|
      invariant FirstCaption(candidates, files) == FirstCaption(candidates[i..], files)
      invariant probe == NoCaptionFile && filesAfter == files
    {
      var capFile := candidates[i];
      if capFile in files {
        match files[capFile] {
          case Utf8Text(t) =>
            probe := Read(capFile, t);
            filesAfter := files - {capFile};
          case NotUtf8 =>
            probe := ReadRaised(capFile);
        }
        break;
      }
      assert candidates[i..][1..] == candidates[i + 1..];
      i := i + 1;
    }
  }
}
