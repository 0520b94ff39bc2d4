/** The two video-ID checks of transcription/main.py: the length guard at
    the top of `transcribe` (main.py:59-60) and the stricter check `main`
    applies to its command-line argument (main.py:330-336). */
module VideoId {
  import opened Wrappers
  import opened Text

  /** The guard of `transcribe`: it goes on only when the ID is non-empty
      and 11 characters long, and raises `ValueError` otherwise. The
      emptiness test adds nothing to the length test. */
  function TranscribeAccepts(id: string): (ok: bool)
    ensures ok <==> |id| == 11
  {
    !(id == [] || |id| != 11)
  }

  /** A character an ID may hold: an ASCII letter or digit, `-` or `_`. */
  predicate IsIdChar(c: char) {
    IsAsciiAlnum(c) || c == '-' || c == '_'
  }

  /** The test of main.py:333 on the stripped argument:
      `id.replace('-', '').replace('_', '').isalnum()` and length 11. */
  predicate CliAccepts(id: string) {
    IsAlnum(RemoveAll(RemoveAll(id, "-"), "_")) && |id| == 11
  }

  /** `main`'s reading of its argument: strip it, then accept it (and pass
      it on to `transcribe`) or reject it with exit status 1. An accepted
      ID always gets past the guard of `transcribe`. */
  function ValidateArg(arg: string): (r: Option<string>)
    ensures r.Some? ==> r.value == Strip(arg) && TranscribeAccepts(r.value)
    ensures r.None? ==> !CliAccepts(Strip(arg))
  {
    var id := Strip(arg);
    if CliAccepts(id) then Some(id) else None
  }

  /** Characters that survive deleting every `-` and `_`. */
  lemma SeparatorsRemoved(id: string)
    ensures forall x :: x in RemoveAll(RemoveAll(id, "-"), "_") <==> x in id && x != '-' && x != '_'
  {
    assert "-" == ['-'] && "_" == ['_'];
    RemoveCharMembers(id, '-');
    RemoveCharMembers(RemoveAll(id, "-"), '_');
  }

  /** What the CLI check means: exactly 11 characters, each a letter, a
      digit, `-` or `_`, and at least one of them a letter or digit. */
  lemma CliAcceptsIff(id: string)
    ensures CliAccepts(id) <==>
      |id| == 11
      && (forall k :: 0 <= k < |id| ==> IsIdChar(id[k]))
      && (exists k :: 0 <= k < |id| && IsAsciiAlnum(id[k]))
  {
    var r := RemoveAll(RemoveAll(id, "-"), "_");
    SeparatorsRemoved(id);
    if CliAccepts(id) {
      assert r[0] in r;
      var k :| 0 <= k < |id| && id[k] == r[0];
      assert IsAsciiAlnum(id[k]);
      forall k | 0 <= k < |id| ensures IsIdChar(id[k]) {
        if id[k] != '-' && id[k] != '_' {
          assert id[k] in r;
          var j :| 0 <= j < |r| && r[j] == id[k];
        }
      }
    }
    if |id| == 11 && (forall k :: 0 <= k < |id| ==> IsIdChar(id[k]))
      && (exists k :: 0 <= k < |id| && IsAsciiAlnum(id[k]))
    {
      var k :| 0 <= k < |id| && IsAsciiAlnum(id[k]);
      assert id[k] in r;
      forall j | 0 <= j < |r| ensures IsAsciiAlnum(r[j]) {
        assert r[j] in id;
        var m :| 0 <= m < |id| && id[m] == r[j];
      }
    }
  }

  /** An ID made only of `-` and `_` is rejected, whatever its length. */
  lemma SeparatorsOnlyRejected(id: string)
    requires forall k :: 0 <= k < |id| ==> id[k] == '-' || id[k] == '_'
    ensures !CliAccepts(id)
  {
    CliAcceptsIff(id);
  }

  /** The example ID of the usage message passes the CLI check. */
  lemma UsageExampleAccepted(id: string)
    requires id == "dQw4w9WgXcQ"
    ensures CliAccepts(id)
  {
    forall k | 0 <= k < |id| ensures IsIdChar(id[k]) {
      assert IsAsciiAlnum(id[k]);
    }
    assert IsAsciiAlnum(id[0]);
    CliAcceptsIff(id);
  }

  /** Whitespace around the argument is stripped off before the check. */
  lemma PaddedExampleAccepted(arg: string, id: string)
    requires id == "dQw4w9WgXcQ" && arg == " " + id + "\n"
    ensures ValidateArg(arg) == Some(id)
  {
    assert arg[1..12] == id;
    assert IsSpace(arg[0]) && IsSpace(arg[12]) && !IsSpace(id[0]) && !IsSpace(id[10]);
    StripUnique(arg, 1, 12);
    UsageExampleAccepted(id);
  }
}
